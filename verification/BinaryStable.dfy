/** Modules that were read: every module that was read can be written, unless a run of locals became too
    long for its count, and is then read once more as itself. Nothing that a reader may have relied on
    is lost: the sections the writer leaves out or adds, and the DataCount section, make no difference. */
module BinaryStable {
  import opened Wrappers
  import opened Varints
  import opened BinaryFields
  import opened BinaryBody
  import opened BinaryCode
  import opened BinaryEntities
  import opened BinaryModule
  import opened BinaryRewrite

  // ----- bodies -----

  /** The body is as reading leaves it. */
  ghost predicate Settled(table: OpTable, body: Body, maxLocals: nat) {
    && BodyOk(table, body) && Normal(table, body) == body && WithinLocals(body.locals, maxLocals)
    && Named(body.locals) == body.locals
  }

  lemma ContentSettled(table: OpTable, s: seq<Byte>, maxLocals: nat, count: Option<nat>, accepts: Acceptor)
    requires TableOk(table) && ReadContent(table, s, maxLocals, count, accepts).Some?
    ensures var body := ReadContent(table, s, maxLocals, count, accepts).value;
            Settled(table, body, maxLocals) && SegmentsKnown(table, body.ops, count) && accepts(body)
  {
    hide ReadU32, ReadLocals, ReadOperators, WriteOperators, Renumbered, SegmentsKnown, TableOk, EncodeType, Named;
    var body := ReadContent(table, s, maxLocals, count, accepts).value;
    var n := ReadU32(s).value;
    var l := ReadLocals(n.0, n.1, [], maxLocals).value;
    LocalsRead(n.0, n.1, [], maxLocals);
    OperatorsRead(table, l.1, [], count, body.ops, body.tables);
    NamedAll(body.locals);
  }

  /** The bodies are as reading leaves those of the functions from index `i` on. */
  ghost predicate AllSettled(table: OpTable, bodies: seq<Body>, i: nat, rules: Rules, context: Image,
      count: Option<nat>) {
    forall k :: 0 <= k < |bodies| ==>
      && Settled(table, bodies[k], rules.maxLocals) && SegmentsKnown(table, bodies[k].ops, count)
      && rules.accepts(context, i + k, bodies[k])
  }

  lemma AllSettledJoin(table: OpTable, body: Body, others: seq<Body>, i: nat, rules: Rules, context: Image,
      count: Option<nat>)
    requires Settled(table, body, rules.maxLocals) && SegmentsKnown(table, body.ops, count) && rules.accepts(context, i, body)
    requires AllSettled(table, others, i + 1, rules, context, count)
    ensures AllSettled(table, [body] + others, i, rules, context, count)
  {
    hide Settled, SegmentsKnown;
    var all := [body] + others;
    forall k | 0 < k < |all|
      ensures Settled(table, all[k], rules.maxLocals) && SegmentsKnown(table, all[k].ops, count)
      ensures rules.accepts(context, i + k, all[k])
    {
      assert all[k] == others[k - 1] && i + k == i + 1 + (k - 1);
    }
  }

  lemma {:induction false} BodiesSettled(table: OpTable, i: nat, n: nat, s: seq<Byte>, rules: Rules, context: Image,
      count: Option<nat>)
    requires TableOk(table) && ReadBodies(table, i, n, s, rules, context, count).Some?
    ensures var bodies := ReadBodies(table, i, n, s, rules, context, count).value.0;
            |bodies| == n && AllSettled(table, bodies, i, rules, context, count)
    decreases n
  {
    hide ReadBytes, ReadContent, Settled, TableOk, SegmentsKnown;
    if n > 0 {
      var content := ReadBytes(s).value;
      ContentSettled(table, content.0, rules.maxLocals, count, AcceptorOf(rules, context, i));
      BodiesSettled(table, i + 1, n - 1, content.1, rules, context, count);
      var first := ReadContent(table, content.0, rules.maxLocals, count, AcceptorOf(rules, context, i)).value;
      AllSettledJoin(table, first, ReadBodies(table, i + 1, n - 1, content.1, rules, context, count).value.0, i, rules,
                     context, count);
    }
  }

  predicate AllRunsFit(bodies: seq<Body>) {
    forall k :: 0 <= k < |bodies| ==> RunsFit(bodies[k].locals)
  }

  lemma AllRunsSplit(bodies: seq<Body>)
    requires |bodies| > 0
    ensures AllRunsFit(bodies) <==> RunsFit(bodies[0].locals) && AllRunsFit(bodies[1..])
  {
    hide RunsFit;
    assert forall k :: 0 < k < |bodies| ==> bodies[k] == bodies[1..][k - 1];
  }

  /** What writing the bodies gives, if they were read from the front of `s`. */
  ghost predicate BodiesPutBack(table: OpTable, bodies: seq<Body>, s: seq<Byte>, rest: seq<Byte>) {
    && BodiesOk(table, bodies) && (WriteBodies(table, bodies).Some? <==> AllRunsFit(bodies))
    && (AllRunsFit(bodies) ==> Refits(WriteBodies(table, bodies), s, rest))
  }

  lemma {:induction false} BodiesRefit(table: OpTable, i: nat, n: nat, s: seq<Byte>, rules: Rules, context: Image,
      count: Option<nat>)
    requires TableOk(table) && ReadBodies(table, i, n, s, rules, context, count).Some?
    ensures var r := ReadBodies(table, i, n, s, rules, context, count).value; BodiesPutBack(table, r.0, s, r.1)
    decreases n
  {
    hide ReadBytes, WriteBytes, ReadContent, WriteContent, TableOk, BodyOk, AllRunsFit, RunsFit;
    if n == 0 {
      NoBodies();
    } else {
      var content := ReadBytes(s).value;
      var first := ReadContent(table, content.0, rules.maxLocals, count, AcceptorOf(rules, context, i)).value;
      ContentFits(table, content.0, rules.maxLocals, count, AcceptorOf(rules, context, i));
      BodiesRefit(table, i + 1, n - 1, content.1, rules, context, count);
      var others := ReadBodies(table, i + 1, n - 1, content.1, rules, context, count).value.0;
      assert ([first] + others)[1..] == others;
      AllRunsSplit([first] + others);
      BytesFit(s);
      if RunsFit(first.locals) {
        FewerBytes(WriteContent(table, first).value, content.0);
      }
    }
  }

  lemma NoBodies()
    ensures AllRunsFit([])
  {
  }

  lemma FewerBytes(a: seq<Byte>, b: seq<Byte>)
    requires |a| <= |b| && WriteBytes(b).Some?
    ensures WriteBytes(a).Some? && |WriteBytes(a).value| <= |WriteBytes(b).value|
  {
    hide WriteU32;
    assert |b| <= MAX_U32 by { Writable(|b|); }
    CountFits(|a|, |b|);
  }

  lemma Writable(v: nat)
    ensures WriteU32(v).Some? <==> v <= MAX_U32
  {
  }

  // ----- what holds of the reader's state -----

  /** The section of some rank can be written. */
  ghost predicate Puts(m: Image, rank: nat, isUtf8: Utf8) {
    Present(m, rank) ==> Declaration(m, rank, isUtf8).Some? && |Declaration(m, rank, isUtf8).value| <= MAX_U32
  }

  /** The sections of declarations were validated, and can be written. */
  ghost predicate DeclarationsOk(m: Image, last: nat, rules: Rules) {
    && Interface(m) == Declared(m, last)
    && ImportsOk(m.imports, |m.types|, rules.isUtf8) && TypesKnown(m.functionTypes, |m.types|)
    && forall rank: nat :: IsValidated(rank) ==>
         Puts(m, rank, rules.isUtf8) && (Present(m, rank) ==> rules.declared(Declared(m, rank), rank))
  }

  ghost predicate CodeOk(table: OpTable, st: State, rules: Rules) {
    var m := st.image;
    && (st.hadCode ==> st.last >= CODE) && (!st.hadCode ==> m.bodies == [])
    && (st.hadCode ==>
          && |m.bodies| == |m.functionTypes| <= MAX_U32
          && AllSettled(table, m.bodies, 0, rules, Declared(m, ELEM), CountOf(st))
          && BodiesOk(table, m.bodies) && (WriteBodies(table, m.bodies).Some? <==> AllRunsFit(m.bodies))
          && (AllRunsFit(m.bodies) ==> |WriteU32(|m.bodies|).value| + |WriteBodies(table, m.bodies).value| <= MAX_U32))
  }

  ghost predicate SegmentsOk(st: State, rules: Rules) {
    && (st.hadData ==> st.last >= DATA && |st.image.segments| == st.count <= MAX_U32)
    && (!st.hadData ==> st.image.segments == [] && (!st.hadCount ==> st.count == 0))
    && st.count <= rules.maxDataSegments
  }

  ghost predicate UsersOk(users: seq<UserSection>, isUtf8: Utf8) {
    forall i :: 0 <= i < |users| ==> UserOk(users[i], isUtf8)
  }

  ghost predicate UserOk(u: UserSection, isUtf8: Utf8) {
    isUtf8(u.name) && WriteBytes(u.name).Some? && |WriteBytes(u.name).value| + |u.data| <= MAX_U32
  }

  ghost predicate StateOk(table: OpTable, st: State, rules: Rules) {
    && DeclarationsOk(st.image, st.last, rules) && CodeOk(table, st, rules) && SegmentsOk(st, rules)
    && UsersOk(st.image.users, rules.isUtf8)
  }

  // ----- one section -----

  lemma WholeRefits<T(!new)>(write: Writer<T>, read: Reader<T>, payload: seq<Byte>)
    requires Rewrites(write, read) && ReadWhole(read, payload).Some?
    ensures var bytes := WriteCounted(write, ReadWhole(read, payload).value); bytes.Some? && |bytes.value| <= |payload|
  {
    hide Rewrites, WriteCounted, ReadCounted;
    CountedFits(write, read, payload);
  }

  lemma DeclarationPuts(st: State, rank: nat, payload: seq<Byte>, isUtf8: Utf8)
    requires 1 <= rank <= ELEM && |payload| <= MAX_U32 && ReadDeclarations(st, rank, payload, isUtf8).Some?
    ensures Puts(ReadDeclarations(st, rank, payload, isUtf8).value, rank, isUtf8)
  {
    hide Rewrites, WriteCounted, ReadWhole, ReadU32, WriteU32, ReadArray, WriteArray, ImportsOk, TypesKnown;
    match rank
    case 1 =>
      FuncTypeRewrites();
      WholeRefits(WriteFuncType, ReadFuncType, payload);
    case 2 =>
      ImportRewrites();
      WholeRefits(WriteImport, ReadImport, payload);
    case 3 => ArrayFits(payload);
    case 4 =>
      TableTypeRewrites();
      WholeRefits(WriteTableType, ReadTableType, payload);
    case 5 =>
      LimitsRewrites();
      WholeRefits(WriteLimits, ReadLimits, payload);
    case 6 =>
      GlobalRewrites();
      WholeRefits(WriteGlobal, ReadGlobal, payload);
    case 7 =>
      TupleRewrites();
      WholeRefits(WriteTuple, ReadTuple, payload);
    case 8 =>
      ExportRewrites(isUtf8);
      WholeRefits(ExportWriter(isUtf8), ExportReader(isUtf8), payload);
    case 9 => U32Fits(payload);
    case 10 =>
      ElemsRewrites();
      WholeRefits(WriteElems, ReadElems, payload);
  }

  /** Reading one section changes the declarations of its own rank only. */
  ghost predicate SameBelow(a: Image, b: Image, rank: nat) {
    && a.bodies == b.bodies && a.segments == b.segments && a.users == b.users
    && forall r: nat :: r < rank ==> Declared(a, r) == Declared(b, r) && (Present(a, r) <==> Present(b, r))
  }

  lemma DeclarationSame(st: State, rank: nat, payload: seq<Byte>, isUtf8: Utf8)
    requires 1 <= rank <= ELEM && ReadDeclarations(st, rank, payload, isUtf8).Some?
    requires Interface(st.image) == Declared(st.image, rank - 1)
    ensures var m := ReadDeclarations(st, rank, payload, isUtf8).value;
            SameBelow(st.image, m, rank) && Interface(m) == Declared(m, rank)
  {
    hide ReadWhole, ReadU32, ReadArray, ImportsOk, TypesKnown;
  }

  lemma PutsSame(a: Image, b: Image, rank: nat, isUtf8: Utf8)
    requires 1 <= rank <= ELEM && Declared(a, rank) == Declared(b, rank)
    ensures (Present(a, rank) <==> Present(b, rank)) && (Puts(a, rank, isUtf8) <==> Puts(b, rank, isUtf8))
  {
    hide WriteCounted, WriteArray, WriteU32;
  }

  lemma NothingAbove(m: Image, last: nat, rank: nat)
    requires Interface(m) == Declared(m, last) && IsValidated(rank) && rank > last
    ensures !Present(m, rank)
  {
    assert Interface(m).types == Declared(m, last).types && Interface(m).start == Declared(m, last).start;
  }

  lemma ReadingTested(st: State, rank: nat, payload: seq<Byte>, rules: Rules)
    requires 1 <= rank <= ELEM && ReadDeclarations(st, rank, payload, rules.isUtf8).Some?
    requires Interface(st.image) == Declared(st.image, rank - 1)
    requires ImportsOk(st.image.imports, |st.image.types|, rules.isUtf8) && TypesKnown(st.image.functionTypes, |st.image.types|)
    ensures var m := ReadDeclarations(st, rank, payload, rules.isUtf8).value;
            ImportsOk(m.imports, |m.types|, rules.isUtf8) && TypesKnown(m.functionTypes, |m.types|)
  {
    hide ReadWhole, ReadU32, ReadArray;
  }

  lemma DeclarationsGrow(st: State, rank: nat, payload: seq<Byte>, rules: Rules)
    requires 1 <= rank <= ELEM && DeclarationsOk(st.image, rank - 1, rules) && |payload| <= MAX_U32
    requires ReadDeclarations(st, rank, payload, rules.isUtf8).Some?
    requires rules.declared(Interface(ReadDeclarations(st, rank, payload, rules.isUtf8).value), rank)
    ensures DeclarationsOk(ReadDeclarations(st, rank, payload, rules.isUtf8).value, rank, rules)
  {
    hide ReadDeclarations, ImportsOk, TypesKnown, Declared, Interface, Puts, Present;
    var m := ReadDeclarations(st, rank, payload, rules.isUtf8).value;
    DeclarationSame(st, rank, payload, rules.isUtf8);
    ReadingTested(st, rank, payload, rules);
    forall r: nat | IsValidated(r)
      ensures Puts(m, r, rules.isUtf8) && (Present(m, r) ==> rules.declared(Declared(m, r), r))
    {
      if r < rank {
        PutsSame(st.image, m, r, rules.isUtf8);
      } else if r == rank {
        DeclarationPuts(st, rank, payload, rules.isUtf8);
      } else {
        NothingAbove(m, rank, r);
        AbsentPuts(m, r, rules.isUtf8);
      }
    }
  }

  lemma AbsentPuts(m: Image, rank: nat, isUtf8: Utf8)
    requires !Present(m, rank)
    ensures Puts(m, rank, isUtf8)
  {
  }

  /** A section may leave out those before it. */
  lemma DeclarationsLater(m: Image, last: nat, later: nat, rules: Rules)
    requires DeclarationsOk(m, last, rules) && last <= later
    ensures DeclarationsOk(m, later, rules)
  {
    hide ImportsOk, TypesKnown, Puts;
  }

  lemma DeclarationOk(table: OpTable, st: State, rank: nat, payload: seq<Byte>, rules: Rules)
    requires StateOk(table, st, rules) && st.last < rank <= ELEM && |payload| <= MAX_U32
    requires ReadDeclarations(st, rank, payload, rules.isUtf8).Some?
    requires rules.declared(Interface(ReadDeclarations(st, rank, payload, rules.isUtf8).value), rank)
    ensures StateOk(table, st.(image := ReadDeclarations(st, rank, payload, rules.isUtf8).value, last := rank), rules)
  {
    hide ReadDeclarations, DeclarationsOk, UsersOk;
    assert Interface(st.image) == Declared(st.image, rank - 1) by { DeclarationsFull(st.image, st.last, rank - 1, rules); }
    DeclarationsLater(st.image, st.last, rank - 1, rules);
    DeclarationsGrow(st, rank, payload, rules);
    DeclarationSame(st, rank, payload, rules.isUtf8);
  }

  lemma DeclarationsFull(m: Image, last: nat, later: nat, rules: Rules)
    requires DeclarationsOk(m, last, rules) && last <= later
    ensures Interface(m) == Declared(m, later)
  {
    DeclarationsLater(m, last, later, rules);
  }

  lemma CodeRead(table: OpTable, st: State, payload: seq<Byte>, rules: Rules)
    requires TableOk(table) && StateOk(table, st, rules) && st.last < CODE && |payload| <= MAX_U32
    requires ReadCode(table, st.(last := CODE), payload, rules).Some?
    ensures StateOk(table, ReadCode(table, st.(last := CODE), payload, rules).value, rules)
  {
    hide ReadU32, WriteU32, ReadBodies, WriteBodies, BodiesOk, AllSettled, TableOk, AllRunsFit, UsersOk, DeclarationsOk;
    var r := ReadCode(table, st.(last := CODE), payload, rules).value;
    var n := ReadU32(payload).value;
    U32Fits(payload);
    DeclarationsFull(st.image, st.last, DATA_COUNT, rules);
    assert Declared(st.image, DATA_COUNT) == Declared(st.image, ELEM);
    BodiesSettled(table, 0, n.0, n.1, rules, Interface(st.image), CountOf(st));
    BodiesRefit(table, 0, n.0, n.1, rules, Interface(st.image), CountOf(st));
    assert Declared(r.image, ELEM) == Declared(st.image, ELEM);
    BodiesMatterNot(st.image, st.last, r.image.bodies, CODE, rules);
  }

  lemma BodiesMatterNot(m: Image, last: nat, bodies: seq<Body>, later: nat, rules: Rules)
    requires DeclarationsOk(m, last, rules) && last <= later
    ensures DeclarationsOk(m.(bodies := bodies), later, rules)
  {
    hide ImportsOk, TypesKnown, WriteCounted, WriteArray, WriteU32;
    DeclarationsLater(m, last, later, rules);
    var more := m.(bodies := bodies);
    forall rank: nat | IsValidated(rank)
      ensures Puts(more, rank, rules.isUtf8) && (Present(more, rank) ==> rules.declared(Declared(more, rank), rank))
    {
      assert Puts(m, rank, rules.isUtf8);
      assert Declared(more, rank) == Declared(m, rank);
    }
  }

  lemma DataRead(table: OpTable, st: State, payload: seq<Byte>, rules: Rules)
    requires StateOk(table, st, rules) && st.last < DATA && |payload| <= MAX_U32
    requires ReadDataSection(st.(last := DATA), payload, rules).Some?
    ensures StateOk(table, ReadDataSection(st.(last := DATA), payload, rules).value, rules)
  {
    hide ReadU32, ReadWhole, WriteBodies, BodiesOk, AllSettled, AllRunsFit, UsersOk, DeclarationsOk;
    var r := ReadDataSection(st.(last := DATA), payload, rules).value;
    WholeCount(payload);
    DataDeclared(st.image, st.last, payload, rules);
    assert Declared(r.image, ELEM) == Declared(st.image, ELEM);
  }

  lemma DataDeclared(m: Image, last: nat, payload: seq<Byte>, rules: Rules)
    requires DeclarationsOk(m, last, rules) && last < DATA && |payload| <= MAX_U32 && ReadWhole(ReadData, payload).Some?
    requires rules.declared(Interface(m.(segments := ReadWhole(ReadData, payload).value)), DATA)
    ensures DeclarationsOk(m.(segments := ReadWhole(ReadData, payload).value), DATA, rules)
  {
    hide ImportsOk, TypesKnown, ReadWhole, WriteCounted, WriteArray, WriteU32, Rewrites;
    var more := m.(segments := ReadWhole(ReadData, payload).value);
    DeclarationsLater(m, last, DATA - 1, rules);
    DataRewrites();
    WholeRefits(WriteData, ReadData, payload);
    assert Interface(more) == Declared(more, DATA);
    forall rank: nat | IsValidated(rank)
      ensures Puts(more, rank, rules.isUtf8) && (Present(more, rank) ==> rules.declared(Declared(more, rank), rank))
    {
      assert Puts(m, rank, rules.isUtf8);
      assert rank < DATA ==> Declared(more, rank) == Declared(m, rank);
    }
  }

  lemma WholeCount(payload: seq<Byte>)
    requires ReadU32(payload).Some? && ReadWhole(ReadData, payload).Some?
    ensures |ReadWhole(ReadData, payload).value| == ReadU32(payload).value.0
  {
    hide ReadU32, ReadData;
    var n := ReadU32(payload).value;
    AllCount(ReadData, n.0, n.1);
  }

  lemma {:induction false} AllCount<T>(read: Reader<T>, n: nat, s: seq<Byte>)
    requires ReadAll(read, n, s).Some?
    ensures |ReadAll(read, n, s).value.0| == n
    decreases n
  {
    if n > 0 {
      AllCount(read, n - 1, read(s).value.1);
    }
  }

  lemma UserRead(table: OpTable, st: State, payload: seq<Byte>, rules: Rules)
    requires StateOk(table, st, rules) && |payload| <= MAX_U32 && ReadUser(st, payload, rules.isUtf8).Some?
    ensures StateOk(table, ReadUser(st, payload, rules.isUtf8).value, rules)
  {
    hide ReadBytes, WriteBytes, WriteBodies, BodiesOk, AllSettled, AllRunsFit, DeclarationsOk;
    BytesFit(payload);
    var r := ReadUser(st, payload, rules.isUtf8).value;
    UsersMatterNot(st.image, st.last, r.image.users, rules);
    assert Declared(r.image, ELEM) == Declared(st.image, ELEM);
  }

  lemma UsersMatterNot(m: Image, last: nat, users: seq<UserSection>, rules: Rules)
    requires DeclarationsOk(m, last, rules)
    ensures DeclarationsOk(m.(users := users), last, rules)
  {
    hide ImportsOk, TypesKnown, WriteCounted, WriteArray, WriteU32;
    var more := m.(users := users);
    forall rank: nat | IsValidated(rank)
      ensures Puts(more, rank, rules.isUtf8) && (Present(more, rank) ==> rules.declared(Declared(more, rank), rank))
    {
      assert Puts(m, rank, rules.isUtf8);
      assert Declared(more, rank) == Declared(m, rank);
    }
  }

  lemma CountRead(table: OpTable, st: State, count: nat, rules: Rules)
    requires StateOk(table, st, rules) && st.last < DATA_COUNT && count <= rules.maxDataSegments
    ensures StateOk(table, st.(last := DATA_COUNT, hadCount := true, count := count), rules)
  {
    hide DeclarationsOk, UsersOk;
    DeclarationsLater(st.image, st.last, DATA_COUNT, rules);
  }

  lemma ApplyOk(table: OpTable, st: State, section: Section, rules: Rules)
    requires TableOk(table) && StateOk(table, st, rules) && 1 <= section.rank <= USER && |section.payload| <= MAX_U32
    requires Apply(table, st, section, rules).Some?
    ensures StateOk(table, Apply(table, st, section, rules).value, rules)
  {
    hide StateOk, ReadUser, ReadCode, ReadDataSection, ReadDeclarations, ReadU32, TableOk;
    var later := st.(last := section.rank);
    if section.rank == USER {
      UserRead(table, st, section.payload, rules);
    } else if section.rank == CODE {
      CodeRead(table, st, section.payload, rules);
    } else if section.rank == DATA {
      DataRead(table, st, section.payload, rules);
    } else if section.rank == DATA_COUNT {
      CountRead(table, st, ReadU32(section.payload).value.0, rules);
    } else {
      SameDeclarations(st, later, section.rank, section.payload, rules.isUtf8);
      DeclarationOk(table, st, section.rank, section.payload, rules);
    }
  }

  lemma SameDeclarations(a: State, b: State, rank: nat, payload: seq<Byte>, isUtf8: Utf8)
    requires a.image == b.image
    ensures ReadDeclarations(a, rank, payload, isUtf8) == ReadDeclarations(b, rank, payload, isUtf8)
  {
  }

  lemma PayloadSize(s: seq<Byte>)
    requires ReadBytes(s).Some?
    ensures |ReadBytes(s).value.0| <= MAX_U32
  {
  }

  lemma {:induction false} SectionsOk(table: OpTable, s: seq<Byte>, st: State, rules: Rules)
    requires TableOk(table) && StateOk(table, st, rules) && ReadSections(table, s, st, rules).Some?
    ensures StateOk(table, ReadSections(table, s, st, rules).value, rules)
    decreases |s|
  {
    hide StateOk, Apply, ReadBytes, TableOk;
    if s != [] {
      var rank, payload := RankOf(s[0]).value, ReadBytes(s[1..]).value;
      PayloadSize(s[1..]);
      ApplyOk(table, st, Section(rank, payload.0), rules);
      SectionsOk(table, payload.1, Apply(table, st, Section(rank, payload.0), rules).value, rules);
    }
  }

  lemma BeginOk(table: OpTable, rules: Rules)
    ensures StateOk(table, BEGIN, rules)
  {
    assert Interface(BEGIN.image) == Declared(BEGIN.image, 0);
  }

  // ----- the module can be written -----

  /** The sections are written, each in a 32-bit size. */
  ghost predicate AllPut(sections: Option<seq<Section>>) {
    sections.Some? && forall i :: 0 <= i < |sections.value| ==> |sections.value[i].payload| <= MAX_U32
  }

  lemma CodePuts(table: OpTable, st: State, rules: Rules)
    requires StateOk(table, st, rules) && Finish(st).Some? && ImageOk(table, st.image) && Present(st.image, CODE)
    ensures WriteCode(table, st.image).Some? <==> AllRunsFit(st.image.bodies)
    ensures AllRunsFit(st.image.bodies) ==> |WriteCode(table, st.image).value| <= MAX_U32
  {
    hide WriteU32, WriteBodies, BodiesOk, AllRunsFit, AllSettled, DeclarationsOk;
    Writable(|st.image.bodies|);
  }

  lemma SectionPuts(table: OpTable, st: State, rank: nat, rules: Rules)
    requires StateOk(table, st, rules) && Finish(st).Some? && ImageOk(table, st.image)
    requires 1 <= rank <= DATA && Present(st.image, rank)
    ensures var payload := Payload(table, st.image, rank, rules.isUtf8);
            && (rank != CODE || AllRunsFit(st.image.bodies) ==> payload.Some? && |payload.value| <= MAX_U32)
            && (rank == CODE ==> (payload.Some? <==> AllRunsFit(st.image.bodies)))
  {
    hide CodeOk, ImageOk, AllRunsFit, WriteCode, WriteCounted, WriteArray, WriteU32, UsersOk, Declared, ImportsOk,
         TypesKnown;
    if rank == CODE {
      CodePuts(table, st, rules);
    } else if rank == DATA_COUNT {
      CountPuts(|st.image.segments|);
    } else {
      assert IsValidated(rank) && Puts(st.image, rank, rules.isUtf8);
    }
  }

  lemma CountPuts(n: nat)
    requires n <= MAX_U32
    ensures WriteU32(n).Some? && |WriteU32(n).value| <= MAX_U32
  {
    Pow128Values();
    UnsignedFits(n, 5);
  }

  lemma {:induction false} KnownPuts(table: OpTable, st: State, rank: nat, rules: Rules)
    requires StateOk(table, st, rules) && Finish(st).Some? && ImageOk(table, st.image) && rank >= 1
    ensures AllRunsFit(st.image.bodies) ==> AllPut(KnownFrom(table, st.image, rank, rules.isUtf8))
    ensures rank <= CODE && Present(st.image, CODE) && KnownFrom(table, st.image, rank, rules.isUtf8).Some? ==>
              AllRunsFit(st.image.bodies)
    decreases DATA + 1 - rank
  {
    hide StateOk, ImageOk, Payload, Present, AllRunsFit, Finish;
    if rank <= DATA {
      KnownPuts(table, st, rank + 1, rules);
      if Present(st.image, rank) {
        SectionPuts(table, st, rank, rules);
      }
    }
  }

  lemma {:induction false} UsersPut(users: seq<UserSection>, isUtf8: Utf8)
    requires UsersOk(users, isUtf8)
    ensures AllPut(UserSections(users)) && NamesOk(users, isUtf8)
  {
    hide WriteBytes;
    if users != [] {
      assert UserOk(users[0], isUtf8);
      assert forall i :: 0 <= i < |users[1..]| ==> users[1..][i] == users[i + 1];
      UsersPut(users[1..], isUtf8);
      assert forall i :: 0 <= i < |users| ==> UserOk(users[i], isUtf8);
    }
  }

  lemma {:induction false} SectionsPut(sections: seq<Section>)
    requires Ranked(sections) && AllPut(Some(sections))
    ensures WriteSections(sections).Some?
  {
    hide WriteU32;
    if sections != [] {
      Writable(|sections[0].payload|);
      assert forall i :: 0 <= i < |sections[1..]| ==> sections[1..][i] == sections[i + 1];
      SectionsPut(sections[1..]);
    }
  }

  lemma ModulePuts(table: OpTable, st: State, rules: Rules)
    requires StateOk(table, st, rules) && Finish(st).Some? && ImageOk(table, st.image)
    ensures WriteModule(table, st.image, rules.isUtf8).Some? <==> AllRunsFit(st.image.bodies)
  {
    hide KnownFrom, UserSections, WriteSections, Ranked, AllRunsFit, ImageOk, DeclarationsOk, CodeOk;
    var m := st.image;
    KnownPuts(table, st, 1, rules);
    UsersPut(m.users, rules.isUtf8);
    KnownRanked(table, m, 1, rules.isUtf8);
    UsersRanked(m.users);
    if AllRunsFit(m.bodies) {
      var known, users := KnownFrom(table, m, 1, rules.isUtf8).value, UserSections(m.users).value;
      RankedTogether(known, users);
      SectionsPut(known + users);
    }
    if WriteModule(table, m, rules.isUtf8).Some? && !Present(m, CODE) {
      assert m.bodies == [] by { assert |m.bodies| == |m.functionTypes| by { Counts(table, m); } }
      NoBodies();
    }
  }

  lemma Counts(table: OpTable, m: Image)
    requires ImageOk(table, m)
    ensures |m.bodies| == |m.functionTypes|
  {
  }

  // ----- the module is read again -----

  /** Segments that were announced once are announced again, unless there are none. */
  lemma SegmentsAgain(table: OpTable, ops: seq<Operator>, count: Option<nat>, again: Option<nat>)
    requires SegmentsKnown(table, ops, count) && (count.None? || count.value == 0 || again == count)
    ensures SegmentsKnown(table, ops, again)
  {
  }

  lemma BodiesAgain(table: OpTable, bodies: seq<Body>, rules: Rules, context: Image, count: Option<nat>,
      again: Option<nat>)
    requires TableOk(table) && AllSettled(table, bodies, 0, rules, context, count)
    requires count.None? || count.value == 0 || again == count
    ensures BodiesOk(table, bodies) && Normals(table, bodies) == bodies
    ensures AllReadable(table, bodies, 0, rules, context, again)
  {
    hide Normal, SegmentsKnown, TableOk, WithinLocals, Named, AllOperatorsOk;
    forall k | 0 <= k < |bodies| ensures BodyOk(table, bodies[k]) && Normal(table, bodies[k]) == bodies[k] {
      assert Settled(table, bodies[k], rules.maxLocals);
    }
    forall k | 0 <= k < |bodies| ensures Readable(table, bodies[k], 0 + k, rules, context, again) {
      assert Settled(table, bodies[k], rules.maxLocals);
      SegmentsAgain(table, bodies[k].ops, count, again);
    }
  }

  lemma AnnouncedAgain(st: State, rules: Rules)
    requires SegmentsOk(st, rules) && Finish(st).Some?
    ensures CountOf(st).None? || CountOf(st).value == 0 || WrittenCount(st.image) == CountOf(st)
    ensures |st.image.segments| <= rules.maxDataSegments
  {
  }

  lemma LoadableAgain(table: OpTable, st: State, rules: Rules)
    requires TableOk(table) && StateOk(table, st, rules) && Finish(st).Some?
    ensures ImageOk(table, st.image) && Normals(table, st.image.bodies) == st.image.bodies
    ensures Loadable(table, st.image, rules)
  {
    hide TableOk, AllSettled, BodiesOk, Normals, AllReadable, ImportsOk, TypesKnown, Declared, Puts, Present;
    var m := st.image;
    AnnouncedAgain(st, rules);
    UsersPut(m.users, rules.isUtf8);
    assert AllSettled(table, m.bodies, 0, rules, Declared(m, ELEM), CountOf(st)) by {
      if !st.hadCode {
        NoneSettled(table, rules, Declared(m, ELEM), CountOf(st));
      }
    }
    BodiesAgain(table, m.bodies, rules, Declared(m, ELEM), CountOf(st), WrittenCount(m));
  }

  lemma NoneSettled(table: OpTable, rules: Rules, context: Image, count: Option<nat>)
    ensures AllSettled(table, [], 0, rules, context, count)
  {
  }

  /** For every input and every validation: a module that was read can be written exactly if every run of
      its locals fits a 32-bit count, and is then read again as itself. */
  lemma ReadWriteReadModule(table: OpTable, s: seq<Byte>, rules: Rules, m: Image)
    requires TableOk(table) && ReadModule(table, s, rules) == Some(m)
    ensures ImageOk(table, m)
    ensures WriteModule(table, m, rules.isUtf8).Some? <==> AllRunsFit(m.bodies)
    ensures AllRunsFit(m.bodies) ==> ReadModule(table, WriteModule(table, m, rules.isUtf8).value, rules) == Some(m)
  {
    hide ReadSections, WriteModule, StateOk, TableOk, Loadable, AllRunsFit, Normals, ImageOk;
    var st := ReadSections(table, s[|HEADER|..], BEGIN, rules).value;
    BeginOk(table, rules);
    SectionsOk(table, s[|HEADER|..], BEGIN, rules);
    LoadableAgain(table, st, rules);
    ModulePuts(table, st, rules);
    if AllRunsFit(m.bodies) {
      ModuleRoundTrip(table, m, rules);
    }
  }

  /** With a limit of at most 2^32 locals (the source's is 65536) nothing can go wrong: what was read is
      written and read again. */
  lemma RewritesAlways(table: OpTable, s: seq<Byte>, rules: Rules, m: Image)
    requires TableOk(table) && ReadModule(table, s, rules) == Some(m) && rules.maxLocals <= MAX_U32 + 1
    ensures ImageOk(table, m) && WriteModule(table, m, rules.isUtf8).Some?
    ensures ReadModule(table, WriteModule(table, m, rules.isUtf8).value, rules) == Some(m)
  {
    hide ReadSections, WriteModule, TableOk, AllSettled, ImageOk, DeclarationsOk, RunsFit, BodiesOk;
    ReadWriteReadModule(table, s, rules, m);
    var st := ReadSections(table, s[|HEADER|..], BEGIN, rules).value;
    BeginOk(table, rules);
    SectionsOk(table, s[|HEADER|..], BEGIN, rules);
    forall k | 0 <= k < |m.bodies| ensures RunsFit(m.bodies[k].locals) {
      SettledFew(table, m.bodies, k, rules, Declared(m, ELEM), CountOf(st));
      FewLocalsFit(m.bodies[k].locals);
    }
  }

  lemma SettledFew(table: OpTable, bodies: seq<Body>, k: nat, rules: Rules, context: Image, count: Option<nat>)
    requires AllSettled(table, bodies, 0, rules, context, count) && k < |bodies| && rules.maxLocals <= MAX_U32 + 1
    ensures |bodies[k].locals| <= MAX_U32
  {
    hide BodyOk, Normal, Named;
    assert Settled(table, bodies[k], rules.maxLocals);
  }
}
