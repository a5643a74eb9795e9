/** The writer of modules writes modules of the grammar. */
module BinaryWriteExact {
  import opened Wrappers
  import opened Varints
  import opened BinaryFields
  import opened BinaryBody
  import opened BinaryCode
  import opened BinaryEntities
  import opened M = BinaryModule
  import opened BinaryGrammar
  import opened BinaryExact
  import opened BinaryCodeExact
  import opened BinaryModuleExact

  // ----- bodies -----

  lemma WrittenSegment(table: OpTable, op: Operator, tables: seq<seq<nat>>)
    requires TableOk(table) && OperatorOk(table, op, |tables|) && WriteOperator(table, op, tables).Some?
    ensures SegmentKnown(ClassOf(table, op.opcode).value, op.values, Some(MAX_U32 + 1))
  {
    hide WriteOpcode, WriteLead, TableOk;
    var c := ClassOf(table, op.opcode).value;
    if NeedsCount(c) {
      assert WriteField(Fields(c)[0], op.values[0]).Some?;
    }
  }

  /** A written operator can only name a data segment of 32 bits. */
  lemma {:induction false} WrittenSegments(table: OpTable, ops: seq<Operator>, tables: seq<seq<nat>>)
    requires TableOk(table) && AllOperatorsOk(table, ops, |tables|) && WriteOperators(table, ops, tables).Some?
    ensures SegmentsKnown(table, ops, Some(MAX_U32 + 1))
  {
    hide WriteOperator, TableOk, SegmentsKnown, SegmentKnown;
    if ops == [] {
      NoneUse(table, Some(MAX_U32 + 1));
    } else {
      assert OperatorOk(table, ops[0], |tables|);
      WrittenSegment(table, ops[0], tables);
      WrittenSegments(table, ops[1..], tables);
      SegmentsKnownSplit(table, ops, Some(MAX_U32 + 1));
    }
  }

  lemma BodyWritten(table: OpTable, body: Body)
    requires BodyOk(table, body) && WriteContent(table, body).Some?
    ensures IsBody(table, WriteContent(table, body).value, Normal(table, body))
  {
    hide WriteU32, WriteSets, WriteOperators, ReadContent, IsBody, Normal, Named, Runs, SegmentsKnown, TableOk;
    WrittenSegments(table, body.ops, body.tables);
    var maxLocals := |Named(body.locals)| + 1;
    ContentBack(table, body, maxLocals, Some(MAX_U32 + 1), _ => true);
    ContentRead(table, WriteContent(table, body).value, maxLocals, Some(MAX_U32 + 1), _ => true, Normal(table, body));
  }

  lemma {:induction false} BodiesWritten(table: OpTable, bodies: seq<Body>)
    requires BodiesOk(table, bodies) && WriteBodies(table, bodies).Some?
    ensures IsBodies(table, WriteBodies(table, bodies).value, Normals(table, bodies), [])
  {
    hide WriteBytes, IsBytes, WriteContent, IsBody, BodyOk, Normal, TableOk;
    if bodies != [] {
      var content, others := WriteContent(table, bodies[0]).value, WriteBodies(table, bodies[1..]).value;
      assert BodyOk(table, bodies[0]);
      BytesWritten(content, others);
      BodyWritten(table, bodies[0]);
      BodiesWritten(table, bodies[1..]);
      NormalsSplit(table, bodies);
      assert Normals(table, bodies)[1..] == Normals(table, bodies[1..]);
    }
  }

  lemma BytesWritten(bytes: seq<Byte>, rest: seq<Byte>)
    requires WriteBytes(bytes).Some?
    ensures IsBytes(WriteBytes(bytes).value + rest, bytes, rest)
  {
    hide WriteBytes, ReadBytes, IsBytes;
    BytesBack(bytes, rest);
    BytesExact(WriteBytes(bytes).value + rest, bytes, rest);
  }

  // ----- sections -----

  lemma VectorWritten<T(!new)>(write: Writer<T>, read: Reader<T>, g: Grammar<T>, xs: seq<T>)
    requires Inverts(write, read) && Exact(read, g) && WriteCounted(write, xs).Some?
    ensures IsVector(g, WriteCounted(write, xs).value, xs, [])
  {
    hide Inverts, Exact, WriteCounted, ReadWhole, IsVector;
    WholeBack(write, read, xs);
    WholeExact(read, g, WriteCounted(write, xs).value, xs);
  }

  lemma DeclarationWritten(table: OpTable, m: Image, rank: nat, isUtf8: Utf8)
    requires Present(m, rank) && rank != CODE && Declaration(m, rank, isUtf8).Some?
    ensures IsContent(table, rank, Declaration(m, rank, isUtf8).value, m)
  {
    hide Inverts, Exact, WriteCounted, IsVector, WriteU32, ReadU32, IsU32, WriteArray, ReadArray, ReadWhole,
         ExportsNamed;
    match rank
    case 1 =>
      FuncTypeInverts();
      FuncTypeExact();
      VectorWritten(WriteFuncType, ReadFuncType, IsFuncType, m.types);
    case 2 =>
      ImportInverts();
      ImportExact();
      VectorWritten(WriteImport, ReadImport, IsImport, m.imports);
    case 3 =>
      ArrayAlone(m.functionTypes);
      ArrayExact(WriteArray(m.functionTypes).value, m.functionTypes, []);
    case 4 =>
      TableTypeInverts();
      TableTypeExact();
      VectorWritten(WriteTableType, ReadTableType, IsTableType, m.tables);
    case 5 =>
      LimitsInverts();
      LimitsExact();
      VectorWritten(WriteLimits, ReadLimits, IsLimits, m.memories);
    case 6 =>
      GlobalInverts();
      GlobalExact();
      VectorWritten(WriteGlobal, ReadGlobal, IsGlobal, m.globals);
    case 7 =>
      TupleInverts();
      TupleExact();
      VectorWritten(WriteTuple, ReadTuple, IsTuple, m.exceptions);
    case 8 =>
      ExportInverts(isUtf8);
      WholeBack(ExportWriter(isUtf8), ExportReader(isUtf8), m.exports);
      ExportsExact(isUtf8, WriteCounted(ExportWriter(isUtf8), m.exports).value, m.exports);
    case 9 =>
      U32Alone(m.start.value);
      U32Exact(WriteU32(m.start.value).value, m.start.value, []);
    case 10 =>
      ElemsInverts();
      ElemsExact();
      VectorWritten(WriteElems, ReadElems, IsElems, m.elems);
    case 11 =>
      U32Alone(|m.segments|);
      U32Exact(WriteU32(|m.segments|).value, |m.segments|, []);
    case 13 =>
      DataInverts();
      DataExact();
      VectorWritten(WriteData, ReadData, IsData, m.segments);
  }

  /** The module as it is written: its branch tables are numbered in the order of their use. */
  function Written(table: OpTable, m: Image): Image
    requires ImageOk(table, m)
  {
    m.(bodies := Normals(table, m.bodies))
  }

  lemma CodeWritten(table: OpTable, m: Image)
    requires ImageOk(table, m) && WriteCode(table, m).Some?
    ensures IsContent(table, CODE, WriteCode(table, m).value, Written(table, m))
  {
    hide WriteU32, ReadU32, IsU32, WriteBodies, IsBodies, BodiesOk;
    var all := WriteBodies(table, m.bodies).value;
    BodiesWritten(table, m.bodies);
    U32Back(|m.bodies|, all);
    U32Exact(WriteU32(|m.bodies|).value + all, |m.bodies|, all);
  }

  lemma PayloadWritten(table: OpTable, m: Image, rank: nat, isUtf8: Utf8)
    requires ImageOk(table, m) && Present(m, rank) && Payload(table, m, rank, isUtf8).Some?
    ensures IsContent(table, rank, Payload(table, m, rank, isUtf8).value, Written(table, m))
  {
    hide WriteCode, Declaration, ImageOk;
    if rank == CODE {
      CodeWritten(table, m);
    } else {
      DeclarationWritten(table, m, rank, isUtf8);
      BodiesApart(table, rank, Payload(table, m, rank, isUtf8).value, m, Written(table, m));
    }
  }

  lemma BodiesApart(table: OpTable, rank: nat, payload: seq<Byte>, a: Image, b: Image)
    requires rank != CODE && b == a.(bodies := b.bodies)
    ensures IsContent(table, rank, payload, a) <==> IsContent(table, rank, payload, b)
  {
    hide IsVector, IsU32;
  }

  lemma AbsentLacks(table: OpTable, m: Image, rank: nat)
    requires ImageOk(table, m) && !Present(m, rank)
    ensures Lacks(Written(table, m), rank)
  {
  }

  lemma SkipsMore(m: Image, last: nat, rank: nat)
    requires Skips(m, last, rank) && Lacks(m, rank)
    ensures Skips(m, last, rank + 1)
  {
    hide Lacks;
  }

  lemma {:induction false} KnownHolds(table: OpTable, m: Image, rank: nat, last: nat, isUtf8: Utf8, users: seq<Section>)
    requires ImageOk(table, m) && last < rank <= USER && KnownFrom(table, m, rank, isUtf8).Some?
    requires Skips(Written(table, m), last, rank) && forall i :: 0 <= i < |users| ==> users[i].rank == USER
    ensures var sections := KnownFrom(table, m, rank, isUtf8).value + users;
            && Holds(table, sections, last, Written(table, m))
            && forall all :: HoldsUsers(users, all) ==> HoldsUsers(sections, all)
    decreases USER - rank
  {
    hide ImageOk, Present, Payload, Skips, IsContent, Written, Lacks;
    var sections := KnownFrom(table, m, rank, isUtf8).value + users;
    if rank == USER {
      assert sections == users;
      UsersHold(table, users, last, Written(table, m));
    } else if !Present(m, rank) {
      AbsentLacks(table, m, rank);
      SkipsMore(Written(table, m), last, rank);
      KnownHolds(table, m, rank + 1, last, isUtf8, users);
    } else {
      PayloadWritten(table, m, rank, isUtf8);
      SkipsNone(Written(table, m), rank);
      KnownHolds(table, m, rank + 1, rank, isUtf8, users);
      assert sections[0].rank == rank && sections[1..] == KnownFrom(table, m, rank + 1, isUtf8).value + users;
    }
  }

  lemma SkipsNone(m: Image, rank: nat)
    ensures Skips(m, rank, rank + 1)
  {
  }

  lemma {:induction false} UsersHold(table: OpTable, users: seq<Section>, last: nat, m: Image)
    requires Skips(m, last, USER) && forall i :: 0 <= i < |users| ==> users[i].rank == USER
    ensures Holds(table, users, last, m)
  {
    hide Skips, IsContent;
    if users != [] {
      UsersHold(table, users[1..], last, m);
    }
  }

  lemma {:induction false} UsersWritten(users: seq<UserSection>)
    requires UserSections(users).Some?
    ensures var sections := UserSections(users).value;
            HoldsUsers(sections, users) && forall i :: 0 <= i < |sections| ==> sections[i].rank == USER
  {
    hide WriteBytes, IsBytes;
    if users != [] {
      UsersWritten(users[1..]);
      BytesWritten(users[0].name, users[0].data);
      var sections := UserSections(users).value;
      assert sections[1..] == UserSections(users[1..]).value;
      assert sections[0].payload == WriteBytes(users[0].name).value + users[0].data;
    }
  }

  lemma {:induction false} SectionsWritten(sections: seq<Section>)
    requires Ranked(sections) && WriteSections(sections).Some?
    ensures IsSections(WriteSections(sections).value, sections)
  {
    hide WriteBytes, IsBytes, IdOf, SectionByte, RankOf;
    if sections != [] {
      var payload, others := WriteBytes(sections[0].payload).value, WriteSections(sections[1..]).value;
      var id := IdOf(sections[0].rank);
      IdsExact(sections[0].rank, id);
      RanksExact(id, sections[0].rank);
      assert ([id] + (payload + others))[1..] == payload + others;
      BytesWritten(sections[0].payload, others);
      SectionsWritten(sections[1..]);
    }
  }

  /** For every module: what is written is an encoding of it, whether or not it can be read back. */
  lemma ModuleWritten(table: OpTable, m: Image, isUtf8: Utf8)
    requires ImageOk(table, m) && WriteModule(table, m, isUtf8).Some?
    ensures exists sections :: IsModule(table, WriteModule(table, m, isUtf8).value, sections, Written(table, m))
  {
    hide KnownFrom, UserSections, WriteSections, IsSections, Holds, HoldsUsers, ImageOk, Ranked, Normals;
    var known, users := KnownFrom(table, m, 1, isUtf8).value, UserSections(m.users).value;
    KnownRanked(table, m, 1, isUtf8);
    UsersRanked(m.users);
    RankedTogether(known, users);
    var sections := known + users;
    var body := WriteSections(sections).value;
    assert (HEADER + body)[..8] == HEADER && (HEADER + body)[8..] == body;
    SectionsWritten(sections);
    UsersWritten(m.users);
    SkipsNone(Written(table, m), 0);
    KnownHolds(table, m, 1, 0, isUtf8, users);
    assert IsModule(table, WriteModule(table, m, isUtf8).value, sections, Written(table, m));
  }
}
