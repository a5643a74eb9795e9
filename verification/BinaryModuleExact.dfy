/** The reader of modules accepts exactly the modules of the grammar that meet its checks, and the writer
    writes modules of the grammar. */
module BinaryModuleExact {
  import opened Wrappers
  import opened Varints
  import opened BinaryFields
  import opened BinaryBody
  import opened BinaryCode
  import opened BinaryEntities
  import opened M = BinaryModule
  import opened BinaryGrammar
  import opened BinaryExact
  import opened BinaryCodeExact
  import IR

  // ----- the checks -----

  predicate ExportsNamed(exports: seq<Export>, isUtf8: Utf8) {
    forall i :: 0 <= i < |exports| ==> isUtf8(exports[i].name)
  }

  predicate UsersNamed(users: seq<UserSection>, isUtf8: Utf8) {
    forall i :: 0 <= i < |users| ==> isUtf8(users[i].name)
  }

  function Announced(m: Image, hadCount: bool): Option<nat> {
    if hadCount then Some(|m.segments|) else None
  }

  /** What is tested at the section of some rank: names are UTF-8, indices are of known types, there are
      not too many data segments, bodies pass their checks, and validation accepts the declarations so far.
      With no room for any local the bodies also declare no set of locals. */
  ghost predicate Tested(table: OpTable, m: Image, section: Section, rules: Rules, hadCount: bool) {
    var rank := section.rank;
    && (rank == IMPORT ==> ImportsOk(m.imports, |m.types|, rules.isUtf8))
    && (rank == FUNCTION ==> TypesKnown(m.functionTypes, |m.types|))
    && (rank == EXPORT ==> ExportsNamed(m.exports, rules.isUtf8))
    && (rank == DATA_COUNT || (rank == DATA && !hadCount) ==> |m.segments| <= rules.maxDataSegments)
    && (rank == CODE ==>
          && AllChecked(table, m.bodies, 0, rules, Declared(m, ELEM), Announced(m, hadCount))
          && (rules.maxLocals == 0 ==> CodeBare(section.payload, |m.bodies|)))
    && (IsValidated(rank) ==> rules.declared(Declared(m, rank), rank))
  }

  ghost predicate CodeBare(payload: seq<Byte>, n: nat) {
    exists r :: IsU32(payload, n, r) && AllBare(r, n)
  }

  ghost predicate AllTested(table: OpTable, sections: seq<Section>, m: Image, rules: Rules, hadCount: bool)
    decreases |sections|
  {
    sections != [] ==>
      && Tested(table, m, sections[0], rules, hadCount)
      && AllTested(table, sections[1..], m, rules, hadCount || sections[0].rank == DATA_COUNT)
  }

  ghost predicate Passes(table: OpTable, sections: seq<Section>, m: Image, rules: Rules) {
    AllTested(table, sections, m, rules, false) && UsersNamed(m.users, rules.isUtf8)
  }

  // ----- one section of declarations -----

  lemma WholeExact<T(!new)>(read: Reader<T>, g: Grammar<T>, payload: seq<Byte>, xs: seq<T>)
    requires Exact(read, g)
    ensures ReadWhole(read, payload) == Some(xs) <==> IsVector(g, payload, xs, [])
  {
    hide Exact, ReadCounted, IsVector;
    VectorExact(read, g, payload, xs, []);
  }

  ghost function NamedExport(isUtf8: Utf8): Grammar<Export> {
    (s, e, rest) => IsExport(s, e, rest) && isUtf8(e.name)
  }

  lemma {:induction false} NamedMany(isUtf8: Utf8, s: seq<Byte>, es: seq<Export>, rest: seq<Byte>)
    ensures IsMany(NamedExport(isUtf8), s, es, rest) <==> IsMany(IsExport, s, es, rest) && ExportsNamed(es, isUtf8)
    decreases |es|
  {
    hide IsExport;
    var g := NamedExport(isUtf8);
    if es != [] {
      assert ExportsNamed(es, isUtf8) <==> isUtf8(es[0].name) && ExportsNamed(es[1..], isUtf8) by {
        assert forall i :: 0 < i < |es| ==> es[i] == es[1..][i - 1];
      }
      if IsMany(g, s, es, rest) {
        var r :| g(s, es[0], r) && IsMany(g, r, es[1..], rest);
        NamedMany(isUtf8, r, es[1..], rest);
        assert IsExport(s, es[0], r);
      }
      if IsMany(IsExport, s, es, rest) && ExportsNamed(es, isUtf8) {
        var r :| IsExport(s, es[0], r) && IsMany(IsExport, r, es[1..], rest);
        NamedMany(isUtf8, r, es[1..], rest);
        assert g(s, es[0], r);
      }
    }
  }

  lemma ExportsExact(isUtf8: Utf8, payload: seq<Byte>, es: seq<Export>)
    ensures ReadWhole(ExportReader(isUtf8), payload) == Some(es)
       <==> IsVector(IsExport, payload, es, []) && ExportsNamed(es, isUtf8)
  {
    hide IsMany, ReadWhole, IsU32, ExportsNamed;
    var g := NamedExport(isUtf8);
    assert Exact(ExportReader(isUtf8), g) by {
      hide IsExport;
      ExportExact(isUtf8);
    }
    WholeExact(ExportReader(isUtf8), g, payload, es);
    forall r ensures IsMany(g, r, es, []) <==> IsMany(IsExport, r, es, []) && ExportsNamed(es, isUtf8) {
      NamedMany(isUtf8, r, es, []);
    }
  }

  /** The image with the declarations of one rank replaced. */
  function With(a: Image, rank: nat, m: Image): Image {
    match rank
    case 1 => a.(types := m.types)
    case 2 => a.(imports := m.imports)
    case 3 => a.(functionTypes := m.functionTypes)
    case 4 => a.(tables := m.tables)
    case 5 => a.(memories := m.memories)
    case 6 => a.(globals := m.globals)
    case 7 => a.(exceptions := m.exceptions)
    case 8 => a.(exports := m.exports)
    case 9 => a.(start := m.start)
    case 10 => a.(elems := m.elems)
    case 13 => a.(segments := m.segments)
    case _ => a
  }

  /** What reading a section of declarations tests. */
  predicate Sound(m: Image, rank: nat, types: nat, isUtf8: Utf8) {
    && (rank == IMPORT ==> ImportsOk(m.imports, types, isUtf8))
    && (rank == FUNCTION ==> TypesKnown(m.functionTypes, types))
    && (rank == EXPORT ==> ExportsNamed(m.exports, isUtf8))
  }

  lemma DeclarationExact(table: OpTable, st: State, rank: nat, payload: seq<Byte>, isUtf8: Utf8, m: Image)
    requires 1 <= rank <= ELEM && (rank == START ==> m.start.Some?)
    ensures ReadDeclarations(st, rank, payload, isUtf8) == Some(With(st.image, rank, m))
       <==> IsContent(table, rank, payload, m) && Sound(m, rank, |st.image.types|, isUtf8)
  {
    hide Exact, IsVector, ReadWhole, ReadU32, IsU32, ReadArray, ImportsOk, TypesKnown, ExportsNamed;
    match rank
    case 1 =>
      FuncTypeExact();
      WholeExact(ReadFuncType, IsFuncType, payload, m.types);
    case 2 =>
      ImportExact();
      WholeExact(ReadImport, IsImport, payload, m.imports);
    case 3 => ArrayExact(payload, m.functionTypes, []);
    case 4 =>
      TableTypeExact();
      WholeExact(ReadTableType, IsTableType, payload, m.tables);
    case 5 =>
      LimitsExact();
      WholeExact(ReadLimits, IsLimits, payload, m.memories);
    case 6 =>
      GlobalExact();
      WholeExact(ReadGlobal, IsGlobal, payload, m.globals);
    case 7 =>
      TupleExact();
      WholeExact(ReadTuple, IsTuple, payload, m.exceptions);
    case 8 => ExportsExact(isUtf8, payload, m.exports);
    case 9 => U32Exact(payload, m.start.value, []);
    case 10 =>
      ElemsExact();
      WholeExact(ReadElems, IsElems, payload, m.elems);
  }

  // ----- the state of the reader -----

  /** The state after the sections up to rank `last`, of a reader that ends with `m`. */
  function StateAt(m: Image, last: nat, users: nat, hadCount: bool, hadCode: bool, hadData: bool): State
    requires users <= |m.users|
  {
    State(
      Declared(m, last).(bodies := if hadCode then m.bodies else [], users := m.users[..users]),
      last, hadCount, if hadCount || hadData then |m.segments| else 0, hadCode, hadData)
  }

  /** The reader is on its way to `m`. */
  ghost predicate At(st: State, m: Image) {
    && |st.image.users| <= |m.users| && st.last <= DATA && (st.hadData <==> st.last >= DATA)
    && (st.hadCode ==> st.last >= CODE) && (st.last >= CODE ==> st.hadCode || Lacks(m, CODE))
    && st == StateAt(m, st.last, |st.image.users|, st.hadCount, st.hadCode, st.hadData)
  }

  function Advance(st: State, rank: nat, m: Image): State
    requires |st.image.users| <= |m.users|
  {
    StateAt(m, rank, |st.image.users|, st.hadCount || rank == DATA_COUNT, st.hadCode || rank == CODE,
            st.hadData || rank == DATA)
  }

  lemma DeclaredSkips(m: Image, last: nat, rank: nat)
    requires last < rank <= USER && Skips(m, last, rank)
    ensures Declared(m, last) == Declared(m, rank - 1)
  {
    var a, b := Declared(m, last), Declared(m, rank - 1);
    assert Lacks(m, 1) || last >= 1 || rank <= 1;
    assert Lacks(m, 2) || last >= 2 || rank <= 2;
    assert Lacks(m, 3) || last >= 3 || rank <= 3;
    assert Lacks(m, 4) || last >= 4 || rank <= 4;
    assert Lacks(m, 5) || last >= 5 || rank <= 5;
    assert Lacks(m, 6) || last >= 6 || rank <= 6;
    assert Lacks(m, 7) || last >= 7 || rank <= 7;
    assert Lacks(m, 8) || last >= 8 || rank <= 8;
    assert Lacks(m, 9) || last >= 9 || rank <= 9;
    assert Lacks(m, 10) || last >= 10 || rank <= 10;
    assert Lacks(m, 13) || last >= 13 || rank <= 13;
  }

  lemma WithNext(m: Image, rank: nat)
    requires 1 <= rank <= DATA
    ensures Declared(m, rank) == With(Declared(m, rank - 1), rank, m)
  {
  }

  lemma WithFrame(a: Image, bodies: seq<Body>, users: seq<UserSection>, rank: nat, m: Image)
    ensures With(a.(bodies := bodies, users := users), rank, m) == With(a, rank, m).(bodies := bodies, users := users)
  {
  }

  // ----- accepting a section -----

  ghost predicate Comes(table: OpTable, st: State, section: Section, m: Image, rules: Rules) {
    && At(st, m) && st.last < section.rank <= DATA && Skips(m, st.last, section.rank)
    && IsContent(table, section.rank, section.payload, m) && Tested(table, m, section, rules, st.hadCount)
  }

  lemma DeclarationAccepted(table: OpTable, st: State, section: Section, m: Image, rules: Rules)
    requires 1 <= section.rank <= ELEM && Comes(table, st, section, m, rules)
    ensures Apply(table, st, section, rules) == Some(Advance(st, section.rank, m))
  {
    hide IsContent, ReadDeclarations, ImportsOk, TypesKnown, ExportsNamed, Declared, Skips, With;
    var rank := section.rank;
    StartThere(table, rank, section.payload, m);
    DeclaredSkips(m, st.last, rank);
    WithNext(m, rank);
    WithFrame(Declared(m, rank - 1), [], m.users[..|st.image.users|], rank, m);
    assert !st.hadCode && !st.hadData;
    TypesDeclared(m, rank);
    DeclarationExact(table, st.(last := rank), rank, section.payload, rules.isUtf8, m);
    InterfaceDeclared(m, rank, m.users[..|st.image.users|]);
  }

  lemma StartThere(table: OpTable, rank: nat, payload: seq<Byte>, m: Image)
    requires IsContent(table, rank, payload, m)
    ensures rank == START ==> m.start.Some?
  {
  }

  lemma TypesDeclared(m: Image, rank: nat)
    ensures rank > TYPE ==> Declared(m, rank - 1).types == m.types
  {
  }

  lemma InterfaceDeclared(m: Image, rank: nat, users: seq<UserSection>)
    ensures Interface(Declared(m, rank).(bodies := [], users := users)) == Declared(m, rank)
  {
  }

  lemma CountAccepted(table: OpTable, st: State, section: Section, m: Image, rules: Rules)
    requires section.rank == DATA_COUNT && Comes(table, st, section, m, rules)
    ensures Apply(table, st, section, rules) == Some(Advance(st, section.rank, m))
  {
    hide ReadU32, IsU32, Skips, Declared;
    DeclaredSkips(m, st.last, DATA_COUNT);
    SameDeclared(m, ELEM, DATA_COUNT);
    U32Exact(section.payload, |m.segments|, []);
  }

  lemma SameDeclared(m: Image, a: nat, b: nat)
    requires ELEM <= a <= b < DATA
    ensures Declared(m, a) == Declared(m, b)
  {
  }

  lemma CodeAccepted(table: OpTable, st: State, section: Section, m: Image, rules: Rules)
    requires section.rank == CODE && Comes(table, st, section, m, rules) && TableOk(table)
    ensures Apply(table, st, section, rules) == Some(Advance(st, section.rank, m))
  {
    hide ReadU32, IsU32, Skips, ReadBodies, IsBodies, AllChecked, AllBare, TableOk, Declared;
    DeclaredSkips(m, st.last, CODE);
    SameDeclared(m, ELEM, DATA_COUNT);
    SameDeclared(m, ELEM, CODE);
    FunctionsDeclared(m);
    var r :| IsU32(section.payload, |m.bodies|, r) && IsBodies(table, r, m.bodies, []);
    U32Exact(section.payload, |m.bodies|, r);
    if rules.maxLocals == 0 {
      var q :| IsU32(section.payload, |m.bodies|, q) && AllBare(q, |m.bodies|);
      U32Exact(section.payload, |m.bodies|, q);
    }
    InterfaceDeclared(m, ELEM, m.users[..|st.image.users|]);
    BodiesAccepted(table, 0, r, rules, Declared(m, ELEM), Announced(m, st.hadCount), m.bodies, []);
  }

  lemma FunctionsDeclared(m: Image)
    ensures Declared(m, ELEM).functionTypes == m.functionTypes
  {
  }

  lemma DataAccepted(table: OpTable, st: State, section: Section, m: Image, rules: Rules)
    requires section.rank == DATA && Comes(table, st, section, m, rules)
    ensures Apply(table, st, section, rules) == Some(Advance(st, section.rank, m))
  {
    hide ReadU32, IsU32, Skips, ReadWhole, IsMany, Declared, With;
    var bodies, users := st.image.bodies, st.image.users;
    DeclaredSkips(m, st.last, DATA);
    WithNext(m, DATA);
    WithFrame(Declared(m, CODE), bodies, users, DATA, m);
    DataExact();
    WholeExact(ReadData, IsData, section.payload, m.segments);
    var r :| IsU32(section.payload, |m.segments|, r) && IsMany(IsData, r, m.segments, []);
    U32Exact(section.payload, |m.segments|, r);
    WithData(st.image, m);
    InterfaceOf(Declared(m, DATA), bodies, users);
    DeclaredBare(m, DATA);
  }

  lemma WithData(a: Image, m: Image)
    ensures With(a, DATA, m) == a.(segments := m.segments)
  {
  }

  lemma InterfaceOf(a: Image, bodies: seq<Body>, users: seq<UserSection>)
    ensures Interface(a.(bodies := bodies, users := users)) == Interface(a)
  {
  }

  lemma DeclaredBare(m: Image, rank: nat)
    ensures Interface(Declared(m, rank)) == Declared(m, rank)
  {
  }

  lemma UserAccepted(table: OpTable, st: State, section: Section, m: Image, rules: Rules)
    requires section.rank == USER && At(st, m) && |st.image.users| < |m.users|
    requires var u := m.users[|st.image.users|];
             IsBytes(section.payload, u.name, u.data) && rules.isUtf8(u.name)
    ensures Apply(table, st, section, rules)
         == Some(StateAt(m, st.last, |st.image.users| + 1, st.hadCount, st.hadCode, st.hadData))
  {
    hide ReadBytes, IsBytes, Declared;
    var k := |st.image.users|;
    BytesExact(section.payload, m.users[k].name, m.users[k].data);
    assert m.users[..k + 1] == m.users[..k] + [m.users[k]];
  }

  lemma SectionAccepted(table: OpTable, st: State, section: Section, m: Image, rules: Rules)
    requires Comes(table, st, section, m, rules) && TableOk(table)
    ensures Apply(table, st, section, rules) == Some(Advance(st, section.rank, m))
    ensures At(Advance(st, section.rank, m), m)
  {
    hide Apply, Advance, At, Skips, IsContent, Tested, TableOk;
    if section.rank <= ELEM {
      DeclarationAccepted(table, st, section, m, rules);
    } else if section.rank == DATA_COUNT {
      CountAccepted(table, st, section, m, rules);
    } else if section.rank == CODE {
      CodeAccepted(table, st, section, m, rules);
    } else {
      DataAccepted(table, st, section, m, rules);
    }
    AdvanceAt(table, st, section, m, rules);
  }

  lemma AdvanceAt(table: OpTable, st: State, section: Section, m: Image, rules: Rules)
    requires Comes(table, st, section, m, rules)
    ensures At(Advance(st, section.rank, m), m)
  {
    hide Declared, IsContent, Tested;
    assert section.rank == DATA ==> Lacks(m, 12) || st.last >= 12;
  }

  /** What is left of the module's sections from the present state on. */
  ghost predicate Left(table: OpTable, st: State, sections: seq<Section>, m: Image, rules: Rules) {
    && At(st, m) && Holds(table, sections, st.last, m) && HoldsUsers(sections, m.users[|st.image.users|..])
    && AllTested(table, sections, m, rules, st.hadCount)
  }

  lemma EndAccepted(table: OpTable, st: State, m: Image, rules: Rules)
    requires Left(table, st, [], m, rules)
    ensures Finish(st) == Some(m)
  {
    var rest := m.users[|st.image.users|..];
    assert st.image.users == m.users;
    DeclaredSkips(m, st.last, USER);
    assert Lacks(m, 12) || st.last >= 12;
    assert Lacks(m, 13) || st.last >= 13;
    assert Declared(m, DATA).(bodies := m.bodies, users := m.users) == m;
  }

  lemma {:induction false} SectionsAccepted(table: OpTable, s: seq<Byte>, st: State, sections: seq<Section>, m: Image,
      rules: Rules)
    requires TableOk(table) && UsersNamed(m.users, rules.isUtf8)
    requires IsSections(s, sections) && Left(table, st, sections, m, rules)
    ensures ReadSections(table, s, st, rules).Some? && Finish(ReadSections(table, s, st, rules).value) == Some(m)
    decreases |sections|
  {
    hide ReadBytes, IsBytes, Apply, RankOf, SectionByte, TableOk, At, StateAt, Skips, IsContent, Tested, UsersNamed,
         Finish;
    if sections == [] {
      EndAccepted(table, st, m, rules);
    } else {
      var section, others := sections[0], sections[1..];
      var r :| IsBytes(s[1..], section.payload, r) && IsSections(r, others);
      BytesExact(s[1..], section.payload, r);
      RanksExact(s[0], section.rank);
      assert section == Section(section.rank, section.payload);
      var next := NextAccepted(table, st, sections, m, rules);
      SectionsAccepted(table, r, next, others, m, rules);
    }
  }

  lemma RanksExact(id: Byte, rank: nat)
    ensures RankOf(id) == Some(rank) <==> SectionByte(id, rank)
    ensures SectionByte(id, rank) ==> 1 <= rank <= USER
  {
  }

  lemma NextAccepted(table: OpTable, st: State, sections: seq<Section>, m: Image, rules: Rules) returns (next: State)
    requires TableOk(table) && UsersNamed(m.users, rules.isUtf8)
    requires sections != [] && sections[0].rank <= USER && Left(table, st, sections, m, rules)
    ensures Apply(table, st, sections[0], rules) == Some(next) && Left(table, next, sections[1..], m, rules)
  {
    hide Apply, TableOk, Skips, IsContent, Tested, IsBytes, Declared;
    var section := sections[0];
    if section.rank == USER {
      var k := |st.image.users|;
      assert m.users[k..][0] == m.users[k] && m.users[k..][1..] == m.users[k + 1..];
      UserAccepted(table, st, section, m, rules);
      next := StateAt(m, st.last, k + 1, st.hadCount, st.hadCode, st.hadData);
    } else {
      SectionAccepted(table, st, section, m, rules);
      next := Advance(st, section.rank, m);
    }
  }
}
