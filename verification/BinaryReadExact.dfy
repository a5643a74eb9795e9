/** Whatever the reader of modules returns is what the bytes encode; and the writer writes encodings. */
module BinaryReadExact {
  import opened Wrappers
  import opened Varints
  import opened BinaryFields
  import opened BinaryBody
  import opened BinaryCode
  import opened BinaryEntities
  import opened M = BinaryModule
  import opened BinaryGrammar
  import opened BinaryExact
  import opened BinaryCodeExact
  import opened BinaryModuleExact

  /** What holds of every state of the reader. */
  ghost predicate Orderly(st: State) {
    && Interface(st.image) == Declared(st.image, st.last)
    && st.last <= DATA && (st.hadCount ==> st.last >= DATA_COUNT)
    && (st.hadCode ==> st.last >= CODE) && (!st.hadCode ==> st.image.bodies == [])
    && (st.hadData <==> st.last >= DATA) && (st.hadData ==> |st.image.segments| == st.count)
    && (!st.hadData ==> st.image.segments == [] && (!st.hadCount ==> st.count == 0))
  }

  lemma ReadsWith(st: State, rank: nat, payload: seq<Byte>, isUtf8: Utf8)
    requires 1 <= rank <= ELEM && ReadDeclarations(st, rank, payload, isUtf8).Some?
    ensures var m := ReadDeclarations(st, rank, payload, isUtf8).value; m == With(st.image, rank, m)
    ensures rank == START ==> ReadDeclarations(st, rank, payload, isUtf8).value.start.Some?
  {
    hide ReadWhole, ReadU32, ReadArray, ImportsOk, TypesKnown;
  }

  lemma OrderlyWith(a: Image, last: nat, rank: nat, b: Image)
    requires last < rank <= ELEM && Interface(a) == Declared(a, last) && b == With(a, rank, b)
    ensures Interface(b) == Declared(b, rank) && b.bodies == a.bodies && b.segments == a.segments
  {
  }

  lemma OrderlyKept(table: OpTable, st: State, section: Section, rules: Rules)
    requires Orderly(st) && 1 <= section.rank <= USER && Apply(table, st, section, rules).Some?
    ensures Orderly(Apply(table, st, section, rules).value)
  {
    hide ReadBytes, ReadDeclarations, ReadU32, ReadBodies, ReadWhole, Declared, With;
    var rank := section.rank;
    if rank <= ELEM {
      ReadsWith(st.(last := rank), rank, section.payload, rules.isUtf8);
      OrderlyWith(st.image, st.last, rank, Apply(table, st, section, rules).value.image);
    } else if rank == DATA {
      WholeCount(section.payload);
      LastData(st.image, st.last, Apply(table, st, section, rules).value.image.segments);
    } else if rank == USER {
      UsersApart(st.image, st.last, Apply(table, st, section, rules).value.image.users);
    } else {
      LaterSame(st.image, st.last, rank, Apply(table, st, section, rules).value.image.bodies);
    }
  }

  lemma WholeCount(payload: seq<Byte>)
    requires ReadWhole(ReadData, payload).Some?
    ensures ReadU32(payload).Some? && ReadU32(payload).value.0 == |ReadWhole(ReadData, payload).value|
  {
    hide ReadU32, IsU32, IsMany;
    var ds := ReadWhole(ReadData, payload).value;
    DataExact();
    WholeExact(ReadData, IsData, payload, ds);
    var r :| IsU32(payload, |ds|, r) && IsMany(IsData, r, ds, []);
    U32Exact(payload, |ds|, r);
  }

  lemma LastData(a: Image, last: nat, ds: seq<DataSegment>)
    requires Interface(a) == Declared(a, last) && last < DATA
    ensures var b := a.(segments := ds); Interface(b) == Declared(b, DATA)
  {
  }

  lemma UsersApart(a: Image, last: nat, users: seq<UserSection>)
    requires Interface(a) == Declared(a, last)
    ensures var b := a.(users := users); Interface(b) == Declared(b, last)
  {
  }

  lemma LaterSame(a: Image, last: nat, rank: nat, bodies: seq<Body>)
    requires Interface(a) == Declared(a, last) && last < rank < DATA
    ensures var b := a.(bodies := bodies); Interface(b) == Declared(b, rank)
  {
  }

  // ----- one section -----

  /** The declarations before a section, from those after it. */
  lemma Before(a: Image, last: nat, rank: nat, m: Image)
    requires Interface(a) == Declared(a, last) && last < rank <= DATA
    requires Interface(With(a, rank, m)) == Declared(m, rank)
    requires last < CODE < rank ==> Lacks(m, CODE)
    ensures Interface(a) == Declared(m, last) && Skips(m, last, rank)
  {
    hide Declared, Skips, With, Interface, Lacks;
    BeforeSkips(a, last, rank, m);
    BeforeSame(a, last, rank, m);
  }

  lemma BeforeSkips(a: Image, last: nat, rank: nat, m: Image)
    requires Interface(a) == Declared(a, last) && last < rank <= DATA
    requires Interface(With(a, rank, m)) == Declared(m, rank)
    requires last < CODE < rank ==> Lacks(m, CODE)
    ensures Skips(m, last, rank)
  {
    assert Interface(a).types == Declared(a, last).types && Interface(a).start == Declared(a, last).start;
    var b := Interface(With(a, rank, m));
    assert b.types == Declared(m, rank).types && b.start == Declared(m, rank).start;
  }

  lemma BeforeSame(a: Image, last: nat, rank: nat, m: Image)
    requires Interface(a) == Declared(a, last) && last < rank <= DATA
    requires Interface(With(a, rank, m)) == Declared(m, rank)
    ensures Interface(a) == Declared(m, last)
  {
    WithBelow(a, last, rank, m);
    DeclaredTwice(m, last, rank);
    InterfaceSame(With(a, rank, m), last);
  }

  /** Replacing the declarations of one rank does not change those below. */
  lemma WithBelow(a: Image, last: nat, rank: nat, m: Image)
    requires last < rank <= DATA
    ensures Declared(With(a, rank, m), last) == Declared(a, last)
  {
  }

  lemma DeclaredTwice(m: Image, last: nat, rank: nat)
    requires last < rank
    ensures Declared(Declared(m, rank), last) == Declared(m, last)
  {
  }

  lemma InterfaceSame(a: Image, last: nat)
    ensures Declared(Interface(a), last) == Declared(a, last)
  {
  }

  ghost predicate Reached(table: OpTable, st: State, section: Section, m: Image, rules: Rules) {
    && Orderly(st) && 1 <= section.rank <= DATA && Apply(table, st, section, rules).Some?
    && At(Apply(table, st, section, rules).value, m)
  }

  lemma DeclarationRead(table: OpTable, st: State, section: Section, m: Image, rules: Rules)
    requires Reached(table, st, section, m, rules) && section.rank <= ELEM
    ensures Comes(table, st, section, m, rules)
  {
    hide IsContent, ReadDeclarations, ImportsOk, TypesKnown, ExportsNamed, Declared, Skips, With;
    var rank := section.rank;
    var b := Apply(table, st, section, rules).value.image;
    ReadsWith(st.(last := rank), rank, section.payload, rules.isUtf8);
    InterfaceDeclared(m, rank, m.users[..|b.users|]);
    SameRank(b, m, rank, st.image);
    Before(st.image, st.last, rank, m);
    TypesDeclared(m, rank);
    DeclarationExact(table, st.(last := rank), rank, section.payload, rules.isUtf8, m);
    FrameOf(st.image, Declared(m, st.last));
    WithKeeps(st.image, rank, m);
    TypesHere(m, st.last, rank, st.image);
  }

  lemma SameRank(b: Image, m: Image, rank: nat, a: Image)
    requires 1 <= rank <= ELEM && Interface(b) == Declared(m, rank)
    ensures With(a, rank, b) == With(a, rank, m) && (rank == START ==> b.start == m.start)
  {
    assert Interface(b).types == Declared(m, rank).types && Interface(b).start == Declared(m, rank).start;
  }

  lemma FrameOf(a: Image, b: Image)
    requires Interface(a) == b
    ensures a == b.(bodies := a.bodies, users := a.users)
  {
  }

  lemma WithKeeps(a: Image, rank: nat, m: Image)
    ensures With(a, rank, m).bodies == a.bodies && With(a, rank, m).users == a.users
  {
  }

  lemma TypesHere(m: Image, last: nat, rank: nat, a: Image)
    requires last < rank && Interface(a) == Declared(m, last) && Skips(m, last, rank)
    ensures rank > TYPE ==> a.types == m.types
  {
    assert last >= 1 || rank == 1 || Lacks(m, 1);
    assert Interface(a).types == Declared(m, last).types;
  }

  lemma CountRead(table: OpTable, st: State, section: Section, m: Image, rules: Rules)
    requires Reached(table, st, section, m, rules) && section.rank == DATA_COUNT
    ensures Comes(table, st, section, m, rules)
  {
    hide ReadU32, IsU32, Skips, Declared;
    var users := m.users[..|st.image.users|];
    U32Exact(section.payload, |m.segments|, []);
    InterfaceDeclared(m, DATA_COUNT, users);
    NothingWith(st.image, DATA_COUNT, m);
    Before(st.image, st.last, DATA_COUNT, m);
    FrameOf(st.image, Declared(m, st.last));
  }

  lemma NothingWith(a: Image, rank: nat, m: Image)
    requires rank == DATA_COUNT || rank == CODE
    ensures With(a, rank, m) == a
  {
  }

  lemma CodeSectionRead(table: OpTable, st: State, section: Section, m: Image, rules: Rules)
    requires Reached(table, st, section, m, rules) && section.rank == CODE && TableOk(table)
    ensures Comes(table, st, section, m, rules)
  {
    hide ReadU32, IsU32, Skips, ReadBodies, IsBodies, AllChecked, AllBare, TableOk, Declared;
    var n := ReadU32(section.payload).value;
    var b := Apply(table, st, section, rules).value.image;
    InterfaceOf(Declared(m, CODE), m.bodies, b.users);
    DeclaredBare(m, CODE);
    InterfaceOf(st.image, m.bodies, b.users);
    NothingWith(st.image, CODE, m);
    Before(st.image, st.last, CODE, m);
    FrameOf(st.image, Declared(m, st.last));
    DeclaredSkips(m, st.last, CODE);
    SameDeclared(m, ELEM, DATA_COUNT);
    FunctionsDeclared(m);
    U32Exact(section.payload, n.0, n.1);
    BodiesRead(table, 0, n.0, n.1, rules, Declared(m, ELEM), CountOf(st), m.bodies, []);
  }

  lemma DataSectionRead(table: OpTable, st: State, section: Section, m: Image, rules: Rules)
    requires Reached(table, st, section, m, rules) && section.rank == DATA
    ensures Comes(table, st, section, m, rules)
  {
    hide ReadU32, IsU32, Skips, ReadWhole, IsVector, Declared, With;
    var b := Apply(table, st, section, rules).value.image;
    DataExact();
    WholeExact(ReadData, IsData, section.payload, b.segments);
    WholeCount(section.payload);
    InterfaceOf(Declared(m, DATA), b.bodies, b.users);
    DeclaredBare(m, DATA);
    SegmentsDeclared(m);
    WithData(st.image, m);
    Before(st.image, st.last, DATA, m);
    FrameOf(st.image, Declared(m, st.last));
  }

  lemma SegmentsDeclared(m: Image)
    ensures Declared(m, DATA).segments == m.segments
  {
  }

  lemma SectionRead(table: OpTable, st: State, section: Section, m: Image, rules: Rules)
    requires Reached(table, st, section, m, rules) && TableOk(table)
    ensures Comes(table, st, section, m, rules)
  {
    hide Comes, TableOk, Apply, At, Orderly;
    if section.rank <= ELEM {
      DeclarationRead(table, st, section, m, rules);
    } else if section.rank == DATA_COUNT {
      CountRead(table, st, section, m, rules);
    } else if section.rank == CODE {
      CodeSectionRead(table, st, section, m, rules);
    } else {
      DataSectionRead(table, st, section, m, rules);
    }
  }

  lemma UserRead(table: OpTable, st: State, section: Section, m: Image, rules: Rules)
    requires section.rank == USER && Apply(table, st, section, rules).Some? && At(Apply(table, st, section, rules).value, m)
    ensures At(st, m) && |st.image.users| < |m.users|
    ensures var u := m.users[|st.image.users|]; IsBytes(section.payload, u.name, u.data) && rules.isUtf8(u.name)
  {
    hide ReadBytes, IsBytes, Declared;
    var k := |st.image.users|;
    var name := ReadBytes(section.payload).value;
    BytesExact(section.payload, name.0, name.1);
    var after := Apply(table, st, section, rules).value.image.users;
    assert after == m.users[..k + 1];
    assert st.image.users == after[..k] == m.users[..k] && after[k] == m.users[k];
    FrameOf(st.image, Interface(st.image));
  }

  lemma EndRead(table: OpTable, st: State, m: Image, rules: Rules)
    requires Orderly(st) && Finish(st) == Some(m)
    ensures Left(table, st, [], m, rules)
  {
    assert m.users[|m.users|..] == [];
    assert m.users[..|m.users|] == m.users;
    assert Interface(m).types == Declared(m, st.last).types && Interface(m).start == Declared(m, st.last).start;
    FrameOf(m, Declared(m, st.last));
  }

  // ----- all sections -----

  /** The sections a stream is made of, as the reader sees them. */
  lemma {:induction false} SectionsRead(table: OpTable, s: seq<Byte>, st: State, m: Image, rules: Rules)
    returns (sections: seq<Section>)
    requires TableOk(table) && Orderly(st) && ReadSections(table, s, st, rules).Some?
    requires Finish(ReadSections(table, s, st, rules).value) == Some(m)
    ensures IsSections(s, sections) && Left(table, st, sections, m, rules)
    ensures forall i :: |st.image.users| <= i < |m.users| ==> rules.isUtf8(m.users[i].name)
    decreases |s|
  {
    hide ReadBytes, IsBytes, Apply, RankOf, SectionByte, TableOk, At, Orderly, Holds, HoldsUsers, AllTested, Finish;
    if s == [] {
      EndRead(table, st, m, rules);
      sections := [];
      AllUsers(table, st, m, rules);
    } else {
      var rank, payload := RankOf(s[0]).value, ReadBytes(s[1..]).value;
      var section := Section(rank, payload.0);
      var next := Apply(table, st, section, rules).value;
      RanksExact(s[0], rank);
      BytesExact(s[1..], payload.0, payload.1);
      OrderlyKept(table, st, section, rules);
      var others := SectionsRead(table, payload.1, next, m, rules);
      sections := [section] + others;
      assert sections[1..] == others;
      SectionJoins(table, st, section, others, m, rules);
    }
  }

  lemma AllUsers(table: OpTable, st: State, m: Image, rules: Rules)
    requires Left(table, st, [], m, rules)
    ensures |st.image.users| == |m.users|
  {
    hide StateAt;
    assert |m.users[|st.image.users|..]| == 0;
  }

  lemma SectionJoins(table: OpTable, st: State, section: Section, others: seq<Section>, m: Image, rules: Rules)
    requires TableOk(table) && Orderly(st) && 1 <= section.rank <= USER && Apply(table, st, section, rules).Some?
    requires var next := Apply(table, st, section, rules).value;
             && Left(table, next, others, m, rules)
             && forall i :: |next.image.users| <= i < |m.users| ==> rules.isUtf8(m.users[i].name)
    ensures Left(table, st, [section] + others, m, rules)
    ensures forall i :: |st.image.users| <= i < |m.users| ==> rules.isUtf8(m.users[i].name)
  {
    hide TableOk, Orderly, Tested, IsContent, IsBytes, ReadBytes, Skips, At, ReadDeclarations, ReadCode,
         ReadDataSection, ReadU32;
    var sections := [section] + others;
    assert sections[1..] == others;
    if section.rank == USER {
      var k := |st.image.users|;
      UserRead(table, st, section, m, rules);
      assert m.users[k..][0] == m.users[k] && m.users[k..][1..] == m.users[k + 1..];
      NothingTested(table, m, section, rules, st.hadCount);
    } else {
      SectionRead(table, st, section, m, rules);
      UsersStay(table, st, section, rules);
    }
  }

  lemma NothingTested(table: OpTable, m: Image, section: Section, rules: Rules, hadCount: bool)
    requires section.rank == USER
    ensures Tested(table, m, section, rules, hadCount)
  {
  }

  lemma UsersStay(table: OpTable, st: State, section: Section, rules: Rules)
    requires 1 <= section.rank <= DATA && Apply(table, st, section, rules).Some?
    ensures var next := Apply(table, st, section, rules).value;
            && next.last == section.rank && next.image.users == st.image.users
            && next.hadCount == (st.hadCount || section.rank == DATA_COUNT)
  {
    hide ReadBytes, ReadDeclarations, ReadU32, ReadBodies, ReadWhole;
    if section.rank <= ELEM {
      ReadsWith(st.(last := section.rank), section.rank, section.payload, rules.isUtf8);
      var m := ReadDeclarations(st.(last := section.rank), section.rank, section.payload, rules.isUtf8).value;
      WithKeeps(st.image, section.rank, m);
    }
  }

  // ----- modules -----

  lemma ModuleRead(table: OpTable, s: seq<Byte>, rules: Rules, m: Image) returns (sections: seq<Section>)
    requires TableOk(table) && ReadModule(table, s, rules) == Some(m)
    ensures IsModule(table, s, sections, m) && Passes(table, sections, m, rules)
  {
    hide ReadSections, TableOk, Holds, HoldsUsers, AllTested, IsSections, Finish;
    sections := SectionsRead(table, s[8..], BEGIN, m, rules);
    assert m.users[0..] == m.users;
  }

  lemma ModuleAccepted(table: OpTable, s: seq<Byte>, rules: Rules, m: Image, sections: seq<Section>)
    requires TableOk(table)
    requires IsModule(table, s, sections, m) && Passes(table, sections, m, rules)
    ensures ReadModule(table, s, rules) == Some(m)
  {
    hide ReadSections, TableOk, Holds, HoldsUsers, AllTested, IsSections, Finish, UsersNamed;
    assert m.users[0..] == m.users;
    BeginAt(m);
    SectionsAccepted(table, s[8..], BEGIN, sections, m, rules);
  }

  lemma BeginAt(m: Image)
    ensures At(BEGIN, m)
  {
    assert m.users[..0] == [];
  }

  /** The bytes are an encoding of the module, in whatever sections, that passes the checks. */
  ghost predicate Encodes(table: OpTable, s: seq<Byte>, m: Image, rules: Rules) {
    exists sections :: IsModule(table, s, sections, m) && Passes(table, sections, m, rules)
  }

  /** For every input: the reader returns a module if and only if the bytes are an encoding of it that passes
      the checks. */
  lemma ModuleExact(table: OpTable, s: seq<Byte>, rules: Rules, m: Image)
    requires TableOk(table)
    ensures ReadModule(table, s, rules) == Some(m) <==> Encodes(table, s, m, rules)
  {
    hide ReadModule, IsModule, Passes, TableOk;
    if ReadModule(table, s, rules) == Some(m) {
      var sections := ModuleRead(table, s, rules, m);
    }
    if Encodes(table, s, m, rules) {
      var sections :| IsModule(table, s, sections, m) && Passes(table, sections, m, rules);
      ModuleAccepted(table, s, rules, m, sections);
    }
  }

  /** Reads section after section until the stream is empty, then makes the final checks. */
  method DeserializeModule(table: OpTable, s: seq<Byte>, rules: Rules) returns (r: Option<Image>)
    ensures r == ReadModule(table, s, rules)
    ensures TableOk(table) ==> forall m :: r == Some(m) <==> Encodes(table, s, m, rules)
  {
    hide Apply, ReadBytes, RankOf, TableOk, Encodes;
    forall m | TableOk(table)
      ensures ReadModule(table, s, rules) == Some(m) <==> Encodes(table, s, m, rules)
    {
      ModuleExact(table, s, rules, m);
    }
    if |s| < |HEADER| || s[..|HEADER|] != HEADER {
      return None;
    }
    var rest, st := s[|HEADER|..], BEGIN;
    while rest != []
      invariant ReadSections(table, s[|HEADER|..], BEGIN, rules) == ReadSections(table, rest, st, rules)
      decreases |rest|
    {
      var rank := RankOf(rest[0]);
      if rank.None? {
        return None;
      }
      var payload := ReadBytes(rest[1..]);
      if payload.None? {
        return None;
      }
      var next := Apply(table, st, Section(rank.value, payload.value.0), rules);
      if next.None? {
        return None;
      }
      rest, st := payload.value.1, next.value;
    }
    return Finish(st);
  }
}
