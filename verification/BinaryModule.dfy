/** Whole modules: framed sections in ascending order, the DataCount section that the operators on
    data segments depend on, and the checks at the end of the module. */
module BinaryModule {
  import opened Wrappers
  import opened Varints
  import opened BinaryFields
  import opened BinaryBody
  import opened BinaryCode
  import opened BinaryEntities
  import IR

  // ----- function bodies -----

  predicate BodiesOk(table: OpTable, bodies: seq<Body>) {
    TableOk(table) && forall i :: 0 <= i < |bodies| ==> BodyOk(table, bodies[i])
  }

  function WriteBodies(table: OpTable, bodies: seq<Body>): Option<seq<Byte>>
    requires BodiesOk(table, bodies)
  {
    if bodies == [] then Some([])
    else
      var content :- WriteContent(table, bodies[0]);
      var first :- WriteBytes(content);
      var others :- WriteBodies(table, bodies[1..]);
      Some(first + others)
  }

  /** The bodies of the functions from index `i` on, each validated among the declarations. */
  function ReadBodies(table: OpTable, i: nat, n: nat, s: seq<Byte>, rules: Rules, context: Image, count: Option<nat>)
    : Option<(seq<Body>, seq<Byte>)>
    decreases n
  {
    if n == 0 then Some(([], s))
    else
      var content :- ReadBytes(s);
      var first :- ReadContent(table, content.0, rules.maxLocals, count, AcceptorOf(rules, context, i));
      var others :- ReadBodies(table, i + 1, n - 1, content.1, rules, context, count);
      Some(([first] + others.0, others.1))
  }

  /** The reader accepts the body of function `i`: its locals are below the limit, a DataCount section
      announced its data segments, and the validator accepts it. */
  predicate Readable(table: OpTable, body: Body, i: nat, rules: Rules, context: Image, count: Option<nat>)
    requires BodyOk(table, body)
  {
    && WithinLocals(Named(body.locals), rules.maxLocals) && SegmentsKnown(table, body.ops, count)
    && rules.accepts(context, i, Normal(table, body))
  }

  predicate AllReadable(table: OpTable, bodies: seq<Body>, i: nat, rules: Rules, context: Image, count: Option<nat>)
    requires BodiesOk(table, bodies)
  {
    forall k :: 0 <= k < |bodies| ==> Readable(table, bodies[k], i + k, rules, context, count)
  }

  lemma AllReadableSplit(table: OpTable, bodies: seq<Body>, i: nat, rules: Rules, context: Image, count: Option<nat>)
    requires |bodies| > 0 && BodiesOk(table, bodies)
    ensures AllReadable(table, bodies, i, rules, context, count)
       <==> && Readable(table, bodies[0], i, rules, context, count)
            && AllReadable(table, bodies[1..], i + 1, rules, context, count)
  {
    hide Readable, BodyOk, TableOk;
    assert bodies[0] == bodies[0 + 0];
    if AllReadable(table, bodies, i, rules, context, count) {
      assert Readable(table, bodies[0], i + 0, rules, context, count);
      forall k | 0 <= k < |bodies[1..]| ensures Readable(table, bodies[1..][k], i + 1 + k, rules, context, count) {
        assert bodies[1..][k] == bodies[k + 1];
        assert Readable(table, bodies[k + 1], i + (k + 1), rules, context, count);
      }
    }
    if Readable(table, bodies[0], i, rules, context, count) && AllReadable(table, bodies[1..], i + 1, rules, context, count) {
      forall k | 0 <= k < |bodies| ensures Readable(table, bodies[k], i + k, rules, context, count) {
        if k > 0 {
          assert bodies[1..][k - 1] == bodies[k];
          assert Readable(table, bodies[1..][k - 1], i + 1 + (k - 1), rules, context, count);
        }
      }
    }
  }

  function Normals(table: OpTable, bodies: seq<Body>): seq<Body>
    requires BodiesOk(table, bodies)
  {
    seq(|bodies|, i requires 0 <= i < |bodies| => Normal(table, bodies[i]))
  }

  lemma {:induction false} BodiesBack(table: OpTable, bodies: seq<Body>, i: nat, rules: Rules, context: Image,
      count: Option<nat>)
    requires BodiesOk(table, bodies) && WriteBodies(table, bodies).Some?
    ensures ReadBodies(table, i, |bodies|, WriteBodies(table, bodies).value, rules, context, count)
         == if AllReadable(table, bodies, i, rules, context, count) then Some((Normals(table, bodies), [])) else None
    decreases |bodies|
  {
    hide ReadBytes, WriteBytes, ReadContent, WriteContent, Readable, BodyOk, Normal, TableOk;
    if bodies == [] {
      assert Normals(table, bodies) == [];
    } else {
      var content := WriteContent(table, bodies[0]).value;
      BytesBack(content, WriteBodies(table, bodies[1..]).value);
      OneBodyBack(table, bodies[0], i, rules, context, count);
      BodiesBack(table, bodies[1..], i + 1, rules, context, count);
      AllReadableSplit(table, bodies, i, rules, context, count);
      assert BodyOk(table, bodies[0]);
      NormalsSplit(table, bodies);
    }
  }

  lemma OneBodyBack(table: OpTable, body: Body, i: nat, rules: Rules, context: Image, count: Option<nat>)
    requires BodyOk(table, body) && WriteContent(table, body).Some?
    ensures ReadContent(table, WriteContent(table, body).value, rules.maxLocals, count, AcceptorOf(rules, context, i))
         == if Readable(table, body, i, rules, context, count) then Some(Normal(table, body)) else None
  {
    ContentBack(table, body, rules.maxLocals, count, AcceptorOf(rules, context, i));
  }

  lemma NormalsSplit(table: OpTable, bodies: seq<Body>)
    requires |bodies| > 0 && BodiesOk(table, bodies)
    ensures Normals(table, bodies) == [Normal(table, bodies[0])] + Normals(table, bodies[1..])
  {
    hide Normal;
  }

  // ----- sections -----

  // The known sections by their rank in the order they must have, as the source numbers them.
  const TYPE := 1
  const IMPORT := 2
  const FUNCTION := 3
  const TABLE := 4
  const MEMORY := 5
  const GLOBAL := 6
  const EXCEPTION := 7
  const EXPORT := 8
  const START := 9
  const ELEM := 10
  const DATA_COUNT := 11
  const CODE := 12
  const DATA := 13
  const USER := 14

  function IdOf(rank: nat): Byte
    requires 1 <= rank <= USER
  {
    if rank == USER then 0
    else if rank <= 6 then rank
    else if rank == 7 then 0x7f
    else if rank <= 10 then rank - 1
    else if rank == DATA_COUNT then 12
    else rank - 2
  }

  function RankOf(id: Byte): Option<nat> {
    if id == 0 then Some(USER)
    else if id <= 6 then Some(id)
    else if id <= 9 then Some(id + 1)
    else if id <= 11 then Some(id + 2)
    else if id == 12 then Some(DATA_COUNT)
    else if id == 0x7f then Some(7)
    else None
  }

  /** The serialized identifiers do not ascend with the ranks, but determine them. */
  lemma IdsExact(rank: nat, id: Byte)
    requires 1 <= rank <= USER
    ensures IdOf(rank) == id <==> RankOf(id) == Some(rank)
  {
  }

  datatype UserSection = UserSection(name: seq<Byte>, data: seq<Byte>)

  datatype Image = Image(
    types: seq<IR.FuncType>, imports: seq<Import>, functionTypes: seq<nat>, tables: seq<TableType>,
    memories: seq<Limits>, globals: seq<GlobalDef>, exceptions: seq<seq<IR.ValueType>>, exports: seq<Export>,
    start: Option<nat>, elems: seq<ElemSegment>, bodies: seq<Body>, segments: seq<DataSegment>, users: seq<UserSection>)

  /** What the reader is configured with: the limits of its feature specification, and validation.
      `declared` stands for the validation of the declarations so far after the section of some rank,
      `accepts` for that of the body of a function among the declarations. Both are arbitrary. */
  datatype Rules = Rules(
    maxLocals: nat, maxDataSegments: nat, isUtf8: Utf8,
    declared: (Image, nat) -> bool, accepts: (Image, nat, Body) -> bool)

  function AcceptorOf(rules: Rules, context: Image, i: nat): Acceptor {
    body => rules.accepts(context, i, body)
  }

  /** What validation sees of a module: user sections do not matter, nor do the other bodies. */
  function Interface(m: Image): Image {
    m.(bodies := [], users := [])
  }

  /** The operators of the bodies are well formed, and every declared function has a body. */
  predicate ImageOk(table: OpTable, m: Image) {
    BodiesOk(table, m.bodies) && |m.bodies| == |m.functionTypes|
  }

  datatype Section = Section(rank: nat, payload: seq<Byte>)

  // ----- writing -----

  predicate Present(m: Image, rank: nat) {
    match rank
    case 1 => m.types != []
    case 2 => m.imports != []
    case 3 => m.functionTypes != []
    case 4 => m.tables != []
    case 5 => m.memories != []
    case 6 => m.globals != []
    case 7 => m.exceptions != []
    case 8 => m.exports != []
    case 9 => m.start.Some?
    case 10 => m.elems != []
    case 11 => m.segments != []
    case 12 => m.functionTypes != []
    case 13 => m.segments != []
    case _ => false
  }

  function WriteCode(table: OpTable, m: Image): Option<seq<Byte>>
    requires ImageOk(table, m)
  {
    var n :- WriteU32(|m.bodies|);
    var all :- WriteBodies(table, m.bodies);
    Some(n + all)
  }

  /** The contents of a section other than the code. */
  function Declaration(m: Image, rank: nat, isUtf8: Utf8): Option<seq<Byte>>
    requires Present(m, rank)
  {
    match rank
    case 1 => WriteCounted(WriteFuncType, m.types)
    case 2 => WriteCounted(WriteImport, m.imports)
    case 3 => WriteArray(m.functionTypes)
    case 4 => WriteCounted(WriteTableType, m.tables)
    case 5 => WriteCounted(WriteLimits, m.memories)
    case 6 => WriteCounted(WriteGlobal, m.globals)
    case 7 => WriteCounted(WriteTuple, m.exceptions)
    case 8 => WriteCounted(ExportWriter(isUtf8), m.exports)
    case 9 => WriteU32(m.start.value)
    case 10 => WriteCounted(WriteElems, m.elems)
    case 11 => WriteU32(|m.segments|)
    case _ => WriteCounted(WriteData, m.segments)
  }

  function Payload(table: OpTable, m: Image, rank: nat, isUtf8: Utf8): Option<seq<Byte>>
    requires ImageOk(table, m) && Present(m, rank)
  {
    if rank == CODE then WriteCode(table, m) else Declaration(m, rank, isUtf8)
  }

  /** The known sections of at least some rank, in ascending order. */
  function KnownFrom(table: OpTable, m: Image, rank: nat, isUtf8: Utf8): Option<seq<Section>>
    requires ImageOk(table, m) && 1 <= rank
    decreases DATA - rank
  {
    if rank > DATA then Some([])
    else if !Present(m, rank) then KnownFrom(table, m, rank + 1, isUtf8)
    else
      var payload :- Payload(table, m, rank, isUtf8);
      var others :- KnownFrom(table, m, rank + 1, isUtf8);
      Some([Section(rank, payload)] + others)
  }

  function UserSections(users: seq<UserSection>): Option<seq<Section>> {
    if users == [] then Some([])
    else
      var name :- WriteBytes(users[0].name);
      var others :- UserSections(users[1..]);
      Some([Section(USER, name + users[0].data)] + others)
  }

  predicate Ranked(sections: seq<Section>) {
    forall i :: 0 <= i < |sections| ==> 1 <= sections[i].rank <= USER
  }

  function WriteSections(sections: seq<Section>): Option<seq<Byte>>
    requires Ranked(sections)
  {
    if sections == [] then Some([])
    else
      var payload :- WriteBytes(sections[0].payload);
      var others :- WriteSections(sections[1..]);
      Some([IdOf(sections[0].rank)] + (payload + others))
  }

  // ----- reading -----

  /** The module so far, the rank of the last known section, and which sections there were. */
  datatype State = State(image: Image, last: nat, hadCount: bool, count: nat, hadCode: bool, hadData: bool)

  const NOTHING := Image([], [], [], [], [], [], [], [], None, [], [], [], [])

  const BEGIN := State(NOTHING, 0, false, 0, false, false)

  /** An array that fills its section. */
  function ReadWhole<T>(read: Reader<T>, payload: seq<Byte>): Option<seq<T>> {
    var r :- ReadCounted(read, payload);
    if r.1 != [] then None else Some(r.0)
  }

  predicate TypesKnown(indices: seq<nat>, numTypes: nat) {
    forall i :: 0 <= i < |indices| ==> indices[i] < numTypes
  }

  predicate ImportsOk(imports: seq<Import>, numTypes: nat, isUtf8: Utf8) {
    forall i :: 0 <= i < |imports| ==>
      && isUtf8(imports[i].moduleName) && isUtf8(imports[i].exportName)
      && (imports[i].e.FunctionExtern? ==> imports[i].e.typeIndex < numTypes)
  }

  /** The number of data segments that a DataCount section announced. */
  function CountOf(st: State): Option<nat> {
    if st.hadCount then Some(st.count) else None
  }

  function ReadCode(table: OpTable, st: State, payload: seq<Byte>, rules: Rules): Option<State> {
    var n :- ReadU32(payload);
    if n.0 != |st.image.functionTypes| then None
    else
      var r :- ReadBodies(table, 0, n.0, n.1, rules, Interface(st.image), CountOf(st));
      if r.1 != [] then None else Some(st.(image := st.image.(bodies := r.0), hadCode := true))
  }

  function ReadDataSection(st: State, payload: seq<Byte>, rules: Rules): Option<State> {
    var n :- ReadU32(payload);
    if (if st.hadCount then n.0 != st.count else n.0 > rules.maxDataSegments) then None
    else
      var ds :- ReadWhole(ReadData, payload);
      var m := st.image.(segments := ds);
      if rules.declared(Interface(m), DATA) then Some(st.(image := m, count := n.0, hadData := true)) else None
  }

  function ReadUser(st: State, payload: seq<Byte>, isUtf8: Utf8): Option<State> {
    var name :- ReadBytes(payload);
    if !isUtf8(name.0) then None
    else Some(st.(image := st.image.(users := st.image.users + [UserSection(name.0, name.1)])))
  }

  /** The sections before the DataCount section. */
  function ReadDeclarations(st: State, rank: nat, payload: seq<Byte>, isUtf8: Utf8): Option<Image> {
    var m := st.image;
    match rank
    case 1 => (var xs :- ReadWhole(ReadFuncType, payload); Some(m.(types := xs)))
    case 2 =>
      (var xs :- ReadWhole(ReadImport, payload);
       if ImportsOk(xs, |m.types|, isUtf8) then Some(m.(imports := xs)) else None)
    case 3 =>
      (var xs :- ReadArray(payload);
       if xs.1 == [] && TypesKnown(xs.0, |m.types|) then Some(m.(functionTypes := xs.0)) else None)
    case 4 => (var xs :- ReadWhole(ReadTableType, payload); Some(m.(tables := xs)))
    case 5 => (var xs :- ReadWhole(ReadLimits, payload); Some(m.(memories := xs)))
    case 6 => (var xs :- ReadWhole(ReadGlobal, payload); Some(m.(globals := xs)))
    case 7 => (var xs :- ReadWhole(ReadTuple, payload); Some(m.(exceptions := xs)))
    case 8 => (var xs :- ReadWhole(ExportReader(isUtf8), payload); Some(m.(exports := xs)))
    case 9 => (var i :- ReadU32(payload); if i.1 == [] then Some(m.(start := Some(i.0))) else None)
    case _ => (var xs :- ReadWhole(ReadElems, payload); Some(m.(elems := xs)))
  }

  /** The contents of one section. */
  function ReadPayload(table: OpTable, st: State, section: Section, rules: Rules): Option<State> {
    var payload := section.payload;
    if section.rank == USER then ReadUser(st, payload, rules.isUtf8)
    else if section.rank == DATA_COUNT then
      var n :- ReadU32(payload);
      if n.1 != [] || n.0 > rules.maxDataSegments then None else Some(st.(hadCount := true, count := n.0))
    else if section.rank == CODE then ReadCode(table, st, payload, rules)
    else if section.rank == DATA then ReadDataSection(st, payload, rules)
    else
      var m :- ReadDeclarations(st, section.rank, payload, rules.isUtf8);
      if rules.declared(Interface(m), section.rank) then Some(st.(image := m)) else None
  }

  /** One section; a known one must rank above those before it. */
  function Apply(table: OpTable, st: State, section: Section, rules: Rules): Option<State> {
    if section.rank == USER then ReadPayload(table, st, section, rules)
    else if section.rank <= st.last then None
    else ReadPayload(table, st.(last := section.rank), section, rules)
  }

  function ReadSections(table: OpTable, s: seq<Byte>, st: State, rules: Rules): Option<State>
    decreases |s|
  {
    if s == [] then Some(st)
    else
      var rank :- RankOf(s[0]);
      var payload :- ReadBytes(s[1..]);
      var next :- Apply(table, st, Section(rank, payload.0), rules);
      ReadSections(table, payload.1, next, rules)
  }

  function Finish(st: State): Option<Image> {
    if st.image.functionTypes != [] && !st.hadCode then None
    else if st.count > 0 && !st.hadData then None
    else Some(st.image)
  }

  const HEADER: seq<Byte> := [0x00, 0x61, 0x73, 0x6d, 0x01, 0x00, 0x00, 0x00]

  function WriteModule(table: OpTable, m: Image, isUtf8: Utf8): Option<seq<Byte>>
    requires ImageOk(table, m)
  {
    var known :- KnownFrom(table, m, 1, isUtf8);
    var users :- UserSections(m.users);
    KnownRanked(table, m, 1, isUtf8);
    UsersRanked(m.users);
    var body :- WriteSections(known + users);
    Some(HEADER + body)
  }

  function ReadModule(table: OpTable, s: seq<Byte>, rules: Rules): Option<Image> {
    if |s| < |HEADER| || s[..|HEADER|] != HEADER then None
    else
      var st :- ReadSections(table, s[|HEADER|..], BEGIN, rules);
      Finish(st)
  }

  lemma {:induction false} KnownRanked(table: OpTable, m: Image, rank: nat, isUtf8: Utf8)
    requires ImageOk(table, m) && 1 <= rank
    ensures KnownFrom(table, m, rank, isUtf8).Some? ==> Ranked(KnownFrom(table, m, rank, isUtf8).value)
    decreases DATA - rank
  {
    hide ImageOk, Payload, Present;
    if rank <= DATA {
      KnownRanked(table, m, rank + 1, isUtf8);
    }
  }

  lemma {:induction false} UsersRanked(users: seq<UserSection>)
    ensures UserSections(users).Some? ==> Ranked(UserSections(users).value)
  {
    if users != [] {
      UsersRanked(users[1..]);
    }
  }

  // ----- the frame of the sections -----

  function ApplyAll(table: OpTable, st: State, sections: seq<Section>, rules: Rules): Option<State>
    decreases |sections|
  {
    if sections == [] then Some(st)
    else
      var next :- Apply(table, st, sections[0], rules);
      ApplyAll(table, next, sections[1..], rules)
  }

  lemma {:induction false} SectionsBack(table: OpTable, sections: seq<Section>, st: State, rules: Rules)
    requires Ranked(sections) && WriteSections(sections).Some?
    ensures ReadSections(table, WriteSections(sections).value, st, rules) == ApplyAll(table, st, sections, rules)
  {
    hide ReadBytes, WriteBytes, Apply, IdOf, RankOf;
    if sections != [] {
      var payload, others := WriteBytes(sections[0].payload).value, WriteSections(sections[1..]).value;
      var id := IdOf(sections[0].rank);
      IdsExact(sections[0].rank, id);
      assert ([id] + (payload + others))[1..] == payload + others;
      BytesBack(sections[0].payload, others);
      assert sections[0] == Section(sections[0].rank, sections[0].payload);
      var next := Apply(table, st, sections[0], rules);
      if next.Some? {
        SectionsBack(table, sections[1..], next.value, rules);
      }
    }
  }

  lemma {:induction false} ApplyAllSplit(table: OpTable, st: State, a: seq<Section>, b: seq<Section>, rules: Rules)
    ensures ApplyAll(table, st, a + b, rules)
         == match ApplyAll(table, st, a, rules)
            case None => None
            case Some(next) => ApplyAll(table, next, b, rules)
    decreases |a|
  {
    hide Apply;
    if a == [] {
      assert a + b == b;
    } else {
      assert (a + b)[0] == a[0] && (a + b)[1..] == a[1..] + b;
      var next := Apply(table, st, a[0], rules);
      if next.Some? {
        ApplyAllSplit(table, next.value, a[1..], b, rules);
      }
    }
  }

  // ----- the known sections back -----

  lemma WholeBack<T(!new)>(write: Writer<T>, read: Reader<T>, xs: seq<T>)
    requires Inverts(write, read) && WriteCounted(write, xs).Some?
    ensures ReadWhole(read, WriteCounted(write, xs).value) == Some(xs)
  {
    hide Inverts, WriteCounted, ReadCounted;
    var payload := WriteCounted(write, xs).value;
    CountedBack(write, read, xs, []);
    assert payload + [] == payload;
  }

  /** The declarations of `m` up to some rank. */
  function Declared(m: Image, rank: nat): Image {
    Image(
      if rank >= TYPE then m.types else [],
      if rank >= IMPORT then m.imports else [],
      if rank >= FUNCTION then m.functionTypes else [],
      if rank >= TABLE then m.tables else [],
      if rank >= MEMORY then m.memories else [],
      if rank >= GLOBAL then m.globals else [],
      if rank >= EXCEPTION then m.exceptions else [],
      if rank >= EXPORT then m.exports else [],
      if rank >= START then m.start else None,
      if rank >= ELEM then m.elems else [], [],
      if rank >= DATA then m.segments else [], [])
  }

  /** The sections after which the declarations so far are validated. */
  predicate IsValidated(rank: nat) {
    1 <= rank <= ELEM || rank == DATA
  }

  /** The DataCount section the writer makes. */
  function WrittenCount(m: Image): Option<nat> {
    if m.segments == [] then None else Some(|m.segments|)
  }

  /** What reading a section of declarations alone tests. */
  predicate FitsReading(m: Image, rank: nat, isUtf8: Utf8) {
    && (rank == IMPORT ==> ImportsOk(m.imports, |m.types|, isUtf8))
    && (rank == FUNCTION ==> TypesKnown(m.functionTypes, |m.types|))
  }

  /** The section of the given rank fits the reader's checks. */
  predicate Fits(table: OpTable, m: Image, rank: nat, rules: Rules)
    requires ImageOk(table, m)
  {
    && FitsReading(m, rank, rules.isUtf8)
    && (rank == DATA_COUNT ==> |m.segments| <= rules.maxDataSegments)
    && (rank == CODE ==> AllReadable(table, m.bodies, 0, rules, Declared(m, ELEM), WrittenCount(m)))
    && (IsValidated(rank) && Present(m, rank) ==> rules.declared(Declared(m, rank), rank))
  }

  lemma DeclarationBack(table: OpTable, m: Image, rank: nat, st: State, isUtf8: Utf8)
    requires ImageOk(table, m) && 1 <= rank <= ELEM && Present(m, rank) && Payload(table, m, rank, isUtf8).Some?
    requires st.image == Declared(m, rank - 1)
    ensures ReadDeclarations(st, rank, Payload(table, m, rank, isUtf8).value, isUtf8)
         == if FitsReading(m, rank, isUtf8) then Some(Declared(m, rank)) else None
  {
    hide Inverts, WriteCounted, ReadWhole, ImageOk, AllReadable, ImportsOk, TypesKnown, ReadU32, WriteU32,
         ReadArray, WriteArray;
    match rank
    case 1 =>
      FuncTypeInverts();
      WholeBack(WriteFuncType, ReadFuncType, m.types);
    case 2 =>
      ImportInverts();
      WholeBack(WriteImport, ReadImport, m.imports);
    case 3 => ArrayAlone(m.functionTypes);
    case 4 =>
      TableTypeInverts();
      WholeBack(WriteTableType, ReadTableType, m.tables);
    case 5 =>
      LimitsInverts();
      WholeBack(WriteLimits, ReadLimits, m.memories);
    case 6 =>
      GlobalInverts();
      WholeBack(WriteGlobal, ReadGlobal, m.globals);
    case 7 =>
      TupleInverts();
      WholeBack(WriteTuple, ReadTuple, m.exceptions);
    case 8 =>
      ExportInverts(isUtf8);
      WholeBack(ExportWriter(isUtf8), ExportReader(isUtf8), m.exports);
    case 9 => U32Alone(m.start.value);
    case 10 =>
      ElemsInverts();
      WholeBack(WriteElems, ReadElems, m.elems);
  }

  lemma ArrayAlone(xs: seq<nat>)
    requires WriteArray(xs).Some?
    ensures ReadArray(WriteArray(xs).value) == Some((xs, []))
  {
    hide ReadArray, WriteArray;
    ArrayBack(xs, []);
    assert WriteArray(xs).value + [] == WriteArray(xs).value;
  }

  lemma U32Alone(v: nat)
    requires WriteU32(v).Some?
    ensures ReadU32(WriteU32(v).value) == Some((v, []))
  {
    hide ReadU32, WriteU32;
    U32Back(v, []);
    assert WriteU32(v).value + [] == WriteU32(v).value;
  }

  lemma CodeBack(table: OpTable, m: Image, st: State, rules: Rules)
    requires ImageOk(table, m) && WriteCode(table, m).Some?
    requires st.image == Declared(m, ELEM) && CountOf(st) == WrittenCount(m)
    ensures ReadCode(table, st, WriteCode(table, m).value, rules)
         == if Fits(table, m, CODE, rules)
            then Some(st.(image := st.image.(bodies := Normals(table, m.bodies)), hadCode := true)) else None
  {
    hide ReadU32, WriteU32, ReadBodies, WriteBodies, AllReadable, Normals, BodiesOk;
    U32Back(|m.bodies|, WriteBodies(table, m.bodies).value);
    BodiesBack(table, m.bodies, 0, rules, Declared(m, ELEM), WrittenCount(m));
  }

  lemma DataSectionBack(ds: seq<DataSegment>, st: State, rules: Rules)
    requires WriteCounted(WriteData, ds).Some? && st.hadCount && st.count == |ds|
    ensures var m := st.image.(segments := ds);
            ReadDataSection(st, WriteCounted(WriteData, ds).value, rules)
            == if rules.declared(Interface(m), DATA) then Some(st.(image := m, hadData := true)) else None
  {
    hide Inverts, ReadU32, WriteU32, ReadWhole, WriteAll;
    DataInverts();
    WholeBack(WriteData, ReadData, ds);
    U32Back(|ds|, WriteAll(WriteData, ds).value);
  }

  function LastKnown(m: Image, rank: nat): (r: nat)
    ensures r <= rank
  {
    if rank == 0 then 0 else if Present(m, rank) then rank else LastKnown(m, rank - 1)
  }

  /** The state of the reader after the known sections up to some rank. */
  function Partial(table: OpTable, m: Image, rank: nat): State
    requires ImageOk(table, m)
  {
    State(
      Declared(m, rank).(bodies := if rank >= CODE then Normals(table, m.bodies) else []),
      LastKnown(m, rank),
      rank >= DATA_COUNT && m.segments != [],
      if rank >= DATA_COUNT then |m.segments| else 0,
      rank >= CODE && m.functionTypes != [],
      rank >= DATA && m.segments != [])
  }

  /** Reading one section of a written module takes the reader from one partial state to the next. */
  lemma SectionBack(table: OpTable, m: Image, rank: nat, rules: Rules)
    requires ImageOk(table, m) && 1 <= rank <= DATA && Present(m, rank) && Payload(table, m, rank, rules.isUtf8).Some?
    ensures Apply(table, Partial(table, m, rank - 1), Section(rank, Payload(table, m, rank, rules.isUtf8).value), rules)
         == if Fits(table, m, rank, rules) then Some(Partial(table, m, rank)) else None
  {
    hide ReadU32, ReadCode, ReadDataSection, ReadDeclarations, ImageOk, Normals, AllReadable, WriteU32, WriteCode,
         WriteCounted, WriteArray,
         ImportsOk, TypesKnown;
    var st := Partial(table, m, rank - 1).(last := rank);
    if rank <= ELEM {
      DeclarationBack(table, m, rank, st, rules.isUtf8);
    } else if rank == DATA_COUNT {
      U32Alone(|m.segments|);
    } else if rank == CODE {
      CodeBack(table, m, st, rules);
    } else {
      DataSectionBack(m.segments, st, rules);
    }
  }

  lemma AbsentSection(table: OpTable, m: Image, rank: nat, rules: Rules)
    requires ImageOk(table, m) && 1 <= rank <= DATA && !Present(m, rank)
    ensures Partial(table, m, rank) == Partial(table, m, rank - 1)
    ensures Fits(table, m, rank, rules)
  {
    assert m.bodies == [] ==> Normals(table, m.bodies) == [];
  }

  predicate FitsFrom(table: OpTable, m: Image, rank: nat, rules: Rules)
    requires ImageOk(table, m)
  {
    forall r :: rank <= r <= DATA ==> Fits(table, m, r, rules)
  }

  lemma {:induction false} KnownBack(table: OpTable, m: Image, rank: nat, rules: Rules)
    requires ImageOk(table, m) && 1 <= rank <= DATA + 1 && KnownFrom(table, m, rank, rules.isUtf8).Some?
    ensures ApplyAll(table, Partial(table, m, rank - 1), KnownFrom(table, m, rank, rules.isUtf8).value, rules)
         == if FitsFrom(table, m, rank, rules) then Some(Partial(table, m, DATA)) else None
    decreases DATA + 1 - rank
  {
    hide Apply, Partial, Payload, ImageOk, Present, Fits;
    if rank <= DATA {
      if Present(m, rank) {
        SectionBack(table, m, rank, rules);
      } else {
        AbsentSection(table, m, rank, rules);
      }
      KnownBack(table, m, rank + 1, rules);
      assert FitsFrom(table, m, rank, rules) <==>
             Fits(table, m, rank, rules) && FitsFrom(table, m, rank + 1, rules);
    }
  }

  // ----- the user sections back -----

  predicate NamesOk(users: seq<UserSection>, isUtf8: Utf8) {
    forall i :: 0 <= i < |users| ==> isUtf8(users[i].name)
  }

  lemma UserBack(table: OpTable, st: State, u: UserSection, rules: Rules)
    requires WriteBytes(u.name).Some?
    ensures Apply(table, st, Section(USER, WriteBytes(u.name).value + u.data), rules)
         == if rules.isUtf8(u.name) then Some(st.(image := st.image.(users := st.image.users + [u]))) else None
  {
    hide ReadBytes, WriteBytes;
    BytesBack(u.name, u.data);
    assert u == UserSection(u.name, u.data);
  }

  lemma {:induction false} UsersBack(table: OpTable, st: State, users: seq<UserSection>, rules: Rules)
    requires UserSections(users).Some?
    ensures ApplyAll(table, st, UserSections(users).value, rules)
         == if NamesOk(users, rules.isUtf8) then Some(st.(image := st.image.(users := st.image.users + users))) else None
    decreases |users|
  {
    hide Apply, WriteBytes;
    if users == [] {
      assert st.image.users + [] == st.image.users;
    } else {
      var first := Section(USER, WriteBytes(users[0].name).value + users[0].data);
      assert ([first] + UserSections(users[1..]).value)[1..] == UserSections(users[1..]).value;
      UserBack(table, st, users[0], rules);
      UsersBack(table, st.(image := st.image.(users := st.image.users + [users[0]])), users[1..], rules);
      assert st.image.users + [users[0]] + users[1..] == st.image.users + users;
      assert forall i :: 0 < i < |users| ==> users[i] == users[1..][i - 1];
    }
  }

  // ----- the module back -----

  /** The reader accepts what was written for the module. */
  predicate Loadable(table: OpTable, m: Image, rules: Rules)
    requires ImageOk(table, m)
  {
    && ImportsOk(m.imports, |m.types|, rules.isUtf8) && TypesKnown(m.functionTypes, |m.types|)
    && |m.segments| <= rules.maxDataSegments
    && AllReadable(table, m.bodies, 0, rules, Declared(m, ELEM), WrittenCount(m))
    && NamesOk(m.users, rules.isUtf8)
    && forall rank :: 1 <= rank <= DATA && IsValidated(rank) && Present(m, rank) ==> rules.declared(Declared(m, rank), rank)
  }

  lemma FitsAll(table: OpTable, m: Image, rules: Rules)
    requires ImageOk(table, m)
    ensures FitsFrom(table, m, 1, rules) && NamesOk(m.users, rules.isUtf8) <==> Loadable(table, m, rules)
  {
    hide ImportsOk, TypesKnown, AllReadable, NamesOk, Declared, Present, ImageOk;
    if FitsFrom(table, m, 1, rules) {
      assert Fits(table, m, IMPORT, rules) && Fits(table, m, FUNCTION, rules);
      assert Fits(table, m, DATA_COUNT, rules) && Fits(table, m, CODE, rules);
      forall rank | 1 <= rank <= DATA && IsValidated(rank) && Present(m, rank) ensures rules.declared(Declared(m, rank), rank) {
        assert Fits(table, m, rank, rules);
      }
    }
  }

  lemma BeginIsPartial(table: OpTable, m: Image)
    requires ImageOk(table, m)
    ensures Partial(table, m, 0) == BEGIN
  {
  }

  lemma WholeIsPartial(table: OpTable, m: Image)
    requires ImageOk(table, m)
    ensures var st := Partial(table, m, DATA);
            Finish(st.(image := st.image.(users := [] + m.users))) == Some(m.(bodies := Normals(table, m.bodies)))
  {
    hide Normals, LastKnown;
    assert [] + m.users == m.users;
  }

  /** A written module is read back, up to the numbering of its branch tables, exactly when its type
      indices, its names, the number of its data segments and the locals of its bodies pass the reader's
      checks, every body finds its data segments, and validation accepts the declarations after each
      section and every body. The order of the sections and the DataCount section never matter. */
  lemma ModuleRoundTrip(table: OpTable, m: Image, rules: Rules)
    requires ImageOk(table, m) && WriteModule(table, m, rules.isUtf8).Some?
    ensures ReadModule(table, WriteModule(table, m, rules.isUtf8).value, rules)
         == if Loadable(table, m, rules) then Some(m.(bodies := Normals(table, m.bodies))) else None
  {
    hide ReadSections, WriteSections, KnownFrom, UserSections, ApplyAll, ImageOk, Normals, Loadable, NamesOk, Ranked,
         Partial, Finish, FitsFrom;
    var known, users := KnownFrom(table, m, 1, rules.isUtf8).value, UserSections(m.users).value;
    KnownRanked(table, m, 1, rules.isUtf8);
    UsersRanked(m.users);
    RankedTogether(known, users);
    var body := WriteSections(known + users).value;
    assert (HEADER + body)[..|HEADER|] == HEADER && (HEADER + body)[|HEADER|..] == body;
    SectionsBack(table, known + users, BEGIN, rules);
    ApplyAllSplit(table, BEGIN, known, users, rules);
    BeginIsPartial(table, m);
    KnownBack(table, m, 1, rules);
    UsersBack(table, Partial(table, m, DATA), m.users, rules);
    assert Partial(table, m, DATA).image.users == [] by { NoUsers(table, m); }
    WholeIsPartial(table, m);
    FitsAll(table, m, rules);
  }

  lemma NoUsers(table: OpTable, m: Image)
    requires ImageOk(table, m)
    ensures Partial(table, m, DATA).image.users == []
  {
  }

  lemma RankedTogether(a: seq<Section>, b: seq<Section>)
    requires Ranked(a) && Ranked(b)
    ensures Ranked(a + b)
  {
  }

  // ----- the order of the sections -----

  /** The known sections rank above `last` and ascend; user sections may stand anywhere. */
  ghost predicate Ascending(sections: seq<Section>, last: nat) {
    && (forall i :: 0 <= i < |sections| ==> sections[i].rank == USER || sections[i].rank > last)
    && (forall i, j :: 0 <= i < j < |sections| ==>
          sections[i].rank == USER || sections[j].rank == USER || sections[i].rank < sections[j].rank)
  }

  lemma ApplyKeepsLast(table: OpTable, st: State, section: Section, rules: Rules)
    requires Apply(table, st, section, rules).Some?
    ensures Apply(table, st, section, rules).value.last == if section.rank == USER then st.last else section.rank
    ensures section.rank == USER || section.rank > st.last
  {
    hide ReadU32, ReadArray, ReadBytes, ReadBodies, ReadWhole;
  }

  /** A module is read only if its known sections are in order, each at most once. */
  lemma {:induction false} OrderEnforced(table: OpTable, st: State, sections: seq<Section>, rules: Rules)
    requires ApplyAll(table, st, sections, rules).Some?
    ensures Ascending(sections, st.last)
    decreases |sections|
  {
    hide Apply;
    if sections != [] {
      var next := Apply(table, st, sections[0], rules).value;
      ApplyKeepsLast(table, st, sections[0], rules);
      OrderEnforced(table, next, sections[1..], rules);
      assert forall i :: 0 < i < |sections| ==> sections[i] == sections[1..][i - 1];
    }
  }
}
