/** The grammar of the binary format, section 5 of the WebAssembly Core Specification 1.0 with the extensions
    this program knows, as relations over bytes. `IsX(s, x, rest)` says that `s` starts with an encoding of
    `x` and goes on with `rest`. Where the program accepts more than the specification it is said so.
    Nothing here is shared with the writer or the reader but the types of the entities. */
module BinaryGrammar {
  import opened Wrappers
  import opened IR
  import opened Varints
  import opened Leb
  import opened F = BinaryFields
  import opened BinaryBody
  import opened BinaryCode
  import opened BinaryEntities
  import opened BinaryModule

  type Grammar<!T> = (seq<Byte>, T, seq<Byte>) -> bool

  // ----- values -----

  ghost predicate IsLeb(s: seq<Byte>, signed: bool, bits: nat, v: int, rest: seq<Byte>) {
    exists k :: 0 <= k <= |s| && IsInteger(s[..k], signed, bits, v) && s[k..] == rest
  }

  ghost predicate IsU32(s: seq<Byte>, v: int, rest: seq<Byte>) {
    IsLeb(s, false, 32, v, rest)
  }

  /** One byte of the given value. */
  predicate IsByte(s: seq<Byte>, b: int, rest: seq<Byte>) {
    s != [] && s[0] == b && s[1..] == rest
  }

  ghost predicate IsMany<T(!new)>(g: Grammar<T>, s: seq<Byte>, xs: seq<T>, rest: seq<Byte>)
    decreases |xs|
  {
    if xs == [] then s == rest
    else exists r :: g(s, xs[0], r) && IsMany(g, r, xs[1..], rest)
  }

  ghost predicate IsVector<T(!new)>(g: Grammar<T>, s: seq<Byte>, xs: seq<T>, rest: seq<Byte>) {
    exists r :: IsU32(s, |xs|, r) && IsMany(g, r, xs, rest)
  }

  /** A vector of bytes, which is also a name. */
  ghost predicate IsBytes(s: seq<Byte>, bytes: seq<Byte>, rest: seq<Byte>) {
    IsU32(s, |bytes|, bytes + rest)
  }

  // ----- types -----

  predicate TypeByte(b: int, t: ValueType) {
    || (b == 0x7f && t == I32) || (b == 0x7e && t == I64) || (b == 0x7d && t == F32) || (b == 0x7c && t == F64)
    || (b == 0x7b && t == V128) || (b == 0x70 && t == Funcref) || (b == 0x6f && t == Anyref)
  }

  ghost predicate IsType(s: seq<Byte>, t: ValueType, rest: seq<Byte>) {
    exists b :: 0 <= b < 128 && TypeByte(b, t) && IsByte(s, b, rest)
  }

  ghost predicate IsTuple(s: seq<Byte>, ts: seq<ValueType>, rest: seq<Byte>) {
    IsVector(IsType, s, ts, rest)
  }

  ghost predicate IsFuncType(s: seq<Byte>, t: FuncType, rest: seq<Byte>) {
    s != [] && s[0] == 0x60 && exists r :: IsTuple(s[1..], t.params, r) && IsTuple(r, t.results, rest)
  }

  /** The type of a block is a signed number of 32 bits: an index, or minus the distance of the byte of a
      type to 128. The specification wants the latter in one byte. */
  predicate BlockNumber(v: int, bt: BlockType) {
    || (v >= 0 && bt == TypeIndex(v))
    || (v == -64 && bt == NoParametersOrResult)
    || (v < 0 && bt.OneResult? && TypeByte(v + 128, bt.resultType))
  }

  /** The lowest two flags say whether there is a maximum and whether the memory is shared; the program
      does not look at the others. */
  ghost predicate IsLimits(s: seq<Byte>, l: Limits, rest: seq<Byte>) {
    exists flags: nat, r, q ::
      && IsU32(s, flags, r) && IsU32(r, l.min, q)
      && (l.max.Some? <==> flags % 2 == 1) && (l.isShared <==> flags / 2 % 2 == 1)
      && match l.max case None => q == rest case Some(max) => IsU32(q, max, rest)
  }

  predicate RefByte(b: int, t: RefType) {
    (b == 0x70 && t == FuncRef) || (b == 0x6f && t == AnyRef)
  }

  ghost predicate IsTableType(s: seq<Byte>, t: TableType, rest: seq<Byte>) {
    s != [] && RefByte(s[0], t.element) && IsLimits(s[1..], t.size, rest)
  }

  ghost predicate IsGlobalType(s: seq<Byte>, g: GlobalType, rest: seq<Byte>) {
    exists r :: IsType(s, g.t, r) && IsLeb(r, false, 1, if g.isMutable then 1 else 0, rest)
  }

  // ----- immediates -----

  ghost predicate IsField(f: Field, s: seq<Byte>, v: Value, rest: seq<Byte>) {
    match f
    case U32Field => v.Number? && IsLeb(s, false, 32, v.n, rest)
    case U7Field => v.Number? && IsLeb(s, false, 7, v.n, rest)
    case S32Field => v.Number? && IsLeb(s, true, 32, v.n, rest)
    case S64Field => v.Number? && IsLeb(s, true, 64, v.n, rest)
    case OctetField => v.Number? && IsByte(s, v.n, rest)
    case ZeroField => v == F.Number(0) && IsByte(s, 0, rest)
    case TypeField => v.OfType? && IsType(s, v.t, rest)
    case BlockField => v.OfBlock? && exists n :: IsLeb(s, true, 32, n, rest) && BlockNumber(n, v.bt)
  }

  ghost predicate IsFields(fs: seq<Field>, s: seq<Byte>, vs: seq<Value>, rest: seq<Byte>) {
    && |fs| == |vs|
    && if fs == [] then s == rest
       else exists r :: IsField(fs[0], s, vs[0], r) && IsFields(fs[1..], r, vs[1..], rest)
  }

  /** An opcode of one byte up to 0xdf, or a prefix byte and a number. */
  ghost predicate IsOpcode(s: seq<Byte>, opcode: nat, rest: seq<Byte>) {
    && s != []
    && if s[0] <= 0xdf then IsByte(s, opcode, rest)
       else opcode / 256 == s[0] && IsLeb(s[1..], false, 8, opcode % 256, rest)
  }

  // ----- initializers -----

  /** The constant instructions: the numeric constants, a global, a null reference or a function. */
  function ConstantFields(opcode: nat): Option<seq<Field>> {
    match opcode
    case 0x41 => Some([S32Field])
    case 0x42 => Some([S64Field])
    case 0x43 => Some(seq(4, _ => OctetField))
    case 0x44 => Some(seq(8, _ => OctetField))
    case 0xfd02 => Some(seq(16, _ => OctetField))
    case 0x23 => Some([U32Field])
    case 0xd2 => Some([U32Field])
    case 0xd0 => Some([])
    case _ => None
  }

  ghost predicate IsInitializer(s: seq<Byte>, i: Initializer, rest: seq<Byte>) {
    && ConstantFields(i.opcode).Some?
    && exists r, q ::
         IsOpcode(s, i.opcode, r) && IsFields(ConstantFields(i.opcode).value, r, i.values, q) && IsByte(q, 0x0b, rest)
  }

  ghost predicate IsGlobal(s: seq<Byte>, d: GlobalDef, rest: seq<Byte>) {
    exists r :: IsGlobalType(s, d.g, r) && IsInitializer(r, d.init, rest)
  }

  // ----- imports and exports -----

  ghost predicate IsExtern(kind: int, s: seq<Byte>, e: ExternType, rest: seq<Byte>) {
    match e
    case FunctionExtern(i) => kind == 0x00 && IsU32(s, i, rest)
    case TableExtern(t) => kind == 0x01 && IsTableType(s, t, rest)
    case MemoryExtern(m) => kind == 0x02 && IsLimits(s, m, rest)
    case GlobalExtern(g) => kind == 0x03 && IsGlobalType(s, g, rest)
    case ExceptionExtern(params) => kind == 0x04 && IsTuple(s, params, rest)
  }

  ghost predicate IsImport(s: seq<Byte>, i: Import, rest: seq<Byte>) {
    exists r, q ::
      IsBytes(s, i.moduleName, r) && IsBytes(r, i.exportName, q) && q != [] && IsExtern(q[0], q[1..], i.e, rest)
  }

  ghost predicate IsExport(s: seq<Byte>, e: Export, rest: seq<Byte>) {
    exists r :: IsBytes(s, e.name, r) && r != [] && r[0] == e.kind && IsU32(r[1..], e.index, rest)
  }

  // ----- segments -----

  /** A flag: 0 for the first table or memory, 1 for a passive segment, 2 with an index. */
  ghost predicate IsTarget(s: seq<Byte>, t: Target, rest: seq<Byte>) {
    match t
    case None => IsU32(s, 1, rest)
    case Some((index, base)) =>
      || (index == 0 && exists r :: IsU32(s, 0, r) && IsInitializer(r, base, rest))
      || exists r, q :: IsU32(s, 2, r) && IsU32(r, index, q) && IsInitializer(q, base, rest)
  }

  ghost predicate IsData(s: seq<Byte>, d: DataSegment, rest: seq<Byte>) {
    exists r :: IsTarget(s, d.target, r) && IsBytes(r, d.data, rest)
  }

  ghost predicate IsElem(s: seq<Byte>, e: Elem, rest: seq<Byte>) {
    match e
    case None => exists r :: IsByte(s, 0xd0, r) && IsByte(r, 0x0b, rest)
    case Some(index) => exists r, q :: IsByte(s, 0xd2, r) && IsU32(r, index, q) && IsByte(q, 0x0b, rest)
  }

  ghost predicate IsElems(s: seq<Byte>, e: ElemSegment, rest: seq<Byte>) {
    match e
    case ActiveElems(table, base, functions) =>
      exists r :: IsTarget(s, Some((table, base)), r) && IsVector(IsU32, r, functions, rest)
    case PassiveElems(element, elems) =>
      exists r :: IsTarget(s, None, r) && r != [] && RefByte(r[0], element) && IsVector(IsElem, r[1..], elems, rest)
  }

  // ----- code -----

  /** The immediates of each class of operators. A branch table precedes the default target, a count of
      one precedes the type of a select. */
  function Immediate(c: ImmClass): seq<Field> {
    match c
    case NoImm => []
    case ControlStructureImm => [BlockField]
    case SelectImm => [TypeField]
    case BranchImm => [U32Field]
    case BranchTableImm => [U32Field]
    case LiteralI32Imm => [S32Field]
    case LiteralI64Imm => [S64Field]
    case LiteralF32Imm => seq(4, _ => OctetField)
    case LiteralF64Imm => seq(8, _ => OctetField)
    case LiteralV128Imm => seq(16, _ => OctetField)
    case VariableImm => [U32Field]
    case FunctionImm => [U32Field]
    case CallIndirectImm => [U32Field, U32Field]
    case LoadOrStoreImm => [U7Field, U32Field]
    case AtomicLoadOrStoreImm => [U7Field, U32Field]
    case MemoryImm => [ZeroField]
    case MemoryCopyImm => [ZeroField, ZeroField]
    case TableImm => [U32Field]
    case TableCopyImm => [U32Field, U32Field]
    case LaneIndexImm => [U7Field]
    case ShuffleImm => seq(16, _ => U7Field)
    case ExceptionTypeImm => [U32Field]
    case RethrowImm => [U32Field]
    case DataSegmentAndMemImm => [U32Field, U32Field]
    case DataSegmentImm => [U32Field]
    case ElemSegmentAndTableImm => [U32Field, U32Field]
    case ElemSegmentImm => [U32Field]
  }

  /** The operator with its immediate; a branch table is the one numbered `n`. */
  ghost predicate IsOperator(table: OpTable, s: seq<Byte>, op: Operator, tables: seq<seq<nat>>, n: nat,
      rest: seq<Byte>) {
    || (op == Operator(0x1c, [OfType(AnyType)], 0) && IsOpcode(s, 0x1b, rest))
    || (op.opcode == 0x1c && op.branchTable == 0
        && exists r, q :: IsOpcode(s, 0x1c, r) && IsU32(r, 1, q) && IsFields([TypeField], q, op.values, rest))
    || (op.opcode != 0x1c && op.opcode in table && table[op.opcode].BranchTableImm?
        && op.branchTable == n < |tables|
        && exists r, q ::
             IsOpcode(s, op.opcode, r) && IsVector(IsNat, r, tables[n], q) && IsFields([U32Field], q, op.values, rest))
    || (op.opcode != 0x1c && op.opcode in table && !table[op.opcode].BranchTableImm? && op.branchTable == 0
        && exists r :: IsOpcode(s, op.opcode, r) && IsFields(Immediate(table[op.opcode]), r, op.values, rest))
  }

  ghost predicate IsNat(s: seq<Byte>, v: nat, rest: seq<Byte>) {
    IsU32(s, v, rest)
  }

  predicate HasTable(table: OpTable, op: Operator) {
    op.opcode != 0x1c && op.opcode in table && table[op.opcode].BranchTableImm?
  }

  /** Operators up to the end, the branch tables in the order of their use, `n` of them used so far. */
  ghost predicate IsCode(table: OpTable, s: seq<Byte>, ops: seq<Operator>, tables: seq<seq<nat>>, n: nat)
    decreases |ops|
  {
    if ops == [] then s == [] && n == |tables|
    else exists r :: IsOperator(table, s, ops[0], tables, n, r)
                     && IsCode(table, r, ops[1..], tables, if HasTable(table, ops[0]) then n + 1 else n)
  }

  ghost predicate IsLocalSet(s: seq<Byte>, l: LocalRun, rest: seq<Byte>) {
    exists r :: IsU32(s, l.num, r) && IsType(r, l.t, rest)
  }

  /** The locals the sets stand for. */
  function Unrolled(sets: seq<LocalRun>): seq<ValueType> {
    if sets == [] then [] else seq(sets[0].num, _ => sets[0].t) + Unrolled(sets[1..])
  }

  ghost predicate IsBody(table: OpTable, s: seq<Byte>, body: Body) {
    exists sets: seq<LocalRun>, r ::
      IsVector(IsLocalSet, s, sets, r) && body.locals == Unrolled(sets) && IsCode(table, r, body.ops, body.tables, 0)
  }

  /** Bodies, each preceded by its size. */
  ghost predicate IsBodies(table: OpTable, s: seq<Byte>, bodies: seq<Body>, rest: seq<Byte>)
    decreases |bodies|
  {
    if bodies == [] then s == rest
    else exists content, r ::
      IsBytes(s, content, r) && IsBody(table, content, bodies[0]) && IsBodies(table, r, bodies[1..], rest)
  }

  // ----- sections -----

  /** The identifiers of the sections, which are ranked in the order they must have. */
  predicate SectionByte(id: int, rank: nat) {
    || (id == 1 && rank == TYPE) || (id == 2 && rank == IMPORT) || (id == 3 && rank == FUNCTION)
    || (id == 4 && rank == TABLE) || (id == 5 && rank == MEMORY) || (id == 6 && rank == GLOBAL)
    || (id == 0x7f && rank == EXCEPTION) || (id == 7 && rank == EXPORT) || (id == 8 && rank == START)
    || (id == 9 && rank == ELEM) || (id == 12 && rank == DATA_COUNT) || (id == 10 && rank == CODE)
    || (id == 11 && rank == DATA) || (id == 0 && rank == USER)
  }

  /** Sections up to the end: an identifier, the size of the contents, and the contents. */
  ghost predicate IsSections(s: seq<Byte>, sections: seq<Section>)
    decreases |sections|
  {
    if sections == [] then s == []
    else
      && s != [] && SectionByte(s[0], sections[0].rank)
      && exists r :: IsBytes(s[1..], sections[0].payload, r) && IsSections(r, sections[1..])
  }

  /** The contents of the section of some rank. */
  ghost predicate IsContent(table: OpTable, rank: nat, s: seq<Byte>, m: Image) {
    match rank
    case 1 => IsVector(IsFuncType, s, m.types, [])
    case 2 => IsVector(IsImport, s, m.imports, [])
    case 3 => IsVector(IsNat, s, m.functionTypes, [])
    case 4 => IsVector(IsTableType, s, m.tables, [])
    case 5 => IsVector(IsLimits, s, m.memories, [])
    case 6 => IsVector(IsGlobal, s, m.globals, [])
    case 7 => IsVector(IsTuple, s, m.exceptions, [])
    case 8 => IsVector(IsExport, s, m.exports, [])
    case 9 => m.start.Some? && IsU32(s, m.start.value, [])
    case 10 => IsVector(IsElems, s, m.elems, [])
    case 11 => IsU32(s, |m.segments|, [])
    case 12 =>
      |m.bodies| == |m.functionTypes| && exists r :: IsU32(s, |m.bodies|, r) && IsBodies(table, r, m.bodies, [])
    case 13 => IsVector(IsData, s, m.segments, [])
    case _ => false
  }

  /** The module has nothing that the section of some rank would hold. */
  predicate Lacks(m: Image, rank: nat) {
    match rank
    case 1 => m.types == []
    case 2 => m.imports == []
    case 3 => m.functionTypes == []
    case 4 => m.tables == []
    case 5 => m.memories == []
    case 6 => m.globals == []
    case 7 => m.exceptions == []
    case 8 => m.exports == []
    case 9 => m.start == None
    case 10 => m.elems == []
    case 12 => m.functionTypes == [] && m.bodies == []
    case 13 => m.segments == []
    case _ => true
  }

  /** The module lacks what the sections between two ranks would hold. */
  predicate Skips(m: Image, last: nat, next: nat) {
    forall rank: nat :: last < rank < next ==> Lacks(m, rank)
  }

  /** The known sections ascend and hold the module; one that is left out had nothing to hold. */
  ghost predicate Holds(table: OpTable, sections: seq<Section>, last: nat, m: Image)
    decreases |sections|
  {
    if sections == [] then Skips(m, last, USER)
    else if sections[0].rank == USER then Holds(table, sections[1..], last, m)
    else
      var rank := sections[0].rank;
      && last < rank && Skips(m, last, rank) && IsContent(table, rank, sections[0].payload, m)
      && Holds(table, sections[1..], rank, m)
  }

  /** The user sections, which may stand anywhere: a name, and data up to the end. */
  ghost predicate HoldsUsers(sections: seq<Section>, users: seq<UserSection>)
    decreases |sections|
  {
    if sections == [] then users == []
    else if sections[0].rank != USER then HoldsUsers(sections[1..], users)
    else
      && users != [] && IsBytes(sections[0].payload, users[0].name, users[0].data)
      && HoldsUsers(sections[1..], users[1..])
  }

  /** The bytes are a module in these sections. */
  ghost predicate IsModule(table: OpTable, s: seq<Byte>, sections: seq<Section>, m: Image) {
    && |s| >= 8 && s[..8] == [0x00, 0x61, 0x73, 0x6d, 0x01, 0x00, 0x00, 0x00]
    && IsSections(s[8..], sections) && Holds(table, sections, 0, m) && HoldsUsers(sections, m.users)
  }
}
