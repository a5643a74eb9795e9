/** Function bodies in the binary format: the locals as runs of equal types, the operators with their
    immediates, and the branch tables, which the operators of the intermediate representation refer
    to by index and the binary format holds in place. */
module BinaryBody {
  import opened Wrappers
  import opened IR
  import opened Varints
  import opened BinaryFields

  // ----- local sets -----

  datatype LocalRun = LocalRun(num: nat, t: ValueType)

  function Repeat(n: nat, t: ValueType): (r: seq<ValueType>)
    ensures |r| == n && forall i :: 0 <= i < n ==> r[i] == t
  {
    seq(n, _ => t)
  }

  function Expand(sets: seq<LocalRun>): seq<ValueType> {
    if sets == [] then [] else Repeat(sets[0].num, sets[0].t) + Expand(sets[1..])
  }

  /** The locals without those of type `any`, which the writer uses to mark an unused set. */
  function Named(locals: seq<ValueType>): (r: seq<ValueType>)
    ensures AnyType !in locals ==> r == locals
    ensures |r| <= |locals|
  {
    if locals == [] then []
    else if locals[0].AnyType? then Named(locals[1..])
    else [locals[0]] + Named(locals[1..])
  }

  function Open(t: ValueType, num: nat): seq<LocalRun> {
    if t.AnyType? then [] else [LocalRun(num, t)]
  }

  /** The sets made of the remaining locals, the last set so far being still open. */
  function RunsFrom(locals: seq<ValueType>, t: ValueType, num: nat): seq<LocalRun> {
    if locals == [] then Open(t, num)
    else if locals[0] == t then RunsFrom(locals[1..], t, num + 1)
    else Open(t, num) + RunsFrom(locals[1..], locals[0], 1)
  }

  function Runs(locals: seq<ValueType>): seq<LocalRun> {
    RunsFrom(locals, AnyType, 0)
  }

  /** The locals of an open set. */
  function Pending(t: ValueType, num: nat): seq<ValueType> {
    if t.AnyType? then [] else Repeat(num, t)
  }

  lemma ExpandOpen(t: ValueType, num: nat, later: seq<LocalRun>)
    ensures Expand(Open(t, num) + later) == Pending(t, num) + Expand(later)
  {
    if t.AnyType? {
      assert Open(t, num) + later == later;
    } else {
      assert (Open(t, num) + later)[1..] == later;
    }
  }

  lemma PendingGrows(t: ValueType, num: nat, locals: seq<ValueType>)
    requires |locals| > 0 && locals[0] == t
    ensures Pending(t, num + 1) + Named(locals[1..]) == Pending(t, num) + Named(locals)
  {
    if !t.AnyType? {
      assert Repeat(num + 1, t) == Repeat(num, t) + [t];
    }
  }

  lemma PendingStarts(locals: seq<ValueType>)
    requires |locals| > 0
    ensures Pending(locals[0], 1) + Named(locals[1..]) == Named(locals)
  {
    assert Repeat(1, locals[0]) == [locals[0]];
  }

  lemma {:induction false} RunsFromExpand(locals: seq<ValueType>, t: ValueType, num: nat)
    ensures Expand(RunsFrom(locals, t, num)) == Pending(t, num) + Named(locals)
  {
    hide Expand, Open, Pending, Named;
    if locals == [] {
      ExpandOpen(t, num, []);
      assert Open(t, num) + [] == Open(t, num);
      ExpandNothing();
    } else if locals[0] == t {
      RunsFromExpand(locals[1..], t, num + 1);
      PendingGrows(t, num, locals);
    } else {
      RunsFromExpand(locals[1..], locals[0], 1);
      ExpandOpen(t, num, RunsFrom(locals[1..], locals[0], 1));
      PendingStarts(locals);
    }
  }

  lemma ExpandNothing()
    ensures Expand([]) == []
  {
  }

  /** No two neighbouring sets could be one. */
  ghost predicate Maximal(sets: seq<LocalRun>) {
    && (forall i :: 0 <= i < |sets| ==> sets[i].num > 0)
    && forall i, j :: 0 <= i && j == i + 1 && j < |sets| ==> sets[i].t != sets[j].t
  }

  lemma {:induction false} RunsFromMaximal(locals: seq<ValueType>, t: ValueType, num: nat)
    requires AnyType !in locals && (t.AnyType? || num > 0)
    ensures Maximal(RunsFrom(locals, t, num))
    ensures !t.AnyType? ==> |RunsFrom(locals, t, num)| > 0 && RunsFrom(locals, t, num)[0].t == t
  {
    if locals == [] {
    } else if locals[0] == t {
      RunsFromMaximal(locals[1..], t, num + 1);
    } else {
      RunsFromMaximal(locals[1..], locals[0], 1);
      assert locals[0] in locals;
    }
  }

  /** The runs expand to the locals, and are maximal. */
  lemma RunsExact(locals: seq<ValueType>)
    ensures Expand(Runs(locals)) == Named(locals)
    ensures AnyType !in locals ==> Expand(Runs(locals)) == locals && Maximal(Runs(locals))
  {
    RunsFromExpand(locals, AnyType, 0);
    assert [] + Named(locals) == Named(locals);
    if AnyType !in locals {
      RunsFromMaximal(locals, AnyType, 0);
    }
  }

  lemma {:induction false} RunsOfRepeat(n: nat, t: ValueType, rest: seq<ValueType>, num: nat)
    ensures RunsFrom(Repeat(n, t) + rest, t, num) == RunsFrom(rest, t, num + n)
    decreases n
  {
    if n == 0 {
      assert Repeat(0, t) + rest == rest;
    } else {
      RunsOfRepeat(n - 1, t, rest, num + 1);
      assert (Repeat(n, t) + rest)[1..] == Repeat(n - 1, t) + rest;
    }
  }

  lemma {:induction false} RunsOfExpand(sets: seq<LocalRun>, t: ValueType, num: nat)
    requires Maximal(sets) && (sets != [] ==> sets[0].t != t) && forall i :: 0 <= i < |sets| ==> !sets[i].t.AnyType?
    ensures RunsFrom(Expand(sets), t, num) == Open(t, num) + sets
    decreases |sets|
  {
    if sets == [] {
      assert Open(t, num) + [] == Open(t, num);
    } else {
      var first, others := sets[0], sets[1..];
      ExpandFirst(sets);
      RunsOfRepeat(first.num - 1, first.t, Expand(others), 1);
      RunsOfExpand(others, first.t, first.num);
      assert [first] + others == sets;
    }
  }

  lemma ExpandFirst(sets: seq<LocalRun>)
    requires sets != [] && sets[0].num > 0
    ensures var locals := Expand(sets);
            locals != [] && locals[0] == sets[0].t && locals[1..] == Repeat(sets[0].num - 1, sets[0].t) + Expand(sets[1..])
  {
  }

  /** There is no other list of maximal runs that expands to the same locals. */
  lemma RunsUnique(sets: seq<LocalRun>)
    requires Maximal(sets) && forall i :: 0 <= i < |sets| ==> !sets[i].t.AnyType?
    ensures Runs(Expand(sets)) == sets
  {
    RunsOfExpand(sets, AnyType, 0);
  }

  lemma {:induction false} RunsLength(locals: seq<ValueType>, t: ValueType, num: nat)
    ensures |RunsFrom(locals, t, num)| <= |locals| + 1
    ensures t.AnyType? ==> |RunsFrom(locals, t, num)| <= |locals|
  {
    if locals != [] {
      RunsLength(locals[1..], if locals[0] == t then t else locals[0], if locals[0] == t then num + 1 else 1);
    }
  }

  /** Converts the local types into runs, in one pass with an open set at the end. */
  method EncodeLocalSets(locals: seq<ValueType>) returns (sets: seq<LocalRun>)
    ensures sets == Runs(locals)
  {
    var t, num := AnyType, 0;
    sets := [];
    for i := 0 to |locals|
      invariant sets + RunsFrom(locals[i..], t, num) == Runs(locals)
    {
      assert locals[i..][0] == locals[i] && locals[i..][1..] == locals[i + 1..];
      if t != locals[i] {
        ghost var later := RunsFrom(locals[i + 1..], locals[i], 1);
        assert sets + (Open(t, num) + later) == (sets + Open(t, num)) + later;
        assert t.AnyType? ==> sets + Open(t, num) == sets;
        if t != AnyType {
          sets := sets + [LocalRun(num, t)];
        }
        t, num := locals[i], 0;
      }
      num := num + 1;
    }
    if t != AnyType {
      sets := sets + [LocalRun(num, t)];
    }
  }

  // ----- reading and writing the local sets -----

  const SET_FIELDS := [U32Field, TypeField]

  function WriteSets(sets: seq<LocalRun>): Option<seq<Byte>> {
    if sets == [] then Some([])
    else
      var first :- WriteFields(SET_FIELDS, [Number(sets[0].num), OfType(sets[0].t)]);
      var others :- WriteSets(sets[1..]);
      Some(first + others)
  }

  /** One set: its count and its type. */
  function ReadSet(s: seq<Byte>): Option<(LocalRun, seq<Byte>)> {
    var r :- ReadFields(SET_FIELDS, s);
    if |r.0| == 2 && r.0[0].Number? && r.0[0].n >= 0 && r.0[1].OfType?
      then Some((LocalRun(r.0[0].n, r.0[1].t), r.1)) else None
  }

  /** Unpacks `n` sets after the locals so far; too many locals are an error. */
  function ReadLocals(n: nat, s: seq<Byte>, locals: seq<ValueType>, maxLocals: nat): Option<(seq<ValueType>,
      seq<Byte>)> {
    if n == 0 then Some((locals, s))
    else
      var r :- ReadSet(s);
      if |locals| + r.0.num >= maxLocals then None
      else ReadLocals(n - 1, r.1, locals + Repeat(r.0.num, r.0.t), maxLocals)
  }

  lemma SetBack(l: LocalRun, rest: seq<Byte>)
    requires WriteFields(SET_FIELDS, [Number(l.num), OfType(l.t)]).Some?
    ensures ReadSet(WriteFields(SET_FIELDS, [Number(l.num), OfType(l.t)]).value + rest) == Some((l, rest))
  {
    hide WriteFields, ReadFields;
    var vs := [Number(l.num), OfType(l.t)];
    FieldsBack(SET_FIELDS, vs, rest);
    assert Canonicals(SET_FIELDS, vs) == vs;
  }

  /** Reading the written sets gives their expansion, unless the locals reach the limit. */
  lemma {:induction false} SetsBack(sets: seq<LocalRun>, rest: seq<Byte>, locals: seq<ValueType>, maxLocals: nat)
    requires WriteSets(sets).Some?
    requires forall i :: 0 <= i < |sets| ==> sets[i].num > 0
    ensures ReadLocals(|sets|, WriteSets(sets).value + rest, locals, maxLocals)
         == if sets == [] || |locals| + |Expand(sets)| < maxLocals then Some((locals + Expand(sets), rest)) else None
  {
    hide WriteFields, ReadSet;
    if sets == [] {
      assert [] + rest == rest && locals + [] == locals;
    } else {
      var first := WriteFields(SET_FIELDS, [Number(sets[0].num), OfType(sets[0].t)]).value;
      var others := WriteSets(sets[1..]).value;
      assert first + others + rest == first + (others + rest);
      SetBack(sets[0], others + rest);
      var more := Repeat(sets[0].num, sets[0].t);
      assert locals + more + Expand(sets[1..]) == locals + Expand(sets);
      if |locals| + sets[0].num < maxLocals {
        SetsBack(sets[1..], rest, locals + more, maxLocals);
        assert sets[1..] == [] ==> Expand(sets[1..]) == [];
      }
    }
  }

  // ----- operators -----

  /** The classes of immediate. */
  datatype ImmClass =
    | NoImm | ControlStructureImm | SelectImm | BranchImm | BranchTableImm
    | LiteralI32Imm | LiteralI64Imm | LiteralF32Imm | LiteralF64Imm | LiteralV128Imm
    | VariableImm | FunctionImm | CallIndirectImm | LoadOrStoreImm | AtomicLoadOrStoreImm
    | MemoryImm | MemoryCopyImm | TableImm | TableCopyImm | LaneIndexImm | ShuffleImm
    | ExceptionTypeImm | RethrowImm
    | DataSegmentAndMemImm | DataSegmentImm | ElemSegmentAndTableImm | ElemSegmentImm

  /** The fields of an immediate in the order they are written. Those of a branch table follow the
      table itself; those of `select` follow a count of one. */
  function Fields(c: ImmClass): seq<Field> {
    match c
    case NoImm => []
    case ControlStructureImm => [BlockField]
    case SelectImm => [TypeField]
    case BranchImm | BranchTableImm => [U32Field]
    case LiteralI32Imm => [S32Field]
    case LiteralI64Imm => [S64Field]
    case LiteralF32Imm => Octets(4)
    case LiteralF64Imm => Octets(8)
    case LiteralV128Imm => Octets(16)
    case VariableImm | FunctionImm | TableImm | ExceptionTypeImm | RethrowImm => [U32Field]
    case CallIndirectImm | TableCopyImm => [U32Field, U32Field]
    case LoadOrStoreImm | AtomicLoadOrStoreImm => [U7Field, U32Field]
    case MemoryImm => [ZeroField]
    case MemoryCopyImm => [ZeroField, ZeroField]
    case LaneIndexImm => [U7Field]
    case ShuffleImm => seq(16, _ => U7Field)
    case DataSegmentAndMemImm | ElemSegmentAndTableImm => [U32Field, U32Field]
    case DataSegmentImm | ElemSegmentImm => [U32Field]
  }

  function Octets(n: nat): seq<Field> {
    seq(n, _ => OctetField)
  }

  /** The operators that may only occur after a DataCount section. */
  predicate NeedsCount(c: ImmClass) {
    c.DataSegmentAndMemImm? || c.DataSegmentImm?
  }

  /** The data segment of the operator is one of those the DataCount section announced. */
  predicate SegmentKnown(c: ImmClass, values: seq<Value>, count: Option<nat>) {
    NeedsCount(c) ==> count.Some? && values != [] && values[0].Number? && 0 <= values[0].n < count.value
  }

  lemma SegmentKept(c: ImmClass, values: seq<Value>, count: Option<nat>)
    requires HaveKinds(Fields(c), values)
    ensures SegmentKnown(c, Canonicals(Fields(c), values), count) <==> SegmentKnown(c, values, count)
  {
  }

  const MAX_SINGLE_BYTE_OPCODE := 0xdf
  const SELECT := 0x1c
  const UNTYPED_SELECT := 0x1b

  /** Every opcode but `select` with the class of its immediate. */
  type OpTable = map<nat, ImmClass>

  /** `select` and its untyped form are handled apart, only `select` has its immediate, and no prefix
      of a two-byte opcode is an opcode. */
  predicate TableOk(table: OpTable) {
    && SELECT !in table && UNTYPED_SELECT !in table
    && forall o :: o in table ==> o < 0x1_0000 && Distinct(o) && table[o] != SelectImm
  }

  /** An operator with the values of its immediate, and for `br_table` the index of its table. */
  datatype Operator = Operator(opcode: nat, values: seq<Value>, branchTable: nat)

  function ClassOf(table: OpTable, opcode: nat): Option<ImmClass> {
    if opcode == SELECT then Some(SelectImm) else if opcode in table then Some(table[opcode]) else None
  }

  /** The operator is in the table and its immediate has the fields of its class. */
  predicate OperatorOk(table: OpTable, op: Operator, numTables: nat) {
    match ClassOf(table, op.opcode)
    case None => false
    case Some(c) =>
      HaveKinds(Fields(c), op.values) && if c.BranchTableImm? then op.branchTable < numTables else op.branchTable == 0
  }

  // opcodes

  function WriteOpcode(opcode: nat): seq<Byte>
    requires opcode < 0x1_0000
  {
    if opcode <= MAX_SINGLE_BYTE_OPCODE then [opcode] else [opcode / 256] + Encode(false, opcode % 256)
  }

  function ReadOpcode(s: seq<Byte>): (r: Option<(nat, seq<Byte>)>)
    ensures r.Some? ==> |r.value.1| < |s|
  {
    if s == [] then None
    else if s[0] <= MAX_SINGLE_BYTE_OPCODE then Some((s[0], s[1..]))
    else
      var r :- ReadRanged(s[1..], false, 8, 8, 0, 255);
      Some((s[0] * 256 + r.0, r.1))
  }

  /** A two-byte opcode is read back exactly when its prefix is not itself an opcode. */
  predicate Distinct(opcode: nat) {
    opcode <= MAX_SINGLE_BYTE_OPCODE || opcode / 256 > MAX_SINGLE_BYTE_OPCODE
  }

  lemma OpcodeBack(opcode: nat, rest: seq<Byte>)
    requires opcode < 0x1_0000
    ensures ReadOpcode(WriteOpcode(opcode) + rest) == Some((opcode, rest)) <==> Distinct(opcode)
  {
    hide ReadRanged, Encode;
    if opcode <= MAX_SINGLE_BYTE_OPCODE {
      assert ([opcode] + rest)[1..] == rest;
    } else {
      var low := Encode(false, opcode % 256);
      assert ([opcode / 256] + low + rest)[1..] == low + rest;
      RangedBack(false, 8, 8, opcode % 256, 0, 255, rest);
      assert opcode / 256 * 256 + opcode % 256 == opcode;
    }
  }

  // branch tables

  function WriteDepths(depths: seq<nat>): Option<seq<Byte>> {
    if depths == [] then Some([])
    else
      var first :- WriteU32(depths[0]);
      var others :- WriteDepths(depths[1..]);
      Some(first + others)
  }

  function ReadDepths(n: nat, s: seq<Byte>): (r: Option<(seq<nat>, seq<Byte>)>)
    ensures r.Some? ==> |r.value.0| == n && |r.value.1| <= |s|
  {
    if n == 0 then Some(([], s))
    else
      var first :- ReadU32(s);
      var others :- ReadDepths(n - 1, first.1);
      Some(([first.0] + others.0, others.1))
  }

  lemma {:induction false} DepthsBack(depths: seq<nat>, rest: seq<Byte>)
    requires WriteDepths(depths).Some?
    ensures ReadDepths(|depths|, WriteDepths(depths).value + rest) == Some((depths, rest))
  {
    hide ReadU32, WriteU32;
    if depths == [] {
      assert [] + rest == rest;
    } else {
      var first, others := WriteU32(depths[0]).value, WriteDepths(depths[1..]).value;
      assert first + others + rest == first + (others + rest);
      U32Back(depths[0], others + rest);
      DepthsBack(depths[1..], rest);
      assert depths == [depths[0]] + depths[1..];
    }
  }

  function WriteArray(depths: seq<nat>): Option<seq<Byte>> {
    var n :- WriteU32(|depths|);
    var all :- WriteDepths(depths);
    Some(n + all)
  }

  function ReadArray(s: seq<Byte>): (r: Option<(seq<nat>, seq<Byte>)>)
    ensures r.Some? ==> |r.value.1| <= |s|
  {
    var n :- ReadU32(s);
    ReadDepths(n.0, n.1)
  }

  lemma ArrayBack(depths: seq<nat>, rest: seq<Byte>)
    requires WriteArray(depths).Some?
    ensures ReadArray(WriteArray(depths).value + rest) == Some((depths, rest))
  {
    hide ReadU32, WriteU32, ReadDepths, WriteDepths;
    var n, all := WriteU32(|depths|).value, WriteDepths(depths).value;
    assert n + all + rest == n + (all + rest);
    U32Back(|depths|, all + rest);
    DepthsBack(depths, rest);
  }

  // immediates

  /** The part of an immediate before its fields: a branch table, or the count of a typed select. */
  function WriteLead(c: ImmClass, op: Operator, tables: seq<seq<nat>>): Option<seq<Byte>>
    requires c.BranchTableImm? ==> op.branchTable < |tables|
  {
    if c.BranchTableImm? then WriteArray(tables[op.branchTable])
    else if c.SelectImm? then WriteU32(1)
    else Some([])
  }

  /** The branch tables after the lead of an immediate was read. */
  function ReadLead(c: ImmClass, s: seq<Byte>, tables: seq<seq<nat>>): (r: Option<(seq<seq<nat>>, seq<Byte>)>)
    ensures r.Some? ==> |r.value.1| <= |s|
  {
    if c.BranchTableImm? then
      var r :- ReadArray(s);
      Some((tables + [r.0], r.1))
    else if c.SelectImm? then
      var r :- ReadU32(s);
      if r.0 == 1 then Some((tables, r.1)) else None
    else Some((tables, s))
  }

  predicate IsUntypedSelect(op: Operator) {
    op.opcode == SELECT && op.values == [OfType(AnyType)]
  }

  function WriteOperator(table: OpTable, op: Operator, tables: seq<seq<nat>>): Option<seq<Byte>>
    requires TableOk(table) && OperatorOk(table, op, |tables|)
  {
    if IsUntypedSelect(op) then Some(WriteOpcode(UNTYPED_SELECT))
    else
      var c := ClassOf(table, op.opcode).value;
      var lead :- WriteLead(c, op, tables);
      var fields :- WriteFields(Fields(c), op.values);
      Some(WriteOpcode(op.opcode) + (lead + fields))
  }

  /** One operator, with the branch tables after it and the rest of the stream. An operator on a data
      segment needs a DataCount section that announced the segment: the reader tests that there was
      one, and the validator, which gets every operator as soon as it was read, tests the index. */
  function ReadOperator(table: OpTable, s: seq<Byte>, tables: seq<seq<nat>>, count: Option<nat>)
    : (r: Option<(Operator, seq<seq<nat>>, seq<Byte>)>)
    ensures r.Some? ==> |r.value.2| < |s|
  {
    var o :- ReadOpcode(s);
    if o.0 == UNTYPED_SELECT then Some((Operator(SELECT, [OfType(AnyType)], 0), tables, o.1))
    else
      var c :- ClassOf(table, o.0);
      if NeedsCount(c) && count.None? then None
      else
        var lead :- ReadLead(c, o.1, tables);
        var fields :- ReadFields(Fields(c), lead.1);
        if !SegmentKnown(c, fields.0, count) then None
        else Some((Operator(o.0, fields.0, if c.BranchTableImm? then |tables| else 0), lead.0, fields.1))
  }

  // ----- one operator back -----

  /** The operator as it is read back: its branch table is the next one. */
  function Moved(c: ImmClass, op: Operator, next: nat): Operator
    requires |Fields(c)| == |op.values|
  {
    Operator(op.opcode, Canonicals(Fields(c), op.values), if c.BranchTableImm? then next else 0)
  }

  function Appended(c: ImmClass, op: Operator, tables: seq<seq<nat>>, done: seq<seq<nat>>): seq<seq<nat>>
    requires c.BranchTableImm? ==> op.branchTable < |tables|
  {
    if c.BranchTableImm? then done + [tables[op.branchTable]] else done
  }

  lemma LeadBack(c: ImmClass, op: Operator, tables: seq<seq<nat>>, done: seq<seq<nat>>, rest: seq<Byte>)
    requires c.BranchTableImm? ==> op.branchTable < |tables|
    requires WriteLead(c, op, tables).Some?
    ensures ReadLead(c, WriteLead(c, op, tables).value + rest, done) == Some((Appended(c, op, tables, done), rest))
  {
    hide ReadArray, WriteArray, ReadU32, WriteU32;
    if c.BranchTableImm? {
      ArrayBack(tables[op.branchTable], rest);
    } else if c.SelectImm? {
      U32Back(1, rest);
    } else {
      assert [] + rest == rest;
    }
  }

  lemma UntypedBack(table: OpTable, op: Operator, done: seq<seq<nat>>, count: Option<nat>, rest: seq<Byte>)
    requires TableOk(table) && IsUntypedSelect(op) && op.branchTable == 0
    ensures ReadOperator(table, WriteOpcode(UNTYPED_SELECT) + rest, done, count) == Some((op, done, rest))
    ensures Moved(SelectImm, op, |done|) == op
  {
    OpcodeBack(UNTYPED_SELECT, rest);
    assert Canonicals(Fields(SelectImm), op.values) == op.values;
  }

  lemma OperatorBack(table: OpTable, op: Operator, tables: seq<seq<nat>>, done: seq<seq<nat>>, count: Option<nat>,
      rest: seq<Byte>)
    requires TableOk(table) && OperatorOk(table, op, |tables|) && WriteOperator(table, op, tables).Some?
    ensures var c := ClassOf(table, op.opcode).value;
            ReadOperator(table, WriteOperator(table, op, tables).value + rest, done, count)
            == if SegmentKnown(c, op.values, count)
               then Some((Moved(c, op, |done|), Appended(c, op, tables, done), rest)) else None
  {
    hide ReadOpcode, WriteOpcode, ReadLead, WriteLead, ReadFields, WriteFields, Fields;
    var c := ClassOf(table, op.opcode).value;
    if IsUntypedSelect(op) {
      UntypedBack(table, op, done, count, rest);
    } else {
      var code, lead := WriteOpcode(op.opcode), WriteLead(c, op, tables).value;
      var fields := WriteFields(Fields(c), op.values).value;
      assert code + (lead + fields) + rest == code + (lead + (fields + rest));
      OpcodeBack(op.opcode, lead + (fields + rest));
      LeadBack(c, op, tables, done, fields + rest);
      FieldsBack(Fields(c), op.values, rest);
      SegmentKept(c, op.values, count);
    }
  }

  // ----- the code -----

  predicate AllOperatorsOk(table: OpTable, ops: seq<Operator>, numTables: nat) {
    forall i :: 0 <= i < |ops| ==> OperatorOk(table, ops[i], numTables)
  }

  function WriteOperators(table: OpTable, ops: seq<Operator>, tables: seq<seq<nat>>): Option<seq<Byte>>
    requires TableOk(table) && AllOperatorsOk(table, ops, |tables|)
  {
    if ops == [] then Some([])
    else
      var first :- WriteOperator(table, ops[0], tables);
      var others :- WriteOperators(table, ops[1..], tables);
      Some(first + others)
  }

  /** Operators up to the end of the stream. */
  function ReadOperators(table: OpTable, s: seq<Byte>, tables: seq<seq<nat>>, count: Option<nat>)
    : Option<(seq<Operator>, seq<seq<nat>>)>
    decreases |s|
  {
    if s == [] then Some(([], tables))
    else
      var first :- ReadOperator(table, s, tables, count);
      var others :- ReadOperators(table, first.2, first.1, count);
      Some(([first.0] + others.0, others.1))
  }

  /** The operators with their branch tables numbered in order of use, and those tables. */
  function Renumbered(table: OpTable, ops: seq<Operator>, tables: seq<seq<nat>>, done: seq<seq<nat>>)
    : (seq<Operator>, seq<seq<nat>>)
    requires AllOperatorsOk(table, ops, |tables|)
  {
    if ops == [] then ([], done)
    else
      var c := ClassOf(table, ops[0].opcode).value;
      var others := Renumbered(table, ops[1..], tables, Appended(c, ops[0], tables, done));
      ([Moved(c, ops[0], |done|)] + others.0, others.1)
  }

  /** All operators on data segments find theirs. */
  predicate SegmentsKnown(table: OpTable, ops: seq<Operator>, count: Option<nat>) {
    forall i :: 0 <= i < |ops| && ClassOf(table, ops[i].opcode).Some? ==>
      SegmentKnown(ClassOf(table, ops[i].opcode).value, ops[i].values, count)
  }

  lemma SegmentsKnownSplit(table: OpTable, ops: seq<Operator>, count: Option<nat>)
    requires |ops| > 0 && ClassOf(table, ops[0].opcode).Some?
    ensures SegmentsKnown(table, ops, count) <==>
              SegmentKnown(ClassOf(table, ops[0].opcode).value, ops[0].values, count) && SegmentsKnown(table, ops[1..], count)
  {
    hide SegmentKnown;
    assert forall i :: 0 < i < |ops| ==> ops[i] == ops[1..][i - 1];
  }

  lemma {:induction false} OperatorsBack(table: OpTable, ops: seq<Operator>, tables: seq<seq<nat>>, done: seq<seq<nat>>,
      count: Option<nat>)
    requires TableOk(table) && AllOperatorsOk(table, ops, |tables|) && WriteOperators(table, ops, tables).Some?
    ensures ReadOperators(table, WriteOperators(table, ops, tables).value, done, count)
         == if SegmentsKnown(table, ops, count) then Some(Renumbered(table, ops, tables, done)) else None
  {
    hide ReadOperator, WriteOperator, SegmentsKnown, TableOk, Moved, SegmentKnown;
    if ops == [] {
      NoneUse(table, count);
    } else {
      assert OperatorOk(table, ops[0], |tables|);
      var first, others := WriteOperator(table, ops[0], tables).value, WriteOperators(table, ops[1..], tables).value;
      OperatorBack(table, ops[0], tables, done, count, others);
      SegmentsKnownSplit(table, ops, count);
      var c := ClassOf(table, ops[0].opcode).value;
      OperatorsBack(table, ops[1..], tables, Appended(c, ops[0], tables, done), count);
      WrittenSomething(table, ops[0], tables);
    }
  }

  lemma NoneUse(table: OpTable, count: Option<nat>)
    ensures SegmentsKnown(table, [], count)
  {
  }

  lemma WrittenSomething(table: OpTable, op: Operator, tables: seq<seq<nat>>)
    requires TableOk(table) && OperatorOk(table, op, |tables|) && WriteOperator(table, op, tables).Some?
    ensures WriteOperator(table, op, tables).value != []
  {
  }

  /** Renumbering changes no operator and no target: every `br_table` still finds the same table. */
  lemma {:induction false} SameTargets(table: OpTable, ops: seq<Operator>, tables: seq<seq<nat>>, done: seq<seq<nat>>,
      i: nat)
    requires AllOperatorsOk(table, ops, |tables|) && i < |ops|
    ensures var (ops', tables') := Renumbered(table, ops, tables, done);
            var c := ClassOf(table, ops[i].opcode).value;
            && |ops'| == |ops| && done <= tables'
            && ops'[i].opcode == ops[i].opcode && ops'[i].values == Canonicals(Fields(c), ops[i].values)
            && (c.BranchTableImm? ==> ops'[i].branchTable < |tables'| && tables'[ops'[i].branchTable] == tables[ops[i].branchTable])
  {
    hide Fields;
    var c := ClassOf(table, ops[0].opcode).value;
    var next := Appended(c, ops[0], tables, done);
    if |ops| == 1 {
      assert Renumbered(table, ops[1..], tables, next) == ([], next);
    } else {
      SameTargets(table, ops[1..], tables, next, if i == 0 then 0 else i - 1);
      assert i > 0 ==> ops[1..][i - 1] == ops[i];
    }
  }
}
