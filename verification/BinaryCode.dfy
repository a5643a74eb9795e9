/** Whole function bodies: writing and then reading gives the body back, up to the numbering of its
    branch tables, exactly when the reader's limits are met and its validation accepts the body; and
    what reading leaves in a body. */
module BinaryCode {
  import opened Wrappers
  import opened IR
  import opened Varints
  import opened BinaryFields
  import opened BinaryBody

  datatype Body = Body(locals: seq<ValueType>, ops: seq<Operator>, tables: seq<seq<nat>>)

  predicate BodyOk(table: OpTable, body: Body) {
    TableOk(table) && AllOperatorsOk(table, body.ops, |body.tables|)
  }

  function WriteContent(table: OpTable, body: Body): Option<seq<Byte>>
    requires BodyOk(table, body)
  {
    var n :- WriteU32(|Runs(body.locals)|);
    var sets :- WriteSets(Runs(body.locals));
    var code :- WriteOperators(table, body.ops, body.tables);
    Some(n + (sets + code))
  }

  /** The validator's verdict on a body. Whatever it tests besides the indices of data segments. */
  type Acceptor = Body -> bool

  function ReadContent(table: OpTable, s: seq<Byte>, maxLocals: nat, count: Option<nat>,
      accepts: Acceptor): Option<Body> {
    var n :- ReadU32(s);
    var l :- ReadLocals(n.0, n.1, [], maxLocals);
    var c :- ReadOperators(table, l.1, [], count);
    if accepts(Body(l.0, c.0, c.1)) then Some(Body(l.0, c.0, c.1)) else None
  }

  // ----- written, then read -----

  lemma {:induction false} RunsPositive(locals: seq<ValueType>, t: ValueType, num: nat)
    requires t.AnyType? || num > 0
    ensures forall i :: 0 <= i < |RunsFrom(locals, t, num)| ==> RunsFrom(locals, t, num)[i].num > 0
  {
    if locals != [] {
      RunsPositive(locals[1..], locals[0], if locals[0] == t then num + 1 else 1);
    }
  }

  lemma SetsPresent(locals: seq<ValueType>)
    ensures Runs(locals) == [] <==> Named(locals) == []
  {
    RunsPositive(locals, AnyType, 0);
    RunsExact(locals);
  }

  predicate WithinLocals(locals: seq<ValueType>, maxLocals: nat) {
    locals == [] || |locals| < maxLocals
  }

  /** The body as it is read back. */
  function Normal(table: OpTable, body: Body): Body
    requires AllOperatorsOk(table, body.ops, |body.tables|)
  {
    var (ops, tables) := Renumbered(table, body.ops, body.tables, []);
    Body(Named(body.locals), ops, tables)
  }

  lemma LocalsBack(locals: seq<ValueType>, rest: seq<Byte>, maxLocals: nat)
    requires WriteSets(Runs(locals)).Some?
    ensures ReadLocals(|Runs(locals)|, WriteSets(Runs(locals)).value + rest, [], maxLocals)
         == if WithinLocals(Named(locals), maxLocals) then Some((Named(locals), rest)) else None
  {
    hide WriteSets, ReadLocals, Named;
    RunsPositive(locals, AnyType, 0);
    RunsExact(locals);
    SetsPresent(locals);
    SetsBack(Runs(locals), rest, [], maxLocals);
    assert [] + Named(locals) == Named(locals);
  }

  lemma ContentBack(table: OpTable, body: Body, maxLocals: nat, count: Option<nat>, accepts: Acceptor)
    requires BodyOk(table, body) && WriteContent(table, body).Some?
    ensures ReadContent(table, WriteContent(table, body).value, maxLocals, count, accepts)
         == if && WithinLocals(Named(body.locals), maxLocals) && SegmentsKnown(table, body.ops, count)
               && accepts(Normal(table, body))
            then Some(Normal(table, body)) else None
  {
    hide WriteU32, ReadU32, WriteSets, ReadLocals, WriteOperators, ReadOperators, Runs, Named, SegmentsKnown,
         Renumbered,
         TableOk;
    var n, sets := WriteU32(|Runs(body.locals)|).value, WriteSets(Runs(body.locals)).value;
    var code := WriteOperators(table, body.ops, body.tables).value;
    U32Back(|Runs(body.locals)|, sets + code);
    LocalsBack(body.locals, code, maxLocals);
    OperatorsBack(table, body.ops, body.tables, [], count);
  }

  // ----- read, then written -----

  lemma FieldRead(f: Field, s: seq<Byte>)
    requires ReadField(f, s).Some?
    ensures var v := ReadField(f, s).value.0;
            HasKind(f, v) && WriteField(f, v).Some? && Canonical(f, v) == v
  {
    hide ReadRanged;
  }

  lemma {:induction false} FieldsRead(fs: seq<Field>, s: seq<Byte>)
    requires ReadFields(fs, s).Some?
    ensures var vs := ReadFields(fs, s).value.0;
            HaveKinds(fs, vs) && WriteFields(fs, vs).Some? && Canonicals(fs, vs) == vs
  {
    hide ReadField, WriteField;
    if fs != [] {
      FieldRead(fs[0], s);
      var first := ReadField(fs[0], s).value;
      FieldsRead(fs[1..], first.1);
      FieldsJoin(fs, first.0, ReadFields(fs[1..], first.1).value.0);
    }
  }

  lemma FieldsJoin(fs: seq<Field>, v: Value, vs: seq<Value>)
    requires |fs| > 0 && HasKind(fs[0], v) && WriteField(fs[0], v).Some? && Canonical(fs[0], v) == v
    requires HaveKinds(fs[1..], vs) && WriteFields(fs[1..], vs).Some? && Canonicals(fs[1..], vs) == vs
    ensures HaveKinds(fs, [v] + vs) && WriteFields(fs, [v] + vs).Some? && Canonicals(fs, [v] + vs) == [v] + vs
  {
    hide WriteField;
    assert ([v] + vs)[1..] == vs;
    assert forall i :: 0 < i < |fs| ==> fs[i] == fs[1..][i - 1];
    forall i | 0 <= i < |fs| ensures Canonical(fs[i], ([v] + vs)[i]) == ([v] + vs)[i] {
      if i > 0 {
        assert Canonicals(fs[1..], vs)[i - 1] == Canonical(fs[1..][i - 1], vs[i - 1]);
      }
    }
  }

  lemma {:induction false} DepthsRead(n: nat, s: seq<Byte>)
    requires ReadDepths(n, s).Some?
    ensures WriteDepths(ReadDepths(n, s).value.0).Some?
  {
    hide ReadU32;
    if n > 0 {
      var first := ReadU32(s).value;
      DepthsRead(n - 1, first.1);
      var others := ReadDepths(n - 1, first.1).value.0;
      assert ([first.0] + others)[1..] == others;
    }
  }

  /** What one operator was read as can be written, among any tables that extend those read so far. */
  ghost predicate Stable(table: OpTable, op: Operator, done: seq<seq<nat>>, after: seq<seq<nat>>, all: seq<seq<nat>>,
      count: Option<nat>) {
    && OperatorOk(table, op, |all|)
    && var c := ClassOf(table, op.opcode).value;
    && Moved(c, op, |done|) == op
    && Appended(c, op, all, done) == after
    && SegmentKnown(c, op.values, count)
    && (TableOk(table) ==> WriteOperator(table, op, all).Some?)
  }

  lemma UntypedStable(table: OpTable, all: seq<seq<nat>>, done: seq<seq<nat>>, count: Option<nat>)
    ensures Stable(table, Operator(SELECT, [OfType(AnyType)], 0), done, done, all, count)
  {
    var op := Operator(SELECT, [OfType(AnyType)], 0);
    assert Canonicals(Fields(SelectImm), op.values) == op.values;
  }

  lemma LeadRead(c: ImmClass, s: seq<Byte>, done: seq<seq<nat>>)
    requires ReadLead(c, s, done).Some?
    ensures var after := ReadLead(c, s, done).value.0;
            if c.BranchTableImm? then |after| == |done| + 1 && after[..|done|] == done && WriteArray(after[|done|]).Some?
            else after == done
  {
    hide ReadU32;
    if c.BranchTableImm? {
      var n := ReadU32(s).value;
      DepthsRead(n.0, n.1);
    }
  }

  lemma OperatorRead(table: OpTable, s: seq<Byte>, done: seq<seq<nat>>, count: Option<nat>, all: seq<seq<nat>>)
    requires ReadOperator(table, s, done, count).Some?
    requires ReadOperator(table, s, done, count).value.1 <= all
    ensures var r := ReadOperator(table, s, done, count).value;
            done <= r.1 && Stable(table, r.0, done, r.1, all, count)
  {
    hide ReadOpcode, WriteOpcode, ReadLead, ReadFields, WriteFields, Fields, WriteArray;
    var o := ReadOpcode(s).value;
    if o.0 == UNTYPED_SELECT {
      UntypedStable(table, all, done, count);
    } else {
      var c := ClassOf(table, o.0).value;
      var lead := ReadLead(c, o.1, done).value;
      LeadRead(c, o.1, done);
      FieldsRead(Fields(c), lead.1);
      var op := ReadOperator(table, s, done, count).value.0;
      assert c.BranchTableImm? ==> all[|done|] == lead.0[|done|] && lead.0 == done + [lead.0[|done|]];
      OneFits();
    }
  }

  lemma OneFits()
    ensures WriteU32(1).Some?
  {
  }

  lemma {:induction false} ReadExtends(table: OpTable, s: seq<Byte>, done: seq<seq<nat>>, count: Option<nat>)
    requires ReadOperators(table, s, done, count).Some?
    ensures done <= ReadOperators(table, s, done, count).value.1
    decreases |s|
  {
    hide ReadOperator;
    if s != [] {
      var first := ReadOperator(table, s, done, count).value;
      OperatorRead(table, s, done, count, first.1);
      ReadExtends(table, first.2, first.1, count);
    }
  }

  lemma {:induction false} OperatorsRead(table: OpTable, s: seq<Byte>, done: seq<seq<nat>>, count: Option<nat>,
      ops: seq<Operator>, all: seq<seq<nat>>)
    requires TableOk(table) && ReadOperators(table, s, done, count) == Some((ops, all))
    ensures AllOperatorsOk(table, ops, |all|)
    ensures Renumbered(table, ops, all, done) == (ops, all)
    ensures WriteOperators(table, ops, all).Some?
    ensures SegmentsKnown(table, ops, count)
    decreases |s|
  {
    hide ReadOperator, WriteOperator, SegmentsKnown, TableOk, Moved, Appended, Fields;
    if s == [] {
      NoneUse(table, count);
    } else {
      var first := ReadOperator(table, s, done, count).value;
      ReadExtends(table, first.2, first.1, count);
      OperatorRead(table, s, done, count, all);
      OperatorsRead(table, first.2, first.1, count, ops[1..], all);
      assert ops == [first.0] + ops[1..];
      assert forall i :: 0 < i < |ops| ==> ops[i] == ops[1..][i - 1];
      SegmentsKnownSplit(table, ops, count);
    }
  }

  predicate Encodable(locals: seq<ValueType>) {
    forall i :: 0 <= i < |locals| ==> EncodeType(locals[i]).Some?
  }

  lemma {:induction false} LocalsRead(n: nat, s: seq<Byte>, locals: seq<ValueType>, maxLocals: nat)
    requires Encodable(locals) && ReadLocals(n, s, locals, maxLocals).Some?
    ensures var r := ReadLocals(n, s, locals, maxLocals).value.0;
            Encodable(r) && (r == locals || |r| < maxLocals)
  {
    hide ReadSet;
    if n > 0 {
      var r := ReadSet(s).value;
      SetRead(s);
      LocalsRead(n - 1, r.1, locals + Repeat(r.0.num, r.0.t), maxLocals);
    }
  }

  lemma SetRead(s: seq<Byte>)
    requires ReadSet(s).Some?
    ensures EncodeType(ReadSet(s).value.0.t).Some?
  {
    hide ReadFields, WriteFields;
    FieldsRead(SET_FIELDS, s);
    var vs := ReadFields(SET_FIELDS, s).value.0;
    assert WriteFields(SET_FIELDS, vs).Some?;
    SecondWritten(vs);
  }

  lemma SecondWritten(vs: seq<Value>)
    requires HaveKinds(SET_FIELDS, vs) && WriteFields(SET_FIELDS, vs).Some?
    ensures WriteField(TypeField, vs[1]).Some?
  {
    assert SET_FIELDS[1..][0] == TypeField && vs[1..][0] == vs[1];
    assert WriteFields(SET_FIELDS[1..], vs[1..]).Some?;
  }

  // ----- the loops over a body -----

  function OpsAfter(ops: seq<Operator>, r: Option<(seq<Operator>, seq<seq<nat>>)>): Option<(seq<Operator>,
      seq<seq<nat>>)> {
    match r
    case None => None
    case Some((others, tables)) => Some((ops + others, tables))
  }

  lemma OpsAfterStep(ops: seq<Operator>, op: Operator, r: Option<(seq<Operator>, seq<seq<nat>>)>)
    ensures OpsAfter(ops, OpsAfter([op], r)) == OpsAfter(ops + [op], r)
  {
    if r.Some? {
      assert ops + ([op] + r.value.0) == ops + [op] + r.value.0;
    }
  }

  lemma OpsAfterNone(r: Option<(seq<Operator>, seq<seq<nat>>)>)
    ensures OpsAfter([], r) == r
  {
    if r.Some? {
      assert [] + r.value.0 == r.value.0;
    }
  }

  /** Unpacks the local sets into a linear list of local types. */
  method UnpackLocals(n: nat, s: seq<Byte>, maxLocals: nat) returns (r: Option<(seq<ValueType>, seq<Byte>)>)
    ensures r == ReadLocals(n, s, [], maxLocals)
  {
    hide ReadSet;
    var locals, rest := [], s;
    for i := 0 to n
      invariant ReadLocals(n, s, [], maxLocals) == ReadLocals(n - i, rest, locals, maxLocals)
    {
      var next := ReadSet(rest);
      if next.None? || |locals| + next.value.0.num >= maxLocals {
        return None;
      }
      var l := next.value.0;
      ghost var earlier := locals;
      for j := 0 to l.num
        invariant locals == earlier + Repeat(j, l.t)
      {
        locals := locals + [l.t];
      }
      rest := next.value.1;
    }
    return Some((locals, rest));
  }

  /** Reads operators, and with them the branch tables, until the stream is empty. */
  method DecodeOperators(table: OpTable, s: seq<Byte>, count: Option<nat>)
      returns (r: Option<(seq<Operator>, seq<seq<nat>>)>)
    ensures r == ReadOperators(table, s, [], count)
  {
    hide ReadOperator;
    var ops: seq<Operator>, tables: seq<seq<nat>>, rest := [], [], s;
    OpsAfterNone(ReadOperators(table, s, [], count));
    while rest != []
      invariant ReadOperators(table, s, [], count) == OpsAfter(ops, ReadOperators(table, rest, tables, count))
      decreases |rest|
    {
      var next := ReadOperator(table, rest, tables, count);
      if next.None? {
        return None;
      }
      OpsAfterStep(ops, next.value.0, ReadOperators(table, next.value.2, next.value.1, count));
      ops, tables, rest := ops + [next.value.0], next.value.1, next.value.2;
    }
    assert ops + [] == ops;
    return Some((ops, tables));
  }

  /** Reads the body of a function from its own stream. */
  method DeserializeBody(table: OpTable, s: seq<Byte>, maxLocals: nat, count: Option<nat>, accepts: Acceptor)
    returns (r: Option<Body>)
    ensures r == ReadContent(table, s, maxLocals, count, accepts)
  {
    var n := ReadU32(s);
    if n.None? {
      return None;
    }
    var l := UnpackLocals(n.value.0, n.value.1, maxLocals);
    if l.None? {
      return None;
    }
    var c := DecodeOperators(table, l.value.1, count);
    if c.None? {
      return None;
    }
    var body := Body(l.value.0, c.value.0, c.value.1);
    return if accepts(body) then Some(body) else None;
  }

  function BytesAfter(bytes: seq<Byte>, r: Option<seq<Byte>>): Option<seq<Byte>> {
    match r
    case None => None
    case Some(others) => Some(bytes + others)
  }

  lemma BytesAfterStep(bytes: seq<Byte>, first: seq<Byte>, r: Option<seq<Byte>>)
    ensures BytesAfter(bytes, BytesAfter(first, r)) == BytesAfter(bytes + first, r)
    ensures BytesAfter([], r) == r
  {
    if r.Some? {
      assert bytes + (first + r.value) == bytes + first + r.value;
      assert [] + r.value == r.value;
    }
  }

  /** Writes the body of a function: its local sets, then its operators. */
  method SerializeBody(table: OpTable, body: Body) returns (r: Option<seq<Byte>>)
    requires BodyOk(table, body)
    ensures r == WriteContent(table, body)
  {
    hide WriteOperator, WriteFields, WriteU32, Runs;
    var sets := EncodeLocalSets(body.locals);
    var n := WriteU32(|sets|);
    if n.None? {
      return None;
    }
    var setBytes: seq<Byte> := [];
    BytesAfterStep([], [], WriteSets(sets));
    for i := 0 to |sets|
      invariant WriteSets(sets) == BytesAfter(setBytes, WriteSets(sets[i..]))
    {
      assert sets[i..][0] == sets[i] && sets[i..][1..] == sets[i + 1..];
      var next := WriteFields(SET_FIELDS, [Number(sets[i].num), OfType(sets[i].t)]);
      if next.None? {
        return None;
      }
      BytesAfterStep(setBytes, next.value, WriteSets(sets[i + 1..]));
      setBytes := setBytes + next.value;
    }
    assert setBytes + [] == setBytes;
    var code := EncodeOperators(table, body.ops, body.tables);
    if code.None? {
      return None;
    }
    return Some(n.value + (setBytes + code.value));
  }

  method EncodeOperators(table: OpTable, ops: seq<Operator>, tables: seq<seq<nat>>) returns (r: Option<seq<Byte>>)
    requires TableOk(table) && AllOperatorsOk(table, ops, |tables|)
    ensures r == WriteOperators(table, ops, tables)
  {
    hide WriteOperator, OperatorOk;
    var bytes: seq<Byte> := [];
    assert ops[0..] == ops;
    BytesAfterStep([], [], WriteOperators(table, ops, tables));
    for i := 0 to |ops|
      invariant AllOperatorsOk(table, ops[i..], |tables|)
      invariant WriteOperators(table, ops, tables) == BytesAfter(bytes, WriteOperators(table, ops[i..], tables))
    {
      assert ops[i..][0] == ops[i] && ops[i..][1..] == ops[i + 1..];
      var next := WriteOperator(table, ops[i], tables);
      if next.None? {
        return None;
      }
      BytesAfterStep(bytes, next.value, WriteOperators(table, ops[i + 1..], tables));
      bytes := bytes + next.value;
    }
    assert bytes + [] == bytes;
    return Some(bytes);
  }
}
