/** The reader of function bodies accepts exactly the encodings of the grammar that meet its checks. */
module BinaryCodeExact {
  import opened Wrappers
  import opened IR
  import opened Varints
  import opened F = BinaryFields
  import opened BinaryBody
  import opened BinaryCode
  import opened BinaryEntities
  import opened BinaryModule
  import opened BinaryGrammar
  import opened BinaryExact

  // ----- operators -----

  lemma ImmediatesSame(c: ImmClass)
    ensures Fields(c) == Immediate(c)
  {
    assert forall n: nat :: Octets(n) == seq(n, _ => OctetField);
    assert seq(16, _ => U7Field) == seq(16, _ => U7Field);
  }

  lemma {:induction false} DepthsExact(n: nat, s: seq<Byte>, ds: seq<nat>, rest: seq<Byte>)
    ensures ReadDepths(n, s) == Some((ds, rest)) <==> n == |ds| && IsMany(IsNat, s, ds, rest)
    decreases n
  {
    hide ReadU32, IsU32;
    if n > 0 {
      if ReadDepths(n, s) == Some((ds, rest)) {
        var first := ReadU32(s).value;
        U32Exact(s, first.0, first.1);
        DepthsExact(n - 1, first.1, ds[1..], rest);
        assert ds == [first.0] + ds[1..];
        assert IsNat(s, ds[0], first.1);
      }
      if n == |ds| && IsMany(IsNat, s, ds, rest) {
        var r :| IsNat(s, ds[0], r) && IsMany(IsNat, r, ds[1..], rest);
        U32Exact(s, ds[0], r);
        DepthsExact(n - 1, r, ds[1..], rest);
        assert ds == [ds[0]] + ds[1..];
      }
    }
  }

  lemma ArrayExact(s: seq<Byte>, ds: seq<nat>, rest: seq<Byte>)
    ensures ReadArray(s) == Some((ds, rest)) <==> IsVector(IsNat, s, ds, rest)
  {
    hide ReadU32, IsU32, ReadDepths, IsMany;
    if ReadArray(s) == Some((ds, rest)) {
      var n := ReadU32(s).value;
      U32Exact(s, n.0, n.1);
      DepthsExact(n.0, n.1, ds, rest);
    }
    if IsVector(IsNat, s, ds, rest) {
      var r :| IsU32(s, |ds|, r) && IsMany(IsNat, r, ds, rest);
      U32Exact(s, |ds|, r);
      DepthsExact(|ds|, r, ds, rest);
    }
  }

  /** The branch tables after the operator. */
  function TablesAfter(table: OpTable, op: Operator, n: nat): nat {
    if HasTable(table, op) then n + 1 else n
  }

  lemma OperatorRead(table: OpTable, s: seq<Byte>, done: seq<seq<nat>>, count: Option<nat>, all: seq<seq<nat>>)
    requires TableOk(table) && ReadOperator(table, s, done, count).Some?
    requires ReadOperator(table, s, done, count).value.1 <= all
    ensures var (op, after, rest) := ReadOperator(table, s, done, count).value;
            && IsOperator(table, s, op, all, |done|, rest)
            && |after| == TablesAfter(table, op, |done|)
            && ClassOf(table, op.opcode).Some? && SegmentKnown(ClassOf(table, op.opcode).value, op.values, count)
  {
    hide ReadOpcode, IsOpcode, ReadFields, IsFields, Fields, Immediate, ReadU32, IsU32, ReadArray, IsVector,
         SegmentKnown;
    var o := ReadOpcode(s).value;
    OpcodeExact(s, o.0, o.1);
    if o.0 == UNTYPED_SELECT {
      NoCountNeeded([OfType(AnyType)], count);
    } else {
      var c := ClassOf(table, o.0).value;
      var lead := ReadLead(c, o.1, done).value;
      var fields := ReadFields(Fields(c), lead.1).value;
      ImmediatesSame(c);
      FieldsExact(Immediate(c), lead.1, fields.0, fields.1);
      if c.BranchTableImm? {
        assert Immediate(c) == [U32Field] by { LeadFields(); }
        assert all[|done|] == lead.0[|done|];
        ArrayExact(o.1, all[|done|], lead.1);
      } else if c.SelectImm? {
        assert Immediate(c) == [TypeField] by { LeadFields(); }
        U32Exact(o.1, 1, lead.1);
      }
    }
  }

  lemma NoCountNeeded(values: seq<Value>, count: Option<nat>)
    ensures SegmentKnown(SelectImm, values, count)
  {
  }

  lemma LeadFields()
    ensures Immediate(BranchTableImm) == [U32Field] && Immediate(SelectImm) == [TypeField]
  {
  }

  lemma OperatorAccepted(table: OpTable, s: seq<Byte>, op: Operator, all: seq<seq<nat>>, n: nat, rest: seq<Byte>,
      count: Option<nat>)
    requires TableOk(table) && n <= |all| && IsOperator(table, s, op, all, n, rest)
    requires ClassOf(table, op.opcode).Some? ==> SegmentKnown(ClassOf(table, op.opcode).value, op.values, count)
    ensures TablesAfter(table, op, n) <= |all|
    ensures ReadOperator(table, s, all[..n], count) == Some((op, all[..TablesAfter(table, op, n)], rest))
  {
    hide ReadOpcode, IsOpcode, ReadFields, IsFields, Fields, Immediate, ReadU32, IsU32, ReadArray, IsVector;
    if op == Operator(0x1c, [OfType(AnyType)], 0) && IsOpcode(s, 0x1b, rest) {
      OpcodeExact(s, 0x1b, rest);
    } else if op.opcode == 0x1c {
      var r, q :| IsOpcode(s, 0x1c, r) && IsU32(r, 1, q) && IsFields([TypeField], q, op.values, rest);
      OpcodeExact(s, 0x1c, r);
      U32Exact(r, 1, q);
      LeadFields();
      ImmediatesSame(SelectImm);
      FieldsExact([TypeField], q, op.values, rest);
    } else if table[op.opcode].BranchTableImm? {
      TableAccepted(table, s, op, all, n, rest, count);
    } else {
      var c := table[op.opcode];
      var r :| IsOpcode(s, op.opcode, r) && IsFields(Immediate(c), r, op.values, rest);
      OpcodeExact(s, op.opcode, r);
      ImmediatesSame(c);
      FieldsExact(Immediate(c), r, op.values, rest);
    }
  }

  lemma TableAccepted(table: OpTable, s: seq<Byte>, op: Operator, all: seq<seq<nat>>, n: nat, rest: seq<Byte>,
      count: Option<nat>)
    requires TableOk(table) && op.opcode != 0x1c && HasTable(table, op) && IsOperator(table, s, op, all, n, rest)
    ensures n < |all| && ReadOperator(table, s, all[..n], count) == Some((op, all[..n + 1], rest))
  {
    hide ReadOpcode, IsOpcode, ReadFields, IsFields, Fields, Immediate, ReadArray, IsVector;
    var r, q :| IsOpcode(s, op.opcode, r) && IsVector(IsNat, r, all[n], q) && IsFields([U32Field], q, op.values, rest);
    OpcodeExact(s, op.opcode, r);
    ArrayExact(r, all[n], q);
    LeadFields();
    ImmediatesSame(BranchTableImm);
    FieldsExact([U32Field], q, op.values, rest);
    assert all[..n] + [all[n]] == all[..n + 1];
  }

  lemma OperatorKnown(table: OpTable, s: seq<Byte>, op: Operator, all: seq<seq<nat>>, n: nat, rest: seq<Byte>)
    requires IsOperator(table, s, op, all, n, rest)
    ensures ClassOf(table, op.opcode).Some?
  {
    hide IsOpcode, IsFields, IsU32, IsVector;
  }

  /** For every input: the operators of the grammar whose data segments were announced. */
  lemma {:induction false} CodeExact(table: OpTable, s: seq<Byte>, n: nat, count: Option<nat>, ops: seq<Operator>,
      all: seq<seq<nat>>)
    requires TableOk(table) && n <= |all|
    ensures ReadOperators(table, s, all[..n], count) == Some((ops, all))
       <==> IsCode(table, s, ops, all, n) && SegmentsKnown(table, ops, count)
    decreases |ops|
  {
    hide ReadOperator, IsOperator, SegmentsKnown, TableOk, SegmentKnown;
    if ops == [] {
      NoneUse(table, count);
      if ReadOperators(table, s, all[..n], count) == Some((ops, all)) {
        assert s == [];
      }
      assert n == |all| ==> all[..n] == all;
    } else {
      if ReadOperators(table, s, all[..n], count) == Some((ops, all)) {
        CodeRead(table, s, n, count, ops, all);
      }
      if IsCode(table, s, ops, all, n) && SegmentsKnown(table, ops, count) {
        CodeAccepted(table, s, n, count, ops, all);
      }
    }
  }

  lemma {:induction false} CodeRead(table: OpTable, s: seq<Byte>, n: nat, count: Option<nat>, ops: seq<Operator>,
      all: seq<seq<nat>>)
    requires TableOk(table) && n <= |all| && ops != []
    requires ReadOperators(table, s, all[..n], count) == Some((ops, all))
    ensures IsCode(table, s, ops, all, n) && SegmentsKnown(table, ops, count)
    decreases |ops|, 0
  {
    hide ReadOperator, IsOperator, SegmentsKnown, TableOk, SegmentKnown;
    var first := ReadOperator(table, s, all[..n], count).value;
    ReadExtends(table, first.2, first.1, count);
    OperatorRead(table, s, all[..n], count, all);
    assert first.1 == all[..|first.1|];
    assert ops == [first.0] + ops[1..];
    CodeExact(table, first.2, |first.1|, count, ops[1..], all);
    SegmentsKnownSplit(table, ops, count);
  }

  lemma {:induction false} CodeAccepted(table: OpTable, s: seq<Byte>, n: nat, count: Option<nat>, ops: seq<Operator>,
      all: seq<seq<nat>>)
    requires TableOk(table) && n <= |all| && ops != []
    requires IsCode(table, s, ops, all, n) && SegmentsKnown(table, ops, count)
    ensures ReadOperators(table, s, all[..n], count) == Some((ops, all))
    decreases |ops|, 0
  {
    hide ReadOperator, IsOperator, SegmentsKnown, TableOk, SegmentKnown, HasTable;
    var r :| IsOperator(table, s, ops[0], all, n, r) && IsCode(table, r, ops[1..], all, TablesAfter(table, ops[0], n));
    OperatorKnown(table, s, ops[0], all, n, r);
    SegmentsKnownSplit(table, ops, count);
    OperatorAccepted(table, s, ops[0], all, n, r, count);
    CodeExact(table, r, TablesAfter(table, ops[0], n), count, ops[1..], all);
    assert ops == [ops[0]] + ops[1..];
  }

  // ----- locals -----

  lemma SetExact()
    ensures Exact(ReadSet, IsLocalSet)
  {
    hide ReadU32, IsU32, ReadField, IsField, ReadFields, IsType;
    forall s, l, rest ensures ReadSet(s) == Some((l, rest)) <==> IsLocalSet(s, l, rest) {
      var vs := [F.Number(l.num), OfType(l.t)];
      FieldsExact(SET_FIELDS, s, vs, rest);
      SetFields(s, l, rest);
      if ReadSet(s) == Some((l, rest)) {
        assert ReadFields(SET_FIELDS, s).value.0 == vs;
      }
    }
  }

  lemma SetFields(s: seq<Byte>, l: LocalRun, rest: seq<Byte>)
    ensures IsFields(SET_FIELDS, s, [F.Number(l.num), OfType(l.t)], rest) <==> IsLocalSet(s, l, rest)
  {
    hide IsLeb, IsType;
    var vs := [F.Number(l.num), OfType(l.t)];
    assert SET_FIELDS[1..] == [TypeField] && vs[1..] == [OfType(l.t)] && [TypeField][1..] == [] && vs[1..][1..] == [];
    if IsFields(SET_FIELDS, s, vs, rest) {
      var r :| IsField(U32Field, s, vs[0], r) && IsFields([TypeField], r, [OfType(l.t)], rest);
      var q :| IsField(TypeField, r, OfType(l.t), q) && IsFields([], q, [], rest);
    }
    if IsLocalSet(s, l, rest) {
      var r :| IsU32(s, l.num, r) && IsType(r, l.t, rest);
      assert IsFields([], rest, [], rest) && IsField(TypeField, r, OfType(l.t), rest);
      assert IsFields([TypeField], r, [OfType(l.t)], rest) && IsField(U32Field, s, vs[0], r);
    }
  }

  /** The locals read from sets: their expansion after those so far, below the limit if there are any sets. */
  ghost predicate SetsGive(sets: seq<LocalRun>, n: nat, s: seq<Byte>, locals: seq<ValueType>, maxLocals: nat,
      all: seq<ValueType>, rest: seq<Byte>) {
    |sets| == n && IsMany(IsLocalSet, s, sets, rest) && all == locals + Unrolled(sets) && (n == 0 || |all| < maxLocals)
  }

  lemma {:induction false} LocalsRead(n: nat, s: seq<Byte>, locals: seq<ValueType>, maxLocals: nat, all: seq<ValueType>,
      rest: seq<Byte>) returns (sets: seq<LocalRun>)
    requires ReadLocals(n, s, locals, maxLocals) == Some((all, rest))
    ensures SetsGive(sets, n, s, locals, maxLocals, all, rest)
    decreases n
  {
    hide ReadSet, IsLocalSet;
    if n == 0 {
      sets := [];
    } else {
      var first := ReadSet(s).value;
      var others := LocalsRead(n - 1, first.1, locals + Repeat(first.0.num, first.0.t), maxLocals, all, rest);
      sets := [first.0] + others;
      assert sets[1..] == others;
      assert IsLocalSet(s, sets[0], first.1) by { SetExact(); }
      UnrolledSplit(sets);
      assert n == 1 ==> others == [];
    }
  }

  lemma UnrolledSplit(sets: seq<LocalRun>)
    requires sets != []
    ensures Unrolled(sets) == Repeat(sets[0].num, sets[0].t) + Unrolled(sets[1..])
  {
  }

  lemma {:induction false} LocalsAccepted(sets: seq<LocalRun>, n: nat, s: seq<Byte>, locals: seq<ValueType>,
      maxLocals: nat, all: seq<ValueType>, rest: seq<Byte>)
    requires SetsGive(sets, n, s, locals, maxLocals, all, rest)
    ensures ReadLocals(n, s, locals, maxLocals) == Some((all, rest))
    decreases n
  {
    hide ReadSet, IsLocalSet;
    if n == 0 {
      assert locals + [] == locals;
    } else {
      var r :| IsLocalSet(s, sets[0], r) && IsMany(IsLocalSet, r, sets[1..], rest);
      assert ReadSet(s) == Some((sets[0], r)) by { SetExact(); }
      UnrolledSplit(sets);
      assert |all| == |locals| + sets[0].num + |Unrolled(sets[1..])|;
      assert all == locals + Repeat(sets[0].num, sets[0].t) + Unrolled(sets[1..]);
      LocalsAccepted(sets[1..], n - 1, r, locals + Repeat(sets[0].num, sets[0].t), maxLocals, all, rest);
    }
  }

  // ----- bodies -----

  /** The body declares no set of locals. */
  ghost predicate Bare(s: seq<Byte>) {
    exists r :: IsU32(s, 0, r)
  }

  ghost predicate AllBare(s: seq<Byte>, n: nat)
    decreases n
  {
    n == 0 || exists content, r :: IsBytes(s, content, r) && Bare(content) && AllBare(r, n - 1)
  }

  /** The checks on a body: its locals are below the limit, its data segments were announced, and the
      validator accepts it. */
  ghost predicate Checked(table: OpTable, body: Body, maxLocals: nat, count: Option<nat>, accepts: Acceptor) {
    WithinLocals(body.locals, maxLocals) && SegmentsKnown(table, body.ops, count) && accepts(body)
  }

  lemma ContentRead(table: OpTable, s: seq<Byte>, maxLocals: nat, count: Option<nat>, accepts: Acceptor, body: Body)
    requires TableOk(table) && ReadContent(table, s, maxLocals, count, accepts) == Some(body)
    ensures IsBody(table, s, body) && Checked(table, body, maxLocals, count, accepts) && (maxLocals == 0 ==> Bare(s))
  {
    hide ReadU32, IsU32, ReadLocals, ReadOperators, IsCode, SegmentsKnown, TableOk, IsMany, Unrolled;
    var n := ReadU32(s).value;
    U32Exact(s, n.0, n.1);
    var l := ReadLocals(n.0, n.1, [], maxLocals).value;
    var sets := LocalsRead(n.0, n.1, [], maxLocals, l.0, l.1);
    assert IsVector(IsLocalSet, s, sets, l.1);
    assert body.tables[..0] == [];
    CodeExact(table, l.1, 0, count, body.ops, body.tables);
    assert n.0 == 0 ==> l.0 == [] by { assert sets == [] ==> Unrolled(sets) == [] by { NothingUnrolled(); } }
  }

  lemma NothingUnrolled()
    ensures Unrolled([]) == []
  {
  }

  lemma ContentAccepted(table: OpTable, s: seq<Byte>, maxLocals: nat, count: Option<nat>, accepts: Acceptor, body: Body)
    requires TableOk(table) && (maxLocals == 0 ==> Bare(s))
    requires IsBody(table, s, body) && Checked(table, body, maxLocals, count, accepts)
    ensures ReadContent(table, s, maxLocals, count, accepts) == Some(body)
  {
    hide ReadU32, IsU32, ReadLocals, ReadOperators, IsCode, SegmentsKnown, TableOk, IsMany, Unrolled;
    var sets: seq<LocalRun>, r :|
      IsVector(IsLocalSet, s, sets, r) && body.locals == Unrolled(sets) && IsCode(table, r, body.ops, body.tables, 0);
    var q :| IsU32(s, |sets|, q) && IsMany(IsLocalSet, q, sets, r);
    U32Exact(s, |sets|, q);
    if maxLocals == 0 {
      var none :| IsU32(s, 0, none);
      U32Exact(s, 0, none);
    }
    assert [] + Unrolled(sets) == Unrolled(sets);
    LocalsAccepted(sets, |sets|, q, [], maxLocals, body.locals, r);
    assert body.tables[..0] == [];
    CodeExact(table, r, 0, count, body.ops, body.tables);
  }

  /** For every input: the body of the grammar, if it meets the checks. With no room for any local the reader
      also refuses a set of no locals. */
  lemma ContentExact(table: OpTable, s: seq<Byte>, maxLocals: nat, count: Option<nat>, accepts: Acceptor, body: Body)
    requires TableOk(table)
    ensures ReadContent(table, s, maxLocals, count, accepts) == Some(body)
       <==> && IsBody(table, s, body) && Checked(table, body, maxLocals, count, accepts)
            && (maxLocals == 0 ==> Bare(s))
  {
    hide ReadContent, IsBody, Checked, TableOk, Bare;
    if ReadContent(table, s, maxLocals, count, accepts) == Some(body) {
      ContentRead(table, s, maxLocals, count, accepts, body);
    }
    if IsBody(table, s, body) && Checked(table, body, maxLocals, count, accepts) && (maxLocals == 0 ==> Bare(s)) {
      ContentAccepted(table, s, maxLocals, count, accepts, body);
    }
  }

  ghost predicate AllChecked(table: OpTable, bodies: seq<Body>, i: nat, rules: Rules, context: Image,
      count: Option<nat>)
    decreases |bodies|
  {
    bodies != [] ==>
      && Checked(table, bodies[0], rules.maxLocals, count, AcceptorOf(rules, context, i))
      && AllChecked(table, bodies[1..], i + 1, rules, context, count)
  }

  lemma {:induction false} BodiesRead(table: OpTable, i: nat, n: nat, s: seq<Byte>, rules: Rules, context: Image,
      count: Option<nat>, bodies: seq<Body>, rest: seq<Byte>)
    requires TableOk(table) && ReadBodies(table, i, n, s, rules, context, count) == Some((bodies, rest))
    ensures n == |bodies| && IsBodies(table, s, bodies, rest) && AllChecked(table, bodies, i, rules, context, count)
    ensures rules.maxLocals == 0 ==> AllBare(s, n)
    decreases n
  {
    hide ReadBytes, IsBytes, ReadContent, IsBody, Checked, TableOk, AcceptorOf, Bare;
    if n > 0 {
      var content := ReadBytes(s).value;
      BytesExact(s, content.0, content.1);
      ContentRead(table, content.0, rules.maxLocals, count, AcceptorOf(rules, context, i), bodies[0]);
      BodiesRead(table, i + 1, n - 1, content.1, rules, context, count, bodies[1..], rest);
    }
  }

  lemma {:induction false} BodiesAccepted(table: OpTable, i: nat, s: seq<Byte>, rules: Rules, context: Image,
      count: Option<nat>, bodies: seq<Body>, rest: seq<Byte>)
    requires TableOk(table) && (rules.maxLocals == 0 ==> AllBare(s, |bodies|))
    requires IsBodies(table, s, bodies, rest) && AllChecked(table, bodies, i, rules, context, count)
    ensures ReadBodies(table, i, |bodies|, s, rules, context, count) == Some((bodies, rest))
    decreases |bodies|
  {
    hide ReadBytes, IsBytes, ReadContent, IsBody, Checked, TableOk, AcceptorOf, Bare;
    if bodies != [] {
      var content, r :| IsBytes(s, content, r) && IsBody(table, content, bodies[0]) && IsBodies(table, r, bodies[1..], rest);
      BytesExact(s, content, r);
      if rules.maxLocals == 0 {
        var c, q :| IsBytes(s, c, q) && Bare(c) && AllBare(q, |bodies| - 1);
        BytesExact(s, c, q);
      }
      ContentAccepted(table, content, rules.maxLocals, count, AcceptorOf(rules, context, i), bodies[0]);
      BodiesAccepted(table, i + 1, r, rules, context, count, bodies[1..], rest);
      assert bodies == [bodies[0]] + bodies[1..];
    }
  }
}
