/** Whatever the validator accepts is a nested body and well typed. */
module TypingSound {
  import opened IR
  import opened Wrappers
  import opened V = Validator
  import opened Typing
  import opened TypedOperands
  import opened TypedRuns
  import opened TypingComplete

  // ----- the types an operand stack stands for -----

  /** An unreachable context has any number of operands of the bottom type below those it knows. */
  ghost predicate Admits(s: State, n: nat) {
    Based(s) && (n > 0 ==> !Last(s.control).reachable)
  }

  function Stack(s: State, n: nat): seq<ValueType>
    requires Based(s)
  {
    seq(n, _ => NoType) + Operands(s)
  }

  lemma StackTakes(s: State, n: nat, ts: seq<ValueType>)
    requires Based(s) && Supplies(s, ts) && |ts| <= |Stack(s, n)|
    ensures Takes(ts, Stack(s, n))
  {
    hide Matches;
    var types, have := Stack(s, n), Operands(s);
    var top := types[|types| - |ts|..];
    forall i | 0 <= i < |ts| ensures Matches(top[i], ts[i]) {
      if |ts| - i <= |have| {
        assert Matches(have[|have| - (|ts| - i)], ts[i]);
      } else {
        assert top[i] == NoType;
        BottomBelow(ts[i]);
      }
    }
  }

  /** How many operands of the bottom type popping needs below those it leaves. */
  function Wanted(s: State, ts: seq<ValueType>, n: nat): nat
    requires Based(s)
  {
    if |ts| <= |Operands(s)| then n else n + (|ts| - |Operands(s)|)
  }

  lemma PopBack(s: State, ts: seq<ValueType>, n: nat)
    requires Based(s) && Supplies(s, ts) && Admits(Cut(s, |ts|), n)
    ensures var k := Wanted(s, ts, n);
            && Admits(s, k) && Takes(ts, Stack(s, k))
            && Stack(s, k)[..|Stack(s, k)| - |ts|] == Stack(Cut(s, |ts|), n)
  {
    hide Matches;
    var k, have := Wanted(s, ts, n), Operands(s);
    StackTakes(s, k, ts);
    assert Operands(Cut(s, |ts|)) == if |ts| <= |have| then have[..|have| - |ts|] else [];
  }

  lemma TurnBack(s: State, params: seq<ValueType>, results: seq<ValueType>, n: nat)
    requires Based(s) && Supplies(s, params) && Admits(Cut(s, |params|), n)
    ensures var k := Wanted(s, params, n);
            Admits(s, k) && Turns(params, results, Stack(s, k), Stack(PushTuple(Cut(s, |params|), results), n))
  {
    hide Supplies, Takes;
    PopBack(s, params, n);
    var p := Cut(s, |params|);
    assert Operands(PushTuple(p, results)) == Operands(p) + results;
    assert seq(n, _ => NoType) + (Operands(p) + results) == Stack(p, n) + results;
  }

  // ----- one instruction -----

  predicate Structural(op: Op) {
    op.Opens() || op.Else? || op.End?
  }

  /** The step stays in the context, and whatever it leaves it is typed with. */
  ghost predicate Comes(fn: FunctionDef, c: Context, op: Op, s: State, n: nat, k: nat)
    requires WellFormed(fn) && WellFormedOp(fn, op)
  {
    var r := Step(fn, s, op);
    r.Some? && Kept(s, r.value) && Admits(s, k) && OpTyped(c, op, Stack(s, k), Stack(r.value, n))
  }

  lemma PopsTwice(s: State, ts: seq<ValueType>, t: ValueType)
    requires Based(s)
    ensures Supplies(s, ts + [t]) <==> Supplies(s, [t]) && Supplies(Cut(s, 1), ts)
    ensures Cut(Cut(s, 1), |ts|) == Cut(s, |ts| + 1)
  {
    hide Supplies;
    assert Last(ts + [t]) == t && Front(ts + [t]) == ts;
    SuppliesSplit(s, ts + [t]);
    CutTwice(s, |ts|);
  }

  lemma LeavesKept(s: State, n: nat)
    requires Based(s)
    ensures Kept(s, EnterUnreachable(Cut(s, n)))
  {
    CutKept(s, n, []);
    LeaveKept(s, Cut(s, n));
  }

  lemma BranchBack(fn: FunctionDef, c: Context, op: Op, s: State, n: nat) returns (k: nat)
    requires WellFormed(fn) && WellFormedOp(fn, op) && Agree(c, fn, s) && Based(s)
    requires Step(fn, s, op).Some? && Admits(Step(fn, s, op).value, n)
    requires op.Br? || op.BrIf? || op.Return? || op.Unreachable?
    ensures Comes(fn, c, op, s, n, k)
  {
    hide Supplies, Takes, PopTuple, PopOperand, Kept, Stack, EnterUnreachable, WellFormed;
    match op {
      case Br(depth) =>
        LabelIs(c, fn, s, depth);
        var ts := LabelAt(c, depth);
        PopTupleIs(s, ts);
        PopBack(s, ts, 0);
        LeavesKept(s, |ts|);
        k := Wanted(s, ts, 0);
      case BrIf(depth) =>
        LabelIs(c, fn, s, depth);
        var ts := LabelAt(c, depth);
        PopOperandIs(s, I32);
        PopTupleIs(Cut(s, 1), ts);
        PopsTwice(s, ts, I32);
        TurnBack(s, ts + [I32], ts, n);
        CutKept(s, |ts| + 1, ts);
        k := Wanted(s, ts + [I32], n);
      case Return =>
        var ts := c.results;
        PopTupleIs(s, ts);
        PopBack(s, ts, 0);
        LeavesKept(s, |ts|);
        k := Wanted(s, ts, 0);
      case Unreachable =>
        SuppliesNothing(s);
        LeavesKept(s, 0);
        k := 0;
    }
  }

  lemma TableBack(fn: FunctionDef, c: Context, op: Op, s: State, n: nat) returns (k: nat)
    requires WellFormed(fn) && WellFormedOp(fn, op) && Agree(c, fn, s) && Based(s)
    requires Step(fn, s, op).Some? && Admits(Step(fn, s, op).value, n) && op.BrTable?
    ensures Comes(fn, c, op, s, n, k)
  {
    hide Supplies, PopTuple, PopOperand, Kept, EnterUnreachable, AllMatch, PeekTuple, WellFormed;
    PopOperandIs(s, I32);
    LabelIs(c, fn, s, op.default);
    var ts, r := LabelAt(c, op.default), Cut(s, 1);
    PopTupleIs(r, ts);
    PopsTwice(s, ts, I32);
    PopBack(s, ts + [I32], 0);
    k := Wanted(s, ts + [I32], 0);
    var depths := fn.branchTables[op.table];
    forall depth | depth in depths
      ensures HasLabel(c, depth) && |LabelAt(c, depth)| == |ts| && Takes(LabelAt(c, depth) + [I32], Stack(s, k))
    {
      var i :| 0 <= i < |depths| && depths[i] == depth;
      LabelIs(c, fn, s, depth);
      LabelIs(c, fn, r, depth);
      PeekTupleIff(r, LabelAt(c, depth));
      PopsTwice(s, LabelAt(c, depth), I32);
      StackTakes(s, k, LabelAt(c, depth) + [I32]);
    }
    LeavesKept(s, |ts| + 1);
  }

  lemma LocalBack(fn: FunctionDef, c: Context, op: Op, s: State, n: nat) returns (k: nat)
    requires WellFormed(fn) && WellFormedOp(fn, op) && Agree(c, fn, s) && Based(s)
    requires Step(fn, s, op).Some? && Admits(Step(fn, s, op).value, n)
    requires op.LocalGet? || op.LocalSet? || op.LocalTee? || op.Drop?
    ensures Comes(fn, c, op, s, n, k)
  {
    hide Supplies, PopTuple, PopOperand, Kept, AllMatch, WellFormed;
    match op {
      case LocalGet(i) =>
        SuppliesNothing(s);
        CutKept(s, 0, [c.locals[i]]);
        TurnBack(s, [], [c.locals[i]], n);
        k := n;
        assert Stack(s, k)[..|Stack(s, k)| - 0] == Stack(s, k);
      case LocalSet(i) =>
        PopOperandIs(s, c.locals[i]);
        CutKept(s, 1, []);
        TurnBack(s, [c.locals[i]], [], n);
        k := Wanted(s, [c.locals[i]], n);
        assert PushTuple(Cut(s, 1), []) == Cut(s, 1);
      case LocalTee(i) =>
        PopOperandIs(s, c.locals[i]);
        CutKept(s, 1, [TopType(s)]);
        k := Wanted(s, [c.locals[i]], n);
        PopBack(s, [c.locals[i]], n);
        TeeBack(s, c.locals[i], n);
      case Drop =>
        PopOperandIs(s, AnyType);
        CutKept(s, 1, []);
        PopBack(s, [AnyType], n);
        k := Wanted(s, [AnyType], n);
    }
  }

  lemma TeeBack(s: State, t: ValueType, n: nat)
    requires Based(s)
    ensures Stack(s, Wanted(s, [t], n)) == Stack(PushTuple(Cut(s, 1), [TopType(s)]), n)
  {
    var have, k := Operands(s), Wanted(s, [t], n);
    var r := PushTuple(Cut(s, 1), [TopType(s)]);
    assert Operands(r) == (if have == [] then [] else Front(have)) + [TopType(s)];
    if have == [] {
      assert Stack(s, k) == seq(n, _ => NoType) + [NoType];
    }
  }

  lemma PlainBack(fn: FunctionDef, c: Context, op: Op, s: State, n: nat) returns (k: nat)
    requires WellFormed(fn) && WellFormedOp(fn, op) && Agree(c, fn, s) && Based(s)
    requires Step(fn, s, op).Some? && Admits(Step(fn, s, op).value, n) && op.Plain?
    ensures Comes(fn, c, op, s, n, k)
  {
    hide Supplies, PopTuple, Kept, Turns, Stack, WellFormed;
    PopTupleIs(s, op.sig.params);
    TurnBack(s, op.sig.params, op.sig.results, n);
    CutKept(s, |op.sig.params|, op.sig.results);
    k := Wanted(s, op.sig.params, n);
  }

  lemma SuppliesOne(s: State, t: ValueType)
    requires Based(s)
    ensures Supplies(s, [t]) <==> if Operands(s) == [] then !Last(s.control).reachable else Matches(TopType(s), t)
  {
    hide Matches;
    var have := Operands(s);
    if Supplies(s, [t]) && have != [] {
      assert Matches(have[|have| - (|[t]| - 0)], [t][0]);
    }
  }

  /** The type an untyped select leaves. */
  function Joined(f: ValueType, g: ValueType): ValueType {
    if f == NoType then g else f
  }

  lemma JoinedMatches(f: ValueType, g: ValueType)
    requires f == NoType || IsNumeric(f)
    requires g == NoType || IsNumeric(g)
    requires f == NoType || g == NoType || f == g
    ensures Simple(Joined(f, g)) && Matches(f, Joined(f, g)) && Matches(g, Joined(f, g))
  {
  }

  lemma SelectPops(s: State, t: ValueType)
    requires Based(s)
    ensures Supplies(s, [t, t, I32]) <==> Supplies(s, [I32]) && Supplies(Cut(s, 1), [t]) && Supplies(Cut(Cut(s, 1), 1), [t])
    ensures Cut(Cut(Cut(s, 1), 1), 1) == Cut(s, 3)
  {
    hide Supplies;
    assert [t, t] + [I32] == [t, t, I32] && [t] + [t] == [t, t];
    PopsTwice(s, [t, t], I32);
    PopsTwice(Cut(s, 1), [t], t);
  }

  lemma SelectBack(fn: FunctionDef, c: Context, op: Op, s: State, n: nat) returns (k: nat)
    requires WellFormed(fn) && WellFormedOp(fn, op) && Agree(c, fn, s) && Based(s)
    requires Step(fn, s, op).Some? && Admits(Step(fn, s, op).value, n) && op.Select?
    ensures Comes(fn, c, op, s, n, k)
  {
    hide Supplies, PopTuple, PopOperand, Kept, Turns, Stack, WellFormed, Matches, TopType, Operands, Cut;
    var s1, s2 := Cut(s, 1), Cut(Cut(s, 1), 1);
    PopOperandIs(s, I32);
    PopOperandIs(s1, op.ty);
    PopOperandIs(s2, op.ty);
    var f, g := TopType(s1), TopType(s2);
    var t := if op.ty == AnyType then Joined(f, g) else op.ty;
    if op.ty == AnyType {
      JoinedMatches(f, g);
      SuppliesOne(s1, AnyType);
      SuppliesOne(s2, AnyType);
      SuppliesOne(s1, t);
      SuppliesOne(s2, t);
    } else {
      EnabledIffValid(fn.mod.features, op.ty);
    }
    SelectPops(s, t);
    TurnBack(s, [t, t, I32], [t], n);
    CutKept(s, 3, [t]);
    k := Wanted(s, [t, t, I32], n);
    assert Step(fn, s, op) == Some(PushTuple(Cut(s, 3), [t]));
    assert op.ty == AnyType ==> Simple(t);
  }

  lemma OpBack(fn: FunctionDef, c: Context, op: Op, s: State, n: nat) returns (k: nat)
    requires WellFormed(fn) && WellFormedOp(fn, op) && Agree(c, fn, s) && Based(s) && !Structural(op)
    requires Step(fn, s, op).Some? && Admits(Step(fn, s, op).value, n)
    ensures Comes(fn, c, op, s, n, k)
  {
    hide Comes, Agree, Based, WellFormed, Step, WellFormedOp;
    match op
    case Plain(_, _, _) => k := PlainBack(fn, c, op, s, n);
    case Select(_) => k := SelectBack(fn, c, op, s, n);
    case BrTable(_, _) => k := TableBack(fn, c, op, s, n);
    case Drop | LocalGet(_) | LocalSet(_) | LocalTee(_) => k := LocalBack(fn, c, op, s, n);
    case Br(_) | BrIf(_) | Return | Unreachable => k := BranchBack(fn, c, op, s, n);
    case _ =>
  }
}
