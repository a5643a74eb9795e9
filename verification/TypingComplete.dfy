/** Whatever is well typed the validator accepts. */
module TypingComplete {
  import opened IR
  import opened Wrappers
  import opened V = Validator
  import opened Typing
  import opened TypedOperands
  import opened TypedRuns

  /** The step succeeds, stays in the context, and its operands stand for the declared ones. */
  ghost predicate Goes(fn: FunctionDef, s: State, op: Op, after: seq<ValueType>)
    requires WellFormed(fn) && WellFormedOp(fn, op)
  {
    var r := Step(fn, s, op);
    r.Some? && Kept(s, r.value) && Fits(r.value, after)
  }

  lemma LeaveFits(s: State, m: State, after: seq<ValueType>)
    requires Kept(s, m)
    ensures Kept(s, EnterUnreachable(m)) && Fits(EnterUnreachable(m), after)
  {
    LeaveKept(s, m);
    assert after[|after| - 0..] == [];
  }

  // ----- one instruction -----

  lemma TurnGoes(s: State, before: seq<ValueType>, params: seq<ValueType>, results: seq<ValueType>,
      after: seq<ValueType>)
    requires Fits(s, before) && Turns(params, results, before, after)
    ensures PopTuple(s, params) == Some(Cut(s, |params|))
    ensures Kept(s, Cut(s, |params|)) && Kept(s, PushTuple(Cut(s, |params|), results))
    ensures Fits(PushTuple(Cut(s, |params|), results), after)
  {
    hide Fits, Turns, Supplies, Kept;
    FitsTurn(s, before, params, results, after);
    assert Based(s) by { FitsBased(s, before); }
    CutKept(s, |params|, results);
  }

  /** Popping one type after the others. */
  lemma PopInTurn(s: State, ts: seq<ValueType>, t: ValueType)
    requires Based(s)
    ensures PopTuple(s, ts + [t]) == match PopOperand(s, t) case None => None case Some(r) => PopTuple(r, ts)
  {
    assert Last(ts + [t]) == t && Front(ts + [t]) == ts;
  }

  lemma TakesGoes(s: State, before: seq<ValueType>, ts: seq<ValueType>)
    requires Fits(s, before) && Takes(ts, before)
    ensures PopTuple(s, ts) == Some(Cut(s, |ts|)) && Kept(s, Cut(s, |ts|))
    ensures Fits(Cut(s, |ts|), before[..|before| - |ts|])
  {
    hide Fits, AllMatch, Supplies, Kept;
    FitsSupplies(s, before, ts);
    assert Based(s) by { FitsBased(s, before); }
    PopTupleIs(s, ts);
    CutKept(s, |ts|, []);
  }

  lemma BranchGoes(fn: FunctionDef, c: Context, op: Op, s: State, before: seq<ValueType>, after: seq<ValueType>)
    requires WellFormed(fn) && WellFormedOp(fn, op) && Agree(c, fn, s) && Fits(s, before)
    requires OpTyped(c, op, before, after) && (op.Br? || op.BrIf? || op.Return? || op.Unreachable?)
    ensures Goes(fn, s, op, after)
  {
    hide Fits, PopTuple, PopOperand, Takes, Kept;
    assert Based(s) by { FitsBased(s, before); }
    match op {
      case Br(depth) =>
        LabelIs(c, fn, s, depth);
        TakesGoes(s, before, LabelAt(c, depth));
        LeaveFits(s, Cut(s, |LabelAt(c, depth)|), after);
      case BrIf(depth) =>
        LabelIs(c, fn, s, depth);
        var ts := LabelAt(c, depth);
        TurnGoes(s, before, ts + [I32], ts, after);
        PopInTurn(s, ts, I32);
      case Return =>
        TakesGoes(s, before, Signature(fn).results);
        LeaveFits(s, Cut(s, |Signature(fn).results|), after);
      case Unreachable =>
        CutKept(s, 0, []);
        SuppliesNothing(s);
        LeaveFits(s, s, after);
    }
  }

  lemma TakesInTurn(ts: seq<ValueType>, t: ValueType, before: seq<ValueType>)
    requires Takes(ts + [t], before)
    ensures Takes([t], before) && Takes(ts, before[..|before| - 1])
  {
    hide Matches;
    var top := before[|before| - |ts| - 1..];
    assert Matches(top[|ts|], (ts + [t])[|ts|]);
    var fewer := before[..|before| - 1];
    forall i | 0 <= i < |ts| ensures Matches(fewer[|fewer| - |ts|..][i], ts[i]) {
      assert Matches(top[i], (ts + [t])[i]);
    }
  }

  lemma TablePeeks(c: Context, fn: FunctionDef, s: State, r: State, depths: seq<nat>, arity: nat,
      before: seq<ValueType>)
    requires Agree(c, fn, s) && r.control == s.control && before != [] && Fits(r, before[..|before| - 1])
    requires forall depth :: depth in depths ==>
               HasLabel(c, depth) && |LabelAt(c, depth)| == arity && Takes(LabelAt(c, depth) + [I32], before)
    ensures TableTargetsFit(r, depths, arity)
  {
    hide Fits, PeekTuple, Takes;
    forall i | 0 <= i < |depths|
      ensures depths[i] < |r.control| && |Target(r, depths[i]).value.params| == arity && PeekTuple(r, Target(r, depths[i]).value.params)
    {
      var ts := LabelAt(c, depths[i]);
      LabelIs(c, fn, s, depths[i]);
      TakesInTurn(ts, I32, before);
      FitsSupplies(r, before[..|before| - 1], ts);
      assert Based(r) by { FitsBased(r, before[..|before| - 1]); }
      PeekTupleIff(r, ts);
    }
  }

  lemma TableGoes(fn: FunctionDef, c: Context, op: Op, s: State, before: seq<ValueType>, after: seq<ValueType>)
    requires WellFormed(fn) && WellFormedOp(fn, op) && Agree(c, fn, s) && Fits(s, before)
    requires OpTyped(c, op, before, after) && op.BrTable?
    ensures Goes(fn, s, op, after)
  {
    hide Fits, PopTuple, PopOperand, Takes, Kept, TableTargetsFit, WellFormed;
    assert Based(s) by { FitsBased(s, before); }
    var ts := LabelAt(c, op.default);
    LabelIs(c, fn, s, op.default);
    TakesInTurn(ts, I32, before);
    assert before != [] by { TakesSome(I32, before); }
    TakesGoes(s, before, [I32]);
    PopOne(s, I32);
    var r := Cut(s, 1);
    TablePeeks(c, fn, s, r, fn.branchTables[op.table], |ts|, before);
    TakesGoes(r, before[..|before| - 1], ts);
    KeptTransitive(s, r, Cut(r, |ts|));
    LeaveFits(s, Cut(r, |ts|), after);
  }

  lemma TakesSome(t: ValueType, before: seq<ValueType>)
    requires Takes([t], before)
    ensures before != []
  {
  }

  lemma PopOne(s: State, t: ValueType)
    requires Based(s)
    ensures PopTuple(s, [t]) == PopOperand(s, t)
  {
    PopInTurn(s, [], t);
    assert [] + [t] == [t];
  }

  lemma LocalGoes(fn: FunctionDef, c: Context, op: Op, s: State, before: seq<ValueType>, after: seq<ValueType>)
    requires WellFormed(fn) && WellFormedOp(fn, op) && Agree(c, fn, s) && Fits(s, before)
    requires OpTyped(c, op, before, after) && (op.LocalGet? || op.LocalSet? || op.LocalTee? || op.Drop?)
    ensures Goes(fn, s, op, after)
  {
    hide Fits, PopTuple, PopOperand, AllMatch, Kept;
    assert Based(s) by { FitsBased(s, before); }
    var locals := LocalTypes(fn);
    match op {
      case LocalGet(i) =>
        MatchThemselves([locals[i]]);
        FitsPush(s, before, [locals[i]], [locals[i]]);
        SuppliesNothing(s);
        CutKept(s, 0, [locals[i]]);
      case LocalSet(i) =>
        TakesGoes(s, before, [locals[i]]);
        PopOne(s, locals[i]);
        assert before[..|before| - 1] + [] == before[..|before| - 1];
      case LocalTee(i) =>
        TakesGoes(s, before, [locals[i]]);
        PopOne(s, locals[i]);
        CutKept(s, 1, [TopType(s)]);
        TeeFits(s, before);
      case Drop =>
        TakesAny(before);
        TakesGoes(s, before, [AnyType]);
        PopOne(s, AnyType);
    }
  }

  lemma TakesAny(before: seq<ValueType>)
    requires before != []
    ensures Takes([AnyType], before)
  {
  }

  /** Pushing back the operand that was popped. */
  lemma TeeFits(s: State, before: seq<ValueType>)
    requires Fits(s, before) && before != []
    ensures Fits(PushTuple(Cut(s, 1), [TopType(s)]), before)
  {
    hide Matches, Supplies, Cut;
    TakesAny(before);
    FitsSupplies(s, before, [AnyType]);
    var have, last := Operands(s), before[|before| - 1];
    assert have != [] ==> Matches(have[|have| - 1], before[|before| - |have|..][|have| - 1]);
    assert Matches(TopType(s), last) by { BottomBelow(last); }
    FitsPush(Cut(s, 1), before[..|before| - 1], [TopType(s)], [last]);
    assert before[..|before| - 1] + [last] == before;
  }

  lemma BottomBelow(t: ValueType)
    ensures Matches(NoType, t)
  {
  }

  predicate Simple(t: ValueType) {
    t in {NoType, I32, I64, F32, F64, V128}
  }

  lemma SimpleBelow(a: ValueType, t: ValueType)
    requires Simple(t) && Matches(a, t)
    ensures a == NoType || (a == t && IsNumeric(a))
  {
  }

  lemma PopTwo(s: State, t: ValueType, before: seq<ValueType>)
    requires Fits(s, before) && Takes([t, t], before)
    ensures PopOperand(s, t) == Some(Cut(s, 1)) && PopOperand(Cut(s, 1), t) == Some(Cut(s, 2))
    ensures Matches(TopType(s), t) && Matches(TopType(Cut(s, 1)), t)
    ensures Based(s) && Kept(s, Cut(s, 2)) && Fits(Cut(s, 2), before[..|before| - 2])
  {
    hide Kept, PopTuple, PopOperand, Matches, Fits, AllMatch, TopType;
    assert Based(s) by { FitsBased(s, before); }
    var r := Cut(s, 1);
    assert [t] + [t] == [t, t];
    TakesInTurn([t], t, before);
    TakesGoes(s, before, [t]);
    PopOne(s, t);
    TakesGoes(r, before[..|before| - 1], [t]);
    PopOne(r, t);
    CutTwice(s, 1);
    KeptTransitive(s, r, Cut(r, 1));
    assert before[..|before| - 1][..|before| - 2] == before[..|before| - 2];
    TopMatches(s, before, t);
    TopMatches(r, before[..|before| - 1], t);
  }

  lemma TopMatches(s: State, before: seq<ValueType>, t: ValueType)
    requires Fits(s, before) && Takes([t], before)
    ensures Matches(TopType(s), t)
  {
    FitsSupplies(s, before, [t]);
    var have := Operands(s);
    assert have != [] ==> Matches(have[|have| - (|[t]| - 0)], [t][0]);
  }

  lemma SelectGoes(fn: FunctionDef, c: Context, op: Op, s: State, before: seq<ValueType>, after: seq<ValueType>)
    requires WellFormed(fn) && WellFormedOp(fn, op) && Agree(c, fn, s) && Fits(s, before)
    requires OpTyped(c, op, before, after) && op.Select?
    ensures Goes(fn, s, op, after)
  {
    hide Fits, PopTuple, PopOperand, AllMatch, Kept, WellFormed, Matches, TopType;
    assert Based(s) by { FitsBased(s, before); }
    var t := if op.ty != AnyType then op.ty
             else var u :| Simple(u) && Turns([u, u, I32], [u], before, after); u;
    var r, fewer := Cut(s, 1), before[..|before| - 1];
    assert [t, t] + [I32] == [t, t, I32];
    TakesInTurn([t, t], I32, before);
    TakesGoes(s, before, [I32]);
    PopOne(s, I32);
    PopTwo(r, t, fewer);
    KeptTransitive(s, r, Cut(r, 2));
    assert fewer[..|fewer| - 2] == before[..|before| - 3];
    var result := if op.ty != AnyType then t else if TopType(r) == NoType then TopType(Cut(r, 1)) else TopType(r);
    if op.ty == AnyType {
      PopAny(r, t, fewer);
      SimpleBelow(TopType(r), t);
      SimpleBelow(TopType(Cut(r, 1)), t);
    } else {
      EnabledIffValid(fn.mod.features, t);
    }
    MatchesSelf(t);
    assert AllMatch([result], [t]) by { MatchOne(result, t); }
    FitsPush(Cut(r, 2), fewer[..|fewer| - 2], [result], [t]);
    PushKept(s, Cut(r, 2), [result]);
    assert Step(fn, s, op) == Some(PushTuple(Cut(r, 2), [result]));
  }

  lemma MatchesSelf(t: ValueType)
    ensures Matches(t, t)
  {
  }

  lemma MatchOne(a: ValueType, t: ValueType)
    requires Matches(a, t)
    ensures AllMatch([a], [t])
  {
  }

  lemma PopAny(s: State, t: ValueType, before: seq<ValueType>)
    requires Fits(s, before) && Takes([t, t], before)
    ensures PopOperand(s, AnyType) == Some(Cut(s, 1)) && PopOperand(Cut(s, 1), AnyType) == Some(Cut(s, 2))
  {
    hide PopTuple, PopOperand, Kept, Fits;
    assert Takes([AnyType, AnyType], before);
    PopTwo(s, AnyType, before);
  }

  lemma PushKept(s: State, m: State, ts: seq<ValueType>)
    requires Kept(s, m)
    ensures Kept(s, PushTuple(m, ts))
  {
    assert (m.stack + ts)[..Last(s.control).outer] == m.stack[..Last(s.control).outer];
  }

  lemma PlainGoes(fn: FunctionDef, c: Context, op: Op, s: State, before: seq<ValueType>, after: seq<ValueType>)
    requires WellFormed(fn) && WellFormedOp(fn, op) && Agree(c, fn, s) && Fits(s, before)
    requires OpTyped(c, op, before, after) && op.Plain?
    ensures Goes(fn, s, op, after)
  {
    hide Fits, PopTuple, Turns, Kept, WellFormed;
    assert Based(s) by { FitsBased(s, before); }
    TurnGoes(s, before, op.sig.params, op.sig.results, after);
  }

  lemma OpGoes(fn: FunctionDef, c: Context, op: Op, s: State, before: seq<ValueType>, after: seq<ValueType>)
    requires WellFormed(fn) && WellFormedOp(fn, op) && Agree(c, fn, s) && Fits(s, before)
    requires OpTyped(c, op, before, after)
    ensures Goes(fn, s, op, after)
  {
    hide Goes, Fits, Agree, Takes, Turns, WellFormed;
    match op
    case Plain(_, _, _) => PlainGoes(fn, c, op, s, before, after);
    case Select(_) => SelectGoes(fn, c, op, s, before, after);
    case BrTable(_, _) => TableGoes(fn, c, op, s, before, after);
    case Drop | LocalGet(_) | LocalSet(_) | LocalTee(_) => LocalGoes(fn, c, op, s, before, after);
    case Br(_) | BrIf(_) | Return | Unreachable => BranchGoes(fn, c, op, s, before, after);
    case _ =>
  }

  // ----- bodies -----

  /** The run succeeds, stays in the context, and its operands stand for the declared ones. */
  ghost predicate Arrives(fn: FunctionDef, s: State, ops: seq<Op>, after: seq<ValueType>)
    requires WellFormed(fn) && AllWell(fn, ops)
  {
    var r := RunOn(fn, s, ops);
    r.Some? && Kept(s, r.value) && Fits(r.value, after)
  }

  lemma FitsGives(m: State, end: seq<ValueType>, results: seq<ValueType>)
    requires Fits(m, end) && AllMatch(end, results)
    ensures Gives(m, results)
  {
    assert end[|end| - |results|..] == end;
    FitsSupplies(m, end, results);
  }

  lemma OpenGoes(mod: Module, s: State, bt: BlockType, kind: Kind, ft: FuncType, before: seq<ValueType>)
    requires BlockTyped(mod, bt, ft) && Fits(s, before) && Takes(ft.params, before)
    ensures Based(s) && OpenOp(mod, s, bt, kind) == Some(Opened(s, kind, ft))
  {
    hide Supplies, Fits, BlockTyped, Opened, OpenOp, ValidateBlockType, AllMatch;
    BlockTypedIff(mod, bt, ft);
    FitsSupplies(s, before, ft.params);
    assert Based(s) by { FitsBased(s, before); }
    OpenIs(mod, s, bt, kind);
  }

  /** Behind the end of a construct. */
  lemma EndGoes(s: State, ft: FuncType, target: seq<ValueType>, e: State, m: State, before: seq<ValueType>,
      end: seq<ValueType>,
      mid: seq<ValueType>)
    requires Entered(s, ft, target, e) && Kept(e, m) && Fits(m, end) && AllMatch(end, ft.results)
    requires Last(e.control).kind == IfThen ==> ft.results == Last(e.control).elseParams
    requires Fits(s, before) && Turns(ft.params, ft.results, before, mid)
    ensures m.control != [] && EndOp(m) == Some(PushTuple(Cut(s, |ft.params|), ft.results))
    ensures var r := PushTuple(Cut(s, |ft.params|), ft.results); Kept(s, r) && Fits(r, mid)
  {
    hide Fits, Turns, AllMatch, Gives, Kept, EndOp, Cut;
    KeptOpen(e, m);
    FitsGives(m, end, ft.results);
    CloseIs(s, ft, target, e, m);
    TurnGoes(s, before, ft.params, ft.results, mid);
  }

  lemma {:induction false} Completes(fn: FunctionDef, c: Context, b: Body, s: State, before: seq<ValueType>,
      after: seq<ValueType>)
    requires WellFormed(fn) && AllWell(fn, Code(b)) && Agree(c, fn, s) && Fits(s, before) && Typed(c, b, before, after)
    ensures Arrives(fn, s, Code(b), after)
    decreases b, 1
  {
    hide Fits, Kept, WellFormed, Agree, AllWell, OpTyped, RunOn;
    match b
    case Done =>
      assert Kept(s, s) by { KeptSelf(s, before); }
      RunNothing(fn, s);
    case Then(op, rest) =>
      var mid :| OpTyped(c, op, before, mid) && Typed(c, rest, mid, after);
      RunHead(fn, s, op, Code(rest));
      OpGoes(fn, c, op, s, before, mid);
      var r := Step(fn, s, op).value;
      RestGoes(fn, c, rest, s, r, mid, after);
    case InBlock(bt, inner, rest) => BlockGoes(fn, c, b, s, before, after);
    case InLoop(bt, inner, rest) => BlockGoes(fn, c, b, s, before, after);
    case InIf(bt, yes, rest) => IfGoes(fn, c, b, s, before, after);
    case InIfElse(bt, yes, no, rest) => IfElseGoes(fn, c, b, s, before, after);
  }

  lemma KeptSelf(s: State, before: seq<ValueType>)
    requires Fits(s, before)
    ensures Kept(s, s)
  {
  }

  lemma RunNothing(fn: FunctionDef, s: State)
    requires WellFormed(fn) && AllWell(fn, [])
    ensures RunOn(fn, s, []) == Some(s)
  {
  }

  lemma RestGoes(fn: FunctionDef, c: Context, rest: Body, s: State, r: State, mid: seq<ValueType>,
      after: seq<ValueType>)
    requires WellFormed(fn) && AllWell(fn, Code(rest)) && Agree(c, fn, s) && Kept(s, r) && Fits(r, mid)
    requires Typed(c, rest, mid, after)
    ensures var m := RunOn(fn, r, Code(rest)); m.Some? && Kept(s, m.value) && Fits(m.value, after)
    decreases rest, 2
  {
    hide Fits, Kept, WellFormed, Agree, AllWell, RunOn, Typed;
    AgreeKept(c, fn, s, r);
    Completes(fn, c, rest, r, mid, after);
    KeptTransitive(s, r, RunOn(fn, r, Code(rest)).value);
  }

  /** From the start of a construct to behind its end. */
  lemma InnerGoes(fn: FunctionDef, c: Context, inner: Body, s: State, ft: FuncType, target: seq<ValueType>, e: State)
    returns (end: seq<ValueType>)
    requires WellFormed(fn) && AllWell(fn, Code(inner)) && Agree(c, fn, s) && Entered(s, ft, target, e)
    requires Fills(c, target, inner, ft.params, ft.results)
    ensures Arrives(fn, e, Code(inner), end) && AllMatch(end, ft.results)
    decreases inner, 2
  {
    hide Fits, Kept, WellFormed, Agree, AllWell, RunOn, Typed, Entered, AllMatch;
    end :| Typed(Inside(c, target), inner, ft.params, end) && AllMatch(end, ft.results);
    EnteredAgrees(c, fn, s, ft, target, e);
    Completes(fn, Inside(c, target), inner, e, ft.params, end);
  }

  lemma BlockGoes(fn: FunctionDef, c: Context, b: Body, s: State, before: seq<ValueType>, after: seq<ValueType>)
    requires WellFormed(fn) && AllWell(fn, Code(b)) && Agree(c, fn, s) && Fits(s, before) && Typed(c, b, before, after)
    requires b.InBlock? || b.InLoop?
    ensures Arrives(fn, s, Code(b), after)
    decreases b, 0
  {
    hide Fits, Kept, WellFormed, Agree, AllWell, RunOn, Entered, AllMatch, Opened, OpenOp, EndOp, BlockTyped, Fills,
         Cut;
    var kind, op := if b.InLoop? then LoopBody else BlockBody, if b.InLoop? then Loop(b.bt) else Block(b.bt);
    var ft, mid :|
      && BlockTyped(c.mod, b.bt, ft) && Turns(ft.params, ft.results, before, mid)
      && Fills(c, if b.InLoop? then ft.params else ft.results, b.inner, ft.params, ft.results) && Typed(c, b.rest, mid, after);
    var target := if b.InLoop? then ft.params else ft.results;
    var inner, rest := Code(b.inner), Code(b.rest);
    assert Code(b) == [op] + (inner + [End] + rest);
    RunHead(fn, s, op, inner + [End] + rest);
    assert c.mod == fn.mod by { ContextOf(c, fn, s); }
    OpenGoes(fn.mod, s, b.bt, kind, ft, before);
    var e := Opened(s, kind, ft);
    OpenedEnters(s, kind, ft);
    RunTail(fn, e, inner, End, rest);
    var end := InnerGoes(fn, c, b.inner, s, ft, target, e);
    var m := RunOn(fn, e, inner).value;
    assert Last(e.control).kind == kind by { OpenedKind(s, kind, ft); }
    EndGoes(s, ft, target, e, m, before, end, mid);
    StepOpens(fn, s, op, kind);
    StepEnds(fn, m);
    RestGoes(fn, c, b.rest, s, PushTuple(Cut(s, |ft.params|), ft.results), mid, after);
  }

  lemma ContextOf(c: Context, fn: FunctionDef, s: State)
    requires Agree(c, fn, s)
    ensures c.mod == fn.mod
  {
  }

  lemma OpenedKind(s: State, kind: Kind, ft: FuncType)
    requires Based(s)
    ensures var top := Last(Opened(s, kind, ft).control); top.kind == kind && (kind == IfThen ==> top.elseParams == ft.params)
  {
  }

  lemma StepOpens(fn: FunctionDef, s: State, op: Op, kind: Kind)
    requires WellFormed(fn) && Based(s) && (op.Block? || op.Loop?) && kind == if op.Loop? then LoopBody else BlockBody
    ensures Step(fn, s, op) == OpenOp(fn.mod, s, op.bt, kind)
  {
    hide OpenOp, WellFormed;
  }

  lemma StepEnds(fn: FunctionDef, m: State)
    requires WellFormed(fn) && m.control != []
    ensures Step(fn, m, End) == EndOp(m) && Step(fn, m, Else) == ElseOp(m)
  {
    hide EndOp, ElseOp, WellFormed;
  }

  lemma StepTests(fn: FunctionDef, s: State, bt: BlockType)
    requires WellFormed(fn) && s.control != []
    ensures Step(fn, s, If(bt)) == match PopOperand(s, I32) case None => None case Some(r) => OpenOp(fn.mod, r, bt, IfThen)
  {
    hide OpenOp, WellFormed;
  }

  /** The condition is popped, then the construct is opened. */
  lemma TestGoes(fn: FunctionDef, c: Context, s: State, bt: BlockType, ft: FuncType, before: seq<ValueType>,
      mid: seq<ValueType>)
    requires WellFormed(fn) && Agree(c, fn, s) && Fits(s, before)
    requires BlockTyped(fn.mod, bt, ft) && Turns(ft.params + [I32], ft.results, before, mid)
    ensures before != [] && Based(s) && Kept(s, Cut(s, 1)) && Fits(Cut(s, 1), Front(before)) && Agree(c, fn, Cut(s, 1))
    ensures Turns(ft.params, ft.results, Front(before), mid)
    ensures Step(fn, s, If(bt)) == Some(Opened(Cut(s, 1), IfThen, ft))
  {
    hide Fits, Kept, WellFormed, Agree, AllMatch, Opened, OpenOp, BlockTyped, PopTuple, PopOperand;
    TakesInTurn(ft.params, I32, before);
    TakesGoes(s, before, [I32]);
    assert Based(s) by { FitsBased(s, before); }
    PopOne(s, I32);
    AgreeKept(c, fn, s, Cut(s, 1));
    assert before[..|before| - (|ft.params| + 1)] == Front(before)[..|Front(before)| - |ft.params|];
    OpenGoes(fn.mod, Cut(s, 1), bt, IfThen, ft, Front(before));
    StepTests(fn, s, bt);
  }

  lemma IfGoes(fn: FunctionDef, c: Context, b: Body, s: State, before: seq<ValueType>, after: seq<ValueType>)
    requires WellFormed(fn) && AllWell(fn, Code(b)) && Agree(c, fn, s) && Fits(s, before) && Typed(c, b, before, after)
    requires b.InIf?
    ensures Arrives(fn, s, Code(b), after)
    decreases b, 0
  {
    hide Fits, Kept, WellFormed, Agree, AllWell, RunOn, Entered, AllMatch, Opened, OpenOp, EndOp, BlockTyped, Fills,
         Turns, Cut;
    var ft, mid :|
      && BlockTyped(c.mod, b.bt, ft) && Turns(ft.params + [I32], ft.results, before, mid) && ft.params == ft.results
      && Fills(c, ft.results, b.yes, ft.params, ft.results) && Typed(c, b.rest, mid, after);
    var yes, rest := Code(b.yes), Code(b.rest);
    assert Code(b) == [If(b.bt)] + (yes + [End] + rest);
    RunHead(fn, s, If(b.bt), yes + [End] + rest);
    assert c.mod == fn.mod by { ContextOf(c, fn, s); }
    TestGoes(fn, c, s, b.bt, ft, before, mid);
    var t := Cut(s, 1);
    var e := Opened(t, IfThen, ft);
    OpenedEnters(t, IfThen, ft);
    OpenedKind(t, IfThen, ft);
    RunTail(fn, e, yes, End, rest);
    var end := InnerGoes(fn, c, b.yes, t, ft, ft.results, e);
    var m := RunOn(fn, e, yes).value;
    EndGoes(t, ft, ft.results, e, m, Front(before), end, mid);
    StepEnds(fn, m);
    var r := PushTuple(Cut(t, |ft.params|), ft.results);
    KeptTransitive(s, t, r);
    RestGoes(fn, c, b.rest, s, r, mid, after);
  }

  lemma SwitchGoes(fn: FunctionDef, t: State, ft: FuncType, m: State, end: seq<ValueType>)
    requires WellFormed(fn) && Based(t) && Kept(Opened(t, IfThen, ft), m) && Fits(m, end) && AllMatch(end, ft.results)
    ensures Step(fn, m, Else) == Some(Switched(t, ft)) && Entered(t, ft, ft.results, Switched(t, ft))
    ensures Last(Switched(t, ft).control).kind == IfElse
  {
    hide WellFormed, Fits, AllMatch, Gives, ElseOp, EndOp;
    FitsGives(m, end, ft.results);
    SwitchIs(t, ft, m);
    SwitchedEnters(t, ft);
    StepEnds(fn, m);
  }

  lemma IfElseGoes(fn: FunctionDef, c: Context, b: Body, s: State, before: seq<ValueType>, after: seq<ValueType>)
    requires WellFormed(fn) && AllWell(fn, Code(b)) && Agree(c, fn, s) && Fits(s, before) && Typed(c, b, before, after)
    requires b.InIfElse?
    ensures Arrives(fn, s, Code(b), after)
    decreases b, 0
  {
    hide Fits, Kept, WellFormed, Agree, AllWell, RunOn, Entered, AllMatch, Opened, Switched, OpenOp, EndOp, BlockTyped,
         Fills, Turns,
      Cut;
    var ft, mid :|
      && BlockTyped(c.mod, b.bt, ft) && Turns(ft.params + [I32], ft.results, before, mid)
      && Fills(c, ft.results, b.yes, ft.params, ft.results) && Fills(c, ft.results, b.no, ft.params, ft.results)
      && Typed(c, b.rest, mid, after);
    var yes, no, rest := Code(b.yes), Code(b.no), Code(b.rest);
    assert Code(b) == [If(b.bt)] + (yes + [Else] + (no + [End] + rest));
    RunHead(fn, s, If(b.bt), yes + [Else] + (no + [End] + rest));
    assert c.mod == fn.mod by { ContextOf(c, fn, s); }
    TestGoes(fn, c, s, b.bt, ft, before, mid);
    var t := Cut(s, 1);
    var e := Opened(t, IfThen, ft);
    OpenedEnters(t, IfThen, ft);
    RunTail(fn, e, yes, Else, no + [End] + rest);
    var end := InnerGoes(fn, c, b.yes, t, ft, ft.results, e);
    var m := RunOn(fn, e, yes).value;
    SwitchGoes(fn, t, ft, m, end);
    var e2 := Switched(t, ft);
    RunTail(fn, e2, no, End, rest);
    var end2 := InnerGoes(fn, c, b.no, t, ft, ft.results, e2);
    var m2 := RunOn(fn, e2, no).value;
    EndGoes(t, ft, ft.results, e2, m2, Front(before), end2, mid);
    StepEnds(fn, m2);
    var r := PushTuple(Cut(t, |ft.params|), ft.results);
    KeptTransitive(s, t, r);
    RestGoes(fn, c, b.rest, s, r, mid, after);
  }
}
