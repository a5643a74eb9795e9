/** The body of an accepted construct is typed, given that it is nested. */
module TypingBodies {
  import opened IR
  import opened Wrappers
  import opened V = Validator
  import opened Typing
  import opened TypedOperands
  import opened TypedRuns
  import opened TypingComplete
  import opened TypingSound

  // ----- staying in the context -----

  lemma StepStays(fn: FunctionDef, op: Op, s: State)
    requires WellFormed(fn) && WellFormedOp(fn, op) && Based(s) && !Structural(op) && Step(fn, s, op).Some?
    ensures Kept(s, Step(fn, s, op).value)
  {
    hide Supplies, PopTuple, PopOperand, Kept, EnterUnreachable, ValidTuple, TableTargetsFit, SelectOp;
    SuppliesNothing(s);
    match op {
      case Br(depth) =>
        PopTupleIs(s, Target(s, depth).value.params);
        LeavesKept(s, |Target(s, depth).value.params|);
      case BrIf(depth) =>
        var ts := Target(s, depth).value.params;
        PopOperandIs(s, I32);
        PopTupleIs(Cut(s, 1), ts);
        CutTwice(s, |ts|);
        CutKept(s, |ts| + 1, ts);
      case BrTable(table, default) =>
        PopOperandIs(s, I32);
        var ts := Target(s, default).value.params;
        PopTupleIs(Cut(s, 1), ts);
        CutTwice(s, |ts|);
        LeavesKept(s, |ts| + 1);
      case Return =>
        PopTupleIs(s, Signature(fn).results);
        LeavesKept(s, |Signature(fn).results|);
      case Unreachable => LeavesKept(s, 0);
      case Drop =>
        PopOperandIs(s, AnyType);
        CutKept(s, 1, []);
      case Select(ty) => SelectStays(fn.mod.features, s, ty);
      case LocalGet(i) => CutKept(s, 0, [LocalTypes(fn)[i]]);
      case LocalSet(i) =>
        PopOperandIs(s, LocalTypes(fn)[i]);
        CutKept(s, 1, []);
      case LocalTee(i) =>
        PopOperandIs(s, LocalTypes(fn)[i]);
        CutKept(s, 1, [TopType(s)]);
      case Plain(_, sig, _) =>
        PopTupleIs(s, sig.params);
        CutKept(s, |sig.params|, sig.results);
      case _ =>
    }
  }

  lemma SelectStays(features: FeatureSpec, s: State, ty: ValueType)
    requires Based(s) && SelectOp(features, s, ty).Some?
    ensures Kept(s, SelectOp(features, s, ty).value)
  {
    hide Supplies, PopOperand, Kept, Cut;
    var s1 := Cut(s, 1);
    PopOperandIs(s, I32);
    PopOperandIs(s1, ty);
    PopOperandIs(Cut(s1, 1), ty);
    SelectPops(s, ty);
    var f, g := TopType(s1), TopType(Cut(s1, 1));
    CutKept(s, 3, [f]);
    CutKept(s, 3, [g]);
    CutKept(s, 3, [ty]);
  }

  // ----- the parts of a construct -----

  /** Every instruction without a body of its own is one. */
  predicate Nested(b: Body) {
    match b
    case Done => true
    case Then(op, rest) => !Structural(op) && Nested(rest)
    case InBlock(_, inner, rest) => Nested(inner) && Nested(rest)
    case InLoop(_, inner, rest) => Nested(inner) && Nested(rest)
    case InIf(_, yes, rest) => Nested(yes) && Nested(rest)
    case InIfElse(_, yes, no, rest) => Nested(yes) && Nested(no) && Nested(rest)
  }

  /** A construct of type `ft` is entered in `e`, its body ends in `m`, and the rest starts in `r`. */
  ghost predicate Passed(fn: FunctionDef, s: State, kind: Kind, bt: BlockType, ft: FuncType, ops: seq<Op>, m: State)
    requires WellFormed(fn) && AllWell(fn, ops)
  {
    && Based(s) && ValidateBlockType(fn.mod, bt) == Some(ft) && Supplies(s, ft.params)
    && RunOn(fn, Opened(s, kind, ft), ops) == Some(m)
  }

  lemma BlockParts(fn: FunctionDef, b: Body, s: State) returns (ft: FuncType, m: State, r: State)
    requires WellFormed(fn) && AllWell(fn, Code(b)) && (b.InBlock? || b.InLoop?)
    requires Based(s) && RunOn(fn, s, Code(b)).Some?
    ensures AllWell(fn, Code(b.inner)) && AllWell(fn, Code(b.rest))
    ensures Passed(fn, s, if b.InLoop? then LoopBody else BlockBody, b.bt, ft, Code(b.inner), m)
    ensures Step(fn, m, End) == Some(r) && RunOn(fn, r, Code(b.rest)) == RunOn(fn, s, Code(b))
  {
    hide WellFormed, AllWell, RunOn, Opened, OpenOp, Supplies, ValidateBlockType, Based, Step;
    var kind, op := if b.InLoop? then LoopBody else BlockBody, if b.InLoop? then Loop(b.bt) else Block(b.bt);
    var inner, rest := Code(b.inner), Code(b.rest);
    assert Code(b) == [op] + (inner + [End] + rest);
    RunHead(fn, s, op, inner + [End] + rest);
    StepOpens(fn, s, op, kind);
    OpenIs(fn.mod, s, b.bt, kind);
    ft := ValidateBlockType(fn.mod, b.bt).value;
    var e := Opened(s, kind, ft);
    RunTail(fn, e, inner, End, rest);
    m := RunOn(fn, e, inner).value;
    r := Step(fn, m, End).value;
  }

  lemma TestParts(fn: FunctionDef, s: State, bt: BlockType, ops: seq<Op>) returns (ft: FuncType)
    requires WellFormed(fn) && AllWell(fn, [If(bt)] + ops) && Based(s) && RunOn(fn, s, [If(bt)] + ops).Some?
    ensures AllWell(fn, ops) && Supplies(s, [I32]) && ValidateBlockType(fn.mod, bt) == Some(ft)
    ensures Step(fn, s, If(bt)) == Some(Opened(Cut(s, 1), IfThen, ft))
    ensures Supplies(Cut(s, 1), ft.params) && Kept(s, Cut(s, 1))
    ensures RunOn(fn, Opened(Cut(s, 1), IfThen, ft), ops) == RunOn(fn, s, [If(bt)] + ops)
  {
    hide WellFormed, AllWell, RunOn, Opened, OpenOp, Supplies, ValidateBlockType, Step, PopOperand, Cut, Kept;
    RunHead(fn, s, If(bt), ops);
    StepTests(fn, s, bt);
    PopOperandIs(s, I32);
    CutKept(s, 1, []);
    OpenIs(fn.mod, Cut(s, 1), bt, IfThen);
    ft := ValidateBlockType(fn.mod, bt).value;
  }

  lemma IfParts(fn: FunctionDef, b: Body, s: State) returns (ft: FuncType, m: State, r: State)
    requires WellFormed(fn) && AllWell(fn, Code(b)) && b.InIf?
    requires Based(s) && RunOn(fn, s, Code(b)).Some?
    ensures AllWell(fn, Code(b.yes)) && AllWell(fn, Code(b.rest))
    ensures Supplies(s, [I32]) && Kept(s, Cut(s, 1)) && Passed(fn, Cut(s, 1), IfThen, b.bt, ft, Code(b.yes), m)
    ensures Step(fn, m, End) == Some(r) && RunOn(fn, r, Code(b.rest)) == RunOn(fn, s, Code(b))
  {
    hide WellFormed, AllWell, RunOn, Opened, Supplies, ValidateBlockType, Step, Cut, Kept;
    var yes, rest := Code(b.yes), Code(b.rest);
    assert Code(b) == [If(b.bt)] + (yes + [End] + rest);
    ft := TestParts(fn, s, b.bt, yes + [End] + rest);
    var e := Opened(Cut(s, 1), IfThen, ft);
    RunTail(fn, e, yes, End, rest);
    m := RunOn(fn, e, yes).value;
    r := Step(fn, m, End).value;
  }

  lemma IfElseParts(fn: FunctionDef, b: Body, s: State) returns (ft: FuncType, m: State, e: State, m2: State, r: State)
    requires WellFormed(fn) && AllWell(fn, Code(b)) && b.InIfElse?
    requires Based(s) && RunOn(fn, s, Code(b)).Some?
    ensures AllWell(fn, Code(b.yes)) && AllWell(fn, Code(b.no)) && AllWell(fn, Code(b.rest))
    ensures Supplies(s, [I32]) && Kept(s, Cut(s, 1)) && Passed(fn, Cut(s, 1), IfThen, b.bt, ft, Code(b.yes), m)
    ensures Step(fn, m, Else) == Some(e) && RunOn(fn, e, Code(b.no)) == Some(m2)
    ensures Step(fn, m2, End) == Some(r) && RunOn(fn, r, Code(b.rest)) == RunOn(fn, s, Code(b))
  {
    hide WellFormed, AllWell, RunOn, Opened, Supplies, ValidateBlockType, Step, Cut, Kept;
    var yes, no, rest := Code(b.yes), Code(b.no), Code(b.rest);
    assert Code(b) == [If(b.bt)] + (yes + [Else] + (no + [End] + rest));
    ft := TestParts(fn, s, b.bt, yes + [Else] + (no + [End] + rest));
    var start := Opened(Cut(s, 1), IfThen, ft);
    RunTail(fn, start, yes, Else, no + [End] + rest);
    m := RunOn(fn, start, yes).value;
    e := Step(fn, m, Else).value;
    RunTail(fn, e, no, End, rest);
    m2 := RunOn(fn, e, no).value;
    r := Step(fn, m2, End).value;
  }

  // ----- a body stays in its context -----

  lemma EndStays(fn: FunctionDef, s: State, ft: FuncType, target: seq<ValueType>, e: State, m: State)
    requires WellFormed(fn) && Entered(s, ft, target, e) && Kept(e, m) && Step(fn, m, End).Some?
    ensures Step(fn, m, End) == Some(PushTuple(Cut(s, |ft.params|), ft.results)) && Gives(m, ft.results)
    ensures Last(e.control).kind == IfThen ==> ft.results == Last(e.control).elseParams
    ensures Kept(s, PushTuple(Cut(s, |ft.params|), ft.results))
  {
    hide WellFormed, Gives, EndOp, ElseOp, Step;
    StepEnds(fn, m);
    CloseIs(s, ft, target, e, m);
    CutKept(s, |ft.params|, ft.results);
  }

  lemma ElseStays(fn: FunctionDef, s: State, ft: FuncType, m: State)
    requires WellFormed(fn) && Based(s) && Kept(Opened(s, IfThen, ft), m) && Step(fn, m, Else).Some?
    ensures Step(fn, m, Else) == Some(Switched(s, ft)) && Gives(m, ft.results)
    ensures Entered(s, ft, ft.results, Switched(s, ft)) && Last(Switched(s, ft).control).kind == IfElse
  {
    hide WellFormed, Gives, EndOp, ElseOp, Step;
    StepEnds(fn, m);
    SwitchIs(s, ft, m);
    SwitchedEnters(s, ft);
  }

  lemma {:induction false} Stays(fn: FunctionDef, b: Body, s: State)
    requires WellFormed(fn) && AllWell(fn, Code(b)) && Nested(b) && Based(s) && RunOn(fn, s, Code(b)).Some?
    ensures Kept(s, RunOn(fn, s, Code(b)).value)
    decreases b, 1
  {
    hide WellFormed, AllWell, RunOn, Supplies, ValidateBlockType, Step, Cut, Kept, Opened, Switched, Entered, Gives,
         Based;
    match b
    case Done =>
      RunNothing(fn, s);
      SelfKept(s);
    case Then(op, rest) =>
      RunHead(fn, s, op, Code(rest));
      StepStays(fn, op, s);
      RestStays(fn, rest, s, Step(fn, s, op).value);
    case InBlock(_, inner, rest) => BlockStays(fn, b, s);
    case InLoop(_, inner, rest) => BlockStays(fn, b, s);
    case InIf(_, yes, rest) =>
      var ft, m, r := IfParts(fn, b, s);
      var t := Cut(s, 1);
      OpenedEnters(t, IfThen, ft);
      KeptOpen(s, t);
      EnteredBased(t, ft, ft.results, Opened(t, IfThen, ft));
      Stays(fn, yes, Opened(t, IfThen, ft));
      EndStays(fn, t, ft, ft.results, Opened(t, IfThen, ft), m);
      KeptTransitive(s, t, r);
      RestStays(fn, rest, s, r);
    case InIfElse(_, yes, no, rest) =>
      var ft, m, e, m2, r := IfElseParts(fn, b, s);
      var t := Cut(s, 1);
      OpenedEnters(t, IfThen, ft);
      KeptOpen(s, t);
      EnteredBased(t, ft, ft.results, Opened(t, IfThen, ft));
      Stays(fn, yes, Opened(t, IfThen, ft));
      ElseStays(fn, t, ft, m);
      EnteredBased(t, ft, ft.results, e);
      Stays(fn, no, e);
      EndStays(fn, t, ft, ft.results, e, m2);
      KeptTransitive(s, t, r);
      RestStays(fn, rest, s, r);
  }

  lemma SelfKept(s: State)
    requires Based(s)
    ensures Kept(s, s)
  {
  }

  lemma EnteredBased(s: State, ft: FuncType, target: seq<ValueType>, e: State)
    requires Entered(s, ft, target, e)
    ensures Based(e)
  {
  }

  lemma RestStays(fn: FunctionDef, rest: Body, s: State, r: State)
    requires WellFormed(fn) && AllWell(fn, Code(rest)) && Nested(rest) && Kept(s, r) && RunOn(fn, r, Code(rest)).Some?
    ensures Kept(s, RunOn(fn, r, Code(rest)).value)
    decreases rest, 2
  {
    hide WellFormed, AllWell, RunOn, Kept, Based, Nested;
    KeptOpen(s, r);
    Stays(fn, rest, r);
    KeptTransitive(s, r, RunOn(fn, r, Code(rest)).value);
  }

  lemma BlockStays(fn: FunctionDef, b: Body, s: State)
    requires WellFormed(fn) && AllWell(fn, Code(b)) && Nested(b) && Based(s) && RunOn(fn, s, Code(b)).Some?
    requires b.InBlock? || b.InLoop?
    ensures Kept(s, RunOn(fn, s, Code(b)).value)
    decreases b, 0
  {
    hide WellFormed, AllWell, RunOn, Supplies, ValidateBlockType, Step, Cut, Kept, Opened, Entered, Gives, Based;
    var ft, m, r := BlockParts(fn, b, s);
    var kind := if b.InLoop? then LoopBody else BlockBody;
    var target := if b.InLoop? then ft.params else ft.results;
    var e := Opened(s, kind, ft);
    OpenedEnters(s, kind, ft);
    EnteredBased(s, ft, target, e);
    Stays(fn, b.inner, e);
    EndStays(fn, s, ft, target, e, m);
    RestStays(fn, b.rest, s, r);
  }

  // ----- a body is typed -----

  /** Whatever operands of the bottom type the body leaves, some at its start make it typed. */
  ghost predicate TypedFrom(fn: FunctionDef, c: Context, b: Body, s: State, n: nat, k: nat)
    requires WellFormed(fn) && AllWell(fn, Code(b))
  {
    var r := RunOn(fn, s, Code(b));
    r.Some? && Based(r.value) && Admits(s, k) && Typed(c, b, Stack(s, k), Stack(r.value, n))
  }

  /** The end of a construct: as many operands of the bottom type as are missing. */
  lemma GivesMatch(m: State, results: seq<ValueType>)
    requires Based(m) && Gives(m, results)
    ensures var n := |results| - |Operands(m)|; n >= 0 && Admits(m, n) && AllMatch(Stack(m, n), results)
  {
    var n := |results| - |Operands(m)|;
    StackTakes(m, n, results);
    assert Stack(m, n)[|Stack(m, n)| - |results|..] == Stack(m, n);
  }

  lemma EnteredStack(s: State, ft: FuncType, target: seq<ValueType>, e: State, k: nat)
    requires Entered(s, ft, target, e) && Admits(e, k)
    ensures k == 0 && Stack(e, k) == ft.params
  {
  }

  /** The body of a construct fills it. */
  lemma InnerTyped(fn: FunctionDef, c: Context, b: Body, s: State, ft: FuncType, target: seq<ValueType>, e: State,
      m: State)
    requires WellFormed(fn) && AllWell(fn, Code(b)) && Nested(b) && Agree(c, fn, s) && Entered(s, ft, target, e)
    requires RunOn(fn, e, Code(b)) == Some(m) && Based(m) && Gives(m, ft.results)
    ensures Fills(c, target, b, ft.params, ft.results)
    decreases b, 2
  {
    hide WellFormed, AllWell, RunOn, Nested, Agree, Entered, Gives, Typed, AllMatch, Stack, Operands;
    GivesMatch(m, ft.results);
    var n := |ft.results| - |Operands(m)|;
    EnteredBased(s, ft, target, e);
    EnteredAgrees(c, fn, s, ft, target, e);
    var k := BodyTyped(fn, Inside(c, target), b, e, n);
    EnteredStack(s, ft, target, e, k);
  }

  lemma RestTyped(fn: FunctionDef, c: Context, rest: Body, s: State, r: State, n: nat) returns (k: nat)
    requires WellFormed(fn) && AllWell(fn, Code(rest)) && Nested(rest) && Agree(c, fn, s) && Kept(s, r)
    requires RunOn(fn, r, Code(rest)).Some? && Admits(RunOn(fn, r, Code(rest)).value, n)
    ensures TypedFrom(fn, c, rest, r, n, k)
    decreases rest, 2
  {
    hide WellFormed, AllWell, RunOn, Nested, Agree, Kept, TypedFrom, Admits;
    KeptOpen(s, r);
    AgreeKept(c, fn, s, r);
    k := BodyTyped(fn, c, rest, r, n);
  }

  lemma {:induction false} BodyTyped(fn: FunctionDef, c: Context, b: Body, s: State, n: nat) returns (k: nat)
    requires WellFormed(fn) && AllWell(fn, Code(b)) && Nested(b) && Agree(c, fn, s) && Based(s)
    requires RunOn(fn, s, Code(b)).Some? && Admits(RunOn(fn, s, Code(b)).value, n)
    ensures TypedFrom(fn, c, b, s, n, k)
    decreases b, 1
  {
    hide WellFormed, AllWell, RunOn, Agree, Kept, Step, Stack, OpTyped, Operands;
    match b
    case Done =>
      RunNothing(fn, s);
      k := n;
    case Then(op, rest) =>
      RunHead(fn, s, op, Code(rest));
      StepStays(fn, op, s);
      var r := Step(fn, s, op).value;
      var j := RestTyped(fn, c, rest, s, r, n);
      k := OpBack(fn, c, op, s, j);
    case InBlock(_, _, _) => k := BlockTypes(fn, c, b, s, n);
    case InLoop(_, _, _) => k := BlockTypes(fn, c, b, s, n);
    case InIf(_, _, _) => k := IfTypes(fn, c, b, s, n);
    case InIfElse(_, _, _, _) => k := IfElseTypes(fn, c, b, s, n);
  }

  lemma BlockTypes(fn: FunctionDef, c: Context, b: Body, s: State, n: nat) returns (k: nat)
    requires WellFormed(fn) && AllWell(fn, Code(b)) && Nested(b) && Agree(c, fn, s) && Based(s)
    requires RunOn(fn, s, Code(b)).Some? && Admits(RunOn(fn, s, Code(b)).value, n) && (b.InBlock? || b.InLoop?)
    ensures TypedFrom(fn, c, b, s, n, k)
    decreases b, 0
  {
    hide WellFormed, AllWell, RunOn, Agree, Kept, Step, Stack, Cut, Opened, Entered, Gives, Supplies, ValidateBlockType,
         Turns,
         Fills, BlockTyped, Operands, Wanted;
    var ft, m, r := BlockParts(fn, b, s);
    var kind := if b.InLoop? then LoopBody else BlockBody;
    var target := if b.InLoop? then ft.params else ft.results;
    var e := Opened(s, kind, ft);
    OpenedEnters(s, kind, ft);
    EnteredBased(s, ft, target, e);
    Stays(fn, b.inner, e);
    KeptOpen(e, m);
    EndStays(fn, s, ft, target, e, m);
    var j := RestTyped(fn, c, b.rest, s, r, n);
    InnerTyped(fn, c, b.inner, s, ft, target, e, m);
    TurnBack(s, ft.params, ft.results, j);
    k := Wanted(s, ft.params, j);
    ContextOf(c, fn, s);
    BlockTypedIff(fn.mod, b.bt, ft);
  }

  /** The condition on top of the parameters. */
  lemma TestBack(s: State, params: seq<ValueType>, results: seq<ValueType>, n: nat) returns (k: nat)
    requires Based(s) && Supplies(s, [I32]) && Supplies(Cut(s, 1), params)
    requires Admits(PushTuple(Cut(Cut(s, 1), |params|), results), n)
    ensures Admits(s, k)
    ensures Turns(params + [I32], results, Stack(s, k), Stack(PushTuple(Cut(Cut(s, 1), |params|), results), n))
  {
    hide Supplies, Turns, Stack, Cut;
    PopsTwice(s, params, I32);
    TurnBack(s, params + [I32], results, n);
    k := Wanted(s, params + [I32], n);
  }

  lemma IfTypes(fn: FunctionDef, c: Context, b: Body, s: State, n: nat) returns (k: nat)
    requires WellFormed(fn) && AllWell(fn, Code(b)) && Nested(b) && Agree(c, fn, s) && Based(s)
    requires RunOn(fn, s, Code(b)).Some? && Admits(RunOn(fn, s, Code(b)).value, n) && b.InIf?
    ensures TypedFrom(fn, c, b, s, n, k)
    decreases b, 0
  {
    hide WellFormed, AllWell, RunOn, Agree, Kept, Step, Stack, Cut, Opened, Entered, Gives, Supplies, ValidateBlockType,
         Turns,
         Fills, BlockTyped, Operands, Wanted;
    var ft, m, r := IfParts(fn, b, s);
    var t := Cut(s, 1);
    var e := Opened(t, IfThen, ft);
    KeptOpen(s, t);
    OpenedEnters(t, IfThen, ft);
    OpenedKind(t, IfThen, ft);
    EnteredBased(t, ft, ft.results, e);
    Stays(fn, b.yes, e);
    KeptOpen(e, m);
    EndStays(fn, t, ft, ft.results, e, m);
    KeptTransitive(s, t, r);
    var j := RestTyped(fn, c, b.rest, s, r, n);
    AgreeKept(c, fn, s, t);
    InnerTyped(fn, c, b.yes, t, ft, ft.results, e, m);
    k := TestBack(s, ft.params, ft.results, j);
    ContextOf(c, fn, s);
    BlockTypedIff(fn.mod, b.bt, ft);
  }

  lemma IfElseTypes(fn: FunctionDef, c: Context, b: Body, s: State, n: nat) returns (k: nat)
    requires WellFormed(fn) && AllWell(fn, Code(b)) && Nested(b) && Agree(c, fn, s) && Based(s)
    requires RunOn(fn, s, Code(b)).Some? && Admits(RunOn(fn, s, Code(b)).value, n) && b.InIfElse?
    ensures TypedFrom(fn, c, b, s, n, k)
    decreases b, 0
  {
    hide WellFormed, AllWell, RunOn, Agree, Kept, Step, Stack, Cut, Opened, Switched, Entered, Gives, Supplies,
         ValidateBlockType,
         Turns, Fills, BlockTyped, Operands, Wanted;
    var ft, m, e2, m2, r := IfElseParts(fn, b, s);
    var t := Cut(s, 1);
    var e := Opened(t, IfThen, ft);
    KeptOpen(s, t);
    OpenedEnters(t, IfThen, ft);
    EnteredBased(t, ft, ft.results, e);
    Stays(fn, b.yes, e);
    KeptOpen(e, m);
    ElseStays(fn, t, ft, m);
    EnteredBased(t, ft, ft.results, e2);
    Stays(fn, b.no, e2);
    KeptOpen(e2, m2);
    EndStays(fn, t, ft, ft.results, e2, m2);
    KeptTransitive(s, t, r);
    var j := RestTyped(fn, c, b.rest, s, r, n);
    AgreeKept(c, fn, s, t);
    InnerTyped(fn, c, b.yes, t, ft, ft.results, e, m);
    InnerTyped(fn, c, b.no, t, ft, ft.results, e2, m2);
    k := TestBack(s, ft.params, ft.results, j);
    ContextOf(c, fn, s);
    BlockTypedIff(fn.mod, b.bt, ft);
  }
}
