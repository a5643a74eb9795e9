/** The validator accepts exactly the functions that are a nested body and well typed. */
module TypingExact {
  import opened IR
  import opened Wrappers
  import opened V = Validator
  import opened Typing
  import opened TypedOperands
  import opened TypedRuns
  import opened TypingComplete
  import opened TypingSound
  import opened TypingBodies

  /** The stream from `s` on starts with a body that ends in `m`, before the operator at `k`, which closes
      or switches the context and leads to `q`. */
  ghost predicate Parsed(fn: FunctionDef, s: State, ops: seq<Op>, b: Body, k: nat, m: State, q: State)
    requires WellFormed(fn) && AllWell(fn, ops)
  {
    && k < |ops| && ops[..k] == Code(b) && Nested(b) && (ops[k].End? || ops[k].Else?)
    && AllWell(fn, Code(b)) && RunOn(fn, s, Code(b)) == Some(m) && Kept(s, m)
    && Step(fn, m, ops[k]) == Some(q) && AllWell(fn, ops[k + 1..]) && RunOn(fn, q, ops[k + 1..]) == RunOn(fn, s, ops)
  }

  /** The stream closes the innermost context of `s`. */
  ghost predicate Closes(fn: FunctionDef, s: State, ops: seq<Op>)
    requires WellFormed(fn) && AllWell(fn, ops)
  {
    Based(s) && RunOn(fn, s, ops).Some? && |RunOn(fn, s, ops).value.control| < |s.control|
  }

  lemma FirstOf(fn: FunctionDef, s: State, ops: seq<Op>)
    requires WellFormed(fn) && AllWell(fn, ops) && Closes(fn, s, ops)
    ensures ops != [] && WellFormedOp(fn, ops[0]) && AllWell(fn, ops[1..])
    ensures Step(fn, s, ops[0]).Some? && RunOn(fn, Step(fn, s, ops[0]).value, ops[1..]) == RunOn(fn, s, ops)
  {
    hide WellFormed, WellFormedOp, Step;
    if ops != [] {
      assert ops == [ops[0]] + ops[1..];
      RunHead(fn, s, ops[0], ops[1..]);
    }
  }

  lemma WellParts(fn: FunctionDef, ops: seq<Op>, k: nat)
    requires AllWell(fn, ops) && k <= |ops|
    ensures AllWell(fn, ops[..k]) && AllWell(fn, ops[k..])
  {
    hide WellFormedOp;
    assert ops == ops[..k] + ops[k..];
    WellSplit(fn, ops[..k], ops[k..]);
  }

  lemma OnlyEnds(fn: FunctionDef, e: State, m: State, op: Op)
    requires WellFormed(fn) && Kept(e, m) && Last(e.control).kind != IfThen && (op.End? || op.Else?) && Step(fn, m, op).Some?
    ensures op.End?
  {
    hide WellFormed, EndOp;
  }

  lemma {:induction false} Parse(fn: FunctionDef, s: State, ops: seq<Op>) returns (b: Body, k: nat, m: State, q: State)
    requires WellFormed(fn) && AllWell(fn, ops) && Closes(fn, s, ops)
    ensures Parsed(fn, s, ops, b, k, m, q)
    decreases |ops|, 3
  {
    hide WellFormed, AllWell, RunOn, Kept, Step, Based, Opened, Supplies, ValidateBlockType, Cut;
    FirstOf(fn, s, ops);
    var op, r := ops[0], Step(fn, s, ops[0]).value;
    if op.End? || op.Else? {
      b, k, m, q := Done, 0, s, r;
      SelfKept(s);
      WellParts(fn, ops, 0);
      RunNothing(fn, s);
    } else if op.Block? || op.Loop? {
      b, k, m, q := ParseBlock(fn, s, ops);
    } else if op.If? {
      b, k, m, q := ParseIf(fn, s, ops);
    } else {
      StepStays(fn, op, s);
      StillCloses(fn, s, r, ops, 1);
      var rest, j;
      rest, j, m, q := Parse(fn, r, ops[1..]);
      b, k := Then(op, rest), j + 1;
      assert ops[..k] == [op] + ops[1..][..j];
      assert ops[k + 1..] == ops[1..][j + 1..];
      WellParts(fn, ops, k);
      RunHead(fn, s, op, Code(rest));
      KeptTransitive(s, r, m);
    }
  }

  lemma StillCloses(fn: FunctionDef, s: State, r: State, ops: seq<Op>, k: nat)
    requires WellFormed(fn) && AllWell(fn, ops) && Closes(fn, s, ops) && Kept(s, r) && k <= |ops|
    requires AllWell(fn, ops[k..]) && RunOn(fn, r, ops[k..]) == RunOn(fn, s, ops)
    ensures Closes(fn, r, ops[k..])
  {
    hide WellFormed, AllWell, RunOn;
  }

  lemma InnerCloses(fn: FunctionDef, s: State, t: State, e: State, ft: FuncType, target: seq<ValueType>, ops: seq<Op>,
      k: nat)
    requires WellFormed(fn) && AllWell(fn, ops) && Closes(fn, s, ops) && Entered(t, ft, target, e) && |t.control| == |s.control|
    requires k <= |ops| && AllWell(fn, ops[k..]) && RunOn(fn, e, ops[k..]) == RunOn(fn, s, ops)
    ensures Closes(fn, e, ops[k..])
  {
    hide WellFormed, AllWell, RunOn;
  }

  /** Behind a construct that ends at `i`, the rest. */
  lemma ParseRest(fn: FunctionDef, s: State, r: State, ops: seq<Op>, i: nat) returns (rest: Body, j: nat, m: State,
      q: State)
    requires WellFormed(fn) && AllWell(fn, ops) && Closes(fn, s, ops) && Kept(s, r) && 0 < i <= |ops|
    requires AllWell(fn, ops[i..]) && RunOn(fn, r, ops[i..]) == RunOn(fn, s, ops)
    ensures Parsed(fn, r, ops[i..], rest, j, m, q) && Kept(s, m)
    ensures i + j < |ops| && AllWell(fn, ops[..i + j]) && ops[..i + j] == ops[..i] + Code(rest)
    ensures ops[i..][j] == ops[i + j] && ops[i..][j + 1..] == ops[i + j + 1..]
    decreases |ops|, 0
  {
    hide WellFormed, AllWell, RunOn, Kept, Step, Based;
    StillCloses(fn, s, r, ops, i);
    rest, j, m, q := Parse(fn, r, ops[i..]);
    KeptTransitive(s, r, m);
    assert ops[..i + j] == ops[..i] + ops[i..][..j];
    WellParts(fn, ops, i + j);
  }

  lemma ParseBlock(fn: FunctionDef, s: State, ops: seq<Op>) returns (b: Body, k: nat, m: State, q: State)
    requires WellFormed(fn) && AllWell(fn, ops) && Closes(fn, s, ops) && ops != [] && (ops[0].Block? || ops[0].Loop?)
    ensures Parsed(fn, s, ops, b, k, m, q)
    decreases |ops|, 2
  {
    hide WellFormed, AllWell, RunOn, Kept, Step, Based, Opened, Supplies, ValidateBlockType, Cut, OpenOp, Gives,
         Entered, Code;
    FirstOf(fn, s, ops);
    var op := ops[0];
    var kind := if op.Loop? then LoopBody else BlockBody;
    StepOpens(fn, s, op, kind);
    OpenIs(fn.mod, s, op.bt, kind);
    var ft := ValidateBlockType(fn.mod, op.bt).value;
    var target, e := if op.Loop? then ft.params else ft.results, Opened(s, kind, ft);
    OpenedEnters(s, kind, ft);
    OpenedKind(s, kind, ft);
    InnerCloses(fn, s, s, e, ft, target, ops, 1);
    var inner, i, m1, r := Parse(fn, e, ops[1..]);
    OnlyEnds(fn, e, m1, ops[1..][i]);
    EndStays(fn, s, ft, target, e, m1);
    ArmCode(ops, 1, i, inner);
    var rest, j;
    rest, j, m, q := ParseRest(fn, s, r, ops, i + 2);
    b := if op.Loop? then InLoop(op.bt, inner, rest) else InBlock(op.bt, inner, rest);
    k := i + 2 + j;
    assert ops[..1] == [op];
    BlockCode(op, inner, rest, ops[..k]);
    ClosedRuns(fn, s, op, Code(inner), Code(rest), e, m1, r);
  }

  lemma BlockCode(op: Op, inner: Body, rest: Body, ops: seq<Op>)
    requires op.Opens() && ops == [op] + Code(inner) + [End] + Code(rest)
    ensures ops == [op] + (Code(inner) + [End] + Code(rest))
    ensures op.Block? ==> ops == Code(InBlock(op.bt, inner, rest))
    ensures op.Loop? ==> ops == Code(InLoop(op.bt, inner, rest))
    ensures op.If? ==> ops == Code(InIf(op.bt, inner, rest))
  {
    Regroup([op], Code(inner), [End], Code(rest));
  }

  /** A construct with one body, run part by part. */
  lemma ClosedRuns(fn: FunctionDef, s: State, op: Op, inner: seq<Op>, rest: seq<Op>, e: State, m: State, r: State)
    requires WellFormed(fn) && AllWell(fn, [op] + (inner + [End] + rest)) && WellFormedOp(fn, op) && Step(fn, s, op) == Some(e)
    requires AllWell(fn, inner) && AllWell(fn, rest) && RunOn(fn, e, inner) == Some(m) && Step(fn, m, End) == Some(r)
    ensures RunOn(fn, s, [op] + (inner + [End] + rest)) == RunOn(fn, r, rest)
  {
    hide WellFormed, AllWell, RunOn, Step, WellFormedOp;
    RunHead(fn, s, op, inner + [End] + rest);
    RunTail(fn, e, inner, End, rest);
  }

  lemma ParseIf(fn: FunctionDef, s: State, ops: seq<Op>) returns (b: Body, k: nat, m: State, q: State)
    requires WellFormed(fn) && AllWell(fn, ops) && Closes(fn, s, ops) && ops != [] && ops[0].If?
    ensures Parsed(fn, s, ops, b, k, m, q)
    decreases |ops|, 2
  {
    hide WellFormed, AllWell, RunOn, Kept, Step, Based, Opened, Supplies, ValidateBlockType, Cut, Gives, Entered, Code;
    FirstOf(fn, s, ops);
    var op := ops[0];
    assert ops == [op] + ops[1..];
    var ft := TestParts(fn, s, op.bt, ops[1..]);
    var t := Cut(s, 1);
    KeptOpen(s, t);
    SameDepth(s, t);
    var e := Opened(t, IfThen, ft);
    OpenedEnters(t, IfThen, ft);
    InnerCloses(fn, s, t, e, ft, ft.results, ops, 1);
    var yes, i, m1, r := Parse(fn, e, ops[1..]);
    ArmCode(ops, 1, i, yes);
    assert ops[..1] == [op];
    if ops[i + 1].End? {
      EndStays(fn, t, ft, ft.results, e, m1);
      KeptTransitive(s, t, r);
      b, k, m, q := ParseEnd(fn, s, ops, op.bt, yes, i, e, m1, r);
    } else {
      ElseStays(fn, t, ft, m1);
      b, k, m, q := ParseElse(fn, s, ops, op.bt, t, ft, yes, i, e, m1, r);
    }
  }

  lemma ParseEnd(fn: FunctionDef, s: State, ops: seq<Op>, bt: BlockType, yes: Body, i: nat, start: State, m1: State,
      r: State)
    returns (b: Body, k: nat, m: State, q: State)
    requires WellFormed(fn) && AllWell(fn, ops) && Closes(fn, s, ops) && i + 2 <= |ops| && AllWell(fn, ops[i + 2..])
    requires ops[..i + 2] == [If(bt)] + Code(yes) + [End] && Kept(s, r) && Nested(yes)
    requires Step(fn, s, If(bt)) == Some(start) && AllWell(fn, Code(yes)) && RunOn(fn, start, Code(yes)) == Some(m1)
    requires Step(fn, m1, End) == Some(r) && RunOn(fn, r, ops[i + 2..]) == RunOn(fn, s, ops)
    ensures Parsed(fn, s, ops, b, k, m, q)
    decreases |ops|, 1
  {
    hide WellFormed, AllWell, RunOn, Kept, Step, Based, Code;
    var rest, j;
    rest, j, m, q := ParseRest(fn, s, r, ops, i + 2);
    b, k := InIf(bt, yes, rest), i + 2 + j;
    BlockCode(If(bt), yes, rest, ops[..k]);
    ClosedRuns(fn, s, If(bt), Code(yes), Code(rest), start, m1, r);
  }

  lemma SameDepth(s: State, m: State)
    requires Kept(s, m)
    ensures |s.control| == |m.control|
  {
  }

  lemma ParseElse(fn: FunctionDef, s: State, ops: seq<Op>, bt: BlockType, t: State, ft: FuncType, yes: Body, i: nat,
      start: State, m1: State, e: State) returns (b: Body, k: nat, m: State, q: State)
    requires WellFormed(fn) && AllWell(fn, ops) && Closes(fn, s, ops) && i + 2 <= |ops| && AllWell(fn, ops[i + 2..])
    requires ops[..i + 2] == [If(bt)] + Code(yes) + [Else] && Kept(s, t) && Nested(yes)
    requires Step(fn, s, If(bt)) == Some(start) && AllWell(fn, Code(yes)) && RunOn(fn, start, Code(yes)) == Some(m1)
    requires Step(fn, m1, Else) == Some(e) && Entered(t, ft, ft.results, e) && Last(e.control).kind == IfElse
    requires RunOn(fn, e, ops[i + 2..]) == RunOn(fn, s, ops)
    ensures Parsed(fn, s, ops, b, k, m, q)
    decreases |ops|, 1
  {
    hide WellFormed, AllWell, RunOn, Kept, Step, Based, Gives, Entered, Cut, Code;
    SameDepth(s, t);
    InnerCloses(fn, s, t, e, ft, ft.results, ops, i + 2);
    var no, h, m2, r := Parse(fn, e, ops[i + 2..]);
    OnlyEnds(fn, e, m2, ops[i + 2..][h]);
    EndStays(fn, t, ft, ft.results, e, m2);
    KeptTransitive(s, t, r);
    ArmCode(ops, i + 2, h, no);
    var rest, j;
    rest, j, m, q := ParseRest(fn, s, r, ops, i + h + 3);
    b, k := InIfElse(bt, yes, no, rest), i + h + 3 + j;
    IfElseCode(bt, yes, no, rest, ops[..k]);
    SwitchedRuns(fn, s, If(bt), Code(yes), Code(no), Code(rest), start, m1, e, m2, r);
  }

  /** The operators up to the end of an arm. */
  lemma ArmCode(ops: seq<Op>, i: nat, h: nat, arm: Body)
    requires i + h < |ops| && ops[i..][..h] == Code(arm)
    ensures ops[i..][h] == ops[i + h] && ops[i..][h + 1..] == ops[i + h + 1..]
    ensures ops[..i + h + 1] == ops[..i] + Code(arm) + [ops[i + h]]
  {
    hide Code;
    assert ops[..i + h] == ops[..i] + ops[i..][..h];
  }

  lemma IfElseCode(bt: BlockType, yes: Body, no: Body, rest: Body, ops: seq<Op>)
    requires ops == [If(bt)] + Code(yes) + [Else] + Code(no) + [End] + Code(rest)
    ensures ops == Code(InIfElse(bt, yes, no, rest))
    ensures ops == [If(bt)] + (Code(yes) + [Else] + (Code(no) + [End] + Code(rest)))
  {
    assert ops == Code(InIfElse(bt, yes, no, rest));
    Regroup([If(bt)] + Code(yes) + [Else], Code(no), [End], Code(rest));
    Regroup([If(bt)], Code(yes), [Else], Code(no) + [End] + Code(rest));
  }

  lemma Regroup(a: seq<Op>, b: seq<Op>, c: seq<Op>, d: seq<Op>)
    ensures a + b + c + d == a + (b + c + d)
  {
  }

  /** A construct with two arms, run part by part. */
  lemma SwitchedRuns(fn: FunctionDef, s: State, op: Op, yes: seq<Op>, no: seq<Op>, rest: seq<Op>, start: State,
      m1: State,
      e: State, m2: State, r: State)
    requires WellFormed(fn) && AllWell(fn, [op] + (yes + [Else] + (no + [End] + rest))) && AllWell(fn, rest)
    requires WellFormedOp(fn, op) && Step(fn, s, op) == Some(start) && AllWell(fn, yes) && RunOn(fn, start, yes) == Some(m1)
    requires Step(fn, m1, Else) == Some(e) && AllWell(fn, no) && RunOn(fn, e, no) == Some(m2) && Step(fn, m2, End) == Some(r)
    ensures RunOn(fn, s, [op] + (yes + [Else] + (no + [End] + rest))) == RunOn(fn, r, rest)
  {
    hide WellFormed, AllWell, RunOn, Step, WellFormedOp;
    var tail := no + [End] + rest;
    RunHead(fn, s, op, yes + [Else] + tail);
    RunTail(fn, start, yes, Else, tail);
    RunTail(fn, e, no, End, rest);
  }

  // ----- whole functions -----

  /** The validator at the start of a function. */
  function Start(fn: FunctionDef): State
    requires fn.typeIndex < |fn.mod.types|
  {
    State([V.Control(FunctionBody, 0, Signature(fn).results, Signature(fn).results, true, [])], [])
  }

  function Outside(fn: FunctionDef): Context
    requires fn.typeIndex < |fn.mod.types|
  {
    Context(fn.mod, fn.branchTables, Signature(fn).params + fn.localTypes, Signature(fn).results, [])
  }

  lemma InitialIs(fn: FunctionDef)
    requires WellFormed(fn)
    ensures Initial(fn) == if AllEnabled(fn.mod.features, fn.localTypes) then Some(Start(fn)) else None
    ensures Based(Start(fn)) && Operands(Start(fn)) == []
    ensures Agree(Inside(Outside(fn), Signature(fn).results), fn, Start(fn))
  {
    hide Enabled, ValidValueType;
    forall i | 0 <= i < |fn.localTypes|
      ensures Enabled(fn.mod.features, fn.localTypes[i]) <==> ValidValueType(fn.mod.features, fn.localTypes[i])
    {
      EnabledIffValid(fn.mod.features, fn.localTypes[i]);
    }
    assert [] + Start(fn).control == Start(fn).control;
  }

  lemma AcceptsIs(fn: FunctionDef)
    requires WellFormed(fn)
    ensures AllWell(fn, fn.code)
    ensures Accepts(fn) <==>
              && AllEnabled(fn.mod.features, fn.localTypes)
              && RunOn(fn, Start(fn), fn.code).Some? && RunOn(fn, Start(fn), fn.code).value.control == []
  {
    hide Step, WellFormedOp, Start, Initial;
    assert AllWell(fn, fn.code) by { WellCode(fn); }
    assert fn.code[..|fn.code|] == fn.code;
    AfterIsRun(fn, |fn.code|);
    InitialIs(fn);
  }

  lemma WellCode(fn: FunctionDef)
    requires WellFormed(fn)
    ensures AllWell(fn, fn.code)
  {
  }

  /** The last `end` leaves nothing open. */
  lemma FinishIs(fn: FunctionDef, m: State)
    requires WellFormed(fn) && Kept(Start(fn), m)
    ensures Step(fn, m, End) == if Gives(m, Signature(fn).results) then Some(State([], [])) else None
  {
    hide WellFormed, Gives, PopResults;
    PopResultsIs(m);
    StepEnds(fn, m);
    assert m.stack[..0] == [];
  }

  lemma WellTypedAccepted(fn: FunctionDef)
    requires WellFormed(fn) && WellTyped(fn)
    ensures Accepts(fn)
  {
    hide WellFormed, AllWell, RunOn, Step, Kept, Fits, Agree, Typed, AllMatch, Gives, Accepts, WellFormedOp, Start,
         AllEnabled;
    assert fn.typeIndex < |fn.mod.types| by { TypeKnown(fn); }
    var results := Signature(fn).results;
    AcceptsIs(fn);
    InitialIs(fn);
    var b :| fn.code == Code(b) + [End] && Fills(Outside(fn), results, b, [], results);
    var end :| Typed(Inside(Outside(fn), results), b, [], end) && AllMatch(end, results);
    assert Code(b) + [End] + [] == Code(b) + [End];
    RunTail(fn, Start(fn), Code(b), End, []);
    StartFits(fn);
    Completes(fn, Inside(Outside(fn), results), b, Start(fn), [], end);
    var m := RunOn(fn, Start(fn), Code(b)).value;
    KeptOpen(Start(fn), m);
    FitsGives(m, end, results);
    FinishIs(fn, m);
    RunNothing(fn, State([], []));
  }

  lemma TypeKnown(fn: FunctionDef)
    requires WellFormed(fn)
    ensures fn.typeIndex < |fn.mod.types|
  {
  }

  lemma StartFits(fn: FunctionDef)
    requires fn.typeIndex < |fn.mod.types|
    ensures Fits(Start(fn), [])
  {
  }

  lemma AcceptedWellTyped(fn: FunctionDef)
    requires Accepts(fn)
    ensures WellTyped(fn)
  {
    hide WellFormed, AllWell, RunOn, Step, Kept, Agree, Typed, AllMatch, Gives, WellFormedOp, AllEnabled, Accepts,
         Fills, Nested;
    assert WellFormed(fn) by { AcceptsForm(fn); }
    assert fn.typeIndex < |fn.mod.types| by { TypeKnown(fn); }
    var results, s := Signature(fn).results, Start(fn);
    AcceptsIs(fn);
    InitialIs(fn);
    var b, k, m, q := Parse(fn, s, fn.code);
    KeptOpen(s, m);
    StartStays(fn, m, fn.code[k], q);
    NothingMore(fn, fn.code[k + 1..], q);
    assert fn.code == fn.code[..k] + [fn.code[k]] + fn.code[k + 1..];
    FunctionFills(fn, b, m);
  }

  lemma AcceptsForm(fn: FunctionDef)
    requires Accepts(fn)
    ensures WellFormed(fn)
  {
  }

  /** A function body has no other arm: its last operator is `end`. */
  lemma StartStays(fn: FunctionDef, m: State, op: Op, q: State)
    requires WellFormed(fn) && Kept(Start(fn), m) && (op.End? || op.Else?) && Step(fn, m, op) == Some(q)
    ensures op.End? && Gives(m, Signature(fn).results) && q == State([], [])
  {
    hide WellFormed, Gives, EndOp, Step;
    assert fn.typeIndex < |fn.mod.types| by { TypeKnown(fn); }
    OnlyEnds(fn, Start(fn), m, op);
    FinishIs(fn, m);
  }

  /** Nothing follows the operator that leaves nothing open. */
  lemma NothingMore(fn: FunctionDef, ops: seq<Op>, q: State)
    requires WellFormed(fn) && AllWell(fn, ops) && q.control == [] && RunOn(fn, q, ops).Some?
    ensures ops == []
  {
    hide WellFormed;
  }

  lemma FunctionFills(fn: FunctionDef, b: Body, m: State)
    requires WellFormed(fn) && AllWell(fn, Code(b)) && Nested(b) && RunOn(fn, Start(fn), Code(b)) == Some(m)
    requires Based(m) && Gives(m, Signature(fn).results)
    ensures Fills(Outside(fn), Signature(fn).results, b, [], Signature(fn).results)
  {
    hide WellFormed, AllWell, RunOn, Typed, AllMatch, Gives, Nested, Agree, Operands;
    assert fn.typeIndex < |fn.mod.types| by { TypeKnown(fn); }
    var results := Signature(fn).results;
    InitialIs(fn);
    GivesMatch(m, results);
    var n := |results| - |Operands(m)|;
    var k := BodyTyped(fn, Inside(Outside(fn), results), b, Start(fn), n);
    assert Stack(Start(fn), k) == [];
  }

  /** For every function whose types were checked: the validator accepts it if and only if it is well typed. */
  lemma AcceptsIffWellTyped(fn: FunctionDef)
    requires WellFormed(fn)
    ensures Accepts(fn) <==> WellTyped(fn)
  {
    hide WellFormed, Accepts, WellTyped;
    assert fn.typeIndex < |fn.mod.types| by { TypeKnown(fn); }
    if Accepts(fn) {
      AcceptedWellTyped(fn);
    }
    if WellTyped(fn) {
      WellTypedAccepted(fn);
    }
  }
}
