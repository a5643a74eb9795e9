/** Whole runs of the validator over an accepted body: the matching `else` and `end` of every
    construct, and what holds between the opening and the closing of a context. */
module ValidatorRuns {
  import opened IR
  import opened Wrappers
  import opened Validator
  import opened ValidatorFacts

  /** Operator `n` takes the run from state `n` to state `n + 1`. */
  ghost predicate StepsTo(fn: FunctionDef, run: seq<State>, n: nat)
    requires WellFormed(fn) && n < |fn.code| && |run| == |fn.code| + 1
  {
    Step(fn, run[n], fn.code[n]) == Some(run[n + 1])
  }

  /** State `n` of the run is the validator's initial state. */
  ghost predicate StartsAt(fn: FunctionDef, run: seq<State>, n: nat)
    requires WellFormed(fn)
  {
    n < |run| && Initial(fn) == Some(run[n])
  }

  /** `run` lists the states of a run of the validator over the whole body. The quantifier is
      triggered by naming a step, so that a proof meets the step function only where it asks. */
  ghost predicate IsRun(fn: FunctionDef, run: seq<State>)
    requires WellFormed(fn)
  {
    && |run| == |fn.code| + 1
    && (forall n {:trigger StartsAt(fn, run, n)} :: n == 0 ==> StartsAt(fn, run, n))
    && (forall n {:trigger StepsTo(fn, run, n)} :: 0 <= n < |fn.code| ==> StepsTo(fn, run, n))
    && run[|fn.code|].control == []
  }

  ghost predicate Accepted(fn: FunctionDef) {
    WellFormed(fn) && exists run :: IsRun(fn, run)
  }

  lemma {:induction false} AcceptedPrefix(fn: FunctionDef, n: nat, m: nat)
    requires WellFormed(fn) && n <= m <= |fn.code| && After(fn, m).Some?
    ensures After(fn, n).Some?
    decreases m
  {
    hide Step;
    if n < m {
      AcceptedPrefix(fn, n, m - 1);
    }
  }

  lemma {:induction false} RunIsAfter(fn: FunctionDef, run: seq<State>, n: nat)
    requires WellFormed(fn) && IsRun(fn, run) && n <= |fn.code|
    ensures After(fn, n) == Some(run[n])
  {
    hide Step;
    assert StartsAt(fn, run, 0);
    if n > 0 {
      RunIsAfter(fn, run, n - 1);
      assert StepsTo(fn, run, n - 1);
    }
  }

  /** Acceptance is the existence of a run. */
  lemma AcceptsIffRun(fn: FunctionDef)
    ensures Accepts(fn) <==> Accepted(fn)
  {
    hide Step;
    if Accepts(fn) {
      forall n: nat | n <= |fn.code| ensures After(fn, n).Some? {
        AcceptedPrefix(fn, n, |fn.code|);
      }
      var run := seq(|fn.code| + 1, n requires 0 <= n <= |fn.code| && WellFormed(fn) && After(fn, n).Some? => After(fn, n).value);
      assert IsRun(fn, run);
    }
    if Accepted(fn) {
      var run :| IsRun(fn, run);
      RunIsAfter(fn, run, |fn.code|);
    }
  }

  lemma {:induction false} RunShaped(fn: FunctionDef, run: seq<State>, n: nat)
    requires WellFormed(fn) && IsRun(fn, run) && n <= |fn.code|
    ensures Shaped(run[n])
  {
    hide Step;
    assert StartsAt(fn, run, 0);
    if n > 0 {
      RunShaped(fn, run, n - 1);
      assert StepsTo(fn, run, n - 1);
      StepFrame(fn, run[n - 1], fn.code[n - 1]);
    }
  }

  /** The run of an accepted body. */
  ghost function Trace(fn: FunctionDef): (run: seq<State>)
    requires Accepted(fn)
    ensures IsRun(fn, run)
  {
    var run :| IsRun(fn, run); run
  }

  /** The validator's state before operator `n` of an accepted body. */
  ghost function At(fn: FunctionDef, n: nat): (s: State)
    requires Accepted(fn) && n <= |fn.code|
    ensures Shaped(s)
  {
    RunShaped(fn, Trace(fn), n);
    Trace(fn)[n]
  }

  lemma NonEmpty(fn: FunctionDef, s: State, op: Op)
    requires WellFormed(fn) && WellFormedOp(fn, op) && Step(fn, s, op).Some?
    ensures s.control != []
  {
  }

  lemma AtStep(fn: FunctionDef, n: nat)
    requires Accepted(fn) && n < |fn.code|
    ensures At(fn, n).control != []
    ensures Step(fn, At(fn, n), fn.code[n]) == Some(At(fn, n + 1))
    ensures Keeps(At(fn, n), fn.code[n], At(fn, n + 1))
  {
    hide Step, Keeps;
    assert StepsTo(fn, Trace(fn), n);
    StepFrame(fn, At(fn, n), fn.code[n]);
    NonEmpty(fn, At(fn, n), fn.code[n]);
  }

  lemma AtEnd(fn: FunctionDef)
    requires Accepted(fn)
    ensures At(fn, |fn.code|).control == []
  {
  }

  ghost function Depth(fn: FunctionDef, n: nat): nat
    requires Accepted(fn) && n <= |fn.code|
  {
    |At(fn, n).control|
  }

  /** The construct opened at `o` is still open before operator `p`. */
  ghost predicate OpenThrough(fn: FunctionDef, o: nat, p: nat)
    requires Accepted(fn) && o < |fn.code| && p <= |fn.code|
  {
    forall q :: o < q <= p ==> Depth(fn, q) > Depth(fn, o)
  }

  // ----- matching end and else -----

  /** Scanning from inside the construct opened at depth `d` finds its `end`. */
  lemma {:induction false} ScanEnd(fn: FunctionDef, d: nat, i: nat, nest: nat)
    requires Accepted(fn) && i <= |fn.code| && Depth(fn, i) == d + 1 + nest
    ensures var e := FindEnd(fn.code, i, nest);
            && i <= e < |fn.code| && fn.code[e].End?
            && Depth(fn, e) == d + 1 && Depth(fn, e + 1) == d
            && forall q :: i <= q <= e ==> Depth(fn, q) > d
    decreases |fn.code| - i
  {
    hide Step, Framed, Shaped;
    AtEnd(fn);
    if i < |fn.code| {
      AtStep(fn, i);
      var op := fn.code[i];
      if op.Opens() {
        ScanEnd(fn, d, i + 1, nest + 1);
      } else if !op.End? {
        ScanEnd(fn, d, i + 1, nest);
      } else if nest > 0 {
        ScanEnd(fn, d, i + 1, nest - 1);
      }
    }
  }

  ghost function MatchingEnd(fn: FunctionDef, o: nat): (e: nat)
    requires Accepted(fn) && o < |fn.code| && fn.code[o].Opens()
    ensures e == FindEnd(fn.code, o + 1, 0)
    ensures o < e < |fn.code| && fn.code[e].End?
    ensures Depth(fn, e) == Depth(fn, o) + 1 && Depth(fn, e + 1) == Depth(fn, o)
    ensures OpenThrough(fn, o, e)
  {
    AtStep(fn, o);
    ScanEnd(fn, Depth(fn, o), o + 1, 0);
    FindEnd(fn.code, o + 1, 0)
  }

  /** A position of an open construct lies before its end. */
  lemma OpenBeforeEnd(fn: FunctionDef, o: nat, p: nat)
    requires Accepted(fn) && o < p <= |fn.code| && fn.code[o].Opens() && OpenThrough(fn, o, p)
    ensures p <= MatchingEnd(fn, o)
  {
    hide Step, Framed, Shaped;
  }

  /** While the construct opened at `o` stays open, its context, the contexts around it and
      the operands below it are those of the moment it was opened. */
  lemma {:induction false} FrameAcross(fn: FunctionDef, o: nat, p: nat)
    requires Accepted(fn) && o < p <= |fn.code| && fn.code[o].Opens() && OpenThrough(fn, o, p)
    ensures var d, v, w := Depth(fn, o), At(fn, o), At(fn, p);
            && |w.control| > d == |v.control| && |At(fn, o + 1).control| > d
            && w.control[..d] == v.control
            && SameFrame(At(fn, o + 1).control[d], w.control[d])
            && w.control[d].outer <= |v.stack|
            && w.stack[..w.control[d].outer] == v.stack[..w.control[d].outer]
    decreases p
  {
    hide Step;
    var d, v, w := Depth(fn, o), At(fn, o), At(fn, p);
    assert Depth(fn, p) > d;
    AtStep(fn, p - 1);
    AtStep(fn, o);
    if p == o + 1 {
      OpenedContext(fn, o);
    } else {
      assert Depth(fn, p) > d;
      FrameAcross(fn, o, p - 1);
      var u := At(fn, p - 1);
      assert Depth(fn, p - 1) > d;
      forall k | 0 <= k < d ensures w.control[k] == v.control[k] {
        assert u.control[k] == w.control[k];
        assert u.control[..d][k] == v.control[k];
      }
      assert SameFrame(u.control[d], w.control[d]);
      assert w.stack[..u.control[d].outer] == u.stack[..u.control[d].outer];
    }
  }

  /** `r` is `s` with the context of the opener `op` pushed. */
  ghost predicate Opened(fn: FunctionDef, s: State, op: Op, r: State)
    requires op.Opens()
  {
    && s.control != []
    && ResolveBlockType(fn.mod, op.bt).Some?
    && |r.control| == |s.control| + 1
    && Front(r.control) == s.control
    && var t, c := ResolveBlockType(fn.mod, op.bt).value, Last(r.control);
    && ValidTuple(fn.mod.features, t.params) && ValidTuple(fn.mod.features, t.results)
    && c.results == t.results
    && c.params == (if op.Loop? then t.params else t.results)
    && c.reachable
    && c.kind == (if op.Loop? then LoopBody else if op.If? then IfThen else BlockBody)
    && (op.If? ==> c.elseParams == t.params)
    && Last(s.control).outer <= c.outer <= |s.stack|
    && r.stack == s.stack[..c.outer] + t.params
    && (Last(s.control).reachable ==>
          c.outer + |t.params| + (if op.If? then 1 else 0) == |s.stack|)
  }

  lemma OpenOpOpens(fn: FunctionDef, s: State, bt: BlockType, kind: Kind)
    requires WellFormed(fn) && Shaped(s) && s.control != [] && OpenOp(fn.mod, s, bt, kind).Some?
    ensures ResolveBlockType(fn.mod, bt).Some?
    ensures var t, r := ResolveBlockType(fn.mod, bt).value, OpenOp(fn.mod, s, bt, kind).value;
            && |r.control| == |s.control| + 1 && Front(r.control) == s.control
            && ValidTuple(fn.mod.features, t.params) && ValidTuple(fn.mod.features, t.results)
            && var c := Last(r.control);
            && c == Control(kind, c.outer, if kind == LoopBody then t.params else t.results, t.results, true,
                            if kind == IfThen then t.params else [])
            && Last(s.control).outer <= c.outer <= |s.stack|
            && r.stack == s.stack[..c.outer] + t.params
            && (Last(s.control).reachable ==> c.outer + |t.params| == |s.stack|)
            && PopTuple(s, t.params).Some? && Popped(s, t.params, PopTuple(s, t.params).value)
  {
    PopTuplePops(s, ValidateBlockType(fn.mod, bt).value.params);
  }

  lemma OpenerOpens(fn: FunctionDef, s: State, op: Op)
    requires WellFormed(fn) && WellFormedOp(fn, op) && Shaped(s) && Step(fn, s, op).Some? && op.Opens()
    ensures Opened(fn, s, op, Step(fn, s, op).value)
  {
    hide OpenOp, ValidateBlockType, ResolveBlockType, ValidTuple;
    match op {
      case Block(bt) => OpenOpOpens(fn, s, bt, BlockBody);
      case Loop(bt) => OpenOpOpens(fn, s, bt, LoopBody);
      case If(bt) =>
        PopOperandPops(s, I32);
        OpenOpOpens(fn, PopOperand(s, I32).value, bt, IfThen);
    }
  }

  lemma OpenedContext(fn: FunctionDef, o: nat)
    requires Accepted(fn) && o < |fn.code| && fn.code[o].Opens()
    ensures Opened(fn, At(fn, o), fn.code[o], At(fn, o + 1))
  {
    hide Step, Opened;
    AtStep(fn, o);
    OpenerOpens(fn, At(fn, o), fn.code[o]);
  }

  /** The base of the context pushed at `o`. */
  ghost function OpenBase(fn: FunctionDef, o: nat): (h: nat)
    requires Accepted(fn) && o < |fn.code| && fn.code[o].Opens()
    ensures h <= |At(fn, o).stack|
  {
    OpenedContext(fn, o);
    Last(At(fn, o + 1).control).outer
  }

  // ----- else -----

  /** Up to the matching `else`, or to the `end` if there is none, an `if` is in its first arm. */
  lemma {:induction false} ScanElse(fn: FunctionDef, d: nat, i: nat, nest: nat)
    requires Accepted(fn) && i <= |fn.code| && Depth(fn, i) == d + 1 + nest
    requires At(fn, i).control[d].kind == IfThen
    ensures var e, x := FindEnd(fn.code, i, nest), FindElse(fn.code, i, nest);
            && i <= e < |fn.code|
            && (x.None? ==> Depth(fn, e) == d + 1 && At(fn, e).control[d].kind == IfThen)
            && (x.Some? ==>
                  && i <= x.value < e && fn.code[x.value].Else?
                  && Depth(fn, x.value) == d + 1
                  && At(fn, x.value).control[d].kind == IfThen)
    decreases |fn.code| - i
  {
    hide Step, Framed, Shaped;
    ScanEnd(fn, d, i, nest);
    AtStep(fn, i);
    var op := fn.code[i];
    if op.End? && nest == 0 {
    } else if op.Else? && nest == 0 {
      ScanEnd(fn, d, i + 1, 0);
    } else {
      var n := nest + DepthChange(op);
      KindKept(fn, d, i);
      ScanElse(fn, d, i + 1, n);
    }
  }

  lemma KindKept(fn: FunctionDef, d: nat, i: nat)
    requires Accepted(fn) && i < |fn.code| && Depth(fn, i) > d && Depth(fn, i + 1) > d
    requires !(fn.code[i].Else? && Depth(fn, i) == d + 1)
    ensures At(fn, i + 1).control[d].kind == At(fn, i).control[d].kind
  {
    hide Step, Shaped;
    AtStep(fn, i);
    var s, r, op := At(fn, i), At(fn, i + 1), fn.code[i];
    if d < |s.control| - 1 {
      assert s.control[d] == r.control[d];
    } else {
      TopKindKept(fn, s, op);
    }
  }

  lemma TopKindKept(fn: FunctionDef, s: State, op: Op)
    requires WellFormed(fn) && WellFormedOp(fn, op) && Step(fn, s, op).Some? && !op.Else? && !op.End?
    ensures var r := Step(fn, s, op).value;
            |r.control| >= |s.control| > 0 && r.control[|s.control| - 1].kind == Last(s.control).kind
  {
    hide PopTuple, Peek, TableTargetsFit, ValidTuple;
  }

  // ----- the state after a construct is left -----

  /** What closing the innermost context of `s` does. */
  lemma EndCloses(fn: FunctionDef, s: State)
    requires WellFormed(fn) && Shaped(s) && Step(fn, s, End).Some?
    ensures var top, r := Last(s.control), Step(fn, s, End).value;
            && r.control == Front(s.control)
            && (r.control != [] ==> r.stack == s.stack[..top.outer] + top.results)
            && (top.kind == IfThen ==> top.results == top.elseParams)
            && (top.reachable ==> |s.stack| == top.outer + |top.results|)
            && PopTuple(s, top.results).Some?
            && Popped(s, top.results, PopTuple(s, top.results).value)
  {
    PopTuplePops(s, Last(s.control).results);
  }

  lemma ElseSwitches(fn: FunctionDef, s: State)
    requires WellFormed(fn) && Shaped(s) && Step(fn, s, Else).Some?
    ensures var top, r := Last(s.control), Step(fn, s, Else).value;
            && |r.control| == |s.control| && Front(r.control) == Front(s.control)
            && Last(r.control) == top.(kind := IfElse, reachable := true)
            && top.kind == IfThen
            && r.stack == s.stack[..top.outer] + top.elseParams
            && (top.reachable ==> |s.stack| == top.outer + |top.results|)
            && PopTuple(s, top.results).Some?
            && Popped(s, top.results, PopTuple(s, top.results).value)
  {
    PopTuplePops(s, Last(s.control).results);
  }

  /** Past its `end`, a construct has replaced its parameters by its results. */
  lemma AfterEnd(fn: FunctionDef, o: nat)
    requires Accepted(fn) && o < |fn.code| && fn.code[o].Opens()
    ensures var e, v := MatchingEnd(fn, o), At(fn, o);
            var w, h := At(fn, e + 1), OpenBase(fn, o);
            && v.control != [] && w.control == v.control
            && ResolveBlockType(fn.mod, fn.code[o].bt).Some?
            && h <= |v.stack|
            && w.stack == v.stack[..h] + ResolveBlockType(fn.mod, fn.code[o].bt).value.results
  {
    hide Step, Keeps;
    var e, d := MatchingEnd(fn, o), Depth(fn, o);
    OpenedContext(fn, o);
    FrameAcross(fn, o, e);
    AtStep(fn, e);
    EndCloses(fn, At(fn, e));
    assert Last(At(fn, e).control) == At(fn, e).control[d];
    assert Front(At(fn, e).control) == At(fn, e).control[..d];
  }

  /** The `else` of an `if` lies inside it, one level deep, while it is in its first arm. */
  lemma ElsePosition(fn: FunctionDef, o: nat)
    requires Accepted(fn) && o < |fn.code| && fn.code[o].If? && FindElse(fn.code, o + 1, 0).Some?
    ensures var x := FindElse(fn.code, o + 1, 0).value;
            && o < x < MatchingEnd(fn, o) && fn.code[x].Else?
            && OpenThrough(fn, o, x) && OpenThrough(fn, o, x + 1)
            && Depth(fn, x) == Depth(fn, o) + 1 == Depth(fn, x + 1)
  {
    hide Step, Framed, Shaped;
    var x, d := FindElse(fn.code, o + 1, 0).value, Depth(fn, o);
    AtStep(fn, o);
    OpenedContext(fn, o);
    ScanElse(fn, d, o + 1, 0);
    AtStep(fn, x);
    var e := MatchingEnd(fn, o);
  }

  /** Past its `else`, an `if` starts again from its parameters. */
  lemma AfterElse(fn: FunctionDef, o: nat)
    requires Accepted(fn) && o < |fn.code| && fn.code[o].If? && FindElse(fn.code, o + 1, 0).Some?
    ensures var x, v := FindElse(fn.code, o + 1, 0).value, At(fn, o);
            && o < x < |fn.code|
            && var w, h := At(fn, x + 1), OpenBase(fn, o);
            && v.control != [] && |w.control| == |v.control| + 1
            && Front(w.control) == v.control && Last(w.control).reachable
            && ResolveBlockType(fn.mod, fn.code[o].bt).Some?
            && w.stack == v.stack[..h] + ResolveBlockType(fn.mod, fn.code[o].bt).value.params
  {
    hide Step, Keeps, OpenThrough, ResolveBlockType, ValidTuple;
    var x, d := FindElse(fn.code, o + 1, 0).value, Depth(fn, o);
    ElsePosition(fn, o);
    OpenedContext(fn, o);
    FrameAcross(fn, o, x);
    AtStep(fn, x);
    ElseSwitches(fn, At(fn, x));
    assert Last(At(fn, x).control) == At(fn, x).control[d];
    assert Front(At(fn, x).control) == At(fn, x).control[..d];
  }

  /** An `if` without an `else` returns what it takes. */
  lemma NoElseIdentity(fn: FunctionDef, o: nat)
    requires Accepted(fn) && o < |fn.code| && fn.code[o].If? && FindElse(fn.code, o + 1, 0).None?
    ensures var t := ResolveBlockType(fn.mod, fn.code[o].bt);
            t.Some? && t.value.params == t.value.results
    ensures Last(At(fn, MatchingEnd(fn, o)).control).kind == IfThen
  {
    hide Step, Keeps;
    var e, d := MatchingEnd(fn, o), Depth(fn, o);
    AtStep(fn, o);
    OpenedContext(fn, o);
    ScanElse(fn, d, o + 1, 0);
    FrameAcross(fn, o, e);
    AtStep(fn, e);
    EndCloses(fn, At(fn, e));
    assert Last(At(fn, e).control) == At(fn, e).control[d];
  }
}
