/** Type soundness: a body the validator accepts never makes the reference machine Stuck, and
    leaves values of exactly the declared result types. */
module Soundness {
  import opened IR
  import opened Wrappers
  import opened Validator
  import opened ValidatorFacts
  import opened ValidatorRuns
  import M = StackMachine

  lemma SubtypeTransitive(a: ValueType, b: ValueType, c: ValueType)
    requires IsSubtype(a, b) && IsSubtype(b, c)
    ensures IsSubtype(a, c)
  {
  }

  /** The outermost context is the function's own. */
  lemma {:induction false} RootContext(fn: FunctionDef, p: nat)
    requires Accepted(fn) && p <= |fn.code| && Depth(fn, p) > 0
    ensures var c := At(fn, p).control[0];
            && c.outer == 0 && c.results == Signature(fn).results && c.params == Signature(fn).results
            && c.kind == FunctionBody
  {
    hide Step, ValidTuple;
    assert StartsAt(fn, Trace(fn), 0);
    if p > 0 {
      AtStep(fn, p - 1);
      RootContext(fn, p - 1);
      if fn.code[p - 1].Else? && Depth(fn, p - 1) == 1 {
        RootHasNoElse(fn, At(fn, p - 1));
      } else {
        KindKept(fn, 0, p - 1);
      }
      assert SameFrame(At(fn, p - 1).control[0], At(fn, p).control[0]);
    }
  }

  lemma RootHasNoElse(fn: FunctionDef, s: State)
    requires WellFormed(fn) && Step(fn, s, Else).Some?
    ensures Last(s.control).kind == IfThen
  {
  }

  ghost predicate AllReachable(s: State) {
    forall i :: 0 <= i < |s.control| ==> s.control[i].reachable
  }

  /** A label of the machine stands for context `d` of the validator. */
  ghost predicate LabelFits(fn: FunctionDef, l: M.Label, d: nat, pc: nat)
    requires Accepted(fn)
  {
    && l.opener < pc <= |fn.code|
    && fn.code[l.opener].Opens()
    && Depth(fn, l.opener) == d
    && AllReachable(At(fn, l.opener))
    && OpenThrough(fn, l.opener, pc)
    && ResolveBlockType(fn.mod, fn.code[l.opener].bt) == Some(l.ty)
    && l.height == OpenBase(fn, l.opener)
  }

  ghost predicate LabelsFit(fn: FunctionDef, labels: seq<M.Label>, pc: nat)
    requires Accepted(fn)
  {
    && (forall k :: 0 <= k < |labels| ==> LabelFits(fn, labels[k], k + 1, pc))
    && forall j, k :: 0 <= j < k < |labels| ==> labels[j].opener < labels[k].opener
  }

  /** The machine's operands have the types on the stack of `v`, a state of the validator that
      differs from the one at `pc` only in popped operands. */
  ghost predicate Fits(fn: FunctionDef, c: M.Config, v: State)
    requires Accepted(fn)
  {
    && c.Run? && c.pc < |fn.code|
    && v.control == At(fn, c.pc).control && |v.control| == |c.labels| + 1
    && AllReachable(v)
    && SameBelow(At(fn, c.pc), v)
    && M.HaveTypes(c.stack, v.stack)
    && M.HaveTypes(c.locals, LocalTypes(fn))
    && LabelsFit(fn, c.labels, c.pc)
  }

  ghost predicate Typed(fn: FunctionDef, c: M.Config)
    requires Accepted(fn)
  {
    match c
    case Run(pc, _, _, _, _) => pc < |fn.code| && Fits(fn, c, At(fn, pc))
    case Done(results, _) => M.HaveTypes(results, Signature(fn).results)
    case Trapped(_) => true
    case Stuck => false
  }

  /** The frame of the construct a fitting label stands for. */
  lemma LabelFrame(fn: FunctionDef, l: M.Label, d: nat, pc: nat)
    requires Accepted(fn) && LabelFits(fn, l, d, pc)
    ensures var v, w := At(fn, l.opener), At(fn, pc);
            && |w.control| > d && w.control[..d] == v.control
            && w.control[d].outer == l.height <= |v.stack| && l.height <= |w.stack|
            && w.control[d].params == M.BranchTypes(fn, l)
            && w.control[d].results == l.ty.results
            && w.stack[..l.height] == v.stack[..l.height]
            && (fn.code[l.opener].If? ==> w.control[d].elseParams == l.ty.params)
  {
    hide Step, OpenThrough, AllReachable;
    OpenedContext(fn, l.opener);
    FrameAcross(fn, l.opener, pc);
    assert At(fn, l.opener + 1).control[d] == Last(At(fn, l.opener + 1).control);
  }

  lemma BaseIsOuter(fn: FunctionDef, c: M.Config, v: State)
    requires Accepted(fn) && Fits(fn, c, v)
    ensures M.Base(c) == Last(v.control).outer
  {
    hide Step, M.HaveTypes, OpenThrough;
    if c.labels == [] {
      RootContext(fn, c.pc);
    } else {
      var k := |c.labels| - 1;
      assert LabelFits(fn, c.labels[k], k + 1, c.pc);
      LabelFrame(fn, c.labels[k], k + 1, c.pc);
    }
  }

  /** Operands the validator pops can be popped by the machine. */
  lemma PopFits(c: M.Config, v: State, ts: seq<ValueType>, r: State)
    requires c.Run? && v.control != [] && Last(v.control).reachable
    requires M.Base(c) == Last(v.control).outer && M.HaveTypes(c.stack, v.stack)
    requires Popped(v, ts, r)
    ensures M.CanPop(c, ts) && M.HaveTypes(Below(c.stack, |ts|), r.stack)
  {
    var n := |r.stack|;
    assert |c.stack| == n + |ts|;
    var top := Top(c.stack, |ts|);
    forall i | 0 <= i < |ts| ensures M.HasType(top[i], ts[i]) {
      assert top[i] == c.stack[n + i];
      SubtypeTransitive(c.stack[n + i].ty, v.stack[n + i], ts[i]);
    }
  }

  lemma AppendTypes(vs: seq<M.Value>, ts: seq<ValueType>, ws: seq<M.Value>, us: seq<ValueType>)
    requires M.HaveTypes(vs, ts) && M.HaveTypes(ws, us)
    ensures M.HaveTypes(vs + ws, ts + us)
  {
  }

  lemma PrefixTypes(vs: seq<M.Value>, ts: seq<ValueType>, n: nat)
    requires M.HaveTypes(vs, ts) && n <= |vs|
    ensures M.HaveTypes(vs[..n], ts[..n])
  {
  }

  // ----- labels along control transfers -----

  lemma LabelsForward(fn: FunctionDef, labels: seq<M.Label>, pc: nat, n: nat, to: nat)
    requires Accepted(fn) && LabelsFit(fn, labels, pc) && n <= |labels|
    requires pc <= to <= |fn.code|
    requires forall q :: pc < q <= to ==> Depth(fn, q) > n
    ensures LabelsFit(fn, labels[..n], to)
  {
    forall k | 0 <= k < n ensures LabelFits(fn, labels[..n][k], k + 1, to) {
      var l := labels[k];
      assert LabelFits(fn, l, k + 1, pc);
      forall q | l.opener < q <= to ensures Depth(fn, q) > Depth(fn, l.opener) {
        if q > pc {
          assert Depth(fn, q) > n;
        }
      }
    }
  }

  lemma LabelsBack(fn: FunctionDef, labels: seq<M.Label>, pc: nat, n: nat, to: nat)
    requires Accepted(fn) && LabelsFit(fn, labels, pc) && n <= |labels|
    requires to <= pc
    requires forall k :: 0 <= k < n ==> labels[k].opener < to
    ensures LabelsFit(fn, labels[..n], to)
  {
    forall k | 0 <= k < n ensures LabelFits(fn, labels[..n][k], k + 1, to) {
      assert LabelFits(fn, labels[k], k + 1, pc);
      assert labels[k].opener < to;
    }
  }

  lemma LabelsPush(fn: FunctionDef, labels: seq<M.Label>, l: M.Label, pc: nat)
    requires Accepted(fn) && LabelsFit(fn, labels, pc) && LabelFits(fn, l, |labels| + 1, pc)
    requires forall k :: 0 <= k < |labels| ==> labels[k].opener < l.opener
    ensures LabelsFit(fn, labels + [l], pc)
  {
  }

  // ----- control transfers keep configurations typed -----

  /** Arriving behind the construct of label `k` with its results on the stack. */
  lemma ArriveAfterEnd(fn: FunctionDef, c: M.Config, v: State, k: nat, c': M.Config)
    requires Accepted(fn) && Fits(fn, c, v) && k < |c.labels|
    requires var l := c.labels[k];
             && l.height <= |c.stack| && |c.stack| >= |l.ty.results|
             && M.HaveTypes(Top(c.stack, |l.ty.results|), l.ty.results)
             && c' == c.(pc := FindEnd(fn.code, l.opener + 1, 0) + 1,
                         stack := c.stack[..l.height] + Top(c.stack, |l.ty.results|),
                         labels := c.labels[..k])
    ensures Typed(fn, c')
  {
    hide Step, M.HaveTypes, Popped, Opened;
    var l := c.labels[k];
    var o := l.opener;
    assert LabelFits(fn, l, k + 1, c.pc);
    LabelFrame(fn, l, k + 1, c.pc);
    OpenBeforeEnd(fn, o, c.pc);
    var e := MatchingEnd(fn, o);
    AfterEnd(fn, o);
    LabelsForward(fn, c.labels, c.pc, k, e + 1);
    AtEnd(fn);
    LowerPrefix(fn, c, v, k);
    PrefixTypes(c.stack, v.stack, l.height);
    AppendTypes(c.stack[..l.height], v.stack[..l.height], Top(c.stack, |l.ty.results|), l.ty.results);
  }

  /** Below the base of label `k`, the operand types are those from before it was opened. */
  lemma LowerPrefix(fn: FunctionDef, c: M.Config, v: State, k: nat)
    requires Accepted(fn) && Fits(fn, c, v) && k < |c.labels|
    ensures var l := c.labels[k];
            && l.height <= |v.stack| && l.opener < |fn.code| && l.height <= |At(fn, l.opener).stack|
            && v.stack[..l.height] == At(fn, l.opener).stack[..l.height]
  {
    hide Step, M.HaveTypes, Opened;
    var l, w := c.labels[k], At(fn, c.pc);
    assert LabelFits(fn, l, k + 1, c.pc);
    LabelFrame(fn, l, k + 1, c.pc);
    assert w.control[k + 1].outer <= Last(w.control).outer;
    PrefixAgrees(w, v, l.height);
  }

  /** Arriving at the top of the loop of label `k` with its parameters on the stack. */
  lemma ArriveAtLoop(fn: FunctionDef, c: M.Config, v: State, k: nat, c': M.Config)
    requires Accepted(fn) && Fits(fn, c, v) && k < |c.labels|
    requires var l := c.labels[k];
             && l.opener < |fn.code| && fn.code[l.opener].Loop?
             && l.height <= |c.stack| && |c.stack| >= |l.ty.params|
             && M.HaveTypes(Top(c.stack, |l.ty.params|), l.ty.params)
             && c' == c.(pc := l.opener + 1,
                         stack := c.stack[..l.height] + Top(c.stack, |l.ty.params|),
                         labels := c.labels[..k + 1])
    ensures Typed(fn, c')
  {
    hide Step, M.HaveTypes, Popped;
    var l := c.labels[k];
    var o := l.opener;
    assert LabelFits(fn, l, k + 1, c.pc);
    LabelFrame(fn, l, k + 1, c.pc);
    OpenedContext(fn, o);
    LabelsBack(fn, c.labels, c.pc, k + 1, o + 1);
    AtEnd(fn);
    LowerPrefix(fn, c, v, k);
    PrefixTypes(c.stack, v.stack, l.height);
    AppendTypes(c.stack[..l.height], v.stack[..l.height], Top(c.stack, |l.ty.params|), l.ty.params);
    assert AllReachable(At(fn, o + 1));
  }

  /** Any branch the validator admits is typed. */
  lemma BranchTyped(fn: FunctionDef, c: M.Config, v: State, depth: nat, r: State)
    requires Accepted(fn) && Fits(fn, c, v)
    requires depth < |v.control| && Popped(v, v.control[|v.control| - depth - 1].params, r)
    ensures Typed(fn, M.BranchTo(fn, c, depth))
  {
    hide Step, M.HaveTypes, Typed, OpenThrough, ValidTuple;
    var ts := v.control[|v.control| - depth - 1].params;
    BaseIsOuter(fn, c, v);
    PopFits(c, v, ts, r);
    if depth == |c.labels| {
      RootContext(fn, c.pc);
      assert Typed(fn, M.Done(Top(c.stack, |ts|), c.world)) by { DoneTyped(fn, Top(c.stack, |ts|), c.world); }
    } else {
      var k := |c.labels| - 1 - depth;
      var l := c.labels[k];
      assert LabelFits(fn, l, k + 1, c.pc);
      LabelFrame(fn, l, k + 1, c.pc);
      LowerPrefix(fn, c, v, k);
      assert |c.stack| == |v.stack| by { SameLength(c.stack, v.stack); }
      if fn.code[l.opener].Loop? {
        ArriveAtLoop(fn, c, v, k, M.BranchTo(fn, c, depth));
      } else {
        ArriveAfterEnd(fn, c, v, k, M.BranchTo(fn, c, depth));
      }
    }
  }

  lemma SameLength(vs: seq<M.Value>, ts: seq<ValueType>)
    requires M.HaveTypes(vs, ts)
    ensures |vs| == |ts|
  {
  }

  lemma DoneTyped(fn: FunctionDef, results: seq<M.Value>, w: M.World)
    requires Accepted(fn) && M.HaveTypes(results, Signature(fn).results)
    ensures Typed(fn, M.Done(results, w))
  {
  }

  // ----- one lemma per kind of operator -----

  lemma FallThrough(fn: FunctionDef, c: M.Config, c': M.Config)
    requires Accepted(fn) && Typed(fn, c) && c.Run? && c'.Run?
    requires c' == c.(pc := c.pc + 1, stack := c'.stack, locals := c'.locals, world := c'.world)
    requires At(fn, c.pc + 1).control == At(fn, c.pc).control
    requires M.HaveTypes(c'.stack, At(fn, c.pc + 1).stack) && M.HaveTypes(c'.locals, LocalTypes(fn))
    ensures Typed(fn, c')
  {
    hide Step, M.HaveTypes, ValidTuple;
    assert Depth(fn, c.pc + 1) > |c.labels|;
    LabelsForward(fn, c.labels, c.pc, |c.labels|, c.pc + 1);
    assert c.labels[..|c.labels|] == c.labels;
    AtEnd(fn);
  }

  /** Entering the construct opened at `c.pc`, at its first arm or behind its `else`. */
  lemma EnterTyped(fn: FunctionDef, c: M.Config, next: nat, args: seq<M.Value>)
    requires Accepted(fn) && Typed(fn, c) && c.Run? && fn.code[c.pc].Opens()
    requires c.pc < next < |fn.code| && OpenThrough(fn, c.pc, next) && Depth(fn, next) == Depth(fn, c.pc) + 1
    requires var h, w := OpenBase(fn, c.pc), At(fn, next);
             && Front(w.control) == At(fn, c.pc).control && Last(w.control).reachable
             && ResolveBlockType(fn.mod, fn.code[c.pc].bt).Some?
             && var t := ResolveBlockType(fn.mod, fn.code[c.pc].bt).value;
             && h <= |c.stack| && w.stack == At(fn, c.pc).stack[..h] + t.params
             && M.HaveTypes(args, t.params)
    ensures var h, t := OpenBase(fn, c.pc), ResolveBlockType(fn.mod, fn.code[c.pc].bt).value;
            Typed(fn, c.(pc := next, stack := c.stack[..h] + args,
                         labels := c.labels + [M.Label(c.pc, t, h)]))
  {
    hide Step, M.HaveTypes, ValidTuple, Popped;
    var h, t := OpenBase(fn, c.pc), ResolveBlockType(fn.mod, fn.code[c.pc].bt).value;
    var l := M.Label(c.pc, t, h);
    LabelsForward(fn, c.labels, c.pc, |c.labels|, next);
    assert c.labels[..|c.labels|] == c.labels;
    assert LabelFits(fn, l, |c.labels| + 1, next);
    LabelsPush(fn, c.labels, l, next);
    PrefixTypes(c.stack, At(fn, c.pc).stack, h);
    AppendTypes(c.stack[..h], At(fn, c.pc).stack[..h], args, t.params);
    assert AllReachable(At(fn, next)) by {
      var w := At(fn, next);
      forall i | 0 <= i < |w.control| ensures w.control[i].reachable {
        if i < |w.control| - 1 {
          assert w.control[i] == Front(w.control)[i];
        }
      }
    }
  }

  /** The operands a reachable opener takes. */
  lemma OpenerOperands(fn: FunctionDef, c: M.Config)
    requires Accepted(fn) && Typed(fn, c) && c.Run? && fn.code[c.pc].Opens()
    ensures ResolveBlockType(fn.mod, fn.code[c.pc].bt).Some?
    ensures var t := ResolveBlockType(fn.mod, fn.code[c.pc].bt).value;
            && (fn.code[c.pc].If? ==>
                  && M.CanPop(c, [I32])
                  && M.CanPop(M.PopTop(c), t.params)
                  && |c.stack| - 1 - |t.params| == OpenBase(fn, c.pc))
            && (!fn.code[c.pc].If? ==>
                  && M.CanPop(c, t.params)
                  && |c.stack| - |t.params| == OpenBase(fn, c.pc))
  {
    hide M.HaveTypes, ValidTuple, OpenOp, PopTuple, Opened, ResolveBlockType;
    var op, v := fn.code[c.pc], At(fn, c.pc);
    AtStep(fn, c.pc);
    OpenedContext(fn, c.pc);
    BaseIsOuter(fn, c, v);
    SameLength(c.stack, v.stack);
    match op {
      case If(bt) =>
        var s1 := PopOperand(v, I32).value;
        PopOperandPops(v, I32);
        PopFits(c, v, [I32], s1);
        OpenOpOpens(fn, s1, bt, IfThen);
        var t := ResolveBlockType(fn.mod, bt).value;
        PopFits(M.PopTop(c), s1, t.params, PopTuple(s1, t.params).value);
      case Block(bt) =>
        OpenOpOpens(fn, v, bt, BlockBody);
        var t := ResolveBlockType(fn.mod, bt).value;
        PopFits(c, v, t.params, PopTuple(v, t.params).value);
      case Loop(bt) =>
        OpenOpOpens(fn, v, bt, LoopBody);
        var t := ResolveBlockType(fn.mod, bt).value;
        PopFits(c, v, t.params, PopTuple(v, t.params).value);
    }
  }

  /** A false `if` without an `else` passes its operands through. */
  lemma SkipTyped(fn: FunctionDef, c: M.Config)
    requires Accepted(fn) && Typed(fn, c) && c.Run? && fn.code[c.pc].If?
    requires FindElse(fn.code, c.pc + 1, 0).None?
    ensures M.CanPop(c, [I32]) && ResolveBlockType(fn.mod, fn.code[c.pc].bt).Some?
    ensures Typed(fn, M.SkipIf(fn, M.PopTop(c), ResolveBlockType(fn.mod, fn.code[c.pc].bt).value))
  {
    hide Step, M.HaveTypes, ValidTuple, Popped, ResolveBlockType, Opened;
    OpenerOperands(fn, c);
    NoElseIdentity(fn, c.pc);
    AfterEnd(fn, c.pc);
    var e, t, h := MatchingEnd(fn, c.pc), ResolveBlockType(fn.mod, fn.code[c.pc].bt).value, OpenBase(fn, c.pc);
    var d := M.PopTop(c);
    assert forall q :: c.pc < q <= e + 1 ==> Depth(fn, q) > |c.labels|;
    LabelsForward(fn, c.labels, c.pc, |c.labels|, e + 1);
    assert c.labels[..|c.labels|] == c.labels;
    AtEnd(fn);
    PrefixTypes(c.stack, At(fn, c.pc).stack, h);
    AppendTypes(c.stack[..h], At(fn, c.pc).stack[..h], Top(d.stack, |t.params|), t.params);
    assert d.stack == c.stack[..h] + Top(d.stack, |t.params|);
  }

  /** Entering a construct at its first operator. */
  lemma EnterHere(fn: FunctionDef, c: M.Config)
    requires Accepted(fn) && Typed(fn, c) && c.Run? && fn.code[c.pc].Opens()
    ensures ResolveBlockType(fn.mod, fn.code[c.pc].bt).Some? && (fn.code[c.pc].If? ==> c.stack != [])
    ensures var d := if fn.code[c.pc].If? then M.PopTop(c) else c;
            Typed(fn, M.Enter(d, ResolveBlockType(fn.mod, fn.code[c.pc].bt).value, c.pc + 1))
  {
    hide Step, M.HaveTypes, ValidTuple, Popped, ResolveBlockType, Typed;
    TypedInRange(fn, c);
    OpenerOperands(fn, c);
    OpenedContext(fn, c.pc);
    AtStep(fn, c.pc);
    AtEnd(fn);
    var t, h := ResolveBlockType(fn.mod, fn.code[c.pc].bt).value, OpenBase(fn, c.pc);
    var d := if fn.code[c.pc].If? then M.PopTop(c) else c;
    var args := Top(d.stack, |t.params|);
    EnteredStack(c, d, h, |t.params|);
    EnterTyped(fn, c, c.pc + 1, args);
  }

  lemma EnteredStack(c: M.Config, d: M.Config, h: nat, n: nat)
    requires c.Run? && d.Run? && (d == c || (c.stack != [] && d == M.PopTop(c))) && |d.stack| - n == h
    ensures h <= |c.stack| && d.stack == c.stack[..h] + Top(d.stack, n)
  {
  }

  /** Entering an `if` behind its `else`. */
  lemma EnterElse(fn: FunctionDef, c: M.Config)
    requires Accepted(fn) && Typed(fn, c) && c.Run? && fn.code[c.pc].If?
    requires FindElse(fn.code, c.pc + 1, 0).Some?
    ensures ResolveBlockType(fn.mod, fn.code[c.pc].bt).Some? && c.stack != []
    ensures Typed(fn, M.Enter(M.PopTop(c), ResolveBlockType(fn.mod, fn.code[c.pc].bt).value,
                              FindElse(fn.code, c.pc + 1, 0).value + 1))
  {
    hide Step, M.HaveTypes, ValidTuple, Popped, ResolveBlockType, Typed, Opened;
    TypedInRange(fn, c);
    OpenerOperands(fn, c);
    ElsePosition(fn, c.pc);
    AfterElse(fn, c.pc);
    AtEnd(fn);
    var t, h := ResolveBlockType(fn.mod, fn.code[c.pc].bt).value, OpenBase(fn, c.pc);
    var args := Top(Front(c.stack), |t.params|);
    assert Front(c.stack) == c.stack[..h] + args;
    EnterTyped(fn, c, FindElse(fn.code, c.pc + 1, 0).value + 1, args);
  }

  lemma OpenerTyped(fn: FunctionDef, prim: M.Primitives, c: M.Config)
    requires Accepted(fn) && Typed(fn, c) && c.Run? && fn.code[c.pc].Opens()
    ensures Typed(fn, M.Step(fn, prim, c))
  {
    hide Step, M.HaveTypes, ResolveBlockType, Typed, Accepted, M.Enter, M.SkipIf, WellFormed;
    TypedInRange(fn, c);
    EnterHere(fn, c);
    if fn.code[c.pc].If? {
      OpenerOperands(fn, c);
      if FindElse(fn.code, c.pc + 1, 0).Some? {
        EnterElse(fn, c);
      } else {
        SkipTyped(fn, c);
      }
    }
  }

  lemma TypedInRange(fn: FunctionDef, c: M.Config)
    requires Accepted(fn) && Typed(fn, c) && c.Run?
    ensures c.pc < |fn.code| && Fits(fn, c, At(fn, c.pc))
  {
  }

  /** Leaving a construct by its `end`, or its first arm by the `else`. */
  lemma LeaveTyped(fn: FunctionDef, c: M.Config, r: State)
    requires Accepted(fn) && Typed(fn, c) && c.Run? && c.labels != []
    requires Popped(At(fn, c.pc), Last(At(fn, c.pc).control).results, r)
    requires |r.stack| == Last(At(fn, c.pc).control).outer
    ensures Typed(fn, M.Leave(c, FindEnd(fn.code, Last(c.labels).opener + 1, 0) + 1))
  {
    hide Step, M.HaveTypes, ValidTuple, Typed;
    TypedInRange(fn, c);
    var k, v := |c.labels| - 1, At(fn, c.pc);
    var l := c.labels[k];
    assert LabelFits(fn, l, k + 1, c.pc);
    LabelFrame(fn, l, k + 1, c.pc);
    BaseIsOuter(fn, c, v);
    SameLength(c.stack, v.stack);
    PopFits(c, v, l.ty.results, r);
    var c' := M.Leave(c, FindEnd(fn.code, l.opener + 1, 0) + 1);
    assert c'.stack == c.stack[..l.height] + Top(c.stack, |l.ty.results|);
    ArriveAfterEnd(fn, c, v, k, c');
  }

  /** A reached `end` closes the construct of the innermost label. */
  lemma EndMatches(fn: FunctionDef, c: M.Config)
    requires Accepted(fn) && Typed(fn, c) && c.Run? && c.labels != [] && fn.code[c.pc].End?
    ensures FindEnd(fn.code, Last(c.labels).opener + 1, 0) == c.pc
  {
    hide Step, M.HaveTypes, ValidTuple, Framed, Shaped;
    var k := |c.labels| - 1;
    var l := c.labels[k];
    assert LabelFits(fn, l, k + 1, c.pc);
    OpenBeforeEnd(fn, l.opener, c.pc);
    AtStep(fn, c.pc);
    var e := MatchingEnd(fn, l.opener);
    assert Depth(fn, c.pc + 1) == Depth(fn, l.opener);
  }

  lemma CloserTyped(fn: FunctionDef, prim: M.Primitives, c: M.Config)
    requires Accepted(fn) && Typed(fn, c) && c.Run? && (fn.code[c.pc].Else? || fn.code[c.pc].End?)
    ensures Typed(fn, M.Step(fn, prim, c))
  {
    hide Step, M.HaveTypes, ValidTuple, Typed, PopTuple;
    TypedInRange(fn, c);
    var v := At(fn, c.pc);
    AtStep(fn, c.pc);
    if fn.code[c.pc].Else? {
      ElseSwitches(fn, v);
      if c.labels == [] {
        RootContext(fn, c.pc);
      } else {
        LeaveTyped(fn, c, PopTuple(v, Last(v.control).results).value);
      }
    } else {
      EndCloses(fn, v);
      if c.labels == [] {
        RootContext(fn, c.pc);
        BaseIsOuter(fn, c, v);
        SameLength(c.stack, v.stack);
        var results := Signature(fn).results;
        PopFits(c, v, results, PopTuple(v, results).value);
        DoneTyped(fn, Top(c.stack, |results|), c.world);
      } else {
        LeaveTyped(fn, c, PopTuple(v, Last(v.control).results).value);
        EndMatches(fn, c);
      }
    }
  }

  /** Popping the condition of a branch. */
  lemma ConditionFits(fn: FunctionDef, c: M.Config)
    requires Accepted(fn) && Typed(fn, c) && c.Run?
    requires At(fn, c.pc).control != [] && PopOperand(At(fn, c.pc), I32).Some?
    ensures M.CanPop(c, [I32])
    ensures Fits(fn, M.PopTop(c), PopOperand(At(fn, c.pc), I32).value)
    ensures Shaped(PopOperand(At(fn, c.pc), I32).value)
  {
    hide Step, M.HaveTypes, ValidTuple, PopOperand, LabelsFit;
    TypedInRange(fn, c);
    var v := At(fn, c.pc);
    var s1 := PopOperand(v, I32).value;
    BaseIsOuter(fn, c, v);
    PopOperandSame(v, I32, []);
    PopFits(c, v, [I32], s1);
  }

  lemma BranchOpTyped(fn: FunctionDef, prim: M.Primitives, c: M.Config)
    requires Accepted(fn) && Typed(fn, c) && c.Run? && (fn.code[c.pc].Br? || fn.code[c.pc].Return?)
    ensures Typed(fn, M.Step(fn, prim, c))
  {
    hide M.HaveTypes, ValidTuple, Typed, PopTuple, M.BranchTo;
    TypedInRange(fn, c);
    var v := At(fn, c.pc);
    AtStep(fn, c.pc);
    match fn.code[c.pc] {
      case Br(depth) =>
        var ts := Target(v, depth).value.params;
        PopTuplePops(v, ts);
        BranchTyped(fn, c, v, depth, PopTuple(v, ts).value);
      case Return =>
        var ts := Signature(fn).results;
        RootContext(fn, c.pc);
        PopTuplePops(v, ts);
        BaseIsOuter(fn, c, v);
        PopFits(c, v, ts, PopTuple(v, ts).value);
        DoneTyped(fn, Top(c.stack, |ts|), c.world);
    }
  }

  lemma BrIfTyped(fn: FunctionDef, prim: M.Primitives, c: M.Config)
    requires Accepted(fn) && Typed(fn, c) && c.Run? && fn.code[c.pc].BrIf?
    ensures Typed(fn, M.Step(fn, prim, c))
  {
    hide M.HaveTypes, ValidTuple, Typed, PopTuple, PopOperand, M.BranchTo;
    TypedInRange(fn, c);
    var v, depth := At(fn, c.pc), fn.code[c.pc].depth;
    AtStep(fn, c.pc);
    ConditionFits(fn, c);
    var c1, s1, ts := M.PopTop(c), PopOperand(v, I32).value, Target(v, depth).value.params;
    PopTuplePops(s1, ts);
    BranchTyped(fn, c1, s1, depth, PopTuple(s1, ts).value);
    BaseIsOuter(fn, c1, s1);
    PopFits(c1, s1, ts, PopTuple(s1, ts).value);
    AppendTypes(Below(c1.stack, |ts|), PopTuple(s1, ts).value.stack, Top(c1.stack, |ts|), ts);
    assert c1.stack == Below(c1.stack, |ts|) + Top(c1.stack, |ts|);
    FallThrough(fn, c, c1.(pc := c.pc + 1));
  }

  lemma BrTableTyped(fn: FunctionDef, prim: M.Primitives, c: M.Config)
    requires Accepted(fn) && Typed(fn, c) && c.Run? && fn.code[c.pc].BrTable?
    ensures Typed(fn, M.Step(fn, prim, c))
  {
    hide M.HaveTypes, ValidTuple, Typed, PopTuple, PopOperand, M.BranchTo, PeekTuple;
    TypedInRange(fn, c);
    var v, depths, default := At(fn, c.pc), fn.branchTables[fn.code[c.pc].table], fn.code[c.pc].default;
    AtStep(fn, c.pc);
    ConditionFits(fn, c);
    var c1, s1, i := M.PopTop(c), PopOperand(v, I32).value, Last(c.stack).bits;
    if 0 <= i < |depths| {
      EntryTyped(fn, c1, s1, depths[i]);
    } else {
      var ts := Target(s1, default).value.params;
      PopTuplePops(s1, ts);
      BranchTyped(fn, c1, s1, default, PopTuple(s1, ts).value);
    }
  }

  lemma EntryTyped(fn: FunctionDef, c: M.Config, v: State, depth: nat)
    requires Accepted(fn) && Fits(fn, c, v) && Target(v, depth).Some? && PeekTuple(v, Target(v, depth).value.params)
    ensures Typed(fn, M.BranchTo(fn, c, depth))
  {
    hide M.HaveTypes, ValidTuple, Typed, M.BranchTo, PeekTuple;
    var ts := Target(v, depth).value.params;
    PeekPops(v, ts);
    BranchTyped(fn, c, v, depth, v.(stack := Below(v.stack, |ts|)));
  }

  /** Operands that can be peeked in reachable code can be popped. */
  lemma PeekPops(s: State, ts: seq<ValueType>)
    requires s.control != [] && Last(s.control).outer <= |s.stack| && Last(s.control).reachable
    requires PeekTuple(s, ts)
    ensures |ts| <= |s.stack| && Popped(s, ts, s.(stack := Below(s.stack, |ts|)))
  {
    if ts != [] {
      assert Peek(s, |ts| - 0 - 1, ts[0]).Some?;
      var n := |s.stack| - |ts|;
      forall i | 0 <= i < |ts| ensures IsSubtype(s.stack[n + i], ts[i]) {
        assert Peek(s, |ts| - i - 1, ts[i]).Some?;
      }
    }
  }

  /** Operators that replace operands and move on. */
  lemma ReplaceTyped(fn: FunctionDef, c: M.Config, ts: seq<ValueType>, r: State,
                     vs: seq<M.Value>, us: seq<ValueType>, locals: seq<M.Value>, w: M.World)
    requires Accepted(fn) && Typed(fn, c) && c.Run? && Popped(At(fn, c.pc), ts, r)
    requires At(fn, c.pc + 1) == PushTuple(r, us) && M.HaveTypes(vs, us)
    requires M.HaveTypes(locals, LocalTypes(fn))
    ensures M.CanPop(c, ts)
    ensures Typed(fn, c.(pc := c.pc + 1, stack := Below(c.stack, |ts|) + vs, locals := locals, world := w))
  {
    hide Step, M.HaveTypes, ValidTuple;
    var v := At(fn, c.pc);
    BaseIsOuter(fn, c, v);
    PopFits(c, v, ts, r);
    AppendTypes(Below(c.stack, |ts|), r.stack, vs, us);
    FallThrough(fn, c, c.(pc := c.pc + 1, stack := Below(c.stack, |ts|) + vs, locals := locals, world := w));
  }

  lemma LocalGetTyped(fn: FunctionDef, prim: M.Primitives, c: M.Config)
    requires Accepted(fn) && Typed(fn, c) && c.Run? && fn.code[c.pc].LocalGet?
    ensures Typed(fn, M.Step(fn, prim, c))
  {
    hide ValidTuple, Typed;
    TypedInRange(fn, c);
    AtStep(fn, c.pc);
    var i := fn.code[c.pc].index;
    ReplaceTyped(fn, c, [], At(fn, c.pc), [c.locals[i]], [LocalTypes(fn)[i]], c.locals, c.world);
  }

  lemma LocalPutTyped(fn: FunctionDef, prim: M.Primitives, c: M.Config)
    requires Accepted(fn) && Typed(fn, c) && c.Run? && (fn.code[c.pc].LocalSet? || fn.code[c.pc].LocalTee?)
    ensures Typed(fn, M.Step(fn, prim, c))
  {
    hide ValidTuple, Typed, PopOperand, M.HaveTypes;
    TypedInRange(fn, c);
    AtStep(fn, c.pc);
    var v, i := At(fn, c.pc), fn.code[c.pc].index;
    var t := LocalTypes(fn)[i];
    var r := PopOperand(v, t).value;
    PopOperandPops(v, t);
    BaseIsOuter(fn, c, v);
    PopFits(c, v, [t], r);
    var top := Last(c.stack);
    SetLocal(c.locals, LocalTypes(fn), i, c.stack, v.stack);
    SameLength(c.stack, v.stack);
    if fn.code[c.pc].LocalSet? {
      NoValues();
      ReplaceTyped(fn, c, [t], r, [], [], c.locals[i := top], c.world);
    } else {
      assert TopType(v) == Last(v.stack);
      ReplaceTyped(fn, c, [t], r, [top], [TopType(v)], c.locals[i := top], c.world);
      assert Below(c.stack, 1) + [top] == Below(c.stack, 0) + [];
    }
  }

  /** The top operand, which fits the type of local `i`, can be stored there. */
  lemma SetLocal(locals: seq<M.Value>, ts: seq<ValueType>, i: nat, stack: seq<M.Value>, types: seq<ValueType>)
    requires M.HaveTypes(locals, ts) && i < |ts| && M.HaveTypes(stack, types)
    requires stack != [] && M.HaveTypes(Top(stack, 1), [ts[i]])
    ensures |locals| == |ts| && M.HaveTypes(locals[i := Last(stack)], ts)
    ensures types != [] && M.HaveTypes([Last(stack)], [Last(types)])
  {
    assert Top(stack, 1)[0] == Last(stack);
  }

  lemma PlainTyped(fn: FunctionDef, prim: M.Primitives, c: M.Config)
    requires Accepted(fn) && Typed(fn, c) && c.Run? && M.Respects(prim, fn)
    requires fn.code[c.pc].Plain? || fn.code[c.pc].Drop?
    ensures Typed(fn, M.Step(fn, prim, c))
  {
    hide ValidTuple, M.HaveTypes, PopTuple;
    TypedInRange(fn, c);
    AtStep(fn, c.pc);
    var v := At(fn, c.pc);
    assert M.HaveTypes([], []) by { NoValues(); }
    if fn.code[c.pc].Drop? {
      PopOperandPops(v, AnyType);
      ReplaceTyped(fn, c, [AnyType], PopOperand(v, AnyType).value, [], [], c.locals, c.world);
    } else {
      var sig := fn.code[c.pc].sig;
      PopTuplePops(v, sig.params);
      var s1 := PopTuple(v, sig.params).value;
      BaseIsOuter(fn, c, v);
      PopFits(c, v, sig.params, s1);
      var outcome := prim(fn.code[c.pc].id, Top(c.stack, |sig.params|), c.world);
      if outcome.Results? {
        ReplaceTyped(fn, c, sig.params, s1, outcome.values, sig.results, c.locals, outcome.world);
      }
    }
  }

  lemma NoValues()
    ensures M.HaveTypes([], [])
  {
  }

  lemma SelectTyped(fn: FunctionDef, prim: M.Primitives, c: M.Config)
    requires Accepted(fn) && Typed(fn, c) && c.Run? && fn.code[c.pc].Select?
    ensures Typed(fn, M.Step(fn, prim, c))
  {
    hide ValidTuple, Typed, SelectOp, M.HaveTypes;
    TypedInRange(fn, c);
    AtStep(fn, c.pc);
    var v, ty := At(fn, c.pc), fn.code[c.pc].ty;
    SelectPops(fn.mod.features, v, ty);
    var t := if ty.AnyType? then AnyType else ty;
    var n := |v.stack| - 3;
    var r := v.(stack := v.stack[..n]);
    BaseIsOuter(fn, c, v);
    PopFits(c, v, [t, t, I32], r);
    SelectValues(c.stack, v.stack, n, ty);
    var args := Top(c.stack, 3);
    var chosen := if args[2].bits != 0 then args[0] else args[1];
    ReplaceTyped(fn, c, [t, t, I32], r, [chosen], [if ty.AnyType? then v.stack[n + 1] else ty], c.locals, c.world);
  }

  /** Whichever operand a `select` picks has the type the validator pushes. */
  lemma SelectValues(stack: seq<M.Value>, types: seq<ValueType>, n: nat, ty: ValueType)
    requires M.HaveTypes(stack, types) && |types| == n + 3
    requires var t := if ty.AnyType? then AnyType else ty; M.HaveTypes(Top(stack, 3), [t, t, I32])
    ensures !types[n].NoType? && !types[n + 1].NoType?
    ensures ty.AnyType? && types[n] == types[n + 1] && IsNumeric(types[n]) ==>
              stack[n].ty == stack[n + 1].ty == types[n]
    ensures |stack| == n + 3 && Top(stack, 3) == [stack[n], stack[n + 1], stack[n + 2]]
    ensures !ty.AnyType? || types[n] == types[n + 1] ==>
              var u := if ty.AnyType? then types[n + 1] else ty;
              M.HaveTypes([stack[n]], [u]) && M.HaveTypes([stack[n + 1]], [u])
  {
    var top := Top(stack, 3);
    assert top[0] == stack[n] && top[1] == stack[n + 1] && top[2] == stack[n + 2];
    NumericExact(stack[n], types[n]);
    NumericExact(stack[n + 1], types[n + 1]);
  }

  lemma NumericExact(v: M.Value, t: ValueType)
    requires M.HasType(v, t)
    ensures IsNumeric(t) ==> v.ty == t
    ensures !t.NoType?
  {
  }

  /** A reachable `select` pops two operands and a condition. */
  lemma SelectPops(features: FeatureSpec, s: State, ty: ValueType)
    requires Shaped(s) && s.control != [] && Last(s.control).reachable
    requires SelectOp(features, s, ty).Some?
    ensures |s.stack| >= 3 + Last(s.control).outer
    ensures var n, t := |s.stack| - 3, if ty.AnyType? then AnyType else ty;
            && Popped(s, [t, t, I32], s.(stack := s.stack[..n]))
            && (ty.AnyType? && !s.stack[n].NoType? && !s.stack[n + 1].NoType? ==>
                  s.stack[n] == s.stack[n + 1] && IsNumeric(s.stack[n]))
            && (!s.stack[n].NoType? && !s.stack[n + 1].NoType? ==>
                  SelectOp(features, s, ty).value
                  == PushTuple(s.(stack := s.stack[..n]), [if ty.AnyType? then s.stack[n + 1] else ty]))
  {
    var n := |s.stack| - 3;
    assert Front(Front(Front(s.stack))) == s.stack[..n];
  }

  /** Subject reduction: every step of a typed configuration is typed. */
  lemma StepTyped(fn: FunctionDef, prim: M.Primitives, c: M.Config)
    requires Accepted(fn) && Typed(fn, c) && M.Respects(prim, fn)
    ensures Typed(fn, M.Step(fn, prim, c))
  {
    hide ValidTuple, M.HaveTypes, M.Respects, Fits;
    if c.Run? {
      match fn.code[c.pc] {
        case Block(_) => OpenerTyped(fn, prim, c);
        case Loop(_) => OpenerTyped(fn, prim, c);
        case If(_) => OpenerTyped(fn, prim, c);
        case Else => CloserTyped(fn, prim, c);
        case End => CloserTyped(fn, prim, c);
        case Br(_) => BranchOpTyped(fn, prim, c);
        case BrIf(_) => BrIfTyped(fn, prim, c);
        case BrTable(_, _) => BrTableTyped(fn, prim, c);
        case Return => BranchOpTyped(fn, prim, c);
        case Unreachable =>
        case Drop => PlainTyped(fn, prim, c);
        case Select(_) => SelectTyped(fn, prim, c);
        case LocalGet(_) => LocalGetTyped(fn, prim, c);
        case LocalSet(_) => LocalPutTyped(fn, prim, c);
        case LocalTee(_) => LocalPutTyped(fn, prim, c);
        case Plain(_, _, _) => PlainTyped(fn, prim, c);
      }
    }
  }

  lemma StartTyped(fn: FunctionDef, args: seq<M.Value>, w: M.World)
    requires Accepted(fn) && M.HaveTypes(args, Signature(fn).params)
    ensures Typed(fn, M.Start(fn, args, w))
  {
    hide Step;
    AtEnd(fn);
    assert StartsAt(fn, Trace(fn), 0);
    AppendTypes(args, Signature(fn).params, M.Zeros(fn.localTypes), fn.localTypes);
  }

  lemma {:induction false} StepsTyped(fn: FunctionDef, prim: M.Primitives, args: seq<M.Value>, w: M.World, n: nat)
    requires Accepted(fn) && M.HaveTypes(args, Signature(fn).params) && M.Respects(prim, fn)
    ensures Typed(fn, M.Steps(fn, prim, M.Start(fn, args, w), n))
  {
    hide M.Step, Typed, M.HaveTypes;
    if n == 0 {
      StartTyped(fn, args, w);
    } else {
      StepsTyped(fn, prim, args, w, n - 1);
      StepTyped(fn, prim, M.Steps(fn, prim, M.Start(fn, args, w), n - 1));
    }
  }

  /** Type soundness: on every run of an accepted body, for any arguments of the parameter types
      and any meaning of the plain operators that respects their signatures, no operand is ever
      missing or ill-typed, and the body can only finish with values of its result types. */
  lemma TypeSoundness(fn: FunctionDef, prim: M.Primitives, args: seq<M.Value>, w: M.World, n: nat)
    requires Accepts(fn) && M.HaveTypes(args, Signature(fn).params) && M.Respects(prim, fn)
    ensures var c := M.Steps(fn, prim, M.Start(fn, args, w), n);
            && !c.Stuck?
            && (c.Done? ==> M.HaveTypes(c.results, Signature(fn).results))
  {
    AcceptsIffRun(fn);
    StepsTyped(fn, prim, args, w, n);
  }
}