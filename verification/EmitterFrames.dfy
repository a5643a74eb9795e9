/** While a context of the emitter is open, its blocks, its branch target and the operands
    below it do not change. */
module EmitterFrames {
  import opened IR
  import opened Wrappers
  import opened Cfg
  import opened Emitter
  import opened GraphFacts
  import opened EmitterFacts

  /** `b` is the context `a` at a later moment: only its arm and its reachability may change. */
  ghost predicate SameContext(a: Context, b: Context) {
    && (b.elseBlock == a.elseBlock || b.elseBlock.None?)
    && a.endBlock == b.endBlock && a.endPhis == b.endPhis && a.elseArgs == b.elseArgs
    && a.results == b.results && a.outer == b.outer && a.outerTargets == b.outerTargets
  }

  ghost predicate FramedFrom(s: Emission, r: Emission) {
    && |s.targets| == |s.control| && |r.targets| == |r.control|
    && (forall k :: 0 <= k < |s.control| && k < |r.control| ==>
          SameContext(s.control[k], r.control[k]) && s.targets[k] == r.targets[k])
    && (forall k :: 0 <= k < |s.control| - 1 && k < |r.control| ==> s.control[k] == r.control[k])
    && (forall k :: 0 <= k < |s.control| && k < |r.control| && s.control[k].outer <= |s.stack| ==>
          s.control[k].outer <= |r.stack| && r.stack[..s.control[k].outer] == s.stack[..s.control[k].outer])
  }

  ghost predicate OutersOk(s: Emission) {
    && |s.targets| == |s.control|
    && (forall i, j :: 0 <= i < j < |s.control| ==> s.control[i].outer <= s.control[j].outer)
    && forall i :: 0 <= i < |s.control| ==> s.control[i].outer <= |s.stack|
  }

  /** The contexts grow by one, stay, or shrink by one; the stack is kept below the base. */
  lemma FrameOf(s: Emission, r: Emission, n: nat)
    requires OutersOk(s) && s.control != [] && |r.targets| == |r.control|
    requires |s.control| - 1 <= n <= |s.control| && n <= |r.control| <= |s.control| + 1
    requires r.control[..n] == s.control[..n] && r.targets[..n] == s.targets[..n]
    requires n < |r.control| && n < |s.control| ==>
               SameContext(s.control[n], r.control[n]) && s.targets[n] == r.targets[n]
    requires |r.control| <= n + 1
    requires var base := Last(s.control).outer; base <= |r.stack| && r.stack[..base] == s.stack[..base]
    ensures FramedFrom(s, r)
  {
    var base := Last(s.control).outer;
    forall k | 0 <= k < |s.control| && k < |r.control|
      ensures SameContext(s.control[k], r.control[k]) && s.targets[k] == r.targets[k]
      ensures k < n ==> s.control[k] == r.control[k]
      ensures s.control[k].outer <= |r.stack| && r.stack[..s.control[k].outer] == s.stack[..s.control[k].outer]
    {
      if k < n {
        assert r.control[..n][k] == s.control[..n][k] && r.targets[..n][k] == s.targets[..n][k];
      }
      var m := s.control[k].outer;
      assert m <= base;
      assert r.stack[..m] == r.stack[..base][..m] == s.stack[..base][..m] == s.stack[..m];
    }
  }

  lemma OpenersFrame(s: Emission, t: FuncType, r: Emission)
    requires Inv(s) && OutersOk(s) && s.control != []
    requires BlockOp(s, t) == Some(r) || LoopOp(s, t) == Some(r) || IfOp(s, t) == Some(r)
    ensures FramedFrom(s, r)
  {
    hide BlockOp, LoopOp, IfOp, Inv, FramedFrom, AddAll;
    AvailableAtOpeners(s, t);
    if BlockOp(s, t) == Some(r) {
      BlockForm(s, t);
    } else if LoopOp(s, t) == Some(r) {
      LoopForm(s, t);
    } else {
      IfForm(s, t);
    }
    FrameOf(s, r, |s.control|);
  }

  lemma AvailableAtOpeners(s: Emission, t: FuncType)
    ensures BlockOp(s, t).Some? || LoopOp(s, t).Some? ==> Available(s) >= |t.params|
    ensures IfOp(s, t).Some? ==> Available(s) >= |t.params| + 1
  {
  }

  lemma ClosersFrame(s: Emission, r: Emission)
    requires Inv(s) && OutersOk(s) && s.control != []
    requires ElseOp(s) == Some(r) || EndOp(s) == Some(r)
    ensures FramedFrom(s, r)
  {
    hide FramedFrom, EndOp, Inv, Sealed, BranchToEnd, DummyElse, EraseEmpty, Consistent, Extends, BlockCarries;
    InvParts(s);
    if EndOp(s) == Some(r) {
      EndGraph(s);
    } else {
      BranchToEndSeals(s);
    }
    FrameOf(s, r, |s.control| - 1);
  }

  lemma BranchesFrame(fn: FunctionDef, s: Emission, op: Op, r: Emission)
    requires WellFormed(fn) && WellFormedOp(fn, op) && Inv(s) && OutersOk(s) && s.control != []
    requires Last(s.control).reachable && ReachableStep(fn, s, op) == Some(r)
    requires op.Br? || op.BrIf? || op.BrTable? || op.Return? || op.Unreachable?
    ensures FramedFrom(s, r)
  {
    hide FramedFrom, Inv, BrTableOp, AddAll, Sealed, TargetsCarry, BrIfOp, Grown, Consistent, BlockCarries, ValidTuple;
    InvParts(s);
    match op {
      case BrTable(table, default) => BrTableGraph(s, fn.branchTables[table], default);
      case BrIf(depth) =>
        BrIfGraph(s, depth);
        AvailableAtBrIf(s, depth);
      case _ =>
    }
    FrameOf(s, r, |s.control| - 1);
  }

  lemma AvailableAtBrIf(s: Emission, depth: nat)
    requires BrIfOp(s, depth).Some?
    ensures Available(s) >= 1
  {
  }

  lemma OperandsFrame(fn: FunctionDef, s: Emission, op: Op, r: Emission)
    requires WellFormed(fn) && WellFormedOp(fn, op) && OutersOk(s) && s.control != []
    requires Last(s.control).reachable && ReachableStep(fn, s, op) == Some(r)
    requires op.Drop? ==> Available(s) >= 1
    requires op.Drop? || op.Select? || op.LocalGet? || op.LocalSet? || op.LocalTee? || op.Plain?
    ensures FramedFrom(s, r)
  {
    hide FramedFrom, ValidTuple, AsOperands;
    FrameOf(s, r, |s.control|);
  }

  /** Every step frames the contexts that stay open. */
  lemma StepFramed(fn: FunctionDef, s: Emission, op: Op, r: Emission)
    requires WellFormed(fn) && WellFormedOp(fn, op) && Inv(s) && OutersOk(s) && Emitter.Step(fn, s, op) == Some(r)
    requires op.Drop? && s.control != [] && Last(s.control).reachable ==> Available(s) >= 1
    ensures FramedFrom(s, r)
  {
    hide FramedFrom, Inv, BlockOp, LoopOp, IfOp, ElseOp, EndOp, WellFormed;
    if Last(s.control).reachable {
      if op.Opens() {
        OpenersFrame(s, ResolveBlockType(fn.mod, op.bt).value, r);
      } else if op.Else? || op.End? {
        ClosersFrame(s, r);
      } else if op.Br? || op.BrIf? || op.BrTable? || op.Return? || op.Unreachable? {
        BranchesFrame(fn, s, op, r);
      } else {
        OperandsFrame(fn, s, op, r);
      }
    } else if s.skip == 0 && (op.Else? || op.End?) {
      ClosersFrame(s, r);
    } else {
      FrameOf(s, r, |s.control|);
    }
  }
}
