/** The bottom type stands for operands that unreachable code pops from nowhere. It never gets
    into the operands of a reachable context. */
module BottomFree {
  import opened IR
  import opened Wrappers
  import opened Validator
  import opened ValidatorFacts
  import opened ValidatorRuns

  ghost predicate NoneBottom(ts: seq<ValueType>) {
    forall i :: 0 <= i < |ts| ==> !ts[i].NoType?
  }

  /** Where the operands of context `k` end: at the base of the next one. */
  function Ceiling(s: State, k: nat): nat
    requires k < |s.control|
  {
    if k + 1 < |s.control| then s.control[k + 1].outer else |s.stack|
  }

  /** No operand of a reachable context has the bottom type. */
  ghost predicate ReachableClean(s: State) {
    forall k, i :: 0 <= k < |s.control| && s.control[k].reachable && s.control[k].outer <= i < Ceiling(s, k) && i < |s.stack| ==>
      !s.stack[i].NoType?
  }

  ghost predicate CleanContext(c: Control) {
    NoneBottom(c.params) && NoneBottom(c.results) && NoneBottom(c.elseParams)
  }

  ghost predicate Clean(s: State) {
    && Shaped(s) && ReachableClean(s)
    && forall k :: 0 <= k < |s.control| ==> CleanContext(s.control[k])
  }

  // ----- the three ways a step changes the stacks -----

  lemma KeepClean(s: State, r: State, n: nat, us: seq<ValueType>)
    requires Clean(s) && s.control != [] && Last(s.control).outer <= n <= |s.stack| && r.stack == s.stack[..n] + us
    requires |r.control| == |s.control| && Front(r.control) == Front(s.control) && SameFrame(Last(s.control), Last(r.control))
    requires Last(r.control).reachable ==> NoneBottom(us) && (Last(s.control).reachable || n == Last(s.control).outer)
    ensures Clean(r)
  {
    var m := |s.control| - 1;
    assert forall k :: 0 <= k < m ==> r.control[k] == Front(r.control)[k] == s.control[k];
    assert SameFrame(s.control[m], r.control[m]);
    forall k, i | 0 <= k <= m && r.control[k].reachable && r.control[k].outer <= i < Ceiling(r, k) && i < |r.stack|
      ensures !r.stack[i].NoType?
    {
      if k < m {
        assert i < Ceiling(s, k) && s.control[k].outer <= i && r.stack[i] == s.stack[i];
      } else if i < n {
        assert i < Ceiling(s, m) && r.stack[i] == s.stack[i];
      } else {
        assert r.stack[i] == us[i - n];
      }
    }
    assert forall k :: 0 <= k <= m ==> r.control[k].outer == s.control[k].outer;
  }

  lemma OpenClean(s: State, r: State, c: Control, n: nat, us: seq<ValueType>)
    requires Clean(s) && s.control != [] && Last(s.control).outer <= n <= |s.stack| && r.stack == s.stack[..n] + us
    requires r.control == s.control + [c] && c.outer == n && CleanContext(c) && NoneBottom(us)
    ensures Clean(r)
  {
    var m := |s.control|;
    forall k, i | 0 <= k <= m && r.control[k].reachable && r.control[k].outer <= i < Ceiling(r, k) && i < |r.stack|
      ensures !r.stack[i].NoType?
    {
      if k < m {
        assert r.control[k] == s.control[k] && i < Ceiling(s, k) && r.stack[i] == s.stack[i];
      } else {
        assert r.stack[i] == us[i - n];
      }
    }
  }

  lemma CloseClean(s: State, r: State, us: seq<ValueType>)
    requires Clean(s) && s.control != [] && r.stack == s.stack[..Last(s.control).outer] + us
    requires r.control == Front(s.control) && NoneBottom(us)
    ensures Clean(r)
  {
    var m, n := |s.control| - 1, Last(s.control).outer;
    forall k, i | 0 <= k < m && r.control[k].reachable && r.control[k].outer <= i < Ceiling(r, k) && i < |r.stack|
      ensures !r.stack[i].NoType?
    {
      assert r.control[k] == s.control[k] && s.control[k + 1].outer <= n;
      if i < n {
        assert i < Ceiling(s, k) && r.stack[i] == s.stack[i];
      } else {
        assert r.stack[i] == us[i - n];
      }
    }
  }

  // ----- the operators -----

  lemma ValidNotBottom(features: FeatureSpec, ts: seq<ValueType>)
    requires ValidTuple(features, ts)
    ensures NoneBottom(ts)
  {
    forall i | 0 <= i < |ts| ensures !ts[i].NoType? {
      assert ValidValueType(features, ts[i]);
    }
  }

  lemma BlockTypeClean(fn: FunctionDef, bt: BlockType)
    requires WellFormed(fn) && ValidateBlockType(fn.mod, bt).Some?
    ensures var t := ValidateBlockType(fn.mod, bt).value; NoneBottom(t.params) && NoneBottom(t.results)
  {
    if bt.TypeIndex? {
      ValidNotBottom(fn.mod.features, fn.mod.types[bt.index].params);
      ValidNotBottom(fn.mod.features, fn.mod.types[bt.index].results);
    }
  }

  lemma OpenOpClean(fn: FunctionDef, s: State, bt: BlockType, kind: Kind)
    requires WellFormed(fn) && Clean(s) && s.control != [] && OpenOp(fn.mod, s, bt, kind).Some?
    ensures Clean(OpenOp(fn.mod, s, bt, kind).value)
  {
    hide Clean, PopTuple;
    var t, r := ValidateBlockType(fn.mod, bt).value, OpenOp(fn.mod, s, bt, kind).value;
    BlockTypeClean(fn, bt);
    TopBase(s);
    PopTuplePops(s, t.params);
    var p := PopTuple(s, t.params).value;
    OpenClean(s, r, Last(r.control), |p.stack|, t.params);
  }

  lemma TopBase(s: State)
    requires Clean(s) && s.control != []
    ensures Last(s.control).outer <= |s.stack| && CleanContext(Last(s.control))
  {
  }

  /** What a reachable context pops is not bottom. */
  lemma TopClean(s: State)
    requires Clean(s) && s.control != [] && Last(s.control).reachable && Last(s.control).outer < |s.stack|
    ensures !TopType(s).NoType?
  {
    var m := |s.control| - 1;
    assert |s.stack| - 1 < Ceiling(s, m);
  }

  lemma PopClean(s: State, t: ValueType)
    requires Clean(s) && s.control != [] && PopOperand(s, t).Some?
    ensures var p := PopOperand(s, t).value;
            && Clean(p) && p.control == s.control
            && Last(s.control).outer <= |p.stack| <= |s.stack| && p.stack == s.stack[..|p.stack|]
    ensures Last(s.control).reachable ==> !TopType(s).NoType?
  {
    hide Clean;
    TopBase(s);
    PopOperandPops(s, t);
    var p := PopOperand(s, t).value;
    assert p.stack == s.stack[..|p.stack|] + [];
    KeepClean(s, p, |p.stack|, []);
    if Last(s.control).reachable {
      TopClean(s);
    }
  }

  lemma PopPushClean(s: State, ts: seq<ValueType>, us: seq<ValueType>)
    requires Clean(s) && s.control != [] && PopTuple(s, ts).Some? && (Last(s.control).reachable ==> NoneBottom(us))
    ensures Clean(PushTuple(PopTuple(s, ts).value, us))
  {
    hide Clean, PopTuple;
    TopBase(s);
    PopTuplePops(s, ts);
    var p := PopTuple(s, ts).value;
    KeepClean(s, PushTuple(p, us), |p.stack|, us);
  }

  lemma LeaveClean(s: State)
    requires Clean(s) && s.control != []
    ensures Clean(EnterUnreachable(s))
  {
    hide Clean;
    TopBase(s);
    var r, n := EnterUnreachable(s), Last(s.control).outer;
    assert r.stack == s.stack[..n] + [];
    KeepClean(s, r, n, []);
  }

  lemma PopLeaveClean(s: State, ts: seq<ValueType>)
    requires Clean(s) && s.control != [] && PopTuple(s, ts).Some?
    ensures Clean(EnterUnreachable(PopTuple(s, ts).value))
  {
    hide Clean, PopTuple, EnterUnreachable;
    PopPushClean(s, ts, []);
    var p := PopTuple(s, ts).value;
    assert PushTuple(p, []) == p;
    LeaveClean(p);
  }

  lemma ElseClean(s: State)
    requires Clean(s) && s.control != [] && ElseOp(s).Some?
    ensures Clean(ElseOp(s).value)
  {
    hide Clean, PopTuple;
    TopBase(s);
    var top := Last(s.control);
    PopTuplePops(s, top.results);
    var p := PopTuple(s, top.results).value;
    KeepClean(s, ElseOp(s).value, top.outer, top.elseParams);
  }

  lemma EndClean(s: State)
    requires Clean(s) && s.control != [] && EndOp(s).Some?
    ensures Clean(EndOp(s).value)
  {
    hide Clean, PopTuple;
    TopBase(s);
    var top, r := Last(s.control), EndOp(s).value;
    PopTuplePops(s, top.results);
    var us := if Front(s.control) == [] then [] else top.results;
    assert r.stack == s.stack[..top.outer] + us;
    CloseClean(s, r, us);
  }

  lemma SelectClean(features: FeatureSpec, s: State, ty: ValueType)
    requires Clean(s) && s.control != [] && SelectOp(features, s, ty).Some?
    ensures Clean(SelectOp(features, s, ty).value)
  {
    hide Clean, PopOperand, TopType;
    var s1 := PopOperand(s, I32).value;
    PopClean(s, I32);
    var s2 := PopOperand(s1, ty).value;
    PopClean(s1, ty);
    var s3 := PopOperand(s2, ty).value;
    PopClean(s2, ty);
    var r := SelectOp(features, s, ty).value;
    assert s3.stack[..|s3.stack|] == s3.stack;
    TopBase(s3);
    KeepClean(s3, r, |s3.stack|, [Last(r.stack)]);
  }

  lemma StructureClean(fn: FunctionDef, s: State, op: Op)
    requires WellFormed(fn) && WellFormedOp(fn, op) && Clean(s) && Step(fn, s, op).Some?
    requires op.Opens() || op.Else? || op.End? || op.Br? || op.BrIf? || op.BrTable? || op.Return? || op.Unreachable?
    ensures Clean(Step(fn, s, op).value)
  {
    hide Clean, PopTuple, PopOperand, OpenOp, ElseOp, EndOp, EnterUnreachable, TableTargetsFit, ValidTuple;
    match op {
      case Block(bt) => OpenOpClean(fn, s, bt, BlockBody);
      case Loop(bt) => OpenOpClean(fn, s, bt, LoopBody);
      case If(bt) =>
        PopClean(s, I32);
        OpenOpClean(fn, PopOperand(s, I32).value, bt, IfThen);
      case Else => ElseClean(s);
      case End => EndClean(s);
      case Br(depth) => PopLeaveClean(s, Target(s, depth).value.params);
      case BrIf(depth) =>
        PopClean(s, I32);
        TargetClean(s, depth);
        var ts := Target(s, depth).value.params;
        PopPushClean(PopOperand(s, I32).value, ts, ts);
      case BrTable(_, default) =>
        PopClean(s, I32);
        PopLeaveClean(PopOperand(s, I32).value, Target(s, default).value.params);
      case Return => PopLeaveClean(s, Signature(fn).results);
      case Unreachable => LeaveClean(s);
    }
  }

  lemma TargetClean(s: State, depth: nat)
    requires Clean(s) && depth < |s.control|
    ensures NoneBottom(Target(s, depth).value.params)
  {
    assert CleanContext(s.control[|s.control| - depth - 1]);
  }

  lemma PushClean(s: State, p: State, t: ValueType)
    requires Clean(p) && p.control == s.control && s.control != [] && (Last(s.control).reachable ==> !t.NoType?)
    ensures Clean(PushTuple(p, [t]))
  {
    hide Clean;
    TopBase(p);
    assert p.stack[..|p.stack|] == p.stack;
    KeepClean(p, PushTuple(p, [t]), |p.stack|, [t]);
  }

  lemma OperandClean(fn: FunctionDef, s: State, op: Op)
    requires WellFormed(fn) && WellFormedOp(fn, op) && Clean(s) && Step(fn, s, op).Some?
    requires ValidTuple(fn.mod.features, fn.localTypes)
    requires op.Drop? || op.Select? || op.LocalGet? || op.LocalSet? || op.LocalTee? || op.Plain?
    ensures Clean(Step(fn, s, op).value)
  {
    hide Clean, PopTuple, PopOperand, TopType, SelectOp, ValidTuple;
    match op {
      case Drop => PopClean(s, AnyType);
      case Select(ty) => SelectClean(fn.mod.features, s, ty);
      case LocalGet(i) =>
        LocalClean(fn, i);
        PushClean(s, s, LocalTypes(fn)[i]);
      case LocalSet(i) => PopClean(s, LocalTypes(fn)[i]);
      case LocalTee(i) =>
        PopClean(s, LocalTypes(fn)[i]);
        PushClean(s, PopOperand(s, LocalTypes(fn)[i]).value, TopType(s));
      case Plain(_, sig, _) => PopPushClean(s, sig.params, sig.results);
    }
  }

  lemma LocalClean(fn: FunctionDef, i: nat)
    requires WellFormed(fn) && ValidTuple(fn.mod.features, fn.localTypes) && i < |LocalTypes(fn)|
    ensures !LocalTypes(fn)[i].NoType?
  {
    ValidNotBottom(fn.mod.features, fn.localTypes);
    ValidNotBottom(fn.mod.features, Signature(fn).params);
  }

  lemma InitialClean(fn: FunctionDef)
    requires WellFormed(fn) && Initial(fn).Some?
    ensures ValidTuple(fn.mod.features, fn.localTypes) && Clean(Initial(fn).value)
  {
    ValidNotBottom(fn.mod.features, Signature(fn).results);
    var s := Initial(fn).value;
    assert s.control == [Control(FunctionBody, 0, Signature(fn).results, Signature(fn).results, true, [])];
  }

  /** At every point of every accepted body, no operand of a reachable context is bottom. */
  lemma {:induction false} BottomNeverReachable(fn: FunctionDef, n: nat)
    requires Accepted(fn) && n <= |fn.code|
    ensures Clean(ValidatorRuns.At(fn, n))
  {
    hide Clean, Step, Keeps, Initial, ValidTuple;
    assert StartsAt(fn, Trace(fn), 0);
    InitialClean(fn);
    if n > 0 {
      BottomNeverReachable(fn, n - 1);
      AtStep(fn, n - 1);
      StepClean(fn, ValidatorRuns.At(fn, n - 1), fn.code[n - 1]);
    }
  }

  lemma StepClean(fn: FunctionDef, s: State, op: Op)
    requires WellFormed(fn) && WellFormedOp(fn, op) && Clean(s) && Step(fn, s, op).Some?
    requires ValidTuple(fn.mod.features, fn.localTypes)
    ensures Clean(Step(fn, s, op).value)
  {
    hide Clean, Step, WellFormed;
    if op.Drop? || op.Select? || op.LocalGet? || op.LocalSet? || op.LocalTee? || op.Plain? {
      OperandClean(fn, s, op);
    } else {
      StructureClean(fn, s, op);
    }
  }
}
