/** What every validator step keeps: the shape of the two stacks, and the frames of the open
    control structures. */
module ValidatorFacts {
  import opened IR
  import opened Wrappers
  import opened Validator

  /** The bases of the open contexts rise with the nesting and lie within the stack. */
  ghost predicate Shaped(s: State) {
    && (forall i, j :: 0 <= i < j < |s.control| ==> s.control[i].outer <= s.control[j].outer)
    && forall i :: 0 <= i < |s.control| ==> s.control[i].outer <= |s.stack|
  }

  /** `r` is `s` with the operands `ts` popped: in reachable code exactly that many operands
      of those types, in unreachable code as many as there are. */
  ghost predicate Popped(s: State, ts: seq<ValueType>, r: State)
    requires s.control != []
  {
    var top := Last(s.control);
    && r.control == s.control
    && top.outer <= |r.stack| <= |s.stack|
    && r.stack == s.stack[..|r.stack|]
    && (top.reachable ==>
          && |r.stack| + |ts| == |s.stack|
          && forall i :: 0 <= i < |ts| ==> IsSubtype(s.stack[|r.stack| + i], ts[i]))
    && |s.stack| <= |r.stack| + |ts|
  }

  lemma PopOperandPops(s: State, t: ValueType)
    requires s.control != [] && Last(s.control).outer <= |s.stack|
    requires PopOperand(s, t).Some?
    ensures Popped(s, [t], PopOperand(s, t).value)
  {
  }

  lemma {:induction false} PopTuplePops(s: State, ts: seq<ValueType>)
    requires s.control != [] && Last(s.control).outer <= |s.stack|
    requires PopTuple(s, ts).Some?
    ensures Popped(s, ts, PopTuple(s, ts).value)
    decreases |ts|
  {
    if ts != [] {
      PopOperandPops(s, Last(ts));
      var s1 := PopOperand(s, Last(ts)).value;
      PopTuplePops(s1, Front(ts));
      var r := PopTuple(s1, Front(ts)).value;
      if Last(s.control).reachable {
        forall i | 0 <= i < |ts| ensures IsSubtype(s.stack[|r.stack| + i], ts[i]) {
          if i < |ts| - 1 {
            assert IsSubtype(s1.stack[|r.stack| + i], Front(ts)[i]);
          }
        }
      }
    }
  }

  function DepthChange(op: Op): int {
    if op.Opens() then 1 else if op.End? then -1 else 0
  }

  /** The parts of a context that stay fixed while it is open. */
  ghost predicate SameFrame(a: Control, b: Control) {
    a.outer == b.outer && a.params == b.params && a.results == b.results && a.elseParams == b.elseParams
  }

  /** One step leaves the enclosing contexts and the operands below them alone. */
  ghost predicate Framed(s: State, r: State) {
    && (forall k :: 0 <= k < |s.control| && k < |r.control| ==> SameFrame(s.control[k], r.control[k]))
    && (forall k :: 0 <= k < |s.control| - 1 && k < |r.control| ==> s.control[k] == r.control[k])
    && (forall k :: 0 <= k < |s.control| && k < |r.control| && s.control[k].outer <= |s.stack| ==>
          && s.control[k].outer <= |r.stack|
          && r.stack[..s.control[k].outer] == s.stack[..s.control[k].outer])
  }

  /** `r` agrees with `s` up to the base of the innermost context of `s`. */
  ghost predicate SameBelow(s: State, r: State)
    requires s.control != []
  {
    var base := Last(s.control).outer;
    base <= |s.stack| && base <= |r.stack| && r.stack[..base] == s.stack[..base]
  }

  lemma PrefixAgrees(s: State, r: State, n: nat)
    requires s.control != [] && SameBelow(s, r) && n <= Last(s.control).outer
    ensures r.stack[..n] == s.stack[..n]
  {
    var base := Last(s.control).outer;
    assert r.stack[..n] == r.stack[..base][..n];
    assert s.stack[..n] == s.stack[..base][..n];
  }

  lemma KeepFrame(s: State, r: State)
    requires Shaped(s) && s.control != [] && |r.control| == |s.control|
    requires Front(r.control) == Front(s.control) && SameFrame(Last(s.control), Last(r.control))
    requires SameBelow(s, r)
    ensures Shaped(r) && Framed(s, r)
  {
    SameOuter(s, r, |s.control| - 1);
    assert SameFrame(s.control[|s.control| - 1], r.control[|s.control| - 1]);
  }

  lemma OpenFrame(s: State, r: State)
    requires Shaped(s) && s.control != [] && |r.control| == |s.control| + 1
    requires Front(r.control) == s.control
    requires Last(s.control).outer <= Last(r.control).outer <= |r.stack|
    requires SameBelow(s, r)
    ensures Shaped(r) && Framed(s, r)
  {
    SameOuter(s, r, |s.control|);
  }

  lemma CloseFrame(s: State, r: State)
    requires Shaped(s) && s.control != [] && r.control == Front(s.control)
    requires SameBelow(s, r)
    ensures Shaped(r) && Framed(s, r)
  {
    SameOuter(s, r, |s.control| - 1);
  }

  lemma SameOuter(s: State, r: State, n: nat)
    requires Shaped(s) && s.control != [] && n <= |s.control| && n <= |r.control|
    requires r.control[..n] == s.control[..n] && SameBelow(s, r)
    ensures forall k :: 0 <= k < n ==> r.control[k] == s.control[k]
    ensures forall k :: 0 <= k < |s.control| ==>
              s.control[k].outer <= |r.stack| && r.stack[..s.control[k].outer] == s.stack[..s.control[k].outer]
  {
    forall k | 0 <= k < n ensures r.control[k] == s.control[k] {
      assert r.control[..n][k] == s.control[..n][k];
    }
    forall k | 0 <= k < |s.control|
      ensures s.control[k].outer <= |r.stack| && r.stack[..s.control[k].outer] == s.stack[..s.control[k].outer]
    {
      PrefixAgrees(s, r, s.control[k].outer);
    }
  }

  lemma PopPushSame(s: State, ts: seq<ValueType>, p: State, us: seq<ValueType>)
    requires s.control != [] && Last(s.control).outer <= |s.stack| && Popped(s, ts, p)
    ensures SameBelow(s, p) && SameBelow(s, PushTuple(p, us))
  {
    var base := Last(s.control).outer;
    assert p.stack[..base] == s.stack[..base];
    assert (p.stack + us)[..base] == p.stack[..base];
  }

  lemma PopTupleSame(s: State, ts: seq<ValueType>, us: seq<ValueType>)
    requires s.control != [] && Last(s.control).outer <= |s.stack| && PopTuple(s, ts).Some?
    ensures var p := PopTuple(s, ts).value;
            Popped(s, ts, p) && SameBelow(s, p) && SameBelow(s, PushTuple(p, us))
  {
    PopTuplePops(s, ts);
    PopPushSame(s, ts, PopTuple(s, ts).value, us);
  }

  lemma PopOperandSame(s: State, t: ValueType, us: seq<ValueType>)
    requires s.control != [] && Last(s.control).outer <= |s.stack| && PopOperand(s, t).Some?
    ensures var p := PopOperand(s, t).value;
            Popped(s, [t], p) && SameBelow(s, p) && SameBelow(s, PushTuple(p, us))
  {
    PopOperandPops(s, t);
    PopPushSame(s, [t], PopOperand(s, t).value, us);
  }

  lemma UnreachableFrame(s: State, p: State)
    requires Shaped(s) && s.control != [] && p.control == s.control && SameBelow(s, p)
    ensures Shaped(EnterUnreachable(p)) && Framed(s, EnterUnreachable(p))
  {
    KeepFrame(s, EnterUnreachable(p));
  }

  lemma SelectFrame(features: FeatureSpec, s: State, ty: ValueType)
    requires Shaped(s) && s.control != [] && SelectOp(features, s, ty).Some?
    ensures var r := SelectOp(features, s, ty).value;
            |r.control| == |s.control| && Shaped(r) && Framed(s, r)
  {
    var s1 := PopOperand(s, I32).value;
    PopOperandSame(s, I32, []);
    var t := if ty.AnyType? then AnyType else ty;
    var s2 := PopOperand(s1, t).value;
    PopOperandSame(s1, t, []);
    var s3 := PopOperand(s2, t).value;
    var r := SelectOp(features, s, ty).value;
    PopOperandSame(s2, t, [Last(r.stack)]);
    assert r == PushTuple(s3, [Last(r.stack)]);
    KeepFrame(s, r);
  }

  /** The step's result `r` has the depth the operator implies, and frames `s`. */
  ghost predicate Keeps(s: State, op: Op, r: State) {
    |r.control| == |s.control| + DepthChange(op) && Shaped(r) && Framed(s, r)
  }

  lemma OpenOpFrame(mod: Module, s: State, bt: BlockType, kind: Kind)
    requires Shaped(s) && s.control != [] && OpenOp(mod, s, bt, kind).Some?
    ensures var r := OpenOp(mod, s, bt, kind).value;
            && |r.control| == |s.control| + 1 && Front(r.control) == s.control
            && Last(s.control).outer <= Last(r.control).outer <= |r.stack|
            && SameBelow(s, r)
            && Shaped(r) && Framed(s, r)
  {
    hide Framed, PopTuple;
    var t := ValidateBlockType(mod, bt).value;
    PopTupleSame(s, t.params, t.params);
    OpenFrame(s, OpenOp(mod, s, bt, kind).value);
  }

  lemma StructureFrame(fn: FunctionDef, s: State, op: Op)
    requires WellFormed(fn) && WellFormedOp(fn, op) && Shaped(s) && Step(fn, s, op).Some?
    requires op.Opens() || op.Else? || op.End?
    ensures Keeps(s, op, Step(fn, s, op).value)
  {
    hide Framed, PopTuple, Peek, TableTargetsFit, ValidTuple;
    var top, r := Last(s.control), Step(fn, s, op).value;
    match op {
      case Block(bt) => OpenOpFrame(fn.mod, s, bt, BlockBody);
      case Loop(bt) => OpenOpFrame(fn.mod, s, bt, LoopBody);
      case If(bt) =>
        PopOperandSame(s, I32, []);
        var s1 := PopOperand(s, I32).value;
        KeepFrame(s, s1);
        OpenOpFrame(fn.mod, s1, bt, IfThen);
        OpenFrame(s, r);
      case Else =>
        PopTupleSame(s, top.results, top.elseParams);
        KeepFrame(s, r);
      case End =>
        PopTupleSame(s, top.results, top.results);
        CloseFrame(s, r);
    }
  }

  lemma BrIfFrame(fn: FunctionDef, s: State, depth: nat)
    requires WellFormed(fn) && Shaped(s) && Step(fn, s, BrIf(depth)).Some?
    ensures Keeps(s, BrIf(depth), Step(fn, s, BrIf(depth)).value)
  {
    hide Framed, PopTuple, Peek, ValidTuple;
    var ts := Target(s, depth).value.params;
    PopOperandSame(s, I32, []);
    PopTupleSame(PopOperand(s, I32).value, ts, ts);
    KeepFrame(s, Step(fn, s, BrIf(depth)).value);
  }

  lemma BranchFrame(fn: FunctionDef, s: State, op: Op)
    requires WellFormed(fn) && WellFormedOp(fn, op) && Shaped(s) && Step(fn, s, op).Some?
    requires op.Br? || op.BrIf? || op.BrTable? || op.Return? || op.Unreachable?
    ensures Keeps(s, op, Step(fn, s, op).value)
  {
    hide Framed, PopTuple, Peek, TableTargetsFit, ValidTuple;
    match op {
      case Br(depth) =>
        PopTupleSame(s, Target(s, depth).value.params, []);
        UnreachableFrame(s, PopTuple(s, Target(s, depth).value.params).value);
      case BrIf(depth) => BrIfFrame(fn, s, depth);
      case BrTable(table, default) =>
        var s1, ts := PopOperand(s, I32).value, Target(s, default).value.params;
        PopOperandSame(s, I32, []);
        PopTupleSame(s1, ts, []);
        UnreachableFrame(s, PopTuple(s1, ts).value);
      case Return =>
        PopTupleSame(s, Signature(fn).results, []);
        UnreachableFrame(s, PopTuple(s, Signature(fn).results).value);
      case Unreachable => UnreachableFrame(s, s);
    }
  }

  lemma OperandFrame(fn: FunctionDef, s: State, op: Op)
    requires WellFormed(fn) && WellFormedOp(fn, op) && Shaped(s) && Step(fn, s, op).Some?
    requires op.Drop? || op.Select? || op.LocalGet? || op.LocalSet? || op.LocalTee? || op.Plain?
    ensures Keeps(s, op, Step(fn, s, op).value)
  {
    hide Framed, PopTuple, Peek, TableTargetsFit, ValidTuple;
    var r := Step(fn, s, op).value;
    match op {
      case Select(ty) => SelectFrame(fn.mod.features, s, ty);
      case Drop =>
        PopOperandSame(s, AnyType, []);
        KeepFrame(s, r);
      case LocalGet(i) => KeepFrame(s, r);
      case LocalSet(i) =>
        PopOperandSame(s, LocalTypes(fn)[i], []);
        KeepFrame(s, r);
      case LocalTee(i) =>
        PopOperandSame(s, LocalTypes(fn)[i], [TopType(s)]);
        KeepFrame(s, r);
      case Plain(_, sig, _) =>
        PopTupleSame(s, sig.params, sig.results);
        KeepFrame(s, r);
    }
  }

  /** Each operator opens, keeps or closes one level and frames everything outside it. */
  lemma StepFrame(fn: FunctionDef, s: State, op: Op)
    requires WellFormed(fn) && WellFormedOp(fn, op) && Shaped(s) && Step(fn, s, op).Some?
    ensures Keeps(s, op, Step(fn, s, op).value)
  {
    hide Step, Keeps;
    if op.Opens() || op.Else? || op.End? {
      StructureFrame(fn, s, op);
    } else if op.Br? || op.BrIf? || op.BrTable? || op.Return? || op.Unreachable? {
      BranchFrame(fn, s, op);
    } else {
      OperandFrame(fn, s, op);
    }
  }
}
