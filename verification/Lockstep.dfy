/** The emitter and the validator in lockstep: on every body the validator accepts, the
    emitter's control stack is the validator's without the constructs opened in unreachable
    code, the operand heights agree in reachable code, and no assertion of the emitter fails. */
module Lockstep {
  import opened IR
  import opened Wrappers
  import opened Validator
  import opened ValidatorFacts
  import opened ValidatorRuns
  import Cfg
  import E = Emitter

  /** Emitter context `c` and its branch target `t` mirror validator context `v` at level `k`. */
  ghost predicate Mirrors(v: Control, c: E.Context, t: E.BranchTarget, k: nat, numBlocks: nat) {
    && v.kind == c.kind && v.outer == c.outer && v.results == c.results && v.reachable == c.reachable
    && c.outerTargets == k
    && c.endBlock < numBlocks && |c.endPhis| == |c.results|
    && (c.elseBlock.Some? <==> c.kind == IfThen)
    && (c.elseBlock.Some? ==> c.elseBlock.value < numBlocks && |c.elseArgs| == |v.elseParams|)
    && t.params == v.params && |t.phis| == |t.params| && t.block < numBlocks
  }

  ghost predicate ContextsMirror(v: State, s: E.Emission) {
    && |s.targets| == |s.control|
    && |v.control| == |s.control| + s.skip
    && forall k :: 0 <= k < |s.control| ==>
         Mirrors(v.control[k], s.control[k], s.targets[k], k, |s.blocks|)
  }

  /** In reachable code the stacks have the same height; in unreachable code the emitter's
      stack is cut down to the base of the innermost context. */
  ghost predicate HeightsAgree(v: State, s: E.Emission) {
    s.control != [] ==>
      if Last(s.control).reachable then s.skip == 0 && |s.stack| == |v.stack|
      else |s.stack| == Last(s.control).outer
  }

  ghost predicate Locked(v: State, s: E.Emission) {
    && s.insert < |s.blocks|
    && ContextsMirror(v, s)
    && HeightsAgree(v, s)
    && (s.control == [] ==> s.skip == 0)
    && forall k :: 0 <= k < |s.control| - 1 ==> s.control[k].reachable
  }

  // ----- effects of the emitter's steps on heights and counts -----

  lemma {:induction false} TableTargets(s: E.Emission, depths: seq<nat>, args: seq<Cfg.Operand>)
    requires |depths| <= UINT32_MAX
    requires forall k :: 0 <= k < |s.targets| ==> s.targets[k].block < |s.blocks|
    requires forall i :: 0 <= i < |depths| ==>
               && depths[i] < |s.targets|
               && |s.targets[|s.targets| - depths[i] - 1].phis| == |args|
    ensures var r := E.AddTable(s, depths, args);
            && r.Some? && |r.value.blocks| == |s.blocks|
            && r.value == s.(blocks := r.value.blocks)
  {
    if depths != [] {
      forall i | 0 <= i < |depths| - 1
        ensures depths[i] == Front(depths)[i] && Front(depths)[i] < |s.targets|
                && |s.targets[|s.targets| - Front(depths)[i] - 1].phis| == |args|
      {
      }
      TableTargets(s, Front(depths), args);
      assert depths[|depths| - 1] < |s.targets|;
    }
  }

  /** The contexts below the innermost one of both machines are untouched. */
  lemma KeepLocked(v: State, s: E.Emission, v': State, s': E.Emission)
    requires Locked(v, s) && s.control != []
    requires |s'.control| == |s.control| && |s'.targets| == |s.targets| && s'.skip == s.skip
    requires |v'.control| == |v.control|
    requires Front(s'.control) == Front(s.control) && Front(s'.targets) == Front(s.targets)
    requires forall k :: 0 <= k < |s.control| - 1 ==> v'.control[k] == v.control[k]
    requires s'.insert < |s'.blocks| && |s.blocks| <= |s'.blocks|
    requires var n := |s.control| - 1;
             Mirrors(v'.control[n], s'.control[n], s'.targets[n], n, |s'.blocks|)
    requires HeightsAgree(v', s')
    ensures Locked(v', s')
  {
    var n := |s.control| - 1;
    forall k | 0 <= k < n
      ensures Mirrors(v'.control[k], s'.control[k], s'.targets[k], k, |s'.blocks|) && s'.control[k].reachable
    {
      assert s'.control[k] == Front(s'.control)[k] == s.control[k];
      assert s'.targets[k] == Front(s'.targets)[k] == s.targets[k];
      assert Mirrors(v.control[k], s.control[k], s.targets[k], k, |s.blocks|);
      assert s.control[k].reachable;
    }
  }

  lemma PushLocked(v: State, s: E.Emission, v': State, s': E.Emission)
    requires Locked(v, s) && s.control != [] && Last(s.control).reachable
    requires |s'.control| == |s.control| + 1 && |s'.targets| == |s.targets| + 1 && s'.skip == 0
    requires |v'.control| == |v.control| + 1
    requires Front(s'.control) == s.control && Front(s'.targets) == s.targets
    requires forall k :: 0 <= k < |v.control| ==> v'.control[k] == v.control[k]
    requires s'.insert < |s'.blocks| && |s.blocks| <= |s'.blocks|
    requires Mirrors(Last(v'.control), Last(s'.control), Last(s'.targets), |s.control|, |s'.blocks|)
    requires HeightsAgree(v', s')
    ensures Locked(v', s')
  {
    forall k | 0 <= k < |s.control|
      ensures Mirrors(v'.control[k], s'.control[k], s'.targets[k], k, |s'.blocks|) && s'.control[k].reachable
    {
      assert s'.control[k] == Front(s'.control)[k] == s.control[k];
      assert s'.targets[k] == Front(s'.targets)[k] == s.targets[k];
      assert Mirrors(v.control[k], s.control[k], s.targets[k], k, |s.blocks|);
      assert k < |s.control| - 1 ==> s.control[k].reachable;
    }
  }

  lemma PopLocked(v: State, s: E.Emission, v': State, s': E.Emission)
    requires Locked(v, s) && s.control != [] && s.skip == 0 && s'.skip == 0
    requires s'.control == Front(s.control) && s'.targets == s.targets[..|s.targets| - 1]
    requires |v'.control| == |v.control| - 1
    requires forall k :: 0 <= k < |v'.control| ==> v'.control[k] == v.control[k]
    requires s'.insert < |s'.blocks| && |s.blocks| <= |s'.blocks|
    requires s'.control != [] ==> |s'.stack| == |v'.stack|
    ensures Locked(v', s')
  {
    forall k | 0 <= k < |s'.control|
      ensures Mirrors(v'.control[k], s'.control[k], s'.targets[k], k, |s'.blocks|) && s'.control[k].reachable
    {
      assert Mirrors(v.control[k], s.control[k], s.targets[k], k, |s.blocks|);
      assert s.control[k].reachable;
    }
  }

  // ----- openers -----

  lemma BlockLocked(fn: FunctionDef, v: State, s: E.Emission, op: Op, v': State)
    requires Shaped(v) && Locked(v, s) && s.control != [] && Last(s.control).reachable
    requires op.Block? && Opened(fn, v, op, v')
    ensures var t := ResolveBlockType(fn.mod, op.bt).value;
            E.BlockOp(s, t).Some? && Locked(v', E.BlockOp(s, t).value)
  {
    hide ValidTuple, Shaped, E.AddAll, ResolveBlockType;
    var t := ResolveBlockType(fn.mod, op.bt).value;
    var n := |s.control| - 1;
    assert Mirrors(v.control[n], s.control[n], s.targets[n], n, |s.blocks|);
    assert forall k :: 0 <= k < |v.control| ==> v'.control[k] == Front(v'.control)[k];
    PushLocked(v, s, v', E.BlockOp(s, t).value);
  }

  lemma LoopLocked(fn: FunctionDef, v: State, s: E.Emission, op: Op, v': State)
    requires Shaped(v) && Locked(v, s) && s.control != [] && Last(s.control).reachable
    requires op.Loop? && Opened(fn, v, op, v')
    ensures var t := ResolveBlockType(fn.mod, op.bt).value;
            E.LoopOp(s, t).Some? && Locked(v', E.LoopOp(s, t).value)
  {
    hide ValidTuple, Shaped, E.AddAll, ResolveBlockType;
    var t := ResolveBlockType(fn.mod, op.bt).value;
    var n := |s.control| - 1;
    assert Mirrors(v.control[n], s.control[n], s.targets[n], n, |s.blocks|);
    assert forall k :: 0 <= k < |v.control| ==> v'.control[k] == Front(v'.control)[k];
    PushLocked(v, s, v', E.LoopOp(s, t).value);
  }

  lemma IfLocked(fn: FunctionDef, v: State, s: E.Emission, op: Op, v': State)
    requires Shaped(v) && Locked(v, s) && s.control != [] && Last(s.control).reachable
    requires op.If? && Opened(fn, v, op, v')
    ensures var t := ResolveBlockType(fn.mod, op.bt).value;
            E.IfOp(s, t).Some? && Locked(v', E.IfOp(s, t).value)
  {
    hide ValidTuple, Shaped, E.AddAll, ResolveBlockType;
    var t := ResolveBlockType(fn.mod, op.bt).value;
    var n := |s.control| - 1;
    assert Mirrors(v.control[n], s.control[n], s.targets[n], n, |s.blocks|);
    assert forall k :: 0 <= k < |v.control| ==> v'.control[k] == Front(v'.control)[k];
    PushLocked(v, s, v', E.IfOp(s, t).value);
  }

  lemma OpenerLocked(fn: FunctionDef, v: State, s: E.Emission, op: Op, v': State)
    requires WellFormed(fn) && Shaped(v) && Locked(v, s) && s.control != [] && Last(s.control).reachable
    requires op.Opens() && Opened(fn, v, op, v')
    ensures var r := E.ReachableStep(fn, s, op); r.Some? && Locked(v', r.value)
  {
    hide Locked, ValidTuple, E.BlockOp, E.LoopOp, E.IfOp;
    match op {
      case Block(_) => BlockLocked(fn, v, s, op, v');
      case Loop(_) => LoopLocked(fn, v, s, op, v');
      case If(_) => IfLocked(fn, v, s, op, v');
    }
  }

  // ----- else and end -----

  lemma BranchToEndLocked(v: State, s: E.Emission)
    requires Shaped(v) && Locked(v, s) && s.control != [] && s.skip == 0
    requires Last(v.control).reachable ==> |v.stack| == Last(v.control).outer + |Last(v.control).results|
    ensures var r := E.BranchToEnd(s);
            && r.Some? && |r.value.blocks| == |s.blocks| && |r.value.stack| == Last(s.control).outer
            && r.value == s.(blocks := r.value.blocks, stack := r.value.stack)
            && r.value.stack == s.stack[..Last(s.control).outer]
  {
    hide E.AddAll, Shaped;
    var n := |s.control| - 1;
    assert Mirrors(v.control[n], s.control[n], s.targets[n], n, |s.blocks|);
  }

  lemma CloserLocked(fn: FunctionDef, v: State, s: E.Emission, op: Op)
    requires WellFormed(fn) && Shaped(v) && Locked(v, s) && s.control != [] && s.skip == 0
    requires op.Else? || op.End?
    requires Step(fn, v, op).Some?
    ensures var r := if op.Else? then E.ElseOp(s) else E.EndOp(s);
            r.Some? && Locked(Step(fn, v, op).value, r.value)
  {
    hide Step, E.ElseOp, E.EndOp, Locked;
    if op.Else? {
      ElseLocked(fn, v, s);
    } else {
      EndLocked(fn, v, s);
    }
  }

  lemma ElseLocked(fn: FunctionDef, v: State, s: E.Emission)
    requires WellFormed(fn) && Shaped(v) && Locked(v, s) && s.control != [] && s.skip == 0 && Step(fn, v, Else).Some?
    ensures E.ElseOp(s).Some? && Locked(Step(fn, v, Else).value, E.ElseOp(s).value)
  {
    hide Step, E.AddAll, E.BranchToEnd, PopTuple, Popped;
    var n, v' := |s.control| - 1, Step(fn, v, Else).value;
    assert Mirrors(v.control[n], s.control[n], s.targets[n], n, |s.blocks|);
    ElseSwitches(fn, v);
    BranchToEndLocked(v, s);
    assert forall k :: 0 <= k < n ==> v'.control[k] == Front(v'.control)[k] == v.control[k];
    KeepLocked(v, s, v', E.ElseOp(s).value);
  }

  lemma EndLocked(fn: FunctionDef, v: State, s: E.Emission)
    requires WellFormed(fn) && Shaped(v) && Locked(v, s) && s.control != [] && s.skip == 0 && Step(fn, v, End).Some?
    ensures E.EndOp(s).Some? && Locked(Step(fn, v, End).value, E.EndOp(s).value)
  {
    hide Step, E.AddAll, E.BranchToEnd, E.EraseEmpty, E.EndValue, PopTuple, Popped;
    var n, v' := |s.control| - 1, Step(fn, v, End).value;
    assert Mirrors(v.control[n], s.control[n], s.targets[n], n, |s.blocks|);
    EndCloses(fn, v);
    BranchToEndLocked(v, s);
    assert E.DummyElse(E.BranchToEnd(s).value, s.control[n]).Some?;
    PopLocked(v, s, v', E.EndOp(s).value);
  }

  // ----- branches -----

  /** Both machines cut their stacks and mark the innermost context unreachable. */
  lemma UnreachableLocked(v: State, s: E.Emission, p: State, q: E.Emission)
    requires Shaped(v) && Locked(v, s) && s.control != [] && Last(s.control).reachable
    requires p.control == v.control && Last(v.control).outer <= |p.stack|
    requires q.control == s.control && q.targets == s.targets && q.skip == s.skip
    requires q.insert < |q.blocks| && |s.blocks| <= |q.blocks|
    requires Last(s.control).outer <= |q.stack|
    ensures E.EnterUnreachable(q).Some?
    ensures Locked(EnterUnreachable(p), E.EnterUnreachable(q).value)
  {
    var n := |s.control| - 1;
    assert Mirrors(v.control[n], s.control[n], s.targets[n], n, |s.blocks|);
    KeepLocked(v, s, EnterUnreachable(p), E.EnterUnreachable(q).value);
  }

  lemma BrLocked(v: State, s: E.Emission, depth: nat, p: State)
    requires Shaped(v) && Locked(v, s) && s.control != [] && Last(s.control).reachable
    requires depth < |v.control| && Popped(v, Target(v, depth).value.params, p)
    ensures var r := E.BrOp(s, depth); r.Some? && Locked(EnterUnreachable(p), r.value)
  {
    hide Shaped, E.AddAll, EnterUnreachable, E.EnterUnreachable;
    var n, k := |s.control| - 1, |s.control| - depth - 1;
    assert Mirrors(v.control[n], s.control[n], s.targets[n], n, |s.blocks|);
    assert Mirrors(v.control[k], s.control[k], s.targets[k], k, |s.blocks|);
    var target := s.targets[k];
    var m := |target.params|;
    var q := E.Append(E.AddIncoming(s, target.block, target.phis, s.stack[|s.stack| - m..]), Cfg.Jump(target.block));
    UnreachableLocked(v, s, p, q.(stack := s.stack[..|s.stack| - m]));
  }

  lemma ReturnLocked(v: State, s: E.Emission, results: seq<ValueType>, p: State)
    requires Shaped(v) && Locked(v, s) && s.control != [] && Last(s.control).reachable
    requires v.control[0].results == results && Popped(v, results, p)
    ensures var r := E.ReturnOp(s, results); r.Some? && Locked(EnterUnreachable(p), r.value)
  {
    hide Shaped, E.AddAll, EnterUnreachable, E.EnterUnreachable;
    var n := |s.control| - 1;
    assert Mirrors(v.control[n], s.control[n], s.targets[n], n, |s.blocks|);
    assert Mirrors(v.control[0], s.control[0], s.targets[0], 0, |s.blocks|);
    var root, m := s.control[0], |results|;
    var q := E.Append(E.AddIncoming(s, root.endBlock, root.endPhis, s.stack[|s.stack| - m..]), Cfg.Jump(root.endBlock));
    UnreachableLocked(v, s, p, q.(stack := s.stack[..|s.stack| - m]));
  }

  lemma BrIfLocked(v: State, s: E.Emission, depth: nat, p: State, q: State)
    requires Shaped(v) && Locked(v, s) && s.control != [] && Last(s.control).reachable
    requires depth < |v.control| && Popped(v, [I32], p) && Popped(p, Target(v, depth).value.params, q)
    ensures var r := E.BrIfOp(s, depth);
            r.Some? && Locked(PushTuple(q, Target(v, depth).value.params), r.value)
  {
    hide Shaped, E.AddAll;
    var n, k := |s.control| - 1, |s.control| - depth - 1;
    assert Mirrors(v.control[n], s.control[n], s.targets[n], n, |s.blocks|);
    assert Mirrors(v.control[k], s.control[k], s.targets[k], k, |s.blocks|);
    var r := E.BrIfOp(s, depth).value;
    KeepLocked(v, s, PushTuple(q, Target(v, depth).value.params), r);
  }

  /** Every table entry names a branch target with as many PHIs as there are arguments. */
  lemma TableFits(v: State, s: E.Emission, depths: seq<nat>, arity: nat, p: State)
    requires Locked(v, s) && s.control != [] && s.skip == 0 && p.control == v.control
    requires TableTargetsFit(p, depths, arity)
    ensures forall i :: 0 <= i < |depths| ==>
              depths[i] < |s.targets| && |s.targets[|s.targets| - depths[i] - 1].phis| == arity
    ensures forall j :: 0 <= j < |s.targets| ==> s.targets[j].block < |s.blocks|
  {
    hide PeekTuple;
    forall i | 0 <= i < |depths|
      ensures depths[i] < |s.targets| && |s.targets[|s.targets| - depths[i] - 1].phis| == arity
    {
      var j := |s.control| - depths[i] - 1;
      assert Mirrors(v.control[j], s.control[j], s.targets[j], j, |s.blocks|);
    }
    forall j | 0 <= j < |s.targets| ensures s.targets[j].block < |s.blocks| {
      assert Mirrors(v.control[j], s.control[j], s.targets[j], j, |s.blocks|);
    }
  }

  lemma BrTableLocked(v: State, s: E.Emission, depths: seq<nat>, default: nat, p: State, q: State)
    requires Shaped(v) && Locked(v, s) && s.control != [] && Last(s.control).reachable
    requires |depths| <= UINT32_MAX
    requires default < |v.control| && Popped(v, [I32], p) && Popped(p, Target(v, default).value.params, q)
    requires TableTargetsFit(p, depths, |Target(v, default).value.params|)
    ensures var r := E.BrTableOp(s, depths, default);
            r.Some? && Locked(EnterUnreachable(q), r.value)
  {
    hide Shaped, E.AddAll, E.AddTable, EnterUnreachable, E.EnterUnreachable, TableTargetsFit;
    var n, k := |s.control| - 1, |s.control| - default - 1;
    assert Mirrors(v.control[n], s.control[n], s.targets[n], n, |s.blocks|);
    assert Mirrors(v.control[k], s.control[k], s.targets[k], k, |s.blocks|);
    var target, m, stack := s.targets[k], |s.targets[k].params|, Front(s.stack);
    TableFits(v, s, depths, m, p);
    var args := stack[|stack| - m..];
    var s1 := E.AddIncoming(s, target.block, target.phis, args);
    TableTargets(s1, depths, args);
    var s2 := E.AddTable(s1, depths, args).value;
    var r := E.Append(s2, Cfg.Switch(Last(s.stack), target.block, E.TableBlocks(s, depths)));
    UnreachableLocked(v, s, q, r.(stack := stack[..|stack| - m]));
  }

  // ----- operators that stay in their block -----

  lemma DefineLocked(v: State, s: E.Emission, i: Cfg.Instr, ts: seq<ValueType>, us: seq<ValueType>, p: State)
    requires Shaped(v) && Locked(v, s) && s.control != [] && Last(s.control).reachable
    requires Popped(v, ts, p)
    ensures var r := E.DefineRegs(s, i, |ts|, |us|); r.Some? && Locked(PushTuple(p, us), r.value)
  {
    hide Shaped;
    var n := |s.control| - 1;
    assert Mirrors(v.control[n], s.control[n], s.targets[n], n, |s.blocks|);
    KeepLocked(v, s, PushTuple(p, us), E.DefineRegs(s, i, |ts|, |us|).value);
  }

  // ----- every operator -----

  lemma BranchesLocked(fn: FunctionDef, v: State, s: E.Emission, op: Op)
    requires WellFormed(fn) && WellFormedOp(fn, op) && Shaped(v) && Locked(v, s)
    requires s.control != [] && Last(s.control).reachable && Step(fn, v, op).Some?
    requires v.control[0].results == Signature(fn).results
    requires op.Br? || op.BrIf? || op.BrTable? || op.Return? || op.Unreachable?
    ensures var r := E.ReachableStep(fn, s, op); r.Some? && Locked(Step(fn, v, op).value, r.value)
  {
    hide Locked, E.BrOp, E.BrIfOp, E.BrTableOp, E.ReturnOp, PopTuple, Peek, TableTargetsFit, ValidTuple;
    LockedTop(v, s);
    match op {
      case Br(depth) =>
        var ts := Target(v, depth).value.params;
        PopTuplePops(v, ts);
        BrLocked(v, s, depth, PopTuple(v, ts).value);
      case BrIf(depth) =>
        var ts, p := Target(v, depth).value.params, PopOperand(v, I32).value;
        PopOperandPops(v, I32);
        PopTuplePops(p, ts);
        BrIfLocked(v, s, depth, p, PopTuple(p, ts).value);
      case BrTable(table, default) =>
        var ts, p := Target(v, default).value.params, PopOperand(v, I32).value;
        PopOperandPops(v, I32);
        PopTuplePops(p, ts);
        BrTableLocked(v, s, fn.branchTables[table], default, p, PopTuple(p, ts).value);
      case Return =>
        PopTuplePops(v, Signature(fn).results);
        ReturnLocked(v, s, Signature(fn).results, PopTuple(v, Signature(fn).results).value);
      case Unreachable =>
        UnreachableLocked(v, s, v, E.Append(E.Append(s, Cfg.TrapCall), Cfg.NoReturn));
    }
  }

  lemma LockedTop(v: State, s: E.Emission)
    requires Shaped(v) && Locked(v, s) && s.control != [] && Last(s.control).reachable
    ensures v.control != [] && |v.control| == |s.control| && s.skip == 0
    ensures Last(v.control).reachable && Last(v.control).outer == Last(s.control).outer <= |v.stack|
    ensures |s.stack| == |v.stack| && s.insert < |s.blocks|
  {
    var n := |s.control| - 1;
    assert Mirrors(v.control[n], s.control[n], s.targets[n], n, |s.blocks|);
  }

  lemma OperandsLocked(fn: FunctionDef, v: State, s: E.Emission, op: Op)
    requires WellFormed(fn) && WellFormedOp(fn, op) && Shaped(v) && Locked(v, s)
    requires s.control != [] && Last(s.control).reachable && Step(fn, v, op).Some?
    requires op.Drop? || op.Select? || op.LocalGet? || op.LocalSet? || op.LocalTee? || op.Plain?
    ensures var r := E.ReachableStep(fn, s, op); r.Some? && Locked(Step(fn, v, op).value, r.value)
  {
    hide Locked, PopTuple, Peek, ValidTuple, SelectOp, E.DefineRegs;
    LockedTop(v, s);
    var n := |s.stack|;
    match op {
      case Drop =>
        PopOperandPops(v, AnyType);
        DropLocked(v, s, PopOperand(v, AnyType).value);
      case Select(ty) => SelectLocked(fn.mod.features, v, s, ty);
      case LocalGet(i) => DefineLocked(v, s, Cfg.Load(s.nextReg, i), [], [LocalTypes(fn)[i]], v);
      case LocalSet(i) =>
        var t := LocalTypes(fn)[i];
        PopOperandPops(v, t);
        DefineLocked(v, s, Cfg.Store(i, Last(s.stack)), [t], [], PopOperand(v, t).value);
        assert PushTuple(PopOperand(v, t).value, []) == PopOperand(v, t).value;
      case LocalTee(i) =>
        var t := LocalTypes(fn)[i];
        PopOperandPops(v, t);
        DefineLocked(v, s, Cfg.Store(i, Last(s.stack)), [], [], v);
        assert PushTuple(v, []) == v == PushTuple(PopOperand(v, t).value, [TopType(v)]);
      case Plain(id, sig, _) =>
        PopTuplePops(v, sig.params);
        DefineLocked(v, s, Cfg.Compute(s.nextReg, |sig.results|, id, s.stack[n - |sig.params|..]),
                     sig.params, sig.results, PopTuple(v, sig.params).value);
    }
  }

  lemma DropLocked(v: State, s: E.Emission, p: State)
    requires Shaped(v) && Locked(v, s) && s.control != [] && Last(s.control).reachable && Popped(v, [AnyType], p)
    ensures s.stack != [] && Locked(p, s.(stack := Front(s.stack)))
  {
    hide Shaped;
    var n := |s.control| - 1;
    assert Mirrors(v.control[n], s.control[n], s.targets[n], n, |s.blocks|);
    KeepLocked(v, s, p, s.(stack := Front(s.stack)));
  }

  lemma SelectLocked(features: FeatureSpec, v: State, s: E.Emission, ty: ValueType)
    requires Shaped(v) && Locked(v, s) && s.control != [] && Last(s.control).reachable
    requires v.control != [] && SelectOp(features, v, ty).Some?
    ensures var n := |s.stack|;
            && E.Available(s) >= 3
            && var r := E.DefineRegs(s, Cfg.Choose(s.nextReg, s.stack[n - 1], s.stack[n - 3], s.stack[n - 2]), 3, 1);
            r.Some? && Locked(SelectOp(features, v, ty).value, r.value)
  {
    hide Locked, Peek, E.DefineRegs;
    LockedTop(v, s);
    var t := if ty.AnyType? then AnyType else ty;
    var s1 := PopOperand(v, I32).value;
    PopOperandPops(v, I32);
    var s2 := PopOperand(s1, t).value;
    PopOperandPops(s1, t);
    var s3 := PopOperand(s2, t).value;
    PopOperandPops(s2, t);
    assert s3.stack == v.stack[..|v.stack| - 3];
    var v', n := SelectOp(features, v, ty).value, |s.stack|;
    var u := Last(v'.stack);
    assert v' == PushTuple(s3, [u]);
    var i := Cfg.Choose(s.nextReg, s.stack[n - 1], s.stack[n - 3], s.stack[n - 2]);
    assert forall k :: 0 <= k < 3 ==> IsSubtype(v.stack[|s3.stack| + k], [AnyType, AnyType, AnyType][k]);
    DefineLocked(v, s, i, [AnyType, AnyType, AnyType], [u], s3);
  }

  /** In unreachable code the emitter follows only the nesting. */
  lemma SkippedLocked(fn: FunctionDef, v: State, s: E.Emission, op: Op)
    requires WellFormed(fn) && WellFormedOp(fn, op) && Shaped(v) && Locked(v, s)
    requires s.control != [] && !Last(s.control).reachable && Step(fn, v, op).Some?
    ensures var r := E.UnreachableStep(s, op); r.Some? && Locked(Step(fn, v, op).value, r.value)
  {
    hide Step, E.ElseOp, E.EndOp;
    StepFrame(fn, v, op);
    var v' := Step(fn, v, op).value;
    if s.skip == 0 && (op.Else? || op.End?) {
      CloserLocked(fn, v, s, op);
    } else {
      var r := E.UnreachableStep(s, op).value;
      if !op.Opens() && !op.Else? && !op.End? && s.skip == 0 {
        UnreachableTopKept(fn, v, op);
      }
      var n := |s.control| - 1;
      forall k | 0 <= k <= n ensures Mirrors(v'.control[k], s.control[k], s.targets[k], k, |s.blocks|) {
        assert Mirrors(v.control[k], s.control[k], s.targets[k], k, |s.blocks|);
        if k < |v.control| - 1 {
          assert v'.control[k] == v.control[k];
        } else if op.Opens() {
          OpenerOpens(fn, v, op);
          assert v'.control[k] == Front(v'.control)[k];
        }
      }
    }
  }

  /** No operator but `else` and `end` makes an unreachable context reachable. */
  lemma UnreachableTopKept(fn: FunctionDef, v: State, op: Op)
    requires WellFormed(fn) && WellFormedOp(fn, op) && Step(fn, v, op).Some?
    requires !op.Opens() && !op.Else? && !op.End? && v.control != [] && !Last(v.control).reachable
    ensures Step(fn, v, op).value.control == v.control
  {
    hide PopTuple, Peek, TableTargetsFit, ValidTuple;
    assert Front(v.control) + [Last(v.control).(reachable := false)] == v.control;
  }

  lemma StepLocked(fn: FunctionDef, v: State, s: E.Emission, op: Op)
    requires WellFormed(fn) && WellFormedOp(fn, op) && Shaped(v) && Locked(v, s) && Step(fn, v, op).Some?
    requires v.control != [] ==> v.control[0].results == Signature(fn).results
    ensures var r := E.Step(fn, s, op); r.Some? && Locked(Step(fn, v, op).value, r.value)
  {
    hide Step, E.ReachableStep, E.UnreachableStep, WellFormed, WellFormedOp;
    NonEmpty(fn, v, op);
    assert s.control != [];
    if !Last(s.control).reachable {
      SkippedLocked(fn, v, s, op);
    } else if op.Opens() {
      OpenerOpens(fn, v, op);
      OpenerLocked(fn, v, s, op, Step(fn, v, op).value);
    } else if op.Else? || op.End? {
      LockedTop(v, s);
      CloserLocked(fn, v, s, op);
      CloserDispatch(fn, s, op);
    } else if op.Br? || op.BrIf? || op.BrTable? || op.Return? || op.Unreachable? {
      LockedTop(v, s);
      BranchesLocked(fn, v, s, op);
    } else {
      OperandsLocked(fn, v, s, op);
    }
  }

  lemma CloserDispatch(fn: FunctionDef, s: E.Emission, op: Op)
    requires WellFormed(fn) && WellFormedOp(fn, op) && (op.Else? || op.End?)
    ensures E.ReachableStep(fn, s, op) == if op.Else? then E.ElseOp(s) else E.EndOp(s)
  {
  }

  lemma InitialLocked(fn: FunctionDef)
    requires WellFormed(fn) && Initial(fn).Some?
    ensures Locked(Initial(fn).value, E.Initial(fn))
  {
  }
}
