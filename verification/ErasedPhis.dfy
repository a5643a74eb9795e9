/** An end PHI is erased exactly when nothing branches to its block: at the `end`, and, since no
    branch to a closed construct is ever added, in the finished graph. */
module ErasedPhis {
  import opened IR
  import opened Wrappers
  import opened ValidatorRuns
  import opened Cfg
  import opened Emitter
  import opened GraphFacts
  import opened EmitterFacts
  import opened EmitterFrames
  import opened EmitterRuns
  import opened Lockstep
  import opened Arrivals

  // ----- at the end of a construct -----

  ghost predicate HasEdgeTo(g: Graph, b: nat) {
    exists q: nat :: EdgeCount(g, q, b) > 0
  }

  lemma NoEntryNoEdge(g: Graph, b: nat, r: nat)
    requires Consistent(g) && b < |g| && r in g[b].phis
    ensures g[b].phis[r].incoming == [] <==> !HasEdgeTo(g, b)
  {
    var phi := g[b].phis[r];
    if phi.incoming != [] {
      var q := phi.incoming[0].from;
      assert Sources(phi.incoming)[0] == q;
      assert q in multiset(Sources(phi.incoming));
      assert EntriesFrom(phi, q) == EdgeCount(g, q, b) > 0;
    } else {
      forall q: nat ensures EdgeCount(g, q, b) == 0 {
        assert EntriesFrom(phi, q) == EdgeCount(g, q, b);
      }
    }
  }

  /** Two graphs with the same code have the same edges. */
  lemma SameCodeSameEdges(g: Graph, h: Graph, b: nat)
    requires |g| == |h| && forall q :: 0 <= q < |g| ==> h[q].code == g[q].code
    ensures HasEdgeTo(g, b) <==> HasEdgeTo(h, b)
  {
    forall q: nat ensures EdgeCount(g, q, b) == EdgeCount(h, q, b) {
    }
  }

  /** The `end` keeps the construct's PHIs exactly if some block branches to its end. */
  lemma EndErases(s: Emission, i: nat)
    requires Inv(s) && s.control != [] && EndOp(s).Some? && i < |Last(s.control).endPhis|
    ensures var c, r := Last(s.control), EndOp(s).value;
            c.endBlock < |r.blocks| && (c.endPhis[i] in r.blocks[c.endBlock].phis <==> HasEdgeTo(r.blocks, c.endBlock))
  {
    hide Inv, Consistent, Extends, Sealed, HasEdgeTo, EndOp, BranchToEnd, DummyElse;
    var c, r := Last(s.control), EndOp(s).value;
    EndGraph(s);
    EndSettled(s, |s.control| - 1);
    var h := BranchToEnd(s).value.blocks;
    var k := DummyElse(BranchToEnd(s).value, c).value.blocks;
    SealedPhis(s.blocks, s.insert, h, c.endBlock, c.endPhis);
    if c.elseBlock.Some? {
      SealedPhis(h, c.elseBlock.value, k, c.endBlock, c.endPhis);
    }
    NoEntryNoEdge(k, c.endBlock, c.endPhis[i]);
    SameCodeSameEdges(k, r.blocks, c.endBlock);
  }

  lemma SealedPhis(g: Graph, p: nat, h: Graph, b: nat, phis: seq<nat>)
    requires Sealed(g, p, h) && b < |g| && PhisAre(g[b], phis)
    ensures b < |h| && PhisAre(h[b], phis)
  {
    SamePhisAre(g, h, p, b, phis);
  }

  // ----- after the end -----

  /** No open construct uses the block: it is no end, no else arm and no branch target. */
  ghost predicate Retired(s: Emission, b: nat) {
    && b < |s.blocks| && |s.targets| == |s.control|
    && forall k :: 0 <= k < |s.control| ==>
         s.control[k].endBlock != b && s.control[k].elseBlock != Some(b) && s.targets[k].block != b
  }

  ghost predicate SameEdgesTo(g: Graph, h: Graph, b: nat) {
    |g| <= |h| && forall q: nat :: EdgeCount(h, q, b) == EdgeCount(g, q, b)
  }

  /** Code is only added to block `p`, and ends with an instruction that does not lead to `b`. */
  ghost predicate Avoids(g: Graph, h: Graph, p: nat, b: nat) {
    && p < |g| <= |h|
    && (forall q :: 0 <= q < |g| && q != p ==> h[q].code == g[q].code)
    && (forall q :: |g| <= q < |h| ==> h[q].code == [])
    && (h[p].code == g[p].code || (Targets(g[p]) == [] && h[p].code != [] && b !in Successors(Last(h[p].code))))
  }

  lemma AvoidsEdges(g: Graph, h: Graph, p: nat, b: nat)
    requires Avoids(g, h, p, b)
    ensures SameEdgesTo(g, h, b)
  {
    forall q: nat ensures EdgeCount(h, q, b) == EdgeCount(g, q, b) {
    }
  }

  /** The terminator `i` is added to the insert block, after growth. */
  lemma SealAvoids(g: Graph, grown: Graph, h: Graph, p: nat, i: Instr, b: nat)
    requires p < |g| && Straight(g[p].code) && Grown(g, grown) && Mild(grown, h, p)
    requires h[p].code == g[p].code + [i] && b !in Successors(i)
    ensures SameEdgesTo(g, h, b)
  {
    StraightTargets(g[p]);
    assert forall q :: 0 <= q < |g| ==> grown[q] == grown[..|g|][q] == g[q];
    AvoidsEdges(g, h, p, b);
  }

  lemma GrownSelf(g: Graph)
    ensures Grown(g, g)
  {
  }

  /** Contexts that stay keep a block retired; new ones only use new blocks. */
  lemma RetiredKept(s: Emission, r: Emission, b: nat)
    requires Retired(s, b) && FramedFrom(s, r) && |s.blocks| <= |r.blocks|
    requires forall k :: |s.control| <= k < |r.control| ==>
               && r.control[k].endBlock >= |s.blocks| && r.targets[k].block >= |s.blocks|
               && (r.control[k].elseBlock.Some? ==> r.control[k].elseBlock.value >= |s.blocks|)
    ensures Retired(r, b)
  {
    forall k | 0 <= k < |r.control|
      ensures r.control[k].endBlock != b && r.control[k].elseBlock != Some(b) && r.targets[k].block != b
    {
      if k < |s.control| {
        assert SameContext(s.control[k], r.control[k]) && s.targets[k] == r.targets[k];
      }
    }
  }

  /** The emission step leaves the edges to a retired block alone, and the block retired. */
  ghost predicate LeavesAlone(s: Emission, r: Emission, b: nat) {
    SameEdgesTo(s.blocks, r.blocks, b) && Retired(r, b)
  }

  lemma OpenerAlone(s: Emission, t: FuncType, r: Emission, b: nat)
    requires Inv(s) && s.control != [] && Last(s.control).reachable && Retired(s, b) && FramedFrom(s, r)
    requires BlockOp(s, t) == Some(r) || LoopOp(s, t) == Some(r) || IfOp(s, t) == Some(r)
    ensures LeavesAlone(s, r, b)
  {
    hide Inv, Sealed, Consistent, Extends, BlockCarries, FramedFrom, Straight, BlockOp, LoopOp, IfOp;
    InvParts(s);
    if BlockOp(s, t) == Some(r) {
      BlockForm(s, t);
      PhiBlockCode(s.nextReg, t.results);
      AvoidsEdges(s.blocks, r.blocks, s.insert, b);
    } else if LoopOp(s, t) == Some(r) {
      LoopForm(s, t);
      LoopGraph(s, t);
      assert Mild(LoopBlocks(s, t), r.blocks, s.insert) by { SealedMild(LoopBlocks(s, t), s.insert, r.blocks); }
      SealAvoids(s.blocks, LoopBlocks(s, t), r.blocks, s.insert, Jump(|s.blocks|), b);
    } else {
      IfForm(s, t);
      IfGraph(s, t);
      assert Mild(IfBlocks(s, t), r.blocks, s.insert) by { SealedMild(IfBlocks(s, t), s.insert, r.blocks); }
      SealAvoids(s.blocks, IfBlocks(s, t), r.blocks, s.insert, CondJump(Last(s.stack), |s.blocks|, |s.blocks| + 1), b);
    }
    RetiredKept(s, r, b);
  }

  lemma SealedMild(g: Graph, p: nat, h: Graph)
    requires Sealed(g, p, h)
    ensures Mild(g, h, p)
  {
  }

  lemma BranchAlone(s: Emission, r: Emission, i: Instr, b: nat)
    requires Inv(s) && s.control != [] && Last(s.control).reachable && Retired(s, b) && FramedFrom(s, r)
    requires Sealed(s.blocks, s.insert, r.blocks) && |r.control| == |s.control| && s.insert < |s.blocks|
    requires r.blocks[s.insert].code == s.blocks[s.insert].code + [i] && b !in Successors(i)
    ensures LeavesAlone(s, r, b)
  {
    hide Inv, Sealed, FramedFrom, Straight;
    InvParts(s);
    GrownSelf(s.blocks);
    SealedMild(s.blocks, s.insert, r.blocks);
    SealAvoids(s.blocks, s.blocks, r.blocks, s.insert, i, b);
    RetiredKept(s, r, b);
  }

  lemma BranchesAlone(fn: FunctionDef, s: Emission, op: Op, r: Emission, b: nat)
    requires WellFormed(fn) && WellFormedOp(fn, op) && Inv(s) && s.control != [] && Last(s.control).reachable
    requires op.Br? || op.BrTable? || op.Return? || op.BrIf?
    requires ReachableStep(fn, s, op) == Some(r) && Retired(s, b) && FramedFrom(s, r)
    ensures LeavesAlone(s, r, b)
  {
    hide Inv, Sealed, BlockCarries, TargetsCarry, Consistent, Extends, FramedFrom, BrOp, BrIfOp, BrTableOp, ReturnOp;
    match op {
      case Br(depth) =>
        BrGraph(s, depth);
        BranchAlone(s, r, Jump(s.targets[|s.targets| - depth - 1].block), b);
      case BrTable(table, default) =>
        var depths := fn.branchTables[table];
        BrTableGraph(s, depths, default);
        BranchAlone(s, r, Switch(Last(s.stack), s.targets[|s.targets| - default - 1].block, TableBlocks(s, depths)), b);
      case Return =>
        ReturnGraph(s, Signature(fn).results);
        BranchAlone(s, r, Jump(s.control[0].endBlock), b);
      case BrIf(depth) =>
        BrIfGraph(s, depth);
        InvParts(s);
        var g, t := s.blocks + [BasicBlock(map[], [])], s.targets[|s.targets| - depth - 1];
        SealedMild(g, s.insert, r.blocks);
        SealAvoids(s.blocks, g, r.blocks, s.insert, CondJump(Last(s.stack), t.block, |s.blocks|), b);
        RetiredKept(s, r, b);
    }
  }

  lemma StraightAlone(s: Emission, r: Emission, b: nat)
    requires Inv(s) && s.control != [] && Last(s.control).reachable && Retired(s, b) && FramedFrom(s, r)
    requires s.insert < |s.blocks| == |r.blocks| && |r.control| == |s.control|
    requires forall q :: 0 <= q < |s.blocks| && q != s.insert ==> r.blocks[q].code == s.blocks[q].code
    requires r.blocks[s.insert].code == s.blocks[s.insert].code
             || (r.blocks[s.insert].code != [] && Successors(Last(r.blocks[s.insert].code)) == [])
    ensures LeavesAlone(s, r, b)
  {
    hide Inv, FramedFrom, Straight;
    InvParts(s);
    StraightTargets(s.blocks[s.insert]);
    AvoidsEdges(s.blocks, r.blocks, s.insert, b);
    RetiredKept(s, r, b);
  }

  lemma StraightsAlone(fn: FunctionDef, s: Emission, op: Op, r: Emission, b: nat)
    requires WellFormed(fn) && WellFormedOp(fn, op) && Inv(s) && s.control != [] && Last(s.control).reachable
    requires op.Unreachable? || op.Drop? || op.Select? || op.LocalGet? || op.LocalSet? || op.LocalTee? || op.Plain?
    requires ReachableStep(fn, s, op) == Some(r) && Retired(s, b) && FramedFrom(s, r)
    ensures LeavesAlone(s, r, b)
  {
    hide Inv, FramedFrom, Retired, LeavesAlone;
    InvParts(s);
    StraightAlone(s, r, b);
  }

  lemma ClosersAlone(s: Emission, r: Emission, b: nat)
    requires Inv(s) && s.control != [] && Retired(s, b) && FramedFrom(s, r) && (ElseOp(s) == Some(r) || EndOp(s) == Some(r))
    ensures LeavesAlone(s, r, b)
  {
    hide Inv, Sealed, Consistent, Extends, BlockCarries, FramedFrom, Retired, SameEdgesTo, BranchToEnd, DummyElse;
    assert BranchToEnd(s).Some?;
    var top, s1 := Last(s.control), BranchToEnd(s).value;
    FallAlone(s, b);
    if EndOp(s) == Some(r) {
      EndGraph(s);
      var k := DummyElse(s1, top).value.blocks;
      DummyAlone(s, s1, b);
      SameCode(s1.blocks, k, r.blocks, b);
      EdgesTransitive(s.blocks, s1.blocks, r.blocks, b);
    }
    SizeKept(s.blocks, r.blocks, b);
    RetiredKept(s, r, b);
  }

  lemma SizeKept(g: Graph, h: Graph, b: nat)
    requires SameEdgesTo(g, h, b)
    ensures |g| <= |h|
  {
  }

  lemma EdgesTransitive(g: Graph, h: Graph, k: Graph, b: nat)
    requires SameEdgesTo(g, h, b) && SameEdgesTo(h, k, b)
    ensures SameEdgesTo(g, k, b) && |g| <= |k|
  {
  }

  lemma SameCode(g: Graph, h: Graph, k: Graph, b: nat)
    requires SameEdgesTo(g, h, b) && |h| == |k| && forall q :: 0 <= q < |h| ==> k[q].code == h[q].code
    ensures SameEdgesTo(g, k, b)
  {
    forall q: nat ensures EdgeCount(k, q, b) == EdgeCount(h, q, b) {
    }
  }

  lemma FallAlone(s: Emission, b: nat)
    requires Inv(s) && s.control != [] && Retired(s, b) && BranchToEnd(s).Some?
    ensures SameEdgesTo(s.blocks, BranchToEnd(s).value.blocks, b)
  {
    hide Inv, Sealed, Consistent, Extends, BlockCarries, Straight;
    var top, r := Last(s.control), BranchToEnd(s).value;
    BranchToEndSeals(s);
    InvParts(s);
    if top.reachable {
      GrownSelf(s.blocks);
      SealedMild(s.blocks, s.insert, r.blocks);
      SealAvoids(s.blocks, s.blocks, r.blocks, s.insert, Jump(top.endBlock), b);
    }
  }

  lemma DummyAlone(s: Emission, s1: Emission, b: nat)
    requires Inv(s) && s.control != [] && Retired(s, b) && BranchToEnd(s) == Some(s1) && DummyElse(s1, Last(s.control)).Some?
    ensures SameEdgesTo(s1.blocks, DummyElse(s1, Last(s.control)).value.blocks, b)
  {
    hide Inv, Consistent, Extends, BlockCarries, BranchToEnd;
    var top := Last(s.control);
    EndSettled(s, |s.control| - 1);
    BranchToEndSeals(s);
    if top.elseBlock.Some? {
      var e := top.elseBlock.value;
      AddAllCode(s1.blocks[top.endBlock], top.endPhis, top.elseArgs, e);
      assert s1.blocks[e].code == s.blocks[e].code == [];
      AvoidsEdges(s1.blocks, DummyElse(s1, top).value.blocks, e, b);
    }
  }

  lemma StepAlone(fn: FunctionDef, s: Emission, op: Op, r: Emission, b: nat)
    requires WellFormed(fn) && WellFormedOp(fn, op) && Inv(s) && Emitter.Step(fn, s, op) == Some(r)
    requires Retired(s, b) && FramedFrom(s, r)
    ensures LeavesAlone(s, r, b)
  {
    hide Inv, FramedFrom, Retired, LeavesAlone, BlockOp, LoopOp, IfOp, ElseOp, EndOp, BrOp, BrIfOp, BrTableOp, ReturnOp,
         DefineRegs,
         EnterUnreachable, ResolveBlockType, ValidTuple;
    if !Last(s.control).reachable {
      if s.skip == 0 && (op.Else? || op.End?) {
        ClosersAlone(s, r, b);
      } else {
        SkipAlone(s, r, b);
      }
    } else if op.Opens() {
      OpenerAlone(s, ResolveBlockType(fn.mod, op.bt).value, r, b);
    } else if op.Else? || op.End? {
      ClosersAlone(s, r, b);
    } else if op.Br? || op.BrTable? || op.Return? || op.BrIf? {
      BranchesAlone(fn, s, op, r, b);
    } else {
      StraightsAlone(fn, s, op, r, b);
    }
  }

  lemma SkipAlone(s: Emission, r: Emission, b: nat)
    requires Retired(s, b) && r == s.(skip := r.skip)
    ensures LeavesAlone(s, r, b)
  {
  }

  // ----- over the whole emission -----

  /** The block where a construct ended is retired. */
  lemma EndRetires(s: Emission)
    requires Inv(s) && s.control != [] && EndOp(s).Some?
    ensures Retired(EndOp(s).value, Last(s.control).endBlock)
  {
    hide Consistent, Extends, Sealed, EndOp, BranchToEnd, DummyElse, Settled, CodeOk, RegsOk;
    EndGraph(s);
    var n, r := |s.control| - 1, EndOp(s).value;
    forall k | 0 <= k < n
      ensures var b := s.control[n].endBlock; s.control[k].endBlock != b && s.control[k].elseBlock != Some(b) && s.targets[k].block != b
    {
      OlderBlocks(s, k, n);
    }
    assert r.control == Front(s.control) && r.targets == s.targets[..n];
  }

  lemma {:induction false} RetiredLater(fn: FunctionDef, n: nat, m: nat, b: nat)
    requires Accepted(fn) && n <= m <= |fn.code| && Retired(Emitted(fn, n), b)
    ensures Retired(Emitted(fn, m), b) && SameEdgesTo(Emitted(fn, n).blocks, Emitted(fn, m).blocks, b)
    decreases m
  {
    hide IsEmission, IsRun, Inv, Locked, Retired, SameEdgesTo, Advances, FramedFrom, OutersOk, Emitter.Step;
    if n == m {
      SameSelf(Emitted(fn, n).blocks, b);
    } else {
      RetiredLater(fn, n, m - 1, b);
      RunStart(fn);
      EmittedStep(fn, m - 1);
      EmittedOk(fn, m - 1);
      StepAlone(fn, Emitted(fn, m - 1), fn.code[m - 1], Emitted(fn, m), b);
      EdgesTransitive(Emitted(fn, n).blocks, Emitted(fn, m - 1).blocks, Emitted(fn, m).blocks, b);
    }
  }

  lemma SameSelf(g: Graph, b: nat)
    ensures SameEdgesTo(g, g, b)
  {
  }

  lemma FinalEdges(fn: FunctionDef, b: nat)
    requires Accepted(fn)
    ensures SameEdgesTo(Emitted(fn, |fn.code|).blocks, Final(fn), b)
  {
    hide IsEmission, IsRun, Locked, Emit;
    var s := Emitted(fn, |fn.code|);
    EmitSucceeds(fn);
    EmissionEnds(fn);
    EmittedOk(fn, |fn.code|);
    assert Straight(s.blocks[s.insert].code);
    StraightTargets(s.blocks[s.insert]);
    AvoidsEdges(s.blocks, Final(fn), s.insert, b);
  }

  /** For every accepted body and every construct it emits: in the finished graph, a PHI of the
      construct's end block remains exactly if some block branches there. */
  lemma ErasedIffUnbranched(fn: FunctionDef, n: nat, i: nat)
    requires Accepted(fn) && n < |fn.code| && fn.code[n].End? && Emitted(fn, n).control != [] && Emitted(fn, n).skip == 0
    requires i < |Last(Emitted(fn, n).control).endPhis|
    ensures var c := Last(Emitted(fn, n).control);
            && c.endBlock < |Final(fn)|
            && (c.endPhis[i] in Final(fn)[c.endBlock].phis <==> HasEdgeTo(Final(fn), c.endBlock))
  {
    hide IsEmission, IsRun, Inv, Locked, Retired, SameEdgesTo, Advances, FramedFrom, OutersOk, EndOp, Final, HasEdgeTo,
         Extends;
    var s, r := Emitted(fn, n), Emitted(fn, n + 1);
    var c := Last(s.control);
    EmittedOk(fn, n);
    EmittedStep(fn, n);
    RunStart(fn);
    EndDispatched(fn, s, r);
    EndErases(s, i);
    EndRetires(s);
    RetiredLater(fn, n + 1, |fn.code|, c.endBlock);
    FinalEdges(fn, c.endBlock);
    EdgesTransitive(r.blocks, Emitted(fn, |fn.code|).blocks, Final(fn), c.endBlock);
    SameHas(r.blocks, Final(fn), c.endBlock);
    FinalExtends(fn, n + 1);
    KeptPhi(s, r, Final(fn), i);
  }

  lemma EndDispatched(fn: FunctionDef, s: Emission, r: Emission)
    requires WellFormed(fn) && s.control != [] && s.skip == 0 && Emitter.Step(fn, s, End) == Some(r)
    ensures EndOp(s) == Some(r)
  {
    hide EndOp;
    if Last(s.control).reachable {
      CloserDispatch(fn, s, End);
    }
  }

  lemma SameHas(g: Graph, h: Graph, b: nat)
    requires SameEdgesTo(g, h, b)
    ensures HasEdgeTo(g, b) <==> HasEdgeTo(h, b)
  {
    if HasEdgeTo(g, b) {
      var q: nat :| EdgeCount(g, q, b) > 0;
      assert EdgeCount(h, q, b) == EdgeCount(g, q, b);
    }
    if HasEdgeTo(h, b) {
      var q: nat :| EdgeCount(h, q, b) > 0;
      assert EdgeCount(h, q, b) == EdgeCount(g, q, b);
    }
  }

  /** A PHI that survives its `end` has entries, and so is never erased. */
  lemma KeptPhi(s: Emission, r: Emission, h: Graph, i: nat)
    requires Inv(s) && s.control != [] && EndOp(s) == Some(r) && i < |Last(s.control).endPhis| && Extends(r.blocks, h)
    ensures var c := Last(s.control);
            && c.endBlock < |r.blocks| <= |h|
            && (c.endPhis[i] in r.blocks[c.endBlock].phis <==> c.endPhis[i] in h[c.endBlock].phis)
  {
    hide Inv, Consistent, Sealed, BranchToEnd, DummyElse, EndOp;
    EndGraph(s);
    var c := Last(s.control);
    assert BlockExtends(r.blocks[c.endBlock], h[c.endBlock]);
  }
}
