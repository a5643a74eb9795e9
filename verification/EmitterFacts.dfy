/** What every step of the emitter keeps: the pending blocks of the open contexts, one
    terminator per finished block, fresh registers, and a consistent graph. */
module EmitterFacts {
  import opened IR
  import opened Wrappers
  import opened Cfg
  import opened Emitter
  import opened GraphFacts

  /** Code is being emitted: the insert block is not yet terminated. */
  ghost predicate Live(s: Emission) {
    s.control == [] || Last(s.control).reachable
  }

  /** The blocks of an open context wait, empty, for control to arrive. */
  ghost predicate Settled(g: Graph, insert: nat, c: Context, t: BranchTarget, k: nat) {
    && c.endBlock < |g| && c.endBlock != insert
    && g[c.endBlock].code == [] && PhisAre(g[c.endBlock], c.endPhis) && |c.endPhis| == |c.results|
    && (c.elseBlock.Some? <==> c.kind == IfThen)
    && (c.elseBlock.Some? ==>
          c.elseBlock.value < c.endBlock && c.elseBlock.value != insert
          && g[c.elseBlock.value] == BasicBlock(map[], []))
    && c.outerTargets == k
    && t.block < |g| && |t.phis| == |t.params| && PhisAre(g[t.block], t.phis)
    && (if c.kind == LoopBody then t.block < c.endBlock && c.elseBlock.None?
        else t == BranchTarget(c.results, c.endBlock, c.endPhis))
  }

  /** The blocks of an inner context are younger than those of the outer ones. */
  ghost predicate Younger(c: Context, d: Context, t: BranchTarget) {
    && c.endBlock < d.endBlock && c.endBlock < t.block
    && (d.elseBlock.Some? ==> c.endBlock < d.elseBlock.value)
  }

  ghost predicate ContextsOk(s: Emission) {
    && s.insert < |s.blocks| && |s.targets| == |s.control|
    && (forall k :: 0 <= k < |s.control| ==> Settled(s.blocks, s.insert, s.control[k], s.targets[k], k))
    && (forall j, k :: 0 <= j < k < |s.control| ==> Younger(s.control[j], s.control[k], s.targets[k]))
    && forall k :: 0 <= k < |s.control| - 1 ==> s.control[k].reachable
  }

  ghost predicate IsPending(control: seq<Context>, b: nat) {
    exists k :: 0 <= k < |control| && (control[k].endBlock == b || control[k].elseBlock == Some(b))
  }

  /** Every block but the insert block and the pending ones has exactly one terminator. */
  ghost predicate CodeOk(s: Emission) {
    && s.insert < |s.blocks|
    && (if Live(s) then Straight(s.blocks[s.insert].code) else Closed(s.blocks[s.insert].code))
    && forall b :: 0 <= b < |s.blocks| && b != s.insert && !IsPending(s.control, b) ==> Closed(s.blocks[b].code)
  }

  ghost predicate OperandsBelow(vs: seq<Operand>, n: nat) {
    forall i :: 0 <= i < |vs| && vs[i].Reg? ==> vs[i].r < n
  }

  /** No register is used before it is created. */
  ghost predicate RegsOk(s: Emission) {
    && OperandsBelow(s.stack, s.nextReg)
    && (forall k :: 0 <= k < |s.control| ==> OperandsBelow(s.control[k].elseArgs, s.nextReg))
    && forall b, r :: 0 <= b < |s.blocks| && r in s.blocks[b].phis ==> r < s.nextReg
  }

  ghost predicate Inv(s: Emission) {
    ContextsOk(s) && CodeOk(s) && RegsOk(s) && Consistent(s.blocks)
  }

  // ----- contexts and graph changes -----

  /** `h` is `g` with code added to block `p` only, the same PHIs, and possibly new blocks. */
  ghost predicate Gentle(g: Graph, h: Graph, p: nat) {
    && |g| <= |h|
    && forall b :: 0 <= b < |g| ==> h[b].phis.Keys == g[b].phis.Keys && (b != p ==> h[b].code == g[b].code)
  }

  lemma SettledKept(g: Graph, h: Graph, insert: nat, c: Context, t: BranchTarget, k: nat, to: nat)
    requires Settled(g, insert, c, t, k) && Gentle(g, h, insert)
    requires to != c.endBlock && c.elseBlock != Some(to)
    ensures Settled(h, to, c, t, k)
  {
    assert h[c.endBlock].phis.Keys == g[c.endBlock].phis.Keys;
    assert h[t.block].phis.Keys == g[t.block].phis.Keys;
    if c.elseBlock.Some? {
      var e := c.elseBlock.value;
      assert h[e].phis.Keys == g[e].phis.Keys == {};
    }
  }

  lemma GentleRegs(g: Graph, h: Graph, p: nat, n: nat)
    requires Mild(g, h, p) && forall b, r :: 0 <= b < |g| && r in g[b].phis ==> r < n
    ensures forall b, r :: 0 <= b < |h| && r in h[b].phis ==> r < n
  {
    forall b, r | 0 <= b < |h| && r in h[b].phis ensures r < n {
      assert h[b].phis.Keys == g[b].phis.Keys;
    }
  }

  lemma PrefixBelow(vs: seq<Operand>, n: nat, m: nat, k: nat)
    requires OperandsBelow(vs, n) && n <= m && k <= |vs|
    ensures OperandsBelow(vs[..k], m) && OperandsBelow(vs[k..], m) && OperandsBelow(vs, m)
  {
  }

  /** The contexts with the reachability of the innermost one forgotten. */
  lemma SamePending(a: seq<Context>, b: seq<Context>)
    requires |a| == |b|
    requires forall k :: 0 <= k < |a| ==> a[k].endBlock == b[k].endBlock && a[k].elseBlock == b[k].elseBlock
    ensures forall x :: IsPending(a, x) <==> IsPending(b, x)
  {
  }

  // ----- closing the insert block and falling into unreachable code -----

  lemma CloseInsert(s: Emission, h: Graph, stack: seq<Operand>)
    requires Inv(s) && s.control != [] && Last(s.control).reachable && Sealed(s.blocks, s.insert, h)
    requires stack <= s.stack
    ensures Inv(s.(blocks := h, stack := stack,
                   control := Front(s.control) + [Last(s.control).(reachable := false)]))
  {
    hide Closed, Straight, Consistent, Extends, Younger, Settled;
    var n := |s.control| - 1;
    var r := s.(blocks := h, stack := stack, control := Front(s.control) + [Last(s.control).(reachable := false)]);
    forall k | 0 <= k < |r.control| ensures Settled(r.blocks, r.insert, r.control[k], r.targets[k], k) {
      SettledUnreachable(s, h, k);
    }
    forall j, k | 0 <= j < k < |r.control| ensures Younger(r.control[j], r.control[k], r.targets[k]) {
      YoungerSame(s.control[j], s.control[k], s.targets[k], r.control[k]);
    }
    SamePending(s.control, r.control);
    assert CodeOk(r) by {
      forall b | 0 <= b < |r.blocks| && b != r.insert && !IsPending(r.control, b) ensures Closed(r.blocks[b].code) {
        assert !IsPending(s.control, b);
      }
    }
    GentleRegs(s.blocks, h, s.insert, s.nextReg);
    assert stack == s.stack[..|stack|];
    PrefixBelow(s.stack, s.nextReg, s.nextReg, |stack|);
  }

  lemma SettledUnreachable(s: Emission, h: Graph, k: nat)
    requires Inv(s) && Sealed(s.blocks, s.insert, h) && k < |s.control|
    ensures Settled(h, s.insert, s.control[k], s.targets[k], k)
    ensures Settled(h, s.insert, s.control[k].(reachable := false), s.targets[k], k)
  {
    assert Settled(s.blocks, s.insert, s.control[k], s.targets[k], k);
    SettledKept(s.blocks, h, s.insert, s.control[k], s.targets[k], k, s.insert);
  }

  lemma YoungerSame(c: Context, d: Context, t: BranchTarget, d': Context)
    requires Younger(c, d, t) && d'.endBlock == d.endBlock && d'.elseBlock == d.elseBlock
    ensures Younger(c, d', t)
  {
  }

  /** The step's result keeps the invariant and only extends the graph. */
  ghost predicate Advances(s: Emission, r: Emission) {
    Inv(r) && Extends(s.blocks, r.blocks) && s.nextReg <= r.nextReg
  }

  lemma TargetSettled(s: Emission, k: nat)
    requires Inv(s) && k < |s.targets|
    ensures var t := s.targets[k];
            t.block < |s.blocks| && |t.phis| == |t.params| && PhisAre(s.blocks[t.block], t.phis)
  {
    assert Settled(s.blocks, s.insert, s.control[k], s.targets[k], k);
  }

  /** An unconditional branch seals the insert block, and the target's PHIs carry the arguments. */
  lemma BrGraph(s: Emission, depth: nat)
    requires Inv(s) && s.control != [] && Last(s.control).reachable && BrOp(s, depth).Some?
    ensures depth < |s.targets| && s.insert < |s.blocks| && Last(s.control).outer <= |s.stack|
    ensures var t, r := s.targets[|s.targets| - depth - 1], BrOp(s, depth).value;
            && |t.phis| <= |s.stack| && t.block < |r.blocks| && s.insert < |r.blocks|
            && Sealed(s.blocks, s.insert, r.blocks)
            && r == s.(blocks := r.blocks, stack := s.stack[..Last(s.control).outer],
                       control := Front(s.control) + [Last(s.control).(reachable := false)])
            && BlockCarries(r.blocks[t.block], s.insert, t.phis, s.stack[|s.stack| - |t.phis|..])
            && r.blocks[s.insert].code == s.blocks[s.insert].code + [Jump(t.block)]
  {
    hide Inv, Sealed, PhisAre, AddAll, Consistent, Straight, BlockCarries;
    InvParts(s);
    var k := |s.targets| - depth - 1;
    var t := s.targets[k];
    var vs := s.stack[|s.stack| - |t.params|..];
    TargetSettled(s, k);
    AddAllCode(s.blocks[t.block], t.phis, vs, s.insert);
    JumpSeals(s.blocks, s.insert, t.block, t.phis, vs);
    var h, r := s.blocks[t.block := AddAll(s.blocks[t.block], t.phis, vs, s.insert)], BrOp(s, depth).value;
    CarriesSamePhis(h[t.block], r.blocks[t.block], s.insert, t.phis, vs);
    assert s.stack[..|s.stack| - |t.params|][..Last(s.control).outer] == s.stack[..Last(s.control).outer];
  }

  lemma BrKeeps(s: Emission, depth: nat)
    requires Inv(s) && s.control != [] && Last(s.control).reachable && BrOp(s, depth).Some?
    ensures Advances(s, BrOp(s, depth).value)
  {
    hide Inv, Sealed, Extends, BlockCarries, BrOp;
    BrGraph(s, depth);
    var r := BrOp(s, depth).value;
    CloseInsert(s, r.blocks, r.stack);
    SealedExtends(s.blocks, s.insert, r.blocks);
  }

  /** A return seals the insert block, and the function's result PHIs carry the results. */
  lemma ReturnGraph(s: Emission, results: seq<ValueType>)
    requires Inv(s) && s.control != [] && Last(s.control).reachable && ReturnOp(s, results).Some?
    ensures s.insert < |s.blocks| && Last(s.control).outer <= |s.stack|
    ensures var c, r := s.control[0], ReturnOp(s, results).value;
            && |c.endPhis| == |results| <= |s.stack| && c.endBlock < |r.blocks| && s.insert < |r.blocks|
            && Sealed(s.blocks, s.insert, r.blocks)
            && r == s.(blocks := r.blocks, stack := s.stack[..Last(s.control).outer],
                       control := Front(s.control) + [Last(s.control).(reachable := false)])
            && BlockCarries(r.blocks[c.endBlock], s.insert, c.endPhis, s.stack[|s.stack| - |c.endPhis|..])
            && r.blocks[s.insert].code == s.blocks[s.insert].code + [Jump(c.endBlock)]
  {
    hide Inv, Sealed, PhisAre, AddAll, Consistent, Straight, BlockCarries;
    InvParts(s);
    var c, vs := s.control[0], s.stack[|s.stack| - |results|..];
    EndSettled(s, 0);
    JumpSeals(s.blocks, s.insert, c.endBlock, c.endPhis, vs);
    assert s.stack[..|s.stack| - |results|][..Last(s.control).outer] == s.stack[..Last(s.control).outer];
  }

  lemma ReturnKeeps(s: Emission, results: seq<ValueType>)
    requires Inv(s) && s.control != [] && Last(s.control).reachable && ReturnOp(s, results).Some?
    ensures Advances(s, ReturnOp(s, results).value)
  {
    hide Inv, Sealed, Extends, BlockCarries, ReturnOp;
    ReturnGraph(s, results);
    var r := ReturnOp(s, results).value;
    CloseInsert(s, r.blocks, r.stack);
    SealedExtends(s.blocks, s.insert, r.blocks);
  }

  lemma EndSettled(s: Emission, k: nat)
    requires Inv(s) && k < |s.control|
    ensures var c := s.control[k];
            && c.endBlock < |s.blocks| && PhisAre(s.blocks[c.endBlock], c.endPhis) && |c.endPhis| == |c.results|
            && c.endBlock != s.insert && s.blocks[c.endBlock].code == []
            && (c.elseBlock.Some? ==>
                  c.elseBlock.value < c.endBlock && c.elseBlock.value != s.insert
                  && s.blocks[c.elseBlock.value] == BasicBlock(map[], []))
  {
    assert Settled(s.blocks, s.insert, s.control[k], s.targets[k], k);
  }

  lemma InvParts(s: Emission)
    requires Inv(s)
    ensures s.insert < |s.blocks| && |s.targets| == |s.control| && Consistent(s.blocks)
    ensures Live(s) ==> Straight(s.blocks[s.insert].code)
    ensures !Live(s) ==> Closed(s.blocks[s.insert].code)
    ensures OperandsBelow(s.stack, s.nextReg)
  {
  }

  lemma SealedExtends(g: Graph, p: nat, h: Graph)
    requires Sealed(g, p, h)
    ensures Extends(g, h) && Consistent(h) && Mild(g, h, p) && p < |h| && Closed(h[p].code)
  {
  }

  lemma UnreachableKeeps(s: Emission)
    requires Inv(s) && s.control != [] && Last(s.control).reachable && s.insert < |s.blocks|
    requires EnterUnreachable(Append(Append(s, TrapCall), NoReturn)).Some?
    ensures Advances(s, EnterUnreachable(Append(Append(s, TrapCall), NoReturn)).value)
  {
    hide Inv, Sealed, Extends, Closed, Straight;
    InvParts(s);
    var g, p := s.blocks, s.insert;
    var h := Append(s, TrapCall).blocks;
    StraightKeeps(g, p, TrapCall);
    var k := Append(Append(s, TrapCall), NoReturn).blocks;
    StopSeals(h, p, NoReturn);
    SealedExtends(h, p, k);
    ExtendsTransitive(g, h, k);
    assert Sealed(g, p, k) by { SealedFrom(g, h, p, k); }
    var r := EnterUnreachable(Append(Append(s, TrapCall), NoReturn)).value;
    CloseInsert(s, r.blocks, r.stack);
  }

  lemma SealedFrom(g: Graph, h: Graph, p: nat, k: Graph)
    requires Mild(g, h, p) && Extends(g, h) && Sealed(h, p, k)
    ensures Sealed(g, p, k)
  {
    hide Consistent, BlockExtends;
    ExtendsTransitive(g, h, k);
  }

  // ----- branch tables -----

  /** Entries for `p` in the PHIs of every target of matching arity carry the arguments. */
  ghost predicate TargetsCarry(targets: seq<BranchTarget>, g: Graph, p: nat, args: seq<Operand>) {
    forall j :: 0 <= j < |targets| && targets[j].block < |g| && |targets[j].phis| == |args| ==>
      BlockCarries(g[targets[j].block], p, targets[j].phis, args)
  }

  lemma TargetBlocksDiffer(s: Emission, i: nat, j: nat)
    requires Inv(s) && i < j < |s.targets|
    ensures s.targets[i].block < s.targets[j].block
  {
    assert Settled(s.blocks, s.insert, s.control[i], s.targets[i], i);
    assert Younger(s.control[i], s.control[j], s.targets[j]);
  }

  lemma FeedCarries(s: Emission, h: Graph, j: nat, args: seq<Operand>)
    requires Inv(s) && j < |s.targets| && |h| == |s.blocks| && |s.targets[j].phis| == |args|
    requires TargetsCarry(s.targets, h, s.insert, args)
    requires s.targets[j].block < |h|
    requires var t := s.targets[j];
             BlockCarries(AddAll(h[t.block], t.phis, args, s.insert), s.insert, t.phis, args)
    ensures var t := s.targets[j];
            TargetsCarry(s.targets, h[t.block := AddAll(h[t.block], t.phis, args, s.insert)], s.insert, args)
  {
    hide BlockCarries, Inv;
    var t := s.targets[j];
    var k := h[t.block := AddAll(h[t.block], t.phis, args, s.insert)];
    forall i | 0 <= i < |s.targets| && s.targets[i].block < |k| && |s.targets[i].phis| == |args|
      ensures BlockCarries(k[s.targets[i].block], s.insert, s.targets[i].phis, args)
    {
      if i < j { TargetBlocksDiffer(s, i, j); } else if j < i { TargetBlocksDiffer(s, j, i); }
    }
  }

  /** The graph after feeding the first targets of a branch. */
  ghost predicate Feeding(s: Emission, h: Graph, ts: seq<nat>, args: seq<Operand>) {
    && Mild(s.blocks, h, s.insert) && Extends(s.blocks, h)
    && EdgesWith(h, s.insert, ts) && Coherent(h)
    && TargetsCarry(s.targets, h, s.insert, args)
    && s.insert < |h| && h[s.insert].code == s.blocks[s.insert].code
  }

  lemma FeedTarget(s: Emission, h: Graph, ts: seq<nat>, args: seq<Operand>, j: nat)
    requires Inv(s) && s.insert < |s.blocks| && Feeding(s, h, ts, args)
    requires j < |s.targets| && |s.targets[j].phis| == |args| && s.targets[j].block < |h|
    ensures var t := s.targets[j];
            Feeding(s, h[t.block := AddAll(h[t.block], t.phis, args, s.insert)], ts + [t.block], args)
  {
    hide Inv, EdgesWith, Coherent, BlockCarries, Extends;
    TargetSettled(s, j);
    var t := s.targets[j];
    assert BlockCarries(h[t.block], s.insert, t.phis, args);
    FeedStep(s.blocks, h, s.insert, ts, t.block, t.phis, args);
    FeedCarries(s, h, j, args);
  }

  lemma {:induction false} FeedTable(s: Emission, s1: Emission, ts: seq<nat>, depths: seq<nat>, args: seq<Operand>)
    requires Inv(s) && s.insert < |s.blocks| && Feeding(s, s1.blocks, ts, args)
    requires s1 == s.(blocks := s1.blocks) && AddTable(s1, depths, args).Some?
    requires forall i :: 0 <= i < |depths| ==> depths[i] < |s.targets|
    ensures var r := AddTable(s1, depths, args).value;
            && r == s.(blocks := r.blocks)
            && Feeding(s, r.blocks, ts + TableBlocks(s, depths), args)
  {
    hide Inv, Feeding, AddAll, TableBlocks;
    if depths == [] {
      assert ts + TableBlocks(s, depths) == ts;
    } else {
      var front, d := Front(depths), Last(depths);
      FeedTable(s, s1, ts, front, args);
      var r1 := AddTable(s1, front, args).value;
      var j := |s.targets| - d - 1;
      var us := ts + TableBlocks(s, front);
      FeedTarget(s, r1.blocks, us, args, j);
      TableBlocksLast(s, ts, depths);
    }
  }

  lemma TableBlocksLast(s: Emission, ts: seq<nat>, depths: seq<nat>)
    requires depths != [] && forall i :: 0 <= i < |depths| ==> depths[i] < |s.targets|
    ensures ts + TableBlocks(s, depths)
         == (ts + TableBlocks(s, Front(depths))) + [s.targets[|s.targets| - Last(depths) - 1].block]
  {
  }

  lemma {:induction false} TableArity(s: Emission, depths: seq<nat>, args: seq<Operand>)
    requires AddTable(s, depths, args).Some?
    ensures AddTable(s, depths, args).value.targets == s.targets
    ensures forall i :: 0 <= i < |depths| ==>
              depths[i] < |s.targets| && |s.targets[|s.targets| - depths[i] - 1].phis| == |args|
  {
    if depths != [] {
      TableArity(s, Front(depths), args);
      forall i | 0 <= i < |depths|
        ensures depths[i] < |s.targets| && |s.targets[|s.targets| - depths[i] - 1].phis| == |args|
      {
        if i < |depths| - 1 {
          assert Front(depths)[i] == depths[i];
        }
      }
    }
  }

  lemma TableInRange(s: Emission, depths: seq<nat>, t: nat)
    requires Inv(s) && t < |s.blocks|
    requires forall i :: 0 <= i < |depths| ==> depths[i] < |s.targets|
    ensures forall b :: b in [t] + TableBlocks(s, depths) ==> b < |s.blocks|
  {
    hide Inv;
    var ts := TableBlocks(s, depths);
    forall b | b in ts ensures b < |s.blocks| {
      var i :| 0 <= i < |ts| && ts[i] == b;
      TargetSettled(s, |s.targets| - depths[i] - 1);
    }
  }

  /** A branch table seals the insert block, and every target's PHIs carry the arguments. */
  lemma BrTableGraph(s: Emission, depths: seq<nat>, default: nat)
    requires Inv(s) && s.control != [] && Last(s.control).reachable && BrTableOp(s, depths, default).Some?
    ensures default < |s.targets| && |s.stack| > |s.targets[|s.targets| - default - 1].phis|
    ensures forall i :: 0 <= i < |depths| ==>
              && depths[i] < |s.targets|
              && |s.targets[|s.targets| - depths[i] - 1].phis| == |s.targets[|s.targets| - default - 1].phis|
    ensures Last(s.control).outer <= |s.stack|
    ensures var r := BrTableOp(s, depths, default).value;
            && Sealed(s.blocks, s.insert, r.blocks)
            && r == s.(blocks := r.blocks, stack := s.stack[..Last(s.control).outer],
                       control := Front(s.control) + [Last(s.control).(reachable := false)])
    ensures var t, r := s.targets[|s.targets| - default - 1], BrTableOp(s, depths, default).value;
            && TargetsCarry(s.targets, r.blocks, s.insert, s.stack[|s.stack| - 1 - |t.phis|..|s.stack| - 1])
            && s.insert < |r.blocks| && s.insert < |s.blocks|
            && r.blocks[s.insert].code
               == s.blocks[s.insert].code + [Switch(Last(s.stack), t.block, TableBlocks(s, depths))]
  {
    hide Inv, Feeding, AddAll, Sealed, AddTable, TargetsCarry;
    InvParts(s);
    var j := |s.targets| - default - 1;
    var t, stack := s.targets[j], s.stack[..|s.stack| - 1];
    var args := stack[|stack| - |t.params|..];
    TargetSettled(s, j);
    FeedingStart(s, args);
    FeedTarget(s, s.blocks, [], args, j);
    var s1 := AddIncoming(s, t.block, t.phis, args);
    TableArity(s1, depths, args);
    var ts := [] + [t.block];
    FeedTable(s, s1, ts, depths, args);
    var s2 := AddTable(s1, depths, args).value;
    var i := Switch(Last(s.stack), t.block, TableBlocks(s, depths));
    TableInRange(s, depths, t.block);
    assert ts + TableBlocks(s, depths) == [t.block] + TableBlocks(s, depths);
    TableSeals(s, s2.blocks, ts + TableBlocks(s, depths), args, i);
    assert args == s.stack[|s.stack| - 1 - |t.phis|..|s.stack| - 1];
    assert stack[..|stack| - |t.params|][..Last(s.control).outer] == s.stack[..Last(s.control).outer];
  }

  lemma BrTableKeeps(s: Emission, depths: seq<nat>, default: nat)
    requires Inv(s) && s.control != [] && Last(s.control).reachable && BrTableOp(s, depths, default).Some?
    ensures Advances(s, BrTableOp(s, depths, default).value)
  {
    hide Inv, Sealed, TargetsCarry, BrTableOp;
    BrTableGraph(s, depths, default);
    var r := BrTableOp(s, depths, default).value;
    CloseInsert(s, r.blocks, r.stack);
    SealedExtends(s.blocks, s.insert, r.blocks);
  }

  lemma FeedingStart(s: Emission, args: seq<Operand>)
    requires Inv(s) && s.control != [] && Last(s.control).reachable
    ensures Feeding(s, s.blocks, [], args)
  {
    MildSelf(s.blocks, s.insert);
    StraightTargets(s.blocks[s.insert]);
    OpenEdges(s.blocks, s.insert);
    forall j | 0 <= j < |s.targets| && s.targets[j].block < |s.blocks| && |s.targets[j].phis| == |args|
      ensures BlockCarries(s.blocks[s.targets[j].block], s.insert, s.targets[j].phis, args)
    {
      OpenCarries(s.blocks, s.insert, s.targets[j].block, s.targets[j].phis, args);
    }
  }

  lemma TableSeals(s: Emission, h: Graph, ts: seq<nat>, args: seq<Operand>, i: Instr)
    requires Inv(s) && s.control != [] && Last(s.control).reachable && Feeding(s, h, ts, args)
    requires i.Switch? && Successors(i) == ts
    requires forall t :: t in ts ==> t < |s.blocks|
    ensures s.insert < |h|
    ensures var k := h[s.insert := h[s.insert].(code := h[s.insert].code + [i])];
            && Sealed(s.blocks, s.insert, k)
            && TargetsCarry(s.targets, k, s.insert, args)
            && s.insert < |s.blocks| && k[s.insert].code == s.blocks[s.insert].code + [i]
  {
    hide EdgesWith, Coherent, BlockCarries, Sealed;
    InvParts(s);
    SealStep(s.blocks, h, s.insert, ts, i);
    var k := h[s.insert := h[s.insert].(code := h[s.insert].code + [i])];
    forall j | 0 <= j < |s.targets| && s.targets[j].block < |k| && |s.targets[j].phis| == |args|
      ensures BlockCarries(k[s.targets[j].block], s.insert, s.targets[j].phis, args)
    {
      assert BlockCarries(h[s.targets[j].block], s.insert, s.targets[j].phis, args);
      CarriesSamePhis(h[s.targets[j].block], k[s.targets[j].block], s.insert, s.targets[j].phis, args);
    }
  }

  lemma CarriesSamePhis(x: BasicBlock, y: BasicBlock, p: nat, phis: seq<nat>, vs: seq<Operand>)
    requires |phis| == |vs| && x.phis == y.phis && BlockCarries(x, p, phis, vs)
    ensures BlockCarries(y, p, phis, vs)
  {
  }

  // ----- staying in or moving to a live block -----

  lemma DefineKeeps(s: Emission, i: Instr, n: nat, count: nat)
    requires Inv(s) && s.control != [] && Last(s.control).reachable && !i.IsTerminator()
    requires DefineRegs(s, i, n, count).Some?
    ensures Advances(s, DefineRegs(s, i, n, count).value)
  {
    hide Consistent, Extends, Straight, Closed, Settled, Younger;
    var r := DefineRegs(s, i, n, count).value;
    StraightKeeps(s.blocks, s.insert, i);
    forall k | 0 <= k < |s.control| ensures Settled(r.blocks, r.insert, r.control[k], r.targets[k], k) {
      assert Settled(s.blocks, s.insert, s.control[k], s.targets[k], k);
      EndSettled(s, k);
      SettledKept(s.blocks, r.blocks, s.insert, s.control[k], s.targets[k], k, s.insert);
    }
    GentleRegs(s.blocks, r.blocks, s.insert, s.nextReg);
    PrefixBelow(s.stack, s.nextReg, r.nextReg, |s.stack| - n);
    forall k | 0 <= k < |s.control| ensures OperandsBelow(s.control[k].elseArgs, r.nextReg) {
      PrefixBelow(s.control[k].elseArgs, s.nextReg, r.nextReg, 0);
    }
  }

  /** `h` is `g` with new blocks that have no code and no entries. */
  ghost predicate Grown(g: Graph, h: Graph) {
    && |g| <= |h| && h[..|g|] == g
    && forall b :: |g| <= b < |h| ==> h[b].code == [] && NoEntries(h[b])
  }

  /** After growth and sealing, the old contexts wait as before, wherever emission continues. */
  lemma OldContexts(s: Emission, g: Graph, h: Graph, to: nat)
    requires Inv(s) && Grown(s.blocks, g) && Sealed(g, s.insert, h) && |s.blocks| <= to
    ensures |s.targets| == |s.control|
    ensures forall k :: 0 <= k < |s.control| ==> Settled(h, to, s.control[k], s.targets[k], k)
    ensures forall b :: 0 <= b < |s.blocks| && b != s.insert ==> h[b].code == s.blocks[b].code
    ensures Extends(s.blocks, h)
  {
    hide Consistent, Closed, BlockExtends, Settled, NoEntries, PhisAre;
    forall b | 0 <= b < |s.blocks| ensures g[b] == s.blocks[b] {
      assert g[b] == g[..|s.blocks|][b];
    }
    GrowKeeps(s.blocks, g);
    SealedExtends(g, s.insert, h);
    ExtendsTransitive(s.blocks, g, h);
    assert Gentle(s.blocks, h, s.insert);
    forall k | 0 <= k < |s.control| ensures Settled(h, to, s.control[k], s.targets[k], k) {
      assert Settled(s.blocks, s.insert, s.control[k], s.targets[k], k);
      EndSettled(s, k);
      SettledKept(s.blocks, h, s.insert, s.control[k], s.targets[k], k, to);
    }
  }

  lemma BrIfKeeps(s: Emission, depth: nat)
    requires Inv(s) && s.control != [] && Last(s.control).reachable && BrIfOp(s, depth).Some?
    ensures Advances(s, BrIfOp(s, depth).value)
  {
    hide Sealed, Extends, PhisAre, Settled, Consistent, Closed, Straight, Younger;
    var r := BrIfOp(s, depth).value;
    BrIfGraph(s, depth);
    var g, to := s.blocks + [BasicBlock(map[], [])], |s.blocks|;
    OldContexts(s, g, r.blocks, to);
    SealedExtends(g, s.insert, r.blocks);
    assert Straight(r.blocks[to].code) by { EmptyStraight(); }
    assert CodeOk(r) by {
      forall b | 0 <= b < |r.blocks| && b != r.insert && !IsPending(r.control, b) ensures Closed(r.blocks[b].code) {
      }
    }
    NewRegs(s.blocks, g, s.nextReg, s.nextReg);
    GentleRegs(g, r.blocks, s.insert, s.nextReg);
    PrefixBelow(s.stack, s.nextReg, s.nextReg, |s.stack| - 1);
  }

  lemma EmptyStraight()
    ensures Straight([])
  {
  }

  lemma GrowByOne(g: Graph)
    requires Consistent(g)
    ensures var h := g + [BasicBlock(map[], [])];
            Grown(g, h) && Consistent(h) && forall b :: 0 <= b < |g| ==> h[b] == g[b]
  {
    hide Consistent;
    GrowKeeps(g, g + [BasicBlock(map[], [])]);
  }

  /** A conditional branch seals the insert block and goes on in a new one. */
  lemma BrIfGraph(s: Emission, depth: nat)
    requires Inv(s) && s.control != [] && Last(s.control).reachable && BrIfOp(s, depth).Some?
    ensures depth < |s.targets| && s.insert < |s.blocks| && |s.stack| > |s.targets[|s.targets| - depth - 1].phis|
    ensures var r, t := BrIfOp(s, depth).value, s.targets[|s.targets| - depth - 1];
            var g := s.blocks + [BasicBlock(map[], [])];
            && Consistent(g) && Sealed(g, s.insert, r.blocks) && Grown(s.blocks, g)
            && r == s.(blocks := r.blocks, insert := |s.blocks|, stack := s.stack[..|s.stack| - 1])
            && r.insert < |r.blocks| && r.blocks[r.insert] == BasicBlock(map[], [])
            && t.block < |s.blocks|
            && BlockCarries(r.blocks[t.block], s.insert, t.phis, s.stack[|s.stack| - 1 - |t.phis|..|s.stack| - 1])
            && r.blocks[s.insert].code
               == s.blocks[s.insert].code + [CondJump(Last(s.stack), t.block, |s.blocks|)]
  {
    hide Inv, Sealed, Extends, Consistent, Straight, AddAll, BlockCarries, PhisAre, NoEntries, Grown;
    InvParts(s);
    var k := |s.targets| - depth - 1;
    var t, stack := s.targets[k], s.stack[..|s.stack| - 1];
    var vs := stack[|stack| - |t.params|..];
    TargetSettled(s, k);
    var g := s.blocks + [BasicBlock(map[], [])];
    GrowByOne(s.blocks);
    CondJumpSeals(g, s.insert, Last(s.stack), t.block, t.phis, vs, |s.blocks|);
    AddAllCode(g[t.block], t.phis, vs, s.insert);
    var h := g[t.block := AddAll(g[t.block], t.phis, vs, s.insert)];
    var r := BrIfOp(s, depth).value;
    assert s.blocks[t.block := AddAll(s.blocks[t.block], t.phis, vs, s.insert)] + [BasicBlock(map[], [])] == h;
    assert vs == s.stack[|s.stack| - 1 - |t.phis|..|s.stack| - 1];
    CarriesSamePhis(h[t.block], r.blocks[t.block], s.insert, t.phis, vs);
  }

  lemma NewRegs(g: Graph, h: Graph, n: nat, m: nat)
    requires Grown(g, h) && n <= m
    requires forall b, r :: 0 <= b < |g| && r in g[b].phis ==> r < n
    requires forall b, r :: |g| <= b < |h| && r in h[b].phis ==> r < m
    ensures forall b, r :: 0 <= b < |h| && r in h[b].phis ==> r < m
  {
    forall b, r | 0 <= b < |h| && r in h[b].phis ensures r < m {
      if b < |g| {
        assert h[b] == h[..|g|][b] == g[b];
      }
    }
  }

  // ----- opening constructs -----

  /** A block with one new PHI per type and no code. */
  function PhiBlock(first: nat, types: seq<ValueType>): BasicBlock {
    BasicBlock(NewPhis(first, types), [])
  }

  lemma PhiBlockFacts(first: nat, types: seq<ValueType>)
    ensures NoEntries(PhiBlock(first, types)) && PhisAre(PhiBlock(first, types), PhiRegs(first, |types|))
    ensures BasicBlock(map[] + NewPhis(first, types), []) == PhiBlock(first, types)
  {
    var regs := PhiRegs(first, |types|);
    forall r | r in NewPhis(first, types) ensures r in regs {
      assert regs[r - first] == r;
    }
    assert map[] + NewPhis(first, types) == NewPhis(first, types);
  }

  /** A new innermost context whose blocks are new keeps the invariant of the contexts. */
  lemma PushContexts(s: Emission, r: Emission, c: Context, t: BranchTarget)
    requires Inv(s) && Live(s)
    requires r.control == s.control + [c] && r.targets == s.targets + [t] && r.insert < |r.blocks|
    requires forall k :: 0 <= k < |s.control| ==> Settled(r.blocks, r.insert, s.control[k], s.targets[k], k)
    requires Settled(r.blocks, r.insert, c, t, |s.control|)
    requires |s.blocks| <= c.endBlock && |s.blocks| <= t.block && (c.elseBlock.Some? ==> |s.blocks| <= c.elseBlock.value)
    ensures ContextsOk(r)
  {
    hide Settled, Consistent, CodeOk, RegsOk;
    forall j, k | 0 <= j < k < |r.control| ensures Younger(r.control[j], r.control[k], r.targets[k]) {
      EndSettled(s, j);
      if k < |s.control| {
        assert Younger(s.control[j], s.control[k], s.targets[k]);
      }
    }
    assert forall k :: 0 <= k < |s.control| - 1 ==> s.control[k].reachable;
  }

  lemma PushCode(s: Emission, r: Emission, c: Context)
    requires Inv(s) && Live(s) && c.reachable && r.control == s.control + [c]
    requires |s.blocks| <= |r.blocks| && r.insert < |r.blocks| && Straight(r.blocks[r.insert].code)
    requires forall b :: 0 <= b < |s.blocks| && b != s.insert ==> r.blocks[b].code == s.blocks[b].code
    requires r.insert == s.insert || (s.insert < |r.blocks| && Closed(r.blocks[s.insert].code))
    requires forall b :: |s.blocks| <= b < |r.blocks| ==> b == r.insert || b == c.endBlock || c.elseBlock == Some(b)
    ensures CodeOk(r)
  {
    hide Closed, Straight, ContextsOk, RegsOk, Consistent;
    forall b | 0 <= b < |r.blocks| && b != r.insert && !IsPending(r.control, b) ensures Closed(r.blocks[b].code) {
      PendingPushed(s.control, c, b);
    }
  }

  lemma PendingPushed(control: seq<Context>, c: Context, b: nat)
    requires !IsPending(control + [c], b)
    ensures !IsPending(control, b) && c.endBlock != b && c.elseBlock != Some(b)
  {
    var all := control + [c];
    assert all[|control|] == c;
    forall k | 0 <= k < |control| ensures control[k].endBlock != b && control[k].elseBlock != Some(b) {
      assert all[k] == control[k];
    }
  }

  lemma PushRegs(s: Emission, g: Graph, r: Emission, c: Context)
    requires Inv(s) && r.control == s.control + [c] && s.nextReg <= r.nextReg
    requires Grown(s.blocks, g) && Mild(g, r.blocks, s.insert)
    requires forall b, x :: |s.blocks| <= b < |g| && x in g[b].phis ==> x < r.nextReg
    requires OperandsBelow(r.stack, r.nextReg) && OperandsBelow(c.elseArgs, r.nextReg)
    ensures RegsOk(r)
  {
    hide ContextsOk, CodeOk, Consistent;
    NewRegs(s.blocks, g, s.nextReg, r.nextReg);
    GentleRegs(g, r.blocks, s.insert, r.nextReg);
    forall k | 0 <= k < |r.control| ensures OperandsBelow(r.control[k].elseArgs, r.nextReg) {
      if k < |s.control| {
        PrefixBelow(s.control[k].elseArgs, s.nextReg, r.nextReg, 0);
      }
    }
  }

  // ----- block -----

  lemma BlockForm(s: Emission, t: FuncType)
    requires BlockOp(s, t).Some?
    ensures var end, phis := |s.blocks|, PhiRegs(s.nextReg, |t.results|);
            && |t.params| <= |s.stack|
            && BlockOp(s, t).value
               == s.(blocks := s.blocks + [PhiBlock(s.nextReg, t.results)], nextReg := s.nextReg + |t.results|,
                     control := s.control + [Context(BlockBody, end, phis, None, [], t.results,
                                                     |s.stack| - |t.params|, |s.targets|, true)],
                     targets := s.targets + [BranchTarget(t.results, end, phis)])
  {
    PhiBlockFacts(s.nextReg, t.results);
    var n := |s.stack| - |t.params|;
    assert s.stack[..n] + s.stack[n..] == s.stack;
    var g := s.blocks + [BasicBlock(map[], [])];
    assert g[|s.blocks| := PhiBlock(s.nextReg, t.results)] == s.blocks + [PhiBlock(s.nextReg, t.results)];
  }

  lemma BlockKeeps(s: Emission, t: FuncType)
    requires Inv(s) && s.control != [] && Last(s.control).reachable && BlockOp(s, t).Some?
    ensures Advances(s, BlockOp(s, t).value)
  {
    hide Settled, Consistent, CodeOk, RegsOk, Straight, Closed, Extends, BlockOp, ContextsOk, PhisAre, NoEntries,
         Younger;
    var r := BlockOp(s, t).value;
    BlockForm(s, t);
    InvParts(s);
    var c, target := Last(r.control), Last(r.targets);
    PhiBlockFacts(s.nextReg, t.results);
    GrowKeeps(s.blocks, r.blocks);
    forall k | 0 <= k < |s.control| ensures Settled(r.blocks, r.insert, s.control[k], s.targets[k], k) {
      ContextAt(s, k);
      EndSettled(s, k);
      SettledKept(s.blocks, r.blocks, s.insert, s.control[k], s.targets[k], k, s.insert);
    }
    assert Settled(r.blocks, r.insert, c, target, |s.control|) by { NewSettled(r.blocks, r.insert, c, target, |s.control|); }
    PushContexts(s, r, c, target);
    PushCode(s, r, c);
    PrefixBelow(s.stack, s.nextReg, r.nextReg, 0);
    PushRegs(s, r.blocks, r, c);
  }

  lemma ContextAt(s: Emission, k: nat)
    requires Inv(s) && k < |s.control|
    ensures |s.targets| == |s.control| && Settled(s.blocks, s.insert, s.control[k], s.targets[k], k)
  {
  }

  lemma NewSettled(g: Graph, insert: nat, c: Context, t: BranchTarget, k: nat)
    requires c.endBlock < |g| && c.endBlock != insert && g[c.endBlock].code == []
    requires PhisAre(g[c.endBlock], c.endPhis) && |c.endPhis| == |c.results|
    requires c.elseBlock.Some? <==> c.kind == IfThen
    requires c.elseBlock.Some? ==> c.elseBlock.value < c.endBlock && c.elseBlock.value != insert
                                   && g[c.elseBlock.value] == BasicBlock(map[], [])
    requires c.outerTargets == k && t.block < |g| && |t.phis| == |t.params| && PhisAre(g[t.block], t.phis)
    requires if c.kind == LoopBody then t.block < c.endBlock && c.elseBlock.None?
             else t == BranchTarget(c.results, c.endBlock, c.endPhis)
    ensures Settled(g, insert, c, t, k)
  {
  }

  // ----- loop -----

  /** The graph with the new blocks of a loop. */
  function LoopBlocks(s: Emission, t: FuncType): Graph {
    s.blocks + [PhiBlock(s.nextReg, t.params), PhiBlock(s.nextReg + |t.params|, t.results)]
  }

  lemma CreatePhisFresh(s: Emission, b: nat, types: seq<ValueType>)
    requires b < |s.blocks| && s.blocks[b] == BasicBlock(map[], [])
    ensures CreatePhis(s, b, types)
            == s.(blocks := s.blocks[b := PhiBlock(s.nextReg, types)], nextReg := s.nextReg + |types|)
  {
    PhiBlockFacts(s.nextReg, types);
  }

  lemma LoopBlocksForm(s: Emission, t: FuncType)
    ensures CreatePhis(CreatePhis(CreateBlock(CreateBlock(s)), |s.blocks|, t.params), |s.blocks| + 1, t.results)
            == s.(blocks := LoopBlocks(s, t), nextReg := s.nextReg + |t.params| + |t.results|)
  {
    hide CreatePhis, PhiBlock;
    var empty := BasicBlock(map[], []);
    var body, end := |s.blocks|, |s.blocks| + 1;
    var s1 := CreateBlock(CreateBlock(s));
    CreatePhisFresh(s1, body, t.params);
    CreatePhisFresh(CreatePhis(s1, body, t.params), end, t.results);
    var g := s.blocks + [empty] + [empty];
    assert g[body := PhiBlock(s.nextReg, t.params)][end := PhiBlock(s.nextReg + |t.params|, t.results)] == LoopBlocks(s, t);
  }

  lemma LoopForm(s: Emission, t: FuncType)
    requires LoopOp(s, t).Some?
    ensures |t.params| <= |s.stack| && s.insert < |s.blocks|
    ensures var body, end, n := |s.blocks|, |s.blocks| + 1, |s.stack| - |t.params|;
            var bodyPhis, endPhis := PhiRegs(s.nextReg, |t.params|), PhiRegs(s.nextReg + |t.params|, |t.results|);
            var g := LoopBlocks(s, t);
            var h := g[body := AddAll(g[body], bodyPhis, s.stack[n..], s.insert)];
            LoopOp(s, t).value
            == Emission(h[s.insert := h[s.insert].(code := h[s.insert].code + [Jump(body)])], body,
                        s.nextReg + |t.params| + |t.results|, s.stack[..n] + AsOperands(bodyPhis),
                        s.control + [Context(LoopBody, end, endPhis, None, [], t.results, n, |s.targets|, true)],
                        s.targets + [BranchTarget(t.params, body, bodyPhis)], s.skip)
  {
    hide AddAll, AsOperands, CreatePhis, PhiBlock, PhiRegs;
    LoopBlocksForm(s, t);
  }

  /** A loop seals the block before it with a jump to its body, whose PHIs take the arguments. */
  lemma LoopGraph(s: Emission, t: FuncType)
    requires Inv(s) && s.control != [] && Last(s.control).reachable && LoopOp(s, t).Some?
    ensures var r, g := LoopOp(s, t).value, LoopBlocks(s, t);
            && |t.params| <= |s.stack| && s.insert < |s.blocks|
            && Grown(s.blocks, g) && Sealed(g, s.insert, r.blocks)
            && BlockCarries(r.blocks[|s.blocks|], s.insert, PhiRegs(s.nextReg, |t.params|), s.stack[|s.stack| - |t.params|..])
            && r.blocks[s.insert].code == s.blocks[s.insert].code + [Jump(|s.blocks|)]
  {
    hide Inv, Sealed, Consistent, AddAll, BlockCarries, PhisAre, NoEntries, PhiRegs, PhiBlock, LoopOp, Straight;
    InvParts(s);
    LoopForm(s, t);
    PhiBlockFacts(s.nextReg, t.params);
    PhiBlockFacts(s.nextReg + |t.params|, t.results);
    PhiBlockCode(s.nextReg, t.params);
    PhiBlockCode(s.nextReg + |t.params|, t.results);
    var g, body, phis, vs := LoopBlocks(s, t), |s.blocks|, PhiRegs(s.nextReg, |t.params|), s.stack[|s.stack| - |t.params|..];
    assert Grown(s.blocks, g);
    GrowKeeps(s.blocks, g);
    JumpSeals(g, s.insert, body, phis, vs);
  }

  lemma PhiBlockCode(first: nat, types: seq<ValueType>)
    ensures PhiBlock(first, types).code == []
    ensures forall x :: x in PhiBlock(first, types).phis ==> x < first + |types|
  {
  }

  lemma LoopKeeps(s: Emission, t: FuncType)
    requires Inv(s) && s.control != [] && Last(s.control).reachable && LoopOp(s, t).Some?
    ensures Advances(s, LoopOp(s, t).value)
  {
    hide Settled, Consistent, CodeOk, RegsOk, Straight, Closed, Extends, LoopOp, ContextsOk, PhisAre, NoEntries,
         Younger, Sealed, BlockCarries, AddAll, PhiBlock, Grown;
    var r, g := LoopOp(s, t).value, LoopBlocks(s, t);
    LoopForm(s, t);
    LoopGraph(s, t);
    InvParts(s);
    var c, target := Last(r.control), Last(r.targets);
    OldContexts(s, g, r.blocks, r.insert);
    SealedExtends(g, s.insert, r.blocks);
    PhiBlockFacts(s.nextReg, t.params);
    PhiBlockFacts(s.nextReg + |t.params|, t.results);
    PhiBlockCode(s.nextReg, t.params);
    PhiBlockCode(s.nextReg + |t.params|, t.results);
    SamePhisAre(g, r.blocks, s.insert, c.endBlock, c.endPhis);
    SamePhisAre(g, r.blocks, s.insert, target.block, target.phis);
    NewSettled(r.blocks, r.insert, c, target, |s.control|);
    PushContexts(s, r, c, target);
    EmptyStraight();
    PushCode(s, r, c);
    PrefixBelow(s.stack, s.nextReg, r.nextReg, |s.stack| - |t.params|);
    PushRegs(s, g, r, c);
  }

  lemma SamePhisAre(g: Graph, h: Graph, p: nat, b: nat, phis: seq<nat>)
    requires Mild(g, h, p) && b < |g| && PhisAre(g[b], phis)
    ensures PhisAre(h[b], phis)
  {
    assert h[b].phis.Keys == g[b].phis.Keys;
  }

  // ----- if -----

  function IfBlocks(s: Emission, t: FuncType): Graph {
    s.blocks + [BasicBlock(map[], []), BasicBlock(map[], []), PhiBlock(s.nextReg, t.results)]
  }

  lemma IfForm(s: Emission, t: FuncType)
    requires IfOp(s, t).Some?
    ensures |t.params| + 1 <= |s.stack| && s.insert < |s.blocks|
    ensures var b, n := |s.blocks|, |s.stack| - 1 - |t.params|;
            var phis, args, g := PhiRegs(s.nextReg, |t.results|), s.stack[n..|s.stack| - 1], IfBlocks(s, t);
            IfOp(s, t).value
            == Emission(g[s.insert := g[s.insert].(code := g[s.insert].code + [CondJump(Last(s.stack), b, b + 1)])], b,
                        s.nextReg + |t.results|, s.stack[..|s.stack| - 1],
                        s.control + [Context(IfThen, b + 2, phis, Some(b + 1), args, t.results, n, |s.targets|, true)],
                        s.targets + [BranchTarget(t.results, b + 2, phis)], s.skip)
  {
    PhiBlockFacts(s.nextReg, t.results);
    var empty := BasicBlock(map[], []);
    var b, n := |s.blocks|, |s.stack| - 1 - |t.params|;
    var g := s.blocks + [empty] + [empty] + [empty];
    assert g[b + 2 := PhiBlock(s.nextReg, t.results)] == IfBlocks(s, t);
    assert s.stack[..n] + s.stack[n..|s.stack| - 1] == s.stack[..|s.stack| - 1];
  }

  lemma IfGraph(s: Emission, t: FuncType)
    requires Inv(s) && s.control != [] && Last(s.control).reachable && IfOp(s, t).Some?
    ensures var r, g := IfOp(s, t).value, IfBlocks(s, t);
            && |t.params| + 1 <= |s.stack| && s.insert < |s.blocks|
            && Grown(s.blocks, g) && Sealed(g, s.insert, r.blocks)
            && r.blocks[s.insert].code == s.blocks[s.insert].code + [CondJump(Last(s.stack), |s.blocks|, |s.blocks| + 1)]
            && r.blocks[|s.blocks|] == r.blocks[|s.blocks| + 1] == BasicBlock(map[], [])
  {
    hide Inv, Sealed, Consistent, PhiRegs, PhiBlock, IfOp, Straight, NoEntries;
    InvParts(s);
    IfForm(s, t);
    PhiBlockFacts(s.nextReg, t.results);
    PhiBlockCode(s.nextReg, t.results);
    var g, b := IfBlocks(s, t), |s.blocks|;
    EmptyNoEntries();
    assert Grown(s.blocks, g);
    GrowKeeps(s.blocks, g);
    CondJumpSeals(g, s.insert, Last(s.stack), b, [], [], b + 1);
    assert g[b := AddAll(g[b], [], [], s.insert)] == g;
  }

  lemma EmptyNoEntries()
    ensures NoEntries(BasicBlock(map[], []))
  {
  }

  lemma IfKeeps(s: Emission, t: FuncType)
    requires Inv(s) && s.control != [] && Last(s.control).reachable && IfOp(s, t).Some?
    ensures Advances(s, IfOp(s, t).value)
  {
    hide Settled, Consistent, CodeOk, RegsOk, Straight, Closed, Extends, IfOp, ContextsOk, PhisAre, NoEntries,
         Younger, Sealed, PhiBlock, Grown;
    var r, g := IfOp(s, t).value, IfBlocks(s, t);
    IfForm(s, t);
    IfGraph(s, t);
    InvParts(s);
    var c, target := Last(r.control), Last(r.targets);
    OldContexts(s, g, r.blocks, r.insert);
    SealedExtends(g, s.insert, r.blocks);
    PhiBlockFacts(s.nextReg, t.results);
    PhiBlockCode(s.nextReg, t.results);
    SamePhisAre(g, r.blocks, s.insert, c.endBlock, c.endPhis);
    NewSettled(r.blocks, r.insert, c, target, |s.control|);
    PushContexts(s, r, c, target);
    EmptyStraight();
    PushCode(s, r, c);
    PrefixBelow(s.stack, s.nextReg, r.nextReg, |s.stack| - 1);
    PrefixBelow(s.stack[..|s.stack| - 1], s.nextReg, r.nextReg, |s.stack| - 1 - |t.params|);
    assert c.elseArgs == s.stack[..|s.stack| - 1][|s.stack| - 1 - |t.params|..];
    PushRegs(s, g, r, c);
  }

  // ----- else and end -----

  /** Falling through to the end of a context leaves the insert block closed. */
  lemma BranchToEndSeals(s: Emission)
    requires Inv(s) && s.control != [] && BranchToEnd(s).Some?
    ensures var top, r := Last(s.control), BranchToEnd(s).value;
            && Sealed(s.blocks, s.insert, r.blocks)
            && top.outer <= |s.stack| && s.insert < |s.blocks| && top.endBlock < |r.blocks|
            && r == s.(blocks := r.blocks, stack := s.stack[..top.outer])
            && (top.reachable ==>
                  && r.blocks[s.insert].code == s.blocks[s.insert].code + [Jump(top.endBlock)]
                  && |top.endPhis| == |s.stack| - top.outer
                  && BlockCarries(r.blocks[top.endBlock], s.insert, top.endPhis, s.stack[top.outer..]))
            && (!top.reachable ==> r == s)
  {
    hide Inv, Sealed, Consistent, AddAll, BlockCarries, PhisAre, Straight, Closed;
    InvParts(s);
    var top := Last(s.control);
    EndSettled(s, |s.control| - 1);
    if top.reachable {
      JumpSeals(s.blocks, s.insert, top.endBlock, top.endPhis, s.stack[top.outer..]);
    } else {
      SealedSelf(s.blocks, s.insert);
    }
  }

  lemma SealedSelf(g: Graph, p: nat)
    requires p < |g| && Consistent(g) && Closed(g[p].code)
    ensures Sealed(g, p, g)
  {
    MildSelf(g, p);
  }

  lemma ElseKeeps(s: Emission)
    requires Inv(s) && s.control != [] && ElseOp(s).Some?
    ensures Advances(s, ElseOp(s).value)
  {
    hide Settled, Consistent, Straight, Closed, Extends, PhisAre, Sealed, BlockCarries, BranchToEnd, Younger;
    var r, s1, n := ElseOp(s).value, BranchToEnd(s).value, |s.control| - 1;
    var top, e := Last(s.control), Last(s.control).elseBlock.value;
    BranchToEndSeals(s);
    SealedExtends(s.blocks, s.insert, s1.blocks);
    EndSettled(s, n);
    forall k | 0 <= k <= n ensures Settled(r.blocks, r.insert, r.control[k], r.targets[k], k) {
      ContextAt(s, k);
      EndSettled(s, k);
      if k < n {
        OlderBlocks(s, k, n);
        SettledKept(s.blocks, s1.blocks, s.insert, s.control[k], s.targets[k], k, e);
      } else {
        SettledKept(s.blocks, s1.blocks, s.insert, top, s.targets[n], n, s.insert);
        SwitchToElse(s1.blocks, s.insert, top, s.targets[n], n);
      }
    }
    forall j, k | 0 <= j < k < |r.control| ensures Younger(r.control[j], r.control[k], r.targets[k]) {
      assert Younger(s.control[j], s.control[k], s.targets[k]);
      if k == n { YoungerElse(s.control[j], top, s.targets[n]); }
    }
    ElseCode(s);
    GentleRegs(s.blocks, r.blocks, s.insert, s.nextReg);
    PrefixBelow(s.stack, s.nextReg, s.nextReg, top.outer);
  }

  lemma ElseCode(s: Emission)
    requires Inv(s) && s.control != [] && ElseOp(s).Some?
    ensures CodeOk(ElseOp(s).value)
  {
    hide Settled, Consistent, Straight, Closed, Extends, PhisAre, Sealed, BlockCarries, BranchToEnd, Younger;
    var r, s1, n := ElseOp(s).value, BranchToEnd(s).value, |s.control| - 1;
    BranchToEndSeals(s);
    SealedExtends(s.blocks, s.insert, s1.blocks);
    EndSettled(s, n);
    EmptyStraight();
    forall b | 0 <= b < |r.blocks| && b != r.insert && !IsPending(r.control, b) ensures Closed(r.blocks[b].code) {
      if b != s.insert {
        PendingElse(s.control, r.control, b);
      }
    }
  }

  /** The blocks of an outer context differ from those of an inner one. */
  lemma OlderBlocks(s: Emission, j: nat, k: nat)
    requires Inv(s) && j < k < |s.control|
    ensures var c, d := s.control[j], s.control[k];
            && c.endBlock < d.endBlock && s.targets[j].block <= c.endBlock
            && (c.elseBlock.Some? ==> c.elseBlock.value < c.endBlock)
            && (d.elseBlock.Some? ==> c.endBlock < d.elseBlock.value)
  {
    assert Settled(s.blocks, s.insert, s.control[j], s.targets[j], j);
    assert Younger(s.control[j], s.control[k], s.targets[k]);
  }

  lemma SwitchToElse(g: Graph, insert: nat, c: Context, t: BranchTarget, k: nat)
    requires Settled(g, insert, c, t, k) && c.kind == IfThen
    ensures Settled(g, c.elseBlock.value, c.(kind := IfElse, reachable := true, elseBlock := None), t, k)
    ensures c.elseBlock.value < |g| && g[c.elseBlock.value].code == []
  {
  }

  lemma YoungerElse(c: Context, d: Context, t: BranchTarget)
    requires Younger(c, d, t)
    ensures Younger(c, d.(kind := IfElse, reachable := true, elseBlock := None), t)
  {
  }

  lemma PendingElse(a: seq<Context>, b: seq<Context>, x: nat)
    requires a != [] && |a| == |b| && Front(a) == Front(b) && !IsPending(b, x)
    requires Last(a).endBlock == Last(b).endBlock && Last(a).elseBlock != Some(x)
    ensures !IsPending(a, x)
  {
    forall k | 0 <= k < |a| ensures a[k].endBlock != x && a[k].elseBlock != Some(x) {
      if k < |a| - 1 {
        assert Front(a)[k] == Front(b)[k];
        assert a[k] == b[k];
      } else {
        assert b[k].endBlock != x;
      }
    }
  }

  /** The absent else arm, if any, is closed by a jump that carries the arguments. */
  lemma DummyElseSeals(s: Emission, h: Graph)
    requires Inv(s) && s.control != [] && Sealed(s.blocks, s.insert, h)
    requires var top := Last(s.control);
             DummyElse(s.(blocks := h), top).Some?
    ensures var top := Last(s.control);
            var r := DummyElse(s.(blocks := h), top).value;
            && |r.blocks| == |h| && Consistent(r.blocks) && Extends(h, r.blocks)
            && (top.elseBlock.None? ==> r == s.(blocks := h))
            && (top.elseBlock.Some? ==>
                  && r == s.(blocks := r.blocks, insert := top.elseBlock.value)
                  && Sealed(h, top.elseBlock.value, r.blocks)
                  && top.endBlock < |h| && |top.elseArgs| == |top.endPhis|
                  && r.blocks[top.elseBlock.value].code == [Jump(top.endBlock)]
                  && BlockCarries(r.blocks[top.endBlock], top.elseBlock.value, top.endPhis, top.elseArgs))
  {
    hide Inv, Sealed, AddAll, BlockCarries, Extends, Straight, Closed, Consistent;
    var top, n := Last(s.control), |s.control| - 1;
    SealedExtends(s.blocks, s.insert, h);
    EndSettled(s, n);
    if top.elseBlock.Some? {
      var e := top.elseBlock.value;
      SamePhisAre(s.blocks, h, s.insert, top.endBlock, top.endPhis);
      EmptyStraight();
      JumpSeals(h, e, top.endBlock, top.endPhis, top.elseArgs);
      var r := DummyElse(s.(blocks := h), top).value;
      SealedExtends(h, e, r.blocks);
    } else {
      MildSelf(h, s.insert);
    }
  }

  /** The graph at an `end`, before empty PHIs are erased. */
  lemma EndParts(s: Emission)
    requires Inv(s) && s.control != [] && BranchToEnd(s).Some? && DummyElse(BranchToEnd(s).value, Last(s.control)).Some?
    ensures var top := Last(s.control);
            var s1, s2 := BranchToEnd(s).value, DummyElse(BranchToEnd(s).value, top).value;
            && Sealed(s.blocks, s.insert, s1.blocks) && Consistent(s2.blocks) && Extends(s1.blocks, s2.blocks)
            && |s2.blocks| == |s1.blocks| == |s.blocks|
            && (top.elseBlock.Some? ==> Sealed(s1.blocks, top.elseBlock.value, s2.blocks))
            && (top.elseBlock.None? ==> s2.blocks == s1.blocks)
            && top.outer <= |s.stack|
            && s2 == s.(blocks := s2.blocks, insert := s2.insert, stack := s.stack[..top.outer])
  {
    hide Inv, Sealed, Consistent, Extends, BranchToEnd, DummyElse, BlockCarries;
    BranchToEndSeals(s);
    var s1 := BranchToEnd(s).value;
    StackIndependent(s, s1);
    DummyElseSeals(s, s1.blocks);
    SealedExtends(s.blocks, s.insert, s1.blocks);
  }

  lemma EndGraph(s: Emission)
    requires Inv(s) && s.control != [] && EndOp(s).Some?
    ensures var top := Last(s.control);
            && BranchToEnd(s).Some? && DummyElse(BranchToEnd(s).value, top).Some?
            && var h, k := BranchToEnd(s).value.blocks, DummyElse(BranchToEnd(s).value, top).value.blocks;
            && Sealed(s.blocks, s.insert, h) && Consistent(k) && Extends(h, k) && |k| == |h| == |s.blocks|
            && (top.elseBlock.Some? ==> Sealed(h, top.elseBlock.value, k))
            && (top.elseBlock.None? ==> k == h)
            && top.outer <= |s.stack|
            && top.endBlock < |k| && |top.endPhis| == |top.results| && |s.control| - 1 <= |s.targets|
            && EndOp(s).value == s.(insert := top.endBlock,
                                    blocks := k[top.endBlock := EraseEmpty(k[top.endBlock], top.endPhis)],
                                    stack := s.stack[..top.outer] + EndValues(k[top.endBlock], top.endPhis, top.results),
                                    targets := s.targets[..|s.control| - 1], control := Front(s.control))
  {
    hide Inv, Sealed, Consistent, Extends, BranchToEnd, DummyElse, EraseEmpty, EndValues;
    InvParts(s);
    TargetsLevel(s);
    EndParts(s);
  }

  lemma TargetsLevel(s: Emission)
    requires Inv(s) && s.control != []
    ensures Last(s.control).outerTargets == |s.control| - 1
  {
    ContextAt(s, |s.control| - 1);
  }

  lemma StackIndependent(s: Emission, s1: Emission)
    requires s.control != [] && s1 == s.(blocks := s1.blocks, stack := s1.stack)
    ensures var top, a := Last(s.control), DummyElse(s1, Last(s.control));
            var b := DummyElse(s.(blocks := s1.blocks), top);
            && a.Some? == b.Some?
            && (a.Some? ==> a.value == b.value.(stack := s1.stack))
  {
  }

  /** The contexts that stay open are settled after `end` as they were before. */
  lemma EndSettles(s: Emission, j: nat)
    requires Inv(s) && s.control != [] && EndOp(s).Some? && j < |s.control| - 1
    ensures var r := EndOp(s).value;
            j < |r.control| && j < |r.targets| && Settled(r.blocks, r.insert, r.control[j], r.targets[j], j)
  {
    hide Settled, Consistent, Straight, Closed, Extends, PhisAre, Sealed, BranchToEnd, DummyElse, Younger, EndOp,
         EraseEmpty;
    EndGraph(s);
    var top, n, r := Last(s.control), |s.control| - 1, EndOp(s).value;
    var h, k := BranchToEnd(s).value.blocks, DummyElse(BranchToEnd(s).value, top).value.blocks;
    SealedExtends(s.blocks, s.insert, h);
    EndSettled(s, n);
    if top.elseBlock.Some? { SealedExtends(h, top.elseBlock.value, k); }
    EraseFacts(k, top.endBlock, top.endPhis);
    ContextAt(s, j);
    EndSettled(s, j);
    OlderBlocks(s, j, n);
    SettledKept(s.blocks, h, s.insert, s.control[j], s.targets[j], j, s.insert);
    if top.elseBlock.Some? {
      SettledMoved(h, k, top.elseBlock.value, s.insert, s.control[j], s.targets[j], j);
    }
    SettledElsewhere(k, r.blocks, s.insert, s.control[j], s.targets[j], j, top.endBlock);
  }

  lemma EndKeeps(s: Emission)
    requires Inv(s) && s.control != [] && EndOp(s).Some?
    ensures Advances(s, EndOp(s).value)
  {
    hide Settled, Consistent, Straight, Closed, Extends, PhisAre, Sealed, BranchToEnd, DummyElse, Younger, EndOp,
         EraseEmpty;
    EndGraph(s);
    var top, n, r := Last(s.control), |s.control| - 1, EndOp(s).value;
    var h, k := BranchToEnd(s).value.blocks, DummyElse(BranchToEnd(s).value, top).value.blocks;
    SealedExtends(s.blocks, s.insert, h);
    EndSettled(s, n);
    if top.elseBlock.Some? { SealedExtends(h, top.elseBlock.value, k); }
    EraseFacts(k, top.endBlock, top.endPhis);
    ExtendsTransitive(s.blocks, h, k);
    ExtendsTransitive(s.blocks, k, r.blocks);
    forall j | 0 <= j < n ensures Settled(r.blocks, r.insert, r.control[j], r.targets[j], j) {
      EndSettles(s, j);
    }
    assert ContextsOk(r) by {
      forall i, j | 0 <= i < j < |r.control| ensures Younger(r.control[i], r.control[j], r.targets[j]) {
        assert Younger(s.control[i], s.control[j], s.targets[j]);
      }
    }
    EndCode(s);
    EndRegs(s);
  }

  lemma SettledMoved(g: Graph, h: Graph, p: nat, insert: nat, c: Context, t: BranchTarget, k: nat)
    requires Settled(g, insert, c, t, k) && Gentle(g, h, p) && p != c.endBlock && c.elseBlock != Some(p)
    ensures Settled(h, insert, c, t, k)
  {
    assert h[c.endBlock].phis.Keys == g[c.endBlock].phis.Keys;
    assert h[t.block].phis.Keys == g[t.block].phis.Keys;
    if c.elseBlock.Some? {
      var e := c.elseBlock.value;
      assert h[e].phis.Keys == g[e].phis.Keys == {};
    }
  }

  lemma SettledElsewhere(g: Graph, h: Graph, insert: nat, c: Context, t: BranchTarget, k: nat, b: nat)
    requires Settled(g, insert, c, t, k) && b < |g| && |h| == |g| && h == g[b := h[b]]
    requires b != c.endBlock && c.elseBlock != Some(b) && b != t.block
    ensures Settled(h, b, c, t, k)
  {
  }

  lemma EraseFacts(g: Graph, b: nat, phis: seq<nat>)
    requires b < |g| && Consistent(g)
    ensures var h := g[b := EraseEmpty(g[b], phis)];
            && Consistent(h) && Extends(g, h) && h[b].code == g[b].code
            && forall r :: r in h[b].phis ==> r in g[b].phis
  {
    var h := g[b := EraseEmpty(g[b], phis)];
    EraseKeepsEdges(g, b, phis);
    assert forall c :: 0 <= c < |g| ==> Targets(h[c]) == Targets(g[c]);
  }

  lemma EndCode(s: Emission)
    requires Inv(s) && s.control != [] && EndOp(s).Some?
    ensures CodeOk(EndOp(s).value)
  {
    hide Consistent, Straight, Closed, Extends, PhisAre, Sealed, BranchToEnd, DummyElse, EndOp, EraseEmpty, EndValues;
    EndGraph(s);
    var top, n, r := Last(s.control), |s.control| - 1, EndOp(s).value;
    var h, k := BranchToEnd(s).value.blocks, DummyElse(BranchToEnd(s).value, top).value.blocks;
    SealedExtends(s.blocks, s.insert, h);
    EndSettled(s, n);
    if top.elseBlock.Some? { SealedExtends(h, top.elseBlock.value, k); }
    EraseFacts(k, top.endBlock, top.endPhis);
    assert Live(r) by {
      if n > 0 { assert s.control[n - 1].reachable; }
    }
    EmptyStraight();
    assert r.blocks[r.insert].code == [];
    forall b | 0 <= b < |r.blocks| && b != r.insert && !IsPending(r.control, b) ensures Closed(r.blocks[b].code) {
      if b != s.insert && top.elseBlock != Some(b) {
        PendingPopped(s.control, b);
        assert Closed(s.blocks[b].code);
      }
    }
  }

  lemma PendingPopped(control: seq<Context>, b: nat)
    requires control != [] && !IsPending(Front(control), b)
    requires Last(control).endBlock != b && Last(control).elseBlock != Some(b)
    ensures !IsPending(control, b)
  {
    forall k | 0 <= k < |control| ensures control[k].endBlock != b && control[k].elseBlock != Some(b) {
      if k < |control| - 1 {
        assert Front(control)[k] == control[k];
      }
    }
  }

  lemma EndRegs(s: Emission)
    requires Inv(s) && s.control != [] && EndOp(s).Some?
    ensures RegsOk(EndOp(s).value)
  {
    hide Consistent, Straight, Closed, Extends, PhisAre, Sealed, BranchToEnd, DummyElse, EndOp, EraseEmpty, ContextsOk,
         CodeOk;
    EndGraph(s);
    var top, n, r := Last(s.control), |s.control| - 1, EndOp(s).value;
    var h, k := BranchToEnd(s).value.blocks, DummyElse(BranchToEnd(s).value, top).value.blocks;
    SealedExtends(s.blocks, s.insert, h);
    GentleRegs(s.blocks, h, s.insert, s.nextReg);
    if top.elseBlock.Some? {
      SealedExtends(h, top.elseBlock.value, k);
      GentleRegs(h, k, top.elseBlock.value, s.nextReg);
    }
    EraseFacts(k, top.endBlock, top.endPhis);
    PrefixBelow(s.stack, s.nextReg, s.nextReg, top.outer);
    forall b, x | 0 <= b < |r.blocks| && x in r.blocks[b].phis ensures x < r.nextReg {
      assert x in k[b].phis;
    }
  }

  // ----- every operator -----

  lemma DropKeeps(s: Emission)
    requires Inv(s) && s.control != [] && Last(s.control).reachable && s.stack != []
    ensures Advances(s, s.(stack := Front(s.stack)))
  {
    hide Consistent, Closed, Straight, Settled, Younger, BlockExtends;
    PrefixBelow(s.stack, s.nextReg, s.nextReg, |s.stack| - 1);
    forall b | 0 <= b < |s.blocks| ensures BlockExtends(s.blocks[b], s.blocks[b]) {
      BlockExtendsSelf(s.blocks[b]);
    }
  }

  lemma SkipKeeps(s: Emission, skip: nat)
    requires Inv(s)
    ensures Advances(s, s.(skip := skip))
  {
    hide Consistent, Closed, Straight, Settled, Younger, BlockExtends;
    forall b | 0 <= b < |s.blocks| ensures BlockExtends(s.blocks[b], s.blocks[b]) {
      BlockExtendsSelf(s.blocks[b]);
    }
  }

  lemma ReachableKeeps(fn: FunctionDef, s: Emission, op: Op)
    requires WellFormed(fn) && WellFormedOp(fn, op) && Inv(s) && s.control != [] && Last(s.control).reachable
    requires ReachableStep(fn, s, op).Some?
    ensures Advances(s, ReachableStep(fn, s, op).value)
  {
    hide Inv, Advances, BlockOp, LoopOp, IfOp, ElseOp, EndOp, BrOp, BrIfOp, BrTableOp, ReturnOp, DefineRegs,
         EnterUnreachable, ResolveBlockType, ValidTuple;
    match op {
      case Block(bt) => BlockKeeps(s, ResolveBlockType(fn.mod, bt).value);
      case Loop(bt) => LoopKeeps(s, ResolveBlockType(fn.mod, bt).value);
      case If(bt) => IfKeeps(s, ResolveBlockType(fn.mod, bt).value);
      case Else => ElseKeeps(s);
      case End => EndKeeps(s);
      case Br(depth) => BrKeeps(s, depth);
      case BrIf(depth) => BrIfKeeps(s, depth);
      case BrTable(table, default) => BrTableKeeps(s, fn.branchTables[table], default);
      case Return => ReturnKeeps(s, Signature(fn).results);
      case Unreachable => UnreachableKeeps(s);
      case Drop => DropKeeps(s);
      case Select(_) =>
        var n := |s.stack|;
        DefineKeeps(s, Choose(s.nextReg, s.stack[n - 1], s.stack[n - 3], s.stack[n - 2]), 3, 1);
      case LocalGet(i) => DefineKeeps(s, Load(s.nextReg, i), 0, 1);
      case LocalSet(i) => DefineKeeps(s, Store(i, Last(s.stack)), 1, 0);
      case LocalTee(i) => DefineKeeps(s, Store(i, Last(s.stack)), 0, 0);
      case Plain(id, sig, _) =>
        DefineKeeps(s, Compute(s.nextReg, |sig.results|, id, s.stack[|s.stack| - |sig.params|..]),
                    |sig.params|, |sig.results|);
    }
  }

  /** Every step of the emitter keeps the invariant and extends the graph. */
  lemma StepKeeps(fn: FunctionDef, s: Emission, op: Op)
    requires WellFormed(fn) && WellFormedOp(fn, op) && Inv(s) && Emitter.Step(fn, s, op).Some?
    ensures Advances(s, Emitter.Step(fn, s, op).value)
  {
    hide Inv, Advances, ReachableStep, ElseOp, EndOp, WellFormed;
    if Last(s.control).reachable {
      ReachableKeeps(fn, s, op);
    } else if s.skip == 0 && op.Else? {
      ElseKeeps(s);
    } else if s.skip == 0 && op.End? {
      EndKeeps(s);
    } else {
      SkipKeeps(s, Emitter.Step(fn, s, op).value.skip);
    }
  }
}