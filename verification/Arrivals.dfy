/** Where control arrives in the emitted graph: the emitter's state at the points a branch,
    an `else` or an `end` can reach, and the values the PHIs take on the way. */
module Arrivals {
  import opened IR
  import opened Wrappers
  import opened ValidatorFacts
  import opened ValidatorRuns
  import V = Validator
  import M = StackMachine
  import opened Cfg
  import opened Emitter
  import opened GraphFacts
  import opened EmitterFacts
  import opened EmitterFrames
  import opened EmitterRuns
  import opened Lockstep
  import Soundness

  // ----- the emitter while a construct is open -----

  /** The emitter emits code for operator `n`. */
  ghost predicate EmitsAt(fn: FunctionDef, n: nat)
    requires Accepted(fn) && n <= |fn.code|
  {
    var s := Emitted(fn, n);
    s.control != [] && Last(s.control).reachable
  }

  lemma EmitsLevel(fn: FunctionDef, n: nat)
    requires Accepted(fn) && n <= |fn.code| && EmitsAt(fn, n)
    ensures var s := Emitted(fn, n);
            && s.skip == 0 && |s.control| == Depth(fn, n) == |s.targets|
            && |s.stack| == |ValidatorRuns.At(fn, n).stack|
            && Last(s.control).outer == Last(ValidatorRuns.At(fn, n).control).outer
            && Last(s.control).outer <= |s.stack|
  {
    hide Inv, V.Step, Emitter.After;
    EmittedOk(fn, n);
    LockedTop(ValidatorRuns.At(fn, n), Emitted(fn, n));
  }

  /** Where the validator finds every context reachable, the emitter emits code. */
  lemma ReachableEmits(fn: FunctionDef, n: nat)
    requires Accepted(fn) && n < |fn.code| && Soundness.AllReachable(ValidatorRuns.At(fn, n))
    ensures EmitsAt(fn, n)
  {
    hide Inv, V.Step, Shaped;
    NeverEmptied(fn, n);
    EmittedOk(fn, n);
    var s, v := Emitted(fn, n), ValidatorRuns.At(fn, n);
    var k := |s.control| - 1;
    assert Mirrors(v.control[k], s.control[k], s.targets[k], k, |s.blocks|);
  }

  /** The emitter drops a context only together with the validator. */
  lemma ControlShrinks(fn: FunctionDef, v: V.State, s: Emission, op: Op, r: Emission)
    requires WellFormed(fn) && WellFormedOp(fn, op) && Locked(v, s) && Inv(s) && Emitter.Step(fn, s, op) == Some(r)
    ensures |r.control| >= |s.control| || r.skip == 0
  {
    hide BrTableOp, AddAll, ContextsMirror, EndValues, EraseEmpty, ValidTuple, Inv, Sealed, TargetsCarry;
    if op.BrTable? && Last(s.control).reachable {
      BrTableGraph(s, fn.branchTables[op.table], op.default);
    }
  }

  /** From the opening of a construct in emitted code to its end, its context, its target, the
      contexts around it and the operands below it stay as they were created. */
  lemma {:induction false} EmissionAcross(fn: FunctionDef, o: nat, p: nat)
    requires Accepted(fn) && o < p <= |fn.code| && fn.code[o].Opens() && EmitsAt(fn, o) && OpenThrough(fn, o, p)
    ensures var d, s, t, r := Depth(fn, o), Emitted(fn, o), Emitted(fn, o + 1), Emitted(fn, p);
            && |s.control| == d && |s.targets| == d && |t.control| > d && |t.targets| > d
            && |r.control| > d && |r.targets| == |r.control|
            && r.control[..d] == s.control && r.targets[..d] == s.targets
            && SameContext(t.control[d], r.control[d]) && r.targets[d] == t.targets[d]
            && t.control[d].outer <= |s.stack| && t.control[d].outer <= |r.stack|
            && r.stack[..t.control[d].outer] == s.stack[..t.control[d].outer]
    decreases p
  {
    hide V.Step, Emitter.Step, Inv, Advances, Locked, Shaped;
    EmitsLevel(fn, o);
    var d, s, t, r := Depth(fn, o), Emitted(fn, o), Emitted(fn, o + 1), Emitted(fn, p);
    if p == o + 1 {
      EmittedStep(fn, o);
      OpenerEmission(fn, o);
      assert r.control[..d] == s.control;
      assert r.targets[..d] == s.targets;
    } else {
      EmissionAcross(fn, o, p - 1);
      EmittedStep(fn, p - 1);
      var u := Emitted(fn, p - 1);
      LevelKept(fn, p - 1, d);
      assert Depth(fn, p) > d;
      assert r.control[..d] == u.control[..d];
      assert r.targets[..d] == u.targets[..d];
      assert SameContext(u.control[d], r.control[d]);
    }
  }

  lemma LevelKept(fn: FunctionDef, n: nat, d: nat)
    requires Accepted(fn) && n < |fn.code| && |Emitted(fn, n).control| > d && Depth(fn, n + 1) > d
    ensures |Emitted(fn, n + 1).control| > d
  {
    hide V.Step, Emitter.Step, Inv, Advances, FramedFrom, OutersOk, Shaped;
    EmittedStep(fn, n);
    EmittedOk(fn, n);
    EmittedLevel(fn, n + 1);
    RunStart(fn);
    ControlShrinks(fn, ValidatorRuns.At(fn, n), Emitted(fn, n), fn.code[n], Emitted(fn, n + 1));
  }

  /** What an emitted opener pushes. */
  lemma OpenerEmission(fn: FunctionDef, o: nat)
    requires Accepted(fn) && o < |fn.code| && fn.code[o].Opens() && EmitsAt(fn, o)
    ensures ResolveBlockType(fn.mod, fn.code[o].bt).Some?
    ensures var s, r, t := Emitted(fn, o), Emitted(fn, o + 1), ResolveBlockType(fn.mod, fn.code[o].bt).value;
            var n := |s.stack| - |t.params| - (if fn.code[o].If? then 1 else 0);
            && n >= 0 && |r.control| == |s.control| + 1 && |r.targets| == |s.targets| + 1
            && Front(r.control) == s.control && Front(r.targets) == s.targets
            && Last(r.control).outer == n && Last(r.control).results == t.results
            && Last(r.control).reachable
            && (if fn.code[o].Block? then BlockOp(s, t) else if fn.code[o].Loop? then LoopOp(s, t) else IfOp(s, t)) == Some(r)
            && r.stack[..n] == s.stack[..n]
  {
    hide V.Step, Inv, Advances, FramedFrom, Locked, BlockOp, LoopOp, IfOp, OutersOk, AddAll, ResolveBlockType;
    EmittedStep(fn, o);
    var s, op := Emitted(fn, o), fn.code[o];
    OpenedContext(fn, o);
    EmittedLevel(fn, o);
    var t := ResolveBlockType(fn.mod, op.bt).value;
    OpenerDispatch(fn, s, op);
    match op {
      case Block(_) => BlockForm(s, t);
      case Loop(_) => LoopForm(s, t);
      case If(_) => IfForm(s, t);
    }
  }

  lemma OpenerDispatch(fn: FunctionDef, s: Emission, op: Op)
    requires WellFormed(fn) && WellFormedOp(fn, op) && op.Opens() && s.control != [] && Last(s.control).reachable
    requires ResolveBlockType(fn.mod, op.bt).Some?
    ensures var t := ResolveBlockType(fn.mod, op.bt).value;
            Emitter.Step(fn, s, op)
            == if op.Block? then BlockOp(s, t) else if op.Loop? then LoopOp(s, t) else IfOp(s, t)
  {
  }

  // ----- values delivered along an edge -----

  /** On the edge from `p` to `t`, the PHIs of `t` are exactly those listed and read `vs`. */
  ghost predicate Delivered(g: Graph, t: nat, p: nat, phis: seq<nat>, vs: seq<Operand>) {
    && t < |g| && |phis| == |vs| && Distinct(phis)
    && (forall r :: r in g[t].phis ==> r in phis)
    && forall i :: 0 <= i < |phis| ==>
         phis[i] in g[t].phis && LookUp(g[t].phis[phis[i]].incoming, p) == Some(vs[i])
  }

  /** A value fed with its edge is delivered in every later graph. */
  lemma KeptDelivery(g: Graph, h: Graph, t: nat, p: nat, phis: seq<nat>, vs: seq<Operand>)
    requires Consistent(g) && Extends(g, h) && p < |g| && t < |g| && t in Targets(g[p])
    requires |phis| == |vs| && PhisAre(g[t], phis) && BlockCarries(g[t], p, phis, vs)
    ensures Delivered(h, t, p, phis, vs)
  {
    hide BlockCarries, EdgesAgree, Coherent, TargetsInRange;
    CarriedValues(g, p, t, phis, vs);
    assert BlockExtends(g[t], h[t]);
    forall i | 0 <= i < |phis|
      ensures phis[i] in h[t].phis && LookUp(h[t].phis[phis[i]].incoming, p) == Some(vs[i])
    {
      var x := g[t].phis[phis[i]].incoming;
      assert LookUp(x, p) == Some(vs[i]);
      assert x != [];
      LookUpKept(x, h[t].phis[phis[i]].incoming, p);
    }
  }

  /** `env'` is `env` with the PHI registers set to `vals`. */
  ghost predicate EnvSet(env: map<nat, M.Value>, phis: seq<nat>, vals: seq<M.Value>, env': map<nat, M.Value>) {
    && |phis| == |vals|
    && (forall i :: 0 <= i < |phis| ==> phis[i] in env' && env'[phis[i]] == vals[i])
    && forall r :: r in env && r !in phis ==> r in env' && env'[r] == env[r]
  }

  /** Operands `vs` evaluate to `vals`. */
  ghost predicate Evaluates(env: map<nat, M.Value>, args: seq<M.Value>, vs: seq<Operand>, vals: seq<M.Value>) {
    |vs| == |vals| && forall i :: 0 <= i < |vs| ==> Eval(env, args, vs[i]) == Some(vals[i])
  }

  lemma TakeEdge(g: Graph, args: seq<M.Value>, m: Cfg.State, t: nat, phis: seq<nat>, vs: seq<Operand>,
      vals: seq<M.Value>)
    requires m.At? && Delivered(g, t, m.block, phis, vs) && Evaluates(m.env, args, vs, vals)
    ensures var n := Edge(g, args, m, t);
            n.At? && n == m.(block := t, index := 0, env := n.env) && EnvSet(m.env, phis, vals, n.env)
  {
    var here := g[t].phis;
    forall r | r in here
      ensures exists i :: 0 <= i < |phis| && phis[i] == r && PhiValue(here[r], m.env, args, m.block) == Some(vals[i])
    {
      var i :| 0 <= i < |phis| && phis[i] == r;
      assert PhiValue(here[r], m.env, args, m.block) == Some(vals[i]);
    }
    var n := Edge(g, args, m, t);
    forall i | 0 <= i < |phis| ensures phis[i] in n.env && n.env[phis[i]] == vals[i] {
      assert PhiValue(here[phis[i]], m.env, args, m.block) == Some(vals[i]);
    }
  }

  /** Operands that do not use the set registers evaluate as before; the set ones to `vals`. */
  lemma EvaluateAfterSet(env: map<nat, M.Value>, args: seq<M.Value>, vs: seq<Operand>, us: seq<M.Value>,
                         first: nat, phis: seq<nat>, vals: seq<M.Value>, env': map<nat, M.Value>)
    requires Evaluates(env, args, vs, us) && OperandsBelow(vs, first) && EnvSet(env, phis, vals, env')
    requires forall i :: 0 <= i < |phis| ==> first <= phis[i]
    ensures Evaluates(env', args, vs + AsOperands(phis), us + vals)
  {
    var xs, ys := vs + AsOperands(phis), us + vals;
    forall i | 0 <= i < |xs| ensures Eval(env', args, xs[i]) == Some(ys[i]) {
      if i < |vs| {
        assert Eval(env, args, vs[i]) == Some(us[i]);
        if vs[i].Reg? {
          assert vs[i].r !in phis;
        }
      } else {
        assert xs[i] == Reg(phis[i - |vs|]);
      }
    }
  }

  // ----- arriving behind an end -----

  /** The graph at the `end` of the construct opened at `o`, before empty PHIs are erased. */
  ghost function JoinGraph(fn: FunctionDef, e: nat): Graph
    requires Accepted(fn) && e < |fn.code|
  {
    var s := Emitted(fn, e);
    if s.control == [] || BranchToEnd(s).None? then []
    else
      var r := DummyElse(BranchToEnd(s).value, Last(s.control));
      if r.None? then [] else r.value.blocks
  }

  lemma {:induction false} AllRegs(bb: BasicBlock, phis: seq<nat>, types: seq<ValueType>)
    requires |phis| == |types|
    requires forall i :: 0 <= i < |phis| ==> phis[i] in bb.phis && bb.phis[phis[i]].incoming != []
    ensures EndValues(bb, phis, types) == AsOperands(phis)
  {
  }

  lemma DeliveredRegs(g: Graph, t: nat, p: nat, phis: seq<nat>, vs: seq<Operand>, types: seq<ValueType>)
    requires Delivered(g, t, p, phis, vs) && |phis| == |types|
    ensures EndValues(g[t], phis, types) == AsOperands(phis)
  {
    forall i | 0 <= i < |phis| ensures phis[i] in g[t].phis && g[t].phis[phis[i]].incoming != [] {
      assert LookUp(g[t].phis[phis[i]].incoming, p) == Some(vs[i]);
    }
    AllRegs(g[t], phis, types);
  }

  /** At an `end` the emitter acts on the context that is being closed. */
  lemma EndEmission(fn: FunctionDef, e: nat)
    requires Accepted(fn) && e < |fn.code| && fn.code[e].End? && Emitted(fn, e).skip == 0
    ensures var s, r, k := Emitted(fn, e), Emitted(fn, e + 1), JoinGraph(fn, e);
            && s.control != [] && EndOp(s) == Some(r)
            && var top := Last(s.control);
            && top.outer <= |s.stack| && top.endBlock < |k| && |top.endPhis| == |top.results|
            && r.insert == top.endBlock && r.control == Front(s.control) && top.endBlock < |r.blocks|
            && r.blocks[top.endBlock].code == []
            && r.stack == s.stack[..top.outer] + EndValues(k[top.endBlock], top.endPhis, top.results)
            && Extends(s.blocks, k) && Extends(k, r.blocks) && Consistent(k)
            && BranchToEnd(s).Some? && Extends(BranchToEnd(s).value.blocks, k)
  {
    hide V.Step, Inv, Advances, FramedFrom, Locked, OutersOk, Sealed, Consistent, Extends, BranchToEnd, DummyElse,
         EraseEmpty, EndOp, EndValues, PhisAre;
    NeverEmptied(fn, e);
    EmittedStep(fn, e);
    var s, r := Emitted(fn, e), Emitted(fn, e + 1);
    EmittedOk(fn, e);
    EndDispatch(fn, s);
    EndGraph(s);
    EndSettled(s, |s.control| - 1);
    var top, k, h := Last(s.control), JoinGraph(fn, e), BranchToEnd(s).value.blocks;
    SealedExtends(s.blocks, s.insert, h);
    ExtendsTransitive(s.blocks, h, k);
    EraseFacts(k, top.endBlock, top.endPhis);
    if top.elseBlock.Some? { SealedExtends(h, top.elseBlock.value, k); }
  }

  lemma EndDispatch(fn: FunctionDef, s: Emission)
    requires WellFormed(fn) && s.control != [] && s.skip == 0
    ensures Emitter.Step(fn, s, End) == EndOp(s)
  {
  }

  // ----- jumps in the finished graph -----

  ghost function Final(fn: FunctionDef): Graph
    requires Accepted(fn)
  {
    EmitSucceeds(fn);
    Emit(fn).value
  }

  lemma FinalExtends(fn: FunctionDef, n: nat)
    requires Accepted(fn) && n <= |fn.code|
    ensures Extends(Emitted(fn, n).blocks, Final(fn))
  {
    hide Emit, Inv, Locked, Extends, WellFormedGraph;
    EmittedGraph(fn);
    EmittedExtends(fn, n, |fn.code|);
    ExtendsTransitive(Emitted(fn, n).blocks, Emitted(fn, |fn.code|).blocks, Final(fn));
  }

  /** The registers of a construct's PHIs are created when it is opened. */
  lemma OpenerRegs(fn: FunctionDef, o: nat)
    requires Accepted(fn) && o < |fn.code| && fn.code[o].Opens() && EmitsAt(fn, o)
    ensures var s, r := Emitted(fn, o), Emitted(fn, o + 1);
            && r.control != [] && r.targets != []
            && (forall i :: 0 <= i < |Last(r.control).endPhis| ==> s.nextReg <= Last(r.control).endPhis[i])
            && (forall i :: 0 <= i < |Last(r.targets).phis| ==> s.nextReg <= Last(r.targets).phis[i])
  {
    hide V.Step, Inv, Locked, BlockOp, LoopOp, IfOp, AddAll, ResolveBlockType;
    OpenerEmission(fn, o);
    var s, t := Emitted(fn, o), ResolveBlockType(fn.mod, fn.code[o].bt).value;
    match fn.code[o] {
      case Block(_) => BlockForm(s, t);
      case Loop(_) => LoopForm(s, t);
      case If(_) => IfForm(s, t);
    }
  }

  /** At the `end` of an emitted construct, its context is the innermost one of the emitter. */
  lemma EndOfConstruct(fn: FunctionDef, o: nat)
    requires Accepted(fn) && o < |fn.code| && fn.code[o].Opens() && EmitsAt(fn, o)
    ensures var e, s, t := MatchingEnd(fn, o), Emitted(fn, o), Emitted(fn, o + 1);
            var r := Emitted(fn, e);
            && t.control != [] && r.skip == 0 && r.control != [] && Front(r.control) == s.control
            && SameContext(Last(t.control), Last(r.control))
            && Last(t.control).outer <= |s.stack| && Last(t.control).outer <= |r.stack|
            && r.stack[..Last(t.control).outer] == s.stack[..Last(t.control).outer]
  {
    hide V.Step, Inv, Shaped, SameContext, BlockOp, LoopOp, IfOp, IsEmission, IsRun;
    var e, d := MatchingEnd(fn, o), Depth(fn, o);
    EmissionAcross(fn, o, e);
    OpenerEmission(fn, o);
    EmitsLevel(fn, o);
    var r := Emitted(fn, e);
    EmittedLevel(fn, e);
    assert Front(r.control) == r.control[..d];
  }

  /** A jump to the end block of the construct opened at `o` arrives behind its `end`, with the
      construct's results in the PHIs and the operands below it unchanged. */
  lemma JumpToEnd(fn: FunctionDef, args: seq<M.Value>, m: Cfg.State, o: nat, g: Graph,
                  vs: seq<Operand>, vals: seq<M.Value>, lower: seq<M.Value>)
    requires Accepted(fn) && o < |fn.code| && fn.code[o].Opens() && EmitsAt(fn, o) && m.At?
    requires Consistent(g) && Extends(g, JoinGraph(fn, MatchingEnd(fn, o)))
    requires Emitted(fn, o + 1).control != []
    requires var c := Last(Emitted(fn, o + 1).control);
             && m.block < |g| && c.endBlock < |g| && c.endBlock in Targets(g[m.block])
             && |c.endPhis| == |vs| && PhisAre(g[c.endBlock], c.endPhis)
             && BlockCarries(g[c.endBlock], m.block, c.endPhis, vs)
             && Evaluates(m.env, args, vs, vals)
             && c.outer <= |Emitted(fn, o).stack|
             && Evaluates(m.env, args, Emitted(fn, o).stack[..c.outer], lower)
    ensures var c, r := Last(Emitted(fn, o + 1).control), Emitted(fn, MatchingEnd(fn, o) + 1);
            var n := Edge(Final(fn), args, m, c.endBlock);
            && n.At? && n == m.(block := r.insert, index := 0, env := n.env)
            && r.insert < |r.blocks| && r.blocks[r.insert].code == []
            && Evaluates(n.env, args, r.stack, lower + vals)
  {
    hide V.Step, Emitter.After, Inv, Shaped, Consistent, Extends, PhisAre, BlockCarries, Targets, Locked, EndValues,
         Evaluates,
         Delivered, JoinGraph, EnvSet, Edge, OperandsBelow;
    var e, s, t := MatchingEnd(fn, o), Emitted(fn, o), Emitted(fn, o + 1);
    var c, r, k := Last(t.control), Emitted(fn, e + 1), JoinGraph(fn, e);
    EndOfConstruct(fn, o);
    EndEmission(fn, e);
    FinalExtends(fn, e + 1);
    ExtendsTransitive(g, k, r.blocks);
    ExtendsTransitive(g, r.blocks, Final(fn));
    KeptDelivery(g, k, c.endBlock, m.block, c.endPhis, vs);
    DeliveredRegs(k, c.endBlock, m.block, c.endPhis, vs, c.results);
    KeptDelivery(g, Final(fn), c.endBlock, m.block, c.endPhis, vs);
    TakeEdge(Final(fn), args, m, c.endBlock, c.endPhis, vs, vals);
    OpenerRegs(fn, o);
    EmittedOk(fn, o);
    InvParts(s);
    PrefixBelow(s.stack, s.nextReg, s.nextReg, c.outer);
    EvaluateAfterSet(m.env, args, s.stack[..c.outer], lower, s.nextReg, c.endPhis, vals,
                     Edge(Final(fn), args, m, c.endBlock).env);
  }

  /** A jump to the body of the loop opened at `o` arrives at its first operator. */
  lemma JumpToLoop(fn: FunctionDef, args: seq<M.Value>, m: Cfg.State, o: nat, n: nat,
                   vs: seq<Operand>, vals: seq<M.Value>, lower: seq<M.Value>)
    requires Accepted(fn) && o < n <= |fn.code| && fn.code[o].Loop? && EmitsAt(fn, o) && m.At?
    requires Emitted(fn, o + 1).targets != [] && Emitted(fn, o + 1).control != []
    requires var t, c, g := Last(Emitted(fn, o + 1).targets), Last(Emitted(fn, o + 1).control), Emitted(fn, n).blocks;
             && m.block < |g| && t.block < |g| && t.block in Targets(g[m.block])
             && |t.phis| == |vs| && PhisAre(g[t.block], t.phis)
             && BlockCarries(g[t.block], m.block, t.phis, vs)
             && Evaluates(m.env, args, vs, vals)
             && c.outer <= |Emitted(fn, o).stack|
             && Evaluates(m.env, args, Emitted(fn, o).stack[..c.outer], lower)
    ensures var t, r := Last(Emitted(fn, o + 1).targets), Emitted(fn, o + 1);
            var n := Edge(Final(fn), args, m, t.block);
            && n.At? && n == m.(block := r.insert, index := 0, env := n.env)
            && r.insert < |r.blocks| && r.blocks[r.insert].code == []
            && Evaluates(n.env, args, r.stack, lower + vals)
  {
    hide V.Step, Emitter.After, Inv, Shaped, Consistent, Extends, PhisAre, BlockCarries, Targets, Locked, Evaluates,
         Delivered, EnvSet, Edge, OperandsBelow, LoopOp, ResolveBlockType, AddAll, Sealed, Grown, LoopBlocks;
    var s, r, g := Emitted(fn, o), Emitted(fn, o + 1), Emitted(fn, n).blocks;
    var t, c := Last(r.targets), Last(r.control);
    OpenerEmission(fn, o);
    var ty := ResolveBlockType(fn.mod, fn.code[o].bt).value;
    LoopForm(s, ty);
    EmittedOk(fn, o);
    LoopBodyEmpty(s, ty);
    FinalExtends(fn, n);
    EmittedOk(fn, n);
    InvParts(Emitted(fn, n));
    KeptDelivery(g, Final(fn), t.block, m.block, t.phis, vs);
    TakeEdge(Final(fn), args, m, t.block, t.phis, vs, vals);
    OpenerRegs(fn, o);
    EmittedOk(fn, o);
    InvParts(s);
    PrefixBelow(s.stack, s.nextReg, s.nextReg, c.outer);
    EvaluateAfterSet(m.env, args, s.stack[..c.outer], lower, s.nextReg, t.phis, vals,
                     Edge(Final(fn), args, m, t.block).env);
  }

  lemma LoopBodyEmpty(s: Emission, t: FuncType)
    requires Inv(s) && s.control != [] && Last(s.control).reachable && LoopOp(s, t).Some?
    ensures var r := LoopOp(s, t).value;
            r.insert == |s.blocks| < |r.blocks| && r.blocks[r.insert].code == []
  {
    hide Inv, Sealed, Grown, AddAll, BlockCarries, PhiBlock, Consistent;
    InvParts(s);
    LoopForm(s, t);
    LoopGraph(s, t);
    SealedExtends(LoopBlocks(s, t), s.insert, LoopOp(s, t).value.blocks);
    PhiBlockCode(s.nextReg, t.params);
  }
}
