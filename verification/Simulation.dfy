/** The simulation relation between the reference machine and the emitted graph, and the
    steps of the graph that answer each step of the machine. */
module Simulation {
  import opened IR
  import opened Wrappers
  import opened ValidatorFacts
  import opened ValidatorRuns
  import V = Validator
  import M = StackMachine
  import opened Cfg
  import opened Emitter
  import opened GraphFacts
  import opened EmitterFacts
  import opened EmitterFrames
  import opened EmitterRuns
  import opened Arrivals
  import opened Lockstep
  import S = Soundness

  ghost predicate LocalsMatch(locals: seq<M.Value>, slots: map<nat, M.Value>) {
    forall i :: 0 <= i < |locals| ==> i in slots && slots[i] == locals[i]
  }

  /** The graph is about to run the code emitted for the machine's next operator, and the
      emitter's operand stack evaluates to the machine's. */
  ghost predicate Matches(fn: FunctionDef, args: seq<M.Value>, c: M.Config, m: Cfg.State)
    requires Accepted(fn)
  {
    && c.Run? && m.At? && c.pc < |fn.code|
    && var s := Emitted(fn, c.pc);
    && s.insert < |s.blocks| && m.block == s.insert && m.index == |s.blocks[s.insert].code|
    && Evaluates(m.env, args, s.stack, c.stack)
    && LocalsMatch(c.locals, m.locals)
    && m.world == c.world
  }

  ghost predicate Related(fn: FunctionDef, args: seq<M.Value>, c: M.Config, m: Cfg.State)
    requires Accepted(fn)
  {
    match c
    case Run(_, _, _, _, _) => Matches(fn, args, c, m)
    case Done(results, w) => m == Returned(results, w)
    case Trapped(w) => m == Trap(w)
    case Stuck => false
  }

  // ----- executing emitted instructions -----

  /** The instruction emitted last at state `n` is executed by the finished graph. */
  lemma RunsInstruction(fn: FunctionDef, prim: M.Primitives, args: seq<M.Value>, m: Cfg.State, g: Graph, i: Instr)
    requires Accepted(fn) && m.At? && Extends(g, Final(fn)) && m.block < |g|
    requires m.index < |g[m.block].code| && g[m.block].code[m.index] == i
    ensures Cfg.Step(Final(fn), prim, args, m) == Execute(Final(fn), prim, args, m, i)
  {
    hide Final, Execute;
    assert BlockExtends(g[m.block], Final(fn)[m.block]);
  }

  lemma OneStep(g: Graph, prim: M.Primitives, args: seq<M.Value>, m: Cfg.State)
    ensures Cfg.Steps(g, prim, args, m, 1) == Cfg.Step(g, prim, args, m)
    ensures Cfg.Steps(g, prim, args, m, 2) == Cfg.Step(g, prim, args, Cfg.Step(g, prim, args, m))
  {
    assert Cfg.Steps(g, prim, args, m, 0) == m;
    assert Cfg.Steps(g, prim, args, m, 1) == Cfg.Step(g, prim, args, Cfg.Steps(g, prim, args, m, 0));
  }

  /** Top and bottom parts of an evaluated stack. */
  lemma SplitEvaluates(env: map<nat, M.Value>, args: seq<M.Value>, vs: seq<Operand>, us: seq<M.Value>, k: nat)
    requires Evaluates(env, args, vs, us) && k <= |vs|
    ensures |us| == |vs| && Evaluates(env, args, vs[..k], us[..k]) && Evaluates(env, args, vs[k..], us[k..])
  {
  }

  lemma EvaluatesLength(env: map<nat, M.Value>, args: seq<M.Value>, vs: seq<Operand>, us: seq<M.Value>)
    requires Evaluates(env, args, vs, us)
    ensures |vs| == |us|
  {
  }

  lemma EvaluatesAt(env: map<nat, M.Value>, args: seq<M.Value>, vs: seq<Operand>, us: seq<M.Value>, i: nat)
    requires Evaluates(env, args, vs, us) && i < |vs|
    ensures |us| == |vs| && Eval(env, args, vs[i]) == Some(us[i])
  {
  }

  // ----- returning -----

  /** The graph at the final `end`, and the return that follows it. */
  lemma RootEnd(fn: FunctionDef)
    requires Accepted(fn) && fn.code != []
    ensures var k, results := JoinGraph(fn, |fn.code| - 1), Signature(fn).results;
            && RETURN < |k| && RETURN < |Final(fn)| && Extends(k, Final(fn))
            && Final(fn)[RETURN].code == [Ret(EndValues(k[RETURN], PhiRegs(0, |results|), results))]
  {
    hide IsEmission, IsRun, V.Step, Emitter.Step, Inv, Shaped, Consistent, Extends, PhisAre, Locked, EndValues,
         JoinGraph, Final, EndOp, BranchToEnd;
    var n := |fn.code| - 1;
    LastOperator(fn);
    LastLevel(fn);
    RootEmission(fn, n);
    EndEmission(fn, n);
    FinalExtends(fn, n + 1);
    ExtendsTransitive(JoinGraph(fn, n), Emitted(fn, n + 1).blocks, Final(fn));
    ReturnCode(fn);
    var values := EndValues(JoinGraph(fn, n)[RETURN], PhiRegs(0, |Signature(fn).results|), Signature(fn).results);
    assert Emitted(fn, n).stack[..0] + values == values;
  }

  /** A jump to the return block, then the return, ends with the values carried. */
  lemma JumpToReturn(fn: FunctionDef, prim: M.Primitives, args: seq<M.Value>, m: Cfg.State, g: Graph,
                     vs: seq<Operand>, vals: seq<M.Value>)
    requires Accepted(fn) && m.At? && fn.code != []
    requires Consistent(g) && Extends(g, JoinGraph(fn, |fn.code| - 1))
    requires var phis := PhiRegs(0, |Signature(fn).results|);
             && m.block < |g| && RETURN < |g| && RETURN in Targets(g[m.block])
             && |phis| == |vs| && PhisAre(g[RETURN], phis) && BlockCarries(g[RETURN], m.block, phis, vs)
             && Evaluates(m.env, args, vs, vals)
    ensures Cfg.Step(Final(fn), prim, args, Edge(Final(fn), args, m, RETURN)) == Returned(vals, m.world)
  {
    hide IsEmission, IsRun, Consistent, Extends, PhisAre, BlockCarries, Targets, EndValues, Evaluates, Delivered,
         JoinGraph, EnvSet, Edge, Final, Execute;
    var k, phis := JoinGraph(fn, |fn.code| - 1), PhiRegs(0, |Signature(fn).results|);
    RootEnd(fn);
    ExtendsTransitive(g, k, Final(fn));
    KeptDelivery(g, k, RETURN, m.block, phis, vs);
    DeliveredRegs(k, RETURN, m.block, phis, vs, Signature(fn).results);
    KeptDelivery(g, Final(fn), RETURN, m.block, phis, vs);
    TakeEdge(Final(fn), args, m, RETURN, phis, vs, vals);
    EvaluateReturn(fn, prim, args, Edge(Final(fn), args, m, RETURN), phis, vals, m.env);
  }

  lemma ReturnCode(fn: FunctionDef)
    requires Accepted(fn)
    ensures var s := Emitted(fn, |fn.code|);
            && RETURN < |Final(fn)| && s.insert < |s.blocks|
            && Final(fn)[RETURN].code == s.blocks[s.insert].code + [Ret(s.stack)] && s.insert == RETURN
  {
    hide IsEmission, IsRun, Emit;
    EmissionEnds(fn);
    EmitSucceeds(fn);
  }

  lemma EvaluateReturn(fn: FunctionDef, prim: M.Primitives, args: seq<M.Value>, m: Cfg.State,
                       phis: seq<nat>, vals: seq<M.Value>, env: map<nat, M.Value>)
    requires Accepted(fn) && m.At? && m.block == RETURN && m.index == 0 && RETURN < |Final(fn)|
    requires Final(fn)[RETURN].code == [Ret(AsOperands(phis))] && EnvSet(env, phis, vals, m.env)
    ensures Cfg.Step(Final(fn), prim, args, m) == Returned(vals, m.world)
  {
    hide Final;
    var vs := AsOperands(phis);
    forall i | 0 <= i < |vs| ensures Eval(m.env, args, vs[i]) == Some(vals[i]) {
      assert vs[i] == Reg(phis[i]);
    }
    assert EvalAll(m.env, args, vs) == vals;
  }

  // ----- the emitter at a running configuration -----

  lemma TypedEmits(fn: FunctionDef, c: M.Config)
    requires Accepted(fn) && S.Typed(fn, c) && c.Run?
    ensures c.pc < |fn.code| && EmitsAt(fn, c.pc)
    ensures var s := Emitted(fn, c.pc);
            && s.skip == 0 && |s.control| == |s.targets| == |c.labels| + 1
            && |s.stack| == |c.stack| && Last(s.control).outer == M.Base(c) <= |c.stack|
            && Last(s.control).reachable
  {
    hide IsEmission, IsRun, V.Step, Emitter.Step, Inv, Locked, OpenThrough;
    S.TypedInRange(fn, c);
    ReachableEmits(fn, c.pc);
    EmitsLevel(fn, c.pc);
    S.BaseIsOuter(fn, c, ValidatorRuns.At(fn, c.pc));
    S.SameLength(c.stack, ValidatorRuns.At(fn, c.pc).stack);
  }

  /** The emitter's view of the construct behind a label. */
  lemma LabelEmission(fn: FunctionDef, c: M.Config, k: nat)
    requires Accepted(fn) && S.Typed(fn, c) && c.Run? && k < |c.labels|
    ensures var l := c.labels[k];
            && l.opener < c.pc < |fn.code| && fn.code[l.opener].Opens() && EmitsAt(fn, l.opener)
            && OpenThrough(fn, l.opener, c.pc) && c.pc <= MatchingEnd(fn, l.opener)
            && ResolveBlockType(fn.mod, fn.code[l.opener].bt) == Some(l.ty)
            && var s, t, r := Emitted(fn, l.opener), Emitted(fn, l.opener + 1), Emitted(fn, c.pc);
            && t.control != [] && t.targets != [] && |r.control| > k + 1 && |r.targets| == |r.control|
            && SameContext(Last(t.control), r.control[k + 1]) && r.targets[k + 1] == Last(t.targets)
            && Last(t.control).outer == l.height && Last(t.control).results == l.ty.results
            && l.height <= |s.stack| && l.height <= |r.stack|
            && r.stack[..l.height] == s.stack[..l.height]
  {
    hide IsEmission, IsRun, V.Step, Emitter.Step, Inv, Locked, SameContext, BlockOp, LoopOp, IfOp, Shaped;
    S.TypedInRange(fn, c);
    var l := c.labels[k];
    var o := l.opener;
    assert S.LabelFits(fn, l, k + 1, c.pc);
    ReachableEmits(fn, o);
    EmitsLevel(fn, o);
    EmissionAcross(fn, o, c.pc);
    OpenerEmission(fn, o);
    OpenBeforeEnd(fn, o, c.pc);
    OpenedContext(fn, o);
  }

  /** A branch operator keeps the emitter's branch targets. */
  ghost predicate KeepsTargets(fn: FunctionDef, pc: nat)
    requires Accepted(fn) && pc < |fn.code|
  {
    Emitted(fn, pc + 1).targets == Emitted(fn, pc).targets && !fn.code[pc].End?
  }

  lemma GraphAtEnd(fn: FunctionDef, n: nat, e: nat)
    requires Accepted(fn) && n <= e < |fn.code| && fn.code[e].End? && Emitted(fn, e).skip == 0
    ensures Extends(Emitted(fn, n).blocks, JoinGraph(fn, e)) && Consistent(Emitted(fn, n).blocks)
  {
    hide IsEmission, IsRun, V.Step, Emitter.Step, Inv, Locked, Extends, Consistent, JoinGraph, EndOp, BranchToEnd,
         Emitter.After;
    EmittedOk(fn, n);
    InvParts(Emitted(fn, n));
    EmittedExtends(fn, n, e);
    EndEmission(fn, e);
    ExtendsTransitive(Emitted(fn, n).blocks, Emitted(fn, e).blocks, JoinGraph(fn, e));
  }

  /** The operands of a branch: the machine's stack `stack`, evaluated from the bottom part of
      the emitter's, with the arguments `vs` on top. */
  ghost predicate BranchOperands(s: Emission, args: seq<M.Value>, env: map<nat, M.Value>, stack: seq<M.Value>,
      vs: seq<Operand>) {
    && |stack| <= |s.stack| && |vs| <= |stack|
    && Evaluates(env, args, s.stack[..|stack|], stack)
    && vs == s.stack[|stack| - |vs|..|stack|]
  }

  lemma BranchValues(s: Emission, args: seq<M.Value>, env: map<nat, M.Value>, stack: seq<M.Value>, vs: seq<Operand>,
      h: nat)
    requires BranchOperands(s, args, env, stack, vs) && h <= |stack|
    ensures Evaluates(env, args, vs, Top(stack, |vs|)) && Evaluates(env, args, s.stack[..h], stack[..h])
  {
    var n := |stack| - |vs|;
    SplitEvaluates(env, args, s.stack[..|stack|], stack, n);
    assert s.stack[..|stack|][n..] == vs;
    SplitEvaluates(env, args, s.stack[..|stack|], stack, h);
    assert s.stack[..|stack|][..h] == s.stack[..h];
  }

  /** The branch target at a depth, fed with `vs` from the block where the graph stands. */
  ghost predicate BranchFed(fn: FunctionDef, pc: nat, m: Cfg.State, depth: nat, vs: seq<Operand>)
    requires Accepted(fn) && pc < |fn.code| && m.At?
  {
    var s, g := Emitted(fn, pc), Emitted(fn, pc + 1).blocks;
    && depth < |s.targets|
    && var t := s.targets[|s.targets| - depth - 1];
    && m.block < |g| && t.block < |g| && t.block in Targets(g[m.block])
    && |t.phis| == |vs| && BlockCarries(g[t.block], m.block, t.phis, vs)
  }

  lemma TargetPhis(fn: FunctionDef, pc: nat, k: nat)
    requires Accepted(fn) && pc < |fn.code| && KeepsTargets(fn, pc) && k < |Emitted(fn, pc).targets|
    ensures var t, g := Emitted(fn, pc).targets[k], Emitted(fn, pc + 1).blocks;
            t.block < |g| && PhisAre(g[t.block], t.phis)
  {
    hide IsEmission, IsRun, Inv, Locked, PhisAre, Emitter.After;
    EmittedOk(fn, pc + 1);
    TargetSettled(Emitted(fn, pc + 1), k);
  }

  /** The target of a context that is not a loop is its end. */
  lemma TargetIsEnd(s: Emission, k: nat)
    requires Inv(s) && k < |s.control|
    ensures |s.targets| == |s.control| && (s.control[k].kind != LoopBody ==>
              s.targets[k].block == s.control[k].endBlock && s.targets[k].phis == s.control[k].endPhis)
  {
    ContextAt(s, k);
  }

  /** Branching out of the function. */
  lemma BranchToFunction(fn: FunctionDef, prim: M.Primitives, args: seq<M.Value>, c: M.Config, c1: M.Config,
      m: Cfg.State, vs: seq<Operand>)
    requires Accepted(fn) && S.Typed(fn, c) && c.Run? && m.At? && c.pc < |fn.code| && KeepsTargets(fn, c.pc)
    requires c1.Run? && c1 == c.(stack := c1.stack) && M.Finish(fn, c1).Done?
    requires BranchFed(fn, c.pc, m, |c.labels|, vs) && |vs| == |Signature(fn).results|
    requires BranchOperands(Emitted(fn, c.pc), args, m.env, c1.stack, vs) && m.world == c.world
    ensures |Emitted(fn, c.pc).targets| == |c.labels| + 1
    ensures var c', t := M.Finish(fn, c1), Emitted(fn, c.pc).targets[0];
            Cfg.Step(Final(fn), prim, args, Edge(Final(fn), args, m, t.block)) == Returned(c'.results, c'.doneWorld)
  {
    hide IsEmission, IsRun, V.Step, Emitter.Step, Inv, Locked, Extends, Consistent, JoinGraph, PhisAre, Targets,
         BlockCarries, Evaluates, Final, Edge, M.HaveTypes, Emitter.After, BranchOperands;
    TypedEmits(fn, c);
    RootEmission(fn, c.pc);
    EmittedOk(fn, c.pc);
    RootTarget(fn, c.pc);
    TargetPhis(fn, c.pc, 0);
    LastOperator(fn);
    LastLevel(fn);
    GraphAtEnd(fn, c.pc + 1, |fn.code| - 1);
    BranchValues(Emitted(fn, c.pc), args, m.env, c1.stack, vs, 0);
    JumpToReturn(fn, prim, args, m, Emitted(fn, c.pc + 1).blocks, vs, Top(c1.stack, |vs|));
  }

  lemma RootTarget(fn: FunctionDef, n: nat)
    requires Accepted(fn) && n <= |fn.code| && Emitted(fn, n).control != []
    ensures var s := Emitted(fn, n);
            && s.targets != [] && s.targets[0].block == RETURN
            && s.targets[0].phis == PhiRegs(0, |Signature(fn).results|)
  {
    hide IsEmission, IsRun, V.Step, Emitter.Step, Inv, Emitter.After, Shaped;
    RootEmission(fn, n);
    EmittedOk(fn, n);
    var s := Emitted(fn, n);
    S.RootContext(fn, n);
    assert Mirrors(ValidatorRuns.At(fn, n).control[0], s.control[0], s.targets[0], 0, |s.blocks|);
    TargetIsEnd(s, 0);
  }

  /** Arriving at the code of operator `pc` with an evaluated stack. */
  lemma Arrive(fn: FunctionDef, args: seq<M.Value>, c: M.Config, m: Cfg.State)
    requires Accepted(fn) && c.Run? && m.At? && c.pc < |fn.code|
    requires var r := Emitted(fn, c.pc);
             && r.insert < |r.blocks| && r.blocks[r.insert].code == [] && m.block == r.insert && m.index == 0
             && Evaluates(m.env, args, r.stack, c.stack)
    requires LocalsMatch(c.locals, m.locals) && m.world == c.world
    ensures Matches(fn, args, c, m)
  {
  }

  /** Branching to a label of a block or an `if`: control arrives behind its end. */
  lemma BranchToEndLabel(fn: FunctionDef, args: seq<M.Value>, c: M.Config, c1: M.Config, m: Cfg.State, k: nat,
      vs: seq<Operand>)
    requires Accepted(fn) && S.Typed(fn, c) && c.Run? && m.At? && c.pc < |fn.code| && KeepsTargets(fn, c.pc)
    requires c1.Run? && c1 == c.(stack := c1.stack) && k < |c.labels|
    requires BranchFed(fn, c.pc, m, |c.labels| - 1 - k, vs) && |Emitted(fn, c.pc).targets| == |c.labels| + 1
    requires BranchOperands(Emitted(fn, c.pc), args, m.env, c1.stack, vs)
    requires m.world == c.world && LocalsMatch(c.locals, m.locals)
    requires c.labels[k].opener < |fn.code| && !fn.code[c.labels[k].opener].Loop? && c.labels[k].height <= |c1.stack|
    requires S.Typed(fn, M.BranchTo(fn, c1, |c.labels| - 1 - k)) && |vs| == |M.BranchTypes(fn, c.labels[k])|
    requires M.BranchTo(fn, c1, |c.labels| - 1 - k).Run?
    ensures Matches(fn, args, M.BranchTo(fn, c1, |c.labels| - 1 - k),
                    Edge(Final(fn), args, m, Emitted(fn, c.pc).targets[k + 1].block))
  {
    hide IsEmission, IsRun, V.Step, Emitter.Step, Inv, Locked, Extends, Consistent, JoinGraph, PhisAre, Targets,
         BlockCarries, Evaluates, Final, Edge, M.HaveTypes, Emitter.After, BranchOperands, Matches, Shaped, LocalsMatch, OpenThrough;
    var l, s := c.labels[k], Emitted(fn, c.pc);
    var o := l.opener;
    LabelEmission(fn, c, k);
    var e := MatchingEnd(fn, o);
    EmittedOk(fn, c.pc);
    LabelKind(fn, c, k);
    TargetIsEnd(s, k + 1);
    TargetPhis(fn, c.pc, k + 1);
    EndOfConstruct(fn, o);
    GraphAtEnd(fn, c.pc + 1, e);
    BranchValues(s, args, m.env, c1.stack, vs, l.height);
    JumpToEnd(fn, args, m, o, Emitted(fn, c.pc + 1).blocks, vs, Top(c1.stack, |vs|), c1.stack[..l.height]);
    var c' := M.BranchTo(fn, c1, |c.labels| - 1 - k);
    S.TypedInRange(fn, c');
    Arrive(fn, args, c', Edge(Final(fn), args, m, s.targets[k + 1].block));
  }

  /** The kind of the context behind a label. */
  lemma LabelKind(fn: FunctionDef, c: M.Config, k: nat)
    requires Accepted(fn) && S.Typed(fn, c) && c.Run? && k < |c.labels| && c.pc < |fn.code|
    ensures |Emitted(fn, c.pc).control| > k + 1 && c.labels[k].opener < |fn.code|
    ensures (Emitted(fn, c.pc).control[k + 1].kind == LoopBody) <==> fn.code[c.labels[k].opener].Loop?
  {
    hide IsEmission, IsRun, V.Step, Emitter.Step, Inv, Emitter.After, Shaped, M.HaveTypes;
    TypedEmits(fn, c);
    EmittedOk(fn, c.pc);
    S.TypedInRange(fn, c);
    var s, v := Emitted(fn, c.pc), ValidatorRuns.At(fn, c.pc);
    assert Mirrors(v.control[k + 1], s.control[k + 1], s.targets[k + 1], k + 1, |s.blocks|);
    assert S.LabelFits(fn, c.labels[k], k + 1, c.pc);
    OpenedContext(fn, c.labels[k].opener);
    LoopKindKept(fn, c.labels[k].opener, c.pc);
  }

  /** A context is a loop exactly if it was opened as one. */
  lemma {:induction false} LoopKindKept(fn: FunctionDef, o: nat, p: nat)
    requires Accepted(fn) && o < p <= |fn.code| && fn.code[o].Opens() && OpenThrough(fn, o, p)
    ensures Depth(fn, p) > Depth(fn, o)
    ensures ValidatorRuns.At(fn, p).control[Depth(fn, o)].kind == LoopBody <==> fn.code[o].Loop?
    decreases p
  {
    hide IsRun, V.Step, Shaped;
    var d := Depth(fn, o);
    assert Depth(fn, p) > d;
    if p == o + 1 {
      OpenedContext(fn, o);
    } else {
      LoopKindKept(fn, o, p - 1);
      if fn.code[p - 1].Else? && Depth(fn, p - 1) == d + 1 {
        AtStep(fn, p - 1);
        ElseSwitches(fn, ValidatorRuns.At(fn, p - 1));
      } else {
        KindKept(fn, d, p - 1);
      }
    }
  }

  /** Branching to a loop: control arrives at the first operator of its body. */
  lemma BranchToLoopLabel(fn: FunctionDef, args: seq<M.Value>, c: M.Config, c1: M.Config, m: Cfg.State, k: nat,
      vs: seq<Operand>)
    requires Accepted(fn) && S.Typed(fn, c) && c.Run? && m.At? && c.pc < |fn.code| && KeepsTargets(fn, c.pc)
    requires c1.Run? && c1 == c.(stack := c1.stack) && k < |c.labels|
    requires BranchFed(fn, c.pc, m, |c.labels| - 1 - k, vs) && |Emitted(fn, c.pc).targets| == |c.labels| + 1
    requires BranchOperands(Emitted(fn, c.pc), args, m.env, c1.stack, vs)
    requires m.world == c.world && LocalsMatch(c.locals, m.locals)
    requires c.labels[k].opener < |fn.code| && fn.code[c.labels[k].opener].Loop? && c.labels[k].height <= |c1.stack|
    requires S.Typed(fn, M.BranchTo(fn, c1, |c.labels| - 1 - k)) && |vs| == |M.BranchTypes(fn, c.labels[k])|
    requires M.BranchTo(fn, c1, |c.labels| - 1 - k).Run?
    ensures Matches(fn, args, M.BranchTo(fn, c1, |c.labels| - 1 - k),
                    Edge(Final(fn), args, m, Emitted(fn, c.pc).targets[k + 1].block))
  {
    hide IsEmission, IsRun, V.Step, Emitter.Step, Inv, Locked, Extends, Consistent, JoinGraph, PhisAre, Targets,
         BlockCarries, Evaluates, Final, Edge, M.HaveTypes, Emitter.After, BranchOperands, Matches, Shaped, LocalsMatch, OpenThrough;
    var l, s := c.labels[k], Emitted(fn, c.pc);
    var o := l.opener;
    LabelEmission(fn, c, k);
    TargetPhis(fn, c.pc, k + 1);
    BranchValues(s, args, m.env, c1.stack, vs, l.height);
    JumpToLoop(fn, args, m, o, c.pc + 1, vs, Top(c1.stack, |vs|), c1.stack[..l.height]);
    var c' := M.BranchTo(fn, c1, |c.labels| - 1 - k);
    S.TypedInRange(fn, c');
    Arrive(fn, args, c', Edge(Final(fn), args, m, s.targets[k + 1].block));
  }

  // ----- branch operators -----

  /** How many operands a branch to the given depth takes. */
  function BranchArity(fn: FunctionDef, c: M.Config, depth: nat): nat
    requires WellFormed(fn) && c.Run? && depth <= |c.labels|
  {
    if depth == |c.labels| then |Signature(fn).results|
    else |M.BranchTypes(fn, c.labels[|c.labels| - 1 - depth])|
  }

  lemma TargetArity(fn: FunctionDef, c: M.Config, depth: nat)
    requires Accepted(fn) && S.Typed(fn, c) && c.Run? && c.pc < |fn.code| && depth <= |c.labels|
    ensures |Emitted(fn, c.pc).targets| == |c.labels| + 1
    ensures |Emitted(fn, c.pc).targets[|c.labels| - depth].phis| == BranchArity(fn, c, depth)
  {
    hide IsEmission, IsRun, V.Step, Emitter.Step, Inv, Emitter.After, Shaped, M.HaveTypes;
    TypedEmits(fn, c);
    EmittedOk(fn, c.pc);
    S.TypedInRange(fn, c);
    var s, v, k := Emitted(fn, c.pc), ValidatorRuns.At(fn, c.pc), |c.labels| - depth;
    assert Mirrors(v.control[k], s.control[k], s.targets[k], k, |s.blocks|);
    if depth == |c.labels| {
      S.RootContext(fn, c.pc);
    } else {
      assert S.LabelFits(fn, c.labels[k - 1], k, c.pc);
      S.LabelFrame(fn, c.labels[k - 1], k, c.pc);
    }
  }

  lemma BranchCases(fn: FunctionDef, c: M.Config, depth: nat)
    requires Accepted(fn) && c.Run? && depth <= |c.labels| && S.Typed(fn, M.BranchTo(fn, c, depth))
    ensures depth == |c.labels| ==> M.BranchTo(fn, c, depth) == M.Finish(fn, c) && M.Finish(fn, c).Done?
    ensures depth < |c.labels| ==>
              M.BranchTo(fn, c, depth).Run? && c.labels[|c.labels| - 1 - depth].height <= |c.stack|
  {
    hide M.CanPop, S.Fits, IsRun;
  }

  lemma FedArity(fn: FunctionDef, pc: nat, m: Cfg.State, depth: nat, vs: seq<Operand>)
    requires Accepted(fn) && pc < |fn.code| && m.At? && BranchFed(fn, pc, m, depth, vs)
    ensures depth < |Emitted(fn, pc).targets|
    ensures |vs| == |Emitted(fn, pc).targets[|Emitted(fn, pc).targets| - depth - 1].phis|
  {
    hide IsRun, IsEmission;
  }

  /** Taking the edge of a branch leads where the machine's branch leads. */
  lemma BranchSim(fn: FunctionDef, prim: M.Primitives, args: seq<M.Value>, c: M.Config, c1: M.Config, m: Cfg.State,
                  depth: nat, vs: seq<Operand>)
    requires Accepted(fn) && S.Typed(fn, c) && c.Run? && m.At? && c.pc < |fn.code| && KeepsTargets(fn, c.pc)
    requires c1.Run? && c1 == c.(stack := c1.stack) && depth <= |c.labels|
    requires S.Typed(fn, M.BranchTo(fn, c1, depth)) && !M.BranchTo(fn, c1, depth).Trapped?
    requires BranchFed(fn, c.pc, m, depth, vs)
    requires BranchOperands(Emitted(fn, c.pc), args, m.env, c1.stack, vs)
    requires m.world == c.world && LocalsMatch(c.locals, m.locals)
    ensures |Emitted(fn, c.pc).targets| == |c.labels| + 1
    ensures var c', n := M.BranchTo(fn, c1, depth), Edge(Final(fn), args, m, Emitted(fn, c.pc).targets[|c.labels| - depth].block);
            && (c'.Run? ==> Matches(fn, args, c', n))
            && (c'.Done? ==> Cfg.Step(Final(fn), prim, args, n) == Returned(c'.results, c'.doneWorld))
  {
    hide IsEmission, IsRun, V.Step, Emitter.Step, Inv, Locked, BranchOperands, Matches, Final, Edge, M.CanPop,
         LocalsMatch,
         KeepsTargets, S.Fits, OpenThrough, SameContext, ResolveBlockType, ValidTuple, BranchFed, Shaped, WellFormedOp, S.Typed;
    TargetArity(fn, c, depth);
    BranchCases(fn, c1, depth);
    FedArity(fn, c.pc, m, depth, vs);
    if depth == |c.labels| {
      BranchToFunction(fn, prim, args, c, c1, m, vs);
    } else {
      var k := |c.labels| - 1 - depth;
      LabelEmission(fn, c, k);
      if fn.code[c.labels[k].opener].Loop? {
        BranchToLoopLabel(fn, args, c, c1, m, k, vs);
      } else {
        BranchToEndLabel(fn, args, c, c1, m, k, vs);
      }
    }
  }

  // ----- one simulation lemma per kind of operator -----

  /** `k` steps of the graph answer the machine's step; without any, the machine moves forward. */
  ghost predicate Answers(fn: FunctionDef, prim: M.Primitives, args: seq<M.Value>, c: M.Config, m: Cfg.State, k: nat)
    requires Accepted(fn) && c.Run?
  {
    var c' := M.Step(fn, prim, c);
    && Related(fn, args, c', Cfg.Steps(Final(fn), prim, args, m, k))
    && (k > 0 || (c'.Run? && c'.pc > c.pc))
  }

  /** A simulated step starts from a typed, matched configuration and leads to a typed one. */
  ghost predicate Ready(fn: FunctionDef, prim: M.Primitives, args: seq<M.Value>, c: M.Config, m: Cfg.State)
    requires Accepted(fn)
  {
    && c.Run? && S.Typed(fn, c) && Matches(fn, args, c, m) && S.Typed(fn, M.Step(fn, prim, c))
  }

  lemma EmitsOperator(fn: FunctionDef, n: nat)
    requires Accepted(fn) && n < |fn.code| && EmitsAt(fn, n)
    ensures ReachableStep(fn, Emitted(fn, n), fn.code[n]) == Some(Emitted(fn, n + 1))
    ensures Inv(Emitted(fn, n))
  {
    hide IsEmission, IsRun, Emitter.After, Inv, Locked, ReachableStep;
    EmittedStep(fn, n);
    EmittedOk(fn, n);
  }

  lemma BrSim(fn: FunctionDef, prim: M.Primitives, args: seq<M.Value>, c: M.Config, m: Cfg.State) returns (k: nat)
    requires Accepted(fn) && c.Run? && Ready(fn, prim, args, c, m) && c.pc < |fn.code| && fn.code[c.pc].Br?
    ensures Answers(fn, prim, args, c, m, k)
  {
    hide IsEmission, IsRun, Inv, Locked, BrOp, Sealed, Edge, Final, M.BranchTo, S.Typed, BlockCarries, Execute;
    var depth, s, r := fn.code[c.pc].depth, Emitted(fn, c.pc), Emitted(fn, c.pc + 1);
    TypedEmits(fn, c);
    EmitsOperator(fn, c.pc);
    BrGraph(s, depth);
    var t := s.targets[|s.targets| - depth - 1];
    var vs := s.stack[|s.stack| - |t.phis|..];
    assert Targets(r.blocks[s.insert]) == [t.block];
    assert BranchOperands(s, args, m.env, c.stack, vs) by { assert s.stack[..|s.stack|] == s.stack; }
    NotTrapped(fn, c, depth);
    BranchSim(fn, prim, args, c, c, m, depth, vs);
    FinalExtends(fn, c.pc + 1);
    RunsInstruction(fn, prim, args, m, r.blocks, Jump(t.block));
    JumpExecutes(fn, prim, args, m, t.block);
    k := FinishBranch(fn, prim, args, c, m, M.BranchTo(fn, c, depth));
  }

  lemma NotTrapped(fn: FunctionDef, c: M.Config, depth: nat)
    requires Accepted(fn) && c.Run? && S.Typed(fn, M.BranchTo(fn, c, depth))
    ensures M.BranchTo(fn, c, depth).Run? || M.BranchTo(fn, c, depth).Done?
    ensures depth <= |c.labels|
  {
    hide S.Fits, IsRun;
  }

  lemma JumpExecutes(fn: FunctionDef, prim: M.Primitives, args: seq<M.Value>, m: Cfg.State, t: nat)
    requires Accepted(fn) && m.At?
    ensures Execute(Final(fn), prim, args, m, Jump(t)) == Edge(Final(fn), args, m, t)
  {
  }

  /** One step takes the edge of a branch; leaving the function takes one more, for the return. */
  lemma FinishBranch(fn: FunctionDef, prim: M.Primitives, args: seq<M.Value>, c: M.Config, m: Cfg.State, c': M.Config)
      returns (k: nat)
    requires Accepted(fn) && c.Run? && c' == M.Step(fn, prim, c) && (c'.Run? || c'.Done?)
    requires var n := Cfg.Step(Final(fn), prim, args, m);
             && (c'.Run? ==> Matches(fn, args, c', n))
             && (c'.Done? ==> Cfg.Step(Final(fn), prim, args, n) == Returned(c'.results, c'.doneWorld))
    ensures Answers(fn, prim, args, c, m, k)
  {
    hide IsEmission, IsRun, Matches, Final, Cfg.Step, M.Step;
    OneStep(Final(fn), prim, args, m);
    k := if c'.Run? then 1 else 2;
  }

  /** A target without PHIs is entered with the registers unchanged. */
  lemma BareEdgeTaken(g: Graph, args: seq<M.Value>, m: Cfg.State, t: nat)
    requires m.At? && t < |g| && g[t].phis == map[]
    ensures Edge(g, args, m, t) == m.(block := t, index := 0)
  {
    assert Edge(g, args, m, t).env == m.env;
  }

  lemma BareInFinal(fn: FunctionDef, n: nat, b: nat)
    requires Accepted(fn) && n <= |fn.code| && b < |Emitted(fn, n).blocks| && Emitted(fn, n).blocks[b].phis == map[]
    ensures b < |Final(fn)| && Final(fn)[b].phis == map[]
  {
    hide IsEmission, IsRun, Final;
    FinalExtends(fn, n);
    assert BlockExtends(Emitted(fn, n).blocks[b], Final(fn)[b]);
  }

  lemma BrIfSim(fn: FunctionDef, prim: M.Primitives, args: seq<M.Value>, c: M.Config, m: Cfg.State) returns (k: nat)
    requires Accepted(fn) && c.Run? && Ready(fn, prim, args, c, m) && c.pc < |fn.code| && fn.code[c.pc].BrIf?
    ensures Answers(fn, prim, args, c, m, k)
  {
    hide IsEmission, IsRun, Inv, Locked, BrIfOp, Sealed, Edge, Final, M.BranchTo, S.Typed, BlockCarries, Execute, Grown,
         Consistent, Matches, Related;
    var depth, s, r := fn.code[c.pc].depth, Emitted(fn, c.pc), Emitted(fn, c.pc + 1);
    TypedEmits(fn, c);
    EmitsOperator(fn, c.pc);
    BrIfGraph(s, depth);
    MatchedParts(fn, args, c, m);
    TypedNotStuck(fn, M.Step(fn, prim, c));
    var c1, t := M.PopTop(c), s.targets[|s.targets| - depth - 1];
    var i := CondJump(Last(s.stack), t.block, |s.blocks|);
    EvaluatesAt(m.env, args, s.stack, c.stack, |s.stack| - 1);
    FinalExtends(fn, c.pc + 1);
    RunsInstruction(fn, prim, args, m, r.blocks, i);
    CondExecutes(fn, prim, args, m, i, Last(c.stack));
    if Last(c.stack).bits != 0 {
      var vs := s.stack[|s.stack| - 1 - |t.phis|..|s.stack| - 1];
      assert t.block in Targets(r.blocks[s.insert]);
      PoppedOperands(s, args, m.env, c.stack, vs);
      NotTrapped(fn, c1, depth);
      BranchSim(fn, prim, args, c, c1, m, depth, vs);
      k := FinishBranch(fn, prim, args, c, m, M.BranchTo(fn, c1, depth));
    } else {
      BareInFinal(fn, c.pc + 1, |s.blocks|);
      BareEdgeTaken(Final(fn), args, m, |s.blocks|);
      SplitEvaluates(m.env, args, s.stack, c.stack, |s.stack| - 1);
      var c' := M.Step(fn, prim, c);
      S.TypedInRange(fn, c');
      Arrive(fn, args, c', m.(block := |s.blocks|, index := 0));
      k := FinishBranch(fn, prim, args, c, m, c');
    }
  }

  lemma MatchedParts(fn: FunctionDef, args: seq<M.Value>, c: M.Config, m: Cfg.State)
    requires Accepted(fn) && Matches(fn, args, c, m)
    ensures m.At? && m.world == c.world && LocalsMatch(c.locals, m.locals)
    ensures var s := Emitted(fn, c.pc);
            && s.insert < |s.blocks| && m.block == s.insert && m.index == |s.blocks[s.insert].code|
            && Evaluates(m.env, args, s.stack, c.stack)
  {
    hide IsEmission, IsRun;
  }

  lemma TypedNotStuck(fn: FunctionDef, c: M.Config)
    requires Accepted(fn) && S.Typed(fn, c)
    ensures !c.Stuck?
  {
    hide S.Fits, IsRun;
  }

  lemma CondExecutes(fn: FunctionDef, prim: M.Primitives, args: seq<M.Value>, m: Cfg.State, i: Instr, v: M.Value)
    requires Accepted(fn) && m.At? && i.CondJump? && Eval(m.env, args, i.cond) == Some(v)
    ensures Execute(Final(fn), prim, args, m, i)
            == Edge(Final(fn), args, m, if v.bits != 0 then i.ifTrueBlock else i.ifFalseBlock)
  {
  }

  /** The operands of a branch below its condition. */
  lemma PoppedOperands(s: Emission, args: seq<M.Value>, env: map<nat, M.Value>, stack: seq<M.Value>, vs: seq<Operand>)
    requires Evaluates(env, args, s.stack, stack) && stack != [] && |vs| < |stack|
    requires |s.stack| == |stack| && vs == s.stack[|s.stack| - 1 - |vs|..|s.stack| - 1]
    ensures BranchOperands(s, args, env, Front(stack), vs)
  {
    SplitEvaluates(env, args, s.stack, stack, |stack| - 1);
  }

  /** The depth a table index selects. */
  function Selected(b: int, depths: seq<nat>, default: nat): nat {
    if 0 <= b < |depths| then depths[b] else default
  }

  /** A branch table in the graph: whichever entry is selected, its block is a target of the
      switch and was fed with the branch arguments. */
  lemma TableFed(s: Emission, g: Graph, depths: seq<nat>, default: nat, vs: seq<Operand>, i: Instr, b: int)
    requires s.insert < |g| && default < |s.targets|
    requires forall j :: 0 <= j < |s.targets| ==> s.targets[j].block < |g|
    requires forall j :: 0 <= j < |depths| ==>
               depths[j] < |s.targets| && |s.targets[|s.targets| - depths[j] - 1].phis| == |vs|
    requires |s.targets[|s.targets| - default - 1].phis| == |vs| && TargetsCarry(s.targets, g, s.insert, vs)
    requires i.Switch? && i.default == s.targets[|s.targets| - default - 1].block && i.cases == TableBlocks(s, depths)
    requires g[s.insert].code != [] && Last(g[s.insert].code) == i
    ensures var d := Selected(b, depths, default);
            && d < |s.targets|
            && var t := s.targets[|s.targets| - d - 1];
            && t.block == (if 0 <= b < |i.cases| then i.cases[b] else i.default)
            && t.block < |g| && t.block in Targets(g[s.insert])
            && |t.phis| == |vs| && BlockCarries(g[t.block], s.insert, t.phis, vs)
  {
    hide BlockCarries;
    if 0 <= b < |depths| {
      assert i.cases[b] in i.cases;
    }
  }

  /** The emitted form of a reached branch table. */
  lemma TableEmission(fn: FunctionDef, c: M.Config)
    requires Accepted(fn) && S.Typed(fn, c) && c.Run? && c.pc < |fn.code| && fn.code[c.pc].BrTable?
    ensures KeepsTargets(fn, c.pc)
    ensures var s, r, op := Emitted(fn, c.pc), Emitted(fn, c.pc + 1), fn.code[c.pc];
            && op.table < |fn.branchTables| && op.default < |s.targets| && s.insert < |s.blocks| && s.insert < |r.blocks|
            && var t, depths := s.targets[|s.targets| - op.default - 1], fn.branchTables[op.table];
            && |t.phis| < |s.stack|
            && (forall j :: 0 <= j < |s.targets| ==> s.targets[j].block < |r.blocks|)
            && (forall j :: 0 <= j < |depths| ==>
                  depths[j] < |s.targets| && |s.targets[|s.targets| - depths[j] - 1].phis| == |t.phis|)
            && TargetsCarry(s.targets, r.blocks, s.insert, s.stack[|s.stack| - 1 - |t.phis|..|s.stack| - 1])
            && r.blocks[s.insert].code == s.blocks[s.insert].code + [Switch(Last(s.stack), t.block, TableBlocks(s, depths))]
  {
    hide IsEmission, IsRun, Inv, Locked, Sealed, S.Typed, Extends, Consistent, TargetsCarry, ReachableStep, EmitsAt;
    var s, r, op := Emitted(fn, c.pc), Emitted(fn, c.pc + 1), fn.code[c.pc];
    TypedEmits(fn, c);
    EmitsOperator(fn, c.pc);
    TableDispatch(fn, s, op);
    BrTableGraph(s, fn.branchTables[op.table], op.default);
    SealedExtends(s.blocks, s.insert, r.blocks);
    TargetsWithin(s, r.blocks);
  }

  lemma BrTableSim(fn: FunctionDef, prim: M.Primitives, args: seq<M.Value>, c: M.Config, m: Cfg.State) returns (k: nat)
    requires Accepted(fn) && c.Run? && Ready(fn, prim, args, c, m) && c.pc < |fn.code| && fn.code[c.pc].BrTable?
    ensures Answers(fn, prim, args, c, m, k)
  {
    hide IsEmission, IsRun, Edge, Final, M.BranchTo, S.Typed, BlockCarries, Execute, Extends, KeepsTargets, WellFormed,
         Matches, Answers, Cfg.Step, TargetsCarry, BranchOperands, Evaluates, M.Step, EmitsAt, Selected, LocalsMatch;
    var s, r, op := Emitted(fn, c.pc), Emitted(fn, c.pc + 1), fn.code[c.pc];
    TypedEmits(fn, c);
    TableEmission(fn, c);
    MatchedParts(fn, args, c, m);
    BranchTableStep(fn, prim, c);
    var depths := fn.branchTables[op.table];
    var c1, t, b := M.PopTop(c), s.targets[|s.targets| - op.default - 1], Last(c.stack).bits;
    var vs := s.stack[|s.stack| - 1 - |t.phis|..|s.stack| - 1];
    var i := Switch(Last(s.stack), t.block, TableBlocks(s, depths));
    EvaluatesAt(m.env, args, s.stack, c.stack, |s.stack| - 1);
    FinalExtends(fn, c.pc + 1);
    RunsInstruction(fn, prim, args, m, r.blocks, i);
    SwitchExecutes(fn, prim, args, m, i, Last(c.stack));
    var depth := Selected(b, depths, op.default);
    TableFed(s, r.blocks, depths, op.default, vs, i, b);
    PoppedOperands(s, args, m.env, c.stack, vs);
    NotTrapped(fn, c1, depth);
    BranchSim(fn, prim, args, c, c1, m, depth, vs);
    k := FinishBranch(fn, prim, args, c, m, M.BranchTo(fn, c1, depth));
  }

  lemma TargetsWithin(s: Emission, g: Graph)
    requires Inv(s) && |s.blocks| <= |g|
    ensures forall j :: 0 <= j < |s.targets| ==> s.targets[j].block < |g|
  {
    hide Inv;
    forall j | 0 <= j < |s.targets| ensures s.targets[j].block < |g| {
      TargetSettled(s, j);
    }
  }

  lemma TableDispatch(fn: FunctionDef, s: Emission, op: Op)
    requires WellFormed(fn) && WellFormedOp(fn, op) && op.BrTable?
    ensures ReachableStep(fn, s, op) == BrTableOp(s, fn.branchTables[op.table], op.default)
  {
  }

  lemma BranchTableStep(fn: FunctionDef, prim: M.Primitives, c: M.Config)
    requires Accepted(fn) && c.Run? && c.pc < |fn.code| && fn.code[c.pc].BrTable? && S.Typed(fn, M.Step(fn, prim, c))
    ensures c.stack != []
    ensures M.Step(fn, prim, c)
            == M.BranchTo(fn, M.PopTop(c), Selected(Last(c.stack).bits, fn.branchTables[fn.code[c.pc].table], fn.code[c.pc].default))
  {
    hide IsRun, M.BranchTo, S.Fits;
  }

  lemma SwitchExecutes(fn: FunctionDef, prim: M.Primitives, args: seq<M.Value>, m: Cfg.State, i: Instr, v: M.Value)
    requires Accepted(fn) && m.At? && i.Switch? && Eval(m.env, args, i.index) == Some(v)
    ensures Execute(Final(fn), prim, args, m, i)
            == Edge(Final(fn), args, m, if 0 <= v.bits < |i.cases| then i.cases[v.bits] else i.default)
  {
  }

  lemma ReturnSim(fn: FunctionDef, prim: M.Primitives, args: seq<M.Value>, c: M.Config, m: Cfg.State) returns (k: nat)
    requires Accepted(fn) && c.Run? && Ready(fn, prim, args, c, m) && c.pc < |fn.code| && fn.code[c.pc].Return?
    ensures Answers(fn, prim, args, c, m, k)
  {
    hide IsEmission, IsRun, Inv, Locked, ReturnOp, Sealed, Edge, Final, S.Typed, BlockCarries, Execute, Matches,
         Consistent,
         Emitter.After, M.CanPop;
    var s, r := Emitted(fn, c.pc), Emitted(fn, c.pc + 1);
    TypedEmits(fn, c);
    EmitsOperator(fn, c.pc);
    ReturnGraph(s, Signature(fn).results);
    RootEmission(fn, c.pc);
    RootTarget(fn, c.pc);
    MatchedParts(fn, args, c, m);
    TypedNotStuck(fn, M.Step(fn, prim, c));
    var vs := s.stack[|s.stack| - |Signature(fn).results|..];
    assert Targets(r.blocks[s.insert]) == [RETURN];
    assert BranchOperands(s, args, m.env, c.stack, vs) by { assert s.stack[..|s.stack|] == s.stack; }
    BranchToFunction(fn, prim, args, c, c, m, vs);
    FinalExtends(fn, c.pc + 1);
    RunsInstruction(fn, prim, args, m, r.blocks, Jump(RETURN));
    JumpExecutes(fn, prim, args, m, RETURN);
    k := FinishBranch(fn, prim, args, c, m, M.Step(fn, prim, c));
  }

  lemma UnreachableSim(fn: FunctionDef, prim: M.Primitives, args: seq<M.Value>, c: M.Config, m: Cfg.State)
      returns (k: nat)
    requires Accepted(fn) && c.Run? && Ready(fn, prim, args, c, m) && c.pc < |fn.code| && fn.code[c.pc].Unreachable?
    ensures Answers(fn, prim, args, c, m, k)
  {
    hide IsEmission, IsRun, Inv, Locked, Edge, Final, S.Typed, Matches;
    var r := Emitted(fn, c.pc + 1);
    TypedEmits(fn, c);
    EmitsOperator(fn, c.pc);
    MatchedParts(fn, args, c, m);
    FinalExtends(fn, c.pc + 1);
    RunsInstruction(fn, prim, args, m, r.blocks, TrapCall);
    OneStep(Final(fn), prim, args, m);
    k := 1;
  }

  // ----- operators that stay in their block -----

  lemma DefinedEvaluates(env: map<nat, M.Value>, args: seq<M.Value>, vs: seq<Operand>, us: seq<M.Value>, first: nat,
      vals: seq<M.Value>)
    requires Evaluates(env, args, vs, us) && OperandsBelow(vs, first)
    ensures Evaluates(Cfg.Define(env, first, vals), args, vs + AsOperands(PhiRegs(first, |vals|)), us + vals)
  {
    var regs, env' := PhiRegs(first, |vals|), Cfg.Define(env, first, vals);
    assert forall i :: 0 <= i < |regs| ==> regs[i] == first + i;
    forall r | first <= r < first + |vals| ensures r in regs {
      assert regs[r - first] == r;
    }
    EvaluateAfterSet(env, args, vs, us, first, regs, vals, env');
  }

  lemma DefineForm(s: Emission, i: Instr, n: nat, count: nat)
    requires DefineRegs(s, i, n, count).Some?
    ensures var r := DefineRegs(s, i, n, count).value;
            && n <= |s.stack| && s.insert < |s.blocks| && r.insert == s.insert < |r.blocks|
            && r.blocks[s.insert].code == s.blocks[s.insert].code + [i]
            && r.stack == s.stack[..|s.stack| - n] + AsOperands(PhiRegs(s.nextReg, count))
  {
    hide AsOperands, PhiRegs;
  }

  /** The state after an instruction that defines `vals` in place of the top `n` operands. */
  lemma DefineSim(fn: FunctionDef, args: seq<M.Value>, c: M.Config, m: Cfg.State, i: Instr, n: nat, vals: seq<M.Value>,
                  c': M.Config, locals: map<nat, M.Value>)
    requires Accepted(fn) && S.Typed(fn, c) && c.Run? && Matches(fn, args, c, m) && c.pc + 1 < |fn.code|
    requires Inv(Emitted(fn, c.pc)) && n <= |c.stack|
    requires DefineRegs(Emitted(fn, c.pc), i, n, |vals|) == Some(Emitted(fn, c.pc + 1))
    requires c'.Run? && c'.pc == c.pc + 1 && c'.stack == Below(c.stack, n) + vals && LocalsMatch(c'.locals, locals)
    ensures Matches(fn, args, c', m.(index := m.index + 1, env := Cfg.Define(m.env, Emitted(fn, c.pc).nextReg, vals),
                                     locals := locals, world := c'.world))
  {
    hide IsEmission, IsRun, Inv, Locked, S.Typed, Evaluates, LocalsMatch, AsOperands, PhiRegs, Cfg.Define,
         OperandsBelow,
         Straight, Closed, Consistent, DefineRegs, Matches;
    var s, r := Emitted(fn, c.pc), Emitted(fn, c.pc + 1);
    DefineForm(s, i, n, |vals|);
    MatchedParts(fn, args, c, m);
    EvaluatesLength(m.env, args, s.stack, c.stack);
    InvParts(s);
    PrefixBelow(s.stack, s.nextReg, s.nextReg, |s.stack| - n);
    SplitEvaluates(m.env, args, s.stack, c.stack, |s.stack| - n);
    DefinedEvaluates(m.env, args, s.stack[..|s.stack| - n], c.stack[..|s.stack| - n], s.nextReg, vals);
    MatchedAgain(fn, args, c', m.(index := m.index + 1, env := Cfg.Define(m.env, s.nextReg, vals), locals := locals, world := c'.world));
  }

  lemma MatchedAgain(fn: FunctionDef, args: seq<M.Value>, c: M.Config, m: Cfg.State)
    requires Accepted(fn) && c.Run? && m.At? && c.pc < |fn.code|
    requires var s := Emitted(fn, c.pc);
             && s.insert < |s.blocks| && m.block == s.insert && m.index == |s.blocks[s.insert].code|
             && Evaluates(m.env, args, s.stack, c.stack)
    requires LocalsMatch(c.locals, m.locals) && m.world == c.world
    ensures Matches(fn, args, c, m)
  {
  }

  /** The instruction of an operator that stays in its block is executed next. */
  lemma RunsDefine(fn: FunctionDef, prim: M.Primitives, args: seq<M.Value>, c: M.Config, m: Cfg.State, i: Instr, n: nat,
      count: nat)
    requires Accepted(fn) && c.Run? && Matches(fn, args, c, m) && c.pc < |fn.code|
    requires DefineRegs(Emitted(fn, c.pc), i, n, count) == Some(Emitted(fn, c.pc + 1))
    ensures Cfg.Steps(Final(fn), prim, args, m, 1) == Execute(Final(fn), prim, args, m, i)
  {
    hide IsEmission, IsRun, Final, Execute, Extends;
    FinalExtends(fn, c.pc + 1);
    RunsInstruction(fn, prim, args, m, Emitted(fn, c.pc + 1).blocks, i);
    OneStep(Final(fn), prim, args, m);
  }

  /** A typed configuration that moved on is not at the end of the body. */
  lemma MovesOn(fn: FunctionDef, c: M.Config)
    requires Accepted(fn) && S.Typed(fn, c) && c.Run?
    ensures c.pc < |fn.code|
  {
    S.TypedInRange(fn, c);
  }

  lemma DropSim(fn: FunctionDef, prim: M.Primitives, args: seq<M.Value>, c: M.Config, m: Cfg.State) returns (k: nat)
    requires Accepted(fn) && c.Run? && Ready(fn, prim, args, c, m) && c.pc < |fn.code| && fn.code[c.pc].Drop?
    ensures Answers(fn, prim, args, c, m, k)
  {
    hide IsEmission, IsRun, Inv, Locked, Final, S.Typed;
    TypedEmits(fn, c);
    EmitsOperator(fn, c.pc);
    var s, c' := Emitted(fn, c.pc), M.Step(fn, prim, c);
    TypedNotStuck(fn, c');
    MovesOn(fn, c');
    SplitEvaluates(m.env, args, s.stack, c.stack, |s.stack| - 1);
    assert Below(c.stack, 1) + [] == Below(c.stack, 1);
    k := 0;
  }

  lemma LocalSim(fn: FunctionDef, prim: M.Primitives, args: seq<M.Value>, c: M.Config, m: Cfg.State) returns (k: nat)
    requires Accepted(fn) && c.Run? && Ready(fn, prim, args, c, m) && c.pc < |fn.code|
    requires fn.code[c.pc].LocalGet? || fn.code[c.pc].LocalSet? || fn.code[c.pc].LocalTee?
    ensures Answers(fn, prim, args, c, m, k)
  {
    hide IsEmission, IsRun, Inv, Locked, Final, S.Typed, Matches, M.CanPop, Cfg.Step, Cfg.Steps, DefineRegs;
    TypedEmits(fn, c);
    EmitsOperator(fn, c.pc);
    var s, c', op := Emitted(fn, c.pc), M.Step(fn, prim, c), fn.code[c.pc];
    TypedNotStuck(fn, c');
    MovesOn(fn, c');
    MatchedParts(fn, args, c, m);
    if op.LocalGet? {
      RunsDefine(fn, prim, args, c, m, Load(s.nextReg, op.index), 0, 1);
      DefineSim(fn, args, c, m, Load(s.nextReg, op.index), 0, [c.locals[op.index]], c', m.locals);
    } else {
      var v, i := Last(c.stack), Store(op.index, Last(s.stack));
      EvaluatesAt(m.env, args, s.stack, c.stack, |s.stack| - 1);
      var locals := m.locals[op.index := v];
      var n := if op.LocalSet? then 1 else 0;
      RunsDefine(fn, prim, args, c, m, i, n, 0);
      DefineSim(fn, args, c, m, i, n, [], c', locals);
    }
    k := 1;
  }

  lemma SelectSim(fn: FunctionDef, prim: M.Primitives, args: seq<M.Value>, c: M.Config, m: Cfg.State) returns (k: nat)
    requires Accepted(fn) && c.Run? && Ready(fn, prim, args, c, m) && c.pc < |fn.code| && fn.code[c.pc].Select?
    ensures Answers(fn, prim, args, c, m, k)
  {
    hide IsEmission, IsRun, Inv, Locked, Final, S.Typed, Matches, Cfg.Step, Cfg.Steps, DefineRegs, M.HaveTypes;
    TypedEmits(fn, c);
    EmitsOperator(fn, c.pc);
    var s, c' := Emitted(fn, c.pc), M.Step(fn, prim, c);
    var n := |s.stack|;
    TypedNotStuck(fn, c');
    MovesOn(fn, c');
    MatchedParts(fn, args, c, m);
    EvaluatesAt(m.env, args, s.stack, c.stack, n - 1);
    EvaluatesAt(m.env, args, s.stack, c.stack, n - 2);
    EvaluatesAt(m.env, args, s.stack, c.stack, n - 3);
    var i := Choose(s.nextReg, s.stack[n - 1], s.stack[n - 3], s.stack[n - 2]);
    var top := Top(c.stack, 3);
    assert top[0] == c.stack[n - 3] && top[1] == c.stack[n - 2] && top[2] == c.stack[n - 1];
    var chosen := if top[2].bits != 0 then top[0] else top[1];
    RunsDefine(fn, prim, args, c, m, i, 3, 1);
    DefineSim(fn, args, c, m, i, 3, [chosen], c', m.locals);
    k := 1;
  }

  lemma PlainSim(fn: FunctionDef, prim: M.Primitives, args: seq<M.Value>, c: M.Config, m: Cfg.State) returns (k: nat)
    requires Accepted(fn) && c.Run? && Ready(fn, prim, args, c, m) && c.pc < |fn.code| && fn.code[c.pc].Plain?
    requires M.Respects(prim, fn)
    ensures Answers(fn, prim, args, c, m, k)
  {
    hide IsEmission, IsRun, Inv, Locked, Final, S.Typed, Matches, Cfg.Step, Cfg.Steps, DefineRegs, WellFormed, Answers;
    TypedEmits(fn, c);
    EmitsOperator(fn, c.pc);
    var s, c', op := Emitted(fn, c.pc), M.Step(fn, prim, c), fn.code[c.pc];
    var sig, n := op.sig, |s.stack| - |op.sig.params|;
    TypedNotStuck(fn, c');
    MatchedParts(fn, args, c, m);
    var vs := s.stack[n..];
    SplitEvaluates(m.env, args, s.stack, c.stack, n);
    var vals := Top(c.stack, |sig.params|);
    assert EvalAll(m.env, args, vs) == vals;
    var i, outcome := Compute(s.nextReg, |sig.results|, op.id, vs), prim(op.id, vals, c.world);
    RunsDefine(fn, prim, args, c, m, i, |sig.params|, |sig.results|);
    k := 1;
    if outcome.Results? {
      assert |outcome.values| == |sig.results|;
      MovesOn(fn, c');
      DefineSim(fn, args, c, m, i, |sig.params|, outcome.values, c', m.locals);
      AnswersRun(fn, prim, args, c, m, c');
    } else {
      AnswersTrap(fn, prim, args, c, m, outcome.trapWorld);
    }
  }

  lemma AnswersRun(fn: FunctionDef, prim: M.Primitives, args: seq<M.Value>, c: M.Config, m: Cfg.State, c': M.Config)
    requires Accepted(fn) && c.Run? && c' == M.Step(fn, prim, c) && c'.Run?
    requires Matches(fn, args, c', Cfg.Steps(Final(fn), prim, args, m, 1))
    ensures Answers(fn, prim, args, c, m, 1)
  {
    hide IsEmission, IsRun, Matches, M.Step;
  }

  lemma AnswersTrap(fn: FunctionDef, prim: M.Primitives, args: seq<M.Value>, c: M.Config, m: Cfg.State, w: M.World)
    requires Accepted(fn) && c.Run? && M.Step(fn, prim, c) == M.Trapped(w)
    requires Cfg.Steps(Final(fn), prim, args, m, 1) == Trap(w)
    ensures Answers(fn, prim, args, c, m, 1)
  {
    hide IsEmission, IsRun, M.Step;
  }

  // ----- openers -----

  lemma BlockSim(fn: FunctionDef, prim: M.Primitives, args: seq<M.Value>, c: M.Config, m: Cfg.State) returns (k: nat)
    requires Accepted(fn) && c.Run? && Ready(fn, prim, args, c, m) && c.pc < |fn.code| && fn.code[c.pc].Block?
    ensures Answers(fn, prim, args, c, m, k)
  {
    hide IsEmission, IsRun, Inv, Locked, Final, S.Typed, Matches, BlockOp, ResolveBlockType, M.CanPop, PhiBlock;
    TypedEmits(fn, c);
    OpenerEmission(fn, c.pc);
    var s, c' := Emitted(fn, c.pc), M.Step(fn, prim, c);
    BlockForm(s, ResolveBlockType(fn.mod, fn.code[c.pc].bt).value);
    TypedNotStuck(fn, c');
    MovesOn(fn, c');
    MatchedParts(fn, args, c, m);
    MatchedAgain(fn, args, c', m);
    k := 0;
  }

  /** The emitted form of a reached loop. */
  lemma LoopEmission(fn: FunctionDef, c: M.Config)
    requires Accepted(fn) && S.Typed(fn, c) && c.Run? && c.pc < |fn.code| && fn.code[c.pc].Loop?
    ensures ResolveBlockType(fn.mod, fn.code[c.pc].bt).Some?
    ensures var s, r, t := Emitted(fn, c.pc), Emitted(fn, c.pc + 1), ResolveBlockType(fn.mod, fn.code[c.pc].bt).value;
            && r.control != [] && r.targets != [] && |t.params| <= |s.stack| && s.insert < |s.blocks| && s.insert < |r.blocks|
            && var target, n := Last(r.targets), |s.stack| - |t.params|;
            && Last(r.control).outer == n && |target.phis| == |t.params| && target.block < |r.blocks|
            && PhisAre(r.blocks[target.block], target.phis)
            && BlockCarries(r.blocks[target.block], s.insert, target.phis, s.stack[n..])
            && r.blocks[s.insert].code == s.blocks[s.insert].code + [Jump(target.block)]
  {
    hide IsEmission, IsRun, Inv, Locked, Final, S.Typed, LoopOp, ResolveBlockType, PhisAre, BlockCarries, Sealed, Grown,
         AddAll,
         Emitter.After, LoopBlocks;
    TypedEmits(fn, c);
    EmitsOperator(fn, c.pc);
    OpenerEmission(fn, c.pc);
    var s, t := Emitted(fn, c.pc), ResolveBlockType(fn.mod, fn.code[c.pc].bt).value;
    LoopForm(s, t);
    LoopGraph(s, t);
    EmittedOk(fn, c.pc + 1);
    TargetSettled(Emitted(fn, c.pc + 1), |Emitted(fn, c.pc + 1).targets| - 1);
  }

  lemma LoopSim(fn: FunctionDef, prim: M.Primitives, args: seq<M.Value>, c: M.Config, m: Cfg.State) returns (k: nat)
    requires Accepted(fn) && c.Run? && Ready(fn, prim, args, c, m) && c.pc < |fn.code| && fn.code[c.pc].Loop?
    ensures Answers(fn, prim, args, c, m, k)
  {
    hide IsEmission, IsRun, Inv, Locked, Final, S.Typed, Matches, ResolveBlockType, M.CanPop, PhisAre, BlockCarries,
         Edge, Execute,
         Evaluates, LocalsMatch, Extends;
    TypedEmits(fn, c);
    LoopEmission(fn, c);
    var s, r, c' := Emitted(fn, c.pc), Emitted(fn, c.pc + 1), M.Step(fn, prim, c);
    var t := ResolveBlockType(fn.mod, fn.code[c.pc].bt).value;
    var n, target := |s.stack| - |t.params|, Last(r.targets);
    TypedNotStuck(fn, c');
    MovesOn(fn, c');
    MatchedParts(fn, args, c, m);
    SplitEvaluates(m.env, args, s.stack, c.stack, n);
    assert Targets(r.blocks[s.insert]) == [target.block];
    JumpToLoop(fn, args, m, c.pc, c.pc + 1, s.stack[n..], c.stack[n..], c.stack[..n]);
    assert c.stack[..n] + c.stack[n..] == c.stack;
    FinalExtends(fn, c.pc + 1);
    RunsInstruction(fn, prim, args, m, r.blocks, Jump(target.block));
    JumpExecutes(fn, prim, args, m, target.block);
    Arrive(fn, args, c', Edge(Final(fn), args, m, target.block));
    k := FinishBranch(fn, prim, args, c, m, c');
  }

  /** The emitted form of a reached `if`. */
  lemma IfEmission(fn: FunctionDef, o: nat)
    requires Accepted(fn) && o < |fn.code| && fn.code[o].If? && EmitsAt(fn, o)
    ensures ResolveBlockType(fn.mod, fn.code[o].bt).Some?
    ensures var s, r, t := Emitted(fn, o), Emitted(fn, o + 1), ResolveBlockType(fn.mod, fn.code[o].bt).value;
            && r.control != [] && |t.params| + 1 <= |s.stack| && s.insert < |s.blocks| && |s.blocks| + 2 < |r.blocks|
            && var b, n, top := |s.blocks|, |s.stack| - 1 - |t.params|, Last(r.control);
            && top.outer == n && top.elseBlock == Some(b + 1) && top.elseArgs == s.stack[n..|s.stack| - 1]
            && r.insert == b && r.stack == s.stack[..|s.stack| - 1]
            && r.blocks[s.insert].code == s.blocks[s.insert].code + [CondJump(Last(s.stack), b, b + 1)]
            && r.blocks[b] == r.blocks[b + 1] == BasicBlock(map[], [])
  {
    hide IsEmission, IsRun, Inv, Locked, Final, IfOp, ResolveBlockType, Sealed, Grown, Emitter.After, PhiBlock;
    EmitsOperator(fn, o);
    OpenerEmission(fn, o);
    var s, t := Emitted(fn, o), ResolveBlockType(fn.mod, fn.code[o].bt).value;
    IfForm(s, t);
    IfGraph(s, t);
    SealedExtends(IfBlocks(s, t), s.insert, Emitted(fn, o + 1).blocks);
  }

  /** The emitter's state at the `else` of an emitted `if`. */
  lemma ElseContext(fn: FunctionDef, o: nat)
    requires Accepted(fn) && o < |fn.code| && fn.code[o].If? && EmitsAt(fn, o) && FindElse(fn.code, o + 1, 0).Some?
    ensures o < FindElse(fn.code, o + 1, 0).value < |fn.code|
    ensures var s, t, u := Emitted(fn, o), Emitted(fn, o + 1), Emitted(fn, FindElse(fn.code, o + 1, 0).value);
            && t.control != [] && u.control != [] && u.skip == 0 && SameContext(Last(t.control), Last(u.control))
            && Last(t.control).outer <= |s.stack| && Last(t.control).outer <= |u.stack|
            && u.stack[..Last(t.control).outer] == s.stack[..Last(t.control).outer]
            && ElseOp(u) == Some(Emitted(fn, FindElse(fn.code, o + 1, 0).value + 1))
  {
    hide IsEmission, IsRun, Inv, V.Step, Emitter.After, ElseOp, ResolveBlockType, OpenThrough, SameContext, BlockOp,
         LoopOp, IfOp,
         Locked, Advances, FramedFrom, OutersOk, Framed, Shaped;
    var x, d := FindElse(fn.code, o + 1, 0).value, Depth(fn, o);
    ElsePosition(fn, o);
    EmitsLevel(fn, o);
    OpenerEmission(fn, o);
    EmissionAcross(fn, o, x);
    EmittedLevel(fn, x);
    EmittedStep(fn, x);
    ElseDispatch(fn, Emitted(fn, x));
  }

  /** At the `else` of an emitted `if`, emission moves to its else block with its arguments. */
  lemma ElseEmission(fn: FunctionDef, o: nat)
    requires Accepted(fn) && o < |fn.code| && fn.code[o].If? && EmitsAt(fn, o) && FindElse(fn.code, o + 1, 0).Some?
    ensures FindElse(fn.code, o + 1, 0).value < |fn.code|
    ensures var s, r := Emitted(fn, o), Emitted(fn, FindElse(fn.code, o + 1, 0).value + 1);
            && s.stack != [] && r.insert == |s.blocks| + 1 < |r.blocks|
            && r.blocks[r.insert].code == [] && r.stack == Front(s.stack)
  {
    hide IsEmission, IsRun, Inv, V.Step, Emitter.After, BranchToEnd, ResolveBlockType, Locked, ElseOp;
    var x := FindElse(fn.code, o + 1, 0).value;
    ElseContext(fn, o);
    IfEmission(fn, o);
    EmittedOk(fn, x);
    var s := Emitted(fn, o);
    ElseForm(Emitted(fn, x));
    var n := Last(Emitted(fn, o + 1).control).outer;
    assert s.stack[..n] + s.stack[n..|s.stack| - 1] == Front(s.stack);
  }

  lemma ElseDispatch(fn: FunctionDef, s: Emission)
    requires WellFormed(fn) && s.control != [] && s.skip == 0
    ensures Emitter.Step(fn, s, Else) == ElseOp(s)
  {
  }

  lemma ElseForm(s: Emission)
    requires Inv(s) && s.control != [] && ElseOp(s).Some?
    ensures var top, r := Last(s.control), ElseOp(s).value;
            && top.elseBlock.Some? && top.outer <= |s.stack| && r.insert == top.elseBlock.value < |r.blocks|
            && r.blocks[r.insert].code == [] && r.stack == s.stack[..top.outer] + top.elseArgs
            && BranchToEnd(s).Some? && r.blocks == BranchToEnd(s).value.blocks
  {
    hide Inv, Sealed, BlockCarries, BranchToEnd;
    BranchToEndSeals(s);
    SealedExtends(s.blocks, s.insert, BranchToEnd(s).value.blocks);
    EndSettled(s, |s.control| - 1);
  }

  /** A false `if` without `else` passes through its dummy else block to its end. */
  lemma NoElseEmission(fn: FunctionDef, o: nat)
    requires Accepted(fn) && o < |fn.code| && fn.code[o].If? && EmitsAt(fn, o) && FindElse(fn.code, o + 1, 0).None?
    ensures var e, s, t := MatchingEnd(fn, o), Emitted(fn, o), Emitted(fn, o + 1);
            var k := JoinGraph(fn, e);
            && t.control != []
            && var c, b := Last(t.control), |s.blocks| + 1;
            && b < |k| && c.endBlock < |k| && k[b].code == [Jump(c.endBlock)]
            && |c.endPhis| == |c.elseArgs| && PhisAre(k[c.endBlock], c.endPhis)
            && BlockCarries(k[c.endBlock], b, c.endPhis, c.elseArgs)
            && Consistent(k) && Extends(k, k) && Extends(k, Final(fn))
  {
    hide IsEmission, IsRun, Inv, V.Step, Emitter.After, BranchToEnd, DummyElse, ResolveBlockType, EndOp, Sealed,
         Consistent, Extends,
         PhisAre, BlockCarries, Final, HeightsAgree, Shaped, EndValues, OpenThrough;
    var e := MatchingEnd(fn, o);
    IfEmission(fn, o);
    EndOfConstruct(fn, o);
    EndEmission(fn, e);
    EmittedOk(fn, e);
    NoElseIdentity(fn, o);
    var u, v := Emitted(fn, e), ValidatorRuns.At(fn, e);
    var d := |u.control| - 1;
    assert Mirrors(v.control[d], u.control[d], u.targets[d], d, |u.blocks|);
    NoElseGraph(u);
    FinalExtends(fn, e + 1);
    ExtendsTransitive(JoinGraph(fn, e), Emitted(fn, e + 1).blocks, Final(fn));
    MildSelf(JoinGraph(fn, e), 0);
  }

  lemma NoElseGraph(s: Emission)
    requires Inv(s) && s.control != [] && EndOp(s).Some? && Last(s.control).elseBlock.Some?
    ensures var top := Last(s.control);
            && BranchToEnd(s).Some? && DummyElse(BranchToEnd(s).value, top).Some?
            && var k := DummyElse(BranchToEnd(s).value, top).value.blocks;
            && top.elseBlock.value < |k| && top.endBlock < |k| && |top.endPhis| == |top.elseArgs|
            && k[top.elseBlock.value].code == [Jump(top.endBlock)]
            && PhisAre(k[top.endBlock], top.endPhis)
            && BlockCarries(k[top.endBlock], top.elseBlock.value, top.endPhis, top.elseArgs)
  {
    hide Inv, BranchToEnd, DummyElse, Sealed, Consistent, Extends, PhisAre, BlockCarries, EraseEmpty, EndValues, EndOp;
    EndGraph(s);
    var top, s1 := Last(s.control), BranchToEnd(s).value;
    BranchToEndSeals(s);
    StackIndependent(s, s1);
    DummyElseSeals(s, s1.blocks);
    var k := DummyElse(s1, top).value.blocks;
    EndSettled(s, |s.control| - 1);
    SealedExtends(s.blocks, s.insert, s1.blocks);
    SealedExtends(s1.blocks, top.elseBlock.value, k);
    SamePhisAre(s.blocks, s1.blocks, s.insert, top.endBlock, top.endPhis);
    SamePhisAre(s1.blocks, k, top.elseBlock.value, top.endBlock, top.endPhis);
  }

  /** The first step of an `if`: into the then block or the else block. */
  lemma IfStep(fn: FunctionDef, prim: M.Primitives, args: seq<M.Value>, c: M.Config, m: Cfg.State)
    requires Accepted(fn) && c.Run? && Ready(fn, prim, args, c, m) && c.pc < |fn.code| && fn.code[c.pc].If?
    ensures c.stack != [] && EmitsAt(fn, c.pc)
    ensures var b := |Emitted(fn, c.pc).blocks|;
            Cfg.Step(Final(fn), prim, args, m) == m.(block := if Last(c.stack).bits != 0 then b else b + 1, index := 0)
    ensures Evaluates(m.env, args, Front(Emitted(fn, c.pc).stack), Front(c.stack))
  {
    hide IsEmission, IsRun, Final, S.Typed, Matches, ResolveBlockType, Edge, Execute, Evaluates, LocalsMatch, Extends,
         M.Step;
    TypedEmits(fn, c);
    IfEmission(fn, c.pc);
    MatchedParts(fn, args, c, m);
    var s, r := Emitted(fn, c.pc), Emitted(fn, c.pc + 1);
    var b := |s.blocks|;
    var i := CondJump(Last(s.stack), b, b + 1);
    EvaluatesAt(m.env, args, s.stack, c.stack, |s.stack| - 1);
    SplitEvaluates(m.env, args, s.stack, c.stack, |s.stack| - 1);
    FinalExtends(fn, c.pc + 1);
    RunsInstruction(fn, prim, args, m, r.blocks, i);
    CondExecutes(fn, prim, args, m, i, Last(c.stack));
    BareInFinal(fn, c.pc + 1, b);
    BareInFinal(fn, c.pc + 1, b + 1);
    BareEdgeTaken(Final(fn), args, m, b);
    BareEdgeTaken(Final(fn), args, m, b + 1);
  }

  lemma IfSim(fn: FunctionDef, prim: M.Primitives, args: seq<M.Value>, c: M.Config, m: Cfg.State) returns (k: nat)
    requires Accepted(fn) && c.Run? && Ready(fn, prim, args, c, m) && c.pc < |fn.code| && fn.code[c.pc].If?
    ensures Answers(fn, prim, args, c, m, k)
  {
    hide IsEmission, IsRun, Final, S.Typed, Matches, ResolveBlockType, Evaluates, LocalsMatch, M.CanPop, EmitsAt,
         Cfg.Step, Answers;
    IfStep(fn, prim, args, c, m);
    MatchedParts(fn, args, c, m);
    var c', n := M.Step(fn, prim, c), Cfg.Step(Final(fn), prim, args, m);
    TypedNotStuck(fn, c');
    MovesOn(fn, c');
    IfEmission(fn, c.pc);
    if Last(c.stack).bits != 0 {
      Arrive(fn, args, c', n);
      k := FinishBranch(fn, prim, args, c, m, c');
    } else if FindElse(fn.code, c.pc + 1, 0).Some? {
      ElseEmission(fn, c.pc);
      Arrive(fn, args, c', n);
      k := FinishBranch(fn, prim, args, c, m, c');
    } else {
      SkipSim(fn, prim, args, c, n);
      OneStep(Final(fn), prim, args, m);
      k := 2;
      AnswersTwo(fn, prim, args, c, m, c');
    }
  }

  lemma AnswersTwo(fn: FunctionDef, prim: M.Primitives, args: seq<M.Value>, c: M.Config, m: Cfg.State, c': M.Config)
    requires Accepted(fn) && c.Run? && c' == M.Step(fn, prim, c) && c'.Run?
    requires Matches(fn, args, c', Cfg.Steps(Final(fn), prim, args, m, 2))
    ensures Answers(fn, prim, args, c, m, 2)
  {
    hide IsEmission, IsRun, Matches, M.Step;
  }

  /** From the dummy else block of a false `if` without `else`, one jump leads behind its end. */
  lemma SkipSim(fn: FunctionDef, prim: M.Primitives, args: seq<M.Value>, c: M.Config, m: Cfg.State)
    requires Accepted(fn) && c.Run? && S.Typed(fn, c) && c.pc < |fn.code| && fn.code[c.pc].If? && EmitsAt(fn, c.pc)
    requires FindElse(fn.code, c.pc + 1, 0).None? && c.stack != [] && Last(c.stack).bits == 0
    requires S.Typed(fn, M.Step(fn, prim, c)) && M.Step(fn, prim, c).Run?
    requires m.At? && m.block == |Emitted(fn, c.pc).blocks| + 1 && m.index == 0 && Emitted(fn, c.pc).stack != []
    requires Evaluates(m.env, args, Front(Emitted(fn, c.pc).stack), Front(c.stack))
    requires LocalsMatch(c.locals, m.locals) && m.world == c.world
    ensures Matches(fn, args, M.Step(fn, prim, c), Cfg.Step(Final(fn), prim, args, m))
  {
    hide IsEmission, IsRun, Final, S.Typed, Matches, ResolveBlockType, Evaluates, LocalsMatch, M.CanPop, EmitsAt,
         Cfg.Step,
         Consistent, Extends, PhisAre, BlockCarries, Edge, Execute;
    var o, s, t := c.pc, Emitted(fn, c.pc), Emitted(fn, c.pc + 1);
    var e := MatchingEnd(fn, o);
    IfEmission(fn, o);
    NoElseEmission(fn, o);
    var top, k, c' := Last(t.control), JoinGraph(fn, e), M.Step(fn, prim, c);
    var n, vs := top.outer, Front(s.stack);
    EvaluatesLength(m.env, args, vs, Front(c.stack));
    SplitEvaluates(m.env, args, vs, Front(c.stack), n);
    assert vs[..n] == s.stack[..n] && vs[n..] == top.elseArgs;
    assert Targets(k[m.block]) == [top.endBlock];
    JumpToEnd(fn, args, m, o, k, top.elseArgs, Front(c.stack)[n..], Front(c.stack)[..n]);
    assert Front(c.stack)[..n] + Front(c.stack)[n..] == Front(c.stack);
    RunsInstruction(fn, prim, args, m, k, Jump(top.endBlock));
    JumpExecutes(fn, prim, args, m, top.endBlock);
    MovesOn(fn, c');
    Arrive(fn, args, c', Edge(Final(fn), args, m, top.endBlock));
  }

  // ----- else and end -----

  /** Falling through to the end of the innermost construct, from its `else` or its `end`. */
  lemma FallSim(fn: FunctionDef, prim: M.Primitives, args: seq<M.Value>, c: M.Config, m: Cfg.State, g: Graph)
    requires Accepted(fn) && c.Run? && Ready(fn, prim, args, c, m) && c.pc < |fn.code| && c.labels != []
    requires M.Step(fn, prim, c).Run? && Last(c.labels).opener < |fn.code| && fn.code[Last(c.labels).opener].Opens()
    requires M.Step(fn, prim, c) == c.(pc := MatchingEnd(fn, Last(c.labels).opener) + 1, labels := Front(c.labels))
    requires var s := Emitted(fn, c.pc);
             && BranchToEnd(s).Some? && g == BranchToEnd(s).value.blocks
             && Extends(g, JoinGraph(fn, MatchingEnd(fn, Last(c.labels).opener))) && Extends(g, Final(fn))
    ensures Matches(fn, args, M.Step(fn, prim, c), Cfg.Step(Final(fn), prim, args, m))
  {
    hide IsEmission, IsRun, Final, S.Typed, Matches, Evaluates, LocalsMatch, M.Step, EmitsAt, Cfg.Step, Inv,
         OpenThrough,
         Consistent, Extends, PhisAre, BlockCarries, Edge, Execute, BranchToEnd, Sealed, JoinGraph;
    var s, k, c' := Emitted(fn, c.pc), |c.labels| - 1, M.Step(fn, prim, c);
    var l := c.labels[k];
    TypedEmits(fn, c);
    EmitsOperator(fn, c.pc);
    LabelEmission(fn, c, k);
    MatchedParts(fn, args, c, m);
    BranchToEndSeals(s);
    SealedExtends(s.blocks, s.insert, g);
    EndSettled(s, k + 1);
    var top, t := Last(s.control), Last(Emitted(fn, l.opener + 1).control);
    SamePhisAre(s.blocks, g, s.insert, top.endBlock, top.endPhis);
    SplitEvaluates(m.env, args, s.stack, c.stack, top.outer);
    assert Targets(g[s.insert]) == [top.endBlock];
    JumpToEnd(fn, args, m, l.opener, g, s.stack[top.outer..], c.stack[top.outer..], c.stack[..top.outer]);
    assert c.stack[..top.outer] + c.stack[top.outer..] == c.stack;
    RunsInstruction(fn, prim, args, m, g, Jump(top.endBlock));
    JumpExecutes(fn, prim, args, m, top.endBlock);
    MovesOn(fn, c');
    Arrive(fn, args, c', Edge(Final(fn), args, m, top.endBlock));
  }

  lemma ElseSim(fn: FunctionDef, prim: M.Primitives, args: seq<M.Value>, c: M.Config, m: Cfg.State) returns (k: nat)
    requires Accepted(fn) && c.Run? && Ready(fn, prim, args, c, m) && c.pc < |fn.code| && fn.code[c.pc].Else?
    ensures Answers(fn, prim, args, c, m, k)
  {
    hide IsEmission, IsRun, Final, S.Typed, Matches, Inv, M.CanPop, EmitsAt, Cfg.Step, Extends, BranchToEnd, JoinGraph,
         OpenThrough,
         ElseOp, Answers;
    var c', s := M.Step(fn, prim, c), Emitted(fn, c.pc);
    TypedNotStuck(fn, c');
    TypedEmits(fn, c);
    EmitsOperator(fn, c.pc);
    LabelEmission(fn, c, |c.labels| - 1);
    var o := Last(c.labels).opener;
    ElseForm(s);
    EndOfConstruct(fn, o);
    GraphAtEnd(fn, c.pc + 1, MatchingEnd(fn, o));
    FinalExtends(fn, c.pc + 1);
    FallSim(fn, prim, args, c, m, Emitted(fn, c.pc + 1).blocks);
    k := FinishBranch(fn, prim, args, c, m, c');
  }

  lemma EndSim(fn: FunctionDef, prim: M.Primitives, args: seq<M.Value>, c: M.Config, m: Cfg.State) returns (k: nat)
    requires Accepted(fn) && c.Run? && Ready(fn, prim, args, c, m) && c.pc < |fn.code| && fn.code[c.pc].End?
    ensures Answers(fn, prim, args, c, m, k)
  {
    hide IsEmission, IsRun, Final, S.Typed, Matches, Inv, M.CanPop, EmitsAt, Cfg.Step, Extends, BranchToEnd, JoinGraph,
         OpenThrough,
         EndOp, Answers, Consistent, EndValues;
    var c', s := M.Step(fn, prim, c), Emitted(fn, c.pc);
    TypedNotStuck(fn, c');
    TypedEmits(fn, c);
    EndEmission(fn, c.pc);
    var g, j := BranchToEnd(s).value.blocks, JoinGraph(fn, c.pc);
    FinalExtends(fn, c.pc + 1);
    ExtendsTransitive(g, j, Emitted(fn, c.pc + 1).blocks);
    ExtendsTransitive(g, Emitted(fn, c.pc + 1).blocks, Final(fn));
    if c.labels == [] {
      FinishSim(fn, prim, args, c, m, g);
    } else {
      S.EndMatches(fn, c);
      LabelEmission(fn, c, |c.labels| - 1);
      FallSim(fn, prim, args, c, m, g);
    }
    k := FinishBranch(fn, prim, args, c, m, c');
  }

  /** The `end` of the function jumps to the return block. */
  lemma FinishSim(fn: FunctionDef, prim: M.Primitives, args: seq<M.Value>, c: M.Config, m: Cfg.State, g: Graph)
    requires Accepted(fn) && c.Run? && Ready(fn, prim, args, c, m) && c.pc < |fn.code| && fn.code[c.pc].End? && c.labels == []
    requires BranchToEnd(Emitted(fn, c.pc)).Some? && g == BranchToEnd(Emitted(fn, c.pc)).value.blocks
    requires Extends(g, JoinGraph(fn, c.pc)) && Extends(g, Final(fn))
    ensures var c' := M.Step(fn, prim, c);
            && c'.Done?
            && Cfg.Step(Final(fn), prim, args, Cfg.Step(Final(fn), prim, args, m)) == Returned(c'.results, c'.doneWorld)
  {
    hide IsEmission, IsRun, Final, S.Typed, Matches, Inv, M.HaveTypes, EmitsAt, Cfg.Step, Extends, BranchToEnd,
         JoinGraph, Sealed,
         Evaluates, PhisAre, BlockCarries, Edge, Execute, Consistent;
    var s, c' := Emitted(fn, c.pc), M.Step(fn, prim, c);
    TypedNotStuck(fn, c');
    TypedEmits(fn, c);
    EmitsOperator(fn, c.pc);
    MatchedParts(fn, args, c, m);
    RootEmission(fn, c.pc);
    BranchToEndSeals(s);
    SealedExtends(s.blocks, s.insert, g);
    EndSettled(s, 0);
    SamePhisAre(s.blocks, g, s.insert, RETURN, s.control[0].endPhis);
    assert Targets(g[s.insert]) == [RETURN];
    OnlyLastEnd(fn, c.pc);
    SplitEvaluates(m.env, args, s.stack, c.stack, 0);
    assert s.stack[0..] == s.stack && c.stack[0..] == c.stack;
    JumpToReturn(fn, prim, args, m, g, s.stack, c.stack);
    RunsInstruction(fn, prim, args, m, g, Jump(RETURN));
    JumpExecutes(fn, prim, args, m, RETURN);
    assert Top(c.stack, |c.stack|) == c.stack;
  }

  /** The function's own `end` is the last operator. */
  lemma OnlyLastEnd(fn: FunctionDef, n: nat)
    requires Accepted(fn) && n < |fn.code| && fn.code[n].End? && |Emitted(fn, n).control| == 1 && Emitted(fn, n).skip == 0
    ensures n == |fn.code| - 1
  {
    hide IsEmission, IsRun, V.Step, Framed, Shaped;
    EmittedLevel(fn, n);
    AtStep(fn, n);
    if n + 1 < |fn.code| {
      AtStep(fn, n + 1);
    }
  }
}
