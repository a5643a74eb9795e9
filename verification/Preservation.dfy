/** Meaning preservation: the emitted graph, run from any arguments, ends with exactly the
    results or trap of the reference machine, and runs on exactly when the machine does. */
module Preservation {
  import opened IR
  import opened Wrappers
  import opened ValidatorRuns
  import V = Validator
  import M = StackMachine
  import opened Cfg
  import opened Emitter
  import opened GraphFacts
  import opened EmitterFacts
  import opened EmitterRuns
  import opened Arrivals
  import opened Simulation
  import S = Soundness

  /** Every step of the machine is answered by the graph. */
  lemma StepSim(fn: FunctionDef, prim: M.Primitives, args: seq<M.Value>, c: M.Config, m: Cfg.State) returns (k: nat)
    requires Accepted(fn) && S.Typed(fn, c) && c.Run? && Matches(fn, args, c, m) && M.Respects(prim, fn)
    ensures Answers(fn, prim, args, c, m, k)
  {
    hide IsEmission, IsRun, S.Typed, Matches, Answers, M.Step, M.Respects, WellFormed, Final;
    S.StepTyped(fn, prim, c);
    MovesOn(fn, c);
    match fn.code[c.pc] {
      case Block(_) => k := BlockSim(fn, prim, args, c, m);
      case Loop(_) => k := LoopSim(fn, prim, args, c, m);
      case If(_) => k := IfSim(fn, prim, args, c, m);
      case Else => k := ElseSim(fn, prim, args, c, m);
      case End => k := EndSim(fn, prim, args, c, m);
      case Br(_) => k := BrSim(fn, prim, args, c, m);
      case BrIf(_) => k := BrIfSim(fn, prim, args, c, m);
      case BrTable(_, _) => k := BrTableSim(fn, prim, args, c, m);
      case Return => k := ReturnSim(fn, prim, args, c, m);
      case Unreachable => k := UnreachableSim(fn, prim, args, c, m);
      case Drop => k := DropSim(fn, prim, args, c, m);
      case Select(_) => k := SelectSim(fn, prim, args, c, m);
      case LocalGet(_) => k := LocalSim(fn, prim, args, c, m);
      case LocalSet(_) => k := LocalSim(fn, prim, args, c, m);
      case LocalTee(_) => k := LocalSim(fn, prim, args, c, m);
      case Plain(_, _, _) => k := PlainSim(fn, prim, args, c, m);
    }
  }

  // ----- the entry block -----

  lemma {:induction false} StoresAt(numParams: nat, types: seq<ValueType>, i: nat, j: nat)
    requires i <= j < |types|
    ensures |StoreLocals(numParams, types, i)| == |types| - i
    ensures StoreLocals(numParams, types, i)[j - i] == Store(j, if j < numParams then Param(j) else ZeroOf(types[j]))
    decreases j - i
  {
    StoresLength(numParams, types, i);
    if i < j {
      StoresAt(numParams, types, i + 1, j);
    }
  }

  lemma {:induction false} StoresLength(numParams: nat, types: seq<ValueType>, i: nat)
    requires i <= |types|
    ensures |StoreLocals(numParams, types, i)| == |types| - i
    decreases |types| - i
  {
    if i < |types| {
      StoresLength(numParams, types, i + 1);
    }
  }

  lemma EntryBlock(fn: FunctionDef)
    requires Accepted(fn)
    ensures var s := Emitted(fn, 0);
            && s.insert == ENTRY < |s.blocks| && s.stack == []
            && s.blocks[ENTRY].code == StoreLocals(|Signature(fn).params|, LocalTypes(fn), 0)
  {
    hide IsEmission, IsRun, Inv, StoreLocals;
    EmittedOk(fn, 0);
  }

  /** The store of one local, taken from the entry block, leaves the initial value of that local. */
  lemma StoreRuns(fn: FunctionDef, prim: M.Primitives, args: seq<M.Value>, m: Cfg.State, j: nat)
    requires Accepted(fn) && |args| == |Signature(fn).params| && j < |LocalTypes(fn)|
    requires m.At? && m.block == ENTRY && m.index == j
    ensures j < |args + M.Zeros(fn.localTypes)|
    ensures Cfg.Step(Final(fn), prim, args, m)
         == m.(index := j + 1, locals := m.locals[j := (args + M.Zeros(fn.localTypes))[j]])
  {
    hide IsEmission, IsRun, Inv, Final, StoreLocals, Extends;
    EntryBlock(fn);
    StoresAt(|Signature(fn).params|, LocalTypes(fn), 0, j);
    FinalExtends(fn, 0);
    var i := Store(j, if j < |args| then Param(j) else ZeroOf(LocalTypes(fn)[j]));
    RunsInstruction(fn, prim, args, m, Emitted(fn, 0).blocks, i);
    assert Eval(m.env, args, i.val) == Some((args + M.Zeros(fn.localTypes))[j]);
  }

  /** After `j` steps the entry block has stored the first `j` locals. */
  lemma {:induction false} StoresRun(fn: FunctionDef, prim: M.Primitives, args: seq<M.Value>, w: M.World, j: nat)
    requires Accepted(fn) && |args| == |Signature(fn).params| && j <= |LocalTypes(fn)|
    ensures var m := Cfg.Steps(Final(fn), prim, args, Cfg.Start(w), j);
            && m.At? && m == At(ENTRY, j, map[], m.locals, w)
            && LocalsMatch((args + M.Zeros(fn.localTypes))[..j], m.locals)
  {
    hide Accepted, Final, Cfg.Step;
    if j > 0 {
      StoresRun(fn, prim, args, w, j - 1);
      var m := Cfg.Steps(Final(fn), prim, args, Cfg.Start(w), j - 1);
      StoreRuns(fn, prim, args, m, j - 1);
      var all := args + M.Zeros(fn.localTypes);
      assert all[..j - 1] == all[..j][..j - 1];
    }
  }

  lemma StartSim(fn: FunctionDef, prim: M.Primitives, args: seq<M.Value>, w: M.World) returns (k: nat)
    requires Accepted(fn) && M.HaveTypes(args, Signature(fn).params)
    ensures Matches(fn, args, M.Start(fn, args, w), Cfg.Steps(Final(fn), prim, args, Cfg.Start(w), k))
  {
    hide IsEmission, IsRun, Inv, Final, StoreLocals;
    k := |LocalTypes(fn)|;
    StoresRun(fn, prim, args, w, k);
    EntryBlock(fn);
    StoresLength(|Signature(fn).params|, LocalTypes(fn), 0);
    LastOperator(fn);
    var all := args + M.Zeros(fn.localTypes);
    assert all[..k] == all;
  }

  // ----- whole runs -----

  lemma {:induction false} StepsCompose(g: Graph, prim: M.Primitives, args: seq<M.Value>, m: Cfg.State, j: nat, k: nat)
    ensures Cfg.Steps(g, prim, args, m, j + k) == Cfg.Steps(g, prim, args, Cfg.Steps(g, prim, args, m, j), k)
    decreases k
  {
    hide Cfg.Step;
    if k > 0 {
      StepsCompose(g, prim, args, m, j, k - 1);
      assert j + k - 1 == j + (k - 1);
    }
  }

  /** A finished graph stays finished. */
  lemma Finished(g: Graph, prim: M.Primitives, args: seq<M.Value>, m: Cfg.State, j: nat, k: nat)
    requires j <= k && !Cfg.Steps(g, prim, args, m, j).At?
    ensures Cfg.Steps(g, prim, args, m, k) == Cfg.Steps(g, prim, args, m, j)
    decreases k
  {
    if j < k {
      Finished(g, prim, args, m, j, k - 1);
    }
  }

  /** `k` steps of the graph keep up with `n` steps of the machine over a body of `size` operators. */
  predicate KeepsUp(size: nat, n: nat, c: M.Config, k: nat) {
    c.Run? ==> n <= k * (size + 1) + c.pc
  }

  lemma KeepsUpNext(size: nat, n: nat, c: M.Config, c': M.Config, k: nat, j: nat)
    requires KeepsUp(size, n, c, k) && c.Run? && c.pc < size && (j > 0 || (c'.Run? && c'.pc > c.pc))
    ensures KeepsUp(size, n + 1, c', k + j)
  {
    if j > 0 && c'.Run? {
      assert (k + j) * (size + 1) == k * (size + 1) + j * (size + 1);
      assert j * (size + 1) >= size + 1 by { Scales(j, size + 1); }
    }
  }

  lemma Scales(j: nat, x: nat)
    requires j > 0
    ensures j * x >= x
  {
    assert j * x == (j - 1) * x + x;
  }

  /** After any number of machine steps, the graph can be run to a related state. */
  lemma {:induction false} RunSim(fn: FunctionDef, prim: M.Primitives, args: seq<M.Value>, w: M.World, n: nat)
      returns (k: nat)
    requires Accepted(fn) && M.HaveTypes(args, Signature(fn).params) && M.Respects(prim, fn)
    ensures Related(fn, args, M.Steps(fn, prim, M.Start(fn, args, w), n), Cfg.Steps(Final(fn), prim, args, Cfg.Start(w), k))
    ensures KeepsUp(|fn.code|, n, M.Steps(fn, prim, M.Start(fn, args, w), n), k)
  {
    hide IsEmission, IsRun, Final, Matches, M.Step, M.Respects, M.HaveTypes, Cfg.Step, S.Typed, KeepsUp, WellFormed;
    if n == 0 {
      k := StartSim(fn, prim, args, w);
      assert KeepsUp(|fn.code|, 0, M.Start(fn, args, w), k) by { StartKeepsUp(fn, args, w, k); }
    } else {
      var i := RunSim(fn, prim, args, w, n - 1);
      var c, m := M.Steps(fn, prim, M.Start(fn, args, w), n - 1), Cfg.Steps(Final(fn), prim, args, Cfg.Start(w), i);
      S.StepsTyped(fn, prim, args, w, n - 1);
      if c.Run? {
        var j := StepSim(fn, prim, args, c, m);
        StepsCompose(Final(fn), prim, args, Cfg.Start(w), i, j);
        MovesOn(fn, c);
        KeepsUpNext(|fn.code|, n - 1, c, M.Step(fn, prim, c), i, j);
        k := i + j;
      } else {
        k := i;
        StaysFinished(fn, prim, c);
        assert KeepsUp(|fn.code|, n, c, k) by { FinishedKeepsUp(|fn.code|, n, c, k); }
      }
    }
  }

  lemma StartKeepsUp(fn: FunctionDef, args: seq<M.Value>, w: M.World, k: nat)
    ensures KeepsUp(|fn.code|, 0, M.Start(fn, args, w), k)
  {
  }

  lemma FinishedKeepsUp(size: nat, n: nat, c: M.Config, k: nat)
    requires !c.Run?
    ensures KeepsUp(size, n, c, k)
  {
  }

  lemma StaysFinished(fn: FunctionDef, prim: M.Primitives, c: M.Config)
    requires WellFormed(fn) && !c.Run?
    ensures M.Step(fn, prim, c) == c
  {
  }

  // ----- the theorem -----

  /** What a finished machine or graph yields. */
  datatype Yield = Values(results: seq<M.Value>, world: M.World) | Trapping(world: M.World)

  /** The machine, started on the arguments, finishes with this outcome. */
  ghost predicate MachineYields(fn: FunctionDef, prim: M.Primitives, args: seq<M.Value>, w: M.World, y: Yield)
    requires WellFormed(fn)
  {
    exists n: nat :: M.Steps(fn, prim, M.Start(fn, args, w), n)
                     == match y
                        case Values(results, w') => M.Done(results, w')
                        case Trapping(w') => M.Trapped(w')
  }

  /** The graph, started on the arguments, finishes with this outcome. */
  ghost predicate GraphYields(g: Graph, prim: M.Primitives, args: seq<M.Value>, w: M.World, y: Yield) {
    exists k: nat :: Cfg.Steps(g, prim, args, Cfg.Start(w), k)
                     == match y
                        case Values(results, w') => Returned(results, w')
                        case Trapping(w') => Trap(w')
  }

  /** If the graph is finished after `k` steps, the machine has finished with the same outcome. */
  lemma Agreement(fn: FunctionDef, prim: M.Primitives, args: seq<M.Value>, w: M.World, k: nat) returns (n: nat)
    requires Accepted(fn) && M.HaveTypes(args, Signature(fn).params) && M.Respects(prim, fn)
    requires !Cfg.Steps(Final(fn), prim, args, Cfg.Start(w), k).At?
    ensures var c := M.Steps(fn, prim, M.Start(fn, args, w), n);
            && !c.Run? && Related(fn, args, c, Cfg.Steps(Final(fn), prim, args, Cfg.Start(w), k))
  {
    hide IsEmission, IsRun, Final, M.Step, M.Respects, M.HaveTypes, Cfg.Step, S.Typed, Cfg.Steps, WellFormed;
    n := (k + 1) * (|fn.code| + 1) + |fn.code|;
    var j := RunSim(fn, prim, args, w, n);
    var c := M.Steps(fn, prim, M.Start(fn, args, w), n);
    S.StepsTyped(fn, prim, args, w, n);
    if c.Run? {
      MovesOn(fn, c);
      Overtakes(|fn.code|, k, j, c.pc);
      Finished(Final(fn), prim, args, Cfg.Start(w), k, j);
    } else if j <= k {
      Finished(Final(fn), prim, args, Cfg.Start(w), j, k);
    } else {
      Finished(Final(fn), prim, args, Cfg.Start(w), k, j);
    }
  }

  lemma Overtakes(size: nat, k: nat, j: nat, pc: nat)
    requires pc < size
    ensures j <= k ==> j * (size + 1) + pc < (k + 1) * (size + 1) + size
  {
    assert (k + 1) * (size + 1) == j * (size + 1) + (k + 1 - j) * (size + 1);
    if j <= k {
      Scales(k + 1 - j, size + 1);
    }
  }

  /** Meaning preservation. For every body the validator accepts, all arguments of the parameter
      types, every world and every meaning of the plain operators that respects their signatures:
      the emitted graph yields exactly what the machine yields, and never runs into undefined
      behaviour. */
  lemma MeaningPreserved(fn: FunctionDef, prim: M.Primitives, args: seq<M.Value>, w: M.World)
    requires V.Accepts(fn) && M.HaveTypes(args, Signature(fn).params) && M.Respects(prim, fn)
    ensures Emit(fn).Some?
    ensures forall y :: MachineYields(fn, prim, args, w, y) <==> GraphYields(Emit(fn).value, prim, args, w, y)
    ensures forall k: nat :: !Cfg.Steps(Emit(fn).value, prim, args, Cfg.Start(w), k).Undefined?
  {
    hide IsEmission, IsRun, M.Steps, M.Respects, M.HaveTypes, Cfg.Steps, V.Accepts, Emit;
    AcceptsIffRun(fn);
    EmitSucceeds(fn);
    var g := Final(fn);
    forall y | MachineYields(fn, prim, args, w, y) ensures GraphYields(g, prim, args, w, y) {
      ForwardYield(fn, prim, args, w, y);
    }
    forall y | GraphYields(g, prim, args, w, y) ensures MachineYields(fn, prim, args, w, y) {
      BackwardYield(fn, prim, args, w, y);
    }
    forall k: nat ensures !Cfg.Steps(g, prim, args, Cfg.Start(w), k).Undefined? {
      NeverUndefined(fn, prim, args, w, k);
    }
  }

  lemma ForwardYield(fn: FunctionDef, prim: M.Primitives, args: seq<M.Value>, w: M.World, y: Yield)
    requires Accepted(fn) && M.HaveTypes(args, Signature(fn).params) && M.Respects(prim, fn)
    requires MachineYields(fn, prim, args, w, y)
    ensures GraphYields(Final(fn), prim, args, w, y)
  {
    hide IsEmission, IsRun, Final, M.Steps, M.Respects, M.HaveTypes, Cfg.Steps;
    var n: nat :| M.Steps(fn, prim, M.Start(fn, args, w), n)
                  == match y
                     case Values(results, w') => M.Done(results, w')
                     case Trapping(w') => M.Trapped(w');
    var k := RunSim(fn, prim, args, w, n);
  }

  lemma BackwardYield(fn: FunctionDef, prim: M.Primitives, args: seq<M.Value>, w: M.World, y: Yield)
    requires Accepted(fn) && M.HaveTypes(args, Signature(fn).params) && M.Respects(prim, fn)
    requires GraphYields(Final(fn), prim, args, w, y)
    ensures MachineYields(fn, prim, args, w, y)
  {
    hide IsEmission, IsRun, Final, M.Steps, M.Respects, M.HaveTypes, Cfg.Steps;
    var k: nat :| Cfg.Steps(Final(fn), prim, args, Cfg.Start(w), k)
                  == match y
                     case Values(results, w') => Returned(results, w')
                     case Trapping(w') => Trap(w');
    var n := Agreement(fn, prim, args, w, k);
  }

  lemma NeverUndefined(fn: FunctionDef, prim: M.Primitives, args: seq<M.Value>, w: M.World, k: nat)
    requires Accepted(fn) && M.HaveTypes(args, Signature(fn).params) && M.Respects(prim, fn)
    ensures !Cfg.Steps(Final(fn), prim, args, Cfg.Start(w), k).Undefined?
  {
    hide IsEmission, IsRun, Final, M.Steps, M.Respects, M.HaveTypes, Cfg.Steps;
    if !Cfg.Steps(Final(fn), prim, args, Cfg.Start(w), k).At? {
      var n := Agreement(fn, prim, args, w, k);
    }
  }
}
