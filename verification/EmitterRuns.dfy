/** Whole runs of the emitter over an accepted body: no assertion fails, the two machines stay
    locked together, and the emitted graph is well formed. */
module EmitterRuns {
  import opened IR
  import opened Wrappers
  import V = Validator
  import opened ValidatorFacts
  import opened ValidatorRuns
  import opened Cfg
  import opened Emitter
  import opened GraphFacts
  import opened EmitterFacts
  import opened EmitterFrames
  import opened Lockstep
  import Soundness

  /** Operator `n` takes the emission from state `n` to state `n + 1`. */
  ghost predicate EmitsTo(fn: FunctionDef, run: seq<Emission>, n: nat)
    requires WellFormed(fn) && n < |fn.code| && |run| == |fn.code| + 1
  {
    Emitter.Step(fn, run[n], fn.code[n]) == Some(run[n + 1])
  }

  /** State `n` of the emission is the emitter's, is locked with the validator's, and is sound. */
  ghost predicate StateOk(fn: FunctionDef, run: seq<Emission>, n: nat)
    requires Accepted(fn) && n <= |fn.code| && |run| == |fn.code| + 1
  {
    && Emitter.After(fn, n) == Some(run[n])
    && Locked(ValidatorRuns.At(fn, n), run[n])
    && Inv(run[n])
  }

  /** The states of the emitter over a whole body. As for the validator, the quantifiers are
      triggered by naming an index. */
  ghost predicate IsEmission(fn: FunctionDef, run: seq<Emission>)
    requires Accepted(fn)
  {
    && |run| == |fn.code| + 1
    && (forall n {:trigger EmitsTo(fn, run, n)} :: 0 <= n < |fn.code| ==> EmitsTo(fn, run, n))
    && forall n {:trigger StateOk(fn, run, n)} :: 0 <= n <= |fn.code| ==> StateOk(fn, run, n)
  }

  lemma InitialInv(fn: FunctionDef)
    requires WellFormed(fn)
    ensures Inv(Emitter.Initial(fn))
  {
    var s, results := Emitter.Initial(fn), Signature(fn).results;
    var empty := Emission([], 0, 0, [], [], [], 0);
    var two := CreateBlock(CreateBlock(empty));
    CreatePhisFresh(two, RETURN, results);
    PhiBlockFacts(0, results);
    PhiBlockCode(0, results);
    var stores := StoreLocals(|Signature(fn).params|, LocalTypes(fn), 0);
    assert s.blocks == [BasicBlock(map[], stores), PhiBlock(0, results)];
    StoresStraight(|Signature(fn).params|, LocalTypes(fn), 0);
    StraightTargets(s.blocks[0]);
    assert s.control[0].endBlock == RETURN;
    InitialConsistent(s.blocks);
  }

  lemma InitialConsistent(g: Graph)
    requires |g| == 2 && Targets(g[0]) == [] && g[1].code == [] && NoEntries(g[1]) && g[0].phis == map[]
    ensures Consistent(g)
  {
    forall b, r, q: nat | 0 <= b < |g| && r in g[b].phis
      ensures EntriesFrom(g[b].phis[r], q) == EdgeCount(g, q, b)
    {
      assert Sources(g[b].phis[r].incoming) == [];
    }
  }

  lemma {:induction false} StoresStraight(numParams: nat, types: seq<ValueType>, i: nat)
    requires i <= |types|
    ensures Straight(StoreLocals(numParams, types, i))
    decreases |types| - i
  {
    if i < |types| {
      StoresStraight(numParams, types, i + 1);
    }
  }

  /** The emitter never fails on an accepted body, and mirrors the validator throughout. */
  lemma {:induction false} AfterLocked(fn: FunctionDef, n: nat)
    requires Accepted(fn) && n <= |fn.code|
    ensures Emitter.After(fn, n).Some?
    ensures Locked(ValidatorRuns.At(fn, n), Emitter.After(fn, n).value) && Inv(Emitter.After(fn, n).value)
  {
    hide V.Step, Emitter.Step, Inv, Advances, Locked, WellFormed, Emitter.Initial;
    if n == 0 {
      RunStart(fn);
      InitialLocked(fn);
      InitialInv(fn);
    } else {
      AfterLocked(fn, n - 1);
      RunStart(fn);
      AtStep(fn, n - 1);
      var s, op := Emitter.After(fn, n - 1).value, fn.code[n - 1];
      Soundness.RootContext(fn, n - 1);
      StepLocked(fn, ValidatorRuns.At(fn, n - 1), s, op);
      StepKeeps(fn, s, op);
      AdvanceInv(s, Emitter.Step(fn, s, op).value);
    }
  }

  lemma AdvanceInv(s: Emission, r: Emission)
    requires Advances(s, r)
    ensures Inv(r) && Extends(s.blocks, r.blocks) && s.nextReg <= r.nextReg
  {
  }

  lemma RunStart(fn: FunctionDef)
    requires Accepted(fn)
    ensures WellFormed(fn) && V.Initial(fn) == Some(ValidatorRuns.At(fn, 0))
    ensures forall i :: 0 <= i < |fn.code| ==> WellFormedOp(fn, fn.code[i])
  {
    assert StartsAt(fn, Trace(fn), 0);
  }

  lemma EmissionExists(fn: FunctionDef)
    requires Accepted(fn)
    ensures exists run :: IsEmission(fn, run)
  {
    hide Emitter.Step, Inv, Locked, Emitter.Initial;
    forall n: nat | n <= |fn.code|
      ensures Emitter.After(fn, n).Some?
      ensures Locked(ValidatorRuns.At(fn, n), Emitter.After(fn, n).value) && Inv(Emitter.After(fn, n).value)
    {
      AfterLocked(fn, n);
    }
    var run := seq(|fn.code| + 1, n requires 0 <= n <= |fn.code| && WellFormed(fn) && Emitter.After(fn, n).Some? =>
                                    Emitter.After(fn, n).value);
    assert IsEmission(fn, run);
  }

  ghost function Emissions(fn: FunctionDef): (run: seq<Emission>)
    requires Accepted(fn)
    ensures IsEmission(fn, run)
  {
    EmissionExists(fn);
    var run :| IsEmission(fn, run); run
  }

  /** The emitter's state before operator `n` of an accepted body. */
  ghost function Emitted(fn: FunctionDef, n: nat): Emission
    requires Accepted(fn) && n <= |fn.code|
  {
    Emissions(fn)[n]
  }

  lemma EmittedOk(fn: FunctionDef, n: nat)
    requires Accepted(fn) && n <= |fn.code|
    ensures Inv(Emitted(fn, n)) && Locked(ValidatorRuns.At(fn, n), Emitted(fn, n))
    ensures Emitter.After(fn, n) == Some(Emitted(fn, n))
  {
    hide Emitter.After, Inv, Locked;
    assert StateOk(fn, Emissions(fn), n);
  }

  lemma EmittedLevel(fn: FunctionDef, n: nat)
    requires Accepted(fn) && n <= |fn.code|
    ensures var s := Emitted(fn, n);
            && |s.control| + s.skip == Depth(fn, n) && |s.targets| == |s.control|
            && (s.control == [] ==> s.skip == 0)
  {
    hide Emitter.After, Inv, HeightsAgree;
    EmittedOk(fn, n);
  }

  lemma LockedOuters(v: V.State, s: Emission)
    requires Shaped(v) && Locked(v, s)
    ensures OutersOk(s)
  {
    forall k | 0 <= k < |s.control| ensures s.control[k].outer == v.control[k].outer {
      assert Mirrors(v.control[k], s.control[k], s.targets[k], k, |s.blocks|);
    }
    if s.control != [] {
      var n := |s.control| - 1;
      forall k | 0 <= k < |s.control| ensures s.control[k].outer <= |s.stack| {
        assert s.control[k].outer <= s.control[n].outer;
      }
    }
  }

  /** One operator of an accepted body. */
  lemma EmittedStep(fn: FunctionDef, n: nat)
    requires Accepted(fn) && n < |fn.code|
    ensures var s, r := Emitted(fn, n), Emitted(fn, n + 1);
            && Emitter.Step(fn, s, fn.code[n]) == Some(r)
            && Advances(s, r) && OutersOk(s) && OutersOk(r) && FramedFrom(s, r)
  {
    hide V.Step, Emitter.Step, Emitter.After, Inv, Advances, FramedFrom, Locked;
    var s, r, op := Emitted(fn, n), Emitted(fn, n + 1), fn.code[n];
    assert EmitsTo(fn, Emissions(fn), n);
    EmittedOk(fn, n);
    EmittedOk(fn, n + 1);
    StepKeeps(fn, s, op);
    LockedOuters(ValidatorRuns.At(fn, n), s);
    LockedOuters(ValidatorRuns.At(fn, n + 1), r);
    AtStep(fn, n);
    if op.Drop? && s.control != [] && Last(s.control).reachable {
      DropAvailable(fn, ValidatorRuns.At(fn, n), s);
    }
    StepFramed(fn, s, op, r);
  }

  lemma DropAvailable(fn: FunctionDef, v: V.State, s: Emission)
    requires WellFormed(fn) && Shaped(v) && Locked(v, s) && s.control != [] && Last(s.control).reachable
    requires V.Step(fn, v, Drop).Some?
    ensures Available(s) >= 1
  {
    LockedTop(v, s);
  }

  /** Later emission only extends the graph. */
  lemma {:induction false} EmittedExtends(fn: FunctionDef, n: nat, m: nat)
    requires Accepted(fn) && n <= m <= |fn.code|
    ensures Extends(Emitted(fn, n).blocks, Emitted(fn, m).blocks) && Emitted(fn, n).nextReg <= Emitted(fn, m).nextReg
    decreases m
  {
    hide Emitter.Step, Inv, Locked, FramedFrom, BlockExtends, OutersOk;
    if n == m {
      forall b | 0 <= b < |Emitted(fn, n).blocks| ensures BlockExtends(Emitted(fn, n).blocks[b], Emitted(fn, n).blocks[b]) {
        BlockExtendsSelf(Emitted(fn, n).blocks[b]);
      }
    } else {
      EmittedExtends(fn, n, m - 1);
      EmittedStep(fn, m - 1);
      AdvanceInv(Emitted(fn, m - 1), Emitted(fn, m));
      ExtendsTransitive(Emitted(fn, n).blocks, Emitted(fn, m - 1).blocks, Emitted(fn, m).blocks);
    }
  }

  /** The outermost context returns from the function. */
  lemma {:induction false} RootEmission(fn: FunctionDef, n: nat)
    requires Accepted(fn) && n <= |fn.code| && Emitted(fn, n).control != []
    ensures var c := Emitted(fn, n).control[0];
            && c.endBlock == RETURN && c.outer == 0 && c.results == Signature(fn).results
            && c.endPhis == PhiRegs(0, |Signature(fn).results|)
  {
    hide Emitter.Step, Inv, Locked, Advances, OutersOk;
    if n == 0 {
      EmittedOk(fn, 0);
      assert Emitted(fn, 0) == Emitter.Initial(fn);
    } else {
      EmittedStep(fn, n - 1);
      NeverEmptied(fn, n - 1);
      RootEmission(fn, n - 1);
      assert SameContext(Emitted(fn, n - 1).control[0], Emitted(fn, n).control[0]);
    }
  }

  lemma NeverEmptied(fn: FunctionDef, n: nat)
    requires Accepted(fn) && n < |fn.code|
    ensures Emitted(fn, n).control != []
  {
    hide V.Step, Framed, Shaped;
    AtStep(fn, n);
    EmittedLevel(fn, n);
  }

  /** The last operator is the `end` of the function. */
  lemma LastOperator(fn: FunctionDef)
    requires Accepted(fn)
    ensures fn.code != [] && Last(fn.code).End? && Depth(fn, |fn.code| - 1) == 1
  {
    hide V.Step, Framed, Shaped;
    AtEnd(fn);
    RunStart(fn);
    AtStep(fn, |fn.code| - 1);
  }

  lemma LastLevel(fn: FunctionDef)
    requires Accepted(fn) && fn.code != [] && Depth(fn, |fn.code| - 1) == 1
    ensures var s := Emitted(fn, |fn.code| - 1); |s.control| == 1 && s.skip == 0
    ensures Emitted(fn, |fn.code|).control == []
  {
    hide V.Step, Inv, Shaped;
    NeverEmptied(fn, |fn.code| - 1);
    EmittedLevel(fn, |fn.code| - 1);
    EmittedLevel(fn, |fn.code|);
    AtEnd(fn);
  }

  /** The emission ends in the return block, with the results on the stack. */
  lemma EmissionEnds(fn: FunctionDef)
    requires Accepted(fn)
    ensures var s := Emitted(fn, |fn.code|);
            && s.control == [] && s.insert == RETURN < |s.blocks| && |s.stack| == |Signature(fn).results|
  {
    hide V.Step, Emitter.Step, Inv, Advances, FramedFrom, Locked, Shaped;
    LastOperator(fn);
    LastLevel(fn);
    var n := |fn.code|;
    EmittedStep(fn, n - 1);
    EmittedOk(fn, n - 1);
    RootEmission(fn, n - 1);
    LastEnd(fn, Emitted(fn, n - 1));
  }

  lemma LastEnd(fn: FunctionDef, s: Emission)
    requires WellFormed(fn) && Inv(s) && |s.control| == 1 && s.skip == 0 && Emitter.Step(fn, s, End).Some?
    ensures EndOp(s).Some? && Emitter.Step(fn, s, End) == EndOp(s)
    ensures var c, r := s.control[0], EndOp(s).value;
            && r.insert == c.endBlock && c.endBlock < |r.blocks| && r.control == []
            && (c.outer <= |s.stack| ==> |r.stack| == c.outer + |c.results|)
  {
    hide Inv, Sealed, Consistent, Extends, BranchToEnd, DummyElse, EraseEmpty, EndOp;
    assert Emitter.Step(fn, s, End) == EndOp(s) by {
      if Last(s.control).reachable { CloserDispatch(fn, s, End); }
    }
    EndGraph(s);
  }

  /** Every accepted body is emitted: no assertion of the emitter fails. */
  lemma EmitSucceeds(fn: FunctionDef)
    requires Accepted(fn)
    ensures Emit(fn).Some?
    ensures var s := Emitted(fn, |fn.code|);
            s.insert < |s.blocks| && Emit(fn).value == Append(s, Ret(s.stack)).blocks
  {
    hide Emitter.Step, Inv, Emitter.After;
    EmissionEnds(fn);
    EmittedOk(fn, |fn.code|);
  }

  /** A finished graph: one terminator per block, at its end; edges inside the graph; per PHI as
      many entries from a block as edges from it, all of them with the same value. */
  ghost predicate WellFormedGraph(g: Graph) {
    (forall b :: 0 <= b < |g| ==> Closed(g[b].code)) && Consistent(g)
  }

  lemma EmittedGraph(fn: FunctionDef)
    requires Accepted(fn)
    ensures Emit(fn).Some? && WellFormedGraph(Emit(fn).value)
    ensures Extends(Emitted(fn, |fn.code|).blocks, Emit(fn).value)
  {
    hide Emitter.Step, ContextsOk, RegsOk, Consistent, Locked, Extends;
    EmitSucceeds(fn);
    EmissionEnds(fn);
    EmittedOk(fn, |fn.code|);
    var s := Emitted(fn, |fn.code|);
    StopSeals(s.blocks, s.insert, Ret(s.stack));
    SealedExtends(s.blocks, s.insert, Emit(fn).value);
    forall b | 0 <= b < |s.blocks| ensures Closed(Emit(fn).value[b].code) {
      if b != s.insert {
        assert !IsPending(s.control, b);
      }
    }
  }

  /** The graph emitted for any body the validator accepts is well formed. */
  lemma GraphWellFormed(fn: FunctionDef)
    requires V.Accepts(fn)
    ensures Emit(fn).Some? && WellFormedGraph(Emit(fn).value)
  {
    AcceptsIffRun(fn);
    EmittedGraph(fn);
  }
}
