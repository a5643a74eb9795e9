/** When a wait list is safe from use after its deletion. Between giving up the last reference to a list
    and taking the lock of the map, another thread may open the list, close it and delete it. A run in
    which no thread opens a list that another thread is about to reclaim never fails, and the first
    step that does so can always be continued to a failure. */
module WaitListLifetime {
  import opened Wrappers
  import opened WaitNotify
  import opened WaitNotifyFacts
  import opened WaitNotifyRuns

  // ----- runs that do not reopen -----

  /** The step opens the list of an address. */
  predicate Opens(step: Step) {
    step.BeginWait? || step.BeginNotify?
  }

  /** The step opens a list that some thread is about to reclaim. */
  ghost predicate Reopens(w: World, step: Step) {
    Opens(step) && exists t :: PhaseOf(w, t).Reclaiming? && PhaseOf(w, t).address == step.address
  }

  /** No step of the run reopens a list. */
  ghost predicate Careful(memory: map<Address, int>, steps: seq<Step>)
    decreases |steps|
  {
    steps == [] || (
      var front := steps[..|steps| - 1];
      && Careful(memory, front)
      && match Play(Initial(memory), front)
         case None => true
         case Some(w) => !Reopens(w, steps[|steps| - 1]))
  }

  /** Whoever is about to reclaim a list finds it there, unused, and is alone. */
  ghost predicate Sole(w: World) {
    forall t :: PhaseOf(w, t).Reclaiming? ==> ReclaimsAlone(w, t, PhaseOf(w, t).address)
  }

  ghost predicate ReclaimsAlone(w: World, t: Thread, a: Address) {
    && Reclaims(w, t, a) && w.lists[a].references == 0
    && forall u :: PhaseOf(w, u).Reclaiming? && PhaseOf(w, u).address == a ==> u == t
  }

  /** A step that leaves the lists and the reclaiming threads alone. */
  ghost predicate Aside(w: World, r: World) {
    && (forall t :: PhaseOf(w, t).Reclaiming? || PhaseOf(r, t).Reclaiming? ==> PhaseOf(r, t) == PhaseOf(w, t))
    && forall a :: a in w.lists ==>
         a in r.lists && r.lists[a].id == w.lists[a].id && r.lists[a].references == w.lists[a].references
  }

  lemma AsideKeeps(w: World, r: World)
    requires Sole(w) && Aside(w, r)
    ensures Sole(r)
  {
    forall t | PhaseOf(r, t).Reclaiming? ensures ReclaimsAlone(r, t, PhaseOf(r, t).address) {
      assert ReclaimsAlone(w, t, PhaseOf(w, t).address);
    }
  }

  lemma OpenKeeps(w: World, t: Thread, a: Address, p: Phase)
    requires Sole(w) && PhaseOf(w, t) == Idle && p.Uses(a)
    requires !exists u :: PhaseOf(w, u).Reclaiming? && PhaseOf(w, u).address == a
    ensures Sole(Enter(Open(w, a), t, p))
  {
    var r := Enter(Open(w, a), t, p);
    forall u | PhaseOf(r, u).Reclaiming? ensures ReclaimsAlone(r, u, PhaseOf(r, u).address) {
      assert u != t && PhaseOf(w, u) == PhaseOf(r, u);
      assert ReclaimsAlone(w, u, PhaseOf(w, u).address);
      assert forall x :: PhaseOf(r, x).Reclaiming? ==> PhaseOf(w, x) == PhaseOf(r, x);
    }
  }

  lemma LetGoKeeps(w: World, r: World, t: Thread)
    requires Sole(w) && Ends(w, r, t)
    ensures Sole(r)
  {
    var a := PhaseOf(w, t).address;
    forall u | PhaseOf(r, u).Reclaiming? ensures ReclaimsAlone(r, u, PhaseOf(r, u).address) {
      if u != t {
        assert ReclaimsAlone(w, u, PhaseOf(w, u).address);
      }
      forall x | PhaseOf(r, x).Reclaiming? && PhaseOf(r, x).address == PhaseOf(r, u).address ensures x == u {
        if x != t {
          assert ReclaimsAlone(w, x, PhaseOf(w, x).address);
        }
      }
    }
  }

  lemma ReclaimedKeeps(w: World, r: World, t: Thread)
    requires Sole(w) && Reclaimed(w, r, t)
    ensures Sole(r)
  {
    assert ReclaimsAlone(w, t, PhaseOf(w, t).address);
    forall u | PhaseOf(r, u).Reclaiming? ensures ReclaimsAlone(r, u, PhaseOf(r, u).address) {
      assert u != t && PhaseOf(w, u) == PhaseOf(r, u);
      assert ReclaimsAlone(w, u, PhaseOf(w, u).address);
      assert forall x :: PhaseOf(r, x).Reclaiming? ==> PhaseOf(w, x) == PhaseOf(r, x);
    }
  }

  lemma SoleStep(w: World, step: Step)
    requires Sole(w) && Act(w, step).Next? && !Reopens(w, step)
    ensures Sole(Act(w, step).world)
  {
    hide Sole, Aside;
    var r := Act(w, step).world;
    match step
    case BeginWait(t, a, expected) => OpenKeeps(w, t, a, Entering(a, expected));
    case BeginNotify(t, a, limit) => OpenKeeps(w, t, a, Notifying(a, limit));
    case EndWait(t) => LetGoKeeps(w, r, t);
    case EndNotify(t) => LetGoKeeps(w, r, t);
    case Reclaim(t) => ReclaimedKeeps(w, r, t);
    case _ =>
      StepAside(w, step);
      AsideKeeps(w, r);
  }

  lemma StepAside(w: World, step: Step)
    requires Act(w, step).Next? && !Opens(step) && !step.EndWait? && !step.EndNotify? && !step.Reclaim?
    ensures Aside(w, Act(w, step).world)
  {
  }

  lemma {:induction false} CarefulSole(memory: map<Address, int>, steps: seq<Step>)
    requires Careful(memory, steps) && Play(Initial(memory), steps).Some?
    ensures Sole(Play(Initial(memory), steps).value)
    decreases |steps|
  {
    hide Sole, Act, Reopens;
    if steps == [] {
      assert Sole(Initial(memory)) by { NoneReclaims(memory); }
    } else {
      var front := steps[..|steps| - 1];
      CarefulSole(memory, front);
      SoleStep(Play(Initial(memory), front).value, steps[|steps| - 1]);
    }
  }

  lemma NoneReclaims(memory: map<Address, int>)
    ensures Sole(Initial(memory))
  {
  }

  /** In a run that reopens no list, no step ever fails. */
  lemma CarefulNeverFails(memory: map<Address, int>, steps: seq<Step>, step: Step)
    requires Careful(memory, steps) && Play(Initial(memory), steps).Some?
    ensures !Act(Play(Initial(memory), steps).value, step).Fails?
  {
    hide Act, Inv, Play;
    var w := Play(Initial(memory), steps).value;
    CarefulSole(memory, steps);
    RunKeeps(memory, steps);
    FailsOnlyLate(w, step);
    if step.Reclaim? && PhaseOf(w, step.thread).Reclaiming? {
      assert ReclaimsAlone(w, step.thread, PhaseOf(w, step.thread).address);
    }
  }

  // ----- the first reopening can be continued to a failure -----

  lemma PlayOne(w: World, steps: seq<Step>, step: Step)
    requires Play(w, steps).Some? && Act(Play(w, steps).value, step).Next?
    ensures Play(w, steps + [step]) == Some(Act(Play(w, steps).value, step).world)
  {
    hide Act;
    var all := steps + [step];
    assert all[..|all| - 1] == steps && all[|all| - 1] == step;
  }

  lemma PlayNone(w: World)
    ensures Play(w, []) == Some(w)
  {
  }

  /** The only user of a list leaves it and reclaims it before a thread that was to reclaim it. */
  lemma Overtaken(w: World, t: Thread, u: Thread, a: Address) returns (r: World)
    requires PhaseOf(w, u).LeavingWait? || PhaseOf(w, u).LeavingNotify?
    requires PhaseOf(w, u).address == a && t != u && Reclaims(w, t, a) && w.lists[a].references == 1 && w.lists[a].waiters == []
    ensures var leave := if PhaseOf(w, u).LeavingWait? then EndWait(u) else EndNotify(u);
            && Act(w, leave).Next? && Act(Act(w, leave).world, Reclaim(u)) == Next(r)
            && Act(r, Reclaim(t)).Fails?
  {
    var leave := if PhaseOf(w, u).LeavingWait? then EndWait(u) else EndNotify(u);
    var w1 := Act(w, leave).world;
    assert PhaseOf(w1, u) == Reclaiming(a, w.lists[a].id) && PhaseOf(w1, t) == PhaseOf(w, t);
    assert w1.lists[a].references == 0 && w1.lists[a].waiters == [] && w1.lists[a].id == w.lists[a].id;
    r := Act(w1, Reclaim(u)).world;
    assert a !in r.lists && PhaseOf(r, t) == PhaseOf(w, t);
  }

  /** Every first step that reopens a list can be followed by steps after which a thread reads the count
      of a deleted list. */
  lemma ReopeningCanFail(w: World, step: Step) returns (steps: seq<Step>, t: Thread)
    requires Inv(w) && Sole(w) && Reopens(w, step) && Act(w, step).Next?
    ensures Play(Act(w, step).world, steps).Some? && Act(Play(Act(w, step).world, steps).value, Reclaim(t)).Fails?
  {
    hide Inv, Act, Play, Sole;
    var u, a := step.thread, step.address;
    t :| PhaseOf(w, t).Reclaiming? && PhaseOf(w, t).address == a;
    assert ReclaimsAlone(w, t, a) by { SoleIs(w, t); }
    UnusedEmpty(w, a);
    OpenerIdle(w, step);
    var w1 := Act(w, step).world;
    var w2, lead := AfterReopening(w, step, t);
    var r := Overtaken(w2, t, u, a);
    var leave := if PhaseOf(w2, u).LeavingWait? then EndWait(u) else EndNotify(u);
    PlayOne(w1, lead, leave);
    PlayOne(w1, lead + [leave], Reclaim(u));
    steps := lead + [leave] + [Reclaim(u)];
  }

  lemma OpenerIdle(w: World, step: Step)
    requires Opens(step) && Act(w, step).Next?
    ensures PhaseOf(w, step.thread) == Idle
  {
  }

  lemma SoleIs(w: World, t: Thread)
    requires Sole(w) && PhaseOf(w, t).Reclaiming?
    ensures ReclaimsAlone(w, t, PhaseOf(w, t).address)
  {
  }

  /** The thread that reopened the list finds no waiters, or another value than it expected. */
  lemma AfterReopening(w: World, step: Step, t: Thread) returns (r: World, lead: seq<Step>)
    requires Opens(step) && Act(w, step).Next? && t != step.thread
    requires ReclaimsAlone(w, t, step.address) && w.lists[step.address].waiters == []
    ensures Play(Act(w, step).world, lead) == Some(r)
    ensures var u, a := step.thread, step.address;
            && (PhaseOf(r, u).LeavingWait? || PhaseOf(r, u).LeavingNotify?) && PhaseOf(r, u).address == a
            && Reclaims(r, t, a) && r.lists[a].references == 1 && r.lists[a].waiters == []
  {
    hide Play;
    var u, a := step.thread, step.address;
    var w1 := Act(w, step).world;
    PlayNone(w1);
    assert Reclaims(w1, t, a) && w1.lists[a].references == 1 && w1.lists[a].waiters == [];
    if step.BeginWait? {
      var w2 := Act(w1, Write(a, step.expected + 1)).world;
      PlayOne(w1, [], Write(a, step.expected + 1));
      PlayOne(w1, [] + [Write(a, step.expected + 1)], CheckAndQueue(u, false));
      lead := [] + [Write(a, step.expected + 1)] + [CheckAndQueue(u, false)];
      r := Act(w2, CheckAndQueue(u, false)).world;
    } else {
      PlayOne(w1, [], Wake(u));
      lead := [] + [Wake(u)];
      r := Act(w1, Wake(u)).world;
    }
  }

  /** So a run that reopens a list for the first time can be continued to a use after deletion. It need not
      be: whether the list is gone when the thread looks at it depends on what the others do. */
  lemma FirstReopeningCanFail(memory: map<Address, int>, steps: seq<Step>, step: Step) returns (more: seq<Step>,
      t: Thread)
    requires Careful(memory, steps) && Play(Initial(memory), steps).Some?
    requires Reopens(Play(Initial(memory), steps).value, step) && Act(Play(Initial(memory), steps).value, step).Next?
    ensures var w := Act(Play(Initial(memory), steps).value, step).world;
            Play(w, more).Some? && Act(Play(w, more).value, Reclaim(t)).Fails?
  {
    hide Act, Inv, Play, Sole, Reopens;
    CarefulSole(memory, steps);
    RunKeeps(memory, steps);
    more, t := ReopeningCanFail(Play(Initial(memory), steps).value, step);
  }

  /** One notify without waiters, up to where it has opened the list and woken nobody. */
  lemma NotifyNobody(w: World, u: Thread, a: Address) returns (r: World)
    requires PhaseOf(w, u) == Idle && (a in w.lists ==> w.lists[a].references == 0 && w.lists[a].waiters == [])
    ensures Play(w, [BeginNotify(u, a, 1), Wake(u)]) == Some(r)
    ensures PhaseOf(r, u).LeavingNotify? && PhaseOf(r, u).address == a && forall x :: x != u ==> PhaseOf(r, x) == PhaseOf(w, x)
    ensures a in r.lists && r.lists[a].references == 1 && r.lists[a].waiters == [] && (a in w.lists ==> r.lists[a].id == w.lists[a].id)
  {
    hide Play;
    PlayNone(w);
    PlayOne(w, [], BeginNotify(u, a, 1));
    PlayOne(w, [] + [BeginNotify(u, a, 1)], Wake(u));
    var w1 := Act(w, BeginNotify(u, a, 1)).world;
    r := Act(w1, Wake(u)).world;
    assert [] + [BeginNotify(u, a, 1)] + [Wake(u)] == [BeginNotify(u, a, 1), Wake(u)];
  }

  lemma {:induction false} PlayOn(w: World, a: seq<Step>, b: seq<Step>)
    requires Play(w, a).Some? && Play(Play(w, a).value, b).Some?
    ensures Play(w, a + b) == Play(Play(w, a).value, b)
    decreases |b|
  {
    hide Act;
    if b == [] {
      assert a + b == a;
    } else {
      var front := b[..|b| - 1];
      PlayOn(w, a, front);
      assert (a + b)[..|a + b| - 1] == a + front && (a + b)[|a + b| - 1] == b[|b| - 1];
    }
  }

  /** A run of two notifies in which the second thread deletes the list before the first one looks at
      its count again. */
  lemma UseAfterDeletion(memory: map<Address, int>, a: Address) returns (w: World)
    ensures Play(Initial(memory), [BeginNotify(1, a, 1), Wake(1)] + [EndNotify(1)]
                                  + [BeginNotify(2, a, 1), Wake(2)] + [EndNotify(2)] + [Reclaim(2)]) == Some(w)
    ensures Act(w, Reclaim(1)).Fails?
  {
    hide Play, Act;
    var w0 := Initial(memory);
    var w2 := NotifyNobody(w0, 1, a);
    var w3 := LastLeaves(w2, 1, a);
    PlayOne(w0, [BeginNotify(1, a, 1), Wake(1)], EndNotify(1));
    var w5 := NotifyNobody(w3, 2, a);
    var first := [BeginNotify(1, a, 1), Wake(1)] + [EndNotify(1)];
    PlayOn(w0, first, [BeginNotify(2, a, 1), Wake(2)]);
    w := Overtaken(w5, 1, 2, a);
    PlayOne(w0, first + [BeginNotify(2, a, 1), Wake(2)], EndNotify(2));
    PlayOne(w0, first + [BeginNotify(2, a, 1), Wake(2)] + [EndNotify(2)], Reclaim(2));
  }

  lemma LastLeaves(w: World, u: Thread, a: Address) returns (r: World)
    requires PhaseOf(w, u).LeavingNotify? && PhaseOf(w, u).address == a
    requires a in w.lists && w.lists[a].references == 1 && w.lists[a].waiters == []
    ensures Act(w, EndNotify(u)) == Next(r)
    ensures a in r.lists && r.lists[a].references == 0 && r.lists[a].waiters == [] && Reclaims(r, u, a)
    ensures forall x :: x != u ==> PhaseOf(r, x) == PhaseOf(w, x)
  {
    r := Act(w, EndNotify(u)).world;
  }
}
