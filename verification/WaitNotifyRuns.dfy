/** What the wait/notify protocol guarantees in every run, over all interleavings. */
module WaitNotifyRuns {
  import opened Wrappers
  import opened WaitNotify
  import opened WaitNotifyFacts

  /** The worlds some run leads to. */
  ghost predicate Reachable(w: World) {
    exists memory, steps :: Play(Initial(memory), steps) == Some(w)
  }

  lemma SignalKeeps(w: World, t: Thread)
    requires Inv(w) && TicketOf(w, t).Some? && t in w.signaled
    ensures var p := PhaseOf(w, t);
            Inv(Enter(w.(signaled := w.signaled - {t}), t, LeavingWait(p.address, TicketOf(w, t), 0)))
  {
    hide QueueOk, ReferencesOk, NotifyOk, Fifo, TicketOk;
    assert ThreadOk(w, t);
    NotQueued(w, t);
    var q := LeavingWait(PhaseOf(w, t).address, TicketOf(w, t), 0);
    MoveKeeps(w, Enter(w.(signaled := w.signaled - {t}), t, q), t, q);
  }

  /** The only step that can fail is a look at the count of a list that was deleted meanwhile. */
  lemma FailsOnlyLate(w: World, step: Step)
    requires Inv(w)
    ensures Act(w, step).Fails? <==>
              && step.Reclaim? && PhaseOf(w, step.thread).Reclaiming?
              && Deleted(w, PhaseOf(w, step.thread).address, PhaseOf(w, step.thread).list)
  {
    hide QueueOk, ReferencesOk, NotifyOk, Fifo;
    match step
    case CheckAndQueue(t, _) => ListKnown(w, t);
    case Withdraw(t) =>
      ListKnown(w, t);
      if PhaseOf(w, t).Expired? {
        assert ThreadOk(w, t);
        assert TicketOk(w, PhaseOf(w, t).ticket);
      }
    case EndWait(t) => ListKnown(w, t);
    case Wake(t) => ListKnown(w, t);
    case EndNotify(t) => ListKnown(w, t);
    case Reclaim(t) =>
      if PhaseOf(w, t).Reclaiming? && PhaseOf(w, t).address in w.lists {
        UnusedEmpty(w, PhaseOf(w, t).address);
      }
    case _ =>
  }

  lemma ListKnown(w: World, t: Thread)
    requires Inv(w)
    ensures !PhaseOf(w, t).Idle? && !PhaseOf(w, t).Reclaiming? ==>
              PhaseOf(w, t).address in w.lists && w.lists[PhaseOf(w, t).address].references > 0
    ensures PhaseOf(w, t).Entering? ==> PhaseOf(w, t).address in w.memory
  {
    hide QueueOk, NotifyOk, Fifo, TicketOk, ReferencesOk;
    assert ThreadOk(w, t);
    if !PhaseOf(w, t).Idle? && !PhaseOf(w, t).Reclaiming? {
      assert ReferencesOk(w, PhaseOf(w, t).address);
      UserListed(w, t, PhaseOf(w, t).address);
    }
  }

  lemma WaitStepKeeps(w: World, step: Step)
    requires Inv(w) && Act(w, step).Next? && (step.CheckAndQueue? || step.TakeSignal? || step.Expire? || step.Withdraw?)
    ensures Inv(Act(w, step).world)
  {
    hide Inv, QueueOk, ReferencesOk, NotifyOk, Fifo, TicketOk, ThreadOk;
    var t := step.thread;
    var p, r := PhaseOf(w, t), Act(w, step).world;
    assert ThreadOk(w, t) by { ThreadIs(w, t); }
    match step
    case CheckAndQueue(_, timed) =>
      if w.memory[p.address] != p.expected {
        MoveAside(w, t, LeavingWait(p.address, None, 1));
      } else {
        QueueKeeps(w, t, timed);
      }
    case TakeSignal(_) => SignalKeeps(w, t);
    case Expire(_) => MoveAside(w, t, Expired(p.address, p.ticket));
    case Withdraw(_) =>
      if t in w.lists[p.address].waiters {
        QueueIs(w, p.address);
        MemberQueued(w, t, p.address);
        WithdrawKeeps(w, r, t, p.address);
      } else {
        SignalKeeps(w, t);
      }
  }

  lemma ThreadIs(w: World, t: Thread)
    requires Inv(w)
    ensures ThreadOk(w, t)
  {
  }

  lemma QueueIs(w: World, a: Address)
    requires Inv(w)
    ensures QueueOk(w, a)
  {
  }

  /** A thread that is not woken moves on by itself. */
  lemma MoveAside(w: World, t: Thread, p: Phase)
    requires Inv(w) && !PhaseOf(w, t).Idle? && !p.Idle? && p.address == PhaseOf(w, t).address
    requires (PhaseOf(w, t).Entering? && p == LeavingWait(p.address, None, 1))
             || (PhaseOf(w, t).Blocked? && p == Expired(p.address, PhaseOf(w, t).ticket))
    ensures Inv(Enter(w, t, p))
  {
    hide QueueOk, ReferencesOk, NotifyOk, Fifo, TicketOk;
    assert ThreadOk(w, t);
    if PhaseOf(w, t).Entering? {
      NotQueued(w, t);
    }
    MoveKeeps(w, Enter(w, t, p), t, p);
  }

  lemma StepKeeps(w: World, step: Step)
    requires Inv(w) && Act(w, step).Next?
    ensures Inv(Act(w, step).world)
  {
    hide Inv;
    match step
    case Write(a, v) => WriteKeeps(w, a, v);
    case BeginWait(t, a, expected) => BeginKeeps(w, t, a, Entering(a, expected));
    case CheckAndQueue(_, _) => WaitStepKeeps(w, step);
    case TakeSignal(_) => WaitStepKeeps(w, step);
    case Expire(_) => WaitStepKeeps(w, step);
    case Withdraw(_) => WaitStepKeeps(w, step);
    case EndWait(t) => EndKeeps(w, Act(w, step).world, t);
    case BeginNotify(t, a, limit) => BeginKeeps(w, t, a, Notifying(a, limit));
    case Wake(t) =>
      var p := PhaseOf(w, t);
      WakeKeeps(w, Act(w, step).world, t, WakeCount(p.limit, |w.lists[p.address].waiters|));
    case EndNotify(t) => EndKeeps(w, Act(w, step).world, t);
    case Reclaim(t) => ReclaimKeeps(w, Act(w, step).world, t);
  }

  lemma {:induction false} RunKeeps(memory: map<Address, int>, steps: seq<Step>)
    requires Play(Initial(memory), steps).Some?
    ensures Inv(Play(Initial(memory), steps).value)
    decreases |steps|
  {
    hide Inv, Act;
    if steps == [] {
      InitialInv(memory);
    } else {
      var front := steps[..|steps| - 1];
      RunKeeps(memory, front);
      StepKeeps(Play(Initial(memory), front).value, steps[|steps| - 1]);
    }
  }

  lemma ReachableInv(w: World)
    requires Reachable(w)
    ensures Inv(w)
  {
    hide Inv;
    var memory, steps :| Play(Initial(memory), steps) == Some(w);
    RunKeeps(memory, steps);
  }

  // ----- the guarantees -----

  /** No assertion of the source fails in any run, and no list is used after its deletion, except by a
      thread that gave up the last reference to the list and comes late to reclaim it. */
  lemma FailuresExact(w: World, step: Step)
    requires Reachable(w)
    ensures Act(w, step).Fails? <==>
              && step.Reclaim? && PhaseOf(w, step.thread).Reclaiming?
              && Deleted(w, PhaseOf(w, step.thread).address, PhaseOf(w, step.thread).list)
  {
    hide Inv, Act, Deleted;
    ReachableInv(w);
    FailsOnlyLate(w, step);
  }

  /** A finished wait returned 0 exactly if one notify, and only that one, released it, and 2
      exactly if it removed itself. */
  lemma ResultsExact(w: World, k: nat)
    requires Reachable(w) && k in w.returned
    ensures k < |w.tickets| && (w.returned[k] == 0 || w.returned[k] == 2)
    ensures w.returned[k] == 2 <==> w.tickets[k].fate.Withdrawn?
    ensures w.returned[k] == 0 <==> exists n: nat :: n < |w.notifies| && k in Taken(w.notifies[n])
    ensures forall m: nat, n: nat :: m < |w.notifies| && n < |w.notifies| ==>
              k in Taken(w.notifies[m]) && k in Taken(w.notifies[n]) ==> m == n
  {
    hide QueueOk, ReferencesOk, Fifo, ThreadOk;
    ReachableInv(w);
    assert TicketOk(w, k);
    forall n: nat | n < |w.notifies| && k in Taken(w.notifies[n]) ensures w.tickets[k].fate == Released(n) {
      assert NotifyOk(w, n);
      var i :| 0 <= i < w.notifies[n].count && w.notifies[n].seen[i] == k;
    }
  }

  /** The count a notify returned is the number of waits it released. */
  lemma CountsExact(w: World, n: nat)
    requires Reachable(w) && n in w.counted
    ensures n < |w.notifies| && w.counted[n] == |set k: nat | k < |w.tickets| && w.tickets[k].fate == Released(n)|
  {
    hide QueueOk, ReferencesOk, Fifo, ThreadOk;
    ReachableInv(w);
    assert NotifyOk(w, n);
    var taken := Taken(w.notifies[n]);
    var released := set k: nat | k < |w.tickets| && w.tickets[k].fate == Released(n);
    forall k ensures k in released <==> k in taken {
      if k in released {
        assert TicketOk(w, k);
      }
    }
    AscendingSize(taken, released);
  }

  lemma {:induction false} AscendingSize(s: seq<nat>, elements: set<nat>)
    requires Ascending(s) && forall k :: k in elements <==> k in s
    ensures |elements| == |s|
  {
    if s == [] {
      assert elements == {};
    } else {
      var last, front := s[|s| - 1], s[..|s| - 1];
      AscendingSize(front, elements - {last});
    }
  }

  /** Releases at an address are in queueing order: when a wait has been released, every wait
      queued there before it has been released no later, or has withdrawn. */
  lemma ReleasedInOrder(w: World, j: nat, k: nat)
    requires Reachable(w) && j < k < |w.tickets| && w.tickets[j].address == w.tickets[k].address
    requires w.tickets[k].fate.Released?
    ensures w.tickets[j].fate.Withdrawn?
            || (w.tickets[j].fate.Released? && w.tickets[j].fate.notify <= w.tickets[k].fate.notify)
  {
    hide QueueOk, ReferencesOk, ThreadOk, TicketOk, NotifyOk;
    ReachableInv(w);
  }

  lemma WakeIs(w: World, t: Thread, r: World)
    requires Act(w, Wake(t)) == Next(r)
    ensures PhaseOf(w, t).Notifying? && PhaseOf(w, t).address in w.lists
    ensures Wakes(w, r, t, WakeCount(PhaseOf(w, t).limit, |Waiters(w, PhaseOf(w, t).address)|))
  {
  }

  /** A queue holds exactly the queued tickets of its address, oldest first. */
  lemma QueueExact(w: World, a: Address)
    requires Inv(w)
    ensures var seen := TicketsOf(w, Waiters(w, a));
            && Ascending(seen)
            && forall k: nat :: k in seen <==> k < |w.tickets| && w.tickets[k].address == a && w.tickets[k].fate.Queued?
  {
    hide ReferencesOk, ThreadOk, NotifyOk, Fifo, Inv;
    var seen := TicketsOf(w, Waiters(w, a));
    assert QueueOk(w, a) by { QueueIs(w, a); }
    forall k: nat | k < |w.tickets| && w.tickets[k].address == a && w.tickets[k].fate.Queued? ensures k in seen {
      var i := PlaceInQueue(w, k);
    }
    forall i | 0 <= i < |seen| ensures seen[i] < |w.tickets| && w.tickets[seen[i]].address == a && w.tickets[seen[i]].fate.Queued? {
      assert QueuedAt(w, Waiters(w, a)[i], a);
    }
  }

  /** Every wait queued before a notify takes the list lock is visible to it: it sees exactly the
      tickets queued at its address, oldest first, and releases as many of them as it was asked to, or
      all of them if there are fewer or it was asked for all. */
  lemma NotifySeesAll(w: World, t: Thread, r: World)
    requires Reachable(w) && Act(w, Wake(t)) == Next(r)
    ensures PhaseOf(w, t).Notifying? && |r.notifies| == |w.notifies| + 1
    ensures var e := r.notifies[|w.notifies|];
            && Ascending(e.seen)
            && (PhaseOf(w, t).limit == 0xffff_ffff ==> e.count == |e.seen|)
            && (PhaseOf(w, t).limit != 0xffff_ffff ==>
                  e.count <= |e.seen| && e.count <= PhaseOf(w, t).limit && (e.count == |e.seen| || e.count == PhaseOf(w, t).limit))
            && forall k: nat :: k in e.seen <==>
                 k < |w.tickets| && w.tickets[k].address == PhaseOf(w, t).address && w.tickets[k].fate.Queued?
  {
    hide Act, Reachable, Inv, Wakes, Ascending;
    ReachableInv(w);
    WakeIs(w, t, r);
    var a := PhaseOf(w, t).address;
    WakesWoken(w, r, t, WakeCount(PhaseOf(w, t).limit, |Waiters(w, a)|));
    QueueExact(w, a);
  }

  /** A thread outside a wait has an unsignaled event, so no wait starts with a stale signal. */
  lemma EventsClean(w: World, t: Thread)
    requires Reachable(w) && TicketOf(w, t).None?
    ensures t !in w.signaled
  {
    hide QueueOk, ReferencesOk, TicketOk, NotifyOk, Fifo;
    ReachableInv(w);
    assert ThreadOk(w, t);
  }

  /** A wait list exists exactly while some thread uses it or is about to reclaim it. */
  lemma ListsLive(w: World, a: Address)
    requires Reachable(w)
    ensures a in w.lists <==> (exists t :: PhaseOf(w, t).Uses(a)) || exists t :: Reclaims(w, t, a)
  {
    hide QueueOk, ThreadOk, TicketOk, NotifyOk, Fifo, Reachable;
    ReachableInv(w);
    assert ReferencesOk(w, a);
    if a in w.lists {
      SomeUser(w, a);
    }
    if t :| PhaseOf(w, t).Uses(a) {
      assert t in Users(w.phases, a);
    }
  }

  lemma SomeUser(w: World, a: Address)
    ensures |Users(w.phases, a)| == 0 || exists t :: PhaseOf(w, t).Uses(a)
  {
    if !exists t :: PhaseOf(w, t).Uses(a) {
      forall t ensures t !in Users(w.phases, a) {
        assert !PhaseOf(w, t).Uses(a);
      }
      assert Users(w.phases, a) == {};
    }
  }
}
