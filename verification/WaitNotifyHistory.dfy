/** What a wait returns, told from the history of steps alone. Whether a wait sleeps depends on the value
    last written to its address when it looks, and on nothing else. */
module WaitNotifyHistory {
  import opened Wrappers
  import opened WaitNotify

  /** The memory after the steps: what was written last, or was there from the beginning. */
  function Written(memory: map<Address, int>, steps: seq<Step>): map<Address, int> {
    if steps == [] then memory
    else
      var before, last := Written(memory, steps[..|steps| - 1]), steps[|steps| - 1];
      if last.Write? then before[last.address := last.value] else before
  }

  /** The address and the value of the wait that the thread began last. */
  function Wanted(steps: seq<Step>, t: Thread): Option<(Address, int)> {
    if steps == [] then None
    else
      var last := steps[|steps| - 1];
      if last.BeginWait? && last.thread == t then Some((last.address, last.expected)) else Wanted(steps[..|steps| - 1], t)
  }

  /** The memory holds the value the thread waits for, if it looks after the steps. */
  predicate Matches(memory: map<Address, int>, steps: seq<Step>, t: Thread) {
    match Wanted(steps, t)
    case None => false
    case Some((a, v)) => a in Written(memory, steps) && Written(memory, steps)[a] == v
  }

  /** Whether it did when the thread looked last. */
  function Matched(memory: map<Address, int>, steps: seq<Step>, t: Thread): Option<bool> {
    if steps == [] then None
    else
      var front, last := steps[..|steps| - 1], steps[|steps| - 1];
      if last.CheckAndQueue? && last.thread == t then Some(Matches(memory, front, t)) else Matched(memory, front, t)
  }

  // ----- the history agrees with the world -----

  ghost predicate ThreadAgrees(memory: map<Address, int>, steps: seq<Step>, w: World, t: Thread) {
    match PhaseOf(w, t)
    case Entering(a, v) => Wanted(steps, t) == Some((a, v)) && a in w.memory
    case Blocked(_, _, _) => Matched(memory, steps, t) == Some(true)
    case Expired(_, _) => Matched(memory, steps, t) == Some(true)
    case LeavingWait(_, finished, result) =>
      Matched(memory, steps, t) == Some(result != 1) && (finished.None? <==> result == 1)
    case _ => true
  }

  ghost predicate Agrees(memory: map<Address, int>, steps: seq<Step>, w: World) {
    w.memory == Written(memory, steps) && forall t :: ThreadAgrees(memory, steps, w, t)
  }

  /** The thread that takes a step. */
  function Actor(step: Step): Option<Thread> {
    if step.Write? then None else Some(step.thread)
  }

  lemma OthersAgree(memory: map<Address, int>, steps: seq<Step>, w: World, step: Step, r: World, t: Thread)
    requires Agrees(memory, steps, w) && Act(w, step) == Next(r) && Actor(step) != Some(t)
    ensures ThreadAgrees(memory, steps + [step], r, t)
  {
    assert (steps + [step])[..|steps|] == steps;
    assert ThreadAgrees(memory, steps, w, t);
    assert PhaseOf(r, t) == PhaseOf(w, t) by { OthersStay(w, step, r, t); }
    assert forall a :: a in w.memory ==> a in r.memory by { MemoryIs(w, step, r); }
    hide Act;
  }

  lemma OthersStay(w: World, step: Step, r: World, t: Thread)
    requires Act(w, step) == Next(r) && Actor(step) != Some(t)
    ensures PhaseOf(r, t) == PhaseOf(w, t)
  {
  }

  lemma MemoryIs(w: World, step: Step, r: World)
    requires Act(w, step) == Next(r)
    ensures r.memory == if step.Write? then w.memory[step.address := step.value] else w.memory
  {
  }

  lemma ActorAgrees(memory: map<Address, int>, steps: seq<Step>, w: World, step: Step, r: World, t: Thread)
    requires Agrees(memory, steps, w) && Act(w, step) == Next(r) && Actor(step) == Some(t)
    ensures ThreadAgrees(memory, steps + [step], r, t)
  {
    assert (steps + [step])[..|steps|] == steps;
    assert ThreadAgrees(memory, steps, w, t);
  }

  lemma {:induction false} HistoryAgrees(memory: map<Address, int>, steps: seq<Step>)
    requires Play(Initial(memory), steps).Some?
    ensures Agrees(memory, steps, Play(Initial(memory), steps).value)
  {
    hide Act, ThreadAgrees;
    if steps == [] {
      NothingYet(memory);
    } else {
      var front, last := steps[..|steps| - 1], steps[|steps| - 1];
      HistoryAgrees(memory, front);
      var w, r := Play(Initial(memory), front).value, Play(Initial(memory), steps).value;
      assert steps == front + [last];
      MemoryIs(w, last, r);
      forall t: Thread ensures ThreadAgrees(memory, steps, r, t) {
        if Actor(last) == Some(t) {
          ActorAgrees(memory, front, w, last, r, t);
        } else {
          OthersAgree(memory, front, w, last, r, t);
        }
      }
    }
  }

  lemma NothingYet(memory: map<Address, int>)
    ensures Agrees(memory, [], Initial(memory))
  {
  }

  // ----- what a wait does -----

  /** For every run: a wait that looks is put to sleep, with a ticket, exactly if the value last written to
      its address is the one it was called with; otherwise it is about to return 1. */
  lemma SleepsExactly(memory: map<Address, int>, steps: seq<Step>, t: Thread, timed: bool, r: World)
    requires Play(Initial(memory), steps).Some? && Act(Play(Initial(memory), steps).value, CheckAndQueue(t, timed)) == Next(r)
    ensures var w := Play(Initial(memory), steps).value;
            && Wanted(steps, t).Some?
            && if Matches(memory, steps, t)
               then && r.tickets == w.tickets + [Ticket(t, Wanted(steps, t).value.0, Queued)]
                    && PhaseOf(r, t) == Blocked(Wanted(steps, t).value.0, |w.tickets|, timed)
               else r.tickets == w.tickets && PhaseOf(r, t) == LeavingWait(Wanted(steps, t).value.0, None, 1)
  {
    hide Play;
    HistoryAgrees(memory, steps);
    assert ThreadAgrees(memory, steps, Play(Initial(memory), steps).value, t);
  }

  /** For every run: a wait that is about to return returns 1 exactly if the value last written before it
      looked was another one than it was called with; and only such a wait has no ticket. */
  lemma OneIffDifferent(memory: map<Address, int>, steps: seq<Step>, t: Thread)
    requires Play(Initial(memory), steps).Some? && PhaseOf(Play(Initial(memory), steps).value, t).LeavingWait?
    ensures var p := PhaseOf(Play(Initial(memory), steps).value, t);
            && Matched(memory, steps, t).Some?
            && (p.result == 1 <==> !Matched(memory, steps, t).value)
            && (p.finished.None? <==> p.result == 1)
  {
    hide Play;
    HistoryAgrees(memory, steps);
    assert ThreadAgrees(memory, steps, Play(Initial(memory), steps).value, t);
  }

  /** And so it does: the call that ends is recorded with that result. */
  lemma ReturnsExactly(memory: map<Address, int>, steps: seq<Step>, t: Thread, r: World)
    requires Play(Initial(memory), steps).Some? && Act(Play(Initial(memory), steps).value, EndWait(t)) == Next(r)
    ensures |r.exits| == |Play(Initial(memory), steps).value.exits| + 1
    ensures var e := r.exits[|r.exits| - 1];
            && r.exits[..|r.exits| - 1] == Play(Initial(memory), steps).value.exits
            && e.thread == t && Matched(memory, steps, t).Some? && (e.result == 1 <==> !Matched(memory, steps, t).value)
  {
    hide Play;
    OneIffDifferent(memory, steps, t);
  }

  /** No other step records anything. */
  lemma OnlyEndsRecord(w: World, step: Step, r: World)
    requires Act(w, step) == Next(r) && !step.EndWait?
    ensures r.exits == w.exits
  {
  }
}
