/** The wait/notify protocol of atomic memory accesses, as interleaved steps of any number of
    threads. A step is a section the source runs under one lock, one event operation, or the atomic
    decrement of a reference count, so a run is any sequence of steps. Closing a wait list takes two
    steps: the reference is given up without a lock, and a thread that gave up the last one takes the
    lock of the map, looks at the count again, and deletes the list if it is still zero. Each wait that
    is queued gets a ticket, which records what became of it; each notify that looks at a list gets an
    entry of the notify log. */
module WaitNotify {
  import opened Wrappers

  type Thread = nat

  type Address = nat

  datatype Fate = Queued | Released(notify: nat) | Withdrawn

  datatype Ticket = Ticket(thread: Thread, address: Address, fate: Fate)

  /** One run of the locked section of a notify: the tickets in the list before it and the number
      of them it was asked to wake. */
  datatype Notify = Notify(address: Address, limit: nat, seen: seq<nat>, count: nat)

  /** What a thread is doing. A wait that is Blocked or Expired is still inside the call. */
  datatype Phase =
    | Idle
    | Entering(address: Address, expected: int)
    | Blocked(address: Address, ticket: nat, timed: bool)
    | Expired(address: Address, ticket: nat)
    | LeavingWait(address: Address, finished: Option<nat>, result: nat)
    | Notifying(address: Address, limit: nat)
    | LeavingNotify(address: Address, notify: nat, count: nat)
    | Reclaiming(address: Address, list: nat)
  {
    predicate Uses(a: Address) { !Idle? && !Reclaiming? && address == a }

    predicate Holds(k: nat) {
      match this
      case Blocked(_, t, _) => t == k
      case Expired(_, t) => t == k
      case LeavingWait(_, t, _) => t == Some(k)
      case _ => false
    }
  }

  /** `id` is the number of the list in order of creation; it stands for its place in memory. */
  datatype WaitList = WaitList(id: nat, waiters: seq<Thread>, references: nat)

  datatype Exit = Exit(thread: Thread, result: nat)

  /** `lists` are the lists that have not been deleted; `created` is the number of lists so far.
      `returned` maps the ticket of a finished wait to its result; `counted` maps a finished
      notify to its result; both are fixed when the reference to the list is given up. `exits` are the
      results of all waits that ended, those without a ticket included. */
  datatype World = World(memory: map<Address, int>, lists: map<Address, WaitList>, created: nat,
                         phases: map<Thread, Phase>,
                         signaled: set<Thread>, tickets: seq<Ticket>, notifies: seq<Notify>,
                         returned: map<nat, nat>, counted: map<nat, nat>, exits: seq<Exit>)

  function PhaseOf(w: World, t: Thread): Phase {
    if t in w.phases then w.phases[t] else Idle
  }

  function Waiters(w: World, a: Address): seq<Thread> {
    if a in w.lists then w.lists[a].waiters else []
  }

  function Enter(w: World, t: Thread, p: Phase): World {
    w.(phases := w.phases[t := p])
  }

  /** Opens the wait list of an address, creating it if there is none. */
  function Open(w: World, a: Address): World {
    if a in w.lists then w.(lists := w.lists[a := w.lists[a].(references := w.lists[a].references + 1)])
    else w.(lists := w.lists[a := WaitList(w.created, [], 1)], created := w.created + 1)
  }

  /** Gives up a reference. */
  function LetGo(w: World, a: Address): World
    requires a in w.lists && w.lists[a].references > 0
  {
    w.(lists := w.lists[a := w.lists[a].(references := w.lists[a].references - 1)])
  }

  /** What is left to do after that: the last reference leaves the list to be reclaimed. */
  function AfterLetGo(w: World, a: Address): Phase
    requires a in w.lists
  {
    if w.lists[a].references == 1 then Reclaiming(a, w.lists[a].id) else Idle
  }

  function RemoveFirst(s: seq<Thread>, t: Thread): seq<Thread> {
    if s == [] then [] else if s[0] == t then s[1..] else [s[0]] + RemoveFirst(s[1..], t)
  }

  const WAKE_ALL: nat := 0xffff_ffff

  function WakeCount(limit: nat, waiting: nat): nat {
    if limit == WAKE_ALL || limit > waiting then waiting else limit
  }

  /** The ticket a queued thread waits on. */
  function TicketOf(w: World, t: Thread): Option<nat> {
    match PhaseOf(w, t)
    case Blocked(_, k, _) => Some(k)
    case Expired(_, k) => Some(k)
    case _ => None
  }

  function TicketsOf(w: World, ts: seq<Thread>): (r: seq<nat>)
    ensures |r| == |ts|
  {
    seq(|ts|, i requires 0 <= i < |ts| => if TicketOf(w, ts[i]).Some? then TicketOf(w, ts[i]).value else 0)
  }

  function Release(tickets: seq<Ticket>, ks: seq<nat>, notify: nat): (r: seq<Ticket>)
    ensures |r| == |tickets|
    ensures forall k :: 0 <= k < |r| ==> r[k] == if k in ks then tickets[k].(fate := Released(notify)) else tickets[k]
  {
    seq(|tickets|, k requires 0 <= k < |tickets| => if k in ks then tickets[k].(fate := Released(notify)) else tickets[k])
  }

  /** The list with the given number, once opened for the address, has been deleted. */
  predicate Deleted(w: World, a: Address, list: nat) {
    a !in w.lists || w.lists[a].id != list
  }

  datatype Step =
    | Write(address: Address, value: int)
    | BeginWait(thread: Thread, address: Address, expected: int)
    | CheckAndQueue(thread: Thread, timed: bool)
    | TakeSignal(thread: Thread)
    | Expire(thread: Thread)
    | Withdraw(thread: Thread)
    | EndWait(thread: Thread)
    | BeginNotify(thread: Thread, address: Address, limit: nat)
    | Wake(thread: Thread)
    | EndNotify(thread: Thread)
    | Reclaim(thread: Thread)

  /** The effect of one step. Fails stands for an assertion of the source that does not hold, or
      a wait list used after it was deleted. */
  datatype Effect = Impossible | Fails | Next(world: World)

  function Act(w: World, step: Step): Effect {
    match step
    case Write(a, v) => Next(w.(memory := w.memory[a := v]))
    case BeginWait(t, a, expected) =>
      if PhaseOf(w, t) != Idle || a !in w.memory then Impossible else Next(Enter(Open(w, a), t, Entering(a, expected)))
    case CheckAndQueue(t, timed) =>
      var p := PhaseOf(w, t);
      if !p.Entering? then Impossible
      else if p.address !in w.lists || p.address !in w.memory then Fails
      else if w.memory[p.address] != p.expected then Next(Enter(w, t, LeavingWait(p.address, None, 1)))
      else
        var l := w.lists[p.address];
        var w1 := w.(lists := w.lists[p.address := l.(waiters := l.waiters + [t])],
                     tickets := w.tickets + [Ticket(t, p.address, Queued)]);
        Next(Enter(w1, t, Blocked(p.address, |w.tickets|, timed)))
    case TakeSignal(t) =>
      var p := PhaseOf(w, t);
      if !p.Blocked? || t !in w.signaled then Impossible
      else Next(Enter(w.(signaled := w.signaled - {t}), t, LeavingWait(p.address, Some(p.ticket), 0)))
    case Expire(t) =>
      var p := PhaseOf(w, t);
      if !p.Blocked? || !p.timed || t in w.signaled then Impossible
      else Next(Enter(w, t, Expired(p.address, p.ticket)))
    case Withdraw(t) =>
      var p := PhaseOf(w, t);
      if !p.Expired? then Impossible
      else if p.address !in w.lists || p.ticket >= |w.tickets| then Fails
      else if t in w.lists[p.address].waiters then
        var l := w.lists[p.address];
        var w1 := w.(lists := w.lists[p.address := l.(waiters := RemoveFirst(l.waiters, t))],
                     tickets := w.tickets[p.ticket := w.tickets[p.ticket].(fate := Withdrawn)]);
        Next(Enter(w1, t, LeavingWait(p.address, Some(p.ticket), 2)))
      else if t !in w.signaled then Fails
      else Next(Enter(w.(signaled := w.signaled - {t}), t, LeavingWait(p.address, Some(p.ticket), 0)))
    case EndWait(t) =>
      var p := PhaseOf(w, t);
      if !p.LeavingWait? then Impossible
      else if p.address !in w.lists || w.lists[p.address].references == 0 then Fails
      else
        var returned := if p.finished.Some? then w.returned[p.finished.value := p.result] else w.returned;
        Next(Enter(LetGo(w, p.address), t, AfterLetGo(w, p.address))
             .(returned := returned, exits := w.exits + [Exit(t, p.result)]))
    case BeginNotify(t, a, limit) =>
      if PhaseOf(w, t) != Idle || limit == 0 then Impossible else Next(Enter(Open(w, a), t, Notifying(a, limit)))
    case Wake(t) =>
      var p := PhaseOf(w, t);
      if !p.Notifying? then Impossible
      else if p.address !in w.lists then Fails
      else
        var l := w.lists[p.address];
        var n := WakeCount(p.limit, |l.waiters|);
        var woken := l.waiters[..n];
        var id := |w.notifies|;
        var w1 := w.(lists := w.lists[p.address := l.(waiters := l.waiters[n..])],
                     signaled := w.signaled + (set u | u in woken),
                     tickets := Release(w.tickets, TicketsOf(w, woken), id),
                     notifies := w.notifies + [Notify(p.address, p.limit, TicketsOf(w, l.waiters), n)]);
        Next(Enter(w1, t, LeavingNotify(p.address, id, n)))
    case EndNotify(t) =>
      var p := PhaseOf(w, t);
      if !p.LeavingNotify? then Impossible
      else if p.address !in w.lists || w.lists[p.address].references == 0 then Fails
      else Next(Enter(LetGo(w, p.address), t, AfterLetGo(w, p.address)).(counted := w.counted[p.notify := p.count]))
    case Reclaim(t) =>
      var p := PhaseOf(w, t);
      if !p.Reclaiming? then Impossible
      else if Deleted(w, p.address, p.list) then Fails
      else if w.lists[p.address].references > 0 then Next(Enter(w, t, Idle))
      else if w.lists[p.address].waiters != [] then Fails
      else Next(Enter(w.(lists := w.lists - {p.address}), t, Idle))
  }

  function Initial(memory: map<Address, int>): World {
    World(memory, map[], 0, map[], {}, [], [], map[], map[], [])
  }

  /** The world after a run; None if some step of it is impossible or fails. */
  function Play(w: World, steps: seq<Step>): Option<World> {
    if steps == [] then Some(w)
    else
      var before :- Play(w, steps[..|steps| - 1]);
      match Act(before, steps[|steps| - 1])
      case Next(after) => Some(after)
      case _ => None
  }
}
