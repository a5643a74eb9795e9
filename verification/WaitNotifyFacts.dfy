/** Invariants of the wait/notify protocol over all interleavings. */
module WaitNotifyFacts {
  import opened Wrappers
  import opened WaitNotify

  // ----- the invariant -----

  ghost function Users(phases: map<Thread, Phase>, a: Address): set<Thread> {
    set t | t in phases && phases[t].Uses(a)
  }

  /** What a thread's position in the protocol says about its event and its ticket. */
  ghost predicate ThreadOk(w: World, t: Thread) {
    match PhaseOf(w, t)
    case Blocked(a, k, _) => WaitingOn(w, t, a, k)
    case Expired(a, k) => WaitingOn(w, t, a, k)
    case LeavingWait(a, Some(k), r) =>
      && t !in w.signaled && k < |w.tickets| && w.tickets[k].thread == t
      && Outcome(w.tickets[k].fate, r)
    case LeavingWait(a, None, r) => t !in w.signaled && r == 1
    case LeavingNotify(a, n, c) => t !in w.signaled && n < |w.notifies| && w.notifies[n].count == c
    case Entering(a, _) => t !in w.signaled && a in w.memory
    case Reclaiming(_, l) => t !in w.signaled && l < w.created
    case _ => t !in w.signaled
  }

  ghost predicate WaitingOn(w: World, t: Thread, a: Address, k: nat) {
    && k < |w.tickets| && w.tickets[k].thread == t && w.tickets[k].address == a
    && !w.tickets[k].fate.Withdrawn?
    && (t in w.signaled <==> w.tickets[k].fate.Released?)
  }

  /** Result 0 belongs to a wait a notify released, result 2 to one that withdrew itself. */
  ghost predicate Outcome(fate: Fate, result: nat) {
    (result == 0 && fate.Released?) || (result == 2 && fate.Withdrawn?)
  }

  ghost predicate TicketOk(w: World, k: nat)
    requires k < |w.tickets|
  {
    var ticket := w.tickets[k];
    && (if k in w.returned then Outcome(ticket.fate, w.returned[k]) else PhaseOf(w, ticket.thread).Holds(k))
    && (ticket.fate.Queued? ==> ticket.thread in Waiters(w, ticket.address) && k !in w.returned)
    && (ticket.fate.Released? ==>
          && ticket.fate.notify < |w.notifies|
          && w.notifies[ticket.fate.notify].address == ticket.address
          && k in Taken(w.notifies[ticket.fate.notify]))
  }

  /** The tickets a notify released: the oldest ones it saw. */
  ghost function Taken(n: Notify): seq<nat> {
    if n.count <= |n.seen| then n.seen[..n.count] else n.seen
  }

  ghost predicate Ascending(s: seq<nat>) {
    forall i, j :: 0 <= i < j < |s| ==> s[i] < s[j]
  }

  ghost predicate QueueOk(w: World, a: Address) {
    && (forall i :: 0 <= i < |Waiters(w, a)| ==> QueuedAt(w, Waiters(w, a)[i], a))
    && Ascending(TicketsOf(w, Waiters(w, a)))
  }

  ghost predicate QueuedAt(w: World, t: Thread, a: Address) {
    && TicketOf(w, t).Some? && PhaseOf(w, t).address == a
    && TicketOf(w, t).value < |w.tickets| && w.tickets[TicketOf(w, t).value] == Ticket(t, a, Queued)
  }

  /** A list counts its users, and lives as long as someone uses it or is about to reclaim it. */
  ghost predicate ReferencesOk(w: World, a: Address) {
    var n := |Users(w.phases, a)|;
    if a in w.lists
    then w.lists[a].references == n && w.lists[a].id < w.created && (n > 0 || exists t :: Reclaims(w, t, a))
    else n == 0
  }

  ghost predicate Reclaims(w: World, t: Thread, a: Address) {
    a in w.lists && PhaseOf(w, t) == Reclaiming(a, w.lists[a].id)
  }

  ghost predicate NotifyOk(w: World, n: nat)
    requires n < |w.notifies|
  {
    var e := w.notifies[n];
    && e.count == WakeCount(e.limit, |e.seen|) && Ascending(e.seen)
    && forall i :: 0 <= i < e.count ==> e.seen[i] < |w.tickets| && w.tickets[e.seen[i]].fate == Released(n)
  }

  /** Releases at one address happen in the order of queueing. */
  ghost predicate Fifo(tickets: seq<Ticket>) {
    forall j, k :: 0 <= j < k < |tickets| && tickets[j].address == tickets[k].address && tickets[k].fate.Released? ==>
      && !tickets[j].fate.Queued?
      && (tickets[j].fate.Released? ==> tickets[j].fate.notify <= tickets[k].fate.notify)
  }

  ghost predicate Inv(w: World) {
    && (forall t :: ThreadOk(w, t))
    && (forall k: nat :: k < |w.tickets| ==> TicketOk(w, k))
    && (forall a :: QueueOk(w, a))
    && (forall a :: ReferencesOk(w, a))
    && (forall n: nat :: n < |w.notifies| ==> NotifyOk(w, n))
    && Fifo(w.tickets)
    && (forall k :: k in w.returned ==> k < |w.tickets|)
    && forall n :: n in w.counted ==> n < |w.notifies| && w.counted[n] == w.notifies[n].count
  }

  lemma InitialInv(memory: map<Address, int>)
    ensures Inv(Initial(memory))
  {
  }

  // ----- references -----

  lemma UsersEnter(phases: map<Thread, Phase>, t: Thread, p: Phase, a: Address)
    ensures Users(phases[t := p], a) == (Users(phases, a) - {t}) + (if p.Uses(a) then {t} else {})
  {
  }

  lemma UsersSame(phases: map<Thread, Phase>, t: Thread, p: Phase, a: Address)
    requires t in phases && (phases[t].Uses(a) <==> p.Uses(a))
    ensures Users(phases[t := p], a) == Users(phases, a)
  {
  }

  lemma OpenReferences(w: World, t: Thread, p: Phase, a: Address)
    requires PhaseOf(w, t) == Idle && p.Uses(a) && forall b :: ReferencesOk(w, b)
    ensures forall b :: ReferencesOk(Enter(Open(w, a), t, p), b)
  {
    hide ReferencesOk;
    var r := Enter(Open(w, a), t, p);
    forall b ensures ReferencesOk(r, b) {
      assert ReferencesOk(w, b);
      OpenReference(w, t, p, a, b);
    }
  }

  lemma OpenReference(w: World, t: Thread, p: Phase, a: Address, b: Address)
    requires PhaseOf(w, t) == Idle && p.Uses(a) && ReferencesOk(w, b)
    ensures ReferencesOk(Enter(Open(w, a), t, p), b)
  {
    UsersEnter(w.phases, t, p, b);
    assert Users(w.phases, b) - {t} == Users(w.phases, b);
    if b == a {
      assert t !in Users(w.phases, a);
      assert |Users(w.phases, a) + {t}| == |Users(w.phases, a)| + 1;
    } else {
      OpenElsewhere(w, t, p, a, b);
    }
  }

  lemma OpenElsewhere(w: World, t: Thread, p: Phase, a: Address, b: Address)
    requires PhaseOf(w, t) == Idle && p.Uses(a) && ReferencesOk(w, b) && b != a
    requires Users(w.phases[t := p], b) == Users(w.phases, b)
    ensures ReferencesOk(Enter(Open(w, a), t, p), b)
  {
    var r := Enter(Open(w, a), t, p);
    assert (b in r.lists <==> b in w.lists) && (b in w.lists ==> r.lists[b] == w.lists[b]) && w.created <= r.created;
    KeepsReclaimer(w, r, t, b);
  }

  lemma KeepsReclaimer(w: World, r: World, t: Thread, b: Address)
    requires !PhaseOf(w, t).Reclaiming? && (forall u :: u != t ==> PhaseOf(r, u) == PhaseOf(w, u))
    requires b in w.lists ==> b in r.lists && r.lists[b].id == w.lists[b].id
    ensures (exists u :: Reclaims(w, u, b)) ==> exists u :: Reclaims(r, u, b)
  {
    if u :| Reclaims(w, u, b) {
      assert Reclaims(r, u, b);
    }
  }

  /** Giving up a reference: the count stays right, and the last user becomes the one to reclaim. */
  lemma CloseReferences(w: World, t: Thread, a: Address)
    requires PhaseOf(w, t).Uses(a) && a in w.lists && w.lists[a].references > 0 && forall b :: ReferencesOk(w, b)
    ensures forall b :: ReferencesOk(Enter(LetGo(w, a), t, AfterLetGo(w, a)), b)
  {
    hide ReferencesOk;
    var r := Enter(LetGo(w, a), t, AfterLetGo(w, a));
    forall b ensures ReferencesOk(r, b) {
      assert ReferencesOk(w, b);
      if b == a {
        CloseOwn(w, t, a);
      } else {
        CloseOther(w, t, a, b);
      }
    }
  }

  lemma CloseOwn(w: World, t: Thread, a: Address)
    requires PhaseOf(w, t).Uses(a) && a in w.lists && w.lists[a].references > 0 && ReferencesOk(w, a)
    ensures ReferencesOk(Enter(LetGo(w, a), t, AfterLetGo(w, a)), a)
  {
    var p := AfterLetGo(w, a);
    UsersEnter(w.phases, t, p, a);
    var users := Users(w.phases, a);
    assert t in users && |users - {t}| == |users| - 1;
    assert (users - {t}) + {} == users - {t};
    if w.lists[a].references == 1 {
      assert Reclaims(Enter(LetGo(w, a), t, p), t, a);
    }
  }

  lemma CloseOther(w: World, t: Thread, a: Address, b: Address)
    requires PhaseOf(w, t).Uses(a) && a in w.lists && w.lists[a].references > 0 && ReferencesOk(w, b) && b != a
    ensures ReferencesOk(Enter(LetGo(w, a), t, AfterLetGo(w, a)), b)
  {
    var p := AfterLetGo(w, a);
    UsersEnter(w.phases, t, p, b);
    var users := Users(w.phases, b);
    assert users - {t} == users && users + {} == users;
    KeepsReclaimer(w, Enter(LetGo(w, a), t, p), t, b);
  }

  /** A waiter uses the list, so a list without users has no waiters. */
  lemma UnusedEmpty(w: World, a: Address)
    requires Inv(w) && a in w.lists
    ensures w.lists[a].references == 0 ==> w.lists[a].waiters == []
  {
    assert ReferencesOk(w, a) && QueueOk(w, a);
    if w.lists[a].waiters != [] {
      var u := Waiters(w, a)[0];
      assert QueuedAt(w, u, a);
      assert u in Users(w.phases, a);
    }
  }

  lemma UserListed(w: World, t: Thread, a: Address)
    requires ReferencesOk(w, a) && PhaseOf(w, t).Uses(a)
    ensures a in w.lists && w.lists[a].references > 0
  {
    assert t in Users(w.phases, a);
  }

  // ----- keeping the parts of the invariant -----

  /** A queue whose members keep their tickets is kept. */
  lemma QueueKept(w: World, r: World, a: Address)
    requires QueueOk(w, a) && Waiters(r, a) == Waiters(w, a) && |w.tickets| <= |r.tickets|
    requires forall i :: 0 <= i < |Waiters(w, a)| ==> Undisturbed(w, r, Waiters(w, a)[i])
    ensures QueueOk(r, a)
  {
    var queue := Waiters(w, a);
    forall i | 0 <= i < |queue| ensures QueuedAt(r, queue[i], a) && TicketOf(r, queue[i]) == TicketOf(w, queue[i]) {
      assert QueuedAt(w, queue[i], a) && Undisturbed(w, r, queue[i]);
    }
    assert TicketsOf(r, queue) == TicketsOf(w, queue);
  }

  /** The thread waits on the same ticket, which has not changed. */
  ghost predicate Undisturbed(w: World, r: World, u: Thread) {
    && TicketOf(r, u) == TicketOf(w, u)
    && (TicketOf(w, u).Some? ==>
          && PhaseOf(r, u).address == PhaseOf(w, u).address
          && (TicketOf(w, u).value < |w.tickets| <= |r.tickets| ==> r.tickets[TicketOf(w, u).value] == w.tickets[TicketOf(w, u).value]))
  }

  lemma NotifyKept(w: World, r: World, n: nat)
    requires n < |w.notifies| && NotifyOk(w, n) && n < |r.notifies| && r.notifies[n] == w.notifies[n]
    requires |w.tickets| <= |r.tickets|
    requires forall k: nat :: k < |w.tickets| && w.tickets[k].fate.Released? ==> r.tickets[k] == w.tickets[k]
    ensures NotifyOk(r, n)
  {
  }

  lemma ReferencesKept(w: World, r: World, t: Thread, p: Phase)
    requires !p.Idle?
    requires r.phases == w.phases[t := p] && PhaseOf(w, t).Uses(p.address) && p.Uses(p.address) && r.created == w.created
    requires r.lists.Keys == w.lists.Keys
    requires forall a :: a in w.lists ==> r.lists[a].references == w.lists[a].references && r.lists[a].id == w.lists[a].id
    requires forall a :: ReferencesOk(w, a)
    ensures forall a :: ReferencesOk(r, a)
  {
    forall a ensures ReferencesOk(r, a) {
      assert ReferencesOk(w, a);
      UsersSame(w.phases, t, p, a);
      forall u | Reclaims(w, u, a) ensures Reclaims(r, u, a) {
      }
    }
  }

  // ----- the steps of a wait -----

  lemma OpenEffect(w: World, t: Thread, a: Address, p: Phase)
    requires PhaseOf(w, t) == Idle && (p.Entering? || p.Notifying?)
    ensures var r := Enter(Open(w, a), t, p);
            && r.tickets == w.tickets && r.notifies == w.notifies && r.returned == w.returned && r.counted == w.counted
            && (forall u :: u != t ==> PhaseOf(r, u) == PhaseOf(w, u)) && (forall b :: Waiters(r, b) == Waiters(w, b))
            && TicketOf(w, t).None? && TicketOf(r, t).None?
  {
  }

  lemma OpenThread(w: World, t: Thread, a: Address, p: Phase, u: Thread)
    requires PhaseOf(w, t) == Idle && ((p.Entering? && p.address in w.memory) || p.Notifying?)
    requires ThreadOk(w, t) && ThreadOk(w, u)
    ensures ThreadOk(Enter(Open(w, a), t, p), u)
  {
  }

  lemma BeginKeeps(w: World, t: Thread, a: Address, p: Phase)
    requires Inv(w) && PhaseOf(w, t) == Idle
    requires ((p.Entering? && a in w.memory) || p.Notifying?) && p.address == a
    ensures Inv(Enter(Open(w, a), t, p))
  {
    hide ReferencesOk, NotifyOk, Fifo, QueueOk, TicketOk, ThreadOk;
    var r := Enter(Open(w, a), t, p);
    OpenReferences(w, t, p, a);
    OpenEffect(w, t, a, p);
    forall b ensures QueueOk(r, b) {
      assert QueueOk(w, b);
      QueueKept(w, r, b);
    }
    forall u ensures ThreadOk(r, u) {
      assert ThreadOk(w, u) && ThreadOk(w, t);
      OpenThread(w, t, a, p, u);
    }
    forall k: nat | k < |r.tickets| ensures TicketOk(r, k) {
      assert TicketOk(w, k);
      ReclaimTicket(w, r, t, k);
    }
    forall n: nat | n < |r.notifies| ensures NotifyOk(r, n) {
      assert NotifyOk(w, n);
      NotifyKept(w, r, n);
    }
  }

  lemma WriteKeeps(w: World, a: Address, v: int)
    requires Inv(w)
    ensures Inv(w.(memory := w.memory[a := v]))
  {
    hide ReferencesOk, NotifyOk, Fifo, QueueOk, TicketOk;
    var r := w.(memory := w.memory[a := v]);
    forall u ensures ThreadOk(r, u) {
      assert ThreadOk(w, u);
    }
    forall b ensures QueueOk(r, b) && ReferencesOk(r, b) {
      assert QueueOk(w, b) && ReferencesOk(w, b);
      QueueKept(w, r, b);
      SameReferences(w, r, b);
    }
    forall k: nat | k < |r.tickets| ensures TicketOk(r, k) {
      assert TicketOk(w, k);
      SameTicket(w, r, k);
    }
    forall n: nat | n < |r.notifies| ensures NotifyOk(r, n) {
      assert NotifyOk(w, n);
      NotifyKept(w, r, n);
    }
  }

  lemma SameReferences(w: World, r: World, a: Address)
    requires ReferencesOk(w, a) && r.lists == w.lists && r.phases == w.phases && r.created == w.created
    ensures ReferencesOk(r, a)
  {
    forall u | Reclaims(w, u, a) ensures Reclaims(r, u, a) {
    }
  }

  lemma SameTicket(w: World, r: World, k: nat)
    requires k < |w.tickets| && TicketOk(w, k)
    requires r.tickets == w.tickets && r.returned == w.returned && r.notifies == w.notifies && r.lists == w.lists && r.phases == w.phases
    ensures TicketOk(r, k)
  {
  }

  /** The thread itself moves on without touching any queue or ticket, and was in no queue. */
  lemma MoveKeeps(w: World, r: World, t: Thread, p: Phase)
    requires Inv(w) && !p.Idle? && PhaseOf(w, t).Uses(p.address) && p.Uses(p.address)
    requires r == Enter(w.(signaled := r.signaled), t, p) && r.signaled - {t} == w.signaled - {t}
    requires ThreadOk(r, t)
    requires forall k: nat :: PhaseOf(w, t).Holds(k) ==> p.Holds(k)
    requires TicketOf(r, t) == TicketOf(w, t) || forall a :: t !in Waiters(w, a)
    ensures Inv(r)
  {
    hide ReferencesOk, NotifyOk, Fifo, QueueOk;
    ReferencesKept(w, r, t, p);
    forall u ensures ThreadOk(r, u) {
      assert ThreadOk(w, u);
      assert u != t ==> (u in r.signaled <==> u in r.signaled - {t}) && (u in w.signaled <==> u in w.signaled - {t});
    }
    forall b ensures QueueOk(r, b) {
      assert QueueOk(w, b);
      QueueKept(w, r, b);
    }
    forall k: nat | k < |r.tickets| ensures TicketOk(r, k) {
      assert TicketOk(w, k);
    }
    forall n: nat | n < |r.notifies| ensures NotifyOk(r, n) {
      assert NotifyOk(w, n);
      NotifyKept(w, r, n);
    }
  }

  lemma NotQueued(w: World, t: Thread)
    requires Inv(w) && (TicketOf(w, t).None? || (TicketOf(w, t).value < |w.tickets| && !w.tickets[TicketOf(w, t).value].fate.Queued?))
    ensures forall a :: t !in Waiters(w, a)
  {
    forall a ensures t !in Waiters(w, a) {
      assert QueueOk(w, a);
      forall i | 0 <= i < |Waiters(w, a)| ensures Waiters(w, a)[i] != t {
        assert QueuedAt(w, Waiters(w, a)[i], a);
      }
    }
  }

  lemma QueueGrows(w: World, r: World, t: Thread, a: Address)
    requires Inv(w) && TicketOf(w, t).None?
    requires r.tickets == w.tickets + [Ticket(t, a, Queued)]
    requires PhaseOf(r, t).Blocked? && PhaseOf(r, t).address == a && PhaseOf(r, t).ticket == |w.tickets|
    requires forall u :: u != t ==> PhaseOf(r, u) == PhaseOf(w, u)
    requires Waiters(r, a) == Waiters(w, a) + [t] && forall b :: b != a ==> Waiters(r, b) == Waiters(w, b)
    ensures forall b :: QueueOk(r, b)
  {
    NotQueued(w, t);
    forall b ensures QueueOk(r, b) {
      assert QueueOk(w, b);
      var queue := Waiters(w, b);
      forall i | 0 <= i < |queue| ensures QueuedAt(r, queue[i], b) && TicketOf(r, queue[i]) == TicketOf(w, queue[i]) {
        assert QueuedAt(w, queue[i], b) && queue[i] != t;
      }
      assert TicketsOf(r, queue) == TicketsOf(w, queue);
      if b == a {
        var ks := TicketsOf(r, Waiters(r, a));
        assert ks == TicketsOf(r, queue) + [|w.tickets|];
        forall i | 0 <= i < |queue| ensures ks[i] < |w.tickets| {
          assert QueuedAt(w, queue[i], a);
        }
        assert QueuedAt(r, t, a);
      }
    }
  }

  lemma QueueKeeps(w: World, t: Thread, timed: bool)
    requires Inv(w) && PhaseOf(w, t).Entering? && PhaseOf(w, t).address in w.lists
    ensures var a := PhaseOf(w, t).address;
            var l := w.lists[a];
            var r := w.(lists := w.lists[a := l.(waiters := l.waiters + [t])], tickets := w.tickets + [Ticket(t, a, Queued)]);
            Inv(Enter(r, t, Blocked(a, |w.tickets|, timed)))
  {
    hide ReferencesOk, NotifyOk, QueueOk;
    var a := PhaseOf(w, t).address;
    var l, p := w.lists[a], Blocked(a, |w.tickets|, timed);
    var r := Enter(w.(lists := w.lists[a := l.(waiters := l.waiters + [t])], tickets := w.tickets + [Ticket(t, a, Queued)]), t, p);
    assert ThreadOk(w, t);
    ReferencesKept(w, r, t, p);
    QueueGrows(w, r, t, a);
    forall u ensures ThreadOk(r, u) {
      assert ThreadOk(w, u);
    }
    forall k: nat | k < |r.tickets| ensures TicketOk(r, k) {
      if k < |w.tickets| {
        assert TicketOk(w, k);
      }
    }
    forall n: nat | n < |r.notifies| ensures NotifyOk(r, n) {
      assert NotifyOk(w, n);
      NotifyKept(w, r, n);
    }
  }

  lemma {:induction false} RemoveFirstIs(s: seq<Thread>, t: Thread) returns (i: nat)
    requires t in s
    ensures i < |s| && s[i] == t && RemoveFirst(s, t) == s[..i] + s[i + 1..]
  {
    if s[0] == t {
      i := 0;
    } else {
      var j := RemoveFirstIs(s[1..], t);
      i := j + 1;
      assert [s[0]] + s[1..][..j] == s[..i];
    }
  }

  /** Part of a queue, in the same order, is a queue if its members keep their tickets. */
  lemma SubQueue(w: World, r: World, a: Address, at: seq<nat>)
    requires QueueOk(w, a) && |Waiters(r, a)| == |at| && Ascending(at) && |w.tickets| <= |r.tickets|
    requires forall i :: 0 <= i < |at| ==>
               at[i] < |Waiters(w, a)| && Waiters(r, a)[i] == Waiters(w, a)[at[i]] && Undisturbed(w, r, Waiters(r, a)[i])
    ensures QueueOk(r, a)
  {
    var queue := Waiters(r, a);
    forall i | 0 <= i < |queue| ensures QueuedAt(r, queue[i], a) && TicketOf(r, queue[i]) == TicketOf(w, queue[i]) {
      assert QueuedAt(w, Waiters(w, a)[at[i]], a) && Undisturbed(w, r, queue[i]);
    }
    forall i, j | 0 <= i < j < |queue| ensures TicketsOf(r, queue)[i] < TicketsOf(r, queue)[j] {
      assert TicketsOf(w, Waiters(w, a))[at[i]] < TicketsOf(w, Waiters(w, a))[at[j]];
    }
  }

  /** Only `t` and its ticket change, and `t` leaves the queue at `a`. */
  ghost predicate Leaves(w: World, r: World, t: Thread, a: Address) {
    && QueuedAt(w, t, a) && TicketOf(r, t).None?
    && (forall u :: u != t ==> PhaseOf(r, u) == PhaseOf(w, u))
    && r.tickets == w.tickets[TicketOf(w, t).value := Ticket(t, a, Withdrawn)]
  }

  lemma LeavesOthers(w: World, r: World, t: Thread, a: Address, u: Thread, b: Address)
    requires Leaves(w, r, t, a) && QueuedAt(w, u, b) && u != t
    ensures Undisturbed(w, r, u)
  {
  }

  lemma OtherQueue(w: World, r: World, t: Thread, a: Address, b: Address)
    requires Leaves(w, r, t, a) && b != a && QueueOk(w, b) && Waiters(r, b) == Waiters(w, b)
    ensures QueueOk(r, b)
  {
    hide Leaves, Ascending;
    LeavesFrom(w, r, t, a);
    forall i | 0 <= i < |Waiters(w, b)| ensures Undisturbed(w, r, Waiters(w, b)[i]) {
      assert QueuedAt(w, Waiters(w, b)[i], b);
      LeavesOthers(w, r, t, a, Waiters(w, b)[i], b);
    }
    QueueKept(w, r, b);
  }

  lemma LeavesFrom(w: World, r: World, t: Thread, a: Address)
    requires Leaves(w, r, t, a)
    ensures QueuedAt(w, t, a) && |r.tickets| == |w.tickets|
  {
  }

  /** A thread is queued at most once. */
  lemma QueuedOnce(w: World, a: Address, x: nat, i: nat)
    requires QueueOk(w, a) && i < |Waiters(w, a)| && x < |Waiters(w, a)| && i != x
    ensures Waiters(w, a)[i] != Waiters(w, a)[x]
  {
    assert TicketsOf(w, Waiters(w, a))[i] != TicketsOf(w, Waiters(w, a))[x];
  }

  function Without<T>(s: seq<T>, x: nat): (r: seq<T>)
    requires x < |s|
    ensures |r| == |s| - 1 && forall i :: 0 <= i < |r| ==> r[i] == s[if i < x then i else i + 1]
  {
    s[..x] + s[x + 1..]
  }

  function Skipping(n: nat, x: nat): (r: seq<nat>)
    requires x <= n
    ensures |r| == n && forall i :: 0 <= i < n ==> r[i] == if i < x then i else i + 1
  {
    seq(n, i requires 0 <= i < n => if i < x then i else i + 1)
  }

  lemma OwnQueue(w: World, r: World, t: Thread, a: Address)
    requires Leaves(w, r, t, a) && QueueOk(w, a) && t in Waiters(w, a) && Waiters(r, a) == RemoveFirst(Waiters(w, a), t)
    ensures QueueOk(r, a)
    ensures t !in Waiters(r, a) && forall u :: u != t && u in Waiters(w, a) ==> u in Waiters(r, a)
  {
    hide Leaves, QueueOk, QueuedAt, Without, Skipping, Undisturbed, RemoveFirst;
    LeavesFrom(w, r, t, a);
    var queue := Waiters(w, a);
    var x := RemoveFirstIs(queue, t);
    var rest, at := Waiters(r, a), Skipping(|queue| - 1, x);
    assert rest == Without(queue, x) by { WithoutIs(queue, x); }
    forall i | 0 <= i < |rest| ensures rest[i] == queue[at[i]] && rest[i] != t && Undisturbed(w, r, rest[i]) {
      QueuedOnce(w, a, x, at[i]);
      MemberQueued(w, queue[at[i]], a);
      LeavesOthers(w, r, t, a, queue[at[i]], a);
    }
    SubQueue(w, r, a, at);
    OthersKept(queue, x);
  }

  lemma OthersKept(s: seq<Thread>, x: nat)
    requires x < |s|
    ensures forall u :: u != s[x] && u in s ==> u in Without(s, x)
  {
    forall u | u != s[x] && u in s ensures u in Without(s, x) {
      var i :| 0 <= i < |s| && s[i] == u;
      assert Without(s, x)[if i < x then i else i - 1] == u;
    }
  }

  lemma WithoutIs(s: seq<Thread>, x: nat)
    requires x < |s|
    ensures s[..x] + s[x + 1..] == Without(s, x)
  {
  }

  lemma WithdrawTicket(w: World, r: World, t: Thread, a: Address, k: nat)
    requires Leaves(w, r, t, a) && k < |w.tickets| && TicketOk(w, k) && r.returned == w.returned && r.notifies == w.notifies
    requires PhaseOf(r, t) == LeavingWait(a, TicketOf(w, t), 2)
    requires forall b, u :: u != t && u in Waiters(w, b) ==> u in Waiters(r, b)
    ensures TicketOk(r, k)
  {
  }

  lemma WithdrawFifo(w: World, r: World, t: Thread, a: Address)
    requires Leaves(w, r, t, a) && Fifo(w.tickets)
    ensures Fifo(r.tickets)
    ensures forall k: nat :: k < |w.tickets| && w.tickets[k].fate.Released? ==> r.tickets[k] == w.tickets[k]
  {
  }

  lemma WithdrawKeeps(w: World, r: World, t: Thread, a: Address)
    requires Inv(w) && a in w.lists && t in Waiters(w, a) && Leaves(w, r, t, a) && PhaseOf(w, t).Expired?
    requires var q := LeavingWait(a, TicketOf(w, t), 2);
             r == Enter(w.(lists := w.lists[a := w.lists[a].(waiters := RemoveFirst(w.lists[a].waiters, t))], tickets := r.tickets), t, q)
    ensures Inv(r)
  {
    hide ReferencesOk, NotifyOk, QueueOk, Fifo, TicketOk;
    assert ThreadOk(w, t) && QueueOk(w, a);
    ReferencesKept(w, r, t, PhaseOf(r, t));
    OwnQueue(w, r, t, a);
    forall b ensures QueueOk(r, b) {
      assert QueueOk(w, b);
      if b != a {
        OtherQueue(w, r, t, a, b);
      }
    }
    forall u ensures ThreadOk(r, u) {
      assert ThreadOk(w, u);
    }
    forall k: nat | k < |r.tickets| ensures TicketOk(r, k) {
      assert TicketOk(w, k);
      WithdrawTicket(w, r, t, a, k);
    }
    WithdrawFifo(w, r, t, a);
    forall n: nat | n < |r.notifies| ensures NotifyOk(r, n) {
      assert NotifyOk(w, n);
      NotifyKept(w, r, n);
    }
  }

  lemma MemberQueued(w: World, t: Thread, a: Address)
    requires QueueOk(w, a) && t in Waiters(w, a)
    ensures QueuedAt(w, t, a)
  {
    var i :| 0 <= i < |Waiters(w, a)| && Waiters(w, a)[i] == t;
  }

  // ----- leaving -----

  /** The thread gives up its list; a finished wait or notify is recorded. */
  ghost predicate Ends(w: World, r: World, t: Thread) {
    var p := PhaseOf(w, t);
    && (p.LeavingWait? || p.LeavingNotify?) && p.address in w.lists && w.lists[p.address].references > 0
    && r == Enter(LetGo(w, p.address), t, AfterLetGo(w, p.address))
            .(returned := if p.LeavingWait? && p.finished.Some? then w.returned[p.finished.value := p.result] else w.returned,
              counted := if p.LeavingNotify? then w.counted[p.notify := p.count] else w.counted,
              exits := if p.LeavingWait? then w.exits + [Exit(t, p.result)] else w.exits)
  }

  lemma EndTicket(w: World, r: World, t: Thread, k: nat)
    requires Ends(w, r, t) && ThreadOk(w, t) && k < |w.tickets| && TicketOk(w, k)
    requires forall a :: Waiters(r, a) == Waiters(w, a)
    ensures TicketOk(r, k)
  {
  }

  lemma EndReferences(w: World, r: World, t: Thread)
    requires Inv(w) && Ends(w, r, t)
    ensures forall a :: ReferencesOk(r, a)
    ensures forall a :: Waiters(r, a) == Waiters(w, a)
  {
    var a := PhaseOf(w, t).address;
    CloseReferences(w, t, a);
    var closed := Enter(LetGo(w, a), t, AfterLetGo(w, a));
    forall b ensures ReferencesOk(r, b) {
      assert ReferencesOk(closed, b);
      SameReferences(closed, r, b);
    }
  }

  lemma EndEffect(w: World, r: World, t: Thread)
    requires Ends(w, r, t) && Inv(w)
    ensures r.tickets == w.tickets && r.notifies == w.notifies && r.signaled == w.signaled && r.memory == w.memory
    ensures r.created == w.created && ThreadOk(r, t) && t !in w.signaled && TicketOf(w, t).None? && TicketOf(r, t).None?
    ensures forall u :: u != t ==> PhaseOf(r, u) == PhaseOf(w, u)
    ensures forall k :: k in r.returned ==> k < |w.tickets|
    ensures forall n :: n in r.counted ==> n < |w.notifies| && r.counted[n] == w.notifies[n].count
  {
    hide QueueOk, NotifyOk, Fifo, TicketOk;
    assert ThreadOk(w, t);
    assert ReferencesOk(w, PhaseOf(w, t).address);
  }

  lemma EndThread(w: World, r: World, t: Thread, u: Thread)
    requires r.tickets == w.tickets && r.notifies == w.notifies && r.signaled == w.signaled && r.memory == w.memory
    requires r.created == w.created && ThreadOk(r, t) && ThreadOk(w, u) && (u != t ==> PhaseOf(r, u) == PhaseOf(w, u))
    ensures ThreadOk(r, u)
  {
  }

  // ----- reclaiming -----

  /** The thread has looked at the count of a list that still exists. */
  ghost predicate Reclaimed(w: World, r: World, t: Thread) {
    var p := PhaseOf(w, t);
    && p.Reclaiming? && !Deleted(w, p.address, p.list)
    && r == Enter(if w.lists[p.address].references > 0 then w else w.(lists := w.lists - {p.address}), t, Idle)
  }

  lemma ReclaimReference(w: World, r: World, t: Thread, b: Address)
    requires Reclaimed(w, r, t) && ReferencesOk(w, b)
    ensures ReferencesOk(r, b)
  {
    UsersEnter(w.phases, t, Idle, b);
    assert (Users(w.phases, b) - {t}) + {} == Users(w.phases, b);
    if b != PhaseOf(w, t).address && b in w.lists && |Users(w.phases, b)| == 0 {
      var u :| Reclaims(w, u, b);
      assert Reclaims(r, u, b);
    }
  }

  lemma ReclaimEffect(w: World, r: World, t: Thread)
    requires Inv(w) && Reclaimed(w, r, t)
    ensures r.tickets == w.tickets && r.notifies == w.notifies && r.signaled == w.signaled && r.memory == w.memory
    ensures r.created == w.created && r.returned == w.returned && r.counted == w.counted
    ensures PhaseOf(r, t) == Idle && t !in w.signaled && TicketOf(w, t).None?
    ensures (forall u :: u != t ==> PhaseOf(r, u) == PhaseOf(w, u)) && forall a :: Waiters(r, a) == Waiters(w, a)
    ensures forall k: nat :: PhaseOf(w, t).Holds(k) ==> PhaseOf(r, t).Holds(k)
  {
    hide QueueOk, ReferencesOk, NotifyOk, Fifo, TicketOk;
    assert ThreadOk(w, t);
    UnusedEmpty(w, PhaseOf(w, t).address);
  }

  lemma ReclaimTicket(w: World, r: World, t: Thread, k: nat)
    requires k < |w.tickets| && TicketOk(w, k)
    requires r.tickets == w.tickets && r.returned == w.returned && r.notifies == w.notifies
    requires (forall u :: u != t ==> PhaseOf(r, u) == PhaseOf(w, u)) && forall a :: Waiters(r, a) == Waiters(w, a)
    requires PhaseOf(w, t).Holds(k) ==> PhaseOf(r, t).Holds(k)
    ensures TicketOk(r, k)
  {
  }

  lemma ReclaimKeeps(w: World, r: World, t: Thread)
    requires Inv(w) && Reclaimed(w, r, t)
    ensures Inv(r)
  {
    hide ReferencesOk, NotifyOk, QueueOk, Fifo, TicketOk, Reclaimed, ThreadOk;
    ReclaimEffect(w, r, t);
    forall b ensures ReferencesOk(r, b) && QueueOk(r, b) {
      assert ReferencesOk(w, b) && QueueOk(w, b);
      ReclaimReference(w, r, t, b);
      QueueKept(w, r, b);
    }
    forall u ensures ThreadOk(r, u) {
      assert ThreadOk(w, u);
      IdleThread(r, t);
      EndThread(w, r, t, u);
    }
    forall k: nat | k < |r.tickets| ensures TicketOk(r, k) {
      assert TicketOk(w, k);
      ReclaimTicket(w, r, t, k);
    }
    forall n: nat | n < |r.notifies| ensures NotifyOk(r, n) {
      assert NotifyOk(w, n);
      NotifyKept(w, r, n);
    }
  }

  lemma IdleThread(w: World, t: Thread)
    requires PhaseOf(w, t) == Idle && t !in w.signaled
    ensures ThreadOk(w, t)
  {
  }

  lemma EndKeeps(w: World, r: World, t: Thread)
    requires Inv(w) && Ends(w, r, t)
    ensures Inv(r)
  {
    hide ReferencesOk, NotifyOk, QueueOk, Fifo, TicketOk, Ends, ThreadOk;
    EndReferences(w, r, t);
    EndEffect(w, r, t);
    NotQueued(w, t);
    forall b ensures QueueOk(r, b) {
      assert QueueOk(w, b);
      QueueKept(w, r, b);
    }
    forall u ensures ThreadOk(r, u) {
      assert ThreadOk(w, u);
      EndThread(w, r, t, u);
    }
    forall k: nat | k < |r.tickets| ensures TicketOk(r, k) {
      assert TicketOk(w, k) && ThreadOk(w, t);
      EndTicket(w, r, t, k);
    }
    forall n: nat | n < |r.notifies| ensures NotifyOk(r, n) {
      assert NotifyOk(w, n);
      NotifyKept(w, r, n);
    }
  }

  // ----- waking -----

  /** The tickets of the first `n` waiters. */
  ghost function Oldest(w: World, a: Address, n: nat): seq<nat>
    requires n <= |Waiters(w, a)|
  {
    TicketsOf(w, Waiters(w, a)[..n])
  }

  lemma OldestAre(w: World, a: Address, n: nat)
    requires QueueOk(w, a) && n <= |Waiters(w, a)|
    ensures Oldest(w, a, n) == TicketsOf(w, Waiters(w, a))[..n]
    ensures forall k :: k in Oldest(w, a, n) ==>
              && k < |w.tickets| && w.tickets[k].fate.Queued? && w.tickets[k].address == a
              && w.tickets[k].thread in Waiters(w, a)[..n] && TicketOf(w, w.tickets[k].thread) == Some(k)
  {
    forall i | 0 <= i < n ensures QueuedAt(w, Waiters(w, a)[..n][i], a) {
      assert QueuedAt(w, Waiters(w, a)[i], a);
    }
  }

  /** A queued ticket has its place in the queue of its address. */
  lemma PlaceInQueue(w: World, k: nat) returns (i: nat)
    requires Inv(w) && k < |w.tickets| && w.tickets[k].fate.Queued?
    ensures var queue := Waiters(w, w.tickets[k].address);
            i < |queue| && queue[i] == w.tickets[k].thread && TicketOf(w, queue[i]) == Some(k) && TicketsOf(w, queue)[i] == k
  {
    var t, a := w.tickets[k].thread, w.tickets[k].address;
    assert TicketOk(w, k) && QueueOk(w, a);
    var queue := Waiters(w, a);
    i :| 0 <= i < |queue| && queue[i] == t;
    assert QueuedAt(w, queue[i], a);
  }

  /** The locked section of a notify. */
  ghost predicate Wakes(w: World, r: World, t: Thread, n: nat) {
    var p := PhaseOf(w, t);
    && p.Notifying? && p.address in w.lists && n == WakeCount(p.limit, |Waiters(w, p.address)|)
    && var l, id := w.lists[p.address], |w.notifies|;
       r == Enter(w.(lists := w.lists[p.address := l.(waiters := l.waiters[n..])],
                     signaled := w.signaled + (set u | u in l.waiters[..n]),
                     tickets := Release(w.tickets, TicketsOf(w, l.waiters[..n]), id),
                     notifies := w.notifies + [Notify(p.address, p.limit, TicketsOf(w, l.waiters), n)]),
                  t, LeavingNotify(p.address, id, n))
  }

  /** What a thread sees of it: the threads woken are signaled, and no other ticket changes. */
  ghost predicate Woken(w: World, r: World, t: Thread, a: Address, n: nat) {
    && PhaseOf(w, t).Notifying? && PhaseOf(w, t).address == a && n == WakeCount(PhaseOf(w, t).limit, |Waiters(w, a)|)
    && n <= |Waiters(w, a)| && |r.tickets| == |w.tickets|
    && (forall k: nat :: k < |w.tickets| ==>
          r.tickets[k] == if k in Oldest(w, a, n) then w.tickets[k].(fate := Released(|w.notifies|)) else w.tickets[k])
    && (forall u :: u in r.signaled <==> u in w.signaled || u in Waiters(w, a)[..n])
    && (forall u :: u != t ==> PhaseOf(r, u) == PhaseOf(w, u))
    && Waiters(r, a) == Waiters(w, a)[n..] && (forall b :: b != a ==> Waiters(r, b) == Waiters(w, b))
    && r.notifies == w.notifies + [Notify(a, PhaseOf(w, t).limit, TicketsOf(w, Waiters(w, a)), n)]
    && r.returned == w.returned && r.counted == w.counted && r.memory == w.memory && r.created == w.created
    && PhaseOf(r, t) == LeavingNotify(a, |w.notifies|, n)
  }

  lemma WakesWoken(w: World, r: World, t: Thread, n: nat)
    requires Wakes(w, r, t, n)
    ensures PhaseOf(w, t).Notifying? && Woken(w, r, t, PhaseOf(w, t).address, n)
  {
  }

  lemma WokenThread(w: World, r: World, t: Thread, a: Address, n: nat, u: Thread)
    requires Woken(w, r, t, a, n) && QueueOk(w, a) && ThreadOk(w, u) && ThreadOk(w, t)
    ensures ThreadOk(r, u)
  {
    OldestAre(w, a, n);
    if i :| 0 <= i < n && Waiters(w, a)[..n][i] == u {
      assert QueuedAt(w, Waiters(w, a)[i], a);
      assert Oldest(w, a, n)[i] == TicketOf(w, u).value;
    }
  }

  lemma NotAmongOldest(w: World, a: Address, n: nat, i: nat)
    requires n <= |Waiters(w, a)| && i < |Waiters(w, a)| && TicketsOf(w, Waiters(w, a))[i] !in Oldest(w, a, n)
    ensures n <= i
  {
    assert forall j :: 0 <= j < n ==> TicketsOf(w, Waiters(w, a))[j] == Oldest(w, a, n)[j];
  }

  lemma WokenTicket(w: World, r: World, t: Thread, a: Address, n: nat, k: nat)
    requires Inv(w) && Woken(w, r, t, a, n) && k < |w.tickets|
    ensures TicketOk(r, k)
  {
    hide ReferencesOk, NotifyOk, Fifo, ThreadOk;
    assert TicketOk(w, k) && QueueOk(w, a);
    OldestAre(w, a, n);
    if w.tickets[k].fate.Queued? && k !in Oldest(w, a, n) && w.tickets[k].address == a {
      var i := PlaceInQueue(w, k);
      NotAmongOldest(w, a, n, i);
      assert Waiters(w, a)[n..][i - n] == w.tickets[k].thread;
    }
  }

  lemma WokenQueue(w: World, r: World, t: Thread, a: Address, n: nat, b: Address)
    requires Inv(w) && Woken(w, r, t, a, n)
    ensures QueueOk(r, b)
  {
    hide ReferencesOk, NotifyOk, Fifo, ThreadOk, TicketOk;
    assert QueueOk(w, a) && QueueOk(w, b);
    OldestAre(w, a, n);
    if b == a {
      var m := |Waiters(w, a)| - n;
      var at := seq(m, i requires 0 <= i < m => n + i);
      forall i | 0 <= i < m ensures Waiters(r, a)[i] == Waiters(w, a)[at[i]] && Undisturbed(w, r, Waiters(r, a)[i]) {
        KeptWaiter(w, r, t, a, n, a, n + i);
      }
      SubQueue(w, r, a, at);
    } else {
      forall i | 0 <= i < |Waiters(w, b)| ensures Undisturbed(w, r, Waiters(w, b)[i]) {
        KeptWaiter(w, r, t, a, n, b, i);
      }
      QueueKept(w, r, b);
    }
  }

  /** A waiter of another address, or behind the woken ones, is not disturbed. */
  lemma KeptWaiter(w: World, r: World, t: Thread, a: Address, n: nat, b: Address, i: nat)
    requires QueueOk(w, a) && QueueOk(w, b) && Woken(w, r, t, a, n) && i < |Waiters(w, b)| && (b == a ==> n <= i)
    ensures Undisturbed(w, r, Waiters(w, b)[i])
  {
    var u := Waiters(w, b)[i];
    assert QueuedAt(w, u, b);
    OldestAre(w, a, n);
    var k := TicketOf(w, u).value;
    if k in Oldest(w, a, n) {
      var j :| 0 <= j < n && Oldest(w, a, n)[j] == k;
      assert b == a;
      assert TicketsOf(w, Waiters(w, a))[j] < TicketsOf(w, Waiters(w, a))[i];
    }
  }

  lemma WokenNotify(w: World, r: World, t: Thread, a: Address, n: nat)
    requires QueueOk(w, a) && Woken(w, r, t, a, n)
    ensures NotifyOk(r, |w.notifies|)
    ensures forall k: nat :: k < |w.tickets| && w.tickets[k].fate.Released? ==> r.tickets[k] == w.tickets[k]
  {
    OldestAre(w, a, n);
    var seen := TicketsOf(w, Waiters(w, a));
    forall i | 0 <= i < n ensures seen[i] < |w.tickets| && r.tickets[seen[i]].fate == Released(|w.notifies|) {
      assert Oldest(w, a, n)[i] == seen[i];
    }
  }

  lemma WokenFifo(w: World, r: World, t: Thread, a: Address, n: nat)
    requires Inv(w) && Woken(w, r, t, a, n)
    ensures Fifo(r.tickets)
  {
    hide ReferencesOk, NotifyOk, ThreadOk;
    assert QueueOk(w, a);
    OldestAre(w, a, n);
    forall j, k | 0 <= j < k < |r.tickets| && r.tickets[j].address == r.tickets[k].address && r.tickets[k].fate.Released?
      ensures !r.tickets[j].fate.Queued?
      ensures r.tickets[j].fate.Released? ==> r.tickets[j].fate.notify <= r.tickets[k].fate.notify
    {
      assert TicketOk(w, j) && TicketOk(w, k);
      if k in Oldest(w, a, n) && w.tickets[j].fate.Queued? {
        OlderTaken(w, a, n, j, k);
      }
    }
  }

  lemma OlderTaken(w: World, a: Address, n: nat, j: nat, k: nat)
    requires Inv(w) && n <= |Waiters(w, a)| && k in Oldest(w, a, n) && j < k < |w.tickets|
    requires w.tickets[j].fate.Queued? && w.tickets[j].address == a
    ensures j in Oldest(w, a, n)
  {
    hide ReferencesOk, NotifyOk, ThreadOk, TicketOk, Fifo;
    assert QueueOk(w, a);
    OldestAre(w, a, n);
    var seen := TicketsOf(w, Waiters(w, a));
    var x :| 0 <= x < n && Oldest(w, a, n)[x] == k;
    var i := PlaceInQueue(w, j);
    AscendsByPlace(seen, i, x);
    assert Oldest(w, a, n)[i] == j;
  }

  lemma AscendsByPlace(ks: seq<nat>, i: nat, x: nat)
    requires Ascending(ks) && i < |ks| && x < |ks|
    ensures ks[i] <= ks[x] ==> i <= x
  {
  }

  lemma WakeReferences(w: World, r: World, t: Thread, n: nat)
    requires Inv(w) && Wakes(w, r, t, n)
    ensures forall a :: ReferencesOk(r, a)
  {
    hide NotifyOk, QueueOk, Fifo, TicketOk, ThreadOk;
    ReferencesKept(w, r, t, PhaseOf(r, t));
  }

  lemma WokenRecords(w: World, r: World, t: Thread, a: Address, n: nat)
    requires Woken(w, r, t, a, n)
    ensures |r.tickets| == |w.tickets| && |r.notifies| == |w.notifies| + 1 && w.notifies <= r.notifies
    ensures r.returned == w.returned && r.counted == w.counted
  {
  }

  lemma WakeKeeps(w: World, r: World, t: Thread, n: nat)
    requires Inv(w) && Wakes(w, r, t, n)
    ensures Inv(r)
  {
    hide ReferencesOk, NotifyOk, QueueOk, Fifo, TicketOk, ThreadOk, Wakes, Woken;
    WakesWoken(w, r, t, n);
    var a := PhaseOf(w, t).address;
    WakeReferences(w, r, t, n);
    WokenRecords(w, r, t, a, n);
    assert QueueOk(w, a) && ThreadOk(w, t);
    forall u ensures ThreadOk(r, u) {
      assert ThreadOk(w, u);
      WokenThread(w, r, t, a, n, u);
    }
    forall k: nat | k < |r.tickets| ensures TicketOk(r, k) {
      WokenTicket(w, r, t, a, n, k);
    }
    forall b ensures QueueOk(r, b) {
      WokenQueue(w, r, t, a, n, b);
    }
    WokenFifo(w, r, t, a, n);
    WokenNotify(w, r, t, a, n);
    forall m: nat | m < |w.notifies| ensures NotifyOk(r, m) {
      assert NotifyOk(w, m);
      NotifyKept(w, r, m);
    }
  }
}
