/** Accounting of a quota shared by any number of memories or tables that are created, grown and
    destroyed concurrently. A grow first reserves its share, then checks the limits and commits
    under the resource's own lock, and gives the share back if it fails. */
module ResourceQuota {
  import opened Wrappers

  const TWO_TO_64: nat := 0x1_0000_0000_0000_0000

  /** A quantity of the host: arithmetic on it wraps around. */
  type Size = n: nat | n < TWO_TO_64

  function Plus(a: Size, b: Size): Size {
    (a + b) % TWO_TO_64
  }

  function Minus(a: Size, b: Size): Size {
    (a + TWO_TO_64 - b) % TWO_TO_64
  }

  datatype Slot = Free | Live(size: Size, maximum: Size)

  /** A thread growing a resource holds a reservation between the two steps of the grow. */
  datatype Activity = Idle | Growing(resource: nat, delta: Size)

  datatype World = World(current: Size, max: Size, limit: Size, slots: seq<Slot>, threads: seq<Activity>)

  datatype Step =
    | SetMax(newMax: Size)
    | Create(maximum: Size)
    | Reserve(thread: nat, resource: nat, delta: Size)
    | Finish(thread: nat, commits: bool)
    | Destroy(resource: nat)

  datatype Effect = Impossible | Underflows | Next(world: World)

  /** Both checks of `allocate`: no wrap-around, and within the maximum. */
  predicate Allocates(w: World, delta: Size) {
    Plus(w.current, delta) >= w.current && Plus(w.current, delta) <= w.max
  }

  /** The limits a grow checks, in the form that cannot wrap around. */
  predicate WithinLimits(size: Size, delta: Size, maximum: Size, limit: Size) {
    !(delta > maximum || size > maximum - delta || delta > limit || size > limit - delta)
  }

  predicate InUse(w: World, r: nat) {
    exists t :: 0 <= t < |w.threads| && w.threads[t].Growing? && w.threads[t].resource == r
  }

  function FreeQuota(w: World, delta: Size): Effect {
    if Minus(w.current, delta) <= w.current then Next(w.(current := Minus(w.current, delta))) else Underflows
  }

  function Act(w: World, step: Step): Effect {
    match step
    case SetMax(m) => Next(w.(max := m))
    case Create(maximum) => Next(w.(slots := w.slots + [Live(0, maximum)]))
    case Reserve(t, r, delta) =>
      if t >= |w.threads| || !w.threads[t].Idle? || r >= |w.slots| || w.slots[r].Free? || delta == 0 then Impossible
      else if Allocates(w, delta) then Next(w.(current := Plus(w.current, delta), threads := w.threads[t := Growing(r, delta)]))
      else Next(w)
    case Finish(t, commits) =>
      if t >= |w.threads| || !w.threads[t].Growing? then Impossible
      else
        var r, delta := w.threads[t].resource, w.threads[t].delta;
        if r >= |w.slots| || w.slots[r].Free? then Impossible
        else
          var slot, w1 := w.slots[r], w.(threads := w.threads[t := Idle]);
          if WithinLimits(slot.size, delta, slot.maximum, w.limit) && commits
          then Next(w1.(slots := w.slots[r := slot.(size := Plus(slot.size, delta))]))
          else FreeQuota(w1, delta)
    case Destroy(r) =>
      if r >= |w.slots| || w.slots[r].Free? || InUse(w, r) then Impossible
      else FreeQuota(w.(slots := w.slots[r := Free]), w.slots[r].size)
  }

  // ----- conservation -----

  ghost function Sizes(slots: seq<Slot>): nat {
    if slots == [] then 0
    else Sizes(slots[..|slots| - 1]) + match slots[|slots| - 1] case Free => 0 case Live(size, _) => size
  }

  ghost function Reserved(threads: seq<Activity>): nat {
    if threads == [] then 0
    else Reserved(threads[..|threads| - 1]) + match threads[|threads| - 1] case Idle => 0 case Growing(_, delta) => delta
  }

  function SizeOf(s: Slot): nat {
    match s case Free => 0 case Live(size, _) => size
  }

  function DeltaOf(a: Activity): nat {
    match a case Idle => 0 case Growing(_, delta) => delta
  }

  lemma {:induction false} SizesUpdate(slots: seq<Slot>, i: nat, s: Slot)
    requires i < |slots|
    ensures Sizes(slots[i := s]) == Sizes(slots) - SizeOf(slots[i]) + SizeOf(s)
    ensures Sizes(slots) >= SizeOf(slots[i])
  {
    var n := |slots| - 1;
    if i == n {
      assert slots[i := s][..n] == slots[..n];
    } else {
      SizesUpdate(slots[..n], i, s);
      assert slots[i := s][..n] == slots[..n][i := s];
    }
  }

  lemma {:induction false} ReservedUpdate(threads: seq<Activity>, i: nat, a: Activity)
    requires i < |threads|
    ensures Reserved(threads[i := a]) == Reserved(threads) - DeltaOf(threads[i]) + DeltaOf(a)
    ensures Reserved(threads) >= DeltaOf(threads[i])
  {
    var n := |threads| - 1;
    if i == n {
      assert threads[i := a][..n] == threads[..n];
    } else {
      ReservedUpdate(threads[..n], i, a);
      assert threads[i := a][..n] == threads[..n][i := a];
    }
  }

  /** The quota in use is what the live resources hold plus what is reserved, and every resource
      is within its own maximum and the implementation's. */
  ghost predicate Conserved(w: World) {
    && w.current == Sizes(w.slots) + Reserved(w.threads)
    && (forall r :: 0 <= r < |w.slots| && w.slots[r].Live? ==> w.slots[r].size <= w.slots[r].maximum && w.slots[r].size <= w.limit)
    && forall t :: 0 <= t < |w.threads| && w.threads[t].Growing? ==>
         w.threads[t].resource < |w.slots| && w.slots[w.threads[t].resource].Live?
  }

  lemma Arithmetic(a: Size, b: Size)
    ensures Plus(a, b) >= a <==> a + b < TWO_TO_64
    ensures a + b < TWO_TO_64 ==> Plus(a, b) == a + b
    ensures b <= a ==> Minus(a, b) == a - b
  {
  }

  lemma ReserveConserves(w: World, t: nat, r: nat, delta: Size)
    requires Conserved(w) && t < |w.threads| && w.threads[t].Idle? && r < |w.slots| && w.slots[r].Live? && Allocates(w, delta)
    ensures Conserved(w.(current := Plus(w.current, delta), threads := w.threads[t := Growing(r, delta)]))
  {
    hide Plus, Sizes, Reserved;
    Arithmetic(w.current, delta);
    ReservedUpdate(w.threads, t, Growing(r, delta));
  }

  lemma FinishConserves(w: World, t: nat, commits: bool)
    requires Conserved(w) && t < |w.threads| && w.threads[t].Growing?
    ensures Act(w, Finish(t, commits)).Next? && Conserved(Act(w, Finish(t, commits)).world)
  {
    hide Plus, Minus, Sizes, Reserved;
    var r, delta := w.threads[t].resource, w.threads[t].delta;
    var slot := w.slots[r];
    ReservedUpdate(w.threads, t, Idle);
    Arithmetic(slot.size, delta);
    Arithmetic(w.current, delta);
    SizesUpdate(w.slots, r, slot.(size := Plus(slot.size, delta)));
  }

  lemma DestroyConserves(w: World, r: nat)
    requires Conserved(w) && r < |w.slots| && w.slots[r].Live? && !InUse(w, r)
    ensures Act(w, Destroy(r)).Next? && Conserved(Act(w, Destroy(r)).world)
  {
    hide Plus, Minus, Sizes, Reserved;
    SizesUpdate(w.slots, r, Free);
    Arithmetic(w.current, w.slots[r].size);
  }

  lemma StepConserves(w: World, step: Step)
    requires Conserved(w)
    ensures !Act(w, step).Underflows?
    ensures Act(w, step).Next? ==> Conserved(Act(w, step).world)
  {
    hide Plus, Minus, Reserved, Allocates, WithinLimits;
    match step
    case SetMax(_) =>
    case Create(maximum) =>
      assert (w.slots + [Live(0, maximum)])[..|w.slots|] == w.slots;
    case Reserve(t, r, delta) =>
      if t < |w.threads| && w.threads[t].Idle? && r < |w.slots| && w.slots[r].Live? && Allocates(w, delta) {
        ReserveConserves(w, t, r, delta);
      }
    case Finish(t, commits) =>
      if t < |w.threads| && w.threads[t].Growing? {
        FinishConserves(w, t, commits);
      }
    case Destroy(r) =>
      if r < |w.slots| && w.slots[r].Live? && !InUse(w, r) {
        DestroyConserves(w, r);
      }
  }

  /** The world after a run; None if a step of it is not possible. */
  function Play(w: World, steps: seq<Step>): Option<World> {
    if steps == [] then Some(w)
    else
      var before :- Play(w, steps[..|steps| - 1]);
      match Act(before, steps[|steps| - 1])
      case Next(after) => Some(after)
      case _ => None
  }

  ghost predicate Fresh(w: World) {
    w.current == 0 && w.slots == [] && forall t :: 0 <= t < |w.threads| ==> w.threads[t] == Idle
  }

  lemma {:induction false} NothingReserved(threads: seq<Activity>)
    requires forall t :: 0 <= t < |threads| ==> threads[t] == Idle
    ensures Reserved(threads) == 0
  {
    if threads != [] {
      NothingReserved(threads[..|threads| - 1]);
    }
  }

  /** In every interleaving of creates, grows that succeed or fail in any way, and destroys: the
      quota in use is accounted for exactly, and freeing never underflows. */
  lemma {:induction false} QuotaConserved(start: World, steps: seq<Step>)
    requires Fresh(start) && Play(start, steps).Some?
    ensures Conserved(Play(start, steps).value)
    ensures forall step :: !Act(Play(start, steps).value, step).Underflows?
    decreases |steps|
  {
    if steps == [] {
      NothingReserved(start.threads);
    } else {
      var front := steps[..|steps| - 1];
      QuotaConserved(start, front);
      StepConserves(Play(start, front).value, steps[|steps| - 1]);
    }
    forall step ensures !Act(Play(start, steps).value, step).Underflows? {
      StepConserves(Play(start, steps).value, step);
    }
  }

  /** When nothing is in flight and every resource is gone, the whole quota is free again. */
  lemma NothingLeaks(start: World, steps: seq<Step>)
    requires Fresh(start) && Play(start, steps).Some?
    requires var w := Play(start, steps).value;
             && (forall t :: 0 <= t < |w.threads| ==> w.threads[t] == Idle)
             && forall r :: 0 <= r < |w.slots| ==> w.slots[r] == Free
    ensures Play(start, steps).value.current == 0
  {
    QuotaConserved(start, steps);
    NothingReserved(Play(start, steps).value.threads);
    NothingHeld(Play(start, steps).value.slots);
  }

  lemma {:induction false} NothingHeld(slots: seq<Slot>)
    requires forall r :: 0 <= r < |slots| ==> slots[r] == Free
    ensures Sizes(slots) == 0
  {
    if slots != [] {
      NothingHeld(slots[..|slots| - 1]);
    }
  }

  // ----- the quota is enforced -----

  /** A reservation is made exactly if it stays within the quota, counted without wrap-around; otherwise
      nothing changes. */
  lemma ReserveExact(w: World, t: nat, r: nat, delta: Size)
    ensures Act(w, Reserve(t, r, delta)).Next? <==>
              t < |w.threads| && w.threads[t] == Idle && r < |w.slots| && w.slots[r].Live? && delta > 0
    ensures Act(w, Reserve(t, r, delta)).Next? ==>
              var after := Act(w, Reserve(t, r, delta)).world;
              if w.current + delta <= w.max
              then after.current == w.current + delta && after.(current := w.current) == w.(threads := w.threads[t := Growing(r, delta)])
              else after == w
  {
    hide Plus;
    Arithmetic(w.current, delta);
  }

  /** The second step of a grow succeeds exactly if the resource stays within its own maximum and the
      implementation's, counted without wrap-around, and the pages can be committed. Only then the
      resource grows; otherwise its share of the quota is given back. */
  lemma FinishExact(w: World, t: nat, commits: bool)
    requires Conserved(w) && t < |w.threads| && w.threads[t].Growing?
    ensures Act(w, Finish(t, commits)).Next?
    ensures var after, r, delta := Act(w, Finish(t, commits)).world, w.threads[t].resource, w.threads[t].delta;
            var slot := w.slots[r];
            if slot.size + delta <= slot.maximum && slot.size + delta <= w.limit && commits
            then && after.slots[r] == slot.(size := after.slots[r].size) && after.slots[r].size == slot.size + delta
                 && after == w.(threads := w.threads[t := Idle], slots := w.slots[r := after.slots[r]])
            else after.current == w.current - delta && after.(current := w.current) == w.(threads := w.threads[t := Idle])
  {
    hide Plus, Minus, Sizes, Reserved;
    var r, delta := w.threads[t].resource, w.threads[t].delta;
    ReservedUpdate(w.threads, t, Idle);
    Arithmetic(w.slots[r].size, delta);
    Arithmetic(w.current, delta);
  }

  /** So a whole grow, with no step of another thread between, succeeds exactly if the quota, both limits and
      the commit allow it, and otherwise leaves everything as it was. */
  lemma GrowExact(w: World, t: nat, r: nat, delta: Size, commits: bool)
    requires Conserved(w) && t < |w.threads| && w.threads[t] == Idle && r < |w.slots| && w.slots[r].Live? && delta > 0
    ensures Act(w, Reserve(t, r, delta)).Next?
    ensures var slot, mid := w.slots[r], Act(w, Reserve(t, r, delta)).world;
            if w.current + delta > w.max then mid == w
            else
              && Act(mid, Finish(t, commits)).Next?
              && var after := Act(mid, Finish(t, commits)).world;
                 if slot.size + delta <= slot.maximum && slot.size + delta <= w.limit && commits
                 then after.current == w.current + delta && after.slots[r].Live? && after.slots[r].size == slot.size + delta
                 else after == w
  {
    hide Plus, Minus, Sizes, Reserved, Conserved;
    ReserveExact(w, t, r, delta);
    if w.current + delta <= w.max {
      var mid := Act(w, Reserve(t, r, delta)).world;
      assert Conserved(mid) by { StepConserves(w, Reserve(t, r, delta)); }
      FinishExact(mid, t, commits);
      assert mid.threads[t := Idle] == w.threads;
    }
  }

  /** The quota set last, from the steps alone. */
  function LastMax(start: Size, steps: seq<Step>): Size {
    if steps == [] then start
    else if steps[|steps| - 1].SetMax? then steps[|steps| - 1].newMax
    else LastMax(start, steps[..|steps| - 1])
  }

  /** The largest quota there ever was. */
  function HighestMax(start: Size, steps: seq<Step>): (h: Size)
    ensures h >= LastMax(start, steps)
  {
    if steps == [] then start
    else
      var before, last := HighestMax(start, steps[..|steps| - 1]), steps[|steps| - 1];
      if last.SetMax? && last.newMax > before then last.newMax else before
  }

  /** No step sets the quota below what it was. */
  ghost predicate NeverLowered(start: Size, steps: seq<Step>) {
    steps == [] || (
      var front, last := steps[..|steps| - 1], steps[|steps| - 1];
      NeverLowered(start, front) && (last.SetMax? ==> last.newMax >= LastMax(start, front)))
  }

  lemma StepWithin(w: World, step: Step, bound: Size)
    requires Conserved(w) && w.current <= bound && w.max <= bound && Act(w, step).Next?
    ensures Act(w, step).world.current <= bound
    ensures Act(w, step).world.max == if step.SetMax? then step.newMax else w.max
  {
    hide Plus, Minus, Sizes, Reserved, Conserved;
    match step {
      case Reserve(t, r, delta) => ReserveExact(w, t, r, delta);
      case Finish(t, commits) =>
        assert t < |w.threads| && w.threads[t].Growing?;
        FinishExact(w, t, commits);
      case Destroy(r) =>
      case _ =>
    }
  }

  /** In every interleaving the quota in use stays within the largest quota there ever was; and within the
      present one as long as no step lowers it. */
  lemma {:induction false} QuotaEnforced(start: World, steps: seq<Step>)
    requires Fresh(start) && Play(start, steps).Some?
    ensures var w := Play(start, steps).value;
            && w.max == LastMax(start.max, steps) && w.current <= HighestMax(start.max, steps)
            && (NeverLowered(start.max, steps) ==> w.current <= w.max)
    decreases |steps|
  {
    hide Act, Conserved;
    if steps != [] {
      var front, last := steps[..|steps| - 1], steps[|steps| - 1];
      QuotaEnforced(start, front);
      QuotaConserved(start, front);
      StepWithin(Play(start, front).value, last, HighestMax(start.max, front));
    }
    if NeverLowered(start.max, steps) {
      HighestIsLast(start.max, steps);
    }
  }

  lemma {:induction false} HighestIsLast(start: Size, steps: seq<Step>)
    requires NeverLowered(start, steps)
    ensures HighestMax(start, steps) == LastMax(start, steps)
  {
    if steps != [] {
      HighestIsLast(start, steps[..|steps| - 1]);
    }
  }
}
