/** Conversion of an NFA to a DFA by the subset construction: a worklist over state sets. */
module SubsetConstruction {
  import opened Wrappers
  import opened NFA

  /** The transitions of a DFA state by character. */
  type DFAState = row: seq<StateIndex> | |row| == 256 witness seq(256, _ => 0)

  type DFA = seq<DFAState>

  predicate ValidDFA(dfa: DFA) {
    && |dfa| > 0
    && forall d, c :: 0 <= d < |dfa| && 0 <= c < 256 ==> UNMATCHED <= dfa[d][c] < |dfa|
  }

  /** Scanning with a DFA: a flagged terminal gives the last character back. */
  function Run(dfa: DFA, state: nat, input: seq<Char>, pos: nat): Option<Stop>
    requires ValidDFA(dfa) && state < |dfa| && pos <= |input|
    decreases |input| - pos
  {
    if pos == |input| then None
    else
      var next := dfa[state][input[pos]];
      if next >= 0 then Run(dfa, next, input, pos + 1) else Some(StopAt(next, pos))
  }

  // ----- lists as sets -----

  predicate NoDuplicates<T(==)>(s: seq<T>) {
    forall i, j :: 0 <= i < j < |s| ==> s[i] != s[j]
  }

  ghost function Elements(s: seq<StateIndex>): iset<StateIndex> {
    iset t | t in s
  }

  predicate StateList(nfa: Automaton, s: seq<StateIndex>) {
    NoDuplicates(s) && forall i :: 0 <= i < |s| ==> ValidTarget(nfa, s[i])
  }

  ghost function Range(low: int, n: nat): (r: set<int>)
    ensures forall x :: x in r <==> low <= x < low + n
  {
    if n == 0 then {} else Range(low, n - 1) + {low + n - 1}
  }

  /** All state indices an automaton can mention. */
  ghost function Universe(nfa: Automaton): (r: set<StateIndex>)
    ensures forall t :: t in r <==> ValidTarget(nfa, t)
  {
    Range(UNMATCHED, |nfa| - UNMATCHED)
  }

  lemma AppendDistinct<T>(s: seq<T>, x: T)
    requires NoDuplicates(s) && x !in s
    ensures NoDuplicates(s + [x])
  {
  }

  lemma {:induction false} ListFits<T>(s: seq<T>, universe: set<T>)
    requires NoDuplicates(s) && forall i :: 0 <= i < |s| ==> s[i] in universe
    ensures |s| <= |universe|
  {
    if s != [] {
      var last := s[|s| - 1];
      ListFits(s[..|s| - 1], universe - {last});
    }
  }

  // ----- one state set -----

  /** The list grows towards the closure of the states it starts from. */
  ghost predicate Growing(nfa: Automaton, start: iset<StateIndex>, list: seq<StateIndex>) {
    StateList(nfa, list) && Elements(list) <= Closure(nfa, start)
  }

  method AddEpsilonNext(nfa: Automaton, ghost start: iset<StateIndex>, list: seq<StateIndex>, s: StateIndex)
    returns (r: seq<StateIndex>)
    requires Valid(nfa) && Growing(nfa, start, list) && s in list
    ensures Growing(nfa, start, r) && list <= r && forall t :: EpsilonEdge(nfa, s, t) ==> t in r
  {
    r := list;
    if s >= 0 {
      var epsilon := nfa[s].epsilon;
      assert ValidState(nfa, nfa[s]);
      for i := 0 to |epsilon|
        invariant Growing(nfa, start, r) && list <= r
        invariant forall j :: 0 <= j < i ==> epsilon[j] in r
      {
        assert s in Elements(list) && EpsilonEdge(nfa, s, epsilon[i]);
        ClosureStep(nfa, start, s, epsilon[i]);
        if epsilon[i] !in r {
          AppendDistinct(r, epsilon[i]);
        }
        r := AddUnique(r, epsilon[i]);
      }
    }
  }

  method EpsilonClosure(nfa: Automaton, states: seq<StateIndex>) returns (closure: seq<StateIndex>)
    requires Valid(nfa) && StateList(nfa, states)
    ensures StateList(nfa, closure) && Elements(closure) == Closure(nfa, Elements(states))
    ensures NoDuplicates(closure)
  {
    hide StateList, Closure;
    ghost var start := Elements(states);
    closure := states;
    ClosureContains(nfa, start);
    var scan := 0;
    while scan < |closure|
      invariant 0 <= scan <= |closure| && Growing(nfa, start, closure) && states <= closure
      invariant forall i, t :: 0 <= i < scan && EpsilonEdge(nfa, closure[i], t) ==> t in closure
      decreases |Universe(nfa)| - scan
    {
      ghost var before := closure;
      closure := AddEpsilonNext(nfa, start, closure, closure[scan]);
      assert forall t :: t in before ==> t in closure;
      assert forall i :: 0 <= i <= scan ==> closure[i] == before[i];
      StateListFits(nfa, closure);
      scan := scan + 1;
    }
    assert ClosedUnderEpsilon(nfa, Elements(closure));
    ClosureLeast(nfa, start, Elements(closure));
    StateListFits(nfa, closure);
  }

  lemma StateListFits(nfa: Automaton, s: seq<StateIndex>)
    requires StateList(nfa, s)
    ensures |s| <= |Universe(nfa)| && NoDuplicates(s)
  {
    ListFits(s, Universe(nfa));
  }

  /** Two different terminals in one closed set: the conversion gives up. */
  ghost predicate Ambiguous(nfa: Automaton, states: iset<StateIndex>) {
    exists t, u :: t in Closure(nfa, states) && u in Closure(nfa, states) && t < u < 0
  }

  method SplitTerminal(closure: seq<StateIndex>) returns (ok: bool, live: seq<StateIndex>, own: StateIndex)
    requires NoDuplicates(closure)
    ensures ok <==> forall t, u :: t in closure && u in closure && t < 0 && u < 0 ==> t == u
    ensures ok ==> NoDuplicates(live) && forall t :: t in live <==> t in closure && t >= 0
    ensures ok ==> forall t :: t in closure && t < 0 ==> own == Flagged(t)
    ensures ok && (forall t :: t in closure ==> t >= 0) ==> own == Flagged(UNMATCHED)
  {
    live, own, ok := [], Flagged(UNMATCHED), true;
    var found := false;
    for i := 0 to |closure|
      invariant NoDuplicates(live) && forall t :: t in live <==> t in closure[..i] && t >= 0
      invariant found <==> exists j :: 0 <= j < i && closure[j] < 0
      invariant !found ==> own == Flagged(UNMATCHED)
      invariant forall j :: 0 <= j < i && closure[j] < 0 ==> own == Flagged(closure[j])
      invariant forall j, k :: 0 <= j < i && 0 <= k < i && closure[j] < 0 && closure[k] < 0 ==> j == k
    {
      if closure[i] >= 0 {
        assert closure[i] !in closure[..i];
        AppendDistinct(live, closure[i]);
        live := AddUnique(live, closure[i]);
      } else {
        if found {
          ok := false;
          ghost var j :| 0 <= j < i && closure[j] < 0;
          assert closure[i] in closure && closure[j] in closure && closure[i] != closure[j];
          return;
        }
        found, own := true, Flagged(closure[i]);
      }
    }
    if found {
      ghost var j :| 0 <= j < |closure| && closure[j] < 0;
      assert closure[j] in closure;
    }
  }

  /** Some character may lead from one of the states to `t`. */
  ghost predicate Mentions(nfa: Automaton, live: seq<StateIndex>, t: StateIndex) {
    exists s :: s in live && 0 <= s < |nfa| && t in nfa[s].next
  }

  /** Numbers the states that follow, for compact sets of them; the own terminal comes last, unless
      it is one of them. */
  method NumberFollowing(nfa: Automaton, live: seq<StateIndex>, own: StateIndex)
    returns (order: seq<StateIndex>, number: map<StateIndex, nat>)
    requires forall i :: 0 <= i < |live| ==> 0 <= live[i] < |nfa|
    ensures NoDuplicates(order) && own in number
    ensures forall t :: t in order <==> Mentions(nfa, live, t) || t == own
    ensures Numbers(order, number)
  {
    order, number := [], map[];
    for i := 0 to |live|
      invariant NoDuplicates(order) && Numbers(order, number)
      invariant forall t :: t in order <==> Mentions(nfa, live[..i], t)
    {
      ghost var before := order;
      var keys := nfa[live[i]].next.Keys;
      while keys != {}
        invariant NoDuplicates(order) && Numbers(order, number)
        invariant keys <= nfa[live[i]].next.Keys
        invariant forall t :: t in order <==> Mentions(nfa, live[..i], t) || (t in nfa[live[i]].next && t !in keys)
        decreases |keys|
      {
        var key := AnyKey(keys);
        keys := keys - {key};
        if key !in number {
          number := number[key := |order|];
          order := order + [key];
        }
      }
      assert forall t :: Mentions(nfa, live[..i + 1], t) <==> Mentions(nfa, live[..i], t) || t in nfa[live[i]].next by {
        assert live[..i + 1] == live[..i] + [live[i]];
      }
    }
    assert live[..|live|] == live;
    if own !in number {
      number := number[own := |order|];
      order := order + [own];
    }
  }

  ghost predicate Numbers(order: seq<StateIndex>, number: map<StateIndex, nat>) {
    && (forall t :: t in number <==> t in order)
    && forall t :: t in number ==> number[t] < |order| && order[number[t]] == t
  }

  type Row = row: seq<set<nat>> | |row| == 256 witness seq(256, _ => {})

  /** Adds a numbered state to the entries of all the given characters. */
  function AddToRow(row: Row, chars: set<Char>, n: nat): (r: Row)
    ensures forall c :: 0 <= c < 256 ==> r[c] == if c in chars then row[c] + {n} else row[c]
  {
    seq(256, c requires 0 <= c < 256 => if c in chars then row[c] + {n} else row[c])
  }

  /** Some state of the list has an edge on `c` to `t`. */
  ghost predicate Follows(nfa: Automaton, live: seq<StateIndex>, c: Char, t: StateIndex) {
    exists s :: s in live && CharEdge(nfa, s, c, t)
  }

  ghost predicate FollowsNumber(nfa: Automaton, live: seq<StateIndex>, order: seq<StateIndex>, c: Char, n: nat) {
    n < |order| && Follows(nfa, live, c, order[n])
  }

  /** A row holds, for each character, the numbers of the states that follow on it. */
  ghost predicate RowFollows(nfa: Automaton, live: seq<StateIndex>, order: seq<StateIndex>, row: Row) {
    forall c: Char, n: nat :: n in row[c] <==> FollowsNumber(nfa, live, order, c, n)
  }

  lemma FollowsOneMore(nfa: Automaton, live: seq<StateIndex>, i: nat, order: seq<StateIndex>, c: Char, n: nat)
    requires i < |live| && n < |order|
    ensures FollowsNumber(nfa, live[..i + 1], order, c, n)
       <==> FollowsNumber(nfa, live[..i], order, c, n) || CharEdge(nfa, live[i], c, order[n])
  {
    assert live[..i + 1] == live[..i] + [live[i]];
    assert live[i] in live[..i + 1];
  }

  lemma RowOneMore(nfa: Automaton, live: seq<StateIndex>, i: nat, order: seq<StateIndex>, row: Row)
    requires i < |live|
    requires forall c: Char, n: nat :: n in row[c] <==>
               FollowsNumber(nfa, live[..i], order, c, n) || (n < |order| && CharEdge(nfa, live[i], c, order[n]))
    ensures RowFollows(nfa, live[..i + 1], order, row)
  {
    forall c: Char, n: nat ensures n in row[c] <==> FollowsNumber(nfa, live[..i + 1], order, c, n) {
      assert n in row[c] <==> FollowsNumber(nfa, live[..i], order, c, n) || (n < |order| && CharEdge(nfa, live[i], c, order[n]));
      if n < |order| {
        FollowsOneMore(nfa, live, i, order, c, n);
      }
    }
  }

  /** Transposes the transitions of the states to one compact set of states per character. */
  method Transpose(nfa: Automaton, live: seq<StateIndex>, order: seq<StateIndex>, number: map<StateIndex, nat>)
    returns (row: Row)
    requires forall i :: 0 <= i < |live| ==> 0 <= live[i] < |nfa|
    requires NoDuplicates(order) && Numbers(order, number)
    requires forall t :: Mentions(nfa, live, t) ==> t in order
    ensures RowFollows(nfa, live, order, row)
  {
    row := seq(256, _ => {});
    for i := 0 to |live|
      invariant RowFollows(nfa, live[..i], order, row)
    {
      var s := live[i];
      var keys := nfa[s].next.Keys;
      while keys != {}
        invariant keys <= nfa[s].next.Keys
        invariant forall c: Char, n: nat :: n in row[c] <==>
          FollowsNumber(nfa, live[..i], order, c, n)
          || (n < |order| && CharEdge(nfa, s, c, order[n]) && order[n] !in keys)
        decreases |keys|
      {
        var key := AnyKey(keys);
        keys := keys - {key};
        assert Mentions(nfa, live, key);
        row := AddToRow(row, nfa[s].next[key], number[key]);
      }
      RowOneMore(nfa, live, i, order, row);
    }
    assert live[..|live|] == live;
  }

  // ----- the states that follow a state set -----

  ghost predicate Mentioned(nfa: Automaton, states: iset<StateIndex>, t: StateIndex) {
    exists s :: s in Closure(nfa, states) && 0 <= s < |nfa| && t in nfa[s].next
  }

  const MAX_LOCAL_STATES: nat := 64

  /** The states that some transition of the set may lead to. */
  ghost predicate Local(nfa: Automaton, states: iset<StateIndex>, t: StateIndex) {
    Mentioned(nfa, states, t) || t == Flagged(OwnTerminal(nfa, states))
  }

  /** Too many states follow for a set of them to fit in a mask. */
  ghost predicate TooWide(nfa: Automaton, states: iset<StateIndex>) {
    exists l: seq<StateIndex> ::
      NoDuplicates(l) && |l| > MAX_LOCAL_STATES && forall i :: 0 <= i < |l| ==> Local(nfa, states, l[i])
  }

  ghost predicate Supported(nfa: Automaton, states: iset<StateIndex>) {
    !Ambiguous(nfa, states) && !TooWide(nfa, states)
  }

  /** What a character leads to: the successors, or the flagged own terminal if there are none. */
  ghost function Targets(nfa: Automaton, states: iset<StateIndex>, c: Char): iset<StateIndex> {
    var next := Successors(nfa, states, c);
    if next == iset{} then iset{Flagged(OwnTerminal(nfa, states))} else next
  }

  /** The members of a compact set, in ascending order of their numbers. */
  function Members(order: seq<StateIndex>, numbers: set<nat>, n: nat): (r: seq<StateIndex>)
    requires n <= |order|
    ensures forall t :: t in r <==> exists i :: 0 <= i < n && i in numbers && order[i] == t
  {
    if n == 0 then []
    else if n - 1 in numbers then Members(order, numbers, n - 1) + [order[n - 1]]
    else Members(order, numbers, n - 1)
  }

  lemma {:induction false} MembersDistinct(order: seq<StateIndex>, numbers: set<nat>, n: nat)
    requires n <= |order| && NoDuplicates(order)
    ensures NoDuplicates(Members(order, numbers, n))
  {
    if n > 0 {
      MembersDistinct(order, numbers, n - 1);
      assert order[n - 1] !in Members(order, numbers, n - 1);
      AppendDistinct(Members(order, numbers, n - 1), order[n - 1]);
    }
  }

  /** A row holds, for each character, the numbers of its targets. */
  ghost predicate RowTargets(nfa: Automaton, states: iset<StateIndex>, order: seq<StateIndex>, row: Row) {
    forall c: Char :: Elements(Members(order, row[c], |order|)) == Targets(nfa, states, c)
  }

  lemma OwnIs(nfa: Automaton, states: seq<StateIndex>, closure: seq<StateIndex>, own: StateIndex)
    requires Elements(closure) == Closure(nfa, Elements(states))
    requires forall t :: t in closure && t < 0 ==> own == Flagged(t)
    requires (forall t :: t in closure ==> t >= 0) ==> own == Flagged(UNMATCHED)
    ensures own == Flagged(OwnTerminal(nfa, Elements(states)))
  {
    assert forall t :: t in closure <==> t in Closure(nfa, Elements(states)) by {
      assert forall t :: t in closure <==> t in Elements(closure);
    }
  }

  lemma WidthIs(nfa: Automaton, states: iset<StateIndex>, order: seq<StateIndex>)
    requires NoDuplicates(order) && forall t :: t in order <==> Local(nfa, states, t)
    ensures |order| > MAX_LOCAL_STATES <==> TooWide(nfa, states)
  {
    hide Local;
    forall i | 0 <= i < |order| ensures Local(nfa, states, order[i]) {
      assert order[i] in order;
    }
    if l :| NoDuplicates(l) && |l| > MAX_LOCAL_STATES && forall i :: 0 <= i < |l| ==> Local(nfa, states, l[i]) {
      var all := set t | t in order;
      forall i | 0 <= i < |l| ensures l[i] in all {
      }
      ListFits(l, all);
      SetOfList(order);
    }
  }

  lemma {:induction false} SetOfList(l: seq<StateIndex>)
    ensures |set t | t in l| <= |l|
  {
    if l != [] {
      var front := l[..|l| - 1];
      SetOfList(front);
      assert (set t | t in l) == (set t | t in front) + {l[|l| - 1]};
    }
  }

  lemma RowComplete(nfa: Automaton, states: iset<StateIndex>, live: seq<StateIndex>, order: seq<StateIndex>,
                   following: Row, row: Row, ownNumber: nat)
    requires ownNumber < |order| && order[ownNumber] == Flagged(OwnTerminal(nfa, states))
    requires forall c: Char, t :: Follows(nfa, live, c, t) <==> t in Successors(nfa, states, c)
    requires forall t :: Mentioned(nfa, states, t) ==> t in order
    requires RowFollows(nfa, live, order, following)
    requires forall c :: 0 <= c < 256 ==> row[c] == if following[c] == {} then {ownNumber} else following[c]
    ensures RowTargets(nfa, states, order, row)
  {
    forall c: Char ensures Elements(Members(order, row[c], |order|)) == Targets(nfa, states, c) {
      var next := Successors(nfa, states, c);
      forall t | t in next ensures exists n :: 0 <= n < |order| && n in following[c] && order[n] == t {
        var s :| s in Closure(nfa, states) && CharEdge(nfa, s, c, t);
        assert Mentioned(nfa, states, t);
        var n :| 0 <= n < |order| && order[n] == t;
        assert FollowsNumber(nfa, live, order, c, n);
      }
      if following[c] == {} {
        assert next == iset{};
      } else {
        var n :| n in following[c];
        assert order[n] in next;
      }
    }
  }

  /** `live` lists the non-terminal states of the closure. */
  ghost predicate LivePart(nfa: Automaton, states: iset<StateIndex>, live: seq<StateIndex>) {
    forall s :: s in live <==> s in Closure(nfa, states) && s >= 0
  }

  lemma LivePartIs(nfa: Automaton, states: seq<StateIndex>, closure: seq<StateIndex>, live: seq<StateIndex>)
    requires StateList(nfa, closure) && Elements(closure) == Closure(nfa, Elements(states))
    requires forall t :: t in live <==> t in closure && t >= 0
    ensures LivePart(nfa, Elements(states), live)
    ensures forall i :: 0 <= i < |live| ==> 0 <= live[i] < |nfa|
  {
    assert forall t :: t in closure <==> t in Elements(closure);
    forall i | 0 <= i < |live| ensures 0 <= live[i] < |nfa| {
      assert live[i] in live;
      var j :| 0 <= j < |closure| && closure[j] == live[i];
    }
  }

  lemma LiveMeans(nfa: Automaton, states: iset<StateIndex>, live: seq<StateIndex>)
    requires LivePart(nfa, states, live)
    ensures forall t :: Mentions(nfa, live, t) <==> Mentioned(nfa, states, t)
    ensures forall c: Char, t :: Follows(nfa, live, c, t) <==> t in Successors(nfa, states, c)
  {
  }

  lemma AmbiguousIs(nfa: Automaton, states: seq<StateIndex>, closure: seq<StateIndex>)
    requires Elements(closure) == Closure(nfa, Elements(states))
    ensures Ambiguous(nfa, Elements(states)) <==> !(forall t, u :: t in closure && u in closure && t < 0 && u < 0 ==> t == u)
  {
    assert forall t :: t in closure <==> t in Elements(closure);
    if t, u :| t in closure && u in closure && t < 0 && u < 0 && t != u {
      assert t in Closure(nfa, Elements(states)) && u in Closure(nfa, Elements(states)) && (t < u || u < t);
    }
  }

  /** The targets of a state set on every character, as compact sets. */
  method Following(nfa: Automaton, states: seq<StateIndex>) returns (ok: bool, order: seq<StateIndex>, row: Row)
    requires Valid(nfa) && StateList(nfa, states)
    ensures ok <==> Supported(nfa, Elements(states))
    ensures ok ==> NoDuplicates(order) && |order| > 0 && RowTargets(nfa, Elements(states), order, row)
  {
    hide Closure, Successors, Mentioned, Mentions, Follows, StateList, Elements, Ambiguous, TooWide, Valid, RowFollows,
         RowTargets;
    order, row := [], seq(256, _ => {});
    var closure := EpsilonClosure(nfa, states);
    var live, own;
    ok, live, own := SplitTerminal(closure);
    AmbiguousIs(nfa, states, closure);
    if !ok {
      return;
    }
    ghost var set0 := Elements(states);
    OwnIs(nfa, states, closure, own);
    LivePartIs(nfa, states, closure, live);
    LiveMeans(nfa, set0, live);
    var number;
    order, number := NumberFollowing(nfa, live, own);
    WidthIs(nfa, set0, order);
    if |order| > MAX_LOCAL_STATES {
      ok := false;
      return;
    }
    row := Transpose(nfa, live, order, number);
    ghost var following := row;
    for c := 0 to 256
      invariant |row| == 256 && forall d :: 0 <= d < 256 ==>
        row[d] == if d < c && following[d] == {} then {number[own]} else following[d]
    {
      if row[c] == {} {
        row := row[c := {number[own]}];
      }
    }
    RowComplete(nfa, set0, live, order, following, row, number[own]);
  }
}
