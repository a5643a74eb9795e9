/** Nondeterministic finite automata over bytes, as the lexer generator builds them, and the
    reference semantics of scanning with one: simulation of epsilon-closed state sets. */
module NFA {
  import opened Wrappers

  type Char = c: nat | c < 256

  /** A non-negative index is a state of the automaton, a negative one a terminal state. */
  type StateIndex = int

  const INT16_MAX: int := 0x7fff

  /** Marks a terminal reached without consuming the character that led there. */
  const DOESNT_CONSUME: int := 0x4000

  const UNMATCHED: int := -0x8000

  /** The largest terminal whose representation leaves the DOESNT_CONSUME bit clear. */
  const MAX_TERMINAL: int := -0x4001

  /** The DOESNT_CONSUME bit of a terminal, in the two's complement of 16 bits. */
  predicate IsFlagged(t: StateIndex) {
    MAX_TERMINAL < t < 0
  }

  /** The terminal with the bit set, and with the bit clear. */
  function Flagged(t: StateIndex): (r: StateIndex)
    ensures UNMATCHED <= t < 0 ==> IsFlagged(r)
  {
    if IsFlagged(t) then t else t + DOESNT_CONSUME
  }

  function Unflagged(t: StateIndex): (r: StateIndex)
    ensures UNMATCHED <= t < 0 ==> UNMATCHED <= r < 0 && !IsFlagged(r)
  {
    if IsFlagged(t) then t - DOESNT_CONSUME else t
  }

  datatype NFAState = NFAState(next: map<StateIndex, set<Char>>, epsilon: seq<StateIndex>)

  type Automaton = seq<NFAState>

  predicate ValidTarget(nfa: Automaton, t: StateIndex) {
    UNMATCHED <= t < |nfa|
  }

  predicate ValidState(nfa: Automaton, s: NFAState) {
    && (forall t :: t in s.next ==> ValidTarget(nfa, t))
    && forall i :: 0 <= i < |s.epsilon| ==> ValidTarget(nfa, s.epsilon[i])
  }

  predicate Valid(nfa: Automaton) {
    0 < |nfa| <= INT16_MAX && forall s :: 0 <= s < |nfa| ==> ValidState(nfa, nfa[s])
  }

  // ----- edges and closures -----

  predicate EpsilonEdge(nfa: Automaton, s: StateIndex, t: StateIndex) {
    0 <= s < |nfa| && t in nfa[s].epsilon
  }

  predicate CharEdge(nfa: Automaton, s: StateIndex, c: Char, t: StateIndex) {
    0 <= s < |nfa| && t in nfa[s].next && c in nfa[s].next[t]
  }

  predicate EpsilonPath(nfa: Automaton, p: seq<StateIndex>) {
    |p| > 0 && forall i :: 0 <= i < |p| - 1 ==> EpsilonEdge(nfa, p[i], p[i + 1])
  }

  /** The states reachable from the set along epsilon edges. */
  ghost function Closure(nfa: Automaton, states: iset<StateIndex>): iset<StateIndex> {
    iset t | EpsilonReaches(nfa, states, t)
  }

  ghost predicate EpsilonReaches(nfa: Automaton, states: iset<StateIndex>, t: StateIndex) {
    exists p :: EpsilonPath(nfa, p) && p[0] in states && p[|p| - 1] == t
  }

  lemma ClosureContains(nfa: Automaton, states: iset<StateIndex>)
    ensures states <= Closure(nfa, states)
  {
    forall s | s in states ensures s in Closure(nfa, states) {
      assert EpsilonPath(nfa, [s]) && [s][0] in states;
    }
  }

  lemma ClosureStep(nfa: Automaton, states: iset<StateIndex>, s: StateIndex, t: StateIndex)
    requires s in Closure(nfa, states) && EpsilonEdge(nfa, s, t)
    ensures t in Closure(nfa, states)
  {
    var p :| EpsilonPath(nfa, p) && p[0] in states && p[|p| - 1] == s;
    assert EpsilonPath(nfa, p + [t]) && (p + [t])[0] in states;
  }

  ghost predicate ClosedUnderEpsilon(nfa: Automaton, states: iset<StateIndex>) {
    forall s, t :: s in states && EpsilonEdge(nfa, s, t) ==> t in states
  }

  /** The closure is the least superset closed under epsilon edges. */
  lemma ClosureLeast(nfa: Automaton, states: iset<StateIndex>, closed: iset<StateIndex>)
    requires states <= closed && ClosedUnderEpsilon(nfa, closed)
    ensures Closure(nfa, states) <= closed
  {
    forall t | t in Closure(nfa, states) ensures t in closed {
      var p :| EpsilonPath(nfa, p) && p[0] in states && p[|p| - 1] == t;
      PathStays(nfa, p, closed, |p| - 1);
    }
  }

  lemma {:induction false} PathStays(nfa: Automaton, p: seq<StateIndex>, closed: iset<StateIndex>, i: nat)
    requires EpsilonPath(nfa, p) && p[0] in closed && ClosedUnderEpsilon(nfa, closed) && i < |p|
    ensures p[i] in closed
  {
    if i > 0 {
      PathStays(nfa, p, closed, i - 1);
      assert EpsilonEdge(nfa, p[i - 1], p[i - 1 + 1]);
    }
  }

  // ----- scanning -----

  /** The states that follow a set of states on a character. */
  ghost function Successors(nfa: Automaton, states: iset<StateIndex>, c: Char): iset<StateIndex> {
    iset t | FollowsSome(nfa, states, c, t)
  }

  ghost predicate FollowsSome(nfa: Automaton, states: iset<StateIndex>, c: Char, t: StateIndex) {
    exists s :: s in Closure(nfa, states) && CharEdge(nfa, s, c, t)
  }

  /** The terminal the set itself holds, if any. */
  ghost function OwnTerminal(nfa: Automaton, states: iset<StateIndex>): StateIndex {
    if exists t :: t in Closure(nfa, states) && t < 0
    then var t :| t in Closure(nfa, states) && t < 0; t
    else UNMATCHED
  }

  ghost predicate OnlyTerminal(states: iset<StateIndex>, t: StateIndex) {
    t < 0 && states == iset{t}
  }

  /** Where a scan stops: at which terminal, and how many characters it consumed. */
  datatype Stop = Stop(terminal: StateIndex, consumed: nat)

  /** A terminal reached on the character at `pos` consumes it unless it is flagged. */
  function StopAt(t: StateIndex, pos: nat): Stop {
    if IsFlagged(t) then Stop(Unflagged(t), pos) else Stop(t, pos + 1)
  }

  /** Scanning by direct simulation. A set without successors stops the scan at its own terminal
      without consuming the character; a single terminal successor stops it at that terminal.
      None when the input ends first. */
  ghost function Simulate(nfa: Automaton, states: iset<StateIndex>, input: seq<Char>, pos: nat): Option<Stop>
    requires pos <= |input|
    decreases |input| - pos
  {
    if pos == |input| then None
    else
      var next := Successors(nfa, states, input[pos]);
      if next == iset{} then Some(Stop(Unflagged(OwnTerminal(nfa, states)), pos))
      else if exists t :: OnlyTerminal(next, t) then
        var t :| OnlyTerminal(next, t);
        Some(StopAt(t, pos))
      else Simulate(nfa, next, input, pos + 1)
  }

  // ----- building -----

  function AddUnique<T(==)>(s: seq<T>, x: T): seq<T> {
    if x in s then s else s + [x]
  }

  function WithState(nfa: Automaton): Automaton {
    nfa + [NFAState(map[], [])]
  }

  function WithEdge(nfa: Automaton, s: StateIndex, chars: set<Char>, t: StateIndex): Automaton
    requires 0 <= s < |nfa|
  {
    var before := if t in nfa[s].next then nfa[s].next[t] else {};
    nfa[s := nfa[s].(next := nfa[s].next[t := before + chars])]
  }

  function WithEpsilonEdge(nfa: Automaton, s: StateIndex, t: StateIndex): Automaton
    requires 0 <= s < |nfa|
  {
    nfa[s := nfa[s].(epsilon := AddUnique(nfa[s].epsilon, t))]
  }

  lemma EmptyOrNot(keys: set<StateIndex>)
    ensures keys == {} || exists key :: key in keys
  {
    if !exists key :: key in keys {
      assert keys == {};
    }
  }

  /** Hash tables are walked in an arbitrary order. */
  method AnyKey(keys: set<StateIndex>) returns (key: StateIndex)
    requires keys != {}
    ensures key in keys
  {
    EmptyOrNot(keys);
    key :| key in keys;
  }

  /** The automaton under construction; state 0 is the initial state. */
  class Builder {
    var nfaStates: Automaton

    constructor ()
      ensures nfaStates == [NFAState(map[], [])] && Valid(nfaStates)
    {
      nfaStates := [NFAState(map[], [])];
    }

    method AddState() returns (s: StateIndex)
      requires |nfaStates| < INT16_MAX
      modifies this
      ensures s == |old(nfaStates)| && nfaStates == WithState(old(nfaStates))
      ensures old(Valid(nfaStates)) ==> Valid(nfaStates)
    {
      nfaStates := nfaStates + [NFAState(map[], [])];
      s := |nfaStates| - 1;
      assert forall i :: 0 <= i < |old(nfaStates)| ==> nfaStates[i] == old(nfaStates)[i];
    }

    method AddEdge(s: StateIndex, chars: set<Char>, t: StateIndex)
      requires 0 <= s < |nfaStates|
      modifies this
      ensures nfaStates == WithEdge(old(nfaStates), s, chars, t)
      ensures old(Valid(nfaStates)) && ValidTarget(nfaStates, t) ==> Valid(nfaStates)
    {
      var next := nfaStates[s].next;
      if t !in next {
        next := next[t := {}];
      }
      next := next[t := next[t] + chars];
      assert next == WithEdge(nfaStates, s, chars, t)[s].next;
      nfaStates := nfaStates[s := nfaStates[s].(next := next)];
    }

    /** A non-terminal state that `s` leads to on the character. Hash tables are searched in an
        arbitrary order, so any such state may be found; UNMATCHED if there is none. */
    method GetNonTerminalEdge(s: StateIndex, c: Char) returns (t: StateIndex)
      requires 0 <= s < |nfaStates|
      ensures t >= 0 ==> CharEdge(nfaStates, s, c, t)
      ensures t < 0 ==> t == UNMATCHED && forall u :: u >= 0 ==> !CharEdge(nfaStates, s, c, u)
    {
      var keys := nfaStates[s].next.Keys;
      while keys != {}
        invariant keys <= nfaStates[s].next.Keys
        invariant forall u :: u >= 0 && CharEdge(nfaStates, s, c, u) ==> u in keys
        decreases |keys|
      {
        var key := AnyKey(keys);
        if key >= 0 && c in nfaStates[s].next[key] {
          return key;
        }
        keys := keys - {key};
      }
      return UNMATCHED;
    }

    method AddEpsilonEdge(s: StateIndex, t: StateIndex)
      requires 0 <= s < |nfaStates|
      modifies this
      ensures nfaStates == WithEpsilonEdge(old(nfaStates), s, t)
      ensures old(Valid(nfaStates)) && ValidTarget(nfaStates, t) ==> Valid(nfaStates)
    {
      for i := 0 to |nfaStates[s].epsilon|
        invariant t !in nfaStates[s].epsilon[..i] && nfaStates == old(nfaStates)
      {
        if nfaStates[s].epsilon[i] == t {
          return;
        }
      }
      nfaStates := nfaStates[s := nfaStates[s].(epsilon := nfaStates[s].epsilon + [t])];
    }
  }
}
