/** What a scan returns, in terms of the paths of the automaton: the longest prefix of the input that
    leads anywhere decides, and the terminal it leads to. */
module LexerPaths {
  import opened Wrappers
  import opened NFA
  import opened RegExp

  // ----- paths against scanning -----

  /** The state set after reading a word, without stopping. */
  ghost function After(nfa: Automaton, w: Word): iset<StateIndex> {
    if w == [] then iset{0} else Successors(nfa, After(nfa, w[..|w| - 1]), w[|w| - 1])
  }

  lemma {:induction false} WalkSplit(nfa: Automaton, s: StateIndex, moves: seq<Move>)
    requires Walk(nfa, s, moves) && moves != []
    ensures var front, last := moves[..|moves| - 1], moves[|moves| - 1];
            && Walk(nfa, s, front) && CanMove(nfa, End(s, front), last)
            && Label(moves) == Label(front) + Read(last) && End(s, moves) == last.to
    decreases |moves|
  {
    var front, last, rest := moves[..|moves| - 1], moves[|moves| - 1], moves[1..];
    if |moves| == 1 {
      assert rest == [] && front == [];
    } else {
      WalkSplit(nfa, moves[0].to, rest);
      assert front[0] == moves[0] && front[1..] == rest[..|rest| - 1] && rest[|rest| - 1] == last;
      assert Read(moves[0]) + (Label(front[1..]) + Read(last)) == (Read(moves[0]) + Label(front[1..])) + Read(last);
    }
  }

  lemma {:induction false} WalkReached(nfa: Automaton, moves: seq<Move>)
    requires Walk(nfa, 0, moves)
    ensures End(0, moves) in Closure(nfa, After(nfa, Label(moves)))
    decreases |moves|
  {
    hide Closure, Successors;
    if moves == [] {
      ClosureContains(nfa, iset{0});
    } else {
      WalkSplit(nfa, 0, moves);
      var front, last := moves[..|moves| - 1], moves[|moves| - 1];
      WalkReached(nfa, front);
      var w := Label(front);
      if last.OnEpsilon? {
        assert Label(moves) == w;
        ClosureStep(nfa, After(nfa, w), End(0, front), last.to);
      } else {
        assert (w + [last.c])[..|w|] == w;
        StepsTo(nfa, After(nfa, w), End(0, front), last.c, last.to);
        ClosureContains(nfa, After(nfa, w + [last.c]));
      }
    }
  }

  lemma StepsTo(nfa: Automaton, states: iset<StateIndex>, s: StateIndex, c: Char, t: StateIndex)
    requires s in Closure(nfa, states) && CharEdge(nfa, s, c, t)
    ensures t in Successors(nfa, states, c)
  {
  }

  lemma {:induction false} EpsilonWalk(nfa: Automaton, p: seq<StateIndex>, i: nat)
    requires EpsilonPath(nfa, p) && i < |p|
    ensures Path(nfa, p[0], [], p[i])
  {
    if i == 0 {
      PathEmpty(nfa, p[0]);
    } else {
      EpsilonWalk(nfa, p, i - 1);
      assert EpsilonEdge(nfa, p[i - 1], p[i - 1 + 1]);
      PathMove(nfa, p[i - 1], OnEpsilon(p[i]));
      var none: Word := [];
      PathJoin(nfa, p[0], none, p[i - 1], none, p[i]);
      assert none + none == none;
    }
  }

  lemma {:induction false} ReachedWalks(nfa: Automaton, w: Word, t: StateIndex)
    requires t in Closure(nfa, After(nfa, w))
    ensures Path(nfa, 0, w, t)
    decreases |w|
  {
    hide Path;
    var p :| EpsilonPath(nfa, p) && p[0] in After(nfa, w) && p[|p| - 1] == t;
    EpsilonWalk(nfa, p, |p| - 1);
    if w != [] {
      var front, c := w[..|w| - 1], w[|w| - 1];
      var s :| s in Closure(nfa, After(nfa, front)) && CharEdge(nfa, s, c, p[0]);
      ReachedWalks(nfa, front, s);
      PathMove(nfa, s, OnChar(c, p[0]));
      PathJoin(nfa, 0, front, s, [c], p[0]);
      PathJoin(nfa, 0, front + [c], p[0], [], t);
      assert front + [c] + [] == w;
    }
  }

  /** The closed state set after a word holds exactly the states its paths lead to. */
  lemma ReachedIffPath(nfa: Automaton, w: Word, t: StateIndex)
    ensures t in Closure(nfa, After(nfa, w)) <==> Path(nfa, 0, w, t)
  {
    hide Closure;
    if Path(nfa, 0, w, t) {
      var moves :| Walk(nfa, 0, moves) && Label(moves) == w && End(0, moves) == t;
      WalkReached(nfa, moves);
    }
    if t in Closure(nfa, After(nfa, w)) {
      ReachedWalks(nfa, w, t);
    }
  }

  // ----- what a scan returns -----

  lemma NothingFollows(nfa: Automaton, w: Word, m: nat)
    requires m <= |w| && After(nfa, w[..m]) == iset{}
    ensures After(nfa, w) == iset{}
    decreases |w|
  {
    assert w[..|w|] == w;
    if m < |w| {
      assert w[..|w| - 1][..m] == w[..m];
      NothingFollows(nfa, w[..|w| - 1], m);
      forall t ensures t !in Closure(nfa, iset{}) {
      }
    }
  }

  /** A terminal is the end of every path through it. */
  lemma TerminalEnds(nfa: Automaton, t: StateIndex, c: Char)
    requires t < 0
    ensures Closure(nfa, iset{t}) == iset{t} && Successors(nfa, iset{t}, c) == iset{}
  {
    assert Closure(nfa, iset{t}) == iset{t} by {
      hide Closure;
      ClosureContains(nfa, iset{t});
      ClosureLeast(nfa, iset{t}, iset{t});
    }
    hide Closure;
  }

  /** The word leads to some state. */
  ghost predicate Viable(nfa: Automaton, w: Word) {
    exists t :: Path(nfa, 0, w, t)
  }

  /** The word leads to one state only. */
  ghost predicate Alone(nfa: Automaton, w: Word, t: StateIndex) {
    forall u :: Path(nfa, 0, w, u) <==> u == t
  }

  /** No prefix of the input longer than `n` leads anywhere. */
  ghost predicate Longest(nfa: Automaton, input: Word, n: nat) {
    && n <= |input| && Viable(nfa, input[..n])
    && forall m :: n < m <= |input| ==> !Viable(nfa, input[..m])
  }

  /** The scan stops at a terminal of the longest viable prefix. It consumes that prefix, except that a
      flagged terminal reached on its own gives the last character back. */
  ghost predicate Explained(nfa: Automaton, input: Word, stop: Stop, n: nat) {
    && Longest(nfa, input, n)
    && if exists t :: t < 0 && Path(nfa, 0, input[..n], t)
       then exists t :: StopsAt(nfa, input, stop, n, t)
       else stop == Stop(UNMATCHED, n)
  }

  ghost predicate StopsAt(nfa: Automaton, input: Word, stop: Stop, n: nat, t: StateIndex)
    requires n <= |input|
  {
    && t < 0 && Path(nfa, 0, input[..n], t) && stop.terminal == Unflagged(t)
    && (Alone(nfa, input[..n], t) ==> n > 0)
    && stop.consumed == if Alone(nfa, input[..n], t) && IsFlagged(t) then n - 1 else n
  }

  lemma ViableIffReached(nfa: Automaton, w: Word)
    ensures Viable(nfa, w) <==> After(nfa, w) != iset{}
  {
    hide Path, Closure;
    if t :| Path(nfa, 0, w, t) {
      ReachedIffPath(nfa, w, t);
      ClosureLeast(nfa, iset{}, iset{});
    }
    if t :| t in After(nfa, w) {
      ClosureContains(nfa, After(nfa, w));
      ReachedIffPath(nfa, w, t);
    }
  }

  lemma AloneIffReached(nfa: Automaton, w: Word, t: StateIndex)
    requires t < 0
    ensures Alone(nfa, w, t) <==> After(nfa, w) == iset{t}
  {
    hide Path, Closure, After;
    var states := After(nfa, w);
    ClosureContains(nfa, states);
    if Alone(nfa, w, t) {
      forall u ensures u in Closure(nfa, states) <==> u == t {
        ReachedIffPath(nfa, w, u);
      }
      ReachedIffPath(nfa, w, t);
      ClosureLeast(nfa, iset{}, iset{});
      assert states != iset{};
      assert states == iset{t};
    }
    if states == iset{t} {
      TerminalEnds(nfa, t, 0);
      forall u ensures Path(nfa, 0, w, u) <==> u == t {
        ReachedIffPath(nfa, w, u);
      }
    }
  }

  lemma DeadAfter(nfa: Automaton, input: Word, n: nat)
    requires n < |input| && After(nfa, input[..n + 1]) == iset{} && After(nfa, input[..n]) != iset{}
    ensures Longest(nfa, input, n)
  {
    hide Viable, Successors;
    ViableIffReached(nfa, input[..n]);
    forall m | n < m <= |input| ensures !Viable(nfa, input[..m]) {
      assert input[..m][..n + 1] == input[..n + 1];
      NothingFollows(nfa, input[..m], n + 1);
      ViableIffReached(nfa, input[..m]);
    }
  }

  /** The state set has no successors: the scan stops at its own terminal. */
  lemma StopExplained(nfa: Automaton, input: Word, pos: nat)
    requires pos < |input| && After(nfa, input[..pos + 1]) == iset{} && After(nfa, input[..pos]) != iset{}
    requires !exists t :: OnlyTerminal(After(nfa, input[..pos]), t)
    ensures Explained(nfa, input, Stop(Unflagged(OwnTerminal(nfa, After(nfa, input[..pos]))), pos), pos)
  {
    hide Path, Successors, Closure, After, Longest, Alone;
    DeadAfter(nfa, input, pos);
    var states := After(nfa, input[..pos]);
    forall t ensures t in Closure(nfa, states) <==> Path(nfa, 0, input[..pos], t) {
      ReachedIffPath(nfa, input[..pos], t);
    }
    var t := OwnTerminal(nfa, states);
    if exists u :: u < 0 && Path(nfa, 0, input[..pos], u) {
      AloneIffReached(nfa, input[..pos], t);
      assert Alone(nfa, input[..pos], t) ==> OnlyTerminal(states, t);
      assert StopsAt(nfa, input, Stop(Unflagged(t), pos), pos, t);
    }
  }

  /** A terminal is the only successor: the scan stops there. */
  lemma TokenExplained(nfa: Automaton, input: Word, pos: nat, t: StateIndex)
    requires pos < |input| && t < 0 && After(nfa, input[..pos + 1]) == iset{t}
    ensures Explained(nfa, input, StopAt(t, pos), pos + 1)
  {
    hide Path, Successors, Closure, After;
    var n := pos + 1;
    AloneIffReached(nfa, input[..n], t);
    ViableIffReached(nfa, input[..n]);
    if n < |input| {
      TerminalEnds(nfa, t, input[n]);
      assert After(nfa, input[..n + 1]) == iset{} by { AfterOneMore(nfa, input, n); }
      DeadAfter(nfa, input, n);
    }
    assert StopsAt(nfa, input, StopAt(t, pos), n, t);
  }

  lemma AfterOneMore(nfa: Automaton, input: Word, pos: nat)
    requires pos < |input|
    ensures After(nfa, input[..pos + 1]) == Successors(nfa, After(nfa, input[..pos]), input[pos])
  {
    hide Successors;
    assert input[..pos + 1][..pos] == input[..pos];
  }

  /** The scan of every automaton on every input is explained by the longest viable prefix. */
  lemma {:induction false} SimulationExplained(nfa: Automaton, input: Word, pos: nat) returns (n: nat)
    requires pos <= |input| && After(nfa, input[..pos]) != iset{}
    requires !exists t :: OnlyTerminal(After(nfa, input[..pos]), t)
    requires Simulate(nfa, After(nfa, input[..pos]), input, pos).Some?
    ensures Explained(nfa, input, Simulate(nfa, After(nfa, input[..pos]), input, pos).value, n)
    decreases |input| - pos
  {
    hide Path, Successors, Closure, After, Explained;
    var next := Successors(nfa, After(nfa, input[..pos]), input[pos]);
    AfterOneMore(nfa, input, pos);
    if next == iset{} {
      StopExplained(nfa, input, pos);
      n := pos;
    } else if t :| OnlyTerminal(next, t) {
      TokenExplained(nfa, input, pos, t);
      OneOnly(next, t);
      n := pos + 1;
    } else {
      n := SimulationExplained(nfa, input, pos + 1);
    }
  }

  lemma OneOnly(states: iset<StateIndex>, t: StateIndex)
    requires OnlyTerminal(states, t)
    ensures forall u :: OnlyTerminal(states, u) ==> u == t
  {
    forall u | OnlyTerminal(states, u) ensures u == t {
      assert u in states;
    }
  }

  /** From the initial state. */
  lemma ScanExplained(nfa: Automaton, input: Word, stop: Stop) returns (n: nat)
    requires Simulate(nfa, iset{0}, input, 0) == Some(stop)
    ensures Explained(nfa, input, stop, n)
  {
    hide Simulate, Explained;
    assert input[..0] == [] && After(nfa, []) == iset{0};
    assert 0 in iset{0};
    forall t | t < 0 ensures !OnlyTerminal(iset{0}, t) {
      assert 0 in iset{0};
    }
    n := SimulationExplained(nfa, input, 0);
  }
}
