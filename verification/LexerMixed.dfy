/** The condition for exact recognition is necessary: where a literal may share a state of a pattern and
    some word that leads there does not go on to a word of the literal's token, the construction can
    build an automaton that takes it for one. And a condition on first characters that is easy to see
    suffices. */
module LexerMixed {
  import opened NFA
  import opened RegExp
  import opened RegExpExact
  import opened LexerRules
  import opened LexerExact

  // ----- some automaton can always be built -----

  lemma {:induction false} LiteralExists(nfa: Automaton, s: StateIndex, text: Word, f: StateIndex)
      returns (r: Automaton)
    requires 0 <= s < |nfa| && EdgesInside(nfa) && f < |nfa|
    ensures LiteralAdded(nfa, s, text, f, r) && EdgesInside(r) && |nfa| <= |r|
    decreases |text|
  {
    hide EdgesInside, WithEdge;
    if text == [] {
      r := nfa;
    } else if |text| == 1 {
      r := WithEdge(nfa, s, {text[0]}, f);
      InsideEdge(nfa, s, {text[0]}, f);
      EdgeEpsilons(nfa, s, {text[0]}, f);
    } else if NoNonTerminalEdge(nfa, s, text[0]) {
      var more := WithEdge(WithState(nfa), s, {text[0]}, |nfa|);
      InsideState(nfa);
      InsideEdge(WithState(nfa), s, {text[0]}, |nfa|);
      EdgeEpsilons(WithState(nfa), s, {text[0]}, |nfa|);
      r := LiteralExists(more, |nfa|, text[1..], f);
    } else {
      var t :| t >= 0 && CharEdge(nfa, s, text[0], t);
      InsideTarget(nfa, s, text[0], t);
      r := LiteralExists(nfa, t, text[1..], f);
    }
  }

  lemma TokenExists(nfa: Automaton, l: Literal) returns (r: Automaton)
    requires |nfa| > 0 && EdgesInside(nfa) && l.token < MAX_TOKENS
    ensures TokenAdded(nfa, l, r) && EdgesInside(r) && |r| > 0
  {
    hide EdgesInside, LiteralAdded, WithEdge;
    if l.separator {
      r := LiteralExists(nfa, 0, l.text, Terminal(l.token));
    } else {
      InsideSeparator(nfa, l.token);
      SeparatorGrows(nfa, l.token);
      r := LiteralExists(WithSeparator(nfa, l.token), 0, l.text, |nfa|);
    }
  }

  /** The automaton after some literals can be completed. */
  lemma {:induction false} Completed(patterns: seq<Pattern>, literals: seq<Literal>, n: nat, nfa: Automaton)
      returns (r: Automaton)
    requires n <= |literals| && Built(patterns, literals, n, nfa) && TokensFit(patterns, literals)
    requires |nfa| > 0 && EdgesInside(nfa)
    ensures IsLexer(patterns, literals, r) && Grows(nfa, r)
    decreases |literals| - n
  {
    hide EdgesInside, Built, TokenAdded, Grows;
    if n == |literals| {
      r := nfa;
      GrowsSelf(nfa);
    } else {
      var next := TokenExists(nfa, literals[n]);
      BuiltStep(patterns, literals, n, nfa, next);
      TokenLabels(nfa, literals[n], next);
      r := Completed(patterns, literals, n + 1, next);
      GrowsTransitive(nfa, next, r);
    }
  }

  /** Before any literal, an automaton for those before it. */
  lemma {:induction false} Begun(patterns: seq<Pattern>, literals: seq<Literal>, n: nat) returns (r: Automaton)
    requires n <= |literals| && TokensFit(patterns, literals)
    ensures Built(patterns, literals, n, r) && Grows(Base(patterns), r) && EdgesInside(r) && |r| > 0
  {
    hide EdgesInside, Built, TokenAdded, Grows, WithPatterns;
    if n == 0 {
      r := Base(patterns);
      BuiltStart(patterns, literals);
      BaseInside(patterns, literals);
      GrowsSelf(r);
    } else {
      var before := Begun(patterns, literals, n - 1);
      r := TokenExists(before, literals[n - 1]);
      BuiltStep(patterns, literals, n - 1, before, r);
      TokenLabels(before, literals[n - 1], r);
      GrowsTransitive(Base(patterns), before, r);
    }
  }

  // ----- a literal can share what it may share -----

  lemma ContinueOn(nfa: Automaton, text: Word, k: nat, p: StateIndex, s: StateIndex, f: StateIndex)
    requires |nfa| > 0 && k + 1 < |text| && 0 <= p < |nfa| && 0 <= s < |nfa| && CharEdge(nfa, p, text[k], s)
    requires Continues(nfa, 0, text, nfa, p, text[k..], f)
    ensures Continues(nfa, 0, text, nfa, s, text[k + 1..], f)
  {
    hide LiteralAdded, CharEdge;
    assert text[k..][0] == text[k] && text[k..][1..] == text[k + 1..];
    ContinueShared(nfa, p, text[k..], f, s);
  }

  lemma ContinueFirst(nfa: Automaton, text: Word, f: StateIndex)
    requires |nfa| > 0
    ensures Continues(nfa, 0, text, nfa, 0, text[0..], f)
  {
    assert text[0..] == text;
  }

  lemma {:induction false} ContinueShares(base: Automaton, nfa: Automaton, text: Word, k: nat, s: StateIndex,
      f: StateIndex)
    requires Grows(base, nfa) && |base| > 0 && k < |text| && Shares(base, text, k, s)
    ensures 0 <= s < |nfa| && Continues(nfa, 0, text, nfa, s, text[k..], f)
    decreases k
  {
    hide Continues, CharEdge;
    if k == 0 {
      ContinueFirst(nfa, text, f);
    } else {
      var j, c := k - 1, text[k - 1];
      var p :| Shares(base, text, j, p) && SharedEdge(base, p, c, s);
      ContinueShares(base, nfa, text, j, p, f);
      ContinueOn(nfa, text, j, p, s, f);
    }
  }

  /** An automaton in which the literal shares the state, and goes on from there. */
  lemma SharedToken(nfa: Automaton, base: Automaton, l: Literal, k: nat, s: StateIndex, t: StateIndex, v: Word)
      returns (r: Automaton)
    requires Grows(base, nfa) && |base| > 0 && EdgesInside(nfa) && l.token < MAX_TOKENS
    requires Rest(l, k, t, v) && Shares(base, l.text, k, s)
    ensures TokenAdded(nfa, l, r) && EdgesInside(r) && |r| > 0 && Grows(nfa, r) && Path(r, s, v, t)
  {
    hide EdgesInside, LiteralAdded, WithEdge, Grows, Path, Shares;
    GrowsSize(base, nfa);
    if l.separator {
      ContinueShares(base, nfa, l.text, k, s, t);
      r := LiteralExists(nfa, s, l.text[k..], t);
      LiteralLabels(nfa, s, l.text[k..], t, r);
    } else {
      var a, f := WithSeparator(nfa, l.token), |nfa|;
      InsideSeparator(nfa, l.token);
      SeparatorGrows(nfa, l.token);
      GrowsTransitive(base, nfa, a);
      ContinueShares(base, a, l.text, k, s, f);
      r := LiteralExists(a, s, l.text[k..], f);
      LiteralLabels(a, s, l.text[k..], f, r);
      GrowsTransitive(nfa, a, r);
      SeparatorLabels(nfa, r, l.token, v[|v| - 1]);
      PathJoin(r, s, l.text[k..], f, [v[|v| - 1]], t);
      assert v == v[..|v| - 1] + [v[|v| - 1]];
    }
  }

  lemma MixedLeaks(patterns: seq<Pattern>, literals: seq<Literal>, i: nat, k: nat, s: StateIndex, t: StateIndex,
      u: Word,
      v: Word) returns (nfa: Automaton)
    requires TokensFit(patterns, literals) && i < |literals| && Rest(literals[i], k, t, v)
    requires Shares(Base(patterns), literals[i].text, k, s) && Path(Base(patterns), 0, u, s)
    ensures IsLexer(patterns, literals, nfa) && Path(nfa, 0, u + v, t)
  {
    hide EdgesInside, Built, TokenAdded, Grows, WithPatterns, Path, Shares, Rest;
    var base := Base(patterns);
    var before := Begun(patterns, literals, i);
    var r := SharedToken(before, base, literals[i], k, s, t, v);
    BuiltStep(patterns, literals, i, before, r);
    nfa := Completed(patterns, literals, i + 1, r);
    GrowsTransitive(before, r, nfa);
    GrowsTransitive(base, before, nfa);
    PathGrows(base, nfa, 0, u, s);
    PathGrows(r, nfa, s, v, t);
    PathJoin(nfa, 0, u, s, v, t);
  }

  /** For all rules: every automaton that the construction can build is exact if and only if no word can be
      mistaken for a literal where it may share a state of a pattern. */
  lemma ExactIffUnmixed(patterns: seq<Pattern>, literals: seq<Literal>)
    requires TokensFit(patterns, literals)
    ensures (forall nfa :: IsLexer(patterns, literals, nfa) ==> Exact(patterns, literals, nfa)) <==> Unmixed(patterns, literals)
  {
    hide Built, Matches, Path, Shares;
    if Unmixed(patterns, literals) {
      forall nfa | IsLexer(patterns, literals, nfa) ensures Exact(patterns, literals, nfa) {
        forall t, w | t < 0 ensures Path(nfa, 0, w, t) <==> w in Matches(patterns, literals, t) {
          LexerIsExact(patterns, literals, nfa, t, w);
        }
      }
    }
    if forall nfa :: IsLexer(patterns, literals, nfa) ==> Exact(patterns, literals, nfa) {
      forall i, k, s, t, v | 0 <= i < |literals| && Rest(literals[i], k, t, v) && Shares(Base(patterns), literals[i].text, k, s)
        ensures GoesOn(patterns, literals, t, s, v)
      {
        forall u | Path(Base(patterns), 0, u, s) ensures u + v in Matches(patterns, literals, t) {
          var nfa := MixedLeaks(patterns, literals, i, k, s, t, u, v);
          assert Exact(patterns, literals, nfa);
        }
      }
    }
  }

  // ----- a condition on first characters -----

  lemma {:induction false} SharesFirst(patterns: seq<Pattern>, text: Word, k: nat, s: StateIndex)
    requires 0 < k < |text| && Shares(Base(patterns), text, k, s)
    ensures exists i :: 0 <= i < |patterns| && text[0] in FirstChars(patterns[i].node)
    decreases k
  {
    hide CharEdge, WithPatterns;
    var j, c := k - 1, text[k - 1];
    var p :| Shares(Base(patterns), text, j, p) && SharedEdge(Base(patterns), p, c, s);
    if j == 0 {
      PatternEdges(patterns, c, s);
    } else {
      SharesFirst(patterns, text, j, p);
    }
  }

  lemma NothingShared(patterns: seq<Pattern>, literals: seq<Literal>, i: nat, k: nat, s: StateIndex)
    requires Apart(patterns, literals) && i < |literals| && k < |literals[i].text|
    requires Shares(Base(patterns), literals[i].text, k, s)
    ensures k == 0
  {
    hide Shares, WithPatterns;
    assert k > 0 ==> Starts(literals, literals[i].text[0]);
    if k > 0 {
      SharesFirst(patterns, literals[i].text, k, s);
    }
  }

  /** If no literal of two or more characters starts as a pattern does, no state of a pattern is shared. */
  lemma ApartUnmixed(patterns: seq<Pattern>, literals: seq<Literal>)
    requires TokensFit(patterns, literals) && Apart(patterns, literals)
    ensures Unmixed(patterns, literals)
  {
    hide GoesOn, Path, Matches, Apart;
    forall i, k, s, t, v | 0 <= i < |literals| && Rest(literals[i], k, t, v) && Shares(Base(patterns), literals[i].text, k, s)
      ensures GoesOn(patterns, literals, t, s, v)
    {
      NothingShared(patterns, literals, i, k, s);
      StartGoesOn(patterns, literals, i, t, v);
    }
  }
}
