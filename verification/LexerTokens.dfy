/** What a scan with the lexer's automaton returns, in terms of the rules of its tokens: the longest
    viable prefix of the input decides. A token's text must be followed by a separator; the separator
    is left in the input unless some other rule could go on behind it. */
module LexerTokens {
  import opened Wrappers
  import opened NFA
  import opened RegExp
  import opened RegExpExact
  import opened SubsetConstruction
  import opened DFAConversion
  import opened LexerPaths
  import opened LexerRules
  import opened LexerExact

  // ----- the words of a token -----

  /** The texts of a token that needs a separator behind it. */
  ghost function Text(patterns: seq<Pattern>, literals: seq<Literal>, token: nat): Language {
    Concat(Star(Loops(patterns)), Texts(patterns, literals, Flagged(Terminal(token))))
  }

  ghost predicate IsSeparatorLiteral(literals: seq<Literal>, token: nat, w: Word) {
    exists i :: 0 <= i < |literals| && literals[i].separator && literals[i].token == token
                && literals[i].text == w && w != []
  }

  /** The texts of a token that is a separator itself. */
  ghost function Direct(patterns: seq<Pattern>, literals: seq<Literal>, token: nat): Language {
    Concat(Star(Loops(patterns)), iset w | IsSeparatorLiteral(literals, token, w))
  }

  /** A text of the token with a separator behind it. */
  ghost predicate Peeked(patterns: seq<Pattern>, literals: seq<Literal>, token: nat, w: Word) {
    |w| > 0 && w[|w| - 1] in SEPARATORS && w[..|w| - 1] in Text(patterns, literals, token)
  }

  lemma FlaggedMatches(patterns: seq<Pattern>, literals: seq<Literal>, token: nat, w: Word)
    requires TokensFit(patterns, literals) && token < MAX_TOKENS
    ensures w in Matches(patterns, literals, Flagged(Terminal(token))) <==> Peeked(patterns, literals, token, w)
  {
    hide Star, Loops, InTexts;
    var t := Flagged(Terminal(token));
    if w in Matches(patterns, literals, t) {
      var k :| 0 <= k <= |w| && w[..k] in Star(Loops(patterns)) && w[k..] in Ends(patterns, literals, t);
      var front := w[..|w| - 1];
      assert w[k..][..|w| - k - 1] == front[k..] && front[..k] == w[..k];
      assert w[k..][|w| - k - 1] == w[|w| - 1];
    }
    if Peeked(patterns, literals, token, w) {
      var front := w[..|w| - 1];
      var k :| 0 <= k <= |front| && front[..k] in Star(Loops(patterns)) && front[k..] in Texts(patterns, literals, t);
      assert w[..k] == front[..k] && w[k..][..|w| - k - 1] == front[k..] && w[k..][|w| - k - 1] == w[|w| - 1];
    }
  }

  lemma UnflaggedMatches(patterns: seq<Pattern>, literals: seq<Literal>, token: nat, w: Word)
    requires TokensFit(patterns, literals) && token < MAX_TOKENS
    ensures w in Matches(patterns, literals, Terminal(token)) <==> w in Direct(patterns, literals, token)
  {
    hide Concat, Star, Loops;
    var t := Terminal(token);
    forall u ensures u in Ends(patterns, literals, t) <==> IsSeparatorLiteral(literals, token, u) {
    }
    assert Ends(patterns, literals, t) == iset u | IsSeparatorLiteral(literals, token, u);
  }

  /** Every terminal a word leads to belongs to a token. */
  lemma TerminalsAreTokens(patterns: seq<Pattern>, literals: seq<Literal>, t: StateIndex, w: Word) returns (token: nat)
    requires TokensFit(patterns, literals) && w in Matches(patterns, literals, t)
    ensures token < MAX_TOKENS && (t == Terminal(token) || t == Flagged(Terminal(token)))
  {
    hide Star, Loops, Core;
    var k :| 0 <= k <= |w| && w[..k] in Star(Loops(patterns)) && w[k..] in Ends(patterns, literals, t);
    var u := w[k..];
    assert InEnds(patterns, literals, t, u);
    if i :| 0 <= i < |literals| && literals[i].separator && Terminal(literals[i].token) == t && literals[i].text == u && u != [] {
      token := literals[i].token;
    } else {
      token := TextToken(patterns, literals, t, u[..|u| - 1]);
    }
  }

  lemma TextToken(patterns: seq<Pattern>, literals: seq<Literal>, t: StateIndex, w: Word) returns (token: nat)
    requires TokensFit(patterns, literals) && InTexts(patterns, literals, t, w)
    ensures token < MAX_TOKENS && t == Flagged(Terminal(token))
  {
    hide Core;
    if i :| 0 <= i < |patterns| && Flagged(Terminal(patterns[i].token)) == t && w in Core(patterns[i].node) {
      token := patterns[i].token;
    } else {
      var i :| 0 <= i < |literals| && !literals[i].separator && Flagged(Terminal(literals[i].token)) == t
               && literals[i].text == w && w != [];
      token := literals[i].token;
    }
  }

  // ----- what a scan returns -----

  ghost predicate Recognized(patterns: seq<Pattern>, literals: seq<Literal>, token: nat, w: Word) {
    Peeked(patterns, literals, token, w) || w in Direct(patterns, literals, token)
  }

  /** For every set of rules and every input: with `n` the length of the longest viable prefix, the scan
      returns a token exactly if that prefix is the text of one and a separator, or a separator token;
      and it leaves the separator in the input exactly if no other rule is still viable there. */
  lemma ScanExact(patterns: seq<Pattern>, literals: seq<Literal>, nfa: Automaton, input: Word, stop: Stop)
      returns (n: nat)
    requires IsLexer(patterns, literals, nfa) && Unmixed(patterns, literals) && TokensFit(patterns, literals)
    requires Simulate(nfa, iset{0}, input, 0) == Some(stop)
    ensures Longest(nfa, input, n)
    ensures stop.terminal == UNMATCHED ==> stop.consumed == n
    ensures stop.terminal == UNMATCHED <==>
              forall token: nat :: token < MAX_TOKENS ==> !Recognized(patterns, literals, token, input[..n])
    ensures stop.terminal != UNMATCHED ==> exists token: nat :: Returned(patterns, literals, nfa, input, stop, n, token)
  {
    hide Simulate, Built, Unmixed, Path, Matches, Direct, Peeked;
    n := ScanExplained(nfa, input, stop);
    forall t, w | t < 0 ensures Path(nfa, 0, w, t) <==> w in Matches(patterns, literals, t) {
      LexerIsExact(patterns, literals, nfa, t, w);
    }
    var w := input[..n];
    forall token: nat | token < MAX_TOKENS
      ensures Recognized(patterns, literals, token, w) <==>
              Path(nfa, 0, w, Flagged(Terminal(token))) || Path(nfa, 0, w, Terminal(token))
    {
      FlaggedMatches(patterns, literals, token, w);
      UnflaggedMatches(patterns, literals, token, w);
    }
    if u :| u < 0 && Path(nfa, 0, w, u) {
      var t :| StopsAt(nfa, input, stop, n, t);
      var token := TerminalsAreTokens(patterns, literals, t, w);
      FlaggedMatches(patterns, literals, token, w);
      UnflaggedMatches(patterns, literals, token, w);
      assert Returned(patterns, literals, nfa, input, stop, n, token);
    }
  }

  ghost predicate Returned(patterns: seq<Pattern>, literals: seq<Literal>, nfa: Automaton, input: Word, stop: Stop,
      n: nat, token: nat)
    requires n <= |input|
  {
    && token < MAX_TOKENS && stop.terminal == Terminal(token)
    && if Peeked(patterns, literals, token, input[..n]) && Alone(nfa, input[..n], Flagged(Terminal(token)))
       then stop.consumed == n - 1
       else stop.consumed == n && Recognized(patterns, literals, token, input[..n])
  }

  /** No word leads to two terminals. */
  ghost predicate Unambiguous(nfa: Automaton) {
    forall w, t, u :: t < 0 && u < 0 && Path(nfa, 0, w, t) && Path(nfa, 0, w, u) ==> t == u
  }

  /** If the conversion to a DFA does not give up, no word leads to two terminals. */
  lemma ConvertedUnambiguous(nfa: Automaton)
    requires forall states :: Explored(nfa, states) ==> Supported(nfa, states)
    ensures Unambiguous(nfa)
  {
    hide Path, Closure, After;
    forall w, t, u | t < 0 && u < 0 && Path(nfa, 0, w, t) && Path(nfa, 0, w, u) ensures t == u {
      ReachedIffPath(nfa, w, t);
      ReachedIffPath(nfa, w, u);
      AfterScanned(nfa, w, t);
      if x :| OnlyTerminal(After(nfa, w), x) {
        TerminalEnds(nfa, x, 0);
      } else {
        assert Explored(nfa, After(nfa, w));
        assert !Ambiguous(nfa, After(nfa, w));
      }
    }
  }

  /** A set that holds anything is met by a scan, or is a terminal a scan stops at. */
  lemma {:induction false} AfterScanned(nfa: Automaton, w: Word, t: StateIndex)
    requires t in Closure(nfa, After(nfa, w))
    ensures (exists x :: OnlyTerminal(After(nfa, w), x)) || Scanned(nfa, w) == Some(After(nfa, w))
    decreases |w|
  {
    hide Closure, Successors;
    if w != [] {
      var front, c := w[..|w| - 1], w[|w| - 1];
      NotEmpty(nfa, After(nfa, w), t);
      var s, x := FromSome(nfa, After(nfa, front), c);
      AfterScanned(nfa, front, s);
      if y :| OnlyTerminal(After(nfa, front), y) {
        TerminalEnds(nfa, y, c);
      }
    }
  }

  lemma NotEmpty(nfa: Automaton, states: iset<StateIndex>, t: StateIndex)
    requires t in Closure(nfa, states)
    ensures states != iset{}
  {
    var p :| EpsilonPath(nfa, p) && p[0] in states && p[|p| - 1] == t;
  }

  lemma FromSome(nfa: Automaton, states: iset<StateIndex>, c: Char) returns (s: StateIndex, x: StateIndex)
    requires Successors(nfa, states, c) != iset{}
    ensures s in Closure(nfa, states) && CharEdge(nfa, s, c, x)
  {
    hide Closure;
    x :| x in Successors(nfa, states, c);
    s :| s in Closure(nfa, states) && CharEdge(nfa, s, c, x);
  }

  /** The characters an expression can read. */
  function Chars(e: Node): set<Char> {
    match e
    case Lit(chars) => chars
    case ZeroOrMore(child) => Chars(child)
    case OneOrMore(child) => Chars(child)
    case Optional(child) => Chars(child)
    case Alt(first, second) => Chars(first) + Chars(second)
    case Seq(first, second) => Chars(first) + Chars(second)
  }

  /** The characters lead to terminals only. */
  ghost predicate StopsOn(nfa: Automaton, stops: set<Char>) {
    forall s, c: Char, t :: CharEdge(nfa, s, c, t) && c in stops ==> t < 0
  }

  /** None of the characters occurs in a text, unless it is the whole text of a separator token. */
  ghost predicate FreeOf(patterns: seq<Pattern>, literals: seq<Literal>, stops: set<Char>) {
    && (forall i :: 0 <= i < |patterns| ==> Chars(patterns[i].node) !! stops)
    && forall i :: 0 <= i < |literals| ==>
         || (literals[i].separator && |literals[i].text| == 1)
         || forall k :: 0 <= k < |literals[i].text| ==> literals[i].text[k] !in stops
  }

  lemma EdgeStops(nfa: Automaton, s: StateIndex, chars: set<Char>, t: StateIndex, stops: set<Char>)
    requires StopsOn(nfa, stops) && 0 <= s < |nfa| && (t < 0 || chars !! stops)
    ensures StopsOn(WithEdge(nfa, s, chars, t), stops) && StopsOn(WithEpsilonEdge(nfa, s, t), stops)
  {
    hide WithEdge, WithEpsilonEdge, CharEdge;
    forall x, c: Char, y | CharEdge(WithEdge(nfa, s, chars, t), x, c, y) && c in stops ensures y < 0 {
      EdgeFrom(nfa, s, chars, t, x, c, y);
    }
    forall x, c: Char, y | CharEdge(WithEpsilonEdge(nfa, s, t), x, c, y) && c in stops ensures y < 0 {
      EdgeFrom(nfa, s, chars, t, x, c, y);
    }
  }

  lemma StateStops(nfa: Automaton, stops: set<Char>)
    requires StopsOn(nfa, stops)
    ensures StopsOn(WithState(nfa), stops)
  {
    hide CharEdge;
    forall x, c: Char, y | CharEdge(WithState(nfa), x, c, y) && c in stops ensures y < 0 {
      StateEdge(nfa, x, c, y);
    }
  }

  lemma StateEdge(nfa: Automaton, x: StateIndex, c: Char, y: StateIndex)
    ensures CharEdge(WithState(nfa), x, c, y) ==> CharEdge(nfa, x, c, y)
  {
  }

  lemma {:induction false} CreateStops(nfa: Automaton, e: Node, i: StateIndex, f: StateIndex, stops: set<Char>)
    requires StopsOn(nfa, stops) && 0 <= i < |nfa| && Chars(e) !! stops
    ensures StopsOn(Create(nfa, e, i, f), stops)
    decreases e
  {
    hide StopsOn, WithEdge, WithEpsilonEdge;
    match e
    case Lit(chars) => EdgeStops(nfa, i, chars, f, stops);
    case ZeroOrMore(child) =>
      CreateStops(nfa, child, i, i, stops);
      EdgeStops(Create(nfa, child, i, i), i, {}, f, stops);
    case OneOrMore(child) =>
      StateStops(nfa, stops);
      CreateStops(WithState(nfa), child, i, |nfa|, stops);
      var a := Create(WithState(nfa), child, i, |nfa|);
      CreateStops(a, child, |nfa|, |nfa|, stops);
      EdgeStops(Create(a, child, |nfa|, |nfa|), |nfa|, {}, f, stops);
    case Optional(child) =>
      CreateStops(nfa, child, i, f, stops);
      EdgeStops(Create(nfa, child, i, f), i, {}, f, stops);
    case Alt(first, second) =>
      CreateStops(nfa, first, i, f, stops);
      CreateStops(Create(nfa, first, i, f), second, i, f, stops);
    case Seq(first, second) =>
      StateStops(nfa, stops);
      CreateStops(WithState(nfa), first, i, |nfa|, stops);
      CreateStops(Create(WithState(nfa), first, i, |nfa|), second, |nfa|, f, stops);
  }

  lemma SeparatorStops(nfa: Automaton, token: nat, stops: set<Char>)
    requires StopsOn(nfa, stops) && token < MAX_TOKENS
    ensures StopsOn(WithSeparator(nfa, token), stops)
  {
    hide StopsOn;
    StateStops(nfa, stops);
    EdgeStops(WithState(nfa), |nfa|, SEPARATORS, Flagged(Terminal(token)), stops);
  }

  lemma {:induction false} LiteralStops(nfa: Automaton, s: StateIndex, text: Word, f: StateIndex, r: Automaton,
      stops: set<Char>)
    requires StopsOn(nfa, stops) && 0 <= s < |nfa| && LiteralAdded(nfa, s, text, f, r)
    requires (f < 0 && |text| == 1) || forall k :: 0 <= k < |text| ==> text[k] !in stops
    ensures StopsOn(r, stops)
    decreases |text|
  {
    hide StopsOn;
    if |text| == 1 {
      EdgeStops(nfa, s, {text[0]}, f, stops);
    } else if |text| > 1 {
      if NoNonTerminalEdge(nfa, s, text[0]) {
        StateStops(nfa, stops);
        EdgeStops(WithState(nfa), s, {text[0]}, |nfa|, stops);
        LiteralStops(WithEdge(WithState(nfa), s, {text[0]}, |nfa|), |nfa|, text[1..], f, r, stops);
      } else {
        var t :| 0 <= t < |nfa| && CharEdge(nfa, s, text[0], t) && LiteralAdded(nfa, t, text[1..], f, r);
        LiteralStops(nfa, t, text[1..], f, r, stops);
      }
    }
  }

  lemma {:induction false} PatternsStop(patterns: seq<Pattern>, literals: seq<Literal>, n: nat, stops: set<Char>)
    requires n <= |patterns| && FreeOf(patterns, literals, stops) && TokensFit(patterns, literals)
    ensures StopsOn(WithPatterns(START, patterns[..n]), stops)
  {
    hide StopsOn, Create, WithEdge;
    if n == 0 {
      StartStops(stops);
    } else {
      assert patterns[..n][..n - 1] == patterns[..n - 1];
      PatternsStop(patterns, literals, n - 1, stops);
      var before := WithPatterns(START, patterns[..n - 1]);
      SeparatorStops(before, patterns[n - 1].token, stops);
      SeparatorGrows(before, patterns[n - 1].token);
      CreateStops(WithSeparator(before, patterns[n - 1].token), patterns[n - 1].node, 0, |before|, stops);
    }
  }

  lemma StartStops(stops: set<Char>)
    ensures StopsOn(START, stops)
  {
  }

  lemma {:induction false} BuiltStops(patterns: seq<Pattern>, literals: seq<Literal>, n: nat, nfa: Automaton,
      stops: set<Char>)
    requires n <= |literals| && Built(patterns, literals, n, nfa)
    requires FreeOf(patterns, literals, stops) && TokensFit(patterns, literals)
    ensures StopsOn(nfa, stops)
  {
    hide StopsOn, LiteralAdded, WithEdge;
    if n == 0 {
      assert patterns[..|patterns|] == patterns;
      PatternsStop(patterns, literals, |patterns|, stops);
    } else {
      var before: Automaton :| |before| > 0 && Built(patterns, literals, n - 1, before) && TokenAdded(before, literals[n - 1], nfa);
      BuiltStops(patterns, literals, n - 1, before, stops);
      var l := literals[n - 1];
      if l.separator {
        LiteralStops(before, 0, l.text, Terminal(l.token), nfa, stops);
      } else {
        SeparatorStops(before, l.token, stops);
        SeparatorGrows(before, l.token);
        LiteralStops(WithSeparator(before, l.token), 0, l.text, |before|, nfa, stops);
      }
    }
  }

  /** Separators occur in no text, except that the separator tokens are one separator each. */
  ghost predicate SeparatorFree(patterns: seq<Pattern>, literals: seq<Literal>) {
    && FreeOf(patterns, literals, SEPARATORS)
    && forall i :: 0 <= i < |literals| && literals[i].separator ==>
         |literals[i].text| == 1 && literals[i].text[0] in SEPARATORS
  }

  /** After a separator only terminals are left, so nothing longer is viable. */
  lemma SeparatorEnds(nfa: Automaton, input: Word, n: nat, t: StateIndex)
    requires StopsOn(nfa, SEPARATORS) && Unambiguous(nfa) && 0 < n <= |input| && input[n - 1] in SEPARATORS
    requires t < 0 && Path(nfa, 0, input[..n], t)
    ensures Longest(nfa, input, n) && Alone(nfa, input[..n], t)
  {
    hide Path, Closure, Longest, StopsOn, Successors;
    var w := input[..n];
    AfterStop(nfa, w, SEPARATORS);
    ReachedIffPath(nfa, w, t);
    NotEmpty(nfa, After(nfa, w), t);
    forall u | u in After(nfa, w) ensures u == t {
      ClosureContains(nfa, After(nfa, w));
      ReachedIffPath(nfa, w, u);
    }
    assert After(nfa, w) == iset{t};
    AloneIffReached(nfa, w, t);
    if n < |input| {
      TerminalEnds(nfa, t, input[n]);
      AfterOneMore(nfa, input, n);
      DeadAfter(nfa, input, n);
    } else {
      ViableIffReached(nfa, w);
      WholeLongest(nfa, input);
    }
  }

  lemma WholeLongest(nfa: Automaton, input: Word)
    requires Viable(nfa, input[..|input|])
    ensures Longest(nfa, input, |input|)
  {
  }

  lemma LongestUnique(nfa: Automaton, input: Word, m: nat, n: nat)
    requires Longest(nfa, input, m) && Longest(nfa, input, n)
    ensures m == n
  {
  }

  /** For all rules under which no word leads to two terminals: the scan returns a token with `k` characters
      exactly if these are a text of it and a separator follows behind which nothing else is viable; or
      they are the longest viable prefix and the token itself, with its separator unless it is one. */
  lemma TokenExact(patterns: seq<Pattern>, literals: seq<Literal>, nfa: Automaton, input: Word, stop: Stop, token: nat,
      k: nat)
    requires IsLexer(patterns, literals, nfa) && Unmixed(patterns, literals) && TokensFit(patterns, literals)
    requires Unambiguous(nfa) && Simulate(nfa, iset{0}, input, 0) == Some(stop) && token < MAX_TOKENS
    ensures var f := Flagged(Terminal(token));
            stop == Stop(Terminal(token), k) <==>
              || (k < |input| && Peeked(patterns, literals, token, input[..k + 1]) && Alone(nfa, input[..k + 1], f))
              || (&& Longest(nfa, input, k) && Recognized(patterns, literals, token, input[..k])
                  && !(Peeked(patterns, literals, token, input[..k]) && Alone(nfa, input[..k], f)))
  {
    hide Simulate, Built, Unmixed, Path, Direct, Text, Alone, TokensFit, Matches, Peeked;
    var f := Flagged(Terminal(token));
    var n := ScanExact(patterns, literals, nfa, input, stop);
    if stop == Stop(Terminal(token), k) {
      var found: nat :| Returned(patterns, literals, nfa, input, stop, n, found);
      assert found == token;
    }
    if k < |input| && Peeked(patterns, literals, token, input[..k + 1]) && Alone(nfa, input[..k + 1], f) {
      AloneLongest(nfa, input, k + 1, f);
      LongestUnique(nfa, input, n, k + 1);
      TokenFound(patterns, literals, nfa, input, stop, n, token);
    }
    if Longest(nfa, input, k) && Recognized(patterns, literals, token, input[..k])
       && !(Peeked(patterns, literals, token, input[..k]) && Alone(nfa, input[..k], f)) {
      LongestUnique(nfa, input, n, k);
      TokenFound(patterns, literals, nfa, input, stop, n, token);
    }
  }

  /** A terminal on its own ends every path. */
  lemma AloneLongest(nfa: Automaton, input: Word, n: nat, t: StateIndex)
    requires n <= |input| && t < 0 && Alone(nfa, input[..n], t)
    ensures Longest(nfa, input, n)
  {
    hide Path, Closure, Successors, Longest, After;
    AloneIffReached(nfa, input[..n], t);
    ViableIffReached(nfa, input[..n]);
    assert t in iset{t};
    if n < |input| {
      TerminalEnds(nfa, t, input[n]);
      AfterOneMore(nfa, input, n);
      DeadAfter(nfa, input, n);
    } else {
      WholeLongest(nfa, input);
    }
  }

  /** What is recognized is returned, if no word leads to two terminals. */
  lemma TokenFound(patterns: seq<Pattern>, literals: seq<Literal>, nfa: Automaton, input: Word, stop: Stop, n: nat,
      token: nat)
    requires IsLexer(patterns, literals, nfa) && Unmixed(patterns, literals) && TokensFit(patterns, literals)
    requires Unambiguous(nfa) && n <= |input| && token < MAX_TOKENS && Recognized(patterns, literals, token, input[..n])
    requires (stop.terminal == UNMATCHED ==> !Recognized(patterns, literals, token, input[..n]))
    requires stop.terminal != UNMATCHED ==> exists found: nat :: Returned(patterns, literals, nfa, input, stop, n, found)
    ensures Returned(patterns, literals, nfa, input, stop, n, token)
  {
    hide Built, Unmixed, Path, Direct, Alone, TokensFit, Matches, Peeked;
    var found: nat :| Returned(patterns, literals, nfa, input, stop, n, found);
    var w := input[..n];
    TokenTerminal(patterns, literals, nfa, token, w);
    TokenTerminal(patterns, literals, nfa, found, w);
  }

  lemma TokenTerminal(patterns: seq<Pattern>, literals: seq<Literal>, nfa: Automaton, token: nat, w: Word)
    requires IsLexer(patterns, literals, nfa) && Unmixed(patterns, literals) && TokensFit(patterns, literals)
    requires token < MAX_TOKENS && Recognized(patterns, literals, token, w)
    ensures Path(nfa, 0, w, Flagged(Terminal(token))) || Path(nfa, 0, w, Terminal(token))
  {
    hide Built, Unmixed, Path, Direct, TokensFit, Matches, Peeked;
    FlaggedMatches(patterns, literals, token, w);
    UnflaggedMatches(patterns, literals, token, w);
    LexerIsExact(patterns, literals, nfa, Flagged(Terminal(token)), w);
    LexerIsExact(patterns, literals, nfa, Terminal(token), w);
  }

  // ----- the end of the input -----

  lemma AfterStop(nfa: Automaton, w: Word, stops: set<Char>)
    requires StopsOn(nfa, stops) && |w| > 0 && w[|w| - 1] in stops
    ensures forall u :: u in After(nfa, w) ==> u < 0
  {
    hide Closure;
  }

  lemma Inhabited(states: iset<StateIndex>)
    ensures states == iset{} || exists t :: t in states
  {
    assert (forall t :: t !in states) ==> states == iset{};
  }

  /** After a character that leads to terminals only, at most one state is left. */
  lemma OneLeft(nfa: Automaton, w: Word, stops: set<Char>)
    requires StopsOn(nfa, stops) && Unambiguous(nfa) && |w| > 0 && w[|w| - 1] in stops
    ensures After(nfa, w) == iset{} || exists t :: OnlyTerminal(After(nfa, w), t)
  {
    hide Path, Closure, Successors, StopsOn, After;
    AfterStop(nfa, w, stops);
    if After(nfa, w) != iset{} {
      Inhabited(After(nfa, w));
      var t :| t in After(nfa, w);
      forall u | u in After(nfa, w) ensures u == t {
        ClosureContains(nfa, After(nfa, w));
        ReachedIffPath(nfa, w, u);
        ReachedIffPath(nfa, w, t);
      }
      assert OnlyTerminal(After(nfa, w), t);
    }
  }

  lemma {:induction false} StopsBy(nfa: Automaton, input: Word, k: nat, pos: nat, stops: set<Char>)
    requires StopsOn(nfa, stops) && Unambiguous(nfa) && pos <= k < |input| && input[k] in stops
    ensures var r := Simulate(nfa, After(nfa, input[..pos]), input, pos); r.Some? && r.value.consumed <= k + 1
    decreases k - pos
  {
    hide StopsOn, Unambiguous, Successors, Closure, After;
    AfterOneMore(nfa, input, pos);
    if pos == k {
      assert input[..k + 1][k] == input[k];
      OneLeft(nfa, input[..k + 1], stops);
    } else {
      StopsBy(nfa, input, k, pos + 1, stops);
    }
  }

  /** The scan stops at or before the null character that ends every input, if no rule reads that character
      and no word leads to two terminals. */
  lemma NullStops(patterns: seq<Pattern>, literals: seq<Literal>, nfa: Automaton, input: Word, k: nat)
    requires IsLexer(patterns, literals, nfa) && TokensFit(patterns, literals) && FreeOf(patterns, literals, {0})
    requires Unambiguous(nfa) && k < |input| && input[k] == 0
    ensures var r := Simulate(nfa, iset{0}, input, 0); r.Some? && r.value.consumed <= k + 1
  {
    hide Simulate, Built, StopsOn, Unambiguous, FreeOf, TokensFit;
    BuiltStops(patterns, literals, |literals|, nfa, {0});
    assert input[..0] == [] && After(nfa, []) == iset{0};
    StopsBy(nfa, input, k, 0, {0});
  }

  // ----- rules whose texts hold no separators -----

  /** If no text holds a separator and no word leads to two terminals, the scan returns a token exactly
      when its text is followed by a separator, which it does not consume, or the input starts with a
      separator token. */
  lemma TokenIffSeparated(patterns: seq<Pattern>, literals: seq<Literal>, nfa: Automaton, input: Word, stop: Stop,
      token: nat, k: nat)
    requires IsLexer(patterns, literals, nfa) && Unmixed(patterns, literals) && TokensFit(patterns, literals)
    requires SeparatorFree(patterns, literals) && Unambiguous(nfa)
    requires Simulate(nfa, iset{0}, input, 0) == Some(stop) && token < MAX_TOKENS
    ensures stop == Stop(Terminal(token), k)
       <==> || (k < |input| && input[..k] in Text(patterns, literals, token) && input[k] in SEPARATORS)
            || (k <= |input| && input[..k] in Direct(patterns, literals, token))
  {
    hide Simulate, Built, Unmixed, Path, Direct, Text, Alone, StopsOn, Unambiguous, TokensFit, FreeOf, Matches;
    BuiltStops(patterns, literals, |literals|, nfa, SEPARATORS);
    var n := ScanExplained(nfa, input, stop);
    if k < |input| && input[..k] in Text(patterns, literals, token) && input[k] in SEPARATORS {
      var w := input[..k + 1];
      assert w[..k] == input[..k] && w[k] == input[k];
      FlaggedMatches(patterns, literals, token, w);
      LexerIsExact(patterns, literals, nfa, Flagged(Terminal(token)), w);
      SeparatorEnds(nfa, input, k + 1, Flagged(Terminal(token)));
      OnlyStop(nfa, input, stop, n, k + 1, Flagged(Terminal(token)));
    }
    if k <= |input| && input[..k] in Direct(patterns, literals, token) {
      DirectEnds(patterns, literals, token, input[..k]);
      UnflaggedMatches(patterns, literals, token, input[..k]);
      LexerIsExact(patterns, literals, nfa, Terminal(token), input[..k]);
      SeparatorEnds(nfa, input, k, Terminal(token));
      OnlyStop(nfa, input, stop, n, k, Terminal(token));
    }
    if stop == Stop(Terminal(token), k) {
      var m := ScanExact(patterns, literals, nfa, input, stop);
      var found: nat :| Returned(patterns, literals, nfa, input, stop, m, found);
      ReturnedSeparated(patterns, literals, nfa, input, stop, m, token);
    }
  }

  /** The scan stops at the only state of the longest viable prefix. */
  lemma OnlyStop(nfa: Automaton, input: Word, stop: Stop, n: nat, m: nat, t: StateIndex)
    requires Explained(nfa, input, stop, n) && Longest(nfa, input, m) && t < 0 && m > 0
    requires Alone(nfa, input[..m], t)
    ensures stop == if IsFlagged(t) then Stop(Unflagged(t), m - 1) else Stop(t, m)
  {
    hide Path;
    LongestUnique(nfa, input, m, n);
    assert Path(nfa, 0, input[..n], t);
    var u :| StopsAt(nfa, input, stop, n, u);
  }

  lemma DirectEnds(patterns: seq<Pattern>, literals: seq<Literal>, token: nat, w: Word)
    requires SeparatorFree(patterns, literals) && w in Direct(patterns, literals, token)
    ensures |w| > 0 && w[|w| - 1] in SEPARATORS
  {
    hide Star, Loops;
    var k :| 0 <= k <= |w| && w[..k] in Star(Loops(patterns)) && IsSeparatorLiteral(literals, token, w[k..]);
    var i :| 0 <= i < |literals| && literals[i].separator && literals[i].text == w[k..];
    assert w[k..][0] == w[|w| - 1];
  }

  lemma ReturnedSeparated(patterns: seq<Pattern>, literals: seq<Literal>, nfa: Automaton, input: Word, stop: Stop,
      n: nat, token: nat)
    requires n <= |input| && Returned(patterns, literals, nfa, input, stop, n, token) && TokensFit(patterns, literals)
    requires IsLexer(patterns, literals, nfa) && Unmixed(patterns, literals) && StopsOn(nfa, SEPARATORS) && Unambiguous(nfa)
    ensures var k := stop.consumed;
            || (k < |input| && input[..k] in Text(patterns, literals, token) && input[k] in SEPARATORS)
            || (k <= |input| && input[..k] in Direct(patterns, literals, token))
  {
    hide Built, Unmixed, Path, Direct, Text, Alone, Longest, StopsOn, Unambiguous, TokensFit, Matches;
    if Peeked(patterns, literals, token, input[..n]) {
      var w := input[..n];
      FlaggedMatches(patterns, literals, token, w);
      LexerIsExact(patterns, literals, nfa, Flagged(Terminal(token)), w);
      SeparatorEnds(nfa, input, n, Flagged(Terminal(token)));
      assert w[..n - 1] == input[..n - 1] && w[n - 1] == input[n - 1];
    }
  }

  // ----- a swallowed separator -----

  /** A name may hold the separator `=`: the rule `\$[a=]+`. */
  const NAME: Pattern := Pattern(Seq(Lit({36}), OneOrMore(Lit({97, 61}))), 0)

  /** Its automaton: 0 starts, 1 looks at the separator, 2 is behind the `$`, 3 inside the name. */
  predicate NameEdge(s: StateIndex, c: Char, t: StateIndex) {
    || (s == 0 && c == 36 && t == 2)
    || (s == 1 && c in SEPARATORS && t == -1)
    || (s == 2 && c in {97, 61} && t == 3)
    || (s == 3 && c in {97, 61} && t == 3)
  }

  ghost predicate IsNames(nfa: Automaton) {
    && (forall s, c: Char, t :: CharEdge(nfa, s, c, t) <==> NameEdge(s, c, t))
    && forall s, t :: EpsilonEdge(nfa, s, t) <==> s == 3 && t == 1
  }

  lemma EdgeExact(nfa: Automaton, s: StateIndex, chars: set<Char>, t: StateIndex)
    requires 0 <= s < |nfa|
    ensures forall x, c: Char, y :: CharEdge(WithEdge(nfa, s, chars, t), x, c, y) <==>
              CharEdge(nfa, x, c, y) || (x == s && y == t && c in chars)
    ensures forall x, y :: EpsilonEdge(WithEdge(nfa, s, chars, t), x, y) <==> EpsilonEdge(nfa, x, y)
  {
  }

  lemma EpsilonExact(nfa: Automaton, s: StateIndex, t: StateIndex)
    requires 0 <= s < |nfa|
    ensures forall x, c: Char, y :: CharEdge(WithEpsilonEdge(nfa, s, t), x, c, y) <==> CharEdge(nfa, x, c, y)
    ensures forall x, y :: EpsilonEdge(WithEpsilonEdge(nfa, s, t), x, y) <==> EpsilonEdge(nfa, x, y) || (x == s && y == t)
  {
  }

  lemma StateExact(nfa: Automaton)
    ensures |WithState(nfa)| == |nfa| + 1
    ensures forall x, c: Char, y :: CharEdge(WithState(nfa), x, c, y) <==> CharEdge(nfa, x, c, y)
    ensures forall x, y :: EpsilonEdge(WithState(nfa), x, y) <==> EpsilonEdge(nfa, x, y)
  {
  }

  lemma StartExact()
    ensures |START| == 1 && (forall x, c: Char, y :: !CharEdge(START, x, c, y)) && forall x, y :: !EpsilonEdge(START, x, y)
  {
  }

  lemma NamesBuilt() returns (nfa: Automaton)
    ensures IsLexer([NAME], [], nfa) && IsNames(nfa)
  {
    hide CharEdge, EpsilonEdge, WithEdge, WithState, WithEpsilonEdge;
    var a := WithState(START);
    StartExact();
    StateExact(START);
    var b := WithSeparator(START, 0);
    EdgeExact(a, 1, SEPARATORS, -1);
    EdgeSize(a, 1, SEPARATORS, -1);
    var c := WithState(b);
    StateExact(b);
    var d := WithEdge(c, 0, {36}, 2);
    EdgeExact(c, 0, {36}, 2);
    EdgeSize(c, 0, {36}, 2);
    assert d == Create(c, Lit({36}), 0, 2);
    nfa := NameTail(d);
    assert nfa == Create(b, NAME.node, 0, 1);
    assert [NAME][..0] == [];
    assert WithPatterns(START, [NAME]) == WithPattern(START, NAME) == nfa;
  }

  lemma EdgeSize(nfa: Automaton, s: StateIndex, chars: set<Char>, t: StateIndex)
    requires 0 <= s < |nfa|
    ensures |WithEdge(nfa, s, chars, t)| == |nfa|
  {
  }

  lemma NameTail(d: Automaton) returns (nfa: Automaton)
    requires |d| == 3 && forall s, c: Char, t :: CharEdge(d, s, c, t) <==> NameEdge(s, c, t) && s < 2
    requires forall s, t :: !EpsilonEdge(d, s, t)
    ensures nfa == Create(d, OneOrMore(Lit({97, 61})), 2, 1) && IsNames(nfa)
  {
    hide CharEdge, EpsilonEdge, WithEdge, WithState, WithEpsilonEdge;
    var chars := {97, 61};
    var e := WithState(d);
    StateExact(d);
    var f := WithEdge(e, 2, chars, 3);
    EdgeExact(e, 2, chars, 3);
    EdgeSize(e, 2, chars, 3);
    var g := WithEdge(f, 3, chars, 3);
    EdgeExact(f, 3, chars, 3);
    EdgeSize(f, 3, chars, 3);
    nfa := WithEpsilonEdge(g, 3, 1);
    EpsilonExact(g, 3, 1);
    assert f == Create(e, Lit(chars), 2, 3) && g == Create(f, Lit(chars), 3, 3);
  }

  lemma NameClosure(nfa: Automaton, states: iset<StateIndex>)
    requires IsNames(nfa)
    ensures Closure(nfa, states) == if 3 in states then states + iset{1} else states
  {
    hide Closure, CharEdge, EpsilonEdge;
    var closed := if 3 in states then states + iset{1} else states;
    ClosureLeast(nfa, states, closed);
    ClosureContains(nfa, states);
    if 3 in states {
      ClosureStep(nfa, states, 3, 1);
    }
  }

  lemma NameSuccessors(nfa: Automaton, states: iset<StateIndex>, c: Char, t: StateIndex)
    requires IsNames(nfa)
    ensures t in Successors(nfa, states, c) <==>
              exists s :: (s in states || (s == 1 && 3 in states)) && NameEdge(s, c, t)
  {
    hide CharEdge, EpsilonEdge, Closure, NameEdge;
    NameClosure(nfa, states);
  }

  lemma NameSteps(nfa: Automaton)
    requires IsNames(nfa)
    ensures Successors(nfa, iset{0}, 36) == iset{2} && Successors(nfa, iset{2}, 97) == iset{3}
    ensures Successors(nfa, iset{3}, 61) == iset{3, -1} && Successors(nfa, iset{3, -1}, 34) == iset{}
  {
    hide IsNames, Successors;
    assert NameEdge(0, 36, 2) && NameEdge(2, 97, 3) && NameEdge(3, 61, 3) && NameEdge(1, 61, -1);
    forall t ensures t in Successors(nfa, iset{0}, 36) <==> t in iset{2} {
      NameSuccessors(nfa, iset{0}, 36, t);
    }
    forall t ensures t in Successors(nfa, iset{2}, 97) <==> t in iset{3} {
      NameSuccessors(nfa, iset{2}, 97, t);
    }
    forall t ensures t in Successors(nfa, iset{3}, 61) <==> t in iset{3, -1} {
      NameSuccessors(nfa, iset{3}, 61, t);
    }
    forall t ensures t !in Successors(nfa, iset{3, -1}, 34) {
      NameSuccessors(nfa, iset{3, -1}, 34, t);
    }
  }

  /** A separator can be swallowed: on `$a="` the scan returns the name with the text `$a=`, although
      that is followed by a quote, while `$a` is followed by a separator. */
  lemma SwallowedSeparator() returns (nfa: Automaton)
    ensures IsLexer([NAME], [], nfa) && !SeparatorFree([NAME], [])
    ensures Simulate(nfa, iset{0}, [36, 97, 61, 34], 0) == Some(Stop(Terminal(0), 3))
    ensures 61 in SEPARATORS && 34 !in SEPARATORS
  {
    hide IsNames, Successors, Simulate, Built, SeparatorFree;
    nfa := NamesBuilt();
    NameSteps(nfa);
    NameHoldsSeparator();
    var input: Word := [36, 97, 61, 34];
    LastStep(nfa, input);
    GoesOn(nfa, iset{3}, input, 2, iset{3, -1}, 3);
    GoesOn(nfa, iset{2}, input, 1, iset{3}, 3);
    GoesOn(nfa, iset{0}, input, 0, iset{2}, 2);
  }

  lemma NameHoldsSeparator()
    ensures !SeparatorFree([NAME], [])
  {
    assert 61 in Chars(NAME.node) && 61 in SEPARATORS;
    assert [NAME][0] == NAME;
  }

  lemma LastStep(nfa: Automaton, input: Word)
    requires IsNames(nfa) && |input| == 4 && Successors(nfa, iset{3, -1}, input[3]) == iset{}
    ensures Simulate(nfa, iset{3, -1}, input, 3) == Some(Stop(Terminal(0), 3))
  {
    hide IsNames, Closure, Successors;
    NameClosure(nfa, iset{3, -1});
    assert -1 in Closure(nfa, iset{3, -1});
  }

  lemma GoesOn(nfa: Automaton, states: iset<StateIndex>, input: Word, pos: nat, next: iset<StateIndex>,
      live: StateIndex)
    requires pos < |input| && Successors(nfa, states, input[pos]) == next && live in next && live >= 0
    ensures Simulate(nfa, states, input, pos) == Simulate(nfa, next, input, pos + 1)
  {
    hide Successors;
    forall t ensures !OnlyTerminal(next, t) {
      assert live in next;
    }
  }

  // ----- a literal that shares a state with a pattern -----

  /** The rule `[ab]x`, and the literal `ac`. */
  const EITHER: Pattern := Pattern(Seq(Lit({97, 98}), Lit({120})), 0)
  const CLASH: Literal := Literal([97, 99], 1, false)

  lemma EitherEdges(c: Char, t: StateIndex)
    ensures |WithPattern(START, EITHER)| == 3
    ensures CharEdge(WithPattern(START, EITHER), 0, c, t) <==> c in {97, 98} && t == 2
  {
    hide CharEdge, EpsilonEdge, WithEdge, WithState;
    var a := WithState(START);
    StartExact();
    StateExact(START);
    var b := WithSeparator(START, 0);
    EdgeExact(a, 1, SEPARATORS, -1);
    EdgeSize(a, 1, SEPARATORS, -1);
    StateExact(b);
    var d := WithEdge(WithState(b), 0, {97, 98}, 2);
    EdgeExact(WithState(b), 0, {97, 98}, 2);
    EdgeSize(WithState(b), 0, {97, 98}, 2);
    EdgeExact(d, 2, {120}, 1);
    EdgeSize(d, 2, {120}, 1);
    assert d == Create(WithState(b), Lit({97, 98}), 0, 2);
    assert WithPattern(START, EITHER) == WithEdge(d, 2, {120}, 1);
  }

  /** The condition is needed: where a literal shares a state with a pattern, other words of the pattern
      that lead to the state become prefixes of the literal. Here `bc` is taken for `ac`. */
  lemma SharedStateLeaks(nfa: Automaton)
    requires IsLexer([EITHER], [CLASH], nfa)
    ensures !Unmixed([EITHER], [CLASH])
    ensures Path(nfa, 0, [98, 99, 32], Flagged(Terminal(1)))
    ensures [98, 99, 32] !in Matches([EITHER], [CLASH], Flagged(Terminal(1)))
  {
    hide Path, WithPattern, LiteralAdded, WithEdge;
    var before: Automaton :| |before| > 0 && Built([EITHER], [CLASH], 0, before) && TokenAdded(before, CLASH, nfa);
    assert [EITHER][..0] == [];
    StartInside();
    assert WithPatterns(START, [EITHER]) == WithPattern(START, EITHER);
    EitherEdges(97, 2);
    EitherEdges(98, 2);
    LeakPath(before, nfa);
    LeakedWord();
    if Unmixed([EITHER], [CLASH]) {
      LexerIsExact([EITHER], [CLASH], nfa, Flagged(Terminal(1)), [98, 99, 32]);
    }
  }

  lemma LeakedWord()
    ensures [98, 99, 32] !in Matches([EITHER], [CLASH], Flagged(Terminal(1)))
  {
    var w: Word, t := [98, 99, 32], Flagged(Terminal(1));
    assert [CLASH][0] == CLASH && [EITHER][0] == EITHER;
    assert Loops([EITHER]) == iset{};
    StarOfNothing();
    forall k | 0 <= k <= |w| && w[..k] in Star(Loops([EITHER])) ensures !InEnds([EITHER], [CLASH], t, w[k..]) {
      assert k == 0 && w[k..] == w && w[..2] == [98, 99];
      assert w[..2][0] == 98;
    }
  }

  lemma LeakPath(before: Automaton, nfa: Automaton)
    requires before == WithPattern(START, EITHER) && |before| == 3 && TokenAdded(before, CLASH, nfa)
    ensures Path(nfa, 0, [98, 99, 32], Flagged(Terminal(1)))
  {
    hide Path, Grows, WithPattern, CharEdge;
    var a := WithSeparator(before, 1);
    SeparatorGrows(before, 1);
    forall c: Char, t ensures CharEdge(a, 0, c, t) <==> c in {97, 98} && t == 2 {
      EitherEdges(c, t);
      StateExact(before);
      EdgeExact(WithState(before), 3, SEPARATORS, Flagged(Terminal(1)));
    }
    assert !NoNonTerminalEdge(a, 0, 97) by { assert CharEdge(a, 0, 97, 2); }
    var t :| 0 <= t < |a| && CharEdge(a, 0, 97, t) && LiteralAdded(a, t, CLASH.text[1..], 3, nfa);
    assert CLASH.text[1..] == [99];
    LiteralLabels(a, 2, [99], 3, nfa);
    PathMove(a, 0, OnChar(98, 2));
    PathGrows(a, nfa, 0, [98], 2);
    SeparatorLabels(before, nfa, 1, 32);
    PathJoin(nfa, 0, [98], 2, [99], 3);
    PathJoin(nfa, 0, [98] + [99], 3, [32], Flagged(Terminal(1)));
    assert [98] + [99] + [32] == [98, 99, 32];
  }
}
