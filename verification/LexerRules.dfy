/** The lexer's automaton: every token but the parentheses and the equals sign ends in a state that
    only looks at the separator behind it, and literal tokens share the states of common prefixes.
    Which words lead to which terminal. */
module LexerRules {
  import opened NFA
  import opened RegExp
  import opened RegExpExact

  datatype Pattern = Pattern(node: Node, token: nat)

  /** `separator` marks the literals that need no separator behind them. */
  datatype Literal = Literal(text: Word, token: nat, separator: bool)

  const SEPARATORS: set<Char> := {32, 9, 13, 10, 61, 40, 41, 59, 0}

  /** The separators are white space, the equals sign, the parentheses, the semicolon and the end of the text. */
  lemma SeparatorsExact(c: Char)
    ensures c in SEPARATORS <==> c as char in " \t\r\n=();\0"
  {
    var text := " \t\r\n=();\0";
    assert |text| == 9 && text[0] == ' ' && text[1] == '\t' && text[2] == '\r' && text[3] == '\n' && text[4] == '=';
    assert text[5] == '(' && text[6] == ')' && text[7] == ';' && text[8] == '\0';
    if c in SEPARATORS {
      assert c as char == ' ' || c as char == '\t' || c as char == '\r' || c as char == '\n' || c as char == '='
          || c as char == '(' || c as char == ')' || c as char == ';' || c as char == '\0';
    }
  }

  function Terminal(token: nat): StateIndex {
    MAX_TERMINAL - token
  }

  /** The number of tokens the terminals below MAX_TERMINAL leave room for. */
  const MAX_TOKENS: nat := 0x3fff

  predicate TokensFit(patterns: seq<Pattern>, literals: seq<Literal>) {
    && (forall i :: 0 <= i < |patterns| ==> patterns[i].token < MAX_TOKENS)
    && forall i :: 0 <= i < |literals| ==> literals[i].token < MAX_TOKENS
  }

  // ----- the construction -----

  /** A new state that leads to the token on a separator, without consuming it. */
  function WithSeparator(nfa: Automaton, token: nat): Automaton {
    WithEdge(WithState(nfa), |nfa|, SEPARATORS, Flagged(Terminal(token)))
  }

  function WithPattern(nfa: Automaton, p: Pattern): (r: Automaton)
    requires |nfa| > 0
    ensures |r| == |nfa| + 1 + StatesNeeded(p.node)
  {
    Create(WithSeparator(nfa, p.token), p.node, 0, |nfa|)
  }

  function WithPatterns(nfa: Automaton, patterns: seq<Pattern>): (r: Automaton)
    requires |nfa| > 0
    ensures |r| > 0
  {
    if patterns == [] then nfa
    else WithPattern(WithPatterns(nfa, patterns[..|patterns| - 1]), patterns[|patterns| - 1])
  }

  ghost predicate NoNonTerminalEdge(nfa: Automaton, s: StateIndex, c: Char) {
    forall t :: t >= 0 ==> !CharEdge(nfa, s, c, t)
  }

  /** `r` is `nfa` with a literal from `s` to `f`, sharing states where a non-terminal edge on the
      character exists; which of several is taken is up to the hash table. */
  ghost predicate LiteralAdded(nfa: Automaton, s: StateIndex, text: Word, f: StateIndex, r: Automaton)
    requires 0 <= s < |nfa|
    decreases |text|
  {
    if text == [] then r == nfa
    else if |text| == 1 then r == WithEdge(nfa, s, {text[0]}, f)
    else if NoNonTerminalEdge(nfa, s, text[0]) then
      LiteralAdded(WithEdge(WithState(nfa), s, {text[0]}, |nfa|), |nfa|, text[1..], f, r)
    else exists t :: 0 <= t < |nfa| && CharEdge(nfa, s, text[0], t) && LiteralAdded(nfa, t, text[1..], f, r)
  }

  ghost predicate TokenAdded(nfa: Automaton, l: Literal, r: Automaton)
    requires |nfa| > 0
  {
    if l.separator then LiteralAdded(nfa, 0, l.text, Terminal(l.token), r)
    else LiteralAdded(WithSeparator(nfa, l.token), 0, l.text, |nfa|, r)
  }

  const START: Automaton := [NFAState(map[], [])]

  /** The automaton after all patterns and the first `n` literals. */
  ghost predicate Built(patterns: seq<Pattern>, literals: seq<Literal>, n: nat, nfa: Automaton)
    requires n <= |literals|
  {
    if n == 0 then nfa == WithPatterns(START, patterns)
    else exists before: Automaton :: |before| > 0 && Built(patterns, literals, n - 1, before)
                                     && TokenAdded(before, literals[n - 1], nfa)
  }

  ghost predicate IsLexer(patterns: seq<Pattern>, literals: seq<Literal>, nfa: Automaton) {
    Built(patterns, literals, |literals|, nfa)
  }

  // ----- the building methods -----

  method CreateTokenSeparatorPeekState(builder: Builder, token: nat) returns (s: StateIndex)
    requires |builder.nfaStates| < INT16_MAX
    modifies builder
    ensures s == |old(builder.nfaStates)| && builder.nfaStates == WithSeparator(old(builder.nfaStates), token)
    ensures old(Valid(builder.nfaStates)) && token < MAX_TOKENS ==> Valid(builder.nfaStates)
  {
    s := builder.AddState();
    builder.AddEdge(s, SEPARATORS, Flagged(Terminal(token)));
  }

  /** What is left to add continues what was added so far. */
  ghost predicate Continues(before: Automaton, s: StateIndex, text: Word, now: Automaton, t: StateIndex, rest: Word,
      f: StateIndex)
    requires 0 <= s < |before| && 0 <= t < |now|
  {
    forall r :: LiteralAdded(now, t, rest, f, r) ==> LiteralAdded(before, s, text, f, r)
  }

  lemma ContinueShared(nfa: Automaton, s: StateIndex, text: Word, f: StateIndex, t: StateIndex)
    requires 0 <= s < |nfa| && |text| > 1 && 0 <= t < |nfa| && CharEdge(nfa, s, text[0], t)
    ensures Continues(nfa, s, text, nfa, t, text[1..], f)
  {
  }

  lemma ContinueNew(nfa: Automaton, s: StateIndex, text: Word, f: StateIndex)
    requires 0 <= s < |nfa| && |text| > 1 && NoNonTerminalEdge(nfa, s, text[0])
    ensures Continues(nfa, s, text, WithEdge(WithState(nfa), s, {text[0]}, |nfa|), |nfa|, text[1..], f)
  {
  }

  /** Adds a literal one character at a time, sharing the states of earlier literals. */
  method AddLiteralString(builder: Builder, text: Word, initialState: StateIndex, finalState: StateIndex)
    requires 0 <= initialState < |builder.nfaStates| && EdgesInside(builder.nfaStates)
    requires |builder.nfaStates| + |text| <= INT16_MAX && finalState < |builder.nfaStates|
    modifies builder
    ensures LiteralAdded(old(builder.nfaStates), initialState, text, finalState, builder.nfaStates)
    ensures EdgesInside(builder.nfaStates)
    ensures old(Valid(builder.nfaStates)) && finalState >= UNMATCHED ==> Valid(builder.nfaStates)
    ensures |old(builder.nfaStates)| <= |builder.nfaStates| <= |old(builder.nfaStates)| + |text|
  {
    hide EdgesInside, LiteralAdded, Valid;
    var state := initialState;
    for i := 0 to |text|
      invariant EdgesInside(builder.nfaStates) && finalState < |builder.nfaStates|
      invariant old(Valid(builder.nfaStates)) && finalState >= UNMATCHED ==> Valid(builder.nfaStates)
      invariant |old(builder.nfaStates)| <= |builder.nfaStates| <= |old(builder.nfaStates)| + i
      invariant i < |text| || i == 0 ==> 0 <= state < |builder.nfaStates|
      invariant i < |text| || i == 0 ==>
        Continues(old(builder.nfaStates), initialState, text, builder.nfaStates, state, text[i..], finalState)
      invariant i == |text| > 0 ==> LiteralAdded(old(builder.nfaStates), initialState, text, finalState, builder.nfaStates)
    {
      ghost var before, from := builder.nfaStates, state;
      var nextState := builder.GetNonTerminalEdge(state, text[i]);
      InsideTarget(builder.nfaStates, state, text[i], nextState);
      if nextState < 0 || i + 1 == |text| {
        if i + 1 == |text| {
          nextState := finalState;
          AddLast(before, from, text[i..], finalState);
        } else {
          nextState := builder.AddState();
          InsideState(before);
          ContinueNew(before, from, text[i..], finalState);
        }
        InsideEdge(builder.nfaStates, state, {text[i]}, nextState);
        builder.AddEdge(state, {text[i]}, nextState);
      } else {
        ContinueShared(before, from, text[i..], finalState, nextState);
      }
      assert text[i..][1..] == text[i + 1..] && text[i..][0] == text[i];
      state := nextState;
    }
    if text == [] {
      AddNothing(builder.nfaStates, state, finalState);
      assert text[0..] == [];
    }
  }

  lemma AddLast(nfa: Automaton, s: StateIndex, text: Word, f: StateIndex)
    requires 0 <= s < |nfa| && |text| == 1
    ensures LiteralAdded(nfa, s, text, f, WithEdge(nfa, s, {text[0]}, f))
  {
  }

  lemma AddNothing(nfa: Automaton, s: StateIndex, f: StateIndex)
    requires 0 <= s < |nfa|
    ensures LiteralAdded(nfa, s, [], f, nfa)
  {
  }

  lemma InsideTarget(nfa: Automaton, s: StateIndex, c: Char, t: StateIndex)
    requires EdgesInside(nfa)
    ensures CharEdge(nfa, s, c, t) ==> t < |nfa|
  {
  }

  lemma InsideState(nfa: Automaton)
    requires EdgesInside(nfa)
    ensures EdgesInside(WithState(nfa))
  {
    assert forall s, c: Char, t :: CharEdge(WithState(nfa), s, c, t) ==> CharEdge(nfa, s, c, t);
    assert forall s, t :: EpsilonEdge(WithState(nfa), s, t) ==> EpsilonEdge(nfa, s, t);
  }

  lemma InsideEdge(nfa: Automaton, s: StateIndex, chars: set<Char>, t: StateIndex)
    requires EdgesInside(nfa) && 0 <= s < |nfa| && t < |nfa|
    ensures EdgesInside(WithEdge(nfa, s, chars, t)) && EdgesInside(WithEpsilonEdge(nfa, s, t))
  {
    var a, b := WithEdge(nfa, s, chars, t), WithEpsilonEdge(nfa, s, t);
    assert forall x, c: Char, y :: CharEdge(a, x, c, y) ==> CharEdge(nfa, x, c, y) || y == t;
    assert forall x, y :: EpsilonEdge(a, x, y) ==> EpsilonEdge(nfa, x, y);
    assert forall x, c: Char, y :: CharEdge(b, x, c, y) ==> CharEdge(nfa, x, c, y);
    assert forall x, y :: EpsilonEdge(b, x, y) ==> EpsilonEdge(nfa, x, y) || y == t;
  }

  lemma {:induction false} InsideCreate(nfa: Automaton, e: Node, i: StateIndex, f: StateIndex)
    requires EdgesInside(nfa) && 0 <= i < |nfa| && f < |nfa|
    ensures EdgesInside(Create(nfa, e, i, f))
    decreases e
  {
    hide EdgesInside, WithEdge, WithEpsilonEdge;
    match e
    case Lit(chars) => InsideEdge(nfa, i, chars, f);
    case ZeroOrMore(child) =>
      InsideCreate(nfa, child, i, i);
      InsideEdge(Create(nfa, child, i, i), i, {}, f);
    case OneOrMore(child) =>
      InsideState(nfa);
      InsideCreate(WithState(nfa), child, i, |nfa|);
      var a := Create(WithState(nfa), child, i, |nfa|);
      InsideCreate(a, child, |nfa|, |nfa|);
      InsideEdge(Create(a, child, |nfa|, |nfa|), |nfa|, {}, f);
    case Optional(child) =>
      InsideCreate(nfa, child, i, f);
      InsideEdge(Create(nfa, child, i, f), i, {}, f);
    case Alt(first, second) =>
      InsideCreate(nfa, first, i, f);
      InsideCreate(Create(nfa, first, i, f), second, i, f);
    case Seq(first, second) =>
      InsideState(nfa);
      InsideCreate(WithState(nfa), first, i, |nfa|);
      InsideCreate(Create(WithState(nfa), first, i, |nfa|), second, |nfa|, f);
  }

  lemma InsideSeparator(nfa: Automaton, token: nat)
    requires EdgesInside(nfa) && token < MAX_TOKENS
    ensures EdgesInside(WithSeparator(nfa, token))
  {
    hide EdgesInside;
    InsideState(nfa);
    InsideEdge(WithState(nfa), |nfa|, SEPARATORS, Flagged(Terminal(token)));
  }

  method AddLiteralToken(builder: Builder, l: Literal)
    requires |builder.nfaStates| > 0 && EdgesInside(builder.nfaStates) && l.token < MAX_TOKENS
    requires |builder.nfaStates| + 1 + |l.text| <= INT16_MAX
    modifies builder
    ensures TokenAdded(old(builder.nfaStates), l, builder.nfaStates)
    ensures EdgesInside(builder.nfaStates)
    ensures old(Valid(builder.nfaStates)) ==> Valid(builder.nfaStates)
    ensures |old(builder.nfaStates)| <= |builder.nfaStates| <= |old(builder.nfaStates)| + 1 + |l.text|
  {
    hide LiteralAdded, EdgesInside, Valid;
    if l.separator {
      AddLiteralString(builder, l.text, 0, Terminal(l.token));
    } else {
      InsideSeparator(builder.nfaStates, l.token);
      var finalState := CreateTokenSeparatorPeekState(builder, l.token);
      AddLiteralString(builder, l.text, 0, finalState);
    }
  }

  function PatternStates(patterns: seq<Pattern>): nat {
    if patterns == [] then 0
    else PatternStates(patterns[..|patterns| - 1]) + 1 + StatesNeeded(patterns[|patterns| - 1].node)
  }

  function LiteralStates(literals: seq<Literal>, n: nat): nat
    requires n <= |literals|
  {
    if n == 0 then 0 else LiteralStates(literals, n - 1) + 1 + |literals[n - 1].text|
  }

  lemma {:induction false} PatternsGrow(patterns: seq<Pattern>, n: nat)
    requires n <= |patterns|
    ensures PatternStates(patterns[..n]) <= PatternStates(patterns)
    decreases |patterns|
  {
    assert patterns[..|patterns|] == patterns;
    if n < |patterns| {
      assert patterns[..|patterns| - 1][..n] == patterns[..n];
      PatternsGrow(patterns[..|patterns| - 1], n);
    }
  }

  lemma {:induction false} LiteralsGrow(literals: seq<Literal>, n: nat)
    requires n <= |literals|
    ensures LiteralStates(literals, n) <= LiteralStates(literals, |literals|)
    decreases |literals| - n
  {
    if n < |literals| {
      LiteralsGrow(literals, n + 1);
    }
  }

  /** Builds the automaton: all patterns, then all literals. */
  method BuildLexer(patterns: seq<Pattern>, literals: seq<Literal>) returns (builder: Builder)
    requires TokensFit(patterns, literals)
    requires 1 + PatternStates(patterns) + LiteralStates(literals, |literals|) <= INT16_MAX
    ensures fresh(builder) && IsLexer(patterns, literals, builder.nfaStates) && Valid(builder.nfaStates)
  {
    hide Built, TokenAdded, EdgesInside, LiteralAdded, Valid;
    builder := new Builder();
    StartInside();
    for i := 0 to |patterns|
      invariant fresh(builder) && EdgesInside(builder.nfaStates) && Valid(builder.nfaStates)
      invariant builder.nfaStates == WithPatterns(START, patterns[..i])
      invariant |builder.nfaStates| == 1 + PatternStates(patterns[..i])
    {
      assert patterns[..i + 1][..i] == patterns[..i];
      PatternsGrow(patterns, i + 1);
      InsideSeparator(builder.nfaStates, patterns[i].token);
      var finalState := CreateTokenSeparatorPeekState(builder, patterns[i].token);
      InsideCreate(builder.nfaStates, patterns[i].node, 0, finalState);
      CreateNFA(builder, patterns[i].node, 0, finalState);
    }
    assert patterns[..|patterns|] == patterns;
    BuiltStart(patterns, literals);
    for i := 0 to |literals|
      invariant fresh(builder) && EdgesInside(builder.nfaStates) && |builder.nfaStates| > 0 && Valid(builder.nfaStates)
      invariant Built(patterns, literals, i, builder.nfaStates)
      invariant |builder.nfaStates| <= 1 + PatternStates(patterns) + LiteralStates(literals, i)
    {
      LiteralsGrow(literals, i + 1);
      ghost var before := builder.nfaStates;
      AddLiteralToken(builder, literals[i]);
      BuiltStep(patterns, literals, i, before, builder.nfaStates);
    }
  }

  lemma StartInside()
    ensures EdgesInside(START) && WithPatterns(START, []) == START
  {
  }

  lemma BuiltStart(patterns: seq<Pattern>, literals: seq<Literal>)
    ensures Built(patterns, literals, 0, WithPatterns(START, patterns))
  {
  }

  lemma BuiltStep(patterns: seq<Pattern>, literals: seq<Literal>, n: nat, before: Automaton, after: Automaton)
    requires n < |literals| && |before| > 0 && Built(patterns, literals, n, before) && TokenAdded(before, literals[n], after)
    ensures Built(patterns, literals, n + 1, after)
  {
  }

  // ----- the words of a terminal -----

  /** The loops that the patterns leave at the common initial state. */
  ghost function Loops(patterns: seq<Pattern>): Language {
    iset w | InLoops(patterns, w)
  }

  ghost predicate InLoops(patterns: seq<Pattern>, w: Word) {
    exists i :: 0 <= i < |patterns| && w in Loop(patterns[i].node)
  }

  /** The words between the loops and a separator that make the token. */
  ghost function Texts(patterns: seq<Pattern>, literals: seq<Literal>, t: StateIndex): Language {
    iset w | InTexts(patterns, literals, t, w)
  }

  ghost predicate InTexts(patterns: seq<Pattern>, literals: seq<Literal>, t: StateIndex, w: Word) {
    || (exists i :: 0 <= i < |patterns| && Flagged(Terminal(patterns[i].token)) == t && w in Core(patterns[i].node))
    || (exists i :: 0 <= i < |literals| && !literals[i].separator && Flagged(Terminal(literals[i].token)) == t
                    && literals[i].text == w && w != [])
  }

  /** The words that end at a terminal, as far as they do not loop at the initial state. */
  ghost predicate InEnds(patterns: seq<Pattern>, literals: seq<Literal>, t: StateIndex, w: Word) {
    || (|w| > 0 && w[|w| - 1] in SEPARATORS && InTexts(patterns, literals, t, w[..|w| - 1]))
    || (exists i :: 0 <= i < |literals| && literals[i].separator && Terminal(literals[i].token) == t
                    && literals[i].text == w && w != [])
  }

  ghost function Ends(patterns: seq<Pattern>, literals: seq<Literal>, t: StateIndex): Language {
    iset w | InEnds(patterns, literals, t, w)
  }

  /** What the automaton should accept at a terminal. */
  ghost function Matches(patterns: seq<Pattern>, literals: seq<Literal>, t: StateIndex): Language {
    Concat(Star(Loops(patterns)), Ends(patterns, literals, t))
  }

  // ----- every such word leads to its terminal -----

  lemma SeparatorGrows(nfa: Automaton, token: nat)
    ensures Grows(nfa, WithSeparator(nfa, token)) && |WithSeparator(nfa, token)| == |nfa| + 1
  {
    var a := WithState(nfa);
    var b := WithSeparator(nfa, token);
    assert forall s, c: Char, t :: CharEdge(nfa, s, c, t) ==> CharEdge(a, s, c, t);
    assert forall s, t :: EpsilonEdge(nfa, s, t) ==> EpsilonEdge(a, s, t);
    EdgeGrows(a, |nfa|, SEPARATORS, Flagged(Terminal(token)));
  }

  lemma GrowsTransitive(a: Automaton, b: Automaton, c: Automaton)
    requires Grows(a, b) && Grows(b, c)
    ensures Grows(a, c)
  {
  }

  lemma GrowsSelf(a: Automaton)
    ensures Grows(a, a)
  {
  }

  lemma {:induction false} LiteralLabels(nfa: Automaton, s: StateIndex, text: Word, f: StateIndex, r: Automaton)
    requires 0 <= s < |nfa| && LiteralAdded(nfa, s, text, f, r)
    ensures Grows(nfa, r) && (text != [] ==> Path(r, s, text, f))
    decreases |text|
  {
    hide Grows, Path;
    GrowsSelf(nfa);
    if |text| == 1 {
      EdgeGrows(nfa, s, {text[0]}, f);
      PathMove(r, s, OnChar(text[0], f));
      assert text == [text[0]];
    } else if |text| > 1 {
      var base, t := nfa, 0;
      if NoNonTerminalEdge(nfa, s, text[0]) {
        t := |nfa|;
        base := WithEdge(WithState(nfa), s, {text[0]}, t);
        EdgeGrows(nfa, s, {}, t);
        EdgeGrows(WithState(nfa), s, {text[0]}, t);
        GrowsTransitive(nfa, WithState(nfa), base);
      } else {
        t :| 0 <= t < |nfa| && CharEdge(nfa, s, text[0], t) && LiteralAdded(nfa, t, text[1..], f, r);
      }
      LiteralLabels(base, t, text[1..], f, r);
      GrowsTransitive(nfa, base, r);
      PathMove(base, s, OnChar(text[0], t));
      PathGrows(base, r, s, [text[0]], t);
      PathJoin(r, s, [text[0]], t, text[1..], f);
      assert [text[0]] + text[1..] == text;
    }
  }

  lemma SeparatorLabels(nfa: Automaton, r: Automaton, token: nat, c: Char)
    requires Grows(WithSeparator(nfa, token), r) && c in SEPARATORS
    ensures Path(r, |nfa|, [c], Flagged(Terminal(token)))
  {
    hide Grows, Path;
    var a := WithSeparator(nfa, token);
    PathMove(a, |nfa|, OnChar(c, Flagged(Terminal(token))));
    PathGrows(a, r, |nfa|, [c], Flagged(Terminal(token)));
  }

  /** The words of one literal lead to its terminal. */
  lemma TokenLabels(nfa: Automaton, l: Literal, r: Automaton)
    requires |nfa| > 0 && TokenAdded(nfa, l, r)
    ensures Grows(nfa, r) && |r| > 0
    ensures l.text != [] && l.separator ==> Path(r, 0, l.text, Terminal(l.token))
    ensures l.text != [] && !l.separator ==>
              forall c: Char :: c in SEPARATORS ==> Path(r, 0, l.text + [c], Flagged(Terminal(l.token)))
  {
    hide Grows, Path, LiteralAdded;
    if l.separator {
      LiteralLabels(nfa, 0, l.text, Terminal(l.token), r);
      GrowsSize(nfa, r);
    } else {
      var a := WithSeparator(nfa, l.token);
      SeparatorGrows(nfa, l.token);
      LiteralLabels(a, 0, l.text, |nfa|, r);
      GrowsTransitive(nfa, a, r);
      GrowsSize(nfa, r);
      forall c: Char | l.text != [] && c in SEPARATORS ensures Path(r, 0, l.text + [c], Flagged(Terminal(l.token))) {
        SeparatorLabels(nfa, r, l.token, c);
        PathJoin(r, 0, l.text, |nfa|, [c], Flagged(Terminal(l.token)));
      }
    }
  }

  lemma GrowsSize(a: Automaton, b: Automaton)
    requires Grows(a, b)
    ensures |a| <= |b|
  {
  }

  /** The words of one pattern lead to its terminal, and its loops back to the initial state. */
  ghost predicate PatternLabels(nfa: Automaton, p: Pattern) {
    && Labels(nfa, 0, Loop(p.node), 0)
    && forall w, c: Char :: w in Core(p.node) && c in SEPARATORS ==> Path(nfa, 0, w + [c], Flagged(Terminal(p.token)))
  }

  lemma PatternLabeled(nfa: Automaton, p: Pattern)
    requires |nfa| > 0
    ensures PatternLabels(WithPattern(nfa, p), p) && Grows(nfa, WithPattern(nfa, p))
  {
    hide Grows, Path, Loop, Core, Create;
    var a, r := WithSeparator(nfa, p.token), WithPattern(nfa, p);
    SeparatorGrows(nfa, p.token);
    CreateGrows(a, p.node, 0, |nfa|);
    GrowsTransitive(nfa, a, r);
    CreateLabels(a, p.node, 0, |nfa|);
    forall w, c: Char | w in Core(p.node) && c in SEPARATORS ensures Path(r, 0, w + [c], Flagged(Terminal(p.token))) {
      SeparatorLabels(nfa, r, p.token, c);
      PathJoin(r, 0, w, |nfa|, [c], Flagged(Terminal(p.token)));
    }
  }

  lemma PatternLabelsGrow(nfa: Automaton, more: Automaton, p: Pattern)
    requires Grows(nfa, more) && PatternLabels(nfa, p)
    ensures PatternLabels(more, p)
  {
    hide Grows, Path, Loop, Core;
    LabelsGrow(nfa, more, 0, Loop(p.node), 0);
    forall w, c: Char | w in Core(p.node) && c in SEPARATORS ensures Path(more, 0, w + [c], Flagged(Terminal(p.token))) {
      PathGrows(nfa, more, 0, w + [c], Flagged(Terminal(p.token)));
    }
  }

  lemma {:induction false} PatternsLabeled(patterns: seq<Pattern>, i: nat)
    requires i < |patterns|
    ensures PatternLabels(WithPatterns(START, patterns), patterns[i])
    decreases |patterns|
  {
    hide Grows, PatternLabels, WithPattern;
    var front, last := patterns[..|patterns| - 1], patterns[|patterns| - 1];
    var before := WithPatterns(START, front);
    PatternLabeled(before, last);
    if i < |front| {
      PatternsLabeled(front, i);
      PatternLabelsGrow(before, WithPatterns(START, patterns), patterns[i]);
    }
  }

  /** The words of one literal lead to its terminal. */
  ghost predicate LiteralLabeled(nfa: Automaton, l: Literal) {
    && (l.text != [] && l.separator ==> Path(nfa, 0, l.text, Terminal(l.token)))
    && (l.text != [] && !l.separator ==>
          forall c: Char :: c in SEPARATORS ==> Path(nfa, 0, l.text + [c], Flagged(Terminal(l.token))))
  }

  lemma LiteralLabeledGrows(nfa: Automaton, more: Automaton, l: Literal)
    requires Grows(nfa, more) && LiteralLabeled(nfa, l)
    ensures LiteralLabeled(more, l)
  {
    hide Grows, Path;
    if l.text != [] && l.separator {
      PathGrows(nfa, more, 0, l.text, Terminal(l.token));
    }
    forall c: Char | l.text != [] && !l.separator && c in SEPARATORS
      ensures Path(more, 0, l.text + [c], Flagged(Terminal(l.token)))
    {
      PathGrows(nfa, more, 0, l.text + [c], Flagged(Terminal(l.token)));
    }
  }

  lemma {:induction false} BuiltLabels(patterns: seq<Pattern>, literals: seq<Literal>, n: nat, nfa: Automaton)
    requires n <= |literals| && Built(patterns, literals, n, nfa)
    ensures |nfa| > 0
    ensures forall i :: 0 <= i < |patterns| ==> PatternLabels(nfa, patterns[i])
    ensures forall i :: 0 <= i < n ==> LiteralLabeled(nfa, literals[i])
  {
    hide Grows, PatternLabels, LiteralLabeled, TokenAdded, WithPatterns;
    if n == 0 {
      forall i | 0 <= i < |patterns| ensures PatternLabels(nfa, patterns[i]) {
        PatternsLabeled(patterns, i);
      }
    } else {
      var before: Automaton :| |before| > 0 && Built(patterns, literals, n - 1, before) && TokenAdded(before, literals[n - 1], nfa);
      BuiltLabels(patterns, literals, n - 1, before);
      TokenLabels(before, literals[n - 1], nfa);
      LastLabeled(before, literals[n - 1], nfa);
      forall i | 0 <= i < |patterns| ensures PatternLabels(nfa, patterns[i]) {
        PatternLabelsGrow(before, nfa, patterns[i]);
      }
      forall i | 0 <= i < n - 1 ensures LiteralLabeled(nfa, literals[i]) {
        LiteralLabeledGrows(before, nfa, literals[i]);
      }
    }
  }

  lemma LastLabeled(before: Automaton, l: Literal, nfa: Automaton)
    requires |before| > 0 && TokenAdded(before, l, nfa)
    ensures LiteralLabeled(nfa, l)
  {
    hide Path, TokenAdded;
    TokenLabels(before, l, nfa);
  }

  /** The lexer recognises every token it should, whatever states the literals share. */
  lemma LexerContains(patterns: seq<Pattern>, literals: seq<Literal>, nfa: Automaton, t: StateIndex, w: Word)
    requires IsLexer(patterns, literals, nfa) && w in Matches(patterns, literals, t)
    ensures Path(nfa, 0, w, t)
  {
    hide Path, Concat, Star, Loop, Core, Built;
    BuiltLabels(patterns, literals, |literals|, nfa);
    forall u | u in Loops(patterns) ensures Path(nfa, 0, u, 0) {
      var i :| 0 <= i < |patterns| && u in Loop(patterns[i].node);
      assert PatternLabels(nfa, patterns[i]);
    }
    forall u | u in Ends(patterns, literals, t) ensures Path(nfa, 0, u, t) {
      EndLabeled(patterns, literals, nfa, t, u);
    }
    LabelsStar(nfa, 0, Loops(patterns));
    LabelsConcat(nfa, 0, Star(Loops(patterns)), 0, Ends(patterns, literals, t), t);
  }

  lemma EndLabeled(patterns: seq<Pattern>, literals: seq<Literal>, nfa: Automaton, t: StateIndex, w: Word)
    requires forall i :: 0 <= i < |patterns| ==> PatternLabels(nfa, patterns[i])
    requires forall i :: 0 <= i < |literals| ==> LiteralLabeled(nfa, literals[i])
    requires InEnds(patterns, literals, t, w)
    ensures Path(nfa, 0, w, t)
  {
    hide Path, Loop, Core;
    if i :| 0 <= i < |literals| && literals[i].separator && Terminal(literals[i].token) == t && literals[i].text == w && w != [] {
      assert LiteralLabeled(nfa, literals[i]);
    } else {
      var front, c := w[..|w| - 1], w[|w| - 1];
      assert w == front + [c];
      if i :| 0 <= i < |patterns| && Flagged(Terminal(patterns[i].token)) == t && front in Core(patterns[i].node) {
        assert PatternLabels(nfa, patterns[i]);
      } else {
        var i :| 0 <= i < |literals| && !literals[i].separator && Flagged(Terminal(literals[i].token)) == t
                 && literals[i].text == front && front != [];
        assert LiteralLabeled(nfa, literals[i]);
      }
    }
  }
}
