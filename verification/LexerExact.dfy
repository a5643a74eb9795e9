/** Which words the lexer's automaton accepts at a terminal. Literals may share states of patterns, and then
    other words of the pattern become prefixes of the literal. The automaton accepts exactly the words of
    the terminal's rules, whichever states are shared, if and only if all words that lead to a shared
    state go on, with the rest of the literal, to words of its token. */
module LexerExact {
  import opened NFA
  import opened RegExp
  import opened RegExpExact
  import opened LexerPaths
  import opened LexerRules

  // ----- the condition -----

  /** The automaton of the patterns alone. */
  function Base(patterns: seq<Pattern>): (r: Automaton)
    ensures |r| > 0
  {
    WithPatterns(START, patterns)
  }

  /** A literal may share the state after `k` characters of its text. */
  ghost predicate Shares(base: Automaton, text: Word, k: nat, s: StateIndex)
    requires k <= |text|
    decreases k
  {
    if k == 0 then s == 0
    else var j, c := k - 1, text[k - 1]; exists p :: Shares(base, text, j, p) && SharedEdge(base, p, c, s)
  }

  ghost predicate SharedEdge(base: Automaton, p: StateIndex, c: Char, s: StateIndex) {
    0 <= s < |base| && CharEdge(base, p, c, s)
  }

  /** The word is the rest of the literal from `k` on, up to and including the terminal `t`. */
  ghost predicate Rest(l: Literal, k: nat, t: StateIndex, v: Word) {
    && k < |l.text|
    && if l.separator then t == Terminal(l.token) && v == l.text[k..]
       else && t == Flagged(Terminal(l.token)) && |v| > 0
            && v[|v| - 1] in SEPARATORS && v[..|v| - 1] == l.text[k..]
  }

  /** Every word that leads to the state of a pattern goes on with `v` to a word of the terminal. */
  ghost predicate GoesOn(patterns: seq<Pattern>, literals: seq<Literal>, t: StateIndex, s: StateIndex, v: Word) {
    forall u :: Path(Base(patterns), 0, u, s) ==> u + v in Matches(patterns, literals, t)
  }

  /** Where a literal may share a state of a pattern, no word is mistaken for the literal. */
  ghost predicate Unmixed(patterns: seq<Pattern>, literals: seq<Literal>) {
    forall i, k, s, t, v ::
      0 <= i < |literals| && Rest(literals[i], k, t, v) && Shares(Base(patterns), literals[i].text, k, s) ==>
        GoesOn(patterns, literals, t, s, v)
  }

  /** The automaton accepts at every terminal exactly the words of its rules. */
  ghost predicate Exact(patterns: seq<Pattern>, literals: seq<Literal>, nfa: Automaton) {
    forall t, w :: t < 0 ==> (Path(nfa, 0, w, t) <==> w in Matches(patterns, literals, t))
  }

  // ----- the edges of the patterns -----

  /** The characters on edges from the initial state of an expression's translation. */
  function FirstChars(e: Node): set<Char> {
    match e
    case Lit(chars) => chars
    case ZeroOrMore(child) => FirstChars(child)
    case OneOrMore(child) => FirstChars(child)
    case Optional(child) => FirstChars(child)
    case Alt(first, second) => FirstChars(first) + FirstChars(second)
    case Seq(first, _) => FirstChars(first)
  }

  /** The character starts a literal of more than one character. */
  ghost predicate Starts(literals: seq<Literal>, c: Char) {
    exists i :: 0 <= i < |literals| && |literals[i].text| > 1 && literals[i].text[0] == c
  }

  /** No literal can share the states of a pattern. */
  ghost predicate Apart(patterns: seq<Pattern>, literals: seq<Literal>) {
    forall i, c: Char :: 0 <= i < |patterns| && c in FirstChars(patterns[i].node) ==> !Starts(literals, c)
  }

  lemma EdgeFrom(nfa: Automaton, s: StateIndex, chars: set<Char>, t: StateIndex, x: StateIndex, c: Char, y: StateIndex)
    requires 0 <= s < |nfa|
    ensures CharEdge(WithEdge(nfa, s, chars, t), x, c, y) ==> CharEdge(nfa, x, c, y) || (x == s && y == t && c in chars)
    ensures CharEdge(WithEpsilonEdge(nfa, s, t), x, c, y) ==> CharEdge(nfa, x, c, y)
    ensures CharEdge(WithState(nfa), x, c, y) ==> CharEdge(nfa, x, c, y)
  {
  }

  /** The translation adds edges to an older state only from its initial state, on first characters. */
  lemma {:induction false} CreateEdges(nfa: Automaton, e: Node, i: StateIndex, f: StateIndex, s: StateIndex, c: Char,
      t: StateIndex)
    requires 0 <= i < |nfa| && s < |nfa| && CharEdge(Create(nfa, e, i, f), s, c, t)
    ensures CharEdge(nfa, s, c, t) || (s == i && c in FirstChars(e))
    decreases e
  {
    hide WithEdge, WithEpsilonEdge, CharEdge;
    match e
    case Lit(chars) => EdgeFrom(nfa, i, chars, f, s, c, t);
    case ZeroOrMore(child) =>
      EdgeFrom(Create(nfa, child, i, i), i, {}, f, s, c, t);
      CreateEdges(nfa, child, i, i, s, c, t);
    case OneOrMore(child) =>
      var m := |nfa|;
      var a := Create(WithState(nfa), child, i, m);
      EdgeFrom(Create(a, child, m, m), m, {}, f, s, c, t);
      CreateEdges(a, child, m, m, s, c, t);
      CreateEdges(WithState(nfa), child, i, m, s, c, t);
      EdgeFrom(nfa, i, {}, f, s, c, t);
    case Optional(child) =>
      EdgeFrom(Create(nfa, child, i, f), i, {}, f, s, c, t);
      CreateEdges(nfa, child, i, f, s, c, t);
    case Alt(first, second) =>
      CreateEdges(Create(nfa, first, i, f), second, i, f, s, c, t);
      if CharEdge(Create(nfa, first, i, f), s, c, t) {
        CreateEdges(nfa, first, i, f, s, c, t);
      }
    case Seq(first, second) =>
      var m := |nfa|;
      CreateEdges(Create(WithState(nfa), first, i, m), second, m, f, s, c, t);
      CreateEdges(WithState(nfa), first, i, m, s, c, t);
      EdgeFrom(nfa, i, {}, f, s, c, t);
  }

  lemma {:induction false} PatternEdges(patterns: seq<Pattern>, c: Char, t: StateIndex)
    requires CharEdge(WithPatterns(START, patterns), 0, c, t)
    ensures exists i :: 0 <= i < |patterns| && c in FirstChars(patterns[i].node)
    decreases |patterns|
  {
    hide CharEdge, Create, WithEdge;
    if patterns == [] {
      NoEdgeAtStart(c, t);
      assert false;
    } else {
      var front, last := patterns[..|patterns| - 1], patterns[|patterns| - 1];
      var before := WithPatterns(START, front);
      CreateEdges(WithSeparator(before, last.token), last.node, 0, |before|, 0, c, t);
      EdgeFrom(WithState(before), |before|, SEPARATORS, Flagged(Terminal(last.token)), 0, c, t);
      EdgeFrom(before, 0, {}, 0, 0, c, t);
      if CharEdge(before, 0, c, t) {
        PatternEdges(front, c, t);
        var i :| 0 <= i < |front| && c in FirstChars(front[i].node);
        assert patterns[i] == front[i];
      }
    }
  }

  lemma NoEdgeAtStart(c: Char, t: StateIndex)
    ensures !CharEdge(START, 0, c, t)
  {
  }

  lemma EndsMatch(patterns: seq<Pattern>, literals: seq<Literal>, t: StateIndex, w: Word)
    requires InEnds(patterns, literals, t, w)
    ensures w in Matches(patterns, literals, t)
  {
    hide Concat, Star, Loops, InEnds;
    StarAbsorbs(Loops(patterns), Ends(patterns, literals, t));
  }

  lemma SeparatorSound(nfa: Automaton, meaning: Meaning, s: StateIndex, f: StateIndex, t: StateIndex)
    requires Sound(nfa, meaning) && 0 <= s < |nfa| && f < 0
    requires meaning(f) == (if f == t then iset{[]} else iset{})
    requires f == t ==> OneChar(SEPARATORS) <= meaning(s)
    ensures Sound(WithEdge(nfa, s, SEPARATORS, f), meaning)
  {
    hide Sound, WithEdge;
    forall u, v | u in OneChar(SEPARATORS) && v in meaning(f) ensures u + v in meaning(s) {
      assert u + [] == u;
    }
    SoundEdge(nfa, meaning, s, SEPARATORS, f);
  }

  // ----- the automaton of the patterns -----

  /** The states' meanings for the terminal `t`. */
  ghost predicate Means(meaning: Meaning, patterns: seq<Pattern>, literals: seq<Literal>, t: StateIndex) {
    && (forall s :: s < 0 ==> meaning(s) == if s == t then iset{[]} else iset{})
    && meaning(0) == Matches(patterns, literals, t)
  }

  lemma {:induction false} PatternsSound(patterns: seq<Pattern>, literals: seq<Literal>, n: nat, t: StateIndex)
      returns (meaning: Meaning)
    requires n <= |patterns| && TokensFit(patterns, literals) && t < 0
    ensures Sound(WithPatterns(START, patterns[..n]), meaning) && Means(meaning, patterns, literals, t)
  {
    hide Sound, Matches, Create, WithEdge, Means;
    if n == 0 {
      meaning := s => if s == t then iset{[]} else if s < 0 then iset{} else Matches(patterns, literals, t);
      StartSound(meaning);
      assert Means(meaning, patterns, literals, t) by { StartMeans(meaning, patterns, literals, t); }
    } else {
      assert patterns[..n][..n - 1] == patterns[..n - 1];
      var before, p := WithPatterns(START, patterns[..n - 1]), patterns[n - 1];
      var half := PatternsSound(patterns, literals, n - 1, t);
      meaning := PatternSound(before, half, patterns, literals, t, n - 1);
    }
  }

  lemma StartSound(meaning: Meaning)
    ensures Sound(START, meaning)
  {
  }

  lemma StartMeans(meaning: Meaning, patterns: seq<Pattern>, literals: seq<Literal>, t: StateIndex)
    requires forall s :: meaning(s) == if s == t then iset{[]} else if s < 0 then iset{} else Matches(patterns, literals, t)
    requires t < 0
    ensures Means(meaning, patterns, literals, t)
  {
  }

  lemma PatternSound(nfa: Automaton, meaning: Meaning, patterns: seq<Pattern>, literals: seq<Literal>, t: StateIndex,
      i: nat)
    returns (more: Meaning)
    requires i < |patterns| && patterns[i].token < MAX_TOKENS && |nfa| > 0
    requires Sound(nfa, meaning) && Means(meaning, patterns, literals, t)
    ensures Sound(WithPattern(nfa, patterns[i]), more) && Means(more, patterns, literals, t)
  {
    hide Sound, Create, WithEdge, Matches, Loop, Core;
    var p := patterns[i];
    var f := Flagged(Terminal(p.token));
    var tail := if f == t then OneChar(SEPARATORS) else iset{};
    var one := SoundState(nfa, meaning, tail);
    SeparatorSound(WithState(nfa), one, |nfa|, f, t);
    SeparatorGrows(nfa, p.token);
    PatternAbsorbs(patterns, literals, t, i);
    more := CreateSound(WithSeparator(nfa, p.token), p.node, 0, |nfa|, one);
  }

  lemma PatternAbsorbs(patterns: seq<Pattern>, literals: seq<Literal>, t: StateIndex, i: nat)
    requires i < |patterns|
    ensures var m, p := Matches(patterns, literals, t), patterns[i];
            && Absorbs(Loop(p.node), m, m)
            && Absorbs(Core(p.node), if Flagged(Terminal(p.token)) == t then OneChar(SEPARATORS) else iset{}, m)
  {
    hide Concat, Star, Loop, Core;
    var m, p := Matches(patterns, literals, t), patterns[i];
    StarAbsorbs(Loops(patterns), Ends(patterns, literals, t));
    forall u, v | u in Loop(p.node) && v in m ensures u + v in m {
      assert u in Loops(patterns);
    }
    forall u, v | u in Core(p.node) && Flagged(Terminal(p.token)) == t && v in OneChar(SEPARATORS) ensures u + v in m {
      assert (u + v)[..|u + v| - 1] == u && (u + v)[|u + v| - 1] == v[0];
      assert InTexts(patterns, literals, t, u);
      EndsMatch(patterns, literals, t, u + v);
    }
  }


  lemma {:induction false} WalkPrepends(nfa: Automaton, meaning: Meaning, s: StateIndex, moves: seq<Move>, v: Word)
    requires Explains(nfa, meaning) && Walk(nfa, s, moves) && v in meaning(End(s, moves))
    ensures Label(moves) + v in meaning(s)
    decreases |moves|
  {
    if moves == [] {
      assert [] + v == v;
    } else {
      WalkPrepends(nfa, meaning, moves[0].to, moves[1..], v);
      assert Label(moves) + v == Read(moves[0]) + (Label(moves[1..]) + v);
      assert [] + (Label(moves[1..]) + v) == Label(moves[1..]) + v;
    }
  }

  lemma PathPrepends(nfa: Automaton, meaning: Meaning, u: Word, s: StateIndex, v: Word)
    requires Sound(nfa, meaning) && Path(nfa, 0, u, s) && v in meaning(s)
    ensures u + v in meaning(0)
  {
    var moves :| Walk(nfa, 0, moves) && Label(moves) == u && End(0, moves) == s;
    WalkPrepends(nfa, meaning, 0, moves, v);
  }

  /** The patterns alone accept words of their rules only. */
  lemma BaseSound(patterns: seq<Pattern>, literals: seq<Literal>, t: StateIndex, w: Word)
    requires TokensFit(patterns, literals) && t < 0 && Path(Base(patterns), 0, w, t)
    ensures w in Matches(patterns, literals, t)
  {
    hide Sound, Path, Matches;
    assert patterns[..|patterns|] == patterns;
    var meaning := PatternsSound(patterns, literals, |patterns|, t);
    PathPrepends(Base(patterns), meaning, w, t, []);
    assert w + [] == w;
  }

  /** At the initial state every literal goes on, behind any loops. */
  lemma StartGoesOn(patterns: seq<Pattern>, literals: seq<Literal>, i: nat, t: StateIndex, v: Word)
    requires TokensFit(patterns, literals) && i < |literals| && Rest(literals[i], 0, t, v)
    ensures GoesOn(patterns, literals, t, 0, v)
  {
    hide Sound, Path, Matches;
    assert patterns[..|patterns|] == patterns;
    var meaning := PatternsSound(patterns, literals, |patterns|, t);
    assert literals[i].text[0..] == literals[i].text;
    assert InEnds(patterns, literals, t, v) by { RestEnds(patterns, literals, i, t, v); }
    EndsMatch(patterns, literals, t, v);
    forall u | Path(Base(patterns), 0, u, 0) ensures u + v in Matches(patterns, literals, t) {
      PathPrepends(Base(patterns), meaning, u, 0, v);
    }
  }

  lemma RestEnds(patterns: seq<Pattern>, literals: seq<Literal>, i: nat, t: StateIndex, v: Word)
    requires i < |literals| && Rest(literals[i], 0, t, v)
    ensures InEnds(patterns, literals, t, v)
  {
    var l := literals[i];
    assert l.text[0..] == l.text;
    if !l.separator {
      assert InTexts(patterns, literals, t, v[..|v| - 1]);
    }
  }

  // ----- where a state hangs -----

  /** The states added with literals, each with the state of a pattern it hangs from and the text
      between. A state that was added but not yet linked has no root. */
  type Roots = map<StateIndex, (StateIndex, Word)>

  ghost predicate Rooted(base: Automaton, roots: Roots, s: StateIndex) {
    0 <= s < |base| || s in roots
  }

  ghost function Root(base: Automaton, roots: Roots, s: StateIndex): (StateIndex, Word)
    requires Rooted(base, roots, s)
  {
    if 0 <= s < |base| then (s, []) else roots[s]
  }

  /** No edge leads from a rooted state to another one but inside the patterns, or along the text. */
  ghost predicate EdgeOk(base: Automaton, roots: Roots, s: StateIndex, c: Char, t: StateIndex)
    requires Rooted(base, roots, s)
  {
    && Rooted(base, roots, t)
    && if t < |base| then s < |base| && CharEdge(base, s, c, t)
       else Root(base, roots, t) == (Root(base, roots, s).0, Root(base, roots, s).1 + [c])
  }

  ghost predicate RootsOk(nfa: Automaton, roots: Roots, patterns: seq<Pattern>, literals: seq<Literal>, t: StateIndex) {
    var base := Base(patterns);
    && |base| <= |nfa|
    && (forall s :: s in roots ==> |base| <= s < |nfa| && 0 <= roots[s].0 < |base|)
    && (forall s, c: Char, x :: Rooted(base, roots, s) && CharEdge(nfa, s, c, x) && x >= 0 ==> EdgeOk(base, roots, s, c, x))
    && (forall s, x :: Rooted(base, roots, s) && EpsilonEdge(nfa, s, x) ==> EpsilonEdge(base, s, x) && x < |base|)
    && forall s, c: Char :: Rooted(base, roots, s) && CharEdge(nfa, s, c, t) ==>
         GoesOn(patterns, literals, t, Root(base, roots, s).0, Root(base, roots, s).1 + [c])
  }

  /** A word that leads to a rooted state leads to its root first. */
  lemma {:induction false} WalkRooted(nfa: Automaton, roots: Roots, patterns: seq<Pattern>, literals: seq<Literal>,
      t: StateIndex, moves: seq<Move>) returns (u: Word)
    requires RootsOk(nfa, roots, patterns, literals, t) && Walk(nfa, 0, moves) && End(0, moves) >= 0
    ensures var base, s := Base(patterns), End(0, moves);
            && Rooted(base, roots, s) && Path(base, 0, u, Root(base, roots, s).0)
            && Label(moves) == u + Root(base, roots, s).1
    decreases |moves|
  {
    hide Path, CharEdge, EpsilonEdge, GoesOn, WithPatterns;
    var base := Base(patterns);
    if moves == [] {
      PathEmpty(base, 0);
      u := [];
    } else {
      WalkSplit(nfa, 0, moves);
      var front, last := moves[..|moves| - 1], moves[|moves| - 1];
      var s := End(0, front);
      assert s >= 0 by { MovesFrom(nfa, s, last); }
      u := WalkRooted(nfa, roots, patterns, literals, t, front);
      if last.OnEpsilon? {
        MovesFrom(base, s, last);
        PathMove(base, s, last);
        PathJoin(base, 0, u, s, [], last.to);
        assert u + [] == u && Label(front) + [] == Label(front);
      } else if last.to < |base| {
        PathMove(base, s, last);
        PathJoin(base, 0, u, s, [last.c], last.to);
        assert u + [] + [last.c] == u + [last.c] && u + [last.c] + [] == u + [last.c];
        u := u + [last.c];
      } else {
        assert u + Root(base, roots, s).1 + [last.c] == u + (Root(base, roots, s).1 + [last.c]);
      }
    }
  }

  lemma MovesFrom(nfa: Automaton, s: StateIndex, m: Move)
    requires CanMove(nfa, s, m)
    ensures 0 <= s < |nfa|
  {
  }

  lemma PathRooted(nfa: Automaton, roots: Roots, patterns: seq<Pattern>, literals: seq<Literal>, t: StateIndex, w: Word)
    requires RootsOk(nfa, roots, patterns, literals, t) && TokensFit(patterns, literals)
    requires t < 0 && Path(nfa, 0, w, t)
    ensures w in Matches(patterns, literals, t)
  {
    hide Matches, CharEdge, EpsilonEdge, WithPatterns, RootsOk, GoesOn;
    var moves :| Walk(nfa, 0, moves) && Label(moves) == w && End(0, moves) == t;
    WalkSplit(nfa, 0, moves);
    var front, last := moves[..|moves| - 1], moves[|moves| - 1];
    MovesFrom(nfa, End(0, front), last);
    var u := WalkRooted(nfa, roots, patterns, literals, t, front);
    LastMove(nfa, roots, patterns, literals, t, u, End(0, front), last);
    var v := Root(Base(patterns), roots, End(0, front)).1;
    assert u + v + Read(last) == u + (v + Read(last));
  }

  lemma LastMove(nfa: Automaton, roots: Roots, patterns: seq<Pattern>, literals: seq<Literal>, t: StateIndex, u: Word,
      s: StateIndex, m: Move)
    requires RootsOk(nfa, roots, patterns, literals, t) && TokensFit(patterns, literals) && t < 0 && m.to == t
    requires var base := Base(patterns);
             Rooted(base, roots, s) && Path(base, 0, u, Root(base, roots, s).0) && CanMove(nfa, s, m)
    ensures u + (Root(Base(patterns), roots, s).1 + Read(m)) in Matches(patterns, literals, t)
  {
    hide Matches, Path, CharEdge, EpsilonEdge, WithPatterns;
    var base := Base(patterns);
    if m.OnEpsilon? {
      MovesFrom(base, s, m);
      PathMove(base, s, m);
      PathJoin(base, 0, u, s, [], t);
      BaseSound(patterns, literals, t, u + []);
      assert u + ([] + []) == u + [];
    }
  }

  // ----- adding a literal -----

  /** The walk through a literal's text: `s` was reached after `k` characters, and hangs from a state of
      the patterns that the literal shares after `i` characters. */
  ghost predicate At(base: Automaton, roots: Roots, text: Word, s: StateIndex, k: nat, i: nat) {
    && i <= k <= |text| && Rooted(base, roots, s)
    && Shares(base, text, i, Root(base, roots, s).0) && Root(base, roots, s).1 == text[i..k]
  }

  /** The final state of a literal: a terminal, or a state without a root that looks at the separator. */
  ghost predicate FinalOk(nfa: Automaton, base: Automaton, roots: Roots, l: Literal, f: StateIndex) {
    if l.separator then f == Terminal(l.token)
    else && |base| <= f < |nfa| && f !in roots
         && (forall c: Char, x :: CharEdge(nfa, f, c, x) ==> c in SEPARATORS && x == Flagged(Terminal(l.token)))
         && forall x :: !EpsilonEdge(nfa, f, x)
  }

  lemma RestKnown(patterns: seq<Pattern>, literals: seq<Literal>, roots: Roots, j: nat, s: StateIndex, k: nat, i: nat,
      t: StateIndex, v: Word)
    requires Unmixed(patterns, literals) && j < |literals| && At(Base(patterns), roots, literals[j].text, s, k, i)
    requires k < |literals[j].text| && Rest(literals[j], i, t, v)
    ensures GoesOn(patterns, literals, t, Root(Base(patterns), roots, s).0, v)
  {
    hide GoesOn, Shares;
  }

  /** The last character, to a terminal. */
  lemma LastToTerminal(nfa: Automaton, roots: Roots, patterns: seq<Pattern>, literals: seq<Literal>, t: StateIndex,
      j: nat, s: StateIndex, k: nat, i: nat)
    requires RootsOk(nfa, roots, patterns, literals, t) && Unmixed(patterns, literals) && TokensFit(patterns, literals)
    requires j < |literals| && literals[j].separator && k + 1 == |literals[j].text| && 0 <= s < |nfa|
    requires At(Base(patterns), roots, literals[j].text, s, k, i)
    ensures RootsOk(WithEdge(nfa, s, {literals[j].text[k]}, Terminal(literals[j].token)), roots, patterns, literals, t)
  {
    hide GoesOn, Shares, CharEdge, EpsilonEdge, WithEdge, WithPatterns, Unmixed, EdgeOk;
    var base, l := Base(patterns), literals[j];
    var c, f := l.text[k], Terminal(l.token);
    var r := WithEdge(nfa, s, {c}, f);
    assert l.text[i..k] + [c] == l.text[i..];
    if f == t {
      RestKnown(patterns, literals, roots, j, s, k, i, t, l.text[i..]);
    }
    forall x, d: Char, y | CharEdge(r, x, d, y) ensures CharEdge(nfa, x, d, y) || (x == s && d == c && y == f) {
      EdgeFrom(nfa, s, {c}, f, x, d, y);
    }
    EdgeEpsilons(nfa, s, {c}, f);
  }

  lemma EdgeEpsilons(nfa: Automaton, s: StateIndex, chars: set<Char>, t: StateIndex)
    requires 0 <= s < |nfa|
    ensures |WithEdge(nfa, s, chars, t)| == |nfa|
    ensures forall x, y :: EpsilonEdge(WithEdge(nfa, s, chars, t), x, y) <==> EpsilonEdge(nfa, x, y)
  {
  }

  /** A state that hangs from `s` by one more character. */
  ghost function Hung(base: Automaton, roots: Roots, s: StateIndex, c: Char, f: StateIndex): Roots
    requires Rooted(base, roots, s)
  {
    roots[f := (Root(base, roots, s).0, Root(base, roots, s).1 + [c])]
  }

  /** Linking a state without a root. */
  lemma LinkRooted(nfa: Automaton, roots: Roots, patterns: seq<Pattern>, literals: seq<Literal>, t: StateIndex,
      s: StateIndex, c: Char, f: StateIndex)
    requires RootsOk(nfa, roots, patterns, literals, t) && t < 0 && Rooted(Base(patterns), roots, s)
    requires |Base(patterns)| <= f < |nfa| && f !in roots
    requires forall d: Char, x :: CharEdge(nfa, f, d, x) ==> x < 0
    requires forall x :: !EpsilonEdge(nfa, f, x)
    requires forall d: Char :: CharEdge(nfa, f, d, t) ==>
               GoesOn(patterns, literals, t, Root(Base(patterns), roots, s).0, Root(Base(patterns), roots, s).1 + [c] + [d])
    ensures RootsOk(WithEdge(nfa, s, {c}, f), Hung(Base(patterns), roots, s, c, f), patterns, literals, t)
  {
    hide GoesOn, CharEdge, EpsilonEdge, WithEdge, WithPatterns;
    var base := Base(patterns);
    var r, more := WithEdge(nfa, s, {c}, f), Hung(base, roots, s, c, f);
    assert s < |nfa|;
    EdgeEpsilons(nfa, s, {c}, f);
    assert forall x :: Rooted(base, roots, x) ==> Rooted(base, more, x) && Root(base, more, x) == Root(base, roots, x);
    forall x, d: Char, y | Rooted(base, more, x) && CharEdge(r, x, d, y) && y >= 0 ensures EdgeOk(base, more, x, d, y) {
      EdgeFrom(nfa, s, {c}, f, x, d, y);
      if CharEdge(nfa, x, d, y) {
        assert x != f;
        assert EdgeOk(base, roots, x, d, y);
      }
    }
    forall x, d: Char | Rooted(base, more, x) && CharEdge(r, x, d, t)
      ensures GoesOn(patterns, literals, t, Root(base, more, x).0, Root(base, more, x).1 + [d])
    {
      EdgeFrom(nfa, s, {c}, f, x, d, t);
    }
  }

  lemma NewState(nfa: Automaton, roots: Roots, patterns: seq<Pattern>, literals: seq<Literal>, t: StateIndex)
    requires RootsOk(nfa, roots, patterns, literals, t)
    ensures RootsOk(WithState(nfa), roots, patterns, literals, t)
    ensures forall c: Char, x :: !CharEdge(WithState(nfa), |nfa|, c, x)
    ensures forall x :: !EpsilonEdge(WithState(nfa), |nfa|, x)
  {
    hide GoesOn, WithPatterns, EdgeOk;
    assert forall s, c: Char, x :: CharEdge(WithState(nfa), s, c, x) ==> CharEdge(nfa, s, c, x);
    assert forall s, x :: EpsilonEdge(WithState(nfa), s, x) ==> EpsilonEdge(nfa, s, x);
  }

  /** The last character, to the state that looks at the separator. */
  lemma LastToPeek(nfa: Automaton, roots: Roots, patterns: seq<Pattern>, literals: seq<Literal>, t: StateIndex,
      j: nat, s: StateIndex, k: nat, i: nat, f: StateIndex)
    requires RootsOk(nfa, roots, patterns, literals, t) && Unmixed(patterns, literals) && t < 0
    requires j < |literals| && !literals[j].separator && k + 1 == |literals[j].text|
    requires At(Base(patterns), roots, literals[j].text, s, k, i) && FinalOk(nfa, Base(patterns), roots, literals[j], f)
    requires literals[j].token < MAX_TOKENS
    ensures RootsOk(WithEdge(nfa, s, {literals[j].text[k]}, f), Hung(Base(patterns), roots, s, literals[j].text[k], f),
                    patterns, literals, t)
  {
    hide GoesOn, Shares, CharEdge, EpsilonEdge, WithEdge, WithPatterns, Unmixed, RootsOk;
    var l := literals[j];
    var c := l.text[k];
    assert l.text[i..k] + [c] == l.text[i..];
    forall d: Char | CharEdge(nfa, f, d, t)
      ensures GoesOn(patterns, literals, t, Root(Base(patterns), roots, s).0, Root(Base(patterns), roots, s).1 + [c] + [d])
    {
      var v := l.text[i..] + [d];
      assert v[..|v| - 1] == l.text[i..];
      RestKnown(patterns, literals, roots, j, s, k, i, t, v);
    }
    LinkRooted(nfa, roots, patterns, literals, t, s, c, f);
  }

  lemma FinalKept(nfa: Automaton, base: Automaton, roots: Roots, l: Literal, f: StateIndex, s: StateIndex, c: Char)
    requires FinalOk(nfa, base, roots, l, f) && Rooted(base, roots, s) && 0 <= s < |nfa| && |base| <= |nfa|
    ensures FinalOk(WithEdge(WithState(nfa), s, {c}, |nfa|), base, Hung(base, roots, s, c, |nfa|), l, f)
  {
    hide CharEdge, EpsilonEdge, WithEdge;
    if !l.separator {
      var q := |nfa|;
      var r := WithEdge(WithState(nfa), s, {c}, q);
      assert f != s;
      forall d: Char, x | CharEdge(r, f, d, x) ensures CharEdge(nfa, f, d, x) {
        EdgeFrom(WithState(nfa), s, {c}, q, f, d, x);
        EdgeFrom(nfa, s, {c}, q, f, d, x);
      }
      EdgeEpsilons(WithState(nfa), s, {c}, q);
      StateEpsilons(nfa);
    }
  }

  lemma StateEpsilons(nfa: Automaton)
    ensures forall x, y :: EpsilonEdge(WithState(nfa), x, y) <==> EpsilonEdge(nfa, x, y)
  {
  }

  lemma SharesMore(base: Automaton, text: Word, k: nat, p: StateIndex, s: StateIndex)
    requires k < |text| && Shares(base, text, k, p) && SharedEdge(base, p, text[k], s)
    ensures Shares(base, text, k + 1, s)
  {
    hide SharedEdge;
  }

  /** Adding a literal keeps every state rooted, whatever states it shares. */
  lemma {:induction false} LiteralRooted(nfa: Automaton, roots: Roots, patterns: seq<Pattern>, literals: seq<Literal>,
      t: StateIndex, j: nat, s: StateIndex, k: nat, i: nat, f: StateIndex, r: Automaton) returns (more: Roots)
    requires RootsOk(nfa, roots, patterns, literals, t) && Unmixed(patterns, literals) && TokensFit(patterns, literals)
    requires t < 0 && j < |literals| && k < |literals[j].text| && 0 <= s < |nfa|
    requires At(Base(patterns), roots, literals[j].text, s, k, i) && FinalOk(nfa, Base(patterns), roots, literals[j], f)
    requires LiteralAdded(nfa, s, literals[j].text[k..], f, r)
    ensures RootsOk(r, more, patterns, literals, t)
    decreases |literals[j].text| - k
  {
    hide RootsOk, Unmixed, FinalOk, WithEdge, WithPatterns, Shares, CharEdge, At;
    var base, text := Base(patterns), literals[j].text;
    var rest := text[k..];
    var c := rest[0];
    assert rest[1..] == text[k + 1..] && c == text[k];
    assert Rooted(base, roots, s) by { AtRooted(base, roots, text, s, k, i); }
    if |rest| == 1 {
      if literals[j].separator {
        assert f == Terminal(literals[j].token) by { FinalIs(nfa, base, roots, literals[j], f); }
        LastToTerminal(nfa, roots, patterns, literals, t, j, s, k, i);
        more := roots;
      } else {
        LastToPeek(nfa, roots, patterns, literals, t, j, s, k, i, f);
        more := Hung(base, roots, s, c, f);
      }
    } else if NoNonTerminalEdge(nfa, s, c) {
      var grown := NewLink(nfa, roots, patterns, literals, t, j, s, k, i, f);
      more := LiteralRooted(WithEdge(WithState(nfa), s, {c}, |nfa|), grown, patterns, literals, t, j, |nfa|, k + 1, i, f, r);
    } else {
      var q :| 0 <= q < |nfa| && CharEdge(nfa, s, c, q) && LiteralAdded(nfa, q, rest[1..], f, r);
      var i' := SharedLink(nfa, roots, patterns, literals, t, j, s, k, i, q);
      more := LiteralRooted(nfa, roots, patterns, literals, t, j, q, k + 1, i', f, r);
    }
  }

  lemma AtRooted(base: Automaton, roots: Roots, text: Word, s: StateIndex, k: nat, i: nat)
    requires At(base, roots, text, s, k, i)
    ensures Rooted(base, roots, s)
  {
  }

  lemma FinalIs(nfa: Automaton, base: Automaton, roots: Roots, l: Literal, f: StateIndex)
    requires FinalOk(nfa, base, roots, l, f) && l.separator
    ensures f == Terminal(l.token)
  {
  }

  lemma NewLink(nfa: Automaton, roots: Roots, patterns: seq<Pattern>, literals: seq<Literal>, t: StateIndex, j: nat,
      s: StateIndex, k: nat, i: nat, f: StateIndex) returns (grown: Roots)
    requires RootsOk(nfa, roots, patterns, literals, t) && t < 0 && j < |literals| && k < |literals[j].text| && 0 <= s < |nfa|
    requires At(Base(patterns), roots, literals[j].text, s, k, i) && FinalOk(nfa, Base(patterns), roots, literals[j], f)
    ensures var r := WithEdge(WithState(nfa), s, {literals[j].text[k]}, |nfa|);
            && RootsOk(r, grown, patterns, literals, t) && At(Base(patterns), grown, literals[j].text, |nfa|, k + 1, i)
            && FinalOk(r, Base(patterns), grown, literals[j], f) && |nfa| < |r|
  {
    hide GoesOn, FinalOk, WithEdge, WithPatterns, Shares, CharEdge, EpsilonEdge, EdgeOk;
    var base, text, q := Base(patterns), literals[j].text, |nfa|;
    NewState(nfa, roots, patterns, literals, t);
    LinkRooted(WithState(nfa), roots, patterns, literals, t, s, text[k], q);
    grown := Hung(base, roots, s, text[k], q);
    assert text[i..k] + [text[k]] == text[i..k + 1];
    FinalKept(nfa, base, roots, literals[j], f, s, text[k]);
    EdgeEpsilons(WithState(nfa), s, {text[k]}, q);
  }

  lemma SharedLink(nfa: Automaton, roots: Roots, patterns: seq<Pattern>, literals: seq<Literal>, t: StateIndex, j: nat,
      s: StateIndex, k: nat, i: nat, q: StateIndex) returns (i': nat)
    requires RootsOk(nfa, roots, patterns, literals, t) && j < |literals| && k < |literals[j].text|
    requires At(Base(patterns), roots, literals[j].text, s, k, i) && q >= 0 && CharEdge(nfa, s, literals[j].text[k], q)
    ensures At(Base(patterns), roots, literals[j].text, q, k + 1, i')
  {
    hide GoesOn, WithPatterns, Shares, CharEdge, EpsilonEdge;
    var base, text := Base(patterns), literals[j].text;
    assert EdgeOk(base, roots, s, text[k], q);
    if q < |base| {
      assert |text[i..k]| == 0;
      SharesMore(base, text, k, s, q);
      i' := k + 1;
      assert text[k + 1..k + 1] == [];
    } else {
      i' := i;
      assert text[i..k] + [text[k]] == text[i..k + 1];
    }
  }

  // ----- the whole automaton -----

  lemma BaseRooted(patterns: seq<Pattern>, literals: seq<Literal>, t: StateIndex)
    requires TokensFit(patterns, literals) && t < 0
    ensures RootsOk(Base(patterns), map[], patterns, literals, t)
  {
    hide WithPatterns, Path, Matches;
    var base := Base(patterns);
    BaseInside(patterns, literals);
    forall s, c: Char | CharEdge(base, s, c, t) ensures GoesOn(patterns, literals, t, s, [] + [c]) {
      forall u | Path(base, 0, u, s) ensures u + ([] + [c]) in Matches(patterns, literals, t) {
        PathMove(base, s, OnChar(c, t));
        PathJoin(base, 0, u, s, [c], t);
        BaseSound(patterns, literals, t, u + [c]);
        assert [] + [c] == [c];
      }
    }
  }

  lemma BaseInside(patterns: seq<Pattern>, literals: seq<Literal>)
    requires TokensFit(patterns, literals)
    ensures EdgesInside(Base(patterns))
  {
    assert patterns[..|patterns|] == patterns;
    PatternsInside(patterns, literals, |patterns|);
  }

  lemma {:induction false} PatternsInside(patterns: seq<Pattern>, literals: seq<Literal>, n: nat)
    requires TokensFit(patterns, literals) && n <= |patterns|
    ensures EdgesInside(WithPatterns(START, patterns[..n]))
  {
    hide EdgesInside, Create, WithEdge;
    StartInside();
    if n > 0 {
      assert patterns[..n][..n - 1] == patterns[..n - 1];
      PatternsInside(patterns, literals, n - 1);
      var before, p := WithPatterns(START, patterns[..n - 1]), patterns[n - 1];
      InsideSeparator(before, p.token);
      SeparatorGrows(before, p.token);
      InsideCreate(WithSeparator(before, p.token), p.node, 0, |before|);
    }
  }

  lemma TokenRooted(nfa: Automaton, roots: Roots, patterns: seq<Pattern>, literals: seq<Literal>, t: StateIndex, j: nat,
      r: Automaton) returns (more: Roots)
    requires RootsOk(nfa, roots, patterns, literals, t) && Unmixed(patterns, literals) && TokensFit(patterns, literals)
    requires t < 0 && j < |literals| && |nfa| > 0 && TokenAdded(nfa, literals[j], r)
    ensures RootsOk(r, more, patterns, literals, t)
  {
    hide RootsOk, Unmixed, WithEdge, WithPatterns, CharEdge, EpsilonEdge, LiteralAdded;
    var l, base := literals[j], Base(patterns);
    assert l.text[0..] == l.text && l.text[0..0] == [];
    if l.separator {
      if l.text == [] {
        NothingAdded(nfa, Terminal(l.token), r);
        more := roots;
      } else {
        more := LiteralRooted(nfa, roots, patterns, literals, t, j, 0, 0, 0, Terminal(l.token), r);
      }
    } else {
      PeekRooted(nfa, roots, patterns, literals, t, l);
      if l.text == [] {
        NothingAdded(WithSeparator(nfa, l.token), |nfa|, r);
        more := roots;
      } else {
        more := LiteralRooted(WithSeparator(nfa, l.token), roots, patterns, literals, t, j, 0, 0, 0, |nfa|, r);
      }
    }
  }

  lemma NothingAdded(nfa: Automaton, f: StateIndex, r: Automaton)
    requires |nfa| > 0 && LiteralAdded(nfa, 0, [], f, r)
    ensures r == nfa
  {
  }

  lemma PeekRooted(nfa: Automaton, roots: Roots, patterns: seq<Pattern>, literals: seq<Literal>, t: StateIndex,
      l: Literal)
    requires RootsOk(nfa, roots, patterns, literals, t) && !l.separator
    ensures var r := WithSeparator(nfa, l.token);
            RootsOk(r, roots, patterns, literals, t) && |r| == |nfa| + 1 && FinalOk(r, Base(patterns), roots, l, |nfa|)
  {
    hide GoesOn, WithPatterns, CharEdge, EpsilonEdge, WithEdge, EdgeOk;
    var f, r := Flagged(Terminal(l.token)), WithSeparator(nfa, l.token);
    NewState(nfa, roots, patterns, literals, t);
    EdgeEpsilons(WithState(nfa), |nfa|, SEPARATORS, f);
    forall x, d: Char, y | CharEdge(r, x, d, y)
      ensures CharEdge(WithState(nfa), x, d, y) || (x == |nfa| && y == f && d in SEPARATORS)
    {
      EdgeFrom(WithState(nfa), |nfa|, SEPARATORS, f, x, d, y);
    }
  }

  lemma {:induction false} BuiltRooted(patterns: seq<Pattern>, literals: seq<Literal>, n: nat, nfa: Automaton,
      t: StateIndex) returns (roots: Roots)
    requires n <= |literals| && Built(patterns, literals, n, nfa) && Unmixed(patterns, literals)
    requires TokensFit(patterns, literals) && t < 0
    ensures RootsOk(nfa, roots, patterns, literals, t)
  {
    hide RootsOk, Unmixed, TokenAdded, WithPatterns;
    if n == 0 {
      BaseRooted(patterns, literals, t);
      roots := map[];
    } else {
      var before: Automaton :| |before| > 0 && Built(patterns, literals, n - 1, before) && TokenAdded(before, literals[n - 1], nfa);
      var half := BuiltRooted(patterns, literals, n - 1, before, t);
      roots := TokenRooted(before, half, patterns, literals, t, n - 1, nfa);
    }
  }

  /** If no word can be mistaken for a literal, the lexer's automaton accepts a word at a terminal exactly
      when it is one of the terminal's words, whichever states the literals share. */
  lemma LexerIsExact(patterns: seq<Pattern>, literals: seq<Literal>, nfa: Automaton, t: StateIndex, w: Word)
    requires IsLexer(patterns, literals, nfa) && Unmixed(patterns, literals) && TokensFit(patterns, literals) && t < 0
    ensures Path(nfa, 0, w, t) <==> w in Matches(patterns, literals, t)
  {
    hide Matches, Built, Unmixed, TokensFit, RootsOk, Path;
    if Path(nfa, 0, w, t) {
      var roots := BuiltRooted(patterns, literals, |literals|, nfa, t);
      PathRooted(nfa, roots, patterns, literals, t, w);
    }
    if w in Matches(patterns, literals, t) {
      LexerContains(patterns, literals, nfa, t, w);
    }
  }
}
