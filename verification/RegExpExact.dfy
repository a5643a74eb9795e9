/** Which language the translation of a regular expression accepts: always
    `Translated(e)`, which contains the expression's language, and equals it when no
    alternative, option or repetition has a star-leading operand. */
module RegExpExact {
  import opened NFA
  import opened RegExp

  /** No edge leads to a state that does not exist yet. */
  ghost predicate EdgesInside(nfa: Automaton) {
    && (forall s, c: Char, t :: CharEdge(nfa, s, c, t) ==> t < |nfa|)
    && forall s, t :: EpsilonEdge(nfa, s, t) ==> t < |nfa|
  }

  ghost predicate NoEdgesFrom(nfa: Automaton, s: StateIndex) {
    && (forall c: Char, t :: !CharEdge(nfa, s, c, t))
    && forall t :: !EpsilonEdge(nfa, s, t)
  }

  ghost predicate Sound(nfa: Automaton, meaning: Meaning) {
    EdgesInside(nfa) && Explains(nfa, meaning)
  }

  lemma SoundState(nfa: Automaton, meaning: Meaning, a: Language) returns (more: Meaning)
    requires Sound(nfa, meaning)
    ensures Sound(WithState(nfa), more) && Agree(|nfa|, meaning, more) && more(|nfa|) == a
  {
    var n := |nfa|;
    more := s => if s == n then a else meaning(s);
    assert forall s, c: Char, t :: CharEdge(WithState(nfa), s, c, t) ==> CharEdge(nfa, s, c, t);
    assert forall s, t :: EpsilonEdge(WithState(nfa), s, t) ==> EpsilonEdge(nfa, s, t);
  }

  lemma SoundEdge(nfa: Automaton, meaning: Meaning, s: StateIndex, chars: set<Char>, t: StateIndex)
    requires Sound(nfa, meaning) && 0 <= s < |nfa| && t < |nfa|
    requires Absorbs(OneChar(chars), meaning(t), meaning(s))
    ensures Sound(WithEdge(nfa, s, chars, t), meaning)
  {
    var more := WithEdge(nfa, s, chars, t);
    forall x, c: Char, y | CharEdge(more, x, c, y) ensures CharEdge(nfa, x, c, y) || (x == s && y == t && c in chars) {
    }
    forall x, y | EpsilonEdge(more, x, y) ensures EpsilonEdge(nfa, x, y) {
    }
    forall c: Char, w | c in chars && w in meaning(t) ensures [c] + w in meaning(s) {
      assert [c] in OneChar(chars);
    }
  }

  lemma SoundEpsilon(nfa: Automaton, meaning: Meaning, s: StateIndex, t: StateIndex)
    requires Sound(nfa, meaning) && 0 <= s < |nfa| && t < |nfa| && meaning(t) <= meaning(s)
    ensures Sound(WithEpsilonEdge(nfa, s, t), meaning)
  {
    var more := WithEpsilonEdge(nfa, s, t);
    forall x, c: Char, y | CharEdge(more, x, c, y) ensures CharEdge(nfa, x, c, y) {
    }
    forall x, y | EpsilonEdge(more, x, y) ensures EpsilonEdge(nfa, x, y) || (x == s && y == t) {
    }
  }

  lemma EmptyAbsorbs(a: Language, from: Language, into: Language)
    requires [] in a && Absorbs(a, from, into)
    ensures from <= into
  {
    forall w | w in from ensures w in into {
      assert [] + w == w;
    }
  }

  lemma AbsorbsThen(a: Language, x: Language, y: Language)
    requires Absorbs(a, x, x)
    ensures Absorbs(a, Concat(x, y), Concat(x, y))
  {
    forall u, v | u in a && v in Concat(x, y) ensures u + v in Concat(x, y) {
      var k :| 0 <= k <= |v| && v[..k] in x && v[k..] in y;
      var w := u + v;
      assert w[..|u| + k] == u + v[..k] && w[|u| + k..] == v[k..];
    }
  }

  lemma AbsorbsInto(a: Language, b: Language, y: Language)
    requires a <= b
    ensures Absorbs(a, y, Concat(b, y))
  {
    forall u, v | u in a && v in y ensures u + v in Concat(b, y) {
      assert (u + v)[..|u|] == u && (u + v)[|u|..] == v;
    }
  }

  /** If the ends of the translation absorb its loop and core words, the meanings extend to its
      inner states. */
  lemma {:induction false} CreateSound(nfa: Automaton, e: Node, i: StateIndex, f: StateIndex, meaning: Meaning)
      returns (more: Meaning)
    requires Sound(nfa, meaning) && 0 <= i < |nfa| && f < |nfa|
    requires Absorbs(Loop(e), meaning(i), meaning(i)) && Absorbs(Core(e), meaning(f), meaning(i))
    ensures Sound(Create(nfa, e, i, f), more) && Agree(|nfa|, meaning, more)
    decreases e
  {
    hide Sound, WithEdge, WithEpsilonEdge, Concat, Star;
    match e
    case Lit(chars) =>
      SoundEdge(nfa, meaning, i, chars, f);
      more := meaning;
    case ZeroOrMore(child) =>
      more := CreateSound(nfa, child, i, i, meaning);
      EmptyAbsorbs(Core(e), meaning(f), meaning(i));
      SoundEpsilon(Create(nfa, child, i, i), more, i, f);
    case OneOrMore(child) =>
      more := RepeatSound(nfa, child, i, f, meaning);
    case Optional(child) =>
      more := CreateSound(nfa, child, i, f, meaning);
      EmptyAbsorbs(Core(e), meaning(f), meaning(i));
      SoundEpsilon(Create(nfa, child, i, f), more, i, f);
    case Alt(first, second) =>
      var half := CreateSound(nfa, first, i, f, meaning);
      more := CreateSound(Create(nfa, first, i, f), second, i, f, half);
    case Seq(first, second) =>
      more := SeqSound(nfa, first, second, i, f, meaning);
  }

  lemma {:induction false} RepeatSound(nfa: Automaton, child: Node, i: StateIndex, f: StateIndex, meaning: Meaning)
      returns (more: Meaning)
    requires Sound(nfa, meaning) && 0 <= i < |nfa| && f < |nfa|
    requires var e := OneOrMore(child);
             Absorbs(Loop(e), meaning(i), meaning(i)) && Absorbs(Core(e), meaning(f), meaning(i))
    ensures Sound(Create(nfa, OneOrMore(child), i, f), more) && Agree(|nfa|, meaning, more)
    decreases OneOrMore(child), 0
  {
    hide Sound, WithEdge, WithEpsilonEdge, Concat, Star;
    var m, again := |nfa|, Loop(child) + Core(child);
    var middle := Concat(Star(again), meaning(f));
    AbsorbsConcat(Core(child), Star(again), meaning(f), meaning(i));
    StarAbsorbs(again, meaning(f));
    var one := SoundState(nfa, meaning, middle);
    var two := CreateSound(WithState(nfa), child, i, m, one);
    more := CreateSound(Create(WithState(nfa), child, i, m), child, m, m, two);
    SoundEpsilon(Create(Create(WithState(nfa), child, i, m), child, m, m), more, m, f);
  }

  lemma {:induction false} SeqSound(nfa: Automaton, first: Node, second: Node, i: StateIndex, f: StateIndex,
      meaning: Meaning) returns (more: Meaning)
    requires Sound(nfa, meaning) && 0 <= i < |nfa| && f < |nfa|
    requires var e := Seq(first, second);
             Absorbs(Loop(e), meaning(i), meaning(i)) && Absorbs(Core(e), meaning(f), meaning(i))
    ensures Sound(Create(nfa, Seq(first, second), i, f), more) && Agree(|nfa|, meaning, more)
    decreases Seq(first, second), 0
  {
    hide Sound, WithEdge, WithEpsilonEdge, Concat, Star;
    var m := |nfa|;
    var middle := Concat(Translated(second), meaning(f));
    AbsorbsConcat(Core(first), Translated(second), meaning(f), meaning(i));
    StarAbsorbs(Loop(second), Core(second));
    AbsorbsThen(Loop(second), Translated(second), meaning(f));
    AbsorbsInto(Core(second), Translated(second), meaning(f));
    var one := SoundState(nfa, meaning, middle);
    var two := CreateSound(WithState(nfa), first, i, m, one);
    more := CreateSound(Create(WithState(nfa), first, i, m), second, m, f, two);
  }

  ghost function AnyWord(): Language {
    iset w: Word | |w| >= 0
  }

  /** From the final state only the empty word is left to read, from the initial state a word of
      the translated language. */
  ghost function StartMeaning(e: Node, i: StateIndex, f: StateIndex): Meaning {
    s => if s == f then iset{[]} else if s == i then Translated(e) else AnyWord()
  }

  lemma StartSound(nfa: Automaton, e: Node, i: StateIndex, f: StateIndex)
    requires EdgesInside(nfa) && NoEdgesFrom(nfa, i) && NoEdgesFrom(nfa, f) && i != f
    ensures Sound(nfa, StartMeaning(e, i, f))
    ensures Absorbs(Loop(e), Translated(e), Translated(e)) && Absorbs(Core(e), iset{[]}, Translated(e))
  {
    hide Translated, Loop, Core, Star, Concat;
    var meaning := StartMeaning(e, i, f);
    forall s, c: Char, t, w: Word | CharEdge(nfa, s, c, t) && w in meaning(t) ensures [c] + w in meaning(s) {
      assert meaning(s) == AnyWord();
    }
    forall s, t, w: Word | EpsilonEdge(nfa, s, t) && w in meaning(t) ensures w in meaning(s) {
      assert meaning(s) == AnyWord();
    }
    assert Absorbs(Loop(e), Translated(e), Translated(e)) && Core(e) <= Translated(e) by {
      TranslatedAbsorbs(e);
    }
    forall u, v | u in Core(e) && v in iset{[]} ensures u + v in Translated(e) {
      assert u + [] == u;
    }
  }

  lemma TranslatedAbsorbs(e: Node)
    ensures Absorbs(Loop(e), Translated(e), Translated(e)) && Core(e) <= Translated(e)
  {
    hide Loop, Core, Star, Concat;
    StarAbsorbs(Loop(e), Core(e));
  }

  /** Between a fresh initial state and a final state without outgoing edges, the translation of
      any expression accepts exactly the translated language. */
  lemma TranslationExact(nfa: Automaton, e: Node, i: StateIndex, f: StateIndex, w: Word)
    requires EdgesInside(nfa) && 0 <= i < |nfa| && f < |nfa| && i != f
    requires NoEdgesFrom(nfa, i) && NoEdgesFrom(nfa, f)
    ensures Path(Create(nfa, e, i, f), i, w, f) <==> w in Translated(e)
  {
    hide Create, Loop, Core, Star, Concat, EdgesInside, NoEdgesFrom, Explains;
    var r := Create(nfa, e, i, f);
    if Path(r, i, w, f) {
      StartSound(nfa, e, i, f);
      var more := CreateSound(nfa, e, i, f, StartMeaning(e, i, f));
      var moves :| Walk(r, i, moves) && Label(moves) == w && End(i, moves) == f;
      WalkMeans(r, more, i, moves);
    }
    if w in Translated(e) {
      CreateLabels(nfa, e, i, f);
      LabelsStar(r, i, Loop(e));
      LabelsConcat(r, i, Star(Loop(e)), i, Core(e), f);
    }
  }

  // ----- algebra of languages -----

  lemma ConcatAssociates(a: Language, b: Language, c: Language)
    ensures Concat(Concat(a, b), c) == Concat(a, Concat(b, c))
  {
    forall w | w in Concat(Concat(a, b), c) ensures w in Concat(a, Concat(b, c)) {
      var k :| 0 <= k <= |w| && w[..k] in Concat(a, b) && w[k..] in c;
      var u := w[..k];
      var j :| 0 <= j <= |u| && u[..j] in a && u[j..] in b;
      assert u[..j] == w[..j] && u[j..] == w[j..][..k - j] && w[j..][k - j..] == w[k..];
    }
    forall w | w in Concat(a, Concat(b, c)) ensures w in Concat(Concat(a, b), c) {
      var k :| 0 <= k <= |w| && w[..k] in a && w[k..] in Concat(b, c);
      var v := w[k..];
      var j :| 0 <= j <= |v| && v[..j] in b && v[j..] in c;
      assert w[..k + j][..k] == w[..k] && w[..k + j][k..] == v[..j] && w[k + j..] == v[j..];
    }
  }

  lemma ConcatMonotone(a: Language, a': Language, b: Language, b': Language)
    requires a <= a' && b <= b'
    ensures Concat(a, b) <= Concat(a', b')
  {
  }

  lemma {:induction false} StarMonotone(a: Language, b: Language, w: Word)
    requires a <= Star(b) && w in Star(a)
    ensures w in Star(b)
    decreases |w|
  {
    if w != [] {
      var k :| 0 < k <= |w| && w[..k] in a && InStar(a, w[k..]);
      StarMonotone(a, b, w[k..]);
      StarJoin(b, w[..k], w[k..]);
      assert w == w[..k] + w[k..];
    }
  }

  lemma {:induction false} StarJoin(a: Language, u: Word, v: Word)
    requires u in Star(a) && v in Star(a)
    ensures u + v in Star(a)
    decreases |u|
  {
    if u == [] {
      assert u + v == v;
    } else {
      var k :| 0 < k <= |u| && u[..k] in a && InStar(a, u[k..]);
      StarJoin(a, u[k..], v);
      StarPrepend(a, u[..k], u[k..] + v);
      assert u[..k] + (u[k..] + v) == u + v;
    }
  }

  lemma StarWithin(a: Language, b: Language)
    requires a <= Star(b)
    ensures Star(a) <= Star(b)
  {
    forall w | w in Star(a) ensures w in Star(b) {
      StarMonotone(a, b, w);
    }
  }

  lemma InOwnStar(a: Language)
    ensures a <= Star(a)
  {
    forall w | w in a ensures w in Star(a) {
      StarPrepend(a, w, []);
      assert w + [] == w;
    }
  }

  lemma StarConcatStar(a: Language, x: Language, y: Language)
    requires x <= Star(a) && y <= Star(a)
    ensures Concat(x, y) <= Star(a)
  {
    forall w | w in Concat(x, y) ensures w in Star(a) {
      var k :| 0 <= k <= |w| && w[..k] in x && w[k..] in y;
      StarJoin(a, w[..k], w[k..]);
      assert w == w[..k] + w[k..];
    }
  }

  lemma ConcatEpsilon(a: Language)
    ensures Concat(a, iset{[]}) == a && Concat(iset{[]}, a) == a
  {
    hide Concat;
    forall w ensures w in Concat(a, iset{[]}) <==> w in a {
      EpsilonAfter(a, w);
    }
    forall w ensures w in Concat(iset{[]}, a) <==> w in a {
      EpsilonBefore(a, w);
    }
  }

  lemma EpsilonAfter(a: Language, w: Word)
    ensures w in Concat(a, iset{[]}) <==> w in a
  {
    assert w[..|w|] == w && w[|w|..] == [];
    if w in Concat(a, iset{[]}) {
      var k :| 0 <= k <= |w| && w[..k] in a && w[k..] in iset{[]};
      assert |w[k..]| == |w| - k;
    }
  }

  lemma EpsilonBefore(a: Language, w: Word)
    ensures w in Concat(iset{[]}, a) <==> w in a
  {
    assert w[..0] == [] && w[0..] == w;
    if w in Concat(iset{[]}, a) {
      var k :| 0 <= k <= |w| && w[..k] in iset{[]} && w[k..] in a;
      assert |w[..k]| == k;
    }
  }

  lemma StarOfNothing()
    ensures Star(iset{}) == iset{[]}
  {
    forall w | w in Star(iset{}) ensures w == [] {
    }
  }

  // ----- the translated language against the expression's -----

  /** The translation accepts at least the expression's language. */
  lemma {:induction false} TranslatedContains(e: Node)
    ensures Lang(e) <= Translated(e)
  {
    hide Concat, Star;
    StarAbsorbs(Loop(e), Core(e));
    match e
    case Lit(_) =>
    case ZeroOrMore(child) =>
      TranslatedContains(child);
      TranslatedInStar(child);
      StarWithin(Lang(child), Loop(child) + Core(child));
      ConcatEpsilon(Star(Loop(e)));
    case OneOrMore(child) =>
      TranslatedContains(child);
      TranslatedInStar(child);
      StarWithin(Lang(child), Loop(child) + Core(child));
      ConcatMonotone(Lang(child), Translated(child), Star(Lang(child)), Star(Loop(child) + Core(child)));
      ConcatAssociates(Star(Loop(child)), Core(child), Star(Loop(child) + Core(child)));
    case Optional(child) =>
      TranslatedContains(child);
      ConcatMonotone(Star(Loop(child)), Star(Loop(e)), Core(child), Core(e));
    case Alt(first, second) =>
      TranslatedContains(first);
      TranslatedContains(second);
      InOwnStar(Loop(e));
      StarWithin(Loop(first), Loop(e));
      StarWithin(Loop(second), Loop(e));
      ConcatMonotone(Star(Loop(first)), Star(Loop(e)), Core(first), Core(e));
      ConcatMonotone(Star(Loop(second)), Star(Loop(e)), Core(second), Core(e));
    case Seq(first, second) =>
      TranslatedContains(first);
      TranslatedContains(second);
      ConcatMonotone(Lang(first), Translated(first), Lang(second), Translated(second));
      ConcatAssociates(Star(Loop(first)), Core(first), Translated(second));
  }

  lemma TranslatedInStar(e: Node)
    ensures Translated(e) <= Star(Loop(e) + Core(e))
  {
    hide Concat, Star;
    var a := Loop(e) + Core(e);
    InOwnStar(a);
    StarWithin(Loop(e), a);
    StarConcatStar(a, Star(Loop(e)), Core(e));
  }

  lemma AbsorbsOne(a: Language, from: Language, into: Language, u: Word, v: Word)
    requires Absorbs(a, from, into) && u in a && v in from
    ensures u + v in into
  {
  }

  lemma {:induction false} StarAbsorbed(a: Language, b: Language, u: Word, v: Word)
    requires Absorbs(a, b, b) && InStar(a, u) && v in b
    ensures u + v in b
    decreases |u|
  {
    hide Absorbs;
    if u == [] {
      assert u + v == v;
    } else {
      var k :| 0 < k <= |u| && u[..k] in a && InStar(a, u[k..]);
      StarAbsorbed(a, b, u[k..], v);
      AbsorbsOne(a, b, b, u[..k], u[k..] + v);
      assert u[..k] + (u[k..] + v) == u + v;
    }
  }

  /** The translation of an expression accepts exactly its language if and only if the loops at its
      initial state lead from words of the language to words of the language. */
  lemma ExactIffLoopsStay(e: Node)
    ensures Translated(e) == Lang(e) <==> Core(e) <= Lang(e) && Absorbs(Loop(e), Lang(e), Lang(e))
  {
    hide Lang, Loop, Core, Absorbs, Translated;
    TranslatedAbsorbs(e);
    TranslatedContains(e);
    if Core(e) <= Lang(e) && Absorbs(Loop(e), Lang(e), Lang(e)) {
      forall w | w in Translated(e) ensures w in Lang(e) {
        LoopsStay(e, w);
      }
    }
  }

  lemma LoopsStay(e: Node, w: Word)
    requires Core(e) <= Lang(e) && Absorbs(Loop(e), Lang(e), Lang(e)) && w in Translated(e)
    ensures w in Lang(e)
  {
    hide Lang, Loop, Core, Absorbs;
    var k :| 0 <= k <= |w| && w[..k] in Star(Loop(e)) && w[k..] in Core(e);
    StarAbsorbed(Loop(e), Lang(e), w[..k], w[k..]);
    assert w[..k] + w[k..] == w;
  }

  /** Translating the expression adds a loop to the initial state. */
  predicate StarLeading(e: Node) {
    match e
    case Lit(_) => false
    case ZeroOrMore(_) => true
    case OneOrMore(child) => StarLeading(child)
    case Optional(child) => StarLeading(child)
    case Alt(first, second) => StarLeading(first) || StarLeading(second)
    case Seq(first, _) => StarLeading(first)
  }

  /** No alternative, option or repetition has a star-leading operand. */
  predicate Separated(e: Node) {
    match e
    case Lit(_) => true
    case ZeroOrMore(child) => !StarLeading(child) && Separated(child)
    case OneOrMore(child) => !StarLeading(child) && Separated(child)
    case Optional(child) => !StarLeading(child) && Separated(child)
    case Alt(first, second) => !StarLeading(first) && !StarLeading(second) && Separated(first) && Separated(second)
    case Seq(first, second) => Separated(first) && Separated(second)
  }

  lemma {:induction false} LoopFree(e: Node)
    requires !StarLeading(e)
    ensures Loop(e) == iset{} && Translated(e) == Core(e)
  {
    hide Concat, Star;
    match e {
      case Lit(_) =>
      case OneOrMore(child) => LoopFree(child);
      case Optional(child) => LoopFree(child);
      case Alt(first, second) =>
        LoopFree(first);
        LoopFree(second);
      case Seq(first, _) => LoopFree(first);
    }
    StarOfNothing();
    ConcatEpsilon(Core(e));
  }

  /** On a separated expression the translation accepts nothing else. */
  lemma {:induction false} SeparatedExact(e: Node)
    requires Separated(e)
    ensures Translated(e) == Lang(e)
  {
    hide Concat, Star;
    match e
    case Lit(_) => LoopFree(e);
    case ZeroOrMore(child) =>
      SeparatedExact(child);
      LoopFree(child);
      assert Loop(e) == Lang(child);
      ConcatEpsilon(Star(Lang(child)));
    case OneOrMore(child) =>
      SeparatedExact(child);
      LoopFree(child);
      LoopFree(e);
      assert Loop(child) + Core(child) == Lang(child);
    case Optional(child) =>
      SeparatedExact(child);
      LoopFree(child);
      LoopFree(e);
    case Alt(first, second) =>
      SeparatedExact(first);
      SeparatedExact(second);
      LoopFree(first);
      LoopFree(second);
      LoopFree(e);
    case Seq(first, second) =>
      SeparatedExact(first);
      SeparatedExact(second);
      ConcatAssociates(Star(Loop(first)), Core(first), Translated(second));
  }

  /** So, for a separated expression, the accepted words are exactly the expression's. */
  lemma SeparatedAccepts(nfa: Automaton, e: Node, i: StateIndex, f: StateIndex, w: Word)
    requires EdgesInside(nfa) && 0 <= i < |nfa| && f < |nfa| && i != f
    requires NoEdgesFrom(nfa, i) && NoEdgesFrom(nfa, f) && Separated(e)
    ensures Path(Create(nfa, e, i, f), i, w, f) <==> w in Lang(e)
  {
    TranslationExact(nfa, e, i, f, w);
    SeparatedExact(e);
  }

  lemma {:induction false} StarOfChars(chars: set<Char>, w: Word)
    requires w in Star(OneChar(chars))
    ensures forall i :: 0 <= i < |w| ==> w[i] in chars
    decreases |w|
  {
    if w != [] {
      var k :| 0 < k <= |w| && w[..k] in OneChar(chars) && InStar(OneChar(chars), w[k..]);
      StarOfChars(chars, w[k..]);
      assert |w[..k]| == k == 1;
      assert forall i :: 1 <= i < |w| ==> w[i] == w[k..][i - 1];
      assert w[0] == w[..k][0];
    }
  }

  /** Without the condition more may be accepted: `a*|b` accepts "ab". */
  lemma LoopLeaks()
    ensures var e := Alt(ZeroOrMore(Lit({97})), Lit({98}));
            [97, 98] in Translated(e) && [97, 98] !in Lang(e) && !Separated(e)
  {
    var e := Alt(ZeroOrMore(Lit({97})), Lit({98}));
    var w: Word := [97, 98];
    assert [97] in Loop(e) && [98] in Core(e);
    StarPrepend(Loop(e), [97], []);
    assert w[..1] == [97] + [] && w[1..] == [98];
    if w in Star(OneChar({97})) {
      StarOfChars({97}, w);
    }
  }
}
