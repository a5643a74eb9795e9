/** The patterns of the text format's tokens, and what follows for the automaton built from them: literals
    share no state with a pattern, the scan stops at the end of the input, and strings are recognized
    although the expression written for them demands an escape at their end. */
module TextFormat {
  import opened NFA
  import opened RegExp
  import opened RegExpExact
  import opened LexerRules
  import opened LexerExact
  import opened LexerMixed
  import opened LexerTokens

  // ----- the patterns -----

  /** Expressions in sequence, associated to the left as the parser of expressions does. */
  function Chain(nodes: seq<Node>): Node
    requires |nodes| > 0
  {
    if |nodes| == 1 then nodes[0] else Seq(Chain(nodes[..|nodes| - 1]), nodes[|nodes| - 1])
  }

  predicate Between(first: Char, c: Char, last: Char) {
    first <= c <= last
  }

  function Range(first: Char, last: Char): set<Char> {
    set c: Char | Between(first, c, last)
  }

  const DIGITS: set<Char> := Range(48, 57)
  const HEXITS: set<Char> := DIGITS + Range(97, 102) + Range(65, 70)

  const SIGN := Optional(Lit({43, 45}))
  const DOT := Lit({46})
  const ZERO := Lit({48})
  const HEX_MARK := Lit({120, 88})

  /** Digits with single underscores between them are these two expressions in sequence. */
  function Digits(digits: set<Char>): Node {
    OneOrMore(Lit(digits))
  }

  function Groups(digits: set<Char>): Node {
    ZeroOrMore(Chain([Lit({95}), OneOrMore(Lit(digits))]))
  }

  function Fraction(digits: set<Char>): Node {
    ZeroOrMore(Chain([Digits(digits), Groups(digits)]))
  }

  function Exponent(mark: set<Char>): seq<Node> {
    [Lit(mark), SIGN, Digits(DIGITS), Groups(DIGITS)]
  }

  const E_MARK: set<Char> := {101, 69}
  const P_MARK: set<Char> := {112, 80}

  const DECIMAL: seq<Node> := [SIGN, Digits(DIGITS), Groups(DIGITS)]
  const HEX: seq<Node> := [SIGN, ZERO, HEX_MARK, Digits(HEXITS), Groups(HEXITS)]

  /** All characters but the null character and the given ones. */
  function Except(chars: set<Char>): set<Char> {
    set c: Char | c != 0 && c !in chars
  }

  const PLAIN: set<Char> := Except({34, 10, 92})

  /** Behind the backslash of an escape: a character, two hexits, or a code point in braces. */
  const ONE := Lit(Except(HEXITS + {117}))
  const TWO := Chain([Lit(HEXITS), Lit(HEXITS)])
  const CODE_POINT := Chain([Lit({117}), Lit({123}), OneOrMore(Lit(HEXITS)), Lit({125})])
  const ESCAPED := Alt(Alt(ONE, TWO), CODE_POINT)

  const ESCAPE := Chain([Lit({92}), ESCAPED])

  const QUOTED := Chain([ZeroOrMore(Lit(PLAIN)), ESCAPE])
  const QUOTE := Lit({34})
  const DOLLAR := Lit({36})

  const NAME_CHARS: set<Char> :=
    Range(97, 122) + Range(65, 90) + DIGITS
    + {39, 95, 43, 42, 47, 126, 61, 60, 62, 33, 63, 64, 35, 36, 37, 38, 124, 58, 96, 46, 45, 94, 92}

  const NAN_PAYLOAD: seq<Node> := [Lit({58}), ZERO, HEX_MARK, Digits(HEXITS), Groups(HEXITS)]

  const RULE_COUNT: nat := 11

  /** The patterns as sequences of expressions, with their tokens. */
  function Rule(i: nat): (r: (seq<Node>, nat))
    requires i < RULE_COUNT
    ensures |r.0| > 0 && r.1 < MAX_TOKENS
  {
    match i
    case 0 => (DECIMAL, 4)
    case 1 => (DECIMAL + [DOT, Fraction(DIGITS), Optional(Chain(Exponent(E_MARK)))], 3)
    case 2 => (DECIMAL + Exponent(E_MARK), 3)
    case 3 => (HEX, 6)
    case 4 => (HEX + [DOT, Fraction(HEXITS), Optional(Chain(Exponent(P_MARK)))], 5)
    case 5 => (HEX + Exponent(P_MARK), 5)
    case 6 => ([SIGN, Lit({110}), Lit({97}), Lit({110}), Optional(Chain(NAN_PAYLOAD))], 7)
    case 7 => ([SIGN, Lit({105}), Lit({110}), Lit({102})], 8)
    case 8 => ([QUOTE, ZeroOrMore(QUOTED), QUOTE], 9)
    case 9 => ([DOLLAR, OneOrMore(Lit(NAME_CHARS))], 10)
    case _ => ([DOLLAR, QUOTE, ZeroOrMore(QUOTED), QUOTE], 11)
  }

  function Patterns(): (r: seq<Pattern>)
    ensures |r| == RULE_COUNT && forall i :: 0 <= i < |r| ==> r[i] == Pattern(Chain(Rule(i).0), Rule(i).1)
  {
    seq(RULE_COUNT, i requires 0 <= i < RULE_COUNT => Pattern(Chain(Rule(i).0), Rule(i).1))
  }

  /** The literals of the text format: keywords start with a small letter, and nothing holds a null
      character. */
  ghost predicate KeywordsOk(literals: seq<Literal>) {
    forall i :: 0 <= i < |literals| ==>
      && literals[i].token < MAX_TOKENS
      && (|literals[i].text| > 1 ==> literals[i].text[0] in Range(97, 122))
      && forall k :: 0 <= k < |literals[i].text| ==> literals[i].text[k] != 0
  }

  // ----- no literal shares a state with a pattern -----

  lemma {:induction false} ChainFirst(nodes: seq<Node>)
    requires |nodes| > 0
    ensures FirstChars(Chain(nodes)) == FirstChars(nodes[0])
  {
    if |nodes| > 1 {
      ChainFirst(nodes[..|nodes| - 1]);
    }
  }

  lemma RuleFirst(i: nat)
    requires i < RULE_COUNT
    ensures FirstChars(Rule(i).0[0]) <= {43, 45, 34, 36}
  {
    hide Chain;
    assert Rule(i).0[0] in [SIGN, QUOTE, DOLLAR];
  }

  lemma TextApart(literals: seq<Literal>)
    requires KeywordsOk(literals)
    ensures Apart(Patterns(), literals) && TokensFit(Patterns(), literals)
  {
    hide FirstChars, Rule, Chain, Patterns;
    forall i, c: Char | 0 <= i < |Patterns()| && c in FirstChars(Patterns()[i].node) ensures !Starts(literals, c) {
      ChainFirst(Rule(i).0);
      RuleFirst(i);
      assert c !in Range(97, 122);
    }
  }

  /** The automaton of the text format accepts at every terminal exactly the words of its rules. */
  lemma TextExact(literals: seq<Literal>, nfa: Automaton)
    requires KeywordsOk(literals) && IsLexer(Patterns(), literals, nfa)
    ensures Unmixed(Patterns(), literals) && Exact(Patterns(), literals, nfa)
  {
    hide Built, Matches, Path, Unmixed, Apart, Patterns;
    TextApart(literals);
    ApartUnmixed(Patterns(), literals);
    ExactIffUnmixed(Patterns(), literals);
  }

  // ----- the end of the input -----

  lemma {:induction false} ChainChars(nodes: seq<Node>)
    requires |nodes| > 0 && forall i :: 0 <= i < |nodes| ==> 0 !in Chars(nodes[i])
    ensures 0 !in Chars(Chain(nodes))
  {
    if |nodes| > 1 {
      ChainChars(nodes[..|nodes| - 1]);
    }
  }

  lemma NumbersNotNull()
    ensures forall d :: d in [DIGITS, HEXITS] ==>
              0 !in Chars(Digits(d)) && 0 !in Chars(Groups(d)) && 0 !in Chars(Fraction(d))
    ensures forall m :: m in [E_MARK, P_MARK] ==> forall i :: 0 <= i < 4 ==> 0 !in Chars(Exponent(m)[i])
    ensures forall m :: m in [E_MARK, P_MARK] ==> 0 !in Chars(Chain(Exponent(m)))
  {
    forall d | d in [DIGITS, HEXITS]
      ensures 0 !in Chars(Digits(d)) && 0 !in Chars(Groups(d)) && 0 !in Chars(Fraction(d))
    {
      ChainChars([Lit({95}), OneOrMore(Lit(d))]);
      ChainChars([Digits(d), Groups(d)]);
    }
    forall m | m in [E_MARK, P_MARK]
      ensures 0 !in Chars(Chain(Exponent(m))) && forall i :: 0 <= i < 4 ==> 0 !in Chars(Exponent(m)[i])
    {
      assert 0 !in Chars(Digits(DIGITS)) && 0 !in Chars(Groups(DIGITS)) by { assert DIGITS in [DIGITS, HEXITS]; }
      ChainChars(Exponent(m));
    }
  }

  lemma AltChars(a: Node, b: Node)
    ensures Chars(Alt(a, b)) == Chars(a) + Chars(b)
  {
  }

  lemma StringsNotNull()
    ensures 0 !in Chars(ESCAPE) && 0 !in Chars(QUOTED)
  {
    hide Chain;
    ChainChars([Lit(HEXITS), Lit(HEXITS)]);
    ChainChars([Lit({117}), Lit({123}), OneOrMore(Lit(HEXITS)), Lit({125})]);
    AltChars(ONE, TWO);
    AltChars(Alt(ONE, TWO), CODE_POINT);
    ChainChars([Lit({92}), ESCAPED]);
    ChainChars([ZeroOrMore(Lit(PLAIN)), ESCAPE]);
  }

  /** No expression of the sequence reads the null character. */
  ghost predicate NotNull(nodes: seq<Node>) {
    forall k :: 0 <= k < |nodes| ==> 0 !in Chars(nodes[k])
  }

  lemma NotNullJoin(a: seq<Node>, b: seq<Node>)
    requires NotNull(a) && NotNull(b)
    ensures NotNull(a + b)
  {
  }

  lemma DecimalNotNull()
    ensures NotNull(DECIMAL) && NotNull(Exponent(E_MARK)) && NotNull(Exponent(P_MARK))
    ensures NotNull([DOT, Fraction(DIGITS), Optional(Chain(Exponent(E_MARK)))])
  {
    hide Chain;
    NumbersNotNull();
    assert DIGITS in [DIGITS, HEXITS] && E_MARK in [E_MARK, P_MARK] && P_MARK in [E_MARK, P_MARK];
  }

  lemma HexNotNull()
    ensures NotNull(HEX) && NotNull([DOT, Fraction(HEXITS), Optional(Chain(Exponent(P_MARK)))])
    ensures NotNull([SIGN, Lit({110}), Lit({97}), Lit({110}), Optional(Chain(NAN_PAYLOAD))])
  {
    hide Chain;
    NumbersNotNull();
    assert HEXITS in [DIGITS, HEXITS] && P_MARK in [E_MARK, P_MARK];
    ChainChars(NAN_PAYLOAD);
  }

  lemma RuleNotNull(i: nat)
    requires i < RULE_COUNT
    ensures NotNull(Rule(i).0)
  {
    hide Chain, NotNull, Fraction;
    DecimalNotNull();
    HexNotNull();
    if i < 6 {
      NotNullJoin(DECIMAL, [DOT, Fraction(DIGITS), Optional(Chain(Exponent(E_MARK)))]);
      NotNullJoin(DECIMAL, Exponent(E_MARK));
      NotNullJoin(HEX, [DOT, Fraction(HEXITS), Optional(Chain(Exponent(P_MARK)))]);
      NotNullJoin(HEX, Exponent(P_MARK));
    } else {
      QuotedNotNull();
    }
  }

  lemma QuotedNotNull()
    ensures NotNull([SIGN, Lit({105}), Lit({110}), Lit({102})])
    ensures NotNull([QUOTE, ZeroOrMore(QUOTED), QUOTE]) && NotNull([DOLLAR, QUOTE, ZeroOrMore(QUOTED), QUOTE])
    ensures NotNull([DOLLAR, OneOrMore(Lit(NAME_CHARS))])
  {
    hide Chain;
    StringsNotNull();
    assert 0 !in NAME_CHARS && Chars(OneOrMore(Lit(NAME_CHARS))) == NAME_CHARS by { RepeatedChars(NAME_CHARS); }
  }

  lemma RepeatedChars(chars: set<Char>)
    ensures Chars(OneOrMore(Lit(chars))) == chars
  {
  }

  lemma TextNotNull(literals: seq<Literal>)
    requires KeywordsOk(literals)
    ensures FreeOf(Patterns(), literals, {0})
  {
    hide Chars, Chain, Rule, Patterns;
    forall i | 0 <= i < |Patterns()| ensures Chars(Patterns()[i].node) !! {0} {
      RuleNotNull(i);
      ChainChars(Rule(i).0);
    }
  }

  /** Every scan of the text format stops at or before the null character behind the input. */
  lemma TextStops(literals: seq<Literal>, nfa: Automaton, input: Word, k: nat)
    requires KeywordsOk(literals) && IsLexer(Patterns(), literals, nfa) && Unambiguous(nfa) && k < |input| && input[k] == 0
    ensures var r := Simulate(nfa, iset{0}, input, 0); r.Some? && r.value.consumed <= k + 1
  {
    hide Built, Simulate, Unambiguous, FreeOf, Apart, Patterns;
    TextApart(literals);
    TextNotNull(literals);
    NullStops(Patterns(), literals, nfa, input, k);
  }

  // ----- strings -----

  lemma EscapeSeparated()
    ensures Separated(ESCAPE) && !StarLeading(ESCAPE)
  {
    hide Chain;
    PairIs(Lit(HEXITS), Lit(HEXITS));
    FourIs(Lit({117}), Lit({123}), OneOrMore(Lit(HEXITS)), Lit({125}));
    assert Separated(TWO) && !StarLeading(TWO);
    SeqSeparated(Lit({117}), Lit({123}), OneOrMore(Lit(HEXITS)), Lit({125}));
    AltSeparated(ONE, TWO);
    AltSeparated(Alt(ONE, TWO), CODE_POINT);
    PairIs(Lit({92}), ESCAPED);
  }

  lemma AltSeparated(a: Node, b: Node)
    requires Separated(a) && Separated(b) && !StarLeading(a) && !StarLeading(b)
    ensures Separated(Alt(a, b)) && !StarLeading(Alt(a, b))
  {
  }

  lemma SeqSeparated(a: Node, b: Node, c: Node, d: Node)
    requires Separated(a) && Separated(b) && Separated(c) && Separated(d)
    ensures Separated(Seq(Seq(Seq(a, b), c), d)) && StarLeading(Seq(Seq(Seq(a, b), c), d)) == StarLeading(a)
  {
    assert Separated(Seq(a, b)) && Separated(Seq(Seq(a, b), c));
    assert StarLeading(Seq(Seq(a, b), c)) == StarLeading(a);
  }

  lemma PairIs(a: Node, b: Node)
    ensures Chain([a, b]) == Seq(a, b)
  {
    assert [a, b][..1] == [a];
  }

  lemma ThreeIs(a: Node, b: Node, c: Node)
    ensures Chain([a, b, c]) == Seq(Seq(a, b), c)
  {
    assert [a, b, c][..2] == [a, b];
    PairIs(a, b);
  }

  lemma FourIs(a: Node, b: Node, c: Node, d: Node)
    ensures Chain([a, b, c, d]) == Seq(Seq(Seq(a, b), c), d)
  {
    assert [a, b, c, d][..3] == [a, b, c];
    ThreeIs(a, b, c);
  }

  /** What a string may hold: plain characters and escapes. */
  ghost function StringBody(): Language {
    Star(OneChar(PLAIN) + Lang(ESCAPE))
  }

  /** The translation accepts exactly such bodies. */
  lemma BodyTranslated()
    ensures Translated(ZeroOrMore(QUOTED)) == StringBody()
  {
    hide Concat, Star, Chain;
    PairIs(ZeroOrMore(Lit(PLAIN)), ESCAPE);
    EscapeSeparated();
    SeparatedExact(ESCAPE);
    LoopFree(ESCAPE);
    ConcatEpsilon(Lang(ESCAPE));
    assert Core(QUOTED) == Lang(ESCAPE);
    assert Loop(QUOTED) == OneChar(PLAIN);
    ConcatEpsilon(StringBody());
  }

  ghost function StringLanguage(): Language {
    Concat(Concat(OneChar({34}), StringBody()), OneChar({34}))
  }

  /** The automaton accepts exactly quoted bodies as strings. */
  lemma StringsTranslated()
    ensures Translated(Chain([QUOTE, ZeroOrMore(QUOTED), QUOTE])) == StringLanguage()
  {
    hide Concat, Star, Chain;
    ThreeIs(QUOTE, ZeroOrMore(QUOTED), QUOTE);
    BodyTranslated();
    LoopFree(QUOTE);
    var e := Seq(Seq(QUOTE, ZeroOrMore(QUOTED)), QUOTE);
    LoopFree(e);
  }

  /** Every nonempty body of the expression as written holds a backslash. */
  lemma {:induction false} WrittenBodies(w: Word)
    requires w in Star(Lang(QUOTED)) && w != []
    ensures 92 in w
  {
    hide Concat, Chain;
    var k :| 0 < k <= |w| && w[..k] in Lang(QUOTED) && InStar(Lang(QUOTED), w[k..]);
    WrittenBody(w[..k]);
    assert 92 in w[..k];
  }

  lemma WrittenBody(w: Word)
    requires w in Lang(QUOTED)
    ensures 92 in w
  {
    hide Chain;
    PairIs(ZeroOrMore(Lit(PLAIN)), ESCAPE);
    var k :| 0 <= k <= |w| && w[..k] in Lang(ZeroOrMore(Lit(PLAIN))) && w[k..] in Lang(ESCAPE);
    EscapeStarts(w[k..]);
    assert w[k] == w[k..][0];
  }

  lemma EscapeStarts(w: Word)
    requires w in Lang(ESCAPE)
    ensures |w| > 0 && w[0] == 92
  {
    hide Chain;
    PairIs(Lit({92}), ESCAPED);
    var k :| 0 <= k <= |w| && w[..k] in OneChar({92}) && w[k..] in Lang(ESCAPED);
    assert w[..k][0] == w[0];
  }

  /** The expression for strings demands that a string that is not empty ends in an escape. A string without
      escapes is recognized only because the translation of `*` reuses its initial state. */
  lemma PlainStringNeedsLoop()
    ensures var e := Chain([QUOTE, ZeroOrMore(QUOTED), QUOTE]);
            [34, 97, 34] in Translated(e) && [34, 97, 34] !in Lang(e)
  {
    var e, w: Word := Chain([QUOTE, ZeroOrMore(QUOTED), QUOTE]), [34, 97, 34];
    ThreeIs(QUOTE, ZeroOrMore(QUOTED), QUOTE);
    StringsTranslated();
    PlainIn(w);
    PlainOut(w);
  }

  lemma PlainIn(w: Word)
    requires w == [34, 97, 34]
    ensures w in StringLanguage()
  {
    hide Chain;
    assert [97] in OneChar(PLAIN) + Lang(ESCAPE);
    assert [] in Star(OneChar(PLAIN) + Lang(ESCAPE));
    StarPrepend(OneChar(PLAIN) + Lang(ESCAPE), [97], []);
    assert [97] + [] == [97];
    var front := [34, 97];
    assert front[..1] == [34] && front[1..] == [97];
    assert w[..2] == front && w[2..] == [34];
  }

  lemma PlainOut(w: Word)
    requires w == [34, 97, 34]
    ensures w !in Lang(Seq(Seq(QUOTE, ZeroOrMore(QUOTED)), QUOTE))
  {
    hide Star, Chain;
    assert Lang(Seq(QUOTE, ZeroOrMore(QUOTED))) == Concat(OneChar({34}), Star(Lang(QUOTED)));
    if w in Lang(Seq(Seq(QUOTE, ZeroOrMore(QUOTED)), QUOTE)) {
      var k :| 0 <= k <= |w| && w[..k] in Lang(Seq(QUOTE, ZeroOrMore(QUOTED))) && w[k..] in OneChar({34});
      var j :| 0 <= j <= |w[..k]| && w[..k][..j] in OneChar({34}) && w[..k][j..] in Star(Lang(QUOTED));
      assert k == 2 && j == 1 && w[..2][1..] == [97];
      WrittenBodies([97]);
    }
  }
}
