/** generate_default_deck: the fixed 108-card composition, in the order the
    source's loops produce it. */
module DefaultDeck {
  import opened Outcomes
  import opened Cards

  /** The numbers of one suit: 0, then 1..9 twice. */
  const NUMBERS: seq<nat> := [0, 1, 2, 3, 4, 5, 6, 7, 8, 9, 1, 2, 3, 4, 5, 6, 7, 8, 9]
  /** ["reverse", "skip", "draw-2"] * 2 */
  const SUIT_ACTIONS: seq<string> := ["reverse", "skip", "draw-2", "reverse", "skip", "draw-2"]
  /** ["wild", "wild-draw-4"] * 4 */
  const WILD_SYMBOLS: seq<string> :=
    ["wild", "wild-draw-4", "wild", "wild-draw-4", "wild", "wild-draw-4", "wild", "wild-draw-4"]

  /** str(n): the decimal digits of n. */
  function Str(n: nat): (s: string)
    ensures n < 10 ==> |s| == 1 && s[0] == ('0' as int + n) as char
  {
    if n < 10 then [('0' as int + n) as char] else Str(n / 10) + Str(n % 10)
  }

  function NumberCard(color: string, n: nat): Card {
    Card(Some(color), Some(Str(n)), None, Some(color))
  }

  function ActionCard(color: string, symbol: string): Card {
    Card(Some(color), None, Some(symbol), Some(color))
  }

  function WildCard(symbol: string): Card {
    Card(None, None, Some(symbol), None)
  }

  function NumberCards(color: string, ns: seq<nat>): (r: seq<Card>)
    ensures |r| == |ns|
  {
    seq(|ns|, i requires 0 <= i < |ns| => NumberCard(color, ns[i]))
  }

  function ActionCards(color: string, symbols: seq<string>): (r: seq<Card>)
    ensures |r| == |symbols|
  {
    seq(|symbols|, i requires 0 <= i < |symbols| => ActionCard(color, symbols[i]))
  }

  function WildCards(symbols: seq<string>): (r: seq<Card>)
    ensures |r| == |symbols|
  {
    seq(|symbols|, i requires 0 <= i < |symbols| => WildCard(symbols[i]))
  }

  /** The 25 cards of one colour: numbers first, then actions. */
  function Suit(color: string): seq<Card> {
    NumberCards(color, NUMBERS) + ActionCards(color, SUIT_ACTIONS)
  }

  function Suits(colors: seq<string>): seq<Card> {
    if colors == [] then [] else Suit(colors[0]) + Suits(colors[1..])
  }

  function GenerateDefaultDeck(): seq<Card> {
    Suits(COLORS) + WildCards(WILD_SYMBOLS)
  }

  /** A card of the standard composition: a coloured number or action card,
      or a colourless wild card. */
  predicate IsStandardCard(c: Card) {
    || (&& c.color.Some? && c.color.value in COLORS && c.initColor == c.color
        && c.symbol.None? && c.number.Some?
        && |c.number.value| == 1 && '0' <= c.number.value[0] <= '9')
    || (&& c.color.Some? && c.color.value in COLORS && c.initColor == c.color
        && c.number.None? && c.symbol.Some?
        && c.symbol.value in ["reverse", "skip", "draw-2"])
    || (&& c.color.None? && c.initColor.None? && c.number.None? && c.symbol.Some?
        && c.symbol.value in ["wild", "wild-draw-4"])
  }

  lemma DigitStringInjective(a: nat, b: nat)
    requires a < 10 && b < 10
    ensures Str(a) == Str(b) ==> a == b
  {
    if Str(a) == Str(b) {
      assert Str(a)[0] == Str(b)[0];
    }
  }

  lemma {:induction false} NumberCardsCount(color: string, ns: seq<nat>, c: string, d: nat)
    requires forall i :: 0 <= i < |ns| ==> ns[i] < 10
    requires d < 10
    ensures multiset(NumberCards(color, ns))[NumberCard(c, d)] == if c == color then multiset(ns)[d] else 0
  {
    if ns != [] {
      assert NumberCards(color, ns) == [NumberCard(color, ns[0])] + NumberCards(color, ns[1..]);
      NumberCardsCount(color, ns[1..], c, d);
      DigitStringInjective(ns[0], d);
      assert ns == [ns[0]] + ns[1..];
    }
  }

  lemma {:induction false} ActionCardsCount(color: string, symbols: seq<string>, x: Card)
    ensures multiset(ActionCards(color, symbols))[x] ==
      if x.color == Some(color) && x.initColor == Some(color) && x.number.None? && x.symbol.Some?
      then multiset(symbols)[x.symbol.value] else 0
  {
    if symbols != [] {
      assert ActionCards(color, symbols) == [ActionCard(color, symbols[0])] + ActionCards(color, symbols[1..]);
      ActionCardsCount(color, symbols[1..], x);
      assert symbols == [symbols[0]] + symbols[1..];
    }
  }

  lemma {:induction false} WildCardsCount(symbols: seq<string>, x: Card)
    ensures multiset(WildCards(symbols))[x] ==
      if x.color.None? && x.initColor.None? && x.number.None? && x.symbol.Some?
      then multiset(symbols)[x.symbol.value] else 0
  {
    if symbols != [] {
      assert WildCards(symbols) == [WildCard(symbols[0])] + WildCards(symbols[1..]);
      WildCardsCount(symbols[1..], x);
      assert symbols == [symbols[0]] + symbols[1..];
    }
  }

  /** Every card of a suit carries that suit's colour. */
  lemma SuitColor(color: string, x: Card)
    requires x in Suit(color)
    ensures x.color == Some(color)
  {
    var i :| 0 <= i < |Suit(color)| && Suit(color)[i] == x;
    if i >= |NUMBERS| {
      assert x == ActionCards(color, SUIT_ACTIONS)[i - |NUMBERS|];
    }
  }

  /** With distinct colours, a coloured card occurs in the suits exactly as
      often as in the suit of its own colour. */
  lemma {:induction false} SuitsCount(colors: seq<string>, x: Card)
    requires forall i, j :: 0 <= i < j < |colors| ==> colors[i] != colors[j]
    requires x.color.Some?
    ensures multiset(Suits(colors))[x] == if x.color.value in colors then multiset(Suit(x.color.value))[x] else 0
  {
    if colors != [] {
      SuitsCount(colors[1..], x);
      if x.color.value != colors[0] && x in Suit(colors[0]) {
        SuitColor(colors[0], x);
      }
    }
  }

  lemma {:induction false} SuitsLength(colors: seq<string>)
    ensures |Suits(colors)| == 25 * |colors|
  {
    if colors != [] {
      SuitsLength(colors[1..]);
    }
  }

  lemma NumberCardStandard(color: string, n: nat)
    requires color in COLORS && n < 10
    ensures IsStandardCard(NumberCard(color, n))
  {
  }

  lemma SuitNumberAt(color: string, k: nat)
    requires k < 19
    ensures NUMBERS[k] < 10
    ensures Suit(color)[k] == NumberCard(color, NUMBERS[k])
  {
  }

  lemma SuitNumberStandard(color: string, k: nat)
    requires color in COLORS
    requires k < 19
    ensures IsStandardCard(Suit(color)[k])
  {
    SuitNumberAt(color, k);
    NumberCardStandard(color, NUMBERS[k]);
  }

  lemma SuitStandard(color: string, k: nat)
    requires color in COLORS
    requires k < 25
    ensures IsStandardCard(Suit(color)[k])
  {
    if k < 19 {
      SuitNumberStandard(color, k);
    } else {
      SuitActionStandard(color, k);
    }
  }

  lemma SuitActionStandard(color: string, k: nat)
    requires color in COLORS
    requires 19 <= k < 25
    ensures IsStandardCard(Suit(color)[k])
  {
    assert Suit(color)[k] == ActionCard(color, SUIT_ACTIONS[k - 19]);
  }

  lemma {:induction false} SuitsColored(colors: seq<string>, k: nat)
    requires k < |Suits(colors)|
    ensures Suits(colors)[k].color.Some?
  {
    if k < 25 {
      assert Suits(colors)[k] in Suit(colors[0]);
      SuitColor(colors[0], Suits(colors)[k]);
    } else {
      SuitsColored(colors[1..], k - 25);
    }
  }

  /** Every card of the suits is a standard card of its colour. */
  lemma {:induction false} SuitsStandard(colors: seq<string>, k: nat)
    requires forall i :: 0 <= i < |colors| ==> colors[i] in COLORS
    requires k < |Suits(colors)|
    ensures IsStandardCard(Suits(colors)[k])
  {
    if k < 25 {
      SuitStandard(colors[0], k);
    } else {
      SuitsStandard(colors[1..], k - 25);
    }
  }

  const ONE_TO_NINE: seq<nat> := seq(9, i requires 0 <= i < 9 => i + 1)

  lemma OneToNineCount(d: nat)
    ensures multiset(ONE_TO_NINE)[d] == if 1 <= d <= 9 then 1 else 0
  {
    var s := ONE_TO_NINE;
    IncreasingCount(s, d);
    if 1 <= d <= 9 {
      assert s[d - 1] == d;
    }
  }

  /** In a strictly increasing list every value occurs at most once. */
  lemma {:induction false} IncreasingCount(s: seq<nat>, d: nat)
    requires forall i :: 0 <= i < |s| - 1 ==> s[i] < s[i + 1]
    ensures multiset(s)[d] == if d in s then 1 else 0
    decreases |s|
  {
    if s != [] {
      assert s == [s[0]] + s[1..];
      IncreasingCount(s[1..], d);
      if |s| > 1 {
        IncreasingHead(s);
      }
    }
  }

  lemma {:induction false} IncreasingHead(s: seq<nat>)
    requires |s| >= 1
    requires forall i :: 0 <= i < |s| - 1 ==> s[i] < s[i + 1]
    ensures forall i :: 1 <= i < |s| ==> s[0] < s[i]
    decreases |s|
  {
    if |s| > 1 {
      IncreasingHead(s[1..]);
      assert forall i :: 1 <= i < |s| - 1 ==> s[1..][i] == s[i + 1];
    }
  }

  lemma NumbersBelowTen()
    ensures forall i :: 0 <= i < |NUMBERS| ==> NUMBERS[i] < 10
  {
  }

  lemma NumbersCount(d: nat)
    ensures multiset(NUMBERS)[d] == if d == 0 then 1 else if d <= 9 then 2 else 0
  {
    assert NUMBERS == [0] + ONE_TO_NINE + ONE_TO_NINE;
    assert multiset(NUMBERS) == multiset([0]) + multiset(ONE_TO_NINE) + multiset(ONE_TO_NINE);
    OneToNineCount(d);
  }

  lemma SuitActionsCount(s: string)
    requires s in ["reverse", "skip", "draw-2"]
    ensures multiset(SUIT_ACTIONS)[s] == 2
  {
    assert SUIT_ACTIONS == ["reverse", "skip", "draw-2"] + ["reverse", "skip", "draw-2"];
  }

  lemma WildSymbolsCount(s: string)
    requires s in ["wild", "wild-draw-4"]
    ensures multiset(WILD_SYMBOLS)[s] == 4
  {
  }

  lemma ColorsDistinct()
    ensures forall i, j :: 0 <= i < j < |COLORS| ==> COLORS[i] != COLORS[j]
  {
    forall i, j | 0 <= i < j < |COLORS| ensures COLORS[i] != COLORS[j] {
      assert |COLORS[i]| != |COLORS[j]|;
    }
  }

  /** How often a coloured card occurs in the whole deck: as often as in the
      suit of its colour. */
  lemma ColoredCount(x: Card)
    requires x.color.Some? && x.color.value in COLORS
    ensures multiset(GenerateDefaultDeck())[x] == multiset(Suit(x.color.value))[x]
  {
    ColorsDistinct();
    SuitsCount(COLORS, x);
    WildCardsCount(WILD_SYMBOLS, x);
  }

  lemma NumberCardCount(c: string, d: nat)
    requires c in COLORS && d <= 9
    ensures multiset(GenerateDefaultDeck())[NumberCard(c, d)] == if d == 0 then 1 else 2
  {
    var x := NumberCard(c, d);
    ColoredCount(x);
    NumbersBelowTen();
    NumberCardsCount(c, NUMBERS, c, d);
    ActionCardsCount(c, SUIT_ACTIONS, x);
    NumbersCount(d);
    SuitSplit(c);
  }

  lemma ActionCardCount(c: string, s: string)
    requires c in COLORS && s in ["reverse", "skip", "draw-2"]
    ensures multiset(GenerateDefaultDeck())[ActionCard(c, s)] == 2
  {
    var x := ActionCard(c, s);
    ColoredCount(x);
    ActionCardsCount(c, SUIT_ACTIONS, x);
    SuitActionsCount(s);
    SuitSplit(c);
    NoNumberCard(c, NUMBERS, x);
  }

  lemma SuitSplit(c: string)
    ensures multiset(Suit(c)) == multiset(NumberCards(c, NUMBERS)) + multiset(ActionCards(c, SUIT_ACTIONS))
  {
  }

  /** A card without a number is not a number card. */
  lemma NoNumberCard(c: string, ns: seq<nat>, x: Card)
    requires x.number.None?
    ensures multiset(NumberCards(c, ns))[x] == 0
  {
    var cards := NumberCards(c, ns);
    assert forall i :: 0 <= i < |cards| ==> cards[i].number.Some?;
    assert x !in cards;
  }

  lemma WildCardCount(s: string)
    requires s in ["wild", "wild-draw-4"]
    ensures multiset(GenerateDefaultDeck())[WildCard(s)] == 4
  {
    var x := WildCard(s);
    var suits := Suits(COLORS);
    WildCardsCount(WILD_SYMBOLS, x);
    WildSymbolsCount(s);
    assert multiset(suits)[x] == 0 by {
      forall k | 0 <= k < |suits| ensures suits[k] != x {
        SuitsColored(COLORS, k);
      }
      assert x !in suits;
    }
  }

  lemma DeckStandard(k: nat)
    requires k < 108
    ensures |GenerateDefaultDeck()| == 108
    ensures IsStandardCard(GenerateDefaultDeck()[k])
  {
    var deck := GenerateDefaultDeck();
    SuitsLength(COLORS);
    if k < 100 {
      assert deck[k] == Suits(COLORS)[k];
      SuitsStandard(COLORS, k);
    } else {
      assert deck[k] == WildCard(WILD_SYMBOLS[k - 100]);
    }
  }

  /** A standard card is one the constructor accepts, with its colour
      unchanged since. */
  lemma StandardCardConstructible(x: Card)
    requires IsStandardCard(x)
    ensures NewCard(x.color, x.number, x.symbol) == Ok(x)
  {
    if x.symbol.Some? {
      Classification(x.symbol.value);
    }
  }

  /** The composition promised by generate_default_deck's docstring and its
      closing assertion: 108 cards; per colour one "0" and two of each of
      "1".."9", reverse, skip and draw-2; four colourless "wild" and four
      "wild-draw-4"; no other card; and every card is one the constructor
      accepts. */
  lemma DefaultDeckComposition()
    ensures |GenerateDefaultDeck()| == 108
    ensures forall c | c in COLORS :: multiset(GenerateDefaultDeck())[NumberCard(c, 0)] == 1
    ensures forall c, d | c in COLORS && 1 <= d <= 9 :: multiset(GenerateDefaultDeck())[NumberCard(c, d)] == 2
    ensures forall c, s | c in COLORS && s in ["reverse", "skip", "draw-2"] ::
      multiset(GenerateDefaultDeck())[ActionCard(c, s)] == 2
    ensures multiset(GenerateDefaultDeck())[WildCard("wild")] == 4
    ensures multiset(GenerateDefaultDeck())[WildCard("wild-draw-4")] == 4
    ensures forall k :: 0 <= k < 108 ==> IsStandardCard(GenerateDefaultDeck()[k])
    ensures forall x | x in GenerateDefaultDeck() :: NewCard(x.color, x.number, x.symbol) == Ok(x)
  {
    DeckCounts();
    DeckCardsStandard();
  }

  lemma DeckCounts()
    ensures forall c | c in COLORS :: multiset(GenerateDefaultDeck())[NumberCard(c, 0)] == 1
    ensures forall c, d | c in COLORS && 1 <= d <= 9 :: multiset(GenerateDefaultDeck())[NumberCard(c, d)] == 2
    ensures forall c, s | c in COLORS && s in ["reverse", "skip", "draw-2"] ::
      multiset(GenerateDefaultDeck())[ActionCard(c, s)] == 2
    ensures multiset(GenerateDefaultDeck())[WildCard("wild")] == 4
    ensures multiset(GenerateDefaultDeck())[WildCard("wild-draw-4")] == 4
  {
    forall c | c in COLORS
      ensures multiset(GenerateDefaultDeck())[NumberCard(c, 0)] == 1
    {
      NumberCardCount(c, 0);
    }
    forall c, d | c in COLORS && 1 <= d <= 9
      ensures multiset(GenerateDefaultDeck())[NumberCard(c, d)] == 2
    {
      NumberCardCount(c, d);
    }
    forall c, s | c in COLORS && s in ["reverse", "skip", "draw-2"]
      ensures multiset(GenerateDefaultDeck())[ActionCard(c, s)] == 2
    {
      ActionCardCount(c, s);
    }
    WildCardCount("wild");
    WildCardCount("wild-draw-4");
  }

  lemma DeckCardsStandard()
    ensures |GenerateDefaultDeck()| == 108
    ensures forall k :: 0 <= k < 108 ==> IsStandardCard(GenerateDefaultDeck()[k])
    ensures forall x | x in GenerateDefaultDeck() :: NewCard(x.color, x.number, x.symbol) == Ok(x)
  {
    DeckStandard(0);
    forall k | 0 <= k < 108
      ensures IsStandardCard(GenerateDefaultDeck()[k])
    {
      DeckStandard(k);
    }
    forall x | x in GenerateDefaultDeck()
      ensures NewCard(x.color, x.number, x.symbol) == Ok(x)
    {
      var k :| 0 <= k < 108 && GenerateDefaultDeck()[k] == x;
      DeckStandard(k);
      StandardCardConstructible(x);
    }
  }
}
