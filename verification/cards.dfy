/** The card value of uno/_game.py: constructor checks, wild/action
    classification, the colour-blind equality of wild cards, and `copy()`. */
module Cards {
  import opened Outcomes

  const COLORS: seq<string> := ["red", "blue", "green", "yellow"]
  const ACTION_SYMBOLS: seq<string> := ["skip", "reverse", "draw-2", "wild-draw-4"]

  /** A card. `color` is the current colour, which a strategy may set on a
      wild card after construction; `initColor` is the colour passed to the
      constructor, kept so that `Copy` can rebuild the card from its
      constructor arguments. */
  datatype Card = Card(
    color: Option<string>,
    number: Option<string>,
    symbol: Option<string>,
    initColor: Option<string>)

  /** Python truthiness of an optional string: None and "" are false. */
  predicate Truthy(s: Option<string>) {
    s.Some? && s.value != ""
  }

  predicate IsWildSymbol(symbol: Option<string>) {
    Truthy(symbol) && "wild" <= symbol.value
  }

  predicate IsWildDraw4Symbol(symbol: Option<string>) {
    symbol == Some("wild-draw-4")
  }

  predicate IsActionSymbol(symbol: Option<string>) {
    symbol.Some? && symbol.value in ACTION_SYMBOLS
  }

  predicate IsWild(c: Card) {
    IsWildSymbol(c.symbol)
  }

  predicate IsAction(c: Card) {
    IsActionSymbol(c.symbol)
  }

  /** The assertions of check_card_args. */
  predicate ArgsAccepted(color: Option<string>, number: Option<string>, symbol: Option<string>) {
    && (number.Some? || symbol.Some?)
    && (Truthy(number) ==> color.Some?)
    && (IsWildSymbol(symbol) ==> color.None?)
  }

  /** A card as the program can hold it: built by the constructor, and only
      a wild card's colour ever changed since. */
  predicate Consistent(c: Card) {
    && ArgsAccepted(c.initColor, c.number, c.symbol)
    && (!IsWild(c) ==> c.color == c.initColor)
  }

  /** Card(color, number, symbol). */
  function NewCard(color: Option<string>, number: Option<string>, symbol: Option<string>): (r: Result<Card>)
    ensures r.Err? <==>
      || (number.None? && symbol.None?)
      || (Truthy(number) && color.None?)
      || (IsWildSymbol(symbol) && color.Some?)
    ensures r.Ok? ==>
      && r.value.color == color && r.value.number == number && r.value.symbol == symbol
      && Consistent(r.value)
      && (IsWild(r.value) ==> r.value.color.None?)
  {
    if ArgsAccepted(color, number, symbol) then Ok(Card(color, number, symbol, color))
    else Err(CardArgsRejected)
  }

  /** Card.__eq__ with `a` as self: a wild card compares symbols only, any
      other card compares colour, number and symbol. */
  predicate CardEq(a: Card, b: Card) {
    if IsWild(a) then a.symbol == b.symbol
    else a.color == b.color && a.number == b.number && a.symbol == b.symbol
  }

  /** card.copy(): a new card from the constructor arguments, so a colour
      bound to a wild card is dropped. */
  function Copy(c: Card): Card {
    c.(color := c.initColor)
  }

  /** `card.color = color`, as a strategy does to a wild card it picks. */
  function BindColor(c: Card, color: string): Card {
    c.(color := Some(color))
  }

  /** The colour with index `pick`, modulo the number of colours:
      random.choice(COLORS) as an arbitrary choice. */
  function ChooseColor(pick: nat): (color: string)
    ensures color in COLORS
  {
    COLORS[pick % |COLORS|]
  }

  /** is_wild holds exactly when the symbol starts with "wild"; is_action
      exactly for the four action symbols; wild-draw-4 is the only card that
      is both. */
  lemma Classification(symbol: string)
    ensures IsWildSymbol(Some(symbol)) <==> |symbol| >= 4 && symbol[..4] == "wild"
    ensures IsActionSymbol(Some(symbol)) <==>
      symbol == "skip" || symbol == "reverse" || symbol == "draw-2" || symbol == "wild-draw-4"
    ensures IsWildSymbol(Some(symbol)) && IsActionSymbol(Some(symbol)) <==> symbol == "wild-draw-4"
    ensures !IsWildSymbol(None) && !IsActionSymbol(None)
  {
    if IsActionSymbol(Some(symbol)) && symbol != "wild-draw-4" {
      assert symbol[0] != 'w';
    }
  }

  /** Card equality is an equivalence, so the order in which list.remove,
      list.count and `in` put their operands never matters. */
  lemma CardEqIsEquivalence(a: Card, b: Card, c: Card)
    ensures CardEq(a, a)
    ensures CardEq(a, b) ==> CardEq(b, a)
    ensures CardEq(a, b) && CardEq(b, c) ==> CardEq(a, c)
  {
  }

  /** Two wild cards are equal exactly when their symbols match, whatever
      colours were bound to them; two other cards need colour, number and
      symbol to match; a wild card never equals a non-wild one. */
  lemma CardEqCases(a: Card, b: Card, ka: Option<string>, kb: Option<string>)
    ensures IsWild(a) ==> (CardEq(a.(color := ka), b.(color := kb)) <==> a.symbol == b.symbol)
    ensures !IsWild(a) && !IsWild(b) ==>
      (CardEq(a, b) <==> a.color == b.color && a.number == b.number && a.symbol == b.symbol)
    ensures IsWild(a) != IsWild(b) ==> !CardEq(a, b) && !CardEq(b, a)
  {
  }

  /** Binding a colour to a card changes nothing it is equal to. */
  lemma BindKeepsEquality(c: Card, color: string, d: Card)
    requires IsWild(c)
    ensures CardEq(BindColor(c, color), d) == CardEq(c, d)
    ensures CardEq(d, BindColor(c, color)) == CardEq(d, c)
  {
  }

  /** copy() re-runs the constructor on the original arguments, which
      succeeds again and yields an equal card whose colour, for a wild card,
      is reset to none even after a colour was bound. */
  lemma CopyRebuilds(c: Card)
    requires Consistent(c)
    ensures NewCard(c.initColor, c.number, c.symbol) == Ok(Copy(c))
    ensures CardEq(Copy(c), c) && CardEq(c, Copy(c))
    ensures IsWild(c) ==> Copy(c).color.None?
    ensures !IsWild(c) ==> Copy(c) == c
    ensures Consistent(Copy(c))
  {
  }

  /** tests/test_card.py passes its second argument positionally, so it is
      the number: Card(None, "wild") is a colourless number card, which the
      constructor rejects, and Card("green", "reverse") is a green card whose
      number is "reverse" and which is no action card. */
  lemma PositionalTestArgs()
    ensures NewCard(None, Some("wild"), None) == Err(CardArgsRejected)
    ensures NewCard(Some("green"), Some("reverse"), None).Ok?
    ensures !IsAction(NewCard(Some("green"), Some("reverse"), None).value)
  {
  }
}
