/** How cards move: random.shuffle, the discard pile (`Pile`), the draw pile
    (`Deck`) and the `Dealer` that owns both and recycles the pile when the
    deck runs short. */
module CardFlow {
  import opened Outcomes
  import opened Cards
  import opened DefaultDeck

  /* ---------------------------------------------------------------- shuffle */

  function Swap(s: seq<Card>, i: nat, j: nat): (r: seq<Card>)
    requires i < |s| && j < |s|
    ensures |r| == |s| && multiset(r) == multiset(s)
    ensures r[i] == s[j] && r[j] == s[i]
  {
    s[i := s[j]][j := s[i]]
  }

  /** random.shuffle restricted to the first k positions: for i from k-1
      down to 1, swap position i with a position drawn from 0..i. The random
      source is an arbitrary function `rng`; `rng(i) % (i + 1)` is the
      position it draws for i, so every draw the source can make is some
      `rng`. */
  function ShuffleBelow(s: seq<Card>, k: nat, rng: nat -> nat): (r: seq<Card>)
    requires k <= |s|
    ensures |r| == |s|
    ensures multiset(r) == multiset(s)
    ensures r[k..] == s[k..]
    decreases k
  {
    if k <= 1 then s
    else ShuffleBelow(Swap(s, k - 1, rng(k - 1) % k), k - 1, rng)
  }

  /** random.shuffle: a permutation of its argument. */
  function Shuffle(s: seq<Card>, rng: nat -> nat): (r: seq<Card>)
    ensures |r| == |s| && multiset(r) == multiset(s)
  {
    ShuffleBelow(s, |s|, rng)
  }

  /* ------------------------------------------------------------------- pile */

  /** The copies `[card.copy() for card in cards]`. */
  function Copies(cards: seq<Card>): (r: seq<Card>)
    ensures |r| == |cards|
  {
    seq(|cards|, i requires 0 <= i < |cards| => Copy(cards[i]))
  }

  function Last(s: seq<Card>): Card
    requires s != []
  {
    s[|s| - 1]
  }

  datatype Recycled = Recycled(cards: seq<Card>, pile: seq<Card>)

  /** Pile.recycle: keep the top card as the whole new pile and hand back
      colour-reset copies of the cards under it, bottom first. */
  function Recycle(pile: seq<Card>): (r: Result<Recycled>)
    ensures r.Err? <==> pile == []
    ensures r.Ok? ==>
      && r.value.pile == [Last(pile)]
      && |r.value.cards| + |r.value.pile| == |pile|
      && (forall i :: 0 <= i < |pile| - 1 ==> r.value.cards[i] == Copy(pile[i]))
  {
    if pile == [] then Err(EmptyPile)
    else Ok(Recycled(Copies(pile[..|pile| - 1]), [Last(pile)]))
  }

  /** Recycling forgets every colour bound to a wild card and keeps each
      card equal to the one it replaces. */
  lemma RecycleResetsWildColors(pile: seq<Card>, i: nat)
    requires pile != [] && i < |pile| - 1
    requires Consistent(pile[i])
    ensures Recycle(pile).Ok?
    ensures var c := Recycle(pile).value.cards[i];
      && CardEq(c, pile[i]) && Consistent(c)
      && (IsWild(c) ==> c.color.None?)
  {
    CopyRebuilds(pile[i]);
  }

  /* ------------------------------------------------------------------- deck */

  /** Where Python's slice `xs[-n:]` starts in a list of length `len`. */
  function SuffixStart(len: nat, n: int): (start: nat)
    ensures start <= len
    ensures 0 < n <= len ==> start == len - n
    ensures n == 0 ==> start == 0
  {
    if n > 0 then (if n <= len then len - n else 0)
    else if n == 0 then 0
    else if -n <= len then -n
    else len
  }

  datatype Drawn = Drawn(cards: seq<Card>, rest: seq<Card>)

  /** Deck.draw(n): assert the deck holds n cards, then cut `cards[-n:]`
      off the end of the list. */
  function DeckDraw(deck: seq<Card>, n: int): (r: Result<Drawn>)
    ensures r.Err? <==> n > |deck|
    ensures r.Ok? ==> r.value.rest + r.value.cards == deck
    ensures r.Ok? && n >= 1 ==> |r.value.cards| == n
    ensures r.Ok? && n == 0 ==> r.value.cards == deck && r.value.rest == []
  {
    if |deck| < n then Err(NotEnoughCards)
    else
      var start := SuffixStart(|deck|, n);
      Ok(Drawn(deck[start..], deck[..start]))
  }

  /** Deck.refill: only an empty deck may be refilled; the result is a
      shuffle of the given cards. */
  function Refill(deck: seq<Card>, cards: seq<Card>, rng: nat -> nat): (r: Result<seq<Card>>)
    ensures r.Err? <==> deck != []
    ensures r.Ok? ==> |r.value| == |cards| && multiset(r.value) == multiset(cards)
  {
    if deck != [] then Err(DeckNotEmpty)
    else Ok(Shuffle(deck + cards, rng))
  }

  /** Deck(): the default deck, shuffled. */
  function NewDeck(rng: nat -> nat): (deck: seq<Card>)
    ensures |deck| == 108
    ensures multiset(deck) == multiset(GenerateDefaultDeck())
  {
    DefaultDeckComposition();
    Shuffle(GenerateDefaultDeck(), rng)
  }

  /* ----------------------------------------------------------------- dealer */

  datatype Dealer = Dealer(deck: seq<Card>, pile: seq<Card>)

  datatype Dealt = Dealt(cards: seq<Card>, dealer: Dealer)

  /** Dealer.draw(n): take n cards from the deck; when it holds fewer, take
      all it has, recycle the pile into it and take the rest from there. */
  function DealerDraw(d: Dealer, n: int, rng: nat -> nat): (r: Result<Dealt>)
    ensures r.Ok? <==> n <= |d.deck| || (d.pile != [] && n - |d.deck| <= |d.pile| - 1)
    ensures r.Ok? ==> |r.value.cards| + |r.value.dealer.deck| + |r.value.dealer.pile| == |d.deck| + |d.pile|
    ensures r.Ok? && n >= 1 ==> |r.value.cards| == n
    ensures r.Ok? && d.pile != [] ==> r.value.dealer.pile != [] && Last(r.value.dealer.pile) == Last(d.pile)
    ensures r.Ok? && n <= |d.deck| ==>
      r.value.dealer.pile == d.pile && r.value.dealer.deck + r.value.cards == d.deck
    ensures r.Ok? && n > |d.deck| ==>
      && r.value.cards[..|d.deck|] == d.deck
      && r.value.dealer.pile == [Last(d.pile)]
      && multiset(r.value.cards[|d.deck|..]) + multiset(r.value.dealer.deck)
         == multiset(Copies(d.pile[..|d.pile| - 1]))
  {
    if n <= |d.deck| then
      var x := DeckDraw(d.deck, n).value;
      Ok(Dealt(x.cards, d.(deck := x.rest)))
    else
      RecyclingDraw(d, n, rng)
  }

  /** The branch of Dealer.draw for a deck too short: its cards first, then
      the rest from the recycled pile. */
  function RecyclingDraw(d: Dealer, n: int, rng: nat -> nat): (r: Result<Dealt>)
    requires n > |d.deck|
    ensures r.Ok? <==> d.pile != [] && n - |d.deck| <= |d.pile| - 1
    ensures r.Err? ==> r.error == (if d.pile == [] then EmptyPile else NotEnoughCards)
    ensures r.Ok? ==>
      && |r.value.cards| == n
      && |r.value.cards| + |r.value.dealer.deck| + |r.value.dealer.pile| == |d.deck| + |d.pile|
      && r.value.cards[..|d.deck|] == d.deck
      && r.value.dealer.pile == [Last(d.pile)]
      && multiset(r.value.cards[|d.deck|..]) + multiset(r.value.dealer.deck)
         == multiset(Copies(d.pile[..|d.pile| - 1]))
  {
    var first := DeckDraw(d.deck, |d.deck|).value;
    var recycled :- Recycle(d.pile);
    var refilled := Refill(first.rest, recycled.cards, rng).value;
    var second :- DeckDraw(refilled, n - |d.deck|);
    assert (first.cards + second.cards)[|d.deck|..] == second.cards;
    Ok(Dealt(first.cards + second.cards, Dealer(second.rest, recycled.pile)))
  }

  /** Dealer.draw fails on an empty pile when it has to recycle, and
      otherwise only when the deck and the pile under the top card together
      hold too few cards. */
  lemma DealerDrawFailure(d: Dealer, n: int, rng: nat -> nat)
    ensures DealerDraw(d, n, rng).Err? ==>
      DealerDraw(d, n, rng).error == (if d.pile == [] then EmptyPile else NotEnoughCards)
  {
  }

  /** Dealer.discard. */
  function Discard(d: Dealer, card: Card): Dealer {
    d.(pile := d.pile + [card])
  }

  /** Dealer.get_top_card: the last discarded card. */
  function TopCard(d: Dealer): (r: Result<Card>)
    ensures r.Err? <==> d.pile == []
    ensures r.Ok? ==> r.value == Last(d.pile)
  {
    if d.pile == [] then Err(EmptyPile) else Ok(Last(d.pile))
  }

  /** What was discarded last is the top card, the deck is untouched and
      the pile grows by one. */
  lemma DiscardThenTop(d: Dealer, card: Card)
    ensures TopCard(Discard(d, card)) == Ok(card)
    ensures Discard(d, card).deck == d.deck
    ensures |Discard(d, card).pile| == |d.pile| + 1
    ensures Discard(d, card).pile[..|d.pile|] == d.pile
  {
  }

  /** Dealer.flip_initial_card: draw one card and discard it. */
  function FlipInitialCard(d: Dealer, rng: nat -> nat): (r: Result<Dealer>)
    ensures r.Ok? <==> |d.deck| >= 1 || |d.pile| >= 2
    ensures r.Ok? ==> |r.value.deck| + |r.value.pile| == |d.deck| + |d.pile|
    ensures r.Ok? && |d.deck| >= 1 ==>
      r.value.pile == d.pile + [Last(d.deck)] && r.value.deck == d.deck[..|d.deck| - 1]
  {
    var x :- DealerDraw(d, 1, rng);
    Ok(Discard(x.dealer, x.cards[0]))
  }

  /** The hands stacked as they lay in the deck: the first hand on top. */
  function StackedHands(hands: seq<seq<Card>>): seq<Card> {
    if hands == [] then [] else StackedHands(hands[1..]) + hands[0]
  }

  datatype InitialHands = InitialHands(hands: seq<seq<Card>>, rest: seq<Card>)

  /** Dealer.draw_initial_hands: for each of `players` seats in turn, one
      Deck.draw(n) (straight from the deck, with no recycling), so the first
      seat gets the n top cards, the second the n below them, and so on. */
  function DrawInitialHands(deck: seq<Card>, players: nat, n: int): (r: Result<InitialHands>)
    ensures n >= 1 ==> (r.Ok? <==> players * n <= |deck|)
    ensures r.Ok? ==> |r.value.hands| == players
    ensures r.Ok? ==> r.value.rest + StackedHands(r.value.hands) == deck
    ensures r.Ok? && n >= 1 ==> forall i :: 0 <= i < players ==> |r.value.hands[i]| == n
    decreases players
  {
    if players == 0 then Ok(InitialHands([], deck))
    else
      var hand :- DeckDraw(deck, n);
      var others :- DrawInitialHands(hand.rest, players - 1, n);
      var hands := [hand.cards] + others.hands;
      assert hands[1..] == others.hands;
      assert players * n == n + (players - 1) * n;
      Ok(InitialHands(hands, others.rest))
  }
}
