/** The game state between turns of uno/_game.py: the dealer, the seating
    order and one hand per seat, with execute_card_action. */
module Game {
  import opened Outcomes
  import opened Cards
  import opened DefaultDeck
  import opened CardFlow
  import opened Hands
  import opened TurnOrder

  /** The players' hands are indexed by seat. */
  datatype GameState = GameState(dealer: Dealer, players: Players, hands: seq<seq<Card>>)

  predicate WellFormed(g: GameState) {
    Valid(g.players) && |g.hands| == g.players.count
  }

  function HandTotal(hands: seq<seq<Card>>): nat {
    if hands == [] then 0 else |hands[0]| + HandTotal(hands[1..])
  }

  lemma {:induction false} HandTotalUpdate(hands: seq<seq<Card>>, i: nat, h: seq<Card>)
    requires i < |hands|
    ensures HandTotal(hands[i := h]) + |hands[i]| == HandTotal(hands) + |h|
    decreases |hands|
  {
    if i > 0 {
      assert hands[i := h][1..] == hands[1..][i - 1 := h];
      HandTotalUpdate(hands[1..], i - 1, h);
    }
  }

  /** Every card in the game: deck, pile and hands. */
  function TotalCards(g: GameState): nat {
    |g.dealer.deck| + |g.dealer.pile| + HandTotal(g.hands)
  }

  /* -------------------------------------------------------------- freshness */

  /** A wild card of the default deck: "wild" or "wild-draw-4". Every card
      in play comes from that deck. */
  predicate KnownWild(c: Card) {
    IsWild(c) ==> c.symbol == Some("wild") || IsWildDraw4Symbol(c.symbol)
  }

  /** A card the game can hold: consistent, of a kind the default deck
      has, and possibly with a colour a strategy bound to it. */
  predicate Sound(c: Card) {
    Consistent(c) && KnownWild(c)
  }

  /** A card as the constructor or copy() leaves it: sound, and without a
      colour when it is wild. Only a card a strategy has picked carries a
      bound colour. */
  predicate Fresh(c: Card) {
    Sound(c) && (IsWild(c) ==> c.color.None?)
  }

  predicate AllFresh(s: seq<Card>) {
    forall i :: 0 <= i < |s| ==> Fresh(s[i])
  }

  predicate AllSound(s: seq<Card>) {
    forall i :: 0 <= i < |s| ==> Sound(s[i])
  }

  predicate FreshHands(g: GameState) {
    forall i :: 0 <= i < |g.hands| ==> AllFresh(g.hands[i])
  }

  /** What holds of every state the loop of Game.run reaches with
      Player.play as written: fresh cards in the deck, sound cards in the
      hands and on the pile, and a top card. A hand may keep a wild card
      with a bound colour. */
  predicate Inv(g: GameState) {
    && WellFormed(g)
    && AllFresh(g.dealer.deck)
    && (forall i :: 0 <= i < |g.hands| ==> AllSound(g.hands[i]))
    && AllSound(g.dealer.pile)
    && g.dealer.pile != []
  }

  /** What the loop keeps with the corrected Player.play: also no hand
      holds a bound colour. */
  predicate FreshInv(g: GameState) {
    Inv(g) && FreshHands(g)
  }

  lemma SoundByMultiset(a: seq<Card>, b: seq<Card>)
    requires AllSound(b) && multiset(a) <= multiset(b)
    ensures AllSound(a)
  {
    forall i | 0 <= i < |a| ensures Sound(a[i]) {
      assert a[i] in multiset(a);
      assert a[i] in multiset(b);
      var j :| 0 <= j < |b| && b[j] == a[i];
    }
  }

  lemma FreshByMultiset(a: seq<Card>, b: seq<Card>)
    requires AllFresh(b) && multiset(a) <= multiset(b)
    ensures AllFresh(a)
  {
    forall i | 0 <= i < |a| ensures Fresh(a[i]) {
      assert a[i] in multiset(a);
      assert a[i] in multiset(b);
      var j :| 0 <= j < |b| && b[j] == a[i];
    }
  }

  /** A hand without bound colours is its own list of copies, so the copy
      Game.run keeps for check_legal sees the same cards the hand holds. */
  lemma CopiesOfFreshCards(s: seq<Card>)
    requires AllFresh(s)
    ensures Copies(s) == s
  {
    forall i | 0 <= i < |s| ensures Copies(s)[i] == s[i] {
      CopyRebuilds(s[i]);
    }
  }

  /** The recycled copies of sound cards are fresh. */
  lemma CopiesFresh(s: seq<Card>)
    requires AllSound(s)
    ensures AllFresh(Copies(s))
  {
    forall i | 0 <= i < |s| ensures Fresh(Copies(s)[i]) {
      CopyRebuilds(s[i]);
    }
  }

  /** The default deck holds only fresh cards. */
  lemma NewDeckFresh(rng: nat -> nat)
    ensures AllFresh(NewDeck(rng))
  {
    var deck := GenerateDefaultDeck();
    DefaultDeckComposition();
    forall i | 0 <= i < |deck| ensures Fresh(deck[i]) {
      assert deck[i] in deck;
    }
    FreshByMultiset(NewDeck(rng), deck);
  }

  /** Dealer.draw hands out fresh cards and keeps the deck fresh and the
      pile sound, recycling included. */
  lemma DealerDrawFresh(d: Dealer, n: int, rng: nat -> nat)
    requires AllFresh(d.deck) && AllSound(d.pile)
    requires DealerDraw(d, n, rng).Ok?
    ensures var x := DealerDraw(d, n, rng).value;
      AllFresh(x.cards) && AllFresh(x.dealer.deck) && AllSound(x.dealer.pile)
  {
    var r := DealerDraw(d, n, rng);
    if n <= |d.deck| {
      SplitFresh(d.deck, r.value.dealer.deck, r.value.cards);
    } else {
      assert r == RecyclingDraw(d, n, rng);
      RecycledDrawFresh(d, r.value);
    }
  }

  /** The facts Dealer.draw states about a recycling draw are enough for
      freshness. */
  lemma RecycledDrawFresh(d: Dealer, x: Dealt)
    requires AllFresh(d.deck) && AllSound(d.pile) && d.pile != []
    requires |d.deck| <= |x.cards| && x.cards[..|d.deck|] == d.deck
    requires x.dealer.pile == [Last(d.pile)]
    requires multiset(x.cards[|d.deck|..]) + multiset(x.dealer.deck) == multiset(Copies(d.pile[..|d.pile| - 1]))
    ensures AllFresh(x.cards) && AllFresh(x.dealer.deck) && AllSound(x.dealer.pile)
  {
    var under := d.pile[..|d.pile| - 1];
    assert AllSound(under);
    CopiesFresh(under);
    DrawnFromRecycledFresh(d.deck, Copies(under), x.cards, x.dealer.deck);
  }

  lemma SplitFresh(s: seq<Card>, a: seq<Card>, b: seq<Card>)
    requires AllFresh(s) && a + b == s
    ensures AllFresh(a) && AllFresh(b)
  {
    forall i | 0 <= i < |a| ensures Fresh(a[i]) {
      assert a[i] == s[i];
    }
    forall i | 0 <= i < |b| ensures Fresh(b[i]) {
      assert b[i] == s[|a| + i];
    }
  }

  /** The cards of a recycling draw: the whole deck, then cards that, with
      the new deck, are the recycled copies. */
  lemma DrawnFromRecycledFresh(deck: seq<Card>, copies: seq<Card>, cards: seq<Card>, rest: seq<Card>)
    requires AllFresh(deck) && AllFresh(copies)
    requires |deck| <= |cards| && cards[..|deck|] == deck
    requires multiset(cards[|deck|..]) + multiset(rest) == multiset(copies)
    ensures AllFresh(cards) && AllFresh(rest)
  {
    var later := cards[|deck|..];
    FreshByMultiset(later, copies);
    FreshByMultiset(rest, copies);
    forall i | 0 <= i < |cards| ensures Fresh(cards[i]) {
      if i < |deck| {
        assert cards[..|deck|][i] == cards[i];
      } else {
        assert later[i - |deck|] == cards[i];
      }
    }
  }

  /* ------------------------------------------------------------ card action */

  /** n_lookup: the cards a draw-2 or wild-draw-4 hands out. */
  function Penalty(symbol: Option<string>): nat {
    if symbol == Some("draw-2") then 2 else 4
  }

  predicate IsPenalty(card: Card) {
    card.symbol == Some("draw-2") || card.symbol == Some("wild-draw-4")
  }

  /** print_turn_info, called after skip and after the penalised player is
      chosen, reads the top card, which asserts a non-empty pile. */
  function TurnInfo(d: Dealer): (r: Result<()>)
    ensures r.Ok? <==> d.pile != []
  {
    var _ :- TopCard(d);
    Ok(())
  }

  /** execute_card_action: reverse flips the direction; skip passes over one
      player; draw-2 and wild-draw-4 hand 2 and 4 cards to the next player,
      who then also loses the turn. */
  function ExecuteCardAction(card: Card, g: GameState, rng: nat -> nat): (r: Result<GameState>)
    requires WellFormed(g)
    ensures !IsAction(card) ==> r == Err(NotAnAction)
    ensures r.Ok? ==> WellFormed(r.value) && TotalCards(r.value) == TotalCards(g)
    ensures r.Ok? ==> r.value.players.count == g.players.count
    ensures card.symbol == Some("reverse") ==>
      && r.Ok? && r.value.dealer == g.dealer && r.value.hands == g.hands
      && r.value.players.reversed == !g.players.reversed
      && r.value.players.current == g.players.current && r.value.players.turn == g.players.turn
    ensures card.symbol == Some("skip") ==>
      && (r.Ok? <==> g.dealer.pile != [])
      && (r.Ok? ==>
            && r.value.dealer == g.dealer && r.value.hands == g.hands
            && r.value.players.reversed == g.players.reversed
            && r.value.players.turn == g.players.turn + 1
            && r.value.players.current == Some(Around(Anchor(g.players), 1, g.players.reversed, g.players.count)))
    ensures IsPenalty(card) && r.Ok? ==>
      var v := Around(Anchor(g.players), 1, g.players.reversed, g.players.count);
      && r.value.players.current == Some(v)
      && r.value.players.reversed == g.players.reversed
      && r.value.players.turn == g.players.turn + 1
      && |r.value.hands[v]| == |g.hands[v]| + Penalty(card.symbol)
      && r.value.hands[v][..|g.hands[v]|] == g.hands[v]
      && (forall j :: 0 <= j < |g.hands| && j != v ==> r.value.hands[j] == g.hands[j])
    ensures r.Err? ==> r.error == NotAnAction || r.error == EmptyPile || r.error == NotEnoughCards
    ensures r.Ok? && g.dealer.pile != [] ==>
      r.value.dealer.pile != [] && Last(r.value.dealer.pile) == Last(g.dealer.pile)
  {
    if !IsAction(card) then Err(NotAnAction)
    else if card.symbol == Some("reverse") then
      Ok(g.(players := Reverse(g.players)))
    else if card.symbol == Some("skip") then
      var players := Skip(g.players);
      var _ :- TurnInfo(g.dealer);
      Ok(g.(players := players))
    else
      Penalize(Penalty(card.symbol), g, rng)
  }

  /** The draw-2 and wild-draw-4 branch of execute_card_action: the next
      player becomes current and takes n cards from the dealer. */
  function Penalize(n: nat, g: GameState, rng: nat -> nat): (r: Result<GameState>)
    requires WellFormed(g) && n >= 1
    ensures r.Ok? ==> WellFormed(r.value) && TotalCards(r.value) == TotalCards(g)
    ensures r.Ok? ==> r.value.players.count == g.players.count
    ensures r.Ok? ==>
      var v := Around(Anchor(g.players), 1, g.players.reversed, g.players.count);
      && r.value.players.current == Some(v)
      && r.value.players.reversed == g.players.reversed
      && r.value.players.turn == g.players.turn + 1
      && |r.value.hands[v]| == |g.hands[v]| + n
      && r.value.hands[v][..|g.hands[v]|] == g.hands[v]
      && (forall j :: 0 <= j < |g.hands| && j != v ==> r.value.hands[j] == g.hands[j])
    ensures r.Err? ==> r.error == (if g.dealer.pile == [] then EmptyPile else NotEnoughCards)
    ensures r.Err? <==> g.dealer.pile == [] || n > |g.dealer.deck| + |g.dealer.pile| - 1
    ensures r.Ok? ==> r.value.dealer.pile != [] && Last(r.value.dealer.pile) == Last(g.dealer.pile)
  {
    var t := Next(g.players);
    var _ :- TurnInfo(g.dealer);
    DealerDrawFailure(g.dealer, n, rng);
    var drawn :- DealerDraw(g.dealer, n, rng);
    var hand := Take(g.hands[t.seat], drawn.cards).value;
    HandTotalUpdate(g.hands, t.seat, hand);
    Ok(GameState(drawn.dealer, t.players, g.hands[t.seat := hand]))
  }

  /** The card action keeps the invariant, and keeps the hands fresh when
      they were: the only cards it adds to a hand come from the dealer. */
  lemma ExecuteCardActionKeepsInv(card: Card, g: GameState, rng: nat -> nat)
    requires Inv(g)
    requires ExecuteCardAction(card, g, rng).Ok?
    ensures Inv(ExecuteCardAction(card, g, rng).value)
    ensures FreshHands(g) ==> FreshHands(ExecuteCardAction(card, g, rng).value)
  {
    if IsAction(card) && card.symbol != Some("reverse") && card.symbol != Some("skip") {
      PenalizeKeepsInv(Penalty(card.symbol), g, rng);
    }
  }

  lemma PenalizeKeepsInv(n: nat, g: GameState, rng: nat -> nat)
    requires Inv(g) && n >= 1
    requires Penalize(n, g, rng).Ok?
    ensures Inv(Penalize(n, g, rng).value)
    ensures FreshHands(g) ==> FreshHands(Penalize(n, g, rng).value)
  {
    var t := Next(g.players);
    DealerDrawFresh(g.dealer, n, rng);
    var drawn := DealerDraw(g.dealer, n, rng).value;
    var hand := Take(g.hands[t.seat], drawn.cards).value;
    assert hand == g.hands[t.seat] + drawn.cards;
    assert Penalize(n, g, rng).value == GameState(drawn.dealer, t.players, g.hands[t.seat := hand]);
    assert AllSound(hand);
  }

  /** With a top card on the pile, the card action fails only when the
      dealer runs out of cards, and never on an action card. */
  lemma ExecuteCardActionFailure(card: Card, g: GameState, rng: nat -> nat)
    requires WellFormed(g) && g.dealer.pile != [] && IsAction(card)
    ensures ExecuteCardAction(card, g, rng).Err? ==>
      && ExecuteCardAction(card, g, rng).error == NotEnoughCards
      && Penalty(card.symbol) > |g.dealer.deck| + |g.dealer.pile| - 1
  {
  }
}
