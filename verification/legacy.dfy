/** The earlier single-file engine, uno.py. Its card constructor and card
    flow (Pile, Deck, Dealer) follow the same steps as the package's, and
    those are modelled once, in Cards and CardFlow. Its turn loop is not
    modelled: unlike the package's, it runs a card's action right after the
    discard and before the game-over test, so a winning draw-2 still hands
    cards to the next player. This module models what uno.py does
    differently:
      - Card is a `@dataclass` without annotated fields, so the generated
        `__eq__` compares two empty tuples and any two cards are equal;
      - the filter has no rule making a plain wild legal on anything;
      - select_card filters the whole hand, whatever playable cards it is
        given;
      - Players is a bare `itertools.cycle`, reverse() consumes one lap of it;
      - execute_card_action always takes one more player from the cycle
        after reverse or skip, and penalises that player. */
module Legacy {
  import opened Outcomes
  import opened Cards
  import opened Legality
  import opened CardFlow
  import Hands
  import TurnOrder
  import Game

  /* ------------------------------------------------------------- equality */

  /** Card equality in uno.py: the dataclass `__eq__` over no fields. */
  predicate DataclassEq(a: Card, b: Card) {
    true
  }

  /** `list.remove(x)`: drop the first card equal to x, which under
      dataclass equality is the first card of the list. */
  function Remove(s: seq<Card>, x: Card): (r: Result<seq<Card>>)
    ensures r.Err? <==> forall i :: 0 <= i < |s| ==> !DataclassEq(s[i], x)
    ensures r.Err? ==> r.error == NotInHand
    ensures r.Ok? ==> |r.value| + 1 == |s| && multiset(r.value) + multiset{s[0]} == multiset(s)
    ensures r.Ok? ==> forall i :: 0 <= i < |r.value| ==> r.value[i] == s[i + 1]
  {
    if s == [] then Err(NotInHand)
    else
      assert s == [s[0]] + s[1..];
      Ok(s[1..])
  }

  /** `x in s`. */
  function Contains(s: seq<Card>, x: Card): (b: bool)
    ensures b <==> exists i :: 0 <= i < |s| && DataclassEq(s[i], x)
  {
    if s == [] then false
    else
      assert DataclassEq(s[0], x);
      true
  }

  /** When the list starts with a card the package would call equal, both
      versions of remove agree. */
  lemma RemoveAgreesOnFirst(s: seq<Card>, x: Card)
    requires s != [] && CardEq(s[0], x)
    ensures Remove(s, x) == Hands.Remove(s, x)
  {
    var r := Hands.Remove(s, x);
    assert r.Ok?;
    var i :| 0 <= i < |s| && CardEq(s[i], x) && (forall j :: 0 <= j < i ==> !CardEq(s[j], x)) && r.value == s[..i] + s[i + 1..];
    assert i == 0;
    assert s[..0] + s[1..] == s[1..];
  }

  /** Otherwise they differ: asked to remove a blue 7 from [red 5, blue 7],
      uno.py drops the red 5, the package the blue 7. */
  lemma RemoveDropsOtherCard()
    ensures
      var red5 := Card(Some("red"), Some("5"), None, Some("red"));
      var blue7 := Card(Some("blue"), Some("7"), None, Some("blue"));
      && Remove([red5, blue7], blue7) == Ok([blue7])
      && Hands.Remove([red5, blue7], blue7) == Ok([red5])
  {
    var red5 := Card(Some("red"), Some("5"), None, Some("red"));
    var blue7 := Card(Some("blue"), Some("7"), None, Some("blue"));
    var r := Hands.Remove([red5, blue7], blue7);
    assert !CardEq(red5, blue7);
    assert CardEq(blue7, blue7);
    var i :| 0 <= i < 2 && CardEq([red5, blue7][i], blue7) && (forall j :: 0 <= j < i ==> !CardEq([red5, blue7][j], blue7)) && r.value == [red5, blue7][..i] + [red5, blue7][i + 1..];
    assert i == 1;
    assert [red5, blue7][..1] + [red5, blue7][2..] == [red5];
  }

  /* --------------------------------------------------------------- filter */

  /** filter_legal_cards of uno.py: the package's loop without the rule that
      a plain wild is legal on anything. */
  function LegalCards(cards: seq<Card>, top: Card): seq<Card> {
    FilterRule(cards, top, false)
  }

  /** What the filter keeps, position by position: a wild-draw-4 card exactly
      when no card matches the top card's colour, any other card exactly when
      its number, symbol or colour matches; an unbound plain wild therefore
      only on another wild, where the package keeps it everywhere. */
  lemma LegalCardsPositions(cards: seq<Card>, top: Card, p: nat)
    requires p < |cards|
    ensures IsWildDraw4Symbol(cards[p].symbol) ==>
      (p in FilterPositions(cards, top, false) <==> !HasColorMatch(cards, top))
    ensures !IsWildDraw4Symbol(cards[p].symbol) ==>
      (p in FilterPositions(cards, top, false) <==>
        EqualAndNotNone(top.number, cards[p].number)
        || EqualAndNotNone(cards[p].symbol, top.symbol)
        || EqualAndNotNone(cards[p].color, top.color))
    ensures cards[p].symbol == Some("wild") && cards[p].color.None? && cards[p].number.None? ==>
      && (p in FilterPositions(cards, top, false) <==> top.symbol == Some("wild"))
      && p in FilterPositions(cards, top, true)
  {
  }

  /** The filter's result is non-empty exactly when some position is legal. */
  lemma LegalCardsNonEmpty(cards: seq<Card>, top: Card)
    ensures LegalCards(cards, top) != [] <==> exists p :: 0 <= p < |cards| && LegalAt(cards, top, false, p)
  {
    var ps := FilterPositions(cards, top, false);
    if ps != [] {
      assert ps[0] in ps;
      assert LegalAt(cards, top, false, ps[0]);
    }
  }

  /* ---------------------------------------------------------------- Player */

  /** Player.select_card of uno.py: asserts a non-empty hand, filters the whole
      hand (the playable cards it is passed are never read), returns None when
      nothing is legal and otherwise the card the strategy picks, as a position
      in the hand. */
  function SelectCard(hand: seq<Card>, top: Card, choice: Hands.Choice): (r: Result<Option<nat>>)
    ensures r.Err? <==> hand == []
    ensures r.Err? ==> r.error == EmptyHand
    ensures r == Ok(None) <==> hand != [] && forall p :: 0 <= p < |hand| ==> !LegalAt(hand, top, false, p)
    ensures r.Ok? && r.value.Some? ==> r.value.value < |hand| && LegalAt(hand, top, false, r.value.value)
  {
    if hand == [] then Err(EmptyHand)
    else
      var ps := FilterPositions(hand, top, false);
      if ps == [] then Ok(None)
      else
        var h := ps[choice.card % |ps|];
        assert h in ps;
        Ok(Some(h))
  }

  /** Every legal card of the hand is some choice's pick. */
  lemma SelectReachesEveryLegal(hand: seq<Card>, top: Card, h: nat)
    requires h < |hand| && LegalAt(hand, top, false, h)
    ensures exists k: nat :: SelectCard(hand, top, Hands.Choice(k, 0)) == Ok(Some(h))
  {
    var ps := FilterPositions(hand, top, false);
    assert h in ps;
    var k :| 0 <= k < |ps| && ps[k] == h;
    assert k % |ps| == k;
    assert SelectCard(hand, top, Hands.Choice(k, 0)) == Ok(Some(h));
  }

  /** Player.play of uno.py: the strategy binds a wild's colour on the hand's
      own card, then `hand.remove(card)` drops the hand's first card. */
  function Play(hand: seq<Card>, top: Card, choice: Hands.Choice): (r: Result<Option<Hands.Played>>)
    ensures r.Err? <==> hand == []
    ensures r == Ok(None) <==> hand != [] && forall p :: 0 <= p < |hand| ==> !LegalAt(hand, top, false, p)
    ensures r.Ok? && r.value.Some? ==>
      var played := r.value.value;
      && |played.hand| + 1 == |hand|
      && (IsWild(played.card) ==> played.card.color.Some? && played.card.color.value in COLORS)
      && exists h :: 0 <= h < |hand| && LegalAt(hand, top, false, h)
           && Hands.PlayedAs(played.card, hand[h])
           && played.hand == hand[h := played.card][1..]
  {
    var pick :- SelectCard(hand, top, choice);
    match pick
    case None => Ok(None)
    case Some(h) =>
      var card := Hands.Bind(hand[h], choice);
      var held := hand[h := card];
      var rest := Remove(held, card).value;
      Ok(Some(Hands.Played(card, rest)))
  }

  /** Of a red 5 and a blue 7, only the blue 7 is legal on a blue 3, with or
      without the plain-wild rule. */
  lemma OnlySecondLegal(plainWildRule: bool)
    ensures
      var red5 := Card(Some("red"), Some("5"), None, Some("red"));
      var blue7 := Card(Some("blue"), Some("7"), None, Some("blue"));
      var blue3 := Card(Some("blue"), Some("3"), None, Some("blue"));
      var ps := FilterPositions([red5, blue7], blue3, plainWildRule);
      1 in ps && forall i :: 0 <= i < |ps| ==> ps[i] == 1
  {
    var red5 := Card(Some("red"), Some("5"), None, Some("red"));
    var blue7 := Card(Some("blue"), Some("7"), None, Some("blue"));
    var blue3 := Card(Some("blue"), Some("3"), None, Some("blue"));
    var hand := [red5, blue7];
    assert !LegalAt(hand, blue3, plainWildRule, 0);
    assert LegalAt(hand, blue3, plainWildRule, 1);
    var ps := FilterPositions(hand, blue3, plainWildRule);
    assert Below(ps, 2);
    assert 1 in ps && 0 !in ps;
    assert forall i :: 0 <= i < |ps| ==> ps[i] == 1;
  }

  /** The played card stays in the hand whenever it was not the first card:
      with a red 5 and a blue 7 on a blue 3, the blue 7 is played and kept and
      the red 5 is lost. */
  lemma PlayKeepsPlayedCard()
    ensures
      var red5 := Card(Some("red"), Some("5"), None, Some("red"));
      var blue7 := Card(Some("blue"), Some("7"), None, Some("blue"));
      var blue3 := Card(Some("blue"), Some("3"), None, Some("blue"));
      Play([red5, blue7], blue3, Hands.Choice(0, 0)) == Ok(Some(Hands.Played(blue7, [blue7])))
  {
    var red5 := Card(Some("red"), Some("5"), None, Some("red"));
    var blue7 := Card(Some("blue"), Some("7"), None, Some("blue"));
    var blue3 := Card(Some("blue"), Some("3"), None, Some("blue"));
    OnlySecondLegal(false);
    var ps := FilterPositions([red5, blue7], blue3, false);
    assert ps[0 % |ps|] == 1;
    assert SelectCard([red5, blue7], blue3, Hands.Choice(0, 0)) == Ok(Some(1));
    assert Hands.Bind(blue7, Hands.Choice(0, 0)) == blue7;
    assert [red5, blue7][1 := blue7][1..] == [blue7];
  }

  /** The package's player, on the same hand, keeps the red 5. */
  lemma PackagePlayKeepsOtherCard()
    ensures
      var red5 := Card(Some("red"), Some("5"), None, Some("red"));
      var blue7 := Card(Some("blue"), Some("7"), None, Some("blue"));
      var blue3 := Card(Some("blue"), Some("3"), None, Some("blue"));
      Hands.Play([red5, blue7], blue3, Hands.WholeHand, Hands.Choice(0, 0)) == Ok(Some(Hands.Played(blue7, [red5])))
  {
    var red5 := Card(Some("red"), Some("5"), None, Some("red"));
    var blue7 := Card(Some("blue"), Some("7"), None, Some("blue"));
    var blue3 := Card(Some("blue"), Some("3"), None, Some("blue"));
    OnlySecondLegal(true);
    var ps := FilterPositions([red5, blue7], blue3, true);
    assert ps[0 % |ps|] == 1;
    assert Hands.SelectCard([red5, blue7], blue3, Hands.Choice(0, 0)) == Some(1);
    assert Hands.Bind(blue7, Hands.Choice(0, 0)) == blue7;
    assert Hands.HandPosition([red5, blue7], Hands.WholeHand, 1) == Some(1);
    assert [red5, blue7][..1] + [red5, blue7][2..] == [red5];
  }

  /* ------------------------------------------------------------ check_legal */

  /** check_legal of uno.py: `card in legal_cards` holds as soon as the filter
      keeps anything, then a wild card must carry a colour. */
  function CheckLegal(card: Card, playable: seq<Card>, top: Card): (r: Result<()>)
    ensures r.Ok? <==>
      && (exists p :: 0 <= p < |playable| && LegalAt(playable, top, false, p))
      && (IsWild(card) ==> card.color.Some?)
    ensures r.Err? ==> r.error == IllegalPlay
  {
    LegalCardsNonEmpty(playable, top);
    if Contains(LegalCards(playable, top), card) && (IsWild(card) ==> card.color.Some?) then Ok(())
    else Err(IllegalPlay)
  }

  /** A card the filter never kept still passes: a red 5 against the
      playable [blue 7] on a blue 3, which the package rejects. */
  lemma CheckLegalAcceptsOtherCard()
    ensures
      var red5 := Card(Some("red"), Some("5"), None, Some("red"));
      var blue7 := Card(Some("blue"), Some("7"), None, Some("blue"));
      var blue3 := Card(Some("blue"), Some("3"), None, Some("blue"));
      && CheckLegal(red5, [blue7], blue3).Ok?
      && Legality.CheckLegal(red5, [blue7], blue3).Err?
  {
    var red5 := Card(Some("red"), Some("5"), None, Some("red"));
    var blue7 := Card(Some("blue"), Some("7"), None, Some("blue"));
    var blue3 := Card(Some("blue"), Some("3"), None, Some("blue"));
    assert LegalAt([blue7], blue3, false, 0);
    assert !CardEq([blue7][0], red5);
  }

  /* --------------------------------------------------------------- Players */

  /** Players of uno.py, as the state of the `itertools.cycle` it draws from:
      the list the cycle repeats and the position of its next value. */
  datatype Seating = Seating(count: nat, order: seq<nat>, pos: nat)

  predicate WellFormed(s: Seating) {
    && s.count >= 1 && |s.order| == s.count && s.pos < s.count
    && forall i :: 0 <= i < |s.order| ==> s.order[i] < s.count
  }

  /** From its position on, the cycle yields the seats after seat `a` in the
      direction `reversed`; `a` is the seat it yielded last. */
  predicate Yields(s: Seating, a: nat, reversed: bool) {
    && s.count >= 1 && a < s.count && s.pos < s.count
    && s.order == TurnOrder.Ring(a, s.pos, reversed, s.count)
  }

  /** check_players of uno.py: two to four players. */
  function CheckPlayers(count: nat): (r: Result<nat>)
    ensures r.Ok? <==> 2 <= count <= 4
    ensures r.Ok? ==> r.value == count
    ensures r.Err? ==> r.error == BadPlayerCount
  {
    if 2 <= count <= 4 then Ok(count) else Err(BadPlayerCount)
  }

  /** Players(players): the cycle over the seats in order, from seat 0, as if
      the last seat had just had its turn. */
  function NewSeating(count: nat): (r: Result<Seating>)
    ensures r.Ok? <==> 2 <= count <= 4
    ensures r.Ok? ==> r.value.count == count && Yields(r.value, count - 1, false)
  {
    var n :- CheckPlayers(count);
    var s := Seating(n, TurnOrder.SeatList(n), 0);
    assert s.order == TurnOrder.Ring(n - 1, 0, false, n);
    Ok(s)
  }

  datatype SeatTurn = SeatTurn(seating: Seating, seat: nat)

  /** Players.next: the cycle's next value. */
  function Next(s: Seating): (t: SeatTurn)
    requires WellFormed(s)
    ensures WellFormed(t.seating) && t.seating.count == s.count && t.seating.order == s.order
    ensures t.seat < s.count
    ensures forall a: nat, r: bool :: Yields(s, a, r) ==>
      t.seat == TurnOrder.Around(a, 1, r, s.count) && Yields(t.seating, t.seat, r)
  {
    NextKeepsYields(s);
    SeatTurn(s.(pos := if s.pos + 1 == s.count then 0 else s.pos + 1), s.order[s.pos])
  }

  lemma NextKeepsYields(s: Seating)
    requires WellFormed(s)
    ensures forall a: nat, r: bool :: Yields(s, a, r) ==>
      var q := s.(pos := if s.pos + 1 == s.count then 0 else s.pos + 1);
      && s.order[s.pos] == TurnOrder.Around(a, 1, r, s.count)
      && Yields(q, TurnOrder.Around(a, 1, r, s.count), r)
  {
    forall a: nat, r: bool | Yields(s, a, r)
      ensures s.order[s.pos] == TurnOrder.Around(a, 1, r, s.count)
      ensures Yields(s.(pos := if s.pos + 1 == s.count then 0 else s.pos + 1), TurnOrder.Around(a, 1, r, s.count), r)
    {
      TurnOrder.RingShift(a, s.pos, r, s.count);
    }
  }

  /** The values of k successive next() calls, and the cycle after them. */
  function Lap(s: Seating, k: nat): (r: seq<nat>)
    requires WellFormed(s)
    ensures |r| == k && forall i :: 0 <= i < k ==> r[i] < s.count
    decreases k
  {
    if k == 0 then [] else
      var t := Next(s);
      [t.seat] + Lap(t.seating, k - 1)
  }

  /** k successive next() calls yield the k seats after the last one yielded. */
  lemma {:induction false} LapSeats(s: Seating, a: nat, r: bool, k: nat)
    requires WellFormed(s) && Yields(s, a, r) && k <= s.count
    ensures forall i :: 0 <= i < k ==> Lap(s, k)[i] == TurnOrder.Around(a, i + 1, r, s.count)
    decreases k
  {
    if k > 0 {
      var t := Next(s);
      var b := TurnOrder.Around(a, 1, r, s.count);
      assert t.seat == b && Yields(t.seating, b, r);
      LapSeats(t.seating, b, r, k - 1);
      LapShift(a, r, s.count, k, Lap(t.seating, k - 1));
    }
  }

  /** The seats after the seat after a, behind that seat, are the seats
      after a. */
  lemma LapShift(a: nat, r: bool, n: nat, k: nat, rest: seq<nat>)
    requires a < n && 1 <= k <= n && |rest| == k - 1
    requires forall j :: 0 <= j < k - 1 ==> rest[j] == TurnOrder.Around(TurnOrder.Around(a, 1, r, n), j + 1, r, n)
    ensures forall i :: 0 <= i < k ==> ([TurnOrder.Around(a, 1, r, n)] + rest)[i] == TurnOrder.Around(a, i + 1, r, n)
  {
    forall i | 1 <= i < k
      ensures ([TurnOrder.Around(a, 1, r, n)] + rest)[i] == TurnOrder.Around(a, i + 1, r, n)
    {
      AroundStep(a, r, n, i);
    }
  }

  /** One step, then i more, is i + 1 steps. */
  lemma AroundStep(a: nat, r: bool, n: nat, i: nat)
    requires a < n && 1 <= i < n
    ensures TurnOrder.Around(TurnOrder.Around(a, 1, r, n), i, r, n) == TurnOrder.Around(a, i + 1, r, n)
  {
  }

  /** Players.reverse: take one lap of next() calls and cycle over it
      backwards, from its last value. */
  function Reverse(s: Seating): (q: Seating)
    requires WellFormed(s)
    ensures WellFormed(q) && q.count == s.count
    ensures forall a: nat, r: bool :: Yields(s, a, r) ==> Yields(q, TurnOrder.Around(a, 1, r, s.count), !r)
  {
    forall a: nat, r: bool | Yields(s, a, r)
      ensures Yields(Seating(s.count, TurnOrder.Reversed(Lap(s, s.count)), 0), TurnOrder.Around(a, 1, r, s.count), !r)
    {
      ReverseYields(s, a, r);
    }
    Seating(s.count, TurnOrder.Reversed(Lap(s, s.count)), 0)
  }

  lemma ReverseYields(s: Seating, a: nat, r: bool)
    requires WellFormed(s) && Yields(s, a, r)
    ensures Yields(Seating(s.count, TurnOrder.Reversed(Lap(s, s.count)), 0), TurnOrder.Around(a, 1, r, s.count), !r)
  {
    LapSeats(s, a, r, s.count);
    ReversedLap(a, r, s.count, Lap(s, s.count));
  }

  /** One lap read backwards is the ring, the other way round, anchored at
      the seat after a. */
  lemma ReversedLap(a: nat, r: bool, n: nat, lap: seq<nat>)
    requires a < n && |lap| == n
    requires forall i :: 0 <= i < n ==> lap[i] == TurnOrder.Around(a, i + 1, r, n)
    ensures TurnOrder.Reversed(lap) == TurnOrder.Ring(TurnOrder.Around(a, 1, r, n), 0, !r, n)
  {
    var b := TurnOrder.Around(a, 1, r, n);
    forall k | 0 <= k < n
      ensures TurnOrder.Reversed(lap)[k] == TurnOrder.Ring(b, 0, !r, n)[k]
    {
      BackStep(a, r, n, k);
    }
  }

  /** n - k steps one way from a end where k + 1 steps the other way from the
      seat after a do. */
  lemma BackStep(a: nat, r: bool, n: nat, k: nat)
    requires a < n && k < n
    ensures TurnOrder.Around(a, n - k, r, n) == TurnOrder.Around(TurnOrder.Around(a, 1, r, n), k + 1, !r, n)
  {
  }

  /** After reverse(), the first next() yields the seat that was yielded
      last, and play then runs the other way round. */
  lemma ReverseComesBack(s: Seating, a: nat, r: bool)
    requires WellFormed(s) && Yields(s, a, r)
    ensures Next(Reverse(s)).seat == a
    ensures Yields(Next(Reverse(s)).seating, a, !r)
  {
    var b := TurnOrder.Around(a, 1, r, s.count);
    assert Yields(Reverse(s), b, !r);
  }

  /** On a fresh cycle that seat is the last one: reverse() before any turn
      gives the first turn to seat count - 1. */
  lemma FreshReverseStartsAtLastSeat(count: nat)
    requires 2 <= count <= 4
    ensures NewSeating(count).Ok?
    ensures Next(Reverse(NewSeating(count).value)).seat == count - 1
  {
    ReverseComesBack(NewSeating(count).value, count - 1, false);
  }

  /** Players.skip: one next() whose player is passed over. */
  function Skip(s: Seating): (q: Seating)
    requires WellFormed(s)
    ensures WellFormed(q) && q.count == s.count
    ensures forall a: nat, r: bool :: Yields(s, a, r) ==> Yields(q, TurnOrder.Around(a, 1, r, s.count), r)
  {
    Next(s).seating
  }

  /* ---------------------------------------------------- execute_card_action */

  datatype State = State(dealer: Dealer, seating: Seating, hands: seq<seq<Card>>)

  predicate StateOk(g: State) {
    WellFormed(g.seating) && |g.hands| == g.seating.count
  }

  /** The state after the action, and the player the extra next() yielded. */
  datatype Acted = Acted(state: State, seat: nat)

  /** execute_card_action of uno.py: asserts an action card; reverse() or
      skip(), then in every case one more next(); a draw-2 or wild-draw-4
      then makes that player take two or four cards from the dealer. */
  function ExecuteCardAction(card: Card, g: State, rng: nat -> nat): (r: Result<Acted>)
    requires StateOk(g)
    ensures !IsAction(card) ==> r == Err(NotAnAction)
    ensures IsAction(card) && !Game.IsPenalty(card) ==> r.Ok? && r.value.state.dealer == g.dealer && r.value.state.hands == g.hands
    ensures r.Ok? ==> StateOk(r.value.state) && r.value.state.seating.count == g.seating.count
    ensures r.Ok? && Game.IsPenalty(card) ==>
      && r.value.seat < |g.hands|
      && |r.value.state.hands| == |g.hands|
      && |r.value.state.hands[r.value.seat]| == |g.hands[r.value.seat]| + Game.Penalty(card.symbol)
      && r.value.state.hands[r.value.seat][..|g.hands[r.value.seat]|] == g.hands[r.value.seat]
      && (forall i :: 0 <= i < |g.hands| && i != r.value.seat ==> r.value.state.hands[i] == g.hands[i])
      && |r.value.state.dealer.deck| + |r.value.state.dealer.pile| + Game.Penalty(card.symbol) == |g.dealer.deck| + |g.dealer.pile|
    ensures IsAction(card) && Game.IsPenalty(card) ==>
      (r.Err? <==> if g.dealer.pile == [] then Game.Penalty(card.symbol) > |g.dealer.deck|
                   else Game.Penalty(card.symbol) > |g.dealer.deck| + |g.dealer.pile| - 1)
    ensures forall a: nat, rv: bool :: Yields(g.seating, a, rv) && r.Ok? ==>
      if card.symbol == Some("reverse") then
        r.value.seat == a && Yields(r.value.state.seating, a, !rv)
      else if card.symbol == Some("skip") then
        var b := TurnOrder.Around(a, 1, rv, g.seating.count);
        r.value.seat == TurnOrder.Around(b, 1, rv, g.seating.count) && Yields(r.value.state.seating, r.value.seat, rv)
      else
        r.value.seat == TurnOrder.Around(a, 1, rv, g.seating.count) && Yields(r.value.state.seating, r.value.seat, rv)
  {
    if !IsAction(card) then Err(NotAnAction)
    else
      var s :=
        if card.symbol == Some("reverse") then Reverse(g.seating)
        else if card.symbol == Some("skip") then Skip(g.seating)
        else g.seating;
      forall a: nat, rv: bool | Yields(g.seating, a, rv) && card.symbol == Some("reverse")
        ensures Next(s).seat == a && Yields(Next(s).seating, a, !rv)
      {
        ReverseComesBack(g.seating, a, rv);
      }
      var t := Next(s);
      if Game.IsPenalty(card) then
        Penalize(Game.Penalty(card.symbol), g, t, rng)
      else
        Ok(Acted(g.(seating := t.seating), t.seat))
  }

  /** The penalised player takes n cards from the dealer. */
  function Penalize(n: nat, g: State, t: SeatTurn, rng: nat -> nat): (r: Result<Acted>)
    requires StateOk(g) && WellFormed(t.seating) && t.seating.count == g.seating.count
    requires t.seat < |g.hands| && n >= 1
    ensures r.Ok? ==> r.value.seat == t.seat && r.value.state.seating == t.seating
    ensures r.Ok? ==>
      && |r.value.state.hands| == |g.hands|
      && |r.value.state.hands[t.seat]| == |g.hands[t.seat]| + n
      && r.value.state.hands[t.seat][..|g.hands[t.seat]|] == g.hands[t.seat]
      && (forall i :: 0 <= i < |g.hands| && i != t.seat ==> r.value.state.hands[i] == g.hands[i])
      && |r.value.state.dealer.deck| + |r.value.state.dealer.pile| + n == |g.dealer.deck| + |g.dealer.pile|
    ensures r.Err? <==> if g.dealer.pile == [] then n > |g.dealer.deck| else n > |g.dealer.deck| + |g.dealer.pile| - 1
  {
    match DealerDraw(g.dealer, n, rng)
    case Err(e) => Err(e)
    case Ok(dealt) =>
      var hand := Hands.Take(g.hands[t.seat], dealt.cards).value;
      Ok(Acted(State(dealt.dealer, t.seating, g.hands[t.seat := hand]), t.seat))
  }

  /** In uno.py a skip passes over two players: the loop's own next() after
      the action yields the third seat after the one that played it, where
      the package's next turn goes to the second. */
  lemma SkipPassesTwoPlayers(card: Card, g: State, rng: nat -> nat, a: nat, rv: bool)
    requires StateOk(g) && Yields(g.seating, a, rv) && card.symbol == Some("skip")
    ensures ExecuteCardAction(card, g, rng).Ok?
    ensures
      var n := g.seating.count;
      var next := Next(ExecuteCardAction(card, g, rng).value.state.seating).seat;
      next == TurnOrder.Around(TurnOrder.Around(TurnOrder.Around(a, 1, rv, n), 1, rv, n), 1, rv, n)
  {
    assert IsAction(card);
  }

  /** The sequence of test_players_reverse_next_next_reverse on uno.py's
      Players: 1, 2, reverse, then 2, 1, 4, where the package gives 1, 4. */
  lemma ReverseTrace()
    ensures NewSeating(4).Ok?
    ensures var t1 := Next(NewSeating(4).value);
      var t2 := Next(t1.seating);
      var t3 := Next(Reverse(t2.seating));
      var t4 := Next(t3.seating);
      var t5 := Next(t4.seating);
      [t1.seat, t2.seat, t3.seat, t4.seat, t5.seat] == [0, 1, 1, 0, 3]
  {
    var t1 := Next(NewSeating(4).value);
    var t2 := Next(t1.seating);
    assert Yields(t2.seating, 1, false);
    ReverseComesBack(t2.seating, 1, false);
  }
}
