/** Game.run of uno/_game.py: the set-up before the first turn and one
    iteration of the turn loop, with Player.play as written or corrected. */
module GameRun {
  import opened Outcomes
  import opened Cards
  import opened DefaultDeck
  import opened CardFlow
  import opened Legality
  import opened Hands
  import opened TurnOrder
  import opened Game

  /* ----------------------------------------------------------------- set-up */

  /** The hands stacked in the deck hold exactly the deck's cards minus the
      rest, so each comes from the deck. */
  lemma {:induction false} StackedHandsHold(hands: seq<seq<Card>>, i: nat)
    requires i < |hands|
    ensures multiset(hands[i]) <= multiset(StackedHands(hands))
    decreases |hands|
  {
    if i > 0 {
      StackedHandsHold(hands[1..], i - 1);
    }
  }

  lemma {:induction false} StackedHandsLength(hands: seq<seq<Card>>, n: nat)
    requires forall i :: 0 <= i < |hands| ==> |hands[i]| == n
    ensures |StackedHands(hands)| == |hands| * n
    decreases |hands|
  {
    if hands != [] {
      StackedHandsLength(hands[1..], n);
    }
  }

  /** Player.take of each dealt hand into an empty hand: check_cards refuses
      an empty one. */
  function TakeHands(dealt: seq<seq<Card>>): (r: Result<seq<seq<Card>>>)
    ensures r.Err? <==> exists i :: 0 <= i < |dealt| && dealt[i] == []
    ensures r.Ok? ==> |r.value| == |dealt| && forall i :: 0 <= i < |dealt| ==> r.value[i] == dealt[i]
    decreases |dealt|
  {
    if dealt == [] then Ok([])
    else
      var first :- Take([], dealt[0]);
      var others :- TakeHands(dealt[1..]);
      Ok([first] + others)
  }

  datatype Table = Table(dealer: Dealer, hands: seq<seq<Card>>)

  /** Dealer(...) and the first steps of Game.run: shuffle a new deck, deal
      the hands from it and flip one card onto the pile. */
  function Deal(count: nat, handSize: int, rng: nat -> nat): (r: Result<Table>)
    ensures handSize >= 1 ==> (r.Ok? <==> count * handSize < 108)
    ensures r.Ok? ==>
      && |r.value.hands| == count
      && AllFresh(r.value.dealer.deck)
      && (forall i :: 0 <= i < count ==> AllFresh(r.value.hands[i]))
      && |r.value.dealer.pile| == 1 && Fresh(r.value.dealer.pile[0])
      && |r.value.dealer.deck| + 1 + HandTotal(r.value.hands) == 108
    ensures r.Ok? && handSize >= 1 ==> forall i :: 0 <= i < count ==> |r.value.hands[i]| == handSize
  {
    var deck := NewDeck(rng);
    NewDeckFresh(rng);
    var dealt :- DrawInitialHands(deck, count, handSize);
    if handSize >= 1 then StackedHandsLength(dealt.hands, handSize); DealFromDeck(deck, count, handSize, dealt, rng)
    else DealFromDeck(deck, count, handSize, dealt, rng)
  }

  function DealFromDeck(deck: seq<Card>, count: nat, handSize: int, dealt: InitialHands, rng: nat -> nat): (r: Result<Table>)
    requires |deck| == 108 && AllFresh(deck)
    requires dealt.rest + StackedHands(dealt.hands) == deck && |dealt.hands| == count
    requires handSize >= 1 ==> forall i :: 0 <= i < count ==> |dealt.hands[i]| == handSize
    ensures handSize >= 1 ==> (r.Ok? <==> |dealt.rest| >= 1)
    ensures r.Ok? ==>
      && |r.value.hands| == count
      && AllFresh(r.value.dealer.deck)
      && (forall i :: 0 <= i < count ==> AllFresh(r.value.hands[i]))
      && |r.value.dealer.pile| == 1 && Fresh(r.value.dealer.pile[0])
      && |r.value.dealer.deck| + 1 + HandTotal(r.value.hands) == 108
    ensures r.Ok? && handSize >= 1 ==> forall i :: 0 <= i < count ==> |r.value.hands[i]| == handSize
  {
    var hands :- TakeHands(dealt.hands);
    assert hands == dealt.hands;
    var flipped :- FlipInitialCard(Dealer(dealt.rest, []), rng);
    DealFacts(deck, dealt, flipped);
    Ok(Table(flipped, hands))
  }

  lemma DealFacts(deck: seq<Card>, dealt: InitialHands, flipped: Dealer)
    requires |deck| == 108 && AllFresh(deck)
    requires dealt.rest + StackedHands(dealt.hands) == deck
    requires |dealt.rest| >= 1
    requires flipped.pile == [Last(dealt.rest)] && flipped.deck == dealt.rest[..|dealt.rest| - 1]
    ensures AllFresh(flipped.deck) && Fresh(flipped.pile[0])
    ensures forall i :: 0 <= i < |dealt.hands| ==> AllFresh(dealt.hands[i])
    ensures |flipped.deck| + 1 + HandTotal(dealt.hands) == 108
  {
    SplitFresh(deck, dealt.rest, StackedHands(dealt.hands));
    assert dealt.rest == flipped.deck + [Last(dealt.rest)];
    SplitFresh(dealt.rest, flipped.deck, [Last(dealt.rest)]);
    forall i | 0 <= i < |dealt.hands| ensures AllFresh(dealt.hands[i]) {
      StackedHandsHold(dealt.hands, i);
      FreshByMultiset(dealt.hands[i], StackedHands(dealt.hands));
    }
    HandTotalStacked(dealt.hands);
  }

  datatype Started = Started(game: GameState, card: Card)

  /** The start of Game.run: players, the deal, and the flipped card, to
      which the first player binds a colour when it is wild. The flipped
      card is the card whose action the first turn executes. */
  function Setup(count: nat, handSize: int, rng: nat -> nat, colorPick: nat): (r: Result<Started>)
    ensures handSize >= 1 ==> (r.Ok? <==> 2 <= count <= 5 && count * handSize < 108)
    ensures r.Ok? ==>
      && FreshInv(r.value.game)
      && TotalCards(r.value.game) == 108
      && r.value.game.dealer.pile == [r.value.card]
      && (IsWild(r.value.card) ==> r.value.card.color.Some?)
      && r.value.game.players.count == count && r.value.game.players.current.None?
      && !r.value.game.players.reversed && r.value.game.players.turn == 0
    ensures r.Ok? && handSize >= 1 ==> forall i :: 0 <= i < count ==> |r.value.game.hands[i]| == handSize
  {
    var players :- NewPlayers(count);
    var table :- Deal(count, handSize, rng);
    var top := table.dealer.pile[0];
    var card := if IsWild(top) then BindColor(top, ChooseColor(colorPick)) else top;
    var g := GameState(table.dealer.(pile := [card]), players, table.hands);
    StartFacts(g, table.dealer.deck, top, card);
    Ok(Started(g, card))
  }

  lemma StartFacts(g: GameState, deck: seq<Card>, top: Card, card: Card)
    requires Valid(g.players) && |g.hands| == g.players.count
    requires AllFresh(g.dealer.deck) && (forall i :: 0 <= i < |g.hands| ==> AllFresh(g.hands[i]))
    requires |g.dealer.deck| + 1 + HandTotal(g.hands) == 108
    requires Fresh(top) && g.dealer.pile == [card]
    requires card == top || (IsWild(top) && card.(color := top.color) == top)
    ensures FreshInv(g) && TotalCards(g) == 108
  {
  }

  lemma {:induction false} HandTotalStacked(hands: seq<seq<Card>>)
    ensures HandTotal(hands) == |StackedHands(hands)|
    decreases |hands|
  {
    if hands != [] {
      HandTotalStacked(hands[1..]);
    }
  }

  /* --------------------------------------------------------------- one turn */

  /** The random picks one turn needs: the strategy's choices for the hand
      and for a drawn card, and the shuffles of a recycling draw for a
      penalty and for the drawn card. */
  datatype TurnChoices = TurnChoices(play: Choice, drawnPlay: Choice, actionRng: nat -> nat, drawRng: nat -> nat)

  /** A hand position holding the very card object that lies on top of the
      pile. Player.play as written keeps the played object in the hand when
      hand.remove deleted an earlier equal card, and the loop then discards
      that object, so hand and pile share it until the next discard. */
  datatype Held = Held(seat: nat, pos: nat)

  /** The state after a turn, the loop's `card` (the card played, if any),
      whether the game is over, and the hand position that shares the top
      card's object, if any. */
  datatype Step = Step(game: GameState, card: Option<Card>, over: bool, held: Option<Held>)

  /** The held position, if any, holds the top card. */
  predicate HeldOk(g: GameState, held: Option<Held>) {
    held.Some? ==>
      && held.value.seat < |g.hands| && held.value.pos < |g.hands[held.value.seat]|
      && g.dealer.pile != [] && g.hands[held.value.seat][held.value.pos] == Last(g.dealer.pile)
  }

  /** `if card and card.is_action: execute_card_action(...)`. */
  function PendingAction(g: GameState, pending: Option<Card>, rng: nat -> nat): (r: Result<GameState>)
    requires WellFormed(g)
    ensures r.Ok? ==> WellFormed(r.value) && TotalCards(r.value) == TotalCards(g)
    ensures r.Ok? ==> r.value.players.count == g.players.count
    ensures pending.None? || !IsAction(pending.value) ==> r == Ok(g)
  {
    if pending.Some? && IsAction(pending.value) then ExecuteCardAction(pending.value, g, rng) else Ok(g)
  }

  /** dealer.discard(card) and is_game_over; `held` is the hand position
      that still holds the discarded object, if any. */
  function Finish(g: GameState, seat: nat, p: Played, held: Option<Held>): (s: Step)
    requires WellFormed(g) && seat < |g.hands| && |p.hand| + 1 == |g.hands[seat]|
    ensures WellFormed(s.game) && TotalCards(s.game) == TotalCards(g)
    ensures s.game.players == g.players && s.card == Some(p.card)
    ensures TopCard(s.game.dealer) == Ok(p.card)
    ensures s.over <==> s.game.hands[seat] == []
    ensures s.game.hands == g.hands[seat := p.hand] && s.held == held
  {
    HandTotalUpdate(g.hands, seat, p.hand);
    Step(g.(dealer := Discard(g.dealer, p.card), hands := g.hands[seat := p.hand]), Some(p.card), p.hand == [], held)
  }

  /** The position that shares the top card after a play at `seat`: where
      the played object stayed in the hand. Only the play as written leaves
      one, and only when an earlier card of the hand equals the played
      one. */
  function HeldAfter(v: Version, seat: nat, hand: seq<Card>, top: Card, pl: Playable, choice: Choice): (held: Option<Held>)
    requires (pl == WholeHand || pl == LastDrawn) && !NothingLegal(hand, top, pl)
    ensures
      var p := PlayBy(v, hand, top, pl, choice).value.value;
      var h := PickedAt(hand, top, pl, choice).value;
      && (held.Some? <==> v == AsWritten && exists j :: 0 <= j < h && CardEq(hand[j], p.card))
      && (held.Some? ==> held.value.seat == seat && held.value.pos < |p.hand| && p.hand[held.value.pos] == p.card)
  {
    if v == Corrected then None
    else
      var k := KeptAt(hand, top, pl, choice);
      if k.Some? then Some(Held(seat, k.value)) else None
  }

  /** The state after the player drew one card because nothing could be
      played. */
  function AfterDraw(g: GameState, seat: nat, drawn: Dealt): (h: GameState)
    requires WellFormed(g) && seat < |g.hands| && |drawn.cards| == 1
    requires |drawn.cards| + |drawn.dealer.deck| + |drawn.dealer.pile| == |g.dealer.deck| + |g.dealer.pile|
    ensures WellFormed(h) && TotalCards(h) == TotalCards(g) && h.players == g.players
    ensures h.hands[seat] == g.hands[seat] + drawn.cards
  {
    var hand := Take(g.hands[seat], drawn.cards).value;
    HandTotalUpdate(g.hands, seat, hand);
    GameState(drawn.dealer, g.players, g.hands[seat := hand])
  }

  /** The top card check_legal sees. Strategy.select_card binds a wild
      card's colour on the object it picked; when that object is also the
      top card, the top card takes the colour with it. */
  function SeenTop(top: Card, card: Card, aliased: bool): Card {
    if aliased && IsWild(card) then top.(color := card.color) else top
  }

  /** What a turn guarantees about the state it returns, given the state
      the current player found at `seat` and the held position. */
  predicate StepFrom(g: GameState, seat: nat, held: Option<Held>, v: Version, s: Step)
    requires WellFormed(g)
  {
    && WellFormed(s.game) && TotalCards(s.game) == TotalCards(g)
    && s.game.players == g.players
    && (s.over <==> s.card.Some? && seat < |s.game.hands| && s.game.hands[seat] == [])
    && (s.card.Some? ==> TopCard(s.game.dealer) == Ok(s.card.value))
    && (s.card.None? ==> s.held == held)
    && (v == Corrected && s.card.Some? ==> s.held.None?)
  }

  /** The second chance: draw one card, take it, and let the player play
      it if it is legal. */
  function DrawTurn(g: GameState, seat: nat, top: Card, held: Option<Held>, c: TurnChoices, v: Version): (r: Result<Step>)
    requires WellFormed(g) && seat < |g.hands|
    ensures r.Ok? ==> StepFrom(g, seat, held, v, r.value)
  {
    var drawn :- DealerDraw(g.dealer, 1, c.drawRng);
    PlayDrawn(AfterDraw(g, seat, drawn), seat, top, held, c.drawnPlay, v)
  }

  /** `player.play(top_card=top_card, playable_cards=new_card)` and
      check_legal against the drawn card, the only playable one. The drawn
      card is a new object, never the top card, so check_legal sees the
      top card unchanged. */
  function PlayDrawn(g: GameState, seat: nat, top: Card, held: Option<Held>, choice: Choice, v: Version): (r: Result<Step>)
    requires WellFormed(g) && seat < |g.hands|
    ensures r.Ok? ==> StepFrom(g, seat, held, v, r.value)
    ensures r.Ok? && r.value.card.None? ==> r.value.game == g
  {
    match PlayBy(v, g.hands[seat], top, LastDrawn, choice).value
    case None => Ok(Step(g, None, false, held))
    case Some(p) =>
      var _ :- CheckLegal(p.card, [p.card], top);
      Ok(Finish(g, seat, p, HeldAfter(v, seat, g.hands[seat], top, LastDrawn, choice)))
  }

  /** The player at `seat` plays from the hand, or draws when nothing in the
      hand is legal. */
  function PlayTurn(g: GameState, seat: nat, top: Card, held: Option<Held>, c: TurnChoices, v: Version): (r: Result<Step>)
    requires WellFormed(g) && seat < |g.hands|
    ensures r.Ok? ==> StepFrom(g, seat, held, v, r.value)
  {
    match PlayBy(v, g.hands[seat], top, WholeHand, c.play).value
    case Some(_) => PlayHand(g, seat, top, held, c.play, v)
    case None => DrawTurn(g, seat, top, held, c, v)
  }

  /** `player.play(top_card=top_card)` when the hand holds a legal card,
      and check_legal against the copies of the hand taken before it. When
      the player picks the held object, the top card check_legal reads is
      that object, with the colour the strategy just bound. */
  function PlayHand(g: GameState, seat: nat, top: Card, held: Option<Held>, choice: Choice, v: Version): (r: Result<Step>)
    requires WellFormed(g) && seat < |g.hands|
    requires !NothingLegal(g.hands[seat], top, WholeHand)
    ensures r.Ok? ==> StepFrom(g, seat, held, v, r.value) && r.value.card.Some?
  {
    var hand := g.hands[seat];
    var p := PlayBy(v, hand, top, WholeHand, choice).value.value;
    var aliased := held == Some(Held(seat, PickedAt(hand, top, WholeHand, choice).value));
    var _ :- CheckLegal(p.card, Copies(hand), SeenTop(top, p.card, aliased));
    Ok(Finish(g, seat, p, HeldAfter(v, seat, hand, top, WholeHand, choice)))
  }

  /** One iteration of the loop of Game.run: execute the pending action,
      move to the next player, read the top card and let the player play.
      `held` is the hand position that shares the top card's object, as
      the previous iteration left it. With `AsWritten` this is the loop of
      uno/_game.py; with `Corrected` the player loses exactly the card
      played, and no position is ever held. */
  function TurnStep(g: GameState, pending: Option<Card>, held: Option<Held>, c: TurnChoices, v: Version): (r: Result<Step>)
    requires WellFormed(g)
    ensures r.Ok? ==> WellFormed(r.value.game) && TotalCards(r.value.game) == TotalCards(g)
    ensures r.Ok? ==> r.value.game.players.count == g.players.count && r.value.game.players.current.Some?
    ensures r.Ok? ==>
      (r.value.over <==> r.value.card.Some? && r.value.game.hands[r.value.game.players.current.value] == [])
    ensures r.Ok? && r.value.card.Some? ==> TopCard(r.value.game.dealer) == Ok(r.value.card.value)
    ensures r.Ok? && r.value.card.None? ==> r.value.held == held
    ensures r.Ok? && v == Corrected && r.value.card.Some? ==> r.value.held.None?
  {
    var g1 :- PendingAction(g, pending, c.actionRng);
    var t := Next(g1.players);
    var top :- TopCard(g1.dealer);
    PlayTurn(g1.(players := t.players), t.seat, top, held, c, v)
  }

  /* ----------------------------------------------------------- check_legal */

  /** A sound card's copy counts as a colour match only when the card
      does: a wild card's copy has no colour. */
  lemma CopyColorMatch(c: Card, top: Card)
    requires Sound(c)
    ensures CountsAsColorMatch(Copy(c), top) ==> CountsAsColorMatch(c, top)
  {
  }

  /** A card legal in a hand of sound cards is legal among their copies:
      copying drops colour matches only from wild cards, and a plain wild
      is legal by its symbol. */
  lemma CopiesKeepLegal(hand: seq<Card>, top: Card, i: nat)
    requires AllSound(hand) && i < |hand| && LegalAt(hand, top, true, i)
    ensures LegalAt(Copies(hand), top, true, i)
  {
    var copies := Copies(hand);
    if IsWildDraw4Symbol(hand[i].symbol) {
      forall j | 0 <= j < |copies| ensures !CountsAsColorMatch(copies[j], top) {
        CopyColorMatch(hand[j], top);
        assert !CountsAsColorMatch(hand[j], top);
      }
    }
  }

  /** check_legal accepts what a play from a hand of sound cards returns,
      with either version, when the top card is a separate object the play
      does not touch: the card is legal among the hand's copies and equal
      to the copy of the card picked. */
  lemma HandPlayPassesCheck(hand: seq<Card>, top: Card, choice: Choice, v: Version)
    requires AllSound(hand)
    requires !NothingLegal(hand, top, WholeHand)
    ensures CheckLegal(PlayBy(v, hand, top, WholeHand, choice).value.value.card, Copies(hand), top).Ok?
  {
    var card := PlayBy(v, hand, top, WholeHand, choice).value.value.card;
    var i :| 0 <= i < |hand| && LegalAt(hand, top, true, i) && PlayedAs(hand[i], card);
    CopiesKeepLegal(hand, top, i);
    assert CardEq(Copies(hand)[i], card);
  }

  /** When the picked object is the top card itself, check_legal sees the
      top card with the colour just bound. Any card but a wild-draw-4 still
      passes; a wild-draw-4 passes exactly when no copy in the hand matches
      the colour chosen. */
  lemma AliasedPlayCheck(hand: seq<Card>, top: Card, choice: Choice, v: Version)
    requires AllSound(hand)
    requires !NothingLegal(hand, top, WholeHand)
    ensures var card := PlayBy(v, hand, top, WholeHand, choice).value.value.card;
      var seen := SeenTop(top, card, true);
      CheckLegal(card, Copies(hand), seen).Ok? <==>
        !IsWildDraw4Symbol(card.symbol) || !HasColorMatch(Copies(hand), seen)
  {
    var card := PlayBy(v, hand, top, WholeHand, choice).value.value.card;
    var seen := SeenTop(top, card, true);
    var h := PickedAt(hand, top, WholeHand, choice).value;
    assert PlayedAs(hand[h], card);
    var copies := Copies(hand);
    assert copies[h].symbol == card.symbol;
    if !IsWild(card) {
      HandPlayPassesCheck(hand, top, choice, v);
    } else if IsWildDraw4Symbol(card.symbol) {
      if !HasColorMatch(copies, seen) {
        assert LegalAt(copies, seen, true, h) && CardEq(copies[h], card);
      } else {
        forall p | 0 <= p < |copies| && CardEq(copies[p], card) ensures !LegalAt(copies, seen, true, p) {
          assert copies[p].symbol == card.symbol;
        }
      }
    } else {
      assert Sound(hand[h]);
      assert LegalAt(copies, seen, true, h) && CardEq(copies[h], card);
    }
  }

  /** check_legal accepts the drawn card when it is played, with either
      version: the played card is the drawn object itself, and binding a
      colour to a sound card keeps it legal on its own. */
  lemma DrawnPlayPassesCheck(hand: seq<Card>, top: Card, choice: Choice, v: Version)
    requires hand != [] && Sound(hand[|hand| - 1])
    requires PlayBy(v, hand, top, LastDrawn, choice).Ok? && PlayBy(v, hand, top, LastDrawn, choice).value.Some?
    ensures var card := PlayBy(v, hand, top, LastDrawn, choice).value.value.card;
      CheckLegal(card, [card], top).Ok?
  {
    var card := PlayBy(v, hand, top, LastDrawn, choice).value.value.card;
    var last := hand[|hand| - 1];
    assert Candidates(hand, LastDrawn) == [last];
    assert LegalAt([last], top, true, 0) && PlayedAs(last, card);
    if IsWildDraw4Symbol(card.symbol) {
      assert !CountsAsColorMatch([card][0], top);
    }
    assert LegalAt([card], top, true, 0);
  }

  /** check_legal rejects a play from the hand exactly when the player
      re-plays the held object as a wild-draw-4 and binds a colour that a
      card of the hand matches. */
  lemma PlayHandFailure(g: GameState, seat: nat, top: Card, held: Option<Held>, choice: Choice, v: Version)
    requires Inv(g) && seat < |g.hands|
    requires !NothingLegal(g.hands[seat], top, WholeHand)
    ensures var hand := g.hands[seat];
      var card := PlayBy(v, hand, top, WholeHand, choice).value.value.card;
      var aliased := held == Some(Held(seat, PickedAt(hand, top, WholeHand, choice).value));
      PlayHand(g, seat, top, held, choice, v).Err? <==>
        aliased && IsWildDraw4Symbol(card.symbol) && HasColorMatch(Copies(hand), SeenTop(top, card, true))
    ensures PlayHand(g, seat, top, held, choice, v).Err? ==> PlayHand(g, seat, top, held, choice, v).error == IllegalPlay
  {
    var hand := g.hands[seat];
    if held == Some(Held(seat, PickedAt(hand, top, WholeHand, choice).value)) {
      AliasedPlayCheck(hand, top, choice, v);
    } else {
      HandPlayPassesCheck(hand, top, choice, v);
    }
  }

  /* ------------------------------------------------------------- invariant */

  /** A play from a hand of sound cards leaves sound cards and hands back a
      sound card; the corrected play keeps a fresh hand fresh as well. */
  lemma PlayResultSound(hand: seq<Card>, top: Card, pl: Playable, choice: Choice, v: Version)
    requires AllSound(hand) && (pl == WholeHand || pl == LastDrawn)
    requires !NothingLegal(hand, top, pl)
    ensures AllSound(PlayBy(v, hand, top, pl, choice).value.value.hand)
    ensures Sound(PlayBy(v, hand, top, pl, choice).value.value.card)
    ensures v == Corrected && AllFresh(hand) ==> AllFresh(PlayBy(v, hand, top, pl, choice).value.value.hand)
  {
    var p := PlayBy(v, hand, top, pl, choice).value.value;
    PlayedCardSound(hand, top, pl, p.card);
    if v == Corrected {
      CorrectedPlaySound(hand, top, pl, choice);
    } else {
      AsWrittenPlaySound(hand, top, pl, choice);
    }
  }

  lemma CorrectedPlaySound(hand: seq<Card>, top: Card, pl: Playable, choice: Choice)
    requires AllSound(hand) && (pl == WholeHand || pl == LastDrawn)
    requires Play(hand, top, pl, choice).Ok? && Play(hand, top, pl, choice).value.Some?
    ensures AllSound(Play(hand, top, pl, choice).value.value.hand)
    ensures AllFresh(hand) ==> AllFresh(Play(hand, top, pl, choice).value.value.hand)
  {
    var p := Play(hand, top, pl, choice).value.value;
    var h :| 0 <= h < |hand| && hand[h] == p.card.(color := hand[h].color)
      && multiset(p.hand) + multiset{hand[h]} == multiset(hand);
    SoundByMultiset(p.hand, hand);
    if AllFresh(hand) {
      FreshByMultiset(p.hand, hand);
    }
  }

  lemma AsWrittenPlaySound(hand: seq<Card>, top: Card, pl: Playable, choice: Choice)
    requires AllSound(hand) && (pl == WholeHand || pl == LastDrawn)
    requires !NothingLegal(hand, top, pl)
    ensures AllSound(PlayAsWritten(hand, top, pl, choice).value.value.hand)
  {
    var h := PickedAt(hand, top, pl, choice).value;
    var card := Bind(hand[h], choice);
    PlayAsWrittenAt(hand, top, pl, choice);
    var held := hand[h := card];
    var r := FirstEq(held, card).value;
    BoundHandSound(hand, h, choice);
    DropOneSub(held, r);
    SoundByMultiset(held[..r] + held[r + 1..], held);
  }

  /** Binding a colour on one card of a sound hand keeps the hand sound. */
  lemma BoundHandSound(hand: seq<Card>, h: nat, choice: Choice)
    requires AllSound(hand) && h < |hand|
    ensures AllSound(hand[h := Bind(hand[h], choice)])
  {
    var held := hand[h := Bind(hand[h], choice)];
    PlayedAsEqual(hand[h], held[h]);
    forall i | 0 <= i < |held| ensures Sound(held[i]) {
      if i != h {
        assert held[i] == hand[i];
      }
    }
  }

  /** A card played legally from sound candidates is sound. */
  lemma PlayedCardSound(hand: seq<Card>, top: Card, pl: Playable, card: Card)
    requires AllSound(hand) && (pl == WholeHand || pl == LastDrawn)
    requires PlayedLegally(hand, top, pl, card)
    ensures Sound(card)
  {
    var cands := Candidates(hand, pl);
    var i :| 0 <= i < |cands| && LegalAt(cands, top, true, i) && PlayedAs(cands[i], card);
    assert cands[i] in hand;
    PlayedAsEqual(cands[i], card);
  }

  lemma FinishKeepsInv(g: GameState, seat: nat, p: Played, held: Option<Held>)
    requires Inv(g) && seat < |g.hands| && |p.hand| + 1 == |g.hands[seat]|
    requires AllSound(p.hand) && Sound(p.card)
    ensures Inv(Finish(g, seat, p, held).game)
    ensures FreshHands(g) && AllFresh(p.hand) ==> FreshHands(Finish(g, seat, p, held).game)
  {
  }

  lemma AfterDrawKeepsInv(g: GameState, seat: nat, drawn: Dealt)
    requires Inv(g) && seat < |g.hands| && |drawn.cards| == 1
    requires |drawn.cards| + |drawn.dealer.deck| + |drawn.dealer.pile| == |g.dealer.deck| + |g.dealer.pile|
    requires AllFresh(drawn.cards) && AllFresh(drawn.dealer.deck) && AllSound(drawn.dealer.pile)
    requires drawn.dealer.pile != []
    ensures Inv(AfterDraw(g, seat, drawn))
    ensures FreshHands(g) ==> FreshHands(AfterDraw(g, seat, drawn))
  {
    var g3 := AfterDraw(g, seat, drawn);
    var hand := g3.hands[seat];
    assert hand == g.hands[seat] + drawn.cards;
    assert AllSound(hand);
    assert AllFresh(g.hands[seat]) ==> AllFresh(hand);
  }

  /** Playing a card from the player's hand and discarding it keeps the
      invariant. */
  lemma PlayFinishKeepsInv(g: GameState, seat: nat, top: Card, pl: Playable, choice: Choice, v: Version)
    requires Inv(g) && seat < |g.hands| && (pl == WholeHand || pl == LastDrawn)
    requires PlayBy(v, g.hands[seat], top, pl, choice).Ok? && PlayBy(v, g.hands[seat], top, pl, choice).value.Some?
    ensures var p := PlayBy(v, g.hands[seat], top, pl, choice).value.value;
      var s := Finish(g, seat, p, HeldAfter(v, seat, g.hands[seat], top, pl, choice));
      && Inv(s.game) && Sound(p.card)
      && (v == Corrected && FreshHands(g) ==> FreshHands(s.game))
  {
    var p := PlayBy(v, g.hands[seat], top, pl, choice).value.value;
    PlayResultSound(g.hands[seat], top, pl, choice, v);
    FinishKeepsInv(g, seat, p, HeldAfter(v, seat, g.hands[seat], top, pl, choice));
  }

  lemma DrawTurnKeepsInv(g: GameState, seat: nat, top: Card, held: Option<Held>, c: TurnChoices, v: Version)
    requires Inv(g) && seat < |g.hands|
    requires DrawTurn(g, seat, top, held, c, v).Ok?
    ensures Inv(DrawTurn(g, seat, top, held, c, v).value.game)
    ensures var s := DrawTurn(g, seat, top, held, c, v).value; s.card.Some? ==> Sound(s.card.value)
    ensures v == Corrected && FreshHands(g) ==> FreshHands(DrawTurn(g, seat, top, held, c, v).value.game)
  {
    var drawn := DealerDraw(g.dealer, 1, c.drawRng).value;
    DealerDrawFresh(g.dealer, 1, c.drawRng);
    AfterDrawKeepsInv(g, seat, drawn);
    PlayDrawnKeepsInv(AfterDraw(g, seat, drawn), seat, top, held, c.drawnPlay, v);
  }

  lemma PlayDrawnKeepsInv(g: GameState, seat: nat, top: Card, held: Option<Held>, choice: Choice, v: Version)
    requires Inv(g) && seat < |g.hands|
    requires PlayDrawn(g, seat, top, held, choice, v).Ok?
    ensures Inv(PlayDrawn(g, seat, top, held, choice, v).value.game)
    ensures var s := PlayDrawn(g, seat, top, held, choice, v).value; s.card.Some? ==> Sound(s.card.value)
    ensures v == Corrected && FreshHands(g) ==> FreshHands(PlayDrawn(g, seat, top, held, choice, v).value.game)
  {
    if PlayBy(v, g.hands[seat], top, LastDrawn, choice).value.Some? {
      PlayFinishKeepsInv(g, seat, top, LastDrawn, choice, v);
    }
  }

  lemma PlayTurnKeepsInv(g: GameState, seat: nat, top: Card, held: Option<Held>, c: TurnChoices, v: Version)
    requires Inv(g) && seat < |g.hands|
    requires PlayTurn(g, seat, top, held, c, v).Ok?
    ensures Inv(PlayTurn(g, seat, top, held, c, v).value.game)
    ensures var s := PlayTurn(g, seat, top, held, c, v).value; s.card.Some? ==> Sound(s.card.value)
    ensures v == Corrected && FreshHands(g) ==> FreshHands(PlayTurn(g, seat, top, held, c, v).value.game)
  {
    if PlayBy(v, g.hands[seat], top, WholeHand, c.play).value.Some? {
      assert PlayTurn(g, seat, top, held, c, v) == PlayHand(g, seat, top, held, c.play, v);
      PlayFinishKeepsInv(g, seat, top, WholeHand, c.play, v);
    } else {
      assert PlayTurn(g, seat, top, held, c, v) == DrawTurn(g, seat, top, held, c, v);
      DrawTurnKeepsInv(g, seat, top, held, c, v);
    }
  }

  /** A loop iteration keeps the invariant with either version of the
      play: deck cards stay fresh, hand and pile cards sound, and the card
      the next iteration acts on is sound. */
  lemma TurnStepKeepsInv(g: GameState, pending: Option<Card>, held: Option<Held>, c: TurnChoices, v: Version)
    requires Inv(g)
    requires TurnStep(g, pending, held, c, v).Ok?
    ensures Inv(TurnStep(g, pending, held, c, v).value.game)
    ensures var s := TurnStep(g, pending, held, c, v).value; s.card.Some? ==> Sound(s.card.value)
  {
    var g1 := PendingAction(g, pending, c.actionRng).value;
    if pending.Some? && IsAction(pending.value) {
      ExecuteCardActionKeepsInv(pending.value, g, c.actionRng);
    }
    var t := Next(g1.players);
    var top := TopCard(g1.dealer).value;
    PlayTurnKeepsInv(g1.(players := t.players), t.seat, top, held, c, v);
  }

  /** With the corrected play, no hand ever holds a bound colour. */
  lemma TurnStepKeepsFreshInv(g: GameState, pending: Option<Card>, held: Option<Held>, c: TurnChoices)
    requires FreshInv(g)
    requires TurnStep(g, pending, held, c, Corrected).Ok?
    ensures FreshInv(TurnStep(g, pending, held, c, Corrected).value.game)
  {
    var g1 := PendingAction(g, pending, c.actionRng).value;
    if pending.Some? && IsAction(pending.value) {
      ExecuteCardActionKeepsInv(pending.value, g, c.actionRng);
    }
    var t := Next(g1.players);
    var top := TopCard(g1.dealer).value;
    PlayTurnKeepsInv(g1.(players := t.players), t.seat, top, held, c, Corrected);
  }

  /* ----------------------------------------------------------- held object */

  /** A play from the hand or of the drawn card leaves the held position,
      if any, on the object just discarded. */
  lemma PlayFinishKeepsHeld(g: GameState, seat: nat, top: Card, pl: Playable, choice: Choice, v: Version)
    requires WellFormed(g) && seat < |g.hands| && (pl == WholeHand || pl == LastDrawn)
    requires !NothingLegal(g.hands[seat], top, pl)
    ensures var held := HeldAfter(v, seat, g.hands[seat], top, pl, choice);
      HeldOk(Finish(g, seat, PlayBy(v, g.hands[seat], top, pl, choice).value.value, held).game, held)
  {
  }

  /** Drawing keeps the held position on the top card: the drawn card goes
      to the end of a hand, and the top card stays. */
  lemma AfterDrawKeepsHeld(g: GameState, seat: nat, drawn: Dealt, held: Option<Held>)
    requires WellFormed(g) && seat < |g.hands| && |drawn.cards| == 1
    requires |drawn.cards| + |drawn.dealer.deck| + |drawn.dealer.pile| == |g.dealer.deck| + |g.dealer.pile|
    requires g.dealer.pile != [] ==> drawn.dealer.pile != [] && Last(drawn.dealer.pile) == Last(g.dealer.pile)
    requires HeldOk(g, held)
    ensures HeldOk(AfterDraw(g, seat, drawn), held)
  {
    if held.Some? && held.value.seat == seat {
      var h := AfterDraw(g, seat, drawn).hands[seat];
      assert h[held.value.pos] == g.hands[seat][held.value.pos];
    }
  }

  lemma PlayDrawnKeepsHeld(g: GameState, seat: nat, top: Card, held: Option<Held>, choice: Choice, v: Version)
    requires WellFormed(g) && seat < |g.hands| && HeldOk(g, held)
    requires PlayDrawn(g, seat, top, held, choice, v).Ok?
    ensures var s := PlayDrawn(g, seat, top, held, choice, v).value; HeldOk(s.game, s.held)
  {
    if PlayBy(v, g.hands[seat], top, LastDrawn, choice).value.Some? {
      PlayFinishKeepsHeld(g, seat, top, LastDrawn, choice, v);
    }
  }

  lemma DrawTurnKeepsHeld(g: GameState, seat: nat, top: Card, held: Option<Held>, c: TurnChoices, v: Version)
    requires WellFormed(g) && seat < |g.hands| && HeldOk(g, held)
    requires DrawTurn(g, seat, top, held, c, v).Ok?
    ensures var s := DrawTurn(g, seat, top, held, c, v).value; HeldOk(s.game, s.held)
  {
    var drawn := DealerDraw(g.dealer, 1, c.drawRng).value;
    AfterDrawKeepsHeld(g, seat, drawn, held);
    PlayDrawnKeepsHeld(AfterDraw(g, seat, drawn), seat, top, held, c.drawnPlay, v);
  }

  lemma PlayTurnKeepsHeld(g: GameState, seat: nat, top: Card, held: Option<Held>, c: TurnChoices, v: Version)
    requires WellFormed(g) && seat < |g.hands| && HeldOk(g, held)
    requires PlayTurn(g, seat, top, held, c, v).Ok?
    ensures var s := PlayTurn(g, seat, top, held, c, v).value; HeldOk(s.game, s.held)
  {
    if PlayBy(v, g.hands[seat], top, WholeHand, c.play).value.Some? {
      assert PlayTurn(g, seat, top, held, c, v) == PlayHand(g, seat, top, held, c.play, v);
      PlayFinishKeepsHeld(g, seat, top, WholeHand, c.play, v);
    } else {
      assert PlayTurn(g, seat, top, held, c, v) == DrawTurn(g, seat, top, held, c, v);
      DrawTurnKeepsHeld(g, seat, top, held, c, v);
    }
  }

  /** The card action keeps the held position on the top card: a penalty
      adds cards to the end of a hand and keeps the top card. */
  lemma PendingActionKeepsHeld(g: GameState, pending: Option<Card>, held: Option<Held>, rng: nat -> nat)
    requires WellFormed(g) && HeldOk(g, held)
    requires PendingAction(g, pending, rng).Ok?
    ensures HeldOk(PendingAction(g, pending, rng).value, held)
  {
    if held.Some? && pending.Some? && IsAction(pending.value) {
      var card := pending.value;
      var g1 := PendingAction(g, pending, rng).value;
      var a := held.value;
      if card.symbol != Some("reverse") && card.symbol != Some("skip") {
        assert IsPenalty(card);
        var v := Around(Anchor(g.players), 1, g.players.reversed, g.players.count);
        if a.seat == v {
          assert g1.hands[v][..|g.hands[v]|][a.pos] == g1.hands[v][a.pos];
        }
      }
    }
  }

  /** Every loop iteration keeps the held position on the top card. */
  lemma TurnStepKeepsHeld(g: GameState, pending: Option<Card>, held: Option<Held>, c: TurnChoices, v: Version)
    requires WellFormed(g) && HeldOk(g, held)
    requires TurnStep(g, pending, held, c, v).Ok?
    ensures var s := TurnStep(g, pending, held, c, v).value; HeldOk(s.game, s.held)
  {
    PendingActionKeepsHeld(g, pending, held, c.actionRng);
    var g1 := PendingAction(g, pending, c.actionRng).value;
    var t := Next(g1.players);
    var top := TopCard(g1.dealer).value;
    PlayTurnKeepsHeld(g1.(players := t.players), t.seat, top, held, c, v);
  }

  /* -------------------------------------------------------- counterexamples */

  /** Two players on a red 5; the first holds two plain wilds and is about
      to play. */
  function TwoWildsGame(): (g: GameState)
    ensures FreshInv(g)
  {
    var w := Card(None, None, Some("wild"), None);
    var red5 := Card(Some("red"), Some("5"), None, Some("red"));
    GameState(Dealer([], [red5]), NewPlayers(2).value, [[w, w], [red5]])
  }

  /** Picks the second wild and blue. */
  const TwoWildsChoices := TurnChoices(Choice(1, 1), Choice(0, 0), (k: nat) => k, (k: nat) => k)

  /** When the hand holds a legal card and no position is held, the turn is
      the play from the hand, and it finishes with the discard when
      check_legal passes. */
  lemma PlayHandFinishes(g: GameState, seat: nat, top: Card, c: TurnChoices, v: Version, p: Played)
    requires WellFormed(g) && seat < |g.hands|
    requires PlayBy(v, g.hands[seat], top, WholeHand, c.play) == Ok(Some(p))
    requires CheckLegal(p.card, Copies(g.hands[seat]), top).Ok?
    ensures PlayTurn(g, seat, top, None, c, v) == Ok(Finish(g, seat, p, HeldAfter(v, seat, g.hands[seat], top, WholeHand, c.play)))
  {
    assert PlayTurn(g, seat, top, None, c, v) == PlayHand(g, seat, top, None, c.play, v);
  }

  /** The loop as written leaves a bound colour in a hand: the player plays
      the second wild as blue, passes check_legal, and keeps a blue wild,
      so the hands are no longer fresh. The kept wild is the object just
      discarded. */
  lemma TurnAsWrittenLeavesBoundWild()
    ensures
      var w := Card(None, None, Some("wild"), None);
      var red5 := Card(Some("red"), Some("5"), None, Some("red"));
      var aw := PlayTurn(TwoWildsGame(), 0, red5, None, TwoWildsChoices, AsWritten);
      && aw.Ok? && aw.value.game.hands[0] == [w.(color := Some("blue"))]
      && aw.value.held == Some(Held(0, 0))
      && !FreshHands(aw.value.game)
  {
    var w := Card(None, None, Some("wild"), None);
    var red5 := Card(Some("red"), Some("5"), None, Some("red"));
    var bw := w.(color := Some("blue"));
    TwoWildsAsWrittenTurn(w, red5);
    var s := Finish(TwoWildsGame(), 0, Played(bw, [bw]), Some(Held(0, 0)));
    assert s.game.hands[0] == [bw];
    assert !Fresh(bw) && [bw][0] == bw;
  }

  lemma TwoWildsAsWrittenTurn(w: Card, red5: Card)
    requires w == Card(None, None, Some("wild"), None)
    requires red5 == Card(Some("red"), Some("5"), None, Some("red"))
    ensures
      var bw := w.(color := Some("blue"));
      PlayTurn(TwoWildsGame(), 0, red5, None, TwoWildsChoices, AsWritten)
        == Ok(Finish(TwoWildsGame(), 0, Played(bw, [bw]), Some(Held(0, 0))))
  {
    var bw := w.(color := Some("blue"));
    PlayAsWrittenKeepsBoundWild();
    TwoWildsCheck();
    TwoWildsHeld(w, red5);
    PlayHandFinishes(TwoWildsGame(), 0, red5, TwoWildsChoices, AsWritten, Played(bw, [bw]));
  }

  /** The blue wild stays at the front of the hand, in place of the
      colourless one hand.remove deleted. */
  lemma TwoWildsHeld(w: Card, red5: Card)
    requires w == Card(None, None, Some("wild"), None)
    requires red5 == Card(Some("red"), Some("5"), None, Some("red"))
    ensures !NothingLegal([w, w], red5, WholeHand)
      && HeldAfter(AsWritten, 0, [w, w], red5, WholeHand, Choice(1, 1)) == Some(Held(0, 0))
  {
    TwoWildsSecondPicked(w, red5);
    assert PickedAt([w, w], red5, WholeHand, Choice(1, 1)) == Some(1);
    PlayAsWrittenKeepsBoundWild();
    assert CardEq([w, w][0], w.(color := Some("blue")));
  }

  /** The corrected loop on the same turn keeps the colourless wild, as
      TurnStepKeepsFreshInv promises of every turn. */
  lemma TurnCorrectedKeepsFreshWild()
    ensures
      var w := Card(None, None, Some("wild"), None);
      var red5 := Card(Some("red"), Some("5"), None, Some("red"));
      var co := PlayTurn(TwoWildsGame(), 0, red5, None, TwoWildsChoices, Corrected);
      && co == Ok(Finish(TwoWildsGame(), 0, Played(w.(color := Some("blue")), [w]), None))
      && co.value.game.hands[0] == [w]
  {
    var w := Card(None, None, Some("wild"), None);
    var red5 := Card(Some("red"), Some("5"), None, Some("red"));
    PlayKeepsUnboundWild();
    TwoWildsCheck();
    PlayHandFinishes(TwoWildsGame(), 0, red5, TwoWildsChoices, Corrected, Played(w.(color := Some("blue")), [w]));
  }

  lemma TwoWildsCheck()
    ensures
      var w := Card(None, None, Some("wild"), None);
      var red5 := Card(Some("red"), Some("5"), None, Some("red"));
      CheckLegal(w.(color := Some("blue")), Copies([w, w]), red5).Ok?
  {
    var w := Card(None, None, Some("wild"), None);
    var red5 := Card(Some("red"), Some("5"), None, Some("red"));
    assert Copies([w, w]) == [w, w];
    assert LegalAt([w, w], red5, true, 1);
  }

  /** Two players on a green 5. The first holds two wild-draw-4 cards and
      a red 3; the deck holds the four cards a penalty hands out. */
  function WildDraw4Game(): GameState {
    var d4 := Card(None, None, Some("wild-draw-4"), None);
    var red3 := Card(Some("red"), Some("3"), None, Some("red"));
    var green5 := Card(Some("green"), Some("5"), None, Some("green"));
    GameState(Dealer([red3, red3, red3, red3], [green5]), NewPlayers(2).value, [[d4, d4, red3], [red3]])
  }

  /** The first turn picks the second wild-draw-4 and blue; the second
      turn picks the only legal card and red. */
  const FirstPick := TurnChoices(Choice(1, 1), Choice(0, 0), (k: nat) => k, (k: nat) => k)
  const SecondPick := TurnChoices(Choice(0, 0), Choice(0, 0), (k: nat) => k, (k: nat) => k)

  /** The loop as written aborts on a legal play. In the first turn the
      player plays the second wild-draw-4 as blue; hand.remove deletes the
      first one, so the blue object stays in the hand and is also the top
      card. Its penalty skips the other player, and in the second turn it
      is the only legal card. The strategy binds red to it, which recolours
      the top card too, and check_legal, reading a red top card beside the
      red 3, rejects the play. The game starts in a state of the fresh-hand
      invariant, with no position held. */
  lemma AliasedWildDraw4Fails()
    ensures
      var g := WildDraw4Game();
      var s1 := TurnStep(g, None, None, FirstPick, AsWritten);
      && FreshInv(g)
      && s1.Ok? && !s1.value.over && s1.value.held == Some(Held(0, 0))
      && TurnStep(s1.value.game, s1.value.card, s1.value.held, SecondPick, AsWritten) == Err(IllegalPlay)
  {
    var d4 := Card(None, None, Some("wild-draw-4"), None);
    var red3 := Card(Some("red"), Some("3"), None, Some("red"));
    var green5 := Card(Some("green"), Some("5"), None, Some("green"));
    var bd4 := d4.(color := Some("blue"));
    var g := WildDraw4Game();
    var g1 := g.(players := Next(g.players).players);
    WildDraw4GameInv(d4, red3, green5);
    WildDraw4FirstTurn(d4, red3, green5);
    WildDraw4FirstFinish(g1, d4, red3, green5);
    WildDraw4SecondTurn(Finish(g1, 0, Played(bd4, [bd4, red3]), Some(Held(0, 0))).game, d4, red3, green5);
  }

  lemma WildDraw4GameInv(d4: Card, red3: Card, green5: Card)
    requires d4 == Card(None, None, Some("wild-draw-4"), None)
    requires red3 == Card(Some("red"), Some("3"), None, Some("red"))
    requires green5 == Card(Some("green"), Some("5"), None, Some("green"))
    ensures FreshInv(WildDraw4Game())
  {
    assert Fresh(d4) && Fresh(red3) && Fresh(green5);
  }

  /** With nothing pending, a turn moves to the next player and lets them
      play on the top card. */
  lemma TurnStepNoPending(g: GameState, held: Option<Held>, c: TurnChoices, v: Version)
    requires WellFormed(g) && g.dealer.pile != []
    ensures var t := Next(g.players);
      TurnStep(g, None, held, c, v) == PlayTurn(g.(players := t.players), t.seat, Last(g.dealer.pile), held, c, v)
  {
  }

  /** The first turn: the player at seat 0 plays the blue wild-draw-4,
      which passes check_legal, and the first card of the hand holds it. */
  lemma WildDraw4FirstTurn(d4: Card, red3: Card, green5: Card)
    requires d4 == Card(None, None, Some("wild-draw-4"), None)
    requires red3 == Card(Some("red"), Some("3"), None, Some("red"))
    requires green5 == Card(Some("green"), Some("5"), None, Some("green"))
    ensures
      var g := WildDraw4Game();
      TurnStep(g, None, None, FirstPick, AsWritten)
        == Ok(Finish(g.(players := Next(g.players).players), 0, Played(d4.(color := Some("blue")), [d4.(color := Some("blue")), red3]), Some(Held(0, 0))))
  {
    var bd4 := d4.(color := Some("blue"));
    var g := WildDraw4Game();
    assert Next(g.players).seat == 0;
    TurnStepNoPending(g, None, FirstPick, AsWritten);
    WildDraw4FirstPlay(d4, red3, green5);
    WildDraw4FirstCheck(d4, red3, green5);
    PlayHandFinishes(g.(players := Next(g.players).players), 0, green5, FirstPick, AsWritten, Played(bd4, [bd4, red3]));
  }

  /** The state the first turn leaves: the blue wild-draw-4 is the top
      card and the first card of the hand. */
  lemma WildDraw4FirstFinish(g1: GameState, d4: Card, red3: Card, green5: Card)
    requires d4 == Card(None, None, Some("wild-draw-4"), None)
    requires red3 == Card(Some("red"), Some("3"), None, Some("red"))
    requires green5 == Card(Some("green"), Some("5"), None, Some("green"))
    requires g1 == WildDraw4Game().(players := Next(WildDraw4Game().players).players)
    ensures
      var bd4 := d4.(color := Some("blue"));
      var s := Finish(g1, 0, Played(bd4, [bd4, red3]), Some(Held(0, 0)));
      && s.held == Some(Held(0, 0)) && s.card == Some(bd4) && !s.over
      && s.game.hands == [[bd4, red3], [red3]]
      && s.game.dealer == Dealer([red3, red3, red3, red3], [green5, bd4])
      && s.game.players == g1.players
  {
  }

  lemma WildDraw4FirstPlay(d4: Card, red3: Card, green5: Card)
    requires d4 == Card(None, None, Some("wild-draw-4"), None)
    requires red3 == Card(Some("red"), Some("3"), None, Some("red"))
    requires green5 == Card(Some("green"), Some("5"), None, Some("green"))
    ensures
      var bd4 := d4.(color := Some("blue"));
      var hand := [d4, d4, red3];
      && !NothingLegal(hand, green5, WholeHand)
      && PlayAsWritten(hand, green5, WholeHand, Choice(1, 1)) == Ok(Some(Played(bd4, [bd4, red3])))
      && HeldAfter(AsWritten, 0, hand, green5, WholeHand, Choice(1, 1)) == Some(Held(0, 0))
  {
    var bd4 := d4.(color := Some("blue"));
    var hand := [d4, d4, red3];
    WildDraw4FirstSelect(d4, red3, green5);
    assert Bind(d4, Choice(1, 1)) == bd4;
    var held := hand[1 := bd4];
    assert held == [d4, bd4, red3];
    assert FirstEq(held, bd4) == Some(0);
    PlayAsWrittenWhole(hand, green5, Choice(1, 1), 1, 0);
    assert held[..0] + held[1..] == [bd4, red3];
    assert CardEq(hand[0], bd4);
  }

  /** No card of the hand matches the green 5's colour, so the
      wild-draw-4 passes check_legal. */
  lemma WildDraw4FirstCheck(d4: Card, red3: Card, green5: Card)
    requires d4 == Card(None, None, Some("wild-draw-4"), None)
    requires red3 == Card(Some("red"), Some("3"), None, Some("red"))
    requires green5 == Card(Some("green"), Some("5"), None, Some("green"))
    ensures CheckLegal(d4.(color := Some("blue")), Copies([d4, d4, red3]), green5).Ok?
  {
    assert Copies([d4, d4, red3]) == [d4, d4, red3];
    assert LegalAt([d4, d4, red3], green5, true, 0);
  }

  lemma WildDraw4FirstSelect(d4: Card, red3: Card, green5: Card)
    requires d4 == Card(None, None, Some("wild-draw-4"), None)
    requires red3 == Card(Some("red"), Some("3"), None, Some("red"))
    requires green5 == Card(Some("green"), Some("5"), None, Some("green"))
    ensures SelectCard([d4, d4, red3], green5, Choice(1, 1)) == Some(1)
  {
    assert [d4, d4, red3][..2] == [d4, d4] && [d4, d4][..1] == [d4] && [d4][..0] == [];
    assert ScanCards([d4], green5, true) == Scan([], [0], 0);
    assert ScanCards([d4, d4], green5, true) == Scan([], [0, 1], 0);
    assert ScanCards([d4, d4, red3], green5, true) == Scan([], [0, 1], 0);
  }

  /** The second turn: the penalty hands the other player four cards and
      passes over them, and the re-played wild-draw-4 fails check_legal. */
  lemma WildDraw4SecondTurn(g: GameState, d4: Card, red3: Card, green5: Card)
    requires d4 == Card(None, None, Some("wild-draw-4"), None)
    requires red3 == Card(Some("red"), Some("3"), None, Some("red"))
    requires green5 == Card(Some("green"), Some("5"), None, Some("green"))
    requires g.players == Next(WildDraw4Game().players).players
    requires g.hands == [[d4.(color := Some("blue")), red3], [red3]]
    requires g.dealer == Dealer([red3, red3, red3, red3], [green5, d4.(color := Some("blue"))])
    ensures TurnStep(g, Some(d4.(color := Some("blue"))), Some(Held(0, 0)), SecondPick, AsWritten) == Err(IllegalPlay)
  {
    var bd4 := d4.(color := Some("blue"));
    assert WellFormed(g);
    assert IsAction(bd4) && IsPenalty(bd4);
    var a := PendingAction(g, Some(bd4), SecondPick.actionRng);
    assert a.Ok?;
    var g1 := a.value;
    assert g1.hands[0] == [bd4, red3];
    assert g1.dealer.pile != [] && Last(g1.dealer.pile) == bd4;
    assert g1.players.current == Some(1);
    var t := Next(g1.players);
    assert t.seat == 0;
    var g2 := g1.(players := t.players);
    WildDraw4Replay(d4, red3);
    assert PlayTurn(g2, 0, bd4, Some(Held(0, 0)), SecondPick, AsWritten) == PlayHand(g2, 0, bd4, Some(Held(0, 0)), Choice(0, 0), AsWritten);
  }

  lemma WildDraw4Replay(d4: Card, red3: Card)
    requires d4 == Card(None, None, Some("wild-draw-4"), None)
    requires red3 == Card(Some("red"), Some("3"), None, Some("red"))
    ensures
      var bd4 := d4.(color := Some("blue"));
      var rd4 := d4.(color := Some("red"));
      var hand := [bd4, red3];
      && PlayAsWritten(hand, bd4, WholeHand, Choice(0, 0)) == Ok(Some(Played(rd4, [red3])))
      && PickedAt(hand, bd4, WholeHand, Choice(0, 0)) == Some(0)
      && SeenTop(bd4, rd4, true) == rd4
      && CheckLegal(rd4, Copies(hand), rd4) == Err(IllegalPlay)
  {
    var bd4 := d4.(color := Some("blue"));
    var rd4 := d4.(color := Some("red"));
    var hand := [bd4, red3];
    WildDraw4ReplayPlay(d4, red3);
    WildDraw4ReplayCheck(d4, red3);
  }

  lemma WildDraw4ReplayPlay(d4: Card, red3: Card)
    requires d4 == Card(None, None, Some("wild-draw-4"), None)
    requires red3 == Card(Some("red"), Some("3"), None, Some("red"))
    ensures
      var bd4 := d4.(color := Some("blue"));
      var rd4 := d4.(color := Some("red"));
      && PickedAt([bd4, red3], bd4, WholeHand, Choice(0, 0)) == Some(0)
      && PlayAsWritten([bd4, red3], bd4, WholeHand, Choice(0, 0)) == Ok(Some(Played(rd4, [red3])))
  {
    var bd4 := d4.(color := Some("blue"));
    var rd4 := d4.(color := Some("red"));
    var hand := [bd4, red3];
    WildDraw4ReplaySelect(d4, red3);
    assert Bind(bd4, Choice(0, 0)) == rd4;
    assert hand[0 := rd4] == [rd4, red3];
    assert FirstEq([rd4, red3], rd4) == Some(0);
    PlayAsWrittenWhole(hand, bd4, Choice(0, 0), 0, 0);
    assert [rd4, red3][..0] + [rd4, red3][1..] == [red3];
  }

  lemma WildDraw4ReplaySelect(d4: Card, red3: Card)
    requires d4 == Card(None, None, Some("wild-draw-4"), None)
    requires red3 == Card(Some("red"), Some("3"), None, Some("red"))
    ensures var bd4 := d4.(color := Some("blue"));
      SelectCard([bd4, red3], bd4, Choice(0, 0)) == Some(0)
  {
    var bd4 := d4.(color := Some("blue"));
    assert [bd4, red3][..1] == [bd4] && [bd4][..0] == [];
    assert ScanCards([bd4], bd4, true) == Scan([], [0], 0);
    assert ScanCards([bd4, red3], bd4, true) == Scan([], [0], 0);
  }

  /** check_legal with the recoloured top card: the red 3 now counts as a
      colour match, so the wild-draw-4 is no longer legal. */
  lemma WildDraw4ReplayCheck(d4: Card, red3: Card)
    requires d4 == Card(None, None, Some("wild-draw-4"), None)
    requires red3 == Card(Some("red"), Some("3"), None, Some("red"))
    ensures var rd4 := d4.(color := Some("red"));
      CheckLegal(rd4, Copies([d4.(color := Some("blue")), red3]), rd4) == Err(IllegalPlay)
  {
    var rd4 := d4.(color := Some("red"));
    var copies := Copies([d4.(color := Some("blue")), red3]);
    assert copies == [d4, red3];
    assert CountsAsColorMatch(copies[1], rd4);
    assert !LegalAt(copies, rd4, true, 0) && !CardEq(copies[1], rd4);
  }

  /* --------------------------------------------------------------- failure */

  lemma DrawTurnFailure(g: GameState, seat: nat, top: Card, held: Option<Held>, c: TurnChoices, v: Version)
    requires Inv(g) && seat < |g.hands|
    ensures DrawTurn(g, seat, top, held, c, v).Err? ==> DrawTurn(g, seat, top, held, c, v).error == NotEnoughCards
  {
    var d := DealerDraw(g.dealer, 1, c.drawRng);
    if d.Ok? {
      DealerDrawFresh(g.dealer, 1, c.drawRng);
      var g3 := AfterDraw(g, seat, d.value);
      var hand := g3.hands[seat];
      assert hand == g.hands[seat] + d.value.cards;
      assert Sound(hand[|hand| - 1]);
      if PlayBy(v, hand, top, LastDrawn, c.drawnPlay).value.Some? {
        DrawnPlayPassesCheck(hand, top, c.drawnPlay, v);
      }
    }
  }

  lemma PlayTurnFailure(g: GameState, seat: nat, top: Card, held: Option<Held>, c: TurnChoices, v: Version)
    requires Inv(g) && seat < |g.hands|
    ensures var r := PlayTurn(g, seat, top, held, c, v);
      r.Err? ==> r.error == NotEnoughCards || (r.error == IllegalPlay && held.Some? && held.value.seat == seat)
  {
    if PlayBy(v, g.hands[seat], top, WholeHand, c.play).value.Some? {
      PlayHandFailure(g, seat, top, held, c.play, v);
    } else {
      DrawTurnFailure(g, seat, top, held, c, v);
    }
  }

  /** A loop iteration never reads an empty pile. It fails check_legal only
      when a hand position shares the top card's object; otherwise it fails
      only when the dealer runs out of cards. */
  lemma TurnStepFailure(g: GameState, pending: Option<Card>, held: Option<Held>, c: TurnChoices, v: Version)
    requires Inv(g)
    ensures var r := TurnStep(g, pending, held, c, v);
      r.Err? ==> r.error == NotEnoughCards || (r.error == IllegalPlay && held.Some?)
  {
    var a := PendingAction(g, pending, c.actionRng);
    if pending.Some? && IsAction(pending.value) {
      ExecuteCardActionFailure(pending.value, g, c.actionRng);
      if a.Ok? {
        ExecuteCardActionKeepsInv(pending.value, g, c.actionRng);
      }
    }
    if a.Ok? {
      var g1 := a.value;
      var t := Next(g1.players);
      PlayTurnFailure(g1.(players := t.players), t.seat, TopCard(g1.dealer).value, held, c, v);
    }
  }

  /** The corrected loop starts without a held position and never makes
      one, so it never fails check_legal: it fails only when the dealer
      runs out of cards. */
  lemma CorrectedTurnFailure(g: GameState, pending: Option<Card>, c: TurnChoices)
    requires Inv(g)
    ensures var r := TurnStep(g, pending, None, c, Corrected);
      && (r.Err? ==> r.error == NotEnoughCards)
      && (r.Ok? ==> r.value.held.None?)
  {
    TurnStepFailure(g, pending, None, c, Corrected);
  }
}
