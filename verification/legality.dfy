/** filter_legal_cards and check_legal. The filter is computed on
    positions, so that the result keeps every occurrence of equal cards and
    so that a caller knows which card object it is handing on. */
module Legality {
  import opened Outcomes
  import opened Cards

  /** `_is_equal_and_not_none`. */
  predicate EqualAndNotNone(a: Option<string>, b: Option<string>) {
    a.Some? && b.Some? && a == b
  }

  /** The match test of the filter for a card other than wild-draw-4:
      number, symbol or colour equal to the top card's, or, when
      `plainWildRule` holds (uno/_game.py, not uno.py), the symbol "wild". */
  predicate Matches(card: Card, top: Card, plainWildRule: bool) {
    || EqualAndNotNone(top.number, card.number)
    || EqualAndNotNone(card.symbol, top.symbol)
    || EqualAndNotNone(card.color, top.color)
    || (plainWildRule && card.symbol == Some("wild"))
  }

  /** A card the filter counts in `n_color_matches`. */
  predicate CountsAsColorMatch(card: Card, top: Card) {
    !IsWildDraw4Symbol(card.symbol) && EqualAndNotNone(card.color, top.color)
  }

  predicate HasColorMatch(cards: seq<Card>, top: Card) {
    exists i :: 0 <= i < |cards| && CountsAsColorMatch(cards[i], top)
  }

  /** Whether the card at position p belongs in the filter's result: a
      wild-draw-4 exactly when no card of the list counts as a colour match,
      any other card exactly when it matches the top card. */
  predicate LegalAt(cards: seq<Card>, top: Card, plainWildRule: bool, p: nat)
    requires p < |cards|
  {
    if IsWildDraw4Symbol(cards[p].symbol) then !HasColorMatch(cards, top)
    else Matches(cards[p], top, plainWildRule)
  }

  predicate Increasing(ps: seq<nat>) {
    forall i, j :: 0 <= i < j < |ps| ==> ps[i] < ps[j]
  }

  predicate Below(ps: seq<nat>, n: nat) {
    forall i :: 0 <= i < |ps| ==> ps[i] < n
  }

  /** The loop state of filter_legal_cards: positions appended to
      `legal_cards`, positions set aside in `wild_draw_4_cards`, and
      `n_color_matches`. */
  datatype Scan = Scan(legal: seq<nat>, wildDraw4: seq<nat>, colorMatches: nat)

  /** The filter's loop run over `cards`, one card at a time from the
      front. */
  function ScanCards(cards: seq<Card>, top: Card, plainWildRule: bool): Scan
    decreases |cards|
  {
    if cards == [] then Scan([], [], 0)
    else
      var p := |cards| - 1;
      var s := ScanCards(cards[..p], top, plainWildRule);
      var card := cards[p];
      if IsWildDraw4Symbol(card.symbol) then
        s.(wildDraw4 := s.wildDraw4 + [p])
      else
        s.(legal := if Matches(card, top, plainWildRule) then s.legal + [p] else s.legal,
           colorMatches := if EqualAndNotNone(card.color, top.color) then s.colorMatches + 1 else s.colorMatches)
  }

  lemma HasColorMatchStep(cards: seq<Card>, top: Card)
    requires cards != []
    ensures HasColorMatch(cards, top) <==>
      HasColorMatch(cards[..|cards| - 1], top) || CountsAsColorMatch(cards[|cards| - 1], top)
  {
    var prefix := cards[..|cards| - 1];
    if HasColorMatch(cards, top) && !CountsAsColorMatch(cards[|cards| - 1], top) {
      var i :| 0 <= i < |cards| && CountsAsColorMatch(cards[i], top);
      assert prefix[i] == cards[i];
    }
    if HasColorMatch(prefix, top) {
      var i :| 0 <= i < |prefix| && CountsAsColorMatch(prefix[i], top);
      assert cards[i] == prefix[i];
    }
  }

  /** Every position the loop collects is below the length of the list, and
      each collection is increasing. */
  lemma {:induction false} ScanOrdered(cards: seq<Card>, top: Card, plainWildRule: bool)
    ensures var s := ScanCards(cards, top, plainWildRule);
      && Increasing(s.legal) && Below(s.legal, |cards|)
      && Increasing(s.wildDraw4) && Below(s.wildDraw4, |cards|)
    decreases |cards|
  {
    if cards != [] {
      ScanOrdered(cards[..|cards| - 1], top, plainWildRule);
    }
  }

  /** The loop collects in `legal_cards` exactly the positions of matching
      cards other than wild-draw-4. */
  lemma {:induction false} ScanLegal(cards: seq<Card>, top: Card, plainWildRule: bool, p: nat)
    requires p < |cards|
    ensures p in ScanCards(cards, top, plainWildRule).legal <==>
      !IsWildDraw4Symbol(cards[p].symbol) && Matches(cards[p], top, plainWildRule)
    decreases |cards|
  {
    var q := |cards| - 1;
    var prefix := cards[..q];
    ScanOrdered(prefix, top, plainWildRule);
    if p < q {
      ScanLegal(prefix, top, plainWildRule, p);
      assert prefix[p] == cards[p];
    }
  }

  /** The loop sets aside exactly the positions of wild-draw-4 cards. */
  lemma {:induction false} ScanWildDraw4(cards: seq<Card>, top: Card, plainWildRule: bool, p: nat)
    requires p < |cards|
    ensures p in ScanCards(cards, top, plainWildRule).wildDraw4 <==> IsWildDraw4Symbol(cards[p].symbol)
    decreases |cards|
  {
    var q := |cards| - 1;
    var prefix := cards[..q];
    ScanOrdered(prefix, top, plainWildRule);
    if p < q {
      ScanWildDraw4(prefix, top, plainWildRule, p);
      assert prefix[p] == cards[p];
    }
  }

  /** The colour-match count is positive exactly when some card other than
      wild-draw-4 has the top card's colour. */
  lemma {:induction false} ScanColorMatches(cards: seq<Card>, top: Card, plainWildRule: bool)
    ensures ScanCards(cards, top, plainWildRule).colorMatches > 0 <==> HasColorMatch(cards, top)
    decreases |cards|
  {
    if cards != [] {
      ScanColorMatches(cards[..|cards| - 1], top, plainWildRule);
      HasColorMatchStep(cards, top);
    }
  }

  /** filter_legal_cards as positions into `cards`: the matching cards in
      list order, followed by the wild-draw-4 cards in list order when no
      card matched the top card's colour. The ensures clauses determine the
      result completely: which positions are in it, and in which order. */
  function FilterPositions(cards: seq<Card>, top: Card, plainWildRule: bool): (ps: seq<nat>)
    ensures Below(ps, |cards|)
    ensures forall p :: 0 <= p < |cards| ==> (p in ps <==> LegalAt(cards, top, plainWildRule, p))
    ensures forall i, j :: 0 <= i < j < |ps| ==>
      && (IsWildDraw4Symbol(cards[ps[i]].symbol) ==> IsWildDraw4Symbol(cards[ps[j]].symbol))
      && (IsWildDraw4Symbol(cards[ps[i]].symbol) == IsWildDraw4Symbol(cards[ps[j]].symbol) ==> ps[i] < ps[j])
  {
    var s := ScanCards(cards, top, plainWildRule);
    ScanOrdered(cards, top, plainWildRule);
    ScanColorMatches(cards, top, plainWildRule);
    forall p | 0 <= p < |cards| ensures
      && (p in s.legal <==> !IsWildDraw4Symbol(cards[p].symbol) && Matches(cards[p], top, plainWildRule))
      && (p in s.wildDraw4 <==> IsWildDraw4Symbol(cards[p].symbol))
    {
      ScanLegal(cards, top, plainWildRule, p);
      ScanWildDraw4(cards, top, plainWildRule, p);
    }
    var ps := if s.colorMatches == 0 then s.legal + s.wildDraw4 else s.legal;
    assert forall i :: 0 <= i < |s.legal| ==> !IsWildDraw4Symbol(cards[s.legal[i]].symbol) by {
      forall i | 0 <= i < |s.legal| ensures !IsWildDraw4Symbol(cards[s.legal[i]].symbol) {
        assert s.legal[i] in s.legal;
      }
    }
    assert forall i :: 0 <= i < |s.wildDraw4| ==> IsWildDraw4Symbol(cards[s.wildDraw4[i]].symbol) by {
      forall i | 0 <= i < |s.wildDraw4| ensures IsWildDraw4Symbol(cards[s.wildDraw4[i]].symbol) {
        assert s.wildDraw4[i] in s.wildDraw4;
      }
    }
    ps
  }

  function CardsAt(cards: seq<Card>, ps: seq<nat>): (r: seq<Card>)
    requires Below(ps, |cards|)
    ensures |r| == |ps|
  {
    seq(|ps|, i requires 0 <= i < |ps| => cards[ps[i]])
  }

  /** filter_legal_cards with the rule set chosen by `plainWildRule`. */
  function FilterRule(cards: seq<Card>, top: Card, plainWildRule: bool): seq<Card> {
    CardsAt(cards, FilterPositions(cards, top, plainWildRule))
  }

  /** filter_legal_cards of uno/_game.py. */
  function FilterLegalCards(cards: seq<Card>, top: Card): seq<Card> {
    FilterRule(cards, top, true)
  }

  /** The cards the filter returns: each comes from the list; a card other
      than wild-draw-4 is returned, once per occurrence, exactly when it
      matches the top card; a wild-draw-4 exactly when no other card matches
      the top card's colour; and a plain wild card is always returned. */
  lemma FilterLegalCardsContents(cards: seq<Card>, top: Card, p: nat)
    requires p < |cards|
    ensures !IsWildDraw4Symbol(cards[p].symbol) ==>
      (p in FilterPositions(cards, top, true) <==> Matches(cards[p], top, true))
    ensures IsWildDraw4Symbol(cards[p].symbol) ==>
      (p in FilterPositions(cards, top, true) <==> !HasColorMatch(cards, top))
    ensures cards[p].symbol == Some("wild") ==> cards[p] in FilterLegalCards(cards, top)
    ensures forall c :: c in FilterLegalCards(cards, top) ==> c in cards
  {
    var ps := FilterPositions(cards, top, true);
    if cards[p].symbol == Some("wild") {
      assert p in ps;
      var k :| 0 <= k < |ps| && ps[k] == p;
      assert FilterLegalCards(cards, top)[k] == cards[p];
    }
    forall c | c in FilterLegalCards(cards, top) ensures c in cards {
      var k :| 0 <= k < |ps| && FilterLegalCards(cards, top)[k] == c;
      assert cards[ps[k]] == c;
    }
  }

  /** The result is not in general a subsequence of the input: a
      wild-draw-4 that came first in the list is moved behind the matching
      cards. */
  lemma FilterMovesWildDraw4Last()
    ensures
      var wd4 := Card(None, None, Some("wild-draw-4"), None);
      var red5 := Card(Some("red"), Some("5"), None, Some("red"));
      var blue5 := Card(Some("blue"), Some("5"), None, Some("blue"));
      FilterLegalCards([wd4, red5], blue5) == [red5, wd4]
  {
    var wd4 := Card(None, None, Some("wild-draw-4"), None);
    var red5 := Card(Some("red"), Some("5"), None, Some("red"));
    var blue5 := Card(Some("blue"), Some("5"), None, Some("blue"));
    var cards := [wd4, red5];
    assert cards[..1] == [wd4];
    assert [wd4][..0] == [];
    assert ScanCards([wd4], blue5, true) == Scan([], [0], 0);
    assert ScanCards(cards, blue5, true) == Scan([1], [0], 0);
  }

  /** check_legal: the played card must equal one the filter returns for
      the cards the player could play, and a wild card must carry a colour. */
  function CheckLegal(card: Card, playable: seq<Card>, top: Card): (r: Result<()>)
    ensures r.Ok? <==>
      && (exists p :: 0 <= p < |playable| && LegalAt(playable, top, true, p) && CardEq(playable[p], card))
      && (IsWild(card) ==> card.color.Some?)
  {
    var legal := FilterLegalCards(playable, top);
    var ps := FilterPositions(playable, top, true);
    assert forall k :: 0 <= k < |legal| ==> legal[k] == playable[ps[k]];
    if (exists k :: 0 <= k < |legal| && CardEq(legal[k], card)) && (IsWild(card) ==> card.color.Some?) then
      Ok(())
    else
      assert forall p :: 0 <= p < |playable| && LegalAt(playable, top, true, p) ==> p in ps;
      Err(IllegalPlay)
  }
}
