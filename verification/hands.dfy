/** A player's hand: Player.take, Player.select_card with RandomStrategy,
    and Player.play. A strategy's random picks are a `Choice`; the card it
    picks is one of the objects the filter returned, which for the hand
    itself (and for the card just drawn) are the hand's own objects, so the
    colour it binds to a wild card lands in the hand. */
module Hands {
  import opened Outcomes
  import opened Cards
  import opened Legality

  /** The two random picks of RandomStrategy.select_card: the index of the
      legal card (taken modulo the number of legal cards) and, for a wild
      card, the index of the colour. */
  datatype Choice = Choice(card: nat, color: nat)

  /** The `playable_cards` argument. */
  datatype Playable =
    | WholeHand                  // None: the hand itself
    | LastDrawn                  // the list Dealer.draw returned, whose one card was just taken
    | Listed(cards: seq<Card>)   // a list of card objects that are not the hand's; [] means the hand

  /** list.count(d): the cards that compare equal to d. */
  function CountEq(s: seq<Card>, d: Card): nat {
    if s == [] then 0 else (if CardEq(s[0], d) then 1 else 0) + CountEq(s[1..], d)
  }

  lemma {:induction false} CountEqAppend(a: seq<Card>, b: seq<Card>, d: Card)
    ensures CountEq(a + b, d) == CountEq(a, d) + CountEq(b, d)
    decreases |a|
  {
    if a == [] {
      assert a + b == b;
    } else {
      assert (a + b)[1..] == a[1..] + b;
      CountEqAppend(a[1..], b, d);
    }
  }

  /** Counting around one position. */
  lemma CountEqSplit(s: seq<Card>, i: nat, d: Card)
    requires i < |s|
    ensures CountEq(s, d) == CountEq(s[..i], d) + (if CardEq(s[i], d) then 1 else 0) + CountEq(s[i + 1..], d)
  {
    assert s == s[..i] + ([s[i]] + s[i + 1..]);
    CountEqAppend(s[..i], [s[i]] + s[i + 1..], d);
    CountEqAppend([s[i]], s[i + 1..], d);
  }

  /** Replacing a card by one that is equal to the same cards keeps every
      count. */
  lemma CountEqUpdate(s: seq<Card>, i: nat, c: Card, d: Card)
    requires i < |s|
    requires CardEq(c, d) == CardEq(s[i], d)
    ensures CountEq(s[i := c], d) == CountEq(s, d)
  {
    CountEqSplit(s, i, d);
    CountEqSplit(s[i := c], i, d);
    assert s[i := c][..i] == s[..i];
    assert s[i := c][i + 1..] == s[i + 1..];
  }

  /** Player.take: check_cards refuses an empty hand-over, otherwise the
      cards go to the end of the hand. */
  function Take(hand: seq<Card>, cards: seq<Card>): (r: Result<seq<Card>>)
    ensures r.Err? <==> cards == []
    ensures r.Ok? ==> |r.value| == |hand| + |cards| && r.value[..|hand|] == hand && r.value[|hand|..] == cards
  {
    if cards == [] then Err(EmptyCardList) else Ok(hand + cards)
  }

  /** Taking cards adds their count to every count of the hand. */
  lemma TakeCounts(hand: seq<Card>, cards: seq<Card>, d: Card)
    requires cards != []
    ensures CountEq(Take(hand, cards).value, d) == CountEq(hand, d) + CountEq(cards, d)
  {
    CountEqAppend(hand, cards, d);
  }

  /** The list the filter runs over. */
  function Candidates(hand: seq<Card>, pl: Playable): seq<Card> {
    match pl
    case WholeHand => hand
    case LastDrawn => if hand == [] then [] else [hand[|hand| - 1]]
    case Listed(cards) => if cards == [] then hand else cards
  }

  /** The hand position of candidate i when the candidate is a hand object,
      none when it belongs to a separate list. */
  function HandPosition(hand: seq<Card>, pl: Playable, i: nat): (h: Option<nat>)
    requires i < |Candidates(hand, pl)|
    ensures h.Some? ==> h.value < |hand| && hand[h.value] == Candidates(hand, pl)[i]
    ensures h.None? <==> pl.Listed? && pl.cards != []
  {
    match pl
    case WholeHand => Some(i)
    case LastDrawn => Some(|hand| - 1)
    case Listed(cards) => if cards == [] then Some(i) else None
  }

  /** Player.select_card with RandomStrategy: no card when the filter
      returns nothing, otherwise the legal candidate the choice picks. */
  function SelectCard(cands: seq<Card>, top: Card, choice: Choice): (r: Option<nat>)
    ensures r.None? <==> forall i :: 0 <= i < |cands| ==> !LegalAt(cands, top, true, i)
    ensures r.Some? ==> r.value < |cands| && LegalAt(cands, top, true, r.value)
  {
    var ps := FilterPositions(cands, top, true);
    if ps == [] then None
    else
      var k := choice.card % |ps|;
      assert ps[k] in ps;
      Some(ps[k])
  }

  /** Every legal candidate is picked by some choice: the strategy's pick
      ranges over the whole filter result. */
  lemma SelectReachesEveryLegal(cands: seq<Card>, top: Card, i: nat)
    requires i < |cands| && LegalAt(cands, top, true, i)
    ensures exists k: nat :: SelectCard(cands, top, Choice(k, 0)) == Some(i)
  {
    var ps := FilterPositions(cands, top, true);
    assert i in ps;
    var k :| 0 <= k < |ps| && ps[k] == i;
    assert k % |ps| == k;
    assert SelectCard(cands, top, Choice(k, 0)) == Some(i);
  }

  /** The card the strategy hands back: a wild card with the chosen colour
      bound, any other card unchanged. */
  function Bind(card: Card, choice: Choice): (r: Card)
    ensures IsWild(card) ==> r.color.Some? && r.color.value in COLORS
    ensures !IsWild(card) ==> r == card
    ensures r.(color := card.color) == card
    ensures IsWild(r) == IsWild(card)
  {
    if IsWild(card) then BindColor(card, ChooseColor(choice.color)) else card
  }

  /** The bound card is equal to exactly the cards the picked card is equal
      to, in either operand order. */
  lemma BindKeepsCounts(card: Card, choice: Choice, d: Card)
    ensures CardEq(Bind(card, choice), d) == CardEq(card, d)
    ensures CardEq(d, Bind(card, choice)) == CardEq(d, card)
  {
    if IsWild(card) {
      BindKeepsEquality(card, ChooseColor(choice.color), d);
    }
  }

  /** The first position holding a card equal to x. */
  function FirstEq(s: seq<Card>, x: Card): (r: Option<nat>)
    ensures r.None? <==> forall i :: 0 <= i < |s| ==> !CardEq(s[i], x)
    ensures r.Some? ==> r.value < |s| && CardEq(s[r.value], x)
    ensures r.Some? ==> forall j :: 0 <= j < r.value ==> !CardEq(s[j], x)
  {
    if s == [] then None
    else if CardEq(s[0], x) then Some(0)
    else
      match FirstEq(s[1..], x)
      case None => None
      case Some(k) => Some(k + 1)
  }

  /** list.remove(x): drop the first card equal to x, or fail when there is
      none. */
  function Remove(s: seq<Card>, x: Card): (r: Result<seq<Card>>)
    ensures r.Err? <==> forall i :: 0 <= i < |s| ==> !CardEq(s[i], x)
    ensures r.Ok? ==> |r.value| + 1 == |s|
    ensures r.Ok? ==>
      exists i :: 0 <= i < |s| && CardEq(s[i], x)
        && (forall j :: 0 <= j < i ==> !CardEq(s[j], x))
        && r.value == s[..i] + s[i + 1..]
  {
    match FirstEq(s, x)
    case None => Err(NotInHand)
    case Some(i) => Ok(s[..i] + s[i + 1..])
  }

  /** Removing x lowers by one the count of every card equal to x and keeps
      every other count. */
  lemma RemoveCounts(s: seq<Card>, x: Card, d: Card)
    requires Remove(s, x).Ok?
    ensures CountEq(Remove(s, x).value, d) == CountEq(s, d) - (if CardEq(x, d) then 1 else 0)
  {
    var i := FirstEq(s, x).value;
    CountEqSplit(s, i, d);
    CountEqAppend(s[..i], s[i + 1..], d);
    CardEqIsEquivalence(s[i], x, d);
    CardEqIsEquivalence(x, s[i], d);
  }

  datatype Played = Played(card: Card, hand: seq<Card>)

  /** No candidate is legal. */
  predicate NothingLegal(hand: seq<Card>, top: Card, pl: Playable) {
    var cands := Candidates(hand, pl);
    forall i :: 0 <= i < |cands| ==> !LegalAt(cands, top, true, i)
  }

  /** `card` is `c` as the strategy hands it back: the same card, except
      that a wild card may carry a colour. */
  predicate PlayedAs(c: Card, card: Card) {
    card.(color := c.color) == c && (!IsWild(c) ==> card == c)
  }

  /** A card handed back this way is equal to the picked one both ways, is
      wild exactly when it is, and is as consistent as it. */
  lemma PlayedAsEqual(c: Card, card: Card)
    requires PlayedAs(c, card)
    ensures CardEq(c, card) && CardEq(card, c)
    ensures IsWild(card) == IsWild(c)
    ensures Consistent(c) ==> Consistent(card)
  {
  }

  /** The played card is a legal candidate, with a colour bound when it is
      wild. */
  predicate PlayedLegally(hand: seq<Card>, top: Card, pl: Playable, card: Card) {
    var cands := Candidates(hand, pl);
    && (exists i :: 0 <= i < |cands| && LegalAt(cands, top, true, i) && PlayedAs(cands[i], card))
    && (IsWild(card) ==> card.color.Some? && card.color.value in COLORS)
  }

  /** Player.play as written: the strategy binds the colour on the object
      it picked, which is a hand object unless a separate list was passed,
      and then hand.remove(card) deletes the first card of the hand that
      compares equal, which need not be that object. */
  function PlayAsWritten(hand: seq<Card>, top: Card, pl: Playable, choice: Choice): (r: Result<Option<Played>>)
    ensures r == Ok(None) <==> NothingLegal(hand, top, pl)
    ensures r.Err? ==> pl.Listed? && pl.cards != []
    ensures r.Ok? && r.value.Some? ==>
      |r.value.value.hand| + 1 == |hand| && PlayedLegally(hand, top, pl, r.value.value.card)
  {
    var cands := Candidates(hand, pl);
    match SelectCard(cands, top, choice)
    case None => Ok(None)
    case Some(i) =>
      var card := Bind(cands[i], choice);
      assert PlayedAs(cands[i], card) && PlayedLegally(hand, top, pl, card);
      match HandPosition(hand, pl, i)
      case Some(h) =>
        var held := hand[h := card];
        assert CardEq(held[h], card);
        Ok(Some(Played(card, Remove(held, card).value)))
      case None =>
        var rest :- Remove(hand, card);
        Ok(Some(Played(card, rest)))
  }

  /** Player.play with the card removed where the strategy found it: the
      hand loses exactly the object that is played. */
  function Play(hand: seq<Card>, top: Card, pl: Playable, choice: Choice): (r: Result<Option<Played>>)
    ensures r == Ok(None) <==> NothingLegal(hand, top, pl)
    ensures r.Err? ==> pl.Listed? && pl.cards != []
    ensures r.Ok? && r.value.Some? ==>
      |r.value.value.hand| + 1 == |hand| && PlayedLegally(hand, top, pl, r.value.value.card)
    ensures r.Ok? && r.value.Some? && !(pl.Listed? && pl.cards != []) ==>
      exists h :: 0 <= h < |hand| && hand[h] == r.value.value.card.(color := hand[h].color)
        && multiset(r.value.value.hand) + multiset{hand[h]} == multiset(hand)
  {
    var cands := Candidates(hand, pl);
    match SelectCard(cands, top, choice)
    case None => Ok(None)
    case Some(i) =>
      var card := Bind(cands[i], choice);
      assert PlayedAs(cands[i], card) && PlayedLegally(hand, top, pl, card);
      match HandPosition(hand, pl, i)
      case Some(h) =>
        assert hand[h] == card.(color := hand[h].color);
        DropOneMultiset(hand, h);
        Ok(Some(Played(card, hand[..h] + hand[h + 1..])))
      case None =>
        var rest :- Remove(hand, card);
        Ok(Some(Played(card, rest)))
  }

  /** Which Player.play a caller runs: the one of uno/_game.py, or the
      corrected one. */
  datatype Version = AsWritten | Corrected

  function PlayBy(v: Version, hand: seq<Card>, top: Card, pl: Playable, choice: Choice): (r: Result<Option<Played>>)
    ensures r == Ok(None) <==> NothingLegal(hand, top, pl)
    ensures r.Err? ==> pl.Listed? && pl.cards != []
    ensures r.Ok? && r.value.Some? ==>
      |r.value.value.hand| + 1 == |hand| && PlayedLegally(hand, top, pl, r.value.value.card)
  {
    match v
    case AsWritten => PlayAsWritten(hand, top, pl, choice)
    case Corrected => Play(hand, top, pl, choice)
  }

  /** Both versions pick and hand back the same card; they differ only in
      which card leaves the hand. */
  lemma PlayVersionsSameCard(hand: seq<Card>, top: Card, pl: Playable, choice: Choice)
    requires !(pl.Listed? && pl.cards != [])
    ensures PlayAsWritten(hand, top, pl, choice).Ok? && Play(hand, top, pl, choice).Ok?
    ensures PlayAsWritten(hand, top, pl, choice).value.Some? <==> Play(hand, top, pl, choice).value.Some?
    ensures PlayAsWritten(hand, top, pl, choice).value.Some? ==>
      PlayAsWritten(hand, top, pl, choice).value.value.card == Play(hand, top, pl, choice).value.value.card
  {
  }

  /** The hand the written play leaves: the hand with the picked object
      bound, less one card. */
  lemma PlayAsWrittenFromHeld(hand: seq<Card>, top: Card, pl: Playable, choice: Choice)
    requires !(pl.Listed? && pl.cards != [])
    requires PlayAsWritten(hand, top, pl, choice).Ok? && PlayAsWritten(hand, top, pl, choice).value.Some?
    ensures var p := PlayAsWritten(hand, top, pl, choice).value.value;
      exists h :: 0 <= h < |hand| && hand[h] == p.card.(color := hand[h].color)
        && multiset(p.hand) <= multiset(hand[h := p.card])
  {
    var cands := Candidates(hand, pl);
    var i := SelectCard(cands, top, choice).value;
    var card := Bind(cands[i], choice);
    var h := HandPosition(hand, pl, i).value;
    var held := hand[h := card];
    assert CardEq(held[h], card);
    var k := FirstEq(held, card).value;
    assert PlayAsWritten(hand, top, pl, choice).value.value == Played(card, held[..k] + held[k + 1..]);
    DropOneSub(held, k);
  }

  /** The hand position of the object the strategy picks from the hand or
      from the card just drawn; none when nothing is legal. Both versions
      hand back that object, with a colour bound when it is wild. */
  function PickedAt(hand: seq<Card>, top: Card, pl: Playable, choice: Choice): (h: Option<nat>)
    requires !(pl.Listed? && pl.cards != [])
    ensures h.None? <==> NothingLegal(hand, top, pl)
    ensures h.Some? ==> h.value < |hand|
    ensures h.Some? ==>
      && PlayAsWritten(hand, top, pl, choice).Ok? && PlayAsWritten(hand, top, pl, choice).value.Some?
      && PlayedAs(hand[h.value], PlayAsWritten(hand, top, pl, choice).value.value.card)
      && Play(hand, top, pl, choice) == Ok(Some(Played(PlayAsWritten(hand, top, pl, choice).value.value.card, hand[..h.value] + hand[h.value + 1..])))
  {
    match SelectCard(Candidates(hand, pl), top, choice)
    case None => None
    case Some(i) => HandPosition(hand, pl, i)
  }

  /** Where Player.play as written leaves the object it played: hand.remove
      deletes the first card equal to it, so when an earlier card is equal
      the object itself stays in the hand, one place down; otherwise the
      hand loses exactly that object. */
  function KeptAt(hand: seq<Card>, top: Card, pl: Playable, choice: Choice): (k: Option<nat>)
    requires !(pl.Listed? && pl.cards != []) && !NothingLegal(hand, top, pl)
    ensures var h := PickedAt(hand, top, pl, choice).value;
      var p := PlayAsWritten(hand, top, pl, choice).value.value;
      && (k.Some? <==> exists j :: 0 <= j < h && CardEq(hand[j], p.card))
      && (k.Some? ==> k.value < |p.hand| && p.hand[k.value] == p.card)
      && (k.None? ==> p.hand == hand[..h] + hand[h + 1..])
  {
    var h := PickedAt(hand, top, pl, choice).value;
    var card := Bind(hand[h], choice);
    PlayAsWrittenAt(hand, top, pl, choice);
    DropFirstEq(hand, h, card);
    var r := FirstEq(hand[h := card], card).value;
    assert PlayAsWritten(hand, top, pl, choice).value.value.card == card;
    if r < h then Some(h - 1) else None
  }

  /** Binding position h to `card` and then dropping the first card equal
      to it drops an earlier card exactly when one is equal. */
  lemma DropFirstEq(hand: seq<Card>, h: nat, card: Card)
    requires h < |hand|
    ensures var held := hand[h := card];
      FirstEq(held, card).Some? && FirstEq(held, card).value <= h
    ensures var held := hand[h := card];
      var r := FirstEq(held, card).value;
      && (r < h <==> exists j :: 0 <= j < h && CardEq(hand[j], card))
      && (r < h ==> |held[..r] + held[r + 1..]| == |hand| - 1 && (held[..r] + held[r + 1..])[h - 1] == card)
      && (r == h ==> held[..r] + held[r + 1..] == hand[..h] + hand[h + 1..])
  {
    var held := hand[h := card];
    CardEqIsEquivalence(card, card, card);
    assert CardEq(held[h], card);
    var r := FirstEq(held, card).value;
    if r < h {
      assert held[r] == hand[r];
      assert (held[..r] + held[r + 1..])[h - 1] == held[h];
    } else {
      forall j | 0 <= j < h ensures !CardEq(hand[j], card) {
        assert held[j] == hand[j];
      }
      assert held[..h] == hand[..h] && held[h + 1..] == hand[h + 1..];
    }
  }

  /** The written play in terms of the picked position: bind the object
      there, then drop the first card equal to it. */
  lemma PlayAsWrittenAt(hand: seq<Card>, top: Card, pl: Playable, choice: Choice)
    requires !(pl.Listed? && pl.cards != []) && !NothingLegal(hand, top, pl)
    ensures var h := PickedAt(hand, top, pl, choice).value;
      var card := Bind(hand[h], choice);
      var held := hand[h := card];
      var r := FirstEq(held, card);
      && r.Some?
      && PlayAsWritten(hand, top, pl, choice) == Ok(Some(Played(card, held[..r.value] + held[r.value + 1..])))
  {
    var cands := Candidates(hand, pl);
    var i := SelectCard(cands, top, choice).value;
    var h := HandPosition(hand, pl, i).value;
    assert PickedAt(hand, top, pl, choice) == Some(h);
    var card := Bind(cands[i], choice);
    var held := hand[h := card];
    assert CardEq(held[h], card);
    assert PlayAsWritten(hand, top, pl, choice) == Ok(Some(Played(card, Remove(held, card).value)));
  }

  /** The written play from the whole hand, given the candidate the
      strategy selects and the first card equal to it once bound. */
  lemma PlayAsWrittenWhole(hand: seq<Card>, top: Card, choice: Choice, i: nat, k: nat)
    requires SelectCard(hand, top, choice) == Some(i)
    requires FirstEq(hand[i := Bind(hand[i], choice)], Bind(hand[i], choice)) == Some(k)
    ensures PickedAt(hand, top, WholeHand, choice) == Some(i)
    ensures var card := Bind(hand[i], choice);
      var held := hand[i := card];
      PlayAsWritten(hand, top, WholeHand, choice) == Ok(Some(Played(card, held[..k] + held[k + 1..])))
  {
    assert Candidates(hand, WholeHand) == hand;
    assert HandPosition(hand, WholeHand, i) == Some(i);
    var card := Bind(hand[i], choice);
    var held := hand[i := card];
    assert Remove(held, card) == Ok(held[..k] + held[k + 1..]);
  }

  /** Play removes exactly one instance of the played card: the count of
      every card equal to it drops by one, every other count is kept. */
  lemma PlayCounts(hand: seq<Card>, top: Card, pl: Playable, choice: Choice, d: Card)
    requires Play(hand, top, pl, choice).Ok? && Play(hand, top, pl, choice).value.Some?
    ensures var p := Play(hand, top, pl, choice).value.value;
      CountEq(p.hand, d) == CountEq(hand, d) - (if CardEq(p.card, d) then 1 else 0)
  {
    var cands := Candidates(hand, pl);
    var i := SelectCard(cands, top, choice).value;
    var card := Bind(cands[i], choice);
    BindKeepsCounts(cands[i], choice, d);
    match HandPosition(hand, pl, i)
    case Some(h) =>
      assert Play(hand, top, pl, choice).value.value == Played(card, hand[..h] + hand[h + 1..]);
      DropOneCounts(hand, h, d);
    case None =>
      assert Play(hand, top, pl, choice).value.value == Played(card, Remove(hand, card).value);
      RemoveCounts(hand, card, d);
  }

  /** Dropping position h lowers the count of every card equal to hand[h]. */
  lemma DropOneCounts(s: seq<Card>, h: nat, d: Card)
    requires h < |s|
    ensures CountEq(s[..h] + s[h + 1..], d) == CountEq(s, d) - (if CardEq(s[h], d) then 1 else 0)
  {
    CountEqSplit(s, h, d);
    CountEqAppend(s[..h], s[h + 1..], d);
  }

  /** The same holds for the play as written. */
  lemma PlayAsWrittenCounts(hand: seq<Card>, top: Card, pl: Playable, choice: Choice, d: Card)
    requires PlayAsWritten(hand, top, pl, choice).Ok? && PlayAsWritten(hand, top, pl, choice).value.Some?
    ensures var p := PlayAsWritten(hand, top, pl, choice).value.value;
      CountEq(p.hand, d) == CountEq(hand, d) - (if CardEq(p.card, d) then 1 else 0)
  {
    var cands := Candidates(hand, pl);
    var i := SelectCard(cands, top, choice).value;
    var card := Bind(cands[i], choice);
    BindKeepsCounts(cands[i], choice, d);
    match HandPosition(hand, pl, i)
    case Some(h) =>
      CountEqUpdate(hand, h, card, d);
      assert CardEq(hand[h := card][h], card);
      RemoveCounts(hand[h := card], card, d);
    case None =>
      RemoveCounts(hand, card, d);
  }

  /** A hand in which no wild card carries a colour, as every hand is once
      copies and fresh cards are dealt. */
  predicate Unbound(hand: seq<Card>) {
    forall i :: 0 <= i < |hand| ==> IsWild(hand[i]) ==> hand[i].color.None?
  }

  /** Play keeps wild cards in the hand colourless. */
  lemma PlayKeepsUnbound(hand: seq<Card>, top: Card, pl: Playable, choice: Choice)
    requires Unbound(hand)
    requires Play(hand, top, pl, choice).Ok? && Play(hand, top, pl, choice).value.Some?
    ensures Unbound(Play(hand, top, pl, choice).value.value.hand)
  {
    var cands := Candidates(hand, pl);
    var i := SelectCard(cands, top, choice).value;
    var h := match HandPosition(hand, pl, i)
      case Some(h) => h
      case None => FirstEq(hand, Bind(cands[i], choice)).value;
    assert Play(hand, top, pl, choice).value.value.hand == hand[..h] + hand[h + 1..];
    DropOneSub(hand, h);
    UnboundByMultiset(hand[..h] + hand[h + 1..], hand);
  }

  lemma DropOneMultiset(s: seq<Card>, h: nat)
    requires h < |s|
    ensures |s[..h] + s[h + 1..]| + 1 == |s|
    ensures multiset(s[..h] + s[h + 1..]) + multiset{s[h]} == multiset(s)
  {
    assert s == s[..h] + [s[h]] + s[h + 1..];
  }

  lemma DropOneSub(s: seq<Card>, h: nat)
    requires h < |s|
    ensures multiset(s[..h] + s[h + 1..]) <= multiset(s)
  {
    assert s == s[..h] + [s[h]] + s[h + 1..];
  }

  lemma UnboundByMultiset(a: seq<Card>, b: seq<Card>)
    requires Unbound(b) && multiset(a) <= multiset(b)
    ensures Unbound(a)
  {
    forall k | 0 <= k < |a| && IsWild(a[k]) ensures a[k].color.None? {
      assert a[k] in multiset(a);
      assert a[k] in multiset(b);
      var j :| 0 <= j < |b| && b[j] == a[k];
    }
  }

  /** When no card before the picked hand object compares equal to it, the
      written and the corrected play agree. */
  lemma PlayVersionsAgree(hand: seq<Card>, top: Card, pl: Playable, choice: Choice)
    requires !(pl.Listed? && pl.cards != [])
    requires var sel := SelectCard(Candidates(hand, pl), top, choice);
      sel.Some? ==>
        var h := HandPosition(hand, pl, sel.value).value;
        forall j :: 0 <= j < h ==> !CardEq(hand[j], hand[h])
    ensures PlayAsWritten(hand, top, pl, choice) == Play(hand, top, pl, choice)
  {
    var cands := Candidates(hand, pl);
    var sel := SelectCard(cands, top, choice);
    if sel.Some? {
      var i := sel.value;
      var h := HandPosition(hand, pl, i).value;
      var card := Bind(cands[i], choice);
      var held := hand[h := card];
      forall j | 0 <= j < h ensures !CardEq(hand[j], card) {
        BindKeepsCounts(hand[h], choice, hand[j]);
      }
      RemoveReplaced(hand, h, card);
      assert PlayAsWritten(hand, top, pl, choice) == Ok(Some(Played(card, Remove(held, card).value)));
      assert Play(hand, top, pl, choice) == Ok(Some(Played(card, hand[..h] + hand[h + 1..])));
    }
  }

  /** list.remove of a card just written at position h, with no equal card
      before it, drops position h. */
  lemma RemoveReplaced(hand: seq<Card>, h: nat, card: Card)
    requires h < |hand|
    requires forall j :: 0 <= j < h ==> !CardEq(hand[j], card)
    ensures Remove(hand[h := card], card) == Ok(hand[..h] + hand[h + 1..])
  {
    var held := hand[h := card];
    CardEqIsEquivalence(card, card, card);
    assert CardEq(held[h], card);
    assert FirstEq(held, card) == Some(h);
    assert held[..h] == hand[..h];
    assert held[h + 1..] == hand[h + 1..];
  }

  /** tests/test_player.py: playing a card the hand holds, passed as the
      single playable card and with itself as the top card, removes one
      instance of it from the hand. */
  lemma PlayOwnTopCard(hand: seq<Card>, card: Card, choice: Choice)
    requires Consistent(card) && CountEq(hand, card) >= 1
    ensures var r := Play(hand, card, Listed([card]), choice);
      && r.Ok? && r.value.Some?
      && |r.value.value.hand| + 1 == |hand|
      && CountEq(r.value.value.hand, card) + 1 == CountEq(hand, card)
  {
    var cands := [card];
    if IsWildDraw4Symbol(card.symbol) {
      assert !HasColorMatch(cands, card);
    }
    assert LegalAt(cands, card, true, 0);
    var bound := Bind(card, choice);
    CountEqPositive(hand, card);
    var i :| 0 <= i < |hand| && CardEq(hand[i], card);
    BindKeepsCounts(card, choice, hand[i]);
    CardEqIsEquivalence(hand[i], card, hand[i]);
    CardEqIsEquivalence(card, hand[i], card);
    assert CardEq(hand[i], bound);
    PlayCounts(hand, card, Listed([card]), choice, card);
    BindKeepsCounts(card, choice, card);
  }

  lemma {:induction false} CountEqPositive(s: seq<Card>, d: Card)
    requires CountEq(s, d) >= 1
    ensures exists i :: 0 <= i < |s| && CardEq(s[i], d)
    decreases |s|
  {
    if !CardEq(s[0], d) {
      CountEqPositive(s[1..], d);
      var i :| 0 <= i < |s[1..]| && CardEq(s[1..][i], d);
      assert CardEq(s[i + 1], d);
    }
  }

  /** The defect of the play as written. With two plain wild cards in the
      hand and the second picked, the colour is bound to the second and the
      first is removed: the hand keeps a wild card with a colour, where the
      corrected play keeps a colourless one. */
  lemma PlayAsWrittenKeepsBoundWild()
    ensures
      var w := Card(None, None, Some("wild"), None);
      var red5 := Card(Some("red"), Some("5"), None, Some("red"));
      var aw := PlayAsWritten([w, w], red5, WholeHand, Choice(1, 1));
      && aw == Ok(Some(Played(w.(color := Some("blue")), [w.(color := Some("blue"))])))
      && Unbound([w, w]) && !Unbound(aw.value.value.hand)
  {
    var w := Card(None, None, Some("wild"), None);
    var red5 := Card(Some("red"), Some("5"), None, Some("red"));
    var bw := w.(color := Some("blue"));
    TwoWildsAsWrittenPlay(w, red5);
    assert IsWild(bw) && [bw][0] == bw;
  }

  lemma TwoWildsAsWrittenPlay(w: Card, red5: Card)
    requires w == Card(None, None, Some("wild"), None)
    requires red5 == Card(Some("red"), Some("5"), None, Some("red"))
    ensures PlayAsWritten([w, w], red5, WholeHand, Choice(1, 1)) == Ok(Some(Played(w.(color := Some("blue")), [w.(color := Some("blue"))])))
  {
    var bw := w.(color := Some("blue"));
    TwoWildsSecondPicked(w, red5);
    assert Bind(w, Choice(1, 1)) == bw;
    assert [w, w][1 := bw] == [w, bw];
    assert FirstEq([w, bw], bw) == Some(0);
    PlayAsWrittenWhole([w, w], red5, Choice(1, 1), 1, 0);
    assert [w, bw][..0] + [w, bw][1..] == [bw];
  }

  /** The corrected play on the same hand keeps the colourless wild. */
  lemma PlayKeepsUnboundWild()
    ensures
      var w := Card(None, None, Some("wild"), None);
      var red5 := Card(Some("red"), Some("5"), None, Some("red"));
      Play([w, w], red5, WholeHand, Choice(1, 1)) == Ok(Some(Played(w.(color := Some("blue")), [w])))
  {
    var w := Card(None, None, Some("wild"), None);
    var red5 := Card(Some("red"), Some("5"), None, Some("red"));
    TwoWildsSecondPicked(w, red5);
    assert Bind(w, Choice(1, 1)) == w.(color := Some("blue"));
    assert [w, w][..1] + [w, w][2..] == [w];
  }

  /** Why the bound colour matters: a wild card left in the hand with a
      colour counts as a colour match, so a wild-draw-4 held beside it is
      no longer legal on a top card of that colour, where beside the
      colourless wild it is. */
  lemma BoundWildBlocksWildDraw4()
    ensures
      var w := Card(None, None, Some("wild"), None);
      var wd4 := Card(None, None, Some("wild-draw-4"), None);
      var blue7 := Card(Some("blue"), Some("7"), None, Some("blue"));
      && !LegalAt([w.(color := Some("blue")), wd4], blue7, true, 1)
      && LegalAt([w, wd4], blue7, true, 1)
  {
    var w := Card(None, None, Some("wild"), None);
    var wd4 := Card(None, None, Some("wild-draw-4"), None);
    var blue7 := Card(Some("blue"), Some("7"), None, Some("blue"));
    var bound := [w.(color := Some("blue")), wd4];
    assert CountsAsColorMatch(bound[0], blue7);
    assert !CountsAsColorMatch(w, blue7) && !CountsAsColorMatch(wd4, blue7);
  }

  lemma TwoWildsSecondPicked(w: Card, top: Card)
    requires w == Card(None, None, Some("wild"), None)
    requires top == Card(Some("red"), Some("5"), None, Some("red"))
    ensures SelectCard([w, w], top, Choice(1, 1)) == Some(1)
  {
    assert [w, w][..1] == [w];
    assert [w][..0] == [];
    assert ScanCards([w], top, true) == Scan([0], [], 0);
    assert ScanCards([w, w], top, true) == Scan([0, 1], [], 0);
  }
}
