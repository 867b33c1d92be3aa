# Uno rules engine in Dafny

This project models the rules engine of a small Uno game. The main model is the
package module `uno/_game.py`. A second model covers the earlier single-file
engine `uno.py`, which keeps the same card flow but differs in equality, in the
filter, and in turn order. Each module holds the operations and the properties
proved about them.

- `Outcomes` covers the result types. Every `assert` of the program that a
  caller can trip is an `Err` with a named error, never a precondition.
- `Cards` covers the card value:
  - the constructor's argument checks, and the wild/action classification;
  - the equality under which a wild card ignores its bound colour;
  - `copy()`, which rebuilds a card from its constructor arguments and so drops
    a bound colour.
- `DefaultDeck` covers `generate_default_deck` and the composition its docstring
  promises.
- `CardFlow` covers Pile, Deck and Dealer:
  - a shuffle, as a permutation driven by an arbitrary random source;
  - recycling the discard pile;
  - the two-stage `Dealer.draw`;
  - the initial deal.
- `Legality` covers `filter_legal_cards` and `check_legal`. The filter is
  computed on positions, so that it is known which card object was picked. A
  flag selects the rule set: the package's, where a plain wild is always legal,
  or `uno.py`'s, where it is not.
- `Hands` covers `Player.take`, `select_card` and `play` with the random strategy.
  The strategy's picks become a `Choice` value: a card index and a colour index,
  each taken modulo the list it picks from.
- `TurnOrder` covers `_cycle` and `Players`: `next`, `skip`, `reverse` and
  `first`, plus the traces of `tests/test_players.py`.
- `Game` covers `execute_card_action` and two invariants:
  - `Inv` holds in every state the loop reaches as written. The deck holds
    fresh cards. Hands and pile hold sound cards: cards of the default deck's
    kinds, where a wild card may carry a colour a strategy bound to it.
  - `FreshInv` adds that no hand holds a bound colour. It holds only when the
    corrected `Player.play` is used.
- `GameRun` covers the set-up of `Game.run` and one iteration of its loop:
  1. the pending action;
  2. `next()`;
  3. a play from the hand, or a draw and a second chance;
  4. `check_legal`, discard and the game-over test.

  A `Version` parameter selects the `Player.play` the loop calls: `AsWritten`,
  the source's, or `Corrected`, the finding's fix. A `Held` value records the
  hand position, if any, whose card object is also the top card of the pile.
  The play as written creates one when `list.remove` deletes an earlier equal
  card instead of the object played. The strategy can later bind a new colour
  on that object, and that recolours the top card too.
- `Legacy` covers `uno.py`: dataclass equality, the filter without the plain-wild
  rule, `select_card` ignoring the playable cards, the cycle-based `Players`
  whose `reverse()` consumes a lap, and the extra `next()` in its
  `execute_card_action`.

Randomness is always a parameter: `rng: nat -> nat` for shuffles and `Choice`
for the strategy. Every draw that `random` could make is then some value of the
parameter.

How the two versions differ, as the model states it:

- Equality and `list.remove`:
  - In `uno.py`, `Card` is a `@dataclass` with no annotated fields, so any two
    cards compare equal. `list.remove` therefore drops the hand's first card,
    whichever card was played, and the played card stays in the hand
    (`Legacy.PlayKeepsPlayedCard`).
  - For the same reason, `check_legal` accepts any card as soon as the filter
    keeps something (`Legacy.CheckLegalAcceptsOtherCard`).
- Reverse: `uno.py`'s `reverse()` takes one lap of `next()` calls and cycles
  over it backwards. The first `next()` afterwards yields the seat yielded
  last, and play then runs the other way round (`Legacy.ReverseComesBack`).
- Skip: `uno.py`'s `execute_card_action` always calls `next()` once more after
  `reverse()` or `skip()`. Followed by the loop's own `next()`, a skip therefore
  passes over two players (`Legacy.SkipPassesTwoPlayers`).
- The filter's result is not a subsequence of its input in general: a
  wild-draw-4 is moved behind the matching cards (`Legality.FilterMovesWildDraw4Last`).
  It is the matching cards in list order, followed by the wild-draw-4 cards in
  list order, and `Legality.FilterPositions` states exactly that.
- `tests/test_card.py` passes colours and numbers positionally. `Card(None, "wild")` builds a
  colourless number card, which the constructor rejects (`Cards.PositionalTestArgs`).

## Model

| member | source | states |
|---|---|---|
| Cards.NewCard | uno/_game.py:28-59 | The constructor fails exactly when there is neither a number nor a symbol, when a truthy number comes without a colour, or when a wild symbol comes with a colour. Otherwise the card carries the arguments, is consistent, and a wild card has no colour. |
| Cards.Classification | uno/_game.py:16-25 | `is_wild` holds exactly for symbols starting with "wild". `is_action` holds exactly for the four action symbols. Wild-draw-4 is the only card that is both, and a missing symbol is neither. |
| Cards.CardEqIsEquivalence | uno/_game.py:64-75 | `Card.__eq__` is reflexive, symmetric and transitive. |
| Cards.CardEqCases | uno/_game.py:64-75 | Two wild cards are equal iff their symbols match, whatever colours are bound. Two other cards are equal iff colour, number and symbol all match. A wild card never equals a non-wild one. |
| Cards.BindKeepsEquality | uno/_game.py:238-239 | Binding a colour to a wild card changes nothing it is equal to, in either operand order. |
| Cards.CopyRebuilds | uno/_game.py:61-62 | `copy()` re-runs the constructor successfully and yields an equal, consistent card. A wild card's colour is reset to none; any other card is unchanged. |
| Cards.ChooseColor | uno/_game.py:242-243 | The strategy's colour is one of the four colours. |
| Cards.PositionalTestArgs | tests/test_card.py:5-29 | `Card(None, "wild")` is rejected by the constructor. `Card("green", "reverse")` is a number card and not an action card. |
| DefaultDeck.DefaultDeckComposition | uno/_game.py:121-151 | The deck has 108 cards. Per colour it has one "0" and two each of "1" to "9", reverse, skip and draw-2. It has four colourless "wild" and four "wild-draw-4", and nothing else. The constructor accepts every card. |
| DefaultDeck.NumberCardCount | uno/_game.py:134-143 | A number card of each colour occurs once for "0" and twice for "1" to "9". |
| DefaultDeck.ActionCardCount | uno/_game.py:135-146 | Each coloured reverse, skip and draw-2 occurs twice. |
| DefaultDeck.WildCardCount | uno/_game.py:136-148 | "wild" and "wild-draw-4" occur four times each, without colour. |
| DefaultDeck.DeckStandard | uno/_game.py:138-150 | Each of the 108 positions holds a standard card: a coloured number or action card, or a colourless wild card. |
| DefaultDeck.StandardCardConstructible | uno/_game.py:141-147 | Every standard card is exactly what the constructor builds from its own fields. |
| CardFlow.Shuffle | uno/_game.py:155-157 | `random.shuffle` returns a permutation of its argument: same length, same multiset. |
| CardFlow.ShuffleBelow | uno/_game.py:157 | Shuffling the first k positions permutes the list and leaves every position from k on untouched. |
| CardFlow.Recycle | uno/_game.py:102-112 | Recycling fails exactly on an empty pile. Otherwise the pile becomes just its top card, and the cards handed back are the copies of the cards under it, in order, with lengths conserved. |
| CardFlow.RecycleResetsWildColors | uno/_game.py:102-112 | Each recycled card equals the card it replaces and is consistent, and a wild one has lost its bound colour. |
| CardFlow.SuffixStart | uno/_game.py:161-162 | The slice `cards[-n:]` starts n cards from the end for 0 < n <= len, and at the start for n = 0. |
| CardFlow.DeckDraw | uno/_game.py:159-163 | `Deck.draw(n)` fails iff n exceeds the deck. Otherwise the rest followed by the drawn cards is the old deck, n cards are drawn for n >= 1, and `draw(0)` takes the whole deck. |
| CardFlow.Refill | uno/_game.py:165-168 | Refilling fails iff the deck is not empty. Otherwise the new deck is a permutation of the given cards. |
| CardFlow.NewDeck | uno/_game.py:155-157 | A new deck is a 108-card permutation of the default deck. |
| CardFlow.DealerDraw | uno/_game.py:196-213 | The draw succeeds iff the deck holds n cards, or the pile is non-empty and the cards under its top card make up the shortfall. On success: n cards are drawn, cards are conserved, and the top card is kept. A short deck is drawn entirely first and the rest comes from the recycled copies, with the pile reduced to its top card. |
| CardFlow.RecyclingDraw | uno/_game.py:200-213 | The recycling branch fails with EmptyPile on an empty pile and with NotEnoughCards when the copies are too few. Otherwise the deck's cards come first, and the rest plus the new deck are exactly the copies. |
| CardFlow.DealerDrawFailure | uno/_game.py:196-213 | A failed draw fails with EmptyPile iff the pile is empty, and otherwise with NotEnoughCards. |
| CardFlow.TopCard | uno/_game.py:219-221 | `get_top_card` fails iff the pile is empty, and otherwise returns the last card discarded. |
| CardFlow.DiscardThenTop | uno/_game.py:215-221 | After `discard(card)`, the top card is that card, the deck is unchanged, and the pile has grown by exactly that card. |
| CardFlow.FlipInitialCard | uno/_game.py:185-187 | Flipping succeeds iff a card can be drawn. It conserves cards, and from a non-empty deck it moves the deck's last card onto the pile. |
| CardFlow.DrawInitialHands | uno/_game.py:189-194 | Dealing succeeds iff the deck holds players × n cards (n >= 1). It gives one hand per player, each of n cards. The stacked hands plus the rest are the old deck. |
| Legality.FilterPositions | uno/_game.py:262-293 | The positions the filter keeps are exactly the legal ones. A wild-draw-4 is kept iff no other card matches the top card's colour; any other card iff its number, symbol or colour matches (or, in the package, it is a plain wild). The matches come first in list order, then the wild-draw-4 cards in list order. |
| Legality.FilterLegalCardsContents | uno/_game.py:262-293 | Per position, a card other than wild-draw-4 is returned iff it matches, and a wild-draw-4 iff there is no colour match. A plain wild is always returned, and every returned card comes from the list. |
| Legality.FilterMovesWildDraw4Last | uno/_game.py:275-291 | `[wild-draw-4, red 5]` on a blue 5 filters to `[red 5, wild-draw-4]`, so the result is not a subsequence of the input. |
| Legality.ScanColorMatches | uno/_game.py:280-288 | `n_color_matches` is positive iff some card other than wild-draw-4 has the top card's colour. |
| Legality.CheckLegal | uno/_game.py:399-403 | `check_legal` passes iff some legal playable card equals the played card and a wild played card carries a colour. Otherwise it fails with IllegalPlay. |
| Hands.Take | uno/_game.py:307-312 | Taking fails iff the cards are empty. Otherwise they are appended after the unchanged hand. |
| Hands.TakeCounts | uno/_game.py:307-312 | Taking adds the taken cards' count of every card to the hand's count. |
| Hands.HandPosition | uno/_game.py:317-322 | A candidate is a hand object, at a known position, unless a separate non-empty playable list was passed. |
| Hands.SelectCard | uno/_game.py:314-327 | Selection returns none iff no candidate is legal, and otherwise a legal candidate. |
| Hands.SelectReachesEveryLegal | uno/_game.py:235-237 | Every legal candidate is the pick of some choice. |
| Hands.Bind | uno/_game.py:235-240 | The strategy binds a colour from the four to a wild card and returns any other card unchanged. Only the colour changes. |
| Hands.BindKeepsCounts | uno/_game.py:238-239 | The bound card is equal to exactly the cards the picked card was equal to. |
| Hands.Remove | uno/_game.py:338 | `list.remove` fails iff no card is equal. Otherwise it drops the first equal card, and only that card. |
| Hands.RemoveCounts | uno/_game.py:338 | Removing x lowers by one the count of every card equal to x and keeps every other count. |
| Hands.PlayAsWritten | uno/_game.py:332-343 | Play as written returns none iff nothing is legal. Otherwise the played card is a legal candidate with a colour when wild, and the hand shrinks by one. |
| Hands.PlayAsWrittenCounts | uno/_game.py:332-343 | As written, the count of every card equal to the played card drops by one and every other count is kept. |
| Hands.Play | uno/_game.py:332-343 | The corrected play returns none iff no candidate is legal. Otherwise the played card is a legal candidate, with a colour when wild, and the hand shrinks by one. When the candidate is a hand object, the hand loses exactly that object: the remaining multiset plus it is the old hand. |
| Hands.PlayBy | uno/_game.py:332-343 | Either version of the play returns none iff nothing is legal. Otherwise the played card is a legal candidate with a colour when wild, and the hand shrinks by one. |
| Hands.PlayVersionsSameCard | uno/_game.py:332-343 | On a hand or a drawn card, both versions succeed, both play or both pass, and they hand back the same card. |
| Hands.PlayAsWrittenFromHeld | uno/_game.py:332-343 | As written, the hand left is contained in the hand with the picked object bound. |
| Hands.PickedAt | uno/_game.py:235-240 | The position of the object the strategy picks from the hand, none iff nothing is legal. Both versions hand back that object, with a colour when wild, and the corrected play leaves the hand without exactly that position. |
| Hands.KeptAt | uno/_game.py:338 | As written, the played object stays in the hand iff an earlier card of the hand equals it. It then sits one place down. Otherwise the hand loses exactly the picked position. |
| Hands.PlayCounts | uno/_game.py:332-343 | In the corrected play, one instance of the played card leaves the hand and every other count is kept. |
| Hands.PlayKeepsUnbound | uno/_game.py:332-343 | The corrected play keeps wild cards in the hand colourless. |
| Hands.PlayVersionsAgree | uno/_game.py:332-343 | When no card before the picked object compares equal to it, the written and the corrected play agree. |
| Hands.PlayOwnTopCard | tests/test_player.py:5-18 | Playing a held card as the single playable card, with itself on top, succeeds. The hand loses one card, and that card's count drops by one. |
| Hands.PlayAsWrittenKeepsBoundWild | uno/_game.py:332-343 | Hand [wild, wild] on a red 5, second card picked with blue: the play as written leaves a blue-bound wild in the hand. |
| Hands.PlayKeepsUnboundWild | uno/_game.py:332-343 | The corrected play on the same hand leaves the colourless wild. |
| Hands.BoundWildBlocksWildDraw4 | uno/_game.py:287-291 | A blue-bound wild left in a hand makes a wild-draw-4 beside it illegal on a blue 7. Beside a colourless wild it is legal. |
| TurnOrder.CycleOrder | uno/_game.py:346-360 | `_cycle` yields, at its k-th value, the seat k+1 places after its start seat in the direction of play. The start seat is the current player, or with none the last seat going forward and seat 0 going backward. |
| TurnOrder.NewPlayers | uno/_game.py:364-371 | `Players` succeeds iff there are 2 to 5 players, and starts valid with no current player, forward, at turn 0. |
| TurnOrder.CheckPlayers | uno/_game.py:406-411 | `check_players` accepts exactly 2 to 5 players. |
| TurnOrder.Next | uno/_game.py:373-377 | `next()` yields the seat after the anchor in the direction of play, makes it current, counts the turn and keeps the cycle valid. |
| TurnOrder.NextValid | uno/_game.py:373-377 | The value yielded becomes the anchor of the remaining cycle. |
| TurnOrder.Skip | uno/_game.py:379-380 | `skip()` makes the seat after the anchor current and counts one turn. |
| TurnOrder.Reverse | uno/_game.py:382-386 | `reverse()` flips the direction and keeps the current player and the turn. The next player is the neighbour of the start seat in the new direction. |
| TurnOrder.First | uno/_game.py:388-389 | `first()` is seat 0, a seat of the table. |
| TurnOrder.FirstIsFirstNext | uno/_game.py:502-505 | The player asked for a flipped wild's colour is the one the first `next()` of a fresh table yields. |
| TurnOrder.InitialDirection | uno/_game.py:346-371 | A fresh table yields seats 0 then 1. Reversed before any turn, it yields the last seat, then the one before it. |
| TurnOrder.ReverseAfterPlay | uno/_game.py:382-386 | After a play, reversing makes the player before the current one next. Reversing twice changes nothing about who is next. |
| TurnOrder.LapVisitsEverySeat | uno/_game.py:373-377 | The k-th of a run of `next()` calls yields the seat k places on, and a full lap ends at the anchor. |
| TurnOrder.NextAndSkipTrace | tests/test_players.py:9-31 | With three players: 1, 2, 3, 1; then 1, skip, 3; then skip, 2, 3. |
| TurnOrder.ReverseAfterInitTrace | tests/test_players.py:34-41 | With three players: reverse, 3, 2, 1, 3. |
| TurnOrder.ReverseNextReverseTrace | tests/test_players.py:44-54 | With four players: 1, 2, reverse, 1, reverse, 2, 3, 4. |
| TurnOrder.ReverseNextNextReverseTrace | tests/test_players.py:57-68 | With four players: 1, 2, reverse, 1, 4, reverse, 1, 2, 3. |
| TurnOrder.ReverseNextSkipTrace | tests/test_players.py:71-80 | With three players: 1, 2, reverse, 1, skip, 2, 1. |
| Game.TurnInfo | uno/_game.py:456-467 | `print_turn_info` fails iff the pile is empty. |
| Game.ExecuteCardAction | uno/_game.py:435-453 | A non-action card is refused. Reverse flips the direction and changes nothing else. Skip makes the next player current and fails iff the pile is empty. Draw-2 and wild-draw-4 make the next player current and append 2 or 4 cards to that player's hand only. Cards are conserved, and the top card is kept. |
| Game.Penalize | uno/_game.py:447-453 | The penalised player gets exactly n cards appended, other hands are unchanged, and cards are conserved. It fails with EmptyPile on an empty pile, and with NotEnoughCards iff deck and pile are too small. On success the top card is kept. |
| Game.ExecuteCardActionKeepsInv | uno/_game.py:435-453 | The card action keeps the invariant: the deck holds fresh cards, hands and pile hold sound cards, and the pile is non-empty. Hands that were fresh stay fresh. |
| Game.ExecuteCardActionFailure | uno/_game.py:435-453 | With a top card, an action card fails only with NotEnoughCards, and only when deck and pile are too small. |
| Game.DealerDrawFresh | uno/_game.py:196-213 | Drawing keeps the deck fresh and the pile sound, and hands out fresh cards, recycling included. |
| Game.CopiesOfFreshCards | uno/_game.py:521 | The copies `Game.run` keeps for `check_legal` are the hand itself when no wild in it is bound. |
| Game.NewDeckFresh | uno/_game.py:155-157 | A new deck holds only fresh cards. |
| GameRun.TakeHands | uno/_game.py:489-490 | Taking the dealt hands fails iff some hand is empty, and otherwise gives each player their hand. |
| GameRun.Deal | uno/_game.py:478-494 | For a hand size of at least 1, dealing plus the flip succeeds iff players × hand size < 108. Hands have the requested size, everything dealt is fresh, the pile holds one card, and 108 cards are accounted for. |
| GameRun.Setup | uno/_game.py:476-506 | For a hand size of at least 1, set-up succeeds iff there are 2 to 5 players and the deal fits. It reaches the fresh-hand invariant with 108 cards, the flipped card is the only pile card, a flipped wild gets a colour, and no one is current yet. |
| GameRun.PendingAction | uno/_game.py:512-513 | Only a pending action card changes anything, and cards are conserved. |
| GameRun.Finish | uno/_game.py:536-541 | Discarding makes the played card the top card and conserves cards. The player's hand becomes what the play left and no other hand changes. The game is over iff the player's hand is empty. |
| GameRun.AfterDraw | uno/_game.py:528-530 | The drawn card goes to the end of the player's hand and cards are conserved. |
| GameRun.TurnStep | uno/_game.py:510-541 | A loop iteration, with either version of the play, conserves cards and leaves a current player. The game is over iff a card was played and the current player's hand is empty, and the played card is on top. When no card is played, the held position carries over. After a corrected play, no position is held. |
| GameRun.HeldAfter | uno/_game.py:338 | After a play, a position holds the top card's object iff the play was as written and an earlier card of the hand equals the played one. That position of the new hand holds the played card. |
| GameRun.TurnStepKeepsHeld | uno/_game.py:510-541 | Every iteration keeps the held position, if any, pointing at a hand card that is the top card: card actions and draws append to hands and keep the top card, and a discard starts afresh. |
| GameRun.PendingActionKeepsHeld | uno/_game.py:435-453 | A card action keeps the held position on the top card. |
| GameRun.PlayHand | uno/_game.py:521-537 | A play from a hand holding a legal card either fails `check_legal` or discards a card, and conserves cards. When no card is played the held position carries over, and after a corrected play none is held. |
| GameRun.PlayDrawn | uno/_game.py:529-537 | The second chance either passes, leaving the state as it was, or discards a card after `check_legal`, and conserves cards. |
| GameRun.CopiesKeepLegal | uno/_game.py:521 | A card legal in a hand of sound cards is legal among the copies `Game.run` keeps: copying drops only wild cards' colours. |
| GameRun.HandPlayPassesCheck | uno/_game.py:521-537 | When the top card is a separate object the play does not touch, a card played from a hand of sound cards passes `check_legal` against the hand's copies with either version, bound wilds in the hand included. |
| GameRun.AliasedPlayCheck | uno/_game.py:399-403 | When the picked object is the top card itself, `check_legal` reads the top card with the colour just bound. A card other than wild-draw-4 still passes, and a wild-draw-4 passes iff no copy in the hand matches that colour. |
| GameRun.PlayHandFailure | uno/_game.py:521-537 | From an invariant state, a play from the hand fails `check_legal` iff the player picks the held object, it is a wild-draw-4, and a copy in the hand matches the colour just bound. The failure is IllegalPlay. |
| GameRun.DrawnPlayPassesCheck | uno/_game.py:529-537 | With either version, a drawn card played on the second chance passes `check_legal` against itself. |
| GameRun.PlayResultSound | uno/_game.py:332-343 | With either version, a play keeps a hand of sound cards sound and hands back a sound card. The corrected play also keeps a fresh hand fresh. |
| GameRun.TurnStepKeepsInv | uno/_game.py:510-541 | A loop iteration, as written or corrected, keeps the invariant: the deck holds fresh cards, hands and pile hold sound cards, and the card the next iteration acts on is sound. |
| GameRun.TurnStepKeepsFreshInv | uno/_game.py:510-541 | With the corrected play, an iteration also keeps every hand free of bound colours. |
| GameRun.TurnAsWrittenLeavesBoundWild | uno/_game.py:521-537 | In the loop as written, a player with [wild, wild] on a red 5 plays the second as blue and passes `check_legal`. The hand keeps a blue wild, which is the top card's object, so hands are no longer fresh. |
| GameRun.TurnCorrectedKeepsFreshWild | uno/_game.py:521-537 | With the corrected play, the same turn leaves the colourless wild in the hand. |
| GameRun.TurnStepFailure | uno/_game.py:510-541 | From an invariant state, an iteration with either version never reads an empty pile. It fails `check_legal` only when a position is held, and otherwise fails only with NotEnoughCards. |
| GameRun.CorrectedTurnFailure | uno/_game.py:510-541 | With the corrected play and no held position, an iteration from an invariant state fails only with NotEnoughCards and leaves no position held. |
| GameRun.AliasedWildDraw4Fails | uno/_game.py:510-541 | Seat 0 holds [wild-draw-4, wild-draw-4, red 3] on a green 5, starting in the fresh-hand invariant. As written, it plays the second wild-draw-4 as blue, and the first card of its hand then holds the top card. After the penalty, its next turn re-plays that card as red and fails with IllegalPlay. |
| Legacy.Remove | uno.py:277-287 | Under dataclass equality, `list.remove` fails only on an empty list and otherwise drops the first card. |
| Legacy.Contains | uno.py:326-330 | Under dataclass equality, `card in cards` holds iff some card is equal to it. |
| Legacy.RemoveAgreesOnFirst | uno.py:277-287 | When the first card is equal under the package's `__eq__` too, both versions of remove agree. |
| Legacy.RemoveDropsOtherCard | uno.py:40-63 | Removing a blue 7 from [red 5, blue 7] drops the red 5 in `uno.py` and the blue 7 in the package. |
| Legacy.LegalCardsPositions | uno.py:214-243 | A wild-draw-4 is kept iff nothing matches the top card's colour. Other cards are kept iff number, symbol or colour match. An unbound plain wild is kept only on another wild, where the package keeps it always. |
| Legacy.LegalCardsNonEmpty | uno.py:214-243 | The filter keeps something iff some position is legal. |
| Legacy.SelectCard | uno.py:262-272 | An empty hand fails with EmptyHand. Otherwise selection returns none iff nothing in the whole hand is legal, and otherwise a legal position of the hand. |
| Legacy.SelectReachesEveryLegal | uno.py:203-208 | Every legal card of the hand is the pick of some choice. |
| Legacy.Play | uno.py:277-287 | Play fails iff the hand is empty, and returns none iff nothing is legal. Otherwise the played card is a legal hand card, with a colour from the four when wild. The hand loses its first card, with the played card left bound in place. |
| Legacy.PlayKeepsPlayedCard | uno.py:277-287 | With [red 5, blue 7] on a blue 3, the blue 7 is played and the hand keeps the blue 7, not the red 5. |
| Legacy.PackagePlayKeepsOtherCard | uno/_game.py:332-343 | With the same hand, the package's player keeps the red 5. |
| Legacy.CheckLegal | uno.py:326-330 | `check_legal` passes iff the filter keeps some playable card and a wild played card carries a colour, whichever card was played. |
| Legacy.CheckLegalAcceptsOtherCard | uno.py:326-330 | A red 5 passes against playable [blue 7] on a blue 3. The package rejects it. |
| Legacy.CheckPlayers | uno.py:333-338 | `check_players` accepts exactly 2 to 4 players. |
| Legacy.NewSeating | uno.py:291-297 | Players over 2 to 4 seats cycle from seat 0, as if the last seat had just played. |
| Legacy.Next | uno.py:313-316 | `next()` yields the seat after the one yielded last, in the cycle's direction. |
| Legacy.LapSeats | uno.py:299-302 | k successive `next()` calls yield the k seats after the one yielded last. |
| Legacy.Reverse | uno.py:299-304 | After `reverse()`, the cycle runs the other way, anchored at the seat that came next before. |
| Legacy.ReverseComesBack | uno.py:299-304 | The first `next()` after `reverse()` yields the seat yielded last, and play then runs the other way round. |
| Legacy.FreshReverseStartsAtLastSeat | uno.py:290-304 | Reversing a fresh cycle gives the first turn to the last seat. |
| Legacy.ReverseTrace | uno.py:290-316 | The sequence of test_players_reverse_next_next_reverse on `uno.py`'s Players: 1, 2, reverse, then 2, 1, 4. |
| Legacy.Skip | uno.py:306-308 | `skip()` consumes the next seat. |
| Legacy.ExecuteCardAction | uno.py:346-363 | A non-action card is refused. Reverse: the extra `next()` yields the seat yielded last, and play turns round. Skip: it yields the second seat on. Draw-2 and wild-draw-4: it yields the next seat, which alone gets 2 or 4 cards appended, failing iff deck and pile fall short. |
| Legacy.Penalize | uno.py:357-363 | The penalised player gets exactly n cards appended, other hands are unchanged, and cards are conserved. The draw fails iff deck and pile fall short. |
| Legacy.SkipPassesTwoPlayers | uno.py:346-363 | After a skip, the loop's next `next()` yields the third seat after the one that played it. |

## Left out

- Printing, `__repr__`, ANSI colour codes and `HumanInput` are terminal I/O and not modelled. `app.py` is not part of this model.
- `generate_players` and `generate_default_players` shuffle named player objects; the model works with seats 0..n-1 directly.
- The full `Game.run` loop is modelled one iteration at a time (`GameRun.TurnStep`). Whether it terminates depends on the random choices, and is not claimed.
- The legacy `Game.run` loop of `uno.py` is not modelled. Its card flow is modelled, and so are the parts where it differs: equality, the filter, `Players` and `execute_card_action`. Its loop also orders the steps differently from the package's: it runs a played card's action straight after the discard, before the game-over test (uno.py:409-411, 418-424). So a winning draw-2 still penalises the next player there.
- GameRun.TurnStepKeepsFreshInv: holds only for the corrected play. With the play as written, a hand can keep a bound wild (`GameRun.TurnAsWrittenLeavesBoundWild`), and only the weaker invariant of `GameRun.TurnStepKeepsInv` holds.
- Sound cards are limited to the default deck's kinds, whose wild symbols are "wild" and "wild-draw-4". A custom deck with another symbol starting with "wild" could make `check_legal` fail in the loop as written. `Deck` always starts from `generate_default_deck` (uno/_game.py:155-156), so this does not arise.
- Object identity is modelled where it changes what the program does: which hand object a strategy binds a colour on, which one `list.remove` deletes, and which hand position, if any, is the top card's object (`GameRun.Held`). `Hands.Play` with a separate, non-empty playable list (as only tests pass one) removes by equality, as written.
- Cards below the top of the pile are values: when a held card leaves the top and is later recoloured, the model does not recolour its earlier place in the pile. Nothing reads those cards except recycling, which copies them and resets wild colours (uno/_game.py:102-112), so no result depends on it.
- `isinstance` checks of `check_cards` and `check_players` are type facts in Dafny; only the length checks are modelled.
- `Deck.draw` with a negative `n` (Python's `cards[-n:]` then drops cards from the front) is modelled but nothing is proved about it: no caller passes one.

## Findings

| source | as written | input that shows it | evidently intended | confidence | as-written member | corrected member |
|---|---|---|---|---|---|---|
| uno/_game.py:332-343 | `RandomStrategy.select_card` (uno/_game.py:235-240) binds the wild's colour on the hand object it picked, then `self.hand.remove(card)` deletes the first card that compares equal, which for wild cards is any card with the same symbol. | A hand of two plain wild cards on a red 5, with the second one picked and blue chosen. The colourless first wild is removed, and a blue-bound wild stays in the hand. That bound colour then counts as a colour match and can make a held wild-draw-4 illegal (`Hands.BoundWildBlocksWildDraw4`). | The hand loses the object that was played and keeps its other cards unchanged. With no bound colours in the hand before the play, none are left after it (`Hands.PlayKeepsUnbound`, and on the same input `Hands.PlayKeepsUnboundWild`). | not executed | Hands.PlayAsWrittenKeepsBoundWild | Hands.Play |
| uno/_game.py:537 | After the same `hand.remove`, the discarded object stays in the hand (uno/_game.py:338) and is also the top card. When the player later picks that object again, `select_card` binds a new colour on it, which recolours the top card, and the `assert card in legal_cards` of `check_legal` (uno/_game.py:401) reads that top card. | Seat 0 holds [wild-draw-4, wild-draw-4, red 3] on a green 5, and the deck holds at least four cards. Turn 1: the second wild-draw-4 is played as blue; the first is removed. The penalty skips seat 1. Turn 2: the kept wild-draw-4 is the only legal card; bound to red, it makes the top card red, the red 3 becomes a colour match, and `check_legal` raises. | A legal play is never rejected. With the play removing the object it picked, no hand object is the top card, and an iteration fails only when the dealer runs out of cards. | not executed | GameRun.AliasedWildDraw4Fails | GameRun.CorrectedTurnFailure |
