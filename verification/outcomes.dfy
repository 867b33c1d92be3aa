/** Optional values, the engine's failure causes, and a failure-compatible
    Result used wherever the source raises (assertions and ValueError). */
module Outcomes {

  datatype Option<+T> = None | Some(value: T)

  /** Every way the engine can abort. Each names the check that raises it. */
  datatype Error =
    | CardArgsRejected   // check_card_args: an assertion on the constructor arguments
    | EmptyCardList      // check_cards: a hand-over of zero cards
    | NotEnoughCards     // Deck.draw: more cards requested than the deck holds
    | DeckNotEmpty       // Deck.refill: refilling a deck that still holds cards
    | EmptyPile          // Pile.recycle / Dealer.get_top_card on an empty discard pile
    | BadPlayerCount     // check_players: too few or too many players
    | NotAnAction        // execute_card_action on a card without an action
    | IllegalPlay        // check_legal: played card not legal, or wild without colour
    | EmptyHand          // uno.py Player.select_card on an empty hand
    | NotInHand          // list.remove: no card in the hand equals the played one

  datatype Result<+T> = Ok(value: T) | Err(error: Error) {
    predicate IsFailure() { Err? }

    function PropagateFailure<U>(): Result<U>
      requires Err?
    {
      Err(error)
    }

    function Extract(): T
      requires Ok?
    {
      value
    }
  }
}
