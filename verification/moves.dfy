/**
 The three hands of Rock-Paper-Scissors, the game rule saying which hand
 beats which, and the fixed response table the predictor answers with.
 */
module Moves {

  /** A hand, written as its one-letter code. */
  type Move = c: char | c == 'R' || c == 'P' || c == 'S' witness 'R'

  /** The order in which the predictor tries the three hands as a continuation. */
  const Order: seq<Move> := ['R', 'P', 'S']

  /** Position of a hand in `Order`. */
  function Rank(m: Move): (r: nat)
    ensures r < |Order| && Order[r] == m
  {
    if m == 'R' then 0 else if m == 'P' then 1 else 2
  }

  /** The game rule: paper covers rock, scissors cut paper, rock crushes scissors. */
  predicate Beats(a: Move, b: Move) {
    || (a == 'P' && b == 'R')
    || (a == 'S' && b == 'P')
    || (a == 'R' && b == 'S')
  }

  /** The response table: the hand to play against a predicted hand. */
  function Counter(predicted: Move): (reply: Move)
    ensures Beats(reply, predicted)
    ensures forall other: Move :: Beats(other, predicted) ==> other == reply
  {
    match predicted
    case 'P' => 'S'
    case 'R' => 'P'
    case 'S' => 'R'
  }

  /** Every hand occurs in `Order`, exactly once, at its rank. */
  lemma OrderListsEveryMove(m: Move)
    ensures m in Order
    ensures forall i :: 0 <= i < |Order| && Order[i] == m ==> i == Rank(m)
  {
  }
}
