/**
 How the predictor turns the frequency table into a predicted hand: the
 last four moves are extended by each hand in turn, the extensions already
 seen are kept, and the hand whose extension was seen most often wins,
 the earliest in R, P, S order on a tie.
 */
module Selection {
  import opened Moves
  import opened Tally

  /** The prediction when nothing better is known. */
  const DefaultPrediction: Move := 'P'

  /** The window that would be seen next if the opponent played `x` after `context`. */
  function Candidate(context: string, x: Move): string {
    context + [x]
  }

  /** Index of the first greatest element: a left-to-right scan that only
      replaces its current best by a strictly greater element. */
  function FirstMaxIndex(xs: seq<nat>): (i: nat)
    requires |xs| > 0
    ensures i < |xs|
    ensures forall j :: 0 <= j < |xs| ==> xs[j] <= xs[i]
    ensures forall j :: 0 <= j < i ==> xs[j] < xs[i]
    decreases |xs|
  {
    if |xs| == 1 then 0
    else
      var best := FirstMaxIndex(xs[..|xs| - 1]);
      if xs[|xs| - 1] > xs[best] then |xs| - 1 else best
  }

  /** Ranks strictly increase along `moves`. */
  predicate InOrder(moves: seq<Move>) {
    forall i, j :: 0 <= i < j < |moves| ==> Rank(moves[i]) < Rank(moves[j])
  }

  /** The hands of `moves`, in their order, whose candidate is in the table. */
  function PresentMoves(table: Table, context: string, moves: seq<Move>): (present: seq<Move>)
    ensures forall x :: x in present <==> x in moves && Candidate(context, x) in table
    ensures InOrder(moves) ==> InOrder(present)
    decreases |moves|
  {
    if moves == [] then []
    else
      var rest := PresentMoves(table, context, moves[1..]);
      if Candidate(context, moves[0]) in table then
        InOrderAfterHead(moves, rest);
        [moves[0]] + rest
      else
        rest
  }

  /** Dropping the head keeps the order, and everything drawn from the tail ranks after the head. */
  lemma InOrderAfterHead(moves: seq<Move>, rest: seq<Move>)
    requires |moves| > 0
    requires forall x :: x in rest ==> x in moves[1..]
    ensures InOrder(moves) ==> InOrder(moves[1..])
    ensures InOrder(moves) && InOrder(rest) ==> InOrder([moves[0]] + rest)
  {
    if InOrder(moves) && InOrder(rest) {
      forall j | 0 <= j < |rest|
        ensures Rank(moves[0]) < Rank(rest[j])
      {
        assert rest[j] in moves[1..];
        var k :| 0 <= k < |moves| - 1 && moves[1..][k] == rest[j];
        assert moves[k + 1] == rest[j];
      }
    }
  }

  /** The recorded count of each present hand's candidate. */
  function CandidateCounts(table: Table, context: string, present: seq<Move>): seq<nat>
    requires forall x :: x in present ==> Candidate(context, x) in table
  {
    seq(|present|, i requires 0 <= i < |present| => table[Candidate(context, present[i])])
  }

  /** `x` is the hand the table favours after `context`: its candidate is
      present, no present candidate has a greater count, and every hand
      before it in R, P, S order has a strictly smaller count. */
  ghost predicate Preferred(table: Table, context: string, x: Move) {
    && Candidate(context, x) in table
    && (forall y: Move :: Candidate(context, y) in table ==>
          table[Candidate(context, y)] <= table[Candidate(context, x)])
    && (forall y: Move :: Candidate(context, y) in table && Rank(y) < Rank(x) ==>
          table[Candidate(context, y)] < table[Candidate(context, x)])
  }

  /** The predicted next hand of the opponent after `context`. */
  function Predict(table: Table, context: string): (prediction: Move)
    ensures (forall y: Move :: Candidate(context, y) !in table) ==> prediction == DefaultPrediction
    ensures (exists y: Move :: Candidate(context, y) in table) ==> Preferred(table, context, prediction)
  {
    var present := PresentMoves(table, context, Order);
    if present == [] then DefaultPrediction
    else
      var counts := CandidateCounts(table, context, present);
      var best := FirstMaxIndex(counts);
      PredictSelectsPreferred(table, context, present, counts, best);
      present[best]
  }

  /** The first maximum among the present hands is the preferred hand. */
  lemma PredictSelectsPreferred(table: Table, context: string, present: seq<Move>, counts: seq<nat>, best: nat)
    requires present == PresentMoves(table, context, Order)
    requires forall x :: x in present ==> Candidate(context, x) in table
    requires counts == CandidateCounts(table, context, present)
    requires best < |counts|
    requires forall j :: 0 <= j < |counts| ==> counts[j] <= counts[best]
    requires forall j :: 0 <= j < best ==> counts[j] < counts[best]
    ensures Preferred(table, context, present[best])
  {
    var x := present[best];
    assert InOrder(Order);
    forall y: Move | Candidate(context, y) in table
      ensures table[Candidate(context, y)] <= table[Candidate(context, x)]
      ensures Rank(y) < Rank(x) ==> table[Candidate(context, y)] < table[Candidate(context, x)]
    {
      OrderListsEveryMove(y);
      assert y in present;
      var j :| 0 <= j < |present| && present[j] == y;
      assert counts[j] <= counts[best];
      if Rank(y) < Rank(x) {
        assert j != best;
        assert !(best < j);
      }
    }
  }

  /** At most one hand is preferred, so `Preferred` pins the prediction down. */
  lemma PreferredUnique(table: Table, context: string, x: Move, y: Move)
    requires Preferred(table, context, x) && Preferred(table, context, y)
    ensures x == y
  {
  }

  /** When only one continuation has been seen, it is predicted. */
  lemma PredictsOnlySeen(table: Table, context: string, x: Move)
    requires Candidate(context, x) in table
    requires forall y: Move :: Candidate(context, y) in table ==> y == x
    ensures Predict(table, context) == x
  {
  }

  /** When the only window counted is five rocks, rock follows four rocks. */
  lemma OnlyFiveRocksSeen(table: Table)
    requires table.Keys == {"RRRRR"}
    ensures Predict(table, "RRRR") == 'R'
  {
    assert Candidate("RRRR", 'R') == "RRRRR";
    forall y: Move | Candidate("RRRR", y) in table
      ensures y == 'R'
    {
      assert Candidate("RRRR", y)[4] == y;
    }
    PredictsOnlySeen(table, "RRRR", 'R');
  }

  /** Equal counts on all three candidates favour rock. */
  lemma TieFavoursRock(table: Table, context: string)
    requires forall y: Move :: Candidate(context, y) in table
    requires forall y: Move :: table[Candidate(context, y)] == table[Candidate(context, 'R')]
    ensures Predict(table, context) == 'R'
  {
    assert Candidate(context, 'R') in table;
  }
}
