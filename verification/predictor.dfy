/**
 The predictor's step: record the opponent's previous hand, count the
 latest five-move window, predict the opponent's next hand from the
 continuations of the last four moves, and answer with the hand that beats
 the prediction. The state the original keeps between calls is made an
 explicit value threaded through the calls.
 */
module Predictor {
  import opened Moves
  import opened Tally
  import opened Selection

  /** Moves of context the prediction looks back on. */
  const Lookback: nat := 4

  /** Length of a counted window: the context plus the move that followed it. */
  const Window: nat := Lookback + 1

  /** The opponent's hands so far, oldest first, and the window counts. */
  datatype State = State(history: seq<Move>, table: Table)

  /** The state at the start of a match. */
  const Initial: State := State([], map[])

  /** The result of one call: the next state and the hand to play. */
  datatype Turn = Turn(state: State, reply: Move)

  /** What the caller passes: nothing (a falsy value, as on the first call
      of a match) or the opponent's previous hand. */
  datatype Input = Empty | Hand(move: Move)

  /** The hand recorded for an input: an empty input counts as rock. */
  function Recorded(play: Input): Move {
    match play
    case Empty => 'R'
    case Hand(m) => m
  }

  /** The newest `Window` hands of a history, oldest first. */
  function LastFive(history: seq<Move>): string
    requires |history| >= Window
  {
    history[|history| - Window..]
  }

  /** The newest `Lookback` hands: the context the continuations extend. */
  function Context(history: seq<Move>): string
    requires |history| >= Window
  {
    LastFive(history)[1..]
  }

  /** One call of the predictor. */
  function Step(s: State, play: Input): (t: Turn)
    // the history grows by exactly the recorded hand
    ensures |t.state.history| == |s.history| + 1
    ensures t.state.history[..|s.history|] == s.history
    ensures play.Empty? ==> t.state.history[|s.history|] == 'R'
    ensures play.Hand? ==> t.state.history[|s.history|] == play.move
    // with at most four hands seen nothing is counted
    ensures |t.state.history| <= Lookback ==> t.state.table == s.table
    // otherwise the newest window gains exactly one and nothing else changes
    ensures |t.state.history| > Lookback ==>
      var w := LastFive(t.state.history);
      && t.state.table.Keys == s.table.Keys + {w}
      && t.state.table[w] == CountOf(s.table, w) + 1
      && (forall k :: k in s.table && k != w ==> t.state.table[k] == s.table[k])
  {
    var history := s.history + [Recorded(play)];
    if |history| > Lookback then
      var lastFive := LastFive(history);
      var table := Bump(s.table, lastFive);
      var prediction := Predict(table, Context(history));
      Turn(State(history, table), Counter(prediction))
    else
      Turn(State(history, s.table), Counter(DefaultPrediction))
  }

  /** The reply of one call: scissors against the default paper while at
      most four hands are known or no continuation of the last four has been
      seen, and otherwise the hand that beats the most frequent continuation. */
  lemma StepReply(s: State, play: Input)
    ensures var t := Step(s, play);
      |t.state.history| <= Lookback ==> t.reply == 'S'
    ensures var t := Step(s, play);
      (&& |t.state.history| > Lookback
       && forall y: Move :: Candidate(Context(t.state.history), y) !in t.state.table) ==>
      t.reply == 'S'
    ensures var t := Step(s, play);
      (&& |t.state.history| > Lookback
       && exists y: Move :: Candidate(Context(t.state.history), y) in t.state.table) ==>
      exists x: Move :: Preferred(t.state.table, Context(t.state.history), x) && Beats(t.reply, x)
  {
  }

  /** Every key is a five-move window and every count is positive. */
  ghost predicate WellFormed(s: State) {
    WellFormedTable(s.table, Window)
  }

  /** A step keeps the table well formed, whatever the state it starts from. */
  lemma StepWellFormed(s: State, play: Input)
    requires WellFormed(s)
    ensures WellFormed(Step(s, play).state)
  {
    var h := Step(s, play).state.history;
    if |h| > Lookback {
      BumpWellFormed(s.table, LastFive(h), Window);
    }
  }

  /** A step appends the recorded hand to the history. */
  lemma StepHistory(s: State, play: Input)
    ensures Step(s, play).state.history == s.history + [Recorded(play)]
  {
  }

  /** The count of every key after a step: one more for the newest window
      once five hands are known, unchanged otherwise. */
  lemma StepCountOf(s: State, play: Input, k: string)
    ensures var t := Step(s, play).state;
      && (k in t.table <==> k in s.table || (|t.history| > Lookback && k == LastFive(t.history)))
      && CountOf(t.table, k) ==
         CountOf(s.table, k) + (if |t.history| > Lookback && k == LastFive(t.history) then 1 else 0)
  {
  }

  /** Counts never decrease and keys are never dropped. */
  lemma StepMonotone(s: State, play: Input, k: string)
    requires k in s.table
    ensures k in Step(s, play).state.table
    ensures Step(s, play).state.table[k] >= s.table[k]
  {
  }

  /** After four rocks, another rock counts the five-rock window and the
      prediction is read off the continuations of four rocks. */
  lemma RockAfterFourRocksCounts(s: State)
    requires |s.history| >= Lookback
    requires s.history[|s.history| - Lookback..] == ['R', 'R', 'R', 'R']
    ensures var table := Bump(s.table, "RRRRR");
      Step(s, Hand('R')) == Turn(State(s.history + ['R'], table), Counter(Predict(table, "RRRR")))
  {
    var h := s.history + ['R'];
    LastFiveOfAppend(s.history, 'R');
    assert LastFive(h) == "RRRRR";
    assert Context(h) == "RRRR";
  }

  /** The newest window after appending a hand is the previous four hands and that hand. */
  lemma LastFiveOfAppend(history: seq<Move>, x: Move)
    requires |history| >= Lookback
    ensures LastFive(history + [x]) == history[|history| - Lookback..] + [x]
  {
  }

  /** After four rocks, when no window other than five rocks has been
      counted, another rock makes the predictor expect rock and play paper. */
  lemma RockAfterFourRocks(s: State)
    requires |s.history| >= Lookback
    requires s.history[|s.history| - Lookback..] == ['R', 'R', 'R', 'R']
    requires s.table.Keys <= {"RRRRR"}
    ensures Step(s, Hand('R')).reply == 'P'
  {
    RockAfterFourRocksCounts(s);
    OnlyFiveRocksSeen(Bump(s.table, "RRRRR"));
  }

  /** The first call of a match, with no previous hand, plays scissors. */
  lemma FirstCallPlaysScissors()
    ensures Step(Initial, Empty).reply == 'S'
    ensures Step(Initial, Empty).state == State(['R'], map[])
  {
  }
}
