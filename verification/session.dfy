/**
 A match seen from the predictor's side: the calls of one match, starting
 from the empty state, and what the state holds after them.
 */
module Session {
  import opened Moves
  import opened Tally
  import opened Selection
  import opened Predictor

  /** The state after a sequence of calls and the hands played in reply. */
  datatype Match = Match(state: State, replies: seq<Move>)

  /** The calls of a match, in order, from the initial state. */
  function Run(inputs: seq<Input>): (m: Match)
    ensures |m.replies| == |inputs|
    ensures |m.state.history| == |inputs|
    decreases |inputs|
  {
    if inputs == [] then Match(Initial, [])
    else
      var before := Run(inputs[..|inputs| - 1]);
      var turn := Step(before.state, inputs[|inputs| - 1]);
      Match(turn.state, before.replies + [turn.reply])
  }

  /** One more call extends a match by one step: earlier replies are never revised. */
  lemma RunExtends(inputs: seq<Input>, play: Input)
    ensures var turn := Step(Run(inputs).state, play);
      Run(inputs + [play]) == Match(turn.state, Run(inputs).replies + [turn.reply])
  {
    var all := inputs + [play];
    assert all[..|all| - 1] == inputs;
  }

  /** The hands recorded for a sequence of inputs, in order. */
  function RecordedHands(inputs: seq<Input>): (hands: seq<Move>)
    ensures |hands| == |inputs|
    ensures forall i :: 0 <= i < |inputs| ==> hands[i] == Recorded(inputs[i])
    decreases |inputs|
  {
    if inputs == [] then []
    else RecordedHands(inputs[..|inputs| - 1]) + [Recorded(inputs[|inputs| - 1])]
  }

  /** The history is exactly the recorded hands of the calls, in call order. */
  lemma {:induction false} RunHistory(inputs: seq<Input>)
    ensures Run(inputs).state.history == RecordedHands(inputs)
    decreases |inputs|
  {
    if inputs != [] {
      var prefix := inputs[..|inputs| - 1];
      RunHistory(prefix);
      StepHistory(Run(prefix).state, inputs[|inputs| - 1]);
    }
  }

  /** Number of positions at which `key` occurs as a window of `history`,
      counting each window by the position of its last hand. */
  function Occurrences(history: seq<Move>, key: string): nat
    decreases |history|
  {
    if |history| < Window then 0
    else
      Occurrences(history[..|history| - 1], key) + (if history[|history| - Window..] == key then 1 else 0)
  }

  /** Only keys of window length ever occur. */
  lemma {:induction false} OccurrencesWidth(history: seq<Move>, key: string)
    requires Occurrences(history, key) > 0
    ensures |key| == Window
    decreases |history|
  {
    if history[|history| - Window..] != key {
      OccurrencesWidth(history[..|history| - 1], key);
    }
  }

  /** Appending a hand adds one occurrence of the newest window, if there is one. */
  lemma OccurrencesSnoc(history: seq<Move>, x: Move, key: string)
    ensures var h := history + [x];
      Occurrences(h, key) ==
        Occurrences(history, key) + (if |h| >= Window && h[|h| - Window..] == key then 1 else 0)
  {
    var h := history + [x];
    assert h[..|h| - 1] == history;
  }

  /** The table counts exactly the windows of the history. */
  ghost predicate Consistent(s: State) {
    forall k ::
      && (k in s.table <==> Occurrences(s.history, k) > 0)
      && (k in s.table ==> s.table[k] == Occurrences(s.history, k))
  }

  /** A step keeps the table in agreement with the history. */
  lemma StepConsistent(s: State, play: Input)
    requires Consistent(s)
    ensures Consistent(Step(s, play).state)
  {
    var t := Step(s, play).state;
    var x := Recorded(play);
    assert t.history == s.history + [x];
    forall k
      ensures k in t.table <==> Occurrences(t.history, k) > 0
      ensures k in t.table ==> t.table[k] == Occurrences(t.history, k)
    {
      OccurrencesSnoc(s.history, x, k);
      StepCountOf(s, play, k);
    }
  }

  /** From the empty start the table counts exactly the windows of the history. */
  lemma {:induction false} RunConsistent(inputs: seq<Input>)
    ensures Consistent(Run(inputs).state)
    decreases |inputs|
  {
    if inputs != [] {
      var prefix := inputs[..|inputs| - 1];
      RunConsistent(prefix);
      StepConsistent(Run(prefix).state, inputs[|inputs| - 1]);
    }
  }

  /** From the empty start every key is a five-move window with a positive count. */
  lemma RunWellFormed(inputs: seq<Input>)
    ensures WellFormed(Run(inputs).state)
  {
    var s := Run(inputs).state;
    RunConsistent(inputs);
    forall k | k in s.table
      ensures |k| == Window && s.table[k] >= 1
    {
      OccurrencesWidth(s.history, k);
    }
  }

  /** From the empty start the counts add up to the number of windows seen. */
  lemma {:induction false} RunTotal(inputs: seq<Input>)
    ensures Total(Run(inputs).state.table) == if |inputs| > Lookback then |inputs| - Lookback else 0
    decreases |inputs|
  {
    if inputs != [] {
      var prefix := inputs[..|inputs| - 1];
      RunTotal(prefix);
      var s := Run(prefix).state;
      var t := Step(s, inputs[|inputs| - 1]).state;
      if |t.history| > Lookback {
        BumpTotal(s.table, LastFive(t.history));
      }
    }
  }

  /** While at most four hands have been seen nothing is counted and
      scissors are played every time. */
  lemma {:induction false} ShortRunCountsNothing(inputs: seq<Input>)
    requires |inputs| <= Lookback
    ensures Run(inputs).state.table == map[]
    ensures forall i :: 0 <= i < |inputs| ==> Run(inputs).replies[i] == 'S'
    decreases |inputs|
  {
    if inputs != [] {
      var prefix := inputs[..|inputs| - 1];
      ShortRunCountsNothing(prefix);
      StepReply(Run(prefix).state, inputs[|inputs| - 1]);
    }
  }

  /** A match against an opponent who always plays rock: nothing on the
      first call, then `n` rocks. */
  function RockInputs(n: nat): seq<Input>
  {
    [Empty] + seq(n, i => Hand('R'))
  }

  /** What a match against constant rock looks like after the empty first
      input and `n` rocks. */
  ghost predicate RockMatch(m: Match, n: nat) {
    && |m.state.history| == n + 1
    && |m.replies| == n + 1
    && (forall i :: 0 <= i < |m.state.history| ==> m.state.history[i] == 'R')
    && (n < Lookback ==> m.state.table == map[])
    && (n >= Lookback ==> m.state.table.Keys == {"RRRRR"} && m.state.table["RRRRR"] == n + 1 - Lookback)
    && (forall i :: 0 <= i < |m.replies| ==> m.replies[i] == if i < Lookback then 'S' else 'P')
  }

  /** One more rock, while fewer than four hands are known, is only recorded. */
  lemma EarlyRock(m: Match, n: nat)
    requires RockMatch(m, n)
    requires n + 1 < Lookback
    ensures var turn := Step(m.state, Hand('R'));
      RockMatch(Match(turn.state, m.replies + [turn.reply]), n + 1)
  {
    var t := Step(m.state, Hand('R'));
    assert t.state.history == m.state.history + ['R'];
    StepReply(m.state, Hand('R'));
  }

  /** One more rock after four rocks is counted and answered with paper. */
  lemma LateRock(m: Match, n: nat)
    requires RockMatch(m, n)
    requires n + 1 >= Lookback
    ensures var turn := Step(m.state, Hand('R'));
      RockMatch(Match(turn.state, m.replies + [turn.reply]), n + 1)
  {
    var s := m.state;
    assert s.history[|s.history| - Lookback..] == ['R', 'R', 'R', 'R'];
    RockAfterFourRocksCounts(s);
    RockAfterFourRocks(s);
    assert Step(s, Hand('R')) == Turn(State(s.history + ['R'], Bump(s.table, "RRRRR")), 'P');
    RockMatchGrows(m, n);
  }

  /** Recording a rock, counting "RRRRR" and playing paper keeps the shape of
      a match against constant rock once four hands are known. */
  lemma RockMatchGrows(m: Match, n: nat)
    requires RockMatch(m, n)
    requires n + 1 >= Lookback
    ensures RockMatch(Match(State(m.state.history + ['R'], Bump(m.state.table, "RRRRR")), m.replies + ['P']), n + 1)
  {
  }

  /** Against an opponent who always plays rock, only "RRRRR" is ever counted,
      once per call from the fifth on; the first four calls play scissors
      and every later call plays paper. */
  lemma {:induction false} AlwaysRock(n: nat)
    ensures RockMatch(Run(RockInputs(n)), n)
  {
    if n == 0 {
      assert RockInputs(0) == [] + [Empty];
      RunExtends([], Empty);
    } else {
      var before := RockInputs(n - 1);
      assert RockInputs(n) == before + [Hand('R')];
      AlwaysRock(n - 1);
      RockCall(before, n - 1);
    }
  }

  /** One more call with rock in a match against constant rock. */
  lemma RockCall(inputs: seq<Input>, n: nat)
    requires RockMatch(Run(inputs), n)
    ensures RockMatch(Run(inputs + [Hand('R')]), n + 1)
  {
    RunExtends(inputs, Hand('R'));
    if n + 1 < Lookback {
      EarlyRock(Run(inputs), n);
    } else {
      LateRock(Run(inputs), n);
    }
  }

  /** `AlwaysRock` for inputs known to be the constant-rock match. */
  lemma AlwaysRockOn(inputs: seq<Input>, n: nat)
    requires inputs == RockInputs(n)
    ensures RockMatch(Run(inputs), n)
  {
    AlwaysRock(n);
  }

  /** Nothing on the first call, then rock four times: the fifth call has
      counted "RRRRR" once, predicts rock from it and plays paper, after
      scissors on the first four calls. */
  lemma FiveRocks(inputs: seq<Input>)
    requires inputs == [Empty, Hand('R'), Hand('R'), Hand('R'), Hand('R')]
    ensures Run(inputs).state.table.Keys == {"RRRRR"}
    ensures Run(inputs).state.table["RRRRR"] == 1
    ensures forall i :: 0 <= i < 4 ==> Run(inputs).replies[i] == 'S'
    ensures Run(inputs).replies[4] == 'P'
  {
    var n := 4;
    assert RockInputs(n) == inputs;
    AlwaysRockOn(inputs, n);
  }

  /** A sixth call with rock counts "RRRRR" twice and plays paper again. */
  lemma SixRocks(inputs: seq<Input>)
    requires inputs == [Empty, Hand('R'), Hand('R'), Hand('R'), Hand('R'), Hand('R')]
    ensures Run(inputs).state.table.Keys == {"RRRRR"}
    ensures Run(inputs).state.table["RRRRR"] == 2
    ensures Run(inputs).replies[5] == 'P'
  {
    var n := 5;
    assert RockInputs(n) == inputs;
    AlwaysRockOn(inputs, n);
  }
}
