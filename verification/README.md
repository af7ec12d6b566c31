# Rock-Paper-Scissors predictor, modelled in Dafny

This project models `player`, the Rock-Paper-Scissors bot in
`rock_paper_scissors/RPS.py`, and proves properties of the model.

On each call the bot does six things:

1. It records the opponent's previous hand. A falsy input (the first call of a match) counts as rock.
2. Once more than four hands are known, it counts the window of the five newest hands in a frequency table.
3. It extends the four newest hands by `R`, `P` and `S` to form three candidate windows.
4. It predicts the hand whose candidate window has the largest count.
5. When no candidate has been seen, it predicts paper.
6. It plays the hand that beats the prediction.

In the original, the history and the table live in Python mutable default
arguments. Here they form an explicit `State` value. `Step(state, input)`
returns the next state and the reply.

Modules, one per concern of the program:

- `Moves` (`moves.dfy`): the hand type, the game rule `Beats`, and the response table `Counter`.
- `Tally` (`tally.dfy`): the window-count table (`play_order`), its `Bump` update, and the sum of its counts.
- `Selection` (`selection.dfy`): the candidate windows, the filtered dict of present candidates, the `max` with its tie-break, and `Predict`.
- `Predictor` (`predictor.dfy`): `State`, `Input`, and the step function `Step`.
- `Session` (`session.dfy`): `Run`, the calls of one match from the empty state, and the invariants that hold along it.

Modelling decisions:

- The input is `Input = Empty | Hand(move)`. `Empty` stands for any falsy argument (`''` or `None`). `Hand` holds one of the three hand codes.
- The history is a `seq<Move>`. Table keys are strings, as in the original. `Move` is the subset of `char` holding `'R'`, `'P'` and `'S'`.
- `max(filtered_play_order, key=filtered_play_order.get)` scans the dict in insertion order. It replaces its current best only when it meets a strictly greater count. The dict is built from the candidates in the order `R`, `P`, `S`. So a tie goes to the earliest of `R`, `P`, `S`. `FirstMaxIndex` models exactly this scan, and `Preferred` states the result on its own terms.
- The filtered dict is modelled as the list of hands whose candidate is present, keyed by hand rather than by the candidate string. The candidate for hand `x` is the four newest hands followed by `x`, so its last character, the original's `[-1]`, is `x`.
- The window is counted before the lookup, as at lines 15-25. So the window just seen is itself one of the candidates when its first four hands repeat its last four.

Two facts about the code that are easy to misread:

- After an empty first input and four rocks, the fifth call already answers paper. Line 15 counts `"RRRRR"` before the lookup at lines 20-25, so the window just seen is itself the candidate found. `FiveRocks` and `SixRocks` prove the fifth and sixth calls.
- Ties are broken deterministically: `R`, then `P`, then `S`.

## Model

| member | source | states |
|---|---|---|
| Moves.Counter | rock_paper_scissors/RPS.py:27-28 | the reply beats the predicted hand under the game rule, and it is the only hand that does |
| Tally.Bump | rock_paper_scissors/RPS.py:15 | the counted key is present with one more than its previous count (1 when absent); the key set gains only that key; every other count is unchanged |
| Tally.BumpTotal | rock_paper_scissors/RPS.py:15 | one update adds exactly one to the sum of all counts |
| Tally.BumpWellFormed | rock_paper_scissors/RPS.py:13-15 | counting a five-hand window keeps every key five hands long and every count at least 1 |
| Selection.FirstMaxIndex | rock_paper_scissors/RPS.py:25 | `max` with a key returns the first greatest element: no element is greater, and every earlier element is strictly smaller |
| Selection.PresentMoves | rock_paper_scissors/RPS.py:16-22 | a hand is kept exactly when its candidate window is in the table; the R, P, S order is kept |
| Selection.Predict | rock_paper_scissors/RPS.py:10-25 | with no candidate in the table the prediction is paper; otherwise it is the hand whose candidate has the greatest count, with ties going to the earliest of R, P, S |
| Selection.PreferredUnique | rock_paper_scissors/RPS.py:24-25 | at most one hand satisfies the selection rule, so the prediction is fully determined |
| Selection.PredictsOnlySeen | rock_paper_scissors/RPS.py:20-25 | when exactly one continuation has been seen, that continuation is predicted |
| Selection.TieFavoursRock | rock_paper_scissors/RPS.py:16-25 | when all three candidates are present with equal counts, rock is predicted |
| Predictor.Step | rock_paper_scissors/RPS.py:4-15 | the history grows by exactly one hand, `R` for a falsy input and the given hand otherwise, and earlier entries are unchanged; with at most four hands nothing is counted; otherwise the newest five-hand window gains one and nothing else changes |
| Predictor.StepReply | rock_paper_scissors/RPS.py:10-28 | with at most four hands, or when no continuation of the newest four has been seen, the reply is scissors; otherwise the reply beats the hand whose continuation was seen most often, ties to R, P, S order |
| Predictor.StepCountOf | rock_paper_scissors/RPS.py:12-15 | after a call each key's count is its old count plus one exactly when it is the newest window of at least five hands |
| Predictor.StepMonotone | rock_paper_scissors/RPS.py:15 | no key is ever dropped and no count ever decreases |
| Predictor.StepWellFormed | rock_paper_scissors/RPS.py:12-15 | from any state whose keys are five hands long with positive counts, a call keeps that true |
| Predictor.RockAfterFourRocks | rock_paper_scissors/RPS.py:12-28 | after four rocks, when no window other than five rocks has been counted, another rock is answered with paper |
| Predictor.FirstCallPlaysScissors | rock_paper_scissors/RPS.py:5-28 | the first call of a match with a falsy input records rock, counts nothing and plays scissors |
| Session.Run | rock_paper_scissors/RPS.py:4-8 | after N calls there are N replies and the history holds N hands |
| Session.RecordedHands | rock_paper_scissors/RPS.py:5-8 | the i-th recorded hand is rock for a falsy i-th input and the given hand otherwise |
| Session.RunHistory | rock_paper_scissors/RPS.py:4-8 | the history after a match is exactly the recorded hands of its calls, in order |
| Session.StepConsistent | rock_paper_scissors/RPS.py:12-15 | a call keeps each count equal to the number of five-hand windows of the history equal to that key |
| Session.RunConsistent | rock_paper_scissors/RPS.py:4-15 | from the empty start a key is in the table exactly when it occurs as a window of the history, and its count is its number of occurrences |
| Session.RunWellFormed | rock_paper_scissors/RPS.py:4-15 | from the empty start every key is five hands long and every count is at least 1 |
| Session.RunTotal | rock_paper_scissors/RPS.py:4-15 | from the empty start the counts sum to max(0, calls - 4) |
| Session.ShortRunCountsNothing | rock_paper_scissors/RPS.py:10-28 | during the first four calls the table stays empty and every reply is scissors |
| Session.AlwaysRock | rock_paper_scissors/RPS.py:4-28 | against constant rock only "RRRRR" is counted, once per call from the fifth; the first four replies are scissors and all later ones paper |
| Session.FiveRocks | rock_paper_scissors/RPS.py:12-28 | a falsy input then four rocks: "RRRRR" has count 1, the first four replies are scissors and the fifth is paper |
| Session.SixRocks | rock_paper_scissors/RPS.py:12-28 | a sixth rock brings "RRRRR" to count 2 and is answered with paper again |

## Left out

- Python's mutable default arguments, and the sharing of one history and table among all callers in the process. The state is an explicit value threaded through the calls instead.
- Inputs other than a falsy value or one of `'R'`, `'P'`, `'S'`. A junk string is recorded and creates table keys outside the five-hand windows over R, P and S; the reply is still defined, because every prediction is `'P'` or the last character of a candidate, which is one of R, P, S. A truthy value that is not a string makes the join at line 13 raise once it is among the last five. Neither is meaningful input, and the `Input` type cannot express them.
- The distinction between the falsy values `''` and `None`. Both behave the same way in the original and both are `Empty` here.
- The comment at line 1 of `RPS.py`. It describes an earlier example strategy, not this code.
- The match driver, the opponent bots and the scoring. They are not part of this file.
