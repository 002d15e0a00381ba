# Football match predictor — Dafny model of the data shaping and prediction logic

The system collects per-team Premier League match rows, rebuilds one record
per match, trains a Poisson regression of goals on (team, opponent, home), and
serves predictions: expected goals for each side, win/draw/loss percentages
from 10,000 simulated matches, and the most likely score on a 7 × 7 grid.

This project models the exact, deterministic parts of that pipeline:

- `collector.dfy` (module `Collector`, from `v1/app/data_collector.py`): the
  team-id dictionary built from a season's fixtures, the reconstruction loop
  that turns per-team rows into match records (dedup on match id, skip rows
  with a missing score, orient goals by `home_away`), and the choice of
  season-statistics columns.
- `trainer.dfy` (module `Trainer`, from `v1/app/model_trainer.py`): dropping
  matches with a missing score, the unpivot of each match into a home row and
  an away row, the empty-input guard, and the feature columns saved with the model.
- `predictor.dfy` (module `Predictor`, from `v1/app/app.py`): the request
  checks of `predict`, the two one-row prediction frames, the win/draw/loss
  counting loop, the score grid, and the selection of the most likely score.
- `sequences.dfy` (module `Sequences`): order-preserving filtering and the
  subsequence relation; `results.dfy` (module `Results`): `Option` and `Result`.

External collaborators are parameters: the GLM fit is
`fit: seq<TrainingRow> -> Option<M>` (None when it raises), the fitted
model's prediction is `rate: (M, Features) -> real`, the random source is
`poisson: (nat, real) -> nat` (the t-th Poisson draw for a given rate; trial
k uses draw 2k for the home score and 2k + 1 for the away score), the Poisson
pmf is `pmf: (nat, real) -> real`, and the latest-season statistics lookup is
`hasStats: string -> bool`.

`predict` (v1/app/app.py:65-76) rejects a request for exactly three
reasons, checked in this order: no model loaded, equal team names, and no
season statistics for one of the teams. `train_model`
(v1/app/model_trainer.py:30-32) refuses only an empty frame, and yields no
model when the fit raises (lines 43-67). The win, draw and loss counters are
kept as counts that sum to the number of simulations (10,000); the
percentages derived from them are display arithmetic. The tie-break on the
most likely score is the one Python's stable `sorted(..., reverse=True)`
gives: the earliest grid entry, which `GridOrder` shows is the
lexicographically smallest score.

## Model

| member | source | states |
|---|---|---|
| `Collector.TeamIdMap` | v1/app/data_collector.py:27-32 | the per-fixture loop (home slot, then away slot, each only when id and name are both truthy) yields the same dictionary as performing all those assignments in scan order |
| `Collector.WrittenLastWriteWins` | v1/app/data_collector.py:28-32 | the keys of that dictionary are exactly the ids written, and each id holds the name of its last write, so a later occurrence overwrites an earlier one |
| `Collector.TeamOrder` | v1/app/data_collector.py:28-32 | the order in which the dictionary yields its ids: each key exactly once and nothing else, listed in the order of its first assignment during the scan (a later overwrite keeps the id in place) |
| `Collector.InsertionOrder` | v1/app/data_collector.py:28-32 | for any sequence of assignments, the dict key order lists every assigned id once, only assigned ids, and an id before another exactly when it was first assigned before the other ever was |
| `Collector.TeamIdMapKeys` | v1/app/data_collector.py:29-32 | an id is a key exactly when some fixture carries it with a truthy name in the same slot |
| `Collector.Orient` | v1/app/data_collector.py:147-152 | seen from the side the row says the primary team played ("Home" exactly, anything else is away), the match record is the row again: primary team, opponent, gf, ga; season and date carried over |
| `Collector.Reconstructed` | v1/app/data_collector.py:137-162 | the reconstruction never has more records than there are input rows |
| `Collector.Origins` | v1/app/data_collector.py:140-162 | the rows that produce a match, strictly increasing: every listed row has both scores and no earlier scored row with its id, and every such row is listed |
| `Collector.ReconstructedFromOrigins` | v1/app/data_collector.py:140-162 | each reconstructed match comes from exactly one input row, in input order: match k is the oriented k-th producing row |
| `Collector.ReconstructMatches` | v1/app/data_collector.py:137-162 | the loop with its `processed_match_ids` set computes exactly the first-scored-row-per-id reconstruction |
| `Collector.OneMatchPerId` | v1/app/data_collector.py:140-162 | no two reconstructed matches come from rows with the same match id |
| `Collector.ScoredIdIsReconstructed` | v1/app/data_collector.py:140-162 | every match id with at least one fully scored row is reconstructed, from its first such row |
| `Collector.UnscoredRowIgnored` | v1/app/data_collector.py:144-145 | deleting a row with a missing gf or ga leaves the reconstruction unchanged: it neither yields a match nor marks its id processed |
| `Collector.ExistingColumns` | v1/app/data_collector.py:104-106 | the result holds exactly the wanted columns that are present, as a subsequence of the wanted list (original order), one entry per present position of the wanted list, and is the whole list when every column is present |
| `Collector.SeasonStatsColumns` | v1/app/data_collector.py:98-106 | the stored statistics columns are an ordered subsequence of the nine table columns, each the renaming of some fetched column; conversely every table column that some fetched column renames to is stored, so team_name is stored whenever teamName was fetched |
| `Trainer.LoadMatches` | v1/app/model_trainer.py:18 | the loaded matches are the complete rows in table order (a subsequence), one match per complete row (as many matches as complete positions, so duplicate rows stay duplicated), every complete row is loaded, and nothing is dropped exactly when no goal cell is null |
| `Trainer.StoreLoadRoundTrip` | v1/app/model_trainer.py:17-18 | reading back the rows the collector writes gives the same matches |
| `Trainer.GoalModelData` | v1/app/model_trainer.py:36-41 | 2n rows for n matches; row k is (home team, away team, home goals, 1) and row n + k is (away team, home team, away goals, 0) |
| `Trainer.HomeFlagBalance` | v1/app/model_trainer.py:36-41 | exactly n rows have home = 1 and exactly n have home = 0 |
| `Trainer.GoalsConserved` | v1/app/model_trainer.py:36-41 | the goals column sums to the total of home and away goals over all matches |
| `Trainer.UnpivotRoundTrip` | v1/app/model_trainer.py:36-41 | pairing row k with row n + k recovers every match's teams and score |
| `Trainer.CollectorRowInTrainingTable` | v1/app/model_trainer.py:37-40 | a scored collector row, reconstructed and unpivoted, reappears as its own side's training row (primary team, opponent, gf, its home flag) with the other row holding ga |
| `Trainer.ModelColumns` | v1/app/model_trainer.py:58 | the saved feature columns are team, opponent, home |
| `Trainer.TrainModel` | v1/app/model_trainer.py:30-67 | no model for an empty match list; otherwise a model exactly when the fit on the unpivoted (non-empty) table succeeds, saved with the feature columns |
| `Predictor.FixtureMirrorsTraining` | v1/app/app.py:79-83 | the home and away prediction frames equal the features of the home and away training rows a match between those teams produces |
| `Predictor.Classify` | v1/app/app.py:90-92 | home win exactly when the home score is larger, away win exactly when the away score is larger, draw exactly when they are equal |
| `Predictor.ClassifyMirror` | v1/app/app.py:90-92 | exchanging the two scores mirrors the outcome |
| `Predictor.CountOutcomes` | v1/app/app.py:86-92 | each counter equals the number of simulated scores of its outcome, and the three counters sum to the number of scores |
| `Predictor.CountsPartition` | v1/app/app.py:88-92 | every simulated score increments exactly one counter |
| `Predictor.SwapSidesMirrorsTally` | v1/app/app.py:88-92 | exchanging the sides of every simulated score swaps the win counters and keeps the draws |
| `Predictor.BuildScoreGrid` | v1/app/app.py:95-100 | the nested loops produce the 49-entry grid whose entry k is score (k div 7, k mod 7) with probability pmf(home) × pmf(away) |
| `Predictor.GridCellAt` | v1/app/app.py:96-99 | score (i, j), 0 ≤ i, j < 7, is at position 7i + j with probability pmf(i, home rate) × pmf(j, away rate) |
| `Predictor.GridOrder` | v1/app/app.py:96-100 | every grid score lies in [0, 7) × [0, 7), and grid order is lexicographic score order, so each score appears once |
| `Predictor.MostLikelyScore` | v1/app/app.py:102 | the selected entry's probability is at least every entry's, and every earlier entry's is strictly smaller |
| `Predictor.MostLikelyUnique` | v1/app/app.py:102 | at most one entry satisfies that selection property |
| `Predictor.SortedHeadIsMostLikely` | v1/app/app.py:102 | the head of any stable descending sort by probability is that first maximum |
| `Predictor.Predict` | v1/app/app.py:61-102 | error when no model is loaded, when the teams are equal, or when a team has no season statistics, in that order, and success otherwise; on success the rates come from the two mirrored frames, the counters are the tally of the 10,000 simulated scores and sum to 10,000, and the most likely score is the first maximum of the grid |

## Left out

- HTTP fetching, API keys, `time.sleep` rate limiting and the request exceptions that make `get_team_id_map` return `{}`: network I/O.
- SQLite reads and writes, pickle save and load, Flask routes and templates: persistence and UI. The statistics lookup is the parameter `hasStats`; its SQL text is not modelled.
- The Poisson GLM fit and `model.predict`: numerical library code, taken as the parameters `fit` and `rate`.
- `Predictor.Predict`: `rate` is a total function, so the model does not cover `model.predict` raising for a team it never saw in training (v1/app/app.py:80, 83); in the program that exception escapes `predict` as a server error.
- `Collector.TeamOrder`: the loop over `team_map.items()` in `main` (v1/app/data_collector.py:127-131) only fetches each team's rows over the network and concatenates them; `TeamOrder` gives the order it visits the teams in, and the model starts from the concatenated rows.
- `np.random.poisson` and `scipy.stats.poisson.pmf`: randomness and floating point, taken as the parameters `poisson` and `pmf`; probabilities are `real`, so NaN and rounding are not modelled.
- Rounding, percentage strings, the "i - j" score label, and the per-38-match shot and card averages: display arithmetic.
- `Collector.Orient`: `int(row['gf'])` on a float cell is not modelled; goals are read as natural numbers, a NaN cell as `None`.
- `Collector.TeamIdMap`: ids and names are modelled as strings, so truthiness is "present and non-empty"; a numeric id of 0 (falsy in Python) is not modelled.
- `Collector.SeasonStatsColumns`: a renamed column that collides with an existing one produces duplicate frame columns in pandas; the model treats the frame's columns as a set.
- Concatenating the per-team frames and the season-statistics frames: the model starts from the concatenated row sequence.
