/**
 * The logic of the web app's `predict` handler once the fitted model, the
 * random source and the Poisson pmf are given as parameters: the request
 * checks, the two fixture feature rows, the win/draw/loss counting loop over
 * simulated scores, and the most likely score on the 7 x 7 grid.
 */
module Predictor {
  import opened Results
  import opened Collector
  import opened Trainer

  // ---------------------------------------------------------------------------
  // Fixture feature rows
  // ---------------------------------------------------------------------------

  /** A one-row prediction frame: the model's feature columns team, opponent, home. */
  datatype Features = Features(team: string, opponent: string, home: int)

  /** The feature columns of a training row (all columns but `goals`). */
  function FeaturesOf(row: TrainingRow): Features
  {
    Features(row.team, row.opponent, row.home)
  }

  /** The frame the home rate is predicted from. */
  function HomeFeatures(homeTeam: string, awayTeam: string): Features
  {
    Features(homeTeam, awayTeam, 1)
  }

  /** The frame the away rate is predicted from. */
  function AwayFeatures(homeTeam: string, awayTeam: string): Features
  {
    Features(awayTeam, homeTeam, 0)
  }

  /**
   * The two prediction frames for a fixture are the features of the two
   * training rows an actual match between those teams, in that order, would
   * have produced: the home rate is queried exactly as home goals were
   * learned, and likewise for the away rate.
   */
  lemma FixtureMirrorsTraining(ms: seq<Match>, k: int)
    requires 0 <= k < |ms|
    ensures HomeFeatures(ms[k].homeTeam, ms[k].awayTeam) == FeaturesOf(GoalModelData(ms)[k])
    ensures AwayFeatures(ms[k].homeTeam, ms[k].awayTeam) == FeaturesOf(GoalModelData(ms)[|ms| + k])
  {
  }

  // ---------------------------------------------------------------------------
  // Simulation
  // ---------------------------------------------------------------------------

  /** Number of simulated matches per prediction. */
  const Simulations: nat := 10000

  datatype Outcome = HomeWin | AwayWin | Draw

  /** The classification of one simulated score: the `else` branch is a draw. */
  function Classify(homeScore: nat, awayScore: nat): (o: Outcome)
    ensures o == HomeWin <==> homeScore > awayScore
    ensures o == AwayWin <==> awayScore > homeScore
    ensures o == Draw <==> homeScore == awayScore
  {
    if homeScore > awayScore then HomeWin
    else if awayScore > homeScore then AwayWin
    else Draw
  }

  /** The same outcome seen with the sides exchanged. */
  function Mirror(o: Outcome): Outcome
  {
    match o
    case HomeWin => AwayWin
    case AwayWin => HomeWin
    case Draw => Draw
  }

  /** Exchanging the two scores mirrors the outcome. */
  lemma ClassifyMirror(homeScore: nat, awayScore: nat)
    ensures Classify(awayScore, homeScore) == Mirror(Classify(homeScore, awayScore))
  {
  }

  /** Number of simulated scores with outcome `o`. */
  function Count(scores: seq<(nat, nat)>, o: Outcome): nat
    decreases |scores|
  {
    if |scores| == 0 then 0
    else
      var last := scores[|scores| - 1];
      Count(scores[..|scores| - 1], o) + (if Classify(last.0, last.1) == o then 1 else 0)
  }

  /** The three counters after the simulation loop. */
  datatype Tally = Tally(homeWins: nat, awayWins: nat, draws: nat)

  function TallyOf(scores: seq<(nat, nat)>): Tally
  {
    Tally(Count(scores, HomeWin), Count(scores, AwayWin), Count(scores, Draw))
  }

  /** Every simulated score lands in exactly one counter. */
  lemma {:induction false} CountsPartition(scores: seq<(nat, nat)>)
    ensures Count(scores, HomeWin) + Count(scores, AwayWin) + Count(scores, Draw) == |scores|
    decreases |scores|
  {
    if |scores| > 0 {
      CountsPartition(scores[..|scores| - 1]);
    }
  }

  function SwapSides(scores: seq<(nat, nat)>): seq<(nat, nat)>
  {
    seq(|scores|, k requires 0 <= k < |scores| => (scores[k].1, scores[k].0))
  }

  /** Exchanging the sides of every simulated score swaps the win counters and keeps the draws. */
  lemma {:induction false} SwapSidesMirrorsTally(scores: seq<(nat, nat)>)
    ensures TallyOf(SwapSides(scores))
      == Tally(Count(scores, AwayWin), Count(scores, HomeWin), Count(scores, Draw))
    decreases |scores|
  {
    if |scores| > 0 {
      var init := scores[..|scores| - 1];
      SwapSidesMirrorsTally(init);
      assert SwapSides(scores)[..|scores| - 1] == SwapSides(init);
      var last := scores[|scores| - 1];
      ClassifyMirror(last.0, last.1);
    }
  }

  /**
   * The simulation loop: for each simulated score, increment the home-win
   * counter when the home score is larger, the away-win counter when the away
   * score is larger, and the draw counter otherwise.
   */
  method CountOutcomes(scores: seq<(nat, nat)>) returns (t: Tally)
    ensures t == TallyOf(scores)
    ensures t.homeWins + t.awayWins + t.draws == |scores|
  {
    var homeWins, awayWins, draws := 0, 0, 0;
    for i := 0 to |scores|
      invariant homeWins + awayWins + draws == i
      invariant homeWins == Count(scores[..i], HomeWin)
      invariant awayWins == Count(scores[..i], AwayWin)
      invariant draws == Count(scores[..i], Draw)
    {
      assert scores[..i + 1][..i] == scores[..i];
      var (homeScore, awayScore) := scores[i];
      if homeScore > awayScore {
        homeWins := homeWins + 1;
      } else if awayScore > homeScore {
        awayWins := awayWins + 1;
      } else {
        draws := draws + 1;
      }
    }
    assert scores[..|scores|] == scores;
    t := Tally(homeWins, awayWins, draws);
  }

  /**
   * The simulated scores: trial k draws the home score with the home rate and
   * then the away score with the away rate. `poisson(t, rate)` stands for the
   * t-th draw from the random source.
   */
  function SimulatedScores(poisson: (nat, real) -> nat, homeRate: real, awayRate: real): seq<(nat, nat)>
  {
    seq(Simulations, k requires 0 <= k < Simulations => (poisson(2 * k, homeRate), poisson(2 * k + 1, awayRate)))
  }

  // ---------------------------------------------------------------------------
  // Most likely score
  // ---------------------------------------------------------------------------

  /** Scores 0 .. MaxGoals - 1 are considered for each side. */
  const MaxGoals: nat := 7

  /** One grid entry: a score and its probability under independent Poisson goals. */
  datatype ScoreCell = ScoreCell(homeGoals: nat, awayGoals: nat, prob: real)

  /** The entry at position k of the grid in row-major order. */
  function CellAt(k: nat, homeRate: real, awayRate: real, pmf: (nat, real) -> real): ScoreCell
  {
    var i := k / MaxGoals;
    var j := k % MaxGoals;
    ScoreCell(i, j, pmf(i, homeRate) * pmf(j, awayRate))
  }

  function ScoreGrid(homeRate: real, awayRate: real, pmf: (nat, real) -> real): seq<ScoreCell>
  {
    seq(MaxGoals * MaxGoals, k requires 0 <= k < MaxGoals * MaxGoals => CellAt(k, homeRate, awayRate, pmf))
  }

  /** Score (i, j) sits at position i * 7 + j of the grid: home goals outer, away goals inner. */
  lemma GridCellAt(homeRate: real, awayRate: real, pmf: (nat, real) -> real, i: nat, j: nat)
    requires i < MaxGoals && j < MaxGoals
    ensures i * MaxGoals + j < |ScoreGrid(homeRate, awayRate, pmf)|
    ensures ScoreGrid(homeRate, awayRate, pmf)[i * MaxGoals + j]
      == ScoreCell(i, j, pmf(i, homeRate) * pmf(j, awayRate))
  {
  }

  /** (i, j) comes before (i', j') with the smaller home score first, then the smaller away score. */
  predicate ScoreBefore(a: ScoreCell, b: ScoreCell)
  {
    a.homeGoals < b.homeGoals || (a.homeGoals == b.homeGoals && a.awayGoals < b.awayGoals)
  }

  /**
   * Grid order is score order: an earlier entry has a lexicographically
   * smaller score, so every score appears once, and every entry is on the board.
   */
  lemma GridOrder(homeRate: real, awayRate: real, pmf: (nat, real) -> real, k: int, l: int)
    requires 0 <= k < |ScoreGrid(homeRate, awayRate, pmf)|
    requires 0 <= l < |ScoreGrid(homeRate, awayRate, pmf)|
    ensures var g := ScoreGrid(homeRate, awayRate, pmf);
      && g[k].homeGoals < MaxGoals && g[k].awayGoals < MaxGoals
      && (k < l <==> ScoreBefore(g[k], g[l]))
  {
  }

  /**
   * The nested loop that builds `score_probabilities`: home goals i in the
   * outer loop, away goals j in the inner loop, probability
   * pmf(i, home rate) * pmf(j, away rate).
   */
  method BuildScoreGrid(homeRate: real, awayRate: real, pmf: (nat, real) -> real)
    returns (grid: seq<ScoreCell>)
    ensures grid == ScoreGrid(homeRate, awayRate, pmf)
  {
    grid := [];
    for i := 0 to MaxGoals
      invariant |grid| == i * MaxGoals
      invariant forall k :: 0 <= k < |grid| ==> grid[k] == CellAt(k, homeRate, awayRate, pmf)
    {
      for j := 0 to MaxGoals
        invariant |grid| == i * MaxGoals + j
        invariant forall k :: 0 <= k < |grid| ==> grid[k] == CellAt(k, homeRate, awayRate, pmf)
      {
        var prob := pmf(i, homeRate) * pmf(j, awayRate);
        assert (i * MaxGoals + j) / MaxGoals == i && (i * MaxGoals + j) % MaxGoals == j;
        grid := grid + [ScoreCell(i, j, prob)];
      }
    }
  }

  /**
   * Entry `best` has the largest probability of the grid and every earlier
   * entry a strictly smaller one: the first maximum.
   */
  predicate IsMostLikely(grid: seq<ScoreCell>, best: int)
  {
    && 0 <= best < |grid|
    && (forall k :: 0 <= k < |grid| ==> grid[k].prob <= grid[best].prob)
    && (forall k :: 0 <= k < best ==> grid[k].prob < grid[best].prob)
  }

  /** At most one entry is the first maximum. */
  lemma MostLikelyUnique(grid: seq<ScoreCell>, a: int, b: int)
    requires IsMostLikely(grid, a) && IsMostLikely(grid, b)
    ensures a == b
  {
    assert grid[a].prob == grid[b].prob;
  }

  /** Scans the grid, replacing the candidate only on a strictly larger probability. */
  method MostLikelyScore(grid: seq<ScoreCell>) returns (best: nat)
    requires |grid| > 0
    ensures IsMostLikely(grid, best)
  {
    best := 0;
    for k := 1 to |grid|
      invariant best < k
      invariant forall l :: 0 <= l < k ==> grid[l].prob <= grid[best].prob
      invariant forall l :: 0 <= l < best ==> grid[l].prob < grid[best].prob
    {
      if grid[k].prob > grid[best].prob {
        best := k;
      }
    }
  }

  /**
   * `order` lists the grid positions as `sorted(..., key=prob, reverse=True)`
   * does: a permutation, probabilities non-increasing, and entries of equal
   * probability kept in grid order (the sort is stable).
   */
  predicate IsStableDescendingOrder(grid: seq<ScoreCell>, order: seq<nat>)
  {
    && |order| == |grid|
    && (forall p :: 0 <= p < |order| ==> order[p] < |grid|)
    && (forall k :: 0 <= k < |grid| ==> k in order)
    && (forall p, q :: 0 <= p < q < |order| ==> grid[order[p]].prob >= grid[order[q]].prob)
    && (forall p, q :: 0 <= p < q < |order| && grid[order[p]].prob == grid[order[q]].prob ==> order[p] < order[q])
  }

  /**
   * The head of a stable descending sort by probability is the first maximum
   * of the grid, so the scan above selects the same score as the sort.
   */
  lemma SortedHeadIsMostLikely(grid: seq<ScoreCell>, order: seq<nat>)
    requires |grid| > 0 && IsStableDescendingOrder(grid, order)
    ensures IsMostLikely(grid, order[0])
  {
    var h := order[0];
    forall k | 0 <= k < |grid|
      ensures grid[k].prob <= grid[h].prob
    {
      assert k in order;
      var q :| 0 <= q < |order| && order[q] == k;
      if q > 0 {
        assert grid[order[0]].prob >= grid[order[q]].prob;
      }
    }
    forall k | 0 <= k < h
      ensures grid[k].prob < grid[h].prob
    {
      assert k in order;
      var q :| 0 <= q < |order| && order[q] == k;
      assert q != 0;
      assert grid[order[0]].prob >= grid[order[q]].prob;
    }
  }

  // ---------------------------------------------------------------------------
  // The predict handler
  // ---------------------------------------------------------------------------

  datatype PredictError =
    | ModelNotLoaded      // the model file was not found at start-up
    | SameTeams           // home and away team names are equal
    | NoSeasonStats       // a team has no season-statistics row with shots

  datatype Prediction = Prediction(homeRate: real, awayRate: real, tally: Tally, mostLikely: ScoreCell)

  /**
   * `predict` for one request. `model` is the loaded model or None,
   * `hasStats(t)` whether the latest-season lookup finds a row for team t,
   * `rate(model, features)` the model's prediction for a one-row frame,
   * `poisson` the random source and `pmf` the Poisson probability mass function.
   */
  method Predict<M>(
    model: Option<M>,
    homeTeam: string,
    awayTeam: string,
    hasStats: string -> bool,
    rate: (M, Features) -> real,
    poisson: (nat, real) -> nat,
    pmf: (nat, real) -> real)
    returns (r: Result<Prediction, PredictError>)
    ensures model.None? ==> r == Err(ModelNotLoaded)
    ensures model.Some? && homeTeam == awayTeam ==> r == Err(SameTeams)
    ensures model.Some? && homeTeam != awayTeam && !(hasStats(homeTeam) && hasStats(awayTeam))
      ==> r == Err(NoSeasonStats)
    ensures r.Ok? <==> model.Some? && homeTeam != awayTeam && hasStats(homeTeam) && hasStats(awayTeam)
    ensures r.Ok? ==>
      var p := r.value;
      && p.homeRate == rate(model.value, HomeFeatures(homeTeam, awayTeam))
      && p.awayRate == rate(model.value, AwayFeatures(homeTeam, awayTeam))
      && p.tally == TallyOf(SimulatedScores(poisson, p.homeRate, p.awayRate))
      && p.tally.homeWins + p.tally.awayWins + p.tally.draws == Simulations
      && exists k :: IsMostLikely(ScoreGrid(p.homeRate, p.awayRate, pmf), k)
                   && p.mostLikely == ScoreGrid(p.homeRate, p.awayRate, pmf)[k]
  {
    if model.None? {
      return Err(ModelNotLoaded);
    }
    if homeTeam == awayTeam {
      return Err(SameTeams);
    }
    if !hasStats(homeTeam) || !hasStats(awayTeam) {
      return Err(NoSeasonStats);
    }
    var homeRate := rate(model.value, HomeFeatures(homeTeam, awayTeam));
    var awayRate := rate(model.value, AwayFeatures(homeTeam, awayTeam));
    var tally := CountOutcomes(SimulatedScores(poisson, homeRate, awayRate));
    var grid := BuildScoreGrid(homeRate, awayRate, pmf);
    var best := MostLikelyScore(grid);
    r := Ok(Prediction(homeRate, awayRate, tally, grid[best]));
  }
}
