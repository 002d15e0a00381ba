/**
 * The data shaping of the model trainer script: dropping matches with a
 * missing score, unpivoting each match into two per-team training rows, the
 * empty-input guard, and the feature columns saved next to the model. The
 * Poisson GLM fit itself is an abstract parameter.
 */
module Trainer {
  import opened Results
  import opened Sequences
  import opened Collector

  // ---------------------------------------------------------------------------
  // Loading
  // ---------------------------------------------------------------------------

  /** A row of the matches table as read back, whose goal cells may be null. */
  datatype StoredMatch = StoredMatch(
    season: string,
    date: string,
    homeTeam: string,
    awayTeam: string,
    homeGoals: Option<nat>,
    awayGoals: Option<nat>)

  /** The table row the collector writes for a reconstructed match. */
  function Store(m: Match): StoredMatch
  {
    StoredMatch(m.season, m.date, m.homeTeam, m.awayTeam, Some(m.homeGoals), Some(m.awayGoals))
  }

  function StoreAll(ms: seq<Match>): seq<StoredMatch>
  {
    seq(|ms|, k requires 0 <= k < |ms| => Store(ms[k]))
  }

  /** Neither goal cell is null. */
  predicate Complete(s: StoredMatch)
  {
    s.homeGoals.Some? && s.awayGoals.Some?
  }

  function Restore(s: StoredMatch): (m: Match)
    requires Complete(s)
    ensures Store(m) == s
  {
    Match(s.season, s.date, s.homeTeam, s.awayTeam, s.homeGoals.value, s.awayGoals.value)
  }

  /**
   * `dropna(subset=['home_goals', 'away_goals'])`: the complete rows, in table
   * order, one match per complete row (duplicate rows stay duplicated).
   * Nothing is lost exactly when every row is complete.
   */
  function LoadMatches(rows: seq<StoredMatch>): (ms: seq<Match>)
    ensures IsSubsequence(StoreAll(ms), rows)
    ensures |ms| == |set k | 0 <= k < |rows| && Complete(rows[k])|
    ensures forall k :: 0 <= k < |rows| && Complete(rows[k]) ==> exists l :: 0 <= l < |ms| && Store(ms[l]) == rows[k]
    ensures StoreAll(ms) == rows <==> forall k :: 0 <= k < |rows| ==> Complete(rows[k])
  {
    var kept := Filter(rows, Complete);
    var ms := seq(|kept|, k requires 0 <= k < |kept| => Restore(kept[k]));
    assert StoreAll(ms) == kept;
    LoadedAreKept(rows, ms);
    ms
  }

  /** The loaded matches, stored again, are exactly the complete rows in table order. */
  lemma LoadedAreKept(rows: seq<StoredMatch>, ms: seq<Match>)
    requires StoreAll(ms) == Filter(rows, Complete)
    ensures IsSubsequence(StoreAll(ms), rows)
    ensures |ms| == |set k | 0 <= k < |rows| && Complete(rows[k])|
    ensures forall k :: 0 <= k < |rows| && Complete(rows[k]) ==> exists l :: 0 <= l < |ms| && Store(ms[l]) == rows[k]
    ensures StoreAll(ms) == rows <==> forall k :: 0 <= k < |rows| ==> Complete(rows[k])
  {
    FilterIsSubsequence(rows, Complete);
    CompleteCount(rows);
  }

  /** The filter keeps one row per complete position. */
  lemma CompleteCount(rows: seq<StoredMatch>)
    ensures |Filter(rows, Complete)| == |set k | 0 <= k < |rows| && Complete(rows[k])|
  {
    assert KeptPositions(rows, Complete) == set k | 0 <= k < |rows| && Complete(rows[k]);
  }

  /** What the collector writes, the trainer reads back unchanged. */
  lemma StoreLoadRoundTrip(ms: seq<Match>)
    ensures LoadMatches(StoreAll(ms)) == ms
  {
  }

  // ---------------------------------------------------------------------------
  // Training table
  // ---------------------------------------------------------------------------

  /** One row of `goal_model_data`: a team, its opponent, the goals it scored, and the home flag (1 or 0). */
  datatype TrainingRow = TrainingRow(team: string, opponent: string, goals: nat, home: int)

  /** The training row of one side of a match. */
  function RowOf(s: Side, home: int): TrainingRow
  {
    TrainingRow(s.team, s.opponent, s.goalsFor, home)
  }

  function HomeRows(ms: seq<Match>): seq<TrainingRow>
  {
    seq(|ms|, k requires 0 <= k < |ms| => RowOf(SideOf(ms[k], true), 1))
  }

  function AwayRows(ms: seq<Match>): seq<TrainingRow>
  {
    seq(|ms|, k requires 0 <= k < |ms| => RowOf(SideOf(ms[k], false), 0))
  }

  /**
   * `goal_model_data`: the home-perspective rows of all matches followed by
   * the away-perspective rows of all matches. Row k is the home team's view
   * of match k with home = 1, row n + k the away team's view with home = 0.
   */
  function GoalModelData(ms: seq<Match>): (rows: seq<TrainingRow>)
    ensures |rows| == 2 * |ms|
    ensures forall k :: 0 <= k < |ms| ==>
      && rows[k] == TrainingRow(ms[k].homeTeam, ms[k].awayTeam, ms[k].homeGoals, 1)
      && rows[|ms| + k] == TrainingRow(ms[k].awayTeam, ms[k].homeTeam, ms[k].awayGoals, 0)
  {
    HomeRows(ms) + AwayRows(ms)
  }

  /** Number of rows with the given home flag. */
  function CountHome(rows: seq<TrainingRow>, flag: int): nat
    decreases |rows|
  {
    if |rows| == 0 then 0
    else CountHome(rows[..|rows| - 1], flag) + (if rows[|rows| - 1].home == flag then 1 else 0)
  }

  /** Sum of the `goals` column. */
  function SumGoals(rows: seq<TrainingRow>): nat
    decreases |rows|
  {
    if |rows| == 0 then 0 else SumGoals(rows[..|rows| - 1]) + rows[|rows| - 1].goals
  }

  /** Sum of home_goals + away_goals over the matches. */
  function TotalGoals(ms: seq<Match>): nat
    decreases |ms|
  {
    if |ms| == 0 then 0 else TotalGoals(ms[..|ms| - 1]) + ms[|ms| - 1].homeGoals + ms[|ms| - 1].awayGoals
  }

  lemma {:induction false} CountHomeAppend(a: seq<TrainingRow>, b: seq<TrainingRow>, flag: int)
    ensures CountHome(a + b, flag) == CountHome(a, flag) + CountHome(b, flag)
    decreases |b|
  {
    if |b| > 0 {
      assert (a + b)[..|a + b| - 1] == a + b[..|b| - 1];
      CountHomeAppend(a, b[..|b| - 1], flag);
    } else {
      assert a + b == a;
    }
  }

  lemma {:induction false} SumGoalsAppend(a: seq<TrainingRow>, b: seq<TrainingRow>)
    ensures SumGoals(a + b) == SumGoals(a) + SumGoals(b)
    decreases |b|
  {
    if |b| > 0 {
      assert (a + b)[..|a + b| - 1] == a + b[..|b| - 1];
      SumGoalsAppend(a, b[..|b| - 1]);
    } else {
      assert a + b == a;
    }
  }

  lemma {:induction false} UniformFlagCount(rows: seq<TrainingRow>, flag: int, other: int)
    requires forall k :: 0 <= k < |rows| ==> rows[k].home == flag
    requires other != flag
    ensures CountHome(rows, flag) == |rows|
    ensures CountHome(rows, other) == 0
    decreases |rows|
  {
    if |rows| > 0 {
      UniformFlagCount(rows[..|rows| - 1], flag, other);
    }
  }

  /** The training table has n rows with home = 1 and n rows with home = 0. */
  lemma HomeFlagBalance(ms: seq<Match>)
    ensures CountHome(GoalModelData(ms), 1) == |ms|
    ensures CountHome(GoalModelData(ms), 0) == |ms|
  {
    CountHomeAppend(HomeRows(ms), AwayRows(ms), 1);
    CountHomeAppend(HomeRows(ms), AwayRows(ms), 0);
    UniformFlagCount(HomeRows(ms), 1, 0);
    UniformFlagCount(AwayRows(ms), 0, 1);
  }

  lemma {:induction false} PerspectiveGoals(ms: seq<Match>)
    ensures SumGoals(HomeRows(ms)) + SumGoals(AwayRows(ms)) == TotalGoals(ms)
    decreases |ms|
  {
    if |ms| > 0 {
      var init := ms[..|ms| - 1];
      var m := ms[|ms| - 1];
      PerspectiveGoals(init);
      assert HomeRows(ms)[..|ms| - 1] == HomeRows(init);
      assert AwayRows(ms)[..|ms| - 1] == AwayRows(init);
    }
  }

  /** Unpivoting neither creates nor loses goals. */
  lemma GoalsConserved(ms: seq<Match>)
    ensures SumGoals(GoalModelData(ms)) == TotalGoals(ms)
  {
    SumGoalsAppend(HomeRows(ms), AwayRows(ms));
    PerspectiveGoals(ms);
  }

  /** A match without its season and date: the part the training table keeps. */
  datatype Score = Score(homeTeam: string, awayTeam: string, homeGoals: nat, awayGoals: nat)

  function ScoreOf(m: Match): Score
  {
    Score(m.homeTeam, m.awayTeam, m.homeGoals, m.awayGoals)
  }

  /** Pairs row k with row n + k of a table of 2n rows back into a score. */
  function Repivot(rows: seq<TrainingRow>): seq<Score>
    requires |rows| % 2 == 0
  {
    var n := |rows| / 2;
    seq(n, k requires 0 <= k < n => Score(rows[k].team, rows[k].opponent, rows[k].goals, rows[n + k].goals))
  }

  /** The unpivot loses nothing but season and date: pairing the two halves recovers every score. */
  lemma UnpivotRoundTrip(ms: seq<Match>)
    ensures Repivot(GoalModelData(ms)) == seq(|ms|, k requires 0 <= k < |ms| => ScoreOf(ms[k]))
  {
  }

  /**
   * A per-team collector row, once reconstructed and unpivoted, reappears as
   * the training row of its own side: primary team, opponent, its goals for,
   * and the home flag of the side it played; the other side's row holds its
   * goals against.
   */
  lemma CollectorRowInTrainingTable(ms: seq<Match>, k: int, r: TeamMatchRow)
    requires 0 <= k < |ms| && HasScore(r) && ms[k] == Orient(r)
    ensures var rows := GoalModelData(ms);
      if r.homeAway == "Home" then
        rows[k] == TrainingRow(r.primaryTeam, r.opponent, r.gf.value, 1)
        && rows[|ms| + k] == TrainingRow(r.opponent, r.primaryTeam, r.ga.value, 0)
      else
        rows[|ms| + k] == TrainingRow(r.primaryTeam, r.opponent, r.gf.value, 0)
        && rows[k] == TrainingRow(r.opponent, r.primaryTeam, r.ga.value, 1)
  {
  }

  // ---------------------------------------------------------------------------
  // Training
  // ---------------------------------------------------------------------------

  /** The columns of `goal_model_data`, in frame order. */
  const TableColumns: seq<string> := ["team", "opponent", "goals", "home"]

  /** `goal_model_data.drop('goals', axis=1).columns`: the model's feature columns. */
  function ModelColumns(): (cols: seq<string>)
    ensures cols == ["team", "opponent", "home"]
  {
    var keep := (c: string) => c != "goals";
    assert Filter(TableColumns[..1], keep) == ["team"];
    assert Filter(TableColumns[..2], keep) == ["team", "opponent"] by {
      assert TableColumns[..2][..1] == TableColumns[..1];
    }
    assert Filter(TableColumns[..3], keep) == ["team", "opponent"] by {
      assert TableColumns[..3][..2] == TableColumns[..2];
    }
    assert TableColumns[..4][..3] == TableColumns[..3];
    assert TableColumns[..4] == TableColumns;
    Filter(TableColumns, keep)
  }

  /** A fitted model together with the feature columns saved beside it. */
  datatype TrainedModel<M> = TrainedModel(fitted: M, columns: seq<string>)

  /**
   * `train_model`: no model for an empty match list; otherwise the fit (None
   * when it raises) is run on the unpivoted table, and on success the feature
   * columns are saved with it. The fit never sees an empty table.
   */
  function TrainModel<M>(ms: seq<Match>, fit: seq<TrainingRow> -> Option<M>): (r: Option<TrainedModel<M>>)
    ensures |ms| == 0 ==> r.None?
    ensures |ms| > 0 ==> (r.Some? <==> fit(GoalModelData(ms)).Some?)
    ensures r.Some? ==>
      && |GoalModelData(ms)| > 0
      && r.value.fitted == fit(GoalModelData(ms)).value
      && r.value.columns == ["team", "opponent", "home"]
  {
    if |ms| == 0 then None
    else
      match fit(GoalModelData(ms))
      case None => None
      case Some(model) => Some(TrainedModel(model, ModelColumns()))
  }
}
