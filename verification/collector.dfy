/**
 * The pure logic inside the data collector script: the team-id dictionary
 * built from a season's fixture list, the reconstruction of one record per
 * match from the per-team match rows, and the choice of season-statistics
 * columns that are stored. Fetching, sleeping and the database are left out.
 */
module Collector {
  import opened Results
  import opened Sequences

  // ---------------------------------------------------------------------------
  // Team-id dictionary
  // ---------------------------------------------------------------------------

  /** A string-valued key of a fixture record, which may be absent or null. */
  type Field = Option<string>

  /** Python truthiness of such a key: present and not the empty string. */
  predicate Truthy(f: Field)
  {
    f.Some? && f.value != ""
  }

  /** One element of the season fixture list returned by the matches endpoint. */
  datatype Fixture = Fixture(homeTeamId: Field, home: Field, awayTeamId: Field, away: Field)

  /** One assignment `team_map[id] = name`. */
  datatype Entry = Entry(id: string, name: string)

  /** The assignments one fixture performs: its home slot, then its away slot. */
  function FixtureEntries(f: Fixture): seq<Entry>
  {
    (if Truthy(f.homeTeamId) && Truthy(f.home) then [Entry(f.homeTeamId.value, f.home.value)] else [])
    + (if Truthy(f.awayTeamId) && Truthy(f.away) then [Entry(f.awayTeamId.value, f.away.value)] else [])
  }

  /** Every assignment performed while scanning the fixture list, in scan order. */
  function Entries(fs: seq<Fixture>): seq<Entry>
    decreases |fs|
  {
    if |fs| == 0 then [] else Entries(fs[..|fs| - 1]) + FixtureEntries(fs[|fs| - 1])
  }

  /** No assignment after position `i` writes the same id. */
  predicate LastWrite(es: seq<Entry>, i: int)
    requires 0 <= i < |es|
  {
    forall j :: i < j < |es| ==> es[j].id != es[i].id
  }

  /** The dictionary left by performing the assignments `es` in order on an empty one. */
  function Written(es: seq<Entry>): map<string, string>
    decreases |es|
  {
    if |es| == 0 then map[] else Written(es[..|es| - 1])[es[|es| - 1].id := es[|es| - 1].name]
  }

  /**
   * Last write wins: the keys of `Written(es)` are exactly the ids assigned,
   * and each id holds the name of its last assignment.
   */
  lemma {:induction false} WrittenLastWriteWins(es: seq<Entry>)
    ensures forall i :: 0 <= i < |es| ==> es[i].id in Written(es)
    ensures forall id :: id in Written(es) ==> exists i :: 0 <= i < |es| && es[i].id == id
    ensures forall i :: 0 <= i < |es| && LastWrite(es, i) ==> Written(es)[es[i].id] == es[i].name
    decreases |es|
  {
    if |es| > 0 {
      var init := es[..|es| - 1];
      var last := es[|es| - 1];
      WrittenLastWriteWins(init);
      var m0 := Written(init);
      assert Written(es) == m0[last.id := last.name];
      forall i | 0 <= i < |es|
        ensures es[i].id in Written(es)
      {
        if i < |init| {
          assert init[i] == es[i];
        }
      }
      forall id | id in Written(es)
        ensures exists i :: 0 <= i < |es| && es[i].id == id
      {
        if id != last.id {
          var i :| 0 <= i < |init| && init[i].id == id;
          assert es[i] == init[i];
        } else {
          assert es[|es| - 1].id == id;
        }
      }
      forall i | 0 <= i < |es| && LastWrite(es, i)
        ensures Written(es)[es[i].id] == es[i].name
      {
        if i < |init| {
          assert init[i] == es[i];
          assert LastWrite(init, i) by {
            forall j | i < j < |init|
              ensures init[j].id != init[i].id
            {
              assert init[j] == es[j];
            }
          }
          assert es[i].id != last.id;
        }
      }
    }
  }

  lemma WrittenSnoc(es: seq<Entry>, e: Entry)
    ensures Written(es + [e]) == Written(es)[e.id := e.name]
  {
  }

  /** One iteration of the `get_team_id_map` loop body on the dictionary `m`. */
  function RecordFixture(m: map<string, string>, f: Fixture): map<string, string>
  {
    var m1 := if Truthy(f.homeTeamId) && Truthy(f.home) then m[f.homeTeamId.value := f.home.value] else m;
    if Truthy(f.awayTeamId) && Truthy(f.away) then m1[f.awayTeamId.value := f.away.value] else m1
  }

  lemma WrittenFixture(es: seq<Entry>, f: Fixture)
    ensures Written(es + FixtureEntries(f)) == RecordFixture(Written(es), f)
  {
    var h := if Truthy(f.homeTeamId) && Truthy(f.home) then [Entry(f.homeTeamId.value, f.home.value)] else [];
    var a := if Truthy(f.awayTeamId) && Truthy(f.away) then [Entry(f.awayTeamId.value, f.away.value)] else [];
    assert FixtureEntries(f) == h + a;
    assert es + FixtureEntries(f) == (es + h) + a;
    if |h| == 1 {
      assert es + h == es + [h[0]];
      WrittenSnoc(es, h[0]);
    } else {
      assert es + h == es;
    }
    if |a| == 1 {
      assert (es + h) + a == (es + h) + [a[0]];
      WrittenSnoc(es + h, a[0]);
    } else {
      assert (es + h) + a == es + h;
    }
  }

  /**
   * The loop of `get_team_id_map`: for each fixture, record the home id and
   * name when both are truthy, then the away id and name when both are truthy.
   * The result is the dictionary of those assignments performed in scan order.
   */
  function TeamIdMap(fs: seq<Fixture>): (m: map<string, string>)
    ensures m == Written(Entries(fs))
    decreases |fs|
  {
    if |fs| == 0 then map[]
    else
      var f := fs[|fs| - 1];
      WrittenFixture(Entries(fs[..|fs| - 1]), f);
      RecordFixture(TeamIdMap(fs[..|fs| - 1]), f)
  }

  /** Fixture `f` writes `id` from its home slot or from its away slot. */
  predicate WritesId(f: Fixture, id: string)
  {
    || (Truthy(f.homeTeamId) && Truthy(f.home) && f.homeTeamId.value == id)
    || (Truthy(f.awayTeamId) && Truthy(f.away) && f.awayTeamId.value == id)
  }

  lemma FixtureWritesId(f: Fixture, id: string)
    ensures (exists i :: 0 <= i < |FixtureEntries(f)| && FixtureEntries(f)[i].id == id) <==> WritesId(f, id)
  {
    var fe := FixtureEntries(f);
    var h := if Truthy(f.homeTeamId) && Truthy(f.home) then [Entry(f.homeTeamId.value, f.home.value)] else [];
    var a := if Truthy(f.awayTeamId) && Truthy(f.away) then [Entry(f.awayTeamId.value, f.away.value)] else [];
    assert fe == h + a;
    if WritesId(f, id) {
      if Truthy(f.homeTeamId) && Truthy(f.home) && f.homeTeamId.value == id {
        assert fe[0].id == id;
      } else {
        assert fe[|h|].id == id;
      }
    }
  }

  /** Some assignment in `es` writes `id`. */
  predicate WritesAny(es: seq<Entry>, id: string)
  {
    exists i :: 0 <= i < |es| && es[i].id == id
  }

  lemma WritesAnyConcat(a: seq<Entry>, b: seq<Entry>, id: string)
    ensures WritesAny(a + b, id) <==> WritesAny(a, id) || WritesAny(b, id)
  {
    if WritesAny(a + b, id) {
      var i :| 0 <= i < |a + b| && (a + b)[i].id == id;
      if i < |a| {
        assert a[i].id == id;
      } else {
        assert b[i - |a|].id == id;
      }
    }
    if WritesAny(a, id) {
      var i :| 0 <= i < |a| && a[i].id == id;
      assert (a + b)[i].id == id;
    }
    if WritesAny(b, id) {
      var i :| 0 <= i < |b| && b[i].id == id;
      assert (a + b)[|a| + i].id == id;
    }
  }

  lemma {:induction false} EntriesWriteIds(fs: seq<Fixture>, id: string)
    ensures (exists i :: 0 <= i < |Entries(fs)| && Entries(fs)[i].id == id)
        <==> (exists k :: 0 <= k < |fs| && WritesId(fs[k], id))
    decreases |fs|
  {
    if |fs| > 0 {
      var init := fs[..|fs| - 1];
      var f := fs[|fs| - 1];
      EntriesWriteIds(init, id);
      assert Entries(fs) == Entries(init) + FixtureEntries(f);
      FixtureWritesId(f, id);
      WritesAnyConcat(Entries(init), FixtureEntries(f), id);
      assert forall k :: 0 <= k < |init| ==> init[k] == fs[k];
      assert (exists k :: 0 <= k < |fs| && WritesId(fs[k], id))
          <==> (exists k :: 0 <= k < |init| && WritesId(init[k], id)) || WritesId(f, id);
    }
  }

  /**
   * An id is a key of the team map exactly when some fixture has that id
   * together with a truthy team name in the same slot.
   */
  lemma TeamIdMapKeys(fs: seq<Fixture>, id: string)
    ensures id in TeamIdMap(fs) <==> exists k :: 0 <= k < |fs| && WritesId(fs[k], id)
  {
    var es := Entries(fs);
    WrittenLastWriteWins(es);
    EntriesWriteIds(fs, id);
    assert id in TeamIdMap(fs) <==> exists i :: 0 <= i < |es| && es[i].id == id;
  }

  /** Some assignment writes `x` while no assignment up to and including it has written `y`. */
  predicate WrittenFirst(es: seq<Entry>, x: string, y: string)
  {
    exists i :: 0 <= i < |es| && es[i].id == x && forall j :: 0 <= j <= i ==> es[j].id != y
  }

  /** No id is listed twice. */
  predicate NoDuplicates(ks: seq<string>)
  {
    forall a, b :: 0 <= a < b < |ks| ==> ks[a] != ks[b]
  }

  /** Every id assigned in `es` is listed. */
  predicate ListsAllWritten(es: seq<Entry>, ks: seq<string>)
  {
    forall i :: 0 <= i < |es| ==> es[i].id in ks
  }

  /** Only ids assigned in `es` are listed. */
  predicate ListsOnlyWritten(es: seq<Entry>, ks: seq<string>)
  {
    forall k :: 0 <= k < |ks| ==> exists i :: 0 <= i < |es| && es[i].id == ks[k]
  }

  /** Of two listed ids, the earlier one was assigned before the later one ever was. */
  predicate ByFirstWrite(es: seq<Entry>, ks: seq<string>)
  {
    forall a, b :: 0 <= a < b < |ks| ==> WrittenFirst(es, ks[a], ks[b])
  }

  /**
   * `ks` is the key order of a Python dict after the assignments `es`: every
   * id assigned appears exactly once, nothing else appears, and ids are listed
   * in the order of their first assignment (a later assignment to a key
   * replaces its value but leaves it where it was).
   */
  predicate InInsertionOrder(es: seq<Entry>, ks: seq<string>)
  {
    NoDuplicates(ks) && ListsAllWritten(es, ks) && ListsOnlyWritten(es, ks) && ByFirstWrite(es, ks)
  }

  /** The key order of the dictionary left by the assignments `es`. */
  function InsertionOrder(es: seq<Entry>): (ks: seq<string>)
    ensures InInsertionOrder(es, ks)
    decreases |es|
  {
    if |es| == 0 then []
    else
      var ks0 := InsertionOrder(es[..|es| - 1]);
      var e := es[|es| - 1];
      var ks := if e.id in ks0 then ks0 else ks0 + [e.id];
      AllWrittenStep(es, ks0, ks);
      OnlyWrittenStep(es, ks0, ks);
      FirstWriteStep(es, ks0, ks);
      ks
  }

  lemma AllWrittenStep(es: seq<Entry>, ks0: seq<string>, ks: seq<string>)
    requires |es| > 0 && ListsAllWritten(es[..|es| - 1], ks0)
    requires ks == if es[|es| - 1].id in ks0 then ks0 else ks0 + [es[|es| - 1].id]
    ensures ListsAllWritten(es, ks)
  {
    forall i | 0 <= i < |es| - 1
      ensures es[i].id in ks
    {
      assert es[..|es| - 1][i] == es[i];
    }
  }

  lemma OnlyWrittenStep(es: seq<Entry>, ks0: seq<string>, ks: seq<string>)
    requires |es| > 0 && ListsOnlyWritten(es[..|es| - 1], ks0)
    requires ks == if es[|es| - 1].id in ks0 then ks0 else ks0 + [es[|es| - 1].id]
    ensures ListsOnlyWritten(es, ks)
  {
    var init := es[..|es| - 1];
    forall k | 0 <= k < |ks|
      ensures exists i :: 0 <= i < |es| && es[i].id == ks[k]
    {
      if k < |ks0| {
        var i :| 0 <= i < |init| && init[i].id == ks0[k];
        assert es[i] == init[i];
      } else {
        assert es[|es| - 1].id == ks[k];
      }
    }
  }

  lemma FirstWriteStep(es: seq<Entry>, ks0: seq<string>, ks: seq<string>)
    requires |es| > 0
    requires ListsAllWritten(es[..|es| - 1], ks0) && ListsOnlyWritten(es[..|es| - 1], ks0)
    requires ByFirstWrite(es[..|es| - 1], ks0)
    requires ks == if es[|es| - 1].id in ks0 then ks0 else ks0 + [es[|es| - 1].id]
    ensures ByFirstWrite(es, ks)
  {
    var init := es[..|es| - 1];
    forall a, b | 0 <= a < b < |ks|
      ensures WrittenFirst(es, ks[a], ks[b])
    {
      if b < |ks0| {
        WrittenFirstExtends(init, es, ks0[a], ks0[b]);
      } else {
        var i :| 0 <= i < |init| && init[i].id == ks0[a];
        assert es[i] == init[i];
        forall j | 0 <= j <= i
          ensures es[j].id != ks[b]
        {
          assert es[j] == init[j];
        }
      }
    }
  }

  lemma WrittenFirstExtends(init: seq<Entry>, es: seq<Entry>, x: string, y: string)
    requires init <= es && WrittenFirst(init, x, y)
    ensures WrittenFirst(es, x, y)
  {
    var i :| 0 <= i < |init| && init[i].id == x && forall j :: 0 <= j <= i ==> init[j].id != y;
    assert es[i] == init[i];
    assert forall j :: 0 <= j <= i ==> es[j] == init[j];
  }

  /**
   * The order in which `team_map.items()` yields the team ids: each key of
   * the team map exactly once, in the order of its first assignment while
   * scanning the fixture list.
   */
  function TeamOrder(fs: seq<Fixture>): (ids: seq<string>)
    ensures forall a, b :: 0 <= a < b < |ids| ==> ids[a] != ids[b]
    ensures forall id :: id in ids <==> id in TeamIdMap(fs)
    ensures forall a, b :: 0 <= a < b < |ids| ==> WrittenFirst(Entries(fs), ids[a], ids[b])
  {
    WrittenLastWriteWins(Entries(fs));
    InsertionOrder(Entries(fs))
  }

  // ---------------------------------------------------------------------------
  // Match reconstruction
  // ---------------------------------------------------------------------------

  /**
   * One row of the concatenated per-team match frames: a match seen from the
   * primary team's side, with goals for (`gf`) and against (`ga`) that may be NaN.
   */
  datatype TeamMatchRow = TeamMatchRow(
    matchId: string,
    season: string,
    date: string,
    primaryTeam: string,
    opponent: string,
    homeAway: string,
    gf: Option<nat>,
    ga: Option<nat>)

  /** One reconstructed match, as stored in the matches table. */
  datatype Match = Match(
    season: string,
    date: string,
    homeTeam: string,
    awayTeam: string,
    homeGoals: nat,
    awayGoals: nat)

  /** Neither goal count of the row is missing. */
  predicate HasScore(r: TeamMatchRow)
  {
    r.gf.Some? && r.ga.Some?
  }

  /** A match seen from one side: that side, its opponent, goals for and goals against. */
  datatype Side = Side(team: string, opponent: string, goalsFor: nat, goalsAgainst: nat)

  function SideOf(m: Match, home: bool): Side
  {
    if home then Side(m.homeTeam, m.awayTeam, m.homeGoals, m.awayGoals)
    else Side(m.awayTeam, m.homeTeam, m.awayGoals, m.homeGoals)
  }

  /**
   * Turns a per-team row into a match record. Seen from the side the row says
   * the primary team played (home only when `home_away` is exactly "Home"),
   * the match is the row again: primary team, opponent, gf, ga.
   */
  function Orient(r: TeamMatchRow): (m: Match)
    requires HasScore(r)
    ensures SideOf(m, r.homeAway == "Home") == Side(r.primaryTeam, r.opponent, r.gf.value, r.ga.value)
    ensures m.season == r.season && m.date == r.date
  {
    if r.homeAway == "Home" then
      Match(r.season, r.date, r.primaryTeam, r.opponent, r.gf.value, r.ga.value)
    else
      Match(r.season, r.date, r.opponent, r.primaryTeam, r.ga.value, r.gf.value)
  }

  /**
   * Row `i` produces a match: it has both scores and no earlier row with both
   * scores has the same match id. Rows with a missing score never claim an id.
   */
  predicate Yields(rows: seq<TeamMatchRow>, i: int)
    requires 0 <= i < |rows|
  {
    && HasScore(rows[i])
    && forall j :: 0 <= j < i && HasScore(rows[j]) ==> rows[j].matchId != rows[i].matchId
  }

  /** Whether row `i` yields depends only on the rows up to and including it. */
  lemma YieldsPrefix(rows: seq<TeamMatchRow>, n: int, i: int)
    requires 0 <= i < n <= |rows|
    ensures Yields(rows[..n], i) == Yields(rows, i)
  {
  }

  /** The reconstructed matches: one oriented record per yielding row, in row order. */
  function Reconstructed(rows: seq<TeamMatchRow>): (ms: seq<Match>)
    ensures |ms| <= |rows|
    decreases |rows|
  {
    if |rows| == 0 then []
    else
      var n := |rows| - 1;
      Reconstructed(rows[..n]) + (if Yields(rows, n) then [Orient(rows[n])] else [])
  }

  /**
   * The rows that produce a match, ascending: every listed row yields, and
   * every yielding row is listed.
   */
  function Origins(rows: seq<TeamMatchRow>): (idx: seq<nat>)
    ensures forall k :: 0 <= k < |idx| ==> idx[k] < |rows| && Yields(rows, idx[k])
    ensures forall k, l :: 0 <= k < l < |idx| ==> idx[k] < idx[l]
    ensures forall i :: 0 <= i < |rows| && Yields(rows, i) ==> i in idx
    decreases |rows|
  {
    if |rows| == 0 then []
    else
      var idx0 := Origins(rows[..|rows| - 1]);
      OriginsSnoc(rows, idx0);
      idx0 + (if Yields(rows, |rows| - 1) then [|rows| - 1] else [])
  }

  /** One step of `Origins`: extending the origins of all rows but the last. */
  lemma OriginsSnoc(rows: seq<TeamMatchRow>, idx0: seq<nat>)
    requires |rows| > 0
    requires forall k :: 0 <= k < |idx0| ==> idx0[k] < |rows| - 1 && Yields(rows[..|rows| - 1], idx0[k])
    requires forall k, l :: 0 <= k < l < |idx0| ==> idx0[k] < idx0[l]
    requires forall i :: 0 <= i < |rows| - 1 && Yields(rows[..|rows| - 1], i) ==> i in idx0
    ensures var n := |rows| - 1;
      var idx := idx0 + (if Yields(rows, n) then [n] else []);
      && (forall k :: 0 <= k < |idx| ==> idx[k] < |rows| && Yields(rows, idx[k]))
      && (forall k, l :: 0 <= k < l < |idx| ==> idx[k] < idx[l])
      && (forall i :: 0 <= i < |rows| && Yields(rows, i) ==> i in idx)
  {
  }

  /**
   * Each reconstructed match comes from exactly one input row: match k is
   * the orientation of the k-th yielding row.
   */
  lemma {:induction false} ReconstructedFromOrigins(rows: seq<TeamMatchRow>)
    ensures |Reconstructed(rows)| == |Origins(rows)|
    ensures forall k :: 0 <= k < |Origins(rows)| ==> Reconstructed(rows)[k] == Orient(rows[Origins(rows)[k]])
    decreases |rows|
  {
    if |rows| > 0 {
      var n := |rows| - 1;
      var prefix := rows[..n];
      ReconstructedFromOrigins(prefix);
      var idx0 := Origins(prefix);
      var ms0 := Reconstructed(prefix);
      var ext := if Yields(rows, n) then [Orient(rows[n])] else [];
      assert Reconstructed(rows) == ms0 + ext;
      assert Origins(rows) == idx0 + (if Yields(rows, n) then [n] else []);
      forall k | 0 <= k < |idx0|
        ensures Reconstructed(rows)[k] == Orient(rows[Origins(rows)[k]])
      {
        assert prefix[idx0[k]] == rows[idx0[k]];
      }
    }
  }

  /** The ids of the rows among the first `n` that have both scores. */
  function ScoredIds(rows: seq<TeamMatchRow>, n: int): set<string>
    requires 0 <= n <= |rows|
  {
    set j | 0 <= j < n && HasScore(rows[j]) :: rows[j].matchId
  }

  lemma ReconstructStep(rows: seq<TeamMatchRow>, i: int)
    requires 0 <= i < |rows|
    ensures Yields(rows, i) <==> HasScore(rows[i]) && rows[i].matchId !in ScoredIds(rows, i)
    ensures ScoredIds(rows, i + 1)
      == ScoredIds(rows, i) + (if HasScore(rows[i]) then {rows[i].matchId} else {})
    ensures Reconstructed(rows[..i + 1])
      == Reconstructed(rows[..i]) + (if Yields(rows, i) then [Orient(rows[i])] else [])
  {
    assert rows[..i + 1][..i] == rows[..i];
    YieldsPrefix(rows, i + 1, i);
    if HasScore(rows[i]) && rows[i].matchId in ScoredIds(rows, i) {
      var j :| 0 <= j < i && HasScore(rows[j]) && rows[j].matchId == rows[i].matchId;
    }
  }

  /**
   * The loop of the collector's `main`: skip a row whose match id was already
   * processed, skip a row with a missing score, otherwise append the oriented
   * match and mark its id processed. It computes exactly `Reconstructed`.
   */
  method ReconstructMatches(rows: seq<TeamMatchRow>) returns (matches: seq<Match>)
    ensures matches == Reconstructed(rows)
  {
    matches := [];
    var processed: set<string> := {};
    for i := 0 to |rows|
      invariant processed == ScoredIds(rows, i)
      invariant matches == Reconstructed(rows[..i])
    {
      ReconstructStep(rows, i);
      var row := rows[i];
      if row.matchId in processed {
        continue;
      }
      if row.gf.None? || row.ga.None? {
        continue;
      }
      matches := matches + [Orient(row)];
      processed := processed + {row.matchId};
    }
    assert rows[..|rows|] == rows;
  }

  /** No two yielding rows share a match id, so no two reconstructed matches do. */
  lemma OneMatchPerId(rows: seq<TeamMatchRow>)
    ensures forall k, l :: 0 <= k < l < |Origins(rows)| ==>
      rows[Origins(rows)[k]].matchId != rows[Origins(rows)[l]].matchId
  {
  }

  /**
   * Every match id that has at least one row with both scores is reconstructed,
   * from the first such row.
   */
  lemma {:induction false} ScoredIdIsReconstructed(rows: seq<TeamMatchRow>, i: int)
    requires 0 <= i < |rows| && HasScore(rows[i])
    ensures exists j :: 0 <= j <= i && Yields(rows, j) && rows[j].matchId == rows[i].matchId
    decreases i
  {
    if !Yields(rows, i) {
      var j :| 0 <= j < i && HasScore(rows[j]) && rows[j].matchId == rows[i].matchId;
      ScoredIdIsReconstructed(rows, j);
    }
  }

  /** Deleting an earlier row with a missing score does not change whether the last row yields. */
  lemma LastYieldsAfterDeletion(rows: seq<TeamMatchRow>, i: int)
    requires 0 <= i < |rows| - 1 && !HasScore(rows[i])
    ensures Yields(rows[..i] + rows[i + 1..], |rows| - 2) == Yields(rows, |rows| - 1)
  {
    var n := |rows| - 1;
    var del := rows[..i] + rows[i + 1..];
    assert |del| == n;
    assert del[n - 1] == rows[n];
    if HasScore(rows[n]) {
      if !Yields(del, n - 1) {
        var j :| 0 <= j < n - 1 && HasScore(del[j]) && del[j].matchId == del[n - 1].matchId;
        if j < i {
          assert del[j] == rows[j];
        } else {
          assert del[j] == rows[j + 1];
        }
      }
      if !Yields(rows, n) {
        var j :| 0 <= j < n && HasScore(rows[j]) && rows[j].matchId == rows[n].matchId;
        if j < i {
          assert del[j] == rows[j];
        } else {
          assert j != i;
          assert del[j - 1] == rows[j];
        }
      }
    }
  }

  /**
   * A row with a missing score leaves no trace: deleting it does not change the
   * reconstruction, so a later scored row with the same id is still used.
   */
  lemma {:induction false} UnscoredRowIgnored(rows: seq<TeamMatchRow>, i: int)
    requires 0 <= i < |rows| && !HasScore(rows[i])
    ensures Reconstructed(rows[..i] + rows[i + 1..]) == Reconstructed(rows)
    decreases |rows|
  {
    var n := |rows| - 1;
    var del := rows[..i] + rows[i + 1..];
    if i == n {
      assert del == rows[..n];
    } else {
      var prefix := rows[..n];
      assert prefix[..i] + prefix[i + 1..] == del[..n - 1];
      UnscoredRowIgnored(prefix, i);
      LastYieldsAfterDeletion(rows, i);
      assert del[n - 1] == rows[n];
    }
  }

  // ---------------------------------------------------------------------------
  // Season-statistics columns
  // ---------------------------------------------------------------------------

  /** The columns the season-statistics table should hold, in table order. */
  const StatsColumns: seq<string> := [
    "season", "team_name", "shots", "yellow_cards", "red_cards", "xg",
    "shots_on_target_against", "save_percentage", "clean_sheets"]

  /** The renaming applied to the flattened API statistics columns; other names are kept. */
  function RenameStatsColumn(c: string): string
  {
    if c == "teamName" then "team_name"
    else if c == "ttl_sh" then "shots"
    else if c == "ttl_yellow_cards" then "yellow_cards"
    else if c == "ttl_red_cards" then "red_cards"
    else if c == "ttl_xg" then "xg"
    else if c == "sot_ag" then "shots_on_target_against"
    else if c == "save_pct" then "save_percentage"
    else c
  }

  /**
   * `existing_stats_cols`: the wanted columns that the frame actually has,
   * in the wanted order.
   */
  function ExistingColumns(wanted: seq<string>, present: set<string>): (cols: seq<string>)
    ensures forall k :: 0 <= k < |cols| ==> cols[k] in wanted && cols[k] in present
    ensures forall k :: 0 <= k < |wanted| && wanted[k] in present ==> wanted[k] in cols
    ensures IsSubsequence(cols, wanted)
    ensures (forall k :: 0 <= k < |wanted| ==> wanted[k] in present) ==> cols == wanted
    ensures |cols| == |set k | 0 <= k < |wanted| && wanted[k] in present|
  {
    assert KeptPositions(wanted, c => c in present) == set k | 0 <= k < |wanted| && wanted[k] in present;
    FilterIsSubsequence(wanted, c => c in present);
    Filter(wanted, c => c in present)
  }

  /**
   * The columns written to the season-statistics table for a frame whose
   * flattened columns are `raw`: the table columns present after renaming.
   */
  function SeasonStatsColumns(raw: set<string>): (cols: seq<string>)
    ensures IsSubsequence(cols, StatsColumns)
    ensures forall k :: 0 <= k < |cols| ==> exists c :: c in raw && RenameStatsColumn(c) == cols[k]
    ensures forall k :: (0 <= k < |StatsColumns| && (exists c :: c in raw && RenameStatsColumn(c) == StatsColumns[k])
      ==> StatsColumns[k] in cols)
    ensures "teamName" in raw ==> "team_name" in cols
  {
    var renamed := set c | c in raw :: RenameStatsColumn(c);
    assert "teamName" in raw ==> "team_name" in renamed by {
      if "teamName" in raw { assert RenameStatsColumn("teamName") == "team_name"; }
    }
    assert StatsColumns[1] == "team_name";
    ExistingColumns(StatsColumns, renamed)
  }
}
