/**
 * backend/services/scraper_service.py: team records derived from game
 * results, written into the `team_standings` table, and the seeding of
 * `team_realignment` from the static realignment data.
 */
module ScraperService {

  import opened Wrappers
  import opened Models
  import opened KeyOrder
  import opened StandingsCalculation
  import StandingsCalculationProperties
  import SeasonOrder

  // ---------------------------------------------------------------------
  // REALIGNMENT_DATA (lines 11-44)
  // ---------------------------------------------------------------------

  /** The custom league: team code, conference, division, team name. */
  const RealignmentData: seq<TeamRealignment> := [
    TeamRealignment("DAL", "People", "People with Jobs", "Cowboys"),
    TeamRealignment("KC", "People", "People", "Chiefs"),
    TeamRealignment("TB", "People", "Violent People", "Buccaneers"),
    TeamRealignment("CIN", "Animals", "Cats", "Bengals"),
    TeamRealignment("MIA", "Animals", "Surf & Turf", "Dolphins"),
    TeamRealignment("CAR", "Animals", "Cats", "Panthers"),
    TeamRealignment("LV", "People", "Violent People", "Raiders"),
    TeamRealignment("ARI", "Animals", "North America", "Cardinals"),
    TeamRealignment("PIT", "People", "People with Jobs", "Steelers"),
    TeamRealignment("NYG", "People", "Fictional People", "Giants"),
    TeamRealignment("TEN", "People", "Fictional People", "Titans"),
    TeamRealignment("SF", "People", "People with Jobs", "49ers"),
    TeamRealignment("DET", "Animals", "Cats", "Lions"),
    TeamRealignment("HOU", "People", "People", "Texans"),
    TeamRealignment("BAL", "Animals", "Birds of Prey", "Ravens"),
    TeamRealignment("MIN", "People", "Violent People", "Vikings"),
    TeamRealignment("WAS", "People", "People with Jobs", "Commanders"),
    TeamRealignment("CLE", "People", "People", "Browns"),
    TeamRealignment("JAX", "Animals", "Cats", "Jaguars"),
    TeamRealignment("CHI", "Animals", "North America", "Bears"),
    TeamRealignment("NE", "People", "People", "Patriots"),
    TeamRealignment("BUF", "Animals", "Surf & Turf", "Bills"),
    TeamRealignment("SEA", "Animals", "Birds of Prey", "Seahawks"),
    TeamRealignment("LA", "Animals", "Surf & Turf", "Rams"),
    TeamRealignment("DEN", "Animals", "North America", "Broncos"),
    TeamRealignment("PHI", "Animals", "Birds of Prey", "Eagles"),
    TeamRealignment("ATL", "Animals", "Birds of Prey", "Falcons"),
    TeamRealignment("LAC", "People", "Violent People", "Chargers"),
    TeamRealignment("GB", "People", "People with Jobs", "Packers"),
    TeamRealignment("NYJ", "People", "Fictional People", "Jets"),
    TeamRealignment("IND", "Animals", "North America", "Colts"),
    TeamRealignment("NO", "People", "Fictional People", "Saints")
  ]

  /** The row of `RealignmentData` holding team code `t`, or -1. */
  ghost function RowOf(t: string): int {
    match t
    case "DAL" => 0
    case "KC" => 1
    case "TB" => 2
    case "CIN" => 3
    case "MIA" => 4
    case "CAR" => 5
    case "LV" => 6
    case "ARI" => 7
    case "PIT" => 8
    case "NYG" => 9
    case "TEN" => 10
    case "SF" => 11
    case "DET" => 12
    case "HOU" => 13
    case "BAL" => 14
    case "MIN" => 15
    case "WAS" => 16
    case "CLE" => 17
    case "JAX" => 18
    case "CHI" => 19
    case "NE" => 20
    case "BUF" => 21
    case "SEA" => 22
    case "LA" => 23
    case "DEN" => 24
    case "PHI" => 25
    case "ATL" => 26
    case "LAC" => 27
    case "GB" => 28
    case "NYJ" => 29
    case "IND" => 30
    case "NO" => 31
    case _ => -1
  }

  // Each chunk is checked on its own: the `match` is a chain of 32 comparisons.
  lemma RowOfChunk0() ensures forall i :: 0 <= i < 6 ==> RowOf(RealignmentData[i].team) == i { }
  lemma RowOfChunk6() ensures forall i :: 6 <= i < 11 ==> RowOf(RealignmentData[i].team) == i { }
  lemma RowOfChunk11() ensures forall i :: 11 <= i < 15 ==> RowOf(RealignmentData[i].team) == i { }
  lemma RowOfChunk15() ensures forall i :: 15 <= i < 19 ==> RowOf(RealignmentData[i].team) == i { }
  lemma RowOfChunk19() ensures forall i :: 19 <= i < 23 ==> RowOf(RealignmentData[i].team) == i { }
  lemma RowOfChunk23() ensures forall i :: 23 <= i < 26 ==> RowOf(RealignmentData[i].team) == i { }
  lemma RowOfChunk26() ensures forall i :: 26 <= i < 29 ==> RowOf(RealignmentData[i].team) == i { }
  lemma RowOfChunk29() ensures forall i :: 29 <= i < 32 ==> RowOf(RealignmentData[i].team) == i { }

  /** 32 teams with pairwise-distinct codes, as the unique constraint on
      `team_realignment.team` demands: `RowOf` inverts the row-to-code map. */
  lemma RealignmentDataShape()
    ensures |RealignmentData| == 32
    ensures UniqueTeams(RealignmentData)
  {
    RowOfChunk0(); RowOfChunk6(); RowOfChunk11(); RowOfChunk15();
    RowOfChunk19(); RowOfChunk23(); RowOfChunk26(); RowOfChunk29();
    assert forall i :: 0 <= i < 32 ==> RowOf(RealignmentData[i].team) == i;
  }

  // ---------------------------------------------------------------------
  // initialize_realignment (lines 47-60)
  // ---------------------------------------------------------------------

  /** `.filter(TeamRealignment.team == team).first()`. Sessions are made with
      `autoflush=False` (backend/database.py:17), so the query reads the table
      as last flushed: rows added earlier in the same loop are not seen. */
  function FirstTeam(rs: seq<TeamRealignment>, team: string): (r: Option<TeamRealignment>)
    ensures r.Some? <==> HasTeam(rs, team)
    ensures r.Some? ==> r.value in rs && r.value.team == team
  {
    if rs == [] then None
    else if rs[0].team == team then Some(rs[0])
    else
      assert forall x :: x in rs ==> x == rs[0] || x in rs[1..];
      FirstTeam(rs[1..], team)
  }

  /** The entries `initialize_realignment` adds to the session while going
      through `data` in order: those whose team code the flushed table lacks. */
  function Pending(table: seq<TeamRealignment>, data: seq<TeamRealignment>): seq<TeamRealignment> {
    if data == [] then []
    else
      var p := Pending(table, data[..|data| - 1]);
      var d := data[|data| - 1];
      if HasTeam(table, d.team) then p else p + [d]
  }

  /** The table with the pending entries added, as the commit at line 60 writes it. */
  function Seeded(table: seq<TeamRealignment>, data: seq<TeamRealignment>): seq<TeamRealignment> {
    table + Pending(table, data)
  }

  /** The table after `initialize_realignment`: the commit succeeds when the
      added rows keep `team` unique, and otherwise raises, leaving the table
      as it was. */
  function Initialized(table: seq<TeamRealignment>, data: seq<TeamRealignment>): seq<TeamRealignment> {
    if UniqueTeams(Pending(table, data)) then Seeded(table, data) else table
  }

  /** An added entry is exactly an entry of `data` whose team code the table lacks. */
  lemma {:induction false} PendingMembers(table: seq<TeamRealignment>, data: seq<TeamRealignment>)
    ensures forall x :: x in Pending(table, data) <==> x in data && !HasTeam(table, x.team)
    decreases |data|
  {
    if data != [] {
      var p := data[..|data| - 1];
      PendingMembers(table, p);
      assert data == p + [data[|data| - 1]];
    }
  }

  /** Existing rows are never overwritten or deleted, and every added row is
      an entry of `data` whose team code was absent from the table. */
  lemma SeededExtends(table: seq<TeamRealignment>, data: seq<TeamRealignment>)
    ensures |Seeded(table, data)| >= |table|
    ensures Seeded(table, data)[..|table|] == table
    ensures forall i :: |table| <= i < |Seeded(table, data)| ==>
      Seeded(table, data)[i] in data && !HasTeam(table, Seeded(table, data)[i].team)
  {
    PendingMembers(table, data);
    var s := Seeded(table, data);
    forall i | |table| <= i < |s| ensures s[i] in data && !HasTeam(table, s[i].team) {
      assert s[i] == Pending(table, data)[i - |table|];
    }
  }

  /** The team codes the loop meets that the table lacks are pairwise distinct. */
  predicate DistinctNew(table: seq<TeamRealignment>, data: seq<TeamRealignment>) {
    forall i, j :: 0 <= i < j < |data| && !HasTeam(table, data[i].team) ==> data[i].team != data[j].team
  }

  lemma {:induction false} PendingUniqueIfDistinct(table: seq<TeamRealignment>, data: seq<TeamRealignment>)
    requires DistinctNew(table, data)
    ensures UniqueTeams(Pending(table, data))
    decreases |data|
  {
    if data != [] {
      var n := |data| - 1;
      var p, d := data[..n], data[n];
      assert forall i :: 0 <= i < n ==> p[i] == data[i];
      assert DistinctNew(table, p);
      PendingUniqueIfDistinct(table, p);
      var q := Pending(table, p);
      if !HasTeam(table, d.team) {
        PendingMembers(table, p);
        forall k | 0 <= k < |q| ensures q[k].team != d.team {
          assert q[k] in p;
          var i :| 0 <= i < n && p[i] == q[k];
          assert data[i] == q[k];
        }
        var r := q + [d];
        assert forall k :: 0 <= k < |q| ==> r[k] == q[k];
      }
    }
  }

  lemma {:induction false} DistinctIfPendingUnique(table: seq<TeamRealignment>, data: seq<TeamRealignment>)
    requires UniqueTeams(Pending(table, data))
    ensures DistinctNew(table, data)
    decreases |data|
  {
    if data != [] {
      var n := |data| - 1;
      var p, d := data[..n], data[n];
      var q := Pending(table, p);
      if !HasTeam(table, d.team) {
        var r := q + [d];
        assert forall k :: 0 <= k < |q| ==> r[k] == q[k];
        assert UniqueTeams(q);
      }
      DistinctIfPendingUnique(table, p);
      PendingMembers(table, p);
      forall i | 0 <= i < n && !HasTeam(table, data[i].team) ensures data[i].team != d.team {
        assert data[i] == p[i];
        if !HasTeam(table, d.team) {
          var k :| 0 <= k < |q| && q[k] == data[i];
          var r := q + [d];
          assert r[k] == data[i] && r[|q|] == d;
        }
      }
      assert forall i :: 0 <= i < n ==> p[i] == data[i];
    }
  }

  /** The commit succeeds exactly when no absent team code occurs twice in `data`. */
  lemma PendingUnique(table: seq<TeamRealignment>, data: seq<TeamRealignment>)
    ensures UniqueTeams(Pending(table, data)) <==> DistinctNew(table, data)
  {
    if DistinctNew(table, data) {
      PendingUniqueIfDistinct(table, data);
    }
    if UniqueTeams(Pending(table, data)) {
      DistinctIfPendingUnique(table, data);
    }
  }

  /** After seeding, every team code of `data` has a row. */
  lemma SeededCovers(table: seq<TeamRealignment>, data: seq<TeamRealignment>)
    ensures forall d :: d in data ==> HasTeam(Seeded(table, data), d.team)
  {
    PendingMembers(table, data);
    forall d | d in data ensures HasTeam(Seeded(table, data), d.team) {
      if HasTeam(table, d.team) {
        var x :| x in table && x.team == d.team;
        assert x in Seeded(table, data);
      } else {
        assert d in Seeded(table, data);
      }
    }
  }

  /** A table that already holds every team code of `data` gets nothing added. */
  lemma {:induction false} SeededNoOp(table: seq<TeamRealignment>, data: seq<TeamRealignment>)
    requires forall d :: d in data ==> HasTeam(table, d.team)
    ensures Pending(table, data) == []
    ensures Initialized(table, data) == table
    decreases |data|
  {
    if data != [] {
      var p := data[..|data| - 1];
      assert forall d :: d in p ==> d in data;
      SeededNoOp(table, p);
      assert data[|data| - 1] in data;
    }
  }

  /** Running `initialize_realignment` twice has the effect of running it once. */
  lemma InitializedIdempotent(table: seq<TeamRealignment>, data: seq<TeamRealignment>)
    ensures Initialized(Initialized(table, data), data) == Initialized(table, data)
  {
    if UniqueTeams(Pending(table, data)) {
      SeededCovers(table, data);
      SeededNoOp(Seeded(table, data), data);
    }
  }

  /** The unique constraint on `team_realignment.team` is never broken: a
      commit that would break it fails. */
  lemma InitializedUnique(table: seq<TeamRealignment>, data: seq<TeamRealignment>)
    requires UniqueTeams(table)
    ensures UniqueTeams(Initialized(table, data))
  {
    var q := Pending(table, data);
    if UniqueTeams(q) {
      PendingMembers(table, data);
      var s := table + q;
      forall i, j | 0 <= i < j < |s| ensures s[i].team != s[j].team {
        if j >= |table| {
          assert s[j] == q[j - |table|];
          if i < |table| {
            assert s[i] in table;
          } else {
            assert s[i] == q[i - |table|];
          }
        }
      }
    }
  }

  /** Seeding an empty table adds every entry of `data`, in order. */
  lemma {:induction false} PendingFromEmpty(data: seq<TeamRealignment>)
    ensures Pending([], data) == data
    decreases |data|
  {
    if data != [] {
      var p := data[..|data| - 1];
      PendingFromEmpty(p);
      assert data == p + [data[|data| - 1]];
    }
  }

  /** Initialising an empty table stores exactly `REALIGNMENT_DATA`, in order. */
  lemma SeededFromEmpty()
    ensures Initialized([], RealignmentData) == RealignmentData
  {
    RealignmentDataShape();
    PendingFromEmpty(RealignmentData);
  }

  // ---------------------------------------------------------------------
  // The upsert loop of scrape_season (lines 157-185), repeated verbatim in
  // scrape_all_seasons (lines 217-243)
  // ---------------------------------------------------------------------

  predicate IsKey(x: TeamStanding, season: int, team: string) {
    x.season == season && x.team == team
  }

  /** `.filter(season == ..., team == ...).first()`: the position of the first
      record with that key. */
  function FindStanding(table: seq<TeamStanding>, season: int, team: string): (r: Option<nat>)
    ensures r.Some? ==> r.value < |table| && IsKey(table[r.value], season, team)
    ensures r.Some? ==> forall j :: 0 <= j < r.value ==> !IsKey(table[j], season, team)
    ensures r.None? ==> forall j :: 0 <= j < |table| ==> !IsKey(table[j], season, team)
  {
    if table == [] then None
    else if IsKey(table[0], season, team) then Some(0)
    else
      match FindStanding(table[1..], season, team)
      case None => None
      case Some(i) => Some(i + 1)
  }

  /** The record the query returns, if any: the table seen as a map from
      (season, team) to its first record. */
  function Lookup(table: seq<TeamStanding>, season: int, team: string): Option<TeamStanding> {
    match FindStanding(table, season, team)
    case None => None
    case Some(i) => Some(table[i])
  }

  /** Lines 166-169: the four columns the update writes. The `pd.notna`
      fallbacks of the counts never apply (they are sums of integers); that
      of `pct` is `GetOr(0.0)`. */
  function Updated(existing: TeamStanding, row: StandingRow): TeamStanding {
    existing.(wins := row.isWin, losses := row.isLoss, ties := row.isTie, winPct := row.pct.GetOr(0.0))
  }

  /** Lines 172-179: a new record; the in-division columns start at 0. */
  function Inserted(row: StandingRow): TeamStanding {
    TeamStanding(row.season, row.team, row.isWin, row.isLoss, row.isTie, row.pct.GetOr(0.0), 0, 0, 0, 0.0)
  }

  /** One iteration of the loop. With autoflush off the query reads the
      records flushed before the loop, `flushed`; a record it finds is updated
      where it stands in the session's table `table` (the same object however
      often it is found), and otherwise a new record is added. */
  function Upsert(flushed: seq<TeamStanding>, table: seq<TeamStanding>, row: StandingRow): seq<TeamStanding>
    requires |flushed| <= |table|
  {
    match FindStanding(flushed, row.season, row.team)
    case Some(i) => table[i := Updated(table[i], row)]
    case None => table + [Inserted(row)]
  }

  /** The whole loop over `standings_df.iterrows()`, starting from the flushed
      table: the flushed records keep their places and keys. */
  function UpsertAll(flushed: seq<TeamStanding>, rows: seq<StandingRow>): (r: seq<TeamStanding>)
    ensures |r| >= |flushed|
    ensures forall j :: 0 <= j < |flushed| ==> r[j].season == flushed[j].season && r[j].team == flushed[j].team
  {
    if rows == [] then flushed
    else Upsert(flushed, UpsertAll(flushed, rows[..|rows| - 1]), rows[|rows| - 1])
  }

  /** The columns a row writes and the columns kept from an existing record. */
  function Written(x: TeamStanding): (int, int, int, real) {
    (x.wins, x.losses, x.ties, x.winPct)
  }

  function WrittenBy(row: StandingRow): (int, int, int, real) {
    (row.isWin, row.isLoss, row.isTie, row.pct.GetOr(0.0))
  }

  function InDivision(x: TeamStanding): (int, int, int, real) {
    (x.inDivisionWins, x.inDivisionLosses, x.inDivisionTies, x.inDivisionWinPct)
  }

  predicate IsRowKey(row: StandingRow, season: int, team: string) {
    row.season == season && row.team == team
  }

  /** The last row of `rows` with key (season, team). */
  function LastFor(rows: seq<StandingRow>, season: int, team: string): Option<StandingRow> {
    if rows == [] then None
    else if IsRowKey(rows[|rows| - 1], season, team) then Some(rows[|rows| - 1])
    else LastFor(rows[..|rows| - 1], season, team)
  }

  /** The first row of `rows` with key (season, team). */
  function FirstFor(rows: seq<StandingRow>, season: int, team: string): Option<StandingRow> {
    if rows == [] then None
    else
      match FirstFor(rows[..|rows| - 1], season, team)
      case Some(w) => Some(w)
      case None => if IsRowKey(rows[|rows| - 1], season, team) then Some(rows[|rows| - 1]) else None
  }

  /** The rows whose key no flushed record has, in order: each adds a record. */
  function NewRows(flushed: seq<TeamStanding>, rows: seq<StandingRow>): seq<StandingRow> {
    if rows == [] then []
    else
      var p := NewRows(flushed, rows[..|rows| - 1]);
      var row := rows[|rows| - 1];
      if FindStanding(flushed, row.season, row.team).None? then p + [row] else p
  }

  function Inserts(rows: seq<StandingRow>): (r: seq<TeamStanding>)
    ensures |r| == |rows|
  {
    if rows == [] then [] else Inserts(rows[..|rows| - 1]) + [Inserted(rows[|rows| - 1])]
  }

  /** Flushed record `j` after the loop: the record a query finds is
      rewritten by the last row with its key; any other is untouched. */
  function RefreshedAt(flushed: seq<TeamStanding>, rows: seq<StandingRow>, j: int): TeamStanding
    requires 0 <= j < |flushed|
  {
    var x := flushed[j];
    if FindStanding(flushed, x.season, x.team) == Some(j) then
      match LastFor(rows, x.season, x.team)
      case Some(w) => Updated(x, w)
      case None => x
    else x
  }

  function Refreshed(flushed: seq<TeamStanding>, rows: seq<StandingRow>): (r: seq<TeamStanding>)
    ensures |r| == |flushed|
  {
    seq(|flushed|, j requires 0 <= j < |flushed| => RefreshedAt(flushed, rows, j))
  }

  lemma LastForSnoc(p: seq<StandingRow>, row: StandingRow, season: int, team: string)
    ensures LastFor(p + [row], season, team) == if IsRowKey(row, season, team) then Some(row) else LastFor(p, season, team)
  {
    assert (p + [row])[..|p|] == p;
  }

  /** A row whose key has a flushed record at `i` rewrites that record only. */
  lemma RefreshedFound(flushed: seq<TeamStanding>, p: seq<StandingRow>, row: StandingRow, i: nat)
    requires FindStanding(flushed, row.season, row.team) == Some(i)
    ensures Refreshed(flushed, p + [row]) == Refreshed(flushed, p)[i := Updated(Refreshed(flushed, p)[i], row)]
  {
    var rp, rr := Refreshed(flushed, p), Refreshed(flushed, p + [row]);
    forall j | 0 <= j < |flushed| ensures rr[j] == rp[i := Updated(rp[i], row)][j] {
      var x := flushed[j];
      LastForSnoc(p, row, x.season, x.team);
      assert rr[j] == RefreshedAt(flushed, p + [row], j);
      assert rp[j] == RefreshedAt(flushed, p, j);
    }
  }

  /** A row whose key has no flushed record leaves every flushed record alone. */
  lemma RefreshedNew(flushed: seq<TeamStanding>, p: seq<StandingRow>, row: StandingRow)
    requires FindStanding(flushed, row.season, row.team).None?
    ensures Refreshed(flushed, p + [row]) == Refreshed(flushed, p)
  {
    var rp, rr := Refreshed(flushed, p), Refreshed(flushed, p + [row]);
    forall j | 0 <= j < |flushed| ensures rr[j] == rp[j] {
      var x := flushed[j];
      LastForSnoc(p, row, x.season, x.team);
      assert rr[j] == RefreshedAt(flushed, p + [row], j);
      assert rp[j] == RefreshedAt(flushed, p, j);
    }
  }

  lemma UpsertAllSnoc(flushed: seq<TeamStanding>, p: seq<StandingRow>, row: StandingRow)
    ensures UpsertAll(flushed, p + [row]) == Upsert(flushed, UpsertAll(flushed, p), row)
  {
    assert (p + [row])[..|p|] == p;
  }

  lemma NewRowsSnoc(flushed: seq<TeamStanding>, p: seq<StandingRow>, row: StandingRow)
    ensures NewRows(flushed, p + [row])
      == if FindStanding(flushed, row.season, row.team).None? then NewRows(flushed, p) + [row] else NewRows(flushed, p)
  {
    assert (p + [row])[..|p|] == p;
  }

  lemma InsertsSnoc(p: seq<StandingRow>, row: StandingRow)
    ensures Inserts(p + [row]) == Inserts(p) + [Inserted(row)]
  {
    assert (p + [row])[..|p|] == p;
  }

  lemma UpdateFront(a: seq<TeamStanding>, b: seq<TeamStanding>, i: nat, v: TeamStanding)
    requires i < |a|
    ensures (a + b)[i := v] == a[i := v] + b
  {
  }

  lemma AppendBack(a: seq<TeamStanding>, b: seq<TeamStanding>, x: TeamStanding)
    ensures (a + b) + [x] == a + (b + [x])
  {
  }

  /** One upsert of a row whose key has a flushed record keeps the split. */
  lemma SplitFoundStep(flushed: seq<TeamStanding>, p: seq<StandingRow>, row: StandingRow, i: nat)
    requires FindStanding(flushed, row.season, row.team) == Some(i)
    requires UpsertAll(flushed, p) == Refreshed(flushed, p) + Inserts(NewRows(flushed, p))
    ensures UpsertAll(flushed, p + [row]) == Refreshed(flushed, p + [row]) + Inserts(NewRows(flushed, p + [row]))
  {
    var rp, ip := Refreshed(flushed, p), Inserts(NewRows(flushed, p));
    var t := UpsertAll(flushed, p);
    assert i < |flushed| == |rp|;
    var v := Updated(rp[i], row);
    UpsertAllSnoc(flushed, p, row);
    assert UpsertAll(flushed, p + [row]) == t[i := Updated(t[i], row)];
    assert t[i] == rp[i];
    NewRowsSnoc(flushed, p, row);
    RefreshedFound(flushed, p, row, i);
    UpdateFront(rp, ip, i, v);
  }

  /** One upsert of a row whose key has no flushed record keeps the split. */
  lemma SplitNewStep(flushed: seq<TeamStanding>, p: seq<StandingRow>, row: StandingRow)
    requires FindStanding(flushed, row.season, row.team).None?
    requires UpsertAll(flushed, p) == Refreshed(flushed, p) + Inserts(NewRows(flushed, p))
    ensures UpsertAll(flushed, p + [row]) == Refreshed(flushed, p + [row]) + Inserts(NewRows(flushed, p + [row]))
  {
    var rp, ip := Refreshed(flushed, p), Inserts(NewRows(flushed, p));
    var t := UpsertAll(flushed, p);
    var x := Inserted(row);
    UpsertAllSnoc(flushed, p, row);
    assert UpsertAll(flushed, p + [row]) == t + [x];
    NewRowsSnoc(flushed, p, row);
    InsertsSnoc(NewRows(flushed, p), row);
    assert Inserts(NewRows(flushed, p + [row])) == ip + [x];
    RefreshedNew(flushed, p, row);
    AppendBack(rp, ip, x);
  }

  /** The table after the loop: the flushed records, each found one rewritten
      by the last row with its key, followed by one new record per row whose
      key had no flushed record. Two such rows with the same key add two
      records. */
  lemma {:induction false} UpsertAllSplit(flushed: seq<TeamStanding>, rows: seq<StandingRow>)
    ensures UpsertAll(flushed, rows) == Refreshed(flushed, rows) + Inserts(NewRows(flushed, rows))
    decreases |rows|
  {
    if rows == [] {
      assert Refreshed(flushed, rows) == flushed;
    } else {
      var p := rows[..|rows| - 1];
      var row := rows[|rows| - 1];
      assert rows == p + [row];
      UpsertAllSplit(flushed, p);
      match FindStanding(flushed, row.season, row.team)
      case Some(i) => SplitFoundStep(flushed, p, row, i);
      case None => SplitNewStep(flushed, p, row);
    }
  }

  /** `i` is the first position holding the key. */
  lemma FindFirst(table: seq<TeamStanding>, season: int, team: string, i: nat)
    requires i < |table| && IsKey(table[i], season, team)
    requires forall j :: 0 <= j < i ==> !IsKey(table[j], season, team)
    ensures FindStanding(table, season, team) == Some(i)
  {
    var f := FindStanding(table, season, team);
    assert f.Some?;
    assert f.value >= i ==> f.value == i;
  }

  /** Adding a record of another key leaves the query's answer as it was. */
  lemma FindExtended(a: seq<TeamStanding>, x: TeamStanding, season: int, team: string)
    requires !IsKey(x, season, team)
    ensures Lookup(a + [x], season, team) == Lookup(a, season, team)
  {
    var f := FindStanding(a, season, team);
    if f.Some? {
      FindFirst(a + [x], season, team, f.value);
    } else {
      assert FindStanding(a + [x], season, team) == None;
    }
  }

  /** Records of other keys in front do not change what the query finds. */
  lemma {:induction false} FindAfter(a: seq<TeamStanding>, b: seq<TeamStanding>, season: int, team: string)
    requires forall j :: 0 <= j < |a| ==> !IsKey(a[j], season, team)
    ensures Lookup(a + b, season, team) == Lookup(b, season, team)
    decreases |a|
  {
    if a == [] {
      assert a + b == b;
    } else {
      assert (a + b)[1..] == a[1..] + b;
      FindAfter(a[1..], b, season, team);
    }
  }

  /** The query on the new records finds the record of the first row with its key. */
  lemma {:induction false} LookupInserts(rows: seq<StandingRow>, season: int, team: string)
    ensures Lookup(Inserts(rows), season, team) ==
      match FirstFor(rows, season, team)
      case None => None
      case Some(w) => Some(Inserted(w))
    decreases |rows|
  {
    if rows != [] {
      var p := rows[..|rows| - 1];
      var row := rows[|rows| - 1];
      LookupInserts(p, season, team);
      var ip := Inserts(p);
      match FindStanding(ip, season, team)
      case Some(m) =>
        FindFirst(ip + [Inserted(row)], season, team, m);
      case None =>
        if IsRowKey(row, season, team) {
          FindFirst(ip + [Inserted(row)], season, team, |ip|);
        } else {
          FindExtended(ip, Inserted(row), season, team);
        }
    }
  }

  /** For a key no flushed record has, every row with it is a new row. */
  lemma {:induction false} NewRowsFirst(flushed: seq<TeamStanding>, rows: seq<StandingRow>, season: int, team: string)
    requires FindStanding(flushed, season, team).None?
    ensures FirstFor(NewRows(flushed, rows), season, team) == FirstFor(rows, season, team)
    decreases |rows|
  {
    if rows != [] {
      var p := rows[..|rows| - 1];
      var row := rows[|rows| - 1];
      NewRowsFirst(flushed, p, season, team);
      var np := NewRows(flushed, p);
      if FindStanding(flushed, row.season, row.team).None? {
        assert (np + [row])[..|np|] == np;
      } else {
        assert !IsRowKey(row, season, team);
      }
    }
  }

  /** After the whole loop: a key that had a flushed record still maps to that
      record, rewritten by the last row with the key (its in-division
      columns kept); a key that had none maps to the record inserted for the
      first row with it, or to nothing if no row has it. No record is
      removed, and the table grows by one record per new row. */
  lemma UpsertAllEffect(flushed: seq<TeamStanding>, rows: seq<StandingRow>, season: int, team: string)
    ensures var r := Lookup(UpsertAll(flushed, rows), season, team);
      match Lookup(flushed, season, team)
      case Some(x) =>
        r.Some? && IsKey(r.value, season, team) && InDivision(r.value) == InDivision(x) &&
        (match LastFor(rows, season, team)
         case None => r.value == x
         case Some(w) => Written(r.value) == WrittenBy(w))
      case None =>
        r == match FirstFor(rows, season, team)
             case None => None
             case Some(w) => Some(Inserted(w))
    ensures |UpsertAll(flushed, rows)| == |flushed| + |NewRows(flushed, rows)|
  {
    UpsertAllSplit(flushed, rows);
    var rr, ii := Refreshed(flushed, rows), Inserts(NewRows(flushed, rows));
    match FindStanding(flushed, season, team)
    case Some(i) =>
      assert rr[i] == RefreshedAt(flushed, rows, i);
      forall j | 0 <= j < i ensures !IsKey((rr + ii)[j], season, team) {
        assert (rr + ii)[j] == RefreshedAt(flushed, rows, j);
      }
      FindFirst(rr + ii, season, team, i);
    case None =>
      forall j | 0 <= j < |rr| ensures !IsKey(rr[j], season, team) {
        assert rr[j] == RefreshedAt(flushed, rows, j);
      }
      FindAfter(rr, ii, season, team);
      LookupInserts(NewRows(flushed, rows), season, team);
      NewRowsFirst(flushed, rows, season, team);
  }

  /** Rows with pairwise-distinct (season, team) keys. */
  predicate DistinctRowKeys(rows: seq<StandingRow>) {
    forall i, j :: 0 <= i < j < |rows| ==> (rows[i].season, rows[i].team) != (rows[j].season, rows[j].team)
  }

  /** Some row of `rows` has the key of `x`. */
  predicate KeyOfSome(rows: seq<StandingRow>, x: TeamStanding) {
    exists i :: 0 <= i < |rows| && IsRowKey(rows[i], x.season, x.team)
  }

  /** Every record past the flushed ones was inserted for a row of the loop. */
  lemma {:induction false} UpsertAllAdded(flushed: seq<TeamStanding>, rows: seq<StandingRow>)
    ensures forall j :: |flushed| <= j < |UpsertAll(flushed, rows)| ==> KeyOfSome(rows, UpsertAll(flushed, rows)[j])
    decreases |rows|
  {
    if rows != [] {
      var p := rows[..|rows| - 1];
      var row := rows[|rows| - 1];
      UpsertAllAdded(flushed, p);
      var t, r := UpsertAll(flushed, p), UpsertAll(flushed, rows);
      assert |t| <= |r| <= |t| + 1;
      forall j | |flushed| <= j < |r| ensures KeyOfSome(rows, r[j]) {
        if j < |t| {
          assert r[j].season == t[j].season && r[j].team == t[j].team;
          assert KeyOfSome(p, t[j]);
          var i :| 0 <= i < |p| && IsRowKey(p[i], t[j].season, t[j].team);
          assert rows[i] == p[i];
        } else {
          assert r[j] == Inserted(row);
          assert IsRowKey(rows[|rows| - 1], r[j].season, r[j].team);
        }
      }
    }
  }

  /** Rows with distinct keys keep a table free of duplicate (season, team)
      keys free of them. */
  lemma {:induction false} UpsertAllUnique(flushed: seq<TeamStanding>, rows: seq<StandingRow>)
    requires UniqueSeasonTeams(flushed)
    requires DistinctRowKeys(rows)
    ensures UniqueSeasonTeams(UpsertAll(flushed, rows))
    decreases |rows|
  {
    if rows != [] {
      var n := |rows| - 1;
      var p, row := rows[..n], rows[n];
      assert DistinctRowKeys(p);
      UpsertAllUnique(flushed, p);
      var t := UpsertAll(flushed, p);
      if FindStanding(flushed, row.season, row.team).None? {
        UpsertAllAdded(flushed, p);
        forall j | 0 <= j < |t| ensures !IsKey(t[j], row.season, row.team) {
          if j >= |flushed| {
            assert KeyOfSome(p, t[j]);
            var i :| 0 <= i < |p| && IsRowKey(p[i], t[j].season, t[j].team);
            assert rows[i] == p[i];
          }
        }
      }
    }
  }

  /** Two rows with the same key that no flushed record has leave two records
      with that key. */
  lemma RepeatedNewKey(flushed: seq<TeamStanding>, a: StandingRow, b: StandingRow)
    requires FindStanding(flushed, a.season, a.team).None?
    requires (a.season, a.team) == (b.season, b.team)
    ensures !UniqueSeasonTeams(UpsertAll(flushed, [a, b]))
  {
    assert [a, b][..1] == [a];
    assert [a][..0] == [];
    var t0 := UpsertAll(flushed, []);
    assert t0 == flushed;
    var t1 := UpsertAll(flushed, [a]);
    assert t1 == Upsert(flushed, t0, a);
    assert t1 == flushed + [Inserted(a)];
    var r := UpsertAll(flushed, [a, b]);
    assert r == Upsert(flushed, t1, b);
    assert r == t1 + [Inserted(b)];
    assert r[|flushed|] == Inserted(a) && r[|flushed| + 1] == Inserted(b);
  }

  lemma {:induction false} LastForDistinct(rows: seq<StandingRow>, i: int)
    requires DistinctRowKeys(rows)
    requires 0 <= i < |rows|
    ensures LastFor(rows, rows[i].season, rows[i].team) == Some(rows[i])
    decreases |rows|
  {
    if i < |rows| - 1 {
      var p := rows[..|rows| - 1];
      assert DistinctRowKeys(p);
      assert p[i] == rows[i];
      LastForDistinct(p, i);
    }
  }

  lemma {:induction false} FirstForDistinct(rows: seq<StandingRow>, i: int)
    requires DistinctRowKeys(rows)
    requires 0 <= i < |rows|
    ensures FirstFor(rows, rows[i].season, rows[i].team) == Some(rows[i])
    decreases |rows|
  {
    var p := rows[..|rows| - 1];
    assert DistinctRowKeys(p);
    if i < |rows| - 1 {
      assert p[i] == rows[i];
      FirstForDistinct(p, i);
    } else {
      FirstForAbsent(p, rows[i].season, rows[i].team);
    }
  }

  lemma {:induction false} LastForAbsent(rows: seq<StandingRow>, season: int, team: string)
    requires forall i :: 0 <= i < |rows| ==> (rows[i].season, rows[i].team) != (season, team)
    ensures LastFor(rows, season, team) == None
    decreases |rows|
  {
    if rows != [] {
      LastForAbsent(rows[..|rows| - 1], season, team);
    }
  }

  lemma {:induction false} FirstForAbsent(rows: seq<StandingRow>, season: int, team: string)
    requires forall i :: 0 <= i < |rows| ==> (rows[i].season, rows[i].team) != (season, team)
    ensures FirstFor(rows, season, team) == None
    decreases |rows|
  {
    if rows != [] {
      FirstForAbsent(rows[..|rows| - 1], season, team);
    }
  }

  /** `scrape_season` on the computed standings: each row's (season, team)
      record holds that row's wins, losses, ties and percentage, and every
      key no row names keeps its record (or its absence). */
  lemma ScrapeEffect(table: seq<TeamStanding>, scores: seq<Game>, today: int)
    ensures var rows := CalculatedStandings(scores, today);
      forall i :: 0 <= i < |rows| ==>
        var r := Lookup(UpsertAll(table, rows), rows[i].season, rows[i].team);
        r.Some? && Written(r.value) == WrittenBy(rows[i])
    ensures var rows := CalculatedStandings(scores, today);
      forall s, t :: (forall i :: 0 <= i < |rows| ==> (rows[i].season, rows[i].team) != (s, t)) ==>
        Lookup(UpsertAll(table, rows), s, t) == Lookup(table, s, t)
  {
    var rows := CalculatedStandings(scores, today);
    StandingsCalculationProperties.StandingsKeys(scores, today);
    KeyLessOrder();
    assert DistinctRowKeys(rows);
    forall i | 0 <= i < |rows|
      ensures var r := Lookup(UpsertAll(table, rows), rows[i].season, rows[i].team);
        r.Some? && Written(r.value) == WrittenBy(rows[i])
    {
      LastForDistinct(rows, i);
      FirstForDistinct(rows, i);
      UpsertAllEffect(table, rows, rows[i].season, rows[i].team);
    }
    forall s, t | forall i :: 0 <= i < |rows| ==> (rows[i].season, rows[i].team) != (s, t)
      ensures Lookup(UpsertAll(table, rows), s, t) == Lookup(table, s, t)
    {
      LastForAbsent(rows, s, t);
      FirstForAbsent(rows, s, t);
      UpsertAllEffect(table, rows, s, t);
    }
  }

  // ---------------------------------------------------------------------
  // scrape_season and scrape_all_seasons (lines 132-281)
  // ---------------------------------------------------------------------

  /** The dictionary `scrape_all_seasons` returns. */
  datatype ScrapeResult =
    | Scraped(seasonsScraped: seq<int>, recordsUpdated: nat)
    | Failed(error: string, recordsUpdated: nat)

  /** The seasons of the computed standings (line 214, before the join). */
  function RowSeasons(rows: seq<StandingRow>): set<int> {
    set r | r in rows :: r.season
  }

  lemma SeasonOfRow(scores: seq<Game>, today: int, s: int)
    requires s in RowSeasons(CalculatedStandings(scores, today))
    ensures exists g :: g in scores && Completed(g, today) && g.season == s
  {
    var rows := CalculatedStandings(scores, today);
    var games := CompletedGames(scores, today);
    StandingsCalculationProperties.StandingsKeys(scores, today);
    var r :| r in rows && r.season == s;
    var i :| 0 <= i < |rows| && rows[i] == r;
    assert StandingsCalculationProperties.PlayedIn(games, (r.season, r.team));
    var g :| g in games && g.season == s && (g.awayTeam == r.team || g.homeTeam == r.team);
    assert g in scores && Completed(g, today);
  }

  lemma SeasonOfGame(scores: seq<Game>, today: int, g: Game)
    requires g in scores && Completed(g, today)
    ensures g.season in RowSeasons(CalculatedStandings(scores, today))
  {
    var rows := CalculatedStandings(scores, today);
    var games := CompletedGames(scores, today);
    StandingsCalculationProperties.StandingsKeys(scores, today);
    assert g in games;
    assert StandingsCalculationProperties.PlayedIn(games, (g.season, g.homeTeam));
    var i :| 0 <= i < |rows| && (rows[i].season, rows[i].team) == (g.season, g.homeTeam);
    assert rows[i] in rows;
  }

  /** The seasons `scrape_all_seasons` reports are those with a completed
      regular-season game. */
  lemma ScrapedSeasons(scores: seq<Game>, today: int)
    ensures forall s :: s in RowSeasons(CalculatedStandings(scores, today)) <==>
      exists g :: g in scores && Completed(g, today) && g.season == s
  {
    forall s ensures s in RowSeasons(CalculatedStandings(scores, today)) <==> exists g :: g in scores && Completed(g, today) && g.season == s {
      if s in RowSeasons(CalculatedStandings(scores, today)) {
        SeasonOfRow(scores, today, s);
      }
      if exists g :: g in scores && Completed(g, today) && g.season == s {
        var g :| g in scores && Completed(g, today) && g.season == s;
        SeasonOfGame(scores, today, g);
      }
    }
  }

  /** The two tables the services read and write, records in insertion
      order. The queries have no ORDER BY, and SQL does not fix the order in
      which they return records; the model assumes insertion order. */
  class Database {
    var standings: seq<TeamStanding>
    var realignments: seq<TeamRealignment>

    constructor (standings: seq<TeamStanding>, realignments: seq<TeamRealignment>)
      ensures this.standings == standings && this.realignments == realignments
    {
      this.standings := standings;
      this.realignments := realignments;
    }

    /** `initialize_realignment` (lines 47-60). `committed` is false when the
        commit raises on the unique constraint. */
    method InitializeRealignment() returns (committed: bool)
      modifies this
      ensures committed == UniqueTeams(Pending(old(realignments), RealignmentData))
      ensures realignments == Initialized(old(realignments), RealignmentData)
      ensures standings == old(standings)
    {
      committed := SeedRealignments(RealignmentData);
    }

    /** The loop of `initialize_realignment` over the entries `data`, then the commit. */
    method SeedRealignments(data: seq<TeamRealignment>) returns (committed: bool)
      modifies this
      ensures committed == UniqueTeams(Pending(old(realignments), data))
      ensures realignments == Initialized(old(realignments), data)
      ensures standings == old(standings)
    {
      var flushed := realignments;
      var added: seq<TeamRealignment> := [];
      var i := 0;
      while i < |data|
        invariant 0 <= i <= |data|
        invariant added == Pending(flushed, data[..i])
        invariant realignments == flushed == old(realignments)
        invariant standings == old(standings)
      {
        var entry := data[i];
        assert data[..i + 1][..i] == data[..i];
        var existing := FirstTeam(flushed, entry.team);
        if existing.None? {
          added := added + [entry];
        }
        i := i + 1;
      }
      assert data[..|data|] == data;
      // db.commit(): the unique index on `team` rejects a repeated code
      committed := forall j, k | 0 <= j < k < |added| :: added[j].team != added[k].team;
      if committed {
        realignments := realignments + added;
      }
    }

    /** The upsert loop (lines 157-185 and 217-243): one update or insert per
        row, counting the rows. The queries read the table flushed before the
        loop; the commit always succeeds, as `team_standings` has no unique
        constraint. */
    method UpsertRows(rows: seq<StandingRow>) returns (recordsUpdated: nat)
      modifies this
      ensures standings == UpsertAll(old(standings), rows)
      ensures realignments == old(realignments)
      ensures recordsUpdated == |rows|
    {
      var flushed := standings;
      recordsUpdated := 0;
      var i := 0;
      while i < |rows|
        invariant 0 <= i <= |rows|
        invariant standings == UpsertAll(flushed, rows[..i])
        invariant flushed == old(standings)
        invariant realignments == old(realignments)
        invariant recordsUpdated == i
      {
        var row := rows[i];
        assert rows[..i + 1] == rows[..i] + [row];
        UpsertAllSnoc(flushed, rows[..i], row);
        var existing := FindStanding(flushed, row.season, row.team);
        match existing {
          case Some(j) =>
            standings := standings[j := Updated(standings[j], row)];
          case None =>
            standings := standings + [Inserted(row)];
        }
        recordsUpdated := recordsUpdated + 1;
        i := i + 1;
      }
      assert rows[..|rows|] == rows;
    }

    /** `scrape_season` (lines 132-189) on the schedule `scores`, on day `today`. */
    method ScrapeSeason(scores: seq<Game>, today: int) returns (recordsUpdated: nat)
      modifies this
      ensures standings == UpsertAll(old(standings), CalculatedStandings(scores, today))
      ensures recordsUpdated == |CalculatedStandings(scores, today)|
      ensures realignments == old(realignments)
      ensures (forall g :: g in scores ==> !Completed(g, today)) ==>
        recordsUpdated == 0 && standings == old(standings)
    {
      StandingsCalculationProperties.EmptyIffNoneCompleted(scores, today);
      var standingsDf := CalculateStandings(scores, today);
      if |standingsDf| == 0 {
        return 0;
      }
      recordsUpdated := UpsertRows(standingsDf);
    }

    /** `scrape_all_seasons` (lines 192-281) on the schedule of all seasons. */
    method ScrapeAllSeasons(scores: seq<Game>, today: int) returns (result: ScrapeResult)
      modifies this
      ensures var rows := CalculatedStandings(scores, today);
        rows == [] ==> result == Failed("No standings data found", 0) && standings == old(standings)
      ensures var rows := CalculatedStandings(scores, today);
        rows != [] ==>
          result == Scraped(SeasonOrder.Ascending(RowSeasons(rows)), |rows|) &&
          standings == UpsertAll(old(standings), rows)
      ensures realignments == old(realignments)
    {
      var standingsDf := CalculateStandings(scores, today);
      if |standingsDf| == 0 {
        return Failed("No standings data found", 0);
      }
      var seasons := SeasonOrder.Ascending(RowSeasons(standingsDf));
      var recordsUpdated := UpsertRows(standingsDf);
      result := Scraped(seasons, recordsUpdated);
    }
  }
}
