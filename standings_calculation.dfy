/**
 * `calculate_standings_from_scores` (backend/services/scraper_service.py,
 * lines 63-129): team records of each season derived from a schedule of
 * game results.
 *
 * The schedule frame is a sequence of `Game`s in frame order; calendar days
 * are integers and "today" is a parameter. A missing `result` (NaN in the
 * frame) is `None`: every pandas comparison with it is false. A missing
 * `pct` (NaN) is likewise `None`.
 */
module StandingsCalculation {

  import opened Wrappers
  import opened KeyOrder

  // ---------------------------------------------------------------------
  // Input and filtering (lines 73-83)
  // ---------------------------------------------------------------------

  /** One row of the schedule: `result` is home score minus away score. */
  datatype Game = Game(
    season: int,
    awayTeam: string,
    homeTeam: string,
    gameday: int,
    gameType: string,
    result: Option<int>)

  /** Lines 77-80: played before today, in the regular season. */
  predicate Completed(g: Game, today: int) {
    g.gameday < today && g.gameType == "REG"
  }

  /** `scores.loc[...]`: the completed regular-season games, in frame order. */
  function CompletedGames(scores: seq<Game>, today: int): (r: seq<Game>)
    ensures forall g :: g in r <==> g in scores && Completed(g, today)
    ensures |r| <= |scores|
  {
    if scores == [] then []
    else
      var g := scores[|scores| - 1];
      assert scores == scores[..|scores| - 1] + [g];
      var p := CompletedGames(scores[..|scores| - 1], today);
      if Completed(g, today) then p + [g] else p
  }

  lemma {:induction false} CompletedGamesAppend(a: seq<Game>, b: seq<Game>, today: int)
    ensures CompletedGames(a + b, today) == CompletedGames(a, today) + CompletedGames(b, today)
    decreases |b|
  {
    if b == [] {
      assert a + b == a;
    } else {
      var b' := b[..|b| - 1];
      assert a + b == (a + b') + [b[|b| - 1]];
      assert (a + b)[..|a + b| - 1] == a + b';
      CompletedGamesAppend(a, b', today);
    }
  }

  // ---------------------------------------------------------------------
  // Melting and classification (lines 86-119)
  // ---------------------------------------------------------------------

  /** The `variable` column of the melted frame: the score column a row came from. */
  datatype Side = AwayScore | HomeScore

  /** One row of `long_scores` once `away_team`/`home_team` are dropped (line 119). */
  datatype TeamGame = TeamGame(
    season: int,
    team: string,
    side: Side,
    result: Option<int>,
    isWin: nat,
    isLoss: nat,
    isTie: nat)

  /** Lines 86-100: the melted row for one side of `g`, its flags zeroed.
      Line 92 takes the home team for `home_score` and the away team otherwise. */
  function MeltRow(g: Game, side: Side): TeamGame {
    TeamGame(g.season, if side == HomeScore then g.homeTeam else g.awayTeam, side, g.result, 0, 0, 0)
  }

  /** The mask of lines 103-105. */
  predicate WinFor(side: Side, result: Option<int>) {
    result.Some? && ((side == HomeScore && result.value > 0) || (side == AwayScore && result.value < 0))
  }

  /** The mask of lines 110-112. */
  predicate LossFor(side: Side, result: Option<int>) {
    result.Some? && ((side == HomeScore && result.value < 0) || (side == AwayScore && result.value > 0))
  }

  /** The mask of line 117. */
  predicate TieFor(result: Option<int>) {
    result.Some? && result.value == 0
  }

  /** The row for one side of `g` once the three `.loc` assignments have run. */
  function Outcome(g: Game, side: Side): TeamGame {
    MeltRow(g, side).(
      isWin := if WinFor(side, g.result) then 1 else 0,
      isLoss := if LossFor(side, g.result) then 1 else 0,
      isTie := if TieFor(g.result) then 1 else 0)
  }

  /** Row `j` of the melted frame before classification. */
  function MeltAt(games: seq<Game>, j: int): TeamGame
    requires 0 <= j < 2 * |games|
  {
    if j < |games| then MeltRow(games[j], AwayScore) else MeltRow(games[j - |games|], HomeScore)
  }

  function WinFlag(r: TeamGame): nat {
    if WinFor(r.side, r.result) then 1 else 0
  }

  function LossFlag(r: TeamGame): nat {
    if LossFor(r.side, r.result) then 1 else 0
  }

  function TieFlag(r: TeamGame): nat {
    if TieFor(r.result) then 1 else 0
  }

  /** Row `j` of the melted frame after classification. */
  function OutcomeAt(games: seq<Game>, j: int): (r: TeamGame)
    requires 0 <= j < 2 * |games|
    ensures r == if j < |games| then Outcome(games[j], AwayScore) else Outcome(games[j - |games|], HomeScore)
  {
    var m := MeltAt(games, j);
    m.(isWin := WinFlag(m), isLoss := LossFlag(m), isTie := TieFlag(m))
  }

  /** The classified rows of one score column, one per game, in game order. */
  function SideRows(games: seq<Game>, side: Side): seq<TeamGame> {
    if games == [] then []
    else SideRows(games[..|games| - 1], side) + [Outcome(games[|games| - 1], side)]
  }

  /** `long_scores` after line 119: `pd.melt` stacks the `away_score` rows of
      all games above their `home_score` rows. */
  function LongRows(games: seq<Game>): seq<TeamGame> {
    SideRows(games, AwayScore) + SideRows(games, HomeScore)
  }

  lemma {:induction false} SideRowsIndex(games: seq<Game>, side: Side)
    ensures |SideRows(games, side)| == |games|
    ensures forall i :: 0 <= i < |games| ==> SideRows(games, side)[i] == Outcome(games[i], side)
    decreases |games|
  {
    if games != [] {
      SideRowsIndex(games[..|games| - 1], side);
    }
  }

  /** `pd.melt` stacks the `away_score` rows of all games above their `home_score` rows. */
  lemma LongRowsIndex(games: seq<Game>)
    ensures |LongRows(games)| == 2 * |games|
    ensures forall i :: 0 <= i < |games| ==> LongRows(games)[i] == Outcome(games[i], AwayScore)
    ensures forall i :: |games| <= i < 2 * |games| ==> LongRows(games)[i] == Outcome(games[i - |games|], HomeScore)
  {
    var away, home := SideRows(games, AwayScore), SideRows(games, HomeScore);
    SideRowsIndex(games, AwayScore);
    SideRowsIndex(games, HomeScore);
    assert forall i :: 0 <= i < |away| ==> LongRows(games)[i] == away[i];
    assert forall i :: |away| <= i < |away| + |home| ==> LongRows(games)[i] == home[i - |away|];
  }

  /** Each game yields exactly two rows: row `i` is attributed to the away
      team of game `i`, row `n + i` to its home team. */
  lemma MeltPairs(games: seq<Game>)
    ensures |LongRows(games)| == 2 * |games|
    ensures forall i :: 0 <= i < |games| ==>
      var away, home := LongRows(games)[i], LongRows(games)[|games| + i];
      away.team == games[i].awayTeam && away.side == AwayScore &&
      home.team == games[i].homeTeam && home.side == HomeScore &&
      away.season == games[i].season && home.season == games[i].season &&
      away.result == games[i].result && home.result == games[i].result
  {
    LongRowsIndex(games);
    forall i | 0 <= i < |games|
      ensures LongRows(games)[|games| + i] == Outcome(games[i], HomeScore)
    {
      assert (|games| + i) - |games| == i;
    }
  }

  /** Every long row is one side of one of the games. */
  lemma LongRowsFromGames(games: seq<Game>)
    ensures forall r :: r in LongRows(games) ==>
      exists g :: g in games && (r == Outcome(g, AwayScore) || r == Outcome(g, HomeScore))
  {
    LongRowsIndex(games);
    var rows := LongRows(games);
    forall r | r in rows
      ensures exists g :: g in games && (r == Outcome(g, AwayScore) || r == Outcome(g, HomeScore))
    {
      var i :| 0 <= i < |rows| && rows[i] == r;
      if i < |games| {
        assert games[i] in games;
      } else {
        assert games[i - |games|] in games;
      }
    }
  }

  /** The outcome of a game by the sign of its result: a positive result is a
      home win and an away loss, a negative one the reverse, zero a tie for
      both, and a missing result sets no flag. */
  lemma OutcomeBySign(g: Game)
    ensures g.result.Some? && g.result.value > 0 ==>
      Outcome(g, HomeScore).isWin == 1 && Outcome(g, AwayScore).isLoss == 1
    ensures g.result.Some? && g.result.value < 0 ==>
      Outcome(g, AwayScore).isWin == 1 && Outcome(g, HomeScore).isLoss == 1
    ensures g.result.Some? && g.result.value == 0 ==>
      Outcome(g, HomeScore).isTie == 1 && Outcome(g, AwayScore).isTie == 1
    ensures g.result.None? ==>
      forall side :: Outcome(g, side).isWin == Outcome(g, side).isLoss == Outcome(g, side).isTie == 0
  {
  }

  /** Every row carries at most one flag, and exactly one when the game has a result. */
  lemma OneFlag(games: seq<Game>)
    ensures forall r :: r in LongRows(games) ==>
      r.isWin + r.isLoss + r.isTie == if r.result.Some? then 1 else 0
    ensures forall r :: r in LongRows(games) ==> r.isWin <= 1 && r.isLoss <= 1 && r.isTie <= 1
  {
    LongRowsFromGames(games);
  }

  // ---------------------------------------------------------------------
  // Grouping and win percentage (lines 122-127)
  // ---------------------------------------------------------------------

  /** The three summed columns of one group. */
  datatype Counts = Counts(wins: nat, losses: nat, ties: nat)

  function KeyOf(r: TeamGame): Key {
    (r.season, r.team)
  }

  /** The group column of every row. */
  function KeysOf(rows: seq<TeamGame>): (r: seq<Key>)
    ensures |r| == |rows|
  {
    seq(|rows|, i requires 0 <= i < |rows| => KeyOf(rows[i]))
  }

  /** `c` with the flags of row `r` added. */
  function AddFlags(c: Counts, r: TeamGame): Counts {
    Counts(c.wins + r.isWin, c.losses + r.isLoss, c.ties + r.isTie)
  }

  /** `groupby(['season', 'team'])[...].sum()` for the group `k`. */
  function Tally(rows: seq<TeamGame>, k: Key): Counts {
    if rows == [] then Counts(0, 0, 0)
    else
      var c := Tally(rows[..|rows| - 1], k);
      var r := rows[|rows| - 1];
      if KeyOf(r) == k then AddFlags(c, r) else c
  }

  /** A group with no rows sums to zero. */
  lemma {:induction false} TallyAbsent(rows: seq<TeamGame>, k: Key)
    requires k !in KeysOf(rows)
    ensures Tally(rows, k) == Counts(0, 0, 0)
    decreases |rows|
  {
    if rows != [] {
      var p := rows[..|rows| - 1];
      assert forall i :: 0 <= i < |p| ==> KeysOf(p)[i] == KeysOf(rows)[i];
      assert KeyOf(rows[|rows| - 1]) == KeysOf(rows)[|rows| - 1];
      TallyAbsent(p, k);
    }
  }

  /** Adding a row adds its flags to its own group and to no other. */
  lemma TallySnocAt(rows: seq<TeamGame>, r: TeamGame, k: Key)
    ensures Tally(rows + [r], k) == if KeyOf(r) == k then AddFlags(Tally(rows, k), r) else Tally(rows, k)
  {
    assert (rows + [r])[..|rows|] == rows;
  }

  /** Lines 123-125: (w + t/2) / (w + l + t), NaN (`None`) when the
      denominator is 0, which happens for a team whose only games have no
      result. */
  function RawPct(w: nat, l: nat, t: nat): Option<real> {
    if w + l + t == 0 then None
    else Some((w as real + t as real / 2.0) / (w + l + t) as real)
  }

  lemma Ratio(n: real, d: real)
    requires 0.0 <= n <= d && d > 0.0
    ensures n / d * d == n
    ensures 0.0 <= n / d <= 1.0
    ensures n / d == 0.0 <==> n == 0.0
    ensures n / d == 1.0 <==> n == d
  {
    var q := n / d;
    assert q * d == n;
    assert q > 1.0 ==> q * d > d;
    assert q < 0.0 ==> q * d < 0.0;
  }

  /** The `pct` column after the `fillna(0.0)` of line 127. */
  function WinPct(w: nat, l: nat, t: nat): (p: real)
    ensures w + l + t > 0 ==> p * (w + l + t) as real == w as real + t as real / 2.0
    ensures 0.0 <= p <= 1.0
    ensures p == 0.0 <==> w == 0 && t == 0
    ensures p == 1.0 <==> w > 0 && l == 0 && t == 0
  {
    var raw := RawPct(w, l, t);
    if w + l + t == 0 then raw.GetOr(0.0)
    else
      Ratio(w as real + t as real / 2.0, (w + l + t) as real);
      raw.GetOr(0.0)
  }

  /** One row of the `standings` frame returned at line 129. */
  datatype StandingRow = StandingRow(
    season: int,
    team: string,
    isWin: nat,
    isLoss: nat,
    isTie: nat,
    pct: Option<real>)

  function RowFor(k: Key, c: Counts): StandingRow {
    StandingRow(k.0, k.1, c.wins, c.losses, c.ties, Some(WinPct(c.wins, c.losses, c.ties)))
  }

  /** The rows for the groups `keys`, in that order. */
  function Grouped(keys: seq<Key>, rows: seq<TeamGame>): (r: seq<StandingRow>)
    ensures |r| == |keys|
  {
    seq(|keys|, i requires 0 <= i < |keys| => RowFor(keys[i], Tally(rows, keys[i])))
  }

  /** `groupby(...).sum().reset_index()` plus the `pct` column: one row per
      (season, team) group, groups in ascending key order. */
  function StandingsOf(rows: seq<TeamGame>): seq<StandingRow> {
    Grouped(SortKeys(KeysOf(rows)), rows)
  }

  /** What `calculate_standings_from_scores(scores)` returns when run on day `today`. */
  function CalculatedStandings(scores: seq<Game>, today: int): seq<StandingRow> {
    StandingsOf(LongRows(CompletedGames(scores, today)))
  }

  // ---------------------------------------------------------------------
  // The computation, step by step
  // ---------------------------------------------------------------------

  /** Lines 77-80: the completed regular-season games, kept by a boolean mask. */
  method SelectCompleted(scores: seq<Game>, today: int) returns (games: seq<Game>)
    ensures games == CompletedGames(scores, today)
  {
    games := [];
    var i := 0;
    while i < |scores|
      invariant 0 <= i <= |scores|
      invariant games == CompletedGames(scores[..i], today)
    {
      assert scores[..i + 1] == scores[..i] + [scores[i]];
      if Completed(scores[i], today) {
        games := games + [scores[i]];
      }
      i := i + 1;
    }
    assert scores[..|scores|] == scores;
  }

  /** Lines 86-119: `long_scores`, one row per team per game, flagged. */
  method Melt(games: seq<Game>) returns (long: array<TeamGame>)
    ensures fresh(long)
    ensures long[..] == LongRows(games)
  {
    var n := |games|;
    long := new TeamGame[2 * n](j requires 0 <= j < 2 * n => MeltAt(games, j));
    forall j | 0 <= j < long.Length && WinFor(long[j].side, long[j].result) {
      long[j] := long[j].(isWin := 1);
    }
    assert forall j :: 0 <= j < 2 * n ==> long[j] == MeltAt(games, j).(isWin := WinFlag(MeltAt(games, j)));
    forall j | 0 <= j < long.Length && LossFor(long[j].side, long[j].result) {
      long[j] := long[j].(isLoss := 1);
    }
    assert forall j :: 0 <= j < 2 * n ==>
      long[j] == MeltAt(games, j).(isWin := WinFlag(MeltAt(games, j)), isLoss := LossFlag(MeltAt(games, j)));
    forall j | 0 <= j < long.Length && TieFor(long[j].result) {
      long[j] := long[j].(isTie := 1);
    }
    assert forall j :: 0 <= j < 2 * n ==> long[j] == OutcomeAt(games, j);
    LongRowsIndex(games);
  }

  /** Line 122: the flags summed per (season, team); `seen` lists each group once. */
  method SumGroups(long: array<TeamGame>) returns (counts: map<Key, Counts>, seen: seq<Key>)
    ensures forall k :: k in seen <==> k in KeysOf(long[..])
    ensures forall k :: k in counts <==> k in seen
    ensures forall k :: k in counts ==> counts[k] == Tally(long[..], k)
    ensures forall i, j :: 0 <= i < j < |seen| ==> seen[i] != seen[j]
  {
    counts := map[];
    seen := [];
    var j := 0;
    while j < long.Length
      invariant 0 <= j <= long.Length
      invariant forall k :: k in seen <==> k in KeysOf(long[..j])
      invariant forall k :: k in counts <==> k in seen
      invariant forall k :: k in counts ==> counts[k] == Tally(long[..j], k)
      invariant forall i, i' :: 0 <= i < i' < |seen| ==> seen[i] != seen[i']
    {
      var r := long[j];
      var k := KeyOf(r);
      assert long[..j + 1] == long[..j] + [r];
      forall k' ensures Tally(long[..j + 1], k') == if k == k' then AddFlags(Tally(long[..j], k'), r) else Tally(long[..j], k') {
        TallySnocAt(long[..j], r, k');
      }
      assert KeysOf(long[..j + 1]) == KeysOf(long[..j]) + [k];
      if k !in counts {
        TallyAbsent(long[..j], k);
        seen := seen + [k];
        counts := counts[k := Counts(0, 0, 0)];
      }
      counts := counts[k := AddFlags(counts[k], r)];
      j := j + 1;
    }
    assert long[..long.Length] == long[..];
  }

  method CalculateStandings(scores: seq<Game>, today: int) returns (standings: seq<StandingRow>)
    ensures standings == CalculatedStandings(scores, today)
  {
    var games := SelectCompleted(scores, today);
    // Lines 82-83.
    if |games| == 0 {
      return [];
    }
    var long := Melt(games);
    var counts, seen := SumGroups(long);
    // `reset_index()` lists the groups in ascending key order.
    var keys := SortKeys(seen);
    SortedUnique(keys, SortKeys(KeysOf(long[..])));
    var rows := new StandingRow[|keys|](m requires 0 <= m < |keys| =>
      var c := counts[keys[m]];
      StandingRow(keys[m].0, keys[m].1, c.wins, c.losses, c.ties, None));
    // Lines 123-127: the `pct` column, then `fillna(0.0)`.
    forall m | 0 <= m < rows.Length {
      rows[m] := rows[m].(pct := RawPct(rows[m].isWin, rows[m].isLoss, rows[m].isTie));
    }
    forall m | 0 <= m < rows.Length && rows[m].pct.None? {
      rows[m] := rows[m].(pct := Some(0.0));
    }
    standings := rows[..];
  }
}

/** Properties of `calculate_standings_from_scores`. */
module StandingsCalculationProperties {

  import opened Wrappers
  import opened KeyOrder
  import opened StandingsCalculation

  // ---------------------------------------------------------------------
  // Which games count
  // ---------------------------------------------------------------------

  /** A game that is not a completed regular-season game changes nobody's record. */
  lemma IgnoresIncomplete(a: seq<Game>, g: Game, b: seq<Game>, today: int)
    requires !Completed(g, today)
    ensures CalculatedStandings(a + [g] + b, today) == CalculatedStandings(a + b, today)
  {
    CompletedGamesAppend(a + [g], b, today);
    CompletedGamesAppend(a, [g], today);
    CompletedGamesAppend(a, b, today);
    assert CompletedGames([g], today) == [];
  }

  /** The result is empty exactly when no game qualifies. */
  lemma EmptyIffNoneCompleted(scores: seq<Game>, today: int)
    ensures CalculatedStandings(scores, today) == [] <==> forall g :: g in scores ==> !Completed(g, today)
  {
    var games := CompletedGames(scores, today);
    var rows := LongRows(games);
    SideRowsIndex(games, AwayScore);
    SideRowsIndex(games, HomeScore);
    if games != [] {
      assert games[0] in games;
      assert KeyOf(rows[0]) == KeysOf(rows)[0];
      assert KeysOf(rows)[0] in SortKeys(KeysOf(rows));
    }
  }

  // ---------------------------------------------------------------------
  // One row per group
  // ---------------------------------------------------------------------

  /** A (season, team) pair played in a completed game. */
  predicate PlayedIn(games: seq<Game>, k: Key) {
    exists g :: g in games && g.season == k.0 && (g.awayTeam == k.1 || g.homeTeam == k.1)
  }

  lemma KeyFromRow(games: seq<Game>, k: Key)
    requires k in KeysOf(LongRows(games))
    ensures PlayedIn(games, k)
  {
    var rows := LongRows(games);
    LongRowsIndex(games);
    var i :| 0 <= i < |rows| && KeysOf(rows)[i] == k;
    assert KeyOf(rows[i]) == k;
    if i < |games| {
      assert games[i] in games;
    } else {
      assert games[i - |games|] in games;
    }
  }

  lemma RowFromKey(games: seq<Game>, k: Key)
    requires PlayedIn(games, k)
    ensures k in KeysOf(LongRows(games))
  {
    var rows := LongRows(games);
    LongRowsIndex(games);
    var g :| g in games && g.season == k.0 && (g.awayTeam == k.1 || g.homeTeam == k.1);
    var i :| 0 <= i < |games| && games[i] == g;
    var j := if g.awayTeam == k.1 then i else |games| + i;
    assert KeyOf(rows[j]) == k;
    assert KeysOf(rows)[j] == k;
  }

  lemma KeysOfLongRows(games: seq<Game>)
    ensures forall k :: k in KeysOf(LongRows(games)) <==> PlayedIn(games, k)
  {
    forall k ensures k in KeysOf(LongRows(games)) <==> PlayedIn(games, k) {
      if k in KeysOf(LongRows(games)) {
        KeyFromRow(games, k);
      }
      if PlayedIn(games, k) {
        RowFromKey(games, k);
      }
    }
  }

  /** The rows come in strictly ascending (season, team) order, so no group
      appears twice, and there is a row for (s, t) exactly when team t played
      a completed regular-season game of season s. */
  lemma StandingsKeys(scores: seq<Game>, today: int)
    ensures var r := CalculatedStandings(scores, today);
      forall i, j :: 0 <= i < j < |r| ==> KeyLess((r[i].season, r[i].team), (r[j].season, r[j].team))
    ensures var r := CalculatedStandings(scores, today);
      forall k :: (exists i :: 0 <= i < |r| && (r[i].season, r[i].team) == k) <==>
        PlayedIn(CompletedGames(scores, today), k)
  {
    var games := CompletedGames(scores, today);
    var keys := SortKeys(KeysOf(LongRows(games)));
    var r := CalculatedStandings(scores, today);
    KeysOfLongRows(games);
    assert forall i :: 0 <= i < |r| ==> (r[i].season, r[i].team) == keys[i];
    forall k ensures (exists i :: 0 <= i < |r| && (r[i].season, r[i].team) == k) <==> PlayedIn(games, k) {
      if PlayedIn(games, k) {
        var i :| 0 <= i < |keys| && keys[i] == k;
        assert (r[i].season, r[i].team) == k;
      }
    }
  }

  // ---------------------------------------------------------------------
  // Each row against the schedule
  // ---------------------------------------------------------------------

  function Indicator(b: bool): nat {
    if b then 1 else 0
  }

  /** A team's record counted game by game: a home game with a positive
      result, or an away game with a negative one, is a win; the reverse a
      loss; a zero result a tie; a game without result nothing. */
  function Record(games: seq<Game>, k: Key): Counts {
    if games == [] then Counts(0, 0, 0)
    else
      var c := Record(games[..|games| - 1], k);
      var g := games[|games| - 1];
      var home := g.season == k.0 && g.homeTeam == k.1;
      var away := g.season == k.0 && g.awayTeam == k.1;
      var (won, lost, tied) := (
        Indicator(home && g.result.Some? && g.result.value > 0) + Indicator(away && g.result.Some? && g.result.value < 0),
        Indicator(home && g.result.Some? && g.result.value < 0) + Indicator(away && g.result.Some? && g.result.value > 0),
        Indicator(home && g.result == Some(0)) + Indicator(away && g.result == Some(0)));
      Counts(c.wins + won, c.losses + lost, c.ties + tied)
  }

  function Sum(a: Counts, b: Counts): Counts {
    Counts(a.wins + b.wins, a.losses + b.losses, a.ties + b.ties)
  }

  lemma {:induction false} TallyAppend(a: seq<TeamGame>, b: seq<TeamGame>, k: Key)
    ensures Tally(a + b, k) == Sum(Tally(a, k), Tally(b, k))
    decreases |b|
  {
    if b == [] {
      assert a + b == a;
    } else {
      var b' := b[..|b| - 1];
      assert a + b == (a + b') + [b[|b| - 1]];
      TallySnocAt(a + b', b[|b| - 1], k);
      TallySnocAt(b', b[|b| - 1], k);
      assert b == b' + [b[|b| - 1]];
      TallyAppend(a, b', k);
    }
  }

  lemma {:induction false} SidesRecord(games: seq<Game>, k: Key)
    ensures Sum(Tally(SideRows(games, AwayScore), k), Tally(SideRows(games, HomeScore), k)) == Record(games, k)
    decreases |games|
  {
    if games != [] {
      var p := games[..|games| - 1];
      var g := games[|games| - 1];
      SidesRecord(p, k);
      TallySnocAt(SideRows(p, AwayScore), Outcome(g, AwayScore), k);
      TallySnocAt(SideRows(p, HomeScore), Outcome(g, HomeScore), k);
    }
  }

  /** The long rows of a group sum to the group's game-by-game record. */
  lemma TallyRecord(games: seq<Game>, k: Key)
    ensures Tally(LongRows(games), k) == Record(games, k)
  {
    TallyAppend(SideRows(games, AwayScore), SideRows(games, HomeScore), k);
    SidesRecord(games, k);
  }

  /** Each row holds the team's game-by-game record in its season. */
  lemma StandingsRecord(scores: seq<Game>, today: int, i: int)
    requires 0 <= i < |CalculatedStandings(scores, today)|
    ensures var row := CalculatedStandings(scores, today)[i];
      Counts(row.isWin, row.isLoss, row.isTie) == Record(CompletedGames(scores, today), (row.season, row.team))
  {
    var games := CompletedGames(scores, today);
    var keys := SortKeys(KeysOf(LongRows(games)));
    TallyRecord(games, keys[i]);
  }

  /** Each row's `pct` is (w + t/2) / (w + l + t), or 0 when none of its
      games has a result; so it lies between 0 and 1. */
  lemma StandingsPct(scores: seq<Game>, today: int, i: int)
    requires 0 <= i < |CalculatedStandings(scores, today)|
    ensures var row := CalculatedStandings(scores, today)[i];
      var played := row.isWin + row.isLoss + row.isTie;
      row.pct.Some? && 0.0 <= row.pct.value <= 1.0 &&
      (played > 0 ==> row.pct.value * played as real == row.isWin as real + row.isTie as real / 2.0) &&
      (played == 0 ==> row.pct.value == 0.0)
  {
  }

  // ---------------------------------------------------------------------
  // Wins equal losses within a season
  // ---------------------------------------------------------------------

  /** The summed flags of the long rows of season `s`. */
  function FrameTotal(rows: seq<TeamGame>, s: int): Counts {
    if rows == [] then Counts(0, 0, 0)
    else
      var c := FrameTotal(rows[..|rows| - 1], s);
      var r := rows[|rows| - 1];
      if r.season == s then AddFlags(c, r) else c
  }

  /** The summed `is_win`, `is_loss` and `is_tie` of the standings rows of season `s`. */
  function SeasonTotal(rows: seq<StandingRow>, s: int): Counts {
    if rows == [] then Counts(0, 0, 0)
    else
      var c := SeasonTotal(rows[..|rows| - 1], s);
      var r := rows[|rows| - 1];
      if r.season == s then Sum(c, Counts(r.isWin, r.isLoss, r.isTie)) else c
  }

  predicate Distinct(keys: seq<Key>) {
    forall i, j :: 0 <= i < j < |keys| ==> keys[i] != keys[j]
  }

  lemma GroupedSnoc(keys: seq<Key>, k: Key, rows: seq<TeamGame>)
    ensures Grouped(keys + [k], rows) == Grouped(keys, rows) + [RowFor(k, Tally(rows, k))]
  {
  }

  lemma {:induction false} GroupedEmpty(keys: seq<Key>, s: int)
    ensures SeasonTotal(Grouped(keys, []), s) == Counts(0, 0, 0)
    decreases |keys|
  {
    if keys != [] {
      var p := keys[..|keys| - 1];
      assert keys == p + [keys[|keys| - 1]];
      GroupedSnoc(p, keys[|keys| - 1], []);
      GroupedEmpty(p, s);
      assert Grouped(keys, [])[..|keys| - 1] == Grouped(p, []);
    }
  }

  /** One more long row changes the season total of the groups `keys` by its
      flags exactly when its group is among them. */
  lemma {:induction false} GroupedStep(keys: seq<Key>, rows: seq<TeamGame>, r: TeamGame, s: int)
    requires Distinct(keys)
    ensures SeasonTotal(Grouped(keys, rows + [r]), s) ==
      if r.season == s && KeyOf(r) in keys then AddFlags(SeasonTotal(Grouped(keys, rows), s), r)
      else SeasonTotal(Grouped(keys, rows), s)
    decreases |keys|
  {
    if keys != [] {
      var p := keys[..|keys| - 1];
      var k := keys[|keys| - 1];
      assert keys == p + [k];
      assert Distinct(p);
      assert k !in p;
      GroupedStep(p, rows, r, s);
      var before := Tally(rows, k);
      var after := Tally(rows + [r], k);
      TallySnocAt(rows, r, k);
      GroupedSnoc(p, k, rows);
      GroupedSnoc(p, k, rows + [r]);
      var g1, g2 := Grouped(p, rows), Grouped(p, rows + [r]);
      assert Grouped(keys, rows) == g1 + [RowFor(k, before)];
      assert Grouped(keys, rows + [r]) == g2 + [RowFor(k, after)];
      SeasonTotalSnoc(g1, RowFor(k, before), s);
      SeasonTotalSnoc(g2, RowFor(k, after), s);
      assert KeyOf(r) in keys <==> KeyOf(r) in p || KeyOf(r) == k;
    }
  }

  lemma SeasonTotalSnoc(rows: seq<StandingRow>, x: StandingRow, s: int)
    ensures SeasonTotal(rows + [x], s) ==
      if x.season == s then Sum(SeasonTotal(rows, s), Counts(x.isWin, x.isLoss, x.isTie)) else SeasonTotal(rows, s)
  {
    assert (rows + [x])[..|rows|] == rows;
  }

  /** Summing the groups of a season adds up every long row of that season once. */
  lemma {:induction false} Regroup(keys: seq<Key>, rows: seq<TeamGame>, s: int)
    requires Distinct(keys)
    requires forall r :: r in rows ==> KeyOf(r) in keys
    ensures SeasonTotal(Grouped(keys, rows), s) == FrameTotal(rows, s)
    decreases |rows|
  {
    if rows == [] {
      GroupedEmpty(keys, s);
    } else {
      var p := rows[..|rows| - 1];
      var r := rows[|rows| - 1];
      assert rows == p + [r];
      assert r in rows;
      Regroup(keys, p, s);
      GroupedStep(keys, p, r, s);
    }
  }

  lemma {:induction false} FrameAppend(a: seq<TeamGame>, b: seq<TeamGame>, s: int)
    ensures FrameTotal(a + b, s) == Sum(FrameTotal(a, s), FrameTotal(b, s))
    decreases |b|
  {
    if b == [] {
      assert a + b == a;
    } else {
      var b' := b[..|b| - 1];
      assert a + b == (a + b') + [b[|b| - 1]];
      assert (a + b)[..|a + b| - 1] == a + b';
      FrameAppend(a, b', s);
    }
  }

  /** Every away win is a home loss of the same game and the other way round. */
  lemma {:induction false} SideBalance(games: seq<Game>, s: int)
    ensures FrameTotal(SideRows(games, AwayScore), s).wins == FrameTotal(SideRows(games, HomeScore), s).losses
    ensures FrameTotal(SideRows(games, AwayScore), s).losses == FrameTotal(SideRows(games, HomeScore), s).wins
    decreases |games|
  {
    if games != [] {
      var p := games[..|games| - 1];
      SideBalance(p, s);
      var away := SideRows(games, AwayScore);
      var home := SideRows(games, HomeScore);
      assert away[..|away| - 1] == SideRows(p, AwayScore);
      assert home[..|home| - 1] == SideRows(p, HomeScore);
    }
  }

  /** Within each season the wins of all teams add up to their losses. */
  lemma WinsEqualLosses(scores: seq<Game>, today: int, s: int)
    ensures SeasonTotal(CalculatedStandings(scores, today), s).wins ==
            SeasonTotal(CalculatedStandings(scores, today), s).losses
  {
    var games := CompletedGames(scores, today);
    var rows := LongRows(games);
    var keys := SortKeys(KeysOf(rows));
    KeyLessOrder();
    assert Distinct(keys);
    forall r | r in rows ensures KeyOf(r) in keys {
      var i :| 0 <= i < |rows| && rows[i] == r;
      assert KeysOf(rows)[i] == KeyOf(r);
    }
    Regroup(keys, rows, s);
    FrameAppend(SideRows(games, AwayScore), SideRows(games, HomeScore), s);
    SideBalance(games, s);
  }
}
