/**
 * Records of the two tables the standings engine reads and writes
 * (backend/models.py): `team_standings` and `team_realignment`.
 */
module Models {

  /** One row of `team_standings`: a team's record in one season. The four
      in-division fields are read by the standings service; the bookkeeping
      columns `id` and `last_updated` are not modelled. */
  datatype TeamStanding = TeamStanding(
    season: int,
    team: string,
    wins: int,
    losses: int,
    ties: int,
    winPct: real,
    inDivisionWins: int,
    inDivisionLosses: int,
    inDivisionTies: int,
    inDivisionWinPct: real)

  /** One row of `team_realignment`: a team's custom conference and division. */
  datatype TeamRealignment = TeamRealignment(
    team: string,
    conference: string,
    division: string,
    name: string)

  /** The unique constraint on `team_realignment.team`. */
  predicate UniqueTeams(rs: seq<TeamRealignment>) {
    forall i, j :: 0 <= i < j < |rs| ==> rs[i].team != rs[j].team
  }

  /** True when some row of `rs` is for `team` (the `.filter(team == ...).first()` query is non-empty). */
  predicate HasTeam(rs: seq<TeamRealignment>, team: string) {
    exists r :: r in rs && r.team == team
  }

  /** At most one `team_standings` row per (season, team). */
  predicate UniqueSeasonTeams(table: seq<TeamStanding>) {
    forall i, j :: 0 <= i < j < |table| ==>
      (table[i].season, table[i].team) != (table[j].season, table[j].team)
  }
}
