/**
 * backend/services/standings_service.py: the standings of one season read
 * from the `team_standings` table, grouped into the custom conferences and
 * divisions of `team_realignment`, each division ranked by win percentage
 * with the in-division win percentage as tie-break.
 */
module StandingsService {

  import opened Wrappers
  import opened Models
  import opened Ranking
  import SeasonOrder
  import Collections

  // ---------------------------------------------------------------------
  // Season selection (get_standings_from_db, get_available_seasons)
  // ---------------------------------------------------------------------

  /** The seasons that occur in the table. */
  function SeasonsIn(table: seq<TeamStanding>): set<int> {
    set r | r in table :: r.season
  }

  /** `query.filter(TeamStanding.season == season).all()`: the records of one
      season, in table order. */
  function OfSeason(table: seq<TeamStanding>, season: int): (r: seq<TeamStanding>)
    ensures forall x :: multiset(r)[x] == if x.season == season then multiset(table)[x] else 0
    ensures forall x :: x in r <==> x in table && x.season == season
  {
    if table == [] then []
    else
      assert table == [table[0]] + table[1..];
      (if table[0].season == season then [table[0]] else []) + OfSeason(table[1..], season)
  }

  /** `get_standings_from_db`: with a season, that season's records; without
      one, the records of the latest season in the table, and nothing when
      the table is empty. */
  function StandingsFromDb(table: seq<TeamStanding>, season: Option<int>): (r: seq<TeamStanding>)
    ensures forall x :: multiset(r)[x] <= multiset(table)[x]
    ensures season.Some? ==>
      forall x :: multiset(r)[x] == if x.season == season.value then multiset(table)[x] else 0
    ensures season.None? ==> forall x :: multiset(r)[x] == if NoneLater(table, x) then multiset(table)[x] else 0
    ensures season.Some? ==> forall x :: x in r <==> x in table && x.season == season.value
    ensures season.None? ==> forall x :: x in r <==> x in table && NoneLater(table, x)
    ensures season.None? && table == [] ==> r == []
  {
    match season
    case Some(s) => OfSeason(table, s)
    case None =>
      if table == [] then []
      else
        assert table[0].season in SeasonsIn(table);
        assert forall x :: x in table ==> x.season in SeasonsIn(table);
        var latest := SeasonOrder.Max(SeasonsIn(table));
        LatestRecords(table, latest);
        OfSeason(table, latest)
  }

  /** No record of `table` belongs to a season later than that of `x`. */
  predicate NoneLater(table: seq<TeamStanding>, x: TeamStanding) {
    forall y :: y in table ==> y.season <= x.season
  }

  /** The records of the latest season are, with their multiplicities, the
      records whose season no record of the table exceeds. */
  lemma LatestRecords(table: seq<TeamStanding>, latest: int)
    requires latest in SeasonsIn(table)
    requires forall y :: y in SeasonsIn(table) ==> y <= latest
    ensures forall x :: multiset(OfSeason(table, latest))[x] == if NoneLater(table, x) then multiset(table)[x] else 0
    ensures forall x :: x in OfSeason(table, latest) <==> x in table && NoneLater(table, x)
  {
    var r := OfSeason(table, latest);
    var w :| w in table && w.season == latest;
    forall x: TeamStanding | x in table ensures NoneLater(table, x) <==> x.season == latest {
      assert x.season in SeasonsIn(table);
      if NoneLater(table, x) {
        assert w.season <= x.season;
      }
      if x.season == latest {
        forall y | y in table ensures y.season <= x.season {
          assert y.season in SeasonsIn(table);
        }
      }
    }
  }

  /** `get_available_seasons`: every season in the table exactly once, latest first. */
  function AvailableSeasons(table: seq<TeamStanding>): (r: seq<int>)
    ensures SeasonOrder.StrictlyDescending(r)
    ensures forall s :: s in r <==> exists x :: x in table && x.season == s
  {
    SeasonOrder.Descending(SeasonsIn(table))
  }

  // ---------------------------------------------------------------------
  // Realignment map and grouping (get_standings, lines 85-126)
  // ---------------------------------------------------------------------

  /** `{r.team: {...} for r in realignments}`: a later row for a team
      replaces an earlier one, as in a Python dict comprehension. */
  function RealignmentMap(rs: seq<TeamRealignment>): (m: map<string, TeamRealignment>)
    ensures forall t :: t in m <==> HasTeam(rs, t)
    ensures forall t :: t in m ==> m[t] in rs && m[t].team == t
  {
    if rs == [] then map[]
    else
      var r := rs[|rs| - 1];
      assert rs == rs[..|rs| - 1] + [r];
      RealignmentMap(rs[..|rs| - 1])[r.team := r]
  }

  /** With the unique constraint on `team`, every row is the map's entry for its team. */
  lemma {:induction false} RealignmentMapUnique(rs: seq<TeamRealignment>)
    requires UniqueTeams(rs)
    ensures forall r :: r in rs ==> r.team in RealignmentMap(rs) && RealignmentMap(rs)[r.team] == r
  {
    if rs != [] {
      var n := |rs| - 1;
      var init := rs[..n];
      assert UniqueTeams(init);
      RealignmentMapUnique(init);
      forall r | r in rs ensures r.team in RealignmentMap(rs) && RealignmentMap(rs)[r.team] == r {
        assert HasTeam(rs, r.team);
        if r != rs[n] {
          var i :| 0 <= i < |rs| && rs[i] == r;
          assert i < n;
          assert init[i] == r;
        }
      }
    }
  }

  /** The entry appended for `s`: its record, and the team name from its realignment row. */
  function ToEntry(s: TeamStanding, r: TeamRealignment): Entry {
    Entry(s.team, r.name, s.wins, s.losses, s.ties, s.winPct,
          s.inDivisionWins, s.inDivisionLosses, s.inDivisionTies, s.inDivisionWinPct, s.season)
  }

  /** `s` has a realignment row that places it in conference `c`, division `d`. */
  predicate Placed(s: TeamStanding, rmap: map<string, TeamRealignment>, c: string, d: string) {
    s.team in rmap && rmap[s.team].conference == c && rmap[s.team].division == d
  }

  /** The entries appended to `result[c][d]`, in the order of `list`. */
  function Members(list: seq<TeamStanding>, rmap: map<string, TeamRealignment>, c: string, d: string): seq<Entry> {
    if list == [] then []
    else
      var s := list[|list| - 1];
      Members(list[..|list| - 1], rmap, c, d) + (if Placed(s, rmap, c, d) then [ToEntry(s, rmap[s.team])] else [])
  }

  /** The conferences that some mapped standing of `list` creates. */
  function Conferences(list: seq<TeamStanding>, rmap: map<string, TeamRealignment>): set<string> {
    set s | s in list && s.team in rmap :: rmap[s.team].conference
  }

  /** The divisions of conference `c` that some mapped standing of `list` creates. */
  function Divisions(list: seq<TeamStanding>, rmap: map<string, TeamRealignment>, c: string): set<string> {
    set s | s in list && s.team in rmap && rmap[s.team].conference == c :: rmap[s.team].division
  }

  type DivisionTables = map<string, map<string, seq<Entry>>>

  /** `t` has a conference key exactly for each conference a mapped standing
      names, and under it a division key exactly for that conference's divisions. */
  ghost predicate KeysMatch(t: DivisionTables, list: seq<TeamStanding>, rmap: map<string, TeamRealignment>) {
    && (forall c :: c in t <==> c in Conferences(list, rmap))
    && (forall c :: c in t ==> forall d :: d in t[c] <==> d in Divisions(list, rmap, c))
  }

  /** `t` is what `get_standings` returns for `list`: its keys, and each
      division's entries in ranked order. */
  ghost predicate IsStandings(t: DivisionTables, list: seq<TeamStanding>, rmap: map<string, TeamRealignment>) {
    && KeysMatch(t, list, rmap)
    && forall c, d :: c in t && d in t[c] ==> t[c][d] == SortDescending(Members(list, rmap, c, d))
  }

  /** `t` is the grouping of `list` before sorting: its keys, and each
      division's entries in list order. */
  ghost predicate IsGrouping(t: DivisionTables, list: seq<TeamStanding>, rmap: map<string, TeamRealignment>) {
    && KeysMatch(t, list, rmap)
    && forall c, d :: c in t && d in t[c] ==> t[c][d] == Members(list, rmap, c, d)
  }

  /** Appends `e` to division `d` of conference `c`, first creating the
      conference when it is not a key, then the division when it is not a key
      of the conference. */
  function Append(t: DivisionTables, c: string, d: string, e: Entry): DivisionTables {
    var divisions := if c in t then t[c] else map[];
    var entries := if d in divisions then divisions[d] else [];
    t[c := divisions[d := entries + [e]]]
  }

  /** A division's member list is non-empty exactly when some standing of
      the list is placed in it; then its conference and division are keys. */
  lemma {:induction false} MembersNonEmpty(list: seq<TeamStanding>, rmap: map<string, TeamRealignment>, c: string, d: string)
    ensures Members(list, rmap, c, d) != [] <==> exists s :: s in list && Placed(s, rmap, c, d)
    ensures Members(list, rmap, c, d) != [] <==> d in Divisions(list, rmap, c)
    ensures d in Divisions(list, rmap, c) ==> c in Conferences(list, rmap)
  {
    if list != [] {
      var n := |list| - 1;
      MembersNonEmpty(list[..n], rmap, c, d);
      assert list == list[..n] + [list[n]];
      assert forall s :: s in list <==> s in list[..n] || s == list[n];
    }
  }

  lemma MembersStep(list: seq<TeamStanding>, rmap: map<string, TeamRealignment>, i: int, c: string, d: string)
    requires 0 <= i < |list|
    ensures Members(list[..i + 1], rmap, c, d)
         == Members(list[..i], rmap, c, d) + (if Placed(list[i], rmap, c, d) then [ToEntry(list[i], rmap[list[i].team])] else [])
  {
    assert list[..i + 1][..i] == list[..i];
  }

  lemma KeysStep(list: seq<TeamStanding>, rmap: map<string, TeamRealignment>, i: int)
    requires 0 <= i < |list|
    ensures var s := list[i];
      && Conferences(list[..i + 1], rmap) == Conferences(list[..i], rmap) + (if s.team in rmap then {rmap[s.team].conference} else {})
      && forall c :: Divisions(list[..i + 1], rmap, c) == Divisions(list[..i], rmap, c)
           + (if s.team in rmap && rmap[s.team].conference == c then {rmap[s.team].division} else {})
  {
    assert list[..i + 1] == list[..i] + [list[i]];
    assert forall x :: x in list[..i + 1] <==> x in list[..i] || x == list[i];
  }

  /** An iteration for a mapped standing keeps the grouping invariant. */
  lemma GroupStepMapped(t: DivisionTables, list: seq<TeamStanding>, rmap: map<string, TeamRealignment>, i: int)
    requires 0 <= i < |list| && list[i].team in rmap
    requires IsGrouping(t, list[..i], rmap)
    ensures var a := rmap[list[i].team];
      IsGrouping(Append(t, a.conference, a.division, ToEntry(list[i], a)), list[..i + 1], rmap)
  {
    var s, p, q := list[i], list[..i], list[..i + 1];
    var a := rmap[s.team];
    var u := Append(t, a.conference, a.division, ToEntry(s, a));
    KeysStep(list, rmap, i);
    assert forall c :: c in u <==> c in Conferences(q, rmap);
    forall c | c in u ensures forall d :: d in u[c] <==> d in Divisions(q, rmap, c) {
      if c == a.conference && c !in t {
        forall d ensures d !in Divisions(p, rmap, c) {
          MembersNonEmpty(p, rmap, c, d);
        }
      }
    }
    forall c, d | c in u && d in u[c] ensures u[c][d] == Members(q, rmap, c, d) {
      MembersStep(list, rmap, i, c, d);
      if c == a.conference && d == a.division {
        MembersNonEmpty(p, rmap, c, d);
      }
    }
  }

  /** An iteration for an unmapped standing changes nothing. */
  lemma GroupStepUnmapped(t: DivisionTables, list: seq<TeamStanding>, rmap: map<string, TeamRealignment>, i: int)
    requires 0 <= i < |list| && list[i].team !in rmap
    requires IsGrouping(t, list[..i], rmap)
    ensures IsGrouping(t, list[..i + 1], rmap)
  {
    KeysStep(list, rmap, i);
    forall c, d | c in t && d in t[c] ensures t[c][d] == Members(list[..i + 1], rmap, c, d) {
      MembersStep(list, rmap, i, c, d);
    }
  }

  /** Every entry of a division list belongs to that division: its team is
      mapped there, its name is the realignment name, and it is the entry of
      a standing of the list. */
  lemma {:induction false} MembersPlaced(list: seq<TeamStanding>, rmap: map<string, TeamRealignment>, c: string, d: string)
    ensures forall e :: e in Members(list, rmap, c, d) ==>
      && e.team in rmap && rmap[e.team].conference == c && rmap[e.team].division == d
      && e.name == rmap[e.team].name
      && exists s :: s in list && Placed(s, rmap, c, d) && e == ToEntry(s, rmap[s.team])
  {
    if list != [] {
      var n := |list| - 1;
      MembersPlaced(list[..n], rmap, c, d);
      assert forall s :: s in list[..n] ==> s in list;
    }
  }

  /** A standing placed in (c, d) occurs in that division's list exactly as
      often as it occurs in the list of standings. */
  lemma {:induction false} MembersCount(list: seq<TeamStanding>, rmap: map<string, TeamRealignment>, c: string, d: string, s: TeamStanding)
    requires Placed(s, rmap, c, d)
    ensures multiset(Members(list, rmap, c, d))[ToEntry(s, rmap[s.team])] == multiset(list)[s]
  {
    if list != [] {
      var n := |list| - 1;
      MembersCount(list[..n], rmap, c, d, s);
      assert list == list[..n] + [list[n]];
    }
  }

  /** The grouping loop (lines 99-126). */
  method GroupByDivision(list: seq<TeamStanding>, rmap: map<string, TeamRealignment>) returns (result: DivisionTables)
    ensures KeysMatch(result, list, rmap)
    ensures forall c, d :: c in result && d in result[c] ==> result[c][d] == Members(list, rmap, c, d)
  {
    result := map[];
    for i := 0 to |list|
      invariant IsGrouping(result, list[..i], rmap)
    {
      var standing := list[i];
      if standing.team !in rmap {
        GroupStepUnmapped(result, list, rmap, i);
        continue;
      }
      GroupStepMapped(result, list, rmap, i);
      var realignment := rmap[standing.team];
      // a missing conference, then a missing division, is created before the append
      result := Append(result, realignment.conference, realignment.division, ToEntry(standing, realignment));
    }
    assert list[..|list|] == list;
  }

  /** The sorting loops (lines 129-134): every division list, in place. */
  method SortDivisions(grouped: DivisionTables) returns (result: DivisionTables)
    ensures result.Keys == grouped.Keys
    ensures forall c :: c in result ==> result[c].Keys == grouped[c].Keys
    ensures forall c, d :: c in result && d in result[c] ==> result[c][d] == SortDescending(grouped[c][d])
  {
    result := grouped;
    var todo := grouped.Keys;
    while todo != {}
      invariant todo <= grouped.Keys
      invariant result.Keys == grouped.Keys
      invariant forall c :: c in result ==> result[c].Keys == grouped[c].Keys
      invariant forall c :: c in todo ==> result[c] == grouped[c]
      invariant forall c, d :: c in result && c !in todo && d in result[c] ==> result[c][d] == SortDescending(grouped[c][d])
      decreases todo
    {
      Collections.NonEmpty(todo);
      var conference :| conference in todo;
      var divisions := result[conference];
      var pending := divisions.Keys;
      while pending != {}
        invariant pending <= divisions.Keys == grouped[conference].Keys
        invariant forall d :: d in pending ==> divisions[d] == grouped[conference][d]
        invariant forall d :: d in divisions && d !in pending ==> divisions[d] == SortDescending(grouped[conference][d])
        decreases pending
      {
        Collections.NonEmpty(pending);
        var division :| division in pending;
        divisions := divisions[division := SortDescending(divisions[division])];
        pending := pending - {division};
      }
      result := result[conference := divisions];
      todo := todo - {conference};
    }
  }

  /** `get_standings`: the standings of the selected season, grouped by custom
      conference and division and ranked within each division; `{}` when the
      season has no records. */
  method GetStandings(table: seq<TeamStanding>, realignments: seq<TeamRealignment>, season: Option<int>)
    returns (result: DivisionTables)
    ensures IsStandings(result, StandingsFromDb(table, season), RealignmentMap(realignments))
    ensures StandingsFromDb(table, season) == [] ==> result == map[]
  {
    var standingsList := StandingsFromDb(table, season);
    if standingsList == [] {
      return map[];
    }
    var realignmentMap := RealignmentMap(realignments);
    var grouped := GroupByDivision(standingsList, realignmentMap);
    result := SortDivisions(grouped);
  }

  // ---------------------------------------------------------------------
  // Properties of the returned standings
  // ---------------------------------------------------------------------

  /** Each mapped standing is in the division its realignment row names, as
      often as it occurs in the list (once, when the season has one record
      per team). */
  lemma StandingsPlacement(t: DivisionTables, list: seq<TeamStanding>, rmap: map<string, TeamRealignment>, s: TeamStanding)
    requires IsStandings(t, list, rmap)
    requires s in list && s.team in rmap
    ensures var a := rmap[s.team];
      && a.conference in t && a.division in t[a.conference]
      && multiset(t[a.conference][a.division])[ToEntry(s, a)] == multiset(list)[s]
  {
    var a := rmap[s.team];
    assert a.conference in Conferences(list, rmap);
    assert a.division in Divisions(list, rmap, a.conference);
    MembersCount(list, rmap, a.conference, a.division, s);
    SortRanked(Members(list, rmap, a.conference, a.division));
  }

  /** Nothing else is in a division: each entry is the entry of a standing of
      the list whose team is mapped to exactly that conference and division.
      So a standing of an unmapped team appears nowhere. */
  lemma StandingsEntries(t: DivisionTables, list: seq<TeamStanding>, rmap: map<string, TeamRealignment>, c: string, d: string, e: Entry)
    requires IsStandings(t, list, rmap)
    requires c in t && d in t[c] && e in t[c][d]
    ensures e.team in rmap && rmap[e.team].conference == c && rmap[e.team].division == d
    ensures exists s :: s in list && s.team in rmap && e == ToEntry(s, rmap[s.team])
  {
    SortRanked(Members(list, rmap, c, d));
    assert e in multiset(t[c][d]);
    assert e in Members(list, rmap, c, d);
    MembersPlaced(list, rmap, c, d);
  }

  /** No key without a team that created it: every conference has a
      division and every division list is non-empty. */
  lemma StandingsNonEmpty(t: DivisionTables, list: seq<TeamStanding>, rmap: map<string, TeamRealignment>)
    requires IsStandings(t, list, rmap)
    ensures forall c :: c in t ==> t[c] != map[]
    ensures forall c, d :: c in t && d in t[c] ==> t[c][d] != []
  {
    forall c | c in t ensures t[c] != map[] {
      var s :| s in list && s.team in rmap && rmap[s.team].conference == c;
      assert rmap[s.team].division in Divisions(list, rmap, c);
    }
    forall c, d | c in t && d in t[c] ensures t[c][d] != [] {
      MembersNonEmpty(list, rmap, c, d);
      SortRanked(Members(list, rmap, c, d));
    }
  }

  /** Each division list is ranked by (win_pct, in_division_win_pct),
      highest first, is a permutation of the entries appended to it, and
      keeps the append order among entries with equal keys. */
  lemma StandingsRanked(t: DivisionTables, list: seq<TeamStanding>, rmap: map<string, TeamRealignment>, c: string, d: string)
    requires IsStandings(t, list, rmap)
    requires c in t && d in t[c]
    ensures Ranked(t[c][d])
    ensures multiset(t[c][d]) == multiset(Members(list, rmap, c, d))
    ensures forall w, p :: WithKey(t[c][d], w, p) == WithKey(Members(list, rmap, c, d), w, p)
  {
    SortRanked(Members(list, rmap, c, d));
    forall w, p ensures WithKey(t[c][d], w, p) == WithKey(Members(list, rmap, c, d), w, p) {
      SortStable(Members(list, rmap, c, d), w, p);
    }
  }
}
