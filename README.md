# Realignment standings: a Dafny model

The realignment service keeps NFL team records in a custom league. The
league has two conferences ("People", "Animals") and eight divisions, laid
out in a static table of 32 teams. The service has two halves, and this
project models both:

- **Writing standings** (`backend/services/scraper_service.py`).
  - `calculate_standings_from_scores` keeps only the regular-season games
    played before today. It splits every game into an away row and a home
    row, and flags each row as a win, loss or tie from the sign of `result`
    (home score minus away score).
  - It sums the flags per (season, team) and adds a win percentage
    (w + t/2) / (w + l + t). When there is no counted game, the percentage
    is 0.
  - `scrape_season` and `scrape_all_seasons` upsert the resulting rows into
    `team_standings`.
  - `initialize_realignment` seeds `team_realignment` from
    `REALIGNMENT_DATA`, never overwriting a team that is already present.
- **Reading standings** (`backend/services/standings_service.py`).
  - `get_standings_from_db` selects one season: the one asked for, or else
    the latest season in the table.
  - `get_standings` joins those records with the realignment table. It
    groups them into a conference → division → list map and sorts each list
    by win percentage, with the in-division win percentage as tie-break,
    highest first.
  - `get_available_seasons` lists the seasons, latest first.

The model follows the code's own form:

- `calculate_standings_from_scores` is a method. It filters with a loop,
  melts the games into an array and runs the three `.loc` assignments as
  `forall` statements over that array. The `groupby` sum is a loop with a map
  accumulator. The group keys are put in pandas' ascending order, and the
  `pct` and `fillna` steps are two more array updates. The method is proved
  equal to a specification function, `CalculatedStandings`, and the
  properties are lemmas about that function.
- The two tables are `seq` fields of a `Database` class, in insertion order.
  A `.filter(...).first()` query is the first matching record.
- Sessions are made with `autoflush=False` (backend/database.py:17), so a
  query in a loop sees the table as it was before the loop. A row added by
  `db.add` earlier in the same loop is not found by later queries. A record
  that was found is the session's own object, so a second row with its key
  updates it again.
- The upsert loop and the seeding loop are methods on that class. They are
  proved equal to the functions `UpsertAll` and `Initialized`.
- `get_standings` is a method whose grouping loop builds nested maps. Its
  sort loops replace each division list with its stable descending sort.

Some modelling conventions:

- Percentages are exact `real`s.
- A pandas NaN is `None`; every comparison with it is false, as in pandas.
- Dates are day numbers, and "today" is a parameter.
- Strings compare code point by code point, as Python's `<` does on `str`.

backend/services has no conference aggregation, playoff seeding or division
display order, so none is modelled.

Files:

- `models.dfy`: the table records.
- `wrappers.dfy`: `Option`.
- `collections.dfy`, `season_order.dfy`, `key_order.dfy`: the orders used.
- `standings_calculation.dfy`: records from games, and their properties.
- `scraper_service.dfy`: seeding, upsert, the scrape entry points and the `Database` class.
- `ranking.dfy`: the division sort.
- `standings_service.dfy`: season selection, grouping and `get_standings`.

## Model

| member | source | states |
|---|---|---|
| ScraperService.RealignmentDataShape | backend/services/scraper_service.py:11-44 | the constant `RealignmentData`, the static realignment table written out entry by entry, has 32 entries whose team codes are pairwise distinct, as the unique constraint on `team_realignment.team` requires |
| ScraperService.FirstTeam | backend/services/scraper_service.py:51 | the team query finds a row exactly when a row with that code exists, and returns a row of the table with that code |
| ScraperService.Pending | backend/services/scraper_service.py:49-59 | the rows the loop adds with `db.add`: the entries of the data whose code the table before the loop lacks, in data order, a repeated absent code kept twice |
| ScraperService.Seeded | backend/services/scraper_service.py:49-60 | the table with the pending rows appended, as the commit writes it |
| ScraperService.Initialized | backend/services/scraper_service.py:47-60 | the seeded table when the pending rows have distinct codes, otherwise the table unchanged because the commit fails on the unique constraint |
| ScraperService.PendingMembers | backend/services/scraper_service.py:49-59 | an entry is pending exactly when it is in the data and its code is absent from the table before the loop |
| ScraperService.SeededExtends | backend/services/scraper_service.py:49-59 | seeding keeps every existing row in place, unchanged, and only appends entries of the data whose code was absent from the table |
| ScraperService.SeededCovers | backend/services/scraper_service.py:49-59 | after seeding, every team code of the data has a row |
| ScraperService.PendingUniqueIfDistinct | backend/services/scraper_service.py:49-60 | when no absent code occurs twice in the data, the pending rows have distinct codes |
| ScraperService.DistinctIfPendingUnique | backend/services/scraper_service.py:49-60 | when the pending rows have distinct codes, no absent code occurs twice in the data |
| ScraperService.PendingUnique | backend/services/scraper_service.py:49-60 | the commit succeeds exactly when no code absent from the table occurs twice in the data |
| ScraperService.SeededNoOp | backend/services/scraper_service.py:49-60 | a table that already holds every code of the data gets no pending rows and is left as it is |
| ScraperService.InitializedIdempotent | backend/services/scraper_service.py:47-60 | running the initialisation twice has the same effect as running it once |
| ScraperService.InitializedUnique | backend/services/scraper_service.py:47-60 | initialising a table with distinct team codes keeps the codes distinct, whether the commit succeeds or not |
| ScraperService.PendingFromEmpty | backend/services/scraper_service.py:49-59 | on an empty table every entry of the data is pending, in order |
| ScraperService.SeededFromEmpty | backend/services/scraper_service.py:11-60 | initialising an empty table commits and leaves it holding exactly the 32 entries of the realignment data |
| ScraperService.Database.SeedRealignments | backend/services/scraper_service.py:49-60 | the loop queries the table as it was before the loop; it reports a successful commit exactly when the pending rows have distinct codes, leaves the realignment table equal to `Initialized`, and leaves the standings table unchanged |
| ScraperService.Database.InitializeRealignment | backend/services/scraper_service.py:47-60 | the same, for the static realignment data |
| StandingsCalculation.Completed | backend/services/scraper_service.py:77-80 | the mask of the filter: the game was played strictly before today and its type is `REG` |
| StandingsCalculation.CompletedGames | backend/services/scraper_service.py:76-80 | the kept games are exactly the input games played strictly before today whose type is `REG` |
| StandingsCalculation.CompletedGamesAppend | backend/services/scraper_service.py:77-80 | the filter works game by game: filtering a concatenation concatenates the filtered parts |
| StandingsCalculation.SelectCompleted | backend/services/scraper_service.py:77-80 | the filtering loop returns exactly the completed regular-season games, in frame order |
| StandingsCalculationProperties.IgnoresIncomplete | backend/services/scraper_service.py:76-80 | inserting a game that is unplayed or not regular season anywhere in the schedule leaves the computed standings unchanged |
| StandingsCalculationProperties.EmptyIffNoneCompleted | backend/services/scraper_service.py:82-83 | the standings are empty exactly when no game is a completed regular-season game |
| StandingsCalculation.MeltRow | backend/services/scraper_service.py:86-100 | one side's row of a game after the melt and the team column: the season, the home team for `home_score` and the away team otherwise, the score column and the result, with the three flags zeroed |
| StandingsCalculation.SideRows | backend/services/scraper_service.py:86-119 | the classified rows of one score column, one per game, in game order |
| StandingsCalculation.LongRows | backend/services/scraper_service.py:86-119 | `long_scores` after classification: the `away_score` rows of all games stacked above their `home_score` rows |
| StandingsCalculation.OutcomeAt | backend/services/scraper_service.py:86-117 | a classified row of the melted frame is the away row of game j in the first half and the home row of game j - n in the second |
| StandingsCalculation.SideRowsIndex | backend/services/scraper_service.py:86-95 | the rows of one score column are one per game, in game order, attributed to that side |
| StandingsCalculation.LongRowsIndex | backend/services/scraper_service.py:86-95 | the melted frame has 2n rows: the away rows of all games, then their home rows |
| StandingsCalculation.MeltPairs | backend/services/scraper_service.py:86-95 | each game yields exactly two rows: row i is game i's away team with its season and result, row n+i its home team |
| StandingsCalculation.LongRowsFromGames | backend/services/scraper_service.py:86-95 | every melted row is the away or home row of one of the games |
| StandingsCalculation.Melt | backend/services/scraper_service.py:86-119 | the new array built by the melt, the zeroing and the three masked assignments holds exactly the classified rows |
| StandingsCalculation.WinFor | backend/services/scraper_service.py:103-105 | the win mask: a home row with a positive result or an away row with a negative one; a missing result matches no row |
| StandingsCalculation.LossFor | backend/services/scraper_service.py:110-112 | the loss mask: a home row with a negative result or an away row with a positive one; a missing result matches no row |
| StandingsCalculation.TieFor | backend/services/scraper_service.py:117 | the tie mask: a result of exactly 0; a missing result matches no row |
| StandingsCalculation.Outcome | backend/services/scraper_service.py:98-117 | one side's row of a game after the zeroing and the three masked assignments |
| StandingsCalculation.OutcomeBySign | backend/services/scraper_service.py:98-117 | a positive result is a home win and an away loss; a negative one the reverse; zero a tie for both; a missing result sets no flag |
| StandingsCalculation.OneFlag | backend/services/scraper_service.py:98-117 | every row carries at most one flag, each flag is 0 or 1, and exactly one is set when the game has a result |
| StandingsCalculation.KeysOf | backend/services/scraper_service.py:122 | the group column has as many keys as the frame has rows; what the keys are is stated by StandingsCalculationProperties.KeysOfLongRows and StandingsKeys |
| StandingsCalculation.TallyAbsent | backend/services/scraper_service.py:122 | a group with no rows sums to zero |
| StandingsCalculation.Tally | backend/services/scraper_service.py:122 | the `groupby` sum of one (season, team) group: the is_win, is_loss and is_tie flags of that group's rows added up |
| StandingsCalculation.TallySnocAt | backend/services/scraper_service.py:122 | one more row adds its flags to its own group's sums and changes no other group |
| StandingsCalculation.SumGroups | backend/services/scraper_service.py:122 | the summing loop returns each key of the frame once (the returned keys are pairwise distinct and exactly the frame's keys), and for each key the sums of its rows' flags |
| KeyOrder.StrLess | backend/services/scraper_service.py:122 | Python's `<` on team codes, by which `groupby` sorts them: code point by code point, a proper prefix first |
| KeyOrder.KeyLess | backend/services/scraper_service.py:122 | the order of the `groupby` keys: by season, then by team code |
| KeyOrder.StrLessIrreflexive | backend/services/scraper_service.py:122 | no team code sorts before itself |
| KeyOrder.StrLessTransitive | backend/services/scraper_service.py:122 | the team-code order is transitive |
| KeyOrder.StrLessTotal | backend/services/scraper_service.py:122 | of two different team codes, one sorts first |
| KeyOrder.KeyLessOrder | backend/services/scraper_service.py:122 | the (season, team) group order is a strict total order |
| KeyOrder.HeadBelowRest | backend/services/scraper_service.py:122 | in a sorted key list the first key is below all the others |
| KeyOrder.InsertKey | backend/services/scraper_service.py:122 | inserting a key adds exactly that key, with no duplicate, and keeps a sorted list sorted |
| KeyOrder.SortKeys | backend/services/scraper_service.py:122 | the group keys come out strictly ascending, each key of the frame exactly once |
| KeyOrder.SortedUnique | backend/services/scraper_service.py:122 | two strictly ascending key lists with the same members are equal, so the group order depends only on the set of keys |
| StandingsCalculation.Grouped | backend/services/scraper_service.py:122 | the grouped frame has as many rows as there are keys; its counts and pct are stated by StandingsCalculationProperties.StandingsRecord and StandingsPct |
| StandingsCalculation.StandingsOf | backend/services/scraper_service.py:122-127 | the grouped frame: one row per (season, team) group of the classified rows, groups in ascending key order, with the pct column |
| StandingsCalculation.RawPct | backend/services/scraper_service.py:123-125 | the pct column: (w + t/2) / (w + l + t), and NaN (`None`) when the denominator is 0 |
| StandingsCalculation.Ratio | backend/services/scraper_service.py:123-125 | a proof helper for the pct bounds, about no code of its own: a quotient n/d with 0 <= n <= d and d > 0 lies in [0, 1], multiplies back to n, and is 0 or 1 exactly when n is 0 or n is d |
| StandingsCalculation.WinPct | backend/services/scraper_service.py:123-127 | the stored percentage times the games counted is w + t/2; it lies in [0, 1]; it is 0 exactly when there are no wins or ties, and 1 exactly for a winning record without losses or ties |
| StandingsCalculation.CalculatedStandings | backend/services/scraper_service.py:63-129 | what the function returns: the grouped, summed and pct-completed rows of the melted completed regular-season games |
| StandingsCalculation.CalculateStandings | backend/services/scraper_service.py:63-129 | the whole computation returns exactly the specified standings, including the empty frame when nothing qualifies |
| StandingsCalculationProperties.KeyFromRow | backend/services/scraper_service.py:86-95 | a key of the melted frame is a team that played a completed game of that season |
| StandingsCalculationProperties.RowFromKey | backend/services/scraper_service.py:86-95 | a team that played a completed game of a season has a row with that key |
| StandingsCalculationProperties.KeysOfLongRows | backend/services/scraper_service.py:86-95 | the keys of the melted frame are exactly the (season, team) pairs that played a completed game |
| StandingsCalculationProperties.StandingsKeys | backend/services/scraper_service.py:122 | the rows are strictly ascending by (season, team), so each group appears once, and a row exists for a pair exactly when that team played a completed game that season |
| StandingsCalculationProperties.TallyAppend | backend/services/scraper_service.py:122 | a group's sums over two stacked frames are the sums of the two |
| StandingsCalculationProperties.SidesRecord | backend/services/scraper_service.py:86-117 | a group's sums over the away rows plus those over the home rows equal the team's record counted game by game |
| StandingsCalculationProperties.TallyRecord | backend/services/scraper_service.py:86-122 | a group's sums over the melted frame equal the team's game-by-game record |
| StandingsCalculationProperties.StandingsRecord | backend/services/scraper_service.py:102-122 | each row's wins, losses and ties are the team's record that season, counted game by game from the completed games |
| StandingsCalculationProperties.StandingsPct | backend/services/scraper_service.py:123-127 | each row's pct is present, lies in [0, 1], equals (w + t/2)/(w + l + t) when there are counted games, and is 0 when there are none |
| StandingsCalculationProperties.GroupedSnoc | backend/services/scraper_service.py:122 | one more group key adds one row, that group's sums, at the end |
| StandingsCalculationProperties.GroupedEmpty | backend/services/scraper_service.py:122 | groups over no rows sum to zero in every season |
| StandingsCalculationProperties.GroupedStep | backend/services/scraper_service.py:122 | one more row changes a season's total over distinct groups by its flags exactly when its group is among them and in that season |
| StandingsCalculationProperties.SeasonTotalSnoc | backend/services/scraper_service.py:122 | one more standings row adds its counts to its own season's total only |
| StandingsCalculationProperties.Regroup | backend/services/scraper_service.py:122 | summing the distinct groups of a season counts each of that season's rows exactly once |
| StandingsCalculationProperties.FrameAppend | backend/services/scraper_service.py:86-91 | a season's flag totals over two stacked frames are the sums of the two |
| StandingsCalculationProperties.SideBalance | backend/services/scraper_service.py:102-114 | in each season the away wins equal the home losses and the away losses equal the home wins |
| StandingsCalculationProperties.WinsEqualLosses | backend/services/scraper_service.py:102-122 | within every season the wins of all teams add up to their losses |
| ScraperService.Lookup | backend/services/scraper_service.py:160-163 | the record the `.first()` query returns, if any: the record at the position FindStanding finds |
| ScraperService.FindStanding | backend/services/scraper_service.py:160-163 | the (season, team) query returns the first record with that key, or none when no record has it |
| ScraperService.Updated | backend/services/scraper_service.py:166-169 | a found record with the row's wins, losses, ties and pct (a missing pct as 0); its key and in-division values kept |
| ScraperService.Inserted | backend/services/scraper_service.py:172-179 | a new record with the row's key, wins, losses, ties and pct (a missing pct as 0), and 0 for the in-division values |
| ScraperService.Upsert | backend/services/scraper_service.py:160-180 | one iteration: the query looks in the table as flushed before the loop; a found record is rewritten in place, otherwise a new record is appended |
| ScraperService.UpsertAll | backend/services/scraper_service.py:157-185 | the whole loop; no flushed record is removed or changes key |
| ScraperService.UpsertAllSplit | backend/services/scraper_service.py:157-185 | after the loop the table is the flushed records, each found one rewritten by the last row with its key, followed by one new record per row whose key had no flushed record, in row order |
| ScraperService.FindFirst | backend/services/scraper_service.py:160-163 | a position holding the key with no earlier match is what the query finds |
| ScraperService.FindExtended | backend/services/scraper_service.py:160-163 | appending a record of another key does not change the query's answer |
| ScraperService.FindAfter | backend/services/scraper_service.py:160-163 | records of other keys placed in front do not change the query's answer |
| ScraperService.LookupInserts | backend/services/scraper_service.py:172-180 | among the new records, the query finds the one inserted for the first row with that key, or none |
| ScraperService.NewRowsFirst | backend/services/scraper_service.py:160-180 | for a key with no flushed record, the first new row with that key is the first row with that key |
| ScraperService.UpsertAllEffect | backend/services/scraper_service.py:157-185 | after the loop, a key with a flushed record still finds it, with the same key and in-division values, holding the last row's counts and pct when a row has that key and unchanged otherwise; a key with no flushed record finds the record inserted for its first row, or none; the table grows by one record per new row |
| ScraperService.UpsertAllAdded | backend/services/scraper_service.py:172-180 | every record past the flushed ones carries the key of some row |
| ScraperService.UpsertAllUnique | backend/services/scraper_service.py:157-185 | with rows of distinct keys, the loop keeps the table free of duplicate (season, team) keys |
| ScraperService.RepeatedNewKey | backend/services/scraper_service.py:160-180 | two rows with the same key, absent before the loop, insert two records with that key |
| ScraperService.LastForDistinct | backend/services/scraper_service.py:158 | among rows with distinct keys, the last row for a row's key is that row |
| ScraperService.FirstForDistinct | backend/services/scraper_service.py:158 | among rows with distinct keys, the first row for a row's key is that row |
| ScraperService.LastForAbsent | backend/services/scraper_service.py:158 | no last row has a key that no row names |
| ScraperService.FirstForAbsent | backend/services/scraper_service.py:158 | no first row has a key that no row names |
| ScraperService.ScrapeEffect | backend/services/scraper_service.py:152-185 | after scraping, each computed row's (season, team) record holds that row's wins, losses, ties and pct, and every key no row names keeps its record or its absence |
| ScraperService.Database.UpsertRows | backend/services/scraper_service.py:157-185 | the loop leaves the standings table equal to the specified upsert of all rows, returns the number of rows, and leaves the realignment table alone |
| ScraperService.Database.ScrapeSeason | backend/services/scraper_service.py:132-185 | the table becomes the upsert of the computed standings and the count is their number; when no game qualifies, it returns 0 and the table is untouched |
| ScraperService.RowSeasons | backend/services/scraper_service.py:214 | `standings_df['season'].unique()` as a set: the seasons of the computed rows, before they are sorted and joined |
| ScraperService.SeasonOfRow | backend/services/scraper_service.py:214 | a season in the computed standings has a completed regular-season game |
| ScraperService.SeasonOfGame | backend/services/scraper_service.py:214 | the season of a completed regular-season game occurs in the computed standings |
| ScraperService.ScrapedSeasons | backend/services/scraper_service.py:210-214 | the seasons reported are exactly those with a completed regular-season game |
| ScraperService.Database.ScrapeAllSeasons | backend/services/scraper_service.py:192-260 | the returned dictionary is a `ScrapeResult` (`Scraped` for the success dictionary of lines 256-260, `Failed` for that of line 211); with no computed rows, it returns the "No standings data found" failure with 0 and leaves the table untouched; otherwise it reports the distinct seasons in ascending order and the row count, and upserts every row |
| Collections.NonEmpty | backend/services/standings_service.py:129-130 | a proof helper for iterating over the dictionary keys, about no code of its own: a non-empty set has an element to pick |
| SeasonOrder.MaxExists | backend/services/standings_service.py:32 | a non-empty set of seasons has a largest one |
| SeasonOrder.MinExists | backend/services/scraper_service.py:214 | a non-empty set of seasons has a smallest one |
| SeasonOrder.Max | backend/services/standings_service.py:32 | the latest season is in the set and no season in it is later |
| SeasonOrder.Min | backend/services/scraper_service.py:214 | the earliest season is in the set and no season in it is earlier |
| SeasonOrder.Descending | backend/services/standings_service.py:159-160 | the seasons listed once each, strictly descending, exactly the members of the set |
| SeasonOrder.Ascending | backend/services/scraper_service.py:214 | the seasons listed once each, strictly ascending, exactly the members of the set |
| StandingsService.OfSeason | backend/services/standings_service.py:28-29 | the season filter keeps exactly that season's records, with their multiplicities and nothing else |
| StandingsService.StandingsFromDb | backend/services/standings_service.py:28-54 | with a season, exactly that season's records, each as often as in the table; without one, exactly the records of the latest season, each as often as in the table; an empty table gives no records; never a record the table lacks |
| StandingsService.LatestRecords | backend/services/standings_service.py:31-38 | the records of the latest season are, with their multiplicities, the records no record of the table is later than |
| StandingsService.AvailableSeasons | backend/services/standings_service.py:159-160 | each season in the table exactly once, strictly descending |
| StandingsService.RealignmentMap | backend/services/standings_service.py:85-93 | the map has a key exactly for each team with a realignment row, and maps it to one of that team's rows |
| StandingsService.RealignmentMapUnique | backend/services/standings_service.py:85-93 | with distinct team codes, every realignment row is the map's entry for its team |
| StandingsService.Members | backend/services/standings_service.py:99-126 | the entries appended to one division's list: those of the standings mapped there, in list order |
| StandingsService.Append | backend/services/standings_service.py:108-126 | appending an entry to a division, first creating the conference and then the division when it is not a key |
| StandingsService.ToEntry | backend/services/standings_service.py:114-126 | the dictionary appended for a standing: its team, season and record columns, with the name taken from its realignment row |
| StandingsService.MembersNonEmpty | backend/services/standings_service.py:108-114 | a division key exists only when some standing was placed in it |
| StandingsService.MembersStep | backend/services/standings_service.py:99-126 | one more standing adds its entry to the end of its own division's list and changes no other list |
| StandingsService.KeysStep | backend/services/standings_service.py:99-113 | one more standing adds its conference and division keys when its team is mapped, and no key otherwise |
| StandingsService.GroupStepMapped | backend/services/standings_service.py:104-126 | an iteration for a mapped standing keeps the grouping invariant |
| StandingsService.GroupStepUnmapped | backend/services/standings_service.py:99-102 | an iteration for an unmapped standing changes nothing |
| StandingsService.MembersPlaced | backend/services/standings_service.py:104-126 | each entry of a division list is the entry of a standing mapped to exactly that conference and division, with the realignment name |
| StandingsService.MembersCount | backend/services/standings_service.py:104-126 | a placed standing occurs in its division's list as often as in the list of standings |
| StandingsService.GroupByDivision | backend/services/standings_service.py:96-126 | the grouping loop has a conference and division key exactly where a mapped standing lives, and each list holds, in input order, the entries of the standings placed there |
| StandingsService.SortDivisions | backend/services/standings_service.py:129-134 | the sort loops keep every key and replace each division list with its stable descending sort |
| StandingsService.KeysMatch | backend/services/standings_service.py:99-126 | the keys of the returned dictionary: a conference key exactly for each conference a mapped standing names, and under it a division key exactly for each of that conference's divisions a mapped standing names |
| StandingsService.IsStandings | backend/services/standings_service.py:99-136 | what `get_standings` returns for a list of standings: those keys, and each division's list the stable descending sort of the entries placed there |
| StandingsService.GetStandings | backend/services/standings_service.py:60-136 | the result is the grouped and ranked standings of the selected season, and is `{}` when that season has no records |
| StandingsService.StandingsPlacement | backend/services/standings_service.py:104-126 | each mapped standing is in the division its realignment row names, as often as it occurs in the standings |
| StandingsService.StandingsEntries | backend/services/standings_service.py:99-126 | every entry belongs to a mapped standing of that conference and division, so a standing of an unmapped team appears nowhere |
| StandingsService.StandingsNonEmpty | backend/services/standings_service.py:108-114 | every conference has a division and every division list is non-empty |
| StandingsService.StandingsRanked | backend/services/standings_service.py:128-134 | each division list is non-increasing in (win_pct, in_division_win_pct), is a permutation of the entries appended to it, and keeps their order among equal keys |
| Ranking.Ahead | backend/services/standings_service.py:131-134 | the sort key with `reverse=True`: one entry ranks ahead of another when its (win_pct, in_division_win_pct) is lexicographically larger |
| Ranking.Ranked | backend/services/standings_service.py:131-134 | a list in the order the sort produces: no entry ranks ahead of an earlier one |
| Ranking.Insert | backend/services/standings_service.py:131-134 | places an entry into a ranked list after every entry not behind it |
| Ranking.SortDescending | backend/services/standings_service.py:131-134 | the stable descending sort on (win_pct, in_division_win_pct), as insertion of each entry in input order |
| Ranking.WithKeyAppend | backend/services/standings_service.py:131-134 | the entries of one key in a concatenation are those of the two parts, in order |
| Ranking.WithKeyNone | backend/services/standings_service.py:131-134 | a list without entries of a key has none of them |
| Ranking.WithKeyMembers | backend/services/standings_service.py:131-134 | the entries of one key are exactly the list's entries having that key |
| Ranking.WithKeySingle | backend/services/standings_service.py:131-134 | a one-entry list yields that entry exactly when it has the key |
| Ranking.LeaderNotBehind | backend/services/standings_service.py:131-134 | in a ranked list nothing ranks ahead of the first entry |
| Ranking.ConsRanked | backend/services/standings_service.py:131-134 | an entry no member ranks ahead of may lead a ranked list |
| Ranking.InsertRanked | backend/services/standings_service.py:131-134 | inserting into a ranked list keeps it ranked and adds exactly that entry |
| Ranking.InsertStable | backend/services/standings_service.py:131-134 | an insertion places the entry after every earlier entry with the same key |
| Ranking.SortRanked | backend/services/standings_service.py:131-134 | the sort returns a ranked permutation of its input, of the same length |
| Ranking.SortStable | backend/services/standings_service.py:131-134 | the sort keeps input order among entries with equal keys |
| Ranking.SameLeader | backend/services/standings_service.py:131-134 | two ranked lists that agree on the order of every key class have the same first entry |
| Ranking.TailsAgree | backend/services/standings_service.py:131-134 | removing the same first entry from both keeps the key classes in agreement |
| Ranking.RankedUnique | backend/services/standings_service.py:131-134 | two ranked lists that agree on the order of every key class are equal |
| Ranking.SortUnique | backend/services/standings_service.py:131-134 | any ranked, stable rearrangement of the list, as Python's sort produces, is the model's sort |
| Ranking.RankedPrecedence | backend/services/standings_service.py:131-134 | in a ranked list a higher win_pct always comes first, whatever the in-division pct, and at equal win_pct a higher in-division pct comes first |

## Left out

- Sessions, `rollback`, `close` and the re-raise of exceptions are not modelled. The upsert commit cannot fail in the model, so the exception branch of `scrape_all_seasons` (lines 262-281) is not modelled either.
- The seeding commit at line 60 raises on a duplicate team code; ScraperService.Database.InitializeRealignment reports this as `committed == false` with the table unchanged, in place of the exception.
- Queries without an ORDER BY (backend/services/standings_service.py:38 and 85, backend/services/scraper_service.py:51 and 160-163) are assumed to return records in insertion order. `DATABASE_URL` can name any engine (backend/database.py:8), and SQL does not promise that order. The assumption decides which of two records with the same key `.first()` returns, and the order of equal-keyed entries after the stable sort.
- `ScrapeLog` writes, `datetime.utcnow`, `datetime.now().year` and the `last_updated` column are not modelled. They only record bookkeeping.
- `scrape_current_season` is not modelled. It is `scrape_season` on the latest schedule plus a log write.
- `nfl.load_schedules` fetches the schedule over the network. The schedule is a parameter instead, so the `season` argument of `scrape_season`, which only chooses what to fetch, does not appear.
- `pd.to_datetime` also rewrites the caller's `gameday` column, which the model does not capture. The model compares day numbers with a `today` parameter in place of `Timestamp.today()` and the string comparison.
- Floating-point rounding is not modelled: percentages are exact reals.
- ScraperService.Database.ScrapeAllSeasons: it returns the distinct seasons as an ascending sequence, not the comma-joined string `seasons_str`.
- ScraperService.Updated: the `pd.notna` fallbacks of the three counts are never taken, because the counts are sums of integers, so they are not modelled. The fallback of `pct` is modelled.
- ScraperService.Inserted: `TeamStanding` in backend/models.py has no in-division columns, so a newly inserted record gets 0 for them. The standings service reads them as plain fields.
- `TeamStanding` is meant to be unique per (season, team), but backend/models.py declares no such constraint. The model does not assume it.
- ScraperService.UpsertAllUnique: it requires the rows to have distinct keys. Without autoflush, two rows with the same new key insert two records (RepeatedNewKey). The rows computed by `calculate_standings_from_scores` do have distinct keys (StandingsKeys).
- Ranking.SortDescending: a `None` in-division percentage would make Python's sort raise `TypeError`. The model's percentages are always numbers, so it has no such error.
- The iteration order of Python dicts in the result of `get_standings` is not modelled: conferences and divisions are keyed maps.
- The FastAPI routes, the CLI and cron entry points, and backend/services/game_scores_service.py are not part of this model.
