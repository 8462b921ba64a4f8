# Football league season engine, modelled in Dafny

The engine runs a four-team football season: Chelsea, Arsenal, Manchester
City and Liverpool over six weeks, two matches a week, from a hand-written
fixture table. Each week the matches of the new week are simulated from
the teams' strengths and both sides' records are updated. Each team's
strength is then nudged by its points per game and its place in the
table. A played match's score can be corrected afterwards: the stored
score is taken back out of both records and the new one applied.

The model is functional. A league is an immutable `League` value, and
every operation returns a new one. The random numbers a match consumes
come from an oracle, a function from a match's position in the match list
to the twelve draws the simulator uses (six per side). The one invariant
that ties the season together is the *ledger* (`Ledger.Consistent`):
every team's record equals the sum of what the played matches naming it
contribute. A fresh league satisfies it, and playing a week, playing out
the season and correcting a score all keep it. Its consequences are proved:

- the records stay well formed;
- a correction is undone by correcting back;
- entering the same correction twice is the same as entering it once.

Modules, one file each:

- `wrappers.dfy`: `Option` and `Result`.
- `stats.dfy`: team records, applying a result (`UpdateStats`) and retracting it (`ReverseMatchResult`).
- `records.dfy`: `Team`, `Match` and `League`, name lookup, and well-formedness of a league.
- `simulation.dfy`: the match simulator with its random draws passed in.
- `matchplay.dfy`: resolving one match (`PlayMatch`).
- `standings.dfy`: the league table (`GetTable`) and a team's place in it (`getTeamPosition`).
- `strength.dfy`: the strength adapter (`UpdateTeamStrength`).
- `ledger.dfy`: the ledger invariant, and recording or retracting one match against it.
- `fixtures.dfy`: `NewLeague` and `generateFixtures`.
- `season.dfy`: `PlayNextWeek`, `PlayAllMatches` and the strength pass run after each week.
- `season_end.dfy`: playing out a season to its end.
- `correction.dfy`: the score correction done by the `editMatchResult` handler.
- `scenarios.dfy`: worked corrections on the real starting league.
- `strength_loop.dfy`: the strength loop as the source writes it, against the corrected pass (see Findings).

## Model

| member | source | states |
|---|---|---|
| Stats.UpdateStats | main.go:72-88 | one more game; goals added; goal difference recomputed from the two goal totals; a win adds a won game and 3 points, a draw a drawn game and 1 point, a loss a lost game and no points; a well-formed record stays well-formed |
| Stats.ReverseMatchResult | main.go:600-615 | one game fewer; goals subtracted; goal difference recomputed; the outcome is classified from the given goals and its counter and points are taken back |
| Stats.ApplyThenRetract | main.go:600-615 | retracting the goals just applied restores the record exactly, when its goal difference agreed with its goals |
| Stats.RetractThenApply | main.go:72-88 | re-applying the goals just retracted restores the record, under the same condition |
| Stats.Classify | main.go:131-140 | Win exactly when goals for exceed goals against, Loss exactly when they fall short, Draw otherwise |
| Stats.ClassifyMirrors | main.go:131-140 | the two sides of one score always get mirrored outcomes (W/L, D/D, L/W) |
| Stats.Delta | main.go:72-88 | one result applied to an empty record is a well-formed record of one game |
| Stats.UpdateIsPlus | main.go:72-88 | applying a result adds that result's one-game record, component by component |
| Stats.ReverseIsMinus | main.go:600-615 | retracting a result subtracts the same one-game record |
| Records.FindTeam | main.go:247-254 | getTeamByName: the first team with the name, or nothing exactly when no team has it |
| Simulation.Goals | main.go:271-278 | a side never scores more goals than the trials it runs |
| Simulation.SimulateMatchResult | main.go:257-281 | each side scores between 0 and 6 goals |
| Simulation.GoalsMonotone | main.go:271-278 | if every draw that scores at one probability also scores at another, the second yields at least as many goals |
| Simulation.HomeTrialMonotone | main.go:262-272 | a stronger home side scores on every draw a weaker one scores on |
| Simulation.AwayTrialAntitone | main.go:262-275 | a stronger home side lowers the away side's scoring chance on each draw |
| Simulation.StrongerHomeScoresMore | main.go:257-281 | with the same draws, a stronger home side scores at least as many goals and concedes at most as many |
| MatchPlay.RecordScore | main.go:124-140 | the match stores the score and is marked played; each side gets the result classified from its own goals |
| MatchPlay.PlayMatch | main.go:116-141 | a played match is left as it is, along with both teams; otherwise the match becomes played with 0..6 goals a side, and exactly one side wins (the other losing) or both draw; names and strengths are untouched |
| Standings.Insert | main.go:228-238 | inserting a team into a sorted table gives a sorted table holding exactly one more team |
| Standings.GetTable | main.go:228-245 | the table is a permutation of the teams, sorted non-increasingly by (points, goal difference, goals for) |
| Standings.TableHasSameTeams | main.go:228-245 | a name is in the table exactly when it names a team of the league |
| Standings.SortedTableIsItself | main.go:228-238 | a list already in table order is its own table |
| Standings.TableIsIdempotent | main.go:228-238 | sorting the table again changes nothing |
| Standings.PositionIn | main.go:337-345 | the one-based place of the first team with the name, or 4 when no team has it |
| Standings.TeamPosition | main.go:337-345 | getTeamPosition sorts the league (338) and returns the team's one-based place: a name of the league gets a place in 1..n at which the table holds the first team with that name; any other name gets 4 |
| Standings.PositionFindsTeam | main.go:337-345 | a team of the league (names unique) gets a place in 1..n, and the table holds that team at that place |
| Standings.PositionRespectsRanking | main.go:337-345 | a team strictly ahead of another gets a smaller place |
| Standings.LeaderIsFirst | main.go:337-345 | a team strictly ahead of every other team is in first place |
| Strength.Band | main.go:296-304 | the performance term is -2..2: +2 exactly when points per game reach 2.5, +1 exactly when they lie in [2.0, 2.5), -2 exactly when they are at most 1.0, -1 exactly when in (1.0, 1.5], 0 exactly when in (1.5, 2.0) |
| Strength.PositionTerm | main.go:307-312 | the position term is +1 exactly for first place, -1 exactly for fourth place, 0 for every other place |
| Strength.BandMatchesRate | main.go:288-304 | the integer bands agree with the source's points-per-game chain (>= 2.5: +2, >= 2.0: +1, <= 1.0: -2, <= 1.5: -1, else 0), first match winning |
| Strength.BandMonotone | main.go:296-304 | more points from the same number of games never lowers the band |
| Strength.Change | main.go:293-312 | the change before clamping lies in -3..3 |
| Strength.UpdateTeamStrength | main.go:284-335 | no change when the team has played no game; otherwise only the strength changes; the result lies in 1..100 and in the baseline window; a change that keeps the strength in the window is applied in full, one that overshoots the window (baseline ± 15 within 1..100) lands exactly on the window's nearer edge; a team starting in its window never moves past strength + change |
| Strength.StrengthStaysInWindow | main.go:317-332 | a strength inside its baseline window stays inside, whatever the record and place |
| Strength.SameRosterKeepsWindow | main.go:317-332 | lists with the same names and strengths have the same teams inside their windows |
| Ledger.TotalWellFormed | main.go:72-88 | the record the matches give a team satisfies goal difference = for - against, points = 3 won + drawn and played = won + drawn + lost, and counts exactly its played matches |
| Ledger.TotalAfterReplace | main.go:554-588 | replacing one match changes a team's total by the new contribution minus the old one |
| Ledger.ConsistentWellFormed | main.go:72-88 | in a balanced season every record is well formed and its games played are its played matches |
| Ledger.UnplayedTotalIsZero | main.go:151-171 | a season with no match played gives every team the empty record |
| Ledger.Slot | main.go:247-254 | a team present by name is found at an index holding that name |
| Ledger.RecordAt | main.go:124-140 | storing a score changes only that match, making it played with the score, and keeps names and strengths |
| Ledger.RetractAt | main.go:557-565 | retracting keeps names and strengths |
| Ledger.RecordedSideGains | main.go:130-140 | after a score is recorded, each team's record is its old record plus what the recorded match contributes to it; other teams are unchanged |
| Ledger.RecordKeepsLedger | main.go:116-141 | recording a score in an unplayed match keeps the books balanced |
| Ledger.RetractedSideLoses | main.go:557-565 | after the stored score is retracted, each team's record is its old record minus what that match contributed |
| Ledger.RetractKeepsLedger | main.go:557-565 | retracting a played match balances the books of the season in which it is unplayed |
| Ledger.LedgerDetermines | main.go:554-588 | two lists of the same teams that both balance the same matches are equal |
| Ledger.SameRecordsKeepLedger | main.go:453-456 | changing strengths alone keeps the books balanced |
| Fixtures.FixturesOf | main.go:191-209 | two matches per table row, all unplayed |
| Fixtures.GenerateFixtures | main.go:173-210 | twelve matches; row k of the fixture table gives matches 2k (its first pairing) and 2k + 1 (its second), each with the row's week and sides, unplayed at 0-0 |
| Fixtures.FixturesOfRows | main.go:191-209 | expanding any table row by row puts row k's two pairings at positions 2k and 2k + 1 |
| Fixtures.OpeningFixture | main.go:183-199 | the season has 12 matches and opens with Chelsea at home to Arsenal in week 1 |
| Fixtures.FixturesShape | main.go:173-210 | 12 unplayed matches, all in weeks 1..6, exactly 2 in each of those weeks and none in any other |
| Fixtures.EachTeamOncePerWeek | main.go:183-188 | in every week each of the four teams appears in exactly one match |
| Fixtures.NoDuplicateFixture | main.go:183-188 | no two matches share a (week, home, away) triple |
| Fixtures.EveryPairingOnce | main.go:183-188 | every ordered pair of distinct teams meets exactly once as (home, away), and no other name appears |
| Fixtures.NewLeague | main.go:151-171 | a valid, balanced league at week 0 of 6 with 2 matches a week; four teams, each at its baseline strength with an empty record; the fixture list, all unplayed |
| Season.PlayMatchAt | main.go:444-450 | the match is played with 0..6 goals a side unless it already was, in which case nothing changes; every other match, the names and the strengths are kept; the books stay balanced |
| Season.PlayWeekFrom | main.go:444-451 | from a position on, exactly the unplayed matches of the week are played; every other match is untouched; the books stay balanced |
| Season.PlayWeek | main.go:444-451 | exactly the unplayed matches of the week get played, each with 0..6 goals a side; the week counter and the strengths are kept; the league stays valid and balanced |
| Season.AdjustAll | main.go:453-456 | only strengths change, and a strength inside its window stays inside |
| Season.AdjustAllAt | main.go:453-456 | each team is adjusted with its own place in the given table |
| Season.StrengthPass | main.go:453-456 | only strengths change, and a strength inside its window stays inside |
| Season.StrengthPassAll | main.go:453-456 | the pass keeps the list length and gives every team UpdateTeamStrength at its own place in the table of the list it starts from |
| Season.StrengthPassAt | main.go:453-456 | every team is adjusted exactly once, with its place in the table taken after the week's matches |
| Season.StrengthPassAsWritten | main.go:453-456 | the loop as the source runs it keeps the list length and the set of team names |
| Season.PlayNextWeek | main.go:436-458 | fails with SeasonComplete exactly when the current week has reached the season's length; otherwise the week goes up by one and exactly that week's unplayed matches are played; each team ends with the record those matches give it and the strength UpdateTeamStrength computes from that record at its place in the table taken after them; names and baselines are kept, and the league stays valid and balanced |
| Season.AdvancesTransitive | main.go:460-464 | carrying a season on twice carries it on from the first week to the last |
| Season.PlayAllMatches | main.go:460-464 | ends at the season's length (or where it was, if already there), having played exactly the unplayed matches of the weeks in between, and stays valid and balanced |
| SeasonEnd.SeasonPlaysOut | main.go:460-464 | when every unplayed match lies in a week still to come, every match ends played; scores already stored are kept and new ones are 0..6 |
| SeasonEnd.FreshSeasonPlaysOut | main.go:460-464 | a fresh season played out ends at week 6 with all twelve fixtures played, and every record equals what the matches give it |
| Correction.FindFrom | main.go:554-555 | the first match at or after a position with the week and the two sides, or nothing exactly when there is none |
| Correction.FindMatch | main.go:554-555 | the first match with this week, home side and away side, or nothing exactly when there is none |
| Correction.FindMatchSameFixtures | main.go:554-555 | the search looks only at week and sides, so rescoring matches does not move it |
| Correction.Reopen | main.go:557-565 | a played match's stored score is taken out of both records and the match reopened; an unplayed match changes nothing; the books stay balanced |
| Correction.Rescore | main.go:557-588 | only that match changes, taking the new score as played; names and strengths are kept; the books stay balanced |
| Correction.EditMatchResult | main.go:554-597 | fails with MatchNotFound exactly when no match has the week and sides; otherwise only the found match and the records change, the week counter and strengths are untouched, and the books stay balanced |
| Correction.RescoreNetEffect | main.go:557-588 | each record loses what the old score contributed and gains what the new one contributes |
| Correction.RescoreDetermined | main.go:557-588 | in a balanced season the rescore is the unique balanced list of the same teams |
| Correction.RescoreTwice | main.go:557-588 | rescoring with the score a match already holds as played changes nothing |
| Correction.RescoreBack | main.go:557-588 | rescoring a played match and then rescoring it with its old score restores the season |
| Correction.EditIsRescore | main.go:554-588 | a correction is the rescore of the match the search finds |
| Correction.EditNetEffect | main.go:554-588 | each side's record is its record before the match with only the new score applied; every other team is left exactly as it was |
| Correction.EditOfRescore | main.go:554-588 | in a balanced league, a correction whose found match is already played with the given score leaves the league as it is |
| Correction.EditIdempotent | main.go:554-597 | entering the same correction twice is the same as entering it once |
| Correction.EditUndo | main.go:554-597 | correcting a played match and then correcting it back to its stored score restores the league exactly |
| Scenarios.OpeningMatchFound | main.go:554-555 | in the fixture list, the search for Chelsea v Arsenal in week 1 finds the first match |
| Scenarios.EditOpening | main.go:554-588 | correcting the opening match keeps it findable and stores the new score; Chelsea and Arsenal lose the old score's contribution and gain the new one's |
| Scenarios.FirstEntry | main.go:554-588 | entering a score for the unplayed opening match adds just that result to both sides |
| Scenarios.SecondEntry | main.go:554-588 | correcting the opening match when both records hold only its old score leaves them holding only the new one |
| Scenarios.CorrectedOpeningScore | main.go:554-588 | in a fresh season, entering Chelsea v Arsenal (say 2-1) and then correcting it (say 0-3) leaves both sides with the record of the corrected score alone |
| StrengthLoop.OpeningWeekTable | main.go:228-238 | after Arsenal beat Chelsea 1-0 and City beat Liverpool 2-0, the table reads City, Arsenal, Chelsea, Liverpool |
| StrengthLoop.AsWrittenStep | main.go:453-456 | one turn of the source's loop sorts the list and adjusts the team read at that index, at its place in the sorted list |
| StrengthLoop.AsWrittenOnSorted | main.go:453-456 | over a list already in table order, the source's loop adjusts each remaining team once with its own place |
| StrengthLoop.AsWrittenAgreesWhenSorted | main.go:453-456 | when the list is already in table order, the source's loop and the corrected pass agree |
| StrengthLoop.AsWrittenSkipsLeader | main.go:453-456 | after the opening week the source's loop leaves City, the leader, at 82 though it has played, and takes Chelsea down twice, from 80 to 76 |
| StrengthLoop.CorrectedPassAdjustsAll | main.go:453-456 | after the opening week the corrected pass gives Chelsea 78, Arsenal 87, City 85 and Liverpool 87 |

## Left out

- HTTP handlers, JSON encoding, routing, `main`, the global league variable and `resetLeague`. `resetLeague` only builds a new `NewLeague()` value.
- The week path parameter of the correction handler and its parse error. The correction takes the week as an integer.
- `PredictChampionship` and its handler: floating-point scoring, normalisation and map iteration.
- `Match.Result` and the result strings. They are display text that nothing reads back.
- The getters (`GetName`, `GetTeams`, …) and the interfaces. They only expose fields.
- Random seeding and `rand.Float64`. Each draw is taken from an oracle as a multiple of 2^-53 in [0, 1). `rand.Float64` can also return finer values near 0, which the model does not draw. The source interleaves the home and away draws of a trial. The model gives each side its own six draws, which is the same sequence relabelled.
- Floating-point rounding of the scoring probability `p * 0.4` and of points per game. Both are compared exactly over the rationals.
- The in-place reordering of the team list by `GetTable`. The source sorts `l.Teams` itself (main.go:230). Every call reorders the list: the strength loop through `getTeamPosition` (main.go:290, 338), `PredictChampionship` through `getTeamPosition` (main.go:382), the table and match handlers (main.go:471, 511, 525) and the correction handler's response (main.go:591). The order left behind decides the tie order in later weeks. In the model, neither the week's play nor a correction reorders the list, and every team keeps its index. `Season.StrengthPassAsWritten` models that reordering inside the strength loop only (see Findings).
- Ties in the table. `sort.Slice` is not stable, so its order among teams equal on points, goal difference and goals for is unspecified. `GetTable` is an insertion sort, and its contract claims only a sorted permutation.
- Result labels other than W, D and L in `UpdateStats`. No caller passes one.
- Validation of negative goals in a correction. The source accepts any integer goals (main.go:544-545, 567-568), and so does the model.
- 64-bit wrap-around. Goals, points, goal difference and the game counters are Go `int` in the source (main.go:74-76), 64 bits wide on the usual platforms, and wrap on overflow. A correction can store arbitrary integers, for example 9223372036854775807 home goals against -9223372036854775807 away goals. In the model these quantities are unbounded integers, so where the source would wrap, the model keeps the exact value, and the table's ordering (main.go:231-243) can then differ.
- A team name missing from the league, and a match of a team against itself. The source would dereference a nil team for a missing name, and would run `UpdateStats` twice on the same team for a self-match. `Records.Valid` requires both sides of every match to be distinct teams of the league, and also requires the team names to be unique (`Records.UniqueNames`). `Fixtures.NewLeague` establishes both, and every operation keeps them. The fixture table contains neither case.
- Stats.ApplyThenRetract: holds only when the record's goal difference equals goals for minus goals against. `UpdateStats` recomputes that field instead of adjusting it. Every record reached from `NewLeague` satisfies the condition.
- Season.StrengthPassAsWritten: its own contract states only that the length and the set of names are kept. Its behaviour is pinned down by the StrengthLoop lemmas.
- Standings.GetTable: no stability claim, because the source sorts with the unstable `sort.Slice` (main.go:230), and it sorts in place. The model claims only a sorted permutation.
- Strength.Band: the bands are tested in source order (main.go:296-304: >= 2.5, >= 2.0, <= 1.0, <= 1.5), so a rate of 1.0 or below takes -2 and the -1 band covers only (1.0, 1.5]. A test of <= 1.5 first would give -1 there instead.
- Season.PlayNextWeek: adjusts strengths with the corrected pass `Season.StrengthPass`, not with the loop as the source writes it. The loop as written is `Season.StrengthPassAsWritten` (see Findings).
- Season.PlayNextWeek: fails once the current week is at or past the season's length, as the `>=` test at main.go:437 does, not only when the two are equal.

## Findings

| source | as written | input that shows it | evidently intended | confidence | as-written member | corrected member |
|---|---|---|---|---|---|---|
| main.go:453-456 | `for _, team := range l.Teams` reads the list by index, while each `UpdateTeamStrength` call sorts that same list in place through `getTeamPosition`. Later turns therefore read the sorted order: a team can be adjusted twice and another never. | A fresh league after an opening week in which Arsenal beat Chelsea 1-0 and City beat Liverpool 2-0. Turn 1 adjusts Chelsea (80 to 78). Turns 2-4 walk the sorted list from its second place: Arsenal to 87, Chelsea again to 76, Liverpool to 87. City, the leader, stays at 82. | Every team is adjusted exactly once per week with its place in the week's table: Chelsea 78, Arsenal 87, City 85, Liverpool 87. | high, derived by proof; not executed | Season.StrengthPassAsWritten, StrengthLoop.AsWrittenSkipsLeader | Season.StrengthPass, StrengthLoop.CorrectedPassAdjustsAll |
