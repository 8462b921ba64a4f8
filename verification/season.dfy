/** The season controller: advancing one week (PlayNextWeek), playing out
    the season (PlayAllMatches), and the strength update run after each week. */
module Season {
  import opened Wrappers
  import opened Stats
  import opened Records
  import opened Simulation
  import opened MatchPlay
  import opened Standings
  import opened Strength
  import opened Ledger

  datatype SeasonError = SeasonComplete

  /** `after` is `before` with match j played if it was not, and every
      other match untouched. */
  predicate PlaysAt(before: seq<Match>, after: seq<Match>, j: int)
    requires 0 <= j < |before|
  {
    && |after| == |before|
    && (forall k :: 0 <= k < |before| && k != j ==> after[k] == before[k])
    && (before[j].played ==> after[j] == before[j])
    && (!before[j].played ==>
          after[j].played && SameFixture(before[j], after[j])
          && 0 <= after[j].homeGoals <= TrialsPerSide && 0 <= after[j].awayGoals <= TrialsPerSide)
  }

  /** Plays match j with the draws for its position, both sides looked up by name. */
  function PlayMatchAt(teams: seq<Team>, ms: seq<Match>, j: int, oracle: Oracle): (r: (seq<Team>, seq<Match>))
    requires 0 <= j < |ms| && Fielded(teams, ms[j])
    ensures SameRoster(teams, r.0) && SameFixtures(ms, r.1) && |r.1| == |ms| && PlaysAt(ms, r.1, j)
    ensures ms[j].played ==> r == (teams, ms)
    ensures !ms[j].played ==> r == RecordAt(teams, ms, j, r.1[j].homeGoals, r.1[j].awayGoals)
    ensures UniqueNames(teams) && Consistent(teams, ms) ==> Consistent(r.0, r.1)
  {
    var hi, ai := Slot(teams, ms[j].homeTeam), Slot(teams, ms[j].awayTeam);
    var s := PlayMatch(ms[j], teams[hi], teams[ai], oracle(j));
    ReplaceKeepsRoster(teams, hi, s.home);
    ReplaceKeepsRoster(teams[hi := s.home], ai, s.away);
    SameRosterTransitive(teams, teams[hi := s.home], teams[hi := s.home][ai := s.away]);
    assert ms[j].played ==> teams[hi := s.home][ai := s.away] == teams && ms[j := s.game] == ms;
    var r := (teams[hi := s.home][ai := s.away], ms[j := s.game]);
    assert UniqueNames(teams) && Consistent(teams, ms) ==> Consistent(r.0, r.1) by {
      if UniqueNames(teams) && Consistent(teams, ms) && !ms[j].played {
        RecordKeepsLedger(teams, ms, j, s.game.homeGoals, s.game.awayGoals);
      }
    }
    r
  }

  /** `after` is `before` with the unplayed matches of `week` from position
      i on played, and every other match untouched. */
  predicate PlaysRest(before: seq<Match>, after: seq<Match>, week: int, i: int)
  {
    && |after| == |before|
    && (forall k :: 0 <= k < |before| && (k < i || before[k].week != week || before[k].played) ==>
          after[k] == before[k])
    && (forall k :: 0 <= i <= k < |before| && before[k].week == week && !before[k].played ==>
          after[k].played && SameFixture(before[k], after[k])
          && 0 <= after[k].homeGoals <= TrialsPerSide && 0 <= after[k].awayGoals <= TrialsPerSide)
  }

  /** Playing match i and then the rest from i + 1 plays the rest from i. */
  lemma PlaysRestStep(a: seq<Match>, b: seq<Match>, c: seq<Match>, week: int, i: int)
    requires 0 <= i < |a|
    requires if a[i].week == week && !a[i].played then PlaysAt(a, b, i) else b == a
    requires PlaysRest(b, c, week, i + 1)
    ensures PlaysRest(a, c, week, i)
  {
  }

  /** Playing the rest from position 0 plays exactly the week. */
  lemma PlaysRestIsWeek(a: seq<Match>, b: seq<Match>, week: int)
    requires PlaysRest(a, b, week, 0)
    ensures PlaysWeeks(a, b, week - 1, week)
  {
  }

  /** Goes through the match list from position i on and plays every
      unplayed match of `week`; every other match is left as it is. */
  function PlayWeekFrom(teams: seq<Team>, ms: seq<Match>, week: int, oracle: Oracle, i: nat): (r: (seq<Team>, seq<Match>))
    requires i <= |ms| && AllFielded(teams, ms)
    ensures SameRoster(teams, r.0) && SameFixtures(ms, r.1)
    ensures PlaysRest(ms, r.1, week, i)
    ensures UniqueNames(teams) && Consistent(teams, ms) ==> Consistent(r.0, r.1)
    decreases |ms| - i
  {
    if i == |ms| then (teams, ms)
    else if ms[i].week == week && !ms[i].played then
      assert Fielded(teams, ms[i]);
      var (teams', ms') := PlayMatchAt(teams, ms, i, oracle);
      SameNamesKeepFielded(teams, ms, teams', ms');
      assert UniqueNames(teams) ==> UniqueNames(teams') by {
        if UniqueNames(teams) {
          SameNamesKeepUnique(teams, teams');
        }
      }
      var r := PlayWeekFrom(teams', ms', week, oracle, i + 1);
      SameRosterTransitive(teams, teams', r.0);
      SameFixturesTransitive(ms, ms', r.1);
      PlaysRestStep(ms, ms', r.1, week, i);
      r
    else
      var r := PlayWeekFrom(teams, ms, week, oracle, i + 1);
      PlaysRestStep(ms, ms, r.1, week, i);
      r
  }

  /** Each team of the list, in list order, with its strength updated for
      its place in `table`. */
  function AdjustAll(teams: seq<Team>, table: seq<Team>): (r: seq<Team>)
    ensures AdjustsStrengths(teams, r)
    decreases |teams|
  {
    if |teams| == 0 then []
    else
      var head := UpdateTeamStrength(teams[0], PositionIn(table, teams[0].name));
      var rest := AdjustAll(teams[1..], table);
      assert InWindow(teams[0]) ==> InWindow(head) by {
        if InWindow(teams[0]) {
          StrengthStaysInWindow(teams[0], PositionIn(table, teams[0].name));
        }
      }
      [head] + rest
  }

  /** Each team's strength updated once, with its place in one table of
      the week's standings; the list keeps its order. */
  function StrengthPass(teams: seq<Team>): (r: seq<Team>)
    ensures AdjustsStrengths(teams, r)
  {
    AdjustAll(teams, GetTable(teams))
  }

  /** AdjustAll updates the team at each index, and only with its own place. */
  lemma {:induction false} AdjustAllAt(teams: seq<Team>, table: seq<Team>, i: int)
    requires 0 <= i < |teams|
    ensures AdjustAll(teams, table)[i] == UpdateTeamStrength(teams[i], PositionIn(table, teams[i].name))
    decreases |teams|
  {
    if i > 0 {
      AdjustAllAt(teams[1..], table, i - 1);
    }
  }

  /** The pass gives every team the strength UpdateTeamStrength computes
      for its place in the standings taken before the pass. */
  lemma StrengthPassAt(teams: seq<Team>, i: int)
    requires 0 <= i < |teams|
    ensures StrengthPass(teams)[i] == UpdateTeamStrength(teams[i], TeamPosition(teams, teams[i].name))
  {
    AdjustAllAt(teams, GetTable(teams), i);
  }

  /** StrengthPassAt at every index. */
  lemma StrengthPassAll(teams: seq<Team>)
    ensures |StrengthPass(teams)| == |teams|
    ensures forall i :: 0 <= i < |teams| ==>
      StrengthPass(teams)[i] == UpdateTeamStrength(teams[i], TeamPosition(teams, teams[i].name))
  {
    forall i | 0 <= i < |teams|
      ensures StrengthPass(teams)[i] == UpdateTeamStrength(teams[i], TeamPosition(teams, teams[i].name))
    {
      StrengthPassAt(teams, i);
    }
  }

  /** The strength loop as the source runs it: it reads the team at index
      i of the list, and getTeamPosition sorts that very list in place
      before the team is adjusted, so later indices see the sorted order. */
  function StrengthPassAsWritten(teams: seq<Team>, i: nat): (r: seq<Team>)
    ensures |r| == |teams|
    ensures forall name :: HasTeam(r, name) <==> HasTeam(teams, name)
    decreases |teams| - i
  {
    if i >= |teams| then teams
    else
      var team := teams[i];
      if team.stats.played == 0 then StrengthPassAsWritten(teams, i + 1)
      else
        var table := GetTable(teams);
        TableHasSameTeams(teams, team.name);
        var p := PositionIn(table, team.name);
        var next := table[p - 1 := UpdateTeamStrength(table[p - 1], p)];
        TurnKeepsNames(teams, table, p, next);
        StrengthPassAsWritten(next, i + 1)
  }

  /** One turn of the loop as written sorts the list and adjusts one entry
      in place, so the list still names the same teams. */
  lemma TurnKeepsNames(teams: seq<Team>, table: seq<Team>, p: int, next: seq<Team>)
    requires table == GetTable(teams) && 1 <= p <= |table|
    requires next == table[p - 1 := UpdateTeamStrength(table[p - 1], p)]
    ensures forall name :: HasTeam(next, name) <==> HasTeam(teams, name)
  {
    forall name
      ensures HasTeam(next, name) <==> HasTeam(teams, name)
    {
      TableHasSameTeams(teams, name);
      RenamelessUpdate(table, p - 1, UpdateTeamStrength(table[p - 1], p), name);
    }
  }

  /** Replacing an entry by a team of the same name keeps the names. */
  lemma RenamelessUpdate(s: seq<Team>, k: int, x: Team, name: string)
    requires 0 <= k < |s| && x.name == s[k].name
    ensures HasTeam(s[k := x], name) <==> HasTeam(s, name)
  {
    var u := s[k := x];
    if HasTeam(s, name) {
      var i :| 0 <= i < |s| && s[i].name == name;
      assert u[i].name == name;
    }
    if HasTeam(u, name) {
      var i :| 0 <= i < |u| && u[i].name == name;
      assert s[i].name == name;
    }
  }

  /** `after` is `before` with the unplayed matches of the weeks after
      `from` up to `to` played, and every other match untouched. */
  predicate PlaysWeeks(before: seq<Match>, after: seq<Match>, from: int, to: int)
  {
    && |after| == |before|
    && (forall k :: 0 <= k < |before| && (before[k].played || before[k].week <= from || before[k].week > to) ==>
          after[k] == before[k])
    && (forall k :: 0 <= k < |before| && !before[k].played && from < before[k].week <= to ==>
          after[k].played && SameFixture(before[k], after[k])
          && 0 <= after[k].homeGoals <= TrialsPerSide && 0 <= after[k].awayGoals <= TrialsPerSide)
  }

  /** Playing the weeks up to `mid` and then those up to `to` plays them all. */
  lemma PlaysWeeksCompose(a: seq<Match>, b: seq<Match>, c: seq<Match>, from: int, mid: int, to: int)
    requires from <= mid <= to
    requires PlaysWeeks(a, b, from, mid) && PlaysWeeks(b, c, mid, to)
    ensures PlaysWeeks(a, c, from, to)
  {
    forall k | 0 <= k < |a| && !a[k].played && from < a[k].week <= to
      ensures c[k].played && SameFixture(a[k], c[k])
        && 0 <= c[k].homeGoals <= TrialsPerSide && 0 <= c[k].awayGoals <= TrialsPerSide
    {
      if a[k].week <= mid {
        assert b[k].played;
      } else {
        assert b[k] == a[k];
      }
    }
  }

  /** `after` is `before` with only strengths changed, each kept in its
      window when it started there. */
  predicate AdjustsStrengths(before: seq<Team>, after: seq<Team>)
  {
    && SameRecords(before, after)
    && (forall i :: 0 <= i < |before| && InWindow(before[i]) ==> InWindow(after[i]))
  }

  /** The same teams in the same order with the same baselines; a strength
      inside its window stays inside it. */
  predicate KeepsTeams(before: seq<Team>, after: seq<Team>)
  {
    && SameNames(before, after)
    && (forall i :: 0 <= i < |before| ==> after[i].baseStrength == before[i].baseStrength)
    && (forall i :: 0 <= i < |before| && InWindow(before[i]) ==> InWindow(after[i]))
  }

  /** `after` is the season `before` carried on to `after`'s week: same
      length of season, same teams and fixtures, and exactly the unplayed
      matches of the weeks in between played. */
  predicate Advances(before: League, after: League)
  {
    && after.totalWeeks == before.totalWeeks
    && after.matchesPerWeek == before.matchesPerWeek
    && KeepsTeams(before.teams, after.teams)
    && SameFixtures(before.matches, after.matches)
    && PlaysWeeks(before.matches, after.matches, before.currentWeek, after.currentWeek)
  }

  lemma AdvancesTransitive(a: League, b: League, c: League)
    requires a.currentWeek <= b.currentWeek <= c.currentWeek
    requires Advances(a, b) && Advances(b, c)
    ensures Advances(a, c)
  {
    PlaysWeeksCompose(a.matches, b.matches, c.matches, a.currentWeek, b.currentWeek, c.currentWeek);
    SameNamesTransitive(a.teams, b.teams, c.teams);
    SameFixturesTransitive(a.matches, b.matches, c.matches);
  }

  /** Playing a week's matches and then adjusting strengths advances the
      season to that week. */
  lemma WeekAdvances(l: League, played: League, next: League)
    requires played == l.(teams := played.teams, matches := played.matches)
    requires SameRoster(l.teams, played.teams) && SameFixtures(l.matches, played.matches)
    requires PlaysWeeks(l.matches, played.matches, l.currentWeek, next.currentWeek)
    requires AdjustsStrengths(played.teams, next.teams)
    requires next == played.(teams := next.teams, currentWeek := next.currentWeek)
    ensures Advances(l, next)
  {
    SameRosterKeepsWindow(l.teams, played.teams);
    SameNamesTransitive(l.teams, played.teams, next.teams);
  }

  /** Plays the unplayed matches of `week`, in list order; week counter
      and strengths stay as they are. */
  function PlayWeek(l: League, week: int, oracle: Oracle): (r: League)
    requires Valid(l)
    ensures Valid(r)
    ensures r == l.(teams := r.teams, matches := r.matches)
    ensures SameRoster(l.teams, r.teams) && SameFixtures(l.matches, r.matches)
    ensures PlaysWeeks(l.matches, r.matches, week - 1, week)
    ensures Consistent(l.teams, l.matches) ==> Consistent(r.teams, r.matches)
  {
    var (teams, ms) := PlayWeekFrom(l.teams, l.matches, week, oracle, 0);
    PlaysRestIsWeek(l.matches, ms, week);
    SameNamesKeepFielded(l.teams, l.matches, teams, ms);
    SameNamesKeepUnique(l.teams, teams);
    l.(teams := teams, matches := ms)
  }

  /** Advances one week: fails with SeasonComplete once the last week is
      reached; otherwise plays the new week's unplayed matches and then
      adjusts every team's strength. */
  function PlayNextWeek(l: League, oracle: Oracle): (r: Result<League, SeasonError>)
    requires Valid(l)
    ensures r.Failure? <==> l.currentWeek >= l.totalWeeks
    ensures r.Success? ==> Valid(r.value) && r.value.currentWeek == l.currentWeek + 1
    ensures r.Success? ==> Advances(l, r.value)
    ensures r.Success? && Consistent(l.teams, l.matches) ==> Consistent(r.value.teams, r.value.matches)
    ensures r.Success? ==>
      var played := PlayWeek(l, l.currentWeek + 1, oracle).teams;
      forall i :: 0 <= i < |played| ==>
        r.value.teams[i] == UpdateTeamStrength(played[i], TeamPosition(played, played[i].name))
  {
    if l.currentWeek >= l.totalWeeks then Failure(SeasonComplete)
    else
      var week := l.currentWeek + 1;
      var played := PlayWeek(l, week, oracle);
      var next := played.(teams := StrengthPass(played.teams), currentWeek := week);
      StrengthPassAll(played.teams);
      SameNamesKeepFielded(played.teams, played.matches, next.teams, next.matches);
      SameNamesKeepUnique(played.teams, next.teams);
      WeekAdvances(l, played, next);
      SameRecordsKeepLedger(played.teams, next.teams, next.matches);
      Success(next)
  }

  /** Advances week after week until the season is complete. */
  function PlayAllMatches(l: League, oracle: Oracle): (r: League)
    requires Valid(l)
    ensures Valid(r)
    ensures r.currentWeek == (if l.currentWeek < l.totalWeeks then l.totalWeeks else l.currentWeek)
    ensures Advances(l, r)
    ensures Consistent(l.teams, l.matches) ==> Consistent(r.teams, r.matches)
    decreases l.totalWeeks - l.currentWeek
  {
    if l.currentWeek >= l.totalWeeks then
      SameNamesTransitive(l.teams, l.teams, l.teams);
      l
    else
      var next := PlayNextWeek(l, oracle).value;
      var r := PlayAllMatches(next, oracle);
      AdvancesTransitive(l, next, r);
      r
  }
}
