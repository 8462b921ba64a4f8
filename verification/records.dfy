/** The season's records: teams, matches and the league that owns them,
    plus lookup of a team by name (getTeamByName). */
module Records {
  import opened Wrappers
  import opened Stats

  /** One participant: identity, current and baseline strength, record. */
  datatype Team = Team(name: string, strength: int, baseStrength: int, stats: TeamStats)

  /** One fixture. Goals are meaningful only once `played` is set; the
      display string `Result` of the source is not modelled. */
  datatype Match = Match(week: int, homeTeam: string, awayTeam: string,
                         homeGoals: int, awayGoals: int, played: bool)

  /** The whole season state. */
  datatype League = League(teams: seq<Team>, matches: seq<Match>,
                           currentWeek: int, totalWeeks: int, matchesPerWeek: int)

  predicate HasTeam(teams: seq<Team>, name: string)
  {
    exists i :: 0 <= i < |teams| && teams[i].name == name
  }

  predicate UniqueNames(teams: seq<Team>)
  {
    forall i, j :: 0 <= i < j < |teams| ==> teams[i].name != teams[j].name
  }

  /** Both sides of a match are distinct teams of the league. */
  predicate Fielded(teams: seq<Team>, m: Match)
  {
    m.homeTeam != m.awayTeam && HasTeam(teams, m.homeTeam) && HasTeam(teams, m.awayTeam)
  }

  /** The shape every season keeps: uniquely named teams and matches
      between two of them. Without it getTeamByName returns nil and the
      source dereferences it. */
  predicate Valid(l: League)
  {
    UniqueNames(l.teams) && AllFielded(l.teams, l.matches)
  }

  /** Index of the first team with this name, or None (the nil of getTeamByName). */
  function FindTeam(teams: seq<Team>, name: string): (r: Option<nat>)
    ensures r.Some? ==> r.value < |teams| && teams[r.value].name == name
    ensures r.Some? ==> forall j :: 0 <= j < r.value ==> teams[j].name != name
    ensures r.None? <==> !HasTeam(teams, name)
  {
    if |teams| == 0 then None
    else if teams[0].name == name then Some(0)
    else match FindTeam(teams[1..], name)
      case None => None
      case Some(i) => Some(i + 1)
  }

  /** Two team lists name the same teams in the same order. */
  predicate SameNames(a: seq<Team>, b: seq<Team>)
  {
    |a| == |b| && forall i :: 0 <= i < |a| ==> a[i].name == b[i].name
  }

  /** The same teams in the same order, apart from their records. */
  predicate SameRoster(a: seq<Team>, b: seq<Team>)
  {
    && SameNames(a, b)
    && forall i :: 0 <= i < |a| ==> a[i].strength == b[i].strength && a[i].baseStrength == b[i].baseStrength
  }

  /** The same teams in the same order with the same records, apart from
      their strength. */
  predicate SameRecords(a: seq<Team>, b: seq<Team>)
  {
    && SameNames(a, b)
    && forall i :: 0 <= i < |a| ==> a[i].stats == b[i].stats && a[i].baseStrength == b[i].baseStrength
  }

  /** Two matches are the same fixture: week and sides agree. */
  predicate SameFixture(a: Match, b: Match)
  {
    a.week == b.week && a.homeTeam == b.homeTeam && a.awayTeam == b.awayTeam
  }

  predicate SameFixtures(a: seq<Match>, b: seq<Match>)
  {
    |a| == |b| && forall j :: 0 <= j < |a| ==> SameFixture(a[j], b[j])
  }

  /** Every match of the list is between two distinct teams of the list. */
  predicate AllFielded(teams: seq<Team>, ms: seq<Match>)
  {
    forall j :: 0 <= j < |ms| ==> Fielded(teams, ms[j])
  }

  /** Renaming nothing and rescheduling nothing keeps every match fielded. */
  lemma SameNamesKeepFielded(teams: seq<Team>, ms: seq<Match>, teams': seq<Team>, ms': seq<Match>)
    requires AllFielded(teams, ms) && SameNames(teams, teams') && SameFixtures(ms, ms')
    ensures AllFielded(teams', ms')
  {
    forall j | 0 <= j < |ms'|
      ensures Fielded(teams', ms'[j])
    {
      assert Fielded(teams, ms[j]);
      var h :| 0 <= h < |teams| && teams[h].name == ms[j].homeTeam;
      var a :| 0 <= a < |teams| && teams[a].name == ms[j].awayTeam;
      assert teams'[h].name == ms'[j].homeTeam;
      assert teams'[a].name == ms'[j].awayTeam;
    }
  }

  /** Unique names survive a change that keeps every name in place. */
  lemma SameNamesKeepUnique(teams: seq<Team>, teams': seq<Team>)
    requires UniqueNames(teams) && SameNames(teams, teams')
    ensures UniqueNames(teams')
  {
  }

  lemma SameNamesTransitive(a: seq<Team>, b: seq<Team>, c: seq<Team>)
    requires SameNames(a, b) && SameNames(b, c)
    ensures SameNames(a, c)
  {
  }

  /** Replacing one team by a team with the same name and strengths
      keeps the roster. */
  lemma ReplaceKeepsRoster(teams: seq<Team>, i: int, t: Team)
    requires 0 <= i < |teams|
    requires t.name == teams[i].name && t.strength == teams[i].strength && t.baseStrength == teams[i].baseStrength
    ensures SameRoster(teams, teams[i := t])
  {
  }

  lemma SameRosterTransitive(a: seq<Team>, b: seq<Team>, c: seq<Team>)
    requires SameRoster(a, b) && SameRoster(b, c)
    ensures SameRoster(a, c)
  {
  }

  lemma SameRosterSymmetric(a: seq<Team>, b: seq<Team>)
    requires SameRoster(a, b)
    ensures SameRoster(b, a)
  {
  }

  lemma SameFixturesTransitive(a: seq<Match>, b: seq<Match>, c: seq<Match>)
    requires SameFixtures(a, b) && SameFixtures(b, c)
    ensures SameFixtures(a, c)
  {
  }
}
