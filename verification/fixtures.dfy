/** A fresh season (NewLeague): the four teams at their baseline strength
    and the hand-written six-week fixture table (generateFixtures). */
module Fixtures {
  import opened Stats
  import opened Records
  import Ledger

  const Chelsea := "Chelsea"
  const Arsenal := "Arsenal"
  const ManchesterCity := "Manchester City"
  const Liverpool := "Liverpool"

  const TotalWeeks := 6
  const MatchesPerWeek := 2

  /** One row of the fixture table: a week and its two pairings. */
  datatype Round = Round(week: int, home1: string, away1: string, home2: string, away2: string)

  const Schedule: seq<Round> := [
    Round(1, Chelsea, Arsenal, ManchesterCity, Liverpool),
    Round(2, Arsenal, ManchesterCity, Liverpool, Chelsea),
    Round(3, Chelsea, Liverpool, ManchesterCity, Arsenal),
    Round(4, Arsenal, Chelsea, Liverpool, ManchesterCity),
    Round(5, ManchesterCity, Chelsea, Liverpool, Arsenal),
    Round(6, Arsenal, Liverpool, Chelsea, ManchesterCity)
  ]

  const TeamNames: seq<string> := [Chelsea, Arsenal, ManchesterCity, Liverpool]

  function Unplayed(week: int, home: string, away: string): Match
  {
    Match(week, home, away, 0, 0, false)
  }

  /** Two matches per row, in table order. */
  function FixturesOf(rounds: seq<Round>): (ms: seq<Match>)
    ensures |ms| == 2 * |rounds|
    ensures forall j :: 0 <= j < |ms| ==> !ms[j].played
    decreases |rounds|
  {
    if |rounds| == 0 then []
    else
      var f := rounds[|rounds| - 1];
      FixturesOf(rounds[..|rounds| - 1]) + [Unplayed(f.week, f.home1, f.away1), Unplayed(f.week, f.home2, f.away2)]
  }

  /** generateFixtures: the table row by row, each row's first pairing
      before its second, every match unplayed at 0-0. */
  function GenerateFixtures(): (ms: seq<Match>)
    ensures |ms| == TotalWeeks * MatchesPerWeek
    ensures forall k :: 0 <= k < |Schedule| ==>
      && ms[2 * k] == Match(Schedule[k].week, Schedule[k].home1, Schedule[k].away1, 0, 0, false)
      && ms[2 * k + 1] == Match(Schedule[k].week, Schedule[k].home2, Schedule[k].away2, 0, 0, false)
  {
    FixturesOfRows(Schedule);
    FixturesOf(Schedule)
  }

  /** Row k of the table becomes matches 2k and 2k + 1. */
  lemma {:induction false} FixturesOfRows(rounds: seq<Round>)
    ensures |FixturesOf(rounds)| == 2 * |rounds|
    ensures forall k :: 0 <= k < |rounds| ==>
      FixturesOf(rounds)[2 * k] == RowMatches(rounds[k])[0] && FixturesOf(rounds)[2 * k + 1] == RowMatches(rounds[k])[1]
    decreases |rounds|
  {
    if |rounds| > 0 {
      var n := |rounds| - 1;
      FixturesOfRows(rounds[..n]);
      FixturesOfPrefix(rounds, |rounds|);
      assert rounds[..|rounds|] == rounds;
      forall k | 0 <= k < |rounds|
        ensures FixturesOf(rounds)[2 * k] == RowMatches(rounds[k])[0]
        ensures FixturesOf(rounds)[2 * k + 1] == RowMatches(rounds[k])[1]
      {
        if k < n {
          assert rounds[..n][k] == rounds[k];
        }
      }
    }
  }

  /** Number of matches satisfying `p`. */
  function Count(ms: seq<Match>, p: Match -> bool): nat
    decreases |ms|
  {
    if |ms| == 0 then 0
    else Count(ms[..|ms| - 1], p) + (if p(ms[|ms| - 1]) then 1 else 0)
  }

  /** Number of matches scheduled in week `w`. */
  function WeekCount(ms: seq<Match>, w: int): nat
  {
    Count(ms, (m: Match) => m.week == w)
  }

  /** Number of matches of week `w` the named team takes part in. */
  function Appearances(ms: seq<Match>, w: int, name: string): nat
  {
    Count(ms, (m: Match) => m.week == w && (m.homeTeam == name || m.awayTeam == name))
  }

  /** Number of matches with this home and this away side. */
  function PairCount(ms: seq<Match>, home: string, away: string): nat
  {
    Count(ms, (m: Match) => m.homeTeam == home && m.awayTeam == away)
  }

  /** Number of matches that are the same fixture as `f`. */
  function FixtureCount(ms: seq<Match>, f: Match): nat
  {
    Count(ms, (m: Match) => SameFixture(m, f))
  }

  /** The matches of one row of the table. */
  function RowMatches(f: Round): seq<Match>
  {
    [Unplayed(f.week, f.home1, f.away1), Unplayed(f.week, f.home2, f.away2)]
  }

  lemma FixturesOfPrefix(rounds: seq<Round>, k: int)
    requires 0 < k <= |rounds|
    ensures FixturesOf(rounds[..k]) == FixturesOf(rounds[..k - 1]) + RowMatches(rounds[k - 1])
  {
    assert rounds[..k][..k - 1] == rounds[..k - 1];
  }

  /** The fixture table, written out as matches. */
  const FixtureList := [
    Unplayed(1, Chelsea, Arsenal), Unplayed(1, ManchesterCity, Liverpool),
    Unplayed(2, Arsenal, ManchesterCity), Unplayed(2, Liverpool, Chelsea),
    Unplayed(3, Chelsea, Liverpool), Unplayed(3, ManchesterCity, Arsenal),
    Unplayed(4, Arsenal, Chelsea), Unplayed(4, Liverpool, ManchesterCity),
    Unplayed(5, ManchesterCity, Chelsea), Unplayed(5, Liverpool, Arsenal),
    Unplayed(6, Arsenal, Liverpool), Unplayed(6, Chelsea, ManchesterCity)]

  lemma ScheduleExpanded()
    ensures FixturesOf(Schedule) == FixtureList
  {
    FixturesOfPrefix(Schedule, 1);
    FixturesOfPrefix(Schedule, 2);
    FixturesOfPrefix(Schedule, 3);
    FixturesOfPrefix(Schedule, 4);
    FixturesOfPrefix(Schedule, 5);
    FixturesOfPrefix(Schedule, 6);
    assert Schedule[..6] == Schedule;
  }

  /** The table written out as matches. */
  lemma FixturesLiteral()
    ensures GenerateFixtures() == FixtureList
  {
    ScheduleExpanded();
  }

  /** The season opens with Chelsea at home to Arsenal. */
  lemma OpeningFixture()
    ensures |GenerateFixtures()| == 12 && GenerateFixtures()[0] == Unplayed(1, Chelsea, Arsenal)
  {
    FixturesLiteral();
  }

  /** Number of the two matches of a row that satisfy `p`. */
  function RowCount(f: Round, p: Match -> bool): nat
  {
    (if p(Unplayed(f.week, f.home1, f.away1)) then 1 else 0) + (if p(Unplayed(f.week, f.home2, f.away2)) then 1 else 0)
  }

  lemma {:induction false} CountAppend(a: seq<Match>, b: seq<Match>, p: Match -> bool)
    ensures Count(a + b, p) == Count(a, p) + Count(b, p)
    decreases |b|
  {
    if |b| == 0 {
      assert a + b == a;
    } else {
      assert (a + b)[..|a + b| - 1] == a + b[..|b| - 1];
      CountAppend(a, b[..|b| - 1], p);
    }
  }

  lemma CountPrefix(k: int, p: Match -> bool)
    requires 0 < k <= |Schedule|
    ensures Count(FixturesOf(Schedule[..k]), p) == Count(FixturesOf(Schedule[..k - 1]), p) + RowCount(Schedule[k - 1], p)
  {
    FixturesOfPrefix(Schedule, k);
    CountAppend(FixturesOf(Schedule[..k - 1]), RowMatches(Schedule[k - 1]), p);
    var row := RowMatches(Schedule[k - 1]);
    assert row[..1][..0] == [];
    assert row[..2] == row;
  }

  /** Counting over the fixture list, row by row. */
  lemma CountFixtures(p: Match -> bool)
    ensures Count(GenerateFixtures(), p) ==
      RowCount(Schedule[0], p) + RowCount(Schedule[1], p) + RowCount(Schedule[2], p) +
      RowCount(Schedule[3], p) + RowCount(Schedule[4], p) + RowCount(Schedule[5], p)
  {
    assert FixturesOf(Schedule[..0]) == [];
    CountPrefix(1, p);
    CountPrefix(2, p);
    CountPrefix(3, p);
    CountPrefix(4, p);
    CountPrefix(5, p);
    CountPrefix(6, p);
    assert Schedule[..6] == Schedule;
  }

  /** Twelve unplayed matches, two in each of the weeks 1..6 and none in
      any other week. */
  lemma FixturesShape()
    ensures |GenerateFixtures()| == TotalWeeks * MatchesPerWeek
    ensures forall j :: 0 <= j < |GenerateFixtures()| ==> !GenerateFixtures()[j].played
    ensures forall j :: 0 <= j < |GenerateFixtures()| ==> 1 <= GenerateFixtures()[j].week <= TotalWeeks
    ensures forall w :: WeekCount(GenerateFixtures(), w) == (if 1 <= w <= TotalWeeks then MatchesPerWeek else 0)
  {
    FixturesLiteral();
    forall w ensures WeekCount(GenerateFixtures(), w) == (if 1 <= w <= TotalWeeks then MatchesPerWeek else 0) {
      CountFixtures((m: Match) => m.week == w);
    }
  }

  /** In every week each of the four teams plays exactly once. */
  lemma EachTeamOncePerWeek()
    ensures forall w, i :: 1 <= w <= TotalWeeks && 0 <= i < |TeamNames| ==>
      Appearances(GenerateFixtures(), w, TeamNames[i]) == 1
  {
    forall w, i | 1 <= w <= TotalWeeks && 0 <= i < |TeamNames|
      ensures Appearances(GenerateFixtures(), w, TeamNames[i]) == 1
    {
      CountFixtures((m: Match) => m.week == w && (m.homeTeam == TeamNames[i] || m.awayTeam == TeamNames[i]));
    }
  }

  /** No two matches share a (week, home, away) triple. */
  lemma NoDuplicateFixture()
    ensures forall j :: 0 <= j < |GenerateFixtures()| ==>
      FixtureCount(GenerateFixtures(), GenerateFixtures()[j]) == 1
  {
    FixturesLiteral();
    forall j | 0 <= j < |GenerateFixtures()|
      ensures FixtureCount(GenerateFixtures(), GenerateFixtures()[j]) == 1
    {
      CountFixtures((m: Match) => SameFixture(m, GenerateFixtures()[j]));
    }
  }

  /** Every ordered pair of distinct teams meets exactly once as (home, away),
      and no match involves any other name. */
  lemma EveryPairingOnce()
    ensures forall h, a :: 0 <= h < |TeamNames| && 0 <= a < |TeamNames| && h != a ==>
      PairCount(GenerateFixtures(), TeamNames[h], TeamNames[a]) == 1
    ensures forall j :: 0 <= j < |GenerateFixtures()| ==>
      GenerateFixtures()[j].homeTeam in TeamNames && GenerateFixtures()[j].awayTeam in TeamNames
  {
    FixturesLiteral();
    forall h, a | 0 <= h < |TeamNames| && 0 <= a < |TeamNames| && h != a
      ensures PairCount(GenerateFixtures(), TeamNames[h], TeamNames[a]) == 1
    {
      CountFixtures((m: Match) => m.homeTeam == TeamNames[h] && m.awayTeam == TeamNames[a]);
    }
  }

  /** The starting teams: baseline strengths, empty records. */
  const InitialTeams: seq<Team> := [
    Team(Chelsea, 80, 80, Zero),
    Team(Arsenal, 85, 85, Zero),
    Team(ManchesterCity, 82, 82, Zero),
    Team(Liverpool, 90, 90, Zero)
  ]

  /** Both pairings of a row are between two distinct starting teams. */
  predicate RowFielded(f: Round)
  {
    Fielded(InitialTeams, Unplayed(f.week, f.home1, f.away1)) && Fielded(InitialTeams, Unplayed(f.week, f.home2, f.away2))
  }

  lemma {:induction false} RowsFielded(rounds: seq<Round>)
    requires forall k :: 0 <= k < |rounds| ==> RowFielded(rounds[k])
    ensures AllFielded(InitialTeams, FixturesOf(rounds))
    decreases |rounds|
  {
    if |rounds| > 0 {
      var n := |rounds| - 1;
      RowsFielded(rounds[..n]);
      assert RowFielded(rounds[n]);
    }
  }

  lemma InitialNamesPresent()
    ensures HasTeam(InitialTeams, Chelsea) && HasTeam(InitialTeams, Arsenal)
    ensures HasTeam(InitialTeams, ManchesterCity) && HasTeam(InitialTeams, Liverpool)
  {
    assert InitialTeams[0].name == Chelsea;
    assert InitialTeams[1].name == Arsenal;
    assert InitialTeams[2].name == ManchesterCity;
    assert InitialTeams[3].name == Liverpool;
  }

  /** Every fixture is between two distinct starting teams. */
  lemma InitialFielded()
    ensures UniqueNames(InitialTeams) && AllFielded(InitialTeams, GenerateFixtures())
  {
    InitialNamesPresent();
    assert forall k :: 0 <= k < |Schedule| ==> RowFielded(Schedule[k]);
    RowsFielded(Schedule);
  }

  /** The empty records are what the unplayed fixtures give every team. */
  lemma InitialConsistent()
    ensures Ledger.Consistent(InitialTeams, GenerateFixtures())
  {
    FixturesShape();
    forall i | 0 <= i < |InitialTeams| ensures InitialTeams[i].stats == Ledger.Total(GenerateFixtures(), InitialTeams[i].name) {
      Ledger.UnplayedTotalIsZero(GenerateFixtures(), InitialTeams[i].name);
    }
  }

  /** A fresh season: valid, consistent with its (all unplayed) matches,
      at week 0 of 6, every team at its baseline with an empty record. */
  function NewLeague(): (l: League)
    ensures Valid(l) && Ledger.Consistent(l.teams, l.matches)
    ensures l.currentWeek == 0 && l.totalWeeks == TotalWeeks && l.matchesPerWeek == MatchesPerWeek
    ensures |l.teams| == 4
    ensures forall i :: 0 <= i < |l.teams| ==> l.teams[i].strength == l.teams[i].baseStrength && l.teams[i].stats == Zero
    ensures forall j :: 0 <= j < |l.matches| ==> !l.matches[j].played
    ensures l.matches == GenerateFixtures()
  {
    InitialFielded();
    InitialConsistent();
    FixturesShape();
    League(InitialTeams, GenerateFixtures(), 0, TotalWeeks, MatchesPerWeek)
  }
}
