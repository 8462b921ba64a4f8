/** The end of a season: playing out a season plays every match that is
    left, and a fresh season ends with all twelve matches on the books. */
module SeasonEnd {
  import opened Records
  import opened Simulation
  import opened Ledger
  import opened Season
  import Fixtures

  /** A season whose unplayed matches all lie after its current week and
      within its length ends with every match played, each score between
      0 and 6, and the rest of every match unchanged. */
  lemma SeasonPlaysOut(l: League, oracle: Oracle)
    requires Valid(l)
    requires forall j :: 0 <= j < |l.matches| ==> l.matches[j].played || l.currentWeek < l.matches[j].week <= l.totalWeeks
    ensures var r := PlayAllMatches(l, oracle);
      forall j :: 0 <= j < |r.matches| ==>
        r.matches[j].played && SameFixture(l.matches[j], r.matches[j])
        && (l.matches[j].played ==> r.matches[j] == l.matches[j])
        && (!l.matches[j].played ==> 0 <= r.matches[j].homeGoals <= TrialsPerSide && 0 <= r.matches[j].awayGoals <= TrialsPerSide)
  {
    var r := PlayAllMatches(l, oracle);
    assert PlaysWeeks(l.matches, r.matches, l.currentWeek, r.currentWeek);
  }

  /** A fresh season played out ends at week 6 with all twelve fixtures
      played and every record equal to what the matches give it. */
  lemma FreshSeasonPlaysOut(oracle: Oracle)
    ensures var r := PlayAllMatches(Fixtures.NewLeague(), oracle);
      && r.currentWeek == Fixtures.TotalWeeks
      && SameFixtures(Fixtures.GenerateFixtures(), r.matches)
      && (forall j :: 0 <= j < |r.matches| ==> r.matches[j].played)
      && Consistent(r.teams, r.matches)
  {
    var l := Fixtures.NewLeague();
    Fixtures.FixturesShape();
    SeasonPlaysOut(l, oracle);
  }
}
