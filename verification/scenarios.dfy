/** Worked instances of the season's operations on the real starting
    league: the score correction of an opening-match result. */
module Scenarios {
  import opened Wrappers
  import opened Stats
  import opened Records
  import opened Ledger
  import opened Correction
  import opened Fixtures

  /** The opening fixture is the first match the search finds. */
  lemma OpeningMatchFound()
    ensures FindMatch(GenerateFixtures(), 1, Chelsea, Arsenal) == Some(0)
  {
    OpeningFixture();
  }

  /** A fresh season lists Chelsea first and Arsenal second, both with
      an empty record. */
  lemma FreshLeague()
    ensures |NewLeague().teams| == 4
    ensures NewLeague().teams[0].name == Chelsea && NewLeague().teams[1].name == Arsenal
    ensures NewLeague().teams[0].stats == Zero && NewLeague().teams[1].stats == Zero
  {
  }

  /** One correction of the opening match: it is found, it stays the
      match the search finds, and the two sides end up with their records
      before the match plus the new score. */
  lemma EditOpening(l: League, homeGoals: int, awayGoals: int) returns (r: League)
    requires Valid(l) && FindMatch(l.matches, 1, Chelsea, Arsenal) == Some(0) && |l.teams| == 4
    requires l.teams[0].name == Chelsea && l.teams[1].name == Arsenal
    requires GoalDiffAgrees(l.teams[0].stats) && GoalDiffAgrees(l.teams[1].stats)
    ensures EditMatchResult(l, 1, Chelsea, Arsenal, homeGoals, awayGoals) == Success(r)
    ensures Valid(r) && FindMatch(r.matches, 1, Chelsea, Arsenal) == Some(0) && |r.teams| == 4
    ensures r.teams[0].name == Chelsea && r.teams[1].name == Arsenal
    ensures r.matches[0] == Match(1, Chelsea, Arsenal, homeGoals, awayGoals, true)
    ensures r.teams[0].stats == Plus(Minus(l.teams[0].stats, Contribution(l.matches[0], Chelsea)), Delta(homeGoals, awayGoals))
    ensures r.teams[1].stats == Plus(Minus(l.teams[1].stats, Contribution(l.matches[0], Arsenal)), Delta(awayGoals, homeGoals))
  {
    r := EditMatchResult(l, 1, Chelsea, Arsenal, homeGoals, awayGoals).value;
    FindMatchSameFixtures(l.matches, r.matches, 1, Chelsea, Arsenal);
    EditNetEffect(l, 1, Chelsea, Arsenal, homeGoals, awayGoals, r, 0);
    EditNetEffect(l, 1, Chelsea, Arsenal, homeGoals, awayGoals, r, 1);
  }

  /** Taking out nothing and then adding a result adds the result. */
  lemma NothingTakenOut(s: TeamStats, d: TeamStats)
    ensures Plus(Minus(s, Zero), d) == Plus(s, d)
  {
  }

  /** A fresh record holding one result is that result. */
  lemma FromEmpty(d: TeamStats)
    ensures Plus(Zero, d) == d
  {
  }

  /** A corrected score replaces the one it corrects. */
  lemma ReplacedScore(s: TeamStats, d: TeamStats, e: TeamStats)
    requires s == d
    ensures Plus(Minus(s, d), e) == e
  {
    assert Minus(s, d) == Zero;
  }

  /** Entering a score for the unplayed opening match adds just that
      result to the two sides' records. */
  lemma FirstEntry(l: League, homeGoals: int, awayGoals: int) returns (r: League)
    requires Valid(l) && FindMatch(l.matches, 1, Chelsea, Arsenal) == Some(0) && !l.matches[0].played
    requires |l.teams| == 4 && l.teams[0].name == Chelsea && l.teams[1].name == Arsenal
    requires GoalDiffAgrees(l.teams[0].stats) && GoalDiffAgrees(l.teams[1].stats)
    ensures EditMatchResult(l, 1, Chelsea, Arsenal, homeGoals, awayGoals) == Success(r)
    ensures Valid(r) && FindMatch(r.matches, 1, Chelsea, Arsenal) == Some(0)
    ensures |r.teams| == 4 && r.teams[0].name == Chelsea && r.teams[1].name == Arsenal
    ensures r.matches[0] == Match(1, Chelsea, Arsenal, homeGoals, awayGoals, true)
    ensures r.teams[0].stats == Plus(l.teams[0].stats, Delta(homeGoals, awayGoals))
    ensures r.teams[1].stats == Plus(l.teams[1].stats, Delta(awayGoals, homeGoals))
  {
    r := EditOpening(l, homeGoals, awayGoals);
    var m := l.matches[0];
    assert Contribution(m, Chelsea) == Zero && Contribution(m, Arsenal) == Zero;
    NothingTakenOut(l.teams[0].stats, Delta(homeGoals, awayGoals));
    NothingTakenOut(l.teams[1].stats, Delta(awayGoals, homeGoals));
  }

  /** Correcting the stored score of the opening match when the two sides'
      records hold that score alone leaves them with the new score alone. */
  lemma SecondEntry(l: League, oldHome: int, oldAway: int, homeGoals: int, awayGoals: int) returns (r: League)
    requires Valid(l) && FindMatch(l.matches, 1, Chelsea, Arsenal) == Some(0)
    requires |l.teams| == 4 && l.teams[0].name == Chelsea && l.teams[1].name == Arsenal
    requires l.matches[0] == Match(1, Chelsea, Arsenal, oldHome, oldAway, true)
    requires l.teams[0].stats == Delta(oldHome, oldAway) && l.teams[1].stats == Delta(oldAway, oldHome)
    ensures EditMatchResult(l, 1, Chelsea, Arsenal, homeGoals, awayGoals) == Success(r)
    ensures |r.teams| == 4 && r.teams[0].name == Chelsea && r.teams[1].name == Arsenal
    ensures r.teams[0].stats == Delta(homeGoals, awayGoals) && r.teams[1].stats == Delta(awayGoals, homeGoals)
  {
    r := EditOpening(l, homeGoals, awayGoals);
    assert Contribution(l.matches[0], Chelsea) == Delta(oldHome, oldAway);
    assert Contribution(l.matches[0], Arsenal) == Delta(oldAway, oldHome);
    ReplacedScore(l.teams[0].stats, Delta(oldHome, oldAway), Delta(homeGoals, awayGoals));
    ReplacedScore(l.teams[1].stats, Delta(oldAway, oldHome), Delta(awayGoals, homeGoals));
  }

  /** In a fresh season, entering a score for Chelsea v Arsenal and then
      correcting it (say 2-1 to 0-3) leaves each side with the record of
      the corrected score alone, as if the first had never been entered. */
  lemma CorrectedOpeningScore(firstHome: int, firstAway: int, homeGoals: int, awayGoals: int)
    returns (l1: League, l2: League)
    ensures EditMatchResult(NewLeague(), 1, Chelsea, Arsenal, firstHome, firstAway) == Success(l1)
    ensures EditMatchResult(l1, 1, Chelsea, Arsenal, homeGoals, awayGoals) == Success(l2)
    ensures |l2.teams| == 4 && l2.teams[0].name == Chelsea && l2.teams[1].name == Arsenal
    ensures l2.teams[0].stats == Delta(homeGoals, awayGoals) && l2.teams[1].stats == Delta(awayGoals, homeGoals)
  {
    FreshLeague();
    OpeningMatchFound();
    l1 := FirstEntry(NewLeague(), firstHome, firstAway);
    FromEmpty(Delta(firstHome, firstAway));
    FromEmpty(Delta(firstAway, firstHome));
    l2 := SecondEntry(l1, firstHome, firstAway, homeGoals, awayGoals);
  }
}
