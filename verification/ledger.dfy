/** The season's ledger: a team's record is the sum, over the played
    matches it takes part in, of what each such match contributes. This is
    the consistency every operation of the season keeps. */
module Ledger {
  import opened Stats
  import opened Records
  import opened MatchPlay

  /** What one match adds to the named team's record. */
  function Contribution(m: Match, name: string): TeamStats
  {
    if !m.played then Zero
    else if m.homeTeam == name then Delta(m.homeGoals, m.awayGoals)
    else if m.awayTeam == name then Delta(m.awayGoals, m.homeGoals)
    else Zero
  }

  /** The record the matches give the named team. */
  function Total(ms: seq<Match>, name: string): TeamStats
    decreases |ms|
  {
    if |ms| == 0 then Zero
    else Plus(Total(ms[..|ms| - 1], name), Contribution(ms[|ms| - 1], name))
  }

  /** Number of played matches the named team takes part in. */
  function PlayedCount(ms: seq<Match>, name: string): nat
    decreases |ms|
  {
    if |ms| == 0 then 0
    else
      var m := ms[|ms| - 1];
      PlayedCount(ms[..|ms| - 1], name) + (if m.played && (m.homeTeam == name || m.awayTeam == name) then 1 else 0)
  }

  /** Every team's record is what the matches give it. */
  predicate Consistent(teams: seq<Team>, ms: seq<Match>)
  {
    forall i :: 0 <= i < |teams| ==> teams[i].stats == Total(ms, teams[i].name)
  }

  /** A ledger total satisfies the record invariants and counts exactly the
      played matches of the team. */
  lemma {:induction false} TotalWellFormed(ms: seq<Match>, name: string)
    ensures WellFormed(Total(ms, name))
    ensures Total(ms, name).played == PlayedCount(ms, name)
  {
    if |ms| > 0 {
      TotalWellFormed(ms[..|ms| - 1], name);
    }
  }

  /** Replacing one match changes the total by the difference of the two
      matches' contributions. */
  lemma {:induction false} TotalAfterReplace(ms: seq<Match>, j: int, m: Match, name: string)
    requires 0 <= j < |ms|
    ensures Total(ms[j := m], name) == Plus(Minus(Total(ms, name), Contribution(ms[j], name)), Contribution(m, name))
    decreases |ms|
  {
    var n := |ms| - 1;
    if j < n {
      assert ms[j := m][..n] == ms[..n][j := m];
      TotalAfterReplace(ms[..n], j, m, name);
    } else {
      assert ms[j := m][..n] == ms[..n];
    }
  }

  /** A team's record in a consistent season satisfies the record
      invariants, and its games played are its played matches. */
  lemma ConsistentWellFormed(teams: seq<Team>, ms: seq<Match>, i: int)
    requires Consistent(teams, ms) && 0 <= i < |teams|
    ensures WellFormed(teams[i].stats)
    ensures teams[i].stats.played == PlayedCount(ms, teams[i].name)
  {
    TotalWellFormed(ms, teams[i].name);
  }

  /** A season whose matches are all unplayed is consistent with zeroed records. */
  lemma {:induction false} UnplayedTotalIsZero(ms: seq<Match>, name: string)
    requires forall j :: 0 <= j < |ms| ==> !ms[j].played
    ensures Total(ms, name) == Zero
  {
    if |ms| > 0 {
      UnplayedTotalIsZero(ms[..|ms| - 1], name);
    }
  }

  /** Index of the named team; a fielded match guarantees it exists. */
  function Slot(teams: seq<Team>, name: string): (i: nat)
    requires HasTeam(teams, name)
    ensures i < |teams| && teams[i].name == name
  {
    FindTeam(teams, name).value
  }

  /** Stores a score in match j and applies it to both of its teams, found
      by name. */
  function RecordAt(teams: seq<Team>, ms: seq<Match>, j: int, homeGoals: int, awayGoals: int): (r: (seq<Team>, seq<Match>))
    requires 0 <= j < |ms| && Fielded(teams, ms[j])
    ensures SameRoster(teams, r.0) && SameFixtures(ms, r.1)
    ensures r.1 == ms[j := ms[j].(homeGoals := homeGoals, awayGoals := awayGoals, played := true)]
  {
    var hi, ai := Slot(teams, ms[j].homeTeam), Slot(teams, ms[j].awayTeam);
    var s := RecordScore(ms[j], teams[hi], teams[ai], homeGoals, awayGoals);
    (teams[hi := s.home][ai := s.away], ms[j := s.game])
  }

  /** Retracts the stored score of match j from both of its teams. */
  function RetractAt(teams: seq<Team>, ms: seq<Match>, j: int): (r: seq<Team>)
    requires 0 <= j < |ms| && Fielded(teams, ms[j])
    ensures SameRoster(teams, r)
  {
    var m := ms[j];
    var hi, ai := Slot(teams, m.homeTeam), Slot(teams, m.awayTeam);
    var home := teams[hi].(stats := ReverseMatchResult(teams[hi].stats, m.homeGoals, m.awayGoals));
    var away := teams[ai].(stats := ReverseMatchResult(teams[ai].stats, m.awayGoals, m.homeGoals));
    teams[hi := home][ai := away]
  }

  /** Changing strengths alone leaves the books as they are. */
  lemma SameRecordsKeepLedger(a: seq<Team>, b: seq<Team>, ms: seq<Match>)
    requires SameRecords(a, b)
    ensures Consistent(a, ms) ==> Consistent(b, ms)
  {
  }

  /** A team's record after a score is recorded in match j: what it had,
      plus what the recorded match contributes to it. */
  lemma RecordedSideGains(teams: seq<Team>, ms: seq<Match>, j: int, homeGoals: int, awayGoals: int, k: int)
    requires 0 <= j < |ms| && Fielded(teams, ms[j]) && UniqueNames(teams)
    requires 0 <= k < |teams| && GoalDiffAgrees(teams[k].stats)
    ensures RecordAt(teams, ms, j, homeGoals, awayGoals).0[k].stats
         == Plus(teams[k].stats, Contribution(RecordAt(teams, ms, j, homeGoals, awayGoals).1[j], teams[k].name))
  {
    var m := ms[j];
    var m' := m.(homeGoals := homeGoals, awayGoals := awayGoals, played := true);
    var hi, ai := Slot(teams, m.homeTeam), Slot(teams, m.awayTeam);
    var name := teams[k].name;
    if k == hi {
      UpdateIsPlus(teams[k].stats, homeGoals, awayGoals);
      assert Contribution(m', name) == Delta(homeGoals, awayGoals);
    } else if k == ai {
      UpdateIsPlus(teams[k].stats, awayGoals, homeGoals);
      assert Contribution(m', name) == Delta(awayGoals, homeGoals);
    } else {
      assert name != m.homeTeam && name != m.awayTeam;
      assert Contribution(m', name) == Zero;
      assert Plus(teams[k].stats, Zero) == teams[k].stats;
    }
  }

  /** One team's record stays equal to its ledger when a score is recorded
      in an unplayed match. */
  lemma RecordKeepsEntry(teams: seq<Team>, ms: seq<Match>, j: int, homeGoals: int, awayGoals: int, k: int)
    requires 0 <= j < |ms| && Fielded(teams, ms[j]) && !ms[j].played
    requires UniqueNames(teams) && 0 <= k < |teams|
    requires teams[k].stats == Total(ms, teams[k].name)
    ensures RecordAt(teams, ms, j, homeGoals, awayGoals).0[k].stats
         == Total(RecordAt(teams, ms, j, homeGoals, awayGoals).1, teams[k].name)
  {
    var r := RecordAt(teams, ms, j, homeGoals, awayGoals);
    var name := teams[k].name;
    TotalAfterReplace(ms, j, r.1[j], name);
    assert Contribution(ms[j], name) == Zero;
    assert Minus(Total(ms, name), Zero) == Total(ms, name);
    TotalWellFormed(ms, name);
    RecordedSideGains(teams, ms, j, homeGoals, awayGoals, k);
  }

  /** Recording a score in an unplayed match keeps the records equal to
      the ledger. */
  lemma RecordKeepsLedger(teams: seq<Team>, ms: seq<Match>, j: int, homeGoals: int, awayGoals: int)
    requires 0 <= j < |ms| && Fielded(teams, ms[j]) && !ms[j].played
    requires UniqueNames(teams) && Consistent(teams, ms)
    ensures Consistent(RecordAt(teams, ms, j, homeGoals, awayGoals).0, RecordAt(teams, ms, j, homeGoals, awayGoals).1)
  {
    var r := RecordAt(teams, ms, j, homeGoals, awayGoals);
    forall k | 0 <= k < |r.0|
      ensures r.0[k].stats == Total(r.1, r.0[k].name)
    {
      RecordKeepsEntry(teams, ms, j, homeGoals, awayGoals, k);
    }
  }

  /** A team's record after the score of a played match j is retracted:
      what it had, minus what that match contributed to it. */
  lemma RetractedSideLoses(teams: seq<Team>, ms: seq<Match>, j: int, k: int)
    requires 0 <= j < |ms| && Fielded(teams, ms[j]) && ms[j].played && UniqueNames(teams)
    requires 0 <= k < |teams| && GoalDiffAgrees(teams[k].stats)
    ensures RetractAt(teams, ms, j)[k].stats == Minus(teams[k].stats, Contribution(ms[j], teams[k].name))
  {
    var m := ms[j];
    var hi, ai := Slot(teams, m.homeTeam), Slot(teams, m.awayTeam);
    var name := teams[k].name;
    if k == hi {
      ReverseIsMinus(teams[k].stats, m.homeGoals, m.awayGoals);
    } else if k == ai {
      ReverseIsMinus(teams[k].stats, m.awayGoals, m.homeGoals);
    } else {
      assert name != m.homeTeam && name != m.awayTeam;
      assert Contribution(m, name) == Zero;
      assert Minus(teams[k].stats, Zero) == teams[k].stats;
    }
  }

  /** Retracting the stored score of a played match leaves records equal
      to the ledger of the season in which that match is unplayed. */
  lemma RetractKeepsLedger(teams: seq<Team>, ms: seq<Match>, j: int)
    requires 0 <= j < |ms| && Fielded(teams, ms[j]) && ms[j].played
    requires UniqueNames(teams) && Consistent(teams, ms)
    ensures Consistent(RetractAt(teams, ms, j), ms[j := ms[j].(played := false)])
  {
    var r := RetractAt(teams, ms, j);
    var m' := ms[j].(played := false);
    forall k | 0 <= k < |r|
      ensures r[k].stats == Total(ms[j := m'], r[k].name)
    {
      var name := teams[k].name;
      TotalAfterReplace(ms, j, m', name);
      assert Contribution(m', name) == Zero;
      ConsistentWellFormed(teams, ms, k);
      RetractedSideLoses(teams, ms, j, k);
      assert Plus(r[k].stats, Zero) == r[k].stats;
    }
  }

  /** The matches decide the records: two lists of the same teams with the
      same strengths that are both in step with one season are equal. */
  lemma LedgerDetermines(a: seq<Team>, b: seq<Team>, ms: seq<Match>)
    requires SameRoster(a, b) && Consistent(a, ms) && Consistent(b, ms)
    ensures a == b
  {
    assert forall i :: 0 <= i < |a| ==> a[i] == b[i];
  }
}
