/** The score correction of the editMatchResult handler, lifted out of the
    HTTP plumbing: find the fixture of a week by its two sides, take its
    stored score back out of both records if it had been played, store the
    new score, mark the match played and apply the new result. */
module Correction {
  import opened Wrappers
  import opened Stats
  import opened Records
  import opened Ledger

  datatype EditError = MatchNotFound

  /** The match is this week's fixture between these home and away sides. */
  predicate IsFixture(m: Match, week: int, home: string, away: string)
  {
    m.week == week && m.homeTeam == home && m.awayTeam == away
  }

  /** First index at or after `from` that holds the fixture. */
  function FindFrom(ms: seq<Match>, week: int, home: string, away: string, from: nat): (r: Option<nat>)
    ensures r.None? <==> forall j :: from <= j < |ms| ==> !IsFixture(ms[j], week, home, away)
    ensures r.Some? ==> from <= r.value < |ms| && IsFixture(ms[r.value], week, home, away)
    ensures r.Some? ==> forall j :: from <= j < r.value ==> !IsFixture(ms[j], week, home, away)
    decreases |ms| - from
  {
    if from >= |ms| then None
    else if IsFixture(ms[from], week, home, away) then Some(from)
    else FindFrom(ms, week, home, away, from + 1)
  }

  /** The match the handler's loop stops at: the first one with this week
      and these sides, if any. */
  function FindMatch(ms: seq<Match>, week: int, home: string, away: string): (r: Option<nat>)
    ensures r.None? <==> forall j :: 0 <= j < |ms| ==> !IsFixture(ms[j], week, home, away)
    ensures r.Some? ==> r.value < |ms| && IsFixture(ms[r.value], week, home, away)
    ensures r.Some? ==> forall j :: 0 <= j < r.value ==> !IsFixture(ms[j], week, home, away)
  {
    FindFrom(ms, week, home, away, 0)
  }

  /** The search looks only at week and sides, so rescoring matches does
      not move it. */
  lemma FindMatchSameFixtures(a: seq<Match>, b: seq<Match>, week: int, home: string, away: string)
    requires SameFixtures(a, b)
    ensures FindMatch(a, week, home, away) == FindMatch(b, week, home, away)
  {
    var ra, rb := FindMatch(a, week, home, away), FindMatch(b, week, home, away);
    assert forall j :: 0 <= j < |a| ==> (IsFixture(a[j], week, home, away) <==> IsFixture(b[j], week, home, away));
  }

  /** `after` is `before` with match j holding the new score as played. */
  predicate Corrects(before: seq<Match>, after: seq<Match>, j: int, homeGoals: int, awayGoals: int)
  {
    0 <= j < |before| && after == before[j := before[j].(homeGoals := homeGoals, awayGoals := awayGoals, played := true)]
  }

  /** Takes match j back out of the books: if it had been played, its stored
      score is retracted from both sides and it counts as unplayed again. */
  function Reopen(teams: seq<Team>, ms: seq<Match>, j: int): (r: (seq<Team>, seq<Match>))
    requires 0 <= j < |ms| && Fielded(teams, ms[j])
    ensures SameRoster(teams, r.0) && r.1 == ms[j := ms[j].(played := false)]
    ensures !ms[j].played ==> r.0 == teams
    ensures UniqueNames(teams) && Consistent(teams, ms) ==> Consistent(r.0, r.1)
  {
    if ms[j].played then
      var r := (RetractAt(teams, ms, j), ms[j := ms[j].(played := false)]);
      assert UniqueNames(teams) && Consistent(teams, ms) ==> Consistent(r.0, r.1) by {
        if UniqueNames(teams) && Consistent(teams, ms) {
          RetractKeepsLedger(teams, ms, j);
        }
      }
      r
    else
      assert ms[j := ms[j].(played := false)] == ms;
      (teams, ms)
  }

  /** Rescores match j: reopens it, stores the new score as played and
      applies it to both sides. */
  function Rescore(teams: seq<Team>, ms: seq<Match>, j: int, homeGoals: int, awayGoals: int): (r: (seq<Team>, seq<Match>))
    requires 0 <= j < |ms| && UniqueNames(teams) && AllFielded(teams, ms)
    ensures SameRoster(teams, r.0) && UniqueNames(r.0) && AllFielded(r.0, r.1) && SameFixtures(ms, r.1)
    ensures Corrects(ms, r.1, j, homeGoals, awayGoals)
    ensures Consistent(teams, ms) ==> Consistent(r.0, r.1)
  {
    var o := Reopen(teams, ms, j);
    SameNamesKeepFielded(teams, ms, o.0, o.1);
    SameNamesKeepUnique(teams, o.0);
    var n := RecordAt(o.0, o.1, j, homeGoals, awayGoals);
    SameRosterTransitive(teams, o.0, n.0);
    SameFixturesTransitive(ms, o.1, n.1);
    SameNamesKeepFielded(teams, ms, n.0, n.1);
    SameNamesKeepUnique(teams, n.0);
    assert n.1 == ms[j := ms[j].(homeGoals := homeGoals, awayGoals := awayGoals, played := true)];
    assert Consistent(teams, ms) ==> Consistent(n.0, n.1) by {
      if Consistent(teams, ms) {
        RecordKeepsLedger(o.0, o.1, j, homeGoals, awayGoals);
      }
    }
    n
  }

  /** Corrects the score of this week's match between these sides. With no
      such match nothing changes and the error is reported; otherwise only
      that match and the records change, and the books stay balanced. */
  function EditMatchResult(l: League, week: int, home: string, away: string, homeGoals: int, awayGoals: int): (r: Result<League, EditError>)
    requires Valid(l)
    ensures r.Failure? <==> forall j :: 0 <= j < |l.matches| ==> !IsFixture(l.matches[j], week, home, away)
    ensures r.Failure? ==> r.error == MatchNotFound
    ensures r.Success? ==> Valid(r.value) && r.value == l.(teams := r.value.teams, matches := r.value.matches)
    ensures r.Success? ==> SameRoster(l.teams, r.value.teams) && SameFixtures(l.matches, r.value.matches)
    ensures r.Success? ==> Corrects(l.matches, r.value.matches, FindMatch(l.matches, week, home, away).value, homeGoals, awayGoals)
    ensures r.Success? && Consistent(l.teams, l.matches) ==> Consistent(r.value.teams, r.value.matches)
  {
    match FindMatch(l.matches, week, home, away)
    case None => Failure(MatchNotFound)
    case Some(j) =>
      var n := Rescore(l.teams, l.matches, j, homeGoals, awayGoals);
      Success(l.(teams := n.0, matches := n.1))
  }

  /** What a rescore does to one team's record: the stored score's
      contribution taken out, the new score's put in. */
  lemma RescoreNetEffect(teams: seq<Team>, ms: seq<Match>, j: int, homeGoals: int, awayGoals: int, k: int)
    requires 0 <= j < |ms| && UniqueNames(teams) && AllFielded(teams, ms)
    requires 0 <= k < |teams| && GoalDiffAgrees(teams[k].stats)
    ensures Rescore(teams, ms, j, homeGoals, awayGoals).0[k].stats
         == Plus(Minus(teams[k].stats, Contribution(ms[j], teams[k].name)),
                 Contribution(Rescore(teams, ms, j, homeGoals, awayGoals).1[j], teams[k].name))
  {
    var o := Reopen(teams, ms, j);
    if ms[j].played {
      RetractedSideLoses(teams, ms, j, k);
    } else {
      assert Minus(teams[k].stats, Zero) == teams[k].stats;
    }
    assert GoalDiffAgrees(o.0[k].stats);
    SameNamesKeepFielded(teams, ms, o.0, o.1);
    SameNamesKeepUnique(teams, o.0);
    RecordedSideGains(o.0, o.1, j, homeGoals, awayGoals, k);
  }

  /** Storing the score a match already holds as played changes nothing. */
  lemma CorrectsSettles(before: seq<Match>, after: seq<Match>, j: int, homeGoals: int, awayGoals: int)
    requires Corrects(before, after, j, homeGoals, awayGoals)
    ensures after[j := after[j].(homeGoals := homeGoals, awayGoals := awayGoals, played := true)] == after
  {
  }

  /** Storing a played match's old score again restores the matches. */
  lemma CorrectsBack(before: seq<Match>, after: seq<Match>, j: int, homeGoals: int, awayGoals: int)
    requires Corrects(before, after, j, homeGoals, awayGoals) && before[j].played
    ensures after[j := after[j].(homeGoals := before[j].homeGoals, awayGoals := before[j].awayGoals, played := true)] == before
  {
  }

  /** The books decide a rescore: any list of the same teams that is in
      step with the rescored matches is what Rescore returns. */
  lemma RescoreDetermined(teams: seq<Team>, ms: seq<Match>, j: int, homeGoals: int, awayGoals: int, target: seq<Team>)
    requires 0 <= j < |ms| && UniqueNames(teams) && AllFielded(teams, ms) && Consistent(teams, ms)
    requires SameRoster(teams, target)
    requires Consistent(target, ms[j := ms[j].(homeGoals := homeGoals, awayGoals := awayGoals, played := true)])
    ensures Rescore(teams, ms, j, homeGoals, awayGoals) == (target, ms[j := ms[j].(homeGoals := homeGoals, awayGoals := awayGoals, played := true)])
  {
    var n := Rescore(teams, ms, j, homeGoals, awayGoals);
    LedgerDetermines(n.0, target, n.1);
  }

  /** Rescoring a match with the score it already holds as played changes
      nothing in a balanced season. */
  lemma RescoreTwice(teams: seq<Team>, ms: seq<Match>, j: int, homeGoals: int, awayGoals: int)
    requires 0 <= j < |ms| && UniqueNames(teams) && AllFielded(teams, ms) && Consistent(teams, ms)
    ensures var n := Rescore(teams, ms, j, homeGoals, awayGoals);
            Rescore(n.0, n.1, j, homeGoals, awayGoals) == n
  {
    var n := Rescore(teams, ms, j, homeGoals, awayGoals);
    CorrectsSettles(ms, n.1, j, homeGoals, awayGoals);
    RescoreDetermined(n.0, n.1, j, homeGoals, awayGoals, n.0);
  }

  /** Rescoring a played match and then rescoring it with its stored score
      restores a balanced season. */
  lemma RescoreBack(teams: seq<Team>, ms: seq<Match>, j: int, homeGoals: int, awayGoals: int)
    requires 0 <= j < |ms| && UniqueNames(teams) && AllFielded(teams, ms) && Consistent(teams, ms)
    requires ms[j].played
    ensures var n := Rescore(teams, ms, j, homeGoals, awayGoals);
            Rescore(n.0, n.1, j, ms[j].homeGoals, ms[j].awayGoals) == (teams, ms)
  {
    var n := Rescore(teams, ms, j, homeGoals, awayGoals);
    var m := ms[j];
    CorrectsBack(ms, n.1, j, homeGoals, awayGoals);
    SameRosterSymmetric(teams, n.0);
    RescoreDetermined(n.0, n.1, j, m.homeGoals, m.awayGoals, teams);
  }

  /** A correction is the rescore of the match the search finds. */
  lemma EditIsRescore(l: League, week: int, home: string, away: string, homeGoals: int, awayGoals: int)
    requires Valid(l) && FindMatch(l.matches, week, home, away).Some?
    ensures var n := Rescore(l.teams, l.matches, FindMatch(l.matches, week, home, away).value, homeGoals, awayGoals);
            EditMatchResult(l, week, home, away, homeGoals, awayGoals) == Success(l.(teams := n.0, matches := n.1))
  {
  }

  lemma Bystander(m: Match, name: string)
    requires name != m.homeTeam && name != m.awayTeam
    ensures Contribution(m, name) == Zero
  {
  }

  lemma NoChange(s: TeamStats)
    ensures Plus(Minus(s, Zero), Zero) == s
  {
  }

  /** The net effect of a correction on a team whose goal difference is in
      step with its goals: its record before the match (the stored score
      taken out, if the match had been played) with only the new score
      applied. A team that is neither side is left exactly as it was. */
  lemma EditNetEffect(l: League, week: int, home: string, away: string, homeGoals: int, awayGoals: int, r: League, k: int)
    requires Valid(l) && EditMatchResult(l, week, home, away, homeGoals, awayGoals) == Success(r)
    requires 0 <= k < |l.teams| && GoalDiffAgrees(l.teams[k].stats)
    ensures var j := FindMatch(l.matches, week, home, away).value;
            r.teams[k].stats == Plus(Minus(l.teams[k].stats, Contribution(l.matches[j], l.teams[k].name)),
                                     Contribution(r.matches[j], l.teams[k].name))
    ensures l.teams[k].name != home && l.teams[k].name != away ==> r.teams[k] == l.teams[k]
  {
    var j := FindMatch(l.matches, week, home, away).value;
    EditIsRescore(l, week, home, away, homeGoals, awayGoals);
    RescoreNetEffect(l.teams, l.matches, j, homeGoals, awayGoals, k);
    var name := l.teams[k].name;
    if name != home && name != away {
      Bystander(l.matches[j], name);
      Bystander(r.matches[j], name);
      NoChange(l.teams[k].stats);
    }
  }

  /** A balanced league whose found match is already played with the
      given score is left as it is by the correction. */
  lemma EditOfRescore(l: League, week: int, home: string, away: string, homeGoals: int, awayGoals: int)
    requires Valid(l) && Consistent(l.teams, l.matches) && FindMatch(l.matches, week, home, away).Some?
    requires var m := l.matches[FindMatch(l.matches, week, home, away).value];
             m.played && m.homeGoals == homeGoals && m.awayGoals == awayGoals
    ensures EditMatchResult(l, week, home, away, homeGoals, awayGoals) == Success(l)
  {
    var j := FindMatch(l.matches, week, home, away).value;
    assert l.matches[j := l.matches[j].(homeGoals := homeGoals, awayGoals := awayGoals, played := true)] == l.matches;
    RescoreDetermined(l.teams, l.matches, j, homeGoals, awayGoals, l.teams);
    EditIsRescore(l, week, home, away, homeGoals, awayGoals);
  }

  /** Entering the same correction twice is the same as entering it once. */
  lemma EditIdempotent(l: League, week: int, home: string, away: string, homeGoals: int, awayGoals: int, r: League)
    requires Valid(l) && Consistent(l.teams, l.matches)
    requires EditMatchResult(l, week, home, away, homeGoals, awayGoals) == Success(r)
    ensures EditMatchResult(r, week, home, away, homeGoals, awayGoals) == Success(r)
  {
    var j := FindMatch(l.matches, week, home, away).value;
    EditIsRescore(l, week, home, away, homeGoals, awayGoals);
    FindMatchSameFixtures(l.matches, r.matches, week, home, away);
    EditOfRescore(r, week, home, away, homeGoals, awayGoals);
  }

  /** Correcting a played match and then correcting it back to its stored
      score restores the league exactly. */
  lemma EditUndo(l: League, week: int, home: string, away: string, homeGoals: int, awayGoals: int, r: League)
    requires Valid(l) && Consistent(l.teams, l.matches)
    requires EditMatchResult(l, week, home, away, homeGoals, awayGoals) == Success(r)
    requires l.matches[FindMatch(l.matches, week, home, away).value].played
    ensures var m := l.matches[FindMatch(l.matches, week, home, away).value];
            EditMatchResult(r, week, home, away, m.homeGoals, m.awayGoals) == Success(l)
  {
    var j := FindMatch(l.matches, week, home, away).value;
    var m := l.matches[j];
    EditIsRescore(l, week, home, away, homeGoals, awayGoals);
    FindMatchSameFixtures(l.matches, r.matches, week, home, away);
    RescoreBack(l.teams, l.matches, j, homeGoals, awayGoals);
    EditIsRescore(r, week, home, away, m.homeGoals, m.awayGoals);
  }
}
