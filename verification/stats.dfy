/** Per-team season statistics, applying one match result to them and
    retracting it again (UpdateStats and reverseMatchResult in main.go). */
module Stats {

  /** The eight counters of a team's record. */
  datatype TeamStats = TeamStats(
    played: int, won: int, drawn: int, lost: int,
    goalsFor: int, goalsAgainst: int, goalDiff: int, points: int)

  /** The record every team starts the season with. */
  const Zero := TeamStats(0, 0, 0, 0, 0, 0, 0, 0)

  const WinPoints := 3
  const DrawPoints := 1

  /** The result labels "W", "D" and "L" that UpdateStats switches on. */
  datatype Outcome = Win | Draw | Loss

  /** The result one side gets from its own and the opponent's goals. */
  function Classify(goalsFor: int, goalsAgainst: int): (o: Outcome)
    ensures o == Win <==> goalsFor > goalsAgainst
    ensures o == Loss <==> goalsFor < goalsAgainst
  {
    if goalsFor > goalsAgainst then Win
    else if goalsFor < goalsAgainst then Loss
    else Draw
  }

  /** The opponent's view of the same result. */
  function Mirror(o: Outcome): Outcome
  {
    match o
    case Win => Loss
    case Draw => Draw
    case Loss => Win
  }

  /** The goal difference agrees with the two goal counters. */
  predicate GoalDiffAgrees(s: TeamStats)
  {
    s.goalDiff == s.goalsFor - s.goalsAgainst
  }

  /** All derived counters agree with the basic ones. */
  predicate WellFormed(s: TeamStats)
  {
    && GoalDiffAgrees(s)
    && s.points == 3 * s.won + s.drawn
    && s.played == s.won + s.drawn + s.lost
  }

  /** Applies one match: one more game, the goals added, and the counter
      named by `result` (with its points) incremented. */
  function UpdateStats(s: TeamStats, goalsFor: int, goalsAgainst: int, result: Outcome): (r: TeamStats)
    ensures r.played == s.played + 1
    ensures r.goalsFor == s.goalsFor + goalsFor && r.goalsAgainst == s.goalsAgainst + goalsAgainst
    ensures GoalDiffAgrees(r)
    ensures WellFormed(s) ==> WellFormed(r)
    ensures result == Win ==> r.won == s.won + 1 && r.drawn == s.drawn && r.lost == s.lost && r.points == s.points + WinPoints
    ensures result == Draw ==> r.won == s.won && r.drawn == s.drawn + 1 && r.lost == s.lost && r.points == s.points + DrawPoints
    ensures result == Loss ==> r.won == s.won && r.drawn == s.drawn && r.lost == s.lost + 1 && r.points == s.points
  {
    var gf := s.goalsFor + goalsFor;
    var ga := s.goalsAgainst + goalsAgainst;
    var t := s.(played := s.played + 1, goalsFor := gf, goalsAgainst := ga, goalDiff := gf - ga);
    match result
    case Win => t.(won := t.won + 1, points := t.points + WinPoints)
    case Draw => t.(drawn := t.drawn + 1, points := t.points + DrawPoints)
    case Loss => t.(lost := t.lost + 1)
  }

  /** Retracts one match: classifies the given goals the same way a caller
      of UpdateStats does and subtracts instead of adding. */
  function ReverseMatchResult(s: TeamStats, goalsFor: int, goalsAgainst: int): (r: TeamStats)
    ensures r.played == s.played - 1
    ensures r.goalsFor == s.goalsFor - goalsFor && r.goalsAgainst == s.goalsAgainst - goalsAgainst
    ensures GoalDiffAgrees(r)
    ensures WellFormed(s) ==> WellFormed(r)
    ensures goalsFor > goalsAgainst ==> r.won == s.won - 1 && r.drawn == s.drawn && r.lost == s.lost && r.points == s.points - WinPoints
    ensures goalsFor == goalsAgainst ==> r.won == s.won && r.drawn == s.drawn - 1 && r.lost == s.lost && r.points == s.points - DrawPoints
    ensures goalsFor < goalsAgainst ==> r.won == s.won && r.drawn == s.drawn && r.lost == s.lost - 1 && r.points == s.points
  {
    var gf := s.goalsFor - goalsFor;
    var ga := s.goalsAgainst - goalsAgainst;
    var t := s.(played := s.played - 1, goalsFor := gf, goalsAgainst := ga, goalDiff := gf - ga);
    if goalsFor > goalsAgainst then t.(won := t.won - 1, points := t.points - WinPoints)
    else if goalsFor < goalsAgainst then t.(lost := t.lost - 1)
    else t.(drawn := t.drawn - 1, points := t.points - DrawPoints)
  }

  /** Applying a result and then retracting the same goals restores the
      record exactly, provided its goal difference was in step with its
      goals (UpdateStats recomputes that field rather than adjusting it). */
  lemma ApplyThenRetract(s: TeamStats, goalsFor: int, goalsAgainst: int)
    requires GoalDiffAgrees(s)
    ensures ReverseMatchResult(UpdateStats(s, goalsFor, goalsAgainst, Classify(goalsFor, goalsAgainst)), goalsFor, goalsAgainst) == s
  {
  }

  /** The other direction: retracting and then re-applying the same goals. */
  lemma RetractThenApply(s: TeamStats, goalsFor: int, goalsAgainst: int)
    requires GoalDiffAgrees(s)
    ensures UpdateStats(ReverseMatchResult(s, goalsFor, goalsAgainst), goalsFor, goalsAgainst, Classify(goalsFor, goalsAgainst)) == s
  {
  }

  /** The two sides of one score always get mirrored results. */
  lemma ClassifyMirrors(goalsFor: int, goalsAgainst: int)
    ensures Classify(goalsAgainst, goalsFor) == Mirror(Classify(goalsFor, goalsAgainst))
  {
  }

  // Records as an additive group: the ledger of a season adds up one
  // contribution per played match.

  function Plus(a: TeamStats, b: TeamStats): TeamStats
  {
    TeamStats(a.played + b.played, a.won + b.won, a.drawn + b.drawn, a.lost + b.lost,
              a.goalsFor + b.goalsFor, a.goalsAgainst + b.goalsAgainst,
              a.goalDiff + b.goalDiff, a.points + b.points)
  }

  function Minus(a: TeamStats, b: TeamStats): TeamStats
  {
    TeamStats(a.played - b.played, a.won - b.won, a.drawn - b.drawn, a.lost - b.lost,
              a.goalsFor - b.goalsFor, a.goalsAgainst - b.goalsAgainst,
              a.goalDiff - b.goalDiff, a.points - b.points)
  }

  /** What one match with this score adds to a side's record. */
  function Delta(goalsFor: int, goalsAgainst: int): (d: TeamStats)
    ensures GoalDiffAgrees(d) && d.points == 3 * d.won + d.drawn && d.played == d.won + d.drawn + d.lost
    ensures d.played == 1
  {
    UpdateStats(Zero, goalsFor, goalsAgainst, Classify(goalsFor, goalsAgainst))
  }

  /** Applying a result adds its Delta to a record in step with its goals. */
  lemma UpdateIsPlus(s: TeamStats, goalsFor: int, goalsAgainst: int)
    requires GoalDiffAgrees(s)
    ensures UpdateStats(s, goalsFor, goalsAgainst, Classify(goalsFor, goalsAgainst)) == Plus(s, Delta(goalsFor, goalsAgainst))
  {
  }

  /** Retracting a result subtracts its Delta from a record in step with its goals. */
  lemma ReverseIsMinus(s: TeamStats, goalsFor: int, goalsAgainst: int)
    requires GoalDiffAgrees(s)
    ensures ReverseMatchResult(s, goalsFor, goalsAgainst) == Minus(s, Delta(goalsFor, goalsAgainst))
  {
  }
}
