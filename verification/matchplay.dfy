/** Resolving one match (PlayMatch): simulate a score, store it, and apply
    it to both sides in mirror image. */
module MatchPlay {
  import opened Stats
  import opened Records
  import opened Simulation

  /** A match together with its two sides after it is resolved. */
  datatype Resolved = Resolved(game: Match, home: Team, away: Team)

  /** Stores a score in a match, marks it played and applies it to both
      sides: the shared tail of PlayMatch and of a score correction. Each
      side's result is classified from its own goals, so the two are mirrored. */
  function RecordScore(m: Match, home: Team, away: Team, homeGoals: int, awayGoals: int): (r: Resolved)
    ensures r.game == m.(homeGoals := homeGoals, awayGoals := awayGoals, played := true)
    ensures r.home == home.(stats := UpdateStats(home.stats, homeGoals, awayGoals, Classify(homeGoals, awayGoals)))
    ensures r.away == away.(stats := UpdateStats(away.stats, awayGoals, homeGoals, Classify(awayGoals, homeGoals)))
  {
    var game := m.(homeGoals := homeGoals, awayGoals := awayGoals, played := true);
    var (homeResult, awayResult) :=
      if homeGoals > awayGoals then (Win, Loss)
      else if homeGoals < awayGoals then (Loss, Win)
      else (Draw, Draw);
    Resolved(game, home.(stats := UpdateStats(home.stats, homeGoals, awayGoals, homeResult)),
                   away.(stats := UpdateStats(away.stats, awayGoals, homeGoals, awayResult)))
  }

  /** Plays a match unless it is already played. */
  function PlayMatch(m: Match, home: Team, away: Team, k: Kickoff): (r: Resolved)
    ensures m.played ==> r == Resolved(m, home, away)
    ensures !m.played ==> r.game.played && SameFixture(m, r.game)
    ensures !m.played ==> 0 <= r.game.homeGoals <= TrialsPerSide && 0 <= r.game.awayGoals <= TrialsPerSide
    ensures !m.played ==> r == RecordScore(m, home, away, r.game.homeGoals, r.game.awayGoals)
    ensures !m.played ==>
      && r.home.stats.played == home.stats.played + 1 && r.away.stats.played == away.stats.played + 1
      && (r.home.stats.won == home.stats.won + 1 <==> r.away.stats.lost == away.stats.lost + 1)
      && (r.home.stats.lost == home.stats.lost + 1 <==> r.away.stats.won == away.stats.won + 1)
      && (r.home.stats.drawn == home.stats.drawn + 1 <==> r.away.stats.drawn == away.stats.drawn + 1)
    ensures r.home.name == home.name && r.home.strength == home.strength && r.home.baseStrength == home.baseStrength
    ensures r.away.name == away.name && r.away.strength == away.strength && r.away.baseStrength == away.baseStrength
  {
    if m.played then Resolved(m, home, away)
    else
      var (homeGoals, awayGoals) := SimulateMatchResult(home.strength, away.strength, k);
      RecordScore(m, home, away, homeGoals, awayGoals)
  }
}
