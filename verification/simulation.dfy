/** The match outcome simulator (simulateMatchResult) with its random
    source passed in. Each of the six trials per side draws a uniform
    number in [0, 1) and scores a goal when the draw is below 0.4 times
    that side's share of the combined strength. */
module Simulation {

  const HomeAdvantage := 5
  const TrialsPerSide := 6

  /** The model draws each uniform number as a multiple of 2^-53 in
      [0, 1) (rand.Float64 can also yield finer values near 0); a Draw is
      that multiple's numerator, so the draw's value is d / DrawScale. */
  const DrawScale: nat := 0x20_0000_0000_0000

  type Draw = d: nat | d < DrawScale

  type Draws = s: seq<Draw> | |s| == TrialsPerSide witness [0, 0, 0, 0, 0, 0]

  /** The random numbers one match consumes: six per side. */
  datatype Kickoff = Kickoff(home: Draws, away: Draws)

  /** The random source of a season: the draws for the match at each
      position of the match list. */
  type Oracle = nat -> Kickoff

  /** A trial scores when d / DrawScale < 0.4 * side / total, decided
      exactly by cross-multiplication. A zero total is the float division
      by zero: +Inf for a positive side, NaN (no goal) otherwise. */
  predicate Scores(d: Draw, side: int, total: int)
  {
    if total > 0 then 5 * d * total < 2 * side * DrawScale
    else if total < 0 then 5 * d * total > 2 * side * DrawScale
    else side > 0
  }

  /** Number of scoring trials among the draws. */
  function Goals(draws: seq<Draw>, side: int, total: int): (g: nat)
    ensures g <= |draws|
  {
    if |draws| == 0 then 0
    else Goals(draws[..|draws| - 1], side, total) + (if Scores(draws[|draws| - 1], side, total) then 1 else 0)
  }

  /** The scoreline of a match between teams of these strengths. */
  function SimulateMatchResult(homeStrength: int, awayStrength: int, k: Kickoff): (r: (nat, nat))
    ensures r.0 <= TrialsPerSide && r.1 <= TrialsPerSide
  {
    var home := homeStrength + HomeAdvantage;
    var total := home + awayStrength;
    (Goals(k.home, home, total), Goals(k.away, awayStrength, total))
  }

  /** If every draw that scores at one probability also scores at another,
      the second yields at least as many goals. */
  lemma {:induction false} GoalsMonotone(draws: seq<Draw>, side1: int, total1: int, side2: int, total2: int)
    requires forall i :: 0 <= i < |draws| && Scores(draws[i], side1, total1) ==> Scores(draws[i], side2, total2)
    ensures Goals(draws, side1, total1) <= Goals(draws, side2, total2)
  {
    if |draws| > 0 {
      GoalsMonotone(draws[..|draws| - 1], side1, total1, side2, total2);
    }
  }

  /** Raising the home side's strength raises its scoring probability. */
  lemma HomeTrialMonotone(d: Draw, home1: int, home2: int, away: int)
    requires 0 < home1 <= home2 && 0 < away
    requires Scores(d, home1, home1 + away)
    ensures Scores(d, home2, home2 + away)
  {
    var S := DrawScale;
    assert 5 * d * (home1 + away) < 2 * home1 * S;
    assert 5 * d * away >= 0;
    assert (5 * d - 2 * S) * home1 < 0;
    assert 5 * d - 2 * S < 0;
    assert (home2 - home1) * (5 * d - 2 * S) <= 0;
    assert 5 * d * (home2 + away) - 2 * home2 * S
        == (5 * d * (home1 + away) - 2 * home1 * S) + (home2 - home1) * (5 * d - 2 * S);
  }

  /** Raising the home side's strength lowers the away side's probability. */
  lemma AwayTrialAntitone(d: Draw, home1: int, home2: int, away: int)
    requires 0 < home1 <= home2 && 0 < away
    requires Scores(d, away, home2 + away)
    ensures Scores(d, away, home1 + away)
  {
    assert 5 * d * (home1 + away) <= 5 * d * (home2 + away);
  }

  /** With the same random draws, a stronger home team scores at least as
      many goals and concedes at most as many. */
  lemma StrongerHomeScoresMore(strength1: int, strength2: int, awayStrength: int, k: Kickoff)
    requires 0 < strength1 <= strength2 && 0 < awayStrength
    ensures SimulateMatchResult(strength1, awayStrength, k).0 <= SimulateMatchResult(strength2, awayStrength, k).0
    ensures SimulateMatchResult(strength1, awayStrength, k).1 >= SimulateMatchResult(strength2, awayStrength, k).1
  {
    var h1, h2 := strength1 + HomeAdvantage, strength2 + HomeAdvantage;
    forall i | 0 <= i < |k.home| && Scores(k.home[i], h1, h1 + awayStrength)
      ensures Scores(k.home[i], h2, h2 + awayStrength)
    {
      HomeTrialMonotone(k.home[i], h1, h2, awayStrength);
    }
    GoalsMonotone(k.home, h1, h1 + awayStrength, h2, h2 + awayStrength);
    forall i | 0 <= i < |k.away| && Scores(k.away[i], awayStrength, h2 + awayStrength)
      ensures Scores(k.away[i], awayStrength, h1 + awayStrength)
    {
      AwayTrialAntitone(k.away[i], h1, h2, awayStrength);
    }
    GoalsMonotone(k.away, awayStrength, h2 + awayStrength, awayStrength, h1 + awayStrength);
  }
}
