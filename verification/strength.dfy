/** The strength adapter (UpdateTeamStrength): after a week, nudge a
    team's strength by its points per game and its league position, kept
    within fifteen of its baseline and within 1..100. */
module Strength {
  import opened Stats
  import opened Records

  const MaxDrift := 15
  const MinStrength := 1
  const MaxStrength := 100
  const TopPlace := 1
  const LastPlace := 4

  /** points / played >= num / den, for a positive den and nonzero played,
      decided exactly by cross-multiplication. */
  predicate PpgAtLeast(s: TeamStats, num: int, den: int)
  {
    if s.played > 0 then den * s.points >= num * s.played else den * s.points <= num * s.played
  }

  /** points / played <= num / den, for a positive den and nonzero played. */
  predicate PpgAtMost(s: TeamStats, num: int, den: int)
  {
    if s.played > 0 then den * s.points <= num * s.played else den * s.points >= num * s.played
  }

  /** Performance adjustment: the bands >= 2.5, >= 2.0, <= 1.0, <= 1.5 are
      tried in this order and the first that holds wins, so a rate of
      exactly 1.0 takes -2. */
  function Band(s: TeamStats): (b: int)
    ensures -2 <= b <= 2
    ensures s.played > 0 ==> (b == 2 <==> 2 * s.points >= 5 * s.played)
    ensures s.played > 0 ==> (b == 1 <==> 2 * s.played <= s.points && 2 * s.points < 5 * s.played)
    ensures s.played > 0 ==> (b == -2 <==> s.points <= s.played)
    ensures s.played > 0 ==> (b == -1 <==> s.played < s.points && 2 * s.points <= 3 * s.played)
    ensures s.played > 0 ==> (b == 0 <==> 3 * s.played < 2 * s.points && s.points < 2 * s.played)
  {
    if PpgAtLeast(s, 5, 2) then 2
    else if PpgAtLeast(s, 2, 1) then 1
    else if PpgAtMost(s, 1, 1) then -2
    else if PpgAtMost(s, 3, 2) then -1
    else 0
  }

  /** The same chain over the rational points-per-game rate, as the source
      writes it with a float. */
  function BandOfRate(ppg: real): int
  {
    if ppg >= 2.5 then 2
    else if ppg >= 2.0 then 1
    else if ppg <= 1.0 then -2
    else if ppg <= 1.5 then -1
    else 0
  }

  lemma RateAtLeast(points: int, played: int, c: real)
    requires played != 0
    ensures points as real / played as real >= c <==>
      (if played > 0 then points as real >= c * played as real else points as real <= c * played as real)
  {
    var q := played as real;
    var p := points as real;
    assert p == (p / q) * q;
  }

  lemma RateAtMost(points: int, played: int, c: real)
    requires played != 0
    ensures points as real / played as real <= c <==>
      (if played > 0 then points as real <= c * played as real else points as real >= c * played as real)
  {
    var q := played as real;
    var p := points as real;
    assert p == (p / q) * q;
  }

  /** The integer bands agree with the source's points-per-game chain for
      every record with at least one game counted. */
  lemma BandMatchesRate(s: TeamStats)
    requires s.played != 0
    ensures Band(s) == BandOfRate(s.points as real / s.played as real)
  {
    RateAtLeast(s.points, s.played, 2.5);
    RateAtLeast(s.points, s.played, 2.0);
    RateAtMost(s.points, s.played, 1.0);
    RateAtMost(s.points, s.played, 1.5);
  }

  /** More points from the same number of games never lowers the band. */
  lemma BandMonotone(s: TeamStats, t: TeamStats)
    requires s.played == t.played > 0 && s.points <= t.points
    ensures Band(s) <= Band(t)
  {
  }

  /** Position adjustment: +1 for the leader, -1 for the last place. */
  function PositionTerm(position: int): (d: int)
    ensures d == 1 <==> position == TopPlace
    ensures d == -1 <==> position == LastPlace
    ensures d == 0 <==> position != TopPlace && position != LastPlace
  {
    if position == TopPlace then 1 else if position == LastPlace then -1 else 0
  }

  /** The signed change before clamping. */
  function Change(t: Team, position: int): (c: int)
    ensures -3 <= c <= 3
  {
    Band(t.stats) + PositionTerm(position)
  }

  function Clamp(x: int, lo: int, hi: int): int
  {
    if x < lo then lo else if x > hi then hi else x
  }

  /** Bounds of the strength a team can end up with: the baseline window
      intersected with 1..100. */
  function WindowLow(t: Team): int
  {
    if t.baseStrength - MaxDrift > MinStrength then t.baseStrength - MaxDrift else MinStrength
  }

  function WindowHigh(t: Team): int
  {
    if t.baseStrength + MaxDrift < MaxStrength then t.baseStrength + MaxDrift else MaxStrength
  }

  predicate InWindow(t: Team)
  {
    WindowLow(t) <= t.strength <= WindowHigh(t)
  }

  /** Adjusts one team's strength for its points per game and `position`.
      A team without a game counted is left alone; otherwise only the
      strength changes, by Change, clamped first to the baseline window and
      then to 1..100. */
  function UpdateTeamStrength(t: Team, position: int): (r: Team)
    ensures r.name == t.name && r.baseStrength == t.baseStrength && r.stats == t.stats
    ensures t.stats.played == 0 ==> r == t
    ensures t.stats.played != 0 ==> MinStrength <= r.strength <= MaxStrength
    ensures t.stats.played != 0 && WindowLow(t) <= WindowHigh(t) ==> InWindow(r)
    ensures t.stats.played != 0 && WindowLow(t) <= t.strength + Change(t, position) <= WindowHigh(t) ==>
      r.strength == t.strength + Change(t, position)
    ensures t.stats.played != 0 && WindowLow(t) <= WindowHigh(t) && t.strength + Change(t, position) > WindowHigh(t) ==>
      r.strength == WindowHigh(t)
    ensures t.stats.played != 0 && WindowLow(t) <= WindowHigh(t) && t.strength + Change(t, position) < WindowLow(t) ==>
      r.strength == WindowLow(t)
    ensures t.stats.played != 0 && InWindow(t) && Change(t, position) >= 0 ==>
      t.strength <= r.strength <= t.strength + Change(t, position)
    ensures t.stats.played != 0 && InWindow(t) && Change(t, position) <= 0 ==>
      t.strength + Change(t, position) <= r.strength <= t.strength
  {
    if t.stats.played == 0 then t
    else
      var raised := t.strength + Change(t, position);
      var drifted := Clamp(raised, t.baseStrength - MaxDrift, t.baseStrength + MaxDrift);
      t.(strength := Clamp(drifted, MinStrength, MaxStrength))
  }

  /** A team whose strength lies in its window stays there, whatever its
      record and position. */
  lemma StrengthStaysInWindow(t: Team, position: int)
    requires InWindow(t)
    ensures InWindow(UpdateTeamStrength(t, position))
  {
  }

  /** Whether a team is in its window depends only on its strengths. */
  lemma SameRosterKeepsWindow(a: seq<Team>, b: seq<Team>)
    requires SameRoster(a, b)
    ensures forall i :: 0 <= i < |a| && InWindow(a[i]) ==> InWindow(b[i])
  {
  }
}
