/** The strength loop of PlayNextWeek on the records after an opening
    week in which Arsenal beat Chelsea 1-0 and Manchester City beat
    Liverpool 2-0: the loop as the source runs it skips the leader and
    adjusts Chelsea twice; the corrected pass adjusts every team once. */
module StrengthLoop {
  import opened Stats
  import opened Records
  import opened Standings
  import opened Strength
  import opened Season
  import opened Fixtures

  const ChelseaLost := Team(Chelsea, 80, 80, TeamStats(1, 0, 0, 1, 0, 1, -1, 0))
  const ArsenalWon := Team(Arsenal, 85, 85, TeamStats(1, 1, 0, 0, 1, 0, 1, 3))
  const CityWon := Team(ManchesterCity, 82, 82, TeamStats(1, 1, 0, 0, 2, 0, 2, 3))
  const LiverpoolLost := Team(Liverpool, 90, 90, TeamStats(1, 0, 0, 1, 0, 2, -2, 0))

  /** The teams in the order NewLeague lists them, after the opening week. */
  const AfterOpeningWeek := [ChelseaLost] + [ArsenalWon] + [CityWon] + [LiverpoolLost]

  /** One more team is one more insertion into the table so far. */
  lemma TableStep(s: seq<Team>, t: seq<Team>, x: Team)
    requires GetTable(s) == t
    ensures GetTable(s + [x]) == Insert(t, x)
  {
    assert (s + [x])[..|s|] == s;
  }

  lemma TableOfOne(c: Team)
    ensures GetTable([c]) == [c]
  {
    assert [c][..0] == [];
  }

  lemma InsertBefore(c: Team, a: Team)
    requires Outranks(a, c)
    ensures Insert([c], a) == [a, c]
  {
    assert [c][..0] == [];
  }

  lemma InsertBeforeTwo(a: Team, c: Team, m: Team)
    requires Outranks(a, c) && Outranks(m, c) && Outranks(m, a)
    ensures Insert([a, c], m) == [m, a, c]
  {
    InsertBefore(a, m);
    assert [a, c][..1] == [a];
  }

  lemma InsertAfterThree(m: Team, a: Team, c: Team, l: Team)
    requires Outranks(a, c) && Outranks(m, c) && Outranks(m, a) && !Outranks(l, c)
    ensures Insert([m, a, c], l) == [m, a, c, l]
  {
    assert Sorted([m, a, c]);
  }

  lemma TableOfTwo(c: Team, a: Team)
    requires Outranks(a, c)
    ensures GetTable([c] + [a]) == [a, c]
  {
    TableOfOne(c);
    TableStep([c], [c], a);
    InsertBefore(c, a);
  }

  lemma TableOfThree(c: Team, a: Team, m: Team)
    requires Outranks(a, c) && Outranks(m, c) && Outranks(m, a)
    ensures GetTable([c] + [a] + [m]) == [m, a, c]
  {
    TableOfTwo(c, a);
    TableStep([c] + [a], [a, c], m);
    InsertBeforeTwo(a, c, m);
  }

  /** The insertion sort on four teams whose first is overtaken by the
      second and third, the third also overtaking the second, and the
      fourth overtaking none. */
  lemma TableOfFour(c: Team, a: Team, m: Team, l: Team)
    requires Outranks(a, c) && Outranks(m, c) && Outranks(m, a) && !Outranks(l, c)
    ensures GetTable([c] + [a] + [m] + [l]) == [m, a, c, l]
  {
    TableOfThree(c, a, m);
    TableStep([c] + [a] + [m], [m, a, c], l);
    InsertAfterThree(m, a, c, l);
  }

  /** City on goal difference, then Arsenal, Chelsea, Liverpool. */
  lemma OpeningWeekTable()
    ensures GetTable(AfterOpeningWeek) == [CityWon, ArsenalWon, ChelseaLost, LiverpoolLost]
  {
    TableOfFour(ChelseaLost, ArsenalWon, CityWon, LiverpoolLost);
  }

  /** A team of a list without repeated names sits at its own index + 1. */
  lemma PositionOfIndex(teams: seq<Team>, i: int)
    requires UniqueNames(teams) && 0 <= i < |teams|
    ensures PositionIn(teams, teams[i].name) == i + 1
  {
    assert HasTeam(teams, teams[i].name);
  }

  /** One turn of the loop as written that adjusts a team: it sorts the
      list and updates the team at its place in the sorted list. */
  lemma AsWrittenStep(teams: seq<Team>, i: nat, table: seq<Team>, p: int)
    requires i < |teams| && teams[i].stats.played != 0
    requires GetTable(teams) == table && PositionIn(table, teams[i].name) == p && 1 <= p <= |table|
    ensures StrengthPassAsWritten(teams, i) == StrengthPassAsWritten(table[p - 1 := UpdateTeamStrength(table[p - 1], p)], i + 1)
  {
  }

  /** Updating one team's strength keeps the list in table order and its
      names distinct: neither depends on strengths. */
  lemma UpdateKeepsOrder(teams: seq<Team>, i: int, p: int, next: seq<Team>)
    requires Sorted(teams) && UniqueNames(teams) && 0 <= i < |teams|
    requires next == teams[i := UpdateTeamStrength(teams[i], p)]
    ensures Sorted(next) && UniqueNames(next)
  {
    assert forall k :: 0 <= k < |teams| ==> next[k].stats == teams[k].stats && next[k].name == teams[k].name;
  }

  /** On a list already in table order, a turn of the loop as written
      updates the team at index i with place i + 1. */
  lemma SortedStep(teams: seq<Team>, i: nat, next: seq<Team>)
    requires Sorted(teams) && UniqueNames(teams) && i < |teams|
    requires next == teams[i := UpdateTeamStrength(teams[i], i + 1)]
    ensures StrengthPassAsWritten(teams, i) == StrengthPassAsWritten(next, i + 1)
  {
    if teams[i].stats.played != 0 {
      SortedTableIsItself(teams);
      PositionOfIndex(teams, i);
      AsWrittenStep(teams, i, teams, i + 1);
    } else {
      assert next == teams;
    }
  }

  lemma AsWrittenAtEnd(teams: seq<Team>, i: nat)
    requires i >= |teams|
    ensures StrengthPassAsWritten(teams, i) == teams
  {
  }

  /** A list that keeps `next` before i + 1 and updates it from there on
      keeps `teams` before i and updates it from i on, when `next` is
      `teams` with index i updated. */
  lemma UpdatedFrom(teams: seq<Team>, i: int, next: seq<Team>, r: seq<Team>)
    requires 0 <= i < |teams| && next == teams[i := UpdateTeamStrength(teams[i], i + 1)] && |r| == |teams|
    requires forall k :: 0 <= k < i + 1 ==> r[k] == next[k]
    requires forall k :: i + 1 <= k < |teams| ==> r[k] == UpdateTeamStrength(next[k], k + 1)
    ensures forall k :: 0 <= k < i ==> r[k] == teams[k]
    ensures forall k :: i <= k < |teams| ==> r[k] == UpdateTeamStrength(teams[k], k + 1)
  {
    assert r[i] == next[i];
  }

  /** From index i on, the loop as written over a list in table order
      updates each remaining team once, with its place, and leaves the
      teams before i as they are. */
  lemma {:induction false} AsWrittenOnSorted(teams: seq<Team>, i: nat)
    requires Sorted(teams) && UniqueNames(teams) && i <= |teams|
    ensures |StrengthPassAsWritten(teams, i)| == |teams|
    ensures forall k :: 0 <= k < i ==> StrengthPassAsWritten(teams, i)[k] == teams[k]
    ensures forall k :: i <= k < |teams| ==> StrengthPassAsWritten(teams, i)[k] == UpdateTeamStrength(teams[k], k + 1)
    decreases |teams| - i
  {
    if i < |teams| {
      var next := teams[i := UpdateTeamStrength(teams[i], i + 1)];
      UpdateKeepsOrder(teams, i, i + 1, next);
      SortedStep(teams, i, next);
      AsWrittenOnSorted(next, i + 1);
      UpdatedFrom(teams, i, next, StrengthPassAsWritten(next, i + 1));
    } else {
      AsWrittenAtEnd(teams, i);
    }
  }

  /** When the list is already in table order the loop as written and the
      corrected pass agree: the defect shows only when a week has changed
      the order of the standings. */
  lemma AsWrittenAgreesWhenSorted(teams: seq<Team>)
    requires Sorted(teams) && UniqueNames(teams)
    ensures StrengthPassAsWritten(teams, 0) == StrengthPass(teams)
  {
    AsWrittenOnSorted(teams, 0);
    SortedTableIsItself(teams);
    forall k | 0 <= k < |teams|
      ensures StrengthPass(teams)[k] == UpdateTeamStrength(teams[k], k + 1)
    {
      StrengthPassAt(teams, k);
      PositionOfIndex(teams, k);
    }
  }

  /** Four teams with distinct names. */
  lemma DistinctFour(w: Team, x: Team, y: Team, z: Team)
    requires w.name != x.name && w.name != y.name && w.name != z.name
    requires x.name != y.name && x.name != z.name && y.name != z.name
    ensures UniqueNames([w, x, y, z])
  {
  }

  /** A list of four is the display of its entries. */
  lemma FourEntries(r: seq<Team>, w: Team, x: Team, y: Team, z: Team)
    requires |r| == 4 && r[0] == w && r[1] == x && r[2] == y && r[3] == z
    ensures r == [w, x, y, z]
  {
  }

  /** The standings after the opening week. */
  const OpeningTable := [CityWon, ArsenalWon, ChelseaLost, LiverpoolLost]

  lemma OpeningNamesDistinct()
    ensures UniqueNames(OpeningTable)
  {
    DistinctFour(CityWon, ArsenalWon, ChelseaLost, LiverpoolLost);
  }

  /** Each team's update for its place after the opening week: one point
      per game or fewer costs two, a win rate of three per game gains two,
      and the leader and the last place gain and lose one more. */
  lemma ChelseaDrops()
    ensures UpdateTeamStrength(ChelseaLost, 3) == ChelseaLost.(strength := 78)
    ensures UpdateTeamStrength(ChelseaLost.(strength := 78), 3) == ChelseaLost.(strength := 76)
  {
  }

  lemma ArsenalRises()
    ensures UpdateTeamStrength(ArsenalWon, 2) == ArsenalWon.(strength := 87)
  {
  }

  lemma CityRises()
    ensures UpdateTeamStrength(CityWon, 1) == CityWon.(strength := 85)
  {
  }

  lemma LiverpoolDrops()
    ensures UpdateTeamStrength(LiverpoolLost, 4) == LiverpoolLost.(strength := 87)
  {
  }

  /** The corrected pass gives the team at index k the place at which its
      name stands in the table. */
  lemma PassAtIndex(teams: seq<Team>, table: seq<Team>, k: int, q: int)
    requires GetTable(teams) == table && UniqueNames(table)
    requires 0 <= k < |teams| && 0 <= q < |table| && table[q].name == teams[k].name
    ensures StrengthPass(teams)[k] == UpdateTeamStrength(teams[k], q + 1)
  {
    StrengthPassAt(teams, k);
    PositionOfIndex(table, q);
  }

  /** The corrected pass over four teams whose table holds the third
      team first, the second second, the first third and the fourth last. */
  lemma PassOnFour(teams: seq<Team>, table: seq<Team>)
    requires GetTable(teams) == table && UniqueNames(table) && |teams| == 4
    requires table[0].name == teams[2].name && table[1].name == teams[1].name
    requires table[2].name == teams[0].name && table[3].name == teams[3].name
    ensures StrengthPass(teams)[0] == UpdateTeamStrength(teams[0], 3)
    ensures StrengthPass(teams)[1] == UpdateTeamStrength(teams[1], 2)
    ensures StrengthPass(teams)[2] == UpdateTeamStrength(teams[2], 1)
    ensures StrengthPass(teams)[3] == UpdateTeamStrength(teams[3], 4)
  {
    PassAtIndex(teams, table, 0, 2);
    PassAtIndex(teams, table, 1, 1);
    PassAtIndex(teams, table, 2, 0);
    PassAtIndex(teams, table, 3, 3);
  }

  /** The first turn of the loop as written when the first team listed
      stands third in the table: it sorts the list and adjusts that team
      at third place, and the list stays in table order. */
  lemma FirstTurnOf(teams: seq<Team>, table: seq<Team>, next: seq<Team>)
    requires GetTable(teams) == table && UniqueNames(table) && |teams| == 4
    requires teams[0].stats.played != 0 && table[2].name == teams[0].name
    requires next == table[2 := UpdateTeamStrength(table[2], 3)]
    ensures StrengthPassAsWritten(teams, 0) == StrengthPassAsWritten(next, 1)
    ensures Sorted(next) && UniqueNames(next)
  {
    PositionOfIndex(table, 2);
    AsWrittenStep(teams, 0, table, 3);
    UpdateKeepsOrder(table, 2, 3, next);
  }

  /** The list after the first turn of the loop as written: sorted, with
      Chelsea already adjusted. */
  const AfterFirstTurn := [CityWon, ArsenalWon, ChelseaLost.(strength := 78), LiverpoolLost]

  lemma ChelseaAdjustedInTable()
    ensures OpeningTable[2 := UpdateTeamStrength(OpeningTable[2], 3)] == AfterFirstTurn
  {
    ChelseaDrops();
  }

  lemma FirstTurn()
    ensures StrengthPassAsWritten(AfterOpeningWeek, 0) == StrengthPassAsWritten(AfterFirstTurn, 1)
    ensures Sorted(AfterFirstTurn) && UniqueNames(AfterFirstTurn)
  {
    OpeningWeekTable();
    OpeningNamesDistinct();
    ChelseaAdjustedInTable();
    FirstTurnOf(AfterOpeningWeek, OpeningTable, AfterFirstTurn);
  }

  /** The later turns walk the sorted list from its second place on and
      never come back to its first. */
  lemma LaterTurns()
    requires Sorted(AfterFirstTurn) && UniqueNames(AfterFirstTurn)
    ensures StrengthPassAsWritten(AfterFirstTurn, 1)
      == [CityWon, ArsenalWon.(strength := 87), ChelseaLost.(strength := 76), LiverpoolLost.(strength := 87)]
  {
    AsWrittenOnSorted(AfterFirstTurn, 1);
    ChelseaDrops();
    ArsenalRises();
    LiverpoolDrops();
    var r := StrengthPassAsWritten(AfterFirstTurn, 1);
    FourEntries(r, CityWon, ArsenalWon.(strength := 87), ChelseaLost.(strength := 76), LiverpoolLost.(strength := 87));
  }

  /** After the opening week the loop as written never adjusts Manchester
      City, the leader, though it has played, and adjusts Chelsea twice. */
  lemma AsWrittenSkipsLeader()
    ensures StrengthPassAsWritten(AfterOpeningWeek, 0)
      == [CityWon, ArsenalWon.(strength := 87), ChelseaLost.(strength := 76), LiverpoolLost.(strength := 87)]
    ensures CityWon.stats.played == 1 && CityWon.strength == 82
  {
    FirstTurn();
    LaterTurns();
  }

  lemma CorrectedPassEntries()
    ensures |StrengthPass(AfterOpeningWeek)| == 4
    ensures StrengthPass(AfterOpeningWeek)[0] == UpdateTeamStrength(ChelseaLost, 3)
    ensures StrengthPass(AfterOpeningWeek)[1] == UpdateTeamStrength(ArsenalWon, 2)
    ensures StrengthPass(AfterOpeningWeek)[2] == UpdateTeamStrength(CityWon, 1)
    ensures StrengthPass(AfterOpeningWeek)[3] == UpdateTeamStrength(LiverpoolLost, 4)
  {
    OpeningWeekTable();
    OpeningNamesDistinct();
    PassOnFour(AfterOpeningWeek, OpeningTable);
  }

  /** The corrected pass adjusts every team once, with its place in the
      opening week's table, and keeps the list's order. */
  lemma CorrectedPassAdjustsAll()
    ensures StrengthPass(AfterOpeningWeek)
      == [ChelseaLost.(strength := 78), ArsenalWon.(strength := 87), CityWon.(strength := 85), LiverpoolLost.(strength := 87)]
  {
    CorrectedPassEntries();
    ChelseaDrops();
    ArsenalRises();
    CityRises();
    LiverpoolDrops();
    var r := StrengthPass(AfterOpeningWeek);
    FourEntries(r, ChelseaLost.(strength := 78), ArsenalWon.(strength := 87), CityWon.(strength := 85), LiverpoolLost.(strength := 87));
  }
}
