/** The standings (GetTable) and a team's place in them (getTeamPosition). */
module Standings {
  import opened Stats
  import opened Records

  /** `a` is strictly ahead of `b`: more points, else a better goal
      difference, else more goals scored. This is the less-function the
      source hands to sort.Slice. */
  predicate Outranks(a: Team, b: Team)
  {
    if a.stats.points != b.stats.points then a.stats.points > b.stats.points
    else if a.stats.goalDiff != b.stats.goalDiff then a.stats.goalDiff > b.stats.goalDiff
    else a.stats.goalsFor > b.stats.goalsFor
  }

  /** Non-increasing by (points, goal difference, goals for): no team is
      strictly ahead of one listed before it. */
  predicate Sorted(s: seq<Team>)
  {
    forall i, j :: 0 <= i < j < |s| ==> !Outranks(s[j], s[i])
  }

  /** No team of `s` is strictly behind `y`. */
  predicate NoneBehind(s: seq<Team>, y: Team)
  {
    forall k :: 0 <= k < |s| ==> !Outranks(y, s[k])
  }

  /** "Not strictly ahead" is transitive: the order is lexicographic. */
  lemma NotAheadTransitive(a: Team, b: Team, c: Team)
    requires !Outranks(a, b) && !Outranks(b, c)
    ensures !Outranks(a, c)
  {
  }

  /** A list holding the teams of `s` and `x` has none behind `y` when
      neither `s` nor `x` has. */
  lemma NoneBehindOfPermutation(s: seq<Team>, x: Team, r: seq<Team>, y: Team)
    requires multiset(r) == multiset(s) + multiset{x}
    requires NoneBehind(s, y) && !Outranks(y, x)
    ensures NoneBehind(r, y)
  {
    forall k | 0 <= k < |r| ensures !Outranks(y, r[k]) {
      assert r[k] in multiset(r);
      if r[k] != x {
        assert r[k] in multiset(s);
        var i :| 0 <= i < |s| && s[i] == r[k];
      }
    }
  }

  /** Inserts `x` into a sorted list, moving it left past every team it is
      strictly ahead of, as an insertion sort does. */
  function Insert(s: seq<Team>, x: Team): (r: seq<Team>)
    requires Sorted(s)
    ensures Sorted(r)
    ensures multiset(r) == multiset(s) + multiset{x}
    ensures |r| == |s| + 1
    decreases |s|
  {
    if |s| == 0 then [x]
    else
      var init, last := s[..|s| - 1], s[|s| - 1];
      assert s == init + [last];
      if Outranks(x, last) then
        var front := Insert(init, x);
        assert NoneBehind(front, last) by {
          NoneBehindOfPermutation(init, x, front, last);
        }
        front + [last]
      else
        assert NoneBehind(s, x) by {
          forall k | 0 <= k < |s| ensures !Outranks(x, s[k]) {
            if k < |s| - 1 {
              NotAheadTransitive(x, last, s[k]);
            }
          }
        }
        s + [x]
  }

  /** The league table: the teams sorted non-increasingly by (points, goal
      difference, goals for). It inserts the teams one by one from the left,
      the insertion sort Go's sort.Slice runs on slices of up to twelve
      elements; sort.Slice promises no order among tied teams, so neither
      does this contract. */
  function GetTable(teams: seq<Team>): (r: seq<Team>)
    ensures Sorted(r)
    ensures multiset(r) == multiset(teams)
    ensures |r| == |teams|
    decreases |teams|
  {
    if |teams| == 0 then []
    else
      var init := teams[..|teams| - 1];
      assert teams == init + [teams[|teams| - 1]];
      Insert(GetTable(init), teams[|teams| - 1])
  }

  /** The bottom place, returned for a name that is not in the table. */
  const Bottom := 4

  /** One-based place of the first team with this name, or Bottom. */
  function PositionIn(table: seq<Team>, name: string): (p: int)
    ensures HasTeam(table, name) ==> 1 <= p <= |table| && table[p - 1].name == name
    ensures HasTeam(table, name) ==> forall j :: 0 <= j < p - 1 ==> table[j].name != name
    ensures !HasTeam(table, name) ==> p == Bottom
  {
    match FindTeam(table, name)
    case Some(i) => i + 1
    case None => Bottom
  }

  /** The table lists exactly the teams of the league. */
  lemma TableHasSameTeams(teams: seq<Team>, name: string)
    ensures HasTeam(GetTable(teams), name) <==> HasTeam(teams, name)
  {
    var table := GetTable(teams);
    if HasTeam(teams, name) {
      var i :| 0 <= i < |teams| && teams[i].name == name;
      assert teams[i] in multiset(table);
      var j :| 0 <= j < |table| && table[j] == teams[i];
    }
    if HasTeam(table, name) {
      var j :| 0 <= j < |table| && table[j].name == name;
      assert table[j] in multiset(teams);
      var i :| 0 <= i < |teams| && teams[i] == table[j];
    }
  }

  /** getTeamPosition: the team's place in the current standings. A name
      of the league has a place among the teams; any other name is
      placed at the bottom. */
  function TeamPosition(teams: seq<Team>, name: string): (p: int)
    ensures HasTeam(teams, name) ==> 1 <= p <= |teams| && GetTable(teams)[p - 1].name == name
    ensures HasTeam(teams, name) ==> forall j :: 0 <= j < p - 1 ==> GetTable(teams)[j].name != name
    ensures !HasTeam(teams, name) ==> p == Bottom
  {
    TableHasSameTeams(teams, name);
    PositionIn(GetTable(teams), name)
  }

  /** A team of the league with a unique name sits where its name is found. */
  lemma PositionFindsTeam(teams: seq<Team>, i: int)
    requires UniqueNames(teams) && 0 <= i < |teams|
    ensures 1 <= TeamPosition(teams, teams[i].name) <= |teams|
    ensures GetTable(teams)[TeamPosition(teams, teams[i].name) - 1] == teams[i]
  {
    var table := GetTable(teams);
    TableHasSameTeams(teams, teams[i].name);
    var p := TeamPosition(teams, teams[i].name);
    assert table[p - 1] in multiset(teams);
    var k :| 0 <= k < |teams| && teams[k] == table[p - 1];
    assert k == i;
  }

  /** The standings respect the ranking: a team strictly ahead of another
      on (points, goal difference, goals for) gets a smaller position. */
  lemma PositionRespectsRanking(teams: seq<Team>, a: int, b: int)
    requires UniqueNames(teams) && 0 <= a < |teams| && 0 <= b < |teams|
    requires Outranks(teams[a], teams[b])
    ensures TeamPosition(teams, teams[a].name) < TeamPosition(teams, teams[b].name)
  {
    PositionFindsTeam(teams, a);
    PositionFindsTeam(teams, b);
  }

  /** A team strictly ahead of every other team is first. */
  lemma LeaderIsFirst(teams: seq<Team>, a: int)
    requires UniqueNames(teams) && 0 <= a < |teams|
    requires forall b :: 0 <= b < |teams| && b != a ==> Outranks(teams[a], teams[b])
    ensures TeamPosition(teams, teams[a].name) == 1
  {
    PositionFindsTeam(teams, a);
    var table := GetTable(teams);
    var p := TeamPosition(teams, teams[a].name);
    assert table[0] in multiset(teams);
    var b :| 0 <= b < |teams| && teams[b] == table[0];
    if b != a {
      assert Outranks(table[p - 1], table[0]);
    }
  }

  /** Sorting the standings again leaves them as they are: inserting a
      team that is not ahead of the last one appends it. */
  lemma {:induction false} SortedTableIsItself(s: seq<Team>)
    requires Sorted(s)
    ensures GetTable(s) == s
    decreases |s|
  {
    if |s| > 0 {
      var init, last := s[..|s| - 1], s[|s| - 1];
      SortedPrefix(s, init);
      SortedTableIsItself(init);
      AppendNotAhead(init, last, s);
    }
  }

  lemma SortedPrefix(s: seq<Team>, init: seq<Team>)
    requires Sorted(s) && |s| > 0 && init == s[..|s| - 1]
    ensures Sorted(init)
  {
  }

  /** Inserting a team that is not ahead of the last one appends it. */
  lemma AppendNotAhead(init: seq<Team>, x: Team, s: seq<Team>)
    requires Sorted(s) && |s| > 0 && init == s[..|s| - 1] && x == s[|s| - 1]
    ensures Sorted(init) && Insert(init, x) == s
  {
    assert s == init + [x];
  }

  /** GetTable is idempotent. */
  lemma TableIsIdempotent(teams: seq<Team>)
    ensures GetTable(GetTable(teams)) == GetTable(teams)
  {
    SortedTableIsItself(GetTable(teams));
  }
}
