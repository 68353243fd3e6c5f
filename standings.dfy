/**
 * The public team tab (src/tournaments/standings/public/mod.rs): who may
 * see it, and the standings-only view, which groups teams by wins and
 * gives each group a tied competition rank.
 */
module Standings {
  import opened Wrappers
  import Sorting

  datatype Team = Team(id: string, name: string)

  /** A team in tab order with its wins, when it has an integral Wins metric. */
  datatype Standing = Standing(team: Team, wins: Option<int>)

  /** The teams with the same number of wins. */
  datatype Group = Group(points: int, teams: seq<Team>)

  datatype RankedTeam = RankedTeam(rank: int, points: int, team: Team)

  datatype View = FullTab | StandingsOnly | Hidden

  /**
   * The full tab is shown to a superuser or when the team tab is public;
   * otherwise standings alone when they are public; otherwise nothing.
   */
  function ViewFor(isSuperuser: bool, teamTabPublic: bool, standingsPublic: bool): (v: View)
    ensures v == FullTab <==> isSuperuser || teamTabPublic
    ensures v == StandingsOnly <==> !isSuperuser && !teamTabPublic && standingsPublic
    ensures v == Hidden <==> !isSuperuser && !teamTabPublic && !standingsPublic
  {
    if isSuperuser || teamTabPublic then FullTab
    else if standingsPublic then StandingsOnly
    else Hidden
  }

  /** The filter_map: the teams with a Wins value, in tab order, paired with it. */
  function WithWins(st: seq<Standing>): (r: seq<(int, Team)>)
    ensures |r| <= |st|
    ensures forall e :: e in r <==> Standing(e.1, Some(e.0)) in st
  {
    if st == [] then []
    else
      var rest := WithWins(st[1..]);
      assert forall x :: x in st <==> x == st[0] || x in st[1..];
      if st[0].wins.Some? then [(st[0].wins.value, st[0].team)] + rest else rest
  }

  function ByPointsDesc(): (le: ((int, Team), (int, Team)) -> bool)
  {
    (a: (int, Team), b: (int, Team)) => a.0 >= b.0
  }

  lemma ByPointsDescIsTotalPreorder()
    ensures Sorting.IsTotalPreorder(ByPointsDesc())
  {
  }

  /** sorted_by(b.0.cmp(a.0)): most wins first. */
  function SortedByPoints(entries: seq<(int, Team)>): (r: seq<(int, Team)>)
    ensures multiset(r) == multiset(entries)
    ensures forall i, j :: 0 <= i < j < |r| ==> r[i].0 >= r[j].0
  {
    ByPointsDescIsTotalPreorder();
    var r := Sorting.Sort(entries, ByPointsDesc());
    assert Sorting.SortedBy(r, ByPointsDesc());
    r
  }

  /** The entries a group stands for. */
  function GroupEntries(g: Group): (r: seq<(int, Team)>)
    ensures |r| == |g.teams|
    ensures forall k :: 0 <= k < |r| ==> r[k] == (g.points, g.teams[k])
  {
    seq(|g.teams|, k requires 0 <= k < |g.teams| => (g.points, g.teams[k]))
  }

  function Entries(gs: seq<Group>): seq<(int, Team)>
  {
    if gs == [] then [] else GroupEntries(gs[0]) + Entries(gs[1..])
  }

  /**
   * chunk_by on the points: runs of equal points become groups. No group is
   * empty and neighbouring groups differ in points.
   */
  function Chunks(s: seq<(int, Team)>): (gs: seq<Group>)
    ensures forall i :: 0 <= i < |gs| ==> gs[i].teams != []
    ensures forall i :: 0 <= i < |gs| - 1 ==> gs[i].points != gs[i + 1].points
    ensures s != [] ==> gs != [] && gs[0].points == s[0].0
  {
    if s == [] then []
    else
      var rest := Chunks(s[1..]);
      if rest != [] && rest[0].points == s[0].0 then [Group(s[0].0, [s[0].1] + rest[0].teams)] + rest[1..]
      else [Group(s[0].0, [s[0].1])] + rest
  }

  lemma EntriesCons(g: Group, rest: seq<Group>)
    ensures Entries([g] + rest) == GroupEntries(g) + Entries(rest)
  {
    assert ([g] + rest)[1..] == rest;
  }

  lemma GroupEntriesCons(p: int, t: Team, ts: seq<Team>)
    ensures GroupEntries(Group(p, [t] + ts)) == [(p, t)] + GroupEntries(Group(p, ts))
  {
    var a := GroupEntries(Group(p, [t] + ts));
    var b := [(p, t)] + GroupEntries(Group(p, ts));
    assert |a| == |b|;
    forall k | 0 <= k < |a| ensures a[k] == b[k] {
      if k > 0 {
        assert ([t] + ts)[k] == ts[k - 1];
      }
    }
  }

  /** Putting an entry at the front of the first group puts it at the front of the entries. */
  lemma EntriesJoin(head: (int, Team), g0: Group, tail: seq<Group>)
    requires g0.points == head.0
    ensures Entries([Group(head.0, [head.1] + g0.teams)] + tail) == [head] + Entries([g0] + tail)
  {
    var g := Group(head.0, [head.1] + g0.teams);
    GroupEntriesCons(head.0, head.1, g0.teams);
    EntriesCons(g, tail);
    EntriesCons(g0, tail);
  }

  /** One step of chunk_by when the head joins the first group of the rest. */
  lemma ChunksJoin(s: seq<(int, Team)>)
    requires |s| > 1 && Chunks(s[1..])[0].points == s[0].0
    ensures Entries(Chunks(s)) == [s[0]] + Entries(Chunks(s[1..]))
  {
    var rest := Chunks(s[1..]);
    assert rest == [rest[0]] + rest[1..];
    EntriesJoin(s[0], rest[0], rest[1..]);
  }

  /** One step of chunk_by when the head starts a group of its own. */
  lemma ChunksStart(s: seq<(int, Team)>)
    requires s != [] && (|s| == 1 || Chunks(s[1..])[0].points != s[0].0)
    ensures Entries(Chunks(s)) == [s[0]] + Entries(Chunks(s[1..]))
  {
    var rest := Chunks(s[1..]);
    var g := Group(s[0].0, [s[0].1]);
    assert Chunks(s) == [g] + rest;
    EntriesCons(g, rest);
    assert GroupEntries(g) == [s[0]];
  }

  /** Reading the groups back gives the entries, in order. */
  lemma {:induction false} ChunksRoundTrip(s: seq<(int, Team)>)
    ensures Entries(Chunks(s)) == s
  {
    if s != [] {
      ChunksRoundTrip(s[1..]);
      if |s| > 1 && Chunks(s[1..])[0].points == s[0].0 {
        ChunksJoin(s);
      } else {
        ChunksStart(s);
      }
      assert s == [s[0]] + s[1..];
    }
  }

  predicate PointsDescend(gs: seq<Group>)
  {
    forall i, j :: 0 <= i < j < |gs| ==> gs[i].points > gs[j].points
  }

  /** A group above the first of descending groups can be put in front of them. */
  lemma ConsDescend(g: Group, rest: seq<Group>)
    requires PointsDescend(rest)
    requires rest != [] ==> g.points > rest[0].points
    ensures PointsDescend([g] + rest)
  {
    var gs := [g] + rest;
    forall i, j | 0 <= i < j < |gs| ensures gs[i].points > gs[j].points {
      assert gs[j] == rest[j - 1];
      if i > 0 {
        assert gs[i] == rest[i - 1];
      } else if j > 1 {
        assert rest[0].points > rest[j - 1].points;
      }
    }
  }

  /** Chunking entries sorted by descending points gives groups of strictly descending points. */
  lemma {:induction false} ChunksDescend(s: seq<(int, Team)>)
    requires forall i, j :: 0 <= i < j < |s| ==> s[i].0 >= s[j].0
    ensures PointsDescend(Chunks(s))
  {
    if s != [] {
      ChunksDescend(s[1..]);
      var rest := Chunks(s[1..]);
      if rest != [] && rest[0].points == s[0].0 {
        var tail := rest[1..];
        assert PointsDescend(tail) by {
          assert forall a :: 0 <= a < |tail| ==> tail[a] == rest[a + 1];
        }
        if tail != [] {
          assert tail[0] == rest[1];
        }
        ConsDescend(Group(s[0].0, [s[0].1] + rest[0].teams), tail);
      } else {
        if rest != [] {
          assert rest[0].points == s[1].0 <= s[0].0;
        }
        ConsDescend(Group(s[0].0, [s[0].1]), rest);
      }
    }
  }

  function ByName(): (le: (Team, Team) -> bool)
  {
    (a: Team, b: Team) => Sorting.LexLe(a.name, b.name)
  }

  lemma ByNameIsTotalPreorder()
    ensures Sorting.IsTotalPreorder(ByName())
  {
    forall a: Team, b: Team ensures ByName()(a, b) || ByName()(b, a) {
      Sorting.LexLeTotal(a.name, b.name);
    }
    forall a: Team, b: Team, c: Team | ByName()(a, b) && ByName()(b, c) ensures ByName()(a, c) {
      Sorting.LexLeTransitive(a.name, b.name, c.name);
    }
  }

  /** Each group's teams sorted by name; the groups and their points stay as they are. */
  function SortGroups(gs: seq<Group>): (r: seq<Group>)
    ensures |r| == |gs|
    ensures forall i :: 0 <= i < |r| ==> r[i].points == gs[i].points && multiset(r[i].teams) == multiset(gs[i].teams)
    ensures forall i, a, b :: 0 <= i < |r| && 0 <= a < b < |r[i].teams| ==> Sorting.LexLe(r[i].teams[a].name, r[i].teams[b].name)
  {
    ByNameIsTotalPreorder();
    var r := seq(|gs|, i requires 0 <= i < |gs| => Group(gs[i].points, Sorting.Sort(gs[i].teams, ByName())));
    assert forall i :: 0 <= i < |r| ==> Sorting.SortedBy(r[i].teams, ByName());
    r
  }

  /** teams_by_points: the teams with wins, grouped by descending wins, by name within a group. */
  function TeamsByPoints(st: seq<Standing>): seq<Group>
  {
    SortGroups(Chunks(SortedByPoints(WithWins(st))))
  }

  /** Groups of strictly descending points, none empty. */
  predicate Descending(gs: seq<Group>)
  {
    (forall i :: 0 <= i < |gs| ==> gs[i].teams != []) && PointsDescend(gs)
  }

  /**
   * The groups are strictly descending in wins and none is empty, the
   * teams are sorted by name within each, and read back (before the name
   * sort) they are exactly the teams with wins, each with its wins.
   */
  lemma TeamsByPointsShape(st: seq<Standing>)
    ensures Descending(TeamsByPoints(st))
    ensures var chunks := Chunks(SortedByPoints(WithWins(st)));
      multiset(Entries(chunks)) == multiset(WithWins(st))
  {
    ChunksRoundTrip(SortedByPoints(WithWins(st)));
    var sorted := SortedByPoints(WithWins(st));
    ChunksDescend(sorted);
    var gs := TeamsByPoints(st);
    forall i | 0 <= i < |gs| ensures gs[i].teams != [] {
      var c := Chunks(sorted)[i].teams;
      assert c[0] in multiset(c);
    }
  }

  /** The number of teams in the groups. */
  function Size(gs: seq<Group>): (n: nat)
  {
    if gs == [] then 0 else |gs[0].teams| + Size(gs[1..])
  }

  /** The ranked rows of one group: every team of it shares the rank. */
  function Block(g: Group, rank: int): (r: seq<RankedTeam>)
    ensures |r| == |g.teams|
    ensures forall k :: 0 <= k < |r| ==> r[k] == RankedTeam(rank, g.points, g.teams[k])
  {
    seq(|g.teams|, k requires 0 <= k < |g.teams| => RankedTeam(rank, g.points, g.teams[k]))
  }

  /**
   * ranked_teams from the given rank on: the groups' teams in order, each
   * group's rank being the start plus the number of teams before it.
   */
  function Ranked(gs: seq<Group>, start: int): (r: seq<RankedTeam>)
    ensures |r| == Size(gs)
  {
    if gs == [] then [] else Block(gs[0], start) + Ranked(gs[1..], start + |gs[0].teams|)
  }

  /** The number of ranked teams with strictly more points than p. */
  function CountAbove(r: seq<RankedTeam>, p: int): (n: nat)
    ensures n <= |r|
  {
    if r == [] then 0 else (if r[0].points > p then 1 else 0) + CountAbove(r[1..], p)
  }

  /** The number of ranked teams with exactly p points. */
  function CountAt(r: seq<RankedTeam>, p: int): (n: nat)
    ensures n <= |r|
  {
    if r == [] then 0 else (if r[0].points == p then 1 else 0) + CountAt(r[1..], p)
  }

  lemma {:induction false} CountsAppend(a: seq<RankedTeam>, b: seq<RankedTeam>, p: int)
    ensures CountAbove(a + b, p) == CountAbove(a, p) + CountAbove(b, p)
    ensures CountAt(a + b, p) == CountAt(a, p) + CountAt(b, p)
  {
    if a != [] {
      assert (a + b)[1..] == a[1..] + b;
      CountsAppend(a[1..], b, p);
    } else {
      assert a + b == b;
    }
  }

  lemma {:induction false} CountsOfBlock(g: Group, rank: int, p: int)
    ensures CountAbove(Block(g, rank), p) == (if g.points > p then |g.teams| else 0)
    ensures CountAt(Block(g, rank), p) == (if g.points == p then |g.teams| else 0)
    decreases |g.teams|
  {
    if g.teams != [] {
      var rest := Group(g.points, g.teams[1..]);
      assert Block(g, rank)[1..] == Block(rest, rank);
      CountsOfBlock(rest, rank, p);
    }
  }

  /** The groups after the first of descending groups are descending too. */
  lemma DescendingTail(gs: seq<Group>)
    requires Descending(gs) && gs != []
    ensures Descending(gs[1..])
    ensures forall i :: 0 <= i < |gs[1..]| ==> gs[1..][i].points < gs[0].points
  {
    assert forall i :: 0 <= i < |gs[1..]| ==> gs[1..][i] == gs[i + 1];
  }

  /** Groups all above p rank every team above p. */
  lemma {:induction false} RankedAbove(gs: seq<Group>, start: int, p: int)
    requires forall i :: 0 <= i < |gs| ==> gs[i].points > p
    ensures CountAbove(Ranked(gs, start), p) == Size(gs) && CountAt(Ranked(gs, start), p) == 0
  {
    if gs != [] {
      var tail := gs[1..];
      assert forall i :: 0 <= i < |tail| ==> tail[i] == gs[i + 1];
      RankedAbove(tail, start + |gs[0].teams|, p);
      CountsAppend(Block(gs[0], start), Ranked(tail, start + |gs[0].teams|), p);
      CountsOfBlock(gs[0], start, p);
    }
  }

  /** Groups all below p rank no team at or above p. */
  lemma {:induction false} RankedBelow(gs: seq<Group>, start: int, p: int)
    requires forall i :: 0 <= i < |gs| ==> gs[i].points < p
    ensures CountAbove(Ranked(gs, start), p) == 0 && CountAt(Ranked(gs, start), p) == 0
  {
    if gs != [] {
      var tail := gs[1..];
      assert forall i :: 0 <= i < |tail| ==> tail[i] == gs[i + 1];
      RankedBelow(tail, start + |gs[0].teams|, p);
      CountsAppend(Block(gs[0], start), Ranked(tail, start + |gs[0].teams|), p);
      CountsOfBlock(gs[0], start, p);
    }
  }

  /** Each ranked team carries the points of one of the groups. */
  lemma {:induction false} GroupOfRanked(gs: seq<Group>, start: int, k: int) returns (i: int)
    requires 0 <= k < |Ranked(gs, start)|
    ensures 0 <= i < |gs| && Ranked(gs, start)[k].points == gs[i].points
  {
    var b := Block(gs[0], start);
    var rest := Ranked(gs[1..], start + |gs[0].teams|);
    if k < |b| {
      i := 0;
    } else {
      assert Ranked(gs, start)[k] == rest[k - |b|];
      i := GroupOfRanked(gs[1..], start + |gs[0].teams|, k - |b|);
      assert gs[1..][i] == gs[i + 1];
      i := i + 1;
    }
  }

  /**
   * Competition ranking: with groups of strictly descending points, each
   * team's rank is the start plus the number of teams with more points.
   */
  lemma {:induction false} RankIsCompetitionRank(gs: seq<Group>, start: int, k: int)
    requires Descending(gs)
    requires 0 <= k < |Ranked(gs, start)|
    ensures Ranked(gs, start)[k].rank == start + CountAbove(Ranked(gs, start), Ranked(gs, start)[k].points)
  {
    var tail := gs[1..];
    var next := start + |gs[0].teams|;
    var b := Block(gs[0], start);
    var rest := Ranked(tail, next);
    var p := Ranked(gs, start)[k].points;
    CountsAppend(b, rest, p);
    CountsOfBlock(gs[0], start, p);
    DescendingTail(gs);
    if k < |b| {
      assert Ranked(gs, start)[k] == b[k];
      RankedBelow(tail, next, p);
    } else {
      assert Ranked(gs, start)[k] == rest[k - |b|];
      RankIsCompetitionRank(tail, next, k - |b|);
      var i := GroupOfRanked(tail, next, k - |b|);
    }
  }

  /** find(|(p, _)| p == points): whether the first group with the points has more than one team. */
  function IsTied(gs: seq<Group>, points: int): (t: bool)
    ensures (forall i :: 0 <= i < |gs| ==> gs[i].points != points) ==> !t
  {
    if gs == [] then false
    else if gs[0].points == points then |gs[0].teams| > 1
    else IsTied(gs[1..], points)
  }

  /** In descending groups, the "=" marker of a group's points is shown exactly when the group has several teams. */
  lemma {:induction false} TiedIffGroupShared(gs: seq<Group>, i: int)
    requires Descending(gs) && 0 <= i < |gs|
    ensures IsTied(gs, gs[i].points) <==> |gs[i].teams| > 1
  {
    if i > 0 {
      assert gs[0].points > gs[i].points;
      assert gs[1..][i - 1] == gs[i];
      TiedIffGroupShared(gs[1..], i - 1);
    }
  }

  /** The number of ranked teams sharing a group's points is the size of that group. */
  lemma {:induction false} CountAtGroup(gs: seq<Group>, start: int, i: int)
    requires Descending(gs) && 0 <= i < |gs|
    ensures CountAt(Ranked(gs, start), gs[i].points) == |gs[i].teams|
  {
    var tail := gs[1..];
    var next := start + |gs[0].teams|;
    var p := gs[i].points;
    CountsAppend(Block(gs[0], start), Ranked(tail, next), p);
    CountsOfBlock(gs[0], start, p);
    DescendingTail(gs);
    if i == 0 {
      RankedBelow(tail, next, p);
    } else {
      assert tail[i - 1] == gs[i];
      CountAtGroup(tail, next, i - 1);
    }
  }

  /** A ranked team is marked "=" exactly when another ranked team has the same points. */
  lemma TiedIffShared(gs: seq<Group>, k: int)
    requires Descending(gs)
    requires 0 <= k < |Ranked(gs, 1)|
    ensures IsTied(gs, Ranked(gs, 1)[k].points) <==> CountAt(Ranked(gs, 1), Ranked(gs, 1)[k].points) > 1
  {
    var i := GroupOfRanked(gs, 1, k);
    TiedIffGroupShared(gs, i);
    CountAtGroup(gs, 1, i);
  }

  /**
   * The standings-only table: each team's rank is one more than the number
   * of teams with more wins, and it is marked "=" exactly when another team
   * has as many wins.
   */
  lemma StandingsTableRanks(st: seq<Standing>, k: int)
    requires 0 <= k < |Ranked(TeamsByPoints(st), 1)|
    ensures var r := Ranked(TeamsByPoints(st), 1);
      r[k].rank == 1 + CountAbove(r, r[k].points) &&
      (IsTied(TeamsByPoints(st), r[k].points) <==> CountAt(r, r[k].points) > 1)
  {
    TeamsByPointsShape(st);
    RankIsCompetitionRank(TeamsByPoints(st), 1, k);
    TiedIffShared(TeamsByPoints(st), k);
  }

  lemma RankedCons(gs: seq<Group>, i: int, rank: int)
    requires 0 <= i < |gs|
    ensures Ranked(gs[i..], rank) == Block(gs[i], rank) + Ranked(gs[i + 1..], rank + |gs[i].teams|)
  {
    assert gs[i..][1..] == gs[i + 1..];
  }

  /** The inner loop: one row per team of the group, all with the group's rank. */
  method PushGroup(ranked: seq<RankedTeam>, g: Group, rank: int) returns (r: seq<RankedTeam>)
    ensures r == ranked + Block(g, rank)
  {
    r := ranked;
    for j := 0 to |g.teams|
      invariant r == ranked + Block(g, rank)[..j]
    {
      assert Block(g, rank)[..j + 1] == Block(g, rank)[..j] + [RankedTeam(rank, g.points, g.teams[j])];
      r := r + [RankedTeam(rank, g.points, g.teams[j])];
    }
    assert Block(g, rank)[..|g.teams|] == Block(g, rank);
  }

  /** The loop building ranked_teams, current_rank advancing by each group's size. */
  method RankTeams(gs: seq<Group>) returns (ranked: seq<RankedTeam>)
    ensures ranked == Ranked(gs, 1)
  {
    ranked := [];
    var currentRank := 1;
    for i := 0 to |gs|
      invariant ranked + Ranked(gs[i..], currentRank) == Ranked(gs, 1)
    {
      RankedCons(gs, i, currentRank);
      ghost var before := ranked;
      ghost var later := Ranked(gs[i + 1..], currentRank + |gs[i].teams|);
      ranked := PushGroup(ranked, gs[i], currentRank);
      assert before + (Block(gs[i], currentRank) + later) == (before + Block(gs[i], currentRank)) + later;
      currentRank := currentRank + |gs[i].teams|;
    }
    assert ranked + Ranked(gs[|gs|..], currentRank) == ranked;
  }
}
