/**
 * The random draw generator (src/tournaments/rounds/draws/manage/drawalgs/random.rs):
 * teams are drawn one at a time, by swap_remove at a random index, into
 * rooms of teams_per_side teams per side.
 */
module RandomDraw {
  import opened Wrappers
  import Text
  import Tickets

  /** Vec::swap_remove: the element at i is returned and the last element takes its place. */
  function SwapRemove<T>(s: seq<T>, i: nat): (r: seq<T>)
    requires i < |s|
    ensures |r| == |s| - 1
    ensures multiset(r) + multiset{s[i]} == multiset(s)
  {
    var last := |s| - 1;
    assert s == s[..i] + [s[i]] + s[i + 1..];
    if i == last then s[..last]
    else
      assert s[i + 1..] == s[i + 1..last] + [s[last]];
      s[..i] + [s[last]] + s[i + 1..last]
  }

  /** The teams of a draw, room by room, proposition before opposition. */
  function AllTeams(rooms: seq<Tickets.Pairing>): seq<string>
  {
    if rooms == [] then [] else AllTeams(rooms[..|rooms| - 1]) + rooms[|rooms| - 1].0 + rooms[|rooms| - 1].1
  }

  /** Every room has teamsPerSide teams on each side. */
  predicate WellFormedRooms(rooms: seq<Tickets.Pairing>, teamsPerSide: nat)
  {
    forall k :: 0 <= k < |rooms| ==> |rooms[k].0| == teamsPerSide && |rooms[k].1| == teamsPerSide
  }

  /**
   * One side of a room: teamsPerSide picks, each a swap_remove at the index
   * the random source gives for that draw (reduced into the pool's range).
   */
  method PickSide(pool: seq<string>, teamsPerSide: nat, pick: nat -> nat, step: nat)
    returns (side: seq<string>, rest: seq<string>)
    requires |pool| >= teamsPerSide
    ensures |side| == teamsPerSide && |rest| == |pool| - teamsPerSide
    ensures multiset(side) + multiset(rest) == multiset(pool)
  {
    side, rest := [], pool;
    for k := 0 to teamsPerSide
      invariant |side| == k && |rest| == |pool| - k
      invariant multiset(side) + multiset(rest) == multiset(pool)
    {
      var idx := pick(step + k) % |rest|;
      side := side + [rest[idx]];
      rest := SwapRemove(rest, idx);
    }
  }

  /** m rooms of d teams each, counted room by room. */
  function TeamsInRooms(m: nat, d: nat): (n: nat)
  {
    if m == 0 then 0 else TeamsInRooms(m - 1, d) + d
  }

  lemma {:induction false} TeamsInRoomsIsProduct(m: nat, d: nat)
    ensures TeamsInRooms(m, d) == m * d
  {
    if m > 0 {
      TeamsInRoomsIsProduct(m - 1, d);
      assert (m - 1) * d + d == m * d;
    }
  }

  lemma AllTeamsSnoc(rooms: seq<Tickets.Pairing>, room: Tickets.Pairing)
    ensures AllTeams(rooms + [room]) == AllTeams(rooms) + room.0 + room.1
  {
    assert (rooms + [room])[..|rooms|] == rooms;
  }

  /** Moving a drawn room from the pool to the output keeps every team exactly once. */
  lemma DrawnRoomKeepsTeams(output: seq<Tickets.Pairing>, room: Tickets.Pairing, rest: seq<string>, pool: seq<string>,
                            teams: seq<string>)
    requires multiset(AllTeams(output)) + multiset(pool) == multiset(teams)
    requires multiset(room.0) + multiset(room.1) + multiset(rest) == multiset(pool)
    ensures multiset(AllTeams(output + [room])) + multiset(rest) == multiset(teams)
  {
    AllTeamsSnoc(output, room);
    assert multiset(AllTeams(output) + room.0 + room.1) == multiset(AllTeams(output)) + multiset(room.0) + multiset(room.1);
  }

  lemma WellFormedSnoc(rooms: seq<Tickets.Pairing>, room: Tickets.Pairing, teamsPerSide: nat)
    requires WellFormedRooms(rooms, teamsPerSide) && |room.0| == teamsPerSide && |room.1| == teamsPerSide
    ensures WellFormedRooms(rooms + [room], teamsPerSide)
  {
  }

  /** One room of the loop: the proposition side, then the opposition side, from the pool. */
  method DrawRoom(pool: seq<string>, teamsPerSide: nat, pick: nat -> nat, step: nat)
    returns (room: Tickets.Pairing, rest: seq<string>)
    requires |pool| >= 2 * teamsPerSide
    ensures |room.0| == teamsPerSide && |room.1| == teamsPerSide && |rest| == |pool| - 2 * teamsPerSide
    ensures multiset(room.0) + multiset(room.1) + multiset(rest) == multiset(pool)
  {
    var prop, opp, middle;
    prop, middle := PickSide(pool, teamsPerSide, pick, step);
    opp, rest := PickSide(middle, teamsPerSide, pick, step + teamsPerSide);
    room := (prop, opp);
  }

  /** The while loop of gen_random: rooms are drawn until the pool is empty. */
  method DrawRooms(teams: seq<string>, teamsPerSide: nat, pick: nat -> nat, rooms: nat) returns (output: seq<Tickets.Pairing>)
    requires teamsPerSide > 0 && |teams| == rooms * (2 * teamsPerSide)
    ensures |output| == rooms
    ensures WellFormedRooms(output, teamsPerSide)
    ensures multiset(AllTeams(output)) == multiset(teams)
  {
    var denominator := teamsPerSide * 2;
    var pool := teams;
    TeamsInRoomsIsProduct(rooms, denominator);
    output := [];
    var step: nat := 0;
    ghost var left: nat := rooms;
    while pool != []
      invariant left + |output| == rooms
      invariant |pool| == TeamsInRooms(left, denominator)
      invariant WellFormedRooms(output, teamsPerSide)
      invariant multiset(AllTeams(output)) + multiset(pool) == multiset(teams)
      decreases |pool|
    {
      assert left > 0;
      ghost var before := pool;
      var room;
      room, pool := DrawRoom(pool, teamsPerSide, pick, step);
      step := step + denominator;
      DrawnRoomKeepsTeams(output, room, pool, before, teams);
      WellFormedSnoc(output, room, teamsPerSide);
      output := output + [room];
      left := left - 1;
    }
  }

  /**
   * gen_random: no teams, or a count that is not a multiple of
   * 2 * teams_per_side, is InvalidTeamCount; otherwise every team is placed
   * exactly once, in |teams| / (2 * teams_per_side) rooms.
   */
  method GenRandom(teams: seq<string>, teamsPerSide: nat, pick: nat -> nat)
    returns (r: Result<seq<Tickets.Pairing>, Tickets.MakeDrawError>)
    requires teamsPerSide > 0
    ensures teams == [] ==> r == Err(Tickets.InvalidTeamCount("There are no available teams!"))
    ensures teams != [] && |teams| % (2 * teamsPerSide) != 0 ==> r.Err? && r.error.InvalidTeamCount?
    ensures r.Err? <==> teams == [] || |teams| % (2 * teamsPerSide) != 0
    ensures r.Ok? ==> |r.value| == |teams| / (2 * teamsPerSide)
    ensures r.Ok? ==> WellFormedRooms(r.value, teamsPerSide)
    ensures r.Ok? ==> multiset(AllTeams(r.value)) == multiset(teams)
  {
    var denominator := teamsPerSide * 2;
    if teams == [] {
      return Err(Tickets.InvalidTeamCount("There are no available teams!"));
    }
    if |teams| % denominator != 0 {
      return Err(Tickets.InvalidTeamCount(
        "Expected the number of teams to be divisible by " + Text.NatToString(denominator) +
        ".\n             However, there are $" + Text.NatToString(|teams|) + " available teams to be drawn."));
    }
    var rooms := |teams| / denominator;
    assert |teams| == rooms * denominator;
    var output := DrawRooms(teams, teamsPerSide, pick, rooms);
    r := Ok(output);
  }
}
