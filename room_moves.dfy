/**
 * Moving a room between debates in the draw editor
 * (src/tournaments/rounds/draws/rooms/rooms.rs): the room is taken off
 * every debate of the rounds and put on the target debate, inside a
 * transaction that an unknown target rolls back.
 */
module RoomMoves {
  import opened Wrappers
  import opened Http
  import opened Draws

  /** Whether a debate of the rounds holds the room. */
  predicate Holds(d: Debate, roomId: string, rounds: seq<string>)
  {
    d.round in rounds && d.room == Some(roomId)
  }

  /** The UPDATE that takes the room off every debate of the rounds. */
  function ClearRoom(debates: seq<Debate>, roomId: string, rounds: seq<string>): (r: seq<Debate>)
    ensures |r| == |debates|
    ensures forall k :: 0 <= k < |r| ==> r[k] == if Holds(debates[k], roomId, rounds) then debates[k].(room := None) else debates[k]
  {
    seq(|debates|, k requires 0 <= k < |debates| =>
      if Holds(debates[k], roomId, rounds) then debates[k].(room := None) else debates[k])
  }

  /** The UPDATE that sets the room column of the debate with the given id. */
  function SetRoomOf(debates: seq<Debate>, id: string, room: Option<string>): (r: seq<Debate>)
    ensures |r| == |debates|
    ensures forall k :: 0 <= k < |r| ==> r[k] == if debates[k].id == id then debates[k].(room := room) else debates[k]
  {
    seq(|debates|, k requires 0 <= k < |debates| =>
      if debates[k].id == id then debates[k].(room := room) else debates[k])
  }

  /** The room with the id, if it belongs to the tournament. */
  function FindRoom(rooms: seq<Room>, tournament: string, roomId: string): (r: Option<Room>)
    ensures r.None? <==> forall k :: 0 <= k < |rooms| ==> !(rooms[k].id == roomId && rooms[k].tournament == tournament)
    ensures r.Some? ==> r.value.id == roomId && r.value.tournament == tournament
  {
    if rooms == [] then None
    else if rooms[0].id == roomId && rooms[0].tournament == tournament then Some(rooms[0])
    else
      assert forall k :: 1 <= k < |rooms| ==> rooms[k] == rooms[1..][k - 1];
      FindRoom(rooms[1..], tournament, roomId)
  }

  /** The first debate of the rounds with the id. */
  function FindTarget(debates: seq<Debate>, target: string, rounds: seq<string>): (r: Option<Debate>)
    ensures r.None? <==> forall k :: 0 <= k < |debates| ==> !(debates[k].id == target && debates[k].round in rounds)
    ensures r.Some? ==> exists k :: 0 <= k < |debates| && debates[k] == r.value && r.value.id == target && r.value.round in rounds
  {
    if debates == [] then None
    else if debates[0].id == target && debates[0].round in rounds then
      assert debates[0] == debates[0];
      Some(debates[0])
    else
      assert forall k :: 1 <= k < |debates| ==> debates[k] == debates[1..][k - 1];
      var r := FindTarget(debates[1..], target, rounds);
      if r.Some? then
        var j :| 0 <= j < |debates[1..]| && debates[1..][j] == r.value && r.value.id == target && r.value.round in rounds;
        assert debates[j + 1] == r.value;
        r
      else r
  }

  /** The response of move_room and the debates table after commit or rollback. */
  function MoveRoomOutcome(rooms: seq<Room>, debates: seq<Debate>, tournament: string, roomId: string,
                           toDebate: Option<string>, rounds: seq<string>): (r: (Response, seq<Debate>))
    ensures r.0 == Success || r.0 == BadRequest("Room not found") || r.0 == BadRequest("Debate not found")
    ensures r.0.BadRequest? ==> r.1 == debates
    ensures r.0 == BadRequest("Room not found") <==> forall k :: 0 <= k < |rooms| ==> !(rooms[k].id == roomId && rooms[k].tournament == tournament)
    ensures r.0 == BadRequest("Debate not found") <==>
      (exists k :: 0 <= k < |rooms| && rooms[k].id == roomId && rooms[k].tournament == tournament) &&
      NonEmptyTarget(toDebate).Some? &&
      forall k :: 0 <= k < |debates| ==> !(debates[k].id == toDebate.value && debates[k].round in rounds)
  {
    match FindRoom(rooms, tournament, roomId)
    case None => (BadRequest("Room not found"), debates)
    case Some(room) =>
      var cleared := ClearRoom(debates, room.id, rounds);
      assert forall k :: 0 <= k < |debates| ==> cleared[k].id == debates[k].id && cleared[k].round == debates[k].round;
      match NonEmptyTarget(toDebate)
      case None => (Success, cleared)
      case Some(target) =>
        match FindTarget(cleared, target, rounds)
        case None => (BadRequest("Debate not found"), debates)
        case Some(d) => (Success, SetRoomOf(SetRoomOf(cleared, d.id, None), d.id, Some(room.id)))
  }

  /**
   * move_room: a caller who is not a superuser is refused; an unknown room
   * is a bad request before any write; then the
   * room is cleared from the rounds' debates, the target's old room is
   * cleared and the room set on it. A target outside the rounds rolls the
   * transaction back. DrawUpdated goes out for every round on success only.
   */
  method MoveRoom(db: DrawDb, tournament: string, isSuperuser: bool, roomId: string, toDebate: Option<string>,
                  rounds: seq<string>) returns (resp: Response, notices: seq<string>)
    modifies db
    ensures db.judges == old(db.judges) && db.rooms == old(db.rooms) && db.allocs == old(db.allocs)
    ensures !isSuperuser ==> resp == Unauthorized && db.debates == old(db.debates)
    ensures isSuperuser ==>
      (resp, db.debates) == MoveRoomOutcome(old(db.rooms), old(db.debates), tournament, roomId, toDebate, rounds)
    ensures notices == if resp.Success? then rounds else []
  {
    if !isSuperuser {
      return Unauthorized, [];
    }
    var room := FindRoom(db.rooms, tournament, roomId);
    if room.None? {
      return BadRequest("Room not found"), [];
    }
    var roomRow := room.value;
    var saved := db.debates;
    db.debates := ClearRoom(db.debates, roomRow.id, rounds);
    var target := NonEmptyTarget(toDebate);
    if target.Some? {
      var debate := FindTarget(db.debates, target.value, rounds);
      if debate.None? {
        // NotFound out of the transaction closure rolls it back
        db.debates := saved;
        return BadRequest("Debate not found"), [];
      }
      var id := debate.value.id;
      db.debates := SetRoomOf(db.debates, id, None);
      db.debates := SetRoomOf(db.debates, id, Some(roomRow.id));
    }
    resp, notices := Success, rounds;
  }

  /** A move changes nothing but the room column of the debates. */
  lemma MoveRoomChangesOnlyRooms(rooms: seq<Room>, debates: seq<Debate>, tournament: string, roomId: string,
                                 toDebate: Option<string>, rounds: seq<string>)
    ensures var after := MoveRoomOutcome(rooms, debates, tournament, roomId, toDebate, rounds).1;
      |after| == |debates| && forall k :: 0 <= k < |after| ==> after[k] == debates[k].(room := after[k].room)
  {
  }

  /** Placing the room on debate id of a table where no debate of the rounds holds it. */
  lemma {:induction false} PlacedOnTarget(cleared: seq<Debate>, id: string, roomId: string, rounds: seq<string>, idx: int)
    requires UniqueDebateIds(cleared)
    requires forall k :: 0 <= k < |cleared| ==> !Holds(cleared[k], roomId, rounds)
    requires 0 <= idx < |cleared| && cleared[idx].id == id && cleared[idx].round in rounds
    ensures var after := SetRoomOf(SetRoomOf(cleared, id, None), id, Some(roomId));
      UniqueDebateIds(after) &&
      forall k :: 0 <= k < |after| ==> (Holds(after[k], roomId, rounds) <==> after[k].id == id)
  {
    var after := SetRoomOf(SetRoomOf(cleared, id, None), id, Some(roomId));
    forall k | 0 <= k < |after|
      ensures Holds(after[k], roomId, rounds) <==> after[k].id == id
    {
      if cleared[k].id == id {
        assert k == idx;
      }
    }
    forall i, j | 0 <= i < j < |after| ensures after[i].id != after[j].id {
      assert after[i].id == cleared[i].id && after[j].id == cleared[j].id;
    }
  }

  lemma HoldersShareId(after: seq<Debate>, id: string, roomId: string, rounds: seq<string>)
    requires UniqueDebateIds(after)
    requires forall k :: 0 <= k < |after| ==> (Holds(after[k], roomId, rounds) <==> after[k].id == id)
    ensures forall i, j :: 0 <= i < j < |after| ==> !(Holds(after[i], roomId, rounds) && Holds(after[j], roomId, rounds))
  {
  }

  /** The outcome of a successful move: the cleared debates, with the room placed on the target when there is one. */
  lemma SuccessfulMoveTable(rooms: seq<Room>, debates: seq<Debate>, tournament: string, roomId: string,
                            toDebate: Option<string>, rounds: seq<string>)
      returns (cleared: seq<Debate>, idx: int)
    requires MoveRoomOutcome(rooms, debates, tournament, roomId, toDebate, rounds).0.Success?
    ensures cleared == ClearRoom(debates, roomId, rounds)
    ensures NonEmptyTarget(toDebate).None? ==> MoveRoomOutcome(rooms, debates, tournament, roomId, toDebate, rounds).1 == cleared
    ensures NonEmptyTarget(toDebate).Some? ==>
      0 <= idx < |cleared| && cleared[idx].id == toDebate.value && cleared[idx].round in rounds &&
      MoveRoomOutcome(rooms, debates, tournament, roomId, toDebate, rounds).1 ==
        SetRoomOf(SetRoomOf(cleared, toDebate.value, None), toDebate.value, Some(roomId))
  {
    var room := FindRoom(rooms, tournament, roomId).value;
    assert room.id == roomId;
    cleared := ClearRoom(debates, roomId, rounds);
    idx := 0;
    if NonEmptyTarget(toDebate).Some? {
      var target := toDebate.value;
      var d := FindTarget(cleared, target, rounds).value;
      idx :| 0 <= idx < |cleared| && cleared[idx] == d && d.id == target && d.round in rounds;
    }
  }

  /** Clearing the room keeps the debate ids. */
  lemma ClearKeepsIds(debates: seq<Debate>, roomId: string, rounds: seq<string>)
    requires UniqueDebateIds(debates)
    ensures UniqueDebateIds(ClearRoom(debates, roomId, rounds))
  {
    var cleared := ClearRoom(debates, roomId, rounds);
    forall i, j | 0 <= i < j < |cleared| ensures cleared[i].id != cleared[j].id {
      assert cleared[i].id == debates[i].id && cleared[j].id == debates[j].id;
    }
  }

  /** Where the room is after a successful move, as a property of the new table. */
  predicate PlacedOnce(after: seq<Debate>, roomId: string, target: Option<string>, rounds: seq<string>)
  {
    (target.None? ==> forall k :: 0 <= k < |after| ==> !Holds(after[k], roomId, rounds)) &&
    (target.Some? ==> forall k :: 0 <= k < |after| ==> (Holds(after[k], roomId, rounds) <==> after[k].id == target.value)) &&
    (forall i, j :: 0 <= i < j < |after| ==> !(Holds(after[i], roomId, rounds) && Holds(after[j], roomId, rounds)))
  }

  /**
   * After a successful move with a target, the debates of the rounds that
   * hold the room are exactly the target debate; with unique debate ids
   * that is one debate. Without a target no debate of the rounds holds it.
   */
  lemma MoveRoomPlacesRoomOnce(rooms: seq<Room>, debates: seq<Debate>, tournament: string, roomId: string,
                               toDebate: Option<string>, rounds: seq<string>)
    requires UniqueDebateIds(debates)
    requires MoveRoomOutcome(rooms, debates, tournament, roomId, toDebate, rounds).0.Success?
    ensures PlacedOnce(MoveRoomOutcome(rooms, debates, tournament, roomId, toDebate, rounds).1, roomId, NonEmptyTarget(toDebate), rounds)
  {
    var cleared, idx := SuccessfulMoveTable(rooms, debates, tournament, roomId, toDebate, rounds);
    var after := MoveRoomOutcome(rooms, debates, tournament, roomId, toDebate, rounds).1;
    ClearKeepsIds(debates, roomId, rounds);
    if NonEmptyTarget(toDebate).Some? {
      PlacedOnTarget(cleared, toDebate.value, roomId, rounds, idx);
      HoldersShareId(after, toDebate.value, roomId, rounds);
    } else {
      assert after == cleared;
    }
  }
}
