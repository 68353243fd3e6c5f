/**
 * Room management (src/tournaments/rooms/manage.rs): numbered rooms of a
 * tournament, room categories, and the links placing rooms in categories.
 */
module RoomsManage {
  import opened Http

  datatype Room = Room(id: string, tournament: string, name: string, priority: int, number: int)

  datatype Category = Category(id: string, tournament: string, privateName: string, publicName: string, description: string)

  /** A row of rooms_of_room_categories. */
  datatype Link = Link(id: string, category: string, room: string)

  class RoomRegistry {
    var rooms: seq<Room>
    var categories: seq<Category>
    var links: seq<Link>

    constructor ()
      ensures rooms == [] && categories == [] && links == []
    {
      rooms := [];
      categories := [];
      links := [];
    }
  }

  /** The tournament's rooms have pairwise different numbers. */
  predicate DistinctNumbers(rooms: seq<Room>, tournament: string)
  {
    forall i, j :: 0 <= i < j < |rooms| && rooms[i].tournament == tournament && rooms[j].tournament == tournament ==>
      rooms[i].number != rooms[j].number
  }

  /** The highest number among the tournament's rooms, if it has any. */
  function MaxNumber(rooms: seq<Room>, tournament: string): (m: int)
    requires exists k :: 0 <= k < |rooms| && rooms[k].tournament == tournament
    ensures forall k :: 0 <= k < |rooms| && rooms[k].tournament == tournament ==> rooms[k].number <= m
    ensures exists k :: 0 <= k < |rooms| && rooms[k].tournament == tournament && rooms[k].number == m
  {
    var n := |rooms| - 1;
    var init := rooms[..n];
    assert forall k :: 0 <= k < n ==> init[k] == rooms[k];
    if exists k :: 0 <= k < n && init[k].tournament == tournament then
      var m := MaxNumber(init, tournament);
      var j :| 0 <= j < n && init[j].tournament == tournament && init[j].number == m;
      assert rooms[j] == init[j];
      if rooms[n].tournament == tournament && rooms[n].number > m then rooms[n].number else m
    else
      rooms[n].number
  }

  /**
   * The number of a new room: one more than the tournament's highest, or 0
   * for its first room. It exceeds every number in use.
   */
  function NextNumber(rooms: seq<Room>, tournament: string): (r: int)
    ensures forall k :: 0 <= k < |rooms| && rooms[k].tournament == tournament ==> rooms[k].number < r
    ensures (forall k :: 0 <= k < |rooms| ==> rooms[k].tournament != tournament) ==> r == 0
    ensures (exists k :: 0 <= k < |rooms| && rooms[k].tournament == tournament) ==>
      exists k :: 0 <= k < |rooms| && rooms[k].tournament == tournament && rooms[k].number == r - 1
  {
    if exists k :: 0 <= k < |rooms| && rooms[k].tournament == tournament then MaxNumber(rooms, tournament) + 1
    else 0
  }

  /** The room create_room inserts. */
  function NewRoom(rooms: seq<Room>, tournament: string, newId: string, name: string, priority: int): Room
  {
    Room(newId, tournament, name, priority, NextNumber(rooms, tournament))
  }

  /** Creating a room keeps the tournament's room numbers distinct. */
  lemma CreateKeepsNumbersDistinct(rooms: seq<Room>, tournament: string, newId: string, name: string, priority: int, t: string)
    requires DistinctNumbers(rooms, t)
    ensures DistinctNumbers(rooms + [NewRoom(rooms, tournament, newId, name, priority)], t)
  {
    var r := rooms + [NewRoom(rooms, tournament, newId, name, priority)];
    forall i, j | 0 <= i < j < |r| && r[i].tournament == t && r[j].tournament == t
      ensures r[i].number != r[j].number
    {
      if j == |rooms| {
        assert r[i] == rooms[i];
      }
    }
  }

  /** Whether the category holds the room. */
  predicate Linked(links: seq<Link>, category: string, room: string)
  {
    exists k :: 0 <= k < |links| && links[k].category == category && links[k].room == room
  }

  /** add_room_to_category: a link is inserted only when the room is not yet in the category. */
  function WithLink(links: seq<Link>, newId: string, category: string, room: string): (r: seq<Link>)
    ensures Linked(r, category, room)
    ensures Linked(links, category, room) ==> r == links
    ensures !Linked(links, category, room) ==> r == links + [Link(newId, category, room)]
  {
    if Linked(links, category, room) then links
    else
      var r := links + [Link(newId, category, room)];
      assert r[|links|] == Link(newId, category, room);
      r
  }

  /** Adding a room to a category twice is adding it once, whatever the second link's id. */
  lemma AddLinkIdempotent(links: seq<Link>, id1: string, id2: string, category: string, room: string)
    ensures WithLink(WithLink(links, id1, category, room), id2, category, room) == WithLink(links, id1, category, room)
  {
  }

  /** remove_room_from_category: every link of the (category, room) pair is deleted and nothing else. */
  function WithoutLink(links: seq<Link>, category: string, room: string): (r: seq<Link>)
    ensures !Linked(r, category, room)
    ensures forall l :: l in r <==> l in links && !(l.category == category && l.room == room)
    ensures |r| <= |links|
  {
    if links == [] then []
    else
      var rest := WithoutLink(links[1..], category, room);
      assert forall l :: l in links <==> l == links[0] || l in links[1..];
      if links[0].category == category && links[0].room == room then rest
      else
        var r := [links[0]] + rest;
        assert forall k :: 1 <= k < |r| ==> r[k] == rest[k - 1];
        r
  }

  /** Removing a room from a category keeps every other category's rooms and the category's other rooms. */
  lemma RemoveKeepsOtherLinks(links: seq<Link>, category: string, room: string, c: string, x: string)
    requires c != category || x != room
    ensures Linked(WithoutLink(links, category, room), c, x) <==> Linked(links, c, x)
  {
    var r := WithoutLink(links, category, room);
    if Linked(links, c, x) {
      var k :| 0 <= k < |links| && links[k].category == c && links[k].room == x;
      assert links[k] in r;
      var j :| 0 <= j < |r| && r[j] == links[k];
    }
    if Linked(r, c, x) {
      var j :| 0 <= j < |r| && r[j].category == c && r[j].room == x;
      assert r[j] in links;
      var k :| 0 <= k < |links| && links[k] == r[j];
    }
  }

  /** The rows whose id differs from the deleted one. */
  function RoomsWithout(rooms: seq<Room>, id: string): (r: seq<Room>)
    ensures forall x :: x in r <==> x in rooms && x.id != id
  {
    if rooms == [] then []
    else
      assert forall x :: x in rooms <==> x == rooms[0] || x in rooms[1..];
      (if rooms[0].id == id then [] else [rooms[0]]) + RoomsWithout(rooms[1..], id)
  }

  function CategoriesWithout(categories: seq<Category>, id: string): (r: seq<Category>)
    ensures forall x :: x in r <==> x in categories && x.id != id
  {
    if categories == [] then []
    else
      assert forall x :: x in categories <==> x == categories[0] || x in categories[1..];
      (if categories[0].id == id then [] else [categories[0]]) + CategoriesWithout(categories[1..], id)
  }

  method CreateRoom(db: RoomRegistry, tournament: string, isSuperuser: bool, newId: string, name: string, priority: int)
    returns (resp: Response)
    modifies db
    ensures !isSuperuser ==> resp == Unauthorized && db.rooms == old(db.rooms)
    ensures isSuperuser ==> resp == SeeOther && db.rooms == old(db.rooms) + [NewRoom(old(db.rooms), tournament, newId, name, priority)]
    ensures db.categories == old(db.categories) && db.links == old(db.links)
  {
    if !isSuperuser {
      return Unauthorized;
    }
    db.rooms := db.rooms + [NewRoom(db.rooms, tournament, newId, name, priority)];
    resp := SeeOther;
  }

  method DeleteRoom(db: RoomRegistry, isSuperuser: bool, roomId: string) returns (resp: Response)
    modifies db
    ensures !isSuperuser ==> resp == Unauthorized && db.rooms == old(db.rooms)
    ensures isSuperuser ==> resp == SeeOther && db.rooms == RoomsWithout(old(db.rooms), roomId)
    ensures db.categories == old(db.categories) && db.links == old(db.links)
  {
    if !isSuperuser {
      return Unauthorized;
    }
    db.rooms := RoomsWithout(db.rooms, roomId);
    resp := SeeOther;
  }

  method CreateCategory(db: RoomRegistry, tournament: string, isSuperuser: bool, newId: string,
                        privateName: string, publicName: string, description: string)
    returns (resp: Response)
    modifies db
    ensures !isSuperuser ==> resp == Unauthorized && db.categories == old(db.categories)
    ensures isSuperuser ==> (resp == SeeOther &&
      db.categories == old(db.categories) + [Category(newId, tournament, privateName, publicName, description)])
    ensures db.rooms == old(db.rooms) && db.links == old(db.links)
  {
    if !isSuperuser {
      return Unauthorized;
    }
    db.categories := db.categories + [Category(newId, tournament, privateName, publicName, description)];
    resp := SeeOther;
  }

  /** delete_category removes the category row only; the rooms stay. */
  method DeleteCategory(db: RoomRegistry, isSuperuser: bool, categoryId: string) returns (resp: Response)
    modifies db
    ensures !isSuperuser ==> resp == Unauthorized && db.categories == old(db.categories)
    ensures isSuperuser ==> resp == SeeOther && db.categories == CategoriesWithout(old(db.categories), categoryId)
    ensures db.rooms == old(db.rooms) && db.links == old(db.links)
  {
    if !isSuperuser {
      return Unauthorized;
    }
    db.categories := CategoriesWithout(db.categories, categoryId);
    resp := SeeOther;
  }

  method AddRoomToCategory(db: RoomRegistry, isSuperuser: bool, categoryId: string, roomId: string, newId: string)
    returns (resp: Response)
    modifies db
    ensures !isSuperuser ==> resp == Unauthorized && db.links == old(db.links)
    ensures isSuperuser ==> resp == SeeOther && db.links == WithLink(old(db.links), newId, categoryId, roomId)
    ensures db.rooms == old(db.rooms) && db.categories == old(db.categories)
  {
    if !isSuperuser {
      return Unauthorized;
    }
    var linked := Linked(db.links, categoryId, roomId);
    if !linked {
      db.links := db.links + [Link(newId, categoryId, roomId)];
    }
    resp := SeeOther;
  }

  method RemoveRoomFromCategory(db: RoomRegistry, isSuperuser: bool, categoryId: string, roomId: string)
    returns (resp: Response)
    modifies db
    ensures !isSuperuser ==> resp == Unauthorized && db.links == old(db.links)
    ensures isSuperuser ==> resp == SeeOther && db.links == WithoutLink(old(db.links), categoryId, roomId)
    ensures db.rooms == old(db.rooms) && db.categories == old(db.categories)
  {
    if !isSuperuser {
      return Unauthorized;
    }
    db.links := WithoutLink(db.links, categoryId, roomId);
    resp := SeeOther;
  }
}
