/**
 * The draw tables shared by the draw-editing handlers: judges, rooms,
 * debates and the judge allocations of debates (the tables judges,
 * rooms, tournament_debates and tournament_debate_judges), and the judge
 * role stored in an allocation row.
 */
module Draws {
  import opened Wrappers
  import Seqs

  /** The role of a judge on a panel. */
  datatype Role = Trainee | Panelist | Chair

  /** Role::of_str: the stored letter back to a role; any other string is unreachable!(). */
  function RoleOfStr(s: string): (r: Option<Role>)
    ensures r.Some? <==> s == "C" || s == "P" || s == "T"
  {
    if s == "C" then Some(Chair)
    else if s == "P" then Some(Panelist)
    else if s == "T" then Some(Trainee)
    else None
  }

  /** Display for Role: the one letter stored in the status column; of_str reads it back. */
  function RoleLetter(r: Role): (s: string)
    ensures |s| == 1
    ensures RoleOfStr(s) == Some(r)
  {
    match r
    case Trainee => "T"
    case Panelist => "P"
    case Chair => "C"
  }

  /** of_str followed by Display gives back every string of_str accepts. */
  lemma RoleOfStrInverse(s: string)
    requires RoleOfStr(s).Some?
    ensures RoleLetter(RoleOfStr(s).value) == s
  {
  }

  /** The role posted by the draw editor: C, P or T, and a Panelist for anything else. */
  function RoleOfForm(s: string): (r: Role)
    ensures RoleOfStr(s).Some? ==> r == RoleOfStr(s).value
    ensures RoleOfStr(s).None? ==> r == Panelist
  {
    if s == "C" then Chair
    else if s == "P" then Panelist
    else if s == "T" then Trainee
    else Panelist
  }

  datatype Judge = Judge(id: string, tournament: string, number: int)

  datatype Room = Room(id: string, tournament: string)

  datatype Debate = Debate(id: string, round: string, number: int, room: Option<string>)

  /** One row of tournament_debate_judges; the role is stored through RoleLetter. */
  datatype Alloc = Alloc(debate: string, judge: string, role: Role)

  /** The ids of the debates that belong to one of the rounds. */
  function DebatesIn(debates: seq<Debate>, rounds: seq<string>): (ids: set<string>)
    ensures forall id :: id in ids <==> exists d :: d in debates && d.round in rounds && d.id == id
  {
    set d | d in debates && d.round in rounds :: d.id
  }

  /** The allocation rows of a judge in the debates of the rounds. */
  function AllocsIn(debates: seq<Debate>, allocs: seq<Alloc>, judge: string, rounds: seq<string>): (r: seq<Alloc>)
    ensures forall a :: a in r <==> a in allocs && a.judge == judge && a.debate in DebatesIn(debates, rounds)
  {
    var ids := DebatesIn(debates, rounds);
    Seqs.Filter(allocs, (a: Alloc) => a.judge == judge && a.debate in ids)
  }

  /** Debate ids are the primary key of the debates table. */
  predicate UniqueDebateIds(debates: seq<Debate>)
  {
    forall i, j :: 0 <= i < j < |debates| ==> debates[i].id != debates[j].id
  }

  /** A form's optional debate id after .filter(|s| !s.is_empty()). */
  function NonEmptyTarget(toDebate: Option<string>): (r: Option<string>)
    ensures r.Some? <==> toDebate.Some? && toDebate.value != ""
    ensures r.Some? ==> r == toDebate
  {
    if toDebate.Some? && toDebate.value != "" then toDebate else None
  }

  /** The tables read and written by the draw editor. */
  class DrawDb {
    var judges: seq<Judge>
    var rooms: seq<Room>
    var debates: seq<Debate>
    var allocs: seq<Alloc>

    constructor (judges: seq<Judge>, rooms: seq<Room>, debates: seq<Debate>, allocs: seq<Alloc>)
      ensures this.judges == judges && this.rooms == rooms
      ensures this.debates == debates && this.allocs == allocs
    {
      this.judges := judges;
      this.rooms := rooms;
      this.debates := debates;
      this.allocs := allocs;
    }
  }
}
