/**
 * Draw generation under a ticket lease
 * (src/tournaments/rounds/draws/manage/drawalgs/mod.rs): a ticket is taken
 * in one transaction, the generator runs outside any transaction, and a
 * second transaction checks the ticket, writes the draw and releases it.
 */
module Tickets {
  import opened Wrappers

  datatype MakeDrawError =
    | InvalidConfiguration(msg: string)
    | InvalidTeamCount(msg: string)
    | AlreadyInProgress
    | TicketExpired

  /** One row of tournament_round_tickets; the log is append-only. */
  datatype Ticket = Ticket(id: string, round: string, seqNo: int, kind: string, released: bool)

  datatype DrawRow = DrawRow(id: string, tournament: string, round: string, status: string, releasedAt: Option<int>)

  datatype DebateRow = DebateRow(id: string, tournament: string, draw: string, room: Option<string>)

  datatype DebateTeamRow = DebateTeamRow(debate: string, team: string, side: int, seqNo: int)

  /** The teams of one room as the generator returns them: proposition, then opposition. */
  type Pairing = (seq<string>, seq<string>)

  /** A draw ticket of the round that is still held. */
  predicate Unreleased(t: Ticket, round: string)
  {
    t.round == round && t.kind == "draw" && !t.released
  }

  /** SELECT max(seq) over the round's unreleased draw tickets. */
  function MaxUnreleasedSeq(tickets: seq<Ticket>, round: string): (r: Option<int>)
    ensures r.None? <==> forall k :: 0 <= k < |tickets| ==> !Unreleased(tickets[k], round)
    ensures r.Some? ==> forall k :: 0 <= k < |tickets| && Unreleased(tickets[k], round) ==> tickets[k].seqNo <= r.value
    ensures r.Some? ==> exists k :: 0 <= k < |tickets| && Unreleased(tickets[k], round) && tickets[k].seqNo == r.value
  {
    if tickets == [] then None
    else
      var rest := MaxUnreleasedSeq(tickets[1..], round);
      assert forall k :: 1 <= k < |tickets| ==> tickets[k] == tickets[1..][k - 1];
      var t := tickets[0];
      if !Unreleased(t, round) then rest
      else if rest.None? || rest.value < t.seqNo then Some(t.seqNo)
      else rest
  }

  /**
   * The first transaction: refuse while a draw ticket of the round is held
   * unless overriding; an override numbers the new ticket one above the
   * held ones, otherwise the new ticket is numbered 0.
   */
  function AcquireOutcome(tickets: seq<Ticket>, round: string, override: bool, id: string): (r: (Result<string, MakeDrawError>, seq<Ticket>))
    ensures MaxUnreleasedSeq(tickets, round).Some? && !override ==> r == (Err(AlreadyInProgress), tickets)
    ensures MaxUnreleasedSeq(tickets, round).Some? && override ==>
      r == (Ok(id), tickets + [Ticket(id, round, MaxUnreleasedSeq(tickets, round).value + 1, "draw", false)])
    ensures MaxUnreleasedSeq(tickets, round).None? ==> r == (Ok(id), tickets + [Ticket(id, round, 0, "draw", false)])
  {
    var previous := MaxUnreleasedSeq(tickets, round);
    if previous.Some? && override then (Ok(id), tickets + [Ticket(id, round, previous.value + 1, "draw", false)])
    else if previous.Some? && !override then (Err(AlreadyInProgress), tickets)
    else (Ok(id), tickets + [Ticket(id, round, 0, "draw", false)])
  }

  /** A newly taken ticket outranks every other ticket of the round still held. */
  lemma AcquiredTicketOutranksHeld(tickets: seq<Ticket>, round: string, override: bool, id: string)
    requires AcquireOutcome(tickets, round, override, id).0.Ok?
    ensures var after := AcquireOutcome(tickets, round, override, id).1;
      |after| == |tickets| + 1 && after[..|tickets|] == tickets &&
      Unreleased(after[|tickets|], round) &&
      forall k :: 0 <= k < |tickets| && Unreleased(tickets[k], round) ==> tickets[k].seqNo < after[|tickets|].seqNo
  {
  }

  /**
   * An override does not release the ticket it overrides: the round then
   * has two draw tickets held at once.
   */
  lemma OverrideLeavesTwoHeld(tickets: seq<Ticket>, round: string, id: string)
    requires MaxUnreleasedSeq(tickets, round).Some?
    ensures var after := AcquireOutcome(tickets, round, true, id).1;
      exists i, j :: 0 <= i < j < |after| && Unreleased(after[i], round) && Unreleased(after[j], round)
  {
    var after := AcquireOutcome(tickets, round, true, id).1;
    var i :| 0 <= i < |tickets| && Unreleased(tickets[i], round) && tickets[i].seqNo == MaxUnreleasedSeq(tickets, round).value;
    assert after[i] == tickets[i];
    assert Unreleased(after[|tickets|], round);
  }

  /** The row of the ticket with this id, as the sub-select on tickets2 finds it. */
  function FindTicket(tickets: seq<Ticket>, id: string): (r: Option<Ticket>)
    ensures r.Some? ==> r.value in tickets && r.value.id == id
    ensures r.None? <==> forall k :: 0 <= k < |tickets| ==> tickets[k].id != id
  {
    if tickets == [] then None
    else if tickets[0].id == id then Some(tickets[0])
    else
      var r := FindTicket(tickets[1..], id);
      assert forall k :: 1 <= k < |tickets| ==> tickets[k] == tickets[1..][k - 1];
      r
  }

  /**
   * The validity test as written: the ticket counts as valid when SOME
   * ticket, of any round or kind, has a greater seq.
   */
  predicate TicketValidAsWritten(tickets: seq<Ticket>, id: string)
  {
    FindTicket(tickets, id).Some? &&
    exists k :: 0 <= k < |tickets| && tickets[k].seqNo > FindTicket(tickets, id).value.seqNo
  }

  /**
   * The validity test the lease needs: no draw ticket of the same round that
   * is still held outranks this one (no override has superseded it).
   */
  predicate TicketValid(tickets: seq<Ticket>, id: string)
  {
    FindTicket(tickets, id).Some? &&
    var mine := FindTicket(tickets, id).value;
    forall k :: 0 <= k < |tickets| && Unreleased(tickets[k], mine.round) ==> tickets[k].seqNo <= mine.seqNo
  }

  /**
   * On a log with no tickets, the first draw of a round takes seq 0 and, as
   * written, finds no greater seq and reports TicketExpired; the corrected
   * test accepts it.
   */
  lemma FirstDrawExpiresAsWritten(round: string, id: string)
    ensures var after := AcquireOutcome([], round, false, id).1;
      after == [Ticket(id, round, 0, "draw", false)] &&
      !TicketValidAsWritten(after, id) && TicketValid(after, id)
  {
  }

  /** A freshly taken ticket passes the corrected test while no later ticket is taken. */
  lemma AcquiredTicketIsValid(tickets: seq<Ticket>, round: string, override: bool, id: string)
    requires forall k :: 0 <= k < |tickets| ==> tickets[k].id != id
    requires AcquireOutcome(tickets, round, override, id).0.Ok?
    ensures TicketValid(AcquireOutcome(tickets, round, override, id).1, id)
  {
    var after := AcquireOutcome(tickets, round, override, id).1;
    AcquiredTicketOutranksHeld(tickets, round, override, id);
    assert FindTicket(after, id) == Some(after[|tickets|]) by {
      FindTicketAfter(tickets, after[|tickets|]);
      assert after == tickets + [after[|tickets|]];
    }
  }

  lemma {:induction false} FindTicketAfter(tickets: seq<Ticket>, t: Ticket)
    requires forall k :: 0 <= k < |tickets| ==> tickets[k].id != t.id
    ensures FindTicket(tickets + [t], t.id) == Some(t)
  {
    if tickets != [] {
      assert (tickets + [t])[1..] == tickets[1..] + [t];
      FindTicketAfter(tickets[1..], t);
    }
  }

  /** A ticket overridden by a later one fails the corrected test until that one is released. */
  lemma OverriddenTicketExpires(tickets: seq<Ticket>, round: string, mine: string, id: string)
    requires forall k :: 0 <= k < |tickets| ==> tickets[k].id != id
    requires FindTicket(tickets, mine).Some? && Unreleased(FindTicket(tickets, mine).value, round)
    ensures !TicketValid(AcquireOutcome(tickets, round, true, id).1, mine)
  {
    var after := AcquireOutcome(tickets, round, true, id).1;
    var m := FindTicket(tickets, mine).value;
    assert FindTicket(after, mine) == Some(m) by {
      FindTicketPrefix(tickets, after[|tickets|], mine);
      assert after == tickets + [after[|tickets|]];
    }
    var i :| 0 <= i < |tickets| && tickets[i] == m;
    assert Unreleased(after[|tickets|], m.round);
  }

  lemma {:induction false} FindTicketPrefix(tickets: seq<Ticket>, t: Ticket, id: string)
    requires FindTicket(tickets, id).Some?
    ensures FindTicket(tickets + [t], id) == FindTicket(tickets, id)
  {
    if tickets[0].id != id {
      assert (tickets + [t])[1..] == tickets[1..] + [t];
      FindTicketPrefix(tickets[1..], t, id);
    }
  }

  /** The UPDATE that marks the ticket with this id released. */
  function Release(tickets: seq<Ticket>, id: string): (r: seq<Ticket>)
    ensures |r| == |tickets|
    ensures forall k :: 0 <= k < |r| ==> r[k] == if tickets[k].id == id then tickets[k].(released := true) else tickets[k]
  {
    if tickets == [] then []
    else [if tickets[0].id == id then tickets[0].(released := true) else tickets[0]] + Release(tickets[1..], id)
  }

  /** Releasing twice is releasing once. */
  lemma ReleaseIdempotent(tickets: seq<Ticket>, id: string)
    ensures Release(Release(tickets, id), id) == Release(tickets, id)
  {
    var once := Release(tickets, id);
    var twice := Release(once, id);
    assert |twice| == |once|;
    forall k | 0 <= k < |once| ensures twice[k] == once[k] {
    }
  }

  /** After the commit transaction the ticket is no longer held, whatever the validity test said. */
  lemma ReleasedTicketIsNotHeld(tickets: seq<Ticket>, id: string, round: string)
    ensures forall k :: 0 <= k < |tickets| && tickets[k].id == id ==> !Unreleased(Release(tickets, id)[k], round)
  {
  }

  /** The debate-team rows of one side: team k sits at the given side with seq k. */
  function SideRows(debate: string, teams: seq<string>, side: int): (r: seq<DebateTeamRow>)
    ensures |r| == |teams|
    ensures forall k :: 0 <= k < |r| ==> r[k] == DebateTeamRow(debate, teams[k], side, k)
  {
    seq(|teams|, k requires 0 <= k < |teams| => DebateTeamRow(debate, teams[k], side, k))
  }

  /** The rows of one room: the proposition at side 0, then the opposition at side 1. */
  function RoomRows(debate: string, room: Pairing): (r: seq<DebateTeamRow>)
    ensures |r| == |room.0| + |room.1|
  {
    SideRows(debate, room.0, 0) + SideRows(debate, room.1, 1)
  }

  /** The debate-team rows of the first |draw| rooms, room k in debate debateId(k). */
  function TeamRows(draw: seq<Pairing>, debateId: nat -> string): (r: seq<DebateTeamRow>)
  {
    if draw == [] then []
    else TeamRows(draw[..|draw| - 1], debateId) + RoomRows(debateId(|draw| - 1), draw[|draw| - 1])
  }

  /** The debate rows of a draw: one per room, without a room assigned. */
  function DebateRows(draw: seq<Pairing>, tournament: string, drawId: string, debateId: nat -> string): (r: seq<DebateRow>)
    ensures |r| == |draw|
    ensures forall k :: 0 <= k < |r| ==> r[k] == DebateRow(debateId(k), tournament, drawId, None)
  {
    seq(|draw|, k requires 0 <= k < |draw| => DebateRow(debateId(k), tournament, drawId, None))
  }

  /** Every team of every room gets a row in its room's debate, at its side and its index within the side. */
  lemma {:induction false} TeamRowsPlaceEveryTeam(draw: seq<Pairing>, debateId: nat -> string, k: int, j: int)
    requires 0 <= k < |draw|
    ensures 0 <= j < |draw[k].0| ==> DebateTeamRow(debateId(k), draw[k].0[j], 0, j) in TeamRows(draw, debateId)
    ensures 0 <= j < |draw[k].1| ==> DebateTeamRow(debateId(k), draw[k].1[j], 1, j) in TeamRows(draw, debateId)
  {
    var n := |draw| - 1;
    var rows := RoomRows(debateId(n), draw[n]);
    if k == n {
      if 0 <= j < |draw[k].0| {
        assert rows[j] == DebateTeamRow(debateId(k), draw[k].0[j], 0, j);
      }
      if 0 <= j < |draw[k].1| {
        assert rows[|draw[k].0| + j] == DebateTeamRow(debateId(k), draw[k].1[j], 1, j);
      }
    } else {
      assert draw[..n][k] == draw[k];
      TeamRowsPlaceEveryTeam(draw[..n], debateId, k, j);
    }
  }

  /** The inner loops of the commit: push the rows of one side, team j with seq j. */
  method PushSide(rows: seq<DebateTeamRow>, debate: string, teams: seq<string>, side: int) returns (r: seq<DebateTeamRow>)
    ensures r == rows + SideRows(debate, teams, side)
  {
    r := rows;
    for j := 0 to |teams|
      invariant r == rows + SideRows(debate, teams[..j], side)
    {
      r := r + [DebateTeamRow(debate, teams[j], side, j)];
    }
    assert teams[..|teams|] == teams;
  }

  /** The loop of the commit over the rooms of the draw, pushing a debate and its team rows per room. */
  method BuildRows(draw: seq<Pairing>, tournament: string, drawId: string, debateId: nat -> string)
    returns (newDebates: seq<DebateRow>, newTeams: seq<DebateTeamRow>)
    ensures newDebates == DebateRows(draw, tournament, drawId, debateId)
    ensures newTeams == TeamRows(draw, debateId)
  {
    newDebates, newTeams := [], [];
    for i := 0 to |draw|
      invariant newDebates == DebateRows(draw[..i], tournament, drawId, debateId)
      invariant newTeams == TeamRows(draw[..i], debateId)
    {
      var id := debateId(i);
      newDebates := newDebates + [DebateRow(id, tournament, drawId, None)];
      var before := newTeams;
      newTeams := PushSide(newTeams, id, draw[i].0, 0);
      newTeams := PushSide(newTeams, id, draw[i].1, 1);
      assert draw[..i + 1][..i] == draw[..i];
      assert newTeams == TeamRows(draw[..i], debateId) + RoomRows(id, draw[i]);
    }
    assert draw[..|draw|] == draw;
  }

  /** The tables the two transactions of do_draw read and write. */
  class DrawStore {
    var tickets: seq<Ticket>
    var draws: seq<DrawRow>
    var debates: seq<DebateRow>
    var debateTeams: seq<DebateTeamRow>

    constructor (tickets: seq<Ticket>)
      ensures this.tickets == tickets && draws == [] && debates == [] && debateTeams == []
    {
      this.tickets := tickets;
      draws, debates, debateTeams := [], [], [];
    }

    /** The acquisition transaction. */
    method Acquire(round: string, override: bool, id: string) returns (r: Result<string, MakeDrawError>)
      modifies this
      ensures (r, tickets) == AcquireOutcome(old(tickets), round, override, id)
      ensures draws == old(draws) && debates == old(debates) && debateTeams == old(debateTeams)
    {
      var previous := MaxUnreleasedSeq(tickets, round);
      if previous.Some? && override {
        tickets := tickets + [Ticket(id, round, previous.value + 1, "draw", false)];
        return Ok(id);
      } else if previous.Some? && !override {
        return Err(AlreadyInProgress);
      } else {
        tickets := tickets + [Ticket(id, round, 0, "draw", false)];
        return Ok(id);
      }
    }

    /**
     * do_draw: take the ticket; run the generator (its result is a
     * parameter, since it is computed outside the model); an error from it
     * returns at once and leaves the ticket held. Otherwise, in the commit
     * transaction, write the draw if the ticket is still valid, and release
     * the ticket on both branches.
     */
    method DoDraw(tournament: string, round: string, override: bool, ticketId: string, drawId: string,
                  generated: Result<seq<Pairing>, MakeDrawError>, debateId: nat -> string)
      returns (r: Result<string, MakeDrawError>)
      modifies this
      ensures var taken := AcquireOutcome(old(tickets), round, override, ticketId);
        taken.0.Err? ==> (r == taken.0 && tickets == old(tickets) && draws == old(draws) &&
          debates == old(debates) && debateTeams == old(debateTeams))
      ensures var taken := AcquireOutcome(old(tickets), round, override, ticketId);
        taken.0.Ok? && generated.Err? ==> (r == Err(generated.error) && tickets == taken.1 &&
          draws == old(draws) && debates == old(debates) && debateTeams == old(debateTeams))
      ensures var taken := AcquireOutcome(old(tickets), round, override, ticketId);
        taken.0.Ok? && generated.Ok? ==> tickets == Release(taken.1, ticketId)
      ensures var taken := AcquireOutcome(old(tickets), round, override, ticketId);
        taken.0.Ok? && generated.Ok? && TicketValid(taken.1, ticketId) ==> (
          r == Ok(drawId) &&
          draws == old(draws) + [DrawRow(drawId, tournament, round, "D", None)] &&
          debates == old(debates) + DebateRows(generated.value, tournament, drawId, debateId) &&
          debateTeams == old(debateTeams) + TeamRows(generated.value, debateId))
      ensures var taken := AcquireOutcome(old(tickets), round, override, ticketId);
        taken.0.Ok? && generated.Ok? && !TicketValid(taken.1, ticketId) ==> (
          r == Err(TicketExpired) && draws == old(draws) && debates == old(debates) && debateTeams == old(debateTeams))
    {
      var acquired := Acquire(round, override, ticketId);
      if acquired.Err? {
        return Err(acquired.error);
      }
      if generated.Err? {
        return Err(generated.error);
      }
      var draw := generated.value;
      if TicketValid(tickets, ticketId) {
        draws := draws + [DrawRow(drawId, tournament, round, "D", None)];
        var newDebates, newTeams := BuildRows(draw, tournament, drawId, debateId);
        debates := debates + newDebates;
        debateTeams := debateTeams + newTeams;
        tickets := Release(tickets, ticketId);
        r := Ok(drawId);
      } else {
        r := Err(TicketExpired);
      }
      ReleaseIdempotent(tickets, ticketId);
      tickets := Release(tickets, ticketId);
    }
  }
}
