/**
 * The availability tables shared by judges and teams
 * (tournament_judge_availability and team_availability): one row per
 * (round, participant) pair with an `available` flag, written by an upsert
 * and cleared by bulk updates.
 */
module Availability {
  import opened Wrappers
  import Rounds

  /** A row of an availability table; the row's own uuid is left out. */
  datatype Avail = Avail(round: string, participant: string, available: bool)

  class AvailabilityTable {
    var rows: seq<Avail>

    constructor ()
      ensures rows == []
    {
      rows := [];
    }
  }

  predicate Keyed(a: Avail, round: string, participant: string)
  {
    a.round == round && a.participant == participant
  }

  /** The flag stored for the pair: that of its first row, if it has one. */
  function Flag(rows: seq<Avail>, round: string, participant: string): (r: Option<bool>)
    ensures r.None? <==> forall k :: 0 <= k < |rows| ==> !Keyed(rows[k], round, participant)
    ensures r.Some? ==> exists k :: 0 <= k < |rows| && Keyed(rows[k], round, participant) && rows[k].available == r.value
  {
    if rows == [] then None
    else if Keyed(rows[0], round, participant) then Some(rows[0].available)
    else
      assert forall k :: 1 <= k < |rows| ==> rows[k] == rows[1..][k - 1];
      Flag(rows[1..], round, participant)
  }

  /**
   * INSERT ... ON CONFLICT (round_id, participant) DO UPDATE SET available:
   * an existing row of the pair takes the flag, otherwise a row is added.
   */
  function Upsert(rows: seq<Avail>, round: string, participant: string, available: bool): (r: seq<Avail>)
    ensures forall k :: 0 <= k < |rows| && !Keyed(rows[k], round, participant) ==> k < |r| && r[k] == rows[k]
    ensures forall k :: 0 <= k < |r| ==> (Keyed(r[k], round, participant) ==> r[k].available == available)
    ensures exists k :: 0 <= k < |r| && Keyed(r[k], round, participant)
    ensures |r| == |rows| || r == rows + [Avail(round, participant, available)]
  {
    if exists k :: 0 <= k < |rows| && Keyed(rows[k], round, participant) then
      var r := seq(|rows|, k requires 0 <= k < |rows| =>
        if Keyed(rows[k], round, participant) then rows[k].(available := available) else rows[k]);
      var j :| 0 <= j < |rows| && Keyed(rows[j], round, participant);
      assert Keyed(r[j], round, participant);
      r
    else
      var r := rows + [Avail(round, participant, available)];
      assert Keyed(r[|rows|], round, participant);
      r
  }

  /** After an upsert the pair's flag is the one written. */
  lemma UpsertSetsFlag(rows: seq<Avail>, round: string, participant: string, available: bool)
    ensures Flag(Upsert(rows, round, participant, available), round, participant) == Some(available)
  {
  }

  /** An upsert leaves the flag of every other pair as it was. */
  lemma {:induction false} UpsertKeepsOthers(rows: seq<Avail>, round: string, participant: string, available: bool,
                                             round2: string, participant2: string)
    requires round2 != round || participant2 != participant
    ensures Flag(Upsert(rows, round, participant, available), round2, participant2) == Flag(rows, round2, participant2)
  {
    var r := Upsert(rows, round, participant, available);
    FlagOfPointwise(rows, r, round2, participant2);
  }

  /** Two tables agreeing row by row on one pair (and the longer one adding none of it) store the same flag for it. */
  lemma {:induction false} FlagOfPointwise(a: seq<Avail>, b: seq<Avail>, round: string, participant: string)
    requires |a| <= |b|
    requires forall k :: 0 <= k < |a| ==> (Keyed(a[k], round, participant) <==> Keyed(b[k], round, participant))
    requires forall k :: 0 <= k < |a| && Keyed(a[k], round, participant) ==> a[k] == b[k]
    requires forall k :: |a| <= k < |b| ==> !Keyed(b[k], round, participant)
    ensures Flag(a, round, participant) == Flag(b, round, participant)
  {
    if a != [] {
      assert forall k :: 1 <= k < |a| ==> a[k] == a[1..][k - 1];
      assert forall k :: 1 <= k < |b| ==> b[k] == b[1..][k - 1];
      FlagOfPointwise(a[1..], b[1..], round, participant);
    } else if b != [] {
      assert forall k :: 1 <= k < |b| ==> b[k] == b[1..][k - 1];
      FlagOfPointwise(a, b[1..], round, participant);
    }
  }

  /** UPDATE ... SET available = false for the rows the predicate selects: rows of the participant (if given) in the rounds. */
  function Cleared(rows: seq<Avail>, participant: Option<string>, rounds: set<string>): (r: seq<Avail>)
    ensures |r| == |rows|
    ensures forall k :: 0 <= k < |rows| ==> (r[k] ==
      if rows[k].round in rounds && (participant.None? || rows[k].participant == participant.value) then rows[k].(available := false)
      else rows[k])
  {
    seq(|rows|, k requires 0 <= k < |rows| =>
      if rows[k].round in rounds && (participant.None? || rows[k].participant == participant.value) then rows[k].(available := false)
      else rows[k])
  }

  /** Clearing other rounds keeps the flag of a pair whose round is not among them. */
  lemma ClearKeepsRound(rows: seq<Avail>, participant: Option<string>, rounds: set<string>, round: string, p: string)
    requires round !in rounds
    ensures Flag(Cleared(rows, participant, rounds), round, p) == Flag(rows, round, p)
  {
    FlagOfPointwise(rows, Cleared(rows, participant, rounds), round, p);
  }

  /** The other rounds of the tournament held at the same seq as the round. */
  function SameSeqOthers(rounds: seq<Rounds.Round>, round: Rounds.Round): (r: set<string>)
    ensures forall id :: id in r <==> exists x :: x in rounds && x.seqNo == round.seqNo && x.id != round.id && x.id == id
    ensures round.id !in r
  {
    set x | x in rounds && x.seqNo == round.seqNo && x.id != round.id :: x.id
  }

  /** The round with the id among the tournament's rounds. */
  function FindRound(rounds: seq<Rounds.Round>, id: string): (r: Option<Rounds.Round>)
    ensures r.None? <==> forall k :: 0 <= k < |rounds| ==> rounds[k].id != id
    ensures r.Some? ==> r.value in rounds && r.value.id == id
  {
    if rounds == [] then None
    else if rounds[0].id == id then Some(rounds[0])
    else
      assert forall k :: 1 <= k < |rounds| ==> rounds[k] == rounds[1..][k - 1];
      FindRound(rounds[1..], id)
  }

  /** One upsert per participant, in order, all with the same flag. */
  function UpsertAll(rows: seq<Avail>, round: string, participants: seq<string>, available: bool): (r: seq<Avail>)
  {
    if participants == [] then rows
    else
      var n := |participants| - 1;
      Upsert(UpsertAll(rows, round, participants[..n], available), round, participants[n], available)
  }

  /** After the upserts every listed participant has the flag in the round. */
  lemma {:induction false} UpsertAllSetsFlags(rows: seq<Avail>, round: string, participants: seq<string>, available: bool, p: string)
    requires p in participants
    ensures Flag(UpsertAll(rows, round, participants, available), round, p) == Some(available)
  {
    var n := |participants| - 1;
    var before := UpsertAll(rows, round, participants[..n], available);
    if participants[n] == p {
      UpsertSetsFlag(before, round, p, available);
    } else {
      assert p in participants[..n];
      UpsertAllSetsFlags(rows, round, participants[..n], available, p);
      UpsertKeepsOthers(before, round, participants[n], available, round, p);
    }
  }

  /** The loop of the check-in-all handlers: one upsert per participant. */
  method UpsertEach(rows: seq<Avail>, round: string, participants: seq<string>, available: bool) returns (r: seq<Avail>)
    ensures r == UpsertAll(rows, round, participants, available)
  {
    r := rows;
    for i := 0 to |participants|
      invariant r == UpsertAll(rows, round, participants[..i], available)
    {
      assert participants[..i + 1][..i] == participants[..i];
      r := Upsert(r, round, participants[i], available);
    }
    assert participants[..|participants|] == participants;
  }

  /**
   * The update of one participant in one round: the pair's row is upserted
   * with the flag, then the participant's rows in the other rounds of the
   * same seq are set unavailable.
   */
  function SetForRound(rows: seq<Avail>, rounds: seq<Rounds.Round>, round: Rounds.Round, p: string, available: bool): seq<Avail>
  {
    Cleared(Upsert(rows, round.id, p, available), Some(p), SameSeqOthers(rounds, round))
  }

  /**
   * After SetForRound the participant has the flag in the round and is
   * unavailable in every other round of the same seq; rows of other
   * participants are untouched.
   */
  lemma SetForRoundEffect(rows: seq<Avail>, rounds: seq<Rounds.Round>, round: Rounds.Round, p: string, available: bool)
    ensures var r := SetForRound(rows, rounds, round, p, available);
      Flag(r, round.id, p) == Some(available) &&
      (forall k :: 0 <= k < |r| && r[k].participant == p && r[k].round in SameSeqOthers(rounds, round) ==> !r[k].available) &&
      (forall k :: 0 <= k < |rows| && rows[k].participant != p ==> r[k] == rows[k])
  {
    var u := Upsert(rows, round.id, p, available);
    UpsertSetsFlag(rows, round.id, p, available);
    ClearKeepsRound(u, Some(p), SameSeqOthers(rounds, round), round.id, p);
  }

  /** "in": every listed participant is upserted available, then every row of the other same-seq rounds is cleared. */
  function CheckIn(rows: seq<Avail>, rounds: seq<Rounds.Round>, round: Rounds.Round, participants: seq<string>): seq<Avail>
  {
    Cleared(UpsertAll(rows, round.id, participants, true), None, SameSeqOthers(rounds, round))
  }

  /** After "in" every listed participant is available in the round and no one is in the other rounds of its seq. */
  lemma CheckInEffect(rows: seq<Avail>, rounds: seq<Rounds.Round>, round: Rounds.Round, participants: seq<string>, p: string)
    ensures p in participants ==> Flag(CheckIn(rows, rounds, round, participants), round.id, p) == Some(true)
    ensures var r := CheckIn(rows, rounds, round, participants);
      forall k :: 0 <= k < |r| && r[k].round in SameSeqOthers(rounds, round) ==> !r[k].available
  {
    if p in participants {
      UpsertAllSetsFlags(rows, round.id, participants, true, p);
      ClearKeepsRound(UpsertAll(rows, round.id, participants, true), None, SameSeqOthers(rounds, round), round.id, p);
    }
  }

  /** "out": every row of the round is set unavailable; no row is added. */
  function CheckOut(rows: seq<Avail>, round: Rounds.Round): (r: seq<Avail>)
    ensures |r| == |rows|
    ensures forall k :: 0 <= k < |r| ==> r[k].round == rows[k].round && r[k].participant == rows[k].participant
    ensures forall k :: 0 <= k < |r| ==> (r[k].available <==> rows[k].available && rows[k].round != round.id)
  {
    Cleared(rows, None, {round.id})
  }

  /** The message of the handlers for a completed round. */
  const RoundCompleted := "Note: the current round has been completed, so judge availability can no longer be updated!"
  const InvalidCheck := "Invalid check-in option."

  function PrecedesMessage(prev: Rounds.Round): string
  {
    "Note: " + prev.name + " should be marked as complete first (it precedes the current round)"
  }
}
