/**
 * The round flags a tab director sets by hand: completion and results
 * publication (src/tournaments/rounds/manage/results.rs) and draw release
 * (src/tournaments/rounds/manage/briefing.rs).
 */
module RoundFlags {
  import opened Wrappers
  import opened Http
  import Rounds

  /** A row of the rounds table: the round and the tournament owning it. */
  datatype Row = Row(tournament: string, round: Rounds.Round)

  class RoundTable {
    var rows: seq<Row>

    constructor ()
      ensures rows == []
    {
      rows := [];
    }
  }

  const IncompleteMessage := "Cannot publish results for an incomplete round."

  /** The invariant results.rs maintains: a round with published results is complete. */
  predicate Consistent(r: Rounds.Round)
  {
    r.resultsPublishedAt.Some? ==> r.completed
  }

  predicate AllConsistent(rows: seq<Row>)
  {
    forall k :: 0 <= k < |rows| ==> Consistent(rows[k].round)
  }

  /** Round ids are the table's primary key. */
  predicate UniqueIds(rows: seq<Row>)
  {
    forall i, j :: 0 <= i < |rows| && 0 <= j < |rows| && rows[i].round.id == rows[j].round.id ==> i == j
  }

  /**
   * set_round_completed on one row: marking a round incomplete also
   * withdraws its results; marking it complete sets only the flag.
   */
  function WithCompleted(r: Rounds.Round, completed: bool): (s: Rounds.Round)
    ensures s.completed == completed
    ensures !completed ==> s.resultsPublishedAt == None
    ensures completed ==> s.resultsPublishedAt == r.resultsPublishedAt
    ensures s.(completed := r.completed, resultsPublishedAt := r.resultsPublishedAt) == r
    ensures Consistent(r) ==> Consistent(s)
  {
    if !completed then r.(completed := false, resultsPublishedAt := None)
    else r.(completed := true)
  }

  /** Publishing is refused for an incomplete round; withdrawing is always allowed. */
  predicate CanPublish(r: Rounds.Round, published: bool)
  {
    !(published && !r.completed)
  }

  /** set_results_published on one row: the publication time is now, or none. */
  function WithPublished(r: Rounds.Round, published: bool, now: int): (s: Rounds.Round)
    ensures s.resultsPublishedAt.Some? <==> published
    ensures published ==> s.resultsPublishedAt == Some(now)
    ensures s.(resultsPublishedAt := r.resultsPublishedAt) == r
    ensures CanPublish(r, published) ==> Consistent(s)
  {
    r.(resultsPublishedAt := if published then Some(now) else None)
  }

  /** set_draw_published on one row: "R" with the release time, or "C" with none. */
  function WithReleased(r: Rounds.Round, released: bool, now: int): (s: Rounds.Round)
    ensures released ==> s.drawStatus == "R" && s.drawReleasedAt == Some(now)
    ensures !released ==> s.drawStatus == "C" && s.drawReleasedAt == None
    ensures s.(drawStatus := r.drawStatus, drawReleasedAt := r.drawReleasedAt) == r
    ensures Consistent(r) ==> Consistent(s)
  {
    r.(drawStatus := if released then "R" else "C", drawReleasedAt := if released then Some(now) else None)
  }

  /** The round with the id, if it belongs to the tournament. */
  function Fetch(rows: seq<Row>, tournament: string, id: string): (r: Option<Rounds.Round>)
    ensures r.None? <==> forall k :: 0 <= k < |rows| ==> !(rows[k].tournament == tournament && rows[k].round.id == id)
    ensures r.Some? ==> exists k :: 0 <= k < |rows| && rows[k].tournament == tournament && rows[k].round == r.value && r.value.id == id
  {
    if rows == [] then None
    else if rows[0].tournament == tournament && rows[0].round.id == id then Some(rows[0].round)
    else
      assert forall k :: 1 <= k < |rows| ==> rows[k] == rows[1..][k - 1];
      var r := Fetch(rows[1..], tournament, id);
      if r.Some? then
        var j :| 0 <= j < |rows[1..]| && rows[1..][j].tournament == tournament && rows[1..][j].round == r.value && r.value.id == id;
        assert rows[j + 1] == rows[1..][j];
        r
      else r
  }

  /** Round::fetch as written: the first round with the id, whatever its tournament. */
  function FetchAsWritten(rows: seq<Row>, id: string): (r: Option<Rounds.Round>)
    ensures r.None? <==> forall k :: 0 <= k < |rows| ==> rows[k].round.id != id
    ensures r.Some? ==> r.value.id == id
  {
    if rows == [] then None
    else if rows[0].round.id == id then Some(rows[0].round)
    else
      assert forall k :: 1 <= k < |rows| ==> rows[k] == rows[1..][k - 1];
      FetchAsWritten(rows[1..], id)
  }

  /** UPDATE ... SET completed (WHERE id): every row with the id, and no other, changes. */
  function CompletedRows(rows: seq<Row>, id: string, completed: bool): (r: seq<Row>)
    ensures |r| == |rows|
    ensures forall k :: 0 <= k < |rows| ==>
      r[k] == if rows[k].round.id == id then Row(rows[k].tournament, WithCompleted(rows[k].round, completed)) else rows[k]
  {
    seq(|rows|, k requires 0 <= k < |rows| =>
      if rows[k].round.id == id then Row(rows[k].tournament, WithCompleted(rows[k].round, completed)) else rows[k])
  }

  function PublishedRows(rows: seq<Row>, id: string, published: bool, now: int): (r: seq<Row>)
    ensures |r| == |rows|
    ensures forall k :: 0 <= k < |rows| ==>
      r[k] == if rows[k].round.id == id then Row(rows[k].tournament, WithPublished(rows[k].round, published, now)) else rows[k]
  {
    seq(|rows|, k requires 0 <= k < |rows| =>
      if rows[k].round.id == id then Row(rows[k].tournament, WithPublished(rows[k].round, published, now)) else rows[k])
  }

  function ReleasedRows(rows: seq<Row>, id: string, released: bool, now: int): (r: seq<Row>)
    ensures |r| == |rows|
    ensures forall k :: 0 <= k < |rows| ==>
      r[k] == if rows[k].round.id == id then Row(rows[k].tournament, WithReleased(rows[k].round, released, now)) else rows[k]
  {
    seq(|rows|, k requires 0 <= k < |rows| =>
      if rows[k].round.id == id then Row(rows[k].tournament, WithReleased(rows[k].round, released, now)) else rows[k])
  }

  /** set_round_completed: the superuser check, the round of the tournament, then the update. */
  function CompletedUpdate(rows: seq<Row>, tournament: string, isSuperuser: bool, roundId: string, completed: bool)
    : (r: (Response, seq<Row>))
    ensures !Commits(r.0) ==> r.1 == rows
  {
    if !isSuperuser then (Unauthorized, rows)
    else match Fetch(rows, tournament, roundId)
      case None => (NotFound, rows)
      case Some(round) => (SeeOther, CompletedRows(rows, round.id, completed))
  }

  /** set_round_completed with the lookup as written. */
  function CompletedUpdateAsWritten(rows: seq<Row>, tournament: string, isSuperuser: bool, roundId: string, completed: bool)
    : (r: (Response, seq<Row>))
    ensures !Commits(r.0) ==> r.1 == rows
  {
    if !isSuperuser then (Unauthorized, rows)
    else match FetchAsWritten(rows, roundId)
      case None => (NotFound, rows)
      case Some(round) => (SeeOther, CompletedRows(rows, round.id, completed))
  }

  /** set_results_published: publishing an incomplete round is a bad request and changes nothing. */
  function PublishedUpdate(rows: seq<Row>, tournament: string, isSuperuser: bool, roundId: string, published: bool, now: int)
    : (r: (Response, seq<Row>))
    ensures !Commits(r.0) ==> r.1 == rows
  {
    if !isSuperuser then (Unauthorized, rows)
    else match Fetch(rows, tournament, roundId)
      case None => (NotFound, rows)
      case Some(round) =>
        if !CanPublish(round, published) then (BadRequest(IncompleteMessage), rows)
        else (SeeOther, PublishedRows(rows, round.id, published, now))
  }

  /** set_draw_published: an unknown round is not found; otherwise the round's draw is released or withdrawn. */
  function ReleasedUpdate(rows: seq<Row>, tournament: string, isSuperuser: bool, roundId: string, released: bool, now: int)
    : (r: (Response, seq<Row>))
    ensures !Commits(r.0) ==> r.1 == rows
  {
    if !isSuperuser then (Unauthorized, rows)
    else match Fetch(rows, tournament, roundId)
      case None => (NotFound, rows)
      case Some(round) => (SeeOther, ReleasedRows(rows, round.id, released, now))
  }

  /** Marking complete or incomplete keeps "published implies complete" and sets the addressed round's flag. */
  lemma CompletedKeepsInvariant(rows: seq<Row>, tournament: string, isSuperuser: bool, roundId: string, completed: bool)
    requires AllConsistent(rows)
    ensures var r := CompletedUpdate(rows, tournament, isSuperuser, roundId, completed);
      AllConsistent(r.1) &&
      (r.0 == SeeOther ==> forall k :: 0 <= k < |r.1| && r.1[k].round.id == roundId ==>
        r.1[k].round.completed == completed && (!completed ==> r.1[k].round.resultsPublishedAt == None))
  {
  }

  /**
   * Publishing or withdrawing keeps "published implies complete", and a
   * request to publish an incomplete round of the tournament is refused.
   */
  lemma PublishedKeepsInvariant(rows: seq<Row>, tournament: string, roundId: string, published: bool, now: int)
    requires AllConsistent(rows) && UniqueIds(rows)
    ensures AllConsistent(PublishedUpdate(rows, tournament, true, roundId, published, now).1)
    ensures Fetch(rows, tournament, roundId).Some? && published && !Fetch(rows, tournament, roundId).value.completed ==>
      PublishedUpdate(rows, tournament, true, roundId, published, now) == (BadRequest(IncompleteMessage), rows)
  {
    var f := Fetch(rows, tournament, roundId);
    if f.Some? && CanPublish(f.value, published) {
      var r := PublishedRows(rows, roundId, published, now);
      var j :| 0 <= j < |rows| && rows[j].tournament == tournament && rows[j].round == f.value && f.value.id == roundId;
      forall k | 0 <= k < |r| ensures Consistent(r[k].round) {
        if rows[k].round.id == roundId {
          assert k == j;
        }
      }
    }
  }

  /** Releasing or withdrawing a draw keeps "published implies complete". */
  lemma ReleasedKeepsInvariant(rows: seq<Row>, tournament: string, isSuperuser: bool, roundId: string, released: bool, now: int)
    requires AllConsistent(rows)
    ensures AllConsistent(ReleasedUpdate(rows, tournament, isSuperuser, roundId, released, now).1)
  {
  }

  /** With unique ids, a committed update changes no row of another tournament and no other round. */
  lemma OnlyAddressedRowChanges(rows: seq<Row>, tournament: string, roundId: string, completed: bool, published: bool,
                                released: bool, now: int)
    requires UniqueIds(rows)
    ensures forall k :: 0 <= k < |rows| && (rows[k].tournament != tournament || rows[k].round.id != roundId) ==>
      CompletedUpdate(rows, tournament, true, roundId, completed).1[k] == rows[k] &&
      PublishedUpdate(rows, tournament, true, roundId, published, now).1[k] == rows[k] &&
      ReleasedUpdate(rows, tournament, true, roundId, released, now).1[k] == rows[k]
  {
    var f := Fetch(rows, tournament, roundId);
    if f.Some? {
      var j :| 0 <= j < |rows| && rows[j].tournament == tournament && rows[j].round == f.value && f.value.id == roundId;
      forall k | 0 <= k < |rows| && rows[k].round.id == roundId
        ensures rows[k].tournament == tournament
      {
        assert k == j;
      }
    }
  }

  /**
   * With the lookup as written, a tab director of tournament "t" can mark
   * complete a round that belongs to tournament "u".
   */
  lemma ForeignRoundCompleted()
    ensures var round := Rounds.Round("r", 1, "Round 1", "P", None, false, "D", None, None);
      var rows := [Row("u", round)];
      CompletedUpdateAsWritten(rows, "t", true, "r", true) == (SeeOther, [Row("u", round.(completed := true))]) &&
      CompletedUpdate(rows, "t", true, "r", true) == (NotFound, rows)
  {
    var round := Rounds.Round("r", 1, "Round 1", "P", None, false, "D", None, None);
    var rows := [Row("u", round)];
    assert FetchAsWritten(rows, "r") == Some(round);
    assert Fetch(rows, "t", "r") == None;
    assert CompletedRows(rows, "r", true) == [Row("u", round.(completed := true))];
  }

  method SetRoundCompleted(db: RoundTable, tournament: string, isSuperuser: bool, roundId: string, completed: bool)
    returns (resp: Response)
    modifies db
    ensures (resp, db.rows) == CompletedUpdate(old(db.rows), tournament, isSuperuser, roundId, completed)
  {
    if !isSuperuser {
      return Unauthorized;
    }
    var round := Fetch(db.rows, tournament, roundId);
    if round.None? {
      return NotFound;
    }
    db.rows := CompletedRows(db.rows, round.value.id, completed);
    resp := SeeOther;
  }

  method SetResultsPublished(db: RoundTable, tournament: string, isSuperuser: bool, roundId: string, published: bool, now: int)
    returns (resp: Response)
    modifies db
    ensures (resp, db.rows) == PublishedUpdate(old(db.rows), tournament, isSuperuser, roundId, published, now)
  {
    if !isSuperuser {
      return Unauthorized;
    }
    var round := Fetch(db.rows, tournament, roundId);
    if round.None? {
      return NotFound;
    }
    if published && !round.value.completed {
      return BadRequest(IncompleteMessage);
    }
    db.rows := PublishedRows(db.rows, round.value.id, published, now);
    resp := SeeOther;
  }

  method SetDrawPublished(db: RoundTable, tournament: string, isSuperuser: bool, roundId: string, released: bool, now: int)
    returns (resp: Response)
    modifies db
    ensures (resp, db.rows) == ReleasedUpdate(old(db.rows), tournament, isSuperuser, roundId, released, now)
  {
    if !isSuperuser {
      return Unauthorized;
    }
    var round := Fetch(db.rows, tournament, roundId);
    if round.None? {
      return NotFound;
    }
    db.rows := ReleasedRows(db.rows, round.value.id, released, now);
    resp := SeeOther;
  }
}
