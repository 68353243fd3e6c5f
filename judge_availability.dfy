/**
 * Judge availability for a round
 * (src/tournaments/rounds/manage/availability/judges.rs): a tab director
 * toggles one judge or checks every judge in or out.
 */
module JudgeAvailability {
  import opened Wrappers
  import opened Http
  import Rounds
  import opened Availability

  /** The flag update_judge_availability stores: the negation of the submitted checkbox, which shows the current state. */
  function Toggled(checkbox: Option<string>): (b: bool)
    ensures b <==> checkbox != Some("on")
  {
    !(checkbox == Some("on"))
  }

  /**
   * update_judge_availability on the availability rows: the superuser
   * check, the round of the tournament, its completion, a preceding
   * incomplete round and the judge of the tournament are checked in that
   * order; each refusal keeps the rows.
   */
  function UpdateOne(rows: seq<Avail>, rounds: seq<Rounds.Round>, judges: seq<string>, isSuperuser: bool,
                     roundId: string, judge: string, checkbox: Option<string>)
    : (r: (Response, seq<Avail>))
    ensures !Commits(r.0) ==> r.1 == rows
  {
    if !isSuperuser then (Unauthorized, rows)
    else match FindRound(rounds, roundId)
      case None => (NotFound, rows)
      case Some(round) =>
        if round.completed then (BadRequest(RoundCompleted), rows)
        else match Rounds.FirstPrecedingIncompleteRound(rounds, round)
          case Some(prev) => (BadRequest(PrecedesMessage(prev)), rows)
          case None =>
            if judge !in judges then (NotFound, rows)
            else (SeeOther, SetForRound(rows, rounds, round, judge, Toggled(checkbox)))
  }

  /** The update goes through exactly when every check passes. */
  lemma UpdateOneCommitsIff(rows: seq<Avail>, rounds: seq<Rounds.Round>, judges: seq<string>, isSuperuser: bool,
                            roundId: string, judge: string, checkbox: Option<string>)
    ensures Commits(UpdateOne(rows, rounds, judges, isSuperuser, roundId, judge, checkbox).0) <==>
      isSuperuser && FindRound(rounds, roundId).Some? && !FindRound(rounds, roundId).value.completed &&
      Rounds.FirstPrecedingIncompleteRound(rounds, FindRound(rounds, roundId).value).None? && judge in judges
  {
  }

  /**
   * After a successful update the judge's flag in the round is the negated
   * checkbox and the judge is unavailable in the other rounds of its seq.
   */
  lemma UpdateOneEffect(rows: seq<Avail>, rounds: seq<Rounds.Round>, judges: seq<string>,
                        roundId: string, judge: string, checkbox: Option<string>)
    requires UpdateOne(rows, rounds, judges, true, roundId, judge, checkbox).0 == SeeOther
    ensures var r := UpdateOne(rows, rounds, judges, true, roundId, judge, checkbox).1;
      var round := FindRound(rounds, roundId).value;
      Flag(r, roundId, judge) == Some(checkbox != Some("on")) &&
      forall k :: 0 <= k < |r| && r[k].participant == judge && r[k].round in SameSeqOthers(rounds, round) ==> !r[k].available
  {
    var round := FindRound(rounds, roundId).value;
    SetForRoundEffect(rows, rounds, round, judge, Toggled(checkbox));
  }

  method UpdateJudgeAvailability(db: AvailabilityTable, rounds: seq<Rounds.Round>, judges: seq<string>, isSuperuser: bool,
                                 roundId: string, judge: string, checkbox: Option<string>)
    returns (resp: Response)
    modifies db
    ensures (resp, db.rows) == UpdateOne(old(db.rows), rounds, judges, isSuperuser, roundId, judge, checkbox)
  {
    var available := Toggled(checkbox);
    if !isSuperuser {
      return Unauthorized;
    }
    var round := FindRound(rounds, roundId);
    if round.None? {
      return NotFound;
    }
    if round.value.completed {
      return BadRequest(RoundCompleted);
    }
    var prev := Rounds.FirstPrecedingIncompleteRound(rounds, round.value);
    if prev.Some? {
      return BadRequest(PrecedesMessage(prev.value));
    }
    if judge !in judges {
      return NotFound;
    }
    db.rows := Upsert(db.rows, round.value.id, judge, available);
    db.rows := Cleared(db.rows, Some(judge), SameSeqOthers(rounds, round.value));
    resp := SeeOther;
  }

  /**
   * update_judge_availability_for_all: "in" checks in every judge of the
   * tournament, "out" checks out every row of the round, anything else is
   * a bad request. The round's completion is not checked here.
   */
  function UpdateAll(rows: seq<Avail>, rounds: seq<Rounds.Round>, judges: seq<string>, isSuperuser: bool,
                     roundId: string, check: string)
    : (r: (Response, seq<Avail>))
    ensures !Commits(r.0) ==> r.1 == rows
    ensures Commits(r.0) <==> isSuperuser && FindRound(rounds, roundId).Some? && (check == "in" || check == "out")
  {
    if !isSuperuser then (Unauthorized, rows)
    else match FindRound(rounds, roundId)
      case None => (NotFound, rows)
      case Some(round) =>
        if check == "in" then (SeeOther, CheckIn(rows, rounds, round, judges))
        else if check == "out" then (SeeOther, CheckOut(rows, round))
        else (BadRequest(InvalidCheck), rows)
  }

  method UpdateJudgeAvailabilityForAll(db: AvailabilityTable, rounds: seq<Rounds.Round>, judges: seq<string>, isSuperuser: bool,
                                       roundId: string, check: string)
    returns (resp: Response)
    modifies db
    ensures (resp, db.rows) == UpdateAll(old(db.rows), rounds, judges, isSuperuser, roundId, check)
  {
    if !isSuperuser {
      return Unauthorized;
    }
    var round := FindRound(rounds, roundId);
    if round.None? {
      return NotFound;
    }
    if check == "in" {
      var upserted := UpsertEach(db.rows, round.value.id, judges, true);
      db.rows := Cleared(upserted, None, SameSeqOthers(rounds, round.value));
    } else if check == "out" {
      db.rows := Cleared(db.rows, None, {round.value.id});
    } else {
      return BadRequest(InvalidCheck);
    }
    resp := SeeOther;
  }
}
