/**
 * Team eligibility for a round
 * (src/tournaments/rounds/manage/availability/teams.rs): a tab director
 * sets one team's flag or checks every team in or out.
 */
module TeamAvailability {
  import opened Wrappers
  import opened Http
  import Rounds
  import opened Availability

  /** update_team_eligibility stores true exactly when the form's field is "true". */
  function Eligible(field: Option<string>): (b: bool)
    ensures b <==> field == Some("true")
  {
    field == Some("true")
  }

  /**
   * update_team_eligibility on the availability rows: the superuser check,
   * the team of the tournament, the round of the tournament, its
   * completion and a preceding incomplete round are checked in that order;
   * each refusal keeps the rows.
   */
  function UpdateOne(rows: seq<Avail>, rounds: seq<Rounds.Round>, teams: seq<string>, isSuperuser: bool,
                     roundId: string, team: string, field: Option<string>)
    : (r: (Response, seq<Avail>))
    ensures !Commits(r.0) ==> r.1 == rows
  {
    if !isSuperuser then (Unauthorized, rows)
    else if team !in teams then (NotFound, rows)
    else match FindRound(rounds, roundId)
      case None => (NotFound, rows)
      case Some(round) =>
        if round.completed then (BadRequest(RoundCompleted), rows)
        else match Rounds.FirstPrecedingIncompleteRound(rounds, round)
          case Some(prev) => (BadRequest(PrecedesMessage(prev)), rows)
          case None => (SeeOther, SetForRound(rows, rounds, round, team, Eligible(field)))
  }

  /** The update goes through exactly when every check passes. */
  lemma UpdateOneCommitsIff(rows: seq<Avail>, rounds: seq<Rounds.Round>, teams: seq<string>, isSuperuser: bool,
                            roundId: string, team: string, field: Option<string>)
    ensures Commits(UpdateOne(rows, rounds, teams, isSuperuser, roundId, team, field).0) <==>
      isSuperuser && team in teams && FindRound(rounds, roundId).Some? && !FindRound(rounds, roundId).value.completed &&
      Rounds.FirstPrecedingIncompleteRound(rounds, FindRound(rounds, roundId).value).None?
  {
  }

  /**
   * After a successful update the team's flag in the round is the submitted
   * one and the team is unavailable in the other rounds of its seq.
   */
  lemma UpdateOneEffect(rows: seq<Avail>, rounds: seq<Rounds.Round>, teams: seq<string>,
                        roundId: string, team: string, field: Option<string>)
    requires UpdateOne(rows, rounds, teams, true, roundId, team, field).0 == SeeOther
    ensures var r := UpdateOne(rows, rounds, teams, true, roundId, team, field).1;
      var round := FindRound(rounds, roundId).value;
      Flag(r, roundId, team) == Some(field == Some("true")) &&
      forall k :: 0 <= k < |r| && r[k].participant == team && r[k].round in SameSeqOthers(rounds, round) ==> !r[k].available
  {
    var round := FindRound(rounds, roundId).value;
    SetForRoundEffect(rows, rounds, round, team, Eligible(field));
  }

  method UpdateTeamEligibility(db: AvailabilityTable, rounds: seq<Rounds.Round>, teams: seq<string>, isSuperuser: bool,
                               roundId: string, team: string, field: Option<string>)
    returns (resp: Response)
    modifies db
    ensures (resp, db.rows) == UpdateOne(old(db.rows), rounds, teams, isSuperuser, roundId, team, field)
  {
    if !isSuperuser {
      return Unauthorized;
    }
    var available := Eligible(field);
    if team !in teams {
      return NotFound;
    }
    var round := FindRound(rounds, roundId);
    if round.None? {
      return NotFound;
    }
    if round.value.completed {
      return BadRequest(RoundCompleted);
    }
    var prev := Rounds.FirstPrecedingIncompleteRound(rounds, round.value);
    if prev.Some? {
      return BadRequest(PrecedesMessage(prev.value));
    }
    db.rows := Upsert(db.rows, round.value.id, team, available);
    db.rows := Cleared(db.rows, Some(team), SameSeqOthers(rounds, round.value));
    resp := SeeOther;
  }

  /**
   * update_eligibility_for_all: unlike the judges' version the round's
   * completion and a preceding incomplete round are checked before the
   * check-in option is read.
   */
  function UpdateAll(rows: seq<Avail>, rounds: seq<Rounds.Round>, teams: seq<string>, isSuperuser: bool,
                     roundId: string, check: string)
    : (r: (Response, seq<Avail>))
    ensures !Commits(r.0) ==> r.1 == rows
  {
    if !isSuperuser then (Unauthorized, rows)
    else match FindRound(rounds, roundId)
      case None => (NotFound, rows)
      case Some(round) =>
        if round.completed then (BadRequest(RoundCompleted), rows)
        else match Rounds.FirstPrecedingIncompleteRound(rounds, round)
          case Some(prev) => (BadRequest(PrecedesMessage(prev)), rows)
          case None =>
            if check == "in" then (SeeOther, CheckIn(rows, rounds, round, teams))
            else if check == "out" then (SeeOther, CheckOut(rows, round))
            else (BadRequest(InvalidCheck), rows)
  }

  /** Checking all teams goes through exactly when every check passes and the option is "in" or "out". */
  lemma UpdateAllCommitsIff(rows: seq<Avail>, rounds: seq<Rounds.Round>, teams: seq<string>, isSuperuser: bool,
                            roundId: string, check: string)
    ensures Commits(UpdateAll(rows, rounds, teams, isSuperuser, roundId, check).0) <==>
      isSuperuser && FindRound(rounds, roundId).Some? && !FindRound(rounds, roundId).value.completed &&
      Rounds.FirstPrecedingIncompleteRound(rounds, FindRound(rounds, roundId).value).None? &&
      (check == "in" || check == "out")
  {
  }

  method UpdateEligibilityForAll(db: AvailabilityTable, rounds: seq<Rounds.Round>, teams: seq<string>, isSuperuser: bool,
                                 roundId: string, check: string)
    returns (resp: Response)
    modifies db
    ensures (resp, db.rows) == UpdateAll(old(db.rows), rounds, teams, isSuperuser, roundId, check)
  {
    if !isSuperuser {
      return Unauthorized;
    }
    var round := FindRound(rounds, roundId);
    if round.None? {
      return NotFound;
    }
    if round.value.completed {
      return BadRequest(RoundCompleted);
    }
    var prev := Rounds.FirstPrecedingIncompleteRound(rounds, round.value);
    if prev.Some? {
      return BadRequest(PrecedesMessage(prev.value));
    }
    if check == "in" {
      var upserted := UpsertEach(db.rows, round.value.id, teams, true);
      db.rows := Cleared(upserted, None, SameSeqOthers(rounds, round.value));
    } else if check == "out" {
      db.rows := Cleared(db.rows, None, {round.value.id});
    } else {
      return BadRequest(InvalidCheck);
    }
    resp := SeeOther;
  }

  /** The ids of the tournament's rounds held at the seq. */
  function SeqRounds(rounds: seq<Rounds.Round>, seqNo: int): (r: set<string>)
    ensures forall id :: id in r <==> exists x :: x in rounds && x.seqNo == seqNo && x.id == id
  {
    set x | x in rounds && x.seqNo == seqNo :: x.id
  }

  /** The number of rows of the team in the rounds. */
  function RowCount(rows: seq<Avail>, team: string, ids: set<string>): (n: nat)
    ensures n <= |rows|
  {
    if rows == [] then 0
    else (if rows[0].participant == team && rows[0].round in ids then 1 else 0) + RowCount(rows[1..], team, ids)
  }

  /** The debug assertion as written: the team has at most one row, of any flag, among the rounds of the seq. */
  predicate DebugAssertAsWritten(rows: seq<Avail>, rounds: seq<Rounds.Round>, seqNo: int, team: string)
  {
    RowCount(rows, team, SeqRounds(rounds, seqNo)) <= 1
  }

  /**
   * Marking a team in one round and then in a concurrent round leaves two
   * rows (one of them cleared), so the assertion fails although the team
   * is available in only one round.
   */
  lemma SecondConcurrentRoundTripsAssertion()
    ensures var a := Rounds.Round("a", 1, "Round 1A", "P", None, false, "D", None, None);
      var b := Rounds.Round("b", 1, "Round 1B", "P", None, false, "D", None, None);
      var rounds := [a, b];
      var first := UpdateOne([], rounds, ["t"], true, "a", "t", Some("true"));
      var second := UpdateOne(first.1, rounds, ["t"], true, "b", "t", Some("true"));
      first.0 == SeeOther && second.0 == SeeOther &&
      !DebugAssertAsWritten(second.1, rounds, 1, "t") &&
      InOneRound(second.1, rounds, FindRound(rounds, "b").value, "t")
  {
    var a := Rounds.Round("a", 1, "Round 1A", "P", None, false, "D", None, None);
    var b := Rounds.Round("b", 1, "Round 1B", "P", None, false, "D", None, None);
    var rounds := [a, b];
    assert FindRound(rounds, "a") == Some(a);
    assert FindRound(rounds, "b") == Some(b);
    assert SameSeqOthers(rounds, a) == {"b"};
    assert SameSeqOthers(rounds, b) == {"a"};
    assert Rounds.FirstPrecedingIncompleteRound(rounds, a) == None;
    assert Rounds.FirstPrecedingIncompleteRound(rounds, b) == None;
    var first := UpdateOne([], rounds, ["t"], true, "a", "t", Some("true"));
    assert first.1 == [Avail("a", "t", true)];
    var second := UpdateOne(first.1, rounds, ["t"], true, "b", "t", Some("true"));
    assert second.1 == [Avail("a", "t", false), Avail("b", "t", true)];
    assert SeqRounds(rounds, 1) == {"a", "b"};
    assert RowCount(second.1, "t", {"a", "b"}) == 2;
    OneRoundAfterUpdate(first.1, rounds, ["t"], "b", "t", Some("true"));
  }

  /** What the assertion evidently checks: the team is available in no round of the seq other than this one. */
  predicate InOneRound(rows: seq<Avail>, rounds: seq<Rounds.Round>, round: Rounds.Round, team: string)
  {
    forall k :: 0 <= k < |rows| && rows[k].participant == team && rows[k].round in SeqRounds(rounds, round.seqNo) && rows[k].available ==>
      rows[k].round == round.id
  }

  /** After every successful update the team is available in at most the updated round of its seq. */
  lemma OneRoundAfterUpdate(rows: seq<Avail>, rounds: seq<Rounds.Round>, teams: seq<string>,
                            roundId: string, team: string, field: Option<string>)
    requires UpdateOne(rows, rounds, teams, true, roundId, team, field).0 == SeeOther
    ensures InOneRound(UpdateOne(rows, rounds, teams, true, roundId, team, field).1, rounds, FindRound(rounds, roundId).value, team)
  {
    UpdateOneEffect(rows, rounds, teams, roundId, team, field);
  }
}
