/**
 * do_submit_ballot (src/tournaments/rounds/ballots/public/submit.rs): a
 * judge's ballot is validated, appended to the ledger as a new version, and
 * the debate's status is recomputed.
 */
module BallotSubmit {
  import opened Wrappers
  import opened Http
  import Text
  import Tournaments
  import Rounds
  import Draws
  import Ballots

  datatype SpeakerForm = SpeakerForm(id: string, score: Option<int>)

  datatype TeamForm = TeamForm(speakers: seq<SpeakerForm>)

  /**
   * The submitted form: the motion, the teams in form order, and the ids of
   * the teams marked as advancing (all_advancing_team_ids).
   */
  datatype BallotForm = BallotForm(motion: string, teams: seq<TeamForm>, advancing: seq<string>)

  /** The debate of the judge in the round, as DebateRepr loads it. */
  datatype DebateInfo = DebateInfo(id: string, teams: seq<Ballots.DebateTeam>, motions: set<string>, judges: seq<Draws.Alloc>)

  const DrawNotReleased := "Error: draw not released."
  const RoundCompleted := "Error: this round has been completed. Ballots can no longer be submitted."
  const InvalidMotion := "Error: data submitted incorrectly formatted (invalid motion)"
  const WrongTeamCount := "Error: data submitted incorrectly formatted (wrong number of teams)"
  const WrongSpeakerCount := "Error: data submitted incorrectly formatted (wrong number of speakers/scores)"

  // ------------------------------------------------------ speaker count

  /** The speaker-count test as written: some team has the expected number of speakers. */
  predicate SpeakerCountOkAsWritten(teams: seq<TeamForm>, count: int)
  {
    exists i :: 0 <= i < |teams| && |teams[i].speakers| == count
  }

  /** The test its variable name describes: every team has the expected number of speakers. */
  predicate SpeakerCountOk(teams: seq<TeamForm>, count: int)
  {
    forall i :: 0 <= i < |teams| ==> |teams[i].speakers| == count
  }

  /** A form whose second team names no speaker passes the test as written, and fails the corrected one. */
  lemma AnyTeamFullPassesAsWritten()
    ensures var teams := [TeamForm([SpeakerForm("a", None), SpeakerForm("b", None)]), TeamForm([])];
      SpeakerCountOkAsWritten(teams, 2) && !SpeakerCountOk(teams, 2)
  {
    var teams := [TeamForm([SpeakerForm("a", None), SpeakerForm("b", None)]), TeamForm([])];
    assert |teams[0].speakers| == 2;
    assert |teams[1].speakers| != 2;
  }

  // --------------------------------------------------------- score rows

  /** Prefixes rows to a later part of a loop's output, an error passing through. */
  function Prepend(acc: seq<Ballots.Score>, r: Result<seq<Ballots.Score>, Response>): Result<seq<Ballots.Score>, Response>
  {
    if r.Err? then r else Ok(acc + r.value)
  }

  lemma PrependNothing(r: Result<seq<Ballots.Score>, Response>)
    ensures Prepend([], r) == r
  {
    if r.Ok? {
      assert [] + r.value == r.value;
    }
  }

  lemma PrependTwice(a: seq<Ballots.Score>, b: seq<Ballots.Score>, r: Result<seq<Ballots.Score>, Response>)
    ensures Prepend(a, Prepend(b, r)) == Prepend(a + b, r)
  {
    if r.Ok? {
      assert a + (b + r.value) == (a + b) + r.value;
    }
  }

  /**
   * The score row of speaker j of a team: a recorded score must belong to a
   * known speaker (else the name lookup's unwrap panics) and pass
   * check_score_valid, whose reply-speech branch panics.
   */
  function SpeakerRow(t: Tournaments.Config, team: string, sp: SpeakerForm, j: int, recordsScores: bool, names: map<string, string>)
    : Result<Ballots.Score, Response>
  {
    if recordsScores && sp.score.Some? then
      if sp.id !in names then Err(Panic(Ballots.UnwrapNone))
      else match Tournaments.CheckScoreValid(t, sp.score.value, j >= t.substantiveSpeakers)
        case Accepted => Ok(Ballots.Score(team, sp.id, j, sp.score))
        case Rejected(p) => Err(BadRequest(Tournaments.ScoreMessage(p, sp.score.value, names[sp.id])))
        case ReplyUnimplemented => Err(Panic("not yet implemented: validation for reply speaks"))
    else Ok(Ballots.Score(team, sp.id, j, if recordsScores then sp.score else None))
  }

  /** The rows of speakers j.. of one team, the first error winning. */
  function SpeakerRowsFrom(t: Tournaments.Config, team: string, speakers: seq<SpeakerForm>, j: nat, recordsScores: bool, names: map<string, string>)
    : (r: Result<seq<Ballots.Score>, Response>)
    requires j <= |speakers|
    ensures r.Err? ==> r.error.BadRequest? || r.error.Panic?
    ensures r.Ok? ==> |r.value| == |speakers| - j
    ensures r.Ok? ==> forall k :: 0 <= k < |r.value| ==> r.value[k].team == team && r.value[k].position == j + k
    decreases |speakers| - j
  {
    if j == |speakers| then Ok([])
    else
      match SpeakerRow(t, team, speakers[j], j, recordsScores, names)
      case Err(e) => Err(e)
      case Ok(row) => Prepend([row], SpeakerRowsFrom(t, team, speakers, j + 1, recordsScores, names))
  }

  /** The number of speakers the forms of teams i.. name. */
  function SpeakersFrom(teams: seq<TeamForm>, i: nat): nat
    requires i <= |teams|
    decreases |teams| - i
  {
    if i == |teams| then 0 else |teams[i].speakers| + SpeakersFrom(teams, i + 1)
  }

  /**
   * The rows of form teams i..: team i sits at side i % 2 and seq i / 2 of
   * the debate (a missing team is the lookup's unwrap panic), and its
   * speakers take positions 0, 1, ...
   */
  function FormRowsFrom(t: Tournaments.Config, debateTeams: seq<Ballots.DebateTeam>, teams: seq<TeamForm>, i: nat, recordsScores: bool, names: map<string, string>)
    : (r: Result<seq<Ballots.Score>, Response>)
    requires i <= |teams|
    ensures r.Err? ==> r.error.BadRequest? || r.error.Panic?
    ensures r.Ok? ==> |r.value| == SpeakersFrom(teams, i)
    decreases |teams| - i
  {
    if i == |teams| then Ok([])
    else
      match Ballots.TeamAt(debateTeams, i % 2, i / 2)
      case None => Err(Panic(Ballots.UnwrapNone))
      case Some(team) =>
        match SpeakerRowsFrom(t, team, teams[i].speakers, 0, recordsScores, names)
        case Err(e) => Err(e)
        case Ok(rows) => Prepend(rows, FormRowsFrom(t, debateTeams, teams, i + 1, recordsScores, names))
  }

  lemma {:induction false} SpeakersFromFull(teams: seq<TeamForm>, i: nat, count: int)
    requires i <= |teams| && SpeakerCountOk(teams, count)
    ensures SpeakersFrom(teams, i) == (|teams| - i) * count
    decreases |teams| - i
  {
    if i < |teams| {
      SpeakersFromFull(teams, i + 1, count);
      assert |teams[i].speakers| == count;
    }
  }

  /** The inner loop: the rows of one team's speakers. */
  method TeamRows(t: Tournaments.Config, team: string, speakers: seq<SpeakerForm>, recordsScores: bool, names: map<string, string>)
    returns (r: Result<seq<Ballots.Score>, Response>)
    ensures r == SpeakerRowsFrom(t, team, speakers, 0, recordsScores, names)
  {
    var acc: seq<Ballots.Score> := [];
    PrependNothing(SpeakerRowsFrom(t, team, speakers, 0, recordsScores, names));
    for j := 0 to |speakers|
      invariant SpeakerRowsFrom(t, team, speakers, 0, recordsScores, names) == Prepend(acc, SpeakerRowsFrom(t, team, speakers, j, recordsScores, names))
    {
      var row := SpeakerRow(t, team, speakers[j], j, recordsScores, names);
      if row.Err? {
        return Err(row.error);
      }
      PrependTwice(acc, [row.value], SpeakerRowsFrom(t, team, speakers, j + 1, recordsScores, names));
      acc := acc + [row.value];
    }
    assert acc + [] == acc;
    r := Ok(acc);
  }

  /** The outer loop of do_submit_ballot over the submitted teams. */
  method FormRows(t: Tournaments.Config, debateTeams: seq<Ballots.DebateTeam>, teams: seq<TeamForm>, recordsScores: bool, names: map<string, string>)
    returns (r: Result<seq<Ballots.Score>, Response>)
    ensures r == FormRowsFrom(t, debateTeams, teams, 0, recordsScores, names)
  {
    var acc: seq<Ballots.Score> := [];
    PrependNothing(FormRowsFrom(t, debateTeams, teams, 0, recordsScores, names));
    for i := 0 to |teams|
      invariant FormRowsFrom(t, debateTeams, teams, 0, recordsScores, names) == Prepend(acc, FormRowsFrom(t, debateTeams, teams, i, recordsScores, names))
    {
      var team := Ballots.TeamAt(debateTeams, i % 2, i / 2);
      if team.None? {
        return Err(Panic(Ballots.UnwrapNone));
      }
      var rows := TeamRows(t, team.value, teams[i].speakers, recordsScores, names);
      if rows.Err? {
        return Err(rows.error);
      }
      PrependTwice(acc, rows.value, FormRowsFrom(t, debateTeams, teams, i + 1, recordsScores, names));
      acc := acc + rows.value;
    }
    assert acc + [] == acc;
    r := Ok(acc);
  }

  // --------------------------------------------------------- submission

  /** The version of the judge's latest ballot in the debate, if any (the ledger is appended in submission order). */
  function PriorVersion(ballots: seq<Ballots.Ballot>, tournament: string, judge: string, debate: string): (r: Option<int>)
    ensures r.None? <==> forall k :: 0 <= k < |ballots| ==>
      !(ballots[k].meta.tournament == tournament && ballots[k].meta.judge == judge && ballots[k].meta.debate == debate)
  {
    if ballots == [] then None
    else
      var last := ballots[|ballots| - 1];
      if last.meta.tournament == tournament && last.meta.judge == judge && last.meta.debate == debate then Some(last.meta.version)
      else PriorVersion(ballots[..|ballots| - 1], tournament, judge, debate)
  }

  /** The version a new submission gets: one past the prior one, or 0 for a first ballot. */
  function NextVersion(prior: Option<int>): (v: int)
    ensures prior.None? ==> v == 0
    ensures prior.Some? ==> v == prior.value + 1
  {
    match prior
    case None => 0
    case Some(p) => p + 1
  }

  /**
   * The first part of do_submit_ballot, in the handler's order: draw
   * released, round not completed, motion of the debate, 2 * teams_per_side
   * teams, then (when positions are recorded) the speaker count and the
   * score rows; no rows at all when positions are not recorded.
   */
  function ScoreRows(t: Tournaments.Config, round: Rounds.Round, debate: DebateInfo, form: BallotForm, names: map<string, string>)
    : (r: Result<seq<Ballots.Score>, Response>)
    ensures round.drawStatus != "released_full" ==> r == Err(BadRequest(DrawNotReleased))
    ensures round.drawStatus == "released_full" && round.completed ==> r == Err(BadRequest(RoundCompleted))
    ensures r.Err? ==> !Commits(r.error)
  {
    var recordsPositions := Tournaments.RoundRequiresSpeakerOrder(t, round);
    var recordsScores := Tournaments.RoundRequiresSpeaks(t, round);
    var count := t.substantiveSpeakers + if t.replySpeakers then 1 else 0;
    if round.drawStatus != "released_full" then Err(BadRequest(DrawNotReleased))
    else if round.completed then Err(BadRequest(RoundCompleted))
    else if form.motion !in debate.motions then Err(BadRequest(InvalidMotion))
    else if |form.teams| != t.teamsPerSide * 2 then Err(BadRequest(WrongTeamCount))
    else if recordsPositions && !SpeakerCountOk(form.teams, count) then Err(BadRequest(WrongSpeakerCount))
    else if recordsPositions then FormRowsFrom(t, debate.teams, form.teams, 0, recordsScores, names)
    else Ok([])
  }

  /**
   * The ballot do_submit_ballot inserts, or the response it gives instead:
   * after the score rows, an elimination round must have the right number
   * of advancing teams.
   */
  function Submission(t: Tournaments.Config, tournament: string, round: Rounds.Round, judge: string, debate: DebateInfo,
                      form: BallotForm, names: map<string, string>, prior: Option<int>, newId: string, now: int, isFinal: bool)
    : (r: Result<Ballots.Ballot, Response>)
    ensures round.drawStatus != "released_full" ==> r == Err(BadRequest(DrawNotReleased))
    ensures round.drawStatus == "released_full" && round.completed ==> r == Err(BadRequest(RoundCompleted))
    ensures r.Err? ==> !Commits(r.error)
  {
    match ScoreRows(t, round, debate, form, names)
    case Err(e) => Err(e)
    case Ok(rows) =>
      var numAdvancing := Ballots.NumAdvancing(t.teamsPerSide, isFinal);
      if Rounds.IsElim(round) && |form.advancing| != numAdvancing then
        Err(BadRequest("Error: expected " + Text.IntToString(numAdvancing) + " advancing team(s), but " +
          Text.NatToString(|form.advancing|) + " were selected"))
      else
        var ranks := if Rounds.IsElim(round) then Ballots.RanksFromAdvancing(form.advancing, debate.teams)
          else Ballots.RanksFromScores(rows, debate.teams, t.teamsPerSide * 2);
        var meta := Ballots.Meta(newId, tournament, debate.id, judge, now, form.motion, NextVersion(prior), None, None);
        Ok(Ballots.Ballot(meta, rows, ranks))
  }

  /**
   * An accepted submission passed every check of the handler: the draw is
   * released, the round open, the motion the debate's, the team count
   * right and, where positions are recorded, every team full; the ballot
   * carries the next version, one row per submitted speaker, and ranks from
   * the advancing teams in an elimination round or from the scores otherwise.
   */
  lemma SubmissionAccepted(t: Tournaments.Config, tournament: string, round: Rounds.Round, judge: string, debate: DebateInfo,
                           form: BallotForm, names: map<string, string>, prior: Option<int>, newId: string, now: int, isFinal: bool)
    requires Submission(t, tournament, round, judge, debate, form, names, prior, newId, now, isFinal).Ok?
    ensures var b := Submission(t, tournament, round, judge, debate, form, names, prior, newId, now, isFinal).value;
      round.drawStatus == "released_full" && !round.completed && form.motion in debate.motions &&
      |form.teams| == t.teamsPerSide * 2 &&
      b.meta == Ballots.Meta(newId, tournament, debate.id, judge, now, form.motion, NextVersion(prior), None, None)
    ensures var b := Submission(t, tournament, round, judge, debate, form, names, prior, newId, now, isFinal).value;
      var count := t.substantiveSpeakers + if t.replySpeakers then 1 else 0;
      (Tournaments.RoundRequiresSpeakerOrder(t, round) ==> SpeakerCountOk(form.teams, count) && |b.scores| == |form.teams| * count) &&
      (!Tournaments.RoundRequiresSpeakerOrder(t, round) ==> b.scores == [])
    ensures var b := Submission(t, tournament, round, judge, debate, form, names, prior, newId, now, isFinal).value;
      (Rounds.IsElim(round) ==>
        |form.advancing| == Ballots.NumAdvancing(t.teamsPerSide, isFinal) &&
        b.ranks == Ballots.RanksFromAdvancing(form.advancing, debate.teams)) &&
      (!Rounds.IsElim(round) ==> b.ranks == Ballots.RanksFromScores(b.scores, debate.teams, t.teamsPerSide * 2))
  {
    var count := t.substantiveSpeakers + if t.replySpeakers then 1 else 0;
    if Tournaments.RoundRequiresSpeakerOrder(t, round) {
      SpeakersFromFull(form.teams, 0, count);
    }
  }

  /** Each judge's most recently appended ballot of the debate (DebateRepr::latest_ballots). */
  function LatestBallots(ballots: seq<Ballots.Ballot>, debate: string): (r: seq<Ballots.Ballot>)
    ensures forall b :: b in r ==> b in ballots && b.meta.debate == debate
    ensures forall b :: b in ballots && b.meta.debate == debate ==> Ballots.HasBallot(r, b.meta.judge)
  {
    if ballots == [] then []
    else
      var first := ballots[0];
      var rest := LatestBallots(ballots[1..], debate);
      if first.meta.debate == debate && !Ballots.HasBallot(rest, first.meta.judge) then [first] + rest
      else rest
  }

  /** ballots[i] is a ballot of the debate, and no ballot of the debate by the same judge is appended after it. */
  ghost predicate LastOfJudge(ballots: seq<Ballots.Ballot>, debate: string, i: int)
  {
    0 <= i < |ballots| && ballots[i].meta.debate == debate &&
    forall j :: i < j < |ballots| ==> !(ballots[j].meta.debate == debate && ballots[j].meta.judge == ballots[i].meta.judge)
  }

  /** Dropping the first ballot shifts the last ballots of the judges by one. */
  lemma LastOfJudgeShift(ballots: seq<Ballots.Ballot>, debate: string, i: int)
    requires 1 <= i < |ballots|
    ensures LastOfJudge(ballots, debate, i) <==> LastOfJudge(ballots[1..], debate, i - 1)
  {
    assert forall j :: i < j < |ballots| ==> ballots[j] == ballots[1..][j - 1];
  }

  /** No two of the ballots are by the same judge. */
  predicate OnePerJudge(r: seq<Ballots.Ballot>)
  {
    forall i, j :: 0 <= i < j < |r| ==> r[i].meta.judge != r[j].meta.judge
  }

  /** A ballot whose judge has none among ballots with one per judge can go in front. */
  lemma OnePerJudgeCons(first: Ballots.Ballot, rest: seq<Ballots.Ballot>)
    requires OnePerJudge(rest)
    requires !Ballots.HasBallot(rest, first.meta.judge)
    ensures OnePerJudge([first] + rest)
  {
    var r := [first] + rest;
    forall i, j | 0 <= i < j < |r|
      ensures r[i].meta.judge != r[j].meta.judge
    {
      assert r[j] == rest[j - 1];
      if i == 0 {
        assert rest[j - 1] in rest;
      } else {
        assert r[i] == rest[i - 1];
      }
    }
  }

  /** LatestBallots keeps at most one ballot per judge. */
  lemma {:induction false} LatestBallotsOnePerJudge(ballots: seq<Ballots.Ballot>, debate: string)
    ensures OnePerJudge(LatestBallots(ballots, debate))
  {
    if ballots != [] {
      var first := ballots[0];
      var rest := LatestBallots(ballots[1..], debate);
      LatestBallotsOnePerJudge(ballots[1..], debate);
      if first.meta.debate == debate && !Ballots.HasBallot(rest, first.meta.judge) {
        OnePerJudgeCons(first, rest);
      }
    }
  }

  /** Every ballot LatestBallots keeps is the last one its judge appended for the debate. */
  lemma {:induction false} LatestBallotsKeepOnlyLast(ballots: seq<Ballots.Ballot>, debate: string)
    ensures forall b :: b in LatestBallots(ballots, debate) ==> exists i :: LastOfJudge(ballots, debate, i) && ballots[i] == b
  {
    if ballots != [] {
      var first := ballots[0];
      var rest := LatestBallots(ballots[1..], debate);
      LatestBallotsKeepOnlyLast(ballots[1..], debate);
      forall b | b in LatestBallots(ballots, debate)
        ensures exists i :: LastOfJudge(ballots, debate, i) && ballots[i] == b
      {
        if b in rest {
          var i :| LastOfJudge(ballots[1..], debate, i) && ballots[1..][i] == b;
          LastOfJudgeShift(ballots, debate, i + 1);
        } else {
          assert b == first && first.meta.debate == debate && !Ballots.HasBallot(rest, first.meta.judge);
          forall j | 0 < j < |ballots|
            ensures !(ballots[j].meta.debate == debate && ballots[j].meta.judge == first.meta.judge)
          {
            assert ballots[j] == ballots[1..][j - 1];
          }
          assert LastOfJudge(ballots, debate, 0);
        }
      }
    }
  }

  /** The last ballot each judge appended for the debate is kept. */
  lemma {:induction false} LatestBallotsKeepEveryLast(ballots: seq<Ballots.Ballot>, debate: string)
    ensures forall i :: LastOfJudge(ballots, debate, i) ==> ballots[i] in LatestBallots(ballots, debate)
  {
    if ballots != [] {
      var first := ballots[0];
      var rest := LatestBallots(ballots[1..], debate);
      LatestBallotsKeepEveryLast(ballots[1..], debate);
      forall i | LastOfJudge(ballots, debate, i)
        ensures ballots[i] in LatestBallots(ballots, debate)
      {
        if i == 0 {
          LatestBallotsKeepOnlyLast(ballots[1..], debate);
          forall b | b in rest
            ensures b.meta.judge != first.meta.judge
          {
            var k :| LastOfJudge(ballots[1..], debate, k) && ballots[1..][k] == b;
            assert ballots[k + 1] == b;
          }
        } else {
          LastOfJudgeShift(ballots, debate, i);
        }
      }
    }
  }

  /** The checks of do_submit_ballot and the loop building the score rows. */
  method CheckedRows(t: Tournaments.Config, round: Rounds.Round, d: DebateInfo, form: BallotForm, names: map<string, string>)
    returns (r: Result<seq<Ballots.Score>, Response>)
    ensures r == ScoreRows(t, round, d, form, names)
  {
    if round.drawStatus != "released_full" {
      return Err(BadRequest(DrawNotReleased));
    }
    if round.completed {
      return Err(BadRequest(RoundCompleted));
    }
    if form.motion !in d.motions {
      return Err(BadRequest(InvalidMotion));
    }
    var recordsPositions := Tournaments.RoundRequiresSpeakerOrder(t, round);
    var recordsScores := Tournaments.RoundRequiresSpeaks(t, round);
    if |form.teams| != t.teamsPerSide * 2 {
      return Err(BadRequest(WrongTeamCount));
    }
    var scores: seq<Ballots.Score> := [];
    if recordsPositions {
      var count := t.substantiveSpeakers + if t.replySpeakers then 1 else 0;
      if !SpeakerCountOk(form.teams, count) {
        return Err(BadRequest(WrongSpeakerCount));
      }
      var rows := FormRows(t, d.teams, form.teams, recordsScores, names);
      if rows.Err? {
        return Err(rows.error);
      }
      scores := rows.value;
    }
    r := Ok(scores);
  }

  /** The checks and row building of do_submit_ballot up to the insert. */
  method Validate(t: Tournaments.Config, tournament: string, round: Rounds.Round, judge: string, d: DebateInfo,
                  form: BallotForm, names: map<string, string>, prior: Option<int>, newId: string, now: int, isFinal: bool)
    returns (r: Result<Ballots.Ballot, Response>)
    ensures r == Submission(t, tournament, round, judge, d, form, names, prior, newId, now, isFinal)
  {
    var rows := CheckedRows(t, round, d, form, names);
    if rows.Err? {
      return Err(rows.error);
    }
    var scores := rows.value;
    var ranks;
    if Rounds.IsElim(round) {
      var numAdvancing := Ballots.NumAdvancing(t.teamsPerSide, isFinal);
      if |form.advancing| != numAdvancing {
        return Err(BadRequest("Error: expected " + Text.IntToString(numAdvancing) + " advancing team(s), but " +
          Text.NatToString(|form.advancing|) + " were selected"));
      }
      ranks := Ballots.RanksFromAdvancing(form.advancing, d.teams);
    } else {
      ranks := Ballots.RanksFromScores(scores, d.teams, t.teamsPerSide * 2);
    }
    var meta := Ballots.Meta(newId, tournament, d.id, judge, now, form.motion, NextVersion(prior), None, None);
    r := Ok(Ballots.Ballot(meta, scores, ranks));
  }

  /**
   * do_submit_ballot against the ledger: a refused submission changes
   * nothing; an accepted one appends the ballot of Submission and records
   * the recomputed debate status, or, when that recomputation panics, is
   * rolled back.
   */
  method SubmitBallot(ledger: Ballots.BallotLedger, t: Tournaments.Config, tournament: string, round: Rounds.Round, judge: string,
                      debate: Option<DebateInfo>, form: BallotForm, names: map<string, string>, newId: string, now: int, isFinal: bool)
    returns (resp: Response)
    modifies ledger
    ensures !Commits(resp) ==> ledger.ballots == old(ledger.ballots) && ledger.statuses == old(ledger.statuses)
    ensures Commits(resp) ==> resp == SeeOther && debate.Some?
    ensures round.drawStatus == "released_full" && !round.completed && debate.None? ==> resp == NotFound
    ensures debate.Some? ==>
      var sub := Submission(t, tournament, round, judge, debate.value, form, names,
                            PriorVersion(old(ledger.ballots), tournament, judge, debate.value.id), newId, now, isFinal);
      (sub.Err? ==> resp == sub.error) &&
      (sub.Ok? ==> resp == SeeOther || resp.Panic?) &&
      (resp == SeeOther ==> (sub.Ok? && ledger.ballots == old(ledger.ballots) + [sub.value] &&
        debate.value.id in ledger.statuses &&
        ledger.statuses == old(ledger.statuses)[debate.value.id := ledger.statuses[debate.value.id]] &&
        Ok(ledger.statuses[debate.value.id]) ==
          Ballots.DebateStatusOf(LatestBallots(ledger.ballots, debate.value.id), debate.value.id, debate.value.judges,
                                 debate.value.teams, t.teamsPerSide, t.substantiveSpeakers)))
  {
    if round.drawStatus != "released_full" {
      return BadRequest(DrawNotReleased);
    }
    if round.completed {
      return BadRequest(RoundCompleted);
    }
    if debate.None? {
      return NotFound;
    }
    var d := debate.value;
    var prior := PriorVersion(ledger.ballots, tournament, judge, d.id);
    var ballot := Validate(t, tournament, round, judge, d, form, names, prior, newId, now, isFinal);
    if ballot.Err? {
      return ballot.error;
    }
    var saved := ledger.ballots;
    ledger.ballots := ledger.ballots + [ballot.value];
    var status := Ballots.DebateStatusOf(LatestBallots(ledger.ballots, d.id), d.id, d.judges, d.teams, t.teamsPerSide, t.substantiveSpeakers);
    if status.Err? {
      ledger.ballots := saved;
      return Panic(status.error);
    }
    ledger.statuses := ledger.statuses[d.id := status.value];
    resp := SeeOther;
  }
}
