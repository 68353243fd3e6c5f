/**
 * do_edit_ballot_set (src/tournaments/rounds/ballots/manage/edit.rs): a
 * tab director resubmits the ballots of one debate; each one that differs
 * from the judge's stored ballot is appended as a new version carrying the
 * editor and a note of what changed. Stored ballot rows are never updated.
 */
module BallotEdit {
  import opened Wrappers
  import opened Http
  import Text
  import SideNames
  import Tournaments
  import Ballots
  import BallotSubmit

  datatype EditSpeaker = EditSpeaker(id: string, score: int)

  datatype EditTeam = EditTeam(id: string, speakers: seq<EditSpeaker>)

  /** One ballot of the edit form: its teams, judge and motion. */
  datatype SingleBallot = SingleBallot(teams: seq<EditTeam>, judge: string, motion: string)

  // ------------------------------------------------------ the change note

  /** x appears in s starting at index i. */
  ghost predicate OccursAt(x: string, s: string, i: int)
  {
    0 <= i <= |s| - |x| && s[i..i + |x|] == x
  }

  /** x appears as a contiguous part of s. */
  ghost predicate Occurs(x: string, s: string)
  {
    exists i :: OccursAt(x, s, i)
  }

  /** An occurrence stays where it is when text is appended. */
  lemma OccursAtAppend(x: string, s: string, t: string, i: int)
    requires OccursAt(x, s, i)
    ensures OccursAt(x, s + t, i)
  {
    assert (s + t)[i..i + |x|] == s[i..i + |x|];
  }

  /** An occurrence moves right by the length of prepended text. */
  lemma OccursAtPrepend(x: string, s: string, t: string, i: int)
    requires OccursAt(x, s, i)
    ensures OccursAt(x, t + s, |t| + i)
  {
    assert (t + s)[|t| + i..|t| + i + |x|] == s[i..i + |x|];
  }

  /** "the ballot from <judge> ": how each half of a sentence of the change note opens. */
  function Opening(judge: string): string
  {
    "the ballot from " + judge + " "
  }

  /** "the ballot from <judge> <what>": one half of a sentence. */
  function From(judge: string, what: string): string
  {
    Opening(judge) + what
  }

  /** The shape of every sentence: what the one ballot has, whereas what the other has. */
  function Sentence(mine: string, what: string, theirs: string, whatTheirs: string): string
  {
    ("Error: " + From(mine, what)) + ((", whereas " + From(theirs, whatTheirs)) + ".")
  }

  /** "<who> <n> point(s)". */
  function PointsOf(who: string, n: int): string
  {
    who + " " + Text.IntToString(n) + " point(s)"
  }

  /** "<speaker> as <place>". */
  function SpeakerAs(speaker: string, place: string): string
  {
    speaker + " as " + place
  }

  /** "<score> for <speaker> as <place>". */
  function ScoreFor(score: int, speaker: string, place: string): string
  {
    Text.IntToString(score) + " for " + SpeakerAs(speaker, place)
  }

  /**
   * One problem as a sentence, naming judges, teams and speakers by id. The
   * place of a speaker is named as the source names it: name_of_side of the
   * slot's side with the speaker's position passed as the seq, in its short
   * form. None is the unreachable! panic of name_of_side for a side other
   * than 0 and 1.
   */
  function Describe(p: Ballots.Problem, teamsPerSide: int, mine: string, theirs: string): (r: Option<string>)
    ensures r.None? <==> !p.PointsDiffer? && p.side != 0 && p.side != 1
  {
    match p
    case PointsDiffer(team, a, b) =>
      Some(Sentence(mine, "gives " + PointsOf(team, a), theirs, "gives " + PointsOf("them", b)))
    case SpeakerDiffers(side, _, position, a, b) =>
      (match SideNames.NameOfSide(teamsPerSide, side, position, true)
       case None => None
       case Some(place) => Some(Sentence(mine, "has " + SpeakerAs(a, place), theirs, "has " + SpeakerAs(b, place))))
    case ScoreDiffers(side, _, position, speakerA, speakerB, a, b) =>
      match SideNames.NameOfSide(teamsPerSide, side, position, true)
      case None => None
      case Some(place) =>
        Some(Sentence(mine, "has a score of " + ScoreFor(a, speakerA, place),
                      theirs, "has a score of " + ScoreFor(b, speakerB, place)))
  }

  /** A half opens with the judge and ends in what the ballot has. */
  lemma FromNames(judge: string, verb: string, x: string)
    ensures OccursAt(Opening(judge), From(judge, verb + x), 0)
    ensures OccursAt(x, From(judge, verb + x), |Opening(judge)| + |verb|)
  {
    assert OccursAt(Opening(judge), Opening(judge), 0);
    OccursAtAppend(Opening(judge), Opening(judge), verb + x, 0);
    assert OccursAt(x, verb + x, |verb|);
    OccursAtPrepend(x, verb + x, Opening(judge), |verb|);
  }

  /** The first half of a sentence: "Error: ", the first judge, and what that ballot has, ending in x. */
  lemma FirstHalfNames(mine: string, verb: string, x: string, tail: string)
    ensures var s := ("Error: " + From(mine, verb + x)) + tail;
      OccursAt("Error: ", s, 0) && OccursAt(Opening(mine), s, |"Error: "|) && Occurs(x, s)
  {
    var lead := "Error: " + From(mine, verb + x);
    assert OccursAt("Error: ", lead, 0);
    OccursAtAppend("Error: ", lead, tail, 0);
    FromNames(mine, verb, x);
    OccursAtPrepend(Opening(mine), From(mine, verb + x), "Error: ", 0);
    OccursAtAppend(Opening(mine), lead, tail, |"Error: "|);
    OccursAtPrepend(x, From(mine, verb + x), "Error: ", |Opening(mine)| + |verb|);
    OccursAtAppend(x, lead, tail, |"Error: "| + |Opening(mine)| + |verb|);
  }

  /** ", whereas " and the second half, as it ends a sentence. */
  lemma TailNames(theirs: string, verbTheirs: string, y: string)
    ensures OccursAt(Opening(theirs), (", whereas " + From(theirs, verbTheirs + y)) + ".", |", whereas "|)
    ensures OccursAt(y, (", whereas " + From(theirs, verbTheirs + y)) + ".", |", whereas "| + |Opening(theirs)| + |verbTheirs|)
  {
    var half := ", whereas " + From(theirs, verbTheirs + y);
    FromNames(theirs, verbTheirs, y);
    OccursAtPrepend(Opening(theirs), From(theirs, verbTheirs + y), ", whereas ", 0);
    OccursAtAppend(Opening(theirs), half, ".", |", whereas "|);
    OccursAtPrepend(y, From(theirs, verbTheirs + y), ", whereas ", |Opening(theirs)| + |verbTheirs|);
    OccursAtAppend(y, half, ".", |", whereas "| + |Opening(theirs)| + |verbTheirs|);
  }

  /** The second half of a sentence: the second judge and what that ballot has, ending in y. */
  lemma SecondHalfNames(lead: string, theirs: string, verbTheirs: string, y: string)
    ensures var s := lead + ((", whereas " + From(theirs, verbTheirs + y)) + ".");
      Occurs(Opening(theirs), s) && Occurs(y, s)
  {
    var tail := (", whereas " + From(theirs, verbTheirs + y)) + ".";
    TailNames(theirs, verbTheirs, y);
    OccursAtPrepend(Opening(theirs), tail, lead, |", whereas "|);
    OccursAtPrepend(y, tail, lead, |", whereas "| + |Opening(theirs)| + |verbTheirs|);
  }

  /** A sentence opens with the first judge, names the second, and holds both ends of what they have. */
  lemma SentenceNames(mine: string, verb: string, x: string, theirs: string, verbTheirs: string, y: string)
    ensures var s := Sentence(mine, verb + x, theirs, verbTheirs + y);
      OccursAt("Error: ", s, 0) && OccursAt(Opening(mine), s, |"Error: "|) &&
      Occurs(Opening(theirs), s) && Occurs(x, s) && Occurs(y, s)
  {
    FirstHalfNames(mine, verb, x, (", whereas " + From(theirs, verbTheirs + y)) + ".");
    SecondHalfNames("Error: " + From(mine, verb + x), theirs, verbTheirs, y);
  }

  /**
   * Every sentence opens with "Error: " and the first judge and names the
   * second judge; a points problem names the team with both point counts,
   * and a speaker or score problem names each ballot's speaker (and score)
   * at the place of the slot, the same place for both.
   */
  lemma DescribeNamesBoth(p: Ballots.Problem, teamsPerSide: int, mine: string, theirs: string)
    requires Describe(p, teamsPerSide, mine, theirs).Some?
    ensures var s := Describe(p, teamsPerSide, mine, theirs).value;
      OccursAt("Error: ", s, 0) && OccursAt(Opening(mine), s, |"Error: "|) && Occurs(Opening(theirs), s)
    ensures p.PointsDiffer? ==> var s := Describe(p, teamsPerSide, mine, theirs).value;
      Occurs(PointsOf(p.team, p.mine), s) && Occurs(PointsOf("them", p.theirs), s)
    ensures p.SpeakerDiffers? ==> var s := Describe(p, teamsPerSide, mine, theirs).value;
      var place := SideNames.NameOfSide(teamsPerSide, p.side, p.position, true).value;
      Occurs(SpeakerAs(p.mySpeaker, place), s) && Occurs(SpeakerAs(p.theirSpeaker, place), s)
    ensures p.ScoreDiffers? ==> var s := Describe(p, teamsPerSide, mine, theirs).value;
      var place := SideNames.NameOfSide(teamsPerSide, p.side, p.position, true).value;
      Occurs(ScoreFor(p.mine, p.mySpeaker, place), s) && Occurs(ScoreFor(p.theirs, p.theirSpeaker, place), s)
  {
    match p
    case PointsDiffer(team, a, b) =>
      SentenceNames(mine, "gives ", PointsOf(team, a), theirs, "gives ", PointsOf("them", b));
    case SpeakerDiffers(side, _, position, a, b) =>
      var place := SideNames.NameOfSide(teamsPerSide, side, position, true).value;
      SentenceNames(mine, "has ", SpeakerAs(a, place), theirs, "has ", SpeakerAs(b, place));
    case ScoreDiffers(side, _, position, speakerA, speakerB, a, b) =>
      var place := SideNames.NameOfSide(teamsPerSide, side, position, true).value;
      SentenceNames(mine, "has a score of ", ScoreFor(a, speakerA, place), theirs, "has a score of ", ScoreFor(b, speakerB, place));
  }

  /** The sentences of the problems in order; None when describing one of them panics. */
  function Descriptions(ps: seq<Ballots.Problem>, teamsPerSide: int, mine: string, theirs: string): (r: Option<seq<string>>)
    ensures r.Some? <==> forall k :: 0 <= k < |ps| ==> Describe(ps[k], teamsPerSide, mine, theirs).Some?
    ensures r.Some? ==> |r.value| == |ps|
    ensures r.Some? ==> forall k :: 0 <= k < |ps| ==> r.value[k] == Describe(ps[k], teamsPerSide, mine, theirs).value
  {
    if forall k :: 0 <= k < |ps| ==> Describe(ps[k], teamsPerSide, mine, theirs).Some? then
      Some(seq(|ps|, k requires 0 <= k < |ps| => Describe(ps[k], teamsPerSide, mine, theirs).value))
    else None
  }

  /** Vec::join with a string separator. */
  function JoinWith(parts: seq<string>, sep: string): string
  {
    if parts == [] then []
    else if |parts| == 1 then parts[0]
    else parts[0] + sep + JoinWith(parts[1..], sep)
  }

  // ------------------------------------------------------ the edited ballot

  function TeamScores(team: EditTeam): (r: seq<Ballots.Score>)
    ensures |r| == |team.speakers|
    ensures forall j :: 0 <= j < |r| ==> r[j] == Ballots.Score(team.id, team.speakers[j].id, j, Some(team.speakers[j].score))
  {
    seq(|team.speakers|, j requires 0 <= j < |team.speakers| =>
      Ballots.Score(team.id, team.speakers[j].id, j, Some(team.speakers[j].score)))
  }

  /** s is the row of some speaker of the form, at the position of its index within its team. */
  ghost predicate FromForm(teams: seq<EditTeam>, s: Ballots.Score)
  {
    exists k, j :: 0 <= k < |teams| && 0 <= j < |teams[k].speakers| && s == TeamScores(teams[k])[j]
  }

  /** The score rows of the edited ballot: team by team, each speaker at the position of its index. */
  function EditedScores(teams: seq<EditTeam>): (r: seq<Ballots.Score>)
    ensures forall s :: s in r ==> FromForm(teams, s)
  {
    if teams == [] then []
    else
      var init := teams[..|teams| - 1];
      var last := teams[|teams| - 1];
      var r := EditedScores(init) + TeamScores(last);
      assert forall k :: 0 <= k < |init| ==> init[k] == teams[k];
      r
  }

  // ---------------------------------------------- the ballot compared with

  predicate OfJudge(b: Ballots.Ballot, debate: string, judge: string)
  {
    b.meta.debate == debate && b.meta.judge == judge
  }

  /** The ballot the handler compares with as written: the first stored ballot of the judge, whatever its version. */
  function ExtantAsWritten(ballots: seq<Ballots.Ballot>, debate: string, judge: string): (r: Option<Ballots.Ballot>)
    ensures r.None? <==> forall k :: 0 <= k < |ballots| ==> !OfJudge(ballots[k], debate, judge)
    ensures r.Some? ==> r.value in ballots && OfJudge(r.value, debate, judge)
  {
    if ballots == [] then None
    else if OfJudge(ballots[0], debate, judge) then Some(ballots[0])
    else
      var r := ExtantAsWritten(ballots[1..], debate, judge);
      assert forall k :: 1 <= k < |ballots| ==> ballots[k] == ballots[1..][k - 1];
      r
  }

  /** The judge's latest stored ballot of the debate: the one with the highest version. */
  function LatestOfJudge(ballots: seq<Ballots.Ballot>, debate: string, judge: string): (r: Option<Ballots.Ballot>)
    ensures r.None? <==> forall k :: 0 <= k < |ballots| ==> !OfJudge(ballots[k], debate, judge)
    ensures r.Some? ==> r.value in ballots && OfJudge(r.value, debate, judge)
    ensures r.Some? ==> forall k :: 0 <= k < |ballots| && OfJudge(ballots[k], debate, judge) ==> ballots[k].meta.version <= r.value.meta.version
  {
    if ballots == [] then None
    else
      var rest := LatestOfJudge(ballots[1..], debate, judge);
      assert forall k :: 1 <= k < |ballots| ==> ballots[k] == ballots[1..][k - 1];
      if !OfJudge(ballots[0], debate, judge) then rest
      else if rest.None? || rest.value.meta.version < ballots[0].meta.version then Some(ballots[0])
      else rest
  }

  /**
   * With two stored versions of a judge's ballot, the version the handler
   * gives an edit as written repeats the second one; from the latest
   * ballot it is new.
   */
  lemma EditRepeatsStoredVersion()
    ensures var meta := Ballots.Meta("b0", "t", "d", "j", 0, "m", 0, None, None);
      var ballots := [Ballots.Ballot(meta, [], []), Ballots.Ballot(meta.(id := "b1", version := 1), [], [])];
      ExtantAsWritten(ballots, "d", "j").value.meta.version + 1 == ballots[1].meta.version &&
      LatestOfJudge(ballots, "d", "j").value.meta.version + 1 == 2
  {
  }

  // ------------------------------------------------------------ new versions

  /**
   * One edited ballot: it is compared with the judge's latest ballot (a
   * panic of the comparison is passed on); when they differ, a new version
   * one past the stored one is made, carrying the editor and the stored
   * ballot's problems with it as the change note.
   */
  function EditOne(t: Tournaments.Config, tournament: string, d: BallotSubmit.DebateInfo, extant: Ballots.Ballot, f: SingleBallot,
                   user: string, newId: string, now: int)
    : (r: Result<Option<Ballots.Ballot>, Response>)
    ensures r.Err? ==> r.error.Panic?
    ensures r.Ok? && r.value.Some? ==>
      r.value.value.meta.version == extant.meta.version + 1 && r.value.value.meta.editor == Some(user) &&
      r.value.value.meta.change.Some? && r.value.value.meta.judge == f.judge && r.value.value.meta.debate == d.id &&
      r.value.value.scores == EditedScores(f.teams)
  {
    var potential := Ballots.Ballot(Ballots.Meta(newId, tournament, d.id, f.judge, now, f.motion, 1, None, None), EditedScores(f.teams), []);
    match Ballots.Problems(potential, extant, d.teams, t.teamsPerSide, t.substantiveSpeakers)
    case Err(e) => Err(Panic(e))
    case Ok(ps) =>
      if ps == [] then Ok(None)
      else
        match Ballots.Problems(extant, potential, d.teams, t.teamsPerSide, t.substantiveSpeakers)
        case Err(e) => Err(Panic(e))
        case Ok(changes) =>
          match Descriptions(changes, t.teamsPerSide, extant.meta.judge, f.judge)
          case None => Err(Panic("internal error: entered unreachable code"))
          case Some(sentences) =>
            var note := JoinWith(sentences, ", ");
            Ok(Some(potential.(meta := potential.meta.(change := Some(note), version := extant.meta.version + 1, editor := Some(user)))))
  }

  /**
   * The loop of do_edit_ballot_set over the first forms, with the ballots
   * stored before the edit: a form of a judge without a stored ballot is a
   * bad request; otherwise the new versions in form order.
   */
  /** One form of the loop, given the new versions made so far. */
  function Step(t: Tournaments.Config, tournament: string, d: BallotSubmit.DebateInfo, stored: seq<Ballots.Ballot>,
                acc: seq<Ballots.Ballot>, f: SingleBallot, user: string, newId: string, now: int)
    : (r: Result<seq<Ballots.Ballot>, Response>)
  {
    match LatestOfJudge(stored, d.id, f.judge)
    case None => Err(BadRequest(""))
    case Some(extant) =>
      match EditOne(t, tournament, d, extant, f, user, newId, now)
      case Err(e) => Err(e)
      case Ok(None) => Ok(acc)
      case Ok(Some(b)) => Ok(acc + [b])
  }

  function NewVersions(t: Tournaments.Config, tournament: string, d: BallotSubmit.DebateInfo, stored: seq<Ballots.Ballot>,
                       forms: seq<SingleBallot>, user: string, newId: nat -> string, now: int)
    : Result<seq<Ballots.Ballot>, Response>
  {
    if forms == [] then Ok([])
    else
      var n := |forms| - 1;
      match NewVersions(t, tournament, d, stored, forms[..n], user, newId, now)
      case Err(e) => Err(e)
      case Ok(acc) => Step(t, tournament, d, stored, acc, forms[n], user, newId(n), now)
  }

  /** A new version made by the edit. */
  predicate IsNewVersion(b: Ballots.Ballot, d: BallotSubmit.DebateInfo, stored: seq<Ballots.Ballot>, user: string)
  {
    b.meta.editor == Some(user) && b.meta.change.Some? && b.meta.debate == d.id &&
    LatestOfJudge(stored, d.id, b.meta.judge).Some? &&
    b.meta.version == LatestOfJudge(stored, d.id, b.meta.judge).value.meta.version + 1
  }

  /**
   * The loop of do_edit_ballot_set: a form of a judge without a stored
   * ballot is a bad request and a failing comparison a panic; otherwise at
   * most one new version per form, each edited by the user and numbered one
   * past the judge's latest stored version.
   */
  lemma {:induction false} NewVersionsShape(t: Tournaments.Config, tournament: string, d: BallotSubmit.DebateInfo, stored: seq<Ballots.Ballot>,
                                            forms: seq<SingleBallot>, user: string, newId: nat -> string, now: int)
    ensures var r := NewVersions(t, tournament, d, stored, forms, user, newId, now);
      (r.Err? ==> r.error == BadRequest("") || r.error.Panic?) &&
      (r.Ok? ==> |r.value| <= |forms| && forall b :: b in r.value ==> IsNewVersion(b, d, stored, user))
  {
    if forms != [] {
      var n := |forms| - 1;
      NewVersionsShape(t, tournament, d, stored, forms[..n], user, newId, now);
    }
  }

  /** Every new version is numbered past all stored versions of its judge's ballot. */
  lemma NewVersionIsNew(t: Tournaments.Config, tournament: string, d: BallotSubmit.DebateInfo, stored: seq<Ballots.Ballot>,
                        forms: seq<SingleBallot>, user: string, newId: nat -> string, now: int)
    requires NewVersions(t, tournament, d, stored, forms, user, newId, now).Ok?
    ensures forall b, s :: (b in NewVersions(t, tournament, d, stored, forms, user, newId, now).value && s in stored &&
      OfJudge(s, d.id, b.meta.judge)) ==> s.meta.version < b.meta.version
  {
    var r := NewVersions(t, tournament, d, stored, forms, user, newId, now).value;
    NewVersionsShape(t, tournament, d, stored, forms, user, newId, now);
    forall b, s | b in r && s in stored && OfJudge(s, d.id, b.meta.judge)
      ensures s.meta.version < b.meta.version
    {
      var latest := LatestOfJudge(stored, d.id, b.meta.judge);
      var k :| 0 <= k < |stored| && stored[k] == s;
    }
  }

  /** Once a form fails, the whole loop fails with that form's response. */
  lemma {:induction false} ErrorSticks(t: Tournaments.Config, tournament: string, d: BallotSubmit.DebateInfo, stored: seq<Ballots.Ballot>,
                                       forms: seq<SingleBallot>, i: nat, user: string, newId: nat -> string, now: int)
    requires i <= |forms|
    requires NewVersions(t, tournament, d, stored, forms[..i], user, newId, now).Err?
    ensures NewVersions(t, tournament, d, stored, forms, user, newId, now) == NewVersions(t, tournament, d, stored, forms[..i], user, newId, now)
    decreases |forms|
  {
    if i < |forms| {
      var n := |forms| - 1;
      assert forms[..n][..i] == forms[..i];
      ErrorSticks(t, tournament, d, stored, forms[..n], i, user, newId, now);
    } else {
      assert forms[..i] == forms;
    }
  }

  /** The loop over the forms, computed from the ballots stored before the edit. */
  method CollectNewVersions(t: Tournaments.Config, tournament: string, d: BallotSubmit.DebateInfo, stored: seq<Ballots.Ballot>,
                            forms: seq<SingleBallot>, user: string, newId: nat -> string, now: int)
    returns (r: Result<seq<Ballots.Ballot>, Response>)
    ensures r == NewVersions(t, tournament, d, stored, forms, user, newId, now)
  {
    var newBallots: seq<Ballots.Ballot> := [];
    for i := 0 to |forms|
      invariant NewVersions(t, tournament, d, stored, forms[..i], user, newId, now) == Ok(newBallots)
    {
      assert forms[..i + 1][..i] == forms[..i];
      var next := Step(t, tournament, d, stored, newBallots, forms[i], user, newId(i), now);
      if next.Err? {
        ErrorSticks(t, tournament, d, stored, forms, i + 1, user, newId, now);
        return next;
      }
      newBallots := next.value;
    }
    assert forms[..|forms|] == forms;
    r := Ok(newBallots);
  }

  /**
   * do_edit_ballot_set against the ledger: only a superuser may edit, the
   * debate must exist, and the new versions are appended after all the
   * stored rows, which stay as they were.
   */
  method EditBallotSet(ledger: Ballots.BallotLedger, t: Tournaments.Config, tournament: string, isSuperuser: bool,
                       debate: Option<BallotSubmit.DebateInfo>, forms: seq<SingleBallot>, user: string, newId: nat -> string, now: int)
    returns (resp: Response)
    modifies ledger
    ensures ledger.statuses == old(ledger.statuses)
    ensures !Commits(resp) ==> ledger.ballots == old(ledger.ballots)
    ensures !isSuperuser ==> resp == Unauthorized
    ensures isSuperuser && debate.None? ==> resp == NotFound
    ensures isSuperuser && debate.Some? ==>
      var out := NewVersions(t, tournament, debate.value, old(ledger.ballots), forms, user, newId, now);
      (out.Err? ==> resp == out.error) &&
      (out.Ok? ==> resp == SeeOther && ledger.ballots == old(ledger.ballots) + out.value)
  {
    if !isSuperuser {
      return Unauthorized;
    }
    if debate.None? {
      return NotFound;
    }
    var stored := ledger.ballots;
    var out := CollectNewVersions(t, tournament, debate.value, stored, forms, user, newId, now);
    if out.Err? {
      return out.error;
    }
    AppendAll(ledger, out.value);
    resp := SeeOther;
  }

  /** The insert loop: each new version is appended in turn, after every stored row. */
  method AppendAll(ledger: Ballots.BallotLedger, newBallots: seq<Ballots.Ballot>)
    modifies ledger
    ensures ledger.ballots == old(ledger.ballots) + newBallots
    ensures ledger.statuses == old(ledger.statuses)
  {
    for k := 0 to |newBallots|
      invariant ledger.ballots == old(ledger.ballots) + newBallots[..k]
      invariant ledger.statuses == old(ledger.statuses)
    {
      ledger.ballots := ledger.ballots + [newBallots[k]];
      assert newBallots[..k + 1] == newBallots[..k] + [newBallots[k]];
    }
    assert newBallots[..|newBallots|] == newBallots;
  }
}
