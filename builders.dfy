/**
 * The two ballot builders of src/tournaments/rounds/ballots/mod.rs.
 * BallotTeamSpeakersBuilder is consumed and returned by add_speaker, so it
 * is a value here; BallotBuilder is updated in place by add_team, so it is
 * an object.
 */
module BallotBuilders {
  import opened Wrappers
  import Text
  import Tournaments
  import Rounds
  import Ballots

  /** Why a builder refused: a message for the user, a rejected score, or a panic. */
  datatype BuildError = Invalid(msg: string) | ScoreRejected(problem: Tournaments.ScoreProblem) | Panicked(msg: string)

  const NotForThisRound := "Error: speakers should not be submitted for this round type"

  // -------------------------------------------------- speakers of one team

  datatype SpeakersBuilder = SpeakersBuilder(
    config: Tournaments.Config,
    recordsScores: bool,
    recordsPositions: bool,
    expected: int,
    speakers: seq<(string, Option<int>)>)

  /** BallotTeamSpeakersBuilder::new: room for the substantive speakers and, with reply speeches, one more. */
  function NewSpeakersBuilder(t: Tournaments.Config, recordsScores: bool, recordsPositions: bool): (b: SpeakersBuilder)
    ensures b.expected == t.substantiveSpeakers + (if t.replySpeakers then 1 else 0)
    ensures b.speakers == [] && b.config == t
    ensures b.recordsScores == recordsScores && b.recordsPositions == recordsPositions
  {
    SpeakersBuilder(t, recordsScores, recordsPositions, t.substantiveSpeakers + if t.replySpeakers then 1 else 0, [])
  }

  /** Whether the score offered for a position passes check_score_valid (no check when scores are not recorded). */
  predicate Admissible(b: SpeakersBuilder, position: int, score: Option<int>)
  {
    !b.recordsScores || score.None? ||
    Tournaments.CheckScoreValid(b.config, score.value, position >= b.config.substantiveSpeakers) == Tournaments.Accepted
  }

  /** What is stored for an offered score: nothing when scores are not recorded. */
  function Stored(b: SpeakersBuilder, score: Option<int>): Option<int>
  {
    if b.recordsScores then score else None
  }

  /**
   * add_speaker: refused when positions are not recorded or the team is
   * full; a recorded score must pass check_score_valid, and a reply-speech
   * score reaches its todo! panic.
   */
  function AddSpeaker(b: SpeakersBuilder, id: string, score: Option<int>): (r: Result<SpeakersBuilder, BuildError>)
    ensures !b.recordsPositions ==> r == Err(Invalid(NotForThisRound))
    ensures b.recordsPositions && |b.speakers| >= b.expected ==> r == Err(Invalid("Error: too many speakers added"))
    ensures r.Ok? <==> b.recordsPositions && |b.speakers| < b.expected && Admissible(b, |b.speakers|, score)
    ensures r.Ok? ==> r.value == b.(speakers := b.speakers + [(id, Stored(b, score))])
    ensures r.Err? && r.error.Panicked? ==> b.recordsScores && score.Some? && |b.speakers| >= b.config.substantiveSpeakers
  {
    if !b.recordsPositions then Err(Invalid(NotForThisRound))
    else if |b.speakers| >= b.expected then Err(Invalid("Error: too many speakers added"))
    else if b.recordsScores && score.Some? then
      match Tournaments.CheckScoreValid(b.config, score.value, |b.speakers| >= b.config.substantiveSpeakers)
      case Accepted => Ok(b.(speakers := b.speakers + [(id, score)]))
      case Rejected(p) => Err(ScoreRejected(p))
      case ReplyUnimplemented => Err(Panicked("not yet implemented"))
    else Ok(b.(speakers := b.speakers + [(id, Stored(b, score))]))
  }

  /** add_speaker for each entry in turn, stopping at the first error. */
  function AddSpeakers(b: SpeakersBuilder, entries: seq<(string, Option<int>)>): Result<SpeakersBuilder, BuildError>
    decreases |entries|
  {
    if entries == [] then Ok(b)
    else
      match AddSpeaker(b, entries[0].0, entries[0].1)
      case Err(e) => Err(e)
      case Ok(next) => AddSpeakers(next, entries[1..])
  }

  /** build: with positions recorded the team must be exactly full. */
  function BuildSpeakers(b: SpeakersBuilder): (r: Result<seq<(string, Option<int>)>, BuildError>)
    ensures r.Err? <==> b.recordsPositions && |b.speakers| != b.expected
    ensures r.Err? ==> r == Err(Invalid("Error: missing speaker information"))
    ensures r.Ok? ==> r.value == b.speakers
  {
    if b.recordsPositions && |b.speakers| != b.expected then Err(Invalid("Error: missing speaker information"))
    else Ok(b.speakers)
  }

  /** The entries as the builder stores them: the id, and the score only when scores are recorded. */
  function StoredAll(b: SpeakersBuilder, entries: seq<(string, Option<int>)>): (r: seq<(string, Option<int>)>)
    ensures |r| == |entries|
  {
    if entries == [] then [] else [(entries[0].0, Stored(b, entries[0].1))] + StoredAll(b, entries[1..])
  }

  /** Each stored entry keeps its id and, when scores are recorded, its score. */
  lemma {:induction false} StoredAllAt(b: SpeakersBuilder, entries: seq<(string, Option<int>)>, k: nat)
    requires k < |entries|
    ensures StoredAll(b, entries)[k] == (entries[k].0, Stored(b, entries[k].1))
  {
    if k > 0 {
      StoredAllAt(b, entries[1..], k - 1);
    }
  }

  /** Each entry's score is admissible at its position, the first entry going to position from. */
  predicate AllAdmissible(b: SpeakersBuilder, entries: seq<(string, Option<int>)>, from: int)
  {
    forall k :: 0 <= k < |entries| ==> Admissible(b, from + k, entries[k].1)
  }

  /** Admissibility does not depend on the speakers already added, so the entries can be taken one at a time. */
  lemma AllAdmissibleCons(b: SpeakersBuilder, next: SpeakersBuilder, entries: seq<(string, Option<int>)>, from: int)
    requires entries != [] && next.config == b.config && next.recordsScores == b.recordsScores
    ensures AllAdmissible(b, entries, from) <==>
      Admissible(b, from, entries[0].1) && AllAdmissible(next, entries[1..], from + 1)
  {
    var tail := entries[1..];
    assert forall k :: 0 <= k < |tail| ==> tail[k] == entries[k + 1];
    if Admissible(b, from, entries[0].1) && AllAdmissible(next, tail, from + 1) {
      forall k | 0 <= k < |entries| ensures Admissible(b, from + k, entries[k].1) {
        if k > 0 {
          assert Admissible(next, from + 1 + (k - 1), tail[k - 1].1);
        }
      }
    }
  }

  /** StoredAll looks only at whether scores are recorded. */
  lemma {:induction false} StoredAllSameScores(b: SpeakersBuilder, other: SpeakersBuilder, entries: seq<(string, Option<int>)>)
    requires other.recordsScores == b.recordsScores
    ensures StoredAll(other, entries) == StoredAll(b, entries)
  {
    if entries != [] {
      StoredAllSameScores(b, other, entries[1..]);
    }
  }

  /** Entries that fit and are all admissible are appended, stored as the builder stores them. */
  lemma {:induction false} AddSpeakersAppends(b: SpeakersBuilder, entries: seq<(string, Option<int>)>)
    requires b.recordsPositions && |b.speakers| + |entries| <= b.expected && AllAdmissible(b, entries, |b.speakers|)
    ensures AddSpeakers(b, entries) == Ok(b.(speakers := b.speakers + StoredAll(b, entries)))
    decreases |entries|
  {
    if entries != [] {
      assert Admissible(b, |b.speakers| + 0, entries[0].1);
      var next := AddSpeaker(b, entries[0].0, entries[0].1).value;
      assert AddSpeakers(b, entries) == AddSpeakers(next, entries[1..]);
      AllAdmissibleCons(b, next, entries, |b.speakers|);
      AddSpeakersAppends(next, entries[1..]);
      var x := (entries[0].0, Stored(b, entries[0].1));
      var rest := StoredAll(b, entries[1..]);
      assert StoredAll(next, entries[1..]) == rest by {
        StoredAllSameScores(b, next, entries[1..]);
      }
      assert StoredAll(b, entries) == [x] + rest;
      assert (b.speakers + [x]) + rest == b.speakers + ([x] + rest);
    } else {
      assert b.speakers + StoredAll(b, entries) == b.speakers;
    }
  }

  /** Adding entries succeeds only when they fit and are all admissible. */
  lemma {:induction false} AddSpeakersNeedsRoom(b: SpeakersBuilder, entries: seq<(string, Option<int>)>)
    requires b.recordsPositions && AddSpeakers(b, entries).Ok?
    ensures |b.speakers| + |entries| <= b.expected || entries == []
    ensures AllAdmissible(b, entries, |b.speakers|)
    decreases |entries|
  {
    if entries != [] {
      var first := AddSpeaker(b, entries[0].0, entries[0].1);
      assert first.Ok?;
      var next := first.value;
      assert AddSpeakers(b, entries) == AddSpeakers(next, entries[1..]);
      AddSpeakersNeedsRoom(next, entries[1..]);
      AllAdmissibleCons(b, next, entries, |b.speakers|);
    }
  }

  /**
   * Adding entries one by one succeeds exactly when they fit in the team
   * and each score is admissible at its position, and then appends them.
   */
  lemma AddSpeakersSucceeds(b: SpeakersBuilder, entries: seq<(string, Option<int>)>)
    requires b.recordsPositions && |b.speakers| <= b.expected
    ensures AddSpeakers(b, entries).Ok? <==>
      (|b.speakers| + |entries| <= b.expected && AllAdmissible(b, entries, |b.speakers|))
    ensures AddSpeakers(b, entries).Ok? ==>
      AddSpeakers(b, entries).value == b.(speakers := b.speakers + StoredAll(b, entries))
  {
    if AddSpeakers(b, entries).Ok? {
      AddSpeakersNeedsRoom(b, entries);
    }
    if |b.speakers| + |entries| <= b.expected && AllAdmissible(b, entries, |b.speakers|) {
      AddSpeakersAppends(b, entries);
    }
  }

  /**
   * With positions recorded, a team's speakers build exactly when there
   * are as many as expected and each score is admissible; the result keeps
   * the speakers in order.
   */
  lemma TeamBuildsWhenExactlyFull(t: Tournaments.Config, recordsScores: bool, entries: seq<(string, Option<int>)>)
    ensures var b := NewSpeakersBuilder(t, recordsScores, true);
      (AddSpeakers(b, entries).Ok? && BuildSpeakers(AddSpeakers(b, entries).value).Ok?) <==>
        (|entries| == b.expected && AllAdmissible(b, entries, 0))
    ensures var b := NewSpeakersBuilder(t, recordsScores, true);
      AddSpeakers(b, entries).Ok? && BuildSpeakers(AddSpeakers(b, entries).value).Ok? ==>
        BuildSpeakers(AddSpeakers(b, entries).value).value == StoredAll(b, entries)
  {
    var b := NewSpeakersBuilder(t, recordsScores, true);
    if b.expected >= 0 {
      AddSpeakersSucceeds(b, entries);
      assert [] + StoredAll(b, entries) == StoredAll(b, entries);
    } else if entries != [] {
      assert AddSpeaker(b, entries[0].0, entries[0].1).Err?;
    }
  }

  /** With positions not recorded, only an empty team is accepted, and it builds to no speakers. */
  lemma NoSpeakersWithoutPositions(t: Tournaments.Config, recordsScores: bool, entries: seq<(string, Option<int>)>)
    ensures var b := NewSpeakersBuilder(t, recordsScores, false);
      AddSpeakers(b, entries).Ok? <==> entries == []
    ensures var b := NewSpeakersBuilder(t, recordsScores, false);
      AddSpeakers(b, entries).Ok? ==> BuildSpeakers(AddSpeakers(b, entries).value) == Ok([])
  {
  }

  // ------------------------------------------------------------ the ballot

  const VersionConflict := "Error: The ballot has been modified since you started editing. Please reload the page to see the latest version."

  /**
   * The checks of BallotBuilder::new as written: the versions must match
   * and the motion must belong to the debate; then the assertions demand a
   * version of 0 when the prior version is 0, and otherwise the prior
   * version plus one, which a matching version never is.
   */
  function AdmitAsWritten(expectedVersion: int, priorVersion: int, motionKnown: bool): (r: Result<(), BuildError>)
    ensures r.Ok? <==> expectedVersion == priorVersion && motionKnown && priorVersion == 0
  {
    if expectedVersion != priorVersion then Err(Invalid(VersionConflict))
    else if !motionKnown then Err(Invalid("Error: invalid motion"))
    else if priorVersion == 0 then
      (if expectedVersion == 0 then Ok(()) else Err(Panicked("assertion `left == right` failed")))
    else if expectedVersion == priorVersion + 1 then Ok(())
    else Err(Panicked("assertion `left == right` failed"))
  }

  /** A builder for a second version of a ballot cannot be made: the assertion fires. */
  lemma AdmitAsWrittenRefusesLaterVersions()
    ensures AdmitAsWritten(1, 1, true) == Err(Panicked("assertion `left == right` failed"))
  {
  }

  /** BallotBuilder::new's checks without the contradictory assertion: a matching version and a known motion. */
  function Admit(expectedVersion: int, priorVersion: int, motionKnown: bool): (r: Result<(), BuildError>)
    ensures r.Ok? <==> expectedVersion == priorVersion && motionKnown
    ensures expectedVersion != priorVersion ==> r == Err(Invalid(VersionConflict))
    ensures expectedVersion == priorVersion && !motionKnown ==> r == Err(Invalid("Error: invalid motion"))
  {
    if expectedVersion != priorVersion then Err(Invalid(VersionConflict))
    else if !motionKnown then Err(Invalid("Error: invalid motion"))
    else Ok(())
  }

  /** The scores of one team's speakers, each at the position of its index. */
  function PositionedScores(team: string, speakers: seq<(string, Option<int>)>): (r: seq<Ballots.Score>)
    ensures |r| == |speakers|
    ensures forall j :: 0 <= j < |r| ==> r[j] == Ballots.Score(team, speakers[j].0, j, speakers[j].1)
  {
    seq(|speakers|, j requires 0 <= j < |speakers| => Ballots.Score(team, speakers[j].0, j, speakers[j].1))
  }

  class BallotBuilder {
    var config: Tournaments.Config
    var teams: seq<Ballots.DebateTeam>
    var meta: Ballots.Meta
    var recordsPositions: bool
    var recordsScores: bool
    var isElim: bool
    var numAdvancing: Option<int>
    var scores: seq<Ballots.Score>
    var advancing: seq<string>
    var teamsAdded: nat

    /**
     * The construction of BallotBuilder::new once Admit has accepted: the
     * version is the expected one, the flags follow the round's kind, and
     * an elimination round knows how many teams advance.
     */
    constructor (t: Tournaments.Config, teams: seq<Ballots.DebateTeam>, meta: Ballots.Meta, round: Rounds.Round,
                 expectedVersion: int, isFinal: bool)
      ensures this.config == t && this.teams == teams && this.meta == meta.(version := expectedVersion)
      ensures recordsPositions == Tournaments.RoundRequiresSpeakerOrder(t, round)
      ensures recordsScores == Tournaments.RoundRequiresSpeaks(t, round)
      ensures isElim == Rounds.IsElim(round)
      ensures numAdvancing == if Rounds.IsElim(round) then Some(Ballots.NumAdvancing(t.teamsPerSide, isFinal)) else None
      ensures scores == [] && advancing == [] && teamsAdded == 0
    {
      config := t;
      this.teams := teams;
      this.meta := meta.(version := expectedVersion);
      recordsPositions := Tournaments.RoundRequiresSpeakerOrder(t, round);
      recordsScores := Tournaments.RoundRequiresSpeaks(t, round);
      isElim := Rounds.IsElim(round);
      numAdvancing := if Rounds.IsElim(round) then Some(Ballots.NumAdvancing(t.teamsPerSide, isFinal)) else None;
      scores := [];
      advancing := [];
      teamsAdded := 0;
    }

    /**
     * add_team: the team at (side, seq) must exist (else the lookup's unwrap
     * panics); speakers are refused when positions are not recorded;
     * otherwise their scores are appended at positions 0, 1, ..., an
     * elimination team with one point is recorded as advancing, and the
     * team is counted.
     */
    method AddTeam(side: int, seqNo: int, speakers: seq<(string, Option<int>)>, points: Option<int>)
      returns (r: Result<(), BuildError>)
      modifies this
      ensures Ballots.TeamAt(teams, side, seqNo).None? ==> r.Err? && r.error.Panicked?
      ensures r.Ok? <==> Ballots.TeamAt(teams, side, seqNo).Some? && (recordsPositions || speakers == [])
      ensures r.Err? ==> unchanged(this)
      ensures r.Ok? ==>
        var team := Ballots.TeamAt(teams, side, seqNo).value;
        scores == old(scores) + PositionedScores(team, speakers) &&
        advancing == old(advancing) + (if isElim && points == Some(1) then [team] else []) &&
        teamsAdded == old(teamsAdded) + 1
      ensures config == old(config) && teams == old(teams) && meta == old(meta) && isElim == old(isElim)
      ensures recordsPositions == old(recordsPositions) && recordsScores == old(recordsScores) && numAdvancing == old(numAdvancing)
    {
      var dt := Ballots.TeamAt(teams, side, seqNo);
      if dt.None? {
        return Err(Panicked(Ballots.UnwrapNone));
      }
      if !recordsPositions && speakers != [] {
        return Err(Invalid(NotForThisRound));
      }
      var added: seq<Ballots.Score> := [];
      var j := 0;
      while j < |speakers|
        invariant 0 <= j <= |speakers|
        invariant added == PositionedScores(dt.value, speakers[..j])
      {
        added := added + [Ballots.Score(dt.value, speakers[j].0, j, speakers[j].1)];
        j := j + 1;
        assert PositionedScores(dt.value, speakers[..j]) == PositionedScores(dt.value, speakers[..j - 1]) + [Ballots.Score(dt.value, speakers[j - 1].0, j - 1, speakers[j - 1].1)];
      }
      assert speakers[..j] == speakers;
      scores := scores + added;
      if isElim && points == Some(1) {
        advancing := advancing + [dt.value];
      }
      teamsAdded := teamsAdded + 1;
      r := Ok(());
    }

    /**
     * build: exactly 2 * teams_per_side teams must have been added; an
     * elimination ballot needs exactly num_advancing advancing teams and
     * ranks them by advancing, a preliminary ballot ranks by speaker totals.
     */
    method Build() returns (r: Result<Ballots.Ballot, BuildError>)
      ensures teamsAdded != config.teamsPerSide * 2 ==> r == Err(Invalid("Error: incorrect number of teams submitted"))
      ensures r.Ok? <==> (teamsAdded == config.teamsPerSide * 2 &&
        (isElim ==> numAdvancing.Some? && |advancing| == numAdvancing.value))
      ensures r.Ok? ==> r.value.meta == meta && r.value.scores == scores
      ensures r.Ok? && isElim ==> r.value.ranks == Ballots.RanksFromAdvancing(advancing, teams)
      ensures r.Ok? && !isElim ==> r.value.ranks == Ballots.RanksFromScores(scores, teams, config.teamsPerSide * 2)
    {
      if teamsAdded != config.teamsPerSide * 2 {
        return Err(Invalid("Error: incorrect number of teams submitted"));
      }
      var ranks;
      if isElim {
        if numAdvancing.None? {
          return Err(Panicked("self.num_advancing must be computed for elimination rounds"));
        }
        if |advancing| != numAdvancing.value {
          return Err(Invalid("Error: expected " + Text.IntToString(numAdvancing.value) + " advancing team(s), but " +
            Text.NatToString(|advancing|) + " were selected"));
        }
        ranks := Ballots.RanksFromAdvancing(advancing, teams);
      } else {
        ranks := Ballots.RanksFromScores(scores, teams, config.teamsPerSide * 2);
      }
      r := Ok(Ballots.Ballot(meta, scores, ranks));
    }
  }

  /**
   * BallotBuilder::new with the corrected checks: a builder is made exactly
   * when Admit accepts.
   */
  method NewBallotBuilder(t: Tournaments.Config, teams: seq<Ballots.DebateTeam>, meta: Ballots.Meta, round: Rounds.Round,
                          motions: set<string>, expectedVersion: int, priorVersion: int, isFinal: bool)
    returns (r: Result<BallotBuilder, BuildError>)
    ensures r.Err? <==> Admit(expectedVersion, priorVersion, meta.motion in motions).Err?
    ensures r.Err? ==> r.error == Admit(expectedVersion, priorVersion, meta.motion in motions).error
    ensures r.Ok? ==> fresh(r.value) && r.value.meta.version == expectedVersion && r.value.teamsAdded == 0
    ensures r.Ok? ==> r.value.isElim == Rounds.IsElim(round) && r.value.config == t && r.value.teams == teams
  {
    var admitted := Admit(expectedVersion, priorVersion, meta.motion in motions);
    if admitted.Err? {
      return Err(admitted.error);
    }
    var b := new BallotBuilder(t, teams, meta, round, expectedVersion, isFinal);
    r := Ok(b);
  }
}
