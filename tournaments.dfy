/**
 * Tournament configuration and the pure helpers of src/tournaments/mod.rs:
 * ballot-setup predicates, the per-round-kind flag selectors, the choice of
 * ballot aggregation method, speaker-score validation and speaker position
 * names.
 */
module Tournaments {
  import opened Wrappers
  import Rounds
  import Text

  /**
   * The tournament settings the model reads. Speaker scores are integers
   * (in units of the smallest score increment).
   */
  datatype Config = Config(
    teamsPerSide: int,
    substantiveSpeakers: int,
    replySpeakers: bool,
    teamTabPublic: bool,
    standingsPublic: bool,
    poolBallotSetup: string,
    elimBallotSetup: string,
    requirePrelimSpeaks: bool,
    requirePrelimSpeakerOrder: bool,
    requireElimSpeaks: bool,
    requireElimSpeakerOrder: bool,
    minSpeak: Option<int>,
    maxSpeak: Option<int>,
    speakStep: Option<int>)

  predicate PoolIsConsensus(t: Config)
  {
    t.poolBallotSetup == "consensus"
  }

  predicate ElimIsConsensus(t: Config)
  {
    t.elimBallotSetup == "consensus"
  }

  /** round_requires_speaker_order: the elimination flag for elimination rounds, else the preliminary one. */
  function RoundRequiresSpeakerOrder(t: Config, round: Rounds.Round): (r: bool)
    ensures Rounds.IsElim(round) ==> r == t.requireElimSpeakerOrder
    ensures !Rounds.IsElim(round) ==> r == t.requirePrelimSpeakerOrder
  {
    if Rounds.IsElim(round) then t.requireElimSpeakerOrder else t.requirePrelimSpeakerOrder
  }

  /** round_requires_speaks, chosen the same way. */
  function RoundRequiresSpeaks(t: Config, round: Rounds.Round): (r: bool)
    ensures Rounds.IsElim(round) ==> r == t.requireElimSpeaks
    ensures !Rounds.IsElim(round) ==> r == t.requirePrelimSpeaks
  {
    if Rounds.IsElim(round) then t.requireElimSpeaks else t.requirePrelimSpeaks
  }

  datatype AggregationMethod = Consensus | Individual

  /**
   * agg_method_for_current_round: the kind of the first current round
   * picks the elimination or the pool setup. No current round is the
   * unwrap panic, a kind other than "P"/"E" the unreachable! panic.
   */
  function AggMethodForCurrentRound(t: Config, table: seq<Rounds.Round>): (r: Result<AggregationMethod, string>)
    ensures r.Err? <==> (Rounds.CurrentRounds(table) == [] ||
      (Rounds.CurrentRounds(table)[0].kind != "P" && Rounds.CurrentRounds(table)[0].kind != "E"))
    ensures r.Ok? ==> (r.value == Consensus <==>
      (if Rounds.CurrentRounds(table)[0].kind == "E" then ElimIsConsensus(t) else PoolIsConsensus(t)))
  {
    var current := Rounds.CurrentRounds(table);
    if current == [] then Err("called `Option::unwrap()` on a `None` value")
    else if current[0].kind == "P" then Ok(if PoolIsConsensus(t) then Consensus else Individual)
    else if current[0].kind == "E" then Ok(if ElimIsConsensus(t) then Consensus else Individual)
    else Err("internal error: entered unreachable code")
  }

  // ------------------------------------------------------ score validation

  datatype ScoreProblem = BelowMin(min: int) | AboveMax(max: int) | OffStep(step: int)

  datatype ScoreCheck = Accepted | Rejected(problem: ScoreProblem) | ReplyUnimplemented

  /** The conditions a substantive score must meet; an absent bound is no condition. */
  ghost predicate WithinRules(t: Config, score: int)
  {
    (t.minSpeak.None? || score >= t.minSpeak.value) &&
    (t.maxSpeak.None? || score <= t.maxSpeak.value) &&
    (t.speakStep.None? || t.speakStep.value == 0 || score % t.speakStep.value == 0)
  }

  /**
   * check_score_valid: a substantive score is checked against the minimum,
   * then the maximum, then the step; a reply score reaches a todo! panic.
   */
  function CheckScoreValid(t: Config, score: int, isReply: bool): (r: ScoreCheck)
    ensures isReply <==> r == ReplyUnimplemented
    ensures !isReply ==> (r == Accepted <==> WithinRules(t, score))
    ensures r.Rejected? && r.problem.BelowMin? ==> t.minSpeak == Some(r.problem.min) && score < r.problem.min
    ensures r.Rejected? && r.problem.AboveMax? ==> t.maxSpeak == Some(r.problem.max) && r.problem.max < score
    ensures r.Rejected? && r.problem.OffStep? ==> t.speakStep == Some(r.problem.step) && r.problem.step != 0
  {
    if isReply then ReplyUnimplemented
    else if t.minSpeak.Some? && score < t.minSpeak.value then Rejected(BelowMin(t.minSpeak.value))
    else if t.maxSpeak.Some? && t.maxSpeak.value < score then Rejected(AboveMax(t.maxSpeak.value))
    else if t.speakStep.Some? && t.speakStep.value != 0 && score % t.speakStep.value != 0 then Rejected(OffStep(t.speakStep.value))
    else Accepted
  }

  /** The message check_score_valid returns for a rejected score of a named speaker. */
  function ScoreMessage(p: ScoreProblem, score: int, speaker: string): (m: string)
    ensures m != []
  {
    var prefix := "Score of " + Text.IntToString(score) + " for " + speaker;
    match p
    case BelowMin(min) => prefix + " is lower than the minimum permissible speak " + Text.IntToString(min) + "."
    case AboveMax(max) => prefix + " is greater than the maximum permissible speak " + Text.IntToString(max) + "."
    case OffStep(step) => prefix + " does not match requirement that the score be a multiple of " + Text.IntToString(step) + "."
  }

  /** A score that breaks the minimum is reported as such, whatever else it breaks. */
  lemma BelowMinReportedFirst(t: Config, score: int)
    requires t.minSpeak.Some? && score < t.minSpeak.value
    ensures CheckScoreValid(t, score, false) == Rejected(BelowMin(t.minSpeak.value))
  {
  }

  /** Dropping a bound never turns an accepted score into a rejected one. */
  lemma DroppingBoundsKeepsAcceptance(t: Config, score: int)
    requires CheckScoreValid(t, score, false) == Accepted
    ensures CheckScoreValid(t.(minSpeak := None), score, false) == Accepted
    ensures CheckScoreValid(t.(maxSpeak := None), score, false) == Accepted
    ensures CheckScoreValid(t.(speakStep := None), score, false) == Accepted
  {
  }

  // ------------------------------------------------ speaker position names

  /** The 16 (teams per side, side, seq, position) tuples that have a name. */
  predicate NamedPosition(tps: int, side: int, seqNo: int, pos: int)
  {
    (tps == 1 && (side == 0 || side == 1) && seqNo == 0 && 0 <= pos <= 3) ||
    (tps == 2 && (side == 0 || side == 1) && (seqNo == 0 || seqNo == 1) && (pos == 0 || pos == 1))
  }

  /** speaker_position_name; None is the unreachable! panic. */
  function SpeakerPositionName(tps: int, side: int, seqNo: int, pos: int): (r: Option<string>)
    ensures r.Some? <==> NamedPosition(tps, side, seqNo, pos)
  {
    if tps == 1 && side == 0 && seqNo == 0 then
      (if pos == 0 then Some("1st Prop") else if pos == 1 then Some("2nd Prop")
       else if pos == 2 then Some("3rd Prop") else if pos == 3 then Some("Prop Reply") else None)
    else if tps == 1 && side == 1 && seqNo == 0 then
      (if pos == 0 then Some("1st Opp") else if pos == 1 then Some("2nd Opp")
       else if pos == 2 then Some("3rd Opp") else if pos == 3 then Some("Opp Reply") else None)
    else if tps == 2 && side == 0 && seqNo == 0 then
      (if pos == 0 then Some("PM") else if pos == 1 then Some("DPM") else None)
    else if tps == 2 && side == 1 && seqNo == 0 then
      (if pos == 0 then Some("LO") else if pos == 1 then Some("DLO") else None)
    else if tps == 2 && side == 0 && seqNo == 1 then
      (if pos == 0 then Some("MG") else if pos == 1 then Some("GW") else None)
    else if tps == 2 && side == 1 && seqNo == 1 then
      (if pos == 0 then Some("MO") else if pos == 1 then Some("OW") else None)
    else None
  }

  /** Within a format, different named positions have different names. */
  lemma SpeakerPositionNamesDistinct(tps: int, s1: int, q1: int, p1: int, s2: int, q2: int, p2: int)
    requires NamedPosition(tps, s1, q1, p1) && NamedPosition(tps, s2, q2, p2)
    requires (s1, q1, p1) != (s2, q2, p2)
    ensures SpeakerPositionName(tps, s1, q1, p1) != SpeakerPositionName(tps, s2, q2, p2)
  {
  }
}
