/**
 * The ballot ledger of src/tournaments/rounds/ballots/mod.rs: ballot rows
 * with their speaker scores and team rank entries, the team points derived
 * from speaker totals or from the advancing teams, the comparison of two
 * ballots of one debate, and the recomputation of a debate's status.
 * Speaker scores are integers (in units of the smallest score increment).
 */
module Ballots {
  import opened Wrappers
  import Sorting
  import Draws

  /** One row of tournament_speaker_score_entries (the row id is left out). */
  datatype Score = Score(team: string, speaker: string, position: int, score: Option<int>)

  /** One row of tournament_team_rank_entries. */
  datatype TeamRank = TeamRank(team: string, points: int)

  /** One row of tournament_ballots. */
  datatype Meta = Meta(
    id: string,
    tournament: string,
    debate: string,
    judge: string,
    submittedAt: int,
    motion: string,
    version: int,
    change: Option<string>,
    editor: Option<string>)

  /** BallotRepr: a ballot with its score and rank entries. */
  datatype Ballot = Ballot(meta: Meta, scores: seq<Score>, ranks: seq<TeamRank>)

  /** One row of tournament_debate_teams: the team at (side, seq) of a debate. */
  datatype DebateTeam = DebateTeam(team: string, side: int, seqNo: int)

  /** The status column of tournament_debates as update_debate_status writes it. */
  datatype DebateStatus = Draft | Confirmed | Conflict

  /** DebateRepr::team_of_side_and_seq: the first team of the debate at that side and seq. */
  function TeamAt(teams: seq<DebateTeam>, side: int, seqNo: int): (r: Option<string>)
    ensures r.None? <==> forall k :: 0 <= k < |teams| ==> !(teams[k].side == side && teams[k].seqNo == seqNo)
    ensures r.Some? ==> exists k :: 0 <= k < |teams| && teams[k].side == side && teams[k].seqNo == seqNo && teams[k].team == r.value
  {
    if teams == [] then None
    else if teams[0].side == side && teams[0].seqNo == seqNo then Some(teams[0].team)
    else
      var r := TeamAt(teams[1..], side, seqNo);
      assert forall k :: 1 <= k < |teams| ==> teams[k] == teams[1..][k - 1];
      r
  }

  // ------------------------------------------------------ advancing teams

  /**
   * num_advancing_for_elim_round: one team advances from a two-team debate
   * and from the final of a break category; otherwise half the teams do.
   * isFinal is the answer of Round::is_final_of_break_category.
   */
  function NumAdvancing(teamsPerSide: int, isFinal: bool): (r: int)
    ensures teamsPerSide * 2 == 2 || isFinal ==> r == 1
    ensures teamsPerSide * 2 != 2 && !isFinal ==> r * 2 == teamsPerSide * 2
    ensures teamsPerSide >= 1 ==> 1 <= r && 2 * r <= teamsPerSide * 2
  {
    var total := teamsPerSide * 2;
    if total == 2 then 1
    else if isFinal then 1
    else total / 2
  }

  // ------------------------------------------------------------ team points

  /** The sum of the recorded scores of a team (absent scores count nothing). */
  function TeamTotal(scores: seq<Score>, team: string): int
  {
    if scores == [] then 0
    else
      var last := scores[|scores| - 1];
      TeamTotal(scores[..|scores| - 1], team) + (if last.team == team && last.score.Some? then last.score.value else 0)
  }

  /** The team ids of the debate's teams, in order. */
  function Ids(teams: seq<DebateTeam>): (r: seq<string>)
    ensures |r| == |teams|
    ensures forall k :: 0 <= k < |r| ==> r[k] == teams[k].team
  {
    seq(|teams|, k requires 0 <= k < |teams| => teams[k].team)
  }

  /** Each team with its total, in the given order. */
  function Totals(scores: seq<Score>, ids: seq<string>): (r: seq<(string, int)>)
    ensures |r| == |ids|
    ensures forall k :: 0 <= k < |r| ==> r[k] == (ids[k], TeamTotal(scores, ids[k]))
  {
    if ids == [] then []
    else Totals(scores, ids[..|ids| - 1]) + [(ids[|ids| - 1], TeamTotal(scores, ids[|ids| - 1]))]
  }

  /** Descending order on the total, the comparison passed to sort_by. */
  function ByTotalDesc(): (le: ((string, int), (string, int)) -> bool)
  {
    (a: (string, int), b: (string, int)) => a.1 >= b.1
  }

  lemma ByTotalDescIsTotalPreorder()
    ensures Sorting.IsTotalPreorder(ByTotalDesc())
  {
  }

  lemma SameElements(r: seq<(string, int)>, s: seq<(string, int)>)
    requires multiset(r) == multiset(s)
    ensures forall i :: 0 <= i < |r| ==> r[i] in s
    ensures forall k :: 0 <= k < |s| ==> s[k] in r
  {
    forall i | 0 <= i < |r| ensures r[i] in s {
      assert r[i] in multiset(r);
    }
    forall k | 0 <= k < |s| ensures s[k] in r {
      assert s[k] in multiset(s);
    }
  }

  /** The totals sorted with the highest first; the sort is stable, so ties keep the given order. */
  function SortedTotals(scores: seq<Score>, ids: seq<string>): (r: seq<(string, int)>)
    ensures |r| == |ids|
    ensures forall i :: 0 <= i < |r| ==> r[i] in Totals(scores, ids)
    ensures forall k :: 0 <= k < |ids| ==> Totals(scores, ids)[k] in r
    ensures forall i, j :: 0 <= i < j < |r| ==> r[i].1 >= r[j].1
    ensures multiset(r) == multiset(Totals(scores, ids))
  {
    ByTotalDescIsTotalPreorder();
    var totals := Totals(scores, ids);
    var r := Sorting.Sort(totals, ByTotalDesc());
    SameElements(r, totals);
    assert Sorting.SortedBy(r, ByTotalDesc());
    r
  }

  /** The teams in descending order of total, the team at index i receiving n - 1 - i points. */
  function RanksByTotal(scores: seq<Score>, ids: seq<string>, n: int): (r: seq<TeamRank>)
    ensures |r| == |ids|
    ensures forall i, j :: 0 <= i < j < |r| ==> r[i].points > r[j].points
    ensures |ids| == n ==> forall i :: 0 <= i < |r| ==> 0 <= r[i].points < n
  {
    var sorted := SortedTotals(scores, ids);
    seq(|sorted|, i requires 0 <= i < |sorted| => TeamRank(sorted[i].0, n - 1 - i))
  }

  /**
   * build_team_ranks_from_scores: the debate's teams ranked by total, n
   * being twice the teams per side.
   */
  function RanksFromScores(scores: seq<Score>, teams: seq<DebateTeam>, n: int): (r: seq<TeamRank>)
    ensures |r| == |teams|
    ensures forall i, j :: 0 <= i < j < |r| ==> r[i].points > r[j].points
    ensures |teams| == n ==> forall i :: 0 <= i < |r| ==> 0 <= r[i].points < n
  {
    RanksByTotal(scores, Ids(teams), n)
  }

  /** The teams named by a list of rank entries. */
  function RankedTeams(r: seq<TeamRank>): (ts: set<string>)
    ensures forall t :: t in ts <==> exists i :: 0 <= i < |r| && r[i].team == t
  {
    set i | 0 <= i < |r| :: r[i].team
  }

  /** The teams of a debate. */
  function TeamIds(teams: seq<DebateTeam>): (ts: set<string>)
    ensures forall t :: t in ts <==> exists k :: 0 <= k < |teams| && teams[k].team == t
  {
    set k | 0 <= k < |teams| :: teams[k].team
  }

  /** The rank entries name exactly the teams ranked. */
  lemma RanksByTotalCoverTeams(scores: seq<Score>, ids: seq<string>, n: int)
    ensures RankedTeams(RanksByTotal(scores, ids, n)) == set k | 0 <= k < |ids| :: ids[k]
  {
    var sorted := SortedTotals(scores, ids);
    var totals := Totals(scores, ids);
    var r := RanksByTotal(scores, ids, n);
    forall t | t in RankedTeams(r) ensures t in set k | 0 <= k < |ids| :: ids[k] {
      var i :| 0 <= i < |r| && r[i].team == t;
      var k :| 0 <= k < |totals| && totals[k] == sorted[i];
      assert ids[k] == t;
    }
    forall t | t in (set k | 0 <= k < |ids| :: ids[k]) ensures t in RankedTeams(r) {
      var k :| 0 <= k < |ids| && ids[k] == t;
      var i :| 0 <= i < |sorted| && sorted[i] == totals[k];
      assert r[i].team == t;
    }
  }

  /** The rank entries name exactly the debate's teams. */
  lemma RanksFromScoresCoverTeams(scores: seq<Score>, teams: seq<DebateTeam>, n: int)
    ensures RankedTeams(RanksFromScores(scores, teams, n)) == TeamIds(teams)
  {
    RanksByTotalCoverTeams(scores, Ids(teams), n);
    var ids := Ids(teams);
    assert (set k | 0 <= k < |ids| :: ids[k]) == TeamIds(teams) by {
      forall t | t in TeamIds(teams) ensures t in set k | 0 <= k < |ids| :: ids[k] {
        var k :| 0 <= k < |teams| && teams[k].team == t;
        assert ids[k] == t;
      }
    }
  }

  /** Teams given once are ranked once. */
  lemma RanksByTotalDistinct(scores: seq<Score>, ids: seq<string>, n: int)
    requires Sorting.Distinct(ids)
    ensures var r := RanksByTotal(scores, ids, n); forall i, j :: 0 <= i < j < |r| ==> r[i].team != r[j].team
  {
    var totals := Totals(scores, ids);
    var sorted := SortedTotals(scores, ids);
    assert Sorting.Distinct(totals) by {
      forall i, j | 0 <= i < j < |totals| ensures totals[i] != totals[j] {
        assert totals[i].0 == ids[i] && totals[j].0 == ids[j];
      }
    }
    Sorting.PermutationKeepsDistinct(sorted, totals);
    forall k | 0 <= k < |sorted|
      ensures sorted[k].1 == TeamTotal(scores, sorted[k].0)
    {
      var m :| 0 <= m < |totals| && totals[m] == sorted[k];
    }
  }

  /** A team with a strictly higher total receives strictly more points. */
  lemma HigherTotalMorePoints(scores: seq<Score>, ids: seq<string>, n: int, i: int, j: int)
    requires 0 <= i < |ids| && 0 <= j < |ids|
    requires TeamTotal(scores, RanksByTotal(scores, ids, n)[i].team) > TeamTotal(scores, RanksByTotal(scores, ids, n)[j].team)
    ensures RanksByTotal(scores, ids, n)[i].points > RanksByTotal(scores, ids, n)[j].points
  {
    var sorted := SortedTotals(scores, ids);
    var totals := Totals(scores, ids);
    forall k | 0 <= k < |sorted|
      ensures sorted[k].1 == TeamTotal(scores, sorted[k].0)
    {
      var m :| 0 <= m < |totals| && totals[m] == sorted[k];
    }
  }

  /**
   * build_team_ranks_from_advancing: one entry per debate team, with one
   * point for an advancing team and none for an eliminated one.
   */
  function RanksFromAdvancing(advancing: seq<string>, teams: seq<DebateTeam>): (r: seq<TeamRank>)
    ensures |r| == |teams|
    ensures forall k :: 0 <= k < |r| ==> r[k].team == teams[k].team
    ensures forall k :: 0 <= k < |r| ==> (r[k].points == 1 <==> teams[k].team in advancing)
    ensures forall k :: 0 <= k < |r| ==> (r[k].points == 0 <==> teams[k].team !in advancing)
  {
    seq(|teams|, k requires 0 <= k < |teams| => TeamRank(teams[k].team, if teams[k].team in advancing then 1 else 0))
  }

  /** The teams that receive a point are exactly the debate's teams that were selected as advancing. */
  lemma AdvancingWinnersAreSelected(advancing: seq<string>, teams: seq<DebateTeam>)
    ensures (set k | 0 <= k < |RanksFromAdvancing(advancing, teams)| && RanksFromAdvancing(advancing, teams)[k].points == 1
              :: RanksFromAdvancing(advancing, teams)[k].team)
         == (set k | 0 <= k < |teams| :: teams[k].team) * (set a | a in advancing)
  {
    var r := RanksFromAdvancing(advancing, teams);
    var winners := set k | 0 <= k < |r| && r[k].points == 1 :: r[k].team;
    var both := (set k | 0 <= k < |teams| :: teams[k].team) * (set a | a in advancing);
    forall x | x in both ensures x in winners {
      var k :| 0 <= k < |teams| && teams[k].team == x;
      assert r[k].points == 1;
    }
  }

  // ------------------------------------------------- comparing two ballots

  /** One line of get_human_readable_description_for_problems; BallotEdit.Describe renders it as text. */
  datatype Problem =
    | PointsDiffer(team: string, mine: int, theirs: int)
    | SpeakerDiffers(side: int, seqNo: int, position: int, mySpeaker: string, theirSpeaker: string)
    | ScoreDiffers(side: int, seqNo: int, position: int, mySpeaker: string, theirSpeaker: string, mine: int, theirs: int)

  /** The first rank entry of a team, as .iter().find(). */
  function RankOf(ranks: seq<TeamRank>, team: string): (r: Option<TeamRank>)
    ensures r.Some? ==> r.value in ranks && r.value.team == team
    ensures r.None? <==> forall k :: 0 <= k < |ranks| ==> ranks[k].team != team
  {
    if ranks == [] then None
    else if ranks[0].team == team then Some(ranks[0])
    else
      var r := RankOf(ranks[1..], team);
      assert forall k :: 1 <= k < |ranks| ==> ranks[k] == ranks[1..][k - 1];
      r
  }

  /** For each of my rank entries whose team the other ballot ranks too, a problem if the points differ. */
  function PointProblems(mine: seq<TeamRank>, theirs: seq<TeamRank>): (ps: seq<Problem>)
    ensures forall p :: p in ps ==> p.PointsDiffer? && p.mine != p.theirs
  {
    if mine == [] then []
    else
      var here := match RankOf(theirs, mine[0].team)
        case Some(other) => if mine[0].points != other.points then [PointsDiffer(mine[0].team, mine[0].points, other.points)] else []
        case None => [];
      here + PointProblems(mine[1..], theirs)
  }

  /**
   * The points comparison misses nothing: every team of mine whose entry on
   * the other ballot has different points is reported, and nothing is
   * reported exactly when there is no such team.
   */
  lemma {:induction false} PointProblemsComplete(mine: seq<TeamRank>, theirs: seq<TeamRank>)
    ensures forall k :: (0 <= k < |mine| && RankOf(theirs, mine[k].team).Some? &&
                         RankOf(theirs, mine[k].team).value.points != mine[k].points) ==>
      PointsDiffer(mine[k].team, mine[k].points, RankOf(theirs, mine[k].team).value.points) in PointProblems(mine, theirs)
    ensures PointProblems(mine, theirs) == [] <==> forall k :: 0 <= k < |mine| && RankOf(theirs, mine[k].team).Some? ==>
      RankOf(theirs, mine[k].team).value.points == mine[k].points
  {
    if mine != [] {
      PointProblemsComplete(mine[1..], theirs);
      assert forall k :: 1 <= k < |mine| ==> mine[k] == mine[1..][k - 1];
    }
  }

  /** The first score entry of a team at a speaker position, as scores_of_team(..).find(). */
  function ScoreAt(scores: seq<Score>, team: string, position: int): (r: Option<Score>)
    ensures r.Some? ==> r.value in scores && r.value.team == team && r.value.position == position
    ensures r.None? <==> forall k :: 0 <= k < |scores| ==> !(scores[k].team == team && scores[k].position == position)
  {
    if scores == [] then None
    else if scores[0].team == team && scores[0].position == position then Some(scores[0])
    else
      var r := ScoreAt(scores[1..], team, position);
      assert forall k :: 1 <= k < |scores| ==> scores[k] == scores[1..][k - 1];
      r
  }

  const UnwrapNone := "called `Option::unwrap()` on a `None` value"

  /**
   * The comparison at one (side, seq, position) slot: the team there must
   * exist and both ballots must have a score entry for it, else an unwrap
   * panics; a different speaker, and a different score when both are
   * present, are each a problem.
   */
  function SlotProblems(mine: seq<Score>, theirs: seq<Score>, teams: seq<DebateTeam>, side: int, seqNo: int, position: int)
    : (r: Result<seq<Problem>, string>)
  {
    match TeamAt(teams, side, seqNo)
    case None => Err(UnwrapNone)
    case Some(team) =>
      match (ScoreAt(mine, team, position), ScoreAt(theirs, team, position))
      case (Some(a), Some(b)) =>
        var speaker := if a.speaker != b.speaker then [SpeakerDiffers(side, seqNo, position, a.speaker, b.speaker)] else [];
        var score := if a.score.Some? && b.score.Some? && a.score.value != b.score.value
          then [ScoreDiffers(side, seqNo, position, a.speaker, b.speaker, a.score.value, b.score.value)] else [];
        Ok(speaker + score)
      case _ => Err(UnwrapNone)
  }

  /** Appends the problems of a later part of the loop, the first panic winning. */
  function Then(first: Result<seq<Problem>, string>, rest: Result<seq<Problem>, string>): Result<seq<Problem>, string>
  {
    if first.Err? then first else if rest.Err? then rest else Ok(first.value + rest.value)
  }

  /** The innermost loop: positions position..speakers - 1 of one team. */
  function PositionsProblems(mine: seq<Score>, theirs: seq<Score>, teams: seq<DebateTeam>, side: int, seqNo: int, position: int, speakers: int)
    : Result<seq<Problem>, string>
    decreases speakers - position
  {
    if position >= speakers then Ok([])
    else Then(SlotProblems(mine, theirs, teams, side, seqNo, position),
              PositionsProblems(mine, theirs, teams, side, seqNo, position + 1, speakers))
  }

  /** The middle loop: teams seqNo..teamsPerSide - 1 of one side. */
  function TeamsProblems(mine: seq<Score>, theirs: seq<Score>, teams: seq<DebateTeam>, side: int, seqNo: int, teamsPerSide: int, speakers: int)
    : Result<seq<Problem>, string>
    decreases teamsPerSide - seqNo
  {
    if seqNo >= teamsPerSide then Ok([])
    else Then(PositionsProblems(mine, theirs, teams, side, seqNo, 0, speakers),
              TeamsProblems(mine, theirs, teams, side, seqNo + 1, teamsPerSide, speakers))
  }

  /** The outer loop over sides 0 and 1, run only when both ballots carry scores. */
  function SpeakerProblems(mine: seq<Score>, theirs: seq<Score>, teams: seq<DebateTeam>, teamsPerSide: int, speakers: int)
    : Result<seq<Problem>, string>
  {
    if mine == [] || theirs == [] then Ok([])
    else Then(TeamsProblems(mine, theirs, teams, 0, 0, teamsPerSide, speakers),
              TeamsProblems(mine, theirs, teams, 1, 0, teamsPerSide, speakers))
  }

  /**
   * get_human_readable_description_for_problems: the point disagreements
   * first, then the speaker and score disagreements slot by slot.
   */
  function Problems(mine: Ballot, theirs: Ballot, teams: seq<DebateTeam>, teamsPerSide: int, speakers: int)
    : (r: Result<seq<Problem>, string>)
    ensures (mine.scores == [] || theirs.scores == []) ==> r == Ok(PointProblems(mine.ranks, theirs.ranks))
  {
    assert PointProblems(mine.ranks, theirs.ranks) + [] == PointProblems(mine.ranks, theirs.ranks);
    Then(Ok(PointProblems(mine.ranks, theirs.ranks)), SpeakerProblems(mine.scores, theirs.scores, teams, teamsPerSide, speakers))
  }

  /** A slot compared inside the innermost loop has its problems among the loop's. */
  lemma {:induction false} PositionsReportSlot(mine: seq<Score>, theirs: seq<Score>, teams: seq<DebateTeam>, side: int, seqNo: int,
                                               position: int, speakers: int, p: int)
    requires position <= p < speakers
    requires PositionsProblems(mine, theirs, teams, side, seqNo, position, speakers).Ok?
    ensures SlotProblems(mine, theirs, teams, side, seqNo, p).Ok?
    ensures forall x :: x in SlotProblems(mine, theirs, teams, side, seqNo, p).value ==>
      x in PositionsProblems(mine, theirs, teams, side, seqNo, position, speakers).value
    decreases speakers - position
  {
    var here := SlotProblems(mine, theirs, teams, side, seqNo, position);
    var rest := PositionsProblems(mine, theirs, teams, side, seqNo, position + 1, speakers);
    assert PositionsProblems(mine, theirs, teams, side, seqNo, position, speakers) == Then(here, rest);
    if position < p {
      PositionsReportSlot(mine, theirs, teams, side, seqNo, position + 1, speakers, p);
    }
  }

  /** A slot of a team compared inside the middle loop has its problems among the loop's. */
  lemma {:induction false} TeamsReportSlot(mine: seq<Score>, theirs: seq<Score>, teams: seq<DebateTeam>, side: int, seqNo: int,
                                           teamsPerSide: int, speakers: int, t: int, p: int)
    requires seqNo <= t < teamsPerSide && 0 <= p < speakers
    requires TeamsProblems(mine, theirs, teams, side, seqNo, teamsPerSide, speakers).Ok?
    ensures SlotProblems(mine, theirs, teams, side, t, p).Ok?
    ensures forall x :: x in SlotProblems(mine, theirs, teams, side, t, p).value ==>
      x in TeamsProblems(mine, theirs, teams, side, seqNo, teamsPerSide, speakers).value
    decreases teamsPerSide - seqNo
  {
    var here := PositionsProblems(mine, theirs, teams, side, seqNo, 0, speakers);
    var rest := TeamsProblems(mine, theirs, teams, side, seqNo + 1, teamsPerSide, speakers);
    assert TeamsProblems(mine, theirs, teams, side, seqNo, teamsPerSide, speakers) == Then(here, rest);
    if seqNo < t {
      TeamsReportSlot(mine, theirs, teams, side, seqNo + 1, teamsPerSide, speakers, t, p);
    } else {
      PositionsReportSlot(mine, theirs, teams, side, t, 0, speakers, p);
    }
  }

  /**
   * Every disagreement is reported: when the comparison does not panic, a
   * team the two ballots give different points is reported.
   */
  lemma PointDisagreementReported(mine: Ballot, theirs: Ballot, teams: seq<DebateTeam>, teamsPerSide: int, speakers: int, k: int)
    requires Problems(mine, theirs, teams, teamsPerSide, speakers).Ok?
    requires 0 <= k < |mine.ranks| && RankOf(theirs.ranks, mine.ranks[k].team).Some?
    requires RankOf(theirs.ranks, mine.ranks[k].team).value.points != mine.ranks[k].points
    ensures PointsDiffer(mine.ranks[k].team, mine.ranks[k].points, RankOf(theirs.ranks, mine.ranks[k].team).value.points)
      in Problems(mine, theirs, teams, teamsPerSide, speakers).value
  {
    PointProblemsComplete(mine.ranks, theirs.ranks);
  }

  /**
   * When both ballots carry scores and the comparison does not panic, every
   * slot of side 0 or 1, team seqNo and speaker position has a seated team
   * and a score entry on both ballots, and a different speaker or a
   * different score there is reported.
   */
  lemma SlotDisagreementReported(mine: Ballot, theirs: Ballot, teams: seq<DebateTeam>, teamsPerSide: int, speakers: int,
                                 side: int, seqNo: int, position: int)
    requires Problems(mine, theirs, teams, teamsPerSide, speakers).Ok?
    requires mine.scores != [] && theirs.scores != []
    requires (side == 0 || side == 1) && 0 <= seqNo < teamsPerSide && 0 <= position < speakers
    ensures TeamAt(teams, side, seqNo).Some?
    ensures var t := TeamAt(teams, side, seqNo).value;
      ScoreAt(mine.scores, t, position).Some? && ScoreAt(theirs.scores, t, position).Some?
    ensures var t := TeamAt(teams, side, seqNo).value;
      var a := ScoreAt(mine.scores, t, position).value;
      var b := ScoreAt(theirs.scores, t, position).value;
      var ps := Problems(mine, theirs, teams, teamsPerSide, speakers).value;
      (a.speaker != b.speaker ==> SpeakerDiffers(side, seqNo, position, a.speaker, b.speaker) in ps) &&
      (a.score.Some? && b.score.Some? && a.score.value != b.score.value ==>
        ScoreDiffers(side, seqNo, position, a.speaker, b.speaker, a.score.value, b.score.value) in ps)
  {
    var ps := Problems(mine, theirs, teams, teamsPerSide, speakers).value;
    var sp := SpeakerProblems(mine.scores, theirs.scores, teams, teamsPerSide, speakers);
    assert sp.Ok? && forall x :: x in sp.value ==> x in ps;
    var side0 := TeamsProblems(mine.scores, theirs.scores, teams, 0, 0, teamsPerSide, speakers);
    var side1 := TeamsProblems(mine.scores, theirs.scores, teams, 1, 0, teamsPerSide, speakers);
    assert sp == Then(side0, side1);
    var here := TeamsProblems(mine.scores, theirs.scores, teams, side, 0, teamsPerSide, speakers);
    assert here.Ok? && forall x :: x in here.value ==> x in sp.value;
    TeamsReportSlot(mine.scores, theirs.scores, teams, side, 0, teamsPerSide, speakers, seqNo, position);
    SlotReports(mine.scores, theirs.scores, teams, side, seqNo, position);
  }

  /** A slot that does not panic has a seated team, a score on both ballots, and reports how they differ. */
  lemma SlotReports(mine: seq<Score>, theirs: seq<Score>, teams: seq<DebateTeam>, side: int, seqNo: int, position: int)
    requires SlotProblems(mine, theirs, teams, side, seqNo, position).Ok?
    ensures TeamAt(teams, side, seqNo).Some?
    ensures var t := TeamAt(teams, side, seqNo).value;
      ScoreAt(mine, t, position).Some? && ScoreAt(theirs, t, position).Some?
    ensures var t := TeamAt(teams, side, seqNo).value;
      var a := ScoreAt(mine, t, position).value;
      var b := ScoreAt(theirs, t, position).value;
      var ps := SlotProblems(mine, theirs, teams, side, seqNo, position).value;
      (a.speaker != b.speaker ==> SpeakerDiffers(side, seqNo, position, a.speaker, b.speaker) in ps) &&
      (a.score.Some? && b.score.Some? && a.score.value != b.score.value ==>
        ScoreDiffers(side, seqNo, position, a.speaker, b.speaker, a.score.value, b.score.value) in ps)
  {
  }

  /** is_isomorphic: no problem is found (and the comparison does not panic). */
  predicate IsIsomorphic(mine: Ballot, theirs: Ballot, teams: seq<DebateTeam>, teamsPerSide: int, speakers: int)
  {
    Problems(mine, theirs, teams, teamsPerSide, speakers) == Ok([])
  }

  /** Team ids are unique among the rank entries of a ballot. */
  predicate UniqueRankTeams(ranks: seq<TeamRank>)
  {
    forall i, j :: 0 <= i < j < |ranks| ==> ranks[i].team != ranks[j].team
  }

  lemma {:induction false} NoPointProblemsWithSelf(tail: seq<TeamRank>, all: seq<TeamRank>)
    requires UniqueRankTeams(all)
    requires forall k :: 0 <= k < |tail| ==> tail[k] in all
    ensures PointProblems(tail, all) == []
  {
    if tail != [] {
      var x := tail[0];
      assert x in all;
      var r := RankOf(all, x.team);
      assert r.Some?;
      assert r.value == x;
      NoPointProblemsWithSelf(tail[1..], all);
    }
  }

  lemma {:induction false} NoPositionProblemsWithSelf(s: seq<Score>, teams: seq<DebateTeam>, side: int, seqNo: int, position: int, speakers: int)
    ensures PositionsProblems(s, s, teams, side, seqNo, position, speakers).Err? ||
            PositionsProblems(s, s, teams, side, seqNo, position, speakers) == Ok([])
    decreases speakers - position
  {
    if position < speakers {
      NoSlotProblemsWithSelf(s, teams, side, seqNo, position);
      NoPositionProblemsWithSelf(s, teams, side, seqNo, position + 1, speakers);
      ThenEmpty(SlotProblems(s, s, teams, side, seqNo, position), PositionsProblems(s, s, teams, side, seqNo, position + 1, speakers));
    }
  }

  lemma NoSlotProblemsWithSelf(s: seq<Score>, teams: seq<DebateTeam>, side: int, seqNo: int, position: int)
    ensures SlotProblems(s, s, teams, side, seqNo, position).Err? || SlotProblems(s, s, teams, side, seqNo, position) == Ok([])
  {
    var team := TeamAt(teams, side, seqNo);
    if team.Some? {
      var a := ScoreAt(s, team.value, position);
      if a.Some? {
        var r := SlotProblems(s, s, teams, side, seqNo, position);
        assert r.Ok? && |r.value| == 0;
      }
    }
  }

  lemma {:induction false} NoTeamProblemsWithSelf(s: seq<Score>, teams: seq<DebateTeam>, side: int, seqNo: int, teamsPerSide: int, speakers: int)
    ensures TeamsProblems(s, s, teams, side, seqNo, teamsPerSide, speakers).Err? ||
            TeamsProblems(s, s, teams, side, seqNo, teamsPerSide, speakers) == Ok([])
    decreases teamsPerSide - seqNo
  {
    if seqNo < teamsPerSide {
      NoPositionProblemsWithSelf(s, teams, side, seqNo, 0, speakers);
      NoTeamProblemsWithSelf(s, teams, side, seqNo + 1, teamsPerSide, speakers);
      ThenEmpty(PositionsProblems(s, s, teams, side, seqNo, 0, speakers), TeamsProblems(s, s, teams, side, seqNo + 1, teamsPerSide, speakers));
    }
  }

  /** A ballot whose rank entries name each team once agrees with itself wherever the comparison does not panic. */
  lemma IsomorphicToItself(b: Ballot, teams: seq<DebateTeam>, teamsPerSide: int, speakers: int)
    requires UniqueRankTeams(b.ranks)
    ensures Problems(b, b, teams, teamsPerSide, speakers).Err? || IsIsomorphic(b, b, teams, teamsPerSide, speakers)
  {
    NoPointProblemsWithSelf(b.ranks, b.ranks);
    NoTeamProblemsWithSelf(b.scores, teams, 0, 0, teamsPerSide, speakers);
    NoTeamProblemsWithSelf(b.scores, teams, 1, 0, teamsPerSide, speakers);
    var t0 := TeamsProblems(b.scores, b.scores, teams, 0, 0, teamsPerSide, speakers);
    var t1 := TeamsProblems(b.scores, b.scores, teams, 1, 0, teamsPerSide, speakers);
    ThenEmpty(t0, t1);
    var sp := SpeakerProblems(b.scores, b.scores, teams, teamsPerSide, speakers);
    assert sp.Err? || sp == Ok([]);
    ThenEmpty(Ok([]), sp);
    assert Problems(b, b, teams, teamsPerSide, speakers) == Then(Ok([]), sp);
  }

  // ---------------------------------------------------- sets of ballots

  /** The problems of one ballot against every ballot of the set with another id. */
  function AgainstOthers(x: Ballot, others: seq<Ballot>, teams: seq<DebateTeam>, teamsPerSide: int, speakers: int)
    : Result<seq<Problem>, string>
  {
    if others == [] then Ok([])
    else if x.meta.id == others[0].meta.id then AgainstOthers(x, others[1..], teams, teamsPerSide, speakers)
    else Then(Problems(x, others[0], teams, teamsPerSide, speakers), AgainstOthers(x, others[1..], teams, teamsPerSide, speakers))
  }

  /** The outer loop of problems_of_set over the ballots xs, each compared with all of them. */
  function PairsProblems(xs: seq<Ballot>, all: seq<Ballot>, teams: seq<DebateTeam>, teamsPerSide: int, speakers: int)
    : Result<seq<Problem>, string>
  {
    if xs == [] then Ok([])
    else Then(AgainstOthers(xs[0], all, teams, teamsPerSide, speakers), PairsProblems(xs[1..], all, teams, teamsPerSide, speakers))
  }

  /** problems_of_set: every ordered pair of ballots with distinct ids; a ballot of another debate fails the assertion. */
  function ProblemsOfSet(ballots: seq<Ballot>, debate: string, teams: seq<DebateTeam>, teamsPerSide: int, speakers: int)
    : (r: Result<seq<Problem>, string>)
    ensures (exists k :: 0 <= k < |ballots| && ballots[k].meta.debate != debate) ==> r == Err("All ballots must be from the same debate")
  {
    if exists k :: 0 <= k < |ballots| && ballots[k].meta.debate != debate then Err("All ballots must be from the same debate")
    else PairsProblems(ballots, ballots, teams, teamsPerSide, speakers)
  }

  lemma ThenEmpty(a: Result<seq<Problem>, string>, b: Result<seq<Problem>, string>)
    ensures Then(a, b) == Ok([]) <==> a == Ok([]) && b == Ok([])
  {
    if a.Ok? && b.Ok? && Then(a, b) == Ok([]) {
      assert |a.value + b.value| == 0;
    }
  }

  lemma {:induction false} AgainstOthersEmpty(x: Ballot, others: seq<Ballot>, teams: seq<DebateTeam>, teamsPerSide: int, speakers: int)
    ensures AgainstOthers(x, others, teams, teamsPerSide, speakers) == Ok([]) <==>
      forall j :: 0 <= j < |others| && others[j].meta.id != x.meta.id ==> IsIsomorphic(x, others[j], teams, teamsPerSide, speakers)
  {
    if others != [] {
      AgainstOthersEmpty(x, others[1..], teams, teamsPerSide, speakers);
      assert forall j :: 1 <= j < |others| ==> others[j] == others[1..][j - 1];
      if x.meta.id != others[0].meta.id {
        ThenEmpty(Problems(x, others[0], teams, teamsPerSide, speakers), AgainstOthers(x, others[1..], teams, teamsPerSide, speakers));
      }
    }
  }

  lemma {:induction false} PairsProblemsEmpty(xs: seq<Ballot>, all: seq<Ballot>, teams: seq<DebateTeam>, teamsPerSide: int, speakers: int)
    ensures PairsProblems(xs, all, teams, teamsPerSide, speakers) == Ok([]) <==>
      forall i, j :: 0 <= i < |xs| && 0 <= j < |all| && all[j].meta.id != xs[i].meta.id ==>
        IsIsomorphic(xs[i], all[j], teams, teamsPerSide, speakers)
  {
    if xs != [] {
      PairsProblemsEmpty(xs[1..], all, teams, teamsPerSide, speakers);
      AgainstOthersEmpty(xs[0], all, teams, teamsPerSide, speakers);
      ThenEmpty(AgainstOthers(xs[0], all, teams, teamsPerSide, speakers), PairsProblems(xs[1..], all, teams, teamsPerSide, speakers));
      assert forall i :: 1 <= i < |xs| ==> xs[i] == xs[1..][i - 1];
    }
  }

  /** A set of ballots of one debate has no problems exactly when every two ballots with distinct ids are isomorphic. */
  lemma ProblemsOfSetEmptyIffPairwiseIsomorphic(ballots: seq<Ballot>, debate: string, teams: seq<DebateTeam>, teamsPerSide: int, speakers: int)
    requires forall k :: 0 <= k < |ballots| ==> ballots[k].meta.debate == debate
    ensures ProblemsOfSet(ballots, debate, teams, teamsPerSide, speakers) == Ok([]) <==>
      forall i, j :: 0 <= i < |ballots| && 0 <= j < |ballots| && ballots[i].meta.id != ballots[j].meta.id ==>
        IsIsomorphic(ballots[i], ballots[j], teams, teamsPerSide, speakers)
  {
    PairsProblemsEmpty(ballots, ballots, teams, teamsPerSide, speakers);
  }

  // --------------------------------------------------------- debate status

  /** The judges of the debate whose role is not trainee. */
  function NonTrainees(judges: seq<Draws.Alloc>): (r: seq<Draws.Alloc>)
    ensures forall a :: a in r <==> a in judges && a.role != Draws.Trainee
  {
    if judges == [] then []
    else
      var last := judges[|judges| - 1];
      NonTrainees(judges[..|judges| - 1]) + (if last.role != Draws.Trainee then [last] else [])
  }

  predicate HasBallot(ballots: seq<Ballot>, judge: string)
  {
    exists b :: b in ballots && b.meta.judge == judge
  }

  /**
   * update_debate_status: confirmed when every non-trainee judge (and at
   * least one) has a ballot and the set has no problems, conflict when they
   * all have one but there are problems, draft otherwise; a panic of
   * problems_of_set is passed on.
   */
  function DebateStatusOf(latest: seq<Ballot>, debate: string, judges: seq<Draws.Alloc>, teams: seq<DebateTeam>, teamsPerSide: int, speakers: int)
    : (r: Result<DebateStatus, string>)
    ensures r == Ok(Draft) <==>
      (NonTrainees(judges) == [] || exists a :: a in judges && a.role != Draws.Trainee && !HasBallot(latest, a.judge))
    ensures r == Ok(Confirmed) <==>
      (NonTrainees(judges) != [] && (forall a :: a in judges && a.role != Draws.Trainee ==> HasBallot(latest, a.judge)) &&
       ProblemsOfSet(latest, debate, teams, teamsPerSide, speakers) == Ok([]))
    ensures r == Ok(Conflict) <==>
      (NonTrainees(judges) != [] && (forall a :: a in judges && a.role != Draws.Trainee ==> HasBallot(latest, a.judge)) &&
       ProblemsOfSet(latest, debate, teams, teamsPerSide, speakers).Ok? &&
       ProblemsOfSet(latest, debate, teams, teamsPerSide, speakers).value != [])
  {
    var nonTrainees := NonTrainees(judges);
    var allSubmitted := forall a :: a in nonTrainees ==> HasBallot(latest, a.judge);
    if allSubmitted && nonTrainees != [] then
      match ProblemsOfSet(latest, debate, teams, teamsPerSide, speakers)
      case Err(e) => Err(e)
      case Ok(ps) => if ps == [] then Ok(Confirmed) else Ok(Conflict)
    else Ok(Draft)
  }

  /** Once a debate is confirmed, it stays confirmed when a trainee's allocation is added. */
  lemma TraineesDoNotBlockConfirmation(latest: seq<Ballot>, debate: string, judges: seq<Draws.Alloc>, trainee: Draws.Alloc,
                                      teams: seq<DebateTeam>, teamsPerSide: int, speakers: int)
    requires trainee.role == Draws.Trainee
    requires DebateStatusOf(latest, debate, judges, teams, teamsPerSide, speakers) == Ok(Confirmed)
    ensures DebateStatusOf(latest, debate, judges + [trainee], teams, teamsPerSide, speakers) == Ok(Confirmed)
  {
    var a := NonTrainees(judges)[0];
    assert a in NonTrainees(judges + [trainee]);
  }

  // ------------------------------------------------------------ the ledger

  /**
   * The ballot tables (tournament_ballots with its score and rank entries)
   * and the status column of tournament_debates. Ballot rows are only ever
   * appended.
   */
  class BallotLedger {
    var ballots: seq<Ballot>
    var statuses: map<string, DebateStatus>

    constructor (ballots: seq<Ballot>, statuses: map<string, DebateStatus>)
      ensures this.ballots == ballots && this.statuses == statuses
    {
      this.ballots := ballots;
      this.statuses := statuses;
    }
  }
}
