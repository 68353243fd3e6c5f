/**
 * aggregate_ballot_set (src/tournaments/rounds/ballots/aggregate.rs): the
 * ballots of a debate become its official results, one speaker result per
 * score row of the first ballot and one team result per team, with points
 * by descending team total.
 */
module Aggregate {
  import opened Wrappers
  import Sorting
  import Ballots

  datatype AggregationMethod = Consensus | Individual

  datatype SpeakerResult = SpeakerResult(debate: string, speaker: string, team: string, position: int, score: Option<int>)

  datatype TeamResult = TeamResult(debate: string, team: string, points: int)

  const EmptySet := "assertion failed: !ballots.is_empty()"
  const NotIsomorphic := "assertion failed: a.is_isomorphic(b)"
  const Unimplemented := "not yet implemented"

  /** The tables of results. */
  class ResultsDb {
    var speakerResults: seq<SpeakerResult>
    var teamResults: seq<TeamResult>

    constructor ()
      ensures speakerResults == [] && teamResults == []
    {
      speakerResults := [];
      teamResults := [];
    }
  }

  /** The team ids of the rank entries without repeats, in order of first appearance (Itertools::unique). */
  function UniqueTeams(ranks: seq<Ballots.TeamRank>): (r: seq<string>)
    ensures forall t :: t in r <==> exists k :: 0 <= k < |ranks| && ranks[k].team == t
    ensures Sorting.Distinct(r)
    ensures |r| <= |ranks|
  {
    if ranks == [] then []
    else
      var init := ranks[..|ranks| - 1];
      var last := ranks[|ranks| - 1].team;
      var u := UniqueTeams(init);
      assert forall k :: 0 <= k < |init| ==> init[k] == ranks[k];
      if last in u then u else u + [last]
  }

  /** Every ordered pair of ballots, a ballot with itself included, is isomorphic. */
  predicate Consensual(ballots: seq<Ballots.Ballot>, teams: seq<Ballots.DebateTeam>, teamsPerSide: int, speakers: int)
  {
    forall i, j :: 0 <= i < |ballots| && 0 <= j < |ballots| ==> Ballots.IsIsomorphic(ballots[i], ballots[j], teams, teamsPerSide, speakers)
  }

  /** The speaker results: one per score row of the canonical ballot, carrying it over unchanged. */
  function SpeakerResults(canonical: Ballots.Ballot): (r: seq<SpeakerResult>)
    ensures |r| == |canonical.scores|
    ensures forall k :: 0 <= k < |r| ==>
      var s := canonical.scores[k];
      r[k] == SpeakerResult(canonical.meta.debate, s.speaker, s.team, s.position, s.score)
  {
    seq(|canonical.scores|, k requires 0 <= k < |canonical.scores| =>
      var s := canonical.scores[k];
      SpeakerResult(canonical.meta.debate, s.speaker, s.team, s.position, s.score))
  }

  /**
   * The team results: the canonical ballot's teams sorted by descending
   * total, the team at index i receiving team_count - 1 - i points.
   */
  function TeamResults(canonical: Ballots.Ballot): (r: seq<TeamResult>)
    ensures |r| == |UniqueTeams(canonical.ranks)|
  {
    var ids := UniqueTeams(canonical.ranks);
    var ranks := Ballots.RanksByTotal(canonical.scores, ids, |ids|);
    seq(|ranks|, i requires 0 <= i < |ranks| => TeamResult(canonical.meta.debate, ranks[i].team, ranks[i].points))
  }

  /** The consensus outcome of a set of ballots, or the message of the assertion it fails. */
  function Outcome(ballots: seq<Ballots.Ballot>, how: AggregationMethod, teams: seq<Ballots.DebateTeam>, teamsPerSide: int, speakers: int)
    : (r: Result<(seq<SpeakerResult>, seq<TeamResult>), string>)
    ensures ballots == [] ==> r == Err(EmptySet)
    ensures ballots != [] && how.Individual? ==> r == Err(Unimplemented)
    ensures r.Ok? <==> ballots != [] && how.Consensus? && Consensual(ballots, teams, teamsPerSide, speakers)
    ensures r.Ok? ==> r.value == (SpeakerResults(ballots[0]), TeamResults(ballots[0]))
  {
    if ballots == [] then Err(EmptySet)
    else if how.Individual? then Err(Unimplemented)
    else if !Consensual(ballots, teams, teamsPerSide, speakers) then Err(NotIsomorphic)
    else Ok((SpeakerResults(ballots[0]), TeamResults(ballots[0])))
  }

  /** The team points are 0 .. team_count - 1, each given once, strictly falling down the list. */
  lemma TeamPointsArePermutation(canonical: Ballots.Ballot)
    ensures var r := TeamResults(canonical);
      (forall i :: 0 <= i < |r| ==> 0 <= r[i].points < |r|) &&
      (forall p :: 0 <= p < |r| ==> p in Points(r)) &&
      (forall i, j :: 0 <= i < j < |r| ==> r[i].points > r[j].points)
  {
    var r := TeamResults(canonical);
    forall p | 0 <= p < |r| ensures p in Points(r) {
      assert r[|r| - 1 - p].points == p;
    }
  }

  /** The points of a list of team results, in order. */
  function Points(r: seq<TeamResult>): (ps: seq<int>)
    ensures |ps| == |r| && forall i :: 0 <= i < |r| ==> ps[i] == r[i].points
  {
    seq(|r|, i requires 0 <= i < |r| => r[i].points)
  }

  /** The teams named by a list of team results. */
  function ResultTeams(r: seq<TeamResult>): (ts: set<string>)
    ensures forall t :: t in ts <==> exists i :: 0 <= i < |r| && r[i].team == t
  {
    set i | 0 <= i < |r| :: r[i].team
  }

  /** Each team of the canonical ballot receives a result, and no other team does. */
  lemma EveryTeamHasResult(canonical: Ballots.Ballot)
    ensures ResultTeams(TeamResults(canonical)) == Ballots.RankedTeams(canonical.ranks)
  {
    var ids := UniqueTeams(canonical.ranks);
    Ballots.RanksByTotalCoverTeams(canonical.scores, ids, |ids|);
    var ranks := Ballots.RanksByTotal(canonical.scores, ids, |ids|);
    var r := TeamResults(canonical);
    forall t | t in ResultTeams(r) ensures t in Ballots.RankedTeams(canonical.ranks) {
      var i :| 0 <= i < |r| && r[i].team == t;
      assert ranks[i].team == t;
      assert t in Ballots.RankedTeams(ranks);
      var k :| 0 <= k < |ids| && ids[k] == t;
      assert t in ids;
    }
    forall t | t in Ballots.RankedTeams(canonical.ranks) ensures t in ResultTeams(r) {
      assert t in ids;
      var k :| 0 <= k < |ids| && ids[k] == t;
      assert t in Ballots.RankedTeams(ranks);
      var i :| 0 <= i < |ranks| && ranks[i].team == t;
      assert r[i].team == t;
    }
  }

  /** No team receives two results. */
  lemma NoTeamTwice(canonical: Ballots.Ballot)
    ensures var r := TeamResults(canonical); forall i, j :: 0 <= i < j < |r| ==> r[i].team != r[j].team
  {
    var ids := UniqueTeams(canonical.ranks);
    Ballots.RanksByTotalDistinct(canonical.scores, ids, |ids|);
  }

  /** A team with a strictly higher total in the canonical ballot receives strictly more points. */
  lemma HigherTotalMorePoints(canonical: Ballots.Ballot, i: int, j: int)
    requires 0 <= i < |TeamResults(canonical)| && 0 <= j < |TeamResults(canonical)|
    requires Ballots.TeamTotal(canonical.scores, TeamResults(canonical)[i].team) > Ballots.TeamTotal(canonical.scores, TeamResults(canonical)[j].team)
    ensures TeamResults(canonical)[i].points > TeamResults(canonical)[j].points
  {
    var ids := UniqueTeams(canonical.ranks);
    Ballots.HigherTotalMorePoints(canonical.scores, ids, |ids|, i, j);
  }

  /** Every ballot is isomorphic to the ballot at index i. */
  predicate AgreesWithAll(ballots: seq<Ballots.Ballot>, i: int, teams: seq<Ballots.DebateTeam>, teamsPerSide: int, speakers: int)
    requires 0 <= i < |ballots|
  {
    forall b :: 0 <= b < |ballots| ==> Ballots.IsIsomorphic(ballots[i], ballots[b], teams, teamsPerSide, speakers)
  }

  /** The inner assertion loop: the ballot at index i against every ballot. */
  method CheckAgainstAll(ballots: seq<Ballots.Ballot>, i: int, teams: seq<Ballots.DebateTeam>, teamsPerSide: int, speakers: int)
    returns (ok: bool)
    requires 0 <= i < |ballots|
    ensures ok <==> AgreesWithAll(ballots, i, teams, teamsPerSide, speakers)
  {
    for j := 0 to |ballots|
      invariant forall b :: 0 <= b < j ==> Ballots.IsIsomorphic(ballots[i], ballots[b], teams, teamsPerSide, speakers)
    {
      if !Ballots.IsIsomorphic(ballots[i], ballots[j], teams, teamsPerSide, speakers) {
        assert !AgreesWithAll(ballots, i, teams, teamsPerSide, speakers);
        return false;
      }
    }
    assert AgreesWithAll(ballots, i, teams, teamsPerSide, speakers);
    return true;
  }

  /** The nested assertion loops of the consensus check. */
  method CheckConsensus(ballots: seq<Ballots.Ballot>, teams: seq<Ballots.DebateTeam>, teamsPerSide: int, speakers: int)
    returns (ok: bool)
    ensures ok <==> Consensual(ballots, teams, teamsPerSide, speakers)
  {
    for i := 0 to |ballots|
      invariant forall a :: 0 <= a < i ==> AgreesWithAll(ballots, a, teams, teamsPerSide, speakers)
    {
      var agrees := CheckAgainstAll(ballots, i, teams, teamsPerSide, speakers);
      if !agrees {
        var b :| 0 <= b < |ballots| && !Ballots.IsIsomorphic(ballots[i], ballots[b], teams, teamsPerSide, speakers);
        return false;
      }
    }
    forall a, b | 0 <= a < |ballots| && 0 <= b < |ballots|
      ensures Ballots.IsIsomorphic(ballots[a], ballots[b], teams, teamsPerSide, speakers)
    {
      assert AgreesWithAll(ballots, a, teams, teamsPerSide, speakers);
    }
    return true;
  }

  /** The loop pushing one speaker result per score row of the canonical ballot. */
  method CollectSpeakerResults(canonical: Ballots.Ballot) returns (points: seq<SpeakerResult>)
    ensures points == SpeakerResults(canonical)
  {
    points := [];
    for k := 0 to |canonical.scores|
      invariant points == SpeakerResults(canonical)[..k]
    {
      var s := canonical.scores[k];
      points := points + [SpeakerResult(canonical.meta.debate, s.speaker, s.team, s.position, s.score)];
    }
  }

  /**
   * aggregate_ballot_set: a failed assertion inserts nothing; otherwise the
   * team results and then the speaker results are inserted.
   */
  method AggregateBallotSet(db: ResultsDb, ballots: seq<Ballots.Ballot>, how: AggregationMethod,
                            teams: seq<Ballots.DebateTeam>, teamsPerSide: int, speakers: int)
    returns (r: Result<(), string>)
    modifies db
    ensures var out := Outcome(ballots, how, teams, teamsPerSide, speakers);
      (out.Err? ==> r == Err(out.error) && db.speakerResults == old(db.speakerResults) && db.teamResults == old(db.teamResults)) &&
      (out.Ok? ==> r == Ok(()) && db.speakerResults == old(db.speakerResults) + out.value.0 &&
                   db.teamResults == old(db.teamResults) + out.value.1)
  {
    if ballots == [] {
      return Err(EmptySet);
    }
    if how.Individual? {
      return Err(Unimplemented);
    }
    var ok := CheckConsensus(ballots, teams, teamsPerSide, speakers);
    if !ok {
      return Err(NotIsomorphic);
    }
    var canonical := ballots[0];
    var speakerPoints := CollectSpeakerResults(canonical);
    var teamPoints := TeamResults(canonical);
    db.teamResults := db.teamResults + teamPoints;
    db.speakerResults := db.speakerResults + speakerPoints;
    r := Ok(());
  }
}
