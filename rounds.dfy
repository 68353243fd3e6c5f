/**
 * Rounds of a tournament (src/tournaments/rounds/mod.rs): the round record,
 * the check that preliminary rounds come before elimination rounds, the
 * split into preliminary and elimination rounds, their statuses, the
 * grouping of rounds by seq, the current rounds and the search for a
 * preceding round.
 */
module Rounds {
  import opened Wrappers
  import Sorting

  /** A row of the rounds table of one tournament; timestamps are plain numbers. */
  datatype Round = Round(
    id: string,
    seqNo: int,
    name: string,
    kind: string,              // "P" (preliminary) or "E" (elimination)
    breakCat: Option<string>,
    completed: bool,
    drawStatus: string,
    drawReleasedAt: Option<int>,
    resultsPublishedAt: Option<int>)

  /** Round::is_elim is not part of this model; a round of kind "E" is an elimination round. */
  predicate IsElim(r: Round)
  {
    r.kind == "E"
  }

  predicate IsPrelim(r: Round)
  {
    r.kind == "P"
  }

  /** Ascending order on seq, the ORDER BY seq of the rounds queries. */
  function BySeq(): (le: (Round, Round) -> bool)
  {
    (a: Round, b: Round) => a.seqNo <= b.seqNo
  }

  lemma BySeqIsTotalPreorder()
    ensures Sorting.IsTotalPreorder(BySeq())
  {
  }

  function OrderedBySeq(table: seq<Round>): (r: seq<Round>)
    ensures multiset(r) == multiset(table)
    ensures forall i, j :: 0 <= i < j < |r| ==> r[i].seqNo <= r[j].seqNo
  {
    BySeqIsTotalPreorder();
    var r := Sorting.Sort(table, BySeq());
    assert Sorting.SortedBy(r, BySeq());
    r
  }

  // ---------------------------------------------------------------- fetch

  datatype Phase = InPrelims | InElims

  /**
   * The fold of TournamentRounds::fetch over the rounds in seq order; an
   * error is the message of the panic it raises.
   */
  function FoldPhases(rounds: seq<Round>, state: Phase): Result<Phase, string>
  {
    if rounds == [] then Ok(state)
    else
      var k := rounds[0].kind;
      if state == InPrelims && k == "P" then FoldPhases(rounds[1..], InPrelims)
      else if state == InPrelims && k == "E" then FoldPhases(rounds[1..], InElims)
      else if state == InElims && k == "E" then FoldPhases(rounds[1..], InElims)
      else if state == InElims && k == "P" then Err("preliminary rounds must come before elimination rounds")
      else Err("unreachable round kind")
  }

  /** Every round is "P" or "E", and no "P" round follows an "E" round. */
  ghost predicate WellSeparated(rounds: seq<Round>)
  {
    (forall i :: 0 <= i < |rounds| ==> IsPrelim(rounds[i]) || IsElim(rounds[i])) &&
    (forall i, j :: 0 <= i < j < |rounds| && IsElim(rounds[i]) ==> !IsPrelim(rounds[j]))
  }

  lemma {:induction false} FoldFromElims(rounds: seq<Round>)
    ensures FoldPhases(rounds, InElims).Ok? <==> forall i :: 0 <= i < |rounds| ==> IsElim(rounds[i])
  {
    if rounds != [] {
      FoldFromElims(rounds[1..]);
      assert forall i :: 1 <= i < |rounds| ==> rounds[i] == rounds[1..][i - 1];
    }
  }

  /** The fold succeeds exactly on well-separated round lists. */
  lemma {:induction false} FoldPhasesOk(rounds: seq<Round>)
    ensures FoldPhases(rounds, InPrelims).Ok? <==> WellSeparated(rounds)
  {
    if rounds != [] {
      var tail := rounds[1..];
      assert forall i :: 1 <= i < |rounds| ==> rounds[i] == tail[i - 1];
      if IsPrelim(rounds[0]) {
        FoldPhasesOk(tail);
      } else if IsElim(rounds[0]) {
        FoldFromElims(tail);
        if FoldPhases(tail, InElims).Ok? {
          forall i, j | 0 <= i < j < |rounds| && IsElim(rounds[i]) ensures !IsPrelim(rounds[j]) {
            assert IsElim(tail[j - 1]);
          }
        }
      }
    }
  }

  function TakePrelims(rounds: seq<Round>): (r: seq<Round>)
    ensures forall i :: 0 <= i < |r| ==> IsPrelim(r[i])
  {
    if rounds == [] || !IsPrelim(rounds[0]) then []
    else [rounds[0]] + TakePrelims(rounds[1..])
  }

  function SkipPrelims(rounds: seq<Round>): (r: seq<Round>)
    ensures r != [] ==> !IsPrelim(r[0])
  {
    if rounds == [] || !IsPrelim(rounds[0]) then rounds
    else SkipPrelims(rounds[1..])
  }

  /** take_while and skip_while split the rounds at the same point. */
  lemma {:induction false} TakeSkipPartition(rounds: seq<Round>)
    ensures TakePrelims(rounds) + SkipPrelims(rounds) == rounds
  {
    if rounds != [] && IsPrelim(rounds[0]) {
      var tail := rounds[1..];
      TakeSkipPartition(tail);
      calc {
        TakePrelims(rounds) + SkipPrelims(rounds);
        ([rounds[0]] + TakePrelims(tail)) + SkipPrelims(tail);
        [rounds[0]] + (TakePrelims(tail) + SkipPrelims(tail));
        rounds;
      }
    }
  }

  datatype RoundStatus = NotStarted | InProgress | Completed | Draft

  function StatusOf(r: Round): (s: RoundStatus)
    ensures s == Completed <==> r.completed
    ensures s == InProgress <==> !r.completed && r.drawStatus == "R"
    ensures s == Draft <==> !r.completed && (r.drawStatus == "D" || r.drawStatus == "C")
  {
    if r.completed then Completed
    else if r.drawStatus == "R" then InProgress
    else if r.drawStatus == "D" || r.drawStatus == "C" then Draft
    else NotStarted
  }

  /** The statuses collected into a map; a later round with the same id overwrites an earlier one. */
  function Statuses(rounds: seq<Round>): (m: map<string, RoundStatus>)
    ensures m.Keys == set r | r in rounds :: r.id
    ensures forall id :: id in m ==> exists r :: r in rounds && r.id == id && m[id] == StatusOf(r)
  {
    if rounds == [] then map[]
    else
      var last := rounds[|rounds| - 1];
      var m := Statuses(rounds[..|rounds| - 1]);
      assert rounds == rounds[..|rounds| - 1] + [last];
      m[last.id := StatusOf(last)]
  }

  datatype TournamentRounds = TournamentRounds(
    prelim: seq<Round>,
    elim: seq<Round>,
    statuses: map<string, RoundStatus>)

  /** TournamentRounds::fetch over the tournament's rounds table; Err is the panic of the fold. */
  function Fetch(table: seq<Round>): (r: Result<TournamentRounds, string>)
    ensures r.Ok? <==> WellSeparated(OrderedBySeq(table))
    ensures r.Ok? ==> r.value.prelim + r.value.elim == OrderedBySeq(table)
    ensures r.Ok? ==> forall i :: 0 <= i < |r.value.prelim| ==> IsPrelim(r.value.prelim[i])
    ensures r.Ok? ==> forall i :: 0 <= i < |r.value.elim| ==> IsElim(r.value.elim[i])
    ensures r.Ok? ==> r.value.statuses.Keys == set x | x in table :: x.id
  {
    var rounds := OrderedBySeq(table);
    FoldPhasesOk(rounds);
    match FoldPhases(rounds, InPrelims)
    case Err(msg) => Err(msg)
    case Ok(_) =>
      PrelimsThenElims(rounds);
      SameIds(table, rounds);
      Ok(TournamentRounds(TakePrelims(rounds), SkipPrelims(rounds), Statuses(rounds)))
  }

  lemma PrelimsThenElims(rounds: seq<Round>)
    requires WellSeparated(rounds)
    ensures TakePrelims(rounds) + SkipPrelims(rounds) == rounds
    ensures forall i :: 0 <= i < |SkipPrelims(rounds)| ==> IsElim(SkipPrelims(rounds)[i])
  {
    TakeSkipPartition(rounds);
    var p, e := TakePrelims(rounds), SkipPrelims(rounds);
    assert e != [] ==> IsElim(e[0]) by {
      if e != [] {
        assert e[0] == rounds[|p|];
        assert IsPrelim(rounds[|p|]) || IsElim(rounds[|p|]);
      }
    }
    forall i | 0 <= i < |e| ensures IsElim(e[i]) {
      var x := rounds[|p| + i];
      assert e[i] == x;
      assert IsPrelim(x) || IsElim(x);
      if i > 0 {
        assert e[0] == rounds[|p|];
        assert !IsPrelim(x);
      }
    }
  }

  lemma SameIds(table: seq<Round>, rounds: seq<Round>)
    requires multiset(table) == multiset(rounds)
    ensures (set x | x in table :: x.id) == (set x | x in rounds :: x.id)
  {
    forall x ensures x in table <==> x in rounds {
      assert x in table <==> x in multiset(table);
      assert x in rounds <==> x in multiset(rounds);
    }
  }

  // ------------------------------------------------------------- grouping

  function Concat(groups: seq<seq<Round>>): seq<Round>
  {
    if groups == [] then [] else groups[0] + Concat(groups[1..])
  }

  /** chunk_by seq over rounds that are already in seq order. */
  function ChunkBySeq(rounds: seq<Round>): (groups: seq<seq<Round>>)
    ensures forall g :: g in groups ==> g != []
    ensures rounds != [] ==> groups != [] && groups[0] != [] && groups[0][0] == rounds[0]
  {
    if rounds == [] then []
    else
      var rest := ChunkBySeq(rounds[1..]);
      if rest != [] && rest[0][0].seqNo == rounds[0].seqNo then
        assert forall g :: g in rest[1..] ==> g in rest;
        [[rounds[0]] + rest[0]] + rest[1..]
      else
        [[rounds[0]]] + rest
  }

  /** The group is not empty and all its rounds share the seq of the first. */
  predicate OneSeq(g: seq<Round>)
  {
    g != [] && forall x :: x in g ==> x.seqNo == g[0].seqNo
  }

  /** The groups put together are the input. */
  lemma {:induction false} ChunkBySeqConcat(rounds: seq<Round>)
    ensures Concat(ChunkBySeq(rounds)) == rounds
  {
    if rounds != [] {
      var tail := rounds[1..];
      ChunkBySeqConcat(tail);
      var rest: seq<seq<Round>> := ChunkBySeq(tail);
      if rest != [] && rest[0][0].seqNo == rounds[0].seqNo {
        var groups := [[rounds[0]] + rest[0]] + rest[1..];
        assert ChunkBySeq(rounds) == groups;
        assert groups[1..] == rest[1..];
        assert Concat(rest) == rest[0] + Concat(rest[1..]);
        assert Concat(groups) == ([rounds[0]] + rest[0]) + Concat(rest[1..]);
      } else {
        var groups := [[rounds[0]]] + rest;
        assert ChunkBySeq(rounds) == groups;
        assert groups[1..] == rest;
      }
    }
  }

  /** Each group holds rounds of one seq. */
  lemma {:induction false} ChunkBySeqOneSeq(rounds: seq<Round>)
    ensures forall g :: g in ChunkBySeq(rounds) ==> OneSeq(g)
  {
    if rounds != [] {
      var tail := rounds[1..];
      ChunkBySeqOneSeq(tail);
      var rest: seq<seq<Round>> := ChunkBySeq(tail);
      if rest != [] && rest[0][0].seqNo == rounds[0].seqNo {
        var merged := [rounds[0]] + rest[0];
        assert rest[0] in rest;
        assert OneSeq(merged);
        assert ChunkBySeq(rounds) == [merged] + rest[1..];
        assert forall g :: g in rest[1..] ==> g in rest;
      } else {
        assert OneSeq([rounds[0]]);
        assert ChunkBySeq(rounds) == [[rounds[0]]] + rest;
      }
    }
  }

  ghost predicate GroupsAscend(groups: seq<seq<Round>>)
  {
    forall i, j :: 0 <= i < j < |groups| && groups[i] != [] && groups[j] != [] ==> groups[i][0].seqNo < groups[j][0].seqNo
  }

  ghost predicate SortedBySeq(rounds: seq<Round>)
  {
    forall i, j :: 0 <= i < j < |rounds| ==> rounds[i].seqNo <= rounds[j].seqNo
  }

  /** On sorted input the groups come in strictly ascending seq. */
  lemma {:induction false} ChunkBySeqAscends(rounds: seq<Round>)
    requires SortedBySeq(rounds)
    ensures GroupsAscend(ChunkBySeq(rounds))
  {
    if rounds != [] {
      var tail := rounds[1..];
      assert SortedBySeq(tail) by {
        forall i, j | 0 <= i < j < |tail| ensures tail[i].seqNo <= tail[j].seqNo {
          assert tail[i] == rounds[i + 1] && tail[j] == rounds[j + 1];
        }
      }
      ChunkBySeqAscends(tail);
      var rest: seq<seq<Round>> := ChunkBySeq(tail);
      if rest != [] {
        assert rounds[0].seqNo <= rest[0][0].seqNo by {
          assert rest[0][0] == tail[0] == rounds[1];
        }
        if rest[0][0].seqNo == rounds[0].seqNo {
          MergedAscend(rounds[0], rest);
        } else {
          PrependedAscend(rounds[0], rest);
        }
      }
    }
  }

  lemma MergedAscend(x: Round, rest: seq<seq<Round>>)
    requires rest != [] && rest[0] != [] && rest[0][0].seqNo == x.seqNo && GroupsAscend(rest)
    ensures GroupsAscend([[x] + rest[0]] + rest[1..])
  {
    var groups: seq<seq<Round>> := [[x] + rest[0]] + rest[1..];
    forall i: int, j: int | 0 <= i < j < |groups| && groups[i] != [] && groups[j] != []
      ensures groups[i][0].seqNo < groups[j][0].seqNo
    {
      assert groups[j] == rest[j];
      if i > 0 {
        assert groups[i] == rest[i];
      }
    }
  }

  lemma PrependedAscend(x: Round, rest: seq<seq<Round>>)
    requires rest != [] && rest[0] != [] && x.seqNo < rest[0][0].seqNo && GroupsAscend(rest)
    ensures GroupsAscend([[x]] + rest)
  {
    var groups: seq<seq<Round>> := [[x]] + rest;
    forall i: int, j: int | 0 <= i < j < |groups| && groups[i] != [] && groups[j] != []
      ensures groups[i][0].seqNo < groups[j][0].seqNo
    {
      assert groups[j] == rest[j - 1];
      if i > 0 {
        assert groups[i] == rest[i - 1];
      } else if j > 1 {
        assert rest[0][0].seqNo < rest[j - 1][0].seqNo;
      }
    }
  }

  /** TournamentRounds::prelims_grouped_by_seq. */
  function PrelimsGroupedBySeq(tr: TournamentRounds): (groups: seq<seq<Round>>)
    ensures Concat(groups) == OrderedBySeq(tr.prelim)
    ensures forall g :: g in groups ==> OneSeq(g)
    ensures GroupsAscend(groups)
  {
    ChunkBySeqAscends(OrderedBySeq(tr.prelim));
    ChunkBySeqConcat(OrderedBySeq(tr.prelim));
    ChunkBySeqOneSeq(OrderedBySeq(tr.prelim));
    ChunkBySeq(OrderedBySeq(tr.prelim))
  }

  /** TournamentRounds::all_grouped_by_seq. */
  function AllGroupedBySeq(tr: TournamentRounds): (groups: seq<seq<Round>>)
    ensures Concat(groups) == OrderedBySeq(tr.prelim + tr.elim)
    ensures forall g :: g in groups ==> OneSeq(g)
    ensures GroupsAscend(groups)
  {
    ChunkBySeqAscends(OrderedBySeq(tr.prelim + tr.elim));
    ChunkBySeqConcat(OrderedBySeq(tr.prelim + tr.elim));
    ChunkBySeqOneSeq(OrderedBySeq(tr.prelim + tr.elim));
    ChunkBySeq(OrderedBySeq(tr.prelim + tr.elim))
  }

  /**
   * TournamentRounds::categories: the elimination rounds of each break
   * category, in order; an elimination round without a category panics.
   */
  method Categories(elim: seq<Round>) returns (r: Result<map<string, seq<Round>>, string>)
    ensures r.Err? <==> exists i :: 0 <= i < |elim| && elim[i].breakCat.None?
    ensures r.Ok? ==> r.value.Keys == set i | 0 <= i < |elim| :: elim[i].breakCat.value
    ensures r.Ok? ==> forall c :: c in r.value ==> r.value[c] == InCategory(elim, c)
  {
    var ret: map<string, seq<Round>> := map[];
    var i := 0;
    while i < |elim|
      invariant 0 <= i <= |elim|
      invariant forall k :: 0 <= k < i ==> elim[k].breakCat.Some?
      invariant ret.Keys == set k | 0 <= k < i :: elim[k].breakCat.value
      invariant forall c :: c in ret ==> ret[c] == InCategory(elim[..i], c)
    {
      var round := elim[i];
      if round.breakCat.None? {
        return Err("all elimination rounds should have a break category");
      }
      var c := round.breakCat.value;
      assert elim[..i + 1] == elim[..i] + [round];
      InCategoryAppend(elim[..i], round, c);
      forall d | d in ret && d != c ensures InCategory(elim[..i + 1], d) == ret[d] {
        InCategoryAppend(elim[..i], round, d);
      }
      if c in ret {
        ret := ret[c := ret[c] + [round]];
      } else {
        InCategoryAbsent(elim[..i], c);
        ret := ret[c := [round]];
      }
      i := i + 1;
    }
    assert elim[..i] == elim;
    r := Ok(ret);
  }

  /** The rounds of break category c, in order. */
  function InCategory(rounds: seq<Round>, c: string): seq<Round>
  {
    if rounds == [] then []
    else
      var last := rounds[|rounds| - 1];
      InCategory(rounds[..|rounds| - 1], c) + (if last.breakCat == Some(c) then [last] else [])
  }

  lemma InCategoryAppend(rounds: seq<Round>, x: Round, c: string)
    ensures InCategory(rounds + [x], c) == InCategory(rounds, c) + (if x.breakCat == Some(c) then [x] else [])
  {
    assert (rounds + [x])[..|rounds|] == rounds;
  }

  lemma {:induction false} InCategoryAbsent(rounds: seq<Round>, c: string)
    requires forall k :: 0 <= k < |rounds| ==> rounds[k].breakCat != Some(c)
    ensures InCategory(rounds, c) == []
  {
    if rounds != [] {
      InCategoryAbsent(rounds[..|rounds| - 1], c);
    }
  }

  // ---------------------------------------------------- current rounds

  /**
   * The current rounds as the query's name and its use intend: the
   * incomplete rounds whose seq is the least seq of any incomplete round,
   * in table order (they share one seq, so the ORDER BY seq leaves them as
   * they are). The query as written is CurrentRoundsAsWritten.
   */
  function CurrentRounds(table: seq<Round>): (r: seq<Round>)
    ensures forall x :: x in r <==>
      (x in table && !x.completed && forall y :: y in table && !y.completed ==> x.seqNo <= y.seqNo)
    ensures r == [] <==> forall x :: x in table ==> x.completed
  {
    var incomplete := Incomplete(table);
    if incomplete == [] then []
    else
      var m := MinSeq(incomplete);
      AtSeq(incomplete, m)
  }

  function Incomplete(table: seq<Round>): (r: seq<Round>)
    ensures forall x :: x in r <==> x in table && !x.completed
  {
    if table == [] then []
    else (if table[0].completed then [] else [table[0]]) + Incomplete(table[1..])
  }

  function MinSeq(rounds: seq<Round>): (m: int)
    requires rounds != []
    ensures (exists x :: x in rounds && x.seqNo == m) && forall x :: x in rounds ==> m <= x.seqNo
  {
    if |rounds| == 1 then rounds[0].seqNo
    else
      var m := MinSeq(rounds[1..]);
      if rounds[0].seqNo <= m then rounds[0].seqNo else m
  }

  function AtSeq(rounds: seq<Round>, s: int): (r: seq<Round>)
    ensures forall x :: x in r <==> x in rounds && x.seqNo == s
  {
    if rounds == [] then []
    else (if rounds[0].seqNo == s then [rounds[0]] else []) + AtSeq(rounds[1..], s)
  }

  /**
   * Round::current_rounds as written. Inside the subquery the `completed`
   * filter names the outer table rather than the alias, so for every outer
   * row that is incomplete it holds on every inner row: the minimum is the
   * least seq of all the tournament's rounds, completed or not, and the
   * result is the incomplete rounds at that seq.
   */
  function CurrentRoundsAsWritten(table: seq<Round>): (r: seq<Round>)
    ensures forall x :: x in r <==>
      (x in table && !x.completed && forall y :: y in table ==> x.seqNo <= y.seqNo)
  {
    if table == [] then []
    else AtSeq(Incomplete(table), MinSeq(table))
  }

  /**
   * Once the first round is completed and the second is open, the query as
   * written finds no current round, while the least incomplete seq gives
   * the open round.
   */
  lemma CompletedFirstRoundHidesCurrent()
    ensures
      var r1 := Round("r1", 1, "Round 1", "P", None, true, "R", Some(0), None);
      var r2 := Round("r2", 2, "Round 2", "P", None, false, "N", None, None);
      CurrentRoundsAsWritten([r1, r2]) == [] && CurrentRounds([r1, r2]) == [r2]
  {
    var r1 := Round("r1", 1, "Round 1", "P", None, true, "R", Some(0), None);
    var r2 := Round("r2", 2, "Round 2", "P", None, false, "N", None, None);
    assert Incomplete([r1, r2]) == [r2] by {
      assert [r1, r2][1..] == [r2];
    }
    assert MinSeq([r1, r2]) == 1 by {
      assert [r1, r2][1..] == [r2];
    }
  }

  // ------------------------------------------- preceding incomplete round

  /**
   * Round::find_first_preceding_incomplete_round as written: the first
   * round (in table order) with a smaller seq, completed or not.
   */
  function FirstPrecedingRoundAsWritten(table: seq<Round>, round: Round): (r: Option<Round>)
    ensures r.Some? <==> exists x :: x in table && x.seqNo < round.seqNo
    ensures r.Some? ==> r.value in table && r.value.seqNo < round.seqNo
  {
    if table == [] then None
    else if table[0].seqNo < round.seqNo then Some(table[0])
    else FirstPrecedingRoundAsWritten(table[1..], round)
  }

  /**
   * The search its name describes: the first round with a smaller seq
   * that is not completed. The availability handlers use this one.
   */
  function FirstPrecedingIncompleteRound(table: seq<Round>, round: Round): (r: Option<Round>)
    ensures r.Some? <==> exists x :: x in table && x.seqNo < round.seqNo && !x.completed
    ensures r.Some? ==> r.value in table && r.value.seqNo < round.seqNo && !r.value.completed
  {
    if table == [] then None
    else if table[0].seqNo < round.seqNo && !table[0].completed then Some(table[0])
    else FirstPrecedingIncompleteRound(table[1..], round)
  }

  /**
   * Once round 1 is completed, the search as written still reports it as a
   * preceding incomplete round of round 2, so availability for round 2
   * could never be changed; the corrected search reports nothing.
   */
  lemma CompletedRoundStillBlocks()
    ensures
      var r1 := Round("r1", 1, "Round 1", "P", None, true, "R", Some(0), None);
      var r2 := Round("r2", 2, "Round 2", "P", None, false, "N", None, None);
      FirstPrecedingRoundAsWritten([r1, r2], r2) == Some(r1) &&
      FirstPrecedingIncompleteRound([r1, r2], r2) == None
  {
  }
}
