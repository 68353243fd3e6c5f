/**
 * The draw editor's judge handlers (src/tournaments/rounds/manage/draw_edit.rs):
 * dragging a judge to a debate or off the draw, the typed move command,
 * and changing a judge's role on a panel. Each handler runs in the
 * request transaction, which commits only on a 2xx or 3xx response
 * (src/state.rs), so an error response leaves the tables as they were.
 */
module DrawEdit {
  import opened Wrappers
  import opened Http
  import opened Draws
  import Seqs
  import Text

  // --------------------------------------------------------- move_judge

  /** The rows left when the judge's rows in the rounds' debates are deleted. */
  function Unassigned(debates: seq<Debate>, allocs: seq<Alloc>, judge: string, rounds: seq<string>): (r: seq<Alloc>)
    ensures forall a :: a in r <==> a in allocs && !(a.judge == judge && a.debate in DebatesIn(debates, rounds))
  {
    var ids := DebatesIn(debates, rounds);
    Seqs.Filter(allocs, (a: Alloc) => !(a.judge == judge && a.debate in ids))
  }

  /**
   * The response of move_judge and the allocation table it leaves once the
   * request transaction has committed or rolled back.
   */
  function MoveJudgeOutcome(judges: seq<Judge>, debates: seq<Debate>, allocs: seq<Alloc>, tournament: string,
                            judgeId: string, toDebate: Option<string>, role: string, rounds: seq<string>): (r: (Response, seq<Alloc>))
    ensures r.0 == Success || r.0 == BadRequest("Judge not found") || r.0 == BadRequest("Debate not found")
    ensures r.0.BadRequest? ==> r.1 == allocs
    ensures r.0 == BadRequest("Judge not found") <==> forall k :: 0 <= k < |judges| ==> !(judges[k].id == judgeId && judges[k].tournament == tournament)
    ensures r.0 == BadRequest("Debate not found") <==>
      (exists k :: 0 <= k < |judges| && judges[k].id == judgeId && judges[k].tournament == tournament) &&
      NonEmptyTarget(toDebate).Some? &&
      forall k :: 0 <= k < |debates| ==> !(debates[k].id == toDebate.value && debates[k].round in rounds)
  {
    match Seqs.First(judges, (j: Judge) => j.id == judgeId && j.tournament == tournament)
    case None => (BadRequest("Judge not found"), allocs)
    case Some(judge) =>
      var cleared := Unassigned(debates, allocs, judge.id, rounds);
      match NonEmptyTarget(toDebate)
      case None => (Success, cleared)
      case Some(target) =>
        match Seqs.First(debates, (d: Debate) => d.id == target && d.round in rounds)
        case None => (BadRequest("Debate not found"), allocs)
        case Some(d) => (Success, cleared + [Alloc(d.id, judge.id, RoleOfForm(role))])
  }

  /**
   * move_judge: refuse a caller who is not a superuser of the tournament,
   * look the judge up in the tournament, delete its rows in the rounds'
   * debates, then insert one row for the target debate if there is one. A
   * target outside the rounds is a bad request and the transaction rolls
   * the delete back. DrawUpdated goes out for every round on success.
   */
  method MoveJudge(db: DrawDb, tournament: string, isSuperuser: bool, judgeId: string, toDebate: Option<string>,
                   role: string, rounds: seq<string>) returns (resp: Response, notices: seq<string>)
    modifies db
    ensures db.judges == old(db.judges) && db.rooms == old(db.rooms) && db.debates == old(db.debates)
    ensures !isSuperuser ==> resp == Unauthorized && db.allocs == old(db.allocs)
    ensures isSuperuser ==> (resp, db.allocs) == MoveJudgeOutcome(old(db.judges), old(db.debates), old(db.allocs),
                                                                  tournament, judgeId, toDebate, role, rounds)
    ensures notices == if resp.Success? then rounds else []
  {
    if !isSuperuser {
      return Unauthorized, [];
    }
    var judge := Seqs.First(db.judges, (j: Judge) => j.id == judgeId && j.tournament == tournament);
    if judge.None? {
      return BadRequest("Judge not found"), [];
    }
    var saved := db.allocs;
    db.allocs := Unassigned(db.debates, db.allocs, judge.value.id, rounds);
    var target := NonEmptyTarget(toDebate);
    if target.Some? {
      var debate := Seqs.First(db.debates, (d: Debate) => d.id == target.value && d.round in rounds);
      if debate.None? {
        // the error response rolls the transaction back
        db.allocs := saved;
        return BadRequest("Debate not found"), [];
      }
      db.allocs := db.allocs + [Alloc(debate.value.id, judge.value.id, RoleOfForm(role))];
    }
    resp, notices := Success, rounds;
  }

  /**
   * After a successful move the judge holds no allocation in the rounds'
   * debates except the one new row in the target debate, with the posted role.
   */
  lemma MoveJudgeLeavesOneAllocation(judges: seq<Judge>, debates: seq<Debate>, allocs: seq<Alloc>, tournament: string,
                                     judgeId: string, toDebate: Option<string>, role: string, rounds: seq<string>)
    requires MoveJudgeOutcome(judges, debates, allocs, tournament, judgeId, toDebate, role, rounds).0.Success?
    ensures var after := MoveJudgeOutcome(judges, debates, allocs, tournament, judgeId, toDebate, role, rounds).1;
      NonEmptyTarget(toDebate).None? ==> AllocsIn(debates, after, judgeId, rounds) == []
    ensures var after := MoveJudgeOutcome(judges, debates, allocs, tournament, judgeId, toDebate, role, rounds).1;
      NonEmptyTarget(toDebate).Some? ==>
        AllocsIn(debates, after, judgeId, rounds) == [Alloc(toDebate.value, judgeId, RoleOfForm(role))]
  {
    var judge := Seqs.First(judges, (j: Judge) => j.id == judgeId && j.tournament == tournament).value;
    var ids := DebatesIn(debates, rounds);
    var cleared := Unassigned(debates, allocs, judge.id, rounds);
    var mine := (a: Alloc) => a.judge == judgeId && a.debate in ids;
    Seqs.FilterNone(cleared, mine);
    if NonEmptyTarget(toDebate).Some? {
      var d := Seqs.First(debates, (d: Debate) => d.id == toDebate.value && d.round in rounds).value;
      var row := Alloc(d.id, judge.id, RoleOfForm(role));
      assert d.id in ids;
      Seqs.FilterAppend(cleared, [row], mine);
      assert Seqs.Filter([row], mine) == [row] by {
        assert [row][..0] == [];
      }
    }
  }

  /** Rows of other judges, and the judge's rows outside the rounds, survive a move in their order. */
  lemma MoveJudgeKeepsOtherRows(judges: seq<Judge>, debates: seq<Debate>, allocs: seq<Alloc>, tournament: string,
                                judgeId: string, toDebate: Option<string>, role: string, rounds: seq<string>)
    ensures var after := MoveJudgeOutcome(judges, debates, allocs, tournament, judgeId, toDebate, role, rounds).1;
      var ids := DebatesIn(debates, rounds);
      var other := (a: Alloc) => !(a.judge == judgeId && a.debate in ids);
      Seqs.Filter(after, other) == Seqs.Filter(allocs, other)
  {
    var after := MoveJudgeOutcome(judges, debates, allocs, tournament, judgeId, toDebate, role, rounds);
    var ids := DebatesIn(debates, rounds);
    var other := (a: Alloc) => !(a.judge == judgeId && a.debate in ids);
    if after.0.Success? {
      var judge := Seqs.First(judges, (j: Judge) => j.id == judgeId && j.tournament == tournament).value;
      var cleared := Unassigned(debates, allocs, judge.id, rounds);
      assert cleared == Seqs.Filter(allocs, other);
      Seqs.FilterIdempotent(allocs, other);
      if NonEmptyTarget(toDebate).Some? {
        var d := Seqs.First(debates, (d: Debate) => d.id == toDebate.value && d.round in rounds).value;
        var row := Alloc(d.id, judge.id, RoleOfForm(role));
        assert d.id in ids;
        Seqs.FilterAppend(cleared, [row], other);
        Seqs.FilterNone([row], other);
      }
    }
  }

  /** Unassigning a judge that is already unassigned changes nothing. */
  lemma UnassignIsIdempotent(judges: seq<Judge>, debates: seq<Debate>, allocs: seq<Alloc>, tournament: string,
                             judgeId: string, role: string, rounds: seq<string>)
    ensures var once := MoveJudgeOutcome(judges, debates, allocs, tournament, judgeId, None, role, rounds).1;
      MoveJudgeOutcome(judges, debates, once, tournament, judgeId, None, role, rounds).1 == once
  {
    var once := MoveJudgeOutcome(judges, debates, allocs, tournament, judgeId, None, role, rounds);
    if once.0.Success? {
      var ids := DebatesIn(debates, rounds);
      Seqs.FilterIdempotent(allocs, (a: Alloc) => !(a.judge == judgeId && a.debate in ids));
    }
  }

  /**
   * The handler never checks for a chair already on the panel: moving a
   * judge into a debate as "C" succeeds and keeps the chair row another
   * judge already holds there, so the debate ends with two chairs.
   */
  lemma SecondChairIsAccepted(judges: seq<Judge>, debates: seq<Debate>, allocs: seq<Alloc>, tournament: string,
                              judgeId: string, target: string, other: string, rounds: seq<string>)
    requires exists k :: 0 <= k < |judges| && judges[k].id == judgeId && judges[k].tournament == tournament
    requires exists k :: 0 <= k < |debates| && debates[k].id == target && debates[k].round in rounds
    requires target != "" && other != judgeId && Alloc(target, other, Chair) in allocs
    ensures var r := MoveJudgeOutcome(judges, debates, allocs, tournament, judgeId, Some(target), "C", rounds);
      r.0 == Success && Alloc(target, other, Chair) in r.1 && Alloc(target, judgeId, Chair) in r.1
  {
    var judge := Seqs.First(judges, (j: Judge) => j.id == judgeId && j.tournament == tournament);
    var d := Seqs.First(debates, (d: Debate) => d.id == target && d.round in rounds);
    assert judge.Some? && d.Some?;
    var cleared := Unassigned(debates, allocs, judge.value.id, rounds);
    assert Alloc(target, other, Chair) in cleared;
  }

  // --------------------------------------------------------- apply_move

  /**
   * The debate number and judge number of a typed command after both have
   * been looked up: the judge, the allocation the judge currently holds in
   * the rounds, and the debate to move to (None to unassign).
   */
  datatype MovePlan = MovePlan(judge: Judge, existing: Option<Alloc>, target: Option<Debate>)

  /**
   * The lookups of apply_move as written. The judge is the first judge of
   * ANY tournament with that number, and the existing allocation is the
   * first row in the rounds held by any judge with that number.
   */
  function PlanMoveAsWritten(judges: seq<Judge>, debates: seq<Debate>, allocs: seq<Alloc>,
                             judgeNo: int, debateNo: Option<int>, rounds: seq<string>): (r: Result<MovePlan, string>)
    ensures r.Ok? ==> r.value.judge in judges && r.value.judge.number == judgeNo
  {
    var ids := DebatesIn(debates, rounds);
    match Seqs.First(judges, (j: Judge) => j.number == judgeNo)
    case None => Err("No such judge with numnber j" + Text.IntToString(judgeNo))
    case Some(judge) =>
      var existing := Seqs.First(allocs, (a: Alloc) => a.debate in ids && exists j :: j in judges && j.number == judgeNo && j.id == a.judge);
      match debateNo
      case None => Ok(MovePlan(judge, existing, None))
      case Some(n) =>
        match Seqs.First(debates, (d: Debate) => d.round in rounds && d.number == n)
        case None => Err("Debate with number " + Text.IntToString(n) + " does not exist.")
        case Some(d) => Ok(MovePlan(judge, existing, Some(d)))
  }

  /**
   * The lookups apply_move needs: the judge numbered judgeNo in the
   * tournament the command was typed in, and that judge's own allocation.
   */
  function PlanMove(judges: seq<Judge>, debates: seq<Debate>, allocs: seq<Alloc>, tournament: string,
                    judgeNo: int, debateNo: Option<int>, rounds: seq<string>): (r: Result<MovePlan, string>)
    ensures r.Ok? ==> r.value.judge in judges && r.value.judge.number == judgeNo && r.value.judge.tournament == tournament
    ensures r.Ok? && r.value.existing.Some? ==>
      r.value.existing.value in AllocsIn(debates, allocs, r.value.judge.id, rounds)
    ensures r.Ok? && r.value.existing.None? ==> AllocsIn(debates, allocs, r.value.judge.id, rounds) == []
    ensures r.Ok? ==> (r.value.target.Some? <==> debateNo.Some?)
    ensures r.Ok? && r.value.target.Some? ==>
      r.value.target.value in debates && r.value.target.value.round in rounds && r.value.target.value.number == debateNo.value
    ensures r.Err? <==> (
      (forall k :: 0 <= k < |judges| ==> !(judges[k].number == judgeNo && judges[k].tournament == tournament)) ||
      (debateNo.Some? && forall k :: 0 <= k < |debates| ==> !(debates[k].round in rounds && debates[k].number == debateNo.value)))
  {
    match Seqs.First(judges, (j: Judge) => j.number == judgeNo && j.tournament == tournament)
    case None => Err("No such judge with numnber j" + Text.IntToString(judgeNo))
    case Some(judge) =>
      var ids := DebatesIn(debates, rounds);
      var existing := Seqs.First(allocs, (a: Alloc) => a.judge == judge.id && a.debate in ids);
      assert existing.None? ==> AllocsIn(debates, allocs, judge.id, rounds) == [] by {
        if existing.None? {
          Seqs.FilterNone(allocs, (a: Alloc) => a.judge == judge.id && a.debate in ids);
        }
      }
      match debateNo
      case None => Ok(MovePlan(judge, existing, None))
      case Some(n) =>
        match Seqs.First(debates, (d: Debate) => d.round in rounds && d.number == n)
        case None => Err("Debate with number " + Text.IntToString(n) + " does not exist.")
        case Some(d) => Ok(MovePlan(judge, existing, Some(d)))
  }

  /** The delete of apply_move: the rows of the existing allocation's (debate, judge) pair go. */
  function ClearedFor(allocs: seq<Alloc>, existing: Option<Alloc>): (r: seq<Alloc>)
    ensures existing.None? ==> r == allocs
    ensures existing.Some? ==> forall a :: a in r <==> a in allocs && !(a.debate == existing.value.debate && a.judge == existing.value.judge)
  {
    match existing
    case None => allocs
    case Some(e) => Seqs.Filter(allocs, (a: Alloc) => !(a.debate == e.debate && a.judge == e.judge))
  }

  /** The writes of apply_move: delete the existing (debate, judge) rows, then insert the new row. */
  function ApplyPlan(allocs: seq<Alloc>, plan: MovePlan, role: Role): (r: seq<Alloc>)
  {
    var cleared := ClearedFor(allocs, plan.existing);
    match plan.target
    case None => cleared
    case Some(d) => cleared + [Alloc(d.id, plan.judge.id, role)]
  }

  /**
   * apply_move: both lookups happen before any write, so an unknown judge
   * number or debate number returns the error with the table untouched.
   */
  method ApplyMove(db: DrawDb, tournament: string, judgeNo: int, debateNo: Option<int>, role: Role,
                   rounds: seq<string>) returns (r: Result<(), string>)
    modifies db
    ensures db.judges == old(db.judges) && db.rooms == old(db.rooms) && db.debates == old(db.debates)
    ensures var plan := PlanMove(old(db.judges), old(db.debates), old(db.allocs), tournament, judgeNo, debateNo, rounds);
      (r.Err? <==> plan.Err?) &&
      (plan.Err? ==> r.error == plan.error && db.allocs == old(db.allocs)) &&
      (plan.Ok? ==> db.allocs == ApplyPlan(old(db.allocs), plan.value, role))
  {
    var plan := PlanMove(db.judges, db.debates, db.allocs, tournament, judgeNo, debateNo, rounds);
    if plan.Err? {
      return Err(plan.error);
    }
    var p := plan.value;
    if p.existing.Some? {
      var e := p.existing.value;
      db.allocs := Seqs.Filter(db.allocs, (a: Alloc) => !(a.debate == e.debate && a.judge == e.judge));
    }
    if p.target.Some? {
      db.allocs := db.allocs + [Alloc(p.target.value.id, p.judge.id, role)];
    }
    r := Ok(());
  }

  /**
   * A judge that held at most one allocation in the rounds holds exactly the
   * moved-to allocation afterwards, or none when the command unassigns.
   */
  lemma ApplyMoveKeepsOneAllocation(judges: seq<Judge>, debates: seq<Debate>, allocs: seq<Alloc>, tournament: string,
                                    judgeNo: int, debateNo: Option<int>, role: Role, rounds: seq<string>)
    requires PlanMove(judges, debates, allocs, tournament, judgeNo, debateNo, rounds).Ok?
    requires |AllocsIn(debates, allocs, PlanMove(judges, debates, allocs, tournament, judgeNo, debateNo, rounds).value.judge.id, rounds)| <= 1
    ensures var plan := PlanMove(judges, debates, allocs, tournament, judgeNo, debateNo, rounds).value;
      AllocsIn(debates, ApplyPlan(allocs, plan, role), plan.judge.id, rounds) ==
        if plan.target.Some? then [Alloc(plan.target.value.id, plan.judge.id, role)] else []
  {
    var plan := PlanMove(judges, debates, allocs, tournament, judgeNo, debateNo, rounds).value;
    var ids := DebatesIn(debates, rounds);
    var jid := plan.judge.id;
    var mine := (a: Alloc) => a.judge == jid && a.debate in ids;
    var cleared := ClearedFor(allocs, plan.existing);
    ClearedHoldsNone(debates, allocs, plan.existing, jid, rounds);
    if plan.target.Some? {
      var row := Alloc(plan.target.value.id, jid, role);
      assert plan.target.value.id in ids;
      assert ApplyPlan(allocs, plan, role) == cleared + [row];
      Seqs.FilterAppend(cleared, [row], mine);
      assert Seqs.Filter([row], mine) == [row] by {
        assert [row][..0] == [];
      }
    }
  }

  /** Deleting the judge's only allocation in the rounds leaves the judge none there. */
  lemma ClearedHoldsNone(debates: seq<Debate>, allocs: seq<Alloc>, existing: Option<Alloc>, judge: string, rounds: seq<string>)
    requires |AllocsIn(debates, allocs, judge, rounds)| <= 1
    requires existing.Some? ==> existing.value in AllocsIn(debates, allocs, judge, rounds)
    requires existing.None? ==> AllocsIn(debates, allocs, judge, rounds) == []
    ensures AllocsIn(debates, ClearedFor(allocs, existing), judge, rounds) == []
  {
    var before := AllocsIn(debates, allocs, judge, rounds);
    var cleared := ClearedFor(allocs, existing);
    var ids := DebatesIn(debates, rounds);
    if existing.Some? {
      assert before == [existing.value] by {
        assert existing.value in before;
        assert |before| == 1;
        assert before[0] in before;
      }
    }
    forall a | a in cleared
      ensures !(a.judge == judge && a.debate in ids)
    {
      assert a in allocs;
    }
    Seqs.FilterNone(cleared, (a: Alloc) => a.judge == judge && a.debate in ids);
  }

  /**
   * As written, a command typed in tournament "t2" for judge number 1 picks
   * judge number 1 of tournament "t1" when that judge comes first in the
   * table; the command deletes t2's own judge 1 from its debate and puts
   * t1's judge on a t2 panel. The corrected lookup picks t2's judge.
   */
  lemma ForeignJudgeNumberMatches()
    ensures
      var judges := [Judge("a", "t1", 1), Judge("b", "t2", 1)];
      var debates := [Debate("d1", "r", 1, None), Debate("d2", "r", 2, None)];
      var allocs := [Alloc("d1", "b", Panelist)];
      var wrong := PlanMoveAsWritten(judges, debates, allocs, 1, Some(2), ["r"]);
      var right := PlanMove(judges, debates, allocs, "t2", 1, Some(2), ["r"]);
      wrong.Ok? && wrong.value.judge.tournament == "t1" && wrong.value.existing == Some(Alloc("d1", "b", Panelist)) &&
      ApplyPlan(allocs, wrong.value, Panelist) == [Alloc("d2", "a", Panelist)] &&
      right.Ok? && right.value.judge.tournament == "t2" &&
      ApplyPlan(allocs, right.value, Panelist) == [Alloc("d2", "b", Panelist)]
  {
    var judges := [Judge("a", "t1", 1), Judge("b", "t2", 1)];
    var debates := [Debate("d1", "r", 1, None), Debate("d2", "r", 2, None)];
    var allocs := [Alloc("d1", "b", Panelist)];
    var ids := DebatesIn(debates, ["r"]);
    assert "d1" in ids by { assert debates[0] in debates; }
    assert Seqs.First(judges, (j: Judge) => j.number == 1) == Some(judges[0]);
    assert judges[1] in judges;
    assert Seqs.First(allocs, (a: Alloc) => a.debate in ids && exists j :: j in judges && j.number == 1 && j.id == a.judge) == Some(allocs[0]);
    assert Seqs.First(debates, (d: Debate) => d.round in ["r"] && d.number == 2) == Some(debates[1]);
    assert Seqs.First(judges, (j: Judge) => j.number == 1 && j.tournament == "t2") == Some(judges[1]);
    assert Seqs.First(allocs, (a: Alloc) => a.judge == "b" && a.debate in ids) == Some(allocs[0]);
    var drop := (a: Alloc) => !(a.debate == "d1" && a.judge == "b");
    assert Seqs.Filter(allocs, drop) == [] by {
      Seqs.FilterNone(allocs, drop);
    }
  }

  // -------------------------------------------------- change_judge_role

  /** The table after setting the status of every (judge, debate) row to the role. */
  function SetRole(allocs: seq<Alloc>, judgeId: string, debateId: string, role: Role): (r: seq<Alloc>)
    ensures |r| == |allocs|
    ensures forall k :: 0 <= k < |r| ==>
      if allocs[k].judge == judgeId && allocs[k].debate == debateId then r[k] == allocs[k].(role := role)
      else r[k] == allocs[k]
  {
    if allocs == [] then []
    else
      var a := allocs[0];
      var rest := SetRole(allocs[1..], judgeId, debateId, role);
      [if a.judge == judgeId && a.debate == debateId then a.(role := role) else a] + rest
  }

  /**
   * change_judge_role: refuse a caller who is not a superuser, then one
   * UPDATE of the status of the (judge, debate) rows and a redirect.
   * Neither the judge nor the debate is checked against the tournament or
   * the rounds.
   */
  method ChangeJudgeRole(db: DrawDb, isSuperuser: bool, judgeId: string, debateId: string, role: string,
                         rounds: seq<string>) returns (resp: Response, notices: seq<string>)
    modifies db
    ensures db.judges == old(db.judges) && db.rooms == old(db.rooms) && db.debates == old(db.debates)
    ensures !isSuperuser ==> resp == Unauthorized && db.allocs == old(db.allocs) && notices == []
    ensures isSuperuser ==> db.allocs == SetRole(old(db.allocs), judgeId, debateId, RoleOfForm(role))
    ensures isSuperuser ==> resp == SeeOther && notices == rounds
  {
    if !isSuperuser {
      return Unauthorized, [];
    }
    db.allocs := SetRole(db.allocs, judgeId, debateId, RoleOfForm(role));
    resp, notices := SeeOther, rounds;
  }

  /** Changing the role twice keeps only the second change. */
  lemma {:induction false} SetRoleTwice(allocs: seq<Alloc>, judgeId: string, debateId: string, r1: Role, r2: Role)
    ensures SetRole(SetRole(allocs, judgeId, debateId, r1), judgeId, debateId, r2) == SetRole(allocs, judgeId, debateId, r2)
  {
    if allocs != [] {
      SetRoleTwice(allocs[1..], judgeId, debateId, r1, r2);
    }
  }
}
