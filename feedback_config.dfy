/**
 * The feedback question configuration of a tournament
 * (src/tournaments/feedback/manage/config.rs): questions are kept in `seq`
 * order; a new question goes after the last, and moving a question up or
 * down swaps its `seq` with that of its nearest neighbour.
 */
module FeedbackConfig {
  import opened Wrappers
  import opened Http

  datatype QuestionKind = IntegerScale(min: int, max: int) | Text | Boolean

  /** The kind field of the add form. */
  function ParseKind(s: string): (r: Option<QuestionKind>)
    ensures r == Some(IntegerScale(1, 10)) <==> s == "score"
    ensures r == Some(Text) <==> s == "text"
    ensures r == Some(Boolean) <==> s == "bool"
    ensures r.None? <==> s != "score" && s != "text" && s != "bool"
  {
    match s
    case "score" => Some(IntegerScale(1, 10))
    case "text" => Some(Text)
    case "bool" => Some(Boolean)
    case _ => None
  }

  /** serde_json's encoding of a kind, as stored in the kind column. */
  function KindJson(k: QuestionKind): string
  {
    match k
    case IntegerScale(_, _) => "{\"IntegerScale\":{\"min\":1,\"max\":10}}"
    case Text => "\"Text\""
    case Boolean => "\"Boolean\""
  }

  const InvalidKind := "Error: invalid question kind."
  const UnwrapNotFound := "called `Result::unwrap()` on an `Err` value: NotFound"

  /** A row of feedback_questions. */
  datatype Question = Question(id: string, tournament: string, question: string, kind: string, seqNo: int,
                               forJudges: bool, forTeams: bool)

  class QuestionTable {
    var rows: seq<Question>

    constructor ()
      ensures rows == []
    {
      rows := [];
    }
  }

  /** Ids are the primary key: no two rows share one. */
  predicate UniqueIds(rows: seq<Question>)
  {
    forall i, j :: 0 <= i < j < |rows| ==> rows[i].id != rows[j].id
  }

  function SeqNos(rows: seq<Question>): (r: seq<int>)
    ensures |r| == |rows| && forall k :: 0 <= k < |rows| ==> r[k] == rows[k].seqNo
  {
    seq(|rows|, k requires 0 <= k < |rows| => rows[k].seqNo)
  }

  // ---------------------------------------------------------------- adding

  /** MAX(seq) over the tournament's questions, or 0 when it has none. */
  function MaxSeq(rows: seq<Question>, tournament: string): (m: int)
    ensures forall k :: 0 <= k < |rows| && rows[k].tournament == tournament ==> rows[k].seqNo <= m
    ensures (forall k :: 0 <= k < |rows| ==> rows[k].tournament != tournament) ==> m == 0
    ensures (exists k :: 0 <= k < |rows| && rows[k].tournament == tournament) ==>
      exists k :: 0 <= k < |rows| && rows[k].tournament == tournament && rows[k].seqNo == m
  {
    if rows == [] then 0
    else
      var init := rows[..|rows| - 1];
      var last := rows[|rows| - 1];
      var m := MaxSeq(init, tournament);
      assert forall k :: 0 <= k < |init| ==> init[k] == rows[k];
      if last.tournament != tournament then m
      else if forall k :: 0 <= k < |init| ==> init[k].tournament != tournament then last.seqNo
      else if last.seqNo > m then last.seqNo
      else m
  }

  /** The row add_feedback_question inserts for a parsed kind. */
  function NewQuestion(rows: seq<Question>, tournament: string, id: string, question: string, kind: QuestionKind,
                       forJudges: bool, forTeams: bool)
    : (q: Question)
    ensures q.tournament == tournament && q.kind == KindJson(kind)
    ensures forall k :: 0 <= k < |rows| && rows[k].tournament == tournament ==> rows[k].seqNo < q.seqNo
    ensures (forall k :: 0 <= k < |rows| ==> rows[k].tournament != tournament) ==> q.seqNo == 1
  {
    Question(id, tournament, question, KindJson(kind), MaxSeq(rows, tournament) + 1, forJudges, forTeams)
  }

  /**
   * add_feedback_question: an unknown kind is a bad request and changes
   * nothing; otherwise the question is appended after the tournament's
   * last one.
   */
  method AddQuestion(table: QuestionTable, tournament: string, isSuperuser: bool, id: string, question: string, kind: string,
                     forJudges: bool, forTeams: bool)
    returns (resp: Response)
    modifies table
    ensures !isSuperuser ==> resp == Unauthorized && table.rows == old(table.rows)
    ensures isSuperuser && ParseKind(kind).None? ==> resp == BadRequest(InvalidKind) && table.rows == old(table.rows)
    ensures isSuperuser && ParseKind(kind).Some? ==> (resp == SeeOther &&
      table.rows == old(table.rows) + [NewQuestion(old(table.rows), tournament, id, question, ParseKind(kind).value, forJudges, forTeams)])
  {
    if !isSuperuser {
      return Unauthorized;
    }
    var k := ParseKind(kind);
    if k.None? {
      return BadRequest(InvalidKind);
    }
    table.rows := table.rows + [NewQuestion(table.rows, tournament, id, question, k.value, forJudges, forTeams)];
    resp := SeeOther;
  }

  // --------------------------------------------------- editing and deleting

  /** The UPDATE of edit_feedback_question: the row with the id takes the form's text, kind and seq. */
  function Edited(rows: seq<Question>, id: string, question: string, kind: string, seqNo: int): (r: seq<Question>)
    ensures |r| == |rows|
    ensures forall k :: 0 <= k < |rows| && rows[k].id != id ==> r[k] == rows[k]
    ensures forall k :: 0 <= k < |rows| && rows[k].id == id ==> r[k] == rows[k].(question := question, kind := kind, seqNo := seqNo)
  {
    seq(|rows|, k requires 0 <= k < |rows| =>
      if rows[k].id == id then rows[k].(question := question, kind := kind, seqNo := seqNo) else rows[k])
  }

  method EditQuestion(table: QuestionTable, isSuperuser: bool, id: string, question: string, kind: string, seqNo: int)
    returns (resp: Response)
    modifies table
    ensures !isSuperuser ==> resp == Unauthorized && table.rows == old(table.rows)
    ensures isSuperuser ==> resp == SeeOther && table.rows == Edited(old(table.rows), id, question, kind, seqNo)
  {
    if !isSuperuser {
      return Unauthorized;
    }
    table.rows := Edited(table.rows, id, question, kind, seqNo);
    resp := SeeOther;
  }

  /** The DELETE of delete_feedback_question: the row with the id goes, the others stay in order. */
  function Deleted(rows: seq<Question>, id: string): (r: seq<Question>)
    ensures forall q :: q in r <==> q in rows && q.id != id
    ensures |r| <= |rows|
  {
    if rows == [] then []
    else
      var init := Deleted(rows[..|rows| - 1], id);
      var last := rows[|rows| - 1];
      assert rows == rows[..|rows| - 1] + [last];
      if last.id == id then init else init + [last]
  }

  /** Deleting an id no row has changes nothing; with unique ids, deleting one drops exactly one row. */
  lemma {:induction false} DeleteCount(rows: seq<Question>, id: string)
    ensures FindById(rows, id).None? ==> Deleted(rows, id) == rows
    ensures UniqueIds(rows) && FindById(rows, id).Some? ==> |Deleted(rows, id)| == |rows| - 1
  {
    if rows != [] {
      var init := rows[..|rows| - 1];
      assert forall k :: 0 <= k < |init| ==> init[k] == rows[k];
      DeleteCount(init, id);
      if UniqueIds(rows) && rows[|rows| - 1].id == id {
        assert FindById(init, id).None?;
      }
    }
  }

  method DeleteQuestion(table: QuestionTable, isSuperuser: bool, id: string) returns (resp: Response)
    modifies table
    ensures !isSuperuser ==> resp == Unauthorized && table.rows == old(table.rows)
    ensures isSuperuser ==> resp == SeeOther && table.rows == Deleted(old(table.rows), id)
  {
    if !isSuperuser {
      return Unauthorized;
    }
    table.rows := Deleted(table.rows, id);
    resp := SeeOther;
  }

  // ---------------------------------------------------------------- moving

  /** The row found by primary key (table.find(id).first()). */
  function FindById(rows: seq<Question>, id: string): (r: Option<nat>)
    ensures r.None? <==> forall k :: 0 <= k < |rows| ==> rows[k].id != id
    ensures r.Some? ==> r.value < |rows| && rows[r.value].id == id
  {
    if rows == [] then None
    else if rows[|rows| - 1].id == id then Some(|rows| - 1)
    else FindById(rows[..|rows| - 1], id)
  }

  /** The tournament's question with the greatest seq below s (the first of them in table order). */
  function Previous(rows: seq<Question>, tournament: string, s: int): (r: Option<nat>)
    ensures r.None? <==> forall k :: 0 <= k < |rows| ==> !(rows[k].tournament == tournament && rows[k].seqNo < s)
    ensures r.Some? ==> r.value < |rows| && rows[r.value].tournament == tournament && rows[r.value].seqNo < s
    ensures r.Some? ==> forall k :: 0 <= k < |rows| && rows[k].tournament == tournament && rows[k].seqNo < s ==>
      rows[k].seqNo <= rows[r.value].seqNo
  {
    if rows == [] then None
    else
      var rest := Previous(rows[1..], tournament, s);
      assert forall k :: 1 <= k < |rows| ==> rows[k] == rows[1..][k - 1];
      if !(rows[0].tournament == tournament && rows[0].seqNo < s) then (if rest.None? then None else Some(rest.value + 1))
      else if rest.Some? && rows[1..][rest.value].seqNo > rows[0].seqNo then Some(rest.value + 1)
      else Some(0)
  }

  /** The tournament's question with the least seq above s (the first of them in table order). */
  function Next(rows: seq<Question>, tournament: string, s: int): (r: Option<nat>)
    ensures r.None? <==> forall k :: 0 <= k < |rows| ==> !(rows[k].tournament == tournament && rows[k].seqNo > s)
    ensures r.Some? ==> r.value < |rows| && rows[r.value].tournament == tournament && rows[r.value].seqNo > s
    ensures r.Some? ==> forall k :: 0 <= k < |rows| && rows[k].tournament == tournament && rows[k].seqNo > s ==>
      rows[r.value].seqNo <= rows[k].seqNo
  {
    if rows == [] then None
    else
      var rest := Next(rows[1..], tournament, s);
      assert forall k :: 1 <= k < |rows| ==> rows[k] == rows[1..][k - 1];
      if !(rows[0].tournament == tournament && rows[0].seqNo > s) then (if rest.None? then None else Some(rest.value + 1))
      else if rest.Some? && rows[1..][rest.value].seqNo < rows[0].seqNo then Some(rest.value + 1)
      else Some(0)
  }

  /** One UPDATE ... SET seq = s WHERE id = ... */
  function SetSeq(rows: seq<Question>, id: string, s: int): (r: seq<Question>)
    ensures |r| == |rows|
    ensures forall k :: 0 <= k < |rows| ==> r[k] == if rows[k].id == id then rows[k].(seqNo := s) else rows[k]
  {
    seq(|rows|, k requires 0 <= k < |rows| => if rows[k].id == id then rows[k].(seqNo := s) else rows[k])
  }

  /** The two updates of a move: the current question takes the neighbour's seq, then the neighbour the current one's. */
  function Swapped(rows: seq<Question>, a: nat, b: nat): (r: seq<Question>)
    requires a < |rows| && b < |rows|
  {
    SetSeq(SetSeq(rows, rows[a].id, rows[b].seqNo), rows[b].id, rows[a].seqNo)
  }

  /** With unique ids, the two updates exchange the seqs of the two rows and touch nothing else. */
  lemma SwappedExchanges(rows: seq<Question>, a: nat, b: nat)
    requires UniqueIds(rows) && a < |rows| && b < |rows| && a != b
    ensures Swapped(rows, a, b) == rows[a := rows[a].(seqNo := rows[b].seqNo)][b := rows[b].(seqNo := rows[a].seqNo)]
  {
  }

  /** A move keeps the multiset of seqs. */
  lemma SwapKeepsSeqNos(rows: seq<Question>, a: nat, b: nat)
    requires UniqueIds(rows) && a < |rows| && b < |rows| && a != b
    ensures multiset(SeqNos(Swapped(rows, a, b))) == multiset(SeqNos(rows))
    ensures UniqueIds(Swapped(rows, a, b))
  {
    SwappedExchanges(rows, a, b);
    var s := SeqNos(rows);
    assert SeqNos(Swapped(rows, a, b)) == s[a := s[b]][b := s[a]];
  }

  /** The table after move_feedback_question_up, or None when the question's id is unknown (the unwrap panics). */
  function MovedUp(rows: seq<Question>, tournament: string, id: string): (r: Option<seq<Question>>)
    ensures r.None? <==> FindById(rows, id).None?
  {
    match FindById(rows, id)
    case None => None
    case Some(cur) =>
      match Previous(rows, tournament, rows[cur].seqNo)
      case None => Some(rows)
      case Some(prev) => Some(Swapped(rows, cur, prev))
  }

  /** The table after move_feedback_question_down, or None when the question's id is unknown. */
  function MovedDown(rows: seq<Question>, tournament: string, id: string): (r: Option<seq<Question>>)
    ensures r.None? <==> FindById(rows, id).None?
  {
    match FindById(rows, id)
    case None => None
    case Some(cur) =>
      match Next(rows, tournament, rows[cur].seqNo)
      case None => Some(rows)
      case Some(next) => Some(Swapped(rows, cur, next))
  }

  /**
   * Moving up gives the question the greatest seq below its own and the
   * question that had it the old seq; with none below, nothing changes;
   * either way the multiset of seqs is kept.
   */
  lemma MoveUpSwapsWithNearest(rows: seq<Question>, tournament: string, id: string)
    requires UniqueIds(rows) && FindById(rows, id).Some?
    ensures var cur := FindById(rows, id).value;
      var r := MovedUp(rows, tournament, id).value;
      multiset(SeqNos(r)) == multiset(SeqNos(rows)) && UniqueIds(r) &&
      (Previous(rows, tournament, rows[cur].seqNo).None? ==> r == rows) &&
      (Previous(rows, tournament, rows[cur].seqNo).Some? ==>
        var prev := Previous(rows, tournament, rows[cur].seqNo).value;
        r[cur].seqNo == rows[prev].seqNo < rows[cur].seqNo && r[prev].seqNo == rows[cur].seqNo &&
        forall k :: 0 <= k < |rows| && k != cur && k != prev ==> r[k] == rows[k])
  {
    var cur := FindById(rows, id).value;
    var p := Previous(rows, tournament, rows[cur].seqNo);
    if p.Some? {
      SwapKeepsSeqNos(rows, cur, p.value);
      SwappedExchanges(rows, cur, p.value);
    }
  }

  /**
   * Moving down gives the question the least seq above its own and the
   * question that had it the old seq; with none above, nothing changes;
   * either way the multiset of seqs is kept.
   */
  lemma MoveDownSwapsWithNearest(rows: seq<Question>, tournament: string, id: string)
    requires UniqueIds(rows) && FindById(rows, id).Some?
    ensures var cur := FindById(rows, id).value;
      var r := MovedDown(rows, tournament, id).value;
      multiset(SeqNos(r)) == multiset(SeqNos(rows)) && UniqueIds(r) &&
      (Next(rows, tournament, rows[cur].seqNo).None? ==> r == rows) &&
      (Next(rows, tournament, rows[cur].seqNo).Some? ==>
        var next := Next(rows, tournament, rows[cur].seqNo).value;
        r[cur].seqNo == rows[next].seqNo > rows[cur].seqNo && r[next].seqNo == rows[cur].seqNo &&
        forall k :: 0 <= k < |rows| && k != cur && k != next ==> r[k] == rows[k])
  {
    var cur := FindById(rows, id).value;
    var n := Next(rows, tournament, rows[cur].seqNo);
    if n.Some? {
      SwapKeepsSeqNos(rows, cur, n.value);
      SwappedExchanges(rows, cur, n.value);
    }
  }

  /** move_feedback_question_up: an unknown id panics at the unwrap and nothing is committed. */
  method MoveQuestionUp(table: QuestionTable, tournament: string, isSuperuser: bool, id: string) returns (resp: Response)
    modifies table
    ensures !isSuperuser ==> resp == Unauthorized && table.rows == old(table.rows)
    ensures isSuperuser && MovedUp(old(table.rows), tournament, id).None? ==>
      resp == Panic(UnwrapNotFound) && table.rows == old(table.rows)
    ensures isSuperuser && MovedUp(old(table.rows), tournament, id).Some? ==>
      resp == SeeOther && table.rows == MovedUp(old(table.rows), tournament, id).value
  {
    if !isSuperuser {
      return Unauthorized;
    }
    var cur := FindById(table.rows, id);
    if cur.None? {
      return Panic(UnwrapNotFound);
    }
    var current := table.rows[cur.value];
    var prev := Previous(table.rows, tournament, current.seqNo);
    if prev.Some? {
      var previous := table.rows[prev.value];
      table.rows := SetSeq(table.rows, current.id, previous.seqNo);
      table.rows := SetSeq(table.rows, previous.id, current.seqNo);
    }
    resp := SeeOther;
  }

  /** move_feedback_question_down: an unknown id panics at the unwrap and nothing is committed. */
  method MoveQuestionDown(table: QuestionTable, tournament: string, isSuperuser: bool, id: string) returns (resp: Response)
    modifies table
    ensures !isSuperuser ==> resp == Unauthorized && table.rows == old(table.rows)
    ensures isSuperuser && MovedDown(old(table.rows), tournament, id).None? ==>
      resp == Panic(UnwrapNotFound) && table.rows == old(table.rows)
    ensures isSuperuser && MovedDown(old(table.rows), tournament, id).Some? ==>
      resp == SeeOther && table.rows == MovedDown(old(table.rows), tournament, id).value
  {
    if !isSuperuser {
      return Unauthorized;
    }
    var cur := FindById(table.rows, id);
    if cur.None? {
      return Panic(UnwrapNotFound);
    }
    var current := table.rows[cur.value];
    var next := Next(table.rows, tournament, current.seqNo);
    if next.Some? {
      var following := table.rows[next.value];
      table.rows := SetSeq(table.rows, current.id, following.seqNo);
      table.rows := SetSeq(table.rows, following.id, current.seqNo);
    }
    resp := SeeOther;
  }
}
