/**
 * Room-category constraints of speakers and judges
 * (src/tournaments/participants/manage/constraints.rs): each participant has
 * a list of preferred room categories ordered by `pref`; the handlers move
 * an entry up or down, add one at the end and remove one, renumbering the
 * list 1..n after a move or a removal.
 */
module Constraints {
  import opened Wrappers
  import opened Http
  import Sorting

  datatype ParticipantType = Speaker | Judge

  /** ParticipantType::from_str: the singular or plural name of the participant kind. */
  function ParticipantTypeOf(s: string): (r: Option<ParticipantType>)
    ensures r == Some(Speaker) <==> s == "speaker" || s == "speakers"
    ensures r == Some(Judge) <==> s == "judge" || s == "judges"
  {
    if s == "speaker" || s == "speakers" then Some(Speaker)
    else if s == "judge" || s == "judges" then Some(Judge)
    else None
  }

  /** ParticipantType::as_str: the singular name used in the handlers' URLs. */
  function Name(p: ParticipantType): string
  {
    match p
    case Speaker => "speaker"
    case Judge => "judge"
  }

  /** Parsing a path segment and naming the result gives the singular form of the segment, which parses back to the same kind. */
  lemma NameOfParsedIsSingular(s: string)
    requires ParticipantTypeOf(s).Some?
    ensures s == Name(ParticipantTypeOf(s).value) || s == Name(ParticipantTypeOf(s).value) + "s"
    ensures ParticipantTypeOf(Name(ParticipantTypeOf(s).value)) == ParticipantTypeOf(s)
  {
    var p := ParticipantTypeOf(s).value;
    assert p == Speaker || p == Judge;
  }

  /** A row of speaker_room_constraints or judge_room_constraints. */
  datatype Constraint = Constraint(id: string, participant: string, category: string, pref: int)

  /** The two constraint tables. */
  class ConstraintDb {
    var speakerRows: seq<Constraint>
    var judgeRows: seq<Constraint>

    constructor ()
      ensures speakerRows == [] && judgeRows == []
    {
      speakerRows := [];
      judgeRows := [];
    }

    function RowsFor(p: ParticipantType): seq<Constraint>
      reads this
    {
      if p == Speaker then speakerRows else judgeRows
    }
  }

  // ------------------------------------------------------------- the list

  /** The rows of one participant, in table order. */
  function RowsOf(rows: seq<Constraint>, participant: string): (r: seq<Constraint>)
    ensures forall c :: c in r <==> c in rows && c.participant == participant
    ensures |r| <= |rows|
  {
    if rows == [] then []
    else
      assert rows == [rows[0]] + rows[1..];
      (if rows[0].participant == participant then [rows[0]] else []) + RowsOf(rows[1..], participant)
  }

  function ByPref(): (le: (Constraint, Constraint) -> bool)
  {
    (a: Constraint, b: Constraint) => a.pref <= b.pref
  }

  lemma ByPrefIsTotalPreorder()
    ensures Sorting.IsTotalPreorder(ByPref())
  {
  }

  /** The participant's constraints ordered by ascending pref (ties in table order). */
  function ListOf(rows: seq<Constraint>, participant: string): (r: seq<Constraint>)
    ensures multiset(r) == multiset(RowsOf(rows, participant))
    ensures forall i, j :: 0 <= i < j < |r| ==> r[i].pref <= r[j].pref
  {
    ByPrefIsTotalPreorder();
    var r := Sorting.Sort(RowsOf(rows, participant), ByPref());
    assert Sorting.SortedBy(r, ByPref());
    r
  }

  function Ids(list: seq<Constraint>): (r: seq<string>)
    ensures |r| == |list| && forall i :: 0 <= i < |list| ==> r[i] == list[i].id
  {
    seq(|list|, i requires 0 <= i < |list| => list[i].id)
  }

  /** The index of the first entry of the category (Iterator::position). */
  function PositionOf(list: seq<Constraint>, category: string): (r: Option<nat>)
    ensures r.None? <==> forall i :: 0 <= i < |list| ==> list[i].category != category
    ensures r.Some? ==> (r.value < |list| && list[r.value].category == category &&
      forall i :: 0 <= i < r.value ==> list[i].category != category)
  {
    if list == [] then None
    else if list[0].category == category then Some(0)
    else match PositionOf(list[1..], category)
      case None => None
      case Some(k) => Some(k + 1)
  }

  // --------------------------------------------------------- renumbering

  /** The last index at which x occurs in s. */
  function LastIndexOf(s: seq<string>, x: string): (r: nat)
    requires x in s
    ensures r < |s| && s[r] == x
    ensures forall i :: r < i < |s| ==> s[i] != x
  {
    if s[|s| - 1] == x then |s| - 1
    else
      assert s == s[..|s| - 1] + [s[|s| - 1]];
      LastIndexOf(s[..|s| - 1], x)
  }

  /** One UPDATE ... SET pref = p WHERE id = ... */
  function SetPref(rows: seq<Constraint>, id: string, p: int): (r: seq<Constraint>)
    ensures |r| == |rows|
  {
    seq(|rows|, k requires 0 <= k < |rows| => if rows[k].id == id then rows[k].(pref := p) else rows[k])
  }

  /**
   * The table after setting pref i + 1 on the row of order[i] for every i in
   * turn: a row named in the order takes the place where its id was written
   * last; every other row is untouched.
   */
  function Renumbered(rows: seq<Constraint>, order: seq<string>): (r: seq<Constraint>)
    ensures |r| == |rows|
    ensures forall k :: 0 <= k < |rows| && rows[k].id !in order ==> r[k] == rows[k]
    ensures forall k :: 0 <= k < |rows| && rows[k].id in order ==>
      r[k] == rows[k].(pref := r[k].pref) && 1 <= r[k].pref <= |order| && order[r[k].pref - 1] == rows[k].id
  {
    seq(|rows|, k requires 0 <= k < |rows| =>
      if rows[k].id in order then rows[k].(pref := LastIndexOf(order, rows[k].id) + 1) else rows[k])
  }

  lemma RenumberedStep(rows: seq<Constraint>, order: seq<string>, i: nat)
    requires i < |order|
    ensures Renumbered(rows, order[..i + 1]) == SetPref(Renumbered(rows, order[..i]), order[i], i + 1)
  {
    var a := order[..i + 1];
    assert a[..i] == order[..i];
    forall x | x in order[..i] && x != order[i]
      ensures LastIndexOf(a, x) == LastIndexOf(order[..i], x)
    {
    }
  }

  /** The renumbering loop: each row of the order gets its 1-based place. */
  method Renumber(rows: seq<Constraint>, order: seq<string>) returns (r: seq<Constraint>)
    ensures r == Renumbered(rows, order)
  {
    r := rows;
    assert order[..0] == [];
    for i := 0 to |order|
      invariant r == Renumbered(rows, order[..i])
    {
      RenumberedStep(rows, order, i);
      r := SetPref(r, order[i], i + 1);
    }
    assert order[..|order|] == order;
  }

  /** With ids given once, each listed row's pref is its 1-based place in the order. */
  lemma RenumberedFollowsOrder(rows: seq<Constraint>, order: seq<string>, i: nat, k: nat)
    requires Sorting.Distinct(order)
    requires i < |order| && k < |rows| && rows[k].id == order[i]
    ensures Renumbered(rows, order)[k].pref == i + 1
  {
  }

  // -------------------------------------------------------------- moving

  /** The target index of a move: "up" and "down" by one within the list, anything else in place. */
  function Target(pos: nat, len: nat, direction: string): (r: nat)
    requires pos < len
    ensures r < len
    ensures direction == "up" && pos > 0 ==> r == pos - 1
    ensures direction == "down" && pos < len - 1 ==> r == pos + 1
    ensures !(direction == "up" && pos > 0) && !(direction == "down" && pos < len - 1) ==> r == pos
  {
    if direction == "up" && pos > 0 then pos - 1
    else if direction == "down" && pos < len - 1 then pos + 1
    else pos
  }

  /** Vec::remove at pos followed by Vec::insert at newPos. */
  function Moved<T>(list: seq<T>, pos: nat, newPos: nat): (r: seq<T>)
    requires pos < |list| && newPos < |list|
    ensures |r| == |list|
    ensures multiset(r) == multiset(list)
    ensures r[newPos] == list[pos]
  {
    var rest := list[..pos] + list[pos + 1..];
    assert list == list[..pos] + [list[pos]] + list[pos + 1..];
    assert rest == rest[..newPos] + rest[newPos..];
    assert multiset(rest) + multiset{list[pos]} == multiset(list);
    assert multiset(rest[..newPos]) + multiset(rest[newPos..]) == multiset(rest);
    rest[..newPos] + [list[pos]] + rest[newPos..]
  }

  /** Moving an entry up swaps it with its predecessor and leaves the rest in place. */
  lemma MoveUpSwaps<T>(list: seq<T>, pos: nat)
    requires 0 < pos < |list|
    ensures Moved(list, pos, pos - 1) == list[..pos - 1] + [list[pos], list[pos - 1]] + list[pos + 1..]
  {
    var rest := list[..pos] + list[pos + 1..];
    assert rest[..pos - 1] == list[..pos - 1];
    assert rest[pos - 1..] == [list[pos - 1]] + list[pos + 1..];
  }

  /** Moving an entry down swaps it with its successor and leaves the rest in place. */
  lemma MoveDownSwaps<T>(list: seq<T>, pos: nat)
    requires pos + 1 < |list|
    ensures Moved(list, pos, pos + 1) == list[..pos] + [list[pos + 1], list[pos]] + list[pos + 2..]
  {
    var rest := list[..pos] + list[pos + 1..];
    assert rest[..pos + 1] == list[..pos] + [list[pos + 1]];
    assert rest[pos + 1..] == list[pos + 2..];
  }

  /** The table after moving the category within the participant's list. */
  function MovedRows(rows: seq<Constraint>, participant: string, category: string, direction: string): (r: seq<Constraint>)
    ensures PositionOf(ListOf(rows, participant), category).None? ==> r == rows
  {
    var list := ListOf(rows, participant);
    match PositionOf(list, category)
    case None => rows
    case Some(pos) =>
      var newPos := Target(pos, |list|, direction);
      if newPos == pos then rows
      else Renumbered(rows, Ids(Moved(list, pos, newPos)))
  }

  /**
   * After a move, every row of the participant's list has as pref its
   * 1-based place in the moved list; rows named nowhere in it are untouched.
   */
  lemma MovePrefsFollowList(rows: seq<Constraint>, participant: string, category: string, direction: string, k: nat)
    requires k < |rows|
    requires PositionOf(ListOf(rows, participant), category).Some?
    ensures var list := ListOf(rows, participant);
      var pos := PositionOf(list, category).value;
      var newPos := Target(pos, |list|, direction);
      var order := Ids(Moved(list, pos, newPos));
      var r := MovedRows(rows, participant, category, direction);
      newPos != pos ==>
        (rows[k].id in order ==> 1 <= r[k].pref <= |order| && order[r[k].pref - 1] == rows[k].id) &&
        (rows[k].id !in order ==> r[k] == rows[k])
  {
    var list := ListOf(rows, participant);
    var pos := PositionOf(list, category).value;
    var newPos := Target(pos, |list|, direction);
    if newPos != pos {
      var order := Ids(Moved(list, pos, newPos));
      assert MovedRows(rows, participant, category, direction) == Renumbered(rows, order);
    }
  }

  /**
   * move_constraint: an unknown participant kind is not found, a user who is
   * not a superuser is refused; otherwise the table of that kind becomes
   * MovedRows of itself and the other table is untouched.
   */
  method MoveConstraint(db: ConstraintDb, participantType: string, participant: string, isSuperuser: bool,
                        category: string, direction: string)
    returns (resp: Response)
    modifies db
    ensures ParticipantTypeOf(participantType).None? ==> resp == NotFound
    ensures ParticipantTypeOf(participantType).Some? && !isSuperuser ==> resp == Unauthorized
    ensures !Commits(resp) ==> db.speakerRows == old(db.speakerRows) && db.judgeRows == old(db.judgeRows)
    ensures Commits(resp) ==> resp == SeeOther && ParticipantTypeOf(participantType).Some? && isSuperuser
    ensures Commits(resp) && ParticipantTypeOf(participantType) == Some(Speaker) ==>
      db.speakerRows == MovedRows(old(db.speakerRows), participant, category, direction) && db.judgeRows == old(db.judgeRows)
    ensures Commits(resp) && ParticipantTypeOf(participantType) == Some(Judge) ==>
      db.judgeRows == MovedRows(old(db.judgeRows), participant, category, direction) && db.speakerRows == old(db.speakerRows)
  {
    var ptype := ParticipantTypeOf(participantType);
    if ptype.None? {
      return NotFound;
    }
    if !isSuperuser {
      return Unauthorized;
    }
    var rows := db.RowsFor(ptype.value);
    var list := ListOf(rows, participant);
    var pos := PositionOf(list, category);
    if pos.Some? {
      var newPos := Target(pos.value, |list|, direction);
      if newPos != pos.value {
        var renumbered := Renumber(rows, Ids(Moved(list, pos.value, newPos)));
        if ptype.value == Speaker {
          db.speakerRows := renumbered;
        } else {
          db.judgeRows := renumbered;
        }
      }
    }
    resp := SeeOther;
  }

  // -------------------------------------------------------------- adding

  /** The highest pref of the participant's rows, or 0 when there are none (MAX(pref) with unwrap_or(0)). */
  function MaxPref(rows: seq<Constraint>, participant: string): (m: int)
    ensures forall k :: 0 <= k < |rows| && rows[k].participant == participant ==> rows[k].pref <= m
    ensures (forall k :: 0 <= k < |rows| ==> rows[k].participant != participant) ==> m == 0
    ensures (exists k :: 0 <= k < |rows| && rows[k].participant == participant) ==>
      exists k :: 0 <= k < |rows| && rows[k].participant == participant && rows[k].pref == m
  {
    if rows == [] then 0
    else
      var init := rows[..|rows| - 1];
      var last := rows[|rows| - 1];
      var m := MaxPref(init, participant);
      assert forall k :: 0 <= k < |init| ==> init[k] == rows[k];
      if last.participant != participant then m
      else if forall k :: 0 <= k < |init| ==> init[k].participant != participant then last.pref
      else if last.pref > m then last.pref
      else m
  }

  /** The row add_constraint inserts. */
  function NewConstraint(rows: seq<Constraint>, participant: string, category: string, id: string): (c: Constraint)
    ensures c.participant == participant && c.category == category && c.id == id
    ensures forall k :: 0 <= k < |rows| && rows[k].participant == participant ==> rows[k].pref < c.pref
    ensures (forall k :: 0 <= k < |rows| ==> rows[k].participant != participant) ==> c.pref == 1
  {
    Constraint(id, participant, category, MaxPref(rows, participant) + 1)
  }

  /**
   * add_constraint: one row is appended to the table of the kind, after
   * every preference the participant already has.
   */
  method AddConstraint(db: ConstraintDb, participantType: string, participant: string, isSuperuser: bool,
                       category: string, newId: string)
    returns (resp: Response)
    modifies db
    ensures ParticipantTypeOf(participantType).None? ==> resp == NotFound
    ensures ParticipantTypeOf(participantType).Some? && !isSuperuser ==> resp == Unauthorized
    ensures !Commits(resp) ==> db.speakerRows == old(db.speakerRows) && db.judgeRows == old(db.judgeRows)
    ensures Commits(resp) ==> resp == SeeOther && ParticipantTypeOf(participantType).Some? && isSuperuser
    ensures Commits(resp) && ParticipantTypeOf(participantType) == Some(Speaker) ==>
      db.speakerRows == old(db.speakerRows) + [NewConstraint(old(db.speakerRows), participant, category, newId)] &&
      db.judgeRows == old(db.judgeRows)
    ensures Commits(resp) && ParticipantTypeOf(participantType) == Some(Judge) ==>
      db.judgeRows == old(db.judgeRows) + [NewConstraint(old(db.judgeRows), participant, category, newId)] &&
      db.speakerRows == old(db.speakerRows)
  {
    var ptype := ParticipantTypeOf(participantType);
    if ptype.None? {
      return NotFound;
    }
    if !isSuperuser {
      return Unauthorized;
    }
    if ptype.value == Speaker {
      db.speakerRows := db.speakerRows + [NewConstraint(db.speakerRows, participant, category, newId)];
    } else {
      db.judgeRows := db.judgeRows + [NewConstraint(db.judgeRows, participant, category, newId)];
    }
    resp := SeeOther;
  }

  // ------------------------------------------------------------ removing

  /** The DELETE: rows of the participant for the category go, the rest keep their order. */
  function WithoutCategory(rows: seq<Constraint>, participant: string, category: string): (r: seq<Constraint>)
    ensures forall c :: c in r <==> c in rows && !(c.participant == participant && c.category == category)
    ensures |r| <= |rows|
  {
    if rows == [] then []
    else
      assert rows == [rows[0]] + rows[1..];
      (if rows[0].participant == participant && rows[0].category == category then [] else [rows[0]]) +
        WithoutCategory(rows[1..], participant, category)
  }

  /** The table after remove_constraint: the category deleted, the participant's remaining list renumbered in pref order. */
  function RemovedRows(rows: seq<Constraint>, participant: string, category: string): seq<Constraint>
  {
    var kept := WithoutCategory(rows, participant, category);
    Renumbered(kept, Ids(ListOf(kept, participant)))
  }

  /** After a removal the participant has no constraint on the category, and no other row is lost. */
  lemma RemovedCategoryIsGone(rows: seq<Constraint>, participant: string, category: string)
    ensures var r := RemovedRows(rows, participant, category);
      (forall k :: 0 <= k < |r| ==> !(r[k].participant == participant && r[k].category == category)) &&
      |r| == |WithoutCategory(rows, participant, category)|
  {
    var kept := WithoutCategory(rows, participant, category);
    var r := RemovedRows(rows, participant, category);
    forall k | 0 <= k < |r| ensures !(r[k].participant == participant && r[k].category == category) {
      assert kept[k] in kept;
    }
  }

  /** A row of the participant has a place in the participant's list. */
  lemma ListedAt(rows: seq<Constraint>, participant: string, c: Constraint) returns (i: nat)
    requires c in rows && c.participant == participant
    ensures i < |ListOf(rows, participant)| && ListOf(rows, participant)[i] == c
  {
    var list := ListOf(rows, participant);
    assert c in RowsOf(rows, participant);
    assert c in multiset(list);
    i :| 0 <= i < |list| && list[i] == c;
  }

  /**
   * After a removal, every remaining row of the participant has as pref its
   * 1-based place in the remaining list ordered by the old prefs.
   */
  lemma RemovedPrefsFollowList(rows: seq<Constraint>, participant: string, category: string, k: nat)
    requires k < |WithoutCategory(rows, participant, category)|
    requires WithoutCategory(rows, participant, category)[k].participant == participant
    ensures var kept := WithoutCategory(rows, participant, category);
      var order := Ids(ListOf(kept, participant));
      var r := RemovedRows(rows, participant, category);
      1 <= r[k].pref <= |order| && order[r[k].pref - 1] == kept[k].id
  {
    var kept := WithoutCategory(rows, participant, category);
    var list := ListOf(kept, participant);
    var i := ListedAt(kept, participant, kept[k]);
    var order := Ids(list);
    assert order[i] == kept[k].id;
    assert RemovedRows(rows, participant, category) == Renumbered(kept, order);
  }

  /**
   * remove_constraint: the rows of the participant for the category are
   * deleted from the table of the kind and the participant's remaining
   * constraints are renumbered 1..n.
   */
  method RemoveConstraint(db: ConstraintDb, participantType: string, participant: string, isSuperuser: bool, category: string)
    returns (resp: Response)
    modifies db
    ensures ParticipantTypeOf(participantType).None? ==> resp == NotFound
    ensures ParticipantTypeOf(participantType).Some? && !isSuperuser ==> resp == Unauthorized
    ensures !Commits(resp) ==> db.speakerRows == old(db.speakerRows) && db.judgeRows == old(db.judgeRows)
    ensures Commits(resp) ==> resp == SeeOther && ParticipantTypeOf(participantType).Some? && isSuperuser
    ensures Commits(resp) && ParticipantTypeOf(participantType) == Some(Speaker) ==>
      db.speakerRows == RemovedRows(old(db.speakerRows), participant, category) && db.judgeRows == old(db.judgeRows)
    ensures Commits(resp) && ParticipantTypeOf(participantType) == Some(Judge) ==>
      db.judgeRows == RemovedRows(old(db.judgeRows), participant, category) && db.speakerRows == old(db.speakerRows)
  {
    var ptype := ParticipantTypeOf(participantType);
    if ptype.None? {
      return NotFound;
    }
    if !isSuperuser {
      return Unauthorized;
    }
    var kept := WithoutCategory(db.RowsFor(ptype.value), participant, category);
    var renumbered := Renumber(kept, Ids(ListOf(kept, participant)));
    if ptype.value == Speaker {
      db.speakerRows := renumbered;
    } else {
      db.judgeRows := renumbered;
    }
    resp := SeeOther;
  }

  // ------------------------------------------------------------ viewing

  /** The categories offered for adding: those of the tournament the participant has no constraint on. */
  function AvailableCategories(all: seq<string>, rows: seq<Constraint>, participant: string): (r: seq<string>)
    ensures forall c :: c in r <==> c in all && forall k :: 0 <= k < |rows| && rows[k].participant == participant ==> rows[k].category != c
    ensures |r| <= |all|
  {
    if all == [] then []
    else
      var init := AvailableCategories(all[..|all| - 1], rows, participant);
      var last := all[|all| - 1];
      assert all == all[..|all| - 1] + [last];
      if exists k :: 0 <= k < |rows| && rows[k].participant == participant && rows[k].category == last then init
      else init + [last]
  }
}
