/**
 * A stable insertion sort by a caller-supplied comparison, used wherever the
 * source sorts a vector (team totals, standings, aggregated scores).
 */
module Sorting {
  /** `le` is total and transitive, as the orderings passed to sort_by are. */
  ghost predicate IsTotalPreorder<T(!new)>(le: (T, T) -> bool)
  {
    (forall a, b :: le(a, b) || le(b, a)) &&
    (forall a, b, c :: le(a, b) && le(b, c) ==> le(a, c))
  }

  ghost predicate SortedBy<T>(s: seq<T>, le: (T, T) -> bool)
  {
    forall i, j :: 0 <= i < j < |s| ==> le(s[i], s[j])
  }

  /** Inserts x before the first element it precedes (so equal elements keep their order). */
  function Insert<T(!new)>(x: T, s: seq<T>, le: (T, T) -> bool): (r: seq<T>)
    requires IsTotalPreorder(le) && SortedBy(s, le)
    ensures SortedBy(r, le)
    ensures multiset(r) == multiset(s) + multiset{x}
    ensures |r| == |s| + 1
  {
    if s == [] then [x]
    else if le(x, s[0]) then
      assert forall k :: 0 <= k < |s| ==> le(x, s[k]) by {
        forall k | 0 <= k < |s| ensures le(x, s[k]) {
          if k > 0 { assert le(s[0], s[k]); }
        }
      }
      [x] + s
    else
      var rest := Insert(x, s[1..], le);
      assert le(s[0], x);
      assert forall k :: 0 <= k < |rest| ==> le(s[0], rest[k]) by {
        forall k | 0 <= k < |rest| ensures le(s[0], rest[k]) {
          assert rest[k] in multiset(rest);
          if rest[k] != x {
            assert rest[k] in multiset(s[1..]);
            var j :| 0 <= j < |s[1..]| && s[1..][j] == rest[k];
            assert le(s[0], s[1 + j]);
          }
        }
      }
      assert s == [s[0]] + s[1..];
      [s[0]] + rest
  }

  /** Sorts s by le, keeping equal elements in their input order. */
  function Sort<T(!new)>(s: seq<T>, le: (T, T) -> bool): (r: seq<T>)
    requires IsTotalPreorder(le)
    ensures SortedBy(r, le)
    ensures multiset(r) == multiset(s)
    ensures |r| == |s|
  {
    if s == [] then []
    else
      assert s == [s[0]] + s[1..];
      Insert(s[0], Sort(s[1..], le), le)
  }

  /** The elements of s that le ranks level with e, in their order in s. */
  function Ties<T>(s: seq<T>, le: (T, T) -> bool, e: T): seq<T>
  {
    if s == [] then []
    else (if le(s[0], e) && le(e, s[0]) then [s[0]] else []) + Ties(s[1..], le, e)
  }

  /** Inserting x adds it in front of the elements level with it and leaves the other ties alone. */
  lemma {:induction false} InsertTies<T(!new)>(x: T, s: seq<T>, le: (T, T) -> bool, e: T)
    requires IsTotalPreorder(le) && SortedBy(s, le)
    ensures Ties(Insert(x, s, le), le, e) == (if le(x, e) && le(e, x) then [x] else []) + Ties(s, le, e)
  {
    if s == [] || le(x, s[0]) {
      InsertFront(x, s, le);
      TiesCons(x, s, le, e);
    } else {
      InsertSkips(x, s, le, e);
      InsertTies(x, s[1..], le, e);
      var rest := Insert(x, s[1..], le);
      TiesCons(s[0], rest, le, e);
      assert s == [s[0]] + s[1..];
      TiesCons(s[0], s[1..], le, e);
      if le(x, e) && le(e, x) {
        assert !(le(s[0], e) && le(e, s[0]));
        assert Ties(Insert(x, s, le), le, e) == Ties(rest, le, e) == [x] + Ties(s[1..], le, e);
        assert Ties(s, le, e) == Ties(s[1..], le, e);
      } else {
        assert Ties(rest, le, e) == Ties(s[1..], le, e);
      }
    }
  }

  lemma TiesCons<T>(x: T, s: seq<T>, le: (T, T) -> bool, e: T)
    ensures Ties([x] + s, le, e) == (if le(x, e) && le(e, x) then [x] else []) + Ties(s, le, e)
  {
    assert ([x] + s)[1..] == s;
  }

  /** Before an element it precedes, or into an empty sequence, Insert puts x first. */
  lemma InsertFront<T(!new)>(x: T, s: seq<T>, le: (T, T) -> bool)
    requires IsTotalPreorder(le) && SortedBy(s, le) && (s == [] || le(x, s[0]))
    ensures Insert(x, s, le) == [x] + s
  {
  }

  /** Past an element that x does not precede, Insert keeps that element first; it is not level with e when x is. */
  lemma InsertSkips<T(!new)>(x: T, s: seq<T>, le: (T, T) -> bool, e: T)
    requires IsTotalPreorder(le) && SortedBy(s, le) && s != [] && !le(x, s[0])
    ensures SortedBy(s[1..], le)
    ensures Insert(x, s, le) == [s[0]] + Insert(x, s[1..], le)
    ensures le(x, e) && le(e, x) ==> !(le(s[0], e) && le(e, s[0]))
  {
  }

  /** The sort is stable: elements that le ranks level keep their input order. */
  lemma {:induction false} SortIsStable<T(!new)>(s: seq<T>, le: (T, T) -> bool, e: T)
    requires IsTotalPreorder(le)
    ensures Ties(Sort(s, le), le, e) == Ties(s, le, e)
  {
    if s != [] {
      SortIsStable(s[1..], le, e);
      InsertTies(s[0], Sort(s[1..], le), le, e);
    }
  }

  /** Character-wise lexicographic order, the order of Rust's String comparison. */
  predicate LexLe(a: string, b: string)
  {
    if a == [] then true
    else if b == [] then false
    else if a[0] != b[0] then a[0] < b[0]
    else LexLe(a[1..], b[1..])
  }

  lemma {:induction false} LexLeTotal(a: string, b: string)
    ensures LexLe(a, b) || LexLe(b, a)
  {
    if a != [] && b != [] && a[0] == b[0] {
      LexLeTotal(a[1..], b[1..]);
    }
  }

  lemma {:induction false} LexLeTransitive(a: string, b: string, c: string)
    requires LexLe(a, b) && LexLe(b, c)
    ensures LexLe(a, c)
  {
    if a != [] && b != [] && c != [] && a[0] == b[0] && b[0] == c[0] {
      LexLeTransitive(a[1..], b[1..], c[1..]);
    }
  }

  /** No element occurs twice. */
  predicate Distinct<T(==)>(s: seq<T>)
  {
    forall i, j :: 0 <= i < j < |s| ==> s[i] != s[j]
  }

  lemma RepeatCount<T>(s: seq<T>, i: int, j: int)
    requires 0 <= i < j < |s| && s[i] == s[j]
    ensures multiset(s)[s[i]] >= 2
  {
    assert s == s[..i] + [s[i]] + s[i + 1..j] + [s[j]] + s[j + 1..];
  }

  lemma {:induction false} DistinctCount<T>(s: seq<T>, x: T)
    requires Distinct(s)
    ensures multiset(s)[x] <= 1
  {
    if s != [] {
      var init := s[..|s| - 1];
      assert s == init + [s[|s| - 1]];
      DistinctCount(init, x);
      if x == s[|s| - 1] {
        assert x !in init;
      }
    }
  }

  /** A permutation of a sequence without repeats has none either. */
  lemma PermutationKeepsDistinct<T>(r: seq<T>, s: seq<T>)
    requires multiset(r) == multiset(s) && Distinct(s)
    ensures Distinct(r)
  {
    forall i, j | 0 <= i < j < |r| ensures r[i] != r[j] {
      if r[i] == r[j] {
        RepeatCount(r, i, j);
        DistinctCount(s, r[i]);
        assert false;
      }
    }
  }
}
