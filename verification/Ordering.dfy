/** Python's ordering of strings and tuples, and the stable insertion order
    that `list.sort` and `sorted` produce. */
module Ordering {

  // ---------------------------------------------------------------------------
  // str comparison

  /** `a <= b` on `str`: code points compared from the left, and a proper
      prefix before the longer string. */
  predicate StrLe(a: string, b: string)
    decreases |a|
  {
    |a| == 0 || (|b| > 0 && (a[0] < b[0] || (a[0] == b[0] && StrLe(a[1..], b[1..]))))
  }

  lemma {:induction false} StrLeRefl(a: string)
    ensures StrLe(a, a)
    decreases |a|
  {
    if |a| > 0 {
      StrLeRefl(a[1..]);
    }
  }

  lemma {:induction false} StrLeTotal(a: string, b: string)
    ensures StrLe(a, b) || StrLe(b, a)
    decreases |a|
  {
    if |a| > 0 && |b| > 0 && a[0] == b[0] {
      StrLeTotal(a[1..], b[1..]);
    }
  }

  lemma {:induction false} StrLeTrans(a: string, b: string, c: string)
    requires StrLe(a, b) && StrLe(b, c)
    ensures StrLe(a, c)
    decreases |a|
  {
    if |a| > 0 && a[0] == b[0] && b[0] == c[0] {
      StrLeTrans(a[1..], b[1..], c[1..]);
    }
  }

  lemma {:induction false} StrLeAntisym(a: string, b: string)
    requires StrLe(a, b) && StrLe(b, a)
    ensures a == b
    decreases |a|
  {
    if |a| > 0 {
      StrLeAntisym(a[1..], b[1..]);
      assert a == [a[0]] + a[1..] && b == [b[0]] + b[1..];
    }
  }

  // ---------------------------------------------------------------------------
  // Sorting by a total preorder

  ghost predicate Total<T(!new)>(le: (T, T) -> bool) {
    forall a, b :: le(a, b) || le(b, a)
  }

  ghost predicate Transitive<T(!new)>(le: (T, T) -> bool) {
    forall a, b, c :: le(a, b) && le(b, c) ==> le(a, c)
  }

  predicate SortedBy<T>(le: (T, T) -> bool, s: seq<T>) {
    forall i, j :: 0 <= i < j < |s| ==> le(s[i], s[j])
  }

  /** `x` placed before the first element it does not exceed: ahead of the
      elements equal to it, which is what keeps the sort stable. */
  function InsertBy<T>(le: (T, T) -> bool, x: T, s: seq<T>): (r: seq<T>)
    ensures |r| == |s| + 1
    ensures multiset(r) == multiset(s) + multiset{x}
  {
    if |s| == 0 then [x]
    else if le(x, s[0]) then [x] + s
    else
      assert s == [s[0]] + s[1..];
      [s[0]] + InsertBy(le, x, s[1..])
  }

  /** Insertion sort: each element inserted, from the last to the first,
      into the sorted rest. */
  function SortBy<T>(le: (T, T) -> bool, s: seq<T>): (r: seq<T>)
    ensures |r| == |s|
    ensures multiset(r) == multiset(s)
  {
    if |s| == 0 then []
    else
      assert s == [s[0]] + s[1..];
      InsertBy(le, s[0], SortBy(le, s[1..]))
  }

  lemma {:induction false} InsertBySorted<T(!new)>(le: (T, T) -> bool, x: T, s: seq<T>)
    requires Total(le) && Transitive(le) && SortedBy(le, s)
    ensures SortedBy(le, InsertBy(le, x, s))
  {
    if |s| > 0 {
      if le(x, s[0]) {
        var r := [x] + s;
        forall i, j | 0 <= i < j < |r|
          ensures le(r[i], r[j])
        {
          if i == 0 && j > 1 {
            assert le(s[0], s[j - 1]);
          }
        }
      } else {
        assert le(s[0], x);
        var t := s[1..];
        assert SortedBy(le, t);
        InsertBySorted(le, x, t);
        var u := InsertBy(le, x, t);
        var r := [s[0]] + u;
        forall i, j | 0 <= i < j < |r|
          ensures le(r[i], r[j])
        {
          if i == 0 {
            var e := u[j - 1];
            assert e in multiset(u);
            if e != x {
              assert e in multiset(t);
              var k :| 0 <= k < |t| && t[k] == e;
              assert le(s[0], s[k + 1]);
            }
          }
        }
      }
    }
  }

  lemma {:induction false} SortBySorted<T(!new)>(le: (T, T) -> bool, s: seq<T>)
    requires Total(le) && Transitive(le)
    ensures SortedBy(le, SortBy(le, s))
  {
    if |s| > 0 {
      SortBySorted(le, s[1..]);
      InsertBySorted(le, s[0], SortBy(le, s[1..]));
    }
  }

  /** The elements of `s` that rank the same as `c`, in their order in `s`. */
  function Peers<T>(le: (T, T) -> bool, c: T, s: seq<T>): (r: seq<T>)
    ensures |r| <= |s|
    ensures forall x :: x in r ==> x in s && le(c, x) && le(x, c)
  {
    if |s| == 0 then []
    else (if le(c, s[0]) && le(s[0], c) then [s[0]] else []) + Peers(le, c, s[1..])
  }

  function PeerHead<T>(le: (T, T) -> bool, c: T, x: T): seq<T> {
    if le(c, x) && le(x, c) then [x] else []
  }

  lemma PeersCons<T>(le: (T, T) -> bool, c: T, x: T, s: seq<T>)
    ensures Peers(le, c, [x] + s) == PeerHead(le, c, x) + Peers(le, c, s)
  {
    assert ([x] + s)[0] == x && ([x] + s)[1..] == s;
  }

  /** Transitivity through `c`, all that stability needs. */
  ghost predicate ThroughPeer<T(!new)>(le: (T, T) -> bool, c: T) {
    forall a, b :: le(a, c) && le(c, b) ==> le(a, b)
  }

  /** An inserted element lands ahead of every element that ranks the same. */
  lemma {:induction false} InsertByPeers<T(!new)>(le: (T, T) -> bool, c: T, x: T, s: seq<T>)
    requires forall y :: y in s ==> (le(x, c) && le(c, y) ==> le(x, y))
    ensures Peers(le, c, InsertBy(le, x, s)) == PeerHead(le, c, x) + Peers(le, c, s)
  {
    if |s| == 0 || le(x, s[0]) {
      InsertFront(le, x, s);
      PeersCons(le, c, x, s);
    } else {
      var t := InsertBy(le, x, s[1..]);
      InsertBehind(le, x, s);
      assert forall y :: y in s[1..] ==> y in s;
      InsertByPeers(le, c, x, s[1..]);
      PeersCons(le, c, s[0], t);
      PeersUncons(le, c, s);
      assert s[0] in s;
      SwapHeads(PeerHead(le, c, s[0]), PeerHead(le, c, x), Peers(le, c, s[1..]));
    }
  }

  lemma InsertFront<T>(le: (T, T) -> bool, x: T, s: seq<T>)
    requires |s| == 0 || le(x, s[0])
    ensures InsertBy(le, x, s) == [x] + s
  {
    if |s| == 0 {
      assert [x] + s == [x];
    }
  }

  lemma InsertBehind<T>(le: (T, T) -> bool, x: T, s: seq<T>)
    requires |s| > 0 && !le(x, s[0])
    ensures InsertBy(le, x, s) == [s[0]] + InsertBy(le, x, s[1..])
  {
  }

  lemma PeersUncons<T>(le: (T, T) -> bool, c: T, s: seq<T>)
    requires |s| > 0
    ensures Peers(le, c, s) == PeerHead(le, c, s[0]) + Peers(le, c, s[1..])
  {
  }

  /** Two heads of which one is empty can be swapped. */
  lemma SwapHeads<T>(a: seq<T>, b: seq<T>, rest: seq<T>)
    requires a == [] || b == []
    ensures a + (b + rest) == b + (a + rest)
  {
    if a == [] {
      assert a + (b + rest) == b + rest == b + (a + rest);
    } else {
      assert a + (b + rest) == a + rest == b + (a + rest);
    }
  }

  /** The sort is stable: the elements that rank the same keep the order
      they came in. */
  lemma {:induction false} SortByStable<T(!new)>(le: (T, T) -> bool, c: T, s: seq<T>)
    requires Transitive(le)
    ensures Peers(le, c, SortBy(le, s)) == Peers(le, c, s)
  {
    assert ThroughPeer(le, c);
    SortByStableThrough(le, c, s);
  }

  lemma {:induction false} SortByStableThrough<T(!new)>(le: (T, T) -> bool, c: T, s: seq<T>)
    requires ThroughPeer(le, c)
    ensures Peers(le, c, SortBy(le, s)) == Peers(le, c, s)
  {
    if |s| > 0 {
      var t := SortBy(le, s[1..]);
      SortByStableThrough(le, c, s[1..]);
      InsertByPeers(le, c, s[0], t);
      PeersUncons(le, c, s);
    }
  }

  /** Sorting keeps exactly the elements it was given. */
  lemma SortByMember<T>(le: (T, T) -> bool, s: seq<T>, x: T)
    ensures x in SortBy(le, s) <==> x in s
  {
    assert x in SortBy(le, s) <==> x in multiset(SortBy(le, s));
    assert x in s <==> x in multiset(s);
  }

  /** `<=` on `int`. */
  function IntLe(): (le: (int, int) -> bool)
    ensures forall a, b :: le(a, b) <==> a <= b
    ensures Total(le) && Transitive(le)
  {
    (a: int, b: int) => a <= b
  }

  /** Distinct integers sorted ascending are strictly ascending. */
  lemma SortedDistinct(s: seq<int>)
    requires SortedBy(IntLe(), s)
    requires forall i, j :: 0 <= i < j < |s| ==> s[i] != s[j]
    ensures forall i, j :: 0 <= i < j < |s| ==> s[i] < s[j]
  {
  }

  // ---------------------------------------------------------------------------
  // Tuples (int, int, str, str), the rows of the report tables

  type Row4 = (int, int, string, string)

  predicate StrLt(a: string, b: string) {
    StrLe(a, b) && a != b
  }

  /** Python's `<=` on (int, int, str, str) tuples: field by field. */
  predicate RowLe(a: Row4, b: Row4) {
    || a.0 < b.0
    || (a.0 == b.0 && (a.1 < b.1 || (a.1 == b.1 && (StrLt(a.2, b.2) || (a.2 == b.2 && StrLe(a.3, b.3))))))
  }

  lemma StrLtTrans(a: string, b: string, c: string)
    requires StrLt(a, b) && StrLe(b, c)
    ensures StrLt(a, c)
  {
    StrLeTrans(a, b, c);
    if a == c {
      StrLeAntisym(a, b);
    }
  }

  lemma RowLeTrans(a: Row4, b: Row4, c: Row4)
    requires RowLe(a, b) && RowLe(b, c)
    ensures RowLe(a, c)
  {
    if a.0 == b.0 == c.0 && a.1 == b.1 == c.1 {
      if StrLt(a.2, b.2) {
        StrLeRefl(b.2);
        StrLtTrans(a.2, b.2, c.2);
      } else if StrLt(b.2, c.2) {
      } else {
        StrLeTrans(a.3, b.3, c.3);
      }
    }
  }

  lemma RowLeTotal(a: Row4, b: Row4)
    ensures RowLe(a, b) || RowLe(b, a)
  {
    StrLeTotal(a.2, b.2);
    StrLeTotal(a.3, b.3);
  }

  /** The tuple order as a function value, with the facts sorting needs. */
  function RowOrder(): (le: (Row4, Row4) -> bool)
    ensures forall a, b :: le(a, b) <==> RowLe(a, b)
    ensures Total(le) && Transitive(le)
  {
    var le := (a: Row4, b: Row4) => RowLe(a, b);
    forall a: Row4, b: Row4
      ensures le(a, b) || le(b, a)
    {
      RowLeTotal(a, b);
    }
    forall a: Row4, b: Row4, c: Row4 | le(a, b) && le(b, c)
      ensures le(a, c)
    {
      RowLeTrans(a, b, c);
    }
    le
  }

  /** `rows.sort()`: the same rows, in ascending tuple order. */
  function SortRows(rows: seq<Row4>): (r: seq<Row4>)
    ensures multiset(r) == multiset(rows)
    ensures forall x :: x in r <==> x in rows
    ensures forall i, j :: 0 <= i < j < |r| ==> RowLe(r[i], r[j])
  {
    var le := RowOrder();
    var r := SortBy(le, rows);
    SortBySorted(le, rows);
    forall x
      ensures x in r <==> x in rows
    {
      SortByMember(le, rows, x);
    }
    r
  }

  /** A sequence already in order is what sorting it gives back. */
  lemma {:induction false} SortedIsFixed<T>(le: (T, T) -> bool, s: seq<T>)
    requires SortedBy(le, s)
    ensures SortBy(le, s) == s
  {
    if |s| > 0 {
      assert SortedBy(le, s[1..]);
      SortedIsFixed(le, s[1..]);
      assert s == [s[0]] + s[1..];
    }
  }

  lemma StrLtTrans2(a: string, b: string, c: string)
    requires StrLt(a, b) && StrLt(b, c)
    ensures StrLt(a, c)
  {
    StrLtTrans(a, b, c);
  }

  // ---------------------------------------------------------------------------
  // Tuples (str, str, str, str), the rows of the album-file tables

  type StrRow = (string, string, string, string)

  /** Python's `<=` on (str, str, str, str) tuples. */
  predicate StrRowLe(a: StrRow, b: StrRow) {
    || StrLt(a.0, b.0)
    || (a.0 == b.0 && (StrLt(a.1, b.1) || (a.1 == b.1 && (StrLt(a.2, b.2) || (a.2 == b.2 && StrLe(a.3, b.3))))))
  }

  /** Strict order on the first fields, then `<=` on what follows, chains. */
  lemma StrRowLeTrans(a: StrRow, b: StrRow, c: StrRow)
    requires StrRowLe(a, b) && StrRowLe(b, c)
    ensures StrRowLe(a, c)
  {
    if StrLt(a.0, b.0) {
      if StrLt(b.0, c.0) { StrLtTrans2(a.0, b.0, c.0); }
    } else if StrLt(b.0, c.0) {
    } else if StrLt(a.1, b.1) {
      if StrLt(b.1, c.1) { StrLtTrans2(a.1, b.1, c.1); }
    } else if StrLt(b.1, c.1) {
    } else if StrLt(a.2, b.2) {
      if StrLt(b.2, c.2) { StrLtTrans2(a.2, b.2, c.2); }
    } else if StrLt(b.2, c.2) {
    } else {
      StrLeTrans(a.3, b.3, c.3);
    }
  }

  lemma StrLtTotal(a: string, b: string)
    ensures StrLt(a, b) || a == b || StrLt(b, a)
  {
    StrLeTotal(a, b);
  }

  lemma StrRowLeTotal(a: StrRow, b: StrRow)
    ensures StrRowLe(a, b) || StrRowLe(b, a)
  {
    StrLtTotal(a.0, b.0);
    StrLtTotal(a.1, b.1);
    StrLtTotal(a.2, b.2);
    StrLeTotal(a.3, b.3);
  }

  function StrRowOrder(): (le: (StrRow, StrRow) -> bool)
    ensures forall a, b :: le(a, b) <==> StrRowLe(a, b)
    ensures Total(le) && Transitive(le)
  {
    var le := (a: StrRow, b: StrRow) => StrRowLe(a, b);
    forall a: StrRow, b: StrRow
      ensures le(a, b) || le(b, a)
    {
      StrRowLeTotal(a, b);
    }
    forall a: StrRow, b: StrRow, c: StrRow | le(a, b) && le(b, c)
      ensures le(a, c)
    {
      StrRowLeTrans(a, b, c);
    }
    le
  }

  /** `rows.sort()` on (str, str, str, str) rows. */
  function SortStrRows(rows: seq<StrRow>): (r: seq<StrRow>)
    ensures multiset(r) == multiset(rows)
    ensures forall x :: x in r <==> x in rows
    ensures forall i, j :: 0 <= i < j < |r| ==> StrRowLe(r[i], r[j])
  {
    var le := StrRowOrder();
    var r := SortBy(le, rows);
    SortBySorted(le, rows);
    forall x
      ensures x in r <==> x in rows
    {
      SortByMember(le, rows, x);
    }
    r
  }

  // ---------------------------------------------------------------------------
  // Tuples (int, str, str), the rows of the loose-file tables

  type NumberedRow = (int, string, string)

  /** Python's `<=` on (int, str, str) tuples. */
  predicate NumberedLe(a: NumberedRow, b: NumberedRow) {
    a.0 < b.0 || (a.0 == b.0 && (StrLt(a.1, b.1) || (a.1 == b.1 && StrLe(a.2, b.2))))
  }

  function NumberedOrder(): (le: (NumberedRow, NumberedRow) -> bool)
    ensures forall a, b :: le(a, b) <==> NumberedLe(a, b)
  {
    (a: NumberedRow, b: NumberedRow) => NumberedLe(a, b)
  }

  /** `rows.sort()` on (int, str, str) rows whose first fields already
      ascend strictly: the rows as they are. */
  lemma SortNumberedAscending(rows: seq<NumberedRow>)
    requires forall i, j :: 0 <= i < j < |rows| ==> rows[i].0 < rows[j].0
    ensures SortBy(NumberedOrder(), rows) == rows
  {
    SortedIsFixed(NumberedOrder(), rows);
  }
}
