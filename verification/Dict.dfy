/** Python dicts with `int` keys as the modelled code uses them: the entries
    in insertion order, each key at most once. */
module Dict {
  import opened Wrappers
  import Ordering

  type Dict<V> = seq<(int, V)>

  /** The keys, in insertion order. */
  function Keys<V>(d: Dict<V>): (r: seq<int>)
    ensures |r| == |d|
    ensures forall i :: 0 <= i < |d| ==> r[i] == d[i].0
  {
    if |d| == 0 then [] else [d[0].0] + Keys(d[1..])
  }

  /** The values, in insertion order. */
  function Values<V>(d: Dict<V>): (r: seq<V>)
    ensures |r| == |d|
    ensures forall i :: 0 <= i < |d| ==> r[i] == d[i].1
  {
    if |d| == 0 then [] else [d[0].1] + Values(d[1..])
  }

  /** No key occurs twice. */
  predicate Wf<V>(d: Dict<V>) {
    forall i, j :: 0 <= i < j < |d| ==> d[i].0 != d[j].0
  }

  /** `k in d`. */
  predicate HasKey<V>(d: Dict<V>, k: int) {
    exists i :: 0 <= i < |d| && d[i].0 == k
  }

  /** Where the entry for `k` sits, or -1. */
  function IndexOf<V>(d: Dict<V>, k: int): (r: int)
    ensures -1 <= r < |d|
    ensures r >= 0 ==> d[r].0 == k && forall j :: 0 <= j < r ==> d[j].0 != k
    ensures r < 0 ==> forall j :: 0 <= j < |d| ==> d[j].0 != k
  {
    if |d| == 0 then -1
    else if d[0].0 == k then 0
    else
      var j := IndexOf(d[1..], k);
      if j < 0 then -1 else j + 1
  }

  /** Lookups depend on the keys alone. */
  lemma {:induction false} SameKeysIndexOf<V, W>(a: Dict<V>, b: Dict<W>, k: int)
    requires |a| == |b| && forall i :: 0 <= i < |a| ==> a[i].0 == b[i].0
    ensures IndexOf(a, k) == IndexOf(b, k)
  {
    if |a| > 0 && a[0].0 != k {
      SameKeysIndexOf(a[1..], b[1..], k);
    }
  }

  /** `d[k]`, `None` where Python raises `KeyError`. */
  function Get<V>(d: Dict<V>, k: int): (r: Option<V>)
    ensures r.Some? <==> HasKey(d, k)
  {
    var i := IndexOf(d, k);
    if i < 0 then None else Some(d[i].1)
  }

  /** In a dict with distinct keys, each entry is what its key reads. */
  lemma GetAt<V>(d: Dict<V>, i: nat)
    requires Wf(d) && i < |d|
    ensures Get(d, d[i].0) == Some(d[i].1)
  {
    assert IndexOf(d, d[i].0) == i;
  }

  /** A key other than the first is looked up in the rest. */
  lemma GetTail<V>(d: Dict<V>, k: int)
    requires |d| > 0 && d[0].0 != k
    ensures Get(d, k) == Get(d[1..], k)
  {
  }

  /** A key of the rest of a dict with distinct keys is not its first key. */
  lemma TailKeyIsNotFirst<V>(d: Dict<V>, k: int)
    requires Wf(d) && |d| > 0 && HasKey(d[1..], k)
    ensures k != d[0].0 && Wf(d[1..])
  {
    var i :| 0 <= i < |d| - 1 && d[1..][i].0 == k;
    assert d[i + 1].0 == k;
  }

  /** `d[k] = v`: an existing entry keeps its place and takes the new value;
      a new key goes at the end. */
  function Put<V>(d: Dict<V>, k: int, v: V): (r: Dict<V>)
    ensures |r| == if HasKey(d, k) then |d| else |d| + 1
  {
    var i := IndexOf(d, k);
    if i < 0 then d + [(k, v)] else d[i := (k, v)]
  }

  /** What was written is what is read back. */
  lemma PutGet<V>(d: Dict<V>, k: int, v: V)
    ensures Get(Put(d, k, v), k) == Some(v)
  {
    var i := IndexOf(d, k);
    var r := Put(d, k, v);
    if i < 0 {
      assert r[|d|] == (k, v);
      assert IndexOf(r, k) == |d|;
    } else {
      assert r[i].0 == k;
      assert forall j :: 0 <= j < i ==> r[j] == d[j];
      assert IndexOf(r, k) == i;
    }
  }

  /** Every other key reads as before. */
  lemma PutOther<V>(d: Dict<V>, k: int, v: V, k': int)
    requires k' != k
    ensures Get(Put(d, k, v), k') == Get(d, k')
  {
    var r := Put(d, k, v);
    var j := IndexOf(d, k');
    var j' := IndexOf(r, k');
    if j >= 0 {
      assert r[j] == d[j];
      assert forall x :: 0 <= x < j ==> r[x].0 == d[x].0;
      assert j' == j;
    } else {
      assert forall x :: 0 <= x < |r| ==> r[x].0 != k';
    }
  }

  /** The keys stay in place; a new key is appended. */
  lemma PutKeys<V>(d: Dict<V>, k: int, v: V)
    ensures HasKey(d, k) ==> Keys(Put(d, k, v)) == Keys(d)
    ensures !HasKey(d, k) ==> Keys(Put(d, k, v)) == Keys(d) + [k]
  {
  }

  /** Writing keeps the keys distinct. */
  lemma PutWf<V>(d: Dict<V>, k: int, v: V)
    requires Wf(d)
    ensures Wf(Put(d, k, v))
  {
    PutKeys(d, k, v);
    var r := Put(d, k, v);
    forall i, j | 0 <= i < j < |r|
      ensures r[i].0 != r[j].0
    {
      assert Keys(r)[i] == r[i].0 && Keys(r)[j] == r[j].0;
    }
  }

  /** `sorted(d.items())` for distinct keys: the keys in ascending order. */
  function SortedKeys<V>(d: Dict<V>): (r: seq<int>)
    ensures |r| == |d|
    ensures multiset(r) == multiset(Keys(d))
  {
    Ordering.SortBy(Ordering.IntLe(), Keys(d))
  }

  /** The sorted keys are each key once, strictly ascending. */
  lemma SortedKeysAscending<V>(d: Dict<V>)
    requires Wf(d)
    ensures forall i, j :: 0 <= i < j < |d| ==> SortedKeys(d)[i] < SortedKeys(d)[j]
    ensures forall k :: k in SortedKeys(d) <==> HasKey(d, k)
  {
    var r := SortedKeys(d);
    Ordering.SortBySorted(Ordering.IntLe(), Keys(d));
    KeysDistinct(d);
    DistinctPermutation(Keys(d), r);
    Ordering.SortedDistinct(r);
    forall k
      ensures k in r <==> HasKey(d, k)
    {
      assert k in r <==> k in multiset(r);
      assert k in Keys(d) <==> k in multiset(Keys(d));
      if HasKey(d, k) {
        var i :| 0 <= i < |d| && d[i].0 == k;
        assert Keys(d)[i] == k;
      }
    }
  }

  lemma KeysDistinct<V>(d: Dict<V>)
    requires Wf(d)
    ensures forall i, j :: 0 <= i < j < |d| ==> Keys(d)[i] != Keys(d)[j]
  {
  }

  /** A rearrangement of distinct elements has distinct elements. */
  lemma DistinctPermutation<T>(a: seq<T>, b: seq<T>)
    requires multiset(a) == multiset(b)
    requires forall i, j :: 0 <= i < j < |a| ==> a[i] != a[j]
    ensures forall i, j :: 0 <= i < j < |b| ==> b[i] != b[j]
  {
    forall x
      ensures multiset(a)[x] <= 1
    {
      CountDistinct(a, x);
    }
    forall i, j | 0 <= i < j < |b|
      ensures b[i] != b[j]
    {
      if b[i] == b[j] {
        CountTwo(b, i, j);
      }
    }
  }

  lemma {:induction false} CountDistinct<T>(a: seq<T>, x: T)
    requires forall i, j :: 0 <= i < j < |a| ==> a[i] != a[j]
    ensures multiset(a)[x] <= 1
  {
    if |a| > 0 {
      assert a == [a[0]] + a[1..];
      CountDistinct(a[1..], x);
      if a[0] == x {
        assert x !in a[1..] by {
          forall k | 0 <= k < |a| - 1
            ensures a[1..][k] != x
          {
            assert a[1..][k] == a[k + 1];
          }
        }
      }
    }
  }

  lemma CountTwo<T>(b: seq<T>, i: nat, j: nat)
    requires i < j < |b| && b[i] == b[j]
    ensures multiset(b)[b[i]] >= 2
  {
    var x := b[i];
    assert b == b[..j] + [b[j]] + b[j + 1..];
    assert b[..j] == b[..i] + [b[i]] + b[i + 1..j];
    assert multiset(b)[x] >= multiset(b[..j])[x] + 1;
    assert multiset(b[..j])[x] >= 1;
  }

  // ---------------------------------------------------------------------------
  // Dicts of dicts: `{disc: {track: value}}`

  /** Every inner dict, and the outer one, has distinct keys. */
  predicate Wf2<V>(ds: Dict<Dict<V>>) {
    Wf(ds) && forall i :: 0 <= i < |ds| ==> Wf(ds[i].1)
  }

  /** `ds[d][t]`, `None` where either lookup raises `KeyError`. */
  function Get2<V>(ds: Dict<Dict<V>>, d: int, t: int): (r: Option<V>)
    ensures r.Some? ==> HasKey(ds, d)
  {
    match Get(ds, d)
    case None => None
    case Some(ts) => Get(ts, t)
  }

  /** `{k: f(v) for k, v in d.items()}`: the same keys in the same order. */
  function MapValues<V, W>(d: Dict<V>, f: V -> W): (r: Dict<W>)
    ensures |r| == |d|
    ensures forall i :: 0 <= i < |d| ==> r[i] == (d[i].0, f(d[i].1))
  {
    seq(|d|, i requires 0 <= i < |d| => (d[i].0, f(d[i].1)))
  }

  lemma MapValuesGet<V, W>(d: Dict<V>, f: V -> W, k: int)
    ensures Get(MapValues(d, f), k).None? <==> Get(d, k).None?
    ensures Get(d, k).Some? ==> Get(MapValues(d, f), k) == Some(f(Get(d, k).value))
  {
    SameKeysIndexOf(MapValues(d, f), d, k);
  }

  /** `f` applied to every inner value. */
  function MapValues2<V, W>(ds: Dict<Dict<V>>, f: V -> W): (r: Dict<Dict<W>>)
    ensures |r| == |ds|
    ensures forall i :: 0 <= i < |ds| ==> r[i] == (ds[i].0, MapValues(ds[i].1, f))
  {
    seq(|ds|, i requires 0 <= i < |ds| => (ds[i].0, MapValues(ds[i].1, f)))
  }

  lemma MapValues2Get<V, W>(ds: Dict<Dict<V>>, f: V -> W, d: int, t: int)
    ensures Get2(MapValues2(ds, f), d, t).None? <==> Get2(ds, d, t).None?
    ensures Get2(ds, d, t).Some? ==> Get2(MapValues2(ds, f), d, t) == Some(f(Get2(ds, d, t).value))
  {
    var r := MapValues2(ds, f);
    SameKeysIndexOf(r, ds, d);
    var i := IndexOf(ds, d);
    if i >= 0 {
      assert Get(r, d) == Some(MapValues(ds[i].1, f));
      MapValuesGet(ds[i].1, f, t);
    }
  }

  /** `[(d, t, v) for t, v in ts.items()]`. */
  function Inner<V>(d: int, ts: Dict<V>): (r: seq<(int, int, V)>)
    ensures |r| == |ts|
    ensures forall i :: 0 <= i < |ts| ==> r[i] == (d, ts[i].0, ts[i].1)
  {
    seq(|ts|, i requires 0 <= i < |ts| => (d, ts[i].0, ts[i].1))
  }

  /** `for d, ts in ds.items(): for t, v in ts.items()`: the entries, outer key
      first, in iteration order. */
  function Flatten<V>(ds: Dict<Dict<V>>): (r: seq<(int, int, V)>) {
    if |ds| == 0 then [] else Inner(ds[0].0, ds[0].1) + Flatten(ds[1..])
  }

  /** `sum(len(ts) for ts in ds.values())`. */
  function Size2<V>(ds: Dict<Dict<V>>): nat {
    if |ds| == 0 then 0 else |ds[0].1| + Size2(ds[1..])
  }

  /** Where the pair (d, t) heads an entry of `items`. */
  predicate Lists<V>(items: seq<(int, int, V)>, d: int, t: int) {
    exists i :: 0 <= i < |items| && items[i].0 == d && items[i].1 == t
  }

  /** The flattened entries are the nested lookups: each entry reads back,
      no pair of keys comes twice, and every pair that reads is listed. */
  lemma FlattenExact<V>(ds: Dict<Dict<V>>)
    requires Wf2(ds)
    ensures |Flatten(ds)| == Size2(ds)
    ensures forall i :: 0 <= i < |Flatten(ds)| ==>
      Get2(ds, Flatten(ds)[i].0, Flatten(ds)[i].1) == Some(Flatten(ds)[i].2)
    ensures forall i, j :: 0 <= i < j < |Flatten(ds)| ==>
      (Flatten(ds)[i].0, Flatten(ds)[i].1) != (Flatten(ds)[j].0, Flatten(ds)[j].1)
    ensures forall d, t :: Get2(ds, d, t).Some? ==> Lists(Flatten(ds), d, t)
  {
    FlattenSize(ds);
    FlattenReads(ds);
    FlattenDistinct(ds);
    FlattenComplete(ds);
  }

  lemma {:induction false} FlattenSize<V>(ds: Dict<Dict<V>>)
    ensures |Flatten(ds)| == Size2(ds)
  {
    if |ds| > 0 {
      FlattenSize(ds[1..]);
    }
  }

  lemma RestWf2<V>(ds: Dict<Dict<V>>)
    requires Wf2(ds) && |ds| > 0
    ensures Wf2(ds[1..])
  {
    var rest := ds[1..];
    forall i | 0 <= i < |rest|
      ensures Wf(rest[i].1)
    {
      assert rest[i] == ds[i + 1];
    }
  }

  /** An entry read in the later discs reads the same in the whole dict, under
      an outer key that is not the first. */
  lemma RestGet2<V>(ds: Dict<Dict<V>>, d: int, t: int)
    requires Wf2(ds) && |ds| > 0 && Get2(ds[1..], d, t).Some?
    ensures d != ds[0].0 && Get2(ds, d, t) == Get2(ds[1..], d, t)
  {
    TailKeyIsNotFirst(ds, d);
    GetTail(ds, d);
  }

  lemma {:induction false} FlattenReads<V>(ds: Dict<Dict<V>>)
    requires Wf2(ds)
    ensures forall i :: 0 <= i < |Flatten(ds)| ==>
      Get2(ds, Flatten(ds)[i].0, Flatten(ds)[i].1) == Some(Flatten(ds)[i].2)
  {
    if |ds| > 0 {
      var ts := ds[0].1;
      var head := Inner(ds[0].0, ts);
      RestWf2(ds);
      FlattenReads(ds[1..]);
      var tail := Flatten(ds[1..]);
      var items := head + tail;
      assert Get(ds, ds[0].0) == Some(ts);
      forall i | 0 <= i < |items|
        ensures Get2(ds, items[i].0, items[i].1) == Some(items[i].2)
      {
        if i < |head| {
          GetAt(ts, i);
        } else {
          var e := tail[i - |head|];
          assert items[i] == e;
          RestGet2(ds, e.0, e.1);
        }
      }
    }
  }

  /** Entries of the later discs never carry the first outer key. */
  lemma FlattenRestKeys<V>(ds: Dict<Dict<V>>)
    requires Wf2(ds) && |ds| > 0
    ensures forall i :: 0 <= i < |Flatten(ds[1..])| ==> Flatten(ds[1..])[i].0 != ds[0].0
  {
    var tail := Flatten(ds[1..]);
    RestWf2(ds);
    FlattenReads(ds[1..]);
    forall i | 0 <= i < |tail|
      ensures tail[i].0 != ds[0].0
    {
      RestGet2(ds, tail[i].0, tail[i].1);
    }
  }

  lemma {:induction false} FlattenDistinct<V>(ds: Dict<Dict<V>>)
    requires Wf2(ds)
    ensures forall i, j :: 0 <= i < j < |Flatten(ds)| ==>
      (Flatten(ds)[i].0, Flatten(ds)[i].1) != (Flatten(ds)[j].0, Flatten(ds)[j].1)
  {
    if |ds| > 0 {
      var ts := ds[0].1;
      var head := Inner(ds[0].0, ts);
      RestWf2(ds);
      FlattenDistinct(ds[1..]);
      FlattenRestKeys(ds);
      var tail := Flatten(ds[1..]);
      var items := head + tail;
      forall i, j | 0 <= i < j < |items|
        ensures (items[i].0, items[i].1) != (items[j].0, items[j].1)
      {
        if j < |head| {
          assert items[i].1 == ts[i].0 && items[j].1 == ts[j].0;
        } else if i >= |head| {
          assert items[i] == tail[i - |head|] && items[j] == tail[j - |head|];
        } else {
          assert items[j] == tail[j - |head|];
        }
      }
    }
  }

  lemma {:induction false} FlattenComplete<V>(ds: Dict<Dict<V>>)
    requires Wf2(ds)
    ensures forall d, t :: Get2(ds, d, t).Some? ==> Lists(Flatten(ds), d, t)
  {
    if |ds| > 0 {
      var d0 := ds[0].0;
      var ts := ds[0].1;
      var head := Inner(d0, ts);
      RestWf2(ds);
      FlattenComplete(ds[1..]);
      var tail := Flatten(ds[1..]);
      var items := head + tail;
      forall d, t | Get2(ds, d, t).Some?
        ensures Lists(items, d, t)
      {
        if d == d0 {
          assert Get(ds, d0) == Some(ts);
          var k := IndexOf(ts, t);
          assert items[k].0 == d && items[k].1 == t;
        } else {
          GetTail(ds, d);
          assert Lists(tail, d, t);
          var i :| 0 <= i < |tail| && tail[i].0 == d && tail[i].1 == t;
          assert items[|head| + i] == tail[i];
        }
      }
    }
  }
}
