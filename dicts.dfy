/** Python dictionaries whose iteration order matters: the (key, value)
    pairs in insertion order. */
module Dicts {
  import opened Wrappers

  type Dict<K, V> = seq<(K, V)>

  /** The keys of a dict are pairwise distinct. */
  predicate DistinctKeys<K(==), V>(d: Dict<K, V>) {
    forall i, j :: 0 <= i < j < |d| ==> d[i].0 != d[j].0
  }

  /** `list(d.keys())` */
  function Keys<K, V>(d: Dict<K, V>): seq<K> {
    seq(|d|, i requires 0 <= i < |d| => d[i].0)
  }

  /** `d.get(k)`: the value stored under k, if k is a key. */
  function Get<K(==), V>(d: Dict<K, V>, k: K): (r: Option<V>)
    ensures r.Some? <==> k in Keys(d)
    ensures r.Some? ==> exists i :: 0 <= i < |d| && d[i] == (k, r.value)
    decreases |d|
  {
    if |d| == 0 then None
    else if d[0].0 == k then
      assert Keys(d)[0] == k;
      Some(d[0].1)
    else
      assert Keys(d) == [d[0].0] + Keys(d[1..]);
      var r := Get(d[1..], k);
      assert r.Some? ==> exists i :: 1 <= i < |d| && d[i] == (k, r.value) by {
        if r.Some? {
          var i :| 0 <= i < |d[1..]| && d[1..][i] == (k, r.value);
          assert d[i + 1] == (k, r.value);
        }
      }
      r
  }

  /** With distinct keys, `Get` returns the value paired with the key at any
      position. */
  lemma {:induction false} GetAt<K, V>(d: Dict<K, V>, i: nat)
    requires DistinctKeys(d) && i < |d|
    ensures Get(d, d[i].0) == Some(d[i].1)
    decreases |d|
  {
    if i > 0 {
      assert d[1..][i - 1] == d[i];
      GetAt(d[1..], i - 1);
    }
  }

  /** `GetAt` at every position at once. */
  lemma GetAtAll<K, V>(d: Dict<K, V>)
    ensures DistinctKeys(d) ==> forall i :: 0 <= i < |d| ==> Get(d, d[i].0) == Some(d[i].1)
  {
    if DistinctKeys(d) {
      forall i | 0 <= i < |d| ensures Get(d, d[i].0) == Some(d[i].1) {
        GetAt(d, i);
      }
    }
  }

  /** `list(d.keys())` after appending a pair. */
  lemma KeysAppend<K, V>(d: Dict<K, V>, x: (K, V))
    ensures Keys(d + [x]) == Keys(d) + [x.0]
  {
  }

  /** Looking a key up after appending a pair. */
  lemma {:induction false} GetAppend<K, V>(d: Dict<K, V>, x: (K, V), k: K)
    ensures Get(d + [x], k) == if k in Keys(d) then Get(d, k) else if k == x.0 then Some(x.1) else None
    decreases |d|
  {
    if |d| > 0 {
      assert (d + [x])[1..] == d[1..] + [x];
      assert Keys(d) == [d[0].0] + Keys(d[1..]);
      GetAppend(d[1..], x, k);
    } else {
      assert d + [x] == [x];
    }
  }

  // ---------------------------------------------------------------------
  // Lists built with `if x not in l: l.append(x)`

  /** Every element once, at the place it first appears. */
  function Dedup<T(==)>(xs: seq<T>): seq<T>
    decreases |xs|
  {
    if xs == [] then []
    else
      var d := Dedup(xs[..|xs| - 1]);
      if xs[|xs| - 1] in d then d else d + [xs[|xs| - 1]]
  }

  /** The first position of x in xs. */
  function IndexOf<T(==)>(xs: seq<T>, x: T): (i: nat)
    requires x in xs
    ensures i < |xs| && xs[i] == x
    ensures forall j :: 0 <= j < i ==> xs[j] != x
  {
    if xs[0] == x then 0 else 1 + IndexOf(xs[1..], x)
  }

  lemma IndexOfAppend<T>(xs: seq<T>, y: T, x: T)
    requires x in xs
    ensures x in xs + [y] && IndexOf(xs + [y], x) == IndexOf(xs, x)
  {
    var i := IndexOf(xs, x);
    assert (xs + [y])[i] == x;
    var k := IndexOf(xs + [y], x);
    assert k <= i;
    assert (xs + [y])[k] == xs[k];
  }

  /** The deduplicated list holds exactly the elements of the input. */
  lemma {:induction false} DedupElements<T>(xs: seq<T>)
    ensures forall x :: x in Dedup(xs) ==> x in xs
    ensures forall x :: x in xs ==> x in Dedup(xs)
    decreases |xs|
  {
    if xs != [] {
      var init := xs[..|xs| - 1];
      DedupElements(init);
      assert xs == init + [xs[|xs| - 1]];
    }
  }

  /** No element appears twice in the deduplicated list. */
  lemma {:induction false} DedupDistinct<T>(xs: seq<T>)
    ensures forall i, j :: 0 <= i < j < |Dedup(xs)| ==> Dedup(xs)[i] != Dedup(xs)[j]
    decreases |xs|
  {
    if xs != [] {
      DedupDistinct(xs[..|xs| - 1]);
    }
  }

  /** The deduplicated list is ordered by first appearance in the input. */
  lemma {:induction false} DedupOrder<T>(xs: seq<T>, a: nat, b: nat)
    requires a < b < |Dedup(xs)|
    ensures Dedup(xs)[a] in xs && Dedup(xs)[b] in xs
    ensures IndexOf(xs, Dedup(xs)[a]) < IndexOf(xs, Dedup(xs)[b])
    decreases |xs|
  {
    var init, y := xs[..|xs| - 1], xs[|xs| - 1];
    assert xs == init + [y];
    var d := Dedup(init);
    DedupElements(init);
    DedupElements(xs);
    assert Dedup(xs) == if y in d then d else d + [y];
    assert a < |d|;
    IndexOfAppend(init, y, d[a]);
    if b < |d| {
      assert d[b] in d;
      DedupOrder(init, a, b);
      IndexOfAppend(init, y, d[b]);
    } else {
      assert Dedup(xs)[b] == y && y !in init;
      assert IndexOf(xs, y) == |init|;
    }
  }
}
