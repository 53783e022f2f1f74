/** Containers that several parts of the crawler share: optional values, the insertion-ordered
    map of JavaScript, and the stable sort its arrays use. */
module Prelude {

  datatype Option<+T> = None | Some(value: T)

  /** True when no two positions of the sequence carry the same key. */
  ghost predicate DistinctBy<T(!new), K(!new)>(xs: seq<T>, key: T -> K) {
    forall i, j :: 0 <= i < j < |xs| ==> key(xs[i]) != key(xs[j])
  }

  ghost function KeysOf<T(!new), K(!new)>(xs: seq<T>, key: T -> K): set<K> {
    set x | x in xs :: key(x)
  }

  lemma DistinctAppend<T(!new), K(!new)>(xs: seq<T>, x: T, key: T -> K)
    requires DistinctBy(xs, key) && key(x) !in KeysOf(xs, key)
    ensures DistinctBy(xs + [x], key)
    ensures KeysOf(xs + [x], key) == KeysOf(xs, key) + {key(x)}
  {
    forall i, j | 0 <= i < j < |xs| + 1
      ensures key((xs + [x])[i]) != key((xs + [x])[j])
    {
      if j == |xs| {
        assert xs[i] in xs;
      }
    }
    assert forall y :: y in xs + [x] <==> y in xs || y == x;
  }

  lemma DistinctConcat<T(!new), K(!new)>(xs: seq<T>, ys: seq<T>, key: T -> K)
    requires DistinctBy(xs, key) && DistinctBy(ys, key) && KeysOf(xs, key) !! KeysOf(ys, key)
    ensures DistinctBy(xs + ys, key)
    ensures KeysOf(xs + ys, key) == KeysOf(xs, key) + KeysOf(ys, key)
  {
    forall i, j | 0 <= i < j < |xs| + |ys|
      ensures key((xs + ys)[i]) != key((xs + ys)[j])
    {
      if j < |xs| {
        assert key(xs[i]) != key(xs[j]);
      } else if i < |xs| {
        assert xs[i] in xs && ys[j - |xs|] in ys;
        assert key(xs[i]) in KeysOf(xs, key) && key(ys[j - |xs|]) in KeysOf(ys, key);
      } else {
        assert key(ys[i - |xs|]) != key(ys[j - |xs|]);
      }
    }
    assert forall y :: y in xs + ys <==> y in xs || y in ys;
  }

  lemma DistinctSplit<T(!new), K(!new)>(xs: seq<T>, n: nat, key: T -> K)
    requires n <= |xs| && DistinctBy(xs, key)
    ensures DistinctBy(xs[..n], key) && DistinctBy(xs[n..], key)
    ensures KeysOf(xs[..n], key) !! KeysOf(xs[n..], key)
    ensures KeysOf(xs, key) == KeysOf(xs[..n], key) + KeysOf(xs[n..], key)
  {
    var a, b := xs[..n], xs[n..];
    assert xs == a + b;
    assert forall i :: 0 <= i < |b| ==> b[i] == xs[n + i];
    forall k | k in KeysOf(a, key)
      ensures k !in KeysOf(b, key)
    {
      var i :| 0 <= i < |a| && key(a[i]) == k;
      forall j | 0 <= j < |b| ensures key(b[j]) != k {
        assert key(xs[i]) != key(xs[n + j]);
      }
    }
    assert forall y :: y in xs <==> y in a || y in b;
  }

  lemma DistinctLast<T(!new), K(!new)>(xs: seq<T>, key: T -> K)
    requires |xs| > 0 && DistinctBy(xs, key)
    ensures xs == xs[..|xs| - 1] + [xs[|xs| - 1]]
    ensures DistinctBy(xs[..|xs| - 1], key)
    ensures key(xs[|xs| - 1]) !in KeysOf(xs[..|xs| - 1], key)
    ensures KeysOf(xs, key) == KeysOf(xs[..|xs| - 1], key) + {key(xs[|xs| - 1])}
  {
    DistinctSplit(xs, |xs| - 1, key);
    assert xs[|xs| - 1..] == [xs[|xs| - 1]];
    assert KeysOf([xs[|xs| - 1]], key) == {key(xs[|xs| - 1])};
  }

  function RemoveAt<T>(xs: seq<T>, i: nat): (r: seq<T>)
    requires i < |xs|
    ensures |r| == |xs| - 1
  {
    xs[..i] + xs[i + 1..]
  }

  lemma DistinctRemove<T(!new), K(!new)>(xs: seq<T>, i: nat, key: T -> K)
    requires i < |xs| && DistinctBy(xs, key)
    ensures DistinctBy(RemoveAt(xs, i), key)
    ensures KeysOf(RemoveAt(xs, i), key) == KeysOf(xs, key) - {key(xs[i])}
  {
    var r := RemoveAt(xs, i);
    assert forall k :: 0 <= k < |r| ==> r[k] == xs[if k < i then k else k + 1];
    forall k | k in KeysOf(xs, key) && k != key(xs[i])
      ensures k in KeysOf(r, key)
    {
      var n :| 0 <= n < |xs| && key(xs[n]) == k;
      assert r[if n < i then n else n - 1] == xs[n];
    }
    forall k | k in KeysOf(r, key)
      ensures k in KeysOf(xs, key) && k != key(xs[i])
    {
      var n :| 0 <= n < |r| && key(r[n]) == k;
      assert r[n] == xs[if n < i then n else n + 1];
    }
  }

  lemma {:induction false} DistinctSize<T(!new)>(xs: seq<T>)
    requires forall i, j :: 0 <= i < j < |xs| ==> xs[i] != xs[j]
    ensures |set x | x in xs| == |xs|
  {
    if |xs| > 0 {
      var front, last := xs[..|xs| - 1], xs[|xs| - 1];
      DistinctSize(front);
      assert xs == front + [last];
      assert (set x | x in xs) == (set x | x in front) + {last};
    }
  }

  /** Those elements that are to be kept, in their order. */
  function Filtered<T>(xs: seq<T>, keep: T -> bool): seq<T> {
    if |xs| == 0 then [] else
      Filtered(xs[..|xs| - 1], keep) + if keep(xs[|xs| - 1]) then [xs[|xs| - 1]] else []
  }

  // ---------------------------------------------------------------------------------------
  // Stable sorting, as Array.prototype.sort performs it

  /** Put x behind every element of the sorted sequence that must not follow it. */
  function InsertStable<T(!new,==)>(xs: seq<T>, x: T, before: (T, T) -> bool): (r: seq<T>)
    ensures |r| == |xs| + 1
    ensures forall y :: y in r <==> y in xs || y == x
  {
    if |xs| == 0 || !before(x, xs[|xs| - 1]) then
      xs + [x]
    else
      var last := xs[|xs| - 1];
      assert xs == xs[..|xs| - 1] + [last];
      InsertStable(xs[..|xs| - 1], x, before) + [last]
  }

  function StableSort<T(!new,==)>(xs: seq<T>, before: (T, T) -> bool): (r: seq<T>)
    ensures |r| == |xs|
    ensures forall y :: y in r <==> y in xs
  {
    if |xs| == 0 then
      []
    else
      assert xs == xs[..|xs| - 1] + [xs[|xs| - 1]];
      InsertStable(StableSort(xs[..|xs| - 1], before), xs[|xs| - 1], before)
  }

  lemma {:induction false} InsertPermutes<T(!new)>(xs: seq<T>, x: T, before: (T, T) -> bool)
    ensures multiset(InsertStable(xs, x, before)) == multiset(xs) + multiset{x}
  {
    if |xs| > 0 && before(x, xs[|xs| - 1]) {
      assert xs == xs[..|xs| - 1] + [xs[|xs| - 1]];
      InsertPermutes(xs[..|xs| - 1], x, before);
    }
  }

  lemma {:induction false} SortPermutes<T(!new)>(xs: seq<T>, before: (T, T) -> bool)
    ensures multiset(StableSort(xs, before)) == multiset(xs)
  {
    if |xs| > 0 {
      assert xs == xs[..|xs| - 1] + [xs[|xs| - 1]];
      SortPermutes(xs[..|xs| - 1], before);
      InsertPermutes(StableSort(xs[..|xs| - 1], before), xs[|xs| - 1], before);
    }
  }

  ghost predicate SortedBy<T(!new)>(xs: seq<T>, before: (T, T) -> bool) {
    forall i, j :: 0 <= i < j < |xs| ==> !before(xs[j], xs[i])
  }

  /** A comparator induces a strict weak order: what Array.prototype.sort demands of it. */
  ghost predicate StrictWeak<T(!new)>(before: (T, T) -> bool) {
    && (forall x :: !before(x, x))
    && (forall x, y, z :: before(x, y) && before(y, z) ==> before(x, z))
    && (forall x, y, z :: !before(x, y) && !before(y, z) ==> !before(x, z))
  }

  lemma {:induction false} InsertSorted<T(!new)>(xs: seq<T>, x: T, before: (T, T) -> bool)
    requires StrictWeak(before) && SortedBy(xs, before)
    ensures SortedBy(InsertStable(xs, x, before), before)
  {
    if |xs| == 0 {
    } else if !before(x, xs[|xs| - 1]) {
      var last := xs[|xs| - 1];
      forall i | 0 <= i < |xs|
        ensures !before(x, xs[i])
      {
        assert i < |xs| - 1 ==> !before(last, xs[i]);
      }
    } else {
      var front, last := xs[..|xs| - 1], xs[|xs| - 1];
      InsertSorted(front, x, before);
      var r := InsertStable(front, x, before);
      forall i | 0 <= i < |r|
        ensures !before(last, r[i])
      {
        assert r[i] in front || r[i] == x;
        if r[i] in front {
          var k :| 0 <= k < |front| && front[k] == r[i];
          assert xs[k] == r[i];
        }
      }
    }
  }

  lemma {:induction false} StableSortSorted<T(!new)>(xs: seq<T>, before: (T, T) -> bool)
    requires StrictWeak(before)
    ensures SortedBy(StableSort(xs, before), before)
  {
    if |xs| > 0 {
      StableSortSorted(xs[..|xs| - 1], before);
      InsertSorted(StableSort(xs[..|xs| - 1], before), xs[|xs| - 1], before);
    }
  }

  lemma InsertBehind<T(!new)>(xs: seq<T>, x: T, before: (T, T) -> bool)
    requires |xs| == 0 || !before(x, xs[|xs| - 1])
    ensures InsertStable(xs, x, before) == xs + [x]
  {
  }

  lemma FrontIsSorted<T(!new)>(xs: seq<T>, before: (T, T) -> bool)
    requires |xs| > 0 && SortedBy(xs, before)
    ensures SortedBy(xs[..|xs| - 1], before)
    ensures |xs| > 1 ==> !before(xs[|xs| - 1], xs[..|xs| - 1][|xs| - 2])
  {
    assert |xs| > 1 ==> !before(xs[|xs| - 1], xs[|xs| - 2]);
  }

  /** Sorting what is sorted already moves nothing. */
  lemma {:induction false} SortOfSorted<T(!new)>(xs: seq<T>, before: (T, T) -> bool)
    requires SortedBy(xs, before)
    ensures StableSort(xs, before) == xs
  {
    if |xs| > 0 {
      var front, last := xs[..|xs| - 1], xs[|xs| - 1];
      FrontIsSorted(xs, before);
      SortOfSorted(front, before);
      InsertBehind(front, last, before);
      assert xs == front + [last];
    }
  }

  lemma {:induction false} InsertDistinct<T(!new), K(!new)>(xs: seq<T>, x: T, before: (T, T) -> bool, key: T -> K)
    requires DistinctBy(xs, key) && key(x) !in KeysOf(xs, key)
    ensures DistinctBy(InsertStable(xs, x, before), key)
    ensures KeysOf(InsertStable(xs, x, before), key) == KeysOf(xs, key) + {key(x)}
  {
    if |xs| == 0 || !before(x, xs[|xs| - 1]) {
      DistinctAppend(xs, x, key);
    } else {
      var front, last := xs[..|xs| - 1], xs[|xs| - 1];
      assert xs == front + [last];
      assert forall y :: y in front ==> y in xs;
      forall k | k in KeysOf(front, key) ensures k in KeysOf(xs, key) && k != key(last) {
        var n :| 0 <= n < |front| && key(front[n]) == k;
        assert xs[n] == front[n];
      }
      InsertDistinct(front, x, before, key);
      assert last in xs;
      DistinctAppend(InsertStable(front, x, before), last, key);
      forall k | k in KeysOf(xs, key)
        ensures k in KeysOf(front, key) + {key(last)}
      {
        var n :| 0 <= n < |xs| && key(xs[n]) == k;
        assert n < |front| ==> front[n] == xs[n];
      }
    }
  }

  lemma {:induction false} SortDistinct<T(!new), K(!new)>(xs: seq<T>, before: (T, T) -> bool, key: T -> K)
    requires DistinctBy(xs, key)
    ensures DistinctBy(StableSort(xs, before), key)
    ensures KeysOf(StableSort(xs, before), key) == KeysOf(xs, key)
  {
    if |xs| > 0 {
      var front, last := xs[..|xs| - 1], xs[|xs| - 1];
      assert xs == front + [last];
      assert forall k :: 0 <= k < |front| ==> front[k] == xs[k];
      SortDistinct(front, before, key);
      forall k | k in KeysOf(front, key) ensures k != key(last) {
        var n :| 0 <= n < |front| && key(front[n]) == k;
        assert xs[n] == front[n];
      }
      InsertDistinct(StableSort(front, before), last, before, key);
    }
  }

  // ---------------------------------------------------------------------------------------
  // The Map of JavaScript: iteration follows the order in which keys were first set

  datatype OrderedMap<K(==,!new), V> = OrderedMap(keys: seq<K>, entries: map<K, V>) {

    ghost predicate Valid() {
      && (forall i, j :: 0 <= i < j < |keys| ==> keys[i] != keys[j])
      && (forall k :: k in keys <==> k in entries)
    }

    function Get(k: K): Option<V> {
      if k in entries then Some(entries[k]) else None
    }

    /** Setting a key that is present keeps its place in the iteration order. */
    function Set(k: K, v: V): (m: OrderedMap<K, V>)
      ensures Valid() ==> m.Valid()
    {
      OrderedMap(if k in entries then keys else keys + [k], entries[k := v])
    }

    function Delete(k: K): (m: OrderedMap<K, V>)
      requires Valid()
      ensures m.Valid() && m.entries == entries - {k}
    {
      if k !in entries then this else
        RemovedKey(keys, IndexOf(keys, k));
        OrderedMap(RemoveAt(keys, IndexOf(keys, k)), entries - {k})
    }

    function Values(): (vs: seq<V>)
      requires Valid()
      ensures |vs| == |keys|
      ensures forall i :: 0 <= i < |vs| ==> vs[i] == entries[keys[i]]
    {
      seq(|keys|, i requires 0 <= i < |keys| => assert keys[i] in keys; entries[keys[i]])
    }
  }

  lemma RemovedKey<K(!new)>(keys: seq<K>, i: nat)
    requires i < |keys| && forall a, b :: 0 <= a < b < |keys| ==> keys[a] != keys[b]
    ensures var r := RemoveAt(keys, i);
            && (forall a, b :: 0 <= a < b < |r| ==> r[a] != r[b])
            && (forall k :: k in r <==> k in keys && k != keys[i])
  {
    var identity := (k: K) => k;
    DistinctRemove(keys, i, identity);
    var r := RemoveAt(keys, i);
    forall a, b | 0 <= a < b < |r| ensures r[a] != r[b] {
      assert identity(r[a]) != identity(r[b]);
    }
    forall k ensures k in r <==> k in keys && k != keys[i] {
      assert k in r <==> identity(k) in KeysOf(r, identity);
      assert k in keys <==> identity(k) in KeysOf(keys, identity);
    }
  }

  function IndexOf<K(==)>(keys: seq<K>, k: K): (i: nat)
    requires k in keys
    ensures i < |keys| && keys[i] == k
  {
    if keys[0] == k then 0 else 1 + IndexOf(keys[1..], k)
  }

  function EmptyMap<K(==,!new), V>(): (m: OrderedMap<K, V>)
    ensures m.Valid()
  {
    OrderedMap([], map[])
  }
}
