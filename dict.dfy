/**
 * Python's `dict`: a finite map that remembers the order in which its keys were
 * first inserted. Replacing the value of a present key keeps its position,
 * inserting a new key appends it, deleting a key closes the gap.
 */
module Dict {
  import opened Wrappers

  datatype RawDict<K(==), V> = RawDict(order: seq<K>, m: map<K, V>)

  predicate DistinctSeq<K(==)>(s: seq<K>)
  {
    forall i, j :: 0 <= i < j < |s| ==> s[i] != s[j]
  }

  lemma DistinctConcat<K>(a: seq<K>, b: seq<K>)
    requires DistinctSeq(a) && DistinctSeq(b)
    requires forall x | x in a :: x !in b
    ensures DistinctSeq(a + b)
  {
    forall i, j | 0 <= i < j < |a + b|
      ensures (a + b)[i] != (a + b)[j]
    {
      if j >= |a| && i < |a| {
        assert (a + b)[i] in a && (a + b)[j] in b;
      }
    }
  }

  /** A non-empty sequence is its prefix followed by its last element. */
  lemma SnocSplit<T>(s: seq<T>)
    requires |s| > 0
    ensures s == s[..|s| - 1] + [s[|s| - 1]]
  {
  }

  /** Splitting a sequence at element `i`: the prefix grows by it and the suffix starts with it. */
  lemma SliceAt<T>(s: seq<T>, i: nat)
    requires i < |s|
    ensures s[..i + 1] == s[..i] + [s[i]]
    ensures s[i..] == [s[i]] + s[i + 1..]
  {
  }

  /** The map of a key sequence grows by its last key. */
  lemma MapOfSnoc<K, V>(keys: seq<K>, m: map<K, V>)
    requires |keys| > 0 && forall i | 0 <= i < |keys| :: keys[i] in m
    ensures (map x | x in keys[..|keys| - 1] :: m[x])[keys[|keys| - 1] := m[keys[|keys| - 1]]] == map x | x in keys :: m[x]
  {
    SnocSplit(keys);
  }

  predicate WellFormed<K(==), V>(d: RawDict<K, V>)
  {
    DistinctSeq(d.order) && (forall k | k in d.m :: k in d.order) && (forall k | k in d.order :: k in d.m)
  }

  type Dict<K(==), V> = d: RawDict<K, V> | WellFormed(d) witness RawDict([], map[])

  function Empty<K(==), V>(): (r: Dict<K, V>)
    ensures r.m == map[] && r.order == []
  {
    RawDict([], map[])
  }

  function Size<K(==), V>(d: Dict<K, V>): nat { |d.order| }

  /** `d[k] = v` on a key sequence and map that need not be known to be well formed. */
  function Put<K(==), V>(d: RawDict<K, V>, k: K, v: V): (r: RawDict<K, V>)
    ensures r.m == d.m[k := v]
    ensures k in d.m ==> r.order == d.order
    ensures k !in d.m ==> r.order == d.order + [k]
    ensures WellFormed(d) ==> WellFormed(r)
  {
    if k in d.m then RawDict(d.order, d.m[k := v])
    else RawDict(d.order + [k], d.m[k := v])
  }

  /** `d[k] = v`. */
  function Set<K(==), V>(d: Dict<K, V>, k: K, v: V): (r: Dict<K, V>)
    ensures r.m == d.m[k := v]
    ensures k in d.m ==> r.order == d.order
    ensures k !in d.m ==> r.order == d.order + [k]
  {
    Put(d, k, v)
  }

  /** The key sequence without one key. */
  function RemoveFromSeq<K(==)>(s: seq<K>, k: K): (r: seq<K>)
    ensures k !in s ==> r == s
  {
    if |s| == 0 then []
    else if s[0] == k then RemoveFromSeq(s[1..], k)
    else [s[0]] + RemoveFromSeq(s[1..], k)
  }

  /** Removing `k` keeps exactly the other keys, and keeps them distinct. */
  lemma {:induction false} RemoveFromSeqMembers<K>(s: seq<K>, k: K)
    ensures forall x :: x in RemoveFromSeq(s, k) <==> x in s && x != k
    ensures DistinctSeq(s) ==> DistinctSeq(RemoveFromSeq(s, k))
    decreases |s|
  {
    if |s| > 0 {
      RemoveFromSeqMembers(s[1..], k);
      assert s == [s[0]] + s[1..];
      if s[0] != k && DistinctSeq(s) {
        assert s[0] !in s[1..];
        DistinctConcat([s[0]], RemoveFromSeq(s[1..], k));
      }
    }
  }

  /** Removing a key that occurs once, between `a` and `b`, closes the gap. */
  lemma {:induction false} RemoveMiddle<K>(a: seq<K>, k: K, b: seq<K>)
    requires k !in a && k !in b
    ensures RemoveFromSeq(a + [k] + b, k) == a + b
    decreases |a|
  {
    var s := a + [k] + b;
    if |a| == 0 {
      assert s == [k] + b;
      assert s[1..] == b;
    } else {
      var t := a[1..] + [k] + b;
      assert s == [a[0]] + t;
      assert s[0] == a[0] != k && s[1..] == t;
      RemoveMiddle(a[1..], k, b);
      assert RemoveFromSeq(s, k) == [a[0]] + RemoveFromSeq(t, k);
      HeadSplit(a, b);
    }
  }

  lemma HeadSplit<K>(a: seq<K>, b: seq<K>)
    requires |a| > 0
    ensures a + b == [a[0]] + (a[1..] + b)
  {
    assert a == [a[0]] + a[1..];
  }

  /** Removing a key that occurs once closes the gap at its position. */
  lemma RemoveCloses<K>(s: seq<K>, k: K)
    ensures DistinctSeq(s) && k in s ==>
      exists i :: 0 <= i < |s| && s[i] == k && RemoveFromSeq(s, k) == s[..i] + s[i + 1..]
  {
    if DistinctSeq(s) && k in s {
      var i :| 0 <= i < |s| && s[i] == k;
      assert s == s[..i] + [k] + s[i + 1..];
      forall j | 0 <= j < |s| && j != i
        ensures s[j] != k
      {
      }
      assert k !in s[..i] && k !in s[i + 1..];
      RemoveMiddle(s[..i], k, s[i + 1..]);
    }
  }

  /**
   * `del d[k]` for a present key, and no change for an absent one. The other
   * keys keep their relative order: the deleted key's place is closed up.
   */
  function Remove<K(==), V>(d: Dict<K, V>, k: K): (r: Dict<K, V>)
    ensures r.m == d.m - {k}
    ensures k !in d.m ==> r == d
    ensures k in d.m ==>
      exists i :: 0 <= i < |d.order| && d.order[i] == k && r.order == d.order[..i] + d.order[i + 1..]
  {
    var r := RawDict(RemoveFromSeq(d.order, k), d.m - {k});
    RemoveFromSeqMembers(d.order, k);
    RemoveCloses(d.order, k);
    assert WellFormed(r);
    r
  }

  /** `d.get(k, e)`. */
  function GetOr<K(==), V>(d: Dict<K, V>, k: K, e: V): (r: V)
    ensures k in d.m ==> r == d.m[k]
    ensures k !in d.m ==> r == e
  {
    if k in d.m then d.m[k] else e
  }

  /** `d.values()`, in key order. */
  function Values<K(==), V>(d: Dict<K, V>): (r: seq<V>)
    ensures |r| == |d.order|
    ensures forall i :: 0 <= i < |r| ==> r[i] == d.m[d.order[i]]
  {
    seq(|d.order|, i requires 0 <= i < |d.order| => d.m[d.order[i]])
  }

  /** `d.items()`, in key order. */
  function Items<K(==), V>(d: Dict<K, V>): (r: seq<(K, V)>)
    ensures |r| == |d.order|
    ensures forall i :: 0 <= i < |r| ==> r[i] == (d.order[i], d.m[d.order[i]])
  {
    seq(|d.order|, i requires 0 <= i < |d.order| => (d.order[i], d.m[d.order[i]]))
  }

  /**
   * `dict(items)`: the pairs inserted left to right, so a later pair with the
   * same key overwrites the value but not the position of an earlier one.
   */
  function FromItems<K(==), V>(items: seq<(K, V)>): (r: Dict<K, V>)
    ensures forall k | k in r.m :: exists i :: 0 <= i < |items| && items[i].0 == k
    ensures forall i | 0 <= i < |items| :: items[i].0 in r.m
    decreases |items|
  {
    if |items| == 0 then Empty()
    else
      var prev := FromItems(items[..|items| - 1]);
      var last := items[|items| - 1];
      assert forall i :: 0 <= i < |items| - 1 ==> items[..|items| - 1][i] == items[i];
      Set(prev, last.0, last.1)
  }

  /** The value a key gets from `dict(items)` is that of its last pair. */
  lemma {:induction false} FromItemsLastWins<K, V>(items: seq<(K, V)>, j: nat)
    requires j < |items|
    requires forall i :: j < i < |items| ==> items[i].0 != items[j].0
    ensures items[j].0 in FromItems(items).m && FromItems(items).m[items[j].0] == items[j].1
    decreases |items|
  {
    if j < |items| - 1 {
      var pre := items[..|items| - 1];
      assert pre[j] == items[j];
      FromItemsLastWins(pre, j);
    }
  }

  /** Each key's value in `dict(items)` comes from one of its pairs. */
  lemma {:induction false} FromItemsValue<K, V>(items: seq<(K, V)>, k: K)
    requires k in FromItems(items).m
    ensures exists i :: 0 <= i < |items| && items[i] == (k, FromItems(items).m[k])
    decreases |items|
  {
    var last := items[|items| - 1];
    var pre := items[..|items| - 1];
    if last.0 != k {
      FromItemsValue(pre, k);
      var i :| 0 <= i < |pre| && pre[i] == (k, FromItems(pre).m[k]);
      assert items[i] == pre[i];
    } else {
      assert items[|items| - 1] == (k, FromItems(items).m[k]);
    }
  }

  /** `dict(d.items())` is `d` again, keys in the same order. */
  lemma {:induction false} FromItemsOfItems<K, V>(d: Dict<K, V>)
    ensures FromItems(Items(d)) == d
  {
    var e := FromItems(Items(d));
    FromItemsOfDistinct(Items(d));
    forall j | 0 <= j < |d.order|
      ensures d.order[j] in e.m && e.m[d.order[j]] == d.m[d.order[j]]
    {
      ItemValue(d, j);
    }
    SameDict(e, d);
  }

  /** Two dicts with the same key sequence and the same value at every key are equal. */
  lemma SameDict<K, V>(e: Dict<K, V>, d: Dict<K, V>)
    requires e.order == d.order
    requires forall j | 0 <= j < |d.order| :: e.m[d.order[j]] == d.m[d.order[j]]
    ensures e == d
  {
    forall k | k in d.m
      ensures e.m[k] == d.m[k]
    {
      var j :| 0 <= j < |d.order| && d.order[j] == k;
    }
    assert e.m.Keys == d.m.Keys;
    assert e.m == d.m;
  }

  /** The `j`-th key keeps its value through `dict(d.items())`. */
  lemma ItemValue<K, V>(d: Dict<K, V>, j: nat)
    requires j < |d.order|
    ensures d.order[j] in FromItems(Items(d)).m && FromItems(Items(d)).m[d.order[j]] == d.m[d.order[j]]
  {
    var items := Items(d);
    assert items[j] == (d.order[j], d.m[d.order[j]]);
    forall i | j < i < |items|
      ensures items[i].0 != items[j].0
    {
      assert items[i].0 == d.order[i];
    }
    FromItemsLastWins(items, j);
  }

  /** The keys of a list of pairs, in order. */
  function ItemKeys<K, V>(items: seq<(K, V)>): (r: seq<K>)
    ensures |r| == |items| && forall i | 0 <= i < |items| :: r[i] == items[i].0
  {
    seq(|items|, i requires 0 <= i < |items| => items[i].0)
  }

  lemma ItemKeysSnoc<K, V>(items: seq<(K, V)>)
    requires |items| > 0
    ensures ItemKeys(items) == ItemKeys(items[..|items| - 1]) + [items[|items| - 1].0]
  {
  }

  /** The keys of `dict(items)` are the keys of the pairs. */
  lemma FromItemsKeys<K, V>(items: seq<(K, V)>, x: K)
    ensures x in FromItems(items).order <==> x in ItemKeys(items)
  {
    var d := FromItems(items);
    if x in d.order {
      assert x in d.m;
      var i :| 0 <= i < |items| && items[i].0 == x;
      assert ItemKeys(items)[i] == x;
    }
    if x in ItemKeys(items) {
      var i :| 0 <= i < |items| && ItemKeys(items)[i] == x;
      assert items[i].0 in d.m;
    }
  }

  /** With distinct keys, the last key is not yet in the dict of the pairs before it. */
  lemma LastKeyNew<K, V>(items: seq<(K, V)>)
    requires |items| > 0
    requires forall i, j | 0 <= i < j < |items| :: items[i].0 != items[j].0
    ensures items[|items| - 1].0 !in FromItems(items[..|items| - 1]).m
  {
    var pre := items[..|items| - 1];
    forall i | 0 <= i < |pre|
      ensures pre[i].0 != items[|items| - 1].0
    {
      assert pre[i] == items[i];
    }
  }

  /** `dict(items)` of pairs with distinct keys keeps the keys in order. */
  lemma {:induction false} FromItemsOfDistinct<K, V>(items: seq<(K, V)>)
    requires forall i, j | 0 <= i < j < |items| :: items[i].0 != items[j].0
    ensures FromItems(items).order == ItemKeys(items)
    decreases |items|
  {
    if |items| > 0 {
      var pre := items[..|items| - 1];
      FromItemsOfDistinct(pre);
      LastKeyNew(items);
      ItemKeysSnoc(items);
    }
  }

  /** Sum of a list of reals, left to right (`sum(xs)`). */
  function Sum(xs: seq<real>): real
  {
    if |xs| == 0 then 0.0 else Sum(xs[..|xs| - 1]) + xs[|xs| - 1]
  }

  lemma SumAppend(xs: seq<real>, x: real)
    ensures Sum(xs + [x]) == Sum(xs) + x
  {
    assert (xs + [x])[..|xs|] == xs;
  }

  lemma {:induction false} SumConcat(xs: seq<real>, ys: seq<real>)
    ensures Sum(xs + ys) == Sum(xs) + Sum(ys)
    decreases |ys|
  {
    if |ys| > 0 {
      var ys' := ys[..|ys| - 1];
      assert xs + ys == (xs + ys') + [ys[|ys| - 1]];
      SumAppend(xs + ys', ys[|ys| - 1]);
      SumConcat(xs, ys');
      assert Sum(ys) == Sum(ys') + ys[|ys| - 1];
    } else {
      assert xs + ys == xs;
    }
  }

  /** Sum of a list of naturals. */
  function NatSum(xs: seq<nat>): nat
  {
    if |xs| == 0 then 0 else NatSum(xs[..|xs| - 1]) + xs[|xs| - 1]
  }
}
