/**
 * The link-keyed store family of latencycontroller.py: `UsageStore` (a map with
 * a default whose keys are canonicalised by `_sort_pair`), the per-link view of
 * a flow ledger (`UsageStoreProxyFromFlowDict`), the view aggregating several
 * stores (`UsageStoreProxyFromCallableIterable`) and the first-match chain of
 * dicts (`DictAggregator`).
 */
module Stores {
  import opened Wrappers
  import opened NodePair
  import opened Dict

  // ---------------------------------------------------------------- UsageStore, as a value

  /** The state of a `UsageStore`: its `_pairs` dict and its `_default`. */
  datatype Store<V> = Store(pairs: Dict<Pair, V>, default: V)

  /** Every stored key is already in `_sort_pair` order. */
  predicate Canonical<V>(s: Store<V>)
  {
    forall k | k in s.pairs.m :: IsCanonical(k)
  }

  /** `store.contains((a, b))`. */
  predicate HasLink<V>(s: Store<V>, a: NodeId, b: NodeId)
  {
    SortPair(a, b) in s.pairs.m
  }

  /** `store[(a, b)]`: the value of the canonical link, or the default. */
  function Lookup<V>(s: Store<V>, a: NodeId, b: NodeId): V
  {
    GetOr(s.pairs, SortPair(a, b), s.default)
  }

  /** `store[(a, b)] = v`. */
  function Update<V>(s: Store<V>, a: NodeId, b: NodeId, v: V): (r: Store<V>)
    ensures Canonical(s) ==> Canonical(r)
    ensures r.default == s.default
  {
    SortPairIdempotent(a, b);
    Store(Set(s.pairs, SortPair(a, b), v), s.default)
  }

  /** An absent link reads as the store's default, a present one as its value. */
  lemma LookupDefault<V>(s: Store<V>, a: NodeId, b: NodeId)
    ensures !HasLink(s, a, b) ==> Lookup(s, a, b) == s.default
    ensures HasLink(s, a, b) ==> Lookup(s, a, b) == s.pairs.m[SortPair(a, b)]
  {
  }

  /** `(a, b)` and `(b, a)` read the same entry. */
  lemma LookupSymmetric<V>(s: Store<V>, a: NodeId, b: NodeId)
    requires Tagged(a) && Tagged(b)
    ensures Lookup(s, a, b) == Lookup(s, b, a)
    ensures HasLink(s, a, b) == HasLink(s, b, a)
  {
    SortPairSymmetric(a, b);
  }

  /** After `s[(a, b)] = v` both orders of the pair hold `v`. */
  lemma UpdateThenLookup<V>(s: Store<V>, a: NodeId, b: NodeId, v: V)
    requires Tagged(a) && Tagged(b)
    ensures HasLink(Update(s, a, b, v), a, b) && Lookup(Update(s, a, b, v), a, b) == v
    ensures HasLink(Update(s, a, b, v), b, a) && Lookup(Update(s, a, b, v), b, a) == v
  {
    SortPairSymmetric(a, b);
  }

  /** Writing one link leaves every other link as it was. */
  lemma UpdateOther<V>(s: Store<V>, a: NodeId, b: NodeId, v: V, c: NodeId, d: NodeId)
    requires SortPair(c, d) != SortPair(a, b)
    ensures Lookup(Update(s, a, b, v), c, d) == Lookup(s, c, d)
    ensures HasLink(Update(s, a, b, v), c, d) == HasLink(s, c, d)
  {
  }

  /** The store `UsageStore(initial, default)` builds: each item written in turn. */
  function UpdateAll<V>(s: Store<V>, keys: seq<Pair>, m: map<Pair, V>): (r: Store<V>)
    requires forall i | 0 <= i < |keys| :: keys[i] in m
    ensures r.default == s.default
    ensures Canonical(s) ==> Canonical(r)
    decreases |keys|
  {
    if |keys| == 0 then s
    else
      var k := keys[|keys| - 1];
      Update(UpdateAll(s, keys[..|keys| - 1], m), k.0, k.1, m[k])
  }

  function Build<V>(initial: Dict<Pair, V>, default: V): (r: Store<V>)
    ensures Canonical(r) && r.default == default
  {
    UpdateAll(Store(Empty(), default), initial.order, initial.m)
  }

  /** A link is in the built store exactly when some initial key canonicalises to it. */
  lemma {:induction false} UpdateAllHasLink<V>(s: Store<V>, keys: seq<Pair>, m: map<Pair, V>, a: NodeId, b: NodeId)
    requires forall i | 0 <= i < |keys| :: keys[i] in m
    ensures HasLink(UpdateAll(s, keys, m), a, b) <==>
      (HasLink(s, a, b) || exists i :: 0 <= i < |keys| && SortPair(keys[i].0, keys[i].1) == SortPair(a, b))
    decreases |keys|
  {
    if |keys| > 0 {
      var pre := keys[..|keys| - 1];
      UpdateAllHasLink(s, pre, m, a, b);
      if exists i :: 0 <= i < |pre| && SortPair(pre[i].0, pre[i].1) == SortPair(a, b) {
        var i :| 0 <= i < |pre| && SortPair(pre[i].0, pre[i].1) == SortPair(a, b);
        assert keys[i] == pre[i];
      }
      if exists i :: 0 <= i < |keys| && SortPair(keys[i].0, keys[i].1) == SortPair(a, b) {
        var i :| 0 <= i < |keys| && SortPair(keys[i].0, keys[i].1) == SortPair(a, b);
        if i < |pre| {
          assert pre[i] == keys[i];
        }
      }
    }
  }

  /** A link only one initial key canonicalises to reads that key's value. */
  lemma {:induction false} UpdateAllUnique<V>(s: Store<V>, keys: seq<Pair>, m: map<Pair, V>, j: nat, a: NodeId, b: NodeId)
    requires forall i | 0 <= i < |keys| :: keys[i] in m
    requires j < |keys| && SortPair(keys[j].0, keys[j].1) == SortPair(a, b)
    requires forall i | 0 <= i < |keys| && i != j :: SortPair(keys[i].0, keys[i].1) != SortPair(a, b)
    ensures HasLink(UpdateAll(s, keys, m), a, b) && Lookup(UpdateAll(s, keys, m), a, b) == m[keys[j]]
    decreases |keys|
  {
    var n := |keys| - 1;
    var pre := keys[..n];
    if j < n {
      assert forall i | 0 <= i < |pre| :: pre[i] == keys[i];
      UpdateAllUnique(s, pre, m, j, a, b);
      UpdateOther(UpdateAll(s, pre, m), keys[n].0, keys[n].1, m[keys[n]], a, b);
    }
  }

  /** Every link of the built store reads the starting store's value or the value of a key on it. */
  lemma {:induction false} UpdateAllValue<V>(s: Store<V>, keys: seq<Pair>, m: map<Pair, V>, a: NodeId, b: NodeId)
    requires forall i | 0 <= i < |keys| :: keys[i] in m
    ensures Lookup(UpdateAll(s, keys, m), a, b) == Lookup(s, a, b) ||
      exists i :: 0 <= i < |keys| && SortPair(keys[i].0, keys[i].1) == SortPair(a, b) && Lookup(UpdateAll(s, keys, m), a, b) == m[keys[i]]
    decreases |keys|
  {
    if |keys| > 0 {
      var n := |keys| - 1;
      var pre := keys[..n];
      UpdateAllValue(s, pre, m, a, b);
      if SortPair(keys[n].0, keys[n].1) != SortPair(a, b) {
        UpdateOther(UpdateAll(s, pre, m), keys[n].0, keys[n].1, m[keys[n]], a, b);
        if Lookup(UpdateAll(s, pre, m), a, b) != Lookup(s, a, b) {
          var i :| 0 <= i < |pre| && SortPair(pre[i].0, pre[i].1) == SortPair(a, b) && Lookup(UpdateAll(s, pre, m), a, b) == m[pre[i]];
          assert keys[i] == pre[i];
        }
      }
    }
  }

  /**
   * Writing keys that are already canonical and distinct into an empty store
   * reproduces them in order: `copy()` (which rebuilds from `_pairs`) is exact.
   */
  lemma {:induction false} UpdateAllCanonical<V>(default: V, keys: seq<Pair>, m: map<Pair, V>)
    requires forall i | 0 <= i < |keys| :: keys[i] in m && IsCanonical(keys[i])
    requires DistinctSeq(keys)
    ensures UpdateAll(Store(Empty(), default), keys, m).pairs.order == keys
    ensures UpdateAll(Store(Empty(), default), keys, m).pairs.m == map k | k in keys :: m[k]
    decreases |keys|
  {
    if |keys| > 0 {
      var pre := keys[..|keys| - 1];
      var k := keys[|keys| - 1];
      assert forall i | 0 <= i < |pre| :: pre[i] == keys[i];
      UpdateAllCanonical(default, pre, m);
      var s := UpdateAll(Store(Empty(), default), pre, m);
      assert k !in pre;
      assert SortPair(k.0, k.1) == k;
      assert UpdateAll(Store(Empty(), default), keys, m) == Update(s, k.0, k.1, m[k]);
      SnocSplit(keys);
      MapOfSnoc(keys, m);
    }
  }

  lemma BuildCopy<V>(s: Store<V>)
    requires Canonical(s)
    ensures Build(s.pairs, s.default) == s
  {
    UpdateAllCanonical(s.default, s.pairs.order, s.pairs.m);
  }

  /**
   * `self.calculate(other, op)`: exactly the links of `self`, each mapped to
   * `op(v, other[link])`, in a store whose default is 0.
   */
  function Combine<V, W>(s: Store<V>, other: Store<W>, op: (V, W) -> real): (r: Store<real>)
    ensures r.default == 0.0
    ensures r.pairs.order == s.pairs.order
  {
    Store(RawDict(s.pairs.order, map k | k in s.pairs.m :: op(s.pairs.m[k], Lookup(other, k.0, k.1))), 0.0)
  }

  /** The combined store holds a link exactly when `self` does, with `op` of the two readings. */
  lemma CombineLookup<V, W>(s: Store<V>, other: Store<W>, op: (V, W) -> real, a: NodeId, b: NodeId)
    requires Canonical(s)
    ensures HasLink(Combine(s, other, op), a, b) <==> HasLink(s, a, b)
    ensures HasLink(s, a, b) ==> Lookup(Combine(s, other, op), a, b) == op(Lookup(s, a, b), Lookup(other, a, b))
    ensures !HasLink(s, a, b) ==> Lookup(Combine(s, other, op), a, b) == 0.0
  {
    var k := SortPair(a, b);
    if k in s.pairs.m {
      SortPairIdempotent(a, b);
      assert SortPair(k.0, k.1) == k;
    }
  }

  /** `reverse_lookup(val)`: the stored links holding `val`, in insertion order. */
  function ReverseLookup<V(==)>(s: Store<V>, val: V): (r: seq<Pair>)
    ensures forall k | k in r :: k in s.pairs.m && s.pairs.m[k] == val
    ensures forall k | k in s.pairs.m && s.pairs.m[k] == val :: k in r
  {
    KeysWithValue(s.pairs.order, s.pairs.m, val)
  }

  function KeysWithValue<V(==)>(keys: seq<Pair>, m: map<Pair, V>, val: V): (r: seq<Pair>)
    requires forall k | k in keys :: k in m
    ensures forall k | k in r :: k in keys && m[k] == val
    ensures forall k | k in keys && m[k] == val :: k in r
  {
    if |keys| == 0 then []
    else (if m[keys[0]] == val then [keys[0]] else []) + KeysWithValue(keys[1..], m, val)
  }

  // ---------------------------------------------------------------- UsageStore, as an object

  /** A `UsageStore` object, whose `__setitem__` updates `_pairs` in place. */
  class UsageStore<V> {
    var pairs: Dict<Pair, V>
    var default: V

    function Value(): Store<V>
      reads this
    {
      Store(pairs, default)
    }

    /** `UsageStore(initial, default)`: every initial item is written through `__setitem__`. */
    constructor (initial: Dict<Pair, V>, default: V)
      ensures Value() == Build(initial, default)
    {
      pairs := Empty();
      this.default := default;
      new;
      var i := 0;
      while i < |initial.order|
        invariant 0 <= i <= |initial.order|
        invariant Value() == UpdateAll(Store(Empty(), default), initial.order[..i], initial.m)
      {
        var k := initial.order[i];
        SetItem(k.0, k.1, initial.m[k]);
        assert initial.order[..i + 1][..i] == initial.order[..i];
        i := i + 1;
      }
      assert initial.order[..i] == initial.order;
    }

    /** `store[(a, b)]`. */
    function GetItem(a: NodeId, b: NodeId): V
      reads this
    {
      Lookup(Value(), a, b)
    }

    /** `store.contains((a, b))`. */
    predicate Contains(a: NodeId, b: NodeId)
      reads this
    {
      HasLink(Value(), a, b)
    }

    /** `store[(a, b)] = v`. */
    method SetItem(a: NodeId, b: NodeId, v: V)
      modifies this
      ensures Value() == Update(old(Value()), a, b, v)
    {
      pairs := Set(pairs, SortPair(a, b), v);
    }

    /** `copy()` (and `to_regular_storage()`): a new store rebuilt from `_pairs` with the same default. */
    method Copy() returns (r: UsageStore<V>)
      ensures fresh(r)
      ensures r.Value() == Build(Value().pairs, Value().default)
      ensures Canonical(Value()) ==> r.Value() == Value()
    {
      r := new UsageStore(pairs, default);
      if Canonical(Value()) {
        BuildCopy(Value());
      }
    }

    /** `calculate(other, op)`. */
    method Calculate<W>(other: UsageStore<W>, op: (V, W) -> real) returns (r: UsageStore<real>)
      ensures fresh(r)
      ensures Canonical(Value()) ==> r.Value() == Combine(Value(), other.Value(), op)
    {
      var c := Combine(Value(), other.Value(), op);
      r := new UsageStore(c.pairs, 0.0);
      if Canonical(Value()) {
        assert Canonical(c) by {
          forall k | k in c.pairs.m ensures IsCanonical(k) {
            assert k in pairs.m;
          }
        }
        BuildCopy(c);
      }
    }
  }

  // ---------------------------------------------------------------- flow ledgers

  /** A ledger key `(src, switch, next, dst)`; the source may be unknown (`None`). */
  datatype FlowKey = FlowKey(src: Option<NodeId>, sw: NodeId, nxt: NodeId, dst: NodeId)

  /** The canonical link a ledger key travels on, `_sort_pair(k[1], k[2])`. */
  function LinkOf(k: FlowKey): Pair
  {
    SortPair(k.sw, k.nxt)
  }

  /** The sum of the rates of the ledger entries travelling on link `l`. */
  function LinkTotal(keys: seq<FlowKey>, m: map<FlowKey, real>, l: Pair): real
    requires forall i | 0 <= i < |keys| :: keys[i] in m
    decreases |keys|
  {
    if |keys| == 0 then 0.0
    else LinkTotal(keys[..|keys| - 1], m, l) + (if LinkOf(keys[|keys| - 1]) == l then m[keys[|keys| - 1]] else 0.0)
  }

  /**
   * `UsageStoreProxyFromFlowDict._pairs`, recomputed from the ledger: links in
   * order of first appearance, each with the sum of its entries.
   */
  function FlowPairs(keys: seq<FlowKey>, m: map<FlowKey, real>): (r: Dict<Pair, real>)
    requires forall i | 0 <= i < |keys| :: keys[i] in m
    decreases |keys|
  {
    if |keys| == 0 then Empty()
    else
      var pre := FlowPairs(keys[..|keys| - 1], m);
      var k := keys[|keys| - 1];
      Set(pre, LinkOf(k), GetOr(pre, LinkOf(k), 0.0) + m[k])
  }

  /** Each link of the view is the link of some entry, and holds the sum over that link. */
  lemma FlowPairsTotal(keys: seq<FlowKey>, m: map<FlowKey, real>, l: Pair)
    requires forall i | 0 <= i < |keys| :: keys[i] in m
    ensures l in FlowPairs(keys, m).m <==> exists i :: 0 <= i < |keys| && LinkOf(keys[i]) == l
    ensures l in FlowPairs(keys, m).m ==> FlowPairs(keys, m).m[l] == LinkTotal(keys, m, l)
    ensures l !in FlowPairs(keys, m).m ==> LinkTotal(keys, m, l) == 0.0
  {
    FlowPairsKeys(keys, m, l);
    FlowPairsSums(keys, m, l);
  }

  /** Some entry of `keys` travels on link `l`. */
  predicate OnLink(keys: seq<FlowKey>, l: Pair)
  {
    exists i :: 0 <= i < |keys| && LinkOf(keys[i]) == l
  }

  lemma OnLinkSnoc(keys: seq<FlowKey>, l: Pair)
    requires |keys| > 0
    ensures OnLink(keys, l) <==> OnLink(keys[..|keys| - 1], l) || LinkOf(keys[|keys| - 1]) == l
  {
    var pre := keys[..|keys| - 1];
    if OnLink(pre, l) {
      var i :| 0 <= i < |pre| && LinkOf(pre[i]) == l;
      assert keys[i] == pre[i];
    }
    if OnLink(keys, l) {
      var i :| 0 <= i < |keys| && LinkOf(keys[i]) == l;
      if i < |pre| {
        assert pre[i] == keys[i];
      }
    }
  }

  lemma {:induction false} FlowPairsKeys(keys: seq<FlowKey>, m: map<FlowKey, real>, l: Pair)
    requires forall i | 0 <= i < |keys| :: keys[i] in m
    ensures l in FlowPairs(keys, m).m <==> OnLink(keys, l)
    decreases |keys|
  {
    if |keys| > 0 {
      FlowPairsKeys(keys[..|keys| - 1], m, l);
      OnLinkSnoc(keys, l);
    }
  }

  lemma {:induction false} FlowPairsSums(keys: seq<FlowKey>, m: map<FlowKey, real>, l: Pair)
    requires forall i | 0 <= i < |keys| :: keys[i] in m
    ensures l in FlowPairs(keys, m).m ==> FlowPairs(keys, m).m[l] == LinkTotal(keys, m, l)
    ensures l !in FlowPairs(keys, m).m ==> LinkTotal(keys, m, l) == 0.0
    decreases |keys|
  {
    if |keys| > 0 {
      FlowPairsSums(keys[..|keys| - 1], m, l);
    }
  }

  function LedgerLinks(ledger: Dict<FlowKey, real>): Dict<Pair, real>
  {
    FlowPairs(ledger.order, ledger.m)
  }

  /** `proxy.to_regular_storage()`: a plain store of the per-link sums, default 0. */
  function FlowProxyStorage(ledger: Dict<FlowKey, real>): (r: Store<real>)
    ensures Canonical(r) && r.default == 0.0
    ensures r.pairs == LedgerLinks(ledger)
  {
    var d := LedgerLinks(ledger);
    assert Canonical(Store(d, 0.0)) by {
      forall l | l in d.m ensures IsCanonical(l) {
        FlowPairsTotal(ledger.order, ledger.m, l);
        var i :| 0 <= i < |ledger.order| && LinkOf(ledger.order[i]) == l;
        SortPairIdempotent(ledger.order[i].sw, ledger.order[i].nxt);
      }
    }
    BuildCopy(Store(d, 0.0));
    Build(d, 0.0)
  }

  /**
   * `proxy[(a, b)]`. The proxy never sets `_default`, so reading a link no
   * entry travels on raises `AttributeError` instead of returning a default.
   */
  function FlowProxyGetItem(ledger: Dict<FlowKey, real>, a: NodeId, b: NodeId): (r: Result<real>)
    ensures r.Ok? <==> exists k | k in ledger.m :: LinkOf(k) == SortPair(a, b)
    ensures r.Ok? ==> r.value == LinkTotal(ledger.order, ledger.m, SortPair(a, b))
  {
    var d := LedgerLinks(ledger);
    FlowPairsTotal(ledger.order, ledger.m, SortPair(a, b));
    if SortPair(a, b) in d.m then Ok(d.m[SortPair(a, b)]) else Err(AttributeError)
  }

  // ---------------------------------------------------------------- several stores behind one view

  /** The values the stores hold for one canonical link, in store order. */
  function Present<V>(stores: seq<Store<V>>, k: Pair): (r: seq<V>)
    ensures |r| <= |stores|
    decreases |stores|
  {
    if |stores| == 0 then []
    else Present(stores[..|stores| - 1], k) + (if k in stores[|stores| - 1].pairs.m then [stores[|stores| - 1].pairs.m[k]] else [])
  }

  /** No value is collected exactly when no store holds the link. */
  lemma {:induction false} PresentEmpty<V>(stores: seq<Store<V>>, k: Pair)
    ensures |Present(stores, k)| == 0 <==> forall i | 0 <= i < |stores| :: k !in stores[i].pairs.m
    decreases |stores|
  {
    if |stores| > 0 {
      var pre := stores[..|stores| - 1];
      PresentEmpty(pre, k);
      assert forall i | 0 <= i < |pre| :: pre[i] == stores[i];
    }
  }

  /**
   * `UsageStoreProxyFromCallableIterable(...)[(a, b)]`: the behaviour applied
   * to the collected values, or the proxy's default when there is no behaviour.
   */
  function ProxyGetItem<V>(stores: seq<Store<V>>, a: NodeId, b: NodeId, behaviour: Option<seq<V> -> V>, default: V): (r: V)
    ensures behaviour.None? ==> r == default
    ensures behaviour.Some? ==> r == behaviour.value(Present(stores, SortPair(a, b)))
  {
    match behaviour
    case None => default
    case Some(f) => f(Present(stores, SortPair(a, b)))
  }

  /** Every link any of the stores holds, in order of first appearance. */
  function AllLinks<V>(stores: seq<Store<V>>): (r: seq<Pair>)
    ensures DistinctSeq(r)
    ensures forall k :: k in r <==> exists i :: 0 <= i < |stores| && k in stores[i].pairs.m
    decreases |stores|
  {
    if |stores| == 0 then []
    else
      var pre := AllLinks(stores[..|stores| - 1]);
      var last := stores[|stores| - 1];
      assert forall i | 0 <= i < |stores| - 1 :: stores[..|stores| - 1][i] == stores[i];
      var added := NewKeys(last.pairs.order, set k | k in pre);
      DistinctConcat(pre, added);
      pre + added
  }

  /** The keys of `keys` not in `seen`, keeping their order. */
  function NewKeys(keys: seq<Pair>, seen: set<Pair>): (r: seq<Pair>)
    requires DistinctSeq(keys)
    ensures DistinctSeq(r)
    ensures forall k :: k in r <==> k in keys && k !in seen
    decreases |keys|
  {
    if |keys| == 0 then []
    else
      assert forall i | 0 <= i < |keys| - 1 :: keys[1..][i] == keys[i + 1];
      if keys[0] in seen then NewKeys(keys[1..], seen) else [keys[0]] + NewKeys(keys[1..], seen)
  }

  /**
   * `proxy.to_regular_storage()`: one entry per link any store holds, with the
   * proxy's reading of it, default 0.
   */
  function ProxyStorage(stores: seq<Store<real>>, behaviour: Option<seq<real> -> real>): (r: Store<real>)
    requires forall i, k | 0 <= i < |stores| && k in stores[i].pairs.m :: IsCanonical(k)
    ensures r.default == 0.0
    ensures forall k :: k in r.pairs.m <==> exists i :: 0 <= i < |stores| && k in stores[i].pairs.m
    ensures forall k | k in r.pairs.m :: r.pairs.m[k] == ProxyGetItem(stores, k.0, k.1, behaviour, 0.0)
  {
    var keys := AllLinks(stores);
    Store(RawDict(keys, map k | k in keys :: ProxyGetItem(stores, k.0, k.1, behaviour, 0.0)), 0.0)
  }

  /** What writing through the proxy does to one store: only a store holding the link changes. */
  function WriteIfPresent<V>(s: Store<V>, a: NodeId, b: NodeId, v: V): Store<V>
  {
    if HasLink(s, a, b) then Update(s, a, b, v) else s
  }

  lemma WriteIfPresentTwice<V>(s: Store<V>, a: NodeId, b: NodeId, v: V)
    ensures WriteIfPresent(WriteIfPresent(s, a, b, v), a, b, v) == WriteIfPresent(s, a, b, v)
    ensures HasLink(WriteIfPresent(s, a, b, v), a, b) == HasLink(s, a, b)
  {
  }

  /**
   * `proxy[(a, b)] = v`: every store holding the link gets `v`; when none
   * does, `ValueError` is raised.
   */
  method ProxySetItem<V>(stores: seq<UsageStore<V>>, a: NodeId, b: NodeId, v: V) returns (r: Result<()>)
    modifies set i | 0 <= i < |stores| :: stores[i]
    ensures r.Err? <==> forall i | 0 <= i < |stores| :: !HasLink(old(stores[i].Value()), a, b)
    ensures r.Err? ==> r.error == ValueError
    ensures forall i | 0 <= i < |stores| :: stores[i].Value() == WriteIfPresent(old(stores[i].Value()), a, b, v)
  {
    ghost var orig := seq(|stores|, j requires 0 <= j < |stores| reads stores => stores[j].Value());
    var touched := false;
    var i := 0;
    while i < |stores|
      invariant 0 <= i <= |stores|
      invariant touched == AnyHolds(orig[..i], a, b)
      invariant WrittenUpTo(stores, orig, a, b, v, i)
      invariant forall j | 0 <= j < |stores| :: old(stores[j].Value()) == orig[j]
    {
      var held := WriteStep(stores, orig, a, b, v, i);
      AnyHoldsSnoc(orig[..i], orig[i], a, b);
      assert orig[..i + 1] == orig[..i] + [orig[i]];
      touched := touched || held;
      i := i + 1;
    }
    assert orig[..i] == orig;
    if !touched {
      r := Err(ValueError);
    } else {
      r := Ok(());
    }
  }

  /** After `i` turns of the loop: those stores are written through, the others are either. */
  ghost predicate WrittenUpTo<V>(stores: seq<UsageStore<V>>, orig: seq<Store<V>>, a: NodeId, b: NodeId, v: V, i: nat)
    reads set j | 0 <= j < |stores| :: stores[j]
  {
    |orig| == |stores| && i <= |stores|
    && (forall j | 0 <= j < |stores| :: stores[j].Value() == orig[j] || stores[j].Value() == WriteIfPresent(orig[j], a, b, v))
    && (forall j | 0 <= j < i :: stores[j].Value() == WriteIfPresent(orig[j], a, b, v))
  }

  /** One turn of the loop: `proxy[(a, b)] = v` on store `i`. */
  method WriteStep<V>(stores: seq<UsageStore<V>>, ghost orig: seq<Store<V>>, a: NodeId, b: NodeId, v: V, i: nat)
    returns (held: bool)
    requires i < |stores| && WrittenUpTo(stores, orig, a, b, v, i)
    modifies stores[i]
    ensures held == HasLink(orig[i], a, b)
    ensures WrittenUpTo(stores, orig, a, b, v, i + 1)
  {
    WriteIfPresentTwice(orig[i], a, b, v);
    held := WriteThrough(stores[i], a, b, v);
    forall j | 0 <= j < |stores| && stores[j] == stores[i]
      ensures stores[j].Value() == WriteIfPresent(orig[j], a, b, v)
    {
      WriteIfPresentTwice(orig[j], a, b, v);
    }
  }

  /** Some store of `ss` holds the link. */
  predicate AnyHolds<V>(ss: seq<Store<V>>, a: NodeId, b: NodeId)
  {
    exists j | 0 <= j < |ss| :: HasLink(ss[j], a, b)
  }

  lemma AnyHoldsSnoc<V>(ss: seq<Store<V>>, s: Store<V>, a: NodeId, b: NodeId)
    ensures AnyHolds(ss + [s], a, b) == (AnyHolds(ss, a, b) || HasLink(s, a, b))
  {
    if AnyHolds(ss + [s], a, b) && !HasLink(s, a, b) {
      var j :| 0 <= j < |ss| + 1 && HasLink((ss + [s])[j], a, b);
      assert j < |ss| && (ss + [s])[j] == ss[j];
    }
    if AnyHolds(ss, a, b) {
      var j :| 0 <= j < |ss| && HasLink(ss[j], a, b);
      assert (ss + [s])[j] == ss[j];
    }
    if HasLink(s, a, b) {
      assert (ss + [s])[|ss|] == s;
    }
  }

  /** One store's share of `proxy[(a, b)] = v`: written when it holds the link. */
  method WriteThrough<V>(us: UsageStore<V>, a: NodeId, b: NodeId, v: V) returns (held: bool)
    modifies us
    ensures held == HasLink(old(us.Value()), a, b)
    ensures us.Value() == WriteIfPresent(old(us.Value()), a, b, v)
  {
    var k := SortPair(a, b);
    held := k in us.pairs.m;
    if held {
      us.pairs := Set(us.pairs, k, v);
    }
  }

  // ---------------------------------------------------------------- a chain of dicts

  /** `DictAggregator(ds).get(q, e)`: the value in the first dict holding `q`, else `e`. */
  function AggregatorGet<K(==), V>(ds: seq<Dict<K, V>>, q: K, e: V): (r: V)
    decreases |ds|
  {
    if |ds| == 0 then e
    else if q in ds[0].m then ds[0].m[q]
    else AggregatorGet(ds[1..], q, e)
  }

  /** The first holder wins; with no holder the fallback is returned. */
  lemma {:induction false} AggregatorGetFirst<K, V>(ds: seq<Dict<K, V>>, q: K, e: V, i: nat)
    requires i < |ds| && q in ds[i].m
    requires forall j | 0 <= j < i :: q !in ds[j].m
    ensures AggregatorGet(ds, q, e) == ds[i].m[q]
    decreases i
  {
    if i > 0 {
      AggregatorGetFirst(ds[1..], q, e, i - 1);
    }
  }

  lemma {:induction false} AggregatorGetMissing<K, V>(ds: seq<Dict<K, V>>, q: K, e: V)
    requires forall j | 0 <= j < |ds| :: q !in ds[j].m
    ensures AggregatorGet(ds, q, e) == e
    decreases |ds|
  {
    if |ds| > 0 {
      AggregatorGetMissing(ds[1..], q, e);
    }
  }

  /**
   * When the dicts have disjoint keys (as the ledgers of distinct switches do)
   * the order of the chain does not matter: the value is that of the one holder.
   */
  lemma AggregatorGetDisjoint<K, V>(ds: seq<Dict<K, V>>, q: K, e: V, i: nat)
    requires i < |ds| && q in ds[i].m
    requires forall j | 0 <= j < |ds| && j != i :: q !in ds[j].m
    ensures AggregatorGet(ds, q, e) == ds[i].m[q]
  {
    AggregatorGetFirst(ds, q, e, i);
  }

  /** `DictAggregator(ds).keys()`. */
  function AggregatorKeys<K(==), V>(ds: seq<Dict<K, V>>): (r: set<K>)
    ensures forall q | q in r :: exists i :: 0 <= i < |ds| && q in ds[i].m
    ensures forall i, q | 0 <= i < |ds| && q in ds[i].m :: q in r
    decreases |ds|
  {
    if |ds| == 0 then {}
    else
      assert forall i | 0 <= i < |ds| - 1 :: ds[1..][i] == ds[i + 1];
      ds[0].m.Keys + AggregatorKeys(ds[1..])
  }
}
