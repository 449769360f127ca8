/**
 * The simulated network of latencycontroller.py, switch by switch: each
 * `SimulatableSwitch` keeps a flow ledger `_flow_speed` mapping a flow key
 * `(src, switch, next, dst)` to a rate, and a `_bandwidth` store. This module
 * holds what is computed from ledgers: the per-link flow counts, the
 * bottleneck folds over a route, the ledger surgery of `with_modified_path`
 * and the hedge/decay predictor of `copy_scaling`.
 */
module Ledger {
  import opened Wrappers
  import opened NodePair
  import opened Dict
  import opened Stores
  import opened Routes
  import opened Weighted

  /** A `SimulatableSwitch`'s state: `_sw`, `_flow_speed` and `_bandwidth`. */
  datatype Switch = Switch(name: NodeId, flows: Dict<FlowKey, real>, bandwidth: Store<real>)

  /** A route of the `paths` store: a plain node list or a `WeightedPathAggregate`. */
  datatype Route = Plain(nodes: seq<NodeId>) | Multi(agg: Wpa)

  /** A plain route is handled as the aggregate `{tuple(seq): 1.0}`. */
  function AsWpa(r: Route): Wpa
  {
    match r
    case Plain(p) => Single(p)
    case Multi(w) => w
  }

  /** The path `route[0]` and `route[-1]` index (an aggregate's first path). */
  function FirstPath(r: Route): Path
  {
    if |AsWpa(r).weighted.order| == 0 then [] else AsWpa(r).weighted.order[0]
  }

  /** `(route[0], route[-1])`, or `IndexError` for an empty first path. */
  function Ends(r: Route): (e: Result<Pair>)
    ensures e.Ok? <==> |FirstPath(r)| > 0
    ensures e.Ok? ==> e.value == (FirstPath(r)[0], FirstPath(r)[|FirstPath(r)| - 1])
  {
    var p := FirstPath(r);
    if |p| == 0 then Err(IndexError) else Ok((p[0], p[|p| - 1]))
  }

  // ---------------------------------------------------------------- counting flows per link

  /**
   * Whether a ledger entry counts on its link: a positive rate and, when a
   * bandwidth store is given, positive bandwidth on `(switch, next)`.
   */
  predicate Counts(k: FlowKey, rate: real, bw: Option<Store<real>>)
  {
    (bw.None? || Lookup(bw.value, k.sw, k.nxt) > 0.0) && rate > 0.0
  }

  /** The number of entries among `keys` that count on link `l`. */
  function CountOn(keys: seq<FlowKey>, m: map<FlowKey, real>, bw: Option<Store<real>>, l: Pair): nat
    decreases |keys|
  {
    if |keys| == 0 then 0
    else
      var k := keys[|keys| - 1];
      CountOn(keys[..|keys| - 1], m, bw, l) + (if k in m && LinkOf(k) == l && Counts(k, m[k], bw) then 1 else 0)
  }

  /** A link's count is positive exactly when some entry on it counts, and never exceeds the entries. */
  lemma {:induction false} CountOnMeaning(keys: seq<FlowKey>, m: map<FlowKey, real>, bw: Option<Store<real>>, l: Pair)
    requires forall i | 0 <= i < |keys| :: keys[i] in m
    ensures CountOn(keys, m, bw, l) <= |keys|
    ensures CountOn(keys, m, bw, l) > 0 <==> exists i :: 0 <= i < |keys| && LinkOf(keys[i]) == l && Counts(keys[i], m[keys[i]], bw)
    decreases |keys|
  {
    if |keys| > 0 {
      var pre := keys[..|keys| - 1];
      CountOnMeaning(pre, m, bw, l);
      if exists i :: 0 <= i < |pre| && LinkOf(pre[i]) == l && Counts(pre[i], m[pre[i]], bw) {
        var i :| 0 <= i < |pre| && LinkOf(pre[i]) == l && Counts(pre[i], m[pre[i]], bw);
        assert keys[i] == pre[i];
      }
      if exists i :: 0 <= i < |keys| && LinkOf(keys[i]) == l && Counts(keys[i], m[keys[i]], bw) {
        var i :| 0 <= i < |keys| && LinkOf(keys[i]) == l && Counts(keys[i], m[keys[i]], bw);
        if i < |pre| {
          assert pre[i] == keys[i];
        }
      }
    }
  }

  /** A flow counted by `get_link_flows` is also a rule counted by `get_link_rules`. */
  lemma {:induction false} FlowsWithinRules(keys: seq<FlowKey>, m: map<FlowKey, real>, bw: Store<real>, l: Pair)
    requires forall i | 0 <= i < |keys| :: keys[i] in m
    ensures CountOn(keys, m, Some(bw), l) <= CountOn(keys, m, None, l)
    decreases |keys|
  {
    if |keys| > 0 {
      FlowsWithinRules(keys[..|keys| - 1], m, bw, l);
    }
  }

  /**
   * `cnt[k] = 1 + cnt[k]` for every counting entry of one ledger, in ledger
   * order: each link's reading grows by its count.
   */
  method CountInto(cnt0: Store<int>, ledger: Dict<FlowKey, real>, bw: Option<Store<real>>) returns (cnt: Store<int>)
    ensures cnt.default == cnt0.default
    ensures Canonical(cnt0) ==> Canonical(cnt)
    ensures forall a, b :: Lookup(cnt, a, b) == Lookup(cnt0, a, b) + CountOn(ledger.order, ledger.m, bw, SortPair(a, b))
    ensures forall a, b :: HasLink(cnt, a, b) <==> HasLink(cnt0, a, b) || CountOn(ledger.order, ledger.m, bw, SortPair(a, b)) > 0
  {
    cnt := cnt0;
    for i := 0 to |ledger.order|
      invariant cnt.default == cnt0.default
      invariant Canonical(cnt0) ==> Canonical(cnt)
      invariant forall a, b :: Lookup(cnt, a, b) == Lookup(cnt0, a, b) + CountOn(ledger.order[..i], ledger.m, bw, SortPair(a, b))
      invariant forall a, b :: HasLink(cnt, a, b) <==> HasLink(cnt0, a, b) || CountOn(ledger.order[..i], ledger.m, bw, SortPair(a, b)) > 0
    {
      ghost var before := cnt;
      cnt := CountOne(cnt, ledger.order[i], ledger.m[ledger.order[i]], bw);
      CountStep(cnt0, before, cnt, ledger, bw, i);
    }
    assert ledger.order[..|ledger.order|] == ledger.order;
  }

  /** One more entry counted: the readings track the counts over one more key. */
  lemma CountStep(cnt0: Store<int>, before: Store<int>, cnt: Store<int>, ledger: Dict<FlowKey, real>,
                  bw: Option<Store<real>>, i: nat)
    requires i < |ledger.order|
    requires forall a, b :: Lookup(before, a, b) == Lookup(cnt0, a, b) + CountOn(ledger.order[..i], ledger.m, bw, SortPair(a, b))
    requires forall a, b :: HasLink(before, a, b) <==> HasLink(cnt0, a, b) || CountOn(ledger.order[..i], ledger.m, bw, SortPair(a, b)) > 0
    requires var key := ledger.order[i];
      forall a, b :: Lookup(cnt, a, b) ==
        Lookup(before, a, b) + (if LinkOf(key) == SortPair(a, b) && Counts(key, ledger.m[key], bw) then 1 else 0)
    requires var key := ledger.order[i];
      forall a, b :: HasLink(cnt, a, b) <==>
        HasLink(before, a, b) || (LinkOf(key) == SortPair(a, b) && Counts(key, ledger.m[key], bw))
    ensures forall a, b :: Lookup(cnt, a, b) == Lookup(cnt0, a, b) + CountOn(ledger.order[..i + 1], ledger.m, bw, SortPair(a, b))
    ensures forall a, b :: HasLink(cnt, a, b) <==> HasLink(cnt0, a, b) || CountOn(ledger.order[..i + 1], ledger.m, bw, SortPair(a, b)) > 0
  {
    assert ledger.order[..i + 1][..i] == ledger.order[..i];
  }

  /** `cnt[k] = 1 + cnt[k]` for one entry, when it counts. */
  method CountOne(cnt0: Store<int>, key: FlowKey, rate: real, bw: Option<Store<real>>) returns (cnt: Store<int>)
    ensures cnt.default == cnt0.default
    ensures Canonical(cnt0) ==> Canonical(cnt)
    ensures forall a, b ::
      Lookup(cnt, a, b) == Lookup(cnt0, a, b) + (if LinkOf(key) == SortPair(a, b) && Counts(key, rate, bw) then 1 else 0)
    ensures forall a, b ::
      HasLink(cnt, a, b) <==> HasLink(cnt0, a, b) || (LinkOf(key) == SortPair(a, b) && Counts(key, rate, bw))
  {
    cnt := cnt0;
    if Counts(key, rate, bw) {
      cnt := Update(cnt0, key.sw, key.nxt, 1 + Lookup(cnt0, key.sw, key.nxt));
      forall a, b
        ensures Lookup(cnt, a, b) == Lookup(cnt0, a, b) + (if SortPair(a, b) == LinkOf(key) then 1 else 0)
        ensures HasLink(cnt, a, b) <==> HasLink(cnt0, a, b) || SortPair(a, b) == LinkOf(key)
      {
        if SortPair(a, b) != LinkOf(key) {
          UpdateOther(cnt0, key.sw, key.nxt, 1 + Lookup(cnt0, key.sw, key.nxt), a, b);
        }
      }
    }
  }

  /** `SimulatableSwitch.get_link_rules()` (cached as `_link_rules` by `_reinit`). */
  method LinkRules(sw: Switch) returns (cnt: Store<int>)
    ensures Canonical(cnt) && cnt.default == 0
    ensures forall a, b :: Lookup(cnt, a, b) == CountOn(sw.flows.order, sw.flows.m, None, SortPair(a, b))
    ensures forall a, b :: HasLink(cnt, a, b) <==> CountOn(sw.flows.order, sw.flows.m, None, SortPair(a, b)) > 0
  {
    cnt := CountInto(Store(Empty(), 0), sw.flows, None);
  }

  /** The flows `get_link_flows` counts on link `l` over the first switches. */
  function FlowCount(sws: seq<Switch>, l: Pair): nat
    decreases |sws|
  {
    if |sws| == 0 then 0
    else
      var sw := sws[|sws| - 1];
      FlowCount(sws[..|sws| - 1], l) + CountOn(sw.flows.order, sw.flows.m, Some(sw.bandwidth), l)
  }

  /** `SimulatableNetwork.get_link_flows()` (cached as `link_flows`), over the switches in order. */
  method LinkFlows(sws: seq<Switch>) returns (cnt: Store<int>)
    ensures Canonical(cnt) && cnt.default == 0
    ensures forall a, b :: Lookup(cnt, a, b) == FlowCount(sws, SortPair(a, b))
  {
    cnt := Store(Empty(), 0);
    for i := 0 to |sws|
      invariant Canonical(cnt) && cnt.default == 0
      invariant forall a, b :: Lookup(cnt, a, b) == FlowCount(sws[..i], SortPair(a, b))
    {
      assert sws[..i + 1][..i] == sws[..i];
      cnt := CountInto(cnt, sws[i].flows, Some(sws[i].bandwidth));
    }
    assert sws[..|sws|] == sws;
  }

  /** Per link, the network counts no more flows than the switches' rules. */
  lemma {:induction false} FlowCountWithinRules(sws: seq<Switch>, l: Pair)
    ensures FlowCount(sws, l) <= RuleCount(sws, l)
    decreases |sws|
  {
    if |sws| > 0 {
      var sw := sws[|sws| - 1];
      FlowCountWithinRules(sws[..|sws| - 1], l);
      FlowsWithinRules(sw.flows.order, sw.flows.m, sw.bandwidth, l);
    }
  }

  /** The sum of the switches' `get_link_rules()` counts on link `l`. */
  function RuleCount(sws: seq<Switch>, l: Pair): nat
    decreases |sws|
  {
    if |sws| == 0 then 0
    else
      var sw := sws[|sws| - 1];
      RuleCount(sws[..|sws| - 1], l) + CountOn(sw.flows.order, sw.flows.m, None, l)
  }

  // ---------------------------------------------------------------- running maxima over hops

  function Max(a: real, b: real): real { if a >= b then a else b }

  /** The terms `f(u, v, weight)` for every hop `(u, v)` of every path, in iteration order. */
  function HopTerms(items: seq<(Path, real)>, f: (NodeId, NodeId, real) -> real): seq<real>
    decreases |items|
  {
    if |items| == 0 then []
    else
      var (q, w) := items[|items| - 1];
      HopTerms(items[..|items| - 1], f) + PathTerms(q, w, f)
  }

  function PathTerms(q: Path, w: real, f: (NodeId, NodeId, real) -> real): (r: seq<real>)
    ensures |r| == if |q| == 0 then 0 else |q| - 1
    ensures forall i | 0 <= i < |r| :: r[i] == f(q[i], q[i + 1], w)
  {
    if |q| == 0 then [] else seq(|q| - 1, i requires 0 <= i < |q| - 1 => f(q[i], q[i + 1], w))
  }

  /** `ml = 0; ml = max(ml, x)` for each term in turn. */
  function RunMax(xs: seq<real>): real
    decreases |xs|
  {
    if |xs| == 0 then 0.0 else Max(RunMax(xs[..|xs| - 1]), xs[|xs| - 1])
  }

  /** The running maximum is the largest of 0 and the terms. */
  lemma {:induction false} RunMaxSpec(xs: seq<real>)
    ensures RunMax(xs) >= 0.0
    ensures forall i | 0 <= i < |xs| :: xs[i] <= RunMax(xs)
    ensures RunMax(xs) == 0.0 || exists i :: 0 <= i < |xs| && xs[i] == RunMax(xs)
    decreases |xs|
  {
    if |xs| > 0 {
      var pre := xs[..|xs| - 1];
      RunMaxSpec(pre);
      assert forall i | 0 <= i < |pre| :: pre[i] == xs[i];
    }
  }

  /** Every hop of every path contributes its term. */
  lemma {:induction false} HopTermsCover(items: seq<(Path, real)>, f: (NodeId, NodeId, real) -> real, k: nat, i: nat)
    requires k < |items| && i + 1 < |items[k].0|
    ensures f(items[k].0[i], items[k].0[i + 1], items[k].1) in HopTerms(items, f)
    decreases |items|
  {
    var (q, w) := items[|items| - 1];
    if k < |items| - 1 {
      HopTermsCover(items[..|items| - 1], f, k, i);
    } else {
      assert PathTerms(q, w, f)[i] == f(q[i], q[i + 1], w);
    }
  }

  /** Every term is the term of some hop. */
  lemma {:induction false} HopTermsSource(items: seq<(Path, real)>, f: (NodeId, NodeId, real) -> real, x: real)
    requires x in HopTerms(items, f)
    ensures exists k, i :: 0 <= k < |items| && 0 <= i && i + 1 < |items[k].0| && x == f(items[k].0[i], items[k].0[i + 1], items[k].1)
    decreases |items|
  {
    var pre := items[..|items| - 1];
    var (q, w) := items[|items| - 1];
    if x in HopTerms(pre, f) {
      HopTermsSource(pre, f, x);
      var k, i :| 0 <= k < |pre| && 0 <= i && i + 1 < |pre[k].0| && x == f(pre[k].0[i], pre[k].0[i + 1], pre[k].1);
      assert items[k] == pre[k];
    } else {
      var i :| 0 <= i < |PathTerms(q, w, f)| && PathTerms(q, w, f)[i] == x;
      assert x == f(items[|items| - 1].0[i], items[|items| - 1].0[i + 1], items[|items| - 1].1);
    }
  }

  /**
   * A running max over the hops of a route is the bottleneck: at least 0, at
   * least every hop's term, and either 0 or the term of some hop.
   */
  lemma HopMaxSpec(items: seq<(Path, real)>, f: (NodeId, NodeId, real) -> real)
    ensures RunMax(HopTerms(items, f)) >= 0.0
    ensures forall k, i | 0 <= k < |items| && 0 <= i && i + 1 < |items[k].0| ::
      f(items[k].0[i], items[k].0[i + 1], items[k].1) <= RunMax(HopTerms(items, f))
    ensures RunMax(HopTerms(items, f)) == 0.0 ||
      exists k, i :: 0 <= k < |items| && 0 <= i && i + 1 < |items[k].0| &&
        f(items[k].0[i], items[k].0[i + 1], items[k].1) == RunMax(HopTerms(items, f))
  {
    var xs := HopTerms(items, f);
    RunMaxSpec(xs);
    forall k, i | 0 <= k < |items| && 0 <= i && i + 1 < |items[k].0|
      ensures f(items[k].0[i], items[k].0[i + 1], items[k].1) <= RunMax(xs)
    {
      HopTermsCover(items, f, k, i);
    }
    if RunMax(xs) != 0.0 {
      var j :| 0 <= j < |xs| && xs[j] == RunMax(xs);
      HopTermsSource(items, f, xs[j]);
    }
  }

  // ---------------------------------------------------------------- the bottleneck folds

  /** `self._flow_speed`: the switches' ledgers chained in switch order (a `DictAggregator`). */
  function Chain(sws: seq<Switch>): (r: seq<Dict<FlowKey, real>>)
    ensures |r| == |sws| && forall i | 0 <= i < |sws| :: r[i] == sws[i].flows
  {
    seq(|sws|, i requires 0 <= i < |sws| => sws[i].flows)
  }

  /** The term of hop `(u, v)`: the rate from `h1` to `h2` over it plus the rate back over `(v, u)`, times the weight. */
  function SpeedTerm(ds: seq<Dict<FlowKey, real>>, h1: NodeId, h2: NodeId): (NodeId, NodeId, real) -> real
  {
    (u: NodeId, v: NodeId, w: real) =>
      (AggregatorGet(ds, FlowKey(Some(h1), u, v, h2), 0.0) + AggregatorGet(ds, FlowKey(Some(h2), v, u, h1), 0.0)) * w
  }

  /**
   * `get_max_flow_speed(route)`: the ends `_sort_pair(route[0], route[-1])`
   * (an `IndexError` for an empty first path), then the running max of the
   * hop terms over every path of the route.
   */
  function MaxFlowSpeed(sws: seq<Switch>, r: Route): (s: Result<real>)
    ensures s.Err? <==> |FirstPath(r)| == 0
    ensures s.Err? ==> s.error == IndexError
  {
    match Ends(r)
    case Err(e) => Err(e)
    case Ok(ends) =>
      var (h1, h2) := SortPair(ends.0, ends.1);
      Ok(RunMax(HopTerms(Items(AsWpa(r).weighted), SpeedTerm(Chain(sws), h1, h2))))
  }

  /** The flow speed of a route is its bottleneck hop term (or 0). */
  lemma MaxFlowSpeedSpec(sws: seq<Switch>, r: Route)
    requires |FirstPath(r)| > 0
    ensures var items := Items(AsWpa(r).weighted);
      var h := SortPair(FirstPath(r)[0], FirstPath(r)[|FirstPath(r)| - 1]);
      var f := SpeedTerm(Chain(sws), h.0, h.1);
      && MaxFlowSpeed(sws, r).value >= 0.0
      && (forall k, i | 0 <= k < |items| && 0 <= i && i + 1 < |items[k].0| ::
            f(items[k].0[i], items[k].0[i + 1], items[k].1) <= MaxFlowSpeed(sws, r).value)
      && (MaxFlowSpeed(sws, r).value == 0.0 ||
            exists k, i :: 0 <= k < |items| && 0 <= i && i + 1 < |items[k].0| &&
              f(items[k].0[i], items[k].0[i + 1], items[k].1) == MaxFlowSpeed(sws, r).value)
  {
    var h := SortPair(FirstPath(r)[0], FirstPath(r)[|FirstPath(r)| - 1]);
    var items := Items(AsWpa(r).weighted);
    var f := SpeedTerm(Chain(sws), h.0, h.1);
    assert MaxFlowSpeed(sws, r).value == RunMax(HopTerms(items, f));
    HopMaxSpec(items, f);
  }

  /** The term of `get_max_path_load`: the hop's `link_usage` reading; weights play no part. */
  function LoadTerm(usage: Store<real>): (NodeId, NodeId, real) -> real
  {
    (u: NodeId, v: NodeId, w: real) => Lookup(usage, u, v)
  }

  /** `get_max_path_load(route)`: the running max of `link_usage` over every hop of every path. */
  function MaxPathLoad(usage: Store<real>, r: Route): real
  {
    RunMax(HopTerms(Items(AsWpa(r).weighted), LoadTerm(usage)))
  }

  /** The load of a route is the usage of its most used link (or 0). */
  lemma MaxPathLoadSpec(usage: Store<real>, r: Route)
    ensures var items := Items(AsWpa(r).weighted);
      && MaxPathLoad(usage, r) >= 0.0
      && (forall k, i | 0 <= k < |items| && 0 <= i && i + 1 < |items[k].0| ::
            Lookup(usage, items[k].0[i], items[k].0[i + 1]) <= MaxPathLoad(usage, r))
      && (MaxPathLoad(usage, r) == 0.0 ||
            exists k, i :: 0 <= k < |items| && 0 <= i && i + 1 < |items[k].0| &&
              Lookup(usage, items[k].0[i], items[k].0[i + 1]) == MaxPathLoad(usage, r))
  {
    var items := Items(AsWpa(r).weighted);
    HopMaxSpec(items, LoadTerm(usage));
  }

  // ---------------------------------------------------------------- removing the old flows

  /** `k[0] in [p[0], p[-1]] and k[3] in [p[0], p[-1]]`; an unknown source is never among them. */
  predicate BetweenEnds(k: FlowKey, e: Pair)
  {
    k.src.Some? && (k.src.value == e.0 || k.src.value == e.1) && (k.dst == e.0 || k.dst == e.1)
  }

  /** The keys not between the ends, in order. */
  function Keep(ks: seq<FlowKey>, e: Pair): (r: seq<FlowKey>)
    ensures forall k :: k in r <==> k in ks && !BetweenEnds(k, e)
    ensures DistinctSeq(ks) ==> DistinctSeq(r)
    decreases |ks|
  {
    if |ks| == 0 then []
    else
      var pre := ks[..|ks| - 1];
      var last := ks[|ks| - 1];
      assert forall k | k in pre :: k in ks;
      assert DistinctSeq(ks) ==> DistinctSeq(pre) && last !in pre;
      var kept := Keep(pre, e);
      if BetweenEnds(last, e) then kept
      else
        assert DistinctSeq(ks) ==> DistinctSeq(kept + [last]) by {
          if DistinctSeq(ks) {
            DistinctConcat(kept, [last]);
          }
        }
        kept + [last]
  }

  /** A ledger after the old flows between the ends are deleted: the rest keep their rates and order. */
  function Strip(d: Dict<FlowKey, real>, e: Pair): (r: Dict<FlowKey, real>)
    ensures forall k :: k in r.m <==> k in d.m && !BetweenEnds(k, e)
    ensures forall k | k in r.m :: r.m[k] == d.m[k]
  {
    RawDict(Keep(d.order, e), map k | k in d.m && !BetweenEnds(k, e) :: d.m[k])
  }

  /** The removal loop's state after the first `i` keys of the original ledger. */
  ghost predicate StrippedUpTo(d0: Dict<FlowKey, real>, e: Pair, i: nat, d: Dict<FlowKey, real>)
    requires i <= |d0.order|
  {
    && d.order == Keep(d0.order[..i], e) + d0.order[i..]
    && d.m == map k | k in d0.m && !(k in d0.order[..i] && BetweenEnds(k, e)) :: d0.m[k]
  }

  lemma {:induction false} StripStart(d0: Dict<FlowKey, real>, e: Pair)
    ensures StrippedUpTo(d0, e, 0, d0)
  {
    assert d0.order[0..] == d0.order;
  }

  lemma {:induction false} StripDrop(d0: Dict<FlowKey, real>, e: Pair, i: nat, d: Dict<FlowKey, real>)
    requires i < |d0.order| && StrippedUpTo(d0, e, i, d) && BetweenEnds(d0.order[i], e)
    ensures StrippedUpTo(d0, e, i + 1, Remove(d, d0.order[i]))
  {
    var k := d0.order[i];
    var kept := Keep(d0.order[..i], e);
    SliceAt(d0.order, i);
    assert k !in d0.order[..i] && k !in d0.order[i + 1..] by {
      assert DistinctSeq(d0.order);
    }
    assert Remove(d, k).order == kept + d0.order[i + 1..] by {
      assert d.order == kept + [k] + d0.order[i + 1..];
      assert Remove(d, k).order == RemoveFromSeq(d.order, k);
      RemoveMiddle(kept, k, d0.order[i + 1..]);
    }
  }

  lemma {:induction false} StripSkip(d0: Dict<FlowKey, real>, e: Pair, i: nat, d: Dict<FlowKey, real>)
    requires i < |d0.order| && StrippedUpTo(d0, e, i, d) && !BetweenEnds(d0.order[i], e)
    ensures StrippedUpTo(d0, e, i + 1, d)
  {
    var k := d0.order[i];
    SliceAt(d0.order, i);
    var kept := Keep(d0.order[..i], e);
    assert Keep(d0.order[..i + 1], e) == kept + [k] by {
      assert d0.order[..i + 1][..i] == d0.order[..i];
    }
    assert kept + d0.order[i..] == (kept + [k]) + d0.order[i + 1..];
    assert d.m == map x | x in d0.m && !(x in d0.order[..i + 1] && BetweenEnds(x, e)) :: d0.m[x] by {
      forall x
        ensures x in d0.order[..i + 1] <==> x in d0.order[..i] || x == k
      {
      }
    }
  }

  lemma {:induction false} StripEnd(d0: Dict<FlowKey, real>, e: Pair, d: Dict<FlowKey, real>)
    requires StrippedUpTo(d0, e, |d0.order|, d)
    ensures d == Strip(d0, e)
  {
    assert d0.order[..|d0.order|] == d0.order;
    assert d0.order[|d0.order|..] == [];
  }

  /** `for k in fs.copy().keys(): if ...: del fs[k]` on one ledger. */
  method StripLedger(d0: Dict<FlowKey, real>, e: Pair) returns (d: Dict<FlowKey, real>)
    ensures d == Strip(d0, e)
  {
    d := d0;
    StripStart(d0, e);
    for i := 0 to |d0.order|
      invariant StrippedUpTo(d0, e, i, d)
    {
      var k := d0.order[i];
      if BetweenEnds(k, e) {
        StripDrop(d0, e, i, d);
        d := Remove(d, k);
      } else {
        StripSkip(d0, e, i, d);
      }
    }
    StripEnd(d0, e, d);
  }

  /** One switch with its ledger stripped. */
  function StripSwitch(sw: Switch, e: Pair): Switch
  {
    sw.(flows := Strip(sw.flows, e))
  }

  function Stripper(e: Pair): Switch -> Switch
  {
    sw => StripSwitch(sw, e)
  }

  /** Every switch replaced by `f` of it, in place: the names and their order do not change. */
  function MapAll(sws: Dict<NodeId, Switch>, f: Switch -> Switch): (r: Dict<NodeId, Switch>)
    ensures r.order == sws.order && r.m.Keys == sws.m.Keys
  {
    RawDict(sws.order, map n | n in sws.m :: f(sws.m[n]))
  }

  /** Every switch's ledger stripped of the flows between the ends. */
  function StripAll(sws: Dict<NodeId, Switch>, e: Pair): (r: Dict<NodeId, Switch>)
    ensures r.order == sws.order && r.m.Keys == sws.m.Keys
  {
    MapAll(sws, Stripper(e))
  }

  /** The state of a loop over the switches that has replaced the first `i` of them by `f` of them. */
  ghost predicate MappedUpTo(sws0: Dict<NodeId, Switch>, f: Switch -> Switch, i: nat, sws: Dict<NodeId, Switch>)
    requires i <= |sws0.order|
  {
    && sws.order == sws0.order && sws.m.Keys == sws0.m.Keys
    && forall n | n in sws.m :: sws.m[n] == if n in sws0.order[..i] then f(sws0.m[n]) else sws0.m[n]
  }

  lemma {:induction false} MapStep(sws0: Dict<NodeId, Switch>, f: Switch -> Switch, i: nat, sws: Dict<NodeId, Switch>, sw: Switch)
    requires i < |sws0.order| && MappedUpTo(sws0, f, i, sws)
    requires sws0.order[i] in sws.m && sw == f(sws.m[sws0.order[i]])
    ensures MappedUpTo(sws0, f, i + 1, Set(sws, sws0.order[i], sw))
  {
    var n := sws0.order[i];
    assert n !in sws0.order[..i] by {
      assert DistinctSeq(sws0.order);
    }
    assert sws0.order[..i + 1] == sws0.order[..i] + [n];
    var r := Set(sws, n, sw);
    assert r.order == sws0.order && r.m.Keys == sws0.m.Keys;
    forall x | x in r.m
      ensures r.m[x] == if x in sws0.order[..i + 1] then f(sws0.m[x]) else sws0.m[x]
    {
      if x != n {
        assert x in sws0.order[..i + 1] <==> x in sws0.order[..i];
      }
    }
  }

  lemma {:induction false} MapEnd(sws0: Dict<NodeId, Switch>, f: Switch -> Switch, sws: Dict<NodeId, Switch>)
    requires MappedUpTo(sws0, f, |sws0.order|, sws)
    ensures sws == MapAll(sws0, f)
  {
    assert sws0.order[..|sws0.order|] == sws0.order;
    assert sws.m == MapAll(sws0, f).m;
  }

  /** The removal loop over `mod.switches.values()`. */
  method StripSwitches(sws0: Dict<NodeId, Switch>, e: Pair) returns (sws: Dict<NodeId, Switch>)
    ensures sws == StripAll(sws0, e)
  {
    sws := sws0;
    for i := 0 to |sws0.order|
      invariant MappedUpTo(sws0, Stripper(e), i, sws)
    {
      var n := sws0.order[i];
      var sw := sws.m[n];
      var f := StripLedger(sw.flows, e);
      MapStep(sws0, Stripper(e), i, sws, sw.(flows := f));
      sws := Set(sws, n, sw.(flows := f));
    }
    MapEnd(sws0, Stripper(e), sws);
  }

  // ---------------------------------------------------------------- adding the new flows

  /** `ky` at inner index `i`: the flow from the path's first node to its last, leaving `q[i]` for `q[i + 1]`. */
  function Ky(q: Path, i: nat): FlowKey
    requires 0 < i && i + 1 < |q|
  {
    FlowKey(Some(q[0]), q[i], q[i + 1], q[|q| - 1])
  }

  /** `rk` at inner index `i`: the flow back from the last node to the first, leaving `q[i - 1]` for `q[i]`. */
  function Rk(q: Path, i: nat): FlowKey
    requires 0 < i && i + 1 < |q|
  {
    FlowKey(Some(q[|q| - 1]), q[i - 1], q[i], q[0])
  }

  /** The writes for the inner indices `1 .. n - 1` of a path, `ky` then `rk`, each of value `v`. */
  function PathWrites(q: Path, v: real, n: nat): seq<(FlowKey, real)>
    requires n < |q|
    decreases n
  {
    if n <= 1 then [] else PathWrites(q, v, n - 1) + [(Ky(q, n - 1), v), (Rk(q, n - 1), v)]
  }

  /** The rate written for a path of weight `w` at the old route's top speed: half of `w * speed` each way. */
  function Rate(w: real, speed: real): real
  {
    (w * speed) / 2.0
  }

  /** The writes for one weighted path; an empty path writes nothing. */
  function ItemWrites(it: (Path, real), speed: real): seq<(FlowKey, real)>
  {
    if |it.0| == 0 then [] else PathWrites(it.0, Rate(it.1, speed), |it.0| - 1)
  }

  /** Every write `with_modified_path` makes, path by path. */
  function RouteWrites(items: seq<(Path, real)>, speed: real): seq<(FlowKey, real)>
    decreases |items|
  {
    if |items| == 0 then [] else RouteWrites(items[..|items| - 1], speed) + ItemWrites(items[|items| - 1], speed)
  }

  /** A key lands in the ledger of switch `s` when `s` is its second field and an `'s'` node. */
  predicate Lands(k: FlowKey, s: NodeId)
  {
    k.sw == s && IsSwitch(s)
  }

  /** One switch with one ledger entry set. */
  function AddFlow(sw: Switch, k: FlowKey, v: real): Switch
  {
    sw.(flows := Set(sw.flows, k, v))
  }

  /** One write: only a known switch named by the key's second field, and an `'s'` node, is updated. */
  function Write(sws: Dict<NodeId, Switch>, kv: (FlowKey, real)): (r: Dict<NodeId, Switch>)
    ensures r.order == sws.order && r.m.Keys == sws.m.Keys
  {
    if IsSwitch(kv.0.sw) && kv.0.sw in sws.m then Set(sws, kv.0.sw, AddFlow(sws.m[kv.0.sw], kv.0, kv.1)) else sws
  }

  function ApplyWrites(sws: Dict<NodeId, Switch>, ws: seq<(FlowKey, real)>): (r: Dict<NodeId, Switch>)
    ensures r.order == sws.order && r.m.Keys == sws.m.Keys
    decreases |ws|
  {
    if |ws| == 0 then sws else Write(ApplyWrites(sws, ws[..|ws| - 1]), ws[|ws| - 1])
  }

  /** The value of the last write to `k`, if any. */
  function LastWrite(ws: seq<(FlowKey, real)>, k: FlowKey): Option<real>
    decreases |ws|
  {
    if |ws| == 0 then None
    else if ws[|ws| - 1].0 == k then Some(ws[|ws| - 1].1)
    else LastWrite(ws[..|ws| - 1], k)
  }

  /**
   * After the writes, a switch's ledger holds a key exactly when it held it
   * before or a write to the key lands there, and then the last such write's
   * value; names and bandwidth stores do not change.
   */
  lemma {:induction false} ApplyWritesMeaning(sws: Dict<NodeId, Switch>, ws: seq<(FlowKey, real)>, s: NodeId, k: FlowKey)
    requires s in sws.m
    ensures var r := ApplyWrites(sws, ws);
      && r.m[s].name == sws.m[s].name && r.m[s].bandwidth == sws.m[s].bandwidth
      && (k in r.m[s].flows.m <==> k in sws.m[s].flows.m || (Lands(k, s) && LastWrite(ws, k).Some?))
      && (k in r.m[s].flows.m ==>
            r.m[s].flows.m[k] == if Lands(k, s) && LastWrite(ws, k).Some? then LastWrite(ws, k).value else sws.m[s].flows.m[k])
    decreases |ws|
  {
    if |ws| > 0 {
      ApplyWritesMeaning(sws, ws[..|ws| - 1], s, k);
      WriteMeaning(ApplyWrites(sws, ws[..|ws| - 1]), ws[|ws| - 1], s, k);
    }
  }

  /** One write changes at most the entry `kv.0` of the ledger it lands in. */
  lemma WriteMeaning(sws: Dict<NodeId, Switch>, kv: (FlowKey, real), s: NodeId, k: FlowKey)
    requires s in sws.m
    ensures var r := Write(sws, kv);
      && r.m[s].name == sws.m[s].name && r.m[s].bandwidth == sws.m[s].bandwidth
      && (k in r.m[s].flows.m <==> k in sws.m[s].flows.m || (Lands(k, s) && kv.0 == k))
      && (k in r.m[s].flows.m ==>
            r.m[s].flows.m[k] == if Lands(k, s) && kv.0 == k then kv.1 else sws.m[s].flows.m[k])
  {
  }

  lemma ApplyWritesSnoc2(sws: Dict<NodeId, Switch>, ws: seq<(FlowKey, real)>, a: (FlowKey, real), b: (FlowKey, real))
    ensures ApplyWrites(sws, ws + [a, b]) == Write(Write(ApplyWrites(sws, ws), a), b)
  {
    var w1 := ws + [a];
    var w2 := ws + [a, b];
    assert ApplyWrites(sws, w2) == Write(ApplyWrites(sws, w1), b) by {
      assert w2[..|w2| - 1] == w1 && w2[|w2| - 1] == b;
    }
    assert ApplyWrites(sws, w1) == Write(ApplyWrites(sws, ws), a) by {
      assert w1[..|w1| - 1] == ws && w1[|w1| - 1] == a;
    }
  }

  lemma RouteWritesStep(items: seq<(Path, real)>, j: nat, speed: real)
    requires j < |items|
    ensures RouteWrites(items[..j + 1], speed) == RouteWrites(items[..j], speed) + ItemWrites(items[j], speed)
  {
    assert items[..j + 1][..j] == items[..j];
  }

  /** The adding loop: for each path and each inner index, `ky` and `rk` are written to known switches. */
  method AddFlows(sws0: Dict<NodeId, Switch>, items: seq<(Path, real)>, speed: real) returns (sws: Dict<NodeId, Switch>)
    ensures sws == ApplyWrites(sws0, RouteWrites(items, speed))
  {
    sws := sws0;
    for j := 0 to |items|
      invariant sws == ApplyWrites(sws0, RouteWrites(items[..j], speed))
    {
      RouteWritesStep(items, j, speed);
      ApplyWritesConcat(sws0, RouteWrites(items[..j], speed), ItemWrites(items[j], speed));
      sws := AddItem(sws, items[j], speed);
    }
    assert items[..|items|] == items;
  }

  /** One turn of the outer loop: the path `q` of weight `w` at rate `Rate(w, speed)`. */
  method AddItem(sws: Dict<NodeId, Switch>, it: (Path, real), speed: real) returns (sws': Dict<NodeId, Switch>)
    ensures sws' == ApplyWrites(sws, ItemWrites(it, speed))
  {
    var (q, w) := it;
    var v := Rate(w, speed);
    if |q| >= 2 {
      sws' := AddPath(sws, q, v);
    } else {
      sws' := sws;
    }
  }

  /** Applying two runs of writes is applying the first, then the second. */
  lemma {:induction false} ApplyWritesConcat(sws: Dict<NodeId, Switch>, ws: seq<(FlowKey, real)>, vs: seq<(FlowKey, real)>)
    ensures ApplyWrites(sws, ws + vs) == ApplyWrites(ApplyWrites(sws, ws), vs)
    decreases |vs|
  {
    if |vs| == 0 {
      assert ws + vs == ws;
    } else {
      var pre, a := vs[..|vs| - 1], vs[|vs| - 1];
      assert ws + vs == (ws + pre) + [a] by {
        assert vs == pre + [a];
      }
      ApplyWritesSnoc(sws, ws + pre, a);
      ApplyWritesSnoc(ApplyWrites(sws, ws), pre, a);
      ApplyWritesConcat(sws, ws, pre);
    }
  }

  lemma ApplyWritesSnoc(sws: Dict<NodeId, Switch>, ws: seq<(FlowKey, real)>, a: (FlowKey, real))
    ensures ApplyWrites(sws, ws + [a]) == Write(ApplyWrites(sws, ws), a)
  {
    assert (ws + [a])[..|ws|] == ws;
  }

  /** The inner loop for one path `q` of rate `v`. */
  method AddPath(sws: Dict<NodeId, Switch>, q: Path, v: real) returns (sws': Dict<NodeId, Switch>)
    requires |q| >= 2
    ensures sws' == ApplyWrites(sws, PathWrites(q, v, |q| - 1))
  {
    sws' := sws;
    for i := 1 to |q| - 1
      invariant sws' == ApplyWrites(sws, PathWrites(q, v, i))
    {
      ApplyWritesSnoc2(sws, PathWrites(q, v, i), (Ky(q, i), v), (Rk(q, i), v));
      sws' := AddHop(sws', q, v, i);
    }
  }

  /** One turn of the inner loop: `ky` and then `rk` written, each only to a known switch. */
  method AddHop(sws: Dict<NodeId, Switch>, q: Path, v: real, i: nat) returns (sws': Dict<NodeId, Switch>)
    requires 1 <= i < |q| - 1
    ensures sws' == Write(Write(sws, (Ky(q, i), v)), (Rk(q, i), v))
  {
    var ky := Ky(q, i);
    var rk := Rk(q, i);
    sws' := sws;
    if IsSwitch(ky.sw) && ky.sw in sws'.m {
      sws' := Set(sws', ky.sw, AddFlow(sws'.m[ky.sw], ky, v));
    }
    if IsSwitch(rk.sw) && rk.sw in sws'.m {
      sws' := Set(sws', rk.sw, AddFlow(sws'.m[rk.sw], rk, v));
    }
  }

  lemma {:induction false} LastWriteConcat(xs: seq<(FlowKey, real)>, ys: seq<(FlowKey, real)>, k: FlowKey)
    ensures LastWrite(xs + ys, k) == if LastWrite(ys, k).Some? then LastWrite(ys, k) else LastWrite(xs, k)
    decreases |ys|
  {
    if |ys| == 0 {
      assert xs + ys == xs;
    } else {
      assert (xs + ys)[..|xs + ys| - 1] == xs + ys[..|ys| - 1];
      LastWriteConcat(xs, ys[..|ys| - 1], k);
    }
  }

  /** `k` is the `ky` or the `rk` of inner index `i` of path `q`. */
  predicate InnerKey(q: Path, i: int, k: FlowKey)
  {
    0 < i && i + 1 < |q| && (k == Ky(q, i) || k == Rk(q, i))
  }

  /** `k` is the `ky` or the `rk` of some inner index of `q`. */
  predicate PathHas(q: Path, k: FlowKey)
  {
    exists i | 0 < i < |q| :: InnerKey(q, i, k)
  }

  /** Some path of the route has `k` as the `ky` or `rk` of an inner index. */
  predicate IsWritten(items: seq<(Path, real)>, k: FlowKey)
  {
    exists j :: 0 <= j < |items| && PathHas(items[j].0, k)
  }

  lemma LastWritePair(a: (FlowKey, real), b: (FlowKey, real), k: FlowKey)
    ensures LastWrite([a, b], k) == if b.0 == k then Some(b.1) else if a.0 == k then Some(a.1) else None
  {
    var one: seq<(FlowKey, real)> := [a];
    assert [a, b][..1] == one;
    assert one[..0] == [];
    assert LastWrite(one, k) == if a.0 == k then Some(a.1) else LastWrite(one[..0], k);
  }

  /** Within one path, a key is written exactly when it is the `ky` or `rk` of an inner index below `n`, with the path's value. */
  lemma {:induction false} PathWritesMeaning(q: Path, v: real, n: nat, k: FlowKey)
    requires n < |q|
    ensures LastWrite(PathWrites(q, v, n), k).Some? <==> exists i :: i < n && InnerKey(q, i, k)
    ensures LastWrite(PathWrites(q, v, n), k).Some? ==> LastWrite(PathWrites(q, v, n), k).value == v
    decreases n
  {
    if n > 1 {
      var a := (Ky(q, n - 1), v);
      var b := (Rk(q, n - 1), v);
      var pre := PathWrites(q, v, n - 1);
      assert PathWrites(q, v, n) == pre + [a, b];
      PathWritesMeaning(q, v, n - 1, k);
      LastWriteConcat(pre, [a, b], k);
      LastWritePair(a, b, k);
      assert InnerKey(q, n - 1, k) <==> k == a.0 || k == b.0;
      if exists i :: i < n && InnerKey(q, i, k) {
        var i :| i < n && InnerKey(q, i, k);
        if i < n - 1 {
          assert LastWrite(pre, k).Some?;
        }
      }
    }
  }

  /** One path writes a key exactly when the key is one of its `ky`/`rk`, and writes the path's rate. */
  lemma ItemWritesMeaning(it: (Path, real), speed: real, k: FlowKey)
    ensures LastWrite(ItemWrites(it, speed), k).Some? <==> PathHas(it.0, k)
    ensures LastWrite(ItemWrites(it, speed), k).Some? ==> LastWrite(ItemWrites(it, speed), k).value == Rate(it.1, speed)
  {
    if |it.0| > 0 {
      PathWritesMeaning(it.0, Rate(it.1, speed), |it.0| - 1, k);
      if PathHas(it.0, k) {
        var i :| 0 < i < |it.0| && InnerKey(it.0, i, k);
        assert i + 1 < |it.0|;
        assert i < |it.0| - 1 && InnerKey(it.0, i, k);
      }
    }
  }

  /** A key is written by the route exactly when it is the `ky` or `rk` of an inner index of one of its paths. */
  lemma {:induction false} RouteWritesKeys(items: seq<(Path, real)>, speed: real, k: FlowKey)
    ensures LastWrite(RouteWrites(items, speed), k).Some? <==> IsWritten(items, k)
    decreases |items|
  {
    if |items| > 0 {
      var n := |items| - 1;
      RouteWritesKeys(items[..n], speed, k);
      LastWriteConcat(RouteWrites(items[..n], speed), ItemWrites(items[n], speed), k);
      ItemWritesMeaning(items[n], speed, k);
      WrittenSnoc(items, k);
    }
  }

  /** The value written last to a key is the rate of one of the route's paths. */
  lemma {:induction false} RouteWritesValue(items: seq<(Path, real)>, speed: real, k: FlowKey)
    requires LastWrite(RouteWrites(items, speed), k).Some?
    ensures exists j :: 0 <= j < |items| && LastWrite(RouteWrites(items, speed), k).value == Rate(items[j].1, speed)
    decreases |items|
  {
    var n := |items| - 1;
    var pre := RouteWrites(items[..n], speed);
    LastWriteConcat(pre, ItemWrites(items[n], speed), k);
    ItemWritesMeaning(items[n], speed, k);
    if !LastWrite(ItemWrites(items[n], speed), k).Some? {
      RouteWritesValue(items[..n], speed, k);
      var j :| 0 <= j < n && LastWrite(pre, k).value == Rate(items[..n][j].1, speed);
      assert items[..n][j] == items[j];
    }
  }

  lemma WrittenSnoc(items: seq<(Path, real)>, k: FlowKey)
    requires |items| > 0
    ensures IsWritten(items, k) <==> IsWritten(items[..|items| - 1], k) || PathHas(items[|items| - 1].0, k)
  {
    var n := |items| - 1;
    var pre := items[..n];
    if IsWritten(pre, k) {
      var j :| 0 <= j < |pre| && PathHas(pre[j].0, k);
      assert items[j] == pre[j];
    }
    if IsWritten(items, k) {
      var j :| 0 <= j < |items| && PathHas(items[j].0, k);
      if j < n {
        assert items[j] == pre[j];
      }
    }
  }

  /** The ledgers `with_modified_path` leaves: the old flows between the ends deleted, the route's flows written. */
  function Surgery(sws: Dict<NodeId, Switch>, e: Pair, r: Route, speed: real): Dict<NodeId, Switch>
  {
    ApplyWrites(StripAll(sws, e), RouteWrites(Items(AsWpa(r).weighted), speed))
  }

  /**
   * After the surgery a switch keeps its name and bandwidth; its ledger
   * holds its old entries not between the ends, at their old rates, and the
   * route's `ky`/`rk` entries that land on it, at the route's rate.
   */
  lemma SurgeryMeaning(sws: Dict<NodeId, Switch>, e: Pair, r: Route, speed: real, s: NodeId, k: FlowKey)
    requires s in sws.m
    ensures var res := Surgery(sws, e, r, speed);
      var items := Items(AsWpa(r).weighted);
      var ws := RouteWrites(items, speed);
      && res.order == sws.order && res.m.Keys == sws.m.Keys
      && res.m[s].name == sws.m[s].name && res.m[s].bandwidth == sws.m[s].bandwidth
      && (k in res.m[s].flows.m <==> (k in sws.m[s].flows.m && !BetweenEnds(k, e)) || (Lands(k, s) && IsWritten(items, k)))
      && (k in res.m[s].flows.m && !(Lands(k, s) && IsWritten(items, k)) ==> res.m[s].flows.m[k] == sws.m[s].flows.m[k])
      && (k in res.m[s].flows.m && Lands(k, s) && IsWritten(items, k) ==>
            exists j :: 0 <= j < |items| && res.m[s].flows.m[k] == Rate(items[j].1, speed))
  {
    var items := Items(AsWpa(r).weighted);
    var ws := RouteWrites(items, speed);
    ApplyWritesMeaning(StripAll(sws, e), ws, s, k);
    RouteWritesKeys(items, speed, k);
    if LastWrite(ws, k).Some? {
      RouteWritesValue(items, speed, k);
    }
  }

  // ---------------------------------------------------------------- the predictor of copy_scaling

  /** The previous predictions (`{}` for `None`), `fixed_hedge` and `decay_multiplier`. */
  datatype Predictor = Predictor(prev: Dict<FlowKey, real>, hedge: real, decay: real)

  /** `prev_value * fixed_hedge`. */
  function Scaled(v: real, hedge: real): real
  {
    v * hedge
  }

  /** `prev_prediction.get(idtf, 0) * decay_multiplier`. */
  function Decayed(prev: real, decay: real): real
  {
    prev * decay
  }

  /**
   * One entry of the hedge-and-decay predictor (Algorithm 1 of Gvozdiev et
   * al., SIGCOMM 2018): the hedged estimate when it beats the previous
   * prediction, otherwise the larger of the decayed prediction and the estimate.
   */
  function Predict(v: real, prev: real, hedge: real, decay: real): real
  {
    var est := Scaled(v, hedge);
    if est > prev then est else Max(Decayed(prev, decay), est)
  }

  lemma DecayShrinks(prev: real, decay: real)
    requires prev >= 0.0 && 0.0 <= decay <= 1.0
    ensures 0.0 <= Decayed(prev, decay) <= prev
  {
    assert prev - prev * decay == prev * (1.0 - decay);
  }

  /**
   * A prediction never falls below the hedged estimate, is either the
   * estimate or the decayed previous prediction, is at least the decayed
   * prediction when the estimate does not beat it, and, with a decay in
   * [0, 1] and a non-negative previous prediction, never exceeds the larger
   * of the previous prediction and the estimate.
   */
  lemma PredictBounds(v: real, prev: real, hedge: real, decay: real)
    ensures var p := Predict(v, prev, hedge, decay);
      && p >= Scaled(v, hedge)
      && (p == Scaled(v, hedge) || p == Decayed(prev, decay))
      && (Scaled(v, hedge) <= prev ==> p >= Decayed(prev, decay))
      && (prev >= 0.0 && 0.0 <= decay <= 1.0 ==> p <= Max(prev, Scaled(v, hedge)))
  {
    if prev >= 0.0 && 0.0 <= decay <= 1.0 {
      DecayShrinks(prev, decay);
    }
  }

  /** The prediction for key `k` whose current rate is `v`. */
  function Next(p: Predictor, k: FlowKey, v: real): real
  {
    Predict(v, GetOr(p.prev, k, 0.0), p.hedge, p.decay)
  }

  /** `next_prediction` after the entries `ks` of one ledger, written over `next`. */
  function PredictLedger(next: Dict<FlowKey, real>, ks: seq<FlowKey>, m: map<FlowKey, real>, p: Predictor): (r: Dict<FlowKey, real>)
    requires forall i | 0 <= i < |ks| :: ks[i] in m
    decreases |ks|
  {
    if |ks| == 0 then next
    else
      var k := ks[|ks| - 1];
      Set(PredictLedger(next, ks[..|ks| - 1], m, p), k, Next(p, k, m[k]))
  }

  /** `next_prediction` after the ledgers of the switches, in switch order. */
  function Predictions(sws: seq<Switch>, p: Predictor): Dict<FlowKey, real>
    decreases |sws|
  {
    if |sws| == 0 then Empty()
    else
      var sw := sws[|sws| - 1];
      PredictLedger(Predictions(sws[..|sws| - 1], p), sw.flows.order, sw.flows.m, p)
  }

  /** The rate of `k` in the last switch ledger that holds it. */
  function LastRate(sws: seq<Switch>, k: FlowKey): Option<real>
    decreases |sws|
  {
    if |sws| == 0 then None
    else if k in sws[|sws| - 1].flows.m then Some(sws[|sws| - 1].flows.m[k])
    else LastRate(sws[..|sws| - 1], k)
  }

  /** The last rate is held by some switch, and no later switch holds the key. */
  lemma LastRateMeaning(sws: seq<Switch>, k: FlowKey)
    ensures LastRate(sws, k).Some? <==> exists i :: 0 <= i < |sws| && k in sws[i].flows.m
    ensures LastRate(sws, k).Some? ==>
      exists i :: 0 <= i < |sws| && k in sws[i].flows.m &&
        LastRate(sws, k).value == sws[i].flows.m[k] && forall j | i < j < |sws| :: k !in sws[j].flows.m
  {
    LastRateSome(sws, k);
    if LastRate(sws, k).Some? {
      var i := LastRateHolder(sws, k);
    }
  }

  /** Some switch's ledger holds `k`. */
  predicate Held(sws: seq<Switch>, k: FlowKey)
  {
    exists i :: 0 <= i < |sws| && k in sws[i].flows.m
  }

  lemma HeldSnoc(sws: seq<Switch>, k: FlowKey)
    requires |sws| > 0
    ensures Held(sws, k) <==> Held(sws[..|sws| - 1], k) || k in sws[|sws| - 1].flows.m
  {
    var pre := sws[..|sws| - 1];
    if Held(pre, k) {
      var i :| 0 <= i < |pre| && k in pre[i].flows.m;
      assert sws[i] == pre[i];
    }
    if Held(sws, k) {
      var i :| 0 <= i < |sws| && k in sws[i].flows.m;
      if i < |pre| {
        assert pre[i] == sws[i];
      }
    }
  }

  lemma {:induction false} LastRateSome(sws: seq<Switch>, k: FlowKey)
    ensures LastRate(sws, k).Some? <==> Held(sws, k)
    decreases |sws|
  {
    if |sws| > 0 {
      LastRateSome(sws[..|sws| - 1], k);
      HeldSnoc(sws, k);
    }
  }

  /** The switch whose rate `LastRate` reports: the last one holding `k`. */
  lemma {:induction false} LastRateHolder(sws: seq<Switch>, k: FlowKey) returns (i: nat)
    requires LastRate(sws, k).Some?
    ensures i < |sws| && k in sws[i].flows.m && LastRate(sws, k).value == sws[i].flows.m[k]
    ensures forall j | i < j < |sws| :: k !in sws[j].flows.m
    decreases |sws|
  {
    var n := |sws| - 1;
    if k in sws[n].flows.m {
      i := n;
    } else {
      var pre := sws[..n];
      i := LastRateHolder(pre, k);
      assert sws[i] == pre[i];
      forall j | i < j < |sws| ensures k !in sws[j].flows.m {
        if j < n {
          assert sws[j] == pre[j];
        }
      }
    }
  }

  /** After one ledger, a key is predicted when it was before or is in the ledger, the ledger's rate deciding. */
  lemma {:induction false} PredictLedgerMeaning(next: Dict<FlowKey, real>, ks: seq<FlowKey>, m: map<FlowKey, real>, p: Predictor, k: FlowKey)
    requires forall i | 0 <= i < |ks| :: ks[i] in m
    ensures var r := PredictLedger(next, ks, m, p);
      && (k in r.m <==> k in next.m || k in ks)
      && (k in r.m ==> r.m[k] == if k in ks then Next(p, k, m[k]) else next.m[k])
    decreases |ks|
  {
    if |ks| > 0 {
      var pre := ks[..|ks| - 1];
      PredictLedgerMeaning(next, pre, m, p, k);
      assert k in ks <==> k in pre || k == ks[|ks| - 1];
    }
  }

  /**
   * `next_prediction` holds exactly the keys of the switches' ledgers, each
   * predicted from its rate in the last switch that holds it.
   */
  lemma {:induction false} PredictionsMeaning(sws: seq<Switch>, p: Predictor, k: FlowKey)
    ensures k in Predictions(sws, p).m <==> LastRate(sws, k).Some?
    ensures k in Predictions(sws, p).m ==> Predictions(sws, p).m[k] == Next(p, k, LastRate(sws, k).value)
    decreases |sws|
  {
    if |sws| > 0 {
      var sw := sws[|sws| - 1];
      PredictionsMeaning(sws[..|sws| - 1], p, k);
      PredictLedgerMeaning(Predictions(sws[..|sws| - 1], p), sw.flows.order, sw.flows.m, p, k);
    }
  }

  /** The first loop of `copy_scaling` over one ledger. */
  method PredictInto(next0: Dict<FlowKey, real>, ledger: Dict<FlowKey, real>, p: Predictor) returns (next: Dict<FlowKey, real>)
    ensures next == PredictLedger(next0, ledger.order, ledger.m, p)
  {
    next := next0;
    for j := 0 to |ledger.order|
      invariant next == PredictLedger(next0, ledger.order[..j], ledger.m, p)
    {
      var idtf := ledger.order[j];
      assert ledger.order[..j + 1][..j] == ledger.order[..j];
      next := PredictEntry(next, idtf, ledger.m[idtf], p);
    }
    assert ledger.order[..|ledger.order|] == ledger.order;
  }

  /** One turn of that loop: the entry `idtf`, whose rate is `prevValue`, gets its prediction. */
  method PredictEntry(next: Dict<FlowKey, real>, idtf: FlowKey, prevValue: real, p: Predictor) returns (next': Dict<FlowKey, real>)
    ensures next' == Set(next, idtf, Next(p, idtf, prevValue))
  {
    var scaledEst := Scaled(prevValue, p.hedge);
    if scaledEst > GetOr(p.prev, idtf, 0.0) {
      next' := Set(next, idtf, scaledEst);
    } else {
      var decayPrediction := Decayed(GetOr(p.prev, idtf, 0.0), p.decay);
      next' := Set(next, idtf, Max(decayPrediction, scaledEst));
    }
  }

  /** The first loop of `copy_scaling`: every ledger of every switch, in switch order. */
  method PredictAll(sws: seq<Switch>, p: Predictor) returns (next: Dict<FlowKey, real>)
    ensures next == Predictions(sws, p)
  {
    next := Empty();
    for i := 0 to |sws|
      invariant next == Predictions(sws[..i], p)
    {
      assert sws[..i + 1][..i] == sws[..i];
      next := PredictInto(next, sws[i].flows, p);
    }
    assert sws[..|sws|] == sws;
  }

  /** A ledger whose every entry is replaced by its prediction; order and keys stay. */
  function RescaledLedger(d: Dict<FlowKey, real>, next: Dict<FlowKey, real>): (r: Dict<FlowKey, real>)
    ensures r.order == d.order && r.m.Keys == d.m.Keys
  {
    RawDict(d.order, map k | k in d.m :: GetOr(next, k, d.m[k]))
  }

  function Rescaler(next: Dict<FlowKey, real>): Switch -> Switch
  {
    (sw: Switch) => sw.(flows := RescaledLedger(sw.flows, next))
  }

  /** The second loop of `copy_scaling` over one ledger: `sw._flow_speed[idtf] = next_prediction[idtf]`. */
  method RescaleLedger(d0: Dict<FlowKey, real>, next: Dict<FlowKey, real>) returns (d: Dict<FlowKey, real>)
    requires forall k | k in d0.m :: k in next.m
    ensures d == RescaledLedger(d0, next)
  {
    d := d0;
    for j := 0 to |d0.order|
      invariant d.order == d0.order && d.m.Keys == d0.m.Keys
      invariant forall k | k in d.m :: d.m[k] == if k in d0.order[..j] then next.m[k] else d0.m[k]
    {
      var idtf := d0.order[j];
      assert idtf !in d0.order[..j] by {
        assert DistinctSeq(d0.order);
      }
      assert d0.order[..j + 1] == d0.order[..j] + [idtf];
      d := Set(d, idtf, next.m[idtf]);
    }
    assert d0.order[..|d0.order|] == d0.order;
    assert d.m == RescaledLedger(d0, next).m;
  }

  /** The second loop of `copy_scaling`: every switch's ledger replaced by the predictions. */
  method RescaleSwitches(sws0: Dict<NodeId, Switch>, next: Dict<FlowKey, real>) returns (sws: Dict<NodeId, Switch>)
    requires forall n, k | n in sws0.m && k in sws0.m[n].flows.m :: k in next.m
    ensures sws == MapAll(sws0, Rescaler(next))
  {
    sws := sws0;
    for i := 0 to |sws0.order|
      invariant MappedUpTo(sws0, Rescaler(next), i, sws)
    {
      var n := sws0.order[i];
      var sw := sws.m[n];
      assert sw == sws0.m[n] by {
        assert n !in sws0.order[..i] by {
          assert DistinctSeq(sws0.order);
        }
      }
      var f := RescaleLedger(sw.flows, next);
      MapStep(sws0, Rescaler(next), i, sws, sw.(flows := f));
      sws := Set(sws, n, sw.(flows := f));
    }
    MapEnd(sws0, Rescaler(next), sws);
  }

  /**
   * The switches `copy_scaling` returns: each keeps its name, bandwidth and
   * ledger keys in order, and each entry becomes the prediction from the
   * key's rate in the last switch that holds it.
   */
  lemma ScalingMeaning(sws: Dict<NodeId, Switch>, p: Predictor, n: NodeId, k: FlowKey)
    requires n in sws.m && k in sws.m[n].flows.m
    ensures var r := MapAll(sws, Rescaler(Predictions(Values(sws), p)));
      && r.m[n].name == sws.m[n].name && r.m[n].bandwidth == sws.m[n].bandwidth
      && r.m[n].flows.order == sws.m[n].flows.order
      && LastRate(Values(sws), k).Some?
      && r.m[n].flows.m[k] == Next(p, k, LastRate(Values(sws), k).value)
  {
    var vs := Values(sws);
    var i :| 0 <= i < |sws.order| && sws.order[i] == n;
    assert vs[i] == sws.m[n];
    LastRateMeaning(vs, k);
    PredictionsMeaning(vs, p, k);
  }
}
