/**
 * `SimulatableNetwork` of latencycontroller.py: the switches' ledgers keyed by
 * switch name, the route table (a `UsageStore` object shared with whoever
 * passed it in) and the link capacities of the topology. The derived views
 * `_reinit` caches (`last_speed`, `link_usage`, `link_flows`) are functions of
 * the ledgers here; the operations that build new networks are methods.
 */
module Network {
  import opened Wrappers
  import opened NodePair
  import opened Dict
  import opened Stores
  import opened Routes
  import opened Weighted
  import opened Ledger
  import Topology

  // ---------------------------------------------------------------- switches by name

  /** Every switch is stored under its own name. */
  predicate NamesMatch(sws: Dict<NodeId, Switch>)
  {
    forall n | n in sws.m :: sws.m[n].name == n
  }

  function NamedItems(sws: seq<Switch>): (r: seq<(NodeId, Switch)>)
    ensures |r| == |sws| && forall i | 0 <= i < |sws| :: r[i] == (sws[i].name, sws[i])
  {
    seq(|sws|, i requires 0 <= i < |sws| => (sws[i].name, sws[i]))
  }

  /** `{sw._sw: sw for sw in sws}`: a later switch of the same name replaces an earlier one. */
  function Named(sws: seq<Switch>): Dict<NodeId, Switch>
  {
    FromItems(NamedItems(sws))
  }

  /** The names are exactly the switches' names, and each is stored under its own. */
  lemma NamedMeaning(sws: seq<Switch>, n: NodeId)
    ensures n in Named(sws).m <==> exists i :: 0 <= i < |sws| && sws[i].name == n
    ensures NamesMatch(Named(sws))
  {
    var items := NamedItems(sws);
    if exists i :: 0 <= i < |sws| && sws[i].name == n {
      var i :| 0 <= i < |sws| && sws[i].name == n;
      assert items[i].0 == n;
    }
    forall x | x in Named(sws).m ensures Named(sws).m[x].name == x {
      FromItemsValue(items, x);
    }
  }

  /** Rebuilding a network from its own switches (as `copy()` does) gives the same dict back. */
  lemma NamedValues(d: Dict<NodeId, Switch>)
    requires NamesMatch(d)
    ensures Named(Values(d)) == d
  {
    assert NamedItems(Values(d)) == Items(d);
    FromItemsOfItems(d);
  }

  // ---------------------------------------------------------------- what with_modified_path and copy_normalized compute

  /**
   * The switches `with_modified_path(newpath)` returns, computed from the
   * receiver's switches and route table: `IndexError` when `newpath`'s first
   * path is empty or the old route's flow speed cannot be computed.
   */
  function Modified(sws: Dict<NodeId, Switch>, ps: Store<Route>, newpath: Route): (r: Result<Dict<NodeId, Switch>>)
    ensures r.Err? ==> r.error == IndexError
  {
    match Ends(newpath)
    case Err(e) => Err(e)
    case Ok(ends) =>
      match MaxFlowSpeed(Values(sws), Lookup(ps, ends.0, ends.1))
      case Err(e) => Err(e)
      case Ok(speed) => Ok(Surgery(sws, ends, newpath, speed))
  }

  /**
   * `with_modified_path` fails exactly on an empty new path or an empty old
   * route; otherwise it keeps every switch's name and bandwidth store.
   */
  lemma ModifiedMeaning(sws: Dict<NodeId, Switch>, ps: Store<Route>, newpath: Route)
    requires NamesMatch(sws)
    ensures Modified(sws, ps, newpath).Ok? <==>
      |FirstPath(newpath)| > 0 && |FirstPath(Lookup(ps, FirstPath(newpath)[0], FirstPath(newpath)[|FirstPath(newpath)| - 1]))| > 0
    ensures Modified(sws, ps, newpath).Ok? ==>
      var r := Modified(sws, ps, newpath).value;
      && r.order == sws.order && r.m.Keys == sws.m.Keys && NamesMatch(r)
      && forall n | n in sws.m :: r.m[n].bandwidth == sws.m[n].bandwidth
  {
    if Modified(sws, ps, newpath).Ok? {
      var ends := Ends(newpath).value;
      var speed := MaxFlowSpeed(Values(sws), Lookup(ps, ends.0, ends.1)).value;
      forall n | n in sws.m
        ensures Surgery(sws, ends, newpath, speed).m[n].name == n
        ensures Surgery(sws, ends, newpath, speed).m[n].bandwidth == sws.m[n].bandwidth
      {
        SurgeryMeaning(sws, ends, newpath, speed, n, FlowKey(None, n, n, n));
      }
    }
  }

  /**
   * The switches `copy_normalized` ends with: each route of the table, in
   * table order, applied to the switches so far, always against the same
   * table (every step's route table is a copy taken before its own update).
   */
  function Normalized(sws: Dict<NodeId, Switch>, ps: Store<Route>, routes: seq<Route>): (r: Result<Dict<NodeId, Switch>>)
    ensures r.Err? ==> r.error == IndexError
    decreases |routes|
  {
    if |routes| == 0 then Ok(sws)
    else
      match Normalized(sws, ps, routes[..|routes| - 1])
      case Err(e) => Err(e)
      case Ok(s) => Modified(s, ps, routes[|routes| - 1])
  }

  /** One more route re-applied: the table after `i + 1` routes is the table after `i` with route `i` applied. */
  lemma NormalizedSnoc(sws: Dict<NodeId, Switch>, ps: Store<Route>, routes: seq<Route>, i: nat)
    requires i < |routes| && Normalized(sws, ps, routes[..i]).Ok?
    ensures Normalized(sws, ps, routes[..i + 1]) == Modified(Normalized(sws, ps, routes[..i]).value, ps, routes[i])
  {
    assert routes[..i + 1][..i] == routes[..i];
  }

  /** Once a prefix of the routes fails, the whole normalisation fails. */
  lemma {:induction false} NormalizedErrStays(sws: Dict<NodeId, Switch>, ps: Store<Route>, routes: seq<Route>, i: nat)
    requires i <= |routes| && Normalized(sws, ps, routes[..i]).Err?
    ensures Normalized(sws, ps, routes).Err?
    decreases |routes| - i
  {
    if i < |routes| {
      assert routes[..i + 1][..i] == routes[..i];
      NormalizedErrStays(sws, ps, routes, i + 1);
    } else {
      assert routes[..i] == routes;
    }
  }

  /** A route with an empty first path makes `copy_normalized` fail, as the initial all-`[]` table does. */
  lemma {:induction false} NormalizedEmptyRoute(sws: Dict<NodeId, Switch>, ps: Store<Route>, routes: seq<Route>, i: nat)
    requires i < |routes| && |FirstPath(routes[i])| == 0
    ensures Normalized(sws, ps, routes).Err?
  {
    assert routes[..i + 1][..i] == routes[..i];
    assert routes[..i + 1][i] == routes[i];
    NormalizedErrStays(sws, ps, routes, i + 1);
  }

  /** Every successful normalisation step keeps the switch names. */
  lemma {:induction false} NormalizedNames(sws: Dict<NodeId, Switch>, ps: Store<Route>, routes: seq<Route>)
    requires NamesMatch(sws)
    ensures Normalized(sws, ps, routes).Ok? ==>
      var r := Normalized(sws, ps, routes).value;
      NamesMatch(r) && r.order == sws.order && r.m.Keys == sws.m.Keys
    decreases |routes|
  {
    if |routes| > 0 {
      NormalizedNames(sws, ps, routes[..|routes| - 1]);
      var pre := Normalized(sws, ps, routes[..|routes| - 1]);
      if pre.Ok? {
        ModifiedMeaning(pre.value, ps, routes[|routes| - 1]);
      }
    }
  }

  /** `copy_scaling`'s `next_prediction` holds exactly the keys of the switches' ledgers. */
  lemma {:induction false} PredictionKeys(sws: Dict<NodeId, Switch>, p: Predictor, k: FlowKey)
    ensures k in Predictions(Values(sws), p).m <==> exists n :: n in sws.m && k in sws.m[n].flows.m
  {
    var vs := Values(sws);
    PredictionsMeaning(vs, p, k);
    LastRateMeaning(vs, k);
    if exists n :: n in sws.m && k in sws.m[n].flows.m {
      var n :| n in sws.m && k in sws.m[n].flows.m;
      var i :| 0 <= i < |sws.order| && sws.order[i] == n;
      assert vs[i] == sws.m[n];
    }
    if exists i :: 0 <= i < |vs| && k in vs[i].flows.m {
      var i :| 0 <= i < |vs| && k in vs[i].flows.m;
      assert sws.order[i] in sws.m;
    }
  }

  // ---------------------------------------------------------------- the views _reinit caches

  /** Each switch's `_link_speed` proxy, as a plain store. */
  function LinkStores(sws: seq<Switch>): (r: seq<Store<real>>)
    ensures |r| == |sws| && forall i | 0 <= i < |sws| :: r[i] == FlowProxyStorage(sws[i].flows)
  {
    seq(|sws|, i requires 0 <= i < |sws| => FlowProxyStorage(sws[i].flows))
  }

  /** The total rate on link `l`, over every entry of every switch's ledger. */
  function SpeedSum(sws: seq<Switch>, l: Pair): real
    decreases |sws|
  {
    if |sws| == 0 then 0.0
    else
      var sw := sws[|sws| - 1];
      SpeedSum(sws[..|sws| - 1], l) + LinkTotal(sw.flows.order, sw.flows.m, l)
  }

  /** `last_speed`: the switches' link proxies viewed together and summed. */
  function LastSpeed(sws: seq<Switch>): Store<real>
  {
    ProxyStorage(LinkStores(sws), Some(Sum))
  }

  lemma {:induction false} PresentSum(sws: seq<Switch>, l: Pair)
    ensures Sum(Present(LinkStores(sws), l)) == SpeedSum(sws, l)
    decreases |sws|
  {
    if |sws| > 0 {
      var n := |sws| - 1;
      var st := LinkStores(sws);
      var pre := Present(st[..n], l);
      var own := LinkTotal(sws[n].flows.order, sws[n].flows.m, l);
      assert Sum(pre) == SpeedSum(sws[..n], l) by {
        assert st[..n] == LinkStores(sws[..n]);
        PresentSum(sws[..n], l);
      }
      assert Sum(Present(st, l)) == Sum(pre) + own by {
        LastPresent(sws, l);
      }
    }
  }

  /** The last switch adds its own total on the link to what the others collect. */
  lemma LastPresent(sws: seq<Switch>, l: Pair)
    requires |sws| > 0
    ensures Sum(Present(LinkStores(sws), l)) ==
      Sum(Present(LinkStores(sws)[..|sws| - 1], l)) + LinkTotal(sws[|sws| - 1].flows.order, sws[|sws| - 1].flows.m, l)
  {
    var n := |sws| - 1;
    var st := LinkStores(sws);
    var pre := Present(st[..n], l);
    var flows := sws[n].flows;
    FlowPairsTotal(flows.order, flows.m, l);
    assert st[n].pairs == FlowPairs(flows.order, flows.m);
    if l in st[n].pairs.m {
      assert Present(st, l) == pre + [LinkTotal(flows.order, flows.m, l)];
      SumAppend(pre, LinkTotal(flows.order, flows.m, l));
    } else {
      assert Present(st, l) == pre;
    }
  }

  /** `last_speed[(a, b)]` is the total rate the ledgers put on the link, 0 for a link no entry uses. */
  lemma LastSpeedReading(sws: seq<Switch>, a: NodeId, b: NodeId)
    ensures Lookup(LastSpeed(sws), a, b) == SpeedSum(sws, SortPair(a, b))
  {
    var l := SortPair(a, b);
    var stores := LinkStores(sws);
    PresentSum(sws, l);
    SortPairIdempotent(a, b);
    if l !in LastSpeed(sws).pairs.m {
      PresentEmpty(stores, l);
    }
  }

  /** `ls / max(ms, 0.0000000000001)`. */
  function UsageRatio(ms: real, ls: real): real
  {
    ls / Ledger.Max(ms, 0.0000000000001)
  }

  /** `link_usage`: for every link of the capacity store, its total rate over its capacity. */
  function LinkUsage(maxSpeed: Store<real>, sws: seq<Switch>): Store<real>
  {
    Combine(maxSpeed, LastSpeed(sws), UsageRatio)
  }

  /**
   * `link_usage` holds exactly the capacity store's links, each with its
   * total rate divided by its capacity (floored at 1e-13); other links read 0.
   */
  lemma LinkUsageReading(maxSpeed: Store<real>, sws: seq<Switch>, a: NodeId, b: NodeId)
    requires Canonical(maxSpeed)
    ensures HasLink(LinkUsage(maxSpeed, sws), a, b) <==> HasLink(maxSpeed, a, b)
    ensures HasLink(maxSpeed, a, b) ==>
      Lookup(LinkUsage(maxSpeed, sws), a, b) == SpeedSum(sws, SortPair(a, b)) / Ledger.Max(Lookup(maxSpeed, a, b), 0.0000000000001)
    ensures !HasLink(maxSpeed, a, b) ==> Lookup(LinkUsage(maxSpeed, sws), a, b) == 0.0
  {
    CombineLookup(maxSpeed, LastSpeed(sws), UsageRatio, a, b);
    LastSpeedReading(sws, a, b);
  }

  // ---------------------------------------------------------------- the stores built from the topology

  /** `UsageStore(dict(items), default)`: the dict first (a later raw key wins), then each key canonicalised. */
  function FromList<V>(items: seq<(Pair, V)>, default: V): Store<V>
  {
    Build(FromItems(items), default)
  }

  /** Some key of `keys` canonicalises to `l`. */
  predicate Canonicalises(keys: seq<Pair>, l: Pair)
  {
    exists i :: 0 <= i < |keys| && SortPair(keys[i].0, keys[i].1) == l
  }

  /** Two key lists with the same members canonicalise to the same links. */
  lemma SameMembersCanonicalise(k1: seq<Pair>, k2: seq<Pair>, l: Pair)
    requires forall x :: x in k1 <==> x in k2
    ensures Canonicalises(k1, l) <==> Canonicalises(k2, l)
  {
    if Canonicalises(k1, l) {
      var i :| 0 <= i < |k1| && SortPair(k1[i].0, k1[i].1) == l;
      assert k1[i] in k2;
      var j :| 0 <= j < |k2| && k2[j] == k1[i];
    }
    if Canonicalises(k2, l) {
      var j :| 0 <= j < |k2| && SortPair(k2[j].0, k2[j].1) == l;
      assert k2[j] in k1;
      var i :| 0 <= i < |k1| && k1[i] == k2[j];
    }
  }

  /** The built store holds a link exactly when some item's pair canonicalises to it. */
  lemma FromListHas<V>(items: seq<(Pair, V)>, default: V, a: NodeId, b: NodeId)
    ensures HasLink(FromList(items, default), a, b) <==>
      exists i :: 0 <= i < |items| && SortPair(items[i].0.0, items[i].0.1) == SortPair(a, b)
  {
    var d := FromItems(items);
    var keys := ItemKeys(items);
    UpdateAllHasLink(Store(Empty(), default), d.order, d.m, a, b);
    forall x
      ensures x in d.order <==> x in keys
    {
      FromItemsKeys(items, x);
    }
    SameMembersCanonicalise(d.order, keys, SortPair(a, b));
    assert Canonicalises(keys, SortPair(a, b)) <==>
      exists i :: 0 <= i < |items| && SortPair(items[i].0.0, items[i].0.1) == SortPair(a, b);
  }

  /** Every reading of the built store is its default or the value of some item. */
  lemma FromListValue<V>(items: seq<(Pair, V)>, default: V, a: NodeId, b: NodeId)
    ensures Lookup(FromList(items, default), a, b) == default ||
      exists i :: 0 <= i < |items| && Lookup(FromList(items, default), a, b) == items[i].1
  {
    var d := FromItems(items);
    UpdateAllValue(Store(Empty(), default), d.order, d.m, a, b);
    if Lookup(FromList(items, default), a, b) != default {
      var t :| 0 <= t < |d.order| && SortPair(d.order[t].0, d.order[t].1) == SortPair(a, b) &&
        Lookup(FromList(items, default), a, b) == d.m[d.order[t]];
      FromItemsValue(items, d.order[t]);
    }
  }

  /** An item whose link no other item shares is read back with its own value. */
  lemma FromListUnique<V>(items: seq<(Pair, V)>, default: V, j: nat)
    requires j < |items|
    requires forall i | 0 <= i < |items| && i != j :: SortPair(items[i].0.0, items[i].0.1) != SortPair(items[j].0.0, items[j].0.1)
    ensures HasLink(FromList(items, default), items[j].0.0, items[j].0.1)
    ensures Lookup(FromList(items, default), items[j].0.0, items[j].0.1) == items[j].1
  {
    var d := FromItems(items);
    var k := items[j].0;
    FromItemsLastWins(items, j);
    var t :| 0 <= t < |d.order| && d.order[t] == k;
    forall u | 0 <= u < |d.order| && u != t
      ensures SortPair(d.order[u].0, d.order[u].1) != SortPair(k.0, k.1)
    {
      assert d.order[u] in d.m;
      var i :| 0 <= i < |items| && items[i].0 == d.order[u];
      assert d.order[u] != k by {
        assert DistinctSeq(d.order);
      }
    }
    UpdateAllUnique(Store(Empty(), default), d.order, d.m, t, k.0, k.1);
  }

  /** The first two fields of a topology link. */
  function Ends2(l: Topology.Link): Pair
  {
    (l.a, l.b)
  }

  function PortItems(links: seq<Topology.Link>): (r: seq<(Pair, int)>)
    ensures |r| == |links| && forall i | 0 <= i < |links| :: r[i] == (Ends2(links[i]), i + 1)
  {
    seq(|links|, i requires 0 <= i < |links| => (Ends2(links[i]), i + 1))
  }

  function ZeroItems(links: seq<Topology.Link>): (r: seq<(Pair, int)>)
    ensures |r| == |links| && forall i | 0 <= i < |links| :: r[i] == (Ends2(links[i]), 0)
  {
    seq(|links|, i requires 0 <= i < |links| => (Ends2(links[i]), 0))
  }

  function BandwidthItems(links: seq<Topology.Link>): (r: seq<(Pair, real)>)
    ensures |r| == |links| && forall i | 0 <= i < |links| :: r[i] == (Ends2(links[i]), links[i].bw as real)
  {
    seq(|links|, i requires 0 <= i < |links| => (Ends2(links[i]), links[i].bw as real))
  }

  /** `portno_from_list(enumerate(links))`: the i-th link gets port number i + 1. */
  function PortNumbers(links: seq<Topology.Link>): Store<int>
  {
    FromList(PortItems(links), 0)
  }

  /** `usage_store_from_list(enumerate(links))`: every link at 0. */
  function ZeroUsage(links: seq<Topology.Link>): Store<int>
  {
    FromList(ZeroItems(links), 0)
  }

  /** `bandwidth_from_list(enumerate(links))`: every link at its capacity. */
  function Bandwidths(links: seq<Topology.Link>): Store<real>
  {
    FromList(BandwidthItems(links), 0.0)
  }

  /** Some link of the topology canonicalises to `(a, b)`'s link. */
  predicate OnTopology(links: seq<Topology.Link>, a: NodeId, b: NodeId)
  {
    exists i :: 0 <= i < |links| && SortPair(links[i].a, links[i].b) == SortPair(a, b)
  }

  /** A link no other link of the topology canonicalises to. */
  predicate UniqueLink(links: seq<Topology.Link>, j: nat)
    requires j < |links|
  {
    forall i | 0 <= i < |links| && i != j :: SortPair(links[i].a, links[i].b) != SortPair(links[j].a, links[j].b)
  }

  /** A store built from the links' items holds exactly the topology's links. */
  lemma {:induction false} LinkItemsHold<V>(links: seq<Topology.Link>, items: seq<(Pair, V)>, default: V, a: NodeId, b: NodeId)
    requires |items| == |links| && forall i | 0 <= i < |links| :: items[i].0 == Ends2(links[i])
    ensures HasLink(FromList(items, default), a, b) <==> OnTopology(links, a, b)
  {
    FromListHas(items, default, a, b);
    if OnTopology(links, a, b) {
      var i :| 0 <= i < |links| && SortPair(links[i].a, links[i].b) == SortPair(a, b);
      assert SortPair(items[i].0.0, items[i].0.1) == SortPair(a, b);
    }
  }

  /** The port-number store holds exactly the topology's links. */
  lemma PortNumbersHold(links: seq<Topology.Link>, a: NodeId, b: NodeId)
    ensures HasLink(PortNumbers(links), a, b) <==> OnTopology(links, a, b)
  {
    LinkItemsHold(links, PortItems(links), 0, a, b);
  }

  /** The capacity store holds exactly the topology's links. */
  lemma BandwidthsHold(links: seq<Topology.Link>, a: NodeId, b: NodeId)
    ensures HasLink(Bandwidths(links), a, b) <==> OnTopology(links, a, b)
  {
    LinkItemsHold(links, BandwidthItems(links), 0.0, a, b);
  }

  /** The usage store holds exactly the topology's links, and every link reads 0. */
  lemma ZeroUsageBuilt(links: seq<Topology.Link>, a: NodeId, b: NodeId)
    ensures HasLink(ZeroUsage(links), a, b) <==> OnTopology(links, a, b)
    ensures Lookup(ZeroUsage(links), a, b) == 0
  {
    LinkItemsHold(links, ZeroItems(links), 0, a, b);
    FromListValue(ZeroItems(links), 0, a, b);
  }

  /** A link no other link shares reads its port number i + 1 and its capacity. */
  lemma PortAndBandwidth(links: seq<Topology.Link>, j: nat)
    requires j < |links| && UniqueLink(links, j)
    ensures Lookup(PortNumbers(links), links[j].a, links[j].b) == j + 1
    ensures Lookup(Bandwidths(links), links[j].a, links[j].b) == links[j].bw as real
  {
    FromListUnique(PortItems(links), 0, j);
    FromListUnique(BandwidthItems(links), 0.0, j);
  }

  /** The pairs `(x, y)` for `y` in `ys`, `y != x`, each with an empty route. */
  function HostRow(x: NodeId, ys: seq<NodeId>): (r: seq<(Pair, Route)>)
    ensures forall i | 0 <= i < |r| :: r[i].1 == Plain([]) && r[i].0.0 == x && r[i].0.1 in ys && r[i].0.1 != x
    ensures forall y | y in ys && y != x :: ((x, y), Plain([])) in r
    decreases |ys|
  {
    if |ys| == 0 then []
    else
      var y := ys[|ys| - 1];
      assert forall z | z in ys[..|ys| - 1] :: z in ys;
      HostRow(x, ys[..|ys| - 1]) + (if y != x then [((x, y), Plain([]))] else [])
  }

  /** `[((x, y), list()) for x in xs for y in hosts if x != y]`. */
  function HostPairs(xs: seq<NodeId>, hosts: seq<NodeId>): (r: seq<(Pair, Route)>)
    ensures forall i | 0 <= i < |r| :: r[i].1 == Plain([]) && r[i].0.0 in xs && r[i].0.1 in hosts && r[i].0.0 != r[i].0.1
    ensures forall x, y | x in xs && y in hosts && x != y :: ((x, y), Plain([])) in r
    decreases |xs|
  {
    if |xs| == 0 then []
    else
      var x := xs[|xs| - 1];
      assert forall z | z in xs[..|xs| - 1] :: z in xs;
      HostPairs(xs[..|xs| - 1], hosts) + HostRow(x, hosts)
  }

  /** `host_path_from_list(hosts)`: an empty route for every ordered pair of distinct hosts, default `[]`. */
  function HostPaths(hosts: seq<NodeId>): Store<Route>
  {
    FromList(HostPairs(hosts, hosts), Plain([]))
  }

  /** Every route of the initial table is empty, and it holds exactly the links between two distinct hosts. */
  lemma HostPathsBuilt(hosts: seq<NodeId>, a: NodeId, b: NodeId)
    ensures Lookup(HostPaths(hosts), a, b) == Plain([])
    ensures HasLink(HostPaths(hosts), a, b) <==>
      exists x, y :: x in hosts && y in hosts && x != y && SortPair(x, y) == SortPair(a, b)
  {
    var items := HostPairs(hosts, hosts);
    FromListValue(items, Plain([]), a, b);
    FromListHas(items, Plain([]), a, b);
    if exists x, y :: x in hosts && y in hosts && x != y && SortPair(x, y) == SortPair(a, b) {
      var x, y :| x in hosts && y in hosts && x != y && SortPair(x, y) == SortPair(a, b);
      assert ((x, y), Plain([])) in items;
    }
  }

  // ---------------------------------------------------------------- the network object

  /** A `SimulatableNetwork`. */
  class SimNetwork {
    var switches: Dict<NodeId, Switch>
    const paths: UsageStore<Route>
    /** `bandwidth_from_list(enumerate(network_topo[2]))`: the topology is a parameter here. */
    const maxSpeed: Store<real>

    ghost predicate Valid()
      reads this, paths
    {
      Canonical(paths.Value()) && NamesMatch(switches)
    }

    /**
     * `SimulatableNetwork(sws, paths)`. The route table is a `UsageStore`,
     * every write to which goes through `__setitem__`'s `_sort_pair`, so its
     * keys are canonical.
     */
    constructor (sws: seq<Switch>, paths: UsageStore<Route>, maxSpeed: Store<real>)
      requires Canonical(paths.Value())
      ensures switches == Named(sws) && this.paths == paths && this.maxSpeed == maxSpeed
      ensures Valid()
    {
      switches := Named(sws);
      this.paths := paths;
      this.maxSpeed := maxSpeed;
      new;
      NamedMeaning(sws, NodeId('s', 0));
    }

    /** `get_path(h1, h2)`. */
    function GetPath(h1: NodeId, h2: NodeId): Route
      reads this, paths
    {
      paths.GetItem(h1, h2)
    }

    /** `get_routes()`: a fresh copy of the route table. */
    method GetRoutes() returns (r: UsageStore<Route>)
      requires Valid()
      ensures fresh(r) && r.Value() == paths.Value()
    {
      r := paths.Copy();
    }

    /** `copy()`: a new network over the same switches and a copy of the route table. */
    method Copy() returns (net: SimNetwork)
      requires Valid()
      ensures fresh(net) && fresh(net.paths)
      ensures net.switches == switches && net.paths.Value() == paths.Value() && net.maxSpeed == maxSpeed
      ensures net.Valid()
    {
      var p := paths.Copy();
      NamedValues(switches);
      net := new SimNetwork(Values(switches), p, maxSpeed);
    }

    /**
     * `with_modified_path(newpath)`: a copy whose ledgers are rewritten for
     * the new route. The receiver's switches do not change, but the new
     * route goes into the receiver's own route table, not the copy's, and a
     * plain path is stored as its one-path aggregate `{tuple(newpath): 1.0}`.
     */
    method WithModifiedPath(newpath: Route) returns (r: Result<SimNetwork>)
      requires Valid()
      modifies paths
      ensures r.Ok? <==> Modified(switches, old(paths.Value()), newpath).Ok?
      ensures r.Err? ==> r.error == IndexError && paths.Value() == old(paths.Value())
      ensures r.Ok? ==>
        var ends := Ends(newpath).value;
        && fresh(r.value) && fresh(r.value.paths)
        && r.value.switches == Modified(switches, old(paths.Value()), newpath).value
        && r.value.paths.Value() == old(paths.Value()) && r.value.maxSpeed == maxSpeed
        && paths.Value() == Update(old(paths.Value()), ends.0, ends.1, Multi(AsWpa(newpath)))
        && r.value.Valid()
      ensures Valid()
    {
      var mod := Copy();
      var ns := ModifiedSwitches(mod.switches, paths.Value(), newpath);
      if ns.Err? {
        return Err(IndexError);
      }
      ModifiedMeaning(switches, paths.Value(), newpath);
      var ends := Ends(newpath).value;
      mod.switches := ns.value;
      paths.SetItem(ends.0, ends.1, Multi(AsWpa(newpath)));
      r := Ok(mod);
    }

    /** The switch surgery of `with_modified_path` on the copy's switches, before any of it is stored. */
    static method ModifiedSwitches(sws: Dict<NodeId, Switch>, ps: Store<Route>, newpath: Route)
      returns (r: Result<Dict<NodeId, Switch>>)
      ensures r == Modified(sws, ps, newpath)
    {
      var ends := Ends(newpath);
      if ends.Err? {
        return Err(IndexError);
      }
      var p0 := ends.value.0;
      var pl := ends.value.1;
      var oldpath := Lookup(ps, p0, pl);
      var flowspeed := MaxFlowSpeed(Values(sws), oldpath);
      if flowspeed.Err? {
        return Err(IndexError);
      }
      var stripped := StripSwitches(sws, (p0, pl));
      var added := AddFlows(stripped, Items(AsWpa(newpath).weighted), flowspeed.value);
      r := Ok(added);
    }

    /** `copy_normalized()`: every route of the table re-applied, in table order, to a copy. */
    method CopyNormalized() returns (r: Result<SimNetwork>)
      requires Valid()
      ensures r.Ok? <==> Normalized(switches, paths.Value(), Values(paths.Value().pairs)).Ok?
      ensures r.Err? ==> r.error == IndexError
      ensures r.Ok? ==>
        && fresh(r.value)
        && r.value.switches == Normalized(switches, paths.Value(), Values(paths.Value().pairs)).value
        && r.value.paths.Value() == paths.Value() && r.value.maxSpeed == maxSpeed
        && r.value.Valid()
    {
      var net := Copy();
      var routes := net.GetRoutes();
      var vals := Values(routes.pairs);
      for i := 0 to |vals|
        invariant fresh(net) && fresh(net.paths) && net.Valid()
        invariant net.paths.Value() == paths.Value() && net.maxSpeed == maxSpeed
        invariant Normalized(switches, paths.Value(), vals[..i]) == Ok(net.switches)
      {
        NormalizedSnoc(switches, paths.Value(), vals, i);
        var next := net.WithModifiedPath(vals[i]);
        if next.Err? {
          NormalizedErrStays(switches, paths.Value(), vals, i + 1);
          return Err(IndexError);
        }
        net := next.value;
      }
      assert vals[..|vals|] == vals;
      r := Ok(net);
    }

    /**
     * `copy_scaling(prev_prediction, fixed_hedge, decay_multiplier)`: a copy
     * whose every ledger entry is replaced by its prediction, and the
     * predictions; the receiver does not change.
     */
    method CopyScaling(prev: Option<Dict<FlowKey, real>>, hedge: real, decay: real) returns (net: SimNetwork, next: Dict<FlowKey, real>)
      requires Valid()
      ensures var p := Predictor(if prev.None? then Empty() else prev.value, hedge, decay);
        next == Predictions(Values(switches), p)
      ensures forall k :: k in next.m <==> exists n :: n in switches.m && k in switches.m[n].flows.m
      ensures fresh(net) && fresh(net.paths)
      ensures net.switches == MapAll(switches, Rescaler(next))
      ensures net.paths.Value() == paths.Value() && net.maxSpeed == maxSpeed && net.Valid()
    {
      var p := Predictor(if prev.None? then Empty() else prev.value, hedge, decay);
      net := Copy();
      next := PredictAll(Values(net.switches), p);
      forall k ensures k in next.m <==> exists n :: n in switches.m && k in switches.m[n].flows.m {
        PredictionKeys(switches, p, k);
      }
      net.switches := RescaleSwitches(net.switches, next);
    }
  }
}
