/**
 * topocreatefattree.py: three core switches over four pods. A pod is two outer
 * and two inner switches, fully cross-linked, with two hosts under each inner
 * switch; every outer switch of every pod is linked to every core.
 */
module FatTree {
  import opened NodePair
  import opened Counter
  import opened Topology

  const Speed := 1
  const Core := 3
  const Pods := 4
  const Leafs := 2

  /** Hosts and switches one `create_aggregation_layer()` call draws. */
  const PodHosts := Leafs * Leafs
  const PodSwitches := Leafs + Leafs

  /** The links of the pod whose names follow `h0` and `s0`: outer × inner, then each inner switch's hosts. */
  function PodLinks(h0: nat, s0: nat): (r: seq<Link>)
    ensures |r| == 8
  {
    var outer := SwitchNames(s0, Leafs);
    var inner := SwitchNames(s0 + Leafs, Leafs);
    AttachedLength(inner, h0, Leafs, Speed, false);
    SewRows(outer, inner, Speed) + Attached(inner, h0, Leafs, Speed, false)
  }

  /**
   * What `create_aggregation_layer()` returns when the counters stand at `h0`
   * and `s0`: the two outer switches, then the two inner ones, each inner
   * switch with its `create_edge_layer` hosts.
   */
  function Pod(h0: nat, s0: nat): Topo
  {
    Topo(HostNames(h0, PodHosts), SwitchNames(s0, PodSwitches), PodLinks(h0, s0))
  }

  /** The links of the first `n` pods, the counters at `h0` and `s1` before the first. */
  function PodsLinks(h0: nat, s1: nat, n: nat): (r: seq<Link>)
    ensures |r| == 8 * n
  {
    if n == 0 then [] else PodsLinks(h0, s1, n - 1) + PodLinks(h0 + 4 * (n - 1), s1 + 4 * (n - 1))
  }

  /** The outer switches of the first `n` pods after `s1`, in pod order: `pods_inner_sws`. */
  function Outers(s1: nat, n: nat): (r: seq<NodeId>)
    ensures |r| == 2 * n
  {
    if n == 0 then [] else Outers(s1, n - 1) + SwitchNames(s1 + 4 * (n - 1), Leafs)
  }

  /** What `create_topo` returns when the counters stand at `h0` and `s0`: the cores are drawn first and listed last. */
  function FatTreeTopo(h0: nat, s0: nat): Topo
  {
    var cores := SwitchNames(s0, Core);
    var s1 := s0 + Core;
    Topo(HostNames(h0, 4 * Pods), SwitchNames(s1, 4 * Pods) + cores,
         PodsLinks(h0, s1, Pods) + SewRows(Outers(s1, Pods), cores, Speed))
  }

  /** `create_edge_layer(root)`: `Leafs` fresh hosts under `root`. */
  method CreateEdgeLayer(hostsIter: CounterIterator, root: NodeId)
    returns (hs: seq<NodeId>, ss: seq<NodeId>, ls: seq<Link>)
    modifies hostsIter
    ensures hs == HostNames(old(hostsIter.count), Leafs) && ss == []
    ensures ls == Fan(root, hs, Speed)
    ensures hostsIter.count == old(hostsIter.count) + Leafs
  {
    hs, ls := AttachHosts(hostsIter, root, Leafs, Speed, false, [], []);
    ss := [];
  }

  /** `create_aggregation_layer()`. */
  method CreateAggregationLayer(hostsIter: CounterIterator, switchIter: CounterIterator)
    returns (hs: seq<NodeId>, ss: seq<NodeId>, ls: seq<Link>)
    requires hostsIter != switchIter
    modifies hostsIter, switchIter
    ensures Topo(hs, ss, ls) == Pod(old(hostsIter.count), old(switchIter.count))
    ensures hostsIter.count == old(hostsIter.count) + |hs|
    ensures switchIter.count == old(switchIter.count) + |ss|
  {
    ghost var h0 := hostsIter.count;
    var outer := NextSwitches(switchIter, Leafs);
    var inner := NextSwitches(switchIter, Leafs);
    ls := SewRowsLoop(outer, inner, Speed);
    var edge;
    hs, ss, edge := EdgeLayers(hostsIter, inner);
    ls := ls + edge;
    ss := ss + outer;
    ss := ss + inner;
    SwitchNamesSplit(old(switchIter.count), Leafs, Leafs);
  }

  /** The loop `for i in inner_sws:` of `create_aggregation_layer`, one `create_edge_layer(i)` per switch. */
  method EdgeLayers(hostsIter: CounterIterator, inner: seq<NodeId>)
    returns (hs: seq<NodeId>, ss: seq<NodeId>, ls: seq<Link>)
    modifies hostsIter
    ensures hostsIter.count == old(hostsIter.count) + |inner| * Leafs
    ensures hs == HostNames(old(hostsIter.count), |inner| * Leafs) && ss == []
    ensures ls == Attached(inner, old(hostsIter.count), Leafs, Speed, false)
  {
    ghost var h0 := hostsIter.count;
    hs, ss, ls := [], [], [];
    for k := 0 to |inner|
      invariant hostsIter.count == h0 + k * Leafs
      invariant hs == HostNames(h0, k * Leafs) && ss == []
      invariant ls == Attached(inner[..k], h0, Leafs, Speed, false)
    {
      var h, s, l := CreateEdgeLayer(hostsIter, inner[k]);
      MulSucc(k, Leafs);
      HostNamesSplit(h0, k * Leafs, Leafs);
      AttachedSnoc(inner[..k], h0, Leafs, Speed, false, inner[k], h0 + k * Leafs);
      assert inner[..k + 1] == inner[..k] + [inner[k]];
      hs := hs + h;
      ss := ss + s;
      ls := ls + l;
    }
    assert inner[..|inner|] == inner;
  }

  /** `create_topo()`, drawing names from the two module counters. */
  method CreateTopo(hostsIter: CounterIterator, switchIter: CounterIterator) returns (t: Topo)
    requires hostsIter != switchIter
    modifies hostsIter, switchIter
    ensures t == FatTreeTopo(old(hostsIter.count), old(switchIter.count))
    ensures hostsIter.count == old(hostsIter.count) + |t.hosts|
    ensures switchIter.count == old(switchIter.count) + |t.switches|
  {
    ghost var h0 := hostsIter.count;
    ghost var s0 := switchIter.count;
    var hosts: seq<NodeId> := [];
    var switches: seq<NodeId> := [];
    var links: seq<Link> := [];
    var cores := NextSwitches(switchIter, Core);
    var podsInner: seq<NodeId> := [];
    for i := 0 to Pods
      invariant hostsIter.count == h0 + 4 * i && switchIter.count == s0 + Core + 4 * i
      invariant hosts == HostNames(h0, 4 * i) && switches == SwitchNames(s0 + Core, 4 * i)
      invariant links == PodsLinks(h0, s0 + Core, i) && podsInner == Outers(s0 + Core, i)
    {
      hosts, switches, links, podsInner := AddPod(hostsIter, switchIter, h0, s0 + Core, i, hosts, switches, links, podsInner);
    }
    var cross := SewRowsLoop(podsInner, cores, Speed);
    links := links + cross;
    switches := switches + cores;
    t := Topo(hosts, switches, links);
  }

  /** Pass `i` of the pod loop: one `create_aggregation_layer()` appended to the lists. */
  method AddPod(hostsIter: CounterIterator, switchIter: CounterIterator, ghost h0: nat, ghost s1: nat, ghost i: nat,
                hosts: seq<NodeId>, switches: seq<NodeId>, links: seq<Link>, podsInner: seq<NodeId>)
    returns (hosts': seq<NodeId>, switches': seq<NodeId>, links': seq<Link>, podsInner': seq<NodeId>)
    requires hostsIter != switchIter
    requires hostsIter.count == h0 + 4 * i && switchIter.count == s1 + 4 * i
    requires hosts == HostNames(h0, 4 * i) && switches == SwitchNames(s1, 4 * i)
    requires links == PodsLinks(h0, s1, i) && podsInner == Outers(s1, i)
    modifies hostsIter, switchIter
    ensures hostsIter.count == h0 + 4 * (i + 1) && switchIter.count == s1 + 4 * (i + 1)
    ensures hosts' == HostNames(h0, 4 * (i + 1)) && switches' == SwitchNames(s1, 4 * (i + 1))
    ensures links' == PodsLinks(h0, s1, i + 1) && podsInner' == Outers(s1, i + 1)
  {
    var h, s, l := CreateAggregationLayer(hostsIter, switchIter);
    assert Topo(h, s, l) == Pod(h0 + 4 * i, s1 + 4 * i);
    PodStep(h0, s1, i);
    hosts' := hosts + h;
    switches' := switches + s;
    links' := links + l;
    var keep := if |s| >= Leafs then |s| - Leafs else 0;
    podsInner' := podsInner + s[..keep];
  }

  /** Appending pod `i` to the lists of the first `i` pods gives the lists of the first `i + 1`. */
  lemma PodStep(h0: nat, s1: nat, i: nat)
    ensures var pod := Pod(h0 + 4 * i, s1 + 4 * i);
      && HostNames(h0, 4 * i) + pod.hosts == HostNames(h0, 4 * (i + 1))
      && SwitchNames(s1, 4 * i) + pod.switches == SwitchNames(s1, 4 * (i + 1))
      && PodsLinks(h0, s1, i) + pod.links == PodsLinks(h0, s1, i + 1)
      && |pod.switches| == 4 && Outers(s1, i) + pod.switches[..2] == Outers(s1, i + 1)
  {
    var pod := Pod(h0 + 4 * i, s1 + 4 * i);
    assert 4 * (i + 1) == 4 * i + 4;
    HostNamesSplit(h0, 4 * i, PodHosts);
    SwitchNamesSplit(s1, 4 * i, PodSwitches);
    assert pod.switches[..2] == SwitchNames(s1 + 4 * i, Leafs);
  }

  /** `main`'s use of the builder, between two counter resets. */
  method MainTopo() returns (t: Topo, hostsIter: CounterIterator, switchIter: CounterIterator)
    ensures t == FatTreeTopo(0, 0)
    ensures fresh(hostsIter) && fresh(switchIter) && hostsIter != switchIter
    ensures hostsIter.count == 0 && switchIter.count == 0
  {
    hostsIter, switchIter := ResetIters();
    t := CreateTopo(hostsIter, switchIter);
    hostsIter, switchIter := ResetIters();
  }

  // ---------------------------------------------------------------- properties

  /** 16 hosts, 16 pod switches followed by the 3 cores, and 32 + 24 = 56 links. */
  lemma FatTreeTotals(h0: nat, s0: nat)
    ensures var t := FatTreeTopo(h0, s0);
      && t.hosts == HostNames(h0, 16)
      && t.switches == SwitchNames(s0 + Core, 16) + SwitchNames(s0, Core)
      && |t.links| == 56
  {
  }

  /**
   * Pod `p` is the `p`-th call of `create_aggregation_layer`: its switches
   * are the four after the cores and the earlier pods, its hosts the four
   * after the earlier pods' hosts, and its links the eight after the earlier
   * pods' links.
   */
  lemma PodSlices(h0: nat, s0: nat, p: nat)
    requires p < Pods
    ensures |FatTreeTopo(h0, s0).switches| == 19 && |FatTreeTopo(h0, s0).hosts| == 16
    ensures |FatTreeTopo(h0, s0).links| == 56
    ensures var t := FatTreeTopo(h0, s0);
      var pod := Pod(h0 + 4 * p, s0 + Core + 4 * p);
      && t.switches[4 * p..4 * p + 4] == pod.switches
      && t.hosts[4 * p..4 * p + 4] == pod.hosts
      && t.links[8 * p..8 * p + 8] == pod.links
  {
    var t := FatTreeTopo(h0, s0);
    var s1 := s0 + Core;
    assert t.switches[4 * p..4 * p + 4] == SwitchNames(s1 + 4 * p, 4);
    assert t.hosts[4 * p..4 * p + 4] == HostNames(h0 + 4 * p, 4);
    PodLinksSlice(h0, s1, p);
  }

  lemma PodLinksSlice(h0: nat, s1: nat, p: nat)
    requires p < Pods
    ensures PodsLinks(h0, s1, Pods)[8 * p..8 * p + 8] == PodLinks(h0 + 4 * p, s1 + 4 * p)
  {
    var all := PodsLinks(h0, s1, Pods);
    PodsLinksPrefix(h0, s1, p + 1, Pods);
    var pre := PodsLinks(h0, s1, p + 1);
    assert all[8 * p..8 * p + 8] == pre[8 * p..8 * p + 8];
  }

  /** The links of the first `m` pods are a prefix of those of the first `n`. */
  lemma {:induction false} PodsLinksPrefix(h0: nat, s1: nat, m: nat, n: nat)
    requires m <= n
    ensures PodsLinks(h0, s1, n)[..8 * m] == PodsLinks(h0, s1, m)
  {
    if m < n {
      PodsLinksPrefix(h0, s1, m, n - 1);
      assert PodsLinks(h0, s1, n)[..8 * (n - 1)] == PodsLinks(h0, s1, n - 1);
    }
  }

  /** Pod links join a pod switch to a pod switch or to a host. */
  lemma PodLinkEnds(h0: nat, s0: nat, l: Link)
    requires l in PodLinks(h0, s0)
    ensures IsSwitch(l.a) && s0 < l.a.num <= s0 + 4
    ensures IsHost(l.b) || (IsSwitch(l.b) && s0 < l.b.num <= s0 + 4)
  {
    var outer := SwitchNames(s0, Leafs);
    var inner := SwitchNames(s0 + Leafs, Leafs);
    if l in SewRows(outer, inner, Speed) {
      SewRowsMember(outer, inner, Speed, l);
    } else {
      AttachedMember(inner, h0, Leafs, Speed, false, l);
    }
  }

  /** Inside a pod every outer switch is linked to every inner switch. */
  lemma PodCrossLinks(h0: nat, s0: nat, i: nat, j: nat)
    requires i < Leafs && j < Leafs
    ensures Link(SwitchName(s0 + 1 + i), SwitchName(s0 + Leafs + 1 + j), Speed) in Pod(h0, s0).links
  {
    var outer := SwitchNames(s0, Leafs);
    var inner := SwitchNames(s0 + Leafs, Leafs);
    SwitchNamesMember(s0, Leafs, s0 + 1 + i);
    SwitchNamesMember(s0 + Leafs, Leafs, s0 + Leafs + 1 + j);
    SewRowsMember(outer, inner, Speed, Link(SwitchName(s0 + 1 + i), SwitchName(s0 + Leafs + 1 + j), Speed));
  }

  /** Inner switch `j` of a pod carries hosts `2j + 1` and `2j + 2` of that pod, switch first. */
  lemma PodHostLinks(h0: nat, s0: nat, j: nat, m: nat)
    requires j < Leafs && m < Leafs
    ensures Pod(h0, s0).links[Leafs * Leafs + Leafs * j + m]
         == Link(SwitchName(s0 + Leafs + 1 + j), HostName(h0 + Leafs * j + m + 1), Speed)
  {
    var inner := SwitchNames(s0 + Leafs, Leafs);
    AttachedIndex(inner, h0, Leafs, Speed, false, j, m, Leafs * j);
  }

  /**
   * Switch `k` is an outer switch of one of the first `n` pods exactly when it
   * is among the first two of the four switches some pod draws.
   */
  lemma {:induction false} OutersMember(s1: nat, n: nat, k: int)
    ensures SwitchName(k) in Outers(s1, n) <==> s1 < k <= s1 + 4 * n && (k - s1 - 1) % PodSwitches < Leafs
  {
    if n > 0 {
      OutersMember(s1, n - 1, k);
      var base := s1 + 4 * (n - 1);
      SwitchNamesMember(base, Leafs, k);
      if base < k <= s1 + 4 * n {
        ModInLastBlock(k - s1 - 1, n - 1);
      }
    }
  }

  lemma ModInLastBlock(x: int, q: nat)
    requires 4 * q <= x < 4 * q + PodSwitches
    ensures x % PodSwitches == x - 4 * q
  {
  }

  /** Every link of the first `n` pods starts at a pod switch and ends at a pod switch or a host. */
  lemma {:induction false} PodsLinkEnds(h0: nat, s1: nat, n: nat, l: Link)
    requires l in PodsLinks(h0, s1, n)
    ensures IsSwitch(l.a) && s1 < l.a.num <= s1 + 4 * n
    ensures IsHost(l.b) || (IsSwitch(l.b) && s1 < l.b.num <= s1 + 4 * n)
  {
    if l in PodsLinks(h0, s1, n - 1) {
      PodsLinkEnds(h0, s1, n - 1, l);
    } else {
      PodLinkEnds(h0 + 4 * (n - 1), s1 + 4 * (n - 1), l);
    }
  }

  /**
   * A switch is linked to core `c` exactly when it is an outer switch of a
   * pod: one of the first two of the four switches each pod draws.
   */
  lemma FatTreeCoreLinks(h0: nat, s0: nat, c: nat, k: int)
    requires 0 < c <= Core
    ensures Link(SwitchName(k), SwitchName(s0 + c), Speed) in FatTreeTopo(h0, s0).links
        <==> s0 + Core < k <= s0 + Core + 4 * Pods && (k - s0 - Core - 1) % PodSwitches < Leafs
  {
    var cores := SwitchNames(s0, Core);
    var s1 := s0 + Core;
    var l := Link(SwitchName(k), SwitchName(s0 + c), Speed);
    SewRowsMember(Outers(s1, Pods), cores, Speed, l);
    SwitchNamesMember(s0, Core, s0 + c);
    OutersMember(s1, Pods, k);
    if l in PodsLinks(h0, s1, Pods) {
      PodsLinkEnds(h0, s1, Pods, l);
    }
  }
}
