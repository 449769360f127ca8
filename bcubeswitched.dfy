/**
 * topocreatebcubeswitched.py: the BCube layout with a switch in front of
 * every host. A pod is one switch over four leaf switches, each leaf with one
 * host of its own; spine `i` is linked to leaf `i` of every pod.
 */
module BCubeSwitched {
  import opened NodePair
  import opened Counter
  import opened Topology
  import BCube

  const Speed := 1
  const Pods := 4
  const Hps := 1

  /** The leaf switches of the pod drawn when the switch counter stands at `s0`: the four after the pod switch. */
  function Leaves(s0: nat): (r: seq<NodeId>)
    ensures |r| == Pods
  {
    SwitchNames(s0 + 1, Pods)
  }

  /** The links of the pod drawn at `h0` and `s0`: each leaf to its host, then `sew_rows([sw], leaves)`. */
  function PodLinks(h0: nat, s0: nat): (r: seq<Link>)
  {
    Attached(Leaves(s0), h0, Hps, Speed, false) + Fan(SwitchName(s0 + 1), Leaves(s0), Speed)
  }

  /** The links of the first `n` pods, the counters at `h0` and `s1` before the first. */
  function PodsLinks(h0: nat, s1: nat, n: nat): seq<Link>
  {
    if n == 0 then [] else PodsLinks(h0, s1, n - 1) + PodLinks(h0 + 4 * (n - 1), s1 + 5 * (n - 1))
  }

  /** `stategic`: the leaves of each of the first `n` pods, `s[-PODS:]`. */
  function LeafRows(s1: nat, n: nat): (r: seq<seq<NodeId>>)
    ensures |r| == n && forall i | 0 <= i < n :: r[i] == Leaves(s1 + 5 * i)
  {
    seq(n, i requires 0 <= i < n => Leaves(s1 + 5 * i))
  }

  lemma PodsSnoc(h0: nat, s1: nat, i: nat)
    ensures PodsLinks(h0, s1, i + 1) == PodsLinks(h0, s1, i) + PodLinks(h0 + 4 * i, s1 + 5 * i)
    ensures LeafRows(s1, i + 1) == LeafRows(s1, i) + [Leaves(s1 + 5 * i)]
  {
  }

  /** What `create_topo()` returns when the counters stand at `h0` and `s0`. */
  function BCubeSwitchedTopo(h0: nat, s0: nat): Topo
  {
    var spines := SwitchNames(s0, Pods);
    Topo(HostNames(h0, 16), SwitchNames(s0 + Pods, 20) + spines,
         PodsLinks(h0, s0 + Pods, Pods) + BCube.SpineLinks(spines, LeafRows(s0 + Pods, Pods)))
  }

  /** `create_edge_layer(root)`: `Hps` fresh hosts under the leaf `root`. */
  method CreateEdgeLayer(hostsIter: CounterIterator, root: NodeId)
    returns (hs: seq<NodeId>, ss: seq<NodeId>, ls: seq<Link>)
    modifies hostsIter
    ensures hs == HostNames(old(hostsIter.count), Hps) && ss == []
    ensures ls == Fan(root, hs, Speed)
    ensures hostsIter.count == old(hostsIter.count) + Hps
  {
    hs, ls := AttachHosts(hostsIter, root, Hps, Speed, false, [], []);
    ss := [];
  }

  /** The loop `for leaf in hosts:` of `create_pod`, one `create_edge_layer(leaf)` per leaf. */
  method EdgeLayers(hostsIter: CounterIterator, leaves: seq<NodeId>)
    returns (hs: seq<NodeId>, ss: seq<NodeId>, ls: seq<Link>)
    modifies hostsIter
    ensures hostsIter.count == old(hostsIter.count) + |leaves| * Hps
    ensures hs == HostNames(old(hostsIter.count), |leaves| * Hps) && ss == []
    ensures ls == Attached(leaves, old(hostsIter.count), Hps, Speed, false)
  {
    ghost var h0 := hostsIter.count;
    hs, ss, ls := [], [], [];
    for k := 0 to |leaves|
      invariant hostsIter.count == h0 + k * Hps
      invariant hs == HostNames(h0, k * Hps) && ss == []
      invariant ls == Attached(leaves[..k], h0, Hps, Speed, false)
    {
      var h, s, l := CreateEdgeLayer(hostsIter, leaves[k]);
      HostNamesSplit(h0, k * Hps, Hps);
      AttachedSnoc(leaves[..k], h0, Hps, Speed, false, leaves[k], h0 + k * Hps);
      assert leaves[..k + 1] == leaves[..k] + [leaves[k]];
      hs := hs + h;
      ss := ss + s;
      ls := ls + l;
    }
    assert leaves[..|leaves|] == leaves;
  }

  /** `create_pod()`: the pod switch, four leaves, a host under each leaf, and the pod switch linked to every leaf. */
  method CreatePod(hostsIter: CounterIterator, switchIter: CounterIterator)
    returns (hs: seq<NodeId>, ss: seq<NodeId>, ls: seq<Link>)
    requires hostsIter != switchIter
    modifies hostsIter, switchIter
    ensures hostsIter.count == old(hostsIter.count) + 4 && switchIter.count == old(switchIter.count) + Pods + 1
    ensures hs == HostNames(old(hostsIter.count), 4) && ss == SwitchNames(old(switchIter.count), Pods + 1)
    ensures ls == PodLinks(old(hostsIter.count), old(switchIter.count))
    ensures ss[|ss| - Pods..] == Leaves(old(switchIter.count))
  {
    ghost var s0 := switchIter.count;
    var sw := NextSwitch(switchIter);
    var leaves := NextSwitches(switchIter, Pods);
    var edge;
    hs, ss, edge := EdgeLayers(hostsIter, leaves);
    ss := ss + [sw];
    ss := ss + leaves;
    var sewn := SewRowsLoop([sw], leaves, Speed);
    assert [sw][1..] == [];
    ls := edge + sewn;
    SwitchNamesSplit(s0, 1, Pods);
    assert ss[|ss| - Pods..] == leaves;
  }

  /** `create_topo()`, drawing names from the two module counters. */
  method CreateTopo(hostsIter: CounterIterator, switchIter: CounterIterator) returns (t: Topo)
    requires hostsIter != switchIter
    modifies hostsIter, switchIter
    ensures t == BCubeSwitchedTopo(old(hostsIter.count), old(switchIter.count))
    ensures hostsIter.count == old(hostsIter.count) + |t.hosts|
    ensures switchIter.count == old(switchIter.count) + |t.switches|
  {
    ghost var h0 := hostsIter.count;
    ghost var s0 := switchIter.count;
    var hosts: seq<NodeId> := [];
    var switches: seq<NodeId> := [];
    var links: seq<Link> := [];
    var spines := NextSwitches(switchIter, Pods);
    var stategic: seq<seq<NodeId>> := [];
    for i := 0 to Pods
      invariant hostsIter.count == h0 + 4 * i && switchIter.count == s0 + Pods + 5 * i
      invariant hosts == HostNames(h0, 4 * i) && switches == SwitchNames(s0 + Pods, 5 * i)
      invariant links == PodsLinks(h0, s0 + Pods, i) && stategic == LeafRows(s0 + Pods, i)
    {
      hosts, switches, links, stategic := AddPod(hostsIter, switchIter, h0, s0 + Pods, i, hosts, switches, links, stategic);
    }
    var cross := BCube.SpineLinksLoop(spines, stategic);
    links := links + cross;
    switches := switches + spines;
    t := Topo(hosts, switches, links);
  }

  /** One turn of `create_topo()`'s pod loop: pod `i` drawn and appended, its leaves kept. */
  method AddPod(hostsIter: CounterIterator, switchIter: CounterIterator, ghost h0: nat, ghost s1: nat, i: nat,
                hosts: seq<NodeId>, switches: seq<NodeId>, links: seq<Link>, stategic: seq<seq<NodeId>>)
    returns (hosts': seq<NodeId>, switches': seq<NodeId>, links': seq<Link>, stategic': seq<seq<NodeId>>)
    requires hostsIter != switchIter
    requires hostsIter.count == h0 + 4 * i && switchIter.count == s1 + 5 * i
    requires hosts == HostNames(h0, 4 * i) && switches == SwitchNames(s1, 5 * i)
    requires links == PodsLinks(h0, s1, i) && stategic == LeafRows(s1, i)
    modifies hostsIter, switchIter
    ensures hostsIter.count == h0 + 4 * (i + 1) && switchIter.count == s1 + 5 * (i + 1)
    ensures hosts' == HostNames(h0, 4 * (i + 1)) && switches' == SwitchNames(s1, 5 * (i + 1))
    ensures links' == PodsLinks(h0, s1, i + 1) && stategic' == LeafRows(s1, i + 1)
  {
    var h, s, l := CreatePod(hostsIter, switchIter);
    PodsSnoc(h0, s1, i);
    HostNamesSplit(h0, 4 * i, 4);
    SwitchNamesSplit(s1, 5 * i, Pods + 1);
    hosts' := hosts + h;
    switches' := switches + s;
    links' := links + l;
    stategic' := stategic + [s[|s| - Pods..]];
  }

  /** `main`'s use of the builder, between two counter resets. */
  method MainTopo() returns (t: Topo, hostsIter: CounterIterator, switchIter: CounterIterator)
    ensures t == BCubeSwitchedTopo(0, 0)
    ensures fresh(hostsIter) && fresh(switchIter) && hostsIter != switchIter
    ensures hostsIter.count == 0 && switchIter.count == 0
  {
    hostsIter, switchIter := ResetIters();
    t := CreateTopo(hostsIter, switchIter);
    hostsIter, switchIter := ResetIters();
  }

  // ---------------------------------------------------------------- properties

  lemma PodLinksLength(h0: nat, s0: nat)
    ensures |PodLinks(h0, s0)| == 2 * Pods
  {
    AttachedLength(Leaves(s0), h0, Hps, Speed, false);
  }

  lemma {:induction false} PodsLinksLength(h0: nat, s1: nat, n: nat)
    ensures |PodsLinks(h0, s1, n)| == 8 * n
    decreases n
  {
    if n > 0 {
      PodsLinksLength(h0, s1, n - 1);
      PodLinksLength(h0 + 4 * (n - 1), s1 + 5 * (n - 1));
    }
  }

  /** 16 hosts; the 20 pod and leaf switches followed by the 4 spines; 32 pod links and 16 spine links. */
  lemma BCubeSwitchedTotals(h0: nat, s0: nat)
    ensures var t := BCubeSwitchedTopo(h0, s0);
      && t.hosts == HostNames(h0, 16)
      && t.switches == SwitchNames(s0 + Pods, 20) + SwitchNames(s0, Pods)
      && |t.links| == 48
  {
    PodsLinksLength(h0, s0 + Pods, Pods);
    BCube.SpineLinksLength(SwitchNames(s0, Pods), LeafRows(s0 + Pods, Pods));
  }

  /** Link `32 + 4p + i` joins spine `i` to leaf `i` of pod `p`, spine first. */
  lemma SpineToLeaf(h0: nat, s0: nat, p: nat, i: nat)
    requires p < Pods && i < Pods
    ensures var t := BCubeSwitchedTopo(h0, s0);
      && |t.links| == 48
      && t.links[32 + 4 * p + i] == Link(SwitchName(s0 + i + 1), SwitchName(s0 + Pods + 5 * p + i + 2), Speed)
  {
    BCubeSwitchedTotals(h0, s0);
    PodsLinksLength(h0, s0 + Pods, Pods);
    BCube.SpineLink(SwitchNames(s0, Pods), LeafRows(s0 + Pods, Pods), p, i);
  }

  /** Within a pod, no host is the pod switch's neighbour: hosts hang off the leaves only. */
  lemma PodDegree(h0: nat, s0: nat, k: int)
    ensures Degree(PodLinks(h0, s0), HostName(k)) == if h0 < k <= h0 + 4 then 1 else 0
  {
    var leaves := Leaves(s0);
    DegreeConcat(Attached(leaves, h0, Hps, Speed, false), Fan(SwitchName(s0 + 1), leaves, Speed), HostName(k));
    DegreeAttached(leaves, h0, Hps, Speed, k);
    DegreeFan(SwitchName(s0 + 1), leaves, Speed, HostName(k));
    SwitchNamesHaveNoHost(s0 + 1, Pods, HostName(k));
  }

  lemma {:induction false} PodsDegree(h0: nat, s1: nat, n: nat, k: int)
    ensures Degree(PodsLinks(h0, s1, n), HostName(k)) == if h0 < k <= h0 + 4 * n then 1 else 0
    decreases n
  {
    if n > 0 {
      PodsDegree(h0, s1, n - 1, k);
      DegreeConcat(PodsLinks(h0, s1, n - 1), PodLinks(h0 + 4 * (n - 1), s1 + 5 * (n - 1)), HostName(k));
      PodDegree(h0 + 4 * (n - 1), s1 + 5 * (n - 1), k);
    }
  }

  /** No spine link reaches a host. */
  lemma {:induction false} SpinesDegree(s0: nat, s1: nat, n: nat, k: int)
    ensures Degree(BCube.SpineLinks(SwitchNames(s0, Pods), LeafRows(s1, n)), HostName(k)) == 0
    decreases n
  {
    if n > 0 {
      var spines := SwitchNames(s0, Pods);
      var rows := LeafRows(s1, n);
      assert rows[..n - 1] == LeafRows(s1, n - 1);
      SpinesDegree(s0, s1, n - 1, k);
      DegreeConcat(BCube.SpineLinks(spines, rows[..n - 1]), Zip(spines, rows[n - 1], Speed), HostName(k));
      SwitchNamesHaveNoHost(s0, Pods, HostName(k));
      SwitchNamesHaveNoHost(s1 + 5 * (n - 1) + 1, Pods, HostName(k));
      DegreeZip(spines, rows[n - 1], Speed, HostName(k));
    }
  }

  /** Every host has exactly one link, to its leaf switch. */
  lemma HostDegree(h0: nat, s0: nat, k: int)
    requires h0 < k <= h0 + 16
    ensures Degree(BCubeSwitchedTopo(h0, s0).links, HostName(k)) == 1
  {
    var spines := SwitchNames(s0, Pods);
    DegreeConcat(PodsLinks(h0, s0 + Pods, Pods), BCube.SpineLinks(spines, LeafRows(s0 + Pods, Pods)), HostName(k));
    PodsDegree(h0, s0 + Pods, Pods, k);
    SpinesDegree(s0, s0 + Pods, Pods, k);
  }
}
