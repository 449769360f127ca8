/**
 * topocreateclos.py: a two-tier leaf/spine fabric. Eight leaves, each with two
 * hosts, and three spines, each linked to every leaf.
 */
module Clos {
  import opened NodePair
  import opened Counter
  import opened Topology

  const SpineSpeed := 1
  const LeafSpeed := 1
  const SpineCount := 3
  const LeafCount := 8
  const HostLeaf := 2

  /** What `create_topo` returns when the counters stand at `h0` and `s0`. */
  function ClosTopo(h0: nat, s0: nat): Topo
  {
    var leaves := SwitchNames(s0, LeafCount);
    var spines := SwitchNames(s0 + LeafCount, SpineCount);
    Topo(HostNames(h0, LeafCount * HostLeaf), leaves + spines,
         Attached(leaves, h0, HostLeaf, LeafSpeed, false) + SewRows(spines, leaves, SpineSpeed))
  }

  /** `create_topo()`, drawing names from the two module counters. */
  method CreateTopo(hostsIter: CounterIterator, switchIter: CounterIterator) returns (t: Topo)
    requires hostsIter != switchIter
    modifies hostsIter, switchIter
    ensures t == ClosTopo(old(hostsIter.count), old(switchIter.count))
    ensures hostsIter.count == old(hostsIter.count) + LeafCount * HostLeaf
    ensures switchIter.count == old(switchIter.count) + LeafCount + SpineCount
  {
    ghost var h0 := hostsIter.count;
    ghost var s0 := switchIter.count;
    var hosts: seq<NodeId> := [];
    var switches: seq<NodeId> := [];
    var links: seq<Link> := [];
    var spines: seq<NodeId> := [];
    var leafs: seq<NodeId> := [];
    for l := 0 to LeafCount
      invariant switchIter.count == s0 + l && hostsIter.count == h0 + l * HostLeaf
      invariant leafs == SwitchNames(s0, l) && switches == leafs
      invariant hosts == HostNames(h0, l * HostLeaf)
      invariant links == Attached(leafs, h0, HostLeaf, LeafSpeed, false)
    {
      var s := NextSwitch(switchIter);
      SwitchNamesSplit(s0, l, 1);
      ghost var lbase := leafs;
      leafs := leafs + [s];
      switches := switches + [s];
      hosts, links := AttachHosts(hostsIter, s, HostLeaf, LeafSpeed, false, hosts, links);
      MulSucc(l, HostLeaf);
      HostNamesSplit(h0, l * HostLeaf, HostLeaf);
      AttachedSnoc(lbase, h0, HostLeaf, LeafSpeed, false, s, h0 + l * HostLeaf);
    }
    spines := NextSwitches(switchIter, SpineCount);
    switches := switches + spines;
    var cross := SewRowsLoop(spines, leafs, SpineSpeed);
    links := links + cross;
    t := Topo(hosts, switches, links);
  }

  /**
   * `main`'s use of the builder: the counters are replaced by fresh ones before
   * and after building, so every run builds `ClosTopo(0, 0)` and leaves fresh
   * counters behind.
   */
  method MainTopo() returns (t: Topo, hostsIter: CounterIterator, switchIter: CounterIterator)
    ensures t == ClosTopo(0, 0)
    ensures fresh(hostsIter) && fresh(switchIter) && hostsIter != switchIter
    ensures hostsIter.count == 0 && switchIter.count == 0
  {
    hostsIter, switchIter := ResetIters();
    t := CreateTopo(hostsIter, switchIter);
    hostsIter, switchIter := ResetIters();
  }

  /** 16 hosts, 11 switches and 16 + 24 = 40 links. */
  lemma ClosTotals(h0: nat, s0: nat)
    ensures |ClosTopo(h0, s0).hosts| == 16
    ensures |ClosTopo(h0, s0).switches| == 11
    ensures |ClosTopo(h0, s0).links| == 40
  {
    AttachedLength(SwitchNames(s0, LeafCount), h0, HostLeaf, LeafSpeed, false);
  }

  /** Leaves are `s(s0+1) .. s(s0+8)`, spines the next three switch names. */
  lemma ClosSwitchNames(h0: nat, s0: nat, i: nat)
    requires i < LeafCount + SpineCount
    ensures ClosTopo(h0, s0).switches[i] == SwitchName(s0 + 1 + i)
  {
    var t := ClosTopo(h0, s0);
    if i >= LeafCount {
      assert t.switches[i] == SwitchNames(s0 + LeafCount, SpineCount)[i - LeafCount];
    }
  }

  /** Link `2l + j` joins leaf `l` to host `2l + j`, leaf first. */
  lemma ClosLeafLink(h0: nat, s0: nat, l: nat, j: nat)
    requires l < LeafCount && j < HostLeaf
    ensures ClosTopo(h0, s0).links[l * HostLeaf + j]
         == Link(SwitchName(s0 + 1 + l), HostName(h0 + 1 + l * HostLeaf + j), LeafSpeed)
  {
    var leaves := SwitchNames(s0, LeafCount);
    AttachedLength(leaves[..l], h0, HostLeaf, LeafSpeed, false);
    AttachedIndex(leaves, h0, HostLeaf, LeafSpeed, false, l, j, l * HostLeaf);
  }

  /** Link `16 + 8k + l` joins spine `k` to leaf `l`, spine first. */
  lemma ClosSpineLink(h0: nat, s0: nat, k: nat, l: nat)
    requires k < SpineCount && l < LeafCount
    ensures LeafCount * HostLeaf + k * LeafCount + l < |ClosTopo(h0, s0).links|
    ensures ClosTopo(h0, s0).links[LeafCount * HostLeaf + k * LeafCount + l]
         == Link(SwitchName(s0 + LeafCount + 1 + k), SwitchName(s0 + 1 + l), SpineSpeed)
  {
    var leaves := SwitchNames(s0, LeafCount);
    var spines := SwitchNames(s0 + LeafCount, SpineCount);
    SewRowsIndex(spines, leaves, SpineSpeed, k, l);
    AttachedLength(leaves, h0, HostLeaf, LeafSpeed, false);
  }

  /** Every spine is linked to every leaf, and no spine to anything else. */
  lemma ClosSpinesMeetLeaves(h0: nat, s0: nat, a: nat, b: nat)
    requires 0 < b <= LeafCount
    ensures Link(SwitchName(s0 + a), SwitchName(s0 + b), SpineSpeed) in ClosTopo(h0, s0).links
        <==> LeafCount < a <= LeafCount + SpineCount
  {
    var leaves := SwitchNames(s0, LeafCount);
    var spines := SwitchNames(s0 + LeafCount, SpineCount);
    var l := Link(SwitchName(s0 + a), SwitchName(s0 + b), SpineSpeed);
    SewRowsMember(spines, leaves, SpineSpeed, l);
    SwitchNamesMember(s0 + LeafCount, SpineCount, s0 + a);
    SwitchNamesMember(s0, LeafCount, s0 + b);
    if l in Attached(leaves, h0, HostLeaf, LeafSpeed, false) {
      AttachedMember(leaves, h0, HostLeaf, LeafSpeed, false, l);
    }
  }
}
