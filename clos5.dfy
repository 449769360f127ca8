/**
 * topocreateclos5.py: a five-stage folded Clos. Rows of 4, 2, 2, 2 and 4
 * switches; each row after the first is fully linked to the row before it,
 * and the first and the last row carry two hosts per switch.
 */
module Clos5 {
  import opened NodePair
  import opened Counter
  import opened Topology

  const HostsPerLeaf := 2
  const K: seq<nat> := [4, 2, 2, 2, 4]
  const KBw := 1
  const HBw := 1

  /** The builder's lists after some rows, and the last row built. */
  datatype Rows = Rows(hosts: seq<NodeId>, switches: seq<NodeId>, links: seq<Link>, last: seq<NodeId>)

  /**
   * One pass of `for row in map(create_row, k)` with `k` switches: a row with no
   * row before it gets the hosts, any other is sewn to the row before it.
   * The counters stand at `h0 + |hosts|` and `s0 + |switches|`.
   */
  function RowStep(h0: nat, s0: nat, b: Rows, k: nat): Rows
  {
    var row := SwitchNames(s0 + |b.switches|, k);
    if |b.last| <= 0 then
      Rows(b.hosts + HostNames(h0 + |b.hosts|, k * HostsPerLeaf), b.switches + row,
           b.links + Attached(row, h0 + |b.hosts|, HostsPerLeaf, HBw, true), row)
    else
      Rows(b.hosts, b.switches + row, b.links + SewRows(row, b.last, KBw), row)
  }

  /** The row loop over the row sizes `ks`. */
  function RowsFold(h0: nat, s0: nat, ks: seq<nat>): Rows
    decreases |ks|
  {
    if |ks| == 0 then Rows([], [], [], [])
    else RowStep(h0, s0, RowsFold(h0, s0, ks[..|ks| - 1]), ks[|ks| - 1])
  }

  lemma RowsFoldSnoc(h0: nat, s0: nat, ks: seq<nat>, i: nat)
    requires i < |ks|
    ensures RowsFold(h0, s0, ks[..i + 1]) == RowStep(h0, s0, RowsFold(h0, s0, ks[..i]), ks[i])
  {
    assert ks[..i + 1][..i] == ks[..i];
  }

  /** What `create_topo` returns when the counters stand at `h0` and `s0`. */
  function Clos5Topo(h0: nat, s0: nat): Topo
  {
    var b := RowsFold(h0, s0, K);
    var start := h0 + |b.hosts|;
    Topo(b.hosts + HostNames(start, |b.last| * HostsPerLeaf), b.switches,
         b.links + Attached(b.last, start, HostsPerLeaf, HBw, true))
  }

  /** `create_topo()`, drawing names from the two module counters. */
  method CreateTopo(hostsIter: CounterIterator, switchIter: CounterIterator) returns (t: Topo)
    requires hostsIter != switchIter
    modifies hostsIter, switchIter
    ensures t == Clos5Topo(old(hostsIter.count), old(switchIter.count))
    ensures hostsIter.count == old(hostsIter.count) + |t.hosts|
    ensures switchIter.count == old(switchIter.count) + |t.switches|
  {
    ghost var h0 := hostsIter.count;
    ghost var s0 := switchIter.count;
    var hosts: seq<NodeId> := [];
    var switches: seq<NodeId> := [];
    var links: seq<Link> := [];
    var lastRow: seq<NodeId> := [];
    for i := 0 to |K|
      invariant hostsIter.count == h0 + |hosts| && switchIter.count == s0 + |switches|
      invariant Rows(hosts, switches, links, lastRow) == RowsFold(h0, s0, K[..i])
    {
      RowsFoldSnoc(h0, s0, K, i);
      hosts, switches, links, lastRow := AddRow(hostsIter, switchIter, h0, s0, K[i], hosts, switches, links, lastRow);
    }
    assert K[..|K|] == K;
    hosts, links := AttachAll(hostsIter, lastRow, HostsPerLeaf, HBw, true, hosts, links);
    t := Topo(hosts, switches, links);
  }

  /** One pass of the row loop: a row of `k` switches, given hosts or sewn to the row before. */
  method AddRow(hostsIter: CounterIterator, switchIter: CounterIterator, ghost h0: nat, ghost s0: nat, k: nat,
                hosts: seq<NodeId>, switches: seq<NodeId>, links: seq<Link>, lastRow: seq<NodeId>)
    returns (hosts': seq<NodeId>, switches': seq<NodeId>, links': seq<Link>, lastRow': seq<NodeId>)
    requires hostsIter != switchIter
    requires hostsIter.count == h0 + |hosts| && switchIter.count == s0 + |switches|
    modifies hostsIter, switchIter
    ensures hostsIter.count == h0 + |hosts'| && switchIter.count == s0 + |switches'|
    ensures Rows(hosts', switches', links', lastRow') == RowStep(h0, s0, Rows(hosts, switches, links, lastRow), k)
  {
    var row := NextSwitches(switchIter, k);
    hosts', links' := hosts, links;
    if |lastRow| <= 0 {
      hosts', links' := AttachAll(hostsIter, row, HostsPerLeaf, HBw, true, hosts, links);
    } else {
      var cross := SewRowsLoop(row, lastRow, KBw);
      links' := links + cross;
    }
    switches' := switches + row;
    lastRow' := row;
  }

  /** `main`'s use of the builder, between two counter resets. */
  method MainTopo() returns (t: Topo, hostsIter: CounterIterator, switchIter: CounterIterator)
    ensures t == Clos5Topo(0, 0)
    ensures fresh(hostsIter) && fresh(switchIter) && hostsIter != switchIter
    ensures hostsIter.count == 0 && switchIter.count == 0
  {
    hostsIter, switchIter := ResetIters();
    t := CreateTopo(hostsIter, switchIter);
    hostsIter, switchIter := ResetIters();
  }

  /** Row `i` of the fabric: `K[i]` consecutive switch names starting after `s0 + off`. */
  function Row(s0: nat, off: nat, k: nat): seq<NodeId>
  {
    SwitchNames(s0 + off, k)
  }

  /** The links of the first row's hosts. */
  function FirstHosts(h0: nat, s0: nat): seq<Link>
  {
    Attached(Row(s0, 0, 4), h0, HostsPerLeaf, HBw, true)
  }

  /** The links between consecutive rows, in the order the rows are built. */
  function Sewn(s0: nat): seq<Link>
  {
    SewRows(Row(s0, 4, 2), Row(s0, 0, 4), KBw)
      + SewRows(Row(s0, 6, 2), Row(s0, 4, 2), KBw)
      + SewRows(Row(s0, 8, 2), Row(s0, 6, 2), KBw)
      + SewRows(Row(s0, 10, 4), Row(s0, 8, 2), KBw)
  }

  lemma RowsAfterTwo(h0: nat, s0: nat)
    ensures RowsFold(h0, s0, K[..2])
         == Rows(HostNames(h0, 8), Row(s0, 0, 4) + Row(s0, 4, 2),
                 FirstHosts(h0, s0) + SewRows(Row(s0, 4, 2), Row(s0, 0, 4), KBw), Row(s0, 4, 2))
  {
    assert K[..1][..0] == [] && K[..2][..1] == K[..1];
    assert RowsFold(h0, s0, K[..1][..0]) == Rows([], [], [], []);
    assert |K[..1]| == 1 && K[..1][0] == 4;
    var b1 := RowsFold(h0, s0, K[..1]);
    assert b1 == RowStep(h0, s0, Rows([], [], [], []), 4);
    assert b1 == Rows(HostNames(h0, 8), Row(s0, 0, 4), FirstHosts(h0, s0), Row(s0, 0, 4));
  }

  lemma RowsAfterFour(h0: nat, s0: nat)
    ensures RowsFold(h0, s0, K[..4])
         == Rows(HostNames(h0, 8), Row(s0, 0, 4) + Row(s0, 4, 2) + Row(s0, 6, 2) + Row(s0, 8, 2),
                 FirstHosts(h0, s0) + SewRows(Row(s0, 4, 2), Row(s0, 0, 4), KBw)
                   + SewRows(Row(s0, 6, 2), Row(s0, 4, 2), KBw)
                   + SewRows(Row(s0, 8, 2), Row(s0, 6, 2), KBw), Row(s0, 8, 2))
  {
    assert K[..3][..2] == K[..2] && K[..4][..3] == K[..3];
    RowsAfterTwo(h0, s0);
  }

  lemma RowsAfterAll(h0: nat, s0: nat)
    ensures RowsFold(h0, s0, K)
         == Rows(HostNames(h0, 8), Row(s0, 0, 4) + Row(s0, 4, 2) + Row(s0, 6, 2) + Row(s0, 8, 2) + Row(s0, 10, 4),
                 FirstHosts(h0, s0) + Sewn(s0), Row(s0, 10, 4))
  {
    assert K[..5][..4] == K[..4] && K[..5] == K;
    RowsAfterFour(h0, s0);
  }

  /**
   * The whole topology written out: hosts h(h0+1)..h(h0+16), switches
   * s(s0+1)..s(s0+14) row by row, the hosts of the first row, each row sewn
   * to the one before it, and the hosts of the last row, in this order.
   */
  lemma Clos5Shape(h0: nat, s0: nat)
    ensures Clos5Topo(h0, s0) == Topo(HostNames(h0, 16), SwitchNames(s0, 14),
      FirstHosts(h0, s0) + Sewn(s0) + Attached(Row(s0, 10, 4), h0 + 8, HostsPerLeaf, HBw, true))
  {
    RowsAfterAll(h0, s0);
    SwitchNamesSplit(s0, 4, 2);
    SwitchNamesSplit(s0, 6, 2);
    SwitchNamesSplit(s0, 8, 2);
    SwitchNamesSplit(s0, 10, 4);
    HostNamesSplit(h0, 8, 8);
  }

  /** 16 hosts, 14 switches and 8 + 8 + 4 + 4 + 8 + 8 = 40 links. */
  lemma Clos5Totals(h0: nat, s0: nat)
    ensures |Clos5Topo(h0, s0).hosts| == 16
    ensures |Clos5Topo(h0, s0).switches| == 14
    ensures |Clos5Topo(h0, s0).links| == 40
  {
    Clos5Shape(h0, s0);
    AttachedLength(Row(s0, 0, 4), h0, HostsPerLeaf, HBw, true);
    AttachedLength(Row(s0, 10, 4), h0 + 8, HostsPerLeaf, HBw, true);
  }

  /** The row a switch number `p` (counted from `s0`) belongs to. */
  function RowOf(p: nat): nat
  {
    if p <= 4 then 0 else if p <= 6 then 1 else if p <= 8 then 2 else if p <= 10 then 3 else 4
  }

  /** Two switch rows sewn together hold exactly the links from the first row to the second. */
  lemma SewnRowMember(s0: nat, oa: nat, ka: nat, ob: nat, kb: nat, p: nat, q: nat)
    ensures Link(SwitchName(s0 + p), SwitchName(s0 + q), KBw) in SewRows(Row(s0, oa, ka), Row(s0, ob, kb), KBw)
        <==> oa < p <= oa + ka && ob < q <= ob + kb
  {
    SewRowsMember(Row(s0, oa, ka), Row(s0, ob, kb), KBw, Link(SwitchName(s0 + p), SwitchName(s0 + q), KBw));
    SwitchNamesMember(s0 + oa, ka, s0 + p);
    SwitchNamesMember(s0 + ob, kb, s0 + q);
  }

  /** Switches `s0+p` and `s0+q` are linked as `(sw, lsw)` exactly when `q`'s row is the one before `p`'s. */
  lemma Clos5SwitchLinks(h0: nat, s0: nat, p: nat, q: nat)
    requires 0 < p <= 14 && 0 < q <= 14
    ensures Link(SwitchName(s0 + p), SwitchName(s0 + q), KBw) in Clos5Topo(h0, s0).links
        <==> RowOf(p) == RowOf(q) + 1
  {
    Clos5Shape(h0, s0);
    var x := Link(SwitchName(s0 + p), SwitchName(s0 + q), KBw);
    if x in FirstHosts(h0, s0) {
      AttachedMember(Row(s0, 0, 4), h0, HostsPerLeaf, HBw, true, x);
    }
    if x in Attached(Row(s0, 10, 4), h0 + 8, HostsPerLeaf, HBw, true) {
      AttachedMember(Row(s0, 10, 4), h0 + 8, HostsPerLeaf, HBw, true, x);
    }
    SewnRowMember(s0, 4, 2, 0, 4, p, q);
    SewnRowMember(s0, 6, 2, 4, 2, p, q);
    SewnRowMember(s0, 8, 2, 6, 2, p, q);
    SewnRowMember(s0, 10, 4, 8, 2, p, q);
  }

  /**
   * Link `2l + j` joins host `2l + j + 1` to switch `l + 1` of the first row,
   * host first; link `32 + 2l + j` joins host `9 + 2l + j` to switch `11 + l`
   * of the last row.
   */
  lemma Clos5HostLinks(h0: nat, s0: nat, l: nat, j: nat)
    requires l < 4 && j < HostsPerLeaf
    ensures l * 2 + j < 40 && 32 + l * 2 + j < 40 && |Clos5Topo(h0, s0).links| == 40
    ensures Clos5Topo(h0, s0).links[l * 2 + j] == Link(HostName(h0 + l * 2 + j + 1), SwitchName(s0 + 1 + l), HBw)
    ensures Clos5Topo(h0, s0).links[32 + l * 2 + j] == Link(HostName(h0 + 8 + l * 2 + j + 1), SwitchName(s0 + 11 + l), HBw)
  {
    Clos5Parts(h0, s0);
    var r0, r4 := Row(s0, 0, 4), Row(s0, 10, 4);
    var links := Clos5Topo(h0, s0).links;
    var first, last := FirstHosts(h0, s0), Attached(r4, h0 + 8, HostsPerLeaf, HBw, true);
    AttachedLength(r0[..l], h0, HostsPerLeaf, HBw, true);
    AttachedLength(r4[..l], h0 + 8, HostsPerLeaf, HBw, true);
    AttachedIndex(r0, h0, HostsPerLeaf, HBw, true, l, j, l * 2);
    AttachedIndex(r4, h0 + 8, HostsPerLeaf, HBw, true, l, j, l * 2);
    assert links[l * 2 + j] == first[l * 2 + j];
    assert links[32 + l * 2 + j] == last[l * 2 + j];
  }

  /** The links split into the first row's hosts (8), the sewn rows (24) and the last row's hosts (8). */
  lemma Clos5Parts(h0: nat, s0: nat)
    ensures |FirstHosts(h0, s0)| == 8 && |Sewn(s0)| == 24
    ensures |Attached(Row(s0, 10, 4), h0 + 8, HostsPerLeaf, HBw, true)| == 8
    ensures Clos5Topo(h0, s0).links == FirstHosts(h0, s0) + Sewn(s0) + Attached(Row(s0, 10, 4), h0 + 8, HostsPerLeaf, HBw, true)
  {
    Clos5Shape(h0, s0);
    Clos5Totals(h0, s0);
    AttachedLength(Row(s0, 0, 4), h0, HostsPerLeaf, HBw, true);
    AttachedLength(Row(s0, 10, 4), h0 + 8, HostsPerLeaf, HBw, true);
  }
}
