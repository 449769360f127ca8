/**
 * topocreatedcellswitched.py: the DCell layout with a switch in front of every
 * host. A cell is one switch over four leaf switches, each leaf with one host;
 * the inter-cell pairing of `create_topo` runs on the leaves.
 */
module DCellSwitched {
  import opened NodePair
  import opened Counter
  import opened Topology
  import BCubeSwitched
  import DCell

  const Speed := 1
  const Hpc := 4
  const Hps := 1

  /** The leaf switches of the cell drawn when the switch counter stands at `s0`. */
  function Leaves(s0: nat): (r: seq<NodeId>)
    ensures |r| == Hpc
  {
    SwitchNames(s0 + 1, Hpc)
  }

  /** The links of the cell drawn at `h0` and `s0`: each leaf to its host, then `sew_rows([sw], hosts)`. */
  function CellLinks(h0: nat, s0: nat): seq<Link>
  {
    Attached(Leaves(s0), h0, Hps, Speed, false) + Fan(SwitchName(s0 + 1), Leaves(s0), Speed)
  }

  /** The links of the first `n` cells. */
  function CellsLinks(h0: nat, s0: nat, n: nat): seq<Link>
  {
    if n == 0 then [] else CellsLinks(h0, s0, n - 1) + CellLinks(h0 + 4 * (n - 1), s0 + 5 * (n - 1))
  }

  /** `stategic`: the leaves of each of the first `n` cells, `s[-HPC:]`. */
  function LeafRows(s0: nat, n: nat): (r: seq<seq<NodeId>>)
    ensures |r| == n && forall c | 0 <= c < n :: r[c] == Leaves(s0 + 5 * c)
  {
    seq(n, c requires 0 <= c < n => Leaves(s0 + 5 * c))
  }

  /** The leaves of the five cells are five rows of four distinct switches. */
  lemma LeafRowsGrid(s0: nat)
    ensures DCell.Grid(LeafRows(s0, DCell.Cells))
  {
    var rows := LeafRows(s0, DCell.Cells);
    forall c1, p1, c2, p2 | 0 <= c1 < DCell.Cells && 0 <= p1 < Hpc && 0 <= c2 < DCell.Cells && 0 <= p2 < Hpc
      && rows[c1][p1] == rows[c2][p2]
      ensures c1 == c2 && p1 == p2
    {
      assert rows[c1][p1] == SwitchName(s0 + 5 * c1 + 2 + p1);
      assert rows[c2][p2] == SwitchName(s0 + 5 * c2 + 2 + p2);
    }
  }

  /** What `create_topo()` returns when the counters stand at `h0` and `s0`. */
  function DCellSwitchedTopo(h0: nat, s0: nat): Topo
  {
    LeafRowsGrid(s0);
    Topo(HostNames(h0, 20), SwitchNames(s0, 25), CellsLinks(h0, s0, 5) + DCell.Cross(LeafRows(s0, 5)))
  }

  /**
   * `create_cell()`: the cell switch, four leaves, a host under each leaf
   * (`create_edge_layer`, the same as in topocreatebcubeswitched.py), and the
   * cell switch linked to every leaf.
   */
  method CreateCell(hostsIter: CounterIterator, switchIter: CounterIterator)
    returns (hs: seq<NodeId>, ss: seq<NodeId>, ls: seq<Link>)
    requires hostsIter != switchIter
    modifies hostsIter, switchIter
    ensures hostsIter.count == old(hostsIter.count) + 4 && switchIter.count == old(switchIter.count) + 5
    ensures hs == HostNames(old(hostsIter.count), 4) && ss == SwitchNames(old(switchIter.count), 5)
    ensures ls == CellLinks(old(hostsIter.count), old(switchIter.count))
    ensures ss[|ss| - Hpc..] == Leaves(old(switchIter.count))
  {
    ghost var s0 := switchIter.count;
    var sw := NextSwitch(switchIter);
    var leaves := NextSwitches(switchIter, Hpc);
    var edge;
    hs, ss, edge := BCubeSwitched.EdgeLayers(hostsIter, leaves);
    ss := ss + [sw];
    var sewn := SewRowsLoop([sw], leaves, Speed);
    assert [sw][1..] == [];
    ls := edge + sewn;
    ss := ss + leaves;
    SwitchNamesSplit(s0, 1, Hpc);
    assert ss[|ss| - Hpc..] == leaves;
  }

  /** One turn of `create_topo`'s `for _ in range(CELLS)` loop. */
  method AddCell(hostsIter: CounterIterator, switchIter: CounterIterator, ghost h0: nat, ghost s0: nat, c: nat,
                 hosts: seq<NodeId>, switches: seq<NodeId>, links: seq<Link>, stategic: seq<seq<NodeId>>)
    returns (hosts': seq<NodeId>, switches': seq<NodeId>, links': seq<Link>, stategic': seq<seq<NodeId>>)
    requires hostsIter != switchIter
    requires hostsIter.count == h0 + 4 * c && switchIter.count == s0 + 5 * c
    requires hosts == HostNames(h0, 4 * c) && switches == SwitchNames(s0, 5 * c)
    requires links == CellsLinks(h0, s0, c) && stategic == LeafRows(s0, c)
    modifies hostsIter, switchIter
    ensures hostsIter.count == h0 + 4 * (c + 1) && switchIter.count == s0 + 5 * (c + 1)
    ensures hosts' == HostNames(h0, 4 * (c + 1)) && switches' == SwitchNames(s0, 5 * (c + 1))
    ensures links' == CellsLinks(h0, s0, c + 1) && stategic' == LeafRows(s0, c + 1)
  {
    var h, s, l := CreateCell(hostsIter, switchIter);
    HostNamesSplit(h0, 4 * c, 4);
    SwitchNamesSplit(s0, 5 * c, 5);
    hosts' := hosts + h;
    switches' := switches + s;
    links' := links + l;
    stategic' := stategic + [s[|s| - Hpc..]];
    assert CellsLinks(h0, s0, c + 1) == CellsLinks(h0, s0, c) + CellLinks(h0 + 4 * c, s0 + 5 * c);
    assert LeafRows(s0, c + 1) == LeafRows(s0, c) + [Leaves(s0 + 5 * c)];
  }

  /** `create_topo()`, drawing names from the two module counters. */
  method CreateTopo(hostsIter: CounterIterator, switchIter: CounterIterator) returns (t: Topo)
    requires hostsIter != switchIter
    modifies hostsIter, switchIter
    ensures t == DCellSwitchedTopo(old(hostsIter.count), old(switchIter.count))
    ensures hostsIter.count == old(hostsIter.count) + |t.hosts|
    ensures switchIter.count == old(switchIter.count) + |t.switches|
  {
    ghost var h0 := hostsIter.count;
    ghost var s0 := switchIter.count;
    var hosts: seq<NodeId> := [];
    var switches: seq<NodeId> := [];
    var links: seq<Link> := [];
    var stategic: seq<seq<NodeId>> := [];
    for c := 0 to DCell.Cells
      invariant hostsIter.count == h0 + 4 * c && switchIter.count == s0 + 5 * c
      invariant hosts == HostNames(h0, 4 * c) && switches == SwitchNames(s0, 5 * c)
      invariant links == CellsLinks(h0, s0, c) && stategic == LeafRows(s0, c)
    {
      hosts, switches, links, stategic := AddCell(hostsIter, switchIter, h0, s0, c, hosts, switches, links, stategic);
    }
    LeafRowsGrid(s0);
    links := DCell.CrossLinks(stategic, links);
    t := Topo(hosts, switches, links);
  }

  /** `main`'s use of the builder, between two counter resets. */
  method MainTopo() returns (t: Topo, hostsIter: CounterIterator, switchIter: CounterIterator)
    ensures t == DCellSwitchedTopo(0, 0)
    ensures fresh(hostsIter) && fresh(switchIter) && hostsIter != switchIter
    ensures hostsIter.count == 0 && switchIter.count == 0
  {
    hostsIter, switchIter := ResetIters();
    t := CreateTopo(hostsIter, switchIter);
    hostsIter, switchIter := ResetIters();
  }

  // ---------------------------------------------------------------- properties

  lemma {:induction false} CellsLinksLength(h0: nat, s0: nat, n: nat)
    ensures |CellsLinks(h0, s0, n)| == 8 * n
    decreases n
  {
    if n > 0 {
      CellsLinksLength(h0, s0, n - 1);
      AttachedLength(Leaves(s0 + 5 * (n - 1)), h0 + 4 * (n - 1), Hps, Speed, false);
    }
  }

  /** 20 hosts, 25 switches; 40 cell links and 10 leaf-to-leaf links. */
  lemma DCellSwitchedTotals(h0: nat, s0: nat)
    ensures var t := DCellSwitchedTopo(h0, s0);
      && t.hosts == HostNames(h0, 20) && t.switches == SwitchNames(s0, 25) && |t.links| == 50
  {
    CellsLinksLength(h0, s0, 5);
    LeafRowsGrid(s0);
    DCell.CrossLength(LeafRows(s0, 5));
  }

  /** Cells `i < j` are linked through leaf `j - 1` of cell `i` and leaf `i` of cell `j`. */
  lemma CellsLinked(h0: nat, s0: nat, i: nat, j: nat)
    requires i < j < DCell.Cells
    ensures Link(SwitchName(s0 + 5 * i + j + 1), SwitchName(s0 + 5 * j + i + 2), Speed) in DCellSwitchedTopo(h0, s0).links
  {
    var rows := LeafRows(s0, 5);
    LeafRowsGrid(s0);
    DCell.CrossPair(rows, i, j);
    assert rows[i][j - 1] == SwitchName(s0 + 5 * i + j + 1);
  }

  /** Every leaf is an end of exactly one leaf-to-leaf link. */
  lemma LeafCrossDegree(s0: nat, c: nat, p: nat)
    requires c < DCell.Cells && p < Hpc
    ensures Degree(DCell.Cross(LeafRows(s0, 5)), SwitchName(s0 + 5 * c + p + 2)) == 1
  {
    var rows := LeafRows(s0, 5);
    LeafRowsGrid(s0);
    DCell.CrossDegree(rows, c, p);
    assert rows[c][p] == SwitchName(s0 + 5 * c + p + 2);
  }

  lemma CellDegree(h0: nat, s0: nat, k: int)
    ensures Degree(CellLinks(h0, s0), HostName(k)) == if h0 < k <= h0 + 4 then 1 else 0
  {
    var leaves := Leaves(s0);
    DegreeConcat(Attached(leaves, h0, Hps, Speed, false), Fan(SwitchName(s0 + 1), leaves, Speed), HostName(k));
    DegreeAttached(leaves, h0, Hps, Speed, k);
    DegreeFan(SwitchName(s0 + 1), leaves, Speed, HostName(k));
    SwitchNamesHaveNoHost(s0 + 1, Hpc, HostName(k));
  }

  lemma {:induction false} CellsDegree(h0: nat, s0: nat, n: nat, k: int)
    ensures Degree(CellsLinks(h0, s0, n), HostName(k)) == if h0 < k <= h0 + 4 * n then 1 else 0
    decreases n
  {
    if n > 0 {
      CellsDegree(h0, s0, n - 1, k);
      DegreeConcat(CellsLinks(h0, s0, n - 1), CellLinks(h0 + 4 * (n - 1), s0 + 5 * (n - 1)), HostName(k));
      CellDegree(h0 + 4 * (n - 1), s0 + 5 * (n - 1), k);
    }
  }

  /** No leaf-to-leaf link reaches a host. */
  lemma CrossMissesHosts(s0: nat, k: int)
    ensures Degree(DCell.Cross(LeafRows(s0, 5)), HostName(k)) == 0
  {
    var rows := LeafRows(s0, 5);
    LeafRowsGrid(s0);
    forall l | l in DCell.Cross(rows) ensures l.a != HostName(k) && l.b != HostName(k) {
      CrossLeafEnds(rows, l);
    }
    DegreeAbsent(DCell.Cross(rows), HostName(k));
  }

  /** Both ends of an inter-cell link are nodes of the rows. */
  lemma {:induction false} CrossLeafEnds(rows: seq<seq<NodeId>>, l: Link)
    requires DCell.Shaped(rows) && (forall c, p | 0 <= c < DCell.Cells && 0 <= p < Hpc :: IsSwitch(rows[c][p]))
    requires l in DCell.Cross(rows)
    ensures IsSwitch(l.a) && IsSwitch(l.b)
  {
    var x := l;
    CrossEndsUpTo(rows, DCell.Cells, x);
  }

  lemma {:induction false} CrossEndsUpTo(rows: seq<seq<NodeId>>, i: nat, l: Link)
    requires DCell.Shaped(rows) && i <= DCell.Cells && (forall c, p | 0 <= c < DCell.Cells && 0 <= p < Hpc :: IsSwitch(rows[c][p]))
    requires l in DCell.CrossUpTo(rows, i)
    ensures IsSwitch(l.a) && IsSwitch(l.b)
    decreases i
  {
    var own := DCell.CellPairs(rows, i - 1, Hpc - (i - 1));
    if l in own {
      var m :| 0 <= m < |own| && own[m] == l;
      assert l == Link(rows[i - 1][i - 1 + m], rows[i + m][i - 1], Speed);
    } else {
      CrossEndsUpTo(rows, i - 1, l);
    }
  }

  /** Every host has exactly one link, to its leaf switch. */
  lemma HostDegree(h0: nat, s0: nat, k: int)
    requires h0 < k <= h0 + 20
    ensures Degree(DCellSwitchedTopo(h0, s0).links, HostName(k)) == 1
  {
    LeafRowsGrid(s0);
    DegreeConcat(CellsLinks(h0, s0, 5), DCell.Cross(LeafRows(s0, 5)), HostName(k));
    CellsDegree(h0, s0, 5, k);
    CrossMissesHosts(s0, k);
  }
}
