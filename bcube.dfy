/**
 * topocreatebcube.py: four spine switches over four pods. A pod is one switch
 * with four hosts; spine `i` is linked to host `i` of every pod, so every host
 * has one link to its pod switch and one to a spine.
 */
module BCube {
  import opened NodePair
  import opened Counter
  import opened Topology

  const Speed := 1
  const Pods := 4

  /** The links of the pod drawn when the counters stand at `h0` and `s0`: `sew_rows([sw], hosts)`. */
  function PodLinks(h0: nat, s0: nat): (r: seq<Link>)
    ensures |r| == Pods
  {
    Fan(SwitchName(s0 + 1), HostNames(h0, Pods), Speed)
  }

  /** The links of the first `n` pods, the counters at `h0` and `s1` before the first. */
  function PodsLinks(h0: nat, s1: nat, n: nat): (r: seq<Link>)
    ensures |r| == 4 * n
  {
    if n == 0 then [] else PodsLinks(h0, s1, n - 1) + PodLinks(h0 + 4 * (n - 1), s1 + n - 1)
  }

  /** `stategic`: the host list of each of the first `n` pods. */
  function PodRows(h0: nat, n: nat): (r: seq<seq<NodeId>>)
    ensures |r| == n && forall i | 0 <= i < n :: r[i] == HostNames(h0 + 4 * i, Pods)
  {
    seq(n, i requires 0 <= i < n => HostNames(h0 + 4 * i, Pods))
  }

  /** `[(i[0], i[1], SPEED) for l in rows for i in zip(spines, l)]`. */
  function SpineLinks(spines: seq<NodeId>, rows: seq<seq<NodeId>>): seq<Link>
  {
    if |rows| == 0 then [] else SpineLinks(spines, rows[..|rows| - 1]) + Zip(spines, rows[|rows| - 1], Speed)
  }

  /** What `create_topo()` returns when the counters stand at `h0` and `s0`: spines drawn first, listed last. */
  function BCubeTopo(h0: nat, s0: nat): Topo
  {
    var spines := SwitchNames(s0, Pods);
    Topo(HostNames(h0, 16), SwitchNames(s0 + Pods, Pods) + spines,
         PodsLinks(h0, s0 + Pods, Pods) + SpineLinks(spines, PodRows(h0, Pods)))
  }

  /** `create_pod()`: one switch, then four hosts, each linked from the switch. */
  method CreatePod(hostsIter: CounterIterator, switchIter: CounterIterator)
    returns (hs: seq<NodeId>, ss: seq<NodeId>, ls: seq<Link>)
    requires hostsIter != switchIter
    modifies hostsIter, switchIter
    ensures hostsIter.count == old(hostsIter.count) + Pods && switchIter.count == old(switchIter.count) + 1
    ensures hs == HostNames(old(hostsIter.count), Pods) && ss == [SwitchName(old(switchIter.count) + 1)]
    ensures ls == PodLinks(old(hostsIter.count), old(switchIter.count))
  {
    var sw := NextSwitch(switchIter);
    var hosts := NextHosts(hostsIter, Pods);
    hs := [] + hosts;
    ss := [] + [sw];
    ls := SewRowsLoop([sw], hosts, Speed);
    assert [sw][1..] == [];
  }

  /** The comprehension over `stategic`: for each row, the spines zipped with it. */
  method SpineLinksLoop(spines: seq<NodeId>, rows: seq<seq<NodeId>>) returns (ls: seq<Link>)
    ensures ls == SpineLinks(spines, rows)
  {
    ls := [];
    for r := 0 to |rows|
      invariant ls == SpineLinks(spines, rows[..r])
    {
      var z := ZipLoop(spines, rows[r], Speed);
      assert rows[..r + 1][..r] == rows[..r];
      ls := ls + z;
    }
    assert rows[..|rows|] == rows;
  }

  /** `create_topo()`, drawing names from the two module counters. */
  method CreateTopo(hostsIter: CounterIterator, switchIter: CounterIterator) returns (t: Topo)
    requires hostsIter != switchIter
    modifies hostsIter, switchIter
    ensures t == BCubeTopo(old(hostsIter.count), old(switchIter.count))
    ensures hostsIter.count == old(hostsIter.count) + |t.hosts|
    ensures switchIter.count == old(switchIter.count) + |t.switches|
  {
    ghost var h0 := hostsIter.count;
    ghost var s0 := switchIter.count;
    var hosts: seq<NodeId> := [];
    var switches: seq<NodeId> := [];
    var links: seq<Link> := [];
    var spines := NextSwitches(switchIter, Pods);
    var stategic: seq<seq<NodeId>> := [];
    for i := 0 to Pods
      invariant hostsIter.count == h0 + 4 * i && switchIter.count == s0 + Pods + i
      invariant hosts == HostNames(h0, 4 * i) && switches == SwitchNames(s0 + Pods, i)
      invariant links == PodsLinks(h0, s0 + Pods, i) && stategic == PodRows(h0, i)
    {
      var h, s, l := CreatePod(hostsIter, switchIter);
      HostNamesSplit(h0, 4 * i, Pods);
      SwitchNamesSplit(s0 + Pods, i, 1);
      hosts := hosts + h;
      switches := switches + s;
      links := links + l;
      stategic := stategic + [h[|h| - Pods..]];
    }
    var cross := SpineLinksLoop(spines, stategic);
    links := links + cross;
    switches := switches + spines;
    t := Topo(hosts, switches, links);
  }

  /** `main`'s use of the builder, between two counter resets. */
  method MainTopo() returns (t: Topo, hostsIter: CounterIterator, switchIter: CounterIterator)
    ensures t == BCubeTopo(0, 0)
    ensures fresh(hostsIter) && fresh(switchIter) && hostsIter != switchIter
    ensures hostsIter.count == 0 && switchIter.count == 0
  {
    hostsIter, switchIter := ResetIters();
    t := CreateTopo(hostsIter, switchIter);
    hostsIter, switchIter := ResetIters();
  }

  // ---------------------------------------------------------------- properties

  lemma {:induction false} SpineLinksLength(spines: seq<NodeId>, rows: seq<seq<NodeId>>)
    requires |spines| == Pods && forall r | 0 <= r < |rows| :: |rows[r]| == Pods
    ensures |SpineLinks(spines, rows)| == 4 * |rows|
    decreases |rows|
  {
    if |rows| > 0 {
      SpineLinksLength(spines, rows[..|rows| - 1]);
    }
  }

  /** 16 hosts; the 4 pod switches followed by the 4 spines; 16 + 16 = 32 links. */
  lemma BCubeTotals(h0: nat, s0: nat)
    ensures var t := BCubeTopo(h0, s0);
      && t.hosts == HostNames(h0, 16)
      && t.switches == SwitchNames(s0 + Pods, Pods) + SwitchNames(s0, Pods)
      && |t.links| == 32
  {
    SpineLinksLength(SwitchNames(s0, Pods), PodRows(h0, Pods));
  }

  /** Link `4p + j` joins pod `p`'s switch to its host `j`, switch first. */
  lemma {:induction false} PodLink(h0: nat, s1: nat, n: nat, p: nat, j: nat)
    requires p < n && j < Pods
    ensures PodsLinks(h0, s1, n)[4 * p + j] == Link(SwitchName(s1 + p + 1), HostName(h0 + 4 * p + j + 1), Speed)
    decreases n
  {
    if p < n - 1 {
      PodLink(h0, s1, n - 1, p, j);
    }
  }

  /** Entry `4p + i` of the zipped rows joins spine `i` to entry `i` of row `p`, spine first. */
  lemma {:induction false} SpineLink(spines: seq<NodeId>, rows: seq<seq<NodeId>>, p: nat, i: nat)
    requires |spines| == Pods && forall r | 0 <= r < |rows| :: |rows[r]| == Pods
    requires p < |rows| && i < Pods
    ensures 4 * p + i < |SpineLinks(spines, rows)|
    ensures SpineLinks(spines, rows)[4 * p + i] == Link(spines[i], rows[p][i], Speed)
    decreases |rows|
  {
    var n := |rows|;
    SpineLinksLength(spines, rows[..n - 1]);
    if p < n - 1 {
      SpineLink(spines, rows[..n - 1], p, i);
    }
  }

  /** In the full topology: pod `p`'s switch carries that pod's hosts, and spine `i` the `i`-th host of every pod. */
  lemma BCubeLinks(h0: nat, s0: nat, p: nat, i: nat)
    requires p < Pods && i < Pods
    ensures var t := BCubeTopo(h0, s0);
      && |t.links| == 32
      && t.links[4 * p + i] == Link(SwitchName(s0 + Pods + p + 1), HostName(h0 + 4 * p + i + 1), Speed)
      && t.links[16 + 4 * p + i] == Link(SwitchName(s0 + i + 1), HostName(h0 + 4 * p + i + 1), Speed)
  {
    BCubeTotals(h0, s0);
    PodLink(h0, s0 + Pods, Pods, p, i);
    SpineLink(SwitchNames(s0, Pods), PodRows(h0, Pods), p, i);
  }

  /** A host is an end of one pod link exactly when it belongs to one of the first `n` pods. */
  lemma {:induction false} PodsDegree(h0: nat, s1: nat, n: nat, k: int)
    ensures Degree(PodsLinks(h0, s1, n), HostName(k)) == if h0 < k <= h0 + 4 * n then 1 else 0
    decreases n
  {
    if n > 0 {
      PodsDegree(h0, s1, n - 1, k);
      DegreeConcat(PodsLinks(h0, s1, n - 1), PodLinks(h0 + 4 * (n - 1), s1 + n - 1), HostName(k));
      DegreeFan(SwitchName(s1 + n), HostNames(h0 + 4 * (n - 1), Pods), Speed, HostName(k));
      HostNamesCount(h0 + 4 * (n - 1), Pods, k);
    }
  }

  /** A host is an end of one spine link exactly when it belongs to one of the first `n` pods. */
  lemma {:induction false} SpinesDegree(s0: nat, h0: nat, n: nat, k: int)
    ensures Degree(SpineLinks(SwitchNames(s0, Pods), PodRows(h0, n)), HostName(k)) == if h0 < k <= h0 + 4 * n then 1 else 0
    decreases n
  {
    if n > 0 {
      var spines := SwitchNames(s0, Pods);
      var rows := PodRows(h0, n);
      assert rows[..n - 1] == PodRows(h0, n - 1);
      SpinesDegree(s0, h0, n - 1, k);
      DegreeConcat(SpineLinks(spines, rows[..n - 1]), Zip(spines, rows[n - 1], Speed), HostName(k));
      SwitchNamesHaveNoHost(s0, Pods, HostName(k));
      DegreeZip(spines, rows[n - 1], Speed, HostName(k));
      HostNamesCount(h0 + 4 * (n - 1), Pods, k);
    }
  }

  /** Every host has exactly two links: one to its pod switch and one to a spine. */
  lemma HostDegree(h0: nat, s0: nat, k: int)
    requires h0 < k <= h0 + 16
    ensures Degree(BCubeTopo(h0, s0).links, HostName(k)) == 2
  {
    var spines := SwitchNames(s0, Pods);
    DegreeConcat(PodsLinks(h0, s0 + Pods, Pods), SpineLinks(spines, PodRows(h0, Pods)), HostName(k));
    PodsDegree(h0, s0 + Pods, Pods, k);
    SpinesDegree(s0, h0, Pods, k);
  }
}
