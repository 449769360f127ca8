/**
 * topocreatebig.py: a datacenter of three spine groups. A physical server is
 * a host with its own switch; a rack tower's switch is linked to each of its
 * servers' switches; a corridor's two switches are linked to every tower; a
 * spine group has four spine switches and three corridors, corridor `c`
 * reaching spines `c` and `c + 1`; and spine `i` of each group is linked to
 * spine `i` of the next.
 */
module Big {
  import opened NodePair
  import opened Counter
  import opened Topology

  const VirtualPerServer := 0
  const ServersPerTower := 1
  const TowersPerCorridor := 2
  const Corridors := 3
  const Spines := 4

  /** The link speeds in force: the overriding assignments, all 1. */
  const SpeedVirtualPhysical := 1
  const SpeedServerSwitch := 1
  const SpeedServerTower := 1
  const SpeedTowerCorridor := 1
  const SpeedCorridorSpine := 1
  const SpeedSpineSpine := 1

  /** `Topo(a.hosts + b.hosts, ...)`, with `extra` links after both. */
  function Extend(a: Topo, b: Topo, extra: seq<Link>): Topo
  {
    Topo(a.hosts + b.hosts, a.switches + b.switches, a.links + b.links + extra)
  }

  function WithSwitches(a: Topo, ss: seq<NodeId>): Topo
  {
    Topo(a.hosts, a.switches + ss, a.links)
  }

  const Empty := Topo([], [], [])

  /**
   * What a builder loop accumulates: for each part in turn, its hosts, its
   * switches and its links, followed by the links the loop adds for it.
   */
  function Stack(parts: seq<Topo>, extras: seq<seq<Link>>): Topo
    requires |extras| == |parts|
    decreases |parts|
  {
    if |parts| == 0 then Empty
    else
      var n := |parts| - 1;
      Extend(Stack(parts[..n], extras[..n]), parts[n], extras[n])
  }

  /** The number of links a builder loop adds of its own. */
  function ExtraCount(extras: seq<seq<Link>>): nat
    decreases |extras|
  {
    if |extras| == 0 then 0 else ExtraCount(extras[..|extras| - 1]) + |extras[|extras| - 1]|
  }

  // ---------------------------------------------------------------- what each builder returns

  /**
   * `create_physical_server()` with `vps` virtual servers: the server host is
   * drawn first, then its switch, then the virtual hosts, which are listed and
   * linked before the server.
   */
  function Server(h0: nat, s0: nat, vps: nat): Topo
  {
    var sw := SwitchName(s0 + 1);
    Topo(HostNames(h0 + 1, vps) + [HostName(h0 + 1)], [sw],
         FanIn(HostNames(h0 + 1, vps), sw, SpeedVirtualPhysical) + [Link(HostName(h0 + 1), sw, SpeedServerSwitch)])
  }

  /** The servers of the tower drawn at `h0`, `s0`: its own switch comes first, and each server takes one host and one switch. */
  function TowerParts(h0: nat, s0: nat): seq<Topo>
  {
    seq(ServersPerTower, k requires 0 <= k < ServersPerTower => Server(h0 + k, s0 + 1 + k, VirtualPerServer))
  }

  /** Each server's switch linked to the tower's switch. */
  function TowerExtras(s0: nat): seq<seq<Link>>
  {
    seq(ServersPerTower, k requires 0 <= k < ServersPerTower => [Link(SwitchName(s0 + 2 + k), SwitchName(s0 + 1), SpeedServerTower)])
  }

  /** `create_racktower()`: its switch is drawn first and listed last. */
  function Tower(h0: nat, s0: nat): Topo
  {
    WithSwitches(Stack(TowerParts(h0, s0), TowerExtras(s0)), [SwitchName(s0 + 1)])
  }

  /** The towers of the corridor drawn at `h0`, `s0`, after its two switches; each takes one host and two switches. */
  function CorridorParts(h0: nat, s0: nat): seq<Topo>
  {
    seq(TowersPerCorridor, t requires 0 <= t < TowersPerCorridor => Tower(h0 + t, s0 + 2 + 2 * t))
  }

  /** Each tower's switch linked to both corridor switches. */
  function CorridorExtras(s0: nat): seq<seq<Link>>
  {
    seq(TowersPerCorridor, t requires 0 <= t < TowersPerCorridor =>
      [Link(SwitchName(s0 + 3 + 2 * t), SwitchName(s0 + 1), SpeedTowerCorridor),
       Link(SwitchName(s0 + 3 + 2 * t), SwitchName(s0 + 2), SpeedTowerCorridor)])
  }

  /** `create_corridor()`: its two switches are drawn first and listed last. */
  function Corridor(h0: nat, s0: nat): Topo
  {
    WithSwitches(Stack(CorridorParts(h0, s0), CorridorExtras(s0)), [SwitchName(s0 + 1), SwitchName(s0 + 2)])
  }

  /** The corridors of the spine group drawn at `h0`, `s0`, after its spines; each takes two hosts and six switches. */
  function GroupParts(h0: nat, s0: nat): seq<Topo>
  {
    seq(Spines - 1, c requires 0 <= c < Spines - 1 => Corridor(h0 + 2 * c, s0 + 4 + 6 * c))
  }

  /** Corridor `c`'s first switch linked to spine `c`, its second to spine `c + 1`. */
  function GroupExtras(s0: nat): seq<seq<Link>>
  {
    seq(Spines - 1, c requires 0 <= c < Spines - 1 =>
      [Link(SwitchName(s0 + 5 + 6 * c), SwitchName(s0 + 1 + c), SpeedCorridorSpine),
       Link(SwitchName(s0 + 6 + 6 * c), SwitchName(s0 + 2 + c), SpeedCorridorSpine)])
  }

  /** `create_spine()`: the spines are drawn first and listed last. */
  function Group(h0: nat, s0: nat): Topo
  {
    WithSwitches(Stack(GroupParts(h0, s0), GroupExtras(s0)), SwitchNames(s0, Spines))
  }

  /** The spine groups of the datacenter; each takes six hosts and 22 switches. */
  function DatacenterParts(h0: nat, s0: nat): seq<Topo>
  {
    seq(Corridors, g requires 0 <= g < Corridors => Group(h0 + 6 * g, s0 + 22 * g))
  }

  /** The links from each spine of the group before to the same spine of group `g`; none for the first group. */
  function SpineSpine(s0: nat, g: nat): (r: seq<Link>)
    ensures |r| == if g == 0 then 0 else Spines
    ensures forall l | l in r :: IsSwitch(l.a) && IsSwitch(l.b)
  {
    if g == 0 then [] else Zip(SwitchNames(s0 + 22 * (g - 1), Spines), SwitchNames(s0 + 22 * g, Spines), SpeedSpineSpine)
  }

  function DatacenterExtras(s0: nat): seq<seq<Link>>
  {
    seq(Corridors, g requires 0 <= g < Corridors => SpineSpine(s0, g))
  }

  /** What `create_datacenter()` returns when the counters stand at `h0` and `s0`. */
  function Datacenter(h0: nat, s0: nat): Topo
  {
    Stack(DatacenterParts(h0, s0), DatacenterExtras(s0))
  }

  // ---------------------------------------------------------------- the builders

  /** `create_virtual_server()`: one host, nothing else. */
  method CreateVirtualServer(hostsIter: CounterIterator) returns (hs: seq<NodeId>, ss: seq<NodeId>, ls: seq<Link>)
    modifies hostsIter
    ensures hostsIter.count == old(hostsIter.count) + 1
    ensures hs == [HostName(hostsIter.count)] && ss == [] && ls == []
  {
    var h := NextHost(hostsIter);
    hs, ss, ls := [h], [], [];
  }

  /** `create_physical_server()`, the number of virtual servers given as `vps`. */
  method CreatePhysicalServer(hostsIter: CounterIterator, switchIter: CounterIterator, vps: nat)
    returns (hs: seq<NodeId>, ss: seq<NodeId>, ls: seq<Link>)
    requires hostsIter != switchIter
    modifies hostsIter, switchIter
    ensures Topo(hs, ss, ls) == Server(old(hostsIter.count), old(switchIter.count), vps)
    ensures hostsIter.count == old(hostsIter.count) + 1 + vps && switchIter.count == old(switchIter.count) + 1
  {
    ghost var h0, s0 := hostsIter.count, switchIter.count;
    var serv := NextHost(hostsIter);
    var sw := NextSwitch(switchIter);
    hs, ss, ls := [], [], [];
    for v := 0 to vps
      invariant hostsIter.count == h0 + 1 + v && switchIter.count == s0 + 1
      invariant hs == HostNames(h0 + 1, v) && ss == [] && ls == FanIn(hs, sw, SpeedVirtualPhysical)
    {
      var chdHosts, chdSwitches, chdLinks := CreateVirtualServer(hostsIter);
      HostNamesSplit(h0 + 1, v, 1);
      FanInSnoc(hs, chdHosts[0], sw, SpeedVirtualPhysical);
      hs := hs + chdHosts;
      ss := ss + chdSwitches;
      ls := ls + chdLinks;
      ls := ls + [Link(chdHosts[|chdHosts| - 1], sw, SpeedVirtualPhysical)];
    }
    hs := hs + [serv];
    ss := ss + [sw];
    ls := ls + [Link(serv, sw, SpeedServerSwitch)];
  }

  /** `create_racktower()`. */
  method CreateRackTower(hostsIter: CounterIterator, switchIter: CounterIterator)
    returns (hs: seq<NodeId>, ss: seq<NodeId>, ls: seq<Link>)
    requires hostsIter != switchIter
    modifies hostsIter, switchIter
    ensures Topo(hs, ss, ls) == Tower(old(hostsIter.count), old(switchIter.count))
    ensures hostsIter.count == old(hostsIter.count) + 1 && switchIter.count == old(switchIter.count) + 2
  {
    ghost var h0, s0 := hostsIter.count, switchIter.count;
    ghost var parts, extras := TowerParts(h0, s0), TowerExtras(s0);
    var sw := NextSwitch(switchIter);
    hs, ss, ls := [], [], [];
    for k := 0 to ServersPerTower
      invariant hostsIter.count == h0 + k && switchIter.count == s0 + 1 + k
      invariant Topo(hs, ss, ls) == Stack(parts[..k], extras[..k])
    {
      var chdHosts, chdSwitches, chdLinks := CreatePhysicalServer(hostsIter, switchIter, VirtualPerServer);
      var lsw := chdSwitches[|chdSwitches| - 1];
      StackSnoc(parts, extras, k);
      hs, ss, ls := hs + chdHosts, ss + chdSwitches, ls + chdLinks + [Link(lsw, sw, SpeedServerTower)];
    }
    assert parts[..ServersPerTower] == parts && extras[..ServersPerTower] == extras;
    ss := ss + [sw];
  }

  /** `create_corridor()`. */
  method CreateCorridor(hostsIter: CounterIterator, switchIter: CounterIterator)
    returns (hs: seq<NodeId>, ss: seq<NodeId>, ls: seq<Link>)
    requires hostsIter != switchIter
    modifies hostsIter, switchIter
    ensures Topo(hs, ss, ls) == Corridor(old(hostsIter.count), old(switchIter.count))
    ensures hostsIter.count == old(hostsIter.count) + 2 && switchIter.count == old(switchIter.count) + 6
    ensures |ss| >= 2 && ss[|ss| - 2..] == [SwitchName(old(switchIter.count) + 1), SwitchName(old(switchIter.count) + 2)]
  {
    ghost var h0, s0 := hostsIter.count, switchIter.count;
    ghost var parts, extras := CorridorParts(h0, s0), CorridorExtras(s0);
    var sw1 := NextSwitch(switchIter);
    var sw2 := NextSwitch(switchIter);
    hs, ss, ls := [], [], [];
    for t := 0 to TowersPerCorridor
      invariant hostsIter.count == h0 + t && switchIter.count == s0 + 2 + 2 * t
      invariant Topo(hs, ss, ls) == Stack(parts[..t], extras[..t])
    {
      var chdHosts, chdSwitches, chdLinks := CreateRackTower(hostsIter, switchIter);
      var lsw := chdSwitches[|chdSwitches| - 1];
      StackSnoc(parts, extras, t);
      hs, ss, ls := hs + chdHosts, ss + chdSwitches, ls + chdLinks + [Link(lsw, sw1, SpeedTowerCorridor), Link(lsw, sw2, SpeedTowerCorridor)];
    }
    assert parts[..TowersPerCorridor] == parts && extras[..TowersPerCorridor] == extras;
    ss := ss + [sw1];
    ss := ss + [sw2];
  }

  /** `create_spine()`. */
  method CreateSpine(hostsIter: CounterIterator, switchIter: CounterIterator)
    returns (hs: seq<NodeId>, ss: seq<NodeId>, ls: seq<Link>)
    requires hostsIter != switchIter
    modifies hostsIter, switchIter
    ensures Topo(hs, ss, ls) == Group(old(hostsIter.count), old(switchIter.count))
    ensures hostsIter.count == old(hostsIter.count) + 6 && switchIter.count == old(switchIter.count) + 22
    ensures |ss| >= Spines && ss[|ss| - Spines..] == SwitchNames(old(switchIter.count), Spines)
  {
    ghost var h0, s0 := hostsIter.count, switchIter.count;
    ghost var parts, extras := GroupParts(h0, s0), GroupExtras(s0);
    var swsps := NextSwitches(switchIter, Spines);
    hs, ss, ls := [], [], [];
    for i := 0 to Spines - 1
      invariant hostsIter.count == h0 + 2 * i && switchIter.count == s0 + 4 + 6 * i
      invariant Topo(hs, ss, ls) == Stack(parts[..i], extras[..i])
    {
      ghost var before := Topo(hs, ss, ls);
      var chdHosts, chdSwitches, chdLinks := CreateCorridor(hostsIter, switchIter);
      var lsw1, lsw2 := chdSwitches[|chdSwitches| - 2], chdSwitches[|chdSwitches| - 1];
      var up := [Link(lsw1, swsps[i], SpeedCorridorSpine), Link(lsw2, swsps[i + 1], SpeedCorridorSpine)];
      assert parts[i] == Topo(chdHosts, chdSwitches, chdLinks) && extras[i] == up;
      StackSnoc(parts, extras, i);
      hs, ss, ls := hs + chdHosts, ss + chdSwitches, ls + chdLinks + up;
      assert Topo(hs, ss, ls) == Extend(before, parts[i], extras[i]);
    }
    assert parts[..Spines - 1] == parts && extras[..Spines - 1] == extras;
    ss := ss + swsps;
  }

  /** The loop `for i in range(spines)` linking the spines of consecutive groups. */
  method LinkSpines(last: seq<NodeId>, spined: seq<NodeId>) returns (ls: seq<Link>)
    requires |last| == Spines && |spined| == Spines
    ensures ls == Zip(last, spined, SpeedSpineSpine)
  {
    ls := [];
    for i := 0 to Spines
      invariant ls == Zip(last[..i], spined[..i], SpeedSpineSpine)
    {
      assert Zip(last[..i + 1], spined[..i + 1], SpeedSpineSpine) == ls + [Link(last[i], spined[i], SpeedSpineSpine)];
      ls := ls + [Link(last[i], spined[i], SpeedSpineSpine)];
    }
    assert last[..Spines] == last && spined[..Spines] == spined;
  }

  /** One turn of `create_datacenter()`'s loop: group `g` built, stacked, and chained to the group before. */
  method AddGroup(hostsIter: CounterIterator, switchIter: CounterIterator, ghost h0: nat, ghost s0: nat, g: nat,
                  hs: seq<NodeId>, ss: seq<NodeId>, ls: seq<Link>, lastSpined: seq<NodeId>)
    returns (hs': seq<NodeId>, ss': seq<NodeId>, ls': seq<Link>, spined: seq<NodeId>)
    requires hostsIter != switchIter && g < Corridors
    requires hostsIter.count == h0 + 6 * g && switchIter.count == s0 + 22 * g
    requires Topo(hs, ss, ls) == Stack(DatacenterParts(h0, s0)[..g], DatacenterExtras(s0)[..g])
    requires g == 0 ==> lastSpined == []
    requires g > 0 ==> lastSpined == SwitchNames(s0 + 22 * (g - 1), Spines)
    modifies hostsIter, switchIter
    ensures hostsIter.count == h0 + 6 * (g + 1) && switchIter.count == s0 + 22 * (g + 1)
    ensures Topo(hs', ss', ls') == Stack(DatacenterParts(h0, s0)[..g + 1], DatacenterExtras(s0)[..g + 1])
    ensures spined == SwitchNames(s0 + 22 * g, Spines)
  {
    ghost var parts, extras := DatacenterParts(h0, s0), DatacenterExtras(s0);
    var chdHosts, chdSwitches, chdLinks := CreateSpine(hostsIter, switchIter);
    assert parts[g] == Topo(chdHosts, chdSwitches, chdLinks);
    spined := chdSwitches[|chdSwitches| - Spines..];
    var cross: seq<Link> := [];
    if |lastSpined| > 0 {
      cross := LinkSpines(lastSpined, spined);
    }
    assert cross == extras[g];
    StackSnoc(parts, extras, g);
    hs', ss', ls' := hs + chdHosts, ss + chdSwitches, ls + chdLinks + cross;
  }

  /** `create_datacenter()`, drawing names from the two module counters. */
  method CreateDatacenter(hostsIter: CounterIterator, switchIter: CounterIterator) returns (t: Topo)
    requires hostsIter != switchIter
    modifies hostsIter, switchIter
    ensures t == Datacenter(old(hostsIter.count), old(switchIter.count))
    ensures hostsIter.count == old(hostsIter.count) + 18 && switchIter.count == old(switchIter.count) + 66
  {
    ghost var h0, s0 := hostsIter.count, switchIter.count;
    var hs: seq<NodeId>, ss: seq<NodeId>, ls: seq<Link> := [], [], [];
    var lastSpined: seq<NodeId> := [];
    for g := 0 to Corridors
      invariant hostsIter.count == h0 + 6 * g && switchIter.count == s0 + 22 * g
      invariant Topo(hs, ss, ls) == Stack(DatacenterParts(h0, s0)[..g], DatacenterExtras(s0)[..g])
      invariant g == 0 ==> lastSpined == []
      invariant g > 0 ==> lastSpined == SwitchNames(s0 + 22 * (g - 1), Spines)
    {
      hs, ss, ls, lastSpined := AddGroup(hostsIter, switchIter, h0, s0, g, hs, ss, ls, lastSpined);
    }
    assert DatacenterParts(h0, s0)[..Corridors] == DatacenterParts(h0, s0);
    assert DatacenterExtras(s0)[..Corridors] == DatacenterExtras(s0);
    t := Topo(hs, ss, ls);
  }

  /** `main`'s use of the builder, between two counter resets. */
  method MainTopo() returns (t: Topo, hostsIter: CounterIterator, switchIter: CounterIterator)
    ensures t == Datacenter(0, 0)
    ensures fresh(hostsIter) && fresh(switchIter) && hostsIter != switchIter
    ensures hostsIter.count == 0 && switchIter.count == 0
  {
    hostsIter, switchIter := ResetIters();
    t := CreateDatacenter(hostsIter, switchIter);
    hostsIter, switchIter := ResetIters();
  }

  // ---------------------------------------------------------------- what any builder loop keeps

  lemma StackSnoc(parts: seq<Topo>, extras: seq<seq<Link>>, k: nat)
    requires |extras| == |parts| && k < |parts|
    ensures Stack(parts[..k + 1], extras[..k + 1]) == Extend(Stack(parts[..k], extras[..k]), parts[k], extras[k])
  {
    assert parts[..k + 1][..k] == parts[..k];
    assert extras[..k + 1][..k] == extras[..k];
  }

  /** Parts holding `w` consecutive hosts each hold, stacked, the hosts in order. */
  lemma {:induction false} StackHosts(parts: seq<Topo>, extras: seq<seq<Link>>, h0: nat, w: nat)
    requires |extras| == |parts|
    requires forall i | 0 <= i < |parts| :: parts[i].hosts == HostNames(h0 + w * i, w)
    ensures Stack(parts, extras).hosts == HostNames(h0, w * |parts|)
    decreases |parts|
  {
    if |parts| > 0 {
      var n := |parts| - 1;
      StackHosts(parts[..n], extras[..n], h0, w);
      MulSucc(n, w);
      HostNamesSplit(h0, w * n, w);
    }
  }

  /** Stacked parts hold all their switches and links plus the loop's own. */
  lemma {:induction false} StackSizes(parts: seq<Topo>, extras: seq<seq<Link>>, sw: nat, ln: nat)
    requires |extras| == |parts|
    requires forall i | 0 <= i < |parts| :: |parts[i].switches| == sw && |parts[i].links| == ln
    ensures |Stack(parts, extras).switches| == sw * |parts|
    ensures |Stack(parts, extras).links| == ln * |parts| + ExtraCount(extras)
    decreases |parts|
  {
    if |parts| > 0 {
      var n := |parts| - 1;
      StackSizes(parts[..n], extras[..n], sw, ln);
      MulSucc(n, sw);
      MulSucc(n, ln);
    }
  }

  /** A loop that adds `ex` links for every part after the first `z` adds `ex` for each of those. */
  lemma {:induction false} ExtraCountOf(extras: seq<seq<Link>>, ex: nat, z: nat)
    requires forall i | 0 <= i < |extras| :: |extras[i]| == if i < z then 0 else ex
    ensures ExtraCount(extras) == if |extras| > z then ex * (|extras| - z) else 0
    decreases |extras|
  {
    if |extras| > 0 {
      var n := |extras| - 1;
      ExtraCountOf(extras[..n], ex, z);
      if n >= z {
        MulSucc(n - z, ex);
      }
    }
  }

  /** Every link of the stack belongs to one part or was added by the loop for it. */
  lemma {:induction false} StackMember(parts: seq<Topo>, extras: seq<seq<Link>>, i: nat, x: Link)
    requires |extras| == |parts| && i < |parts|
    requires x in parts[i].links || x in extras[i]
    ensures x in Stack(parts, extras).links
    decreases |parts|
  {
    var n := |parts| - 1;
    if i < n {
      StackMember(parts[..n], extras[..n], i, x);
    }
  }

  /**
   * When part `i` gives one link to each of the hosts numbered
   * `h0 + w * i + 1` to `h0 + w * i + w` and none to other hosts, and the loop
   * itself links only switches, the stack gives each of its `w * |parts|`
   * hosts one link.
   */
  lemma {:induction false} StackDegree(parts: seq<Topo>, extras: seq<seq<Link>>, h0: nat, w: nat, x: int)
    requires |extras| == |parts|
    requires forall i | 0 <= i < |parts| ::
      Degree(parts[i].links, HostName(x)) == if h0 + w * i < x <= h0 + w * i + w then 1 else 0
    requires forall i, l | 0 <= i < |extras| && l in extras[i] :: IsSwitch(l.a) && IsSwitch(l.b)
    ensures Degree(Stack(parts, extras).links, HostName(x)) == if h0 < x <= h0 + w * |parts| then 1 else 0
    decreases |parts|
  {
    if |parts| > 0 {
      var n := |parts| - 1;
      var prev := Stack(parts[..n], extras[..n]);
      StackDegree(parts[..n], extras[..n], h0, w, x);
      DegreeConcat(prev.links + parts[n].links, extras[n], HostName(x));
      DegreeConcat(prev.links, parts[n].links, HostName(x));
      DegreeAbsent(extras[n], HostName(x));
      MulSucc(n, w);
    }
  }

  // ---------------------------------------------------------------- each level

  /** A server without virtual hosts is one host on its own switch. */
  lemma ServerAlone(h0: nat, s0: nat)
    ensures Server(h0, s0, 0) == Topo([HostName(h0 + 1)], [SwitchName(s0 + 1)], [Link(HostName(h0 + 1), SwitchName(s0 + 1), 1)])
  {
    assert HostNames(h0 + 1, 0) == [];
  }

  /** A server's virtual hosts come before it, each linked to the server's switch, and the server's own link comes last. */
  lemma ServerLinks(h0: nat, s0: nat, vps: nat)
    ensures var t := Server(h0, s0, vps);
      && |t.hosts| == 1 + vps && t.switches == [SwitchName(s0 + 1)] && |t.links| == 1 + vps
      && t.hosts[vps] == HostName(h0 + 1)
      && t.links[vps] == Link(HostName(h0 + 1), SwitchName(s0 + 1), SpeedServerSwitch)
      && forall j | 0 <= j < vps :: t.hosts[j] == HostName(h0 + 2 + j) && t.links[j] == Link(HostName(h0 + 2 + j), SwitchName(s0 + 1), SpeedVirtualPhysical)
  {
  }

  lemma ServerDegree(h0: nat, s0: nat, x: int)
    ensures Degree(Server(h0, s0, VirtualPerServer).links, HostName(x)) == if x == h0 + 1 then 1 else 0
  {
    ServerAlone(h0, s0);
    DegreeSnoc([], Link(HostName(h0 + 1), SwitchName(s0 + 1), 1), HostName(x));
    assert [] + [Link(HostName(h0 + 1), SwitchName(s0 + 1), 1)] == Server(h0, s0, 0).links;
  }

  /** A tower: its server's host, two switches, and the server link plus the link from the server's switch to the tower's. */
  lemma TowerShape(h0: nat, s0: nat)
    ensures Tower(h0, s0).hosts == HostNames(h0, ServersPerTower)
    ensures |Tower(h0, s0).switches| == 2 && |Tower(h0, s0).links| == 2
  {
    var parts, extras := TowerParts(h0, s0), TowerExtras(s0);
    forall k | 0 <= k < |parts|
      ensures parts[k].hosts == HostNames(h0 + 1 * k, 1) && |parts[k].switches| == 1 && |parts[k].links| == 1
    {
      ServerAlone(h0 + k, s0 + 1 + k);
    }
    StackHosts(parts, extras, h0, 1);
    StackSizes(parts, extras, 1, 1);
    ExtraCountOf(extras, 1, 0);
  }

  /** Server `k`'s switch is linked to the tower's switch. */
  lemma TowerUplink(h0: nat, s0: nat, k: nat)
    requires k < ServersPerTower
    ensures Link(SwitchName(s0 + 2 + k), SwitchName(s0 + 1), SpeedServerTower) in Tower(h0, s0).links
  {
    var extras := TowerExtras(s0);
    StackMember(TowerParts(h0, s0), extras, k, extras[k][0]);
  }

  lemma TowerDegree(h0: nat, s0: nat, x: int)
    ensures Degree(Tower(h0, s0).links, HostName(x)) == if h0 < x <= h0 + ServersPerTower then 1 else 0
  {
    var parts, extras := TowerParts(h0, s0), TowerExtras(s0);
    forall k | 0 <= k < |parts|
      ensures Degree(parts[k].links, HostName(x)) == if h0 + 1 * k < x <= h0 + 1 * k + 1 then 1 else 0
    {
      ServerDegree(h0 + k, s0 + 1 + k, x);
    }
    forall k, l: Link | 0 <= k < |extras| && l in extras[k]
      ensures IsSwitch(l.a) && IsSwitch(l.b)
    {
      assert extras[k] == [Link(SwitchName(s0 + 2 + k), SwitchName(s0 + 1), SpeedServerTower)];
    }
    StackDegree(parts, extras, h0, 1, x);
  }

  /** A corridor: two hosts, six switches, eight links, and each tower's switch linked to both corridor switches. */
  lemma CorridorShape(h0: nat, s0: nat)
    ensures Corridor(h0, s0).hosts == HostNames(h0, 2)
    ensures |Corridor(h0, s0).switches| == 6 && |Corridor(h0, s0).links| == 8
  {
    var parts, extras := CorridorParts(h0, s0), CorridorExtras(s0);
    forall t | 0 <= t < |parts|
      ensures parts[t].hosts == HostNames(h0 + 1 * t, 1) && |parts[t].switches| == 2 && |parts[t].links| == 2
    {
      TowerShape(h0 + t, s0 + 2 + 2 * t);
    }
    StackHosts(parts, extras, h0, 1);
    StackSizes(parts, extras, 2, 2);
    ExtraCountOf(extras, 2, 0);
  }

  /** Tower `t`'s switch is linked to both corridor switches. */
  lemma CorridorUplinks(h0: nat, s0: nat, t: nat)
    requires t < TowersPerCorridor
    ensures Link(SwitchName(s0 + 3 + 2 * t), SwitchName(s0 + 1), SpeedTowerCorridor) in Corridor(h0, s0).links
    ensures Link(SwitchName(s0 + 3 + 2 * t), SwitchName(s0 + 2), SpeedTowerCorridor) in Corridor(h0, s0).links
  {
    var parts, extras := CorridorParts(h0, s0), CorridorExtras(s0);
    StackMember(parts, extras, t, extras[t][0]);
    StackMember(parts, extras, t, extras[t][1]);
  }

  lemma CorridorDegree(h0: nat, s0: nat, x: int)
    ensures Degree(Corridor(h0, s0).links, HostName(x)) == if h0 < x <= h0 + 2 then 1 else 0
  {
    var parts, extras := CorridorParts(h0, s0), CorridorExtras(s0);
    forall t | 0 <= t < |parts|
      ensures Degree(parts[t].links, HostName(x)) == if h0 + 1 * t < x <= h0 + 1 * t + 1 then 1 else 0
    {
      TowerDegree(h0 + t, s0 + 2 + 2 * t, x);
    }
    StackDegree(parts, extras, h0, 1, x);
  }

  /** A spine group: six hosts, 22 switches, 30 links, and corridor `c` reaching spines `c` and `c + 1`. */
  lemma GroupShape(h0: nat, s0: nat)
    ensures Group(h0, s0).hosts == HostNames(h0, 6)
    ensures |Group(h0, s0).switches| == 22 && |Group(h0, s0).links| == 30
  {
    var parts, extras := GroupParts(h0, s0), GroupExtras(s0);
    GroupPartsShape(h0, s0);
    StackHosts(parts, extras, h0, 2);
    StackSizes(parts, extras, 6, 8);
    ExtraCountOf(extras, 2, 0);
    assert Group(h0, s0) == WithSwitches(Stack(parts, extras), SwitchNames(s0, Spines));
  }

  lemma GroupPartsShape(h0: nat, s0: nat)
    ensures var parts := GroupParts(h0, s0);
      forall c | 0 <= c < |parts| :: parts[c].hosts == HostNames(h0 + 2 * c, 2) && |parts[c].switches| == 6 && |parts[c].links| == 8
  {
    var parts := GroupParts(h0, s0);
    forall c | 0 <= c < |parts|
      ensures parts[c].hosts == HostNames(h0 + 2 * c, 2) && |parts[c].switches| == 6 && |parts[c].links| == 8
    {
      CorridorShape(h0 + 2 * c, s0 + 4 + 6 * c);
    }
  }

  /** Corridor `c`'s first switch is linked to spine `c`, its second to spine `c + 1`. */
  lemma GroupUplinks(h0: nat, s0: nat, c: nat)
    requires c < Spines - 1
    ensures Link(SwitchName(s0 + 5 + 6 * c), SwitchName(s0 + 1 + c), SpeedCorridorSpine) in Group(h0, s0).links
    ensures Link(SwitchName(s0 + 6 + 6 * c), SwitchName(s0 + 2 + c), SpeedCorridorSpine) in Group(h0, s0).links
  {
    var parts, extras := GroupParts(h0, s0), GroupExtras(s0);
    var x1 := Link(SwitchName(s0 + 5 + 6 * c), SwitchName(s0 + 1 + c), SpeedCorridorSpine);
    var x2 := Link(SwitchName(s0 + 6 + 6 * c), SwitchName(s0 + 2 + c), SpeedCorridorSpine);
    assert extras[c] == [x1, x2];
    StackMember(parts, extras, c, x1);
    StackMember(parts, extras, c, x2);
    assert Group(h0, s0).links == Stack(parts, extras).links;
  }

  lemma GroupDegree(h0: nat, s0: nat, x: int)
    ensures Degree(Group(h0, s0).links, HostName(x)) == if h0 < x <= h0 + 6 then 1 else 0
  {
    var parts, extras := GroupParts(h0, s0), GroupExtras(s0);
    forall c | 0 <= c < |parts|
      ensures Degree(parts[c].links, HostName(x)) == if h0 + 2 * c < x <= h0 + 2 * c + 2 then 1 else 0
    {
      CorridorDegree(h0 + 2 * c, s0 + 4 + 6 * c, x);
    }
    StackDegree(parts, extras, h0, 2, x);
  }

  // ---------------------------------------------------------------- the datacenter

  /** Each group of the datacenter has 6 hosts, numbered on from the groups before it, 22 switches and 30 links. */
  lemma DatacenterPartsShape(h0: nat, s0: nat)
    ensures forall g | 0 <= g < |DatacenterParts(h0, s0)| ::
      && DatacenterParts(h0, s0)[g].hosts == HostNames(h0 + 6 * g, 6)
      && |DatacenterParts(h0, s0)[g].switches| == 22 && |DatacenterParts(h0, s0)[g].links| == 30
  {
    forall g | 0 <= g < |DatacenterParts(h0, s0)|
      ensures DatacenterParts(h0, s0)[g].hosts == HostNames(h0 + 6 * g, 6)
      ensures |DatacenterParts(h0, s0)[g].switches| == 22 && |DatacenterParts(h0, s0)[g].links| == 30
    {
      GroupShape(h0 + 6 * g, s0 + 22 * g);
    }
  }

  /**
   * 18 hosts, in drawing order: as many as corridors × (spines − 1) × towers
   * per corridor × servers per tower × (1 + virtual servers per server).
   */
  lemma DatacenterHosts(h0: nat, s0: nat)
    ensures Datacenter(h0, s0).hosts
         == HostNames(h0, Corridors * (Spines - 1) * TowersPerCorridor * ServersPerTower * (1 + VirtualPerServer))
  {
    var parts, extras := DatacenterParts(h0, s0), DatacenterExtras(s0);
    DatacenterPartsShape(h0, s0);
    StackHosts(parts, extras, h0, 6);
  }

  /** 66 switches: 22 in each group. */
  lemma DatacenterSwitches(h0: nat, s0: nat)
    ensures |Datacenter(h0, s0).switches| == 66
  {
    var parts, extras := DatacenterParts(h0, s0), DatacenterExtras(s0);
    DatacenterPartsShape(h0, s0);
    StackSizes(parts, extras, 22, 30);
  }

  /** 90 links inside the groups and (corridors − 1) × spines = 8 between them. */
  lemma DatacenterLinks(h0: nat, s0: nat)
    ensures |Datacenter(h0, s0).links| == 90 + (Corridors - 1) * Spines
  {
    var parts, extras := DatacenterParts(h0, s0), DatacenterExtras(s0);
    DatacenterPartsShape(h0, s0);
    StackSizes(parts, extras, 22, 30);
    SpineSpineCount(s0);
  }

  /** Every group after the first is chained to the one before by one link per spine. */
  lemma SpineSpineCount(s0: nat)
    ensures ExtraCount(DatacenterExtras(s0)) == (Corridors - 1) * Spines
  {
    ExtraCountOf(DatacenterExtras(s0), Spines, 1);
  }

  /** Spine `i` of group `g - 1` is linked to spine `i` of group `g`. */
  lemma SpinesChained(h0: nat, s0: nat, g: nat, i: nat)
    requires 0 < g < Corridors && i < Spines
    ensures Link(SwitchName(s0 + 22 * (g - 1) + i + 1), SwitchName(s0 + 22 * g + i + 1), SpeedSpineSpine) in Datacenter(h0, s0).links
  {
    var extras := DatacenterExtras(s0);
    assert extras[g][i] == Link(SwitchName(s0 + 22 * (g - 1) + i + 1), SwitchName(s0 + 22 * g + i + 1), SpeedSpineSpine);
    StackMember(DatacenterParts(h0, s0), extras, g, extras[g][i]);
  }

  /** In group `g`, corridor `c`'s first switch reaches spine `c` and its second spine `c + 1`. */
  lemma CorridorSpines(h0: nat, s0: nat, g: nat, c: nat)
    requires g < Corridors && c < Spines - 1
    ensures Link(SwitchName(s0 + 22 * g + 5 + 6 * c), SwitchName(s0 + 22 * g + 1 + c), SpeedCorridorSpine) in Datacenter(h0, s0).links
    ensures Link(SwitchName(s0 + 22 * g + 6 + 6 * c), SwitchName(s0 + 22 * g + 2 + c), SpeedCorridorSpine) in Datacenter(h0, s0).links
  {
    var hg, sg := h0 + 6 * g, s0 + 22 * g;
    GroupUplinks(hg, sg, c);
    GroupLinkKept(h0, s0, g, Link(SwitchName(sg + 5 + 6 * c), SwitchName(sg + 1 + c), SpeedCorridorSpine));
    GroupLinkKept(h0, s0, g, Link(SwitchName(sg + 6 + 6 * c), SwitchName(sg + 2 + c), SpeedCorridorSpine));
  }

  /** A link of group `g` is a link of the datacenter. */
  lemma GroupLinkKept(h0: nat, s0: nat, g: nat, x: Link)
    requires g < Corridors && x in Group(h0 + 6 * g, s0 + 22 * g).links
    ensures x in Datacenter(h0, s0).links
  {
    var parts := DatacenterParts(h0, s0);
    assert parts[g] == Group(h0 + 6 * g, s0 + 22 * g);
    StackMember(parts, DatacenterExtras(s0), g, x);
  }

  /** Every host of the datacenter has exactly one link, to its own server's switch; no other name numbered as a host has any. */
  lemma HostDegree(h0: nat, s0: nat, x: int)
    ensures Degree(Datacenter(h0, s0).links, HostName(x)) == if h0 < x <= h0 + 18 then 1 else 0
  {
    var parts, extras := DatacenterParts(h0, s0), DatacenterExtras(s0);
    forall g | 0 <= g < |parts|
      ensures Degree(parts[g].links, HostName(x)) == if h0 + 6 * g < x <= h0 + 6 * g + 6 then 1 else 0
    {
      GroupDegree(h0 + 6 * g, s0 + 22 * g, x);
    }
    StackDegree(parts, extras, h0, 6, x);
  }
}
