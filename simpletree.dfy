/**
 * topocreatesimpletree.py: a binary tree of switches under a root switch,
 * with two hosts under every switch of the last level.
 */
module SimpleTree {
  import opened NodePair
  import opened Counter
  import opened Topology

  const Speed := 1
  const Levels := 3

  /** What one `create_tree` call returns. */
  datatype Part = Part(hosts: seq<NodeId>, switches: seq<NodeId>, links: seq<Link>)

  /** How many levels remain below a call; negative counts as none. */
  function Height(levels: int): nat
  {
    if levels > 0 then levels else 0
  }

  function NoPart(): Part
  {
    Part([], [], [])
  }

  /**
   * One pass of `for _ in range(2)` in `create_tree(root, levels)`, after the
   * passes that gave `p` and with the counters at `h0 + |p.hosts|` and
   * `s0 + |p.switches|`: a host under `root` when no level is left, otherwise
   * a new switch under `root` followed by its own subtree.
   */
  function Step(root: NodeId, levels: int, h0: nat, s0: nat, p: Part): Part
    decreases Height(levels), 0
  {
    if levels <= 0 then
      var h := HostName(h0 + |p.hosts| + 1);
      Part(p.hosts + [h], p.switches, p.links + [Link(root, h, Speed)])
    else
      var sw := SwitchName(s0 + |p.switches| + 1);
      var sub := Tree(sw, levels - 1, h0 + |p.hosts|, s0 + |p.switches| + 1);
      Part(p.hosts + sub.hosts, p.switches + [sw] + sub.switches, p.links + [Link(root, sw, Speed)] + sub.links)
  }

  /** `create_tree(root, levels)` when the counters stand at `h0` and `s0`: two passes. */
  function Tree(root: NodeId, levels: int, h0: nat, s0: nat): Part
    decreases Height(levels), 1
  {
    Step(root, levels, h0, s0, Step(root, levels, h0, s0, NoPart()))
  }

  /** `create_tree(root, levels_coming)`, drawing names from the two module counters. */
  method CreateTree(hostsIter: CounterIterator, switchIter: CounterIterator, root: NodeId, levels: int)
    returns (hs: seq<NodeId>, ss: seq<NodeId>, ls: seq<Link>)
    requires hostsIter != switchIter
    modifies hostsIter, switchIter
    ensures Part(hs, ss, ls) == Tree(root, levels, old(hostsIter.count), old(switchIter.count))
    ensures hostsIter.count == old(hostsIter.count) + |hs|
    ensures switchIter.count == old(switchIter.count) + |ss|
    decreases Height(levels)
  {
    ghost var h0 := hostsIter.count;
    ghost var s0 := switchIter.count;
    hs, ss, ls := [], [], [];
    for k := 0 to 2
      invariant Part(hs, ss, ls) == if k == 0 then NoPart() else if k == 1 then Step(root, levels, h0, s0, NoPart())
                                   else Tree(root, levels, h0, s0)
      invariant hostsIter.count == h0 + |hs| && switchIter.count == s0 + |ss|
    {
      if levels <= 0 {
        var h := NextHost(hostsIter);
        hs := hs + [h];
        ls := ls + [Link(root, hs[|hs| - 1], Speed)];
      } else {
        var sw := NextSwitch(switchIter);
        ss := ss + [sw];
        ls := ls + [Link(root, ss[|ss| - 1], Speed)];
        var h, s, l := CreateTree(hostsIter, switchIter, ss[|ss| - 1], levels - 1);
        hs := hs + h;
        ss := ss + s;
        ls := ls + l;
      }
    }
  }

  /** A root switch `s(s0+1)` with a tree of `levels` levels below it. */
  function Rooted(h0: nat, s0: nat, levels: int): Topo
  {
    var root := SwitchName(s0 + 1);
    var t := Tree(root, levels, h0, s0 + 1);
    Topo(t.hosts, [root] + t.switches, t.links)
  }

  /** What `create_topo()` returns when the counters stand at `h0` and `s0`. */
  function TreeTopo(h0: nat, s0: nat): Topo
  {
    Rooted(h0, s0, Levels)
  }

  /** The body of `create_topo()` for a tree of `levels` levels. */
  method CreateRooted(hostsIter: CounterIterator, switchIter: CounterIterator, levels: int) returns (t: Topo)
    requires hostsIter != switchIter
    modifies hostsIter, switchIter
    ensures t == Rooted(old(hostsIter.count), old(switchIter.count), levels)
    ensures hostsIter.count == old(hostsIter.count) + |t.hosts|
    ensures switchIter.count == old(switchIter.count) + |t.switches|
  {
    var root := NextSwitch(switchIter);
    var h, s, l := CreateTree(hostsIter, switchIter, root, levels);
    t := Topo(h, [root] + s, l);
  }

  /** `create_topo()`. */
  method CreateTopo(hostsIter: CounterIterator, switchIter: CounterIterator) returns (t: Topo)
    requires hostsIter != switchIter
    modifies hostsIter, switchIter
    ensures t == TreeTopo(old(hostsIter.count), old(switchIter.count))
    ensures hostsIter.count == old(hostsIter.count) + |t.hosts|
    ensures switchIter.count == old(switchIter.count) + |t.switches|
  {
    t := CreateRooted(hostsIter, switchIter, Levels);
  }

  /** `main`'s use of the builder, between two counter resets. */
  method MainTopo() returns (t: Topo, hostsIter: CounterIterator, switchIter: CounterIterator)
    ensures t == TreeTopo(0, 0)
    ensures fresh(hostsIter) && fresh(switchIter) && hostsIter != switchIter
    ensures hostsIter.count == 0 && switchIter.count == 0
  {
    t, hostsIter, switchIter := MainRooted(Levels);
  }

  /** `main` around a tree of `levels` levels. */
  method MainRooted(levels: int) returns (t: Topo, hostsIter: CounterIterator, switchIter: CounterIterator)
    ensures t == Rooted(0, 0, levels)
    ensures fresh(hostsIter) && fresh(switchIter) && hostsIter != switchIter
    ensures hostsIter.count == 0 && switchIter.count == 0
  {
    hostsIter, switchIter := ResetIters();
    t := CreateRooted(hostsIter, switchIter, levels);
    hostsIter, switchIter := ResetIters();
  }

  // ---------------------------------------------------------------- properties

  function Pow2(n: nat): (r: nat)
    ensures r >= 1
  {
    if n == 0 then 1 else 2 * Pow2(n - 1)
  }

  /** The endpoints that are children in the links: `b` of each, in order. */
  function ChildNodes(links: seq<Link>): (r: seq<NodeId>)
    ensures |r| == |links|
    ensures forall i | 0 <= i < |links| :: r[i] == links[i].b
  {
    seq(|links|, i requires 0 <= i < |links| => links[i].b)
  }

  /**
   * Hosts and switches are named consecutively after the counters in the
   * order they are listed, and the links name each of them once as a child.
   */
  predicate Named(p: Part, h0: nat, s0: nat)
  {
    && p.hosts == HostNames(h0, |p.hosts|)
    && p.switches == SwitchNames(s0, |p.switches|)
    && multiset(ChildNodes(p.links)) == multiset(p.hosts + p.switches)
  }

  /**
   * A tree of height `L` has `2^(L+1)` hosts and `2^(L+1) - 2` switches,
   * named consecutively in the order they are listed (the switches in
   * depth-first preorder), and one link per node it creates, which names that
   * node as its child.
   */
  lemma {:induction false} TreeShape(root: NodeId, levels: int, h0: nat, s0: nat)
    ensures var t := Tree(root, levels, h0, s0);
      && Named(t, h0, s0)
      && |t.hosts| == 2 * Pow2(Height(levels))
      && |t.switches| == 2 * Pow2(Height(levels)) - 2
    decreases Height(levels), 1
  {
    var p0 := NoPart();
    assert Named(p0, h0, s0);
    StepShape(root, levels, h0, s0, p0);
    StepShape(root, levels, h0, s0, Step(root, levels, h0, s0, p0));
  }

  /** One pass adds `2^L` hosts and `2^L - 1` switches, keeping the naming. */
  lemma {:induction false} StepShape(root: NodeId, levels: int, h0: nat, s0: nat, p: Part)
    requires Named(p, h0, s0)
    ensures var t := Step(root, levels, h0, s0, p);
      && Named(t, h0, s0)
      && |t.hosts| == |p.hosts| + Pow2(Height(levels))
      && |t.switches| + 1 == |p.switches| + Pow2(Height(levels))
    decreases Height(levels), 0
  {
    if levels <= 0 {
      HostStepShape(root, levels, h0, s0, p);
    } else {
      var sw := SwitchName(s0 + |p.switches| + 1);
      TreeShape(sw, levels - 1, h0 + |p.hosts|, s0 + |p.switches| + 1);
      SwitchStepShape(root, levels, h0, s0, p);
    }
  }

  lemma {:induction false} HostStepShape(root: NodeId, levels: int, h0: nat, s0: nat, p: Part)
    requires levels <= 0 && Named(p, h0, s0)
    ensures var t := Step(root, levels, h0, s0, p);
      Named(t, h0, s0) && |t.hosts| == |p.hosts| + 1 && t.switches == p.switches
  {
    var t := Step(root, levels, h0, s0, p);
    var h := HostName(h0 + |p.hosts| + 1);
    HostNamesSplit(h0, |p.hosts|, 1);
    assert ChildNodes(t.links) == ChildNodes(p.links) + [h];
    assert t.hosts + t.switches == p.hosts + [h] + p.switches;
    assert multiset(p.hosts + [h] + p.switches) == multiset(p.hosts + p.switches) + multiset{h};
  }

  lemma {:induction false} SwitchStepShape(root: NodeId, levels: int, h0: nat, s0: nat, p: Part)
    requires levels > 0 && Named(p, h0, s0)
    requires var sub := Tree(SwitchName(s0 + |p.switches| + 1), levels - 1, h0 + |p.hosts|, s0 + |p.switches| + 1);
      && Named(sub, h0 + |p.hosts|, s0 + |p.switches| + 1)
      && |sub.hosts| == 2 * Pow2(Height(levels - 1))
      && |sub.switches| == 2 * Pow2(Height(levels - 1)) - 2
    ensures var t := Step(root, levels, h0, s0, p);
      && Named(t, h0, s0)
      && |t.hosts| == |p.hosts| + Pow2(Height(levels))
      && |t.switches| + 1 == |p.switches| + Pow2(Height(levels))
  {
    var sw := SwitchName(s0 + |p.switches| + 1);
    var sub := Tree(sw, levels - 1, h0 + |p.hosts|, s0 + |p.switches| + 1);
    var t := Part(p.hosts + sub.hosts, p.switches + [sw] + sub.switches, p.links + [Link(root, sw, Speed)] + sub.links);
    assert Step(root, levels, h0, s0, p) == t;
    assert Named(t, h0, s0) by {
      Graft(p, root, sw, sub, h0, s0);
    }
    assert Pow2(Height(levels)) == 2 * Pow2(Height(levels - 1));
  }

  /** A switch under `root` with the subtree `sub` below it, appended to `p`. */
  lemma {:induction false} Graft(p: Part, root: NodeId, sw: NodeId, sub: Part, h0: nat, s0: nat)
    requires Named(p, h0, s0) && sw == SwitchName(s0 + |p.switches| + 1)
    requires Named(sub, h0 + |p.hosts|, s0 + |p.switches| + 1)
    ensures Named(Part(p.hosts + sub.hosts, p.switches + [sw] + sub.switches,
                       p.links + [Link(root, sw, Speed)] + sub.links), h0, s0)
  {
    HostNamesSplit(h0, |p.hosts|, |sub.hosts|);
    GraftSwitches(p.switches, sw, sub.switches, s0);
    GraftChildren(p, Link(root, sw, Speed), sub);
  }

  lemma {:induction false} GraftSwitches(ps: seq<NodeId>, sw: NodeId, ss: seq<NodeId>, s0: nat)
    requires ps == SwitchNames(s0, |ps|) && sw == SwitchName(s0 + |ps| + 1)
    requires ss == SwitchNames(s0 + |ps| + 1, |ss|)
    ensures ps + [sw] + ss == SwitchNames(s0, |ps| + 1 + |ss|)
  {
    SwitchNamesSplit(s0, |ps|, 1);
    SwitchNamesSplit(s0, |ps| + 1, |ss|);
    assert SwitchNames(s0 + |ps|, 1) == [sw];
  }

  /** A link naming `l.b` as a child, between two parts whose links name their own nodes. */
  lemma {:induction false} GraftChildren(p: Part, l: Link, sub: Part)
    requires multiset(ChildNodes(p.links)) == multiset(p.hosts + p.switches)
    requires multiset(ChildNodes(sub.links)) == multiset(sub.hosts + sub.switches)
    ensures multiset(ChildNodes(p.links + [l] + sub.links))
         == multiset((p.hosts + sub.hosts) + (p.switches + [l.b] + sub.switches))
  {
    assert ChildNodes(p.links + [l] + sub.links) == ChildNodes(p.links) + [l.b] + ChildNodes(sub.links);
    calc {
      multiset((p.hosts + sub.hosts) + (p.switches + [l.b] + sub.switches));
      multiset(p.hosts) + multiset(sub.hosts) + multiset(p.switches) + multiset{l.b} + multiset(sub.switches);
      multiset(p.hosts + p.switches) + multiset{l.b} + multiset(sub.hosts + sub.switches);
      multiset(ChildNodes(p.links) + [l.b] + ChildNodes(sub.links));
    }
  }

  /**
   * A rooted tree of `L` levels: `2^(L+1)` hosts, the root and `2^(L+1) - 2`
   * further switches, named consecutively, and one link per node other than
   * the root, naming it as the child.
   */
  lemma {:induction false} RootedShape(h0: nat, s0: nat, levels: int)
    ensures var t := Rooted(h0, s0, levels);
      && t.hosts == HostNames(h0, 2 * Pow2(Height(levels)))
      && t.switches == SwitchNames(s0, 2 * Pow2(Height(levels)) - 1)
      && |t.links| == |t.hosts| + |t.switches| - 1
      && multiset(ChildNodes(t.links)) == multiset(t.hosts + t.switches[1..])
  {
    var root := SwitchName(s0 + 1);
    var p := Tree(root, levels, h0, s0 + 1);
    TreeShape(root, levels, h0, s0 + 1);
    SwitchNamesSplit(s0, 1, |p.switches|);
    assert SwitchNames(s0, 1) == [root];
    var t := Rooted(h0, s0, levels);
    assert t.switches[1..] == p.switches;
    assert |ChildNodes(p.links)| == |multiset(p.hosts + p.switches)|;
  }

  /**
   * With three levels below the root: 16 hosts h(h0+1)..h(h0+16), 15
   * switches s(s0+1)..s(s0+15) with the root first, and 30 links, each naming
   * as its child a different node other than the root.
   */
  lemma TreeTotals(h0: nat, s0: nat)
    ensures var t := TreeTopo(h0, s0);
      && t.hosts == HostNames(h0, 16) && t.switches == SwitchNames(s0, 15) && |t.links| == 30
      && multiset(ChildNodes(t.links)) == multiset(t.hosts + t.switches[1..])
  {
    RootedShape(h0, s0, Levels);
    LevelsPower();
  }

  lemma LevelsPower()
    ensures Pow2(Height(Levels)) == 8
  {
  }
}
