/**
 * What every `topocreate*.py` builder shares: the `(hosts, switches, links)`
 * triple it returns, the names it draws from the two global counters, and
 * `sew_rows`, the row-major cross product of two lists of nodes.
 */
module Topology {
  import opened NodePair
  import opened Dict
  import opened Counter

  /** A link `(a, b, bw)` of the topology JSON. */
  datatype Link = Link(a: NodeId, b: NodeId, bw: int)

  /** The triple a builder returns and the renderer reads. */
  datatype Topo = Topo(hosts: seq<NodeId>, switches: seq<NodeId>, links: seq<Link>)

  // ---------------------------------------------------------------- names

  /** The `n` host names a counter at `start` hands out next. */
  function HostNames(start: nat, n: nat): (r: seq<NodeId>)
    ensures |r| == n
    ensures forall i | 0 <= i < n :: r[i] == HostName(start + 1 + i)
  {
    seq<NodeId>(n, i requires 0 <= i < n => HostName(start + 1 + i))
  }

  /** The `n` switch names a counter at `start` hands out next. */
  function SwitchNames(start: nat, n: nat): (r: seq<NodeId>)
    ensures |r| == n
    ensures forall i | 0 <= i < n :: r[i] == SwitchName(start + 1 + i)
  {
    seq<NodeId>(n, i requires 0 <= i < n => SwitchName(start + 1 + i))
  }

  lemma HostNamesSplit(start: nat, m: nat, n: nat)
    ensures HostNames(start, m + n) == HostNames(start, m) + HostNames(start + m, n)
  {
    assert HostNames(start, m + n) == HostNames(start, m) + HostNames(start + m, n);
  }

  lemma SwitchNamesSplit(start: nat, m: nat, n: nat)
    ensures SwitchNames(start, m + n) == SwitchNames(start, m) + SwitchNames(start + m, n)
  {
    assert SwitchNames(start, m + n) == SwitchNames(start, m) + SwitchNames(start + m, n);
  }

  /** A name is among the next `n` exactly when its number is. */
  lemma HostNamesMember(start: nat, n: nat, k: int)
    ensures HostName(k) in HostNames(start, n) <==> start < k <= start + n
  {
    if HostName(k) in HostNames(start, n) {
      var i :| 0 <= i < n && HostNames(start, n)[i] == HostName(k);
    }
    if start < k <= start + n {
      assert HostNames(start, n)[k - start - 1] == HostName(k);
    }
  }

  lemma SwitchNamesMember(start: nat, n: nat, k: int)
    ensures SwitchName(k) in SwitchNames(start, n) <==> start < k <= start + n
  {
    if SwitchName(k) in SwitchNames(start, n) {
      var i :| 0 <= i < n && SwitchNames(start, n)[i] == SwitchName(k);
    }
    if start < k <= start + n {
      assert SwitchNames(start, n)[k - start - 1] == SwitchName(k);
    }
  }

  lemma HostNamesDistinct(start: nat, n: nat)
    ensures DistinctSeq(HostNames(start, n))
  {
    forall i, j | 0 <= i < j < n
      ensures HostNames(start, n)[i] != HostNames(start, n)[j]
    {
    }
  }

  lemma SwitchNamesDistinct(start: nat, n: nat)
    ensures DistinctSeq(SwitchNames(start, n))
  {
    forall i, j | 0 <= i < j < n
      ensures SwitchNames(start, n)[i] != SwitchNames(start, n)[j]
    {
    }
  }

  /** `f"h{next(hosts_iter)}"`. */
  method NextHost(it: CounterIterator) returns (h: NodeId)
    modifies it
    ensures it.count == old(it.count) + 1
    ensures h == HostName(it.count)
  {
    var c := it.Next();
    h := HostName(c);
  }

  /** `f"s{next(switch_iter)}"`. */
  method NextSwitch(it: CounterIterator) returns (s: NodeId)
    modifies it
    ensures it.count == old(it.count) + 1
    ensures s == SwitchName(it.count)
  {
    var c := it.Next();
    s := SwitchName(c);
  }

  /** `[f"h{next(hosts_iter)}" for _ in range(n)]`. */
  method NextHosts(it: CounterIterator, n: nat) returns (hs: seq<NodeId>)
    modifies it
    ensures it.count == old(it.count) + n
    ensures hs == HostNames(old(it.count), n)
  {
    hs := [];
    var k := 0;
    while k < n
      invariant 0 <= k <= n
      invariant it.count == old(it.count) + k
      invariant hs == HostNames(old(it.count), k)
    {
      var h := NextHost(it);
      HostNamesSplit(old(it.count), k, 1);
      hs := hs + [h];
      k := k + 1;
    }
  }

  /** `[f"s{next(switch_iter)}" for _ in range(n)]` (`create_row` in topocreateclos5.py). */
  method NextSwitches(it: CounterIterator, n: nat) returns (ss: seq<NodeId>)
    modifies it
    ensures it.count == old(it.count) + n
    ensures ss == SwitchNames(old(it.count), n)
  {
    ss := [];
    var k := 0;
    while k < n
      invariant 0 <= k <= n
      invariant it.count == old(it.count) + k
      invariant ss == SwitchNames(old(it.count), k)
    {
      var s := NextSwitch(it);
      SwitchNamesSplit(old(it.count), k, 1);
      ss := ss + [s];
      k := k + 1;
    }
  }

  /**
   * The loop `for _ in range(n): h = f"h{next(hosts_iter)}"; hosts.append(h);
   * links.append((sw, h, bw))` that hangs fresh hosts off one switch (or
   * appends `(h, sw, bw)` when `hostFirst`).
   */
  method AttachHosts(it: CounterIterator, sw: NodeId, n: nat, bw: int, hostFirst: bool,
                     hosts: seq<NodeId>, links: seq<Link>)
    returns (hosts': seq<NodeId>, links': seq<Link>)
    modifies it
    ensures it.count == old(it.count) + n
    ensures hosts' == hosts + HostNames(old(it.count), n)
    ensures links' == links + HostFan(sw, HostNames(old(it.count), n), bw, hostFirst)
  {
    hosts', links' := hosts, links;
    for k := 0 to n
      invariant it.count == old(it.count) + k
      invariant hosts' == hosts + HostNames(old(it.count), k)
      invariant links' == links + HostFan(sw, HostNames(old(it.count), k), bw, hostFirst)
    {
      var h := NextHost(it);
      HostNamesSplit(old(it.count), k, 1);
      assert HostFan(sw, HostNames(old(it.count), k + 1), bw, hostFirst)
          == HostFan(sw, HostNames(old(it.count), k), bw, hostFirst) + [HostLink(sw, h, bw, hostFirst)];
      hosts' := hosts' + [h];
      links' := links' + [HostLink(sw, h, bw, hostFirst)];
    }
  }

  /** Host names are never switch names. */
  lemma HostNamesHaveNoSwitch(start: nat, n: nat, x: NodeId)
    requires IsSwitch(x)
    ensures x !in HostNames(start, n)
  {
  }

  /** Switch names are never host names. */
  lemma SwitchNamesHaveNoHost(start: nat, n: nat, x: NodeId)
    requires IsHost(x)
    ensures x !in SwitchNames(start, n)
  {
  }

  // ---------------------------------------------------------------- links

  /** One node linked to each of `nodes` in turn, as `(center, node)`. */
  function Fan(center: NodeId, nodes: seq<NodeId>, bw: int): (r: seq<Link>)
    ensures |r| == |nodes|
    ensures forall j | 0 <= j < |nodes| :: r[j] == Link(center, nodes[j], bw)
  {
    seq(|nodes|, j requires 0 <= j < |nodes| => Link(center, nodes[j], bw))
  }

  /** Each of `nodes` in turn linked to one node, as `(node, center)`. */
  function FanIn(nodes: seq<NodeId>, center: NodeId, bw: int): (r: seq<Link>)
    ensures |r| == |nodes|
    ensures forall j | 0 <= j < |nodes| :: r[j] == Link(nodes[j], center, bw)
  {
    seq(|nodes|, j requires 0 <= j < |nodes| => Link(nodes[j], center, bw))
  }

  lemma FanSnoc(center: NodeId, nodes: seq<NodeId>, x: NodeId, bw: int)
    ensures Fan(center, nodes + [x], bw) == Fan(center, nodes, bw) + [Link(center, x, bw)]
  {
    assert Fan(center, nodes + [x], bw) == Fan(center, nodes, bw) + [Link(center, x, bw)];
  }

  lemma FanInSnoc(nodes: seq<NodeId>, x: NodeId, center: NodeId, bw: int)
    ensures FanIn(nodes + [x], center, bw) == FanIn(nodes, center, bw) + [Link(x, center, bw)]
  {
    assert FanIn(nodes + [x], center, bw) == FanIn(nodes, center, bw) + [Link(x, center, bw)];
  }

  /** `sew_rows(r1, r2, bw)`: `[(i, j, bw) for i in r1 for j in r2]`. */
  function SewRows(r1: seq<NodeId>, r2: seq<NodeId>, bw: int): (r: seq<Link>)
    ensures |r| == |r1| * |r2|
  {
    if |r1| == 0 then [] else Fan(r1[0], r2, bw) + SewRows(r1[1..], r2, bw)
  }

  /** The cross product is laid out row by row: entry `i·|r2| + j` is `(r1[i], r2[j])`. */
  lemma {:induction false} SewRowsIndex(r1: seq<NodeId>, r2: seq<NodeId>, bw: int, i: nat, j: nat)
    requires i < |r1| && j < |r2|
    ensures i * |r2| + j < |SewRows(r1, r2, bw)|
    ensures SewRows(r1, r2, bw)[i * |r2| + j] == Link(r1[i], r2[j], bw)
  {
    MulBelow(i, |r1|, |r2|, j);
    if i > 0 {
      SewRowsIndex(r1[1..], r2, bw, i - 1, j);
      assert i * |r2| + j == |r2| + ((i - 1) * |r2| + j);
    }
  }

  lemma MulBelow(i: nat, n: nat, m: nat, j: nat)
    requires i < n && j < m
    ensures i * m + j < n * m
  {
    assert (i + 1) * m <= n * m;
  }

  /** A link is in the cross product exactly when its ends come from the two rows. */
  lemma {:induction false} SewRowsMember(r1: seq<NodeId>, r2: seq<NodeId>, bw: int, l: Link)
    ensures l in SewRows(r1, r2, bw) <==> l.a in r1 && l.b in r2 && l.bw == bw
  {
    if |r1| > 0 {
      SewRowsMember(r1[1..], r2, bw, l);
      assert r1 == [r1[0]] + r1[1..];
      if l.a == r1[0] && l.b in r2 && l.bw == bw {
        var j :| 0 <= j < |r2| && r2[j] == l.b;
        assert Fan(r1[0], r2, bw)[j] == l;
      }
    }
  }

  lemma {:induction false} SewRowsConcat(r1: seq<NodeId>, r1': seq<NodeId>, r2: seq<NodeId>, bw: int)
    ensures SewRows(r1 + r1', r2, bw) == SewRows(r1, r2, bw) + SewRows(r1', r2, bw)
  {
    if |r1| > 0 {
      assert (r1 + r1')[1..] == r1[1..] + r1';
      SewRowsConcat(r1[1..], r1', r2, bw);
    } else {
      assert r1 + r1' == r1';
    }
  }

  /** The nested loops `for i in r1: for j in r2: links.append((i, j, bw))`. */
  method SewRowsLoop(r1: seq<NodeId>, r2: seq<NodeId>, bw: int) returns (links: seq<Link>)
    ensures links == SewRows(r1, r2, bw)
  {
    links := [];
    for i := 0 to |r1|
      invariant links == SewRows(r1[..i], r2, bw)
    {
      var row := [];
      for j := 0 to |r2|
        invariant row == Fan(r1[i], r2[..j], bw)
      {
        FanSnoc(r1[i], r2[..j], r2[j], bw);
        assert r2[..j + 1] == r2[..j] + [r2[j]];
        row := row + [Link(r1[i], r2[j], bw)];
      }
      assert r2[..|r2|] == r2;
      assert r1[..i + 1] == r1[..i] + [r1[i]];
      SewRowsConcat(r1[..i], [r1[i]], r2, bw);
      links := links + row;
    }
    assert r1[..|r1|] == r1;
  }

  lemma MulSucc(l: nat, m: nat)
    ensures (l + 1) * m == l * m + m && l * m >= 0
  {
  }

  /** `(sw, h, bw)`, or `(h, sw, bw)` for builders that put the host first. */
  function HostLink(sw: NodeId, h: NodeId, bw: int, hostFirst: bool): Link
  {
    if hostFirst then Link(h, sw, bw) else Link(sw, h, bw)
  }

  /** The links of one switch to each of `hs`, in the builder's orientation. */
  function HostFan(sw: NodeId, hs: seq<NodeId>, bw: int, hostFirst: bool): (r: seq<Link>)
    ensures |r| == |hs|
    ensures forall j | 0 <= j < |hs| :: r[j] == HostLink(sw, hs[j], bw, hostFirst)
  {
    if hostFirst then FanIn(hs, sw, bw) else Fan(sw, hs, bw)
  }

  /**
   * Each switch of `sws` in turn gets the next `m` host names after `h0`, one
   * link per host.
   */
  function Attached(sws: seq<NodeId>, h0: nat, m: nat, bw: int, hostFirst: bool): seq<Link>
    decreases |sws|
  {
    if |sws| == 0 then []
    else HostFan(sws[0], HostNames(h0, m), bw, hostFirst) + Attached(sws[1..], h0 + m, m, bw, hostFirst)
  }

  lemma {:induction false} AttachedLength(sws: seq<NodeId>, h0: nat, m: nat, bw: int, hostFirst: bool)
    ensures |Attached(sws, h0, m, bw, hostFirst)| == |sws| * m
    decreases |sws|
  {
    if |sws| > 0 {
      AttachedLength(sws[1..], h0 + m, m, bw, hostFirst);
      MulSucc(|sws| - 1, m);
    }
  }

  /**
   * Entry `off + j`, where `off` is the number of links the first `l` switches
   * make, links switch `l` to host number `h0 + off + j + 1`.
   */
  lemma {:induction false} AttachedIndex(sws: seq<NodeId>, h0: nat, m: nat, bw: int, hostFirst: bool, l: nat, j: nat, off: nat)
    requires l < |sws| && j < m && off == |Attached(sws[..l], h0, m, bw, hostFirst)|
    ensures off + j < |Attached(sws, h0, m, bw, hostFirst)|
    ensures Attached(sws, h0, m, bw, hostFirst)[off + j] == HostLink(sws[l], HostName(h0 + off + j + 1), bw, hostFirst)
    decreases |sws|
  {
    var head := HostFan(sws[0], HostNames(h0, m), bw, hostFirst);
    var rest := Attached(sws[1..], h0 + m, m, bw, hostFirst);
    assert Attached(sws, h0, m, bw, hostFirst) == head + rest;
    if l > 0 {
      assert sws[..l][1..] == sws[1..][..l - 1];
      assert Attached(sws[..l], h0, m, bw, hostFirst) == head + Attached(sws[1..][..l - 1], h0 + m, m, bw, hostFirst);
      AttachedIndex(sws[1..], h0 + m, m, bw, hostFirst, l - 1, j, off - m);
      assert (head + rest)[off + j] == rest[off - m + j];
      var hn := HostName(h0 + m + (off - m) + j + 1);
      assert rest[off - m + j] == HostLink(sws[1..][l - 1], hn, bw, hostFirst);
      assert hn == HostName(h0 + off + j + 1);
      assert sws[1..][l - 1] == sws[l];
    }
  }

  /** One more switch appends its `m` host links at the end. */
  lemma {:induction false} AttachedSnoc(sws: seq<NodeId>, h0: nat, m: nat, bw: int, hostFirst: bool, sw: NodeId, start: nat)
    requires start == h0 + |sws| * m
    ensures Attached(sws + [sw], h0, m, bw, hostFirst)
         == Attached(sws, h0, m, bw, hostFirst) + HostFan(sw, HostNames(start, m), bw, hostFirst)
    decreases |sws|
  {
    if |sws| > 0 {
      assert (sws + [sw])[1..] == sws[1..] + [sw];
      MulSucc(|sws| - 1, m);
      AttachedSnoc(sws[1..], h0 + m, m, bw, hostFirst, sw, start);
    } else {
      assert sws + [sw] == [sw];
    }
  }

  /** Every attached link joins one of the switches to a host. */
  lemma {:induction false} AttachedMember(sws: seq<NodeId>, h0: nat, m: nat, bw: int, hostFirst: bool, x: Link)
    requires x in Attached(sws, h0, m, bw, hostFirst)
    ensures exists sw, h :: sw in sws && IsHost(h) && x == HostLink(sw, h, bw, hostFirst)
    decreases |sws|
  {
    var hs := HostNames(h0, m);
    if x in HostFan(sws[0], hs, bw, hostFirst) {
      var j :| 0 <= j < m && HostFan(sws[0], hs, bw, hostFirst)[j] == x;
      assert IsHost(hs[j]);
    } else {
      AttachedMember(sws[1..], h0 + m, m, bw, hostFirst, x);
      var sw, h :| sw in sws[1..] && IsHost(h) && x == HostLink(sw, h, bw, hostFirst);
      assert sw in sws;
    }
  }

  /** The links of the first `i + 1` switches are those of the first `i` and then the `i`-th switch's fan. */
  lemma AttachedPrefix(sws: seq<NodeId>, i: nat, h0: nat, m: nat, bw: int, hostFirst: bool, done: nat)
    requires i < |sws| && done == i * m
    ensures Attached(sws[..i + 1], h0, m, bw, hostFirst)
         == Attached(sws[..i], h0, m, bw, hostFirst) + HostFan(sws[i], HostNames(h0 + done, m), bw, hostFirst)
  {
    assert sws[..i + 1] == sws[..i] + [sws[i]];
    AttachedSnoc(sws[..i], h0, m, bw, hostFirst, sws[i], h0 + done);
  }

  /** One turn of `AttachAll`'s loop, on the accumulated values. */
  lemma AttachStep(hosts: seq<NodeId>, links: seq<Link>, sws: seq<NodeId>, i: nat, h0: nat, m: nat, bw: int, hostFirst: bool, done: nat)
    requires i < |sws| && done == i * m
    ensures done + m == (i + 1) * m
    ensures hosts + HostNames(h0, done) + HostNames(h0 + done, m) == hosts + HostNames(h0, done + m)
    ensures links + Attached(sws[..i], h0, m, bw, hostFirst) + HostFan(sws[i], HostNames(h0 + done, m), bw, hostFirst)
         == links + Attached(sws[..i + 1], h0, m, bw, hostFirst)
  {
    MulSucc(i, m);
    HostNamesSplit(h0, done, m);
    AttachedPrefix(sws, i, h0, m, bw, hostFirst, done);
  }

  /** The loop `for sw in sws:` around `AttachHosts`, in the builder's orientation. */
  method AttachAll(it: CounterIterator, sws: seq<NodeId>, m: nat, bw: int, hostFirst: bool,
                   hosts: seq<NodeId>, links: seq<Link>)
    returns (hosts': seq<NodeId>, links': seq<Link>)
    modifies it
    ensures it.count == old(it.count) + |sws| * m
    ensures hosts' == hosts + HostNames(old(it.count), |sws| * m)
    ensures links' == links + Attached(sws, old(it.count), m, bw, hostFirst)
  {
    ghost var h0 := it.count;
    ghost var done: nat := 0;
    hosts', links' := hosts, links;
    for i := 0 to |sws|
      invariant done == i * m
      invariant it.count == h0 + done
      invariant hosts' == hosts + HostNames(h0, done)
      invariant links' == links + Attached(sws[..i], h0, m, bw, hostFirst)
    {
      AttachStep(hosts, links, sws, i, h0, m, bw, hostFirst, done);
      hosts', links' := AttachHosts(it, sws[i], m, bw, hostFirst, hosts', links');
      done := done + m;
    }
    assert sws[..|sws|] == sws;
  }

  /** The number of links with `n` as one of their ends. */
  function Degree(links: seq<Link>, n: NodeId): nat
  {
    if |links| == 0 then 0
    else Degree(links[..|links| - 1], n) + (if links[|links| - 1].a == n || links[|links| - 1].b == n then 1 else 0)
  }

  lemma {:induction false} DegreeConcat(xs: seq<Link>, ys: seq<Link>, n: NodeId)
    ensures Degree(xs + ys, n) == Degree(xs, n) + Degree(ys, n)
    decreases |ys|
  {
    if |ys| > 0 {
      var ys' := ys[..|ys| - 1];
      assert (xs + ys)[..|xs + ys| - 1] == xs + ys';
      DegreeConcat(xs, ys', n);
    } else {
      assert xs + ys == xs;
    }
  }

  lemma {:induction false} DegreeAbsent(links: seq<Link>, n: NodeId)
    requires forall l | l in links :: l.a != n && l.b != n
    ensures Degree(links, n) == 0
    decreases |links|
  {
    if |links| > 0 {
      DegreeAbsent(links[..|links| - 1], n);
    }
  }

  /** `zip(xs, ys)` as links `(x, y, bw)`: as many as the shorter list. */
  function Zip(xs: seq<NodeId>, ys: seq<NodeId>, bw: int): (r: seq<Link>)
    ensures |r| == if |xs| < |ys| then |xs| else |ys|
    ensures forall i | 0 <= i < |r| :: r[i] == Link(xs[i], ys[i], bw)
  {
    var n := if |xs| < |ys| then |xs| else |ys|;
    seq(n, i requires 0 <= i < n => Link(xs[i], ys[i], bw))
  }

  /** The loop over `zip(xs, ys)` that appends one link per pair. */
  method ZipLoop(xs: seq<NodeId>, ys: seq<NodeId>, bw: int) returns (ls: seq<Link>)
    ensures ls == Zip(xs, ys, bw)
  {
    ls := [];
    var i := 0;
    while i < |xs| && i < |ys|
      invariant 0 <= i <= |xs| && i <= |ys| && |ls| == i
      invariant forall j | 0 <= j < i :: ls[j] == Link(xs[j], ys[j], bw)
    {
      ls := ls + [Link(xs[i], ys[i], bw)];
      i := i + 1;
    }
  }

  /** A node other than the centre is an end of as many fan links as it occurs in `nodes`. */
  lemma {:induction false} DegreeFan(center: NodeId, nodes: seq<NodeId>, bw: int, n: NodeId)
    requires n != center
    ensures Degree(Fan(center, nodes, bw), n) == multiset(nodes)[n]
    decreases |nodes|
  {
    if |nodes| > 0 {
      var init := nodes[..|nodes| - 1];
      var last := nodes[|nodes| - 1];
      assert nodes == init + [last];
      FanSnoc(center, init, last, bw);
      DegreeFan(center, init, bw, n);
      var f := Fan(center, nodes, bw);
      assert f[..|f| - 1] == Fan(center, init, bw);
    }
  }

  /** A node that is not in `xs` is an end of as many zipped links as it occurs among the paired `ys`. */
  lemma {:induction false} DegreeZip(xs: seq<NodeId>, ys: seq<NodeId>, bw: int, n: NodeId)
    requires n !in xs && |xs| == |ys|
    ensures Degree(Zip(xs, ys, bw), n) == multiset(ys)[n]
    decreases |ys|
  {
    if |ys| > 0 {
      var k := |ys| - 1;
      var z := Zip(xs, ys, bw);
      assert z[..k] == Zip(xs[..k], ys[..k], bw);
      assert ys == ys[..k] + [ys[k]];
      assert xs[k] in xs;
      DegreeZip(xs[..k], ys[..k], bw, n);
    }
  }

  /** Fresh names are distinct, so each occurs once among them when its number is in range. */
  lemma {:induction false} HostNamesCount(start: nat, n: nat, k: int)
    ensures multiset(HostNames(start, n))[HostName(k)] == if start < k <= start + n then 1 else 0
    decreases n
  {
    if n > 0 {
      HostNamesSplit(start, n - 1, 1);
      HostNamesCount(start, n - 1, k);
      assert HostNames(start + n - 1, 1) == [HostName(start + n)];
    }
  }

  /** A host is an end of one attached link exactly when its number is among the `|sws| * m` handed out. */
  lemma {:induction false} DegreeAttached(sws: seq<NodeId>, h0: nat, m: nat, bw: int, k: int)
    requires forall i | 0 <= i < |sws| :: IsSwitch(sws[i])
    ensures Degree(Attached(sws, h0, m, bw, false), HostName(k)) == if h0 < k <= h0 + |sws| * m then 1 else 0
    decreases |sws|
  {
    if |sws| > 0 {
      var rest := sws[1..];
      var n := HostName(k);
      assert Attached(sws, h0, m, bw, false) == Fan(sws[0], HostNames(h0, m), bw) + Attached(rest, h0 + m, m, bw, false);
      DegreeConcat(Fan(sws[0], HostNames(h0, m), bw), Attached(rest, h0 + m, m, bw, false), n);
      assert IsSwitch(sws[0]);
      DegreeFan(sws[0], HostNames(h0, m), bw, n);
      HostNamesCount(h0, m, k);
      DegreeAttached(rest, h0 + m, m, bw, k);
      MulSucc(|rest|, m);
      IntervalSplit(h0, m, |rest| * m, k);
    }
  }

  /** A count over `(a, a + m + t]` is the count over `(a, a + m]` plus the one over `(a + m, a + m + t]`. */
  lemma IntervalSplit(a: int, m: int, t: int, k: int)
    requires 0 <= m && 0 <= t
    ensures (if a < k <= a + m then 1 else 0) + (if a + m < k <= a + m + t then 1 else 0)
         == if a < k <= a + m + t then 1 else 0
  {
  }

  lemma DegreeSnoc(links: seq<Link>, l: Link, n: NodeId)
    ensures Degree(links + [l], n) == Degree(links, n) + (if l.a == n || l.b == n then 1 else 0)
  {
    assert (links + [l])[..|links|] == links;
  }
}
