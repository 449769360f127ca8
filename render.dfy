/**
 * toporender.py: `render_topology(hosts, switches, links)` writes the Mininet
 * script for a topology triple. The text is a sequence of lines, each ended by
 * the platform's line separator (`os.linesep`, the parameter `eol` here):
 * fixed preamble lines, one `addSwitch` line per switch and one `addHost` line
 * per host (both in ascending order of the number after the kind letter), one
 * `addLink` line per link in input order with both ports set to its 1-based
 * position, the fixed network set-up, one `start` line per switch in the same
 * ascending order, and the fixed closing lines.
 */
module Render {
  import opened Text
  import opened Wrappers
  import opened NodePair
  import opened Address
  import opened Topology
  import opened Dict

  const Indent := "    "

  // ---------------------------------------------------------------- ordering

  /** Ascending by the number `int(a[1:])` reads from each name. */
  predicate SortedByNum(xs: seq<NodeId>)
  {
    forall i, j | 0 <= i < j < |xs| :: xs[i].num <= xs[j].num
  }

  /** `x` placed after every element whose number is not greater, so equal keys keep their order. */
  function Insert(x: NodeId, xs: seq<NodeId>): (r: seq<NodeId>)
    ensures |r| == |xs| + 1
  {
    if |xs| == 0 then [x]
    else if x.num < xs[0].num then [x] + xs
    else [xs[0]] + Insert(x, xs[1..])
  }

  lemma {:induction false} InsertMultiset(x: NodeId, xs: seq<NodeId>)
    ensures multiset(Insert(x, xs)) == multiset(xs) + multiset{x}
  {
    if |xs| > 0 && x.num >= xs[0].num {
      InsertMultiset(x, xs[1..]);
      assert xs == [xs[0]] + xs[1..];
    }
  }

  lemma {:induction false} InsertSorted(x: NodeId, xs: seq<NodeId>)
    requires SortedByNum(xs)
    ensures SortedByNum(Insert(x, xs))
  {
    if |xs| > 0 && x.num >= xs[0].num {
      InsertSorted(x, xs[1..]);
      var r := Insert(x, xs);
      var tail := Insert(x, xs[1..]);
      InsertMultiset(x, xs[1..]);
      forall j | 0 <= j < |tail| ensures xs[0].num <= tail[j].num {
        assert tail[j] in multiset(tail);
        assert tail[j] in multiset(xs[1..]) || tail[j] == x;
        if tail[j] in multiset(xs[1..]) {
          var k :| 0 <= k < |xs[1..]| && xs[1..][k] == tail[j];
          assert xs[k + 1] == tail[j];
        }
      }
      assert r == [xs[0]] + tail;
    }
  }

  /**
   * `sorted(xs, key=lambda a: int(a[1:]))`: an insertion sort that adds each
   * element after the equal ones already placed. The result is ascending and
   * holds exactly the input's elements, each as often as the input does.
   */
  function SortByNum(xs: seq<NodeId>): (r: seq<NodeId>)
    ensures |r| == |xs|
    ensures SortedByNum(r)
    ensures multiset(r) == multiset(xs)
  {
    if |xs| == 0 then []
    else
      var init := xs[..|xs| - 1];
      var rest := SortByNum(init);
      InsertSorted(xs[|xs| - 1], rest);
      InsertMultiset(xs[|xs| - 1], rest);
      assert xs == init + [xs[|xs| - 1]];
      Insert(xs[|xs| - 1], rest)
  }

  // ---------------------------------------------------------------- the lines

  /** `id2ip(int(hs[1:]) - 1)`. */
  function HostIp(h: NodeId): string
  {
    IdToIp(h.num - 1)
  }

  function SwitchDecl(sw: NodeId): string
  {
    Indent + Name(sw) + " = topo.addSwitch('" + Name(sw) + "', cls=OVSKernelSwitch)"
  }

  function HostDecl(h: NodeId): string
  {
    Indent + Name(h) + " = topo.addHost('" + Name(h) + "', cls=Host, ip='" + HostIp(h) + "', defaultRoute=None)"
  }

  /** The line of the link at 0-based position `i`: both port numbers are `i + 1`. */
  function LinkDecl(i: nat, l: Link): string
  {
    Indent + "topo.addLink(" + Name(l.a) + ", " + Name(l.b) + ", " + IntToString(i + 1) + ", "
      + IntToString(i + 1) + ", cls=TCLink, bw=" + IntToString(l.bw) + ")"
  }

  const StartHead := Indent + "net.get('"
  const StartTail := "').start([c0])"

  function StartLine(sw: NodeId): string
  {
    StartHead + Name(sw) + StartTail
  }

  /** `f` applied to each element, in order. */
  function Each<T>(xs: seq<T>, f: T -> string): (r: seq<string>)
    ensures |r| == |xs| && forall k | 0 <= k < |xs| :: r[k] == f(xs[k])
  {
    seq(|xs|, k requires 0 <= k < |xs| => f(xs[k]))
  }

  lemma EachSnoc<T>(xs: seq<T>, f: T -> string, k: nat)
    requires k < |xs|
    ensures Each(xs[..k + 1], f) == Each(xs[..k], f) + [f(xs[k])]
  {
    var a := Each(xs[..k + 1], f);
    var b := Each(xs[..k], f) + [f(xs[k])];
    forall j | 0 <= j <= k ensures a[j] == b[j] {
      assert xs[..k + 1][j] == xs[j];
    }
  }

  /** `f` applied to each element and its 0-based position, in order. */
  function Enumerated<T>(xs: seq<T>, f: (nat, T) -> string): (r: seq<string>)
    ensures |r| == |xs| && forall k | 0 <= k < |xs| :: r[k] == f(k, xs[k])
  {
    seq(|xs|, k requires 0 <= k < |xs| => f(k, xs[k]))
  }

  lemma EnumeratedSnoc<T>(xs: seq<T>, f: (nat, T) -> string, k: nat)
    requires k < |xs|
    ensures Enumerated(xs[..k + 1], f) == Enumerated(xs[..k], f) + [f(k, xs[k])]
  {
    var a := Enumerated(xs[..k + 1], f);
    var b := Enumerated(xs[..k], f) + [f(k, xs[k])];
    forall j | 0 <= j <= k ensures a[j] == b[j] {
      assert xs[..k + 1][j] == xs[j];
    }
  }

  function SwitchDecls(sws: seq<NodeId>): seq<string> { Each(sws, SwitchDecl) }
  function HostDecls(hs: seq<NodeId>): seq<string> { Each(hs, HostDecl) }
  function LinkDecls(links: seq<Link>): seq<string> { Enumerated(links, LinkDecl) }
  function StartLines(sws: seq<NodeId>): seq<string> { Each(sws, StartLine) }

  /** The preamble, up to the switch block. */
  const Head: seq<string> := [
    "#!/usr/bin/env python",
    "# -*- encoding: utf-8 -*-",
    "",
    "from mininet.net import Mininet",
    "from mininet.topo import Topo",
    "from mininet.node import Controller, RemoteController, OVSController",
    "from mininet.node import CPULimitedHost, Host, Node",
    "from mininet.node import OVSKernelSwitch, UserSwitch",
    "from mininet.node import IVSSwitch",
    "from mininet.cli import CLI",
    "from mininet.log import setLogLevel, info",
    "from mininet.link import TCLink, Intf",
    "from subprocess import call",
    "",
    "",
    "def _init(topo):",
    Indent + "info('*** Adding switches\\n')"
  ]

  /** Between the switch block and the host block. */
  const BeforeHosts: seq<string> := ["", Indent + "info('*** Adding hosts\\n')"]

  /** Between the host block and the link block. */
  const BeforeLinks: seq<string> := ["", Indent + "info('*** Adding links\\n')"]

  /** The `MyTopo` class and `myNetwork` up to the start lines. */
  const Middle: seq<string> := [
    "",
    "",
    "class MyTopo(Topo):",
    Indent + "def __init__(self):",
    Indent + Indent + "Topo.__init__(self)",
    Indent + Indent + "_init(self)",
    "",
    "",
    "def myNetwork(standalone = False):",
    Indent + "net = Mininet(",
    Indent + Indent + "topo=None,",
    Indent + Indent + "build=False,",
    Indent + Indent + "ipBase=\"10.0.0.0/8\"",
    Indent + ")",
    "",
    Indent + "info('*** Adding controller\\n')",
    Indent + "c0=net.addController(",
    Indent + Indent + "name='c0',",
    Indent + Indent + "controller=RemoteController,",
    Indent + Indent + "ip='127.0.0.1',",
    Indent + Indent + "protocol='tcp',",
    Indent + Indent + "port=6633",
    Indent + ")",
    "",
    Indent + "_init(net)",
    "",
    Indent + "info('*** Starting network\\n')",
    Indent + "net.build()",
    "",
    Indent + "info('*** Starting controllers\\n')",
    Indent + "for controller in net.controllers:",
    Indent + Indent + "controller.start()",
    "",
    Indent + "info('*** Starting switches\\n')"
  ]

  /** After the start lines. */
  const Tail: seq<string> := [
    "",
    Indent + "if standalone:",
    Indent + Indent + "info('*** Post configure switches and hosts\\n')",
    Indent + Indent + "CLI(net)",
    Indent + Indent + "net.stop()",
    "",
    Indent + "return net",
    "",
    "",
    "topos = {'mytopo': MyTopo}",
    "",
    "",
    "if __name__ == \"__main__\":",
    Indent + "setLogLevel(\"info\")",
    Indent + "myNetwork(True)"
  ]

  /** The fixed lines around the four per-node blocks. */
  datatype Frame = Frame(head: seq<string>, beforeHosts: seq<string>, beforeLinks: seq<string>,
                         middle: seq<string>, tail: seq<string>)

  const Script := Frame(Head, BeforeHosts, BeforeLinks, Middle, Tail)

  /** The fixed lines of `fr` with the four per-node blocks between them, nodes in the order given. */
  function Assemble(fr: Frame, hs: seq<NodeId>, sws: seq<NodeId>, links: seq<Link>): seq<string>
  {
    fr.head + SwitchDecls(sws) + fr.beforeHosts + HostDecls(hs) + fr.beforeLinks + LinkDecls(links)
      + fr.middle + StartLines(sws) + fr.tail
  }

  /** Every line of the rendered script, in order: hosts and switches sorted by number. */
  function Lines(hosts: seq<NodeId>, switches: seq<NodeId>, links: seq<Link>): seq<string>
  {
    Assemble(Script, SortByNum(hosts), SortByNum(switches), links)
  }

  // ---------------------------------------------------------------- the text

  /** Each line followed by `eol`. */
  function Terminated(lines: seq<string>, eol: string): string
  {
    if |lines| == 0 then "" else Terminated(lines[..|lines| - 1], eol) + lines[|lines| - 1] + eol
  }

  lemma {:induction false} TerminatedConcat(a: seq<string>, b: seq<string>, eol: string)
    ensures Terminated(a + b, eol) == Terminated(a, eol) + Terminated(b, eol)
    decreases |b|
  {
    if |b| == 0 {
      assert a + b == a;
    } else {
      var b' := b[..|b| - 1];
      assert (a + b)[..|a + b| - 1] == a + b';
      TerminatedConcat(a, b', eol);
    }
  }

  /** `s += line + eol`, one loop pass. */
  method AppendLine(s: string, ghost done: seq<string>, line: string, eol: string) returns (s': string)
    requires s == Terminated(done, eol)
    ensures s' == Terminated(done + [line], eol)
  {
    assert (done + [line])[..|done|] == done;
    s' := s + line + eol;
  }

  /** The text is its blocks' texts one after the other. */
  lemma TextOfBlocks(fr: Frame, hs: seq<NodeId>, sws: seq<NodeId>, links: seq<Link>, eol: string)
    ensures Terminated(Assemble(fr, hs, sws, links), eol)
      == Terminated(fr.head, eol) + Terminated(SwitchDecls(sws), eol) + Terminated(fr.beforeHosts, eol)
       + Terminated(HostDecls(hs), eol) + Terminated(fr.beforeLinks, eol)
       + Terminated(LinkDecls(links), eol) + Terminated(fr.middle, eol) + Terminated(StartLines(sws), eol)
       + Terminated(fr.tail, eol)
  {
    var p1 := fr.head + SwitchDecls(sws);
    var p2 := p1 + fr.beforeHosts;
    var p3 := p2 + HostDecls(hs);
    var p4 := p3 + fr.beforeLinks;
    var p5 := p4 + LinkDecls(links);
    var p6 := p5 + fr.middle;
    var p7 := p6 + StartLines(sws);
    TerminatedConcat(fr.head, SwitchDecls(sws), eol);
    TerminatedConcat(p1, fr.beforeHosts, eol);
    TerminatedConcat(p2, HostDecls(hs), eol);
    TerminatedConcat(p3, fr.beforeLinks, eol);
    TerminatedConcat(p4, LinkDecls(links), eol);
    TerminatedConcat(p5, fr.middle, eol);
    TerminatedConcat(p6, StartLines(sws), eol);
    TerminatedConcat(p7, fr.tail, eol);
  }

  /** The loop `for sw in sorted(switches, ...)` that declares the switches. */
  method RenderSwitchDecls(sws: seq<NodeId>, eol: string) returns (block: string)
    ensures block == Terminated(SwitchDecls(sws), eol)
  {
    block := "";
    for k := 0 to |sws|
      invariant block == Terminated(SwitchDecls(sws[..k]), eol)
    {
      EachSnoc(sws, SwitchDecl, k);
      block := AppendLine(block, SwitchDecls(sws[..k]), SwitchDecl(sws[k]), eol);
    }
    assert sws[..|sws|] == sws;
  }

  /** The loop `for hs in sorted(hosts, ...)` that declares the hosts. */
  method RenderHostDecls(hs: seq<NodeId>, eol: string) returns (block: string)
    ensures block == Terminated(HostDecls(hs), eol)
  {
    block := "";
    for k := 0 to |hs|
      invariant block == Terminated(HostDecls(hs[..k]), eol)
    {
      EachSnoc(hs, HostDecl, k);
      block := AppendLine(block, HostDecls(hs[..k]), HostDecl(hs[k]), eol);
    }
    assert hs[..|hs|] == hs;
  }

  /** The loop `for i, v in enumerate(links)`. */
  method RenderLinkDecls(links: seq<Link>, eol: string) returns (block: string)
    ensures block == Terminated(LinkDecls(links), eol)
  {
    block := "";
    for i := 0 to |links|
      invariant block == Terminated(LinkDecls(links[..i]), eol)
    {
      EnumeratedSnoc(links, LinkDecl, i);
      block := AppendLine(block, LinkDecls(links[..i]), LinkDecl(i, links[i]), eol);
    }
    assert links[..|links|] == links;
  }

  /** The second loop over the sorted switches, which starts each one. */
  method RenderStartLines(sws: seq<NodeId>, eol: string) returns (block: string)
    ensures block == Terminated(StartLines(sws), eol)
  {
    block := "";
    for k := 0 to |sws|
      invariant block == Terminated(StartLines(sws[..k]), eol)
    {
      EachSnoc(sws, StartLine, k);
      block := AppendLine(block, StartLines(sws[..k]), StartLine(sws[k]), eol);
    }
    assert sws[..|sws|] == sws;
  }

  /**
   * `render_topology(hosts, switches, links)`: the text is built with `+=`,
   * the fixed blocks at once and the four per-node blocks one line per loop
   * pass, and it is exactly the rendered lines each followed by `eol`.
   */
  method RenderTopology(hosts: seq<NodeId>, switches: seq<NodeId>, links: seq<Link>, eol: string)
    returns (s: string)
    ensures s == Terminated(Lines(hosts, switches, links), eol)
  {
    var fr := Script;
    var sws := SortByNum(switches);
    var hs := SortByNum(hosts);
    var swBlock := RenderSwitchDecls(sws, eol);
    var hostBlock := RenderHostDecls(hs, eol);
    var linkBlock := RenderLinkDecls(links, eol);
    var startBlock := RenderStartLines(sws, eol);
    s := Terminated(fr.head, eol);
    s := s + swBlock;
    s := s + Terminated(fr.beforeHosts, eol);
    s := s + hostBlock;
    s := s + Terminated(fr.beforeLinks, eol);
    s := s + linkBlock;
    s := s + Terminated(fr.middle, eol);
    s := s + startBlock;
    s := s + Terminated(fr.tail, eol);
    TextOfBlocks(fr, hs, sws, links, eol);
  }

  // ---------------------------------------------------------------- properties

  /** The name a start line starts sits between its fixed head and tail. */
  lemma StartLineName(sw: NodeId)
    ensures |StartLine(sw)| == |StartHead| + |Name(sw)| + |StartTail|
    ensures StartLine(sw)[|StartHead|..|StartLine(sw)| - |StartTail|] == Name(sw)
  {
  }

  lemma StartLineInjective(a: NodeId, b: NodeId)
    ensures StartLine(a) == StartLine(b) <==> a == b
  {
    if StartLine(a) == StartLine(b) {
      StartLineName(a);
      StartLineName(b);
      NameInjective(a, b);
    }
  }

  /** One start line per switch: the start block names exactly the given switches, each as often. */
  lemma StartBlockNamesSwitches(switches: seq<NodeId>, sw: NodeId)
    ensures |StartLines(SortByNum(switches))| == |switches|
    ensures multiset(StartLines(SortByNum(switches)))[StartLine(sw)] == multiset(switches)[sw]
  {
    var sws := SortByNum(switches);
    StartLinesCount(sws, sw);
  }

  lemma {:induction false} StartLinesCount(sws: seq<NodeId>, sw: NodeId)
    ensures multiset(StartLines(sws))[StartLine(sw)] == multiset(sws)[sw]
    decreases |sws|
  {
    if |sws| > 0 {
      var init := sws[..|sws| - 1];
      var last := sws[|sws| - 1];
      StartLinesCount(init, sw);
      SnocSplit(sws);
      EachSnoc(sws, StartLine, |sws| - 1);
      var lines := StartLines(init);
      assert StartLines(sws) == lines + [StartLine(last)];
      assert multiset(StartLines(sws)) == multiset(lines) + multiset{StartLine(last)};
      assert multiset(sws) == multiset(init) + multiset{last};
      StartLineInjective(last, sw);
    }
  }

  /**
   * The address on a host's line names that host again: reading it back with
   * `ip2id` and adding one gives the host's number.
   */
  lemma HostLineAddress(h: NodeId)
    ensures IpToId(HostIp(h)).Ok? && IpToId(HostIp(h)).value + 1 == h.num
  {
    IpRoundTrip(h.num - 1);
  }

  /** Two hosts with different numbers are given different addresses. */
  lemma HostAddressesDistinct(a: NodeId, b: NodeId)
    requires a.num != b.num
    ensures HostIp(a) != HostIp(b)
  {
    HostLineAddress(a);
    HostLineAddress(b);
  }
}
