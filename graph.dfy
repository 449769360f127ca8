/**
 * graphtools.py: the adjacency dict of a topology, the reverse ("who links to
 * X") transition map, exhaustive enumeration of simple paths, unit-weight
 * Dijkstra with its predecessor map, path reconstruction and the per-source
 * memo.
 */
module Graph {
  import opened Wrappers
  import opened NodePair
  import opened Dict
  import opened Topology

  /** `network_graph`: node -> {neighbour: capacity}, both in insertion order. */
  type Graph = RawDict<NodeId, RawDict<NodeId, int>>

  /** The outer dict and every neighbour dict are well formed. */
  predicate Wf(g: Graph)
  {
    WellFormed(g) && forall u | u in g.m :: WellFormed(g.m[u])
  }

  /** `v in graph[u]`. */
  predicate Edge(g: Graph, u: NodeId, v: NodeId)
  {
    u in g.m && v in g.m[u].m
  }

  /** Every link is stored in both directions with the same capacity. */
  predicate Symmetric(g: Graph)
  {
    forall u, v | u in g.m && v in g.m[u].m :: Edge(g, v, u) && g.m[u].m[v] == g.m[v].m[u]
  }

  // ---------------------------------------------------------------- graph_from_topo

  /** The node loops of `graph_from_topo`: each node gets an empty neighbour dict. */
  function InitNodes(g: Graph, ns: seq<NodeId>): (r: Graph)
    decreases |ns|
  {
    if |ns| == 0 then g else InitNodes(Put(g, ns[0], Empty()), ns[1..])
  }

  /** `graph[a][b] = bw` on a graph that has `a`. */
  function SetEdge(g: Graph, a: NodeId, b: NodeId, bw: int): (r: Graph)
    requires a in g.m
    ensures r.m.Keys == g.m.Keys
  {
    Put(g, a, Put(g.m[a], b, bw))
  }

  lemma AddLinkWf(g: Graph, l: Link)
    requires l.a in g.m && l.b in g.m && Wf(g)
    ensures Wf(AddLink(g, l))
  {
    var g1 := SetEdge(g, l.a, l.b, l.bw);
    assert Wf(g1);
  }

  /** Writing one direction adds that edge with its capacity and changes no other edge. */
  lemma SetEdgeEdges(g: Graph, a: NodeId, b: NodeId, bw: int)
    requires a in g.m
    ensures var r := SetEdge(g, a, b, bw);
      && (forall u, v :: Edge(r, u, v) <==> Edge(g, u, v) || (u == a && v == b))
      && Edge(r, a, b) && r.m[a].m[b] == bw
      && (forall u, v | Edge(g, u, v) && !(u == a && v == b) :: Edge(r, u, v) && r.m[u].m[v] == g.m[u].m[v])
  {
  }

  /** One link `(a, b, bw)` between existing nodes: `graph[a][b] = bw` and `graph[b][a] = bw`. */
  function AddLink(g: Graph, l: Link): (r: Graph)
    requires l.a in g.m && l.b in g.m
    ensures r.m.Keys == g.m.Keys
  {
    SetEdge(SetEdge(g, l.a, l.b, l.bw), l.b, l.a, l.bw)
  }

  /** The link loop of `graph_from_topo`, from graph `g` on; a link with an undeclared end raises `KeyError`. */
  function AddLinks(g: Graph, ls: seq<Link>): (r: Result<Graph>)
    decreases |ls|
  {
    if |ls| == 0 then Ok(g)
    else if ls[0].a !in g.m || ls[0].b !in g.m then Err(KeyError)
    else AddLinks(AddLink(g, ls[0]), ls[1..])
  }

  /** What `graph_from_topo(topo)` returns, or the error it raises. */
  function GraphOf(t: Topo): Result<Graph>
  {
    AddLinks(InitNodes(InitNodes(Empty(), t.hosts), t.switches), t.links)
  }

  /** `graph_from_topo(network_topo)`. */
  method GraphFromTopo(t: Topo) returns (r: Result<Graph>)
    ensures r == GraphOf(t)
  {
    var g: Graph := Empty();
    for i := 0 to |t.hosts|
      invariant InitNodes(g, t.hosts[i..]) == InitNodes(Empty(), t.hosts)
    {
      assert t.hosts[i..][1..] == t.hosts[i + 1..];
      g := Put(g, t.hosts[i], Empty());
    }
    ghost var g0 := g;
    for i := 0 to |t.switches|
      invariant InitNodes(g, t.switches[i..]) == InitNodes(g0, t.switches)
    {
      assert t.switches[i..][1..] == t.switches[i + 1..];
      g := Put(g, t.switches[i], Empty());
    }
    for i := 0 to |t.links|
      invariant AddLinks(g, t.links[i..]) == GraphOf(t)
    {
      var l := t.links[i];
      assert t.links[i..][0] == l && t.links[i..][1..] == t.links[i + 1..];
      if l.a !in g.m {
        return Err(KeyError);
      }
      ghost var old_g := g;
      g := Put(g, l.a, Put(g.m[l.a], l.b, l.bw));
      if l.b !in g.m {
        return Err(KeyError);
      }
      g := Put(g, l.b, Put(g.m[l.b], l.a, l.bw));
      assert g == AddLink(old_g, l);
    }
    r := Ok(g);
  }

  lemma {:induction false} InitNodesShape(g: Graph, ns: seq<NodeId>)
    ensures InitNodes(g, ns).m.Keys == g.m.Keys + set n | n in ns
    ensures forall u | u in InitNodes(g, ns).m :: InitNodes(g, ns).m[u] == (if u in ns then Empty() else g.m[u])
    ensures Wf(g) ==> Wf(InitNodes(g, ns))
    decreases |ns|
  {
    if |ns| > 0 {
      InitNodesShape(Put(g, ns[0], Empty()), ns[1..]);
      assert forall n :: n in ns <==> n == ns[0] || n in ns[1..];
    }
  }

  /** One link keeps the adjacency symmetric. */
  lemma AddLinkSymmetric(g: Graph, l: Link)
    requires Symmetric(g) && l.a in g.m && l.b in g.m
    ensures Symmetric(AddLink(g, l))
  {
    var g1 := SetEdge(g, l.a, l.b, l.bw);
    var g2 := AddLink(g, l);
    SetEdgeEdges(g, l.a, l.b, l.bw);
    SetEdgeEdges(g1, l.b, l.a, l.bw);
    forall u, v | u in g2.m && v in g2.m[u].m ensures Edge(g2, v, u) && g2.m[u].m[v] == g2.m[v].m[u] {
      if !Joins(l, u, v) {
        assert Edge(g, u, v);
      }
    }
  }

  /** One link adds exactly the edges between its ends, with its capacity, and keeps every other capacity. */
  lemma AddLinkEdges(g: Graph, l: Link)
    requires l.a in g.m && l.b in g.m
    ensures var g1 := AddLink(g, l);
      && (forall u, v :: Edge(g1, u, v) <==> Edge(g, u, v) || Joins(l, u, v))
      && (forall u, v | Edge(g, u, v) && !Joins(l, u, v) :: Edge(g1, u, v) && g1.m[u].m[v] == g.m[u].m[v])
  {
    var g1 := SetEdge(g, l.a, l.b, l.bw);
    SetEdgeEdges(g, l.a, l.b, l.bw);
    SetEdgeEdges(g1, l.b, l.a, l.bw);
  }

  /** One link stores its capacity from its first end to its second. */
  lemma AddLinkCapacity(g: Graph, l: Link)
    requires l.a in g.m && l.b in g.m
    ensures Edge(AddLink(g, l), l.a, l.b) && AddLink(g, l).m[l.a].m[l.b] == l.bw
  {
    var g1 := SetEdge(g, l.a, l.b, l.bw);
    SetEdgeEdges(g, l.a, l.b, l.bw);
    SetEdgeEdges(g1, l.b, l.a, l.bw);
  }

  /** Every link joins nodes of `g`. */
  predicate EndsDeclared(g: Graph, ls: seq<Link>)
  {
    forall i | 0 <= i < |ls| :: ls[i].a in g.m && ls[i].b in g.m
  }

  /** The link loop succeeds exactly when every link joins nodes of `g`, and keeps the nodes. */
  lemma {:induction false} AddLinksOk(g: Graph, ls: seq<Link>)
    ensures AddLinks(g, ls).Ok? <==> EndsDeclared(g, ls)
    ensures AddLinks(g, ls).Ok? ==> AddLinks(g, ls).value.m.Keys == g.m.Keys
    decreases |ls|
  {
    if |ls| == 0 {
    } else if ls[0].a !in g.m || ls[0].b !in g.m {
      assert AddLinks(g, ls).Err?;
    } else {
      var g1 := AddLink(g, ls[0]);
      AddLinksOk(g1, ls[1..]);
      assert AddLinks(g, ls) == AddLinks(g1, ls[1..]);
      assert EndsDeclared(g, ls) <==> EndsDeclared(g1, ls[1..]) by {
        assert forall i | 1 <= i < |ls| :: ls[i] == ls[1..][i - 1];
        assert forall x :: x in g1.m <==> x in g.m;
      }
    }
  }

  lemma {:induction false} AddLinksWf(g: Graph, ls: seq<Link>)
    requires Wf(g) && AddLinks(g, ls).Ok?
    ensures Wf(AddLinks(g, ls).value)
    decreases |ls|
  {
    if |ls| > 0 {
      AddLinkWf(g, ls[0]);
      AddLinksWf(AddLink(g, ls[0]), ls[1..]);
    }
  }

  lemma {:induction false} AddLinksSymmetric(g: Graph, ls: seq<Link>)
    requires Symmetric(g) && AddLinks(g, ls).Ok?
    ensures Symmetric(AddLinks(g, ls).value)
    decreases |ls|
  {
    if |ls| > 0 {
      AddLinkSymmetric(g, ls[0]);
      AddLinksSymmetric(AddLink(g, ls[0]), ls[1..]);
    }
  }

  /** After the link loop every link is an edge, and every edge is an old one or joins the ends of a link. */
  lemma {:induction false} AddLinksEdges(g: Graph, ls: seq<Link>)
    requires AddLinks(g, ls).Ok?
    ensures forall i | 0 <= i < |ls| :: Edge(AddLinks(g, ls).value, ls[i].a, ls[i].b)
    ensures forall u, v | Edge(AddLinks(g, ls).value, u, v) ::
      Edge(g, u, v) || exists i :: 0 <= i < |ls| && Joins(ls[i], u, v)
    decreases |ls|
  {
    if |ls| > 0 {
      AddLinkEdges(g, ls[0]);
      var g1 := AddLink(g, ls[0]);
      var rest := ls[1..];
      AddLinksEdges(g1, rest);
      var r := AddLinks(g, ls).value;
      assert r == AddLinks(g1, rest).value;
      forall i | 0 <= i < |ls| ensures Edge(r, ls[i].a, ls[i].b) {
        if i == 0 {
          EdgeKept(g1, rest, ls[0].a, ls[0].b);
        } else {
          assert ls[i] == rest[i - 1];
        }
      }
      forall u, v | Edge(r, u, v)
        ensures Edge(g, u, v) || exists i :: 0 <= i < |ls| && Joins(ls[i], u, v)
      {
        if !Edge(g1, u, v) {
          var i :| 0 <= i < |rest| && Joins(rest[i], u, v);
          assert ls[i + 1] == rest[i];
        } else if !Edge(g, u, v) {
          assert Joins(ls[0], u, v);
        }
      }
    }
  }

  /** Links never remove an edge. */
  lemma {:induction false} EdgeKept(g: Graph, ls: seq<Link>, u: NodeId, v: NodeId)
    requires Edge(g, u, v) && AddLinks(g, ls).Ok?
    ensures Edge(AddLinks(g, ls).value, u, v)
    decreases |ls|
  {
    if |ls| > 0 {
      AddLinkEdges(g, ls[0]);
      EdgeKept(AddLink(g, ls[0]), ls[1..], u, v);
    }
  }

  /** After the link loop a link not joined again later carries its own capacity. */
  lemma {:induction false} AddLinksCapacity(g: Graph, ls: seq<Link>, i: nat)
    requires AddLinks(g, ls).Ok?
    requires i < |ls| && forall j | i < j < |ls| :: !SameEnds(ls[j], ls[i])
    ensures Edge(AddLinks(g, ls).value, ls[i].a, ls[i].b)
    ensures AddLinks(g, ls).value.m[ls[i].a].m[ls[i].b] == ls[i].bw
    decreases |ls|
  {
    var g1 := AddLink(g, ls[0]);
    var rest := ls[1..];
    if i > 0 {
      forall j | i - 1 < j < |rest| ensures !SameEnds(rest[j], rest[i - 1]) {
        assert rest[j] == ls[j + 1];
      }
      AddLinksCapacity(g1, rest, i - 1);
    } else {
      forall j | 0 <= j < |rest| ensures !SameEnds(rest[j], ls[0]) {
        assert rest[j] == ls[j + 1];
      }
      AddLinkCapacity(g, ls[0]);
      LastWriteKept(g1, rest, ls[0]);
    }
  }

  /** The link joins `u` and `v`, in either order. */
  predicate Joins(l: Link, u: NodeId, v: NodeId)
  {
    (l.a == u && l.b == v) || (l.a == v && l.b == u)
  }

  /** The two links join the same two nodes. */
  predicate SameEnds(l: Link, k: Link)
  {
    Joins(l, k.a, k.b)
  }

  /** No later link joins the same two nodes as link `i`. */
  predicate LastMention(ls: seq<Link>, i: nat)
    requires i < |ls|
  {
    forall j | i < j < |ls| :: !SameEnds(ls[j], ls[i])
  }

  /** A capacity written once is kept by later links that join other nodes. */
  lemma {:induction false} LastWriteKept(g: Graph, ls: seq<Link>, l: Link)
    requires Edge(g, l.a, l.b) && g.m[l.a].m[l.b] == l.bw
    requires forall j | 0 <= j < |ls| :: !SameEnds(ls[j], l)
    requires AddLinks(g, ls).Ok?
    ensures Edge(AddLinks(g, ls).value, l.a, l.b) && AddLinks(g, ls).value.m[l.a].m[l.b] == l.bw
    decreases |ls|
  {
    if |ls| > 0 {
      AddLinkEdges(g, ls[0]);
      LastWriteKept(AddLink(g, ls[0]), ls[1..], l);
    }
  }

  /** The graph after the two node loops: every host and switch, no edge yet. */
  lemma BaseGraphShape(t: Topo)
    ensures var g := InitNodes(InitNodes(Empty(), t.hosts), t.switches);
      && (forall n :: n in g.m <==> n in t.hosts || n in t.switches)
      && (forall u, v :: !Edge(g, u, v))
      && Symmetric(g) && Wf(g)
  {
    var g0: Graph := Empty();
    InitNodesShape(g0, t.hosts);
    InitNodesShape(InitNodes(g0, t.hosts), t.switches);
  }

  /**
   * `graph_from_topo`: the result exists exactly when every link joins declared
   * nodes (`KeyError` otherwise); then every host and switch has an entry and
   * the adjacency is symmetric.
   */
  lemma GraphOfNodes(t: Topo)
    ensures GraphOf(t).Ok? <==> forall l | l in t.links :: (l.a in t.hosts || l.a in t.switches) && (l.b in t.hosts || l.b in t.switches)
    ensures GraphOf(t).Ok? ==>
      && (forall n :: n in GraphOf(t).value.m <==> n in t.hosts || n in t.switches)
      && Symmetric(GraphOf(t).value) && Wf(GraphOf(t).value)
  {
    GraphOfOk(t);
    if GraphOf(t).Ok? {
      var g2 := InitNodes(InitNodes(Empty(), t.hosts), t.switches);
      BaseGraphShape(t);
      AddLinksOk(g2, t.links);
      AddLinksWf(g2, t.links);
      AddLinksSymmetric(g2, t.links);
    }
  }

  /** The link loop of `graph_from_topo` succeeds exactly when every link joins declared nodes. */
  lemma GraphOfOk(t: Topo)
    ensures GraphOf(t).Ok? <==> forall l | l in t.links :: (l.a in t.hosts || l.a in t.switches) && (l.b in t.hosts || l.b in t.switches)
  {
    var g2 := InitNodes(InitNodes(Empty(), t.hosts), t.switches);
    BaseGraphShape(t);
    AddLinksOk(g2, t.links);
    EndsDeclaredIff(g2, t.links, t.hosts, t.switches);
  }

  /** With the nodes of `g` exactly the hosts and switches, the ends are declared exactly when they name those. */
  lemma EndsDeclaredIff(g: Graph, ls: seq<Link>, hs: seq<NodeId>, ss: seq<NodeId>)
    requires forall n :: n in g.m <==> n in hs || n in ss
    ensures EndsDeclared(g, ls) <==> forall l | l in ls :: (l.a in hs || l.a in ss) && (l.b in hs || l.b in ss)
  {
    if EndsDeclared(g, ls) {
      forall l | l in ls ensures (l.a in hs || l.a in ss) && (l.b in hs || l.b in ss) {
        var i :| 0 <= i < |ls| && ls[i] == l;
        assert l.a in g.m && l.b in g.m;
      }
    }
    if forall l | l in ls :: (l.a in hs || l.a in ss) && (l.b in hs || l.b in ss) {
      forall i | 0 <= i < |ls| ensures ls[i].a in g.m && ls[i].b in g.m {
        assert ls[i] in ls;
      }
    }
  }

  /**
   * `graph_from_topo`: every link is present in both directions, with the
   * capacity of its last mention, and no two nodes are adjacent unless a link
   * joins them.
   */
  lemma GraphOfLinks(t: Topo)
    requires GraphOf(t).Ok?
    ensures var g := GraphOf(t).value;
      && (forall i | 0 <= i < |t.links| :: Edge(g, t.links[i].a, t.links[i].b) && Edge(g, t.links[i].b, t.links[i].a))
      && (forall i | 0 <= i < |t.links| && LastMention(t.links, i) ::
            g.m[t.links[i].a].m[t.links[i].b] == t.links[i].bw && g.m[t.links[i].b].m[t.links[i].a] == t.links[i].bw)
      && (forall u, v | Edge(g, u, v) :: exists i :: 0 <= i < |t.links| && Joins(t.links[i], u, v))
  {
    GraphOfEdges(t);
    var g := GraphOf(t).value;
    forall i | 0 <= i < |t.links| && LastMention(t.links, i)
      ensures g.m[t.links[i].a].m[t.links[i].b] == t.links[i].bw && g.m[t.links[i].b].m[t.links[i].a] == t.links[i].bw
    {
      GraphOfCapacity(t, i);
    }
  }

  /** Each link is an edge both ways, and every edge comes from a link. */
  lemma GraphOfEdges(t: Topo)
    requires GraphOf(t).Ok?
    ensures var g := GraphOf(t).value;
      && (forall i | 0 <= i < |t.links| :: Edge(g, t.links[i].a, t.links[i].b) && Edge(g, t.links[i].b, t.links[i].a))
      && (forall u, v | Edge(g, u, v) :: exists i :: 0 <= i < |t.links| && Joins(t.links[i], u, v))
  {
    var g2 := InitNodes(InitNodes(Empty(), t.hosts), t.switches);
    BaseGraphShape(t);
    AddLinksSymmetric(g2, t.links);
    AddLinksEdges(g2, t.links);
  }

  /** A link not joined again later fixes the capacity both ways. */
  lemma GraphOfCapacity(t: Topo, i: nat)
    requires GraphOf(t).Ok? && i < |t.links|
    requires LastMention(t.links, i)
    ensures var g, l := GraphOf(t).value, t.links[i];
      Edge(g, l.a, l.b) && Edge(g, l.b, l.a) && g.m[l.a].m[l.b] == l.bw && g.m[l.b].m[l.a] == l.bw
  {
    var g2 := InitNodes(InitNodes(Empty(), t.hosts), t.switches);
    BaseGraphShape(t);
    AddLinksSymmetric(g2, t.links);
    AddLinksCapacity(g2, t.links, i);
  }

  // ---------------------------------------------------------------- _get_transition_map

  /** `[(source, target) for source, lnks in graph.items() for target in lnks.keys()]`. */
  function Transitions(order: seq<NodeId>, m: map<NodeId, RawDict<NodeId, int>>): (r: seq<(NodeId, NodeId)>)
    requires forall u | u in order :: u in m
    decreases |order|
  {
    if |order| == 0 then []
    else
      var s := order[0];
      seq(|m[s].order|, j requires 0 <= j < |m[s].order| => (s, m[s].order[j])) + Transitions(order[1..], m)
  }

  lemma {:induction false} TransitionsMember(order: seq<NodeId>, m: map<NodeId, RawDict<NodeId, int>>, s: NodeId, t: NodeId)
    requires forall u | u in order :: u in m && WellFormed(m[u])
    ensures (s, t) in Transitions(order, m) <==> s in order && t in m[s].m
    decreases |order|
  {
    if |order| > 0 {
      TransitionsMember(order[1..], m, s, t);
      var u := order[0];
      var head := seq(|m[u].order|, j requires 0 <= j < |m[u].order| => (u, m[u].order[j]));
      if s == u && t in m[u].m {
        var j :| 0 <= j < |m[u].order| && m[u].order[j] == t;
        assert head[j] == (s, t);
      }
      assert forall x :: x in order <==> x == u || x in order[1..];
    }
  }

  lemma {:induction false} TransitionsDistinct(order: seq<NodeId>, m: map<NodeId, RawDict<NodeId, int>>)
    requires forall u | u in order :: u in m && WellFormed(m[u])
    requires DistinctSeq(order)
    ensures DistinctSeq(Transitions(order, m))
    decreases |order|
  {
    if |order| > 0 {
      var u := order[0];
      var head := seq(|m[u].order|, j requires 0 <= j < |m[u].order| => (u, m[u].order[j]));
      var rest := Transitions(order[1..], m);
      assert DistinctSeq(order[1..]) by {
        forall i, j | 0 <= i < j < |order[1..]| ensures order[1..][i] != order[1..][j] {
          assert order[1..][i] == order[i + 1] && order[1..][j] == order[j + 1];
        }
      }
      TransitionsDistinct(order[1..], m);
      forall x | x in head ensures x !in rest {
        TransitionsMember(order[1..], m, x.0, x.1);
        assert u !in order[1..] by {
          forall k | 0 <= k < |order[1..]| ensures order[1..][k] != u {
            assert order[1..][k] == order[k + 1];
          }
        }
      }
      DistinctConcat(head, rest);
    }
  }

  /** The dict the loop `for s, t in transitions: transmap[t].append(s)` builds from the first `|ts|` pairs. */
  function TransMapOf(ts: seq<(NodeId, NodeId)>): (r: Dict<NodeId, seq<NodeId>>)
    decreases |ts|
  {
    if |ts| == 0 then Empty()
    else
      var d := TransMapOf(ts[..|ts| - 1]);
      var p := ts[|ts| - 1];
      Set(d, p.1, GetOr(d, p.1, []) + [p.0])
  }

  /** `t` is a key exactly when some pair ends at it, and `tm[t]` lists the sources of those pairs, each once. */
  lemma TransMapMember(ts: seq<(NodeId, NodeId)>, s: NodeId, t: NodeId)
    ensures t in TransMapOf(ts).m <==> exists x :: (x, t) in ts
    ensures t in TransMapOf(ts).m ==> (s in TransMapOf(ts).m[t] <==> (s, t) in ts)
    ensures DistinctSeq(ts) && t in TransMapOf(ts).m ==> DistinctSeq(TransMapOf(ts).m[t])
  {
    TransMapKeys(ts, t);
    if t in TransMapOf(ts).m {
      TransMapSources(ts, s, t);
      if DistinctSeq(ts) {
        TransMapDistinct(ts, t);
      }
    }
  }

  lemma {:induction false} TransMapKeys(ts: seq<(NodeId, NodeId)>, t: NodeId)
    ensures t in TransMapOf(ts).m <==> exists x :: (x, t) in ts
    decreases |ts|
  {
    if |ts| > 0 {
      var pre, p := ts[..|ts| - 1], ts[|ts| - 1];
      TransMapKeys(pre, t);
      assert ts == pre + [p];
      if exists x :: (x, t) in ts {
        var x :| (x, t) in ts;
        if (x, t) != p {
          assert (x, t) in pre;
        }
      }
      if t in TransMapOf(pre).m {
        var x :| (x, t) in pre;
        assert (x, t) in ts;
      }
      if t == p.1 {
        assert (p.0, t) in ts;
      }
    }
  }

  lemma {:induction false} TransMapSources(ts: seq<(NodeId, NodeId)>, s: NodeId, t: NodeId)
    requires t in TransMapOf(ts).m
    ensures s in TransMapOf(ts).m[t] <==> (s, t) in ts
    decreases |ts|
  {
    var pre, p := ts[..|ts| - 1], ts[|ts| - 1];
    var d := TransMapOf(pre);
    assert ts == pre + [p];
    assert (s, t) in ts <==> (s, t) in pre || (s, t) == p;
    if t in d.m {
      TransMapSources(pre, s, t);
    } else {
      TransMapKeys(pre, t);
      assert (s, t) !in pre;
    }
  }

  lemma {:induction false} TransMapDistinct(ts: seq<(NodeId, NodeId)>, t: NodeId)
    requires DistinctSeq(ts) && t in TransMapOf(ts).m
    ensures DistinctSeq(TransMapOf(ts).m[t])
    decreases |ts|
  {
    var pre, p := ts[..|ts| - 1], ts[|ts| - 1];
    var d := TransMapOf(pre);
    assert DistinctSeq(pre) by {
      forall i, j | 0 <= i < j < |pre| ensures pre[i] != pre[j] {
        assert pre[i] == ts[i] && pre[j] == ts[j];
      }
    }
    if t in d.m {
      TransMapDistinct(pre, t);
    }
    if p.1 == t {
      var old_ := GetOr(d, t, []);
      if t in d.m {
        TransMapSources(pre, p.0, t);
        assert p !in pre by {
          forall k | 0 <= k < |pre| ensures pre[k] != p {
            assert pre[k] == ts[k];
          }
        }
      }
      assert p.0 !in old_;
      DistinctConcat(old_, [p.0]);
    }
  }

  /** `_get_transition_map(graph)`. */
  method TransitionMap(g: Graph) returns (tm: Dict<NodeId, seq<NodeId>>)
    requires WellFormed(g)
    ensures tm == TransMapOf(Transitions(g.order, g.m))
  {
    var ts := Transitions(g.order, g.m);
    tm := Empty();
    for i := 0 to |ts|
      invariant tm == TransMapOf(ts[..i])
    {
      var (s, t) := ts[i];
      assert ts[..i + 1][..i] == ts[..i] && ts[..i + 1][i] == (s, t);
      ghost var d := tm;
      if t !in tm.m {
        tm := Set(tm, t, []);
      }
      tm := Set(tm, t, tm.m[t] + [s]);
      assert tm.order == Set(d, t, GetOr(d, t, []) + [s]).order;
    }
    assert ts[..|ts|] == ts;
  }

  /** The transition map of a graph: `s` is listed under `t` exactly when `t` is a neighbour of `s`. */
  lemma TransitionMapMeaning(g: Graph, s: NodeId, t: NodeId)
    requires Wf(g)
    ensures var tm := TransMapOf(Transitions(g.order, g.m));
      && (t in tm.m <==> exists x :: Edge(g, x, t))
      && (t in tm.m ==> (s in tm.m[t] <==> Edge(g, s, t)) && DistinctSeq(tm.m[t]))
  {
    var ts := Transitions(g.order, g.m);
    var tm := TransMapOf(ts);
    TransMapMember(ts, s, t);
    TransitionsMember(g.order, g.m, s, t);
    TransitionsDistinct(g.order, g.m);
    assert (s, t) in ts <==> Edge(g, s, t);
    if t in tm.m {
      var x :| (x, t) in ts;
      TransitionsMember(g.order, g.m, x, t);
      assert Edge(g, x, t);
    }
    if exists x :: Edge(g, x, t) {
      var x :| Edge(g, x, t);
      TransitionsMember(g.order, g.m, x, t);
      assert (x, t) in ts;
    }
  }

  // ---------------------------------------------------------------- _find_all_paths

  type TransMap = Dict<NodeId, seq<NodeId>>

  /** Every node listed in the transition map. */
  function Listed(tm: TransMap): set<NodeId>
  {
    set u, v | u in tm.m && v in tm.m[u] :: v
  }

  /** A step of the enumeration: from `u` to an entry of `tm[u]`. */
  predicate Step(tm: TransMap, u: NodeId, v: NodeId)
  {
    u in tm.m && v in tm.m[u]
  }

  predicate Follows(tm: TransMap, q: seq<NodeId>)
  {
    forall i | 0 <= i < |q| - 1 :: Step(tm, q[i], q[i + 1])
  }

  function Last(q: seq<NodeId>): NodeId
    requires |q| > 0
  {
    q[|q| - 1]
  }

  /**
   * `_find_all_paths(tm, initial, target, accumulator)` with `path` the
   * accumulator after `initial` was appended: the paths it yields, in order,
   * or the `KeyError` it raises when it reaches a node `tm` has no entry for.
   */
  function Paths(tm: TransMap, path: seq<NodeId>, target: NodeId): (r: Result<seq<seq<NodeId>>>)
    requires |path| > 0
    decreases Listed(tm) - set x | x in path, 1, 0
  {
    var cur := Last(path);
    if cur == target then Ok([path])
    else if cur !in tm.m then Err(KeyError)
    else
      assert forall x | x in tm.m[cur] :: x in Listed(tm);
      Explore(tm, path, target, tm.m[cur])
  }

  /** The loop over `tm[initial]`, from candidate `cands[0]` on. */
  function Explore(tm: TransMap, path: seq<NodeId>, target: NodeId, cands: seq<NodeId>): (r: Result<seq<seq<NodeId>>>)
    requires |path| > 0
    requires forall x | x in cands :: x in Listed(tm)
    decreases Listed(tm) - set x | x in path, 0, |cands|
  {
    if |cands| == 0 then Ok([])
    else
      var here :=
        if cands[0] in path then Ok([])
        else
          assert (set x | x in path + [cands[0]]) == (set x | x in path) + {cands[0]};
          Paths(tm, path + [cands[0]], target);
      match here
      case Err(e) => Err(e)
      case Ok(ps) =>
        match Explore(tm, path, target, cands[1..])
        case Err(e) => Err(e)
        case Ok(qs) => Ok(ps + qs)
  }

  /** `q` starts with `p`. */
  predicate Extends(q: seq<NodeId>, p: seq<NodeId>)
  {
    |p| <= |q| && q[..|p|] == p
  }

  /** Every enumerated path extends the accumulator, ends at the target, and keeps it simple and stepwise. */
  lemma {:induction false} PathsSound(tm: TransMap, path: seq<NodeId>, target: NodeId, q: seq<NodeId>)
    requires |path| > 0 && Paths(tm, path, target).Ok? && q in Paths(tm, path, target).value
    ensures Extends(q, path) && Last(q) == target
    ensures DistinctSeq(path) ==> DistinctSeq(q)
    ensures Follows(tm, path) ==> Follows(tm, q)
    decreases Listed(tm) - set x | x in path, 1, 0
  {
    var cur := Last(path);
    if cur != target {
      assert forall x | x in tm.m[cur] :: x in Listed(tm);
      ExploreSound(tm, path, target, tm.m[cur], q);
    }
  }

  /** A simple path extended by a node not on it stays simple. */
  lemma DistinctSnoc(path: seq<NodeId>, x: NodeId)
    requires DistinctSeq(path) && x !in path
    ensures DistinctSeq(path + [x])
  {
    var p2 := path + [x];
    forall i, j | 0 <= i < j < |p2| ensures p2[i] != p2[j] {
      if j == |path| {
        assert p2[i] == path[i];
      }
    }
  }

  /** A stepwise path extended by a successor of its last node stays stepwise. */
  lemma FollowsSnoc(tm: TransMap, path: seq<NodeId>, x: NodeId)
    requires |path| > 0 && Follows(tm, path) && Last(path) in tm.m && x in tm.m[Last(path)]
    ensures Follows(tm, path + [x])
  {
    var p2 := path + [x];
    forall i | 0 <= i < |p2| - 1 ensures Step(tm, p2[i], p2[i + 1]) {
      if i < |path| - 1 {
        assert p2[i] == path[i] && p2[i + 1] == path[i + 1];
      } else {
        assert p2[i] == Last(path) && p2[i + 1] == x;
      }
    }
  }

  lemma {:induction false} ExploreSound(tm: TransMap, path: seq<NodeId>, target: NodeId, cands: seq<NodeId>, q: seq<NodeId>)
    requires |path| > 0 && forall x | x in cands :: x in Listed(tm)
    requires Explore(tm, path, target, cands).Ok? && q in Explore(tm, path, target, cands).value
    ensures Extends(q, path) && |q| > |path| && q[|path|] in cands && q[|path|] !in path && Last(q) == target
    ensures DistinctSeq(path) ==> DistinctSeq(q)
    ensures Follows(tm, path) && Last(path) in tm.m && (forall x | x in cands :: x in tm.m[Last(path)]) ==> Follows(tm, q)
    decreases Listed(tm) - set x | x in path, 0, |cands|
  {
    var x := cands[0];
    var here := if x in path then Ok([]) else Paths(tm, path + [x], target);
    var ps := here.value;
    if q in ps {
      assert x !in path;
      var p2 := path + [x];
      assert (set y | y in p2) == (set y | y in path) + {x};
      PathsSound(tm, p2, target, q);
      assert q[..|path|] == p2[..|path|] == path;
      assert q[|path|] == p2[|path|] == x;
      if DistinctSeq(path) {
        DistinctSnoc(path, x);
      }
      if Follows(tm, path) && Last(path) in tm.m && (forall y | y in cands :: y in tm.m[Last(path)]) {
        FollowsSnoc(tm, path, x);
      }
    } else {
      ExploreSound(tm, path, target, cands[1..], q);
    }
  }

  /** Every simple, stepwise path from the accumulator to the target is enumerated. */
  lemma {:induction false} PathsComplete(tm: TransMap, path: seq<NodeId>, target: NodeId, q: seq<NodeId>)
    requires |path| > 0 && Paths(tm, path, target).Ok?
    requires Extends(q, path) && Last(q) == target && DistinctSeq(q) && Follows(tm, q)
    ensures q in Paths(tm, path, target).value
    decreases Listed(tm) - set x | x in path, 1, 0
  {
    var cur := Last(path);
    if cur == target {
      assert q == q[..|path|];
    } else {
      var x := q[|path|];
      assert Step(tm, q[|path| - 1], x);
      assert q[|path| - 1] == path[|path| - 1];
      assert forall y | y in tm.m[cur] :: y in Listed(tm);
      ExploreComplete(tm, path, target, tm.m[cur], q);
    }
  }

  lemma {:induction false} ExploreComplete(tm: TransMap, path: seq<NodeId>, target: NodeId, cands: seq<NodeId>, q: seq<NodeId>)
    requires |path| > 0 && forall x | x in cands :: x in Listed(tm)
    requires Explore(tm, path, target, cands).Ok?
    requires Extends(q, path) && |q| > |path| && q[|path|] in cands
    requires Last(q) == target && DistinctSeq(q) && Follows(tm, q)
    ensures q in Explore(tm, path, target, cands).value
    decreases Listed(tm) - set x | x in path, 0, |cands|
  {
    var x := cands[0];
    if q[|path|] == x {
      assert x !in path by {
        forall k | 0 <= k < |path| ensures path[k] != x {
          assert path[k] == q[k];
        }
      }
      var p2 := path + [x];
      assert (set y | y in p2) == (set y | y in path) + {x};
      assert q[..|p2|] == p2;
      PathsComplete(tm, p2, target, q);
    } else {
      ExploreComplete(tm, path, target, cands[1..], q);
    }
  }

  /** With duplicate-free candidate lists no path is enumerated twice. */
  lemma {:induction false} PathsDistinct(tm: TransMap, path: seq<NodeId>, target: NodeId)
    requires |path| > 0 && Paths(tm, path, target).Ok?
    requires forall u | u in tm.m :: DistinctSeq(tm.m[u])
    ensures DistinctSeq(Paths(tm, path, target).value)
    decreases Listed(tm) - set x | x in path, 1, 0
  {
    var cur := Last(path);
    if cur != target {
      assert forall y | y in tm.m[cur] :: y in Listed(tm);
      ExploreDistinct(tm, path, target, tm.m[cur]);
    }
  }

  lemma {:induction false} ExploreDistinct(tm: TransMap, path: seq<NodeId>, target: NodeId, cands: seq<NodeId>)
    requires |path| > 0 && forall x | x in cands :: x in Listed(tm)
    requires Explore(tm, path, target, cands).Ok?
    requires forall u | u in tm.m :: DistinctSeq(tm.m[u])
    requires DistinctSeq(cands)
    ensures DistinctSeq(Explore(tm, path, target, cands).value)
    decreases Listed(tm) - set x | x in path, 0, |cands|
  {
    if |cands| > 0 {
      var x := cands[0];
      var here := if x in path then Ok([]) else Paths(tm, path + [x], target);
      var ps := here.value;
      var rest := cands[1..];
      assert DistinctSeq(rest) by {
        forall i, j | 0 <= i < j < |rest| ensures rest[i] != rest[j] {
          assert rest[i] == cands[i + 1] && rest[j] == cands[j + 1];
        }
      }
      var qs := Explore(tm, path, target, rest).value;
      if x !in path {
        var p2 := path + [x];
        assert (set y | y in p2) == (set y | y in path) + {x};
        PathsDistinct(tm, p2, target);
        forall q | q in ps ensures q !in qs {
          PathsSound(tm, p2, target, q);
          assert q[|path|] == p2[|path|];
          if q in qs {
            ExploreSound(tm, path, target, rest, q);
            assert false;
          }
        }
      }
      ExploreDistinct(tm, path, target, rest);
      DistinctConcat(ps, qs);
    }
  }

  /** Every listed node has an entry of its own. */
  predicate Closed(tm: TransMap)
  {
    forall u, v | u in tm.m && v in tm.m[u] :: v in tm.m
  }

  /** On a closed map, starting from a node with an entry never raises. */
  lemma {:induction false} PathsNoError(tm: TransMap, path: seq<NodeId>, target: NodeId)
    requires |path| > 0 && Closed(tm) && (Last(path) in tm.m || Last(path) == target)
    ensures Paths(tm, path, target).Ok?
    decreases Listed(tm) - set x | x in path, 1, 0
  {
    var cur := Last(path);
    if cur != target {
      assert forall y | y in tm.m[cur] :: y in Listed(tm);
      ExploreNoError(tm, path, target, tm.m[cur]);
    }
  }

  lemma {:induction false} ExploreNoError(tm: TransMap, path: seq<NodeId>, target: NodeId, cands: seq<NodeId>)
    requires |path| > 0 && Closed(tm) && forall x | x in cands :: x in Listed(tm) && x in tm.m
    ensures Explore(tm, path, target, cands).Ok?
    decreases Listed(tm) - set x | x in path, 0, |cands|
  {
    if |cands| > 0 {
      var x := cands[0];
      if x !in path {
        var p2 := path + [x];
        assert (set y | y in p2) == (set y | y in path) + {x};
        PathsNoError(tm, p2, target);
      }
      ExploreNoError(tm, path, target, cands[1..]);
    }
  }

  /** `tuple(find_all_paths(graph, initial, target))`. */
  function FindAllPaths(g: Graph, initial: NodeId, target: NodeId): (r: Result<seq<seq<NodeId>>>)
    requires WellFormed(g)
  {
    if initial == target then Ok([[]])
    else Paths(TransMapOf(Transitions(g.order, g.m)), [initial], target)
  }

  /** A simple path from `a` to `b` along the graph's links, read in the enumeration's direction. */
  predicate SimplePath(g: Graph, q: seq<NodeId>, a: NodeId, b: NodeId)
  {
    |q| > 0 && q[0] == a && Last(q) == b && DistinctSeq(q)
    && forall i | 0 <= i < |q| - 1 :: Edge(g, q[i + 1], q[i])
  }

  /** `find_all_paths(a, a)` yields the empty path and nothing else. */
  lemma FindAllPathsSame(g: Graph, a: NodeId)
    requires WellFormed(g)
    ensures FindAllPaths(g, a, a) == Ok([[]])
  {
  }

  /**
   * On a symmetric graph, between two distinct nodes the first of which has a
   * link, the enumeration succeeds and yields every simple path exactly once
   * and nothing else.
   */
  lemma FindAllPathsExact(g: Graph, a: NodeId, b: NodeId)
    requires Wf(g) && Symmetric(g) && a != b && exists x :: Edge(g, a, x)
    ensures FindAllPaths(g, a, b).Ok?
    ensures DistinctSeq(FindAllPaths(g, a, b).value)
    ensures forall q :: q in FindAllPaths(g, a, b).value <==> SimplePath(g, q, a, b)
  {
    var tm := TransMapOf(Transitions(g.order, g.m));
    SymmetricTransitions(g);
    var x :| Edge(g, a, x);
    assert Step(tm, x, a);
    PathsNoError(tm, [a], b);
    PathsDistinct(tm, [a], b);
    var ps := FindAllPaths(g, a, b).value;
    forall q ensures q in ps <==> SimplePath(g, q, a, b) {
      if q in ps {
        PathsSound(tm, [a], b, q);
        assert q[0] == q[..1][0] == a;
      }
      if SimplePath(g, q, a, b) {
        assert q[..1] == [a];
        PathsComplete(tm, [a], b, q);
      }
    }
  }

  /** On a symmetric graph the transition map is closed, duplicate-free, and steps along reversed edges. */
  lemma SymmetricTransitions(g: Graph)
    requires Wf(g) && Symmetric(g)
    ensures var tm := TransMapOf(Transitions(g.order, g.m));
      && Closed(tm)
      && (forall u | u in tm.m :: DistinctSeq(tm.m[u]))
      && (forall u, v :: Step(tm, u, v) <==> Edge(g, v, u))
  {
    var tm := TransMapOf(Transitions(g.order, g.m));
    forall u, v ensures Step(tm, u, v) <==> Edge(g, v, u) {
      TransitionMapMeaning(g, v, u);
    }
    forall u | u in tm.m ensures DistinctSeq(tm.m[u]) {
      TransitionMapMeaning(g, u, u);
    }
    forall u, v | u in tm.m && v in tm.m[u] ensures v in tm.m {
      assert Step(tm, u, v);
      assert Edge(g, u, v);
      TransitionMapMeaning(g, v, v);
    }
  }

  // ---------------------------------------------------------------- dijkstra

  /** A walk along the graph's links. */
  predicate Walk(g: Graph, w: seq<NodeId>)
  {
    |w| > 0 && forall i | 0 <= i < |w| - 1 :: Edge(g, w[i], w[i + 1])
  }

  /** `path` points every reached node other than `initial` at a reached node one hop closer. */
  predicate PathTree(initial: NodeId, visited: map<NodeId, nat>, path: map<NodeId, NodeId>)
  {
    && initial in visited && visited[initial] == 0
    && path.Keys == visited.Keys - {initial}
    && forall v | v in path :: path[v] in visited && visited[v] == visited[path[v]] + 1
  }

  /**
   * What `dijkstra(graph, initial)` returns: `visited` holds exactly the nodes
   * some walk from `initial` reaches, each with the hop count of a shortest such
   * walk, and `path` maps every other reached node to a neighbour one hop closer.
   */
  ghost predicate DijkstraSpec(g: Graph, initial: NodeId, visited: map<NodeId, nat>, path: map<NodeId, NodeId>)
  {
    && PathTree(initial, visited, path)
    && (forall v | v in path :: Edge(g, path[v], v))
    && (forall v | v in visited :: exists w :: Walk(g, w) && w[0] == initial && Last(w) == v && |w| == visited[v] + 1)
    && (forall w | Walk(g, w) && w[0] == initial :: Last(w) in visited && visited[Last(w)] <= |w| - 1)
  }

  /** A finite set of reached nodes has one with the least hop count. */
  lemma {:induction false} MinExists(s: set<NodeId>, visited: map<NodeId, nat>)
    requires s != {} && s <= visited.Keys
    ensures exists m :: m in s && forall n | n in s :: visited[m] <= visited[n]
    decreases |s|
  {
    var x :| x in s;
    if s != {x} {
      MinExists(s - {x}, visited);
      var m :| m in s - {x} && forall n | n in s - {x} :: visited[m] <= visited[n];
      if visited[x] < visited[m] {
        assert forall n | n in s :: visited[x] <= visited[n];
      } else {
        assert forall n | n in s :: visited[m] <= visited[n];
      }
    } else {
      assert forall n | n in s :: visited[x] <= visited[n];
    }
  }

  /** The settled nodes are those taken out of `nodes`; their neighbours are reached at most one hop later. */
  predicate Settled(g: Graph, visited: map<NodeId, nat>, nodes: set<NodeId>)
  {
    && (forall u | u in g.m && u !in nodes :: u in visited)
    && (forall u, v | u in g.m && u !in nodes && v in g.m[u].m :: v in visited && visited[v] <= visited[u] + 1)
  }

  /** When every reached node of the graph is settled, every walk from `initial` ends at a reached node within its length. */
  lemma {:induction false} WalkBound(g: Graph, initial: NodeId, visited: map<NodeId, nat>, nodes: set<NodeId>, w: seq<NodeId>)
    requires initial in visited && visited[initial] == 0
    requires Settled(g, visited, nodes) && forall n | n in nodes :: n !in visited
    requires Walk(g, w) && w[0] == initial
    ensures Last(w) in visited && visited[Last(w)] <= |w| - 1
    decreases |w|
  {
    if |w| > 1 {
      var w' := w[..|w| - 1];
      assert Walk(g, w') by {
        forall i | 0 <= i < |w'| - 1 ensures Edge(g, w'[i], w'[i + 1]) {
          assert w'[i] == w[i] && w'[i + 1] == w[i + 1];
        }
      }
      WalkBound(g, initial, visited, nodes, w');
      assert Edge(g, w[|w| - 2], w[|w| - 1]);
    }
  }

  /** The invariant of the outer loop of `dijkstra`; `nodes` holds the nodes not yet settled. */
  predicate Progress(g: Graph, initial: NodeId, visited: map<NodeId, nat>, path: map<NodeId, NodeId>,
                     nodes: set<NodeId>)
  {
    && nodes <= g.m.Keys
    && PathTree(initial, visited, path)
    && (forall v | v in path :: Edge(g, path[v], v) && path[v] in g.m && path[v] !in nodes)
    && Settled(g, visited, nodes)
    && (forall u, x | u in g.m && u !in nodes && x in nodes && x in visited :: visited[u] <= visited[x])
  }

  /**
   * The invariant of the inner loop of `dijkstra` while it settles `m`: the
   * counts of nodes settled earlier and of `m` are unchanged, `m` lies between
   * the settled and the pending nodes, counts only decrease, and every
   * neighbour in `seen` was offered `visited[m] + 1`.
   */
  predicate Offered(g: Graph, initial: NodeId, visited0: map<NodeId, nat>, nodes0: set<NodeId>, m: NodeId,
                    visited: map<NodeId, nat>, path: map<NodeId, NodeId>, seen: seq<NodeId>)
  {
    && m in visited0 && m in visited && visited[m] == visited0[m]
    && (forall u | u in g.m && u !in nodes0 :: u in visited0 && u in visited && visited[u] == visited0[u])
    && (forall u | u in g.m && u !in nodes0 - {m} :: u in visited && visited[u] <= visited[m])
    && (forall x | x in nodes0 - {m} && x in visited :: visited[x] >= visited[m])
    && PathTree(initial, visited, path)
    && (forall v | v in path :: Edge(g, path[v], v) && path[v] in g.m && path[v] !in nodes0 - {m})
    && (forall v | v in visited0 :: v in visited && visited[v] <= visited0[v])
    && (forall v | v in seen :: v in visited && visited[v] <= visited[m] + 1)
  }

  /** `weight < visited[edge]` or `edge` not yet reached: the offer is taken. */
  predicate Improves(visited: map<NodeId, nat>, m: NodeId, e: NodeId)
    requires m in visited
  {
    e !in visited || visited[m] + 1 < visited[e]
  }

  /** An offer `m` makes to a neighbour and that is taken keeps the inner loop's invariant. */
  lemma OfferTaken(g: Graph, initial: NodeId, visited0: map<NodeId, nat>, nodes0: set<NodeId>, m: NodeId,
                   visited: map<NodeId, nat>, path: map<NodeId, NodeId>, seen: seq<NodeId>, e: NodeId)
    requires m in g.m && e in g.m[m].m && m in nodes0
    requires Offered(g, initial, visited0, nodes0, m, visited, path, seen) && Improves(visited, m, e)
    ensures Offered(g, initial, visited0, nodes0, m, visited[e := visited[m] + 1], path[e := m], seen + [e])
  {
    var visited', path' := visited[e := visited[m] + 1], path[e := m];
    assert forall u | u in g.m && u !in nodes0 - {m} :: u != e;
    assert PathTree(initial, visited', path');
    assert forall v | v in seen + [e] :: v in seen || v == e;
  }

  /** An offer `m` makes to a neighbour and that is declined keeps the inner loop's invariant. */
  lemma OfferDeclined(g: Graph, initial: NodeId, visited0: map<NodeId, nat>, nodes0: set<NodeId>, m: NodeId,
                      visited: map<NodeId, nat>, path: map<NodeId, NodeId>, seen: seq<NodeId>, e: NodeId)
    requires Offered(g, initial, visited0, nodes0, m, visited, path, seen) && !Improves(visited, m, e)
    ensures Offered(g, initial, visited0, nodes0, m, visited, path, seen + [e])
  {
    assert forall v | v in seen + [e] :: v in seen || v == e;
  }

  /** Before any neighbour is offered, the outer invariant gives the inner one. */
  lemma OfferStart(g: Graph, initial: NodeId, visited0: map<NodeId, nat>, path0: map<NodeId, NodeId>, nodes0: set<NodeId>,
                   m: NodeId)
    requires Progress(g, initial, visited0, path0, nodes0)
    requires m in nodes0 && m in visited0 && forall x | x in nodes0 && x in visited0 :: visited0[m] <= visited0[x]
    ensures Offered(g, initial, visited0, nodes0, m, visited0, path0, [])
  {
  }

  /** One step of the inner loop of `dijkstra`: offer `weight` to neighbour `e` of `min_node`. */
  method Offer(g: Graph, initial: NodeId, visited0: map<NodeId, nat>, nodes0: set<NodeId>, m: NodeId,
               visited: map<NodeId, nat>, path: map<NodeId, NodeId>, ghost seen: seq<NodeId>, e: NodeId)
    returns (visited': map<NodeId, nat>, path': map<NodeId, NodeId>)
    requires m in g.m && e in g.m[m].m && m in nodes0
    requires Offered(g, initial, visited0, nodes0, m, visited, path, seen)
    ensures Offered(g, initial, visited0, nodes0, m, visited', path', seen + [e])
    ensures e in visited' && visited'[e] <= visited[m] + 1
  {
    var weight := visited[m] + 1;
    if e !in visited || weight < visited[e] {
      OfferTaken(g, initial, visited0, nodes0, m, visited, path, seen, e);
      visited', path' := visited[e := weight], path[e := m];
    } else {
      OfferDeclined(g, initial, visited0, nodes0, m, visited, path, seen, e);
      visited', path' := visited, path;
    }
  }

  /**
   * The inner loop of `dijkstra`: settle `min_node`, a pending reached node
   * with the least count, by offering every neighbour one hop more.
   */
  method Relax(g: Graph, initial: NodeId, visited0: map<NodeId, nat>, path0: map<NodeId, NodeId>, nodes0: set<NodeId>,
               m: NodeId)
    returns (visited: map<NodeId, nat>, path: map<NodeId, NodeId>)
    requires Wf(g) && Progress(g, initial, visited0, path0, nodes0)
    requires m in nodes0 && m in visited0 && forall x | x in nodes0 && x in visited0 :: visited0[m] <= visited0[x]
    ensures Progress(g, initial, visited, path, nodes0 - {m})
  {
    var edges := g.m[m].order;
    OfferStart(g, initial, visited0, path0, nodes0, m);
    visited, path := visited0, path0;
    assert edges[..0] == [];
    for k := 0 to |edges|
      invariant Offered(g, initial, visited0, nodes0, m, visited, path, edges[..k])
    {
      assert edges[..k + 1] == edges[..k] + [edges[k]];
      visited, path := Offer(g, initial, visited0, nodes0, m, visited, path, edges[..k], edges[k]);
    }
    assert edges[..|edges|] == edges;
    RelaxDone(g, initial, visited0, nodes0, m, visited, path);
  }

  /** After every neighbour of `m` was offered, `m` is settled too. */
  lemma RelaxDone(g: Graph, initial: NodeId, visited0: map<NodeId, nat>, nodes0: set<NodeId>, m: NodeId,
                  visited: map<NodeId, nat>, path: map<NodeId, NodeId>)
    requires Wf(g) && nodes0 <= g.m.Keys && m in g.m && m in nodes0 && Settled(g, visited0, nodes0)
    requires Offered(g, initial, visited0, nodes0, m, visited, path, g.m[m].order)
    ensures Progress(g, initial, visited, path, nodes0 - {m})
  {
    RelaxSettled(g, initial, visited0, nodes0, m, visited, path);
  }

  /** The settled part of `RelaxDone`: `m`'s neighbours were offered, the others' counts only dropped. */
  lemma RelaxSettled(g: Graph, initial: NodeId, visited0: map<NodeId, nat>, nodes0: set<NodeId>, m: NodeId,
                     visited: map<NodeId, nat>, path: map<NodeId, NodeId>)
    requires Wf(g) && m in g.m && Settled(g, visited0, nodes0)
    requires Offered(g, initial, visited0, nodes0, m, visited, path, g.m[m].order)
    ensures Settled(g, visited, nodes0 - {m})
  {
    var nodes := nodes0 - {m};
    forall u, v | u in g.m && u !in nodes && v in g.m[u].m
      ensures v in visited && visited[v] <= visited[u] + 1
    {
      if u == m {
        assert v in g.m[m].order;
      } else {
        assert u !in nodes0;
        assert v in visited0 && visited0[v] <= visited0[u] + 1;
      }
    }
  }

  /** A walk extended by one link is a walk. */
  lemma ExtendWalk(g: Graph, w: seq<NodeId>, e: NodeId)
    requires Walk(g, w) && Edge(g, Last(w), e)
    ensures Walk(g, w + [e])
  {
    var w' := w + [e];
    forall i | 0 <= i < |w'| - 1 ensures Edge(g, w'[i], w'[i + 1]) {
      if i < |w| - 1 {
        assert w'[i] == w[i] && w'[i + 1] == w[i + 1];
      }
    }
  }

  /** `dijkstra(graph, initial)`; ties between equally near nodes are broken in an unspecified order. */
  method Dijkstra(g: Graph, initial: NodeId) returns (visited: map<NodeId, nat>, path: map<NodeId, NodeId>)
    requires Wf(g)
    ensures DijkstraSpec(g, initial, visited, path)
  {
    visited := map[initial := 0];
    path := map[];
    var nodes := g.m.Keys;
    while |nodes| > 0
      invariant Progress(g, initial, visited, path, nodes)
      decreases |nodes|
    {
      if !(exists n :: n in nodes && n in visited) {
        break;
      }
      ghost var n0 :| n0 in nodes && n0 in visited;
      assert n0 in nodes * visited.Keys;
      MinExists(nodes * visited.Keys, visited);
      var m :| m in nodes && m in visited && forall n | n in nodes && n in visited :: visited[m] <= visited[n];
      visited, path := Relax(g, initial, visited, path, nodes, m);
      nodes := nodes - {m};
    }
    DijkstraDone(g, initial, visited, path, nodes);
  }

  /** When no pending node is reached, the loop's invariant gives the specification. */
  lemma DijkstraDone(g: Graph, initial: NodeId, visited: map<NodeId, nat>, path: map<NodeId, NodeId>, nodes: set<NodeId>)
    requires Progress(g, initial, visited, path, nodes) && forall n | n in nodes :: n !in visited
    ensures DijkstraSpec(g, initial, visited, path)
  {
    forall w | Walk(g, w) && w[0] == initial
      ensures Last(w) in visited && visited[Last(w)] <= |w| - 1
    {
      WalkBound(g, initial, visited, nodes, w);
    }
    forall v | v in visited
      ensures exists w :: Walk(g, w) && w[0] == initial && Last(w) == v && |w| == visited[v] + 1
    {
      ChainWalk(g, initial, visited, path, v);
    }
  }

  /** Following `path` back from a reached node gives a walk from `initial` with as many hops as its count. */
  lemma {:induction false} ChainWalk(g: Graph, initial: NodeId, visited: map<NodeId, nat>, path: map<NodeId, NodeId>, v: NodeId)
    requires PathTree(initial, visited, path) && forall x | x in path :: Edge(g, path[x], x)
    requires v in visited
    ensures exists w :: Walk(g, w) && w[0] == initial && Last(w) == v && |w| == visited[v] + 1
    decreases visited[v]
  {
    if v == initial {
      assert Walk(g, [initial]);
    } else {
      var u := path[v];
      ChainWalk(g, initial, visited, path, u);
      var w :| Walk(g, w) && w[0] == initial && Last(w) == u && |w| == visited[u] + 1;
      ExtendWalk(g, w, v);
      assert (w + [v])[0] == initial;
    }
  }

  // ---------------------------------------------------------------- dijkstra_min_path

  /** `p` runs from `initial` to `target`, each node the `path` entry of the next. */
  predicate Chain(path: map<NodeId, NodeId>, initial: NodeId, target: NodeId, p: seq<NodeId>)
  {
    && |p| > 0 && p[0] == initial && Last(p) == target
    && forall i | 1 <= i < |p| :: p[i] in path && path[p[i]] == p[i - 1]
  }

  /**
   * `dijkstra_min_path((visited, path), initial, target)`: follow `path` back
   * from `target` until it runs out, then reverse. A target that is neither
   * `initial` nor in `path` gives `([], None)`.
   */
  method DijkstraMinPath(visited: map<NodeId, nat>, path: map<NodeId, NodeId>, initial: NodeId, target: NodeId)
    returns (p: seq<NodeId>, d: Option<nat>)
    requires PathTree(initial, visited, path)
    ensures (target in path || target == initial) <==> target in visited
    ensures target !in visited ==> p == [] && d == None
    ensures target in visited ==> d == Some(visited[target]) && |p| == visited[target] + 1 && Chain(path, initial, target, p)
  {
    if !(target in path || target == initial) {
      return [], None;
    }
    var rev: seq<NodeId> := [];
    var current: Option<NodeId> := Some(target);
    while current.Some?
      invariant current.Some? ==> current.value in visited && |rev| + visited[current.value] == visited[target]
      invariant current.None? ==> |rev| == visited[target] + 1 && rev[|rev| - 1] == initial
      invariant |rev| == 0 ==> current == Some(target)
      invariant |rev| > 0 ==> rev[0] == target
      invariant |rev| > 0 && current.Some? ==> rev[|rev| - 1] in path && path[rev[|rev| - 1]] == current.value
      invariant forall i | 0 <= i < |rev| - 1 :: rev[i] in path && path[rev[i]] == rev[i + 1]
      decreases if current.Some? then visited[current.value] + 1 else 0
    {
      rev := rev + [current.value];
      current := if current.value in path then Some(path[current.value]) else None;
    }
    p := seq(|rev|, i requires 0 <= i < |rev| => rev[|rev| - 1 - i]);
    d := Some(visited[target]);
  }

  /**
   * With the result of `dijkstra`, the reconstructed path is a walk of the
   * graph and no walk from `initial` to `target` is shorter; an unreached target
   * has no walk at all.
   */
  lemma MinPathShortest(g: Graph, initial: NodeId, visited: map<NodeId, nat>, path: map<NodeId, NodeId>,
                        target: NodeId, p: seq<NodeId>)
    requires DijkstraSpec(g, initial, visited, path)
    requires target in visited && |p| == visited[target] + 1 && Chain(path, initial, target, p)
    ensures Walk(g, p)
    ensures forall w | Walk(g, w) && w[0] == initial && Last(w) == target :: |p| <= |w|
  {
    forall i | 0 <= i < |p| - 1 ensures Edge(g, p[i], p[i + 1]) {
      assert p[i + 1] in path && path[p[i + 1]] == p[i];
    }
  }

  /** A target `dijkstra` did not reach has no walk from `initial`. */
  lemma UnreachedHasNoWalk(g: Graph, initial: NodeId, visited: map<NodeId, nat>, path: map<NodeId, NodeId>,
                           target: NodeId, w: seq<NodeId>)
    requires DijkstraSpec(g, initial, visited, path)
    requires target !in visited && |w| > 0 && w[0] == initial && Last(w) == target
    ensures !Walk(g, w)
  {
  }

  // ---------------------------------------------------------------- Dijkstra, DijkstraResults

  /** `DijkstraResults(initial, dijkstra_tuple)`: a finished run from one source. */
  datatype DijkstraResults = DijkstraResults(initial: NodeId, visited: map<NodeId, nat>, path: map<NodeId, NodeId>)
  {
    /** `results(target)`: the path to `target` and its hop count. */
    method Call(target: NodeId) returns (p: seq<NodeId>, d: Option<nat>)
      requires PathTree(initial, visited, path)
      ensures target !in visited ==> p == [] && d == None
      ensures target in visited ==> d == Some(visited[target]) && |p| == visited[target] + 1 && Chain(path, initial, target, p)
    {
      p, d := DijkstraMinPath(visited, path, initial, target);
    }
  }

  /**
   * The `Dijkstra` class: a graph and a cache of runs by source. Each source
   * is run at most once; later calls answer from the cache.
   */
  class DijkstraMemo {
    const graph: Graph
    var cache: map<NodeId, DijkstraResults>

    ghost predicate Valid()
      reads this
    {
      && Wf(graph)
      && forall i | i in cache :: cache[i].initial == i && DijkstraSpec(graph, i, cache[i].visited, cache[i].path)
    }

    constructor(g: Graph)
      requires Wf(g)
      ensures Valid() && graph == g && cache == map[]
    {
      graph := g;
      cache := map[];
    }

    /** `memo(initial)`: run `dijkstra` from `initial` unless a run is cached. */
    method Call(initial: NodeId) returns (r: DijkstraResults)
      requires Valid()
      modifies this
      ensures Valid()
      ensures r.initial == initial && DijkstraSpec(graph, initial, r.visited, r.path)
      ensures cache == old(cache)[initial := r]
      ensures initial in old(cache) ==> r == old(cache)[initial]
    {
      if initial !in cache {
        var visited, path := Dijkstra(graph, initial);
        cache := cache[initial := DijkstraResults(initial, visited, path)];
      }
      r := cache[initial];
    }
  }
}
