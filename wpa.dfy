/**
 * `WeightedPathAggregate` of latencycontroller.py: several paths between the
 * same two hosts, each with a weight, standing for one multipath route; and
 * its `transitions` rule, which turns the paths into per-switch next-hop
 * split ratios.
 */
module Weighted {
  import opened Wrappers
  import opened Builtins
  import opened NodePair
  import opened Dict
  import opened Routes

  /** The `_weighted` dict: path -> weight, in insertion order. */
  datatype Wpa = Wpa(weighted: Dict<Path, real>)

  /** `WeightedPathAggregate(weighted)`: `list(weighted.keys())[0]` raises `IndexError` on an empty dict. */
  function MakeWpa(weighted: Dict<Path, real>): (r: Result<Wpa>)
    ensures r.Ok? <==> |weighted.order| > 0
    ensures r.Ok? ==> r.value.weighted == weighted && |r.value.weighted.order| > 0
    ensures r.Err? ==> r.error == IndexError
  {
    if |weighted.order| == 0 then Err(IndexError) else Ok(Wpa(weighted))
  }

  /** `WeightedPathAggregate({tuple(seq): 1.0})`: a plain path as an aggregate of one. */
  function Single(p: Path): (r: Wpa)
    ensures r.weighted.order == [p] && r.weighted.m == map[p := 1.0]
  {
    Wpa(RawDict([p], map[p := 1.0]))
  }

  /** `wpa[i]` indexes the first path (`_subscriptable`), Python-style: negative counts from the end. */
  function Subscript(w: Wpa, i: int): (r: Result<NodeId>)
    requires |w.weighted.order| > 0
    ensures r.Ok? <==> -|w.weighted.order[0]| <= i < |w.weighted.order[0]|
  {
    var p := w.weighted.order[0];
    if 0 <= i < |p| then Ok(p[i])
    else if -|p| <= i < 0 then Ok(p[|p| + i])
    else Err(IndexError)
  }

  lemma SingleSubscript(p: Path)
    requires |p| > 0
    ensures Subscript(Single(p), 0) == Ok(p[0]) && Subscript(Single(p), -1) == Ok(p[|p| - 1])
  {
  }

  // ---------------------------------------------------------------- transitions, first pass

  /** `transitions_algo_weighted` and `transitions_reweighted`: switch -> {next hop: weight}. */
  type Table = RawDict<NodeId, RawDict<NodeId, real>>

  /** The inner dicts are well formed and non-empty, and so is the outer one. */
  predicate TableWf(t: Table)
  {
    WellFormed(t) && forall s | s in t.m :: WellFormed(t.m[s]) && |t.m[s].order| > 0
  }

  /** One hop `(src, dst)` of a path of weight `weight`. */
  datatype Offer = Offer(src: NodeId, dst: NodeId, weight: real)

  /**
   * A path that does not start at `in_src` is turned round. (`transitions`
   * raises on an empty path before orienting it; here it is left as it is.)
   */
  function Orient(p: Path, inSrc: NodeId): Path
  {
    if |p| > 0 && p[0] != inSrc then Reversed(p) else p
  }

  /** The hops of a path, in order, each carrying the path's weight. */
  function PathOffers(q: Path, w: real): (r: seq<Offer>)
    ensures |r| == if |q| == 0 then 0 else |q| - 1
    ensures forall i | 0 <= i < |r| :: r[i] == Offer(q[i], q[i + 1], w)
  {
    if |q| == 0 then [] else seq(|q| - 1, i requires 0 <= i < |q| - 1 => Offer(q[i], q[i + 1], w))
  }

  /** The hops of every path of the aggregate, path by path. */
  function Offers(items: seq<(Path, real)>, inSrc: NodeId): seq<Offer>
  {
    if |items| == 0 then []
    else Offers(items[..|items| - 1], inSrc) + PathOffers(Orient(items[|items| - 1].0, inSrc), items[|items| - 1].1)
  }

  /**
   * One hop of the first pass: only a hop leaving a switch counts; its weight
   * is kept if the next hop is new or the weight beats the one kept so far.
   */
  function Take(t: Table, o: Offer): Table
  {
    if !IsSwitch(o.src) then t
    else if o.src !in t.m then Put(t, o.src, RawDict([o.dst], map[o.dst := o.weight]))
    else if o.dst !in t.m[o.src].m || o.weight > t.m[o.src].m[o.dst] then Put(t, o.src, Put(t.m[o.src], o.dst, o.weight))
    else t
  }

  /** The first pass over a sequence of hops. */
  function MaxMerge(os: seq<Offer>): Table
    decreases |os|
  {
    if |os| == 0 then RawDict([], map[]) else Take(MaxMerge(os[..|os| - 1]), os[|os| - 1])
  }

  lemma MaxMergeSnoc(os: seq<Offer>, o: Offer)
    ensures MaxMerge(os + [o]) == Take(MaxMerge(os), o)
  {
    assert (os + [o])[..|os|] == os;
  }

  /** Some hop leaves switch `s`. */
  predicate Leaves(os: seq<Offer>, s: NodeId)
  {
    exists j :: 0 <= j < |os| && os[j].src == s
  }

  /** Some hop runs from `s` to `d`. */
  predicate Runs(os: seq<Offer>, s: NodeId, d: NodeId)
  {
    exists j :: 0 <= j < |os| && os[j].src == s && os[j].dst == d
  }

  /** The first pass keys the table by exactly the switches some hop leaves. */
  lemma {:induction false} MaxMergeKeys(os: seq<Offer>, s: NodeId)
    ensures s in MaxMerge(os).m <==> IsSwitch(s) && Leaves(os, s)
    decreases |os|
  {
    if |os| > 0 {
      var pre, o := os[..|os| - 1], os[|os| - 1];
      MaxMergeKeys(pre, s);
      assert os == pre + [o];
      LeavesSnoc(pre, o, s);
    }
  }

  /** Under a switch the first pass keeps exactly the next hops taken from it. */
  lemma {:induction false} MaxMergeRuns(os: seq<Offer>, s: NodeId, d: NodeId)
    ensures s in MaxMerge(os).m ==> (d in MaxMerge(os).m[s].m <==> Runs(os, s, d))
    decreases |os|
  {
    if |os| > 0 {
      var pre, o := os[..|os| - 1], os[|os| - 1];
      MaxMergeRuns(pre, s, d);
      MaxMergeKeys(pre, s);
      assert os == pre + [o];
      RunsSnoc(pre, o, s, d);
      RunsLeaves(pre, s, d);
    }
  }

  lemma RunsLeaves(os: seq<Offer>, s: NodeId, d: NodeId)
    ensures Runs(os, s, d) ==> Leaves(os, s)
  {
  }

  /** Every hop from `s` to `d` weighs at most what the first pass keeps for it. */
  lemma {:induction false} MaxMergeBound(os: seq<Offer>, s: NodeId, d: NodeId)
    ensures s in MaxMerge(os).m && d in MaxMerge(os).m[s].m ==>
      forall j | 0 <= j < |os| && os[j].src == s && os[j].dst == d :: os[j].weight <= MaxMerge(os).m[s].m[d]
    decreases |os|
  {
    if |os| > 0 {
      var pre, o := os[..|os| - 1], os[|os| - 1];
      MaxMergeBound(pre, s, d);
      MaxMergeRuns(pre, s, d);
      MaxMergeKeys(pre, s);
      var t, t' := MaxMerge(pre), MaxMerge(os);
      if s in t'.m && d in t'.m[s].m {
        forall j | 0 <= j < |os| && os[j].src == s && os[j].dst == d
          ensures os[j].weight <= t'.m[s].m[d]
        {
          if j < |pre| {
            assert pre[j] == os[j];
            assert IsSwitch(s) by {
              assert IsSwitch(o.src) || s in t.m;
            }
          }
        }
      }
    }
  }

  /** The weight the first pass keeps for a hop is the weight of some path using it. */
  lemma {:induction false} MaxMergeAttained(os: seq<Offer>, s: NodeId, d: NodeId)
    ensures s in MaxMerge(os).m && d in MaxMerge(os).m[s].m ==>
      exists j :: 0 <= j < |os| && os[j].src == s && os[j].dst == d && os[j].weight == MaxMerge(os).m[s].m[d]
    decreases |os|
  {
    if |os| > 0 {
      var pre, o := os[..|os| - 1], os[|os| - 1];
      MaxMergeAttained(pre, s, d);
      var t, t' := MaxMerge(pre), MaxMerge(os);
      if s in t'.m && d in t'.m[s].m {
        if o.src == s && o.dst == d && IsSwitch(s) && !(s in t.m && d in t.m[s].m && !(o.weight > t.m[s].m[d])) {
          assert os[|os| - 1].weight == t'.m[s].m[d];
        } else {
          var j :| 0 <= j < |pre| && pre[j].src == s && pre[j].dst == d && pre[j].weight == t.m[s].m[d];
          assert os[j] == pre[j];
        }
      }
    }
  }

  /**
   * The first pass keys the table by exactly the switches some hop leaves,
   * keeps under each exactly the next hops taken from it, and each kept
   * weight is the largest weight of a path using that hop.
   */
  lemma MaxMergeSpec(os: seq<Offer>, s: NodeId, d: NodeId)
    ensures TableWf(MaxMerge(os))
    ensures s in MaxMerge(os).m <==> IsSwitch(s) && Leaves(os, s)
    ensures s in MaxMerge(os).m ==> (d in MaxMerge(os).m[s].m <==> Runs(os, s, d))
    ensures s in MaxMerge(os).m && d in MaxMerge(os).m[s].m ==>
      (forall j | 0 <= j < |os| && os[j].src == s && os[j].dst == d :: os[j].weight <= MaxMerge(os).m[s].m[d])
      && (exists j :: 0 <= j < |os| && os[j].src == s && os[j].dst == d && os[j].weight == MaxMerge(os).m[s].m[d])
  {
    MaxMergeWf(os);
    MaxMergeKeys(os, s);
    MaxMergeRuns(os, s, d);
    MaxMergeBound(os, s, d);
    MaxMergeAttained(os, s, d);
  }

  lemma {:induction false} MaxMergeWf(os: seq<Offer>)
    ensures TableWf(MaxMerge(os))
    decreases |os|
  {
    if |os| > 0 {
      MaxMergeWf(os[..|os| - 1]);
      TakeWf(MaxMerge(os[..|os| - 1]), os[|os| - 1]);
    }
  }

  lemma TakeWf(t: Table, o: Offer)
    requires TableWf(t)
    ensures TableWf(Take(t, o))
  {
  }

  lemma LeavesSnoc(os: seq<Offer>, o: Offer, s: NodeId)
    ensures Leaves(os + [o], s) <==> Leaves(os, s) || o.src == s
  {
    if Leaves(os, s) {
      var j :| 0 <= j < |os| && os[j].src == s;
      assert (os + [o])[j] == os[j];
    }
    if o.src == s {
      assert (os + [o])[|os|] == o;
    }
    if Leaves(os + [o], s) && o.src != s {
      var j :| 0 <= j < |os| + 1 && (os + [o])[j].src == s;
      assert j < |os| && (os + [o])[j] == os[j];
    }
  }

  lemma RunsSnoc(os: seq<Offer>, o: Offer, s: NodeId, d: NodeId)
    ensures Runs(os + [o], s, d) <==> Runs(os, s, d) || (o.src == s && o.dst == d)
  {
    if Runs(os, s, d) {
      var j :| 0 <= j < |os| && os[j].src == s && os[j].dst == d;
      assert (os + [o])[j] == os[j];
    }
    if o.src == s && o.dst == d {
      assert (os + [o])[|os|] == o;
    }
    if Runs(os + [o], s, d) && !(o.src == s && o.dst == d) {
      var j :| 0 <= j < |os| + 1 && (os + [o])[j].src == s && (os + [o])[j].dst == d;
      assert j < |os| && (os + [o])[j] == os[j];
    }
  }

  /** The hops of one oriented path are exactly its `Hops`, each with the path's weight. */
  lemma PathOffersMeaning(q: Path, w: real, o: Offer)
    ensures o in PathOffers(q, w) <==> (o.src, o.dst) in Hops(q) && o.weight == w
  {
    if o in PathOffers(q, w) {
      var i :| 0 <= i < |PathOffers(q, w)| && PathOffers(q, w)[i] == o;
      assert HopAt(q, i) == (o.src, o.dst);
    }
    if (o.src, o.dst) in Hops(q) && o.weight == w {
      var i :| 0 <= i < |q| - 1 && HopAt(q, i) == (o.src, o.dst);
      assert PathOffers(q, w)[i] == o;
    }
  }

  /** Entry `j` of the first pass's list is hop `i` of path `k`, oriented from `in_src`. */
  lemma {:induction false} OffersFrom(items: seq<(Path, real)>, inSrc: NodeId, j: nat) returns (k: nat, i: nat)
    requires j < |Offers(items, inSrc)|
    ensures k < |items| && i < |PathOffers(Orient(items[k].0, inSrc), items[k].1)|
    ensures Offers(items, inSrc)[j] == PathOffers(Orient(items[k].0, inSrc), items[k].1)[i]
    decreases |items|
  {
    var n := |items| - 1;
    var pre := items[..n];
    var last := PathOffers(Orient(items[n].0, inSrc), items[n].1);
    assert Offers(items, inSrc) == Offers(pre, inSrc) + last;
    if j < |Offers(pre, inSrc)| {
      k, i := OffersFrom(pre, inSrc, j);
      assert pre[k] == items[k];
    } else {
      k, i := n, j - |Offers(pre, inSrc)|;
    }
  }

  lemma ConcatLeft<T>(a: seq<T>, b: seq<T>, j: nat)
    requires j < |a|
    ensures j < |a + b| && (a + b)[j] == a[j]
  {
  }

  lemma ConcatRight<T>(a: seq<T>, b: seq<T>, i: nat)
    requires i < |b|
    ensures |a| + i < |a + b| && (a + b)[|a| + i] == b[i]
  {
  }

  /** Hop `i` of path `k`, oriented from `in_src`, is entry `j` of the first pass's list. */
  lemma {:induction false} OffersCover(items: seq<(Path, real)>, inSrc: NodeId, k: nat, i: nat) returns (j: nat)
    requires k < |items| && i < |PathOffers(Orient(items[k].0, inSrc), items[k].1)|
    ensures j < |Offers(items, inSrc)|
    ensures Offers(items, inSrc)[j] == PathOffers(Orient(items[k].0, inSrc), items[k].1)[i]
    decreases |items|
  {
    var n := |items| - 1;
    var pre := items[..n];
    var head := Offers(pre, inSrc);
    var last := PathOffers(Orient(items[n].0, inSrc), items[n].1);
    assert Offers(items, inSrc) == head + last;
    if k < n {
      assert pre[k] == items[k];
      j := OffersCover(pre, inSrc, k, i);
      ConcatLeft(head, last, j);
    } else {
      j := |head| + i;
      ConcatRight(head, last, i);
    }
  }

  // ---------------------------------------------------------------- transitions, second pass

  /** The weights of one switch scaled to sum 1, or split evenly when they sum to at most 0. */
  function Normalize(d: RawDict<NodeId, real>): (r: RawDict<NodeId, real>)
    requires WellFormed(d) && |d.order| > 0
    ensures r.order == d.order && r.m.Keys == d.m.Keys
    ensures WellFormed(r)
  {
    RawDict(d.order, map k | k in d.m :: Share(Sum(Values(d)), |d.order|, d.m[k]))
  }

  /** One next hop's share: its weight over the total, or `1 / n` when the total is at most 0. */
  function Share(total: real, n: nat, v: real): real
    requires n > 0
  {
    if total <= 0.0 then 1.0 / (n as real) else v / total
  }

  /** Every switch's outgoing shares of the second pass sum to 1. */
  lemma NormalizeSum(d: RawDict<NodeId, real>)
    requires WellFormed(d) && |d.order| > 0
    ensures Sum(Values(Normalize(d))) == 1.0
  {
    var sw := Sum(Values(d));
    var ys := Values(Normalize(d));
    forall i | 0 <= i < |ys|
      ensures ys[i] == Share(sw, |d.order|, Values(d)[i])
    {
    }
    if sw <= 0.0 {
      EvenSum(ys);
    } else {
      ScaledSum(Values(d), ys, sw);
    }
  }

  lemma EvenSum(ys: seq<real>)
    requires |ys| > 0 && forall i | 0 <= i < |ys| :: ys[i] == Share(0.0, |ys|, 0.0)
    ensures Sum(ys) == 1.0
  {
    var c := 1.0 / (|ys| as real);
    SumConst(ys, c);
    Reciprocal(|ys| as real);
  }

  lemma ScaledSum(xs: seq<real>, ys: seq<real>, s: real)
    requires s == Sum(xs) && s > 0.0 && |xs| == |ys|
    requires forall i | 0 <= i < |xs| :: ys[i] == Share(s, |xs|, xs[i])
    ensures Sum(ys) == 1.0
  {
    SumScale(xs, ys, s);
    SelfQuotient(s);
  }

  lemma SelfQuotient(x: real)
    requires x != 0.0
    ensures x / x == 1.0
  {
  }

  lemma Reciprocal(x: real)
    requires x > 0.0
    ensures x * (1.0 / x) == 1.0
  {
  }

  lemma {:induction false} SumConst(xs: seq<real>, c: real)
    requires forall i | 0 <= i < |xs| :: xs[i] == c
    ensures Sum(xs) == (|xs| as real) * c
    decreases |xs|
  {
    if |xs| > 0 {
      SumConst(xs[..|xs| - 1], c);
    }
  }

  lemma {:induction false} SumScale(xs: seq<real>, ys: seq<real>, s: real)
    requires s != 0.0 && |xs| == |ys| && forall i | 0 <= i < |xs| :: ys[i] == xs[i] / s
    ensures Sum(ys) == Sum(xs) / s
    decreases |xs|
  {
    if |xs| > 0 {
      SumScale(xs[..|xs| - 1], ys[..|ys| - 1], s);
    }
  }

  /** The second pass: the same switches in the same order, each normalised. */
  function Reweight(t: Table): (r: Table)
    requires TableWf(t)
    ensures r.order == t.order && r.m.Keys == t.m.Keys && TableWf(r)
  {
    RawDict(t.order, map s | s in t.m :: Normalize(t.m[s]))
  }

  /** What `transitions(in_src)` returns, for an aggregate without empty paths. */
  function TransitionsOf(w: Wpa, inSrc: NodeId): Table
    requires forall k | 0 <= k < |w.weighted.order| :: |w.weighted.order[k]| > 0
  {
    var items := Items(w.weighted);
    MaxMergeWf(Offers(items, inSrc));
    Reweight(MaxMerge(Offers(items, inSrc)))
  }

  lemma OffersStep(items: seq<(Path, real)>, k: nat, inSrc: NodeId)
    requires k < |items|
    ensures Offers(items[..k + 1], inSrc) == Offers(items[..k], inSrc) + PathOffers(Orient(items[k].0, inSrc), items[k].1)
  {
    assert items[..k + 1][..k] == items[..k];
  }

  /**
   * The table `transitions` returns: a switch's next hops are exactly the hops
   * some path of the aggregate takes from it once oriented from `in_src`,
   * and its shares sum to 1.
   */
  lemma TransitionsShares(w: Wpa, inSrc: NodeId, s: NodeId, d: NodeId)
    requires forall k | 0 <= k < |w.weighted.order| :: |w.weighted.order[k]| > 0
    ensures s in TransitionsOf(w, inSrc).m ==> Sum(Values(TransitionsOf(w, inSrc).m[s])) == 1.0
    ensures s in TransitionsOf(w, inSrc).m ==>
      (d in TransitionsOf(w, inSrc).m[s].m <==>
        exists k :: 0 <= k < |w.weighted.order| && (s, d) in Hops(Orient(w.weighted.order[k], inSrc)))
  {
    var items := Items(w.weighted);
    var os := Offers(items, inSrc);
    MaxMergeSpec(os, s, d);
    MaxMergeWf(os);
    var t := MaxMerge(os);
    if s in t.m {
      NormalizeSum(t.m[s]);
      RunsMeaning(items, inSrc, s, d);
      assert forall k | 0 <= k < |items| :: items[k].0 == w.weighted.order[k];
    }
  }

  /** A hop from `s` to `d` is offered exactly when some oriented path takes it. */
  lemma RunsMeaning(items: seq<(Path, real)>, inSrc: NodeId, s: NodeId, d: NodeId)
    ensures Runs(Offers(items, inSrc), s, d) <==>
      exists k :: 0 <= k < |items| && (s, d) in Hops(Orient(items[k].0, inSrc))
  {
    var os := Offers(items, inSrc);
    if Runs(os, s, d) {
      var j :| 0 <= j < |os| && os[j].src == s && os[j].dst == d;
      var k, i := OffersFrom(items, inSrc, j);
      var q := Orient(items[k].0, inSrc);
      assert HopAt(q, i) == (s, d);
      assert (s, d) in Hops(q);
    }
    if exists k :: 0 <= k < |items| && (s, d) in Hops(Orient(items[k].0, inSrc)) {
      var k :| 0 <= k < |items| && (s, d) in Hops(Orient(items[k].0, inSrc));
      var q := Orient(items[k].0, inSrc);
      var i :| 0 <= i < |q| - 1 && HopAt(q, i) == (s, d);
      var j := OffersCover(items, inSrc, k, i);
      assert os[j].src == s && os[j].dst == d;
    }
  }

  /**
   * `wpa.transitions(in_src)`. `path[0]` of an empty path raises
   * `IndexError`; otherwise the first pass fills the table hop by hop and the
   * second renormalises it.
   */
  method Transitions(w: Wpa, inSrc: NodeId) returns (r: Result<Table>)
    ensures r.Err? <==> exists k :: 0 <= k < |w.weighted.order| && |w.weighted.order[k]| == 0
    ensures r.Err? ==> r.error == IndexError
    ensures r.Ok? ==> r.value == TransitionsOf(w, inSrc)
  {
    var items := Items(w.weighted);
    assert forall k | 0 <= k < |items| :: items[k].0 == w.weighted.order[k];
    var first := FirstPass(items, inSrc);
    if first.Err? {
      return Err(IndexError);
    }
    MaxMergeWf(Offers(items, inSrc));
    var reweighted := ReweightLoop(first.value);
    r := Ok(reweighted);
  }

  lemma NonEmptyStep(items: seq<(Path, real)>, k: nat)
    requires k < |items| && |items[k].0| > 0
    requires forall j | 0 <= j < k :: |items[j].0| > 0
    ensures forall j | 0 <= j < k + 1 :: |items[j].0| > 0
  {
  }

  /** The loop `for path, weight in self._weighted.items()` of the first pass. */
  method FirstPass(items: seq<(Path, real)>, inSrc: NodeId) returns (r: Result<Table>)
    ensures r.Err? <==> exists k :: 0 <= k < |items| && |items[k].0| == 0
    ensures r.Ok? ==> (forall k | 0 <= k < |items| :: |items[k].0| > 0) && r.value == MaxMerge(Offers(items, inSrc))
  {
    var t: Table := RawDict([], map[]);
    for k := 0 to |items|
      invariant forall j | 0 <= j < k :: |items[j].0| > 0
      invariant t == MaxMerge(Offers(items[..k], inSrc))
    {
      var (path, weight) := items[k];
      if |path| == 0 {
        return Err(IndexError);
      }
      assert |items[k].0| > 0;
      if path[0] != inSrc {
        path := Reversed(path);
      }
      assert path == Orient(items[k].0, inSrc);
      OffersStep(items, k, inSrc);
      t := TakePath(t, Offers(items[..k], inSrc), path, weight);
      NonEmptyStep(items, k);
    }
    assert items[..|items|] == items;
    r := Ok(t);
  }

  /** The inner loop of the first pass: every hop of one oriented path. */
  method TakePath(t0: Table, ghost before: seq<Offer>, q: Path, w: real) returns (t: Table)
    requires t0 == MaxMerge(before)
    ensures t == MaxMerge(before + PathOffers(q, w))
  {
    t := t0;
    var os := PathOffers(q, w);
    assert before + os[..0] == before;
    for i := 0 to |os|
      invariant t == MaxMerge(before + os[..i])
    {
      MaxMergeSnoc(before + os[..i], os[i]);
      assert before + os[..i + 1] == (before + os[..i]) + [os[i]];
      t := TakeHop(t, q[i], q[i + 1], w);
    }
    assert os[..|os|] == os;
  }

  /** One hop of the first pass, on the table in place. */
  method TakeHop(t0: Table, ne1: NodeId, ne2: NodeId, w: real) returns (t: Table)
    ensures t == Take(t0, Offer(ne1, ne2, w))
  {
      t := t0;
      ghost var want := Take(t, Offer(ne1, ne2, w));
      if IsSwitch(ne1) {
        ghost var isNew := ne1 !in t.m;
        ghost var t0 := t;
        if ne1 !in t.m {
          t := Put(t, ne1, RawDict([], map[]));
        }
        var inner := t.m[ne1];
        if ne2 !in inner.m || w > inner.m[ne2] {
          t := Put(t, ne1, Put(inner, ne2, w));
        }
        if isNew {
          assert [] + [ne2] == [ne2];
          assert t.order == t0.order + [ne1] && t.m == t0.m[ne1 := RawDict([ne2], map[ne2 := w])];
        }
      }
      assert t == want;
  }

  /** The second pass over the first `k` switches of the table. */
  function ReweightUpTo(t: Table, k: nat): Table
    requires TableWf(t) && k <= |t.order|
  {
    RawDict(t.order[..k], map s | s in t.order[..k] :: Normalize(t.m[s]))
  }

  lemma ReweightUpToStep(t: Table, k: nat)
    requires TableWf(t) && k < |t.order|
    ensures ReweightUpTo(t, k + 1) == Put(ReweightUpTo(t, k), t.order[k], Normalize(t.m[t.order[k]]))
  {
    var x := t.order[k];
    var lo, hi := ReweightUpTo(t, k), ReweightUpTo(t, k + 1);
    assert t.order[..k + 1] == t.order[..k] + [x];
    assert x !in lo.m by {
      assert x !in t.order[..k];
    }
    assert hi.m == lo.m[x := Normalize(t.m[x])] by {
      forall y
        ensures y in hi.m <==> y in lo.m || y == x
      {
        assert y in t.order[..k + 1] <==> y in t.order[..k] || y == x;
      }
    }
  }

  lemma ReweightUpToAll(t: Table)
    requires TableWf(t)
    ensures ReweightUpTo(t, |t.order|) == Reweight(t)
  {
    assert t.order[..|t.order|] == t.order;
  }

  /** The second pass, switch by switch. */
  method ReweightLoop(t: Table) returns (r: Table)
    requires TableWf(t)
    ensures r == Reweight(t)
  {
    r := RawDict([], map[]);
    for k := 0 to |t.order|
      invariant r == ReweightUpTo(t, k)
    {
      var src := t.order[k];
      var d := NormalizeLoop(t.m[src]);
      ReweightUpToStep(t, k);
      r := Put(r, src, d);
    }
    ReweightUpToAll(t);
  }

  /** The inner loop of the second pass over the first `k` next hops. */
  function NormalizeUpTo(d: RawDict<NodeId, real>, sw: real, k: nat): RawDict<NodeId, real>
    requires WellFormed(d) && |d.order| > 0 && k <= |d.order|
  {
    RawDict(d.order[..k], map x | x in d.order[..k] :: Share(sw, |d.order|, d.m[x]))
  }

  lemma NormalizeUpToStep(d: RawDict<NodeId, real>, sw: real, k: nat)
    requires WellFormed(d) && |d.order| > 0 && k < |d.order|
    ensures NormalizeUpTo(d, sw, k + 1) ==
      Put(NormalizeUpTo(d, sw, k), d.order[k], Share(sw, |d.order|, d.m[d.order[k]]))
  {
    var x := d.order[k];
    var lo, hi := NormalizeUpTo(d, sw, k), NormalizeUpTo(d, sw, k + 1);
    assert d.order[..k + 1] == d.order[..k] + [x];
    assert x !in lo.m by {
      assert x !in d.order[..k];
    }
    assert hi.m == lo.m[x := Share(sw, |d.order|, d.m[x])] by {
      forall y
        ensures y in hi.m <==> y in lo.m || y == x
      {
        assert y in d.order[..k + 1] <==> y in d.order[..k] || y == x;
      }
    }
  }

  lemma NormalizeUpToAll(d: RawDict<NodeId, real>)
    requires WellFormed(d) && |d.order| > 0
    ensures NormalizeUpTo(d, Sum(Values(d)), |d.order|) == Normalize(d)
  {
    assert d.order[..|d.order|] == d.order;
  }

  /** The inner loop of the second pass: one switch's weights. */
  method NormalizeLoop(d: RawDict<NodeId, real>) returns (r: RawDict<NodeId, real>)
    requires WellFormed(d) && |d.order| > 0
    ensures r == Normalize(d)
  {
    var sw := Sum(Values(d));
    r := RawDict([], map[]);
    for k := 0 to |d.order|
      invariant r == NormalizeUpTo(d, sw, k)
    {
      var dst := d.order[k];
      var share;
      if sw <= 0.0 {
        share := 1.0 / (|d.order| as real);
      } else {
        share := d.m[dst] / sw;
      }
      NormalizeUpToStep(d, sw, k);
      r := Put(r, dst, share);
    }
    NormalizeUpToAll(d);
  }
}
