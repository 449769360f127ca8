/**
 * Path bookkeeping of latencycontroller.py: the all-pairs matrix of alternate
 * paths between hosts (`prepare_pop_pair_alternative_paths_for_availability`)
 * and the filter that keeps, shortest first, only paths that never run a link
 * against an already accepted path (`filter_out_invalid_paths_from_multiple_paths`).
 */
module Routes {
  import opened Wrappers
  import opened Builtins
  import opened NodePair
  import opened Dict
  import opened Graph

  type Path = seq<NodeId>

  // ---------------------------------------------------------------- the sort key (len(a), a)

  /** Python's `<` on strings: code points left to right, a proper prefix first. */
  predicate StrLt(a: string, b: string)
    decreases |a|
  {
    if |a| == 0 then |b| > 0
    else if |b| == 0 then false
    else if a[0] != b[0] then a[0] < b[0]
    else StrLt(a[1..], b[1..])
  }

  lemma {:induction false} StrLtTotal(a: string, b: string)
    requires a != b
    ensures StrLt(a, b) || StrLt(b, a)
    decreases |a|
  {
    if |a| > 0 && |b| > 0 && a[0] == b[0] {
      assert a == [a[0]] + a[1..] && b == [b[0]] + b[1..];
      StrLtTotal(a[1..], b[1..]);
    }
  }

  /** `<` on two tuples of node names of the same length: the first differing name decides. */
  predicate PathLt(p: Path, q: Path)
    decreases |p|
  {
    if |p| == 0 || |q| == 0 then false
    else if p[0] != q[0] then StrLt(Name(p[0]), Name(q[0]))
    else PathLt(p[1..], q[1..])
  }

  lemma {:induction false} PathLtTotal(p: Path, q: Path)
    requires p != q && |p| == |q|
    ensures PathLt(p, q) || PathLt(q, p)
    decreases |p|
  {
    if p[0] != q[0] {
      NameInjective(p[0], q[0]);
      StrLtTotal(Name(p[0]), Name(q[0]));
    } else {
      assert p == [p[0]] + p[1..] && q == [q[0]] + q[1..];
      PathLtTotal(p[1..], q[1..]);
    }
  }

  /** The key `(len(a), a)` of the sort: `p` sorts no later than `q`. */
  predicate KeyLe(p: Path, q: Path)
  {
    p == q || |p| < |q| || (|p| == |q| && PathLt(p, q))
  }

  lemma KeyLeTotal(p: Path, q: Path)
    ensures KeyLe(p, q) || KeyLe(q, p)
  {
    if p != q && |p| == |q| {
      PathLtTotal(p, q);
    }
  }

  /** Each path sorts no later than the next one. */
  predicate Ascending(ps: seq<Path>)
  {
    forall i | 0 <= i < |ps| - 1 :: KeyLe(ps[i], ps[i + 1])
  }

  /** `p` placed before the first element of an ascending list it sorts no later than. */
  function Insert(p: Path, ps: seq<Path>): (r: seq<Path>)
    ensures multiset(r) == multiset(ps) + multiset{p}
    ensures |r| > 0 && (r[0] == p || (|ps| > 0 && r[0] == ps[0]))
  {
    if |ps| == 0 then [p]
    else if KeyLe(p, ps[0]) then [p] + ps
    else
      assert ps == [ps[0]] + ps[1..];
      [ps[0]] + Insert(p, ps[1..])
  }

  lemma {:induction false} InsertAscending(p: Path, ps: seq<Path>)
    requires Ascending(ps)
    ensures Ascending(Insert(p, ps))
    decreases |ps|
  {
    if |ps| > 0 && !KeyLe(p, ps[0]) {
      InsertAscending(p, ps[1..]);
      KeyLeTotal(p, ps[0]);
    }
  }

  /** `sorted(candidates, key=lambda a: (len(a), a))`. */
  function SortPaths(ps: seq<Path>): (r: seq<Path>)
    ensures multiset(r) == multiset(ps)
  {
    if |ps| == 0 then []
    else
      assert ps == [ps[0]] + ps[1..];
      Insert(ps[0], SortPaths(ps[1..]))
  }

  /** The sort returns the candidates, rearranged into ascending key order. */
  lemma {:induction false} SortPathsSpec(ps: seq<Path>)
    ensures multiset(SortPaths(ps)) == multiset(ps)
    ensures Ascending(SortPaths(ps))
    decreases |ps|
  {
    if |ps| > 0 {
      SortPathsSpec(ps[1..]);
      InsertAscending(ps[0], SortPaths(ps[1..]));
    }
  }

  // ---------------------------------------------------------------- filter_out_invalid_paths_from_multiple_paths

  /** `set(tuple(path[i:i+2]) for i in range(len(path)-1))`: the hops a path takes. */
  function Hops(p: Path): set<Pair>
  {
    set i | 0 <= i < |p| - 1 :: HopAt(p, i)
  }

  function HopAt(p: Path, i: nat): Pair
    requires i < |p| - 1
  {
    (p[i], p[i + 1])
  }

  /** The same hops, each run the other way. */
  function Flipped(hs: set<Pair>): set<Pair>
  {
    set h | h in hs :: (h.1, h.0)
  }

  /** The loop's state: the accepted paths and the reversed hops they use. */
  datatype Accepted = Accepted(valid: seq<Path>, bitsRev: set<Pair>)

  /** A path running from `h2` to `h1` is turned round to run from `h1`. */
  function Orient(p: Path, h1: NodeId, h2: NodeId): Path
    requires |p| > 0
  {
    if p[0] == h2 && Last(p) == h1 then Reversed(p) else p
  }

  /**
   * One candidate: skipped when it misses `sw`; `path[0]` of an empty path
   * raises `IndexError`; otherwise oriented and accepted unless one of its hops
   * runs against an accepted path.
   */
  function Consider(st: Result<Accepted>, p: Path, h1: NodeId, h2: NodeId, sw: Option<NodeId>): Result<Accepted>
  {
    if st.Err? then st
    else if sw.Some? && sw.value !in p then st
    else if |p| == 0 then Err(IndexError)
    else
      var q := Orient(p, h1, h2);
      if Hops(q) * st.value.bitsRev == {} then Ok(Accepted(st.value.valid + [q], st.value.bitsRev + Flipped(Hops(q))))
      else st
  }

  /** The candidates considered in the given order. */
  function ConsiderAll(ps: seq<Path>, h1: NodeId, h2: NodeId, sw: Option<NodeId>): Result<Accepted>
    decreases |ps|
  {
    if |ps| == 0 then Ok(Accepted([], {}))
    else Consider(ConsiderAll(ps[..|ps| - 1], h1, h2, sw), ps[|ps| - 1], h1, h2, sw)
  }

  /** The body of the filter's loop for one candidate `path`; `failed` when `path[0]` raises. */
  method ConsiderOne(path: Path, h1: NodeId, h2: NodeId, sw: Option<NodeId>, valid: seq<Path>, bitsRev: set<Pair>)
    returns (failed: bool, valid': seq<Path>, bitsRev': set<Pair>)
    ensures var s := Consider(Ok(Accepted(valid, bitsRev)), path, h1, h2, sw);
      (failed ==> s == Err(IndexError)) && (!failed ==> s == Ok(Accepted(valid', bitsRev')))
  {
    failed, valid', bitsRev' := false, valid, bitsRev;
    if sw.Some? && sw.value !in path {
      return;
    }
    if |path| == 0 {
      return true, valid, bitsRev;
    }
    var p := path;
    if p[0] == h2 && p[|p| - 1] == h1 {
      p := Reversed(p);
    }
    var pathBits := Hops(p);
    if pathBits * bitsRev == {} {
      valid' := valid + [p];
      bitsRev' := bitsRev + Flipped(pathBits);
    }
  }

  lemma ConsiderAllSnoc(ps: seq<Path>, k: nat, h1: NodeId, h2: NodeId, sw: Option<NodeId>)
    requires k < |ps|
    ensures ConsiderAll(ps[..k + 1], h1, h2, sw) == Consider(ConsiderAll(ps[..k], h1, h2, sw), ps[k], h1, h2, sw)
  {
    assert ps[..k + 1][..k] == ps[..k];
  }

  /** `filter_out_invalid_paths_from_multiple_paths(h1, h2, candidates, sw)`. */
  method FilterPaths(h1: NodeId, h2: NodeId, candidates: seq<Path>, sw: Option<NodeId>) returns (r: Result<seq<Path>>)
    ensures var s := ConsiderAll(SortPaths(candidates), h1, h2, sw);
      (r.Err? <==> s.Err?) && (r.Err? ==> r.error == s.error) && (r.Ok? ==> r.value == s.value.valid)
  {
    var ordered := SortPaths(candidates);
    var valid: seq<Path> := [];
    var bitsRev: set<Pair> := {};
    for k := 0 to |ordered|
      invariant ConsiderAll(ordered[..k], h1, h2, sw) == Ok(Accepted(valid, bitsRev))
    {
      ConsiderAllSnoc(ordered, k, h1, h2, sw);
      var failed;
      failed, valid, bitsRev := ConsiderOne(ordered[k], h1, h2, sw, valid, bitsRev);
      if failed {
        ConsiderAllErr(ordered, k + 1, h1, h2, sw);
        return Err(IndexError);
      }
    }
    assert ordered[..|ordered|] == ordered;
    r := Ok(valid);
  }

  /** Once an error is raised, the remaining candidates are not looked at. */
  lemma {:induction false} ConsiderAllErr(ps: seq<Path>, k: nat, h1: NodeId, h2: NodeId, sw: Option<NodeId>)
    requires k <= |ps| && ConsiderAll(ps[..k], h1, h2, sw) == Err(IndexError)
    ensures ConsiderAll(ps, h1, h2, sw) == Err(IndexError)
    decreases |ps| - k
  {
    if k < |ps| {
      assert ps[..k + 1][..k] == ps[..k];
      ConsiderAllErr(ps, k + 1, h1, h2, sw);
    } else {
      assert ps[..k] == ps;
    }
  }

  /** The filter raises `IndexError` exactly when there is no `sw` and an empty candidate. */
  lemma {:induction false} FilterError(ps: seq<Path>, h1: NodeId, h2: NodeId, sw: Option<NodeId>)
    ensures ConsiderAll(ps, h1, h2, sw).Err? <==> sw.None? && [] in ps
    ensures ConsiderAll(ps, h1, h2, sw).Err? ==> ConsiderAll(ps, h1, h2, sw).error == IndexError
    decreases |ps|
  {
    if |ps| > 0 {
      var pre := ps[..|ps| - 1];
      LastSplit(ps);
      FilterError(pre, h1, h2, sw);
      ConsiderError(ConsiderAll(pre, h1, h2, sw), ps[|ps| - 1], h1, h2, sw);
    }
  }

  /** One candidate raises exactly when there is no `sw` and the candidate is empty. */
  lemma ConsiderError(st: Result<Accepted>, p: Path, h1: NodeId, h2: NodeId, sw: Option<NodeId>)
    ensures Consider(st, p, h1, h2, sw).Err? <==> st.Err? || (sw.None? && p == [])
    ensures Consider(st, p, h1, h2, sw).Err? ==> Consider(st, p, h1, h2, sw).error == if st.Err? then st.error else IndexError
  {
  }

  /** What every accepted path satisfies: it contains `sw`, it comes from a candidate, it does not run from `h2` to `h1`. */
  predicate AcceptedPath(p: Path, ps: seq<Path>, h1: NodeId, h2: NodeId, sw: Option<NodeId>)
  {
    && |p| > 0
    && (sw.Some? ==> sw.value in p)
    && (p in ps || Reversed(p) in ps)
    && (p[0] == h2 && Last(p) == h1 ==> h1 == h2)
  }

  /** No hop of a later accepted path runs against a hop of an earlier one. */
  predicate NoReversal(valid: seq<Path>)
  {
    forall i, j, h | 0 <= i < j < |valid| && h in Hops(valid[j]) :: (h.1, h.0) !in Hops(valid[i])
  }

  /** The invariant of the filter: accepted paths are well formed, pairwise compatible, and `bitsRev` is their reversed hops. */
  ghost predicate FilterInvariant(st: Accepted, ps: seq<Path>, h1: NodeId, h2: NodeId, sw: Option<NodeId>)
  {
    && (forall i | 0 <= i < |st.valid| :: AcceptedPath(st.valid[i], ps, h1, h2, sw))
    && NoReversal(st.valid)
    && (forall h :: h in st.bitsRev <==> exists i :: 0 <= i < |st.valid| && (h.1, h.0) in Hops(st.valid[i]))
  }

  lemma ReverseReverse(p: Path)
    ensures Reversed(Reversed(p)) == p
  {
  }

  /** Orienting keeps the candidate (or its reverse) and never leaves it running from `h2` to `h1`. */
  lemma OrientSpec(p: Path, h1: NodeId, h2: NodeId)
    requires |p| > 0
    ensures |Orient(p, h1, h2)| > 0
    ensures Orient(p, h1, h2) == p || Reversed(Orient(p, h1, h2)) == p
    ensures Orient(p, h1, h2)[0] == h2 && Last(Orient(p, h1, h2)) == h1 ==> h1 == h2
  {
    ReverseReverse(p);
  }

  lemma ReverseMembers(p: Path, x: NodeId)
    ensures x in Reversed(p) <==> x in p
  {
    if x in p {
      var i :| 0 <= i < |p| && p[i] == x;
      assert Reversed(p)[|p| - 1 - i] == x;
    }
  }

  /** The accepted path extended by `q`, where `q` conflicts with none of them, keeps `NoReversal`. */
  lemma AppendNoReversal(valid: seq<Path>, bitsRev: set<Pair>, q: Path)
    requires NoReversal(valid)
    requires forall h :: h in bitsRev <==> exists i :: 0 <= i < |valid| && (h.1, h.0) in Hops(valid[i])
    requires Hops(q) * bitsRev == {}
    ensures NoReversal(valid + [q])
  {
    var valid' := valid + [q];
    forall i, j, h | 0 <= i < j < |valid'| && h in Hops(valid'[j]) ensures (h.1, h.0) !in Hops(valid'[i]) {
      if j == |valid| {
        assert valid'[i] == valid[i] && valid'[j] == q;
        assert h in Hops(q) && h !in Hops(q) * bitsRev;
        assert h !in bitsRev;
      } else {
        assert valid'[i] == valid[i] && valid'[j] == valid[j];
      }
    }
  }

  /** `bitsRev` extended by the flipped hops of `q` is the reversed hops of the extended list. */
  lemma AppendBitsRev(valid: seq<Path>, bitsRev: set<Pair>, q: Path)
    requires forall h :: h in bitsRev <==> exists i :: 0 <= i < |valid| && (h.1, h.0) in Hops(valid[i])
    ensures forall h :: h in bitsRev + Flipped(Hops(q)) <==> exists i :: 0 <= i < |valid + [q]| && (h.1, h.0) in Hops((valid + [q])[i])
  {
    var valid' := valid + [q];
    forall h ensures h in bitsRev + Flipped(Hops(q)) <==> exists i :: 0 <= i < |valid'| && (h.1, h.0) in Hops(valid'[i]) {
      if h in Flipped(Hops(q)) {
        var h' :| h' in Hops(q) && h == (h'.1, h'.0);
        assert (h.1, h.0) in Hops(valid'[|valid|]);
      }
      if h in bitsRev {
        var i :| 0 <= i < |valid| && (h.1, h.0) in Hops(valid[i]);
        assert valid'[i] == valid[i];
      }
      if exists i :: 0 <= i < |valid'| && (h.1, h.0) in Hops(valid'[i]) {
        var i :| 0 <= i < |valid'| && (h.1, h.0) in Hops(valid'[i]);
        if i < |valid| {
          assert valid'[i] == valid[i];
        } else {
          assert h == ((h.1, h.0).1, (h.1, h.0).0);
        }
      }
    }
  }

  /** One considered candidate keeps the invariant. */
  lemma ConsiderKeeps(st: Accepted, ps: seq<Path>, p: Path, h1: NodeId, h2: NodeId, sw: Option<NodeId>)
    requires FilterInvariant(st, ps, h1, h2, sw)
    requires Consider(Ok(st), p, h1, h2, sw).Ok?
    ensures FilterInvariant(Consider(Ok(st), p, h1, h2, sw).value, ps + [p], h1, h2, sw)
  {
    AcceptedGrow(st.valid, ps, p, h1, h2, sw);
    if !(sw.Some? && sw.value !in p) {
      var q := Orient(p, h1, h2);
      if Hops(q) * st.bitsRev == {} {
        AcceptedNew(p, ps, h1, h2, sw);
        AppendNoReversal(st.valid, st.bitsRev, q);
        AppendBitsRev(st.valid, st.bitsRev, q);
        AcceptedAppend(st.valid, q, ps + [p], h1, h2, sw);
      }
    }
  }

  /** Paths accepted among `ps` stay accepted among `ps + [p]`. */
  lemma AcceptedGrow(valid: seq<Path>, ps: seq<Path>, p: Path, h1: NodeId, h2: NodeId, sw: Option<NodeId>)
    requires forall i | 0 <= i < |valid| :: AcceptedPath(valid[i], ps, h1, h2, sw)
    ensures forall i | 0 <= i < |valid| :: AcceptedPath(valid[i], ps + [p], h1, h2, sw)
  {
    forall i | 0 <= i < |valid| ensures AcceptedPath(valid[i], ps + [p], h1, h2, sw) {
      assert AcceptedPath(valid[i], ps, h1, h2, sw);
    }
  }

  /** A non-empty candidate holding `sw`, once oriented, is an acceptable path. */
  lemma AcceptedNew(p: Path, ps: seq<Path>, h1: NodeId, h2: NodeId, sw: Option<NodeId>)
    requires |p| > 0 && (sw.Some? ==> sw.value in p)
    ensures AcceptedPath(Orient(p, h1, h2), ps + [p], h1, h2, sw)
  {
    OrientSpec(p, h1, h2);
    if sw.Some? {
      ReverseMembers(p, sw.value);
    }
    assert p in ps + [p];
  }

  lemma AcceptedAppend(valid: seq<Path>, q: Path, ps: seq<Path>, h1: NodeId, h2: NodeId, sw: Option<NodeId>)
    requires forall i | 0 <= i < |valid| :: AcceptedPath(valid[i], ps, h1, h2, sw)
    requires AcceptedPath(q, ps, h1, h2, sw)
    ensures forall i | 0 <= i < |valid + [q]| :: AcceptedPath((valid + [q])[i], ps, h1, h2, sw)
  {
  }

  lemma LastSplit<T>(xs: seq<T>)
    requires |xs| > 0
    ensures xs[..|xs| - 1] + [xs[|xs| - 1]] == xs
  {
  }

  /**
   * Every path the filter accepts contains `sw` when one is given, is a
   * candidate or a candidate turned round, does not run from `h2` to `h1`, and
   * runs no link against an earlier accepted path.
   */
  lemma {:induction false} FilterSound(ps: seq<Path>, h1: NodeId, h2: NodeId, sw: Option<NodeId>)
    requires ConsiderAll(ps, h1, h2, sw).Ok?
    ensures FilterInvariant(ConsiderAll(ps, h1, h2, sw).value, ps, h1, h2, sw)
    decreases |ps|
  {
    if |ps| > 0 {
      var pre := ps[..|ps| - 1];
      LastSplit(ps);
      assert ConsiderAll(pre, h1, h2, sw).Ok?;
      FilterSound(pre, h1, h2, sw);
      ConsiderKeeps(ConsiderAll(pre, h1, h2, sw).value, pre, ps[|ps| - 1], h1, h2, sw);
    }
  }

  /** A candidate that contains `sw` and conflicts with no accepted path is accepted. */
  lemma ConsiderAccepts(st: Accepted, p: Path, h1: NodeId, h2: NodeId, sw: Option<NodeId>)
    requires |p| > 0 && (sw.Some? ==> sw.value in p)
    requires Hops(Orient(p, h1, h2)) * st.bitsRev == {}
    ensures Consider(Ok(st), p, h1, h2, sw) == Ok(Accepted(st.valid + [Orient(p, h1, h2)], st.bitsRev + Flipped(Hops(Orient(p, h1, h2)))))
  {
  }

  // ---------------------------------------------------------------- the alternate-path matrix

  /** `pop_apa`: an n-by-n matrix of path tuples, each cell `None` until filled. */
  type Matrix = seq<seq<Option<seq<Path>>>>

  /** `(a, b)` comes before `(i, j)` in row-major order. */
  predicate Before(a: nat, b: nat, i: nat, j: nat)
  {
    a < i || (a == i && b < j)
  }

  function Min(a: nat, b: nat): nat { if a <= b then a else b }
  function Max(a: nat, b: nat): nat { if a <= b then b else a }

  /**
   * The matrix after the cells before `(i, j)` were visited: a cell is filled
   * once its upper-triangle twin was visited, with the paths from the
   * lower-indexed host to the other.
   */
  predicate FilledUpTo(g: Graph, hosts: seq<NodeId>, cells: Matrix, i: nat, j: nat)
    requires WellFormed(g)
  {
    && |cells| == |hosts|
    && (forall a | 0 <= a < |hosts| :: |cells[a]| == |hosts|)
    && forall a, b | 0 <= a < |hosts| && 0 <= b < |hosts| ::
      && (cells[a][b].Some? <==> Before(Min(a, b), Max(a, b), i, j))
      && (cells[a][b].Some? ==> FindAllPaths(g, hosts[Min(a, b)], hosts[Max(a, b)]) == Ok(cells[a][b].value))
  }

  /** Every pair visited so far was enumerated without error. */
  ghost predicate NoErrorUpTo(g: Graph, hosts: seq<NodeId>, i: nat, j: nat)
    requires WellFormed(g)
  {
    forall a, b | 0 <= a <= b < |hosts| && Before(a, b, i, j) :: FindAllPaths(g, hosts[a], hosts[b]).Ok?
  }

  /** The filled matrix, cells unwrapped. */
  function Unwrap(cells: Matrix): (r: seq<seq<seq<Path>>>)
    requires forall a, b | 0 <= a < |cells| && 0 <= b < |cells[a]| :: cells[a][b].Some?
    ensures |r| == |cells| && forall a | 0 <= a < |cells| :: |r[a]| == |cells[a]| && forall b | 0 <= b < |cells[a]| :: r[a][b] == cells[a][b].value
  {
    seq(|cells|, a requires 0 <= a < |cells| => seq(|cells[a]|, b requires 0 <= b < |cells[a]| => cells[a][b].value))
  }

  /**
   * `prepare_pop_pair_alternative_paths_for_availability(graph, hosts)`: each
   * unordered pair of hosts is enumerated once, at its first visit in
   * row-major order, and the tuple goes into both cells. An enumeration that
   * fails (`KeyError` for a host nobody links to) fails the whole build.
   */
  method AlternativePaths(g: Graph, hosts: seq<NodeId>) returns (r: Result<seq<seq<seq<Path>>>>)
    requires WellFormed(g)
    ensures r.Err? <==> exists a, b | 0 <= a <= b < |hosts| :: FindAllPaths(g, hosts[a], hosts[b]).Err?
    ensures r.Ok? ==> |r.value| == |hosts| && forall a | 0 <= a < |hosts| :: |r.value[a]| == |hosts|
    ensures r.Ok? ==> forall a, b | 0 <= a <= b < |hosts| ::
      r.value[a][b] == r.value[b][a] == FindAllPaths(g, hosts[a], hosts[b]).value
  {
    var n := |hosts|;
    var cells: Matrix := seq(n, _ => seq(n, _ => None));
    for i := 0 to n
      invariant FilledUpTo(g, hosts, cells, i, 0) && NoErrorUpTo(g, hosts, i, 0)
    {
      var row;
      row, cells := FillRow(g, hosts, cells, i);
      if row.Err? {
        return Err(row.error);
      }
      assert FilledUpTo(g, hosts, cells, i + 1, 0) by {
        forall a, b | 0 <= a < n && 0 <= b < n
          ensures Before(Min(a, b), Max(a, b), i, n) == Before(Min(a, b), Max(a, b), i + 1, 0)
        {
        }
      }
    }
    forall a, b | 0 <= a < n && 0 <= b < n ensures cells[a][b].Some? {
      assert Before(Min(a, b), Max(a, b), n, 0);
    }
    assert forall a, b | 0 <= a <= b < n :: Before(a, b, n, 0);
    r := Ok(Unwrap(cells));
  }

  /** A cell already filled lies below the diagonal and was visited as its twin: nothing to do. */
  lemma FillSkip(g: Graph, hosts: seq<NodeId>, cells: Matrix, i: nat, j: nat)
    requires WellFormed(g) && i < |hosts| && j < |hosts|
    requires FilledUpTo(g, hosts, cells, i, j) && NoErrorUpTo(g, hosts, i, j) && cells[i][j].Some?
    ensures FilledUpTo(g, hosts, cells, i, j + 1) && NoErrorUpTo(g, hosts, i, j + 1)
  {
    assert j < i;
    forall a, b | 0 <= a < |hosts| && 0 <= b < |hosts|
      ensures Before(Min(a, b), Max(a, b), i, j + 1) == Before(Min(a, b), Max(a, b), i, j)
    {
    }
  }

  /** Filling the cell `(i, j)` on or above the diagonal and its twin `(j, i)` with the pair's paths. */
  lemma FillSet(g: Graph, hosts: seq<NodeId>, cells: Matrix, i: nat, j: nat, ps: seq<Path>)
    requires WellFormed(g) && i < |hosts| && j < |hosts|
    requires FilledUpTo(g, hosts, cells, i, j) && NoErrorUpTo(g, hosts, i, j) && cells[i][j].None?
    requires FindAllPaths(g, hosts[i], hosts[j]) == Ok(ps)
    ensures var c1: Matrix := cells[i := cells[i][j := Some(ps)]];
      FilledUpTo(g, hosts, c1[j := c1[j][i := Some(ps)]], i, j + 1) && NoErrorUpTo(g, hosts, i, j + 1)
  {
    assert i <= j;
    var c1: Matrix := cells[i := cells[i][j := Some(ps)]];
    var c2: Matrix := c1[j := c1[j][i := Some(ps)]];
    forall a, b | 0 <= a < |hosts| && 0 <= b < |hosts|
      ensures (c2[a][b].Some? <==> Before(Min(a, b), Max(a, b), i, j + 1))
      ensures c2[a][b].Some? ==> FindAllPaths(g, hosts[Min(a, b)], hosts[Max(a, b)]) == Ok(c2[a][b].value)
    {
      if (a == i && b == j) || (a == j && b == i) {
        assert c2[a][b] == Some(ps);
      } else {
        assert c2[a][b] == cells[a][b];
      }
    }
  }

  /** The inner loop: row `i`, cell by cell. */
  method FillRow(g: Graph, hosts: seq<NodeId>, cells0: Matrix, i: nat) returns (r: Result<()>, cells: Matrix)
    requires WellFormed(g) && i < |hosts|
    requires FilledUpTo(g, hosts, cells0, i, 0) && NoErrorUpTo(g, hosts, i, 0)
    ensures r.Err? ==> exists a, b | 0 <= a <= b < |hosts| :: FindAllPaths(g, hosts[a], hosts[b]).Err?
    ensures r.Ok? ==> FilledUpTo(g, hosts, cells, i, |hosts|) && NoErrorUpTo(g, hosts, i, |hosts|)
  {
    cells := cells0;
    var n := |hosts|;
    for j := 0 to n
      invariant FilledUpTo(g, hosts, cells, i, j) && NoErrorUpTo(g, hosts, i, j)
    {
      if cells[i][j].None? {
        var apa := FindAllPaths(g, hosts[i], hosts[j]);
        assert i <= j;
        if apa.Err? {
          return Err(apa.error), cells;
        }
        FillSet(g, hosts, cells, i, j, apa.value);
        cells := cells[i := cells[i][j := Some(apa.value)]];
        cells := cells[j := cells[j][i := Some(apa.value)]];
      } else {
        FillSkip(g, hosts, cells, i, j);
      }
    }
    r := Ok(());
  }
}
