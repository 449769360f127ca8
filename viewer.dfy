/**
 * topoviewer.py's `parse_state`: the state file is a sequence of lines in
 * which `@start.path` / `@start.load` open a block and `@end` closes it. The
 * lines of a path block are mappings from paths to weights, the lines of a
 * load block are `(a, b, load)` triples; each is evaluated by the caller-given
 * `pathOf` / `loadOf` in place of Python's `eval`.
 */
module Viewer {
  import opened Wrappers
  import opened NodePair

  /** One evaluated path-block line: the paths of a mapping with their weights, in insertion order. */
  type MultiPath = seq<(seq<NodeId>, real)>

  /** One evaluated load-block line. */
  type Load = (NodeId, NodeId, real)

  /** The parser's `current`: 0 outside any block, 1 in a path block, 2 in a load block. */
  datatype Block = Outside | InPath | InLoad

  datatype Scan = Scan(current: Block, pathb: seq<MultiPath>, loadb: seq<Load>)

  predicate StartsWith(s: string, p: string) { |p| <= |s| && s[..|p|] == p }

  predicate EndsWith(s: string, p: string) { |p| <= |s| && s[|s| - |p|..] == p }

  /** A start marker the parser knows. */
  predicate GoodStart(line: string)
  {
    StartsWith(line, "@start.") && (EndsWith(line, "path") || EndsWith(line, "load"))
  }

  /** An `@` line that is neither a known start marker nor an end marker: the parser raises on it. */
  predicate BadMarker(line: string)
  {
    StartsWith(line, "@") && !GoodStart(line) && !StartsWith(line, "@end")
  }

  // ---------------------------------------------------------------- the block scanner

  /** One turn of the line loop. */
  function Step(st: Scan, line: string, pathOf: string -> MultiPath, loadOf: string -> Load): Result<Scan>
  {
    if StartsWith(line, "@") then
      if StartsWith(line, "@start.") then
        if EndsWith(line, "path") then Ok(st.(current := InPath))
        else if EndsWith(line, "load") then Ok(st.(current := InLoad))
        else Err(ValueError)
      else if StartsWith(line, "@end") then Ok(st.(current := Outside))
      else Err(ValueError)
    else if st.current == InPath then Ok(st.(pathb := st.pathb + [pathOf(line)]))
    else if st.current == InLoad then Ok(st.(loadb := st.loadb + [loadOf(line)]))
    else Ok(st)
  }

  /** The line loop run from `st` over `lines`, stopping at the first error. */
  function Feed(st: Scan, lines: seq<string>, pathOf: string -> MultiPath, loadOf: string -> Load): Result<Scan>
    decreases |lines|
  {
    if |lines| == 0 then Ok(st)
    else
      match Feed(st, lines[..|lines| - 1], pathOf, loadOf)
      case Err(e) => Err(e)
      case Ok(s) => Step(s, lines[|lines| - 1], pathOf, loadOf)
  }

  const Start := Scan(Outside, [], [])

  /** The line loop of `parse_state`. */
  method ScanBlocks(lines: seq<string>, pathOf: string -> MultiPath, loadOf: string -> Load) returns (r: Result<Scan>)
    ensures r == Feed(Start, lines, pathOf, loadOf)
  {
    var current := Outside;
    var pathb: seq<MultiPath> := [];
    var loadb: seq<Load> := [];
    for n := 0 to |lines|
      invariant Feed(Start, lines[..n], pathOf, loadOf) == Ok(Scan(current, pathb, loadb))
    {
      var line := lines[n];
      assert lines[..n + 1][..n] == lines[..n];
      if StartsWith(line, "@") {
        if StartsWith(line, "@start.") {
          if EndsWith(line, "path") {
            current := InPath;
          } else if EndsWith(line, "load") {
            current := InLoad;
          } else {
            FeedStops(Start, lines, n + 1, pathOf, loadOf);
            return Err(ValueError);
          }
        } else if StartsWith(line, "@end") {
          current := Outside;
        } else {
          FeedStops(Start, lines, n + 1, pathOf, loadOf);
          return Err(ValueError);
        }
      } else if current == InPath {
        pathb := pathb + [pathOf(line)];
      } else if current == InLoad {
        loadb := loadb + [loadOf(line)];
      }
    }
    assert lines[..|lines|] == lines;
    r := Ok(Scan(current, pathb, loadb));
  }

  /** Once the loop has raised, the later lines change nothing. */
  lemma {:induction false} FeedStops(st: Scan, lines: seq<string>, n: nat, pathOf: string -> MultiPath, loadOf: string -> Load)
    requires n <= |lines| && Feed(st, lines[..n], pathOf, loadOf).Err?
    ensures Feed(st, lines, pathOf, loadOf) == Feed(st, lines[..n], pathOf, loadOf)
    decreases |lines| - n
  {
    if n < |lines| {
      assert lines[..n + 1][..n] == lines[..n];
      FeedStops(st, lines, n + 1, pathOf, loadOf);
    } else {
      assert lines[..n] == lines;
    }
  }

  /** A start marker begins with `@` and is not an end marker. */
  lemma StartIsMarker(line: string)
    requires StartsWith(line, "@start.")
    ensures StartsWith(line, "@") && !StartsWith(line, "@end")
  {
    assert line[0] == '@' && line[1] == 's';
    assert line[..1] == "@";
  }

  /** A line raises exactly when it is a bad marker, whatever block the parser is in. */
  lemma StepFails(st: Scan, line: string, pathOf: string -> MultiPath, loadOf: string -> Load)
    ensures Step(st, line, pathOf, loadOf).Err? <==> BadMarker(line)
    ensures Step(st, line, pathOf, loadOf).Err? ==> Step(st, line, pathOf, loadOf).error == ValueError
  {
    if StartsWith(line, "@start.") {
      StartIsMarker(line);
    }
  }

  /** The parser raises exactly when some line is a bad marker. */
  lemma {:induction false} FeedFails(st: Scan, lines: seq<string>, pathOf: string -> MultiPath, loadOf: string -> Load)
    ensures Feed(st, lines, pathOf, loadOf).Err? <==> exists i | 0 <= i < |lines| :: BadMarker(lines[i])
    ensures Feed(st, lines, pathOf, loadOf).Err? ==> Feed(st, lines, pathOf, loadOf).error == ValueError
    decreases |lines|
  {
    if |lines| > 0 {
      var n := |lines| - 1;
      FeedFails(st, lines[..n], pathOf, loadOf);
      match Feed(st, lines[..n], pathOf, loadOf)
      case Err(_) =>
        var i :| 0 <= i < n && BadMarker(lines[..n][i]);
        assert BadMarker(lines[i]);
      case Ok(s) =>
        StepFails(s, lines[n], pathOf, loadOf);
        if Feed(st, lines, pathOf, loadOf).Err? {
          assert BadMarker(lines[n]);
        } else {
          forall i | 0 <= i < |lines| ensures !BadMarker(lines[i]) {
            if i < n {
              assert lines[i] == lines[..n][i];
            }
          }
        }
    }
  }

  /** The loop over `a + b` is the loop over `a` followed by the loop over `b`. */
  lemma {:induction false} FeedConcat(st: Scan, a: seq<string>, b: seq<string>, pathOf: string -> MultiPath, loadOf: string -> Load)
    ensures Feed(st, a + b, pathOf, loadOf)
         == match Feed(st, a, pathOf, loadOf) case Err(e) => Err(e) case Ok(s) => Feed(s, b, pathOf, loadOf)
    decreases |b|
  {
    if |b| == 0 {
      assert a + b == a;
    } else {
      var n := |b| - 1;
      assert (a + b)[..|a + b| - 1] == a + b[..n];
      FeedConcat(st, a, b[..n], pathOf, loadOf);
    }
  }

  /** `pathOf` or `loadOf` applied to each line, in order. */
  function Eval<T>(f: string -> T, lines: seq<string>): (r: seq<T>)
    ensures |r| == |lines| && forall i | 0 <= i < |lines| :: r[i] == f(lines[i])
  {
    seq(|lines|, i requires 0 <= i < |lines| => f(lines[i]))
  }

  /**
   * Lines without a leading `@` are collected, in order, into the block the
   * parser is in, and are dropped outside any block.
   */
  lemma {:induction false} FeedData(st: Scan, body: seq<string>, pathOf: string -> MultiPath, loadOf: string -> Load)
    requires forall i | 0 <= i < |body| :: !StartsWith(body[i], "@")
    ensures Feed(st, body, pathOf, loadOf) == Ok(
      match st.current
      case Outside => st
      case InPath => st.(pathb := st.pathb + Eval(pathOf, body))
      case InLoad => st.(loadb := st.loadb + Eval(loadOf, body)))
    decreases |body|
  {
    if |body| > 0 {
      var n := |body| - 1;
      FeedData(st, body[..n], pathOf, loadOf);
      assert !StartsWith(body[n], "@");
      assert Eval(pathOf, body) == Eval(pathOf, body[..n]) + [pathOf(body[n])];
      assert Eval(loadOf, body) == Eval(loadOf, body[..n]) + [loadOf(body[n])];
      var s := Feed(st, body[..n], pathOf, loadOf).value;
      assert Feed(st, body, pathOf, loadOf) == Step(s, body[n], pathOf, loadOf);
      match st.current
      case Outside =>
      case InPath =>
        assert s.pathb + [pathOf(body[n])] == st.pathb + Eval(pathOf, body);
      case InLoad =>
        assert s.loadb + [loadOf(body[n])] == st.loadb + Eval(loadOf, body);
    } else {
      assert Eval(pathOf, body) == [] && Eval(loadOf, body) == [];
      assert st.pathb + [] == st.pathb && st.loadb + [] == st.loadb;
    }
  }

  /** A known start marker switches to its block and keeps what was collected. */
  lemma OpenLine(st: Scan, open: string, pathOf: string -> MultiPath, loadOf: string -> Load)
    requires GoodStart(open)
    ensures Feed(st, [open], pathOf, loadOf) == Ok(st.(current := if EndsWith(open, "path") then InPath else InLoad))
  {
    StartIsMarker(open);
    assert [open][..0] == [];
  }

  /** An end marker leaves the block and keeps what was collected. */
  lemma CloseLine(st: Scan, close: string, pathOf: string -> MultiPath, loadOf: string -> Load)
    requires StartsWith(close, "@end")
    ensures Feed(st, [close], pathOf, loadOf) == Ok(st.(current := Outside))
  {
    assert close[..1] == "@" && close[1] == 'e';
    assert [close][..0] == [];
  }

  /**
   * A whole block: a known start marker, data lines, then an end marker
   * appends the data lines to the marker's block and leaves the parser
   * outside any block.
   */
  lemma BlockRead(st: Scan, open: string, body: seq<string>, close: string, pathOf: string -> MultiPath, loadOf: string -> Load)
    requires GoodStart(open) && StartsWith(close, "@end")
    requires forall i | 0 <= i < |body| :: !StartsWith(body[i], "@")
    ensures Feed(st, [open] + body + [close], pathOf, loadOf) == Ok(
      if EndsWith(open, "path") then Scan(Outside, st.pathb + Eval(pathOf, body), st.loadb)
      else Scan(Outside, st.pathb, st.loadb + Eval(loadOf, body)))
  {
    var s1 := st.(current := if EndsWith(open, "path") then InPath else InLoad);
    OpenLine(st, open, pathOf, loadOf);
    FeedConcat(st, [open], body, pathOf, loadOf);
    FeedData(s1, body, pathOf, loadOf);
    var s2 := Feed(s1, body, pathOf, loadOf).value;
    assert Feed(st, [open] + body, pathOf, loadOf) == Ok(s2);
    FeedConcat(st, [open] + body, [close], pathOf, loadOf);
    CloseLine(s2, close, pathOf, loadOf);
  }

  // ---------------------------------------------------------------- path segments

  /** `sum(multiplepath.values())`. */
  function WeightSum(mp: MultiPath): real
    decreases |mp|
  {
    if |mp| == 0 then 0.0 else WeightSum(mp[..|mp| - 1]) + mp[|mp| - 1].1
  }

  /** The canonical hops `_sort_pair(*path[i:i+2])` of a path, in order. */
  function Hops(path: seq<NodeId>): (r: seq<Pair>)
    ensures |path| >= 2 ==> |r| == |path| - 1
    ensures |path| < 2 ==> r == []
  {
    if |path| < 2 then [] else seq(|path| - 1, i requires 0 <= i < |path| - 1 => SortPair(path[i], path[i + 1]))
  }

  /** Each key of `keys` set to `v`, in order. */
  function Assign(m: map<Pair, real>, keys: seq<Pair>, v: real): map<Pair, real>
    decreases |keys|
  {
    if |keys| == 0 then m else Assign(m, keys[..|keys| - 1], v)[keys[|keys| - 1] := v]
  }

  /** One path of a mapping written over `m`: each hop gets the path's share `weight / ws`. */
  function AddPath(m: map<Pair, real>, path: seq<NodeId>, weight: real, ws: real): Result<map<Pair, real>>
  {
    if |Hops(path)| == 0 then Ok(m)
    else if ws == 0.0 then Err(ZeroDivision)
    else Ok(Assign(m, Hops(path), weight / ws))
  }

  /** The paths of one mapping written over `m`, each hop getting its path's share of the weight sum `ws`. */
  function PathsInto(m: map<Pair, real>, mp: MultiPath, ws: real): Result<map<Pair, real>>
    decreases |mp|
  {
    if |mp| == 0 then Ok(m)
    else
      match PathsInto(m, mp[..|mp| - 1], ws)
      case Err(e) => Err(e)
      case Ok(m') => AddPath(m', mp[|mp| - 1].0, mp[|mp| - 1].1, ws)
  }

  /** The path loop of `parse_state` over the mappings of `pathb`. */
  function SegmentsInto(m: map<Pair, real>, pathb: seq<MultiPath>): Result<map<Pair, real>>
    decreases |pathb|
  {
    if |pathb| == 0 then Ok(m)
    else
      match SegmentsInto(m, pathb[..|pathb| - 1])
      case Err(e) => Err(e)
      case Ok(m') => PathsInto(m', pathb[|pathb| - 1], WeightSum(pathb[|pathb| - 1]))
  }

  /** `ws = sum(...)`. */
  method SumWeights(mp: MultiPath) returns (ws: real)
    ensures ws == WeightSum(mp)
  {
    ws := 0.0;
    for i := 0 to |mp|
      invariant ws == WeightSum(mp[..i])
    {
      assert mp[..i + 1][..i] == mp[..i];
      ws := ws + mp[i].1;
    }
    assert mp[..|mp|] == mp;
  }

  /** `for i in range(len(path)-1): path_segments[...] = weight/ws`, with `ws` known non-zero. */
  method AssignHops(segs: map<Pair, real>, path: seq<NodeId>, v: real) returns (segs': map<Pair, real>)
    ensures segs' == Assign(segs, Hops(path), v)
  {
    segs' := segs;
    if |path| >= 2 {
      var hops := Hops(path);
      for i := 0 to |path| - 1
        invariant segs' == Assign(segs, hops[..i], v)
      {
        assert hops[..i + 1][..i] == hops[..i];
        segs' := segs'[SortPair(path[i], path[i + 1]) := v];
      }
      assert hops[..|path| - 1] == hops;
    }
  }

  /** The loop over one mapping's paths. */
  method AddPaths(segs: map<Pair, real>, mp: MultiPath, ws: real) returns (r: Result<map<Pair, real>>)
    ensures r == PathsInto(segs, mp, ws)
  {
    var cur := segs;
    for j := 0 to |mp|
      invariant PathsInto(segs, mp[..j], ws) == Ok(cur)
    {
      assert mp[..j + 1][..j] == mp[..j];
      var (path, weight) := mp[j];
      if |path| >= 2 {
        if ws == 0.0 {
          PathsStop(segs, mp, j + 1, ws);
          return Err(ZeroDivision);
        }
        cur := AssignHops(cur, path, weight / ws);
      }
    }
    assert mp[..|mp|] == mp;
    r := Ok(cur);
  }

  lemma {:induction false} PathsStop(m: map<Pair, real>, mp: MultiPath, n: nat, ws: real)
    requires n <= |mp| && PathsInto(m, mp[..n], ws).Err?
    ensures PathsInto(m, mp, ws) == PathsInto(m, mp[..n], ws)
    decreases |mp| - n
  {
    if n < |mp| {
      assert mp[..n + 1][..n] == mp[..n];
      PathsStop(m, mp, n + 1, ws);
    } else {
      assert mp[..n] == mp;
    }
  }

  lemma {:induction false} SegmentsStop(m: map<Pair, real>, pathb: seq<MultiPath>, n: nat)
    requires n <= |pathb| && SegmentsInto(m, pathb[..n]).Err?
    ensures SegmentsInto(m, pathb) == SegmentsInto(m, pathb[..n])
    decreases |pathb| - n
  {
    if n < |pathb| {
      assert pathb[..n + 1][..n] == pathb[..n];
      SegmentsStop(m, pathb, n + 1);
    } else {
      assert pathb[..n] == pathb;
    }
  }

  /** The loop `for multiplepath in pathb`. */
  method PathSegments(pathb: seq<MultiPath>) returns (r: Result<map<Pair, real>>)
    ensures r == SegmentsInto(map[], pathb)
  {
    var segs: map<Pair, real> := map[];
    for k := 0 to |pathb|
      invariant SegmentsInto(map[], pathb[..k]) == Ok(segs)
    {
      assert pathb[..k + 1][..k] == pathb[..k];
      var ws := SumWeights(pathb[k]);
      var step := AddPaths(segs, pathb[k], ws);
      if step.Err? {
        SegmentsStop(map[], pathb, k + 1);
        return step;
      }
      segs := step.value;
    }
    assert pathb[..|pathb|] == pathb;
    r := Ok(segs);
  }

  /** After `Assign`, the listed keys hold `v` and every other key keeps its value. */
  lemma {:induction false} AssignValues(m: map<Pair, real>, keys: seq<Pair>, v: real, k: Pair)
    ensures k in Assign(m, keys, v) <==> k in m || k in keys
    ensures k in keys ==> Assign(m, keys, v)[k] == v
    ensures k !in keys && k in m ==> Assign(m, keys, v)[k] == m[k]
    decreases |keys|
  {
    if |keys| > 0 {
      var n := |keys| - 1;
      AssignValues(m, keys[..n], v, k);
      assert keys == keys[..n] + [keys[n]];
    }
  }

  /** One path raises exactly when it has a hop and the weights sum to zero; otherwise its hops get its share. */
  lemma AddPathValues(m: map<Pair, real>, path: seq<NodeId>, weight: real, ws: real, k: Pair)
    ensures AddPath(m, path, weight, ws).Err? <==> |path| >= 2 && ws == 0.0
    ensures AddPath(m, path, weight, ws).Err? ==> AddPath(m, path, weight, ws).error == ZeroDivision
    ensures AddPath(m, path, weight, ws).Ok? ==>
      var r := AddPath(m, path, weight, ws).value;
      && (k in r <==> k in m || k in Hops(path))
      && (k in Hops(path) ==> r[k] == weight / ws)
      && (k !in Hops(path) && k in m ==> r[k] == m[k])
  {
    if |Hops(path)| > 0 && ws != 0.0 {
      AssignValues(m, Hops(path), weight / ws, k);
    }
  }

  /** Some path of the mapping has a hop. */
  predicate HasHop(mp: MultiPath)
  {
    exists j | 0 <= j < |mp| :: |mp[j].0| >= 2
  }

  lemma HasHopSnoc(mp: MultiPath)
    requires |mp| > 0
    ensures HasHop(mp) <==> HasHop(mp[..|mp| - 1]) || |mp[|mp| - 1].0| >= 2
  {
    var n := |mp| - 1;
    if HasHop(mp[..n]) {
      var j :| 0 <= j < n && |mp[..n][j].0| >= 2;
      assert |mp[j].0| >= 2;
    }
    if HasHop(mp) {
      var j :| 0 <= j < |mp| && |mp[j].0| >= 2;
      if j < n {
        assert |mp[..n][j].0| >= 2;
      }
    }
  }

  /** A mapping raises exactly when its weights sum to zero and one of its paths has a hop. */
  lemma {:induction false} PathsFail(m: map<Pair, real>, mp: MultiPath, ws: real)
    ensures PathsInto(m, mp, ws).Err? <==> ws == 0.0 && HasHop(mp)
    ensures PathsInto(m, mp, ws).Err? ==> PathsInto(m, mp, ws).error == ZeroDivision
    decreases |mp|
  {
    if |mp| > 0 {
      var n := |mp| - 1;
      PathsFail(m, mp[..n], ws);
      HasHopSnoc(mp);
      var prev := PathsInto(m, mp[..n], ws);
      if prev.Ok? {
        AddPathValues(prev.value, mp[n].0, mp[n].1, ws, SortPair(HostName(0), HostName(0)));
      }
    }
  }

  /** Key `k` is a hop of some path of the mapping. */
  predicate HopOf(mp: MultiPath, k: Pair)
    decreases |mp|
  {
    |mp| > 0 && (HopOf(mp[..|mp| - 1], k) || k in Hops(mp[|mp| - 1].0))
  }

  /**
   * When a mapping's paths are written without error, exactly the hops of its
   * paths are added, the hops of its last path get that path's share, and
   * keys of no path keep their value.
   */
  lemma {:induction false} PathsWrite(m: map<Pair, real>, mp: MultiPath, ws: real, k: Pair)
    requires PathsInto(m, mp, ws).Ok?
    ensures k in PathsInto(m, mp, ws).value <==> k in m || HopOf(mp, k)
    ensures !HopOf(mp, k) && k in m ==> PathsInto(m, mp, ws).value[k] == m[k]
    ensures |mp| > 0 && k in Hops(mp[|mp| - 1].0) ==> PathsInto(m, mp, ws).value[k] == mp[|mp| - 1].1 / ws
    decreases |mp|
  {
    if |mp| > 0 {
      var n := |mp| - 1;
      PathsWrite(m, mp[..n], ws, k);
      AddPathValues(PathsInto(m, mp[..n], ws).value, mp[n].0, mp[n].1, ws, k);
    }
  }

  lemma {:induction false} WeightSumNonNegative(mp: MultiPath)
    requires forall i | 0 <= i < |mp| :: mp[i].1 >= 0.0
    ensures WeightSum(mp) >= 0.0
    decreases |mp|
  {
    if |mp| > 0 {
      WeightSumNonNegative(mp[..|mp| - 1]);
    }
  }

  /** With non-negative weights each weight is at most the sum. */
  lemma {:induction false} WeightSumBound(mp: MultiPath, j: nat)
    requires forall i | 0 <= i < |mp| :: mp[i].1 >= 0.0
    requires j < |mp|
    ensures 0.0 <= mp[j].1 <= WeightSum(mp)
    decreases |mp|
  {
    var n := |mp| - 1;
    WeightSumNonNegative(mp[..n]);
    if j < n {
      WeightSumBound(mp[..n], j);
    }
  }

  /** A share of a non-negative weight in a sum at least as large is a fraction. */
  lemma ShareBound(weight: real, ws: real)
    requires 0.0 <= weight <= ws && ws != 0.0
    ensures 0.0 <= weight / ws <= 1.0
  {
    assert weight / ws * ws == weight;
  }

  /** Every share the first `n` paths write is some path's weight over `ws`, or an old value. */
  lemma {:induction false} PathsShare(m: map<Pair, real>, mp: MultiPath, ws: real, n: nat, k: Pair)
    requires forall i | 0 <= i < |mp| :: mp[i].1 >= 0.0
    requires ws == WeightSum(mp)
    requires forall q | q in m :: 0.0 <= m[q] <= 1.0
    requires n <= |mp| && PathsInto(m, mp[..n], ws).Ok? && k in PathsInto(m, mp[..n], ws).value
    ensures 0.0 <= PathsInto(m, mp[..n], ws).value[k] <= 1.0
    decreases n
  {
    if n > 0 {
      assert mp[..n][..n - 1] == mp[..n - 1];
      var prev := PathsInto(m, mp[..n - 1], ws);
      AddPathValues(prev.value, mp[n - 1].0, mp[n - 1].1, ws, k);
      if k in Hops(mp[n - 1].0) {
        WeightSumBound(mp, n - 1);
        ShareBound(mp[n - 1].1, ws);
      } else {
        PathsShare(m, mp, ws, n - 1, k);
      }
    }
  }

  /** With non-negative weights every share in the result is a fraction between 0 and 1. */
  lemma SharesAreFractions(m: map<Pair, real>, mp: MultiPath, k: Pair)
    requires forall i | 0 <= i < |mp| :: mp[i].1 >= 0.0
    requires forall q | q in m :: 0.0 <= m[q] <= 1.0
    requires PathsInto(m, mp, WeightSum(mp)).Ok? && k in PathsInto(m, mp, WeightSum(mp)).value
    ensures 0.0 <= PathsInto(m, mp, WeightSum(mp)).value[k] <= 1.0
  {
    assert mp[..|mp|] == mp;
    PathsShare(m, mp, WeightSum(mp), |mp|, k);
  }

  /** Some mapping of `pathb` has a path with a hop while its weights sum to zero. */
  predicate ZeroMapping(pathb: seq<MultiPath>)
  {
    exists b | 0 <= b < |pathb| :: WeightSum(pathb[b]) == 0.0 && HasHop(pathb[b])
  }

  lemma ZeroMappingSnoc(pathb: seq<MultiPath>)
    requires |pathb| > 0
    ensures ZeroMapping(pathb) <==> ZeroMapping(pathb[..|pathb| - 1]) || (WeightSum(pathb[|pathb| - 1]) == 0.0 && HasHop(pathb[|pathb| - 1]))
  {
    var n := |pathb| - 1;
    if ZeroMapping(pathb[..n]) {
      var b :| 0 <= b < n && WeightSum(pathb[..n][b]) == 0.0 && HasHop(pathb[..n][b]);
      assert pathb[..n][b] == pathb[b];
    }
    if ZeroMapping(pathb) {
      var b :| 0 <= b < |pathb| && WeightSum(pathb[b]) == 0.0 && HasHop(pathb[b]);
      if b < n {
        assert pathb[..n][b] == pathb[b];
      }
    }
  }

  /** The whole path loop raises exactly when some mapping with a hop has weights summing to zero. */
  lemma {:induction false} SegmentsFail(m: map<Pair, real>, pathb: seq<MultiPath>)
    ensures SegmentsInto(m, pathb).Err? <==> ZeroMapping(pathb)
    ensures SegmentsInto(m, pathb).Err? ==> SegmentsInto(m, pathb).error == ZeroDivision
    decreases |pathb|
  {
    if |pathb| > 0 {
      var n := |pathb| - 1;
      SegmentsFail(m, pathb[..n]);
      ZeroMappingSnoc(pathb);
      var prev := SegmentsInto(m, pathb[..n]);
      if prev.Ok? {
        PathsFail(prev.value, pathb[n], WeightSum(pathb[n]));
      }
    }
  }

  // ---------------------------------------------------------------- loads

  function LoadKey(l: Load): Pair { SortPair(l.0, l.1) }

  /** `loads[_sort_pair(load[0], load[1])] = load[2]` for each load in turn. */
  function LoadsOf(loadb: seq<Load>): map<Pair, real>
    decreases |loadb|
  {
    if |loadb| == 0 then map[] else LoadsOf(loadb[..|loadb| - 1])[LoadKey(loadb[|loadb| - 1]) := loadb[|loadb| - 1].2]
  }

  /** The loop `for load in loadb`. */
  method Loads(loadb: seq<Load>) returns (loads: map<Pair, real>)
    ensures loads == LoadsOf(loadb)
  {
    loads := map[];
    for i := 0 to |loadb|
      invariant loads == LoadsOf(loadb[..i])
    {
      assert loadb[..i + 1][..i] == loadb[..i];
      loads := loads[SortPair(loadb[i].0, loadb[i].1) := loadb[i].2];
    }
    assert loadb[..|loadb|] == loadb;
  }

  /** A pair has a load exactly when some load line names it, and it keeps the load of the last such line. */
  lemma {:induction false} LoadsLastWins(loadb: seq<Load>, k: Pair)
    ensures k in LoadsOf(loadb) <==> exists i | 0 <= i < |loadb| :: LoadKey(loadb[i]) == k
    ensures k in LoadsOf(loadb) ==> exists i | 0 <= i < |loadb| ::
      && LoadKey(loadb[i]) == k && LoadsOf(loadb)[k] == loadb[i].2
      && forall j | i < j < |loadb| :: LoadKey(loadb[j]) != k
    decreases |loadb|
  {
    if |loadb| > 0 {
      var n := |loadb| - 1;
      var prefix := loadb[..n];
      LoadsLastWins(prefix, k);
      if LoadKey(loadb[n]) == k {
        assert LoadsOf(loadb)[k] == loadb[n].2;
      } else {
        if k in LoadsOf(loadb) {
          var i :| 0 <= i < n && LoadKey(prefix[i]) == k && LoadsOf(prefix)[k] == prefix[i].2
                   && forall j | i < j < n :: LoadKey(prefix[j]) != k;
          assert LoadKey(loadb[i]) == k && LoadsOf(loadb)[k] == loadb[i].2;
          assert forall j | i < j < |loadb| :: LoadKey(loadb[j]) != k by {
            forall j | i < j < |loadb| ensures LoadKey(loadb[j]) != k {
              if j < n { assert loadb[j] == prefix[j]; }
            }
          }
        } else {
          forall i | 0 <= i < |loadb| ensures LoadKey(loadb[i]) != k {
            if i < n { assert loadb[i] == prefix[i]; }
          }
        }
      }
    }
  }

  // ---------------------------------------------------------------- the whole parser

  datatype State = State(pathb: seq<MultiPath>, segments: map<Pair, real>, loads: map<Pair, real>)

  /** What `parse_state` returns for the given lines, or the exception it raises. */
  function ParseStateOf(lines: seq<string>, pathOf: string -> MultiPath, loadOf: string -> Load): Result<State>
  {
    match Feed(Start, lines, pathOf, loadOf)
    case Err(e) => Err(e)
    case Ok(st) =>
      match SegmentsInto(map[], st.pathb)
      case Err(e) => Err(e)
      case Ok(segs) => Ok(State(st.pathb, segs, LoadsOf(st.loadb)))
  }

  /** `parse_state(s)`, given `s.splitlines()`. */
  method ParseState(lines: seq<string>, pathOf: string -> MultiPath, loadOf: string -> Load) returns (r: Result<State>)
    ensures r == ParseStateOf(lines, pathOf, loadOf)
  {
    var scan := ScanBlocks(lines, pathOf, loadOf);
    if scan.Err? {
      return Err(scan.error);
    }
    var segs := PathSegments(scan.value.pathb);
    if segs.Err? {
      return Err(segs.error);
    }
    var loads := Loads(scan.value.loadb);
    r := Ok(State(scan.value.pathb, segs.value, loads));
  }

  /**
   * `parse_state` raises `ValueError` exactly when some line is an unknown
   * command or block start; once every line is accepted it raises only when a
   * multipath with a hop has weights summing to zero.
   */
  lemma ParseStateFails(lines: seq<string>, pathOf: string -> MultiPath, loadOf: string -> Load)
    ensures (exists i | 0 <= i < |lines| :: BadMarker(lines[i])) <==> ParseStateOf(lines, pathOf, loadOf) == Err(ValueError)
    ensures Feed(Start, lines, pathOf, loadOf).Ok? ==>
      (ParseStateOf(lines, pathOf, loadOf).Err? <==> ZeroMapping(Feed(Start, lines, pathOf, loadOf).value.pathb))
  {
    FeedFails(Start, lines, pathOf, loadOf);
    var scan := Feed(Start, lines, pathOf, loadOf);
    if scan.Ok? {
      SegmentsFail(map[], scan.value.pathb);
    }
  }
}
