/**
 * topocreatedcell.py: five cells, each one switch with four hosts, and the
 * inter-cell pairing loop of `create_topo`, which links every cell to every
 * later one through hosts no earlier link has used. The pairing is stated on
 * any five rows of four distinct nodes, so that the switched variant
 * (topocreatedcellswitched.py), whose loop is the same, uses it on its leaf
 * switches.
 */
module DCell {
  import opened Wrappers
  import opened NodePair
  import opened Counter
  import opened Topology

  const Speed := 1
  const Hpc := 4
  const Cells := Hpc + 1

  // ---------------------------------------------------------------- circular_rshift

  /** `circular_rshift(sbs, i)`: the list rotated to start at `i % len(sbs)`; an empty list divides by zero. */
  function CircularRShift<T>(sbs: seq<T>, i: int): Result<seq<T>>
  {
    if |sbs| == 0 then Err(ZeroDivision)
    else
      var ai := i % |sbs|;
      Ok(sbs[ai..] + sbs[..ai])
  }

  /** Python's `%` by a positive divisor is Dafny's: the remainder is the unique one in `[0, n)`. */
  lemma {:induction false} ModUnique(x: int, n: int, q: int, r: int)
    requires n > 0 && 0 <= r < n && x == n * q + r
    ensures x % n == r
  {
    var q' := x / n;
    if q' > q {
      MulAtLeast(n, q' - q);
    } else if q' < q {
      MulAtLeast(n, q - q');
    }
  }

  lemma MulAtLeast(n: nat, d: int)
    requires d >= 1
    ensures n * d >= n
  {
  }

  /** Position `m` of the rotated list holds the element `i + m` places round the original. */
  lemma RShiftIndex<T>(sbs: seq<T>, i: int, m: nat)
    requires m < |sbs|
    ensures CircularRShift(sbs, i).Ok? && |CircularRShift(sbs, i).value| == |sbs|
    ensures CircularRShift(sbs, i).value[m] == sbs[(i + m) % |sbs|]
  {
    var n := |sbs|;
    var ai := i % n;
    var r := CircularRShift(sbs, i).value;
    assert i == n * (i / n) + ai;
    if m < n - ai {
      assert r[m] == sbs[ai + m];
      ModUnique(i + m, n, i / n, ai + m);
    } else {
      assert r[m] == sbs[m - (n - ai)];
      assert i + m == n * (i / n + 1) + (m - (n - ai));
      ModUnique(i + m, n, i / n + 1, m - (n - ai));
    }
  }

  /** Rotation keeps the elements: only an empty list fails, and then with `ZeroDivisionError`. */
  lemma RShiftPermutes<T>(sbs: seq<T>, i: int)
    ensures CircularRShift(sbs, i).Ok? <==> |sbs| > 0
    ensures CircularRShift(sbs, i).Err? ==> CircularRShift(sbs, i).error == ZeroDivision
    ensures CircularRShift(sbs, i).Ok? ==> multiset(CircularRShift(sbs, i).value) == multiset(sbs)
  {
    if |sbs| > 0 {
      var ai := i % |sbs|;
      assert sbs == sbs[..ai] + sbs[ai..];
    }
  }

  /** Rotating by a whole number of turns changes nothing. */
  lemma RShiftFullTurn<T>(sbs: seq<T>, t: int)
    requires |sbs| > 0
    ensures CircularRShift(sbs, |sbs| * t) == Ok(sbs)
  {
    ModUnique(|sbs| * t, |sbs|, t, 0);
    assert sbs[0..] + sbs[..0] == sbs;
  }

  // ---------------------------------------------------------------- the pairing loop

  /** Five rows of four nodes each: `stategic` once every cell is built. */
  predicate Shaped(rows: seq<seq<NodeId>>)
  {
    |rows| == Cells && forall c | 0 <= c < Cells :: |rows[c]| == Hpc
  }

  /** No node occurs twice in the rows. */
  predicate Grid(rows: seq<seq<NodeId>>)
  {
    Shaped(rows)
    && forall c1, p1, c2, p2 | 0 <= c1 < Cells && 0 <= p1 < Hpc && 0 <= c2 < Cells && 0 <= p2 < Hpc
         && rows[c1][p1] == rows[c2][p2] :: c1 == c2 && p1 == p2
  }

  /**
   * `filter_not(processed.__contains__, cell)`: the nodes of `cell` no link
   * has used yet, in order.
   */
  function Unprocessed(cell: seq<NodeId>, processed: seq<NodeId>): (r: seq<NodeId>)
    ensures forall x :: x in r <==> x in cell && x !in processed
    ensures r == [] <==> forall x | x in cell :: x in processed
  {
    if |cell| == 0 then []
    else (if cell[0] in processed then [] else [cell[0]]) + Unprocessed(cell[1..], processed)
  }

  /** When exactly the first `p` nodes of a cell are used, the unused ones are the rest of the cell. */
  lemma {:induction false} UnprocessedSuffix(cell: seq<NodeId>, processed: seq<NodeId>, p: nat)
    requires p <= |cell|
    requires forall q | 0 <= q < |cell| :: cell[q] in processed <==> q < p
    ensures Unprocessed(cell, processed) == cell[p..]
    decreases |cell|
  {
    if |cell| > 0 {
      if p > 0 {
        UnprocessedSuffix(cell[1..], processed, p - 1);
        assert cell[1..][p - 1..] == cell[p..];
      } else {
        UnprocessedSuffix(cell[1..], processed, 0);
        assert cell == [cell[0]] + cell[1..];
      }
    }
  }

  /**
   * Whether node `p` of cell `c` has been used once cell `i` has made `k` of
   * its links: an earlier cell's are all used; of cell `i`, its first `i`
   * (one to each earlier cell) and the `k` it has linked since; of a later
   * cell, its first `i`, and node `i` too if cell `i` has reached it.
   */
  predicate Used(i: nat, k: nat, c: nat, p: nat)
  {
    if c < i then true
    else if c == i then p < i + k
    else p < i || (p == i && c <= i + k)
  }

  /** `processed` holds exactly the used nodes. */
  predicate Marked(rows: seq<seq<NodeId>>, processed: seq<NodeId>, i: nat, k: nat)
    requires Shaped(rows)
  {
    forall c, p | 0 <= c < Cells && 0 <= p < Hpc :: rows[c][p] in processed <==> Used(i, k, c, p)
  }

  /** The `k` links cell `i` makes first: its node `i + m` to node `i` of cell `i + 1 + m`. */
  function CellPairs(rows: seq<seq<NodeId>>, i: nat, k: nat): (r: seq<Link>)
    requires Shaped(rows) && i + k <= Hpc
    ensures |r| == k
    ensures forall m | 0 <= m < k :: r[m] == Link(rows[i][i + m], rows[i + 1 + m][i], Speed)
  {
    seq(k, m requires 0 <= m < k => Link(rows[i][i + m], rows[i + 1 + m][i], Speed))
  }

  /** The links of the first `i` cells of the pairing loop. */
  function CrossUpTo(rows: seq<seq<NodeId>>, i: nat): seq<Link>
    requires Shaped(rows) && i <= Cells
  {
    if i == 0 then [] else CrossUpTo(rows, i - 1) + CellPairs(rows, i - 1, Hpc - (i - 1))
  }

  /** Every inter-cell link: for cells `i < j`, node `j - 1` of cell `i` with node `i` of cell `j`. */
  function Cross(rows: seq<seq<NodeId>>): seq<Link>
    requires Shaped(rows)
  {
    CrossUpTo(rows, Cells)
  }

  /** The loop guard `not all(map(processed.__contains__, cell))` holds while cell `i` has links to make. */
  lemma GuardIff(rows: seq<seq<NodeId>>, processed: seq<NodeId>, i: nat, k: nat)
    requires Grid(rows) && i < Cells && i + k <= Hpc && Marked(rows, processed, i, k)
    ensures Unprocessed(rows[i], processed) != [] <==> i + k < Hpc
  {
    if i + k < Hpc {
      assert rows[i][i + k] in Unprocessed(rows[i], processed);
    } else {
      forall x | x in rows[i] ensures x in processed {
        var p :| 0 <= p < Hpc && rows[i][p] == x;
        assert Used(i, k, i, p);
      }
    }
  }

  /** The nodes the loop picks next: `h1` from cell `i`, `h2` from cell `i + 1 + k`. */
  lemma PickedNodes(rows: seq<seq<NodeId>>, processed: seq<NodeId>, i: nat, k: nat)
    requires Grid(rows) && i + k < Hpc && Marked(rows, processed, i, k)
    ensures Unprocessed(rows[i], processed) == rows[i][i + k..]
    ensures Unprocessed(rows[i + 1 + k], processed) == rows[i + 1 + k][i..]
    ensures Unprocessed(rows[i], processed) != [] && Unprocessed(rows[i], processed)[0] == rows[i][i + k]
    ensures Unprocessed(rows[i + 1 + k], processed) != [] && Unprocessed(rows[i + 1 + k], processed)[0] == rows[i + 1 + k][i]
  {
    UnprocessedSuffix(rows[i], processed, i + k);
    UnprocessedSuffix(rows[i + 1 + k], processed, i);
  }

  /** Using `h1` and `h2` marks one more link of cell `i`. */
  lemma {:induction false} MarkedStep(rows: seq<seq<NodeId>>, processed: seq<NodeId>, i: nat, k: nat)
    requires Grid(rows) && i + k < Hpc && Marked(rows, processed, i, k)
    ensures Marked(rows, processed + [rows[i][i + k], rows[i + 1 + k][i]], i, k + 1)
  {
    var h1, h2 := rows[i][i + k], rows[i + 1 + k][i];
    forall c, p | 0 <= c < Cells && 0 <= p < Hpc
      ensures rows[c][p] in processed + [h1, h2] <==> Used(i, k + 1, c, p)
    {
      assert rows[c][p] == h1 <==> c == i && p == i + k;
      assert rows[c][p] == h2 <==> c == i + 1 + k && p == i;
    }
  }

  /** A cell with all its links made leaves the marks where the next cell starts. */
  lemma MarkedNext(rows: seq<seq<NodeId>>, processed: seq<NodeId>, i: nat)
    requires Shaped(rows) && i < Cells && Marked(rows, processed, i, Hpc - i)
    ensures Marked(rows, processed, i + 1, 0)
  {
  }

  /** The `for j, cell2 in enumerate(stategic)` search: the first later cell this cell has not linked to yet. */
  method NextCell(i: nat, taken: seq<nat>) returns (j: nat)
    requires i < Cells
    ensures i < j <= Cells
    ensures j < Cells ==> j !in taken
    ensures forall j' | i < j' < j :: j' in taken
  {
    j := Cells;
    for m := 0 to Cells
      invariant forall j' | i < j' < m :: j' in taken
    {
      if i >= m {
        continue;
      }
      if m in taken {
        continue;
      }
      j := m;
      break;
    }
  }

  /** What holds between iterations of the `while` loop of cell `i`, after `|taken|` of its links. */
  predicate Pairing(rows: seq<seq<NodeId>>, i: nat, base: seq<Link>, taken: seq<nat>, links: seq<Link>, processed: seq<NodeId>)
  {
    Grid(rows) && i < Cells && i + |taken| <= Hpc
    && (forall j | 0 <= j < Cells :: j in taken <==> i < j <= i + |taken|)
    && Marked(rows, processed, i, |taken|)
    && links == base + CellPairs(rows, i, |taken|)
  }

  lemma CellPairsSnoc(rows: seq<seq<NodeId>>, i: nat, k: nat)
    requires Shaped(rows) && i + k < Hpc
    ensures CellPairs(rows, i, k + 1) == CellPairs(rows, i, k) + [Link(rows[i][i + k], rows[i + 1 + k][i], Speed)]
  {
    assert CellPairs(rows, i, k + 1) == CellPairs(rows, i, k) + [Link(rows[i][i + k], rows[i + 1 + k][i], Speed)];
  }

  lemma {:induction false} GridEq(rows: seq<seq<NodeId>>, c1: nat, p1: nat, c2: nat, p2: nat)
    requires Grid(rows) && c1 < Cells && p1 < Hpc && c2 < Cells && p2 < Hpc
    ensures rows[c1][p1] == rows[c2][p2] <==> c1 == c2 && p1 == p2
  {
  }

  /** Linking node `i + k` of cell `i` to node `i` of cell `i + 1 + k` keeps the loop's invariant. */
  lemma {:induction false} PairingStep(rows: seq<seq<NodeId>>, i: nat, base: seq<Link>, taken: seq<nat>, links: seq<Link>, processed: seq<NodeId>,
                                       h1: NodeId, j: nat, h2: NodeId)
    requires Pairing(rows, i, base, taken, links, processed) && i + |taken| < Hpc
    requires j == i + 1 + |taken| && h1 == rows[i][i + |taken|] && h2 == rows[j][i]
    ensures Pairing(rows, i, base, taken + [j], links + [Link(h1, h2, Speed)], processed + [h1, h2])
  {
    var k := |taken|;
    MarkedStep(rows, processed, i, k);
    CellPairsSnoc(rows, i, k);
    var taken' := taken + [j];
    forall j' | 0 <= j' < Cells ensures j' in taken' <==> i < j' <= i + |taken'| {
      assert j' in taken' <==> j' in taken || j' == j;
    }
  }

  /** The search finds the cell right after the `|taken|` already linked. */
  lemma {:induction false} FirstFree(i: nat, taken: seq<nat>, j: nat)
    requires i + 1 + |taken| < Cells && (forall j' | 0 <= j' < Cells :: j' in taken <==> i < j' <= i + |taken|)
    requires i < j <= Cells && (j < Cells ==> j !in taken) && (forall j' | i < j' < j :: j' in taken)
    ensures j == i + 1 + |taken|
  {
    assert i + 1 + |taken| !in taken;
  }

  /** What one turn of the loop finds: `h1` and `h2` are the next unused nodes of cell `i` and of cell `i + 1 + |taken|`. */
  lemma Picked(rows: seq<seq<NodeId>>, i: nat, k: nat, processed: seq<NodeId>)
    requires Grid(rows) && i < Cells && i + k <= Hpc
    requires Marked(rows, processed, i, k) && Unprocessed(rows[i], processed) != []
    ensures i + k < Hpc
    ensures Unprocessed(rows[i], processed)[0] == rows[i][i + k]
    ensures Unprocessed(rows[i + 1 + k], processed) != [] && Unprocessed(rows[i + 1 + k], processed)[0] == rows[i + 1 + k][i]
  {
    GuardIff(rows, processed, i, k);
    PickedNodes(rows, processed, i, k);
  }

  /** One turn of the `while` loop: `h1` from this cell, `h2` from the first later cell not linked yet. */
  method PairOnce(rows: seq<seq<NodeId>>, i: nat, ghost base: seq<Link>, taken: seq<nat>, links: seq<Link>, processed: seq<NodeId>)
    returns (taken': seq<nat>, links': seq<Link>, processed': seq<NodeId>)
    requires Pairing(rows, i, base, taken, links, processed) && Unprocessed(rows[i], processed) != []
    ensures Pairing(rows, i, base, taken', links', processed') && |taken'| == |taken| + 1
  {
    var j := NextCell(i, taken);
    Picked(rows, i, |taken|, processed);
    FirstFree(i, taken, j);
    var h1 := Unprocessed(rows[i], processed)[0];
    var h2 := Unprocessed(rows[j], processed)[0];
    PairingStep(rows, i, base, taken, links, processed, h1, j, h2);
    links' := links + [Link(h1, h2, Speed)];
    processed' := processed + [h1, h2];
    taken' := taken + [j];
  }

  /** The `while` loop for cell `i`: one link to each later cell, through nodes no link has used. */
  method PairCell(rows: seq<seq<NodeId>>, i: nat, links: seq<Link>, processed: seq<NodeId>)
    returns (links': seq<Link>, processed': seq<NodeId>)
    requires Grid(rows) && i < Cells && Marked(rows, processed, i, 0)
    ensures links' == links + CellPairs(rows, i, Hpc - i)
    ensures Marked(rows, processed', i + 1, 0)
  {
    var cell := rows[i];
    var taken: seq<nat> := [];
    links', processed' := links, processed;
    while Unprocessed(cell, processed') != []
      invariant Pairing(rows, i, links, taken, links', processed')
      decreases Hpc - |taken|
    {
      taken, links', processed' := PairOnce(rows, i, links, taken, links', processed');
    }
    GuardIff(rows, processed', i, |taken|);
    MarkedNext(rows, processed', i);
  }

  /** The `for i, cell in enumerate(stategic)` loop: every cell in turn pairs with the cells after it. */
  method CrossLinks(rows: seq<seq<NodeId>>, links: seq<Link>) returns (links': seq<Link>)
    requires Grid(rows)
    ensures links' == links + Cross(rows)
  {
    var processed: seq<NodeId> := [];
    links' := links;
    for i := 0 to Cells
      invariant Marked(rows, processed, i, 0)
      invariant links' == links + CrossUpTo(rows, i)
    {
      links', processed := PairCell(rows, i, links', processed);
    }
  }

  // ---------------------------------------------------------------- what the pairing links

  /** The pairing makes 4 + 3 + 2 + 1 links. */
  lemma CrossLength(rows: seq<seq<NodeId>>)
    requires Shaped(rows)
    ensures |Cross(rows)| == 10
  {
    assert |CrossUpTo(rows, 1)| == 4;
    assert |CrossUpTo(rows, 2)| == 7;
    assert |CrossUpTo(rows, 3)| == 9;
    assert |CrossUpTo(rows, 4)| == 10;
  }

  lemma {:induction false} CrossGrows(rows: seq<seq<NodeId>>, a: nat, b: nat, x: Link)
    requires Shaped(rows) && a <= b <= Cells && x in CrossUpTo(rows, a)
    ensures x in CrossUpTo(rows, b)
    decreases b
  {
    if a < b {
      CrossGrows(rows, a, b - 1, x);
    }
  }

  /** Every two cells `i < j` are linked, node `j - 1` of cell `i` to node `i` of cell `j`. */
  lemma CrossPair(rows: seq<seq<NodeId>>, i: nat, j: nat)
    requires Shaped(rows) && i < j < Cells
    ensures Link(rows[i][j - 1], rows[j][i], Speed) in Cross(rows)
  {
    var own := CellPairs(rows, i, Hpc - i);
    assert own[j - 1 - i] == Link(rows[i][j - 1], rows[j][i], Speed);
    assert CrossUpTo(rows, i + 1) == CrossUpTo(rows, i) + own;
    CrossGrows(rows, i + 1, Cells, Link(rows[i][j - 1], rows[j][i], Speed));
  }

  /** After cell `i` has made `k` links, each node is an end of one of them exactly when it is used. */
  lemma {:induction false} DoneDegree(rows: seq<seq<NodeId>>, i: nat, k: nat, c: nat, p: nat)
    requires Grid(rows) && i < Cells && i + k <= Hpc && c < Cells && p < Hpc
    ensures Degree(CrossUpTo(rows, i) + CellPairs(rows, i, k), rows[c][p]) == if Used(i, k, c, p) then 1 else 0
    decreases i, k, 1
  {
    if k > 0 {
      DoneDegreeStep(rows, i, k, c, p);
    } else if i > 0 {
      assert CrossUpTo(rows, i) + CellPairs(rows, i, 0) == CrossUpTo(rows, i - 1) + CellPairs(rows, i - 1, Hpc - (i - 1));
      DoneDegree(rows, i - 1, Hpc - (i - 1), c, p);
    } else {
      assert CrossUpTo(rows, 0) + CellPairs(rows, 0, 0) == [];
    }
  }

  lemma {:induction false} DoneDegreeStep(rows: seq<seq<NodeId>>, i: nat, k: nat, c: nat, p: nat)
    requires Grid(rows) && i < Cells && 0 < k && i + k <= Hpc && c < Cells && p < Hpc
    ensures Degree(CrossUpTo(rows, i) + CellPairs(rows, i, k), rows[c][p]) == if Used(i, k, c, p) then 1 else 0
    decreases i, k, 0
  {
    var x := rows[c][p];
    var last := Link(rows[i][i + k - 1], rows[i + k][i], Speed);
    var init := CrossUpTo(rows, i) + CellPairs(rows, i, k - 1);
    CellPairsSnoc(rows, i, k - 1);
    assert CrossUpTo(rows, i) + CellPairs(rows, i, k) == init + [last];
    DegreeSnoc(init, last, x);
    DoneDegree(rows, i, k - 1, c, p);
    GridEq(rows, c, p, i, i + k - 1);
    GridEq(rows, c, p, i + k, i);
  }

  /** Every node of the rows is an end of exactly one inter-cell link. */
  lemma CrossDegree(rows: seq<seq<NodeId>>, c: nat, p: nat)
    requires Grid(rows) && c < Cells && p < Hpc
    ensures Degree(Cross(rows), rows[c][p]) == 1
  {
    DoneDegree(rows, Cells - 1, 0, c, p);
    assert Cross(rows) == CrossUpTo(rows, Cells - 1) + CellPairs(rows, Cells - 1, Hpc - (Cells - 1));
    assert CellPairs(rows, Cells - 1, Hpc - (Cells - 1)) == CellPairs(rows, Cells - 1, 0);
  }

  // ---------------------------------------------------------------- the DCell builder

  /** The links of the cell drawn when the counters stand at `h0` and `s0`: `sew_rows([sw], hosts)`. */
  function CellLinks(h0: nat, s0: nat): (r: seq<Link>)
    ensures |r| == Hpc
  {
    Fan(SwitchName(s0 + 1), HostNames(h0, Hpc), Speed)
  }

  /** The links of the first `n` cells. */
  function CellsLinks(h0: nat, s0: nat, n: nat): (r: seq<Link>)
    ensures |r| == 4 * n
  {
    if n == 0 then [] else CellsLinks(h0, s0, n - 1) + CellLinks(h0 + 4 * (n - 1), s0 + n - 1)
  }

  /** `stategic`: the hosts of each of the first `n` cells. */
  function HostRows(h0: nat, n: nat): (r: seq<seq<NodeId>>)
    ensures |r| == n && forall c | 0 <= c < n :: r[c] == HostNames(h0 + 4 * c, Hpc)
  {
    seq(n, c requires 0 <= c < n => HostNames(h0 + 4 * c, Hpc))
  }

  /** What `create_topo()` returns when the counters stand at `h0` and `s0`. */
  function DCellTopo(h0: nat, s0: nat): Topo
  {
    HostRowsGrid(h0);
    Topo(HostNames(h0, 4 * Cells), SwitchNames(s0, Cells), CellsLinks(h0, s0, Cells) + Cross(HostRows(h0, Cells)))
  }

  /** The hosts of the five cells are five rows of four distinct hosts. */
  lemma HostRowsGrid(h0: nat)
    ensures Grid(HostRows(h0, Cells))
  {
    var rows := HostRows(h0, Cells);
    forall c1, p1, c2, p2 | 0 <= c1 < Cells && 0 <= p1 < Hpc && 0 <= c2 < Cells && 0 <= p2 < Hpc
      && rows[c1][p1] == rows[c2][p2]
      ensures c1 == c2 && p1 == p2
    {
      assert rows[c1][p1] == HostName(h0 + 4 * c1 + 1 + p1);
      assert rows[c2][p2] == HostName(h0 + 4 * c2 + 1 + p2);
    }
  }

  /** `create_cell()`: one switch and four hosts, each linked from the switch. */
  method CreateCell(hostsIter: CounterIterator, switchIter: CounterIterator)
    returns (hs: seq<NodeId>, ss: seq<NodeId>, ls: seq<Link>)
    requires hostsIter != switchIter
    modifies hostsIter, switchIter
    ensures hostsIter.count == old(hostsIter.count) + Hpc && switchIter.count == old(switchIter.count) + 1
    ensures hs == HostNames(old(hostsIter.count), Hpc) && ss == [SwitchName(old(switchIter.count) + 1)]
    ensures ls == CellLinks(old(hostsIter.count), old(switchIter.count))
  {
    var sw := NextSwitch(switchIter);
    var hosts := NextHosts(hostsIter, Hpc);
    hs := [] + hosts;
    ss := [] + [sw];
    ls := SewRowsLoop([sw], hosts, Speed);
    assert [sw][1..] == [];
  }

  /** `create_topo()`, drawing names from the two module counters. */
  method CreateTopo(hostsIter: CounterIterator, switchIter: CounterIterator) returns (t: Topo)
    requires hostsIter != switchIter
    modifies hostsIter, switchIter
    ensures t == DCellTopo(old(hostsIter.count), old(switchIter.count))
    ensures hostsIter.count == old(hostsIter.count) + |t.hosts|
    ensures switchIter.count == old(switchIter.count) + |t.switches|
  {
    ghost var h0 := hostsIter.count;
    ghost var s0 := switchIter.count;
    var hosts: seq<NodeId> := [];
    var switches: seq<NodeId> := [];
    var links: seq<Link> := [];
    var stategic: seq<seq<NodeId>> := [];
    for c := 0 to Cells
      invariant hostsIter.count == h0 + 4 * c && switchIter.count == s0 + c
      invariant hosts == HostNames(h0, 4 * c) && switches == SwitchNames(s0, c)
      invariant links == CellsLinks(h0, s0, c) && stategic == HostRows(h0, c)
    {
      var h, s, l := CreateCell(hostsIter, switchIter);
      HostNamesSplit(h0, 4 * c, Hpc);
      SwitchNamesSplit(s0, c, 1);
      hosts := hosts + h;
      switches := switches + s;
      links := links + l;
      stategic := stategic + [h[|h| - Hpc..]];
    }
    HostRowsGrid(h0);
    links := CrossLinks(stategic, links);
    t := Topo(hosts, switches, links);
  }

  /** `main`'s use of the builder, between two counter resets. */
  method MainTopo() returns (t: Topo, hostsIter: CounterIterator, switchIter: CounterIterator)
    ensures t == DCellTopo(0, 0)
    ensures fresh(hostsIter) && fresh(switchIter) && hostsIter != switchIter
    ensures hostsIter.count == 0 && switchIter.count == 0
  {
    hostsIter, switchIter := ResetIters();
    t := CreateTopo(hostsIter, switchIter);
    hostsIter, switchIter := ResetIters();
  }

  // ---------------------------------------------------------------- properties

  /** 20 hosts, 5 switches, 20 cell links and 10 inter-cell links. */
  lemma DCellTotals(h0: nat, s0: nat)
    ensures var t := DCellTopo(h0, s0);
      && t.hosts == HostNames(h0, 20) && t.switches == SwitchNames(s0, 5) && |t.links| == 30
  {
    HostRowsGrid(h0);
    CrossLength(HostRows(h0, Cells));
  }

  /** Cells `i < j` are linked through host `j - 1` of cell `i` and host `i` of cell `j`. */
  lemma CellsLinked(h0: nat, s0: nat, i: nat, j: nat)
    requires i < j < Cells
    ensures Link(HostName(h0 + 4 * i + j), HostName(h0 + 4 * j + i + 1), Speed) in DCellTopo(h0, s0).links
  {
    var rows := HostRows(h0, Cells);
    HostRowsGrid(h0);
    CrossPair(rows, i, j);
    assert rows[i][j - 1] == HostName(h0 + 4 * i + j);
  }

  lemma {:induction false} CellsDegree(h0: nat, s0: nat, n: nat, k: int)
    ensures Degree(CellsLinks(h0, s0, n), HostName(k)) == if h0 < k <= h0 + 4 * n then 1 else 0
    decreases n
  {
    if n > 0 {
      CellsDegree(h0, s0, n - 1, k);
      DegreeConcat(CellsLinks(h0, s0, n - 1), CellLinks(h0 + 4 * (n - 1), s0 + n - 1), HostName(k));
      DegreeFan(SwitchName(s0 + n), HostNames(h0 + 4 * (n - 1), Hpc), Speed, HostName(k));
      HostNamesCount(h0 + 4 * (n - 1), Hpc, k);
    }
  }

  /** Every host has two links: one to its cell switch and one to another cell. */
  lemma HostDegree(h0: nat, s0: nat, k: int)
    requires h0 < k <= h0 + 20
    ensures Degree(DCellTopo(h0, s0).links, HostName(k)) == 2
  {
    var rows := HostRows(h0, Cells);
    HostRowsGrid(h0);
    var c, p := (k - h0 - 1) / 4, (k - h0 - 1) % 4;
    assert rows[c][p] == HostName(k);
    DegreeConcat(CellsLinks(h0, s0, Cells), Cross(rows), HostName(k));
    CellsDegree(h0, s0, Cells, k);
    CrossDegree(rows, c, p);
  }
}
