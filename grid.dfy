/**
 * topocreategrid.py: a 4 × 4 grid of switches, each with one host. A switch is
 * linked to its left neighbour in the row and to the switch above it.
 */
module Grid {
  import opened NodePair
  import opened Wrappers
  import opened Counter
  import opened Topology

  const Speed := 1
  const Rows := 4
  const Columns := 4

  /** `create_switchhost()`: one new host and one new switch, linked host first. */
  method CreateSwitchHost(hostsIter: CounterIterator, switchIter: CounterIterator)
    returns (hs: seq<NodeId>, ss: seq<NodeId>, ls: seq<Link>)
    requires hostsIter != switchIter
    modifies hostsIter, switchIter
    ensures hostsIter.count == old(hostsIter.count) + 1 && switchIter.count == old(switchIter.count) + 1
    ensures hs == [HostName(hostsIter.count)] && ss == [SwitchName(switchIter.count)]
    ensures ls == [Link(hs[0], ss[0], Speed)]
  {
    var h := NextHost(hostsIter);
    var s := NextSwitch(switchIter);
    hs := [h];
    ss := [s];
    ls := [Link(hs[0], ss[0], Speed)];
  }

  /**
   * The links of the first `c` cells of a row whose names follow `h0` and
   * `s0`: each cell's `(h, s)`, then `(s, previous switch)` from the second
   * cell on.
   */
  function RowLinks(h0: nat, s0: nat, c: nat): seq<Link>
  {
    if c == 0 then []
    else
      RowLinks(h0, s0, c - 1) + [Link(HostName(h0 + c), SwitchName(s0 + c), Speed)]
        + (if c > 1 then [Link(SwitchName(s0 + c), SwitchName(s0 + c - 1), Speed)] else [])
  }

  /** `create_row()`. */
  method CreateRow(hostsIter: CounterIterator, switchIter: CounterIterator)
    returns (hs: seq<NodeId>, ss: seq<NodeId>, ls: seq<Link>)
    requires hostsIter != switchIter
    modifies hostsIter, switchIter
    ensures hostsIter.count == old(hostsIter.count) + Columns
    ensures switchIter.count == old(switchIter.count) + Columns
    ensures hs == HostNames(old(hostsIter.count), Columns)
    ensures ss == SwitchNames(old(switchIter.count), Columns)
    ensures ls == RowLinks(old(hostsIter.count), old(switchIter.count), Columns)
  {
    ghost var h0 := hostsIter.count;
    ghost var s0 := switchIter.count;
    hs, ss, ls := [], [], [];
    var previous: Option<NodeId> := None;
    for c := 0 to Columns
      invariant hostsIter.count == h0 + c && switchIter.count == s0 + c
      invariant hs == HostNames(h0, c) && ss == SwitchNames(s0, c) && ls == RowLinks(h0, s0, c)
      invariant previous == if c == 0 then None else Some(SwitchName(s0 + c))
    {
      var h, s, l := CreateSwitchHost(hostsIter, switchIter);
      HostNamesSplit(h0, c, 1);
      SwitchNamesSplit(s0, c, 1);
      hs := hs + h;
      ss := ss + s;
      ls := ls + l;
      if previous.Some? {
        ls := ls + [Link(s[|s| - 1], previous.value, Speed)];
      }
      previous := Some(s[|s| - 1]);
    }
  }

  /** The links between row `r - 1` and row `r`: `zip(previous, current)`, top switch first. */
  function Column(s0: nat, r: nat): (ls: seq<Link>)
    requires r > 0
    ensures |ls| == Columns
    ensures forall c | 0 <= c < Columns ::
      ls[c] == Link(SwitchName(s0 + (r - 1) * Columns + c + 1), SwitchName(s0 + r * Columns + c + 1), Speed)
  {
    seq(Columns, c requires 0 <= c < Columns =>
      Link(SwitchName(s0 + (r - 1) * Columns + c + 1), SwitchName(s0 + r * Columns + c + 1), Speed))
  }

  /** The links of the first `r` rows. */
  function GridLinks(h0: nat, s0: nat, r: nat): seq<Link>
  {
    if r == 0 then []
    else
      GridLinks(h0, s0, r - 1) + RowLinks(h0 + (r - 1) * Columns, s0 + (r - 1) * Columns, Columns)
        + (if r > 1 then Column(s0, r - 1) else [])
  }

  /** What `create_topo()` returns when the counters stand at `h0` and `s0`. */
  function GridTopo(h0: nat, s0: nat): Topo
  {
    Topo(HostNames(h0, Rows * Columns), SwitchNames(s0, Rows * Columns), GridLinks(h0, s0, Rows))
  }

  /** `zip(previous, current)` as links `(p, c)`. */
  method ZipLinks(previous: seq<NodeId>, current: seq<NodeId>, bw: int) returns (ls: seq<Link>)
    ensures |ls| == if |previous| < |current| then |previous| else |current|
    ensures forall i | 0 <= i < |ls| :: ls[i] == Link(previous[i], current[i], bw)
  {
    ls := [];
    var i := 0;
    while i < |previous| && i < |current|
      invariant 0 <= i <= |previous| && i <= |current| && |ls| == i
      invariant forall j | 0 <= j < i :: ls[j] == Link(previous[j], current[j], bw)
    {
      ls := ls + [Link(previous[i], current[i], bw)];
      i := i + 1;
    }
  }

  /** `create_rows()`, which is `create_topo()`. */
  method CreateTopo(hostsIter: CounterIterator, switchIter: CounterIterator) returns (t: Topo)
    requires hostsIter != switchIter
    modifies hostsIter, switchIter
    ensures t == GridTopo(old(hostsIter.count), old(switchIter.count))
    ensures hostsIter.count == old(hostsIter.count) + Rows * Columns
    ensures switchIter.count == old(switchIter.count) + Rows * Columns
  {
    ghost var h0 := hostsIter.count;
    ghost var s0 := switchIter.count;
    var hosts: seq<NodeId> := [];
    var switches: seq<NodeId> := [];
    var links: seq<Link> := [];
    var previous: Option<seq<NodeId>> := None;
    for r := 0 to Rows
      invariant hostsIter.count == h0 + r * Columns && switchIter.count == s0 + r * Columns
      invariant hosts == HostNames(h0, r * Columns) && switches == SwitchNames(s0, r * Columns)
      invariant links == GridLinks(h0, s0, r)
      invariant previous == if r == 0 then None else Some(SwitchNames(s0 + (r - 1) * Columns, Columns))
    {
      var h, s, l := CreateRow(hostsIter, switchIter);
      HostNamesSplit(h0, r * Columns, Columns);
      SwitchNamesSplit(s0, r * Columns, Columns);
      hosts := hosts + h;
      switches := switches + s;
      links := links + l;
      var current := s[|s| - Columns..];
      assert current == SwitchNames(s0 + r * Columns, Columns);
      if previous.Some? {
        var zipped := ZipLinks(previous.value, current, Speed);
        assert zipped == Column(s0, r);
        links := links + zipped;
      }
      previous := Some(current);
    }
    t := Topo(hosts, switches, links);
  }

  /** `main`'s use of the builder, between two counter resets. */
  method MainTopo() returns (t: Topo, hostsIter: CounterIterator, switchIter: CounterIterator)
    ensures t == GridTopo(0, 0)
    ensures fresh(hostsIter) && fresh(switchIter) && hostsIter != switchIter
    ensures hostsIter.count == 0 && switchIter.count == 0
  {
    hostsIter, switchIter := ResetIters();
    t := CreateTopo(hostsIter, switchIter);
    hostsIter, switchIter := ResetIters();
  }

  // ---------------------------------------------------------------- properties

  lemma {:induction false} RowLinksLength(h0: nat, s0: nat, c: nat)
    requires c > 0
    ensures |RowLinks(h0, s0, c)| == 2 * c - 1
  {
    if c > 1 {
      RowLinksLength(h0, s0, c - 1);
    }
  }

  lemma {:induction false} GridLinksLength(h0: nat, s0: nat, r: nat)
    requires r > 0
    ensures |GridLinks(h0, s0, r)| == 7 * r + 4 * (r - 1)
  {
    RowLinksLength(h0 + (r - 1) * Columns, s0 + (r - 1) * Columns, Columns);
    if r > 1 {
      GridLinksLength(h0, s0, r - 1);
    }
  }

  /** 16 hosts, 16 switches and 16 + 12 + 12 = 40 links. */
  lemma GridTotals(h0: nat, s0: nat)
    ensures |GridTopo(h0, s0).hosts| == 16
    ensures |GridTopo(h0, s0).switches| == 16
    ensures |GridTopo(h0, s0).links| == 40
  {
    GridLinksLength(h0, s0, Rows);
  }

  /** In a row, host `i` is linked to switch `j` exactly when they belong to the same cell. */
  lemma {:induction false} RowHostLinks(h0: nat, s0: nat, c: nat, i: int, j: int)
    ensures Link(HostName(h0 + i), SwitchName(s0 + j), Speed) in RowLinks(h0, s0, c) <==> i == j && 1 <= i <= c
  {
    if c > 0 {
      RowHostLinks(h0, s0, c - 1, i, j);
    }
  }

  /** In a row, switch `p` is linked to switch `q` exactly when `q` is its left neighbour. */
  lemma {:induction false} RowSwitchLinks(h0: nat, s0: nat, c: nat, p: int, q: int)
    ensures Link(SwitchName(s0 + p), SwitchName(s0 + q), Speed) in RowLinks(h0, s0, c) <==> p == q + 1 && 1 <= q && p <= c
  {
    if c > 0 {
      RowSwitchLinks(h0, s0, c - 1, p, q);
    }
  }

  /** `RowSwitchLinks` with the switches given by their numbers. */
  lemma RowSwitchNumbers(h0: nat, s0: nat, c: nat, a: int, b: int)
    ensures Link(SwitchName(a), SwitchName(b), Speed) in RowLinks(h0, s0, c) <==> a == b + 1 && s0 + 1 <= b && a <= s0 + c
  {
    RowSwitchLinks(h0, s0, c, a - s0, b - s0);
    assert s0 + (a - s0) == a && s0 + (b - s0) == b;
  }

  lemma ColumnMember(s0: nat, r: nat, p: int, q: int)
    requires r > 0
    ensures Link(SwitchName(s0 + p), SwitchName(s0 + q), Speed) in Column(s0, r)
        <==> q == p + Columns && (r - 1) * Columns < p <= r * Columns
  {
    var x := Link(SwitchName(s0 + p), SwitchName(s0 + q), Speed);
    assert r * Columns == (r - 1) * Columns + Columns;
    if x in Column(s0, r) {
      var c :| 0 <= c < Columns && Column(s0, r)[c] == x;
    }
    if q == p + Columns && (r - 1) * Columns < p <= r * Columns {
      assert Column(s0, r)[p - (r - 1) * Columns - 1] == x;
    }
  }

  lemma ColumnHasNoHost(s0: nat, r: nat, h: NodeId, x: NodeId, bw: int)
    requires r > 0 && IsHost(h)
    ensures Link(h, x, bw) !in Column(s0, r)
  {
  }

  /** Host `h0 + i` and switch `s0 + j` are linked exactly when `i == j`: each cell pairs `hN` with `sN`. */
  lemma {:induction false} GridHostLinks(h0: nat, s0: nat, r: nat, i: int, j: int)
    ensures Link(HostName(h0 + i), SwitchName(s0 + j), Speed) in GridLinks(h0, s0, r) <==> i == j && 1 <= i <= r * Columns
  {
    if r > 0 {
      GridHostLinks(h0, s0, r - 1, i, j);
      var off := (r - 1) * Columns;
      RowHostLinks(h0 + off, s0 + off, Columns, i - off, j - off);
      assert HostName(h0 + off + (i - off)) == HostName(h0 + i);
      assert SwitchName(s0 + off + (j - off)) == SwitchName(s0 + j);
      if r > 1 {
        ColumnHasNoHost(s0, r - 1, HostName(h0 + i), SwitchName(s0 + j), Speed);
      }
    }
  }

  /** The switch in row `row` and column `col` (both from 0). */
  function Cell(s0: nat, row: nat, col: nat): NodeId
  {
    SwitchName(s0 + row * Columns + col + 1)
  }

  /** A switch number lies in row `row`'s range exactly when it is in that row. */
  lemma CellRange(pr: nat, pc: nat, row: nat)
    requires pc < Columns
    ensures row * Columns < pr * Columns + pc + 1 <= row * Columns + Columns <==> pr == row
  {
  }

  /** Distinct cells are distinct switches. */
  lemma CellInjective(s0: nat, pr: nat, pc: nat, qr: nat, qc: nat)
    requires pc < Columns && qc < Columns
    ensures Cell(s0, pr, pc) == Cell(s0, qr, qc) <==> pr == qr && pc == qc
  {
    if Cell(s0, pr, pc) == Cell(s0, qr, qc) {
      CellRange(pr, pc, qr);
      CellRange(qr, qc, qr);
    }
  }

  /**
   * Among the first `c` cells of row `row`, a cell is linked to the cell on
   * its left, and to nothing else.
   */
  lemma RowCellLinks(h0: nat, s0: nat, row: nat, c: nat, pr: nat, pc: nat, qr: nat, qc: nat)
    requires pc < Columns && qc < Columns && c <= Columns
    ensures Link(Cell(s0, pr, pc), Cell(s0, qr, qc), Speed) in RowLinks(h0 + row * Columns, s0 + row * Columns, c)
        <==> pr == row && qr == row && pc == qc + 1 && pc < c
  {
    var off := row * Columns;
    RowSwitchNumbers(h0 + off, s0 + off, c, s0 + pr * Columns + pc + 1, s0 + qr * Columns + qc + 1);
    CellRange(pr, pc, row);
    CellRange(qr, qc, row);
  }

  /** Between rows `r - 1` and `r`, a cell is linked to the cell below it, and to nothing else. */
  lemma ColumnCellLinks(s0: nat, r: nat, pr: nat, pc: nat, qr: nat, qc: nat)
    requires r > 0 && pc < Columns && qc < Columns
    ensures Link(Cell(s0, pr, pc), Cell(s0, qr, qc), Speed) in Column(s0, r)
        <==> pr == r - 1 && qr == r && pc == qc
  {
    var p, q := pr * Columns + pc + 1, qr * Columns + qc + 1;
    ColumnMember(s0, r, p, q);
    CellRange(pr, pc, r - 1);
    if q == p + Columns {
      assert q == (pr + 1) * Columns + pc + 1;
      CellInjective(s0, qr, qc, pr + 1, pc);
    }
  }

  /** A link of the first `r` rows comes from the earlier rows, row `r - 1`, or the links above it. */
  lemma GridLinksMember(h0: nat, s0: nat, r: nat, x: Link)
    requires r > 0
    ensures x in GridLinks(h0, s0, r) <==>
      || x in GridLinks(h0, s0, r - 1)
      || x in RowLinks(h0 + (r - 1) * Columns, s0 + (r - 1) * Columns, Columns)
      || (r > 1 && x in Column(s0, r - 1))
  {
  }

  /**
   * Cell `(pr, pc)` is linked to cell `(qr, qc)`, in this order, exactly when
   * `(qr, qc)` is its left neighbour in the row, or the cell below it.
   */
  lemma {:induction false} GridCellLinks(h0: nat, s0: nat, r: nat, pr: nat, pc: nat, qr: nat, qc: nat)
    requires pc < Columns && qc < Columns
    ensures Link(Cell(s0, pr, pc), Cell(s0, qr, qc), Speed) in GridLinks(h0, s0, r)
        <==> ((pr == qr && pr < r && pc == qc + 1) || (qr == pr + 1 && qr < r && qc == pc))
  {
    if r > 0 {
      var x := Link(Cell(s0, pr, pc), Cell(s0, qr, qc), Speed);
      GridLinksMember(h0, s0, r, x);
      GridCellLinks(h0, s0, r - 1, pr, pc, qr, qc);
      RowCellLinks(h0, s0, r - 1, Columns, pr, pc, qr, qc);
      var inColumn := r > 1 && x in Column(s0, r - 1);
      if r > 1 {
        ColumnCellLinks(s0, r - 1, pr, pc, qr, qc);
      }
      assert inColumn <==> qr == pr + 1 && qr == r - 1 && qc == pc;
    }
  }

  /** The whole grid: left neighbours and the cells below, for every row. */
  lemma GridNeighbours(h0: nat, s0: nat, pr: nat, pc: nat, qr: nat, qc: nat)
    requires pc < Columns && qc < Columns
    ensures Link(Cell(s0, pr, pc), Cell(s0, qr, qc), Speed) in GridTopo(h0, s0).links
        <==> ((pr == qr && pr < Rows && pc == qc + 1) || (qr == pr + 1 && qr < Rows && qc == pc))
  {
    GridCellLinks(h0, s0, Rows, pr, pc, qr, qc);
  }
}
