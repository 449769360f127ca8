/**
 * topotable.py: the summary tables of the benchmark runs. `Phrases` renames
 * row, column and field keys for display; `build_table` lays one field of the
 * results out as a grid with the column names on top, the row names down the
 * side and the field name in the corner.
 */
module Table {
  import opened Wrappers

  /** `Phrases(d)`: a renaming of keys, read-only after construction. */
  datatype Phrases = Phrases(d: map<string, string>)
  {
    /** `phrases[val]` and `phrases(val)`: the phrase for `val`, or `val` itself when it has none. */
    function Lookup(val: string): (r: string)
      ensures val in d ==> r == d[val]
      ensures val !in d ==> r == val
    {
      if val in d then d[val] else val
    }
  }

  /** `d[clmn][rw][fld]` exists: the results are indexed column first. */
  predicate HasEntry<T>(d: map<string, map<string, map<string, T>>>, clmn: string, rw: string, fld: string)
  {
    clmn in d && rw in d[clmn] && fld in d[clmn][rw]
  }

  /** Every body cell of the table can be read. */
  predicate Complete<T>(d: map<string, map<string, map<string, T>>>, clmns: seq<string>, rws: seq<string>, fld: string)
  {
    forall x, y | 0 <= x < |clmns| && 0 <= y < |rws| :: HasEntry(d, clmns[x], rws[y], fld)
  }

  /** The top row of `tbl` holds the column phrases. */
  ghost predicate HeaderRow(tbl: array2<string>, clmns: seq<string>, phrases: Phrases)
    reads tbl
  {
    tbl.Length0 > 0 && tbl.Length1 == |clmns| + 1 &&
    forall x | 1 <= x < tbl.Length1 :: tbl[0, x] == phrases.Lookup(clmns[x - 1])
  }

  /** The first column of `tbl` holds the row phrases. */
  ghost predicate SideColumn(tbl: array2<string>, rws: seq<string>, phrases: Phrases)
    reads tbl
  {
    tbl.Length1 > 0 && tbl.Length0 == |rws| + 1 &&
    forall y | 1 <= y < tbl.Length0 :: tbl[y, 0] == phrases.Lookup(rws[y - 1])
  }

  /** The inner loop `for y, rw in enumerate(rws)`, filling table column `col` (entry column `col - 1`). */
  method FillColumn<T>(tbl: array2<string>, d: map<string, map<string, map<string, T>>>, clmns: seq<string>,
                       rws: seq<string>, fld: string, fmt: T -> string, col: nat)
    returns (ok: bool)
    requires tbl.Length0 == |rws| + 1 && tbl.Length1 == |clmns| + 1 && 1 <= col <= |clmns|
    modifies tbl
    ensures ok <==> forall y | 0 <= y < |rws| :: HasEntry(d, clmns[col - 1], rws[y], fld)
    ensures ok ==> forall y | 1 <= y <= |rws| ::
      HasEntry(d, clmns[col - 1], rws[y - 1], fld) && tbl[y, col] == fmt(d[clmns[col - 1]][rws[y - 1]][fld])
    ensures forall y, c | 0 <= y < tbl.Length0 && 0 <= c < tbl.Length1 && (y == 0 || c != col) ::
      tbl[y, c] == old(tbl[y, c])
  {
    for y := 0 to |rws|
      invariant forall w | 0 <= w < y :: HasEntry(d, clmns[col - 1], rws[w], fld)
      invariant forall w | 1 <= w <= y ::
        HasEntry(d, clmns[col - 1], rws[w - 1], fld) && tbl[w, col] == fmt(d[clmns[col - 1]][rws[w - 1]][fld])
      invariant forall w, c | 0 <= w < tbl.Length0 && 0 <= c < tbl.Length1 && (w == 0 || c != col) ::
        tbl[w, c] == old(tbl[w, c])
    {
      if !HasEntry(d, clmns[col - 1], rws[y], fld) {
        return false;
      }
      tbl[y + 1, col] := fmt(d[clmns[col - 1]][rws[y]][fld]);
    }
    ok := true;
  }

  /** The outer loop `for x, clmn in enumerate(clmns)`: every body cell, column by column; row 0 and column 0 stay. */
  method FillBody<T>(tbl: array2<string>, d: map<string, map<string, map<string, T>>>, clmns: seq<string>,
                     rws: seq<string>, fld: string, fmt: T -> string)
    returns (ok: bool)
    requires tbl.Length0 == |rws| + 1 && tbl.Length1 == |clmns| + 1
    modifies tbl
    ensures ok <==> Complete(d, clmns, rws, fld)
    ensures ok ==> forall y, x | 1 <= y < tbl.Length0 && 1 <= x < tbl.Length1 ::
      HasEntry(d, clmns[x - 1], rws[y - 1], fld) && tbl[y, x] == fmt(d[clmns[x - 1]][rws[y - 1]][fld])
    ensures forall y, x | 0 <= y < tbl.Length0 && 0 <= x < tbl.Length1 && (y == 0 || x == 0) ::
      tbl[y, x] == old(tbl[y, x])
  {
    for x := 0 to |clmns|
      invariant forall c | 0 <= c < x :: forall y | 0 <= y < |rws| :: HasEntry(d, clmns[c], rws[y], fld)
      invariant forall y, c | 1 <= y <= |rws| && 1 <= c <= x ::
        HasEntry(d, clmns[c - 1], rws[y - 1], fld) && tbl[y, c] == fmt(d[clmns[c - 1]][rws[y - 1]][fld])
      invariant forall y, c | 0 <= y < tbl.Length0 && 0 <= c < tbl.Length1 && (y == 0 || c == 0) ::
        tbl[y, c] == old(tbl[y, c])
    {
      ok := FillColumn(tbl, d, clmns, rws, fld, fmt, x + 1);
      if !ok {
        var y :| 0 <= y < |rws| && !HasEntry(d, clmns[x], rws[y], fld);
        return false;
      }
    }
    ok := true;
  }

  /**
   * `build_table(d, clmns, rws, fld, fmt, phrase_dict)`: a grid of
   * `len(rws)+1` rows by `len(clmns)+1` cells. The top row holds the column
   * phrases, the first column the row phrases, the corner the field's
   * phrase, and cell `[y+1][x+1]` the formatted `d[clmns[x]][rws[y]][fld]`.
   * A missing key raises `KeyError`.
   */
  method BuildTable<T>(d: map<string, map<string, map<string, T>>>, clmns: seq<string>, rws: seq<string>,
                       fld: string, fmt: T -> string, phrases: Phrases)
    returns (r: Result<array2<string>>)
    ensures r.Err? <==> !Complete(d, clmns, rws, fld)
    ensures r.Err? ==> r.error == KeyError
    ensures r.Ok? ==> fresh(r.value)
    ensures r.Ok? ==> r.value.Length0 == |rws| + 1 && r.value.Length1 == |clmns| + 1
    ensures r.Ok? ==> r.value[0, 0] == phrases.Lookup(fld)
    ensures r.Ok? ==> HeaderRow(r.value, clmns, phrases) && SideColumn(r.value, rws, phrases)
    ensures r.Ok? ==> forall y, x | 1 <= y < r.value.Length0 && 1 <= x < r.value.Length1 ::
      HasEntry(d, clmns[x - 1], rws[y - 1], fld) && r.value[y, x] == fmt(d[clmns[x - 1]][rws[y - 1]][fld])
  {
    var tbl := new string[|rws| + 1, |clmns| + 1]((y, x) => "");
    for i := 0 to |clmns|
      invariant forall x | 1 <= x <= i :: tbl[0, x] == phrases.Lookup(clmns[x - 1])
    {
      tbl[0, i + 1] := phrases.Lookup(clmns[i]);
    }
    for i := 0 to |rws|
      invariant HeaderRow(tbl, clmns, phrases)
      invariant forall y | 1 <= y <= i :: tbl[y, 0] == phrases.Lookup(rws[y - 1])
    {
      tbl[i + 1, 0] := phrases.Lookup(rws[i]);
    }
    var ok := FillBody(tbl, d, clmns, rws, fld, fmt);
    if !ok {
      return Err(KeyError);
    }
    tbl[0, 0] := phrases.Lookup(fld);
    r := Ok(tbl);
  }
}
