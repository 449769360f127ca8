/**
 * topoboxplot.py: the list helpers of the plotting script and the order in
 * which it lays out algorithms and topologies. Names the preferred-order
 * list knows come in that order; names it does not know come first, in
 * alphabetical order; a final `'all'` column gathers every run.
 */
module Boxplot {

  const AlgosPreferredOrder: seq<string> := ["ospf", "ldr-single", "minmax-single", "ldr", "ecmp"]
  const ToposPreferredOrder: seq<string> :=
    ["simpletree", "clos5", "bcubeswitched", "bcube", "fattree", "grid",
     "dcellswitched", "dcell", "bipartite", "clos", "principle"]

  // ---------------------------------------------------------------- listfind

  /** `listfind(xs, x)`: the index of the first `x` in `xs`, or -1 when there is none. */
  function ListFind<T(==)>(xs: seq<T>, x: T): (r: int)
    ensures -1 <= r < |xs|
    ensures r == -1 <==> x !in xs
    ensures r >= 0 ==> xs[r] == x && forall j | 0 <= j < r :: xs[j] != x
    decreases |xs|
  {
    if |xs| == 0 then -1
    else if xs[0] == x then 0
    else
      var k := ListFind(xs[1..], x);
      if k < 0 then -1 else k + 1
  }

  /** Two names found at the same position of the list are the same name. */
  lemma ListFindInjective<T>(xs: seq<T>, a: T, b: T)
    requires ListFind(xs, a) == ListFind(xs, b) >= 0
    ensures a == b
  {
  }

  // ---------------------------------------------------------------- flatten

  /** `flatten(itr)`: the sub-lists concatenated in order. */
  function Flatten<T>(xss: seq<seq<T>>): seq<T>
    decreases |xss|
  {
    if |xss| == 0 then [] else xss[0] + Flatten(xss[1..])
  }

  function TotalLength<T>(xss: seq<seq<T>>): nat
    decreases |xss|
  {
    if |xss| == 0 then 0 else |xss[0]| + TotalLength(xss[1..])
  }

  /** The flattened list is as long as all the sub-lists together. */
  lemma {:induction false} FlattenLength<T>(xss: seq<seq<T>>)
    ensures |Flatten(xss)| == TotalLength(xss)
    decreases |xss|
  {
    if |xss| > 0 {
      FlattenLength(xss[1..]);
    }
  }

  /** Flattening two runs of sub-lists is flattening each and concatenating. */
  lemma {:induction false} FlattenConcat<T>(a: seq<seq<T>>, b: seq<seq<T>>)
    ensures Flatten(a + b) == Flatten(a) + Flatten(b)
    decreases |a|
  {
    if |a| > 0 {
      assert (a + b)[1..] == a[1..] + b;
      FlattenConcat(a[1..], b);
    } else {
      assert a + b == b;
    }
  }

  /** Every element of a sub-list is in the flattened list, and every element there comes from a sub-list. */
  lemma {:induction false} FlattenMember<T>(xss: seq<seq<T>>, x: T)
    ensures x in Flatten(xss) <==> exists i | 0 <= i < |xss| :: x in xss[i]
    decreases |xss|
  {
    if |xss| > 0 {
      FlattenMember(xss[1..], x);
      if exists i | 0 <= i < |xss[1..]| :: x in xss[1..][i] {
        var i :| 0 <= i < |xss[1..]| && x in xss[1..][i];
        assert x in xss[i + 1];
      }
      if exists i | 0 <= i < |xss| :: x in xss[i] {
        var i :| 0 <= i < |xss| && x in xss[i];
        if i > 0 {
          assert x in xss[1..][i - 1];
        }
      }
    }
  }

  // ---------------------------------------------------------------- ordering

  /** Python's `<=` on strings: lexicographic by character. */
  predicate StrLe(a: string, b: string)
    decreases |a|
  {
    |a| == 0 || (|b| > 0 && (a[0] < b[0] || (a[0] == b[0] && StrLe(a[1..], b[1..]))))
  }

  lemma {:induction false} StrLeTotal(a: string, b: string)
    ensures StrLe(a, b) || StrLe(b, a)
    decreases |a|
  {
    if |a| > 0 && |b| > 0 && a[0] == b[0] {
      StrLeTotal(a[1..], b[1..]);
    }
  }

  lemma {:induction false} StrLeTrans(a: string, b: string, c: string)
    requires StrLe(a, b) && StrLe(b, c)
    ensures StrLe(a, c)
    decreases |a|
  {
    if |a| > 0 && a[0] == b[0] && b[0] == c[0] {
      StrLeTrans(a[1..], b[1..], c[1..]);
    }
  }

  lemma {:induction false} StrLeAntisym(a: string, b: string)
    requires StrLe(a, b) && StrLe(b, a)
    ensures a == b
    decreases |a|
  {
    if |a| > 0 {
      StrLeAntisym(a[1..], b[1..]);
      assert a == [a[0]] + a[1..] && b == [b[0]] + b[1..];
    }
  }

  /** The sort key `(listfind(order, a), a)` of `a` is at most that of `b`. */
  predicate KeyLe(order: seq<string>, a: string, b: string)
  {
    ListFind(order, a) < ListFind(order, b) || (ListFind(order, a) == ListFind(order, b) && StrLe(a, b))
  }

  lemma KeyLeTotal(order: seq<string>, a: string, b: string)
    ensures KeyLe(order, a, b) || KeyLe(order, b, a)
  {
    StrLeTotal(a, b);
  }

  lemma KeyLeTrans(order: seq<string>, a: string, b: string, c: string)
    requires KeyLe(order, a, b) && KeyLe(order, b, c)
    ensures KeyLe(order, a, c)
  {
    if ListFind(order, a) == ListFind(order, b) == ListFind(order, c) {
      StrLeTrans(a, b, c);
    }
  }

  /** Keys never tie between different names: the sort order is strict on distinct names. */
  lemma KeyLeAntisym(order: seq<string>, a: string, b: string)
    requires KeyLe(order, a, b) && KeyLe(order, b, a)
    ensures a == b
  {
    StrLeAntisym(a, b);
  }

  predicate Sorted(order: seq<string>, s: seq<string>)
  {
    forall i, j | 0 <= i < j < |s| :: KeyLe(order, s[i], s[j])
  }

  /** `x` put before the first element of `s` whose key is not smaller. */
  function Insert(order: seq<string>, x: string, s: seq<string>): (r: seq<string>)
    ensures multiset(r) == multiset(s) + multiset{x}
    decreases |s|
  {
    if |s| == 0 then [x]
    else if KeyLe(order, x, s[0]) then [x] + s
    else
      assert s == [s[0]] + s[1..];
      [s[0]] + Insert(order, x, s[1..])
  }

  /** `sorted(names, key=lambda a: (listfind(order, a), a))`, as an insertion sort. */
  function SortByPreference(order: seq<string>, names: seq<string>): (r: seq<string>)
    ensures multiset(r) == multiset(names)
    decreases |names|
  {
    if |names| == 0 then []
    else
      assert names == [names[0]] + names[1..];
      Insert(order, names[0], SortByPreference(order, names[1..]))
  }

  lemma {:induction false} InsertSorted(order: seq<string>, x: string, s: seq<string>)
    requires Sorted(order, s)
    ensures Sorted(order, Insert(order, x, s))
    decreases |s|
  {
    var r := Insert(order, x, s);
    if |s| == 0 {
    } else if KeyLe(order, x, s[0]) {
      forall j | 1 <= j < |r|
        ensures KeyLe(order, r[0], r[j])
      {
        if j > 1 {
          KeyLeTrans(order, x, s[0], s[j - 1]);
        }
      }
    } else {
      KeyLeTotal(order, x, s[0]);
      var t := Insert(order, x, s[1..]);
      InsertSorted(order, x, s[1..]);
      forall j | 0 <= j < |t|
        ensures KeyLe(order, s[0], t[j])
      {
        assert t[j] in multiset(t);
        if t[j] != x {
          assert t[j] in multiset(s[1..]);
          var k :| 0 <= k < |s[1..]| && s[1..][k] == t[j];
          assert s[k + 1] == t[j];
        }
      }
    }
  }

  lemma {:induction false} SortSorted(order: seq<string>, names: seq<string>)
    ensures Sorted(order, SortByPreference(order, names))
    decreases |names|
  {
    if |names| > 0 {
      SortSorted(order, names[1..]);
      InsertSorted(order, names[0], SortByPreference(order, names[1..]));
    }
  }

  /**
   * In the sorted names, unlisted names come before listed ones and in
   * alphabetical order among themselves, and listed names follow the
   * preference list.
   */
  lemma PreferredOrder(order: seq<string>, names: seq<string>, i: nat, j: nat)
    requires i < j < |SortByPreference(order, names)|
    ensures var r := SortByPreference(order, names);
      && (r[j] !in order ==> r[i] !in order && StrLe(r[i], r[j]))
      && (r[i] in order && r[j] in order && r[i] != r[j] ==> ListFind(order, r[i]) < ListFind(order, r[j]))
  {
    SortSorted(order, names);
    var r := SortByPreference(order, names);
    if r[i] in order && r[j] in order && ListFind(order, r[i]) == ListFind(order, r[j]) {
      ListFindInjective(order, r[i], r[j]);
    }
  }

  /** The plot axis: the sorted names, then `'all'` (the `[*algos, 'all']` step). */
  function Axis(order: seq<string>, raw: seq<string>): (r: seq<string>)
    ensures |r| == |raw| + 1 && r[|raw|] == "all"
    ensures multiset(r[..|raw|]) == multiset(raw)
  {
    var sorted := SortByPreference(order, raw);
    assert (sorted + ["all"])[..|raw|] == sorted;
    sorted + ["all"]
  }

  /** The axis before `'all'` is in preference order. */
  lemma AxisSorted(order: seq<string>, raw: seq<string>)
    ensures Sorted(order, Axis(order, raw)[..|raw|])
  {
    SortSorted(order, raw);
    assert Axis(order, raw)[..|raw|] == SortByPreference(order, raw);
  }

  // ---------------------------------------------------------------- the script's own lists

  /** An item found at `k` and nowhere before is found at `k`. */
  lemma ListFindAt<T>(xs: seq<T>, x: T, k: nat)
    requires k < |xs| && xs[k] == x && forall j | 0 <= j < k :: xs[j] != x
    ensures ListFind(xs, x) == k
  {
  }

  /**
   * With a preference list whose first entry is `first` and last entry is
   * `last`, no name follows a `last` column on the axis, and only unlisted
   * names precede a `first` column.
   */
  lemma AxisEnds(order: seq<string>, raw: seq<string>, first: string, last: string, i: nat, j: nat)
    requires |order| > 0 && ListFind(order, first) == 0 && ListFind(order, last) == |order| - 1
    requires i < j < |raw|
    ensures var r := Axis(order, raw);
      && (r[i] == last ==> r[j] == last)
      && (r[j] == first ==> r[i] == first || r[i] !in order)
  {
    assert Axis(order, raw)[..|raw|] == SortByPreference(order, raw);
    PreferredOrder(order, raw, i, j);
  }

  /**
   * On the algorithm axis, the `ecmp` column, last of the preferred list,
   * comes after every other algorithm, and the `ospf` column, first of the
   * list, comes after unlisted algorithms only.
   */
  lemma AlgosAxisEnds(raw: seq<string>, i: nat, j: nat)
    requires i < j < |raw|
    ensures var r := Axis(AlgosPreferredOrder, raw);
      && (r[i] == "ecmp" ==> r[j] == "ecmp")
      && (r[j] == "ospf" ==> r[i] == "ospf" || r[i] !in AlgosPreferredOrder)
  {
    ListFindAt(AlgosPreferredOrder, "ospf", 0);
    ListFindAt(AlgosPreferredOrder, "ecmp", 4);
    AxisEnds(AlgosPreferredOrder, raw, "ospf", "ecmp", i, j);
  }

  /**
   * On the topology axis, the `principle` column, last of the preferred
   * list, comes after every other topology, and the `simpletree` column,
   * first of the list, comes after unlisted topologies only.
   */
  lemma ToposAxisEnds(raw: seq<string>, i: nat, j: nat)
    requires i < j < |raw|
    ensures var r := Axis(ToposPreferredOrder, raw);
      && (r[i] == "principle" ==> r[j] == "principle")
      && (r[j] == "simpletree" ==> r[i] == "simpletree" || r[i] !in ToposPreferredOrder)
  {
    ListFindAt(ToposPreferredOrder, "simpletree", 0);
    ListFindAt(ToposPreferredOrder, "principle", 10);
    AxisEnds(ToposPreferredOrder, raw, "simpletree", "principle", i, j);
  }
}
