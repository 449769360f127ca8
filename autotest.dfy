/**
 * topoautotest.py: the host pairing of the benchmark runs. The hosts are
 * folded in half: the first host is paired with the last, the second with the
 * one before it, and so on. The first pair carries the ping test and the
 * others the iperf tests.
 */
module Autotest {
  import opened Wrappers
  import opened Builtins

  /** Python's reading of a slice bound `i` on a list of length `n`: negative bounds count from the end. */
  function SliceBound(i: int, n: nat): (r: nat)
    ensures r <= n
    ensures 0 <= i <= n ==> r == i
    ensures i < 0 && n + i >= 0 ==> r == n + i
  {
    if i < 0 then (if n + i < 0 then 0 else n + i) else if i > n then n else i
  }

  /** `xs[i:]`. */
  function From<T>(xs: seq<T>, i: int): seq<T>
  {
    xs[SliceBound(i, |xs|)..]
  }

  /** `xs[:j]`. */
  function Upto<T>(xs: seq<T>, j: int): seq<T>
  {
    xs[..SliceBound(j, |xs|)]
  }

  /** `list(zip(a, b))`: pairs up to the shorter of the two. */
  function ZipPairs<T>(a: seq<T>, b: seq<T>): (r: seq<(T, T)>)
  {
    var n := if |a| < |b| then |a| else |b|;
    seq(n, i requires 0 <= i < n => (a[i], b[i]))
  }

  /** `make_host_pairs(hosts)`, with the source's slices as written. */
  function MakeHostPairs<T>(hosts: seq<T>): seq<(T, T)>
  {
    var s := |hosts| / 2;
    var r := From(hosts, -s);
    var rs := |r|;
    var l := Upto(Upto(hosts, -s), rs);
    ZipPairs(l, Reversed(r))
  }

  /**
   * There are `len(hosts)//2` pairs, and pair `i` joins the `i`-th host
   * with the `i`-th from the end. With fewer than two hosts `hosts[-0:]` is
   * the whole list but `hosts[:-0]` is empty, so there are no pairs.
   */
  lemma HostPairs<T>(hosts: seq<T>)
    ensures |MakeHostPairs(hosts)| == |hosts| / 2
    ensures forall i | 0 <= i < |hosts| / 2 :: MakeHostPairs(hosts)[i] == (hosts[i], hosts[|hosts| - 1 - i])
  {
    var n := |hosts|;
    var s := n / 2;
    if s == 0 {
      assert From(hosts, -s) == hosts;
      assert Upto(hosts, -s) == [];
    } else {
      assert From(hosts, -s) == hosts[n - s..];
      assert Upto(Upto(hosts, -s), s) == hosts[..s];
    }
  }

  /** Every host except the middle one of an odd count is in some pair. */
  lemma Paired<T>(hosts: seq<T>, k: nat)
    requires k < |hosts| && !(|hosts| % 2 == 1 && k == |hosts| / 2)
    ensures exists i | 0 <= i < |MakeHostPairs(hosts)| :: MakeHostPairs(hosts)[i].0 == hosts[k] || MakeHostPairs(hosts)[i].1 == hosts[k]
  {
    HostPairs(hosts);
    var n := |hosts|;
    var p := MakeHostPairs(hosts);
    if k < n / 2 {
      assert p[k].0 == hosts[k];
    } else {
      assert p[n - 1 - k].1 == hosts[k];
    }
  }

  /**
   * With distinct hosts the pairs use disjoint hosts: two different pairs
   * share no host and no pair joins a host to itself.
   */
  lemma PairsDisjoint<T>(hosts: seq<T>, i: nat, j: nat)
    requires forall a, b | 0 <= a < b < |hosts| :: hosts[a] != hosts[b]
    requires i < j < |hosts| / 2
    ensures var p := MakeHostPairs(hosts);
      && p[i].0 != p[i].1
      && p[i].0 != p[j].0 && p[i].0 != p[j].1 && p[i].1 != p[j].0 && p[i].1 != p[j].1
  {
    HostPairs(hosts);
  }

  /** The middle host of an odd count, when the hosts are distinct, belongs to no pair. */
  lemma MiddleUnpaired<T>(hosts: seq<T>, i: nat)
    requires forall a, b | 0 <= a < b < |hosts| :: hosts[a] != hosts[b]
    requires |hosts| % 2 == 1 && i < |hosts| / 2
    ensures MakeHostPairs(hosts)[i].0 != hosts[|hosts| / 2] && MakeHostPairs(hosts)[i].1 != hosts[|hosts| / 2]
  {
    HostPairs(hosts);
  }

  /** `pingpair, *iperfpairs = pairs`: fails to unpack an empty list. */
  function PingAndIperf<T>(pairs: seq<(T, T)>): (r: Result<((T, T), seq<(T, T)>)>)
    ensures r.Err? <==> |pairs| == 0
    ensures r.Err? ==> r.error == ValueError
    ensures r.Ok? ==> [r.value.0] + r.value.1 == pairs
  {
    if |pairs| == 0 then Err(ValueError) else Ok((pairs[0], pairs[1..]))
  }

  /**
   * The test plan of `do_tests` and `main`: with at least two hosts the ping
   * runs between the first and the last host and there are `len(hosts)//2 - 1`
   * iperf pairs; with fewer the unpacking raises.
   */
  lemma TestPlan<T>(hosts: seq<T>)
    ensures PingAndIperf(MakeHostPairs(hosts)).Err? <==> |hosts| < 2
    ensures |hosts| >= 2 ==>
      var plan := PingAndIperf(MakeHostPairs(hosts)).value;
      plan.0 == (hosts[0], hosts[|hosts| - 1]) && |plan.1| == |hosts| / 2 - 1
  {
    HostPairs(hosts);
  }
}
