/**
 * Node ids and the canonical order of an undirected link's two endpoints
 * (`_sort_pair` in sortundirectednodepair.py).
 *
 * The controller and the builders write ids as a kind letter followed by a
 * decimal number (`h5`, `s7`). The model keeps an id as that letter and the
 * number `int(a[1:])` reads from it; `Name` gives the text and `ParseNodeId`
 * reads it back. `SortPairText` is `_sort_pair` on raw strings, with the errors
 * it raises, and `SortPairTextNames` ties it to `SortPair` on ids.
 */
module NodePair {
  import opened Text
  import opened Wrappers

  datatype NodeId = NodeId(kind: char, num: int)

  /** The written form: the kind letter, then `str(num)`. */
  function Name(a: NodeId): (r: string)
    ensures |r| > 1 && r[0] == a.kind
    ensures IsInt(r[1..]) && IntValue(r[1..]) == a.num
  {
    TaggedNameSuffix(a.kind, a.num);
    [a.kind] + IntToString(a.num)
  }

  lemma NameInjective(a: NodeId, b: NodeId)
    ensures Name(a) == Name(b) <==> a == b
  {
    if Name(a) == Name(b) {
      assert Name(a)[1..] == Name(b)[1..];
    }
  }

  /** Reading an id: a first character and an integer after it, as `a[0]` and `int(a[1:])` do. */
  function ParseNodeId(s: string): (r: Option<NodeId>)
    ensures r.Some? <==> |s| > 1 && IsInt(s[1..])
    ensures r.Some? ==> r.value.kind == s[0] && r.value.num == IntValue(s[1..])
  {
    if |s| > 1 && IsInt(s[1..]) then Some(NodeId(s[0], IntValue(s[1..]))) else None
  }

  lemma ParseName(a: NodeId)
    ensures ParseNodeId(Name(a)) == Some(a)
  {
  }

  predicate IsHost(a: NodeId) { a.kind == 'h' }
  predicate IsSwitch(a: NodeId) { a.kind == 's' }

  /** `f"h{n}"`. */
  function HostName(n: int): (r: NodeId)
    ensures IsHost(r) && r.num == n
  {
    NodeId('h', n)
  }

  /** `f"s{n}"`. */
  function SwitchName(n: int): (r: NodeId)
    ensures IsSwitch(r) && r.num == n
  {
    NodeId('s', n)
  }

  type Pair = (NodeId, NodeId)

  /**
   * The canonical form of an undirected link: a switch before a host, and two
   * nodes of the same kind in ascending order of their numbers.
   */
  function SortPair(a: NodeId, b: NodeId): (r: Pair)
    ensures r == (a, b) || r == (b, a)
    ensures IsHost(a) && IsSwitch(b) ==> r == (b, a)
    ensures a.kind != b.kind && !(IsHost(a) && IsSwitch(b)) ==> r == (a, b)
    ensures a.kind == b.kind ==> r.0.num <= r.1.num
  {
    if a.kind == 'h' && b.kind == 's' then (b, a)
    else if a.kind != b.kind then (a, b)
    else if a.num > b.num then (b, a)
    else (a, b)
  }

  /** A pair already in canonical order. */
  predicate IsCanonical(p: Pair) { SortPair(p.0, p.1) == p }

  /** Canonicalising twice is canonicalising once. */
  lemma SortPairIdempotent(a: NodeId, b: NodeId)
    ensures IsCanonical(SortPair(a, b))
  {
  }

  /** Host and switch ids, the only kinds a topology holds. */
  predicate Tagged(a: NodeId) { IsHost(a) || IsSwitch(a) }

  /** For host and switch ids both orders of a pair canonicalise to the same link. */
  lemma SortPairSymmetric(a: NodeId, b: NodeId)
    requires Tagged(a) && Tagged(b)
    ensures SortPair(a, b) == SortPair(b, a)
  {
  }

  /**
   * Without the kind restriction the symmetry fails: two ids of kinds other
   * than host and switch keep whatever order they are given.
   */
  lemma SortPairOtherKindsKeepOrder()
    ensures SortPair(NodeId('x', 1), NodeId('y', 2)) == (NodeId('x', 1), NodeId('y', 2))
    ensures SortPair(NodeId('y', 2), NodeId('x', 1)) == (NodeId('y', 2), NodeId('x', 1))
  {
  }

  // ---------------------------------------------------------------- on strings

  /**
   * `_sort_pair(a, b)` on raw strings: `a[0]` or `b[0]` of an empty string
   * raises IndexError, and `int(a[1:])` of a suffix that is not an integer
   * raises ValueError; the suffixes are only read for two ids of the same kind.
   */
  function SortPairText(a: string, b: string): (r: Result<(string, string)>)
    ensures r.Ok? ==> r.value == (a, b) || r.value == (b, a)
    ensures r.Err? <==> |a| == 0 || |b| == 0 || (a[0] == b[0] && !(IsInt(a[1..]) && IsInt(b[1..])))
    ensures r.Err? && (|a| == 0 || |b| == 0) ==> r.error == IndexError
    ensures r.Err? && |a| > 0 && |b| > 0 ==> r.error == ValueError
    ensures r.Ok? && a[0] == 'h' && b[0] == 's' ==> r.value == (b, a)
    ensures r.Ok? && a[0] != b[0] && !(a[0] == 'h' && b[0] == 's') ==> r.value == (a, b)
    ensures r.Ok? && a[0] == b[0] ==> IntValue(r.value.0[1..]) <= IntValue(r.value.1[1..])
    ensures r.Ok? && a[0] == b[0] && IntValue(a[1..]) == IntValue(b[1..]) ==> r.value == (a, b)
  {
    if |a| == 0 || |b| == 0 then Err(IndexError)
    else if a[0] == 'h' && b[0] == 's' then Ok((b, a))
    else if a[0] != b[0] then Ok((a, b))
    else if !IsInt(a[1..]) || !IsInt(b[1..]) then Err(ValueError)
    else if IntValue(a[1..]) > IntValue(b[1..]) then Ok((b, a))
    else Ok((a, b))
  }

  /** On the text of two ids, `_sort_pair` orders them exactly as `SortPair` does. */
  lemma SortPairTextNames(a: NodeId, b: NodeId)
    ensures SortPairText(Name(a), Name(b)) == Ok((Name(SortPair(a, b).0), Name(SortPair(a, b).1)))
  {
  }

  /**
   * Two spellings of one number (`s07` and `s7`) compare equal, so their order
   * is kept: `_sort_pair` is not symmetric on raw strings.
   */
  lemma SortPairTextKeepsEqualSuffixes()
    ensures SortPairText("s07", "s7") == Ok(("s07", "s7"))
    ensures SortPairText("s7", "s07") == Ok(("s7", "s07"))
  {
    assert "s07"[1..] == "07" && "s7"[1..] == "7";
    assert IsInt("07") && IsInt("7");
    assert DigitsValue("07") == 7 by {
      assert "07"[..1] == "0";
    }
  }
}
