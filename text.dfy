/**
 * The parts of Python's `str`, `int`, `hex`, `str.split` and `str.join` that the
 * controller and its tools rely on, restricted to ASCII. `int(s)` and
 * `int(s, 16)` read an optional sign and digits only: the surrounding
 * whitespace, the underscores between digits and the `0x` prefix that Python
 * also accepts are not read.
 */
module Text {
  import opened Wrappers

  // ---------------------------------------------------------------- decimal

  predicate IsDigit(c: char) { '0' <= c <= '9' }

  predicate AllDigits(s: string) { forall i :: 0 <= i < |s| ==> IsDigit(s[i]) }

  /** The value of a string of decimal digits, most significant first. */
  function DigitsValue(s: string): nat
    requires AllDigits(s)
  {
    if |s| == 0 then 0 else DigitsValue(s[..|s| - 1]) * 10 + (s[|s| - 1] as int - '0' as int)
  }

  /** What `int(s)` accepts here: an optional sign followed by at least one ASCII digit. */
  predicate IsInt(s: string)
  {
    (|s| > 0 && AllDigits(s)) || (|s| > 1 && (s[0] == '-' || s[0] == '+') && AllDigits(s[1..]))
  }

  /** The value `int(s)` returns. */
  function IntValue(s: string): int
    requires IsInt(s)
  {
    if |s| > 0 && AllDigits(s) then DigitsValue(s)
    else if s[0] == '-' then -(DigitsValue(s[1..]) as int)
    else DigitsValue(s[1..])
  }

  function DigitChar(d: nat): char
    requires d < 10
  {
    ('0' as int + d) as char
  }

  /** `str(n)` for a natural number: decimal, no leading zeros. */
  function NatToString(n: nat): (r: string)
    ensures |r| > 0 && AllDigits(r)
    ensures |r| > 1 ==> r[0] != '0'
    decreases n
  {
    if n < 10 then [DigitChar(n)] else NatToString(n / 10) + [DigitChar(n % 10)]
  }

  /** `str(i)` for any integer. */
  function IntToString(i: int): (r: string)
    ensures |r| > 0
  {
    if i < 0 then "-" + NatToString(-i) else NatToString(i)
  }

  lemma {:induction false} NatToStringValue(n: nat)
    ensures DigitsValue(NatToString(n)) == n
    decreases n
  {
    var r := NatToString(n);
    if n >= 10 {
      NatToStringValue(n / 10);
      assert r[..|r| - 1] == NatToString(n / 10);
    }
  }

  /** `int(str(i)) == i`: decimal rendering round-trips. */
  lemma IntToStringRoundTrip(i: int)
    ensures IsInt(IntToString(i)) && IntValue(IntToString(i)) == i
  {
    if i < 0 {
      var d := NatToString(-i);
      assert IntToString(i)[1..] == d;
      NatToStringValue(-i);
    } else {
      NatToStringValue(i);
    }
  }

  /** Distinct integers render to distinct strings. */
  lemma IntToStringInjective(i: int, j: int)
    ensures IntToString(i) == IntToString(j) ==> i == j
  {
    IntToStringRoundTrip(i);
    IntToStringRoundTrip(j);
  }

  lemma NatToStringHasNoChar(n: nat, c: char)
    requires !IsDigit(c)
    ensures c !in NatToString(n)
  {
  }

  lemma IntToStringHasNoChar(i: int, c: char)
    requires !IsDigit(c) && c != '-'
    ensures c !in IntToString(i)
  {
    if i < 0 {
      NatToStringHasNoChar(-i, c);
    }
  }

  /** A prefix letter followed by `str(n)` parses back to `n` after the letter. */
  lemma TaggedNameSuffix(tag: char, n: int)
    ensures |[tag] + IntToString(n)| > 1
    ensures ([tag] + IntToString(n))[0] == tag
    ensures ([tag] + IntToString(n))[1..] == IntToString(n)
    ensures IsInt(([tag] + IntToString(n))[1..]) && IntValue(([tag] + IntToString(n))[1..]) == n
  {
    assert ([tag] + IntToString(n))[1..] == IntToString(n);
    IntToStringRoundTrip(n);
  }

  // ---------------------------------------------------------------- hexadecimal

  predicate IsHexDigit(c: char) { IsDigit(c) || ('a' <= c <= 'f') || ('A' <= c <= 'F') }

  function HexDigitValue(c: char): nat
    requires IsHexDigit(c)
  {
    if IsDigit(c) then c as int - '0' as int
    else if 'a' <= c <= 'f' then c as int - 'a' as int + 10
    else c as int - 'A' as int + 10
  }

  predicate AllHexDigits(s: string) { forall i :: 0 <= i < |s| ==> IsHexDigit(s[i]) }

  function HexDigitsValue(s: string): nat
    requires AllHexDigits(s)
  {
    if |s| == 0 then 0 else HexDigitsValue(s[..|s| - 1]) * 16 + HexDigitValue(s[|s| - 1])
  }

  /** What `int(s, 16)` accepts here: an optional sign and at least one hex digit. */
  predicate IsHexInt(s: string)
  {
    (|s| > 0 && AllHexDigits(s)) || (|s| > 1 && (s[0] == '-' || s[0] == '+') && AllHexDigits(s[1..]))
  }

  function HexIntValue(s: string): int
    requires IsHexInt(s)
  {
    if |s| > 0 && AllHexDigits(s) then HexDigitsValue(s)
    else if s[0] == '-' then -(HexDigitsValue(s[1..]) as int)
    else HexDigitsValue(s[1..])
  }

  function LowerHexChar(d: nat): (c: char)
    requires d < 16
    ensures IsHexDigit(c) && HexDigitValue(c) == d
  {
    if d < 10 then DigitChar(d) else ('a' as int + d - 10) as char
  }

  /** The digits of `hex(n)` after its `0x` prefix: lower case, no leading zeros. */
  function NatToHex(n: nat): (r: string)
    ensures |r| > 0 && AllHexDigits(r)
    decreases n
  {
    if n < 16 then [LowerHexChar(n)] else NatToHex(n / 16) + [LowerHexChar(n % 16)]
  }

  /** `hex(n)` for a natural number. */
  function Hex(n: nat): string
  {
    "0x" + NatToHex(n)
  }

  lemma {:induction false} NatToHexValue(n: nat)
    ensures HexDigitsValue(NatToHex(n)) == n
    decreases n
  {
    var r := NatToHex(n);
    if n >= 16 {
      NatToHexValue(n / 16);
      assert r[..|r| - 1] == NatToHex(n / 16);
    }
  }

  // ---------------------------------------------------------------- split and join

  /** `s.split(sep)` for a one-character separator: every field, empty ones included. */
  function Split(s: string, sep: char): (r: seq<string>)
    ensures |r| > 0
    ensures forall i :: 0 <= i < |r| ==> sep !in r[i]
    decreases |s|
  {
    if sep !in s then [s]
    else
      var i := IndexOf(s, sep);
      [s[..i]] + Split(s[i + 1..], sep)
  }

  /** The position of the first `c` in `s`. */
  function IndexOf(s: string, c: char): (i: nat)
    requires c in s
    ensures i < |s| && s[i] == c && c !in s[..i]
  {
    if s[0] == c then 0 else
      var j := IndexOf(s[1..], c);
      assert s[1..][..j] == s[1..j + 1];
      1 + j
  }

  /** `sep.join(parts)`. */
  function Join(parts: seq<string>, sep: char): string
  {
    if |parts| == 0 then ""
    else if |parts| == 1 then parts[0]
    else parts[0] + [sep] + Join(parts[1..], sep)
  }

  /** Splitting a join gives the parts back when no part holds the separator. */
  lemma {:induction false} SplitJoin(parts: seq<string>, sep: char)
    requires |parts| > 0
    requires forall i :: 0 <= i < |parts| ==> sep !in parts[i]
    ensures Split(Join(parts, sep), sep) == parts
    decreases |parts|
  {
    if |parts| > 1 {
      var rest := Join(parts[1..], sep);
      var s := parts[0] + [sep] + rest;
      assert s[|parts[0]|] == sep;
      assert sep in s;
      var i := IndexOf(s, sep);
      assert s[..|parts[0]|] == parts[0];
      assert i == |parts[0]|;
      assert s[..i] == parts[0];
      assert s[i + 1..] == rest;
      SplitJoin(parts[1..], sep);
    }
  }
}
