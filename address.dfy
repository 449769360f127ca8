/**
 * The address codec of id2ip.py: a host number is split into three mixed-radix
 * components (radices 256·254, 256 and 254, the last shifted to 1..254), shown
 * as an IPv4 address under 10.0.0.0/8 or as a MAC address under 6f:3d:01.
 */
module Address {
  import opened Wrappers
  import opened Text
  import opened NodePair

  /** `id2lst(s)`. Python's `//` and `%` with a positive divisor agree with Dafny's. */
  function IdToList(s: int): (r: seq<int>)
    ensures |r| == 3
    ensures 0 <= r[1] <= 255 && 1 <= r[2] <= 254
    ensures s >= 0 ==> r[0] >= 0
  {
    [s / (256 * 254), (s / 254) % 256, (s % 254) + 1]
  }

  /** `lst2id(s)`: reads the last three components; fewer than three raise `IndexError`. */
  function ListToId(s: seq<int>): (r: Result<int>)
    ensures r.Err? <==> |s| < 3
  {
    if |s| < 3 then Err(IndexError)
    else Ok(s[|s| - 3] * 256 * 254 + s[|s| - 2] * 254 + s[|s| - 1] - 1)
  }

  lemma {:induction false} MulAtLeast(d: int, x: int)
    requires d > 0 && x >= 1
    ensures d * x >= d
    decreases x
  {
    if x > 1 {
      MulAtLeast(d, x - 1);
      assert d * x == d * (x - 1) + d;
    }
  }

  /** Euclidean division is unique: the quotient and remainder are the only ones. */
  lemma DivUnique(s: int, d: int, t: int, w: int)
    requires d > 0 && s == d * t + w && 0 <= w < d
    ensures s / d == t && s % d == w
  {
    var x := s / d - t;
    assert s == d * (s / d) + s % d;
    assert d * x == w - s % d by {
      assert d * x == d * (s / d) - d * t;
    }
    if x >= 1 {
      MulAtLeast(d, x);
    }
  }

  /** Splitting and recombining gives the id back, for every integer. */
  lemma {:induction false} ListRoundTrip(s: int)
    ensures ListToId(IdToList(s)) == Ok(s)
  {
    var q := s / 254;
    var r := s % 254;
    var t := q / 256;
    var u := q % 256;
    assert s == 254 * q + r;
    assert q == 256 * t + u;
    assert s == (256 * 254) * t + (254 * u + r);
    DivUnique(s, 256 * 254, t, 254 * u + r);
  }

  /** The first component fits a byte exactly while the id is below 256·256·254. */
  lemma FirstComponentBound(s: int)
    requires s >= 0
    ensures IdToList(s)[0] <= 255 <==> s < 256 * 256 * 254
  {
    if s >= 256 * 256 * 254 {
      DivMonotone(256 * 256 * 254, s, 256 * 254);
      assert (256 * 256 * 254) / (256 * 254) == 256;
    }
  }

  lemma DivMonotone(a: int, b: int, d: int)
    requires d > 0 && a <= b
    ensures a / d <= b / d
  {
    var qa, qb := a / d, b / d;
    assert a == d * qa + a % d && b == d * qb + b % d;
    if qa > qb {
      MulAtLeast(d, qa - qb);
    }
  }

  /** The decimal fields of a component list. */
  function DecimalFields(l: seq<int>): (r: seq<string>)
    ensures |r| == |l|
    ensures forall i | 0 <= i < |r| :: r[i] == IntToString(l[i])
  {
    if |l| == 0 then [] else [IntToString(l[0])] + DecimalFields(l[1..])
  }

  /** `id2ip(s)`: `10.` followed by the three components in decimal. */
  function IdToIp(s: int): string
  {
    "10." + Join(DecimalFields(IdToList(s)), '.')
  }

  /** The value of each field under `int`, or the error of the first field it rejects. */
  function ParseDecimalFields(fields: seq<string>): (r: Result<seq<int>>)
    ensures r.Err? ==> r.error == ValueError
  {
    if |fields| == 0 then Ok([])
    else if !IsInt(fields[0]) then Err(ValueError)
    else
      match ParseDecimalFields(fields[1..])
      case Err(e) => Err(e)
      case Ok(rest) => Ok([IntValue(fields[0])] + rest)
  }

  /** `ip2id(s)`: every dot field must parse as an integer, and only the last three count. */
  function IpToId(s: string): (r: Result<int>)
  {
    match ParseDecimalFields(Split(s, '.'))
    case Err(e) => Err(e)
    case Ok(l) => ListToId(l)
  }

  lemma DecimalFieldsHaveNoDot(l: seq<int>)
    ensures forall i | 0 <= i < |DecimalFields(l)| :: '.' !in DecimalFields(l)[i]
  {
    forall i | 0 <= i < |DecimalFields(l)| ensures '.' !in DecimalFields(l)[i] {
      IntToStringHasNoChar(l[i], '.');
    }
  }

  /** Decimal fields parse back to the integers they show. */
  lemma {:induction false} DecimalFieldsParse(l: seq<int>)
    ensures ParseDecimalFields(DecimalFields(l)) == Ok(l)
    decreases |l|
  {
    if |l| > 0 {
      IntToStringRoundTrip(l[0]);
      assert DecimalFields(l)[1..] == DecimalFields(l[1..]);
      DecimalFieldsParse(l[1..]);
      assert [l[0]] + l[1..] == l;
    }
  }

  /** `sep.join([p] + rest)` for a non-empty rest. */
  lemma JoinCons(p: string, rest: seq<string>, sep: char)
    requires |rest| > 0
    ensures Join([p] + rest, sep) == p + [sep] + Join(rest, sep)
  {
    assert ([p] + rest)[1..] == rest;
  }

  /** The rendered address always names the id it came from. */
  lemma IpRoundTrip(s: int)
    ensures IpToId(IdToIp(s)) == Ok(s)
  {
    var l := IdToList(s);
    var fields := DecimalFields([10] + l);
    DecimalFieldsHaveNoDot([10] + l);
    assert IntToString(10) == "10" by {
      assert NatToString(10) == NatToString(1) + [DigitChar(0)];
    }
    assert fields == ["10"] + DecimalFields(l);
    JoinCons("10", DecimalFields(l), '.');
    assert IdToIp(s) == Join(fields, '.');
    SplitJoin(fields, '.');
    assert Split(IdToIp(s), '.') == fields;
    DecimalFieldsParse([10] + l);
    assert ParseDecimalFields(fields) == Ok([10] + l);
    ListToIdCons(10, l);
    ListRoundTrip(s);
  }

  /** A leading component does not change what `lst2id` reads from three or more. */
  lemma ListToIdCons(x: int, l: seq<int>)
    requires |l| >= 3
    ensures ListToId([x] + l) == ListToId(l)
  {
    var m := [x] + l;
    assert m[|m| - 3] == l[|l| - 3] && m[|m| - 2] == l[|l| - 2] && m[|m| - 1] == l[|l| - 1];
  }

  /**
   * What the controller relies on: host `hN` is given `id2ip(N - 1)`, and the
   * address read back from a flow names `h{ip2id(ip) + 1}`, the same host.
   */
  lemma HostAddressRoundTrip(n: int)
    ensures IpToId(IdToIp(HostName(n).num - 1)).Ok?
    ensures HostName(IpToId(IdToIp(HostName(n).num - 1)).value + 1) == HostName(n)
  {
    IpRoundTrip(n - 1);
  }

  /** `id2ip(0)` is `10.0.0.1`, the address of `h1`. */
  lemma FirstHostAddress()
    ensures IdToIp(0) == "10.0.0.1"
  {
    assert IdToList(0) == [0, 0, 1];
    assert DecimalFields([0, 0, 1]) == ["0", "0", "1"];
  }

  // ---------------------------------------------------------------- MAC addresses

  /** The last two characters of a string of at least two. */
  function LastTwo(s: string): string
    requires |s| >= 2
  {
    s[|s| - 2..]
  }

  /**
   * `int2hexbyte(s)` as written: it formats the constant 256, not `s`, so the
   * two characters are always `00`.
   */
  function HexByteAsWritten(s: int): (r: string)
  {
    LastTwo("0" + Hex(256)[2..])
  }

  lemma HexByteAsWrittenIsZero(s: int)
    ensures HexByteAsWritten(s) == "00"
  {
    assert NatToHex(256) == NatToHex(16) + [LowerHexChar(0)];
    assert NatToHex(16) == NatToHex(1) + [LowerHexChar(0)];
    assert NatToHex(256) == "100";
  }

  function HexFields(l: seq<int>, byte: int -> string): (r: seq<string>)
    ensures |r| == |l|
    ensures forall i | 0 <= i < |l| :: r[i] == byte(l[i])
  {
    if |l| == 0 then [] else [byte(l[0])] + HexFields(l[1..], byte)
  }

  /** `id2mac(s)` as written. */
  function MacAsWritten(s: int): string
  {
    "6f:3d:01:" + Join(HexFields(IdToList(s), HexByteAsWritten), ':')
  }

  /** The value of each field under `int(x, 16)`, or `ValueError`. */
  function ParseHexFields(fields: seq<string>): (r: Result<seq<int>>)
    ensures r.Ok? ==> |r.value| == |fields|
    ensures r.Err? ==> r.error == ValueError
  {
    if |fields| == 0 then Ok([])
    else if !IsHexInt(fields[0]) then Err(ValueError)
    else
      match ParseHexFields(fields[1..])
      case Err(e) => Err(e)
      case Ok(rest) => Ok([HexIntValue(fields[0])] + rest)
  }

  /** `mac2id(s)`. */
  function MacToId(s: string): Result<int>
  {
    match ParseHexFields(Split(s, ':'))
    case Err(e) => Err(e)
    case Ok(l) => ListToId(l)
  }

  /** Parsing a concatenation of fields parses each part. */
  lemma {:induction false} ParseHexFieldsAppend(a: seq<string>, b: seq<string>)
    requires ParseHexFields(a).Ok? && ParseHexFields(b).Ok?
    ensures ParseHexFields(a + b) == Ok(ParseHexFields(a).value + ParseHexFields(b).value)
    decreases |a|
  {
    if |a| > 0 {
      assert (a + b)[1..] == a[1..] + b;
      assert (a + b)[0] == a[0];
      ParseHexFieldsAppend(a[1..], b);
      var x := HexIntValue(a[0]);
      var ra, rb := ParseHexFields(a[1..]).value, ParseHexFields(b).value;
      assert ParseHexFields(a).value == [x] + ra;
      assert [x] + (ra + rb) == ([x] + ra) + rb;
    } else {
      assert a + b == b;
      assert ParseHexFields(a).value == [];
      assert [] + ParseHexFields(b).value == ParseHexFields(b).value;
    }
  }

  /** The fixed `6f:3d:01` prefix parses (its values do not matter: only the last three fields count). */
  lemma MacPrefixParses()
    ensures ParseHexFields(["6f", "3d", "01"]).Ok?
  {
    assert IsHexInt("6f") && IsHexInt("3d") && IsHexInt("01");
  }

  /** The MAC text the prefix and three byte fields make, ready for splitting. */
  lemma MacText(hf: seq<string>)
    requires |hf| == 3
    ensures "6f:3d:01:" + Join(hf, ':') == Join(["6f", "3d", "01"] + hf, ':')
  {
    var f := ["6f", "3d", "01"] + hf;
    assert f == ["6f"] + (["3d"] + (["01"] + hf));
    JoinCons("01", hf, ':');
    JoinCons("3d", ["01"] + hf, ':');
    JoinCons("6f", ["3d"] + (["01"] + hf), ':');
  }

  /** `00:00:00`, the three byte fields joined. */
  lemma ZeroFieldsText()
    ensures "6f:3d:01:" + Join(["00", "00", "00"], ':') == "6f:3d:01:00:00:00"
  {
    assert ["00", "00"] == ["00"] + ["00"];
    JoinCons("00", ["00"], ':');
    assert Join(["00", "00"], ':') == "00:00";
    assert ["00", "00", "00"] == ["00"] + ["00", "00"];
    JoinCons("00", ["00", "00"], ':');
    assert Join(["00", "00", "00"], ':') == "00:00:00";
  }

  /** The three byte fields as written: always `00:00:00`. */
  lemma MacAsWrittenConstant(s: int)
    ensures MacAsWritten(s) == "6f:3d:01:00:00:00"
  {
    HexByteAsWrittenIsZero(IdToList(s)[0]);
    HexByteAsWrittenIsZero(IdToList(s)[1]);
    HexByteAsWrittenIsZero(IdToList(s)[2]);
    assert HexFields(IdToList(s), HexByteAsWritten) == ["00", "00", "00"];
    ZeroFieldsText();
  }

  /** Splitting a MAC made of the fixed prefix and three colon-free fields gives the six fields. */
  lemma {:induction false} MacSplit(hf: seq<string>)
    requires |hf| == 3 && forall i | 0 <= i < 3 :: ':' !in hf[i]
    ensures Split("6f:3d:01:" + Join(hf, ':'), ':') == ["6f", "3d", "01"] + hf
  {
    var fields := ["6f", "3d", "01"] + hf;
    MacText(hf);
    assert forall i | 0 <= i < |fields| :: ':' !in fields[i] by {
      forall i | 0 <= i < |fields| ensures ':' !in fields[i] {
        if i >= 3 {
          assert fields[i] == hf[i - 3];
        }
      }
    }
    SplitJoin(fields, ':');
  }

  /** `lst2id` reads only the last three components. */
  lemma {:induction false} ListToIdLastThree(p: seq<int>, l: seq<int>)
    requires |l| == 3
    ensures ListToId(p + l) == ListToId(l)
  {
    var all := p + l;
    assert all[|all| - 3] == l[0] && all[|all| - 2] == l[1] && all[|all| - 1] == l[2];
  }

  /** Reading back a MAC made of the fixed prefix and three byte fields. */
  lemma {:induction false} MacParse(hf: seq<string>, l: seq<int>)
    requires |hf| == 3 && forall i | 0 <= i < 3 :: ':' !in hf[i]
    requires ParseHexFields(hf) == Ok(l)
    ensures MacToId("6f:3d:01:" + Join(hf, ':')) == ListToId(l)
  {
    var prefix := ["6f", "3d", "01"];
    MacSplit(hf);
    MacPrefixParses();
    ParseHexFieldsAppend(prefix, hf);
    ListToIdLastThree(ParseHexFields(prefix).value, l);
  }

  /** The all-zero MAC reads back as −1. */
  lemma {:induction false} ZeroMacReadsBack()
    ensures MacToId("6f:3d:01:" + Join(["00", "00", "00"], ':')) == Ok(-1)
  {
    var zeros := ["00", "00", "00"];
    assert ParseHexFields(zeros) == Ok([0, 0, 0]) by {
      ZeroHexFields();
      HexFieldsParse([0, 0, 0]);
    }
    assert forall i | 0 <= i < 3 :: ':' !in zeros[i];
    MacParse(zeros, [0, 0, 0]);
  }

  lemma ZeroHexFields()
    ensures HexFieldsOf([0, 0, 0]) == ["00", "00", "00"]
  {
    HexByteZero();
  }

  /** Every id gives the same MAC, and it reads back as −1: there is no round trip. */
  lemma {:induction false} MacRoundTripBroken(s: int)
    ensures MacAsWritten(s) == "6f:3d:01:00:00:00"
    ensures MacToId(MacAsWritten(s)) == Ok(-1)
  {
    MacAsWrittenConstant(s);
    ZeroFieldsText();
    ZeroMacReadsBack();
  }

  /** `int2hexbyte` as intended: the last two hex digits of its argument, zero-padded. */
  function HexByte(n: nat): (r: string)
    ensures |r| == 2
  {
    LastTwo("0" + NatToHex(n))
  }

  lemma HexByteValue(n: nat)
    requires n < 256
    ensures AllHexDigits(HexByte(n)) && HexDigitsValue(HexByte(n)) == n
    ensures ':' !in HexByte(n)
  {
    var h := HexByte(n);
    if n < 16 {
      assert h == ['0', LowerHexChar(n)];
      assert h[..1] == ['0'];
      assert HexDigitsValue(h[..1]) == 0 by {
        assert h[..1][..0] == [];
      }
    } else {
      var hi, lo := LowerHexChar(n / 16), LowerHexChar(n % 16);
      assert NatToHex(n / 16) == [hi];
      assert NatToHex(n) == [hi, lo];
      assert h == [hi, lo];
      assert h[..1] == [hi];
      assert HexDigitsValue([hi]) == n / 16 by {
        assert [hi][..0] == [];
      }
      assert n == (n / 16) * 16 + n % 16;
    }
  }

  function HexFieldsOf(l: seq<int>): (r: seq<string>)
    requires forall i | 0 <= i < |l| :: 0 <= l[i]
    ensures |r| == |l|
    ensures forall i | 0 <= i < |l| :: r[i] == HexByte(l[i])
  {
    if |l| == 0 then [] else [HexByte(l[0])] + HexFieldsOf(l[1..])
  }

  lemma {:induction false} HexFieldsParse(l: seq<int>)
    requires forall i | 0 <= i < |l| :: 0 <= l[i] < 256
    ensures ParseHexFields(HexFieldsOf(l)) == Ok(l)
    decreases |l|
  {
    if |l| > 0 {
      var hf := HexFieldsOf(l);
      assert IsHexInt(hf[0]) && HexIntValue(hf[0]) == l[0] by {
        HexByteValue(l[0]);
        assert hf[0] == HexByte(l[0]);
      }
      assert hf[1..] == HexFieldsOf(l[1..]);
      HexFieldsParse(l[1..]);
      assert ParseHexFields(hf) == Ok([l[0]] + l[1..]);
      assert [l[0]] + l[1..] == l;
    }
  }

  lemma HexByteZero()
    ensures HexByte(0) == "00"
  {
    assert NatToHex(0) == "0";
  }

  /** `id2mac(s)` with the evident intent, `int2hexbyte(s)` formatting `s`. */
  function Mac(s: nat): string
  {
    "6f:3d:01:" + Join(HexFieldsOf(IdToList(s)), ':')
  }

  /** With each component formatted, the MAC names the id it came from while the first component fits a byte. */
  lemma MacRoundTrip(s: nat)
    requires s < 256 * 256 * 254
    ensures MacToId(Mac(s)) == Ok(s)
  {
    var l := IdToList(s);
    FirstComponentBound(s);
    var hf := HexFieldsOf(l);
    forall i | 0 <= i < 3 ensures ':' !in hf[i] {
      HexByteValue(l[i]);
    }
    HexFieldsParse(l);
    MacParse(hf, l);
    ListRoundTrip(s);
  }
}
