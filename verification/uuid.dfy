/** `uuid.UUID`: a 128-bit value, its canonical text form `str(u)`, and the `UUID(hex)`
    constructor that token claims go through. */
module Uuids {
  import opened Wrappers
  import PyStr
  import Decimal

  const Bound: nat := 0x1_0000_0000_0000_0000_0000_0000_0000_0000

  type U128 = n: nat | n < Bound

  datatype Uuid = Uuid(value: U128)

  lemma {:induction false} Pow16Add(a: nat, b: nat)
    ensures Decimal.Pow16(a + b) == Decimal.Pow16(a) * Decimal.Pow16(b)
  {
    if a > 0 {
      Pow16Add(a - 1, b);
    }
  }

  lemma Pow16Of32()
    ensures Decimal.Pow16(32) == Bound
  {
    assert Decimal.Pow16(2) == 256;
    Pow16Add(2, 2);
    Pow16Add(4, 4);
    Pow16Add(8, 8);
    Pow16Add(16, 16);
  }

  /** Text made only of hexadecimal digits. */
  predicate AllHex(s: string) {
    forall i | 0 <= i < |s| :: Decimal.IsHexDigit(s[i])
  }

  /** Text made of hexadecimal digits and hyphens. */
  predicate HexOrHyphen(s: string) {
    forall i | 0 <= i < |s| :: Decimal.IsHexDigit(s[i]) || s[i] == '-'
  }

  lemma AllHexSlice(s: string, i: nat, j: nat)
    requires AllHex(s) && i <= j <= |s|
    ensures AllHex(s[i..j]) && HexOrHyphen(s[i..j]) && '-' !in s[i..j]
  {
    assert forall k | 0 <= k < j - i :: s[i..j][k] == s[i + k];
  }

  /** The 32 lower-case hexadecimal digits of the value, zero-padded (`u.hex`). */
  function Hex(u: Uuid): (h: string)
    ensures |h| == 32 && AllHex(h)
    ensures forall i | 0 <= i < 32 :: !('A' <= h[i] <= 'Z')
  {
    Pow16Of32();
    Decimal.HexFixed(u.value, 32)
  }

  /** The hex digits denote the value. */
  lemma HexValue(u: Uuid)
    ensures Decimal.HexDigitsValue(Hex(u)) == u.value
  {
    Pow16Of32();
    Decimal.HexFixedValue(u.value, 32);
  }

  /** `str(u)`: the hex digits grouped 8-4-4-4-12 with hyphens. */
  function ToString(u: Uuid): (s: string)
    ensures |s| == 36
    ensures s[8] == '-' && s[13] == '-' && s[18] == '-' && s[23] == '-'
    ensures HexOrHyphen(s) && Decimal.IsHexDigit(s[0]) && Decimal.IsHexDigit(s[35])
  {
    var h := Hex(u);
    AllHexSlice(h, 0, 8);
    AllHexSlice(h, 8, 12);
    AllHexSlice(h, 12, 16);
    AllHexSlice(h, 16, 20);
    AllHexSlice(h, 20, 32);
    Groups(h[..8], h[8..12], h[12..16], h[16..20], h[20..])
  }

  /** `a-b-c-d-e`. */
  function Groups(a: string, b: string, c: string, d: string, e: string): (s: string)
    requires |a| == 8 && |b| == 4 && |c| == 4 && |d| == 4 && |e| == 12
    requires HexOrHyphen(a) && HexOrHyphen(b) && HexOrHyphen(c) && HexOrHyphen(d) && HexOrHyphen(e)
    requires Decimal.IsHexDigit(a[0]) && Decimal.IsHexDigit(e[11])
    ensures |s| == 36
    ensures s[8] == '-' && s[13] == '-' && s[18] == '-' && s[23] == '-'
    ensures HexOrHyphen(s) && Decimal.IsHexDigit(s[0]) && Decimal.IsHexDigit(s[35])
  {
    var r4 := Dash(d, e);
    var r3 := Dash(c, r4);
    var r2 := Dash(b, r3);
    var r1 := Dash(a, r2);
    assert r1[13] == r2[4] && r1[18] == r2[9] && r1[23] == r2[14] && r1[35] == r2[26];
    assert r2[9] == r3[4] && r2[14] == r3[9] && r2[26] == r3[21];
    assert r3[9] == r4[4] && r3[21] == r4[16];
    assert r4[16] == e[11];
    r1
  }

  /** `a + "-" + rest`. */
  function Dash(a: string, rest: string): (s: string)
    ensures |s| == |a| + 1 + |rest|
    ensures s[|a|] == '-'
    ensures forall k | 0 <= k < |rest| :: s[|a| + 1 + k] == rest[k]
    ensures forall k | 0 <= k < |a| :: s[k] == a[k]
    ensures HexOrHyphen(a) && HexOrHyphen(rest) ==> HexOrHyphen(s)
  {
    a + ("-" + rest)
  }

  /** The characters `int(x, 16)` skips around the digits: ASCII whitespace and the non-ASCII
      characters `str.isspace` accepts (CPython maps those to a space first). The separators
      U+001C..U+001F are kept and therefore rejected. */
  const IntSpace: set<char> := PyStr.Whitespace - {'\U{001C}', '\U{001D}', '\U{001E}', '\U{001F}'}

  /** Hexadecimal digits with single underscores between them, as `int(x, 16)` accepts. */
  predicate UnderscoredDigits(b: string) {
    |b| > 0 && Decimal.IsHexDigit(b[0]) && Decimal.IsHexDigit(b[|b| - 1]) &&
    (forall i | 0 <= i < |b| :: Decimal.IsHexDigit(b[i]) || b[i] == '_') &&
    (forall i | 0 <= i < |b| - 1 :: !(b[i] == '_' && b[i + 1] == '_'))
  }

  /** The digits of `b` once its underscores are dropped. */
  function DigitsOf(b: string): (d: string)
    requires UnderscoredDigits(b)
    ensures |d| > 0
    ensures forall i | 0 <= i < |d| :: Decimal.IsHexDigit(d[i])
    ensures '_' !in b ==> d == b
  {
    var d := PyStr.RemoveAll(b, "_");
    PyStr.RemoveAllSkip([b[0]], b[1..], "_");
    assert [b[0]] + b[1..] == b;
    forall i | 0 <= i < |d|
      ensures Decimal.IsHexDigit(d[i])
    {
      assert d[i] in b;
      var j :| 0 <= j < |b| && b[j] == d[i];
    }
    d
  }

  /** The sign `int()` accepts before the digits: whether it is a minus, and the rest. */
  function SplitSign(t: string): (r: (bool, string))
    ensures r.1 == t || (|t| > 0 && r.1 == t[1..])
    ensures r.0 ==> |t| > 0 && t[0] == '-'
  {
    if |t| > 0 && (t[0] == '+' || t[0] == '-') then (t[0] == '-', t[1..]) else (false, t)
  }

  /** Drops a leading `0x` or `0X` and the one underscore that may follow it. */
  function DropHexPrefix(u: string): (b: string)
    ensures |b| <= |u|
  {
    if |u| >= 2 && u[0] == '0' && (u[1] == 'x' || u[1] == 'X') then
      if |u| >= 3 && u[2] == '_' then u[3..] else u[2..]
    else u
  }

  /** The value of underscored digits, or `None` when they are malformed. */
  function DigitsValue(b: string): (r: Option<nat>)
    ensures r.Some? <==> UnderscoredDigits(b)
  {
    if UnderscoredDigits(b) then Some(Decimal.HexDigitsValue(DigitsOf(b))) else None
  }

  /** `int(x, 16)`: surrounding whitespace, an optional sign, an optional `0x`/`0X` prefix that
      may be followed by one underscore, then underscored digits. `None` is Python's
      `ValueError`. Unicode decimal digits other than ASCII, which CPython also accepts, are
      not modelled. */
  function ParseHexInt(x: string): Option<int>
  {
    var (neg, u) := SplitSign(PyStr.StripSet(x, IntSpace));
    match DigitsValue(DropHexPrefix(u))
    case None => None
    case Some(v) => Some(if neg then -(v as int) else v)
  }

  /** `UUID(hex)` for a string: the `urn:` and `uuid:` markers, the braces at either end and all
      hyphens are removed, then the rest is read by `FromHex`. `None` is Python's
      `ValueError`. */
  function Parse(s: string): Option<Uuid>
  {
    FromHex(Compact(s))
  }

  /** Exactly 32 characters must remain and form a hexadecimal integer in range. */
  function FromHex(h: string): (r: Option<Uuid>)
    ensures r.Some? ==> |h| == 32
  {
    if |h| != 32 then None
    else
      match ParseHexInt(h)
      case None => None
      case Some(v) => if 0 <= v < Bound then Some(Uuid(v)) else None
  }

  /** The 32-character candidate `UUID(hex)` extracts from its argument. */
  function Compact(s: string): (h: string)
    ensures '-' !in h
  {
    var a := PyStr.RemoveAll(PyStr.RemoveAll(s, "urn:"), "uuid:");
    PyStr.RemoveAll(PyStr.StripSet(a, {'{', '}'}), "-")
  }

  lemma HexDigitNotSpace(c: char)
    requires Decimal.IsHexDigit(c)
    ensures c !in IntSpace && c !in {'{', '}'} && c != '-' && c != '+' && c != '_' && c != 'x' && c != 'X'
  {
  }

  lemma StripBraces(s: string)
    requires |s| > 0 ==> Decimal.IsHexDigit(s[0]) && Decimal.IsHexDigit(s[|s| - 1])
    ensures PyStr.StripSet(s, {'{', '}'}) == s
  {
    PyStr.StripSetUnchanged(s, {'{', '}'});
  }

  lemma CompactUnbraced(s: string)
    requires 'u' !in s
    requires PyStr.StripSet(s, {'{', '}'}) == s
    ensures Compact(s) == PyStr.RemoveAll(s, "-")
  {
  }

  /** Without markers or braces, `Compact` only drops the hyphens. */
  lemma CompactHexOrHyphen(s: string)
    requires HexOrHyphen(s)
    requires |s| > 0 ==> Decimal.IsHexDigit(s[0]) && Decimal.IsHexDigit(s[|s| - 1])
    ensures Compact(s) == PyStr.RemoveAll(s, "-")
  {
    NoMarker(s);
    StripBraces(s);
    CompactUnbraced(s);
  }

  lemma NoMarker(s: string)
    requires HexOrHyphen(s)
    ensures 'u' !in s
  {
  }

  lemma StripHexDigits(h: string)
    requires |h| > 0 && forall i | 0 <= i < |h| :: Decimal.IsHexDigit(h[i])
    ensures PyStr.StripSet(h, IntSpace) == h
  {
    HexDigitNotSpace(h[0]);
    HexDigitNotSpace(h[|h| - 1]);
    PyStr.StripSetUnchanged(h, IntSpace);
  }

  lemma DigitsValuePlain(h: string)
    requires |h| > 0 && forall i | 0 <= i < |h| :: Decimal.IsHexDigit(h[i])
    ensures DigitsValue(h) == Some(Decimal.HexDigitsValue(h))
  {
    forall i | 0 <= i < |h|
      ensures h[i] != '_'
    {
      HexDigitNotSpace(h[i]);
    }
    assert UnderscoredDigits(h);
  }

  lemma NoSignNoPrefix(h: string)
    requires |h| > 0 && forall i | 0 <= i < |h| :: Decimal.IsHexDigit(h[i])
    ensures SplitSign(h) == (false, h) && DropHexPrefix(h) == h
  {
    HexDigitNotSpace(h[0]);
    if |h| >= 2 {
      HexDigitNotSpace(h[1]);
    }
  }

  lemma ParseHexIntOf(h: string, v: nat)
    requires PyStr.StripSet(h, IntSpace) == h
    requires SplitSign(h) == (false, h) && DropHexPrefix(h) == h
    requires DigitsValue(h) == Some(v)
    ensures ParseHexInt(h) == Some(v as int)
  {
  }

  /** `int(h, 16)` of plain hexadecimal digits is their value. */
  lemma ParseHexIntDigits(h: string)
    requires |h| > 0 && forall i | 0 <= i < |h| :: Decimal.IsHexDigit(h[i])
    ensures ParseHexInt(h) == Some(Decimal.HexDigitsValue(h) as int)
  {
    NoSignNoPrefix(h);
    DigitsValuePlain(h);
    StripHexDigits(h);
    ParseHexIntOf(h, Decimal.HexDigitsValue(h));
  }

  /** Any 32 hexadecimal digits, of either case, are accepted as they stand. */
  lemma FromHexDigits(h: string)
    requires |h| == 32 && forall i | 0 <= i < 32 :: Decimal.IsHexDigit(h[i])
    ensures Decimal.HexDigitsValue(h) < Bound && FromHex(h) == Some(Uuid(Decimal.HexDigitsValue(h)))
  {
    Pow16Of32();
    Decimal.HexDigitsValueBound(h);
    ParseHexIntDigits(h);
  }

  /** `UUID(h)` for 32 hexadecimal digits is their value. */
  lemma ParseHexDigits(h: string)
    requires |h| == 32 && forall i | 0 <= i < 32 :: Decimal.IsHexDigit(h[i])
    ensures Decimal.HexDigitsValue(h) < Bound && Parse(h) == Some(Uuid(Decimal.HexDigitsValue(h)))
  {
    assert '-' !in h;
    CompactHexOrHyphen(h);
    FromHexDigits(h);
  }

  /** `UUID(str(u)) == u`. */
  lemma ParseToString(u: Uuid)
    ensures Parse(ToString(u)) == Some(u)
  {
    CompactOfString(u);
    HexValue(u);
    FromHexDigits(Hex(u));
  }

  lemma CompactOfString(u: Uuid)
    ensures Compact(ToString(u)) == Hex(u)
  {
    var h := Hex(u);
    var s := ToString(u);
    CompactHexOrHyphen(s);
    AllHexSlice(h, 0, 8);
    AllHexSlice(h, 8, 12);
    AllHexSlice(h, 12, 16);
    AllHexSlice(h, 16, 20);
    AllHexSlice(h, 20, 32);
    RemoveHyphens(h[..8], h[8..12], h[12..16], h[16..20], h[20..]);
    Regroup(h);
  }

  lemma Regroup(h: string)
    requires |h| == 32
    ensures h[..8] + (h[8..12] + (h[12..16] + (h[16..20] + h[20..]))) == h
  {
  }

  /** Removing the hyphens of `a-b-c-d-e` gives `abcde` when the groups hold none. */
  lemma RemoveHyphens(a: string, b: string, c: string, d: string, e: string)
    requires '-' !in a && '-' !in b && '-' !in c && '-' !in d && '-' !in e
    ensures PyStr.RemoveAll(Dash(a, Dash(b, Dash(c, Dash(d, e)))), "-") == a + (b + (c + (d + e)))
  {
    DropHyphen(a, Dash(b, Dash(c, Dash(d, e))));
    DropHyphen(b, Dash(c, Dash(d, e)));
    DropHyphen(c, Dash(d, e));
    DropHyphen(d, e);
  }

  lemma DropHyphen(a: string, rest: string)
    requires '-' !in a
    ensures PyStr.RemoveAll(Dash(a, rest), "-") == a + PyStr.RemoveAll(rest, "-")
  {
    PyStr.RemoveAllSkip(a, "-" + rest, "-");
    PyStr.RemoveAllLead(rest, "-");
  }

  /** Distinct UUIDs print differently. */
  lemma ToStringInjective(u: Uuid, w: Uuid)
    requires ToString(u) == ToString(w)
    ensures u == w
  {
    ParseToString(u);
    ParseToString(w);
  }
}
