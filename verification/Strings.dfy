/**
 The string operations the caps text form is written with, and the decimal and
 hexadecimal codecs.
 */
module Strings {
  import opened Options

  // ----- characters -----

  /** Unicode White_Space, what `str::trim` removes. */
  predicate IsSpace(c: char) {
    var n := c as int;
    || 0x9 <= n <= 0xD || n == 0x20 || n == 0x85 || n == 0xA0 || n == 0x1680
    || 0x2000 <= n <= 0x200A || n == 0x2028 || n == 0x2029 || n == 0x202F || n == 0x205F || n == 0x3000
  }

  function LowerChar(c: char): char {
    if 'A' <= c <= 'Z' then (c as int + 32) as char else c
  }

  function Lower(s: string): (r: string)
    ensures |r| == |s|
  {
    seq(|s|, i requires 0 <= i < |s| => LowerChar(s[i]))
  }

  predicate EqIgnoreCase(a: string, b: string) {
    Lower(a) == Lower(b)
  }

  // ----- cutting -----

  function TrimStart(s: string): string {
    if s != [] && IsSpace(s[0]) then TrimStart(s[1..]) else s
  }

  function TrimEnd(s: string): string {
    if s != [] && IsSpace(s[|s| - 1]) then TrimEnd(s[..|s| - 1]) else s
  }

  function Trim(s: string): string {
    TrimEnd(TrimStart(s))
  }

  function StripPrefix(s: string, p: string): Option<string> {
    if p <= s then Some(s[|p|..]) else None
  }

  function StripSuffix(s: string, p: string): Option<string> {
    if |p| <= |s| && s[|s| - |p|..] == p then Some(s[..|s| - |p|]) else None
  }

  /** Cut at the first `c`. */
  function SplitOnce(s: string, c: char): Option<(string, string)> {
    if s == [] then None
    else if s[0] == c then Some(([], s[1..]))
    else
      match SplitOnce(s[1..], c)
      case Some((a, b)) => Some(([s[0]] + a, b))
      case None => None
  }

  /** Cut at every `c`. */
  function SplitOn(s: string, c: char): (r: seq<string>)
    ensures r != []
    decreases |s|
  {
    match SplitOnce(s, c)
    case None => [s]
    case Some((a, b)) => SplitOnceShrinks(s, c); [a] + SplitOn(b, c)
  }

  lemma SplitOnceShrinks(s: string, c: char)
    requires SplitOnce(s, c).Some?
    ensures s == SplitOnce(s, c).value.0 + [c] + SplitOnce(s, c).value.1
    ensures c !in SplitOnce(s, c).value.0
  {
    if s[0] != c {
      SplitOnceShrinks(s[1..], c);
      var (a, b) := SplitOnce(s[1..], c).value;
      assert s == [s[0]] + s[1..];
      assert [s[0]] + (a + [c] + b) == ([s[0]] + a) + [c] + b;
    }
  }

  lemma {:induction false} SplitOnceAt(a: string, c: char, b: string)
    requires c !in a
    ensures SplitOnce(a + [c] + b, c) == Some((a, b))
  {
    var s := a + [c] + b;
    if a == [] {
      assert s[1..] == b;
    } else {
      assert s[1..] == a[1..] + [c] + b;
      SplitOnceAt(a[1..], c, b);
      assert [a[0]] + a[1..] == a;
    }
  }

  lemma {:induction false} SplitOnceNone(s: string, c: char)
    requires c !in s
    ensures SplitOnce(s, c) == None
  {
    if s != [] {
      SplitOnceNone(s[1..], c);
    }
  }

  lemma StripPrefixOf(p: string, s: string)
    ensures StripPrefix(p + s, p) == Some(s)
  {
    assert (p + s)[|p|..] == s;
  }

  lemma StripSuffixOf(s: string, p: string)
    ensures StripSuffix(s + p, p) == Some(s)
  {
    assert (s + p)[|s + p| - |p|..] == p;
    assert (s + p)[..|s + p| - |p|] == s;
  }

  /** Nothing to trim at either end. */
  predicate Trimmed(s: string) {
    s == [] || (!IsSpace(s[0]) && !IsSpace(s[|s| - 1]))
  }

  lemma TrimOfTrimmed(s: string)
    requires Trimmed(s)
    ensures Trim(s) == s
  {
  }

  /** Trimming a text that starts with a non-space only takes spaces off its end. */
  lemma {:induction false} TrimEndTail(s: string) returns (k: nat)
    ensures k <= |s| && TrimEnd(s) == s[..k]
    ensures forall i :: k <= i < |s| ==> IsSpace(s[i])
    ensures k > 0 ==> !IsSpace(s[k - 1])
  {
    if s != [] && IsSpace(s[|s| - 1]) {
      k := TrimEndTail(s[..|s| - 1]);
      assert s[..|s| - 1][..k] == s[..k];
    } else {
      k := |s|;
      assert s[..|s|] == s;
    }
  }

  // ----- numbers -----

  const DIGITS: string := "0123456789abcdef"

  function DigitChar(d: nat): char
    requires d < 16
  {
    DIGITS[d]
  }

  function DigitValue(c: char): Option<nat> {
    if '0' <= c <= '9' then Some(c as int - '0' as int)
    else if 'a' <= c <= 'f' then Some(c as int - 'a' as int + 10)
    else if 'A' <= c <= 'F' then Some(c as int - 'A' as int + 10)
    else None
  }

  function Decimal(n: nat): (s: string)
    ensures s != []
  {
    if n < 10 then [DigitChar(n)] else Decimal(n / 10) + [DigitChar(n % 10)]
  }

  /** Exactly `width` hexadecimal digits, leading zeros included. */
  function Hex(n: nat, width: nat): (s: string)
    ensures |s| == width
  {
    if width == 0 then [] else Hex(n / 16, width - 1) + [DigitChar(n % 16)]
  }

  function DigitsValue(s: string, radix: nat): Option<nat> {
    if s == [] then Some(0)
    else
      var hi, lo := DigitsValue(s[..|s| - 1], radix), DigitValue(s[|s| - 1]);
      if hi.Some? && lo.Some? && lo.value < radix then Some(hi.value * radix + lo.value) else None
  }

  /** `from_str_radix` for an unsigned type with maximum `max`: one optional plus sign,
      at least one digit, no overflow. */
  function ParseUnsigned(s: string, radix: nat, max: nat): (r: Option<nat>)
    ensures r.Some? ==> r.value <= max
  {
    var t := if s != [] && s[0] == '+' then s[1..] else s;
    if t == [] then None
    else
      match DigitsValue(t, radix)
      case Some(n) => if n <= max then Some(n) else None
      case None => None
  }

  predicate IsDigit(c: char) {
    '0' <= c <= '9' || 'a' <= c <= 'f'
  }

  lemma DigitCharIsDigit(d: nat)
    requires d < 16
    ensures IsDigit(DigitChar(d)) && DigitValue(DigitChar(d)) == Some(d)
    ensures d < 10 ==> '0' <= DigitChar(d) <= '9'
  {
  }

  predicate AllDigits(s: string) {
    forall i :: 0 <= i < |s| ==> '0' <= s[i] <= '9'
  }

  /** One more digit at the end. */
  lemma OneMoreDigit(s: string, n: nat, d: nat)
    requires d < 10 && AllDigits(s) && DigitsValue(s, 10) == Some(n)
    ensures AllDigits(s + [DigitChar(d)]) && DigitsValue(s + [DigitChar(d)], 10) == Some(n * 10 + d)
  {
    DigitCharIsDigit(d);
    assert (s + [DigitChar(d)])[..|s|] == s;
  }

  lemma {:induction false} DecimalReadsBack(n: nat)
    ensures AllDigits(Decimal(n))
    ensures DigitsValue(Decimal(n), 10) == Some(n)
  {
    if n < 10 {
      OneMoreDigit([], 0, n);
      assert [] + [DigitChar(n)] == [DigitChar(n)];
    } else {
      DecimalReadsBack(n / 10);
      OneMoreDigit(Decimal(n / 10), n / 10, n % 10);
    }
  }

  lemma ParseDecimal(n: nat, max: nat)
    requires n <= max
    ensures ParseUnsigned(Decimal(n), 10, max) == Some(n)
  {
    DecimalReadsBack(n);
    assert '0' <= Decimal(n)[0] <= '9';
  }

  ghost function Power16(k: nat): nat {
    if k == 0 then 1 else 16 * Power16(k - 1)
  }

  lemma {:induction false} HexDigits(n: nat, width: nat)
    ensures forall i :: 0 <= i < width ==> IsDigit(Hex(n, width)[i])
  {
    if width > 0 {
      DigitCharIsDigit(n % 16);
      HexDigits(n / 16, width - 1);
    }
  }

  lemma {:induction false} HexValue(n: nat, width: nat)
    requires n < Power16(width)
    ensures DigitsValue(Hex(n, width), 16) == Some(n)
  {
    if width > 0 {
      Sixteenth(n, Power16(width - 1));
      HexValue(n / 16, width - 1);
      NextDigit(Hex(n / 16, width - 1), n % 16, n / 16);
    }
  }

  lemma Sixteenth(n: nat, p: nat)
    requires n < 16 * p
    ensures n / 16 < p && n == n / 16 * 16 + n % 16
  {
  }

  lemma NextDigit(s: string, d: nat, hi: nat)
    requires d < 16 && DigitsValue(s, 16) == Some(hi)
    ensures DigitsValue(s + [DigitChar(d)], 16) == Some(hi * 16 + d)
  {
    DigitCharIsDigit(d);
    var t := s + [DigitChar(d)];
    assert t[..|t| - 1] == s;
  }

  lemma HexReadsBack(n: nat, width: nat)
    requires n < Power16(width)
    ensures forall i :: 0 <= i < width ==> IsDigit(Hex(n, width)[i])
    ensures DigitsValue(Hex(n, width), 16) == Some(n)
  {
    HexDigits(n, width);
    HexValue(n, width);
  }

  // ----- UTF-8 -----

  function Utf8Char(c: char): (r: seq<nat>)
    ensures 1 <= |r| <= 4
    ensures (c as int) < 0x80 <==> |r| == 1
  {
    var n := c as int;
    if n < 0x80 then [n]
    else if n < 0x800 then [0xC0 + n / 0x40, 0x80 + n % 0x40]
    else if n < 0x1_0000 then [0xE0 + n / 0x1000, 0x80 + n / 0x40 % 0x40, 0x80 + n % 0x40]
    else [0xF0 + n / 0x4_0000, 0x80 + n / 0x1000 % 0x40, 0x80 + n / 0x40 % 0x40, 0x80 + n % 0x40]
  }

  /** `str::as_bytes`. */
  function Utf8Bytes(s: string): seq<nat> {
    if s == [] then [] else Utf8Char(s[0]) + Utf8Bytes(s[1..])
  }

  lemma {:induction false} Utf8Length(s: string)
    ensures |Utf8Bytes(s)| >= |s|
  {
    if s != [] {
      Utf8Length(s[1..]);
    }
  }
}
