/** The spellings a description may use and the printer does not: other digits, other cases,
    other names, and parts left blank. Each reader is characterised by what is printed. */
module CapsSpellings {
  import opened Options
  import opened Integers
  import opened Strings
  import opened Caps
  import opened CapsPrinter
  import opened CapsParser
  import opened CapsNames
  import opened CapsScan
  import opened CapsValues
  import opened CapsLeaves
  import opened CapsLists

  // ----- numbers -----

  function Zeros(k: nat): string {
    seq(k, i => '0')
  }

  /** One optional plus sign is taken off a number. */
  function Unsigned(s: string): string {
    if s != [] && s[0] == '+' then s[1..] else s
  }

  lemma LastDigit(s: string, radix: nat, n: nat) returns (hi: nat, lo: nat)
    requires s != [] && DigitsValue(s, radix) == Some(n)
    ensures DigitsValue(s[..|s| - 1], radix) == Some(hi) && DigitValue(s[|s| - 1]) == Some(lo)
    ensures lo < radix && n == hi * radix + lo
  {
    hi := DigitsValue(s[..|s| - 1], radix).value;
    lo := DigitValue(s[|s| - 1]).value;
  }

  lemma DecimalStep(hi: nat, lo: nat)
    requires lo < 10
    ensures Decimal(hi * 10 + lo) == if hi == 0 then [DigitChar(lo)] else Decimal(hi) + [DigitChar(lo)]
  {
    assert (hi * 10 + lo) / 10 == hi && (hi * 10 + lo) % 10 == lo;
  }

  lemma DigitOf(c: char, d: nat)
    requires d < 10
    ensures DigitValue(c) == Some(d) <==> c == DigitChar(d)
  {
    DigitCharIsDigit(d);
  }

  lemma NoZeros(d: char)
    ensures Zeros(0) + [d] == [d]
  {
  }

  lemma OneMoreZero(j: nat, d: char)
    ensures Zeros(j) + "0" + [d] == Zeros(j + 1) + [d]
  {
    assert Zeros(j) + "0" == Zeros(j + 1);
  }

  lemma Regrouped(a: string, b: string, c: string)
    ensures a + b + c == a + (b + c)
  {
  }

  /** A digit string names a number only as that number's own digits after zeros. */
  lemma {:induction false} DigitsAreDecimal(s: string, n: nat) returns (k: nat)
    requires s != [] && DigitsValue(s, 10) == Some(n)
    ensures s == Zeros(k) + Decimal(n)
  {
    var hi, lo := LastDigit(s, 10, n);
    var front, d := s[..|s| - 1], [DigitChar(lo)];
    DigitOf(s[|s| - 1], lo);
    DecimalStep(hi, lo);
    assert s == front + d;
    if front == [] {
      k := 0;
      NoZeros(DigitChar(lo));
    } else {
      var j := DigitsAreDecimal(front, hi);
      if hi == 0 {
        k := j + 1;
        OneMoreZero(j, DigitChar(lo));
      } else {
        k := j;
        Regrouped(Zeros(j), Decimal(hi), d);
      }
    }
  }

  lemma {:induction false} ZerosAddNothing(k: nat, t: string, n: nat)
    requires DigitsValue(t, 10) == Some(n)
    ensures DigitsValue(Zeros(k) + t, 10) == Some(n)
    decreases |t|, k
  {
    var s := Zeros(k) + t;
    if t != [] {
      var hi, lo := LastDigit(t, 10, n);
      ZerosAddNothing(k, t[..|t| - 1], hi);
      assert s[..|s| - 1] == Zeros(k) + t[..|t| - 1];
    } else if k > 0 {
      ZerosAddNothing(k - 1, t, n);
      assert s[..|s| - 1] == Zeros(k - 1) + t;
    }
  }

  ghost predicate SpellsDecimal(s: string, n: nat) {
    exists k: nat :: Unsigned(s) == Zeros(k) + Decimal(n)
  }

  /** A number is read from its own digits, with an optional plus sign and leading zeros, and
      from nothing else. */
  lemma DecimalSpelled(s: string, n: nat, max: nat)
    ensures ParseUnsigned(s, 10, max) == Some(n) <==> n <= max && SpellsDecimal(s, n)
  {
    var t := Unsigned(s);
    if ParseUnsigned(s, 10, max) == Some(n) {
      var k := DigitsAreDecimal(t, n);
    }
    if n <= max && SpellsDecimal(s, n) {
      var k: nat :| t == Zeros(k) + Decimal(n);
      DecimalReadsBack(n);
      ZerosAddNothing(k, Decimal(n), n);
    }
  }

  lemma HexDigitOf(c: char, d: nat)
    requires d < 16
    ensures DigitValue(c) == Some(d) <==> LowerChar(c) == DigitChar(d)
  {
    DigitCharIsDigit(d);
  }

  lemma LowerSplits(s: string)
    requires s != []
    ensures Lower(s) == Lower(s[..|s| - 1]) + [LowerChar(s[|s| - 1])]
  {
  }

  lemma HexParts(n: nat, h: nat, l: nat, p: nat)
    requires n == h * 16 + l && l < 16
    ensures h == n / 16 && l == n % 16 && (h < p <==> n < 16 * p)
  {
  }

  lemma OneEnd(a: string, x: char, b: string, y: char)
    ensures a + [x] == b + [y] <==> a == b && x == y
  {
    if a + [x] == b + [y] {
      assert a == (a + [x])[..|a|] && b == (b + [y])[..|b|] && |a + [x]| == |b + [y]|;
      assert (a + [x])[|a|] == x && (b + [y])[|b|] == y;
    }
  }

  /** A hexadecimal string, in either case, names the number whose digits it holds. */
  lemma {:induction false} HexIsSpelled(s: string, n: nat)
    ensures DigitsValue(s, 16) == Some(n) <==> n < Power16(|s|) && Lower(s) == Hex(n, |s|)
  {
    if s != [] {
      var w, front := |s| - 1, s[..|s| - 1];
      var hi, lo := n / 16, n % 16;
      LowerSplits(s);
      HexIsSpelled(front, hi);
      HexParts(n, hi, lo, Power16(w));
      HexDigitOf(s[w], lo);
      OneEnd(Lower(front), LowerChar(s[w]), Hex(hi, w), DigitChar(lo));
      assert Hex(n, |s|) == Hex(hi, w) + [DigitChar(lo)];
      if DigitsValue(s, 16) == Some(n) {
        var h, l := LastDigit(s, 16, n);
        HexParts(n, h, l, Power16(w));
      }
    }
  }

  ghost predicate SpellsHex(s: string, n: nat) {
    var t := Unsigned(s);
    t != [] && n < Power16(|t|) && Lower(t) == Hex(n, |t|)
  }

  lemma HexSpelled(s: string, n: nat, max: nat)
    ensures ParseUnsigned(s, 16, max) == Some(n) <==> n <= max && SpellsHex(s, n)
  {
    HexIsSpelled(Unsigned(s), n);
  }

  // ----- channel masks -----

  datatype MaskPrefix = LowerX | UpperX | NoX

  /** A mask's digits, with an optional type and blanks around it and a radix mark. */
  function MaskSpelling(typed: bool, b: string, x: MaskPrefix, digits: string): string {
    (if typed then "(bitmask)" + b else "") + Marked(x, digits)
  }

  function Marked(x: MaskPrefix, digits: string): string {
    match x
    case LowerX => "0x" + digits
    case UpperX => "0X" + digits
    case NoX => digits
  }

  lemma MarkedReads(x: MaskPrefix, digits: string)
    requires x.NoX? ==> !("0x" <= digits) && !("0X" <= digits)
    ensures
      var v := Marked(x, digits);
      (match StripPrefix(v, "0x")
       case Some(hex) => ParseUnsigned(hex, 16, U64_MAX)
       case None =>
         match StripPrefix(v, "0X")
         case Some(hex) => ParseUnsigned(hex, 16, U64_MAX)
         case None => ParseUnsigned(v, 10, U64_MAX))
      == ParseUnsigned(digits, if x.NoX? then 10 else 16, U64_MAX)
  {
    match x
    case LowerX => StripPrefixOf("0x", digits);
    case UpperX =>
      StripPrefixOf("0X", digits);
      assert ("0X" + digits)[1] == 'X';
    case NoX =>
  }

  lemma MarksArePlain()
    ensures Plain("0x") && Plain("0X") && Plain("(bitmask)") && "(bitmask)" != []
  {
  }

  lemma MarkedIsPlain(x: MaskPrefix, digits: string)
    requires Plain(digits) && digits != []
    ensures Plain(Marked(x, digits)) && Marked(x, digits) != []
    ensures digits[0] != '(' ==> !("(bitmask)" <= Marked(x, digits))
  {
    MarksArePlain();
    match x
    case LowerX =>
      PlainConcat("0x", digits);
      assert Marked(x, digits)[0] == '0';
    case UpperX =>
      PlainConcat("0X", digits);
      assert Marked(x, digits)[0] == '0';
    case NoX =>
  }

  /** What a mask's text is read as, once its type is off. */
  lemma MaskIs(text: string, v: string, x: MaskPrefix, digits: string)
    requires Trim(match StripPrefix(Trim(text), "(bitmask)") case Some(t) => t case None => Trim(text)) == v
    requires v == Marked(x, digits) && (x.NoX? ==> !("0x" <= digits) && !("0X" <= digits))
    ensures ParseMask(text) == ParseUnsigned(digits, if x.NoX? then 10 else 16, U64_MAX)
  {
    MarkedReads(x, digits);
  }

  lemma TypeComesOff(b: string, v: string)
    requires Blank(b) && Plain(v) && v != []
    ensures
      var s := "(bitmask)" + b + v;
      Trim(s) == s && StripPrefix(s, "(bitmask)") == Some(b + v) && Trim(b + v) == v
  {
    PlainIsTrimmed(v);
    var s := "(bitmask)" + b + v;
    assert s == "(bitmask)" + (b + v);
    assert PlainChar(v[|v| - 1]) && s[|s| - 1] == v[|v| - 1] && s[0] == '(';
    TrimOfTrimmed(s);
    StripPrefixOf("(bitmask)", b + v);
    assert b + v + [] == b + v;
    TrimPadded(b, v, []);
  }

  /** A mask is hexadecimal after `0x` or `0X` and decimal otherwise, with or without its type
      in front. */
  lemma MaskSpelled(typed: bool, b: string, x: MaskPrefix, digits: string)
    requires Blank(b) && Plain(digits) && digits != [] && digits[0] != '('
    requires x.NoX? ==> !("0x" <= digits) && !("0X" <= digits)
    ensures ParseMask(MaskSpelling(typed, b, x, digits)) == ParseUnsigned(digits, if x.NoX? then 10 else 16, U64_MAX)
  {
    var v := Marked(x, digits);
    MarkedIsPlain(x, digits);
    if typed {
      TypeComesOff(b, v);
    } else {
      PlainIsTrimmed(v);
      assert "" + v == v;
    }
    MaskIs(MaskSpelling(typed, b, x, digits), v, x, digits);
  }

  // ----- colorimetry -----

  ghost predicate Codes(c: Colorimetry, r: nat, m: nat, t: nat, p: nat) {
    && r == RangeNum(c.range) && m == MatrixNum(c.matrix) && p == PrimariesNum(c.primaries)
    && (t == TransferNum(c.transfer) || (t == 13 && c.transfer.Bt2020?))
  }

  lemma CodesRead(c: Colorimetry, r: nat, m: nat, t: nat, p: nat)
    ensures Codes(c, r, m, t, p)
      <==> RangeFromNum(r) == Some(c.range) && MatrixFromNum(m) == Some(c.matrix)
           && TransferFromNum(t) == Some(c.transfer) && PrimariesFromNum(p) == Some(c.primaries)
  {
    RangeCode(c.range, r);
    MatrixCode(c.matrix, m);
    TransferCode(c.transfer, t);
    PrimariesCode(c.primaries, p);
  }

  lemma RangeCode(v: ColorRange, n: nat)
    ensures n == RangeNum(v) <==> RangeFromNum(n) == Some(v)
  {
  }

  lemma MatrixCode(v: Matrix, n: nat)
    ensures n == MatrixNum(v) <==> MatrixFromNum(n) == Some(v)
  {
  }

  lemma TransferCode(v: Transfer, n: nat)
    ensures n == TransferNum(v) || (n == 13 && v.Bt2020?) <==> TransferFromNum(n) == Some(v)
  {
  }

  lemma PrimariesCode(v: Primaries, n: nat)
    ensures n == PrimariesNum(v) <==> PrimariesFromNum(n) == Some(v)
  {
  }

  /** Four numbers between colons. */
  function Colons(a: string, b: string, c: string, d: string): string {
    a + ":" + (b + ":" + (c + ":" + d))
  }

  lemma ColonsSplit(a: string, b: string, c: string, d: string)
    requires ':' !in a && ':' !in b && ':' !in c && ':' !in d
    ensures SplitOn(Colons(a, b, c, d), ':') == [a, b, c, d]
  {
    var t3 := c + ":" + d;
    var t2 := b + ":" + t3;
    SplitOnceNone(d, ':');
    SplitOnceAt(c, ':', d);
    assert SplitOn(t3, ':') == [c] + [d];
    SplitOnceAt(b, ':', t3);
    assert SplitOn(t2, ':') == [b] + SplitOn(t3, ':');
    SplitOnceAt(a, ':', t2);
  }

  /** The first part of a text cut at colons, and the rest. */
  lemma FirstPart(s: string) returns (rest: string)
    requires |SplitOn(s, ':')| > 1
    ensures s == SplitOn(s, ':')[0] + ":" + rest && ':' !in SplitOn(s, ':')[0]
    ensures SplitOn(rest, ':') == SplitOn(s, ':')[1..]
  {
    SplitOnceShrinks(s, ':');
    rest := SplitOnce(s, ':').value.1;
  }

  lemma LastPart(s: string)
    requires |SplitOn(s, ':')| == 1
    ensures SplitOn(s, ':')[0] == s
  {
  }

  lemma FourPartsAre(s: string)
    requires |SplitOn(s, ':')| == 4
    ensures var p := SplitOn(s, ':'); s == Colons(p[0], p[1], p[2], p[3])
  {
    var p := SplitOn(s, ':');
    var t2 := FirstPart(s);
    var t3 := FirstPart(t2);
    var t4 := FirstPart(t3);
    LastPart(t4);
  }

  ghost predicate NumbersSay(a: string, b: string, c: string, d: string, col: Colorimetry) {
    exists r: nat, m: nat, t: nat, p: nat :: Say(a, b, c, d, r, m, t, p) && Codes(col, r, m, t, p)
  }

  ghost predicate Say(a: string, b: string, c: string, d: string, r: nat, m: nat, t: nat, p: nat) {
    ParseU8(a) == Some(r) && ParseU8(b) == Some(m) && ParseU8(c) == Some(t) && ParseU8(d) == Some(p)
  }

  /** Exactly four numbers between colons make a colorimetry, each one the printer's number
      for its part; transfer 13 is read as 11 is. */
  lemma FourNumbersMean(s: string, col: Colorimetry)
    ensures ParseFourPart(s) == Some(col)
      <==> exists a: string, b: string, c: string, d: string ::
             s == Colons(a, b, c, d) && ':' !in a && ':' !in b && ':' !in c && ':' !in d && NumbersSay(a, b, c, d, col)
  {
    if ParseFourPart(s) == Some(col) {
      FourPartsAre(s);
      var p := SplitOn(s, ':');
      PartsHaveNoColon(s);
      FourPartsSay(p[0], p[1], p[2], p[3], col);
    }
    forall a: string, b: string, c: string, d: string |
      s == Colons(a, b, c, d) && ':' !in a && ':' !in b && ':' !in c && ':' !in d && NumbersSay(a, b, c, d, col)
      ensures ParseFourPart(s) == Some(col)
    {
      ColonsSplit(a, b, c, d);
      FourPartsSay(a, b, c, d, col);
    }
  }

  lemma {:induction false} PartsHaveNoColon(s: string)
    ensures forall i :: 0 <= i < |SplitOn(s, ':')| ==> ':' !in SplitOn(s, ':')[i]
    decreases |s|
  {
    match SplitOnce(s, ':')
    case None => NoneHasNoColon(s);
    case Some((a, b)) =>
      SplitOnceShrinks(s, ':');
      PartsHaveNoColon(b);
  }

  lemma {:induction false} NoneHasNoColon(s: string)
    requires SplitOnce(s, ':') == None
    ensures ':' !in s
  {
    if s != [] {
      NoneHasNoColon(s[1..]);
    }
  }

  function Assembled(a: string, b: string, c: string, d: string): Option<Colorimetry> {
    var nr, nm, nt, np := ParseU8(a), ParseU8(b), ParseU8(c), ParseU8(d);
    if nr.Some? && nm.Some? && nt.Some? && np.Some? then
      var r, m := RangeFromNum(nr.value), MatrixFromNum(nm.value);
      var t, q := TransferFromNum(nt.value), PrimariesFromNum(np.value);
      if r.Some? && m.Some? && t.Some? && q.Some?
      then Some(Colorimetry(r.value, m.value, t.value, q.value)) else None
    else None
  }

  lemma FourPartsSay(a: string, b: string, c: string, d: string, col: Colorimetry)
    ensures Assembled(a, b, c, d) == Some(col) <==> NumbersSay(a, b, c, d, col)
  {
    if Assembled(a, b, c, d) == Some(col) {
      var r, m, t, p := ParseU8(a).value, ParseU8(b).value, ParseU8(c).value, ParseU8(d).value;
      CodesRead(col, r, m, t, p);
      assert Say(a, b, c, d, r, m, t, p);
    }
    if NumbersSay(a, b, c, d, col) {
      var r: nat, m: nat, t: nat, p: nat :| Say(a, b, c, d, r, m, t, p) && Codes(col, r, m, t, p);
      CodesRead(col, r, m, t, p);
    }
  }

  predicate IsPreset(c: Colorimetry) {
    c == BT709 || c == BT601 || c == BT2020 || c == BT2100_PQ || c == BT2100_HLG || c == SRGB
  }

  /** A preset is read from its printed name in any case, with any blanks around it. */
  lemma PresetSpelled(s: string, c: Colorimetry)
    requires IsPreset(c) && EqIgnoreCase(Trim(s), ColorimetryText(c).value)
    ensures ParseColorimetry(s) == Some(c)
  {
    PresetsPlain();
    ShortPresetsRead();
    LongPresetsRead();
    SameLettersSameColorimetry(Trim(s), ColorimetryText(c).value);
    assert ParseColorimetry(ColorimetryText(c).value) == Some(c);
  }

  /** Only the letters of a name count, not their case. */
  lemma SameLettersSameColorimetry(s: string, name: string)
    requires EqIgnoreCase(s, name)
    ensures forall t :: EqIgnoreCase(s, t) <==> EqIgnoreCase(name, t)
  {
  }

  lemma ColonIsNoPreset(s: string, c: Colorimetry)
    requires ':' in s && IsPreset(c)
    ensures !EqIgnoreCase(s, ColorimetryText(c).value)
  {
    var i :| 0 <= i < |s| && s[i] == ':';
    assert Lower(s)[i] == ':';
    PresetHasNoColon(c, i);
  }

  lemma PresetHasNoColon(c: Colorimetry, i: nat)
    requires IsPreset(c)
    ensures var name := ColorimetryText(c).value; i < |name| ==> Lower(name)[i] != ':'
  {
  }

  /** A colorimetry is read from its preset name, in any case, or from its four numbers. */
  lemma ColorimetrySpelled(s: string, c: Colorimetry)
    ensures ParseColorimetry(s) == Some(c)
      <==> (IsPreset(c) && EqIgnoreCase(Trim(s), ColorimetryText(c).value)) || ParseFourPart(Trim(s)) == Some(c)
  {
    if IsPreset(c) && EqIgnoreCase(Trim(s), ColorimetryText(c).value) {
      PresetSpelled(s, c);
    }
    if ParseFourPart(Trim(s)) == Some(c) {
      FourPartsAre(Trim(s));
      assert ':' in Trim(s);
      ColonIsNoPreset(Trim(s), BT709);
      ColonIsNoPreset(Trim(s), BT601);
      ColonIsNoPreset(Trim(s), BT2020);
      ColonIsNoPreset(Trim(s), BT2100_PQ);
      ColonIsNoPreset(Trim(s), BT2100_HLG);
      ColonIsNoPreset(Trim(s), SRGB);
    }
  }

  // ----- format names -----

  lemma LowerOfLower(s: string)
    ensures Lower(Lower(s)) == Lower(s)
  {
  }

  predicate RgbFamily(f: RawVideoFormat) {
    f.Rgba8? || f.Rgb8? || f.Bgra8? || f.Bgr8? || f.Bgrx8? || f.Argb8? || f.R210? || f.Gbr10Le? || f.Gray8?
  }

  predicate PlanarFamily(f: RawVideoFormat) {
    f.I420? || f.I420p10? || f.I420p12? || f.I422? || f.I422p10? || f.I422p12? || f.I444? || f.I444p10? || f.I444p12?
  }

  lemma ShortRgbSpelling(l: string, f: RawVideoFormat)
    requires RawFormatNamed(l) == Some(f) && RgbFamily(f) && |l| < 5
    ensures l == LowerName(f)
  {
  }

  lemma LongRgbSpelling(l: string, f: RawVideoFormat)
    requires RawFormatNamed(l) == Some(f) && RgbFamily(f) && |l| >= 5
    ensures l == LowerName(f)
  {
  }

  lemma ShortPlanarSpelling(l: string, f: RawVideoFormat)
    requires RawFormatNamed(l) == Some(f) && PlanarFamily(f) && |l| < 5
    ensures l == LowerName(f)
  {
  }

  lemma LongPlanarSpelling(l: string, f: RawVideoFormat)
    requires RawFormatNamed(l) == Some(f) && PlanarFamily(f) && |l| >= 5
    ensures l == LowerName(f)
  {
  }

  lemma ShortSpelling(l: string, f: RawVideoFormat)
    requires RawFormatNamed(l) == Some(f) && !RgbFamily(f) && !PlanarFamily(f) && |l| < 5
    ensures l == LowerName(f) || (f.Yuyv? && l == "yuyv") || (f.P010? && l == "p010")
  {
  }

  lemma LongSpelling(l: string, f: RawVideoFormat)
    requires RawFormatNamed(l) == Some(f) && !RgbFamily(f) && !PlanarFamily(f) && |l| >= 5
    ensures l == LowerName(f)
  {
  }

  lemma OtherNames()
    ensures RawFormatNamed("yuyv") == Some(Yuyv) && RawFormatNamed("p010") == Some(P010)
  {
  }

  /** A pixel format is read from its printed name in any case; two have one more name. */
  lemma RawFormatSpelled(s: string, f: RawVideoFormat)
    ensures ParseRawFormat(s) == Some(f)
      <==> EqIgnoreCase(s, RawFormatName(f)) || (f.Yuyv? && Lower(s) == "yuyv") || (f.P010? && Lower(s) == "p010")
  {
    RawNameLowers(f);
    RawFormatReads(f);
    OtherNames();
    if ParseRawFormat(s) == Some(f) {
      if RgbFamily(f) {
        if |s| < 5 { ShortRgbSpelling(Lower(s), f); } else { LongRgbSpelling(Lower(s), f); }
      } else if PlanarFamily(f) {
        if |s| < 5 { ShortPlanarSpelling(Lower(s), f); } else { LongPlanarSpelling(Lower(s), f); }
      } else {
        if |s| < 5 { ShortSpelling(Lower(s), f); } else { LongSpelling(Lower(s), f); }
      }
    }
  }

  lemma PcmNamesDiffer()
    ensures !EqIgnoreCase("S16LE", "F32LE") && !EqIgnoreCase("S16LE", "S24LE") && !EqIgnoreCase("S16LE", "S32LE")
    ensures !EqIgnoreCase("F32LE", "S24LE") && !EqIgnoreCase("F32LE", "S32LE") && !EqIgnoreCase("S24LE", "S32LE")
  {
    DifferAt("S16LE", "F32LE", 0);
    DifferAt("S16LE", "S24LE", 1);
    DifferAt("S16LE", "S32LE", 1);
    DifferAt("F32LE", "S24LE", 0);
    DifferAt("F32LE", "S32LE", 0);
    DifferAt("S24LE", "S32LE", 1);
  }

  /** A PCM format is read from its printed name in any case, with any blanks around it, and no
      other audio format is. */
  lemma PcmSpelled(s: string, f: AudioFormat)
    ensures ParseAudioFormat(s) == Some(f) <==> IsPcm(f) && EqIgnoreCase(Trim(s), PcmName(f).value)
  {
    if IsPcm(f) && EqIgnoreCase(Trim(s), PcmName(f).value) {
      PcmNamesDiffer();
    }
  }

  // ----- media types -----

  predicate IsAnymap(media: string) {
    || media == "image/x-portable-anymap" || media == "image/x-portable-bitmap"
    || media == "image/x-portable-graymap" || media == "image/x-portable-pixmap"
  }

  lemma VideoMediaIs(media: string)
    requires CodecOfMedia(media).Some? && At(media, 0, 'v')
    ensures media == CodecMedia(CodecOfMedia(media).value)
  {
  }

  lemma ImageMediaIs(media: string)
    requires CodecOfMedia(media).Some? && !At(media, 0, 'v')
    ensures media == CodecMedia(CodecOfMedia(media).value) || IsAnymap(media)
  {
  }

  lemma AnymapsRead(media: string)
    requires IsAnymap(media)
    ensures CodecOfMedia(media) == Some(Pnm)
  {
  }

  /** A compressed-video media type is the printed one of its codec; the portable anymap has
      three more. */
  lemma CodecSpelled(media: string, c: VideoCodec)
    requires !c.Mpeg2? && !c.Mpeg4Part2? && !c.JpegXs? && !c.Tagged? && !c.ProRes?
    ensures CodecOfMedia(media) == Some(c) <==> media == CodecMedia(c) || (c.Pnm? && IsAnymap(media))
  {
    CodecReads(c);
    if CodecOfMedia(media) == Some(c) {
      if At(media, 0, 'v') {
        VideoMediaIs(media);
      } else {
        ImageMediaIs(media);
      }
    }
    if IsAnymap(media) {
      AnymapsRead(media);
    }
  }

  /** A container's media type is the printed one; three forms have a name of their own that is
      only read. */
  lemma ContainerSpelled(media: string, e: ByteStreamEncoding)
    requires InVideoContainers(e)
    ensures VideoContainerOfMedia(media) == Some(e)
      <==> (media == EncodingMedia(e) && !e.IsoBmff? && !e.MpegPs?) || (e.Matroska? && media == "video/webm")
           || (e.IsoBmff? && media == "video/x-cmaf") || (e.MpegPs? && media == "video/mpeg-ps")
  {
    VideoContainerReads(e);
  }

  // ----- RIFF tags -----

  /** A RIFF tag is a number, typed or not. */
  lemma RiffTagSpelled(fs: Fields, field: string, b: string, n: u32)
    requires Blank(b)
    requires Lookup(fs, field) == Some(One(Decimal(n))) || Lookup(fs, field) == Some(One("(int)" + (b + Decimal(n))))
    ensures RiffTag(fs, field) == Some(n)
  {
    RiffValue(n);
    StripPrefixOf("(int)", b + Decimal(n));
    DecimalPlain(n);
    PlainIsTrimmed(Decimal(n));
    assert b + Decimal(n) + [] == b + Decimal(n);
    TrimPadded(b, Decimal(n), []);
  }

  // ----- blank parts -----

  ghost predicate Broken(part: string) {
    Trim(part) != [] && '=' !in part
  }

  /** A part with nothing but blanks says nothing. */
  lemma {:induction false} BlankPartIsSkipped(a: seq<string>, blank: string, b: seq<string>)
    requires Trim(blank) == []
    ensures ParseFields(a + [blank] + b) == ParseFields(a + b)
  {
    var whole, short := a + [blank] + b, a + b;
    if a == [] {
      assert whole[1..] == b && short == b;
    } else {
      BlankPartIsSkipped(a[1..], blank, b);
      assert whole[1..] == a[1..] + [blank] + b && short[1..] == a[1..] + b;
    }
  }

  lemma {:induction false} CutFinds(s: string, c: char)
    ensures SplitOnce(s, c).Some? <==> c in s
  {
    if s != [] {
      CutFinds(s[1..], c);
    }
  }

  /** The fields fail to read exactly when some part is neither blank nor has an equals sign. */
  lemma {:induction false} FieldsFailExactly(parts: seq<string>)
    ensures ParseFields(parts).None? <==> exists i :: 0 <= i < |parts| && Broken(parts[i])
  {
    if parts != [] {
      CutFinds(parts[0], '=');
      FieldsFailExactly(parts[1..]);
      assert forall i :: 0 < i < |parts| ==> parts[i] == parts[1..][i - 1];
    }
  }

  /** Blank parts of a description change nothing. */
  lemma BlankPartsSayNothing(media: string, a: seq<string>, blank: string, b: seq<string>)
    requires Solid(media) && AllSolid(a) && AllSolid(b) && Blank(blank)
    ensures FieldsOf(Commas([media] + (a + [blank] + b))) == FieldsOf(Commas([media] + (a + b)))
    ensures MediaOf(Commas([media] + (a + [blank] + b))) == MediaOf(Commas([media] + (a + b)))
  {
    BlankIsUnmarked(blank);
    UnmarkedIsSolid(blank);
    BlankTrims(blank);
    var long, short := [media] + (a + [blank] + b), [media] + (a + b);
    SplitCommas(long);
    SplitCommas(short);
    assert long[1..] == a + [blank] + b && short[1..] == a + b;
    BlankPartIsSkipped(a, blank, b);
  }

  lemma BlankTrims(b: string)
    requires Blank(b)
    ensures Trim(b) == []
  {
    TrimStartBlank(b, []);
    assert b + [] == b;
  }
}
