/** Every printed field value reads back as itself. */
module CapsValues {
  import opened Options
  import opened Integers
  import opened Strings
  import opened Caps
  import opened CapsPrinter
  import opened CapsParser
  import opened CapsNames
  import opened CapsScan

  /** A value the parser reads, or the absence of one. */
  ghost predicate GoodValue(v: Option<string>) {
    v.Some? ==> Tidy(v.value)
  }

  // ----- numbers -----

  lemma DecimalPlain(n: nat)
    ensures Plain(Decimal(n)) && Decimal(n) != [] && '/' !in Decimal(n) && ':' !in Decimal(n)
  {
    DecimalReadsBack(n);
    forall i | 0 <= i < |Decimal(n)| ensures PlainChar(Decimal(n)[i]) {
      assert '0' <= Decimal(n)[i] <= '9';
    }
  }

  lemma ParseOne<T>(s: string, parse: string -> Option<T>, v: T)
    requires parse(s) == Some(v)
    ensures ParseAll([s], parse) == Some([v])
  {
    assert [s][1..] == [] && [v] + [] == [v];
    assert ParseAll([s][1..], parse) == Some([]);
  }

  lemma NumberReads(n: u32)
    ensures ParseU32(Decimal(n)) == Some(n)
  {
    ParseDecimal(n, U32_MAX);
  }

  lemma ByteReads(n: u8)
    ensures ParseU8(Decimal(n)) == Some(n)
  {
    ParseDecimal(n, U8_MAX);
  }

  lemma DimReads(d: Dim)
    ensures GoodValue(DimText(d))
    ensures ExpandDim(ReadValue(DimText(d))) == Some([d])
  {
    match d
    case Any =>
    case Fixed(v) =>
      DecimalPlain(v);
      PlainValue(Decimal(v));
      NumberReads(v);
      ParseOne(Decimal(v), ParseFixedDim, d);
    case Range(min, max) =>
      DecimalPlain(min);
      DecimalPlain(max);
      RangeValue(Decimal(min), Decimal(max));
      NumberReads(min);
      NumberReads(max);
  }

  // ----- rates -----

  lemma Denominators()
    ensures Decimal(1) == "1" && Decimal(65536) == "65536"
  {
    assert Decimal(6) == "6";
    assert Decimal(65) == "65";
    assert Decimal(655) == "655";
    assert Decimal(6553) == "6553";
  }

  lemma FractionPlain(a: nat, b: nat)
    ensures
      var s := Decimal(a) + "/" + Decimal(b);
      Plain(s) && s != [] && SplitOnce(s, '/') == Some((Decimal(a), Decimal(b)))
  {
    DecimalPlain(a);
    DecimalPlain(b);
    SplitOnceAt(Decimal(a), '/', Decimal(b));
    assert PlainChar('/');
  }

  lemma FractionReads(a: u32, b: u32)
    ensures RateQ16(Decimal(a) + "/" + Decimal(b)) == Q16FromFraction(a, b)
  {
    FractionPlain(a, b);
    PlainIsTrimmed(Decimal(a) + "/" + Decimal(b));
    DecimalPlain(a);
    DecimalPlain(b);
    PlainIsTrimmed(Decimal(a));
    PlainIsTrimmed(Decimal(b));
    NumberReads(a);
    NumberReads(b);
  }

  lemma Q16Reads(q: u32)
    ensures Plain(Q16Fraction(q)) && Q16Fraction(q) != []
    ensures RateQ16(Q16Fraction(q)) == Some(q)
  {
    Denominators();
    if q % 65536 == 0 {
      FractionPlain(q / 65536, 1);
      FractionReads(q / 65536, 1);
      assert q / 65536 * 65536 / 1 == q;
    } else {
      FractionPlain(q, 65536);
      FractionReads(q, 65536);
      assert q * 65536 / 65536 == q;
    }
  }

  lemma RateReads(r: Rate)
    ensures GoodValue(RateText(r))
    ensures ExpandRate(ReadValue(RateText(r))) == Some([r])
  {
    match r
    case Any =>
    case Fixed(q) =>
      Q16Reads(q);
      PlainValue(Q16Fraction(q));
      ParseOne(Q16Fraction(q), ParseRate, r);
    case Range(min, max) =>
      Q16Reads(min);
      Q16Reads(max);
      RangeValue(Q16Fraction(min), Q16Fraction(max));
  }

  // ----- colorimetry -----

  lemma Numbered(c: Colorimetry)
    ensures RangeFromNum(RangeNum(c.range)) == Some(c.range)
    ensures MatrixFromNum(MatrixNum(c.matrix)) == Some(c.matrix)
    ensures TransferFromNum(TransferNum(c.transfer)) == Some(c.transfer)
    ensures PrimariesFromNum(PrimariesNum(c.primaries)) == Some(c.primaries)
  {
  }

  function FourParts(a: nat, b: nat, c: nat, d: nat): string {
    Decimal(a) + ":" + (Decimal(b) + ":" + (Decimal(c) + ":" + Decimal(d)))
  }

  lemma FourPartsSplit(a: nat, b: nat, c: nat, d: nat)
    ensures SplitOn(FourParts(a, b, c, d), ':') == [Decimal(a), Decimal(b), Decimal(c), Decimal(d)]
  {
    DecimalPlain(a);
    DecimalPlain(b);
    DecimalPlain(c);
    DecimalPlain(d);
    var t3 := Decimal(c) + ":" + Decimal(d);
    var t2 := Decimal(b) + ":" + t3;
    SplitOnceNone(Decimal(d), ':');
    SplitOnceAt(Decimal(c), ':', Decimal(d));
    assert SplitOn(t3, ':') == [Decimal(c)] + [Decimal(d)];
    SplitOnceAt(Decimal(b), ':', t3);
    assert SplitOn(t2, ':') == [Decimal(b)] + SplitOn(t3, ':');
    SplitOnceAt(Decimal(a), ':', t2);
  }

  lemma FourPartsPlain(a: nat, b: nat, c: nat, d: nat)
    ensures Plain(FourParts(a, b, c, d)) && FourParts(a, b, c, d) != []
    ensures '0' <= FourParts(a, b, c, d)[0] <= '9'
  {
    DecimalPlain(a);
    DecimalPlain(b);
    DecimalPlain(c);
    DecimalPlain(d);
    DecimalReadsBack(a);
    assert PlainChar(':');
    assert FourParts(a, b, c, d)[0] == Decimal(a)[0];
  }

  /** A text that starts with a digit is no preset name. */
  lemma DigitIsNoPreset(s: string)
    requires s != [] && '0' <= s[0] <= '9' && Trim(s) == s
    ensures ParseColorimetry(s) == ParseFourPart(s)
  {
    DifferAt(s, "bt709", 0);
    DifferAt(s, "bt601", 0);
    DifferAt(s, "bt2020", 0);
    DifferAt(s, "bt2100-pq", 0);
    DifferAt(s, "bt2100-hlg", 0);
    DifferAt(s, "sRGB", 0);
  }

  lemma FourPartReads(c: Colorimetry)
    ensures
      var s := FourParts(RangeNum(c.range), MatrixNum(c.matrix), TransferNum(c.transfer), PrimariesNum(c.primaries));
      ParseColorimetry(s) == Some(c) && Plain(s) && s != []
  {
    var a, b := RangeNum(c.range), MatrixNum(c.matrix);
    var d, e := TransferNum(c.transfer), PrimariesNum(c.primaries);
    var s := FourParts(a, b, d, e);
    FourPartsPlain(a, b, d, e);
    PlainIsTrimmed(s);
    DigitIsNoPreset(s);
    FourPartsSplit(a, b, d, e);
    ByteReads(a);
    ByteReads(b);
    ByteReads(d);
    ByteReads(e);
    Numbered(c);
  }

  lemma PresetsPlain()
    ensures Plain("bt709") && Plain("bt601") && Plain("bt2020")
    ensures Plain("bt2100-pq") && Plain("bt2100-hlg") && Plain("sRGB")
  {
  }

  lemma ShortPresetsRead()
    ensures ParseColorimetry("bt709") == Some(BT709)
    ensures ParseColorimetry("bt601") == Some(BT601)
    ensures ParseColorimetry("bt2020") == Some(BT2020)
  {
    PresetsPlain();
    PlainIsTrimmed("bt709");
    PlainIsTrimmed("bt601");
    PlainIsTrimmed("bt2020");
    DifferAt("bt601", "bt709", 2);
  }

  lemma LongPresetsRead()
    ensures ParseColorimetry("bt2100-pq") == Some(BT2100_PQ)
    ensures ParseColorimetry("bt2100-hlg") == Some(BT2100_HLG)
    ensures ParseColorimetry("sRGB") == Some(SRGB)
  {
    PresetsPlain();
    PlainIsTrimmed("bt2100-pq");
    PlainIsTrimmed("bt2100-hlg");
    PlainIsTrimmed("sRGB");
  }

  lemma ColorimetryValue(s: string, c: Colorimetry)
    requires Plain(s) && s != [] && ParseColorimetry(s) == Some(c)
    ensures GoodValue(Some(s)) && ExpandColorimetry(ReadValue(Some(s))) == Some(c)
  {
    PlainValue(s);
  }

  lemma PresetReads(c: Colorimetry)
    requires c == BT709 || c == BT601 || c == BT2020 || c == BT2100_PQ || c == BT2100_HLG || c == SRGB
    ensures ColorimetryText(c).Some?
    ensures GoodValue(ColorimetryText(c)) && ExpandColorimetry(ReadValue(ColorimetryText(c))) == Some(c)
  {
    PresetsPlain();
    ShortPresetsRead();
    LongPresetsRead();
    ColorimetryValue(ColorimetryText(c).value, c);
  }

  lemma ColorimetryReads(c: Colorimetry)
    ensures GoodValue(ColorimetryText(c))
    ensures ExpandColorimetry(ReadValue(ColorimetryText(c))) == Some(c)
  {
    if c == UNKNOWN_COLORIMETRY {
    } else if c == BT709 || c == BT601 || c == BT2020 || c == BT2100_PQ || c == BT2100_HLG || c == SRGB {
      PresetReads(c);
    } else {
      FourPartReads(c);
      ColorimetryValue(ColorimetryText(c).value, c);
    }
  }

  // ----- scan structure and alignment -----

  lemma InterlaceReads(i: Interlace)
    ensures GoodValue(InterlaceText(i))
    ensures ExpandInterlace(ReadValue(InterlaceText(i))) == Some(if i.Progressive? then Interlace.Any else i)
  {
    if i.Interleaved? {
      InterleavedPlain();
      PlainValue("interleaved");
    }
  }

  lemma InterleavedPlain()
    ensures Plain("interleaved")
  {
  }

  lemma AlignmentReads(a: Alignment)
    ensures GoodValue(AlignmentText(a))
    ensures ExpandAlignment(ReadValue(AlignmentText(a))) == Some(a)
  {
    assert Plain("au") && Plain("nal");
    PlainValue("au");
    PlainValue("nal");
  }

  // ----- audio fields -----

  lemma ChannelsRead(n: u8)
    ensures GoodValue(ChannelsText(n))
    ensures Expand(ReadValue(ChannelsText(n)), [ANY_CHANNELS], ParseU8) == Some([n])
  {
    if n != 0 {
      DecimalPlain(n);
      PlainValue(Decimal(n));
      ByteReads(n);
      ParseOne(Decimal(n), ParseU8, n);
    }
  }

  lemma SampleRateReads(n: u32)
    ensures GoodValue(SampleRateText(n))
    ensures Expand(ReadValue(SampleRateText(n)), [ANY_SAMPLE_RATE], ParseU32) == Some([n])
  {
    if n != 0 {
      DecimalPlain(n);
      PlainValue(Decimal(n));
      NumberReads(n);
      ParseOne(Decimal(n), ParseU32, n);
    }
  }

  function Bit(b: bool): nat {
    if b then 1 else 0
  }

  /** Reading one more mask bit. */
  lemma ReadBit(b: bool, m: nat, bit: nat, l: ChannelLayout, next: ChannelLayout)
    requires if b then WithGstBit(l, bit) == Some(next) else next == l
    ensures LayoutFromBits(Bit(b) + 2 * m, bit, l) == LayoutFromBits(m, bit + 1, next)
  {
    Halved(b, m, Bit(b) + 2 * m);
  }

  lemma Halved(b: bool, m: nat, n: nat)
    requires n == Bit(b) + 2 * m
    ensures n / 2 == m && n % 2 == Bit(b) && (n == 0 <==> !b && m == 0)
  {
  }

  predicate HasBit(l: ChannelLayout, n: nat) {
    match n
    case 0 => l.fl
    case 1 => l.fr
    case 2 => l.fc
    case 3 => l.lfe
    case 4 => l.bl
    case 5 => l.br
    case 6 => l.flc
    case 7 => l.frc
    case 8 => l.bc
    case 10 => l.sl
    case 11 => l.sr
    case _ => false
  }

  /** The speakers of mask bits below `n`. */
  ghost function Below(l: ChannelLayout, n: nat): ChannelLayout {
    ChannelLayout(n > 0 && l.fl, n > 1 && l.fr, n > 2 && l.fc, n > 3 && l.lfe, n > 4 && l.bl, n > 5 && l.br,
                  n > 6 && l.flc, n > 7 && l.frc, n > 8 && l.bc, n > 10 && l.sl, n > 11 && l.sr)
  }

  /** Bit `n`, if set, is all that tells the speakers below `n + 1` from those below `n`. */
  ghost predicate AddsBit(l: ChannelLayout, n: nat) {
    if HasBit(l, n) then WithGstBit(Below(l, n), n) == Some(Below(l, n + 1)) else Below(l, n + 1) == Below(l, n)
  }

  lemma NextFrontBit(l: ChannelLayout, n: nat)
    requires n < 4
    ensures AddsBit(l, n)
  {
    match n
    case 0 => case 1 => case 2 => case 3 =>
  }

  lemma NextBackBit(l: ChannelLayout, n: nat)
    requires 4 <= n < 8
    ensures AddsBit(l, n)
  {
    match n
    case 4 => case 5 => case 6 => case 7 =>
  }

  lemma NextCenterBit(l: ChannelLayout)
    ensures AddsBit(l, 8)
  {
  }

  lemma NextUnusedBit(l: ChannelLayout)
    ensures AddsBit(l, 9)
  {
  }

  lemma NextSideLeftBit(l: ChannelLayout)
    ensures AddsBit(l, 10)
  {
  }

  lemma NextSideRightBit(l: ChannelLayout)
    ensures AddsBit(l, 11)
  {
  }

  lemma NextBit(l: ChannelLayout, n: nat)
    requires n < 12
    ensures AddsBit(l, n)
  {
    if n < 4 {
      NextFrontBit(l, n);
    } else if n < 8 {
      NextBackBit(l, n);
    } else if n == 8 {
      NextCenterBit(l);
    } else if n == 9 {
      NextUnusedBit(l);
    } else if n == 10 {
      NextSideLeftBit(l);
    } else {
      NextSideRightBit(l);
    }
  }

  /** The mask's bits from number `n` up. */
  ghost function MaskFrom(l: ChannelLayout, n: nat): nat
    decreases 12 - n
  {
    if n >= 12 then 0 else Bit(HasBit(l, n)) + 2 * MaskFrom(l, n + 1)
  }

  ghost predicate ReadsFrom(l: ChannelLayout, n: nat, m: nat) {
    LayoutFromBits(m, n, Below(l, n)) == Some(l)
  }

  lemma AllBitsRead(l: ChannelLayout)
    ensures ReadsFrom(l, 12, 0)
  {
  }

  lemma {:induction false} BitsRead(l: ChannelLayout, n: nat, m: nat)
    requires n <= 12 && m == MaskFrom(l, n)
    ensures ReadsFrom(l, n, m)
    decreases 12 - n
  {
    if n == 12 {
      AllBitsRead(l);
    } else {
      BitsRead(l, n + 1, MaskFrom(l, n + 1));
      NextBit(l, n);
      ReadNextBit(l, n, MaskFrom(l, n + 1), m);
    }
  }

  lemma ReadNextBit(l: ChannelLayout, n: nat, rest: nat, m: nat)
    requires AddsBit(l, n) && ReadsFrom(l, n + 1, rest) && m == Bit(HasBit(l, n)) + 2 * rest
    ensures ReadsFrom(l, n, m)
  {
    ReadBit(HasBit(l, n), rest, n, Below(l, n), Below(l, n + 1));
  }

  lemma BitNames(l: ChannelLayout)
    ensures HasBit(l, 0) == l.fl && HasBit(l, 1) == l.fr && HasBit(l, 2) == l.fc && HasBit(l, 3) == l.lfe
    ensures HasBit(l, 4) == l.bl && HasBit(l, 5) == l.br && HasBit(l, 6) == l.flc && HasBit(l, 7) == l.frc
    ensures HasBit(l, 8) == l.bc && !HasBit(l, 9) && HasBit(l, 10) == l.sl && HasBit(l, 11) == l.sr
  {
  }

  lemma MaskLadder(l: ChannelLayout, n: nat)
    requires n < 12
    ensures MaskFrom(l, n) == Bit(HasBit(l, n)) + 2 * MaskFrom(l, n + 1)
  {
  }

  lemma MaskSum(l: ChannelLayout, m8: nat, m4: nat, m0: nat)
    requires m8 == Bit(l.bc) + 4 * Bit(l.sl) + 8 * Bit(l.sr)
    requires m4 == Bit(l.bl) + 2 * Bit(l.br) + 4 * Bit(l.flc) + 8 * Bit(l.frc) + 16 * m8
    requires m0 == Bit(l.fl) + 2 * Bit(l.fr) + 4 * Bit(l.fc) + 8 * Bit(l.lfe) + 16 * m4
    ensures m0 == GstMask(l) && m0 < 4096
  {
  }

  lemma FourBits(b0: bool, b1: bool, b2: bool, b3: bool, m0: nat, m1: nat, m2: nat, m3: nat, m4: nat)
    requires m0 == Bit(b0) + 2 * m1 && m1 == Bit(b1) + 2 * m2 && m2 == Bit(b2) + 2 * m3 && m3 == Bit(b3) + 2 * m4
    ensures m0 == Bit(b0) + 2 * Bit(b1) + 4 * Bit(b2) + 8 * Bit(b3) + 16 * m4
  {
  }

  /** Four bits of the mask at once. */
  lemma MaskNibble(l: ChannelLayout, n: nat)
    requires n + 4 <= 12
    ensures MaskFrom(l, n) == Bit(HasBit(l, n)) + 2 * Bit(HasBit(l, n + 1)) + 4 * Bit(HasBit(l, n + 2))
                              + 8 * Bit(HasBit(l, n + 3)) + 16 * MaskFrom(l, n + 4)
  {
    MaskLadder(l, n);
    MaskLadder(l, n + 1);
    MaskLadder(l, n + 2);
    MaskLadder(l, n + 3);
    FourBits(HasBit(l, n), HasBit(l, n + 1), HasBit(l, n + 2), HasBit(l, n + 3),
             MaskFrom(l, n), MaskFrom(l, n + 1), MaskFrom(l, n + 2), MaskFrom(l, n + 3), MaskFrom(l, n + 4));
  }

  lemma NibblesSum(l: ChannelLayout, m8: nat, m4: nat, m0: nat)
    requires m8 == Bit(HasBit(l, 8)) + 2 * Bit(HasBit(l, 9)) + 4 * Bit(HasBit(l, 10)) + 8 * Bit(HasBit(l, 11))
    requires m4 == Bit(HasBit(l, 4)) + 2 * Bit(HasBit(l, 5)) + 4 * Bit(HasBit(l, 6)) + 8 * Bit(HasBit(l, 7)) + 16 * m8
    requires m0 == Bit(HasBit(l, 0)) + 2 * Bit(HasBit(l, 1)) + 4 * Bit(HasBit(l, 2)) + 8 * Bit(HasBit(l, 3)) + 16 * m4
    ensures m0 == GstMask(l) && m0 < 4096
  {
    BitNames(l);
    MaskSum(l, m8, m4, m0);
  }

  lemma MaskIsGst(l: ChannelLayout)
    ensures MaskFrom(l, 0) == GstMask(l) && GstMask(l) < 4096
  {
    MaskNibble(l, 8);
    MaskNibble(l, 4);
    MaskNibble(l, 0);
    NibblesSum(l, MaskFrom(l, 8), MaskFrom(l, 4), MaskFrom(l, 0));
  }

  lemma NoneBelow(l: ChannelLayout)
    ensures Below(l, 0) == UNSPECIFIED_LAYOUT
  {
  }

  /** A channel layout survives the gst mask. */
  lemma LayoutReads(l: ChannelLayout)
    ensures LayoutFromGstMask(GstMask(l)) == Some(l)
    ensures GstMask(l) < 4096
  {
    MaskIsGst(l);
    BitsRead(l, 0, MaskFrom(l, 0));
    NoneBelow(l);
  }

  lemma Power16Of16()
    ensures Power16(16) > 4096
  {
    assert Power16(4) == 65536;
    Power16Grows(4, 16);
  }

  lemma {:induction false} Power16Grows(a: nat, b: nat)
    requires a <= b
    ensures Power16(a) <= Power16(b)
    decreases b - a
  {
    if a < b {
      Power16Grows(a, b - 1);
    }
  }

  lemma HexPlain(n: nat)
    requires n < Power16(16)
    ensures Plain(Hex(n, 16))
  {
    HexReadsBack(n, 16);
    forall i | 0 <= i < 16 ensures PlainChar(Hex(n, 16)[i]) {
      assert IsDigit(Hex(n, 16)[i]);
    }
  }

  lemma PlainConcat(a: string, b: string)
    requires Plain(a) && Plain(b)
    ensures Plain(a + b)
  {
  }

  lemma BitmaskPrefix()
    ensures Plain("(bitmask)") && Plain("0x") && "(bitmask)0x" == "(bitmask)" + "0x"
  {
  }

  lemma PrefixedMask(h: string, n: nat)
    requires Plain(h) && ParseUnsigned(h, 16, U64_MAX) == Some(n)
    ensures Plain("(bitmask)" + ("0x" + h)) && ParseMask("(bitmask)" + ("0x" + h)) == Some(n)
  {
    BitmaskPrefix();
    var v := "0x" + h;
    PlainConcat("0x", h);
    PlainConcat("(bitmask)", v);
    PlainIsTrimmed("(bitmask)" + v);
    PlainIsTrimmed(v);
    StripPrefixOf("(bitmask)", v);
    StripPrefixOf("0x", h);
  }

  lemma MaskPrefixRegroups(h: string)
    ensures "(bitmask)0x" + h == "(bitmask)" + ("0x" + h)
  {
    BitmaskPrefix();
    assert "(bitmask)0x" + h == ("(bitmask)" + "0x") + h;
  }

  lemma MaskTextReads(n: nat)
    requires n < 4096
    ensures Plain("(bitmask)0x" + Hex(n, 16)) && ParseMask("(bitmask)0x" + Hex(n, 16)) == Some(n)
  {
    Power16Of16();
    HexPlain(n);
    HexParses(n);
    PrefixedMask(Hex(n, 16), n);
    MaskPrefixRegroups(Hex(n, 16));
  }

  lemma HexParses(n: nat)
    requires n < 4096
    ensures ParseUnsigned(Hex(n, 16), 16, U64_MAX) == Some(n)
  {
    Power16Of16();
    HexReadsBack(n, 16);
    assert IsDigit(Hex(n, 16)[0]);
  }

  lemma MaskReads(l: ChannelLayout)
    ensures GoodValue(MaskText(l))
    ensures ExpandMask(ReadValue(MaskText(l))) == Some(l)
  {
    if l != UNSPECIFIED_LAYOUT {
      LayoutReads(l);
      MaskTextReads(GstMask(l));
      PlainValue(MaskText(l).value);
    }
  }
}
