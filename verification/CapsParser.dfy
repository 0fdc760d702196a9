/** GStreamer caps strings as caps sets. */
module CapsParser {
  import opened Options
  import opened Sequences
  import opened Integers
  import opened Strings
  import opened Caps
  import opened CapsSets
  import opened CapsPrinter

  // ----- splitting at top-level commas -----

  /** Where the scanner stands: how deep in brackets, and whether inside quotes. The
      depth is signed, so an unmatched closing bracket takes it below zero. */
  datatype Scan = Scan(depth: int, quoted: bool)

  const TOP: Scan := Scan(0, false)

  function Next(st: Scan, c: char): Scan {
    if c == '"' then Scan(st.depth, !st.quoted)
    else if st.quoted then st
    else if c == '[' || c == '{' || c == '<' then Scan(st.depth + 1, false)
    else if c == ']' || c == '}' || c == '>' then Scan(st.depth - 1, false)
    else st
  }

  predicate Cuts(st: Scan, c: char) {
    c == ',' && st == TOP
  }

  /** The parts of `s`, scanned from `st`, with `cur` already read of the first one. */
  function SplitFrom(s: string, st: Scan, cur: string): (r: seq<string>)
    ensures r != []
    decreases |s|
  {
    if s == [] then [cur]
    else if Cuts(st, s[0]) then [cur] + SplitFrom(s[1..], st, [])
    else SplitFrom(s[1..], Next(st, s[0]), cur + [s[0]])
  }

  function SplitTop(s: string): (r: seq<string>)
    ensures r != []
  {
    SplitFrom(s, TOP, [])
  }

  lemma {:induction false} PartsAreShort(s: string, st: Scan, cur: string)
    ensures forall p :: p in SplitFrom(s, st, cur) ==> |p| <= |cur| + |s|
    decreases |s|
  {
    if s != [] {
      if Cuts(st, s[0]) {
        PartsAreShort(s[1..], st, []);
      } else {
        PartsAreShort(s[1..], Next(st, s[0]), cur + [s[0]]);
      }
    }
  }

  /** The scanner's loop. */
  method SplitTopCommas(s: string) returns (out: seq<string>)
    ensures out == SplitTop(s)
  {
    out := [];
    var st, start := TOP, 0;
    for i := 0 to |s|
      invariant start <= i
      invariant out + SplitFrom(s[i..], st, s[start..i]) == SplitTop(s)
    {
      SplitStep(s, i, st, start);
      if Cuts(st, s[i]) {
        Regroup(out, [s[start..i]], SplitFrom(s[i + 1..], st, []));
        out := out + [s[start..i]];
        start := i + 1;
      }
      st := Next(st, s[i]);
    }
    assert s[|s|..] == [] && s[start..|s|] == s[start..];
    out := out + [s[start..]];
  }

  lemma SplitStep(s: string, i: nat, st: Scan, start: nat)
    requires start <= i < |s|
    ensures SplitFrom(s[i..], st, s[start..i])
         == if Cuts(st, s[i]) then [s[start..i]] + SplitFrom(s[i + 1..], st, s[i + 1..i + 1])
            else SplitFrom(s[i + 1..], Next(st, s[i]), s[start..i + 1])
  {
    assert s[i..][0] == s[i] && s[i..][1..] == s[i + 1..];
    assert s[start..i] + [s[i]] == s[start..i + 1];
    assert s[i + 1..i + 1] == [];
  }

  // ----- field values -----

  datatype FieldVal = One(v: string) | Between(lo: string, hi: string) | List(vs: seq<string>)

  function TrimmedNonEmpty(ps: seq<string>): seq<string> {
    if ps == [] then []
    else (if Trim(ps[0]) == [] then [] else [Trim(ps[0])]) + TrimmedNonEmpty(ps[1..])
  }

  /** The text between a one-character opener and closer. */
  function Enclosed(s: string, open: string, close: string): Option<string> {
    match StripPrefix(s, open)
    case Some(t) => StripSuffix(t, close)
    case None => None
  }

  function ParseFieldVal(text: string): FieldVal {
    var v := Trim(text);
    var range := Enclosed(v, "[", "]");
    var list := Enclosed(v, "{", "}");
    if range.Some? && |SplitTop(range.value)| >= 2 then
      Between(Trim(SplitTop(range.value)[0]), Trim(SplitTop(range.value)[1]))
    else if list.Some? then List(TrimmedNonEmpty(SplitTop(list.value)))
    else One(v)
  }

  type Fields = seq<(string, FieldVal)>

  /** The `key=value` parts; blank parts are skipped, a part with no `=` fails. */
  function ParseFields(parts: seq<string>): Option<Fields> {
    if parts == [] then Some([])
    else if Trim(parts[0]) == [] then ParseFields(parts[1..])
    else
      var kv, rest := SplitOnce(parts[0], '='), ParseFields(parts[1..]);
      if kv.Some? && rest.Some?
      then Some([(Trim(kv.value.0), ParseFieldVal(kv.value.1))] + rest.value) else None
  }

  function Lookup(fs: Fields, key: string): Option<FieldVal> {
    if fs == [] then None
    else if fs[0].0 == key then Some(fs[0].1)
    else Lookup(fs[1..], key)
  }

  // ----- reading one value -----

  function ParseU8(s: string): (r: Option<u8>) {
    match ParseUnsigned(s, 10, U8_MAX)
    case Some(n) => Some(n)
    case None => None
  }

  function ParseU32(s: string): (r: Option<u32>) {
    match ParseUnsigned(s, 10, U32_MAX)
    case Some(n) => Some(n)
    case None => None
  }

  /** Rounds down; `None` for a zero denominator or a rate past the Q16 range. */
  function Q16FromFraction(num: u32, den: u32): Option<u32> {
    if den == 0 then None
    else
      var q := num * 65536 / den;
      if q <= U32_MAX then Some(q) else None
  }

  function RateQ16(s: string): Option<u32> {
    var (num, den) := match SplitOnce(Trim(s), '/') case Some(p) => p case None => (s, "1");
    var n, d := ParseU32(Trim(num)), ParseU32(Trim(den));
    if n.Some? && d.Some? then Q16FromFraction(n.value, d.value) else None
  }

  function ParseRate(s: string): Option<Rate> {
    match RateQ16(s)
    case Some(q) => Some(Rate.Fixed(q))
    case None => None
  }

  function ParseFixedDim(s: string): Option<Dim> {
    match ParseU32(s)
    case Some(n) => Some(Dim.Fixed(n))
    case None => None
  }

  function ParseRawFormat(s: string): Option<RawVideoFormat> {
    RawFormatNamed(Lower(s))
  }

  /** The lower-case spellings of the pixel formats. */
  function RawFormatNamed(l: string): Option<RawVideoFormat> {
    if l == "rgba" then Some(Rgba8)
    else if l == "rgb" then Some(Rgb8)
    else if l == "bgra" then Some(Bgra8)
    else if l == "nv12" then Some(Nv12)
    else if l == "i420" then Some(I420)
    else if l == "yuyv" || l == "yuy2" then Some(Yuyv)
    else if l == "i420_10le" then Some(I420p10)
    else if l == "i420_12le" then Some(I420p12)
    else if l == "y42b" then Some(I422)
    else if l == "i422_10le" then Some(I422p10)
    else if l == "i422_12le" then Some(I422p12)
    else if l == "y444" then Some(I444)
    else if l == "y444_10le" then Some(I444p10)
    else if l == "y444_12le" then Some(I444p12)
    else if l == "p010_10le" || l == "p010" then Some(P010)
    else if l == "a420" then Some(A420)
    else if l == "uyvy" then Some(Uyvy)
    else if l == "a444_12le" then Some(A444p12)
    else if l == "v210" then Some(V210)
    else if l == "r210" then Some(R210)
    else if l == "gbr_10le" then Some(Gbr10Le)
    else if l == "gray8" then Some(Gray8)
    else if l == "bgr" then Some(Bgr8)
    else if l == "bgrx" then Some(Bgrx8)
    else if l == "argb" then Some(Argb8)
    else None
  }

  function ParseTextFormat(s: string): Option<TextFormat> {
    var l := Lower(s);
    if l == "utf8" then Some(TextFormat.Utf8) else if l == "pango-markup" then Some(PangoMarkup) else None
  }

  function ParseAudioFormat(s: string): Option<AudioFormat> {
    var t := Trim(s);
    if EqIgnoreCase("S16LE", t) then Some(PcmS16Le)
    else if EqIgnoreCase("F32LE", t) then Some(PcmF32Le)
    else if EqIgnoreCase("S24LE", t) then Some(PcmS24Le)
    else if EqIgnoreCase("S32LE", t) then Some(PcmS32Le)
    else if EqIgnoreCase("U8", t) then Some(PcmU8)
    else None
  }

  function ParseProRes(s: string): Option<ProResVariant> {
    if s == "proxy" then Some(Proxy)
    else if s == "lt" then Some(Lt)
    else if s == "standard" then Some(Standard)
    else if s == "hq" then Some(Hq)
    else if s == "4444" then Some(FourFourFourFour)
    else if s == "4444xq" then Some(FourFourFourFourXq)
    else None
  }

  function RangeFromNum(n: nat): Option<ColorRange> {
    match n
    case 0 => Some(ColorRange.Unknown)
    case 1 => Some(Full)
    case 2 => Some(Limited)
    case _ => None
  }

  function MatrixFromNum(n: nat): Option<Matrix> {
    match n
    case 0 => Some(Matrix.Unknown)
    case 1 => Some(Identity)
    case 3 => Some(Matrix.Bt709)
    case 4 => Some(Matrix.Bt601)
    case 6 => Some(Bt2020Ncl)
    case _ => None
  }

  function TransferFromNum(n: nat): Option<Transfer> {
    match n
    case 0 => Some(Transfer.Unknown)
    case 5 => Some(Transfer.Bt709)
    case 7 => Some(Srgb)
    case 11 => Some(Transfer.Bt2020)
    case 13 => Some(Transfer.Bt2020)
    case 14 => Some(Pq)
    case 15 => Some(Hlg)
    case 16 => Some(Transfer.Bt601)
    case _ => None
  }

  function PrimariesFromNum(n: nat): Option<Primaries> {
    match n
    case 0 => Some(Primaries.Unknown)
    case 1 => Some(Primaries.Bt709)
    case 3 => Some(Bt470bg)
    case 4 => Some(Smpte170m)
    case 7 => Some(Primaries.Bt2020)
    case _ => None
  }

  function ParseFourPart(s: string): Option<Colorimetry> {
    var p := SplitOn(s, ':');
    if |p| != 4 then None
    else
      var nr, nm, nt, np := ParseU8(p[0]), ParseU8(p[1]), ParseU8(p[2]), ParseU8(p[3]);
      if nr.Some? && nm.Some? && nt.Some? && np.Some? then
        var r, m := RangeFromNum(nr.value), MatrixFromNum(nm.value);
        var t, q := TransferFromNum(nt.value), PrimariesFromNum(np.value);
        if r.Some? && m.Some? && t.Some? && q.Some?
        then Some(Colorimetry(r.value, m.value, t.value, q.value)) else None
      else None
  }

  function ParseColorimetry(text: string): Option<Colorimetry> {
    var s := Trim(text);
    if EqIgnoreCase(s, "bt709") then Some(BT709)
    else if EqIgnoreCase(s, "bt601") then Some(BT601)
    else if EqIgnoreCase(s, "bt2020") then Some(BT2020)
    else if EqIgnoreCase(s, "bt2100-pq") then Some(BT2100_PQ)
    else if EqIgnoreCase(s, "bt2100-hlg") then Some(BT2100_HLG)
    else if EqIgnoreCase(s, "sRGB") then Some(SRGB)
    else ParseFourPart(s)
  }

  // ----- channel masks -----

  /** The layout with the speaker of one gst mask bit added; `None` for a bit that
      names no speaker here. */
  function WithGstBit(l: ChannelLayout, bit: nat): Option<ChannelLayout> {
    match bit
    case 0 => Some(l.(fl := true))
    case 1 => Some(l.(fr := true))
    case 2 => Some(l.(fc := true))
    case 3 => Some(l.(lfe := true))
    case 4 => Some(l.(bl := true))
    case 5 => Some(l.(br := true))
    case 6 => Some(l.(flc := true))
    case 7 => Some(l.(frc := true))
    case 8 => Some(l.(bc := true))
    case 10 => Some(l.(sl := true))
    case 11 => Some(l.(sr := true))
    case _ => None
  }

  /** The set bits of `mask`, whose lowest is bit number `bit`, added to `l`. */
  function LayoutFromBits(mask: nat, bit: nat, l: ChannelLayout): Option<ChannelLayout>
    decreases mask
  {
    if mask == 0 then Some(l)
    else if mask % 2 == 0 then LayoutFromBits(mask / 2, bit + 1, l)
    else
      match WithGstBit(l, bit)
      case Some(m) => LayoutFromBits(mask / 2, bit + 1, m)
      case None => None
  }

  function LayoutFromGstMask(mask: nat): Option<ChannelLayout> {
    LayoutFromBits(mask, 0, UNSPECIFIED_LAYOUT)
  }

  /** The loop over the 64 bits of a mask. */
  method FromGstMask(mask: nat) returns (r: Option<ChannelLayout>)
    requires mask <= U64_MAX
    ensures r == LayoutFromGstMask(mask)
  {
    var layout, rest: nat := UNSPECIFIED_LAYOUT, mask;
    Power2Of64();
    for bit := 0 to 64
      invariant rest < Power2(64 - bit)
      invariant LayoutFromBits(rest, bit, layout) == LayoutFromGstMask(mask)
    {
      if rest % 2 == 1 {
        var with := WithGstBit(layout, bit);
        if with.None? {
          return None;
        }
        layout := with.value;
      }
      rest := rest / 2;
    }
    r := Some(layout);
  }

  ghost function Power2(k: nat): nat {
    if k == 0 then 1 else 2 * Power2(k - 1)
  }

  lemma {:induction false} Power2Add(a: nat, b: nat)
    ensures Power2(a + b) == Power2(a) * Power2(b)
  {
    if a > 0 {
      Power2Add(a - 1, b);
    }
  }

  lemma Power2Of64()
    ensures Power2(64) == U64_MAX + 1
  {
    assert Power2(2) == 4;
    Power2Add(2, 2);
    Power2Add(4, 4);
    Power2Add(8, 8);
    Power2Add(16, 16);
    Power2Add(32, 32);
  }

  // ----- a field's alternatives -----

  function ParseAll<T>(xs: seq<string>, parse: string -> Option<T>): Option<seq<T>> {
    if xs == [] then Some([])
    else
      var head, tail := parse(xs[0]), ParseAll(xs[1..], parse);
      if head.Some? && tail.Some? then Some([head.value] + tail.value) else None
  }

  /** A field that takes one value or a list of them, with `absent` when it is not
      there; a range means nothing to it. */
  function Expand<T>(fv: Option<FieldVal>, absent: seq<T>, parse: string -> Option<T>): Option<seq<T>> {
    match fv
    case None => Some(absent)
    case Some(One(s)) => ParseAll([s], parse)
    case Some(List(xs)) => ParseAll(xs, parse)
    case Some(Between(_, _)) => None
  }

  function ExpandDim(fv: Option<FieldVal>): Option<seq<Dim>> {
    match fv
    case Some(Between(lo, hi)) =>
      var a, b := ParseU32(lo), ParseU32(hi);
      if a.Some? && b.Some? then Some([Dim.Range(a.value, b.value)]) else None
    case _ => Expand(fv, [Dim.Any], ParseFixedDim)
  }

  function ExpandRate(fv: Option<FieldVal>): Option<seq<Rate>> {
    match fv
    case Some(Between(lo, hi)) =>
      var a, b := RateQ16(lo), RateQ16(hi);
      if a.Some? && b.Some? then Some([Rate.Range(a.value, b.value)]) else None
    case _ => Expand(fv, [Rate.Any], ParseRate)
  }

  const RAW_VIDEO_FORMATS: seq<RawVideoFormat> := [Nv12, I420, Rgba8, Bgra8, Yuyv]
  const PCM_FORMATS: seq<AudioFormat> := [PcmS16Le, PcmF32Le, PcmS24Le, PcmS32Le, PcmU8]
  const TEXT_FORMATS: seq<TextFormat> := [TextFormat.Utf8, PangoMarkup]
  const PRORES_VARIANTS: seq<ProResVariant> := [Proxy, Lt, Standard, Hq, FourFourFourFour, FourFourFourFourXq]

  function ExpandColorimetry(fv: Option<FieldVal>): Option<Colorimetry> {
    match fv
    case None => Some(UNKNOWN_COLORIMETRY)
    case Some(One(s)) => ParseColorimetry(s)
    case Some(_) => None
  }

  function ExpandAlignment(fv: Option<FieldVal>): Option<Alignment> {
    match fv
    case None => Some(Alignment.Unspecified)
    case Some(One(s)) => if s == "au" then Some(AccessUnit) else if s == "nal" then Some(Nal) else None
    case Some(_) => None
  }

  function ExpandInterlace(fv: Option<FieldVal>): Option<Interlace> {
    match fv
    case None => Some(Interlace.Any)
    case Some(One(s)) =>
      if s == "progressive" then Some(Progressive) else if s == "interleaved" then Some(Interleaved) else None
    case Some(_) => None
  }

  function ParseMask(text: string): Option<nat> {
    var s := Trim(text);
    var v := Trim(match StripPrefix(s, "(bitmask)") case Some(t) => t case None => s);
    match StripPrefix(v, "0x")
    case Some(hex) => ParseUnsigned(hex, 16, U64_MAX)
    case None =>
      match StripPrefix(v, "0X")
      case Some(hex) => ParseUnsigned(hex, 16, U64_MAX)
      case None => ParseUnsigned(v, 10, U64_MAX)
  }

  function ExpandMask(fv: Option<FieldVal>): Option<ChannelLayout> {
    match fv
    case None => Some(UNSPECIFIED_LAYOUT)
    case Some(One(s)) =>
      (match ParseMask(s)
       case Some(mask) => LayoutFromGstMask(mask)
       case None => None)
    case Some(_) => None
  }

  // ----- cartesian products -----

  /** One compressed caps per width, height and rate, in that order. */
  function CompressedProduct(codec: VideoCodec, ws: seq<Dim>, hs: seq<Dim>, rs: seq<Rate>,
                             col: Colorimetry, al: Alignment): CapsSet {
    if ws == [] then []
    else CompressedRow(codec, ws[0], hs, rs, col, al) + CompressedProduct(codec, ws[1..], hs, rs, col, al)
  }

  function CompressedRow(codec: VideoCodec, w: Dim, hs: seq<Dim>, rs: seq<Rate>,
                         col: Colorimetry, al: Alignment): CapsSet {
    if hs == [] then []
    else CompressedCell(codec, w, hs[0], rs, col, al) + CompressedRow(codec, w, hs[1..], rs, col, al)
  }

  function CompressedCell(codec: VideoCodec, w: Dim, h: Dim, rs: seq<Rate>,
                          col: Colorimetry, al: Alignment): CapsSet {
    if rs == [] then []
    else [CompressedVideo(codec, w, h, rs[0], col, al)] + CompressedCell(codec, w, h, rs[1..], col, al)
  }

  function RawProduct(fs: seq<RawVideoFormat>, ws: seq<Dim>, hs: seq<Dim>, rs: seq<Rate>,
                      il: Interlace, col: Colorimetry): CapsSet {
    if fs == [] then []
    else RawPlane(fs[0], ws, hs, rs, il, col) + RawProduct(fs[1..], ws, hs, rs, il, col)
  }

  function RawPlane(f: RawVideoFormat, ws: seq<Dim>, hs: seq<Dim>, rs: seq<Rate>,
                    il: Interlace, col: Colorimetry): CapsSet {
    if ws == [] then []
    else RawRow(f, ws[0], hs, rs, il, col) + RawPlane(f, ws[1..], hs, rs, il, col)
  }

  function RawRow(f: RawVideoFormat, w: Dim, hs: seq<Dim>, rs: seq<Rate>, il: Interlace, col: Colorimetry): CapsSet {
    if hs == [] then []
    else RawCell(f, w, hs[0], rs, il, col) + RawRow(f, w, hs[1..], rs, il, col)
  }

  function RawCell(f: RawVideoFormat, w: Dim, h: Dim, rs: seq<Rate>, il: Interlace, col: Colorimetry): CapsSet {
    if rs == [] then []
    else [RawVideo(f, w, h, rs[0], il, col)] + RawCell(f, w, h, rs[1..], il, col)
  }

  function AudioProduct(fs: seq<AudioFormat>, chs: seq<u8>, srs: seq<u32>, l: ChannelLayout): CapsSet {
    if fs == [] then [] else AudioRow(fs[0], chs, srs, l) + AudioProduct(fs[1..], chs, srs, l)
  }

  function AudioRow(f: AudioFormat, chs: seq<u8>, srs: seq<u32>, l: ChannelLayout): CapsSet {
    if chs == [] then [] else AudioCell(f, chs[0], srs, l) + AudioRow(f, chs[1..], srs, l)
  }

  function AudioCell(f: AudioFormat, ch: u8, srs: seq<u32>, l: ChannelLayout): CapsSet {
    if srs == [] then [] else [Audio(f, ch, srs[0], l)] + AudioCell(f, ch, srs[1..], l)
  }

  // ----- media types -----

  function CompressedSet(fs: Fields, codec: VideoCodec): Option<CapsSet> {
    var ws, hs, rs := ExpandDim(Lookup(fs, "width")), ExpandDim(Lookup(fs, "height")), ExpandRate(Lookup(fs, "framerate"));
    var col, al := ExpandColorimetry(Lookup(fs, "colorimetry")), ExpandAlignment(Lookup(fs, "alignment"));
    if ws.Some? && hs.Some? && rs.Some? && col.Some? && al.Some?
    then Some(CompressedProduct(codec, ws.value, hs.value, rs.value, col.value, al.value)) else None
  }

  function RawSet(fs: Fields): Option<CapsSet> {
    var formats := Expand(Lookup(fs, "format"), RAW_VIDEO_FORMATS, ParseRawFormat);
    var ws, hs, rs := ExpandDim(Lookup(fs, "width")), ExpandDim(Lookup(fs, "height")), ExpandRate(Lookup(fs, "framerate"));
    var il, col := ExpandInterlace(Lookup(fs, "interlace-mode")), ExpandColorimetry(Lookup(fs, "colorimetry"));
    if formats.Some? && ws.Some? && hs.Some? && rs.Some? && il.Some? && col.Some?
    then Some(RawProduct(formats.value, ws.value, hs.value, rs.value, il.value, col.value)) else None
  }

  function AudioSet(fs: Fields, formats: seq<AudioFormat>): Option<CapsSet> {
    var l := ExpandMask(Lookup(fs, "channel-mask"));
    var chs := Expand(Lookup(fs, "channels"), [ANY_CHANNELS], ParseU8);
    var srs := Expand(Lookup(fs, "rate"), [ANY_SAMPLE_RATE], ParseU32);
    if l.Some? && chs.Some? && srs.Some?
    then Some(AudioProduct(formats, chs.value, srs.value, l.value)) else None
  }

  function TextSet(formats: seq<TextFormat>): CapsSet {
    if formats == [] then [] else [Text(formats[0])] + TextSet(formats[1..])
  }

  /** All variants' alternatives; with no variant left nothing else is read. */
  function ProResSets(fs: Fields, variants: seq<ProResVariant>): Option<CapsSet> {
    if variants == [] then Some([])
    else
      var head, tail := CompressedSet(fs, ProRes(variants[0])), ProResSets(fs, variants[1..]);
      if head.Some? && tail.Some? then Some(head.value + tail.value) else None
  }

  datatype TaggedCodec = TaggedVideo(v: CodecTag) | TaggedAudio(a: CodecTag)

  function TaggedOfKind(kind: string, tag: CodecTag): Option<TaggedCodec> {
    if kind == "video" then Some(TaggedVideo(tag))
    else if kind == "audio" then Some(TaggedAudio(tag))
    else None
  }

  /** A tag from its four bytes, least significant first. */
  function TagFromBytes(b: seq<nat>): Option<u32> {
    if |b| == 4 && b[0] < 256 && b[1] < 256 && b[2] < 256 && b[3] < 256
    then Some(b[0] + 256 * b[1] + 65536 * b[2] + 16777216 * b[3]) else None
  }

  function RiffTag(fs: Fields, field: string): Option<u32> {
    match Lookup(fs, field)
    case Some(One(value)) =>
      ParseU32(Trim(match StripPrefix(value, "(int)") case Some(v) => v case None => value))
    case _ => None
  }

  function TaggedCodecOf(media: string, fs: Fields): Option<TaggedCodec> {
    match SplitOnce(media, '/')
    case None => None
    case Some((kind, subtype)) =>
      match StripPrefix(subtype, MOV_PREFIX)
      case Some(fourcc) =>
        (match TagFromBytes(Utf8Bytes(fourcc))
         case Some(tag) => TaggedOfKind(kind, CodecTag(Mov, tag))
         case None => None)
      case None =>
        if subtype != "x-avi-unknown" then None
        else if kind == "video" then
          (match RiffTag(fs, "fourcc")
           case Some(tag) => TaggedOfKind(kind, CodecTag(Riff, tag))
           case None => None)
        else if kind == "audio" then
          (match RiffTag(fs, "codec_id")
           case Some(tag) => TaggedOfKind(kind, CodecTag(Riff, tag))
           case None => None)
        else None
  }

  /** The codec a compressed-video media type names, tags and ProRes apart. */
  function CodecOfMedia(media: string): Option<VideoCodec> {
    if media == "video/x-h264" then Some(H264)
    else if media == "video/x-h265" then Some(H265)
    else if media == "video/x-vp8" then Some(Vp8)
    else if media == "video/x-vp9" then Some(Vp9)
    else if media == "video/x-av1" then Some(Av1)
    else if media == "image/jpeg" then Some(Mjpeg)
    else if media == "image/png" then Some(Png)
    else if media == "image/webp" then Some(WebP)
    else if media == "image/x-portable-anymap" || media == "image/x-portable-bitmap"
         || media == "image/x-portable-graymap" || media == "image/x-portable-pixmap" then Some(Pnm)
    else if media == "video/x-wmv" then Some(Vc1)
    else if media == "video/x-flash-video" then Some(SorensonH263)
    else if media == "video/x-vp6-flash" then Some(Vp6(false))
    else if media == "video/x-vp6-alpha" then Some(Vp6(true))
    else if media == "video/x-vp6" then Some(Vp6Plain)
    else if media == "video/x-theora" then Some(Theora)
    else if media == "video/x-dnxhd" then Some(DnxHd)
    else None
  }

  /** The coded audio format a media type names. */
  function AudioOfMedia(media: string): Option<AudioFormat> {
    if media == "audio/x-speex" then Some(Speex)
    else if media == "audio/x-opus" then Some(Opus)
    else if media == "audio/x-ac3" then Some(Ac3)
    else if media == "audio/x-flac" then Some(Flac)
    else if media == "audio/x-mulaw" then Some(Mulaw)
    else if media == "audio/x-alaw" then Some(Alaw)
    else if media == "audio/x-adpcm" then Some(ImaAdpcm)
    else if media == "audio/x-vorbis" then Some(Vorbis)
    else if media == "audio/mpeg" then Some(Aac)
    else None
  }

  /** The container a `video/` media type names. */
  function VideoContainerOfMedia(media: string): Option<ByteStreamEncoding> {
    if media == "video/mpegts" then Some(MpegTs)
    else if media == "video/x-matroska" || media == "video/webm" then Some(Matroska)
    else if media == "video/x-flv" then Some(Flv)
    else if media == "video/quicktime" then Some(Mp4)
    else if media == "video/x-cmaf" then Some(IsoBmff)
    else if media == "video/x-ivf" then Some(Ivf)
    else if media == "video/mpeg-ps" then Some(MpegPs)
    else if media == "video/x-msvideo" then Some(Avi)
    else if media == "video/x-iv8" then Some(Iv8)
    else None
  }

  function AudioContainerOfMedia(media: string): Option<ByteStreamEncoding> {
    if media == "audio/x-wav" then Some(Wav)
    else if media == "audio/x-aiff" then Some(Aiff)
    else if media == "audio/x-au" then Some(Au)
    else None
  }

  /** The other byte streams, packets included. */
  function StreamOfMedia(media: string): Option<ByteStreamEncoding> {
    if media == "application/ogg" then Some(Ogg)
    else if media == "application/x-yuv4mpeg" then Some(Y4m)
    else if media == "multipart/x-mixed-replace" then Some(Multipart)
    else if media == "application/octet-stream" then Some(Raw)
    else if media == "application/x-rtp" then Some(Rtp)
    else if media == "application/x-srtp" then Some(Srtp)
    else if media == "application/x-rtcp" then Some(Rtcp)
    else if media == "application/x-srtcp" then Some(Srtcp)
    else if media == "application/x-dtls" then Some(Dtls)
    else None
  }

  /** The text, metadata or subpicture caps a media type names with no field to read. */
  function FieldlessOfMedia(media: string): Option<Caps> {
    if media == "application/x-subtitle" then Some(Text(Srt))
    else if media == "application/x-subtitle-vtt" then Some(Text(WebVtt))
    else if media == "application/x-ssa" then Some(Text(Ssa))
    else if media == "application/ttml+xml" then Some(Text(Ttml))
    else if media == "private/teletext" then Some(Text(Teletext))
    else if media == "meta/x-klv" then Some(Klv)
    else if media == "application/x-onvif-metadata" then Some(OnvifMetadata)
    else if media == "subpicture/x-dvd" then Some(SubPicture(VobSub))
    else if media == "subpicture/x-dvb" then Some(SubPicture(DvbSub))
    else if media == "subpicture/x-pgs" then Some(SubPicture(Pgs))
    else None
  }

  /** A media type and its fields, batches apart. */
  function LeafSet(media: string, fs: Fields): Option<CapsSet> {
    match TaggedCodecOf(media, fs)
    case Some(TaggedVideo(tag)) => CompressedSet(fs, VideoCodec.Tagged(tag))
    case Some(TaggedAudio(tag)) => AudioSet(fs, [AudioFormat.Tagged(tag)])
    case None => UntaggedSet(media, fs)
  }

  /** The media types whose `format` or `variant` field lists alternatives. */
  predicate IsListed(media: string) {
    media == "video/x-raw" || media == "audio/x-raw" || media == "video/x-prores" || media == "text/x-raw"
  }

  function ListedSet(media: string, fs: Fields): Option<CapsSet> {
    if media == "video/x-raw" then RawSet(fs)
    else if media == "audio/x-raw" then
      (match Expand(Lookup(fs, "format"), PCM_FORMATS, ParseAudioFormat)
       case Some(formats) => AudioSet(fs, formats)
       case None => None)
    else if media == "video/x-prores" then
      (match Expand(Lookup(fs, "variant"), PRORES_VARIANTS, ParseProRes)
       case Some(variants) => ProResSets(fs, variants)
       case None => None)
    else if media == "text/x-raw" then
      (match Expand(Lookup(fs, "format"), TEXT_FORMATS, ParseTextFormat)
       case Some(formats) => Some(TextSet(formats))
       case None => None)
    else None
  }

  function UntaggedSet(media: string, fs: Fields): Option<CapsSet> {
    if IsListed(media) then ListedSet(media, fs)
    else if CodecOfMedia(media).Some? then CompressedSet(fs, CodecOfMedia(media).value)
    else if AudioOfMedia(media).Some? then AudioSet(fs, [AudioOfMedia(media).value])
    else if VideoContainerOfMedia(media).Some? then Some([ByteStream(VideoContainerOfMedia(media).value)])
    else if AudioContainerOfMedia(media).Some? then Some([ByteStream(AudioContainerOfMedia(media).value)])
    else if StreamOfMedia(media).Some? then Some([ByteStream(StreamOfMedia(media).value)])
    else if FieldlessOfMedia(media).Some? then Some([FieldlessOfMedia(media).value])
    else None
  }

  // ----- batches -----

  const MAX_BATCH_ALTERNATIVES: nat := 256

  /** Every prefix extended by every alternative, prefixes first. */
  function Extend(prefixes: seq<seq<Caps>>, alts: CapsSet): seq<seq<Caps>> {
    if prefixes == [] then [] else ExtendOne(prefixes[0], alts) + Extend(prefixes[1..], alts)
  }

  function ExtendOne(prefix: seq<Caps>, alts: CapsSet): seq<seq<Caps>> {
    if alts == [] then [] else [prefix + [alts[0]]] + ExtendOne(prefix, alts[1..])
  }

  /** All combinations of the streams' alternatives, unless there are too many. */
  function BatchesFrom(prefixes: seq<seq<Caps>>, sets: seq<CapsSet>): Option<seq<seq<Caps>>>
    decreases |sets|
  {
    if sets == [] then Some(prefixes)
    else if |prefixes| * |sets[0]| > MAX_BATCH_ALTERNATIVES then None
    else BatchesFrom(Extend(prefixes, sets[0]), sets[1..])
  }

  function AsBatches(bs: seq<seq<Caps>>): CapsSet {
    if bs == [] then [] else [Batch(bs[0])] + AsBatches(bs[1..])
  }

  /** The loop that multiplies out the streams' alternatives. */
  method BatchAlternatives(sets: seq<CapsSet>) returns (r: Option<CapsSet>)
    ensures r == match BatchesFrom([[]], sets) case Some(bs) => Some(AsBatches(bs)) case None => None
  {
    var batches := [[]];
    for k := 0 to |sets|
      invariant BatchesFrom(batches, sets[k..]) == BatchesFrom([[]], sets)
    {
      assert sets[k..][0] == sets[k] && sets[k..][1..] == sets[k + 1..];
      if |batches| * |sets[k]| > MAX_BATCH_ALTERNATIVES {
        return None;
      }
      batches := Extend(batches, sets[k]);
    }
    r := Some(AsBatches(batches));
  }

  // ----- the parser -----

  function MediaOf(desc: string): string {
    Trim(SplitTop(desc)[0])
  }

  function FieldsOf(desc: string): Option<Fields> {
    ParseFields(SplitTop(desc)[1..])
  }

  lemma {:induction false} LookupIsShort(parts: seq<string>, key: string, n: nat)
    requires ParseFields(parts).Some? && forall p :: p in parts ==> |p| <= n
    ensures
      var v := Lookup(ParseFields(parts).value, key);
      v.Some? && v.value.One? ==> |v.value.v| < n
  {
    if parts != [] {
      assert forall p :: p in parts[1..] ==> p in parts;
      LookupIsShort(parts[1..], key, n);
      if Trim(parts[0]) != [] {
        var kv := SplitOnce(parts[0], '=').value;
        SplitOnceShrinks(parts[0], '=');
        TrimIsShort(kv.1);
        assert parts[0] in parts;
      }
    }
  }

  lemma {:induction false} TrimStartIsShort(s: string)
    ensures |TrimStart(s)| <= |s|
  {
    if s != [] && IsSpace(s[0]) {
      TrimStartIsShort(s[1..]);
    }
  }

  lemma {:induction false} TrimEndIsShort(s: string)
    ensures |TrimEnd(s)| <= |s|
  {
    if s != [] && IsSpace(s[|s| - 1]) {
      TrimEndIsShort(s[..|s| - 1]);
    }
  }

  lemma TrimIsShort(s: string)
    ensures |Trim(s)| <= |s|
  {
    TrimStartIsShort(s);
    TrimEndIsShort(TrimStart(s));
  }

  lemma StreamTextsAreShort(inner: string)
    ensures forall p :: p in TrimmedNonEmpty(SplitTop(inner)) ==> |p| <= |inner|
  {
    PartsAreShort(inner, TOP, []);
    TrimmedAreShort(SplitTop(inner), |inner|);
  }

  lemma {:induction false} TrimmedAreShort(ps: seq<string>, n: nat)
    requires forall p :: p in ps ==> |p| <= n
    ensures forall p :: p in TrimmedNonEmpty(ps) ==> |p| <= n
  {
    if ps != [] {
      TrimIsShort(ps[0]);
      assert ps[0] in ps;
      assert forall p :: p in ps[1..] ==> p in ps;
      TrimmedAreShort(ps[1..], n);
    }
  }

  /** `CapsSet::from_gst_string`. */
  function Parse(desc: string): Option<CapsSet>
    decreases |desc|, 1
  {
    match FieldsOf(desc)
    case None => None
    case Some(fs) =>
      var media := MediaOf(desc);
      if media == BATCH_MEDIA && TaggedCodecOf(media, fs).None? then
        (match Lookup(fs, "streams")
         case Some(One(streams)) =>
           assert |streams| < |desc| by {
             var parts := SplitTop(desc);
             PartsAreShort(desc, TOP, []);
             assert forall p :: p in parts[1..] ==> p in parts;
             LookupIsShort(parts[1..], "streams", |desc|);
           }
           ParseBatch(streams)
         case _ => None)
      else LeafSet(media, fs)
  }

  function ParseBatch(streams: string): Option<CapsSet>
    decreases |streams|, 1
  {
    match Enclosed(streams, "<", ">")
    case None => None
    case Some(inner) =>
      StreamTextsAreShort(inner);
      match ParseStreams(TrimmedNonEmpty(SplitTop(inner)), |inner|)
      case None => None
      case Some(sets) =>
        match BatchesFrom([[]], sets)
        case Some(bs) => Some(AsBatches(bs))
        case None => None
  }

  /** Each quoted stream description, parsed. `bound` limits their lengths. */
  function ParseStreams(texts: seq<string>, ghost bound: nat): Option<seq<CapsSet>>
    requires forall p :: p in texts ==> |p| <= bound
    decreases bound, 0, |texts|
  {
    if texts == [] then Some([])
    else
      assert texts[0] in texts;
      match Enclosed(texts[0], "\"", "\"")
      case None => None
      case Some(text) =>
        var head, tail := Parse(text), ParseStreams(texts[1..], bound);
        if head.Some? && tail.Some? then Some([head.value] + tail.value) else None
  }
}
