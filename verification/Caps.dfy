/**
 Caps, the description of one link, and the two operations negotiation is built
 from: `intersect`, the partial meet, and `fixate`, the collapse to one value.
 */
module Caps {
  import opened Options
  import opened Integers

  const ANY_SAMPLE_RATE: u32 := 0
  const ANY_CHANNELS: u8 := 0
  const FIXATE_CHANNELS_PLACEHOLDER: u8 := 2

  // ----- fields -----

  datatype Dim = Any | Range(min: u32, max: u32) | Fixed(v: u32)
  datatype Rate = Any | Range(minQ16: u32, maxQ16: u32) | Fixed(q16: u32)
  datatype Interlace = Any | Progressive | Interleaved
  datatype Alignment = Unspecified | AccessUnit | Nal

  datatype ColorRange = Unknown | Limited | Full
  datatype Matrix = Unknown | Identity | Bt601 | Bt709 | Bt2020Ncl
  datatype Transfer = Unknown | Srgb | Bt601 | Bt709 | Bt2020 | Pq | Hlg
  datatype Primaries = Unknown | Bt709 | Bt470bg | Smpte170m | Bt2020
  datatype Colorimetry = Colorimetry(range: ColorRange, matrix: Matrix, transfer: Transfer, primaries: Primaries)

  const UNKNOWN_COLORIMETRY: Colorimetry :=
    Colorimetry(ColorRange.Unknown, Matrix.Unknown, Transfer.Unknown, Primaries.Unknown)

  /** Which speakers a layout feeds, in mask-bit order. No speaker at all is the
      unspecified layout. */
  datatype ChannelLayout = ChannelLayout(fl: bool, fr: bool, fc: bool, lfe: bool, bl: bool, br: bool,
                                         flc: bool, frc: bool, bc: bool, sl: bool, sr: bool)

  const UNSPECIFIED_LAYOUT: ChannelLayout :=
    ChannelLayout(false, false, false, false, false, false, false, false, false, false, false)

  datatype TagNamespace = Riff | Mov
  datatype CodecTag = CodecTag(namespace: TagNamespace, tag: u32)
  datatype ProResVariant = Proxy | Lt | Standard | Hq | FourFourFourFour | FourFourFourFourXq

  datatype VideoCodec =
    | H264 | H265 | Av1 | Vp8 | Vp9 | Mjpeg | Png | WebP | Mpeg4Part2 | Mpeg2 | SorensonH263
    | Vp6(alpha: bool) | JpegXs | Vc1 | Pnm | Vp6Plain | Theora | ProRes(variant: ProResVariant) | DnxHd
    | Tagged(codecTag: CodecTag)

  datatype RawVideoFormat =
    | Nv12 | I420 | Rgba8 | Bgra8 | Rgb8 | Yuyv
    | I420p10 | I420p12 | I422 | I422p10 | I422p12 | I444 | I444p10 | I444p12
    | P010 | A420 | Uyvy | A444p12 | V210 | R210 | Gbr10Le | Gray8 | Bgr8 | Bgrx8 | Argb8

  datatype AudioFormat =
    | Aac | Opus | Mp2 | Ac3 | Mp3 | Speex | Flac | Vorbis
    | PcmS16Le | PcmF32Le | PcmS24Le | PcmS32Le | PcmU8
    | Mulaw | Alaw | ImaAdpcm | Tagged(audioTag: CodecTag)

  datatype TensorDType = F16 | F32 | I8 | U8
  datatype TensorLayout = Nchw | Nhwc

  datatype ByteStreamEncoding =
    | MpegTs | Matroska | Ogg | Flv | IsoBmff | Mp4 | Ivf | MpegPs | Wav | Aiff | Au | Avi | Y4m
    | Multipart | Raw | Rtp | Srtp | Rtcp | Srtcp | Dtls | Iv8

  datatype TextFormat = Utf8 | PangoMarkup | Srt | WebVtt | Ssa | Ttml | Teletext
  datatype ClosedCaptionFormat = Cea608 | Cea608Raw | Cea608S334 | Cea708 | Cea708Cdp
  datatype SubPictureFormat = VobSub | DvbSub | Pgs

  datatype Caps =
    | CompressedVideo(codec: VideoCodec, width: Dim, height: Dim, framerate: Rate,
                      colorimetry: Colorimetry, alignment: Alignment)
    | RawVideo(format: RawVideoFormat, width: Dim, height: Dim, framerate: Rate,
               interlace: Interlace, colorimetry: Colorimetry)
    | Audio(audioFormat: AudioFormat, channels: u8, sampleRate: u32, layout: ChannelLayout)
    | Tensor(dtype: TensorDType, shape: seq<u32>, tensorLayout: TensorLayout)
    | ByteStream(encoding: ByteStreamEncoding)
    | Text(textFormat: TextFormat)
    | Klv
    | OnvifMetadata
    | ClosedCaption(ccFormat: ClosedCaptionFormat)
    | SubPicture(subFormat: SubPictureFormat)
    | Batch(streams: seq<Caps>)

  // ----- field meets -----

  /** The meet of a field whose `wildcard` matches anything and whose other values
      match only themselves. */
  function FlatMeet<T(==)>(a: T, b: T, wildcard: T): Option<T> {
    if a == wildcard then Some(b)
    else if b == wildcard || a == b then Some(a)
    else None
  }

  function IntersectRange(a: (u32, u32), b: (u32, u32)): Option<(u32, u32)> {
    var lo := if a.0 >= b.0 then a.0 else b.0;
    var hi := if a.1 <= b.1 then a.1 else b.1;
    if lo <= hi then Some((lo, hi)) else None
  }

  function DimBounds(d: Dim): (u32, u32) {
    match d
    case Any => (0, U32_MAX)
    case Range(min, max) => (min, max)
    case Fixed(v) => (v, v)
  }

  function DimFromBounds(b: (u32, u32)): Dim {
    if b.0 == b.1 then Dim.Fixed(b.0)
    else if b.0 == 0 && b.1 == U32_MAX then Dim.Any
    else Dim.Range(b.0, b.1)
  }

  function IntersectDim(a: Dim, b: Dim): Option<Dim> {
    match IntersectRange(DimBounds(a), DimBounds(b))
    case Some(r) => Some(DimFromBounds(r))
    case None => None
  }

  function RateBounds(r: Rate): (u32, u32) {
    match r
    case Any => (0, U32_MAX)
    case Range(min, max) => (min, max)
    case Fixed(q) => (q, q)
  }

  function RateFromBounds(b: (u32, u32)): Rate {
    if b.0 == b.1 then Rate.Fixed(b.0)
    else if b.0 == 0 && b.1 == U32_MAX then Rate.Any
    else Rate.Range(b.0, b.1)
  }

  function IntersectRate(a: Rate, b: Rate): Option<Rate> {
    match IntersectRange(RateBounds(a), RateBounds(b))
    case Some(r) => Some(RateFromBounds(r))
    case None => None
  }

  function IntersectColorimetry(a: Colorimetry, b: Colorimetry): Option<Colorimetry> {
    var r := FlatMeet(a.range, b.range, ColorRange.Unknown);
    var m := FlatMeet(a.matrix, b.matrix, Matrix.Unknown);
    var t := FlatMeet(a.transfer, b.transfer, Transfer.Unknown);
    var p := FlatMeet(a.primaries, b.primaries, Primaries.Unknown);
    if r.Some? && m.Some? && t.Some? && p.Some?
    then Some(Colorimetry(r.value, m.value, t.value, p.value)) else None
  }

  function IntersectInterlace(a: Interlace, b: Interlace): Option<Interlace> {
    FlatMeet(a, b, Interlace.Any)
  }

  function IntersectAlignment(a: Alignment, b: Alignment): Option<Alignment> {
    FlatMeet(a, b, Alignment.Unspecified)
  }

  function IntersectChannels(a: u8, b: u8): Option<u8> {
    FlatMeet(a, b, ANY_CHANNELS)
  }

  function IntersectSampleRate(a: u32, b: u32): Option<u32> {
    FlatMeet(a, b, ANY_SAMPLE_RATE)
  }

  function IntersectLayout(a: ChannelLayout, b: ChannelLayout): Option<ChannelLayout> {
    FlatMeet(a, b, UNSPECIFIED_LAYOUT)
  }

  // ----- intersect -----

  function IntersectCompressed(a: Caps, b: Caps): Option<Caps>
    requires a.CompressedVideo? && b.CompressedVideo?
  {
    var w, h := IntersectDim(a.width, b.width), IntersectDim(a.height, b.height);
    var r := IntersectRate(a.framerate, b.framerate);
    var c := IntersectColorimetry(a.colorimetry, b.colorimetry);
    var al := IntersectAlignment(a.alignment, b.alignment);
    if a.codec == b.codec && w.Some? && h.Some? && r.Some? && c.Some? && al.Some?
    then Some(CompressedVideo(a.codec, w.value, h.value, r.value, c.value, al.value)) else None
  }

  function IntersectRaw(a: Caps, b: Caps): Option<Caps>
    requires a.RawVideo? && b.RawVideo?
  {
    var w, h := IntersectDim(a.width, b.width), IntersectDim(a.height, b.height);
    var r := IntersectRate(a.framerate, b.framerate);
    var i := IntersectInterlace(a.interlace, b.interlace);
    var c := IntersectColorimetry(a.colorimetry, b.colorimetry);
    if a.format == b.format && w.Some? && h.Some? && r.Some? && i.Some? && c.Some?
    then Some(RawVideo(a.format, w.value, h.value, r.value, i.value, c.value)) else None
  }

  function IntersectAudio(a: Caps, b: Caps): Option<Caps>
    requires a.Audio? && b.Audio?
  {
    var c := IntersectChannels(a.channels, b.channels);
    var r := IntersectSampleRate(a.sampleRate, b.sampleRate);
    var l := IntersectLayout(a.layout, b.layout);
    if a.audioFormat == b.audioFormat && c.Some? && r.Some? && l.Some?
    then Some(Audio(a.audioFormat, c.value, r.value, l.value)) else None
  }

  /** The overlap of two descriptions of a link; `None` is `CapsMismatch`. */
  function Intersect(a: Caps, b: Caps): Option<Caps>
    decreases a, 1
  {
    match (a, b)
    case (CompressedVideo(_, _, _, _, _, _), CompressedVideo(_, _, _, _, _, _)) => IntersectCompressed(a, b)
    case (RawVideo(_, _, _, _, _, _), RawVideo(_, _, _, _, _, _)) => IntersectRaw(a, b)
    case (Audio(_, _, _, _), Audio(_, _, _, _)) => IntersectAudio(a, b)
    case (Batch(s), Batch(t)) =>
      if |s| == |t| then
        match IntersectAll(s, t)
        case Some(streams) => Some(Batch(streams))
        case None => None
      else None
    case _ => if a == b then Some(a) else None
  }

  function IntersectAll(s: seq<Caps>, t: seq<Caps>): (r: Option<seq<Caps>>)
    requires |s| == |t|
    ensures r.Some? ==> |r.value| == |s|
    decreases s, 0
  {
    if s == [] then Some([])
    else
      var head := Intersect(s[0], t[0]);
      var tail := IntersectAll(s[1..], t[1..]);
      if head.Some? && tail.Some? then Some([head.value] + tail.value) else None
  }

  // ----- fixate -----

  predicate IsPcm(f: AudioFormat) {
    f.PcmS16Le? || f.PcmF32Le? || f.PcmS24Le? || f.PcmS32Le? || f.PcmU8?
  }

  predicate IsFixed(c: Caps)
    decreases c
  {
    match c
    case Batch(streams) => forall i :: 0 <= i < |streams| ==> IsFixed(streams[i])
    case Audio(f, channels, rate, _) => !(IsPcm(f) && (rate == ANY_SAMPLE_RATE || channels == ANY_CHANNELS))
    case CompressedVideo(_, w, h, r, _, _) => w.Fixed? && h.Fixed? && r.Fixed?
    case RawVideo(_, w, h, r, _, _) => w.Fixed? && h.Fixed? && r.Fixed?
    case _ => true
  }

  function FixateDim(d: Dim): Option<Dim> {
    match d
    case Fixed(v) => Some(d)
    case Range(min, max) => if min <= max then Some(Dim.Fixed(min)) else None
    case Any => None
  }

  function FixateRate(r: Rate): Option<Rate> {
    match r
    case Fixed(q) => Some(r)
    case Range(min, max) => if min <= max then Some(Rate.Fixed(min)) else None
    case Any => None
  }

  /** Collapse every ranged field to one value, a range to its minimum. */
  function Fixate(c: Caps): Option<Caps>
    decreases c, 1
  {
    match c
    case CompressedVideo(codec, width, height, framerate, col, al) =>
      var w, h, r := FixateDim(width), FixateDim(height), FixateRate(framerate);
      if w.Some? && h.Some? && r.Some?
      then Some(CompressedVideo(codec, w.value, h.value, r.value, col, al)) else None
    case RawVideo(format, width, height, framerate, il, col) =>
      var w, h, r := FixateDim(width), FixateDim(height), FixateRate(framerate);
      if w.Some? && h.Some? && r.Some?
      then Some(RawVideo(format, w.value, h.value, r.value, il, col)) else None
    case Audio(format, channels, rate, layout) =>
      if IsPcm(format) && rate == ANY_SAMPLE_RATE then None
      else if IsPcm(format) && channels == ANY_CHANNELS
      then Some(Audio(format, FIXATE_CHANNELS_PLACEHOLDER, rate, layout))
      else Some(c)
    case Batch(streams) =>
      (match FixateAll(streams)
       case Some(s) => Some(Batch(s))
       case None => None)
    case _ => Some(c)
  }

  function FixateAll(s: seq<Caps>): (r: Option<seq<Caps>>)
    ensures r.Some? ==> |r.value| == |s|
    decreases s, 0
  {
    if s == [] then Some([])
    else
      var head, tail := Fixate(s[0]), FixateAll(s[1..]);
      if head.Some? && tail.Some? then Some([head.value] + tail.value) else None
  }

  // ----- the field meets are a partial semilattice -----

  /** A meet with a possibly failed operand: failure absorbs. */
  function Then(o: Option<Caps>, c: Caps): Option<Caps> {
    match o
    case Some(a) => Intersect(a, c)
    case None => None
  }

  function ThenAll(o: Option<seq<Caps>>, t: seq<Caps>): Option<seq<Caps>> {
    match o
    case Some(s) => if |s| == |t| then IntersectAll(s, t) else None
    case None => None
  }

  function ThenRange(o: Option<(u32, u32)>, c: (u32, u32)): Option<(u32, u32)> {
    match o
    case Some(a) => IntersectRange(a, c)
    case None => None
  }

  lemma RangeMeet(a: (u32, u32), b: (u32, u32), c: (u32, u32))
    ensures IntersectRange(a, b) == IntersectRange(b, a)
    ensures ThenRange(IntersectRange(a, b), c) == ThenRange(IntersectRange(b, c), a)
    ensures ThenRange(IntersectRange(a, b), a) == IntersectRange(a, b)
  {
  }

  function ThenDim(o: Option<Dim>, c: Dim): Option<Dim> {
    match o
    case Some(a) => IntersectDim(a, c)
    case None => None
  }

  lemma ThenDimBounds(a: Dim, b: Dim, c: Dim)
    ensures ThenDim(IntersectDim(a, b), c)
         == match ThenRange(IntersectRange(DimBounds(a), DimBounds(b)), DimBounds(c))
            case Some(r) => Some(DimFromBounds(r))
            case None => None
  {
  }

  lemma DimSwaps(a: Dim, b: Dim)
    ensures IntersectDim(a, b) == IntersectDim(b, a)
  {
    RangeMeet(DimBounds(a), DimBounds(b), DimBounds(a));
  }

  lemma DimMeet(a: Dim, b: Dim, c: Dim)
    ensures IntersectDim(a, b) == IntersectDim(b, a)
    ensures (if IntersectDim(a, b).Some? then IntersectDim(IntersectDim(a, b).value, c) else None)
         == (if IntersectDim(b, c).Some? then IntersectDim(a, IntersectDim(b, c).value) else None)
    ensures IntersectDim(a, b).Some? ==> IntersectDim(a, IntersectDim(a, b).value) == IntersectDim(a, b)
  {
    RangeMeet(DimBounds(a), DimBounds(b), DimBounds(c));
    ThenDimBounds(a, b, c);
    ThenDimBounds(b, c, a);
    ThenDimBounds(a, b, a);
    DimSwaps(a, b);
    if IntersectDim(b, c).Some? {
      DimSwaps(a, IntersectDim(b, c).value);
    }
    if IntersectDim(a, b).Some? {
      DimSwaps(a, IntersectDim(a, b).value);
    }
  }

  function ThenRate(o: Option<Rate>, c: Rate): Option<Rate> {
    match o
    case Some(a) => IntersectRate(a, c)
    case None => None
  }

  lemma ThenRateBounds(a: Rate, b: Rate, c: Rate)
    ensures ThenRate(IntersectRate(a, b), c)
         == match ThenRange(IntersectRange(RateBounds(a), RateBounds(b)), RateBounds(c))
            case Some(r) => Some(RateFromBounds(r))
            case None => None
  {
  }

  lemma RateSwaps(a: Rate, b: Rate)
    ensures IntersectRate(a, b) == IntersectRate(b, a)
  {
    RangeMeet(RateBounds(a), RateBounds(b), RateBounds(a));
  }

  lemma RateMeet(a: Rate, b: Rate, c: Rate)
    ensures IntersectRate(a, b) == IntersectRate(b, a)
    ensures (if IntersectRate(a, b).Some? then IntersectRate(IntersectRate(a, b).value, c) else None)
         == (if IntersectRate(b, c).Some? then IntersectRate(a, IntersectRate(b, c).value) else None)
    ensures IntersectRate(a, b).Some? ==> IntersectRate(a, IntersectRate(a, b).value) == IntersectRate(a, b)
  {
    RangeMeet(RateBounds(a), RateBounds(b), RateBounds(c));
    ThenRateBounds(a, b, c);
    ThenRateBounds(b, c, a);
    ThenRateBounds(a, b, a);
    RateSwaps(a, b);
    if IntersectRate(b, c).Some? {
      RateSwaps(a, IntersectRate(b, c).value);
    }
    if IntersectRate(a, b).Some? {
      RateSwaps(a, IntersectRate(a, b).value);
    }
  }

  lemma ColorMeet(a: Colorimetry, b: Colorimetry, c: Colorimetry)
    ensures IntersectColorimetry(a, b) == IntersectColorimetry(b, a)
    ensures (if IntersectColorimetry(a, b).Some? then IntersectColorimetry(IntersectColorimetry(a, b).value, c) else None)
         == (if IntersectColorimetry(b, c).Some? then IntersectColorimetry(a, IntersectColorimetry(b, c).value) else None)
    ensures IntersectColorimetry(a, b).Some? ==>
              IntersectColorimetry(a, IntersectColorimetry(a, b).value) == IntersectColorimetry(a, b)
  {
  }

  // ----- intersect is commutative and associative, failure included -----

  lemma FlatLaws<T>(a: T, b: T, c: T, wildcard: T)
    ensures FlatMeet(a, b, wildcard) == FlatMeet(b, a, wildcard)
    ensures (if FlatMeet(a, b, wildcard).Some? then FlatMeet(FlatMeet(a, b, wildcard).value, c, wildcard) else None)
         == (if FlatMeet(b, c, wildcard).Some? then FlatMeet(a, FlatMeet(b, c, wildcard).value, wildcard) else None)
    ensures FlatMeet(a, b, wildcard).Some? ==>
              FlatMeet(a, FlatMeet(a, b, wildcard).value, wildcard) == FlatMeet(a, b, wildcard)
  {
  }

  /** The fields two videos share commute. */
  lemma VideoFieldLaws(a: Caps, b: Caps)
    requires (a.CompressedVideo? && b.CompressedVideo?) || (a.RawVideo? && b.RawVideo?)
    ensures IntersectDim(a.width, b.width) == IntersectDim(b.width, a.width)
    ensures IntersectDim(a.height, b.height) == IntersectDim(b.height, a.height)
    ensures IntersectRate(a.framerate, b.framerate) == IntersectRate(b.framerate, a.framerate)
    ensures IntersectColorimetry(a.colorimetry, b.colorimetry) == IntersectColorimetry(b.colorimetry, a.colorimetry)
  {
    DimMeet(a.width, b.width, b.width);
    DimMeet(a.height, b.height, b.height);
    RateMeet(a.framerate, b.framerate, b.framerate);
    ColorMeet(a.colorimetry, b.colorimetry, b.colorimetry);
  }

  lemma CommutesCompressed(a: Caps, b: Caps)
    requires a.CompressedVideo? && b.CompressedVideo?
    ensures IntersectCompressed(a, b) == IntersectCompressed(b, a)
  {
    VideoFieldLaws(a, b);
    FlatLaws(a.alignment, b.alignment, b.alignment, Alignment.Unspecified);
  }

  lemma CommutesRaw(a: Caps, b: Caps)
    requires a.RawVideo? && b.RawVideo?
    ensures IntersectRaw(a, b) == IntersectRaw(b, a)
  {
    VideoFieldLaws(a, b);
    FlatLaws(a.interlace, b.interlace, b.interlace, Interlace.Any);
  }

  lemma {:induction false} Commutes(a: Caps, b: Caps)
    ensures Intersect(a, b) == Intersect(b, a)
    decreases a, 1
  {
    if a.CompressedVideo? && b.CompressedVideo? {
      CommutesCompressed(a, b);
    } else if a.RawVideo? && b.RawVideo? {
      CommutesRaw(a, b);
    } else if a.Audio? && b.Audio? {
      assert IntersectAudio(a, b) == IntersectAudio(b, a);
    } else if a.Batch? && b.Batch? && |a.streams| == |b.streams| {
      CommutesAll(a.streams, b.streams);
    } else {
    }
  }

  lemma {:induction false} CommutesAll(s: seq<Caps>, t: seq<Caps>)
    requires |s| == |t|
    ensures IntersectAll(s, t) == IntersectAll(t, s)
    decreases s, 0
  {
    if s != [] {
      Commutes(s[0], t[0]);
      CommutesAll(s[1..], t[1..]);
    }
  }

  lemma AssociatesCompressed(a: Caps, b: Caps, c: Caps)
    requires a.CompressedVideo? && b.CompressedVideo? && c.CompressedVideo?
    ensures (if IntersectCompressed(a, b).Some? then IntersectCompressed(IntersectCompressed(a, b).value, c) else None)
         == (if IntersectCompressed(b, c).Some? then IntersectCompressed(a, IntersectCompressed(b, c).value) else None)
  {
    FlatLaws(a.alignment, b.alignment, c.alignment, Alignment.Unspecified);
    DimMeet(a.width, b.width, c.width);
    DimMeet(a.height, b.height, c.height);
    RateMeet(a.framerate, b.framerate, c.framerate);
    ColorMeet(a.colorimetry, b.colorimetry, c.colorimetry);
  }

  lemma AssociatesRaw(a: Caps, b: Caps, c: Caps)
    requires a.RawVideo? && b.RawVideo? && c.RawVideo?
    ensures (if IntersectRaw(a, b).Some? then IntersectRaw(IntersectRaw(a, b).value, c) else None)
         == (if IntersectRaw(b, c).Some? then IntersectRaw(a, IntersectRaw(b, c).value) else None)
  {
    FlatLaws(a.interlace, b.interlace, c.interlace, Interlace.Any);
    DimMeet(a.width, b.width, c.width);
    DimMeet(a.height, b.height, c.height);
    RateMeet(a.framerate, b.framerate, c.framerate);
    ColorMeet(a.colorimetry, b.colorimetry, c.colorimetry);
  }

  /** An overlap keeps the kind of media of both sides. */
  lemma OverlapKeepsKind(a: Caps, b: Caps)
    requires Intersect(a, b).Some?
    ensures
      var c := Intersect(a, b).value;
      && (a.CompressedVideo? <==> c.CompressedVideo?) && (b.CompressedVideo? <==> c.CompressedVideo?)
      && (a.RawVideo? <==> c.RawVideo?) && (b.RawVideo? <==> c.RawVideo?)
      && (a.Audio? <==> c.Audio?) && (b.Audio? <==> c.Audio?)
      && (a.Batch? <==> c.Batch?) && (b.Batch? <==> c.Batch?)
  {
  }

  lemma {:induction false} Associates(a: Caps, b: Caps, c: Caps)
    ensures Then(Intersect(a, b), c) == (if Intersect(b, c).Some? then Intersect(a, Intersect(b, c).value) else None)
    decreases a, 1
  {
    if Intersect(a, b).Some? {
      OverlapKeepsKind(a, b);
    }
    if Intersect(b, c).Some? {
      OverlapKeepsKind(b, c);
    }
    if a.CompressedVideo? && b.CompressedVideo? && c.CompressedVideo? {
      AssociatesCompressed(a, b, c);
    } else if a.RawVideo? && b.RawVideo? && c.RawVideo? {
      AssociatesRaw(a, b, c);
    } else if a.Audio? && b.Audio? && c.Audio? {
    } else if a.Batch? && b.Batch? && c.Batch? {
      if |a.streams| == |b.streams| == |c.streams| {
        AssociatesAll(a.streams, b.streams, c.streams);
      }
    } else {
    }
  }

  lemma {:induction false} AssociatesAll(s: seq<Caps>, t: seq<Caps>, u: seq<Caps>)
    requires |s| == |t| == |u|
    ensures ThenAll(IntersectAll(s, t), u)
         == (if IntersectAll(t, u).Some? then IntersectAll(s, IntersectAll(t, u).value) else None)
    decreases s, 0
  {
    if s != [] {
      Associates(s[0], t[0], u[0]);
      AssociatesAll(s[1..], t[1..], u[1..]);
      var st, tu := IntersectAll(s, t), IntersectAll(t, u);
      if st.Some? {
        assert st.value[1..] == IntersectAll(s[1..], t[1..]).value;
      }
      if tu.Some? {
        assert tu.value[1..] == IntersectAll(t[1..], u[1..]).value;
      }
    }
  }

  /** An overlap lies inside both sides: meeting it with a side again changes nothing. */
  lemma {:induction false} Absorbs(a: Caps, b: Caps)
    requires Intersect(a, b).Some?
    ensures Intersect(a, Intersect(a, b).value) == Intersect(a, b)
    ensures Intersect(Intersect(a, b).value, b) == Intersect(a, b)
  {
    AbsorbsLeft(a, b);
    Commutes(a, b);
    AbsorbsLeft(b, a);
    Commutes(b, Intersect(a, b).value);
  }

  lemma AbsorbsCompressed(a: Caps, b: Caps)
    requires a.CompressedVideo? && b.CompressedVideo? && IntersectCompressed(a, b).Some?
    ensures IntersectCompressed(a, IntersectCompressed(a, b).value) == IntersectCompressed(a, b)
  {
    DimMeet(a.width, b.width, b.width);
    DimMeet(a.height, b.height, b.height);
    RateMeet(a.framerate, b.framerate, b.framerate);
    ColorMeet(a.colorimetry, b.colorimetry, b.colorimetry);
    FlatLaws(a.alignment, b.alignment, b.alignment, Alignment.Unspecified);
  }

  lemma AbsorbsRaw(a: Caps, b: Caps)
    requires a.RawVideo? && b.RawVideo? && IntersectRaw(a, b).Some?
    ensures IntersectRaw(a, IntersectRaw(a, b).value) == IntersectRaw(a, b)
  {
    DimMeet(a.width, b.width, b.width);
    DimMeet(a.height, b.height, b.height);
    RateMeet(a.framerate, b.framerate, b.framerate);
    ColorMeet(a.colorimetry, b.colorimetry, b.colorimetry);
    FlatLaws(a.interlace, b.interlace, b.interlace, Interlace.Any);
  }

  lemma {:induction false} AbsorbsLeft(a: Caps, b: Caps)
    requires Intersect(a, b).Some?
    ensures Intersect(a, Intersect(a, b).value) == Intersect(a, b)
    decreases a, 1
  {
    if a.CompressedVideo? {
      AbsorbsCompressed(a, b);
    } else if a.RawVideo? {
      AbsorbsRaw(a, b);
    } else if a.Audio? {
    } else if a.Batch? {
      AbsorbsAll(a.streams, b.streams);
    } else {
    }
  }

  lemma {:induction false} AbsorbsAll(s: seq<Caps>, t: seq<Caps>)
    requires |s| == |t| && IntersectAll(s, t).Some?
    ensures IntersectAll(s, IntersectAll(s, t).value) == IntersectAll(s, t)
    decreases s, 0
  {
    if s != [] {
      AbsorbsLeft(s[0], t[0]);
      AbsorbsAll(s[1..], t[1..]);
      assert IntersectAll(s, t).value[1..] == IntersectAll(s[1..], t[1..]).value;
    }
  }

  // ----- fixate picks one value inside -----

  /** A fixation is fixed, and lies inside what was fixated. */
  lemma {:induction false} FixationIsInside(c: Caps)
    requires Fixate(c).Some?
    ensures IsFixed(Fixate(c).value)
    ensures Intersect(c, Fixate(c).value) == Some(Fixate(c).value)
    decreases c, 1
  {
    match c
    case Batch(s) => FixationsAreInside(s);
    case _ =>
  }

  lemma {:induction false} FixationsAreInside(s: seq<Caps>)
    requires FixateAll(s).Some?
    ensures forall i :: 0 <= i < |s| ==> IsFixed(FixateAll(s).value[i])
    ensures IntersectAll(s, FixateAll(s).value) == FixateAll(s)
    decreases s, 0
  {
    if s != [] {
      FixationIsInside(s[0]);
      FixationsAreInside(s[1..]);
      var f := FixateAll(s).value;
      assert f[1..] == FixateAll(s[1..]).value;
      forall i | 0 <= i < |s| ensures IsFixed(f[i]) {
        if i > 0 {
          assert f[i] == f[1..][i - 1];
        }
      }
    }
  }

  /** Nothing fixed is left for `fixate` to change, and a fixed caps always fixates. */
  lemma {:induction false} FixedFixatesToItself(c: Caps)
    ensures IsFixed(c) <==> Fixate(c) == Some(c)
    decreases c, 1
  {
    match c
    case Batch(s) => FixedFixatesAll(s);
    case _ =>
  }

  lemma {:induction false} FixedFixatesAll(s: seq<Caps>)
    ensures (forall i :: 0 <= i < |s| ==> IsFixed(s[i])) <==> FixateAll(s) == Some(s)
    decreases s, 0
  {
    if s != [] {
      FixedFixatesToItself(s[0]);
      FixedFixatesAll(s[1..]);
      assert s == [s[0]] + s[1..];
      assert forall i :: 0 < i < |s| ==> s[i] == s[1..][i - 1];
      if FixateAll(s) == Some(s) {
        assert FixateAll(s).value[0] == Fixate(s[0]).value;
        assert FixateAll(s).value[1..] == FixateAll(s[1..]).value;
      }
      if FixateAll(s[1..]) == Some(s[1..]) && IsFixed(s[0]) {
        forall i | 0 <= i < |s| ensures IsFixed(s[i]) {
        }
      }
      if forall i :: 0 <= i < |s| ==> IsFixed(s[i]) {
        forall i | 0 <= i < |s[1..]| ensures IsFixed(s[1..][i]) {
          assert s[1..][i] == s[i + 1];
        }
      }
    }
  }

  // ----- fixating toward a preference -----

  function NearestDim(d: Dim, preferred: Dim): Dim {
    if d.Range? && preferred.Fixed? && d.min <= d.max
    then Dim.Fixed(if preferred.v < d.min then d.min else if preferred.v > d.max then d.max else preferred.v)
    else d
  }

  function NearestRate(r: Rate, preferred: Rate): Rate {
    if r.Range? && preferred.Fixed? && r.minQ16 <= r.maxQ16
    then Rate.Fixed(if preferred.q16 < r.minQ16 then r.minQ16
                    else if preferred.q16 > r.maxQ16 then r.maxQ16 else preferred.q16)
    else r
  }

  predicate HasDims(c: Caps) {
    c.CompressedVideo? || c.RawVideo?
  }

  function FixateToward(c: Caps, preferred: Caps): Option<Caps> {
    if HasDims(c) && HasDims(preferred) then
      Fixate(c.(width := NearestDim(c.width, preferred.width),
                height := NearestDim(c.height, preferred.height),
                framerate := NearestRate(c.framerate, preferred.framerate)))
    else Fixate(c)
  }

  function Distance(a: int, b: int): nat {
    if a <= b then b - a else a - b
  }

  /** `v` is within the bounds, and no value within them is nearer to `p`. */
  ghost predicate NearestAllowed(bounds: (u32, u32), v: u32, p: u32) {
    && bounds.0 <= v <= bounds.1
    && forall o: u32 :: bounds.0 <= o <= bounds.1 ==> Distance(v, p) <= Distance(o, p)
  }

  lemma DimToward(d: Dim, preferred: Dim)
    ensures
      var f := FixateDim(NearestDim(d, preferred));
      && (f.Some? <==> FixateDim(d).Some?)
      && (f.Some? ==> f.value.Fixed? && IntersectDim(d, f.value) == Some(f.value))
      && (f.Some? && preferred.Fixed? ==> NearestAllowed(DimBounds(d), f.value.v, preferred.v))
  {
  }

  lemma RateToward(r: Rate, preferred: Rate)
    ensures
      var f := FixateRate(NearestRate(r, preferred));
      && (f.Some? <==> FixateRate(r).Some?)
      && (f.Some? ==> f.value.Fixed? && IntersectRate(r, f.value) == Some(f.value))
      && (f.Some? && preferred.Fixed? ==> NearestAllowed(RateBounds(r), f.value.q16, preferred.q16))
  {
  }

  lemma TowardOfVideo(c: Caps, preferred: Caps)
    requires HasDims(c) && HasDims(preferred)
    ensures
      var w, h := FixateDim(NearestDim(c.width, preferred.width)), FixateDim(NearestDim(c.height, preferred.height));
      var r := FixateRate(NearestRate(c.framerate, preferred.framerate));
      FixateToward(c, preferred)
      == if w.Some? && h.Some? && r.Some?
         then Some(c.(width := w.value, height := h.value, framerate := r.value)) else None
  {
  }

  /** A preference changes which value is picked, never whether one can be: the result
      is fixed, inside the caps, and nearest to a preferred width, height and frame rate. */
  lemma FixatesTowardNearest(c: Caps, preferred: Caps)
    requires HasDims(c) && HasDims(preferred)
    ensures FixateToward(c, preferred).Some? <==> Fixate(c).Some?
    ensures FixateToward(c, preferred).Some? ==>
              IsFixed(FixateToward(c, preferred).value)
              && Intersect(c, FixateToward(c, preferred).value) == Some(FixateToward(c, preferred).value)
    ensures FixateToward(c, preferred).Some? && preferred.width.Fixed? ==>
              NearestAllowed(DimBounds(c.width), FixateToward(c, preferred).value.width.v, preferred.width.v)
    ensures FixateToward(c, preferred).Some? && preferred.height.Fixed? ==>
              NearestAllowed(DimBounds(c.height), FixateToward(c, preferred).value.height.v, preferred.height.v)
    ensures FixateToward(c, preferred).Some? && preferred.framerate.Fixed? ==>
              NearestAllowed(RateBounds(c.framerate), FixateToward(c, preferred).value.framerate.q16, preferred.framerate.q16)
  {
    DimToward(c.width, preferred.width);
    DimToward(c.height, preferred.height);
    RateToward(c.framerate, preferred.framerate);
    TowardOfVideo(c, preferred);
    FlatIdempotent(c.colorimetry);
    if FixateToward(c, preferred).Some? {
      var f := FixateToward(c, preferred).value;
      if c.CompressedVideo? {
        assert IntersectCompressed(c, f) == Some(f);
      } else {
        assert IntersectRaw(c, f) == Some(f);
      }
    }
  }

  lemma FlatIdempotent(c: Colorimetry)
    ensures IntersectColorimetry(c, c) == Some(c)
  {
  }
}
