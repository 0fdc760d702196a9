/** Caps as GStreamer caps strings. */
module CapsPrinter {
  import opened Options
  import opened Integers
  import opened Strings
  import opened Caps

  /** A caps string is a media type and `key=value` fields, separated by commas. */
  function Commas(parts: seq<string>): string
    requires parts != []
  {
    if |parts| == 1 then parts[0] else parts[0] + "," + Commas(parts[1..])
  }

  function FieldText(f: (string, string)): string {
    f.0 + "=" + f.1
  }

  function FieldTexts(fs: seq<(string, string)>): (r: seq<string>)
    ensures |r| == |fs|
  {
    if fs == [] then [] else [FieldText(fs[0])] + FieldTexts(fs[1..])
  }

  /** A field printed only when it has a value. */
  function Field(key: string, value: Option<string>): seq<(string, string)> {
    if value.Some? then [(key, value.value)] else []
  }

  // ----- field values -----

  function DimText(d: Dim): Option<string> {
    match d
    case Any => None
    case Fixed(v) => Some(Decimal(v))
    case Range(min, max) => Some("[" + (Decimal(min) + "," + Decimal(max)) + "]")
  }

  /** A whole rate prints as `fps/1`, any other as the exact `q16/65536`. */
  function Q16Fraction(q16: u32): string {
    if q16 % 65536 == 0 then Decimal(q16 / 65536) + "/" + "1" else Decimal(q16) + "/" + "65536"
  }

  function RateText(r: Rate): Option<string> {
    match r
    case Any => None
    case Fixed(q) => Some(Q16Fraction(q))
    case Range(min, max) => Some("[" + (Q16Fraction(min) + "," + Q16Fraction(max)) + "]")
  }

  const BT709: Colorimetry := Colorimetry(Limited, Matrix.Bt709, Transfer.Bt709, Primaries.Bt709)
  const BT601: Colorimetry := Colorimetry(Limited, Matrix.Bt601, Transfer.Bt601, Smpte170m)
  const BT2020: Colorimetry := Colorimetry(Limited, Bt2020Ncl, Transfer.Bt2020, Primaries.Bt2020)
  const BT2100_PQ: Colorimetry := Colorimetry(Limited, Bt2020Ncl, Pq, Primaries.Bt2020)
  const BT2100_HLG: Colorimetry := Colorimetry(Limited, Bt2020Ncl, Hlg, Primaries.Bt2020)
  const SRGB: Colorimetry := Colorimetry(Full, Identity, Srgb, Primaries.Bt709)

  function RangeNum(v: ColorRange): nat {
    match v
    case Unknown => 0
    case Full => 1
    case Limited => 2
  }

  function MatrixNum(v: Matrix): nat {
    match v
    case Unknown => 0
    case Identity => 1
    case Bt709 => 3
    case Bt601 => 4
    case Bt2020Ncl => 6
  }

  function TransferNum(v: Transfer): nat {
    match v
    case Unknown => 0
    case Bt709 => 5
    case Srgb => 7
    case Bt2020 => 11
    case Pq => 14
    case Hlg => 15
    case Bt601 => 16
  }

  function PrimariesNum(v: Primaries): nat {
    match v
    case Unknown => 0
    case Bt709 => 1
    case Bt470bg => 3
    case Smpte170m => 4
    case Bt2020 => 7
  }

  function ColorimetryText(c: Colorimetry): Option<string> {
    if c == UNKNOWN_COLORIMETRY then None
    else if c == BT709 then Some("bt709")
    else if c == BT601 then Some("bt601")
    else if c == BT2020 then Some("bt2020")
    else if c == BT2100_PQ then Some("bt2100-pq")
    else if c == BT2100_HLG then Some("bt2100-hlg")
    else if c == SRGB then Some("sRGB")
    else Some(Decimal(RangeNum(c.range)) + ":" + (Decimal(MatrixNum(c.matrix)) + ":"
              + (Decimal(TransferNum(c.transfer)) + ":" + Decimal(PrimariesNum(c.primaries)))))
  }

  function InterlaceText(i: Interlace): Option<string> {
    if i.Interleaved? then Some("interleaved") else None
  }

  function AlignmentText(a: Alignment): Option<string> {
    match a
    case Unspecified => None
    case AccessUnit => Some("au")
    case Nal => Some("nal")
  }

  /** The layout's speakers as gst mask bits: the two side speakers sit one bit higher
      than in the layout's own order. */
  function GstMask(l: ChannelLayout): nat {
    (if l.fl then 0x1 else 0) + (if l.fr then 0x2 else 0) + (if l.fc then 0x4 else 0) + (if l.lfe then 0x8 else 0)
    + (if l.bl then 0x10 else 0) + (if l.br then 0x20 else 0) + (if l.flc then 0x40 else 0)
    + (if l.frc then 0x80 else 0) + (if l.bc then 0x100 else 0)
    + (if l.sl then 0x400 else 0) + (if l.sr then 0x800 else 0)
  }

  function MaskText(l: ChannelLayout): Option<string> {
    if l == UNSPECIFIED_LAYOUT then None else Some("(bitmask)0x" + Hex(GstMask(l), 16))
  }

  function ChannelsText(n: u8): Option<string> {
    if n == 0 then None else Some(Decimal(n))
  }

  function SampleRateText(n: u32): Option<string> {
    if n == ANY_SAMPLE_RATE then None else Some(Decimal(n))
  }

  // ----- names -----

  function RawFormatName(f: RawVideoFormat): string {
    match f
    case Nv12 => "NV12"
    case I420 => "I420"
    case Rgba8 => "RGBA"
    case Bgra8 => "BGRA"
    case Rgb8 => "RGB"
    case Yuyv => "YUY2"
    case I420p10 => "I420_10LE"
    case I420p12 => "I420_12LE"
    case I422 => "Y42B"
    case I422p10 => "I422_10LE"
    case I422p12 => "I422_12LE"
    case I444 => "Y444"
    case I444p10 => "Y444_10LE"
    case I444p12 => "Y444_12LE"
    case P010 => "P010_10LE"
    case A420 => "A420"
    case Uyvy => "UYVY"
    case A444p12 => "A444_12LE"
    case V210 => "v210"
    case R210 => "r210"
    case Gbr10Le => "GBR_10LE"
    case Gray8 => "GRAY8"
    case Bgr8 => "BGR"
    case Bgrx8 => "BGRx"
    case Argb8 => "ARGB"
  }

  function ProResName(v: ProResVariant): string {
    match v
    case Proxy => "proxy"
    case Lt => "lt"
    case Standard => "standard"
    case Hq => "hq"
    case FourFourFourFour => "4444"
    case FourFourFourFourXq => "4444xq"
  }

  function PcmName(f: AudioFormat): Option<string> {
    match f
    case PcmS16Le => Some("S16LE")
    case PcmF32Le => Some("F32LE")
    case PcmS24Le => Some("S24LE")
    case PcmS32Le => Some("S32LE")
    case PcmU8 => Some("U8")
    case _ => None
  }

  /** The four tag bytes, least significant first. */
  function TagBytes(tag: u32): (b: seq<nat>)
    ensures |b| == 4 && forall i :: 0 <= i < 4 ==> b[i] < 256
  {
    [tag % 256, tag / 256 % 256, tag / 65536 % 256, tag / 16777216]
  }

  /** `char::from` on each byte: the byte is the code point. */
  function TagChars(tag: u32): (s: string)
    ensures |s| == 4
  {
    var b := TagBytes(tag);
    [b[0] as char, b[1] as char, b[2] as char, b[3] as char]
  }

  const MOV_PREFIX: string := "x-gst-fourcc-"

  /** The media type of a codec known only by its container's tag, and the field a RIFF
      tag rides in. */
  function TaggedMedia(kind: string, tag: CodecTag): string {
    match tag.namespace
    case Riff => kind + "/" + "x-avi-unknown"
    case Mov => kind + "/" + (MOV_PREFIX + TagChars(tag.tag))
  }

  function TaggedField(field: string, tag: CodecTag): seq<(string, string)> {
    if tag.namespace.Riff? then [(field, Decimal(tag.tag))] else []
  }

  function CodecMedia(c: VideoCodec): string {
    match c
    case H264 => "video/x-h264"
    case H265 => "video/x-h265"
    case Av1 => "video/x-av1"
    case Vp8 => "video/x-vp8"
    case Vp9 => "video/x-vp9"
    case Mjpeg => "image/jpeg"
    case Png => "image/png"
    case WebP => "image/webp"
    case Mpeg4Part2 => "video/mpeg"
    case Mpeg2 => "video/mpeg"
    case JpegXs => "image/x-jxsc"
    case SorensonH263 => "video/x-flash-video"
    case Vp6(alpha) => if alpha then "video/x-vp6-alpha" else "video/x-vp6-flash"
    case Vp6Plain => "video/x-vp6"
    case Theora => "video/x-theora"
    case ProRes(_) => "video/x-prores"
    case DnxHd => "video/x-dnxhd"
    case Vc1 => "video/x-wmv"
    case Pnm => "image/x-portable-anymap"
    case Tagged(tag) => TaggedMedia("video", tag)
  }

  function CodecFields(c: VideoCodec): seq<(string, string)> {
    match c
    case ProRes(v) => [("variant", ProResName(v))]
    case Tagged(tag) => TaggedField("fourcc", tag)
    case _ => []
  }

  function AudioMedia(f: AudioFormat): string {
    match f
    case Aac => "audio/mpeg"
    case Opus => "audio/x-opus"
    case Mp2 => "audio/mpeg"
    case Mp3 => "audio/mpeg"
    case Speex => "audio/x-speex"
    case Ac3 => "audio/x-ac3"
    case Flac => "audio/x-flac"
    case Vorbis => "audio/x-vorbis"
    case Mulaw => "audio/x-mulaw"
    case Alaw => "audio/x-alaw"
    case ImaAdpcm => "audio/x-adpcm"
    case Tagged(tag) => TaggedMedia("audio", tag)
    case _ => "audio/x-raw"
  }

  function AudioFormatFields(f: AudioFormat): seq<(string, string)> {
    match f
    case Tagged(tag) => TaggedField("codec_id", tag)
    case _ => Field("format", PcmName(f))
  }

  function EncodingMedia(e: ByteStreamEncoding): string {
    match e
    case MpegTs => "video/mpegts"
    case Matroska => "video/x-matroska"
    case Ogg => "application/ogg"
    case Flv => "video/x-flv"
    case IsoBmff => "video/quicktime"
    case Mp4 => "video/quicktime"
    case Ivf => "video/x-ivf"
    case MpegPs => "video/mpeg"
    case Wav => "audio/x-wav"
    case Aiff => "audio/x-aiff"
    case Au => "audio/x-au"
    case Avi => "video/x-msvideo"
    case Y4m => "application/x-yuv4mpeg"
    case Multipart => "multipart/x-mixed-replace"
    case Raw => "application/octet-stream"
    case Rtp => "application/x-rtp"
    case Srtp => "application/x-srtp"
    case Rtcp => "application/x-rtcp"
    case Srtcp => "application/x-srtcp"
    case Dtls => "application/x-dtls"
    case Iv8 => "video/x-iv8"
  }

  function TextMedia(f: TextFormat): string {
    match f
    case Utf8 => "text/x-raw"
    case PangoMarkup => "text/x-raw"
    case Srt => "application/x-subtitle"
    case WebVtt => "application/x-subtitle-vtt"
    case Ssa => "application/x-ssa"
    case Ttml => "application/ttml+xml"
    case Teletext => "private/teletext"
  }

  function TextFields(f: TextFormat): seq<(string, string)> {
    match f
    case Utf8 => [("format", "utf8")]
    case PangoMarkup => [("format", "pango-markup")]
    case _ => []
  }

  function CcMedia(f: ClosedCaptionFormat): string {
    match f
    case Cea708 => "closedcaption/x-cea-708"
    case Cea708Cdp => "closedcaption/x-cea-708"
    case _ => "closedcaption/x-cea-608"
  }

  function CcFormatName(f: ClosedCaptionFormat): string {
    match f
    case Cea608 => "cc_data"
    case Cea608Raw => "raw"
    case Cea608S334 => "s334-1a"
    case Cea708 => "cc_data"
    case Cea708Cdp => "cdp"
  }

  function SubPictureMedia(f: SubPictureFormat): string {
    match f
    case VobSub => "subpicture/x-dvd"
    case DvbSub => "subpicture/x-dvb"
    case Pgs => "subpicture/x-pgs"
  }

  function DTypeName(d: TensorDType): string {
    match d
    case F16 => "F16"
    case F32 => "F32"
    case I8 => "I8"
    case U8 => "U8"
  }

  function ShapeText(dims: seq<u32>): string {
    if dims == [] then "" else if |dims| == 1 then Decimal(dims[0]) else Decimal(dims[0]) + ", " + ShapeText(dims[1..])
  }

  const BATCH_MEDIA: string := "multistream/x-analytics-batch"

  // ----- caps -----

  function Media(c: Caps): string {
    match c
    case RawVideo(_, _, _, _, _, _) => "video/x-raw"
    case CompressedVideo(codec, _, _, _, _, _) => CodecMedia(codec)
    case Audio(f, _, _, _) => AudioMedia(f)
    case Tensor(_, _, _) => "tensor/x-raw"
    case ByteStream(e) => EncodingMedia(e)
    case Text(f) => TextMedia(f)
    case Klv => "meta/x-klv"
    case OnvifMetadata => "application/x-onvif-metadata"
    case ClosedCaption(f) => CcMedia(f)
    case SubPicture(f) => SubPictureMedia(f)
    case Batch(_) => BATCH_MEDIA
  }

  /** The fields of a caps that is not a batch. */
  function LeafFields(c: Caps): seq<(string, string)> {
    match c
    case RawVideo(f, w, h, r, i, col) =>
      [("format", RawFormatName(f))] + Field("width", DimText(w)) + Field("height", DimText(h))
      + Field("framerate", RateText(r)) + Field("interlace-mode", InterlaceText(i))
      + Field("colorimetry", ColorimetryText(col))
    case CompressedVideo(codec, w, h, r, col, a) =>
      CodecFields(codec) + Field("width", DimText(w)) + Field("height", DimText(h))
      + Field("framerate", RateText(r)) + Field("colorimetry", ColorimetryText(col))
      + Field("alignment", AlignmentText(a))
    case Audio(f, ch, sr, l) =>
      AudioFormatFields(f) + Field("channels", ChannelsText(ch)) + Field("rate", SampleRateText(sr))
      + Field("channel-mask", MaskText(l))
    case Tensor(d, shape, l) =>
      [("dtype", DTypeName(d)), ("layout", if l.Nchw? then "Nchw" else "Nhwc"),
       ("shape", "TensorShape([" + ShapeText(shape) + "])")]
    case Text(f) => TextFields(f)
    case ClosedCaption(f) => [("format", CcFormatName(f))]
    case _ => []
  }

  /** `Caps::to_gst_string`. */
  function Print(c: Caps): string
    decreases c, 1
  {
    if c.Batch? then
      BATCH_MEDIA + "," + ("streams" + "=" + ("<" + PrintStreams(c.streams) + ">"))
    else Commas([Media(c)] + FieldTexts(LeafFields(c)))
  }

  function Quote(s: string): string {
    "\"" + s + "\""
  }

  function PrintStreams(s: seq<Caps>): string
    decreases s, 0
  {
    if s == [] then ""
    else if |s| == 1 then Quote(Print(s[0]))
    else Quote(Print(s[0])) + "," + PrintStreams(s[1..])
  }
}
