/** The name tables of the caps text form, read against each other: which printed name
    the parser takes for what. */
module CapsNames {
  import opened Options
  import opened Strings
  import opened Caps
  import opened CapsPrinter
  import opened CapsParser

  /** Printable, and no delimiter of the text form. */
  predicate PlainChar(c: char) {
    '!' <= c <= '~' && c != '"' && c != ',' && c != '[' && c != ']' && c != '{' && c != '}' && c != '<' && c != '>'
  }

  predicate Plain(s: string) {
    forall i :: 0 <= i < |s| ==> PlainChar(s[i])
  }

  predicate At(s: string, i: nat, c: char) {
    i < |s| && s[i] == c
  }

  // ----- pixel formats -----

  function LowerName(f: RawVideoFormat): string {
    match f
    case Nv12 => "nv12"
    case I420 => "i420"
    case Rgba8 => "rgba"
    case Bgra8 => "bgra"
    case Rgb8 => "rgb"
    case Yuyv => "yuy2"
    case I420p10 => "i420_10le"
    case I420p12 => "i420_12le"
    case I422 => "y42b"
    case I422p10 => "i422_10le"
    case I422p12 => "i422_12le"
    case I444 => "y444"
    case I444p10 => "y444_10le"
    case I444p12 => "y444_12le"
    case P010 => "p010_10le"
    case A420 => "a420"
    case Uyvy => "uyvy"
    case A444p12 => "a444_12le"
    case V210 => "v210"
    case R210 => "r210"
    case Gbr10Le => "gbr_10le"
    case Gray8 => "gray8"
    case Bgr8 => "bgr"
    case Bgrx8 => "bgrx"
    case Argb8 => "argb"
  }

  predicate ShortName(f: RawVideoFormat) {
    f.Nv12? || f.I420? || f.Rgba8? || f.Bgra8? || f.Rgb8? || f.Yuyv? || f.I422? || f.I444? || f.A420? || f.Uyvy?
    || f.V210? || f.R210? || f.Gray8? || f.Bgr8? || f.Bgrx8? || f.Argb8?
  }

  lemma ShortNameLowers(f: RawVideoFormat)
    requires ShortName(f)
    ensures Lower(RawFormatName(f)) == LowerName(f)
  {
  }

  lemma LongNameLowers(f: RawVideoFormat)
    requires !ShortName(f)
    ensures Lower(RawFormatName(f)) == LowerName(f)
  {
  }

  lemma ShortNamePlain(f: RawVideoFormat)
    requires ShortName(f)
    ensures Plain(RawFormatName(f)) && RawFormatName(f) != []
  {
  }

  lemma LongNamePlain(f: RawVideoFormat)
    requires !ShortName(f)
    ensures Plain(RawFormatName(f)) && RawFormatName(f) != []
  {
  }

  lemma RawNameLowers(f: RawVideoFormat)
    ensures Lower(RawFormatName(f)) == LowerName(f)
    ensures Plain(RawFormatName(f)) && RawFormatName(f) != []
  {
    if ShortName(f) {
      ShortNameLowers(f);
      ShortNamePlain(f);
    } else {
      LongNameLowers(f);
      LongNamePlain(f);
    }
  }

  lemma RgbNameReads(f: RawVideoFormat)
    requires f.Rgba8? || f.Bgra8? || f.Rgb8? || f.R210? || f.Gray8?
    ensures RawFormatNamed(LowerName(f)) == Some(f)
  {
    match f
    case Rgba8 => case Bgra8 => case Rgb8 => case R210 => case Gray8 =>
  }

  lemma BgrNameReads(f: RawVideoFormat)
    requires f.Bgr8? || f.Bgrx8?
    ensures RawFormatNamed(LowerName(f)) == Some(f)
  {
    match f
    case Bgr8 => case Bgrx8 =>
  }

  lemma ArgbNameReads()
    ensures RawFormatNamed("argb") == Some(Argb8)
  {
  }

  lemma YuvNameReads(f: RawVideoFormat)
    requires f.Nv12? || f.I420? || f.Yuyv? || f.I422? || f.I444? || f.A420? || f.Uyvy? || f.V210?
    ensures RawFormatNamed(LowerName(f)) == Some(f)
  {
    match f
    case Nv12 => case I420 => case Yuyv => case I422 => case I444 => case A420 => case Uyvy => case V210 =>
  }

  lemma LongNameReads(f: RawVideoFormat)
    requires !ShortName(f)
    ensures RawFormatNamed(LowerName(f)) == Some(f)
  {
  }

  /** The first spelling the parser knows of a pixel format is the one the printer uses. */
  lemma RawFormatReads(f: RawVideoFormat)
    ensures ParseRawFormat(RawFormatName(f)) == Some(f)
  {
    RawNameLowers(f);
    if !ShortName(f) {
      LongNameReads(f);
    } else if f.Nv12? || f.I420? || f.Yuyv? || f.I422? || f.I444? || f.A420? || f.Uyvy? || f.V210? {
      YuvNameReads(f);
    } else if f.Bgr8? || f.Bgrx8? {
      BgrNameReads(f);
    } else if f.Argb8? {
      ArgbNameReads();
    } else {
      RgbNameReads(f);
    }
  }

  // ----- other names -----

  lemma ProResReads(v: ProResVariant)
    ensures ParseProRes(ProResName(v)) == Some(v)
    ensures Plain(ProResName(v)) && ProResName(v) != []
  {
  }

  lemma PcmNames(f: AudioFormat)
    requires IsPcm(f)
    ensures PcmName(f).Some? && Plain(PcmName(f).value) && PcmName(f).value != []
  {
  }

  lemma PcmReads(f: AudioFormat)
    requires IsPcm(f)
    ensures PcmName(f).Some? && ParseAudioFormat(PcmName(f).value) == Some(f)
  {
    PcmNames(f);
    TrimOfTrimmed(PcmName(f).value);
    match f
    case PcmS16Le =>
    case PcmF32Le => DifferAt("S16LE", "F32LE", 0);
    case PcmS24Le => DifferAt("S16LE", "S24LE", 1); DifferAt("F32LE", "S24LE", 0);
    case PcmS32Le => DifferAt("S16LE", "S32LE", 1); DifferAt("F32LE", "S32LE", 0); DifferAt("S24LE", "S32LE", 1);
    case PcmU8 =>
  }

  lemma DifferAt(a: string, b: string, i: nat)
    requires i < |a| && i < |b| && LowerChar(a[i]) != LowerChar(b[i])
    ensures !EqIgnoreCase(a, b)
  {
    assert Lower(a)[i] == LowerChar(a[i]) && Lower(b)[i] == LowerChar(b[i]);
  }

  lemma TextFormatReads()
    ensures ParseTextFormat("utf8") == Some(TextFormat.Utf8) && ParseTextFormat("pango-markup") == Some(PangoMarkup)
  {
    assert Lower("utf8") == "utf8";
    assert Lower("pango-markup") == "pango-markup";
  }

  // ----- media types that carry no tag -----

  predicate FirstSlash(media: string, i: nat) {
    At(media, i, '/') && forall j :: 0 <= j < i ==> media[j] != '/'
  }

  /** A media type that is told apart from the tagged ones by a few characters after its
      slash. */
  predicate Untagged(media: string, i: nat) {
    && FirstSlash(media, i)
    && !(At(media, i + 1, 'x') && At(media, i + 3, 'g'))
    && !(At(media, i + 4, 'v') && At(media, i + 5, 'i'))
  }

  lemma {:induction false} SplitAtFirst(s: string, i: nat, c: char)
    requires At(s, i, c) && forall j :: 0 <= j < i ==> s[j] != c
    ensures SplitOnce(s, c) == Some((s[..i], s[i + 1..]))
  {
    assert s == s[..i] + [c] + s[i + 1..];
    SplitOnceAt(s[..i], c, s[i + 1..]);
  }

  lemma UntaggedHasNoCodec(media: string, i: nat, fs: Fields)
    requires Untagged(media, i)
    ensures TaggedCodecOf(media, fs) == None
  {
    SplitAtFirst(media, i, '/');
    MovPrefixShows(media[i + 1..]);
    RiffSubtypeShows(media[i + 1..]);
  }

  lemma MovPrefixShows(sub: string)
    ensures MOV_PREFIX <= sub ==> At(sub, 0, 'x') && At(sub, 2, 'g')
  {
    if MOV_PREFIX <= sub {
      assert sub[0] == MOV_PREFIX[0] && sub[2] == MOV_PREFIX[2];
    }
  }

  lemma RiffSubtypeShows(sub: string)
    ensures sub == "x-avi-unknown" ==> At(sub, 3, 'v') && At(sub, 4, 'i')
  {
  }

  // ----- media types -----

  lemma CodecReads(c: VideoCodec)
    requires !c.Mpeg2? && !c.Mpeg4Part2? && !c.JpegXs? && !c.Tagged? && !c.ProRes?
    ensures CodecOfMedia(CodecMedia(c)) == Some(c)
  {
  }

  lemma CodecIsNotListed(c: VideoCodec)
    requires !c.Tagged? && !c.ProRes?
    ensures !IsListed(CodecMedia(c))
  {
  }

  lemma AudioReads(f: AudioFormat)
    requires !IsPcm(f) && !f.Tagged?
    ensures AudioOfMedia(AudioMedia(f)) == Some(if f.Mp2? || f.Mp3? then Aac else f)
    ensures !IsListed(AudioMedia(f))
  {
  }

  lemma CodecHeads(media: string)
    ensures CodecOfMedia(media).Some? ==> At(media, 0, 'v') || At(media, 0, 'i')
  {
  }

  lemma CodecIsNoMov(media: string)
    ensures CodecOfMedia(media).Some? ==> !(At(media, 6, 'x') && At(media, 8, 'g'))
  {
  }

  lemma OtherHeads(media: string)
    ensures AudioOfMedia(media).Some? ==> At(media, 0, 'a') && At(media, 1, 'u') && !At(media, 8, 'g')
    ensures VideoContainerOfMedia(media).Some? ==> At(media, 0, 'v') && !(At(media, 6, 'x') && At(media, 8, 'g'))
    ensures AudioContainerOfMedia(media).Some? ==> At(media, 0, 'a') && At(media, 1, 'u') && !At(media, 8, 'g')
    ensures IsListed(media) ==> At(media, 0, 'v') || At(media, 0, 'a') || At(media, 0, 't')
    ensures IsListed(media) ==> !At(media, 1, 'p') && !At(media, 8, 'g')
  {
  }

  lemma StreamHeads(media: string)
    ensures StreamOfMedia(media).Some? ==> (At(media, 0, 'a') && At(media, 1, 'p')) || At(media, 0, 'm')
  {
  }

  lemma FieldlessHeads(media: string)
    ensures FieldlessOfMedia(media).Some? ==>
              (At(media, 0, 'a') && At(media, 1, 'p')) || At(media, 0, 'p') || At(media, 0, 'm') || At(media, 0, 's')
  {
  }

  predicate InVideoContainers(e: ByteStreamEncoding) {
    e.MpegTs? || e.Matroska? || e.Flv? || e.IsoBmff? || e.Mp4? || e.Ivf? || e.MpegPs? || e.Avi? || e.Iv8?
  }

  predicate InAudioContainers(e: ByteStreamEncoding) {
    e.Wav? || e.Aiff? || e.Au?
  }

  lemma VideoContainerReads(e: ByteStreamEncoding)
    requires InVideoContainers(e)
    ensures VideoContainerOfMedia(EncodingMedia(e))
         == if e.MpegPs? then None else if e.IsoBmff? then Some(Mp4) else Some(e)
    ensures At(EncodingMedia(e), 0, 'v')
  {
  }

  lemma VideoContainerIsNoCodec(e: ByteStreamEncoding)
    requires InVideoContainers(e)
    ensures CodecOfMedia(EncodingMedia(e)) == None && !IsListed(EncodingMedia(e))
  {
  }

  lemma AudioContainerReads(e: ByteStreamEncoding)
    requires InAudioContainers(e)
    ensures AudioContainerOfMedia(EncodingMedia(e)) == Some(e) && AudioOfMedia(EncodingMedia(e)) == None
    ensures !IsListed(EncodingMedia(e)) && At(EncodingMedia(e), 0, 'a') && At(EncodingMedia(e), 1, 'u')
  {
  }

  lemma StreamReads(e: ByteStreamEncoding)
    requires !InVideoContainers(e) && !InAudioContainers(e)
    ensures StreamOfMedia(EncodingMedia(e)) == Some(e)
    ensures (At(EncodingMedia(e), 0, 'a') && At(EncodingMedia(e), 1, 'p')) || At(EncodingMedia(e), 0, 'm')
  {
  }

  /** The byte-stream types read back, with the two the printer writes ambiguously. */
  lemma EncodingReads(e: ByteStreamEncoding, fs: Fields)
    ensures UntaggedSet(EncodingMedia(e), fs)
         == if e.MpegPs? then None else if e.IsoBmff? then Some([ByteStream(Mp4)]) else Some([ByteStream(e)])
  {
    var m := EncodingMedia(e);
    CodecHeads(m);
    OtherHeads(m);
    StreamHeads(m);
    FieldlessHeads(m);
    if InVideoContainers(e) {
      VideoContainerReads(e);
      VideoContainerIsNoCodec(e);
    } else if InAudioContainers(e) {
      AudioContainerReads(e);
    } else {
      StreamReads(e);
    }
  }

  predicate Fieldless(c: Caps) {
    (c.Text? && !c.textFormat.Utf8? && !c.textFormat.PangoMarkup?) || c.Klv? || c.OnvifMetadata? || c.SubPicture?
  }

  lemma FieldlessMediaReads(c: Caps)
    requires Fieldless(c)
    ensures FieldlessOfMedia(Media(c)) == Some(c)
  {
  }

  lemma FieldlessIsNoStream(c: Caps)
    requires Fieldless(c)
    ensures StreamOfMedia(Media(c)) == None
  {
  }

  lemma FieldlessReads(c: Caps, fs: Fields)
    requires Fieldless(c)
    ensures UntaggedSet(Media(c), fs) == Some([c])
  {
    FieldlessMediaReads(c);
    FieldlessIsNoStream(c);
    FieldlessHeads(Media(c));
    CodecHeads(Media(c));
    OtherHeads(Media(c));
  }

  /** Media types the printer writes and no parser entry reads. */
  lemma UnreadMedia(media: string, fs: Fields)
    requires media == "video/mpeg" || media == "image/x-jxsc" || media == "tensor/x-raw"
          || media == "closedcaption/x-cea-608" || media == "closedcaption/x-cea-708"
    ensures UntaggedSet(media, fs) == None && media != BATCH_MEDIA
  {
    CodecHeads(media);
    OtherHeads(media);
    StreamHeads(media);
    FieldlessHeads(media);
    if At(media, 0, 'c') {
    } else {
      UnreadVideo(media);
    }
  }

  lemma UnreadVideo(media: string)
    requires media == "video/mpeg" || media == "image/x-jxsc" || media == "tensor/x-raw"
    ensures !IsListed(media) && CodecOfMedia(media) == None && VideoContainerOfMedia(media) == None
  {
  }

  // ----- every printed media type but a MOV tag is plain and told apart from tags -----

  predicate ImageCodec(c: VideoCodec) {
    c.Mjpeg? || c.Png? || c.WebP? || c.JpegXs? || c.Pnm?
  }

  predicate FlashCodec(c: VideoCodec) {
    c.SorensonH263? || c.Vp6? || c.Vp6Plain?
  }

  predicate WebCodec(c: VideoCodec) {
    c.H264? || c.H265? || c.Av1? || c.Vp8? || c.Vp9?
  }

  lemma ImageMediaPlain(c: VideoCodec)
    requires ImageCodec(c)
    ensures Plain(CodecMedia(c))
  {
    match c
    case Mjpeg => case Png => case WebP => case JpegXs => case Pnm =>
  }

  lemma FlashMediaPlain(c: VideoCodec)
    requires FlashCodec(c)
    ensures Plain(CodecMedia(c))
  {
    match c
    case SorensonH263 => case Vp6(_) => case Vp6Plain =>
  }

  lemma WebMediaPlain(c: VideoCodec)
    requires WebCodec(c)
    ensures Plain(CodecMedia(c))
  {
    match c
    case H264 => case H265 => case Av1 => case Vp8 => case Vp9 =>
  }

  lemma FileMediaPlain(c: VideoCodec)
    requires !ImageCodec(c) && !FlashCodec(c) && !WebCodec(c) && !c.Tagged?
    ensures Plain(CodecMedia(c))
  {
    match c
    case Mpeg4Part2 => case Mpeg2 => case Theora => case ProRes(_) => case DnxHd => case Vc1 =>
  }

  lemma CodecMediaPlain(c: VideoCodec)
    requires !c.Tagged?
    ensures Plain(CodecMedia(c))
  {
    if ImageCodec(c) {
      ImageMediaPlain(c);
    } else if FlashCodec(c) {
      FlashMediaPlain(c);
    } else if WebCodec(c) {
      WebMediaPlain(c);
    } else {
      FileMediaPlain(c);
    }
  }

  lemma CodecMediaUntagged(c: VideoCodec)
    requires !c.Tagged?
    ensures Untagged(CodecMedia(c), 5)
  {
  }

  lemma AudioMediaIsPlain(f: AudioFormat)
    requires !f.Tagged?
    ensures Plain(AudioMedia(f)) && Untagged(AudioMedia(f), 5)
  {
  }

  function EncodingSlash(e: ByteStreamEncoding): nat {
    if InVideoContainers(e) || InAudioContainers(e) then 5 else if e.Multipart? then 9 else 11
  }

  lemma AudioContainerPlain(e: ByteStreamEncoding)
    requires InAudioContainers(e)
    ensures Plain(EncodingMedia(e))
  {
    match e
    case Wav => case Aiff => case Au =>
  }

  lemma FilmContainerPlain(e: ByteStreamEncoding)
    requires e.MpegTs? || e.Matroska? || e.MpegPs? || e.Avi?
    ensures Plain(EncodingMedia(e))
  {
    match e
    case MpegTs => case Matroska => case MpegPs => case Avi =>
  }

  lemma ClipContainerPlain(e: ByteStreamEncoding)
    requires e.Flv? || e.IsoBmff? || e.Mp4? || e.Ivf? || e.Iv8?
    ensures Plain(EncodingMedia(e))
  {
    match e
    case Flv => case IsoBmff => case Mp4 => case Ivf => case Iv8 =>
  }

  lemma ContainerUntagged(e: ByteStreamEncoding)
    requires InVideoContainers(e) || InAudioContainers(e)
    ensures Untagged(EncodingMedia(e), 5)
  {
  }

  lemma ContainerMediaIsPlain(e: ByteStreamEncoding)
    requires InVideoContainers(e) || InAudioContainers(e)
    ensures Plain(EncodingMedia(e)) && Untagged(EncodingMedia(e), 5)
  {
    ContainerUntagged(e);
    if InAudioContainers(e) {
      AudioContainerPlain(e);
    } else if e.MpegTs? || e.Matroska? || e.MpegPs? || e.Avi? {
      FilmContainerPlain(e);
    } else {
      ClipContainerPlain(e);
    }
  }

  lemma OggStreamPlain()
    ensures Plain("application/ogg") && Plain("application/x-yuv4mpeg")
  {
  }

  lemma RawStreamPlain()
    ensures Plain("multipart/x-mixed-replace") && Plain("application/octet-stream")
  {
  }

  lemma FileStreamPlain(e: ByteStreamEncoding)
    requires e.Ogg? || e.Y4m? || e.Multipart? || e.Raw?
    ensures Plain(EncodingMedia(e))
  {
    OggStreamPlain();
    RawStreamPlain();
  }

  lemma PacketStreamPlain(e: ByteStreamEncoding)
    requires e.Rtp? || e.Srtp? || e.Rtcp? || e.Srtcp? || e.Dtls?
    ensures Plain(EncodingMedia(e))
  {
    match e
    case Rtp => case Srtp => case Rtcp => case Srtcp => case Dtls =>
  }

  lemma StreamMediaPlain(e: ByteStreamEncoding)
    requires !InVideoContainers(e) && !InAudioContainers(e)
    ensures Plain(EncodingMedia(e))
  {
    if e.Ogg? || e.Y4m? || e.Multipart? || e.Raw? {
      FileStreamPlain(e);
    } else {
      PacketStreamPlain(e);
    }
  }

  lemma StreamMediaUntagged(e: ByteStreamEncoding)
    requires !InVideoContainers(e) && !InAudioContainers(e)
    ensures Untagged(EncodingMedia(e), EncodingSlash(e))
  {
  }

  function OtherSlash(c: Caps): nat {
    match c
    case RawVideo(_, _, _, _, _, _) => 5
    case Tensor(_, _, _) => 6
    case Klv => 4
    case OnvifMetadata => 11
    case ClosedCaption(_) => 13
    case SubPicture(_) => 10
    case Text(f) => if f.Utf8? || f.PangoMarkup? then 4 else if f.Teletext? then 7 else 11
    case _ => 0
  }

  lemma SubtitleMediaPlain(f: TextFormat)
    requires f.Srt? || f.WebVtt? || f.Ssa?
    ensures Plain(TextMedia(f))
  {
    match f
    case Srt => case WebVtt => case Ssa =>
  }

  lemma OtherTextPlain(f: TextFormat)
    requires f.Utf8? || f.PangoMarkup? || f.Ttml? || f.Teletext?
    ensures Plain(TextMedia(f))
  {
    match f
    case Utf8 => case PangoMarkup => case Ttml => case Teletext =>
  }

  lemma TextMediaPlain(f: TextFormat)
    ensures Plain(TextMedia(f))
  {
    if f.Srt? || f.WebVtt? || f.Ssa? {
      SubtitleMediaPlain(f);
    } else {
      OtherTextPlain(f);
    }
  }

  lemma SubPictureMediaPlain(f: SubPictureFormat)
    ensures Plain(SubPictureMedia(f))
  {
    match f
    case VobSub => case DvbSub => case Pgs =>
  }

  lemma SingleMediaPlain()
    ensures Plain("video/x-raw") && Plain("tensor/x-raw") && Plain("meta/x-klv")
  {
  }

  lemma LongMediaPlain()
    ensures Plain("application/x-onvif-metadata") && Plain("closedcaption/x-cea-608") && Plain("closedcaption/x-cea-708")
  {
  }

  lemma TextMediaUntagged(c: Caps)
    requires c.Text?
    ensures Untagged(Media(c), OtherSlash(c))
  {
    match c.textFormat
    case Utf8 => case PangoMarkup => case Srt => case WebVtt => case Ssa => case Ttml => case Teletext =>
  }

  lemma ShortMediaUntagged()
    ensures Untagged("video/x-raw", 5) && Untagged("tensor/x-raw", 6) && Untagged("meta/x-klv", 4)
  {
  }

  lemma LongMediaUntagged()
    ensures Untagged("application/x-onvif-metadata", 11)
    ensures Untagged("closedcaption/x-cea-608", 13) && Untagged("closedcaption/x-cea-708", 13)
  {
  }

  lemma SubPictureMediaUntagged(f: SubPictureFormat)
    ensures Untagged(SubPictureMedia(f), 10)
  {
    match f
    case VobSub => case DvbSub => case Pgs =>
  }

  lemma OtherMediaUntagged(c: Caps)
    requires c.RawVideo? || c.Tensor? || c.Klv? || c.OnvifMetadata? || c.ClosedCaption? || c.SubPicture?
    ensures Untagged(Media(c), OtherSlash(c))
  {
    if c.SubPicture? {
      SubPictureMediaUntagged(c.subFormat);
    } else if c.OnvifMetadata? || c.ClosedCaption? {
      LongMediaUntagged();
    } else {
      ShortMediaUntagged();
    }
  }

  lemma OtherMediaIsPlain(c: Caps)
    requires c.RawVideo? || c.Tensor? || c.Klv? || c.OnvifMetadata? || c.ClosedCaption? || c.SubPicture? || c.Text?
    ensures Plain(Media(c))
  {
    if c.Text? {
      TextMediaPlain(c.textFormat);
    } else if c.SubPicture? {
      SubPictureMediaPlain(c.subFormat);
    } else if c.OnvifMetadata? || c.ClosedCaption? {
      LongMediaPlain();
    } else {
      SingleMediaPlain();
    }
  }

  predicate HasTag(c: Caps) {
    (c.CompressedVideo? && c.codec.Tagged?) || (c.Audio? && c.audioFormat.Tagged?)
  }

  lemma MediaIsPlain(c: Caps) returns (slash: nat)
    requires !c.Batch? && !HasTag(c)
    ensures Plain(Media(c)) && Untagged(Media(c), slash)
  {
    match c
    case CompressedVideo(codec, _, _, _, _, _) => 
      CodecMediaUntagged(codec);
      CodecMediaPlain(codec);
      slash := 5;
    case Audio(f, _, _, _) => AudioMediaIsPlain(f); slash := 5;
    case ByteStream(e) =>
      slash := EncodingSlash(e);
      if InVideoContainers(e) || InAudioContainers(e) {
        ContainerMediaIsPlain(e);
      } else {
        StreamMediaPlain(e);
        StreamMediaUntagged(e);
      }
    case _ =>
      slash := OtherSlash(c);
      OtherMediaIsPlain(c);
      if c.Text? {
        TextMediaUntagged(c);
      } else {
        OtherMediaUntagged(c);
      }
  }

  /** No untagged media type looks like a MOV tag. */
  lemma MovIsNoMedia(media: string, fs: Fields)
    requires At(media, 0, 'v') || (At(media, 0, 'a') && At(media, 1, 'u'))
    requires At(media, 6, 'x') && At(media, 8, 'g')
    ensures UntaggedSet(media, fs) == None
  {
    CodecIsNoMov(media);
    OtherHeads(media);
    StreamHeads(media);
    FieldlessHeads(media);
  }
}
