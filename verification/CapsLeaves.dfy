/** What the parser makes of the printed form of a caps that is no batch. */
module CapsLeaves {
  import opened Options
  import opened Integers
  import opened Strings
  import opened Caps
  import opened CapsSets
  import opened CapsPrinter
  import opened CapsParser
  import opened CapsNames
  import opened CapsScan
  import opened CapsValues

  // ----- keys -----

  lemma SizeKeys()
    ensures GoodKey("width") && GoodKey("height") && GoodKey("framerate")
  {
  }

  lemma VideoKeys()
    ensures GoodKey("interlace-mode") && GoodKey("colorimetry") && GoodKey("alignment")
  {
  }

  lemma AudioKeys()
    ensures GoodKey("channels") && GoodKey("rate") && GoodKey("channel-mask")
  {
  }

  lemma CodecKeys()
    ensures GoodKey("format") && GoodKey("variant") && GoodKey("fourcc") && GoodKey("codec_id")
  {
  }

  lemma SizeKeysDiffer()
    ensures "width" != "height" && "width" != "framerate" && "height" != "framerate"
    ensures "width" != "colorimetry" && "height" != "colorimetry" && "framerate" != "colorimetry"
  {
  }

  lemma RawKeysDiffer(k: string)
    requires k == "width" || k == "height" || k == "framerate" || k == "colorimetry"
    ensures "format" != k && "interlace-mode" != k && "format" != "interlace-mode"
  {
  }

  lemma CompressedKeysDiffer(k: string)
    requires k == "width" || k == "height" || k == "framerate" || k == "colorimetry" || k == "alignment"
    ensures "variant" != k && "fourcc" != k && "framerate" != "alignment"
  {
  }

  lemma AudioKeysDiffer()
    ensures "format" != "channels" && "format" != "rate" && "format" != "channel-mask"
    ensures "codec_id" != "channels" && "codec_id" != "rate" && "codec_id" != "channel-mask"
    ensures "channels" != "rate" && "channels" != "channel-mask" && "rate" != "channel-mask"
  {
  }

  // ----- looking up printed fields -----

  lemma FindFour(k0: string, v0: Option<string>, k1: string, v1: Option<string>,
                 k2: string, v2: Option<string>, k3: string, v3: Option<string>, key: string)
    ensures Find(Field(k0, v0) + Field(k1, v1) + Field(k2, v2) + Field(k3, v3), key)
         == if k0 == key && v0.Some? then v0 else if k1 == key && v1.Some? then v1
            else if k2 == key && v2.Some? then v2 else if k3 == key then v3 else None
  {
    FindField(k0, v0, key);
    FindField(k1, v1, key);
    FindField(k2, v2, key);
    FindField(k3, v3, key);
    FindConcat(Field(k0, v0), Field(k1, v1), key);
    FindConcat(Field(k0, v0) + Field(k1, v1), Field(k2, v2), key);
    FindConcat(Field(k0, v0) + Field(k1, v1) + Field(k2, v2), Field(k3, v3), key);
  }

  lemma FindSix(k0: string, v0: Option<string>, k1: string, v1: Option<string>,
                k2: string, v2: Option<string>, k3: string, v3: Option<string>,
                k4: string, v4: Option<string>, k5: string, v5: Option<string>, key: string)
    ensures Find(Field(k0, v0) + Field(k1, v1) + Field(k2, v2) + Field(k3, v3) + Field(k4, v4) + Field(k5, v5), key)
         == if k0 == key && v0.Some? then v0 else if k1 == key && v1.Some? then v1
            else if k2 == key && v2.Some? then v2 else if k3 == key && v3.Some? then v3
            else if k4 == key && v4.Some? then v4 else if k5 == key then v5 else None
  {
    var four := Field(k0, v0) + Field(k1, v1) + Field(k2, v2) + Field(k3, v3);
    FindFour(k0, v0, k1, v1, k2, v2, k3, v3, key);
    FindField(k4, v4, key);
    FindField(k5, v5, key);
    FindConcat(four, Field(k4, v4), key);
    FindConcat(four + Field(k4, v4), Field(k5, v5), key);
  }

  lemma TidyConcat(a: seq<(string, string)>, b: seq<(string, string)>)
    requires TidyFields(a) && TidyFields(b)
    ensures TidyFields(a + b)
  {
  }

  lemma FourTidy(k0: string, v0: Option<string>, k1: string, v1: Option<string>,
                 k2: string, v2: Option<string>, k3: string, v3: Option<string>)
    requires GoodKey(k0) && GoodValue(v0) && GoodKey(k1) && GoodValue(v1)
    requires GoodKey(k2) && GoodValue(v2) && GoodKey(k3) && GoodValue(v3)
    ensures TidyFields(Field(k0, v0) + Field(k1, v1) + Field(k2, v2) + Field(k3, v3))
  {
    TidyConcat(Field(k0, v0), Field(k1, v1));
    TidyConcat(Field(k0, v0) + Field(k1, v1), Field(k2, v2));
    TidyConcat(Field(k0, v0) + Field(k1, v1) + Field(k2, v2), Field(k3, v3));
  }

  // ----- raw video -----

  /** What the parser reads for a printed scan structure. */
  function ReadInterlace(i: Interlace): Interlace {
    if i.Progressive? then Interlace.Any else i
  }

  lemma OneRaw(f: RawVideoFormat, w: Dim, h: Dim, r: Rate, i: Interlace, col: Colorimetry)
    ensures RawProduct([f], [w], [h], [r], i, col) == [RawVideo(f, w, h, r, i, col)]
  {
    assert [r][1..] == [] && [h][1..] == [] && [w][1..] == [] && [f][1..] == [];
    assert RawCell(f, w, h, [r], i, col) == [RawVideo(f, w, h, r, i, col)];
    assert RawRow(f, w, [h], [r], i, col) == RawCell(f, w, h, [r], i, col);
    assert RawPlane(f, [w], [h], [r], i, col) == RawRow(f, w, [h], [r], i, col);
  }

  lemma RawFind(c: Caps, key: string)
    requires c.RawVideo?
    ensures Find(LeafFields(c), key)
         == if "format" == key then Some(RawFormatName(c.format))
            else if "width" == key && DimText(c.width).Some? then DimText(c.width)
            else if "height" == key && DimText(c.height).Some? then DimText(c.height)
            else if "framerate" == key && RateText(c.framerate).Some? then RateText(c.framerate)
            else if "interlace-mode" == key && InterlaceText(c.interlace).Some? then InterlaceText(c.interlace)
            else if "colorimetry" == key then ColorimetryText(c.colorimetry) else None
  {
    FindSix("format", Some(RawFormatName(c.format)), "width", DimText(c.width), "height", DimText(c.height),
            "framerate", RateText(c.framerate), "interlace-mode", InterlaceText(c.interlace),
            "colorimetry", ColorimetryText(c.colorimetry), key);
  }

  lemma RawLookups(c: Caps)
    requires c.RawVideo?
    ensures
      var fs := Read(LeafFields(c));
      && Lookup(fs, "format") == ReadValue(Some(RawFormatName(c.format)))
      && Lookup(fs, "width") == ReadValue(DimText(c.width))
      && Lookup(fs, "height") == ReadValue(DimText(c.height))
      && Lookup(fs, "framerate") == ReadValue(RateText(c.framerate))
      && Lookup(fs, "interlace-mode") == ReadValue(InterlaceText(c.interlace))
      && Lookup(fs, "colorimetry") == ReadValue(ColorimetryText(c.colorimetry))
  {
    SizeKeysDiffer();
    RawKeysDiffer("width");
    RawKeysDiffer("height");
    RawKeysDiffer("framerate");
    RawKeysDiffer("colorimetry");
    RawFind(c, "format");
    RawFind(c, "width");
    RawFind(c, "height");
    RawFind(c, "framerate");
    RawFind(c, "interlace-mode");
    RawFind(c, "colorimetry");
    LookupRead(LeafFields(c), "format");
    LookupRead(LeafFields(c), "width");
    LookupRead(LeafFields(c), "height");
    LookupRead(LeafFields(c), "framerate");
    LookupRead(LeafFields(c), "interlace-mode");
    LookupRead(LeafFields(c), "colorimetry");
  }

  lemma RawReads(c: Caps)
    requires c.RawVideo?
    ensures RawSet(Read(LeafFields(c))) == Some([c.(interlace := ReadInterlace(c.interlace))])
  {
    RawLookups(c);
    RawNameLowers(c.format);
    PlainValue(RawFormatName(c.format));
    RawFormatReads(c.format);
    ParseOne(RawFormatName(c.format), ParseRawFormat, c.format);
    DimReads(c.width);
    DimReads(c.height);
    RateReads(c.framerate);
    InterlaceReads(c.interlace);
    ColorimetryReads(c.colorimetry);
    OneRaw(c.format, c.width, c.height, c.framerate, ReadInterlace(c.interlace), c.colorimetry);
  }

  lemma RawIsTidy(c: Caps)
    requires c.RawVideo?
    ensures TidyFields(LeafFields(c))
  {
    SizeKeys();
    VideoKeys();
    CodecKeys();
    RawNameLowers(c.format);
    DimReads(c.width);
    DimReads(c.height);
    RateReads(c.framerate);
    InterlaceReads(c.interlace);
    ColorimetryReads(c.colorimetry);
    FourTidy("format", Some(RawFormatName(c.format)), "width", DimText(c.width), "height", DimText(c.height),
             "framerate", RateText(c.framerate));
    var four := Field("format", Some(RawFormatName(c.format))) + Field("width", DimText(c.width))
                + Field("height", DimText(c.height)) + Field("framerate", RateText(c.framerate));
    TidyConcat(four, Field("interlace-mode", InterlaceText(c.interlace)));
    TidyConcat(four + Field("interlace-mode", InterlaceText(c.interlace)),
               Field("colorimetry", ColorimetryText(c.colorimetry)));
  }

  // ----- compressed video -----

  function CodecKey(c: VideoCodec): string {
    if c.ProRes? then "variant" else "fourcc"
  }

  function CodecText(c: VideoCodec): Option<string> {
    match c
    case ProRes(v) => Some(ProResName(v))
    case Tagged(tag) => if tag.namespace.Riff? then Some(Decimal(tag.tag)) else None
    case _ => None
  }

  lemma OneCompressed(k: VideoCodec, w: Dim, h: Dim, r: Rate, col: Colorimetry, a: Alignment)
    ensures CompressedProduct(k, [w], [h], [r], col, a) == [CompressedVideo(k, w, h, r, col, a)]
  {
    assert [r][1..] == [] && [h][1..] == [] && [w][1..] == [];
    assert CompressedCell(k, w, h, [r], col, a) == [CompressedVideo(k, w, h, r, col, a)];
    assert CompressedRow(k, w, [h], [r], col, a) == CompressedCell(k, w, h, [r], col, a);
  }

  lemma CompressedFind(c: Caps, key: string)
    requires c.CompressedVideo?
    ensures Find(LeafFields(c), key)
         == if CodecKey(c.codec) == key && CodecText(c.codec).Some? then CodecText(c.codec)
            else if "width" == key && DimText(c.width).Some? then DimText(c.width)
            else if "height" == key && DimText(c.height).Some? then DimText(c.height)
            else if "framerate" == key && RateText(c.framerate).Some? then RateText(c.framerate)
            else if "colorimetry" == key && ColorimetryText(c.colorimetry).Some? then ColorimetryText(c.colorimetry)
            else if "alignment" == key then AlignmentText(c.alignment) else None
  {
    FindSix(CodecKey(c.codec), CodecText(c.codec), "width", DimText(c.width), "height", DimText(c.height),
            "framerate", RateText(c.framerate), "colorimetry", ColorimetryText(c.colorimetry),
            "alignment", AlignmentText(c.alignment), key);
    assert CodecFields(c.codec) == Field(CodecKey(c.codec), CodecText(c.codec));
  }

  lemma CompressedLookups(c: Caps)
    requires c.CompressedVideo?
    ensures
      var fs := Read(LeafFields(c));
      && Lookup(fs, CodecKey(c.codec)) == ReadValue(CodecText(c.codec))
      && Lookup(fs, "width") == ReadValue(DimText(c.width))
      && Lookup(fs, "height") == ReadValue(DimText(c.height))
      && Lookup(fs, "framerate") == ReadValue(RateText(c.framerate))
      && Lookup(fs, "colorimetry") == ReadValue(ColorimetryText(c.colorimetry))
      && Lookup(fs, "alignment") == ReadValue(AlignmentText(c.alignment))
  {
    SizeKeysDiffer();
    CompressedKeysDiffer("width");
    CompressedKeysDiffer("height");
    CompressedKeysDiffer("framerate");
    CompressedKeysDiffer("colorimetry");
    CompressedKeysDiffer("alignment");
    CompressedFind(c, CodecKey(c.codec));
    CompressedFind(c, "width");
    CompressedFind(c, "height");
    CompressedFind(c, "framerate");
    CompressedFind(c, "colorimetry");
    CompressedFind(c, "alignment");
    LookupRead(LeafFields(c), CodecKey(c.codec));
    LookupRead(LeafFields(c), "width");
    LookupRead(LeafFields(c), "height");
    LookupRead(LeafFields(c), "framerate");
    LookupRead(LeafFields(c), "colorimetry");
    LookupRead(LeafFields(c), "alignment");
  }

  /** Whatever codec the media type was taken for, the other fields read back. */
  lemma CompressedReads(c: Caps, k: VideoCodec)
    requires c.CompressedVideo?
    ensures CompressedSet(Read(LeafFields(c)), k) == Some([c.(codec := k)])
  {
    CompressedLookups(c);
    DimReads(c.width);
    DimReads(c.height);
    RateReads(c.framerate);
    ColorimetryReads(c.colorimetry);
    AlignmentReads(c.alignment);
    OneCompressed(k, c.width, c.height, c.framerate, c.colorimetry, c.alignment);
  }

  lemma CompressedIsTidy(c: Caps)
    requires c.CompressedVideo?
    ensures TidyFields(LeafFields(c))
  {
    SizeKeys();
    VideoKeys();
    CodecKeys();
    if c.codec.ProRes? {
      ProResReads(c.codec.variant);
    } else if c.codec.Tagged? {
      DecimalPlain(c.codec.codecTag.tag);
    }
    DimReads(c.width);
    DimReads(c.height);
    RateReads(c.framerate);
    ColorimetryReads(c.colorimetry);
    AlignmentReads(c.alignment);
    assert CodecFields(c.codec) == Field(CodecKey(c.codec), CodecText(c.codec));
    FourTidy(CodecKey(c.codec), CodecText(c.codec), "width", DimText(c.width), "height", DimText(c.height),
             "framerate", RateText(c.framerate));
    var four := CodecFields(c.codec) + Field("width", DimText(c.width))
                + Field("height", DimText(c.height)) + Field("framerate", RateText(c.framerate));
    TidyConcat(four, Field("colorimetry", ColorimetryText(c.colorimetry)));
    TidyConcat(four + Field("colorimetry", ColorimetryText(c.colorimetry)), Field("alignment", AlignmentText(c.alignment)));
  }

  // ----- audio -----

  function AudioKey(f: AudioFormat): string {
    if f.Tagged? then "codec_id" else "format"
  }

  function AudioText(f: AudioFormat): Option<string> {
    if !f.Tagged? then PcmName(f) else if f.audioTag.namespace.Riff? then Some(Decimal(f.audioTag.tag)) else None
  }

  lemma OneAudio(f: AudioFormat, ch: u8, sr: u32, l: ChannelLayout)
    ensures AudioProduct([f], [ch], [sr], l) == [Audio(f, ch, sr, l)]
  {
    assert [sr][1..] == [] && [ch][1..] == [] && [f][1..] == [];
    assert AudioCell(f, ch, [sr], l) == [Audio(f, ch, sr, l)];
    assert AudioRow(f, [ch], [sr], l) == AudioCell(f, ch, [sr], l);
  }

  lemma AudioFind(c: Caps, key: string)
    requires c.Audio?
    ensures Find(LeafFields(c), key)
         == if AudioKey(c.audioFormat) == key && AudioText(c.audioFormat).Some? then AudioText(c.audioFormat)
            else if "channels" == key && ChannelsText(c.channels).Some? then ChannelsText(c.channels)
            else if "rate" == key && SampleRateText(c.sampleRate).Some? then SampleRateText(c.sampleRate)
            else if "channel-mask" == key then MaskText(c.layout) else None
  {
    assert AudioFormatFields(c.audioFormat) == Field(AudioKey(c.audioFormat), AudioText(c.audioFormat));
    FindFour(AudioKey(c.audioFormat), AudioText(c.audioFormat), "channels", ChannelsText(c.channels),
             "rate", SampleRateText(c.sampleRate), "channel-mask", MaskText(c.layout), key);
  }

  lemma AudioLookups(c: Caps)
    requires c.Audio?
    ensures
      var fs := Read(LeafFields(c));
      && Lookup(fs, AudioKey(c.audioFormat)) == ReadValue(AudioText(c.audioFormat))
      && Lookup(fs, "channels") == ReadValue(ChannelsText(c.channels))
      && Lookup(fs, "rate") == ReadValue(SampleRateText(c.sampleRate))
      && Lookup(fs, "channel-mask") == ReadValue(MaskText(c.layout))
  {
    AudioKeysDiffer();
    AudioFind(c, AudioKey(c.audioFormat));
    AudioFind(c, "channels");
    AudioFind(c, "rate");
    AudioFind(c, "channel-mask");
    LookupRead(LeafFields(c), AudioKey(c.audioFormat));
    LookupRead(LeafFields(c), "channels");
    LookupRead(LeafFields(c), "rate");
    LookupRead(LeafFields(c), "channel-mask");
  }

  lemma AudioSetReads(c: Caps, f: AudioFormat)
    requires c.Audio?
    ensures AudioSet(Read(LeafFields(c)), [f]) == Some([c.(audioFormat := f)])
  {
    AudioLookups(c);
    ChannelsRead(c.channels);
    SampleRateReads(c.sampleRate);
    MaskReads(c.layout);
    OneAudio(f, c.channels, c.sampleRate, c.layout);
  }

  lemma AudioIsTidy(c: Caps)
    requires c.Audio?
    ensures TidyFields(LeafFields(c))
  {
    AudioKeys();
    CodecKeys();
    if c.audioFormat.Tagged? {
      DecimalPlain(c.audioFormat.audioTag.tag);
    } else if IsPcm(c.audioFormat) {
      PcmNames(c.audioFormat);
    }
    ChannelsRead(c.channels);
    SampleRateReads(c.sampleRate);
    MaskReads(c.layout);
    assert AudioFormatFields(c.audioFormat) == Field(AudioKey(c.audioFormat), AudioText(c.audioFormat));
    FourTidy(AudioKey(c.audioFormat), AudioText(c.audioFormat), "channels", ChannelsText(c.channels),
             "rate", SampleRateText(c.sampleRate), "channel-mask", MaskText(c.layout));
  }

  // ----- the other kinds -----

  lemma TextIsTidy(f: TextFormat)
    ensures TidyFields(TextFields(f))
  {
    CodecKeys();
    TextNamesPlain();
  }

  lemma TextNamesPlain()
    ensures Plain("utf8") && Plain("pango-markup")
  {
  }

  lemma CaptionIsTidy(f: ClosedCaptionFormat)
    ensures TidyFields([("format", CcFormatName(f))])
  {
    CodecKeys();
    CaptionNamePlain(f);
  }

  lemma CaptionNamePlain(f: ClosedCaptionFormat)
    ensures Plain(CcFormatName(f))
  {
    match f
    case Cea608 => case Cea608Raw => case Cea608S334 => case Cea708 => case Cea708Cdp =>
  }

  lemma LeafIsTidy(c: Caps)
    requires !c.Batch? && !c.Tensor?
    ensures TidyFields(LeafFields(c))
  {
    match c
    case RawVideo(_, _, _, _, _, _) => RawIsTidy(c);
    case CompressedVideo(_, _, _, _, _, _) => CompressedIsTidy(c);
    case Audio(_, _, _, _) => AudioIsTidy(c);
    case Text(f) => TextIsTidy(f);
    case ClosedCaption(f) => CaptionIsTidy(f);
    case _ =>
  }

  // ----- taking a printed leaf apart -----

  lemma LeafText(c: Caps)
    requires !c.Batch?
    ensures LeafFields(c) == [] ==> Print(c) == Media(c)
    ensures LeafFields(c) != [] ==> Print(c) == Media(c) + "," + Commas(FieldTexts(LeafFields(c)))
  {
    assert ([Media(c)] + FieldTexts(LeafFields(c)))[1..] == FieldTexts(LeafFields(c));
  }

  /** With a media type that the scanner leaves whole, the parser sees the media type
      and the fields that were printed. */
  lemma LeafParts(c: Caps)
    requires !c.Batch? && !c.Tensor?
    requires NoCut(TOP, Media(c)) && (LeafFields(c) == [] || Run(TOP, Media(c)) == TOP)
    ensures SplitTop(Print(c)) == [Media(c)] + FieldTexts(LeafFields(c))
    ensures MediaOf(Print(c)) == Trim(Media(c)) && FieldsOf(Print(c)) == Some(Read(LeafFields(c)))
  {
    LeafText(c);
    LeafIsTidy(c);
    TidyIsGood(LeafFields(c));
    PartsOf(Print(c), Media(c), LeafFields(c));
  }

  lemma PartsOf(text: string, media: string, fs: seq<(string, string)>)
    requires GoodFields(fs) && NoCut(TOP, media) && (fs == [] || Run(TOP, media) == TOP)
    requires if fs == [] then text == media else text == media + "," + Commas(FieldTexts(fs))
    ensures SplitTop(text) == [media] + FieldTexts(fs)
    ensures MediaOf(text) == Trim(media) && FieldsOf(text) == Some(Read(fs))
  {
    if fs == [] {
      SplitWhole(media);
    } else {
      FieldsAreSolid(fs);
      SplitComma(media, Commas(FieldTexts(fs)));
      SplitCommas(FieldTexts(fs));
    }
    assert SplitTop(text)[1..] == FieldTexts(fs);
    ReadFields(fs);
  }

  lemma LeafMediaPart(c: Caps)
    requires !c.Batch? && Plain(Media(c))
    ensures MediaOf(Print(c)) == Media(c)
  {
    LeafText(c);
    PlainIsSolid(Media(c));
    PlainIsTrimmed(Media(c));
    if LeafFields(c) == [] {
      SplitWhole(Media(c));
    } else {
      SplitComma(Media(c), Commas(FieldTexts(LeafFields(c))));
    }
  }

  lemma LeafIsNoBatch(media: string)
    ensures (At(media, 0, 'm') && At(media, 5, 's')) || media != BATCH_MEDIA
  {
  }

  lemma MediaIsNoBatch(c: Caps)
    requires !c.Batch? && !HasTag(c)
    ensures Media(c) != BATCH_MEDIA
  {
    LeafIsNoBatch(Media(c));
    match c
    case CompressedVideo(codec, _, _, _, _, _) => CodecMediaUntagged(codec);
    case Audio(f, _, _, _) => AudioMediaIsPlain(f);
    case ByteStream(e) => StreamMediaIsNoBatch(e);
    case Text(_) => TextMediaUntagged(c);
    case _ => OtherMediaUntagged(c);
  }

  lemma StreamMediaIsNoBatch(e: ByteStreamEncoding)
    ensures EncodingMedia(e) != BATCH_MEDIA
  {
    LeafIsNoBatch(EncodingMedia(e));
  }

  /** A printed leaf with an ordinary media type is read by that media type's entry. */
  lemma UntaggedParses(c: Caps)
    requires !c.Batch? && !c.Tensor? && !HasTag(c)
    ensures Parse(Print(c)) == UntaggedSet(Media(c), Read(LeafFields(c)))
  {
    var slash := MediaIsPlain(c);
    PlainIsSolid(Media(c));
    PlainIsTrimmed(Media(c));
    LeafParts(c);
    UntaggedHasNoCodec(Media(c), slash, Read(LeafFields(c)));
    MediaIsNoBatch(c);
    ParsesAs(Print(c), Media(c), Read(LeafFields(c)));
  }

  /** What comes back of a printed leaf. */
  function ReadBack(c: Caps): Option<Caps>
    requires !c.Batch?
  {
    match c
    case RawVideo(_, _, _, _, i, _) => Some(c.(interlace := ReadInterlace(i)))
    case CompressedVideo(codec, _, _, _, _, _) =>
      if codec.Mpeg2? || codec.Mpeg4Part2? || codec.JpegXs? then None else Some(c)
    case Audio(f, _, _, _) => Some(c.(audioFormat := if f.Mp2? || f.Mp3? then Aac else f))
    case ByteStream(e) => if e.MpegPs? then None else if e.IsoBmff? then Some(ByteStream(Mp4)) else Some(c)
    case Tensor(_, _, _) => None
    case ClosedCaption(_) => None
    case _ => Some(c)
  }

  function Singleton(o: Option<Caps>): Option<CapsSet> {
    match o
    case Some(c) => Some([c])
    case None => None
  }

  // ----- which entry reads a media type -----

  lemma RawEntries(fs: Fields)
    ensures UntaggedSet("video/x-raw", fs) == RawSet(fs)
    ensures UntaggedSet("audio/x-raw", fs)
         == match Expand(Lookup(fs, "format"), PCM_FORMATS, ParseAudioFormat)
            case Some(formats) => AudioSet(fs, formats)
            case None => None
  {
  }

  lemma TextEntry(fs: Fields)
    ensures UntaggedSet("text/x-raw", fs)
         == match Expand(Lookup(fs, "format"), TEXT_FORMATS, ParseTextFormat)
            case Some(formats) => Some(TextSet(formats))
            case None => None
  {
  }

  lemma ProResEntry(fs: Fields)
    ensures UntaggedSet("video/x-prores", fs)
         == match Expand(Lookup(fs, "variant"), PRORES_VARIANTS, ParseProRes)
            case Some(variants) => ProResSets(fs, variants)
            case None => None
  {
  }

  lemma CodecEntry(media: string, fs: Fields, k: VideoCodec)
    requires !IsListed(media) && CodecOfMedia(media) == Some(k)
    ensures UntaggedSet(media, fs) == CompressedSet(fs, k)
  {
  }

  lemma AudioEntry(media: string, fs: Fields, f: AudioFormat)
    requires !IsListed(media) && AudioOfMedia(media) == Some(f)
    ensures UntaggedSet(media, fs) == AudioSet(fs, [f])
  {
    CodecHeads(media);
    OtherHeads(media);
  }

  // ----- each kind's entry reads its fields back -----

  lemma VariantReads(v: ProResVariant)
    ensures Expand(ReadValue(Some(ProResName(v))), PRORES_VARIANTS, ParseProRes) == Some([v])
  {
    ProResReads(v);
    PlainValue(ProResName(v));
    ParseOne(ProResName(v), ParseProRes, v);
  }

  lemma OneVariant(fs: Fields, v: ProResVariant)
    ensures ProResSets(fs, [v]) == CompressedSet(fs, ProRes(v))
  {
    assert [v][1..] == [];
    assert ProResSets(fs, [v][1..]) == Some([]);
    var one := CompressedSet(fs, ProRes(v));
    if one.Some? {
      assert one.value + [] == one.value;
    }
  }

  lemma ProResSetReads(c: Caps)
    requires c.CompressedVideo? && c.codec.ProRes?
    ensures UntaggedSet("video/x-prores", Read(LeafFields(c))) == Some([c])
  {
    ProResEntry(Read(LeafFields(c)));
    CompressedLookups(c);
    VariantReads(c.codec.variant);
    OneVariant(Read(LeafFields(c)), c.codec.variant);
    CompressedReads(c, c.codec);
  }

  lemma CompressedLeaf(c: Caps)
    requires c.CompressedVideo? && !c.codec.Tagged?
    ensures UntaggedSet(Media(c), Read(LeafFields(c))) == Singleton(ReadBack(c))
  {
    if c.codec.ProRes? {
      ProResSetReads(c);
    } else if c.codec.Mpeg2? || c.codec.Mpeg4Part2? || c.codec.JpegXs? {
      UnreadCodec(c, Read(LeafFields(c)));
    } else {
      PlainCodecReads(c.codec, Read(LeafFields(c)));
      CompressedReads(c, c.codec);
    }
  }

  lemma UnreadCodec(c: Caps, fs: Fields)
    requires c.CompressedVideo? && (c.codec.Mpeg2? || c.codec.Mpeg4Part2? || c.codec.JpegXs?)
    ensures UntaggedSet(Media(c), fs) == None
  {
    UnreadMedia(Media(c), fs);
  }

  lemma PlainCodecReads(k: VideoCodec, fs: Fields)
    requires !k.Tagged? && !k.ProRes? && !k.Mpeg2? && !k.Mpeg4Part2? && !k.JpegXs?
    ensures UntaggedSet(CodecMedia(k), fs) == CompressedSet(fs, k)
  {
    CodecReads(k);
    CodecIsNotListed(k);
    CodecEntry(CodecMedia(k), fs, k);
  }

  lemma PcmFormatReads(f: AudioFormat)
    requires IsPcm(f)
    ensures PcmName(f).Some? && Expand(ReadValue(PcmName(f)), PCM_FORMATS, ParseAudioFormat) == Some([f])
  {
    PcmNames(f);
    PlainValue(PcmName(f).value);
    PcmReads(f);
    ParseOne(PcmName(f).value, ParseAudioFormat, f);
  }

  lemma PcmSetReads(c: Caps)
    requires c.Audio? && IsPcm(c.audioFormat)
    ensures UntaggedSet("audio/x-raw", Read(LeafFields(c))) == Some([c])
  {
    RawEntries(Read(LeafFields(c)));
    AudioLookups(c);
    PcmFormatReads(c.audioFormat);
    AudioSetReads(c, c.audioFormat);
  }

  lemma AudioLeaf(c: Caps)
    requires c.Audio? && !c.audioFormat.Tagged?
    ensures UntaggedSet(Media(c), Read(LeafFields(c))) == Singleton(ReadBack(c))
  {
    if IsPcm(c.audioFormat) {
      PcmSetReads(c);
    } else {
      var f := if c.audioFormat.Mp2? || c.audioFormat.Mp3? then Aac else c.audioFormat;
      AudioReads(c.audioFormat);
      AudioEntry(Media(c), Read(LeafFields(c)), f);
      AudioSetReads(c, f);
    }
  }

  function TextName(f: TextFormat): string {
    if f.Utf8? then "utf8" else "pango-markup"
  }

  lemma TextNameReads(f: TextFormat)
    requires f.Utf8? || f.PangoMarkup?
    ensures Expand(ReadValue(Some(TextName(f))), TEXT_FORMATS, ParseTextFormat) == Some([f])
  {
    TextNamesPlain();
    PlainValue(TextName(f));
    TextFormatReads();
    ParseOne(TextName(f), ParseTextFormat, f);
  }

  lemma TextSetReads(c: Caps)
    requires c.Text? && (c.textFormat.Utf8? || c.textFormat.PangoMarkup?)
    ensures UntaggedSet("text/x-raw", Read(LeafFields(c))) == Some([c])
  {
    TextEntry(Read(LeafFields(c)));
    assert LeafFields(c) == Field("format", Some(TextName(c.textFormat)));
    FindField("format", Some(TextName(c.textFormat)), "format");
    LookupRead(LeafFields(c), "format");
    TextNameReads(c.textFormat);
    OneText(c.textFormat);
  }

  lemma OneText(f: TextFormat)
    ensures TextSet([f]) == [Text(f)]
  {
    assert [f][1..] == [];
  }

  lemma RawLeaf(c: Caps)
    requires c.RawVideo?
    ensures UntaggedSet(Media(c), Read(LeafFields(c))) == Singleton(ReadBack(c))
  {
    RawEntries(Read(LeafFields(c)));
    RawReads(c);
  }

  lemma UnreadLeaf(c: Caps)
    requires c.Tensor? || c.ClosedCaption?
    ensures Parse(Print(c)) == None
  {
    var slash := MediaIsPlain(c);
    LeafMediaPart(c);
    if FieldsOf(Print(c)).Some? {
      UntaggedHasNoCodec(Media(c), slash, FieldsOf(Print(c)).value);
      UnreadMedia(Media(c), FieldsOf(Print(c)).value);
    }
  }

  lemma EntryReads(c: Caps)
    requires !c.Batch? && !HasTag(c) && !c.Tensor? && !c.ClosedCaption?
    ensures UntaggedSet(Media(c), Read(LeafFields(c))) == Singleton(ReadBack(c))
  {
    match c
    case RawVideo(_, _, _, _, _, _) => RawLeaf(c);
    case CompressedVideo(_, _, _, _, _, _) => CompressedLeaf(c);
    case Audio(_, _, _, _) => AudioLeaf(c);
    case ByteStream(e) => EncodingReads(e, Read(LeafFields(c)));
    case _ =>
      if Fieldless(c) {
        FieldlessReads(c, Read(LeafFields(c)));
      } else {
        TextSetReads(c);
      }
  }

  /** The parser's reading of every printed leaf but those that carry a container tag. */
  lemma LeafReads(c: Caps)
    requires !c.Batch? && !HasTag(c)
    ensures Parse(Print(c)) == Singleton(ReadBack(c))
  {
    if c.Tensor? || c.ClosedCaption? {
      UnreadLeaf(c);
    } else {
      UntaggedParses(c);
      EntryReads(c);
    }
  }

  // ----- tags of the RIFF name space -----

  lemma RiffSubtype()
    ensures Plain("video") && Plain("audio") && Plain("/") && Plain("x-avi-unknown")
    ensures '/' !in "video" && '/' !in "audio" && !(MOV_PREFIX <= "x-avi-unknown")
  {
    MovPrefixShows("x-avi-unknown");
  }

  lemma RiffMedia(kind: string)
    requires kind == "video" || kind == "audio"
    ensures Plain(kind + "/" + "x-avi-unknown")
    ensures SplitOnce(kind + "/" + "x-avi-unknown", '/') == Some((kind, "x-avi-unknown"))
    ensures kind + "/" + "x-avi-unknown" != BATCH_MEDIA
  {
    RiffSubtype();
    PlainConcat(kind, "/");
    PlainConcat(kind + "/", "x-avi-unknown");
    SplitOnceAt(kind, '/', "x-avi-unknown");
    LeafIsNoBatch(kind + "/" + "x-avi-unknown");
    assert (kind + "/" + "x-avi-unknown")[0] == kind[0];
  }

  lemma RiffValue(tag: u32)
    ensures ReadValue(Some(Decimal(tag))) == Some(One(Decimal(tag)))
    ensures StripPrefix(Decimal(tag), "(int)") == None && ParseU32(Trim(Decimal(tag))) == Some(tag)
  {
    DecimalPlain(tag);
    DecimalReadsBack(tag);
    PlainValue(Decimal(tag));
    PlainIsTrimmed(Decimal(tag));
    NumberReads(tag);
    assert '0' <= Decimal(tag)[0] <= '9';
    assert "(int)"[0] == '(';
  }

  lemma RiffParts(c: Caps, kind: string)
    requires (c.CompressedVideo? && c.codec.Tagged? && kind == "video" && c.codec.codecTag.namespace.Riff?)
          || (c.Audio? && c.audioFormat.Tagged? && kind == "audio" && c.audioFormat.audioTag.namespace.Riff?)
    ensures MediaOf(Print(c)) == Media(c) == kind + "/" + "x-avi-unknown"
    ensures FieldsOf(Print(c)) == Some(Read(LeafFields(c)))
  {
    RiffMedia(kind);
    PlainIsSolid(Media(c));
    PlainIsTrimmed(Media(c));
    LeafParts(c);
  }

  lemma RiffCodec(kind: string, key: string, fs: Fields, tag: u32)
    requires (kind == "video" && key == "fourcc") || (kind == "audio" && key == "codec_id")
    requires Lookup(fs, key) == ReadValue(Some(Decimal(tag)))
    ensures TaggedCodecOf(kind + "/" + "x-avi-unknown", fs) == TaggedOfKind(kind, CodecTag(Riff, tag))
  {
    RiffSubtype();
    RiffMedia(kind);
    RiffValue(tag);
  }

  lemma KindsRead(tag: CodecTag)
    ensures TaggedOfKind("video", tag) == Some(TaggedVideo(tag)) && TaggedOfKind("audio", tag) == Some(TaggedAudio(tag))
  {
  }

  lemma TaggedVideoSet(c: Caps)
    requires c.CompressedVideo? && c.codec.Tagged?
    requires TaggedCodecOf(Media(c), Read(LeafFields(c))) == Some(TaggedVideo(c.codec.codecTag))
    ensures LeafSet(Media(c), Read(LeafFields(c))) == Some([c])
  {
    CompressedReads(c, c.codec);
  }

  lemma TaggedAudioSet(c: Caps)
    requires c.Audio? && c.audioFormat.Tagged?
    requires TaggedCodecOf(Media(c), Read(LeafFields(c))) == Some(TaggedAudio(c.audioFormat.audioTag))
    ensures LeafSet(Media(c), Read(LeafFields(c))) == Some([c])
  {
    AudioSetReads(c, c.audioFormat);
  }

  lemma ParsesAs(text: string, media: string, fs: Fields)
    requires MediaOf(text) == media && FieldsOf(text) == Some(fs) && media != BATCH_MEDIA
    ensures Parse(text) == LeafSet(media, fs)
  {
  }

  lemma RiffVideoReads(c: Caps)
    requires c.CompressedVideo? && c.codec.Tagged? && c.codec.codecTag.namespace.Riff?
    ensures Parse(Print(c)) == Some([c])
  {
    RiffParts(c, "video");
    RiffMedia("video");
    CompressedLookups(c);
    RiffCodec("video", "fourcc", Read(LeafFields(c)), c.codec.codecTag.tag);
    KindsRead(c.codec.codecTag);
    TaggedVideoSet(c);
    ParsesAs(Print(c), Media(c), Read(LeafFields(c)));
  }

  lemma RiffAudioReads(c: Caps)
    requires c.Audio? && c.audioFormat.Tagged? && c.audioFormat.audioTag.namespace.Riff?
    ensures Parse(Print(c)) == Some([c])
  {
    RiffParts(c, "audio");
    RiffMedia("audio");
    AudioLookups(c);
    RiffCodec("audio", "codec_id", Read(LeafFields(c)), c.audioFormat.audioTag.tag);
    KindsRead(c.audioFormat.audioTag);
    TaggedAudioSet(c);
    ParsesAs(Print(c), Media(c), Read(LeafFields(c)));
  }
}
