/** What a caps description means, media type by media type: when it parses, and which caps
    the set it stands for accepts. */
module CapsDescriptions {
  import opened Options
  import opened Strings
  import opened Caps
  import opened CapsSets
  import opened CapsPrinter
  import opened CapsParser
  import opened CapsNames
  import opened CapsLeaves
  import opened CapsMovTags
  import opened CapsBatches
  import opened CapsExpansion

  // ----- raw video -----

  /** Every field of the description has a value the parser can read, or is absent. */
  predicate RawFieldsRead(fs: Fields) {
    && Expand(Lookup(fs, "format"), RAW_VIDEO_FORMATS, ParseRawFormat).Some?
    && ExpandDim(Lookup(fs, "width")).Some? && ExpandDim(Lookup(fs, "height")).Some?
    && ExpandRate(Lookup(fs, "framerate")).Some?
    && ExpandInterlace(Lookup(fs, "interlace-mode")).Some? && ExpandColorimetry(Lookup(fs, "colorimetry")).Some?
  }

  /** Each field of the caps, on its own, agrees with the description. */
  predicate RawFieldsAccept(fs: Fields, c: Caps)
    requires RawFieldsRead(fs) && c.RawVideo?
  {
    && c.format in Expand(Lookup(fs, "format"), RAW_VIDEO_FORMATS, ParseRawFormat).value
    && AnyDim(ExpandDim(Lookup(fs, "width")).value, c.width)
    && AnyDim(ExpandDim(Lookup(fs, "height")).value, c.height)
    && AnyRate(ExpandRate(Lookup(fs, "framerate")).value, c.framerate)
    && IntersectInterlace(ExpandInterlace(Lookup(fs, "interlace-mode")).value, c.interlace).Some?
    && IntersectColorimetry(ExpandColorimetry(Lookup(fs, "colorimetry")).value, c.colorimetry).Some?
  }

  lemma RawIsNoTag(fs: Fields)
    ensures TaggedCodecOf("video/x-raw", fs) == None && TaggedCodecOf("audio/x-raw", fs) == None
  {
    assert Untagged("video/x-raw", 5) && Untagged("audio/x-raw", 5);
    UntaggedHasNoCodec("video/x-raw", 5, fs);
    UntaggedHasNoCodec("audio/x-raw", 5, fs);
  }

  lemma MediaIsNotBatch()
    ensures "video/x-raw" != BATCH_MEDIA && "audio/x-raw" != BATCH_MEDIA
  {
    LeafIsNoBatch("video/x-raw");
    LeafIsNoBatch("audio/x-raw");
  }

  lemma RawDescriptionParses(desc: string, fs: Fields)
    requires MediaOf(desc) == "video/x-raw" && FieldsOf(desc) == Some(fs)
    ensures Parse(desc) == RawSet(fs)
  {
    RawIsNoTag(fs);
    MediaIsNotBatch();
    ParsesAs(desc, "video/x-raw", fs);
    RawEntries(fs);
  }

  /** A raw video description parses exactly when each of its fields reads, and then it
      accepts a caps exactly when every field of the caps, on its own, overlaps one of the
      alternatives listed for it. */
  lemma RawDescriptionMeans(desc: string, fs: Fields, c: Caps)
    requires MediaOf(desc) == "video/x-raw" && FieldsOf(desc) == Some(fs) && c.RawVideo?
    ensures Parse(desc).Some? <==> RawFieldsRead(fs)
    ensures RawFieldsRead(fs) ==> (Accepts(Parse(desc).value, c) <==> RawFieldsAccept(fs, c))
  {
    RawDescriptionParses(desc, fs);
    if RawFieldsRead(fs) {
      RawAccepts(Expand(Lookup(fs, "format"), RAW_VIDEO_FORMATS, ParseRawFormat).value,
                 ExpandDim(Lookup(fs, "width")).value, ExpandDim(Lookup(fs, "height")).value,
                 ExpandRate(Lookup(fs, "framerate")).value, ExpandInterlace(Lookup(fs, "interlace-mode")).value,
                 ExpandColorimetry(Lookup(fs, "colorimetry")).value, c);
    }
  }

  // ----- compressed video -----

  predicate CompressedFieldsRead(fs: Fields) {
    && ExpandDim(Lookup(fs, "width")).Some? && ExpandDim(Lookup(fs, "height")).Some?
    && ExpandRate(Lookup(fs, "framerate")).Some?
    && ExpandColorimetry(Lookup(fs, "colorimetry")).Some? && ExpandAlignment(Lookup(fs, "alignment")).Some?
  }

  predicate CompressedFieldsAccept(fs: Fields, c: Caps)
    requires CompressedFieldsRead(fs) && c.CompressedVideo?
  {
    && AnyDim(ExpandDim(Lookup(fs, "width")).value, c.width)
    && AnyDim(ExpandDim(Lookup(fs, "height")).value, c.height)
    && AnyRate(ExpandRate(Lookup(fs, "framerate")).value, c.framerate)
    && IntersectColorimetry(ExpandColorimetry(Lookup(fs, "colorimetry")).value, c.colorimetry).Some?
    && IntersectAlignment(ExpandAlignment(Lookup(fs, "alignment")).value, c.alignment).Some?
  }

  /** `alts` is what a description of codec `v` with fields `fs` stands for. */
  predicate CompressedMeans(alts: Option<CapsSet>, fs: Fields, v: VideoCodec, c: Caps)
    requires c.CompressedVideo?
  {
    && (alts.Some? <==> CompressedFieldsRead(fs))
    && (alts.Some? ==> (Accepts(alts.value, c) <==> c.codec == v && CompressedFieldsAccept(fs, c)))
  }

  lemma CompressedSetMeans(fs: Fields, v: VideoCodec, c: Caps)
    requires c.CompressedVideo?
    ensures CompressedMeans(CompressedSet(fs, v), fs, v, c)
  {
    if CompressedFieldsRead(fs) {
      CompressedAccepts(v, ExpandDim(Lookup(fs, "width")).value, ExpandDim(Lookup(fs, "height")).value,
                        ExpandRate(Lookup(fs, "framerate")).value, ExpandColorimetry(Lookup(fs, "colorimetry")).value,
                        ExpandAlignment(Lookup(fs, "alignment")).value, c);
    }
  }

  predicate PlainEntry(media: string) {
    Untagged(media, 5) && !IsListed(media) && media != BATCH_MEDIA
  }

  lemma VideoCodecUntagged(media: string)
    requires CodecOfMedia(media).Some? && At(media, 0, 'v')
    ensures Untagged(media, 5)
  {
  }

  lemma ImageCodecUntagged(media: string)
    requires CodecOfMedia(media).Some? && At(media, 0, 'i')
    ensures Untagged(media, 5)
  {
  }

  lemma CodecUnlisted(media: string)
    requires CodecOfMedia(media).Some?
    ensures !IsListed(media)
  {
  }

  lemma CodecHasEntry(media: string)
    requires CodecOfMedia(media).Some?
    ensures PlainEntry(media)
  {
    CodecHeads(media);
    CodecUnlisted(media);
    LeafIsNoBatch(media);
    if At(media, 0, 'v') {
      VideoCodecUntagged(media);
    } else {
      ImageCodecUntagged(media);
    }
  }

  /** The same for every codec that a media type names by itself. */
  lemma CompressedDescriptionMeans(desc: string, fs: Fields, v: VideoCodec, c: Caps)
    requires CodecOfMedia(MediaOf(desc)) == Some(v) && FieldsOf(desc) == Some(fs) && c.CompressedVideo?
    ensures CompressedMeans(Parse(desc), fs, v, c)
  {
    CodecHasEntry(MediaOf(desc));
    UntaggedHasNoCodec(MediaOf(desc), 5, fs);
    ParsesAs(desc, MediaOf(desc), fs);
    CodecEntry(MediaOf(desc), fs, v);
    CompressedSetMeans(fs, v, c);
  }

  // ----- ProRes, whose variants are a list of their own -----

  /** Variants first, then widths, heights and rates. */
  function ProResProduct(vs: seq<ProResVariant>, ws: seq<Dim>, hs: seq<Dim>, rs: seq<Rate>, col: Colorimetry, al: Alignment): CapsSet {
    if vs == [] then []
    else CompressedProduct(ProRes(vs[0]), ws, hs, rs, col, al) + ProResProduct(vs[1..], ws, hs, rs, col, al)
  }

  /** The fields are read once for each variant, so not at all for none. */
  lemma {:induction false} ProResSetsAre(fs: Fields, vs: seq<ProResVariant>)
    ensures ProResSets(fs, vs).Some? <==> vs == [] || CompressedFieldsRead(fs)
    ensures CompressedFieldsRead(fs) ==>
              ProResSets(fs, vs)
              == Some(ProResProduct(vs, ExpandDim(Lookup(fs, "width")).value, ExpandDim(Lookup(fs, "height")).value,
                                    ExpandRate(Lookup(fs, "framerate")).value, ExpandColorimetry(Lookup(fs, "colorimetry")).value,
                                    ExpandAlignment(Lookup(fs, "alignment")).value))
  {
    if vs != [] {
      ProResSetsAre(fs, vs[1..]);
    }
  }

  /** The loop over the variants. */
  method ExpandProRes(fs: Fields, variants: seq<ProResVariant>) returns (r: Option<CapsSet>)
    ensures r == ProResSets(fs, variants)
  {
    var alternatives := [];
    assert variants[0..] == variants;
    FromNothing(ProResSets(fs, variants));
    for i := 0 to |variants|
      invariant ProResSets(fs, variants)
             == match ProResSets(fs, variants[i..])
                case Some(rest) => Some(alternatives + rest)
                case None => None
    {
      assert variants[i..][1..] == variants[i + 1..];
      var one := CompressedSet(fs, ProRes(variants[i]));
      if one.None? {
        return None;
      }
      ExtendBy(alternatives, one.value, ProResSets(fs, variants[i + 1..]));
      alternatives := alternatives + one.value;
    }
    assert variants[|variants|..] == [] && alternatives + [] == alternatives;
    r := Some(alternatives);
  }

  lemma FromNothing(rest: Option<CapsSet>)
    ensures rest.Some? ==> [] + rest.value == rest.value
  {
  }

  lemma ExtendBy(a: CapsSet, b: CapsSet, rest: Option<CapsSet>)
    ensures rest.Some? ==> a + (b + rest.value) == (a + b) + rest.value
  {
  }

  lemma {:induction false} ProResSize(vs: seq<ProResVariant>, ws: seq<Dim>, hs: seq<Dim>, rs: seq<Rate>, col: Colorimetry, al: Alignment)
    ensures |ProResProduct(vs, ws, hs, rs, col, al)| == |vs| * (|ws| * (|hs| * |rs|))
  {
    if vs != [] {
      CompressedSize(ProRes(vs[0]), ws, hs, rs, col, al);
      ProResSize(vs[1..], ws, hs, rs, col, al);
      SizeOf(|vs| - 1, |ws| * (|hs| * |rs|));
    }
  }

  lemma {:induction false} ProResBlock(vs: seq<ProResVariant>, ws: seq<Dim>, hs: seq<Dim>, rs: seq<Rate>, col: Colorimetry, al: Alignment,
                                       i: nat, m: nat, at: nat)
    requires i < |vs| && m == |ws| * (|hs| * |rs|) && at < m
    ensures |CompressedProduct(ProRes(vs[i]), ws, hs, rs, col, al)| == m
    ensures i * m + at < |ProResProduct(vs, ws, hs, rs, col, al)|
    ensures ProResProduct(vs, ws, hs, rs, col, al)[i * m + at] == CompressedProduct(ProRes(vs[i]), ws, hs, rs, col, al)[at]
    decreases |vs|
  {
    CompressedSize(ProRes(vs[0]), ws, hs, rs, col, al);
    ProResSize(vs[1..], ws, hs, rs, col, al);
    BlockAt(CompressedProduct(ProRes(vs[0]), ws, hs, rs, col, al), ProResProduct(vs[1..], ws, hs, rs, col, al), m, |vs| - 1, i, at);
    if i > 0 {
      ProResBlock(vs[1..], ws, hs, rs, col, al, i - 1, m, at);
    }
  }

  lemma ProResIsLexicographic(vs: seq<ProResVariant>, ws: seq<Dim>, hs: seq<Dim>, rs: seq<Rate>, col: Colorimetry, al: Alignment,
                              row: nat, plane: nat, i: nat, j: nat, k: nat, l: nat, at: nat, place: nat)
    requires row == |hs| * |rs| && plane == |ws| * row && place == i * plane + at
    requires i < |vs| && j < |ws| && k < |hs| && l < |rs| && at == j * row + (k * |rs| + l)
    ensures |ProResProduct(vs, ws, hs, rs, col, al)| == |vs| * plane
    ensures place < |ProResProduct(vs, ws, hs, rs, col, al)|
    ensures ProResProduct(vs, ws, hs, rs, col, al)[place] == CompressedVideo(ProRes(vs[i]), ws[j], hs[k], rs[l], col, al)
  {
    ProResSize(vs, ws, hs, rs, col, al);
    CompressedIsLexicographic(ProRes(vs[i]), ws, hs, rs, col, al, row, j, k, l, k * |rs| + l, at);
    ProResBlock(vs, ws, hs, rs, col, al, i, plane, at);
  }

  lemma {:induction false} ProResAccepts(vs: seq<ProResVariant>, ws: seq<Dim>, hs: seq<Dim>, rs: seq<Rate>, col: Colorimetry,
                                         al: Alignment, c: Caps)
    requires c.CompressedVideo?
    ensures Accepts(ProResProduct(vs, ws, hs, rs, col, al), c)
       <==> (c.codec.ProRes? && c.codec.variant in vs && Accepts(CompressedProduct(c.codec, ws, hs, rs, col, al), c))
  {
    if vs != [] {
      ProResAccepts(vs[1..], ws, hs, rs, col, al, c);
      var one, rest := CompressedProduct(ProRes(vs[0]), ws, hs, rs, col, al), ProResProduct(vs[1..], ws, hs, rs, col, al);
      AcceptsConcat(one, rest, c);
      CompressedAccepts(ProRes(vs[0]), ws, hs, rs, col, al, c);
      assert vs == [vs[0]] + vs[1..];
    }
  }

  lemma AcceptsConcat(a: CapsSet, b: CapsSet, c: Caps)
    ensures Accepts(a + b, c) <==> Accepts(a, c) || Accepts(b, c)
  {
    if Accepts(a, c) {
      var i :| 0 <= i < |a| && Intersect(a[i], c).Some?;
      assert (a + b)[i] == a[i];
    }
    if Accepts(b, c) {
      var i :| 0 <= i < |b| && Intersect(b[i], c).Some?;
      assert (a + b)[|a| + i] == b[i];
    }
  }

  function VariantsOf(fs: Fields): Option<seq<ProResVariant>> {
    Expand(Lookup(fs, "variant"), PRORES_VARIANTS, ParseProRes)
  }

  lemma ProResDescriptionParses(desc: string, fs: Fields)
    requires MediaOf(desc) == "video/x-prores" && FieldsOf(desc) == Some(fs)
    ensures Parse(desc) == match VariantsOf(fs) case Some(vs) => ProResSets(fs, vs) case None => None
  {
    assert Untagged("video/x-prores", 5);
    UntaggedHasNoCodec("video/x-prores", 5, fs);
    LeafIsNoBatch("video/x-prores");
    ParsesAs(desc, "video/x-prores", fs);
    ProResEntry(fs);
  }

  /** A ProRes description parses exactly when its variants read and, if it lists any, its
      fields do; then it accepts a caps exactly when the variant is listed and every field
      overlaps. */
  lemma ProResDescriptionMeans(desc: string, fs: Fields, c: Caps)
    requires MediaOf(desc) == "video/x-prores" && FieldsOf(desc) == Some(fs) && c.CompressedVideo?
    ensures Parse(desc).Some? <==> VariantsOf(fs).Some? && (VariantsOf(fs).value == [] || CompressedFieldsRead(fs))
    ensures Parse(desc).Some? ==>
              (Accepts(Parse(desc).value, c)
               <==> c.codec.ProRes? && c.codec.variant in VariantsOf(fs).value
                    && CompressedFieldsRead(fs) && CompressedFieldsAccept(fs, c))
  {
    ProResDescriptionParses(desc, fs);
    if VariantsOf(fs).Some? {
      ProResSetMeans(fs, VariantsOf(fs).value, c);
    }
  }

  lemma ProResSetMeans(fs: Fields, vs: seq<ProResVariant>, c: Caps)
    requires c.CompressedVideo?
    ensures ProResSets(fs, vs).Some? <==> vs == [] || CompressedFieldsRead(fs)
    ensures ProResSets(fs, vs).Some? ==>
              (Accepts(ProResSets(fs, vs).value, c)
               <==> c.codec.ProRes? && c.codec.variant in vs && CompressedFieldsRead(fs) && CompressedFieldsAccept(fs, c))
  {
    ProResSetsAre(fs, vs);
    if CompressedFieldsRead(fs) {
      var ws, hs, rs := ExpandDim(Lookup(fs, "width")).value, ExpandDim(Lookup(fs, "height")).value, ExpandRate(Lookup(fs, "framerate")).value;
      var col, al := ExpandColorimetry(Lookup(fs, "colorimetry")).value, ExpandAlignment(Lookup(fs, "alignment")).value;
      ProResAccepts(vs, ws, hs, rs, col, al, c);
      CompressedAccepts(c.codec, ws, hs, rs, col, al, c);
    }
  }

  // ----- audio -----

  predicate AudioFieldsRead(fs: Fields) {
    && Expand(Lookup(fs, "channels"), [ANY_CHANNELS], ParseU8).Some?
    && Expand(Lookup(fs, "rate"), [ANY_SAMPLE_RATE], ParseU32).Some?
    && ExpandMask(Lookup(fs, "channel-mask")).Some?
  }

  predicate AudioFieldsAccept(fs: Fields, c: Caps)
    requires AudioFieldsRead(fs) && c.Audio?
  {
    && AnyChannels(Expand(Lookup(fs, "channels"), [ANY_CHANNELS], ParseU8).value, c.channels)
    && AnySampleRate(Expand(Lookup(fs, "rate"), [ANY_SAMPLE_RATE], ParseU32).value, c.sampleRate)
    && IntersectLayout(ExpandMask(Lookup(fs, "channel-mask")).value, c.layout).Some?
  }

  /** `alts` is what an audio description in one of `formats` with fields `fs` stands for. */
  predicate AudioMeans(alts: Option<CapsSet>, fs: Fields, formats: seq<AudioFormat>, c: Caps)
    requires c.Audio?
  {
    && (alts.Some? <==> AudioFieldsRead(fs))
    && (alts.Some? ==> (Accepts(alts.value, c) <==> c.audioFormat in formats && AudioFieldsAccept(fs, c)))
  }

  lemma AudioSetMeans(fs: Fields, formats: seq<AudioFormat>, c: Caps)
    requires c.Audio?
    ensures AudioMeans(AudioSet(fs, formats), fs, formats, c)
  {
    if AudioFieldsRead(fs) {
      AudioAccepts(formats, Expand(Lookup(fs, "channels"), [ANY_CHANNELS], ParseU8).value,
                   Expand(Lookup(fs, "rate"), [ANY_SAMPLE_RATE], ParseU32).value,
                   ExpandMask(Lookup(fs, "channel-mask")).value, c);
    }
  }

  function PcmFormatsOf(fs: Fields): Option<seq<AudioFormat>> {
    Expand(Lookup(fs, "format"), PCM_FORMATS, ParseAudioFormat)
  }

  /** A raw audio description parses exactly when its formats and its fields read. */
  lemma PcmDescriptionMeans(desc: string, fs: Fields, c: Caps)
    requires MediaOf(desc) == "audio/x-raw" && FieldsOf(desc) == Some(fs) && c.Audio?
    ensures Parse(desc).Some? <==> PcmFormatsOf(fs).Some? && AudioFieldsRead(fs)
    ensures Parse(desc).Some? ==> AudioMeans(Parse(desc), fs, PcmFormatsOf(fs).value, c)
  {
    RawIsNoTag(fs);
    MediaIsNotBatch();
    ParsesAs(desc, "audio/x-raw", fs);
    RawEntries(fs);
    if PcmFormatsOf(fs).Some? {
      AudioSetMeans(fs, PcmFormatsOf(fs).value, c);
    }
  }

  lemma CodedAudioEntry(media: string)
    requires AudioOfMedia(media).Some?
    ensures PlainEntry(media)
  {
  }

  /** The same for every coded format that a media type names. */
  lemma CodedAudioDescriptionMeans(desc: string, fs: Fields, f: AudioFormat, c: Caps)
    requires AudioOfMedia(MediaOf(desc)) == Some(f) && FieldsOf(desc) == Some(fs) && c.Audio?
    ensures AudioMeans(Parse(desc), fs, [f], c)
  {
    CodedAudioEntry(MediaOf(desc));
    UntaggedHasNoCodec(MediaOf(desc), 5, fs);
    ParsesAs(desc, MediaOf(desc), fs);
    AudioEntry(MediaOf(desc), fs, f);
    AudioSetMeans(fs, [f], c);
  }

  // ----- codecs known by their container's tag -----

  lemma TaggedParses(desc: string, fs: Fields)
    requires FieldsOf(desc) == Some(fs) && TaggedCodecOf(MediaOf(desc), fs).Some?
    ensures Parse(desc) == LeafSet(MediaOf(desc), fs)
  {
    BatchIsNoTag(fs);
  }

  /** A media type, with its fields, that tells a tag of either name space. */
  lemma TaggedVideoDescriptionMeans(desc: string, fs: Fields, tag: CodecTag, c: Caps)
    requires FieldsOf(desc) == Some(fs) && TaggedCodecOf(MediaOf(desc), fs) == Some(TaggedVideo(tag)) && c.CompressedVideo?
    ensures CompressedMeans(Parse(desc), fs, VideoCodec.Tagged(tag), c)
  {
    TaggedParses(desc, fs);
    CompressedSetMeans(fs, VideoCodec.Tagged(tag), c);
  }

  lemma TaggedAudioDescriptionMeans(desc: string, fs: Fields, tag: CodecTag, c: Caps)
    requires FieldsOf(desc) == Some(fs) && TaggedCodecOf(MediaOf(desc), fs) == Some(TaggedAudio(tag)) && c.Audio?
    ensures AudioMeans(Parse(desc), fs, [AudioFormat.Tagged(tag)], c)
  {
    TaggedParses(desc, fs);
    AudioSetMeans(fs, [AudioFormat.Tagged(tag)], c);
  }

  function RiffField(kind: string): string {
    if kind == "video" then "fourcc" else "codec_id"
  }

  lemma RiffIsNoMedia(kind: string, fs: Fields)
    requires kind == "video" || kind == "audio"
    ensures UntaggedSet(kind + "/" + "x-avi-unknown", fs) == None
  {
    var media := kind + "/" + "x-avi-unknown";
    assert media[0] == kind[0] && media[1] == kind[1];
    assert media[6] == 'x' && media[7] == '-' && media[8] == 'a' && media[9] == 'v' && media[10] == 'i';
    AviIsNoCodec(media);
    AviIsNoContainer(media);
    AviIsUnlisted(media);
    AviIsNoOther(media);
    StreamHeads(media);
    FieldlessHeads(media);
  }

  lemma AviIsNoCodec(media: string)
    requires At(media, 8, 'a') && At(media, 9, 'v') && At(media, 10, 'i')
    ensures CodecOfMedia(media) == None
  {
  }

  lemma AviIsNoContainer(media: string)
    requires At(media, 8, 'a') && At(media, 9, 'v') && At(media, 10, 'i')
    ensures VideoContainerOfMedia(media) == None
  {
  }

  lemma AviIsUnlisted(media: string)
    requires At(media, 8, 'a') && At(media, 9, 'v') && At(media, 10, 'i')
    ensures !IsListed(media)
  {
  }

  lemma AviIsNoOther(media: string)
    requires At(media, 8, 'a') && At(media, 9, 'v') && At(media, 10, 'i')
    ensures AudioOfMedia(media) == None && AudioContainerOfMedia(media) == None
  {
  }

  lemma RiffCodecOf(kind: string, fs: Fields)
    requires kind == "video" || kind == "audio"
    ensures TaggedCodecOf(kind + "/" + "x-avi-unknown", fs)
         == match RiffTag(fs, RiffField(kind))
            case Some(tag) => TaggedOfKind(kind, CodecTag(Riff, tag))
            case None => None
  {
    RiffSubtype();
    RiffMedia(kind);
  }

  /** A RIFF media type stands for the tag in its field, and for nothing without one. */
  lemma RiffVideoDescriptionMeans(desc: string, fs: Fields, c: Caps)
    requires MediaOf(desc) == "video" + "/" + "x-avi-unknown" && FieldsOf(desc) == Some(fs) && c.CompressedVideo?
    ensures RiffTag(fs, "fourcc").None? ==> Parse(desc) == None
    ensures RiffTag(fs, "fourcc").Some? ==>
              CompressedMeans(Parse(desc), fs, VideoCodec.Tagged(CodecTag(Riff, RiffTag(fs, "fourcc").value)), c)
  {
    RiffCodecOf("video", fs);
    RiffMedia("video");
    match RiffTag(fs, "fourcc")
    case Some(tag) =>
      KindsRead(CodecTag(Riff, tag));
      TaggedVideoDescriptionMeans(desc, fs, CodecTag(Riff, tag), c);
    case None =>
      ParsesAs(desc, MediaOf(desc), fs);
      RiffIsNoMedia("video", fs);
  }

  lemma RiffAudioDescriptionMeans(desc: string, fs: Fields, c: Caps)
    requires MediaOf(desc) == "audio" + "/" + "x-avi-unknown" && FieldsOf(desc) == Some(fs) && c.Audio?
    ensures RiffTag(fs, "codec_id").None? ==> Parse(desc) == None
    ensures RiffTag(fs, "codec_id").Some? ==>
              AudioMeans(Parse(desc), fs, [AudioFormat.Tagged(CodecTag(Riff, RiffTag(fs, "codec_id").value))], c)
  {
    RiffCodecOf("audio", fs);
    RiffMedia("audio");
    match RiffTag(fs, "codec_id")
    case Some(tag) =>
      KindsRead(CodecTag(Riff, tag));
      TaggedAudioDescriptionMeans(desc, fs, CodecTag(Riff, tag), c);
    case None =>
      ParsesAs(desc, MediaOf(desc), fs);
      RiffIsNoMedia("audio", fs);
  }

  lemma MovHeadOnly(kind: string, x: string, fs: Fields)
    requires kind == "video" || kind == "audio"
    ensures UntaggedSet(MovHead(kind) + x, fs) == None && MovHead(kind) + x != BATCH_MEDIA
  {
    var media := MovHead(kind) + x;
    MovHeadIsPlain(kind);
    assert media[0] == MovHead(kind)[0] && media[1] == MovHead(kind)[1];
    assert media[6] == MovHead(kind)[6] && media[8] == MovHead(kind)[8];
    MovIsNoMedia(media, fs);
    LeafIsNoBatch(media);
  }

  /** A MOV media type stands for the tag its last characters spell in UTF-8, and for nothing
      when they do not take four bytes. */
  lemma MovVideoDescriptionMeans(desc: string, fs: Fields, x: string, c: Caps)
    requires MediaOf(desc) == MovHead("video") + x && FieldsOf(desc) == Some(fs) && c.CompressedVideo?
    ensures TagFromBytes(Utf8Bytes(x)).None? ==> Parse(desc) == None
    ensures TagFromBytes(Utf8Bytes(x)).Some? ==>
              CompressedMeans(Parse(desc), fs, VideoCodec.Tagged(CodecTag(Mov, TagFromBytes(Utf8Bytes(x)).value)), c)
  {
    MovCodec("video", x, fs);
    match TagFromBytes(Utf8Bytes(x))
    case Some(tag) =>
      KindsRead(CodecTag(Mov, tag));
      TaggedVideoDescriptionMeans(desc, fs, CodecTag(Mov, tag), c);
    case None =>
      MovHeadOnly("video", x, fs);
      ParsesAs(desc, MediaOf(desc), fs);
  }

  lemma MovAudioDescriptionMeans(desc: string, fs: Fields, x: string, c: Caps)
    requires MediaOf(desc) == MovHead("audio") + x && FieldsOf(desc) == Some(fs) && c.Audio?
    ensures TagFromBytes(Utf8Bytes(x)).None? ==> Parse(desc) == None
    ensures TagFromBytes(Utf8Bytes(x)).Some? ==>
              AudioMeans(Parse(desc), fs, [AudioFormat.Tagged(CodecTag(Mov, TagFromBytes(Utf8Bytes(x)).value))], c)
  {
    MovCodec("audio", x, fs);
    match TagFromBytes(Utf8Bytes(x))
    case Some(tag) =>
      KindsRead(CodecTag(Mov, tag));
      TaggedAudioDescriptionMeans(desc, fs, CodecTag(Mov, tag), c);
    case None =>
      MovHeadOnly("audio", x, fs);
      ParsesAs(desc, MediaOf(desc), fs);
  }
}
