/** Why two caps sets have nothing in common: the fields no alternative of one shares with
    any of the other. */
module CapsConflicts {
  import opened Options
  import opened Integers
  import opened Strings
  import opened Caps
  import opened CapsSets
  import opened CapsMeaning
  import opened CapsPrinter
  import opened CapsParser
  import opened CapsNames
  import opened CapsScan
  import opened CapsValues
  import opened CapsLeaves
  import opened CapsMovTags
  import opened CapsBatches

  datatype Field = MediaType | Format | Width | Height | Framerate | Channels | SampleRate

  const FIELDS: seq<Field> := [MediaType, Format, Width, Height, Framerate, Channels, SampleRate]

  datatype Conflict = Conflict(field: Field, upstream: seq<string>, downstream: seq<string>)

  /** What stands before the first comma. */
  function UpToComma(s: string): string {
    match SplitOnce(s, ',')
    case Some(p) => p.0
    case None => s
  }

  function MediaTypeOf(c: Caps): string {
    UpToComma(Print(c))
  }

  predicate IsVideo(c: Caps) {
    c.CompressedVideo? || c.RawVideo?
  }

  /** Whether the field of the two caps overlaps, or `None` when not both have it. */
  function Overlap(f: Field, a: Caps, b: Caps): Option<bool> {
    match f
    case MediaType => Some(MediaTypeOf(a) == MediaTypeOf(b))
    case Format =>
      if a.RawVideo? && b.RawVideo? then Some(a.format == b.format)
      else if a.Audio? && b.Audio? && IsPcm(a.audioFormat) && IsPcm(b.audioFormat)
      then Some(a.audioFormat == b.audioFormat) else None
    case Width => if IsVideo(a) && IsVideo(b) then Some(IntersectDim(a.width, b.width).Some?) else None
    case Height => if IsVideo(a) && IsVideo(b) then Some(IntersectDim(a.height, b.height).Some?) else None
    case Framerate => if IsVideo(a) && IsVideo(b) then Some(IntersectRate(a.framerate, b.framerate).Some?) else None
    case Channels => if a.Audio? && b.Audio? then Some(IntersectChannels(a.channels, b.channels).Some?) else None
    case SampleRate =>
      if a.Audio? && b.Audio? then Some(IntersectSampleRate(a.sampleRate, b.sampleRate).Some?) else None
  }

  function Value(f: Field, c: Caps): Option<string> {
    match f
    case MediaType => Some(MediaTypeOf(c))
    case Format =>
      if c.RawVideo? then Some(RawFormatName(c.format)) else if c.Audio? then PcmName(c.audioFormat) else None
    case Width => if IsVideo(c) then DimText(c.width) else None
    case Height => if IsVideo(c) then DimText(c.height) else None
    case Framerate => if IsVideo(c) then RateText(c.framerate) else None
    case Channels => if c.Audio? then ChannelsText(c.channels) else None
    case SampleRate => if c.Audio? then SampleRateText(c.sampleRate) else None
  }

  /** What the comparison of a field finds, on the values its two sides allow. */
  ghost predicate Agrees(f: Field, a: Caps, b: Caps) {
    match f
    case MediaType => UpToComma(Media(a)) == UpToComma(Media(b))
    case Format => (a.RawVideo? && b.RawVideo? && a.format == b.format) || (a.Audio? && b.Audio? && a.audioFormat == b.audioFormat)
    case Width => IsVideo(a) && IsVideo(b) && exists v: u32 :: DimAllows(a.width, v) && DimAllows(b.width, v)
    case Height => IsVideo(a) && IsVideo(b) && exists v: u32 :: DimAllows(a.height, v) && DimAllows(b.height, v)
    case Framerate => IsVideo(a) && IsVideo(b) && exists v: u32 :: RateAllows(a.framerate, v) && RateAllows(b.framerate, v)
    case Channels => a.Audio? && b.Audio? && (a.channels == 0 || b.channels == 0 || a.channels == b.channels)
    case SampleRate => a.Audio? && b.Audio? && (a.sampleRate == 0 || b.sampleRate == 0 || a.sampleRate == b.sampleRate)
  }

  /** Which caps have a field. */
  predicate Has(f: Field, c: Caps) {
    match f
    case MediaType => true
    case Format => c.RawVideo? || (c.Audio? && Uncompressed(c.audioFormat))
    case Width => c.RawVideo? || c.CompressedVideo?
    case Height => c.RawVideo? || c.CompressedVideo?
    case Framerate => c.RawVideo? || c.CompressedVideo?
    case Channels => c.Audio?
    case SampleRate => c.Audio?
  }

  /** A field is compared on two caps of the kinds that have it, and agrees exactly when some
      value of it suits both. */
  lemma OverlapMeans(f: Field, a: Caps, b: Caps)
    ensures Overlap(f, a, b).Some? <==> Has(f, a) && Has(f, b) && (f.Format? ==> (a.RawVideo? <==> b.RawVideo?))
    ensures Overlap(f, a, b).Some? ==> (Overlap(f, a, b).value <==> Agrees(f, a, b))
  {
    match f
    case MediaType =>
      MediaDecides(a);
      MediaDecides(b);
    case Width =>
      if IsVideo(a) && IsVideo(b) {
        DimsAgree(a.width, b.width);
      }
    case Height =>
      if IsVideo(a) && IsVideo(b) {
        DimsAgree(a.height, b.height);
      }
    case Framerate =>
      if IsVideo(a) && IsVideo(b) {
        RatesAgree(a.framerate, b.framerate);
      }
    case _ =>
  }

  /** The value reported for a field is text that reads back as the field's value, and there
      is none exactly when the caps has no such field or leaves it open. */
  lemma ValueMeans(f: Field, c: Caps)
    ensures !Has(f, c) ==> Value(f, c) == None
    ensures Has(f, c) ==>
              match f
              case MediaType => Value(f, c) == Some(UpToComma(Media(c)))
              case Format =>
                Value(f, c).Some? && (if c.RawVideo? then ParseRawFormat(Value(f, c).value) == Some(c.format)
                                      else c.Audio? && ParseAudioFormat(Value(f, c).value) == Some(c.audioFormat))
              case Width => HasDims(c) && ExpandDim(ReadValue(Value(f, c))) == Some([c.width])
              case Height => HasDims(c) && ExpandDim(ReadValue(Value(f, c))) == Some([c.height])
              case Framerate => HasDims(c) && ExpandRate(ReadValue(Value(f, c))) == Some([c.framerate])
              case Channels => c.Audio? && Expand(ReadValue(Value(f, c)), [0], ParseU8) == Some([c.channels])
              case SampleRate => c.Audio? && Expand(ReadValue(Value(f, c)), [0], ParseU32) == Some([c.sampleRate])
  {
    if Has(f, c) {
      match f
      case MediaType => MediaDecides(c);
      case Format =>
        if c.RawVideo? {
          RawFormatReads(c.format);
        } else {
          PcmReads(c.audioFormat);
        }
      case Width => DimReads(c.width);
      case Height => DimReads(c.height);
      case Framerate => RateReads(c.framerate);
      case Channels => ChannelsRead(c.channels);
      case SampleRate => SampleRateReads(c.sampleRate);
    }
  }

  // ----- what a report says -----

  type Overlaps = (Caps, Caps) -> Option<bool>

  /** The field's comparison, as the field table holds it. */
  function OverlapsOf(f: Field): Overlaps {
    (a, b) => Overlap(f, a, b)
  }

  ghost predicate Shared(overlaps: Overlaps, up: CapsSet, down: CapsSet) {
    exists i, j :: 0 <= i < |up| && 0 <= j < |down| && overlaps(up[i], down[j]) == Some(true)
  }

  ghost predicate Compared(overlaps: Overlaps, up: CapsSet, down: CapsSet) {
    exists i, j :: 0 <= i < |up| && 0 <= j < |down| && overlaps(up[i], down[j]).Some?
  }

  /** Compared on at least one pair of alternatives and shared by none. */
  ghost predicate InConflict(f: Field, up: CapsSet, down: CapsSet) {
    Compared(OverlapsOf(f), up, down) && !Shared(OverlapsOf(f), up, down)
  }

  type Values = Caps -> Option<string>

  function ValuesOf(f: Field): Values {
    c => Value(f, c)
  }

  ghost predicate HasValue(value: Values, s: CapsSet, v: string) {
    exists k :: 0 <= k < |s| && value(s[k]) == Some(v)
  }

  /** The values of a field in the set, without repeats. */
  ghost predicate ListsValues(value: Values, s: CapsSet, vs: seq<string>) {
    && (forall v :: v in vs <==> HasValue(value, s, v))
    && (forall p, q :: 0 <= p < q < |vs| ==> vs[p] != vs[q])
  }

  ghost predicate Reports(r: Conflict, up: CapsSet, down: CapsSet) {
    && InConflict(r.field, up, down)
    && ListsValues(ValuesOf(r.field), up, r.upstream)
    && ListsValues(ValuesOf(r.field), down, r.downstream)
  }

  // ----- the loops -----

  method DistinctValues(value: Values, s: CapsSet) returns (vs: seq<string>)
    ensures ListsValues(value, s, vs)
  {
    vs := [];
    for i := 0 to |s|
      invariant ListsValues(value, s[..i], vs)
    {
      ghost var before := vs;
      var v := value(s[i]);
      if v.Some? && v.value !in vs {
        vs := vs + [v.value];
      }
      ValuesStep(value, s, i, before, vs);
    }
    assert s[..|s|] == s;
  }

  lemma ValuesStep(value: Values, s: CapsSet, i: nat, before: seq<string>, after: seq<string>)
    requires i < |s| && ListsValues(value, s[..i], before)
    requires after == (if value(s[i]).Some? && value(s[i]).value !in before then before + [value(s[i]).value] else before)
    ensures ListsValues(value, s[..i + 1], after)
  {
    forall v ensures v in after <==> HasValue(value, s[..i + 1], v) {
      ValueStep(value, s, i, v);
    }
  }

  lemma ValueStep(value: Values, s: CapsSet, i: nat, v: string)
    requires i < |s|
    ensures HasValue(value, s[..i + 1], v) <==> HasValue(value, s[..i], v) || value(s[i]) == Some(v)
  {
    var a, b := s[..i], s[..i + 1];
    if HasValue(value, b, v) {
      var k :| 0 <= k < |b| && value(b[k]) == Some(v);
      assert k < i ==> a[k] == b[k];
    }
    if HasValue(value, a, v) {
      var k :| 0 <= k < |a| && value(a[k]) == Some(v);
      assert b[k] == a[k];
    }
    assert b[i] == s[i];
  }

  method IsInConflict(overlaps: Overlaps, up: CapsSet, down: CapsSet) returns (conflict: bool)
    ensures conflict <==> Compared(overlaps, up, down) && !Shared(overlaps, up, down)
  {
    conflict := false;
    for i := 0 to |up|
      invariant conflict <==> exists p, q :: 0 <= p < i && 0 <= q < |down| && overlaps(up[p], down[q]).Some?
      invariant forall p, q :: 0 <= p < i && 0 <= q < |down| ==> overlaps(up[p], down[q]) != Some(true)
    {
      ghost var earlier := conflict;
      for j := 0 to |down|
        invariant conflict <==> earlier || exists q :: 0 <= q < j && overlaps(up[i], down[q]).Some?
        invariant forall q :: 0 <= q < j ==> overlaps(up[i], down[q]) != Some(true)
      {
        var overlap := overlaps(up[i], down[j]);
        if overlap == Some(true) {
          assert Shared(overlaps, up, down);
          return false;
        }
        conflict := conflict || overlap.Some?;
      }
    }
  }

  /** The fields in conflict among the first `n`, in table order. */
  ghost function Conflicted(n: nat, up: CapsSet, down: CapsSet): seq<Field>
    requires n <= |FIELDS|
  {
    if n == 0 then []
    else Conflicted(n - 1, up, down) + (if InConflict(FIELDS[n - 1], up, down) then [FIELDS[n - 1]] else [])
  }

  ghost predicate ReportsOn(report: seq<Conflict>, fields: seq<Field>, up: CapsSet, down: CapsSet) {
    |report| == |fields| && forall k :: 0 <= k < |report| ==> report[k].field == fields[k] && Reports(report[k], up, down)
  }

  /** One entry for each field in conflict, with both sides' values. */
  method ConflictingFields(up: CapsSet, down: CapsSet) returns (report: seq<Conflict>)
    ensures ReportsOn(report, Conflicted(|FIELDS|, up, down), up, down)
  {
    report := [];
    for n := 0 to |FIELDS|
      invariant ReportsOn(report, Conflicted(n, up, down), up, down)
    {
      var conflict := IsInConflict(OverlapsOf(FIELDS[n]), up, down);
      if conflict {
        var u := DistinctValues(ValuesOf(FIELDS[n]), up);
        var d := DistinctValues(ValuesOf(FIELDS[n]), down);
        ReportStep(report, Conflicted(n, up, down), up, down, Conflict(FIELDS[n], u, d));
        report := report + [Conflict(FIELDS[n], u, d)];
      }
    }
  }

  lemma ReportStep(report: seq<Conflict>, fields: seq<Field>, up: CapsSet, down: CapsSet, r: Conflict)
    requires ReportsOn(report, fields, up, down) && Reports(r, up, down)
    ensures ReportsOn(report + [r], fields + [r.field], up, down)
  {
  }

  lemma {:induction false} ConflictedAmong(n: nat, f: Field, up: CapsSet, down: CapsSet)
    requires n <= |FIELDS|
    ensures f in Conflicted(n, up, down) <==> f in FIELDS[..n] && InConflict(f, up, down)
  {
    if n > 0 {
      ConflictedAmong(n - 1, f, up, down);
      assert FIELDS[..n] == FIELDS[..n - 1] + [FIELDS[n - 1]];
    }
  }

  /** A field is reported exactly when it is in conflict. */
  lemma ReportIsExact(f: Field, up: CapsSet, down: CapsSet)
    ensures f in Conflicted(|FIELDS|, up, down) <==> InConflict(f, up, down)
  {
    EveryField(f);
    assert FIELDS[..|FIELDS|] == FIELDS;
    ConflictedAmong(|FIELDS|, f, up, down);
  }

  lemma EveryField(f: Field)
    ensures f in FIELDS
  {
    match f
    case MediaType => assert FIELDS[0] == f;
    case Format => assert FIELDS[1] == f;
    case Width => assert FIELDS[2] == f;
    case Height => assert FIELDS[3] == f;
    case Framerate => assert FIELDS[4] == f;
    case Channels => assert FIELDS[5] == f;
    case SampleRate => assert FIELDS[6] == f;
  }

  // ----- reports are sound -----

  lemma UpToCommaOfMore(m: string, y: string)
    ensures UpToComma(m + "," + y) == UpToComma(m)
  {
    if ',' in m {
      var i :| 0 <= i < |m| && m[i] == ',';
      HasSplit(m, i);
      SplitOnceShrinks(m, ',');
      var (a, b) := SplitOnce(m, ',').value;
      assert m + "," + y == a + "," + (b + "," + y);
      SplitOnceAt(a, ',', b + "," + y);
    } else {
      SplitOnceNone(m, ',');
      SplitOnceAt(m, ',', y);
    }
  }

  lemma {:induction false} HasSplit(s: string, i: nat)
    requires i < |s| && s[i] == ','
    ensures SplitOnce(s, ',').Some?
  {
    if s[0] != ',' {
      HasSplit(s[1..], i - 1);
    }
  }

  lemma MediaDecides(c: Caps)
    ensures MediaTypeOf(c) == UpToComma(Media(c))
  {
    if Bare(c) {
      LeafText(c);
    } else {
      var y := OpenText(c);
      UpToCommaOfMore(Media(c), y);
    }
  }

  /** Caps that intersect overlap in every field they are compared on. */
  lemma IntersectingOverlap(f: Field, a: Caps, b: Caps)
    ensures Intersect(a, b).Some? ==> Overlap(f, a, b) != Some(false)
  {
    match f
    case MediaType => IntersectingMedia(a, b);
    case Format => IntersectingFormat(a, b);
    case Channels =>
    case SampleRate =>
    case _ =>
  }

  lemma IntersectingPrintAlike(a: Caps, b: Caps)
    ensures Intersect(a, b).Some? ==> Media(a) == Media(b)
  {
  }

  lemma IntersectingMedia(a: Caps, b: Caps)
    ensures Intersect(a, b).Some? ==> MediaTypeOf(a) == MediaTypeOf(b)
  {
    MediaDecides(a);
    MediaDecides(b);
    IntersectingPrintAlike(a, b);
  }

  lemma IntersectingFormat(a: Caps, b: Caps)
    ensures Intersect(a, b).Some? ==> Overlap(Format, a, b) != Some(false)
  {
  }

  lemma NotShared(f: Field, up: CapsSet, down: CapsSet, i: nat, j: nat)
    requires !Shared(OverlapsOf(f), up, down) && i < |up| && j < |down|
    ensures Overlap(f, up[i], down[j]) != Some(true)
  {
    assert OverlapsOf(f)(up[i], down[j]) == Overlap(f, up[i], down[j]);
  }

  /** No pair of alternatives that a reported field was compared on can intersect. */
  lemma ReportIsSound(f: Field, up: CapsSet, down: CapsSet, i: nat, j: nat)
    requires InConflict(f, up, down)
    requires i < |up| && j < |down| && Overlap(f, up[i], down[j]).Some?
    ensures Intersect(up[i], down[j]) == None
  {
    IntersectingOverlap(f, up[i], down[j]);
    NotShared(f, up, down, i, j);
  }

  lemma {:induction false} NoOverlapNoRow(a: Caps, bs: seq<Caps>)
    requires forall j :: 0 <= j < |bs| ==> Intersect(a, bs[j]) == None
    ensures Row(a, bs) == []
  {
    if bs != [] {
      NoOverlapNoRow(a, bs[1..]);
    }
  }

  lemma {:induction false} NoOverlapNoRows(xs: seq<Caps>, bs: seq<Caps>)
    requires forall i, j :: 0 <= i < |xs| && 0 <= j < |bs| ==> Intersect(xs[i], bs[j]) == None
    ensures Rows(xs, bs) == []
  {
    if xs != [] {
      NoOverlapNoRow(xs[0], bs);
      NoOverlapNoRows(xs[1..], bs);
    }
  }

  /** A reported field that every alternative of both sides has, as every caps has a media
      type, means that the sets have nothing in common. */
  lemma ConflictEmptiesTheLink(f: Field, up: CapsSet, down: CapsSet)
    requires InConflict(f, up, down)
    requires f.MediaType? || forall i, j :: 0 <= i < |up| && 0 <= j < |down| ==> Overlap(f, up[i], down[j]).Some?
    ensures Meet(up, down) == []
  {
    forall i, j | 0 <= i < |up| && 0 <= j < |down| ensures Intersect(up[i], down[j]) == None {
      ReportIsSound(f, up, down, i, j);
    }
    NoOverlapNoRows(up, down);
  }

  /** The other direction, for one raw video alternative on each side: when the two have
      nothing in common, either a field is reported or it is the scan structure or the
      colorimetry, which no report covers. */
  lemma RawMismatchIsNamed(a: Caps, b: Caps)
    requires a.RawVideo? && b.RawVideo?
    ensures Intersect(a, b) == None
       <==> (InConflict(Format, [a], [b]) || InConflict(Width, [a], [b]) || InConflict(Height, [a], [b])
             || InConflict(Framerate, [a], [b])
             || IntersectInterlace(a.interlace, b.interlace) == None
             || IntersectColorimetry(a.colorimetry, b.colorimetry) == None)
  {
    OnePair(Format, a, b);
    OnePair(Width, a, b);
    OnePair(Height, a, b);
    OnePair(Framerate, a, b);
  }

  // ----- one media type, two codecs -----

  /** Tags whose media types read the same up to the first comma: a RIFF tag is not in its
      media type at all. */
  predicate SameTagName(a: CodecTag, b: CodecTag) {
    a.namespace == b.namespace && (a.namespace.Riff? || UpToComma(TagChars(a.tag)) == UpToComma(TagChars(b.tag)))
  }

  /** Codecs that no media type tells apart. */
  predicate AlikeCodecs(a: VideoCodec, b: VideoCodec) {
    || (a.ProRes? && b.ProRes?)
    || ((a.Mpeg2? || a.Mpeg4Part2?) && (b.Mpeg2? || b.Mpeg4Part2?))
    || (a.Tagged? && b.Tagged? && SameTagName(a.codecTag, b.codecTag))
  }

  /** Coded audio formats that no media type tells apart. */
  predicate AlikeFormats(a: AudioFormat, b: AudioFormat) {
    || ((a.Aac? || a.Mp2? || a.Mp3?) && (b.Aac? || b.Mp2? || b.Mp3?))
    || (a.Tagged? && b.Tagged? && SameTagName(a.audioTag, b.audioTag))
  }

  lemma PlainUpToComma(s: string)
    requires Plain(s)
    ensures UpToComma(s) == s
  {
    PlainIsUnmarked(s);
    SplitOnceNone(s, ',');
  }

  lemma UpToCommaAfter(head: string, t: string)
    requires Plain(head)
    ensures UpToComma(head + t) == head + UpToComma(t)
  {
    PlainIsUnmarked(head);
    if ',' in t {
      var i :| 0 <= i < |t| && t[i] == ',';
      HasSplit(t, i);
      SplitOnceShrinks(t, ',');
      var (a, b) := SplitOnce(t, ',').value;
      assert head + t == (head + a) + "," + b;
      SplitOnceAt(head + a, ',', b);
    } else {
      SplitOnceNone(t, ',');
      SplitOnceNone(head + t, ',');
    }
  }

  lemma TaggedMediaType(kind: string, tag: CodecTag)
    requires kind == "video" || kind == "audio"
    ensures UpToComma(TaggedMedia(kind, tag))
         == if tag.namespace.Riff? then kind + "/" + "x-avi-unknown" else MovHead(kind) + UpToComma(TagChars(tag.tag))
  {
    match tag.namespace
    case Riff =>
      RiffMedia(kind);
      PlainUpToComma(kind + "/" + "x-avi-unknown");
    case Mov =>
      MovHeadIsPlain(kind);
      UpToCommaAfter(MovHead(kind), TagChars(tag.tag));
      assert kind + "/" + (MOV_PREFIX + TagChars(tag.tag)) == MovHead(kind) + TagChars(tag.tag);
  }

  lemma RiffMediaSpells(kind: string)
    requires kind == "video" || kind == "audio"
    ensures
      var m := kind + "/" + "x-avi-unknown";
      At(m, 8, 'a') && At(m, 9, 'v') && At(m, 10, 'i')
  {
  }

  lemma TaggedMediaTypes(kind: string, a: CodecTag, b: CodecTag)
    requires kind == "video" || kind == "audio"
    ensures UpToComma(TaggedMedia(kind, a)) == UpToComma(TaggedMedia(kind, b)) <==> SameTagName(a, b)
  {
    TaggedMediaType(kind, a);
    TaggedMediaType(kind, b);
    RiffMediaSpells(kind);
    MovHeadIsPlain(kind);
    SameTail(MovHead(kind), UpToComma(TagChars(a.tag)), UpToComma(TagChars(b.tag)));
  }

  lemma SameTail(head: string, a: string, b: string)
    ensures head + a == head + b <==> a == b
    ensures forall i, c :: At(head, i, c) ==> At(head + a, i, c) && At(head + b, i, c)
  {
    if head + a == head + b {
      assert (head + a)[|head|..] == a && (head + b)[|head|..] == b;
    }
  }

  lemma TaggedIsNoOther(kind: string, tag: CodecTag, media: string)
    requires (kind == "video" || kind == "audio") && Untagged(media, 5)
    ensures UpToComma(TaggedMedia(kind, tag)) != media
  {
    TaggedMediaType(kind, tag);
    RiffMediaSpells(kind);
    MovHeadIsPlain(kind);
    SameTail(MovHead(kind), UpToComma(TagChars(tag.tag)), []);
  }

  /** The codecs whose media type the parser gives another meaning, or none. */
  lemma UnreadMedia()
    ensures CodecOfMedia("video/mpeg") == None && CodecOfMedia("image/x-jxsc") == None && CodecOfMedia("video/x-prores") == None
    ensures "video/mpeg" != "video/x-prores"
  {
  }

  lemma UntaggedMediaTypes(a: VideoCodec, b: VideoCodec)
    requires !a.Tagged? && !b.Tagged?
    ensures CodecMedia(a) == CodecMedia(b) <==> a == b || AlikeCodecs(a, b)
  {
    UnreadMedia();
    UnreadCodec(a);
    UnreadCodec(b);
  }

  lemma UnreadCodec(c: VideoCodec)
    requires !c.Tagged?
    ensures CodecOfMedia(CodecMedia(c))
         == if c.Mpeg2? || c.Mpeg4Part2? || c.JpegXs? || c.ProRes? then None else Some(c)
  {
    UnreadMedia();
    if !(c.Mpeg2? || c.Mpeg4Part2? || c.JpegXs? || c.ProRes?) {
      CodecReads(c);
    }
  }

  lemma CodecMediaAlone(c: VideoCodec)
    requires !c.Tagged?
    ensures UpToComma(CodecMedia(c)) == CodecMedia(c) && Untagged(CodecMedia(c), 5)
  {
    CodecMediaPlain(c);
    CodecMediaUntagged(c);
    PlainUpToComma(CodecMedia(c));
  }

  lemma TaggedCodecTypes(a: VideoCodec, b: VideoCodec)
    requires a.Tagged?
    ensures UpToComma(CodecMedia(a)) == UpToComma(CodecMedia(b)) <==> b.Tagged? && SameTagName(a.codecTag, b.codecTag)
  {
    if b.Tagged? {
      TaggedMediaTypes("video", a.codecTag, b.codecTag);
    } else {
      CodecMediaAlone(b);
      TaggedIsNoOther("video", a.codecTag, CodecMedia(b));
    }
  }

  /** Two codecs print under one media type exactly when they are the same or alike. */
  lemma CodecMediaTypes(a: VideoCodec, b: VideoCodec)
    ensures UpToComma(CodecMedia(a)) == UpToComma(CodecMedia(b)) <==> a == b || AlikeCodecs(a, b)
  {
    if a.Tagged? {
      TaggedCodecTypes(a, b);
    } else if b.Tagged? {
      TaggedCodecTypes(b, a);
    } else {
      CodecMediaAlone(a);
      CodecMediaAlone(b);
      UntaggedMediaTypes(a, b);
    }
  }

  lemma CodedAudioReads(f: AudioFormat)
    requires !f.Tagged?
    ensures AudioOfMedia(AudioMedia(f)) == if IsPcm(f) then None else Some(if f.Mp2? || f.Mp3? then Aac else f)
  {
    RawAudioIsUncoded();
    if !IsPcm(f) {
      AudioReads(f);
    }
  }

  lemma UntaggedAudioTypes(a: AudioFormat, b: AudioFormat)
    requires !a.Tagged? && !b.Tagged?
    ensures AudioMedia(a) == AudioMedia(b) <==> a == b || AlikeFormats(a, b) || (IsPcm(a) && IsPcm(b))
  {
    CodedAudioReads(a);
    CodedAudioReads(b);
  }

  lemma RawAudioIsUncoded()
    ensures AudioOfMedia("audio/x-raw") == None
  {
  }

  lemma AudioMediaAlone(f: AudioFormat)
    requires !f.Tagged?
    ensures UpToComma(AudioMedia(f)) == AudioMedia(f) && Untagged(AudioMedia(f), 5)
  {
    AudioMediaIsPlain(f);
    PlainUpToComma(AudioMedia(f));
  }

  lemma TaggedAudioTypes(a: AudioFormat, b: AudioFormat)
    requires a.Tagged?
    ensures UpToComma(AudioMedia(a)) == UpToComma(AudioMedia(b)) <==> b.Tagged? && SameTagName(a.audioTag, b.audioTag)
  {
    if b.Tagged? {
      TaggedMediaTypes("audio", a.audioTag, b.audioTag);
    } else {
      AudioMediaAlone(b);
      TaggedIsNoOther("audio", a.audioTag, AudioMedia(b));
    }
  }

  /** Two audio formats print under one media type exactly when they are the same or alike,
      or both uncompressed. */
  lemma AudioMediaTypes(a: AudioFormat, b: AudioFormat)
    ensures UpToComma(AudioMedia(a)) == UpToComma(AudioMedia(b))
       <==> a == b || AlikeFormats(a, b) || (IsPcm(a) && IsPcm(b))
  {
    if a.Tagged? {
      TaggedAudioTypes(a, b);
    } else if b.Tagged? {
      TaggedAudioTypes(b, a);
    } else {
      AudioMediaAlone(a);
      AudioMediaAlone(b);
      UntaggedAudioTypes(a, b);
    }
  }

  lemma CompressedTypesDiffer(a: Caps, b: Caps)
    requires a.CompressedVideo? && b.CompressedVideo?
    ensures InConflict(MediaType, [a], [b]) <==> a.codec != b.codec && !AlikeCodecs(a.codec, b.codec)
  {
    OnePair(MediaType, a, b);
    MediaDecides(a);
    MediaDecides(b);
    CodecMediaTypes(a.codec, b.codec);
  }

  lemma AudioTypesDiffer(a: Caps, b: Caps)
    requires a.Audio? && b.Audio?
    ensures InConflict(MediaType, [a], [b])
       <==> (a.audioFormat != b.audioFormat && !AlikeFormats(a.audioFormat, b.audioFormat)
             && !(IsPcm(a.audioFormat) && IsPcm(b.audioFormat)))
  {
    OnePair(MediaType, a, b);
    MediaDecides(a);
    MediaDecides(b);
    AudioMediaTypes(a.audioFormat, b.audioFormat);
  }

  /** For one compressed alternative on each side: nothing in common means a reported field,
      two codecs no media type tells apart, or the colorimetry or the alignment. */
  lemma CompressedMismatchIsNamed(a: Caps, b: Caps)
    requires a.CompressedVideo? && b.CompressedVideo?
    ensures Intersect(a, b) == None
       <==> (InConflict(MediaType, [a], [b]) || InConflict(Width, [a], [b]) || InConflict(Height, [a], [b])
             || InConflict(Framerate, [a], [b])
             || (a.codec != b.codec && AlikeCodecs(a.codec, b.codec))
             || IntersectColorimetry(a.colorimetry, b.colorimetry) == None
             || IntersectAlignment(a.alignment, b.alignment) == None)
  {
    CompressedTypesDiffer(a, b);
    OnePair(Width, a, b);
    OnePair(Height, a, b);
    OnePair(Framerate, a, b);
  }

  /** For one audio alternative on each side: nothing in common means a reported field, two
      formats no media type tells apart, or the layout. */
  lemma AudioMismatchIsNamed(a: Caps, b: Caps)
    requires a.Audio? && b.Audio?
    ensures Intersect(a, b) == None
       <==> (InConflict(MediaType, [a], [b]) || InConflict(Format, [a], [b]) || InConflict(Channels, [a], [b])
             || InConflict(SampleRate, [a], [b])
             || (a.audioFormat != b.audioFormat && AlikeFormats(a.audioFormat, b.audioFormat))
             || IntersectLayout(a.layout, b.layout) == None)
  {
    AudioTypesDiffer(a, b);
    OnePair(Format, a, b);
    OnePair(Channels, a, b);
    OnePair(SampleRate, a, b);
  }

  lemma OnePair(f: Field, a: Caps, b: Caps)
    ensures InConflict(f, [a], [b]) <==> Overlap(f, a, b) == Some(false)
  {
    assert [a][0] == a && [b][0] == b;
    assert OverlapsOf(f)([a][0], [b][0]) == Overlap(f, a, b);
  }
}
