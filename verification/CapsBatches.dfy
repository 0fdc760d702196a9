/** Batches in the text form, and which caps survive printing and parsing. */
module CapsBatches {
  import opened Options
  import opened Integers
  import opened Strings
  import opened Caps
  import opened CapsSets
  import opened CapsPrinter
  import opened CapsParser
  import opened CapsNames
  import opened CapsScan
  import opened CapsValues
  import opened CapsLeaves
  import opened CapsMovTags

  // ----- which caps read back -----

  /** What the text form keeps of a caps that is no batch. */
  ghost predicate LeafReadsBack(c: Caps)
    requires !c.Batch?
  {
    match c
    case RawVideo(_, _, _, _, i, _) => !i.Progressive?
    case CompressedVideo(codec, _, _, _, _, _) =>
      if HasMovTag(c) then MovTagReads(codec.codecTag.tag, LeafFields(c) == [])
      else !codec.Mpeg2? && !codec.Mpeg4Part2? && !codec.JpegXs?
    case Audio(f, _, _, _) =>
      if HasMovTag(c) then MovTagReads(f.audioTag.tag, LeafFields(c) == []) else !f.Mp2? && !f.Mp3?
    case ByteStream(e) => !e.IsoBmff? && !e.MpegPs?
    case Tensor(_, _, _) => false
    case ClosedCaption(_) => false
    case _ => true
  }

  /** A printed leaf reads back as itself, alone, exactly when it is not one of the caps
      whose media type or fields the text form cannot hold. */
  lemma LeafRoundTrip(c: Caps)
    requires !c.Batch?
    ensures Parse(Print(c)) == Some([c]) <==> LeafReadsBack(c)
  {
    if HasMovTag(c) {
      MovReads(c);
    } else if HasTag(c) {
      if c.CompressedVideo? {
        RiffVideoReads(c);
      } else {
        RiffAudioReads(c);
      }
    } else {
      LeafReads(c);
      ReadBackIsSame(c, Parse(Print(c)));
    }
  }

  lemma ReadBackIsSame(c: Caps, parsed: Option<CapsSet>)
    requires !c.Batch? && !HasTag(c) && parsed == Singleton(ReadBack(c))
    ensures parsed == Some([c]) <==> LeafReadsBack(c)
  {
    if ReadBack(c).Some? {
      assert [ReadBack(c).value] == [c] <==> ReadBack(c).value == c by {
        assert [ReadBack(c).value][0] == ReadBack(c).value;
      }
    }
  }

  predicate Unmarked(s: string) {
    forall i :: 0 <= i < |s| ==>
      s[i] != '"' && s[i] != ',' && s[i] != '[' && s[i] != ']' && s[i] != '{' && s[i] != '}' && s[i] != '<' && s[i] != '>'
  }

  /** The MOV tags of a caps printed inside quotes hold no quote, and those of a caps
      printed outside them no delimiter of the text form at all. Quotes do not nest, so the
      streams of a batch are inside quotes exactly when the batch is not. */
  predicate Clean(c: Caps, hidden: bool)
    decreases c
  {
    match c
    case Batch(s) => forall i :: 0 <= i < |s| ==> Clean(s[i], !hidden)
    case _ => HasMovTag(c) ==> if hidden then '"' !in TagChars(TagOf(c).tag) else Unmarked(TagChars(TagOf(c).tag))
  }

  /** Prints as its media type alone, with no comma. */
  predicate Bare(c: Caps) {
    !c.Batch? && LeafFields(c) == []
  }

  /** Quoting the printed caps hides its commas: quotes do not nest, so what is quoted
      inside a quoted batch lies open. */
  predicate Sealed(c: Caps) {
    c.Batch? ==> forall j :: 0 <= j < |c.streams| ==> Bare(c.streams[j])
  }

  ghost predicate ReadsBack(c: Caps)
    decreases c
  {
    match c
    case Batch(s) => forall i :: 0 <= i < |s| ==> Sealed(s[i]) && ReadsBack(s[i])
    case _ => LeafReadsBack(c)
  }

  // ----- unmarked text -----

  lemma {:induction false} UnmarkedRuns(st: Scan, s: string)
    requires Unmarked(s)
    ensures Run(st, s) == st && NoCut(st, s)
    decreases |s|
  {
    if s != [] {
      UnmarkedRuns(st, s[1..]);
    }
  }

  lemma PlainIsUnmarked(s: string)
    requires Plain(s)
    ensures Unmarked(s)
  {
    forall i | 0 <= i < |s| ensures s[i] != '"' && s[i] != ',' && s[i] != '[' && s[i] != ']'
        && s[i] != '{' && s[i] != '}' && s[i] != '<' && s[i] != '>' {
      assert PlainChar(s[i]);
    }
  }

  lemma RiffMediaPlain(c: Caps)
    requires HasTag(c) && !HasMovTag(c)
    ensures Plain(Media(c)) && Media(c) != []
  {
    RiffMedia(KindOf(c));
    assert Media(c) == KindOf(c) + "/" + "x-avi-unknown";
  }

  lemma MovMediaUnmarked(c: Caps)
    requires HasMovTag(c) && Clean(c, false)
    ensures Unmarked(Media(c)) && Media(c) != [] && !IsSpace(Media(c)[0])
  {
    var head := MovHead(KindOf(c));
    MovHeadIsPlain(KindOf(c));
    PlainIsUnmarked(head);
    MovMedia(c);
    assert Media(c)[0] == head[0];
  }

  lemma BatchMediaPlain()
    ensures Plain(BATCH_MEDIA) && !IsSpace(BATCH_MEDIA[0]) && Untagged(BATCH_MEDIA, 11)
  {
  }

  lemma MediaUnmarked(c: Caps)
    requires Clean(c, false)
    ensures Unmarked(Media(c)) && Media(c) != [] && !IsSpace(Media(c)[0])
  {
    if c.Batch? {
      BatchMediaPlain();
      PlainIsUnmarked(BATCH_MEDIA);
    } else if HasMovTag(c) {
      MovMediaUnmarked(c);
    } else if HasTag(c) {
      RiffMediaPlain(c);
      PlainIsUnmarked(Media(c));
      assert PlainChar(Media(c)[0]);
    } else {
      var slash := MediaIsPlain(c);
      PlainIsUnmarked(Media(c));
      assert PlainChar(Media(c)[0]);
    }
  }

  // ----- printed caps are level -----

  function Flip(st: Scan): Scan {
    Scan(st.depth, !st.quoted)
  }

  lemma LevelQuote(st: Scan, s: string)
    requires Level(Flip(st), s)
    ensures Level(st, Quote(s))
  {
    RunOne(st, '"');
    RunOne(Flip(st), '"');
    RunConcat(st, "\"", s);
    RunConcat(st, "\"" + s, "\"");
  }

  lemma {:induction false} ShapeLevel(st: Scan, dims: seq<u32>)
    ensures Level(st, ShapeText(dims)) && '"' !in ShapeText(dims)
  {
    if dims != [] {
      DecimalPlain(dims[0]);
      DecimalReadsBack(dims[0]);
      LevelPlain(st, Decimal(dims[0]));
      if |dims| > 1 {
        ShapeLevel(st, dims[1..]);
        LevelComma(st);
        RunOne(st, ' ');
        assert ", " == "," + " ";
        LevelConcat(st, ",", " ");
        LevelConcat(st, Decimal(dims[0]), ", ");
        LevelConcat(st, Decimal(dims[0]) + ", ", ShapeText(dims[1..]));
      }
    }
  }

  lemma TensorKeys()
    ensures GoodKey("dtype") && GoodKey("layout") && GoodKey("shape")
    ensures Plain("TensorShape(") && Plain(")") && Plain("Nchw") && Plain("Nhwc")
  {
  }

  lemma DTypePlain(d: TensorDType)
    ensures Plain(DTypeName(d))
  {
    match d
    case F16 => case F32 => case I8 => case U8 =>
  }

  lemma LevelWrapped(st: Scan, a: string, s: string, b: string)
    requires Plain(a) && Plain(b) && Level(Deeper(st), s)
    ensures Level(st, a + ("[" + s + "]") + b)
  {
    LevelBracket(st, '[', s, ']');
    LevelPlain(st, a);
    LevelPlain(st, b);
    LevelConcat(st, a, "[" + s + "]");
    LevelConcat(st, a + ("[" + s + "]"), b);
  }

  lemma ShapeValue(st: Scan, dims: seq<u32>)
    ensures Level(st, "TensorShape([" + ShapeText(dims) + "])") && '"' !in "TensorShape([" + ShapeText(dims) + "])"
  {
    TensorKeys();
    ShapeLevel(Deeper(st), dims);
    LevelWrapped(st, "TensorShape(", ShapeText(dims), ")");
    ShapeRegroup(ShapeText(dims));
  }

  lemma ShapeRegroup(s: string)
    ensures "TensorShape(" + ("[" + s + "]") + ")" == "TensorShape([" + s + "])"
  {
  }

  /** Each field of a leaf: a good key, and a level value with no quote in it. */
  ghost predicate LevelFields(st: Scan, fs: seq<(string, string)>) {
    forall i :: 0 <= i < |fs| ==> GoodKey(fs[i].0) && Level(st, fs[i].1) && '"' !in fs[i].1
  }

  lemma LeafFieldsLevel(st: Scan, c: Caps)
    requires !c.Batch?
    ensures LevelFields(st, LeafFields(c))
  {
    var fs := LeafFields(c);
    if c.Tensor? {
      TensorKeys();
      DTypePlain(c.dtype);
      LevelPlain(st, DTypeName(c.dtype));
      LevelPlain(st, "Nchw");
      LevelPlain(st, "Nhwc");
      PlainIsUnmarked(DTypeName(c.dtype));
      ShapeValue(st, c.shape);
    } else {
      LeafIsTidy(c);
      forall i | 0 <= i < |fs| ensures Level(st, fs[i].1) && '"' !in fs[i].1 {
        TidyIsLevel(st, fs[i].1);
        TidyHasNoQuote(fs[i].1);
      }
    }
  }

  lemma TidyHasNoQuote(v: string)
    requires Tidy(v)
    ensures '"' !in v
  {
    if Plain(v) {
      PlainIsUnmarked(v);
    } else {
      var a, b :| Plain(a) && Plain(b) && v == "[" + (a + "," + b) + "]";
      PlainIsUnmarked(a);
      PlainIsUnmarked(b);
    }
  }

  lemma {:induction false} FieldTextsHaveNoQuote(st: Scan, fs: seq<(string, string)>)
    requires LevelFields(st, fs)
    ensures forall i :: 0 <= i < |fs| ==> '"' !in FieldTexts(fs)[i]
  {
    if fs != [] {
      PlainIsUnmarked(fs[0].0);
      FieldTextsHaveNoQuote(st, fs[1..]);
    }
  }

  lemma {:induction false} CommasHaveNoQuote(parts: seq<string>)
    requires parts != [] && forall i :: 0 <= i < |parts| ==> '"' !in parts[i]
    ensures '"' !in Commas(parts)
  {
    if |parts| > 1 {
      CommasHaveNoQuote(parts[1..]);
    }
  }

  lemma MediaHasNoQuote(c: Caps, hidden: bool)
    requires !c.Batch? && Clean(c, hidden)
    ensures '"' !in Media(c)
  {
    if HasMovTag(c) {
      MovHeadIsPlain(KindOf(c));
      PlainIsUnmarked(MovHead(KindOf(c)));
      MovMedia(c);
    } else {
      MediaUnmarked(c);
    }
  }

  lemma LeafHasNoQuote(c: Caps, hidden: bool)
    requires !c.Batch? && Clean(c, hidden)
    ensures '"' !in Print(c)
  {
    var fs := LeafFields(c);
    MediaHasNoQuote(c, hidden);
    LeafFieldsLevel(TOP, c);
    FieldTextsHaveNoQuote(TOP, fs);
    CommasHaveNoQuote([Media(c)] + FieldTexts(fs));
  }

  lemma OpenLeafIsLevel(st: Scan, c: Caps)
    requires !c.Batch? && Clean(c, false)
    ensures Level(st, Print(c))
  {
    MediaUnmarked(c);
    UnmarkedRuns(st, Media(c));
    LeafFieldsLevel(st, c);
    FieldsAreLevel(st, LeafFields(c));
    CommasAreLevel(st, [Media(c)] + FieldTexts(LeafFields(c)));
  }

  lemma LeafIsLevel(st: Scan, c: Caps)
    requires !c.Batch? && Clean(c, st.quoted)
    ensures Level(st, Print(c))
  {
    if st.quoted {
      LeafHasNoQuote(c, true);
      QuotedRuns(st.depth, Print(c));
    } else {
      OpenLeafIsLevel(st, c);
    }
  }

  lemma StreamsKey()
    ensures Plain("streams") && GoodKey("streams") && Plain("=")
  {
  }

  function StreamsField(s: seq<Caps>): string {
    "streams" + "=" + ("<" + PrintStreams(s) + ">")
  }

  lemma StreamsFieldLevel(st: Scan, s: seq<Caps>)
    requires Level(Deeper(st), PrintStreams(s))
    ensures Level(st, StreamsField(s))
  {
    StreamsKey();
    LevelBracket(st, '<', PrintStreams(s), '>');
    FieldIsLevel(st, ("streams", "<" + PrintStreams(s) + ">"));
  }

  lemma {:induction false} TextIsLevel(st: Scan, c: Caps)
    requires Clean(c, st.quoted)
    ensures Level(st, Print(c))
    decreases c, 1
  {
    if c.Batch? {
      StreamsAreLevel(Deeper(st), c.streams);
      StreamsFieldLevel(st, c.streams);
      BatchMediaPlain();
      LevelPlain(st, BATCH_MEDIA);
      LevelPair(st, BATCH_MEDIA, StreamsField(c.streams));
    } else {
      LeafIsLevel(st, c);
    }
  }

  lemma {:induction false} StreamsAreLevel(st: Scan, s: seq<Caps>)
    requires forall i :: 0 <= i < |s| ==> Clean(s[i], !st.quoted)
    ensures Level(st, PrintStreams(s))
    decreases s, 0
  {
    if s != [] {
      TextIsLevel(Flip(st), s[0]);
      LevelQuote(st, Print(s[0]));
      if |s| > 1 {
        StreamsAreLevel(st, s[1..]);
        LevelPair(st, Quote(Print(s[0])), PrintStreams(s[1..]));
      }
    }
  }

  // ----- a printed batch is read as its quoted streams -----

  lemma StreamsFieldWhole(s: seq<Caps>)
    requires Level(Scan(1, false), PrintStreams(s))
    ensures NoCut(TOP, StreamsField(s))
  {
    var q := PrintStreams(s);
    StreamsKey();
    PlainRuns(TOP, "streams");
    PlainRuns(TOP, "=");
    RunConcat(TOP, "streams", "=");
    RunOne(TOP, '<');
    RunOne(Scan(1, false), '>');
    RunConcat(TOP, "<", q);
    RunConcat(TOP, "<" + q, ">");
    RunConcat(TOP, "streams" + "=", "<" + q + ">");
  }

  lemma AngleValue(q: string)
    ensures ParseFieldVal("<" + q + ">") == One("<" + q + ">")
    ensures Enclosed("<" + q + ">", "<", ">") == Some(q)
  {
    var v := "<" + q + ">";
    assert v[0] == '<' && v[|v| - 1] == '>';
    TrimOfTrimmed(v);
    assert v == "<" + (q + ">");
    StripPrefixOf("<", q + ">");
    StripSuffixOf(q, ">");
  }

  lemma OneField(media: string, f: (string, string))
    requires Plain(media) && GoodKey(f.0) && NoCut(TOP, FieldText(f))
    ensures MediaOf(media + "," + FieldText(f)) == media
    ensures FieldsOf(media + "," + FieldText(f)) == Some(Read([f]))
  {
    PlainIsSolid(media);
    PlainIsTrimmed(media);
    SplitComma(media, FieldText(f));
    SplitWhole(FieldText(f));
    assert SplitTop(media + "," + FieldText(f))[1..] == [FieldText(f)];
    ReadField(f);
    assert ParseFields([FieldText(f)][1..]) == Some([]);
    assert Read([f][1..]) == [];
  }

  lemma BatchFields(s: seq<Caps>)
    requires NoCut(TOP, StreamsField(s))
    ensures
      var text := BATCH_MEDIA + "," + StreamsField(s);
      MediaOf(text) == BATCH_MEDIA && FieldsOf(text) == Some(Read([("streams", "<" + PrintStreams(s) + ">")]))
  {
    BatchMediaPlain();
    StreamsKey();
    OneField(BATCH_MEDIA, ("streams", "<" + PrintStreams(s) + ">"));
  }

  lemma BatchIsNoTag(fs: Fields)
    ensures TaggedCodecOf(BATCH_MEDIA, fs) == None
  {
    BatchMediaPlain();
    UntaggedHasNoCodec(BATCH_MEDIA, 11, fs);
  }

  lemma ParsesAsBatch(text: string, fs: Fields, streams: string)
    requires MediaOf(text) == BATCH_MEDIA && FieldsOf(text) == Some(fs)
    requires TaggedCodecOf(BATCH_MEDIA, fs) == None
    requires Lookup(fs, "streams") == Some(One(streams))
    ensures Parse(text) == ParseBatch(streams)
  {
  }

  /** The parsed streams, multiplied out. */
  function Multiplied(sets: Option<seq<CapsSet>>): Option<CapsSet> {
    match sets
    case None => None
    case Some(ss) =>
      match BatchesFrom([[]], ss)
      case Some(bs) => Some(AsBatches(bs))
      case None => None
  }

  lemma BatchTextReads(s: seq<Caps>)
    requires Clean(Batch(s), false)
    ensures MediaOf(Print(Batch(s))) == BATCH_MEDIA
    ensures FieldsOf(Print(Batch(s))) == Some(Read([("streams", "<" + PrintStreams(s) + ">")]))
  {
    StreamsAreLevel(Scan(1, false), s);
    StreamsFieldWhole(s);
    BatchFields(s);
  }

  lemma BatchParses(s: seq<Caps>)
    requires Clean(Batch(s), false)
    ensures forall p :: p in TrimmedNonEmpty(SplitTop(PrintStreams(s))) ==> |p| <= |PrintStreams(s)|
    ensures Parse(Print(Batch(s)))
         == Multiplied(ParseStreams(TrimmedNonEmpty(SplitTop(PrintStreams(s))), |PrintStreams(s)|))
  {
    var q := PrintStreams(s);
    BatchTextReads(s);
    AngleValue(q);
    LookupRead([("streams", "<" + q + ">")], "streams");
    BatchIsNoTag(Read([("streams", "<" + q + ">")]));
    ParsesAsBatch(Print(Batch(s)), Read([("streams", "<" + q + ">")]), "<" + q + ">");
    StreamTextsAreShort(q);
  }

  // ----- sealed streams -----

  const QUOTED: Scan := Scan(0, true)

  lemma QuoteIsSolid(s: string)
    requires NoCut(QUOTED, s) && Run(QUOTED, s) == QUOTED
    ensures Solid(Quote(s))
  {
    RunOne(TOP, '"');
    RunOne(QUOTED, '"');
    RunConcat(TOP, "\"", s);
    RunConcat(TOP, "\"" + s, "\"");
  }

  /** Inside quotes, a quoted text with no delimiter lies open and is still not cut. */
  lemma BareQuote(m: string)
    requires Unmarked(m)
    ensures Run(QUOTED, Quote(m)) == QUOTED && NoCut(QUOTED, Quote(m))
  {
    UnmarkedRuns(TOP, m);
    RunOne(QUOTED, '"');
    RunOne(TOP, '"');
    RunConcat(QUOTED, "\"", m);
    RunConcat(QUOTED, "\"" + m, "\"");
  }

  lemma BareText(c: Caps)
    requires Bare(c) && Clean(c, false)
    ensures Print(c) == Media(c) && Unmarked(Print(c))
  {
    LeafText(c);
    MediaUnmarked(c);
  }

  lemma {:induction false} BareStreamsHidden(t: seq<Caps>)
    requires forall j :: 0 <= j < |t| ==> Bare(t[j]) && Clean(t[j], false)
    ensures Run(QUOTED, PrintStreams(t)) == QUOTED && NoCut(QUOTED, PrintStreams(t))
  {
    if t != [] {
      BareText(t[0]);
      BareQuote(Print(t[0]));
      if |t| > 1 {
        BareStreamsHidden(t[1..]);
        RunOne(QUOTED, ',');
        RunConcat(QUOTED, Quote(Print(t[0])), ",");
        RunConcat(QUOTED, Quote(Print(t[0])) + ",", PrintStreams(t[1..]));
      }
    }
  }

  /** The text of a batch before its first stream. */
  const BATCH_HEAD: string := BATCH_MEDIA + ("," + ("streams" + "=" + "<"))

  lemma BatchText(t: seq<Caps>)
    ensures Print(Batch(t)) == BATCH_HEAD + PrintStreams(t) + ">"
  {
    HeadFirst(BATCH_MEDIA, ",", "streams", "=", "<", PrintStreams(t), ">");
  }

  lemma HeadFirst(a: string, b: string, c: string, d: string, e: string, q: string, f: string)
    ensures a + b + (c + d + (e + q + f)) == a + (b + (c + d + e)) + q + f
  {
  }

  lemma BatchHeadRuns()
    ensures Run(QUOTED, BATCH_HEAD) == QUOTED && NoCut(QUOTED, BATCH_HEAD)
  {
    BatchMediaPlain();
    PlainIsUnmarked(BATCH_MEDIA);
    StreamsKey();
    PlainIsUnmarked("streams");
    QuotedRuns(0, BATCH_HEAD);
  }

  lemma SealedIsSolid(c: Caps)
    requires Clean(c, true) && Sealed(c)
    ensures Solid(Quote(Print(c)))
  {
    if c.Batch? {
      var t := c.streams;
      BareStreamsHidden(t);
      BatchHeadRuns();
      BatchText(t);
      RunOne(QUOTED, '>');
      RunConcat(QUOTED, BATCH_HEAD, PrintStreams(t));
      RunConcat(QUOTED, BATCH_HEAD + PrintStreams(t), ">");
    } else {
      LeafHasNoQuote(c, true);
      QuotedRuns(0, Print(c));
    }
    QuoteIsSolid(Print(c));
  }

  function Quotes(s: seq<Caps>): seq<string> {
    if s == [] then [] else [Quote(Print(s[0]))] + Quotes(s[1..])
  }

  lemma QuoteTrims(s: string)
    ensures Trim(Quote(s)) == Quote(s) != [] && Enclosed(Quote(s), "\"", "\"") == Some(s)
  {
    TrimOfTrimmed(Quote(s));
    assert Quote(s) == "\"" + (s + "\"");
    StripPrefixOf("\"", s + "\"");
    StripSuffixOf(s, "\"");
  }

  lemma {:induction false} SealedSplit(s: seq<Caps>)
    requires forall i :: 0 <= i < |s| ==> Clean(s[i], true) && Sealed(s[i])
    ensures TrimmedNonEmpty(SplitTop(PrintStreams(s))) == Quotes(s)
  {
    if s == [] {
      assert SplitTop("") == [""];
      assert TrimmedNonEmpty([""][1..]) == [];
    } else {
      SealedIsSolid(s[0]);
      QuoteTrims(Print(s[0]));
      if |s| == 1 {
        SplitWhole(Quote(Print(s[0])));
        assert Quotes(s[1..]) == [] && TrimmedNonEmpty([Quote(Print(s[0]))][1..]) == [];
      } else {
        SplitComma(Quote(Print(s[0])), PrintStreams(s[1..]));
        SealedSplit(s[1..]);
      }
    }
  }

  function AllParsed(s: seq<Caps>): Option<seq<CapsSet>> {
    if s == [] then Some([])
    else
      var head, tail := Parse(Print(s[0])), AllParsed(s[1..]);
      if head.Some? && tail.Some? then Some([head.value] + tail.value) else None
  }

  lemma {:induction false} StreamsParse(s: seq<Caps>, bound: nat)
    requires forall p :: p in Quotes(s) ==> |p| <= bound
    ensures ParseStreams(Quotes(s), bound) == AllParsed(s)
  {
    if s != [] {
      QuoteTrims(Print(s[0]));
      assert Quotes(s)[1..] == Quotes(s[1..]);
      StreamsParse(s[1..], bound);
    }
  }

  // ----- one alternative each multiplies out to one batch -----

  ghost predicate Singles(sets: seq<CapsSet>, s: seq<Caps>) {
    |sets| == |s| && forall i :: 0 <= i < |s| ==> sets[i] == [s[i]]
  }

  lemma OneExtension(p: seq<Caps>, c: Caps)
    ensures Extend([p], [c]) == [p + [c]]
  {
    assert [p][1..] == [] && [c][1..] == [];
    assert ExtendOne(p, [c][1..]) == [] && Extend([p][1..], [c]) == [];
  }

  lemma {:induction false} SinglesMultiply(p: seq<Caps>, sets: seq<CapsSet>, s: seq<Caps>)
    requires Singles(sets, s)
    ensures BatchesFrom([p], sets) == Some([p + s])
    decreases |s|
  {
    if s == [] {
      assert p + s == p;
    } else {
      assert sets[0] == [s[0]];
      OneExtension(p, s[0]);
      SinglesMultiply(p + [s[0]], sets[1..], s[1..]);
      assert p + [s[0]] + s[1..] == p + s;
    }
  }

  lemma {:induction false} ExtendOneSize(p: seq<Caps>, alts: CapsSet)
    ensures |ExtendOne(p, alts)| == |alts|
  {
    if alts != [] {
      ExtendOneSize(p, alts[1..]);
    }
  }

  lemma {:induction false} ExtendSize(ps: seq<seq<Caps>>, alts: CapsSet)
    ensures ps == [] || alts == [] ==> Extend(ps, alts) == []
    ensures ps != [] ==> |Extend(ps, alts)| >= |alts|
    ensures alts != [] ==> |Extend(ps, alts)| >= |ps|
  {
    if ps != [] {
      ExtendOneSize(ps[0], alts);
      ExtendSize(ps[1..], alts);
    }
  }

  lemma {:induction false} OneBatchOnly(ps: seq<seq<Caps>>, sets: seq<CapsSet>)
    requires BatchesFrom(ps, sets).Some? && |BatchesFrom(ps, sets).value| == 1
    ensures |ps| == 1 && forall i :: 0 <= i < |sets| ==> |sets[i]| == 1
    decreases |sets|
  {
    if sets != [] {
      OneBatchOnly(Extend(ps, sets[0]), sets[1..]);
      ExtendSize(ps, sets[0]);
      forall i | 0 <= i < |sets| ensures |sets[i]| == 1 {
        if i > 0 {
          assert sets[i] == sets[1..][i - 1];
        }
      }
    }
  }

  lemma SinglesOnly(sets: seq<CapsSet>, s: seq<Caps>)
    requires BatchesFrom([[]], sets) == Some([s])
    ensures Singles(sets, s)
  {
    OneBatchOnly([[]], sets);
    var s' := seq(|sets|, i requires 0 <= i < |sets| => sets[i][0]);
    assert forall i :: 0 <= i < |sets| ==> sets[i] == [s'[i]];
    SinglesMultiply([], sets, s');
    assert [] + s' == s';
    assert [s'][0] == [s][0];
  }

  lemma OneBatch(s: seq<Caps>, bs: seq<seq<Caps>>)
    ensures AsBatches(bs) == [Batch(s)] <==> bs == [s]
  {
    AsBatchesLength(bs);
    if |bs| == 1 {
      assert AsBatches(bs[1..]) == [];
      assert AsBatches(bs)[0] == Batch(bs[0]);
    }
  }

  lemma {:induction false} AsBatchesLength(bs: seq<seq<Caps>>)
    ensures |AsBatches(bs)| == |bs|
  {
    if bs != [] {
      AsBatchesLength(bs[1..]);
    }
  }

  lemma MultipliedSingles(sets: seq<CapsSet>, s: seq<Caps>)
    ensures Multiplied(Some(sets)) == Some([Batch(s)]) <==> Singles(sets, s)
  {
    if BatchesFrom([[]], sets).Some? {
      OneBatch(s, BatchesFrom([[]], sets).value);
      if BatchesFrom([[]], sets).value == [s] {
        SinglesOnly(sets, s);
      }
    }
    if Singles(sets, s) {
      SinglesMultiply([], sets, s);
      assert [] + s == s;
      OneBatch(s, [s]);
    }
  }

  /** The caps, printed and parsed, is itself again and alone. */
  ghost predicate Survives(c: Caps) {
    Parse(Print(c)) == Some([c])
  }

  ghost predicate AllSurvive(s: seq<Caps>) {
    forall i :: 0 <= i < |s| ==> Survives(s[i])
  }

  lemma SurviveFirst(s: seq<Caps>)
    requires s != []
    ensures AllSurvive(s) <==> Survives(s[0]) && AllSurvive(s[1..])
  {
    assert s == [s[0]] + s[1..];
    if AllSurvive(s) {
      assert forall i :: 0 <= i < |s[1..]| ==> s[1..][i] == s[i + 1];
    }
  }

  lemma {:induction false} AllParsedSingles(s: seq<Caps>)
    ensures AllParsed(s).Some? && Singles(AllParsed(s).value, s) <==> AllSurvive(s)
  {
    if s != [] {
      AllParsedSingles(s[1..]);
      SurviveFirst(s);
      var head, tail := Parse(Print(s[0])), AllParsed(s[1..]);
      if head.Some? && tail.Some? {
        SinglesCons(head.value, tail.value, s);
      }
    }
  }

  lemma SinglesCons(head: CapsSet, tail: seq<CapsSet>, s: seq<Caps>)
    requires s != []
    ensures Singles([head] + tail, s) <==> head == [s[0]] && Singles(tail, s[1..])
  {
    if Singles([head] + tail, s) {
      assert ([head] + tail)[0] == head;
      forall i | 0 <= i < |s| - 1 ensures tail[i] == [s[1..][i]] {
        assert ([head] + tail)[i + 1] == tail[i];
      }
    }
  }

  // ----- streams that are not sealed -----

  /** A part that is no quoted text. */
  ghost predicate Open(p: string) {
    Trim(p) != [] && Trim(p)[|Trim(p)| - 1] != '"'
  }

  lemma OpenPart(x: string, m: string)
    requires x != [] && x[0] == '"' && m != [] && !IsSpace(m[0]) && '"' !in m
    ensures Open(x + m)
  {
    var p := x + m;
    assert TrimStart(p) == p;
    var k := TrimEndTail(p);
    assert !IsSpace(p[|x|]);
    assert p[k - 1] == m[k - 1 - |x|];
  }

  lemma {:induction false} OpenIsKept(ps: seq<string>, p: string)
    requires p in ps && Open(p)
    ensures Trim(p) in TrimmedNonEmpty(ps)
  {
    if p != ps[0] {
      OpenIsKept(ps[1..], p);
    }
  }

  lemma KeptOpen(ps: seq<string>, p: string) returns (t: string)
    requires p in ps && Open(p)
    ensures t in TrimmedNonEmpty(ps) && t != [] && t[|t| - 1] != '"'
  {
    OpenIsKept(ps, p);
    t := Trim(p);
  }

  lemma QuotedEnds(t: string)
    ensures Enclosed(t, "\"", "\"").Some? ==> t != [] && t[|t| - 1] == '"'
  {
    if Enclosed(t, "\"", "\"").Some? {
      var u := StripPrefix(t, "\"").value;
      assert u[|u| - 1..] == "\"";
      assert t[|t| - 1] == u[|u| - 1] == '"';
    }
  }

  lemma {:induction false} OpenFails(texts: seq<string>, t: string, bound: nat)
    requires t in texts && t != [] && t[|t| - 1] != '"'
    requires forall p :: p in texts ==> |p| <= bound
    ensures ParseStreams(texts, bound) == None
  {
    if t == texts[0] {
      QuotedEnds(t);
    } else {
      OpenFails(texts[1..], t, bound);
    }
  }

  lemma BareQuoteComma(c: Caps)
    requires Bare(c) && Clean(c, false)
    ensures Run(QUOTED, Quote(Print(c)) + ",") == QUOTED && NoCut(QUOTED, Quote(Print(c)) + ",")
  {
    BareText(c);
    BareQuote(Print(c));
    RunOne(QUOTED, ',');
    RunConcat(QUOTED, Quote(Print(c)), ",");
  }

  lemma {:induction false} OpenInner(t: seq<Caps>, rest: string, cur: string)
    requires forall j :: 0 <= j < |t| ==> Clean(t[j], false)
    requires exists j :: 0 <= j < |t| && !Bare(t[j])
    requires cur != [] && cur[0] == '"'
    ensures Open(SplitFrom(PrintStreams(t) + rest, QUOTED, cur)[0])
    decreases |t|
  {
    if Bare(t[0]) {
      assert |t| > 1 && exists j :: 0 <= j < |t[1..]| && !Bare(t[1..][j]) by {
        var j :| 0 <= j < |t| && !Bare(t[j]);
        assert t[1..][j - 1] == t[j];
      }
      var q := Quote(Print(t[0])) + ",";
      BareQuoteComma(t[0]);
      assert PrintStreams(t) + rest == q + (PrintStreams(t[1..]) + rest);
      SplitNoCut(q, PrintStreams(t[1..]) + rest, QUOTED, cur);
      OpenInner(t[1..], rest, cur + q);
    } else {
      var y := OpenText(t[0]);
      var z := AfterMedia(t, rest, y);
      OpenCut(Media(t[0]), z, cur, t[0]);
    }
  }

  /** A caps that is not bare prints its media type and then a comma. */
  lemma OpenText(c: Caps) returns (y: string)
    requires !Bare(c)
    ensures Print(c) == Media(c) + "," + y
  {
    if c.Batch? {
      y := StreamsField(c.streams);
    } else {
      LeafText(c);
      y := Commas(FieldTexts(LeafFields(c)));
    }
  }

  lemma AfterMedia(t: seq<Caps>, rest: string, y: string) returns (z: string)
    requires t != [] && Print(t[0]) == Media(t[0]) + "," + y
    ensures PrintStreams(t) + rest == ("\"" + Media(t[0])) + ("," + z)
  {
    var more := if |t| == 1 then rest else "," + PrintStreams(t[1..]) + rest;
    StreamsFirst(t, rest, more);
    z := y + "\"" + more;
    QuotedWithComma(Media(t[0]), y, more);
  }

  lemma StreamsFirst(t: seq<Caps>, rest: string, more: string)
    requires t != [] && more == if |t| == 1 then rest else "," + PrintStreams(t[1..]) + rest
    ensures PrintStreams(t) + rest == Quote(Print(t[0])) + more
  {
    if |t| > 1 {
      Reassociate(Quote(Print(t[0])), ",", PrintStreams(t[1..]), rest);
    }
  }

  lemma Reassociate(a: string, b: string, c: string, d: string)
    ensures a + b + c + d == a + (b + c + d)
  {
  }

  lemma QuotedWithComma(m: string, y: string, more: string)
    ensures Quote(m + "," + y) + more == ("\"" + m) + ("," + (y + "\"" + more))
  {
  }

  lemma OpenCut(m: string, z: string, cur: string, c: Caps)
    requires Clean(c, false) && m == Media(c) && cur != [] && cur[0] == '"'
    ensures Open(SplitFrom(("\"" + m) + ("," + z), QUOTED, cur)[0])
  {
    MediaUnmarked(c);
    UnmarkedRuns(TOP, m);
    RunOne(QUOTED, '"');
    RunConcat(QUOTED, "\"", m);
    SplitNoCut("\"" + m, "," + z, QUOTED, cur);
    assert cur + ("\"" + m) == (cur + "\"") + m;
    OpenPart(cur + "\"", m);
  }

  lemma QuotedBetween(a: string, b: string, c: string, tail: string)
    ensures Quote(a + b + c) + tail == ("\"" + a) + (b + (c + "\"" + tail))
  {
  }

  lemma OpenBatch(t: seq<Caps>, tail: string)
    requires forall j :: 0 <= j < |t| ==> Clean(t[j], false)
    requires exists j :: 0 <= j < |t| && !Bare(t[j])
    ensures Open(SplitTop(Quote(Print(Batch(t))) + tail)[0])
  {
    var head, rest := "\"" + BATCH_HEAD, ">" + "\"" + tail;
    BatchText(t);
    QuotedBetween(BATCH_HEAD, PrintStreams(t), ">", tail);
    RunOne(TOP, '"');
    BatchHeadRuns();
    RunConcat(TOP, "\"", BATCH_HEAD);
    SplitNoCut(head, PrintStreams(t) + rest, TOP, []);
    assert [] + head == head;
    OpenInner(t, rest, head);
  }

  lemma {:induction false} OpenStreams(s: seq<Caps>) returns (p: string)
    requires forall i :: 0 <= i < |s| ==> Clean(s[i], true)
    requires exists i :: 0 <= i < |s| && !Sealed(s[i])
    ensures p in SplitTop(PrintStreams(s)) && Open(p)
  {
    if Sealed(s[0]) {
      assert |s| > 1 && exists i :: 0 <= i < |s[1..]| && !Sealed(s[1..][i]) by {
        var i :| 0 <= i < |s| && !Sealed(s[i]);
        assert s[1..][i - 1] == s[i];
      }
      SealedIsSolid(s[0]);
      SplitComma(Quote(Print(s[0])), PrintStreams(s[1..]));
      p := OpenStreams(s[1..]);
    } else {
      var tail := if |s| == 1 then "" else "," + PrintStreams(s[1..]);
      assert PrintStreams(s) == Quote(Print(s[0])) + tail;
      OpenBatch(s[0].streams, tail);
      p := SplitTop(PrintStreams(s))[0];
    }
  }

  lemma OpenStream(s: seq<Caps>) returns (t: string)
    requires forall i :: 0 <= i < |s| ==> Clean(s[i], true)
    requires exists i :: 0 <= i < |s| && !Sealed(s[i])
    ensures t in TrimmedNonEmpty(SplitTop(PrintStreams(s))) && t != [] && t[|t| - 1] != '"'
  {
    var p := OpenStreams(s);
    t := KeptOpen(SplitTop(PrintStreams(s)), p);
  }

  lemma UnsealedFails(s: seq<Caps>)
    requires Clean(Batch(s), false) && exists i :: 0 <= i < |s| && !Sealed(s[i])
    ensures Parse(Print(Batch(s))) == None
  {
    var t := OpenStream(s);
    BatchParses(s);
    OpenFails(TrimmedNonEmpty(SplitTop(PrintStreams(s))), t, |PrintStreams(s)|);
  }

  /** A batch of sealed streams reads back exactly when every stream does. */
  lemma SealedBatch(s: seq<Caps>)
    requires Clean(Batch(s), false) && forall i :: 0 <= i < |s| ==> Sealed(s[i])
    ensures Survives(Batch(s)) <==> AllSurvive(s)
  {
    BatchParses(s);
    SealedSplit(s);
    StreamsParse(s, |PrintStreams(s)|);
    AllParsedSingles(s);
    if AllParsed(s).Some? {
      MultipliedSingles(AllParsed(s).value, s);
    }
  }

  /** What prints clean inside the quotes of a batch prints clean on its own. */
  lemma SealedIsClean(c: Caps)
    requires c.Batch? && Sealed(c) && Clean(c, true)
    ensures Clean(c, false)
  {
    forall j | 0 <= j < |c.streams| ensures Clean(c.streams[j], true) {
      if HasMovTag(c.streams[j]) {
        assert Clean(c.streams[j], false);
      }
    }
  }

  lemma {:induction false} SurvivesExactly(c: Caps)
    requires c.Batch? ==> Clean(c, false)
    ensures Survives(c) <==> ReadsBack(c)
    decreases c
  {
    if c.Batch? {
      var s := c.streams;
      assert c == Batch(s);
      if forall i :: 0 <= i < |s| ==> Sealed(s[i]) {
        SealedBatch(s);
        forall i | 0 <= i < |s| ensures Survives(s[i]) <==> ReadsBack(s[i]) {
          if s[i].Batch? {
            SealedIsClean(s[i]);
          }
          SurvivesExactly(s[i]);
        }
      } else {
        UnsealedFails(s);
      }
    } else {
      LeafRoundTrip(c);
    }
  }

  /** Printing and parsing gives back exactly the caps that was printed, and nothing
      beside it, if and only if the text form can hold it. */
  lemma RoundTrip(c: Caps)
    requires c.Batch? ==> Clean(c, false)
    ensures Parse(Print(c)) == Some([c]) <==> ReadsBack(c)
  {
    SurvivesExactly(c);
  }
}
