/** Descriptions with lists of alternatives, ranges, single values and blanks: what the text
    says is what is parsed. */
module CapsLists {
  import opened Options
  import opened Integers
  import opened Strings
  import opened Caps
  import opened CapsSets
  import opened CapsPrinter
  import opened CapsParser
  import opened CapsNames
  import opened CapsScan
  import opened CapsValues
  import opened CapsLeaves
  import opened CapsBatches
  import opened CapsDescriptions

  // ----- blanks -----

  predicate Blank(s: string) {
    forall i :: 0 <= i < |s| ==> IsSpace(s[i])
  }

  function Pad(b: string, s: string): string {
    b + s + b
  }

  lemma {:induction false} TrimStartBlank(b: string, s: string)
    requires Blank(b)
    ensures TrimStart(b + s) == TrimStart(s)
  {
    if b == [] {
      assert b + s == s;
    } else {
      assert (b + s)[0] == b[0] && (b + s)[1..] == b[1..] + s;
      TrimStartBlank(b[1..], s);
    }
  }

  lemma {:induction false} TrimEndBlank(s: string, b: string)
    requires Blank(b)
    ensures TrimEnd(s + b) == TrimEnd(s)
  {
    if b == [] {
      assert s + b == s;
    } else {
      assert (s + b)[|s + b| - 1] == b[|b| - 1] && (s + b)[..|s + b| - 1] == s + b[..|b| - 1];
      TrimEndBlank(s, b[..|b| - 1]);
    }
  }

  /** Blanks on both sides are taken off. */
  lemma TrimPadded(a: string, s: string, b: string)
    requires Blank(a) && Blank(b) && Trimmed(s) && s != []
    ensures Trim(a + s + b) == s
  {
    assert a + s + b == a + (s + b);
    TrimStartBlank(a, s + b);
    assert (s + b)[0] == s[0];
    TrimEndBlank(s, b);
    TrimOfTrimmed(s);
  }

  /** Text with something in it is not blank. */
  lemma PaddedIsText(a: string, s: string)
    requires Blank(a) && s != [] && !IsSpace(s[0])
    ensures Trim(a + s) != []
  {
    TrimStartBlank(a, s);
    var k := TrimEndTail(s);
  }

  lemma BlankIsUnmarked(b: string)
    requires Blank(b)
    ensures Unmarked(b) && '=' !in b
  {
    forall i | 0 <= i < |b| ensures b[i] != '"' && b[i] != ',' && b[i] != '[' && b[i] != ']'
        && b[i] != '{' && b[i] != '}' && b[i] != '<' && b[i] != '>' && b[i] != '=' {
      assert IsSpace(b[i]);
    }
  }

  // ----- reading one value -----

  function Inside(parts: seq<string>): string {
    if parts == [] then "" else Commas(parts)
  }

  function Braces(parts: seq<string>): string {
    "{" + Inside(parts) + "}"
  }

  function Trims(parts: seq<string>): (r: seq<string>)
    ensures |r| == |parts|
  {
    if parts == [] then [] else [Trim(parts[0])] + Trims(parts[1..])
  }

  lemma {:induction false} ItemsStay(parts: seq<string>)
    requires forall i :: 0 <= i < |parts| ==> Trim(parts[i]) != []
    ensures TrimmedNonEmpty(parts) == Trims(parts)
  {
    if parts != [] {
      ItemsStay(parts[1..]);
    }
  }

  lemma InsideSplits(parts: seq<string>)
    requires AllSolid(parts)
    ensures SplitTop(Inside(parts)) == if parts == [] then [""] else parts
  {
    if parts != [] {
      SplitCommas(parts);
    } else {
      SplitWhole("");
    }
  }

  lemma EnclosedBy(open: string, inner: string, close: string)
    requires |open| == |close| == 1
    ensures Enclosed(open + inner + close, open, close) == Some(inner)
  {
    assert open + inner + close == open + (inner + close);
    StripPrefixOf(open, inner + close);
    StripSuffixOf(inner, close);
  }

  /** A list in braces is read as all its items, in order, whatever blanks stand around the
      list and around each item. */
  lemma ListReads(before: string, parts: seq<string>, after: string)
    requires Blank(before) && Blank(after) && AllSolid(parts)
    requires forall i :: 0 <= i < |parts| ==> Trim(parts[i]) != []
    ensures ParseFieldVal(before + Braces(parts) + after) == List(Trims(parts))
  {
    var v := Braces(parts);
    assert v[0] == '{' && v[|v| - 1] == '}';
    TrimPadded(before, v, after);
    assert !("[" <= v);
    EnclosedBy("{", Inside(parts), "}");
    InsideSplits(parts);
    ItemsStay(parts);
    if parts == [] {
      assert TrimmedNonEmpty([""]) == [] by {
        assert TrimmedNonEmpty([""][1..]) == [];
      }
    }
  }

  /** A range in brackets is read as its two ends; anything after them is a step and ignored. */
  lemma RangeReads(before: string, lo: string, hi: string, more: seq<string>, after: string)
    requires Blank(before) && Blank(after) && AllSolid([lo, hi] + more)
    ensures ParseFieldVal(before + ("[" + Commas([lo, hi] + more) + "]") + after) == Between(Trim(lo), Trim(hi))
  {
    var inner := Commas([lo, hi] + more);
    var v := "[" + inner + "]";
    assert v[0] == '[' && v[|v| - 1] == ']';
    TrimPadded(before, v, after);
    EnclosedBy("[", inner, "]");
    SplitCommas([lo, hi] + more);
  }

  /** Any other value is read as it stands. */
  lemma WordReads(before: string, w: string, after: string)
    requires Blank(before) && Blank(after) && Plain(w) && w != []
    ensures ParseFieldVal(before + w + after) == One(w)
  {
    PlainIsTrimmed(w);
    TrimPadded(before, w, after);
    assert PlainChar(w[0]);
    assert !("[" <= w) && !("{" <= w);
  }

  // ----- reading the fields -----

  /** A field with blanks around its key. */
  function SpacedField(b: string, f: (string, string)): string {
    Pad(b, f.0) + "=" + f.1
  }

  function SpacedFields(b: string, fs: seq<(string, string)>): (r: seq<string>)
    ensures |r| == |fs|
  {
    if fs == [] then [] else [SpacedField(b, fs[0])] + SpacedFields(b, fs[1..])
  }

  /** A media type and fields, separated by commas, with blanks around each. */
  function Description(b: string, media: string, fs: seq<(string, string)>): string {
    Commas([Pad(b, media)] + SpacedFields(b, fs))
  }

  lemma UnmarkedIsSolid(s: string)
    requires Unmarked(s)
    ensures Solid(s)
  {
    UnmarkedRuns(TOP, s);
  }

  lemma PaddedIsUnmarked(b: string, s: string)
    requires Blank(b) && Plain(s)
    ensures Unmarked(Pad(b, s))
  {
    BlankIsUnmarked(b);
    PlainIsUnmarked(s);
  }

  lemma SpacedFieldReads(b: string, f: (string, string))
    requires Blank(b) && GoodKey(f.0) && Solid(f.1)
    ensures Solid(SpacedField(b, f)) && Trim(SpacedField(b, f)) != []
    ensures SplitOnce(SpacedField(b, f), '=') == Some((Pad(b, f.0), f.1)) && Trim(Pad(b, f.0)) == f.0
  {
    PaddedIsUnmarked(b, f.0);
    UnmarkedIsSolid(Pad(b, f.0));
    PlainIsSolid("=");
    SolidConcat(Pad(b, f.0), "=");
    SolidConcat(Pad(b, f.0) + "=", f.1);
    assert PlainChar(f.0[0]);
    assert SpacedField(b, f) == b + (f.0 + b + "=" + f.1);
    PaddedIsText(b, f.0 + b + "=" + f.1);
    BlankIsUnmarked(b);
    SplitOnceAt(Pad(b, f.0), '=', f.1);
    PlainIsTrimmed(f.0);
    TrimPadded(b, f.0, b);
  }

  lemma {:induction false} SpacedFieldsRead(b: string, fs: seq<(string, string)>)
    requires Blank(b) && GoodFields(fs)
    ensures AllSolid(SpacedFields(b, fs)) && ParseFields(SpacedFields(b, fs)) == Some(Read(fs))
  {
    if fs != [] {
      SpacedFieldReads(b, fs[0]);
      SpacedFieldsRead(b, fs[1..]);
    }
  }

  /** A description is taken apart into its media type and its fields' values, blanks or not. */
  lemma DescriptionReads(b: string, media: string, fs: seq<(string, string)>)
    requires Blank(b) && Plain(media) && media != [] && GoodFields(fs)
    ensures MediaOf(Description(b, media, fs)) == media
    ensures FieldsOf(Description(b, media, fs)) == Some(Read(fs))
  {
    var parts := [Pad(b, media)] + SpacedFields(b, fs);
    PaddedIsUnmarked(b, media);
    UnmarkedIsSolid(Pad(b, media));
    SpacedFieldsRead(b, fs);
    assert AllSolid(parts);
    SplitCommas(parts);
    PlainIsTrimmed(media);
    TrimPadded(b, media, b);
    assert parts[1..] == SpacedFields(b, fs);
  }

  // ----- what a field says -----

  /** A field that is not there, has one value, lists alternatives, or gives a range. */
  datatype Listing<T> = Unsaid | Said(value: T) | Among(values: seq<T>) | Spans(lo: T, hi: T)

  function Words<T>(vs: seq<T>, word: T -> string): (r: seq<string>)
    ensures |r| == |vs|
  {
    if vs == [] then [] else [word(vs[0])] + Words(vs[1..], word)
  }

  function PadAll(b: string, ws: seq<string>): (r: seq<string>)
    ensures |r| == |ws|
  {
    if ws == [] then [] else [Pad(b, ws[0])] + PadAll(b, ws[1..])
  }

  function ListingText<T>(l: Listing<T>, b: string, word: T -> string): Option<string> {
    match l
    case Unsaid => None
    case Said(v) => Some(Pad(b, word(v)))
    case Among(vs) => Some(Pad(b, Braces(PadAll(b, Words(vs, word)))))
    case Spans(lo, hi) => Some(Pad(b, "[" + Commas([Pad(b, word(lo)), Pad(b, word(hi))] + []) + "]"))
  }

  /** The values a field names. */
  function Named<T>(l: Listing<T>): seq<T> {
    match l
    case Unsaid => []
    case Said(v) => [v]
    case Among(vs) => vs
    case Spans(lo, hi) => [lo, hi]
  }

  /** Each value is written as a word. */
  ghost predicate Wordy<T>(vs: seq<T>, word: T -> string) {
    forall i :: 0 <= i < |vs| ==> Plain(word(vs[i])) && word(vs[i]) != []
  }

  lemma {:induction false} WordsRead<T>(vs: seq<T>, b: string, word: T -> string)
    requires Blank(b) && Wordy(vs, word)
    ensures
      var parts := PadAll(b, Words(vs, word));
      && Trims(parts) == Words(vs, word)
      && forall i :: 0 <= i < |parts| ==> Unmarked(parts[i]) && Trim(parts[i]) != []
  {
    if vs != [] {
      WordsRead(vs[1..], b, word);
      PaddedIsUnmarked(b, word(vs[0]));
      PlainIsTrimmed(word(vs[0]));
      TrimPadded(b, word(vs[0]), b);
    }
  }

  lemma BracketsAreSolid(b: string, open: char, inner: string, close: char)
    requires (open == '[' && close == ']') || (open == '{' && close == '}') || (open == '<' && close == '>')
    requires Blank(b) && Level(Scan(1, false), inner)
    ensures Solid(Pad(b, [open] + inner + [close]))
  {
    BlankIsUnmarked(b);
    UnmarkedIsSolid(b);
    LevelBracket(TOP, open, inner, close);
    RunOne(TOP, open);
    RunOne(Scan(1, false), close);
    RunConcat(TOP, [open], inner);
    RunConcat(TOP, [open] + inner, [close]);
    SolidConcat(b, [open] + inner + [close]);
    SolidConcat(b + ([open] + inner + [close]), b);
  }

  lemma {:induction false} UnmarkedAreLevel(st: Scan, parts: seq<string>)
    requires forall i :: 0 <= i < |parts| ==> Unmarked(parts[i])
    ensures Level(st, Inside(parts)) && AllSolid(parts)
  {
    forall i | 0 <= i < |parts| ensures Level(st, parts[i]) && Solid(parts[i]) {
      UnmarkedRuns(st, parts[i]);
      UnmarkedIsSolid(parts[i]);
    }
    if parts != [] {
      CommasAreLevel(st, parts);
    }
  }

  lemma AmongReads<T>(vs: seq<T>, b: string, word: T -> string)
    requires Blank(b) && Wordy(vs, word)
    ensures Solid(Pad(b, Braces(PadAll(b, Words(vs, word)))))
    ensures ParseFieldVal(Pad(b, Braces(PadAll(b, Words(vs, word))))) == List(Words(vs, word))
  {
    var parts := PadAll(b, Words(vs, word));
    WordsRead(vs, b, word);
    UnmarkedAreLevel(Scan(1, false), parts);
    BracketsAreSolid(b, '{', Inside(parts), '}');
    ListReads(b, parts, b);
  }

  lemma SpansReads<T>(lo: T, hi: T, b: string, word: T -> string)
    requires Blank(b) && Wordy([lo, hi], word)
    ensures
      var text := Pad(b, "[" + Commas([Pad(b, word(lo)), Pad(b, word(hi))] + []) + "]");
      Solid(text) && ParseFieldVal(text) == Between(word(lo), word(hi))
  {
    var parts := [Pad(b, word(lo)), Pad(b, word(hi))];
    assert parts + [] == parts;
    assert [lo, hi][0] == lo && [lo, hi][1] == hi;
    PaddedIsUnmarked(b, word(lo));
    PaddedIsUnmarked(b, word(hi));
    UnmarkedAreLevel(Scan(1, false), parts);
    BracketsAreSolid(b, '[', Commas(parts), ']');
    RangeReads(b, Pad(b, word(lo)), Pad(b, word(hi)), [], b);
    PlainIsTrimmed(word(lo));
    PlainIsTrimmed(word(hi));
    TrimPadded(b, word(lo), b);
    TrimPadded(b, word(hi), b);
  }

  /** What a field says is what is read of it. */
  lemma ListingReads<T>(l: Listing<T>, b: string, word: T -> string)
    requires Blank(b) && Wordy(Named(l), word)
    ensures ListingText(l, b, word).Some? ==> Solid(ListingText(l, b, word).value)
    ensures ReadValue(ListingText(l, b, word))
         == match l
            case Unsaid => None
            case Said(v) => Some(One(word(v)))
            case Among(vs) => Some(List(Words(vs, word)))
            case Spans(lo, hi) => Some(Between(word(lo), word(hi)))
  {
    match l
    case Unsaid =>
    case Said(v) =>
      assert Named(l)[0] == v;
      PaddedIsUnmarked(b, word(v));
      UnmarkedIsSolid(Pad(b, word(v)));
      WordReads(b, word(v), b);
    case Among(vs) => AmongReads(vs, b, word);
    case Spans(lo, hi) => SpansReads(lo, hi, b, word);
  }

  // ----- the alternatives of a field -----

  function Each<T, U>(vs: seq<T>, made: T -> U): (r: seq<U>)
    ensures |r| == |vs| && forall i :: 0 <= i < |r| ==> r[i] == made(vs[i])
  {
    if vs == [] then [] else [made(vs[0])] + Each(vs[1..], made)
  }

  lemma {:induction false} WordsParse<T, U>(vs: seq<T>, word: T -> string, parse: string -> Option<U>, made: T -> U)
    requires forall i :: 0 <= i < |vs| ==> parse(word(vs[i])) == Some(made(vs[i]))
    ensures ParseAll(Words(vs, word), parse) == Some(Each(vs, made))
  {
    if vs != [] {
      WordsParse(vs[1..], word, parse, made);
    }
  }

  /** The alternatives a field stands for, of `absent` when it is not there; a range is none. */
  function Alternatives<T, U>(l: Listing<T>, absent: seq<U>, made: T -> U): Option<seq<U>> {
    match l
    case Unsaid => Some(absent)
    case Said(v) => Some([made(v)])
    case Among(vs) => Some(Each(vs, made))
    case Spans(_, _) => None
  }

  lemma ListingExpands<T, U>(l: Listing<T>, b: string, word: T -> string, absent: seq<U>, parse: string -> Option<U>, made: T -> U)
    requires Blank(b) && Wordy(Named(l), word)
    requires forall i :: 0 <= i < |Named(l)| ==> parse(word(Named(l)[i])) == Some(made(Named(l)[i]))
    ensures Expand(ReadValue(ListingText(l, b, word)), absent, parse) == Alternatives(l, absent, made)
  {
    ListingReads(l, b, word);
    match l
    case Unsaid =>
    case Said(v) =>
      assert Named(l)[0] == v;
      ParseOne(word(v), parse, made(v));
    case Among(vs) => WordsParse(vs, word, parse, made);
    case Spans(_, _) =>
  }

  function DimsOf(l: Listing<u32>): seq<Dim> {
    match l
    case Unsaid => [Dim.Any]
    case Said(v) => [Dim.Fixed(v)]
    case Among(vs) => Each(vs, (v: u32) => Dim.Fixed(v))
    case Spans(lo, hi) => [Dim.Range(lo, hi)]
  }

  function RatesOf(l: Listing<u32>): seq<Rate> {
    match l
    case Unsaid => [Rate.Any]
    case Said(q) => [Rate.Fixed(q)]
    case Among(qs) => Each(qs, (q: u32) => Rate.Fixed(q))
    case Spans(lo, hi) => [Rate.Range(lo, hi)]
  }

  const NUMBER: u32 -> string := (n: u32) => Decimal(n)
  const FRACTION: u32 -> string := (q: u32) => Q16Fraction(q)

  lemma NumbersAreWords(vs: seq<u32>)
    ensures Wordy(vs, NUMBER) && forall i :: 0 <= i < |vs| ==> ParseU32(NUMBER(vs[i])) == Some(vs[i])
  {
    forall i | 0 <= i < |vs|
      ensures Plain(NUMBER(vs[i])) && NUMBER(vs[i]) != [] && ParseU32(NUMBER(vs[i])) == Some(vs[i])
    {
      DecimalPlain(vs[i]);
      NumberReads(vs[i]);
    }
  }

  lemma FractionsAreWords(qs: seq<u32>)
    ensures Wordy(qs, FRACTION) && forall i :: 0 <= i < |qs| ==> RateQ16(FRACTION(qs[i])) == Some(qs[i])
  {
    forall i | 0 <= i < |qs|
      ensures Plain(FRACTION(qs[i])) && FRACTION(qs[i]) != [] && RateQ16(FRACTION(qs[i])) == Some(qs[i])
    {
      Q16Reads(qs[i]);
    }
  }

  lemma DimsRead(l: Listing<u32>, b: string)
    requires Blank(b)
    ensures ListingText(l, b, NUMBER).Some? ==> Solid(ListingText(l, b, NUMBER).value)
    ensures ExpandDim(ReadValue(ListingText(l, b, NUMBER))) == Some(DimsOf(l))
  {
    NumbersAreWords(Named(l));
    ListingReads(l, b, NUMBER);
    if l.Spans? {
      assert Named(l)[0] == l.lo && Named(l)[1] == l.hi;
    } else {
      ListingExpands(l, b, NUMBER, [Dim.Any], ParseFixedDim, (v: u32) => Dim.Fixed(v));
    }
  }

  lemma RatesRead(l: Listing<u32>, b: string)
    requires Blank(b)
    ensures ListingText(l, b, FRACTION).Some? ==> Solid(ListingText(l, b, FRACTION).value)
    ensures ExpandRate(ReadValue(ListingText(l, b, FRACTION))) == Some(RatesOf(l))
  {
    FractionsAreWords(Named(l));
    ListingReads(l, b, FRACTION);
    if l.Spans? {
      assert Named(l)[0] == l.lo && Named(l)[1] == l.hi;
    } else {
      ListingExpands(l, b, FRACTION, [Rate.Any], ParseRate, (q: u32) => Rate.Fixed(q));
    }
  }

  // ----- fields of a description -----

  ghost predicate SolidValue(v: Option<string>) {
    v.Some? ==> Solid(v.value)
  }

  lemma GoodConcat(a: seq<(string, string)>, b: seq<(string, string)>)
    requires GoodFields(a) && GoodFields(b)
    ensures GoodFields(a + b)
  {
  }

  function FourFields(k0: string, v0: Option<string>, k1: string, v1: Option<string>,
                      k2: string, v2: Option<string>, k3: string, v3: Option<string>): seq<(string, string)> {
    Field(k0, v0) + Field(k1, v1) + Field(k2, v2) + Field(k3, v3)
  }

  lemma FourAreGood(k0: string, v0: Option<string>, k1: string, v1: Option<string>,
                    k2: string, v2: Option<string>, k3: string, v3: Option<string>)
    requires GoodKey(k0) && GoodKey(k1) && GoodKey(k2) && GoodKey(k3)
    requires SolidValue(v0) && SolidValue(v1) && SolidValue(v2) && SolidValue(v3)
    ensures GoodFields(FourFields(k0, v0, k1, v1, k2, v2, k3, v3))
  {
    GoodConcat(Field(k0, v0), Field(k1, v1));
    GoodConcat(Field(k0, v0) + Field(k1, v1), Field(k2, v2));
    GoodConcat(Field(k0, v0) + Field(k1, v1) + Field(k2, v2), Field(k3, v3));
  }

  lemma SixAreGood(four: seq<(string, string)>, k4: string, v4: Option<string>, k5: string, v5: Option<string>)
    requires GoodFields(four) && GoodKey(k4) && GoodKey(k5) && SolidValue(v4) && SolidValue(v5)
    ensures GoodFields(four + Field(k4, v4) + Field(k5, v5))
  {
    GoodConcat(four, Field(k4, v4));
    GoodConcat(four + Field(k4, v4), Field(k5, v5));
  }

  lemma TidyValueIsSolid(v: Option<string>)
    requires GoodValue(v)
    ensures SolidValue(v)
  {
    if v.Some? {
      TidyIsSolid(v.value);
    }
  }

  // ----- raw video -----

  /** The word for a scan structure: unlike the printer, a description may say progressive. */
  function InterlaceWord(i: Interlace): Option<string> {
    match i
    case Any => None
    case Progressive => Some("progressive")
    case Interleaved => Some("interleaved")
  }

  lemma InterlaceWords()
    ensures Plain("progressive") && Plain("interleaved") && "progressive" != "interleaved"
  {
    assert "progressive"[0] != "interleaved"[0];
  }

  lemma InterlaceWordReads(i: Interlace)
    ensures SolidValue(InterlaceWord(i)) && ExpandInterlace(ReadValue(InterlaceWord(i))) == Some(i)
  {
    InterlaceWords();
    match i
    case Any =>
    case Progressive =>
      PlainValue("progressive");
      PlainIsSolid("progressive");
    case Interleaved =>
      PlainValue("interleaved");
      PlainIsSolid("interleaved");
  }

  lemma ListedMediaPlain()
    ensures Plain("video/x-raw") && Plain("audio/x-raw") && Plain("video/x-prores") && Plain("text/x-raw")
  {
  }

  const FORMAT: RawVideoFormat -> string := (f: RawVideoFormat) => RawFormatName(f)
  const SAME_FORMAT: RawVideoFormat -> RawVideoFormat := (f: RawVideoFormat) => f

  function RawFields(b: string, f: Listing<RawVideoFormat>, w: Listing<u32>, h: Listing<u32>, r: Listing<u32>,
                     il: Interlace, col: Colorimetry): seq<(string, string)> {
    FourFields("format", ListingText(f, b, FORMAT), "width", ListingText(w, b, NUMBER), "height", ListingText(h, b, NUMBER),
               "framerate", ListingText(r, b, FRACTION))
    + Field("interlace-mode", InterlaceWord(il)) + Field("colorimetry", ColorimetryText(col))
  }

  lemma FormatsRead(l: Listing<RawVideoFormat>, b: string)
    requires Blank(b)
    ensures SolidValue(ListingText(l, b, FORMAT))
    ensures Expand(ReadValue(ListingText(l, b, FORMAT)), RAW_VIDEO_FORMATS, ParseRawFormat)
         == Alternatives(l, RAW_VIDEO_FORMATS, SAME_FORMAT)
  {
    forall i | 0 <= i < |Named(l)|
      ensures Plain(FORMAT(Named(l)[i])) && FORMAT(Named(l)[i]) != []
      ensures ParseRawFormat(FORMAT(Named(l)[i])) == Some(SAME_FORMAT(Named(l)[i]))
    {
      RawNameLowers(Named(l)[i]);
      RawFormatReads(Named(l)[i]);
    }
    ListingReads(l, b, FORMAT);
    ListingExpands(l, b, FORMAT, RAW_VIDEO_FORMATS, ParseRawFormat, SAME_FORMAT);
  }

  lemma RawFieldsGood(b: string, f: Listing<RawVideoFormat>, w: Listing<u32>, h: Listing<u32>, r: Listing<u32>,
                      il: Interlace, col: Colorimetry)
    requires Blank(b)
    ensures GoodFields(RawFields(b, f, w, h, r, il, col))
  {
    SizeKeys();
    VideoKeys();
    CodecKeys();
    FormatsRead(f, b);
    DimsRead(w, b);
    DimsRead(h, b);
    RatesRead(r, b);
    InterlaceWordReads(il);
    ColorimetryReads(col);
    TidyValueIsSolid(ColorimetryText(col));
    FourAreGood("format", ListingText(f, b, FORMAT), "width", ListingText(w, b, NUMBER),
                "height", ListingText(h, b, NUMBER), "framerate", ListingText(r, b, FRACTION));
    SixAreGood(FourFields("format", ListingText(f, b, FORMAT), "width", ListingText(w, b, NUMBER),
                          "height", ListingText(h, b, NUMBER), "framerate", ListingText(r, b, FRACTION)),
               "interlace-mode", InterlaceWord(il), "colorimetry", ColorimetryText(col));
  }

  /** Looking one of six differently named fields up. */
  lemma SixLookUp(k0: string, v0: Option<string>, k1: string, v1: Option<string>, k2: string, v2: Option<string>,
                  k3: string, v3: Option<string>, k4: string, v4: Option<string>, k5: string, v5: Option<string>)
    requires k0 != k1 && k0 != k2 && k0 != k3 && k0 != k4 && k0 != k5 && k1 != k2 && k1 != k3 && k1 != k4 && k1 != k5
    requires k2 != k3 && k2 != k4 && k2 != k5 && k3 != k4 && k3 != k5 && k4 != k5
    ensures
      var fs := Read(FourFields(k0, v0, k1, v1, k2, v2, k3, v3) + Field(k4, v4) + Field(k5, v5));
      && Lookup(fs, k0) == ReadValue(v0) && Lookup(fs, k1) == ReadValue(v1) && Lookup(fs, k2) == ReadValue(v2)
      && Lookup(fs, k3) == ReadValue(v3) && Lookup(fs, k4) == ReadValue(v4) && Lookup(fs, k5) == ReadValue(v5)
  {
    var all := FourFields(k0, v0, k1, v1, k2, v2, k3, v3) + Field(k4, v4) + Field(k5, v5);
    forall k | k in {k0, k1, k2, k3, k4, k5}
      ensures Lookup(Read(all), k) == ReadValue(Find(all, k))
      ensures Find(all, k) == if k == k0 then v0 else if k == k1 then v1 else if k == k2 then v2 else if k == k3 then v3
                              else if k == k4 then v4 else v5
    {
      LookupRead(all, k);
      FindSix(k0, v0, k1, v1, k2, v2, k3, v3, k4, v4, k5, v5, k);
    }
  }

  lemma RawFieldsLookUp(b: string, f: Listing<RawVideoFormat>, w: Listing<u32>, h: Listing<u32>, r: Listing<u32>,
                        il: Interlace, col: Colorimetry)
    ensures
      var fs := Read(RawFields(b, f, w, h, r, il, col));
      && Lookup(fs, "format") == ReadValue(ListingText(f, b, FORMAT))
      && Lookup(fs, "width") == ReadValue(ListingText(w, b, NUMBER)) && Lookup(fs, "height") == ReadValue(ListingText(h, b, NUMBER))
      && Lookup(fs, "framerate") == ReadValue(ListingText(r, b, FRACTION))
      && Lookup(fs, "interlace-mode") == ReadValue(InterlaceWord(il))
      && Lookup(fs, "colorimetry") == ReadValue(ColorimetryText(col))
  {
    SizeKeysDiffer();
    RawKeysDiffer("width");
    RawKeysDiffer("height");
    RawKeysDiffer("framerate");
    RawKeysDiffer("colorimetry");
    SixLookUp("format", ListingText(f, b, FORMAT), "width", ListingText(w, b, NUMBER), "height", ListingText(h, b, NUMBER),
              "framerate", ListingText(r, b, FRACTION), "interlace-mode", InterlaceWord(il), "colorimetry", ColorimetryText(col));
  }

  /** The formats a description without a `format` stands for. */
  const OPEN_FORMATS: seq<RawVideoFormat> := [Nv12, I420, Rgba8, Bgra8, Yuyv]

  lemma RawFieldsParse(b: string, f: Listing<RawVideoFormat>, w: Listing<u32>, h: Listing<u32>, r: Listing<u32>,
                       il: Interlace, col: Colorimetry)
    requires Blank(b)
    ensures RawSet(Read(RawFields(b, f, w, h, r, il, col)))
         == match Alternatives(f, OPEN_FORMATS, SAME_FORMAT)
            case Some(formats) => Some(RawProduct(formats, DimsOf(w), DimsOf(h), RatesOf(r), il, col))
            case None => None
  {
    RawFieldsLookUp(b, f, w, h, r, il, col);
    FormatsRead(f, b);
    DimsRead(w, b);
    DimsRead(h, b);
    RatesRead(r, b);
    InterlaceWordReads(il);
    ColorimetryReads(col);
  }

  /** A raw video description stands for exactly one caps per combination of what its fields
      say, in order; with a range of formats it does not parse. */
  lemma RawListsParse(b: string, f: Listing<RawVideoFormat>, w: Listing<u32>, h: Listing<u32>, r: Listing<u32>,
                      il: Interlace, col: Colorimetry)
    requires Blank(b)
    ensures Parse(Description(b, "video/x-raw", RawFields(b, f, w, h, r, il, col)))
         == match Alternatives(f, OPEN_FORMATS, SAME_FORMAT)
            case Some(formats) => Some(RawProduct(formats, DimsOf(w), DimsOf(h), RatesOf(r), il, col))
            case None => None
  {
    var fs := RawFields(b, f, w, h, r, il, col);
    ListedMediaPlain();
    RawFieldsGood(b, f, w, h, r, il, col);
    DescriptionReads(b, "video/x-raw", fs);
    RawDescriptionParses(Description(b, "video/x-raw", fs), Read(fs));
    RawFieldsParse(b, f, w, h, r, il, col);
  }

  // ----- compressed video -----

  /** The fields of compressed video, after one that tells the codec further. */
  function CodedFields(b: string, key: string, tells: Option<string>, w: Listing<u32>, h: Listing<u32>, r: Listing<u32>,
                       col: Colorimetry, al: Alignment): seq<(string, string)> {
    FourFields(key, tells, "width", ListingText(w, b, NUMBER), "height", ListingText(h, b, NUMBER),
               "framerate", ListingText(r, b, FRACTION))
    + Field("colorimetry", ColorimetryText(col)) + Field("alignment", AlignmentText(al))
  }

  lemma CodedFieldsGood(b: string, key: string, tells: Option<string>, w: Listing<u32>, h: Listing<u32>, r: Listing<u32>,
                        col: Colorimetry, al: Alignment)
    requires Blank(b) && GoodKey(key) && SolidValue(tells)
    ensures GoodFields(CodedFields(b, key, tells, w, h, r, col, al))
  {
    SizeKeys();
    VideoKeys();
    DimsRead(w, b);
    DimsRead(h, b);
    RatesRead(r, b);
    ColorimetryReads(col);
    AlignmentReads(al);
    TidyValueIsSolid(ColorimetryText(col));
    TidyValueIsSolid(AlignmentText(al));
    FourAreGood(key, tells, "width", ListingText(w, b, NUMBER), "height", ListingText(h, b, NUMBER),
                "framerate", ListingText(r, b, FRACTION));
    SixAreGood(FourFields(key, tells, "width", ListingText(w, b, NUMBER), "height", ListingText(h, b, NUMBER),
                          "framerate", ListingText(r, b, FRACTION)),
               "colorimetry", ColorimetryText(col), "alignment", AlignmentText(al));
  }

  lemma CodedFieldsLookUp(b: string, key: string, tells: Option<string>, w: Listing<u32>, h: Listing<u32>, r: Listing<u32>,
                          col: Colorimetry, al: Alignment)
    requires key == "variant" || key == "fourcc"
    ensures
      var fs := Read(CodedFields(b, key, tells, w, h, r, col, al));
      && Lookup(fs, key) == ReadValue(tells)
      && Lookup(fs, "width") == ReadValue(ListingText(w, b, NUMBER)) && Lookup(fs, "height") == ReadValue(ListingText(h, b, NUMBER))
      && Lookup(fs, "framerate") == ReadValue(ListingText(r, b, FRACTION))
      && Lookup(fs, "colorimetry") == ReadValue(ColorimetryText(col)) && Lookup(fs, "alignment") == ReadValue(AlignmentText(al))
  {
    SizeKeysDiffer();
    CompressedKeysDiffer("width");
    CompressedKeysDiffer("height");
    CompressedKeysDiffer("framerate");
    CompressedKeysDiffer("colorimetry");
    CompressedKeysDiffer("alignment");
    AlignmentKeyDiffers();
    SixLookUp(key, tells, "width", ListingText(w, b, NUMBER), "height", ListingText(h, b, NUMBER),
              "framerate", ListingText(r, b, FRACTION), "colorimetry", ColorimetryText(col), "alignment", AlignmentText(al));
  }

  lemma AlignmentKeyDiffers()
    ensures "width" != "alignment" && "height" != "alignment" && "colorimetry" != "alignment"
  {
  }

  lemma CodedFieldsRead(b: string, key: string, tells: Option<string>, w: Listing<u32>, h: Listing<u32>, r: Listing<u32>,
                        col: Colorimetry, al: Alignment)
    requires Blank(b) && (key == "variant" || key == "fourcc")
    ensures
      var fs := Read(CodedFields(b, key, tells, w, h, r, col, al));
      && ExpandDim(Lookup(fs, "width")) == Some(DimsOf(w)) && ExpandDim(Lookup(fs, "height")) == Some(DimsOf(h))
      && ExpandRate(Lookup(fs, "framerate")) == Some(RatesOf(r))
      && ExpandColorimetry(Lookup(fs, "colorimetry")) == Some(col) && ExpandAlignment(Lookup(fs, "alignment")) == Some(al)
  {
    CodedFieldsLookUp(b, key, tells, w, h, r, col, al);
    DimsRead(w, b);
    DimsRead(h, b);
    RatesRead(r, b);
    ColorimetryReads(col);
    AlignmentReads(al);
  }

  lemma PortableMediaPlain()
    ensures Plain("image/x-portable-anymap") && Plain("image/x-portable-bitmap")
    ensures Plain("image/x-portable-graymap") && Plain("image/x-portable-pixmap")
  {
  }

  lemma CodecMediaIsWord(media: string, v: VideoCodec)
    requires CodecOfMedia(media) == Some(v)
    ensures Plain(media) && media != []
  {
    if v.Pnm? {
      PortableMediaPlain();
      PnmMedia(media);
    } else {
      NamedByMedia(media, v);
      CodecMediaPlain(v);
      CodecMediaUntagged(v);
    }
  }

  lemma PnmMedia(media: string)
    requires CodecOfMedia(media) == Some(Pnm)
    ensures media == "image/x-portable-anymap" || media == "image/x-portable-bitmap" || media == "image/x-portable-graymap"
         || media == "image/x-portable-pixmap"
  {
  }

  lemma NamedByMedia(media: string, v: VideoCodec)
    requires CodecOfMedia(media) == Some(v) && !v.Pnm?
    ensures !v.Tagged? && media == CodecMedia(v)
  {
    if v.Mjpeg? || v.Png? || v.WebP? {
      ImageNamed(media, v);
    } else if v.H264? || v.H265? || v.Av1? || v.Vp8? || v.Vp9? {
      StreamNamed(media, v);
    } else {
      FileNamed(media, v);
    }
  }

  lemma ImageNamed(media: string, v: VideoCodec)
    requires CodecOfMedia(media) == Some(v) && (v.Mjpeg? || v.Png? || v.WebP?)
    ensures media == CodecMedia(v)
  {
  }

  lemma StreamNamed(media: string, v: VideoCodec)
    requires CodecOfMedia(media) == Some(v) && (v.H264? || v.H265? || v.Av1? || v.Vp8? || v.Vp9?)
    ensures media == CodecMedia(v)
  {
  }

  lemma FileNamed(media: string, v: VideoCodec)
    requires CodecOfMedia(media) == Some(v) && !v.Pnm? && !v.Mjpeg? && !v.Png? && !v.WebP?
    requires !v.H264? && !v.H265? && !v.Av1? && !v.Vp8? && !v.Vp9?
    ensures !v.Tagged? && media == CodecMedia(v)
  {
  }

  /** A description of a codec that a media type names stands for one caps per combination. */
  lemma CodecListsParse(b: string, media: string, v: VideoCodec, w: Listing<u32>, h: Listing<u32>, r: Listing<u32>,
                        col: Colorimetry, al: Alignment)
    requires Blank(b) && CodecOfMedia(media) == Some(v)
    ensures Parse(Description(b, media, CodedFields(b, "variant", None, w, h, r, col, al)))
         == Some(CompressedProduct(v, DimsOf(w), DimsOf(h), RatesOf(r), col, al))
  {
    var fs := CodedFields(b, "variant", None, w, h, r, col, al);
    CodecKeys();
    CodecMediaIsWord(media, v);
    CodedFieldsGood(b, "variant", None, w, h, r, col, al);
    DescriptionReads(b, media, fs);
    CodecHasEntry(media);
    UntaggedHasNoCodec(media, 5, Read(fs));
    ParsesAs(Description(b, media, fs), media, Read(fs));
    CodecEntry(media, Read(fs), v);
    CodedFieldsRead(b, "variant", None, w, h, r, col, al);
  }

  const VARIANT: ProResVariant -> string := (v: ProResVariant) => ProResName(v)
  const SAME_VARIANT: ProResVariant -> ProResVariant := (v: ProResVariant) => v
  const OPEN_VARIANTS: seq<ProResVariant> := [Proxy, Lt, Standard, Hq, FourFourFourFour, FourFourFourFourXq]

  lemma VariantsRead(l: Listing<ProResVariant>, b: string)
    requires Blank(b)
    ensures SolidValue(ListingText(l, b, VARIANT))
    ensures Expand(ReadValue(ListingText(l, b, VARIANT)), PRORES_VARIANTS, ParseProRes) == Alternatives(l, OPEN_VARIANTS, SAME_VARIANT)
  {
    forall i | 0 <= i < |Named(l)|
      ensures Plain(VARIANT(Named(l)[i])) && VARIANT(Named(l)[i]) != []
      ensures ParseProRes(VARIANT(Named(l)[i])) == Some(SAME_VARIANT(Named(l)[i]))
    {
      ProResReads(Named(l)[i]);
    }
    ListingReads(l, b, VARIANT);
    ListingExpands(l, b, VARIANT, OPEN_VARIANTS, ParseProRes, SAME_VARIANT);
  }

  lemma ProResFieldsParse(fs: Fields, ws: seq<Dim>, hs: seq<Dim>, rs: seq<Rate>, col: Colorimetry, al: Alignment,
                          variants: seq<ProResVariant>)
    requires ExpandDim(Lookup(fs, "width")) == Some(ws) && ExpandDim(Lookup(fs, "height")) == Some(hs)
    requires ExpandRate(Lookup(fs, "framerate")) == Some(rs)
    requires ExpandColorimetry(Lookup(fs, "colorimetry")) == Some(col) && ExpandAlignment(Lookup(fs, "alignment")) == Some(al)
    ensures ProResSets(fs, variants) == Some(ProResProduct(variants, ws, hs, rs, col, al))
  {
    ProResSetsAre(fs, variants);
  }

  /** A ProRes description stands for every variant it names, and for all six when it names
      none, with every combination of the other fields. */
  lemma ProResListsParse(b: string, vs: Listing<ProResVariant>, w: Listing<u32>, h: Listing<u32>, r: Listing<u32>,
                         col: Colorimetry, al: Alignment)
    requires Blank(b)
    ensures Parse(Description(b, "video/x-prores", CodedFields(b, "variant", ListingText(vs, b, VARIANT), w, h, r, col, al)))
         == match Alternatives(vs, OPEN_VARIANTS, SAME_VARIANT)
            case Some(variants) => Some(ProResProduct(variants, DimsOf(w), DimsOf(h), RatesOf(r), col, al))
            case None => None
  {
    var tells := ListingText(vs, b, VARIANT);
    var fs := CodedFields(b, "variant", tells, w, h, r, col, al);
    CodecKeys();
    ListedMediaPlain();
    VariantsRead(vs, b);
    CodedFieldsGood(b, "variant", tells, w, h, r, col, al);
    DescriptionReads(b, "video/x-prores", fs);
    ProResDescriptionParses(Description(b, "video/x-prores", fs), Read(fs));
    CodedFieldsLookUp(b, "variant", tells, w, h, r, col, al);
    CodedFieldsRead(b, "variant", tells, w, h, r, col, al);
    if Alternatives(vs, OPEN_VARIANTS, SAME_VARIANT).Some? {
      ProResFieldsParse(Read(fs), DimsOf(w), DimsOf(h), RatesOf(r), col, al, Alternatives(vs, OPEN_VARIANTS, SAME_VARIANT).value);
    }
  }

  // ----- audio -----

  const COUNT: u8 -> string := (n: u8) => Decimal(n)
  const SAME_COUNT: u8 -> u8 := (n: u8) => n
  const SAME_NUMBER: u32 -> u32 := (n: u32) => n

  /** The fields of audio, after one that tells the format further. */
  function SoundFields(b: string, key: string, tells: Option<string>, ch: Listing<u8>, sr: Listing<u32>, l: ChannelLayout)
    : seq<(string, string)> {
    FourFields(key, tells, "channels", ListingText(ch, b, COUNT), "rate", ListingText(sr, b, NUMBER), "channel-mask", MaskText(l))
  }

  lemma CountsRead(l: Listing<u8>, b: string)
    requires Blank(b)
    ensures SolidValue(ListingText(l, b, COUNT))
    ensures Expand(ReadValue(ListingText(l, b, COUNT)), [ANY_CHANNELS], ParseU8) == Alternatives(l, [0], SAME_COUNT)
  {
    forall i | 0 <= i < |Named(l)|
      ensures Plain(COUNT(Named(l)[i])) && COUNT(Named(l)[i]) != [] && ParseU8(COUNT(Named(l)[i])) == Some(SAME_COUNT(Named(l)[i]))
    {
      DecimalPlain(Named(l)[i]);
      ByteReads(Named(l)[i]);
    }
    ListingReads(l, b, COUNT);
    ListingExpands(l, b, COUNT, [ANY_CHANNELS], ParseU8, SAME_COUNT);
  }

  lemma NumbersRead(l: Listing<u32>, b: string)
    requires Blank(b)
    ensures SolidValue(ListingText(l, b, NUMBER))
    ensures Expand(ReadValue(ListingText(l, b, NUMBER)), [ANY_SAMPLE_RATE], ParseU32) == Alternatives(l, [0], SAME_NUMBER)
  {
    NumbersAreWords(Named(l));
    ListingReads(l, b, NUMBER);
    ListingExpands(l, b, NUMBER, [ANY_SAMPLE_RATE], ParseU32, SAME_NUMBER);
  }

  lemma SoundFieldsGood(b: string, key: string, tells: Option<string>, ch: Listing<u8>, sr: Listing<u32>, l: ChannelLayout)
    requires Blank(b) && GoodKey(key) && SolidValue(tells)
    ensures GoodFields(SoundFields(b, key, tells, ch, sr, l))
  {
    AudioKeys();
    CountsRead(ch, b);
    NumbersRead(sr, b);
    MaskReads(l);
    TidyValueIsSolid(MaskText(l));
    FourAreGood(key, tells, "channels", ListingText(ch, b, COUNT), "rate", ListingText(sr, b, NUMBER), "channel-mask", MaskText(l));
  }

  /** Looking one of four differently named fields up. */
  lemma FourLookUp(k0: string, v0: Option<string>, k1: string, v1: Option<string>, k2: string, v2: Option<string>,
                   k3: string, v3: Option<string>)
    requires k0 != k1 && k0 != k2 && k0 != k3 && k1 != k2 && k1 != k3 && k2 != k3
    ensures
      var fs := Read(FourFields(k0, v0, k1, v1, k2, v2, k3, v3));
      Lookup(fs, k0) == ReadValue(v0) && Lookup(fs, k1) == ReadValue(v1) && Lookup(fs, k2) == ReadValue(v2)
      && Lookup(fs, k3) == ReadValue(v3)
  {
    var all := FourFields(k0, v0, k1, v1, k2, v2, k3, v3);
    forall k | k in {k0, k1, k2, k3}
      ensures Lookup(Read(all), k) == ReadValue(Find(all, k))
      ensures Find(all, k) == if k == k0 then v0 else if k == k1 then v1 else if k == k2 then v2 else v3
    {
      LookupRead(all, k);
      FindFour(k0, v0, k1, v1, k2, v2, k3, v3, k);
    }
  }

  lemma SoundFieldsLookUp(b: string, tells: Option<string>, ch: Listing<u8>, sr: Listing<u32>, l: ChannelLayout)
    ensures
      var fs := Read(SoundFields(b, "format", tells, ch, sr, l));
      && Lookup(fs, "format") == ReadValue(tells) && Lookup(fs, "channels") == ReadValue(ListingText(ch, b, COUNT))
      && Lookup(fs, "rate") == ReadValue(ListingText(sr, b, NUMBER)) && Lookup(fs, "channel-mask") == ReadValue(MaskText(l))
  {
    AudioKeysDiffer();
    FourLookUp("format", tells, "channels", ListingText(ch, b, COUNT), "rate", ListingText(sr, b, NUMBER), "channel-mask", MaskText(l));
  }

  /** One audio caps per format, channel count and rate named; a range of either does not read. */
  function SoundOf(formats: seq<AudioFormat>, ch: Listing<u8>, sr: Listing<u32>, l: ChannelLayout): Option<CapsSet> {
    if ch.Spans? || sr.Spans? then None
    else Some(AudioProduct(formats, Alternatives(ch, [0], SAME_COUNT).value, Alternatives(sr, [0], SAME_NUMBER).value, l))
  }

  lemma SoundSetReads(b: string, tells: Option<string>, ch: Listing<u8>, sr: Listing<u32>, l: ChannelLayout, formats: seq<AudioFormat>)
    requires Blank(b)
    ensures AudioSet(Read(SoundFields(b, "format", tells, ch, sr, l)), formats) == SoundOf(formats, ch, sr, l)
  {
    SoundFieldsLookUp(b, tells, ch, sr, l);
    CountsRead(ch, b);
    NumbersRead(sr, b);
    MaskReads(l);
  }

  /** A description of a coded audio format stands for one caps per combination. */
  lemma CodedAudioListsParse(b: string, media: string, f: AudioFormat, ch: Listing<u8>, sr: Listing<u32>, l: ChannelLayout)
    requires Blank(b) && AudioOfMedia(media) == Some(f)
    ensures Parse(Description(b, media, SoundFields(b, "format", None, ch, sr, l))) == SoundOf([f], ch, sr, l)
  {
    var fs := SoundFields(b, "format", None, ch, sr, l);
    CodecKeys();
    AudioMediaIsWord(media, f);
    SoundFieldsGood(b, "format", None, ch, sr, l);
    DescriptionReads(b, media, fs);
    CodedAudioEntry(media);
    UntaggedHasNoCodec(media, 5, Read(fs));
    ParsesAs(Description(b, media, fs), media, Read(fs));
    AudioEntry(media, Read(fs), f);
    SoundSetReads(b, None, ch, sr, l, [f]);
  }

  lemma AudioMediaIsWord(media: string, f: AudioFormat)
    requires AudioOfMedia(media) == Some(f)
    ensures Plain(media) && media != []
  {
    assert !f.Tagged? && media == AudioMedia(f);
    AudioMediaIsPlain(f);
  }

  const SAMPLES: AudioFormat -> string := (f: AudioFormat) => if PcmName(f).Some? then PcmName(f).value else ""
  const SAME_SAMPLES: AudioFormat -> AudioFormat := (f: AudioFormat) => f
  const OPEN_SAMPLES: seq<AudioFormat> := [PcmS16Le, PcmF32Le, PcmS24Le, PcmS32Le, PcmU8]

  lemma SamplesRead(l: Listing<AudioFormat>, b: string)
    requires Blank(b) && forall i :: 0 <= i < |Named(l)| ==> IsPcm(Named(l)[i])
    ensures SolidValue(ListingText(l, b, SAMPLES))
    ensures Expand(ReadValue(ListingText(l, b, SAMPLES)), PCM_FORMATS, ParseAudioFormat) == Alternatives(l, OPEN_SAMPLES, SAME_SAMPLES)
  {
    forall i | 0 <= i < |Named(l)|
      ensures Plain(SAMPLES(Named(l)[i])) && SAMPLES(Named(l)[i]) != []
      ensures ParseAudioFormat(SAMPLES(Named(l)[i])) == Some(SAME_SAMPLES(Named(l)[i]))
    {
      PcmNames(Named(l)[i]);
      PcmReads(Named(l)[i]);
    }
    ListingReads(l, b, SAMPLES);
    ListingExpands(l, b, SAMPLES, OPEN_SAMPLES, ParseAudioFormat, SAME_SAMPLES);
  }

  /** A raw audio description stands for one caps per combination of sample format, channel
      count and rate, and for all five sample formats when it names none. */
  lemma PcmListsParse(b: string, f: Listing<AudioFormat>, ch: Listing<u8>, sr: Listing<u32>, l: ChannelLayout)
    requires Blank(b) && forall i :: 0 <= i < |Named(f)| ==> IsPcm(Named(f)[i])
    ensures Parse(Description(b, "audio/x-raw", SoundFields(b, "format", ListingText(f, b, SAMPLES), ch, sr, l)))
         == match Alternatives(f, OPEN_SAMPLES, SAME_SAMPLES)
            case Some(formats) => SoundOf(formats, ch, sr, l)
            case None => None
  {
    var tells := ListingText(f, b, SAMPLES);
    var fs := SoundFields(b, "format", tells, ch, sr, l);
    CodecKeys();
    ListedMediaPlain();
    SamplesRead(f, b);
    SoundFieldsGood(b, "format", tells, ch, sr, l);
    DescriptionReads(b, "audio/x-raw", fs);
    RawIsNoTag(Read(fs));
    MediaIsNotBatch();
    ParsesAs(Description(b, "audio/x-raw", fs), "audio/x-raw", Read(fs));
    RawEntries(Read(fs));
    SoundFieldsLookUp(b, tells, ch, sr, l);
    if Alternatives(f, OPEN_SAMPLES, SAME_SAMPLES).Some? {
      SoundSetReads(b, tells, ch, sr, l, Alternatives(f, OPEN_SAMPLES, SAME_SAMPLES).value);
    }
  }

  // ----- text -----

  const SUBTITLE: TextFormat -> string := (f: TextFormat) => TextName(f)
  const SAME_TEXT: TextFormat -> TextFormat := (f: TextFormat) => f
  const OPEN_TEXTS: seq<TextFormat> := [TextFormat.Utf8, PangoMarkup]

  lemma TextIsUntagged()
    ensures Untagged("text/x-raw", 4)
  {
  }

  /** A text description stands for each of the formats it names, and for both when it names none. */
  lemma TextListsParse(b: string, l: Listing<TextFormat>)
    requires Blank(b) && forall i :: 0 <= i < |Named(l)| ==> Named(l)[i].Utf8? || Named(l)[i].PangoMarkup?
    ensures Parse(Description(b, "text/x-raw", Field("format", ListingText(l, b, SUBTITLE))))
         == match Alternatives(l, OPEN_TEXTS, SAME_TEXT)
            case Some(formats) => Some(Each(formats, (f: TextFormat) => Text(f)))
            case None => None
  {
    var fs := Field("format", ListingText(l, b, SUBTITLE));
    CodecKeys();
    TextNamesPlain();
    TextFormatReads();
    ListedMediaPlain();
    TextIsUntagged();
    forall i | 0 <= i < |Named(l)|
      ensures Plain(SUBTITLE(Named(l)[i])) && SUBTITLE(Named(l)[i]) != []
      ensures ParseTextFormat(SUBTITLE(Named(l)[i])) == Some(SAME_TEXT(Named(l)[i]))
    {
    }
    ListingReads(l, b, SUBTITLE);
    ListingExpands(l, b, SUBTITLE, OPEN_TEXTS, ParseTextFormat, SAME_TEXT);
    DescriptionReads(b, "text/x-raw", fs);
    LookupRead(fs, "format");
    FindField("format", ListingText(l, b, SUBTITLE), "format");
    UntaggedHasNoCodec("text/x-raw", 4, Read(fs));
    LeafIsNoBatch("text/x-raw");
    ParsesAs(Description(b, "text/x-raw", fs), "text/x-raw", Read(fs));
    TextEntry(Read(fs));
    if Alternatives(l, OPEN_TEXTS, SAME_TEXT).Some? {
      TextSetIs(Alternatives(l, OPEN_TEXTS, SAME_TEXT).value);
    }
  }

  lemma {:induction false} TextSetIs(formats: seq<TextFormat>)
    ensures TextSet(formats) == Each(formats, (f: TextFormat) => Text(f))
  {
    if formats != [] {
      TextSetIs(formats[1..]);
    }
  }

  // ----- frame rates as fractions -----

  /** A rate written as a fraction is the greatest Q16 value that does not exceed it, and does
      not read when the denominator is zero or that value needs more than 32 bits. */
  lemma FractionMeans(num: u32, den: u32, q: u32)
    ensures ParseRate(Decimal(num) + "/" + Decimal(den)) == Some(Rate.Fixed(q))
       <==> den > 0 && q * den <= num * 65536 < (q + 1) * den
  {
    FractionReads(num, den);
    if den > 0 {
      var n := num * 65536;
      FloorOf(n, den, q);
    }
  }

  lemma FloorOf(n: nat, d: nat, q: nat)
    requires d > 0
    ensures n / d == q <==> q * d <= n < (q + 1) * d
  {
    var m := n / d;
    assert n == m * d + n % d;
    if q < m {
      assert (q + 1) * d <= m * d by { Times(q + 1, m, d); }
    } else if m < q {
      assert (m + 1) * d <= q * d by { Times(m + 1, q, d); }
    }
  }

  lemma Times(a: nat, b: nat, d: nat)
    requires a <= b
    ensures a * d <= b * d
  {
  }

  /** A rate with no denominator is that many frames a second. */
  lemma WholeRateMeans(num: u32, q: u32)
    ensures ParseRate(Decimal(num)) == Some(Rate.Fixed(q)) <==> q == num * 65536
  {
    DecimalPlain(num);
    PlainIsTrimmed(Decimal(num));
    NumberReads(num);
    SplitOnceNone(Decimal(num), '/');
    OneReads();
  }

  lemma OneReads()
    ensures ParseU32(Trim("1")) == Some(1)
  {
    assert Decimal(1) == "1";
    NumberReads(1);
    DecimalPlain(1);
    PlainIsTrimmed(Decimal(1));
  }
}
