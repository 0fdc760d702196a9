/** Batch descriptions whose streams have alternatives: every choice of one alternative per
    stream, in order, up to a limit. */
module CapsBatchLists {
  import opened Options
  import opened Strings
  import opened Caps
  import opened CapsSets
  import opened CapsPrinter
  import opened CapsParser
  import opened CapsScan
  import opened CapsBatches
  import opened CapsExpansion
  import opened CapsLists

  // ----- the text of a batch -----

  function Quoted(b: string, texts: seq<string>): (r: seq<string>)
    ensures |r| == |texts|
  {
    if texts == [] then [] else [Pad(b, Quote(texts[0]))] + Quoted(b, texts[1..])
  }

  function BatchDescription(b: string, texts: seq<string>): string {
    Description(b, BATCH_MEDIA, [("streams", Pad(b, "<" + Inside(Quoted(b, texts)) + ">"))])
  }

  /** Every stream's text, parsed. */
  function EachParsed(texts: seq<string>): Option<seq<CapsSet>> {
    if texts == [] then Some([])
    else
      var head, tail := Parse(texts[0]), EachParsed(texts[1..]);
      if head.Some? && tail.Some? then Some([head.value] + tail.value) else None
  }

  ghost predicate NoQuotes(texts: seq<string>) {
    forall i :: 0 <= i < |texts| ==> '"' !in texts[i]
  }

  lemma QuotedText(b: string, t: string)
    requires Blank(b) && '"' !in t
    ensures Solid(Pad(b, Quote(t))) && Level(Scan(1, false), Pad(b, Quote(t))) && Trim(Pad(b, Quote(t))) == Quote(t)
  {
    BlankIsUnmarked(b);
    UnmarkedIsSolid(b);
    UnmarkedRuns(Scan(1, false), b);
    QuotedRuns(0, t);
    QuoteIsSolid(t);
    SolidConcat(b, Quote(t));
    SolidConcat(b + Quote(t), b);
    QuotedRuns(1, t);
    LevelQuote(Scan(1, false), t);
    LevelConcat(Scan(1, false), b, Quote(t));
    LevelConcat(Scan(1, false), b + Quote(t), b);
    TrimPadded(b, Quote(t), b);
  }

  function QuotesOf(texts: seq<string>): (r: seq<string>)
    ensures |r| == |texts|
  {
    if texts == [] then [] else [Quote(texts[0])] + QuotesOf(texts[1..])
  }

  lemma {:induction false} QuotedTexts(b: string, texts: seq<string>)
    requires Blank(b) && NoQuotes(texts)
    ensures
      var parts := Quoted(b, texts);
      && AllSolid(parts) && Trims(parts) == QuotesOf(texts)
      && forall i :: 0 <= i < |parts| ==> Level(Scan(1, false), parts[i]) && Trim(parts[i]) != []
  {
    if texts != [] {
      QuotedText(b, texts[0]);
      QuotedTexts(b, texts[1..]);
    }
  }

  lemma {:induction false} QuotesParse(texts: seq<string>, bound: nat)
    requires forall p :: p in QuotesOf(texts) ==> |p| <= bound
    ensures ParseStreams(QuotesOf(texts), bound) == EachParsed(texts)
  {
    if texts != [] {
      QuoteTrims(texts[0]);
      assert QuotesOf(texts)[1..] == QuotesOf(texts[1..]);
      QuotesParse(texts[1..], bound);
    }
  }

  lemma AngleReads(b: string, inner: string)
    requires Blank(b)
    ensures ParseFieldVal(Pad(b, "<" + inner + ">")) == One("<" + inner + ">")
  {
    var v := "<" + inner + ">";
    assert v[0] == '<' && v[|v| - 1] == '>';
    TrimPadded(b, v, b);
    assert !("[" <= v) && !("{" <= v);
  }

  lemma StreamsSplit(b: string, texts: seq<string>)
    requires Blank(b) && NoQuotes(texts)
    ensures TrimmedNonEmpty(SplitTop(Inside(Quoted(b, texts)))) == QuotesOf(texts)
  {
    QuotedTexts(b, texts);
    InsideSplits(Quoted(b, texts));
    ItemsStay(Quoted(b, texts));
    if texts == [] {
      assert TrimmedNonEmpty([""][1..]) == [];
    }
  }

  lemma StreamsSolid(b: string, texts: seq<string>)
    requires Blank(b) && NoQuotes(texts)
    ensures Solid(Pad(b, "<" + Inside(Quoted(b, texts)) + ">"))
  {
    QuotedTexts(b, texts);
    if texts != [] {
      CommasAreLevel(Scan(1, false), Quoted(b, texts));
    }
    BracketsAreSolid(b, '<', Inside(Quoted(b, texts)), '>');
  }

  lemma BatchValueParses(b: string, texts: seq<string>)
    requires Blank(b) && NoQuotes(texts)
    ensures ParseBatch("<" + Inside(Quoted(b, texts)) + ">") == Multiplied(EachParsed(texts))
  {
    var inner := Inside(Quoted(b, texts));
    EnclosedBy("<", inner, ">");
    StreamTextsAreShort(inner);
    StreamsSplit(b, texts);
    QuotesParse(texts, |inner|);
  }

  lemma BatchDescriptionReads(b: string, texts: seq<string>)
    requires Blank(b) && NoQuotes(texts)
    ensures MediaOf(BatchDescription(b, texts)) == BATCH_MEDIA
    ensures
      var fs := FieldsOf(BatchDescription(b, texts));
      fs.Some? && Lookup(fs.value, "streams") == Some(One("<" + Inside(Quoted(b, texts)) + ">"))
  {
    var inner := Inside(Quoted(b, texts));
    var fs := [("streams", Pad(b, "<" + inner + ">"))];
    BatchMediaPlain();
    StreamsKey();
    StreamsSolid(b, texts);
    DescriptionReads(b, BATCH_MEDIA, fs);
    AngleReads(b, inner);
    LookupRead(fs, "streams");
  }

  /** A batch description stands for the batches made of its streams' descriptions, blanks or
      not; it parses only when all of them do. */
  lemma BatchTextParses(b: string, texts: seq<string>)
    requires Blank(b) && NoQuotes(texts)
    ensures Parse(BatchDescription(b, texts)) == Multiplied(EachParsed(texts))
  {
    BatchDescriptionReads(b, texts);
    BatchIsNoTag(FieldsOf(BatchDescription(b, texts)).value);
    ParsesAsBatch(BatchDescription(b, texts), FieldsOf(BatchDescription(b, texts)).value, "<" + Inside(Quoted(b, texts)) + ">");
    BatchValueParses(b, texts);
  }

  // ----- multiplying out -----

  /** How many choices of one alternative per stream there are. */
  function Choices(sets: seq<CapsSet>): nat {
    if sets == [] then 1 else |sets[0]| * Choices(sets[1..])
  }

  /** One alternative per stream. */
  predicate IsChoice(sets: seq<CapsSet>, at: seq<nat>) {
    |at| == |sets| && forall k :: 0 <= k < |at| ==> at[k] < |sets[k]|
  }

  function Chosen(sets: seq<CapsSet>, at: seq<nat>): (r: seq<Caps>)
    requires IsChoice(sets, at)
    ensures |r| == |sets| && forall k :: 0 <= k < |r| ==> r[k] == sets[k][at[k]]
  {
    seq(|sets|, k requires 0 <= k < |sets| => sets[k][at[k]])
  }

  /** The place of a choice when the last stream's alternative changes fastest. */
  function Place(sets: seq<CapsSet>, at: seq<nat>): nat
    requires IsChoice(sets, at)
  {
    if sets == [] then 0 else at[0] * Choices(sets[1..]) + Place(sets[1..], at[1..])
  }

  lemma {:induction false} ExtendOneAt(prefix: seq<Caps>, alts: CapsSet, k: nat)
    requires k < |alts|
    ensures |ExtendOne(prefix, alts)| == |alts| && ExtendOne(prefix, alts)[k] == prefix + [alts[k]]
  {
    ExtendOneSize(prefix, alts);
    if k > 0 {
      ExtendOneAt(prefix, alts[1..], k - 1);
    }
  }

  lemma {:induction false} ExtendCount(ps: seq<seq<Caps>>, alts: CapsSet)
    ensures |Extend(ps, alts)| == |ps| * |alts|
  {
    if ps != [] {
      ExtendOneSize(ps[0], alts);
      ExtendCount(ps[1..], alts);
      assert |ps| * |alts| == |alts| + (|ps| - 1) * |alts|;
    }
  }

  lemma {:induction false} ExtendAt(ps: seq<seq<Caps>>, alts: CapsSet, p: nat, k: nat, n: nat)
    requires p < |ps| && k < |alts| && n == |alts|
    ensures p * n + k < |Extend(ps, alts)| && Extend(ps, alts)[p * n + k] == ps[p] + [alts[k]]
    decreases |ps|
  {
    ExtendOneAt(ps[0], alts, k);
    ExtendCount(ps[1..], alts);
    BlockAt(ExtendOne(ps[0], alts), Extend(ps[1..], alts), n, |ps| - 1, p, k);
    if p > 0 {
      ExtendAt(ps[1..], alts, p - 1, k, n);
    }
  }

  lemma Nested(p: nat, n: nat, i: nat, c: nat, rest: nat)
    ensures (p * n + i) * c + rest == p * (n * c) + (i * c + rest)
  {
  }

  lemma ChosenFirst(sets: seq<CapsSet>, at: seq<nat>, prefix: seq<Caps>)
    requires sets != [] && IsChoice(sets, at)
    ensures IsChoice(sets[1..], at[1..])
    ensures (prefix + [sets[0][at[0]]]) + Chosen(sets[1..], at[1..]) == prefix + Chosen(sets, at)
  {
    assert Chosen(sets, at) == [sets[0][at[0]]] + Chosen(sets[1..], at[1..]);
  }

  lemma PlaceFirst(sets: seq<CapsSet>, at: seq<nat>, p: nat, all: nat, place: nat)
    requires sets != [] && IsChoice(sets, at) && all == Choices(sets) && place == p * all + Place(sets, at)
    ensures IsChoice(sets[1..], at[1..])
    ensures place == (p * |sets[0]| + at[0]) * Choices(sets[1..]) + Place(sets[1..], at[1..])
  {
    ChosenFirst(sets, at, []);
    Nested(p, |sets[0]|, at[0], Choices(sets[1..]), Place(sets[1..], at[1..]));
  }

  /** Continuing from prefixes: prefix `p` and the choice `at` give the batch at their place. */
  lemma {:induction false} ChoiceFrom(ps: seq<seq<Caps>>, sets: seq<CapsSet>, p: nat, at: seq<nat>, all: nat, place: nat)
    requires BatchesFrom(ps, sets).Some? && p < |ps| && IsChoice(sets, at)
    requires all == Choices(sets) && place == p * all + Place(sets, at)
    ensures place < |BatchesFrom(ps, sets).value| && BatchesFrom(ps, sets).value[place] == ps[p] + Chosen(sets, at)
    decreases |sets|
  {
    if sets == [] {
      assert ps[p] + Chosen(sets, at) == ps[p];
    } else {
      var n := |sets[0]|;
      ExtendAt(ps, sets[0], p, at[0], n);
      PlaceFirst(sets, at, p, all, place);
      ChosenFirst(sets, at, ps[p]);
      ChoiceFrom(Extend(ps, sets[0]), sets[1..], p * n + at[0], at[1..], Choices(sets[1..]), place);
    }
  }

  lemma {:induction false} CountFrom(ps: seq<seq<Caps>>, sets: seq<CapsSet>)
    requires BatchesFrom(ps, sets).Some?
    ensures |BatchesFrom(ps, sets).value| == |ps| * Choices(sets)
    decreases |sets|
  {
    if sets != [] {
      ExtendCount(ps, sets[0]);
      CountFrom(Extend(ps, sets[0]), sets[1..]);
      Nested(|ps|, |sets[0]|, 0, Choices(sets[1..]), 0);
    }
  }

  /** The choices among the first streams never exceed 256. */
  ghost predicate WithinLimit(count: nat, sets: seq<CapsSet>)
    decreases |sets|
  {
    sets == [] || (count * |sets[0]| <= 256 && WithinLimit(count * |sets[0]|, sets[1..]))
  }

  lemma {:induction false} LimitFrom(ps: seq<seq<Caps>>, sets: seq<CapsSet>)
    ensures BatchesFrom(ps, sets).Some? <==> WithinLimit(|ps|, sets)
    decreases |sets|
  {
    if sets != [] {
      ExtendCount(ps, sets[0]);
      LimitFrom(Extend(ps, sets[0]), sets[1..]);
    }
  }

  lemma {:induction false} AsBatchesAt(bs: seq<seq<Caps>>, k: nat)
    requires k < |bs|
    ensures |AsBatches(bs)| == |bs| && AsBatches(bs)[k] == Batch(bs[k])
  {
    AsBatchesLength(bs);
    if k > 0 {
      AsBatchesAt(bs[1..], k - 1);
    }
  }

  /** The streams multiply out to one batch per choice, in lexicographic order, exactly when
      the choices never exceed the limit on the way. */
  lemma BatchesAreChoices(sets: seq<CapsSet>, at: seq<nat>)
    ensures Multiplied(Some(sets)).Some? <==> WithinLimit(1, sets)
    ensures Multiplied(Some(sets)).Some? ==> |Multiplied(Some(sets)).value| == Choices(sets)
    ensures Multiplied(Some(sets)).Some? && IsChoice(sets, at) ==>
              Place(sets, at) < Choices(sets) && Multiplied(Some(sets)).value[Place(sets, at)] == Batch(Chosen(sets, at))
  {
    LimitFrom([[]], sets);
    if BatchesFrom([[]], sets).Some? {
      var bs := BatchesFrom([[]], sets).value;
      CountFrom([[]], sets);
      AsBatchesLength(bs);
      if IsChoice(sets, at) {
        ChoiceFrom([[]], sets, 0, at, Choices(sets), Place(sets, at));
        assert [] + Chosen(sets, at) == Chosen(sets, at);
        AsBatchesAt(bs, Place(sets, at));
      }
    }
  }
}
