/** What a caps describes, said without the operations on it: the streams a link of that
    caps may carry. Intersection and fixation are measured against it. */
module CapsMeaning {
  import opened Options
  import opened Integers
  import opened Caps

  /** One stream on a link, every field a value. */
  datatype Stream =
    | Coded(codec: VideoCodec, width: u32, height: u32, rateQ16: u32, colorimetry: Colorimetry, alignment: Alignment)
    | Frames(format: RawVideoFormat, width: u32, height: u32, rateQ16: u32, interlace: Interlace, colorimetry: Colorimetry)
    | Sound(audioFormat: AudioFormat, channels: u8, sampleRate: u32, layout: ChannelLayout)
    | Other(caps: Caps)
    | Several(streams: seq<Stream>)

  predicate DimAllows(d: Dim, v: u32) {
    match d
    case Any => true
    case Range(min, max) => min <= v <= max
    case Fixed(w) => v == w
  }

  predicate RateAllows(r: Rate, q16: u32) {
    match r
    case Any => true
    case Range(min, max) => min <= q16 <= max
    case Fixed(q) => q16 == q
  }

  predicate ColorAllows(c: Colorimetry, v: Colorimetry) {
    && (c.range == ColorRange.Unknown || c.range == v.range)
    && (c.matrix == Matrix.Unknown || c.matrix == v.matrix)
    && (c.transfer == Transfer.Unknown || c.transfer == v.transfer)
    && (c.primaries == Primaries.Unknown || c.primaries == v.primaries)
  }

  predicate LayoutAllows(l: ChannelLayout, v: ChannelLayout) {
    l == UNSPECIFIED_LAYOUT || l == v
  }

  /** The caps admits the stream. */
  predicate Describes(c: Caps, v: Stream)
    decreases c
  {
    match c
    case CompressedVideo(codec, w, h, r, col, al) =>
      && v.Coded? && v.codec == codec && DimAllows(w, v.width) && DimAllows(h, v.height) && RateAllows(r, v.rateQ16)
      && ColorAllows(col, v.colorimetry) && (al.Unspecified? || al == v.alignment)
    case RawVideo(format, w, h, r, il, col) =>
      && v.Frames? && v.format == format && DimAllows(w, v.width) && DimAllows(h, v.height) && RateAllows(r, v.rateQ16)
      && (il.Any? || il == v.interlace) && ColorAllows(col, v.colorimetry)
    case Audio(format, channels, rate, layout) =>
      && v.Sound? && v.audioFormat == format && (channels == 0 || channels == v.channels)
      && (rate == 0 || rate == v.sampleRate) && LayoutAllows(layout, v.layout)
    case Batch(streams) =>
      v.Several? && |v.streams| == |streams| && forall i :: 0 <= i < |streams| ==> Describes(streams[i], v.streams[i])
    case _ => v == Other(c)
  }

  predicate ColorKnown(c: Colorimetry) {
    !c.range.Unknown? && !c.matrix.Unknown? && !c.transfer.Unknown? && !c.primaries.Unknown?
  }

  /** No field of the stream is a wildcard. */
  predicate Concrete(v: Stream) {
    match v
    case Coded(_, _, _, _, col, al) => ColorKnown(col) && !al.Unspecified?
    case Frames(_, _, _, _, il, col) => !il.Any? && ColorKnown(col)
    case Sound(_, channels, rate, layout) => channels > 0 && rate > 0 && layout != UNSPECIFIED_LAYOUT
    case Other(_) => true
    case Several(streams) => forall i :: 0 <= i < |streams| ==> Concrete(streams[i])
  }

  /** Written the one way an overlap writes a set of values. */
  predicate CanonicalDim(d: Dim) {
    d.Range? ==> d.min < d.max && !(d.min == 0 && d.max == U32_MAX)
  }

  predicate CanonicalRate(r: Rate) {
    r.Range? ==> r.minQ16 < r.maxQ16 && !(r.minQ16 == 0 && r.maxQ16 == U32_MAX)
  }

  predicate Canonical(c: Caps)
    decreases c
  {
    match c
    case CompressedVideo(_, w, h, r, _, _) => CanonicalDim(w) && CanonicalDim(h) && CanonicalRate(r)
    case RawVideo(_, w, h, r, _, _) => CanonicalDim(w) && CanonicalDim(h) && CanonicalRate(r)
    case Batch(streams) => forall i :: 0 <= i < |streams| ==> Canonical(streams[i])
    case _ => true
  }

  // ----- fields -----

  lemma DimOverlap(a: Dim, b: Dim, v: u32)
    ensures
      match IntersectDim(a, b)
      case Some(d) => CanonicalDim(d) && (DimAllows(d, v) <==> DimAllows(a, v) && DimAllows(b, v))
      case None => !(DimAllows(a, v) && DimAllows(b, v))
  {
  }

  lemma RateOverlap(a: Rate, b: Rate, v: u32)
    ensures
      match IntersectRate(a, b)
      case Some(r) => CanonicalRate(r) && (RateAllows(r, v) <==> RateAllows(a, v) && RateAllows(b, v))
      case None => !(RateAllows(a, v) && RateAllows(b, v))
  {
  }

  lemma ColorOverlap(a: Colorimetry, b: Colorimetry, v: Colorimetry)
    ensures
      match IntersectColorimetry(a, b)
      case Some(c) => ColorAllows(c, v) <==> ColorAllows(a, v) && ColorAllows(b, v)
      case None => !(ColorAllows(a, v) && ColorAllows(b, v))
  {
  }

  lemma DimsAgree(a: Dim, b: Dim)
    ensures IntersectDim(a, b).Some? <==> exists v: u32 :: DimAllows(a, v) && DimAllows(b, v)
  {
    if IntersectDim(a, b).Some? {
      var v := DimExample(IntersectDim(a, b).value);
      DimOverlap(a, b, v);
      assert DimAllows(a, v) && DimAllows(b, v);
    } else {
      forall v: u32 ensures !(DimAllows(a, v) && DimAllows(b, v)) {
        DimOverlap(a, b, v);
      }
    }
  }

  lemma RatesAgree(a: Rate, b: Rate)
    ensures IntersectRate(a, b).Some? <==> exists v: u32 :: RateAllows(a, v) && RateAllows(b, v)
  {
    if IntersectRate(a, b).Some? {
      var v := RateExample(IntersectRate(a, b).value);
      RateOverlap(a, b, v);
      assert RateAllows(a, v) && RateAllows(b, v);
    } else {
      forall v: u32 ensures !(RateAllows(a, v) && RateAllows(b, v)) {
        RateOverlap(a, b, v);
      }
    }
  }

  // ----- an overlap describes what both sides do -----

  /** `o` describes exactly the streams that both sides do, and none do when there is no `o`. */
  ghost predicate MeetsAt(a: Caps, b: Caps, o: Option<Caps>, v: Stream) {
    match o
    case Some(c) => Canonical(c) && (Describes(c, v) <==> Describes(a, v) && Describes(b, v))
    case None => !(Describes(a, v) && Describes(b, v))
  }

  lemma CodedOverlap(a: Caps, b: Caps, v: Stream)
    requires a.CompressedVideo? && b.CompressedVideo? && v.Coded?
    ensures MeetsAt(a, b, Intersect(a, b), v)
  {
    DimOverlap(a.width, b.width, v.width);
    DimOverlap(a.height, b.height, v.height);
    RateOverlap(a.framerate, b.framerate, v.rateQ16);
    ColorOverlap(a.colorimetry, b.colorimetry, v.colorimetry);
  }

  lemma FramesOverlap(a: Caps, b: Caps, v: Stream)
    requires a.RawVideo? && b.RawVideo? && v.Frames?
    ensures MeetsAt(a, b, Intersect(a, b), v)
  {
    DimOverlap(a.width, b.width, v.width);
    DimOverlap(a.height, b.height, v.height);
    RateOverlap(a.framerate, b.framerate, v.rateQ16);
    ColorOverlap(a.colorimetry, b.colorimetry, v.colorimetry);
  }

  lemma SoundOverlap(a: Caps, b: Caps, v: Stream)
    requires a.Audio? && b.Audio? && v.Sound?
    ensures MeetsAt(a, b, Intersect(a, b), v)
  {
  }

  lemma {:induction false} OverlapMeets(a: Caps, b: Caps, v: Stream)
    ensures MeetsAt(a, b, Intersect(a, b), v)
    decreases a, 1
  {
    if a.Batch? && b.Batch? {
      if v.Several? && |a.streams| == |b.streams| == |v.streams| {
        OverlapsMeet(a.streams, b.streams, v.streams);
      }
      OverlapIsCanonical(a, b);
    } else if a.CompressedVideo? && b.CompressedVideo? && v.Coded? {
      CodedOverlap(a, b, v);
    } else if a.RawVideo? && b.RawVideo? && v.Frames? {
      FramesOverlap(a, b, v);
    } else if a.Audio? && b.Audio? && v.Sound? {
      SoundOverlap(a, b, v);
    } else {
      OverlapIsCanonical(a, b);
    }
  }

  ghost predicate AllDescribe(s: seq<Caps>, vs: seq<Stream>)
    requires |s| == |vs|
  {
    forall i :: 0 <= i < |s| ==> Describes(s[i], vs[i])
  }

  lemma AllDescribeFirst(s: seq<Caps>, vs: seq<Stream>)
    requires |s| == |vs| > 0
    ensures AllDescribe(s, vs) <==> Describes(s[0], vs[0]) && AllDescribe(s[1..], vs[1..])
  {
    if Describes(s[0], vs[0]) && AllDescribe(s[1..], vs[1..]) {
      forall i | 0 <= i < |s| ensures Describes(s[i], vs[i]) {
        if i > 0 {
          assert Describes(s[1..][i - 1], vs[1..][i - 1]);
        }
      }
    }
  }

  lemma {:induction false} OverlapsMeet(s: seq<Caps>, t: seq<Caps>, vs: seq<Stream>)
    requires |s| == |t| == |vs|
    ensures
      match IntersectAll(s, t)
      case Some(u) => AllDescribe(u, vs) <==> AllDescribe(s, vs) && AllDescribe(t, vs)
      case None => !(AllDescribe(s, vs) && AllDescribe(t, vs))
    decreases s, 0
  {
    if s != [] {
      OverlapMeets(s[0], t[0], vs[0]);
      OverlapsMeet(s[1..], t[1..], vs[1..]);
      AllDescribeFirst(s, vs);
      AllDescribeFirst(t, vs);
      if IntersectAll(s, t).Some? {
        var u := IntersectAll(s, t).value;
        AllDescribeFirst(u, vs);
        assert u[1..] == IntersectAll(s[1..], t[1..]).value;
      }
    }
  }

  lemma {:induction false} OverlapIsCanonical(a: Caps, b: Caps)
    ensures Intersect(a, b).Some? ==> Canonical(Intersect(a, b).value)
    decreases a, 1
  {
    if a.Batch? && b.Batch? && |a.streams| == |b.streams| {
      OverlapsAreCanonical(a.streams, b.streams);
    }
  }

  lemma {:induction false} OverlapsAreCanonical(s: seq<Caps>, t: seq<Caps>)
    requires |s| == |t|
    ensures IntersectAll(s, t).Some? ==> forall i :: 0 <= i < |s| ==> Canonical(IntersectAll(s, t).value[i])
    decreases s, 0
  {
    if s != [] {
      OverlapIsCanonical(s[0], t[0]);
      OverlapsAreCanonical(s[1..], t[1..]);
    }
  }

  // ----- a canonical caps describes a concrete stream -----

  function DimExample(d: Dim): u32 {
    match d
    case Any => 0
    case Range(min, _) => min
    case Fixed(v) => v
  }

  function RateExample(r: Rate): u32 {
    match r
    case Any => 0
    case Range(min, _) => min
    case Fixed(q) => q
  }

  function ColorExample(c: Colorimetry): Colorimetry {
    Colorimetry(if c.range.Unknown? then Limited else c.range, if c.matrix.Unknown? then Identity else c.matrix,
                if c.transfer.Unknown? then Srgb else c.transfer, if c.primaries.Unknown? then Bt470bg else c.primaries)
  }

  /** A stream of the caps, with no wildcard left. */
  function Example(c: Caps): (v: Stream)
    ensures Concrete(v)
    decreases c
  {
    match c
    case CompressedVideo(codec, w, h, r, col, al) =>
      Coded(codec, DimExample(w), DimExample(h), RateExample(r), ColorExample(col), if al.Unspecified? then Nal else al)
    case RawVideo(format, w, h, r, il, col) =>
      Frames(format, DimExample(w), DimExample(h), RateExample(r), if il.Any? then Progressive else il, ColorExample(col))
    case Audio(format, channels, rate, layout) =>
      Sound(format, if channels == 0 then 1 else channels, if rate == 0 then 1 else rate,
            if layout == UNSPECIFIED_LAYOUT then UNSPECIFIED_LAYOUT.(fc := true) else layout)
    case Batch(streams) => Several(seq(|streams|, i requires 0 <= i < |streams| => Example(streams[i])))
    case _ => Other(c)
  }

  lemma {:induction false} ExampleIsDescribed(c: Caps)
    requires Canonical(c)
    ensures Describes(c, Example(c))
    decreases c
  {
    if c.Batch? {
      forall i | 0 <= i < |c.streams| ensures Describes(c.streams[i], Example(c).streams[i]) {
        ExampleIsDescribed(c.streams[i]);
      }
    }
  }

  // ----- a canonical caps is determined by what it describes -----

  ghost predicate SameStreams(c: Caps, d: Caps) {
    forall v :: Describes(c, v) <==> Describes(d, v)
  }

  lemma SameDims(a: Dim, b: Dim)
    requires CanonicalDim(a) && CanonicalDim(b) && forall v: u32 :: DimAllows(a, v) <==> DimAllows(b, v)
    ensures a == b
  {
    assert DimAllows(a, 0) <==> DimAllows(b, 0);
    assert DimAllows(a, U32_MAX) <==> DimAllows(b, U32_MAX);
    assert a.Range? ==> DimAllows(b, a.min) && DimAllows(b, a.max);
    assert b.Range? ==> DimAllows(a, b.min) && DimAllows(a, b.max);
    assert a.Fixed? ==> DimAllows(b, a.v);
    assert b.Fixed? ==> DimAllows(a, b.v);
  }

  lemma SameRates(a: Rate, b: Rate)
    requires CanonicalRate(a) && CanonicalRate(b) && forall v: u32 :: RateAllows(a, v) <==> RateAllows(b, v)
    ensures a == b
  {
    assert RateAllows(a, 0) <==> RateAllows(b, 0);
    assert RateAllows(a, U32_MAX) <==> RateAllows(b, U32_MAX);
    assert a.Range? ==> RateAllows(b, a.minQ16) && RateAllows(b, a.maxQ16);
    assert b.Range? ==> RateAllows(a, b.minQ16) && RateAllows(a, b.maxQ16);
    assert a.Fixed? ==> RateAllows(b, a.q16);
    assert b.Fixed? ==> RateAllows(a, b.q16);
  }

  /** `n`, as an overlap is written, allows exactly what both do. */
  ghost predicate SharedDim(a: Dim, b: Dim, n: Dim) {
    CanonicalDim(n) && forall v: u32 :: DimAllows(n, v) <==> DimAllows(a, v) && DimAllows(b, v)
  }

  ghost predicate SharedRate(a: Rate, b: Rate, n: Rate) {
    CanonicalRate(n) && forall v: u32 :: RateAllows(n, v) <==> RateAllows(a, v) && RateAllows(b, v)
  }

  lemma DimOverlapShares(a: Dim, b: Dim)
    requires IntersectDim(a, b).Some?
    ensures SharedDim(a, b, IntersectDim(a, b).value)
  {
    var n := IntersectDim(a, b).value;
    forall v: u32 ensures CanonicalDim(n) && (DimAllows(n, v) <==> DimAllows(a, v) && DimAllows(b, v)) {
      DimOverlap(a, b, v);
    }
    DimOverlap(a, b, 0);
  }

  lemma DimOverlapExact(a: Dim, b: Dim, n: Dim)
    ensures IntersectDim(a, b) == Some(n) <==> SharedDim(a, b, n)
  {
    if IntersectDim(a, b).Some? {
      DimOverlapShares(a, b);
    }
    if SharedDim(a, b, n) {
      assert DimAllows(n, DimExample(n));
      DimOverlap(a, b, DimExample(n));
      SameDims(n, IntersectDim(a, b).value);
    }
  }

  lemma RateOverlapShares(a: Rate, b: Rate)
    requires IntersectRate(a, b).Some?
    ensures SharedRate(a, b, IntersectRate(a, b).value)
  {
    var n := IntersectRate(a, b).value;
    forall v: u32 ensures CanonicalRate(n) && (RateAllows(n, v) <==> RateAllows(a, v) && RateAllows(b, v)) {
      RateOverlap(a, b, v);
    }
    RateOverlap(a, b, 0);
  }

  lemma RateOverlapExact(a: Rate, b: Rate, n: Rate)
    ensures IntersectRate(a, b) == Some(n) <==> SharedRate(a, b, n)
  {
    if IntersectRate(a, b).Some? {
      RateOverlapShares(a, b);
    }
    if SharedRate(a, b, n) {
      assert RateAllows(n, RateExample(n));
      RateOverlap(a, b, RateExample(n));
      SameRates(n, IntersectRate(a, b).value);
    }
  }

  lemma SameColors(a: Colorimetry, b: Colorimetry)
    requires forall v :: ColorAllows(a, v) <==> ColorAllows(b, v)
    ensures a == b
  {
    assert ColorAllows(a, a) && ColorAllows(b, b);
    assert ColorAllows(a, b) && ColorAllows(b, a);
    assert ColorAllows(a, UNKNOWN_COLORIMETRY) <==> ColorAllows(b, UNKNOWN_COLORIMETRY);
  }

  lemma CodedDetermined(c: Caps, d: Caps)
    requires c.CompressedVideo? && Canonical(c) && Canonical(d) && SameStreams(c, d)
    ensures c == d
  {
    var e := Example(c);
    ExampleIsDescribed(c);
    assert Describes(d, e);
    forall v: u32 ensures DimAllows(c.width, v) <==> DimAllows(d.width, v) {
      var w := Coded(e.codec, v, e.height, e.rateQ16, e.colorimetry, e.alignment);
      assert Describes(c, w) <==> Describes(d, w);
    }
    forall v: u32 ensures DimAllows(c.height, v) <==> DimAllows(d.height, v) {
      var w := Coded(e.codec, e.width, v, e.rateQ16, e.colorimetry, e.alignment);
      assert Describes(c, w) <==> Describes(d, w);
    }
    forall v: u32 ensures RateAllows(c.framerate, v) <==> RateAllows(d.framerate, v) {
      var w := Coded(e.codec, e.width, e.height, v, e.colorimetry, e.alignment);
      assert Describes(c, w) <==> Describes(d, w);
    }
    forall v ensures ColorAllows(c.colorimetry, v) <==> ColorAllows(d.colorimetry, v) {
      var w := Coded(e.codec, e.width, e.height, e.rateQ16, v, e.alignment);
      assert Describes(c, w) <==> Describes(d, w);
    }
    SameDims(c.width, d.width);
    SameDims(c.height, d.height);
    SameRates(c.framerate, d.framerate);
    SameColors(c.colorimetry, d.colorimetry);
    var open := Coded(e.codec, e.width, e.height, e.rateQ16, e.colorimetry, Unspecified);
    assert Describes(c, open) <==> Describes(d, open);
  }

  lemma FramesDetermined(c: Caps, d: Caps)
    requires c.RawVideo? && Canonical(c) && Canonical(d) && SameStreams(c, d)
    ensures c == d
  {
    var e := Example(c);
    ExampleIsDescribed(c);
    assert Describes(d, e);
    forall v: u32 ensures DimAllows(c.width, v) <==> DimAllows(d.width, v) {
      var w := Frames(e.format, v, e.height, e.rateQ16, e.interlace, e.colorimetry);
      assert Describes(c, w) <==> Describes(d, w);
    }
    forall v: u32 ensures DimAllows(c.height, v) <==> DimAllows(d.height, v) {
      var w := Frames(e.format, e.width, v, e.rateQ16, e.interlace, e.colorimetry);
      assert Describes(c, w) <==> Describes(d, w);
    }
    forall v: u32 ensures RateAllows(c.framerate, v) <==> RateAllows(d.framerate, v) {
      var w := Frames(e.format, e.width, e.height, v, e.interlace, e.colorimetry);
      assert Describes(c, w) <==> Describes(d, w);
    }
    forall v ensures ColorAllows(c.colorimetry, v) <==> ColorAllows(d.colorimetry, v) {
      var w := Frames(e.format, e.width, e.height, e.rateQ16, e.interlace, v);
      assert Describes(c, w) <==> Describes(d, w);
    }
    SameDims(c.width, d.width);
    SameDims(c.height, d.height);
    SameRates(c.framerate, d.framerate);
    SameColors(c.colorimetry, d.colorimetry);
    var open := Frames(e.format, e.width, e.height, e.rateQ16, Interlace.Any, e.colorimetry);
    assert Describes(c, open) <==> Describes(d, open);
  }

  lemma SoundDetermined(c: Caps, d: Caps)
    requires c.Audio? && SameStreams(c, d)
    ensures c == d
  {
    var e := Example(c);
    ExampleIsDescribed(c);
    assert Describes(d, e);
    var anyChannels, anyRate := Sound(e.audioFormat, 0, e.sampleRate, e.layout), Sound(e.audioFormat, e.channels, 0, e.layout);
    var anyLayout := Sound(e.audioFormat, e.channels, e.sampleRate, UNSPECIFIED_LAYOUT);
    assert Describes(c, anyChannels) <==> Describes(d, anyChannels);
    assert Describes(c, anyRate) <==> Describes(d, anyRate);
    assert Describes(c, anyLayout) <==> Describes(d, anyLayout);
  }

  /** One stream of a batch replaced. */
  lemma StreamDetermined(c: Caps, d: Caps, i: nat)
    requires c.Batch? && Canonical(c) && SameStreams(c, d) && i < |c.streams|
    ensures d.Batch? && |d.streams| == |c.streams| && SameStreams(c.streams[i], d.streams[i])
  {
    var e := Example(c);
    ExampleIsDescribed(c);
    assert Describes(d, e);
    forall v ensures Describes(c.streams[i], v) <==> Describes(d.streams[i], v) {
      var w := Several(e.streams[i := v]);
      assert Describes(c, w) <==> Describes(d, w);
      if Describes(c.streams[i], v) {
        assert Describes(c, w);
        assert Describes(d.streams[i], w.streams[i]);
      }
      if Describes(d.streams[i], v) {
        assert Describes(d, w);
        assert Describes(c.streams[i], w.streams[i]);
      }
    }
  }

  lemma {:induction false} Determined(c: Caps, d: Caps)
    requires Canonical(c) && Canonical(d) && SameStreams(c, d)
    ensures c == d
    decreases c
  {
    if c.CompressedVideo? {
      CodedDetermined(c, d);
    } else if c.RawVideo? {
      FramesDetermined(c, d);
    } else if c.Audio? {
      SoundDetermined(c, d);
    } else if c.Batch? {
      ExampleIsDescribed(c);
      assert Describes(d, Example(c));
      forall i | 0 <= i < |c.streams| ensures c.streams[i] == d.streams[i] {
        StreamDetermined(c, d, i);
        Determined(c.streams[i], d.streams[i]);
      }
    } else {
      assert Describes(d, Other(c));
      if d.Batch? || d.CompressedVideo? || d.RawVideo? || d.Audio? {
        assert false;
      }
    }
  }

  // ----- the main results -----

  /** `o` describes exactly the streams both sides do. */
  ghost predicate IsMeet(a: Caps, b: Caps, o: Caps) {
    forall v :: Describes(o, v) <==> Describes(a, v) && Describes(b, v)
  }

  /** Intersection is the meet: its result is the one canonical caps that describes exactly
      the streams both sides describe. */
  lemma OverlapIsTheMeet(a: Caps, b: Caps, o: Caps)
    ensures Intersect(a, b) == Some(o) <==> Canonical(o) && IsMeet(a, b, o)
  {
    if Intersect(a, b) == Some(o) {
      OverlapMeets(a, b, Example(o));
      forall v ensures Describes(o, v) <==> Describes(a, v) && Describes(b, v) {
        OverlapMeets(a, b, v);
      }
    }
    if Canonical(o) && IsMeet(a, b, o) {
      ExampleIsDescribed(o);
      OverlapMeets(a, b, Example(o));
      var c := Intersect(a, b).value;
      forall v ensures Describes(o, v) <==> Describes(c, v) {
        OverlapMeets(a, b, v);
      }
      Determined(o, c);
    }
  }

  /** Two caps intersect exactly when some concrete stream is described by both. */
  lemma OverlapIsShared(a: Caps, b: Caps)
    ensures Intersect(a, b).Some? <==> exists v :: Concrete(v) && Describes(a, v) && Describes(b, v)
  {
    if Intersect(a, b).Some? {
      var v := Example(Intersect(a, b).value);
      OverlapMeets(a, b, v);
      ExampleIsDescribed(Intersect(a, b).value);
      assert Concrete(v) && Describes(a, v) && Describes(b, v);
    } else {
      forall v ensures !(Describes(a, v) && Describes(b, v)) {
        OverlapMeets(a, b, v);
      }
    }
  }

  // ----- what a fixation picks -----

  /** `f` is the one value of the field, the least that `d` allows. */
  ghost predicate LeastDim(d: Dim, f: Dim) {
    f.Fixed? && DimAllows(d, f.v) && forall v: u32 :: DimAllows(d, v) ==> f.v <= v
  }

  ghost predicate LeastRate(r: Rate, f: Rate) {
    f.Fixed? && RateAllows(r, f.q16) && forall v: u32 :: RateAllows(r, v) ==> f.q16 <= v
  }

  /** Neither open nor an inverted range. */
  predicate ClosedDim(d: Dim) {
    d.Fixed? || (d.Range? && d.min <= d.max)
  }

  predicate ClosedRate(r: Rate) {
    r.Fixed? || (r.Range? && r.minQ16 <= r.maxQ16)
  }

  predicate Uncompressed(f: AudioFormat) {
    f in {PcmS16Le, PcmF32Le, PcmS24Le, PcmS32Le, PcmU8}
  }

  /** Every field of the caps that must be collapsed can be. */
  predicate CanFixate(c: Caps)
    decreases c
  {
    match c
    case CompressedVideo(_, w, h, r, _, _) => ClosedDim(w) && ClosedDim(h) && ClosedRate(r)
    case RawVideo(_, w, h, r, _, _) => ClosedDim(w) && ClosedDim(h) && ClosedRate(r)
    case Audio(format, _, rate, _) => !(Uncompressed(format) && rate == 0)
    case Batch(streams) => forall i :: 0 <= i < |streams| ==> CanFixate(streams[i])
    case _ => true
  }

  /** Ranged fields at their least value, the channels of PCM that names none at two, and
      everything else as it was. */
  ghost predicate IsFixation(c: Caps, f: Caps)
    decreases c
  {
    match c
    case CompressedVideo(codec, w, h, r, col, al) =>
      && f.CompressedVideo? && f.codec == codec && f.colorimetry == col && f.alignment == al
      && LeastDim(w, f.width) && LeastDim(h, f.height) && LeastRate(r, f.framerate)
    case RawVideo(format, w, h, r, il, col) =>
      && f.RawVideo? && f.format == format && f.interlace == il && f.colorimetry == col
      && LeastDim(w, f.width) && LeastDim(h, f.height) && LeastRate(r, f.framerate)
    case Audio(format, channels, rate, layout) =>
      f == Audio(format, if Uncompressed(format) && channels == 0 then 2 else channels, rate, layout)
    case Batch(streams) =>
      f.Batch? && |f.streams| == |streams| && forall i :: 0 <= i < |streams| ==> IsFixation(streams[i], f.streams[i])
    case _ => f == c
  }

  lemma DimFixation(d: Dim, f: Dim)
    ensures FixateDim(d) == Some(f) <==> ClosedDim(d) && LeastDim(d, f)
    ensures FixateDim(d).Some? <==> ClosedDim(d)
  {
    if d.Range? && d.min <= d.max {
      assert DimAllows(d, d.min);
    }
    if d.Fixed? {
      assert DimAllows(d, d.v);
    }
  }

  lemma RateFixation(r: Rate, f: Rate)
    ensures FixateRate(r) == Some(f) <==> ClosedRate(r) && LeastRate(r, f)
    ensures FixateRate(r).Some? <==> ClosedRate(r)
  {
    if r.Range? && r.minQ16 <= r.maxQ16 {
      assert RateAllows(r, r.minQ16);
    }
    if r.Fixed? {
      assert RateAllows(r, r.q16);
    }
  }

  lemma VideoFixation(c: Caps, f: Caps)
    requires (c.CompressedVideo? && f.CompressedVideo?) || (c.RawVideo? && f.RawVideo?)
    ensures Fixate(c) == Some(f) <==> CanFixate(c) && IsFixation(c, f)
  {
    DimFixation(c.width, f.width);
    DimFixation(c.height, f.height);
    RateFixation(c.framerate, f.framerate);
  }

  /** A fixation takes the least width, height and rate, two channels where PCM names none,
      and changes nothing else; it succeeds exactly when no such field is open or inverted
      and PCM names a sample rate, in every stream. */
  lemma {:induction false} FixationIsLeast(c: Caps, f: Caps)
    ensures Fixate(c) == Some(f) <==> CanFixate(c) && IsFixation(c, f)
    decreases c, 1
  {
    if (c.CompressedVideo? && f.CompressedVideo?) || (c.RawVideo? && f.RawVideo?) {
      VideoFixation(c, f);
    } else if c.Batch? && f.Batch? {
      FixationsAreLeast(c.streams, f.streams);
    }
  }

  ghost predicate AreFixations(s: seq<Caps>, fs: seq<Caps>) {
    |s| == |fs| && forall i :: 0 <= i < |s| ==> CanFixate(s[i]) && IsFixation(s[i], fs[i])
  }

  lemma AreFixationsFirst(s: seq<Caps>, fs: seq<Caps>)
    requires s != [] && fs != []
    ensures AreFixations(s, fs) <==> CanFixate(s[0]) && IsFixation(s[0], fs[0]) && AreFixations(s[1..], fs[1..])
  {
    if CanFixate(s[0]) && IsFixation(s[0], fs[0]) && AreFixations(s[1..], fs[1..]) {
      forall i | 0 <= i < |s| ensures CanFixate(s[i]) && IsFixation(s[i], fs[i]) {
        if i > 0 {
          assert CanFixate(s[1..][i - 1]) && IsFixation(s[1..][i - 1], fs[1..][i - 1]);
        }
      }
    }
  }

  lemma {:induction false} FixationsAreLeast(s: seq<Caps>, fs: seq<Caps>)
    ensures FixateAll(s) == Some(fs) <==> AreFixations(s, fs)
    decreases s, 0
  {
    if s != [] && fs != [] {
      FixationIsLeast(s[0], fs[0]);
      FixationsAreLeast(s[1..], fs[1..]);
      AreFixationsFirst(s, fs);
      assert fs == [fs[0]] + fs[1..];
      if FixateAll(s) == Some(fs) {
        assert FixateAll(s).value[0] == Fixate(s[0]).value && FixateAll(s).value[1..] == FixateAll(s[1..]).value;
      }
    }
  }

  /** There is no fixation exactly when some field that must be collapsed cannot be. */
  lemma {:induction false} FixateFailsExactly(c: Caps)
    ensures Fixate(c).None? <==> !CanFixate(c)
    decreases c, 1
  {
    if c.CompressedVideo? || c.RawVideo? {
      DimFixation(c.width, c.width);
      DimFixation(c.height, c.height);
      RateFixation(c.framerate, c.framerate);
    } else if c.Batch? {
      FixateAllFails(c.streams);
    }
  }

  lemma {:induction false} FixateAllFails(s: seq<Caps>)
    ensures FixateAll(s).None? <==> exists i :: 0 <= i < |s| && !CanFixate(s[i])
    decreases s, 0
  {
    if s != [] {
      FixateFailsExactly(s[0]);
      FixateAllFails(s[1..]);
      if i :| 0 <= i < |s| && !CanFixate(s[i]) {
        assert i > 0 ==> !CanFixate(s[1..][i - 1]);
      }
      if i :| 0 <= i < |s[1..]| && !CanFixate(s[1..][i]) {
        assert !CanFixate(s[i + 1]);
      }
    }
  }

  // ----- fixating toward a preference -----

  /** The allowed value nearest to a fixed preference, or without one the least. */
  ghost predicate PickedDim(d: Dim, preferred: Dim, f: Dim) {
    if preferred.Fixed?
    then f.Fixed? && DimAllows(d, f.v) && forall v: u32 :: DimAllows(d, v) ==> Distance(f.v, preferred.v) <= Distance(v, preferred.v)
    else LeastDim(d, f)
  }

  ghost predicate PickedRate(r: Rate, preferred: Rate, f: Rate) {
    if preferred.Fixed?
    then f.Fixed? && RateAllows(r, f.q16)
         && forall v: u32 :: RateAllows(r, v) ==> Distance(f.q16, preferred.q16) <= Distance(v, preferred.q16)
    else LeastRate(r, f)
  }

  /** What fixating toward a preference picks: only the preference between two videos counts,
      for their sizes and rates. */
  ghost predicate IsFixationToward(c: Caps, preferred: Caps, f: Caps) {
    if HasDims(c) && HasDims(preferred) then
      && HasDims(f) && PickedDim(c.width, preferred.width, f.width) && PickedDim(c.height, preferred.height, f.height)
      && PickedRate(c.framerate, preferred.framerate, f.framerate)
      && match (c, f)
         case (CompressedVideo(codec, _, _, _, col, al), CompressedVideo(codec', _, _, _, col', al')) =>
           codec == codec' && col == col' && al == al'
         case (RawVideo(format, _, _, _, il, col), RawVideo(format', _, _, _, il', col')) =>
           format == format' && il == il' && col == col'
         case _ => false
    else IsFixation(c, f)
  }

  lemma DimFixationToward(d: Dim, preferred: Dim, f: Dim)
    ensures FixateDim(NearestDim(d, preferred)) == Some(f) <==> ClosedDim(d) && PickedDim(d, preferred, f)
  {
    if !preferred.Fixed? {
      DimFixation(d, f);
    } else if d.Range? && d.min <= d.max {
      assert DimAllows(d, d.min) && DimAllows(d, d.max);
      assert DimAllows(d, preferred.v) <==> d.min <= preferred.v <= d.max;
    } else if d.Fixed? {
      assert DimAllows(d, d.v);
    }
  }

  lemma RateFixationToward(r: Rate, preferred: Rate, f: Rate)
    ensures FixateRate(NearestRate(r, preferred)) == Some(f) <==> ClosedRate(r) && PickedRate(r, preferred, f)
  {
    if !preferred.Fixed? {
      RateFixation(r, f);
    } else if r.Range? && r.minQ16 <= r.maxQ16 {
      assert RateAllows(r, r.minQ16) && RateAllows(r, r.maxQ16);
      assert RateAllows(r, preferred.q16) <==> r.minQ16 <= preferred.q16 <= r.maxQ16;
    } else if r.Fixed? {
      assert RateAllows(r, r.q16);
    }
  }

  /** Fixating toward a preference succeeds exactly when fixating does, and picks the nearest
      size and rate where the preference names one. */
  lemma FixationTowardIsNearest(c: Caps, preferred: Caps, f: Caps)
    ensures FixateToward(c, preferred) == Some(f) <==> CanFixate(c) && IsFixationToward(c, preferred, f)
  {
    if HasDims(c) && HasDims(preferred) {
      TowardOfVideo(c, preferred);
      if HasDims(f) {
        DimFixationToward(c.width, preferred.width, f.width);
        DimFixationToward(c.height, preferred.height, f.height);
        RateFixationToward(c.framerate, preferred.framerate, f.framerate);
      }
    } else {
      FixationIsLeast(c, f);
    }
  }
}
