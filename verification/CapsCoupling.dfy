/** What a transform derives and what coupling backward through it keeps, said field by field
    on the values the fields allow. */
module CapsCoupling {
  import opened Options
  import opened Integers
  import opened Caps
  import opened CapsSets
  import opened CapsMeaning
  import opened CapsTransforms

  // ----- derivation -----

  /** The output field is the input's where the shape passes it through, and the shape's own
      value where it retargets it. */
  predicate Follows<T(==)>(f: FieldTransform<T>, input: T, output: T) {
    match f
    case Identity => output == input
    case Retarget(v) => output == v
  }

  /** An empty list takes every format. */
  predicate Takes<T(==)>(gate: seq<T>, format: T) {
    gate != [] ==> format in gate
  }

  /** `o` is what shape `k` makes of the input. */
  predicate Makes(t: CapsTransform, k: nat, input: Caps, o: Caps) {
    match t
    case Video(accept, produce, shapes) =>
      && k < |shapes| && input.RawVideo? && o.RawVideo? && Takes(accept, input.format) && Takes(produce, o.format)
      && Follows(shapes[k].format, input.format, o.format) && Follows(shapes[k].width, input.width, o.width)
      && Follows(shapes[k].height, input.height, o.height) && Follows(shapes[k].framerate, input.framerate, o.framerate)
      && o.interlace == input.interlace && o.colorimetry == UNKNOWN_COLORIMETRY
    case Sound(accept, produce, shapes) =>
      && k < |shapes| && input.Audio? && o.Audio? && Takes(accept, input.audioFormat) && Takes(produce, o.audioFormat)
      && Follows(shapes[k].format, input.audioFormat, o.audioFormat)
      && Follows(shapes[k].channels, input.channels, o.channels)
      && Follows(shapes[k].sampleRate, input.sampleRate, o.sampleRate) && o.layout == UNSPECIFIED_LAYOUT
  }

  /** Shape `k` is the first that makes `o`. */
  ghost predicate MakesFirst(t: CapsTransform, k: nat, input: Caps, o: Caps) {
    Makes(t, k, input, o) && forall m: nat :: m < k ==> !Makes(t, m, input, o)
  }

  /** `at` names, in order, the shapes below `k` that first made the alternatives. */
  ghost predicate MadeBy(t: CapsTransform, input: Caps, k: nat, alts: seq<Caps>, at: seq<nat>) {
    && |at| == |alts|
    && (forall i :: 0 <= i < |alts| ==> at[i] < k && MakesFirst(t, at[i], input, alts[i]))
    && (forall i, j :: 0 <= i < j < |at| ==> at[i] < at[j])
  }

  /** Whatever a shape below `k` makes is there. */
  ghost predicate HoldsAll(t: CapsTransform, input: Caps, k: nat, alts: seq<Caps>) {
    forall m: nat, o :: m < k && Makes(t, m, input, o) ==> o in alts
  }

  function Shapes(t: CapsTransform): nat {
    match t
    case Video(_, _, shapes) => |shapes|
    case Sound(_, _, shapes) => |shapes|
  }

  /** A shape makes at most one caps. */
  lemma MakesOne(t: CapsTransform, k: nat, input: Caps, o: Caps, p: Caps)
    requires Makes(t, k, input, o) && Makes(t, k, input, p)
    ensures o == p
  {
  }

  lemma OutputOfShape(t: CapsTransform, input: Caps, k: nat) returns (first: seq<Caps>)
    requires k < Shapes(t)
    ensures |first| <= 1 && Outputs(t, input, k) == first + Outputs(t, input, k + 1)
    ensures forall o :: Makes(t, k, input, o) <==> o in first
  {
    first := [];
    if t.Video? && input.RawVideo? && Admits(t.accept, input.format) {
      var o := ShapeOutput(t, t.shapes[k], input);
      first := if o.Some? then [o.value] else [];
    } else if t.Sound? && input.Audio? && Admits(t.acceptAudio, input.audioFormat) {
      var o := AudioOutput(t, t.audioShapes[k], input);
      first := if o.Some? then [o.value] else [];
    }
  }

  /** One more alternative, made by shape `k`. */
  lemma NewAlternative(t: CapsTransform, input: Caps, k: nat, alts: seq<Caps>, at: seq<nat>, o: Caps)
    requires MadeBy(t, input, k, alts, at) && HoldsAll(t, input, k, alts) && Makes(t, k, input, o) && o !in alts
    ensures MadeBy(t, input, k + 1, alts + [o], at + [k]) && HoldsAll(t, input, k + 1, alts + [o])
  {
    forall m: nat, p | m < k + 1 && Makes(t, m, input, p) ensures p in alts + [o] {
      if m == k {
        MakesOne(t, k, input, o, p);
      }
    }
  }

  /** Nothing new from shape `k`. */
  lemma NoAlternative(t: CapsTransform, input: Caps, k: nat, alts: seq<Caps>, at: seq<nat>)
    requires MadeBy(t, input, k, alts, at) && HoldsAll(t, input, k, alts)
    requires forall o :: Makes(t, k, input, o) ==> o in alts
    ensures MadeBy(t, input, k + 1, alts, at) && HoldsAll(t, input, k + 1, alts)
  {
  }

  lemma PushedFirst(alts: CapsSet, first: seq<Caps>, rest: seq<Caps>)
    requires |first| <= 1
    ensures PushAll(alts, first + rest) == PushAll(if first == [] || first[0] in alts then alts else alts + first, rest)
  {
    if first == [] {
      assert first + rest == rest;
    } else {
      assert (first + rest)[1..] == rest && [first[0]] == first;
    }
  }

  /** `alts` is what the shapes below `k` make. */
  ghost predicate Derives(t: CapsTransform, input: Caps, k: nat, alts: seq<Caps>, at: seq<nat>) {
    MadeBy(t, input, k, alts, at) && HoldsAll(t, input, k, alts)
  }

  lemma DeriveStep(t: CapsTransform, input: Caps, k: nat, alts: seq<Caps>, at: seq<nat>) returns (more: seq<Caps>, makers: seq<nat>)
    requires k < Shapes(t) && Derives(t, input, k, alts, at)
    ensures Derives(t, input, k + 1, more, makers)
    ensures PushAll(alts, Outputs(t, input, k)) == PushAll(more, Outputs(t, input, k + 1))
  {
    var first := OutputOfShape(t, input, k);
    PushedFirst(alts, first, Outputs(t, input, k + 1));
    more, makers := alts, at;
    if first == [] || first[0] in alts {
      NoAlternative(t, input, k, alts, at);
    } else {
      NewAlternative(t, input, k, alts, at, first[0]);
      assert [first[0]] == first;
      more, makers := alts + first, at + [k];
    }
  }

  lemma {:induction false} DerivesFrom(t: CapsTransform, input: Caps, k: nat, alts: seq<Caps>, at: seq<nat>) returns (makers: seq<nat>)
    requires k <= Shapes(t) && Derives(t, input, k, alts, at)
    ensures Derives(t, input, Shapes(t), PushAll(alts, Outputs(t, input, k)), makers)
    decreases Shapes(t) - k
  {
    if k == Shapes(t) {
      makers := at;
    } else {
      var more, next := DeriveStep(t, input, k, alts, at);
      makers := DerivesFrom(t, input, k + 1, more, next);
    }
  }

  /** A transform derives exactly what its shapes make of the input, each alternative once
      and in the order of the shapes that first make them. */
  lemma DerivesWhatShapesMake(t: CapsTransform, input: Caps) returns (makers: seq<nat>)
    ensures forall o :: o in Derived(t, input) <==> exists k: nat :: Makes(t, k, input, o)
    ensures MadeBy(t, input, Shapes(t), Derived(t, input), makers)
  {
    makers := DerivesFrom(t, input, 0, [], []);
    var all := Derived(t, input);
    forall o ensures o in all <==> exists k: nat :: Makes(t, k, input, o) {
      if o in all {
        var i :| 0 <= i < |all| && all[i] == o;
        assert MakesFirst(t, makers[i], input, all[i]);
      }
      if k: nat :| Makes(t, k, input, o) {
        assert k < Shapes(t);
      }
    }
  }

  // ----- which fields couple -----

  /** The transform leaves the field alone: whatever comes in goes out, through every shape. */
  ghost predicate LeavesAlone<T(!new)>(fields: seq<FieldTransform<T>>) {
    fields != [] && forall k, x: T, y: T :: 0 <= k < |fields| && Follows(fields[k], x, y) ==> x == y
  }

  lemma AllIdentity<T(!new)>(fields: seq<FieldTransform<T>>, a: T, b: T)
    requires a != b
    ensures LeavesAlone(fields) <==> fields != [] && forall k :: 0 <= k < |fields| ==> fields[k].Identity?
  {
    if LeavesAlone(fields) {
      forall k | 0 <= k < |fields| ensures fields[k].Identity? {
        if fields[k].Retarget? {
          assert Follows(fields[k], a, fields[k].value) && Follows(fields[k], b, fields[k].value);
        }
      }
    }
  }

  function Field<S, T>(shapes: seq<S>, of: S -> T): (r: seq<T>)
    ensures |r| == |shapes| && forall k :: 0 <= k < |r| ==> r[k] == of(shapes[k])
  {
    seq(|shapes|, k requires 0 <= k < |shapes| => of(shapes[k]))
  }

  lemma IdentityOfAll<S, T>(shapes: seq<S>, of: S -> FieldTransform<T>)
    ensures (forall s :: s in shapes ==> of(s).Identity?)
       <==> forall k :: 0 <= k < |shapes| ==> Field(shapes, of)[k].Identity?
  {
    if forall k :: 0 <= k < |shapes| ==> Field(shapes, of)[k].Identity? {
      forall s | s in shapes ensures of(s).Identity? {
        var k :| 0 <= k < |shapes| && shapes[k] == s;
        assert Field(shapes, of)[k].Identity?;
      }
    }
  }

  /** A video transform couples a field exactly when there are shapes and all of them leave
      the field alone. */
  lemma VideoPassthroughMeans(t: CapsTransform)
    requires t.Video?
    ensures
      var m := Passthrough(t);
      && (m.format <==> LeavesAlone(Field(t.shapes, (s: RawVideoShape) => s.format)))
      && (m.width <==> LeavesAlone(Field(t.shapes, (s: RawVideoShape) => s.width)))
      && (m.height <==> LeavesAlone(Field(t.shapes, (s: RawVideoShape) => s.height)))
      && (m.framerate <==> LeavesAlone(Field(t.shapes, (s: RawVideoShape) => s.framerate)))
      && !m.channels && !m.sampleRate
  {
    IdentityOfAll(t.shapes, (s: RawVideoShape) => s.format);
    IdentityOfAll(t.shapes, (s: RawVideoShape) => s.width);
    IdentityOfAll(t.shapes, (s: RawVideoShape) => s.height);
    IdentityOfAll(t.shapes, (s: RawVideoShape) => s.framerate);
    AllIdentity(Field(t.shapes, (s: RawVideoShape) => s.format), Nv12, I420);
    AllIdentity(Field(t.shapes, (s: RawVideoShape) => s.width), Dim.Any, Dim.Fixed(0));
    AllIdentity(Field(t.shapes, (s: RawVideoShape) => s.height), Dim.Any, Dim.Fixed(0));
    AllIdentity(Field(t.shapes, (s: RawVideoShape) => s.framerate), Rate.Any, Rate.Fixed(0));
  }

  lemma AudioPassthroughMeans(t: CapsTransform)
    requires t.Sound?
    ensures
      var m := Passthrough(t);
      && (m.format <==> LeavesAlone(Field(t.audioShapes, (s: AudioShape) => s.format)))
      && (m.channels <==> LeavesAlone(Field(t.audioShapes, (s: AudioShape) => s.channels)))
      && (m.sampleRate <==> LeavesAlone(Field(t.audioShapes, (s: AudioShape) => s.sampleRate)))
      && !m.width && !m.height && !m.framerate
  {
    IdentityOfAll(t.audioShapes, (s: AudioShape) => s.format);
    IdentityOfAll(t.audioShapes, (s: AudioShape) => s.channels);
    IdentityOfAll(t.audioShapes, (s: AudioShape) => s.sampleRate);
    AllIdentity(Field(t.audioShapes, (s: AudioShape) => s.format), Aac, Opus);
    AllIdentity<u8>(Field(t.audioShapes, (s: AudioShape) => s.channels), 0, 1);
    AllIdentity<u32>(Field(t.audioShapes, (s: AudioShape) => s.sampleRate), 0, 1);
  }

  // ----- coupling narrows -----

  /** A coupled field allows what both sides allow, written as an overlap writes it; any other
      field is the input's. */
  ghost predicate NarrowsDim(on: bool, input: Dim, pin: Dim, n: Dim) {
    if on then SharedDim(input, pin, n) else n == input
  }

  ghost predicate NarrowsRate(on: bool, input: Rate, pin: Rate, n: Rate) {
    if on then SharedRate(input, pin, n) else n == input
  }

  /** Channel counts and sample rates, of which zero is any. */
  predicate NarrowsCount(on: bool, input: int, pin: int, n: int) {
    if !on then n == input
    else if input == 0 then n == pin
    else (pin == 0 || pin == input) && n == input
  }

  /** The sizes and rates of two videos. */
  ghost predicate NarrowsVideo(input: Caps, pin: Caps, m: PassthroughFields, n: Caps)
    requires HasDims(input) && HasDims(pin) && HasDims(n)
  {
    && NarrowsDim(m.width, input.width, pin.width, n.width) && NarrowsDim(m.height, input.height, pin.height, n.height)
    && NarrowsRate(m.framerate, input.framerate, pin.framerate, n.framerate)
  }

  predicate NarrowsSound(input: Caps, pin: Caps, m: PassthroughFields, n: Caps)
    requires input.Audio? && pin.Audio? && n.Audio?
  {
    && n.audioFormat == input.audioFormat && (m.format ==> pin.audioFormat == input.audioFormat)
    && NarrowsCount(m.channels, input.channels, pin.channels, n.channels)
    && NarrowsCount(m.sampleRate, input.sampleRate, pin.sampleRate, n.sampleRate) && n.layout == UNSPECIFIED_LAYOUT
  }

  /** `n` is the input narrowed to what the pin leaves of the coupled fields. */
  ghost predicate IsCoupled(input: Caps, pin: Caps, m: PassthroughFields, n: Caps) {
    if input.RawVideo? && pin.RawVideo? && n.RawVideo? then
      && n.format == input.format && (m.format ==> pin.format == input.format)
      && n.interlace == input.interlace && n.colorimetry == input.colorimetry && NarrowsVideo(input, pin, m, n)
    else if input.CompressedVideo? && pin.CompressedVideo? && n.CompressedVideo? then
      && n.codec == input.codec && (m.format ==> pin.codec == input.codec)
      && n.colorimetry == input.colorimetry && n.alignment == input.alignment && NarrowsVideo(input, pin, m, n)
    else
      input.Audio? && pin.Audio? && n.Audio? && NarrowsSound(input, pin, m, n)
  }

  lemma DimNarrows(on: bool, input: Dim, pin: Dim, n: Dim)
    ensures MaskedDim(on, input, pin) == Some(n) <==> NarrowsDim(on, input, pin, n)
  {
    DimOverlapExact(input, pin, n);
  }

  lemma RateNarrows(on: bool, input: Rate, pin: Rate, n: Rate)
    ensures MaskedRate(on, input, pin) == Some(n) <==> NarrowsRate(on, input, pin, n)
  {
    RateOverlapExact(input, pin, n);
  }

  lemma VideoNarrows(input: Caps, pin: Caps, m: PassthroughFields, n: Caps)
    requires (input.RawVideo? && pin.RawVideo? && n.RawVideo?)
          || (input.CompressedVideo? && pin.CompressedVideo? && n.CompressedVideo?)
    ensures Couple(input, pin, m) == Some(n) <==> IsCoupled(input, pin, m, n)
  {
    DimNarrows(m.width, input.width, pin.width, n.width);
    DimNarrows(m.height, input.height, pin.height, n.height);
    RateNarrows(m.framerate, input.framerate, pin.framerate, n.framerate);
  }

  lemma AudioNarrows(input: Caps, pin: Caps, m: PassthroughFields, n: Caps)
    requires input.Audio? && pin.Audio? && n.Audio?
    ensures Couple(input, pin, m) == Some(n) <==> IsCoupled(input, pin, m, n)
  {
  }

  lemma CouplingKeepsKind(input: Caps, pin: Caps, m: PassthroughFields)
    requires Couple(input, pin, m).Some?
    ensures
      var n := Couple(input, pin, m).value;
      || (input.RawVideo? && pin.RawVideo? && n.RawVideo?)
      || (input.CompressedVideo? && pin.CompressedVideo? && n.CompressedVideo?)
      || (input.Audio? && pin.Audio? && n.Audio?)
  {
  }

  /** Coupling backward gives exactly the input narrowed, in every coupled field, to the
      values the pin allows too, and nothing when some coupled field has none left. */
  lemma CouplingNarrows(input: Caps, pin: Caps, m: PassthroughFields, n: Caps)
    ensures Couple(input, pin, m) == Some(n) <==> IsCoupled(input, pin, m, n)
  {
    if (input.RawVideo? && pin.RawVideo? && n.RawVideo?)
       || (input.CompressedVideo? && pin.CompressedVideo? && n.CompressedVideo?) {
      VideoNarrows(input, pin, m, n);
    } else if input.Audio? && pin.Audio? && n.Audio? {
      AudioNarrows(input, pin, m, n);
    } else if Couple(input, pin, m).Some? {
      CouplingKeepsKind(input, pin, m);
    }
  }
}
