/**
 Declarative transforms: the output caps a transform derives field by field from its
 input, which fields that lets the solver couple backward, and what the coupling
 costs.
 */
module CapsTransforms {
  import opened Options
  import opened Integers
  import opened Caps
  import opened CapsSets

  datatype FieldTransform<T> = Identity | Retarget(value: T) {
    function Apply(input: T): T {
      match this
      case Identity => input
      case Retarget(v) => v
    }
  }

  datatype RawVideoShape = RawVideoShape(
    format: FieldTransform<RawVideoFormat>, width: FieldTransform<Dim>,
    height: FieldTransform<Dim>, framerate: FieldTransform<Rate>)

  datatype AudioShape = AudioShape(
    format: FieldTransform<AudioFormat>, channels: FieldTransform<u8>, sampleRate: FieldTransform<u32>)

  /** Output alternatives in preference order; an empty `accept` or `produce` list does
      not restrict. */
  datatype CapsTransform =
    | Video(accept: seq<RawVideoFormat>, produce: seq<RawVideoFormat>, shapes: seq<RawVideoShape>)
    | Sound(acceptAudio: seq<AudioFormat>, produceAudio: seq<AudioFormat>, audioShapes: seq<AudioShape>)

  // ----- forward derivation -----

  predicate Admits<T(==)>(gate: seq<T>, format: T) {
    gate == [] || format in gate
  }

  /** What one shape derives, when its output format may be produced. */
  function ShapeOutput(t: CapsTransform, s: RawVideoShape, input: Caps): Option<Caps>
    requires t.Video? && input.RawVideo?
  {
    var f := s.format.Apply(input.format);
    if Admits(t.produce, f) then
      Some(RawVideo(f, s.width.Apply(input.width), s.height.Apply(input.height),
                    s.framerate.Apply(input.framerate), input.interlace, UNKNOWN_COLORIMETRY))
    else None
  }

  function AudioOutput(t: CapsTransform, s: AudioShape, input: Caps): Option<Caps>
    requires t.Sound? && input.Audio?
  {
    var f := s.format.Apply(input.audioFormat);
    if Admits(t.produceAudio, f) then
      Some(Audio(f, s.channels.Apply(input.channels), s.sampleRate.Apply(input.sampleRate), UNSPECIFIED_LAYOUT))
    else None
  }

  /** The derived alternatives before duplicates are dropped, from shape `k` on. */
  function Outputs(t: CapsTransform, input: Caps, k: nat): seq<Caps>
    decreases (if t.Video? then |t.shapes| else |t.audioShapes|) - k
  {
    if t.Video? && input.RawVideo? && Admits(t.accept, input.format) && k < |t.shapes| then
      var o := ShapeOutput(t, t.shapes[k], input);
      (if o.Some? then [o.value] else []) + Outputs(t, input, k + 1)
    else if t.Sound? && input.Audio? && Admits(t.acceptAudio, input.audioFormat) && k < |t.audioShapes| then
      var o := AudioOutput(t, t.audioShapes[k], input);
      (if o.Some? then [o.value] else []) + Outputs(t, input, k + 1)
    else []
  }

  function Derived(t: CapsTransform, input: Caps): CapsSet {
    PushAll([], Outputs(t, input, 0))
  }

  /** The loop over the shapes, with keep-first accumulation. */
  method Derive(t: CapsTransform, input: Caps) returns (alts: CapsSet)
    ensures alts == Derived(t, input)
  {
    alts := [];
    if t.Video? && input.RawVideo? {
      if t.accept != [] && input.format !in t.accept {
        return;
      }
      for k := 0 to |t.shapes|
        invariant PushAll(alts, Outputs(t, input, k)) == Derived(t, input)
      {
        var o := ShapeOutput(t, t.shapes[k], input);
        if o.Some? {
          assert Outputs(t, input, k)[0] == o.value && Outputs(t, input, k)[1..] == Outputs(t, input, k + 1);
          alts := PushUnique(alts, o.value);
        } else {
          assert Outputs(t, input, k) == Outputs(t, input, k + 1);
        }
      }
    } else if t.Sound? && input.Audio? {
      if t.acceptAudio != [] && input.audioFormat !in t.acceptAudio {
        return;
      }
      for k := 0 to |t.audioShapes|
        invariant PushAll(alts, Outputs(t, input, k)) == Derived(t, input)
      {
        var o := AudioOutput(t, t.audioShapes[k], input);
        if o.Some? {
          assert Outputs(t, input, k)[0] == o.value && Outputs(t, input, k)[1..] == Outputs(t, input, k + 1);
          alts := PushUnique(alts, o.value);
        } else {
          assert Outputs(t, input, k) == Outputs(t, input, k + 1);
        }
      }
    }
  }

  // ----- which fields couple backward -----

  datatype PassthroughFields = PassthroughFields(
    format: bool, width: bool, height: bool, framerate: bool, channels: bool, sampleRate: bool)

  /** The fields every output shape leaves alone; none when nothing derives. */
  function Passthrough(t: CapsTransform): (m: PassthroughFields)
    ensures t.Sound? ==> !m.width && !m.height && !m.framerate
    ensures t.Video? ==> !m.channels && !m.sampleRate
  {
    match t
    case Video(_, _, shapes) =>
      PassthroughFields(
        shapes != [] && (forall s :: s in shapes ==> s.format.Identity?),
        shapes != [] && (forall s :: s in shapes ==> s.width.Identity?),
        shapes != [] && (forall s :: s in shapes ==> s.height.Identity?),
        shapes != [] && (forall s :: s in shapes ==> s.framerate.Identity?),
        false, false)
    case Sound(_, _, shapes) =>
      PassthroughFields(
        shapes != [] && (forall s :: s in shapes ==> s.format.Identity?),
        false, false, false,
        shapes != [] && (forall s :: s in shapes ==> s.channels.Identity?),
        shapes != [] && (forall s :: s in shapes ==> s.sampleRate.Identity?))
  }

  function MaskedDim(on: bool, a: Dim, pin: Dim): Option<Dim> {
    if on then IntersectDim(a, pin) else Some(a)
  }

  function MaskedRate(on: bool, a: Rate, pin: Rate): Option<Rate> {
    if on then IntersectRate(a, pin) else Some(a)
  }

  /** Narrow the passthrough fields of an input by a downstream pin. */
  function Couple(input: Caps, pin: Caps, mask: PassthroughFields): Option<Caps> {
    if (input.RawVideo? && pin.RawVideo?) || (input.CompressedVideo? && pin.CompressedVideo?) then
      var w := MaskedDim(mask.width, input.width, pin.width);
      var h := MaskedDim(mask.height, input.height, pin.height);
      var r := MaskedRate(mask.framerate, input.framerate, pin.framerate);
      var identity := if input.RawVideo? then input.format == pin.format else input.codec == pin.codec;
      if (mask.format ==> identity) && w.Some? && h.Some? && r.Some?
      then Some(input.(width := w.value, height := h.value, framerate := r.value)) else None
    else if input.Audio? && pin.Audio? then
      var c := if mask.channels then IntersectChannels(input.channels, pin.channels) else Some(input.channels);
      var r := if mask.sampleRate then IntersectSampleRate(input.sampleRate, pin.sampleRate) else Some(input.sampleRate);
      if (mask.format ==> input.audioFormat == pin.audioFormat) && c.Some? && r.Some?
      then Some(Audio(input.audioFormat, c.value, r.value, UNSPECIFIED_LAYOUT)) else None
    else None
  }

  // ----- coupling loses nothing -----

  /** Narrowing a field by the pin first does not change its overlap with the pin. */
  lemma DimNarrowedTwice(a: Dim, pin: Dim)
    ensures IntersectDim(a, pin).Some? ==> IntersectDim(IntersectDim(a, pin).value, pin) == IntersectDim(a, pin)
  {
    DimMeet(a, pin, pin);
    DimMeet(pin, a, a);
  }

  lemma RateNarrowedTwice(a: Rate, pin: Rate)
    ensures IntersectRate(a, pin).Some? ==> IntersectRate(IntersectRate(a, pin).value, pin) == IntersectRate(a, pin)
  {
    RateMeet(a, pin, pin);
    RateMeet(pin, a, a);
  }

  /** A field a shape passes through, derived from the narrowed input, overlaps the pin
      just as it did before; a retargeted field is the same either way. */
  lemma DimThroughShape(f: FieldTransform<Dim>, on: bool, a: Dim, pin: Dim)
    requires on ==> f.Identity?
    ensures MaskedDim(on, a, pin).None? ==> IntersectDim(f.Apply(a), pin) == None
    ensures MaskedDim(on, a, pin).Some? ==>
              IntersectDim(f.Apply(MaskedDim(on, a, pin).value), pin) == IntersectDim(f.Apply(a), pin)
  {
    DimNarrowedTwice(a, pin);
  }

  lemma RateThroughShape(f: FieldTransform<Rate>, on: bool, a: Rate, pin: Rate)
    requires on ==> f.Identity?
    ensures MaskedRate(on, a, pin).None? ==> IntersectRate(f.Apply(a), pin) == None
    ensures MaskedRate(on, a, pin).Some? ==>
              IntersectRate(f.Apply(MaskedRate(on, a, pin).value), pin) == IntersectRate(f.Apply(a), pin)
  {
    RateNarrowedTwice(a, pin);
  }

  /** One shape's agreement with the pin, when its output may be produced. */
  function Agreement(o: Option<Caps>, pin: Caps): Option<Caps> {
    match o
    case Some(c) => Intersect(c, pin)
    case None => None
  }

  lemma VideoShapeAgreement(t: CapsTransform, k: nat, input: Caps, pin: Caps)
    requires t.Video? && k < |t.shapes| && input.RawVideo? && pin.RawVideo?
    ensures
      var narrowed := Couple(input, pin, Passthrough(t));
      Agreement(ShapeOutput(t, t.shapes[k], input), pin)
      == if narrowed.Some? then Agreement(ShapeOutput(t, t.shapes[k], narrowed.value), pin) else None
  {
    var s, m := t.shapes[k], Passthrough(t);
    assert s in t.shapes;
    DimThroughShape(s.width, m.width, input.width, pin.width);
    DimThroughShape(s.height, m.height, input.height, pin.height);
    RateThroughShape(s.framerate, m.framerate, input.framerate, pin.framerate);
  }

  lemma FlatNarrowedTwice<T>(a: T, pin: T, wildcard: T)
    ensures FlatMeet(a, pin, wildcard).Some? ==>
              FlatMeet(FlatMeet(a, pin, wildcard).value, pin, wildcard) == FlatMeet(a, pin, wildcard)
  {
  }

  lemma AudioShapeAgreement(t: CapsTransform, k: nat, input: Caps, pin: Caps)
    requires t.Sound? && k < |t.audioShapes| && input.Audio? && pin.Audio?
    ensures
      var narrowed := Couple(input, pin, Passthrough(t));
      Agreement(AudioOutput(t, t.audioShapes[k], input), pin)
      == if narrowed.Some? then Agreement(AudioOutput(t, t.audioShapes[k], narrowed.value), pin) else None
  {
    var s := t.audioShapes[k];
    assert s in t.audioShapes;
    FlatNarrowedTwice(input.channels, pin.channels, ANY_CHANNELS);
    FlatNarrowedTwice(input.sampleRate, pin.sampleRate, ANY_SAMPLE_RATE);
  }

  lemma RowsOfPin(c: Caps, xs: seq<Caps>, pin: Caps)
    ensures Rows([c] + xs, [pin]) == (if Intersect(c, pin).Some? then [Intersect(c, pin).value] else []) + Rows(xs, [pin])
  {
    RowOfOne(c, pin);
    assert ([c] + xs)[1..] == xs;
  }

  /** From shape `k` on, the agreements with the pin are the same from the narrowed input. */
  ghost predicate AgreesFrom(t: CapsTransform, input: Caps, pin: Caps, k: nat) {
    var narrowed := Couple(input, pin, Passthrough(t));
    Rows(Outputs(t, input, k), [pin]) == if narrowed.Some? then Rows(Outputs(t, narrowed.value, k), [pin]) else []
  }

  lemma VideoAgrees(t: CapsTransform, input: Caps, pin: Caps, k: nat)
    requires t.Video? && input.RawVideo? && Admits(t.accept, input.format) && k < |t.shapes|
    requires AgreesFrom(t, input, pin, k + 1)
    ensures AgreesFrom(t, input, pin, k)
  {
    var narrowed := Couple(input, pin, Passthrough(t));
    SplitVideo(t, input, pin, k);
    if narrowed.Some? {
      SplitVideo(t, narrowed.value, pin, k);
    }
    if pin.RawVideo? {
      VideoShapeAgreement(t, k, input, pin);
    }
  }

  lemma AudioAgrees(t: CapsTransform, input: Caps, pin: Caps, k: nat)
    requires t.Sound? && input.Audio? && Admits(t.acceptAudio, input.audioFormat) && k < |t.audioShapes|
    requires AgreesFrom(t, input, pin, k + 1)
    ensures AgreesFrom(t, input, pin, k)
  {
    var narrowed := Couple(input, pin, Passthrough(t));
    SplitAudio(t, input, pin, k);
    if narrowed.Some? {
      SplitAudio(t, narrowed.value, pin, k);
    }
    if pin.Audio? {
      AudioShapeAgreement(t, k, input, pin);
    }
  }

  /** The agreements with the pin, shape by shape, are the same lists. */
  lemma {:induction false} SameAgreements(t: CapsTransform, input: Caps, pin: Caps, k: nat)
    ensures AgreesFrom(t, input, pin, k)
    decreases (if t.Video? then |t.shapes| else |t.audioShapes|) - k
  {
    if t.Video? && input.RawVideo? && Admits(t.accept, input.format) && k < |t.shapes| {
      SameAgreements(t, input, pin, k + 1);
      VideoAgrees(t, input, pin, k);
    } else if t.Sound? && input.Audio? && Admits(t.acceptAudio, input.audioFormat) && k < |t.audioShapes| {
      SameAgreements(t, input, pin, k + 1);
      AudioAgrees(t, input, pin, k);
    }
  }

  lemma SplitVideo(t: CapsTransform, input: Caps, pin: Caps, k: nat)
    requires t.Video? && input.RawVideo? && Admits(t.accept, input.format) && k < |t.shapes|
    ensures
      var a := Agreement(ShapeOutput(t, t.shapes[k], input), pin);
      Rows(Outputs(t, input, k), [pin]) == (if a.Some? then [a.value] else []) + Rows(Outputs(t, input, k + 1), [pin])
  {
    var o := ShapeOutput(t, t.shapes[k], input);
    if o.Some? {
      RowsOfPin(o.value, Outputs(t, input, k + 1), pin);
      assert Outputs(t, input, k) == [o.value] + Outputs(t, input, k + 1);
    } else {
      assert Outputs(t, input, k) == Outputs(t, input, k + 1);
    }
  }

  lemma SplitAudio(t: CapsTransform, input: Caps, pin: Caps, k: nat)
    requires t.Sound? && input.Audio? && Admits(t.acceptAudio, input.audioFormat) && k < |t.audioShapes|
    ensures
      var a := Agreement(AudioOutput(t, t.audioShapes[k], input), pin);
      Rows(Outputs(t, input, k), [pin]) == (if a.Some? then [a.value] else []) + Rows(Outputs(t, input, k + 1), [pin])
  {
    var o := AudioOutput(t, t.audioShapes[k], input);
    if o.Some? {
      RowsOfPin(o.value, Outputs(t, input, k + 1), pin);
      assert Outputs(t, input, k) == [o.value] + Outputs(t, input, k + 1);
    } else {
      assert Outputs(t, input, k) == Outputs(t, input, k + 1);
    }
  }

  /** Backward coupling loses nothing: the ordered set of agreements with a downstream
      pin is the same from the narrowed input as from the input as it was, and is empty
      exactly when narrowing fails. */
  lemma CouplingLosesNothing(t: CapsTransform, input: Caps, pin: Caps)
    ensures
      var narrowed := Couple(input, pin, Passthrough(t));
      Meet(Derived(t, input), [pin])
      == if narrowed.Some? then Meet(Derived(t, narrowed.value), [pin]) else []
  {
    var narrowed := Couple(input, pin, Passthrough(t));
    SameAgreements(t, input, pin, 0);
    DedupLeft([], [], Outputs(t, input, 0), [pin]);
    assert Rows([], [pin]) == [] && PushAll([], []) == [];
    if narrowed.Some? {
      DedupLeft([], [], Outputs(t, narrowed.value, 0), [pin]);
    }
  }
}
