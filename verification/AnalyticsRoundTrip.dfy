/** What is left of an analytics graph that was written as records and read again. */
module AnalyticsRoundTrip {
  import opened Options
  import opened Integers
  import opened Sequences
  import opened Strings
  import opened AnalyticsGraph
  import opened AnalyticsWriter
  import opened AnalyticsReader

  // ----- there and back -----

  function ReadAll(ms: seq<Mtd>, n: nat, width: u32, height: u32): (s: State)
    requires n <= |ms|
    ensures Bounded(s)
  {
    if n == 0 then EMPTY
    else
      var before := ReadAll(ms, n - 1, width, height);
      ReadStaysBounded(before, ms[n - 1], width, height);
      ReadStep(before, ms[n - 1], width, height)
  }

  function RelateAll(s: State, rs: seq<Record>, n: nat): State
    requires n <= |rs|
  {
    if n == 0 then s else RelateStep(RelateAll(s, rs, n - 1), rs[n - 1])
  }

  function AllMtds(g: Meta, width: u32, height: u32): seq<Mtd> {
    Mtds(g, |g.nodes|, width, height)
  }

  function AllRecords(g: Meta): seq<Record> {
    TableRecords(g, |g.nodes|) + GraphRecords(g, |g.relations|)
  }

  /** Everything the writer wrote, read in order. */
  function ReadState(g: Meta, width: u32, height: u32): State {
    var ms, rs := AllMtds(g, width, height), AllRecords(g);
    RelateAll(ReadAll(ms, |ms|, width, height), rs, |rs|)
  }

  function ThereAndBack(g: Meta, width: u32, height: u32): Option<Meta> {
    Finished(ReadState(g, width, height))
  }

  // ----- what comes back -----

  predicate IsMaskNode(g: Meta, i: nat) {
    i < |g.nodes| && Kept(g.nodes[i]) && g.nodes[i].Segmentation?
  }

  /** A track from a mask to a classification: its record passes for the one that names the
      mask's region. */
  predicate IsFalseTable(g: Meta, r: Relation) {
    r.kind.Tracks? && IsMaskNode(g, r.from) && HasRecord(g, r.to) && g.nodes[r.to].Classification?
  }

  predicate NoFalseTables(g: Meta) {
    forall k :: 0 <= k < |g.relations| ==> !IsFalseTable(g, g.relations[k])
  }

  /** The classification that the last such track among the first `n` relations gives mask `i`. */
  function Renaming(g: Meta, i: nat, n: nat): (r: Option<nat>)
    requires n <= |g.relations|
    ensures r.Some? ==> IsMaskNode(g, i) && r.value < |g.nodes| && g.nodes[r.value].Classification?
  {
    if n == 0 then None
    else
      var r := g.relations[n - 1];
      if IsFalseTable(g, r) && r.from == i then Some(r.to) else Renaming(g, i, n - 1)
  }

  function RenamedBy(g: Meta, i: nat): (r: Option<nat>)
    ensures r.Some? ==> IsMaskNode(g, i) && r.value < |g.nodes| && g.nodes[r.value].Classification?
  {
    Renaming(g, i, |g.relations|)
  }

  /** The classification names a mask instead of being a node. */
  predicate Taken(g: Meta, j: nat) {
    exists i :: 0 <= i < |g.nodes| && RenamedBy(g, i) == Some(j)
  }

  /** Whether the node comes back. */
  predicate Present(g: Meta, i: nat) {
    HasRecord(g, i) && !Taken(g, i)
  }

  /** The class that a renamed mask had comes back as a node of its own, after it. */
  function Comes(g: Meta, i: nat): nat {
    if !Present(g, i) then 0 else if RenamedBy(g, i).Some? then 2 else 1
  }

  /** The number of nodes that come back for those before `i`. */
  function Rank(g: Meta, i: nat): nat
    requires i <= |g.nodes|
  {
    if i == 0 then 0 else Rank(g, i - 1) + Comes(g, i - 1)
  }

  /** The node under the class it comes back with. */
  function Renamed(g: Meta, i: nat): Node
    requires i < |g.nodes|
  {
    match RenamedBy(g, i)
    case None => g.nodes[i]
    case Some(j) => Segmentation(g.nodes[i].bbox, g.nodes[j].cls.classId, g.nodes[j].cls.confidence, g.nodes[i].mask)
  }

  function OwnClass(n: Node): Node
    requires n.Segmentation?
  {
    Classification(Class(n.classId, n.confidence))
  }

  function Snapped(v: real, size: u32): real
    requires size > 0
  {
    Pixels(v, size) as real / size as real
  }

  function SnappedBox(b: BBox, width: u32, height: u32): BBox
    requires width > 0 && height > 0
  {
    BBox(Snapped(b.x, width), Snapped(b.y, height), Snapped(b.w, width), Snapped(b.h, height))
  }

  /** The same grid, packed, with every sample thresholded. */
  ghost predicate Thresholded(m: Mask, r: Mask) {
    && r.width == m.width && r.height == m.height && r.stride == m.width && |r.data| == m.height * m.width
    && forall x: nat, y: nat :: x < m.width && y < m.height ==>
         Sample(m, x, y).Some?
         && Sample(r, x, y) == Some(if Sample(m, x, y).value >= 128 then 255 else 0)
  }

  /** The name a class comes back under: its own, or its number when it has none or one that
      no C string can hold. */
  function ReadName(names: Option<seq<string>>, classId: nat): string {
    if names.Some? && classId < |names.value| && '\0' !in names.value[classId] then names.value[classId] else Decimal(classId)
  }

  predicate SameName(names: Option<seq<string>>, classId: nat, names': seq<string>, classId': nat) {
    classId' < |names'| && names'[classId'] == ReadName(names, classId)
  }

  /** `r` is what node `n` comes back as. */
  ghost predicate SameNode(names: Option<seq<string>>, n: Node, r: Node, names': seq<string>, width: u32, height: u32)
    requires width > 0 && height > 0
  {
    match n
    case Detection(bbox, classId, confidence) =>
      r.Detection? && r.bbox == SnappedBox(bbox, width, height) && r.confidence == confidence
      && SameName(names, classId, names', r.classId)
    case Classification(cls) =>
      r.Classification? && r.cls.confidence == cls.confidence && SameName(names, cls.classId, names', r.cls.classId)
    case Tracking(_) => r == n
    case Segmentation(bbox, classId, confidence, mask) =>
      r.Segmentation? && r.bbox == SnappedBox(bbox, width, height) && r.confidence == confidence
      && SameName(names, classId, names', r.classId) && Thresholded(mask, r.mask)
    case Unmapped => false
  }

  /** Node `i` comes back at its rank, and what it was before it was renamed right after it. */
  ghost predicate StandsFor(g: Meta, i: nat, nodes: seq<Node>, names: seq<string>, width: u32, height: u32)
    requires i < |g.nodes| && width > 0 && height > 0
  {
    && Rank(g, i) < |nodes| && SameNode(g.names, Renamed(g, i), nodes[Rank(g, i)], names, width, height)
    && (RenamedBy(g, i).Some? ==>
          Rank(g, i) + 1 < |nodes| && SameNode(g.names, OwnClass(g.nodes[i]), nodes[Rank(g, i) + 1], names, width, height))
  }

  /** The relation as read: the two kinds of containment are told apart by the nodes they
      join, and a track must join a detection to a tracking identity. */
  function ReadRelation(g: Meta, r: Relation): seq<Relation> {
    if !Present(g, r.from) || !Present(g, r.to) then []
    else
      var from, to := g.nodes[r.from], g.nodes[r.to];
      if r.kind.Tracks? then
        if from.Detection? && to.Tracking? then [Relation(Rank(g, r.from), Rank(g, r.to), Tracks)] else []
      else
        [Relation(Rank(g, r.from), Rank(g, r.to), if from.Detection? && to.Classification? then Classifies else Contains)]
  }

  function ReadRelations(g: Meta, n: nat): seq<Relation>
    requires n <= |g.relations|
  {
    if n == 0 then [] else ReadRelations(g, n - 1) + ReadRelation(g, g.relations[n - 1])
  }

  function MaskPixels(n: Node): nat {
    if Kept(n) && n.Segmentation? then n.mask.width * n.mask.height else 0
  }

  function MaskBytes(g: Meta, n: nat): nat
    requires n <= |g.nodes|
  {
    if n == 0 then 0 else MaskBytes(g, n - 1) + MaskPixels(g.nodes[n - 1])
  }

  /** The reader's budgets cover the records. */
  predicate Fits(g: Meta) {
    && Base(g, |g.nodes|) <= MAX_NODES
    && MaskBytes(g, |g.nodes|) <= MAX_MASK_BYTES
    && |AllRecords(g)| <= MAX_RELATIONS
  }

  predicate MasksValid(g: Meta) {
    forall i :: 0 <= i < |g.nodes| && g.nodes[i].Segmentation? ==> ValidMask(g.nodes[i].mask)
  }

  // ----- one record -----

  /** A record the writer can have written. */
  ghost predicate Readable(m: Mtd) {
    || m.kind == MTD_DETECTION || m.kind == MTD_CLASSIFICATION || m.kind == MTD_TRACKING
    || (m.kind == MTD_SEGMENTATION && m.sampleBytes == 1 && m.image.Some?
        && |m.image.value| == m.maskHeight * m.maskWidth && m.maskStride == m.maskWidth && m.regions == Some([REGION_ID]))
  }

  function Cost(m: Mtd): nat {
    if m.kind == MTD_SEGMENTATION then m.maskWidth * m.maskHeight else 0
  }

  function Costs(ms: seq<Mtd>, n: nat): nat
    requires n <= |ms|
  {
    if n == 0 then 0 else Costs(ms, n - 1) + Cost(ms[n - 1])
  }

  ghost predicate Named(m: Mtd, names: seq<string>, classId: nat) {
    classId < |names| && names[classId] == NameOf(m.name)
  }

  /** `r` is what record `m` is read as. */
  ghost predicate Reads(m: Mtd, r: ReadMtd, names: seq<string>, width: u32, height: u32)
    requires width > 0 && height > 0
  {
    && r.id == m.id && KindOf(r) == m.kind
    && match r
       case Detected(_, bbox, classId, confidence) =>
         bbox == Box(m, width, height) && confidence == m.confidence && Named(m, names, classId)
       case Classed(_, cls) => cls.confidence == m.confidence && Named(m, names, cls.classId)
       case Tracked(_, objectId) => objectId == m.trackingId
       case Segmented(_, bbox, masks) =>
         bbox == Box(m, width, height) && m.image.Some?
         && masks == [Mask(m.maskWidth, m.maskHeight, m.maskWidth, Coverage(m.image.value, REGION_ID))]
  }

  lemma ReadsWithMoreNames(m: Mtd, r: ReadMtd, names: seq<string>, more: seq<string>, width: u32, height: u32)
    requires width > 0 && height > 0 && Reads(m, r, names, width, height) && names <= more
    ensures Reads(m, r, more, width, height)
  {
  }

  lemma {:induction false} ByteSamples(row: seq<u8>)
    ensures RowSamples(row, 1) == row
  {
    if row != [] {
      ByteSamples(row[1..]);
      assert row == [row[0]] + row[1..];
    }
  }

  lemma {:induction false} PackedSamples(image: seq<u8>, rows: nat, width: nat)
    requires rows * width <= |image|
    ensures Samples(image, rows, width, width, 1) == Some(image[..rows * width])
  {
    if rows > 0 {
      var start := (rows - 1) * width;
      assert start + width == rows * width;
      PackedSamples(image, rows - 1, width);
      SamplesNext(image, rows - 1, start, width, width, 1);
      ByteSamples(image[start..start + width]);
      NextRow(image, start, width);
    }
  }

  lemma NextRow(image: seq<u8>, start: nat, width: nat)
    requires start + width <= |image|
    ensures image[..start] + image[start..start + width] == image[..start + width]
  {
  }

  lemma OneMask(samples: seq<nat>, width: u32, height: u32)
    requires |samples| == height * width
    ensures AllMasks(samples, [REGION_ID], width, height)
         == Some([Mask(width, height, width, Coverage(samples, REGION_ID))])
  {
    assert width * height == height * width;
    var regions: seq<nat> := [REGION_ID];
    assert regions[1..] == [];
    assert AllMasks(samples, regions[1..], width, height) == Some([]);
    var mask := Mask(width, height, width, Coverage(samples, REGION_ID));
    assert RegionMask(samples, regions[0], width, height) == Some(mask);
    assert [mask] + [] == [mask];
  }

  lemma SegmentationReads(nodeCount: nat, maskBytes: nat, m: Mtd)
    requires nodeCount < MAX_NODES && maskBytes + Cost(m) <= MAX_MASK_BYTES
    requires m.kind == MTD_SEGMENTATION && Readable(m)
    ensures RegionMasks(nodeCount, maskBytes, m)
         == Some(Masks([Mask(m.maskWidth, m.maskHeight, m.maskWidth, Coverage(m.image.value, REGION_ID))], Cost(m)))
  {
    var image := m.image.value;
    assert m.maskHeight * m.maskWidth == m.maskWidth * m.maskHeight;
    PackedSamples(image, m.maskHeight, m.maskWidth);
    assert image[..m.maskHeight * m.maskWidth] == image;
    OneMask(image, m.maskWidth, m.maskHeight);
  }

  lemma OneRead(s: State, m: Mtd, width: u32, height: u32)
    requires Bounded(s) && s.nodeCount < MAX_NODES && s.maskBytes + Cost(m) <= MAX_MASK_BYTES
    requires width > 0 && height > 0 && Readable(m)
    ensures
      var t := ReadStep(s, m, width, height);
      && |t.mtds| == |s.mtds| + 1 && t.mtds == s.mtds + [t.mtds[|s.mtds|]]
      && Reads(m, t.mtds[|s.mtds|], t.names, width, height) && s.names <= t.names
      && t.nodeCount == s.nodeCount + 1 && t.maskBytes == s.maskBytes + Cost(m) && t.relations == s.relations
  {
    if m.kind == MTD_SEGMENTATION {
      SegmentationReads(s.nodeCount, s.maskBytes, m);
    }
  }

  lemma {:induction false} CostsGrow(ms: seq<Mtd>, n: nat, k: nat)
    requires n <= k <= |ms|
    ensures Costs(ms, n) <= Costs(ms, k)
    decreases k - n
  {
    if n < k {
      CostsGrow(ms, n, k - 1);
    }
  }

  /** Within the budgets every record is read, in order. */
  lemma {:induction false} EveryRead(ms: seq<Mtd>, n: nat, width: u32, height: u32)
    requires n <= |ms| <= MAX_NODES && Costs(ms, |ms|) <= MAX_MASK_BYTES && width > 0 && height > 0
    requires forall k :: 0 <= k < |ms| ==> Readable(ms[k])
    ensures
      var s := ReadAll(ms, n, width, height);
      && |s.mtds| == n && s.nodeCount == n && s.maskBytes == Costs(ms, n) && s.relations == []
      && forall k :: 0 <= k < n ==> Reads(ms[k], s.mtds[k], s.names, width, height)
  {
    if n > 0 {
      EveryRead(ms, n - 1, width, height);
      CostsGrow(ms, n, |ms|);
      var s := ReadAll(ms, n - 1, width, height);
      var t := ReadStep(s, ms[n - 1], width, height);
      OneRead(s, ms[n - 1], width, height);
      forall k | 0 <= k < n ensures Reads(ms[k], t.mtds[k], t.names, width, height) {
        if k < n - 1 {
          ReadsWithMoreNames(ms[k], s.mtds[k], s.names, t.names, width, height);
        }
      }
    }
  }

  lemma {:induction false} EveryRelated(s: State, rs: seq<Record>, n: nat)
    requires n <= |rs| <= MAX_RELATIONS && s.relations == []
    ensures RelateAll(s, rs, n) == s.(relations := rs[..n])
  {
    if n > 0 {
      EveryRelated(s, rs, n - 1);
    }
  }

  // ----- the records of a graph -----

  lemma {:induction false} BaseGrows(g: Meta, i: nat, j: nat)
    requires i <= j <= |g.nodes|
    ensures Base(g, i) <= Base(g, j)
    decreases j - i
  {
    if i < j {
      BaseGrows(g, i, j - 1);
    }
  }

  /** Where node `i`'s records end. */
  function End(g: Meta, i: nat): nat
    requires i < |g.nodes|
  {
    Base(g, i + 1)
  }

  lemma MtdsNext(g: Meta, n: nat, width: u32, height: u32)
    requires 0 < n <= |g.nodes|
    ensures Mtds(g, n - 1, width, height) <= Mtds(g, n, width, height)
  {
  }

  lemma PrefixOfPrefix<T>(a: seq<T>, b: seq<T>, c: seq<T>)
    requires a <= b <= c
    ensures a <= c
  {
  }

  /** Sequences that each extend the one before. */
  lemma {:induction false} Chain<T>(xs: seq<seq<T>>, n: nat, m: nat)
    requires n <= m < |xs| && forall k :: 0 <= k < |xs| - 1 ==> xs[k] <= xs[k + 1]
    ensures xs[n] <= xs[m]
    decreases m - n
  {
    if n < m {
      Chain(xs, n, m - 1);
      PrefixOfPrefix(xs[n], xs[m - 1], xs[m]);
    }
  }

  lemma MtdsGrow(g: Meta, n: nat, m: nat, width: u32, height: u32)
    requires n <= m <= |g.nodes|
    ensures Mtds(g, n, width, height) <= Mtds(g, m, width, height)
  {
    var xs := seq(|g.nodes| + 1, k requires 0 <= k < |g.nodes| + 1 => Mtds(g, k, width, height));
    forall k | 0 <= k < |xs| - 1 ensures xs[k] <= xs[k + 1] {
      MtdsNext(g, k + 1, width, height);
    }
    Chain(xs, n, m);
  }

  /** Node `i`'s records stand at its base. */
  lemma MtdsAt(g: Meta, i: nat, width: u32, height: u32)
    requires i < |g.nodes|
    ensures Base(g, i) <= End(g, i) <= |AllMtds(g, width, height)|
    ensures AllMtds(g, width, height)[Base(g, i)..End(g, i)] == Emit(g.names, g.nodes[i], Base(g, i), width, height)
  {
    BaseCounts(g, i, width, height);
    BaseCounts(g, i + 1, width, height);
    MtdsGrow(g, i + 1, |g.nodes|, width, height);
    var before, upTo := Mtds(g, i, width, height), Mtds(g, i + 1, width, height);
    assert upTo[Base(g, i)..] == Emit(g.names, g.nodes[i], Base(g, i), width, height);
    assert AllMtds(g, width, height)[Base(g, i)..End(g, i)] == upTo[Base(g, i)..];
  }

  /** A record's writer: readable, and numbered by its place. */
  ghost predicate WellWritten(m: Mtd, k: nat) {
    Readable(m) && m.id == k
  }

  lemma SingleIsReadable(m: Mtd, id: nat)
    requires WellWritten(m, id)
    ensures AllWellWritten([m], id)
  {
  }

  lemma PairIsReadable(m: Mtd, c: Mtd, id: nat)
    requires WellWritten(m, id) && WellWritten(c, id + 1)
    ensures AllWellWritten([m, c], id)
  {
  }

  lemma EmitIsReadable(names: Option<seq<string>>, n: Node, id: nat, width: u32, height: u32)
    requires id + 2 <= 0x1_0000_0000
    ensures AllWellWritten(Emit(names, n, id, width, height), id)
  {
    match n
    case Detection(_, _, _) => SingleIsReadable(DetectionMtd(names, n, id, width, height), id);
    case Classification(c) => SingleIsReadable(ClassMtd(names, c, id), id);
    case Tracking(_) => SingleIsReadable(TrackingMtd(n, id), id);
    case Segmentation(_, c, f, _) =>
      MaskIsReadable(n, id, width, height);
      PairIsReadable(SegmentationMtd(n, id, width, height), ClassMtd(names, Class(c, f), id + 1), id);
    case Unmapped =>
  }

  lemma MaskIsReadable(n: Node, id: nat, width: u32, height: u32)
    requires n.Segmentation? && id < 0x1_0000_0000
    ensures WellWritten(SegmentationMtd(n, id, width, height), id)
  {
    ImageSize(n.mask, n.mask.height);
  }

  ghost predicate AllWellWritten(ms: seq<Mtd>, first: nat) {
    forall k :: 0 <= k < |ms| ==> WellWritten(ms[k], first + k)
  }

  lemma WellWrittenConcat(before: seq<Mtd>, more: seq<Mtd>)
    requires AllWellWritten(before, 0) && AllWellWritten(more, |before|)
    ensures AllWellWritten(before + more, 0)
  {
    forall k | 0 <= k < |before + more| ensures WellWritten((before + more)[k], k) {
      if k >= |before| {
        assert WellWritten(more[k - |before|], |before| + (k - |before|));
      } else {
        assert WellWritten(before[k], 0 + k);
      }
    }
  }

  lemma MtdsStep(g: Meta, n: nat, width: u32, height: u32)
    requires 0 < n <= |g.nodes|
    ensures
      var before := Mtds(g, n - 1, width, height);
      && |before| == Base(g, n - 1) <= Base(g, n)
      && Mtds(g, n, width, height) == before + Emit(g.names, g.nodes[n - 1], |before|, width, height)
      && MaskBytes(g, n) == MaskBytes(g, n - 1) + MaskPixels(g.nodes[n - 1])
  {
    BaseCounts(g, n - 1, width, height);
  }

  lemma {:induction false} EveryMtdReadable(g: Meta, n: nat, width: u32, height: u32)
    requires n <= |g.nodes| && Base(g, n) <= MAX_NODES
    ensures AllWellWritten(Mtds(g, n, width, height), 0)
    ensures Costs(Mtds(g, n, width, height), |Mtds(g, n, width, height)|) == MaskBytes(g, n)
  {
    if n > 0 {
      MtdsStep(g, n, width, height);
      EveryMtdReadable(g, n - 1, width, height);
      NextMtds(g.names, g.nodes[n - 1], Mtds(g, n - 1, width, height), width, height);
    }
  }

  lemma NextMtds(names: Option<seq<string>>, n: Node, before: seq<Mtd>, width: u32, height: u32)
    requires AllWellWritten(before, 0) && |before| <= MAX_NODES
    ensures
      var after := before + Emit(names, n, |before|, width, height);
      AllWellWritten(after, 0) && Costs(after, |after|) == Costs(before, |before|) + MaskPixels(n)
  {
    var more := Emit(names, n, |before|, width, height);
    EmitIsReadable(names, n, |before|, width, height);
    WellWrittenConcat(before, more);
    CostsConcat(before, more, |more|);
    EmitCosts(names, n, |before|, width, height);
  }

  lemma {:induction false} CostsConcat(a: seq<Mtd>, b: seq<Mtd>, n: nat)
    requires n <= |b|
    ensures Costs(a + b, |a| + n) == Costs(a, |a|) + Costs(b, n)
  {
    if n > 0 {
      CostsConcat(a, b, n - 1);
    } else {
      CostsPrefix(a, b, |a|);
    }
  }

  lemma {:induction false} CostsPrefix(a: seq<Mtd>, b: seq<Mtd>, n: nat)
    requires n <= |a|
    ensures Costs(a + b, n) == Costs(a, n)
  {
    if n > 0 {
      CostsPrefix(a, b, n - 1);
    }
  }

  lemma EmitCosts(names: Option<seq<string>>, n: Node, id: nat, width: u32, height: u32)
    ensures
      var ms := Emit(names, n, id, width, height);
      Costs(ms, |ms|) == MaskPixels(n)
  {
    var ms := Emit(names, n, id, width, height);
    if |ms| == 2 {
      assert Costs(ms, 2) == Costs(ms, 1) + Cost(ms[1]);
    }
    if |ms| >= 1 {
      assert Costs(ms, 1) == Costs(ms, 0) + Cost(ms[0]);
    }
  }

  // ----- the reader's tables -----

  ghost predicate Numbered(q: seq<ReadMtd>) {
    forall k :: 0 <= k < |q| ==> q[k].id == k
  }

  lemma {:induction false} KindsAre(q: seq<ReadMtd>, n: nat)
    requires Numbered(q) && n <= |q|
    ensures forall k :: k in Kinds(q, n) <==> 0 <= k < n
    ensures forall k :: 0 <= k < n ==> Kinds(q, n)[k] == KindOf(q[k])
  {
    if n > 0 {
      KindsAre(q, n - 1);
    }
  }

  lemma {:induction false} ClassesAre(q: seq<ReadMtd>, n: nat)
    requires Numbered(q) && n <= |q|
    ensures forall k :: k in Classes(q, n) <==> 0 <= k < n && q[k].Classed?
    ensures forall k :: 0 <= k < n && q[k].Classed? ==> Classes(q, n)[k] == [q[k].cls]
  {
    if n > 0 {
      ClassesAre(q, n - 1);
    }
  }

  /** The mask nodes among the first `n` nodes, each named by the record after its own. */
  ghost predicate TablesHold(g: Meta, n: nat, tables: map<nat, nat>)
    requires n <= |g.nodes|
  {
    forall i: nat {:trigger IsMaskNode(g, i)} :: i < n && IsMaskNode(g, i) ==> Base(g, i) in tables && tables[Base(g, i)] == Base(g, i) + 1
  }

  ghost predicate OnlyMasks(g: Meta, n: nat, tables: map<nat, nat>)
    requires n <= |g.nodes|
  {
    forall id :: id in tables ==> exists i: nat :: i < n && IsMaskNode(g, i) && Base(g, i) == id
  }

  ghost predicate TablesOf(g: Meta, n: nat, tables: map<nat, nat>)
    requires n <= |g.nodes|
  {
    TablesHold(g, n, tables) && OnlyMasks(g, n, tables)
  }

  function NodeKind(n: Node): int {
    match n
    case Detection(_, _, _) => MTD_DETECTION
    case Classification(_) => MTD_CLASSIFICATION
    case Tracking(_) => MTD_TRACKING
    case Segmentation(_, _, _, _) => MTD_SEGMENTATION
    case Unmapped => -1
  }

  ghost predicate KindsOf(g: Meta, kinds: map<nat, int>) {
    forall i: nat {:trigger HasRecord(g, i)} :: HasRecord(g, i) ==>
      && IsKind(kinds, Base(g, i), NodeKind(g.nodes[i]))
      && (g.nodes[i].Segmentation? ==> IsKind(kinds, Base(g, i) + 1, MTD_CLASSIFICATION))
  }

  lemma BitsOfKinds()
    ensures IsNToN(REL_N_TO_N) && !IsContain(REL_N_TO_N) && !IsRelateTo(REL_N_TO_N)
    ensures IsContain(REL_CONTAIN) && !IsNToN(REL_CONTAIN) && !IsRelateTo(REL_CONTAIN)
    ensures IsRelateTo(REL_RELATE_TO) && !IsNToN(REL_RELATE_TO)
    ensures !IsContain(REL_RELATE_TO)
    ensures !IsContain(REL_IS_PART_OF) && !IsNToN(REL_IS_PART_OF)
    ensures !IsRelateTo(REL_IS_PART_OF)
  {
  }

  lemma {:induction false} TablesPrefix(a: seq<Record>, b: seq<Record>, n: nat, kinds: map<nat, int>)
    requires n <= |a|
    ensures Tables(a + b, n, kinds) == Tables(a, n, kinds)
  {
    if n > 0 {
      TablesPrefix(a, b, n - 1, kinds);
    }
  }

  lemma {:induction false} TablesWithout(a: seq<Record>, b: seq<Record>, n: nat, kinds: map<nat, int>)
    requires n <= |b| && forall k :: 0 <= k < |b| ==> !IsTable(b[k], kinds)
    ensures Tables(a + b, |a| + n, kinds) == Tables(a, |a|, kinds)
  {
    if n > 0 {
      TablesWithout(a, b, n - 1, kinds);
      assert (a + b)[|a| + n - 1] == b[n - 1];
    } else {
      TablesPrefix(a, b, |a|, kinds);
    }
  }

  function TablesOfNodes(g: Meta, n: nat, kinds: map<nat, int>): map<nat, nat>
    requires n <= |g.nodes|
  {
    Tables(TableRecords(g, n), |TableRecords(g, n)|, kinds)
  }

  ghost predicate MaskKinds(g: Meta, i: nat, kinds: map<nat, int>)
    requires i < |g.nodes|
  {
    IsMaskNode(g, i) ==> IsKind(kinds, Base(g, i), MTD_SEGMENTATION) && IsKind(kinds, Base(g, i) + 1, MTD_CLASSIFICATION)
  }

  lemma {:induction false} MaskTables(g: Meta, n: nat, kinds: map<nat, int>)
    requires n <= |g.nodes| && Base(g, |g.nodes|) <= MAX_NODES
    requires forall i: nat :: i < |g.nodes| ==> MaskKinds(g, i, kinds)
    ensures TablesOf(g, n, TablesOfNodes(g, n, kinds))
  {
    if n > 0 {
      MaskTables(g, n - 1, kinds);
      NodeTable(g, n, kinds);
      NextTables(g, n, TablesOfNodes(g, n - 1, kinds), TablesOfNodes(g, n, kinds));
    }
  }

  lemma NextTables(g: Meta, n: nat, before: map<nat, nat>, after: map<nat, nat>)
    requires 0 < n <= |g.nodes| && TablesOf(g, n - 1, before)
    requires after == if IsMaskNode(g, n - 1) then before[Base(g, n - 1) := Base(g, n - 1) + 1] else before
    ensures TablesOf(g, n, after)
  {
    if IsMaskNode(g, n - 1) {
      NewTable(g, n, before);
    } else {
      SameTables(g, n, before);
    }
  }

  lemma EmitsTable(n: Node, b: nat)
    requires b <= MAX_NODES
    ensures EmitRecords(n, b) == if Kept(n) && n.Segmentation? then [Record(b, b + 1, REL_N_TO_N)] else []
  {
  }

  lemma MaskRecords(g: Meta, i: nat)
    requires i < |g.nodes| && Base(g, |g.nodes|) <= MAX_NODES
    ensures EmitRecords(g.nodes[i], Base(g, i))
         == if IsMaskNode(g, i) then [Record(Base(g, i), Base(g, i) + 1, REL_N_TO_N)] else []
  {
    BaseGrows(g, i, |g.nodes|);
    EmitsTable(g.nodes[i], Base(g, i));
  }

  lemma NodeTable(g: Meta, n: nat, kinds: map<nat, int>)
    requires 0 < n <= |g.nodes| && Base(g, |g.nodes|) <= MAX_NODES && MaskKinds(g, n - 1, kinds)
    ensures TablesOfNodes(g, n, kinds)
         == if IsMaskNode(g, n - 1) then TablesOfNodes(g, n - 1, kinds)[Base(g, n - 1) := Base(g, n - 1) + 1]
            else TablesOfNodes(g, n - 1, kinds)
  {
    MaskRecords(g, n - 1);
    if IsMaskNode(g, n - 1) {
      TableStep(TableRecords(g, n - 1), Base(g, n - 1), kinds);
    } else {
      assert TableRecords(g, n - 1) + [] == TableRecords(g, n - 1);
    }
  }

  lemma TableStep(a: seq<Record>, id: nat, kinds: map<nat, int>)
    requires IsKind(kinds, id, MTD_SEGMENTATION) && IsKind(kinds, id + 1, MTD_CLASSIFICATION)
    ensures Tables(a + [Record(id, id + 1, REL_N_TO_N)], |a| + 1, kinds) == Tables(a, |a|, kinds)[id := id + 1]
  {
    BitsOfKinds();
    TablesPrefix(a, [Record(id, id + 1, REL_N_TO_N)], |a|, kinds);
  }

  lemma NewTable(g: Meta, n: nat, before: map<nat, nat>)
    requires 0 < n <= |g.nodes| && TablesOf(g, n - 1, before)
    requires IsMaskNode(g, n - 1)
    ensures TablesOf(g, n, before[Base(g, n - 1) := Base(g, n - 1) + 1])
  {
    var after := before[Base(g, n - 1) := Base(g, n - 1) + 1];
    forall id | id in after
      ensures exists i: nat :: i < n && IsMaskNode(g, i) && Base(g, i) == id
    {
      if id != Base(g, n - 1) {
        var i: nat :| i < n - 1 && IsMaskNode(g, i) && Base(g, i) == id;
        assert IsMaskNode(g, i);
      }
    }
  }

  lemma SameTables(g: Meta, n: nat, tables: map<nat, nat>)
    requires 0 < n <= |g.nodes| && TablesOf(g, n - 1, tables)
    requires !IsMaskNode(g, n - 1)
    ensures TablesOf(g, n, tables)
  {
    forall id | id in tables
      ensures exists i: nat :: i < n && IsMaskNode(g, i) && Base(g, i) == id
    {
      var i: nat :| i < n - 1 && IsMaskNode(g, i) && Base(g, i) == id;
      assert IsMaskNode(g, i);
    }
  }

  lemma IdIsBase(g: Meta, i: nat)
    requires i < |g.nodes| && Base(g, |g.nodes|) <= MAX_NODES
    ensures Id(Base(g, i)) == Base(g, i)
  {
    BaseGrows(g, i, |g.nodes|);
  }

  ghost predicate NoTable(rs: seq<Record>, kinds: map<nat, int>) {
    forall j :: 0 <= j < |rs| ==> !IsTable(rs[j], kinds)
  }

  lemma NoTableInRelation(g: Meta, r: Relation, kinds: map<nat, int>)
    requires KindsOf(g, kinds) && Base(g, |g.nodes|) <= MAX_NODES && !IsFalseTable(g, r)
    ensures NoTable(RelationRecords(g, r), kinds)
  {
    BitsOfKinds();
    if HasRecord(g, r.from) && HasRecord(g, r.to) {
      IdIsBase(g, r.from);
      IdIsBase(g, r.to);
    }
  }

  lemma FalseTableRecord(g: Meta, r: Relation, kinds: map<nat, int>)
    requires KindsOf(g, kinds) && Base(g, |g.nodes|) <= MAX_NODES && IsFalseTable(g, r)
    ensures RelationRecords(g, r) == [Record(Base(g, r.from), Base(g, r.to), REL_RELATE_TO)]
    ensures IsTable(RelationRecords(g, r)[0], kinds)
  {
    BitsOfKinds();
    assert HasRecord(g, r.from);
    IdIsBase(g, r.from);
    IdIsBase(g, r.to);
  }

  lemma OneTable(a: seq<Record>, r: Record, kinds: map<nat, int>)
    requires IsTable(r, kinds)
    ensures Tables(a + [r], |a + [r]|, kinds) == Tables(a, |a|, kinds)[r.from := r.to]
  {
    TablesPrefix(a, [r], |a|, kinds);
  }

  /** A relation's records name at most one mask. */
  lemma RelationTable(g: Meta, a: seq<Record>, r: Relation, kinds: map<nat, int>)
    requires KindsOf(g, kinds) && Base(g, |g.nodes|) <= MAX_NODES
    ensures
      var b := a + RelationRecords(g, r);
      Tables(b, |b|, kinds)
      == if IsFalseTable(g, r) then Tables(a, |a|, kinds)[Base(g, r.from) := Base(g, r.to)] else Tables(a, |a|, kinds)
  {
    if IsFalseTable(g, r) {
      FalseTableRecord(g, r, kinds);
      OneTable(a, RelationRecords(g, r)[0], kinds);
    } else {
      NoTableInRelation(g, r, kinds);
      TablesWithout(a, RelationRecords(g, r), |RelationRecords(g, r)|, kinds);
    }
  }

  /** The record that names mask `i`, by its own table and the first `m` relations. */
  function TableId(g: Meta, i: nat, m: nat): nat
    requires i < |g.nodes| && m <= |g.relations|
  {
    match Renaming(g, i, m)
    case Some(j) => Base(g, j)
    case None => Base(g, i) + 1
  }

  ghost predicate NamesMask(g: Meta, i: nat, m: nat, tables: map<nat, nat>)
    requires i < |g.nodes| && m <= |g.relations|
  {
    Base(g, i) in tables && tables[Base(g, i)] == TableId(g, i, m)
  }

  ghost predicate NamesMasks(g: Meta, m: nat, tables: map<nat, nat>)
    requires m <= |g.relations|
  {
    && (forall i: nat {:trigger IsMaskNode(g, i)} :: IsMaskNode(g, i) ==> NamesMask(g, i, m, tables))
    && OnlyMasks(g, |g.nodes|, tables)
  }

  lemma BasesDiffer(g: Meta, i: nat, j: nat)
    requires i < |g.nodes| && j < |g.nodes| && Kept(g.nodes[i]) && Kept(g.nodes[j]) && i != j
    ensures Base(g, i) != Base(g, j)
  {
    if i < j {
      BaseGrows(g, i + 1, j);
    } else {
      BaseGrows(g, j + 1, i);
    }
  }

  lemma NextRenaming(g: Meta, m: nat, before: map<nat, nat>, after: map<nat, nat>)
    requires 0 < m <= |g.relations| && NamesMasks(g, m - 1, before)
    requires
      var r := g.relations[m - 1];
      after == if IsFalseTable(g, r) then before[Base(g, r.from) := Base(g, r.to)] else before
    ensures NamesMasks(g, m, after)
  {
    var r := g.relations[m - 1];
    forall i: nat | IsMaskNode(g, i) ensures NamesMask(g, i, m, after) {
      assert NamesMask(g, i, m - 1, before);
      if IsFalseTable(g, r) && r.from != i {
        BasesDiffer(g, r.from, i);
      }
    }
    if IsFalseTable(g, r) {
      OneMoreMask(g, r.from, before, Base(g, r.to));
    }
  }

  lemma OneMoreMask(g: Meta, i: nat, tables: map<nat, nat>, id: nat)
    requires IsMaskNode(g, i) && OnlyMasks(g, |g.nodes|, tables)
    ensures OnlyMasks(g, |g.nodes|, tables[Base(g, i) := id])
  {
  }

  lemma {:induction false} GraphTables(g: Meta, m: nat, a: seq<Record>, kinds: map<nat, int>)
    requires m <= |g.relations| && KindsOf(g, kinds) && Base(g, |g.nodes|) <= MAX_NODES
    requires NamesMasks(g, 0, Tables(a, |a|, kinds))
    ensures
      var b := a + GraphRecords(g, m);
      NamesMasks(g, m, Tables(b, |b|, kinds))
  {
    if m == 0 {
      assert a + [] == a;
    } else {
      GraphTables(g, m - 1, a, kinds);
      var b := a + GraphRecords(g, m - 1);
      RelationTable(g, b, g.relations[m - 1], kinds);
      Regroup(a, GraphRecords(g, m - 1), RelationRecords(g, g.relations[m - 1]));
      var c := b + RelationRecords(g, g.relations[m - 1]);
      NextRenaming(g, m, Tables(b, |b|, kinds), Tables(c, |c|, kinds));
    }
  }

  /** In the reader's tables each mask is named by the last track from it to a
      classification, or else by the record after its own, and nothing else is named. */
  lemma AllTables(g: Meta, kinds: map<nat, int>)
    requires KindsOf(g, kinds) && Base(g, |g.nodes|) <= MAX_NODES
    ensures NamesMasks(g, |g.relations|, Tables(AllRecords(g), |AllRecords(g)|, kinds))
  {
    forall i: nat | i < |g.nodes| ensures MaskKinds(g, i, kinds) {
      assert IsMaskNode(g, i) ==> HasRecord(g, i);
    }
    MaskTables(g, |g.nodes|, kinds);
    OwnTables(g, TablesOfNodes(g, |g.nodes|, kinds));
    GraphTables(g, |g.relations|, TableRecords(g, |g.nodes|), kinds);
  }

  lemma OwnTables(g: Meta, tables: map<nat, nat>)
    requires TablesOf(g, |g.nodes|, tables)
    ensures NamesMasks(g, 0, tables)
  {
  }

  // ----- one node -----

  lemma SampleInside(m: Mask, x: nat, y: nat)
    requires ValidMask(m) && x < m.width && y < m.height
    ensures Sample(m, x, y).Some?
  {
    RowEnds(m.stride, y, m.height);
  }

  lemma RowEnds(stride: nat, y: nat, height: nat)
    requires y < height
    ensures y * stride + stride <= stride * height
  {
    assert (height - y - 1) * stride >= 0;
    assert stride * height == y * stride + stride + (height - y - 1) * stride;
  }

  function ReadMask(m: Mask): Mask {
    Mask(m.width, m.height, m.width, Coverage(Image(m, m.height), REGION_ID))
  }

  lemma PixelThresholds(m: Mask, x: nat, y: nat)
    requires ValidMask(m) && x < m.width && y < m.height
    ensures Sample(m, x, y).Some?
    ensures Sample(ReadMask(m), x, y) == Some(if Sample(m, x, y).value >= 128 then 255 else 0)
  {
    SampleInside(m, x, y);
    ImageAt(m, m.height, x, y);
  }

  /** Writing a mask as a region image and reading the region thresholds it. */
  lemma MaskThresholds(m: Mask)
    requires ValidMask(m)
    ensures |Image(m, m.height)| == m.height * m.width
    ensures Thresholded(m, ReadMask(m))
  {
    ImageSize(m, m.height);
    forall x: nat, y: nat | x < m.width && y < m.height
      ensures Sample(m, x, y).Some?
      ensures Sample(ReadMask(m), x, y) == Some(if Sample(m, x, y).value >= 128 then 255 else 0)
    {
      PixelThresholds(m, x, y);
    }
  }

  /** The reader's records of a graph: one for each written, in order. */
  ghost predicate Written(g: Meta, q: seq<ReadMtd>, names: seq<string>, width: u32, height: u32)
    requires width > 0 && height > 0
  {
    var ms := AllMtds(g, width, height);
    && |q| == |ms| && Numbered(q)
    && forall k :: 0 <= k < |q| ==> Reads(ms[k], q[k], names, width, height)
  }

  /** The node that the records at `b` make, a mask with the class after it. */
  function NodeRead(q: seq<ReadMtd>, b: nat): Node {
    if b >= |q| then Unmapped
    else
      match q[b]
      case Detected(_, bbox, classId, confidence) => Detection(bbox, classId, confidence)
      case Classed(_, cls) => Classification(cls)
      case Tracked(_, objectId) => Tracking(objectId)
      case Segmented(_, bbox, masks) =>
        if b + 1 < |q| && q[b + 1].Classed? && |masks| == 1
        then Segmentation(bbox, q[b + 1].cls.classId, q[b + 1].cls.confidence, masks[0]) else Unmapped
  }

  lemma LabelNames(names: Option<seq<string>>, classId: nat)
    ensures (if Label(names, classId).Some? then Label(names, classId).value else UNLABELLED) == ReadName(names, classId)
  {
  }

  lemma SingleNodeReads(names: Option<seq<string>>, n: Node, id: nat, r: ReadMtd, names': seq<string>, width: u32, height: u32)
    requires width > 0 && height > 0 && (n.Detection? || n.Classification? || n.Tracking?)
    requires Reads(Emit(names, n, id, width, height)[0], r, names', width, height)
    ensures SameNode(names, n, NodeRead([r], 0), names', width, height)
  {
    if n.Detection? {
      LabelNames(names, n.classId);
    } else if n.Classification? {
      LabelNames(names, n.cls.classId);
    }
  }

  lemma MaskNodeReads(names: Option<seq<string>>, n: Node, id: nat, r: ReadMtd, c: ReadMtd, names': seq<string>, width: u32, height: u32)
    requires width > 0 && height > 0 && n.Segmentation? && Kept(n) && ValidMask(n.mask)
    requires Reads(Emit(names, n, id, width, height)[0], r, names', width, height)
    requires Reads(Emit(names, n, id, width, height)[1], c, names', width, height)
    ensures r.Segmented? && |r.masks| == 1 && c.Classed?
    ensures SameNode(names, n, NodeRead([r, c], 0), names', width, height)
  {
    LabelNames(names, n.classId);
    MaskThresholds(n.mask);
  }

  /** What the records of node `i` make is what the node comes back as. */
  lemma NodeReads(g: Meta, i: nat, q: seq<ReadMtd>, names: seq<string>, width: u32, height: u32)
    requires width > 0 && height > 0 && MasksValid(g)
    requires i < |g.nodes| && Kept(g.nodes[i]) && Written(g, q, names, width, height)
    ensures SameNode(g.names, g.nodes[i], NodeRead(q, Base(g, i)), names, width, height)
    ensures Shaped(g.nodes[i], q, Base(g, i), End(g, i))
  {
    var b, ms, n := Base(g, i), AllMtds(g, width, height), g.nodes[i];
    var emitted := Emit(g.names, n, b, width, height);
    MtdsAt(g, i, width, height);
    assert ms[b] == ms[b..End(g, i)][0] == emitted[0];
    if n.Segmentation? {
      assert ms[b + 1] == ms[b..End(g, i)][1] == emitted[1];
      MaskNodeReads(g.names, n, b, q[b], q[b + 1], names, width, height);
    } else {
      SingleNodeReads(g.names, n, b, q[b], names, width, height);
    }
  }

  /** One record at `b`, or a mask and the class that names it. */
  ghost predicate Shaped(n: Node, q: seq<ReadMtd>, b: nat, end: nat) {
    && b < end <= |q| && KindOf(q[b]) == NodeKind(n)
    && end == (if n.Segmentation? then b + 2 else b + 1)
    && (n.Segmentation? ==> b + 1 < |q| && q[b].Segmented? && |q[b].masks| == 1 && q[b + 1].Classed?)
  }

  lemma NodeShape(g: Meta, i: nat, q: seq<ReadMtd>, names: seq<string>, width: u32, height: u32)
    requires width > 0 && height > 0 && MasksValid(g)
    requires i < |g.nodes| && Kept(g.nodes[i]) && Written(g, q, names, width, height)
    ensures Shaped(g.nodes[i], q, Base(g, i), End(g, i))
  {
    NodeReads(g, i, q, names, width, height);
  }

  // ----- all nodes -----

  lemma {:induction false} RankGrows(g: Meta, i: nat, j: nat)
    requires i <= j <= |g.nodes|
    ensures Rank(g, i) <= Rank(g, j)
    decreases j - i
  {
    if i < j {
      RankGrows(g, i, j - 1);
    }
  }

  /** What stands for node `j` in a rebuilt graph. */
  ghost predicate Stands(g: Meta, j: nat, b: Built, width: u32, height: u32)
    requires j < |g.nodes| && width > 0 && height > 0
  {
    if Present(g, j) then
      StandsFor(g, j, b.nodes, b.names, width, height) && Base(g, j) in b.index && b.index[Base(g, j)] == [Rank(g, j)]
    else Base(g, j) !in b.index
  }

  ghost predicate BuiltUpTo(g: Meta, i: nat, b: Built, names: seq<string>, width: u32, height: u32)
    requires i <= |g.nodes| && width > 0 && height > 0
  {
    && |b.nodes| == Rank(g, i) && b.names == names
    && (forall j: nat {:trigger HasRecord(g, j)} :: j < i && HasRecord(g, j) ==> Stands(g, j, b, width, height))
    && (forall id :: id in b.index ==> id < Base(g, i))
  }

  /** `a` is `b` with nodes and numbers from `first` on added. */
  ghost predicate Extends(b: Built, a: Built, first: nat) {
    && a.names == b.names && b.nodes <= a.nodes
    && forall id :: id < first ==> (id in a.index <==> id in b.index) && (id in a.index ==> a.index[id] == b.index[id])
  }

  lemma StillStands(g: Meta, j: nat, i: nat, b: Built, a: Built, width: u32, height: u32)
    requires width > 0 && height > 0 && j < i < |g.nodes| && HasRecord(g, j)
    requires Stands(g, j, b, width, height) && Extends(b, a, Base(g, i))
    ensures Stands(g, j, a, width, height)
  {
    BaseGrows(g, j + 1, i);
  }

  lemma Extended(g: Meta, i: nat, b: Built, a: Built, names: seq<string>, width: u32, height: u32)
    requires width > 0 && height > 0 && i < |g.nodes|
    requires BuiltUpTo(g, i, b, names, width, height) && Extends(b, a, Base(g, i))
    requires |a.nodes| == Rank(g, i + 1) && (HasRecord(g, i) ==> Stands(g, i, a, width, height))
    requires forall id :: id in a.index ==> id < Base(g, i + 1)
    ensures BuiltUpTo(g, i + 1, a, names, width, height)
  {
    forall j: nat | j < i + 1 && HasRecord(g, j) ensures Stands(g, j, a, width, height) {
      if j < i {
        StillStands(g, j, i, b, a, width, height);
      }
    }
  }

  /** What node `i`'s records, once read, add. */
  function AddRead(g: Meta, i: nat, q: seq<ReadMtd>, b: Built): Built {
    if !Present(g, i) then b
    else
      match RenamedBy(g, i)
      case None => AddNode(b, Base(g, i), NodeRead(q, Base(g, i)))
      case Some(j) =>
        AddNode(AddNode(b, Base(g, i), RenamedRead(q, Base(g, i), Base(g, j))), Base(g, i) + 1, NodeRead(q, Base(g, i) + 1))
  }

  /** The mask at `b` with the class at `c`. */
  function RenamedRead(q: seq<ReadMtd>, b: nat, c: nat): Node {
    if b < |q| && c < |q| && q[b].Segmented? && |q[b].masks| == 1 && q[c].Classed?
    then Segmentation(q[b].bbox, q[c].cls.classId, q[c].cls.confidence, q[b].masks[0]) else Unmapped
  }

  lemma AddedPlain(g: Meta, i: nat, b: Built, n: Node, names: seq<string>, width: u32, height: u32)
    requires width > 0 && height > 0 && Present(g, i) && RenamedBy(g, i).None?
    requires BuiltUpTo(g, i, b, names, width, height)
    requires SameNode(g.names, g.nodes[i], n, names, width, height)
    ensures BuiltUpTo(g, i + 1, AddNode(b, Base(g, i), n), names, width, height)
  {
    assert Base(g, i) !in b.index;
    Extended(g, i, b, AddNode(b, Base(g, i), n), names, width, height);
  }

  lemma AddedRenamed(g: Meta, i: nat, b: Built, n: Node, own: Node, names: seq<string>, width: u32, height: u32)
    requires width > 0 && height > 0 && Present(g, i) && RenamedBy(g, i).Some?
    requires BuiltUpTo(g, i, b, names, width, height)
    requires SameNode(g.names, Renamed(g, i), n, names, width, height)
    requires SameNode(g.names, OwnClass(g.nodes[i]), own, names, width, height)
    ensures BuiltUpTo(g, i + 1, AddNode(AddNode(b, Base(g, i), n), Base(g, i) + 1, own), names, width, height)
  {
    assert Base(g, i) !in b.index && Base(g, i) + 1 !in b.index;
    Extended(g, i, b, AddNode(AddNode(b, Base(g, i), n), Base(g, i) + 1, own), names, width, height);
  }

  lemma AddedNothing(g: Meta, i: nat, b: Built, names: seq<string>, width: u32, height: u32)
    requires width > 0 && height > 0 && i < |g.nodes| && !Present(g, i)
    requires BuiltUpTo(g, i, b, names, width, height)
    ensures BuiltUpTo(g, i + 1, b, names, width, height)
  {
    Extended(g, i, b, b, names, width, height);
  }

  /** A mask comes back with the class it is renamed to. */
  lemma RenamedReads(g: Meta, i: nat, j: nat, q: seq<ReadMtd>, names: seq<string>, width: u32, height: u32)
    requires width > 0 && height > 0 && MasksValid(g) && Written(g, q, names, width, height)
    requires RenamedBy(g, i) == Some(j)
    ensures SameNode(g.names, Renamed(g, i), RenamedRead(q, Base(g, i), Base(g, j)), names, width, height)
    ensures SameNode(g.names, OwnClass(g.nodes[i]), NodeRead(q, Base(g, i) + 1), names, width, height)
  {
    NodeReads(g, i, q, names, width, height);
    NodeReads(g, j, q, names, width, height);
  }

  /** A node's record names a mask only when the node is taken, and the record after a mask's
      own names it unless something else does. */
  ghost predicate TabledNode(g: Meta, i: nat, tables: map<nat, nat>)
    requires i < |g.nodes|
  {
    && (Base(g, i) in tables.Values <==> Taken(g, i))
    && (IsMaskNode(g, i) ==>
          NamesMask(g, i, |g.relations|, tables) && (Base(g, i) + 1 in tables.Values <==> RenamedBy(g, i).None?))
  }

  lemma NamedMask(g: Meta, tables: map<nat, nat>, id: nat) returns (i: nat)
    requires NamesMasks(g, |g.relations|, tables) && id in tables
    ensures IsMaskNode(g, i) && Base(g, i) == id && tables[id] == TableId(g, i, |g.relations|)
  {
    i :| i < |g.nodes| && IsMaskNode(g, i) && Base(g, i) == id;
    assert NamesMask(g, i, |g.relations|, tables);
  }

  lemma TakenNames(g: Meta, i: nat, tables: map<nat, nat>)
    requires HasRecord(g, i) && NamesMasks(g, |g.relations|, tables)
    ensures Base(g, i) in tables.Values <==> Taken(g, i)
  {
    if Base(g, i) in tables.Values {
      var id :| id in tables && tables[id] == Base(g, i);
      var j := NamedMask(g, tables, id);
      match RenamedBy(g, j)
      case None => BasesApart(g, i, j);
      case Some(k) =>
        if k != i {
          BasesDiffer(g, k, i);
        }
    }
    if Taken(g, i) {
      var j :| 0 <= j < |g.nodes| && RenamedBy(g, j) == Some(i);
      assert IsMaskNode(g, j);
      assert NamesMask(g, j, |g.relations|, tables);
      assert tables[Base(g, j)] == Base(g, i);
    }
  }

  lemma OwnNames(g: Meta, i: nat, tables: map<nat, nat>)
    requires IsMaskNode(g, i) && NamesMasks(g, |g.relations|, tables)
    ensures NamesMask(g, i, |g.relations|, tables)
    ensures Base(g, i) + 1 in tables.Values <==> RenamedBy(g, i).None?
  {
    assert NamesMask(g, i, |g.relations|, tables);
    if Base(g, i) + 1 in tables.Values {
      var id :| id in tables && tables[id] == Base(g, i) + 1;
      var j := NamedMask(g, tables, id);
      match RenamedBy(g, j)
      case None =>
        if j != i {
          BasesDiffer(g, j, i);
        }
      case Some(k) => BasesApart(g, k, i);
    }
    if RenamedBy(g, i).None? {
      assert tables[Base(g, i)] == Base(g, i) + 1;
    }
  }

  lemma BasesApart(g: Meta, i: nat, j: nat)
    requires i < |g.nodes| && j < |g.nodes| && Kept(g.nodes[i]) && IsMaskNode(g, j)
    ensures Base(g, i) != Base(g, j) + 1
  {
    if j < i {
      BaseGrows(g, j + 1, i);
    } else if i < j {
      BaseGrows(g, i + 1, j);
    }
  }

  lemma TablesServe(g: Meta, tables: map<nat, nat>)
    requires NamesMasks(g, |g.relations|, tables)
    ensures forall i: nat {:trigger HasRecord(g, i)} :: HasRecord(g, i) ==> TabledNode(g, i, tables)
  {
    forall i: nat | HasRecord(g, i) ensures TabledNode(g, i, tables) {
      TakenNames(g, i, tables);
      if IsMaskNode(g, i) {
        OwnNames(g, i, tables);
      }
    }
  }

  lemma OneRegion(b: Built, id: nat, bbox: BBox, masks: seq<Mask>, cls: Class)
    requires |masks| == 1
    ensures AddRegions(b, id, bbox, masks, 1, [cls]) == AddNode(b, id, Segmentation(bbox, cls.classId, cls.confidence, masks[0]))
  {
    assert AddRegions(b, id, bbox, masks, 0, [cls]) == b;
    assert b.(names := b.names) == b;
  }

  ghost predicate Tabled(g: Meta, q: seq<ReadMtd>, tables: map<nat, nat>, classes: map<nat, seq<Class>>) {
    && (forall i: nat {:trigger HasRecord(g, i)} :: HasRecord(g, i) ==> TabledNode(g, i, tables))
    && classes == Classes(q, |q|)
  }

  lemma MaskIsNotTaken(g: Meta, i: nat)
    requires i < |g.nodes| && !g.nodes[i].Classification?
    ensures !Taken(g, i)
  {
  }

  lemma BuildsMaskNode(g: Meta, i: nat, q: seq<ReadMtd>, names: seq<string>, tables: map<nat, nat>, classes: map<nat, seq<Class>>)
    requires IsMaskNode(g, i) && Numbered(q) && Shaped(g.nodes[i], q, Base(g, i), End(g, i))
    requires classes == Classes(q, |q|) && TabledNode(g, i, tables)
    requires RenamedBy(g, i).Some? ==>
               Base(g, RenamedBy(g, i).value) < |q| && q[Base(g, RenamedBy(g, i).value)].Classed?
    ensures Build(q, Base(g, i) + 2, tables, classes, names) == AddRead(g, i, q, Build(q, Base(g, i), tables, classes, names))
  {
    ClassesAre(q, |q|);
    MaskIsNotTaken(g, i);
    match RenamedBy(g, i)
    case None => BuildsMask(q, Base(g, i), tables, classes, names);
    case Some(j) => BuildsRenamed(q, Base(g, i), Base(g, j), tables, classes, names);
  }

  /** Building from one node's records adds what they stand for. */
  lemma BuildsNode(g: Meta, i: nat, q: seq<ReadMtd>, names: seq<string>, tables: map<nat, nat>, classes: map<nat, seq<Class>>)
    requires HasRecord(g, i) && Numbered(q) && Shaped(g.nodes[i], q, Base(g, i), End(g, i))
    requires classes == Classes(q, |q|) && TabledNode(g, i, tables)
    requires RenamedBy(g, i).Some? ==>
               Base(g, RenamedBy(g, i).value) < |q| && q[Base(g, RenamedBy(g, i).value)].Classed?
    ensures Build(q, End(g, i), tables, classes, names) == AddRead(g, i, q, Build(q, Base(g, i), tables, classes, names))
  {
    if g.nodes[i].Segmentation? {
      BuildsMaskNode(g, i, q, names, tables, classes);
    } else if Taken(g, i) {
      BuildsNothing(q, Base(g, i), tables, classes, names);
    } else {
      BuildsSingle(q, Base(g, i), tables, classes, names);
    }
  }

  lemma BuildsNothing(q: seq<ReadMtd>, b: nat, tables: map<nat, nat>, classes: map<nat, seq<Class>>, names: seq<string>)
    requires b < |q| && Numbered(q) && q[b].Classed? && b in tables.Values
    ensures Build(q, b + 1, tables, classes, names) == Build(q, b, tables, classes, names)
  {
  }

  lemma BuildsSingle(q: seq<ReadMtd>, b: nat, tables: map<nat, nat>, classes: map<nat, seq<Class>>, names: seq<string>)
    requires b < |q| && Numbered(q) && !q[b].Segmented? && b !in tables.Values
    ensures Build(q, b + 1, tables, classes, names) == AddNode(Build(q, b, tables, classes, names), b, NodeRead(q, b))
  {
  }

  lemma BuildsMask(q: seq<ReadMtd>, b: nat, tables: map<nat, nat>, classes: map<nat, seq<Class>>, names: seq<string>)
    requires b + 1 < |q| && Numbered(q)
    requires q[b].Segmented? && |q[b].masks| == 1 && q[b + 1].Classed?
    requires b in tables && tables[b] == b + 1 && b + 1 in tables.Values && At(classes, b + 1) == [q[b + 1].cls]
    ensures Build(q, b + 2, tables, classes, names) == AddNode(Build(q, b, tables, classes, names), b, NodeRead(q, b))
  {
    var before := Build(q, b, tables, classes, names);
    OneRegion(before, b, q[b].bbox, q[b].masks, q[b + 1].cls);
    assert Build(q, b + 1, tables, classes, names) == BuildStep(before, q[b], tables, classes);
    assert Build(q, b + 2, tables, classes, names) == BuildStep(Build(q, b + 1, tables, classes, names), q[b + 1], tables, classes);
  }

  lemma BuildsRenamed(q: seq<ReadMtd>, b: nat, c: nat, tables: map<nat, nat>, classes: map<nat, seq<Class>>, names: seq<string>)
    requires b + 1 < |q| && Numbered(q) && c < |q| && q[c].Classed?
    requires q[b].Segmented? && |q[b].masks| == 1 && q[b + 1].Classed?
    requires b in tables && tables[b] == c && b + 1 !in tables.Values && At(classes, c) == [q[c].cls]
    ensures Build(q, b + 2, tables, classes, names)
         == AddNode(AddNode(Build(q, b, tables, classes, names), b, RenamedRead(q, b, c)), b + 1, NodeRead(q, b + 1))
  {
    var before := Build(q, b, tables, classes, names);
    OneRegion(before, b, q[b].bbox, q[b].masks, q[c].cls);
    assert Build(q, b + 1, tables, classes, names) == BuildStep(before, q[b], tables, classes);
    assert Build(q, b + 2, tables, classes, names) == BuildStep(Build(q, b + 1, tables, classes, names), q[b + 1], tables, classes);
  }

  /** The graphs built from the first records, `builds[n]` from the first `n`: each node's
      records add what they stand for. */
  ghost predicate AddsNode(g: Meta, i: nat, q: seq<ReadMtd>, builds: seq<Built>)
    requires i < |g.nodes|
  {
    && End(g, i) < |builds| && Base(g, i) < |builds|
    && builds[End(g, i)] == AddRead(g, i, q, builds[Base(g, i)])
  }

  lemma NodeAdds(g: Meta, i: nat, q: seq<ReadMtd>, b: Built, names: seq<string>, width: u32, height: u32)
    requires width > 0 && height > 0 && MasksValid(g) && Written(g, q, names, width, height)
    requires HasRecord(g, i) && BuiltUpTo(g, i, b, names, width, height)
    ensures BuiltUpTo(g, i + 1, AddRead(g, i, q, b), names, width, height)
  {
    if !Present(g, i) {
      AddedNothing(g, i, b, names, width, height);
    } else {
      NodeReads(g, i, q, names, width, height);
      match RenamedBy(g, i)
      case None => AddedPlain(g, i, b, NodeRead(q, Base(g, i)), names, width, height);
      case Some(j) =>
        RenamedReads(g, i, j, q, names, width, height);
        AddedRenamed(g, i, b, RenamedRead(q, Base(g, i), Base(g, j)), NodeRead(q, Base(g, i) + 1), names, width, height);
    }
  }

  /** The first `i` nodes stand in what their records have built. */
  ghost predicate Reaches(g: Meta, i: nat, names: seq<string>, builds: seq<Built>, width: u32, height: u32)
    requires i <= |g.nodes| && width > 0 && height > 0
  {
    Base(g, i) < |builds| && BuiltUpTo(g, i, builds[Base(g, i)], names, width, height)
  }

  lemma BuildsNext(g: Meta, i: nat, q: seq<ReadMtd>, names: seq<string>, builds: seq<Built>, width: u32, height: u32)
    requires width > 0 && height > 0 && MasksValid(g) && Written(g, q, names, width, height)
    requires i < |g.nodes| && (HasRecord(g, i) ==> AddsNode(g, i, q, builds))
    requires Reaches(g, i, names, builds, width, height)
    ensures Reaches(g, i + 1, names, builds, width, height)
  {
    if HasRecord(g, i) {
      NodeAdds(g, i, q, builds[Base(g, i)], names, width, height);
    } else {
      AddedNothing(g, i, builds[Base(g, i)], names, width, height);
    }
  }

  lemma BuildsNone(g: Meta, names: seq<string>, builds: seq<Built>, width: u32, height: u32)
    requires width > 0 && height > 0 && builds != [] && builds[0] == Built([], map[], names)
    ensures Reaches(g, 0, names, builds, width, height)
  {
  }

  function Builds(q: seq<ReadMtd>, tables: map<nat, nat>, classes: map<nat, seq<Class>>, names: seq<string>): (r: seq<Built>)
    ensures |r| == |q| + 1
  {
    seq(|q| + 1, n requires 0 <= n < |q| + 1 => Build(q, n, tables, classes, names))
  }

  lemma RecordsAdd(g: Meta, i: nat, q: seq<ReadMtd>, names: seq<string>, tables: map<nat, nat>, classes: map<nat, seq<Class>>,
                   width: u32, height: u32)
    requires width > 0 && height > 0 && MasksValid(g) && Tabled(g, q, tables, classes)
    requires HasRecord(g, i) && Written(g, q, names, width, height)
    ensures AddsNode(g, i, q, Builds(q, tables, classes, names))
  {
    NodeShape(g, i, q, names, width, height);
    if RenamedBy(g, i).Some? {
      NodeShape(g, RenamedBy(g, i).value, q, names, width, height);
    }
    BuildsNode(g, i, q, names, tables, classes);
  }

  lemma BuildsStep(g: Meta, i: nat, q: seq<ReadMtd>, names: seq<string>, tables: map<nat, nat>, classes: map<nat, seq<Class>>,
                   width: u32, height: u32)
    requires width > 0 && height > 0 && MasksValid(g) && Tabled(g, q, tables, classes)
    requires Written(g, q, names, width, height) && i < |g.nodes|
    ensures ReachesOn(g, i, names, Builds(q, tables, classes, names), width, height)
  {
    var builds := Builds(q, tables, classes, names);
    if HasRecord(g, i) {
      RecordsAdd(g, i, q, names, tables, classes, width, height);
    }
    if Reaches(g, i, names, builds, width, height) {
      BuildsNext(g, i, q, names, builds, width, height);
    }
  }

  ghost predicate ReachesOn(g: Meta, i: nat, names: seq<string>, builds: seq<Built>, width: u32, height: u32)
    requires i < |g.nodes| && width > 0 && height > 0
  {
    Reaches(g, i, names, builds, width, height) ==> Reaches(g, i + 1, names, builds, width, height)
  }

  lemma {:induction false} ReachesAll(g: Meta, i: nat, names: seq<string>, builds: seq<Built>, width: u32, height: u32)
    requires width > 0 && height > 0 && i <= |g.nodes| && Reaches(g, 0, names, builds, width, height)
    requires forall k :: 0 <= k < |g.nodes| ==> ReachesOn(g, k, names, builds, width, height)
    ensures Reaches(g, i, names, builds, width, height)
  {
    if i > 0 {
      ReachesAll(g, i - 1, names, builds, width, height);
      assert ReachesOn(g, i - 1, names, builds, width, height);
    }
  }

  lemma BuildsAll(g: Meta, q: seq<ReadMtd>, names: seq<string>, tables: map<nat, nat>, classes: map<nat, seq<Class>>,
                  width: u32, height: u32)
    requires width > 0 && height > 0 && MasksValid(g) && Tabled(g, q, tables, classes)
    requires Written(g, q, names, width, height) && Base(g, |g.nodes|) == |q|
    ensures BuiltUpTo(g, |g.nodes|, Build(q, |q|, tables, classes, names), names, width, height)
  {
    var builds := Builds(q, tables, classes, names);
    forall i | 0 <= i < |g.nodes| ensures ReachesOn(g, i, names, builds, width, height) {
      BuildsStep(g, i, q, names, tables, classes, width, height);
    }
    BuildsNone(g, names, builds, width, height);
    ReachesAll(g, |g.nodes|, names, builds, width, height);
  }

  // ----- relations -----

  lemma NodeKinds(g: Meta, q: seq<ReadMtd>, names: seq<string>, width: u32, height: u32)
    requires width > 0 && height > 0 && MasksValid(g) && Written(g, q, names, width, height)
    ensures KindsOf(g, Kinds(q, |q|))
  {
    var kinds := Kinds(q, |q|);
    KindsAre(q, |q|);
    forall i: nat | HasRecord(g, i)
      ensures IsKind(kinds, Base(g, i), NodeKind(g.nodes[i]))
      ensures g.nodes[i].Segmentation? ==> IsKind(kinds, Base(g, i) + 1, MTD_CLASSIFICATION)
    {
      NodeShape(g, i, q, names, width, height);
    }
  }

  /** Each node that comes back stands alone under its record's number, and no other node
      stands under one. */
  ghost predicate Indexed(g: Meta, index: map<nat, seq<nat>>) {
    forall i: nat {:trigger HasRecord(g, i)} :: HasRecord(g, i) ==>
      if Present(g, i) then Base(g, i) in index && index[Base(g, i)] == [Rank(g, i)] else Base(g, i) !in index
  }

  lemma {:induction false} TableRecordKinds(g: Meta, n: nat)
    requires n <= |g.nodes|
    ensures forall k :: 0 <= k < |TableRecords(g, n)| ==> TableRecords(g, n)[k].kind == REL_N_TO_N
  {
    if n > 0 {
      TableRecordKinds(g, n - 1);
    }
  }

  lemma {:induction false} WireNothing(rs: seq<Record>, n: nat, kinds: map<nat, int>, index: map<nat, seq<nat>>)
    requires n <= |rs| && forall k :: 0 <= k < n ==> rs[k].kind == REL_N_TO_N
    ensures Wire(rs, n, kinds, index) == []
  {
    BitsOfKinds();
    if n > 0 {
      WireNothing(rs, n - 1, kinds, index);
    }
  }

  lemma WireOne(out: seq<Relation>, r: Record, kinds: map<nat, int>, index: map<nat, seq<nat>>, x: nat, y: nat)
    requires r.from in index && index[r.from] == [x] && r.to in index && index[r.to] == [y]
    requires |out| < MAX_RELATIONS
    ensures WireStep(out, r, kinds, index)
         == out + if RelationOf(r, kinds).Some? then [Relation(x, y, RelationOf(r, kinds).value)] else []
  {
    if RelationOf(r, kinds).Some? {
      var kind := RelationOf(r, kinds).value;
      OnePair(x, y, kind);
    }
  }

  lemma OnePair(x: nat, y: nat, kind: RelationKind)
    ensures Pairs([x], 1, [y], kind) == [Relation(x, y, kind)]
  {
    assert PairRow(x, [y], 1, kind) == PairRow(x, [y], 0, kind) + [Relation(x, y, kind)];
    assert Pairs([x], 1, [y], kind) == Pairs([x], 0, [y], kind) + PairRow(x, [y], 1, kind);
  }

  lemma WireSkips(out: seq<Relation>, r: Record, kinds: map<nat, int>, index: map<nat, seq<nat>>)
    requires r.kind == REL_IS_PART_OF
    ensures WireStep(out, r, kinds, index) == out
  {
    BitsOfKinds();
  }

  /** The records of one relation, wired after `out`. */
  function WireBoth(out: seq<Relation>, rs: seq<Record>, kinds: map<nat, int>, index: map<nat, seq<nat>>): seq<Relation> {
    if |rs| == 0 then out
    else if |rs| == 1 then WireStep(out, rs[0], kinds, index)
    else WireStep(WireStep(out, rs[0], kinds, index), rs[1], kinds, index)
  }

  lemma WireNone(out: seq<Relation>, r: Record, kinds: map<nat, int>, index: map<nat, seq<nat>>)
    requires r.from !in index || r.to !in index
    ensures WireStep(out, r, kinds, index) == out
  {
  }

  lemma RelationWires(g: Meta, r: Relation, out: seq<Relation>, kinds: map<nat, int>, index: map<nat, seq<nat>>)
    requires KindsOf(g, kinds) && Indexed(g, index) && Base(g, |g.nodes|) <= MAX_NODES
    requires |out| + |RelationRecords(g, r)| <= MAX_RELATIONS
    ensures WireBoth(out, RelationRecords(g, r), kinds, index) == out + ReadRelation(g, r)
  {
    if HasRecord(g, r.from) && HasRecord(g, r.to) {
      IdIsBase(g, r.from);
      IdIsBase(g, r.to);
      BitsOfKinds();
      var first := RelationRecords(g, r)[0];
      if Present(g, r.from) && Present(g, r.to) {
        WireOne(out, first, kinds, index, Rank(g, r.from), Rank(g, r.to));
      } else {
        WireNone(out, first, kinds, index);
      }
      if !r.kind.Tracks? {
        WireSkips(WireStep(out, first, kinds, index), RelationRecords(g, r)[1], kinds, index);
      }
    } else {
      assert out + [] == out;
    }
  }

  lemma GraphRecordsNext(g: Meta, n: nat)
    requires 0 < n <= |g.relations|
    ensures GraphRecords(g, n) == GraphRecords(g, n - 1) + RelationRecords(g, g.relations[n - 1])
    ensures GraphRecords(g, n - 1) <= GraphRecords(g, n)
  {
  }

  lemma GraphRecordsGrow(g: Meta, n: nat, m: nat)
    requires n <= m <= |g.relations|
    ensures GraphRecords(g, n) <= GraphRecords(g, m)
  {
    var xs := seq(|g.relations| + 1, k requires 0 <= k < |g.relations| + 1 => GraphRecords(g, k));
    forall k | 0 <= k < |xs| - 1 ensures xs[k] <= xs[k + 1] {
      GraphRecordsNext(g, k + 1);
    }
    Chain(xs, n, m);
  }

  lemma FewerInRelation(g: Meta, r: Relation)
    ensures |ReadRelation(g, r)| <= |RelationRecords(g, r)|
  {
  }

  lemma {:induction false} FewerRelations(g: Meta, n: nat)
    requires n <= |g.relations|
    ensures |ReadRelations(g, n)| <= |GraphRecords(g, n)|
  {
    if n > 0 {
      FewerRelations(g, n - 1);
      FewerInRelation(g, g.relations[n - 1]);
    }
  }

  /** Wiring a stretch of one or two records. */
  lemma WireStretch(rs: seq<Record>, p: nat, more: seq<Record>, kinds: map<nat, int>, index: map<nat, seq<nat>>)
    requires |more| <= 2 && p + |more| <= |rs| && rs[p..p + |more|] == more
    ensures Wire(rs, p + |more|, kinds, index) == WireBoth(Wire(rs, p, kinds, index), more, kinds, index)
  {
    if |more| > 0 {
      assert rs[p] == rs[p..p + |more|][0];
    }
    if |more| > 1 {
      assert rs[p + 1] == rs[p..p + |more|][1];
      assert Wire(rs, p + 2, kinds, index) == WireStep(Wire(rs, p + 1, kinds, index), rs[p + 1], kinds, index);
    }
  }

  lemma StretchAt(a: seq<Record>, b: seq<Record>, front: seq<Record>, more: seq<Record>)
    requires front + more <= b
    ensures |a| + |front| + |more| <= |a + b|
    ensures (a + b)[|a| + |front|..|a| + |front| + |more|] == more
  {
    assert b[|front|..|front| + |more|] == more;
  }

  /** Relation `k`'s records are the stretch of `rs` from place `at[k]`, and `out` grows by what
      they are read as. */
  ghost predicate Stretched(g: Meta, rs: seq<Record>, at: seq<nat>, out: seq<seq<Relation>>, k: nat)
    requires k < |g.relations| && |at| == |out| == |g.relations| + 1
  {
    && at[k + 1] == at[k] + |RelationRecords(g, g.relations[k])| <= |rs|
    && rs[at[k]..at[k + 1]] == RelationRecords(g, g.relations[k])
    && out[k + 1] == out[k] + ReadRelation(g, g.relations[k])
    && |out[k]| <= at[k]
  }

  lemma {:induction false} GraphWires(g: Meta, rs: seq<Record>, at: seq<nat>, out: seq<seq<Relation>>, n: nat,
                                      kinds: map<nat, int>, index: map<nat, seq<nat>>)
    requires KindsOf(g, kinds) && Indexed(g, index) && Base(g, |g.nodes|) <= MAX_NODES
    requires n <= |g.relations| && |at| == |out| == |g.relations| + 1
    requires at[0] <= |rs| <= MAX_RELATIONS && Wire(rs, at[0], kinds, index) == out[0]
    requires forall k :: 0 <= k < |g.relations| ==> Stretched(g, rs, at, out, k)
    ensures at[n] <= |rs| && Wire(rs, at[n], kinds, index) == out[n]
  {
    if n > 0 {
      GraphWires(g, rs, at, out, n - 1, kinds, index);
      assert Stretched(g, rs, at, out, n - 1);
      NextWires(g, rs, at[n - 1], g.relations[n - 1], RelationRecords(g, g.relations[n - 1]), out[n - 1], kinds, index);
    }
  }

  function Places(g: Meta): (at: seq<nat>)
    ensures |at| == |g.relations| + 1
  {
    seq(|g.relations| + 1, k requires 0 <= k < |g.relations| + 1 => |TableRecords(g, |g.nodes|)| + |GraphRecords(g, k)|)
  }

  function Growing(g: Meta): (out: seq<seq<Relation>>)
    ensures |out| == |g.relations| + 1
  {
    seq(|g.relations| + 1, k requires 0 <= k < |g.relations| + 1 => ReadRelations(g, k))
  }

  lemma PlaceAt(g: Meta, k: nat)
    requires k < |g.relations|
    ensures Places(g)[k] == |TableRecords(g, |g.nodes|)| + |GraphRecords(g, k)|
    ensures Places(g)[k + 1] == Places(g)[k] + |RelationRecords(g, g.relations[k])|
  {
  }

  lemma GrowsAt(g: Meta, k: nat)
    requires k < |g.relations|
    ensures Growing(g)[k] == ReadRelations(g, k)
    ensures Growing(g)[k + 1] == Growing(g)[k] + ReadRelation(g, g.relations[k])
  {
  }

  lemma RecordsStretched(g: Meta, k: nat, rs: seq<Record>, p: nat, more: seq<Record>)
    requires k < |g.relations| && p == |TableRecords(g, |g.nodes|)| + |GraphRecords(g, k)|
    requires more == RelationRecords(g, g.relations[k]) && p + |more| <= |rs| && rs[p..p + |more|] == more
    ensures Stretched(g, rs, Places(g), Growing(g), k)
  {
    PlaceAt(g, k);
    GrowsAt(g, k);
    FewerRelations(g, k);
    StretchedAt(g, rs, Places(g), Growing(g), k, more, ReadRelation(g, g.relations[k]));
  }

  lemma StretchedAt(g: Meta, rs: seq<Record>, at: seq<nat>, out: seq<seq<Relation>>, k: nat, more: seq<Record>, read: seq<Relation>)
    requires k < |g.relations| && |at| == |out| == |g.relations| + 1
    requires more == RelationRecords(g, g.relations[k]) && read == ReadRelation(g, g.relations[k])
    requires at[k + 1] == at[k] + |more| <= |rs| && rs[at[k]..at[k] + |more|] == more
    requires out[k + 1] == out[k] + read && |out[k]| <= at[k]
    ensures Stretched(g, rs, at, out, k)
  {
  }

  lemma StretchedInAll(g: Meta, k: nat)
    requires k < |g.relations|
    ensures Stretched(g, AllRecords(g), Places(g), Growing(g), k)
  {
    GraphStretch(g, k + 1);
    RecordsStretched(g, k, AllRecords(g), |TableRecords(g, |g.nodes|)| + |GraphRecords(g, k)|,
                     RelationRecords(g, g.relations[k]));
  }

  lemma PlacesEnd(g: Meta)
    ensures Places(g)[0] == |TableRecords(g, |g.nodes|)| && Growing(g)[0] == []
    ensures Places(g)[|g.relations|] == |AllRecords(g)| && Growing(g)[|g.relations|] == ReadRelations(g, |g.relations|)
  {
  }

  lemma AllWires(g: Meta, kinds: map<nat, int>, index: map<nat, seq<nat>>)
    requires KindsOf(g, kinds) && Indexed(g, index) && Fits(g)
    ensures Wire(AllRecords(g), |AllRecords(g)|, kinds, index) == ReadRelations(g, |g.relations|)
  {
    TablesWireNothing(g, kinds, index);
    PlacesEnd(g);
    forall k | 0 <= k < |g.relations| ensures Stretched(g, AllRecords(g), Places(g), Growing(g), k) {
      StretchedInAll(g, k);
    }
    GraphWires(g, AllRecords(g), Places(g), Growing(g), |g.relations|, kinds, index);
  }

  lemma TablesWireNothing(g: Meta, kinds: map<nat, int>, index: map<nat, seq<nat>>)
    ensures |TableRecords(g, |g.nodes|)| <= |AllRecords(g)|
    ensures Wire(AllRecords(g), |TableRecords(g, |g.nodes|)|, kinds, index) == []
  {
    TableRecordKinds(g, |g.nodes|);
    WireNothing(AllRecords(g), |TableRecords(g, |g.nodes|)|, kinds, index);
  }

  /** The records of one relation, among all. */
  lemma GraphStretch(g: Meta, n: nat)
    requires 0 < n <= |g.relations|
    ensures
      var more := RelationRecords(g, g.relations[n - 1]);
      var p := |TableRecords(g, |g.nodes|)| + |GraphRecords(g, n - 1)|;
      && |TableRecords(g, |g.nodes|)| + |GraphRecords(g, n)| == p + |more| <= |AllRecords(g)|
      && AllRecords(g)[p..p + |more|] == more
  {
    GraphRecordsGrow(g, n, |g.relations|);
    StretchAt(TableRecords(g, |g.nodes|), GraphRecords(g, |g.relations|), GraphRecords(g, n - 1),
              RelationRecords(g, g.relations[n - 1]));
  }

  lemma NextWires(g: Meta, rs: seq<Record>, p: nat, r: Relation, more: seq<Record>, out: seq<Relation>,
                  kinds: map<nat, int>, index: map<nat, seq<nat>>)
    requires KindsOf(g, kinds) && Indexed(g, index) && Base(g, |g.nodes|) <= MAX_NODES
    requires more == RelationRecords(g, r)
    requires p + |more| <= |rs| <= MAX_RELATIONS && rs[p..p + |more|] == more
    requires |out| <= p && out == Wire(rs, p, kinds, index)
    ensures Wire(rs, p + |more|, kinds, index) == out + ReadRelation(g, r)
  {
    AtMostTwo(g, r);
    WireStretch(rs, p, more, kinds, index);
    RelationWires(g, r, out, kinds, index);
  }

  lemma AtMostTwo(g: Meta, r: Relation)
    ensures |RelationRecords(g, r)| <= 2
  {
  }

  // ----- the whole graph -----

  /** `r` is what graph `g` comes back as. */
  ghost predicate ComesBackAs(g: Meta, r: Meta, width: u32, height: u32)
    requires width > 0 && height > 0
  {
    && r.names.Some? && |r.nodes| == Rank(g, |g.nodes|)
    && (forall i: nat {:trigger Present(g, i)} :: Present(g, i) ==> StandsFor(g, i, r.nodes, r.names.value, width, height))
    && r.relations == ReadRelations(g, |g.relations|)
  }

  lemma StateRead(g: Meta, width: u32, height: u32)
    requires Fits(g) && width > 0 && height > 0
    ensures
      var s := ReadState(g, width, height);
      s.relations == AllRecords(g) && Written(g, s.mtds, s.names, width, height)
  {
    var ms, rs := AllMtds(g, width, height), AllRecords(g);
    BaseCounts(g, |g.nodes|, width, height);
    EveryMtdReadable(g, |g.nodes|, width, height);
    assert forall k :: 0 <= k < |ms| ==> WellWritten(ms[k], 0 + k);
    EveryRead(ms, |ms|, width, height);
    EveryRelated(ReadAll(ms, |ms|, width, height), rs, |rs|);
    assert rs[..|rs|] == rs;
  }

  lemma StandsIndexed(g: Meta, b: Built, names: seq<string>, width: u32, height: u32)
    requires width > 0 && height > 0 && BuiltUpTo(g, |g.nodes|, b, names, width, height)
    ensures Indexed(g, b.index)
  {
    forall i: nat | HasRecord(g, i)
      ensures if Present(g, i) then Base(g, i) in b.index && b.index[Base(g, i)] == [Rank(g, i)] else Base(g, i) !in b.index
    {
      assert Stands(g, i, b, width, height);
    }
  }

  lemma GraphBuilds(g: Meta, s: State, width: u32, height: u32)
    requires Fits(g) && MasksValid(g) && width > 0 && height > 0
    requires s.relations == AllRecords(g) && Written(g, s.mtds, s.names, width, height)
    ensures BuiltUpTo(g, |g.nodes|, BuildAll(s), s.names, width, height)
    ensures KindsOf(g, Kinds(s.mtds, |s.mtds|))
  {
    var kinds, classes := Kinds(s.mtds, |s.mtds|), Classes(s.mtds, |s.mtds|);
    NodeKinds(g, s.mtds, s.names, width, height);
    AllTables(g, kinds);
    var tables := Tables(AllRecords(g), |AllRecords(g)|, kinds);
    TablesServe(g, tables);
    BaseCounts(g, |g.nodes|, width, height);
    BuildsAll(g, s.mtds, s.names, tables, classes, width, height);
  }

  lemma BuiltComesBack(g: Meta, b: Built, wired: seq<Relation>, width: u32, height: u32)
    requires width > 0 && height > 0 && BuiltUpTo(g, |g.nodes|, b, b.names, width, height)
    requires wired == ReadRelations(g, |g.relations|)
    ensures ComesBackAs(g, Meta(b.nodes, wired, Some(b.names)), width, height)
  {
    forall i: nat | Present(g, i)
      ensures StandsFor(g, i, b.nodes, b.names, width, height)
    {
      assert Stands(g, i, b, width, height);
    }
  }

  lemma ComesBack(g: Meta, s: State, width: u32, height: u32)
    requires Fits(g) && MasksValid(g) && width > 0 && height > 0
    requires s.relations == AllRecords(g) && Written(g, s.mtds, s.names, width, height)
    ensures Finished(s).None? <==> Rank(g, |g.nodes|) == 0
    ensures Finished(s).Some? ==> ComesBackAs(g, Finished(s).value, width, height)
  {
    var b, kinds := BuildAll(s), Kinds(s.mtds, |s.mtds|);
    GraphBuilds(g, s, width, height);
    StandsIndexed(g, b, s.names, width, height);
    AllWires(g, kinds, b.index);
    BuiltComesBack(g, b, Wire(s.relations, |s.relations|, kinds, b.index), width, height);
  }

  /** A graph that fits the reader's budgets comes back with the nodes that have records, in
      order, under the same names, its masks thresholded and its boxes on whole pixels, and
      with the relations among them; nothing comes back when no node has a record. A track
      from a mask to a classification is lost, and renames: the mask comes back with that
      class, its own class as a node after it, and the classification is gone. */
  lemma RoundTrip(g: Meta, width: u32, height: u32)
    requires Fits(g) && MasksValid(g) && width > 0 && height > 0
    ensures ThereAndBack(g, width, height).None? <==> Rank(g, |g.nodes|) == 0
    ensures ThereAndBack(g, width, height).Some? ==> ComesBackAs(g, ThereAndBack(g, width, height).value, width, height)
  {
    StateRead(g, width, height);
    ComesBack(g, ReadState(g, width, height), width, height);
  }

  lemma {:induction false} NothingRead(ms: seq<Mtd>, n: nat, width: u32, height: u32)
    requires n <= |ms| && (width == 0 || height == 0)
    ensures ReadAll(ms, n, width, height) == EMPTY
  {
    if n > 0 {
      NothingRead(ms, n - 1, width, height);
    }
  }

  lemma {:induction false} OnlyRelated(s: State, rs: seq<Record>, n: nat)
    requires n <= |rs|
    ensures RelateAll(s, rs, n).mtds == s.mtds
  {
    if n > 0 {
      OnlyRelated(s, rs, n - 1);
    }
  }

  /** In a frame with no pixel nothing is read. */
  lemma NothingInNoFrame(g: Meta, width: u32, height: u32)
    requires width == 0 || height == 0
    ensures ThereAndBack(g, width, height) == None
  {
    var ms, rs := AllMtds(g, width, height), AllRecords(g);
    NothingRead(ms, |ms|, width, height);
    OnlyRelated(EMPTY, rs, |rs|);
  }

  // ----- when nothing is lost -----

  /** A relation that keeps its kind: `Classifies` exactly for containment from a detection
      to a classification, `Tracks` only from a detection to a tracking identity. */
  predicate KeepsKind(g: Meta, r: Relation) {
    && r.from < |g.nodes| && r.to < |g.nodes|
    && match r.kind
       case Classifies => g.nodes[r.from].Detection? && g.nodes[r.to].Classification?
       case Contains => !(g.nodes[r.from].Detection? && g.nodes[r.to].Classification?)
       case Tracks => g.nodes[r.from].Detection? && g.nodes[r.to].Tracking?
  }

  /** The nodes with a record: those of the mapped kinds, and masks with pixels that a signed
      stride can span. */
  predicate Recorded(n: Node) {
    match n
    case Segmentation(_, _, _, mask) => mask.width > 0 && mask.height > 0 && mask.width < 0x8000_0000
    case Unmapped => false
    case _ => true
  }

  predicate AllKept(g: Meta) {
    forall i :: 0 <= i < |g.nodes| ==> Recorded(g.nodes[i])
  }

  lemma RecordedAreKept(n: Node)
    ensures Recorded(n) <==> Kept(n)
  {
  }

  lemma {:induction false} NothingRanked(g: Meta, n: nat)
    requires n <= |g.nodes|
    ensures Rank(g, n) == 0 <==> forall i :: 0 <= i < n ==> !Present(g, i)
  {
    if n > 0 {
      NothingRanked(g, n - 1);
    }
  }

  /** Nothing comes back exactly when no node has a record. */
  lemma NothingComesBack(g: Meta, width: u32, height: u32)
    requires Fits(g) && MasksValid(g) && width > 0 && height > 0
    ensures ThereAndBack(g, width, height).None? <==> forall i :: 0 <= i < |g.nodes| ==> !Recorded(g.nodes[i])
  {
    RoundTrip(g, width, height);
    NothingRanked(g, |g.nodes|);
    if i :| 0 <= i < |g.nodes| && Recorded(g.nodes[i]) {
      if Taken(g, i) {
        var j :| 0 <= j < |g.nodes| && RenamedBy(g, j) == Some(i);
        MaskIsNotTaken(g, j);
        assert Present(g, j);
      } else {
        assert Present(g, i);
      }
    }
  }

  lemma {:induction false} NoRenaming(g: Meta, i: nat, n: nat)
    requires NoFalseTables(g) && n <= |g.relations|
    ensures Renaming(g, i, n) == None
  {
    if n > 0 {
      NoRenaming(g, i, n - 1);
    }
  }

  lemma AllPresent(g: Meta, i: nat)
    requires AllKept(g) && NoFalseTables(g) && i < |g.nodes|
    ensures Present(g, i) && RenamedBy(g, i) == None
  {
    NoRenaming(g, i, |g.relations|);
    if Taken(g, i) {
      var j :| 0 <= j < |g.nodes| && RenamedBy(g, j) == Some(i);
      NoRenaming(g, j, |g.relations|);
      assert false;
    }
  }

  lemma {:induction false} RankOfKept(g: Meta, i: nat)
    requires AllKept(g) && NoFalseTables(g) && i <= |g.nodes|
    ensures Rank(g, i) == i
  {
    if i > 0 {
      RankOfKept(g, i - 1);
      AllPresent(g, i - 1);
    }
  }

  lemma RelationKept(g: Meta, r: Relation)
    requires AllKept(g) && NoFalseTables(g)
    ensures ReadRelation(g, r) == [r] <==> KeepsKind(g, r)
    ensures |ReadRelation(g, r)| <= 1
  {
    if r.from < |g.nodes| && r.to < |g.nodes| {
      AllPresent(g, r.from);
      AllPresent(g, r.to);
      RankOfKept(g, r.from);
      RankOfKept(g, r.to);
    }
  }

  predicate KeepKinds(g: Meta, n: nat)
    requires n <= |g.relations|
  {
    forall k :: 0 <= k < n ==> KeepsKind(g, g.relations[k])
  }

  lemma KeepKindsNext(g: Meta, n: nat)
    requires 0 < n <= |g.relations|
    ensures KeepKinds(g, n) <==> KeepKinds(g, n - 1) && KeepsKind(g, g.relations[n - 1])
  {
  }

  /** The first `n` relations are read as they were. */
  predicate ReadAlike(g: Meta, n: nat)
    requires n <= |g.relations|
  {
    ReadRelations(g, n) == g.relations[..n]
  }

  lemma ReadAlikeNext(g: Meta, n: nat)
    requires 0 < n <= |g.relations| && |ReadRelations(g, n - 1)| <= n - 1 && |ReadRelation(g, g.relations[n - 1])| <= 1
    ensures ReadAlike(g, n) <==> ReadAlike(g, n - 1) && ReadRelation(g, g.relations[n - 1]) == [g.relations[n - 1]]
    ensures |ReadRelations(g, n)| <= n
  {
    SnocEquals(ReadRelations(g, n - 1), ReadRelation(g, g.relations[n - 1]), g.relations[..n - 1], g.relations[n - 1]);
    LastRelation(g.relations, n);
  }

  /** Relation `k` is read as itself exactly when it keeps its kind, and never as two. */
  predicate ReadsByKind(g: Meta, k: nat)
    requires k < |g.relations|
  {
    var r := g.relations[k];
    (ReadRelation(g, r) == [r] <==> KeepsKind(g, r)) && |ReadRelation(g, r)| <= 1
  }

  lemma {:induction false} RelationsRead(g: Meta, n: nat)
    requires n <= |g.relations| && forall k :: 0 <= k < |g.relations| ==> ReadsByKind(g, k)
    ensures ReadAlike(g, n) <==> KeepKinds(g, n)
    ensures |ReadRelations(g, n)| <= n
  {
    if n > 0 {
      RelationsRead(g, n - 1);
      assert ReadsByKind(g, n - 1);
      KeepKindsNext(g, n);
      ReadAlikeNext(g, n);
    }
  }

  /** With a record for every node, the relations come back as they were exactly when each
      of them keeps its kind. */
  lemma RelationsKept(g: Meta)
    requires AllKept(g) && NoFalseTables(g)
    ensures ReadRelations(g, |g.relations|) == g.relations <==> KeepKinds(g, |g.relations|)
  {
    forall k | 0 <= k < |g.relations| ensures ReadsByKind(g, k) {
      RelationKept(g, g.relations[k]);
    }
    RelationsRead(g, |g.relations|);
    assert g.relations[..|g.relations|] == g.relations;
  }

  lemma LastRelation(rs: seq<Relation>, n: nat)
    requires 0 < n <= |rs|
    ensures rs[..n] == rs[..n - 1] + [rs[n - 1]]
  {
  }

  lemma SnocEquals(a: seq<Relation>, x: seq<Relation>, b: seq<Relation>, r: Relation)
    requires |a| <= |b| && |x| <= 1
    ensures a + x == b + [r] <==> a == b && x == [r]
  {
    if a + x == b + [r] {
      assert |a| == |b| && |x| == 1;
      assert a == (a + x)[..|a|] && b == (b + [r])[..|b|];
      assert x[0] == (a + x)[|a|] && r == (b + [r])[|b|];
    }
  }

  function FalseTable(g: Meta, r: Relation): nat {
    if IsFalseTable(g, r) then 1 else 0
  }

  /** How many of the first `n` relations pass for tables. */
  function FalseTables(g: Meta, n: nat): nat
    requires n <= |g.relations|
  {
    if n == 0 then 0 else FalseTables(g, n - 1) + FalseTable(g, g.relations[n - 1])
  }

  lemma {:induction false} FalseTablesCount(g: Meta, n: nat, k: nat)
    requires k < n <= |g.relations| && IsFalseTable(g, g.relations[k])
    ensures FalseTables(g, n) > 0
  {
    if k < n - 1 {
      FalseTablesCount(g, n - 1, k);
    }
  }

  lemma RelationLost(g: Meta, r: Relation)
    ensures |ReadRelation(g, r)| + FalseTable(g, r) <= 1
  {
  }

  /** No graph comes back with more relations than it had, and each track that passes for a
      table is one fewer. */
  lemma {:induction false} RelationsLost(g: Meta, n: nat)
    requires n <= |g.relations|
    ensures |ReadRelations(g, n)| + FalseTables(g, n) <= n
  {
    if n > 0 {
      RelationsLost(g, n - 1);
      RelationLost(g, g.relations[n - 1]);
    }
  }

  lemma MaskComesBack(g: Meta, i: nat)
    requires IsMaskNode(g, i)
    ensures Rank(g, |g.nodes|) > 0
  {
    MaskIsNotTaken(g, i);
    RankGrows(g, i + 1, |g.nodes|);
  }

  lemma FalseTableChangesKind(g: Meta, k: nat)
    requires k < |g.relations| && IsFalseTable(g, g.relations[k])
    ensures !KeepKinds(g, |g.relations|)
  {
    assert !KeepsKind(g, g.relations[k]);
  }

  /** Every node has come back in its place. */
  ghost predicate SameNodes(g: Meta, r: Meta, width: u32, height: u32)
    requires width > 0 && height > 0
  {
    && |r.nodes| == |g.nodes| && r.names.Some?
    && forall i :: 0 <= i < |g.nodes| ==> SameNode(g.names, g.nodes[i], r.nodes[i], r.names.value, width, height)
  }

  lemma NodesKept(g: Meta, width: u32, height: u32)
    requires Fits(g) && MasksValid(g) && NoFalseTables(g) && AllKept(g) && g.nodes != [] && width > 0 && height > 0
    ensures ThereAndBack(g, width, height).Some?
    ensures SameNodes(g, ThereAndBack(g, width, height).value, width, height)
    ensures ThereAndBack(g, width, height).value.relations == g.relations <==> KeepKinds(g, |g.relations|)
  {
    RoundTrip(g, width, height);
    RankOfKept(g, |g.nodes|);
    RelationsKept(g);
    var r := ThereAndBack(g, width, height).value;
    forall i | 0 <= i < |g.nodes| ensures SameNode(g.names, g.nodes[i], r.nodes[i], r.names.value, width, height) {
      RankOfKept(g, i);
      AllPresent(g, i);
    }
  }

  /** A graph all of whose nodes have records comes back with the same relations if and only
      if each keeps its kind, and then with every node in its place. */
  lemma NothingIsLost(g: Meta, width: u32, height: u32)
    requires Fits(g) && MasksValid(g) && AllKept(g) && g.nodes != [] && width > 0 && height > 0
    ensures ThereAndBack(g, width, height).Some?
    ensures ThereAndBack(g, width, height).value.relations == g.relations <==> KeepKinds(g, |g.relations|)
    ensures NoFalseTables(g) ==> SameNodes(g, ThereAndBack(g, width, height).value, width, height)
    ensures KeepKinds(g, |g.relations|) ==> NoFalseTables(g)
  {
    if NoFalseTables(g) {
      NodesKept(g, width, height);
    } else {
      var k :| 0 <= k < |g.relations| && IsFalseTable(g, g.relations[k]);
      FalseTablesCount(g, |g.relations|, k);
      RelationsLost(g, |g.relations|);
      MaskComesBack(g, g.relations[k].from);
      RoundTrip(g, width, height);
      FalseTableChangesKind(g, k);
    }
  }

  lemma Quotient(p: int, size: u32)
    requires size > 0
    ensures p as real / size as real * size as real == p as real
  {
  }

  lemma RoundWhole(p: int)
    ensures Round(p as real) == p
  {
    if p >= 0 {
      assert (p as real + 0.5).Floor == p;
    } else {
      assert (-(p as real) + 0.5).Floor == -p;
    }
  }

  lemma PixelsWhole(v: real, p: int, size: u32)
    requires v * size as real == p as real && I32_MIN <= p <= I32_MAX
    ensures Pixels(v, size) == p
  {
    RoundWhole(p);
  }

  /** A coordinate in pixels: the nearest whole number, halves away from zero, within 32 bits. */
  predicate IsWholePixel(r: real, n: int) {
    if r >= 0x7FFF_FFFF as real then n == 0x7FFF_FFFF
    else if r <= -0x8000_0000 as real then n == -0x8000_0000
    else if r >= 0.0 then n as real - 0.5 <= r < n as real + 0.5
    else n as real - 0.5 < r <= n as real + 0.5
  }

  lemma RoundMeans(r: real, n: int)
    ensures Round(r) == n <==> if r >= 0.0 then n as real - 0.5 <= r < n as real + 0.5 else n as real - 0.5 < r <= n as real + 0.5
  {
  }

  lemma PixelsMean(v: real, size: nat, n: int)
    ensures Pixels(v, size) == n <==> IsWholePixel(v * size as real, n)
  {
    var r := v * size as real;
    RoundMeans(r, Round(r));
    RoundMeans(r, n);
    ClampMeans(r, Round(r), n);
  }

  lemma ClampMeans(r: real, m: int, n: int)
    requires if r >= 0.0 then m as real - 0.5 <= r < m as real + 0.5 else m as real - 0.5 < r <= m as real + 0.5
    ensures ToI32(m) == n <==> IsWholePixel(r, n)
  {
  }

  /** Every coordinate within 32 bits comes back within half a pixel. */
  lemma HalfAPixel(v: real, size: u32)
    requires size > 0 && I32_MIN as real <= v * size as real <= I32_MAX as real
    ensures -0.5 <= Snapped(v, size) * size as real - v * size as real <= 0.5
  {
    PixelsMean(v, size, Pixels(v, size));
    Quotient(Pixels(v, size), size);
  }

  /** A coordinate on a whole pixel comes back as it was. */
  lemma WholePixelsSurvive(p: int, size: u32)
    requires size > 0 && I32_MIN <= p <= I32_MAX
    ensures Snapped(p as real / size as real, size) == p as real / size as real
  {
    Quotient(p, size);
    PixelsWhole(p as real / size as real, p, size);
  }
}
