/** Rebuilding an analytics graph from records. */
module AnalyticsReader {
  import opened Options
  import opened Integers
  import opened AnalyticsGraph

  datatype ReadMtd =
    | Detected(id: nat, bbox: BBox, classId: nat, confidence: real)
    | Classed(id: nat, cls: Class)
    | Tracked(id: nat, objectId: nat)
    | Segmented(id: nat, bbox: BBox, masks: seq<Mask>)

  function KindOf(r: ReadMtd): int {
    match r
    case Detected(_, _, _, _) => MTD_DETECTION
    case Classed(_, _) => MTD_CLASSIFICATION
    case Tracked(_, _) => MTD_TRACKING
    case Segmented(_, _, _) => MTD_SEGMENTATION
  }

  // ----- reading records -----

  datatype State = State(mtds: seq<ReadMtd>, relations: seq<Record>, names: seq<string>, nodeCount: nat, maskBytes: nat)

  const EMPTY: State := State([], [], [], 0, 0)

  /** The budgets hold, whatever was read. */
  predicate Bounded(s: State) {
    s.nodeCount <= MAX_NODES && s.maskBytes <= MAX_MASK_BYTES && |s.relations| <= MAX_RELATIONS
  }

  function NameOf(name: Option<string>): string {
    if name.Some? then name.value else UNLABELLED
  }

  function Box(m: Mtd, width: u32, height: u32): BBox
    requires width > 0 && height > 0
  {
    BBox(m.x as real / width as real, m.y as real / height as real,
         m.w as real / width as real, m.h as real / height as real)
  }

  /** The samples of a row, one or two bytes each, low byte first. */
  function RowSamples(row: seq<u8>, sampleBytes: nat): seq<nat>
    requires sampleBytes == 1 || sampleBytes == 2
  {
    if |row| < sampleBytes then []
    else [FirstSample(row, sampleBytes)] + RowSamples(row[sampleBytes..], sampleBytes)
  }

  function FirstSample(row: seq<u8>, sampleBytes: nat): nat
    requires (sampleBytes == 1 || sampleBytes == 2) && |row| >= sampleBytes
  {
    if sampleBytes == 1 then row[0] else row[0] as nat + 256 * row[1] as nat
  }

  /** The samples of the first `rows` rows, or `None` when one lies past the image. */
  function Samples(image: seq<u8>, rows: nat, stride: nat, rowBytes: nat, sampleBytes: nat): Option<seq<nat>>
    requires sampleBytes == 1 || sampleBytes == 2
  {
    if rows == 0 then Some([])
    else
      var before, start := Samples(image, rows - 1, stride, rowBytes, sampleBytes), (rows - 1) * stride;
      if before.Some? && start + rowBytes <= |image|
      then Some(before.value + RowSamples(image[start..start + rowBytes], sampleBytes)) else None
  }

  function Coverage(samples: seq<nat>, region: nat): seq<u8> {
    seq(|samples|, k requires 0 <= k < |samples| => if samples[k] == region then COVERED else 0)
  }

  function RegionMask(samples: seq<nat>, region: nat, width: u32, height: u32): Option<Mask> {
    NewMask(width, height, width, Coverage(samples, region))
  }

  /** One mask per region, if every one fits. */
  function AllMasks(samples: seq<nat>, regions: seq<nat>, width: u32, height: u32): Option<seq<Mask>> {
    if regions == [] then Some([])
    else
      var head, tail := RegionMask(samples, regions[0], width, height), AllMasks(samples, regions[1..], width, height);
      if head.Some? && tail.Some? then Some([head.value] + tail.value) else None
  }

  /** What the region image costs, when its geometry and the budgets allow it. */
  function MaskCost(nodeCount: nat, maskBytes: nat, m: Mtd): Option<nat>
    requires nodeCount <= MAX_NODES && maskBytes <= MAX_MASK_BYTES
  {
    if (m.sampleBytes != 1 && m.sampleBytes != 2) || m.image.None? || m.regions.None? || m.maskStride < 0 then None
    else
      var pixels := m.maskWidth * m.maskHeight;
      var cost := pixels * |m.regions.value|;
      if cost > U64_MAX || m.maskStride < m.maskWidth * m.sampleBytes || pixels > |m.image.value|
         || |m.regions.value| > MAX_NODES - nodeCount || cost > MAX_MASK_BYTES - maskBytes
      then None else Some(cost)
  }

  datatype Masks = Masks(masks: seq<Mask>, cost: nat)

  function RegionMasks(nodeCount: nat, maskBytes: nat, m: Mtd): (r: Option<Masks>)
    requires nodeCount <= MAX_NODES && maskBytes <= MAX_MASK_BYTES
  {
    match MaskCost(nodeCount, maskBytes, m)
    case None => None
    case Some(cost) =>
      match Samples(m.image.value, m.maskHeight, m.maskStride, m.maskWidth * m.sampleBytes, m.sampleBytes)
      case None => None
      case Some(samples) =>
        match AllMasks(samples, m.regions.value, m.maskWidth, m.maskHeight)
        case Some(masks) => Some(Masks(masks, cost))
        case None => None
  }

  lemma {:induction false} MaskPerRegion(samples: seq<nat>, regions: seq<nat>, width: u32, height: u32)
    ensures AllMasks(samples, regions, width, height).Some? ==> |AllMasks(samples, regions, width, height).value| == |regions|
    ensures width * height <= |samples| ==> AllMasks(samples, regions, width, height).Some?
  {
    if regions != [] {
      MaskPerRegion(samples, regions[1..], width, height);
    }
  }

  lemma {:induction false} RowSamplesSize(row: seq<u8>, sampleBytes: nat, n: nat)
    requires (sampleBytes == 1 || sampleBytes == 2) && |row| == n * sampleBytes
    ensures |RowSamples(row, sampleBytes)| == n
  {
    if n > 0 {
      RowSamplesSize(row[sampleBytes..], sampleBytes, n - 1);
    }
  }

  lemma {:induction false} SamplesSize(image: seq<u8>, rows: nat, stride: nat, width: nat, sampleBytes: nat)
    requires (sampleBytes == 1 || sampleBytes == 2) && Samples(image, rows, stride, width * sampleBytes, sampleBytes).Some?
    ensures |Samples(image, rows, stride, width * sampleBytes, sampleBytes).value| == width * rows
  {
    if rows > 0 {
      SamplesSize(image, rows - 1, stride, width, sampleBytes);
      NextRowSize(image, (rows - 1) * stride, width, width * sampleBytes, sampleBytes);
      OneMoreRow(width, rows);
    }
  }

  lemma NextRowSize(image: seq<u8>, start: nat, width: nat, rowBytes: nat, sampleBytes: nat)
    requires (sampleBytes == 1 || sampleBytes == 2) && rowBytes == width * sampleBytes
    requires start + rowBytes <= |image|
    ensures |RowSamples(image[start..start + rowBytes], sampleBytes)| == width
  {
    RowSamplesSize(image[start..start + rowBytes], sampleBytes, width);
  }

  lemma OneMoreRow(width: nat, rows: nat)
    requires rows > 0
    ensures width * (rows - 1) + width == width * rows
  {
  }

  /** A record becomes at most one node per region, and stays within the budgets. */
  function ReadStep(s: State, m: Mtd, width: u32, height: u32): (r: State)
    requires Bounded(s)
  {
    if s.nodeCount >= MAX_NODES || width == 0 || height == 0 then s
    else if m.kind == MTD_DETECTION then
      var (names, classId) := Interned(s.names, NameOf(m.name));
      s.(mtds := s.mtds + [Detected(m.id, Box(m, width, height), classId, m.confidence)], names := names,
         nodeCount := s.nodeCount + 1)
    else if m.kind == MTD_CLASSIFICATION then
      var (names, classId) := Interned(s.names, NameOf(m.name));
      s.(mtds := s.mtds + [Classed(m.id, Class(classId, m.confidence))], names := names, nodeCount := s.nodeCount + 1)
    else if m.kind == MTD_TRACKING then
      s.(mtds := s.mtds + [Tracked(m.id, m.trackingId)], nodeCount := s.nodeCount + 1)
    else if m.kind == MTD_SEGMENTATION then
      match RegionMasks(s.nodeCount, s.maskBytes, m)
      case None => s
      case Some(r) =>
        s.(mtds := s.mtds + [Segmented(m.id, Box(m, width, height), r.masks)],
           nodeCount := s.nodeCount + |r.masks|, maskBytes := s.maskBytes + r.cost)
    else s
  }

  lemma ReadStaysBounded(s: State, m: Mtd, width: u32, height: u32)
    requires Bounded(s)
    ensures Bounded(ReadStep(s, m, width, height))
  {
    if m.kind == MTD_SEGMENTATION && RegionMasks(s.nodeCount, s.maskBytes, m).Some? {
      var samples := Samples(m.image.value, m.maskHeight, m.maskStride, m.maskWidth * m.sampleBytes, m.sampleBytes).value;
      MaskPerRegion(samples, m.regions.value, m.maskWidth, m.maskHeight);
    }
  }

  function RelateStep(s: State, r: Record): State {
    if |s.relations| < MAX_RELATIONS then s.(relations := s.relations + [r]) else s
  }

  // ----- rebuilding the graph -----

  /** The last record with a number decides its kind. */
  function Kinds(mtds: seq<ReadMtd>, n: nat): map<nat, int>
    requires n <= |mtds|
  {
    if n == 0 then map[] else Kinds(mtds, n - 1)[mtds[n - 1].id := KindOf(mtds[n - 1])]
  }

  predicate IsKind(kinds: map<nat, int>, id: nat, kind: int) {
    id in kinds && kinds[id] == kind
  }

  /** A mask names its regions through a classification related to it. */
  predicate IsTable(r: Record, kinds: map<nat, int>) {
    && (IsNToN(r.kind) || IsRelateTo(r.kind))
    && IsKind(kinds, r.from, MTD_SEGMENTATION) && IsKind(kinds, r.to, MTD_CLASSIFICATION)
  }

  function Tables(rs: seq<Record>, n: nat, kinds: map<nat, int>): map<nat, nat>
    requires n <= |rs|
  {
    if n == 0 then map[]
    else
      var before, r := Tables(rs, n - 1, kinds), rs[n - 1];
      if IsTable(r, kinds) then before[r.from := r.to] else before
  }

  function At<T>(m: map<nat, seq<T>>, id: nat): seq<T> {
    if id in m then m[id] else []
  }

  function Classes(mtds: seq<ReadMtd>, n: nat): map<nat, seq<Class>>
    requires n <= |mtds|
  {
    if n == 0 then map[]
    else
      var before, m := Classes(mtds, n - 1), mtds[n - 1];
      if m.Classed? then before[m.id := At(before, m.id) + [m.cls]] else before
  }

  datatype Built = Built(nodes: seq<Node>, index: map<nat, seq<nat>>, names: seq<string>)

  function AddNode(b: Built, id: nat, node: Node): Built {
    Built(b.nodes + [node], b.index[id := At(b.index, id) + [|b.nodes|]], b.names)
  }

  /** A region takes its class from the table at its own position, if there is one. */
  function AddRegion(b: Built, id: nat, bbox: BBox, mask: Mask, labels: seq<Class>, region: nat): Built {
    var (names, cls) :=
      if region < |labels| then (b.names, labels[region])
      else
        var (names, classId) := Interned(b.names, UNLABELLED);
        (names, Class(classId, UNDEFINED_CONFIDENCE));
    AddNode(b.(names := names), id, Segmentation(bbox, cls.classId, cls.confidence, mask))
  }

  function AddRegions(b: Built, id: nat, bbox: BBox, masks: seq<Mask>, n: nat, labels: seq<Class>): Built
    requires n <= |masks|
  {
    if n == 0 then b
    else AddRegion(AddRegions(b, id, bbox, masks, n - 1, labels), id, bbox, masks[n - 1], labels, n - 1)
  }

  function BuildStep(b: Built, m: ReadMtd, tables: map<nat, nat>, classes: map<nat, seq<Class>>): Built {
    match m
    case Detected(id, bbox, classId, confidence) => AddNode(b, id, Detection(bbox, classId, confidence))
    case Classed(id, cls) => if id in tables.Values then b else AddNode(b, id, Classification(cls))
    case Tracked(id, objectId) => AddNode(b, id, Tracking(objectId))
    case Segmented(id, bbox, masks) =>
      AddRegions(b, id, bbox, masks, |masks|, if id in tables then At(classes, tables[id]) else [])
  }

  function Build(mtds: seq<ReadMtd>, n: nat, tables: map<nat, nat>, classes: map<nat, seq<Class>>, names: seq<string>): Built
    requires n <= |mtds|
  {
    if n == 0 then Built([], map[], names) else BuildStep(Build(mtds, n - 1, tables, classes, names), mtds[n - 1], tables, classes)
  }

  /** The relation a record stands for: only the containing side of a containment is read. */
  function RelationOf(r: Record, kinds: map<nat, int>): Option<RelationKind> {
    if IsContain(r.kind) then
      Some(if IsKind(kinds, r.from, MTD_DETECTION) && IsKind(kinds, r.to, MTD_CLASSIFICATION) then Classifies else Contains)
    else if IsRelateTo(r.kind) && IsKind(kinds, r.from, MTD_DETECTION) && IsKind(kinds, r.to, MTD_TRACKING)
    then Some(Tracks)
    else None
  }

  function Capped(rs: seq<Relation>): seq<Relation> {
    if |rs| <= MAX_RELATIONS then rs else rs[..MAX_RELATIONS]
  }

  function PairRow(from: nat, to: seq<nat>, n: nat, kind: RelationKind): seq<Relation>
    requires n <= |to|
  {
    if n == 0 then [] else PairRow(from, to, n - 1, kind) + [Relation(from, to[n - 1], kind)]
  }

  function Pairs(from: seq<nat>, n: nat, to: seq<nat>, kind: RelationKind): seq<Relation>
    requires n <= |from|
  {
    if n == 0 then [] else Pairs(from, n - 1, to, kind) + PairRow(from[n - 1], to, |to|, kind)
  }

  /** Every node of one record with every node of the other. */
  function WireStep(out: seq<Relation>, r: Record, kinds: map<nat, int>, index: map<nat, seq<nat>>): seq<Relation> {
    if RelationOf(r, kinds).Some? && r.from in index && r.to in index
    then Capped(out + Pairs(index[r.from], |index[r.from]|, index[r.to], RelationOf(r, kinds).value)) else out
  }

  function Wire(rs: seq<Record>, n: nat, kinds: map<nat, int>, index: map<nat, seq<nat>>): seq<Relation>
    requires n <= |rs|
  {
    if n == 0 then [] else WireStep(Wire(rs, n - 1, kinds, index), rs[n - 1], kinds, index)
  }

  function BuildAll(s: State): Built {
    Build(s.mtds, |s.mtds|, Tables(s.relations, |s.relations|, Kinds(s.mtds, |s.mtds|)), Classes(s.mtds, |s.mtds|), s.names)
  }

  /** The graph of everything read, or none when it has no node. */
  function Finished(s: State): Option<Meta> {
    var b := BuildAll(s);
    if b.nodes == [] then None
    else Some(Meta(b.nodes, Wire(s.relations, |s.relations|, Kinds(s.mtds, |s.mtds|), b.index), Some(b.names)))
  }

  lemma PushCapped(out: seq<Relation>, target: seq<Relation>, r: Relation)
    requires out == Capped(target)
    ensures (if |out| < MAX_RELATIONS then out + [r] else out) == Capped(target + [r])
  {
  }

  lemma PushPair(out: seq<Relation>, before: seq<Relation>, from: nat, to: seq<nat>, j: nat, kind: RelationKind)
    requires j < |to| && out == Capped(before + PairRow(from, to, j, kind))
    ensures (if |out| < MAX_RELATIONS then out + [Relation(from, to[j], kind)] else out)
         == Capped(before + PairRow(from, to, j + 1, kind))
  {
    var r := Relation(from, to[j], kind);
    PushCapped(out, before + PairRow(from, to, j, kind), r);
    assert before + PairRow(from, to, j, kind) + [r] == before + (PairRow(from, to, j, kind) + [r]);
  }

  lemma PairsStep(out: seq<Relation>, from: seq<nat>, i: nat, to: seq<nat>, kind: RelationKind)
    requires i < |from|
    ensures out + Pairs(from, i + 1, to, kind) == out + Pairs(from, i, to, kind) + PairRow(from[i], to, |to|, kind)
  {
  }

  // ----- the reader -----

  class Reader {
    var mtds: seq<ReadMtd>
    var relations: seq<Record>
    const classNames: ClassNames
    var nodeCount: nat
    var maskBytes: nat

    ghost predicate Valid()
      reads this, classNames
    {
      classNames.Valid() && Bounded(Contents())
    }

    ghost function Contents(): State
      reads this, classNames
    {
      State(mtds, relations, classNames.names, nodeCount, maskBytes)
    }

    constructor ()
      ensures Valid() && Contents() == EMPTY && fresh(classNames)
    {
      mtds, relations, nodeCount, maskBytes := [], [], 0, 0;
      classNames := new ClassNames();
    }

    method Read(m: Mtd, width: u32, height: u32)
      requires Valid()
      modifies this, classNames
      ensures Valid() && Contents() == ReadStep(old(Contents()), m, width, height)
    {
      ReadStaysBounded(Contents(), m, width, height);
      if nodeCount >= MAX_NODES || width == 0 || height == 0 {
        return;
      }
      if m.kind == MTD_DETECTION {
        var classId := classNames.Intern(NameOf(m.name));
        nodeCount := nodeCount + 1;
        mtds := mtds + [Detected(m.id, Box(m, width, height), classId, m.confidence)];
      } else if m.kind == MTD_CLASSIFICATION {
        var classId := classNames.Intern(NameOf(m.name));
        nodeCount := nodeCount + 1;
        mtds := mtds + [Classed(m.id, Class(classId, m.confidence))];
      } else if m.kind == MTD_TRACKING {
        nodeCount := nodeCount + 1;
        mtds := mtds + [Tracked(m.id, m.trackingId)];
      } else if m.kind == MTD_SEGMENTATION {
        ReadSegmentation(m, width, height);
      }
    }

    method ReadSegmentation(m: Mtd, width: u32, height: u32)
      requires Valid() && width > 0 && height > 0
      modifies this`nodeCount, this`maskBytes, this`mtds
      ensures
        Contents() ==
        match old(RegionMasks(nodeCount, maskBytes, m))
        case None => old(Contents())
        case Some(r) =>
          old(Contents()).(mtds := old(mtds) + [Segmented(m.id, Box(m, width, height), r.masks)],
                           nodeCount := old(nodeCount) + |r.masks|, maskBytes := old(maskBytes) + r.cost)
    {
      var masks := ReadRegions(m);
      if masks.Some? {
        nodeCount := nodeCount + |masks.value|;
        mtds := mtds + [Segmented(m.id, Box(m, width, height), masks.value)];
      }
    }

    method ReadRegions(m: Mtd) returns (masks: Option<seq<Mask>>)
      requires Valid()
      modifies this`maskBytes
      ensures
        match old(RegionMasks(nodeCount, maskBytes, m))
        case None => masks == None && maskBytes == old(maskBytes)
        case Some(r) => masks == Some(r.masks) && maskBytes == old(maskBytes) + r.cost
    {
      var cost := MaskCost(nodeCount, maskBytes, m);
      if cost.None? {
        return None;
      }
      var samples := ReadSamples(m.image.value, m.maskHeight, m.maskStride, m.maskWidth * m.sampleBytes, m.sampleBytes);
      if samples.None? {
        return None;
      }
      SamplesSize(m.image.value, m.maskHeight, m.maskStride, m.maskWidth, m.sampleBytes);
      MaskPerRegion(samples.value, m.regions.value, m.maskWidth, m.maskHeight);
      maskBytes := maskBytes + cost.value;
      masks := AllMasks(samples.value, m.regions.value, m.maskWidth, m.maskHeight);
    }

    method Relate(from: nat, to: nat, kind: nat)
      requires Valid()
      modifies this`relations
      ensures Valid() && Contents() == RelateStep(old(Contents()), Record(from, to, kind))
    {
      if |relations| < MAX_RELATIONS {
        relations := relations + [Record(from, to, kind)];
      }
    }

    method Finish() returns (meta: Option<Meta>)
      requires Valid()
      modifies classNames
      ensures meta == Finished(old(Contents()))
    {
      var kinds := ReadKinds();
      var tables := ReadTables(kinds);
      var classes := ReadClasses();
      var nodes, index := BuildNodes(tables, classes);
      ghost var s := old(Contents());
      assert Built(nodes, index, classNames.names) == BuildAll(s);
      var wired := WireAll(relations, kinds, index);
      if nodes == [] {
        return None;
      }
      meta := Some(Meta(nodes, wired, Some(classNames.names)));
    }

    method ReadKinds() returns (kinds: map<nat, int>)
      ensures kinds == Kinds(mtds, |mtds|)
    {
      kinds := map[];
      for i := 0 to |mtds|
        invariant kinds == Kinds(mtds, i)
      {
        kinds := kinds[mtds[i].id := KindOf(mtds[i])];
      }
    }

    method ReadTables(kinds: map<nat, int>) returns (tables: map<nat, nat>)
      ensures tables == Tables(relations, |relations|, kinds)
    {
      tables := map[];
      for i := 0 to |relations|
        invariant tables == Tables(relations, i, kinds)
      {
        if IsTable(relations[i], kinds) {
          tables := tables[relations[i].from := relations[i].to];
        }
      }
    }

    method ReadClasses() returns (classes: map<nat, seq<Class>>)
      ensures classes == Classes(mtds, |mtds|)
    {
      classes := map[];
      for i := 0 to |mtds|
        invariant classes == Classes(mtds, i)
      {
        if mtds[i].Classed? {
          classes := classes[mtds[i].id := At(classes, mtds[i].id) + [mtds[i].cls]];
        }
      }
    }

    method BuildNodes(tables: map<nat, nat>, classes: map<nat, seq<Class>>)
      returns (nodes: seq<Node>, index: map<nat, seq<nat>>)
      requires classNames.Valid()
      modifies classNames
      ensures classNames.Valid()
      ensures Built(nodes, index, classNames.names) == Build(mtds, |mtds|, tables, classes, old(classNames.names))
    {
      nodes, index := [], map[];
      for i := 0 to |mtds|
        invariant classNames.Valid()
        invariant Built(nodes, index, classNames.names) == Build(mtds, i, tables, classes, old(classNames.names))
      {
        match mtds[i]
        case Detected(id, bbox, classId, confidence) =>
          nodes, index := Append(nodes, index, id, Detection(bbox, classId, confidence));
        case Classed(id, cls) =>
          if id !in tables.Values {
            nodes, index := Append(nodes, index, id, Classification(cls));
          }
        case Tracked(id, objectId) =>
          nodes, index := Append(nodes, index, id, Tracking(objectId));
        case Segmented(id, bbox, masks) =>
          var labels := if id in tables then At(classes, tables[id]) else [];
          nodes, index := BuildRegions(nodes, index, id, bbox, masks, labels);
      }
    }

    method BuildRegions(nodes0: seq<Node>, index0: map<nat, seq<nat>>, id: nat, bbox: BBox, masks: seq<Mask>, labels: seq<Class>)
      returns (nodes: seq<Node>, index: map<nat, seq<nat>>)
      requires classNames.Valid()
      modifies classNames
      ensures classNames.Valid()
      ensures Built(nodes, index, classNames.names)
           == AddRegions(Built(nodes0, index0, old(classNames.names)), id, bbox, masks, |masks|, labels)
    {
      nodes, index := nodes0, index0;
      for region := 0 to |masks|
        invariant classNames.Valid()
        invariant Built(nodes, index, classNames.names)
               == AddRegions(Built(nodes0, index0, old(classNames.names)), id, bbox, masks, region, labels)
      {
        var cls;
        if region < |labels| {
          cls := labels[region];
        } else {
          var classId := classNames.Intern(UNLABELLED);
          cls := Class(classId, UNDEFINED_CONFIDENCE);
        }
        nodes, index := Append(nodes, index, id, Segmentation(bbox, cls.classId, cls.confidence, masks[region]));
      }
    }
  }

  method Append(nodes0: seq<Node>, index0: map<nat, seq<nat>>, id: nat, node: Node)
    returns (nodes: seq<Node>, index: map<nat, seq<nat>>)
    ensures nodes == nodes0 + [node] && index == index0[id := At(index0, id) + [|nodes0|]]
  {
    nodes := nodes0 + [node];
    index := index0[id := At(index0, id) + [|nodes0|]];
  }

  method ReadSamples(image: seq<u8>, rows: nat, stride: nat, rowBytes: nat, sampleBytes: nat) returns (r: Option<seq<nat>>)
    requires sampleBytes == 1 || sampleBytes == 2
    ensures r == Samples(image, rows, stride, rowBytes, sampleBytes)
  {
    var samples: seq<nat> := [];
    for row := 0 to rows
      invariant Samples(image, row, stride, rowBytes, sampleBytes) == Some(samples)
    {
      var start := row * stride;
      SamplesNext(image, row, start, stride, rowBytes, sampleBytes);
      if start + rowBytes > |image| {
        SamplesStayLost(image, row + 1, rows, stride, rowBytes, sampleBytes);
        return None;
      }
      samples := samples + RowSamples(image[start..start + rowBytes], sampleBytes);
    }
    r := Some(samples);
  }

  lemma SamplesNext(image: seq<u8>, row: nat, start: nat, stride: nat, rowBytes: nat, sampleBytes: nat)
    requires (sampleBytes == 1 || sampleBytes == 2) && start == row * stride
    requires Samples(image, row, stride, rowBytes, sampleBytes).Some?
    ensures Samples(image, row + 1, stride, rowBytes, sampleBytes)
         == if start + rowBytes <= |image|
            then Some(Samples(image, row, stride, rowBytes, sampleBytes).value
                      + RowSamples(image[start..start + rowBytes], sampleBytes))
            else None
  {
  }

  lemma {:induction false} SamplesStayLost(image: seq<u8>, m: nat, n: nat, stride: nat, rowBytes: nat, sampleBytes: nat)
    requires (sampleBytes == 1 || sampleBytes == 2) && m <= n
    requires Samples(image, m, stride, rowBytes, sampleBytes) == None
    ensures Samples(image, n, stride, rowBytes, sampleBytes) == None
    decreases n - m
  {
    if m < n {
      SamplesStayLost(image, m + 1, n, stride, rowBytes, sampleBytes);
    }
  }

  method WireAll(rs: seq<Record>, kinds: map<nat, int>, index: map<nat, seq<nat>>) returns (out: seq<Relation>)
    ensures out == Wire(rs, |rs|, kinds, index)
  {
    out := [];
    for i := 0 to |rs|
      invariant out == Wire(rs, i, kinds, index) && |out| <= MAX_RELATIONS
    {
      var kind := RelationOf(rs[i], kinds);
      if kind.Some? && rs[i].from in index && rs[i].to in index {
        out := WirePairs(out, index[rs[i].from], index[rs[i].to], kind.value);
      }
    }
  }

  method WirePairs(out0: seq<Relation>, from: seq<nat>, to: seq<nat>, kind: RelationKind) returns (out: seq<Relation>)
    requires |out0| <= MAX_RELATIONS
    ensures out == Capped(out0 + Pairs(from, |from|, to, kind))
  {
    out := out0;
    for i := 0 to |from|
      invariant out == Capped(out0 + Pairs(from, i, to, kind))
    {
      ghost var before := out0 + Pairs(from, i, to, kind);
      for j := 0 to |to|
        invariant out == Capped(before + PairRow(from[i], to, j, kind))
      {
        PushPair(out, before, from[i], to, j, kind);
        if |out| < MAX_RELATIONS {
          out := out + [Relation(from[i], to[j], kind)];
        }
      }
      PairsStep(out0, from, i, to, kind);
    }
  }
}
