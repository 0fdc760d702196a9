/** Whatever records a stream carries, in whatever order, the graph rebuilt from them is sound
    and within the reader's budgets. */
module AnalyticsBounds {
  import opened Integers
  import opened AnalyticsGraph
  import opened AnalyticsReader

  // ----- any stream -----

  /** A record or a relation, as a stream carries them. */
  datatype Event = Seen(m: Mtd) | Related(r: Record)

  function Receive(events: seq<Event>, n: nat, width: u32, height: u32): (s: State)
    requires n <= |events|
    ensures Bounded(s)
  {
    if n == 0 then EMPTY
    else
      var before := Receive(events, n - 1, width, height);
      match events[n - 1]
      case Seen(m) => ReadStaysBounded(before, m, width, height); ReadStep(before, m, width, height)
      case Related(r) => RelateStep(before, r)
  }

  // ----- what is counted -----

  function NodesOf(m: ReadMtd): nat {
    if m.Segmented? then |m.masks| else 1
  }

  function MaskBytes(masks: seq<Mask>, n: nat): nat
    requires n <= |masks|
  {
    if n == 0 then 0 else MaskBytes(masks, n - 1) + |masks[n - 1].data|
  }

  function BytesOf(m: ReadMtd): nat {
    if m.Segmented? then MaskBytes(m.masks, |m.masks|) else 0
  }

  function TotalNodes(mtds: seq<ReadMtd>, n: nat): nat
    requires n <= |mtds|
  {
    if n == 0 then 0 else TotalNodes(mtds, n - 1) + NodesOf(mtds[n - 1])
  }

  function TotalBytes(mtds: seq<ReadMtd>, n: nat): nat
    requires n <= |mtds|
  {
    if n == 0 then 0 else TotalBytes(mtds, n - 1) + BytesOf(mtds[n - 1])
  }

  predicate Distinct(names: seq<string>) {
    forall i, j :: 0 <= i < j < |names| ==> names[i] != names[j]
  }

  ghost predicate AllValid(masks: seq<Mask>) {
    forall i :: 0 <= i < |masks| ==> ValidMask(masks[i])
  }

  /** A record's class has a name, and its masks are whole. */
  ghost predicate SoundMtd(m: ReadMtd, names: nat) {
    match m
    case Detected(_, _, classId, _) => classId < names
    case Classed(_, cls) => cls.classId < names
    case Tracked(_, _) => true
    case Segmented(_, _, masks) => AllValid(masks)
  }

  ghost predicate SoundMtds(mtds: seq<ReadMtd>, names: nat) {
    forall i :: 0 <= i < |mtds| ==> SoundMtd(mtds[i], names)
  }

  /** The counters are what was kept, so the budgets bound it. */
  ghost predicate Honest(s: State) {
    && s.nodeCount == TotalNodes(s.mtds, |s.mtds|) && s.maskBytes == TotalBytes(s.mtds, |s.mtds|)
    && SoundMtds(s.mtds, |s.names|) && Distinct(s.names)
  }

  // ----- one record -----

  lemma {:induction false} TotalsOfPrefix(mtds: seq<ReadMtd>, m: ReadMtd, n: nat)
    requires n <= |mtds|
    ensures TotalNodes(mtds + [m], n) == TotalNodes(mtds, n) && TotalBytes(mtds + [m], n) == TotalBytes(mtds, n)
  {
    if n > 0 {
      TotalsOfPrefix(mtds, m, n - 1);
    }
  }

  lemma InternedIsDistinct(names: seq<string>, name: string)
    requires Distinct(names)
    ensures Distinct(Interned(names, name).0)
  {
  }

  /** One more record, counted. */
  lemma OneMore(s: State, m: ReadMtd, names: seq<string>, after: State)
    requires Honest(s) && Distinct(names) && |s.names| <= |names| && SoundMtd(m, |names|)
    requires after.mtds == s.mtds + [m] && after.names == names
    requires after.nodeCount == s.nodeCount + NodesOf(m) && after.maskBytes == s.maskBytes + BytesOf(m)
    ensures Honest(after)
  {
    TotalsOfPrefix(s.mtds, m, |s.mtds|);
    forall i | 0 <= i < |after.mtds| ensures SoundMtd(after.mtds[i], |names|) {
      if i < |s.mtds| {
        assert SoundMtd(s.mtds[i], |s.names|);
      }
    }
  }

  lemma {:induction false} RegionMasksAre(samples: seq<nat>, regions: seq<nat>, width: u32, height: u32, size: nat, cost: nat)
    requires AllMasks(samples, regions, width, height).Some? && size == |samples| && cost == size * |regions|
    ensures
      var masks := AllMasks(samples, regions, width, height).value;
      |masks| == |regions| && AllValid(masks) && forall i :: 0 <= i < |masks| ==> |masks[i].data| == size
  {
    if regions != [] {
      RegionMasksAre(samples, regions[1..], width, height, size, size * |regions[1..]|);
    }
  }

  lemma {:induction false} EqualMasks(masks: seq<Mask>, size: nat, n: nat)
    requires n <= |masks| && forall i :: 0 <= i < |masks| ==> |masks[i].data| == size
    ensures MaskBytes(masks, n) == size * n
  {
    if n > 0 {
      EqualMasks(masks, size, n - 1);
      OneRowMore(size, n);
    }
  }

  lemma OneRowMore(size: nat, n: nat)
    requires n > 0
    ensures size * (n - 1) + size == size * n
  {
  }

  /** What a region image is charged is what its masks hold. */
  lemma ChargeIsExact(nodeCount: nat, maskBytes: nat, m: Mtd)
    requires nodeCount <= MAX_NODES && maskBytes <= MAX_MASK_BYTES && RegionMasks(nodeCount, maskBytes, m).Some?
    ensures
      var r := RegionMasks(nodeCount, maskBytes, m).value;
      r.cost == MaskBytes(r.masks, |r.masks|) && AllValid(r.masks)
  {
    var regions, size := m.regions.value, m.maskWidth * m.maskHeight;
    var samples := Samples(m.image.value, m.maskHeight, m.maskStride, m.maskWidth * m.sampleBytes, m.sampleBytes).value;
    SamplesSize(m.image.value, m.maskHeight, m.maskStride, m.maskWidth, m.sampleBytes);
    RegionMasksAre(samples, regions, m.maskWidth, m.maskHeight, size, size * |regions|);
    EqualMasks(AllMasks(samples, regions, m.maskWidth, m.maskHeight).value, size, |regions|);
  }

  /** Every record read is counted for exactly what it leaves behind. */
  lemma ReadStaysHonest(s: State, m: Mtd, width: u32, height: u32)
    requires Bounded(s) && Honest(s)
    ensures Honest(ReadStep(s, m, width, height))
  {
    var after := ReadStep(s, m, width, height);
    if after != s {
      if m.kind == MTD_SEGMENTATION {
        ChargeIsExact(s.nodeCount, s.maskBytes, m);
      } else if m.kind != MTD_TRACKING {
        InternedIsDistinct(s.names, NameOf(m.name));
      }
      OneMore(s, after.mtds[|s.mtds|], after.names, after);
    }
  }

  lemma {:induction false} StreamStaysHonest(events: seq<Event>, n: nat, width: u32, height: u32)
    requires n <= |events|
    ensures Honest(Receive(events, n, width, height))
  {
    if n > 0 {
      StreamStaysHonest(events, n - 1, width, height);
      if events[n - 1].Seen? {
        ReadStaysHonest(Receive(events, n - 1, width, height), events[n - 1].m, width, height);
      }
    }
  }

  // ----- the graph -----

  function NodeBytes(nodes: seq<Node>): nat {
    if nodes == [] then 0
    else NodeBytes(nodes[..|nodes| - 1]) + (if nodes[|nodes| - 1].Segmentation? then |nodes[|nodes| - 1].mask.data| else 0)
  }

  ghost predicate SoundNode(n: Node, names: nat) {
    match n
    case Detection(_, classId, _) => classId < names
    case Classification(cls) => cls.classId < names
    case Tracking(_) => true
    case Segmentation(_, classId, _, mask) => classId < names && ValidMask(mask)
    case Unmapped => false
  }

  ghost predicate SoundNodes(nodes: seq<Node>, names: nat) {
    forall i :: 0 <= i < |nodes| ==> SoundNode(nodes[i], names)
  }

  ghost predicate PointsInside(numbers: seq<nat>, size: nat) {
    forall i :: 0 <= i < |numbers| ==> numbers[i] < size
  }

  ghost predicate IndexInside(index: map<nat, seq<nat>>, size: nat) {
    forall id :: id in index ==> PointsInside(index[id], size)
  }

  ghost predicate SoundLabels(labels: seq<Class>, names: nat) {
    forall i :: 0 <= i < |labels| ==> labels[i].classId < names
  }

  ghost predicate SoundTable(classes: map<nat, seq<Class>>, names: nat) {
    forall id :: id in classes ==> SoundLabels(classes[id], names)
  }

  /** At most `count` nodes holding at most `bytes` of masks, all of them sound. */
  ghost predicate SoundBuilt(b: Built, count: nat, bytes: nat) {
    && |b.nodes| <= count && NodeBytes(b.nodes) <= bytes
    && SoundNodes(b.nodes, |b.names|) && IndexInside(b.index, |b.nodes|) && Distinct(b.names)
  }

  lemma NodeAdded(b: Built, id: nat, node: Node, names: seq<string>, count: nat, bytes: nat)
    requires SoundBuilt(b, count, bytes) && Distinct(names) && |b.names| <= |names| && SoundNode(node, |names|)
    ensures SoundBuilt(AddNode(b.(names := names), id, node), count + 1,
                       bytes + if node.Segmentation? then |node.mask.data| else 0)
  {
    var nodes := b.nodes + [node];
    assert nodes[..|nodes| - 1] == b.nodes;
    forall i | 0 <= i < |nodes| ensures SoundNode(nodes[i], |names|) {
      if i < |b.nodes| {
        assert SoundNode(b.nodes[i], |b.names|);
      }
    }
    forall other | other in b.index ensures PointsInside(b.index[other], |nodes|) {
      assert PointsInside(b.index[other], |b.nodes|);
    }
    assert PointsInside(At(b.index, id) + [|b.nodes|], |nodes|);
  }

  lemma {:induction false} RegionsAreSound(b: Built, id: nat, bbox: BBox, masks: seq<Mask>, n: nat, labels: seq<Class>,
                                           count: nat, bytes: nat)
    requires n <= |masks| && AllValid(masks) && SoundBuilt(b, count, bytes) && SoundLabels(labels, |b.names|)
    ensures
      var r := AddRegions(b, id, bbox, masks, n, labels);
      SoundBuilt(r, count + n, bytes + MaskBytes(masks, n)) && |b.names| <= |r.names|
  {
    if n > 0 {
      RegionsAreSound(b, id, bbox, masks, n - 1, labels, count, bytes);
      RegionIsSound(AddRegions(b, id, bbox, masks, n - 1, labels), id, bbox, masks[n - 1], labels, n - 1,
                    count + (n - 1), bytes + MaskBytes(masks, n - 1), |b.names|);
    }
  }

  lemma RegionIsSound(b: Built, id: nat, bbox: BBox, mask: Mask, labels: seq<Class>, region: nat, count: nat, bytes: nat, named: nat)
    requires ValidMask(mask) && SoundBuilt(b, count, bytes) && SoundLabels(labels, named) && named <= |b.names|
    ensures
      var r := AddRegion(b, id, bbox, mask, labels, region);
      SoundBuilt(r, count + 1, bytes + |mask.data|) && |b.names| <= |r.names|
  {
    var r := AddRegion(b, id, bbox, mask, labels, region);
    InternedIsDistinct(b.names, UNLABELLED);
    NodeAdded(b, id, r.nodes[|b.nodes|], r.names, count, bytes);
  }

  lemma {:induction false} ClassesAreSound(mtds: seq<ReadMtd>, n: nat, names: nat)
    requires n <= |mtds| && SoundMtds(mtds, names)
    ensures SoundTable(Classes(mtds, n), names)
  {
    if n > 0 {
      ClassesAreSound(mtds, n - 1, names);
      var before, m := Classes(mtds, n - 1), mtds[n - 1];
      assert SoundMtd(m, names);
      if m.Classed? {
        assert SoundLabels(At(before, m.id) + [m.cls], names);
      }
    }
  }

  lemma LabelsAreSound(classes: map<nat, seq<Class>>, id: nat, names: nat)
    requires SoundTable(classes, names)
    ensures SoundLabels(At(classes, id), names)
  {
  }

  lemma StepIsSound(b: Built, m: ReadMtd, tables: map<nat, nat>, classes: map<nat, seq<Class>>, named: nat, count: nat, bytes: nat)
    requires SoundBuilt(b, count, bytes) && SoundMtd(m, named) && SoundTable(classes, named) && named <= |b.names|
    ensures
      var r := BuildStep(b, m, tables, classes);
      SoundBuilt(r, count + NodesOf(m), bytes + BytesOf(m)) && |b.names| <= |r.names|
  {
    assert b.(names := b.names) == b;
    match m
    case Detected(id, bbox, classId, confidence) => NodeAdded(b, id, Detection(bbox, classId, confidence), b.names, count, bytes);
    case Classed(id, cls) => NodeAdded(b, id, Classification(cls), b.names, count, bytes);
    case Tracked(id, objectId) => NodeAdded(b, id, Tracking(objectId), b.names, count, bytes);
    case Segmented(id, bbox, masks) =>
      var labels := if id in tables then At(classes, tables[id]) else [];
      if id in tables {
        LabelsAreSound(classes, tables[id], named);
      }
      RegionsAreSound(b, id, bbox, masks, |masks|, labels, count, bytes);
  }

  lemma {:induction false} BuildIsSound(mtds: seq<ReadMtd>, n: nat, tables: map<nat, nat>, classes: map<nat, seq<Class>>,
                                        names: seq<string>)
    requires n <= |mtds| && SoundMtds(mtds, |names|) && SoundTable(classes, |names|) && Distinct(names)
    ensures
      var b := Build(mtds, n, tables, classes, names);
      SoundBuilt(b, TotalNodes(mtds, n), TotalBytes(mtds, n)) && |names| <= |b.names|
  {
    if n > 0 {
      BuildIsSound(mtds, n - 1, tables, classes, names);
      StepIsSound(Build(mtds, n - 1, tables, classes, names), mtds[n - 1], tables, classes, |names|,
                  TotalNodes(mtds, n - 1), TotalBytes(mtds, n - 1));
    }
  }

  // ----- the relations -----

  ghost predicate Joins(rs: seq<Relation>, size: nat) {
    forall i :: 0 <= i < |rs| ==> rs[i].from < size && rs[i].to < size
  }

  lemma {:induction false} RowJoins(from: nat, to: seq<nat>, n: nat, kind: RelationKind, size: nat)
    requires n <= |to| && from < size && PointsInside(to, size)
    ensures Joins(PairRow(from, to, n, kind), size)
  {
    if n > 0 {
      RowJoins(from, to, n - 1, kind, size);
    }
  }

  lemma {:induction false} PairsJoin(from: seq<nat>, n: nat, to: seq<nat>, kind: RelationKind, size: nat)
    requires n <= |from| && PointsInside(from, size) && PointsInside(to, size)
    ensures Joins(Pairs(from, n, to, kind), size)
  {
    if n > 0 {
      PairsJoin(from, n - 1, to, kind, size);
      RowJoins(from[n - 1], to, |to|, kind, size);
    }
  }

  lemma {:induction false} WiresJoin(rs: seq<Record>, n: nat, kinds: map<nat, int>, index: map<nat, seq<nat>>, size: nat)
    requires n <= |rs| && IndexInside(index, size)
    ensures Joins(Wire(rs, n, kinds, index), size) && |Wire(rs, n, kinds, index)| <= MAX_RELATIONS
  {
    if n > 0 {
      WiresJoin(rs, n - 1, kinds, index, size);
      var r := rs[n - 1];
      if RelationOf(r, kinds).Some? && r.from in index && r.to in index {
        PairsJoin(index[r.from], |index[r.from]|, index[r.to], RelationOf(r, kinds).value, size);
      }
    }
  }

  // ----- any stream, whole -----

  /** A graph that its readers can trust: between 1 and 4096 nodes, at most 16384 relations, each
      between two of the nodes, at most 64 MiB of whole masks, and a name for every class, each
      name once. */
  ghost predicate SoundGraph(g: Meta) {
    && 0 < |g.nodes| <= 4096 && NodeBytes(g.nodes) <= 0x400_0000
    && |g.relations| <= 16384 && Joins(g.relations, |g.nodes|)
    && g.names.Some? && Distinct(g.names.value) && SoundNodes(g.nodes, |g.names.value|)
  }

  /** Whatever records and relations arrive, well formed or not, the graph made of them is sound. */
  lemma AnyStreamIsSound(events: seq<Event>, width: u32, height: u32)
    ensures
      var meta := Finished(Receive(events, |events|, width, height));
      meta.Some? ==> SoundGraph(meta.value)
  {
    var s := Receive(events, |events|, width, height);
    StreamStaysHonest(events, |events|, width, height);
    var kinds := Kinds(s.mtds, |s.mtds|);
    ClassesAreSound(s.mtds, |s.mtds|, |s.names|);
    BuildIsSound(s.mtds, |s.mtds|, Tables(s.relations, |s.relations|, kinds), Classes(s.mtds, |s.mtds|), s.names);
    WiresJoin(s.relations, |s.relations|, kinds, BuildAll(s).index, |BuildAll(s).nodes|);
  }
}
