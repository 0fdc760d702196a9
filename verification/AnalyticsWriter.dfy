/** Flattening an analytics graph into records. */
module AnalyticsWriter {
  import opened Options
  import opened Sequences
  import opened Integers
  import opened Strings
  import opened AnalyticsGraph

  const I32_MAX: int := 0x7FFF_FFFF
  const I32_MIN: int := -0x8000_0000

  // ----- boxes -----

  /** To the nearest integer, halves away from zero. */
  function Round(r: real): int {
    if r >= 0.0 then (r + 0.5).Floor else -((-r + 0.5).Floor)
  }

  /** `as i32`. */
  function ToI32(n: int): int {
    if n < I32_MIN then I32_MIN else if n > I32_MAX then I32_MAX else n
  }

  function Pixels(v: real, size: nat): int {
    ToI32(Round(v * size as real))
  }

  // ----- names -----

  /** The class name, or the label in decimal, which also replaces a name that no C string
      can hold. */
  function LabelText(names: Option<seq<string>>, classId: nat): string {
    match ClassName(names, classId)
    case Some(name) => if '\0' in name then Decimal(classId) else name
    case None => Decimal(classId)
  }

  /** Null for the empty name. */
  function Label(names: Option<seq<string>>, classId: nat): Option<string> {
    if LabelText(names, classId) == UNLABELLED then None else Some(LabelText(names, classId))
  }

  // ----- masks -----

  function Region(m: Mask, x: nat, y: nat): u8 {
    match Sample(m, x, y)
    case Some(coverage) => if coverage >= COVERED_THRESHOLD then REGION_ID else 0
    case None => 0
  }

  function ImageRow(m: Mask, y: nat): (r: seq<u8>)
    ensures |r| == m.width
  {
    seq(m.width, x requires 0 <= x < m.width => Region(m, x, y))
  }

  /** The region image of the first `rows` rows, packed. */
  function Image(m: Mask, rows: nat): seq<u8> {
    if rows == 0 then [] else Image(m, rows - 1) + ImageRow(m, rows - 1)
  }

  // ----- records of a node -----

  function Id(n: nat): nat {
    n % 0x1_0000_0000
  }

  function ClassMtd(names: Option<seq<string>>, c: Class, id: nat): Mtd {
    DEFAULT_MTD.(kind := MTD_CLASSIFICATION, id := Id(id), confidence := c.confidence, name := Label(names, c.classId))
  }

  function DetectionMtd(names: Option<seq<string>>, n: Node, id: nat, width: u32, height: u32): Mtd
    requires n.Detection?
  {
    DEFAULT_MTD.(kind := MTD_DETECTION, id := Id(id),
                 x := Pixels(n.bbox.x, width), y := Pixels(n.bbox.y, height),
                 w := Pixels(n.bbox.w, width), h := Pixels(n.bbox.h, height),
                 confidence := n.confidence, name := Label(names, n.classId))
  }

  function SegmentationMtd(n: Node, id: nat, width: u32, height: u32): Mtd
    requires n.Segmentation?
  {
    DEFAULT_MTD.(kind := MTD_SEGMENTATION, id := Id(id),
                 x := Pixels(n.bbox.x, width), y := Pixels(n.bbox.y, height),
                 w := Pixels(n.bbox.w, width), h := Pixels(n.bbox.h, height),
                 image := Some(Image(n.mask, n.mask.height)), maskWidth := n.mask.width, maskHeight := n.mask.height,
                 maskStride := n.mask.width, sampleBytes := 1, regions := Some([REGION_ID]))
  }

  function TrackingMtd(n: Node, id: nat): Mtd
    requires n.Tracking?
  {
    DEFAULT_MTD.(kind := MTD_TRACKING, id := Id(id), trackingId := n.objectId)
  }

  /** Whether the node gets a record: the kind has one, and a mask is not empty and not too
      wide for a signed stride. */
  predicate Kept(n: Node) {
    match n
    case Unmapped => false
    case Segmentation(_, _, _, mask) => mask.width > 0 && mask.height > 0 && mask.width <= I32_MAX
    case _ => true
  }

  /** A node's records, of which the first has number `id`. A mask is followed by the
      classification that labels its one region. */
  function Emit(names: Option<seq<string>>, n: Node, id: nat, width: u32, height: u32): seq<Mtd> {
    if !Kept(n) then []
    else
      match n
      case Detection(_, _, _) => [DetectionMtd(names, n, id, width, height)]
      case Classification(c) => [ClassMtd(names, c, id)]
      case Tracking(_) => [TrackingMtd(n, id)]
      case Segmentation(_, c, f, _) =>
        [SegmentationMtd(n, id, width, height), ClassMtd(names, Class(c, f), id + 1)]
      case Unmapped => []
  }

  function EmitRecords(n: Node, id: nat): seq<Record> {
    if Kept(n) && n.Segmentation? then [Record(Id(id), Id(id + 1), REL_N_TO_N)] else []
  }

  /** The records of the first `n` nodes. */
  function Mtds(g: Meta, n: nat, width: u32, height: u32): seq<Mtd>
    requires n <= |g.nodes|
  {
    if n == 0 then []
    else
      var before := Mtds(g, n - 1, width, height);
      before + Emit(g.names, g.nodes[n - 1], |before|, width, height)
  }

  /** How many records the nodes before `i` take, and so the number of node `i`'s record. */
  function Base(g: Meta, i: nat): nat
    requires i <= |g.nodes|
  {
    if i == 0 then 0
    else Base(g, i - 1) + (if !Kept(g.nodes[i - 1]) then 0 else if g.nodes[i - 1].Segmentation? then 2 else 1)
  }

  lemma {:induction false} BaseCounts(g: Meta, n: nat, width: u32, height: u32)
    requires n <= |g.nodes|
    ensures |Mtds(g, n, width, height)| == Base(g, n)
  {
    if n > 0 {
      BaseCounts(g, n - 1, width, height);
    }
  }

  /** Which classification labels which mask. */
  function TableRecords(g: Meta, n: nat): seq<Record>
    requires n <= |g.nodes|
  {
    if n == 0 then [] else TableRecords(g, n - 1) + EmitRecords(g.nodes[n - 1], Base(g, n - 1))
  }

  predicate HasRecord(g: Meta, node: nat) {
    node < |g.nodes| && Kept(g.nodes[node])
  }

  /** The number of the record that stands for a node. */
  function MtdOf(g: Meta, node: nat): Option<nat> {
    if HasRecord(g, node) then Some(Id(Base(g, node))) else None
  }

  function RelationRecords(g: Meta, r: Relation): seq<Record> {
    match (MtdOf(g, r.from), MtdOf(g, r.to))
    case (Some(from), Some(to)) =>
      if r.kind.Tracks? then [Record(from, to, REL_RELATE_TO)]
      else [Record(from, to, REL_CONTAIN), Record(to, from, REL_IS_PART_OF)]
    case _ => []
  }

  /** The records of the first `n` relations. */
  function GraphRecords(g: Meta, n: nat): seq<Record>
    requires n <= |g.relations|
  {
    if n == 0 then [] else GraphRecords(g, n - 1) + RelationRecords(g, g.relations[n - 1])
  }

  lemma NextRecords(g: Meta, k: nat, tables: seq<Record>)
    requires k < |g.relations|
    ensures tables + GraphRecords(g, k + 1) == (tables + GraphRecords(g, k)) + RelationRecords(g, g.relations[k])
  {
    Regroup(tables, GraphRecords(g, k), RelationRecords(g, g.relations[k]));
  }

  // ----- the writer -----

  class Writer {
    var mtds: seq<Mtd>
    var relations: seq<Record>

    constructor ()
      ensures mtds == [] && relations == []
    {
      mtds, relations := [], [];
    }

    /** Forgets the previous graph and writes this one. */
    method Plan(meta: Option<Meta>, width: u32, height: u32)
      modifies this
      ensures meta.None? ==> mtds == [] && relations == []
      ensures meta.Some? ==>
                mtds == Mtds(meta.value, |meta.value.nodes|, width, height)
                && relations == TableRecords(meta.value, |meta.value.nodes|) + GraphRecords(meta.value, |meta.value.relations|)
    {
      mtds, relations := [], [];
      if meta.Some? {
        Fill(meta.value, width, height);
      }
    }

    method Fill(g: Meta, width: u32, height: u32)
      requires mtds == [] && relations == []
      modifies this
      ensures mtds == Mtds(g, |g.nodes|, width, height)
      ensures relations == TableRecords(g, |g.nodes|) + GraphRecords(g, |g.relations|)
    {
      var mtdOfNode := FillNodes(g, width, height);
      ghost var tables := relations;
      for k := 0 to |g.relations|
        invariant mtds == Mtds(g, |g.nodes|, width, height)
        invariant relations == tables + GraphRecords(g, k)
      {
        var r := g.relations[k];
        var from := if r.from < |mtdOfNode| then mtdOfNode[r.from] else None;
        var to := if r.to < |mtdOfNode| then mtdOfNode[r.to] else None;
        NextRecords(g, k, tables);
        AddRelation(g, r, from, to);
      }
    }

    method FillNodes(g: Meta, width: u32, height: u32) returns (mtdOfNode: seq<Option<nat>>)
      requires mtds == [] && relations == []
      modifies this
      ensures mtds == Mtds(g, |g.nodes|, width, height) && relations == TableRecords(g, |g.nodes|)
      ensures |mtdOfNode| == |g.nodes| && forall j :: 0 <= j < |mtdOfNode| ==> mtdOfNode[j] == MtdOf(g, j)
    {
      mtdOfNode := [];
      for i := 0 to |g.nodes|
        invariant mtds == Mtds(g, i, width, height) && relations == TableRecords(g, i)
        invariant |mtdOfNode| == i && forall j :: 0 <= j < i ==> mtdOfNode[j] == MtdOf(g, j)
      {
        BaseCounts(g, i, width, height);
        var mtd := AddNode(g, g.nodes[i], width, height);
        mtdOfNode := mtdOfNode + [mtd];
      }
    }

    method AddRelation(g: Meta, r: Relation, from: Option<nat>, to: Option<nat>)
      requires from == MtdOf(g, r.from) && to == MtdOf(g, r.to)
      modifies this`relations
      ensures relations == old(relations) + RelationRecords(g, r)
    {
      if from.Some? && to.Some? {
        if r.kind.Tracks? {
          Relate(from.value, to.value, REL_RELATE_TO);
        } else {
          Relate(from.value, to.value, REL_CONTAIN);
          Relate(to.value, from.value, REL_IS_PART_OF);
        }
      }
    }

    /** The node's records, and the number of the one that stands for it. */
    method AddNode(g: Meta, n: Node, width: u32, height: u32) returns (mtd: Option<nat>)
      modifies this
      ensures mtds == old(mtds) + Emit(g.names, n, |old(mtds)|, width, height)
      ensures relations == old(relations) + EmitRecords(n, |old(mtds)|)
      ensures mtd == if Kept(n) then Some(Id(|old(mtds)|)) else None
    {
      match n
      case Detection(_, _, _) =>
        var id := Add(DetectionMtd(g.names, n, 0, width, height));
        mtd := Some(id);
      case Classification(c) =>
        var id := AddClass(g, c);
        mtd := Some(id);
      case Tracking(_) =>
        var id := Add(TrackingMtd(n, 0));
        mtd := Some(id);
      case Segmentation(_, _, _, _) =>
        mtd := AddSegmentation(g, n, width, height);
      case Unmapped =>
        mtd := None;
    }

    method Add(m: Mtd) returns (id: nat)
      modifies this`mtds
      ensures id == Id(|old(mtds)|) && mtds == old(mtds) + [m.(id := id)]
    {
      id := Id(|mtds|);
      mtds := mtds + [m.(id := id)];
    }

    method AddClass(g: Meta, c: Class) returns (id: nat)
      modifies this`mtds
      ensures id == Id(|old(mtds)|) && mtds == old(mtds) + [ClassMtd(g.names, c, |old(mtds)|)]
    {
      id := Add(ClassMtd(g.names, c, 0));
    }

    method AddSegmentation(g: Meta, n: Node, width: u32, height: u32) returns (mtd: Option<nat>)
      requires n.Segmentation?
      modifies this
      ensures mtds == old(mtds) + Emit(g.names, n, |old(mtds)|, width, height)
      ensures relations == old(relations) + EmitRecords(n, |old(mtds)|)
      ensures mtd == if Kept(n) then Some(Id(|old(mtds)|)) else None
    {
      var image := RegionImage(n.mask);
      ImageSize(n.mask, n.mask.height);
      if image == [] || n.mask.width > I32_MAX {
        return None;
      }
      var segmentation := Add(SegmentationMtd(n, 0, width, height));
      var cls := AddClass(g, Class(n.classId, n.confidence));
      Relate(segmentation, cls, REL_N_TO_N);
      mtd := Some(segmentation);
    }

    method Relate(from: nat, to: nat, kind: nat)
      modifies this`relations
      ensures relations == old(relations) + [Record(from, to, kind)]
    {
      relations := relations + [Record(from, to, kind)];
    }
  }

  /** Row by row, column by column. */
  method RegionImage(m: Mask) returns (image: seq<u8>)
    ensures image == Image(m, m.height)
  {
    image := [];
    for y := 0 to m.height
      invariant image == Image(m, y)
    {
      ghost var rows := image;
      for x := 0 to m.width
        invariant image == rows + ImageRow(m, y)[..x]
      {
        image := image + [Region(m, x, y)];
        assert ImageRow(m, y)[..x] + [Region(m, x, y)] == ImageRow(m, y)[..x + 1];
      }
      assert ImageRow(m, y)[..m.width] == ImageRow(m, y);
    }
  }

  lemma {:induction false} ImageSize(m: Mask, rows: nat)
    ensures |Image(m, rows)| == rows * m.width
    ensures Image(m, rows) == [] <==> rows == 0 || m.width == 0
  {
    if rows > 0 {
      ImageSize(m, rows - 1);
      assert rows * m.width == (rows - 1) * m.width + m.width;
    }
  }

  /** The packed image holds row `y` at offset `y * width`. */
  lemma {:induction false} ImageAt(m: Mask, rows: nat, x: nat, y: nat)
    requires x < m.width && y < rows
    ensures y * m.width + x < |Image(m, rows)|
    ensures Image(m, rows)[y * m.width + x] == Region(m, x, y)
  {
    ImageSize(m, rows);
    ImageSize(m, rows - 1);
    if y < rows - 1 {
      ImageAt(m, rows - 1, x, y);
    }
  }
}
