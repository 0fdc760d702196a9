/** The analytics graph of a frame, the flat records it travels as, and the table of class
    names. */
module AnalyticsGraph {
  import opened Options
  import opened Integers

  // ----- the graph -----

  /** Relative to the frame. */
  datatype BBox = BBox(x: real, y: real, w: real, h: real)

  datatype Class = Class(classId: nat, confidence: real)

  /** Rows of `stride` coverage samples. */
  datatype Mask = Mask(width: u32, height: u32, stride: nat, data: seq<u8>)

  function NewMask(width: u32, height: u32, stride: nat, data: seq<u8>): Option<Mask> {
    if stride < width || stride * height > |data| then None else Some(Mask(width, height, stride, data))
  }

  /** What `NewMask` lets through. */
  predicate ValidMask(m: Mask) {
    m.width <= m.stride && m.stride * m.height <= |m.data|
  }

  function Sample(m: Mask, x: nat, y: nat): Option<u8> {
    if x >= m.width || y >= m.height then None
    else if y * m.stride + x < |m.data| then Some(m.data[y * m.stride + x]) else None
  }

  /** `Unmapped` stands for the node kinds that have no record: regions of interest, poses
      and oriented detections. */
  datatype Node =
    | Detection(bbox: BBox, classId: nat, confidence: real)
    | Classification(cls: Class)
    | Tracking(objectId: nat)
    | Segmentation(bbox: BBox, classId: nat, confidence: real, mask: Mask)
    | Unmapped

  datatype RelationKind = Classifies | Tracks | Contains
  datatype Relation = Relation(from: nat, to: nat, kind: RelationKind)

  datatype Meta = Meta(nodes: seq<Node>, relations: seq<Relation>, names: Option<seq<string>>)

  function ClassName(names: Option<seq<string>>, classId: nat): Option<string> {
    if names.Some? && classId < |names.value| then Some(names.value[classId]) else None
  }

  // ----- records -----

  const MTD_DETECTION: int := 0
  const MTD_CLASSIFICATION: int := 1
  const MTD_TRACKING: int := 2
  const MTD_SEGMENTATION: int := 3

  const REL_IS_PART_OF: nat := 2
  const REL_CONTAIN: nat := 4
  const REL_RELATE_TO: nat := 8
  const REL_N_TO_N: nat := 16

  const MAX_NODES: nat := 4096
  const MAX_RELATIONS: nat := 16384
  const MAX_MASK_BYTES: nat := 0x400_0000

  const UNDEFINED_CONFIDENCE: real := -1.0
  const UNLABELLED: string := ""
  const COVERED: u8 := 255
  const COVERED_THRESHOLD: u8 := 128
  const REGION_ID: u8 := 1

  /** One record. `None` is null. */
  datatype Mtd = Mtd(kind: int, id: nat, x: int, y: int, w: int, h: int, confidence: real, name: Option<string>,
                     trackingId: nat, image: Option<seq<u8>>, maskWidth: u32, maskHeight: u32, maskStride: int,
                     sampleBytes: nat, regions: Option<seq<nat>>)

  const DEFAULT_MTD: Mtd := Mtd(MTD_DETECTION, 0, 0, 0, 0, 0, 0.0, None, 0, None, 0, 0, 0, 0, None)

  datatype Record = Record(from: nat, to: nat, kind: nat)

  // Bits 2, 3 and 4 of a record's kind.

  predicate IsContain(kind: nat) {
    kind / 4 % 2 == 1
  }

  predicate IsRelateTo(kind: nat) {
    kind / 8 % 2 == 1
  }

  predicate IsNToN(kind: nat) {
    kind / 16 % 2 == 1
  }

  // ----- class names -----

  function IndexOf(names: seq<string>, name: string): (i: nat)
    requires name in names
    ensures i < |names| && names[i] == name
  {
    if names[0] == name then 0 else 1 + IndexOf(names[1..], name)
  }

  function Interned(names: seq<string>, name: string): (r: (seq<string>, nat))
    ensures r.1 < |r.0| && r.0[r.1] == name && names <= r.0
  {
    if name in names then (names, IndexOf(names, name)) else (names + [name], |names|)
  }

  /** Each distinct name once, in the order of first use. */
  class ClassNames {
    var names: seq<string>
    var index: map<string, nat>

    ghost predicate Valid()
      reads this
    {
      && (forall i :: 0 <= i < |names| ==> names[i] in index && index[names[i]] == i)
      && (forall name :: name in index ==> index[name] < |names| && names[index[name]] == name)
    }

    constructor ()
      ensures Valid() && names == []
    {
      names, index := [], map[];
    }

    method Intern(name: string) returns (classId: nat)
      requires Valid()
      modifies this
      ensures Valid()
      ensures (names, classId) == Interned(old(names), name)
    {
      if name in index {
        assert names[index[name]] == name;
        return index[name];
      }
      classId := |names|;
      names := names + [name];
      index := index[name := classId];
    }
  }
}
