/** Where the planes and rows of a raw video frame lie: checked integer arithmetic over
    every pixel format. */
module PlaneLayout {
  import opened Options
  import opened Integers
  import opened Caps

  // ----- checked arithmetic -----

  function DivCeil(a: nat, b: nat): nat
    requires b > 0
  {
    a / b + (if a % b == 0 then 0 else 1)
  }

  function CheckedMul32(a: nat, b: nat): Option<u32> {
    if a * b <= U32_MAX then Some(a * b) else None
  }

  function CheckedMul64(a: nat, b: nat): Option<u64> {
    if a * b <= U64_MAX then Some(a * b) else None
  }

  function CheckedAdd64(a: nat, b: nat): Option<u64> {
    if a + b <= U64_MAX then Some(a + b) else None
  }

  // ----- what a format is -----

  function BitDepth(f: RawVideoFormat): nat {
    if f.I420p10? || f.I422p10? || f.I444p10? || f.P010? || f.V210? || f.R210? || f.Gbr10Le? then 10
    else if f.I420p12? || f.I422p12? || f.I444p12? || f.A444p12? then 12
    else 8
  }

  function BytesPerSample(f: RawVideoFormat): nat {
    if BitDepth(f) > 8 then 2 else 1
  }

  /** Horizontal and vertical shift from luma to chroma of a planar YUV format. */
  function ChromaShift(f: RawVideoFormat): Option<(nat, nat)> {
    if f.I420? || f.I420p10? || f.I420p12? || f.A420? then Some((1, 1))
    else if f.I422? || f.I422p10? || f.I422p12? then Some((1, 0))
    else if f.I444? || f.I444p10? || f.I444p12? || f.A444p12? then Some((0, 0))
    else None
  }

  function AlphaPlane(f: RawVideoFormat): Option<nat> {
    if f.A420? || f.A444p12? then Some(3) else None
  }

  predicate IsFullResolutionPlane(f: RawVideoFormat, plane: nat) {
    plane == 0 || f.Gbr10Le? || AlphaPlane(f) == Some(plane)
  }

  predicate IsPacked(f: RawVideoFormat) {
    f.Rgba8? || f.Bgra8? || f.Rgb8? || f.Yuyv? || f.Uyvy? || f.V210? || f.R210? || f.Gray8? || f.Bgr8? || f.Bgrx8?
    || f.Argb8?
  }

  function PlaneCount(f: RawVideoFormat): nat {
    if IsPacked(f) then 1
    else if f.Nv12? || f.P010? then 2
    else if f.A420? || f.A444p12? then 4
    else 3
  }

  function PixelStride(f: RawVideoFormat): Option<nat> {
    if f.Rgba8? || f.Bgra8? || f.R210? || f.Bgrx8? || f.Argb8? then Some(4)
    else if f.Rgb8? || f.Bgr8? then Some(3)
    else if f.Yuyv? || f.Uyvy? then Some(2)
    else if f.Gray8? then Some(1)
    else None
  }

  function Pow2(k: nat): (r: nat)
    ensures r > 0
  {
    if k == 0 then 1 else 2 * Pow2(k - 1)
  }

  // ----- strides and rows -----

  function PlaneStride(f: RawVideoFormat, plane: nat, width: u32): Option<u32> {
    if plane >= PlaneCount(f) then None
    else if f.Yuyv? || f.Uyvy? then CheckedMul32(DivCeil(width, 2), 4)
    else if f.V210? then CheckedMul32(DivCeil(width, 48), 128)
    else if PixelStride(f).Some? then CheckedMul32(width, PixelStride(f).value)
    else if IsFullResolutionPlane(f, plane) then CheckedMul32(width, BytesPerSample(f))
    else if f.Nv12? || f.P010? then
      match CheckedMul32(DivCeil(width, 2), 2)
      case Some(samples) => CheckedMul32(samples, BytesPerSample(f))
      case None => None
    else
      match ChromaShift(f)
      case Some(shift) => CheckedMul32(DivCeil(width, Pow2(shift.0)), BytesPerSample(f))
      case None => None
  }

  function PlaneRows(f: RawVideoFormat, plane: nat, height: u32): Option<u32> {
    if plane >= PlaneCount(f) then None
    else if IsFullResolutionPlane(f, plane) then Some(height)
    else if f.Nv12? || f.P010? then Some(DivCeil(height, 2))
    else
      match ChromaShift(f)
      case Some(shift) => ShiftedRows(height, shift.1); Some(DivCeil(height, Pow2(shift.1)))
      case None => None
  }

  lemma ShiftedRows(height: u32, shift: nat)
    ensures DivCeil(height, Pow2(shift)) <= height
  {
    var p := Pow2(shift);
    DivCeilBounds(height, p);
    if DivCeil(height, p) > height {
      ProductGrows(height, DivCeil(height, p) - 1, p);
      assert false;
    }
  }

  lemma ProductGrows(a: nat, b: nat, p: nat)
    requires a <= b && p >= 1
    ensures a <= b * p
  {
  }

  /** The number of blocks of `b` that hold `a`. */
  lemma DivCeilBounds(a: nat, b: nat)
    requires b > 0
    ensures a <= DivCeil(a, b) * b < a + b
  {
    var q, r := a / b, a % b;
    assert a == q * b + r;
    assert (q + 1) * b == q * b + b;
  }

  function PlaneBytes(f: RawVideoFormat, plane: nat, width: u32, height: u32): Option<u64> {
    match PlaneStride(f, plane, width)
    case Some(stride) =>
      (match PlaneRows(f, plane, height)
       case Some(rows) => CheckedMul64(stride, rows)
       case None => None)
    case None => None
  }

  // ----- the layout as a table of blocks -----

  /** A plane is a grid of blocks: how many pixels wide and high one is, and its bytes. */
  datatype Block = Block(pixels: nat, rows: nat, bytes: nat)

  function BlockOf(f: RawVideoFormat, plane: nat): (b: Block)
    ensures b.pixels > 0 && b.rows > 0
  {
    match f
    case Nv12 => if plane == 0 then Block(1, 1, 1) else Block(2, 2, 2)
    case P010 => if plane == 0 then Block(1, 1, 2) else Block(2, 2, 4)
    case I420 => if plane == 0 then Block(1, 1, 1) else Block(2, 2, 1)
    case I420p10 => if plane == 0 then Block(1, 1, 2) else Block(2, 2, 2)
    case I420p12 => if plane == 0 then Block(1, 1, 2) else Block(2, 2, 2)
    case I422 => if plane == 0 then Block(1, 1, 1) else Block(2, 1, 1)
    case I422p10 => if plane == 0 then Block(1, 1, 2) else Block(2, 1, 2)
    case I422p12 => if plane == 0 then Block(1, 1, 2) else Block(2, 1, 2)
    case A420 => if plane == 0 || plane == 3 then Block(1, 1, 1) else Block(2, 2, 1)
    case I444 => Block(1, 1, 1)
    case I444p10 => Block(1, 1, 2)
    case I444p12 => Block(1, 1, 2)
    case A444p12 => Block(1, 1, 2)
    case Gbr10Le => Block(1, 1, 2)
    case Yuyv => Block(2, 1, 4)
    case Uyvy => Block(2, 1, 4)
    case V210 => Block(48, 1, 128)
    case Rgb8 => Block(1, 1, 3)
    case Bgr8 => Block(1, 1, 3)
    case Gray8 => Block(1, 1, 1)
    case _ => Block(1, 1, 4)
  }

  function ExactStride(f: RawVideoFormat, plane: nat, width: nat): nat {
    DivCeil(width, BlockOf(f, plane).pixels) * BlockOf(f, plane).bytes
  }

  function ExactRows(f: RawVideoFormat, plane: nat, height: nat): nat {
    DivCeil(height, BlockOf(f, plane).rows)
  }

  function ExactPlane(f: RawVideoFormat, plane: nat, width: nat, height: nat): nat {
    ExactStride(f, plane, width) * ExactRows(f, plane, height)
  }

  /** The bytes of the first `n` planes. */
  function ExactBytes(f: RawVideoFormat, n: nat, width: nat, height: nat): nat {
    if n == 0 then 0 else ExactBytes(f, n - 1, width, height) + ExactPlane(f, n - 1, width, height)
  }

  function ExactFrame(f: RawVideoFormat, width: nat, height: nat): nat {
    ExactBytes(f, PlaneCount(f), width, height)
  }

  lemma DivCeilOne(a: nat)
    ensures DivCeil(a, 1) == a
  {
  }

  lemma ShiftPowers()
    ensures Pow2(0) == 1 && Pow2(1) == 2
  {
  }

  /** A stride is the table's, or none when that does not fit 32 bits. */
  lemma StrideIsExact(f: RawVideoFormat, plane: nat, width: u32)
    requires plane < PlaneCount(f)
    ensures PlaneStride(f, plane, width)
         == if ExactStride(f, plane, width) <= U32_MAX then Some(ExactStride(f, plane, width)) else None
  {
    if IsPacked(f) {
      PackedStrideIsExact(f, width);
    } else if IsFullResolutionPlane(f, plane) {
      FullStrideIsExact(f, plane, width);
    } else {
      ChromaStrideIsExact(f, plane, width);
    }
  }

  lemma FullStrideIsExact(f: RawVideoFormat, plane: nat, width: u32)
    requires plane < PlaneCount(f) && !IsPacked(f) && IsFullResolutionPlane(f, plane)
    ensures PlaneStride(f, plane, width)
         == if ExactStride(f, plane, width) <= U32_MAX then Some(ExactStride(f, plane, width)) else None
  {
    DivCeilOne(width);
  }

  lemma ChromaStrideIsExact(f: RawVideoFormat, plane: nat, width: u32)
    requires plane < PlaneCount(f) && !IsPacked(f) && !IsFullResolutionPlane(f, plane)
    ensures PlaneStride(f, plane, width)
         == if ExactStride(f, plane, width) <= U32_MAX then Some(ExactStride(f, plane, width)) else None
  {
    DivCeilOne(width);
    ShiftPowers();
  }

  lemma PackedStrideIsExact(f: RawVideoFormat, width: u32)
    requires IsPacked(f)
    ensures PlaneStride(f, 0, width)
         == if ExactStride(f, 0, width) <= U32_MAX then Some(ExactStride(f, 0, width)) else None
  {
    DivCeilOne(width);
  }

  lemma RowsAreExact(f: RawVideoFormat, plane: nat, height: u32)
    requires plane < PlaneCount(f)
    ensures PlaneRows(f, plane, height) == Some(ExactRows(f, plane, height))
    ensures ExactRows(f, plane, height) <= height
  {
    DivCeilOne(height);
    ShiftPowers();
  }

  lemma ProductMonotone(a: nat, b: nat, c: nat)
    ensures a <= b ==> a * c <= b * c
    ensures a < b ==> a * c + c <= b * c
  {
    if a < b {
      RowsOrdered(a, b, c);
    }
  }

  lemma ProductFits(a: nat, b: nat)
    requires a <= U32_MAX && b <= U32_MAX
    ensures a * b <= U64_MAX
  {
    ProductMonotone(a, U32_MAX, b);
  }

  /** A plane's size never overflows on its own: only its stride can. */
  lemma PlaneIsExact(f: RawVideoFormat, plane: nat, width: u32, height: u32)
    requires plane < PlaneCount(f)
    ensures PlaneBytes(f, plane, width, height)
         == if ExactStride(f, plane, width) <= U32_MAX then Some(ExactPlane(f, plane, width, height)) else None
  {
    StrideIsExact(f, plane, width);
    RowsAreExact(f, plane, height);
    if ExactStride(f, plane, width) <= U32_MAX {
      ProductFits(ExactStride(f, plane, width), ExactRows(f, plane, height));
    }
  }

  // ----- offsets and the frame size -----

  ghost predicate StridesFit(f: RawVideoFormat, n: nat, width: nat) {
    forall p: nat :: p < n ==> ExactStride(f, p, width) <= U32_MAX
  }

  /** The exact sum of the first `n` planes, or none when a stride or the sum overflows. */
  ghost function Total(f: RawVideoFormat, n: nat, width: nat, height: nat): Option<nat> {
    if StridesFit(f, n, width) && ExactBytes(f, n, width, height) <= U64_MAX
    then Some(ExactBytes(f, n, width, height)) else None
  }

  lemma {:induction false} TotalsGrow(f: RawVideoFormat, m: nat, n: nat, width: nat, height: nat)
    requires m <= n
    ensures ExactBytes(f, m, width, height) <= ExactBytes(f, n, width, height)
    decreases n - m
  {
    if m < n {
      TotalsGrow(f, m, n - 1, width, height);
    }
  }

  lemma StridesFitNext(f: RawVideoFormat, plane: nat, n: nat, width: nat)
    requires plane < n && StridesFit(f, plane, width)
    ensures StridesFit(f, plane + 1, width) <==> ExactStride(f, plane, width) <= U32_MAX
    ensures StridesFit(f, n, width) ==> StridesFit(f, plane + 1, width)
  {
    if StridesFit(f, n, width) {
      assert ExactStride(f, plane, width) <= U32_MAX;
    }
  }

  /** Adding one more plane's size to a sum, or finding that it cannot be added. */
  lemma SumStep(f: RawVideoFormat, plane: nat, n: nat, width: u32, height: u32, bytes: Option<u64>)
    requires plane < n <= PlaneCount(f) && StridesFit(f, plane, width)
    requires bytes == PlaneBytes(f, plane, width, height)
    ensures
      if bytes.Some? && ExactBytes(f, plane, width, height) + bytes.value <= U64_MAX
      then StridesFit(f, plane + 1, width)
           && ExactBytes(f, plane, width, height) + bytes.value == ExactBytes(f, plane + 1, width, height)
      else Total(f, n, width, height) == None
  {
    PlaneIsExact(f, plane, width, height);
    TotalsGrow(f, plane + 1, n, width, height);
    StridesFitNext(f, plane, n, width);
    BytesNext(f, plane, width, height);
  }

  lemma BytesNext(f: RawVideoFormat, plane: nat, width: nat, height: nat)
    ensures ExactBytes(f, plane + 1, width, height) == ExactBytes(f, plane, width, height) + ExactPlane(f, plane, width, height)
  {
  }

  method SumPlanes(f: RawVideoFormat, n: nat, width: u32, height: u32) returns (r: Option<u64>)
    requires n <= PlaneCount(f)
    ensures r == Total(f, n, width, height)
  {
    var total: u64 := 0;
    for plane := 0 to n
      invariant StridesFit(f, plane, width) && total == ExactBytes(f, plane, width, height)
    {
      var bytes := PlaneBytes(f, plane, width, height);
      SumStep(f, plane, n, width, height, bytes);
      if bytes.None? {
        return None;
      }
      var sum := CheckedAdd64(total, bytes.value);
      if sum.None? {
        return None;
      }
      total := sum.value;
    }
    r := Some(total);
  }

  /** Where a plane starts: right after the planes before it. */
  method PlaneOffset(f: RawVideoFormat, plane: nat, width: u32, height: u32) returns (r: Option<u64>)
    ensures r == if plane < PlaneCount(f) then Total(f, plane, width, height) else None
  {
    if plane >= PlaneCount(f) {
      return None;
    }
    r := SumPlanes(f, plane, width, height);
  }

  /** The size of a frame with no padding between rows: the exact total of its planes, and
      none exactly when some stride does not fit 32 bits or the total does not fit 64. */
  method UnpaddedFrameBytes(f: RawVideoFormat, width: u32, height: u32) returns (r: Option<u64>)
    ensures r == Total(f, PlaneCount(f), width, height)
  {
    r := SumPlanes(f, PlaneCount(f), width, height);
  }

  // ----- planes and rows tile the frame -----

  function RowStart(f: RawVideoFormat, plane: nat, row: nat, width: nat, height: nat): nat {
    ExactBytes(f, plane, width, height) + row * ExactStride(f, plane, width)
  }

  ghost predicate InRow(f: RawVideoFormat, plane: nat, row: nat, width: nat, height: nat, byte: nat) {
    && plane < PlaneCount(f) && row < ExactRows(f, plane, height)
    && RowStart(f, plane, row, width, height) <= byte
    && byte < RowStart(f, plane, row, width, height) + ExactStride(f, plane, width)
  }

  lemma RowsOrdered(row: nat, next: nat, stride: nat)
    requires row < next
    ensures row * stride + stride <= next * stride
  {
    assert (next - row - 1) * stride >= 0;
    assert next * stride == row * stride + stride + (next - row - 1) * stride;
  }

  /** A row ends inside its plane. */
  lemma RowInPlane(f: RawVideoFormat, plane: nat, row: nat, width: nat, height: nat)
    requires row < ExactRows(f, plane, height)
    ensures RowStart(f, plane, row, width, height) + ExactStride(f, plane, width) <= ExactBytes(f, plane + 1, width, height)
  {
    PlaneEnds(f, plane, width, height);
    RowsOrdered(row, ExactRows(f, plane, height), ExactStride(f, plane, width));
  }

  lemma PlaneEnds(f: RawVideoFormat, plane: nat, width: nat, height: nat)
    ensures ExactBytes(f, plane + 1, width, height)
         == ExactBytes(f, plane, width, height) + ExactRows(f, plane, height) * ExactStride(f, plane, width)
  {
    assert ExactBytes(f, plane + 1, width, height) == ExactBytes(f, plane, width, height) + ExactPlane(f, plane, width, height);
    Swap(ExactStride(f, plane, width), ExactRows(f, plane, height));
  }

  lemma Swap(a: nat, b: nat)
    ensures a * b == b * a
  {
  }

  lemma SameRow(base: nat, stride: nat, r: nat, s: nat, byte: nat)
    requires base + r * stride <= byte < base + r * stride + stride
    requires base + s * stride <= byte < base + s * stride + stride
    ensures r == s
  {
    if r < s {
      RowsOrdered(r, s, stride);
    } else if s < r {
      RowsOrdered(s, r, stride);
    }
  }

  /** A row's bytes lie in its own plane. */
  lemma ByteInPlane(f: RawVideoFormat, p: nat, r: nat, width: nat, height: nat, byte: nat)
    requires InRow(f, p, r, width, height, byte)
    ensures ExactBytes(f, p, width, height) <= byte < ExactBytes(f, p + 1, width, height)
  {
    RowInPlane(f, p, r, width, height);
    ProductMonotone(0, r, ExactStride(f, p, width));
  }

  lemma SamePlane(f: RawVideoFormat, p: nat, q: nat, width: nat, height: nat, byte: nat)
    requires ExactBytes(f, p, width, height) <= byte < ExactBytes(f, p + 1, width, height)
    requires ExactBytes(f, q, width, height) <= byte < ExactBytes(f, q + 1, width, height)
    ensures p == q
  {
    if p < q {
      TotalsGrow(f, p + 1, q, width, height);
    } else if q < p {
      TotalsGrow(f, q + 1, p, width, height);
    }
  }

  /** No two rows, of one plane or of two, share a byte. */
  lemma RowsAreDisjoint(f: RawVideoFormat, p: nat, r: nat, q: nat, s: nat, width: nat, height: nat, byte: nat)
    requires InRow(f, p, r, width, height, byte) && InRow(f, q, s, width, height, byte)
    ensures p == q && r == s
  {
    ByteInPlane(f, p, r, width, height, byte);
    ByteInPlane(f, q, s, width, height, byte);
    SamePlane(f, p, q, width, height, byte);
    SameRow(ExactBytes(f, p, width, height), ExactStride(f, p, width), r, s, byte);
  }

  lemma {:induction false} PlaneOfByte(f: RawVideoFormat, n: nat, width: nat, height: nat, byte: nat) returns (plane: nat)
    requires byte < ExactBytes(f, n, width, height)
    ensures plane < n && ExactBytes(f, plane, width, height) <= byte < ExactBytes(f, plane + 1, width, height)
  {
    if byte < ExactBytes(f, n - 1, width, height) {
      plane := PlaneOfByte(f, n - 1, width, height, byte);
    } else {
      plane := n - 1;
    }
  }

  lemma RowOfByte(byte: nat, stride: nat, rows: nat) returns (row: nat)
    requires byte < stride * rows
    ensures row < rows && row * stride <= byte < row * stride + stride
  {
    row := byte / stride;
    assert byte == row * stride + byte % stride;
    ProductMonotone(rows, row, stride);
  }

  lemma RowIsInFrame(f: RawVideoFormat, p: nat, r: nat, width: nat, height: nat, byte: nat)
    requires InRow(f, p, r, width, height, byte)
    ensures byte < ExactFrame(f, width, height)
  {
    ByteInPlane(f, p, r, width, height, byte);
    TotalsGrow(f, p + 1, PlaneCount(f), width, height);
  }

  lemma ByteHasRow(f: RawVideoFormat, width: nat, height: nat, byte: nat) returns (p: nat, r: nat)
    requires byte < ExactFrame(f, width, height)
    ensures InRow(f, p, r, width, height, byte)
  {
    p := PlaneOfByte(f, PlaneCount(f), width, height, byte);
    r := RowOfByte(byte - ExactBytes(f, p, width, height), ExactStride(f, p, width), ExactRows(f, p, height));
  }

  /** The rows cover the frame: a byte is in some row exactly when it is in the frame. */
  lemma RowsCoverTheFrame(f: RawVideoFormat, width: nat, height: nat, byte: nat)
    ensures byte < ExactFrame(f, width, height) <==> exists p: nat, r: nat :: InRow(f, p, r, width, height, byte)
  {
    if byte < ExactFrame(f, width, height) {
      var p, r := ByteHasRow(f, width, height, byte);
    }
    if exists p: nat, r: nat :: InRow(f, p, r, width, height, byte) {
      var p: nat, r: nat :| InRow(f, p, r, width, height, byte);
      RowIsInFrame(f, p, r, width, height, byte);
    }
  }

  lemma BlockIndex(x: nat, width: nat, pixels: nat, bytes: nat)
    requires x < width && pixels > 0
    ensures x / pixels < DivCeil(width, pixels)
    ensures x / pixels * bytes + bytes <= DivCeil(width, pixels) * bytes
  {
    var q, d := x / pixels, DivCeil(width, pixels);
    DivCeilBounds(width, pixels);
    assert x == q * pixels + x % pixels;
    ProductMonotone(d, q, pixels);
    RowsOrdered(x / pixels, DivCeil(width, pixels), bytes);
  }

  /** The `n` bytes from byte `at` of a row on lie in that row. */
  ghost predicate RowHolds(f: RawVideoFormat, plane: nat, row: nat, width: nat, height: nat, at: nat, n: nat) {
    forall k :: RowStart(f, plane, row, width, height) + at <= k < RowStart(f, plane, row, width, height) + at + n
                ==> InRow(f, plane, row, width, height, k)
  }

  /** The byte, from the start of its row, at which the block of column `x` starts. */
  function BlockStart(b: Block, x: nat): nat
    requires b.pixels > 0
  {
    x / b.pixels * b.bytes
  }

  /** Every pixel of the frame has its block in every plane, whole inside one row of it. */
  lemma PixelHasItsBlock(f: RawVideoFormat, plane: nat, width: nat, height: nat, x: nat, y: nat)
    requires plane < PlaneCount(f) && x < width && y < height
    ensures
      var b := BlockOf(f, plane);
      RowHolds(f, plane, y / b.rows, width, height, BlockStart(b, x), b.bytes)
  {
    var b := BlockOf(f, plane);
    BlockIndex(x, width, b.pixels, b.bytes);
    BlockIndex(y, height, b.rows, 0);
  }

  // ----- nominal sizes -----

  /** Bits per pixel; v210 packs six pixels in sixteen bytes. */
  function ThirdBitsPerPixel(f: RawVideoFormat): nat {
    match f
    case Nv12 => 36
    case I420 => 36
    case A420 => 60
    case P010 => 72
    case I420p10 => 72
    case I420p12 => 72
    case I422 => 48
    case I422p10 => 96
    case I422p12 => 96
    case I444 => 72
    case I444p10 => 144
    case I444p12 => 144
    case A444p12 => 192
    case Gbr10Le => 144
    case Yuyv => 48
    case Uyvy => 48
    case V210 => 64
    case Rgb8 => 72
    case Bgr8 => 72
    case Gray8 => 24
    case _ => 96
  }

  lemma DivCeilOfMultiple(k: nat, b: nat)
    requires b > 0
    ensures DivCeil(k * b, b) == k
  {
    DivCeilBounds(k * b, b);
    ProductMonotone(k, DivCeil(k * b, b), b);
    ProductMonotone(DivCeil(k * b, b), k, b);
  }

  function BlocksAcross(b: Block): nat {
    if b.pixels == 1 then 48 else if b.pixels == 2 then 24 else 1
  }

  function BlocksDown(b: Block): nat {
    if b.rows == 1 then 2 else 1
  }

  /** The bytes one plane holds of 48 pixels by 2. */
  function BlockBytes(f: RawVideoFormat, plane: nat): nat {
    BlocksAcross(BlockOf(f, plane)) * BlockOf(f, plane).bytes * BlocksDown(BlockOf(f, plane))
  }

  lemma BlocksFill(f: RawVideoFormat, plane: nat)
    ensures BlocksAcross(BlockOf(f, plane)) * BlockOf(f, plane).pixels == 48
    ensures BlocksDown(BlockOf(f, plane)) * BlockOf(f, plane).rows == 2
  {
  }

  /** One plane's blocks of a frame that is `48u` pixels by `2v`. */
  lemma AlignedPlane(f: RawVideoFormat, plane: nat, u: nat, v: nat)
    ensures ExactPlane(f, plane, 48 * u, 2 * v) == u * v * BlockBytes(f, plane)
  {
    var b := BlockOf(f, plane);
    var w, h := BlocksAcross(b), BlocksDown(b);
    BlocksFill(f, plane);
    assert 48 * u == u * w * b.pixels by { Rearrange(u, w, b.pixels, 48); }
    assert 2 * v == v * h * b.rows by { Rearrange(v, h, b.rows, 2); }
    DivCeilOfMultiple(u * w, b.pixels);
    DivCeilOfMultiple(v * h, b.rows);
    Factors(u, w, b.bytes, v, h);
  }

  lemma Rearrange(u: nat, w: nat, p: nat, n: nat)
    requires w * p == n
    ensures u * w * p == n * u
  {
    assert u * w * p == u * (w * p);
  }

  lemma Factors(u: nat, w: nat, b: nat, v: nat, h: nat)
    ensures u * w * b * (v * h) == u * v * (w * b * h)
  {
    assert u * w * b == u * (w * b);
    assert u * (w * b) * (v * h) == u * v * ((w * b) * h);
  }

  /** The bytes of all planes of 48 pixels by 2. */
  function TileBytes(f: RawVideoFormat): nat {
    BlockBytes(f, 0) + (if PlaneCount(f) > 1 then BlockBytes(f, 1) else 0)
    + (if PlaneCount(f) > 2 then BlockBytes(f, 2) else 0) + (if PlaneCount(f) > 3 then BlockBytes(f, 3) else 0)
  }

  lemma TileIsNominal(f: RawVideoFormat)
    ensures 24 * TileBytes(f) == 96 * ThirdBitsPerPixel(f)
  {
    if PlaneCount(f) > 2 {
      PlanarTile(f);
    }
  }

  lemma PlanarTile(f: RawVideoFormat)
    requires PlaneCount(f) > 2
    ensures 24 * TileBytes(f) == 96 * ThirdBitsPerPixel(f)
  {
    if PlaneCount(f) == 4 {
      AlphaTile(f);
    } else if ChromaShift(f).Some? && ChromaShift(f).value.0 == 1 {
      ChromaTile(f);
    }
  }

  lemma AlphaTile(f: RawVideoFormat)
    requires PlaneCount(f) == 4
    ensures 24 * TileBytes(f) == 96 * ThirdBitsPerPixel(f)
  {
    match f
    case A420 => case A444p12 =>
  }

  lemma ChromaTile(f: RawVideoFormat)
    requires PlaneCount(f) == 3 && ChromaShift(f).Some? && ChromaShift(f).value.0 == 1
    ensures 24 * TileBytes(f) == 96 * ThirdBitsPerPixel(f)
  {
    if ChromaShift(f).value.1 == 1 {
      QuarterTile(f);
    } else {
      HalfTile(f);
    }
  }

  lemma QuarterTile(f: RawVideoFormat)
    requires f.I420? || f.I420p10? || f.I420p12?
    ensures 24 * TileBytes(f) == 96 * ThirdBitsPerPixel(f)
  {
    match f
    case I420 => case I420p10 => case I420p12 =>
  }

  lemma HalfTile(f: RawVideoFormat)
    requires f.I422? || f.I422p10? || f.I422p12?
    ensures 24 * TileBytes(f) == 96 * ThirdBitsPerPixel(f)
  {
    match f
    case I422 => case I422p10 => case I422p12 =>
  }

  lemma {:induction false} AlignedBytes(f: RawVideoFormat, n: nat, width: nat, height: nat, u: nat, v: nat, k: nat)
    requires width == 48 * u && height == 2 * v && k == u * v
    ensures ExactBytes(f, n, width, height) == k * PlanesBytes(f, n)
  {
    if n > 0 {
      AlignedBytes(f, n - 1, width, height, u, v, k);
      AlignedPlane(f, n - 1, u, v);
      Collect(ExactBytes(f, n - 1, width, height), ExactPlane(f, n - 1, width, height),
              k, PlanesBytes(f, n - 1), BlockBytes(f, n - 1));
    }
  }

  function PlanesBytes(f: RawVideoFormat, n: nat): nat {
    if n == 0 then 0 else PlanesBytes(f, n - 1) + BlockBytes(f, n - 1)
  }

  lemma Collect(x: nat, y: nat, k: nat, a: nat, b: nat)
    requires x == k * a && y == k * b
    ensures x + y == k * (a + b)
  {
  }

  lemma TilePlanes(f: RawVideoFormat)
    ensures PlanesBytes(f, PlaneCount(f)) == TileBytes(f)
  {
    assert PlanesBytes(f, 1) == BlockBytes(f, 0);
    assert PlanesBytes(f, 2) == PlanesBytes(f, 1) + BlockBytes(f, 1);
    assert PlanesBytes(f, 3) == PlanesBytes(f, 2) + BlockBytes(f, 2);
    assert PlanesBytes(f, 4) == PlanesBytes(f, 3) + BlockBytes(f, 3);
  }

  /** A frame of whole blocks has the format's nominal bits per pixel. */
  lemma AlignedFrameIsNominal(f: RawVideoFormat, u: nat, v: nat)
    ensures 24 * ExactFrame(f, 48 * u, 2 * v) == u * v * (96 * ThirdBitsPerPixel(f))
  {
    AlignedBytes(f, PlaneCount(f), 48 * u, 2 * v, u, v, u * v);
    TilePlanes(f);
    TileIsNominal(f);
    Scale(24, u * v, TileBytes(f));
  }

  lemma Scale(k: nat, a: nat, b: nat)
    ensures k * (a * b) == a * (k * b)
  {
  }

  // ----- the padded, single-stride layout -----

  function RowStride(f: RawVideoFormat, width: u32): Option<u32> {
    if IsPacked(f) then PlaneStride(f, 0, width)
    else if f.Nv12? || f.I420? then CheckedMul32(DivCeil(width, 2), 2)
    else None
  }

  function FrameBytes(f: RawVideoFormat, stride: u64, height: u64): Option<u64> {
    match CheckedMul64(stride, height)
    case None => None
    case Some(luma) =>
      if IsPacked(f) then Some(luma)
      else if f.Nv12? || f.I420? then
        match CheckedMul64(stride, DivCeil(height, 2))
        case Some(chroma) => CheckedAdd64(luma, chroma)
        case None => None
      else None
  }

  /** The formats with one byte stride for all their planes. */
  predicate IsSingleStride(f: RawVideoFormat) {
    f in {Rgba8, Bgra8, Rgb8, Yuyv, Uyvy, V210, R210, Gray8, Bgr8, Bgrx8, Argb8, Nv12, I420}
  }

  /** Every row of every plane fits a common stride, of which the split chroma planes of I420
      have half. */
  ghost predicate FitsStride(f: RawVideoFormat, width: nat, stride: nat) {
    forall p: nat :: p < PlaneCount(f) ==> ExactStride(f, p, width) <= PlanePart(f, p, stride)
  }

  function PlanePart(f: RawVideoFormat, plane: nat, stride: nat): nat {
    if f.I420? && plane > 0 then stride / 2 else stride
  }

  ghost predicate IsNarrowest(f: RawVideoFormat, width: nat, stride: nat) {
    FitsStride(f, width, stride) && forall s: nat :: FitsStride(f, width, s) ==> stride <= s
  }

  lemma PlanarNarrowest(f: RawVideoFormat, width: nat)
    requires f.Nv12? || f.I420?
    ensures IsNarrowest(f, width, DivCeil(width, 2) * 2)
  {
    DivCeilOne(width);
    forall s: nat | FitsStride(f, width, s) ensures DivCeil(width, 2) * 2 <= s {
      assert ExactStride(f, 1, width) <= PlanePart(f, 1, s);
    }
  }

  lemma PackedNarrowest(f: RawVideoFormat, width: nat)
    requires IsPacked(f)
    ensures IsNarrowest(f, width, ExactStride(f, 0, width))
  {
    forall s: nat | FitsStride(f, width, s) ensures ExactStride(f, 0, width) <= s {
      assert ExactStride(f, 0, width) <= PlanePart(f, 0, s);
    }
  }

  /** The common stride is the narrowest that every plane fits, and defined exactly for the
      single-stride formats whose narrowest stride takes 32 bits. */
  lemma RowStrideIsNarrowest(f: RawVideoFormat, width: u32, stride: nat)
    requires IsNarrowest(f, width, stride)
    ensures RowStride(f, width) == if IsSingleStride(f) && stride <= U32_MAX then Some(stride) else None
  {
    if IsPacked(f) {
      PackedNarrowest(f, width);
      PackedStrideIsExact(f, width);
    } else if f.Nv12? || f.I420? {
      PlanarNarrowest(f, width);
    }
  }

  /** Rows of the common stride in a frame: the chroma region is half as high, rounded up. */
  function StridedRows(f: RawVideoFormat, height: nat): nat {
    if f.Nv12? || f.I420? then height + (height + 1) / 2 else height
  }

  /** A frame at a given stride is that many rows of it, and defined exactly for the
      single-stride formats whose total takes 64 bits. */
  lemma FrameBytesMean(f: RawVideoFormat, stride: u64, height: u64)
    ensures
      var bytes := stride * StridedRows(f, height);
      FrameBytes(f, stride, height) == if IsSingleStride(f) && bytes <= U64_MAX then Some(bytes) else None
  {
    assert DivCeil(height, 2) == (height + 1) / 2;
    Parts(stride, height, (height + 1) / 2);
  }

  lemma Parts(s: nat, a: nat, b: nat)
    ensures s * (a + b) == s * a + s * b
  {
  }

  /** A buffer sized for the narrowest common stride holds the unpadded frame, whose size
      is then defined too, and is no larger than it for packed formats, for even widths
      and for empty frames, and only for these. */
  lemma PaddedFrameHoldsFrame(f: RawVideoFormat, width: u32, height: u32)
    requires RowStride(f, width).Some? && FrameBytes(f, RowStride(f, width).value, height).Some?
    ensures
      var padded := FrameBytes(f, RowStride(f, width).value, height).value;
      && Total(f, PlaneCount(f), width, height).Some?
      && Total(f, PlaneCount(f), width, height).value <= padded
      && (Total(f, PlaneCount(f), width, height).value == padded <==> (IsPacked(f) || width % 2 == 0 || height == 0))
  {
    if IsPacked(f) {
      PackedFrame(f, width, height);
    } else {
      SubsampledFrame(f, width, height, RowStride(f, width).value, DivCeil(height, 2));
    }
  }

  lemma FirstPlanes(f: RawVideoFormat, width: nat, height: nat)
    ensures ExactBytes(f, 1, width, height) == ExactPlane(f, 0, width, height)
    ensures ExactBytes(f, 2, width, height) == ExactBytes(f, 1, width, height) + ExactPlane(f, 1, width, height)
    ensures ExactBytes(f, 3, width, height) == ExactBytes(f, 2, width, height) + ExactPlane(f, 2, width, height)
  {
  }

  lemma PackedFrame(f: RawVideoFormat, width: u32, height: u32)
    requires IsPacked(f) && RowStride(f, width).Some? && RowStride(f, width).value * height <= U64_MAX
    ensures Total(f, 1, width, height) == Some(RowStride(f, width).value * height)
  {
    FirstPlanes(f, width, height);
    PackedStrideIsExact(f, width);
    DivCeilOne(height);
  }

  lemma SubsampledFrame(f: RawVideoFormat, width: u32, height: u32, s: u32, c: nat)
    requires f.Nv12? || f.I420?
    requires s == DivCeil(width, 2) * 2 && c == DivCeil(height, 2) && s * height + s * c <= U64_MAX
    ensures
      var n := PlaneCount(f);
      && Total(f, n, width, height).Some? && Total(f, n, width, height).value <= s * height + s * c
      && (Total(f, n, width, height).value == s * height + s * c <==> (width % 2 == 0 || height == 0))
  {
    FirstPlanes(f, width, height);
    ChromaPlanes(f, width, height);
    LumaPlane(f, width, height);
    assert width <= s && (width == s <==> width % 2 == 0);
    LumaPadding(width, s, height);
  }

  lemma LumaPlane(f: RawVideoFormat, width: nat, height: nat)
    requires f.Nv12? || f.I420?
    ensures ExactPlane(f, 0, width, height) == width * height
  {
    DivCeilOne(width);
    DivCeilOne(height);
  }

  lemma ChromaPlanes(f: RawVideoFormat, width: nat, height: nat)
    requires f.Nv12? || f.I420?
    ensures f.Nv12? ==> ExactPlane(f, 1, width, height) == DivCeil(width, 2) * 2 * DivCeil(height, 2)
    ensures f.I420? ==> ExactPlane(f, 1, width, height) + ExactPlane(f, 2, width, height)
                        == DivCeil(width, 2) * 2 * DivCeil(height, 2)
    ensures forall p: nat :: p < PlaneCount(f) ==> ExactStride(f, p, width) <= DivCeil(width, 2) * 2
  {
    DivCeilOne(width);
  }

  lemma LumaPadding(width: nat, stride: nat, height: nat)
    requires width <= stride
    ensures width * height <= stride * height
    ensures width * height == stride * height <==> (width == stride || height == 0)
  {
    assert stride * height == width * height + (stride - width) * height;
    if width < stride && height > 0 {
      assert (stride - width) * height >= 1;
    }
  }
}
