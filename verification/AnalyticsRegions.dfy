/** Region images of any sample width and any number of regions: which masks they become, and
    which classes the masks take. */
module AnalyticsRegions {
  import opened Options
  import opened Integers
  import opened AnalyticsGraph
  import opened AnalyticsReader

  // ----- samples -----

  /** The sample at byte `i`: one byte, or two of which the first is the low one. */
  function SampleAt(image: seq<u8>, i: nat, sampleBytes: nat): nat
    requires (sampleBytes == 1 || sampleBytes == 2) && i + sampleBytes <= |image|
  {
    if sampleBytes == 1 then image[i] else image[i] as nat + 256 * image[i + 1] as nat
  }

  lemma {:induction false} RowSampleAt(row: seq<u8>, sampleBytes: nat, n: nat, x: nat)
    requires (sampleBytes == 1 || sampleBytes == 2) && |row| == n * sampleBytes && x < n
    ensures x * sampleBytes + sampleBytes <= |row| && |RowSamples(row, sampleBytes)| == n
    ensures RowSamples(row, sampleBytes)[x] == SampleAt(row, x * sampleBytes, sampleBytes)
    decreases n
  {
    RowSamplesSize(row, sampleBytes, n);
    if x > 0 {
      RowSampleAt(row[sampleBytes..], sampleBytes, n - 1, x - 1);
    }
  }

  /** Every row lies inside the image. */
  ghost predicate RowsInside(image: seq<u8>, rows: nat, stride: nat, rowBytes: nat) {
    forall y: nat :: y < rows ==> RowInside(image, y, stride, rowBytes)
  }

  predicate RowInside(image: seq<u8>, y: nat, stride: nat, rowBytes: nat) {
    y * stride + rowBytes <= |image|
  }

  lemma {:induction false} SamplesRead(image: seq<u8>, rows: nat, stride: nat, rowBytes: nat, sampleBytes: nat)
    requires sampleBytes == 1 || sampleBytes == 2
    ensures Samples(image, rows, stride, rowBytes, sampleBytes).Some? <==> RowsInside(image, rows, stride, rowBytes)
  {
    if rows > 0 {
      SamplesRead(image, rows - 1, stride, rowBytes, sampleBytes);
      assert RowInside(image, rows - 1, stride, rowBytes) <==> (rows - 1) * stride + rowBytes <= |image|;
    }
  }

  /** Sample `x` of the row at byte `start`, whose bytes are `i` into it and at `at`. */
  lemma RowOfImage(image: seq<u8>, start: nat, width: nat, rowBytes: nat, sampleBytes: nat, x: nat, i: nat, at: nat)
    requires (sampleBytes == 1 || sampleBytes == 2) && x < width && rowBytes == width * sampleBytes
    requires start + rowBytes <= |image| && i == x * sampleBytes && at == start + i
    ensures at + sampleBytes <= |image| && |RowSamples(image[start..start + rowBytes], sampleBytes)| == width
    ensures RowSamples(image[start..start + rowBytes], sampleBytes)[x] == SampleAt(image, at, sampleBytes)
  {
    SampleInRow(x, width, sampleBytes);
    RowSampleAt(image[start..start + rowBytes], sampleBytes, width, x);
    SameSample(image, start, rowBytes, i, sampleBytes);
  }

  lemma SamplesLast(image: seq<u8>, n: nat, start: nat, stride: nat, width: nat, rowBytes: nat, sampleBytes: nat, size: nat)
    requires (sampleBytes == 1 || sampleBytes == 2) && start == n * stride && rowBytes == width * sampleBytes && size == width * n
    requires Samples(image, n + 1, stride, rowBytes, sampleBytes).Some?
    ensures Samples(image, n, stride, rowBytes, sampleBytes).Some? && start + rowBytes <= |image|
    ensures |Samples(image, n, stride, rowBytes, sampleBytes).value| == size
    ensures Samples(image, n + 1, stride, rowBytes, sampleBytes).value
         == Samples(image, n, stride, rowBytes, sampleBytes).value + RowSamples(image[start..start + rowBytes], sampleBytes)
  {
    assert (n + 1 - 1) * stride == start;
    SamplesSize(image, n, stride, width, sampleBytes);
  }

  lemma {:induction false} SamplesGrow(image: seq<u8>, m: nat, n: nat, stride: nat, rowBytes: nat, sampleBytes: nat)
    requires (sampleBytes == 1 || sampleBytes == 2) && m <= n && Samples(image, n, stride, rowBytes, sampleBytes).Some?
    ensures Samples(image, m, stride, rowBytes, sampleBytes).Some?
    ensures Samples(image, m, stride, rowBytes, sampleBytes).value <= Samples(image, n, stride, rowBytes, sampleBytes).value
    decreases n - m
  {
    if m < n {
      SamplesGrow(image, m, n - 1, stride, rowBytes, sampleBytes);
    }
  }

  /** Sample `x` of row `y` stands at `place`, and its bytes `i` into the row and at `at`. */
  lemma SampleOfImage(image: seq<u8>, rows: nat, stride: nat, width: nat, rowBytes: nat, sampleBytes: nat,
                      x: nat, y: nat, i: nat, start: nat, place: nat)
    requires (sampleBytes == 1 || sampleBytes == 2) && x < width && y < rows && rowBytes == width * sampleBytes
    requires i == x * sampleBytes && start == y * stride && place == width * y
    requires Samples(image, rows, stride, rowBytes, sampleBytes).Some?
    ensures start + i + sampleBytes <= |image|
    ensures
      var samples := Samples(image, rows, stride, rowBytes, sampleBytes).value;
      place + x < |samples| && samples[place + x] == SampleAt(image, start + i, sampleBytes)
  {
    SamplesGrow(image, y + 1, rows, stride, rowBytes, sampleBytes);
    SamplesLast(image, y, start, stride, width, rowBytes, sampleBytes, place);
    RowOfImage(image, start, width, rowBytes, sampleBytes, x, i, start + i);
  }

  lemma Commute(a: nat, b: nat)
    ensures a * b == b * a
  {
  }

  lemma SampleInRow(x: nat, width: nat, sampleBytes: nat)
    requires x < width && (sampleBytes == 1 || sampleBytes == 2)
    ensures x * sampleBytes + sampleBytes <= width * sampleBytes
  {
    if sampleBytes == 1 {
    } else {
      assert x * 2 + 2 <= width * 2;
    }
  }

  lemma SameSample(image: seq<u8>, start: nat, rowBytes: nat, i: nat, sampleBytes: nat)
    requires (sampleBytes == 1 || sampleBytes == 2) && start + rowBytes <= |image| && i + sampleBytes <= rowBytes
    ensures SampleAt(image[start..start + rowBytes], i, sampleBytes) == SampleAt(image, start + i, sampleBytes)
  {
  }

  // ----- masks -----

  lemma {:induction false} MaskOfRegion(samples: seq<nat>, regions: seq<nat>, width: u32, height: u32, k: nat)
    requires k < |regions| && AllMasks(samples, regions, width, height).Some?
    ensures |AllMasks(samples, regions, width, height).value| == |regions|
    ensures AllMasks(samples, regions, width, height).value[k] == Mask(width, height, width, Coverage(samples, regions[k]))
  {
    MaskPerRegion(samples, regions, width, height);
    if k > 0 {
      MaskOfRegion(samples, regions[1..], width, height, k - 1);
    }
  }

  /** The record's geometry is sound and the budgets cover it: at most 4096 nodes and 64 MiB of
      masks in all. */
  ghost predicate RegionsFit(nodeCount: nat, maskBytes: nat, m: Mtd) {
    && (m.sampleBytes == 1 || m.sampleBytes == 2) && m.image.Some? && m.regions.Some?
    && m.maskStride >= m.maskWidth * m.sampleBytes && m.maskWidth * m.maskHeight <= |m.image.value|
    && |m.regions.value| <= 4096 - nodeCount
    && m.maskWidth * m.maskHeight * |m.regions.value| <= 0x400_0000 - maskBytes
    && RowsInside(m.image.value, m.maskHeight, m.maskStride, m.maskWidth * m.sampleBytes)
  }

  /** Pixel `(x, y)`, whose sample is at byte `at` of the image, is covered by the mask exactly
      when the sample is the region's number. */
  ghost predicate CoversPixel(m: Mtd, region: nat, mask: Mask, x: nat, y: nat, at: nat)
    requires (m.sampleBytes == 1 || m.sampleBytes == 2) && m.image.Some?
  {
    && at + m.sampleBytes <= |m.image.value|
    && Sample(mask, x, y) == Some(if SampleAt(m.image.value, at, m.sampleBytes) == region then 255 else 0)
  }

  ghost predicate CoversRegion(m: Mtd, region: nat, mask: Mask)
    requires (m.sampleBytes == 1 || m.sampleBytes == 2) && m.image.Some? && m.maskStride >= 0
  {
    && mask.width == m.maskWidth && mask.height == m.maskHeight
    && forall x: nat, y: nat, at: nat :: x < m.maskWidth && y < m.maskHeight && at == y * m.maskStride + x * m.sampleBytes ==>
         CoversPixel(m, region, mask, x, y, at)
  }

  lemma CostFits(nodeCount: nat, maskBytes: nat, m: Mtd)
    requires nodeCount <= MAX_NODES && maskBytes <= MAX_MASK_BYTES
    ensures MaskCost(nodeCount, maskBytes, m).Some?
            && Samples(m.image.value, m.maskHeight, m.maskStride, m.maskWidth * m.sampleBytes, m.sampleBytes).Some?
       <==> RegionsFit(nodeCount, maskBytes, m)
  {
    if MaskCost(nodeCount, maskBytes, m).Some? || RegionsFit(nodeCount, maskBytes, m) {
      assert m.maskWidth * m.sampleBytes >= 0;
      SamplesRead(m.image.value, m.maskHeight, m.maskStride, m.maskWidth * m.sampleBytes, m.sampleBytes);
    }
  }

  lemma CoveredAt(width: u32, height: u32, samples: seq<nat>, region: nat, x: nat, y: nat, place: nat)
    requires x < width && y < height && place == y * width && place + x < |samples|
    ensures Sample(Mask(width, height, width, Coverage(samples, region)), x, y)
         == Some(if samples[place + x] == region then 255 else 0)
  {
  }

  lemma PixelCovered(m: Mtd, samples: seq<nat>, region: nat, x: nat, y: nat, rowBytes: nat, i: nat, start: nat, place: nat)
    requires (m.sampleBytes == 1 || m.sampleBytes == 2) && m.image.Some? && m.maskStride >= 0
    requires x < m.maskWidth && y < m.maskHeight && rowBytes == m.maskWidth * m.sampleBytes
    requires i == x * m.sampleBytes && start == y * m.maskStride && place == y * m.maskWidth
    requires Samples(m.image.value, m.maskHeight, m.maskStride, rowBytes, m.sampleBytes) == Some(samples)
    ensures CoversPixel(m, region, Mask(m.maskWidth, m.maskHeight, m.maskWidth, Coverage(samples, region)), x, y, start + i)
  {
    Commute(m.maskWidth, y);
    SampleOfImage(m.image.value, m.maskHeight, m.maskStride, m.maskWidth, rowBytes, m.sampleBytes, x, y, i, start, place);
    CoveredAt(m.maskWidth, m.maskHeight, samples, region, x, y, place);
  }

  lemma RegionCoverage(m: Mtd, samples: seq<nat>, region: nat, rowBytes: nat)
    requires (m.sampleBytes == 1 || m.sampleBytes == 2) && m.image.Some? && m.maskStride >= 0
    requires rowBytes == m.maskWidth * m.sampleBytes
    requires Samples(m.image.value, m.maskHeight, m.maskStride, rowBytes, m.sampleBytes) == Some(samples)
    ensures CoversRegion(m, region, Mask(m.maskWidth, m.maskHeight, m.maskWidth, Coverage(samples, region)))
  {
    var mask := Mask(m.maskWidth, m.maskHeight, m.maskWidth, Coverage(samples, region));
    forall x: nat, y: nat, at: nat | x < m.maskWidth && y < m.maskHeight && at == y * m.maskStride + x * m.sampleBytes
      ensures CoversPixel(m, region, mask, x, y, at)
    {
      PixelCovered(m, samples, region, x, y, rowBytes, x * m.sampleBytes, y * m.maskStride, y * m.maskWidth);
    }
  }

  lemma RegionCovered(nodeCount: nat, maskBytes: nat, m: Mtd, k: nat)
    requires nodeCount <= MAX_NODES && maskBytes <= MAX_MASK_BYTES
    requires RegionMasks(nodeCount, maskBytes, m).Some? && k < |m.regions.value|
    ensures m.maskStride >= 0 && |RegionMasks(nodeCount, maskBytes, m).value.masks| == |m.regions.value|
    ensures CoversRegion(m, m.regions.value[k], RegionMasks(nodeCount, maskBytes, m).value.masks[k])
  {
    var rowBytes := m.maskWidth * m.sampleBytes;
    var samples := Samples(m.image.value, m.maskHeight, m.maskStride, rowBytes, m.sampleBytes).value;
    MaskOfRegion(samples, m.regions.value, m.maskWidth, m.maskHeight, k);
    RegionCoverage(m, samples, m.regions.value[k], rowBytes);
  }

  /** A region image is read exactly when its geometry is sound and the budgets cover it; it
      becomes one mask per region, covering the region's pixels, and is charged for them all. */
  lemma RegionsRead(nodeCount: nat, maskBytes: nat, m: Mtd)
    requires nodeCount <= MAX_NODES && maskBytes <= MAX_MASK_BYTES
    ensures RegionMasks(nodeCount, maskBytes, m).Some? <==> RegionsFit(nodeCount, maskBytes, m)
    ensures
      RegionMasks(nodeCount, maskBytes, m).Some? ==>
        var r := RegionMasks(nodeCount, maskBytes, m).value;
        && r.cost == m.maskWidth * m.maskHeight * |m.regions.value| && |r.masks| == |m.regions.value|
        && forall k :: 0 <= k < |r.masks| ==> m.maskStride >= 0 && CoversRegion(m, m.regions.value[k], r.masks[k])
  {
    CostFits(nodeCount, maskBytes, m);
    if RegionsFit(nodeCount, maskBytes, m) {
      var samples := Samples(m.image.value, m.maskHeight, m.maskStride, m.maskWidth * m.sampleBytes, m.sampleBytes).value;
      SamplesSize(m.image.value, m.maskHeight, m.maskStride, m.maskWidth, m.sampleBytes);
      MaskPerRegion(samples, m.regions.value, m.maskWidth, m.maskHeight);
      forall k | 0 <= k < |m.regions.value|
        ensures m.maskStride >= 0 && CoversRegion(m, m.regions.value[k], RegionMasks(nodeCount, maskBytes, m).value.masks[k])
      {
        RegionCovered(nodeCount, maskBytes, m, k);
      }
    }
  }

  // ----- the classes regions take -----

  /** Region `k` takes class `k` of the labels, or with none left the empty name and an
      undefined confidence. */
  predicate IsRegionNode(n: Node, bbox: BBox, mask: Mask, labels: seq<Class>, k: nat, names: seq<string>) {
    && n.Segmentation? && n.bbox == bbox && n.mask == mask
    && if k < |labels| then n.classId == labels[k].classId && n.confidence == labels[k].confidence
       else n.classId < |names| && names[n.classId] == "" && n.confidence == -1.0
  }

  function From(first: nat, n: nat): (r: seq<nat>)
    ensures |r| == n && forall i :: 0 <= i < n ==> r[i] == first + i
  {
    seq(n, i requires 0 <= i < n => first + i)
  }

  lemma RegionAdded(b: Built, id: nat, bbox: BBox, mask: Mask, labels: seq<Class>, k: nat)
    ensures
      var r := AddRegion(b, id, bbox, mask, labels, k);
      && b.names <= r.names && |r.nodes| == |b.nodes| + 1 && b.nodes <= r.nodes
      && IsRegionNode(r.nodes[|b.nodes|], bbox, mask, labels, k, r.names)
      && r.index == b.index[id := At(b.index, id) + [|b.nodes|]]
  {
  }

  ghost predicate RegionNodes(nodes: seq<Node>, first: nat, bbox: BBox, masks: seq<Mask>, n: nat, labels: seq<Class>, names: seq<string>) {
    && n <= |masks| && first + n == |nodes|
    && forall k :: 0 <= k < n ==> IsRegionNode(nodes[first + k], bbox, masks[k], labels, k, names)
  }

  lemma NamesOnlyGrow(n: Node, bbox: BBox, mask: Mask, labels: seq<Class>, k: nat, names: seq<string>, more: seq<string>)
    requires IsRegionNode(n, bbox, mask, labels, k, names) && names <= more
    ensures IsRegionNode(n, bbox, mask, labels, k, more)
  {
  }

  lemma OneMoreRegion(nodes: seq<Node>, first: nat, bbox: BBox, masks: seq<Mask>, n: nat, labels: seq<Class>, names: seq<string>,
                      after: seq<Node>, more: seq<string>)
    requires RegionNodes(nodes, first, bbox, masks, n, labels, names) && n < |masks| && names <= more
    requires nodes <= after && |after| == |nodes| + 1 && IsRegionNode(after[|nodes|], bbox, masks[n], labels, n, more)
    ensures RegionNodes(after, first, bbox, masks, n + 1, labels, more)
  {
    forall k | 0 <= k < n + 1 ensures IsRegionNode(after[first + k], bbox, masks[k], labels, k, more) {
      if k < n {
        NamesOnlyGrow(nodes[first + k], bbox, masks[k], labels, k, names, more);
      }
    }
  }

  /** The regions of a record become nodes in their order, each under its class. */
  lemma {:induction false} RegionsAdded(b: Built, id: nat, bbox: BBox, masks: seq<Mask>, n: nat, labels: seq<Class>)
    requires n <= |masks|
    ensures
      var r := AddRegions(b, id, bbox, masks, n, labels);
      b.names <= r.names && b.nodes <= r.nodes && RegionNodes(r.nodes, |b.nodes|, bbox, masks, n, labels, r.names)
  {
    if n > 0 {
      RegionsAdded(b, id, bbox, masks, n - 1, labels);
      var before := AddRegions(b, id, bbox, masks, n - 1, labels);
      var after := AddRegion(before, id, bbox, masks[n - 1], labels, n - 1);
      RegionAdded(before, id, bbox, masks[n - 1], labels, n - 1);
      OneMoreRegion(before.nodes, |b.nodes|, bbox, masks, n - 1, labels, before.names, after.nodes, after.names);
    }
  }

  /** The nodes of a record's regions all stand for the record, in order. */
  ghost predicate StandFor(b: Built, r: Built, id: nat, n: nat) {
    && |r.nodes| == |b.nodes| + n && At(r.index, id) == At(b.index, id) + From(|b.nodes|, n)
    && forall other :: other != id ==> At(r.index, other) == At(b.index, other)
  }

  lemma OneMoreStands(b: Built, before: Built, after: Built, id: nat, n: nat)
    requires n > 0 && StandFor(b, before, id, n - 1)
    requires |after.nodes| == |before.nodes| + 1 && after.index == before.index[id := At(before.index, id) + [|before.nodes|]]
    ensures StandFor(b, after, id, n)
  {
    NextNumber(At(b.index, id), |b.nodes|, n);
  }

  lemma {:induction false} RegionsNumbered(b: Built, id: nat, bbox: BBox, masks: seq<Mask>, n: nat, labels: seq<Class>)
    requires n <= |masks|
    ensures StandFor(b, AddRegions(b, id, bbox, masks, n, labels), id, n)
  {
    if n > 0 {
      RegionsNumbered(b, id, bbox, masks, n - 1, labels);
      var before := AddRegions(b, id, bbox, masks, n - 1, labels);
      RegionAdded(before, id, bbox, masks[n - 1], labels, n - 1);
      OneMoreStands(b, before, AddRegion(before, id, bbox, masks[n - 1], labels, n - 1), id, n);
    }
  }

  lemma NextNumber(numbers: seq<nat>, first: nat, n: nat)
    requires n > 0
    ensures numbers + From(first, n - 1) + [first + n - 1] == numbers + From(first, n)
  {
    assert From(first, n) == From(first, n - 1) + [first + n - 1];
  }

  // ----- records that share a number -----

  ghost predicate Numbers(mtds: seq<ReadMtd>, n: nat, id: nat)
    requires n <= |mtds|
  {
    exists i :: 0 <= i < n && mtds[i].id == id
  }

  /** A number has the kind of the last record with it, and none without one. */
  lemma {:induction false} LastKindStands(mtds: seq<ReadMtd>, n: nat, id: nat)
    requires n <= |mtds|
    ensures id in Kinds(mtds, n) <==> Numbers(mtds, n, id)
    ensures forall i :: 0 <= i < n && mtds[i].id == id && (forall j :: i < j < n ==> mtds[j].id != id) ==>
              id in Kinds(mtds, n) && Kinds(mtds, n)[id] == KindOf(mtds[i])
  {
    if n > 0 {
      LastKindStands(mtds, n - 1, id);
      if mtds[n - 1].id == id {
        assert Numbers(mtds, n, id);
      } else {
        assert Numbers(mtds, n, id) <==> Numbers(mtds, n - 1, id);
      }
    }
  }

  /** The classes of the classification records numbered `id`, in order. */
  ghost function Labels(mtds: seq<ReadMtd>, id: nat): seq<Class> {
    if mtds == [] then []
    else (if mtds[0].Classed? && mtds[0].id == id then [mtds[0].cls] else []) + Labels(mtds[1..], id)
  }

  lemma {:induction false} LabelsAppend(mtds: seq<ReadMtd>, m: ReadMtd, id: nat)
    ensures Labels(mtds + [m], id) == Labels(mtds, id) + (if m.Classed? && m.id == id then [m.cls] else [])
  {
    if mtds == [] {
      assert [] + [m] == [m] && [m][1..] == [];
    } else {
      assert (mtds + [m])[1..] == mtds[1..] + [m];
      LabelsAppend(mtds[1..], m, id);
    }
  }

  /** A table's labels are the classes of every classification record with its number, in the
      order they were read. */
  lemma {:induction false} TableHoldsItsClasses(mtds: seq<ReadMtd>, n: nat, id: nat)
    requires n <= |mtds|
    ensures At(Classes(mtds, n), id) == Labels(mtds[..n], id)
  {
    if n > 0 {
      TableHoldsItsClasses(mtds, n - 1, id);
      assert mtds[..n] == mtds[..n - 1] + [mtds[n - 1]];
      LabelsAppend(mtds[..n - 1], mtds[n - 1], id);
    }
  }
}
