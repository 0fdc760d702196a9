/** What a description with lists of alternatives means. */
module CapsExpansion {
  import opened Integers
  import opened Caps
  import opened CapsSets
  import opened CapsParser

  // ----- the nested loops -----

  ghost predicate Completes<T>(alts: seq<T>, rest: seq<T>, target: seq<T>) {
    alts + rest == target
  }

  /** After `part` is appended, what is left to append is `rest`. */
  lemma Grow<T>(before: seq<T>, part: seq<T>, after: seq<T>, rest: seq<T>, left: seq<T>, target: seq<T>)
    requires Completes(before, left, target) && left == part + rest && after == before + part
    ensures Completes(after, rest, target)
  {
    assert before + part + rest == before + (part + rest);
  }

  lemma Done<T>(after: seq<T>, rest: seq<T>, target: seq<T>)
    requires Completes(after, rest, target) && rest == []
    ensures after == target
  {
  }

  lemma CellStep(f: RawVideoFormat, w: Dim, h: Dim, rs: seq<Rate>, il: Interlace, col: Colorimetry, l: nat)
    requires l < |rs|
    ensures RawCell(f, w, h, rs[l..], il, col) == [RawVideo(f, w, h, rs[l], il, col)] + RawCell(f, w, h, rs[l + 1..], il, col)
  {
    assert rs[l..][1..] == rs[l + 1..];
  }

  lemma RowStep(f: RawVideoFormat, w: Dim, hs: seq<Dim>, rs: seq<Rate>, il: Interlace, col: Colorimetry, k: nat)
    requires k < |hs|
    ensures RawRow(f, w, hs[k..], rs, il, col) == RawCell(f, w, hs[k], rs, il, col) + RawRow(f, w, hs[k + 1..], rs, il, col)
  {
    assert hs[k..][1..] == hs[k + 1..];
  }

  lemma PlaneStep(f: RawVideoFormat, ws: seq<Dim>, hs: seq<Dim>, rs: seq<Rate>, il: Interlace, col: Colorimetry, j: nat)
    requires j < |ws|
    ensures RawPlane(f, ws[j..], hs, rs, il, col) == RawRow(f, ws[j], hs, rs, il, col) + RawPlane(f, ws[j + 1..], hs, rs, il, col)
  {
    assert ws[j..][1..] == ws[j + 1..];
  }

  lemma ProductStep(fs: seq<RawVideoFormat>, ws: seq<Dim>, hs: seq<Dim>, rs: seq<Rate>, il: Interlace, col: Colorimetry, i: nat)
    requires i < |fs|
    ensures RawProduct(fs[i..], ws, hs, rs, il, col)
         == RawPlane(fs[i], ws, hs, rs, il, col) + RawProduct(fs[i + 1..], ws, hs, rs, il, col)
  {
    assert fs[i..][1..] == fs[i + 1..];
  }

  /** The loops over the formats, widths, heights and rates of a raw video description. */
  method ExpandRaw(fs: seq<RawVideoFormat>, ws: seq<Dim>, hs: seq<Dim>, rs: seq<Rate>, il: Interlace, col: Colorimetry)
    returns (alts: CapsSet)
    ensures alts == RawProduct(fs, ws, hs, rs, il, col)
  {
    alts := [];
    ghost var all := RawProduct(fs, ws, hs, rs, il, col);
    for i := 0 to |fs|
      invariant Completes(alts, RawProduct(fs[i..], ws, hs, rs, il, col), all)
    {
      ghost var a, planes := alts, RawPlane(fs[i], ws, hs, rs, il, col);
      for j := 0 to |ws|
        invariant Completes(alts, RawPlane(fs[i], ws[j..], hs, rs, il, col), a + planes)
      {
        ghost var b, rows := alts, RawRow(fs[i], ws[j], hs, rs, il, col);
        for k := 0 to |hs|
          invariant Completes(alts, RawRow(fs[i], ws[j], hs[k..], rs, il, col), b + rows)
        {
          ghost var c, cells := alts, RawCell(fs[i], ws[j], hs[k], rs, il, col);
          alts := AppendRawRates(alts, fs[i], ws[j], hs[k], rs, il, col);
          RowStep(fs[i], ws[j], hs, rs, il, col, k);
          Grow(c, cells, alts, RawRow(fs[i], ws[j], hs[k + 1..], rs, il, col),
               RawRow(fs[i], ws[j], hs[k..], rs, il, col), b + rows);
        }
        Done(alts, RawRow(fs[i], ws[j], hs[|hs|..], rs, il, col), b + rows);
        PlaneStep(fs[i], ws, hs, rs, il, col, j);
        Grow(b, rows, alts, RawPlane(fs[i], ws[j + 1..], hs, rs, il, col), RawPlane(fs[i], ws[j..], hs, rs, il, col),
             a + planes);
      }
      Done(alts, RawPlane(fs[i], ws[|ws|..], hs, rs, il, col), a + planes);
      ProductStep(fs, ws, hs, rs, il, col, i);
      Grow(a, planes, alts, RawProduct(fs[i + 1..], ws, hs, rs, il, col), RawProduct(fs[i..], ws, hs, rs, il, col), all);
    }
    Done(alts, RawProduct(fs[|fs|..], ws, hs, rs, il, col), all);
  }

  /** The innermost loop, over the rates. */
  method AppendRawRates(start: CapsSet, f: RawVideoFormat, w: Dim, h: Dim, rs: seq<Rate>, il: Interlace, col: Colorimetry)
    returns (alts: CapsSet)
    ensures alts == start + RawCell(f, w, h, rs, il, col)
  {
    alts := start;
    ghost var cells := RawCell(f, w, h, rs, il, col);
    for l := 0 to |rs|
      invariant Completes(alts, RawCell(f, w, h, rs[l..], il, col), start + cells)
    {
      ghost var d, one := alts, RawVideo(f, w, h, rs[l], il, col);
      alts := alts + [RawVideo(f, w, h, rs[l], il, col)];
      CellStep(f, w, h, rs, il, col, l);
      Grow(d, [one], alts, RawCell(f, w, h, rs[l + 1..], il, col), RawCell(f, w, h, rs[l..], il, col), start + cells);
    }
    Done(alts, RawCell(f, w, h, rs[|rs|..], il, col), start + cells);
  }

  lemma CompressedCellStep(c: VideoCodec, w: Dim, h: Dim, rs: seq<Rate>, col: Colorimetry, al: Alignment, l: nat)
    requires l < |rs|
    ensures CompressedCell(c, w, h, rs[l..], col, al)
         == [CompressedVideo(c, w, h, rs[l], col, al)] + CompressedCell(c, w, h, rs[l + 1..], col, al)
  {
    assert rs[l..][1..] == rs[l + 1..];
  }

  lemma CompressedRowStep(c: VideoCodec, w: Dim, hs: seq<Dim>, rs: seq<Rate>, col: Colorimetry, al: Alignment, k: nat)
    requires k < |hs|
    ensures CompressedRow(c, w, hs[k..], rs, col, al)
         == CompressedCell(c, w, hs[k], rs, col, al) + CompressedRow(c, w, hs[k + 1..], rs, col, al)
  {
    assert hs[k..][1..] == hs[k + 1..];
  }

  lemma CompressedStep(c: VideoCodec, ws: seq<Dim>, hs: seq<Dim>, rs: seq<Rate>, col: Colorimetry, al: Alignment, j: nat)
    requires j < |ws|
    ensures CompressedProduct(c, ws[j..], hs, rs, col, al)
         == CompressedRow(c, ws[j], hs, rs, col, al) + CompressedProduct(c, ws[j + 1..], hs, rs, col, al)
  {
    assert ws[j..][1..] == ws[j + 1..];
  }

  method ExpandCompressed(v: VideoCodec, ws: seq<Dim>, hs: seq<Dim>, rs: seq<Rate>, col: Colorimetry, al: Alignment)
    returns (alts: CapsSet)
    ensures alts == CompressedProduct(v, ws, hs, rs, col, al)
  {
    alts := [];
    ghost var all := CompressedProduct(v, ws, hs, rs, col, al);
    for j := 0 to |ws|
      invariant Completes(alts, CompressedProduct(v, ws[j..], hs, rs, col, al), all)
    {
      ghost var b, rows := alts, CompressedRow(v, ws[j], hs, rs, col, al);
      for k := 0 to |hs|
        invariant Completes(alts, CompressedRow(v, ws[j], hs[k..], rs, col, al), b + rows)
      {
        ghost var c, cells := alts, CompressedCell(v, ws[j], hs[k], rs, col, al);
        alts := AppendRates(alts, v, ws[j], hs[k], rs, col, al);
        CompressedRowStep(v, ws[j], hs, rs, col, al, k);
        Grow(c, cells, alts, CompressedRow(v, ws[j], hs[k + 1..], rs, col, al),
             CompressedRow(v, ws[j], hs[k..], rs, col, al), b + rows);
      }
      Done(alts, CompressedRow(v, ws[j], hs[|hs|..], rs, col, al), b + rows);
      CompressedStep(v, ws, hs, rs, col, al, j);
      Grow(b, rows, alts, CompressedProduct(v, ws[j + 1..], hs, rs, col, al),
           CompressedProduct(v, ws[j..], hs, rs, col, al), all);
    }
    Done(alts, CompressedProduct(v, ws[|ws|..], hs, rs, col, al), all);
  }

  /** The innermost loop, over the rates. */
  method AppendRates(start: CapsSet, v: VideoCodec, w: Dim, h: Dim, rs: seq<Rate>, col: Colorimetry, al: Alignment)
    returns (alts: CapsSet)
    ensures alts == start + CompressedCell(v, w, h, rs, col, al)
  {
    alts := start;
    ghost var cells := CompressedCell(v, w, h, rs, col, al);
    for l := 0 to |rs|
      invariant Completes(alts, CompressedCell(v, w, h, rs[l..], col, al), start + cells)
    {
      ghost var d, one := alts, CompressedVideo(v, w, h, rs[l], col, al);
      alts := alts + [CompressedVideo(v, w, h, rs[l], col, al)];
      CompressedCellStep(v, w, h, rs, col, al, l);
      Grow(d, [one], alts, CompressedCell(v, w, h, rs[l + 1..], col, al), CompressedCell(v, w, h, rs[l..], col, al), start + cells);
    }
    Done(alts, CompressedCell(v, w, h, rs[|rs|..], col, al), start + cells);
  }

  lemma AudioCellStep(f: AudioFormat, ch: u8, srs: seq<u32>, lay: ChannelLayout, l: nat)
    requires l < |srs|
    ensures AudioCell(f, ch, srs[l..], lay) == [Audio(f, ch, srs[l], lay)] + AudioCell(f, ch, srs[l + 1..], lay)
  {
    assert srs[l..][1..] == srs[l + 1..];
  }

  lemma AudioRowStep(f: AudioFormat, chs: seq<u8>, srs: seq<u32>, lay: ChannelLayout, k: nat)
    requires k < |chs|
    ensures AudioRow(f, chs[k..], srs, lay) == AudioCell(f, chs[k], srs, lay) + AudioRow(f, chs[k + 1..], srs, lay)
  {
    assert chs[k..][1..] == chs[k + 1..];
  }

  lemma AudioStep(fs: seq<AudioFormat>, chs: seq<u8>, srs: seq<u32>, lay: ChannelLayout, j: nat)
    requires j < |fs|
    ensures AudioProduct(fs[j..], chs, srs, lay) == AudioRow(fs[j], chs, srs, lay) + AudioProduct(fs[j + 1..], chs, srs, lay)
  {
    assert fs[j..][1..] == fs[j + 1..];
  }

  method ExpandAudio(fs: seq<AudioFormat>, chs: seq<u8>, srs: seq<u32>, lay: ChannelLayout) returns (alts: CapsSet)
    ensures alts == AudioProduct(fs, chs, srs, lay)
  {
    alts := [];
    ghost var all := AudioProduct(fs, chs, srs, lay);
    for j := 0 to |fs|
      invariant Completes(alts, AudioProduct(fs[j..], chs, srs, lay), all)
    {
      ghost var b, rows := alts, AudioRow(fs[j], chs, srs, lay);
      for k := 0 to |chs|
        invariant Completes(alts, AudioRow(fs[j], chs[k..], srs, lay), b + rows)
      {
        ghost var c, cells := alts, AudioCell(fs[j], chs[k], srs, lay);
        for l := 0 to |srs|
          invariant Completes(alts, AudioCell(fs[j], chs[k], srs[l..], lay), c + cells)
        {
          ghost var d, one := alts, Audio(fs[j], chs[k], srs[l], lay);
          alts := alts + [Audio(fs[j], chs[k], srs[l], lay)];
          AudioCellStep(fs[j], chs[k], srs, lay, l);
          Grow(d, [one], alts, AudioCell(fs[j], chs[k], srs[l + 1..], lay), AudioCell(fs[j], chs[k], srs[l..], lay), c + cells);
        }
        Done(alts, AudioCell(fs[j], chs[k], srs[|srs|..], lay), c + cells);
        AudioRowStep(fs[j], chs, srs, lay, k);
        Grow(c, cells, alts, AudioRow(fs[j], chs[k + 1..], srs, lay), AudioRow(fs[j], chs[k..], srs, lay), b + rows);
      }
      Done(alts, AudioRow(fs[j], chs[|chs|..], srs, lay), b + rows);
      AudioStep(fs, chs, srs, lay, j);
      Grow(b, rows, alts, AudioProduct(fs[j + 1..], chs, srs, lay), AudioProduct(fs[j..], chs, srs, lay), all);
    }
    Done(alts, AudioProduct(fs[|fs|..], chs, srs, lay), all);
  }

  // ----- the order is lexicographic -----

  /** One block of `m` in front of `n` more. */
  lemma BlockAt<T>(head: seq<T>, tail: seq<T>, m: nat, n: nat, i: nat, k: nat)
    requires |head| == m && |tail| == n * m && i <= n && k < m
    ensures |head + tail| == (n + 1) * m
    ensures i * m + k < |head + tail|
    ensures (head + tail)[i * m + k] == if i == 0 then head[k] else tail[(i - 1) * m + k]
  {
    assert (n + 1) * m == n * m + m;
    assert i * m + k < (n + 1) * m by { Within(i, n, m, k); }
    if i > 0 {
      assert i * m == (i - 1) * m + m;
      assert (i - 1) * m >= 0;
    }
  }

  lemma Within(i: nat, n: nat, m: nat, k: nat)
    requires i <= n && k < m
    ensures i * m + k < (n + 1) * m
  {
    assert (n - i) * m >= 0;
    assert (n + 1) * m == i * m + m + (n - i) * m;
  }

  lemma SizeOf(n: nat, m: nat)
    ensures m + n * m == (n + 1) * m
  {
  }

  lemma {:induction false} RawCellAt(f: RawVideoFormat, w: Dim, h: Dim, rs: seq<Rate>, il: Interlace, col: Colorimetry)
    ensures |RawCell(f, w, h, rs, il, col)| == |rs|
    ensures forall l :: 0 <= l < |rs| ==> RawCell(f, w, h, rs, il, col)[l] == RawVideo(f, w, h, rs[l], il, col)
  {
    if rs != [] {
      RawCellAt(f, w, h, rs[1..], il, col);
    }
  }

  lemma {:induction false} RawRowSize(f: RawVideoFormat, w: Dim, hs: seq<Dim>, rs: seq<Rate>, il: Interlace, col: Colorimetry)
    ensures |RawRow(f, w, hs, rs, il, col)| == |hs| * |rs|
  {
    if hs != [] {
      RawCellAt(f, w, hs[0], rs, il, col);
      RawRowSize(f, w, hs[1..], rs, il, col);
      SizeOf(|hs| - 1, |rs|);
    }
  }

  lemma {:induction false} RawRowAt(f: RawVideoFormat, w: Dim, hs: seq<Dim>, rs: seq<Rate>, il: Interlace, col: Colorimetry,
                                    k: nat, l: nat)
    requires k < |hs| && l < |rs|
    ensures k * |rs| + l < |RawRow(f, w, hs, rs, il, col)|
    ensures RawRow(f, w, hs, rs, il, col)[k * |rs| + l] == RawVideo(f, w, hs[k], rs[l], il, col)
    decreases |hs|
  {
    RawCellAt(f, w, hs[0], rs, il, col);
    RawRowSize(f, w, hs[1..], rs, il, col);
    BlockAt(RawCell(f, w, hs[0], rs, il, col), RawRow(f, w, hs[1..], rs, il, col), |rs|, |hs| - 1, k, l);
    if k > 0 {
      RawRowAt(f, w, hs[1..], rs, il, col, k - 1, l);
    }
  }

  lemma {:induction false} RawPlaneSize(f: RawVideoFormat, ws: seq<Dim>, hs: seq<Dim>, rs: seq<Rate>, il: Interlace, col: Colorimetry)
    ensures |RawPlane(f, ws, hs, rs, il, col)| == |ws| * (|hs| * |rs|)
  {
    if ws != [] {
      RawRowSize(f, ws[0], hs, rs, il, col);
      RawPlaneSize(f, ws[1..], hs, rs, il, col);
      SizeOf(|ws| - 1, |hs| * |rs|);
    }
  }

  lemma {:induction false} RawPlaneAt(f: RawVideoFormat, ws: seq<Dim>, hs: seq<Dim>, rs: seq<Rate>, il: Interlace, col: Colorimetry,
                                      row: nat, j: nat, at: nat)
    requires j < |ws| && row == |hs| * |rs| && at < row
    ensures |RawRow(f, ws[j], hs, rs, il, col)| == row
    ensures j * row + at < |RawPlane(f, ws, hs, rs, il, col)|
    ensures RawPlane(f, ws, hs, rs, il, col)[j * row + at] == RawRow(f, ws[j], hs, rs, il, col)[at]
    decreases |ws|
  {
    RawRowSize(f, ws[0], hs, rs, il, col);
    RawPlaneSize(f, ws[1..], hs, rs, il, col);
    BlockAt(RawRow(f, ws[0], hs, rs, il, col), RawPlane(f, ws[1..], hs, rs, il, col), row, |ws| - 1, j, at);
    if j > 0 {
      RawPlaneAt(f, ws[1..], hs, rs, il, col, row, j - 1, at);
    }
  }

  lemma {:induction false} RawProductSize(fs: seq<RawVideoFormat>, ws: seq<Dim>, hs: seq<Dim>, rs: seq<Rate>,
                                          il: Interlace, col: Colorimetry)
    ensures |RawProduct(fs, ws, hs, rs, il, col)| == |fs| * (|ws| * (|hs| * |rs|))
  {
    if fs != [] {
      RawPlaneSize(fs[0], ws, hs, rs, il, col);
      RawProductSize(fs[1..], ws, hs, rs, il, col);
      SizeOf(|fs| - 1, |ws| * (|hs| * |rs|));
    }
  }

  /** `m` alternatives a format, of which `at` is the place of the other fields' choice. */
  lemma {:induction false} RawProductAt(fs: seq<RawVideoFormat>, ws: seq<Dim>, hs: seq<Dim>, rs: seq<Rate>,
                                        il: Interlace, col: Colorimetry, i: nat, m: nat, at: nat)
    requires i < |fs| && m == |ws| * (|hs| * |rs|) && at < m
    ensures |RawPlane(fs[i], ws, hs, rs, il, col)| == m
    ensures i * m + at < |RawProduct(fs, ws, hs, rs, il, col)|
    ensures RawProduct(fs, ws, hs, rs, il, col)[i * m + at] == RawPlane(fs[i], ws, hs, rs, il, col)[at]
    decreases |fs|
  {
    RawPlaneSize(fs[0], ws, hs, rs, il, col);
    RawProductSize(fs[1..], ws, hs, rs, il, col);
    BlockAt(RawPlane(fs[0], ws, hs, rs, il, col), RawProduct(fs[1..], ws, hs, rs, il, col), m, |fs| - 1, i, at);
    if i > 0 {
      RawProductAt(fs[1..], ws, hs, rs, il, col, i - 1, m, at);
    }
  }

  lemma RawPlaneBlock(f: RawVideoFormat, ws: seq<Dim>, hs: seq<Dim>, rs: seq<Rate>, il: Interlace, col: Colorimetry,
                      row: nat, j: nat, k: nat, l: nat, at: nat)
    requires row == |hs| * |rs| && j < |ws| && k < |hs| && l < |rs| && at == j * row + (k * |rs| + l)
    ensures at < |RawPlane(f, ws, hs, rs, il, col)|
    ensures RawPlane(f, ws, hs, rs, il, col)[at] == RawVideo(f, ws[j], hs[k], rs[l], il, col)
  {
    RawRowSize(f, ws[j], hs, rs, il, col);
    RawRowAt(f, ws[j], hs, rs, il, col, k, l);
    RawPlaneAt(f, ws, hs, rs, il, col, row, j, k * |rs| + l);
  }

  /** The alternatives of a raw video description stand in lexicographic order of their
      fields' alternatives, formats first and rates last. */
  lemma RawIsLexicographic(fs: seq<RawVideoFormat>, ws: seq<Dim>, hs: seq<Dim>, rs: seq<Rate>, il: Interlace, col: Colorimetry,
                           row: nat, plane: nat, i: nat, j: nat, k: nat, l: nat, at: nat, place: nat)
    requires row == |hs| * |rs| && plane == |ws| * row && place == i * plane + at
    requires i < |fs| && j < |ws| && k < |hs| && l < |rs| && at == j * row + (k * |rs| + l)
    ensures |RawProduct(fs, ws, hs, rs, il, col)| == |fs| * plane
    ensures place < |RawProduct(fs, ws, hs, rs, il, col)|
    ensures RawProduct(fs, ws, hs, rs, il, col)[place] == RawVideo(fs[i], ws[j], hs[k], rs[l], il, col)
  {
    RawProductSize(fs, ws, hs, rs, il, col);
    RawPlaneSize(fs[i], ws, hs, rs, il, col);
    RawPlaneBlock(fs[i], ws, hs, rs, il, col, row, j, k, l, at);
    RawProductAt(fs, ws, hs, rs, il, col, i, plane, at);
  }

  lemma {:induction false} CompressedCellAt(v: VideoCodec, w: Dim, h: Dim, rs: seq<Rate>, col: Colorimetry, al: Alignment)
    ensures |CompressedCell(v, w, h, rs, col, al)| == |rs|
    ensures forall l :: 0 <= l < |rs| ==> CompressedCell(v, w, h, rs, col, al)[l] == CompressedVideo(v, w, h, rs[l], col, al)
  {
    if rs != [] {
      CompressedCellAt(v, w, h, rs[1..], col, al);
    }
  }

  lemma {:induction false} CompressedRowSize(v: VideoCodec, w: Dim, hs: seq<Dim>, rs: seq<Rate>, col: Colorimetry, al: Alignment)
    ensures |CompressedRow(v, w, hs, rs, col, al)| == |hs| * |rs|
  {
    if hs != [] {
      CompressedCellAt(v, w, hs[0], rs, col, al);
      CompressedRowSize(v, w, hs[1..], rs, col, al);
      SizeOf(|hs| - 1, |rs|);
    }
  }

  lemma {:induction false} CompressedRowAt(v: VideoCodec, w: Dim, hs: seq<Dim>, rs: seq<Rate>, col: Colorimetry, al: Alignment,
                                           k: nat, l: nat)
    requires k < |hs| && l < |rs|
    ensures k * |rs| + l < |CompressedRow(v, w, hs, rs, col, al)|
    ensures CompressedRow(v, w, hs, rs, col, al)[k * |rs| + l] == CompressedVideo(v, w, hs[k], rs[l], col, al)
    decreases |hs|
  {
    CompressedCellAt(v, w, hs[0], rs, col, al);
    CompressedRowSize(v, w, hs[1..], rs, col, al);
    BlockAt(CompressedCell(v, w, hs[0], rs, col, al), CompressedRow(v, w, hs[1..], rs, col, al), |rs|, |hs| - 1, k, l);
    if k > 0 {
      CompressedRowAt(v, w, hs[1..], rs, col, al, k - 1, l);
    }
  }

  lemma {:induction false} CompressedSize(v: VideoCodec, ws: seq<Dim>, hs: seq<Dim>, rs: seq<Rate>, col: Colorimetry, al: Alignment)
    ensures |CompressedProduct(v, ws, hs, rs, col, al)| == |ws| * (|hs| * |rs|)
  {
    if ws != [] {
      CompressedRowSize(v, ws[0], hs, rs, col, al);
      CompressedSize(v, ws[1..], hs, rs, col, al);
      SizeOf(|ws| - 1, |hs| * |rs|);
    }
  }

  /** `row` alternatives a width, of which `at` is the place of the other fields' choice. */
  lemma {:induction false} CompressedBlock(v: VideoCodec, ws: seq<Dim>, hs: seq<Dim>, rs: seq<Rate>, col: Colorimetry, al: Alignment,
                                           row: nat, j: nat, at: nat)
    requires j < |ws| && row == |hs| * |rs| && at < row
    ensures |CompressedRow(v, ws[j], hs, rs, col, al)| == row
    ensures j * row + at < |CompressedProduct(v, ws, hs, rs, col, al)|
    ensures CompressedProduct(v, ws, hs, rs, col, al)[j * row + at] == CompressedRow(v, ws[j], hs, rs, col, al)[at]
    decreases |ws|
  {
    CompressedRowSize(v, ws[0], hs, rs, col, al);
    CompressedSize(v, ws[1..], hs, rs, col, al);
    BlockAt(CompressedRow(v, ws[0], hs, rs, col, al), CompressedProduct(v, ws[1..], hs, rs, col, al), row, |ws| - 1, j, at);
    if j > 0 {
      CompressedBlock(v, ws[1..], hs, rs, col, al, row, j - 1, at);
    }
  }

  /** Widths first, then heights, then rates. */
  lemma CompressedIsLexicographic(v: VideoCodec, ws: seq<Dim>, hs: seq<Dim>, rs: seq<Rate>, col: Colorimetry, al: Alignment,
                                  row: nat, j: nat, k: nat, l: nat, at: nat, place: nat)
    requires row == |hs| * |rs| && j < |ws| && k < |hs| && l < |rs|
    requires at == k * |rs| + l && place == j * row + at
    ensures |CompressedProduct(v, ws, hs, rs, col, al)| == |ws| * row
    ensures place < |CompressedProduct(v, ws, hs, rs, col, al)|
    ensures CompressedProduct(v, ws, hs, rs, col, al)[place] == CompressedVideo(v, ws[j], hs[k], rs[l], col, al)
  {
    CompressedSize(v, ws, hs, rs, col, al);
    CompressedRowSize(v, ws[j], hs, rs, col, al);
    CompressedRowAt(v, ws[j], hs, rs, col, al, k, l);
    CompressedBlock(v, ws, hs, rs, col, al, row, j, at);
  }

  lemma {:induction false} AudioCellAt(f: AudioFormat, ch: u8, srs: seq<u32>, lay: ChannelLayout)
    ensures |AudioCell(f, ch, srs, lay)| == |srs|
    ensures forall l :: 0 <= l < |srs| ==> AudioCell(f, ch, srs, lay)[l] == Audio(f, ch, srs[l], lay)
  {
    if srs != [] {
      AudioCellAt(f, ch, srs[1..], lay);
    }
  }

  lemma {:induction false} AudioRowSize(f: AudioFormat, chs: seq<u8>, srs: seq<u32>, lay: ChannelLayout)
    ensures |AudioRow(f, chs, srs, lay)| == |chs| * |srs|
  {
    if chs != [] {
      AudioCellAt(f, chs[0], srs, lay);
      AudioRowSize(f, chs[1..], srs, lay);
      SizeOf(|chs| - 1, |srs|);
    }
  }

  lemma {:induction false} AudioRowAt(f: AudioFormat, chs: seq<u8>, srs: seq<u32>, lay: ChannelLayout, k: nat, l: nat)
    requires k < |chs| && l < |srs|
    ensures k * |srs| + l < |AudioRow(f, chs, srs, lay)|
    ensures AudioRow(f, chs, srs, lay)[k * |srs| + l] == Audio(f, chs[k], srs[l], lay)
    decreases |chs|
  {
    AudioCellAt(f, chs[0], srs, lay);
    AudioRowSize(f, chs[1..], srs, lay);
    BlockAt(AudioCell(f, chs[0], srs, lay), AudioRow(f, chs[1..], srs, lay), |srs|, |chs| - 1, k, l);
    if k > 0 {
      AudioRowAt(f, chs[1..], srs, lay, k - 1, l);
    }
  }

  lemma {:induction false} AudioSize(fs: seq<AudioFormat>, chs: seq<u8>, srs: seq<u32>, lay: ChannelLayout)
    ensures |AudioProduct(fs, chs, srs, lay)| == |fs| * (|chs| * |srs|)
  {
    if fs != [] {
      AudioRowSize(fs[0], chs, srs, lay);
      AudioSize(fs[1..], chs, srs, lay);
      SizeOf(|fs| - 1, |chs| * |srs|);
    }
  }

  /** `row` alternatives a format, of which `at` is the place of the other fields' choice. */
  lemma {:induction false} AudioBlock(fs: seq<AudioFormat>, chs: seq<u8>, srs: seq<u32>, lay: ChannelLayout, row: nat, j: nat, at: nat)
    requires j < |fs| && row == |chs| * |srs| && at < row
    ensures |AudioRow(fs[j], chs, srs, lay)| == row
    ensures j * row + at < |AudioProduct(fs, chs, srs, lay)|
    ensures AudioProduct(fs, chs, srs, lay)[j * row + at] == AudioRow(fs[j], chs, srs, lay)[at]
    decreases |fs|
  {
    AudioRowSize(fs[0], chs, srs, lay);
    AudioSize(fs[1..], chs, srs, lay);
    BlockAt(AudioRow(fs[0], chs, srs, lay), AudioProduct(fs[1..], chs, srs, lay), row, |fs| - 1, j, at);
    if j > 0 {
      AudioBlock(fs[1..], chs, srs, lay, row, j - 1, at);
    }
  }

  /** Formats first, then channel counts, then sample rates. */
  lemma AudioIsLexicographic(fs: seq<AudioFormat>, chs: seq<u8>, srs: seq<u32>, lay: ChannelLayout,
                             row: nat, j: nat, k: nat, l: nat, at: nat, place: nat)
    requires row == |chs| * |srs| && j < |fs| && k < |chs| && l < |srs|
    requires at == k * |srs| + l && place == j * row + at
    ensures |AudioProduct(fs, chs, srs, lay)| == |fs| * row
    ensures place < |AudioProduct(fs, chs, srs, lay)|
    ensures AudioProduct(fs, chs, srs, lay)[place] == Audio(fs[j], chs[k], srs[l], lay)
  {
    AudioSize(fs, chs, srs, lay);
    AudioRowSize(fs[j], chs, srs, lay);
    AudioRowAt(fs[j], chs, srs, lay, k, l);
    AudioBlock(fs, chs, srs, lay, row, j, at);
  }

  // ----- what the alternatives accept -----

  predicate AnyDim(ds: seq<Dim>, d: Dim) {
    exists i :: 0 <= i < |ds| && IntersectDim(ds[i], d).Some?
  }

  predicate AnyRate(rs: seq<Rate>, r: Rate) {
    exists i :: 0 <= i < |rs| && IntersectRate(rs[i], r).Some?
  }

  predicate AnyChannels(chs: seq<u8>, ch: u8) {
    exists i :: 0 <= i < |chs| && IntersectChannels(chs[i], ch).Some?
  }

  predicate AnySampleRate(srs: seq<u32>, sr: u32) {
    exists i :: 0 <= i < |srs| && IntersectSampleRate(srs[i], sr).Some?
  }

  lemma AcceptsMember(s: CapsSet, a: Caps, c: Caps)
    requires a in s && Intersect(a, c).Some?
    ensures Accepts(s, c)
  {
    var i :| 0 <= i < |s| && s[i] == a;
  }

  lemma {:induction false} CellMembers(f: RawVideoFormat, w: Dim, h: Dim, rs: seq<Rate>, il: Interlace, col: Colorimetry, a: Caps)
    ensures a in RawCell(f, w, h, rs, il, col)
       <==> (a.RawVideo? && a.format == f && a.width == w && a.height == h && a.framerate in rs && a.interlace == il
             && a.colorimetry == col)
  {
    if rs != [] {
      CellMembers(f, w, h, rs[1..], il, col, a);
      assert rs == [rs[0]] + rs[1..];
    }
  }

  lemma {:induction false} RowMembers(f: RawVideoFormat, w: Dim, hs: seq<Dim>, rs: seq<Rate>, il: Interlace, col: Colorimetry, a: Caps)
    ensures a in RawRow(f, w, hs, rs, il, col)
       <==> (a.RawVideo? && a.format == f && a.width == w && a.height in hs && a.framerate in rs && a.interlace == il
             && a.colorimetry == col)
  {
    if hs != [] {
      CellMembers(f, w, hs[0], rs, il, col, a);
      RowMembers(f, w, hs[1..], rs, il, col, a);
      assert hs == [hs[0]] + hs[1..];
    }
  }

  lemma {:induction false} PlaneMembers(f: RawVideoFormat, ws: seq<Dim>, hs: seq<Dim>, rs: seq<Rate>, il: Interlace, col: Colorimetry, a: Caps)
    ensures a in RawPlane(f, ws, hs, rs, il, col)
       <==> (a.RawVideo? && a.format == f && a.width in ws && a.height in hs && a.framerate in rs && a.interlace == il
             && a.colorimetry == col)
  {
    if ws != [] {
      RowMembers(f, ws[0], hs, rs, il, col, a);
      PlaneMembers(f, ws[1..], hs, rs, il, col, a);
      assert ws == [ws[0]] + ws[1..];
    }
  }

  /** The product is the product: every combination and nothing else. */
  lemma {:induction false} RawMembers(fs: seq<RawVideoFormat>, ws: seq<Dim>, hs: seq<Dim>, rs: seq<Rate>,
                                      il: Interlace, col: Colorimetry, a: Caps)
    ensures a in RawProduct(fs, ws, hs, rs, il, col)
       <==> (a.RawVideo? && a.format in fs && a.width in ws && a.height in hs && a.framerate in rs && a.interlace == il
             && a.colorimetry == col)
  {
    if fs != [] {
      PlaneMembers(fs[0], ws, hs, rs, il, col, a);
      RawMembers(fs[1..], ws, hs, rs, il, col, a);
      assert fs == [fs[0]] + fs[1..];
    }
  }

  /** Field by field, the alternatives leave room for the caps. */
  ghost predicate RawFieldsAllow(fs: seq<RawVideoFormat>, ws: seq<Dim>, hs: seq<Dim>, rs: seq<Rate>, il: Interlace, col: Colorimetry,
                                 c: Caps)
    requires c.RawVideo?
  {
    && c.format in fs && AnyDim(ws, c.width) && AnyDim(hs, c.height) && AnyRate(rs, c.framerate)
    && IntersectInterlace(il, c.interlace).Some? && IntersectColorimetry(col, c.colorimetry).Some?
  }

  lemma RawAccepted(fs: seq<RawVideoFormat>, ws: seq<Dim>, hs: seq<Dim>, rs: seq<Rate>, il: Interlace, col: Colorimetry, c: Caps)
    requires c.RawVideo? && RawFieldsAllow(fs, ws, hs, rs, il, col, c)
    ensures Accepts(RawProduct(fs, ws, hs, rs, il, col), c)
  {
    var j :| 0 <= j < |ws| && IntersectDim(ws[j], c.width).Some?;
    var k :| 0 <= k < |hs| && IntersectDim(hs[k], c.height).Some?;
    var l :| 0 <= l < |rs| && IntersectRate(rs[l], c.framerate).Some?;
    var a := RawVideo(c.format, ws[j], hs[k], rs[l], il, col);
    RawMembers(fs, ws, hs, rs, il, col, a);
    AcceptsMember(RawProduct(fs, ws, hs, rs, il, col), a, c);
  }

  /** A product of raw video alternatives accepts a caps exactly when each field does. */
  lemma RawAccepts(fs: seq<RawVideoFormat>, ws: seq<Dim>, hs: seq<Dim>, rs: seq<Rate>, il: Interlace, col: Colorimetry, c: Caps)
    requires c.RawVideo?
    ensures Accepts(RawProduct(fs, ws, hs, rs, il, col), c) <==> RawFieldsAllow(fs, ws, hs, rs, il, col, c)
  {
    var s := RawProduct(fs, ws, hs, rs, il, col);
    if Accepts(s, c) {
      var i :| 0 <= i < |s| && Intersect(s[i], c).Some?;
      RawMembers(fs, ws, hs, rs, il, col, s[i]);
    }
    if RawFieldsAllow(fs, ws, hs, rs, il, col, c) {
      RawAccepted(fs, ws, hs, rs, il, col, c);
    }
  }

  lemma {:induction false} CompressedCellMembers(v: VideoCodec, w: Dim, h: Dim, rs: seq<Rate>, col: Colorimetry, al: Alignment, a: Caps)
    ensures a in CompressedCell(v, w, h, rs, col, al)
       <==> (a.CompressedVideo? && a.codec == v && a.width == w && a.height == h && a.framerate in rs
             && a.colorimetry == col && a.alignment == al)
  {
    if rs != [] {
      CompressedCellMembers(v, w, h, rs[1..], col, al, a);
      assert rs == [rs[0]] + rs[1..];
    }
  }

  lemma {:induction false} CompressedRowMembers(v: VideoCodec, w: Dim, hs: seq<Dim>, rs: seq<Rate>, col: Colorimetry, al: Alignment, a: Caps)
    ensures a in CompressedRow(v, w, hs, rs, col, al)
       <==> (a.CompressedVideo? && a.codec == v && a.width == w && a.height in hs && a.framerate in rs
             && a.colorimetry == col && a.alignment == al)
  {
    if hs != [] {
      CompressedCellMembers(v, w, hs[0], rs, col, al, a);
      CompressedRowMembers(v, w, hs[1..], rs, col, al, a);
      assert hs == [hs[0]] + hs[1..];
    }
  }

  lemma {:induction false} CompressedMembers(v: VideoCodec, ws: seq<Dim>, hs: seq<Dim>, rs: seq<Rate>, col: Colorimetry, al: Alignment, a: Caps)
    ensures a in CompressedProduct(v, ws, hs, rs, col, al)
       <==> (a.CompressedVideo? && a.codec == v && a.width in ws && a.height in hs && a.framerate in rs
             && a.colorimetry == col && a.alignment == al)
  {
    if ws != [] {
      CompressedRowMembers(v, ws[0], hs, rs, col, al, a);
      CompressedMembers(v, ws[1..], hs, rs, col, al, a);
      assert ws == [ws[0]] + ws[1..];
    }
  }

  lemma CompressedAccepts(v: VideoCodec, ws: seq<Dim>, hs: seq<Dim>, rs: seq<Rate>, col: Colorimetry, al: Alignment, c: Caps)
    requires c.CompressedVideo?
    ensures Accepts(CompressedProduct(v, ws, hs, rs, col, al), c)
       <==> (c.codec == v && AnyDim(ws, c.width) && AnyDim(hs, c.height) && AnyRate(rs, c.framerate)
             && IntersectColorimetry(col, c.colorimetry).Some? && IntersectAlignment(al, c.alignment).Some?)
  {
    var s := CompressedProduct(v, ws, hs, rs, col, al);
    if Accepts(s, c) {
      var i :| 0 <= i < |s| && Intersect(s[i], c).Some?;
      CompressedMembers(v, ws, hs, rs, col, al, s[i]);
    }
    if c.codec == v && AnyDim(ws, c.width) && AnyDim(hs, c.height) && AnyRate(rs, c.framerate)
       && IntersectColorimetry(col, c.colorimetry).Some? && IntersectAlignment(al, c.alignment).Some? {
      var j :| 0 <= j < |ws| && IntersectDim(ws[j], c.width).Some?;
      var k :| 0 <= k < |hs| && IntersectDim(hs[k], c.height).Some?;
      var l :| 0 <= l < |rs| && IntersectRate(rs[l], c.framerate).Some?;
      var a := CompressedVideo(v, ws[j], hs[k], rs[l], col, al);
      CompressedMembers(v, ws, hs, rs, col, al, a);
      AcceptsMember(s, a, c);
    }
  }

  lemma {:induction false} AudioCellMembers(f: AudioFormat, ch: u8, srs: seq<u32>, lay: ChannelLayout, a: Caps)
    ensures a in AudioCell(f, ch, srs, lay)
       <==> (a.Audio? && a.audioFormat == f && a.channels == ch && a.sampleRate in srs && a.layout == lay)
  {
    if srs != [] {
      AudioCellMembers(f, ch, srs[1..], lay, a);
      assert srs == [srs[0]] + srs[1..];
    }
  }

  lemma {:induction false} AudioRowMembers(f: AudioFormat, chs: seq<u8>, srs: seq<u32>, lay: ChannelLayout, a: Caps)
    ensures a in AudioRow(f, chs, srs, lay)
       <==> (a.Audio? && a.audioFormat == f && a.channels in chs && a.sampleRate in srs && a.layout == lay)
  {
    if chs != [] {
      AudioCellMembers(f, chs[0], srs, lay, a);
      AudioRowMembers(f, chs[1..], srs, lay, a);
      assert chs == [chs[0]] + chs[1..];
    }
  }

  lemma {:induction false} AudioMembers(fs: seq<AudioFormat>, chs: seq<u8>, srs: seq<u32>, lay: ChannelLayout, a: Caps)
    ensures a in AudioProduct(fs, chs, srs, lay)
       <==> (a.Audio? && a.audioFormat in fs && a.channels in chs && a.sampleRate in srs && a.layout == lay)
  {
    if fs != [] {
      AudioRowMembers(fs[0], chs, srs, lay, a);
      AudioMembers(fs[1..], chs, srs, lay, a);
      assert fs == [fs[0]] + fs[1..];
    }
  }

  lemma AudioAccepts(fs: seq<AudioFormat>, chs: seq<u8>, srs: seq<u32>, lay: ChannelLayout, c: Caps)
    requires c.Audio?
    ensures Accepts(AudioProduct(fs, chs, srs, lay), c)
       <==> (c.audioFormat in fs && AnyChannels(chs, c.channels) && AnySampleRate(srs, c.sampleRate)
             && IntersectLayout(lay, c.layout).Some?)
  {
    var s := AudioProduct(fs, chs, srs, lay);
    if Accepts(s, c) {
      var i :| 0 <= i < |s| && Intersect(s[i], c).Some?;
      AudioMembers(fs, chs, srs, lay, s[i]);
    }
    if c.audioFormat in fs && AnyChannels(chs, c.channels) && AnySampleRate(srs, c.sampleRate)
       && IntersectLayout(lay, c.layout).Some? {
      var k :| 0 <= k < |chs| && IntersectChannels(chs[k], c.channels).Some?;
      var l :| 0 <= l < |srs| && IntersectSampleRate(srs[l], c.sampleRate).Some?;
      var a := Audio(c.audioFormat, chs[k], srs[l], lay);
      AudioMembers(fs, chs, srs, lay, a);
      AcceptsMember(s, a, c);
    }
  }
}
