/** The strip decoder over the raster, and the decoding of a whole image: fuji_decode_strip and
    fuji_decode_loop, run one strip after the other. */
module FujiDecoder {
  import opened Bits
  import opened FujiCodec
  import opened FujiWindow
  import opened FujiSchedule
  import opened FujiPlanes
  import opened FujiStrip
  import opened FujiRaster
  import opened FujiImage
  import opened FujiReader
  import opened FujiBlock

  /** Row and column of a raster index. */
  function RowIx(i: nat, rawWidth: nat): nat
    requires rawWidth > 0
  {
    DivNonNegative(i, rawWidth);
    i / rawWidth
  }

  function ColIx(i: nat, rawWidth: nat): nat
    requires rawWidth > 0
  {
    i % rawWidth
  }

  lemma IndexIs(row: nat, col: nat, rawWidth: nat)
    requires col < rawWidth
    ensures RowIx(row * rawWidth + col, rawWidth) == row && ColIx(row * rawWidth + col, rawWidth) == col
  {
    DivUnique(row * rawWidth + col, rawWidth, row, col);
  }

  lemma IndexOf(i: nat, rawWidth: nat)
    requires rawWidth > 0
    ensures i == RowIx(i, rawWidth) * rawWidth + ColIx(i, rawWidth) && ColIx(i, rawWidth) < rawWidth
  {
  }

  /** Line buffers that hold a whole line for every colour. */
  predicate Buffers(p: Params, lines: seq<seq<int>>) {
    |lines| == LINES && forall l :: 0 <= l < LINES ==> |lines[l]| == p.lineWidth + 2
  }

  predicate ColsOk(p: Params, width: nat) {
    forall c :: 0 <= c < width ==> PixelIndex(p, c) < p.lineWidth
  }

  /** `after` is `before` with the first `rows` rows and then `cols` columns of a group painted
      at (y0, x0). */
  ghost predicate Painted(p: Params, cfa: Cfa, lines: seq<seq<int>>, before: seq<int>, after: seq<int>,
                          rawWidth: nat, x0: nat, y0: nat, width: nat, rows: nat, cols: nat)
    requires CfaShape(p, cfa) && Buffers(p, lines) && ColsOk(p, width) && rawWidth > 0 && rows <= 6
  {
    |after| == |before| && forall i :: 0 <= i < |after| ==>
      after[i] ==
      var r, c := RowIx(i, rawWidth) - y0, ColIx(i, rawWidth) - x0;
      if 0 <= c < width && 0 <= r < 6 && (r < rows || (r == rows && c < cols)) then PixelOf(p, cfa, lines, r, c) else before[i]
  }

  lemma PaintOne(p: Params, cfa: Cfa, lines: seq<seq<int>>, before: seq<int>, after: seq<int>,
                 rawWidth: nat, x0: nat, y0: nat, width: nat, r: nat, c: nat)
    requires CfaShape(p, cfa) && Buffers(p, lines) && ColsOk(p, width) && r < 6 && c < width && x0 + width <= rawWidth
    requires Painted(p, cfa, lines, before, after, rawWidth, x0, y0, width, r, c)
    requires 0 <= (y0 + r) * rawWidth + (x0 + c) < |after|
    ensures Painted(p, cfa, lines, before, after[(y0 + r) * rawWidth + (x0 + c) := PixelOf(p, cfa, lines, r, c)],
                    rawWidth, x0, y0, width, r, c + 1)
  {
    hide PixelOf, RowIx, ColIx, PixelIndex, PixelLine;
    var k := (y0 + r) * rawWidth + (x0 + c);
    IndexIs(y0 + r, x0 + c, rawWidth);
    forall i | 0 <= i < |after| && i != k
      ensures !(RowIx(i, rawWidth) == y0 + r && ColIx(i, rawWidth) == x0 + c)
    {
      IndexOf(i, rawWidth);
    }
  }

  lemma PaintRow(p: Params, cfa: Cfa, lines: seq<seq<int>>, before: seq<int>, after: seq<int>,
                 rawWidth: nat, x0: nat, y0: nat, width: nat, r: nat)
    requires CfaShape(p, cfa) && Buffers(p, lines) && ColsOk(p, width) && r < 6 && rawWidth > 0
    requires Painted(p, cfa, lines, before, after, rawWidth, x0, y0, width, r, width)
    ensures Painted(p, cfa, lines, before, after, rawWidth, x0, y0, width, r + 1, 0)
  {
    hide PixelOf, RowIx, ColIx, PixelIndex, PixelLine;
  }

  lemma PaintNothing(p: Params, cfa: Cfa, lines: seq<seq<int>>, before: seq<int>, rawWidth: nat, x0: nat, y0: nat, width: nat)
    requires CfaShape(p, cfa) && Buffers(p, lines) && ColsOk(p, width) && rawWidth > 0
    ensures Painted(p, cfa, lines, before, before, rawWidth, x0, y0, width, 0, 0)
  {
    hide PixelOf, RowIx, ColIx, PixelIndex, PixelLine;
  }

  /** copy_line_to_xtrans and copy_line_to_bayer: they differ in the colour array and in the
      sample index, which PixelLine and PixelIndex tell apart. */
  method CopyToRaster(b: FujiBlock, raw: array<int>, rawWidth: nat, rawHeight: nat, cfa: Cfa, x0: nat, curLine: nat, width: nat)
    requires b.Laid() && CfaShape(b.p, cfa) && ColsOk(b.p, width) && raw != b.linealloc
    requires x0 + width <= rawWidth && 0 < width && 6 * curLine + 6 <= rawHeight && raw.Length == rawWidth * rawHeight
    modifies raw
    ensures Buffers(b.p, b.View().lines)
    ensures Painted(b.p, cfa, b.View().lines, old(raw[..]), raw[..], rawWidth, x0, 6 * curLine, width, 6, 0)
  {
    hide PixelIndex, PixelLine, PixelOf, RowIx, ColIx, ColsOk, Painted;
    ghost var lines := b.View().lines;
    var w := b.p.lineWidth + 2;
    var rawBlockData := x0 + 6 * rawWidth * curLine;
    var rowCount := 0;
    assert 6 * rawWidth * curLine == (6 * curLine) * rawWidth;
    PaintNothing(b.p, cfa, lines, raw[..], rawWidth, x0, 6 * curLine, width);
    while rowCount < 6
      invariant 0 <= rowCount <= 6
      invariant rawBlockData == (6 * curLine + rowCount) * rawWidth + x0
      invariant b.View().lines == lines
      invariant Painted(b.p, cfa, lines, old(raw[..]), raw[..], rawWidth, x0, 6 * curLine, width, rowCount, 0)
    {
      var pixelCount := 0;
      while pixelCount < width
        invariant 0 <= pixelCount <= width
        invariant b.View().lines == lines
        invariant Painted(b.p, cfa, lines, old(raw[..]), raw[..], rawWidth, x0, 6 * curLine, width, rowCount, pixelCount)
      {
        PaintTarget(rawWidth, rawHeight, 6 * curLine + rowCount, x0 + pixelCount);
        ColsOkAt(b.p, width, pixelCount);
        var line := PixelLine(b.p, cfa, rowCount, pixelCount);
        var index := PixelIndex(b.p, pixelCount);
        b.Reads(line, index + 1);
        PixelOfIs(b.p, cfa, lines, rowCount, pixelCount);
        PaintOne(b.p, cfa, lines, old(raw[..]), raw[..], rawWidth, x0, 6 * curLine, width, rowCount, pixelCount);
        ghost var was := raw[..];
        raw[rawBlockData + pixelCount] := b.linealloc[line * w + (index + 1)];
        assert raw[..] == was[(6 * curLine + rowCount) * rawWidth + (x0 + pixelCount) := PixelOf(b.p, cfa, lines, rowCount, pixelCount)];
        pixelCount := pixelCount + 1;
      }
      PaintRow(b.p, cfa, lines, old(raw[..]), raw[..], rawWidth, x0, 6 * curLine, width, rowCount);
      assert (6 * curLine + rowCount + 1) * rawWidth == (6 * curLine + rowCount) * rawWidth + rawWidth;
      rowCount := rowCount + 1;
      rawBlockData := rawBlockData + rawWidth;
    }
  }

  lemma PaintTarget(rawWidth: nat, rawHeight: nat, row: nat, col: nat)
    requires row < rawHeight && col < rawWidth
    ensures 0 <= row * rawWidth + col < rawWidth * rawHeight
  {
    MulStep(row, rawHeight, rawWidth);
  }

  lemma ColsOkAt(p: Params, width: nat, c: nat)
    requires ColsOk(p, width) && c < width
    ensures PixelIndex(p, c) < p.lineWidth
  {
  }

  lemma PixelOfIs(p: Params, cfa: Cfa, lines: seq<seq<int>>, r: nat, c: nat)
    requires CfaShape(p, cfa) && r < 6 && Buffers(p, lines) && PixelIndex(p, c) < p.lineWidth
    ensures PixelOf(p, cfa, lines, r, c) == lines[PixelLine(p, cfa, r, c)][PixelIndex(p, c) + 1]
  {
  }

  // ---------------------------------------------------------------- a strip

  predicate AllBuffers(p: Params, groups: seq<seq<seq<int>>>) {
    forall g :: 0 <= g < |groups| ==> Buffers(p, groups[g])
  }

  /** The raster after a strip: its columns hold the groups' pixels, the rest is untouched. */
  ghost predicate StripPainted(p: Params, cfa: Cfa, groups: seq<seq<seq<int>>>, before: seq<int>, after: seq<int>,
                               rawWidth: nat, x0: nat, width: nat)
    requires CfaShape(p, cfa) && AllBuffers(p, groups) && ColsOk(p, width) && rawWidth > 0
  {
    |after| == |before| && forall i :: 0 <= i < |after| ==>
      after[i] ==
      var r, c := RowIx(i, rawWidth), ColIx(i, rawWidth) - x0;
      if 0 <= c < width && r < 6 * |groups| then PixelOf(p, cfa, groups[r / 6], r % 6, c) else before[i]
  }

  lemma PaintGroup(p: Params, cfa: Cfa, groups: seq<seq<seq<int>>>, lines: seq<seq<int>>, before: seq<int>, mid: seq<int>,
                   after: seq<int>, rawWidth: nat, x0: nat, width: nat)
    requires CfaShape(p, cfa) && AllBuffers(p, groups) && Buffers(p, lines) && ColsOk(p, width) && rawWidth > 0
    requires StripPainted(p, cfa, groups, before, mid, rawWidth, x0, width)
    requires Painted(p, cfa, lines, mid, after, rawWidth, x0, 6 * |groups|, width, 6, 0)
    ensures AllBuffers(p, groups + [lines])
    ensures StripPainted(p, cfa, groups + [lines], before, after, rawWidth, x0, width)
  {
    hide PixelOf, RowIx, ColIx, PixelIndex, PixelLine;
    forall i | 0 <= i < |after|
      ensures after[i] ==
              var r, c := RowIx(i, rawWidth), ColIx(i, rawWidth) - x0;
              if 0 <= c < width && r < 6 * |groups + [lines]| then PixelOf(p, cfa, (groups + [lines])[r / 6], r % 6, c) else before[i]
    {
      var r := RowIx(i, rawWidth);
      if 6 * |groups| <= r < 6 * |groups| + 6 { assert r / 6 == |groups| && r % 6 == r - 6 * |groups|; }
    }
  }

  /** The carried lines are not among those that are copied out. */
  lemma PaintCarried(p: Params, cfa: Cfa, lines: seq<seq<int>>, before: seq<int>, after: seq<int>, rawWidth: nat, x0: nat, y0: nat, width: nat)
    requires CfaShape(p, cfa) && Buffers(p, lines) && ColsOk(p, width) && rawWidth > 0
    requires Buffers(p, Carried(lines)) && Painted(p, cfa, Carried(lines), before, after, rawWidth, x0, y0, width, 6, 0)
    ensures Painted(p, cfa, lines, before, after, rawWidth, x0, y0, width, 6, 0)
  {
    hide RowIx, ColIx, PixelIndex, Carried;
    forall r, c | 0 <= r < 6 && 0 <= c < width
      ensures PixelOf(p, cfa, Carried(lines), r, c) == PixelOf(p, cfa, lines, r, c)
    {
      ColsOkAt(p, width, c);
      KeptLine(p, cfa, lines, r, c);
    }
  }

  lemma KeptLine(p: Params, cfa: Cfa, lines: seq<seq<int>>, r: nat, c: nat)
    requires CfaShape(p, cfa) && |lines| == LINES && r < 6
    ensures Carried(lines)[PixelLine(p, cfa, r, c)] == lines[PixelLine(p, cfa, r, c)]
  {
  }

  /** Groups already decoded in front of those still to come. */
  function AfterGroups(groups: seq<seq<seq<int>>>, errors: nat, o: Option<StripOutcome>): Option<StripOutcome> {
    match o
    case None => None
    case Some(s) => Some(StripOutcome(groups + s.groups, s.rest, errors + s.errors))
  }

  lemma GroupsStep(p: Params, w: Window, count: nat, bits: seq<bool>, groups: seq<seq<seq<int>>>, errors: nat)
    requires p.lineWidth > 8 && Healthy(p, w) && count > 0 && DecodeGroups(p, w, count, bits).Some?
    ensures DecodeGroup(p, w, bits).Some?
    ensures var o := DecodeGroup(p, w, bits).value;
            && Healthy(p, o.window) && DecodeGroups(p, Turned(p, o.window), count - 1, o.rest).Some?
            && AfterGroups(groups, errors, DecodeGroups(p, w, count, bits)) ==
               AfterGroups(groups + [o.window.lines], errors + o.errors, DecodeGroups(p, Turned(p, o.window), count - 1, o.rest))
  {
    hide Healthy, Shape, DecodeGroup, Turned, SnapshotOk;
    var o := DecodeGroup(p, w, bits).value;
    var s := DecodeGroups(p, Turned(p, o.window), count - 1, o.rest).value;
    assert groups + ([o.window.lines] + s.groups) == (groups + [o.window.lines]) + s.groups;
  }

  lemma HealthyBuffers(p: Params, w: Window)
    requires Healthy(p, w)
    ensures Buffers(p, w.lines)
  {
  }

  /** fuji_decode_strip, once the block is set up. */
  method DecodeStrip(b: FujiBlock, raw: array<int>, rawWidth: nat, rawHeight: nat, cfa: Cfa, x0: nat, totalLines: nat, width: nat)
    returns (errcnt: nat, ghost groups: seq<seq<seq<int>>>)
    requires b.Valid() && CfaShape(b.p, cfa) && ColsOk(b.p, width)
    requires raw as object !in b.Repr() + {b.qTable}
    requires x0 + width <= rawWidth && 0 < width && 6 * totalLines <= rawHeight && raw.Length == rawWidth * rawHeight
    requires DecodeGroups(b.p, b.View(), totalLines, b.reader.Rest()).Some?
    modifies raw, b.reader, b.reader.curBuf, b.gradEven, b.gradOdd, b.linealloc
    ensures b.Valid()
    ensures DecodeGroups(b.p, old(b.View()), totalLines, old(b.reader.Rest())) == Some(StripOutcome(groups, b.reader.Rest(), errcnt))
    ensures AllBuffers(b.p, groups) && StripPainted(b.p, cfa, groups, old(raw[..]), raw[..], rawWidth, x0, width)
  {
    hide BitReader.Valid, BitReader.Rest, Healthy, LinesAt, DecodeGroups, DecodeGroup, Turned, Painted, ColsOk, CfaShape, Carried, Quant;
    errcnt, groups := 0, [];
    ghost var all := DecodeGroups(b.p, b.View(), totalLines, b.reader.Rest());
    var curLine := 0;
    FirstGroup(all);
    while curLine < totalLines
      invariant 0 <= curLine <= totalLines && b.Valid()
      invariant |groups| == curLine && AllBuffers(b.p, groups)
      invariant all == AfterGroups(groups, errcnt, DecodeGroups(b.p, b.View(), totalLines - curLine, b.reader.Rest()))
      invariant StripPainted(b.p, cfa, groups, old(raw[..]), raw[..], rawWidth, x0, width)
    {
      GroupsStep(b.p, b.View(), totalLines - curLine, b.reader.Rest(), groups, errcnt);
      var err := b.DecodeBlock();
      ghost var w := b.View();
      HealthyBuffers(b.p, w);
      b.CarryLines();
      ghost var mid := raw[..];
      CopyToRaster(b, raw, rawWidth, rawHeight, cfa, x0, curLine, width);
      PaintCarried(b.p, cfa, w.lines, mid, raw[..], rawWidth, x0, 6 * curLine, width);
      PaintGroup(b.p, cfa, groups, w.lines, old(raw[..]), mid, raw[..], rawWidth, x0, width);
      b.ClearForNext(w);
      groups := groups + [w.lines];
      errcnt := errcnt + err;
      curLine := curLine + 1;
    }
    NoGroups(b.p, b.View(), b.reader.Rest(), groups, errcnt);
  }

  lemma NoGroups(p: Params, w: Window, bits: seq<bool>, groups: seq<seq<seq<int>>>, errors: nat)
    requires p.lineWidth > 8 && Healthy(p, w)
    ensures AfterGroups(groups, errors, DecodeGroups(p, w, 0, bits)) == Some(StripOutcome(groups, bits, errors))
  {
    assert groups + [] == groups;
  }

  lemma FirstGroup(o: Option<StripOutcome>)
    ensures AfterGroups([], 0, o) == o
  {
    if o.Some? { assert [] + o.value.groups == o.value.groups; }
  }
}
