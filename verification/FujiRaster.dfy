/** Where raster pixels live in the line buffers, and how a strip of the raster becomes colour
    planes: every pixel of a proper colour filter array has a coded cell of its own. */
module FujiRaster {
  import opened Bits
  import opened FujiCodec
  import opened FujiWindow
  import opened FujiSchedule
  import opened FujiPlanes

  /** `fuji_bayer[2][2]` or `xtrans_abs[6][6]`: 0 red, 2 blue, anything else green. */
  type Cfa = seq<seq<int>>

  function Period(p: Params): nat { if p.xtrans then 6 else 2 }

  predicate CfaShape(p: Params, cfa: Cfa) {
    |cfa| == Period(p) && forall r :: 0 <= r < |cfa| ==> |cfa[r]| == Period(p)
  }

  /** The buffer copy_line_to_xtrans / copy_line_to_bayer takes pixel (r, c) of a group from. */
  function PixelLine(p: Params, cfa: Cfa, r: nat, c: nat): (l: nat)
    requires CfaShape(p, cfa) && r < 6
    ensures 2 <= l < LINES
  {
    var colour := cfa[r % Period(p)][c % Period(p)];
    if colour == 0 then 2 + r / 2 else if colour == 2 then 15 + r / 2 else 7 + r
  }

  /** And the sample position in it. */
  function PixelIndex(p: Params, c: nat): nat {
    if p.xtrans then c * 2 / 3 / 2 * 2 + c % 3 % 2 + c % 3 / 2 else c / 2
  }

  /** Widths as init_fuji_compr relates them; both filter arrays repeat within a block. */
  predicate WidthOk(p: Params, blockWidth: nat) {
    if p.xtrans then blockWidth % 3 == 0 && p.lineWidth == blockWidth * 2 / 3
    else blockWidth % 2 == 0 && p.lineWidth == blockWidth / 2
  }

  /** Every index the copies read is inside the line. */
  lemma IndexInLine(p: Params, blockWidth: nat, c: nat)
    requires WidthOk(p, blockWidth) && c < blockWidth
    ensures PixelIndex(p, c) < p.lineWidth
  {
    IndexByTriple(p, c);
  }

  lemma IndexByTriple(p: Params, c: nat)
    ensures p.xtrans ==> PixelIndex(p, c) == c / 3 * 2 + if c % 3 == 0 then 0 else 1
    ensures !p.xtrans ==> PixelIndex(p, c) == c / 2
  {
    var a, b := c / 3, c % 3;
    assert c == 3 * a + b;
    assert c * 2 / 3 == 2 * a + b * 2 / 3;
    assert c * 2 / 3 / 2 == a;
  }

  /** Two pixels of a group never share a cell, and every pixel's cell is a coded one. */
  ghost predicate CfaOk(p: Params, cfa: Cfa) {
    CfaShape(p, cfa)
    && (forall r, c :: 0 <= r < 6 && 0 <= c ==> IsCoded(p, PixelLine(p, cfa, r, c), PixelIndex(p, c)))
    && (forall r, c, r', c' :: 0 <= r < 6 && 0 <= r' < 6 && 0 <= c && 0 <= c' && (r != r' || c != c') ==>
          PixelLine(p, cfa, r, c) != PixelLine(p, cfa, r', c') || PixelIndex(p, c) != PixelIndex(p, c'))
  }

  /** The four Bayer phases: one green on each row, red on one row and blue on the other. */
  predicate IsBayer(cfa: Cfa) {
    && |cfa| == 2 && |cfa[0]| == 2 && |cfa[1]| == 2
    && (forall y :: 0 <= y < 2 ==> (cfa[y][0] in {1, 3}) != (cfa[y][1] in {1, 3}))
    && (multiset(cfa[0]) + multiset(cfa[1]))[0] == 1 && (multiset(cfa[0]) + multiset(cfa[1]))[2] == 1
  }

  lemma BayerOk(p: Params, cfa: Cfa)
    requires !p.xtrans && IsBayer(cfa)
    ensures CfaOk(p, cfa)
  {
    BayerColours(cfa);
    assert CfaShape(p, cfa);
    hide IsBayer;
    forall r, c, r', c' | 0 <= r < 6 && 0 <= r' < 6 && 0 <= c && 0 <= c' && (r != r' || c != c')
      ensures PixelLine(p, cfa, r, c) != PixelLine(p, cfa, r', c') || PixelIndex(p, c) != PixelIndex(p, c')
    {
      BayerApart(p, cfa, r, c, r', c');
    }
  }

  predicate IsGreen(v: int) { v != 0 && v != 2 }

  predicate Coloured(cfa: Cfa) {
    && |cfa| == 2 && |cfa[0]| == 2 && |cfa[1]| == 2
    && IsGreen(cfa[0][0]) != IsGreen(cfa[0][1]) && IsGreen(cfa[1][0]) != IsGreen(cfa[1][1])
    && OtherThanGreen(cfa[0]) != OtherThanGreen(cfa[1])
  }

  function OtherThanGreen(row: seq<int>): int
    requires |row| == 2
  {
    if IsGreen(row[0]) then row[1] else row[0]
  }

  lemma BayerColours(cfa: Cfa)
    requires IsBayer(cfa)
    ensures Coloured(cfa)
  {
    assert cfa[0] == [cfa[0][0], cfa[0][1]] && cfa[1] == [cfa[1][0], cfa[1][1]];
  }

  lemma BayerApart(p: Params, cfa: Cfa, r: nat, c: nat, r': nat, c': nat)
    requires !p.xtrans && Coloured(cfa) && CfaShape(p, cfa) && r < 6 && r' < 6 && (r != r' || c != c')
    ensures PixelLine(p, cfa, r, c) != PixelLine(p, cfa, r', c') || PixelIndex(p, c) != PixelIndex(p, c')
  {
    var v, v' := cfa[r % 2][c % 2], cfa[r' % 2][c' % 2];
    if r == r' && c / 2 == c' / 2 {
      assert IsGreen(v) != IsGreen(v');
    } else if r != r' && r / 2 == r' / 2 {
      assert IsGreen(v) || IsGreen(v') || v != v';
    }
  }

  /** The X-Trans array in the phase that the compressed format fixes. */
  const XTRANS: Cfa := [
    [1, 2, 1, 1, 0, 1],
    [1, 0, 1, 1, 2, 1],
    [2, 1, 2, 0, 1, 0],
    [1, 0, 1, 1, 2, 1],
    [1, 2, 1, 1, 0, 1],
    [0, 1, 0, 2, 1, 2]]

  /** Which pixel of the 6x6 tile owns sample `pos % 4` of a buffer: row * 6 + column, or 36
      for a sample that is interpolated. */
  const XTRANS_OWNER: seq<seq<nat>> := [
    [36, 36, 36, 36], [36, 36, 36, 36], [36, 7, 36, 4], [36, 19, 15, 17], [30, 32, 36, 28], [36, 36, 36,
    36], [36, 36, 36, 36], [0, 2, 3, 5], [6, 8, 9, 11], [36, 13, 36, 16], [18, 20, 21, 23], [24, 26, 27,
    29], [36, 31, 36, 34], [36, 36, 36, 36], [36, 36, 36, 36], [36, 1, 36, 10], [12, 14, 36, 22], [36,
    25, 33, 35]]

  /** `PixelIndex` within a tile of six pixels and four samples. */
  const TILE_INDEX: seq<nat> := [0, 1, 1, 2, 3, 3]

  lemma XTransIndex(p: Params, c: nat)
    requires p.xtrans
    ensures PixelIndex(p, c) / 4 == c / 6 && PixelIndex(p, c) % 4 == TILE_INDEX[c % 6]
  {
    IndexByTriple(p, c);
    hide PixelIndex;
    var q, d := c / 6, c % 6;
    assert c == 6 * q + d;
    assert c / 3 == 2 * q + d / 3 && c % 3 == d % 3;
    assert PixelIndex(p, c) == 4 * q + TILE_INDEX[d];
  }

  lemma CodedByTile(p: Params, l: nat, i: nat)
    ensures IsCoded(p, l, i) == IsCoded(p, l, i % 4)
  {
    assert i % 4 % 4 == i % 4 && i % 4 % 2 == i % 2;
  }

  lemma XTransTile(p: Params, r: nat, d: nat)
    requires p.xtrans && r < 6 && d < 6
    ensures var l, i := PixelLine(p, XTRANS, r, d), TILE_INDEX[d];
            XTRANS_OWNER[l][i] == 6 * r + d && IsCoded(p, l, i)
  {
    hide PixelLine, IsCoded;
    if r < 2 { UpperTile(p, r, d); } else if r < 4 { MiddleTile(p, r, d); } else { LowerTile(p, r, d); }
  }

  lemma UpperTile(p: Params, r: nat, d: nat)
    requires p.xtrans && r < 2 && d < 6
    ensures var l, i := PixelLine(p, XTRANS, r, d), TILE_INDEX[d];
            XTRANS_OWNER[l][i] == 6 * r + d && IsCoded(p, l, i)
  {
    if r == 0 {} else {}
  }

  lemma MiddleTile(p: Params, r: nat, d: nat)
    requires p.xtrans && 2 <= r < 4 && d < 6
    ensures var l, i := PixelLine(p, XTRANS, r, d), TILE_INDEX[d];
            XTRANS_OWNER[l][i] == 6 * r + d && IsCoded(p, l, i)
  {
    if r == 2 {} else {}
  }

  lemma LowerTile(p: Params, r: nat, d: nat)
    requires p.xtrans && 4 <= r < 6 && d < 6
    ensures var l, i := PixelLine(p, XTRANS, r, d), TILE_INDEX[d];
            XTRANS_OWNER[l][i] == 6 * r + d && IsCoded(p, l, i)
  {
    if r == 4 {} else {}
  }

  lemma LineByTile(p: Params, r: nat, c: nat)
    requires p.xtrans && r < 6
    ensures PixelLine(p, XTRANS, r, c) == PixelLine(p, XTRANS, r, c % 6)
  {
  }

  lemma XTransCell(p: Params, r: nat, c: nat)
    requires p.xtrans && r < 6
    ensures var l, i := PixelLine(p, XTRANS, r, c), PixelIndex(p, c);
            XTRANS_OWNER[l][i % 4] == 6 * r + c % 6 && i / 4 == c / 6 && IsCoded(p, l, i)
  {
    hide PixelLine, PixelIndex, IsCoded;
    XTransIndex(p, c);
    XTransTile(p, r, c % 6);
    LineByTile(p, r, c);
    CodedByTile(p, PixelLine(p, XTRANS, r, c), PixelIndex(p, c));
  }

  lemma XTransOk(p: Params)
    requires p.xtrans
    ensures CfaOk(p, XTRANS)
  {
    hide PixelLine, PixelIndex, IsCoded;
    forall r, c | 0 <= r < 6 && 0 <= c ensures IsCoded(p, PixelLine(p, XTRANS, r, c), PixelIndex(p, c)) {
      XTransCell(p, r, c);
    }
    forall r, c, r', c' | 0 <= r < 6 && 0 <= r' < 6 && 0 <= c && 0 <= c' && (r != r' || c != c')
      ensures PixelLine(p, XTRANS, r, c) != PixelLine(p, XTRANS, r', c') || PixelIndex(p, c) != PixelIndex(p, c')
    {
      XTransCell(p, r, c);
      XTransCell(p, r', c');
    }
  }

  // ---------------------------------------------------------------- from raster to planes

  /** The raster of a strip: six rows a group, at most a block wide, samples in range. */
  ghost predicate StripOk(p: Params, blockWidth: nat, n: nat, width: nat, image: seq<seq<int>>) {
    && p.lineWidth > 8 && WidthOk(p, blockWidth) && width <= blockWidth
    && |image| == 6 * n
    && forall r :: 0 <= r < |image| ==> |image[r]| == width && InRange(p.depth, image[r])
  }

  /** The raster sample that belongs in a cell, 0 where no pixel does. */
  ghost function CellSource(p: Params, cfa: Cfa, n: nat, width: nat, image: seq<seq<int>>, g: nat, line: nat, i: nat): (x: int)
    requires CfaShape(p, cfa) && |image| == 6 * n && g < n
    requires forall r :: 0 <= r < |image| ==> |image[r]| == width
    ensures x == 0 || exists r, c :: 0 <= r < 6 && 0 <= c < width && PixelLine(p, cfa, r, c) == line
                                     && PixelIndex(p, c) == i && x == image[6 * g + r][c]
  {
    if r, c :| 0 <= r < 6 && 0 <= c < width && PixelLine(p, cfa, r, c) == line && PixelIndex(p, c) == i
    then image[6 * g + r][c] else 0
  }

  lemma CellSourceIs(p: Params, cfa: Cfa, n: nat, width: nat, image: seq<seq<int>>, g: nat, r: nat, c: nat)
    requires CfaOk(p, cfa) && |image| == 6 * n && g < n && r < 6 && c < width
    requires forall r :: 0 <= r < |image| ==> |image[r]| == width
    ensures CellSource(p, cfa, n, width, image, g, PixelLine(p, cfa, r, c), PixelIndex(p, c)) == image[6 * g + r][c]
  {
    hide PixelLine, PixelIndex, IsCoded;
  }

  lemma CellSourceInRange(p: Params, cfa: Cfa, blockWidth: nat, n: nat, width: nat, image: seq<seq<int>>, g: nat, line: nat, i: nat)
    requires CfaShape(p, cfa) && StripOk(p, blockWidth, n, width, image) && g < n
    ensures 0 <= CellSource(p, cfa, n, width, image, g, line, i) <= p.depth.QMax()
  {
    hide PixelLine, PixelIndex, InRange;
    var x := CellSource(p, cfa, n, width, image, g, line, i);
    if x != 0 {
      var r, c :| 0 <= r < 6 && 0 <= c < width && PixelLine(p, cfa, r, c) == line && PixelIndex(p, c) == i && x == image[6 * g + r][c];
      CellInRange(p.depth, image[6 * g + r], c);
    }
  }

  /** The buffer a plane row is decoded in. */
  function LineOf(c: nat, row: nat): (l: nat)
    requires c < 3
    ensures 2 <= l < LINES
  {
    Base(c) + 2 + row % PerGroup(c)
  }

  lemma RowOfIs(g: nat, line: nat)
    requires line < LINES && Rank(line) >= 0
    ensures 0 <= RowOf(g, line) && LineOf(Colour(line), RowOf(g, line)) == line && RowOf(g, line) / PerGroup(Colour(line)) == g
  {
    var k := PerGroup(Colour(line));
    DivUnique(RowOf(g, line), k, g, line - Base(Colour(line)) - 2);
  }

  predicate RowsOk(p: Params, rows: seq<seq<int>>) {
    forall r :: 0 <= r < |rows| ==> |rows[r]| == p.lineWidth && InRange(p.depth, rows[r])
  }

  /** The next row of a plane: coded samples from the raster, the others interpolated. */
  ghost function NextRow(p: Params, cfa: Cfa, n: nat, width: nat, image: seq<seq<int>>, c: nat, prev: seq<seq<int>>): (r: seq<int>)
    requires CfaShape(p, cfa) && |image| == 6 * n && c < 3 && |prev| < PerGroup(c) * n && RowsOk(p, prev) && p.lineWidth > 0
    requires forall r :: 0 <= r < |image| ==> |image[r]| == width
    ensures |r| == p.lineWidth
  {
    var row := |prev|;
    var g := row / PerGroup(c);
    GroupBelow(row, PerGroup(c), n);
    var above, above2 := PadRow(p, prev, row - 1), PadRow(p, prev, row - 2);
    seq(p.lineWidth, i requires 0 <= i < p.lineWidth =>
      if IsCoded(p, LineOf(c, row), i) then CellSource(p, cfa, n, width, image, g, LineOf(c, row), i)
      else Predict(HoodOf(false, i, above, above2, above)))
  }

  lemma GroupBelow(row: nat, k: nat, n: nat)
    requires k > 0 && row < k * n
    ensures row / k < n
  {
    DivBelow(row, k, n);
  }

  lemma PadRowInRange(p: Params, plane: seq<seq<int>>, row: int)
    requires RowsOk(p, plane) && row < |plane| && p.lineWidth > 0
    ensures InRange(p.depth, PadRow(p, plane, row))
  {
    if row >= 0 {
      assert InRange(p.depth, plane[row]);
      if row > 0 { assert InRange(p.depth, plane[row - 1]); }
    }
  }

  lemma NextRowInRange(p: Params, cfa: Cfa, blockWidth: nat, n: nat, width: nat, image: seq<seq<int>>, c: nat, prev: seq<seq<int>>)
    requires CfaShape(p, cfa) && StripOk(p, blockWidth, n, width, image)
    requires c < 3 && |prev| < PerGroup(c) * n && RowsOk(p, prev)
    ensures InRange(p.depth, NextRow(p, cfa, n, width, image, c, prev))
  {
    hide CellSource, IsCoded, PadRow, Predict, CfaShape;
    var row := |prev|;
    GroupBelow(row, PerGroup(c), n);
    PadRowInRange(p, prev, row - 1);
    PadRowInRange(p, prev, row - 2);
    var above, above2 := PadRow(p, prev, row - 1), PadRow(p, prev, row - 2);
    forall i | 0 <= i < p.lineWidth
      ensures 0 <= NextRow(p, cfa, n, width, image, c, prev)[i] <= p.depth.QMax()
    {
      CellSourceInRange(p, cfa, blockWidth, n, width, image, row / PerGroup(c), LineOf(c, row), i);
      PredictInRange(HoodOf(false, i, above, above2, above), p.depth.QMax());
    }
  }

  /** The first `k` rows of a plane. */
  ghost function PlaneRows(p: Params, cfa: Cfa, blockWidth: nat, n: nat, width: nat, image: seq<seq<int>>, c: nat, k: nat): (rows: seq<seq<int>>)
    requires CfaShape(p, cfa) && StripOk(p, blockWidth, n, width, image) && c < 3 && k <= PerGroup(c) * n
    ensures |rows| == k && RowsOk(p, rows)
  {
    if k == 0 then []
    else
      var prev := PlaneRows(p, cfa, blockWidth, n, width, image, c, k - 1);
      NextRowInRange(p, cfa, blockWidth, n, width, image, c, prev);
      prev + [NextRow(p, cfa, n, width, image, c, prev)]
  }

  ghost function RasterPlanes(p: Params, cfa: Cfa, blockWidth: nat, n: nat, width: nat, image: seq<seq<int>>): (planes: Planes)
    requires CfaShape(p, cfa) && StripOk(p, blockWidth, n, width, image)
    ensures PlanesOk(p, n, planes)
  {
    [PlaneRows(p, cfa, blockWidth, n, width, image, 0, PerGroup(0) * n),
     PlaneRows(p, cfa, blockWidth, n, width, image, 1, PerGroup(1) * n),
     PlaneRows(p, cfa, blockWidth, n, width, image, 2, PerGroup(2) * n)]
  }

  /** A row of the finished plane is the row that was computed from the rows above it. */
  lemma {:induction false} PlaneRowsPrefix(p: Params, cfa: Cfa, blockWidth: nat, n: nat, width: nat, image: seq<seq<int>>, c: nat, k: nat, m: nat)
    requires CfaShape(p, cfa) && StripOk(p, blockWidth, n, width, image) && c < 3 && m <= k <= PerGroup(c) * n
    ensures PlaneRows(p, cfa, blockWidth, n, width, image, c, k)[..m] == PlaneRows(p, cfa, blockWidth, n, width, image, c, m)
    decreases k
  {
    hide NextRow, StripOk, CfaShape, RowsOk;
    if m < k {
      PlaneRowsPrefix(p, cfa, blockWidth, n, width, image, c, k - 1, m);
    }
  }

  lemma PadRowPrefix(p: Params, plane: seq<seq<int>>, m: nat, row: int)
    requires RowsOk(p, plane) && row < m <= |plane| && p.lineWidth > 0
    ensures PadRow(p, plane, row) == PadRow(p, plane[..m], row)
  {
  }

  lemma PlaneRowIs(p: Params, cfa: Cfa, blockWidth: nat, n: nat, width: nat, image: seq<seq<int>>, c: nat, row: nat)
    requires CfaShape(p, cfa) && StripOk(p, blockWidth, n, width, image) && c < 3 && row < PerGroup(c) * n
    ensures var plane := PlaneRows(p, cfa, blockWidth, n, width, image, c, PerGroup(c) * n);
            plane[row] == NextRow(p, cfa, n, width, image, c, plane[..row])
  {
    hide NextRow, StripOk, CfaShape, PlaneRows;
    var k := PerGroup(c) * n;
    PlaneRowsPrefix(p, cfa, blockWidth, n, width, image, c, k, row);
    PlaneRowsPrefix(p, cfa, blockWidth, n, width, image, c, k, row + 1);
    LastRow(p, cfa, blockWidth, n, width, image, c, row);
    var plane := PlaneRows(p, cfa, blockWidth, n, width, image, c, k);
    assert plane[..row + 1][row] == plane[row];
  }

  /** The rows that a line of a group is predicted from, in the plane of its colour. */
  lemma RowsAbove(p: Params, n: nat, planes: Planes, g: nat, line: nat)
    requires PlanesOk(p, n, planes) && g < n && line < LINES && Rank(line) >= 0
    ensures line >= 2 && 0 <= RowOf(g, line) < |planes[Colour(line)]|
    ensures var plane, row := planes[Colour(line)], RowOf(g, line);
            && Row(p, n, planes, g, line) == PadRow(p, plane, row)
            && Row(p, n, planes, g, line - 1) == PadRow(p, plane, row - 1)
            && Row(p, n, planes, g, line - 2) == PadRow(p, plane, row - 2)
  {
    hide PadRow;
    PassLines(0, line);
    RowInPlane(p, n, planes, g, line);
    assert RowOf(g, line - 1) == RowOf(g, line) - 1 && RowOf(g, line - 2) == RowOf(g, line) - 2;
  }

  lemma RowBody(p: Params, plane: seq<seq<int>>, row: nat, i: nat)
    requires RowsOk(p, plane) && row < |plane| && p.lineWidth > 0 && i < p.lineWidth
    ensures PadRow(p, plane, row)[i + 1] == plane[row][i]
  {
  }

  ghost function OnePlane(p: Params, cfa: Cfa, blockWidth: nat, n: nat, width: nat, image: seq<seq<int>>, c: nat): (plane: seq<seq<int>>)
    requires CfaShape(p, cfa) && StripOk(p, blockWidth, n, width, image) && c < 3
    ensures |plane| == PerGroup(c) * n && RowsOk(p, plane)
    ensures plane == RasterPlanes(p, cfa, blockWidth, n, width, image)[c]
  {
    PlaneRows(p, cfa, blockWidth, n, width, image, c, PerGroup(c) * n)
  }

  /** What a finished plane holds at a sample of a group. */
  lemma PlaneCell(p: Params, cfa: Cfa, blockWidth: nat, n: nat, width: nat, image: seq<seq<int>>, g: nat, line: nat, i: nat)
    requires CfaShape(p, cfa) && StripOk(p, blockWidth, n, width, image)
    requires g < n && 2 <= line < LINES && Rank(line) >= 0 && i < p.lineWidth
    ensures var planes := RasterPlanes(p, cfa, blockWidth, n, width, image);
            Row(p, n, planes, g, line)[i + 1] ==
            if IsCoded(p, line, i) then CellSource(p, cfa, n, width, image, g, line, i)
            else Predict(PlaneHood(p, n, planes, g, false, line, i))
  {
    hide CellSource, IsCoded, Predict, CfaShape, StripOk, RowsOk, Rank, RasterPlanes, PlaneRows, PlanesOk, PadRow, Row, RowOf, LineOf;
    var planes := RasterPlanes(p, cfa, blockWidth, n, width, image);
    var c, row := Colour(line), RowOf(g, line);
    RowsAbove(p, n, planes, g, line);
    RowOfIs(g, line);
    var plane := OnePlane(p, cfa, blockWidth, n, width, image, c);
    PlaneRowIs(p, cfa, blockWidth, n, width, image, c, row);
    PadRowPrefix(p, plane, row, row - 1);
    PadRowPrefix(p, plane, row, row - 2);
    RowBody(p, plane, row, i);
  }

  lemma LastRow(p: Params, cfa: Cfa, blockWidth: nat, n: nat, width: nat, image: seq<seq<int>>, c: nat, row: nat)
    requires CfaShape(p, cfa) && StripOk(p, blockWidth, n, width, image) && c < 3 && row < PerGroup(c) * n
    ensures PlaneRows(p, cfa, blockWidth, n, width, image, c, row + 1)[row] ==
            NextRow(p, cfa, n, width, image, c, PlaneRows(p, cfa, blockWidth, n, width, image, c, row))
  {
  }

  /** Every raster strip has planes with the interpolation in place, and each of its pixels is
      in its cell of them. */
  lemma RasterPlanesOk(p: Params, cfa: Cfa, blockWidth: nat, n: nat, width: nat, image: seq<seq<int>>)
    requires CfaOk(p, cfa) && StripOk(p, blockWidth, n, width, image)
    ensures FillersOk(p, n, RasterPlanes(p, cfa, blockWidth, n, width, image))
  {
    hide CfaOk, StripOk, IsCoded, Rank, RasterPlanes, PlanesOk, Row, PlaneHood, CfaShape;
    assert CfaShape(p, cfa) by { CfaHasShape(p, cfa); }
    var planes := RasterPlanes(p, cfa, blockWidth, n, width, image);
    forall g, line, pos | 0 <= g < n && 2 <= line < LINES && Rank(line) >= 0 && 0 <= pos < p.lineWidth && !IsCoded(p, line, pos)
      ensures Row(p, n, planes, g, line)[pos + 1] == Predict(PlaneHood(p, n, planes, g, false, line, pos))
    {
      PlaneCell(p, cfa, blockWidth, n, width, image, g, line, pos);
    }
  }

  lemma CfaHasShape(p: Params, cfa: Cfa)
    requires CfaOk(p, cfa)
    ensures CfaShape(p, cfa)
  {
  }

  lemma RasterPixel(p: Params, cfa: Cfa, blockWidth: nat, n: nat, width: nat, image: seq<seq<int>>, g: nat, r: nat, c: nat)
    requires CfaOk(p, cfa) && StripOk(p, blockWidth, n, width, image) && g < n && r < 6 && c < width
    ensures PixelIndex(p, c) < p.lineWidth
    ensures Row(p, n, RasterPlanes(p, cfa, blockWidth, n, width, image), g, PixelLine(p, cfa, r, c))[PixelIndex(p, c) + 1] == image[6 * g + r][c]
  {
    hide CellSource, RasterPlanes, PlanesOk, Row, PlaneHood, PixelIndex;
    IndexInLine(p, blockWidth, c);
    var line, i := PixelLine(p, cfa, r, c), PixelIndex(p, c);
    PlaneCell(p, cfa, blockWidth, n, width, image, g, line, i);
    CellSourceIs(p, cfa, n, width, image, g, r, c);
  }
}
