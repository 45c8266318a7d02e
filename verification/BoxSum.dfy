/** Box sums by two passes of sliding sums, each of which also transposes. Floats are exact
    reals. */
module BoxSum {
  import opened Bits

  // ---------------------------------------------------------------- blocked transposition

  /** Cell `m` of the transposed raster, which is `height` wide. */
  function Transposed(src: seq<real>, width: nat, height: nat, m: nat): real
    requires |src| == height * width && m < width * height
  {
    CellOf(m, width, height);
    CellAt(m % height, m / height, height, width);
    src[m % height * width + m / height]
  }

  /** Rows before `i` are done; of the next 16 rows the columns before `j` are, and of those the
      next 16 columns up to row `row` and column `col`. */
  predicate Done(r: nat, c: nat, i: nat, j: nat, row: nat, col: nat) {
    r < i || (r < i + 16 && (c < j || (c < j + 16 && (r < row || (r == row && c < col)))))
  }

  ghost predicate TransposedTo(src: seq<real>, width: nat, height: nat, now: seq<real>, i: nat, j: nat, row: nat, col: nat)
    requires |src| == height * width
  {
    |now| == width * height &&
    forall m :: 0 <= m < |now| && CellDone(height, m, i, j, row, col) ==> now[m] == Transposed(src, width, height, m)
  }

  predicate CellDone(height: nat, m: nat, i: nat, j: nat, row: nat, col: nat) {
    height > 0 && 0 <= m % height && 0 <= m / height && Done(m % height, m / height, i, j, row, col)
  }

  lemma TransposeStep(src: seq<real>, width: nat, height: nat, now: seq<real>, i: nat, j: nat, row: nat, col: nat)
    requires |src| == height * width && TransposedTo(src, width, height, now, i, j, row, col) && row < height && col < width
    ensures 0 <= row * width + col < |src| && 0 <= col * height + row < |now|
    ensures TransposedTo(src, width, height, now[col * height + row := src[row * width + col]], i, j, row, col + 1)
  {
    CellAt(row, col, height, width);
    CellAt(col, row, width, height);
    var at := col * height + row;
    var after := now[at := src[row * width + col]];
    forall m | 0 <= m < |now| && CellDone(height, m, i, j, row, col + 1) ensures after[m] == Transposed(src, width, height, m) {
      CellOf(m, width, height);
      if m % height == row && m / height == col { assert m == at; }
    }
  }

  /** Two positions that leave the same cells done. */
  lemma SameDone(src: seq<real>, width: nat, height: nat, now: seq<real>, i: nat, j: nat, row: nat, col: nat, i': nat, j': nat, row': nat, col': nat)
    requires |src| == height * width && TransposedTo(src, width, height, now, i, j, row, col)
    requires forall r: nat, c: nat :: r < height && c < width && Done(r, c, i', j', row', col') ==> Done(r, c, i, j, row, col)
    ensures TransposedTo(src, width, height, now, i', j', row', col')
  {
    hide Transposed;
    forall m | 0 <= m < |now| && CellDone(height, m, i', j', row', col') ensures now[m] == Transposed(src, width, height, m) {
      CellOf(m, width, height);
    }
  }

  /** The blocked transposition equals the plain one. */
  method Transpose(srcBuf: array<real>, dstBuf: array<real>, width: nat, height: nat)
    requires srcBuf != dstBuf && srcBuf.Length == height * width && dstBuf.Length == width * height
    modifies dstBuf
    ensures forall m :: 0 <= m < width * height ==> dstBuf[m] == Transposed(srcBuf[..], width, height, m)
  {
    hide TransposedTo, Transposed;
    ghost var src := srcBuf[..];
    NothingTransposed(src, width, height, dstBuf[..]);
    var i := 0;
    while i < height
      invariant 0 <= i && TransposedTo(src, width, height, dstBuf[..], i, 0, 0, 0)
      decreases height - i
    {
      var j := 0;
      while j < width
        invariant 0 <= j && TransposedTo(src, width, height, dstBuf[..], i, j, 0, 0)
        decreases width - j
      {
        TransposeBlock(srcBuf, dstBuf, width, height, i, j);
        j := j + 16;
      }
      SameDone(src, width, height, dstBuf[..], i, j, 0, 0, i + 16, 0, 0, 0);
      i := i + 16;
    }
    AllTransposed(src, width, height, dstBuf[..], i);
  }

  method TransposeBlock(srcBuf: array<real>, dstBuf: array<real>, width: nat, height: nat, i: nat, j: nat)
    requires srcBuf != dstBuf && srcBuf.Length == height * width && dstBuf.Length == width * height && i < height && j < width
    requires TransposedTo(srcBuf[..], width, height, dstBuf[..], i, j, 0, 0)
    modifies dstBuf
    ensures TransposedTo(srcBuf[..], width, height, dstBuf[..], i, j + 16, 0, 0)
  {
    hide TransposedTo;
    ghost var src := srcBuf[..];
    var rowMax := if i + 16 < height then i + 16 else height;
    var colMax := if j + 16 < width then j + 16 else width;
    var row := i;
    SameDone(src, width, height, dstBuf[..], i, j, 0, 0, i, j, i, j);
    while row < rowMax
      invariant i <= row <= rowMax && TransposedTo(src, width, height, dstBuf[..], i, j, row, j)
    {
      var col := j;
      while col < colMax
        invariant j <= col <= colMax && TransposedTo(src, width, height, dstBuf[..], i, j, row, col)
      {
        ghost var was := dstBuf[..];
        TransposedSize(src, width, height, was, i, j, row, col);
        TransposeStep(src, width, height, was, i, j, row, col);
        dstBuf[col * height + row] := srcBuf[row * width + col];
        assert dstBuf[..] == was[col * height + row := src[row * width + col]];
        col := col + 1;
      }
      SameDone(src, width, height, dstBuf[..], i, j, row, col, i, j, row + 1, j);
      row := row + 1;
    }
    SameDone(src, width, height, dstBuf[..], i, j, row, j, i, j + 16, 0, 0);
  }

  lemma TransposedSize(src: seq<real>, width: nat, height: nat, now: seq<real>, i: nat, j: nat, row: nat, col: nat)
    requires |src| == height * width && TransposedTo(src, width, height, now, i, j, row, col)
    ensures |now| == width * height
  {
  }

  lemma NothingTransposed(src: seq<real>, width: nat, height: nat, now: seq<real>)
    requires |src| == height * width && |now| == width * height
    ensures TransposedTo(src, width, height, now, 0, 0, 0, 0)
  {
  }

  lemma AllTransposed(src: seq<real>, width: nat, height: nat, now: seq<real>, i: nat)
    requires |src| == height * width && TransposedTo(src, width, height, now, i, 0, 0, 0) && i >= height
    ensures |now| == width * height && forall m :: 0 <= m < |now| ==> now[m] == Transposed(src, width, height, m)
  {
    hide Transposed;
    forall m | 0 <= m < |now| ensures now[m] == Transposed(src, width, height, m) {
      CellOf(m, width, height);
      assert CellDone(height, m, i, 0, 0, 0);
    }
  }

  // ---------------------------------------------------------------- sliding sums

  function Sum(src: seq<real>, at: nat, n: nat): real
    requires at + n <= |src|
  {
    if n == 0 then 0.0 else Sum(src, at, n - 1) + src[at + n - 1]
  }

  lemma {:induction false} SumHead(src: seq<real>, at: nat, n: nat)
    requires 0 < n && at + n <= |src|
    ensures Sum(src, at, n) == src[at] + Sum(src, at + 1, n - 1)
    decreases n
  {
    if n > 1 { SumHead(src, at, n - 1); }
  }

  /** One step to the right: one cell leaves the window, one enters. */
  lemma Slide(src: seq<real>, at: nat, n: nat)
    requires 0 < n && at + n < |src|
    ensures Sum(src, at + 1, n) == Sum(src, at, n) - src[at] + src[at + n]
  {
    SumHead(src, at, n);
  }

  /** A raster, and the radius of the window. */
  datatype Box = Box(width: nat, height: nat, r: nat) {
    predicate Ok(src: seq<real>) { 2 * r + 1 <= width && |src| == height * width }
  }

  /** Cell (x, y) of the transposed result: the window around column `x` of row `y`. */
  function Window(b: Box, src: seq<real>, x: nat, y: nat): real
    requires b.Ok(src) && y < b.height && b.r <= x < b.width - b.r
  {
    CellAt(y, x + b.r, b.height, b.width);
    CellAt(y, x - b.r, b.height, b.width);
    Sum(src, y * b.width + x - b.r, 2 * b.r + 1)
  }

  /** The result is written where the whole window lies in the row. */
  function Windowed(b: Box, src: seq<real>, before: seq<real>, m: nat): real
    requires b.Ok(src) && |before| == b.width * b.height && m < |before|
  {
    CellOf(m, b.width, b.height);
    if b.r <= m / b.height < b.width - b.r then Window(b, src, m / b.height, m % b.height) else before[m]
  }

  predicate Earlier(b: Box, m: nat, x: nat, y: nat)
    requires b.height > 0
  {
    m / b.height < x || (m / b.height == x && m % b.height < y)
  }

  ghost predicate WindowedTo(b: Box, src: seq<real>, before: seq<real>, now: seq<real>, x: nat, y: nat)
    requires b.Ok(src) && |before| == b.width * b.height
  {
    |now| == |before| && forall m :: 0 <= m < |now| ==> now[m] == WindowedAt(b, src, before, x, y, m)
  }

  function WindowedAt(b: Box, src: seq<real>, before: seq<real>, x: nat, y: nat, m: nat): real
    requires b.Ok(src) && |before| == b.width * b.height && m < |before|
  {
    CellOf(m, b.width, b.height);
    if Earlier(b, m, x, y) then Windowed(b, src, before, m) else before[m]
  }

  lemma WindowStep(b: Box, src: seq<real>, before: seq<real>, now: seq<real>, x: nat, y: nat)
    requires b.Ok(src) && |before| == b.width * b.height && WindowedTo(b, src, before, now, x, y)
    requires y < b.height && b.r <= x < b.width - b.r
    ensures 0 <= x * b.height + y < |now|
    ensures WindowedTo(b, src, before, now[x * b.height + y := Window(b, src, x, y)], x, y + 1)
  {
    hide Window;
    CellAt(x, y, b.width, b.height);
    var at := x * b.height + y;
    var after := now[at := Window(b, src, x, y)];
    forall m | 0 <= m < |now| ensures after[m] == WindowedAt(b, src, before, x, y + 1, m) {
      CellOf(m, b.width, b.height);
      if m / b.height == x && m % b.height == y { assert m == at; }
    }
  }

  lemma WindowRow(b: Box, src: seq<real>, before: seq<real>, now: seq<real>, x: nat)
    requires b.Ok(src) && |before| == b.width * b.height && WindowedTo(b, src, before, now, x, b.height)
    ensures WindowedTo(b, src, before, now, x + 1, 0)
  {
    hide Windowed;
    forall m | 0 <= m < |now| ensures now[m] == WindowedAt(b, src, before, x + 1, 0, m) {
      CellOf(m, b.width, b.height);
    }
  }

  /** Columns before `r` are not written. */
  lemma WindowStart(b: Box, src: seq<real>, before: seq<real>)
    requires b.Ok(src) && |before| == b.width * b.height
    ensures WindowedTo(b, src, before, before, b.r, 0)
  {
    hide Window;
    forall m | 0 <= m < |before| ensures before[m] == WindowedAt(b, src, before, b.r, 0, m) {
      CellOf(m, b.width, b.height);
    }
  }

  lemma WindowEnd(b: Box, src: seq<real>, before: seq<real>, now: seq<real>, x: nat)
    requires b.Ok(src) && |before| == b.width * b.height && WindowedTo(b, src, before, now, x, 0) && x >= b.width - b.r
    ensures |now| == |before| && forall m :: 0 <= m < |now| ==> now[m] == Windowed(b, src, before, m)
  {
    hide Window;
    forall m | 0 <= m < |now| ensures now[m] == Windowed(b, src, before, m) {
      CellOf(m, b.width, b.height);
    }
  }

  /** A window that is already there. */
  lemma WindowThere(b: Box, src: seq<real>, before: seq<real>, now: seq<real>, x: nat, y: nat, x': nat, y': nat)
    requires b.Ok(src) && |before| == b.width * b.height && WindowedTo(b, src, before, now, x, y)
    requires y' < b.height && b.r <= x' < b.width - b.r && (x' < x || (x' == x && y' < y))
    ensures 0 <= x' * b.height + y' < |now| && now[x' * b.height + y'] == Window(b, src, x', y')
  {
    hide Window;
    CellAt(x', y', b.width, b.height);
  }

  /** The window of the next column. */
  lemma WindowSlides(b: Box, src: seq<real>, x: nat, y: nat)
    requires b.Ok(src) && y < b.height && b.r < x < b.width - b.r
    ensures 0 <= y * b.width + x - b.r - 1 && y * b.width + x + b.r < |src|
    ensures Window(b, src, x, y) == Window(b, src, x - 1, y) - src[y * b.width + x - b.r - 1] + src[y * b.width + x + b.r]
  {
    CellAt(y, x + b.r, b.height, b.width);
    CellAt(y, x - b.r - 1, b.height, b.width);
    Slide(src, y * b.width + x - b.r - 1, 2 * b.r + 1);
  }

  /** All that is added up for the heads of the rows lies on the rows, and in the raster. */
  ghost predicate HeadsOnRow(b: Box) {
    forall y: nat, x: nat :: y < b.height && x < 2 * b.r + 1 ==> OnRow(b, y, x)
  }

  predicate OnRow(b: Box, y: nat, x: nat) { y * b.width <= y * b.width + x < (y + 1) * b.width }

  ghost predicate HeadsInside(b: Box) {
    forall y: nat, x: nat :: y < b.height && x < 2 * b.r + 1 ==> InRaster(b, y, x)
  }

  predicate InRaster(b: Box, y: nat, x: nat) { 0 <= y * b.width + x < b.height * b.width }

  /** They do if and only if the window is not wider than the row, unless there is no row: for a
      wider window the last row is read beyond the end of the raster. */
  lemma HeadsExactly(b: Box)
    ensures HeadsOnRow(b) <==> b.height == 0 || 2 * b.r + 1 <= b.width
    ensures HeadsInside(b) <==> b.height == 0 || 2 * b.r + 1 <= b.width
  {
    if b.height > 0 {
      var last := b.height - 1;
      Distribute(last, 1, b.width);
      assert OnRow(b, last, 2 * b.r) <==> 2 * b.r < b.width;
      assert InRaster(b, last, 2 * b.r) ==> 2 * b.r < b.width;
      if 2 * b.r + 1 <= b.width {
        forall y: nat, x: nat | y < b.height && x < 2 * b.r + 1 ensures OnRow(b, y, x) && InRaster(b, y, x) {
          Distribute(y, 1, b.width);
          CellAt(y, x, b.height, b.width);
        }
      }
    }
  }

  /** box_sum: both passes read inside their rasters. */
  ghost predicate BothInside(width: nat, height: nat, rx: nat, ry: nat) {
    HeadsInside(Box(width, height, rx)) && HeadsInside(Box(height, width, ry))
  }

  /** On a raster that is not empty they do if and only if the window fits into it. */
  lemma BothExactly(width: nat, height: nat, rx: nat, ry: nat)
    requires width > 0 && height > 0
    ensures BothInside(width, height, rx, ry) <==> 2 * rx + 1 <= width && 2 * ry + 1 <= height
  {
    hide HeadsInside;
    HeadsExactly(Box(width, height, rx));
    HeadsExactly(Box(height, width, ry));
  }

  /** A window of three columns leaves a raster of two. */
  lemma HeadLeaves()
    ensures !HeadsInside(Box(2, 1, 1))
  {
    HeadsExactly(Box(2, 1, 1));
  }

  /** The head of a row: the first window, added up. */
  method Head(b: Box, srcArray: array<real>, dst: array<real>, y: nat)
    requires srcArray != dst && b.Ok(srcArray[..]) && dst.Length == b.width * b.height && y < b.height
    modifies dst
    ensures 0 <= b.r * b.height + y < dst.Length
    ensures dst[..] == old(dst[..])[b.r * b.height + y := Window(b, srcArray[..], b.r, y)]
  {
    ghost var src, was := srcArray[..], dst[..];
    CellAt(b.r, y, b.width, b.height);
    CellAt(y, 2 * b.r, b.height, b.width);
    CellAt(y, 0, b.height, b.width);
    var pos0, pos := y * b.width, b.r * b.height + y;
    dst[pos] := 0.0;
    var x := 0;
    while x < 2 * b.r + 1
      invariant 0 <= x <= 2 * b.r + 1
      invariant dst[..] == was[pos := Sum(src, pos0, x)]
    {
      dst[pos] := dst[pos] + srcArray[pos0 + x];
      x := x + 1;
    }
  }

  /** Slot of the transposed source, `n` columns to the left and to the right. */
  lemma Column0(b: Box, src: seq<real>, x: nat, y: nat)
    requires b.Ok(src) && y < b.height && x < b.width
    ensures 0 <= x * b.height + y < b.width * b.height && 0 <= y * b.width + x < |src|
    ensures Transposed(src, b.width, b.height, x * b.height + y) == src[y * b.width + x]
  {
    CellAt(x, y, b.width, b.height);
    CellAt(y, x, b.height, b.width);
  }

  lemma Left(b: Box, src: seq<real>, x: nat, y: nat, n: nat)
    requires b.Ok(src) && y < b.height && n <= x < b.width
    ensures 0 <= x * b.height + y - n * b.height < b.width * b.height && 0 <= y * b.width + x - n < |src|
    ensures x * b.height + y - n * b.height == (x - n) * b.height + y
    ensures Transposed(src, b.width, b.height, x * b.height + y - n * b.height) == src[y * b.width + x - n]
  {
    Distribute(x - n, n, b.height);
    Column0(b, src, x - n, y);
  }

  lemma Right(b: Box, src: seq<real>, x: nat, y: nat, n: nat)
    requires b.Ok(src) && y < b.height && x + n < b.width
    ensures 0 <= x * b.height + y + n * b.height < b.width * b.height && 0 <= y * b.width + x + n < |src|
    ensures Transposed(src, b.width, b.height, x * b.height + y + n * b.height) == src[y * b.width + x + n]
  {
    Distribute(x, n, b.height);
    Column0(b, src, x + n, y);
  }

  /** box_sum_horizontal_and_transpose. */
  method BoxSumHorizontalAndTranspose(b: Box, srcArray: array<real>, dst: array<real>)
    requires srcArray != dst && b.Ok(srcArray[..]) && dst.Length == b.width * b.height
    modifies dst
    ensures forall m :: 0 <= m < dst.Length ==> dst[m] == Windowed(b, srcArray[..], old(dst[..]), m)
  {
    hide WindowedTo, Windowed, Window, Transposed;
    ghost var src, before := srcArray[..], dst[..];
    var srct := new real[b.width * b.height](_ => 0.0);
    WindowStart(b, src, before);
    var y := 0;
    while y < b.height
      invariant 0 <= y <= b.height && WindowedTo(b, src, before, dst[..], b.r, y)
    {
      WindowStep(b, src, before, dst[..], b.r, y);
      Head(b, srcArray, dst, y);
      y := y + 1;
    }
    WindowRow(b, src, before, dst[..], b.r);
    Transpose(srcArray, srct, b.width, b.height);
    var x := b.r + 1;
    while x < b.width - b.r
      invariant b.r < x <= b.width - b.r && WindowedTo(b, src, before, dst[..], x, 0)
      invariant forall m :: 0 <= m < srct.Length ==> srct[m] == Transposed(src, b.width, b.height, m)
    {
      Column(b, srcArray, srct, dst, x, before);
      WindowRow(b, src, before, dst[..], x);
      x := x + 1;
    }
    WindowEnd(b, src, before, dst[..], x);
  }

  /** The three cells that a step reads make the next window. */
  lemma SlidWindow(b: Box, src: seq<real>, before: seq<real>, now: seq<real>, srct: seq<real>, x: nat, y: nat)
    requires b.Ok(src) && |srct| == |before| == b.width * b.height && y < b.height && b.r < x < b.width - b.r
    requires forall m :: 0 <= m < |srct| ==> srct[m] == Transposed(src, b.width, b.height, m)
    requires WindowedTo(b, src, before, now, x, y)
    ensures var pos := x * b.height + y;
            && 0 <= pos - b.height < |now| && 0 <= pos - (b.r + 1) * b.height < |srct| && 0 <= pos + b.r * b.height < |srct|
            && Window(b, src, x, y) == now[pos - b.height] - srct[pos - (b.r + 1) * b.height] + srct[pos + b.r * b.height]
  {
    Distribute(x - 1, 1, b.height);
    WindowThere(b, src, before, now, x, y, x - 1, y);
    WindowSlides(b, src, x, y);
    Left(b, src, x, y, b.r + 1);
    Right(b, src, x, y, b.r);
    hide *;
  }

  /** One row of the transposed result, from the one before. */
  method Column(b: Box, srcArray: array<real>, srct: array<real>, dst: array<real>, x: nat, ghost before: seq<real>)
    requires srcArray != dst && srct != dst && b.Ok(srcArray[..]) && srct.Length == |before| == b.width * b.height && b.r < x < b.width - b.r
    requires forall m :: 0 <= m < srct.Length ==> srct[m] == Transposed(srcArray[..], b.width, b.height, m)
    requires WindowedTo(b, srcArray[..], before, dst[..], x, 0)
    modifies dst
    ensures WindowedTo(b, srcArray[..], before, dst[..], x, b.height)
  {
    hide WindowedTo, Windowed, Window, Transposed;
    ghost var src := srcArray[..];
    var pos0 := x * b.height;
    var y := 0;
    while y < b.height
      invariant 0 <= y <= b.height && WindowedTo(b, src, before, dst[..], x, y)
    {
      ghost var was := dst[..];
      var pos := pos0 + y;
      SlidWindow(b, src, before, was, srct[..], x, y);
      WindowStep(b, src, before, was, x, y);
      dst[pos] := dst[pos - b.height] - srct[pos - (b.r + 1) * b.height] + srct[pos + b.r * b.height];
      assert dst[..] == was[pos := Window(b, src, x, y)];
      y := y + 1;
    }
  }

  // ---------------------------------------------------------------- both directions

  /** The direct form: `n` rows from `top` on, in each the window around column `x`. */
  function Block(b: Box, src: seq<real>, x: nat, top: nat, n: nat): real
    requires b.Ok(src) && b.r <= x < b.width - b.r && top + n <= b.height
  {
    if n == 0 then 0.0 else Block(b, src, x, top, n - 1) + Sum(src, RowStart(b, src, x, top + n - 1), 2 * b.r + 1)
  }

  function RowStart(b: Box, src: seq<real>, x: nat, y: nat): (at: nat)
    requires b.Ok(src) && b.r <= x < b.width - b.r && y < b.height
    ensures at + 2 * b.r + 1 <= |src|
  {
    CellAt(y, x + b.r, b.height, b.width);
    CellAt(y, x - b.r, b.height, b.width);
    y * b.width + x - b.r
  }

  /** What box_sum leaves in cell `m` of the destination. */
  function BoxSummed(src: seq<real>, before: seq<real>, width: nat, height: nat, rx: nat, ry: nat, m: nat): real
    requires Box(width, height, rx).Ok(src) && 2 * ry + 1 <= height && |before| == height * width && m < |before|
  {
    CellOf(m, height, width);
    var x, y := m % width, m / width;
    if ry <= y < height - ry then
      if rx <= x < width - rx then Block(Box(width, height, rx), src, x, y - ry, 2 * ry + 1) else 0.0
    else before[m]
  }

  lemma {:induction false} ColumnSum(b: Box, src: seq<real>, zero: seq<real>, buf: seq<real>, x: nat, top: nat, n: nat)
    requires b.Ok(src) && |zero| == |buf| == b.width * b.height && x < b.width && top + n <= b.height
    requires forall m :: 0 <= m < |buf| ==> buf[m] == Windowed(b, src, zero, m)
    requires forall m :: 0 <= m < |zero| ==> zero[m] == 0.0
    ensures 0 <= x * b.height + top && x * b.height + top + n <= |buf|
    ensures Sum(buf, x * b.height + top, n) == if b.r <= x < b.width - b.r then Block(b, src, x, top, n) else 0.0
    decreases n
  {
    if n > 0 {
      ColumnSum(b, src, zero, buf, x, top, n - 1);
      CellAt(x, top + n - 1, b.width, b.height);
      hide Window, Block;
      assert buf[x * b.height + (top + n - 1)] == Windowed(b, src, zero, x * b.height + (top + n - 1));
      ColumnSumStep(b, src, zero, x, top, n);
    } else {
      ColumnInside(b, x, top);
    }
  }

  lemma ColumnInside(b: Box, x: nat, top: nat)
    requires x < b.width && top <= b.height
    ensures 0 <= x * b.height + top <= b.width * b.height
  {
    Smaller(x + 1, b.width, b.height);
    Distribute(x, 1, b.height);
    Smaller(0, x, b.height);
  }

  lemma ColumnSumStep(b: Box, src: seq<real>, zero: seq<real>, x: nat, top: nat, n: nat)
    requires b.Ok(src) && |zero| == b.width * b.height && x < b.width && 0 < n && top + n <= b.height
    requires forall m :: 0 <= m < |zero| ==> zero[m] == 0.0
    ensures var at := x * b.height + (top + n - 1);
            && 0 <= at < |zero|
            && Windowed(b, src, zero, at) ==
               if b.r <= x < b.width - b.r then Block(b, src, x, top, n) - Block(b, src, x, top, n - 1) else 0.0
  {
    CellAt(x, top + n - 1, b.width, b.height);
  }

  /** box_sum: every interior cell is the sum of its (2*rx+1) by (2*ry+1) window. */
  method BoxSumBoth(srcArray: array<real>, dst: array<real>, width: nat, height: nat, rx: nat, ry: nat)
    requires srcArray != dst && srcArray.Length == dst.Length == height * width && 2 * rx + 1 <= width && 2 * ry + 1 <= height
    modifies dst
    ensures forall m :: 0 <= m < dst.Length ==> dst[m] == BoxSummed(srcArray[..], old(dst[..]), width, height, rx, ry, m)
  {
    hide Windowed, BoxSummed;
    ghost var src, before := srcArray[..], dst[..];
    Commute(width, height);
    var buf := new real[height * width](_ => 0.0);
    ghost var zero := buf[..];
    var across, down := Box(width, height, rx), Box(height, width, ry);
    BoxSumHorizontalAndTranspose(across, srcArray, buf);
    ghost var mid := buf[..];
    BoxSumHorizontalAndTranspose(down, buf, dst);
    forall m | 0 <= m < dst.Length ensures dst[m] == BoxSummed(src, before, width, height, rx, ry, m) {
      BothPasses(src, zero, mid, before, width, height, rx, ry, m);
    }
  }

  lemma BothPasses(src: seq<real>, zero: seq<real>, mid: seq<real>, before: seq<real>, width: nat, height: nat, rx: nat, ry: nat, m: nat)
    requires Box(width, height, rx).Ok(src) && Box(height, width, ry).Ok(mid) && |zero| == |mid| == |before| == width * height == height * width
    requires m < |before|
    requires forall m :: 0 <= m < |zero| ==> zero[m] == 0.0
    requires forall m :: 0 <= m < |mid| ==> mid[m] == Windowed(Box(width, height, rx), src, zero, m)
    ensures Windowed(Box(height, width, ry), mid, before, m) == BoxSummed(src, before, width, height, rx, ry, m)
  {
    CellOf(m, height, width);
    var x, y := m % width, m / width;
    if ry <= y < height - ry {
      hide Block;
      ColumnSum(Box(width, height, rx), src, zero, mid, x, y - ry, 2 * ry + 1);
    }
  }
}
