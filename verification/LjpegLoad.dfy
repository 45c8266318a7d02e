/** lossless_jpeg_load_raw: decoded rows go through the curve into the raster, slice by slice. */
module LjpegLoad {
  import opened Bits
  import opened DcrawBits
  import opened LjpegHuffman
  import opened LjpegDiff
  import opened LjpegRow
  import opened LjpegDecoder
  import opened RawSlices

  /** One width of raster is treated apart: its samples are stored two columns further left, and
      the column stays that far behind. */
  const SHIFTED := 3984

  /** Index of sample `k` in the raster, if it lies there. */
  function Place(sl: Slices, k: nat): int
    requires sl.Ok() && Placed(sl, k)
  {
    if sl.rawWidth != SHIFTED then Flat(sl, k) else if sl.count > 0 then Flat(sl, k) - 2 else 0 - k - 2
  }

  function Flat(sl: Slices, k: nat): int
    requires sl.Ok() && Placed(sl, k)
  {
    Target(sl, k).0 * sl.rawWidth + Target(sl, k).1
  }

  /** Sample `k` is stored. */
  predicate Lands(sl: Slices, k: nat)
    requires sl.Ok()
  {
    Placed(sl, k) && 0 <= Place(sl, k) < sl.Size()
  }

  /** Raster cell of sample `k`. */
  function Cell(sl: Slices, k: nat): (i: nat)
    requires sl.Ok() && Lands(sl, k)
    ensures i < sl.Size()
  {
    Place(sl, k)
  }

  /** But for that width a sample is stored exactly if it is not one too many; on plain rows of
      that width nothing is; in slices of that width the samples of the first two positions of
      the raster are lost, and in return those for the first two positions below it are stored. */
  lemma LandsExactly(sl: Slices, k: nat)
    requires sl.Ok()
    ensures sl.rawWidth != SHIFTED ==> (Lands(sl, k) <==> k < sl.Size())
    ensures sl.rawWidth == SHIFTED && sl.count == 0 ==> !Lands(sl, k)
    ensures sl.rawWidth == SHIFTED && sl.count > 0 && k < sl.Size() ==>
              (Lands(sl, k) <==> Target(sl, k) != (0, 0) && Target(sl, k) != (0, 1))
    ensures sl.rawWidth == SHIFTED && sl.count > 0 && k >= sl.Size() ==>
              (Lands(sl, k) <==> Placed(sl, k) && (Target(sl, k) == (sl.rawHeight, 0) || Target(sl, k) == (sl.rawHeight, 1)))
  {
    if Placed(sl, k) {
      var (row, col) := Target(sl, k);
      FlatInside(sl, row, col);
      if sl.rawWidth == SHIFTED && sl.count > 0 { TwoBack(sl, row, col); }
      hide Target, Slices.Size;
    }
  }

  lemma TwoBack(sl: Slices, row: nat, col: nat)
    requires sl.Ok() && sl.rawWidth == SHIFTED && col < SHIFTED
    ensures 0 <= row * sl.rawWidth + col - 2 < sl.Size() <==>
            (row < sl.rawHeight && !(row == 0 && col < 2)) || (row == sl.rawHeight && col < 2)
  {
  }

  lemma FlatInside(sl: Slices, row: nat, col: nat)
    requires sl.Ok() && col < sl.rawWidth
    ensures 0 <= row * sl.rawWidth + col && (row * sl.rawWidth + col < sl.Size() <==> row < sl.rawHeight)
  {
    Commute(sl.rawHeight, sl.rawWidth);
    Smaller(0, row, sl.rawWidth);
    if row < sl.rawHeight { MulStep(row, sl.rawHeight, sl.rawWidth); } else { Smaller(sl.rawHeight, row, sl.rawWidth); }
  }

  /** No two samples share a cell. */
  lemma CellsDiffer(sl: Slices, k: nat, m: nat)
    requires sl.Ok() && Lands(sl, k) && Lands(sl, m) && Cell(sl, k) == Cell(sl, m)
    ensures k == m
  {
    hide Target, Source;
    var (row, col) := Target(sl, k);
    var (row', col') := Target(sl, m);
    if sl.rawWidth != SHIFTED || sl.count > 0 {
      DivUnique(Flat(sl, k), sl.rawWidth, row, col);
      DivUnique(Flat(sl, m), sl.rawWidth, row', col');
      SourceOfTarget(sl, k);
      SourceOfTarget(sl, m);
    }
  }

  /** Every cell gets a sample; of the shifted raster, in slices, every cell but the last two. */
  lemma CellsCovered(sl: Slices, i: nat) returns (k: nat)
    requires sl.Ok() && i < sl.Size() && (sl.rawWidth == SHIFTED ==> sl.count > 0 && i + 2 < sl.Size())
    ensures Lands(sl, k) && Cell(sl, k) == i
  {
    hide Target, Source;
    var at := if sl.rawWidth == SHIFTED then i + 2 else i;
    DivNonNegative(at, sl.rawWidth);
    DivBelow(at, sl.rawWidth, sl.rawHeight);
    TargetOfSource(sl, at / sl.rawWidth, at % sl.rawWidth);
    Quotient(at, sl.rawWidth);
    k := Source(sl, at / sl.rawWidth, at % sl.rawWidth);
  }

  /** On plain rows sample `k` is cell `k`; in slices it is the cell in the row and column that the
      order of the slices gives, two back in the shifted raster. */
  lemma CellPlace(sl: Slices, k: nat)
    requires sl.Ok() && Lands(sl, k)
    ensures sl.count == 0 ==> Cell(sl, k) == k
    ensures sl.count > 0 ==>
              var at := if sl.rawWidth == SHIFTED then Cell(sl, k) + 2 else Cell(sl, k);
              (at / sl.rawWidth, at % sl.rawWidth) == Target(sl, k)
  {
    var (row, col) := Target(sl, k);
    if sl.count > 0 {
      DivUnique(Flat(sl, k), sl.rawWidth, row, col);
    } else {
      LandsExactly(sl, k);
      Quotient(k, sl.rawWidth);
    }
  }

  /** Cell `i` belongs to one of the samples from `lo` to `hi - 1`. */
  ghost predicate Hit(sl: Slices, i: nat, lo: int, hi: int)
    requires sl.Ok()
  {
    exists k: nat :: lo <= k < hi && Lands(sl, k) && Cell(sl, k) == i
  }

  /** The other cells keep what they had. */
  ghost predicate Keeps(sl: Slices, before: seq<ushort>, after: seq<ushort>, lo: int, hi: int)
    requires sl.Ok() && |before| == |after| == sl.Size()
  {
    forall i :: 0 <= i < sl.Size() && !Hit(sl, i, lo, hi) ==> after[i] == before[i]
  }

  lemma NotHit(sl: Slices, k: nat, lo: int, hi: int)
    requires sl.Ok() && Lands(sl, k) && !(lo <= k < hi)
    ensures !Hit(sl, Cell(sl, k), lo, hi)
  {
    forall m: nat | lo <= m < hi && Lands(sl, m) ensures Cell(sl, m) != Cell(sl, k) {
      if Cell(sl, m) == Cell(sl, k) { CellsDiffer(sl, k, m); }
    }
  }

  /** The cells of row `j` of the stream hold that row, through the curve, up to sample `n`. */
  ghost predicate RowShown(sl: Slices, curve: seq<ushort>, raw: seq<ushort>, from: nat, row: seq<int>, n: nat)
    requires sl.Ok() && |raw| == sl.Size() && |curve| == 0x1_0000
  {
    n <= |row| && forall c :: 0 <= c < n ==> SampleShown(sl, curve, raw, from, row, c)
  }

  ghost predicate SampleShown(sl: Slices, curve: seq<ushort>, raw: seq<ushort>, from: nat, row: seq<int>, c: nat)
    requires sl.Ok() && |raw| == sl.Size() && |curve| == 0x1_0000 && c < |row|
  {
    0 <= row[c] < 0x1_0000 && (Lands(sl, from + c) ==> raw[Cell(sl, from + c)] == curve[row[c]])
  }

  ghost predicate RowsShown(sl: Slices, curve: seq<ushort>, raw: seq<ushort>, rows: seq<seq<int>>, wide: nat, n: nat)
    requires sl.Ok() && |raw| == sl.Size() && |curve| == 0x1_0000
  {
    n <= |rows| && forall j :: 0 <= j < n ==> |rows[j]| == wide && RowShown(sl, curve, raw, j * wide, rows[j], wide)
  }

  /** Slice of sample `k` and its width, as the loop works them out. */
  method Slice(sl: Slices, k: nat) returns (i: nat, strip: int, w: nat)
    requires sl.Ok() && sl.count > 0
    ensures i == SliceOf(sl, k) && strip == sl.Strip() && w == SliceWidth(sl, i)
  {
    strip := sl.width * sl.rawHeight;
    DivNonNegative(k, strip);
    i := k / strip;
    var last := i >= sl.count;
    if last { i := sl.count; }
    w := if last then sl.last else sl.width;
  }

  /** Row and column of sample `k` in a sliced image, as the loop works them out. */
  method Locate(sl: Slices, k: nat) returns (row: int, col: int)
    requires sl.Ok() && Placed(sl, k) && sl.count > 0
    ensures (row, col) == Target(sl, k)
  {
    hide Slices.Size, Placed, Slices.Ok;
    InSlice(sl, k);
    var i, strip, w := Slice(sl, k);
    hide SliceOf, SliceWidth, Slices.Strip;
    var jidx := k - i * strip;
    row := jidx / w;
    col := jidx % w + i * sl.width;
  }

  /** The raster after sample `k`; one outside is dropped. */
  function Stored(sl: Slices, raw: seq<ushort>, k: nat, val: ushort): (r: seq<ushort>)
    requires sl.Ok() && |raw| == sl.Size()
    ensures |r| == |raw|
  {
    if Lands(sl, k) then raw[Cell(sl, k) := val] else raw
  }

  /** Row and column before plain sample `k`. Of the shifted raster they step back. */
  function Turn(sl: Slices, k: nat): (t: (int, int))
    requires sl.Ok() && sl.count == 0
    ensures 0 <= t.1 < sl.rawWidth
  {
    if sl.rawWidth == SHIFTED then ((0 - k) / SHIFTED, (0 - k) % SHIFTED) else Target(sl, k)
  }

  /** One sample: place, store, and the next place in reading order. */
  method Put(sl: Slices, k: nat, val: ushort, row0: int, col0: int, raw: array<ushort>) returns (row: int, col: int)
    requires sl.Ok() && Placed(sl, k) && raw.Length == sl.Size()
    requires sl.count == 0 ==> (row0, col0) == Turn(sl, k)
    modifies raw
    ensures raw[..] == Stored(sl, old(raw[..]), k, val)
    ensures sl.count == 0 ==> (row, col) == Turn(sl, k + 1)
  {
    hide Target, Slices.Size, Slices.Ok, Turn, Place, Lands, Cell, Placed;
    row, col := row0, col0;
    if sl.count > 0 { row, col := Locate(sl, k); }
    PlaceIs(sl, k, row, col);
    if sl.rawWidth == SHIFTED {
      col := col - 2;
      if col < 0 { row, col := row - 1, col + sl.rawWidth; }
    }
    if 0 <= row < sl.rawHeight { raw[row * sl.rawWidth + col] := val; }
    col := col + 1;
    if col >= sl.rawWidth { row, col := row + 1, 0; }
  }

  /** Where the loop stands before it stores, and after. */
  function Back(sl: Slices, row: int, col: int): (int, int) {
    if sl.rawWidth != SHIFTED then (row, col) else if col < 2 then (row - 1, col - 2 + sl.rawWidth) else (row, col - 2)
  }

  lemma PlaceIs(sl: Slices, k: nat, row: int, col: int)
    requires sl.Ok() && Placed(sl, k) && (row, col) == if sl.count == 0 then Turn(sl, k) else Target(sl, k)
    ensures var (r, c) := Back(sl, row, col);
            && (Lands(sl, k) <==> 0 <= r < sl.rawHeight) && (Lands(sl, k) ==> Cell(sl, k) == r * sl.rawWidth + c)
            && (sl.count == 0 ==> Turn(sl, k + 1) == if c + 1 >= sl.rawWidth then (r + 1, 0) else (r, c + 1))
  {
    var (r, c) := Back(sl, row, col);
    if sl.count == 0 { if sl.rawWidth == SHIFTED { TurnBack(sl, k); } else { NextPlace(sl, k); } }
    PlaceOfBack(sl, k, row, col);
    hide Target, Turn, Placed;
    Inside(sl, r, c);
  }

  lemma PlaceOfBack(sl: Slices, k: nat, row: int, col: int)
    requires sl.Ok() && Placed(sl, k) && (row, col) == if sl.count == 0 then Turn(sl, k) else Target(sl, k)
    ensures var (r, c) := Back(sl, row, col); 0 <= c < sl.rawWidth && Place(sl, k) == r * sl.rawWidth + c
  {
    hide Target, Slices.Size, Placed;
  }

  lemma Inside(sl: Slices, r: int, c: int)
    requires sl.Ok() && 0 <= c < sl.rawWidth
    ensures 0 <= r * sl.rawWidth + c < sl.Size() <==> 0 <= r < sl.rawHeight
  {
    if r >= 0 { FlatInside(sl, r, c); } else { Smaller(r, -1, sl.rawWidth); }
  }

  lemma NextPlace(sl: Slices, k: nat)
    requires sl.Ok() && sl.count == 0
    ensures var (row, col) := Target(sl, k);
            Target(sl, k + 1) == if col + 1 >= sl.rawWidth then (row + 1, 0) else (row, col + 1)
  {
    var w := sl.rawWidth;
    var (row, col) := Target(sl, k);
    Quotient(k, w);
    if col + 1 >= w { Distribute(row, 1, w); DivUnique(k + 1, w, row + 1, 0); } else { DivUnique(k + 1, w, row, col + 1); }
  }

  lemma TurnBack(sl: Slices, k: nat)
    requires sl.Ok() && sl.count == 0 && sl.rawWidth == SHIFTED
    ensures var (r, c) := Back(sl, Turn(sl, k).0, Turn(sl, k).1);
            Turn(sl, k + 1) == if c + 1 >= sl.rawWidth then (r + 1, 0) else (r, c + 1)
  {
    var (row, col) := Turn(sl, k);
    DivUnique(0 - k - 1, SHIFTED, if col == 0 then row - 1 else row, if col == 0 then SHIFTED - 1 else col - 1);
  }

  /** Storing a sample touches its own cell only. */
  lemma PutKeeps(sl: Slices, before: seq<ushort>, k: nat, val: ushort)
    requires sl.Ok() && |before| == sl.Size()
    ensures Keeps(sl, before, Stored(sl, before, k, val), k, k + 1)
  {
    hide Cell, Lands, Slices.Size;
    if Lands(sl, k) { assert Hit(sl, Cell(sl, k), k, k + 1); }
  }

  lemma KeepsMore(sl: Slices, a: seq<ushort>, b: seq<ushort>, c: seq<ushort>, lo: nat, mid: nat, hi: nat)
    requires sl.Ok() && |a| == |b| == |c| == sl.Size() && lo <= mid <= hi
    requires Keeps(sl, a, b, lo, mid) && Keeps(sl, b, c, mid, hi)
    ensures Keeps(sl, a, c, lo, hi)
  {
    hide Cell, Lands, Slices.Size;
  }

  lemma PutShows(sl: Slices, curve: seq<ushort>, raw: seq<ushort>, from: nat, row: seq<ushort>, n: nat)
    requires sl.Ok() && |raw| == sl.Size() && |curve| == 0x1_0000
    requires n < |row| && RowShown(sl, curve, raw, from, row, n)
    ensures RowShown(sl, curve, Stored(sl, raw, from + n, curve[row[n]]), from, row, n + 1)
  {
    PutKeeps(sl, raw, from + n, curve[row[n]]);
    hide Cell, Lands, Slices.Size, Hit, Slices.Ok;
    var after := Stored(sl, raw, from + n, curve[row[n]]);
    forall c | 0 <= c < n + 1 ensures SampleShown(sl, curve, after, from, row, c) {
      if c < n {
        assert SampleShown(sl, curve, raw, from, row, c);
        if Lands(sl, from + c) { NotHit(sl, from + c, from + n, from + n + 1); }
      }
    }
  }

  lemma KeepsRow(sl: Slices, curve: seq<ushort>, a: seq<ushort>, b: seq<ushort>, lo: nat, hi: nat, from: nat, row: seq<int>)
    requires sl.Ok() && |a| == |b| == sl.Size() && |curve| == 0x1_0000
    requires Keeps(sl, a, b, lo, hi) && from + |row| <= lo && RowShown(sl, curve, a, from, row, |row|)
    ensures RowShown(sl, curve, b, from, row, |row|)
  {
    hide Cell, Lands, Slices.Size, Hit, Slices.Ok;
    forall c | 0 <= c < |row| ensures SampleShown(sl, curve, b, from, row, c) {
      assert SampleShown(sl, curve, a, from, row, c);
      if Lands(sl, from + c) { NotHit(sl, from + c, lo, hi); }
    }
  }

  lemma NothingPut(sl: Slices, curve: seq<ushort>, raw: seq<ushort>, from: nat, row: seq<int>)
    requires sl.Ok() && |raw| == sl.Size() && |curve| == 0x1_0000
    ensures RowShown(sl, curve, raw, from, row, 0) && Keeps(sl, raw, raw, from, from)
  {
  }

  /** The pointer `rp` walks along the current half of the row buffer. */
  lemma RowSample(head: Jhead, jrow: nat, c: nat)
    requires head.Valid() && c < head.f.Width()
    ensures head.Place(jrow, c) < head.row.Length && head.row[head.Place(jrow, c)] == head.Half(jrow)[c]
  {
  }

  lemma HeadMeans(head: Jhead)
    requires head.Valid()
    ensures head.row.Length == 2 * head.f.Width() && head.f.Ok() && head.vpred.Length == 6 && head.buf.Valid()
  {
  }

  /** None of the first `n` samples makes the loop divide by zero. */
  predicate AllPlaced(sl: Slices, n: int) { n <= sl.Size() || sl.count == 0 || sl.last > 0 }

  lemma PlacedHere(sl: Slices, n: nat, k: nat)
    requires AllPlaced(sl, n) && k < n
    ensures Placed(sl, k)
  {
  }

  lemma PlacedFewer(sl: Slices, n: nat, k: nat)
    requires AllPlaced(sl, n) && k <= n
    ensures AllPlaced(sl, k)
  {
  }

  /** The inner loop: one decoded row into the raster. */
  method CopyRow(head: Jhead, jrow: nat, sl: Slices, curve: seq<ushort>, row0: int, col0: int, raw: array<ushort>) returns (row: int, col: int)
    requires head.Valid() && sl.Ok() && raw.Length == sl.Size() && |curve| == 0x1_0000 && raw != head.row
    requires AllPlaced(sl, (jrow + 1) * head.f.Width())
    requires sl.count == 0 ==> (row0, col0) == Turn(sl, jrow * head.f.Width())
    modifies raw
    ensures RowShown(sl, curve, raw[..], jrow * head.f.Width(), head.Half(jrow), head.f.Width())
    ensures Keeps(sl, old(raw[..]), raw[..], jrow * head.f.Width(), (jrow + 1) * head.f.Width())
    ensures sl.count == 0 ==> (row, col) == Turn(sl, (jrow + 1) * head.f.Width())
  {
    hide Cell, Slices.Size, Turn, Lands, Frame.Width, Keeps, RowShown, Jhead.Valid, Jhead.Half, Slices.Ok, AllPlaced, Stored;
    HeadMeans(head);
    row, col := row0, col0;
    ghost var line := head.Half(jrow);
    var from := jrow * head.f.Width();
    Distribute(jrow, 1, head.f.Width());
    NothingPut(sl, curve, raw[..], from, line);
    var jcol := 0;
    while jcol < head.f.Width()
      invariant 0 <= jcol <= head.f.Width()
      invariant RowShown(sl, curve, raw[..], from, line, jcol)
      invariant Keeps(sl, old(raw[..]), raw[..], from, from + jcol)
      invariant sl.count == 0 ==> (row, col) == Turn(sl, from + jcol)
    {
      ghost var was := raw[..];
      RowSample(head, jrow, jcol);
      PlacedHere(sl, (jrow + 1) * head.f.Width(), from + jcol);
      var val := curve[head.row[head.Place(jrow, jcol)]];
      row, col := Put(sl, from + jcol, val, row, col, raw);
      PutShows(sl, curve, was, from, line, jcol);
      PutKeeps(sl, was, from + jcol, val);
      KeepsMore(sl, old(raw[..]), was, raw[..], from, from + jcol, from + jcol + 1);
      jcol := jcol + 1;
    }
  }

  /** What decoding the whole image from where the reader stands would give. */
  ghost function Outcome(head: Jhead, j: nat, high: nat): Option<RowsOut>
    requires head.Valid() && j <= high
    reads head, head.huff, head.row, head.vpred, head.buf
  {
    head.Shaped();
    DecodeRows(head.f, head.Tables(), j, high, head.Half(j + 1), head.RowPredictions(j), head.RowBits(j))
  }

  /** With the rows `done` out, decoding goes on to what `start` says. */
  ghost predicate Under(head: Jhead, j: nat, high: nat, start: Option<RowsOut>, done: seq<seq<int>>, failed: bool, errs: nat)
    requires head.Valid() && j <= high
    reads head, head.huff, head.row, head.vpred, head.buf
  {
    start.Some? ==>
      && (j > 0 ==> head.buf.vbits >= 0) && head.buf.failed == failed && head.errors >= errs
      && var now := Outcome(head, j, high);
      && now.Some? && start.value == RowsOut(done + now.value.rows, now.value.rest, now.value.errors + head.errors - errs)
  }

  /** One row, and the fact that it is the next row of `start`. */
  method NextRow(head: Jhead, j: nat, high: nat, ghost start: Option<RowsOut>, ghost done: seq<seq<int>>, ghost failed: bool, ghost errs: nat)
    requires head.Valid() && j < high && Under(head, j, high, start, done, failed, errs)
    modifies head.row, head.vpred, head.buf, head`errors
    ensures head.Valid() && Under(head, j + 1, high, start, done + [head.Half(j)], failed, errs)
  {
    hide DecodeFrom, Jhead.Half, Jhead.Valid, TableShape, BitBuf.Rest, BytesToBits, Unstuff, Midpoints;
    HeadMeans(head);
    head.Shaped();
    head.Row(j);
    HeadMeans(head);
    head.HalfAgain(j);
  }

  lemma RowsExtended(sl: Slices, curve: seq<ushort>, a: seq<ushort>, b: seq<ushort>, rows: seq<seq<int>>, wide: nat, row: seq<ushort>)
    requires sl.Ok() && |a| == |b| == sl.Size() && |curve| == 0x1_0000 && |row| == wide
    requires RowsShown(sl, curve, a, rows, wide, |rows|)
    requires Keeps(sl, a, b, |rows| * wide, (|rows| + 1) * wide) && RowShown(sl, curve, b, |rows| * wide, row, wide)
    ensures RowsShown(sl, curve, b, rows + [row], wide, |rows| + 1)
  {
    hide Keeps, RowShown, Slices.Size;
    forall j | 0 <= j < |rows|
      ensures RowShown(sl, curve, b, j * wide, rows[j], wide)
    {
      Smaller(j + 1, |rows|, wide);
      KeepsRow(sl, curve, a, b, |rows| * wide, (|rows| + 1) * wide, j * wide, rows[j]);
    }
  }

  lemma NoRows(sl: Slices, curve: seq<ushort>, raw: seq<ushort>, wide: nat)
    requires sl.Ok() && |raw| == sl.Size() && |curve| == 0x1_0000
    ensures RowsShown(sl, curve, raw, [], wide, 0) && 0 * wide == 0 && Keeps(sl, raw, raw, 0, 0)
    ensures sl.count == 0 ==> Turn(sl, 0) == (0, 0)
  {
    DivUnique(0, sl.rawWidth, 0, 0);
  }

  lemma Started(head: Jhead, high: nat)
    requires head.Valid()
    ensures Under(head, 0, high, Outcome(head, 0, high), [], head.buf.failed, head.errors)
  {
    hide Jhead.Valid, DecodeRows, Jhead.Half, Jhead.RowBits, Jhead.RowPredictions;
    var start := Outcome(head, 0, high);
    if start.Some? { assert [] + start.value.rows == start.value.rows; }
  }

  lemma Finished(head: Jhead, high: nat, start: Option<RowsOut>, done: seq<seq<int>>, failed: bool, errs: nat)
    requires head.Valid() && Under(head, high, high, start, done, failed, errs)
    ensures start.Some? ==>
              start.value.rows == done && head.buf.failed == failed && head.errors == errs + start.value.errors
  {
    hide Jhead.Valid, Jhead.Half, Jhead.RowBits, Jhead.RowPredictions;
    assert done + [] == done;
  }

  /** lossless_jpeg_load_raw, for an image of any size. If the stream can be decoded, every
      sample ends up in its cell, samples outside the raster are dropped, cells without a sample
      keep what they had, and no other error is reported than those of samples with too
      many bits. */
  method LoadRaw(head: Jhead, high: nat, sl: Slices, curve: seq<ushort>, raw: array<ushort>)
    requires head.Valid() && sl.Ok() && raw.Length == sl.Size() && |curve| == 0x1_0000 && raw != head.row
    requires forall c :: 0 <= c < head.f.clrs ==> (head.huff[c] as object) != raw
    requires (raw as object) != head.vpred
    requires AllPlaced(sl, high * head.f.Width())
    modifies head.row, head.vpred, head.buf, head`errors, raw
    ensures head.Valid()
    ensures var start := old(Outcome(head, 0, high));
            start.Some? ==>
              && RowsShown(sl, curve, raw[..], start.value.rows, head.f.Width(), high)
              && |start.value.rows| == high && Keeps(sl, old(raw[..]), raw[..], 0, high * head.f.Width())
              && head.buf.failed == old(head.buf.failed) && head.errors == old(head.errors) + start.value.errors
  {
    hide Jhead.Half, Keeps, RowsShown, RowShown, Outcome, Under, Frame.Width, Slices.Size, Turn, Slices.Ok, TableShape, AllPlaced;
    ghost var start, done := Outcome(head, 0, high), [];
    ghost var failed, errs := head.buf.failed, head.errors;
    Started(head, high);
    NoRows(sl, curve, raw[..], head.f.Width());
    Smaller(0, high, head.f.Width());
    var row, col, jrow := 0, 0, 0;
    while jrow < high
      invariant 0 <= jrow <= high && head.Valid() && |done| == jrow
      invariant Under(head, jrow, high, start, done, failed, errs)
      invariant RowsShown(sl, curve, raw[..], done, head.f.Width(), jrow)
      invariant Keeps(sl, old(raw[..]), raw[..], 0, jrow * head.f.Width())
      invariant sl.count == 0 ==> (row, col) == Turn(sl, jrow * head.f.Width())
    {
      ghost var was := raw[..];
      NextRow(head, jrow, high, start, done, failed, errs);
      Smaller(jrow + 1, high, head.f.Width());
      PlacedFewer(sl, high * head.f.Width(), (jrow + 1) * head.f.Width());
      HeadMeans(head);
      row, col := CopyRow(head, jrow, sl, curve, row, col, raw);
      KeepsMore(sl, old(raw[..]), was, raw[..], 0, jrow * head.f.Width(), (jrow + 1) * head.f.Width());
      RowsExtended(sl, curve, was, raw[..], done, head.f.Width(), head.Half(jrow));
      done := done + [head.Half(jrow)];
      jrow := jrow + 1;
    }
    Finished(head, high, start, done, failed, errs);
  }

  /** The file holds the image from `pos` on: bytes that spell the encoder's bits, stuffed. */
  ghost predicate Holds(file: seq<byte>, pos: nat, f: Frame, codes: seq<Code>, image: seq<seq<int>>, bytes: seq<byte>)
    requires f.Ok() && CodesOk(f, codes) && forall j :: 0 <= j < |image| ==> |image[j]| == f.Width()
  {
    && pos <= |file| && Stuff(bytes) <= file[pos..]
    && EncodeRows(f, codes, image, 0).Some? && EncodeRows(f, codes, image, 0).value <= BytesToBits(bytes)
  }

  /** From such a file the decoder gets the image and nothing to complain about. */
  lemma HeldImage(file: seq<byte>, pos: nat, f: Frame, codes: seq<Code>, huffs: seq<seq<nat>>, image: seq<seq<int>>, bytes: seq<byte>)
    returns (rest: seq<bool>)
    requires f.Ok() && TablesFor(f, codes, huffs) && CodesOk(f, codes) && TablesShaped(f, huffs) && ImageOk(f, image) && |image| > 0
    requires forall j :: 0 <= j < |image| ==> |image[j]| == f.Width()
    requires Holds(file, pos, f, codes, image, bytes)
    ensures DecodeRows(f, huffs, 0, |image|, Above(f, image, 0), Midpoints(f), BytesToBits(Unstuff(file[pos..], true))) ==
            Some(RowsOut(image, rest, 0))
  {
    hide TablesFor, CodesOk, TablesShaped, ImageOk, EncodeRows, DecodeRows, BytesToBits, Unstuff, Stuff, Midpoints, Tracks;
    var enc := EncodeRows(f, codes, image, 0).value;
    var tail := file[pos..][|Stuff(bytes)|..];
    assert file[pos..] == Stuff(bytes) + tail;
    UnstuffStuff(bytes, tail);
    BytesToBitsConcat(bytes, Unstuff(tail, true));
    var pad := BytesToBits(bytes)[|enc|..];
    rest := pad + BytesToBits(Unstuff(tail, true));
    assert BytesToBits(Unstuff(file[pos..], true)) == enc + rest;
    MidpointsTrack(f, image);
    ImageRoundTrip(f, codes, huffs, image, 0, Midpoints(f), rest);
    assert image[0..] == image;
  }

  /** The decoding tables are those of the codes. */
  ghost predicate Built(f: Frame, codes: seq<Code>, huff: seq<array<nat>>)
    requires |huff| == f.clrs && CodesOk(f, codes)
    reads huff
  {
    forall c :: 0 <= c < f.clrs ==> TableShape(huff[c][..]) && TableFor(codes[c], huff[c][..])
  }

  /** A whole lossless JPEG raw image: encode, stuff, decode, unslice, and every raster cell is
      the curve's value for the sample that was encoded for it. */
  method LoadImage(f: Frame, huff: seq<array<nat>>, file: seq<byte>, pos: nat, high: nat, sl: Slices, curve: seq<ushort>, raw: array<ushort>,
                   ghost codes: seq<Code>, ghost image: seq<seq<int>>, ghost bytes: seq<byte>)
    returns (errors: nat, failed: bool)
    requires f.Ok() && |huff| == f.clrs && CodesOk(f, codes) && ImageOk(f, image) && |image| == high > 0
    requires Built(f, codes, huff) && forall c :: 0 <= c < f.clrs ==> (huff[c] as object) != raw
    requires (forall j :: 0 <= j < |image| ==> |image[j]| == f.Width()) && Holds(file, pos, f, codes, image, bytes)
    requires sl.Ok() && raw.Length == sl.Size() && AllPlaced(sl, high * f.Width()) && |curve| == 0x1_0000
    modifies raw
    ensures RowsShown(sl, curve, raw[..], image, f.Width(), high) && Keeps(sl, old(raw[..]), raw[..], 0, high * f.Width())
    ensures errors == 0 && !failed
  {
    hide TableShape, TableFor, ImageOk, EncodeRows, Stuff, RowsShown, Slices.Size, Slices.Ok, DecodeRows, BytesToBits, Unstuff, Midpoints;
    var head := new Jhead(f, huff, file, pos);
    ghost var rest := HeldImage(file, pos, f, codes, head.Tables(), image, bytes);
    LoadRaw(head, high, sl, curve, raw);
    errors, failed := head.errors, head.buf.failed;
  }
}
