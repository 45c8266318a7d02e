/** Where the samples of a lossless JPEG image go in the raster: plain rows, or the vertical
    slices of Canon's CR2 files. */
module RawSlices {
  import opened Bits

  /** cr2_slice[0..2] and the raster: `count` slices of `width` columns and a last one of `last`. */
  datatype Slices = Slices(count: nat, width: nat, last: nat, rawWidth: nat, rawHeight: nat) {
    predicate Ok() {
      rawWidth > 0 && rawHeight > 0 && (count > 0 ==> width > 0 && count * width + last == rawWidth)
    }

    function Size(): nat { rawWidth * rawHeight }

    /** Samples in one slice. */
    function Strip(): (n: nat)
      requires Ok()
      ensures count > 0 ==> n > 0
    {
      if count > 0 then MulSign(width, rawHeight); width * rawHeight else 0
    }
  }

  /** Slice of sample `k`. */
  function SliceOf(sl: Slices, k: nat): (i: nat)
    requires sl.Ok() && sl.count > 0
    ensures i <= sl.count
  {
    DivNonNegative(k, sl.Strip());
    if k / sl.Strip() >= sl.count then sl.count else k / sl.Strip()
  }

  function SliceWidth(sl: Slices, i: nat): nat { if i >= sl.count then sl.last else sl.width }

  /** The loop does not divide by zero for sample `k`: a sample too many needs a last slice. */
  predicate Placed(sl: Slices, k: nat) { k < sl.Size() || sl.count == 0 || sl.last > 0 }

  lemma Rows(k: nat, w: nat, h: nat)
    requires w > 0
    ensures 0 <= k / w && (k / w < h <==> k < w * h)
  {
    DivNonNegative(k, w);
    Quotient(k, w);
    if k / w < h { MulStep(k / w, h, w); } else { Smaller(h, k / w, w); }
    Commute(w, h);
  }

  /** Row and column of sample `k` in the order of the stream. Samples that are too many come
      out below the raster. */
  function Target(sl: Slices, k: nat): (t: (int, int))
    requires sl.Ok() && Placed(sl, k)
    ensures 0 <= t.0 && 0 <= t.1 < sl.rawWidth && (t.0 < sl.rawHeight <==> k < sl.Size())
  {
    if sl.count == 0 then
      Rows(k, sl.rawWidth, sl.rawHeight);
      (k / sl.rawWidth, k % sl.rawWidth)
    else
      InSlice(sl, k);
      var i := SliceOf(sl, k);
      var rest, w := k - i * sl.Strip(), SliceWidth(sl, i);
      (rest / w, rest % w + i * sl.width)
  }

  /** Place of a raster position in the stream. */
  function Source(sl: Slices, row: nat, col: nat): (k: int)
    requires sl.Ok()
  {
    if sl.count == 0 then row * sl.rawWidth + col
    else
      var i := if col / sl.width >= sl.count then sl.count else col / sl.width;
      i * sl.Strip() + row * SliceWidth(sl, i) + (col - i * sl.width)
  }

  lemma Products(a: int, b: int, c: int)
    ensures (a + b) * c == a * c + b * c && (a * b) * c == a * (b * c)
  {
    Distribute(a, b, c);
    Assoc(a, b, c);
  }

  lemma SliceBounds(sl: Slices, k: nat)
    requires sl.Ok() && sl.count > 0
    ensures var i, s := SliceOf(sl, k), sl.Strip(); i * s <= k && (i < sl.count ==> k < i * s + s)
  {
    var s := sl.Strip();
    DivNonNegative(k, s);
    assert k == (k / s) * s + k % s;
    if k / s >= sl.count { Smaller(sl.count, k / s, s); }
  }

  /** The strips fill the raster. */
  lemma SizeIs(sl: Slices)
    requires sl.Ok() && sl.count > 0
    ensures sl.Size() == sl.count * sl.Strip() + sl.last * sl.rawHeight
  {
    Products(sl.count * sl.width, sl.last, sl.rawHeight);
    Products(sl.count, sl.width, sl.rawHeight);
  }

  /** Columns of slice `i`. */
  lemma SliceColumns(sl: Slices, i: nat)
    requires sl.Ok() && sl.count > 0 && i <= sl.count
    ensures 0 <= i * sl.width && i * sl.width + SliceWidth(sl, i) <= sl.rawWidth
  {
    Smaller(0, i, sl.width);
    if i < sl.count { Smaller(i + 1, sl.count, sl.width); }
  }

  /** Sample `k` lies in its slice, which is not empty. */
  lemma InSlice(sl: Slices, k: nat)
    requires sl.Ok() && sl.count > 0 && Placed(sl, k)
    ensures var i := SliceOf(sl, k); var w := SliceWidth(sl, i);
            var rest := k - i * sl.Strip();
            && w > 0 && 0 <= rest && 0 <= rest / w && (rest / w < sl.rawHeight <==> k < sl.Size())
            && 0 <= i * sl.width && i * sl.width + w <= sl.rawWidth
  {
    hide Slices.Size;
    var i := SliceOf(sl, k);
    SliceBounds(sl, k);
    SizeIs(sl);
    SliceColumns(sl, i);
    BeforeLast(sl, i);
    hide SliceOf;
    var w, rest := SliceWidth(sl, i), k - i * sl.Strip();
    NoProduct(w, sl.rawHeight);
    Rows(rest, w, sl.rawHeight);
  }

  /** All slices but the last lie inside the raster. */
  lemma BeforeLast(sl: Slices, i: nat)
    requires sl.Ok() && sl.count > 0 && i <= sl.count
    ensures i < sl.count ==> i * sl.Strip() + sl.width * sl.rawHeight <= sl.count * sl.Strip()
    ensures sl.last * sl.rawHeight >= 0
  {
    if i < sl.count { MulStep(i, sl.count, sl.Strip()); }
  }

  lemma SourceAt(sl: Slices, i: nat, row: nat, c: nat)
    requires sl.Ok() && sl.count > 0 && i <= sl.count && c < SliceWidth(sl, i)
    ensures i * sl.width >= 0 && Source(sl, row, i * sl.width + c) == i * sl.Strip() + row * SliceWidth(sl, i) + c
  {
    Smaller(0, i, sl.width);
    ColumnSlice(sl, i, c);
  }

  /** The slice map is one to one: the raster position tells the sample. */
  lemma SourceOfTarget(sl: Slices, k: nat)
    requires sl.Ok() && Placed(sl, k)
    ensures Source(sl, Target(sl, k).0, Target(sl, k).1) == k
  {
    if sl.count == 0 {
      Quotient(k, sl.rawWidth);
    } else {
      InSlice(sl, k);
      hide SliceOf, SliceWidth, Slices.Size, Slices.Strip, Source;
      var i := SliceOf(sl, k);
      var w, rest := SliceWidth(sl, i), k - i * sl.Strip();
      Quotient(rest, w);
      SourceAt(sl, i, rest / w, rest % w);
    }
  }

  /** A column belongs to the slice that it is in. */
  lemma ColumnSlice(sl: Slices, i: nat, c: nat)
    requires sl.Ok() && i <= sl.count && c < SliceWidth(sl, i) && sl.count > 0
    ensures var col := i * sl.width + c; (if col / sl.width >= sl.count then sl.count else col / sl.width) == i
  {
    AddDiv(i, sl.width, c);
  }

  /** The slice map is onto: every raster position gets a sample. */
  lemma TargetOfSource(sl: Slices, row: nat, col: nat)
    requires sl.Ok() && row < sl.rawHeight && col < sl.rawWidth
    ensures 0 <= Source(sl, row, col) < sl.Size() && Target(sl, Source(sl, row, col)) == (row, col)
  {
    var k := Source(sl, row, col);
    if sl.count == 0 {
      Smaller(row + 1, sl.rawHeight, sl.rawWidth);
      Smaller(0, row, sl.rawWidth);
      DivUnique(k, sl.rawWidth, row, col);
    } else {
      SourceInSlice(sl, row, col);
    }
  }

  lemma InColumns(sl: Slices, col: nat, i: nat)
    requires sl.Ok() && sl.count > 0 && col < sl.rawWidth && i == if col / sl.width >= sl.count then sl.count else col / sl.width
    ensures 0 <= col - i * sl.width < SliceWidth(sl, i)
  {
    assert col == (col / sl.width) * sl.width + col % sl.width;
    if i == sl.count { Smaller(i, col / sl.width, sl.width); }
  }

  lemma SourceInSlice(sl: Slices, row: nat, col: nat)
    requires sl.Ok() && row < sl.rawHeight && col < sl.rawWidth && sl.count > 0
    ensures 0 <= Source(sl, row, col) < sl.Size() && Target(sl, Source(sl, row, col)) == (row, col)
  {
    var k, h, s := Source(sl, row, col), sl.rawHeight, sl.Strip();
    DivNonNegative(col, sl.width);
    var i := if col / sl.width >= sl.count then sl.count else col / sl.width;
    var w, c := SliceWidth(sl, i), col - i * sl.width;
    InColumns(sl, col, i);
    var rest := row * w + c;
    CellAt(row, c, h, w);
    Commute(h, w);
    InSize(sl, i);
    SliceAt(sl, i, rest);
    DivUnique(rest, w, row, c);
  }

  /** Slice `i` ends inside the raster. */
  lemma InSize(sl: Slices, i: nat)
    requires sl.Ok() && sl.count > 0 && i <= sl.count
    ensures i * sl.Strip() + SliceWidth(sl, i) * sl.rawHeight <= sl.Size()
  {
    var n := sl.count;
    Products(n * sl.width, sl.last, sl.rawHeight);
    Products(n, sl.width, sl.rawHeight);
    if i < n { Smaller(i + 1, n, sl.Strip()); Smaller(0, sl.last, sl.rawHeight); }
  }

  /** Whole divisors pass through a division. */
  lemma AddDiv(i: nat, s: nat, r: nat)
    requires s > 0
    ensures 0 <= i * s + r && (i * s + r) / s == i + r / s && r / s >= 0
    ensures r < s ==> r / s == 0
  {
    DivNonNegative(r, s);
    Smaller(0, i, s);
    var q := r / s;
    assert r == q * s + r % s;
    Products(i, q, s);
    DivUnique(i * s + r, s, i + q, r % s);
    if r < s { DivUnique(r, s, 0, r); }
  }

  lemma SliceAt(sl: Slices, i: nat, rest: nat)
    requires sl.Ok() && sl.count > 0 && i <= sl.count && rest < SliceWidth(sl, i) * sl.rawHeight
    ensures i * sl.Strip() + rest >= 0 && SliceOf(sl, i * sl.Strip() + rest) == i
  {
    hide Slices.Size;
    AddDiv(i, sl.Strip(), rest);
  }

  // ---------------------------------------------------------------- the order of the samples

  /** The slice that column `col` is in. */
  function SliceOfColumn(sl: Slices, col: nat): (i: nat)
    requires sl.Ok() && sl.count > 0
    ensures i <= sl.count
  {
    DivNonNegative(col, sl.width);
    if col / sl.width >= sl.count then sl.count else col / sl.width
  }

  /** Column behind slice `i`. */
  function RightEdge(sl: Slices, i: nat): int { i * sl.width + SliceWidth(sl, i) }

  /** The samples fill a slice row by row from left to right, and the slices one after the other:
      that, from the upper left corner on, is the whole slice map. */
  lemma NextTarget(sl: Slices, k: nat)
    requires sl.Ok() && sl.count > 0 && k + 1 < sl.Size()
    ensures Target(sl, 0) == (0, 0)
    ensures var (row, col) := Target(sl, k);
            var i := SliceOfColumn(sl, col);
            Target(sl, k + 1) ==
            if col + 1 < RightEdge(sl, i) then (row, col + 1)
            else if row + 1 < sl.rawHeight then (row + 1, i * sl.width)
            else (0, RightEdge(sl, i))
  {
    FirstTarget(sl);
    var i := SliceOf(sl, k);
    var w, rest := SliceWidth(sl, i), k - i * sl.Strip();
    RestInside(sl, k);
    TargetAt(sl, i, rest);
    ColumnSlice(sl, i, rest % w);
    if rest + 1 < w * sl.rawHeight {
      NextInSlice(rest, w, sl.rawHeight);
      TargetAt(sl, i, rest + 1);
    } else {
      LastInSlice(rest, w, sl.rawHeight);
      SliceEnds(sl, i, k);
    }
    hide *;
  }

  lemma RestInside(sl: Slices, k: nat)
    requires sl.Ok() && sl.count > 0 && k < sl.Size()
    ensures var i := SliceOf(sl, k); SliceWidth(sl, i) > 0 && 0 <= k - i * sl.Strip() < SliceWidth(sl, i) * sl.rawHeight
  {
    InSlice(sl, k);
    var i := SliceOf(sl, k);
    hide Slices.Size, SliceOf;
    Rows(k - i * sl.Strip(), SliceWidth(sl, i), sl.rawHeight);
  }

  /** The position of a sample from its slice and its number in there. */
  lemma TargetAt(sl: Slices, i: nat, rest: nat)
    requires sl.Ok() && sl.count > 0 && i <= sl.count && rest < SliceWidth(sl, i) * sl.rawHeight
    ensures 0 <= i * sl.Strip() + rest < sl.Size() && SliceWidth(sl, i) > 0
    ensures Target(sl, i * sl.Strip() + rest) == (rest / SliceWidth(sl, i), rest % SliceWidth(sl, i) + i * sl.width)
  {
    SliceAt(sl, i, rest);
    InSize(sl, i);
    NoProduct(SliceWidth(sl, i), sl.rawHeight);
    hide SliceOf, SliceWidth, Slices.Size, Slices.Strip;
  }

  lemma NextInSlice(rest: nat, w: nat, h: nat)
    requires w > 0 && rest + 1 < w * h
    ensures ((rest + 1) / w, (rest + 1) % w) == if rest % w + 1 < w then (rest / w, rest % w + 1) else (rest / w + 1, 0)
    ensures rest % w + 1 >= w ==> rest / w + 1 < h
  {
    Quotient(rest, w);
    if rest % w + 1 < w {
      DivUnique(rest + 1, w, rest / w, rest % w + 1);
    } else {
      Distribute(rest / w, 1, w);
      DivUnique(rest + 1, w, rest / w + 1, 0);
      Commute(w, h);
      if h <= rest / w + 1 { Smaller(h, rest / w + 1, w); }
    }
  }

  lemma LastInSlice(rest: nat, w: nat, h: nat)
    requires w > 0 && rest + 1 == w * h
    ensures rest % w + 1 == w && rest / w + 1 == h
  {
    Distribute(h - 1, 1, w);
    Commute(w, h);
    DivUnique(rest, w, h - 1, w - 1);
  }

  lemma FirstTarget(sl: Slices)
    requires sl.Ok() && sl.count > 0
    ensures Placed(sl, 0) ==> Target(sl, 0) == (0, 0)
  {
    if Placed(sl, 0) {
      InSlice(sl, 0);
      DivUnique(0, sl.Strip(), 0, 0);
      DivUnique(0, SliceWidth(sl, 0), 0, 0);
      hide Slices.Size;
    }
  }

  /** Behind the last sample of a slice comes the first of the next. */
  lemma SliceEnds(sl: Slices, i: nat, k: nat)
    requires sl.Ok() && sl.count > 0 && i == SliceOf(sl, k) && k + 1 < sl.Size() && k + 1 == i * sl.Strip() + SliceWidth(sl, i) * sl.rawHeight
    ensures Target(sl, k + 1) == (0, RightEdge(sl, i))
  {
    SizeIs(sl);
    InSlice(sl, k + 1);
    assert i < sl.count;
    Distribute(i, 1, sl.Strip());
    Distribute(i, 1, sl.width);
    var w := SliceWidth(sl, i + 1);
    BeforeLast(sl, i + 1);
    NoProduct(w, sl.rawHeight);
    NextFits(sl, i + 1, k + 1);
    SliceAt(sl, i + 1, 0);
    DivUnique(0, w, 0, 0);
  }

  lemma NextFits(sl: Slices, i: nat, k: nat)
    requires sl.Ok() && sl.count > 0 && i <= sl.count && k == i * sl.Strip() < sl.Size()
    ensures SliceWidth(sl, i) > 0 && SliceWidth(sl, i) * sl.rawHeight > 0
  {
    SizeIs(sl);
    if i == sl.count { NoProduct(sl.last, sl.rawHeight); }
    MulSign(sl.rawHeight, SliceWidth(sl, i));
  }
}
