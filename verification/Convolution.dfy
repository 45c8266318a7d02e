/** Separable convolution over a ring of horizontal sums, against the direct sum over the whole
    kernel. Floats are exact reals here. */
module Convolution {
  import opened Bits

  /** Source pixels and kernels. Column `c` of row `r` begins at `off + r*line + c*col`, and the
      taps of the horizontal kernel are `tap` apart. */
  datatype Conv = Conv(src: seq<int>, hk: seq<real>, vk: seq<real>, off: nat, line: nat, col: nat, tap: nat, width: nat, height: nat) {
    function Kh(): nat { |vk| }
    function Size(): nat { |vk| * width }

    /** Everything that is read lies in the source. */
    predicate Ok() {
      && |vk| >= 1 && |hk| >= 1
      && (width > 0 ==> off + (height + |vk| - 2) * line + (width - 1) * col + (|hk| - 1) * tap < |src|)
    }
  }

  /** Sum of the first `n` taps of a row of the kernel, laid at `at`. */
  function HSum(k: Conv, at: nat, n: nat): real
    requires n <= |k.hk| && (n > 0 ==> at + (n - 1) * k.tap < |k.src|)
  {
    if n == 0 then 0.0 else
      LessTap(k, n);
      HSum(k, at, n - 1) + k.src[at + (n - 1) * k.tap] as real * k.hk[n - 1]
  }

  lemma LessTap(k: Conv, n: nat)
    requires n > 0
    ensures n > 1 ==> (n - 2) * k.tap <= (n - 1) * k.tap
    ensures 0 <= (n - 1) * k.tap
  {
  }

  function Base(k: Conv, r: nat, c: nat): nat { k.off + r * k.line + c * k.col }

  /** A place of the kernel that the loops come to is inside the source. */
  lemma Inside(k: Conv, r: nat, c: nat, n: nat)
    requires k.Ok() && r + 1 < k.height + k.Kh() && c < k.width && n < |k.hk|
    ensures Base(k, r, c) + n * k.tap < |k.src|
  {
    Smaller(r, k.height + k.Kh() - 2, k.line);
    Smaller(c, k.width - 1, k.col);
    Smaller(n, |k.hk| - 1, k.tap);
  }

  /** The horizontal sum at row `r` and column `c`. */
  function H(k: Conv, r: nat, c: nat): real
    requires k.Ok() && r + 1 < k.height + k.Kh() && c < k.width
  {
    Inside(k, r, c, |k.hk| - 1);
    HSum(k, Base(k, r, c), |k.hk|)
  }

  /** 0.5 and the vertical sum of the first `n` rows, as the fast form has it. */
  function VSum(k: Conv, j: nat, c: nat, n: nat): real
    requires k.Ok() && j < k.height && c < k.width && n <= k.Kh()
  {
    if n == 0 then 0.5 else VSum(k, j, c, n - 1) + H(k, j + n - 1, c) * k.vk[n - 1]
  }

  /** The direct form: tap by tap over the rows `a` and the columns of the kernel. */
  function DirectRow(k: Conv, j: nat, c: nat, a: nat, n: nat): real
    requires k.Ok() && j < k.height && c < k.width && a < k.Kh() && n <= |k.hk|
  {
    if n == 0 then 0.0 else
      Inside(k, j + a, c, n - 1);
      DirectRow(k, j, c, a, n - 1) + k.vk[a] * k.hk[n - 1] * k.src[Base(k, j + a, c) + (n - 1) * k.tap] as real
  }

  function Direct(k: Conv, j: nat, c: nat, n: nat): real
    requires k.Ok() && j < k.height && c < k.width && n <= k.Kh()
  {
    if n == 0 then 0.5 else Direct(k, j, c, n - 1) + DirectRow(k, j, c, n - 1, |k.hk|)
  }

  lemma {:induction false} RowFactors(k: Conv, j: nat, c: nat, a: nat, n: nat)
    requires k.Ok() && j < k.height && c < k.width && a < k.Kh() && n <= |k.hk|
    ensures n > 0 ==> Base(k, j + a, c) + (n - 1) * k.tap < |k.src|
    ensures DirectRow(k, j, c, a, n) == HSum(k, Base(k, j + a, c), n) * k.vk[a]
    decreases n
  {
    if n > 0 {
      Inside(k, j + a, c, n - 1);
      RowFactors(k, j, c, a, n - 1);
      var s, h, v, x := HSum(k, Base(k, j + a, c), n - 1), k.hk[n - 1], k.vk[a], k.src[Base(k, j + a, c) + (n - 1) * k.tap] as real;
      Factor(s, x, h, v);
    }
  }

  lemma Factor(s: real, x: real, h: real, v: real)
    ensures (s + x * h) * v == s * v + v * h * x
  {
  }

  lemma RowSum(k: Conv, j: nat, c: nat, a: nat)
    requires k.Ok() && j < k.height && c < k.width && a < k.Kh()
    ensures DirectRow(k, j, c, a, |k.hk|) == H(k, j + a, c) * k.vk[a]
  {
    RowFactors(k, j, c, a, |k.hk|);
  }

  /** The separable form equals the direct double sum. */
  lemma {:induction false} Separable(k: Conv, j: nat, c: nat, n: nat)
    requires k.Ok() && j < k.height && c < k.width && n <= k.Kh()
    ensures VSum(k, j, c, n) == Direct(k, j, c, n)
  {
    hide DirectRow, H;
    if n > 0 {
      Separable(k, j, c, n - 1);
      RowSum(k, j, c, n - 1);
    }
  }

  /** Clamped to [0, max] and cut to an integer by the cast. */
  function Store(f: real, max: nat): int {
    (if f < 0.0 then 0.0 else if f > max as real then max as real else f).Floor
  }

  function Pixel(k: Conv, j: nat, c: nat, max: nat): int
    requires k.Ok() && j < k.height && c < k.width
  {
    Store(VSum(k, j, c, k.Kh()), max)
  }

  // ---------------------------------------------------------------- the ring

  /** Where the horizontal sum of row `r` and column `c` is kept. */
  function Slot(k: Conv, r: nat, c: nat): nat
    requires k.Kh() > 0
  {
    r % k.Kh() * k.width + c
  }

  lemma SlotInside(k: Conv, r: nat, c: nat)
    requires k.Kh() > 0 && c < k.width
    ensures 0 <= Slot(k, r, c) < k.Size()
  {
    Smaller(r % k.Kh() + 1, k.Kh(), k.width);
    Distribute(r % k.Kh(), 1, k.width);
    Smaller(0, r % k.Kh(), k.width);
  }

  /** Among any `kh` rows in a row, no two sums share a slot. */
  lemma SlotApart(k: Conv, r: nat, c: nat, r': nat, c': nat)
    requires k.Kh() > 0 && c < k.width && c' < k.width && Slot(k, r, c) == Slot(k, r', c') && r <= r' < r + k.Kh()
    ensures r == r' && c == c'
  {
    var q, q' := r % k.Kh(), r' % k.Kh();
    DivUnique(Slot(k, r, c), k.width, q, c);
    DivUnique(Slot(k, r', c'), k.width, q', c');
    SameRest(r, r', k.Kh());
  }

  lemma SlotsOfRow(k: Conv, r: nat, c: nat, c': nat)
    requires k.Kh() > 0 && c != c'
    ensures Slot(k, r, c) != Slot(k, r, c')
  {
  }

  lemma SameRest(r: nat, r': nat, n: nat)
    requires n > 0 && r % n == r' % n && r <= r' < r + n
    ensures r == r'
  {
    var d := r' / n - r / n;
    assert r' - r == d * n;
    MulSign(n, d);
  }

  /** A live sum is in its slot. */
  ghost predicate Holds(k: Conv, tmp: seq<real>, r: nat, c: nat)
    requires k.Ok() && |tmp| >= k.Size() && r + 1 < k.height + k.Kh() && c < k.width
  {
    SlotInside(k, r, c);
    tmp[Slot(k, r, c)] == H(k, r, c)
  }

  /** The sums of rows `from` to `to - 1` and of the first `i` columns of row `to` are in their
      slots. */
  ghost predicate Ring(k: Conv, tmp: seq<real>, from: nat, to: nat, i: int)
    requires k.Ok() && |tmp| >= k.Size() && to < k.height + k.Kh()
  {
    && (forall r, c | from <= r < to && c < k.width && r + 1 < k.height + k.Kh() && 0 <= c :: Holds(k, tmp, r, c))
    && (forall c | 0 <= c < i && c < k.width && to + 1 < k.height + k.Kh() :: Holds(k, tmp, to, c))
  }

  /** Storing one more sum loses only the row that is `kh` rows back. */
  lemma RingStep(k: Conv, tmp: seq<real>, from: nat, to: nat, i: nat)
    requires k.Ok() && |tmp| >= k.Size() && from <= to && to + 1 < k.height + k.Kh() && to < from + k.Kh() && i < k.width
    requires Ring(k, tmp, from, to, i)
    ensures 0 <= Slot(k, to, i) < |tmp| && Ring(k, tmp[Slot(k, to, i) := H(k, to, i)], from, to, i + 1)
  {
    hide H;
    SlotInside(k, to, i);
    var now := tmp[Slot(k, to, i) := H(k, to, i)];
    forall r, c | from <= r < to && 0 <= c < k.width && r + 1 < k.height + k.Kh() ensures Holds(k, now, r, c) {
      assert Holds(k, tmp, r, c);
      SlotInside(k, r, c);
      if Slot(k, r, c) == Slot(k, to, i) { SlotApart(k, r, c, to, i); }
    }
    forall c | 0 <= c < i + 1 && c < k.width ensures Holds(k, now, to, c) {
      SlotInside(k, to, c);
      if c < i {
        assert Holds(k, tmp, to, c);
        SlotsOfRow(k, to, c, i);
      }
    }
  }

  /** A full row, and the oldest row given up. */
  lemma RingRow(k: Conv, tmp: seq<real>, from: nat, from': nat, to: nat)
    requires k.Ok() && |tmp| >= k.Size() && to + 1 < k.height + k.Kh() && from <= from'
    requires Ring(k, tmp, from, to, k.width)
    ensures Ring(k, tmp, from', to + 1, 0)
  {
    hide Holds;
  }

  // ---------------------------------------------------------------- the destination

  /** Pixel `c` of line `j` is written to `off + j*line + c*col`; lines do not overlap. */
  datatype Target = Target(off: nat, line: nat, col: nat) {
    predicate Ok(k: Conv, length: nat) {
      && col >= 1 && line >= k.width * col
      && (k.width > 0 && k.height > 0 ==> off + (k.height - 1) * line + (k.width - 1) * col < length)
    }

    function Cell(j: nat, c: nat): nat { off + j * line + c * col }
  }

  /** Which pixel a destination cell gets. */
  function Where(k: Conv, t: Target, m: nat): (r: Option<(nat, nat)>)
    requires t.col >= 1
    ensures r.Some? ==> r.value.0 < k.height && r.value.1 < k.width
  {
    if m < t.off || t.line == 0 then None
    else
      DivNonNegative(m - t.off, t.line);
      DivNonNegative((m - t.off) % t.line, t.col);
      var q, r := (m - t.off) / t.line, (m - t.off) % t.line;
      if r % t.col == 0 && r / t.col < k.width && q < k.height then Some((q, r / t.col)) else None
  }

  lemma WhereCell(k: Conv, t: Target, j: nat, c: nat)
    requires t.col >= 1 && t.line >= k.width * t.col && j < k.height && c < k.width
    ensures Where(k, t, t.Cell(j, c)) == Some((j, c)) && t.line > 0
  {
    Smaller(c + 1, k.width, t.col);
    Distribute(c, 1, t.col);
    Smaller(0, c, t.col);
    DivUnique(j * t.line + c * t.col, t.line, j, c * t.col);
    DivUnique(c * t.col, t.col, c, 0);
  }

  lemma CellWhere(k: Conv, t: Target, m: nat)
    requires t.col >= 1 && Where(k, t, m).Some?
    ensures t.Cell(Where(k, t, m).value.0, Where(k, t, m).value.1) == m
  {
    var q, r := (m - t.off) / t.line, (m - t.off) % t.line;
    assert m - t.off == q * t.line + r;
    assert r == (r / t.col) * t.col;
  }

  lemma CellInside(k: Conv, t: Target, length: nat, j: nat, c: nat)
    requires t.Ok(k, length) && j < k.height && c < k.width
    ensures t.Cell(j, c) < length
  {
    Smaller(j, k.height - 1, t.line);
    Smaller(c, k.width - 1, t.col);
  }

  /** Lines before `j`, and line `j` before column `c`, are written; all else is as it was. */
  ghost predicate Written(k: Conv, t: Target, max: nat, before: seq<int>, now: seq<int>, j: nat, c: nat)
    requires k.Ok() && t.col >= 1
  {
    |now| == |before| && forall m :: 0 <= m < |now| ==> now[m] == Expected(k, t, max, before, j, c, m)
  }

  function Expected(k: Conv, t: Target, max: nat, before: seq<int>, j: nat, c: nat, m: nat): int
    requires k.Ok() && t.col >= 1 && m < |before|
  {
    match Where(k, t, m)
    case None => before[m]
    case Some((j', c')) => if j' < j || (j' == j && c' < c) then Pixel(k, j', c', max) else before[m]
  }

  lemma WriteStep(k: Conv, t: Target, max: nat, before: seq<int>, now: seq<int>, j: nat, c: nat)
    requires k.Ok() && t.Ok(k, |before|) && j < k.height && c < k.width && Written(k, t, max, before, now, j, c)
    ensures t.Cell(j, c) < |now| && Written(k, t, max, before, now[t.Cell(j, c) := Pixel(k, j, c, max)], j, c + 1)
  {
    hide Pixel;
    CellInside(k, t, |before|, j, c);
    WhereCell(k, t, j, c);
    var after := now[t.Cell(j, c) := Pixel(k, j, c, max)];
    forall m | 0 <= m < |now| ensures after[m] == Expected(k, t, max, before, j, c + 1, m) {
      if Where(k, t, m).Some? { CellWhere(k, t, m); }
      hide Where;
    }
  }

  lemma LineDone(k: Conv, t: Target, max: nat, before: seq<int>, now: seq<int>, j: nat)
    requires k.Ok() && t.Ok(k, |before|) && Written(k, t, max, before, now, j, k.width)
    ensures Written(k, t, max, before, now, j + 1, 0)
  {
    hide Pixel;
    forall m | 0 <= m < |now| ensures now[m] == Expected(k, t, max, before, j + 1, 0, m) {
      hide Where;
    }
  }

  lemma NothingWritten(k: Conv, t: Target, max: nat, before: seq<int>)
    requires k.Ok() && t.Ok(k, |before|)
    ensures Written(k, t, max, before, before, 0, 0)
  {
    hide Pixel, Where;
  }

  // ---------------------------------------------------------------- the loops

  /** One step around the ring, as the code tests for its end. */
  lemma SlotNext(k: Conv, r: nat, c: nat)
    requires k.Kh() > 0 && c <= k.width
    ensures c < k.width ==>
              Slot(k, r + 1, c) == if Slot(k, r, c) + k.width >= k.Size() then Slot(k, r, c) + k.width - k.Size() else Slot(k, r, c) + k.width
    ensures Slot(k, r + 1, 0) == if Slot(k, r, 0) + k.width == k.Size() then 0 else Slot(k, r, 0) + k.width
    ensures Slot(k, r, c) == Slot(k, r, 0) + c
  {
    var w, a, b := k.width, Slot(k, r, 0), Slot(k, r + 1, 0);
    assert Slot(k, r, c) == a + c && Slot(k, r + 1, c) == b + c;
    RowNext(k, r);
    hide *;
  }

  lemma RowNext(k: Conv, r: nat)
    requires k.Kh() > 0
    ensures var a, b := Slot(k, r, 0), Slot(k, r + 1, 0);
            if a + k.width == k.Size() then b == 0 else b == a + k.width && b + k.width <= k.Size()
  {
    var n, q := k.Kh(), r % k.Kh();
    Distribute(q, 1, k.width);
    if q + 1 < n {
      DivUnique(r + 1, n, r / n, q + 1);
      Smaller(q + 2, n, k.width);
      Distribute(q + 1, 1, k.width);
    } else {
      DivUnique(r + 1, n, r / n + 1, 0);
    }
  }

  /** `f += srcData[imageOffset] * hkernel[v]` */
  method HorizontalSum(k: Conv, r: nat, c: nat, start: nat) returns (f: real)
    requires k.Ok() && r + 1 < k.height + k.Kh() && c < k.width && start == Base(k, r, c)
    ensures f == H(k, r, c)
  {
    Inside(k, r, c, |k.hk| - 1);
    f := 0.0;
    var v, imageOffset := 0, start;
    while v < |k.hk|
      invariant 0 <= v <= |k.hk| && imageOffset == start + v * k.tap
      invariant v > 0 ==> start + (v - 1) * k.tap < |k.src|
      invariant f == HSum(k, start, v)
    {
      Inside(k, r, c, v);
      f := f + k.src[imageOffset] as real * k.hk[v];
      Distribute(v, 1, k.tap);
      imageOffset := imageOffset + k.tap;
      v := v + 1;
    }
  }

  /** The vertical kernel over the ring, beginning at the oldest row. */
  method VerticalSum(k: Conv, tmp: array<real>, j: nat, c: nat, start: nat) returns (f: real)
    requires k.Ok() && tmp.Length >= k.Size() && j < k.height && c < k.width && start == Slot(k, j, c)
    requires Ring(k, tmp[..], j, j + k.Kh() - 1, c + 1)
    ensures f == VSum(k, j, c, k.Kh())
  {
    hide H, Ring, Conv.Size, Slot;
    f := 0.5;
    var a, b := 0, start;
    while a < k.Kh()
      invariant 0 <= a <= k.Kh() && b == Slot(k, j + a, c)
      invariant f == VSum(k, j, c, a)
    {
      RingHolds(k, tmp[..], j, j + k.Kh() - 1, c, j + a);
      SlotInside(k, j + a, c);
      SlotNext(k, j + a, c);
      f := f + tmp[b] * k.vk[a];
      b := b + k.width;
      if b >= k.Size() { b := b - k.Size(); }
      a := a + 1;
    }
  }

  lemma RingHolds(k: Conv, tmp: seq<real>, from: nat, to: nat, c: nat, r: nat)
    requires k.Ok() && |tmp| >= k.Size() && to + 1 < k.height + k.Kh() && Ring(k, tmp, from, to, c + 1)
    requires from <= r <= to && c < k.width
    ensures Holds(k, tmp, r, c)
  {
    hide Holds;
  }

  /** Storing the horizontal sum of one pixel. */
  method Accumulate(k: Conv, tmp: array<real>, from: nat, r: nat, c: nat, start: nat, slot: nat)
    requires k.Ok() && tmp.Length >= k.Size() && from <= r < from + k.Kh() && r + 1 < k.height + k.Kh() && c < k.width
    requires start == Base(k, r, c) && slot == Slot(k, r, c) && Ring(k, tmp[..], from, r, c)
    modifies tmp
    ensures Ring(k, tmp[..], from, r, c + 1)
  {
    hide H, Ring, Conv.Size, Slot, Base;
    RingStep(k, tmp[..], from, r, c);
    var f := HorizontalSum(k, r, c, start);
    ghost var was := tmp[..];
    tmp[slot] := f;
    assert tmp[..] == was[slot := f];
  }

  /** The rows before the first output row. */
  method Prime(k: Conv, tmp: array<real>) returns (revolver: nat, srcScanlineOffset: nat)
    requires k.Ok() && tmp.Length >= k.Size()
    modifies tmp
    ensures revolver == Slot(k, k.Kh() - 1, 0) && srcScanlineOffset == k.off + (k.Kh() - 1) * k.line
    ensures Ring(k, tmp[..], 0, k.Kh() - 1, 0)
  {
    hide H, Ring, Conv.Size;
    revolver, srcScanlineOffset := 0, k.off;
    EmptyRing(k, tmp[..]);
    DivUnique(0, k.Kh(), 0, 0);
    assert Slot(k, 0, 0) == 0 by { Distribute(0, 0, k.width); }
    hide Slot;
    var j := 0;
    while j < k.Kh() - 1
      invariant 0 <= j <= k.Kh() - 1 && revolver == Slot(k, j, 0) && srcScanlineOffset == k.off + j * k.line
      invariant Ring(k, tmp[..], 0, j, 0)
    {
      var srcPixelOffset, i := srcScanlineOffset, 0;
      while i < k.width
        invariant 0 <= i <= k.width && srcPixelOffset == Base(k, j, i)
        invariant Ring(k, tmp[..], 0, j, i)
      {
        SlotNext(k, j, i);
        Accumulate(k, tmp, 0, j, i, srcPixelOffset, revolver + i);
        Distribute(i, 1, k.col);
        srcPixelOffset := srcPixelOffset + k.col;
        i := i + 1;
      }
      RingRow(k, tmp[..], 0, 0, j);
      NotLast(k, j);
      SlotNext(k, j, 0);
      Distribute(j, 1, k.line);
      revolver := revolver + k.width;
      srcScanlineOffset := srcScanlineOffset + k.line;
      j := j + 1;
    }
  }

  lemma EmptyRing(k: Conv, tmp: seq<real>)
    requires k.Ok() && |tmp| >= k.Size()
    ensures Ring(k, tmp, 0, 0, 0)
  {
  }

  /** The first rows do not come to the end of the ring. */
  lemma NotLast(k: Conv, j: nat)
    requires k.Ok() && j + 1 < k.Kh()
    ensures k.width > 0 ==> Slot(k, j, 0) + k.width < k.Size()
    ensures k.width == 0 ==> Slot(k, j + 1, 0) == Slot(k, j, 0) == 0
  {
    DivUnique(j, k.Kh(), 0, j);
    DivUnique(j + 1, k.Kh(), 0, j + 1);
    Distribute(j, 1, k.width);
    Smaller(j + 2, k.Kh(), k.width);
    Distribute(j, 2, k.width);
  }

  /** convolveLoop: every pixel is 0.5 and the direct sum over the kernel, clamped and cut; the
      destination is not changed anywhere else. */
  method ConvolveLoop(k: Conv, t: Target, max: nat, dst: array<int>)
    requires k.Ok() && t.Ok(k, dst.Length)
    modifies dst
    ensures forall m :: 0 <= m < dst.Length ==> dst[m] == Convolved(k, t, max, old(dst[..]), m)
  {
    hide H, Ring, Slot, Conv.Size, Written, Pixel;
    SizePositive(k);
    var tmp := new real[k.Size()](_ => 0.0);
    var revolver, srcScanlineOffset := Prime(k, tmp);
    var kvRevolver, dstScanlineOffset := 0, t.off;
    ghost var before := dst[..];
    NothingWritten(k, t, max, before);
    FirstSlot(k);
    var j := 0;
    while j < k.height
      invariant 0 <= j <= k.height
      invariant revolver == Slot(k, j + k.Kh() - 1, 0) && kvRevolver == Slot(k, j, 0)
      invariant srcScanlineOffset == k.off + (j + k.Kh() - 1) * k.line && dstScanlineOffset == t.off + j * t.line
      invariant Ring(k, tmp[..], j, j + k.Kh() - 1, 0)
      invariant Written(k, t, max, before, dst[..], j, 0)
    {
      Line(k, t, max, dst, tmp, j, revolver, kvRevolver, srcScanlineOffset, dstScanlineOffset, before);
      RingRow(k, tmp[..], j, j + 1, j + k.Kh() - 1);
      LineDone(k, t, max, before, dst[..], j);
      SlotNext(k, j + k.Kh() - 1, 0);
      SlotNext(k, j, 0);
      revolver := revolver + k.width;
      if revolver == k.Size() { revolver := 0; }
      kvRevolver := kvRevolver + k.width;
      if kvRevolver == k.Size() { kvRevolver := 0; }
      Distribute(j + k.Kh() - 1, 1, k.line);
      Distribute(j, 1, t.line);
      srcScanlineOffset := srcScanlineOffset + k.line;
      dstScanlineOffset := dstScanlineOffset + t.line;
      j := j + 1;
    }
    AllWritten(k, t, max, before, dst[..]);
  }

  /** One line of the output: a new line of horizontal sums, and the vertical ones. */
  method Line(k: Conv, t: Target, max: nat, dst: array<int>, tmp: array<real>, j: nat, revolver: nat, kvRevolver: nat,
              srcScanlineOffset: nat, dstScanlineOffset: nat, ghost before: seq<int>)
    requires k.Ok() && t.Ok(k, |before|) && tmp.Length == k.Size() && j < k.height
    requires revolver == Slot(k, j + k.Kh() - 1, 0) && kvRevolver == Slot(k, j, 0)
    requires srcScanlineOffset == k.off + (j + k.Kh() - 1) * k.line && dstScanlineOffset == t.off + j * t.line
    requires Ring(k, tmp[..], j, j + k.Kh() - 1, 0) && Written(k, t, max, before, dst[..], j, 0)
    modifies dst, tmp
    ensures Ring(k, tmp[..], j, j + k.Kh() - 1, k.width) && Written(k, t, max, before, dst[..], j, k.width)
  {
    hide H, Ring, Slot, Conv.Size, Written, VSum;
    var srcPixelOffset, dstPixelOffset, i := srcScanlineOffset, dstScanlineOffset, 0;
    while i < k.width
      invariant 0 <= i <= k.width && srcPixelOffset == Base(k, j + k.Kh() - 1, i) && dstPixelOffset == t.Cell(j, i)
      invariant Ring(k, tmp[..], j, j + k.Kh() - 1, i) && Written(k, t, max, before, dst[..], j, i)
    {
      SlotNext(k, j + k.Kh() - 1, i);
      SlotNext(k, j, i);
      Accumulate(k, tmp, j, j + k.Kh() - 1, i, srcPixelOffset, revolver + i);
      var f := VerticalSum(k, tmp, j, i, kvRevolver + i);
      ghost var was := dst[..];
      WriteStep(k, t, max, before, was, j, i);
      dst[dstPixelOffset] := Store(f, max);
      assert dst[..] == was[t.Cell(j, i) := Pixel(k, j, i, max)];
      Distribute(i, 1, k.col);
      Distribute(i, 1, t.col);
      srcPixelOffset := srcPixelOffset + k.col;
      dstPixelOffset := dstPixelOffset + t.col;
      i := i + 1;
    }
  }

  lemma SizePositive(k: Conv)
    requires k.Ok()
    ensures k.Size() >= 0
  {
  }

  lemma FirstSlot(k: Conv)
    requires k.Ok()
    ensures Slot(k, 0, 0) == 0
  {
    DivUnique(0, k.Kh(), 0, 0);
    Distribute(0, 0, k.width);
  }

  /** What a destination cell holds afterwards, said by the direct form. */
  function Convolved(k: Conv, t: Target, max: nat, before: seq<int>, m: nat): int
    requires k.Ok() && t.col >= 1 && m < |before|
  {
    match Where(k, t, m)
    case None => before[m]
    case Some((j, c)) => Store(Direct(k, j, c, k.Kh()), max)
  }

  lemma AllWritten(k: Conv, t: Target, max: nat, before: seq<int>, now: seq<int>)
    requires k.Ok() && t.col >= 1 && Written(k, t, max, before, now, k.height, 0)
    ensures |now| == |before| && forall m :: 0 <= m < |now| ==> now[m] == Convolved(k, t, max, before, m)
  {
    hide Where, VSum, Direct;
    forall m | 0 <= m < |now| ensures now[m] == Convolved(k, t, max, before, m) {
      if Where(k, t, m).Some? { Separable(k, Where(k, t, m).value.0, Where(k, t, m).value.1, k.Kh()); }
    }
  }
}
