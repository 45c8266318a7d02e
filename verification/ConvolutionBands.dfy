/** The convolution of interleaved bands: a row of `width` pixels of `bands` samples is a row of
    `width * bands` columns whose kernel taps are `bands` apart. */
module ConvolutionBands {
  import opened Bits
  import opened Convolution

  /** The bands of an image, and its width in pixels. */
  datatype Bands = Bands(bands: nat, dwidth: nat) {
    /** Source and destination are laid out as convolveBandsLoop takes for granted. */
    predicate Fits(k: Conv, t: Target) {
      bands > 0 && k.width == dwidth * bands && k.col == 1 && k.tap == bands && t.col == 1
    }
  }

  /** Column of band `b` of pixel `i`. */
  lemma ColumnInside(g: Bands, k: Conv, t: Target, i: nat, b: nat)
    requires g.Fits(k, t) && i < g.dwidth && b < g.bands
    ensures 0 <= i * g.bands + b < k.width && (i + 1) * g.bands == i * g.bands + g.bands <= k.width
  {
    Smaller(i + 1, g.dwidth, g.bands);
    Smaller(0, i, g.bands);
    Distribute(i, 1, g.bands);
  }

  /** `bands*(revolver+i) + b`, with `revolver` counting pixels. */
  lemma SlotOfBand(g: Bands, k: Conv, t: Target, r: nat, i: nat, b: nat)
    requires g.Fits(k, t) && k.Kh() > 0
    ensures r % k.Kh() * g.dwidth >= 0
    ensures g.bands * (r % k.Kh() * g.dwidth + i) + b == Slot(k, r, i * g.bands + b)
  {
    var q := r % k.Kh();
    Smaller(0, q, g.dwidth);
    Product(g.bands, q, g.dwidth, i);
  }

  lemma Product(n: nat, q: nat, w: nat, i: nat)
    ensures n * (q * w + i) == q * (w * n) + i * n
  {
    assert n * (q * w + i) == n * (q * w) + n * i;
    assert n * (q * w) == q * (w * n);
  }

  /** All bands of a pixel at once, tap by tap. */
  method HorizontalSums(g: Bands, k: Conv, ghost t: Target, r: nat, i: nat, start: nat, f: array<real>)
    requires k.Ok() && g.Fits(k, t) && r + 1 < k.height + k.Kh() && i < g.dwidth && f.Length == g.bands
    requires start == k.off + r * k.line + i * g.bands
    modifies f
    ensures forall b :: 0 <= b < g.bands ==> SumIs(g, k, r, i, b, f[b])
  {
    hide HSum, H, Conv.Ok, SumIs;
    var b := 0;
    while b < g.bands
      invariant 0 <= b <= g.bands && forall c :: 0 <= c < b ==> f[c] == 0.0
    {
      f[b] := 0.0;
      b := b + 1;
    }
    forall c | 0 <= c < g.bands ensures PartIs(g, k, t, r, i, c, 0, f[c]) { PartStarts(g, k, t, r, i, c); }
    var v, imageOffset := 0, start;
    while v < |k.hk|
      invariant 0 <= v <= |k.hk| && imageOffset == start + v * k.tap
      invariant forall c :: 0 <= c < g.bands ==> PartIs(g, k, t, r, i, c, v, f[c])
    {
      var hv := k.hk[v];
      b := 0;
      while b < g.bands
        invariant 0 <= b <= g.bands
        invariant forall c :: 0 <= c < g.bands ==> PartIs(g, k, t, r, i, c, if c < b then v + 1 else v, f[c])
      {
        PartStep(g, k, t, r, i, b, v, f[b]);
        f[b] := f[b] + k.src[imageOffset + b] as real * hv;
        b := b + 1;
      }
      Distribute(v, 1, k.tap);
      imageOffset := imageOffset + k.tap;
      v := v + 1;
    }
    forall c | 0 <= c < g.bands ensures SumIs(g, k, r, i, c, f[c]) { PartEnds(g, k, t, r, i, c, f[c]); }
  }

  /** `f` is the horizontal sum of band `b` of pixel `i`. */
  ghost predicate SumIs(g: Bands, k: Conv, r: nat, i: nat, b: nat, f: real) {
    k.Ok() && r + 1 < k.height + k.Kh() && i * g.bands + b < k.width && f == H(k, r, i * g.bands + b)
  }

  /** `f` is the sum of the first `v` taps. */
  ghost predicate PartIs(g: Bands, k: Conv, t: Target, r: nat, i: nat, b: nat, v: nat, f: real) {
    var e := i * g.bands + b;
    && k.Ok() && r + 1 < k.height + k.Kh() && e < k.width && v <= |k.hk|
    && (v > 0 ==> Base(k, r, e) + (v - 1) * k.tap < |k.src|) && f == HSum(k, Base(k, r, e), v)
  }

  lemma PartStarts(g: Bands, k: Conv, t: Target, r: nat, i: nat, b: nat)
    requires k.Ok() && g.Fits(k, t) && r + 1 < k.height + k.Kh() && i < g.dwidth && b < g.bands
    ensures PartIs(g, k, t, r, i, b, 0, 0.0)
  {
    ColumnInside(g, k, t, i, b);
  }

  lemma PartStep(g: Bands, k: Conv, t: Target, r: nat, i: nat, b: nat, v: nat, f: real)
    requires k.Ok() && g.Fits(k, t) && r + 1 < k.height + k.Kh() && i < g.dwidth && b < g.bands && v < |k.hk|
    requires PartIs(g, k, t, r, i, b, v, f)
    ensures var at := k.off + r * k.line + i * g.bands + v * k.tap + b;
            at < |k.src| && PartIs(g, k, t, r, i, b, v + 1, f + k.src[at] as real * k.hk[v])
  {
    ColumnInside(g, k, t, i, b);
    Inside(k, r, i * g.bands + b, v);
    Distribute(i * g.bands, b, k.col);
    assert Base(k, r, i * g.bands + b) + v * k.tap == k.off + r * k.line + i * g.bands + v * k.tap + b;
  }

  lemma PartEnds(g: Bands, k: Conv, t: Target, r: nat, i: nat, b: nat, f: real)
    requires k.Ok() && PartIs(g, k, t, r, i, b, |k.hk|, f)
    ensures SumIs(g, k, r, i, b, f)
  {
  }

  /** The bands of a pixel into the ring. */
  method StoreSums(g: Bands, k: Conv, ghost t: Target, tmp: array<real>, f: array<real>, from: nat, r: nat, i: nat, revolver: nat)
    requires k.Ok() && g.Fits(k, t) && tmp.Length == k.Size() && f.Length == g.bands && tmp != f
    requires from <= r < from + k.Kh() && r + 1 < k.height + k.Kh() && i < g.dwidth && revolver == r % k.Kh() * g.dwidth
    requires Ring(k, tmp[..], from, r, i * g.bands) && forall b :: 0 <= b < g.bands ==> SumIs(g, k, r, i, b, f[b])
    modifies tmp
    ensures Ring(k, tmp[..], from, r, (i + 1) * g.bands)
  {
    hide H, Ring, Conv.Size, Slot, Conv.Ok;
    Distribute(i, 1, g.bands);
    var b := 0;
    while b < g.bands
      invariant 0 <= b <= g.bands
      invariant Ring(k, tmp[..], from, r, i * g.bands + b)
    {
      ColumnInside(g, k, t, i, b);
      SlotOfBand(g, k, t, r, i, b);
      assert SumIs(g, k, r, i, b, f[b]);
      RingStep(k, tmp[..], from, r, i * g.bands + b);
      ghost var was := tmp[..];
      tmp[g.bands * (revolver + i) + b] := f[b];
      assert tmp[..] == was[Slot(k, r, i * g.bands + b) := f[b]];
      b := b + 1;
    }
  }

  /** The ring counted in pixels. */
  function Pixels(g: Bands, k: Conv): Conv { k.(width := g.dwidth) }

  ghost predicate ColumnIs(g: Bands, k: Conv, j: nat, i: nat, b: nat, a: nat, f: real) {
    k.Ok() && j < k.height && i * g.bands + b < k.width && a <= k.Kh() && f == VSum(k, j, i * g.bands + b, a)
  }

  /** The vertical kernel over all bands of a pixel. */
  method VerticalSums(g: Bands, k: Conv, ghost t: Target, tmp: array<real>, f: array<real>, j: nat, i: nat, start: nat)
    requires k.Ok() && g.Fits(k, t) && tmp.Length == k.Size() && f.Length == g.bands && tmp != f
    requires j < k.height && i < g.dwidth && start == Slot(Pixels(g, k), j, i)
    requires Ring(k, tmp[..], j, j + k.Kh() - 1, (i + 1) * g.bands)
    requires forall c :: 0 <= c < g.bands ==> f[c] == 0.5
    modifies f
    ensures forall c :: 0 <= c < g.bands ==> ColumnIs(g, k, j, i, c, k.Kh(), f[c])
  {
    KernelNotEmpty(k);
    hide H, Ring, Conv.Size, Slot, Conv.Ok, ColumnIs, Bands.Fits;
    forall c | 0 <= c < g.bands ensures ColumnIs(g, k, j, i, c, 0, f[c]) { ColumnStarts(g, k, t, j, i, c); }
    var a, b := 0, start;
    while a < k.Kh()
      invariant 0 <= a <= k.Kh() && b == Slot(Pixels(g, k), j + a, i)
      invariant forall c :: 0 <= c < g.bands ==> ColumnIs(g, k, j, i, c, a, f[c])
    {
      AddRow(g, k, t, tmp, f, j, i, a, b);
      SlotNext(Pixels(g, k), j + a, i);
      b := b + g.dwidth;
      if b >= Pixels(g, k).Size() { b := b - Pixels(g, k).Size(); }
      a := a + 1;
    }
  }

  /** One row of the kernel, for all bands. */
  method AddRow(g: Bands, k: Conv, ghost t: Target, tmp: array<real>, f: array<real>, j: nat, i: nat, a: nat, b: nat)
    requires k.Ok() && g.Fits(k, t) && tmp.Length == k.Size() && f.Length == g.bands && tmp != f
    requires j < k.height && i < g.dwidth && a < k.Kh() && b == Slot(Pixels(g, k), j + a, i)
    requires Ring(k, tmp[..], j, j + k.Kh() - 1, (i + 1) * g.bands)
    requires forall c :: 0 <= c < g.bands ==> ColumnIs(g, k, j, i, c, a, f[c])
    modifies f
    ensures forall c :: 0 <= c < g.bands ==> ColumnIs(g, k, j, i, c, a + 1, f[c])
  {
    hide H, Ring, Conv.Size, Slot, Conv.Ok, ColumnIs, Bands.Fits;
    var vv := k.vk[a];
    var c := 0;
    while c < g.bands
      invariant 0 <= c <= g.bands
      invariant forall d :: 0 <= d < c ==> ColumnIs(g, k, j, i, d, a + 1, f[d])
      invariant forall d :: c <= d < g.bands ==> ColumnIs(g, k, j, i, d, a, f[d])
    {
      SlotHere(g, k, t, j, i, c, a, b);
      var sum := f[c] + tmp[g.bands * b + c] * vv;
      ColumnStep(g, k, t, tmp[..], j, i, c, a, g.bands * b + c, f[c], sum);
      f[c] := sum;
      c := c + 1;
    }
  }

  lemma KernelNotEmpty(k: Conv)
    requires k.Ok()
    ensures k.Kh() > 0
  {
  }

  lemma SlotOfRow(g: Bands, k: Conv, r: nat)
    requires k.Kh() > 0
    ensures Slot(Pixels(g, k), r, 0) == r % k.Kh() * g.dwidth
  {
  }

  lemma ColumnStarts(g: Bands, k: Conv, t: Target, j: nat, i: nat, c: nat)
    requires k.Ok() && g.Fits(k, t) && j < k.height && i < g.dwidth && c < g.bands
    ensures ColumnIs(g, k, j, i, c, 0, 0.5)
  {
    ColumnInside(g, k, t, i, c);
  }

  lemma SlotHere(g: Bands, k: Conv, t: Target, j: nat, i: nat, c: nat, a: nat, b: nat)
    requires k.Ok() && g.Fits(k, t) && j < k.height && i < g.dwidth && c < g.bands && a < k.Kh() && b == Slot(Pixels(g, k), j + a, i)
    ensures i * g.bands + c < k.width && g.bands * b + c == Slot(k, j + a, i * g.bands + c) < k.Size()
  {
    ColumnInside(g, k, t, i, c);
    SlotOfBand(g, k, t, j + a, i, c);
    SlotInside(k, j + a, i * g.bands + c);
  }

  lemma ColumnStep(g: Bands, k: Conv, t: Target, tmp: seq<real>, j: nat, i: nat, c: nat, a: nat, at: nat, f: real, sum: real)
    requires k.Ok() && g.Fits(k, t) && |tmp| == k.Size() && j < k.height && i < g.dwidth && c < g.bands && a < k.Kh()
    requires Ring(k, tmp, j, j + k.Kh() - 1, (i + 1) * g.bands) && ColumnIs(g, k, j, i, c, a, f)
    requires at == Slot(k, j + a, i * g.bands + c) < |tmp| && sum == f + tmp[at] * k.vk[a]
    ensures ColumnIs(g, k, j, i, c, a + 1, sum)
  {
    hide H, Ring, Slot, Conv.Size;
    BandHolds(g, k, t, tmp, j, j + k.Kh() - 1, i, c, j + a);
  }

  lemma BandHolds(g: Bands, k: Conv, t: Target, tmp: seq<real>, from: nat, to: nat, i: nat, c: nat, r: nat)
    requires k.Ok() && g.Fits(k, t) && |tmp| >= k.Size() && to + 1 < k.height + k.Kh() && i < g.dwidth && c < g.bands
    requires Ring(k, tmp, from, to, (i + 1) * g.bands) && from <= r <= to
    ensures i * g.bands + c < k.width && Holds(k, tmp, r, i * g.bands + c)
  {
    ColumnInside(g, k, t, i, c);
    hide Holds;
  }

  /** One pixel of the output, all bands. */
  method StorePixel(g: Bands, k: Conv, t: Target, max: nat, dst: array<int>, f: array<real>, j: nat, i: nat, dstPixelOffset: nat, ghost before: seq<int>)
    requires k.Ok() && g.Fits(k, t) && t.Ok(k, |before|) && f.Length == g.bands && j < k.height && i < g.dwidth
    requires dstPixelOffset == t.off + j * t.line + i * g.bands
    requires forall c :: 0 <= c < g.bands ==> ColumnIs(g, k, j, i, c, k.Kh(), f[c])
    requires Written(k, t, max, before, dst[..], j, i * g.bands)
    modifies dst
    ensures Written(k, t, max, before, dst[..], j, (i + 1) * g.bands)
  {
    hide VSum, Written, Conv.Ok, Store;
    Distribute(i, 1, g.bands);
    var b := 0;
    while b < g.bands
      invariant 0 <= b <= g.bands && Written(k, t, max, before, dst[..], j, i * g.bands + b)
    {
      ColumnInside(g, k, t, i, b);
      ghost var was := dst[..];
      assert ColumnIs(g, k, j, i, b, k.Kh(), f[b]);
      WriteStep(k, t, max, before, was, j, i * g.bands + b);
      var res := f[b];
      dst[dstPixelOffset + b] := Store(res, max);
      assert dst[..] == was[t.Cell(j, i * g.bands + b) := Pixel(k, j, i * g.bands + b, max)];
      b := b + 1;
    }
  }

  /** One pixel: horizontal sums into the ring, vertical ones out of it. */
  method OnePixel(g: Bands, k: Conv, t: Target, max: nat, dst: array<int>, tmp: array<real>, j: nat, i: nat, revolver: nat, kvRevolver: nat,
                  srcPixelOffset: nat, dstPixelOffset: nat, ghost before: seq<int>)
    requires k.Ok() && g.Fits(k, t) && t.Ok(k, |before|) && tmp.Length == k.Size() && j < k.height && i < g.dwidth
    requires revolver == Slot(Pixels(g, k), j + k.Kh() - 1, 0) && kvRevolver == Slot(Pixels(g, k), j, 0)
    requires srcPixelOffset == k.off + (j + k.Kh() - 1) * k.line + i * g.bands && dstPixelOffset == t.off + j * t.line + i * g.bands
    requires Ring(k, tmp[..], j, j + k.Kh() - 1, i * g.bands) && Written(k, t, max, before, dst[..], j, i * g.bands)
    modifies dst, tmp
    ensures Ring(k, tmp[..], j, j + k.Kh() - 1, (i + 1) * g.bands) && Written(k, t, max, before, dst[..], j, (i + 1) * g.bands)
  {
    KernelNotEmpty(k);
    hide H, Ring, Conv.Size, Conv.Ok, Written, SumIs, ColumnIs, Slot, Bands.Fits, Target.Ok;
    var to := j + k.Kh() - 1;
    SlotOfRow(g, k, to);
    var f := new real[g.bands](_ => 0.0);
    HorizontalSums(g, k, t, to, i, srcPixelOffset, f);
    StoreSums(g, k, t, tmp, f, j, to, i, revolver);
    SetHalf(f);
    SlotNext(Pixels(g, k), j, i);
    VerticalSums(g, k, t, tmp, f, j, i, kvRevolver + i);
    StorePixel(g, k, t, max, dst, f, j, i, dstPixelOffset, before);
  }

  method SetHalf(f: array<real>)
    modifies f
    ensures forall c :: 0 <= c < f.Length ==> f[c] == 0.5
  {
    var b := 0;
    while b < f.Length
      invariant 0 <= b <= f.Length && forall c :: 0 <= c < b ==> f[c] == 0.5
    {
      f[b] := 0.5;
      b := b + 1;
    }
  }

  /** The rows before the first output row. */
  method PrimeBands(g: Bands, k: Conv, ghost t: Target, tmp: array<real>) returns (revolver: nat, srcScanlineOffset: nat)
    requires k.Ok() && g.Fits(k, t) && tmp.Length == k.Size()
    modifies tmp
    ensures revolver == Slot(Pixels(g, k), k.Kh() - 1, 0) && srcScanlineOffset == k.off + (k.Kh() - 1) * k.line
    ensures Ring(k, tmp[..], 0, k.Kh() - 1, 0)
  {
    KernelNotEmpty(k);
    FirstPixelSlot(g, k);
    hide H, Ring, Conv.Size, Conv.Ok, SumIs, Slot, Bands.Fits;
    revolver, srcScanlineOffset := 0, k.off;
    EmptyRing(k, tmp[..]);
    var j := 0;
    while j < k.Kh() - 1
      invariant 0 <= j <= k.Kh() - 1 && revolver == Slot(Pixels(g, k), j, 0) && srcScanlineOffset == k.off + j * k.line
      invariant Ring(k, tmp[..], 0, j, 0)
    {
      PrimeRow(g, k, t, tmp, j, revolver, srcScanlineOffset);
      RingRow(k, tmp[..], 0, 0, j);
      PixelNotLast(g, k, t, j);
      Distribute(j, 1, k.line);
      revolver := revolver + g.dwidth;
      srcScanlineOffset := srcScanlineOffset + k.line;
      j := j + 1;
    }
  }

  method PrimeRow(g: Bands, k: Conv, ghost t: Target, tmp: array<real>, j: nat, revolver: nat, srcScanlineOffset: nat)
    requires k.Ok() && g.Fits(k, t) && tmp.Length == k.Size() && j + 1 < k.Kh()
    requires revolver == Slot(Pixels(g, k), j, 0) && srcScanlineOffset == k.off + j * k.line && Ring(k, tmp[..], 0, j, 0)
    modifies tmp
    ensures Ring(k, tmp[..], 0, j, k.width)
  {
    FitsMeans(g, k, t);
    SlotOfRow(g, k, j);
    hide H, Ring, Conv.Size, Conv.Ok, SumIs, Slot, Bands.Fits;
    var f := new real[g.bands](_ => 0.0);
    var srcPixelOffset, i := srcScanlineOffset, 0;
    while i < g.dwidth
      invariant 0 <= i <= g.dwidth && srcPixelOffset == srcScanlineOffset + i * g.bands
      invariant Ring(k, tmp[..], 0, j, i * g.bands)
    {
      HorizontalSums(g, k, t, j, i, srcPixelOffset, f);
      StoreSums(g, k, t, tmp, f, 0, j, i, revolver);
      Distribute(i, 1, g.bands);
      srcPixelOffset := srcPixelOffset + g.bands;
      i := i + 1;
    }
  }

  lemma FitsMeans(g: Bands, k: Conv, t: Target)
    requires g.Fits(k, t)
    ensures g.bands > 0 && k.width == g.dwidth * g.bands && k.tap == g.bands && k.col == 1
  {
  }

  lemma FirstPixelSlot(g: Bands, k: Conv)
    requires k.Ok()
    ensures Slot(Pixels(g, k), 0, 0) == 0
  {
    DivUnique(0, k.Kh(), 0, 0);
    Distribute(0, 0, g.dwidth);
  }

  lemma PixelNotLast(g: Bands, k: Conv, t: Target, j: nat)
    requires k.Ok() && g.Fits(k, t) && j + 1 < k.Kh()
    ensures Slot(Pixels(g, k), j + 1, 0) == Slot(Pixels(g, k), j, 0) + g.dwidth
  {
    DivUnique(j, k.Kh(), 0, j);
    DivUnique(j + 1, k.Kh(), 0, j + 1);
    Distribute(j, 1, g.dwidth);
  }

  /** convolveBandsLoop: the same result as the direct sum in every band. */
  method ConvolveBandsLoop(g: Bands, k: Conv, t: Target, max: nat, dst: array<int>)
    requires k.Ok() && g.Fits(k, t) && t.Ok(k, dst.Length)
    modifies dst
    ensures forall m :: 0 <= m < dst.Length ==> dst[m] == Convolved(k, t, max, old(dst[..]), m)
  {
    SizePositive(k);
    FitsMeans(g, k, t);
    SizeOfPixels(g, k, t);
    FirstPixelSlot(g, k);
    KernelNotEmpty(k);
    hide H, Ring, Slot, Conv.Size, Conv.Ok, Written, Pixel, Bands.Fits, Target.Ok;
    var tmp := new real[k.Kh() * g.dwidth * g.bands](_ => 0.0);
    var revolver, srcScanlineOffset := PrimeBands(g, k, t, tmp);
    var kvRevolver, dstScanlineOffset := 0, t.off;
    ghost var before := dst[..];
    NothingWritten(k, t, max, before);
    var j := 0;
    while j < k.height
      invariant 0 <= j <= k.height
      invariant revolver == Slot(Pixels(g, k), j + k.Kh() - 1, 0) && kvRevolver == Slot(Pixels(g, k), j, 0)
      invariant srcScanlineOffset == k.off + (j + k.Kh() - 1) * k.line && dstScanlineOffset == t.off + j * t.line
      invariant Ring(k, tmp[..], j, j + k.Kh() - 1, 0)
      invariant Written(k, t, max, before, dst[..], j, 0)
    {
      BandsLine(g, k, t, max, dst, tmp, j, revolver, kvRevolver, srcScanlineOffset, dstScanlineOffset, before);
      RingRow(k, tmp[..], j, j + 1, j + k.Kh() - 1);
      LineDone(k, t, max, before, dst[..], j);
      SlotNext(Pixels(g, k), j + k.Kh() - 1, 0);
      SlotNext(Pixels(g, k), j, 0);
      revolver := revolver + g.dwidth;
      if revolver == k.Kh() * g.dwidth { revolver := 0; }
      kvRevolver := kvRevolver + g.dwidth;
      if kvRevolver == k.Kh() * g.dwidth { kvRevolver := 0; }
      Distribute(j + k.Kh() - 1, 1, k.line);
      Distribute(j, 1, t.line);
      srcScanlineOffset := srcScanlineOffset + k.line;
      dstScanlineOffset := dstScanlineOffset + t.line;
      j := j + 1;
    }
    AllWritten(k, t, max, before, dst[..]);
  }

  lemma SizeOfPixels(g: Bands, k: Conv, t: Target)
    requires k.Ok() && g.Fits(k, t)
    ensures Pixels(g, k).Size() == k.Kh() * g.dwidth && k.Kh() * g.dwidth * g.bands == k.Size() && t.col == 1
  {
    assert k.Kh() * g.dwidth * g.bands == k.Kh() * (g.dwidth * g.bands);
  }

  /** One line of the output. */
  method BandsLine(g: Bands, k: Conv, t: Target, max: nat, dst: array<int>, tmp: array<real>, j: nat, revolver: nat, kvRevolver: nat,
                   srcScanlineOffset: nat, dstScanlineOffset: nat, ghost before: seq<int>)
    requires k.Ok() && g.Fits(k, t) && t.Ok(k, |before|) && tmp.Length == k.Size() && j < k.height
    requires revolver == Slot(Pixels(g, k), j + k.Kh() - 1, 0) && kvRevolver == Slot(Pixels(g, k), j, 0)
    requires srcScanlineOffset == k.off + (j + k.Kh() - 1) * k.line && dstScanlineOffset == t.off + j * t.line
    requires Ring(k, tmp[..], j, j + k.Kh() - 1, 0) && Written(k, t, max, before, dst[..], j, 0)
    modifies dst, tmp
    ensures Ring(k, tmp[..], j, j + k.Kh() - 1, k.width) && Written(k, t, max, before, dst[..], j, k.width)
  {
    FitsMeans(g, k, t);
    hide H, Ring, Slot, Conv.Size, Conv.Ok, Written, VSum, Bands.Fits, Target.Ok;
    var srcPixelOffset, dstPixelOffset, i := srcScanlineOffset, dstScanlineOffset, 0;
    while i < g.dwidth
      invariant 0 <= i <= g.dwidth
      invariant srcPixelOffset == srcScanlineOffset + i * g.bands && dstPixelOffset == dstScanlineOffset + i * g.bands
      invariant Ring(k, tmp[..], j, j + k.Kh() - 1, i * g.bands) && Written(k, t, max, before, dst[..], j, i * g.bands)
    {
      OnePixel(g, k, t, max, dst, tmp, j, i, revolver, kvRevolver, srcPixelOffset, dstPixelOffset, before);
      Distribute(i, 1, g.bands);
      srcPixelOffset := srcPixelOffset + g.bands;
      dstPixelOffset := dstPixelOffset + g.bands;
      i := i + 1;
    }
  }
}
