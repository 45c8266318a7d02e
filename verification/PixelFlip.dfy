/** flip_index and the walk over the image in write_ppm_tiff: all eight orientations. */
module PixelFlip {
  import opened Bits

  /** The bits of `flip` and the size of the stored image. */
  datatype Flip = Flip(transposed: bool, upsideDown: bool, mirrored: bool, iheight: nat, iwidth: nat) {
    /** Size of the written image: `if (flip & 4) SWAP(height, width)`. */
    function Height(): nat { if transposed then iwidth else iheight }
    function Width(): nat { if transposed then iheight else iwidth }

    /** The orientation that undoes this one. */
    function Inverse(): Flip {
      if transposed then Flip(true, mirrored, upsideDown, iwidth, iheight) else this
    }
  }

  /** Stored row and column of a pixel of the written image. */
  function FlipCell(f: Flip, row: int, col: int): (int, int) {
    var (r, c) := if f.transposed then (col, row) else (row, col);
    (if f.upsideDown then f.iheight - 1 - r else r, if f.mirrored then f.iwidth - 1 - c else c)
  }

  function FlipIndex(f: Flip, row: int, col: int): int {
    FlipCell(f, row, col).0 * f.iwidth + FlipCell(f, row, col).1
  }

  /** Every written pixel comes from the stored image, and the inverse orientation finds it. */
  lemma CellBack(f: Flip, row: nat, col: nat)
    requires row < f.Height() && col < f.Width()
    ensures var (r, c) := FlipCell(f, row, col);
            && 0 <= r < f.iheight && 0 <= c < f.iwidth
            && FlipCell(f.Inverse(), r, c) == (row as int, col as int)
  {
  }

  lemma InverseTwice(f: Flip)
    ensures f.Inverse().Inverse() == f && f.Inverse().Height() == f.iheight && f.Inverse().Width() == f.iwidth
  {
  }

  /** The index is that of a stored pixel. */
  lemma IndexInside(f: Flip, row: nat, col: nat)
    requires row < f.Height() && col < f.Width()
    ensures 0 <= FlipIndex(f, row, col) < f.iheight * f.iwidth
  {
    CellBack(f, row, col);
    CellAt(FlipCell(f, row, col).0, FlipCell(f, row, col).1, f.iheight, f.iwidth);
  }

  /** Each stored pixel is written, and from one place only. */
  lemma IndexOnce(f: Flip, k: nat) returns (row: nat, col: nat)
    requires k < f.iheight * f.iwidth
    ensures row < f.Height() && col < f.Width() && FlipIndex(f, row, col) == k
    ensures forall r: nat, c: nat :: r < f.Height() && c < f.Width() && FlipIndex(f, r, c) == k ==> r == row && c == col
  {
    hide FlipCell;
    NoProduct(f.iheight, f.iwidth);
    DivNonNegative(k, f.iwidth);
    DivBelow(k, f.iwidth, f.iheight);
    InverseTwice(f);
    CellBack(f.Inverse(), k / f.iwidth, k % f.iwidth);
    var cell := FlipCell(f.Inverse(), k / f.iwidth, k % f.iwidth);
    row, col := cell.0, cell.1;
    assert FlipIndex(f, row, col) == (k / f.iwidth) * f.iwidth + k % f.iwidth;
    forall r: nat, c: nat | r < f.Height() && c < f.Width() && FlipIndex(f, r, c) == k
      ensures r == row && c == col
    {
      CellBack(f, r, c);
      CellAt(FlipCell(f, r, c).0, FlipCell(f, r, c).1, f.iheight, f.iwidth);
    }
  }

  /** What write_ppm_tiff makes of a stored image: the pixel at `flip_index`. */
  function Flipped<T>(f: Flip, image: seq<T>): (out: seq<T>)
    requires |image| == f.iheight * f.iwidth
    ensures |out| == f.Height() * f.Width()
  {
    seq(f.Height() * f.Width(), k requires 0 <= k < f.Height() * f.Width() =>
      CellOf(k, f.Height(), f.Width());
      IndexInside(f, k / f.Width(), k % f.Width());
      image[FlipIndex(f, k / f.Width(), k % f.Width())])
  }

  /** Writing the written image in the inverse orientation restores the stored one. */
  lemma FlipBack<T>(f: Flip, image: seq<T>)
    requires |image| == f.iheight * f.iwidth
    ensures |Flipped(f, image)| == f.Inverse().iheight * f.Inverse().iwidth
    ensures Flipped(f.Inverse(), Flipped(f, image)) == image
  {
    InverseTwice(f);
    var g, out := f.Inverse(), Flipped(f, image);
    Commute(f.iheight, f.iwidth);
    forall k | 0 <= k < |image| ensures Flipped(g, out)[k] == image[k] {
      BackAt(f, image, k);
    }
  }

  lemma BackAt<T>(f: Flip, image: seq<T>, k: nat)
    requires |image| == f.iheight * f.iwidth && k < |image|
    requires |Flipped(f, image)| == f.Inverse().iheight * f.Inverse().iwidth == |image|
    requires f.Inverse().Height() == f.iheight && f.Inverse().Width() == f.iwidth
    ensures Flipped(f.Inverse(), Flipped(f, image))[k] == image[k]
  {
    hide FlipCell;
    var g, w := f.Inverse(), f.iwidth;
    CellOf(k, f.iheight, w);
    InverseTwice(f);
    CellBack(g, k / w, k % w);
    var (r, c) := FlipCell(g, k / w, k % w);
    CellAt(r, c, g.iheight, g.iwidth);
    var m := FlipIndex(g, k / w, k % w);
    assert Flipped(g, Flipped(f, image))[k] == Flipped(f, image)[m];
  }

  /** The pixel loops: the offset is never computed anew, only stepped. */
  method Walk<T>(f: Flip, image: seq<T>) returns (out: seq<T>)
    requires |image| == f.iheight * f.iwidth
    ensures out == Flipped(f, image)
  {
    hide FlipCell;
    var height, width := f.Height(), f.Width();
    var soff := FlipIndex(f, 0, 0);
    var cstep := FlipIndex(f, 0, 1) - soff;
    var rstep := FlipIndex(f, 1, 0) - FlipIndex(f, 0, width);
    out := [];
    Inside0(width);
    var row := 0;
    while row < height
      invariant 0 <= row <= height && soff == FlipIndex(f, row, 0)
      invariant |out| == row * width && |out| <= height * width && out == Flipped(f, image)[..|out|]
    {
      var col := 0;
      while col < width
        invariant 0 <= col <= width && soff == FlipIndex(f, row, col)
        invariant |out| == row * width + col && |out| <= height * width && out == Flipped(f, image)[..|out|]
      {
        CellAt(row, col, height, width);
        IndexInside(f, row, col);
        out := out + [image[soff]];
        StepRight(f, row, col);
        soff := soff + cstep;
        col := col + 1;
      }
      RowEnds(row, height, width);
      StepDown(f, row);
      soff := soff + rstep;
      row := row + 1;
    }
    RowsDone(row, height, width);
  }

  lemma Inside0(w: nat)
    ensures 0 * w == 0
  {
  }

  lemma RowEnds(row: nat, h: nat, w: nat)
    requires row < h
    ensures (row + 1) * w == row * w + w <= h * w
  {
    assert h * w == (h - 1 - row) * w + (row + 1) * w;
  }

  lemma RowsDone(row: nat, h: nat, w: nat)
    requires row == h
    ensures row * w == h * w
  {
  }

  lemma StepRight(f: Flip, row: int, col: int)
    ensures FlipIndex(f, row, col + 1) == FlipIndex(f, row, col) + (FlipIndex(f, 0, 1) - FlipIndex(f, 0, 0))
  {
    if f.transposed { RowStep(f, col, 1); RowStep(f, 0, 1); }
  }

  lemma StepDown(f: Flip, row: int)
    ensures FlipIndex(f, row + 1, 0) == FlipIndex(f, row, f.Width()) + (FlipIndex(f, 1, 0) - FlipIndex(f, 0, f.Width()))
  {
    if f.transposed { RowStep(f, 0, f.Width()); } else { RowStep(f, row, 1); RowStep(f, 0, 1); }
  }

  /** Stored rows are `iwidth` apart, up or down. */
  lemma RowStep(f: Flip, r: int, n: int)
    ensures var up := (x: int) => (if f.upsideDown then f.iheight - 1 - x else x) * f.iwidth;
            up(r + n) - up(r) == if f.upsideDown then -(n * f.iwidth) else n * f.iwidth
  {
    var h, w := f.iheight - 1, f.iwidth;
    Distribute(h - r, -n, w);
    Distribute(r, n, w);
  }
}
