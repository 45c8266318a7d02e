/** What each bit of `flip` does to the written image, and that every orientation is its single turns
    one after the other. */
module FlipTurns {
  import opened Bits
  import opened PixelFlip

  /** The pixel in row `r` and column `c` of rows of `w`. */
  function PixelAt<T>(image: seq<T>, w: nat, h: nat, r: nat, c: nat): T
    requires |image| == h * w && r < h && c < w
  {
    CellAt(r, c, h, w);
    image[r * w + c]
  }

  /** The written pixel is the one in the stored row and column. */
  lemma WrittenPixel<T>(f: Flip, image: seq<T>, row: nat, col: nat)
    requires |image| == f.iheight * f.iwidth && row < f.Height() && col < f.Width()
    ensures var (r, c) := FlipCell(f, row, col);
            && 0 <= r < f.iheight && 0 <= c < f.iwidth
            && PixelAt(Flipped(f, image), f.Width(), f.Height(), row, col) == PixelAt(image, f.iwidth, f.iheight, r, c)
  {
    CellBack(f, row, col);
    CellAt(row, col, f.Height(), f.Width());
    hide FlipCell;
  }

  /** flip & 1 alone: left and right change places. */
  lemma Mirrors<T>(image: seq<T>, h: nat, w: nat, row: nat, col: nat)
    requires |image| == h * w && row < h && col < w
    ensures PixelAt(Flipped(Flip(false, false, true, h, w), image), w, h, row, col) == PixelAt(image, w, h, row, w - 1 - col)
  {
    WrittenPixel(Flip(false, false, true, h, w), image, row, col);
    hide Flipped;
  }

  /** flip & 2 alone: top and bottom change places. */
  lemma Upends<T>(image: seq<T>, h: nat, w: nat, row: nat, col: nat)
    requires |image| == h * w && row < h && col < w
    ensures PixelAt(Flipped(Flip(false, true, false, h, w), image), w, h, row, col) == PixelAt(image, w, h, h - 1 - row, col)
  {
    WrittenPixel(Flip(false, true, false, h, w), image, row, col);
    hide Flipped;
  }

  /** flip & 4 alone: rows become columns; the written image is `w` high and `h` wide. */
  lemma Transposes<T>(image: seq<T>, h: nat, w: nat, row: nat, col: nat)
    requires |image| == h * w && row < w && col < h
    ensures PixelAt(Flipped(Flip(true, false, false, h, w), image), h, w, row, col) == PixelAt(image, w, h, col, row)
  {
    WrittenPixel(Flip(true, false, false, h, w), image, row, col);
    hide Flipped;
  }

  /** flip == 0 leaves the image as it is. */
  lemma Stays<T>(image: seq<T>, h: nat, w: nat)
    requires |image| == h * w
    ensures Flipped(Flip(false, false, false, h, w), image) == image
  {
    var out := Flipped(Flip(false, false, false, h, w), image);
    forall k | 0 <= k < |image| ensures out[k] == image[k] { CellOf(k, h, w); }
  }

  /** The single turns of an orientation, in the order in which the stored image takes them. */
  function Mirror<T>(on: bool, image: seq<T>, h: nat, w: nat): (out: seq<T>)
    requires |image| == h * w
    ensures |out| == h * w
  {
    if on then Flipped(Flip(false, false, true, h, w), image) else image
  }

  function Upend<T>(on: bool, image: seq<T>, h: nat, w: nat): (out: seq<T>)
    requires |image| == h * w
    ensures |out| == h * w
  {
    if on then Flipped(Flip(false, true, false, h, w), image) else image
  }

  function Transpose<T>(on: bool, image: seq<T>, h: nat, w: nat): (out: seq<T>)
    requires |image| == h * w
    ensures |out| == if on then w * h else h * w
  {
    if on then Flipped(Flip(true, false, false, h, w), image) else image
  }

  /** Every orientation is its single turns one after the other: left for right, top for bottom,
      rows for columns. */
  lemma TurnByTurn<T>(f: Flip, image: seq<T>)
    requires |image| == f.iheight * f.iwidth
    ensures var h, w := f.iheight, f.iwidth;
            Flipped(f, image) == Transpose(f.transposed, Upend(f.upsideDown, Mirror(f.mirrored, image, h, w), h, w), h, w)
  {
    var h, w := f.iheight, f.iwidth;
    var one := Mirror(f.mirrored, image, h, w);
    var two := Upend(f.upsideDown, one, h, w);
    var three := Transpose(f.transposed, two, h, w);
    var out := Flipped(f, image);
    Commute(h, w);
    forall k | 0 <= k < |out| ensures out[k] == three[k] {
      CellOf(k, f.Height(), f.Width());
      OnePixel(f, image, one, two, three, k / f.Width(), k % f.Width());
    }
  }

  lemma OnePixel<T>(f: Flip, image: seq<T>, one: seq<T>, two: seq<T>, three: seq<T>, row: nat, col: nat)
    requires |image| == |one| == |two| == f.iheight * f.iwidth && |three| == f.Height() * f.Width() && row < f.Height() && col < f.Width()
    requires one == Mirror(f.mirrored, image, f.iheight, f.iwidth) && two == Upend(f.upsideDown, one, f.iheight, f.iwidth)
    requires three == Transpose(f.transposed, two, f.iheight, f.iwidth)
    ensures PixelAt(Flipped(f, image), f.Width(), f.Height(), row, col) == PixelAt(three, f.Width(), f.Height(), row, col)
  {
    var h, w := f.iheight, f.iwidth;
    WrittenPixel(f, image, row, col);
    var r, c := if f.transposed then col else row, if f.transposed then row else col;
    if f.transposed { Transposes(two, h, w, row, col); }
    var r' := if f.upsideDown then h - 1 - r else r;
    if f.upsideDown { Upends(one, h, w, r, c); }
    if f.mirrored { Mirrors(image, h, w, r', c); }
    hide Flipped, PixelAt;
  }
}
