/** Tiled TIFF images in tiffcp: a buffer is cut into tiles by a copy loop with skews, and put
    together again. */
module TiffTiles {
  import opened Bits

  /** What a copy of `rows` rows of `cols` bytes leaves: rows are `os` apart in the destination
      and `is` in the source. */
  datatype Block = Block(o: nat, os: nat, i: nat, iss: nat, rows: nat, cols: nat) {
    predicate Ok(olen: nat, ilen: nat) {
      && cols <= os && cols <= iss
      && (rows > 0 && cols > 0 ==> o + (rows - 1) * os + cols <= olen && i + (rows - 1) * iss + cols <= ilen)
    }
  }

  /** Row and column of a destination byte in the block. */
  function Spot(b: Block, m: nat): (r: Option<(nat, nat)>)
    ensures r.Some? ==> r.value.0 < b.rows && r.value.1 < b.cols
  {
    if m < b.o || b.os == 0 then None
    else
      DivNonNegative(m - b.o, b.os);
      var q, r := (m - b.o) / b.os, (m - b.o) % b.os;
      if q < b.rows && r < b.cols then Some((q, r)) else None
  }

  lemma SpotOf(b: Block, y: nat, x: nat)
    requires b.cols <= b.os && y < b.rows && x < b.cols
    ensures y * b.os >= 0 && Spot(b, b.o + y * b.os + x) == Some((y, x))
  {
    MulSign(b.os, y);
    DivUnique(y * b.os + x, b.os, y, x);
  }

  lemma SpotBack(b: Block, m: nat)
    requires Spot(b, m).Some?
    ensures m == b.o + Spot(b, m).value.0 * b.os + Spot(b, m).value.1
  {
    assert m - b.o == ((m - b.o) / b.os) * b.os + (m - b.o) % b.os;
  }

  lemma BlockInside(b: Block, olen: nat, ilen: nat, y: nat, x: nat)
    requires b.Ok(olen, ilen) && y < b.rows && x < b.cols
    ensures 0 <= y * b.os && b.o + y * b.os + x < olen && 0 <= y * b.iss && b.i + y * b.iss + x < ilen
  {
    Smaller(y, b.rows - 1, b.os);
    Smaller(y, b.rows - 1, b.iss);
    Smaller(0, y, b.os);
    Smaller(0, y, b.iss);
  }

  /** The destination after the block has been copied as far as row `y`, column `x`. */
  function CopiedAt(b: Block, out: seq<byte>, src: seq<byte>, y: nat, x: nat, m: nat): byte
    requires b.Ok(|out|, |src|) && m < |out|
  {
    match Spot(b, m)
    case None => out[m]
    case Some((q, r)) =>
      BlockInside(b, |out|, |src|, q, r);
      if q < y || (q == y && r < x) then src[b.i + q * b.iss + r] else out[m]
  }

  ghost predicate CopiedTo(b: Block, out: seq<byte>, src: seq<byte>, now: seq<byte>, y: nat, x: nat)
    requires b.Ok(|out|, |src|)
  {
    |now| == |out| && forall m :: 0 <= m < |now| ==> now[m] == CopiedAt(b, out, src, y, x, m)
  }

  lemma CopyStep(b: Block, out: seq<byte>, src: seq<byte>, now: seq<byte>, y: nat, x: nat)
    requires b.Ok(|out|, |src|) && CopiedTo(b, out, src, now, y, x) && y < b.rows && x < b.cols
    ensures 0 <= y * b.os && b.o + y * b.os + x < |now| && 0 <= y * b.iss && b.i + y * b.iss + x < |src|
    ensures CopiedTo(b, out, src, now[b.o + y * b.os + x := src[b.i + y * b.iss + x]], y, x + 1)
  {
    BlockInside(b, |out|, |src|, y, x);
    SpotOf(b, y, x);
    var at := b.o + y * b.os + x;
    var after := now[at := src[b.i + y * b.iss + x]];
    forall m | 0 <= m < |now| ensures after[m] == CopiedAt(b, out, src, y, x + 1, m) {
      if Spot(b, m).Some? { SpotBack(b, m); }
      hide Spot;
    }
  }

  lemma RowCopied(b: Block, out: seq<byte>, src: seq<byte>, now: seq<byte>, y: nat)
    requires b.Ok(|out|, |src|) && CopiedTo(b, out, src, now, y, b.cols)
    ensures CopiedTo(b, out, src, now, y + 1, 0)
  {
    hide Spot;
    forall m | 0 <= m < |now| ensures now[m] == CopiedAt(b, out, src, y + 1, 0, m) {
    }
  }

  /** cpStripToTile, with the pointers as indices. */
  method CpStripToTile(out: array<byte>, o: nat, src: array<byte>, i: nat, rows: nat, cols: nat, outskew: int, inskew: int, ghost b: Block)
    requires out != src && cols + outskew >= 0 && cols + inskew >= 0
    requires b == Block(o, cols + outskew, i, cols + inskew, rows, cols) && b.Ok(out.Length, src.Length)
    modifies out
    ensures CopiedTo(b, old(out[..]), src[..], out[..], rows, 0)
  {
    hide CopiedTo, Block.Ok;
    ghost var before := out[..];
    NothingCopied(b, before, src[..]);
    var op, ip, y := o, i, 0;
    while y < rows
      invariant 0 <= y <= rows && op == o + y * b.os && ip == i + y * b.iss
      invariant CopiedTo(b, before, src[..], out[..], y, 0)
    {
      var x := 0;
      while x < cols
        invariant 0 <= x <= cols && op == o + y * b.os + x && ip == i + y * b.iss + x
        invariant CopiedTo(b, before, src[..], out[..], y, x)
      {
        ghost var was := out[..];
        SizesAgree(b, before, src[..], was, y, x);
        CopyStep(b, before, src[..], was, y, x);
        out[op] := src[ip];
        assert out[..] == was[op := src[..][ip]];
        op, ip, x := op + 1, ip + 1, x + 1;
      }
      RowCopied(b, before, src[..], out[..], y);
      Distribute(y, 1, b.os);
      Distribute(y, 1, b.iss);
      op, ip, y := op + outskew, ip + inskew, y + 1;
    }
  }

  lemma SizesAgree(b: Block, out: seq<byte>, src: seq<byte>, now: seq<byte>, y: nat, x: nat)
    requires b.Ok(|out|, |src|) && CopiedTo(b, out, src, now, y, x)
    ensures |now| == |out|
  {
  }

  lemma NothingCopied(b: Block, out: seq<byte>, src: seq<byte>)
    requires b.Ok(|out|, |src|)
    ensures CopiedTo(b, out, src, out, 0, 0)
  {
    hide Spot;
    forall m | 0 <= m < |out| ensures out[m] == CopiedAt(b, out, src, 0, 0, m) {
    }
  }

  // ---------------------------------------------------------------- tiles

  /** Image and tile size in pixels, bits a pixel, and what libtiff says of them in bytes: a
      scan line is rounded up, a row of a tile is whole bytes. */
  datatype Image = Image(wide: nat, high: nat, bits: nat, tw: nat, tl: nat, imagew: nat, tilew: nat) {
    predicate Ok() {
      && bits > 0 && tw > 0 && tl > 0 && 8 * tilew == tw * bits
      && wide * bits <= 8 * imagew < wide * bits + 8
    }

    function Size(): nat { high * imagew }
    function TileSize(): nat { tl * tilew }
  }

  lemma TileWide(g: Image)
    requires g.Ok()
    ensures g.tilew > 0
  {
    MulSign(g.tw, g.bits);
  }

  type Tiles = map<(nat, nat), seq<byte>>

  /** Row and column of a byte of the image, and the tile it is in. */
  function RowOf(g: Image, m: nat): nat
    requires g.imagew > 0
  {
    DivNonNegative(m, g.imagew);
    m / g.imagew
  }

  function ColOf(g: Image, m: nat): nat
    requires g.imagew > 0
  {
    m % g.imagew
  }

  function TileOf(g: Image, m: nat): (nat, nat)
    requires g.imagew > 0 && g.tilew > 0 && g.tl > 0
  {
    DivNonNegative(ColOf(g, m), g.tilew);
    DivNonNegative(RowOf(g, m), g.tl);
    (ColOf(g, m) / g.tilew, RowOf(g, m) / g.tl)
  }

  /** Place of a byte in its tile. */
  function PlaceOf(g: Image, m: nat): nat
    requires g.imagew > 0 && g.tilew > 0 && g.tl > 0
  {
    RowOf(g, m) % g.tl * g.tilew + ColOf(g, m) % g.tilew
  }

  /** The tiles have `v` for byte `m` of the image. */
  predicate Shows(g: Image, tiles: Tiles, m: nat, v: byte)
    requires g.imagew > 0 && g.tilew > 0 && g.tl > 0
  {
    && TileOf(g, m) in tiles && PlaceOf(g, m) < |tiles[TileOf(g, m)]|
    && tiles[TileOf(g, m)][PlaceOf(g, m)] == v
  }

  /** Rows of tiles above `r`, and in row `r` the tiles before `c`. */
  predicate Before(t: (nat, nat), r: nat, c: nat) { t.1 < r || (t.1 == r && t.0 < c) }

  /** The block of the image that tile (c, r) covers, as the copy loops see it. */
  function VisibleRows(g: Image, r: nat): int { if r * g.tl + g.tl > g.high then g.high - r * g.tl else g.tl }
  function VisibleCols(g: Image, c: nat): int { if c * g.tilew + g.tilew > g.imagew then g.imagew - c * g.tilew else g.tilew }

  lemma ByteInTile(g: Image, m: nat)
    requires g.Ok() && g.imagew > 0 && g.tilew > 0 && m < g.Size()
    ensures var (c, r) := TileOf(g, m);
            var y, x := RowOf(g, m) % g.tl, ColOf(g, m) % g.tilew;
            && r * g.tl < g.high && c * g.tilew < g.imagew
            && 0 <= y < VisibleRows(g, r) && 0 <= x < VisibleCols(g, c)
            && m == (r * g.tl + y) * g.imagew + c * g.tilew + x
            && PlaceOf(g, m) == y * g.tilew + x < g.TileSize()
  {
    var (c, r) := TileOf(g, m);
    var y0, x0 := RowOf(g, m), ColOf(g, m);
    DivBelow(m, g.imagew, g.high);
    assert m == y0 * g.imagew + x0;
    assert y0 == r * g.tl + y0 % g.tl && x0 == c * g.tilew + x0 % g.tilew;
    Smaller(y0 % g.tl + 1, g.tl, g.tilew);
    Distribute(y0 % g.tl, 1, g.tilew);
  }

  /** And the other way: a byte of a tile's block is in that tile. */
  lemma TileHasByte(g: Image, c: nat, r: nat, y: nat, x: nat)
    requires g.Ok() && g.imagew > 0 && g.tilew > 0 && y < VisibleRows(g, r) && x < VisibleCols(g, c)
    ensures r * g.tl >= 0 && c * g.tilew >= 0
    ensures var m := (r * g.tl + y) * g.imagew + c * g.tilew + x;
            && 0 <= m < g.Size() && TileOf(g, m) == (c, r) && RowOf(g, m) % g.tl == y && ColOf(g, m) % g.tilew == x
  {
    Smaller(0, r, g.tl);
    Smaller(0, c, g.tilew);
    var y0, x0 := r * g.tl + y, c * g.tilew + x;
    var m := y0 * g.imagew + x0;
    Smaller(0, y0, g.imagew);
    Smaller(y0 + 1, g.high, g.imagew);
    Distribute(y0, 1, g.imagew);
    DivUnique(m, g.imagew, y0, x0);
    DivUnique(y0, g.tl, r, y);
    DivUnique(x0, g.tilew, c, x);
  }

  /** The block of tile (c, r): in the tile its rows are `tilew` apart, in the image `imagew`. */
  function Out(g: Image, c: nat, r: nat): Block
    requires VisibleRows(g, r) >= 0 && VisibleCols(g, c) >= 0 && r * g.tl >= 0 && c * g.tilew >= 0
  {
    NatProduct(r * g.tl, g.imagew);
    Block(0, g.tilew, r * g.tl * g.imagew + c * g.tilew, g.imagew, VisibleRows(g, r), VisibleCols(g, c))
  }

  function In(g: Image, c: nat, r: nat): Block
    requires VisibleRows(g, r) >= 0 && VisibleCols(g, c) >= 0 && r * g.tl >= 0 && c * g.tilew >= 0
  {
    NatProduct(r * g.tl, g.imagew);
    Block(r * g.tl * g.imagew + c * g.tilew, g.imagew, 0, g.tilew, VisibleRows(g, r), VisibleCols(g, c))
  }

  lemma BlocksOk(g: Image, c: nat, r: nat)
    requires g.Ok() && r * g.tl < g.high && c * g.tilew < g.imagew
    ensures VisibleRows(g, r) > 0 && VisibleCols(g, c) > 0 && r * g.tl >= 0 && c * g.tilew >= 0
    ensures Out(g, c, r).Ok(g.TileSize(), g.Size()) && In(g, c, r).Ok(g.Size(), g.TileSize())
  {
    TileWide(g);
    NatProduct(r, g.tl);
    NatProduct(c, g.tilew);
    var rows, cols := VisibleRows(g, r), VisibleCols(g, c);
    Smaller(rows, g.tl, g.tilew);
    Distribute(rows, -1, g.tilew);
    Smaller(r * g.tl + rows, g.high, g.imagew);
    Distribute(r * g.tl, rows, g.imagew);
    Distribute(rows, -1, g.imagew);
  }

  /** The tiles before (c, r) and the buffer agree. */
  ghost predicate ShownTo(g: Image, tiles: Tiles, buf: seq<byte>, r: nat, c: nat)
    requires g.Ok() && g.imagew > 0 && g.tilew > 0 && |buf| == g.Size()
  {
    forall m :: 0 <= m < |buf| && Before(TileOf(g, m), r, c) ==> Shows(g, tiles, m, buf[m])
  }

  /** A tile filled from the buffer shows the buffer's bytes. */
  lemma TileFilled(g: Image, buf: seq<byte>, prior: seq<byte>, tile: seq<byte>, c: nat, r: nat, m: nat)
    requires g.Ok() && g.imagew > 0 && g.tilew > 0 && |buf| == g.Size() && |prior| == g.TileSize() && m < |buf|
    requires TileOf(g, m) == (c, r)
    requires VisibleRows(g, r) >= 0 && VisibleCols(g, c) >= 0 && r * g.tl >= 0 && c * g.tilew >= 0 && Out(g, c, r).Ok(|prior|, |buf|)
    requires CopiedTo(Out(g, c, r), prior, buf, tile, VisibleRows(g, r), 0)
    ensures PlaceOf(g, m) < |tile| && tile[PlaceOf(g, m)] == buf[m]
  {
    var b := Out(g, c, r);
    var y, x := RowOf(g, m) % g.tl, ColOf(g, m) % g.tilew;
    ByteInTile(g, m);
    hide TileOf, PlaceOf, RowOf, ColOf;
    BlockInside(b, |prior|, |buf|, y, x);
    SpotOf(b, y, x);
    Distribute(r * g.tl, y, g.imagew);
    assert tile[y * g.tilew + x] == CopiedAt(b, prior, buf, VisibleRows(g, r), 0, y * g.tilew + x);
  }

  lemma WriteStep(g: Image, tiles: Tiles, buf: seq<byte>, prior: seq<byte>, tile: seq<byte>, c: nat, r: nat)
    requires g.Ok() && g.imagew > 0 && g.tilew > 0 && |buf| == g.Size() && |prior| == g.TileSize()
    requires VisibleRows(g, r) >= 0 && VisibleCols(g, c) >= 0 && r * g.tl >= 0 && c * g.tilew >= 0 && Out(g, c, r).Ok(|prior|, |buf|)
    requires CopiedTo(Out(g, c, r), prior, buf, tile, VisibleRows(g, r), 0) && ShownTo(g, tiles, buf, r, c)
    ensures ShownTo(g, tiles[(c, r) := tile], buf, r, c + 1)
  {
    hide TileOf, PlaceOf, VisibleRows, VisibleCols, CopiedTo;
    forall m | 0 <= m < |buf| && Before(TileOf(g, m), r, c + 1) ensures Shows(g, tiles[(c, r) := tile], m, buf[m]) {
      if TileOf(g, m) == (c, r) { TileFilled(g, buf, prior, tile, c, r, m); }
    }
  }

  /** Past the last tile of a row. */
  lemma RowOfTilesDone(g: Image, c: nat, m: nat)
    requires g.Ok() && g.imagew > 0 && g.tilew > 0 && m < g.Size() && (c * g.tw >= g.wide || c * g.tilew >= g.imagew)
    ensures TileOf(g, m).0 < c
  {
    LastTile(g, c);
    ByteInTile(g, m);
    hide ColOf, RowOf;
    var d := TileOf(g, m).0;
    if d >= c { Smaller(c, d, g.tilew); assert false; }
  }

  /** When the pixels are used up, so are the bytes. */
  lemma LastTile(g: Image, c: nat)
    requires g.Ok() && (c * g.tw >= g.wide || c * g.tilew >= g.imagew)
    ensures c * g.tilew >= g.imagew
  {
    if c * g.tw >= g.wide {
      Smaller(g.wide, c * g.tw, g.bits);
      assert c * g.tw * g.bits == c * (g.tw * g.bits);
      assert c * (8 * g.tilew) == 8 * (c * g.tilew);
    }
  }

  lemma NextRow(g: Image, tiles: Tiles, buf: seq<byte>, r: nat, c: nat)
    requires g.Ok() && g.imagew > 0 && g.tilew > 0 && |buf| == g.Size() && ShownTo(g, tiles, buf, r, c)
    requires c * g.tw >= g.wide || c * g.tilew >= g.imagew
    ensures ShownTo(g, tiles, buf, r + 1, 0)
  {
    hide TileOf, PlaceOf;
    forall m | 0 <= m < |buf| && Before(TileOf(g, m), r + 1, 0) ensures Shows(g, tiles, m, buf[m]) {
      RowOfTilesDone(g, c, m);
    }
  }

  ghost predicate AllSized(g: Image, tiles: Tiles) { forall t :: t in tiles ==> |tiles[t]| == g.TileSize() }

  /** writeBufferToContigTiles. The rows step by the global `tilelength`, which tiffcp has set to
      the tile length of the file. */
  method WriteBufferToContigTiles(buf: array<byte>, g: Image, tilelength: nat) returns (tiles: Tiles)
    requires g.Ok() && g.imagew > 0 && buf.Length == g.Size() && tilelength == g.tl
    ensures g.tilew > 0 && forall m :: 0 <= m < buf.Length ==> Shows(g, tiles, m, buf[m])
    ensures AllSized(g, tiles)
  {
    TileWide(g);
    hide TileOf, PlaceOf, RowOf, ColOf, ShownTo, Image.Size, Image.TileSize;
    tiles := map[];
    SizesPositive(g);
    var obuf := new byte[g.TileSize()](_ => 0);
    NoTiles(g, tiles, buf[..]);
    var bufp, row := 0, 0;
    ghost var r := 0;
    while row < g.high
      invariant row == r * g.tl && (row < g.high ==> bufp == row * g.imagew)
      invariant ShownTo(g, tiles, buf[..], r, 0) && AllSized(g, tiles)
    {
      var nrow := if row + g.tl > g.high then g.high - row else g.tl;
      tiles := WriteRow(buf, g, tiles, obuf, row, bufp, nrow, r);
      Distribute(r, 1, g.tl);
      Distribute(row, nrow, g.imagew);
      bufp := bufp + nrow * g.imagew;
      row := row + tilelength;
      r := r + 1;
    }
    AllShown(g, tiles, buf[..], r);
  }

  /** One row of tiles. */
  method WriteRow(buf: array<byte>, g: Image, tiles0: Tiles, obuf: array<byte>, row: nat, bufp: nat, nrow: nat, ghost r: nat) returns (tiles: Tiles)
    requires g.Ok() && g.imagew > 0 && g.tilew > 0 && buf.Length == g.Size() && obuf.Length == g.TileSize() && buf != obuf
    requires row == r * g.tl < g.high && bufp == row * g.imagew && nrow == VisibleRows(g, r)
    requires ShownTo(g, tiles0, buf[..], r, 0) && AllSized(g, tiles0)
    modifies obuf
    ensures ShownTo(g, tiles, buf[..], r + 1, 0) && AllSized(g, tiles)
  {
    hide TileOf, PlaceOf, RowOf, ColOf, ShownTo, Image.Size, Image.TileSize, CopiedTo, Block.Ok, Image.Ok;
    tiles := tiles0;
    var iskew := g.imagew - g.tilew;
    var colb, col := 0, 0;
    ghost var c := 0;
    while col < g.wide && colb < g.imagew
      invariant col == c * g.tw && colb == c * g.tilew
      invariant ShownTo(g, tiles, buf[..], r, c) && AllSized(g, tiles)
      decreases g.imagew - colb
    {
      BlocksOk(g, c, r);
      ghost var b, prior := Out(g, c, r), obuf[..];
      if colb + g.tilew > g.imagew {
        var width := g.imagew - colb;
        var oskew := g.tilew - width;
        CpStripToTile(obuf, 0, buf, bufp + colb, nrow, width, oskew, oskew + iskew, b);
      } else {
        CpStripToTile(obuf, 0, buf, bufp + colb, nrow, g.tilew, 0, iskew, b);
      }
      ghost var was := tiles;
      TileNumber(g, c, r);
      tiles := tiles[(col / g.tw, row / g.tl) := obuf[..]];
      WriteStep(g, was, buf[..], prior, obuf[..], c, r);
      Distribute(c, 1, g.tw);
      Distribute(c, 1, g.tilew);
      colb := colb + g.tilew;
      col := col + g.tw;
      c := c + 1;
    }
    NextRow(g, tiles, buf[..], r, c);
  }

  /** libtiff numbers tiles by dividing the pixel coordinates. */
  lemma TileNumber(g: Image, c: nat, r: nat)
    requires g.Ok()
    ensures c * g.tw / g.tw == c && r * g.tl / g.tl == r && g.tw > 0 && g.tl > 0
  {
    DivUnique(c * g.tw, g.tw, c, 0);
    DivUnique(r * g.tl, g.tl, r, 0);
  }

  lemma SizesPositive(g: Image)
    ensures g.Size() >= 0 && g.TileSize() >= 0
  {
  }

  lemma NoTiles(g: Image, tiles: Tiles, buf: seq<byte>)
    requires g.Ok() && g.imagew > 0 && g.tilew > 0 && |buf| == g.Size()
    ensures ShownTo(g, tiles, buf, 0, 0)
  {
    hide RowOf, ColOf;
  }

  lemma AllShown(g: Image, tiles: Tiles, buf: seq<byte>, r: nat)
    requires g.Ok() && g.imagew > 0 && g.tilew > 0 && |buf| == g.Size() && ShownTo(g, tiles, buf, r, 0) && r * g.tl >= g.high
    ensures forall m :: 0 <= m < |buf| ==> Shows(g, tiles, m, buf[m]) && TileOf(g, m) in tiles
  {
    forall m | 0 <= m < |buf| ensures Shows(g, tiles, m, buf[m]) { AboveEnd(g, m, r); }
  }

  lemma AboveEnd(g: Image, m: nat, r: nat)
    requires g.Ok() && g.imagew > 0 && g.tilew > 0 && m < g.Size() && r * g.tl >= g.high
    ensures TileOf(g, m).1 < r
  {
    ByteInTile(g, m);
    hide RowOf, ColOf;
    var q := TileOf(g, m).1;
    if q >= r { Smaller(r, q, g.tl); assert false; }
  }

  // ---------------------------------------------------------------- reading

  /** Copying a tile into the buffer sets the bytes of that tile and no others. */
  lemma TileCopied(g: Image, prior: seq<byte>, tile: seq<byte>, now: seq<byte>, c: nat, r: nat, m: nat)
    requires g.Ok() && g.imagew > 0 && g.tilew > 0 && |prior| == g.Size() && |tile| == g.TileSize() && m < |prior|
    requires VisibleRows(g, r) >= 0 && VisibleCols(g, c) >= 0 && r * g.tl >= 0 && c * g.tilew >= 0 && In(g, c, r).Ok(|prior|, |tile|)
    requires CopiedTo(In(g, c, r), prior, tile, now, VisibleRows(g, r), 0)
    ensures |now| == |prior|
    ensures TileOf(g, m) == (c, r) ==> PlaceOf(g, m) < |tile| && now[m] == tile[PlaceOf(g, m)]
    ensures TileOf(g, m) != (c, r) ==> now[m] == prior[m]
  {
    var b := In(g, c, r);
    var y, x := RowOf(g, m) % g.tl, ColOf(g, m) % g.tilew;
    ByteInTile(g, m);
    if TileOf(g, m) == (c, r) {
      hide TileOf, PlaceOf, RowOf, ColOf;
      BlockInside(b, |prior|, |tile|, y, x);
      SpotOf(b, y, x);
      Distribute(r * g.tl, y, g.imagew);
      assert now[m] == CopiedAt(b, prior, tile, VisibleRows(g, r), 0, m);
    } else if Spot(b, m).Some? {
      SpotBack(b, m);
      var (q, p) := Spot(b, m).value;
      Distribute(r * g.tl, q, g.imagew);
      TileHasByte(g, c, r, q, p);
      assert false;
    }
  }

  lemma ReadStep(g: Image, tiles: Tiles, prior: seq<byte>, now: seq<byte>, c: nat, r: nat)
    requires g.Ok() && g.imagew > 0 && g.tilew > 0 && |prior| == g.Size() && (c, r) in tiles && |tiles[(c, r)]| == g.TileSize()
    requires VisibleRows(g, r) >= 0 && VisibleCols(g, c) >= 0 && r * g.tl >= 0 && c * g.tilew >= 0 && In(g, c, r).Ok(|prior|, |tiles[(c, r)]|)
    requires CopiedTo(In(g, c, r), prior, tiles[(c, r)], now, VisibleRows(g, r), 0) && ShownTo(g, tiles, prior, r, c)
    ensures |now| == |prior| && ShownTo(g, tiles, now, r, c + 1)
  {
    hide TileOf, PlaceOf, VisibleRows, VisibleCols, CopiedTo;
    NowSize(In(g, c, r), prior, tiles[(c, r)], now, VisibleRows(g, r));
    forall m | 0 <= m < |now| && Before(TileOf(g, m), r, c + 1) ensures Shows(g, tiles, m, now[m]) {
      TileCopied(g, prior, tiles[(c, r)], now, c, r, m);
    }
  }

  lemma NowSize(b: Block, out: seq<byte>, src: seq<byte>, now: seq<byte>, y: nat)
    requires b.Ok(|out|, |src|) && CopiedTo(b, out, src, now, y, 0)
    ensures |now| == |out|
  {
  }

  /** A tile that the loops come to has a byte of the image. */
  lemma TileNeeded(g: Image, c: nat, r: nat) returns (m: nat)
    requires g.Ok() && g.imagew > 0 && g.tilew > 0 && r * g.tl < g.high && c * g.tilew < g.imagew
    ensures m < g.Size() && TileOf(g, m) == (c, r)
  {
    BlocksOk(g, c, r);
    TileHasByte(g, c, r, 0, 0);
    m := (r * g.tl + 0) * g.imagew + c * g.tilew + 0;
  }

  /** readContigTilesIntoBuffer (without -i): succeeds if and only if every tile with a byte of
      the image is there, and then every byte of the buffer is the one the tiles show. */
  method ReadContigTilesIntoBuffer(tiles: Tiles, buf: array<byte>, g: Image) returns (status: bool)
    requires g.Ok() && g.imagew > 0 && buf.Length == g.Size() && AllSized(g, tiles)
    modifies buf
    ensures g.tilew > 0 && (status <==> forall m :: 0 <= m < buf.Length ==> TileOf(g, m) in tiles)
    ensures status ==> forall m :: 0 <= m < buf.Length ==> Shows(g, tiles, m, buf[m])
  {
    TileWide(g);
    hide TileOf, PlaceOf, RowOf, ColOf, ShownTo, Image.Size, Image.TileSize, Shows;
    SizesPositive(g);
    NoTiles(g, tiles, buf[..]);
    var tilebuf := new byte[g.TileSize()](_ => 0);
    var bufp, row := 0, 0;
    ghost var r := 0;
    while row < g.high
      invariant row == r * g.tl && (row < g.high ==> bufp == row * g.imagew)
      invariant ShownTo(g, tiles, buf[..], r, 0)
    {
      var nrow := if row + g.tl > g.high then g.high - row else g.tl;
      status := ReadRow(tiles, buf, g, tilebuf, row, bufp, nrow, r);
      if !status { return; }
      Distribute(r, 1, g.tl);
      Distribute(row, nrow, g.imagew);
      bufp := bufp + nrow * g.imagew;
      row := row + g.tl;
      r := r + 1;
    }
    AllShown(g, tiles, buf[..], r);
    status := true;
  }

  /** One row of tiles. */
  method ReadRow(tiles: Tiles, buf: array<byte>, g: Image, tilebuf: array<byte>, row: nat, bufp: nat, nrow: nat, ghost r: nat) returns (status: bool)
    requires g.Ok() && g.imagew > 0 && g.tilew > 0 && buf.Length == g.Size() && tilebuf.Length == g.TileSize() && buf != tilebuf
    requires row == r * g.tl < g.high && bufp == row * g.imagew && nrow == VisibleRows(g, r) && AllSized(g, tiles)
    requires ShownTo(g, tiles, buf[..], r, 0)
    modifies buf, tilebuf
    ensures status ==> ShownTo(g, tiles, buf[..], r + 1, 0)
    ensures !status ==> exists m :: 0 <= m < buf.Length && TileOf(g, m) !in tiles
  {
    hide TileOf, PlaceOf, RowOf, ColOf, ShownTo, Image.Size, Image.TileSize, CopiedTo, Block.Ok, Image.Ok;
    var iskew := g.imagew - g.tilew;
    var colb, col := 0, 0;
    ghost var c := 0;
    while col < g.wide && colb < g.imagew
      invariant col == c * g.tw && colb == c * g.tilew
      invariant ShownTo(g, tiles, buf[..], r, c)
      decreases g.imagew - colb
    {
      BlocksOk(g, c, r);
      TileNumber(g, c, r);
      ghost var m := TileNeeded(g, c, r);
      if (col / g.tw, row / g.tl) !in tiles {
        return false;
      }
      LoadTile(tilebuf, tiles[(col / g.tw, row / g.tl)]);
      ghost var b, prior := In(g, c, r), buf[..];
      if colb > iskew {
        var width := g.imagew - colb;
        var oskew := g.tilew - width;
        CpStripToTile(buf, bufp + colb, tilebuf, 0, nrow, width, oskew + iskew, oskew, b);
      } else {
        CpStripToTile(buf, bufp + colb, tilebuf, 0, nrow, g.tilew, iskew, 0, b);
      }
      ReadStep(g, tiles, prior, buf[..], c, r);
      Distribute(c, 1, g.tw);
      Distribute(c, 1, g.tilew);
      colb := colb + g.tilew;
      col := col + g.tw;
      c := c + 1;
    }
    NextRow(g, tiles, buf[..], r, c);
    status := true;
  }

  method LoadTile(tilebuf: array<byte>, tile: seq<byte>)
    requires |tile| == tilebuf.Length
    modifies tilebuf
    ensures tilebuf[..] == tile
  {
    forall i | 0 <= i < tilebuf.Length { tilebuf[i] := tile[i]; }
  }

  /** Writing tiles and reading them restores the buffer, for every size of image and tile. */
  method RoundTrip(buf: array<byte>, back: array<byte>, g: Image) returns (status: bool)
    requires g.Ok() && g.imagew > 0 && buf.Length == back.Length == g.Size() && buf != back
    modifies back
    ensures status && back[..] == buf[..]
  {
    hide TileOf, PlaceOf, Image.Size;
    var tiles := WriteBufferToContigTiles(buf, g, g.tl);
    status := ReadContigTilesIntoBuffer(tiles, back, g);
    forall m | 0 <= m < buf.Length ensures TileOf(g, m) in tiles { assert Shows(g, tiles, m, buf[m]); }
    forall m | 0 <= m < buf.Length ensures back[m] == buf[m] { assert Shows(g, tiles, m, buf[m]) && Shows(g, tiles, m, back[m]); }
  }
}
