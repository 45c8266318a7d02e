/** A whole compressed RAF image: block sizes, block offsets and all strips, one after the
    other. The raster that comes out is the raster that was encoded. */
module FujiLoad {
  import opened Bits
  import opened FujiCodec
  import opened FujiWindow
  import opened FujiStrip
  import opened FujiRaster
  import opened FujiImage
  import opened FujiReader
  import opened FujiTiling
  import opened FujiBlock
  import opened FujiDecoder

  /** init_fuji_compr, as a function of the header. */
  function ParamsOf(h: Header): (p: Params) {
    Params(if h.rawBits == 12 then Bits12 else Bits14, h.rawType == 16,
           if h.rawType == 16 then h.blockSize * 2 / 3 else h.blockSize / 2)
  }

  lemma ParamsFit(h: Header)
    requires !Rejected(h)
    ensures ParamsOf(h).lineWidth > 8 && WidthOk(ParamsOf(h), h.blockSize)
  {
  }

  /** Where the first block starts: the size table is padded to a multiple of 16 bytes. */
  function FirstBlock(h: Header, dataOffset: nat): nat {
    var table := 4 * h.blocksInRow;
    dataOffset + (if table / 4 % 4 != 0 then table + (0x10 - table / 4 % 4 * 4) else table)
  }

  function BlockSize(file: seq<byte>, dataOffset: nat, s: nat): (n: nat)
    requires dataOffset + 4 * s + 4 <= |file|
    ensures n < 0x1_0000_0000
  {
    BigEndianBound(file[dataOffset + 4 * s..dataOffset + 4 * s + 4]);
    BigEndian(file[dataOffset + 4 * s..dataOffset + 4 * s + 4])
  }

  /** raw_block_offsets[s]. */
  function BlockOffset(h: Header, file: seq<byte>, dataOffset: nat, s: nat): nat
    requires dataOffset + 4 * s <= |file|
  {
    if s == 0 then FirstBlock(h, dataOffset)
    else BlockOffset(h, file, dataOffset, s - 1) + BlockSize(file, dataOffset, s - 1)
  }

  ghost predicate ImageOk(h: Header, image: seq<seq<int>>) {
    |image| == h.rawHeight && forall r :: 0 <= r < |image| ==> |image[r]| == h.rawWidth && InRange(ParamsOf(h).depth, image[r])
  }

  /** The columns of strip `s`. */
  function StripImage(h: Header, image: seq<seq<int>>, s: nat): (strip: seq<seq<int>>)
    requires s < h.blocksInRow && |image| == h.rawHeight && !Rejected(h)
    requires forall r :: 0 <= r < |image| ==> |image[r]| == h.rawWidth
    ensures |strip| == |image|
    ensures StripWidth(h, s) > 0 && forall r :: 0 <= r < |image| ==> |strip[r]| == StripWidth(h, s)
  {
    StripInside(h, s);
    seq(|image|, r requires 0 <= r < |image| => image[r][h.blockSize * s..h.blockSize * s + StripWidth(h, s)])
  }

  lemma StripInside(h: Header, s: nat)
    requires !Rejected(h) && s < h.blocksInRow
    ensures 0 < StripWidth(h, s) <= h.blockSize && 0 <= h.blockSize * s && h.blockSize * s + StripWidth(h, s) <= h.rawWidth
    ensures s + 1 == h.blocksInRow ==> h.blockSize * s + StripWidth(h, s) == h.rawWidth
    ensures s + 1 < h.blocksInRow ==> h.blockSize * s + StripWidth(h, s) == h.blockSize * (s + 1)
  {
    ValidHeader(h);
  }

  lemma StripImageOk(h: Header, image: seq<seq<int>>, s: nat)
    requires !Rejected(h) && s < h.blocksInRow && ImageOk(h, image)
    ensures StripOk(ParamsOf(h), h.blockSize, h.totalLines, StripWidth(h, s), StripImage(h, image, s))
  {
    ValidHeader(h);
    StripInside(h, s);
    ParamsFit(h);
    hide Rejected, StripWidth, ParamsOf;
    var strip := StripImage(h, image, s);
    forall r | 0 <= r < |strip|
      ensures |strip[r]| == StripWidth(h, s) && InRange(ParamsOf(h).depth, strip[r])
    {
      assert InRange(ParamsOf(h).depth, image[r]);
    }
  }

  /** The bits of strip `s`. */
  ghost function BlockStream(h: Header, cfa: Cfa, image: seq<seq<int>>, s: nat): seq<bool>
    requires !Rejected(h) && CfaOk(ParamsOf(h), cfa) && ImageOk(h, image) && s < h.blocksInRow
  {
    StripImageOk(h, image, s);
    StripStream(ParamsOf(h), cfa, h.blockSize, h.totalLines, StripWidth(h, s), StripImage(h, image, s))
  }

  /** A file that holds the image: every block's bytes spell the bits of its strip, followed by
      whatever fills the block. */
  ghost predicate HoldsImage(h: Header, file: seq<byte>, dataOffset: nat, cfa: Cfa, image: seq<seq<int>>): (ok: bool)
    ensures ok ==> !Rejected(h) && CfaOk(ParamsOf(h), cfa) && ImageOk(h, image) && dataOffset + 4 * h.blocksInRow <= |file|
  {
    && !Rejected(h) && CfaOk(ParamsOf(h), cfa) && ImageOk(h, image)
    && dataOffset + 4 * h.blocksInRow <= |file| < 0x1_0000_0000
    && forall s :: 0 <= s < h.blocksInRow ==> BlockHolds(h, file, dataOffset, cfa, image, s)
  }

  ghost predicate BlockHolds(h: Header, file: seq<byte>, dataOffset: nat, cfa: Cfa, image: seq<seq<int>>, s: nat)
    requires !Rejected(h) && CfaOk(ParamsOf(h), cfa) && ImageOk(h, image) && s < h.blocksInRow
    requires dataOffset + 4 * h.blocksInRow <= |file|
  {
    var offset, size := BlockOffset(h, file, dataOffset, s), BlockSize(file, dataOffset, s);
    offset + size <= |file| && BlockStream(h, cfa, image, s) <= BytesToBits(file[offset..offset + size])
  }

  /** What the reader of block `s` sees. */
  function BlockBits(h: Header, file: seq<byte>, dataOffset: nat, s: nat): seq<bool>
    requires dataOffset + 4 * s + 4 <= |file|
  {
    BytesToBits(Available(file, BlockOffset(h, file, dataOffset, s), BlockSize(file, dataOffset, s)))
  }

  lemma BlockBitsAre(h: Header, file: seq<byte>, dataOffset: nat, cfa: Cfa, image: seq<seq<int>>, s: nat) returns (tail: seq<bool>)
    requires HoldsImage(h, file, dataOffset, cfa, image) && s < h.blocksInRow
    ensures BlockBits(h, file, dataOffset, s) == BlockStream(h, cfa, image, s) + tail
  {
    hide Rejected, CfaOk, ImageOk, BlockOffset, BlockSize, BytesToBits, BlockStream;
    var offset, size := BlockOffset(h, file, dataOffset, s), BlockSize(file, dataOffset, s);
    assert BlockHolds(h, file, dataOffset, cfa, image, s);
    AvailableWithin(file, offset, size);
    var bits, stream := BytesToBits(file[offset..offset + size]), BlockStream(h, cfa, image, s);
    tail := bits[|stream|..];
  }

  /** The raster so far: the columns before `x` are the image's. */
  ghost predicate Shown(h: Header, image: seq<seq<int>>, raw: seq<int>, x: nat)
    requires |image| == h.rawHeight && h.rawWidth > 0 && forall r :: 0 <= r < |image| ==> |image[r]| == h.rawWidth
  {
    forall i :: 0 <= i < |raw| && ColIx(i, h.rawWidth) < x && RowIx(i, h.rawWidth) < h.rawHeight && ColIx(i, h.rawWidth) < h.rawWidth ==>
      raw[i] == image[RowIx(i, h.rawWidth)][ColIx(i, h.rawWidth)]
  }

  /** A strip that was restored extends what is shown of the image. */
  lemma StripShown(h: Header, cfa: Cfa, image: seq<seq<int>>, s: nat, groups: seq<seq<seq<int>>>, before: seq<int>, after: seq<int>)
    requires !Rejected(h) && s < h.blocksInRow && ImageOk(h, image) && CfaShape(ParamsOf(h), cfa)
    requires |before| == h.rawWidth * h.rawHeight
    requires AllBuffers(ParamsOf(h), groups) && ColsOk(ParamsOf(h), StripWidth(h, s))
    requires Restores(ParamsOf(h), cfa, h.totalLines, StripWidth(h, s), StripImage(h, image, s), groups)
    requires StripPainted(ParamsOf(h), cfa, groups, before, after, h.rawWidth, h.blockSize * s, StripWidth(h, s))
    requires Shown(h, image, before, h.blockSize * s)
    ensures Shown(h, image, after, h.blockSize * s + StripWidth(h, s))
  {
    ValidHeader(h);
    StripInside(h, s);
    hide Rejected, StripWidth, ParamsOf, RowIx, ColIx, PixelOf, PixelIndex, PixelLine, CfaShape, ColsOk, Buffers;
    var x0, width := h.blockSize * s, StripWidth(h, s);
    forall i | 0 <= i < |after| && ColIx(i, h.rawWidth) < x0 + width && RowIx(i, h.rawWidth) < h.rawHeight && ColIx(i, h.rawWidth) < h.rawWidth
      ensures after[i] == image[RowIx(i, h.rawWidth)][ColIx(i, h.rawWidth)]
    {
      var r, c := RowIx(i, h.rawWidth), ColIx(i, h.rawWidth);
      if x0 <= c { PixelRestored(h, cfa, image, s, groups, r, c); }
    }
  }

  lemma PixelRestored(h: Header, cfa: Cfa, image: seq<seq<int>>, s: nat, groups: seq<seq<seq<int>>>, r: nat, c: nat)
    requires !Rejected(h) && s < h.blocksInRow && ImageOk(h, image) && CfaShape(ParamsOf(h), cfa) && h.rawHeight == 6 * h.totalLines
    requires AllBuffers(ParamsOf(h), groups) && ColsOk(ParamsOf(h), StripWidth(h, s))
    requires Restores(ParamsOf(h), cfa, h.totalLines, StripWidth(h, s), StripImage(h, image, s), groups)
    requires r < h.rawHeight && 0 <= h.blockSize * s <= c < h.blockSize * s + StripWidth(h, s)
    ensures PixelOf(ParamsOf(h), cfa, groups[r / 6], r % 6, c - h.blockSize * s) == image[r][c]
  {
    StripInside(h, s);
    hide Rejected, StripWidth, ParamsOf, PixelOf, PixelIndex, PixelLine, CfaShape, ColsOk, Buffers, AllBuffers;
    var x := c - h.blockSize * s;
    assert r == 6 * (r / 6) + r % 6;
    assert RestoresAt(ParamsOf(h), cfa, h.totalLines, StripWidth(h, s), StripImage(h, image, s), groups, r / 6, r % 6, x);
    assert StripImage(h, image, s)[6 * (r / 6) + r % 6][x] == image[r][c];
  }

  lemma StripCols(h: Header, s: nat)
    requires !Rejected(h) && s < h.blocksInRow
    ensures ColsOk(ParamsOf(h), StripWidth(h, s))
  {
    StripInside(h, s);
    ParamsFit(h);
    forall c | 0 <= c < StripWidth(h, s) ensures PixelIndex(ParamsOf(h), c) < ParamsOf(h).lineWidth {
      IndexInLine(ParamsOf(h), h.blockSize, c);
    }
  }

  /** The stream of block `s` decodes to its strip. */
  ghost predicate Decodes(h: Header, file: seq<byte>, dataOffset: nat, cfa: Cfa, image: seq<seq<int>>, s: nat)
    requires HoldsImage(h, file, dataOffset, cfa, image) && s < h.blocksInRow
  {
    ParamsFit(h);
    CfaHasShape(ParamsOf(h), cfa);
    ValidHeader(h);
    var d := DecodeGroups(ParamsOf(h), InitialWindow(ParamsOf(h)), h.totalLines, BlockBits(h, file, dataOffset, s));
    && d.Some? && d.value.errors == 0
    && Restores(ParamsOf(h), cfa, h.totalLines, StripWidth(h, s), StripImage(h, image, s), d.value.groups)
  }

  lemma BlockDecodes(h: Header, file: seq<byte>, dataOffset: nat, cfa: Cfa, image: seq<seq<int>>, s: nat)
    requires HoldsImage(h, file, dataOffset, cfa, image) && s < h.blocksInRow
    ensures Decodes(h, file, dataOffset, cfa, image, s)
  {
    ParamsFit(h);
    ValidHeader(h);
    StripImageOk(h, image, s);
    hide HoldsImage, CfaOk, ImageOk, StripStream, DecodeGroups, Restores, Rejected, ParamsOf, StripWidth, StripImage, InitialWindow, BlockBits, BlockHolds;
    var tail := BlockBitsAre(h, file, dataOffset, cfa, image, s);
    RasterLossless(ParamsOf(h), cfa, h.blockSize, h.totalLines, StripWidth(h, s), StripImage(h, image, s), tail);
  }

  /** The sizes and offsets of the blocks so far. */
  ghost predicate Sized(file: seq<byte>, dataOffset: nat, sizes: seq<nat>, n: nat)
    requires n <= |sizes| && dataOffset + 4 * n <= |file|
  {
    forall s :: 0 <= s < n ==> sizes[s] == BlockSize(file, dataOffset, s)
  }

  ghost predicate Located(h: Header, file: seq<byte>, dataOffset: nat, offsets: seq<nat>, n: nat)
    requires n <= |offsets| && dataOffset + 4 * n <= |file|
  {
    forall s :: 0 <= s < n ==> offsets[s] == BlockOffset(h, file, dataOffset, s)
  }

  /** The size table, and the offsets that the sizes add up to behind it. */
  method ReadBlockSizes(h: Header, file: seq<byte>, dataOffset: nat) returns (blockSizes: array<nat>, rawBlockOffsets: array<nat>)
    requires h.blocksInRow > 0 && dataOffset + 4 * h.blocksInRow <= |file|
    ensures fresh(blockSizes) && fresh(rawBlockOffsets) && blockSizes.Length == rawBlockOffsets.Length == h.blocksInRow
    ensures Sized(file, dataOffset, blockSizes[..], h.blocksInRow) && Located(h, file, dataOffset, rawBlockOffsets[..], h.blocksInRow)
  {
    hide BlockSize;
    blockSizes := new nat[h.blocksInRow];
    rawBlockOffsets := new nat[h.blocksInRow];
    var rawOffset := 4 * h.blocksInRow;
    var odd := rawOffset / 4 % 4 * 4;
    if odd != 0 { rawOffset := rawOffset + (0x10 - odd); }
    rawOffset := rawOffset + dataOffset;
    rawBlockOffsets[0] := rawOffset;
    var curBlock := 0;
    while curBlock < h.blocksInRow
      invariant 0 <= curBlock <= h.blocksInRow && Sized(file, dataOffset, blockSizes[..], curBlock)
      invariant rawBlockOffsets[0] == rawOffset
    {
      var bsize := ReadSize(file, dataOffset, curBlock);
      blockSizes[curBlock] := bsize;
      curBlock := curBlock + 1;
    }
    curBlock := 1;
    while curBlock < h.blocksInRow
      invariant 1 <= curBlock <= h.blocksInRow && Sized(file, dataOffset, blockSizes[..], h.blocksInRow)
      invariant Located(h, file, dataOffset, rawBlockOffsets[..], curBlock)
    {
      rawBlockOffsets[curBlock] := rawBlockOffsets[curBlock - 1] + blockSizes[curBlock - 1];
      curBlock := curBlock + 1;
    }
  }

  method ReadSize(file: seq<byte>, dataOffset: nat, s: nat) returns (bsize: nat)
    requires dataOffset + 4 * s + 4 <= |file|
    ensures bsize == BlockSize(file, dataOffset, s)
  {
    var field := file[dataOffset + 4 * s..dataOffset + 4 * s + 4];
    assert field[..4] == field;
    bsize := Sgetn(4, field);
  }

  /** Setting up and decoding one block. */
  method LoadBlock(h: Header, file: seq<byte>, dataOffset: nat, cfa: Cfa, raw: array<int>, qTable: array<int>, s: nat, offset: nat, size: nat,
                   ghost image: seq<seq<int>>)
    returns (errcnt: nat)
    requires HoldsImage(h, file, dataOffset, cfa, image) && s < h.blocksInRow
    requires offset == BlockOffset(h, file, dataOffset, s) && size == BlockSize(file, dataOffset, s)
    requires raw.Length == h.rawWidth * h.rawHeight && raw != qTable && QTableOk(ParamsOf(h).depth, qTable)
    requires h.rawWidth > 0 && Shown(h, image, raw[..], h.blockSize * s)
    modifies raw
    ensures errcnt == 0 && Shown(h, image, raw[..], h.blockSize * s + StripWidth(h, s))
  {
    hide *;
    ParamsFit(h);
    CfaHasShape(ParamsOf(h), cfa);
    ValidHeader(h);
    ImageShape(h, image);
    StripInside(h, s);
    StripCols(h, s);
    BlockDecodes(h, file, dataOffset, cfa, image, s);
    MustDecode(h, file, dataOffset, cfa, image, s);
    var b := new FujiBlock(ParamsOf(h), qTable, file, offset, size);
    ghost var before := raw[..];
    ghost var groups;
    errcnt, groups := DecodeStrip(b, raw, h.rawWidth, h.rawHeight, cfa, h.blockSize * s, h.totalLines, StripWidth(h, s));
    Decoded(h, file, dataOffset, cfa, image, s, StripOutcome(groups, b.reader.Rest(), errcnt));
    StripShown(h, cfa, image, s, groups, before, raw[..]);
  }

  lemma MustDecode(h: Header, file: seq<byte>, dataOffset: nat, cfa: Cfa, image: seq<seq<int>>, s: nat)
    requires HoldsImage(h, file, dataOffset, cfa, image) && s < h.blocksInRow && Decodes(h, file, dataOffset, cfa, image, s)
    requires ParamsOf(h).lineWidth > 8
    ensures DecodeGroups(ParamsOf(h), InitialWindow(ParamsOf(h)), h.totalLines,
                         BytesToBits(Available(file, BlockOffset(h, file, dataOffset, s), BlockSize(file, dataOffset, s)))).Some?
  {
    hide HoldsImage, ParamsOf, DecodeGroups, Restores, InitialWindow, StripImage, StripWidth, BytesToBits, BlockOffset, BlockSize, Available;
  }

  lemma Decoded(h: Header, file: seq<byte>, dataOffset: nat, cfa: Cfa, image: seq<seq<int>>, s: nat, o: StripOutcome)
    requires HoldsImage(h, file, dataOffset, cfa, image) && s < h.blocksInRow && Decodes(h, file, dataOffset, cfa, image, s)
    requires ParamsOf(h).lineWidth > 8 && CfaShape(ParamsOf(h), cfa) && h.rawHeight == 6 * h.totalLines
    requires DecodeGroups(ParamsOf(h), InitialWindow(ParamsOf(h)), h.totalLines,
                          BytesToBits(Available(file, BlockOffset(h, file, dataOffset, s), BlockSize(file, dataOffset, s)))) == Some(o)
    ensures o.errors == 0 && Restores(ParamsOf(h), cfa, h.totalLines, StripWidth(h, s), StripImage(h, image, s), o.groups)
  {
    hide HoldsImage, ParamsOf, DecodeGroups, Restores, InitialWindow, StripImage, StripWidth, BytesToBits, BlockOffset, BlockSize, Available;
  }

  /** fuji_compressed_load_raw on a file that holds an image: the raster is the image, and no
      block reports an error. */
  method LoadRaw(h: Header, file: seq<byte>, dataOffset: nat, cfa: Cfa, raw: array<int>, ghost image: seq<seq<int>>)
    returns (errcnt: nat)
    requires HoldsImage(h, file, dataOffset, cfa, image) && raw.Length == h.rawWidth * h.rawHeight
    modifies raw
    ensures errcnt == 0 && IsRaster(h, image, raw[..])
  {
    hide *;
    ValidHeader(h);
    ImageShape(h, image);
    errcnt := 0;
    var qTable := InitQTable(ParamsOf(h).depth);
    SomeBlock(h);
    var blockSizes, rawBlockOffsets := ReadBlockSizes(h, file, dataOffset);
    ghost var sizes, offsets := blockSizes[..], rawBlockOffsets[..];
    var curBlock := 0;
    NothingShown(h, image, raw[..]);
    while curBlock < h.blocksInRow
      invariant 0 <= curBlock <= h.blocksInRow && errcnt == 0 && QTableOk(ParamsOf(h).depth, qTable)
      invariant blockSizes[..] == sizes && rawBlockOffsets[..] == offsets
      invariant Shown(h, image, raw[..], if curBlock < h.blocksInRow then h.blockSize * curBlock else h.rawWidth)
    {
      StripInside(h, curBlock);
      BlockAt(h, file, dataOffset, sizes, offsets, curBlock);
      var err := LoadBlock(h, file, dataOffset, cfa, raw, qTable, curBlock, rawBlockOffsets[curBlock], blockSizes[curBlock], image);
      errcnt := errcnt + err;
      curBlock := curBlock + 1;
    }
    AllShown(h, image, raw[..]);
  }

  lemma SomeBlock(h: Header)
    requires !Rejected(h)
    ensures h.blocksInRow > 0
  {
  }

  lemma BlockAt(h: Header, file: seq<byte>, dataOffset: nat, sizes: seq<nat>, offsets: seq<nat>, s: nat)
    requires |sizes| == |offsets| == h.blocksInRow && dataOffset + 4 * h.blocksInRow <= |file| && s < h.blocksInRow
    requires Sized(file, dataOffset, sizes, h.blocksInRow) && Located(h, file, dataOffset, offsets, h.blocksInRow)
    ensures sizes[s] == BlockSize(file, dataOffset, s) && offsets[s] == BlockOffset(h, file, dataOffset, s)
  {
  }

  /** The flat raster is the image, row after row. */
  ghost predicate IsRaster(h: Header, image: seq<seq<int>>, raw: seq<int>) {
    && |image| == h.rawHeight && (forall r :: 0 <= r < |image| ==> |image[r]| == h.rawWidth)
    && forall r, c :: 0 <= r < h.rawHeight && 0 <= c < h.rawWidth ==> PixelIs(raw, h.rawWidth, r, c, image[r][c])
  }

  predicate PixelIs(raw: seq<int>, rawWidth: nat, r: nat, c: nat, x: int) {
    0 <= r * rawWidth + c < |raw| && raw[r * rawWidth + c] == x
  }

  lemma AllShown(h: Header, image: seq<seq<int>>, raw: seq<int>)
    requires |image| == h.rawHeight && h.rawWidth > 0 && forall r :: 0 <= r < |image| ==> |image[r]| == h.rawWidth
    requires Shown(h, image, raw, h.rawWidth) && |raw| == h.rawWidth * h.rawHeight
    ensures IsRaster(h, image, raw)
  {
    hide Shown;
    forall r, c | 0 <= r < h.rawHeight && 0 <= c < h.rawWidth
      ensures PixelIs(raw, h.rawWidth, r, c, image[r][c])
    {
      PaintTarget(h.rawWidth, h.rawHeight, r, c);
      ShownAt(h, image, raw, r, c);
    }
  }

  lemma ImageShape(h: Header, image: seq<seq<int>>)
    requires ImageOk(h, image)
    ensures |image| == h.rawHeight && forall r :: 0 <= r < |image| ==> |image[r]| == h.rawWidth
  {
  }

  lemma NothingShown(h: Header, image: seq<seq<int>>, raw: seq<int>)
    requires |image| == h.rawHeight && h.rawWidth > 0 && forall r :: 0 <= r < |image| ==> |image[r]| == h.rawWidth
    ensures Shown(h, image, raw, 0)
  {
  }

  lemma ShownAt(h: Header, image: seq<seq<int>>, raw: seq<int>, r: nat, c: nat)
    requires |image| == h.rawHeight && h.rawWidth > 0 && forall r :: 0 <= r < |image| ==> |image[r]| == h.rawWidth
    requires Shown(h, image, raw, h.rawWidth) && r < h.rawHeight && c < h.rawWidth && 0 <= r * h.rawWidth + c < |raw|
    ensures raw[r * h.rawWidth + c] == image[r][c]
  {
    hide RowIx, ColIx;
    IndexIs(r, c, h.rawWidth);
  }
}
