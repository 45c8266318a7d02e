/** The header of a compressed RAF, and how its strips, line groups, rows and columns tile the
    raster. */
module FujiTiling {
  import opened Bits

  /** The fields parse_fuji_compressed_header reads. */
  datatype Header = Header(
    signature: nat, version: nat, rawType: nat, rawBits: nat, rawHeight: nat, roundedWidth: nat,
    rawWidth: nat, blockSize: nat, blocksInRow: nat, totalLines: nat)

  /** sgetn: a big-endian number. */
  function BigEndian(s: seq<byte>): nat {
    if s == [] then 0 else BigEndian(s[..|s| - 1]) * 0x100 + s[|s| - 1]
  }

  method Sgetn(n: nat, s: seq<byte>) returns (result: nat)
    requires n <= |s| && n <= 4
    ensures result == BigEndian(s[..n]) < 0x1_0000_0000
  {
    result := 0;
    var i := 0;
    while i < n
      invariant 0 <= i <= n && result == BigEndian(s[..i])
    {
      result := result * 0x100 + s[i];
      i := i + 1;
      assert s[..i][..i - 1] == s[..i - 1];
    }
    BigEndianBound(s[..n]);
  }

  lemma {:induction false} BigEndianBound(s: seq<byte>)
    requires |s| <= 4
    ensures BigEndian(s) < 0x1_0000_0000
    ensures |s| <= 3 ==> BigEndian(s) < 0x100_0000
    ensures |s| <= 2 ==> BigEndian(s) < 0x1_0000
    ensures |s| <= 1 ==> BigEndian(s) < 0x100
  {
    if s != [] { BigEndianBound(s[..|s| - 1]); }
  }

  /** A C `unsigned` difference. */
  function UnsignedDiff(a: nat, b: nat): nat { (a - b) % 0x1_0000_0000 }

  /** All checks of the general validation but one. */
  predicate OtherFault(h: Header) {
    || h.signature != 0x4953 || h.version != 1
    || h.rawHeight > 0x3000 || h.rawHeight < 6 || h.rawHeight % 6 != 0
    || h.blockSize < 1
    || h.rawWidth > 0x3000 || h.rawWidth < 0x300 || h.rawWidth % 24 != 0
    || h.roundedWidth > 0x3000 || h.roundedWidth < h.blockSize || h.roundedWidth % h.blockSize != 0
    || h.blockSize != 0x300
    || h.blocksInRow > 0x10 || h.blocksInRow == 0 || h.blocksInRow != h.roundedWidth / h.blockSize
    || h.totalLines > 0x800 || h.totalLines == 0 || h.totalLines != h.rawHeight / 6
    || (h.rawBits != 12 && h.rawBits != 14)
    || (h.rawType != 16 && h.rawType != 0)
  }

  /** The general validation: the remaining check compares an unsigned difference. */
  predicate Rejected(h: Header) {
    OtherFault(h) || UnsignedDiff(h.roundedWidth, h.rawWidth) >= h.blockSize
  }

  /** A rounded width below the raw width wraps around in that difference, and nothing else
      rejects it: a signed difference would be below the block size. */
  lemma OnlyWrapRejects(h: Header)
    requires !OtherFault(h) && h.roundedWidth < h.rawWidth
    ensures Rejected(h) && h.roundedWidth as int - h.rawWidth as int < h.blockSize
  {
    var d := h.roundedWidth as int - h.rawWidth as int;
    assert UnsignedDiff(h.roundedWidth, h.rawWidth) == d + 0x1_0000_0000;
  }

  /** There are such headers: one block of 768 columns for 792. */
  lemma NarrowHeader() returns (h: Header)
    ensures !OtherFault(h) && h.roundedWidth < h.rawWidth
  {
    h := Header(0x4953, 1, 16, 14, 6, 0x300, 0x318, 0x300, 1, 1);
  }

  function HeaderOf(b: seq<byte>): Header
    requires |b| == 16
  {
    Header(BigEndian(b[..2]), b[2], b[3], b[4], BigEndian(b[5..7]), BigEndian(b[7..9]), BigEndian(b[9..11]),
           BigEndian(b[11..13]), b[13], BigEndian(b[14..]))
  }

  method ParseHeader(header: seq<byte>) returns (r: Option<Header>)
    requires |header| == 16
    ensures r == if Rejected(HeaderOf(header)) then None else Some(HeaderOf(header))
  {
    hide Rejected, BigEndian;
    var signature := Sgetn(2, header);
    var rawHeight := Sgetn(2, header[5..]);
    var roundedWidth := Sgetn(2, header[7..]);
    var rawWidth := Sgetn(2, header[9..]);
    var blockSize := Sgetn(2, header[11..]);
    var totalLines := Sgetn(2, header[14..]);
    assert header[5..][..2] == header[5..7] && header[7..][..2] == header[7..9] && header[9..][..2] == header[9..11];
    assert header[11..][..2] == header[11..13] && header[14..][..2] == header[14..];
    var h := Header(signature, header[2], header[3], header[4], rawHeight, roundedWidth, rawWidth,
                    blockSize, header[13], totalLines);
    if Rejected(h) { return None; }
    return Some(h);
  }

  /** cur_block_width: only the last strip may be narrower than a block. */
  function StripWidth(h: Header, s: nat): int {
    if s + 1 == h.blocksInRow then h.rawWidth - h.blockSize * s else h.blockSize
  }

  /** Strip, line group, row of the group, column of the strip. */
  datatype Spot = Spot(strip: nat, group: nat, row: nat, col: nat)

  predicate InTiling(h: Header, t: Spot) {
    t.strip < h.blocksInRow && t.group < h.totalLines && t.row < 6 && t.col < StripWidth(h, t.strip)
  }

  /** `raw_image + block_width * cur_block + 6 * raw_width * cur_line`, then a row at a time. */
  function RasterIndex(h: Header, t: Spot): nat {
    h.blockSize * t.strip + 6 * h.rawWidth * t.group + h.rawWidth * t.row + t.col
  }

  function SpotOf(h: Header, i: nat): Spot
    requires !Rejected(h)
  {
    DivNonNegative(i, h.rawWidth);
    var row, col := i / h.rawWidth, i % h.rawWidth;
    Spot(col / h.blockSize, row / 6, row % 6, col % h.blockSize)
  }

  /** A header that passes makes sense, although a rounded width below the raw width is only
      caught by the wrap-around of an unsigned subtraction. */
  lemma ValidHeader(h: Header)
    requires !Rejected(h)
    ensures h.rawHeight == 6 * h.totalLines && h.roundedWidth == h.blockSize * h.blocksInRow
    ensures 0 < h.rawWidth <= h.roundedWidth < h.rawWidth + h.blockSize
    ensures forall s :: 0 <= s < h.blocksInRow ==> 0 < StripWidth(h, s) <= h.blockSize
  {
    HeaderParts(h);
    hide Rejected, OtherFault, UnsignedDiff;
  }

  lemma HeaderParts(h: Header)
    requires !Rejected(h)
    ensures h.blockSize == 0x300 && h.blocksInRow > 0 && h.rawHeight == 6 * h.totalLines
    ensures h.roundedWidth == 0x300 * h.blocksInRow && 0x300 <= h.rawWidth <= h.roundedWidth < h.rawWidth + 0x300
  {
    assert h.roundedWidth == 0x300 * (h.roundedWidth / 0x300) + h.roundedWidth % 0x300;
  }

  lemma IndexAsRowCol(h: Header, t: Spot)
    requires !Rejected(h) && InTiling(h, t)
    ensures RasterIndex(h, t) == (6 * t.group + t.row) * h.rawWidth + (h.blockSize * t.strip + t.col)
    ensures h.blockSize * t.strip + t.col < h.rawWidth && 6 * t.group + t.row < h.rawHeight
  {
    HeaderParts(h);
    ValidHeader(h);
    assert StripWidth(h, t.strip) <= h.blockSize;
    hide Rejected, OtherFault, UnsignedDiff;
    Distribute(6 * t.group, t.row, h.rawWidth);
    Assoc(6, t.group, h.rawWidth);
    Assoc(6, h.rawWidth, t.group);
    Commute(t.group, h.rawWidth);
    Commute(t.row, h.rawWidth);
  }

  /** Every write lands inside the raster, and no two writes land on the same pixel. */
  lemma WriteOnce(h: Header, t: Spot)
    requires !Rejected(h) && InTiling(h, t)
    ensures RasterIndex(h, t) < h.rawWidth * h.rawHeight
    ensures SpotOf(h, RasterIndex(h, t)) == t
  {
    hide Rejected, StripWidth;
    ValidHeader(h);
    IndexAsRowCol(h, t);
    var row, col := 6 * t.group + t.row, h.blockSize * t.strip + t.col;
    assert h.blockSize > 0 && t.col < h.blockSize;
    CellAt(row, col, h.rawHeight, h.rawWidth);
    Commute(h.rawHeight, h.rawWidth);
    DivUnique(RasterIndex(h, t), h.rawWidth, row, col);
    DivUnique(row, 6, t.group, t.row);
    DivUnique(col, h.blockSize, t.strip, t.col);
  }

  lemma SpotIn(h: Header, row: nat, col: nat)
    requires !Rejected(h) && row < h.rawHeight && col < h.rawWidth
    ensures InTiling(h, Spot(col / h.blockSize, row / 6, row % 6, col % h.blockSize))
    ensures h.blockSize * (col / h.blockSize) + col % h.blockSize == col && 6 * (row / 6) + row % 6 == row
  {
    ValidHeader(h);
  }

  /** And every pixel of the raster is written. */
  lemma EveryPixelWritten(h: Header, i: nat)
    requires !Rejected(h) && i < h.rawWidth * h.rawHeight
    ensures InTiling(h, SpotOf(h, i)) && RasterIndex(h, SpotOf(h, i)) == i
  {
    ValidHeader(h);
    var row, col := i / h.rawWidth, i % h.rawWidth;
    assert i == row * h.rawWidth + col;
    DivBelow(i, h.rawWidth, h.rawHeight);
    var t := SpotOf(h, i);
    SpotIn(h, row, col);
    IndexAsRowCol(h, t);
  }
}
