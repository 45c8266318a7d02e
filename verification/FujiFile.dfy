/** Files that hold a compressed RAF image: how long the code of an image can get, and that every
    image that the header allows has a file. */
module FujiFile {
  import opened Bits
  import opened FujiCodec
  import opened FujiWindow
  import opened FujiSchedule
  import opened FujiPlanes
  import opened FujiStrip
  import opened FujiRaster
  import opened FujiImage
  import opened FujiTiling
  import opened FujiLoad

  // ---------------------------------------------------------------- how long codes get

  /** No coded sample takes more than max_bits bits, escape or not. */
  lemma CodeWithinMaxBits(d: Depth, c: Ctx, code: nat)
    requires CtxOk(c) && code < d.TotalValues()
    ensures 1 <= |EncodeCode(d, c, code)| <= d.MaxBits()
  {
    hide Shl, Shr, Low, FromNat, GolombBits;
  }

  lemma {:induction false} PlaneCodeLength(p: Params, n: nat, planes: Planes, g: nat, evs: seq<Ev>, even: seq<Ctx>, odd: seq<Ctx>)
    requires PlanesOk(p, n, planes) && g < n && EvsOk(p, evs) && TablesOk(even, odd)
    ensures |PlaneCode(p, n, planes, g, evs, even, odd).bits| <= 56 * |evs|
    decreases |evs|
  {
    if evs != [] {
      hide PlanesOk, TablesOk, PlaneCode, EvOk;
      var a := OneEvent(p, n, planes, g, evs, even, odd);
      PlaneCodeCons(p, n, planes, g, evs, even, odd);
      PlaneCodeLength(p, n, planes, g, evs[1..], a.even, a.odd);
    }
  }

  lemma OneEvent(p: Params, n: nat, planes: Planes, g: nat, evs: seq<Ev>, even: seq<Ctx>, odd: seq<Ctx>) returns (a: Emitted)
    requires PlanesOk(p, n, planes) && g < n && EvsOk(p, evs) && evs != [] && TablesOk(even, odd)
    ensures EvsOk(p, [evs[0]]) && EvsOk(p, evs[1..]) && a == PlaneCode(p, n, planes, g, [evs[0]], even, odd)
    ensures TablesOk(a.even, a.odd) && |a.bits| <= 56
  {
    var one := [evs[0]];
    assert one[1..] == [];
    var ev := evs[0];
    hide PlanesOk, TablesOk, Row, Residual, Predict, Sloped, Adapt, PlaneHood, EncodeCode, Slot;
    a := PlaneCode(p, n, planes, g, one, even, odd);
    if ev.Sample? {
      var h := PlaneHood(p, n, planes, g, ev.odd, ev.line, ev.pos);
      PlaneHoodInRange(p, n, planes, g, ev.odd, ev.line, ev.pos);
      RowInRange(p, n, planes, g, ev.line);
      var x := Row(p, n, planes, g, ev.line)[ev.pos + 1];
      var i := Slot(p.depth, ev.table, h);
      SampleLength(p.depth, h, if ev.odd then odd[i] else even[i], x);
    }
  }

  lemma SampleLength(d: Depth, h: Hood, c: Ctx, x: int)
    requires h.InRange(d.QMax()) && CtxOk(c) && 0 <= x <= d.QMax()
    ensures |EncodeSample(d, h, c, x)| <= 56
  {
    hide EncodeCode, Predict, Sloped, Residual;
    PredictInRange(h, d.QMax());
    ResidualInverts(d, Predict(h), Sloped(h, d), x);
    CodeWithinMaxBits(d, c, Zigzag(Residual(d, Predict(h), Sloped(h, d), x)));
  }

  lemma {:induction false} PassLength(p: Params, k: nat, e: nat, o: nat)
    requires p.lineWidth > 8 && k < 6 && Reached(p, e, o)
    ensures |PassFrom(p, k, e, o)| <= 2 * p.lineWidth + 2 - (e + o)
    decreases 2 * p.lineWidth + 2 - (e + o)
  {
    hide PassFrom, Reached;
    if e < p.lineWidth || o < p.lineWidth {
      Turn(p, k, e, o);
      PassLength(p, k, if e < p.lineWidth then e + 2 else e, if (if e < p.lineWidth then e + 2 else e) > 8 then o + 2 else o);
    } else {
      PassOver(p, k, e, o);
    }
  }

  lemma PassOver(p: Params, k: nat, e: nat, o: nat)
    requires p.lineWidth > 8 && k < 6 && Reached(p, e, o) && e >= p.lineWidth && o >= p.lineWidth
    ensures PassFrom(p, k, e, o) == [] && e + o <= 2 * p.lineWidth + 2
  {
  }

  lemma {:induction false} GroupLength(p: Params, k: nat)
    requires p.lineWidth > 8 && k <= 6
    ensures |GroupFrom(p, k)| <= (6 - k) * (2 * p.lineWidth + 3)
    decreases 6 - k
  {
    hide PassFrom;
    if k < 6 {
      PassLength(p, k, 0, 1);
      GroupLength(p, k + 1);
      assert (6 - k) * (2 * p.lineWidth + 3) == (6 - (k + 1)) * (2 * p.lineWidth + 3) + (2 * p.lineWidth + 3);
    }
  }

  /** Bits of one line group at most: six passes of 1027 events, 56 bits each. */
  const GROUP_BITS: nat := 345_072

  lemma {:induction false} StripLength(p: Params, n: nat, planes: Planes, g: nat, even: seq<Ctx>, odd: seq<Ctx>)
    requires PlanesOk(p, n, planes) && g <= n && TablesOk(even, odd) && p.lineWidth <= 512
    ensures |StripCode(p, n, planes, g, even, odd)| <= (n - g) * GROUP_BITS
    decreases n - g
  {
    hide PlanesOk, TablesOk, PlaneCode, GroupFrom;
    if g < n {
      var r := PlaneCode(p, n, planes, g, GroupEvents(p), even, odd);
      PlaneCodeLength(p, n, planes, g, GroupEvents(p), even, odd);
      GroupLength(p, FIRST_PASS);
      StripLength(p, n, planes, g + 1, r.even, r.odd);
    }
  }

  /** Which keeps every block, of at most 2048 groups, below this length. */
  ghost predicate Short(blocks: seq<seq<byte>>) {
    forall i :: 0 <= i < |blocks| ==> |blocks[i]| <= 0x600_0000
  }

  lemma StreamLength(p: Params, cfa: Cfa, blockWidth: nat, n: nat, width: nat, image: seq<seq<int>>)
    requires CfaOk(p, cfa) && StripOk(p, blockWidth, n, width, image) && p.lineWidth <= 512
    ensures |StripStream(p, cfa, blockWidth, n, width, image)| <= n * GROUP_BITS
  {
    HealthyTables(p, InitialWindow(p));
    hide *;
    var planes := RasterPlanes(p, cfa, blockWidth, n, width, image);
    StripLength(p, n, planes, 0, InitialWindow(p).even, InitialWindow(p).odd);
    StreamIs(p, cfa, blockWidth, n, width, image);
  }

  lemma StreamIs(p: Params, cfa: Cfa, blockWidth: nat, n: nat, width: nat, image: seq<seq<int>>)
    requires CfaOk(p, cfa) && StripOk(p, blockWidth, n, width, image) && TablesOk(InitialWindow(p).even, InitialWindow(p).odd)
    ensures StripStream(p, cfa, blockWidth, n, width, image) ==
            StripCode(p, n, RasterPlanes(p, cfa, blockWidth, n, width, image), 0, InitialWindow(p).even, InitialWindow(p).odd)
  {
    hide CfaOk, StripOk, RasterPlanes, StripCode, PlanesOk, TablesOk, InitialWindow, Healthy, Shape;
  }

  lemma BlockLength(h: Header, cfa: Cfa, image: seq<seq<int>>, s: nat)
    requires !Rejected(h) && CfaOk(ParamsOf(h), cfa) && ImageOk(h, image) && s < h.blocksInRow
    ensures |BitsToBytes(BlockStream(h, cfa, image, s))| <= 0x600_0000
  {
    hide CfaOk, ImageOk, StripOk, StripStream, ParamsOf, StripWidth, StripImage, BitsToBytes;
    HeaderBounds(h);
    ImageShape(h, image);
    StripImageOk(h, image, s);
    hide Rejected;
    StreamLength(ParamsOf(h), cfa, h.blockSize, h.totalLines, StripWidth(h, s), StripImage(h, image, s));
    Smaller(h.totalLines, 0x800, GROUP_BITS);
  }

  lemma HeaderBounds(h: Header)
    requires !Rejected(h)
    ensures h.totalLines <= 0x800 && h.blocksInRow <= 0x10 && ParamsOf(h).lineWidth <= 512
  {
  }

  // ---------------------------------------------------------------- the layout of the file

  function BigBytes(v: nat): (s: seq<byte>)
    requires v < 0x1_0000_0000
    ensures |s| == 4 && BigEndian(s) == v
  {
    var s := [v / 0x100 / 0x100 / 0x100, v / 0x100 / 0x100 % 0x100, v / 0x100 % 0x100, v % 0x100];
    FourBytes(s);
    s
  }

  lemma FourBytes(s: seq<byte>)
    requires |s| == 4
    ensures BigEndian(s) == ((s[0] as int * 0x100 + s[1]) * 0x100 + s[2]) * 0x100 + s[3]
  {
    assert s[..3][..2] == s[..2] && s[..2][..1] == s[..1] && s[..1][..0] == [];
    assert BigEndian(s[..1]) == s[0];
    assert BigEndian(s[..2]) == s[0] as int * 0x100 + s[1];
  }

  function SizeTable(blocks: seq<seq<byte>>): (s: seq<byte>)
    requires Short(blocks)
    ensures |s| == 4 * |blocks|
  {
    if blocks == [] then [] else SizeTable(blocks[..|blocks| - 1]) + BigBytes(|blocks[|blocks| - 1]|)
  }

  function Joined(blocks: seq<seq<byte>>): seq<byte> {
    if blocks == [] then [] else Joined(blocks[..|blocks| - 1]) + blocks[|blocks| - 1]
  }

  lemma {:induction false} SizeAt(blocks: seq<seq<byte>>, s: nat)
    requires s < |blocks| && Short(blocks)
    ensures SizeTable(blocks)[4 * s..4 * s + 4] == BigBytes(|blocks[s]|)
  {
    hide BigBytes;
    if s + 1 < |blocks| { SizeAt(blocks[..|blocks| - 1], s); }
  }

  lemma {:induction false} JoinedAt(blocks: seq<seq<byte>>, s: nat)
    requires s < |blocks|
    ensures var at := |Joined(blocks[..s])|;
            at + |blocks[s]| <= |Joined(blocks)| && Joined(blocks)[at..at + |blocks[s]|] == blocks[s]
  {
    var but := blocks[..|blocks| - 1];
    if s + 1 < |blocks| {
      JoinedAt(but, s);
      assert but[..s] == blocks[..s];
    }
  }

  lemma {:induction false} JoinedLength(blocks: seq<seq<byte>>, most: nat)
    requires forall i :: 0 <= i < |blocks| ==> |blocks[i]| <= most
    ensures |Joined(blocks)| <= |blocks| * most
  {
    if blocks != [] {
      JoinedLength(blocks[..|blocks| - 1], most);
      Distribute(|blocks| - 1, 1, most);
    }
  }

  /** The size table, padding, and the blocks. */
  function FileOf(h: Header, dataOffset: nat, blocks: seq<seq<byte>>): (file: seq<byte>)
    requires |blocks| == h.blocksInRow && Short(blocks)
    ensures |file| == FirstBlock(h, dataOffset) + |Joined(blocks)|
    ensures file[FirstBlock(h, dataOffset)..] == Joined(blocks)
    ensures dataOffset + 4 * |blocks| <= |file| && file[dataOffset..dataOffset + 4 * |blocks|] == SizeTable(blocks)
  {
    var front := seq(dataOffset, _ => 0) + SizeTable(blocks);
    var padded := front + seq(FirstBlock(h, dataOffset) - |front|, _ => 0);
    var file := padded + Joined(blocks);
    assert file[dataOffset..dataOffset + 4 * |blocks|] == front[dataOffset..];
    file
  }

  lemma Slice(s: seq<byte>, a: nat, b: nat, i: nat, j: nat)
    requires a <= b <= |s| && i <= j <= b - a
    ensures s[a..b][i..j] == s[a + i..a + j]
  {
    var t, u := s[a..b][i..j], s[a + i..a + j];
    forall k | 0 <= k < j - i ensures t[k] == u[k] {
      assert t[k] == s[a..b][i + k];
    }
  }

  lemma SizeRead(h: Header, dataOffset: nat, blocks: seq<seq<byte>>, s: nat)
    requires |blocks| == h.blocksInRow && s < |blocks| && Short(blocks)
    ensures BlockSize(FileOf(h, dataOffset, blocks), dataOffset, s) == |blocks[s]|
  {
    hide FileOf, FirstBlock, SizeTable, BigBytes, BigEndian;
    var file := FileOf(h, dataOffset, blocks);
    SizeAt(blocks, s);
    Slice(file, dataOffset, dataOffset + 4 * |blocks|, 4 * s, 4 * s + 4);
  }

  /** The running sum of the sizes finds the blocks. */
  lemma {:induction false} OffsetRead(h: Header, dataOffset: nat, blocks: seq<seq<byte>>, s: nat)
    requires |blocks| == h.blocksInRow && s <= |blocks| && Short(blocks)
    ensures BlockOffset(h, FileOf(h, dataOffset, blocks), dataOffset, s) == FirstBlock(h, dataOffset) + |Joined(blocks[..s])|
  {
    hide FileOf, FirstBlock, BlockSize;
    if s > 0 {
      OffsetRead(h, dataOffset, blocks, s - 1);
      SizeRead(h, dataOffset, blocks, s - 1);
      assert blocks[..s][..s - 1] == blocks[..s - 1];
    }
  }

  lemma BlockRead(h: Header, dataOffset: nat, blocks: seq<seq<byte>>, s: nat)
    requires |blocks| == h.blocksInRow && s < |blocks| && Short(blocks)
    ensures var file := FileOf(h, dataOffset, blocks);
            var offset, size := BlockOffset(h, file, dataOffset, s), BlockSize(file, dataOffset, s);
            offset + size <= |file| && file[offset..offset + size] == blocks[s]
  {
    hide FileOf, FirstBlock, BlockSize, BlockOffset, Joined;
    var file, first := FileOf(h, dataOffset, blocks), FirstBlock(h, dataOffset);
    OffsetRead(h, dataOffset, blocks, s);
    SizeRead(h, dataOffset, blocks, s);
    JoinedAt(blocks, s);
    var at := |Joined(blocks[..s])|;
    assert file[first + at..first + at + |blocks[s]|] == file[first..][at..at + |blocks[s]|];
  }

  lemma FirstBlockNear(h: Header, dataOffset: nat)
    requires h.blocksInRow <= 0x10
    ensures FirstBlock(h, dataOffset) <= dataOffset + 80
  {
  }

  /** The blocks of an image. */
  ghost function BlocksOf(h: Header, cfa: Cfa, image: seq<seq<int>>): (blocks: seq<seq<byte>>)
    requires !Rejected(h) && CfaOk(ParamsOf(h), cfa) && ImageOk(h, image)
    ensures |blocks| == h.blocksInRow
    ensures forall s :: 0 <= s < |blocks| ==> blocks[s] == BitsToBytes(BlockStream(h, cfa, image, s))
  {
    seq(h.blocksInRow, s requires 0 <= s < h.blocksInRow => BitsToBytes(BlockStream(h, cfa, image, s)))
  }

  lemma BlockThere(h: Header, cfa: Cfa, image: seq<seq<int>>, dataOffset: nat, blocks: seq<seq<byte>>, s: nat)
    requires !Rejected(h) && CfaOk(ParamsOf(h), cfa) && ImageOk(h, image)
    requires |blocks| == h.blocksInRow && s < |blocks| && Short(blocks)
    requires blocks[s] == BitsToBytes(BlockStream(h, cfa, image, s))
    ensures BlockHolds(h, FileOf(h, dataOffset, blocks), dataOffset, cfa, image, s)
  {
    hide Rejected, CfaOk, ImageOk, ParamsOf, BlockStream, BitsToBytes, FileOf, FirstBlock, Joined, BlockOffset, BlockSize, BytesToBits;
    BlockRead(h, dataOffset, blocks, s);
    var fill := BytesSpell(BlockStream(h, cfa, image, s));
  }

  lemma LayoutFits(h: Header, dataOffset: nat, blocks: seq<seq<byte>>)
    requires |blocks| == h.blocksInRow <= 0x10 && dataOffset < 0x8000_0000 && Short(blocks)
    ensures |FileOf(h, dataOffset, blocks)| < 0x1_0000_0000
  {
    hide FileOf, FirstBlock, Joined;
    JoinedLength(blocks, 0x600_0000);
    FirstBlockNear(h, dataOffset);
    Smaller(|blocks|, 0x10, 0x600_0000);
  }

  /** Every image that the header allows has a file that holds it, for any data offset below
      2 GB. */
  lemma ImageHasFile(h: Header, cfa: Cfa, image: seq<seq<int>>, dataOffset: nat) returns (file: seq<byte>)
    requires !Rejected(h) && CfaOk(ParamsOf(h), cfa) && ImageOk(h, image) && dataOffset < 0x8000_0000
    ensures HoldsImage(h, file, dataOffset, cfa, image)
  {
    HeaderBounds(h);
    hide *;
    var blocks := BlocksOf(h, cfa, image);
    AllShort(h, cfa, image, blocks);
    LayoutFits(h, dataOffset, blocks);
    file := FileOf(h, dataOffset, blocks);
    forall s | 0 <= s < h.blocksInRow ensures BlockHolds(h, file, dataOffset, cfa, image, s) {
      BlockThere(h, cfa, image, dataOffset, blocks, s);
    }
    AllHold(h, file, dataOffset, cfa, image);
  }

  lemma AllShort(h: Header, cfa: Cfa, image: seq<seq<int>>, blocks: seq<seq<byte>>)
    requires !Rejected(h) && CfaOk(ParamsOf(h), cfa) && ImageOk(h, image) && blocks == BlocksOf(h, cfa, image)
    ensures Short(blocks)
  {
    hide Rejected, CfaOk, ImageOk, ParamsOf, BlockStream, BitsToBytes;
    forall s | 0 <= s < |blocks| ensures |blocks[s]| <= 0x600_0000 { BlockLength(h, cfa, image, s); }
  }

  lemma AllHold(h: Header, file: seq<byte>, dataOffset: nat, cfa: Cfa, image: seq<seq<int>>)
    requires !Rejected(h) && CfaOk(ParamsOf(h), cfa) && ImageOk(h, image) && dataOffset + 4 * h.blocksInRow <= |file| < 0x1_0000_0000
    requires forall s :: 0 <= s < h.blocksInRow ==> BlockHolds(h, file, dataOffset, cfa, image, s)
    ensures HoldsImage(h, file, dataOffset, cfa, image)
  {
    hide Rejected, CfaOk, ImageOk, BlockHolds;
  }
}
