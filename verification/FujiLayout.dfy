/** Which pixel of the raster is which sample of the stream, in which order the lines come, and where
    the parts of the file lie. */
module FujiLayout {
  import opened Bits
  import opened FujiCodec
  import opened FujiWindow
  import opened FujiSchedule
  import opened FujiRaster
  import opened FujiTiling
  import opened FujiLoad

  // ---------------------------------------------------------------- lines and passes

  /** The line of the group that holds the greens of raster row `k`, and the one that holds its
      other colour where red and blue rows take turns. */
  function GreenLine(k: nat): nat { 7 + k }
  function OtherLine(k: nat): nat { if k % 2 == 0 then 2 + k / 2 else 15 + k / 2 }

  /** Pass `k` decodes raster row `k` of a Bayer group: red before green, and green before blue. */
  lemma PassOrder(k: nat)
    requires k < 6
    ensures (LineA(k), LineB(k)) == if k % 2 == 0 then (OtherLine(k), GreenLine(k)) else (GreenLine(k), OtherLine(k))
  {
  }

  /** So its first two events are at the start of these lines, in this order. */
  lemma PassStarts(p: Params, k: nat)
    requires p.lineWidth > 8 && k < 6
    ensures var evs := PassFrom(p, k, 0, 1);
            && |evs| >= 2 && !evs[0].Extend? && !evs[1].Extend? && evs[0].pos == evs[1].pos == 0
            && evs[0].line == (if k % 2 == 0 then OtherLine(k) else GreenLine(k))
            && evs[1].line == (if k % 2 == 0 then GreenLine(k) else OtherLine(k))
  {
    PassOrder(k);
    hide LineA, LineB, PassFrom, Reached;
    StartReached(p);
    Turn(p, k, 0, 1);
  }

  /** Each event of a pass is a sample at a position of its own parity, with the contexts of table
      `k % 3`, or fills up an even one. */
  predicate InPass(p: Params, k: nat, ev: Ev) {
    match ev
    case Sample(odd, line, pos, table) => (odd <==> pos % 2 == 1) && table == k % 3 && IsCoded(p, line, pos)
    case Fill(line, pos) => pos % 2 == 0 && !IsCoded(p, line, pos)
    case Extend(_, _) => false
  }

  lemma {:induction false} PassTables(p: Params, k: nat, e: nat, o: nat, i: nat)
    requires p.lineWidth > 8 && k < 6 && Reached(p, e, o) && i < |PassFrom(p, k, e, o)|
    ensures InPass(p, k, PassFrom(p, k, e, o)[i])
    decreases 2 * p.lineWidth + 2 - (e + o)
  {
    hide LineA, LineB;
    if e < p.lineWidth || o < p.lineWidth {
      hide PassFrom;
      var e' := if e < p.lineWidth then e + 2 else e;
      var o' := if e' > 8 then o + 2 else o;
      Turn(p, k, e, o);
      var head := EvenPart(p, k, e) + OddPart(p, k, e', o);
      if i >= |head| { PassTables(p, k, e', o', i - |head|); }
    }
  }

  lemma StartReached(p: Params)
    requires p.lineWidth > 8
    ensures Reached(p, 0, 1)
  {
  }

  /** After each red or blue line the next of its colour is filled up at the ends, and after each
      pass the next green ones: even passes end with red, odd ones with blue. */
  lemma PassEndIs(p: Params, k: nat)
    requires k < 6
    ensures |PassEnd(p, k)| == 2 && forall i :: 0 <= i < 2 ==> PassEnd(p, k)[i].Extend?
    ensures forall l :: 2 <= l < LINES ==>
              ((exists i :: 0 <= i < 2 && PassEnd(p, k)[i].first <= l <= PassEnd(p, k)[i].last) <==>
               Rank(l) >= 0 && (Colour(l) == 1 || Colour(l) == (if k % 2 == 0 then 0 else 2)))
  {
    var e := PassEnd(p, k);
    forall l | 2 <= l < LINES
      ensures (exists i :: 0 <= i < 2 && e[i].first <= l <= e[i].last) <==>
              Rank(l) >= 0 && (Colour(l) == 1 || Colour(l) == (if k % 2 == 0 then 0 else 2))
    {
      assert (e[0].first <= l <= e[0].last || e[1].first <= l <= e[1].last) <==>
             Rank(l) >= 0 && (Colour(l) == 1 || Colour(l) == (if k % 2 == 0 then 0 else 2));
    }
  }

  // ---------------------------------------------------------------- pixels

  /** The colour that the filter has at pixel (r, c): 0 red, 2 blue, 1 any green. */
  function ColourAt(p: Params, cfa: Cfa, r: nat, c: nat): nat
    requires CfaShape(p, cfa) && r < 6
  {
    var v := cfa[r % Period(p)][c % Period(p)];
    if v == 0 then 0 else if v == 2 then 2 else 1
  }

  /** A pixel lies in the plane of its own colour, in the row of its group: green planes have all
      rows of the raster, red and blue ones every second. */
  lemma PixelRow(p: Params, cfa: Cfa, g: nat, r: nat, c: nat)
    requires CfaShape(p, cfa) && r < 6
    ensures var l := PixelLine(p, cfa, r, c);
            && Colour(l) == ColourAt(p, cfa, r, c) && Rank(l) >= 0
            && RowOf(g, l) == if Colour(l) == 1 then 6 * g + r else (6 * g + r) / 2
  {
    assert (6 * g + r) / 2 == 3 * g + r / 2;
  }

  /** And in the order of the columns: two to a sample in a Bayer line, three to two in an X-Trans
      line, the second and the third together. */
  lemma PixelColumn(p: Params, c: nat)
    ensures !p.xtrans ==> 2 * PixelIndex(p, c) <= c <= 2 * PixelIndex(p, c) + 1
    ensures p.xtrans && c % 3 == 0 ==> 3 * PixelIndex(p, c) == 2 * c
    ensures p.xtrans && c % 3 == 1 ==> PixelIndex(p, c) == PixelIndex(p, c + 1) == PixelIndex(p, c - 1) + 1
  {
    IndexByTriple(p, c);
    if p.xtrans {
      IndexByTriple(p, c + 1);
      if c > 0 { IndexByTriple(p, c - 1); }
    }
    hide PixelIndex;
  }

  /** Of an X-Trans group the samples in the stream are exactly those that belong to a pixel. */
  lemma CodedExactly(p: Params, l: nat, i: nat)
    requires p.xtrans && l < LINES && Rank(l) >= 0
    ensures IsCoded(p, l, i) <==> exists r: nat, c: nat :: r < 6 && PixelLine(p, XTRANS, r, c) == l && PixelIndex(p, c) == i
  {
    if IsCoded(p, l, i) {
      var r, c := OwnerOf(p, l, i);
    } else {
      forall r: nat, c: nat | r < 6 && PixelLine(p, XTRANS, r, c) == l ensures PixelIndex(p, c) != i {
        XTransCell(p, r, c);
        hide PixelLine, PixelIndex;
      }
    }
  }

  lemma OwnerOf(p: Params, l: nat, i: nat) returns (r: nat, c: nat)
    requires p.xtrans && l < LINES && Rank(l) >= 0 && IsCoded(p, l, i)
    ensures r < 6 && PixelLine(p, XTRANS, r, c) == l && PixelIndex(p, c) == i
  {
    CodedByTile(p, l, i);
    OwnerInTile(p, l, i % 4);
    var o := XTRANS_OWNER[l][i % 4];
    r, c := o / 6, 6 * (i / 4) + o % 6;
    XTransIndex(p, c);
    LineByTile(p, r, c);
    assert c / 6 == i / 4 && c % 6 == o % 6;
    hide PixelLine, PixelIndex, IsCoded, Rank;
  }

  /** The owner that the table names has the sample. */
  lemma OwnerInTile(p: Params, l: nat, i: nat)
    requires p.xtrans && l < LINES && Rank(l) >= 0 && i < 4 && IsCoded(p, l, i)
    ensures var o := XTRANS_OWNER[l][i];
            o < 36 && PixelLine(p, XTRANS, o / 6, o % 6) == l && TILE_INDEX[o % 6] == i
  {
    hide PixelLine, IsCoded, Rank;
    if l < 7 { RedOwner(p, l, i); } else if l < 10 { GreenOwner(p, l, i); } else if l < 13 { LowerGreenOwner(p, l, i); } else { BlueOwner(p, l, i); }
  }

  lemma RedOwner(p: Params, l: nat, i: nat)
    requires p.xtrans && l < 7 && Rank(l) >= 0 && i < 4 && IsCoded(p, l, i)
    ensures var o := XTRANS_OWNER[l][i];
            o < 36 && PixelLine(p, XTRANS, o / 6, o % 6) == l && TILE_INDEX[o % 6] == i
  {
    if l == 2 {} else if l == 3 {} else {}
  }

  lemma GreenOwner(p: Params, l: nat, i: nat)
    requires p.xtrans && 7 <= l < 10 && i < 4 && IsCoded(p, l, i)
    ensures var o := XTRANS_OWNER[l][i];
            o < 36 && PixelLine(p, XTRANS, o / 6, o % 6) == l && TILE_INDEX[o % 6] == i
  {
    if l == 7 {} else if l == 8 {} else {}
  }

  lemma LowerGreenOwner(p: Params, l: nat, i: nat)
    requires p.xtrans && 10 <= l < 13 && i < 4 && IsCoded(p, l, i)
    ensures var o := XTRANS_OWNER[l][i];
            o < 36 && PixelLine(p, XTRANS, o / 6, o % 6) == l && TILE_INDEX[o % 6] == i
  {
    if l == 10 {} else if l == 11 {} else {}
  }

  lemma BlueOwner(p: Params, l: nat, i: nat)
    requires p.xtrans && 13 <= l < LINES && Rank(l) >= 0 && i < 4 && IsCoded(p, l, i)
    ensures var o := XTRANS_OWNER[l][i];
            o < 36 && PixelLine(p, XTRANS, o / 6, o % 6) == l && TILE_INDEX[o % 6] == i
  {
    if l == 15 {} else if l == 16 {} else {}
  }

  // ---------------------------------------------------------------- the file

  /** Strips are 768 columns of the image from left to right. */
  lemma PixelInStrip(h: Header, image: seq<seq<int>>, r: nat, c: nat)
    requires !Rejected(h) && |image| == h.rawHeight && (forall r :: 0 <= r < |image| ==> |image[r]| == h.rawWidth)
    requires r < h.rawHeight && c < h.rawWidth
    ensures var s := c / 0x300;
            s < h.blocksInRow && c % 0x300 < StripWidth(h, s) && StripImage(h, image, s)[r][c % 0x300] == image[r][c]
  {
    HeaderParts(h);
    ValidHeader(h);
    StripInside(h, c / 0x300);
    hide Rejected;
  }

  /** The blocks begin at the first multiple of 16 bytes behind the size table. */
  lemma FirstBlockIs(h: Header, dataOffset: nat)
    ensures var o := FirstBlock(h, dataOffset) - dataOffset; o % 16 == 0 && 4 * h.blocksInRow <= o < 4 * h.blocksInRow + 16
  {
  }

  /** A header as it is in a file: 4032 rows of 6024 pixels in eight blocks, 14 bits, X-Trans, with
      512 samples to a line. */
  lemma HeaderExample()
    ensures var h := HeaderOf([0x49, 0x53, 1, 16, 14, 0x0f, 0xc0, 0x18, 0, 0x17, 0x88, 3, 0, 8, 0x02, 0xa0]);
            && !Rejected(h) && h.rawHeight == 4032 && h.rawWidth == 6024 && h.blocksInRow == 8 && h.totalLines == 672
            && h.rawBits == 14 && h.rawType == 16 && h.roundedWidth == 6144
            && ParamsOf(h) == Params(Bits14, true, 512)
  {
    var b: seq<byte> := [0x49, 0x53, 1, 16, 14, 0x0f, 0xc0, 0x18, 0, 0x17, 0x88, 3, 0, 8, 0x02, 0xa0];
    TwoBytes(b[..2]);
    TwoBytes(b[5..7]);
    TwoBytes(b[7..9]);
    TwoBytes(b[9..11]);
    TwoBytes(b[11..13]);
    TwoBytes(b[14..]);
    hide BigEndian;
  }

  lemma TwoBytes(s: seq<byte>)
    requires |s| == 2
    ensures BigEndian(s) == s[0] as int * 0x100 + s[1]
  {
    assert s[..1][..0] == [] && BigEndian(s[..1]) == s[0];
  }
}
