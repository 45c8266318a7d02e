/** The state of smal_decode_segment, one symbol after the other. */
module SmalSegment {
  import opened Bits
  import opened DcrawBits
  import opened SmalTable
  import opened SmalBits
  import opened SmalCoder
  import opened SmalDecoder

  /** The comparison of the search sees code and low only modulo 2^16. */
  lemma CountCut(v: int, low: int, data: int, range: int, high: nat)
    requires data == v % 0x1_0000 && range == low % 0x1_0000 && Normal(high)
    ensures CountOf(data - range, high) == CountOf(v - low, high)
  {
    assert (data - range + 1) % 0x1_0000 == (v - low + 1) % 0x1_0000;
  }

  /** `range = (range + low) << nbits` in 16 bits. */
  lemma RangeCut(low: nat, lo: nat, k: nat)
    ensures Shl(low % 0x1_0000 + lo, k) % 0x1_0000 == Shl(low + lo, k) % 0x1_0000
  {
    hide Pow2;
    var q := low / 0x1_0000;
    assert low + lo == (low % 0x1_0000 + lo) + q * 0x1_0000;
    Distribute(low % 0x1_0000 + lo, q * 0x1_0000, Pow2(k));
    Assoc(q, 0x1_0000, Pow2(k));
    Commute(0x1_0000, Pow2(k));
    Assoc(q, Pow2(k), 0x1_0000);
    ModShift(Shl(low % 0x1_0000 + lo, k), q * Pow2(k));
  }

  function EightRow(): (o: seq<byte>)
    ensures |o| == 13 && o[0] == 7
  {
    [7, 7, 0, 0] + [63, 55, 47, 39, 31, 23, 15, 7, 0]
  }

  function FourRow(): (o: seq<byte>)
    ensures |o| == 13 && o[0] == 3
  {
    [3, 3, 0, 0] + [63, 47, 31, 15, 0] + [0, 0, 0, 0]
  }

  method NewTable(o: seq<byte>) returns (t: array<byte>)
    requires |o| == 13
    ensures fresh(t) && t.Length == 13 && t[..] == o
  {
    t := new byte[13](i requires 0 <= i < 13 => o[i]);
  }

  lemma RowHist(head: seq<byte>, c: seq<byte>, tail: seq<byte>)
    requires |head| == 4 && head[0] <= 7 && |c| == head[0] + 2 && |head + c + tail| == 13
    ensures HistOf(head + c + tail) == Hist(head[0], head[1], head[2], head[3], Bytes(c))
  {
    var o := head + c + tail;
    assert o[4..6 + o[0]] == c;
  }

  lemma FirstTable()
    ensures HistOf(EightRow()) == FirstHists()[0] == FirstHists()[1]
  {
    var c: seq<byte> := [63, 55, 47, 39, 31, 23, 15, 7, 0];
    RowHist([7, 7, 0, 0], c, []);
    assert EightRow() == [7, 7, 0, 0] + c + [];
    assert Bytes(c) == FirstHists()[0].c;
  }

  lemma LastTable()
    ensures HistOf(FourRow()) == FirstHists()[2]
  {
    var c: seq<byte> := [63, 47, 31, 15, 0];
    RowHist([3, 3, 0, 0], c, [0, 0, 0, 0]);
    assert Bytes(c) == FirstHists()[2].c;
  }

  lemma TablesOk()
    ensures ModelOk(Start()) && Start() == Model(FirstHists(), 0xff, 0, 8) && |FirstHists()| == 3
    ensures HistOk(FirstHists()[0]) && HistOk(FirstHists()[2])
  {
    StartOk();
  }

  /** The local variables of smal_decode_segment. */
  class Smal {
    const buf: BitBuf
    const hist: seq<array<byte>>
    var data: ushort
    var range: ushort
    var high: nat
    var carry: int
    var nbits: nat

    /** The tables and registers at the start of a segment whose code begins at `pos`. */
    constructor (file: seq<byte>, pos: nat)
      requires pos <= |file|
      ensures Valid() && Stands(Coder(Start(), 0, 8)) && !buf.failed && fresh(buf)
      ensures |hist| == 3 && fresh(hist[0]) && fresh(hist[1]) && fresh(hist[2])
      ensures buf.file == file && buf.Rest() == BytesToBits(file[pos..])
    {
      hide HistOf, HistOk, FirstHists, EightRow, FourRow, BitBuf.Rest, BytesToBits, Start, ModelOk, Unstuff;
      TablesOk();
      FirstTable();
      LastTable();
      var t0 := NewTable(EightRow());
      var t1 := NewTable(EightRow());
      var t2 := NewTable(FourRow());
      PlainBytes(file[pos..]);
      hist := [t0, t1, t2];
      buf := new BitBuf(file, pos, false);
      data, range, high, carry, nbits := 0, 0, 0xff, 0, 8;
    }

    ghost predicate Valid()
      reads this, buf, hist
    {
      && buf.Valid() && buf.vbits < 8 && !buf.zeroAfterFF && |hist| == 3 && hist[0] != hist[1] && hist[0] != hist[2] && hist[1] != hist[2]
      && (forall s :: 0 <= s < 3 ==> hist[s].Length == 13 && RowOk(hist[s][..]) && hist[s][0] == MaskOf(s))
      && Normal(high) && -8 <= carry <= 0 && nbits <= 8
    }

    ghost function Hists(): (h: seq<Hist>)
      requires Valid()
      reads this, buf, hist
      ensures |h| == 3 && forall s :: 0 <= s < 3 ==> h[s] == HistOf(hist[s][..])
    {
      [HistOf(hist[0][..]), HistOf(hist[1][..]), HistOf(hist[2][..])]
    }

    /** The registers stand for the coder `c`. */
    ghost predicate Stands(c: Coder)
      requires Valid()
      reads this, buf, hist
    {
      && c.since <= 8 && c.m.hists == Hists() && c.m.high == high && c.m.nbits == nbits
      && c.m.low % 0x1_0000 == range && c.v % 0x1_0000 == data && CarryOf(c.since) == carry && buf.vbits >= 0
    }

    lemma Means(c: Coder)
      requires Valid()
      ensures buf.Valid() && |hist| == 3
      ensures Stands(c) ==> c.since <= 8 && buf.vbits >= 0
    {
    }

    /** `ftell(ifp)`, while the stream lasts. */
    lemma InFile()
      requires Valid()
      ensures buf.Valid() && buf.pos <= |buf.file|
      ensures buf.vbits >= 0 ==> buf.pos == |buf.file| - |buf.Rest()| / 8
    {
      if buf.vbits >= 0 { buf.Position(); }
    }

    /** The subdivision: from the symbol and the old width to the part's low end and width. */
    method Divide(s: nat, bin: nat) returns (low: nat)
      requires Valid() && s < 3 && bin <= MaskOf(s)
      modifies `high
      ensures var h := HistOf(hist[s][..]);
              && low == LowOf(h, old(high), bin) && high == TopOf(h, old(high), bin) - low && 2 <= high <= 255
    {
      hide HistOk;
      Inner(hist[s][..]);
      PartWide(HistOf(hist[s][..]), high, bin);
      assert hist[s][bin + 5] == HistOf(hist[s][..]).c[bin + 1] && hist[s][bin + 4] == HistOf(hist[s][..]).c[bin];
      low := Scaled(hist[s][bin + 5], high);
      if bin > 0 { high := Scaled(hist[s][bin + 4], high); }
      high := high - low;
    }

    /** Tables and interval are those of the model `m`. */
    ghost predicate Shows(m: Model)
      requires Valid()
      reads this, buf, hist
    {
      m.hists == Hists() && m.high == high && m.low % 0x1_0000 == range && m.nbits == nbits
    }

    /** The interval and the tables after a symbol. */
    method Narrow(s: nat, bin: nat, ghost m: Option<Model>)
      requires Valid() && s < 3 && bin <= MaskOf(s)
      requires m.Some? ==> ModelOk(m.value) && m.value.hists == Hists() && m.value.high == high && m.value.low % 0x1_0000 == range
      modifies `high, `range, `nbits, hist[s]
      ensures Valid()
      ensures m.Some? ==> Shows(Next(m.value, s, bin))
    {
      hide HistOk, RowOk, BitBuf.Valid, Shl, Scaled, Adapt, LowOf, TopOf, HistOf, ModelOk, Shift;
      var low := Divide(s, bin);
      nbits := Renormalise(high);
      if m.Some? { RangeCut(m.value.low, low, nbits); }
      range := Shl(range + low, nbits) % 0x1_0000;
      high := Shl(high, nbits);
      AdaptTable(hist[s], bin);
    }

    /** One turn of the symbol loop. For any stream the tables and the interval stay valid; as
        long as the stream lasts, this is a step of the exact coder. */
    method Symbol(s: nat, ghost c: Coder, ghost r: Option<(nat, Coder, seq<bool>)>) returns (bin: nat)
      requires Valid() && s < 3
      requires r.Some? ==> ModelOk(c.m) && Stands(c) && r == DecodeSym(c, s, buf.Rest())
      modifies this, buf, hist[s]
      ensures Valid() && bin <= MaskOf(s)
      ensures r.Some? ==>
                bin == r.value.0 && Stands(r.value.1) && buf.Rest() == r.value.2 && buf.failed == old(buf.failed)
    {
      hide HistOk, RowOk, BitBuf.Valid, BitBuf.Rest, CountOf, HistOf, Pull, Next, Find;
      ghost var p := if r.Some? then Pull(c.since, c.m.nbits, c.v, buf.Rest()) else None;
      data, carry := TakeBits(buf, nbits, data, carry, c.since, c.v, p);
      if r.Some? { CountCut(p.value.v, c.m.low, data, range, high); }
      bin := Search(hist[s], CountOf(data - range, high));
      Narrow(s, bin, if r.Some? then Some(c.m) else None);
    }
  }

  /** `for (nbits=0; high << nbits < 128; nbits++);` */
  method Renormalise(width: nat) returns (k: nat)
    requires 2 <= width <= 255
    ensures k == Shift(width)
  {
    hide Shl;
    ShlZero(width, 0);
    k := 0;
    while Shl(width, k) < 128
      invariant 2 <= Shl(width, k) <= 255 && Shift(width) == k + Shift(Shl(width, k))
      decreases 255 - Shl(width, k)
    {
      ShlStep(width, k);
      k := k + 1;
    }
  }

  /** `for (bin=0; hist[s][bin+5] > count; bin++);` */
  method Search(h: array<byte>, count: int) returns (bin: nat)
    requires h.Length == 13 && RowOk(h[..]) && count >= 0
    ensures bin == Find(HistOf(h[..]).c, count, 0) && bin <= h[0]
  {
    hide HistOk;
    Inner(h[..]);
    ghost var c := HistOf(h[..]).c;
    bin := 0;
    while h[bin + 5] > count
      invariant bin + 1 < |c| && Find(c, count, 0) == Find(c, count, bin)
      decreases 8 - bin
    {
      assert h[bin + 5] == c[bin + 1];
      bin := bin + 1;
    }
    assert h[bin + 5] == c[bin + 1];
  }
}
