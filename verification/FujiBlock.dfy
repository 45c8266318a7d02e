/** The decoder as the C code runs it: one block with its bit reader, its two context tables and
    the flat allocation that holds the 18 line buffers, all updated in place. Each method is
    proved to do to the window what the specification functions of the codec say. */
module FujiBlock {
  import opened Bits
  import opened FujiCodec
  import opened FujiWindow
  import opened FujiSchedule
  import opened FujiPlanes
  import opened FujiStrip
  import opened FujiReader

  lemma RowsApart(w: nat, line: nat, cell: nat, l: nat, j: nat)
    requires cell < w && j < w
    ensures line * w + cell == l * w + j <==> line == l && cell == j
    ensures line < LINES ==> 0 <= line * w <= line * w + cell < LINES * w
  {
    if line < LINES { MulStep(line, LINES, w); }
    if line < l { MulStep(line, l, w); }
    if l < line { MulStep(l, line, w); }
  }

  /** Line `l` of the flat allocation. */
  function LineAt(a: seq<int>, w: nat, l: nat): (r: seq<int>)
    requires |a| == LINES * w && l < LINES
    ensures |r| == w
  {
    MulStep(l, LINES, w);
    a[l * w..l * w + w]
  }

  function LinesAt(a: seq<int>, w: nat): (r: seq<seq<int>>)
    requires |a| == LINES * w
    ensures |r| == LINES && forall l :: 0 <= l < LINES ==> |r[l]| == w
  {
    seq(LINES, l requires 0 <= l < LINES => LineAt(a, w, l))
  }

  lemma LineCell(a: seq<int>, w: nat, l: nat, j: nat)
    requires |a| == LINES * w && l < LINES && j < w
    ensures 0 <= l * w + j < |a| && LineAt(a, w, l)[j] == a[l * w + j]
  {
    MulStep(l, LINES, w);
  }

  lemma PutInLine(a: seq<int>, w: nat, line: nat, cell: nat, x: int, l: nat, j: nat)
    requires |a| == LINES * w && line < LINES && cell < w && l < LINES && j < w
    ensures 0 <= line * w + cell < |a|
    ensures LineAt(a[line * w + cell := x], w, l)[j] == if l == line && j == cell then x else LineAt(a, w, l)[j]
  {
    RowsApart(w, line, cell, line, cell);
    RowsApart(w, line, cell, l, j);
    LineCell(a, w, l, j);
    LineCell(a[line * w + cell := x], w, l, j);
    hide LineAt;
  }

  /** Writing one cell of the flat allocation writes that cell of that line only. */
  lemma FlatPut(a: seq<int>, w: nat, line: nat, cell: nat, x: int)
    requires |a| == LINES * w && line < LINES && cell < w
    ensures 0 <= line * w + cell < |a|
    ensures LinesAt(a[line * w + cell := x], w) == PutCell(LinesAt(a, w), line, cell, x)
  {
    hide LineAt;
    PutInLine(a, w, line, cell, x, line, cell);
    var b := a[line * w + cell := x];
    forall l | 0 <= l < LINES
      ensures LineAt(b, w, l) == PutCell(LinesAt(a, w), line, cell, x)[l]
    {
      forall j | 0 <= j < w
        ensures LineAt(b, w, l)[j] == PutCell(LinesAt(a, w), line, cell, x)[l][j]
      {
        PutInLine(a, w, line, cell, x, l, j);
      }
    }
  }

  lemma FlatGet(a: seq<int>, w: nat, line: nat, cell: nat)
    requires |a| == LINES * w && line < LINES && cell < w
    ensures 0 <= line * w + cell < |a|
    ensures a[line * w + cell] == LinesAt(a, w)[line][cell]
  {
    RowsApart(w, line, cell, line, cell);
  }

  /** The negative offsets of the sample decoders, resolved: from sample `pos` of a buffer,
      `-2 - line_width` is the same position one buffer up, its neighbours are beside it, and
      `-4 - 2 * line_width` is two buffers up. */
  lemma Offsets(lineWidth: nat, line: nat, pos: nat)
    requires 2 <= line
    ensures var w := lineWidth + 2;
            var cur := line * w + 1 + pos;
            && cur - 2 - lineWidth == (line - 1) * w + (pos + 1)
            && cur - 3 - lineWidth == (line - 1) * w + pos
            && cur - 1 - lineWidth == (line - 1) * w + (pos + 2)
            && cur - 4 - 2 * lineWidth == (line - 2) * w + (pos + 1)
            && cur - 1 == line * w + pos && cur + 1 == line * w + (pos + 2)
  {
    var w := lineWidth + 2;
    assert (line - 1) * w == line * w - w;
    assert (line - 2) * w == line * w - 2 * w;
  }

  method NewContexts(d: Depth) returns (a: array<Ctx>)
    ensures fresh(a) && a.Length == 3 * CONTEXTS && forall i :: 0 <= i < a.Length ==> a[i] == InitialCtx(d)
  {
    a := new Ctx[3 * CONTEXTS](_ => InitialCtx(d));
  }

  method NewLines(lineWidth: nat) returns (a: array<int>)
    ensures fresh(a) && a.Length == LINES * (lineWidth + 2) && forall i :: 0 <= i < a.Length ==> a[i] == 0
  {
    a := new int[LINES * (lineWidth + 2)](_ => 0);
  }

  class FujiBlock {
    const p: Params
    const qTable: array<int>
    const reader: BitReader
    const gradEven: array<Ctx>
    const gradOdd: array<Ctx>
    const linealloc: array<int>

    ghost function Repr(): (r: set<object>)
      ensures reader in r && reader.curBuf in r && gradEven in r && gradOdd in r && linealloc in r
    {
      {this, reader, reader.curBuf, gradEven, gradOdd, linealloc}
    }

    /** The parts are where they should be, and apart. */
    ghost predicate Laid()
    {
      && qTable !in Repr()
      && (reader.curBuf as object) !in {gradEven as object, gradOdd, linealloc}
      && gradEven != gradOdd && (gradEven as object) != linealloc && (gradOdd as object) != linealloc
      && p.lineWidth > 8
      && linealloc.Length == LINES * (p.lineWidth + 2)
      && gradEven.Length == gradOdd.Length == 3 * CONTEXTS
    }

    ghost predicate Valid()
      reads reader, reader.curBuf, linealloc, gradEven, gradOdd, qTable
      ensures Valid() ==> Laid() && reader.Valid() && Healthy(p, View())
    {
      Laid() && reader.Valid() && QTableOk(p.depth, qTable) && Healthy(p, View())
    }

    ghost function View(): Window
      requires linealloc.Length == LINES * (p.lineWidth + 2)
      reads linealloc, gradEven, gradOdd
    {
      Window(LinesAt(linealloc[..], p.lineWidth + 2), gradEven[..], gradOdd[..])
    }

    /** init_fuji_block, over the table that init_fuji_compr built. */
    constructor (p: Params, qTable: array<int>, file: seq<byte>, rawOffset: nat, dsize: nat)
      requires p.lineWidth > 8 && QTableOk(p.depth, qTable)
      ensures Valid() && fresh(Repr()) && this.p == p && this.qTable == qTable
      ensures View() == InitialWindow(p)
      ensures reader.Rest() == BytesToBits(Available(file, rawOffset, dsize))
    {
      hide BitReader.Valid, BitReader.Rest, BytesToBits, Available, QTableOk, Healthy, LinesAt, InitialWindow, InitialCtx;
      hide FujiBlock.Valid;
      this.p := p;
      this.qTable := qTable;
      var even := NewContexts(p.depth);
      var odd := NewContexts(p.depth);
      var lines := NewLines(p.lineWidth);
      gradEven, gradOdd, linealloc := even, odd, lines;
      StartView(p, lines[..], even[..], odd[..]);
      reader := new BitReader(file, rawOffset, dsize);
      new;
      Started();
    }

    lemma Started()
      requires Laid() && reader.Valid() && QTableOk(p.depth, qTable) && View() == InitialWindow(p)
      ensures Valid()
    {
      hide BitReader.Valid, QTableOk, Healthy, LinesAt, InitialWindow;
    }

    /** fuji_zerobits and fuji_read_code, up to the zigzag. */
    method ReadSampleCode(c: Ctx) returns (code: nat)
      requires reader.Valid() && CtxOk(c) && DecodeCode(p.depth, c, reader.Rest()).Some?
      modifies reader, reader.curBuf
      ensures reader.Valid()
      ensures DecodeCode(p.depth, c, old(reader.Rest())) == Some(Coded(code, reader.Rest()))
    {
      hide BitReader.Valid, BitReader.Rest, FirstOne, PadTake, PadDrop, ToNat, Shl, GolombBits;
      var sample := reader.ZeroBits();
      if sample < p.depth.MaxBits() - p.depth.RawBits() - 1 {
        var decBits := BitDiff(c.value1, c.value2);
        code := reader.ReadCode(decBits);
        code := code + Shl(sample, decBits);
      } else {
        code := reader.ReadCode(p.depth.RawBits());
        code := code + 1;
      }
    }

    method PutCellAt(line: nat, cell: nat, x: int)
      requires Laid() && line < LINES && cell < p.lineWidth + 2
      modifies linealloc
      ensures View().lines == PutCell(old(View().lines), line, cell, x)
      ensures View().even == old(View().even) && View().odd == old(View().odd)
    {
      FlatPut(linealloc[..], p.lineWidth + 2, line, cell, x);
      linealloc[line * (p.lineWidth + 2) + cell] := x;
      assert linealloc[..] == old(linealloc[..])[line * (p.lineWidth + 2) + cell := x];
    }

    /** A cell read through the flat allocation. */
    lemma Reads(line: nat, cell: nat)
      requires Laid() && line < LINES && cell < p.lineWidth + 2
      ensures 0 <= line * (p.lineWidth + 2) + cell < linealloc.Length
      ensures linealloc[line * (p.lineWidth + 2) + cell] == View().lines[line][cell]
    {
      FlatGet(linealloc[..], p.lineWidth + 2, line, cell);
    }

    /** The adaptation of one context, in place. */
    method AdaptContext(odd: bool, i: nat, s: int)
      requires Laid() && i < 3 * CONTEXTS
      modifies gradEven, gradOdd
      ensures odd ==> gradEven[..] == old(gradEven[..]) && gradOdd[..] == old(gradOdd[..])[i := Adapt(old(gradOdd[i]), s)]
      ensures !odd ==> gradOdd[..] == old(gradOdd[..]) && gradEven[..] == old(gradEven[..])[i := Adapt(old(gradEven[i]), s)]
    {
      var grads := if odd then gradOdd else gradEven;
      grads[i] := grads[i].(value1 := grads[i].value1 + Abs(s));
      if grads[i].value2 == MIN_VALUE {
        grads[i] := grads[i].(value1 := grads[i].value1 / 2);
        grads[i] := grads[i].(value2 := grads[i].value2 / 2);
      }
      grads[i] := grads[i].(value2 := grads[i].value2 + 1);
    }

    method WrapAndClamp(predicted: int, grad: int, s: int) returns (x: int)
      ensures x == Reconstruct(p.depth, predicted, grad, s)
    {
      var v := predicted;
      if grad < 0 { v := v - s; } else { v := v + s; }
      if v < 0 {
        v := v + p.depth.TotalValues();
      } else if v > p.depth.QMax() {
        v := v - p.depth.TotalValues();
      }
      if v >= 0 {
        x := if v < p.depth.QMax() then v else p.depth.QMax();
      } else {
        x := 0;
      }
    }

    /** The part that fuji_decode_sample_even and _odd share: read a code, adapt the context,
        reconstruct and store. */
    method FinishSample(odd: bool, line: nat, pos: nat, table: nat, grad: int, predicted: int) returns (errcnt: nat)
      requires Valid() && EvOk(p, Sample(odd, line, pos, table))
      requires grad == Sloped(Around(p, View(), odd, line, pos), p.depth) && predicted == Predict(Around(p, View(), odd, line, pos))
      requires DecodeEv(p, View(), Sample(odd, line, pos, table), reader.Rest()).Some?
      modifies reader, reader.curBuf, gradEven, gradOdd, linealloc
      ensures Valid()
      ensures DecodeEv(p, old(View()), Sample(odd, line, pos, table), old(reader.Rest())) == Some(Outcome(View(), reader.Rest(), errcnt))
    {
      hide BitReader.Valid, BitReader.Rest, QTableOk, DecodeCode, Around, Sloped, Predict, Healthy, LinesAt, Reconstruct, Adapt, Quant;
      ghost var ev := Sample(odd, line, pos, table);
      ghost var w := View();
      ghost var bits := reader.Rest();
      var i := CONTEXTS * table + Abs(grad);
      assert i == Slot(p.depth, table, Around(p, w, odd, line, pos));
      var c := if odd then gradOdd[i] else gradEven[i];
      assert c == CtxFor(p, w, ev);
      HealthyCtx(p, w, ev);
      var code := ReadSampleCode(c);
      errcnt := if code < 0 || code >= p.depth.TotalValues() then 1 else 0;
      var s: int := if code % 2 == 1 then -1 - code / 2 else code / 2;
      AdaptContext(odd, i, s);
      var x := WrapAndClamp(predicted, grad, s);
      PutCellAt(line, pos + 1, x);
      assert View() == Store(p, w, ev, x, s);
      DecodeEvKeeps(p, w, ev, bits);
    }

    /** The four cells above sample `pos`, at the offsets of the C code. */
    method Above(line: nat, pos: nat) returns (rb: int, rc: int, rd: int, rf: int)
      requires Valid() && 2 <= line < LINES && pos < p.lineWidth
      ensures Even(rb, rc, rd, rf) == Around(p, View(), false, line, pos)
      ensures Even(rb, rc, rd, rf).InRange(p.depth.QMax())
    {
      hide BitReader.Valid, QTableOk, Healthy, LinesAt;
      var cur := line * (p.lineWidth + 2) + 1 + pos;
      Offsets(p.lineWidth, line, pos);
      Reads(line - 1, pos + 1);
      Reads(line - 1, pos);
      Reads(line - 1, pos + 2);
      Reads(line - 2, pos + 1);
      rb := linealloc[cur - 2 - p.lineWidth];
      rc := linealloc[cur - 3 - p.lineWidth];
      rd := linealloc[cur - 1 - p.lineWidth];
      rf := linealloc[cur - 4 - 2 * p.lineWidth];
      AroundInRange(p, View(), false, line, pos);
    }

    /** fuji_decode_sample_even. */
    method SampleEven(line: nat, pos: nat, table: nat) returns (errcnt: nat)
      requires Valid() && EvOk(p, Sample(false, line, pos, table))
      requires DecodeEv(p, View(), Sample(false, line, pos, table), reader.Rest()).Some?
      modifies reader, reader.curBuf, gradEven, gradOdd, linealloc
      ensures Valid()
      ensures DecodeEv(p, old(View()), Sample(false, line, pos, table), old(reader.Rest())) == Some(Outcome(View(), reader.Rest(), errcnt))
    {
      hide BitReader.Valid, BitReader.Rest, Around, Healthy, LinesAt, DecodeEv, Quant;
      var rb, rc, rd, rf := Above(line, pos);
      var grad := 9 * qTable[p.depth.QMax() + (rb - rf)] + qTable[p.depth.QMax() + (rc - rb)];
      var diffRcRb, diffRfRb, diffRdRb := Abs(rc - rb), Abs(rf - rb), Abs(rd - rb);
      var interp: int;
      if diffRcRb > diffRfRb && diffRcRb > diffRdRb {
        interp := rf + rd + 2 * rb;
      } else if diffRdRb > diffRcRb && diffRdRb > diffRfRb {
        interp := rf + rc + 2 * rb;
      } else {
        interp := rd + rc + 2 * rb;
      }
      errcnt := FinishSample(false, line, pos, table, grad, interp / 4);
    }

    /** fuji_decode_sample_odd. */
    method SampleOdd(line: nat, pos: nat, table: nat) returns (errcnt: nat)
      requires Valid() && EvOk(p, Sample(true, line, pos, table))
      requires DecodeEv(p, View(), Sample(true, line, pos, table), reader.Rest()).Some?
      modifies reader, reader.curBuf, gradEven, gradOdd, linealloc
      ensures Valid()
      ensures DecodeEv(p, old(View()), Sample(true, line, pos, table), old(reader.Rest())) == Some(Outcome(View(), reader.Rest(), errcnt))
    {
      hide BitReader.Valid, BitReader.Rest, Healthy, LinesAt, DecodeEv, Quant;
      var cur := line * (p.lineWidth + 2) + 1 + pos;
      Offsets(p.lineWidth, line, pos);
      Reads(line, pos);
      Reads(line, pos + 2);
      AroundInRange(p, View(), true, line, pos);
      var ra := linealloc[cur - 1];
      var rb, rc, rd, rf := Above(line, pos);
      var rg := linealloc[cur + 1];
      var grad := 9 * qTable[p.depth.QMax() + (rb - rc)] + qTable[p.depth.QMax() + (rc - ra)];
      var interp: int;
      if (rb > rc && rb > rd) || (rb < rc && rb < rd) {
        interp := (rg + ra + 2 * rb) / 4;
      } else {
        interp := (ra + rg) / 2;
      }
      errcnt := FinishSample(true, line, pos, table, grad, interp);
    }

    /** fuji_decode_interpolation_even. */
    method InterpolationEven(line: nat, pos: nat)
      requires Valid() && 2 <= line < LINES && pos < p.lineWidth
      modifies linealloc
      ensures Valid() && View() == Filled(p, old(View()), line, pos) && reader.Rest() == old(reader.Rest())
    {
      hide BitReader.Valid, BitReader.Rest, QTableOk, Around, Healthy, LinesAt;
      var rb, rc, rd, rf := Above(line, pos);
      var diffRcRb, diffRfRb, diffRdRb := Abs(rc - rb), Abs(rf - rb), Abs(rd - rb);
      var x: int;
      if diffRcRb > diffRfRb && diffRcRb > diffRdRb {
        x := (rf + rd + 2 * rb) / 4;
      } else if diffRdRb > diffRcRb && diffRdRb > diffRfRb {
        x := (rf + rc + 2 * rb) / 4;
      } else {
        x := (rd + rc + 2 * rb) / 4;
      }
      FillKeeps(p, View(), line, pos);
      ghost var filled := Filled(p, View(), line, pos);
      PutCellAt(line, pos + 1, x);
      assert View() == filled;
    }

    /** fuji_extend_generic. */
    method ExtendGeneric(start: nat, end: nat)
      requires Valid() && 1 <= start <= end < LINES
      modifies linealloc
      ensures Valid() && View() == old(View()).(lines := Extended(p, old(View()).lines, start, end))
      ensures reader.Rest() == old(reader.Rest())
    {
      hide BitReader.Valid, BitReader.Rest, QTableOk, Healthy, LinesAt;
      ghost var lines0 := View().lines;
      var w := p.lineWidth + 2;
      var i := start;
      while i <= end
        invariant start <= i <= end + 1
        invariant View().even == old(View().even) && View().odd == old(View().odd)
        invariant Extended(p, View().lines, i, end) == Extended(p, lines0, start, end)
      {
        Reads(i - 1, 1);
        PutCellAt(i, 0, linealloc[(i - 1) * w + 1]);
        Reads(i - 1, p.lineWidth);
        PutCellAt(i, p.lineWidth + 1, linealloc[(i - 1) * w + p.lineWidth]);
        i := i + 1;
      }
      ExtendAfter(p, old(View()), start, end);
    }

    /** An even position of a line: decoded or interpolated, as the schedule says. */
    method EvenEvent(k: nat, line: nat, pos: nat) returns (errcnt: nat)
      requires Valid() && k < 6 && EvOk(p, EvenEv(p, k, line, pos))
      requires DecodeEv(p, View(), EvenEv(p, k, line, pos), reader.Rest()).Some?
      modifies reader, reader.curBuf, gradEven, gradOdd, linealloc
      ensures Valid()
      ensures DecodeEv(p, old(View()), EvenEv(p, k, line, pos), old(reader.Rest())) == Some(Outcome(View(), reader.Rest(), errcnt))
    {
      hide BitReader.Valid, BitReader.Rest, Healthy, LinesAt, QTableOk, IsCoded;
      if IsCoded(p, line, pos) {
        errcnt := SampleEven(line, pos, k % 3);
      } else {
        InterpolationEven(line, pos);
        errcnt := 0;
      }
    }

    /** The even half of a turn: one position of each of the pass's two lines. */
    method EvenPair(k: nat, e: nat) returns (errcnt: nat)
      requires Valid() && k < 6 && e < p.lineWidth && DecodeAll(p, View(), EvenPart(p, k, e), reader.Rest()).Some?
      modifies reader, reader.curBuf, gradEven, gradOdd, linealloc
      ensures Valid()
      ensures DecodeAll(p, old(View()), EvenPart(p, k, e), old(reader.Rest())) == Some(Outcome(View(), reader.Rest(), errcnt))
    {
      hide BitReader.Valid, BitReader.Rest, Healthy, LinesAt, QTableOk, DecodeAll, DecodeEv, EvenEv, LineA, LineB, View;
      DecodeTwo(p, View(), EvenEv(p, k, LineA(k), e), EvenEv(p, k, LineB(k), e), reader.Rest());
      var a := EvenEvent(k, LineA(k), e);
      var b := EvenEvent(k, LineB(k), e);
      errcnt := a + b;
    }

    /** The odd half. */
    method OddPair(k: nat, o: nat) returns (errcnt: nat)
      requires Valid() && k < 6 && o < p.lineWidth
      requires DecodeAll(p, View(), [Sample(true, LineA(k), o, k % 3), Sample(true, LineB(k), o, k % 3)], reader.Rest()).Some?
      modifies reader, reader.curBuf, gradEven, gradOdd, linealloc
      ensures Valid()
      ensures DecodeAll(p, old(View()), [Sample(true, LineA(k), o, k % 3), Sample(true, LineB(k), o, k % 3)], old(reader.Rest()))
              == Some(Outcome(View(), reader.Rest(), errcnt))
    {
      hide BitReader.Valid, BitReader.Rest, Healthy, LinesAt, QTableOk, DecodeAll, DecodeEv, LineA, LineB, View;
      DecodeTwo(p, View(), Sample(true, LineA(k), o, k % 3), Sample(true, LineB(k), o, k % 3), reader.Rest());
      var a := SampleOdd(LineA(k), o, k % 3);
      var b := SampleOdd(LineB(k), o, k % 3);
      errcnt := a + b;
    }

    /** One of the six loops of the block decoders. */
    method DecodePass(k: nat) returns (errcnt: nat)
      requires Valid() && k < 6 && DecodeAll(p, View(), PassFrom(p, k, 0, 1), reader.Rest()).Some?
      modifies reader, reader.curBuf, gradEven, gradOdd, linealloc
      ensures Valid()
      ensures DecodeAll(p, old(View()), PassFrom(p, k, 0, 1), old(reader.Rest())) == Some(Outcome(View(), reader.Rest(), errcnt))
    {
      hide BitReader.Valid, BitReader.Rest, Healthy, LinesAt, QTableOk, DecodeAll, Reached, PassFrom, LineA, LineB, View;
      var even, odd := 0, 1;
      errcnt := 0;
      ReachedStart(p);
      ghost var all := DecodeAll(p, View(), PassFrom(p, k, 0, 1), reader.Rest());
      while even < p.lineWidth || odd < p.lineWidth
        invariant Valid() && Reached(p, even, odd)
        invariant all == AddErrors(errcnt, DecodeAll(p, View(), PassFrom(p, k, even, odd), reader.Rest()))
        decreases 2 * p.lineWidth + 2 - (even + odd)
      {
        Turn(p, k, even, odd);
        ghost var e := if even < p.lineWidth then even + 2 else even;
        ghost var o := if e > 8 then odd + 2 else odd;
        DecodeThree(p, View(), EvenPart(p, k, even), OddPart(p, k, e, odd), PassFrom(p, k, e, o), reader.Rest());
        if even < p.lineWidth {
          var err := EvenPair(k, even);
          errcnt := errcnt + err;
          even := even + 2;
        }
        if even > 8 {
          var err := OddPair(k, odd);
          errcnt := errcnt + err;
          odd := odd + 2;
        }
      }
      PassOver(p, k, even, odd, View(), reader.Rest());
    }

    /** The extensions at the end of a pass. */
    method EndPass(k: nat)
      requires Valid() && k < 6
      modifies linealloc
      ensures Valid() && reader.Rest() == old(reader.Rest())
      ensures DecodeAll(p, old(View()), PassEnd(p, k), reader.Rest()) == Some(Outcome(View(), reader.Rest(), 0))
    {
      hide BitReader.Valid, BitReader.Rest, Healthy, LinesAt, QTableOk, View, Extended;
      ExtendTwo(p, View(), PassEnd(p, k)[0], PassEnd(p, k)[1], reader.Rest());
      if k % 2 == 0 {
        ExtendGeneric(2, 4);
        ExtendGeneric(7, 12);
      } else {
        ExtendGeneric(7, 12);
        ExtendGeneric(15, 17);
      }
    }

    /** xtrans_decode_block or fuji_bayer_decode_block. */
    method DecodeBlock() returns (errcnt: nat)
      requires Valid() && DecodeGroup(p, View(), reader.Rest()).Some?
      modifies reader, reader.curBuf, gradEven, gradOdd, linealloc
      ensures Valid()
      ensures DecodeGroup(p, old(View()), old(reader.Rest())) == Some(Outcome(View(), reader.Rest(), errcnt))
    {
      hide BitReader.Valid, BitReader.Rest, Healthy, LinesAt, QTableOk, DecodeAll, GroupFrom, PassFrom, PassEnd, View, SnapshotOk;
      errcnt := 0;
      ghost var all := DecodeGroup(p, View(), reader.Rest());
      var k := FIRST_PASS;
      while k < 6
        invariant Valid() && k <= 6
        invariant all == AddErrors(errcnt, DecodeAll(p, View(), GroupFrom(p, k), reader.Rest()))
      {
        ReachedStart(p);
        GroupUnfold(p, k);
        DecodeThree(p, View(), PassFrom(p, k, 0, 1), PassEnd(p, k), GroupFrom(p, k + 1), reader.Rest());
        var err := DecodePass(k);
        EndPass(k);
        errcnt := errcnt + err;
        k := k + 1;
      }
      GroupOver(p, View(), reader.Rest());
    }

    // ---------------------------------------------------------------- between groups

    /** memcpy of one line buffer over another. */
    method CopyLine(dst: nat, src: nat)
      requires Laid() && dst < LINES && src < LINES && dst != src
      modifies linealloc
      ensures View().lines == old(View().lines)[dst := old(View().lines)[src]]
      ensures View().even == old(View().even) && View().odd == old(View().odd)
    {
      hide LinesAt, PutCell, PartCopied;
      var w := p.lineWidth + 2;
      ghost var lines0 := View().lines;
      var j := 0;
      CopySteps(lines0, dst, src, j);
      while j < w
        invariant 0 <= j <= w
        invariant View().even == old(View().even) && View().odd == old(View().odd)
        invariant View().lines == PartCopied(lines0, dst, src, j)
      {
        Reads(src, j);
        CopySteps(lines0, dst, src, j);
        PutCellAt(dst, j, linealloc[src * w + j]);
        j := j + 1;
      }
      CopySteps(lines0, dst, src, j);
    }

    /** memset of `count` line buffers. */
    method ClearLines(first: nat, count: nat)
      requires Laid() && first + count <= LINES
      modifies linealloc
      ensures View().lines == Cleared(p, old(View().lines), first, count)
      ensures View().even == old(View().even) && View().odd == old(View().odd)
    {
      var w := p.lineWidth + 2;
      if count > 0 { RowsApart(w, first + count - 1, w - 1, first, 0); RowsApart(w, first, 0, first, 0); }
      assert first * w <= (first + count) * w <= linealloc.Length;
      forall i | first * w <= i < (first + count) * w {
        linealloc[i] := 0;
      }
      FlatClear(old(linealloc[..]), linealloc[..], w, p, first, count);
    }

    /** The six memcpy calls of fuji_decode_strip. */
    method CarryLines()
      requires Valid()
      modifies linealloc
      ensures View() == old(View()).(lines := Carried(old(View()).lines)) && Laid()
    {
      hide BitReader.Valid, LinesAt, QTableOk, Healthy;
      CopyLine(0, 3);
      CopyLine(1, 4);
      CopyLine(5, 11);
      CopyLine(6, 12);
      CopyLine(13, 16);
      CopyLine(14, 17);
    }

    /** One row of ztable: clear the lines and set the padding of the first of them. */
    method FreshLines(first: nat, count: nat)
      requires Laid() && 1 <= first && 0 < count && first + count <= LINES
      modifies linealloc
      ensures View().lines == Freshened(p, old(View().lines), first, count)
      ensures View().even == old(View().even) && View().odd == old(View().odd)
    {
      hide LinesAt, Cleared, Freshened, PutCell;
      var w := p.lineWidth + 2;
      FreshSteps(p, View().lines, first, count);
      ClearLines(first, count);
      Reads(first - 1, 1);
      PutCellAt(first, 0, linealloc[(first - 1) * w + 1]);
      Reads(first - 1, p.lineWidth);
      PutCellAt(first, p.lineWidth + 1, linealloc[(first - 1) * w + p.lineWidth]);
    }

    /** The three memset calls and the paddings after them: with the carried lines in place, the
        window is the turned one. */
    method ClearForNext(ghost w: Window)
      requires Laid() && reader.Valid() && QTableOk(p.depth, qTable) && Healthy(p, w) && View() == w.(lines := Carried(w.lines))
      modifies linealloc
      ensures Valid() && View() == Turned(p, w)
    {
      hide BitReader.Valid, LinesAt, QTableOk, Healthy, Freshened, Carried;
      ThreeFresh(p, w.lines);
      FreshLines(2, 3);
      FreshLines(7, 6);
      FreshLines(15, 3);
      assert View() == Turned(p, w);
    }
  }

  /** The first `j` cells of line `src` copied over line `dst`. */
  function PartCopied(lines: seq<seq<int>>, dst: nat, src: nat, j: nat): (r: seq<seq<int>>)
    requires |lines| == LINES && dst < LINES && src < LINES && |lines[dst]| == |lines[src]| && j <= |lines[src]|
    ensures |r| == LINES && |r[dst]| == |lines[src]|
  {
    lines[dst := lines[src][..j] + lines[dst][j..]]
  }

  lemma CopySteps(lines: seq<seq<int>>, dst: nat, src: nat, j: nat)
    requires |lines| == LINES && dst < LINES && src < LINES && dst != src && |lines[dst]| == |lines[src]| && j <= |lines[src]|
    ensures PartCopied(lines, dst, src, 0) == lines
    ensures PartCopied(lines, dst, src, |lines[src]|) == lines[dst := lines[src]]
    ensures PartCopied(lines, dst, src, j)[src] == lines[src]
    ensures j < |lines[src]| ==> PutCell(PartCopied(lines, dst, src, j), dst, j, lines[src][j]) == PartCopied(lines, dst, src, j + 1)
  {
    assert lines[src][..0] + lines[dst][0..] == lines[dst];
    assert lines[src][..|lines[src]|] + lines[dst][|lines[src]|..] == lines[src];
    if j < |lines[src]| {
      assert (lines[src][..j] + lines[dst][j..])[j := lines[src][j]] == lines[src][..j + 1] + lines[dst][j + 1..];
    }
  }

  function Carried(lines: seq<seq<int>>): (r: seq<seq<int>>)
    requires |lines| == LINES
    ensures |r| == LINES
  {
    [lines[3], lines[4]] + lines[2..5] + [lines[11], lines[12]] + lines[7..13] + [lines[16], lines[17]] + lines[15..]
  }

  function Cleared(p: Params, lines: seq<seq<int>>, first: nat, count: nat): seq<seq<int>>
    requires |lines| == LINES
  {
    seq(LINES, l requires 0 <= l < LINES => if first <= l < first + count then seq(p.lineWidth + 2, _ => 0) else lines[l])
  }

  function Freshened(p: Params, lines: seq<seq<int>>, first: nat, count: nat): (r: seq<seq<int>>)
    requires |lines| == LINES && 1 <= first && 0 < count && first + count <= LINES && |lines[first - 1]| == p.lineWidth + 2
    ensures |r| == LINES
    ensures forall l :: 0 <= l < LINES ==>
              r[l] == if l == first then FreshLine(p, lines[first - 1])
                      else if first < l < first + count then seq(p.lineWidth + 2, _ => 0) else lines[l]
  {
    Cleared(p, lines, first, count)[first := FreshLine(p, lines[first - 1])]
  }

  lemma FreshSteps(p: Params, lines: seq<seq<int>>, first: nat, count: nat)
    requires |lines| == LINES && 1 <= first && 0 < count && first + count <= LINES && |lines[first - 1]| == p.lineWidth + 2
    ensures var a := Cleared(p, lines, first, count);
            && |a| == LINES && |a[first]| == p.lineWidth + 2 && a[first - 1] == lines[first - 1]
            && PutCell(PutCell(a, first, 0, lines[first - 1][1]), first, p.lineWidth + 1, lines[first - 1][p.lineWidth]) ==
               Freshened(p, lines, first, count)
  {
    var before := lines[first - 1];
    var w := p.lineWidth + 2;
    assert seq(w, _ => 0)[0 := before[1]][p.lineWidth + 1 := before[p.lineWidth]] == FreshLine(p, before);
  }

  lemma ThreeFresh(p: Params, lines: seq<seq<int>>)
    requires |lines| == LINES && forall l :: 0 <= l < LINES ==> |lines[l]| == p.lineWidth + 2
    ensures var a := Freshened(p, Carried(lines), 2, 3);
            var b := Freshened(p, a, 7, 6);
            Freshened(p, b, 15, 3) == Rotated(p, lines)
  {
    hide FreshLine;
    var r := Freshened(p, Freshened(p, Freshened(p, Carried(lines), 2, 3), 7, 6), 15, 3);
    forall l | 0 <= l < LINES ensures r[l] == Rotated(p, lines)[l] {
    }
  }

  lemma InBlock(w: nat, first: nat, count: nat, l: nat, j: nat)
    requires j < w
    ensures first * w <= l * w + j < (first + count) * w <==> first <= l < first + count
  {
    if l < first { MulStep(l, first, w); } else if l > first { MulStep(first, l, w); }
    if l < first + count { MulStep(l, first + count, w); } else if l > first + count { MulStep(first + count, l, w); }
  }

  lemma ClearCell(a: seq<int>, b: seq<int>, w: nat, p: Params, first: nat, count: nat, l: nat, j: nat)
    requires w == p.lineWidth + 2 && |a| == |b| == LINES * w && l < LINES && j < w && first + count <= LINES
    requires forall i :: 0 <= i < |a| ==> b[i] == if first * w <= i < (first + count) * w then 0 else a[i]
    ensures LineAt(b, w, l)[j] == Cleared(p, LinesAt(a, w), first, count)[l][j]
  {
    InBlock(w, first, count, l, j);
    LineCell(a, w, l, j);
    LineCell(b, w, l, j);
    hide LineAt;
  }

  lemma FlatClear(a: seq<int>, b: seq<int>, w: nat, p: Params, first: nat, count: nat)
    requires w == p.lineWidth + 2 && |a| == |b| == LINES * w
    requires first + count <= LINES
    requires forall i :: 0 <= i < |a| ==> b[i] == if first * w <= i < (first + count) * w then 0 else a[i]
    ensures LinesAt(b, w) == Cleared(p, LinesAt(a, w), first, count)
  {
    hide LineAt;
    forall l | 0 <= l < LINES
      ensures LineAt(b, w, l) == Cleared(p, LinesAt(a, w), first, count)[l]
    {
      forall j | 0 <= j < w
        ensures LineAt(b, w, l)[j] == Cleared(p, LinesAt(a, w), first, count)[l][j]
      {
        ClearCell(a, b, w, p, first, count, l, j);
      }
    }
  }

  function AddErrors(n: nat, o: Option<Outcome>): Option<Outcome> {
    match o
    case None => None
    case Some(r) => Some(Outcome(r.window, r.rest, n + r.errors))
  }

  lemma DecodeTwo(p: Params, w: Window, a: Ev, b: Ev, bits: seq<bool>)
    requires Healthy(p, w) && EvOk(p, a) && EvOk(p, b) && DecodeAll(p, w, [a, b], bits).Some?
    ensures DecodeEv(p, w, a, bits).Some?
    ensures var o := DecodeEv(p, w, a, bits).value;
            && Healthy(p, o.window) && DecodeEv(p, o.window, b, o.rest).Some?
            && DecodeAll(p, w, [a, b], bits) == AddErrors(o.errors, DecodeEv(p, o.window, b, o.rest))
  {
    hide Healthy, DecodeEv;
    var two := [a, b];
    assert two[1..] == [b] && two[1..][1..] == [];
    DecodeEvKeeps(p, w, a, bits);
    var o := DecodeEv(p, w, a, bits).value;
    assert DecodeAll(p, o.window, two[1..], o.rest).Some?;
    DecodeEvKeeps(p, o.window, b, o.rest);
  }

  lemma DecodeNone(p: Params, w: Window, bits: seq<bool>)
    requires Healthy(p, w)
    ensures DecodeAll(p, w, [], bits) == Some(Outcome(w, bits, 0))
  {
  }

  /** Three lists in a row. */
  lemma DecodeThree(p: Params, w: Window, a: seq<Ev>, b: seq<Ev>, c: seq<Ev>, bits: seq<bool>)
    requires Healthy(p, w) && EvsOk(p, a) && EvsOk(p, b) && EvsOk(p, c) && DecodeAll(p, w, a + b + c, bits).Some?
    ensures DecodeAll(p, w, a, bits).Some?
    ensures var o := DecodeAll(p, w, a, bits).value;
            && DecodeAll(p, o.window, b, o.rest).Some?
            && var o' := DecodeAll(p, o.window, b, o.rest).value;
            && DecodeAll(p, o'.window, c, o'.rest).Some?
            && DecodeAll(p, w, a + b + c, bits) == AddErrors(o.errors + o'.errors, DecodeAll(p, o'.window, c, o'.rest))
    ensures a == [] ==> DecodeAll(p, w, a, bits) == Some(Outcome(w, bits, 0))
    ensures b == [] ==> var o := DecodeAll(p, w, a, bits).value; DecodeAll(p, o.window, b, o.rest) == Some(Outcome(o.window, o.rest, 0))
  {
    hide Healthy, DecodeAll, EvsOk;
    EvsConcat(p, a, b);
    EvsConcat(p, a + b, c);
    DecodeConcat(p, w, a + b, c, bits);
    DecodeConcat(p, w, a, b, bits);
    DecodeNone(p, w, bits);
    var o := DecodeAll(p, w, a, bits).value;
    DecodeNone(p, o.window, o.rest);
  }

  lemma ExtendTwo(p: Params, w: Window, a: Ev, b: Ev, bits: seq<bool>)
    requires Healthy(p, w) && EvOk(p, a) && EvOk(p, b) && a.Extend? && b.Extend?
    ensures var w1 := w.(lines := Extended(p, w.lines, a.first, a.last));
            && Healthy(p, w1)
            && DecodeAll(p, w, [a, b], bits) == Some(Outcome(w1.(lines := Extended(p, w1.lines, b.first, b.last)), bits, 0))
  {
    hide Healthy, Extended;
    var two := [a, b];
    assert two[1..] == [b] && two[1..][1..] == [];
    ExtendAfter(p, w, a.first, a.last);
    var w1 := w.(lines := Extended(p, w.lines, a.first, a.last));
    ExtendAfter(p, w1, b.first, b.last);
    assert DecodeAll(p, w1, two[1..], bits) == Some(Outcome(w1.(lines := Extended(p, w1.lines, b.first, b.last)), bits, 0));
  }

  lemma GroupUnfold(p: Params, k: nat)
    requires p.lineWidth > 8 && k < 6 && Reached(p, 0, 1)
    ensures GroupFrom(p, k) == PassFrom(p, k, 0, 1) + PassEnd(p, k) + GroupFrom(p, k + 1)
  {
  }

  lemma GroupOver(p: Params, w: Window, bits: seq<bool>)
    requires p.lineWidth > 8 && Healthy(p, w)
    ensures DecodeAll(p, w, GroupFrom(p, 6), bits) == Some(Outcome(w, bits, 0))
  {
  }

  lemma ReachedStart(p: Params)
    requires p.lineWidth > 8
    ensures Reached(p, 0, 1)
  {
  }

  lemma PassOver(p: Params, k: nat, e: nat, o: nat, w: Window, bits: seq<bool>)
    requires p.lineWidth > 8 && k < 6 && Reached(p, e, o) && e >= p.lineWidth && o >= p.lineWidth && Healthy(p, w)
    ensures DecodeAll(p, w, PassFrom(p, k, e, o), bits) == Some(Outcome(w, bits, 0))
  {
  }

  lemma ExtendAfter(p: Params, w: Window, first: nat, last: nat)
    requires Healthy(p, w) && 1 <= first <= last < LINES
    ensures Healthy(p, w.(lines := Extended(p, w.lines, first, last)))
  {
    ExtendKeeps(p, w.lines, first, last);
  }

  lemma HealthyCtx(p: Params, w: Window, ev: Ev)
    requires Healthy(p, w) && EvOk(p, ev) && ev.Sample?
    ensures CtxOk(CtxFor(p, w, ev))
  {
  }

  lemma StartView(p: Params, lines: seq<int>, even: seq<Ctx>, odd: seq<Ctx>)
    requires |lines| == LINES * (p.lineWidth + 2) && |even| == |odd| == 3 * CONTEXTS
    requires forall i :: 0 <= i < |lines| ==> lines[i] == 0
    requires forall i :: 0 <= i < |even| ==> even[i] == InitialCtx(p.depth) && odd[i] == InitialCtx(p.depth)
    ensures Window(LinesAt(lines, p.lineWidth + 2), even, odd) == InitialWindow(p)
  {
    var w := p.lineWidth + 2;
    forall l | 0 <= l < LINES ensures LineAt(lines, w, l) == seq(w, _ => 0) {
      MulStep(l, LINES, w);
    }
    assert even == InitialWindow(p).even && odd == InitialWindow(p).odd;
    assert LinesAt(lines, w) == InitialWindow(p).lines;
  }
}
