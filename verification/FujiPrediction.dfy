/** What a Fuji sample is predicted from, which context codes it, how its code looks on the wire and
    where it is stored, said of cells, bits and runs of samples. */
module FujiPrediction {
  import opened Bits
  import opened FujiCodec
  import opened FujiWindow
  import opened FujiSchedule
  import opened FujiPlanes

  // ---------------------------------------------------------------- prediction

  /** `p` is the prediction of an odd sample: the mean of its two sides where the sample above is
      between its neighbours; where that is a peak or a dip it counts as much as both sides. */
  predicate OddMean(ra: int, rb: int, rc: int, rd: int, rg: int, p: int) {
    if rc <= rb <= rd || rd <= rb <= rc then 2 * p <= ra + rg < 2 * p + 2
    else 4 * p <= ra + rg + 2 * rb < 4 * p + 4
  }

  predicate Farther(rb: int, x: int, y: int) { Abs(x - rb) > Abs(y - rb) }

  /** `p` is the prediction of an even sample: the sample above counts twice, two of its three
      neighbours once, and the one in its line that is farther from it than both others not at
      all. */
  predicate EvenMean(rb: int, rc: int, rd: int, rf: int, p: int) {
    if Farther(rb, rc, rf) && Farther(rb, rc, rd) then 4 * p <= rf + rd + 2 * rb < 4 * p + 4
    else if Farther(rb, rd, rf) && Farther(rb, rd, rc) then 4 * p <= rf + rc + 2 * rb < 4 * p + 4
    else 4 * p <= rc + rd + 2 * rb < 4 * p + 4
  }

  lemma PredictOdd(ra: int, rb: int, rc: int, rd: int, rg: int)
    ensures OddMean(ra, rb, rc, rd, rg, Predict(Odd(ra, rb, rc, rd, rg)))
  {
  }

  lemma PredictEven(rb: int, rc: int, rd: int, rf: int)
    ensures EvenMean(rb, rc, rd, rf, Predict(Even(rb, rc, rd, rf)))
  {
  }

  /** Between its neighbours the line above does not matter, and equal sides are kept. */
  lemma OddLevel(ra: int, rb: int, rc: int, rd: int, rg: int, rb': int, rc': int, rd': int)
    requires (rc <= rb <= rd || rd <= rb <= rc) && (rc' <= rb' <= rd' || rd' <= rb' <= rc')
    ensures Predict(Odd(ra, rb, rc, rd, rg)) == Predict(Odd(ra, rb', rc', rd', rg))
    ensures ra == rg ==> Predict(Odd(ra, rb, rc, rd, rg)) == ra
  {
  }

  /** At a peak or a dip equal sides are moved half way to it. */
  lemma OddPeak(ra: int, rb: int, rc: int, rd: int)
    requires (rb > rc && rb > rd) || (rb < rc && rb < rd)
    ensures var p := Predict(Odd(ra, rb, rc, rd, ra)); 2 * p <= ra + rb <= 2 * p + 1
  {
  }

  /** The neighbour farther from the sample above than both others has no influence. */
  lemma EvenIgnores(rb: int, rc: int, rd: int, rf: int, far: int)
    ensures Farther(rb, rc, rf) && Farther(rb, rc, rd) && Farther(rb, far, rf) && Farther(rb, far, rd) ==>
              Predict(Even(rb, far, rd, rf)) == Predict(Even(rb, rc, rd, rf))
    ensures Farther(rb, rd, rf) && Farther(rb, rd, rc) && Farther(rb, far, rf) && Farther(rb, far, rc) ==>
              Predict(Even(rb, rc, far, rf)) == Predict(Even(rb, rc, rd, rf))
    ensures Farther(rb, rf, rc) && Farther(rb, rf, rd) && Farther(rb, far, rc) && Farther(rb, far, rd) ==>
              Predict(Even(rb, rc, rd, far)) == Predict(Even(rb, rc, rd, rf))
  {
    hide Predict, Abs;
    EvenCases(rb, rc, rd, rf);
    EvenCases(rb, far, rd, rf);
    EvenCases(rb, rc, far, rf);
    EvenCases(rb, rc, rd, far);
  }

  lemma EvenCases(rb: int, rc: int, rd: int, rf: int)
    ensures Predict(Even(rb, rc, rd, rf)) ==
            (2 * rb + if Farther(rb, rc, rf) && Farther(rb, rc, rd) then rf + rd
                      else if Farther(rb, rd, rf) && Farther(rb, rd, rc) then rf + rc else rc + rd) / 4
  {
    hide Abs;
  }

  /** The residual is taken off rather than added where the first change that is not 0 goes down. */
  predicate Down(first: int, second: int) { first < 0 || (first == 0 && second < 0) }

  lemma SlopedSign(h: Hood, d: Depth)
    ensures h.Even? ==> (Sloped(h, d) < 0 <==> Down(h.rb - h.rf, h.rc - h.rb))
    ensures h.Odd? ==> (Sloped(h, d) < 0 <==> Down(h.rb - h.rc, h.rc - h.ra))
  {
  }

  lemma CtxUsable(p: Params, w: Window, ev: Ev)
    requires Healthy(p, w) && EvOk(p, ev) && ev.Sample?
    ensures CtxOk(CtxFor(p, w, ev))
  {
    hide Slot;
  }

  /** What fuji_decode_sample_odd stores, cell by cell: a prediction that is such a mean, and the
      residual added or taken off, modulo the number of values. */
  lemma OddStored(p: Params, w: Window, line: nat, pos: nat, table: nat, bits: seq<bool>) returns (pred: int, code: nat)
    requires Healthy(p, w) && EvOk(p, Sample(true, line, pos, table))
    requires DecodeEv(p, w, Sample(true, line, pos, table), bits).Some?
    requires DecodeEv(p, w, Sample(true, line, pos, table), bits).value.errors == 0
    ensures DecodeCode(p.depth, CtxFor(p, w, Sample(true, line, pos, table)), bits).value.code == code < p.depth.TotalValues()
    ensures var above, current := w.lines[line - 1], w.lines[line];
            && OddMean(current[pos], above[pos + 1], above[pos], above[pos + 2], current[pos + 2], pred)
            && 0 <= pred < p.depth.TotalValues()
            && DecodeEv(p, w, Sample(true, line, pos, table), bits).value.window.lines[line][pos + 1] ==
               (if Down(above[pos + 1] - above[pos], above[pos] - current[pos]) then pred - Signed(code) else pred + Signed(code))
               % p.depth.TotalValues()
  {
    hide DecodeCode, Signed, Sloped, Reconstruct, OddMean, Adapt;
    var ev := Sample(true, line, pos, table);
    var h := Around(p, w, true, line, pos);
    AroundInRange(p, w, true, line, pos);
    PredictInRange(h, p.depth.QMax());
    PredictOdd(h.ra, h.rb, h.rc, h.rd, h.rg);
    SlopedSign(h, p.depth);
    hide Predict;
    CtxUsable(p, w, ev);
    pred, code := Predict(h), DecodeCode(p.depth, CtxFor(p, w, ev), bits).value.code;
    CodeIsSample(p.depth, pred, Sloped(h, p.depth), code);
  }

  /** And fuji_decode_sample_even. */
  lemma EvenStored(p: Params, w: Window, line: nat, pos: nat, table: nat, bits: seq<bool>) returns (pred: int, code: nat)
    requires Healthy(p, w) && EvOk(p, Sample(false, line, pos, table))
    requires DecodeEv(p, w, Sample(false, line, pos, table), bits).Some?
    requires DecodeEv(p, w, Sample(false, line, pos, table), bits).value.errors == 0
    ensures DecodeCode(p.depth, CtxFor(p, w, Sample(false, line, pos, table)), bits).value.code == code < p.depth.TotalValues()
    ensures var above, higher := w.lines[line - 1], w.lines[line - 2];
            && EvenMean(above[pos + 1], above[pos], above[pos + 2], higher[pos + 1], pred)
            && 0 <= pred < p.depth.TotalValues()
            && DecodeEv(p, w, Sample(false, line, pos, table), bits).value.window.lines[line][pos + 1] ==
               (if Down(above[pos + 1] - higher[pos + 1], above[pos] - above[pos + 1]) then pred - Signed(code) else pred + Signed(code))
               % p.depth.TotalValues()
  {
    hide DecodeCode, Signed, Sloped, Reconstruct, EvenMean, Adapt;
    var ev := Sample(false, line, pos, table);
    var h := Around(p, w, false, line, pos);
    AroundInRange(p, w, false, line, pos);
    PredictInRange(h, p.depth.QMax());
    PredictEven(h.rb, h.rc, h.rd, h.rf);
    SlopedSign(h, p.depth);
    hide Predict;
    CtxUsable(p, w, ev);
    pred, code := Predict(h), DecodeCode(p.depth, CtxFor(p, w, ev), bits).value.code;
    CodeIsSample(p.depth, pred, Sloped(h, p.depth), code);
  }

  /** An error is a code that is not one of the values, and every such code is one. */
  lemma ErrorIs(p: Params, w: Window, ev: Ev, bits: seq<bool>)
    requires Healthy(p, w) && EvOk(p, ev) && DecodeEv(p, w, ev, bits).Some?
    ensures DecodeEv(p, w, ev, bits).value.errors == 0 <==>
            (ev.Sample? ==> CtxOk(CtxFor(p, w, ev)) && DecodeCode(p.depth, CtxFor(p, w, ev), bits).value.code < p.depth.TotalValues())
  {
    hide DecodeCode, Slot, Around;
    if ev.Sample? { CtxUsable(p, w, ev); }
  }

  /** fuji_decode_interpolation_even stores the even prediction itself. */
  lemma FillStored(p: Params, w: Window, line: nat, pos: nat, bits: seq<bool>)
    requires Healthy(p, w) && EvOk(p, Fill(line, pos))
    ensures var above, higher, o := w.lines[line - 1], w.lines[line - 2], DecodeEv(p, w, Fill(line, pos), bits);
            && o.Some? && o.value.rest == bits
            && EvenMean(above[pos + 1], above[pos], above[pos + 2], higher[pos + 1], o.value.window.lines[line][pos + 1])
  {
    hide Predict, EvenMean;
    var h := Around(p, w, false, line, pos);
    PredictEven(h.rb, h.rc, h.rd, h.rf);
  }

  /** A sample of a plane, or what stands for it beside the ends of a row: the end of the row
      before. */
  function Beside(plane: seq<seq<int>>, row: nat, pos: int, w: nat): int
    requires 0 < row < |plane| && |plane[row]| == |plane[row - 1]| == w > 0 && -1 <= pos <= w
  {
    if pos < 0 then plane[row - 1][0] else if pos < w then plane[row][pos] else plane[row - 1][w - 1]
  }

  /** The neighbours are those of the colour's own plane: the sample above, the ones beside that,
      the one two rows up, and the ones on both sides. */
  lemma NeighboursAre(p: Params, n: nat, planes: Planes, g: nat, line: nat, pos: nat)
    requires PlanesOk(p, n, planes) && g < n && 2 <= line < LINES && Rank(line) >= 0 && RowOf(g, line) >= 2 && pos < p.lineWidth
    ensures var plane, row, w := planes[Colour(line)], RowOf(g, line), p.lineWidth;
            && row < |plane| && |plane[row]| == |plane[row - 1]| == |plane[row - 2]| == w
            && PlaneHood(p, n, planes, g, false, line, pos) ==
               Even(plane[row - 1][pos], Beside(plane, row - 1, pos - 1, w), Beside(plane, row - 1, pos + 1, w), plane[row - 2][pos])
            && PlaneHood(p, n, planes, g, true, line, pos) ==
               Odd(Beside(plane, row, pos - 1, w), plane[row - 1][pos], Beside(plane, row - 1, pos - 1, w), Beside(plane, row - 1, pos + 1, w),
                   Beside(plane, row, pos + 1, w))
  {
    RowInPlane(p, n, planes, g, line);
    PassLines(0, line);
    var row, c := RowOf(g, line), Colour(line);
    assert RowOf(g, line - 1) == row - 1 && RowOf(g, line - 2) == row - 2;
    var plane, w := planes[c], p.lineWidth;
    RowCells(p, plane, row, pos);
    RowCells(p, plane, row - 1, pos);
    LowRow(p, plane, row - 2, pos);
    hide PadRow, Rank, RowOf, Colour, PlanesOk, Beside;
  }

  lemma RowCells(p: Params, plane: seq<seq<int>>, row: nat, pos: nat)
    requires 0 < row < |plane| && pos < p.lineWidth && forall i :: 0 <= i < |plane| ==> |plane[i]| == p.lineWidth
    ensures var r := PadRow(p, plane, row);
            && r[pos] == Beside(plane, row, pos - 1, p.lineWidth)
            && r[pos + 1] == plane[row][pos] && r[pos + 2] == Beside(plane, row, pos + 1, p.lineWidth)
  {
  }

  lemma LowRow(p: Params, plane: seq<seq<int>>, row: nat, pos: nat)
    requires row < |plane| && pos < p.lineWidth && forall i :: 0 <= i < |plane| ==> |plane[i]| == p.lineWidth
    ensures PadRow(p, plane, row)[pos + 1] == plane[row][pos]
  {
  }

  // ---------------------------------------------------------------- contexts

  /** The class of a change is the number of steps 1, 18, 67 and 276 that it reaches, with its
      sign. */
  lemma QuantSteps(d: Depth, v: int)
    ensures Abs(Quant(d, v)) == Reaches(v, 1) + Reaches(v, 0x12) + Reaches(v, 0x43) + Reaches(v, 0x114)
    ensures (Quant(d, v) < 0 <==> v < 0) && (Quant(d, v) > 0 <==> v > 0)
  {
  }

  function Reaches(v: int, step: nat): nat { if Abs(v) >= step then 1 else 0 }

  /** The two changes that choose a context. */
  function Changes(h: Hood): (int, int) {
    match h
    case Even(rb, rc, rd, rf) => (rb - rf, rc - rb)
    case Odd(ra, rb, rc, rd, rg) => (rb - rc, rc - ra)
  }

  predicate SameClass(d: Depth, a: (int, int), b: (int, int)) {
    Quant(d, a.0) == Quant(d, b.0) && Quant(d, a.1) == Quant(d, b.1)
  }

  /** Two samples share a context exactly if their changes are of the same two classes, or of the
      opposite ones; the three tables of a group are apart. */
  lemma SameContext(d: Depth, table: nat, h: Hood, table': nat, h': Hood)
    requires table < 3 && table' < 3
    ensures Slot(d, table, h) == Slot(d, table', h') <==>
            table == table' && (SameClass(d, Changes(h), Changes(h')) ||
                                SameClass(d, Changes(h), (-Changes(h').0, -Changes(h').1)))
  {
    SlopedIs(d, h);
    SlopedIs(d, h');
    QuantSmall(d, Changes(h));
    QuantSmall(d, Changes(h'));
    var a, b, x, y := Quant(d, Changes(h).0), Quant(d, Changes(h).1), Quant(d, Changes(h').0), Quant(d, Changes(h').1);
    NineApart(a, b, x, y);
    NineApart(x, y, a, b);
    SlotsApart(table, Abs(Sloped(h, d)), table', Abs(Sloped(h', d)));
    hide Quant, Changes, Sloped;
  }

  lemma SlopedIs(d: Depth, h: Hood)
    ensures Sloped(h, d) == 9 * Quant(d, Changes(h).0) + Quant(d, Changes(h).1)
  {
    hide Quant;
  }

  lemma SlotsApart(t: nat, i: nat, t': nat, i': nat)
    requires t < 3 && t' < 3 && i < CONTEXTS && i' < CONTEXTS
    ensures CONTEXTS * t + i == CONTEXTS * t' + i' <==> t == t' && i == i'
  {
  }

  lemma QuantSmall(d: Depth, c: (int, int))
    ensures -4 <= Quant(d, c.0) <= 4 && -4 <= Quant(d, c.1) <= 4
    ensures Quant(d, -c.0) == -Quant(d, c.0) && Quant(d, -c.1) == -Quant(d, c.1)
  {
  }

  lemma NineApart(a: int, b: int, x: int, y: int)
    requires -4 <= a <= 4 && -4 <= b <= 4 && -4 <= x <= 4 && -4 <= y <= 4
    ensures Abs(9 * a + b) == Abs(9 * x + y) <==> (a == x && b == y) || (a == -x && b == -y)
    ensures Abs(9 * a + b) < CONTEXTS
  {
  }

  /** Even and odd samples have contexts of their own: a sample is decoded the same whatever the other
      kind's contexts are, and leaves them alone; of its own kind's exactly the one chosen by its
      changes adapts, by the residual. */
  lemma ContextsApart(p: Params, w: Window, ev: Ev, bits: seq<bool>, others: seq<Ctx>)
    requires Healthy(p, w) && EvOk(p, ev) && ev.Sample? && DecodeEv(p, w, ev, bits).Some?
    requires |others| == 3 * CONTEXTS && forall i :: 0 <= i < |others| ==> CtxOk(others[i])
    ensures var w' := if ev.odd then w.(even := others) else w.(odd := others);
            var a, b := DecodeEv(p, w, ev, bits).value, DecodeEv(p, w', ev, bits);
            && b.Some? && b.value.window.lines == a.window.lines && b.value.rest == a.rest && b.value.errors == a.errors
            && (if ev.odd then b.value.window.even == others && b.value.window.odd == a.window.odd
                else b.value.window.odd == others && b.value.window.even == a.window.even)
    ensures CtxOk(CtxFor(p, w, ev))
    ensures var i, a := Slot(p.depth, ev.table, Around(p, w, ev.odd, ev.line, ev.pos)), DecodeEv(p, w, ev, bits).value.window;
            var s := Signed(DecodeCode(p.depth, CtxFor(p, w, ev), bits).value.code);
            if ev.odd then a.odd == w.odd[i := Adapt(w.odd[i], s)] else a.even == w.even[i := Adapt(w.even[i], s)]
  {
    hide DecodeCode, Slot, Signed, Adapt, Reconstruct, Predict, Sloped;
    CtxUsable(p, w, ev);
  }

  /** A context after a run of residuals. */
  function AdaptAll(c: Ctx, ss: seq<int>): (r: Ctx)
    requires CtxOk(c)
    ensures CtxOk(r)
    decreases |ss|
  {
    if ss == [] then c else
      AdaptKeeps(Bits12, c, ss[0]);
      AdaptAll(Adapt(c, ss[0]), ss[1..])
  }

  function Size(ss: seq<int>): nat { if ss == [] then 0 else Abs(ss[0]) + Size(ss[1..]) }

  /** Up to a count of 64 a context adds up the sizes of the residuals and counts them. */
  lemma {:induction false} ContextSums(c: Ctx, ss: seq<int>)
    requires CtxOk(c) && c.value2 + |ss| <= MIN_VALUE
    ensures AdaptAll(c, ss) == Ctx(c.value1 + Size(ss), c.value2 + |ss|)
    decreases |ss|
  {
    if ss != [] { ContextSums(Adapt(c, ss[0]), ss[1..]); }
  }

  /** There the sum and the count are halved. */
  lemma ContextHalves(c: Ctx, s: int)
    requires CtxOk(c) && c.value2 == MIN_VALUE
    ensures Adapt(c, s).value2 == MIN_VALUE / 2 + 1 && 2 * Adapt(c, s).value1 <= c.value1 + Abs(s) <= 2 * Adapt(c, s).value1 + 1
  {
  }

  /** From init_fuji_block on the count is 1 more than the samples seen, and from the 64th on it
      goes round from 33 to 64 every 32 samples. */
  lemma {:induction false} ContextCount(d: Depth, ss: seq<int>)
    ensures CtxOk(InitialCtx(d)) && AdaptAll(InitialCtx(d), ss).value2 == if |ss| < 64 then 1 + |ss| else 33 + (|ss| - 64) % 32
  {
    if ss != [] {
      var but := ss[..|ss| - 1];
      ContextCount(d, but);
      AdaptLast(InitialCtx(d), ss);
      if |ss| >= 65 { NextRound(|ss| - 65); }
    }
  }

  lemma NextRound(k: nat)
    ensures (k + 1) % 32 == if k % 32 == 31 then 0 else k % 32 + 1
  {
  }

  lemma {:induction false} AdaptLast(c: Ctx, ss: seq<int>)
    requires CtxOk(c) && ss != []
    ensures AdaptAll(c, ss) == Adapt(AdaptAll(c, ss[..|ss| - 1]), ss[|ss| - 1])
    decreases |ss|
  {
    hide Adapt;
    AdaptKeeps(Bits12, c, ss[0]);
    if |ss| == 1 {
      assert ss[1..] == [] && ss[..0] == [];
    } else {
      AdaptLast(Adapt(c, ss[0]), ss[1..]);
      assert ss[1..][..|ss| - 2] == ss[..|ss| - 1][1..];
    }
  }

  /** The numbers of init_fuji_compr hang together. */
  lemma DepthNumbers(d: Depth)
    ensures d.TotalValues() == Pow2(d.RawBits()) && d.MaxDiff() * 64 == d.TotalValues()
    ensures d.MaxBits() == 4 * d.RawBits() && d.EscapeRun() == 3 * d.RawBits() - 1
    ensures 64 * InitialCtx(d).value1 == d.TotalValues() && InitialCtx(d).value2 == 1
  {
    Pow2Of(d.RawBits());
    hide Pow2;
  }

  // ---------------------------------------------------------------- codes

  /** Codes go up with the size of the residual, the negative one first. */
  lemma ZigzagOrder(s: int, t: int)
    ensures Zigzag(s) < Zigzag(t) <==> Abs(s) < Abs(t) || (Abs(s) == Abs(t) && s < t)
  {
  }

  /** What is stored for any residual, in range or not: one turn around at most, and beyond that
      the end of the range. */
  lemma ReconstructIs(d: Depth, predicted: int, grad: int, s: int)
    requires 0 <= predicted <= d.QMax()
    ensures var x, t := if grad < 0 then predicted - s else predicted + s, d.TotalValues();
            Reconstruct(d, predicted, grad, s) == if x < -t then 0 else if x >= 2 * t then d.QMax() else x % t
  {
    var x, t := if grad < 0 then predicted - s else predicted + s, d.TotalValues();
    if -t <= x < 2 * t { WrapsOnce(x, t); }
  }

  /** A short code on the wire: zeros and a 1 give the high part in unary, then come the low bits. */
  lemma ShortCode(d: Depth, c: Ctx, run: nat, low: seq<bool>, tail: seq<bool>)
    requires CtxOk(c) && run < d.EscapeRun() && |low| == GolombBits(c)
    ensures DecodeCode(d, c, Zeros(run) + [true] + low + tail) == Some(Coded(Shl(run, |low|) + ToNat(low), tail))
  {
    hide GolombBits, ToNat, FirstOne, PadTake, PadDrop;
    FirstOneAt(run, low + tail);
    PadPrefix(low, tail);
    assert Zeros(run) + [true] + low + tail == Zeros(run) + [true] + (low + tail);
  }

  /** An escape: that many zeros or more, a 1, and the code less 1 as it is. */
  lemma EscapeCode(d: Depth, c: Ctx, run: nat, field: seq<bool>, tail: seq<bool>)
    requires CtxOk(c) && run >= d.EscapeRun() && |field| == d.RawBits()
    ensures DecodeCode(d, c, Zeros(run) + [true] + field + tail) == Some(Coded(ToNat(field) + 1, tail))
  {
    hide GolombBits, ToNat, FirstOne, PadTake, PadDrop;
    FirstOneAt(run, field + tail);
    PadPrefix(field, tail);
    assert Zeros(run) + [true] + field + tail == Zeros(run) + [true] + (field + tail);
  }
}
