/** One coded sample of the Fuji format: quantised gradients, neighbour prediction, adaptive
    contexts, the unary/Golomb/escape code, and the encoder that inverts it. */
module FujiCodec {
  import opened Bits

  /** The 12- and 14-bit variants init_fuji_compr accepts. */
  datatype Depth = Bits12 | Bits14 {
    function RawBits(): nat { if Bits12? then 12 else 14 }
    function TotalValues(): int { if Bits12? then 4096 else 0x4000 }
    function QMax(): int { TotalValues() - 1 }
    function MaxBits(): nat { if Bits12? then 48 else 56 }
    function MaxDiff(): nat { if Bits12? then 64 else 256 }
    /** A unary run this long announces an escape code. */
    function EscapeRun(): nat { MaxBits() - RawBits() - 1 }
  }

  const MIN_VALUE := 0x40
  const CONTEXTS := 41

  datatype Ctx = Ctx(value1: int, value2: int)

  // ---------------------------------------------------------------- gradients

  /** The comparison chain that fills q_table. */
  function Quant(d: Depth, v: int): int {
    if v <= -0x114 then -4
    else if v <= -0x43 then -3
    else if v <= -0x12 then -2
    else if v < 0 then -1
    else if v == 0 then 0
    else if v < 0x12 then 1
    else if v < 0x43 then 2
    else if v < 0x114 then 3
    else 4
  }

  ghost predicate QTableOk(d: Depth, table: array<int>)
    reads table
  {
    table.Length == 32768 && forall v :: -d.QMax() <= v <= d.QMax() ==> table[d.QMax() + v] == Quant(d, v)
  }

  /** The table of init_fuji_compr: every reachable difference has its class at
      `q_table[q_point[4] + v]`, inside the 32768 bytes allocated. */
  method InitQTable(d: Depth) returns (table: array<int>)
    ensures fresh(table) && QTableOk(d, table)
  {
    table := new int[32768];
    var curVal := -d.QMax();
    var qt := 0;
    while curVal <= d.QMax()
      invariant qt == d.QMax() + curVal && curVal <= d.QMax() + 1
      invariant 0 <= qt <= 2 * d.QMax() + 1
      invariant forall v :: -d.QMax() <= v < curVal ==> table[d.QMax() + v] == Quant(d, v)
    {
      if curVal <= -0x114 { table[qt] := -4; }
      else if curVal <= -0x43 { table[qt] := -3; }
      else if curVal <= -0x12 { table[qt] := -2; }
      else if curVal < 0 { table[qt] := -1; }
      else if curVal == 0 { table[qt] := 0; }
      else if curVal < 0x12 { table[qt] := 1; }
      else if curVal < 0x43 { table[qt] := 2; }
      else if curVal < 0x114 { table[qt] := 3; }
      else { table[qt] := 4; }
      qt, curVal := qt + 1, curVal + 1;
    }
  }

  /** fuji_quant_gradient. */
  function Gradient(d: Depth, v1: int, v2: int): (g: int)
    ensures -40 <= g <= 40
  {
    9 * Quant(d, v1) + Quant(d, v2)
  }

  // ---------------------------------------------------------------- prediction

  /** What a sample is predicted from: the neighbours in the two lines above (even positions)
      or in the line above and on both sides (odd positions). */
  datatype Hood =
    | Even(rb: int, rc: int, rd: int, rf: int)
    | Odd(ra: int, rb: int, rc: int, rd: int, rg: int)
  {
    predicate InRange(max: int) {
      && 0 <= rb <= max && 0 <= rc <= max && 0 <= rd <= max
      && (Even? ==> 0 <= rf <= max) && (Odd? ==> 0 <= ra <= max && 0 <= rg <= max)
    }
  }

  function Sloped(h: Hood, d: Depth): (g: int)
    ensures -40 <= g <= 40
  {
    match h
    case Even(rb, rc, rd, rf) => Gradient(d, rb - rf, rc - rb)
    case Odd(ra, rb, rc, rd, rg) => Gradient(d, rb - rc, rc - ra)
  }

  function Predict(h: Hood): int {
    match h
    case Even(rb, rc, rd, rf) =>
      var diffRcRb, diffRfRb, diffRdRb := Abs(rc - rb), Abs(rf - rb), Abs(rd - rb);
      (if diffRcRb > diffRfRb && diffRcRb > diffRdRb then rf + rd + 2 * rb
       else if diffRdRb > diffRcRb && diffRdRb > diffRfRb then rf + rc + 2 * rb
       else rd + rc + 2 * rb) / 4
    case Odd(ra, rb, rc, rd, rg) =>
      if (rb > rc && rb > rd) || (rb < rc && rb < rd) then (rg + ra + 2 * rb) / 4
      else (ra + rg) / 2
  }

  lemma PredictInRange(h: Hood, max: int)
    requires h.InRange(max)
    ensures 0 <= Predict(h) <= max
  {
  }

  // ---------------------------------------------------------------- codes and samples

  /** `code & 1 ? -1 - code / 2 : code / 2`. */
  function Signed(code: nat): int {
    if code % 2 == 1 then -1 - code / 2 else code / 2
  }

  function Zigzag(s: int): nat {
    if s < 0 then -2 * s - 1 else 2 * s
  }

  /** The end of fuji_decode_sample_*: add or subtract, wrap once, clamp. */
  function Reconstruct(d: Depth, predicted: int, grad: int, s: int): (x: int)
    ensures 0 <= x <= d.QMax()
  {
    var v := if grad < 0 then predicted - s else predicted + s;
    var w := if v < 0 then v + d.TotalValues() else if v > d.QMax() then v - d.TotalValues() else v;
    if w >= 0 then (if w < d.QMax() then w else d.QMax()) else 0
  }

  /** The encoder's residual of sample `x`, in [-total_values/2, total_values/2). */
  function Residual(d: Depth, predicted: int, grad: int, x: int): int {
    var s := if grad < 0 then predicted - x else x - predicted;
    var half := d.TotalValues() / 2;
    if s < -half then s + d.TotalValues() else if s >= half then s - d.TotalValues() else s
  }

  /** Codes 0 .. total_values-1 name the residuals, one for one. */
  lemma ZigzagBijection(d: Depth, code: nat, s: int)
    ensures Zigzag(Signed(code)) == code && Signed(Zigzag(s)) == s
    ensures code < d.TotalValues() <==> -d.TotalValues() / 2 <= Signed(code) < d.TotalValues() / 2
  {
    var q := code / 2;
    assert code == 2 * q + code % 2;
    match d
    case Bits12 =>
    case Bits14 =>
  }

  /** The encoder's residual brings back the sample, and its code is in range. */
  lemma ResidualInverts(d: Depth, predicted: int, grad: int, x: int)
    requires 0 <= predicted <= d.QMax() && 0 <= x <= d.QMax()
    ensures var s := Residual(d, predicted, grad, x);
            Zigzag(s) < d.TotalValues() && Reconstruct(d, predicted, grad, s) == x
  {
  }

  /** On codes in range the stored sample is the prediction plus or minus the residual modulo
      the number of values: no two codes give the same sample, and the final clamp never acts. */
  lemma CodeIsSample(d: Depth, predicted: int, grad: int, code: nat)
    requires 0 <= predicted <= d.QMax() && code < d.TotalValues()
    ensures var s := Signed(code);
            var x := Reconstruct(d, predicted, grad, s);
            && x == (if grad < 0 then predicted - s else predicted + s) % d.TotalValues()
            && Zigzag(Residual(d, predicted, grad, x)) == code
  {
    ZigzagBijection(d, code, Signed(code));
    hide Signed, Zigzag;
    var s := Signed(code);
    WrapsOnce(if grad < 0 then predicted - s else predicted + s, d.TotalValues());
  }

  lemma WrapsOnce(v: int, t: int)
    requires t > 0 && -t <= v < 2 * t
    ensures v % t == if v < 0 then v + t else if v >= t then v - t else v
  {
    DivUnique(v, t, if v < 0 then -1 else if v >= t then 1 else 0, if v < 0 then v + t else if v >= t then v - t else v);
  }

  // ---------------------------------------------------------------- contexts

  function InitialCtx(d: Depth): Ctx { Ctx(d.MaxDiff(), 1) }

  /** The adaptation step at the end of every coded sample. */
  function Adapt(c: Ctx, s: int): Ctx {
    var v1 := c.value1 + Abs(s);
    if c.value2 == MIN_VALUE then Ctx(v1 / 2, c.value2 / 2 + 1) else Ctx(v1, c.value2 + 1)
  }

  /** Holds of every context of every reachable state, whatever the stream. */
  predicate CtxOk(c: Ctx) {
    0 <= c.value1 && 1 <= c.value2 <= MIN_VALUE
  }

  /** Holds as long as every code was in range. */
  predicate CtxBounded(d: Depth, c: Ctx) {
    CtxOk(c) && c.value1 <= d.MaxDiff() + (c.value2 - 1) * (d.TotalValues() / 2)
  }

  lemma AdaptKeeps(d: Depth, c: Ctx, s: int)
    requires CtxOk(c)
    ensures CtxOk(Adapt(c, s))
    ensures CtxBounded(d, c) && Abs(s) <= d.TotalValues() / 2 ==> CtxBounded(d, Adapt(c, s))
  {
  }

  /** bitDiff's search, from `k` bits on. */
  function BitDiffFrom(c: Ctx, k: nat): (r: nat)
    requires CtxOk(c) && k <= 13
    ensures k <= r <= 13
    ensures forall j :: k <= j < r ==> Shl(c.value2, j) < c.value1
    ensures r < 13 ==> Shl(c.value2, r) >= c.value1
    decreases 13 - k
  {
    if k == 13 || Shl(c.value2, k) >= c.value1 then k else BitDiffFrom(c, k + 1)
  }

  /** The Golomb parameter: the least k with value2 * 2^k >= value1, capped at 13. */
  function GolombBits(c: Ctx): (r: nat)
    requires CtxOk(c)
    ensures r <= 13
  {
    BitDiffFrom(c, 0)
  }

  /** bitDiff. */
  method BitDiff(value1: int, value2: int) returns (decBits: nat)
    requires CtxOk(Ctx(value1, value2))
    ensures decBits == GolombBits(Ctx(value1, value2))
  {
    ghost var c := Ctx(value1, value2);
    decBits := 0;
    ShlStep(value2, 0);
    if value2 < value1 {
      assert GolombBits(c) == BitDiffFrom(c, 1);
      while decBits <= 12
        invariant decBits <= 12 && GolombBits(c) == BitDiffFrom(c, decBits + 1)
        decreases 13 - decBits
      {
        decBits := decBits + 1;
        if !(decBits <= 12 && Shl(value2, decBits) < value1) { break; }
      }
    }
  }

  /** While all codes are in range the cap of 13 is never felt: the parameter really is the
      least k with value2 * 2^k >= value1. */
  lemma CapNeverTruncates(d: Depth, c: Ctx)
    requires CtxBounded(d, c)
    ensures Shl(c.value2, GolombBits(c)) >= c.value1
    ensures forall j :: 0 <= j < GolombBits(c) ==> Shl(c.value2, j) < c.value1
  {
    var n := 13;
    Pow2Of(n);
    CapEnough(d, c);
    assert Shl(c.value2, n) == c.value2 * 0x2000;
    hide Pow2, BitDiffFrom, Shl;
  }

  lemma CapEnough(d: Depth, c: Ctx)
    requires CtxBounded(d, c)
    ensures c.value2 * 0x2000 >= c.value1
  {
  }

  // ---------------------------------------------------------------- the code on the wire

  /** One coded sample read from the stream, with what is left of the stream. */
  datatype Coded = Coded(code: nat, rest: seq<bool>)

  /** fuji_zerobits and fuji_read_code as the sample decoders use them. `None` is a stream with
      no 1 bit left: there the C loop never returns. */
  function DecodeCode(d: Depth, c: Ctx, bits: seq<bool>): Option<Coded>
    requires CtxOk(c)
  {
    match FirstOne(bits)
    case None => None
    case Some(run) =>
      var rest := bits[run + 1..];
      if run < d.EscapeRun() then
        var k := GolombBits(c);
        Some(Coded(ToNat(PadTake(rest, k)) + Shl(run, k), PadDrop(rest, k)))
      else
        Some(Coded(ToNat(PadTake(rest, d.RawBits())) + 1, PadDrop(rest, d.RawBits())))
  }

  function EncodeCode(d: Depth, c: Ctx, code: nat): seq<bool>
    requires CtxOk(c) && code < d.TotalValues()
  {
    var k := GolombBits(c);
    var run := Shr(code, k);
    if run < d.EscapeRun() then Zeros(run) + [true] + FromNat(Low(code, k), k)
    else
      SplitAt(code, k);
      Zeros(d.EscapeRun()) + [true] + FromNat(code - 1, d.RawBits())
  }

  /** Reading an encoded code back gives it, and leaves exactly what followed it. */
  lemma CodeRoundTrip(d: Depth, c: Ctx, code: nat, tail: seq<bool>)
    requires CtxOk(c) && code < d.TotalValues()
    ensures DecodeCode(d, c, EncodeCode(d, c, code) + tail) == Some(Coded(code, tail))
  {
    hide Shl, Shr, Low, PadTake, PadDrop, ToNat, FromNat, FirstOne, GolombBits;
    var k := GolombBits(c);
    var run := Shr(code, k);
    SplitAt(code, k);
    if run < d.EscapeRun() {
      FieldBack(run, Low(code, k), k, tail);
    } else {
      Pow2Of(d.RawBits());
      hide Pow2;
      FieldBack(d.EscapeRun(), code - 1, d.RawBits(), tail);
    }
  }

  /** A unary run and a field of `n` bits behind it. */
  lemma FieldBack(run: nat, v: nat, n: nat, tail: seq<bool>)
    requires v < Pow2(n)
    ensures var s := Zeros(run) + [true] + FromNat(v, n) + tail;
            && FirstOne(s) == Some(run)
            && ToNat(PadTake(s[run + 1..], n)) == v && PadDrop(s[run + 1..], n) == tail
  {
    hide PadTake, PadDrop, ToNat, FromNat, FirstOne, Pow2;
    var field := FromNat(v, n);
    FirstOneAt(run, field + tail);
    PadPrefix(field, tail);
    ToNatFromNat(v, n);
    assert Zeros(run) + [true] + field + tail == Zeros(run) + [true] + (field + tail);
  }
}
