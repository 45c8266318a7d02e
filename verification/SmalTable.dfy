/** The adaptive frequency tables of the SMaL range decoder, and the subdivision of the coding
    interval that they stand for. */
module SmalTable {
  import opened Bits

  /** One row of `hist`: [0] mask, [1] the symbol that gives way, [2] how often it has, [3] when
      to go on to the next, and from [4] the cumulative frequencies, from 63 down to 0. */
  datatype Hist = Hist(mask: nat, cur: nat, cnt: nat, limit: nat, c: seq<nat>)

  ghost predicate Descending(c: seq<nat>) { forall i, j :: 0 <= i < j < |c| ==> c[i] > c[j] }

  /** Every symbol has a frequency of at least 1, and together they have 63. */
  ghost predicate HistOk(h: Hist): (ok: bool)
    ensures ok ==> |h.c| == h.mask + 2 && h.c[h.mask + 1] == 0 && h.cur <= h.mask <= 7 && h.c[0] == 63
    ensures ok ==> h.cnt <= 15 && h.limit <= 15
  {
    && (h.mask == 3 || h.mask == 7) && |h.c| == h.mask + 2 && h.cur <= h.mask
    && h.c[0] == 63 && h.c[h.mask + 1] == 0 && Descending(h.c)
    && h.limit <= 15 && (h.cnt <= h.limit || h.cnt <= 1)
  }

  /** The interval width after renormalisation. */
  predicate Normal(high: nat) { 128 <= high <= 255 }

  function Freq(h: Hist, i: nat): int
    requires i + 1 < |h.c|
  {
    h.c[i] as int - h.c[i + 1] as int
  }

  /** Frequencies of the symbols below `n`, added up. */
  function Total(h: Hist, n: nat): int
    requires n < |h.c|
  {
    if n == 0 then 0 else Total(h, n - 1) + Freq(h, n - 1)
  }

  lemma {:induction false} TotalIs(h: Hist, n: nat)
    requires n < |h.c|
    ensures Total(h, n) == h.c[0] as int - h.c[n] as int
  {
    if n > 0 { TotalIs(h, n - 1); }
  }

  /** All cumulative frequencies of symbols `from` to `to - 1` are above `count`. */
  ghost predicate Above(c: seq<nat>, count: int, from: nat, to: nat)
    requires to < |c|
  {
    forall i :: from < i <= to ==> c[i] > count
  }

  /** `for (bin=0; hist[s][bin+5] > count; bin++);` */
  function Find(c: seq<nat>, count: int, bin: nat): (r: nat)
    requires bin + 1 < |c| && c[|c| - 1] <= count
    ensures bin <= r < |c| - 1 && c[r + 1] <= count && Above(c, count, bin, r)
    decreases |c| - bin
  {
    if c[bin + 1] > count then Find(c, count, bin + 1) else bin
  }

  /** The count that the search compares with, from the difference of code and low in 16 bits. */
  function CountOf(x: int, high: nat): (count: int)
    requires Normal(high)
    ensures count >= 0
  {
    if (x + 1) % 0x1_0000 > 0 then
      DivNonNegative((x + 1) % 0x1_0000 * 4 - 1, high / 16);
      CDiv((x + 1) % 0x1_0000 * 4 - 1, high / 16)
    else CDiv(-1, high / 16)
  }

  function BinOf(h: Hist, high: nat, x: int): (bin: nat)
    requires HistOk(h) && Normal(high)
    ensures bin <= h.mask
  {
    Find(h.c, CountOf(x, high), 0)
  }

  /** A code one below the low end of the interval is taken for the last symbol. */
  lemma BelowLow(h: Hist, high: nat)
    requires HistOk(h) && Normal(high)
    ensures BinOf(h, high, -1) == h.mask
  {
    DivUnique(1, high / 16, 0, 1);
    assert forall i :: 0 <= i <= h.mask ==> h.c[i] > h.c[h.mask + 1];
  }

  /** Rounded down instead of towards zero, its count would be -1, and no cumulative frequency,
      the last one included, would stop the search. */
  lemma FloorRunsPast(h: Hist, high: nat)
    requires HistOk(h) && Normal(high)
    ensures (-1) / (high / 16) == -1 && Above(h.c, (-1) / (high / 16), 0, h.mask + 1)
  {
    DivUnique(-1, high / 16, -1, high / 16 - 1);
  }

  /** `hist * (high >> 4) >> 2`. */
  function Scaled(c: nat, high: nat): nat { c * (high / 16) / 4 }

  function LowOf(h: Hist, high: nat, bin: nat): nat
    requires HistOk(h) && bin <= h.mask
  {
    Scaled(h.c[bin + 1], high)
  }

  /** Upper end of a symbol's part of the interval; the first symbol gets the rest. */
  function TopOf(h: Hist, high: nat, bin: nat): nat
    requires HistOk(h) && bin <= h.mask
  {
    if bin > 0 then Scaled(h.c[bin], high) else high
  }

  lemma MulLess(a: nat, b: nat, w: nat)
    requires a < b && 8 <= w
    ensures a * w + 8 <= b * w
  {
    MulSign(w, b - a);
    assert w * (b - a) == b * w - a * w;
  }

  lemma ScaledGap(a: nat, b: nat, high: nat)
    requires a < b && Normal(high)
    ensures Scaled(a, high) + 2 <= Scaled(b, high)
  {
    MulLess(a, b, high / 16);
  }

  lemma ScaledTop(a: nat, high: nat)
    requires a <= 62 && Normal(high)
    ensures Scaled(a, high) + 2 <= high
  {
    var w := high / 16;
    if a < 62 { MulLess(a, 62, w); }
  }

  /** Each symbol's part is at least 2 wide, so the interval never vanishes. */
  lemma PartWide(h: Hist, high: nat, bin: nat)
    requires HistOk(h) && Normal(high) && bin <= h.mask
    ensures LowOf(h, high, bin) + 2 <= TopOf(h, high, bin) <= high
  {
    hide Scaled;
    assert h.c[bin] > h.c[bin + 1];
    if bin > 0 {
      assert h.c[0] > h.c[bin];
      ScaledGap(h.c[bin + 1], h.c[bin], high);
      ScaledTop(h.c[bin], high);
    } else {
      ScaledTop(h.c[1], high);
    }
  }

  /** The parts tile the interval: each begins where the next one ends, the last at 0. */
  lemma PartsTile(h: Hist, high: nat, bin: nat)
    requires HistOk(h) && Normal(high) && bin <= h.mask
    ensures LowOf(h, high, bin) == if bin < h.mask then TopOf(h, high, bin + 1) else 0
    ensures bin == 0 ==> TopOf(h, high, bin) == high
  {
  }

  /** The comparison of the search, with its rounding, is exact. */
  lemma CountExact(c: nat, x: nat, w: nat)
    requires w > 0
    ensures c <= (4 * x + 3) / w <==> c * w / 4 <= x
  {
    var q, r := (4 * x + 3) / w, (4 * x + 3) % w;
    assert 4 * x + 3 == q * w + r;
    if c <= q { Smaller(c, q, w); } else { MulStep(q, c, w); }
  }

  /** The symbol found is the one whose part of the interval the code lies in. */
  lemma BinExact(h: Hist, high: nat, x: nat, bin: nat)
    requires HistOk(h) && Normal(high) && x < high && bin <= h.mask
    ensures BinOf(h, high, x) == bin <==> LowOf(h, high, bin) <= x < TopOf(h, high, bin)
  {
    hide Scaled, CountOf, Find, LowOf, TopOf;
    var b := BinOf(h, high, x);
    BinInside(h, high, x);
    if b < bin { PartsOrder(h, high, b, bin); }
    if bin < b { PartsOrder(h, high, bin, b); }
  }

  lemma BinInside(h: Hist, high: nat, x: nat)
    requires HistOk(h) && Normal(high) && x < high
    ensures var b := BinOf(h, high, x); LowOf(h, high, b) <= x < TopOf(h, high, b)
  {
    var b, w := BinOf(h, high, x), high / 16;
    assert (x + 1) % 0x1_0000 == x + 1;
    assert CountOf(x, high) == (4 * x + 3) / w;
    CountExact(h.c[b + 1], x, w);
    if b > 0 { CountExact(h.c[b], x, w); }
  }

  lemma PartsOrder(h: Hist, high: nat, a: nat, b: nat)
    requires HistOk(h) && Normal(high) && a < b <= h.mask
    ensures TopOf(h, high, b) <= LowOf(h, high, a)
  {
    hide Scaled;
    if a + 1 < b { ScaledGap(h.c[b], h.c[a + 1], high); }
  }

  // ---------------------------------------------------------------- adaptation

  /** `for (i=from; i < to; i++) hist[s][i+5] += step`. */
  function Shifted(c: seq<nat>, from: nat, to: nat, step: int): (r: seq<nat>)
    requires forall i :: from < i <= to && i < |c| ==> c[i] + step >= 0
    ensures |r| == |c|
  {
    seq(|c|, i requires 0 <= i < |c| => if from < i <= to then c[i] + step else c[i])
  }

  /** The symbol that gives way is left for the next one when it has given way often enough. */
  function NextOf(h: Hist): (next: nat)
    requires h.cur <= h.mask
    ensures next <= h.mask
  {
    if h.cnt + 1 > h.limit then (h.cur + 1) % (h.mask + 1) else h.cur
  }

  function Moved(h: Hist, bin: nat): (c: seq<nat>)
    requires HistOk(h) && bin <= h.mask
    ensures |c| == |h.c|
  {
    if h.c[h.cur] - h.c[h.cur + 1] > 1 then
      if bin < h.cur then PositiveBefore(h); Shifted(h.c, bin, h.cur, -1)
      else if NextOf(h) <= bin then Shifted(h.c, h.cur, bin, 1)
      else h.c
    else h.c
  }

  lemma PositiveBefore(h: Hist)
    requires HistOk(h)
    ensures h.c[h.cur] > h.c[h.cur + 1] && forall i :: 0 <= i <= h.cur ==> h.c[i] > 0
  {
  }

  /** The table after symbol `bin`. */
  function Adapt(h: Hist, bin: nat): Hist
    requires HistOk(h) && bin <= h.mask
  {
    var next := NextOf(h);
    var spent := h.cnt + 1 > h.limit;
    h.(cur := next, cnt := if spent then 1 else h.cnt + 1,
       limit := if spent then (h.c[next] as int - h.c[next + 1]) / 4 else h.limit,
       c := Moved(h, bin))
  }

  /** One unit of frequency goes from the symbol that gives way to the decoded one, unless the
      former has no more than one; nothing else changes. */
  lemma AdaptMoves(h: Hist, bin: nat, i: nat)
    requires HistOk(h) && bin <= h.mask && i <= h.mask
    ensures |Adapt(h, bin).c| == |h.c|
    ensures Freq(Adapt(h, bin), i) ==
            if Freq(h, h.cur) > 1 && bin != h.cur then Freq(h, i) + (if i == bin then 1 else 0) - (if i == h.cur then 1 else 0)
            else Freq(h, i)
  {
    if h.cur < bin { NextSide(h, bin); }
    hide NextOf, Descending;
  }

  /** Whoever is next, a symbol above the one that gives way is not below it. */
  lemma NextSide(h: Hist, bin: nat)
    requires h.cur < bin <= h.mask
    ensures NextOf(h) <= bin
  {
  }

  lemma DescendingStep(c: seq<nat>)
    requires forall i :: 0 <= i < |c| - 1 ==> c[i] > c[i + 1]
    ensures Descending(c)
  {
    forall i, j | 0 <= i < j < |c| ensures c[i] > c[j] { Chain(c, i, j); }
  }

  lemma {:induction false} Chain(c: seq<nat>, i: nat, j: nat)
    requires forall i :: 0 <= i < |c| - 1 ==> c[i] > c[i + 1]
    requires i < j < |c|
    ensures c[i] > c[j]
    decreases j
  {
    if i < j - 1 { Chain(c, i, j - 1); }
  }

  /** The table stays in order: strictly descending from 63 to 0, counters in bounds. */
  lemma AdaptKeeps(h: Hist, bin: nat)
    requires HistOk(h) && bin <= h.mask
    ensures HistOk(Adapt(h, bin)) && Adapt(h, bin).mask == h.mask
  {
    AdaptDescends(h, bin);
    var next := NextOf(h);
    assert h.c[0] >= h.c[next] > h.c[next + 1];
    hide Descending;
  }

  lemma AdaptDescends(h: Hist, bin: nat)
    requires HistOk(h) && bin <= h.mask
    ensures Descending(Adapt(h, bin).c)
  {
    var c := Adapt(h, bin).c;
    forall i | 0 <= i < |c| - 1 ensures c[i] > c[i + 1] {
      AdaptMoves(h, bin, i);
      assert Freq(h, i) >= 1;
      hide *;
    }
    DescendingStep(c);
  }
}
