/** Whose turn it is to give frequency away in a SMaL table, the first tables, and the parts of the
    interval, said without the functions that the coder uses. */
module SmalTurns {
  import opened Bits
  import opened SmalTable
  import opened SmalCoder
  import opened SmalPixels

  // ---------------------------------------------------------------- turns

  /** The symbol after `s` in the round. */
  function After(h: Hist, s: nat): (t: nat)
    requires s <= h.mask
    ensures t <= h.mask
  {
    if s == h.mask then 0 else s + 1
  }

  /** The turn of the present symbol is used up with the next one decoded. */
  predicate UsedUp(h: Hist) { h.cnt >= h.limit }

  /** One symbol: when the turn is used up it passes to the next symbol in the round, for as many
      symbols as a quarter of the frequency of that one; otherwise it goes on. */
  lemma TurnPasses(h: Hist, bin: nat)
    requires HistOk(h) && bin <= h.mask
    ensures var a := Adapt(h, bin);
            if UsedUp(h) then a.cur == After(h, h.cur) && a.cnt == 1 && 4 * a.limit <= Freq(h, a.cur) < 4 * a.limit + 4
            else a.cur == h.cur && a.cnt == h.cnt + 1 && a.limit == h.limit
  {
    DivUnique(h.cur + 1, h.mask + 1, if h.cur == h.mask then 1 else 0, if h.cur == h.mask then 0 else h.cur + 1);
    assert h.c[After(h, h.cur)] > h.c[After(h, h.cur) + 1];
  }

  ghost predicate SymbolsOf(h: Hist, bins: seq<nat>) { forall i :: 0 <= i < |bins| ==> bins[i] <= h.mask }

  /** The table after a list of symbols. */
  ghost function AdaptList(h: Hist, bins: seq<nat>): (a: Hist)
    requires HistOk(h) && SymbolsOf(h, bins)
    ensures HistOk(a) && a.mask == h.mask
    decreases |bins|
  {
    if bins == [] then h
    else
      var but := bins[..|bins| - 1];
      assert SymbolsOf(h, but);
      AdaptKeeps(AdaptList(h, but), bins[|bins| - 1]);
      Adapt(AdaptList(h, but), bins[|bins| - 1])
  }

  /** How many turns a list of symbols uses up. */
  ghost function Turns(h: Hist, bins: seq<nat>): nat
    requires HistOk(h) && SymbolsOf(h, bins)
    decreases |bins|
  {
    if bins == [] then 0
    else
      var but := bins[..|bins| - 1];
      assert SymbolsOf(h, but);
      Turns(h, but) + if UsedUp(AdaptList(h, but)) then 1 else 0
  }

  /** The giving symbol has moved on as often as turns were used up. */
  lemma {:induction false} TurnIs(h: Hist, bins: seq<nat>)
    requires HistOk(h) && SymbolsOf(h, bins)
    ensures AdaptList(h, bins).cur == (h.cur + Turns(h, bins)) % (h.mask + 1)
    decreases |bins|
  {
    hide HistOk, Adapt;
    if bins == [] {
      DivUnique(h.cur, h.mask + 1, 0, h.cur);
    } else {
      var but := bins[..|bins| - 1];
      assert SymbolsOf(h, but);
      TurnIs(h, but);
      var a := AdaptList(h, but);
      TurnPasses(a, bins[|bins| - 1]);
      NextInRound(h.cur + Turns(h, but), h.mask);
    }
  }

  lemma NextInRound(k: nat, mask: nat)
    ensures (k + 1) % (mask + 1) == if k % (mask + 1) == mask then 0 else k % (mask + 1) + 1
  {
    var n, q := mask + 1, k / (mask + 1);
    assert k == q * n + k % n;
    if k % n == mask { DivUnique(k + 1, n, q + 1, 0); } else { DivUnique(k + 1, n, q, k % n + 1); }
  }

  /** In a full round every symbol gives way: there is a point at which its turn is used up. */
  lemma EverySymbolGives(h: Hist, bins: seq<nat>, s: nat) returns (i: nat)
    requires HistOk(h) && SymbolsOf(h, bins) && Turns(h, bins) >= h.mask + 1 && s <= h.mask
    ensures i < |bins| && SymbolsOf(h, bins[..i]) && AdaptList(h, bins[..i]).cur == s && UsedUp(AdaptList(h, bins[..i]))
  {
    hide HistOk, AdaptList, Turns, UsedUp;
    var t := if s >= h.cur then s - h.cur else s + h.mask + 1 - h.cur;
    i := TurnFound(h, bins, t);
    TurnIs(h, bins[..i]);
    if s >= h.cur { DivUnique(h.cur + t, h.mask + 1, 0, s); } else { DivUnique(h.cur + t, h.mask + 1, 1, s); }
  }

  lemma {:induction false} TurnFound(h: Hist, bins: seq<nat>, t: nat) returns (i: nat)
    requires HistOk(h) && SymbolsOf(h, bins) && t < Turns(h, bins)
    ensures i < |bins| && SymbolsOf(h, bins[..i]) && Turns(h, bins[..i]) == t && UsedUp(AdaptList(h, bins[..i]))
    decreases |bins|
  {
    hide HistOk, AdaptList;
    var but := bins[..|bins| - 1];
    assert SymbolsOf(h, but);
    if t < Turns(h, but) {
      i := TurnFound(h, but, t);
      assert but[..i] == bins[..i];
    } else {
      i := |bins| - 1;
    }
  }

  /** A turn that has just begun lasts for `limit` symbols, or for one where that is 0. */
  lemma {:induction false} TurnLasts(h: Hist, bins: seq<nat>)
    requires HistOk(h) && SymbolsOf(h, bins) && h.cnt == 1
    ensures |bins| < (if h.limit == 0 then 1 else h.limit) ==>
              var a := AdaptList(h, bins); a.cur == h.cur && a.cnt == 1 + |bins| && a.limit == h.limit
    ensures |bins| == (if h.limit == 0 then 1 else h.limit) ==>
              var a := AdaptList(h, bins); a.cur == After(h, h.cur) && a.cnt == 1
    decreases |bins|
  {
    hide HistOk, Adapt;
    if bins != [] && |bins| <= (if h.limit == 0 then 1 else h.limit) {
      var but := bins[..|bins| - 1];
      assert SymbolsOf(h, but);
      TurnLasts(h, but);
      TurnPasses(AdaptList(h, but), bins[|bins| - 1]);
    }
  }

  /** The first tables: frequencies as even as 63 allows, the last symbol to give way first, and
      its turn used up at once; the first interval is that of the byte values below 255. */
  lemma FirstTables(s: nat, i: nat)
    requires s < 3 && i <= MaskOf(s)
    ensures var h := FirstHists()[s];
            && h.mask == h.cur == MaskOf(s) && h.cnt == h.limit == 0 && |h.c| == MaskOf(s) + 2
            && Freq(h, i) == 64 / (MaskOf(s) + 1) - if i == MaskOf(s) then 1 else 0
    ensures Start().hists == FirstHists() && Start().low == 0 && Start().high == 0xff && Start().nbits == 8
  {
  }

  // ---------------------------------------------------------------- the parts of the interval

  /** `q` is `a / n`, rounded down. */
  predicate Part(a: nat, n: nat, q: nat) { q * n <= a < q * n + n }

  /** The low end of a part: sixteenths of the width, by the frequencies below, in quarters. */
  lemma LowIs(h: Hist, high: nat, bin: nat, w: nat)
    requires HistOk(h) && Normal(high) && bin <= h.mask && Part(high, 16, w)
    ensures Part(h.c[bin + 1] * w, 4, LowOf(h, high, bin))
    ensures 64 * LowOf(h, high, bin) <= h.c[bin + 1] * high
  {
    DivUnique(high, 16, w, high - w * 16);
    var c := h.c[bin + 1];
    NatProduct(c, w);
    Quotient(c * w, 4);
    Assoc(c, w, 16);
    Commute(c, w * 16);
    Smaller(w * 16, high, c);
    Commute(high, c);
  }

  /** A code above the interval is taken for the first symbol. */
  lemma AboveHigh(h: Hist, high: nat, x: nat)
    requires HistOk(h) && Normal(high) && high <= x < 0xffff
    ensures BinOf(h, high, x) == 0
  {
    var w := high / 16;
    assert h.c[0] > h.c[1];
    assert (x + 1) % 0x1_0000 == x + 1 && CountOf(x, high) == (4 * x + 3) / w;
    Quotient(4 * x + 3, w);
    if (4 * x + 3) / w < 62 { MulStep((4 * x + 3) / w, 62, w); }
  }

  // ---------------------------------------------------------------- differences and pixels

  /** The magnitude of a difference has two bits of the third symbol, the second symbol, and two
      bits of the first, whose third bit is the sign; minus 0 stands for -128. */
  lemma DiffBits(a: nat, b: nat, c: nat)
    requires a < 4 && b <= 7 && c <= 3
    ensures Diff(a, b, c) < 0x80 && FromNat(Diff(a, b, c), 7) == FromNat(c, 2) + FromNat(b, 3) + FromNat(a, 2)
    ensures Diff(a + 4, b, c) == if Diff(a, b, c) == 0 then 0x80 else 0x100 - Diff(a, b, c)
  {
    var m, h, two, three, five, seven := Diff(a, b, c), c * 8 + b, 2, 3, 5, 7;
    ShortPowers();
    DivUnique(m, 4, h, a);
    DivUnique(h, 8, c, b);
    assert m == 4 * h + a && m < 0x80;
    hide Diff;
    LastBits(m, seven, two);
    LastBits(h, five, three);
  }

  /** A number's bits are those of its high part and those of its low part. */
  lemma LastBits(m: nat, n: nat, k: nat)
    requires k <= n
    ensures m / Pow2(k) >= 0 && FromNat(m, n) == FromNat(m / Pow2(k), n - k) + FromNat(m % Pow2(k), k)
  {
    DivNonNegative(m, Pow2(k));
    FromNatLow(m, n, k);
    FromNatHigh(m, n, k);
    FromNatMod(m, k);
    assert FromNat(m, n) == FromNat(m, n)[..n - k] + FromNat(m, n)[n - k..];
  }

  lemma ShortPowers()
    ensures Pow2(2) == 4 && Pow2(3) == 8
  {
    Pow2Zero();
    Pow2Next(0);
    Pow2Next(1);
    Pow2Next(2);
    hide Pow2;
  }
}
