/** The SMaL range coder with exact numbers: interval arithmetic that never wraps, an encoder,
    and the round trip. */
module SmalCoder {
  import opened Bits
  import opened SmalTable
  import opened SmalBits

  /** The coding interval [low, low + high) and the tables; `nbits` bits of the scale have not
      been read yet. */
  datatype Model = Model(hists: seq<Hist>, high: nat, low: nat, nbits: nat)

  ghost predicate ModelOk(m: Model): (ok: bool)
    ensures ok ==> |m.hists| == 3 && Normal(m.high) && m.nbits <= 8
    ensures ok ==> forall s :: 0 <= s < 3 ==> m.hists[s].mask == MaskOf(s)
  {
    && |m.hists| == 3 && Normal(m.high) && m.nbits <= 8
    && forall s :: 0 <= s < 3 ==> HistOk(m.hists[s]) && m.hists[s].mask == MaskOf(s)
  }

  function MaskOf(s: nat): nat { if s == 2 then 3 else 7 }

  /** The tables every segment starts with. */
  function FirstHists(): seq<Hist> {
    var eight := Hist(7, 7, 0, 0, [63, 55, 47, 39, 31, 23, 15, 7, 0]);
    [eight, eight, Hist(3, 3, 0, 0, [63, 47, 31, 15, 0])]
  }

  function Start(): Model { Model(FirstHists(), 0xff, 0, 8) }

  lemma StartOk()
    ensures ModelOk(Start())
  {
    var h := FirstHists();
    assert HistOk(h[0]);
    assert HistOk(h[2]);
    hide HistOk;
  }

  /** `for (nbits=0; high << nbits < 128; nbits++)`: the width, doubled until it is normal. */
  function Shift(width: nat): (k: nat)
    requires 2 <= width <= 255
    ensures k <= 6 && Normal(Shl(width, k))
    decreases 255 - width
  {
    if width >= 128 then ShlZero(width, 0); 0
    else
      var k := Shift(2 * width);
      ShlDouble(width, k);
      ShiftSmall(width, k + 1);
      k + 1
  }

  lemma ShlDouble(w: nat, k: nat)
    ensures Shl(w, k + 1) == Shl(2 * w, k)
  {
    var p := Pow2(k);
    assert Pow2(k + 1) == 2 * p;
    Assoc(w, 2, p);
  }

  lemma ShiftSmall(width: nat, k: nat)
    requires width >= 2 && Shl(width, k) <= 255
    ensures k <= 6
  {
    hide Pow2;
    var n := 7;
    if k > 6 {
      Pow2Monotone(n, k);
      Smaller(2, width, Pow2(k));
      Pow2Of(n);
      assert false;
    }
  }

  // ---------------------------------------------------------------- one symbol

  /** The interval and the tables after symbol `bin` of table `s`. */
  function Next(m: Model, s: nat, bin: nat): (r: Model)
    requires ModelOk(m) && s < 3 && bin <= MaskOf(s)
  {
    var h := m.hists[s];
    PartWide(h, m.high, bin);
    var lo := LowOf(h, m.high, bin);
    var width := TopOf(h, m.high, bin) - lo;
    var k := Shift(width);
    Model(m.hists[s := Adapt(h, bin)], Shl(width, k), Shl(m.low + lo, k), k)
  }

  /** No symbol, whatever the stream says, breaks a table or lets the interval leave
      [128, 255]. */
  lemma NextOk(m: Model, s: nat, bin: nat)
    requires ModelOk(m) && s < 3 && bin <= MaskOf(s)
    ensures ModelOk(Next(m, s, bin))
  {
    AdaptKeeps(m.hists[s], bin);
    PartWide(m.hists[s], m.high, bin);
    hide HistOk, Adapt, LowOf, TopOf, Shl;
  }

  /** A decoder: the model, the value read so far, and bits since the last extra bit. */
  datatype Coder = Coder(m: Model, v: nat, since: nat)

  /** The symbols, how many bits were left after each, and where that leads. */
  datatype Decoded = Decoded(syms: seq<nat>, left: seq<nat>, end: Coder, rest: seq<bool>) {
    function Behind(bin: nat, n: nat): (d: Decoded)
      ensures |d.syms| == |syms| + 1 && |d.left| == |left| + 1
    {
      Decoded([bin] + syms, [n] + left, end, rest)
    }
  }

  function DecodeSym(c: Coder, s: nat, bits: seq<bool>): (r: Option<(nat, Coder, seq<bool>)>)
    requires ModelOk(c.m) && s < 3 && c.since <= 8
    ensures r.Some? ==> r.value.0 <= MaskOf(s) && ModelOk(r.value.1.m) && r.value.1.since <= 8
  {
    match Pull(c.since, c.m.nbits, c.v, bits)
    case None => None
    case Some(p) =>
      var bin := BinOf(c.m.hists[s], c.m.high, p.v - c.m.low);
      NextOk(c.m, s, bin);
      Some((bin, Coder(Next(c.m, s, bin), p.v, p.since), p.rest))
  }

  /** `n` symbols from number `i` on; the three tables take turns. */
  function DecodeSyms(c: Coder, i: nat, n: nat, bits: seq<bool>): (r: Option<Decoded>)
    requires ModelOk(c.m) && c.since <= 8
    ensures r.Some? ==> |r.value.syms| == |r.value.left| == n
    decreases n
  {
    hide *;
    if n == 0 then Some(Decoded([], [], c, bits))
    else
      match DecodeSym(c, i % 3, bits)
      case None => None
      case Some((bin, c', rest)) =>
        match DecodeSyms(c', i + 1, n - 1, rest)
        case None => None
        case Some(d) => Some(d.Behind(bin, |rest|))
  }

  // ---------------------------------------------------------------- the encoder

  predicate SymsOk(syms: seq<nat>) { forall i :: 0 <= i < |syms| ==> syms[i] <= MaskOf(i % 3) }

  /** The low end of the final interval, and how many bits that takes after the first
      `m.nbits`. */
  datatype Code = Code(low: nat, bits: nat)

  function Encode(m: Model, syms: seq<nat>, i: nat): Code
    requires ModelOk(m) && SymsOk(syms) && i <= |syms|
    decreases |syms| - i
  {
    if i == |syms| then Code(m.low, 0)
    else
      NextOk(m, i % 3, syms[i]);
      var m' := Next(m, i % 3, syms[i]);
      var code := Encode(m', syms, i + 1);
      Code(code.low, m'.nbits + code.bits)
  }

  /** `a * 2^n <= x < b * 2^n`. */
  predicate Between(a: nat, b: nat, n: nat, x: nat) { Shl(a, n) <= x < Shl(b, n) }

  /** `x`, which goes on for `n` bits, lies in the part of the interval that symbol `bin` gets. */
  predicate InPart(m: Model, s: nat, bin: nat, n: nat, x: nat)
    requires ModelOk(m) && s < 3 && bin <= MaskOf(s)
  {
    Between(m.low + LowOf(m.hists[s], m.high, bin), m.low + TopOf(m.hists[s], m.high, bin), n, x)
  }

  lemma BetweenWider(a: nat, b: nat, a': nat, b': nat, n: nat, x: nat)
    requires Between(a, b, n, x) && a' <= a && b <= b'
    ensures Between(a', b', n, x)
  {
    Smaller(a', a, Pow2(n));
    Smaller(b, b', Pow2(n));
  }

  lemma BetweenShift(a: nat, b: nat, k: nat, n: nat, x: nat)
    requires Between(Shl(a, k), Shl(b, k), n, x)
    ensures Between(a, b, k + n, x)
  {
    ShlTwice(a, k, n);
    ShlTwice(b, k, n);
    hide Shl;
  }

  lemma ShlSum(a: nat, b: nat, k: nat)
    ensures Shl(a + b, k) == Shl(a, k) + Shl(b, k)
  {
    Distribute(a, b, Pow2(k));
  }

  /** A point of the next interval, seen from this one, lies in the symbol's part. */
  lemma InsideStep(m: Model, s: nat, bin: nat, n: nat, x: nat)
    requires ModelOk(m) && s < 3 && bin <= MaskOf(s)
    requires var m' := Next(m, s, bin); Between(m'.low, m'.low + m'.high, n, x)
    ensures var k := Next(m, s, bin).nbits; InPart(m, s, bin, k + n, x) && Between(m.low, m.low + m.high, k + n, x)
  {
    hide Between, LowOf, TopOf, Shl, HistOk, Shift;
    var h, m' := m.hists[s], Next(m, s, bin);
    PartWide(h, m.high, bin);
    var lo, top := LowOf(h, m.high, bin), TopOf(h, m.high, bin);
    ShlSum(m.low + lo, top - lo, m'.nbits);
    BetweenShift(m.low + lo, m.low + top, m'.nbits, n, x);
    BetweenWider(m.low + lo, m.low + top, m.low, m.low + m.high, m'.nbits + n, x);
  }

  /** The final low end lies in the interval of every earlier step, and there in the part of the
      symbol that was coded. */
  lemma {:induction false} EncodeInside(m: Model, syms: seq<nat>, i: nat)
    requires ModelOk(m) && SymsOk(syms) && i <= |syms|
    ensures var code := Encode(m, syms, i); Between(m.low, m.low + m.high, code.bits, code.low)
    ensures i < |syms| ==> var code := Encode(m, syms, i); InPart(m, i % 3, syms[i], code.bits, code.low)
    decreases |syms| - i
  {
    hide LowOf, TopOf, Shl, HistOk, ModelOk, Next;
    if i == |syms| {
      ShlZero(m.low, 0);
      ShlZero(m.low + m.high, 0);
    } else {
      hide Between, InPart;
      NextOk(m, i % 3, syms[i]);
      var m' := Next(m, i % 3, syms[i]);
      EncodeInside(m', syms, i + 1);
      var code := Encode(m', syms, i + 1);
      InsideStep(m, i % 3, syms[i], code.bits, code.low);
    }
  }

  /** A decoder that has read the first bits of a number in the symbol's part finds it. */
  lemma FindsSymbol(m: Model, s: nat, bin: nat, v: nat, rest: nat, n: nat, x: nat)
    requires ModelOk(m) && s < 3 && bin <= MaskOf(s) && rest < Pow2(n) && x == Shl(v, n) + rest
    requires InPart(m, s, bin, n, x)
    ensures BinOf(m.hists[s], m.high, v - m.low) == bin
  {
    hide LowOf, TopOf, HistOk, Pow2, BinOf;
    var h := m.hists[s];
    var lo, top := m.low + LowOf(h, m.high, bin), m.low + TopOf(h, m.high, bin);
    PartWide(h, m.high, bin);
    Quotients(v, rest, Pow2(n), lo, top);
    BinExact(h, m.high, v - m.low, bin);
  }

  lemma Quotients(v: nat, rest: nat, p: nat, lo: nat, top: nat)
    requires rest < p && lo * p <= v * p + rest < top * p
    ensures lo <= v < top
  {
    if v < lo { Smaller(v + 1, lo, p); Distribute(v, 1, p); }
    if top <= v { Smaller(top, v, p); }
  }

  // ---------------------------------------------------------------- round trip

  /** The bits of the final low end that are still to come, after the value read so far. */
  predicate Spells(v: nat, value: seq<bool>, x: nat) { Shl(v, |value|) + ToNat(value) == x }

  /** One symbol of an encoded stream. */
  lemma OneSymbol(c: Coder, s: nat, bin: nat, n: nat, x: nat, value: seq<bool>, tail: seq<bool>) returns (p: Pulled)
    requires ModelOk(c.m) && c.since <= 8 && s < 3 && bin <= MaskOf(s)
    requires |value| == c.m.nbits + n && Spells(c.v, value, x)
    requires InPart(c.m, s, bin, n, x)
    ensures var more := value[c.m.nbits..];
            && p.since <= 8 && Spells(p.v, more, x)
            && DecodeSym(c, s, Stuffed(c.since, c.v, value) + tail) ==
               Some((bin, Coder(Next(c.m, s, bin), p.v, p.since), Stuffed(p.since, p.v, more) + tail))
  {
    hide HistOk, ModelOk, Next, LowOf, TopOf, Shl, ToNat, InPart, Pull, Stuffed, BinOf;
    p := PullStuffed(c.since, c.m.nbits, c.v, value, tail);
    var more := value[c.m.nbits..];
    ReadSplit(c.v, value, c.m.nbits);
    ToNatBound(more);
    FindsSymbol(c.m, s, bin, p.v, ToNat(more), n, x);
  }

  /** Decoding finds the symbols that were coded, from any point of the stream on, and leaves
      the rest of the stream. */
  lemma {:induction false} DecodeEncoded(c: Coder, syms: seq<nat>, i: nat, value: seq<bool>, tail: seq<bool>)
    returns (end: Coder, left: seq<bool>, lens: seq<nat>)
    requires ModelOk(c.m) && c.since <= 8 && SymsOk(syms) && i <= |syms|
    requires var code := Encode(c.m, syms, i); |value| == c.m.nbits + code.bits && Spells(c.v, value, code.low)
    ensures |left| <= 8 && end.since <= 8
    ensures DecodeSyms(c, i, |syms| - i, Stuffed(c.since, c.v, value) + tail) ==
            Some(Decoded(syms[i..], lens, end, Stuffed(end.since, end.v, left) + tail))
    decreases |syms| - i
  {
    hide HistOk, ModelOk, Next, LowOf, TopOf, Spells, Between, InPart, Pull, Stuffed, BinOf, DecodeSym;
    if i == |syms| {
      end, left, lens := c, value, [];
    } else {
      var s := i % 3;
      var code := Encode(c.m, syms, i);
      EncodeInside(c.m, syms, i);
      var p := OneSymbol(c, s, syms[i], code.bits, code.low, value, tail);
      NextOk(c.m, s, syms[i]);
      end, left, lens := DecodeEncoded(Coder(Next(c.m, s, syms[i]), p.v, p.since), syms, i + 1, value[c.m.nbits..], tail);
      lens := [|Stuffed(p.since, p.v, value[c.m.nbits..]) + tail|] + lens;
      assert syms[i..] == [syms[i]] + syms[i + 1..];
    }
  }

  lemma ReadSplit(v: nat, value: seq<bool>, n: nat)
    requires n <= |value|
    ensures Shl(v, |value|) + ToNat(value) == Shl(v * Pow2(n) + ToNat(value[..n]), |value| - n) + ToNat(value[n..])
  {
    hide *;
    var a, b := value[..n], value[n..];
    assert value == a + b;
    ToNatConcat(a, b);
    ShlSum(v * Pow2(n), ToNat(a), |b|);
    ShlMul(v, n, |b|);
    ShlIs(ToNat(a), |b|);
  }

  lemma ShlIs(v: nat, n: nat)
    ensures Shl(v, n) == v * Pow2(n)
  {
  }

  lemma ShlMul(v: nat, a: nat, b: nat)
    ensures Shl(v * Pow2(a), b) == Shl(v, a + b)
  {
    ShlTwice(v, a, b);
  }

  /** The stream of a symbol sequence. */
  function Encoded(syms: seq<nat>): seq<bool>
    requires SymsOk(syms)
  {
    StartOk();
    var code := Encode(Start(), syms, 0);
    Stuffed(8, 0, FromNat(code.low, 8 + code.bits))
  }

  /** Round trip of the range coder: for every sequence of symbols, through the adaptation of
      all three tables, and with the extra bits stuffed and removed again. */
  lemma RoundTrip(syms: seq<nat>, tail: seq<bool>) returns (end: Coder, left: seq<nat>, rest: seq<bool>)
    requires SymsOk(syms)
    ensures ModelOk(Start())
    ensures DecodeSyms(Coder(Start(), 0, 8), 0, |syms|, Encoded(syms) + tail) == Some(Decoded(syms, left, end, rest + tail))
  {
    hide Stuffed, DecodeSyms, Encode, Between, FromNat, ModelOk, ToNat, Start, Spells;
    StartOk();
    var code := Encode(Start(), syms, 0);
    EncodeInside(Start(), syms, 0);
    var value := FromNat(code.low, 8 + code.bits);
    StartBits(code.low, code.bits);
    var unread;
    end, unread, left := DecodeEncoded(Coder(Start(), 0, 8), syms, 0, value, tail);
    rest := Stuffed(end.since, end.v, unread);
    assert syms[0..] == syms;
  }

  lemma StartBits(x: nat, n: nat)
    requires Between(Start().low, Start().low + Start().high, n, x)
    ensures Start().nbits == 8 && Spells(0, FromNat(x, 8 + n), x)
  {
    hide FromNat, ToNat, Pow2;
    var e := 8;
    Pow2Add(e, n);
    Pow2Of(e);
    Smaller(Start().high, 0x100, Pow2(n));
    ToNatFromNat(x, 8 + n);
  }

}
