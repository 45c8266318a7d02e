/** smal_decode_segment as it runs: a 16-bit code register, tables adapted in place. */
module SmalDecoder {
  import opened Bits
  import opened DcrawBits
  import opened SmalTable
  import opened SmalBits
  import opened SmalCoder

  /** `carry`: how many bits are missing before a new run of eight ones can be complete. */
  function CarryOf(since: nat): int { since as int - 8 }

  /** What the two's complement shift and or make of the register and `n` new bits. */
  lemma ShiftIn(v: nat, bits: seq<bool>, n: nat, data: nat)
    requires n <= |bits| && data == v % 0x1_0000
    ensures (Shl(data, n) + ToNat(bits[..n])) % 0x1_0000 == Prefix(v, bits, n) % 0x1_0000
  {
    hide Pow2, ToNat;
    var k := v / 0x1_0000;
    ShiftCut(v, k, Pow2(n));
    ModShift(Shl(data, n) + ToNat(bits[..n]), k * Pow2(n));
  }

  lemma ShiftCut(v: nat, k: nat, p: nat)
    requires k == v / 0x1_0000
    ensures v * p == (v % 0x1_0000) * p + (k * p) * 0x1_0000
  {
    assert v == v % 0x1_0000 + k * 0x1_0000;
    Distribute(v % 0x1_0000, k * 0x1_0000, p);
  }

  /** The register shows at bit `pos` whether the stream has an event there. */
  lemma Seen(since: nat, v: nat, bits: seq<bool>, n: nat, pos: nat)
    requires n <= |bits| && pos < n <= 8 && since + n - pos >= 8
    ensures Shr(Prefix(v, bits, n) % 0x1_0000, pos) % 0x100 == 0xff <==> EventAt(since, v, bits, n - pos)
  {
    hide Pow2, ToNat;
    PrefixSplit(v, bits, n - pos, n);
    var e := 8;
    Pow2Add(pos, e - pos);
    Pow2Of(e);
    Through(Pow2(e - pos), Pow2(pos));
    Window(Prefix(v, bits, n), Pow2(pos), Pow2(e - pos));
  }

  lemma Through(x: nat, y: nat)
    ensures x * (0x100 * y) == 0x100 * (y * x)
  {
    assert x * (0x100 * y) == 0x100 * (x * y);
  }

  /** Eight ones at bit `pos` of the register. */
  predicate Hit(data: nat, pos: nat) { Shr(data, pos) % 0x100 == 0xff }

  /** `while (--nbits >= 0) if ((data >> nbits & 0xff) == 0xff) break;` */
  method Scan(data: nat, top: int) returns (nbits: int)
    ensures if top <= 0 then nbits == top - 1 else -1 <= nbits < top
    ensures nbits >= 0 ==> Hit(data, nbits)
    ensures forall pos: nat :: nbits < pos < top ==> !Hit(data, pos)
  {
    nbits := top - 1;
    while nbits >= 0 && !Hit(data, nbits)
      invariant if top <= 0 then nbits == top - 1 else -1 <= nbits < top
      invariant forall pos: nat :: nbits < pos < top ==> !Hit(data, pos)
    {
      nbits := nbits - 1;
    }
  }

  /** What the register, holding the value and `n` new bits, says about events. */
  lemma ScanMeans(since: nat, v: nat, bits: seq<bool>, n: nat, data: nat, nbits: int)
    requires since <= 8 && n <= |bits| && n <= 8 && data == Prefix(v, bits, n) % 0x1_0000
    requires nbits < n && nbits < n + since - 7
    requires nbits >= 0 ==> Hit(data, nbits)
    requires forall pos: nat :: nbits < pos < n && pos < n + since - 7 ==> !Hit(data, pos)
    ensures nbits >= 0 ==> EventAt(since, v, bits, n - nbits) && Quiet(since, v, bits, n - nbits - 1)
    ensures nbits < 0 ==> Quiet(since, v, bits, n)
  {
    if nbits >= 0 { Seen(since, v, bits, n, nbits); }
    forall j | 1 <= j <= n && (nbits >= 0 ==> j < n - nbits) ensures !EventAt(since, v, bits, j) {
      if since + j >= 8 { Seen(since, v, bits, n, n - j); assert !Hit(data, n - j); }
    }
  }

  /** Taking the extra bit out at bit `pos` and letting the missing bit in. */
  lemma FixedUp(v: nat, bits: seq<bool>, n: nat, pos: nat)
    requires pos < n <= 8 && n < |bits|
    ensures var j, data := n - pos, Prefix(v, bits, n) % 0x1_0000;
            (if pos > 0 then TakenOut(data, Pow2(pos), Pow2(pos - 1)) + Bit(bits[n]) else data + Bit(bits[n])) % 0x1_0000 ==
            Prefix(Prefix(v, bits, j) + Bit(bits[j]), bits[j + 1..], pos) % 0x1_0000
  {
    hide ToNat, TakenOut, Prefix, Pow2, Bit;
    var j := n - pos;
    PrefixSplit(v, bits, j, n);
    var w := Prefix(v, bits, j);
    if pos > 0 {
      FixedInside(v, bits, n, pos);
    } else {
      PowerZero(pos);
      PrefixZero(w + Bit(bits[n]), bits[j + 1..]);
      assert bits[j..n] == [];
    }
  }

  lemma PowerZero(n: nat)
    ensures n == 0 ==> Pow2(n) == 1
    ensures ToNat([]) == 0
  {
  }

  lemma FixedInside(v: nat, bits: seq<bool>, n: nat, pos: nat)
    requires 0 < pos < n <= 8 && n < |bits|
    ensures var j, data := n - pos, Prefix(v, bits, n) % 0x1_0000;
            (TakenOut(data, Pow2(pos), Pow2(pos - 1)) + Bit(bits[n])) % 0x1_0000 ==
            Prefix(Prefix(v, bits, j) + Bit(bits[j]), bits[j + 1..], pos) % 0x1_0000
  {
    hide *;
    var j := n - pos;
    var w, low := Prefix(v, bits, j), bits[j + 1..n];
    PrefixParts(v, bits, n, pos);
    ToNatBound(low);
    PowersSplit(pos);
    TakenOutIs(w, bits[j], ToNat(low), Pow2(pos), Pow2(pos - 1), Pow2(16 - pos), Bit(bits[n]));
    LastBit(w + Bit(bits[j]), bits[j + 1..], pos);
    assert bits[j + 1..][..pos - 1] == low;
  }

  /** The value before, the bit at `pos`, and the bits below it. */
  lemma PrefixParts(v: nat, bits: seq<bool>, n: nat, pos: nat)
    requires 0 < pos < n <= 8 && n < |bits|
    ensures var j := n - pos;
            Prefix(v, bits, n) == Prefix(v, bits, j) * Pow2(pos) + Bit(bits[j]) * Pow2(pos - 1) + ToNat(bits[j + 1..n])
  {
    hide *;
    var j := n - pos;
    PrefixSplit(v, bits, j, n);
    assert bits[j..n][1..] == bits[j + 1..n];
    ToNatHead(bits[j..n]);
  }

  lemma PowersSplit(pos: nat)
    requires 0 < pos <= 8
    ensures Pow2(pos) == 2 * Pow2(pos - 1) && Pow2(16 - pos) * Pow2(pos) == 0x1_0000
  {
    var n := 16;
    Pow2Add(n - pos, pos);
    Pow2Of(n);
  }

  lemma LastBit(w: nat, bits: seq<bool>, n: nat)
    requires 0 < n <= |bits|
    ensures Prefix(w, bits, n) == w * Pow2(n) + 2 * ToNat(bits[..n - 1]) + Bit(bits[n - 1])
  {
    assert bits[..n][..n - 1] == bits[..n - 1];
  }

  /** What is left to do once the scan has ended, and what comes of it. */
  lemma ScanOutcome(since: nat, v: nat, bits: seq<bool>, n: nat, data: nat, nbits: int, p: Option<Pulled>)
    requires since <= 8 && n <= |bits| && n <= 8 && data == Prefix(v, bits, n) % 0x1_0000
    requires nbits < n && nbits < n + since - 7
    requires nbits >= 0 ==> Hit(data, nbits)
    requires forall pos: nat :: nbits < pos < n && pos < n + since - 7 ==> !Hit(data, pos)
    requires p.Some? && p == Pull(since, n, v, bits)
    ensures nbits < 0 ==> data == p.value.v % 0x1_0000 && p.value.since == Count8(since, n) && p.value.rest == bits[n..]
    ensures nbits >= 0 ==>
              && n < |bits| && p.value.since == nbits && p.value.rest == bits[n + 1..]
              && p.value.v % 0x1_0000 ==
                 (if nbits > 0 then TakenOut(data, Pow2(nbits), Pow2(nbits - 1)) + Bit(bits[n]) else data + Bit(bits[n])) % 0x1_0000
  {
    hide Prefix, ToNat, Pow2, Pull, TakenOut, EventAt, Quiet, Hit, Bit;
    ScanMeans(since, v, bits, n, data, nbits);
    if nbits >= 0 {
      PullEvent(since, n, v, bits, n - nbits);
      FixedUp(v, bits, n, nbits);
    } else {
      PullQuiet(since, n, v, bits);
    }
  }

  lemma NextBit(bits: seq<bool>, n: nat)
    requires n < |bits|
    ensures ToNat(bits[n..][..1]) == Bit(bits[n]) && bits[n..][1..] == bits[n + 1..]
  {
    ToNatOne(bits[n..][..1]);
  }

  /** Refilling the register: `nbits0` bits, of which at most one event is taken care of. For
      any stream `carry` stays in [-8, 0]; as long as the stream lasts, the register holds the
      value, modulo 2^16, that the stream stands for. */
  method TakeBits(buf: BitBuf, nbits0: nat, data0: ushort, carry0: int, ghost since: nat, ghost v: nat, ghost p: Option<Pulled>)
    returns (data: ushort, carry: int)
    requires buf.Valid() && buf.vbits < 8 && nbits0 <= 8 && -8 <= carry0 <= 0
    requires p.Some? ==> since <= 8 && data0 == v % 0x1_0000 && carry0 == CarryOf(since) && buf.vbits >= 0
    requires p.Some? ==> p == Pull(since, nbits0, v, buf.Rest())
    modifies buf
    ensures buf.Valid() && buf.vbits < 8 && -8 <= carry <= 0
    ensures p.Some? ==>
              && data == p.value.v % 0x1_0000 && carry == CarryOf(p.value.since)
              && buf.Rest() == p.value.rest && buf.vbits >= 0 && buf.failed == old(buf.failed)
  {
    hide BitBuf.Valid, BitBuf.Rest, Prefix, ToNat, Pow2, Pull, TakenOut, EventAt, Quiet, Hit, Shl, Bit;
    ghost var bits := buf.Rest();
    if p.Some? && |bits| < nbits0 { PullShort(since, nbits0, v, bits); }
    var more := buf.GetBits(nbits0);
    data := (Shl(data0, nbits0) + more) % 0x1_0000;
    if p.Some? { ShiftIn(v, bits, nbits0, data0); }
    var nbits: int := nbits0;
    carry := carry0;
    if carry < 0 {
      nbits := nbits + carry + 1;
      carry := if nbits < 1 then nbits - 1 else 0;
    }
    nbits := Scan(data, nbits);
    if p.Some? { ScanOutcome(since, v, bits, nbits0, data, nbits, p); }
    if nbits > 0 {
      Pow2Positive(nbits);
      data := TakenOut(data, Pow2(nbits), Pow2(nbits - 1)) % 0x1_0000;
    }
    if nbits >= 0 {
      var extra := buf.GetBits(1);
      if p.Some? { NextBit(bits, nbits0); }
      data := (data + extra) % 0x1_0000;
      carry := nbits - 8;
    }
  }

  // ---------------------------------------------------------------- tables in place

  /** A row of `hist` has 13 bytes, of which a table of four symbols uses 9. */
  ghost predicate RowOk(o: seq<byte>) { |o| == 13 && o[0] <= 7 && HistOk(HistOf(o)) }

  ghost function HistOf(o: seq<byte>): (r: Hist)
    requires |o| == 13 && o[0] <= 7
  {
    Hist(o[0], o[1], o[2], o[3], Bytes(o[4..6 + o[0]]))
  }

  ghost function Bytes(s: seq<byte>): (r: seq<nat>)
    ensures |r| == |s| && forall i :: 0 <= i < |s| ==> r[i] == s[i]
  {
    seq(|s|, i requires 0 <= i < |s| => s[i])
  }

  /** One of the two adapting loops; it never leaves the range of a byte. */
  method ShiftTable(h: array<byte>, from: nat, to: nat, step: int)
    requires h.Length == 13 && (step == -1 || step == 1) && from <= to <= 7
    requires forall k :: from + 4 < k <= to + 4 ==> 1 <= h[k] <= 62
    modifies h
    ensures forall k :: 0 <= k < 13 ==> h[k] == old(h[k]) + if from + 4 < k <= to + 4 then step else 0
  {
    var i := from;
    while i < to
      invariant from <= i <= to
      invariant forall k :: 0 <= k < 13 ==> h[k] == old(h[k]) + if from + 4 < k <= i + 4 then step else 0
    {
      h[i + 5] := h[i + 5] + step;
      i := i + 1;
    }
  }

  /** One of the adapting loops, as a change of the table's model. */
  lemma ShiftedTable(o: seq<byte>, h: seq<byte>, from: nat, to: nat, step: int)
    requires |o| == |h| == 13 && o[0] <= 7 && from <= to <= o[0] && (step == -1 || step == 1)
    requires forall k :: 0 <= k < 13 ==> h[k] == o[k] + if from + 4 < k <= to + 4 then step else 0
    ensures Bytes(h[4..6 + o[0]]) == Shifted(Bytes(o[4..6 + o[0]]), from, to, step)
    ensures h[0] == o[0] && h[1] == o[1] && h[2] == o[2] && h[3] == o[3]
  {
    var n := o[0] + 2;
    var a, b := o[4..4 + n], h[4..4 + n];
    forall i | 0 <= i < n ensures b[i] == a[i] + if from < i <= to then step else 0 {
    }
    assert Bytes(b) == Shifted(Bytes(a), from, to, step);
  }

  /** Cumulative frequencies strictly inside a table are from 1 to 62. */
  lemma Inner(o: seq<byte>)
    requires RowOk(o)
    ensures forall k :: 4 < k <= 4 + o[0] ==> 1 <= o[k] <= 62
    ensures forall k :: 4 <= k < 6 + o[0] ==> o[k] == HistOf(o).c[k - 4]
    ensures o[2] <= 15 && o[1] <= o[0]
  {
    var c := HistOf(o).c;
    assert forall k :: 4 <= k < 6 + o[0] ==> o[k] == c[k - 4];
    forall k | 4 < k <= 4 + o[0] ensures 1 <= o[k] <= 62 {
      assert c[0] > c[k - 4] > c[o[0] + 1];
    }
  }

  lemma Gap(o: seq<byte>, i: nat)
    requires RowOk(o) && i <= o[0]
    ensures 63 >= o[i + 4] > o[i + 5]
  {
    var c := HistOf(o).c;
    assert c[0] >= c[i] > c[i + 1];
  }

  /** The counters: how often the giving symbol has given way, and the next one to do so. */
  method Advance(h: array<byte>) returns (next: nat)
    requires h.Length == 13 && RowOk(h[..])
    modifies h
    ensures h.Length == 13 && forall k :: 0 <= k < 13 && k != 2 && k != 3 ==> h[k] == old(h[k])
    ensures var g := old(HistOf(h[..]));
            && next == NextOf(g)
            && h[2] == (if g.cnt + 1 > g.limit then 1 else g.cnt + 1)
            && h[3] == (if g.cnt + 1 > g.limit then (g.c[next] as int - g.c[next + 1]) / 4 else g.limit)
  {
    hide HistOk, Descending;
    Inner(h[..]);
    ghost var o := h[..];
    next := h[1];
    h[2] := h[2] + 1;
    if h[2] > h[3] {
      next := (next + 1) % (h[0] + 1);
      Gap(o, next);
      h[3] := (h[next + 4] - h[next + 5]) / 4;
      h[2] := 1;
    }
  }

  /** One unit of frequency moves. */
  method MoveOne(h: array<byte>, bin: nat, next: nat, ghost o: seq<byte>)
    requires h.Length == 13 && RowOk(o) && bin <= o[0] && next == NextOf(HistOf(o))
    requires forall k :: 0 <= k < 13 && k != 2 && k != 3 ==> h[k] == o[k]
    modifies h
    ensures h.Length == 13 && (forall i :: 0 <= i < 4 ==> h[i] == old(h[i]))
    ensures Bytes(h[4..6 + o[0]]) == Moved(HistOf(o), bin)
  {
    hide HistOk, Descending, Shifted;
    Inner(o);
    Gap(o, o[1]);
    ghost var mid := h[..];
    assert mid[4..6 + o[0]] == o[4..6 + o[0]];
    if h[h[1] + 4] - h[h[1] + 5] > 1 {
      if bin < h[1] {
        ShiftTable(h, bin, h[1], -1);
        ShiftedTable(mid, h[..], bin, mid[1], -1);
      } else if next <= bin {
        ShiftTable(h, h[1], bin, 1);
        ShiftedTable(mid, h[..], mid[1], bin, 1);
      }
    }
  }

  /** The adaptation of a table, in place. */
  method AdaptTable(h: array<byte>, bin: nat)
    requires h.Length == 13 && RowOk(h[..]) && bin <= h[0]
    modifies h
    ensures h.Length == 13 && RowOk(h[..]) && h[0] == old(h[0])
    ensures HistOf(h[..]) == Adapt(old(HistOf(h[..])), bin)
  {
    hide HistOk, Descending, Moved;
    ghost var o := h[..];
    Inner(o);
    AdaptKeeps(HistOf(o), bin);
    var next := Advance(h);
    MoveOne(h, bin, next, o);
    ghost var late := h[..];
    h[1] := next;
    assert h[..] == late[1 := next];
    assert h[4..6 + o[0]] == late[4..6 + o[0]];
  }
}
