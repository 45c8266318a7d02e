/** The pixels of a SMaL image by their neighbours, the pattern of its holes, and the extra bits of its
    stream. */
module SmalImage {
  import opened Bits
  import opened SmalBits
  import opened SmalCoder
  import opened SmalPixels

  // ---------------------------------------------------------------- pixels

  /** What pixel `k` is predicted from: the pixel two before it, or what the loop began with. */
  function Earlier(out: seq<int>, first: nat, pred: (byte, byte), k: nat): int
    requires first <= k < |out|
  {
    if k >= first + 2 then out[k - 2] else if k % 2 == 0 then pred.0 else pred.1
  }

  lemma {:induction false} PixelsKeep(l: Layout, syms: seq<nat>, pix: nat, pred: (byte, byte), raw: seq<int>, k: nat)
    requires l.Ok() && |syms| == 3 * Visits(l, pix) && SymsOk(syms) && |raw| >= l.end && k < |raw| && (k < pix || k >= l.end)
    ensures PixelsOf(l, syms, pix, pred, raw)[k] == raw[k]
    decreases l.end - pix
  {
    if pix < l.end {
      PixelsUnfold(l, syms, pix, pred, raw);
      var val := Predicted(pred, pix, Diff(syms[0], syms[1], syms[2]));
      hide PixelsOf, SymsOk, Diff, Predicted;
      PixelsKeep(l, syms[3..], NextPix(l, pix), Update(pred, pix, val), raw[pix := val], k);
    }
  }

  /** Pixel `k` is the one that it is predicted from plus the difference that its three symbols
      make, in a byte. */
  ghost predicate FromSymbols(out: seq<int>, first: nat, pred: (byte, byte), syms: seq<nat>, k: nat)
    requires first <= k < |out|
  {
    var at := 3 * (k - first);
    && at + 3 <= |syms| && syms[at] <= 7 && syms[at + 1] <= 7 && syms[at + 2] <= 3
    && out[k] == (Earlier(out, first, pred, k) + Diff(syms[at], syms[at + 1], syms[at + 2])) % 0x100
  }

  /** Without holes that is how every pixel comes about. */
  lemma {:induction false} PixelIs(l: Layout, syms: seq<nat>, pix: nat, pred: (byte, byte), raw: seq<int>, k: nat)
    requires l.Ok() && l.holes == 0 && |syms| == 3 * Visits(l, pix) && SymsOk(syms) && |raw| >= l.end && pix <= k < l.end
    ensures FromSymbols(PixelsOf(l, syms, pix, pred, raw), pix, pred, syms, k)
    decreases k - pix
  {
    PixelsUnfold(l, syms, pix, pred, raw);
    NextAlways(l, pix);
    hide *;
    var val := Predicted(pred, pix, Diff(syms[0], syms[1], syms[2]));
    var out, more, next, after := PixelsOf(l, syms, pix, pred, raw), syms[3..], Update(pred, pix, val), raw[pix := val];
    PixelsKeep(l, more, pix + 1, next, after, pix);
    FirstIs(out, pix, pred, syms, val);
    if pix < k {
      PixelIs(l, more, pix + 1, next, after, k);
      OthersFollow(out, pix, pred, syms, val, k);
    }
  }

  lemma NextAlways(l: Layout, pix: nat)
    requires l.Ok() && l.holes == 0
    ensures NextPix(l, pix) == pix + 1
  {
    NoHole(l, pix / l.rawWidth);
    hide Hole;
  }

  lemma FirstIs(out: seq<int>, pix: nat, pred: (byte, byte), syms: seq<nat>, val: byte)
    requires pix < |out| && SymsTriple(syms) && out[pix] == val == Predicted(pred, pix, Diff(syms[0], syms[1], syms[2]))
    ensures FromSymbols(out, pix, pred, syms, pix)
  {
    hide Diff;
  }

  lemma OthersFollow(out: seq<int>, pix: nat, pred: (byte, byte), syms: seq<nat>, val: byte, k: nat)
    requires pix < k < |out| && |syms| >= 3 && out[pix] == val
    requires FromSymbols(out, pix + 1, Update(pred, pix, val), syms[3..], k)
    ensures FromSymbols(out, pix, pred, syms, k)
  {
    EarlierNext(out, pix, pred, val, k);
    var at := 3 * (k - pix - 1);
    assert syms[3..][at] == syms[at + 3] && syms[3..][at + 1] == syms[at + 4] && syms[3..][at + 2] == syms[at + 5];
    hide Earlier, Update, Diff;
  }

  lemma EarlierNext(out: seq<int>, pix: nat, pred: (byte, byte), val: byte, k: nat)
    requires pix < k < |out| && out[pix] == val
    ensures Earlier(out, pix + 1, Update(pred, pix, val), k) == Earlier(out, pix, pred, k)
  {
  }

  // ---------------------------------------------------------------- holes

  /** In a row with holes two of each four pixels are stored: the first and the last. */
  lemma HolePattern(l: Layout, pix: nat)
    requires l.Ok() && pix % 4 == 0 && Hole(l, pix / l.rawWidth) && pix + 4 <= l.end
    ensures Visited(l, pix, pix) && !Visited(l, pix, pix + 1) && !Visited(l, pix, pix + 2) && Visited(l, pix, pix + 3)
    ensures forall k :: k >= pix + 4 ==> (Visited(l, pix, k) <==> Visited(l, pix + 4, k))
  {
    TwoSkipped(l, pix);
    VisitsFrom(l, pix);
    VisitsFrom(l, pix + 3);
    if Visited(l, pix + 4, pix + 1) { VisitedBounds(l, pix + 4, pix + 1); }
    if Visited(l, pix + 4, pix + 2) { VisitedBounds(l, pix + 4, pix + 2); }
    if Visited(l, pix + 4, pix + 3) { VisitedBounds(l, pix + 4, pix + 3); }
    hide NextPix, Hole, Visited;
  }

  lemma TwoSkipped(l: Layout, pix: nat)
    requires l.Ok() && pix % 4 == 0 && Hole(l, pix / l.rawWidth)
    ensures NextPix(l, pix) == pix + 3 && NextPix(l, pix + 3) == pix + 4
  {
    hide Hole;
  }

  lemma VisitsFrom(l: Layout, pix: nat)
    requires l.Ok() && pix < l.end
    ensures forall k :: k >= 0 ==> (Visited(l, pix, k) <==> k == pix || Visited(l, NextPix(l, pix), k))
  {
    hide NextPix;
  }

  /** A row has holes by a bit of the mask: every eighth row by the same one, the first row below
      the raster by the lowest. */
  lemma HoleRows(l: Layout, row: int, j: nat)
    requires j < 8
    ensures Hole(l, row) <==> Hole(l, row + 8)
    ensures Hole(l, l.rawHeight + j) <==> FromNat(l.holes, 8)[7 - j]
  {
    var d := row - l.rawHeight;
    assert (d + 8) % 8 == d % 8;
    FromNatBit(l.holes, 8, 7 - j);
    hide Pow2, FromNat;
  }

  // ---------------------------------------------------------------- extra bits

  /** Bit by bit: a bit is added at the end of the value, unless it is the eighth one in a row; then
      the bit after it is a carry, which is added to the value as it stands. */
  lemma OneBit(since: nat, v: nat, b: bool, rest: seq<bool>)
    requires since <= 8
    ensures !(b && since >= 7 && v % 0x80 == 0x7f) ==>
              Pull(since, 1, v, [b] + rest) == Some(Pulled(2 * v + (if b then 1 else 0), if since == 8 then 8 else since + 1, rest))
    ensures b && since >= 7 && v % 0x80 == 0x7f && rest != [] ==>
              Pull(since, 1, v, [b] + rest) == Some(Pulled(2 * v + 1 + (if rest[0] then 1 else 0), 0, rest[1..]))
  {
    var bits := [b] + rest;
    assert bits[1..] == rest;
    if rest != [] { assert bits[2..] == rest[1..]; }
    LastEight(v, b);
    hide Carrying, Count8;
    PullOne(since, v, bits);
  }

  lemma LastEight(v: nat, b: bool)
    ensures (2 * v + Bit(b)) % 0x100 == 0xff <==> b && v % 0x80 == 0x7f
  {
    assert v == (v / 0x80) * 0x80 + v % 0x80;
    DivUnique(2 * v + Bit(b), 0x100, v / 0x80, 2 * (v % 0x80) + Bit(b));
  }

  lemma PullOne(since: nat, v: nat, bits: seq<bool>)
    requires since <= 8 && bits != []
    ensures var w, s := 2 * v + Bit(bits[0]), Count8(since, 1);
            Pull(since, 1, v, bits) ==
            if !Carrying(s, w) then Some(Pulled(w, s, bits[1..]))
            else if |bits| < 2 then None
            else Some(Pulled(w + Bit(bits[1]), 0, bits[2..]))
  {
    hide Carrying, Count8;
  }

  /** After `run` ones, the stream goes on without ever having nine of them in a row. */
  predicate NoNine(run: nat, s: seq<bool>)
    decreases |s|
  {
    if s == [] then true else if s[0] then run < 8 && NoNine(run + 1, s[1..]) else NoNine(0, s[1..])
  }

  predicate EndsInOnes(v: nat, run: nat) { v % Pow2(run) == Pow2(run) - 1 }

  lemma OneMore(v: nat, run: nat)
    requires EndsInOnes(v, run)
    ensures EndsInOnes(2 * v + 1, run + 1)
    ensures EndsInOnes(v, 0)
  {
    var p := Pow2(run);
    Pow2Zero();
    assert v == (v / p) * p + (p - 1);
    assert 2 * v + 1 == (v / p) * (2 * p) + (2 * p - 1);
    DivUnique(2 * v + 1, 2 * p, v / p, 2 * p - 1);
  }

  /** That is what the extra bits are for: a stuffed stream never has nine ones in a row. */
  lemma {:induction false} NeverNine(since: nat, v: nat, value: seq<bool>, run: nat)
    requires since <= 8 && run <= 7 && run <= since && EndsInOnes(v, run)
    ensures NoNine(run, Stuffed(since, v, value))
    decreases |value|
  {
    if value != [] {
      var w, s := 2 * v + Bit(value[0]), Count8(since, 1);
      var next := if value[0] then run + 1 else 0;
      OneMore(v, run);
      OneMore(w, 0);
      EightOnes(w, next);
      var more := Stuffed(if Carrying(s, w) then 0 else s, w, value[1..]);
      NeverNine(if Carrying(s, w) then 0 else s, w, value[1..], if Carrying(s, w) then 0 else next);
      hide Stuffed;
      if Carrying(s, w) {
        var all := [value[0], false] + more;
        assert all[1..] == [false] + more && all[1..][1..] == more;
      } else {
        assert ([value[0]] + more)[1..] == more;
      }
    }
  }

  lemma EightOnes(w: nat, run: nat)
    requires run == 8 ==> EndsInOnes(w, run)
    ensures run == 8 ==> w % 0x100 == 0xff
    ensures EndsInOnes(w, 0)
  {
    Pow2Zero();
    Pow2Of(run);
    hide Pow2;
  }
}
