/** From symbols to pixels and back, and the whole segment of a SMaL image. */
module SmalPixels {
  import opened Bits
  import opened DcrawBits
  import opened SmalTable
  import opened SmalBits
  import opened SmalCoder
  import opened SmalDecoder
  import opened SmalSegment

  /** `diff = sym[2] << 5 | sym[1] << 2 | (sym[0] & 3); if (sym[0] & 4) diff = diff ? -diff : 0x80`
      in a byte. */
  function Diff(a: nat, b: nat, c: nat): (d: byte)
    requires a <= 7 && b <= 7 && c <= 3
  {
    var m := c * 32 + b * 4 + a % 4;
    if a < 4 then m else if m > 0 then 0x100 - m else 0x80
  }

  /** Sign and magnitude of a difference, as three symbols. */
  function SymsFor(d: byte): (s: seq<nat>)
    ensures |s| == 3 && s[0] <= 7 && s[1] <= 7 && s[2] <= 3
  {
    if d < 0x80 then [d % 4, d / 4 % 8, d / 32]
    else if d == 0x80 then [4, 0, 0]
    else var m := 0x100 - d; [4 + m % 4, m / 4 % 8, m / 32]
  }

  lemma Digits(m: nat)
    ensures m == (m / 32) * 32 + (m / 4 % 8) * 4 + m % 4
  {
    DivDiv(m, 4, 8);
  }

  lemma DigitsOf(c: nat, b: nat, a: nat)
    requires b <= 7 && a <= 3
    ensures var m := c * 32 + b * 4 + a; m / 32 == c && m / 4 % 8 == b && m % 4 == a
  {
    var m := c * 32 + b * 4 + a;
    DivUnique(m, 4, c * 8 + b, a);
    DivUnique(c * 8 + b, 8, c, b);
    DivUnique(m, 32, c, b * 4 + a);
  }

  /** The 256 combinations of symbols and the 256 differences correspond one to one. */
  lemma DiffBack(d: byte)
    ensures var s := SymsFor(d); Diff(s[0], s[1], s[2]) == d
  {
    if d < 0x80 { Digits(d); } else if d > 0x80 { Digits(0x100 - d); }
  }

  lemma SymsBack(a: nat, b: nat, c: nat)
    requires a <= 7 && b <= 7 && c <= 3
    ensures SymsFor(Diff(a, b, c)) == [a, b, c]
  {
    DigitsOf(c, b, a % 4);
  }

  /** What a segment covers: pixels up to `end`, in rows of `rawWidth`, with the holes. */
  datatype Layout = Layout(rawWidth: nat, rawHeight: nat, holes: nat, end: nat) {
    predicate Ok() { rawWidth > 0 && end <= rawWidth * rawHeight && holes < 0x1_0000_0000 }
  }

  /** `(holes >> ((row - raw_height) & 7)) & 1` */
  predicate Hole(l: Layout, row: int) {
    Shr(l.holes, (row - l.rawHeight) % 8) % 2 == 1
  }

  /** The pixel after `pix`: in a row with holes two are skipped after each even one. */
  function NextPix(l: Layout, pix: nat): (p: nat)
    requires l.Ok()
    ensures p > pix
  {
    if pix % 2 == 0 && Hole(l, pix / l.rawWidth) then pix + 3 else pix + 1
  }

  /** Pixels from `pix` on. */
  function Visits(l: Layout, pix: nat): nat
    requires l.Ok()
    decreases l.end - pix
  {
    if pix >= l.end then 0 else 1 + Visits(l, NextPix(l, pix))
  }

  predicate Visited(l: Layout, pix: nat, k: nat)
    requires l.Ok()
    decreases l.end - pix
  {
    pix < l.end && (k == pix || Visited(l, NextPix(l, pix), k))
  }

  /** `pred[pix & 1] += diff` */
  function Predicted(pred: (byte, byte), pix: nat, diff: byte): byte {
    ((if pix % 2 == 0 then pred.0 else pred.1) + diff) % 0x100
  }

  function Update(pred: (byte, byte), pix: nat, val: byte): (byte, byte) {
    if pix % 2 == 0 then (val, pred.1) else (pred.0, val)
  }

  /** The raster that the symbols of the pixels from `pix` on make of `raw`. */
  function PixelsOf(l: Layout, syms: seq<nat>, pix: nat, pred: (byte, byte), raw: seq<int>): (r: seq<int>)
    requires l.Ok() && |syms| == 3 * Visits(l, pix) && SymsOk(syms) && |raw| >= l.end
    ensures |r| == |raw|
    decreases l.end - pix
  {
    if pix >= l.end then raw
    else
      var val := Predicted(pred, pix, Diff(syms[0], syms[1], syms[2]));
      SymsTail(syms);
      PixelsOf(l, syms[3..], NextPix(l, pix), Update(pred, pix, val), raw[pix := val])
  }

  lemma SymsTail(syms: seq<nat>)
    requires SymsOk(syms) && |syms| >= 3
    ensures SymsOk(syms[3..]) && syms[0] <= 7 && syms[1] <= 7 && syms[2] <= 3
  {
    var more := syms[3..];
    forall i | 0 <= i < |more| ensures more[i] <= MaskOf(i % 3) {
      assert more[i] == syms[i + 3];
      assert (i + 3) % 3 == i % 3;
    }
  }

  /** The writer's symbols for an image. */
  function SymsOf(l: Layout, image: seq<byte>, pix: nat, pred: (byte, byte)): (syms: seq<nat>)
    requires l.Ok() && |image| >= l.end
    ensures |syms| == 3 * Visits(l, pix) && SymsOk(syms)
    decreases l.end - pix
  {
    if pix >= l.end then []
    else
      var val := image[pix];
      var head := SymsFor(Residual(image, pix, pred));
      var more := SymsOf(l, image, NextPix(l, pix), Update(pred, pix, val));
      SymsJoin(head, more);
      head + more
  }

  lemma SymsJoin(head: seq<nat>, more: seq<nat>)
    requires |head| == 3 && head[0] <= 7 && head[1] <= 7 && head[2] <= 3 && SymsOk(more)
    ensures SymsOk(head + more)
  {
    var all := head + more;
    forall i | 0 <= i < |all| ensures all[i] <= MaskOf(i % 3) {
      if i >= 3 { assert all[i] == more[i - 3]; assert i % 3 == (i - 3) % 3; }
    }
  }

  /** The visited pixels of `image`, the others of `raw`. */
  ghost predicate Blend(l: Layout, image: seq<byte>, raw: seq<int>, pix: nat, r: seq<int>)
    requires l.Ok() && |image| >= l.end && |raw| >= l.end
  {
    |r| == |raw| && forall k :: 0 <= k < |raw| ==>
      r[k] == if Visited(l, pix, k) && k < l.end then image[k] else raw[k]
  }

  lemma {:induction false} VisitedBounds(l: Layout, pix: nat, k: nat)
    requires l.Ok() && Visited(l, pix, k)
    ensures pix <= k < l.end
    decreases l.end - pix
  {
    if k != pix { VisitedBounds(l, NextPix(l, pix), k); }
  }

  /** Difference of pixel `pix` to its prediction. */
  function Residual(image: seq<byte>, pix: nat, pred: (byte, byte)): byte
    requires pix < |image|
  {
    (image[pix] - (if pix % 2 == 0 then pred.0 else pred.1)) % 0x100
  }

  lemma ResidualBack(image: seq<byte>, pix: nat, pred: (byte, byte))
    requires pix < |image|
    ensures Predicted(pred, pix, Residual(image, pix, pred)) == image[pix]
  {
  }

  lemma SymsSplit(l: Layout, image: seq<byte>, pix: nat, pred: (byte, byte))
    requires l.Ok() && |image| >= l.end && pix < l.end
    ensures var syms, head := SymsOf(l, image, pix, pred), SymsFor(Residual(image, pix, pred));
            && |syms| >= 3 && syms[0] == head[0] && syms[1] == head[1] && syms[2] == head[2]
            && syms[3..] == SymsOf(l, image, NextPix(l, pix), Update(pred, pix, image[pix]))
  {
    hide SymsFor, SymsOk, NextPix, Residual;
  }

  lemma PixelsUnfold(l: Layout, syms: seq<nat>, pix: nat, pred: (byte, byte), raw: seq<int>)
    requires l.Ok() && pix < l.end <= |raw| && |syms| == 3 * Visits(l, pix) && SymsOk(syms)
    ensures |syms| >= 3 && SymsTriple(syms) && |syms[3..]| == 3 * Visits(l, NextPix(l, pix)) && SymsOk(syms[3..])
    ensures var val := Predicted(pred, pix, Diff(syms[0], syms[1], syms[2]));
            PixelsOf(l, syms, pix, pred, raw) ==
            PixelsOf(l, syms[3..], NextPix(l, pix), Update(pred, pix, val), raw[pix := val])
  {
    hide Diff, SymsOk, NextPix, Predicted;
    SymsTail(syms);
  }

  predicate SymsTriple(syms: seq<nat>) { |syms| >= 3 && syms[0] <= 7 && syms[1] <= 7 && syms[2] <= 3 }

  /** The first pixel's symbols make that pixel, and the others' the rest. */
  lemma PixelsStep(l: Layout, image: seq<byte>, pix: nat, pred: (byte, byte), raw: seq<int>)
    requires l.Ok() && |image| >= l.end && |raw| >= l.end && pix < l.end
    ensures var next, p := NextPix(l, pix), Update(pred, pix, image[pix]);
            PixelsOf(l, SymsOf(l, image, pix, pred), pix, pred, raw) == PixelsOf(l, SymsOf(l, image, next, p), next, p, raw[pix := image[pix]])
  {
    hide *;
    DiffBack(Residual(image, pix, pred));
    ResidualBack(image, pix, pred);
    SymsSplit(l, image, pix, pred);
    PixelsUnfold(l, SymsOf(l, image, pix, pred), pix, pred, raw);
  }

  /** The pixels come back, and the holes keep what they had. */
  lemma {:induction false} PixelsBack(l: Layout, image: seq<byte>, pix: nat, pred: (byte, byte), raw: seq<int>)
    requires l.Ok() && |image| >= l.end && |raw| >= l.end
    ensures Blend(l, image, raw, pix, PixelsOf(l, SymsOf(l, image, pix, pred), pix, pred, raw))
    decreases l.end - pix
  {
    hide NextPix, SymsOf;
    if pix < l.end {
      hide PixelsOf, Blend;
      PixelsStep(l, image, pix, pred, raw);
      PixelsBack(l, image, NextPix(l, pix), Update(pred, pix, image[pix]), raw[pix := image[pix]]);
      BlendStep(l, image, raw, pix, PixelsOf(l, SymsOf(l, image, pix, pred), pix, pred, raw));
    }
  }

  lemma BlendStep(l: Layout, image: seq<byte>, raw: seq<int>, pix: nat, r: seq<int>)
    requires l.Ok() && |image| >= l.end && |raw| >= l.end && pix < l.end
    requires Blend(l, image, raw[pix := image[pix]], NextPix(l, pix), r)
    ensures Blend(l, image, raw, pix, r)
  {
    hide NextPix;
    forall k | 0 <= k < |raw|
      ensures r[k] == if Visited(l, pix, k) && k < l.end then image[k] else raw[k]
    {
      if Visited(l, NextPix(l, pix), k) { VisitedBounds(l, NextPix(l, pix), k); }
    }
  }

  // ---------------------------------------------------------------- the decoder

  lemma DecodeStep(c: Coder, i: nat, n: nat, bits: seq<bool>)
    requires ModelOk(c.m) && c.since <= 8 && n > 0 && DecodeSyms(c, i, n, bits).Some?
    ensures var d := DecodeSyms(c, i, n, bits).value;
            var r := DecodeSym(c, i % 3, bits);
            && r.Some? && d.syms[0] == r.value.0 && d.left[0] == |r.value.2|
            && DecodeSyms(r.value.1, i + 1, n - 1, r.value.2) == Some(d.(syms := d.syms[1..], left := d.left[1..]))
  {
    hide DecodeSym;
  }

  /** Symbols of table `s` are at most its mask. */
  lemma {:induction false} DecodedOk(c: Coder, i: nat, n: nat, bits: seq<bool>, k: nat)
    requires ModelOk(c.m) && c.since <= 8 && DecodeSyms(c, i, n, bits).Some? && k < n
    ensures DecodeSyms(c, i, n, bits).value.syms[k] <= MaskOf((i + k) % 3)
    decreases n
  {
    hide DecodeSyms, DecodeSym;
    DecodeStep(c, i, n, bits);
    if k > 0 {
      var r := DecodeSym(c, i % 3, bits).value;
      DecodedOk(r.1, i + 1, n - 1, r.2, k - 1);
    }
  }

  lemma DecodedSymsOk(c: Coder, i: nat, n: nat, bits: seq<bool>)
    requires ModelOk(c.m) && c.since <= 8 && DecodeSyms(c, i, n, bits).Some? && i % 3 == 0
    ensures SymsOk(DecodeSyms(c, i, n, bits).value.syms)
  {
    hide DecodeSyms;
    var syms := DecodeSyms(c, i, n, bits).value.syms;
    forall k | 0 <= k < |syms| ensures syms[k] <= MaskOf(k % 3) {
      DecodedOk(c, i, n, bits, k);
    }
  }

  /** What the rest of the stream decodes to. */
  ghost predicate Leads(sm: Smal, c: Coder, i: nat, d: Option<Decoded>, done: nat)
    requires sm.Valid()
    reads sm, sm.buf, sm.hist
  {
    d.Some? ==>
      && ModelOk(c.m) && sm.Stands(c) && done <= |d.value.syms| == |d.value.left|
      && DecodeSyms(c, i + done, |d.value.syms| - done, sm.buf.Rest()) ==
         Some(d.value.(syms := d.value.syms[done..], left := d.value.left[done..]))
  }

  /** `n` bits are left, and the reader is where that puts it. */
  ghost predicate BitsLeft(sm: Smal, n: nat)
    reads sm, sm.buf, sm.hist
  {
    sm.Valid() && sm.buf.Valid() && sm.buf.vbits >= 0 && |sm.buf.Rest()| == n
  }

  /** One symbol of the three. */
  method NextSymbol(sm: Smal, ghost c0: Coder, ghost i: nat, ghost d: Option<Decoded>, s: nat) returns (bin: nat, ghost c: Coder)
    requires sm.Valid() && s < 3
    requires d.Some? ==> i % 3 == 0 && Leads(sm, c0, i, d, s) && s < |d.value.syms|
    modifies sm, sm.buf, sm.hist
    ensures sm.Valid() && bin <= MaskOf(s)
    ensures d.Some? ==>
              && Leads(sm, c, i, d, s + 1) && |d.value.left| == |d.value.syms| && BitsLeft(sm, d.value.left[s])
              && bin == d.value.syms[s] && sm.buf.failed == old(sm.buf.failed)
  {
    hide Smal.Valid, Smal.Stands, DecodeSyms, DecodeSym, BitBuf.Rest, ModelOk;
    c := c0;
    ghost var r := None;
    sm.Means(c);
    if d.Some? {
      r := DecodeSym(c, s, sm.buf.Rest());
      DecodeStep(c, i + s, |d.value.syms| - s, sm.buf.Rest());
    }
    bin := sm.Symbol(s, c, r);
    if d.Some? {
      c := r.value.1;
      sm.Means(c);
    }
  }

  lemma LeadsLength(sm: Smal, c: Coder, i: nat, d: Option<Decoded>, done: nat)
    requires sm.Valid() && d.Some? && Leads(sm, c, i, d, done)
    ensures |d.value.left| == |d.value.syms|
  {
  }

  /** The symbol loop: three symbols make a difference. */
  method Difference(sm: Smal, ghost c0: Coder, ghost i: nat, ghost d: Option<Decoded>) returns (diff: byte, ghost c: Coder)
    requires sm.Valid() && (d.Some? ==> i % 3 == 0 && Leads(sm, c0, i, d, 0) && |d.value.syms| >= 3 && SymsOk(d.value.syms))
    modifies sm, sm.buf, sm.hist
    ensures sm.Valid()
    ensures d.Some? ==>
              && Leads(sm, c, i, d, 3)
              && |d.value.left| >= 3 && BitsLeft(sm, d.value.left[2])
              && SymsTriple(d.value.syms) && diff == Diff(d.value.syms[0], d.value.syms[1], d.value.syms[2]) && sm.buf.failed == old(sm.buf.failed)
  {
    hide Smal.Valid, Smal.Stands, DecodeSyms, DecodeSym, BitBuf.Rest, Diff, SymsOk, ModelOk, Leads, BitsLeft;
    if d.Some? {
      LeadsLength(sm, c0, i, d, 0);
      SymsTail(d.value.syms);
    }
    c := c0;
    var sym: seq<nat> := [];
    var s := 0;
    while s < 3
      invariant 0 <= s <= 3 && sm.Valid() && (d.Some? ==> Leads(sm, c, i, d, s))
      invariant |sym| == s && forall k :: 0 <= k < s ==> sym[k] <= MaskOf(k)
      invariant d.Some? && s > 0 ==> BitsLeft(sm, d.value.left[s - 1])
      invariant d.Some? ==> sym == d.value.syms[..s] && sm.buf.failed == old(sm.buf.failed)
    {
      var bin;
      bin, c := NextSymbol(sm, c, i, d, s);
      sym := sym + [bin];
      s := s + 1;
    }
    diff := Diff(sym[0], sym[1], sym[2]);
  }

  // ---------------------------------------------------------------- the end of a segment

  /** `ftell(ifp) + 12 >= seg[1][1]`, with `left` bits left of a file of `size` bytes. */
  predicate Late(left: nat, size: nat, segEnd: nat) { size - left / 8 + 12 >= segEnd }

  /** The symbols that count: where the reader has come near the end of the segment the
      difference is 0. */
  function Trimmed(syms: seq<nat>, left: seq<nat>, size: nat, segEnd: nat): (r: seq<nat>)
    requires SymsOk(syms) && |syms| == |left| && |syms| % 3 == 0
    ensures |r| == |syms| && SymsOk(r)
  {
    if |syms| < 3 then []
    else
      var head := if Late(left[2], size, segEnd) then [0, 0, 0] else syms[..3];
      SymsTail(syms);
      var more := Trimmed(syms[3..], left[3..], size, segEnd);
      SymsJoin(head, more);
      head + more
  }

  lemma TrimmedOne(syms: seq<nat>, left: seq<nat>, size: nat, segEnd: nat)
    requires SymsOk(syms) && |syms| == |left| && |syms| % 3 == 0 && |syms| >= 3
    ensures SymsOk(syms[3..]) && SymsTriple(syms)
    ensures var r := Trimmed(syms, left, size, segEnd);
            && SymsTriple(r) && r[3..] == Trimmed(syms[3..], left[3..], size, segEnd)
            && Diff(r[0], r[1], r[2]) == if Late(left[2], size, segEnd) then 0 else Diff(syms[0], syms[1], syms[2])
  {
    SymsTail(syms);
    hide SymsOk, Late;
  }

  /** Where the segment has no end in the file, all symbols count. */
  lemma {:induction false} NothingTrimmed(syms: seq<nat>, left: seq<nat>, size: nat, segEnd: nat)
    requires SymsOk(syms) && |syms| == |left| && |syms| % 3 == 0 && segEnd > size + 12
    ensures Trimmed(syms, left, size, segEnd) == syms
  {
    if |syms| >= 3 {
      SymsTail(syms);
      hide SymsOk;
      assert !Late(left[2], size, segEnd);
      NothingTrimmed(syms[3..], left[3..], size, segEnd);
      assert syms == syms[..3] + syms[3..];
    }
  }

  lemma LeadsOn(sm: Smal, c: Coder, i: nat, d: Decoded)
    requires sm.Valid() && Leads(sm, c, i, Some(d), 3) && SymsOk(d.syms)
    ensures |d.syms| >= 3 && |d.left| >= 3 && SymsOk(d.syms[3..])
    ensures Leads(sm, c, i + 3, Some(d.(syms := d.syms[3..], left := d.left[3..])), 0)
  {
    hide DecodeSyms, Smal.Valid, Smal.Stands;
    SymsTail(d.syms);
    assert d.syms[3..][0..] == d.syms[3..] && d.left[3..][0..] == d.left[3..];
  }

  /** Symbols for the pixels from `pix` on. */
  ghost predicate FitsPixels(l: Layout, pix: nat, d: Decoded)
    requires l.Ok()
  {
    SymsOk(d.syms) && |d.left| == |d.syms| == 3 * Visits(l, pix) && |d.syms| % 3 == 0
  }

  /** The raster that decoded symbols make, with the end of the segment taken into account. */
  ghost function Painted(l: Layout, d: Decoded, size: nat, segEnd: nat, pix: nat, pred: (byte, byte), raw: seq<int>): (r: seq<int>)
    requires l.Ok() && FitsPixels(l, pix, d) && |raw| >= l.end
    ensures |r| == |raw|
  {
    PixelsOf(l, Trimmed(d.syms, d.left, size, segEnd), pix, pred, raw)
  }

  /** With the pixels before `pix` stored, what is still to come makes the raster `goal`. */
  ghost predicate Ahead(l: Layout, segEnd: nat, sm: Smal, c: Coder, i: nat, d: Option<Decoded>, pix: nat, pred: (byte, byte), raw: seq<int>, goal: seq<int>)
    requires sm.Valid() && l.Ok() && |raw| >= l.end
    reads sm, sm.buf, sm.hist
  {
    d.Some? ==>
      && i % 3 == 0 && Leads(sm, c, i, d, 0) && FitsPixels(l, pix, d.value)
      && Painted(l, d.value, |sm.buf.file|, segEnd, pix, pred, raw) == goal
  }

  /** The pixel loop of smal_decode_segment, from pixel `first` to `last` or the end of the
      raster. `segEnd` is where the next segment's code begins: differences that are decoded
      near there are dropped. When the stream lasts, the raster becomes what the decoded symbols
      say. */
  method Segment(sm: Smal, rawWidth: nat, rawHeight: nat, holes: nat, first: nat, last: nat, segEnd: nat, raw: array<ushort>, ghost d: Option<Decoded>)
    requires sm.Valid() && rawWidth > 0 && raw.Length == rawWidth * rawHeight && holes < 0x1_0000_0000
    requires forall s :: 0 <= s < |sm.hist| ==> (sm.hist[s] as object) != raw
    requires d.Some? ==>
               var l := Layout(rawWidth, rawHeight, holes, if last > raw.Length then raw.Length else last);
               && sm.Stands(Coder(Start(), 0, 8)) && ModelOk(Start())
               && d == DecodeSyms(Coder(Start(), 0, 8), 0, 3 * Visits(l, first), sm.buf.Rest())
    modifies sm, sm.buf, sm.hist, raw
    ensures sm.Valid()
    ensures d.Some? ==>
              var l := Layout(rawWidth, rawHeight, holes, if last > raw.Length then raw.Length else last);
              && FitsPixels(l, first, d.value)
              && raw[..] == Painted(l, d.value, |sm.buf.file|, segEnd, first, (0, 0), old(raw[..]))
              && sm.buf.failed == old(sm.buf.failed)
  {
    hide Smal.Valid, Smal.Stands, DecodeSyms, BitBuf.Rest, Diff, SymsOk, ModelOk, NextPix, Start, Painted, FitsPixels, Visits, Leads, Hole, Trimmed;
    var l := Layout(rawWidth, rawHeight, holes, if last > raw.Length then raw.Length else last);
    var pred: (byte, byte) := (0, 0);
    ghost var c, i, now, goal := Coder(Start(), 0, 8), 0, d, raw[..];
    if d.Some? {
      sm.Means(c);
      FirstFits(l, first, c, d.value, sm.buf.Rest());
      goal := Painted(l, d.value, |sm.buf.file|, segEnd, first, (0, 0), raw[..]);
      LeadsFirst(sm, c, d.value);
    }
    var pix := first;
    while pix < l.end
      invariant sm.Valid() && Ahead(l, segEnd, sm, c, i, now, pix, pred, raw[..], goal)
      invariant d.Some? == now.Some? && (d.Some? ==> sm.buf.failed == old(sm.buf.failed))
      decreases l.end - pix
    {
      ghost var was := raw[..];
      if now.Some? { AheadStep(l, now.value, |sm.buf.file|, segEnd, pix, pred, was); }
      var diff;
      diff, c := Difference(sm, c, i, now);
      sm.InFile();
      if now.Some? { WhereNow(sm, now.value.left[2], segEnd); }
      if sm.buf.pos + 12 >= segEnd { diff := 0; }
      var val := Predicted(pred, pix, diff);
      raw[pix] := val;
      assert raw[..] == was[pix := val];
      if now.Some? {
        LeadsOn(sm, c, i, now.value);
        now := Some(now.value.(syms := now.value.syms[3..], left := now.value.left[3..]));
      }
      pred := Update(pred, pix, val);
      i := i + 3;
      pix := NextPix(l, pix);
    }
    if d.Some? { NoPixels(l, now.value, |sm.buf.file|, segEnd, pix, pred, raw[..]); }
  }

  lemma WhereNow(sm: Smal, left: nat, segEnd: nat)
    requires sm.Valid() && BitsLeft(sm, left)
    ensures Late(left, |sm.buf.file|, segEnd) <==> sm.buf.pos + 12 >= segEnd
  {
    sm.InFile();
  }

  lemma FirstFits(l: Layout, pix: nat, c: Coder, d: Decoded, bits: seq<bool>)
    requires l.Ok() && ModelOk(c.m) && c.since <= 8 && DecodeSyms(c, 0, 3 * Visits(l, pix), bits) == Some(d)
    ensures FitsPixels(l, pix, d)
  {
    hide DecodeSyms, DecodeSym, Visits, SymsOk, ModelOk;
    DecodedSymsOk(c, 0, 3 * Visits(l, pix), bits);
    DivUnique(3 * Visits(l, pix), 3, Visits(l, pix), 0);
  }

  /** One pixel of the trimmed symbols. */
  lemma AheadStep(l: Layout, d: Decoded, size: nat, segEnd: nat, pix: nat, pred: (byte, byte), raw: seq<int>)
    requires l.Ok() && pix < l.end <= |raw| && FitsPixels(l, pix, d)
    ensures |d.syms| >= 3 && |d.left| >= 3 && SymsOk(d.syms) && SymsTriple(d.syms)
    ensures FitsPixels(l, NextPix(l, pix), d.(syms := d.syms[3..], left := d.left[3..]))
    ensures var diff := if Late(d.left[2], size, segEnd) then 0 else Diff(d.syms[0], d.syms[1], d.syms[2]);
            var val := Predicted(pred, pix, diff);
            Painted(l, d, size, segEnd, pix, pred, raw) ==
            Painted(l, d.(syms := d.syms[3..], left := d.left[3..]), size, segEnd, NextPix(l, pix), Update(pred, pix, val), raw[pix := val])
  {
    hide Diff, SymsOk, NextPix, Predicted, Late, Trimmed, PixelsOf;
    PixelsUnfold(l, Trimmed(d.syms, d.left, size, segEnd), pix, pred, raw);
    TrimmedOne(d.syms, d.left, size, segEnd);
  }

  lemma LeadsFirst(sm: Smal, c: Coder, d: Decoded)
    requires sm.Valid() && sm.Stands(c) && ModelOk(c.m) && DecodeSyms(c, 0, |d.syms|, sm.buf.Rest()) == Some(d)
    ensures Leads(sm, c, 0, Some(d), 0)
  {
    assert d.syms[0..] == d.syms && d.left[0..] == d.left;
  }

  lemma NoPixels(l: Layout, d: Decoded, size: nat, segEnd: nat, pix: nat, pred: (byte, byte), raw: seq<int>)
    requires l.Ok() && l.end <= |raw| && pix >= l.end && FitsPixels(l, pix, d)
    ensures Painted(l, d, size, segEnd, pix, pred, raw) == raw
  {
    hide Trimmed;
  }

  lemma NoHole(l: Layout, row: int)
    requires l.holes == 0
    ensures !Hole(l, row)
  {
    DivUnique(0, Pow2((row - l.rawHeight) % 8), 0, 0);
  }

  /** Without holes every pixel is visited. */
  lemma {:induction false} AllVisited(l: Layout, pix: nat, k: nat)
    requires l.Ok() && l.holes == 0 && pix <= k < l.end
    ensures Visited(l, pix, k)
    decreases k - pix
  {
    if pix < k {
      NoHole(l, pix / l.rawWidth);
      AllVisited(l, NextPix(l, pix), k);
    }
  }

  /** get2: two bytes in the order of the file, 0xff where it has ended. */
  function Get2(file: seq<byte>, pos: nat, little: bool): (v: nat)
    ensures v < 0x1_0000
  {
    var a: nat, b: nat := if pos < |file| then file[pos] else 0xff, if pos + 1 < |file| then file[pos + 1] else 0xff;
    if little then a + b * 0x100 else a * 0x100 + b
  }

  /** The file holds the image, coded one byte behind the offset that its bytes 16 and 17 give. */
  ghost predicate HoldsImage(file: seq<byte>, little: bool, rawWidth: nat, rawHeight: nat, image: seq<byte>, tail: seq<bool>) {
    && rawWidth > 0 && |image| == rawWidth * rawHeight
    && var offset := Get2(file, 16, little);
    && offset + 1 <= |file| < 0x7fff_ff00
    && BytesToBits(file[offset + 1..]) == Encoded(SymsOf(Layout(rawWidth, rawHeight, 0, |image|), image, 0, (0, 0))) + tail
  }

  /** smal_v6_load_raw. A file that holds an image gives that image back. */
  method LoadV6(file: seq<byte>, little: bool, rawWidth: nat, rawHeight: nat, raw: array<ushort>, ghost image: seq<byte>, ghost tail: seq<bool>)
    returns (failed: bool)
    requires HoldsImage(file, little, rawWidth, rawHeight, image, tail) && raw.Length == |image|
    modifies raw
    ensures raw[..] == image && !failed
  {
    hide PixelsOf, SymsOf, Trimmed, BytesToBits, Encoded, Start, ModelOk, DecodeSyms, Smal.Valid, Smal.Stands, SymsOk, Get2;
    var offset := Get2(file, 16, little);
    var sm := new Smal(file, offset + 1);
    ghost var l := Layout(rawWidth, rawHeight, 0, |image|);
    ghost var syms := SymsOf(l, image, 0, (0, 0));
    ghost var end, left, rest := RoundTrip(syms, tail);
    NothingTrimmed(syms, left, |file|, 0x7fff_ffff);
    ghost var was := raw[..];
    PixelsBack(l, image, 0, (0, 0), was);
    Segment(sm, rawWidth, rawHeight, 0, 0, rawWidth * rawHeight, 0x7fff_ffff, raw, Some(Decoded(syms, left, end, rest + tail)));
    forall k | 0 <= k < |image| ensures raw[k] == image[k] { AllVisited(l, 0, k); }
    assert raw[..] == image;
    failed := sm.buf.failed;
  }
}
