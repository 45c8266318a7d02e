/** Files that hold a SMaL image: how long its code can get, and that every image up to a size has
    such a file. */
module SmalFile {
  import opened Bits
  import opened SmalTable
  import opened SmalBits
  import opened SmalCoder
  import opened SmalPixels

  /** At most one extra bit comes with every eight. */
  lemma {:induction false} StuffedLength(since: nat, v: nat, value: seq<bool>)
    requires since <= 8
    ensures |Stuffed(since, v, value)| <= |value| + (since + |value|) / 8
    decreases |value|
  {
    if value != [] {
      var w, s := 2 * v + Bit(value[0]), Count8(since, 1);
      StuffedLength(if Carrying(s, w) then 0 else s, w, value[1..]);
    }
  }

  /** A symbol takes at most six bits. */
  lemma {:induction false} CodeLength(m: Model, syms: seq<nat>, i: nat)
    requires ModelOk(m) && SymsOk(syms) && i <= |syms|
    ensures Encode(m, syms, i).bits <= 6 * (|syms| - i)
    decreases |syms| - i
  {
    hide ModelOk, MaskOf, Adapt, LowOf, TopOf, Shl;
    if i < |syms| {
      NextOk(m, i % 3, syms[i]);
      CodeLength(Next(m, i % 3, syms[i]), syms, i + 1);
    }
  }

  lemma EncodedLength(syms: seq<nat>)
    requires SymsOk(syms)
    ensures |Encoded(syms)| <= 10 + 6 * |syms| + 6 * |syms| / 8
  {
    hide Encode, Stuffed, FromNat, ModelOk, Start, SymsOk;
    StartOk();
    var code := Encode(Start(), syms, 0);
    CodeLength(Start(), syms, 0);
    StuffedLength(8, 0, FromNat(code.low, 8 + code.bits));
  }

  lemma {:induction false} VisitsFit(l: Layout, pix: nat)
    requires l.Ok() && pix <= l.end
    ensures Visits(l, pix) <= l.end - pix
    decreases l.end - pix
  {
    hide NextPix;
    if pix < l.end {
      if NextPix(l, pix) <= l.end { VisitsFit(l, NextPix(l, pix)); }
    }
  }

  /** Bits of an image at most. */
  lemma ImageLength(rawWidth: nat, rawHeight: nat, image: seq<byte>)
    requires rawWidth > 0 && |image| == rawWidth * rawHeight
    ensures |Encoded(SymsOf(Layout(rawWidth, rawHeight, 0, |image|), image, 0, (0, 0)))| <= 10 + 20 * |image| + |image| / 4 + 1
  {
    hide Encoded, SymsOf, Visits, SymsOk;
    var l := Layout(rawWidth, rawHeight, 0, |image|);
    VisitsFit(l, 0);
    EncodedLength(SymsOf(l, image, 0, (0, 0)));
  }

  /** The two bytes of an offset. */
  function Two(v: nat, little: bool): (s: seq<byte>)
    requires v < 0x1_0000
    ensures |s| == 2 && Get2(s, 0, little) == v
  {
    if little then [v % 0x100, v / 0x100] else [v / 0x100, v % 0x100]
  }

  lemma Get2At(a: seq<byte>, s: seq<byte>, b: seq<byte>, little: bool)
    requires |s| == 2
    ensures Get2(a + s + b, |a|, little) == Get2(s, 0, little)
  {
  }

  /** Every image of up to 838 million pixels has a file that holds it, in either byte order and
      wherever behind its header the code begins. */
  lemma ImageHasFile(little: bool, rawWidth: nat, rawHeight: nat, image: seq<byte>, offset: nat) returns (file: seq<byte>, tail: seq<bool>)
    requires rawWidth > 0 && |image| == rawWidth * rawHeight <= 0x3200_0000 && 17 <= offset < 0x1_0000
    ensures HoldsImage(file, little, rawWidth, rawHeight, image, tail)
  {
    hide Get2, Encoded, SymsOf, BytesToBits, BitsToBytes, SymsOk;
    var enc := Encoded(SymsOf(Layout(rawWidth, rawHeight, 0, |image|), image, 0, (0, 0)));
    ImageLength(rawWidth, rawHeight, image);
    var code, head, gap := BitsToBytes(enc), seq(16, _ => 0), seq(offset - 17, _ => 0);
    file := head + Two(offset, little) + (gap + code);
    Get2At(head, Two(offset, little), gap + code, little);
    assert file[offset + 1..] == code;
    var fill := BytesSpell(enc);
    tail := Zeros(fill);
  }
}
