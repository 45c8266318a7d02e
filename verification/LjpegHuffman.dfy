/** The Huffman tables of dcraw's lossless JPEG path: make_decoder_ref against the canonical
    code of section C.2 of ITU-T T.81. */
module LjpegHuffman {
  import opened Bits

  /** How many codes there are of length 1, 2, ..., `l`. */
  function HuffSizes(counts: seq<nat>, l: nat): (sizes: seq<nat>)
    requires l <= |counts|
    ensures forall k :: 0 <= k < |sizes| ==> 1 <= sizes[k] <= l
  {
    if l == 0 then [] else HuffSizes(counts, l - 1) + seq(counts[l - 1], _ => l)
  }

  /** Figure C.2 of T.81: the code of symbol `k` is one more than the previous code, moved to
      the left where the length grows. */
  function HuffCode(sizes: seq<nat>, k: nat): nat
    requires k < |sizes| && Ascending(sizes)
  {
    if k == 0 then 0 else Shl(HuffCode(sizes, k - 1) + 1, sizes[k] - sizes[k - 1])
  }

  predicate Ascending(sizes: seq<nat>) {
    forall i, j :: 0 <= i <= j < |sizes| ==> sizes[i] <= sizes[j]
  }

  /** Table entries before symbol `k`, when the look-ahead is `max` bits. */
  function Start(sizes: seq<nat>, max: nat, k: nat): nat
    requires k <= |sizes| && forall i :: 0 <= i < |sizes| ==> sizes[i] <= max
  {
    if k == 0 then 0 else Start(sizes, max, k - 1) + Pow2(max - sizes[k - 1])
  }

  /** Kraft's inequality: the codes fit. */
  predicate Fits(sizes: seq<nat>, max: nat) {
    && Ascending(sizes) && (forall i :: 0 <= i < |sizes| ==> 1 <= sizes[i] <= max)
    && Start(sizes, max, |sizes|) <= Pow2(max)
  }

  /** The code of symbol `k` as bits. */
  function CodeBits(sizes: seq<nat>, k: nat): (s: seq<bool>)
    requires k < |sizes| && Ascending(sizes)
    ensures |s| == sizes[k]
  {
    FromNat(HuffCode(sizes, k), sizes[k])
  }

  lemma {:induction false} SizesAscending(counts: seq<nat>, l: nat)
    requires l <= |counts|
    ensures Ascending(HuffSizes(counts, l))
  {
    if l > 0 { SizesAscending(counts, l - 1); }
  }

  lemma {:induction false} StartMonotone(sizes: seq<nat>, max: nat, k: nat, m: nat)
    requires k <= m <= |sizes| && forall i :: 0 <= i < |sizes| ==> sizes[i] <= max
    ensures Start(sizes, max, k) <= Start(sizes, max, m)
    ensures k < m ==> Start(sizes, max, k) + Pow2(max - sizes[k]) <= Start(sizes, max, m)
    decreases m
  {
    if k < m { StartMonotone(sizes, max, k, m - 1); }
  }

  lemma ShlSucc(v: nat, n: nat)
    ensures Shl(v + 1, n) == Shl(v, n) + Pow2(n)
  {
    var x := Pow2(n);
    assert (v + 1) * x == v * x + x;
  }

  /** The canonical code, shifted to the look-ahead width, is the symbol's place in the table. */
  lemma {:induction false} CodeIsStart(sizes: seq<nat>, max: nat, k: nat)
    requires Ascending(sizes) && (forall i :: 0 <= i < |sizes| ==> sizes[i] <= max) && k < |sizes|
    ensures Shl(HuffCode(sizes, k), max - sizes[k]) == Start(sizes, max, k)
  {
    hide Shl;
    if k == 0 {
      ShlZero(0, max - sizes[k]);
    } else {
      var c, s, t := HuffCode(sizes, k - 1), sizes[k - 1], sizes[k];
      CodeIsStart(sizes, max, k - 1);
      ShlTwice(c + 1, t - s, max - t);
      ShlSucc(c, max - s);
    }
  }

  lemma ShlOrder(a: nat, b: nat, n: nat)
    requires Shl(a, n) <= Shl(b, n)
    ensures a <= b
  {
    var q := Pow2(n);
    assert q * (b - a) == b * q - a * q;
    MulSign(q, b - a);
  }

  lemma CodeBelow(sizes: seq<nat>, max: nat, k: nat)
    requires Fits(sizes, max) && k < |sizes|
    ensures HuffCode(sizes, k) < Pow2(sizes[k])
  {
    hide Shl, Pow2, HuffCode;
    var c, s := HuffCode(sizes, k), sizes[k];
    CodeIsStart(sizes, max, k);
    StartMonotone(sizes, max, k, |sizes|);
    ShlSucc(c, max - s);
    Pow2Add(s, max - s);
    ShlOrder(c + 1, Pow2(s), max - s);
  }

  /** Whatever follows a symbol's code, the look-ahead falls into that symbol's part of the
      table, even when the stream ends before the look-ahead is full. */
  lemma LookAhead(sizes: seq<nat>, max: nat, k: nat, rest: seq<bool>)
    requires Fits(sizes, max) && k < |sizes|
    ensures var i := ToNat(PadTake(CodeBits(sizes, k) + rest, max));
            Start(sizes, max, k) <= i < Start(sizes, max, k) + Pow2(max - sizes[k])
  {
    hide Shl, Fits, ToNat, HuffCode, Start, PadTake, FromNat, Pow2;
    assert Ascending(sizes) && sizes[k] <= max && (forall i :: 0 <= i < |sizes| ==> sizes[i] <= max) by { FitsMeans(sizes, max); }
    var code, s := CodeBits(sizes, k), sizes[k];
    var more := PadTake(rest, max - s);
    CodeBelow(sizes, max, k);
    ToNatFromNat(HuffCode(sizes, k), s);
    PadAfter(code, rest, max);
    ToNatConcat(code, more);
    ToNatBound(more);
    CodeIsStart(sizes, max, k);
  }

  lemma FitsMeans(sizes: seq<nat>, max: nat)
    requires Fits(sizes, max)
    ensures Ascending(sizes) && forall i :: 0 <= i < |sizes| ==> 1 <= sizes[i] <= max
  {
  }

  lemma PadAfter(a: seq<bool>, b: seq<bool>, n: nat)
    requires |a| <= n
    ensures PadTake(a + b, n) == a + PadTake(b, n - |a|)
  {
  }

  /** No code is the beginning of another symbol's code: the stream determines the symbol. */
  lemma PrefixFree(sizes: seq<nat>, max: nat, k: nat, m: nat, rest: seq<bool>, rest': seq<bool>)
    requires Fits(sizes, max) && k < |sizes| && m < |sizes|
    requires CodeBits(sizes, k) + rest == CodeBits(sizes, m) + rest'
    ensures k == m && rest == rest'
  {
    LookAhead(sizes, max, k, rest);
    LookAhead(sizes, max, m, rest');
    if k < m { StartMonotone(sizes, max, k, m); }
    if m < k { StartMonotone(sizes, max, m, k); }
    PadPrefix(CodeBits(sizes, k), rest);
    PadPrefix(CodeBits(sizes, m), rest');
  }

  // ---------------------------------------------------------------- the decoding table

  /** What make_decoder_ref writes for the first `k` symbols: length and symbol, once for every
      look-ahead value that starts with the code. */
  function Entries(sizes: seq<nat>, symbols: seq<byte>, max: nat, k: nat): (t: seq<nat>)
    requires k <= |sizes| <= |symbols| && forall i :: 0 <= i < |sizes| ==> sizes[i] <= max
    ensures |t| == Start(sizes, max, k)
  {
    if k == 0 then []
    else Entries(sizes, symbols, max, k - 1) + seq(Pow2(max - sizes[k - 1]), _ => Entry(sizes, symbols, k - 1))
  }

  function Entry(sizes: seq<nat>, symbols: seq<byte>, k: nat): nat
    requires k < |sizes| <= |symbols|
  {
    sizes[k] * 0x100 + symbols[k]
  }

  lemma {:induction false} EntriesAt(sizes: seq<nat>, symbols: seq<byte>, max: nat, n: nat, k: nat, i: nat)
    requires k < n <= |sizes| <= |symbols| && forall i :: 0 <= i < |sizes| ==> sizes[i] <= max
    requires Start(sizes, max, k) <= i < Start(sizes, max, k) + Pow2(max - sizes[k])
    ensures i < |Entries(sizes, symbols, max, n)| && Entries(sizes, symbols, max, n)[i] == Entry(sizes, symbols, k)
    decreases n
  {
    hide Entry, Pow2;
    StartMonotone(sizes, max, k, n);
    if k < n - 1 {
      EntriesAt(sizes, symbols, max, n - 1, k, i);
    }
  }

  /** At most `n` entries: the guard `h <= 1 << max` drops the others. */
  function Clip(s: seq<nat>, n: nat): (r: seq<nat>)
    ensures |r| <= n
  {
    if |s| <= n then s else s[..n]
  }

  function Counts(source: seq<byte>): (counts: seq<nat>)
    requires |source| >= 16
    ensures |counts| == 16
  {
    seq(16, i requires 0 <= i < 16 => source[i])
  }

  /** The longest length in use, 0 when there is no code. */
  function MaxSize(counts: seq<nat>, l: nat): (m: nat)
    requires l <= |counts|
    ensures m <= l && (m > 0 ==> counts[m - 1] > 0) && forall i :: m <= i < l ==> counts[i] == 0
  {
    if l == 0 || counts[l - 1] != 0 then l else MaxSize(counts, l - 1)
  }

  lemma {:induction false} SizesAbove(counts: seq<nat>, l: nat, m: nat)
    requires l <= m <= |counts|
    ensures |HuffSizes(counts, l)| <= |HuffSizes(counts, m)|
    ensures HuffSizes(counts, m)[..|HuffSizes(counts, l)|] == HuffSizes(counts, l)
    ensures (forall i :: l <= i < m ==> counts[i] == 0) ==> HuffSizes(counts, m) == HuffSizes(counts, l)
    decreases m
  {
    if l < m {
      SizesAbove(counts, l, m - 1);
    } else {
      var s := HuffSizes(counts, l);
      assert s[..|s|] == s;
    }
  }

  /** The codes of a source: their lengths in order. */
  function SizesOf(source: seq<byte>): (sizes: seq<nat>)
    requires |source| >= 16
    ensures forall k :: 0 <= k < |sizes| ==> 1 <= sizes[k] <= MaxSize(Counts(source), 16)
  {
    SizesAbove(Counts(source), MaxSize(Counts(source), 16), 16);
    HuffSizes(Counts(source), 16)
  }

  /** A decoding table: the look-ahead width, the entries of all symbols, and zeros. */
  ghost predicate TableOf(sizes: seq<nat>, symbols: seq<byte>, max: nat, huff: seq<nat>)
    requires |sizes| <= |symbols| && forall i :: 0 <= i < |sizes| ==> sizes[i] <= max
  {
    var t := Entries(sizes, symbols, max, |sizes|);
    && |huff| == 1 + Pow2(max) && huff[0] == max
    && (forall i :: 1 <= i < |huff| ==> huff[i] == if i <= |t| then t[i - 1] else 0)
  }

  /** The table a source stands for. */
  ghost predicate IsTable(source: seq<byte>, huff: seq<nat>)
    requires |source| >= 16 && |source| >= 16 + |SizesOf(source)|
  {
    TableOf(SizesOf(source), source[16..], MaxSize(Counts(source), 16), huff)
  }

  /** `for (max=16; max && !count[max]; max--);` */
  method FindMax(source: seq<byte>) returns (max: nat)
    requires |source| >= 16
    ensures max == MaxSize(Counts(source), 16)
  {
    max := 16;
    while max > 0 && source[max - 1] == 0
      invariant 0 <= max <= 16 && MaxSize(Counts(source), 16) == MaxSize(Counts(source), max)
    {
      max := max - 1;
    }
  }

  /** The innermost loop: one symbol's entry, as often as its length asks for. */
  method FillSymbol(huff: array<nat>, h0: nat, max: nat, len: nat, e: nat, ghost t: seq<nat>) returns (h: nat)
    requires len <= max && TablePart(huff[..], t, Pow2(max)) && h0 == 1 + |Clip(t, Pow2(max))|
    modifies huff
    ensures huff[0] == old(huff[0])
    ensures var t' := t + seq(Pow2(max - len), _ => e);
            TablePart(huff[..], t', Pow2(max)) && h == 1 + |Clip(t', Pow2(max))|
  {
    hide Pow2, TablePart;
    Pow2Positive(max);
    TableLength(huff[..], t, Pow2(max));
    h := h0;
    ghost var done := t;
    assert t + seq(0, _ => e) == t;
    var j := 0;
    while j < Pow2(max - len)
      invariant 0 <= j <= Pow2(max - len)
      invariant done == t + seq(j, _ => e)
      invariant huff[0] == old(huff[0]) && TablePart(huff[..], done, Pow2(max)) && h == 1 + |Clip(done, Pow2(max))|
    {
      PartStep(huff[..], done, Pow2(max), e);
      ghost var was := huff[..];
      if h <= Pow2(max) {
        huff[h] := e;
        assert huff[..] == was[h := e];
        h := h + 1;
      }
      done := done + [e];
      assert done == t + seq(j + 1, _ => e);
      j := j + 1;
    }
  }

  /** All symbols of one length. */
  method FillLength(huff: array<nat>, h0: nat, max: nat, len: nat, source: seq<byte>, used0: nat) returns (h: nat, used: nat)
    requires |source| >= 16 && |source| >= 16 + |SizesOf(source)| && max == MaxSize(Counts(source), 16) && 1 <= len <= max
    requires used0 == 16 + |HuffSizes(Counts(source), len - 1)| <= 16 + |SizesOf(source)|
    requires TablePart(huff[..], Entries(SizesOf(source), source[16..], max, used0 - 16), Pow2(max))
    requires h0 == 1 + |Clip(Entries(SizesOf(source), source[16..], max, used0 - 16), Pow2(max))|
    modifies huff
    ensures huff[0] == old(huff[0])
    ensures used == 16 + |HuffSizes(Counts(source), len)| <= 16 + |SizesOf(source)|
    ensures TablePart(huff[..], Entries(SizesOf(source), source[16..], max, used - 16), Pow2(max))
    ensures h == 1 + |Clip(Entries(SizesOf(source), source[16..], max, used - 16), Pow2(max))|
  {
    hide Pow2, TablePart, Clip, MaxSize, SizesOf, Entry, Entries, HuffSizes;
    ghost var counts := Counts(source);
    ghost var sizes := SizesOf(source);
    ghost var symbols := source[16..];
    LengthSlice(source, len);
    h, used := h0, used0;
    TableLength(huff[..], Entries(sizes, symbols, max, used - 16), Pow2(max));
    var i := 0;
    while i < source[len - 1]
      invariant 0 <= i <= source[len - 1]
      invariant used == used0 + i && used <= 16 + |sizes|
      invariant huff[0] == old(huff[0])
      invariant TablePart(huff[..], Entries(sizes, symbols, max, used - 16), Pow2(max))
      invariant h == 1 + |Clip(Entries(sizes, symbols, max, used - 16), Pow2(max))|
    {
      assert sizes[used - 16] == len;
      NextEntries(sizes, symbols, max, used - 16);
      h := FillSymbol(huff, h, max, len, len * 0x100 + source[used], Entries(sizes, symbols, max, used - 16));
      used := used + 1;
      i := i + 1;
    }
  }

  lemma NextEntries(sizes: seq<nat>, symbols: seq<byte>, max: nat, k: nat)
    requires k < |sizes| <= |symbols| && forall i :: 0 <= i < |sizes| ==> sizes[i] <= max
    ensures Entries(sizes, symbols, max, k + 1) ==
            Entries(sizes, symbols, max, k) + seq(Pow2(max - sizes[k]), _ => sizes[k] * 0x100 + symbols[k])
  {
  }

  /** Where the codes of one length sit in the list of lengths. */
  lemma LengthSlice(source: seq<byte>, len: nat)
    requires |source| >= 16 && 1 <= len <= 16
    ensures var a, b := |HuffSizes(Counts(source), len - 1)|, |HuffSizes(Counts(source), len)|;
            && b == a + source[len - 1] && b <= |SizesOf(source)|
            && forall k :: a <= k < b ==> SizesOf(source)[k] == len
  {
    var counts := Counts(source);
    SizesAbove(counts, len - 1, 16);
    SizesAbove(counts, len, 16);
    var a, b := |HuffSizes(counts, len - 1)|, |HuffSizes(counts, len)|;
    forall k | a <= k < b ensures SizesOf(source)[k] == len {
      assert SizesOf(source)[..b][k] == HuffSizes(counts, len)[k];
    }
  }

  /** make_decoder_ref. Entries that no code reaches stay zero; whatever the counts, no write
      leaves the table. `used` is how far the source pointer moved. */
  method MakeDecoder(source: seq<byte>) returns (huff: array<nat>, used: nat)
    requires |source| >= 16 && |source| >= 16 + |SizesOf(source)|
    ensures fresh(huff) && IsTable(source, huff[..])
    ensures used == 16 + |SizesOf(source)|
  {
    hide Pow2, TablePart, Clip, MaxSize, HuffSizes, SizesOf, Entries;
    var max := FindMax(source);
    Pow2Positive(max);
    huff := new nat[1 + Pow2(max)](_ => 0);
    huff[0] := max;
    used := 16;
    var h, len := 1, 1;
    NothingYet(source, huff[..], max);
    while len <= max
      invariant 1 <= len <= max + 1
      invariant huff[0] == max && huff.Length == 1 + Pow2(max)
      invariant used == 16 + |HuffSizes(Counts(source), len - 1)| <= 16 + |SizesOf(source)|
      invariant TablePart(huff[..], Entries(SizesOf(source), source[16..], max, used - 16), Pow2(max))
      invariant h == 1 + |Clip(Entries(SizesOf(source), source[16..], max, used - 16), Pow2(max))|
    {
      h, used := FillLength(huff, h, max, len, source, used);
      len := len + 1;
    }
    AllPlaced(source, huff[..], max);
  }

  lemma NothingYet(source: seq<byte>, huff: seq<nat>, max: nat)
    requires |source| >= 16 && |source| >= 16 + |SizesOf(source)| && max == MaxSize(Counts(source), 16)
    requires |huff| == 1 + Pow2(max) && forall i :: 1 <= i < |huff| ==> huff[i] == 0
    ensures |HuffSizes(Counts(source), 0)| == 0
    ensures var t := Entries(SizesOf(source), source[16..], max, 0); TablePart(huff, t, Pow2(max)) && |Clip(t, Pow2(max))| == 0
  {
  }

  lemma AllPlaced(source: seq<byte>, huff: seq<nat>, max: nat)
    requires |source| >= 16 && |source| >= 16 + |SizesOf(source)| && max == MaxSize(Counts(source), 16)
    requires |HuffSizes(Counts(source), max)| <= |SizesOf(source)|
    requires TablePart(huff, Entries(SizesOf(source), source[16..], max, |HuffSizes(Counts(source), max)|), Pow2(max)) && huff[0] == max
    ensures |HuffSizes(Counts(source), max)| == |SizesOf(source)| && IsTable(source, huff)
  {
    SizesAbove(Counts(source), max, 16);
  }

  lemma TableLength(huff: seq<nat>, t: seq<nat>, n: nat)
    requires TablePart(huff, t, n)
    ensures |huff| == 1 + n
  {
  }

  /** The entries of `t` are in the table, as far as they fit, and the rest is zero. */
  ghost predicate TablePart(huff: seq<nat>, t: seq<nat>, n: nat) {
    |huff| == 1 + n && forall i :: 1 <= i <= n ==> huff[i] == if i <= |t| then t[i - 1] else 0
  }

  lemma PartStep(huff: seq<nat>, t: seq<nat>, n: nat, e: nat)
    requires TablePart(huff, t, n)
    ensures var h := 1 + |Clip(t, n)|;
            if h <= n then TablePart(huff[h := e], t + [e], n) && 1 + |Clip(t + [e], n)| == h + 1
            else TablePart(huff, t + [e], n) && 1 + |Clip(t + [e], n)| == h
  {
  }

}
