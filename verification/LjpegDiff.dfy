/** Difference coding of lossless JPEG: Huffman-coded categories with extra bits, modulo 2^16. */
module LjpegDiff {
  import opened Bits
  import opened LjpegHuffman

  /** A Huffman code with its symbols; look-ahead and leaves at most 16. */
  datatype Code = Code(sizes: seq<nat>, symbols: seq<byte>, max: nat)

  predicate CodeOk(code: Code) {
    && Fits(code.sizes, code.max) && code.max <= 16 && |code.sizes| <= |code.symbols|
    && (code.sizes != [] ==> code.max > 0)
    && forall k :: 0 <= k < |code.sizes| ==> code.symbols[k] <= 16
  }

  /** The decoding table of a code, as make_decoder_ref builds it. */
  ghost predicate TableFor(code: Code, huff: seq<nat>)
    requires CodeOk(code)
  {
    TableOf(code.sizes, code.symbols, code.max, huff)
  }

  predicate TableShape(huff: seq<nat>): (ok: bool)
    ensures ok ==> |huff| >= 1 && huff[0] <= 16 && |huff| == 1 + Pow2(huff[0])
  {
    |huff| >= 1 && huff[0] <= 16 && |huff| == 1 + Pow2(huff[0]) && forall i :: 1 <= i < |huff| ==> huff[i] / 0x100 <= huff[0] && huff[i] % 0x100 <= 16
  }

  lemma {:induction false} EntriesSmall(code: Code, n: nat)
    requires CodeOk(code) && n <= |code.sizes|
    ensures forall i :: 0 <= i < Start(code.sizes, code.max, n) ==>
              var e := Entries(code.sizes, code.symbols, code.max, n)[i]; e / 0x100 <= code.max && e % 0x100 <= 16
  {
    if n > 0 { EntriesSmall(code, n - 1); }
  }

  /** The code that a source describes: 16 counts, then the symbols. */
  function CodeOf(source: seq<byte>): Code
    requires |source| >= 16
  {
    Code(SizesOf(source), source[16..], MaxSize(Counts(source), 16))
  }

  /** The table of make_decoder_ref is the decoding table of the canonical code, whenever the
      counts obey Kraft's inequality. */
  lemma BuiltTable(source: seq<byte>, huff: seq<nat>)
    requires |source| >= 16 && |source| >= 16 + |SizesOf(source)| && IsTable(source, huff)
    requires Start(SizesOf(source), MaxSize(Counts(source), 16), |SizesOf(source)|) <= Pow2(MaxSize(Counts(source), 16))
    requires forall k :: 16 <= k < 16 + |SizesOf(source)| ==> source[k] <= 16
    ensures CodeOk(CodeOf(source)) && TableFor(CodeOf(source), huff)
  {
    hide Start, Entries, Pow2, MaxSize;
    SizesAscending(Counts(source), 16);
    var code := CodeOf(source);
    assert code.sizes != [] ==> code.sizes[0] <= code.max;
    forall k | 0 <= k < |code.sizes| ensures code.symbols[k] <= 16 {
      assert code.symbols[k] == source[16 + k];
    }
  }

  lemma TableHasShape(code: Code, huff: seq<nat>)
    requires CodeOk(code) && TableFor(code, huff)
    ensures TableShape(huff)
  {
    EntriesSmall(code, |code.sizes|);
    hide Entries, Start, Pow2, Fits;
    var t := Entries(code.sizes, code.symbols, code.max, |code.sizes|);
    forall i | 1 <= i < |huff| ensures huff[i] / 0x100 <= huff[0] && huff[i] % 0x100 <= 16 {
      if i <= |t| { assert t[i - 1] / 0x100 <= code.max && t[i - 1] % 0x100 <= 16; }
    }
  }

  /** gethuff on the remaining bits; `None` is a stream that ends too early. */
  function Leaf(huff: seq<nat>, bits: seq<bool>): (r: Option<(nat, seq<bool>)>)
    requires TableShape(huff)
    ensures r.Some? ==> r.value.0 <= 16
  {
    if huff[0] == 0 then Some((0, bits))
    else if bits == [] then None
    else
      ToNatBound(PadTake(bits, huff[0]));
      var e := huff[1 + ToNat(PadTake(bits, huff[0]))];
      if e / 0x100 <= |bits| then Some((e % 0x100, bits[e / 0x100..])) else None
  }

  /** gethuff returns the symbol whose code begins the remaining bits, and consumes that code. */
  lemma LeafOfCode(code: Code, huff: seq<nat>, k: nat, rest: seq<bool>)
    requires CodeOk(code) && TableFor(code, huff) && k < |code.sizes|
    ensures TableShape(huff) && Leaf(huff, CodeBits(code.sizes, k) + rest) == Some((code.symbols[k] as nat, rest))
  {
    hide ToNat, PadTake, Pow2, Start, Entries, Fits, CodeBits;
    FitsMeans(code.sizes, code.max);
    TableHasShape(code, huff);
    var bits := CodeBits(code.sizes, k) + rest;
    ToNatBound(PadTake(bits, code.max));
    LookAhead(code.sizes, code.max, k, rest);
    var i := ToNat(PadTake(bits, code.max));
    EntriesAt(code.sizes, code.symbols, code.max, |code.sizes|, k, i);
    assert huff[i + 1] == code.sizes[k] * 0x100 + code.symbols[k];
  }

  // ---------------------------------------------------------------- differences

  function BitLength(n: nat): nat { if n == 0 then 0 else 1 + BitLength(n / 2) }

  lemma {:induction false} BitLengthIs(n: nat)
    ensures n < Pow2(BitLength(n)) && (n > 0 ==> Pow2(BitLength(n) - 1) <= n)
  {
    if n > 0 { BitLengthIs(n / 2); }
  }

  /** The difference category SSSS of Table H.2 of T.81. */
  function Category(d: int): nat { BitLength(Abs(d)) }

  lemma CategoryRange(d: int)
    requires -32767 <= d <= 32768
    ensures Category(d) <= 16 && (Category(d) == 16 <==> d == 32768)
  {
    BitLengthIs(Abs(d));
    var s := Category(d);
    Pow2Of(16);
    assert Pow2(16) == 2 * Pow2(15);
    if s > 16 { Pow2Monotone(16, s - 1); }
    if s < 16 { Pow2Monotone(s, 15); }
  }

  /** The difference of a sample and its prediction, modulo 2^16, in [-32767, 32768]
      (section H.1.2.2 of T.81). */
  function Difference(x: int, pred: int): (d: int)
    ensures -32767 <= d <= 32768 && (pred + d) % 0x1_0000 == x % 0x1_0000
  {
    var m := (x - pred) % 0x1_0000;
    if m > 32768 then m - 0x1_0000 else m
  }

  function SymbolFor(symbols: seq<byte>, n: nat, v: nat): (r: Option<nat>)
    requires n <= |symbols|
    ensures r.Some? ==> r.value < n && symbols[r.value] == v
    ensures r == None ==> forall k :: 0 <= k < n ==> symbols[k] != v
  {
    if n == 0 then None
    else if symbols[n - 1] == v then Some(n - 1)
    else SymbolFor(symbols, n - 1, v)
  }

  /** Extra bits of a difference in category `s`: negative ones are counted from the bottom. */
  function Extra(d: int, s: nat): int {
    if d >= 0 then d else d + Pow2(s) - 1
  }

  /** The bits of a difference, if the code has its category. */
  function EncodeDiff(code: Code, d: int): Option<seq<bool>>
    requires CodeOk(code) && -32767 <= d <= 32768
  {
    var s := Category(d);
    match SymbolFor(code.symbols, |code.sizes|, s)
    case None => None
    case Some(k) =>
      ExtraFits(d, s);
      Some(CodeBits(code.sizes, k) + if s == 16 then [] else FromNat(Extra(d, s), s))
  }

  lemma ExtraFits(d: int, s: nat)
    requires s == Category(d)
    ensures 0 <= Extra(d, s) < Pow2(s) || s == 0
    ensures Extra(d, s) >= 0
    ensures s > 0 ==> (d > 0 <==> Extra(d, s) >= Pow2(s - 1))
  {
    BitLengthIs(Abs(d));
  }

  /** ljpeg_diff. A category of 16 stands for -32768 and has no extra bits; of category 0 the C
      code's shift by -1 does not matter, because nothing is subtracted. */
  function DecodeDiff(huff: seq<nat>, bits: seq<bool>): Option<(int, seq<bool>)>
    requires TableShape(huff)
  {
    match Leaf(huff, bits)
    case None => None
    case Some((len, rest)) =>
      if len == 16 then Some((-32768, rest))
      else if len > |rest| then None
      else Some((Extend(ToNat(rest[..len]), len), rest[len..]))
  }

  /** `if ((diff & (1 << (len-1))) == 0) diff -= (1 << len) - 1`. */
  function Extend(v: nat, len: nat): int {
    if len > 0 && v < Pow2(len - 1) then v - (Pow2(len) - 1) else v
  }

  lemma ExtendExtra(d: int, s: nat)
    requires s == Category(d)
    ensures 0 <= Extra(d, s) < Pow2(s) && Extend(Extra(d, s), s) == d
  {
    BitLengthIs(Abs(d));
    ExtraFits(d, s);
  }

  /** A difference comes back, up to the two names of 2^15 modulo 2^16, and exactly its bits are
      consumed. */
  lemma DiffRoundTrip(code: Code, huff: seq<nat>, d: int, tail: seq<bool>)
    requires CodeOk(code) && TableFor(code, huff) && -32767 <= d <= 32768 && EncodeDiff(code, d).Some?
    ensures TableShape(huff)
    ensures DecodeDiff(huff, EncodeDiff(code, d).value + tail) == Some((if d == 32768 then -32768 else d, tail))
  {
    hide CodeOk, TableFor, Leaf, CodeBits, ToNat, FromNat, TableShape, Category, Extra, Extend;
    CodeMeans(code);
    TableHasShape(code, huff);
    var s := Category(d);
    var k := SymbolFor(code.symbols, |code.sizes|, s).value;
    CategoryRange(d);
    ExtraFits(d, s);
    var extra := if s == 16 then [] else FromNat(Extra(d, s), s);
    LeafOfCode(code, huff, k, extra + tail);
    assert EncodeDiff(code, d).value + tail == CodeBits(code.sizes, k) + (extra + tail);
    if s != 16 {
      assert (extra + tail)[..s] == extra && (extra + tail)[s..] == tail;
      ExtendExtra(d, s);
      ToNatFromNat(Extra(d, s), s);
    } else {
      assert extra + tail == tail;
    }
  }

  lemma CodeMeans(code: Code)
    requires CodeOk(code)
    ensures |code.sizes| <= |code.symbols| && Fits(code.sizes, code.max)
  {
  }
}
