/** Files that hold a lossless JPEG image: every image has one, under any Huffman codes with all
    seventeen difference categories, and there are such codes. */
module LjpegFile {
  import opened Bits
  import opened DcrawBits
  import opened LjpegHuffman
  import opened LjpegDiff
  import opened LjpegRow
  import opened LjpegLoad

  /** The code has a symbol for every difference category. */
  predicate AllCategories(code: Code) {
    CodeOk(code) && forall s: nat :: s <= 16 ==> SymbolFor(code.symbols, |code.sizes|, s).Some?
  }

  lemma DiffHasCode(code: Code, d: int)
    requires AllCategories(code) && -32767 <= d <= 32768
    ensures EncodeDiff(code, d).Some?
  {
    CategoryRange(d);
    hide CodeOk, Category;
  }

  lemma {:induction false} RowHasCode(f: Frame, codes: seq<Code>, first: bool, prev: seq<int>, row: seq<int>, i: nat)
    requires f.Ok() && CodesOk(f, codes) && (forall c :: 0 <= c < f.clrs ==> AllCategories(codes[c]))
    requires i <= |row| == f.Width() == |prev|
    ensures EncodeFrom(f, codes, first, prev, row, i).Some?
    decreases |row| - i
  {
    hide EncodeDiff, CodeOk, AllCategories, TruePrediction, Difference;
    if i < |row| {
      DiffHasCode(codes[i % f.clrs], Difference(row[i], TruePrediction(f, first, prev, row, i)));
      RowHasCode(f, codes, first, prev, row, i + 1);
    }
  }

  /** With all categories every image can be encoded. */
  lemma {:induction false} ImageHasCode(f: Frame, codes: seq<Code>, image: seq<seq<int>>, j: nat)
    requires f.Ok() && CodesOk(f, codes) && (forall c :: 0 <= c < f.clrs ==> AllCategories(codes[c]))
    requires j <= |image| && forall j :: 0 <= j < |image| ==> |image[j]| == f.Width()
    ensures EncodeRows(f, codes, image, j).Some?
    decreases |image| - j
  {
    hide EncodeFrom, CodeOk, AllCategories;
    if j < |image| {
      RowHasCode(f, codes, j == 0, Above(f, image, j), image[j], 0);
      ImageHasCode(f, codes, image, j + 1);
    }
  }

  /** There is a file that holds the image, from any position on. */
  lemma ImageHasFile(f: Frame, codes: seq<Code>, image: seq<seq<int>>, pos: nat) returns (file: seq<byte>, bytes: seq<byte>)
    requires f.Ok() && CodesOk(f, codes) && (forall c :: 0 <= c < f.clrs ==> AllCategories(codes[c]))
    requires forall j :: 0 <= j < |image| ==> |image[j]| == f.Width()
    ensures Holds(file, pos, f, codes, image, bytes)
  {
    hide EncodeRows, AllCategories, CodesOk, Stuff, BitsToBytes;
    ImageHasCode(f, codes, image, 0);
    var enc := EncodeRows(f, codes, image, 0).value;
    bytes := BitsToBytes(enc);
    var fill := BytesSpell(enc);
    file := seq(pos, _ => 0) + Stuff(bytes);
    assert file[pos..] == Stuff(bytes);
  }

  /** A code with all categories: seventeen symbols of five bits. */
  function FlatCode(): Code { Code(seq(17, _ => 5), seq(17, k requires 0 <= k < 17 => k), 5) }

  lemma {:induction false} FlatStart(k: nat)
    requires k <= 17
    ensures Start(FlatCode().sizes, 5, k) == k
  {
    if k > 0 { FlatStart(k - 1); }
  }

  lemma {:induction false} FlatSymbol(n: nat, s: nat)
    requires s < n <= 17
    ensures SymbolFor(FlatCode().symbols, n, s).Some?
    decreases n
  {
    if s < n - 1 { FlatSymbol(n - 1, s); }
  }

  lemma FlatCodeFits()
    ensures AllCategories(FlatCode())
  {
    var code, n, five := FlatCode(), 17, 5;
    FlatStart(n);
    Pow2Of(five);
    forall s: nat | s <= 16 ensures SymbolFor(code.symbols, |code.sizes|, s).Some? { FlatSymbol(n, s); }
    hide Start, SymbolFor;
  }
}
