/** The predictors, differences and codes of lossless JPEG by their effect on samples, bits and
    bytes. */
module LjpegPrediction {
  import opened Bits
  import opened DcrawBits
  import opened LjpegHuffman
  import opened LjpegDiff
  import opened LjpegRow

  // ---------------------------------------------------------------- prediction

  /** What the sample would be that needs no difference: the columns of Table H.1 of ITU-T T.81
      for left `a`, above `b` and above left `c`. The halved steps are rounded down. */
  ghost predicate H1(psv: nat, a: int, b: int, c: int, x: int) {
    && (psv == 1 ==> x == a)
    && (psv == 2 ==> x == b)
    && (psv == 3 ==> x == c)
    && (psv == 4 ==> x - a == b - c)
    && (psv == 5 ==> 2 * (x - a) <= b - c <= 2 * (x - a) + 1)
    && (psv == 6 ==> 2 * (x - b) <= a - c <= 2 * (x - b) + 1)
    && (psv == 7 ==> 2 * x <= a + b <= 2 * x + 1)
    && (psv == 0 || psv > 7 ==> x == 0)
  }

  lemma PredictorIsH1(psv: nat, a: int, b: int, c: int)
    ensures H1(psv, a, b, c, Predictor(psv, a, b, c))
  {
  }

  lemma H1Unique(psv: nat, a: int, b: int, c: int, x: int, y: int)
    requires H1(psv, a, b, c, x) && H1(psv, a, b, c, y)
    ensures x == y
  {
  }

  /** The encoder codes the difference 0 where the sample is as the table has it. */
  lemma ZeroDifference(f: Frame, prev: seq<int>, row: seq<int>, i: nat)
    requires f.Ok() && f.clrs <= i < |row| == f.Width() == |prev| && 0 <= row[i] < 0x1_0000
    requires H1(f.psv, row[i - f.clrs], prev[i], prev[i - f.clrs], row[i])
    ensures Difference(row[i], TruePrediction(f, false, prev, row, i)) == 0
  {
    PredictorIsH1(f.psv, row[i - f.clrs], prev[i], prev[i - f.clrs]);
    H1Unique(f.psv, row[i - f.clrs], prev[i], prev[i - f.clrs], row[i], Predictor(f.psv, row[i - f.clrs], prev[i], prev[i - f.clrs]));
    SameZero(row[i]);
    hide Predictor, H1, Difference;
  }

  lemma SameZero(x: int)
    ensures Difference(x, x) == 0
  {
  }

  /** Predictors 5 and 6 change places when left and above do, and the others are their own. */
  lemma Exchange(a: int, b: int, c: int)
    ensures Predictor(5, a, b, c) == Predictor(6, b, a, c)
    ensures Predictor(4, a, b, c) == Predictor(4, b, a, c) && Predictor(7, a, b, c) == Predictor(7, b, a, c)
    ensures Predictor(1, a, b, c) == Predictor(2, b, a, c)
  {
  }

  /** In the first column the sample above is the prediction, on the first row half the range; the
      rest of the first row is predicted from the left, whatever the predictor. */
  lemma EdgeDifference(f: Frame, prev: seq<int>, row: seq<int>, i: nat)
    requires f.Ok() && i < |row| == f.Width() == |prev|
    ensures i < f.clrs && row[i] == prev[i] ==> Difference(row[i], TruePrediction(f, false, prev, row, i)) == 0
    ensures i < f.clrs && 2 * row[i] == Pow2(f.bits) ==> Difference(row[i], TruePrediction(f, true, prev, row, i)) == 0
    ensures i >= f.clrs && row[i] == row[i - f.clrs] ==> Difference(row[i], TruePrediction(f, true, prev, row, i)) == 0
  {
    Pow2Next(f.bits - 1);
    SameZero(row[i]);
    hide Pow2, Difference;
  }

  /** The decoder's side: the sample stored is the table's and the difference, cut to 16 bits. */
  lemma StoredIsH1(f: Frame, prev: seq<int>, cur: seq<int>, vpred: seq<int>, diff: int, x: int)
    requires f.Ok() && |prev| == f.Width() && f.clrs <= |cur| < f.Width() && |vpred| == 6
    requires H1(f.psv, cur[|cur| - f.clrs], prev[|cur|], prev[|cur| - f.clrs], x)
    ensures Step(f, false, prev, cur, vpred, diff) == ((x + diff) % 0x1_0000, vpred)
    ensures Step(f, true, prev, cur, vpred, diff) == ((cur[|cur| - f.clrs] + diff) % 0x1_0000, vpred)
  {
    var i := |cur|;
    PredictorIsH1(f.psv, cur[i - f.clrs], prev[i], prev[i - f.clrs]);
    H1Unique(f.psv, cur[i - f.clrs], prev[i], prev[i - f.clrs], x, Predictor(f.psv, cur[i - f.clrs], prev[i], prev[i - f.clrs]));
    hide Predictor, H1;
  }

  /** In the first column it is the running prediction and the difference, which the running
      prediction takes over uncut. */
  lemma StoredFirst(f: Frame, first: bool, prev: seq<int>, cur: seq<int>, vpred: seq<int>, diff: int)
    requires f.Ok() && |prev| == f.Width() && |cur| < f.clrs && |cur| < f.Width() && |vpred| == 6
    ensures var v := vpred[|cur|] + diff; Step(f, first, prev, cur, vpred, diff) == (v % 0x1_0000, vpred[|cur| := v])
    ensures 2 * Midpoints(f)[|cur|] == Pow2(f.bits)
  {
    Pow2Next(f.bits - 1);
    hide Pow2;
  }

  /** A sample counts as an error exactly if it has more bits than the frame says. */
  lemma TooWide(f: Frame, x: nat)
    ensures Shr(x, f.bits) != 0 <==> x >= Pow2(f.bits)
  {
    var p := Pow2(f.bits);
    Quotient(x, p);
    if x < p { DivUnique(x, p, 0, x); }
    hide Pow2;
  }

  // ---------------------------------------------------------------- differences

  function Complement(s: seq<bool>): (r: seq<bool>)
    ensures |r| == |s| && forall i :: 0 <= i < |s| ==> r[i] == !s[i]
  {
    seq(|s|, i requires 0 <= i < |s| => !s[i])
  }

  lemma {:induction false} ComplementIs(s: seq<bool>)
    ensures ToNat(Complement(s)) == Pow2(|s|) - 1 - ToNat(s)
  {
    if s != [] {
      var but := s[..|s| - 1];
      assert Complement(s)[..|s| - 1] == Complement(but);
      ComplementIs(but);
    }
  }

  /** Category and extra bits (Table H.2 and section F.1.2.1 of T.81): the bits of a positive
      difference, whose first is 1, and their complement for the negative one. */
  lemma ExtraBits(d: int)
    requires 0 < d <= 32767
    ensures var s := Category(d);
            && 1 <= s <= 15 && Category(-d) == s && Pow2(s - 1) <= d < Pow2(s)
            && Extend(d, s) == d && Extend(ToNat(Complement(FromNat(d, s))), s) == -d
    ensures Category(0) == 0
  {
    BitLengthIs(d);
    CategoryRange(d);
    var s := Category(d);
    ComplementIs(FromNat(d, s));
    ToNatFromNat(d, s);
    Pow2Next(s - 1);
    hide Pow2, ToNat, FromNat;
  }

  // ---------------------------------------------------------------- codes and bytes

  /** The example in the comment of make_decoder_ref: lengths and codes of its thirteen symbols,
      which follow the sixteen counts. */
  lemma DocumentedCode(source: seq<byte>)
    requires |source| >= 29 && source[..16] == [0, 1, 4, 2, 3, 1, 2, 0, 0, 0, 0, 0, 0, 0, 0, 0]
    ensures SizesOf(source) == [2, 3, 3, 3, 3, 4, 4, 5, 5, 5, 6, 7, 7] && Ascending(SizesOf(source))
    ensures var codes := [0, 2, 3, 4, 5, 12, 13, 28, 29, 30, 62, 126, 127];
            forall k :: 0 <= k < 13 ==> HuffCode(SizesOf(source), k) == codes[k] && CodeOf(source).symbols[k] == source[16 + k]
  {
    var sizes := SizesOf(source);
    DocumentedSizes(source);
    hide SizesOf, HuffCode;
    NextCode(sizes, 0);
    NextCode(sizes, 1);
    NextCode(sizes, 2);
    NextCode(sizes, 3);
    NextCode(sizes, 4);
    NextCode(sizes, 5);
    NextCode(sizes, 6);
    NextCode(sizes, 7);
    NextCode(sizes, 8);
    NextCode(sizes, 9);
    NextCode(sizes, 10);
    NextCode(sizes, 11);
  }

  lemma NextCode(sizes: seq<nat>, k: nat)
    requires Ascending(sizes) && k + 1 < |sizes| && sizes[k + 1] <= sizes[k] + 1
    ensures HuffCode(sizes, k + 1) == if sizes[k + 1] == sizes[k] then HuffCode(sizes, k) + 1 else 2 * (HuffCode(sizes, k) + 1)
    ensures HuffCode(sizes, 0) == 0
  {
    ShlStep(HuffCode(sizes, k) + 1, 0);
    assert sizes[k] <= sizes[k + 1];
    hide Shl;
  }

  lemma DocumentedSizes(source: seq<byte>)
    requires |source| >= 29 && source[..16] == [0, 1, 4, 2, 3, 1, 2, 0, 0, 0, 0, 0, 0, 0, 0, 0]
    ensures SizesOf(source) == [2, 3, 3, 3, 3, 4, 4, 5, 5, 5, 6, 7, 7] && Ascending(SizesOf(source))
  {
    var c, seven := Counts(source), 7;
    DocumentedCounts(source);
    hide HuffSizes, Counts;
    SizesAbove(c, seven, 16);
    SizesAscending(c, 16);
    SevenLengths(c, seven);
  }

  lemma DocumentedCounts(source: seq<byte>)
    requires |source| >= 29 && source[..16] == [0, 1, 4, 2, 3, 1, 2, 0, 0, 0, 0, 0, 0, 0, 0, 0]
    ensures Counts(source)[..7] == [0, 1, 4, 2, 3, 1, 2] && forall i :: 7 <= i < 16 ==> Counts(source)[i] == 0
  {
    forall i | 0 <= i < 16 ensures Counts(source)[i] == source[..16][i] {}
    assert Counts(source)[..7] == source[..16][..7];
  }

  lemma SevenLengths(c: seq<nat>, seven: nat)
    requires seven == 7 <= |c| && c[..7] == [0, 1, 4, 2, 3, 1, 2]
    ensures HuffSizes(c, seven) == [2, 3, 3, 3, 3, 4, 4, 5, 5, 5, 6, 7, 7]
  {
    assert forall i :: 0 <= i < 7 ==> c[i] == c[..7][i];
    FourLengths(c);
    hide HuffSizes;
    SizesStep(c, 4);
    SizesStep(c, 5);
    SizesStep(c, 6);
  }

  lemma FourLengths(c: seq<nat>)
    requires |c| >= 7 && c[0] == 0 && c[1] == 1 && c[2] == 4 && c[3] == 2
    ensures HuffSizes(c, 4) == [2, 3, 3, 3, 3, 4, 4]
  {
    hide HuffSizes;
    SizesStep(c, 0);
    SizesStep(c, 1);
    SizesStep(c, 2);
    SizesStep(c, 3);
  }

  lemma SizesStep(counts: seq<nat>, l: nat)
    requires l < |counts| && counts[l] <= 4
    ensures HuffSizes(counts, 0) == []
    ensures var s, m := HuffSizes(counts, l), l + 1;
            HuffSizes(counts, m) ==
            if counts[l] == 0 then s
            else if counts[l] == 1 then s + [m]
            else if counts[l] == 2 then s + [m, m]
            else if counts[l] == 3 then s + [m, m, m]
            else s + [m, m, m, m]
  {
    var m := l + 1;
    assert seq(counts[l], _ => m) ==
           if counts[l] == 0 then [] else if counts[l] == 1 then [m] else if counts[l] == 2 then [m, m]
           else if counts[l] == 3 then [m, m, m] else [m, m, m, m];
  }

  /** What a marker is: bytes below 0xff are delivered, 0xff before a zero byte as well, and 0xff
      before any other byte, or at the end, is where the stream ends. */
  lemma Markers(b: byte, next: byte, more: seq<byte>)
    ensures b != 0xff ==> Unstuff([b] + more, true) == [b] + Unstuff(more, true)
    ensures Unstuff([0xff, 0] + more, true) == [0xff] + Unstuff(more, true)
    ensures next != 0 ==> Unstuff([0xff, next] + more, true) == []
    ensures Unstuff([0xff], true) == [] && Unstuff(more, false) == more
  {
    UnstuffHead(b, more);
    UnstuffHead(0xff, more);
    Plain(more);
  }

  lemma {:induction false} Plain(s: seq<byte>)
    ensures Unstuff(s, false) == s
  {
    if s != [] { Plain(s[1..]); }
  }
}
