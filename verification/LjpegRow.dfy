/** Rows of a lossless JPEG image: predictors, the vertical prediction of the first column, and
    the round trip against an encoder that follows Annex H of ITU-T T.81. */
module LjpegRow {
  import opened Bits
  import opened LjpegHuffman
  import opened LjpegDiff

  /** Sample precision, samples a line, components, predictor. */
  datatype Frame = Frame(bits: nat, wide: nat, clrs: nat, psv: nat) {
    predicate Ok() { 1 <= bits <= 16 && 1 <= wide && 1 <= clrs <= 6 }
    function Width(): nat { wide * clrs }
  }

  /** Table H.1 of T.81, with Ra to the left, Rb above and Rc to the upper left. */
  function Predictor(psv: nat, ra: int, rb: int, rc: int): int {
    if psv == 1 then ra
    else if psv == 2 then rb
    else if psv == 3 then rc
    else if psv == 4 then ra + rb - rc
    else if psv == 5 then ra + (rb - rc) / 2
    else if psv == 6 then rb + (ra - rc) / 2
    else if psv == 7 then (ra + rb) / 2
    else 0
  }

  /** Prediction of sample `i` outside the first column, given the row so far and the row above. */
  function Predict(f: Frame, first: bool, prev: seq<int>, cur: seq<int>, i: nat): int
    requires f.clrs > 0 && f.clrs <= i <= |cur| && (!first ==> i < |prev|)
  {
    if first then cur[i - f.clrs] else Predictor(f.psv, cur[i - f.clrs], prev[i], prev[i - f.clrs])
  }

  /** The row that came out, the column-0 predictions for the next row, what is left of the
      stream, and how many samples had too many bits. */
  datatype RowOut = RowOut(row: seq<int>, vpred: seq<int>, rest: seq<bool>, errors: nat)

  /** Column-0 predictions and prediction of the next sample, once its difference is known:
      `pred = (jh->vpred[c] += diff) - diff` in column 0. */
  function Step(f: Frame, first: bool, prev: seq<int>, cur: seq<int>, vpred: seq<int>, diff: int): (r: (int, seq<int>))
    requires f.Ok() && |prev| == f.Width() && |cur| < f.Width() && |vpred| == 6
    ensures |r.1| == 6
  {
    var i := |cur|;
    if i < f.clrs then ((vpred[i] + diff) % 0x1_0000, vpred[i := vpred[i] + diff])
    else ((Predict(f, first, prev, cur, i) + diff) % 0x1_0000, vpred)
  }

  /** ljpeg_row from sample `|cur|` on. The stored sample is cut to 16 bits. */
  function DecodeFrom(f: Frame, huffs: seq<seq<nat>>, first: bool, prev: seq<int>, cur: seq<int>, vpred: seq<int>, bits: seq<bool>): (r: Option<RowOut>)
    requires f.Ok() && |huffs| == f.clrs && (forall c :: 0 <= c < f.clrs ==> TableShape(huffs[c]))
    requires |prev| == f.Width() && |cur| <= f.Width() && |vpred| == 6
    ensures r.Some? ==> |r.value.row| == f.Width() && |r.value.vpred| == 6
    decreases f.Width() - |cur|
  {
    var i := |cur|;
    if i == f.Width() then Some(RowOut(cur, vpred, bits, 0))
    else
      match DecodeDiff(huffs[i % f.clrs], bits)
      case None => None
      case Some((diff, rest)) =>
        var (x, v) := Step(f, first, prev, cur, vpred, diff);
        match DecodeFrom(f, huffs, first, prev, cur + [x], v, rest)
        case None => None
        case Some(o) => Some(o.(errors := o.errors + if Shr(x, f.bits) != 0 then 1 else 0))
  }

  /** One sample of DecodeFrom. */
  lemma DecodeStep(f: Frame, huffs: seq<seq<nat>>, first: bool, prev: seq<int>, cur: seq<int>, vpred: seq<int>, bits: seq<bool>)
    requires f.Ok() && |huffs| == f.clrs && (forall c :: 0 <= c < f.clrs ==> TableShape(huffs[c]))
    requires |prev| == f.Width() && |cur| < f.Width() && |vpred| == 6
    requires DecodeFrom(f, huffs, first, prev, cur, vpred, bits).Some?
    ensures var d := DecodeDiff(huffs[|cur| % f.clrs], bits);
            && d.Some?
            && var (x, v) := Step(f, first, prev, cur, vpred, d.value.0);
            && var next := DecodeFrom(f, huffs, first, prev, cur + [x], v, d.value.1);
            && next.Some?
            && DecodeFrom(f, huffs, first, prev, cur, vpred, bits) ==
               Some(next.value.(errors := next.value.errors + if Shr(x, f.bits) != 0 then 1 else 0))
  {
  }

  /** The column-0 predictions are never reduced, but a row moves each by 2^15 at most. */
  lemma {:induction false} PredictionsMove(f: Frame, huffs: seq<seq<nat>>, first: bool, prev: seq<int>, cur: seq<int>, vpred: seq<int>, bits: seq<bool>, c: nat)
    requires f.Ok() && |huffs| == f.clrs && (forall c :: 0 <= c < f.clrs ==> TableShape(huffs[c]))
    requires |prev| == f.Width() && |cur| <= f.Width() && |vpred| == 6 && c < 6
    requires DecodeFrom(f, huffs, first, prev, cur, vpred, bits).Some?
    ensures var v := DecodeFrom(f, huffs, first, prev, cur, vpred, bits).value.vpred;
            if c < |cur| then v[c] == vpred[c] else -0x8000 <= v[c] - vpred[c] < 0x8000
    decreases f.Width() - |cur|
  {
    if |cur| < f.Width() {
      hide DecodeDiff, Predict, TableShape, Shr, Predictor;
      DecodeStep(f, huffs, first, prev, cur, vpred, bits);
      hide DecodeFrom;
      StepMoves(f, first, prev, cur, vpred, DecodeDiff(huffs[|cur| % f.clrs], bits).value.0);
      hide Step;
      var (diff, rest) := DecodeDiff(huffs[|cur| % f.clrs], bits).value;
      DiffBounded(huffs[|cur| % f.clrs], bits);
      var (x, v) := Step(f, first, prev, cur, vpred, diff);
      PredictionsMove(f, huffs, first, prev, cur + [x], v, rest, c);
    }
  }

  lemma StepMoves(f: Frame, first: bool, prev: seq<int>, cur: seq<int>, vpred: seq<int>, diff: int)
    requires f.Ok() && |prev| == f.Width() && |cur| < f.Width() && |vpred| == 6
    ensures var i := |cur|;
            Step(f, first, prev, cur, vpred, diff).1 == if i < f.clrs then vpred[i := vpred[i] + diff] else vpred
  {
    hide Predict;
  }

  lemma DiffBounded(huff: seq<nat>, bits: seq<bool>)
    requires TableShape(huff) && DecodeDiff(huff, bits).Some?
    ensures -0x8000 <= DecodeDiff(huff, bits).value.0 < 0x8000
  {
    hide ToNat, Leaf, TableShape;
    var (len, rest) := Leaf(huff, bits).value;
    if len < 16 {
      ToNatBound(rest[..len]);
      var n := 15;
      Pow2Monotone(len, n);
      Pow2Of(n);
    }
  }

  /** Section H.1.2.1: the prediction the encoder uses, from the original samples. In the first
      column it is the sample above, and half the range on the first row. */
  function TruePrediction(f: Frame, first: bool, prev: seq<int>, row: seq<int>, i: nat): int
    requires f.Ok() && i < |row| == f.Width() == |prev|
  {
    if i < f.clrs then (if first then Pow2(f.bits - 1) else prev[i])
    else Predict(f, first, prev, row, i)
  }

  /** The encoder, from sample `i` on; `None` when some difference has no code. */
  function EncodeFrom(f: Frame, codes: seq<Code>, first: bool, prev: seq<int>, row: seq<int>, i: nat): Option<seq<bool>>
    requires f.Ok() && |codes| == f.clrs && (forall c :: 0 <= c < f.clrs ==> CodeOk(codes[c]))
    requires i <= |row| == f.Width() == |prev|
    decreases |row| - i
  {
    if i == |row| then Some([])
    else
      match EncodeDiff(codes[i % f.clrs], Difference(row[i], TruePrediction(f, first, prev, row, i)))
      case None => None
      case Some(b) =>
        match EncodeFrom(f, codes, first, prev, row, i + 1)
        case None => None
        case Some(more) => Some(b + more)
  }

  predicate RowOk(f: Frame, row: seq<int>) {
    |row| == f.Width() && forall i :: 0 <= i < |row| ==> 0 <= row[i] < Pow2(f.bits)
  }

  /** The running column-0 predictions, which are never reduced, are congruent to the samples
      that they stand for: those of row `next` below column `done`, of row `prev` beyond. */
  predicate Tracks(f: Frame, first: bool, prev: seq<int>, next: seq<int>, done: nat, vpred: seq<int>)
    requires f.Ok() && |prev| == |next| == f.Width() && |vpred| == 6
  {
    && f.clrs <= f.Width()
    && forall c :: 0 <= c < f.clrs ==>
         vpred[c] % 0x1_0000 == (if c < done then next[c] else if first then Pow2(f.bits - 1) else prev[c]) % 0x1_0000
  }

  /** One sample: adding the difference to a prediction that is right modulo 2^16 and cutting to
      16 bits gives back the sample, whichever name 2^15 goes by. */
  lemma SampleBack(x: int, pred: int, truth: int, d: int)
    requires 0 <= x < 0x1_0000 && pred % 0x1_0000 == truth % 0x1_0000 && d == Difference(x, truth)
    ensures var diff := if d == 32768 then -32768 else d;
            (pred + diff) % 0x1_0000 == x
  {
    var diff := if d == 32768 then -32768 else d;
    hide Difference;
    SameAfter(pred, truth, diff);
    if d == 32768 { SameAfter(-32768, 32768, truth); }
  }

  /** Equal remainders stay equal when the same is added. */
  lemma SameAfter(a: int, b: int, c: int)
    requires a % 0x1_0000 == b % 0x1_0000
    ensures (a + c) % 0x1_0000 == (b + c) % 0x1_0000
  {
    var k := a / 0x1_0000 - b / 0x1_0000;
    assert a + c == ((b + c) / 0x1_0000 + k) * 0x1_0000 + (b + c) % 0x1_0000;
    DivUnique(a + c, 0x1_0000, (b + c) / 0x1_0000 + k, (b + c) % 0x1_0000);
  }

  lemma BitsBound(f: Frame, x: int)
    requires f.Ok() && 0 <= x < Pow2(f.bits)
    ensures x < 0x1_0000 && Shr(x, f.bits) == 0
  {
    Pow2Of(16);
    Pow2Monotone(f.bits, 16);
    SplitAt(x, f.bits);
    DivBelow(x, Pow2(f.bits), 1);
  }

  lemma StepBack(f: Frame, first: bool, prev: seq<int>, row: seq<int>, i: nat, vpred: seq<int>, d: int)
    requires f.Ok() && RowOk(f, row) && |prev| == f.Width() && |vpred| == 6 && i < |row|
    requires Tracks(f, first, prev, row, i, vpred) && d == Difference(row[i], TruePrediction(f, first, prev, row, i))
    ensures var (x, v) := Step(f, first, prev, row[..i], vpred, if d == 32768 then -32768 else d);
            x == row[i] && Tracks(f, first, prev, row, i + 1, v)
  {
    hide Difference, Predictor, Pow2, Shr;
    BitsBound(f, row[i]);
    var cur := row[..i];
    var pred := if i < f.clrs then vpred[i] else Predict(f, first, prev, cur, i);
    SampleBack(row[i], pred, TruePrediction(f, first, prev, row, i), d);
  }

  /** A row comes back: decoding the encoder's bits, from any sample on, yields the original
      row, leaves what followed, and keeps the column-0 predictions congruent. */
  lemma {:induction false} RowRoundTrip(f: Frame, codes: seq<Code>, huffs: seq<seq<nat>>, first: bool, prev: seq<int>, row: seq<int>,
                                        i: nat, vpred: seq<int>, tail: seq<bool>)
    requires f.Ok() && |codes| == |huffs| == f.clrs
    requires forall c :: 0 <= c < f.clrs ==> CodeOk(codes[c]) && TableFor(codes[c], huffs[c]) && TableShape(huffs[c])
    requires RowOk(f, row) && |prev| == f.Width() && |vpred| == 6 && i <= |row|
    requires Tracks(f, first, prev, row, i, vpred)
    requires EncodeFrom(f, codes, first, prev, row, i).Some?
    ensures var d := DecodeFrom(f, huffs, first, prev, row[..i], vpred, EncodeFrom(f, codes, first, prev, row, i).value + tail);
            && d.Some? && d.value.row == row && d.value.rest == tail && d.value.errors == 0
            && Tracks(f, first, prev, row, f.clrs, d.value.vpred)
    decreases |row| - i
  {
    hide CodeOk, TableFor, TableShape, EncodeDiff, DecodeDiff, Shr, Difference, Step, Tracks, TruePrediction, RowOk;
    RowLength(f, row);
    if i == |row| {
      assert row[..i] == row;
      assert [] + tail == tail;
      TracksAll(f, first, prev, row, vpred);
    } else {
      var c := i % f.clrs;
      var d := Difference(row[i], TruePrediction(f, first, prev, row, i));
      var b := EncodeDiff(codes[c], d).value;
      var more := EncodeFrom(f, codes, first, prev, row, i + 1).value + tail;
      assert EncodeFrom(f, codes, first, prev, row, i).value + tail == b + more;
      DiffRoundTrip(codes[c], huffs[c], d, more);
      StepBack(f, first, prev, row, i, vpred, d);
      var (x, v) := Step(f, first, prev, row[..i], vpred, if d == 32768 then -32768 else d);
      RowInBits(f, row, i);
      assert row[..i] + [row[i]] == row[..i + 1];
      RowRoundTrip(f, codes, huffs, first, prev, row, i + 1, v, tail);
    }
  }

  lemma RowLength(f: Frame, row: seq<int>)
    requires RowOk(f, row)
    ensures |row| == f.Width()
  {
  }

  lemma RowInBits(f: Frame, row: seq<int>, i: nat)
    requires f.Ok() && RowOk(f, row) && i < |row|
    ensures row[i] >= 0 && Shr(row[i], f.bits) == 0
  {
    BitsBound(f, row[i]);
  }

  lemma TracksAll(f: Frame, first: bool, prev: seq<int>, row: seq<int>, vpred: seq<int>)
    requires f.Ok() && |prev| == |row| == f.Width() && |vpred| == 6 && Tracks(f, first, prev, row, |row|, vpred)
    ensures Tracks(f, first, prev, row, f.clrs, vpred)
  {
  }

  // ---------------------------------------------------------------- all rows

  /** Rows from row `j` to the last: what came out, the rest of the stream, and the errors. */
  datatype RowsOut = RowsOut(rows: seq<seq<int>>, rest: seq<bool>, errors: nat)

  predicate TablesShaped(f: Frame, huffs: seq<seq<nat>>) {
    |huffs| == f.clrs && forall c :: 0 <= c < f.clrs ==> TableShape(huffs[c])
  }

  ghost predicate TablesFor(f: Frame, codes: seq<Code>, huffs: seq<seq<nat>>) {
    && |codes| == |huffs| == f.clrs
    && forall c :: 0 <= c < f.clrs ==> CodeOk(codes[c]) && TableFor(codes[c], huffs[c]) && TableShape(huffs[c])
  }

  predicate CodesOk(f: Frame, codes: seq<Code>) {
    |codes| == f.clrs && forall c :: 0 <= c < f.clrs ==> CodeOk(codes[c])
  }

  /** The column-0 predictions that a restart sets: half the range for every component. */
  function Midpoints(f: Frame): (v: seq<int>)
    requires f.Ok()
    ensures |v| == 6
  {
    seq(6, _ => Pow2(f.bits - 1))
  }

  function DecodeRows(f: Frame, huffs: seq<seq<nat>>, j: nat, high: nat, prev: seq<int>, vpred: seq<int>, bits: seq<bool>): (r: Option<RowsOut>)
    requires f.Ok() && TablesShaped(f, huffs) && j <= high && |prev| == f.Width() && |vpred| == 6
    decreases high - j
  {
    if j == high then Some(RowsOut([], bits, 0))
    else
      match DecodeFrom(f, huffs, j == 0, prev, [], vpred, bits)
      case None => None
      case Some(o) =>
        match DecodeRows(f, huffs, j + 1, high, o.row, o.vpred, o.rest)
        case None => None
        case Some(more) => Some(RowsOut([o.row] + more.rows, more.rest, o.errors + more.errors))
  }

  predicate Int32(v: seq<int>) { forall c :: 0 <= c < |v| ==> -0x8000_0000 <= v[c] < 0x8000_0000 }

  /** After every row that gets decoded the column-0 predictions are 32-bit ints. */
  predicate NeverOverflows(f: Frame, huffs: seq<seq<nat>>, j: nat, high: nat, prev: seq<int>, vpred: seq<int>, bits: seq<bool>)
    requires f.Ok() && TablesShaped(f, huffs) && j <= high && |prev| == f.Width() && |vpred| == 6
    decreases high - j
  {
    j == high ||
    match DecodeFrom(f, huffs, j == 0, prev, [], vpred, bits)
    case None => true
    case Some(o) => Int32(o.vpred) && NeverOverflows(f, huffs, j + 1, high, o.row, o.vpred, o.rest)
  }

  /** No stream, good or bad, makes the unreduced predictions overflow: an image has at most
      65535 rows, and that is just few enough. */
  lemma {:induction false} PredictionsFit(f: Frame, huffs: seq<seq<nat>>, j: nat, high: nat, prev: seq<int>, vpred: seq<int>, bits: seq<bool>)
    requires f.Ok() && TablesShaped(f, huffs) && j <= high < 0x1_0000 && |prev| == f.Width() && |vpred| == 6
    requires forall c :: 0 <= c < 6 ==> 1 - 0x8000 * j <= vpred[c] <= 0x8000 + 0x7fff * j
    ensures NeverOverflows(f, huffs, j, high, prev, vpred, bits)
    decreases high - j
  {
    hide DecodeFrom;
    if j < high && DecodeFrom(f, huffs, j == 0, prev, [], vpred, bits).Some? {
      var o := DecodeFrom(f, huffs, j == 0, prev, [], vpred, bits).value;
      forall c | 0 <= c < 6 ensures 1 - 0x8000 * (j + 1) <= o.vpred[c] <= 0x8000 + 0x7fff * (j + 1) {
        PredictionsMove(f, huffs, j == 0, prev, [], vpred, bits, c);
      }
      PredictionsFit(f, huffs, j + 1, high, o.row, o.vpred, o.rest);
    }
  }

  /** The first row starts within those limits. */
  lemma MidpointsFit(f: Frame, huffs: seq<seq<nat>>, high: nat, prev: seq<int>, bits: seq<bool>)
    requires f.Ok() && TablesShaped(f, huffs) && high < 0x1_0000 && |prev| == f.Width()
    ensures NeverOverflows(f, huffs, 0, high, prev, Midpoints(f), bits)
  {
    hide DecodeFrom, TableShape, NeverOverflows;
    var n := 15;
    Pow2Monotone(f.bits - 1, n);
    Pow2Of(n);
    PredictionsFit(f, huffs, 0, high, prev, Midpoints(f), bits);
  }

  ghost predicate ImageOk(f: Frame, image: seq<seq<int>>) {
    forall j :: 0 <= j < |image| ==> RowOk(f, image[j])
  }

  /** The row above row `j`, blank for the first. */
  function Above(f: Frame, image: seq<seq<int>>, j: nat): seq<int>
    requires j <= |image|
  {
    if j == 0 then seq(f.Width(), _ => 0) else image[j - 1]
  }

  function EncodeRows(f: Frame, codes: seq<Code>, image: seq<seq<int>>, j: nat): Option<seq<bool>>
    requires f.Ok() && CodesOk(f, codes) && j <= |image| && forall j :: 0 <= j < |image| ==> |image[j]| == f.Width()
    decreases |image| - j
  {
    if j == |image| then Some([])
    else
      match EncodeFrom(f, codes, j == 0, Above(f, image, j), image[j], 0)
      case None => None
      case Some(b) =>
        match EncodeRows(f, codes, image, j + 1)
        case None => None
        case Some(more) => Some(b + more)
  }

  /** Round trip of an image: any predictor, any number of components, any size. */
  lemma {:induction false} ImageRoundTrip(f: Frame, codes: seq<Code>, huffs: seq<seq<nat>>, image: seq<seq<int>>, j: nat, vpred: seq<int>, tail: seq<bool>)
    requires f.Ok() && TablesFor(f, codes, huffs) && CodesOk(f, codes) && TablesShaped(f, huffs)
    requires j <= |image| && ImageOk(f, image) && (forall j :: 0 <= j < |image| ==> |image[j]| == f.Width()) && |vpred| == 6
    requires j < |image| ==> Tracks(f, j == 0, Above(f, image, j), image[j], 0, vpred)
    requires EncodeRows(f, codes, image, j).Some?
    ensures DecodeRows(f, huffs, j, |image|, Above(f, image, j), vpred, EncodeRows(f, codes, image, j).value + tail) ==
            Some(RowsOut(image[j..], tail, 0))
    decreases |image| - j
  {
    hide Tracks, RowOk, EncodeFrom, DecodeFrom;
    if j == |image| {
      assert [] + tail == tail;
    } else {
      var b := EncodeFrom(f, codes, j == 0, Above(f, image, j), image[j], 0).value;
      var more := EncodeRows(f, codes, image, j + 1).value + tail;
      assert EncodeRows(f, codes, image, j).value + tail == b + more;
      assert image[j][..0] == [];
      RowRoundTrip(f, codes, huffs, j == 0, Above(f, image, j), image[j], 0, vpred, more);
      var o := DecodeFrom(f, huffs, j == 0, Above(f, image, j), [], vpred, b + more).value;
      if j + 1 < |image| { TracksNext(f, j == 0, Above(f, image, j), image[j], image[j + 1], o.vpred); }
      ImageRoundTrip(f, codes, huffs, image, j + 1, o.vpred, tail);
      assert image[j..] == [image[j]] + image[j + 1..];
    }
  }

  lemma TracksNext(f: Frame, first: bool, prev: seq<int>, row: seq<int>, next: seq<int>, vpred: seq<int>)
    requires f.Ok() && |prev| == |row| == |next| == f.Width() && |vpred| == 6 && Tracks(f, first, prev, row, f.clrs, vpred)
    ensures Tracks(f, false, row, next, 0, vpred)
  {
  }

  lemma MidpointsTrack(f: Frame, image: seq<seq<int>>)
    requires f.Ok() && |image| > 0 && |image[0]| == f.Width()
    ensures Tracks(f, true, Above(f, image, 0), image[0], 0, Midpoints(f))
  {
  }
}
