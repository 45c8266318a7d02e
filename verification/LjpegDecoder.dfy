/** The lossless JPEG decoder of dcraw as it runs: a shared bit buffer, running column-0
    predictions, and one buffer that holds two rows, the current one and the one above. */
module LjpegDecoder {
  import opened Bits
  import opened DcrawBits
  import opened LjpegHuffman
  import opened LjpegDiff
  import opened LjpegRow

  /** struct jhead. */
  class Jhead {
    const f: Frame
    const huff: seq<array<nat>>
    const row: array<ushort>
    const vpred: array<int>
    const buf: BitBuf
    var errors: nat       // samples with too many bits

    constructor (f: Frame, huff: seq<array<nat>>, file: seq<byte>, pos: nat)
      requires f.Ok() && pos <= |file| && |huff| == f.clrs
      requires forall c :: 0 <= c < f.clrs ==> TableShape(huff[c][..])
      ensures Valid() && this.f == f && this.huff == huff && fresh(row) && fresh(vpred) && fresh(buf) && errors == 0
      ensures Half(1) == Above(f, [], 0)
      ensures buf.file == file && buf.zeroAfterFF && buf.pos == pos && !buf.failed
    {
      hide TableShape, BitBuf.Rest, BytesToBits, Unstuff;
      this.f, this.huff, errors := f, huff, 0;
      row := new ushort[2 * f.Width()](_ => 0);
      vpred := new int[6](_ => 0);
      buf := new BitBuf(file, pos, true);
    }

    ghost predicate Valid()
      reads this, huff, row, vpred, buf
    {
      && f.Ok() && row.Length == 2 * f.Width() && vpred.Length == 6 && buf.Valid()
      && |huff| == f.clrs
      && forall c :: 0 <= c < f.clrs ==> TableShape(huff[c][..]) && (huff[c] as object) != row && (huff[c] as object) != vpred
    }

    ghost function Tables(): (t: seq<seq<nat>>)
      reads huff
      ensures |t| == |huff|
    {
      seq(|huff|, c requires 0 <= c < |huff| reads huff => huff[c][..])
    }

    /** The half of the row buffer that line `j` uses: `jh->row + wide*clrs*(j & 1)`. */
    ghost function Half(j: nat): (r: seq<ushort>)
      requires row.Length == 2 * f.Width()
      reads row
      ensures |r| == f.Width()
    {
      if j % 2 == 0 then row[..f.Width()] else row[f.Width()..]
    }

    /** Where the pointers of the C code stand, at sample `i`. */
    function Place(j: nat, i: nat): nat { (if j % 2 == 0 then 0 else f.Width()) + i }

    lemma Places(j: nat, i: nat)
      requires row.Length == 2 * f.Width() && i < f.Width()
      ensures Place(j, i) < row.Length && row[Place(j, i)] == Half(j)[i]
    {
    }

    /** Writing one half leaves the other alone. */
    method Store(j: nat, i: nat, x: ushort)
      requires row.Length == 2 * f.Width() && i < f.Width()
      modifies row
      ensures Half(j) == old(Half(j))[i := x] && Half(j + 1) == old(Half(j + 1))
    {
      ghost var a, b := Half(j), Half(j + 1);
      row[Place(j, i)] := x;
      assert Half(j) == a[i := x];
      assert Half(j + 1) == b;
    }

    /** `switch (jh->psv)`, with `above` and `aboveLeft` for row[1][0] and row[1][-clrs]. The shift
        of a negative number is arithmetic: it rounds down. */
    method Switch(left: int, above: int, aboveLeft: int) returns (pred: int)
      ensures pred == Predictor(f.psv, left, above, aboveLeft)
    {
      pred := left;
      match f.psv {
        case 1 =>
        case 2 => pred := above;
        case 3 => pred := aboveLeft;
        case 4 => pred := pred + above - aboveLeft;
        case 5 => pred := pred + (above - aboveLeft) / 2;
        case 6 => pred := above + (pred - aboveLeft) / 2;
        case 7 => pred := (pred + above) / 2;
        case _ => pred := 0;
      }
    }

    /** The prediction for one sample, with the column-0 prediction moved on. */
    method Prediction(jrow: nat, col: nat, c: nat, i: nat, diff: int) returns (pred: int)
      requires f.Ok() && row.Length == 2 * f.Width() && vpred.Length == 6 && (row as object) != vpred
      requires c < f.clrs && i < f.Width() && (col == 0 <==> i < f.clrs) && (col == 0 ==> i == c)
      modifies vpred
      ensures ((pred + diff) % 0x1_0000, vpred[..]) == Step(f, jrow == 0, Half(jrow + 1), Half(jrow)[..i], old(vpred[..]), diff)
    {
      hide Predictor, Half;
      if col > 0 {
        Places(jrow, i - f.clrs);
        pred := row[Place(jrow, i - f.clrs)];
      } else {
        vpred[c] := vpred[c] + diff;
        pred := vpred[c] - diff;
        assert vpred[..] == old(vpred[..])[i := old(vpred[i]) + diff];
      }
      if jrow > 0 && col > 0 {
        Places(jrow + 1, i);
        Places(jrow + 1, i - f.clrs);
        pred := Switch(pred, row[Place(jrow + 1, i)], row[Place(jrow + 1, i - f.clrs)]);
      }
    }

    /** One sample of ljpeg_row: component `c` of column `col`. */
    method Sample(jrow: nat, col: nat, c: nat, i: nat, ghost rest: seq<bool>, ghost d: int)
      requires Valid() && c < f.clrs
      requires i < f.Width() && (col == 0 <==> i < f.clrs) && (col == 0 ==> i == c)
      modifies row, vpred, buf, `errors
      ensures Valid() && Half(jrow + 1) == old(Half(jrow + 1))
      ensures old(buf.vbits) >= 0 && DecodeDiff(huff[c][..], old(buf.Rest())) == Some((d, rest)) ==>
                && buf.Rest() == rest && buf.vbits >= 0 && buf.failed == old(buf.failed)
                && var (x, v) := Step(f, jrow == 0, Half(jrow + 1), old(Half(jrow))[..i], old(vpred[..]), d);
                && 0 <= x < 0x1_0000 && Half(jrow) == old(Half(jrow))[i := x] && vpred[..] == v
                && errors == old(errors) + if Shr(x, f.bits) != 0 then 1 else 0
    {
      hide DecodeDiff, TableShape, BitBuf.Valid, BitBuf.Rest, Pow2, Step, Half, Shr;
      var diff := Diff(buf, huff[c]);
      var pred := Prediction(jrow, col, c, i, diff);
      var x := (pred + diff) % 0x1_0000;
      Store(jrow, i, x);
      if Shr(x, f.bits) != 0 { errors := errors + 1; }
    }

    /** Decoding the rest of row `jrow`, with `i` samples done, leads where `start` says. */
    ghost predicate Underway(jrow: nat, i: nat, start: Option<RowOut>, failed: bool, errs: nat)
      requires Valid() && i <= f.Width()
      reads this, huff, row, vpred, buf
    {
      start.Some? ==>
        && buf.vbits >= 0 && buf.failed == failed && errors >= errs
        && var now := DecodeFrom(f, Tables(), jrow == 0, Half(jrow + 1), Half(jrow)[..i], vpred[..], buf.Rest());
        && now.Some? && start.value == now.value.(errors := now.value.errors + errors - errs)
    }

    /** One sample further. */
    method NextSample(jrow: nat, col: nat, c: nat, i: nat, ghost start: Option<RowOut>, ghost failed: bool, ghost errs: nat)
      requires Valid() && c < f.clrs
      requires i < f.Width() && i % f.clrs == c && (col == 0 <==> i < f.clrs) && (col == 0 ==> i == c)
      requires Underway(jrow, i, start, failed, errs)
      modifies row, vpred, buf, `errors
      ensures Valid() && Half(jrow + 1) == old(Half(jrow + 1))
      ensures Underway(jrow, i + 1, start, failed, errs)
    {
      hide DecodeDiff, TableShape, BitBuf.Valid, BitBuf.Rest, Pow2, Step, Half, Shr, DecodeFrom;
      ghost var rest, d := [], 0;
      ghost var cur := Half(jrow);
      if start.Some? {
        DecodeStep(f, Tables(), jrow == 0, Half(jrow + 1), cur[..i], vpred[..], buf.Rest());
        rest, d := DecodeDiff(huff[c][..], buf.Rest()).value.1, DecodeDiff(huff[c][..], buf.Rest()).value.0;
      }
      Sample(jrow, col, c, i, rest, d);
      if start.Some? {
        assert Half(jrow)[..i + 1] == cur[..i] + [Half(jrow)[i]];
        assert Tables() == old(Tables());
      }
    }

    /** What is left to read, and the column-0 predictions, as row `jrow` starts. */
    ghost function RowBits(jrow: nat): seq<bool>
      requires Valid()
      reads this, huff, row, vpred, buf
    {
      if jrow == 0 then BytesToBits(Unstuff(buf.file[buf.pos..], buf.zeroAfterFF)) else buf.Rest()
    }

    ghost function RowPredictions(jrow: nat): (v: seq<int>)
      requires Valid()
      reads this, huff, row, vpred, buf
      ensures |v| == 6
    {
      if jrow == 0 then Midpoints(f) else vpred[..]
    }

    /** The start of row 0: half the range predicted, and the bit buffer emptied. */
    method Begin()
      requires Valid()
      modifies vpred, buf
      ensures Valid() && buf.vbits == 0 && buf.failed == old(buf.failed)
      ensures vpred[..] == Midpoints(f) && buf.Rest() == old(RowBits(0))
    {
      hide TableShape, Pow2, BytesToBits, Unstuff, BitBuf.Rest;
      var c := 0;
      while c < 6
        modifies vpred
        invariant 0 <= c <= 6 && forall k :: 0 <= k < c ==> vpred[k] == Pow2(f.bits - 1)
      {
        vpred[c] := Pow2(f.bits - 1);
        c := c + 1;
      }
      assert vpred[..] == Midpoints(f);
      buf.Restart();
    }

    /** ljpeg_row: the row ends up in its half of the buffer, and the row above stays in the
        other. */
    method Row(jrow: nat)
      requires Valid()
      modifies row, vpred, buf, `errors
      ensures Valid() && Half(jrow + 1) == old(Half(jrow + 1)) && Tables() == old(Tables())
      ensures var start := DecodeFrom(f, old(Tables()), jrow == 0, old(Half(jrow + 1)), [], old(RowPredictions(jrow)), old(RowBits(jrow)));
              (jrow == 0 || old(buf.vbits) >= 0) && start.Some? ==>
                && buf.vbits >= 0 && buf.failed == old(buf.failed) && errors == old(errors) + start.value.errors
                && Half(jrow) == start.value.row && vpred[..] == start.value.vpred && buf.Rest() == start.value.rest
    {
      hide DecodeDiff, TableShape, BitBuf.Valid, BitBuf.Rest, Pow2, Half, Shr, Midpoints, Underway;
      ghost var start := DecodeFrom(f, Tables(), jrow == 0, Half(jrow + 1), [], RowPredictions(jrow), RowBits(jrow));
      ghost var failed, errs := buf.failed, errors;
      if jrow > 0 && buf.vbits < 0 { start := None; }
      if jrow == 0 { Begin(); }
      FirstSample(jrow, start);
      var col, i := 0, 0;
      while col < f.wide
        invariant 0 <= col <= f.wide && i == col * f.clrs
        invariant Valid() && i <= f.Width() && Half(jrow + 1) == old(Half(jrow + 1))
        invariant Underway(jrow, i, start, failed, errs)
      {
        var c := 0;
        while c < f.clrs
          invariant 0 <= c <= f.clrs && i == col * f.clrs + c
          invariant Valid() && i <= f.Width() && Half(jrow + 1) == old(Half(jrow + 1))
          invariant Underway(jrow, i, start, failed, errs)
        {
          Column(f, col, c);
          NextSample(jrow, col, c, i, start, failed, errs);
          i := i + 1;
          c := c + 1;
        }
        Column(f, col, f.clrs - 1);
        col := col + 1;
      }
      RowDone(jrow, start, failed, errs);
    }

    lemma HalfAgain(j: nat)
      requires row.Length == 2 * f.Width()
      ensures Half(j + 2) == Half(j)
    {
    }

    lemma Shaped()
      requires Valid()
      ensures TablesShaped(f, Tables())
    {
    }

    lemma FirstSample(jrow: nat, start: Option<RowOut>)
      requires Valid() && (start.Some? ==> buf.vbits >= 0)
      requires start.Some? ==> start == DecodeFrom(f, Tables(), jrow == 0, Half(jrow + 1), [], vpred[..], buf.Rest())
      ensures Underway(jrow, 0, start, buf.failed, errors)
    {
      hide DecodeFrom;
      assert Half(jrow)[..0] == [];
    }

    lemma RowDone(jrow: nat, start: Option<RowOut>, failed: bool, errs: nat)
      requires Valid() && Underway(jrow, f.Width(), start, failed, errs)
      ensures start.Some? ==>
                && buf.vbits >= 0 && buf.failed == failed && errors == errs + start.value.errors
                && Half(jrow) == start.value.row && vpred[..] == start.value.vpred && buf.Rest() == start.value.rest
    {
      assert Half(jrow)[..f.Width()] == Half(jrow);
    }
  }

  lemma Column(f: Frame, col: nat, c: nat)
    requires f.Ok() && col < f.wide && c < f.clrs
    ensures var i := col * f.clrs + c; i < f.Width() && i % f.clrs == c && (col == 0 <==> i < f.clrs)
    ensures (col + 1) * f.clrs == col * f.clrs + f.clrs <= f.Width()
  {
    DivUnique(col * f.clrs + c, f.clrs, col, c);
    MulSign(f.clrs, f.wide - col - 1);
    assert f.wide * f.clrs == (f.wide - col - 1) * f.clrs + (col + 1) * f.clrs;
    if col > 0 { MulSign(f.clrs, col - 1); assert col * f.clrs == (col - 1) * f.clrs + f.clrs; }
  }

  /** ljpeg_diff. */
  method Diff(buf: BitBuf, huff: array<nat>) returns (diff: int)
    requires buf.Valid() && TableShape(huff[..])
    modifies buf
    ensures buf.Valid()
    ensures old(buf.vbits) >= 0 && DecodeDiff(huff[..], old(buf.Rest())).Some? ==>
              && DecodeDiff(huff[..], old(buf.Rest())) == Some((diff, buf.Rest()))
              && buf.vbits >= 0 && buf.failed == old(buf.failed)
  {
    hide ToNat, Pow2, BitBuf.Rest, BitBuf.Valid, PadTake;
    var len := buf.GetHuff(huff);
    if len == 16 { return -32768; }
    diff := buf.GetBits(len);
    if len > 0 && diff < Pow2(len - 1) { diff := diff - (Pow2(len) - 1); }
  }
}
