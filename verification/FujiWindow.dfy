/** The 18 line buffers and the contexts as a value, the events that change them, and the two
    ways of running a list of events: decoding a bit stream, or encoding given samples in
    lockstep. For every list of events the second undoes the first. */
module FujiWindow {
  import opened Bits
  import opened FujiCodec

  const LINES := 18

  /** fuji_compressed_params, as far as decoding depends on it. */
  datatype Params = Params(depth: Depth, xtrans: bool, lineWidth: nat)

  /** `lines[L]` holds one padding cell, `lineWidth` samples and one padding cell; the context
      tables are `grad_even[3][41]` and `grad_odd[3][41]`, row after row. */
  datatype Window = Window(lines: seq<seq<int>>, even: seq<Ctx>, odd: seq<Ctx>)

  datatype Ev =
    | Sample(odd: bool, line: nat, pos: nat, table: nat)   // fuji_decode_sample_even / _odd
    | Fill(line: nat, pos: nat)                            // fuji_decode_interpolation_even
    | Extend(first: nat, last: nat)                        // fuji_extend_generic

  predicate EvOk(p: Params, ev: Ev) {
    match ev
    case Sample(_, line, pos, table) => 2 <= line < LINES && pos < p.lineWidth && table < 3
    case Fill(line, pos) => 2 <= line < LINES && pos < p.lineWidth
    case Extend(first, last) => 1 <= first <= last < LINES
  }

  predicate Shape(p: Params, w: Window) {
    && |w.lines| == LINES && |w.even| == |w.odd| == 3 * CONTEXTS
    && forall l :: 0 <= l < LINES ==> |w.lines[l]| == p.lineWidth + 2
  }

  predicate InRange(d: Depth, line: seq<int>) {
    forall j :: 0 <= j < |line| ==> 0 <= line[j] <= d.QMax()
  }

  /** What every reachable state satisfies, whatever the stream held. */
  predicate Healthy(p: Params, w: Window): (h: bool)
    ensures h ==> Shape(p, w)
  {
    && Shape(p, w)
    && (forall l :: 0 <= l < LINES ==> InRange(p.depth, w.lines[l]))
    && (forall i :: 0 <= i < |w.even| ==> CtxOk(w.even[i]))
    && (forall i :: 0 <= i < |w.odd| ==> CtxOk(w.odd[i]))
  }

  /** What it satisfies besides while no code was out of range. */
  predicate Bounded(p: Params, w: Window) {
    && (forall i :: 0 <= i < |w.even| ==> CtxBounded(p.depth, w.even[i]))
    && (forall i :: 0 <= i < |w.odd| ==> CtxBounded(p.depth, w.odd[i]))
  }

  /** init_fuji_block. */
  function InitialWindow(p: Params): (w: Window)
    ensures Healthy(p, w) && Bounded(p, w)
  {
    Window(seq(LINES, _ => seq(p.lineWidth + 2, _ => 0)),
           seq(3 * CONTEXTS, _ => InitialCtx(p.depth)),
           seq(3 * CONTEXTS, _ => InitialCtx(p.depth)))
  }

  // ---------------------------------------------------------------- one event

  /** The cells a prediction reads, given whole lines: the line above, and for even positions
      the one above that, for odd positions the line itself. Cell `pos + 1` is sample `pos`. */
  function HoodOf(odd: bool, pos: nat, above: seq<int>, above2: seq<int>, current: seq<int>): Hood
    requires pos + 2 < |above| && pos + 2 < |above2| && pos + 2 < |current|
  {
    if odd then Odd(current[pos], above[pos + 1], above[pos], above[pos + 2], current[pos + 2])
    else Even(above[pos + 1], above[pos], above[pos + 2], above2[pos + 1])
  }

  function Around(p: Params, w: Window, odd: bool, line: nat, pos: nat): Hood
    requires Shape(p, w) && 2 <= line < LINES && pos < p.lineWidth
  {
    HoodOf(odd, pos, w.lines[line - 1], w.lines[line - 2], w.lines[line])
  }

  function Slot(d: Depth, table: nat, h: Hood): (i: nat)
    requires table < 3
    ensures i < 3 * CONTEXTS
  {
    CONTEXTS * table + Abs(Sloped(h, d))
  }

  function CtxFor(p: Params, w: Window, ev: Ev): Ctx
    requires Shape(p, w) && EvOk(p, ev) && ev.Sample?
  {
    var i := Slot(p.depth, ev.table, Around(p, w, ev.odd, ev.line, ev.pos));
    if ev.odd then w.odd[i] else w.even[i]
  }

  function PutCell(lines: seq<seq<int>>, line: nat, cell: nat, x: int): (r: seq<seq<int>>)
    requires line < |lines| && cell < |lines[line]|
    ensures |r| == |lines| && r[line] == lines[line][cell := x]
    ensures forall l :: 0 <= l < |lines| && l != line ==> r[l] == lines[l]
  {
    lines[line := lines[line][cell := x]]
  }

  /** Sample `x` with residual `s` enters the window. */
  function Store(p: Params, w: Window, ev: Ev, x: int, s: int): (r: Window)
    requires Shape(p, w) && EvOk(p, ev) && ev.Sample?
    ensures Shape(p, r)
  {
    var i := Slot(p.depth, ev.table, Around(p, w, ev.odd, ev.line, ev.pos));
    var lines := PutCell(w.lines, ev.line, ev.pos + 1, x);
    if ev.odd then Window(lines, w.even, w.odd[i := Adapt(w.odd[i], s)])
    else Window(lines, w.even[i := Adapt(w.even[i], s)], w.odd)
  }

  function Filled(p: Params, w: Window, line: nat, pos: nat): (r: Window)
    requires Shape(p, w) && 2 <= line < LINES && pos < p.lineWidth
    ensures Shape(p, r)
  {
    w.(lines := PutCell(w.lines, line, pos + 1, Predict(Around(p, w, false, line, pos))))
  }

  /** fuji_extend_generic: each line's padding is taken from the ends of the line before. */
  function Extended(p: Params, lines: seq<seq<int>>, first: nat, last: nat): (r: seq<seq<int>>)
    requires |lines| == LINES && forall l :: 0 <= l < LINES ==> |lines[l]| == p.lineWidth + 2
    requires 1 <= first && last < LINES
    ensures |r| == LINES && forall l :: 0 <= l < LINES ==> |r[l]| == p.lineWidth + 2
    decreases last - first + 1
  {
    if first > last then lines
    else
      assert |lines[first - 1]| == p.lineWidth + 2;
      var a := PutCell(lines, first, 0, lines[first - 1][1]);
      var b := PutCell(a, first, p.lineWidth + 1, a[first - 1][p.lineWidth]);
      Extended(p, b, first + 1, last)
  }

  /** The outcome of decoding: `None` is a stream that runs out of 1 bits, on which the C code
      does not return. */
  datatype Outcome = Outcome(window: Window, rest: seq<bool>, errors: nat)

  function DecodeEv(p: Params, w: Window, ev: Ev, bits: seq<bool>): (r: Option<Outcome>)
    requires Healthy(p, w) && EvOk(p, ev)
    ensures r.Some? ==> Shape(p, r.value.window)
  {
    match ev
    case Sample(odd, line, pos, table) =>
      (match DecodeCode(p.depth, CtxFor(p, w, ev), bits)
       case None => None
       case Some(c) =>
         var h := Around(p, w, odd, line, pos);
         var s := Signed(c.code);
         var x := Reconstruct(p.depth, Predict(h), Sloped(h, p.depth), s);
         Some(Outcome(Store(p, w, ev, x, s), c.rest, if c.code >= p.depth.TotalValues() then 1 else 0)))
    case Fill(line, pos) => Some(Outcome(Filled(p, w, line, pos), bits, 0))
    case Extend(first, last) => Some(Outcome(w.(lines := Extended(p, w.lines, first, last)), bits, 0))
  }

  /** The window after an event whose sample is known to be `x`. */
  function After(p: Params, w: Window, ev: Ev, x: int): (r: Window)
    requires Shape(p, w) && EvOk(p, ev)
    ensures Shape(p, r)
  {
    match ev
    case Sample(odd, line, pos, table) =>
      var h := Around(p, w, odd, line, pos);
      Store(p, w, ev, x, Residual(p.depth, Predict(h), Sloped(h, p.depth), x))
    case Fill(line, pos) => Filled(p, w, line, pos)
    case Extend(first, last) => w.(lines := Extended(p, w.lines, first, last))
  }

  /** The bits the lockstep encoder emits for an event. */
  function EncodeEv(p: Params, w: Window, ev: Ev, x: int): seq<bool>
    requires Healthy(p, w) && EvOk(p, ev) && 0 <= x <= p.depth.QMax()
  {
    if ev.Sample? then
      var h := Around(p, w, ev.odd, ev.line, ev.pos);
      AroundInRange(p, w, ev.odd, ev.line, ev.pos);
      EncodeSample(p.depth, h, CtxFor(p, w, ev), x)
    else []
  }

  function EncodeSample(d: Depth, h: Hood, c: Ctx, x: int): seq<bool>
    requires h.InRange(d.QMax()) && CtxOk(c) && 0 <= x <= d.QMax()
  {
    PredictInRange(h, d.QMax());
    ResidualInverts(d, Predict(h), Sloped(h, d), x);
    EncodeCode(d, c, Zigzag(Residual(d, Predict(h), Sloped(h, d), x)))
  }

  // ---------------------------------------------------------------- every event keeps the state healthy

  lemma AroundInRange(p: Params, w: Window, odd: bool, line: nat, pos: nat)
    requires Healthy(p, w) && 2 <= line < LINES && pos < p.lineWidth
    ensures Around(p, w, odd, line, pos).InRange(p.depth.QMax())
  {
    assert InRange(p.depth, w.lines[line]) && InRange(p.depth, w.lines[line - 1]) && InRange(p.depth, w.lines[line - 2]);
  }

  lemma PutKeepsRange(p: Params, lines: seq<seq<int>>, line: nat, cell: nat, x: int)
    requires |lines| == LINES && forall l :: 0 <= l < LINES ==> InRange(p.depth, lines[l])
    requires line < LINES && cell < |lines[line]| && 0 <= x <= p.depth.QMax()
    ensures forall l :: 0 <= l < LINES ==> InRange(p.depth, PutCell(lines, line, cell, x)[l])
  {
  }

  lemma StoreKeeps(p: Params, w: Window, ev: Ev, x: int, s: int)
    requires Healthy(p, w) && EvOk(p, ev) && ev.Sample? && 0 <= x <= p.depth.QMax()
    ensures Healthy(p, Store(p, w, ev, x, s))
    ensures Bounded(p, w) && Abs(s) <= p.depth.TotalValues() / 2 ==> Bounded(p, Store(p, w, ev, x, s))
  {
    PutKeepsRange(p, w.lines, ev.line, ev.pos + 1, x);
    AdaptKeeps(p.depth, CtxFor(p, w, ev), s);
  }

  lemma {:induction false} ExtendKeeps(p: Params, lines: seq<seq<int>>, first: nat, last: nat)
    requires |lines| == LINES && forall l :: 0 <= l < LINES ==> |lines[l]| == p.lineWidth + 2
    requires 1 <= first && last < LINES
    requires forall l :: 0 <= l < LINES ==> InRange(p.depth, lines[l])
    ensures forall l :: 0 <= l < LINES ==> InRange(p.depth, Extended(p, lines, first, last)[l])
    decreases last - first + 1
  {
    if first <= last {
      hide InRange;
      var a := PutCell(lines, first, 0, lines[first - 1][1]);
      assert 0 <= lines[first - 1][1] <= p.depth.QMax() && 0 <= lines[first - 1][p.lineWidth] <= p.depth.QMax() by {
        CellInRange(p.depth, lines[first - 1], 1);
        CellInRange(p.depth, lines[first - 1], p.lineWidth);
      }
      PutKeepsRange(p, lines, first, 0, lines[first - 1][1]);
      PutKeepsRange(p, a, first, p.lineWidth + 1, a[first - 1][p.lineWidth]);
      ExtendKeeps(p, PutCell(a, first, p.lineWidth + 1, a[first - 1][p.lineWidth]), first + 1, last);
    }
  }

  lemma CellInRange(d: Depth, line: seq<int>, j: nat)
    requires InRange(d, line) && j < |line|
    ensures 0 <= line[j] <= d.QMax()
  {
  }

  lemma FillKeeps(p: Params, w: Window, line: nat, pos: nat)
    requires Healthy(p, w) && 2 <= line < LINES && pos < p.lineWidth
    ensures Healthy(p, Filled(p, w, line, pos))
  {
    AroundInRange(p, w, false, line, pos);
    PredictInRange(Around(p, w, false, line, pos), p.depth.QMax());
    PutKeepsRange(p, w.lines, line, pos + 1, Predict(Around(p, w, false, line, pos)));
  }

  /** On any stream whatever, an event leaves every cell in [0, q_point[4]] and every context
      usable; without an error it also keeps the contexts within their bound. */
  lemma DecodeEvKeeps(p: Params, w: Window, ev: Ev, bits: seq<bool>)
    requires Healthy(p, w) && EvOk(p, ev) && DecodeEv(p, w, ev, bits).Some?
    ensures var o := DecodeEv(p, w, ev, bits).value;
            && Healthy(p, o.window)
            && (Bounded(p, w) && o.errors == 0 ==> Bounded(p, o.window))
  {
    hide DecodeCode, Around, Store, Extended, InRange;
    match ev
    case Sample(odd, line, pos, table) =>
      var c := DecodeCode(p.depth, CtxFor(p, w, ev), bits).value;
      var h := Around(p, w, odd, line, pos);
      ZigzagBijection(p.depth, c.code, Signed(c.code));
      StoreKeeps(p, w, ev, Reconstruct(p.depth, Predict(h), Sloped(h, p.depth), Signed(c.code)), Signed(c.code));
    case Fill(line, pos) =>
      FillKeeps(p, w, line, pos);
    case Extend(first, last) =>
      ExtendKeeps(p, w.lines, first, last);
  }

  lemma AfterKeeps(p: Params, w: Window, ev: Ev, x: int)
    requires Healthy(p, w) && EvOk(p, ev) && 0 <= x <= p.depth.QMax()
    ensures Healthy(p, After(p, w, ev, x))
  {
    match ev
    case Sample(odd, line, pos, table) =>
      var h := Around(p, w, odd, line, pos);
      StoreKeeps(p, w, ev, x, Residual(p.depth, Predict(h), Sloped(h, p.depth), x));
    case Fill(line, pos) =>
      FillKeeps(p, w, line, pos);
    case Extend(first, last) =>
      ExtendKeeps(p, w.lines, first, last);
  }

  /** One event: what the encoder emits for `x`, the decoder turns into `x`. */
  lemma EvRoundTrip(p: Params, w: Window, ev: Ev, x: int, tail: seq<bool>)
    requires Healthy(p, w) && EvOk(p, ev) && 0 <= x <= p.depth.QMax()
    ensures DecodeEv(p, w, ev, EncodeEv(p, w, ev, x) + tail) == Some(Outcome(After(p, w, ev, x), tail, 0))
  {
    match ev
    case Sample(odd, line, pos, table) =>
      var h := Around(p, w, odd, line, pos);
      AroundInRange(p, w, odd, line, pos);
      PredictInRange(h, p.depth.QMax());
      ResidualInverts(p.depth, Predict(h), Sloped(h, p.depth), x);
      var s := Residual(p.depth, Predict(h), Sloped(h, p.depth), x);
      ZigzagBijection(p.depth, Zigzag(s), s);
      CodeRoundTrip(p.depth, CtxFor(p, w, ev), Zigzag(s), tail);
    case Fill(line, pos) =>
      assert [] + tail == tail;
    case Extend(first, last) =>
      assert [] + tail == tail;
  }

  // ---------------------------------------------------------------- lists of events

  predicate EvsOk(p: Params, evs: seq<Ev>) {
    forall i :: 0 <= i < |evs| ==> EvOk(p, evs[i])
  }

  /** Samples for the lines of the window, in range. */
  predicate SourceOk(p: Params, src: seq<seq<int>>) {
    && |src| == LINES
    && forall l :: 0 <= l < LINES ==> |src[l]| == p.lineWidth && InRange(p.depth, src[l])
  }

  function SourceAt(p: Params, src: seq<seq<int>>, ev: Ev): (x: int)
    requires SourceOk(p, src) && EvOk(p, ev)
    ensures 0 <= x <= p.depth.QMax()
  {
    if ev.Sample? then
      CellInRange(p.depth, src[ev.line], ev.pos);
      src[ev.line][ev.pos]
    else 0
  }

  /** Decode a stream along a list of events. */
  function DecodeAll(p: Params, w: Window, evs: seq<Ev>, bits: seq<bool>): (r: Option<Outcome>)
    requires Healthy(p, w) && EvsOk(p, evs)
    ensures r.Some? ==> Healthy(p, r.value.window)
    decreases |evs|
  {
    if evs == [] then Some(Outcome(w, bits, 0))
    else match DecodeEv(p, w, evs[0], bits)
      case None => None
      case Some(o) =>
        DecodeEvKeeps(p, w, evs[0], bits);
        match DecodeAll(p, o.window, evs[1..], o.rest)
        case None => None
        case Some(o') => Some(Outcome(o'.window, o'.rest, o.errors + o'.errors))
  }

  /** The window after the same events with the samples taken from `src`. */
  function RunAll(p: Params, w: Window, evs: seq<Ev>, src: seq<seq<int>>): (r: Window)
    requires Healthy(p, w) && EvsOk(p, evs) && SourceOk(p, src)
    ensures Healthy(p, r)
    decreases |evs|
  {
    if evs == [] then w
    else
      var x := SourceAt(p, src, evs[0]);
      AfterKeeps(p, w, evs[0], x);
      RunAll(p, After(p, w, evs[0], x), evs[1..], src)
  }

  /** The bits of the lockstep encoder. */
  function EncodeAll(p: Params, w: Window, evs: seq<Ev>, src: seq<seq<int>>): seq<bool>
    requires Healthy(p, w) && EvsOk(p, evs) && SourceOk(p, src)
    decreases |evs|
  {
    if evs == [] then []
    else
      var x := SourceAt(p, src, evs[0]);
      AfterKeeps(p, w, evs[0], x);
      EncodeEv(p, w, evs[0], x) + EncodeAll(p, After(p, w, evs[0], x), evs[1..], src)
  }

  /** Losslessness, for every list of events and every state: decoding the encoder's bits gives
      the encoder's window, without error, and leaves exactly what followed the bits. */
  lemma {:induction false} RoundTrip(p: Params, w: Window, evs: seq<Ev>, src: seq<seq<int>>, tail: seq<bool>)
    requires Healthy(p, w) && EvsOk(p, evs) && SourceOk(p, src)
    ensures DecodeAll(p, w, evs, EncodeAll(p, w, evs, src) + tail) == Some(Outcome(RunAll(p, w, evs, src), tail, 0))
    decreases |evs|
  {
    hide Healthy, DecodeEv, After, EncodeEv, SourceOk, SourceAt, EvOk;
    if evs == [] {
      assert [] + tail == tail;
    } else {
      var x := SourceAt(p, src, evs[0]);
      AfterKeeps(p, w, evs[0], x);
      var w' := After(p, w, evs[0], x);
      var more := EncodeAll(p, w', evs[1..], src) + tail;
      EvRoundTrip(p, w, evs[0], x, more);
      RoundTrip(p, w', evs[1..], src, tail);
      assert EncodeAll(p, w, evs, src) + tail == EncodeEv(p, w, evs[0], x) + more;
    }
  }

  /** At every event of a run, and at its end, all contexts are within their bound. */
  ghost predicate AlwaysBounded(p: Params, w: Window, evs: seq<Ev>, bits: seq<bool>)
    requires Healthy(p, w) && EvsOk(p, evs)
    decreases |evs|
  {
    Bounded(p, w) &&
    (evs == [] ||
     match DecodeEv(p, w, evs[0], bits)
     case None => true
     case Some(o) => DecodeEvKeeps(p, w, evs[0], bits); AlwaysBounded(p, o.window, evs[1..], o.rest))
  }

  /** The adaptive Golomb bound over every run: as long as no code was out of range, every
      context stays within its bound, so the cap in bitDiff is never felt. */
  lemma {:induction false} BoundOverRuns(p: Params, w: Window, evs: seq<Ev>, bits: seq<bool>)
    requires Healthy(p, w) && Bounded(p, w) && EvsOk(p, evs) && DecodeAll(p, w, evs, bits).Some?
    requires DecodeAll(p, w, evs, bits).value.errors == 0
    ensures AlwaysBounded(p, w, evs, bits) && Bounded(p, DecodeAll(p, w, evs, bits).value.window)
    decreases |evs|
  {
    if evs != [] {
      hide Healthy, Bounded, DecodeEv, EvOk;
      DecodeEvKeeps(p, w, evs[0], bits);
      var o := DecodeEv(p, w, evs[0], bits).value;
      BoundOverRuns(p, o.window, evs[1..], o.rest);
    }
  }

  /** Running one list and then another. */
  lemma {:induction false} DecodeConcat(p: Params, w: Window, a: seq<Ev>, b: seq<Ev>, bits: seq<bool>)
    requires Healthy(p, w) && EvsOk(p, a) && EvsOk(p, b)
    ensures DecodeAll(p, w, a + b, bits) ==
            match DecodeAll(p, w, a, bits)
            case None => None
            case Some(o) =>
              match DecodeAll(p, o.window, b, o.rest)
              case None => None
              case Some(o') => Some(Outcome(o'.window, o'.rest, o.errors + o'.errors))
    decreases |a|
  {
    hide Healthy, DecodeEv, EvOk;
    if a == [] {
      assert a + b == b;
    } else {
      assert (a + b)[0] == a[0] && (a + b)[1..] == a[1..] + b;
      match DecodeEv(p, w, a[0], bits)
      case None =>
      case Some(o) =>
        DecodeEvKeeps(p, w, a[0], bits);
        DecodeConcat(p, o.window, a[1..], b, o.rest);
    }
  }

  lemma {:induction false} RunConcat(p: Params, w: Window, a: seq<Ev>, b: seq<Ev>, src: seq<seq<int>>)
    requires Healthy(p, w) && EvsOk(p, a) && EvsOk(p, b) && SourceOk(p, src)
    ensures EvsOk(p, a + b)
    ensures RunAll(p, w, a + b, src) == RunAll(p, RunAll(p, w, a, src), b, src)
    ensures EncodeAll(p, w, a + b, src) == EncodeAll(p, w, a, src) + EncodeAll(p, RunAll(p, w, a, src), b, src)
    decreases |a|
  {
    hide Healthy, After, EncodeEv, SourceOk, SourceAt, EvOk;
    if a == [] {
      assert a + b == b;
    } else {
      assert (a + b)[0] == a[0] && (a + b)[1..] == a[1..] + b;
      var x := SourceAt(p, src, a[0]);
      AfterKeeps(p, w, a[0], x);
      RunConcat(p, After(p, w, a[0], x), a[1..], b, src);
    }
  }
}
