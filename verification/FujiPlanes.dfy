/** Whole colour planes instead of a rolling window. An encoder that keeps all rows of all
    three planes emits the same bits as one that keeps 18 line buffers and rotates them, and
    the window decoder turns these bits back into the planes. */
module FujiPlanes {
  import opened Bits
  import opened FujiCodec
  import opened FujiWindow
  import opened FujiSchedule

  /** Red, green and blue rows of a strip. */
  type Planes = seq<seq<seq<int>>>

  /** A row with its two padding cells: the end samples of the row before. */
  function PadRow(p: Params, plane: seq<seq<int>>, row: int): (r: seq<int>)
    requires row < |plane| && p.lineWidth > 0
    requires forall i :: 0 <= i < |plane| ==> |plane[i]| == p.lineWidth
    ensures |r| == p.lineWidth + 2
  {
    if row < 0 then seq(p.lineWidth + 2, _ => 0)
    else if row == 0 then [0] + plane[0] + [0]
    else [plane[row - 1][0]] + plane[row] + [plane[row - 1][p.lineWidth - 1]]
  }

  /** Planes of `n` groups with every sample in range. */
  ghost predicate PlanesOk(p: Params, n: nat, planes: Planes): (ok: bool)
    ensures ok ==> p.lineWidth > 8
  {
    && p.lineWidth > 8 && |planes| == 3
    && (forall c :: 0 <= c < 3 ==> |planes[c]| == PerGroup(c) * n)
    && (forall c, r :: 0 <= c < 3 && 0 <= r < |planes[c]| ==>
          |planes[c][r]| == p.lineWidth && InRange(p.depth, planes[c][r]))
  }

  /** The padded plane row that buffer `line` stands for in group `g`. */
  function Row(p: Params, n: nat, planes: Planes, g: nat, line: nat): (r: seq<int>)
    requires PlanesOk(p, n, planes) && g < n && line < LINES
    ensures |r| == p.lineWidth + 2
  {
    RowInPlane(p, n, planes, g, line);
    PadRow(p, planes[Colour(line)], RowOf(g, line))
  }

  lemma RowInPlane(p: Params, n: nat, planes: Planes, g: nat, line: nat)
    requires PlanesOk(p, n, planes) && g < n && line < LINES
    ensures RowOf(g, line) < |planes[Colour(line)]|
    ensures Rank(line) >= 0 ==> RowOf(g, line) >= 0
  {
    assert PerGroup(Colour(line)) * g + PerGroup(Colour(line)) <= PerGroup(Colour(line)) * n;
  }

  /** The samples of group `g`, buffer by buffer. */
  function GroupSource(p: Params, n: nat, planes: Planes, g: nat): (src: seq<seq<int>>)
    requires PlanesOk(p, n, planes) && g < n
    ensures |src| == LINES
  {
    seq(LINES, l requires 0 <= l < LINES => Row(p, n, planes, g, l)[1..p.lineWidth + 1])
  }

  lemma RowInRange(p: Params, n: nat, planes: Planes, g: nat, line: nat)
    requires PlanesOk(p, n, planes) && g < n && line < LINES
    ensures InRange(p.depth, Row(p, n, planes, g, line))
  {
    RowInPlane(p, n, planes, g, line);
    var plane, row := planes[Colour(line)], RowOf(g, line);
    if row >= 0 {
      assert InRange(p.depth, plane[row]);
      if row > 0 { assert InRange(p.depth, plane[row - 1]); }
    }
  }

  lemma GroupSourceOk(p: Params, n: nat, planes: Planes, g: nat)
    requires PlanesOk(p, n, planes) && g < n
    ensures SourceOk(p, GroupSource(p, n, planes, g))
  {
    forall l | 0 <= l < LINES
      ensures |GroupSource(p, n, planes, g)[l]| == p.lineWidth && InRange(p.depth, GroupSource(p, n, planes, g)[l])
    {
      RowInRange(p, n, planes, g, l);
    }
  }

  /** What a sample is predicted from, read off the planes. */
  function PlaneHood(p: Params, n: nat, planes: Planes, g: nat, odd: bool, line: nat, pos: nat): Hood
    requires PlanesOk(p, n, planes) && g < n && 2 <= line < LINES && pos < p.lineWidth
  {
    HoodOf(odd, pos, Row(p, n, planes, g, line - 1), Row(p, n, planes, g, line - 2), Row(p, n, planes, g, line))
  }

  lemma PlaneHoodInRange(p: Params, n: nat, planes: Planes, g: nat, odd: bool, line: nat, pos: nat)
    requires PlanesOk(p, n, planes) && g < n && 2 <= line < LINES && pos < p.lineWidth
    ensures PlaneHood(p, n, planes, g, odd, line, pos).InRange(p.depth.QMax())
  {
    RowInRange(p, n, planes, g, line);
    RowInRange(p, n, planes, g, line - 1);
    RowInRange(p, n, planes, g, line - 2);
  }

  /** Samples that are not in the stream hold the interpolation of the rows above. */
  ghost predicate FillersOk(p: Params, n: nat, planes: Planes): (f: bool)
    ensures f ==> PlanesOk(p, n, planes)
  {
    PlanesOk(p, n, planes) &&
    forall g, line, pos :: 0 <= g < n && 2 <= line < LINES && Rank(line) >= 0 && 0 <= pos < p.lineWidth && !IsCoded(p, line, pos) ==>
      Row(p, n, planes, g, line)[pos + 1] == Predict(PlaneHood(p, n, planes, g, false, line, pos))
  }

  /** Bits emitted, and the contexts after them. */
  datatype Emitted = Emitted(bits: seq<bool>, even: seq<Ctx>, odd: seq<Ctx>)

  predicate TablesOk(even: seq<Ctx>, odd: seq<Ctx>) {
    && |even| == |odd| == 3 * CONTEXTS
    && (forall i :: 0 <= i < |even| ==> CtxOk(even[i]))
    && (forall i :: 0 <= i < |odd| ==> CtxOk(odd[i]))
  }

  lemma TablesKept(even: seq<Ctx>, odd: seq<Ctx>, i: nat, c: Ctx)
    requires TablesOk(even, odd) && i < 3 * CONTEXTS && CtxOk(c)
    ensures TablesOk(even[i := c], odd) && TablesOk(even, odd[i := c])
  {
    hide CtxOk;
  }

  /** The encoder that sees whole planes: contexts are all the state it has. */
  function PlaneCode(p: Params, n: nat, planes: Planes, g: nat, evs: seq<Ev>, even: seq<Ctx>, odd: seq<Ctx>): (r: Emitted)
    requires PlanesOk(p, n, planes) && g < n && EvsOk(p, evs) && TablesOk(even, odd)
    ensures TablesOk(r.even, r.odd)
    decreases |evs|
  {
    if evs == [] then Emitted([], even, odd)
    else if !evs[0].Sample? then PlaneCode(p, n, planes, g, evs[1..], even, odd)
    else
      var a := SampleCode(p, n, planes, g, evs[0], even, odd);
      var r := PlaneCode(p, n, planes, g, evs[1..], a.even, a.odd);
      r.(bits := a.bits + r.bits)
  }

  /** One sample of it. */
  function SampleCode(p: Params, n: nat, planes: Planes, g: nat, ev: Ev, even: seq<Ctx>, odd: seq<Ctx>): (r: Emitted)
    requires PlanesOk(p, n, planes) && g < n && EvOk(p, ev) && ev.Sample? && TablesOk(even, odd)
    ensures TablesOk(r.even, r.odd)
  {
    var h := PlaneHood(p, n, planes, g, ev.odd, ev.line, ev.pos);
    PlaneHoodInRange(p, n, planes, g, ev.odd, ev.line, ev.pos);
    RowInRange(p, n, planes, g, ev.line);
    var x := Row(p, n, planes, g, ev.line)[ev.pos + 1];
    var s := Residual(p.depth, Predict(h), Sloped(h, p.depth), x);
    var i := Slot(p.depth, ev.table, h);
    var c := if ev.odd then odd[i] else even[i];
    AdaptKeeps(p.depth, c, s);
    TablesKept(even, odd, i, Adapt(c, s));
    hide Adapt, TablesOk;
    if ev.odd then Emitted(EncodeSample(p.depth, h, c, x), even, odd[i := Adapt(c, s)])
    else Emitted(EncodeSample(p.depth, h, c, x), even[i := Adapt(c, s)], odd)
  }

  /** An event sees the planes' neighbours. */
  ghost predicate Sees(p: Params, n: nat, planes: Planes, g: nat, w: Window, ev: Ev)
    requires PlanesOk(p, n, planes) && g < n && Shape(p, w) && EvOk(p, ev)
  {
    ev.Sample? ==> Around(p, w, ev.odd, ev.line, ev.pos) == PlaneHood(p, n, planes, g, ev.odd, ev.line, ev.pos)
  }

  /** The window after one event of group `g`. */
  function Next(p: Params, n: nat, planes: Planes, g: nat, w: Window, ev: Ev): (r: Window)
    requires PlanesOk(p, n, planes) && g < n && Healthy(p, w) && EvOk(p, ev)
    ensures Healthy(p, r)
  {
    GroupSourceOk(p, n, planes, g);
    var x := SourceAt(p, GroupSource(p, n, planes, g), ev);
    AfterKeeps(p, w, ev, x);
    After(p, w, ev, x)
  }

  /** At every sample event of a run, the window shows what the planes show. */
  ghost predicate Agrees(p: Params, n: nat, planes: Planes, g: nat, w: Window, evs: seq<Ev>)
    requires PlanesOk(p, n, planes) && g < n && Healthy(p, w) && EvsOk(p, evs)
    decreases |evs|
  {
    evs == [] || (Sees(p, n, planes, g, w, evs[0]) && Agrees(p, n, planes, g, Next(p, n, planes, g, w, evs[0]), evs[1..]))
  }

  lemma RunNext(p: Params, n: nat, planes: Planes, g: nat, w: Window, evs: seq<Ev>)
    requires PlanesOk(p, n, planes) && g < n && Healthy(p, w) && EvsOk(p, evs) && SourceOk(p, GroupSource(p, n, planes, g))
    ensures RunAll(p, w, evs, GroupSource(p, n, planes, g)) ==
            if evs == [] then w
            else RunAll(p, Next(p, n, planes, g, w, evs[0]), evs[1..], GroupSource(p, n, planes, g))
  {
  }

  /** One event of the window encoder, said in terms of the planes. */
  lemma NextTables(p: Params, n: nat, planes: Planes, g: nat, w: Window, ev: Ev)
    requires PlanesOk(p, n, planes) && g < n && Healthy(p, w) && EvOk(p, ev) && Sees(p, n, planes, g, w, ev)
    requires SourceOk(p, GroupSource(p, n, planes, g))
    ensures var w' := Next(p, n, planes, g, w, ev);
            var bits := EncodeEv(p, w, ev, SourceAt(p, GroupSource(p, n, planes, g), ev));
            PlaneCode(p, n, planes, g, [ev], w.even, w.odd) == Emitted(bits, w'.even, w'.odd)
  {
    hide Row, Residual, Predict, Sloped, Adapt, EncodeSample, SourceOk;
    var one := [ev];
    assert one[1..] == [];
    if ev.Sample? {
      assert SourceAt(p, GroupSource(p, n, planes, g), ev) == Row(p, n, planes, g, ev.line)[ev.pos + 1];
    }
  }

  lemma PlaneCodeCons(p: Params, n: nat, planes: Planes, g: nat, evs: seq<Ev>, even: seq<Ctx>, odd: seq<Ctx>)
    requires PlanesOk(p, n, planes) && g < n && EvsOk(p, evs) && evs != [] && TablesOk(even, odd)
    ensures EvsOk(p, [evs[0]])
    ensures var a := PlaneCode(p, n, planes, g, [evs[0]], even, odd);
            var r := PlaneCode(p, n, planes, g, evs[1..], a.even, a.odd);
            PlaneCode(p, n, planes, g, evs, even, odd) == Emitted(a.bits + r.bits, r.even, r.odd)
  {
    hide Row, Residual, Predict, Sloped, Adapt, EncodeSample, PlaneHood, Slot;
    var one := [evs[0]];
    assert one[1..] == [];
  }

  /** Then the two encoders emit the same bits and end with the same contexts. */
  lemma {:induction false} SameBits(p: Params, n: nat, planes: Planes, g: nat, w: Window, evs: seq<Ev>)
    requires PlanesOk(p, n, planes) && g < n && Healthy(p, w) && EvsOk(p, evs)
    requires Agrees(p, n, planes, g, w, evs) && SourceOk(p, GroupSource(p, n, planes, g))
    ensures TablesOk(w.even, w.odd)
    ensures var src := GroupSource(p, n, planes, g);
            var w' := RunAll(p, w, evs, src);
            PlaneCode(p, n, planes, g, evs, w.even, w.odd) == Emitted(EncodeAll(p, w, evs, src), w'.even, w'.odd)
    decreases |evs|
  {
    if evs != [] {
      hide PlaneCode, Sees, EncodeEv, Healthy, PlanesOk, SourceOk, SourceAt, GroupSource, After, EvOk;
      NextTables(p, n, planes, g, w, evs[0]);
      HealthyTables(p, w);
      PlaneCodeCons(p, n, planes, g, evs, w.even, w.odd);
      SameBits(p, n, planes, g, Next(p, n, planes, g, w, evs[0]), evs[1..]);
    }
  }

  lemma HealthyTables(p: Params, w: Window)
    requires Healthy(p, w)
    ensures TablesOk(w.even, w.odd)
  {
  }

  lemma EvsConcat(p: Params, a: seq<Ev>, b: seq<Ev>)
    requires EvsOk(p, a) && EvsOk(p, b)
    ensures EvsOk(p, a + b)
    ensures a != [] ==> EvOk(p, a[0]) && EvsOk(p, a[1..])
  {
  }

  lemma {:induction false} AgreesConcat(p: Params, n: nat, planes: Planes, g: nat, w: Window, a: seq<Ev>, b: seq<Ev>)
    requires PlanesOk(p, n, planes) && g < n && Healthy(p, w) && EvsOk(p, a) && EvsOk(p, b)
    requires SourceOk(p, GroupSource(p, n, planes, g))
    requires Agrees(p, n, planes, g, w, a) && Agrees(p, n, planes, g, RunAll(p, w, a, GroupSource(p, n, planes, g)), b)
    ensures EvsOk(p, a + b) && Agrees(p, n, planes, g, w, a + b)
    decreases |a|
  {
    hide EvsOk, RunAll, Healthy, Next, Sees, SourceOk, EvOk, PlanesOk, GroupSource;
    EvsConcat(p, a, b);
    RunNext(p, n, planes, g, w, a);
    if a == [] {
      assert a + b == b;
    } else {
      assert (a + b)[0] == a[0] && (a + b)[1..] == a[1..] + b;
      AgreesConcat(p, n, planes, g, Next(p, n, planes, g, w, a[0]), a[1..], b);
    }
  }
}
