/** In-place demosaicing: the green channel and the other two are filled in while they are read.
    Both passes equal a function of the buffer they started from, for any order of the rows. */
module Demosaic {
  import opened Bits

  /** Size of the image and of the RGB buffer's lines, in pixels of three channels. */
  datatype Grid = Grid(width: nat, height: nat, stride: nat) {
    predicate Ok() { width <= stride && stride >= 2 }
    function Size(): nat { height * stride * 3 }
  }

  /** Index of a channel of a pixel in the buffer. */
  function Cell(g: Grid, y: int, x: int, o: int): int { (y * g.stride + x) * 3 + o }

  function RowOf(g: Grid, i: nat): int
    requires g.Ok()
  {
    i / 3 / g.stride
  }

  function ColOf(g: Grid, i: nat): int
    requires g.Ok()
  {
    i / 3 % g.stride
  }

  function ChanOf(i: nat): int { i % 3 }

  lemma CellParts(g: Grid, y: int, x: int, o: int)
    requires g.Ok() && 0 <= y < g.height && 0 <= x < g.stride && 0 <= o < 3
    ensures 0 <= Cell(g, y, x, o) < g.Size()
    ensures var i := Cell(g, y, x, o); RowOf(g, i) == y && ColOf(g, i) == x && ChanOf(i) == o
  {
    var i, p := Cell(g, y, x, o), y * g.stride + x;
    CellAt(y, x, g.height, g.stride);
    DivUnique(i, 3, p, o);
  }

  lemma CellBack(g: Grid, i: nat)
    requires g.Ok()
    ensures Cell(g, RowOf(g, i), ColOf(g, i), ChanOf(i)) == i
  {
    var p := i / 3;
    assert p == (p / g.stride) * g.stride + p % g.stride;
  }

  function Clamp(v: int): ushort { if v < 0 then 0 else if v > 0xffff then 0xffff else v }

  /** The value of a channel at a pixel. */
  function At(g: Grid, data: seq<ushort>, y: int, x: int, o: int): ushort
    requires g.Ok() && |data| >= g.Size() && 0 <= y < g.height && 0 <= x < g.stride && 0 <= o < 3
  {
    CellParts(g, y, x, o);
    data[Cell(g, y, x, o)]
  }

  // ---------------------------------------------------------------- green

  /** Phase of the colour filter and the channels' places. */
  datatype Cfa = Cfa(gx: nat, gy: nat, ry: nat, r: nat, g: nat, b: nat) {
    predicate Ok() { gx <= 1 && r < 3 && g < 3 && b < 3 && r != g && b != g }

    /** Column parity of the pixels of row `y` that are not green. */
    function Leftmost(y: int): int { if y % 2 == gy % 2 then 1 - gx else gx }

    function Colour(y: int): nat { if y % 2 == ry % 2 then r else b }
  }

  predicate GreenSite(g: Grid, c: Cfa, y: int, x: int) {
    2 <= y < g.height - 2 && 2 <= x < g.width - 2 && x % 2 == c.Leftmost(y)
  }

  /** Edge-directed interpolation from four green neighbours, with some of the high frequencies
      of the observed colour. */
  function Blend(hl: int, hr: int, vu: int, vd: int, cxy: int, chl: int, chr: int, cvu: int, cvd: int): int {
    var dh, dv := Abs(hl - hr), Abs(vu - vd);
    var cdh, cdv := Abs(chl + chr - 2 * cxy), Abs(cvu + cvd - 2 * cxy);
    var (sample, detail) :=
      if dv + cdv - (dh + cdh) > 0 then (CDiv(hl + hr, 2), CDiv(cxy - CDiv(chl + chr, 2), 4))
      else if dh + cdh - (dv + cdv) > 0 then (CDiv(vu + vd, 2), CDiv(cxy - CDiv(cvu + cvd, 2), 4))
      else (CDiv(vu + hl + vd + hr, 4), CDiv(cxy - CDiv(chl + chr + cvu + cvd, 4), 8));
    if sample < 4 * cxy && cxy < 4 * sample then sample + detail else sample
  }

  function GreenSample(g: Grid, c: Cfa, data: seq<ushort>, y: int, x: int): ushort
    requires g.Ok() && c.Ok() && |data| >= g.Size() && GreenSite(g, c, y, x)
  {
    var o := c.Colour(y);
    Clamp(Blend(At(g, data, y, x - 1, c.g), At(g, data, y, x + 1, c.g), At(g, data, y - 1, x, c.g), At(g, data, y + 1, x, c.g),
                At(g, data, y, x, o), At(g, data, y, x - 2, o), At(g, data, y, x + 2, o), At(g, data, y - 2, x, o), At(g, data, y + 2, x, o)))
  }

  predicate GreenTarget(g: Grid, c: Cfa, i: nat)
    requires g.Ok()
  {
    ChanOf(i) == c.g && GreenSite(g, c, RowOf(g, i), ColOf(g, i))
  }

  /** The pass as a function of its input, out of place. */
  function Greened(g: Grid, c: Cfa, data: seq<ushort>, i: nat): ushort
    requires g.Ok() && c.Ok() && |data| >= g.Size() && i < |data|
  {
    if GreenTarget(g, c, i) then GreenSample(g, c, data, RowOf(g, i), ColOf(g, i)) else data[i]
  }

  /** The rows `rows`, and row `y` up to column `x`, have been done. */
  predicate Reached(g: Grid, rows: set<int>, y: int, x: int, i: nat)
    requires g.Ok()
  {
    RowOf(g, i) in rows || (RowOf(g, i) == y && ColOf(g, i) < x)
  }

  ghost predicate GreenTo(g: Grid, c: Cfa, before: seq<ushort>, now: seq<ushort>, rows: set<int>, y: int, x: int)
    requires g.Ok() && c.Ok() && |before| >= g.Size()
  {
    |now| == |before| && forall i :: 0 <= i < |now| ==> now[i] == if Reached(g, rows, y, x, i) then Greened(g, c, before, i) else before[i]
  }

  /** What the pass reads it never writes. */
  lemma GreenReads(g: Grid, c: Cfa, before: seq<ushort>, now: seq<ushort>, rows: set<int>, y: int, x: int, y': int, x': int, o: int)
    requires g.Ok() && c.Ok() && |before| >= g.Size() && GreenTo(g, c, before, now, rows, y, x)
    requires 0 <= y' < g.height && 0 <= x' < g.stride && 0 <= o < 3
    requires o != c.g || !GreenSite(g, c, y', x')
    ensures At(g, now, y', x', o) == At(g, before, y', x', o)
  {
    hide GreenSite, GreenSample;
    CellParts(g, y', x', o);
    hide Cell, RowOf, ColOf, ChanOf, Grid.Size;
  }

  /** The reads before the loop, which a row of up to three pixels makes in vain. */
  lemma FirstReads(g: Grid, y: int, x: int, o: int)
    requires g.Ok() && 2 <= y < g.height - 2 && 0 <= x <= 3 && 0 <= o < 3
    ensures 0 <= Cell(g, y, x, o) < g.Size()
  {
    Smaller(0, y, g.stride);
    Smaller(y + 3, g.height, g.stride);
    Distribute(y, 3, g.stride);
  }

  lemma Neighbours(g: Grid, c: Cfa, y: int, x: int)
    requires g.Ok() && c.Ok() && GreenSite(g, c, y, x)
    ensures !GreenSite(g, c, y, x - 1) && !GreenSite(g, c, y, x + 1) && !GreenSite(g, c, y - 1, x) && !GreenSite(g, c, y + 1, x)
    ensures c.Colour(y) != c.g && c.Colour(y) < 3
    ensures 2 <= y < g.height - 2 && 2 <= x < g.width - 2
  {
  }

  /** One pixel done. */
  lemma GreenStep(g: Grid, c: Cfa, before: seq<ushort>, now: seq<ushort>, rows: set<int>, y: int, x: int)
    requires g.Ok() && c.Ok() && |before| >= g.Size() && GreenTo(g, c, before, now, rows, y, x) && y !in rows
    requires GreenSite(g, c, y, x)
    ensures 0 <= Cell(g, y, x, c.g) < |now|
    ensures GreenTo(g, c, before, now[Cell(g, y, x, c.g) := GreenSample(g, c, before, y, x)], rows, y, x + 2)
  {
    hide GreenSample, Grid.Size;
    CellParts(g, y, x, c.g);
    hide Cell;
    var k := Cell(g, y, x, c.g);
    var after := now[k := GreenSample(g, c, before, y, x)];
    forall i | 0 <= i < |now|
      ensures after[i] == if Reached(g, rows, y, x + 2, i) then Greened(g, c, before, i) else before[i]
    {
      CellBack(g, i);
      hide RowOf, ColOf, ChanOf;
    }
  }

  /** A row that has no more sites is done. */
  lemma GreenRowEnd(g: Grid, c: Cfa, before: seq<ushort>, now: seq<ushort>, rows: set<int>, y: int, x: int)
    requires g.Ok() && c.Ok() && |before| >= g.Size() && GreenTo(g, c, before, now, rows, y, x)
    requires x >= g.width - 2
    ensures GreenTo(g, c, before, now, rows + {y}, -1, 0)
  {
    hide GreenSample, RowOf, ColOf, ChanOf, Cell, Grid.Size;
  }

  /** Before the first site of a row. */
  lemma GreenRowStart(g: Grid, c: Cfa, before: seq<ushort>, now: seq<ushort>, rows: set<int>, y: int)
    requires g.Ok() && c.Ok() && |before| >= g.Size() && GreenTo(g, c, before, now, rows, -1, 0)
    ensures GreenTo(g, c, before, now, rows, y, c.Leftmost(y) + 2)
  {
    hide GreenSample, Cell, Grid.Size;
    forall i | 0 <= i < |now|
      ensures now[i] == if Reached(g, rows, y, c.Leftmost(y) + 2, i) then Greened(g, c, before, i) else before[i]
    {
      RowNonNegative(g, i);
      hide RowOf, ColOf, ChanOf;
    }
  }

  lemma RowNonNegative(g: Grid, i: nat)
    requires g.Ok()
    ensures RowOf(g, i) >= 0 && 0 <= ColOf(g, i)
  {
    DivNonNegative(i / 3, g.stride);
  }

  /** One row of interpolateGreenChannel. The registers hl, chl and cxy slide along the row. */
  method GreenRow(data: array<ushort>, g: Grid, c: Cfa, y: int, ghost before: seq<ushort>, ghost rows: set<int>)
    requires g.Ok() && c.Ok() && |before| >= g.Size() && 2 <= y < g.height - 2 && y !in rows
    requires GreenTo(g, c, before, data[..], rows, -1, 0)
    modifies data
    ensures GreenTo(g, c, before, data[..], rows + {y}, -1, 0)
  {
    hide Cell, Grid.Size, GreenTo, Blend, GreenSample, GreenSite, Cfa.Colour;
    var cOffset := c.Colour(y);
    ColourOk(c, y);
    var x := c.Leftmost(y) + 2;
    GreenRowStart(g, c, before, data[..], rows, y);
    SameSize(g, c, before, data[..], rows, y, x);
    FirstReads(g, y, x - 1, c.g);
    FirstReads(g, y, x, cOffset);
    FirstReads(g, y, x - 2, cOffset);
    var hl := data[Cell(g, y, x - 1, c.g)];
    var cxy := data[Cell(g, y, x, cOffset)];
    var chl := data[Cell(g, y, x - 2, cOffset)];
    if x < g.stride { FirstRegisters(g, c, before, data[..], rows, y, x, hl, chl, cxy); }
    while x < g.width - 2
      invariant x >= 2 && x % 2 == c.Leftmost(y)
      invariant GreenTo(g, c, before, data[..], rows, y, x)
      invariant x < g.width - 2 ==> Registers(g, c, before, y, x, hl, chl, cxy)
    {
      ghost var now := data[..];
      SameSize(g, c, before, now, rows, y, x);
      SiteHere(g, c, y, x);
      GreenWindow(g, c, before, now, rows, y, x);
      var hr := data[Cell(g, y, x + 1, c.g)];
      var vu := data[Cell(g, y - 1, x, c.g)];
      var vd := data[Cell(g, y + 1, x, c.g)];
      var chr := data[Cell(g, y, x + 2, cOffset)];
      var cvu := data[Cell(g, y - 2, x, cOffset)];
      var cvd := data[Cell(g, y + 2, x, cOffset)];
      var sample := Blend(hl, hr, vu, vd, cxy, chl, chr, cvu, cvd);
      SampleIs(g, c, before, y, x);
      GreenStep(g, c, before, now, rows, y, x);
      data[Cell(g, y, x, c.g)] := Clamp(sample);
      hl, chl, cxy := hr, cxy, chr;
      x := x + 2;
    }
    GreenRowEnd(g, c, before, data[..], rows, y, x);
  }

  lemma ColourOk(c: Cfa, y: int)
    requires c.Ok()
    ensures c.Colour(y) < 3 && c.Colour(y) != c.g && 0 <= c.Leftmost(y) <= 1
  {
  }

  lemma SameSize(g: Grid, c: Cfa, before: seq<ushort>, now: seq<ushort>, rows: set<int>, y: int, x: int)
    requires g.Ok() && c.Ok() && |before| >= g.Size() && GreenTo(g, c, before, now, rows, y, x)
    ensures |now| == |before|
  {
  }

  lemma SiteHere(g: Grid, c: Cfa, y: int, x: int)
    requires 2 <= y < g.height - 2 && 2 <= x < g.width - 2 && x % 2 == c.Leftmost(y)
    ensures GreenSite(g, c, y, x)
  {
  }

  /** The sliding registers are the direct reads. */
  ghost predicate Registers(g: Grid, c: Cfa, before: seq<ushort>, y: int, x: int, hl: int, chl: int, cxy: int)
    requires g.Ok() && c.Ok() && |before| >= g.Size() && 2 <= y < g.height - 2 && 2 <= x < g.stride
  {
    ColourOk(c, y);
    hl == At(g, before, y, x - 1, c.g) && chl == At(g, before, y, x - 2, c.Colour(y)) && cxy == At(g, before, y, x, c.Colour(y))
  }

  lemma FirstRegisters(g: Grid, c: Cfa, before: seq<ushort>, now: seq<ushort>, rows: set<int>, y: int, x: int, hl: int, chl: int, cxy: int)
    requires g.Ok() && c.Ok() && |before| >= g.Size() && 2 <= y < g.height - 2 && 2 <= x < g.stride && x == c.Leftmost(y) + 2
    requires GreenTo(g, c, before, now, rows, y, x)
    requires 0 <= Cell(g, y, x, c.Colour(y)) < |now| && 0 <= Cell(g, y, x - 1, c.g) < |now| && 0 <= Cell(g, y, x - 2, c.Colour(y)) < |now|
    requires hl == now[Cell(g, y, x - 1, c.g)] && cxy == now[Cell(g, y, x, c.Colour(y))] && chl == now[Cell(g, y, x - 2, c.Colour(y))]
    ensures Registers(g, c, before, y, x, hl, chl, cxy)
  {
    hide Cell, Grid.Size, GreenTo;
    ColourOk(c, y);
    GreenReads(g, c, before, now, rows, y, x, y, x - 1, c.g);
    GreenReads(g, c, before, now, rows, y, x, y, x, c.Colour(y));
    GreenReads(g, c, before, now, rows, y, x, y, x - 2, c.Colour(y));
  }

  /** All cells the loop body reads are inside the buffer and still as they were. */
  lemma GreenWindow(g: Grid, c: Cfa, before: seq<ushort>, now: seq<ushort>, rows: set<int>, y: int, x: int)
    requires g.Ok() && c.Ok() && |before| >= g.Size() && GreenTo(g, c, before, now, rows, y, x) && GreenSite(g, c, y, x)
    ensures Same(g, before, now, y, x + 1, c.g) && Same(g, before, now, y - 1, x, c.g) && Same(g, before, now, y + 1, x, c.g)
    ensures c.Colour(y) < 3
    ensures Same(g, before, now, y, x + 2, c.Colour(y)) && Same(g, before, now, y - 2, x, c.Colour(y)) && Same(g, before, now, y + 2, x, c.Colour(y))
  {
    hide Cell, Grid.Size, GreenTo, GreenSite, Cfa.Colour, Same;
    Neighbours(g, c, y, x);
    SameHere(g, c, before, now, rows, y, x, y, x + 1, c.g);
    SameHere(g, c, before, now, rows, y, x, y - 1, x, c.g);
    SameHere(g, c, before, now, rows, y, x, y + 1, x, c.g);
    SameHere(g, c, before, now, rows, y, x, y, x + 2, c.Colour(y));
    SameHere(g, c, before, now, rows, y, x, y - 2, x, c.Colour(y));
    SameHere(g, c, before, now, rows, y, x, y + 2, x, c.Colour(y));
  }

  ghost predicate Same(g: Grid, before: seq<ushort>, now: seq<ushort>, y: int, x: int, o: int)
    requires g.Ok() && |before| >= g.Size()
  {
    && 0 <= y < g.height && 0 <= x < g.stride && 0 <= o < 3 && 0 <= Cell(g, y, x, o) < |now|
    && now[Cell(g, y, x, o)] == At(g, before, y, x, o)
  }

  lemma SameHere(g: Grid, c: Cfa, before: seq<ushort>, now: seq<ushort>, rows: set<int>, y: int, x: int, y': int, x': int, o: int)
    requires g.Ok() && c.Ok() && |before| >= g.Size() && GreenTo(g, c, before, now, rows, y, x)
    requires 0 <= y' < g.height && 0 <= x' < g.stride && 0 <= o < 3
    requires o != c.g || !GreenSite(g, c, y', x')
    ensures Same(g, before, now, y', x', o)
  {
    hide GreenSite;
    SameSize(g, c, before, now, rows, y, x);
    GreenReads(g, c, before, now, rows, y, x, y', x', o);
    CellParts(g, y', x', o);
  }

  lemma SampleIs(g: Grid, c: Cfa, data: seq<ushort>, y: int, x: int)
    requires g.Ok() && c.Ok() && |data| >= g.Size() && GreenSite(g, c, y, x)
    ensures var o := c.Colour(y);
            GreenSample(g, c, data, y, x) ==
            Clamp(Blend(At(g, data, y, x - 1, c.g), At(g, data, y, x + 1, c.g), At(g, data, y - 1, x, c.g), At(g, data, y + 1, x, c.g),
                        At(g, data, y, x, o), At(g, data, y, x - 2, o), At(g, data, y, x + 2, o), At(g, data, y - 2, x, o), At(g, data, y + 2, x, o)))
  {
    hide Blend, At;
  }

  /** An order in which the threads may take the rows from `lo` to `hi`, in steps of `step`. */
  ghost predicate Schedule(order: seq<int>, lo: int, hi: int, step: nat)
    requires step > 0
  {
    && (forall k :: 0 <= k < |order| ==> lo <= order[k] < hi && (order[k] - lo) % step == 0)
    && (forall j, k :: 0 <= j < k < |order| ==> order[j] != order[k])
    && (forall y :: lo <= y < hi && (y - lo) % step == 0 ==> y in order)
  }

  lemma ScheduleNext(order: seq<int>, lo: int, hi: int, step: nat, k: nat)
    requires step > 0 && Schedule(order, lo, hi, step) && k < |order|
    ensures order[k] !in Taken(order, k) && lo <= order[k] < hi && Taken(order, k) + {order[k]} == Taken(order, k + 1)
  {
  }

  function Taken(order: seq<int>, k: nat): set<int>
    requires k <= |order|
  {
    set j | 0 <= j < k :: order[j]
  }

  /** interpolateGreenChannel: whatever the order of the rows, the buffer becomes the function of
      what it was. */
  method InterpolateGreenChannel(data: array<ushort>, g: Grid, c: Cfa, order: seq<int>)
    requires g.Ok() && c.Ok() && data.Length >= g.Size() && Schedule(order, 2, g.height - 2, 1)
    modifies data
    ensures forall i :: 0 <= i < data.Length ==> data[i] == Greened(g, c, old(data[..]), i)
  {
    hide GreenTo, Cell, Schedule, Grid.Size;
    ghost var before := data[..];
    GreenStart(g, c, before);
    assert Taken(order, 0) == {};
    var k := 0;
    while k < |order|
      invariant 0 <= k <= |order|
      invariant GreenTo(g, c, before, data[..], Taken(order, k), -1, 0)
    {
      ScheduleNext(order, 2, g.height - 2, 1, k);
      GreenRow(data, g, c, order[k], before, Taken(order, k));
      k := k + 1;
    }
    GreenAll(g, c, before, data[..], order);
  }

  lemma GreenStart(g: Grid, c: Cfa, before: seq<ushort>)
    requires g.Ok() && c.Ok() && |before| >= g.Size()
    ensures GreenTo(g, c, before, before, {}, -1, 0)
  {
    hide GreenSample, RowOf, ColOf, ChanOf, Cell, Grid.Size;
    forall i | 0 <= i < |before| ensures !Reached(g, {}, -1, 0, i) { RowNonNegative(g, i); }
  }

  lemma GreenAll(g: Grid, c: Cfa, before: seq<ushort>, now: seq<ushort>, order: seq<int>)
    requires g.Ok() && c.Ok() && |before| >= g.Size() && Schedule(order, 2, g.height - 2, 1)
    requires GreenTo(g, c, before, now, Taken(order, |order|), -1, 0)
    ensures |now| == |before| && forall i :: 0 <= i < |now| ==> now[i] == Greened(g, c, before, i)
  {
    hide GreenSample, RowOf, ColOf, ChanOf, Cell, Grid.Size;
    forall i | 0 <= i < |now| ensures now[i] == Greened(g, c, before, i) {
      var y := RowOf(g, i);
      if GreenTarget(g, c, i) { assert (y - 2) % 1 == 0; assert y in order; }
    }
  }

  // ---------------------------------------------------------------- red and blue

  /** Where the observed samples of a colour begin, and the channels. */
  datatype Colour = Colour(cx0: nat, cy0: nat, g: nat, c: nat) {
    predicate Ok() { cx0 <= 1 && cy0 <= 1 && g < 3 && c < 3 && g != c }
  }

  /** The loop comes to row `y` and column `x`. */
  predicate Centre(g: Grid, k: Colour, y: int, x: int) {
    && k.cy0 < y < g.height - 1 && (y - k.cy0) % 2 == 1
    && k.cx0 < x < g.width - 1 && (x - k.cx0) % 2 == 1
  }

  /** The loop position that writes a pixel: itself, the one to its left, or the one below. */
  function Owner(k: Colour, y: int, x: int): (int, int) {
    if (y - k.cy0) % 2 == 1 then (y, if (x - k.cx0) % 2 == 1 then x else x - 1) else (y + 1, x)
  }

  predicate ColourTarget(g: Grid, k: Colour, i: nat)
    requires g.Ok()
  {
    var (y, x) := Owner(k, RowOf(g, i), ColOf(g, i));
    ChanOf(i) == k.c && Centre(g, k, y, x)
  }

  /** Green minus colour, at a pixel. */
  function Chroma(g: Grid, k: Colour, data: seq<ushort>, y: int, x: int): int
    requires g.Ok() && k.Ok() && |data| >= g.Size() && 0 <= y < g.height && 0 <= x < g.stride
  {
    At(g, data, y, x, k.g) - At(g, data, y, x, k.c)
  }

  /** The three samples that a loop position writes. */
  function CentreSample(g: Grid, k: Colour, data: seq<ushort>, y: int, x: int): ushort
    requires g.Ok() && k.Ok() && |data| >= g.Size() && Centre(g, k, y, x)
  {
    Clamp(At(g, data, y, x, k.g) - CDiv(Chroma(g, k, data, y + 1, x - 1) + Chroma(g, k, data, y - 1, x + 1) +
                                       Chroma(g, k, data, y + 1, x + 1) + Chroma(g, k, data, y - 1, x - 1), 4))
  }

  function RightSample(g: Grid, k: Colour, data: seq<ushort>, y: int, x: int): ushort
    requires g.Ok() && k.Ok() && |data| >= g.Size() && Centre(g, k, y, x)
  {
    Clamp(At(g, data, y, x + 1, k.g) - CDiv(Chroma(g, k, data, y - 1, x + 1) + Chroma(g, k, data, y + 1, x + 1), 2))
  }

  function UpperSample(g: Grid, k: Colour, data: seq<ushort>, y: int, x: int): ushort
    requires g.Ok() && k.Ok() && |data| >= g.Size() && Centre(g, k, y, x)
  {
    Clamp(At(g, data, y - 1, x, k.g) - CDiv(Chroma(g, k, data, y - 1, x - 1) + Chroma(g, k, data, y - 1, x + 1), 2))
  }

  /** Where the difference of green and colour is the same around a pixel, the pixel gets its
      green less that difference: no colour fringes there. */
  lemma ChromaKept(g: Grid, k: Colour, data: seq<ushort>, y: int, x: int, d: int)
    requires g.Ok() && k.Ok() && |data| >= g.Size() && Centre(g, k, y, x)
    requires Chroma(g, k, data, y + 1, x - 1) == Chroma(g, k, data, y - 1, x + 1) == d
    requires Chroma(g, k, data, y + 1, x + 1) == Chroma(g, k, data, y - 1, x - 1) == d
    ensures CentreSample(g, k, data, y, x) == Clamp(At(g, data, y, x, k.g) - d)
    ensures RightSample(g, k, data, y, x) == Clamp(At(g, data, y, x + 1, k.g) - d)
    ensures UpperSample(g, k, data, y, x) == Clamp(At(g, data, y - 1, x, k.g) - d)
  {
    hide Chroma, At, Clamp, Grid.Size;
    DivExact(d, 4);
    DivExact(d, 2);
  }

  lemma DivExact(d: int, n: int)
    requires n > 0
    ensures CDiv(d * n, n) == d
  {
    if d < 0 { DivUnique(-(d * n), n, -d, 0); } else { DivUnique(d * n, n, d, 0); }
  }

  /** The pass as a function of its input, out of place. */
  function Filled(g: Grid, k: Colour, data: seq<ushort>, i: nat): ushort
    requires g.Ok() && k.Ok() && |data| >= g.Size() && i < |data|
  {
    var y, x := RowOf(g, i), ColOf(g, i);
    if !ColourTarget(g, k, i) then data[i]
    else if (y - k.cy0) % 2 == 0 then UpperSample(g, k, data, y + 1, x)
    else if (x - k.cx0) % 2 == 0 then RightSample(g, k, data, y, x - 1)
    else CentreSample(g, k, data, y, x)
  }

  predicate ColourReached(g: Grid, k: Colour, rows: set<int>, y: int, x: int, i: nat)
    requires g.Ok()
  {
    var (oy, ox) := Owner(k, RowOf(g, i), ColOf(g, i));
    oy in rows || (oy == y && ox < x)
  }

  ghost predicate ColourTo(g: Grid, k: Colour, before: seq<ushort>, now: seq<ushort>, rows: set<int>, y: int, x: int)
    requires g.Ok() && k.Ok() && |before| >= g.Size()
  {
    |now| == |before| &&
    forall i :: 0 <= i < |now| ==> now[i] == if ColourReached(g, k, rows, y, x, i) then Filled(g, k, before, i) else before[i]
  }

  /** The observed samples and the green channel are never written. */
  predicate Observed(k: Colour, y: int, x: int, o: int) {
    o == k.g || (o == k.c && (y - k.cy0) % 2 == 0 && (x - k.cx0) % 2 == 0)
  }

  lemma ColourReads(g: Grid, k: Colour, before: seq<ushort>, now: seq<ushort>, rows: set<int>, y: int, x: int, y': int, x': int, o: int)
    requires g.Ok() && k.Ok() && |before| >= g.Size() && ColourTo(g, k, before, now, rows, y, x)
    requires 0 <= y' < g.height && 0 <= x' < g.stride && Observed(k, y', x', o)
    ensures Same(g, before, now, y', x', o)
  {
    hide CentreSample, RightSample, UpperSample;
    CellParts(g, y', x', o);
    hide Cell, RowOf, ColOf, ChanOf, Grid.Size;
    assert !ColourTarget(g, k, Cell(g, y', x', o));
  }

  /** What one loop position leaves behind. */
  function Written(g: Grid, k: Colour, before: seq<ushort>, now: seq<ushort>, y: int, x: int): (after: seq<ushort>)
    requires g.Ok() && k.Ok() && |before| >= g.Size() && |now| == |before| && Centre(g, k, y, x)
    ensures |after| == |now|
  {
    CellParts(g, y, x, k.c);
    CellParts(g, y, x + 1, k.c);
    CellParts(g, y - 1, x, k.c);
    now[Cell(g, y, x, k.c) := CentreSample(g, k, before, y, x)]
       [Cell(g, y, x + 1, k.c) := RightSample(g, k, before, y, x)]
       [Cell(g, y - 1, x, k.c) := UpperSample(g, k, before, y, x)]
  }

  lemma IsCell(g: Grid, y: int, x: int, o: int, i: nat)
    requires g.Ok() && 0 <= y < g.height && 0 <= x < g.stride && 0 <= o < 3
    ensures i == Cell(g, y, x, o) <==> RowOf(g, i) == y && ColOf(g, i) == x && ChanOf(i) == o
  {
    CellParts(g, y, x, o);
    CellBack(g, i);
    hide Cell, RowOf, ColOf, ChanOf;
  }

  lemma WrittenIs(g: Grid, k: Colour, before: seq<ushort>, now: seq<ushort>, y: int, x: int, i: nat)
    requires g.Ok() && k.Ok() && |before| >= g.Size() && |now| == |before| && Centre(g, k, y, x) && i < |now|
    ensures Written(g, k, before, now, y, x)[i] ==
            if i == Cell(g, y - 1, x, k.c) then UpperSample(g, k, before, y, x)
            else if i == Cell(g, y, x + 1, k.c) then RightSample(g, k, before, y, x)
            else if i == Cell(g, y, x, k.c) then CentreSample(g, k, before, y, x)
            else now[i]
  {
    CellParts(g, y, x, k.c);
    CellParts(g, y, x + 1, k.c);
    CellParts(g, y - 1, x, k.c);
    hide Cell, RowOf, ColOf, ChanOf, Grid.Size, CentreSample, RightSample, UpperSample, Centre;
  }

  lemma FilledAt(g: Grid, k: Colour, before: seq<ushort>, y: int, x: int, i: nat)
    requires g.Ok() && k.Ok() && |before| >= g.Size() && Centre(g, k, y, x) && i < |before|
    requires ColourTarget(g, k, i) && Owner(k, RowOf(g, i), ColOf(g, i)) == (y, x)
    ensures Filled(g, k, before, i) ==
            if RowOf(g, i) == y - 1 then UpperSample(g, k, before, y, x)
            else if ColOf(g, i) == x + 1 then RightSample(g, k, before, y, x)
            else CentreSample(g, k, before, y, x)
  {
    Owners(g, k, y, x, RowOf(g, i), ColOf(g, i));
    hide RowOf, ColOf, ChanOf, Grid.Size, CentreSample, RightSample, UpperSample, Centre;
  }

  lemma WrittenAt(g: Grid, k: Colour, before: seq<ushort>, now: seq<ushort>, y: int, x: int, i: nat)
    requires g.Ok() && k.Ok() && |before| >= g.Size() && |now| == |before| && Centre(g, k, y, x) && i < |now|
    ensures Written(g, k, before, now, y, x)[i] ==
            if ColourTarget(g, k, i) && Owner(k, RowOf(g, i), ColOf(g, i)) == (y, x) then Filled(g, k, before, i) else now[i]
  {
    IsCell(g, y, x, k.c, i);
    IsCell(g, y, x + 1, k.c, i);
    IsCell(g, y - 1, x, k.c, i);
    Owners(g, k, y, x, RowOf(g, i), ColOf(g, i));
    WrittenIs(g, k, before, now, y, x, i);
    if ColourTarget(g, k, i) && Owner(k, RowOf(g, i), ColOf(g, i)) == (y, x) {
      FilledAt(g, k, before, y, x, i);
    }
    hide Cell, RowOf, ColOf, ChanOf, Grid.Size, CentreSample, RightSample, UpperSample, Centre, Owner, Filled, Written;
  }

  /** The three pixels of a loop position. */
  lemma Owners(g: Grid, k: Colour, y: int, x: int, y': int, x': int)
    requires k.Ok() && Centre(g, k, y, x)
    ensures Owner(k, y', x') == (y, x) <==> (y' == y && x' == x) || (y' == y && x' == x + 1) || (y' == y - 1 && x' == x)
    ensures Owner(k, y', x') == (y, x) ==> ((y' - k.cy0) % 2 == 0 <==> y' == y - 1)
    ensures Owner(k, y', x') == (y, x) ==> (y' == y ==> ((x' - k.cx0) % 2 == 0 <==> x' == x + 1))
  {
  }

  lemma ColourStep(g: Grid, k: Colour, before: seq<ushort>, now: seq<ushort>, rows: set<int>, y: int, x: int)
    requires g.Ok() && k.Ok() && |before| >= g.Size() && ColourTo(g, k, before, now, rows, y, x) && y !in rows
    requires Centre(g, k, y, x)
    ensures ColourTo(g, k, before, Written(g, k, before, now, y, x), rows, y, x + 2)
  {
    hide RowOf, ColOf, ChanOf, Grid.Size, Written, Filled, Centre, Owner, ColourTarget;
    var after := Written(g, k, before, now, y, x);
    forall i | 0 <= i < |now|
      ensures after[i] == if ColourReached(g, k, rows, y, x + 2, i) then Filled(g, k, before, i) else before[i]
    {
      WrittenAt(g, k, before, now, y, x, i);
      TargetOwner(g, k, i, y, x);
      if !ColourTarget(g, k, i) { NotTarget(g, k, before, i); }
    }
  }

  /** Loop positions of a row are two columns apart. */
  lemma TargetOwner(g: Grid, k: Colour, i: nat, y: int, x: int)
    requires g.Ok() && Centre(g, k, y, x)
    ensures var (oy, ox) := Owner(k, RowOf(g, i), ColOf(g, i));
            ColourTarget(g, k, i) && oy == y && x <= ox < x + 2 ==> ox == x
  {
  }

  lemma NotTarget(g: Grid, k: Colour, before: seq<ushort>, i: nat)
    requires g.Ok() && k.Ok() && |before| >= g.Size() && i < |before| && !ColourTarget(g, k, i)
    ensures Filled(g, k, before, i) == before[i]
  {
  }

  /** The registers gne, gse, cne and cse are the direct reads of the column to the left. */
  ghost predicate Slid(g: Grid, k: Colour, before: seq<ushort>, y: int, x: int, gne: int, gse: int, cne: int, cse: int)
    requires g.Ok() && k.Ok() && |before| >= g.Size() && 0 < y < g.height - 1 && 0 < x <= g.stride
  {
    && gne == At(g, before, y + 1, x - 1, k.g) && gse == At(g, before, y - 1, x - 1, k.g)
    && cne == Chroma(g, k, before, y + 1, x - 1) && cse == Chroma(g, k, before, y - 1, x - 1)
  }

  lemma DiagonalObserved(k: Colour, y: int, x: int)
    requires (y - k.cy0) % 2 == 1 && (x - k.cx0) % 2 == 0
    ensures Observed(k, y + 1, x, k.g) && Observed(k, y - 1, x, k.g) && Observed(k, y + 1, x, k.c) && Observed(k, y - 1, x, k.c)
  {
  }

  /** The diagonal neighbours to one side: all are observed, none has been written. */
  lemma Diagonal(g: Grid, k: Colour, before: seq<ushort>, now: seq<ushort>, rows: set<int>, y: int, x: int, x': int)
    requires g.Ok() && k.Ok() && |before| >= g.Size() && ColourTo(g, k, before, now, rows, y, x)
    requires k.cy0 < y < g.height - 1 && (y - k.cy0) % 2 == 1 && 0 <= x' < g.stride && (x' - k.cx0) % 2 == 0
    ensures Same(g, before, now, y + 1, x', k.g) && Same(g, before, now, y - 1, x', k.g)
    ensures Same(g, before, now, y + 1, x', k.c) && Same(g, before, now, y - 1, x', k.c)
  {
    hide ColourTo, Same, Cell, Grid.Size, Observed;
    DiagonalObserved(k, y, x');
    ColourReads(g, k, before, now, rows, y, x, y + 1, x', k.g);
    ColourReads(g, k, before, now, rows, y, x, y - 1, x', k.g);
    ColourReads(g, k, before, now, rows, y, x, y + 1, x', k.c);
    ColourReads(g, k, before, now, rows, y, x, y - 1, x', k.c);
  }

  /** One row of interpolateRedOrBlue. */
  method ColourRow(data: array<ushort>, g: Grid, k: Colour, y: int, ghost before: seq<ushort>, ghost rows: set<int>)
    requires g.Ok() && k.Ok() && |before| >= g.Size() && k.cy0 < y < g.height - 1 && (y - k.cy0) % 2 == 1 && y !in rows
    requires ColourTo(g, k, before, data[..], rows, -1, 0)
    modifies data
    ensures ColourTo(g, k, before, data[..], rows + {y}, -1, 0)
  {
    hide Cell, Grid.Size, ColourTo, Written, At, CDiv, Clamp;
    var x: int := k.cx0 + 1;
    ColourRowStart(g, k, before, data[..], rows, y);
    Diagonal(g, k, before, data[..], rows, y, x, x - 1);
    var gne: int := data[Cell(g, y + 1, x - 1, k.g)];
    var gse: int := data[Cell(g, y - 1, x - 1, k.g)];
    var cne := gne - data[Cell(g, y + 1, x - 1, k.c)];
    var cse := gse - data[Cell(g, y - 1, x - 1, k.c)];
    while x < g.width - 1
      invariant k.cx0 < x <= g.stride && (x - k.cx0) % 2 == 1
      invariant ColourTo(g, k, before, data[..], rows, y, x)
      invariant Slid(g, k, before, y, x, gne, gse, cne, cse)
    {
      gne, gse, cne, cse := ColourSite(data, g, k, y, x, gne, gse, cne, cse, before, rows);
      x := x + 2;
    }
    ColourRowEnd(g, k, before, data[..], rows, y, x);
  }

  /** The loop body: three samples, and the registers moved on. */
  method ColourSite(data: array<ushort>, g: Grid, k: Colour, y: int, x: int, gne: int, gse: int, cne: int, cse: int,
                    ghost before: seq<ushort>, ghost rows: set<int>) returns (gnw: int, gsw: int, cnw: int, csw: int)
    requires g.Ok() && k.Ok() && |before| >= g.Size() && Centre(g, k, y, x) && y !in rows
    requires ColourTo(g, k, before, data[..], rows, y, x) && Slid(g, k, before, y, x, gne, gse, cne, cse)
    modifies data
    ensures ColourTo(g, k, before, data[..], rows, y, x + 2)
    ensures Slid(g, k, before, y, x + 2, gnw, gsw, cnw, csw)
  {
    hide Cell, Grid.Size, ColourTo, At, CDiv, Clamp, Centre, CentreSample, RightSample, UpperSample, Observed;
    ghost var now := data[..];
    CentreMeans(g, k, y, x);
    Diagonal(g, k, before, now, rows, y, x, x + 1);
    ColourReads(g, k, before, now, rows, y, x, y, x, k.g);
    ColourReads(g, k, before, now, rows, y, x, y, x + 1, k.g);
    ColourReads(g, k, before, now, rows, y, x, y - 1, x, k.g);
    SameLength(g, k, before, now, rows, y, x);
    ColourStep(g, k, before, now, rows, y, x);
    gnw := data[Cell(g, y + 1, x + 1, k.g)];
    gsw := data[Cell(g, y - 1, x + 1, k.g)];
    cnw := gnw - data[Cell(g, y + 1, x + 1, k.c)];
    csw := gsw - data[Cell(g, y - 1, x + 1, k.c)];
    CellParts(g, y, x, k.c);
    CellParts(g, y, x + 1, k.c);
    CellParts(g, y - 1, x, k.c);
    GreenApart(g, k, y, x);
    SamplesAre(g, k, before, y, x, cne, cse, cnw, csw);
    hide Chroma, RowOf, ColOf, ChanOf;
    var gc := data[Cell(g, y, x, k.g)];
    var sampleC := gc - CDiv(cne + csw + cnw + cse, 4);
    data[Cell(g, y, x, k.c)] := Clamp(sampleC);
    var gw := data[Cell(g, y, x + 1, k.g)];
    var sampleW := gw - CDiv(csw + cnw, 2);
    data[Cell(g, y, x + 1, k.c)] := Clamp(sampleW);
    var gs := data[Cell(g, y - 1, x, k.g)];
    var sampleS := gs - CDiv(cse + csw, 2);
    data[Cell(g, y - 1, x, k.c)] := Clamp(sampleS);
    assert data[..] == Written(g, k, before, now, y, x);
  }

  lemma CentreMeans(g: Grid, k: Colour, y: int, x: int)
    requires g.Ok() && k.Ok() && Centre(g, k, y, x)
    ensures 0 < y < g.height - 1 && 0 < x < g.width - 1 && k.cy0 < y && (y - k.cy0) % 2 == 1 && (x + 1 - k.cx0) % 2 == 0
    ensures forall y', x' :: Observed(k, y', x', k.g)
  {
  }

  /** The samples, from the differences of the four diagonal neighbours. */
  lemma SamplesAre(g: Grid, k: Colour, data: seq<ushort>, y: int, x: int, cne: int, cse: int, cnw: int, csw: int)
    requires g.Ok() && k.Ok() && |data| >= g.Size() && Centre(g, k, y, x)
    requires cne == Chroma(g, k, data, y + 1, x - 1) && cse == Chroma(g, k, data, y - 1, x - 1)
    requires cnw == Chroma(g, k, data, y + 1, x + 1) && csw == Chroma(g, k, data, y - 1, x + 1)
    ensures CentreSample(g, k, data, y, x) == Clamp(At(g, data, y, x, k.g) - CDiv(cne + csw + cnw + cse, 4))
    ensures RightSample(g, k, data, y, x) == Clamp(At(g, data, y, x + 1, k.g) - CDiv(csw + cnw, 2))
    ensures UpperSample(g, k, data, y, x) == Clamp(At(g, data, y - 1, x, k.g) - CDiv(cse + csw, 2))
  {
    hide Chroma, At, Clamp, CDiv, Grid.Size;
  }

  lemma SameLength(g: Grid, k: Colour, before: seq<ushort>, now: seq<ushort>, rows: set<int>, y: int, x: int)
    requires g.Ok() && k.Ok() && |before| >= g.Size() && ColourTo(g, k, before, now, rows, y, x)
    ensures |now| == |before|
  {
  }

  /** The green cells read in the loop body are not those written there. */
  lemma GreenApart(g: Grid, k: Colour, y: int, x: int)
    requires g.Ok() && k.Ok() && Centre(g, k, y, x)
    ensures Cell(g, y, x + 1, k.g) != Cell(g, y, x, k.c)
    ensures Cell(g, y - 1, x, k.g) != Cell(g, y, x, k.c) && Cell(g, y - 1, x, k.g) != Cell(g, y, x + 1, k.c)
  {
    CellParts(g, y, x, k.c);
    CellParts(g, y, x + 1, k.c);
    CellParts(g, y, x + 1, k.g);
    CellParts(g, y - 1, x, k.g);
  }

  lemma ColourRowStart(g: Grid, k: Colour, before: seq<ushort>, now: seq<ushort>, rows: set<int>, y: int)
    requires g.Ok() && k.Ok() && |before| >= g.Size() && ColourTo(g, k, before, now, rows, -1, 0) && y > 0
    ensures ColourTo(g, k, before, now, rows, y, k.cx0 + 1)
  {
    hide Filled, Cell, Grid.Size;
    forall i | 0 <= i < |now|
      ensures now[i] == if ColourReached(g, k, rows, y, k.cx0 + 1, i) then Filled(g, k, before, i) else before[i]
    {
      RowNonNegative(g, i);
      hide RowOf, ColOf, ChanOf;
      if !ColourTarget(g, k, i) { NotTarget(g, k, before, i); }
    }
  }

  lemma ColourRowEnd(g: Grid, k: Colour, before: seq<ushort>, now: seq<ushort>, rows: set<int>, y: int, x: int)
    requires g.Ok() && k.Ok() && |before| >= g.Size() && ColourTo(g, k, before, now, rows, y, x)
    requires x >= g.width - 1
    ensures ColourTo(g, k, before, now, rows + {y}, -1, 0)
  {
    hide Filled, RowOf, ColOf, ChanOf, Cell, Grid.Size, Owner;
    forall i | 0 <= i < |now|
      ensures now[i] == if ColourReached(g, k, rows + {y}, -1, 0, i) then Filled(g, k, before, i) else before[i]
    {
      if !ColourTarget(g, k, i) { NotTarget(g, k, before, i); }
    }
  }

  /** The pass over a whole buffer, out of place. */
  function ColourPass(g: Grid, k: Colour, data: seq<ushort>): (r: seq<ushort>)
    requires g.Ok() && k.Ok() && |data| >= g.Size()
    ensures |r| == |data|
  {
    seq(|data|, i requires 0 <= i < |data| => Filled(g, k, data, i))
  }

  /** interpolateRedOrBlue: whatever the order of the rows, the buffer becomes the function of
      what it was. */
  method InterpolateRedOrBlue(data: array<ushort>, g: Grid, k: Colour, order: seq<int>)
    requires g.Ok() && k.Ok() && data.Length >= g.Size() && Schedule(order, k.cy0 + 1, g.height - 1, 2)
    modifies data
    ensures data[..] == ColourPass(g, k, old(data[..]))
  {
    hide ColourTo, Cell, Schedule, Grid.Size, Filled;
    ghost var before := data[..];
    ColourStart(g, k, before);
    assert Taken(order, 0) == {};
    var n := 0;
    while n < |order|
      invariant 0 <= n <= |order|
      invariant ColourTo(g, k, before, data[..], Taken(order, n), -1, 0)
    {
      ScheduleNext(order, k.cy0 + 1, g.height - 1, 2, n);
      ScheduleParity(order, k.cy0 + 1, g.height - 1, n, k.cy0);
      ColourRow(data, g, k, order[n], before, Taken(order, n));
      n := n + 1;
    }
    ColourAll(g, k, before, data[..], order);
  }

  lemma ScheduleParity(order: seq<int>, lo: int, hi: int, n: nat, from: int)
    requires Schedule(order, lo, hi, 2) && n < |order| && lo == from + 1
    ensures (order[n] - from) % 2 == 1
  {
  }

  lemma ColourStart(g: Grid, k: Colour, before: seq<ushort>)
    requires g.Ok() && k.Ok() && |before| >= g.Size()
    ensures ColourTo(g, k, before, before, {}, -1, 0)
  {
    hide Filled, Cell, Grid.Size;
    forall i | 0 <= i < |before| ensures !ColourReached(g, k, {}, -1, 0, i) {
      RowNonNegative(g, i);
      hide RowOf, ColOf, ChanOf;
    }
  }

  lemma ColourAll(g: Grid, k: Colour, before: seq<ushort>, now: seq<ushort>, order: seq<int>)
    requires g.Ok() && k.Ok() && |before| >= g.Size() && Schedule(order, k.cy0 + 1, g.height - 1, 2)
    requires ColourTo(g, k, before, now, Taken(order, |order|), -1, 0)
    ensures now == ColourPass(g, k, before)
  {
    hide Filled, RowOf, ColOf, ChanOf, Cell, Grid.Size, Owner;
    forall i | 0 <= i < |now| ensures now[i] == Filled(g, k, before, i) {
      if ColourTarget(g, k, i) {
        var y := Owner(k, RowOf(g, i), ColOf(g, i)).0;
        assert (y - (k.cy0 + 1)) % 2 == 0;
        assert y in order;
      } else {
        NotTarget(g, k, before, i);
      }
    }
  }

  /** A pass over one colour does not change what a pass over the other reads or makes. */
  lemma PassReads(g: Grid, k: Colour, m: Colour, data: seq<ushort>, y: int, x: int, o: int)
    requires g.Ok() && k.Ok() && m.Ok() && |data| >= g.Size() && m.g == k.g && m.c != k.c
    requires 0 <= y < g.height && 0 <= x < g.stride && (o == m.g || o == m.c)
    ensures At(g, ColourPass(g, k, data), y, x, o) == At(g, data, y, x, o)
  {
    CellParts(g, y, x, o);
    NotTarget(g, k, data, Cell(g, y, x, o));
    hide Filled, Cell, Grid.Size;
  }

  lemma PassChroma(g: Grid, k: Colour, m: Colour, data: seq<ushort>, y: int, x: int)
    requires g.Ok() && k.Ok() && m.Ok() && |data| >= g.Size() && m.g == k.g && m.c != k.c
    requires 0 <= y < g.height && 0 <= x < g.stride
    ensures Chroma(g, m, ColourPass(g, k, data), y, x) == Chroma(g, m, data, y, x)
    ensures At(g, ColourPass(g, k, data), y, x, m.g) == At(g, data, y, x, m.g)
  {
    hide ColourPass, At, Grid.Size;
    PassReads(g, k, m, data, y, x, m.g);
    PassReads(g, k, m, data, y, x, m.c);
  }

  lemma PassSamples(g: Grid, k: Colour, m: Colour, data: seq<ushort>, y: int, x: int)
    requires g.Ok() && k.Ok() && m.Ok() && |data| >= g.Size() && m.g == k.g && m.c != k.c && Centre(g, m, y, x)
    ensures var after := ColourPass(g, k, data);
            && CentreSample(g, m, after, y, x) == CentreSample(g, m, data, y, x)
            && RightSample(g, m, after, y, x) == RightSample(g, m, data, y, x)
            && UpperSample(g, m, after, y, x) == UpperSample(g, m, data, y, x)
  {
    hide ColourPass, At, Chroma, Grid.Size, CDiv, Clamp;
    PassChroma(g, k, m, data, y + 1, x - 1);
    PassChroma(g, k, m, data, y - 1, x + 1);
    PassChroma(g, k, m, data, y + 1, x + 1);
    PassChroma(g, k, m, data, y - 1, x - 1);
    PassChroma(g, k, m, data, y, x);
    PassChroma(g, k, m, data, y, x + 1);
    PassChroma(g, k, m, data, y - 1, x);
  }

  lemma PassFilled(g: Grid, k: Colour, m: Colour, data: seq<ushort>, i: nat)
    requires g.Ok() && k.Ok() && m.Ok() && |data| >= g.Size() && m.g == k.g && m.c != k.c && i < |data|
    ensures Filled(g, m, ColourPass(g, k, data), i) == if ColourTarget(g, m, i) then Filled(g, m, data, i) else ColourPass(g, k, data)[i]
  {
    hide ColourPass, RowOf, ColOf, ChanOf, Grid.Size, CentreSample, RightSample, UpperSample, Centre;
    if ColourTarget(g, m, i) {
      var (y, x) := Owner(m, RowOf(g, i), ColOf(g, i));
      PassSamples(g, k, m, data, y, x);
    }
  }

  /** Red and blue may be interpolated in either order, or at the same time (`nowait`). */
  lemma PassesCommute(g: Grid, red: Colour, blue: Colour, data: seq<ushort>)
    requires g.Ok() && red.Ok() && blue.Ok() && |data| >= g.Size() && red.g == blue.g && red.c != blue.c
    ensures ColourPass(g, blue, ColourPass(g, red, data)) == ColourPass(g, red, ColourPass(g, blue, data))
  {
    hide Filled, RowOf, ColOf, ChanOf, Grid.Size, Centre, Owner;
    var a, b := ColourPass(g, blue, ColourPass(g, red, data)), ColourPass(g, red, ColourPass(g, blue, data));
    forall i | 0 <= i < |data| ensures a[i] == b[i] {
      PassFilled(g, red, blue, data, i);
      PassFilled(g, blue, red, data, i);
      if !ColourTarget(g, red, i) { NotTarget(g, red, data, i); }
      if !ColourTarget(g, blue, i) { NotTarget(g, blue, data, i); }
    }
  }
}
