/** Which way the green pass goes at an edge, how much of the observed colour it takes over, and the
    other colours as means over the nearest observed pixels. */
module DemosaicEdges {
  import opened Bits
  import opened Demosaic

  /** `q` is `x / n` as C divides: rounded towards zero. */
  predicate Part(x: int, n: nat, q: int) {
    if x >= 0 then n * q <= x < n * q + n else n * q - n < x <= n * q
  }

  lemma CDivIs(x: int, n: nat)
    requires n > 0
    ensures Part(x, n, CDiv(x, n))
  {
    Quotient(if x < 0 then -x else x, n);
    Commute(CDiv(x, n), n);
  }

  /** The greens and the observed colours around a site, and how much both change along its row
      and along its column. */
  datatype Around = Around(hl: int, hr: int, vu: int, vd: int, cxy: int, chl: int, chr: int, cvu: int, cvd: int) {
    function Across(): nat { Abs(hl - hr) + Abs(chl + chr - 2 * cxy) }
    function Down(): nat { Abs(vu - vd) + Abs(cvu + cvd - 2 * cxy) }
  }

  function AroundSite(g: Grid, c: Cfa, data: seq<ushort>, y: int, x: int): Around
    requires g.Ok() && c.Ok() && |data| >= g.Size() && GreenSite(g, c, y, x)
  {
    var o := c.Colour(y);
    Around(At(g, data, y, x - 1, c.g), At(g, data, y, x + 1, c.g), At(g, data, y - 1, x, c.g), At(g, data, y + 1, x, c.g),
           At(g, data, y, x, o), At(g, data, y, x - 2, o), At(g, data, y, x + 2, o), At(g, data, y - 2, x, o), At(g, data, y + 2, x, o))
  }

  lemma Natural(g: Grid, c: Cfa, data: seq<ushort>, y: int, x: int)
    requires g.Ok() && c.Ok() && |data| >= g.Size() && GreenSite(g, c, y, x)
    ensures var a := AroundSite(g, c, data, y, x);
            && 0 <= a.hl < 0x1_0000 && 0 <= a.hr < 0x1_0000 && 0 <= a.vu < 0x1_0000 && 0 <= a.vd < 0x1_0000
            && 0 <= a.cxy && 0 <= a.chl && 0 <= a.chr && 0 <= a.cvu && 0 <= a.cvd
  {
    hide At;
  }

  lemma SampleOfAround(g: Grid, c: Cfa, data: seq<ushort>, y: int, x: int)
    requires g.Ok() && c.Ok() && |data| >= g.Size() && GreenSite(g, c, y, x)
    ensures var a := AroundSite(g, c, data, y, x);
            GreenSample(g, c, data, y, x) == Clamp(Blend(a.hl, a.hr, a.vu, a.vd, a.cxy, a.chl, a.chr, a.cvu, a.cvd))
  {
    hide Blend, At;
  }

  // ---------------------------------------------------------------- green

  /** `s` and `e` are the green and the detail of the direction with the smaller change: two
      neighbours or all four, and a quarter or an eighth of how far the colour is from its mean. */
  ghost predicate Chosen(a: Around, s: int, m: int, e: int) {
    if a.Across() < a.Down() then Part(a.hl + a.hr, 2, s) && Part(a.chl + a.chr, 2, m) && Part(a.cxy - m, 4, e)
    else if a.Down() < a.Across() then Part(a.vu + a.vd, 2, s) && Part(a.cvu + a.cvd, 2, m) && Part(a.cxy - m, 4, e)
    else Part(a.hl + a.hr + a.vu + a.vd, 4, s) && Part(a.chl + a.chr + a.cvu + a.cvd, 4, m) && Part(a.cxy - m, 8, e)
  }

  /** Green and colour are within a factor of four of each other. */
  predicate Related(s: int, c: int) { s < 4 * c && c < 4 * s }

  lemma BlendIs(a: Around) returns (s: int, m: int, e: int)
    ensures Chosen(a, s, m, e)
    ensures Blend(a.hl, a.hr, a.vu, a.vd, a.cxy, a.chl, a.chr, a.cvu, a.cvd) == if Related(s, a.cxy) then s + e else s
  {
    hide CDiv, Part, Abs;
    var row, column := a.Across() < a.Down(), a.Down() < a.Across();
    var greens := if row then a.hl + a.hr else if column then a.vu + a.vd else a.vu + a.hl + a.vd + a.hr;
    var colours := if row then a.chl + a.chr else if column then a.cvu + a.cvd else a.chl + a.chr + a.cvu + a.cvd;
    var n := if row || column then 2 else 4;
    s, m := CDiv(greens, n), CDiv(colours, n);
    e := CDiv(a.cxy - m, 2 * n);
    CDivIs(greens, n);
    CDivIs(colours, n);
    CDivIs(a.cxy - m, 2 * n);
  }

  /** The sample of a site. */
  lemma GreenIs(g: Grid, c: Cfa, data: seq<ushort>, y: int, x: int) returns (s: int, m: int, e: int)
    requires g.Ok() && c.Ok() && |data| >= g.Size() && GreenSite(g, c, y, x)
    ensures var a := AroundSite(g, c, data, y, x);
            && Chosen(a, s, m, e)
            && GreenSample(g, c, data, y, x) == Clamp(if Related(s, a.cxy) then s + e else s)
  {
    SampleOfAround(g, c, data, y, x);
    hide Blend, AroundSite, GreenSample;
    s, m, e := BlendIs(AroundSite(g, c, data, y, x));
  }

  /** Green goes along an edge: where only the greens of one axis differ, the other axis' value is
      kept. */
  lemma AlongEdge(g: Grid, c: Cfa, data: seq<ushort>, y: int, x: int)
    requires g.Ok() && c.Ok() && |data| >= g.Size() && GreenSite(g, c, y, x)
    requires var a := AroundSite(g, c, data, y, x); a.chl == a.chr == a.cvu == a.cvd == a.cxy
    ensures var a := AroundSite(g, c, data, y, x);
            && (a.hl != a.hr && a.vu == a.vd ==> GreenSample(g, c, data, y, x) == a.vu)
            && (a.vu != a.vd && a.hl == a.hr ==> GreenSample(g, c, data, y, x) == a.hl)
  {
    Natural(g, c, data, y, x);
    var s, m, e := GreenIs(g, c, data, y, x);
    hide AroundSite, GreenSample;
  }

  /** The axis with the larger change has no influence beyond that. */
  lemma OneAxis(g: Grid, c: Cfa, data: seq<ushort>, data': seq<ushort>, y: int, x: int)
    requires g.Ok() && c.Ok() && |data| >= g.Size() && |data'| >= g.Size() && GreenSite(g, c, y, x)
    ensures var a, b := AroundSite(g, c, data, y, x), AroundSite(g, c, data', y, x);
            && (a.Across() < a.Down() && b.Across() < b.Down() && a.cxy == b.cxy && a.hl == b.hl && a.hr == b.hr && a.chl == b.chl && a.chr == b.chr ==>
                  GreenSample(g, c, data, y, x) == GreenSample(g, c, data', y, x))
            && (a.Down() < a.Across() && b.Down() < b.Across() && a.cxy == b.cxy && a.vu == b.vu && a.vd == b.vd && a.cvu == b.cvu && a.cvd == b.cvd ==>
                  GreenSample(g, c, data, y, x) == GreenSample(g, c, data', y, x))
  {
    var a, b := AroundSite(g, c, data, y, x), AroundSite(g, c, data', y, x);
    SampleOfAround(g, c, data, y, x);
    SampleOfAround(g, c, data', y, x);
    hide AroundSite, GreenSample, Clamp, Around.Across, Around.Down, Blend;
    if a.Across() < a.Down() && b.Across() < b.Down() && a.cxy == b.cxy && a.hl == b.hl && a.hr == b.hr && a.chl == b.chl && a.chr == b.chr {
      SameRow(a, b);
    }
    if a.Down() < a.Across() && b.Down() < b.Across() && a.cxy == b.cxy && a.vu == b.vu && a.vd == b.vd && a.cvu == b.cvu && a.cvd == b.cvd {
      SameColumn(a, b);
    }
  }

  lemma SameRow(a: Around, b: Around)
    requires a.Across() < a.Down() && b.Across() < b.Down()
    requires a.cxy == b.cxy && a.hl == b.hl && a.hr == b.hr && a.chl == b.chl && a.chr == b.chr
    ensures Blend(a.hl, a.hr, a.vu, a.vd, a.cxy, a.chl, a.chr, a.cvu, a.cvd) == Blend(b.hl, b.hr, b.vu, b.vd, b.cxy, b.chl, b.chr, b.cvu, b.cvd)
  {
    hide CDiv, Abs;
  }

  lemma SameColumn(a: Around, b: Around)
    requires a.Down() < a.Across() && b.Down() < b.Across()
    requires a.cxy == b.cxy && a.vu == b.vu && a.vd == b.vd && a.cvu == b.cvu && a.cvd == b.cvd
    ensures Blend(a.hl, a.hr, a.vu, a.vd, a.cxy, a.chl, a.chr, a.cvu, a.cvd) == Blend(b.hl, b.hr, b.vu, b.vd, b.cxy, b.chl, b.chr, b.cvu, b.cvd)
  {
    hide CDiv, Abs;
  }

  /** Where all four greens are `v`, the sample differs from that by the detail alone, and where
      green and colour are not related it does not differ. */
  lemma FlatGreen(g: Grid, c: Cfa, data: seq<ushort>, y: int, x: int, v: int) returns (m: int, e: int)
    requires g.Ok() && c.Ok() && |data| >= g.Size() && GreenSite(g, c, y, x)
    requires var a := AroundSite(g, c, data, y, x); a.hl == a.hr == a.vu == a.vd == v
    ensures var a := AroundSite(g, c, data, y, x);
            && Chosen(a, v, m, e) && GreenSample(g, c, data, y, x) == if Related(v, a.cxy) then Clamp(v + e) else v
  {
    Natural(g, c, data, y, x);
    var s;
    s, m, e := GreenIs(g, c, data, y, x);
    hide AroundSite, GreenSample, Related, Around.Across, Around.Down;
    FlatMean(AroundSite(g, c, data, y, x), s, m, e, v);
    hide Chosen;
  }

  lemma FlatMean(a: Around, s: int, m: int, e: int, v: int)
    requires a.hl == a.hr == a.vu == a.vd == v && Chosen(a, s, m, e)
    ensures s == v
  {
    hide Around.Across, Around.Down;
  }

  // ---------------------------------------------------------------- the other colours

  /** Where the colour was observed. */
  predicate Site(k: Colour, y: int, x: int) { (y - k.cy0) % 2 == 0 && (x - k.cx0) % 2 == 0 }

  /** Green minus colour over the observed pixels among the nine around (y, x), and how many they
      are. */
  function NearSum(g: Grid, k: Colour, data: seq<ushort>, y: int, x: int): int
    requires g.Ok() && k.Ok() && |data| >= g.Size() && 0 < y < g.height - 1 && 0 < x < g.stride - 1
  {
    Near(g, k, data, y - 1, x - 1) + Near(g, k, data, y - 1, x) + Near(g, k, data, y - 1, x + 1)
    + Near(g, k, data, y, x - 1) + Near(g, k, data, y, x) + Near(g, k, data, y, x + 1)
    + Near(g, k, data, y + 1, x - 1) + Near(g, k, data, y + 1, x) + Near(g, k, data, y + 1, x + 1)
  }

  function Near(g: Grid, k: Colour, data: seq<ushort>, y: int, x: int): int
    requires g.Ok() && k.Ok() && |data| >= g.Size() && 0 <= y < g.height && 0 <= x < g.stride
  {
    if Site(k, y, x) then Chroma(g, k, data, y, x) else 0
  }

  function NearCount(k: Colour, y: int, x: int): nat {
    (if Site(k, y - 1, x - 1) then 1 else 0) + (if Site(k, y - 1, x) then 1 else 0) + (if Site(k, y - 1, x + 1) then 1 else 0)
    + (if Site(k, y, x - 1) then 1 else 0) + (if Site(k, y, x) then 1 else 0) + (if Site(k, y, x + 1) then 1 else 0)
    + (if Site(k, y + 1, x - 1) then 1 else 0) + (if Site(k, y + 1, x) then 1 else 0) + (if Site(k, y + 1, x + 1) then 1 else 0)
  }

  /** Every pixel that the pass fills in gets its green less the mean of green minus colour over the
      observed pixels next to it, whichever of the three samples of the loop it is. */
  lemma NearestMean(g: Grid, k: Colour, data: seq<ushort>, y: int, x: int) returns (q: int)
    requires g.Ok() && k.Ok() && |data| >= g.Size() && 0 < y < g.height - 1 && 0 < x < g.stride - 1
    requires ColourTarget(g, k, Cell(g, y, x, k.c)) && 0 <= Cell(g, y, x, k.c) < |data|
    ensures NearCount(k, y, x) == 2 || NearCount(k, y, x) == 4
    ensures Part(NearSum(g, k, data, y, x), NearCount(k, y, x), q)
    ensures Filled(g, k, data, Cell(g, y, x, k.c)) == Clamp(At(g, data, y, x, k.g) - q)
  {
    CellParts(g, y, x, k.c);
    hide RowOf, ColOf, ChanOf, Cell, Grid.Size, At, Chroma, Part, NearSum, NearCount, CDiv, Clamp;
    NearIs(g, k, data, y, x);
    var n, sum := NearCount(k, y, x), NearSum(g, k, data, y, x);
    q := CDiv(sum, n);
    CDivIs(sum, n);
    FilledIs(g, k, data, y, x);
  }

  lemma FilledIs(g: Grid, k: Colour, data: seq<ushort>, y: int, x: int)
    requires g.Ok() && k.Ok() && |data| >= g.Size() && 0 < y < g.height - 1 && 0 < x < g.stride - 1
    requires 0 <= Cell(g, y, x, k.c) < |data| && ColourTarget(g, k, Cell(g, y, x, k.c)) && NearCount(k, y, x) > 0
    requires RowOf(g, Cell(g, y, x, k.c)) == y && ColOf(g, Cell(g, y, x, k.c)) == x && !Site(k, y, x)
    ensures Filled(g, k, data, Cell(g, y, x, k.c)) == Clamp(At(g, data, y, x, k.g) - CDiv(NearSum(g, k, data, y, x), NearCount(k, y, x)))
  {
    hide RowOf, ColOf, ChanOf, Cell, Grid.Size, At, Chroma, CDiv, Clamp, NearSum, NearCount;
    NearIs(g, k, data, y, x);
  }

  /** And away from the border every pixel without an observation is filled in. */
  lemma EveryPixelFilled(g: Grid, k: Colour, y: int, x: int)
    requires g.Ok() && k.Ok() && k.cy0 < y < g.height - 2 && k.cx0 < x < g.width - 1 && !Site(k, y, x)
    ensures 0 <= Cell(g, y, x, k.c) && ColourTarget(g, k, Cell(g, y, x, k.c))
  {
    CellParts(g, y, x, k.c);
    OwnerCentre(g, k, y, x);
    hide RowOf, ColOf, ChanOf, Cell, Grid.Size, Owner, Centre;
  }

  lemma OwnerCentre(g: Grid, k: Colour, y: int, x: int)
    requires k.cy0 < y < g.height - 2 && k.cx0 < x < g.width - 1 && !Site(k, y, x)
    ensures Centre(g, k, Owner(k, y, x).0, Owner(k, y, x).1)
  {
    var dy, dx := (y - k.cy0) % 2, (x - k.cx0) % 2;
    if dy == 1 {
      assert dx == 1 ==> Owner(k, y, x) == (y, x);
      assert dx == 0 ==> Owner(k, y, x) == (y, x - 1) && (x - 1 - k.cx0) % 2 == 1;
    } else {
      assert dx == 1 && Owner(k, y, x) == (y + 1, x) && (y + 1 - k.cy0) % 2 == 1;
    }
  }

  /** The observed pixels next to one that was not: two above and below, two beside, or the four at
      its corners. */
  lemma NearIs(g: Grid, k: Colour, data: seq<ushort>, y: int, x: int)
    requires g.Ok() && k.Ok() && |data| >= g.Size() && 0 < y < g.height - 1 && 0 < x < g.stride - 1 && !Site(k, y, x)
    requires (y - k.cy0) % 2 == 1 || (x - k.cx0) % 2 == 1
    ensures NearCount(k, y, x) == if (y - k.cy0) % 2 == 1 && (x - k.cx0) % 2 == 1 then 4 else 2
    ensures NearSum(g, k, data, y, x) ==
            if (y - k.cy0) % 2 == 0 then Chroma(g, k, data, y, x - 1) + Chroma(g, k, data, y, x + 1)
            else if (x - k.cx0) % 2 == 0 then Chroma(g, k, data, y - 1, x) + Chroma(g, k, data, y + 1, x)
            else Chroma(g, k, data, y + 1, x - 1) + Chroma(g, k, data, y - 1, x + 1) + Chroma(g, k, data, y + 1, x + 1) + Chroma(g, k, data, y - 1, x - 1)
  {
    SiteBeside(k, y, x, -1, -1);
    SiteBeside(k, y, x, -1, 0);
    SiteBeside(k, y, x, -1, 1);
    SiteBeside(k, y, x, 0, -1);
    SiteBeside(k, y, x, 0, 0);
    SiteBeside(k, y, x, 0, 1);
    SiteBeside(k, y, x, 1, -1);
    SiteBeside(k, y, x, 1, 0);
    SiteBeside(k, y, x, 1, 1);
    hide Site, Chroma, Grid.Size;
  }

  lemma SiteBeside(k: Colour, y: int, x: int, dy: int, dx: int)
    requires -1 <= dy <= 1 && -1 <= dx <= 1
    ensures Site(k, y + dy, x + dx) <==> ((y - k.cy0) % 2 == 0 <==> dy == 0) && ((x - k.cx0) % 2 == 0 <==> dx == 0)
  {
  }
}
