/** The green pass has no preferred direction: turning the image and its colour filter turns the
    result. */
module DemosaicTurns {
  import opened Bits
  import opened Demosaic

  /** Left for right, top for bottom, rows for columns. The other turns are made of these. */
  datatype Turn = Mirrored | Upended | Transposed

  function Moved(t: Turn, g: Grid, y: int, x: int): (int, int) {
    match t
    case Mirrored => (y, g.width - 1 - x)
    case Upended => (g.height - 1 - y, x)
    case Transposed => (x, y)
  }

  /** The turned image may have lines of another length in memory. */
  predicate TurnedGrid(t: Turn, g: Grid, g': Grid) {
    && g'.width == (if t.Transposed? then g.height else g.width)
    && g'.height == (if t.Transposed? then g.width else g.height)
  }

  /** The phase of the filter on the turned image. */
  function TurnedCfa(t: Turn, g: Grid, c: Cfa): (c': Cfa)
    requires c.Ok()
    ensures c'.Ok()
  {
    match t
    case Mirrored => c.(gx := if g.width % 2 == 1 then c.gx else 1 - c.gx)
    case Upended => c.(gy := (g.height + 1 + c.gy) % 2, ry := (g.height + 1 + c.ry) % 2)
    case Transposed => c.(gx := c.gy % 2, gy := c.gx, ry := (c.gx + c.gy + c.ry + 1) % 2)
  }

  predicate InImage(g: Grid, y: int, x: int) { 0 <= y < g.height && 0 <= x < g.width }

  lemma MovedInImage(t: Turn, g: Grid, g': Grid, y: int, x: int)
    requires TurnedGrid(t, g, g') && InImage(g, y, x)
    ensures InImage(g', Moved(t, g, y, x).0, Moved(t, g, y, x).1)
  {
  }

  /** One pixel of the turned image. */
  ghost predicate PixelTurned(t: Turn, g: Grid, g': Grid, data: seq<ushort>, data': seq<ushort>, y: int, x: int)
    requires g.Ok() && g'.Ok() && TurnedGrid(t, g, g') && |data| >= g.Size() && |data'| >= g'.Size() && InImage(g, y, x)
  {
    forall o :: 0 <= o < 3 ==> At(g', data', Moved(t, g, y, x).0, Moved(t, g, y, x).1, o) == At(g, data, y, x, o)
  }

  ghost predicate ImageTurned(t: Turn, g: Grid, g': Grid, data: seq<ushort>, data': seq<ushort>)
    requires g.Ok() && g'.Ok() && TurnedGrid(t, g, g') && |data| >= g.Size() && |data'| >= g'.Size()
  {
    forall y, x :: InImage(g, y, x) ==> PixelTurned(t, g, g', data, data', y, x)
  }

  predicate Inner(g: Grid, y: int, x: int) { 2 <= y < g.height - 2 && 2 <= x < g.width - 2 }

  /** The sites are the inner fields of one colour of a chessboard. */
  lemma Chessboard(g: Grid, c: Cfa, y: int, x: int)
    requires c.Ok()
    ensures GreenSite(g, c, y, x) <==> Inner(g, y, x) && (x + y + c.gx + c.gy) % 2 == 1
    ensures c.Colour(y) == if (y + c.ry) % 2 == 0 then c.r else c.b
  {
  }

  lemma Parity(a: int, b: int, k: int)
    requires a == b + 2 * k
    ensures a % 2 == b % 2
  {
  }

  lemma ParityTurned(t: Turn, g: Grid, g': Grid, c: Cfa, y: int, x: int)
    requires c.Ok() && TurnedGrid(t, g, g')
    ensures var (y', x') := Moved(t, g, y, x);
            var c' := TurnedCfa(t, g, c);
            && ((x' + y' + c'.gx + c'.gy) % 2 == (x + y + c.gx + c.gy) % 2)
            && ((x + y + c.gx + c.gy) % 2 == 1 ==> (y' + c'.ry) % 2 == (y + c.ry) % 2)
  {
    match t
    case Mirrored => MirroredParity(g, c, y, x);
    case Upended => UpendedParity(g, c, y, x);
    case Transposed => TransposedParity(g, c, y, x);
  }

  lemma MirroredParity(g: Grid, c: Cfa, y: int, x: int)
    requires c.Ok()
    ensures (g.width - 1 - x + y + TurnedCfa(Mirrored, g, c).gx + c.gy) % 2 == (x + y + c.gx + c.gy) % 2
  {
    var q := g.width / 2;
    Parity(g.width - 1 - x + y + TurnedCfa(Mirrored, g, c).gx + c.gy, x + y + c.gx + c.gy,
      if g.width % 2 == 1 then q - x else q - x - c.gx);
  }

  lemma UpendedParity(g: Grid, c: Cfa, y: int, x: int)
    requires c.Ok()
    ensures (x + (g.height - 1 - y) + c.gx + TurnedCfa(Upended, g, c).gy) % 2 == (x + y + c.gx + c.gy) % 2
    ensures (g.height - 1 - y + TurnedCfa(Upended, g, c).ry) % 2 == (y + c.ry) % 2
  {
    var h := g.height;
    Parity(x + (h - 1 - y) + c.gx + TurnedCfa(Upended, g, c).gy, x + y + c.gx + c.gy, h - y - (h + 1 + c.gy) / 2);
    Parity(h - 1 - y + TurnedCfa(Upended, g, c).ry, y + c.ry, h - y - (h + 1 + c.ry) / 2);
  }

  lemma TransposedParity(g: Grid, c: Cfa, y: int, x: int)
    requires c.Ok()
    ensures (y + x + TurnedCfa(Transposed, g, c).gx + c.gx) % 2 == (x + y + c.gx + c.gy) % 2
    ensures (x + y + c.gx + c.gy) % 2 == 1 ==> (x + TurnedCfa(Transposed, g, c).ry) % 2 == (y + c.ry) % 2
  {
    Parity(y + x + TurnedCfa(Transposed, g, c).gx + c.gx, x + y + c.gx + c.gy, -(c.gy / 2));
    if (x + y + c.gx + c.gy) % 2 == 1 {
      Parity(x + TurnedCfa(Transposed, g, c).ry, y + c.ry,
        (x + y + c.gx + c.gy) / 2 + 1 - y - (c.gx + c.gy + c.ry + 1) / 2);
    }
  }

  lemma InnerTurned(t: Turn, g: Grid, g': Grid, c: Cfa, y: int, x: int)
    requires c.Ok() && TurnedGrid(t, g, g')
    ensures Inner(g', Moved(t, g, y, x).0, Moved(t, g, y, x).1) <==> Inner(g, y, x)
    ensures TurnedCfa(t, g, c).r == c.r && TurnedCfa(t, g, c).b == c.b
  {
  }

  /** The filter turns with the image: sites go to sites of the same colour. */
  lemma SiteTurned(t: Turn, g: Grid, g': Grid, c: Cfa, y: int, x: int)
    requires c.Ok() && TurnedGrid(t, g, g')
    ensures GreenSite(g', TurnedCfa(t, g, c), Moved(t, g, y, x).0, Moved(t, g, y, x).1) <==> GreenSite(g, c, y, x)
    ensures GreenSite(g, c, y, x) ==> TurnedCfa(t, g, c).Colour(Moved(t, g, y, x).0) == c.Colour(y)
  {
    hide GreenSite, Cfa.Colour, Inner, Moved, TurnedCfa;
    Chessboard(g, c, y, x);
    Chessboard(g', TurnedCfa(t, g, c), Moved(t, g, y, x).0, Moved(t, g, y, x).1);
    ParityTurned(t, g, g', c, y, x);
    InnerTurned(t, g, g', c, y, x);
  }

  /** A step on the image, seen on the turned one. */
  function Step(t: Turn, dy: int, dx: int): (int, int) {
    match t
    case Mirrored => (dy, -dx)
    case Upended => (-dy, dx)
    case Transposed => (dx, dy)
  }

  /** The neighbour `(dy, dx)` away. */
  lemma Seen(t: Turn, g: Grid, g': Grid, data: seq<ushort>, data': seq<ushort>, y: int, x: int, dy: int, dx: int, o: int)
    requires g.Ok() && g'.Ok() && TurnedGrid(t, g, g') && |data| >= g.Size() && |data'| >= g'.Size()
    requires ImageTurned(t, g, g', data, data') && Inner(g, y, x) && -2 <= dy <= 2 && -2 <= dx <= 2 && 0 <= o < 3
    ensures var (y', x') := (Moved(t, g, y, x).0 + Step(t, dy, dx).0, Moved(t, g, y, x).1 + Step(t, dy, dx).1);
            0 <= y' < g'.height && 0 <= x' < g'.stride && At(g', data', y', x', o) == At(g, data, y + dy, x + dx, o)
  {
    hide At, Grid.Size;
    assert PixelTurned(t, g, g', data, data', y + dy, x + dx);
  }

  /** What a green sample is made of: greens and observed colours left, right, above and below. */
  datatype Nine = Nine(hl: ushort, hr: ushort, vu: ushort, vd: ushort, cxy: ushort, chl: ushort, chr: ushort, cvu: ushort, cvd: ushort) {
    function Sample(): ushort { Clamp(Blend(hl, hr, vu, vd, cxy, chl, chr, cvu, cvd)) }

    function Turned(t: Turn): Nine {
      match t
      case Mirrored => Nine(hr, hl, vu, vd, cxy, chr, chl, cvu, cvd)
      case Upended => Nine(hl, hr, vd, vu, cxy, chl, chr, cvd, cvu)
      case Transposed => Nine(vu, vd, hl, hr, cxy, cvu, cvd, chl, chr)
    }
  }

  /** The blend takes its four sides alike. */
  lemma BlendSymmetric(hl: int, hr: int, vu: int, vd: int, cxy: int, chl: int, chr: int, cvu: int, cvd: int)
    ensures Blend(hr, hl, vu, vd, cxy, chr, chl, cvu, cvd) == Blend(hl, hr, vu, vd, cxy, chl, chr, cvu, cvd)
    ensures Blend(hl, hr, vd, vu, cxy, chl, chr, cvd, cvu) == Blend(hl, hr, vu, vd, cxy, chl, chr, cvu, cvd)
    ensures Blend(vu, vd, hl, hr, cxy, cvu, cvd, chl, chr) == Blend(hl, hr, vu, vd, cxy, chl, chr, cvu, cvd)
  {
  }

  lemma SameSample(n: Nine, t: Turn)
    ensures n.Turned(t).Sample() == n.Sample()
  {
    hide Blend, Clamp;
    BlendSymmetric(n.hl, n.hr, n.vu, n.vd, n.cxy, n.chl, n.chr, n.cvu, n.cvd);
  }

  function NineAt(g: Grid, data: seq<ushort>, y: int, x: int, green: nat, o: nat): Nine
    requires g.Ok() && |data| >= g.Size() && Inner(g, y, x) && green < 3 && o < 3
  {
    Nine(At(g, data, y, x - 1, green), At(g, data, y, x + 1, green), At(g, data, y - 1, x, green), At(g, data, y + 1, x, green),
         At(g, data, y, x, o), At(g, data, y, x - 2, o), At(g, data, y, x + 2, o), At(g, data, y - 2, x, o), At(g, data, y + 2, x, o))
  }

  lemma NineTurned(t: Turn, g: Grid, g': Grid, data: seq<ushort>, data': seq<ushort>, y: int, x: int, green: nat, o: nat)
    requires g.Ok() && g'.Ok() && TurnedGrid(t, g, g') && |data| >= g.Size() && |data'| >= g'.Size() && green < 3 && o < 3
    requires ImageTurned(t, g, g', data, data') && Inner(g, y, x) && Inner(g', Moved(t, g, y, x).0, Moved(t, g, y, x).1)
    ensures NineAt(g', data', Moved(t, g, y, x).0, Moved(t, g, y, x).1, green, o) == NineAt(g, data, y, x, green, o).Turned(t)
  {
    hide At, Grid.Size, Grid.Ok, TurnedGrid, ImageTurned, Nine.Sample;
    Seen(t, g, g', data, data', y, x, 0, 0, o);
    Seen(t, g, g', data, data', y, x, 0, -1, green);
    Seen(t, g, g', data, data', y, x, 0, 1, green);
    Seen(t, g, g', data, data', y, x, -1, 0, green);
    Seen(t, g, g', data, data', y, x, 1, 0, green);
    Seen(t, g, g', data, data', y, x, 0, -2, o);
    Seen(t, g, g', data, data', y, x, 0, 2, o);
    Seen(t, g, g', data, data', y, x, -2, 0, o);
    Seen(t, g, g', data, data', y, x, 2, 0, o);
  }

  lemma NineSample(g: Grid, c: Cfa, data: seq<ushort>, y: int, x: int)
    requires g.Ok() && c.Ok() && |data| >= g.Size() && GreenSite(g, c, y, x)
    ensures GreenSample(g, c, data, y, x) == NineAt(g, data, y, x, c.g, c.Colour(y)).Sample()
  {
    hide Blend, At;
  }

  lemma SampleTurned(t: Turn, g: Grid, g': Grid, c: Cfa, data: seq<ushort>, data': seq<ushort>, y: int, x: int)
    requires g.Ok() && g'.Ok() && c.Ok() && TurnedGrid(t, g, g') && |data| >= g.Size() && |data'| >= g'.Size()
    requires ImageTurned(t, g, g', data, data') && GreenSite(g, c, y, x)
    ensures var (y', x') := Moved(t, g, y, x);
            && GreenSite(g', TurnedCfa(t, g, c), y', x')
            && GreenSample(g', TurnedCfa(t, g, c), data', y', x') == GreenSample(g, c, data, y, x)
  {
    var (y', x') := Moved(t, g, y, x);
    var c' := TurnedCfa(t, g, c);
    assert c'.g == c.g;
    SiteTurned(t, g, g', c, y, x);
    hide Moved, TurnedCfa, NineAt, Nine.Turned, Nine.Sample, GreenSample, Grid.Size;
    NineSample(g, c, data, y, x);
    NineSample(g', c', data', y', x');
    NineTurned(t, g, g', data, data', y, x, c.g, c.Colour(y));
    SameSample(NineAt(g, data, y, x, c.g, c.Colour(y)), t);
  }

  /** The buffer after the pass. */
  function GreenedImage(g: Grid, c: Cfa, data: seq<ushort>): (r: seq<ushort>)
    requires g.Ok() && c.Ok() && |data| >= g.Size()
    ensures |r| == |data|
  {
    seq(|data|, i requires 0 <= i < |data| => Greened(g, c, data, i))
  }

  lemma GreenedAt(g: Grid, c: Cfa, data: seq<ushort>, y: int, x: int, o: int)
    requires g.Ok() && c.Ok() && |data| >= g.Size() && InImage(g, y, x) && 0 <= o < 3
    ensures At(g, GreenedImage(g, c, data), y, x, o) ==
            if o == c.g && GreenSite(g, c, y, x) then GreenSample(g, c, data, y, x) else At(g, data, y, x, o)
  {
    hide GreenSample, GreenSite, Grid.Size, Cell, RowOf, ColOf, ChanOf;
    CellParts(g, y, x, o);
  }

  /** The green pass commutes with every turn of the image. */
  lemma GreenTurned(t: Turn, g: Grid, g': Grid, c: Cfa, data: seq<ushort>, data': seq<ushort>)
    requires g.Ok() && g'.Ok() && c.Ok() && TurnedGrid(t, g, g') && |data| >= g.Size() && |data'| >= g'.Size()
    requires ImageTurned(t, g, g', data, data')
    ensures ImageTurned(t, g, g', GreenedImage(g, c, data), GreenedImage(g', TurnedCfa(t, g, c), data'))
  {
    hide GreenSample, GreenSite, Grid.Size, At, GreenedImage;
    var c' := TurnedCfa(t, g, c);
    assert c'.g == c.g;
    hide TurnedCfa;
    forall y, x | InImage(g, y, x) ensures PixelTurned(t, g, g', GreenedImage(g, c, data), GreenedImage(g', c', data'), y, x) {
      MovedInImage(t, g, g', y, x);
      assert PixelTurned(t, g, g', data, data', y, x);
      SiteTurned(t, g, g', c, y, x);
      if GreenSite(g, c, y, x) { SampleTurned(t, g, g', c, data, data', y, x); }
      hide Moved;
      forall o | 0 <= o < 3
        ensures At(g', GreenedImage(g', c', data'), Moved(t, g, y, x).0, Moved(t, g, y, x).1, o) == At(g, GreenedImage(g, c, data), y, x, o)
      {
        GreenedAt(g, c, data, y, x, o);
        GreenedAt(g', c', data', Moved(t, g, y, x).0, Moved(t, g, y, x).1, o);
      }
    }
  }
}
