/** How much each pixel has to say in the non-local mean of another, and what the weights come to in
    the simplest images. */
module NlmInfluence {
  import opened Bits
  import opened BoxSum
  import opened NonLocalMeans

  // ---------------------------------------------------------------- influence

  /** The weight that the visits of a log give to the two pixels `p` and `q`, which are not the
      same. */
  function Between(log: seq<Visit>, p: nat, q: nat): real {
    if log == [] then 0.0
    else
      var v := log[|log| - 1];
      Between(log[..|log| - 1], p, q) + if p != q && ((v.a == p && v.b == q) || (v.a == q && v.b == p)) then v.w else 0.0
  }

  lemma TimesSums(a: real, b: real, x: real, y: real)
    ensures Times(a, x) - Times(a, y) == Times(a, x - y)
    ensures Times(a + b, x) == Times(a, x) + Times(b, x) && Times(0.0, x) == 0.0 && Times(1.0, x) == x
  {
  }

  /** Changing pixel `q` changes the sum of pixel `p` by the weight between them, and the pixel's own
      value has no part in it. */
  lemma {:induction false} Influence(t: Tile, log: seq<Visit>, img: seq<real>, p: nat, q: nat, x: real)
    requires LogOk(t, log) && |img| == t.Size() && q < |img|
    ensures LogFits(log, |img|)
    ensures Num(log, img[q := x], p) - Num(log, img, p) == Times(Between(log, p, q), x - img[q])
    decreases |log|
  {
    LogInside(t, log);
    if log == [] {
      TimesSums(0.0, 0.0, x - img[q], 0.0);
    } else {
      var v, but := log[|log| - 1], log[..|log| - 1];
      PairNear(t, v.a, v.b);
      Influence(t, but, img, p, q, x);
      LogInside(t, but);
      TimesSums(v.w, 0.0, x, img[q]);
      TimesSums(Between(but, p, q), v.w, x - img[q], 0.0);
      hide LogOk, Times, Distance, Tile.Size, Num, Pair;
      NumLast(log, img, p);
      NumLast(log, img[q := x], p);
    }
  }

  ghost predicate LogFits(log: seq<Visit>, n: nat) { forall k :: 0 <= k < |log| ==> log[k].a < n && log[k].b < n }

  lemma NumLast(log: seq<Visit>, img: seq<real>, p: nat)
    requires log != [] && LogFits(log, |img|)
    ensures LogFits(log[..|log| - 1], |img|) && Num(log, img, p) == Num(log[..|log| - 1], img, p) + Part(log[|log| - 1], img, p)
  {
  }

  /** The maximum is that: no visit of the pixel has a larger weight, and one has this one unless
      there is none above 0. */
  lemma {:induction false} MaxIs(log: seq<Visit>, p: nat) returns (k: nat)
    ensures forall i :: 0 <= i < |log| && (log[i].a == p || log[i].b == p) ==> log[i].w <= Max(log, p)
    ensures Max(log, p) == 0.0 || (k < |log| && (log[k].a == p || log[k].b == p) && log[k].w == Max(log, p))
    decreases |log|
  {
    k := 0;
    if log != [] {
      var but, v := log[..|log| - 1], log[|log| - 1];
      k := MaxIs(but, p);
      assert forall i :: 0 <= i < |but| ==> but[i] == log[i];
      if (v.a == p || v.b == p) && v.w > Max(but, p) { k := |log| - 1; }
    }
  }

  /** The last step: the pixel takes part with the largest weight that it has given, with 1 where
      that is next to nothing, and the sum is divided by all the weights. */
  lemma AverageIs(v: real, num: real, den: real, max: real, epsilon: real)
    requires epsilon >= 0.0 && den >= 0.0
    ensures max > epsilon ==> Average(v, num, den, max, epsilon) * (den + max) == num + max * v
    ensures max <= epsilon ==> Average(v, num, den, max, epsilon) * (den + 1.0) == num + v
  {
    var own := Own(max, epsilon);
    hide Own;
    DivMul(num + Times(own, v), den + own);
  }

  lemma DivMul(a: real, b: real)
    requires b > 0.0
    ensures a / b * b == a
  {
  }

  // ---------------------------------------------------------------- weights

  ghost predicate Flat(img: seq<real>, v: real) { forall m :: 0 <= m < |img| ==> img[m] == v }

  /** In a flat image no patch is at any distance from another, near the border included. */
  lemma {:induction false} NothingBetween(t: Tile, img: seq<real>, v: real, ny: int, nx: int)
    requires Visited(t, ny, nx) && |img| == t.Size() && Flat(img, v)
    ensures Flat(UiAfter(t, img, ny, nx), 0.0)
    decreases ny + t.sr, nx + ny + t.sr
  {
    HalfHere(t, ny, nx);
    if nx > -(ny + t.sr) {
      NothingBetween(t, img, v, ny, nx - 1);
    } else if ny > 0 - t.sr {
      LastVisited(t, ny - 1);
      NothingBetween(t, img, v, ny - 1, LastOf(t, ny - 1));
    }
    hide UiAfter;
    var before := UiBefore(t, img, ny, nx);
    assert Flat(before, 0.0);
    hide UiBefore;
    SquaresFlat(t, img, v, before, ny, nx);
    AfterIs(t, img, ny, nx);
  }

  lemma AfterIs(t: Tile, img: seq<real>, ny: int, nx: int)
    requires Visited(t, ny, nx) && |img| == t.Size()
    ensures Half(t, ny, nx) && UpTo(t, ny, nx) && |UiBefore(t, img, ny, nx)| == t.Size()
    ensures forall m :: 0 <= m < t.Size() ==> UiAfter(t, img, ny, nx)[m] == SquareAt(t, img, UiBefore(t, img, ny, nx), ny, nx, m)
  {
    HalfHere(t, ny, nx);
    hide UiBefore, SquareAt, Half, Tile.Size;
  }

  lemma SquaresFlat(t: Tile, img: seq<real>, v: real, before: seq<real>, ny: int, nx: int)
    requires Half(t, ny, nx) && |img| == |before| == t.Size() && t.width > 0 && Flat(img, v) && Flat(before, 0.0)
    ensures forall m :: 0 <= m < t.Size() ==> SquareAt(t, img, before, ny, nx, m) == 0.0
  {
    forall m | 0 <= m < t.Size() ensures SquareAt(t, img, before, ny, nx, m) == 0.0 {
      CellOf(m, t.height, t.width);
      if InRegion(t, ny, nx, RowOf(t, m), ColOf(t, m)) { RegionPair(t, ny, nx, RowOf(t, m), ColOf(t, m)); }
      hide Half, InRegion;
    }
  }

  lemma {:induction false} SumFlat(src: seq<real>, at: nat, n: nat)
    requires at + n <= |src| && Flat(src, 0.0)
    ensures Sum(src, at, n) == 0.0
    decreases n
  {
    if n > 0 { SumFlat(src, at, n - 1); }
  }

  lemma {:induction false} BlockFlat(b: Box, src: seq<real>, x: nat, top: nat, n: nat)
    requires b.Ok(src) && b.r <= x < b.width - b.r && top + n <= b.height && Flat(src, 0.0)
    ensures Block(b, src, x, top, n) == 0.0
    decreases n
  {
    if n > 0 {
      BlockFlat(b, src, x, top, n - 1);
      SumFlat(src, RowStart(b, src, x, top + n - 1), 2 * b.r + 1);
    }
  }

  lemma SpreadFlat(t: Tile, img: seq<real>, v: real, ny: int, nx: int, pr: nat, m: nat)
    requires Visited(t, ny, nx) && |img| == t.Size() && Fits(t, pr) && m < t.Size() && Flat(img, v)
    ensures Spread(t, img, ny, nx, pr, m) == 0.0
  {
    NothingBetween(t, img, v, ny, nx);
    hide UiAfter, Visited;
    var ui, b := UiAfter(t, img, ny, nx), Box(t.width, t.height, pr);
    CellOf(m, t.height, t.width);
    var x, y := m % t.width, m / t.width;
    if pr <= y < t.height - pr && pr <= x < t.width - pr { BlockFlat(b, ui, x, y - pr, 2 * pr + 1); }
    hide Block;
  }

  /** There the weight of two pixels is the kernel at their distance in rows times the kernel at
      their distance in columns, times the exponential at 0. */
  lemma FlatWeight(t: Tile, img: seq<real>, wt: Weights, v: Visit, x: real)
    requires t.width > 0 && WeightIs(t, img, wt, v) && Flat(img, x)
    ensures var dy, dx := Abs(RowOf(t, v.b) - RowOf(t, v.a)), Abs(ColOf(t, v.b) - ColOf(t, v.a));
            dy < |wt.kernel| && dx < |wt.kernel| && v.w == wt.kernel[dy] * wt.kernel[dx] * wt.exp(0.0)
  {
    var ny, nx := RowOf(t, v.b) - RowOf(t, v.a), ColOf(t, v.b) - ColOf(t, v.a);
    SpreadFlat(t, img, x, ny, nx, wt.pr, v.a);
    assert Times(0.0, wt.cInv) == 0.0;
    hide RowOf, ColOf, Spread;
  }

  /** Patches of one pixel are at the square of the pixels' difference. */
  lemma PointWeight(t: Tile, img: seq<real>, wt: Weights, v: Visit)
    requires t.width > 0 && Pair(t, v.a, v.b) && WeightIs(t, img, wt, v) && wt.pr == 0
    ensures var d := img[v.a] - img[v.b];
            var dy, dx := Abs(RowOf(t, v.b) - RowOf(t, v.a)), Abs(ColOf(t, v.b) - ColOf(t, v.a));
            && dy < |wt.kernel| && dx < |wt.kernel|
            && v.w == Times(Times(wt.kernel[dy], wt.kernel[dx]), wt.exp(Times(Times(d, d), wt.cInv)))
  {
    var ny, nx, d := RowOf(t, v.b) - RowOf(t, v.a), ColOf(t, v.b) - ColOf(t, v.a), img[v.a] - img[v.b];
    assert ny <= 0;
    PointSpread(t, img, ny, nx, v.a, v.b);
    hide RowOf, ColOf, Spread, Visited, Pair, Times;
  }

  lemma PointSpread(t: Tile, img: seq<real>, ny: int, nx: int, a: nat, b: nat)
    requires Visited(t, ny, nx) && Pair(t, a, b) && |img| == t.Size() && Fits(t, 0)
    requires RowOf(t, b) - RowOf(t, a) == ny && ColOf(t, b) - ColOf(t, a) == nx
    ensures Spread(t, img, ny, nx, 0, a) == Times(img[a] - img[b], img[a] - img[b])
  {
    var none := 0;
    PairRegion(t, ny, nx, a, b);
    SpreadInside(t, img, ny, nx, none, a);
    PointPatch(t, img, ny, nx, a, b);
    hide RowOf, ColOf, Spread, Patch, Visited, Pair;
    assert RowOf(t, a) - none == RowOf(t, a) && ColOf(t, a) - none == ColOf(t, a) && 2 * none + 1 == 1;
  }

  lemma PointPatch(t: Tile, img: seq<real>, ny: int, nx: int, a: nat, b: nat)
    requires t.width > 0 && Pair(t, a, b) && |img| == t.Size() && RowOf(t, b) - RowOf(t, a) == ny && ColOf(t, b) - ColOf(t, a) == nx
    ensures InRegion(t, ny, nx, RowOf(t, a), ColOf(t, a)) && ny <= 0
    ensures var d := img[a] - img[b]; Patch(t, img, ny, nx, RowOf(t, a), ColOf(t, a), 1, 1) == Times(d, d)
  {
    PairRegion(t, ny, nx, a, b);
    CellOf(a, t.height, t.width);
    CellOf(b, t.height, t.width);
    var y, x := RowOf(t, a), ColOf(t, a);
    assert Px(t, img, y, x) == img[a] && Px(t, img, y + ny, x + nx) == img[b];
    hide Px, RowOf, ColOf;
    assert Patch(t, img, ny, nx, y, x, 0, 1) == 0.0 && PatchRow(t, img, ny, nx, y, x, 0) == 0.0;
    assert PatchRow(t, img, ny, nx, y, x, 1) == Sqr(img[a] - img[b]);
  }

  /** The scale of the distances: the strength and the number of pixels of a patch, squared, with
      the sign changed. */
  lemma CInvIs(h: real, pr: nat)
    requires h != 0.0
    ensures var pd := (2 * pr + 1) as real; CInv(h, pr) * ((h * h) * (pd * pd)) == -1.0
  {
    var pd := (2 * pr + 1) as real;
    NotZero(h, pd);
    var d := Sqr(h) * Sqr(pd);
    QuotientBack(d);
  }

  lemma QuotientBack(d: real)
    requires d != 0.0
    ensures -1.0 / d * d == -1.0
  {
  }
}
