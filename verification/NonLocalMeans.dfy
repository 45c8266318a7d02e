/** The pair enumeration and the weighted average of nlm_mono_tile. Floats are exact reals and
    fast_exp is any non-negative function. */
module NonLocalMeans {
  import opened Bits
  import opened BoxSum

  datatype Tile = Tile(width: nat, height: nat, sr: nat) {
    function Size(): nat { height * width }
  }

  function RowOf(t: Tile, m: nat): int
    requires t.width > 0
  {
    m / t.width
  }

  function ColOf(t: Tile, m: nat): int
    requires t.width > 0
  {
    m % t.width
  }

  /** Offsets the two outer loops are after: the half of the diamond that comes first. */
  predicate Half(t: Tile, ny: int, nx: int) {
    ny <= 0 && Abs(nx) - ny <= t.sr && (ny < 0 || nx < 0)
  }

  /** Pixel `b` is at such an offset from pixel `a`. */
  predicate Pair(t: Tile, a: nat, b: nat) {
    t.width > 0 && a < t.Size() && b < t.Size() && Half(t, RowOf(t, b) - RowOf(t, a), ColOf(t, b) - ColOf(t, a))
  }

  /** The loops have come past the pair. */
  predicate Past(t: Tile, a: nat, b: nat, ny: int, nx: int, y: int, x: int)
    requires t.width > 0
  {
    var dy, dx := RowOf(t, b) - RowOf(t, a), ColOf(t, b) - ColOf(t, a);
    dy < ny || (dy == ny && (dx < nx || (dx == nx && (RowOf(t, a) < y || (RowOf(t, a) == y && ColOf(t, a) < x)))))
  }

  function Distance(t: Tile, a: nat, b: nat): nat
    requires t.width > 0
  {
    Abs(RowOf(t, b) - RowOf(t, a)) + Abs(ColOf(t, b) - ColOf(t, a))
  }

  /** Of two different pixels at distance `sr` or less, exactly one order is a pair. */
  lemma HalfPlane(t: Tile, a: nat, b: nat)
    requires t.width > 0 && a < t.Size() && b < t.Size() && a != b
    ensures Distance(t, a, b) <= t.sr <==> Pair(t, a, b) || Pair(t, b, a)
    ensures !(Pair(t, a, b) && Pair(t, b, a))
  {
    CellOf(a, t.height, t.width);
    CellOf(b, t.height, t.width);
    hide RowOf, ColOf;
    SameCell(t, a, b);
  }

  lemma SameCell(t: Tile, a: nat, b: nat)
    requires t.width > 0 && a < t.Size() && b < t.Size()
    ensures RowOf(t, a) == RowOf(t, b) && ColOf(t, a) == ColOf(t, b) ==> a == b
  {
    CellOf(a, t.height, t.width);
    CellOf(b, t.height, t.width);
  }

  // ---------------------------------------------------------------- what the loops add up

  /** One visit: two pixels and the weight they give each other. */
  datatype Visit = Visit(a: nat, b: nat, w: real)

  /** A product that the solver need not look into. */
  function Times(w: real, v: real): (r: real)
    ensures w >= 0.0 && v >= 0.0 ==> r >= 0.0
  {
    w * v
  }

  /** What a visit adds to the weighted sum of pixel `p`, and to its weight. */
  function Part(v: Visit, img: seq<real>, p: nat): real
    requires v.a < |img| && v.b < |img|
  {
    (if v.a == p then Times(v.w, img[v.b]) else 0.0) + (if v.b == p then Times(v.w, img[v.a]) else 0.0)
  }

  function Weight(v: Visit, p: nat): real {
    (if v.a == p then v.w else 0.0) + (if v.b == p then v.w else 0.0)
  }

  function Num(log: seq<Visit>, img: seq<real>, p: nat): real
    requires forall k :: 0 <= k < |log| ==> log[k].a < |img| && log[k].b < |img|
  {
    if log == [] then 0.0 else Num(log[..|log| - 1], img, p) + Part(log[|log| - 1], img, p)
  }

  function Den(log: seq<Visit>, p: nat): real {
    if log == [] then 0.0 else Den(log[..|log| - 1], p) + Weight(log[|log| - 1], p)
  }

  function Max(log: seq<Visit>, p: nat): real {
    if log == [] then 0.0
    else
      var v := log[|log| - 1];
      var m := Max(log[..|log| - 1], p);
      if (v.a == p || v.b == p) && v.w > m then v.w else m
  }

  /** How often each ordered pair was visited. */
  function Pairs(log: seq<Visit>): multiset<(nat, nat)> {
    if log == [] then multiset{} else Pairs(log[..|log| - 1]) + multiset{(log[|log| - 1].a, log[|log| - 1].b)}
  }

  lemma Append(log: seq<Visit>, v: Visit, img: seq<real>, p: nat)
    requires forall k :: 0 <= k < |log| ==> log[k].a < |img| && log[k].b < |img|
    requires v.a < |img| && v.b < |img|
    ensures Num(log + [v], img, p) == Num(log, img, p) + Part(v, img, p)
    ensures Den(log + [v], p) == Den(log, p) + Weight(v, p)
    ensures Max(log + [v], p) == if (v.a == p || v.b == p) && v.w > Max(log, p) then v.w else Max(log, p)
  {
    assert (log + [v])[..|log|] == log;
  }

  /** Every visit so far was one of a pair, with a weight that is not negative. */
  ghost predicate LogOk(t: Tile, log: seq<Visit>) {
    forall k :: 0 <= k < |log| ==> Pair(t, log[k].a, log[k].b) && log[k].w >= 0.0
  }

  /** The pairs that the loops have passed were visited once, the others not at all. */
  ghost predicate Covered(t: Tile, log: seq<Visit>, ny: int, nx: int, y: int, x: int)
    requires t.width > 0
  {
    forall a: nat, b: nat :: Pairs(log)[(a, b)] == if Pair(t, a, b) && Past(t, a, b, ny, nx, y, x) then 1 else 0
  }

  /** The three buffers are the sums of the log. */
  ghost predicate Summed(t: Tile, log: seq<Visit>, img: seq<real>, obuf: seq<real>, wSum: seq<real>, wMax: seq<real>) {
    && LogOk(t, log) && |img| == |obuf| == |wSum| == |wMax| == t.Size()
    && forall p :: 0 <= p < |img| ==> obuf[p] == Num(log, img, p) && wSum[p] == Den(log, p) && wMax[p] == Max(log, p)
  }

  // ---------------------------------------------------------------- convexity

  /** `lo` and `hi` bound the image over the diamond around pixel `p`. */
  ghost predicate Bounds(t: Tile, img: seq<real>, p: nat, lo: real, hi: real)
    requires t.width > 0 && |img| == t.Size()
  {
    p < |img| && forall q :: 0 <= q < |img| && Distance(t, p, q) <= t.sr ==> lo <= img[q] <= hi
  }

  /** A sum `n` of terms between `lo` and `hi` with weights that add up to `d`. */
  predicate Within(lo: real, hi: real, d: real, n: real) { d >= 0.0 && lo * d <= n <= hi * d }

  lemma WithinAdd(lo: real, hi: real, d: real, n: real, d': real, n': real)
    requires Within(lo, hi, d, n) && Within(lo, hi, d', n')
    ensures Within(lo, hi, d + d', n + n')
  {
    assert lo * (d + d') == lo * d + lo * d' && hi * (d + d') == hi * d + hi * d';
  }

  lemma WithinTerm(lo: real, hi: real, w: real, v: real)
    requires w >= 0.0 && lo <= v <= hi
    ensures Within(lo, hi, w, Times(w, v))
  {
    assert (v - lo) * w >= 0.0 && (hi - v) * w >= 0.0;
  }

  lemma WithinNone(lo: real, hi: real)
    ensures Within(lo, hi, 0.0, 0.0)
  {
  }

  /** A visit's part is between the bounds of the pixel it is for. */
  lemma PartWithin(t: Tile, v: Visit, img: seq<real>, p: nat, lo: real, hi: real)
    requires t.width > 0 && |img| == t.Size() && Pair(t, v.a, v.b) && v.w >= 0.0 && Bounds(t, img, p, lo, hi)
    ensures Within(lo, hi, Weight(v, p), Part(v, img, p))
  {
    PairNear(t, v.a, v.b);
    hide Within, Pair, Distance, Times;
    if v.a == p { WithinTerm(lo, hi, v.w, img[v.b]); }
    if v.b == p { WithinTerm(lo, hi, v.w, img[v.a]); }
    WithinNone(lo, hi);
  }

  lemma PairNear(t: Tile, a: nat, b: nat)
    requires Pair(t, a, b)
    ensures t.width > 0 && a < t.Size() && b < t.Size() && a != b && Distance(t, a, b) <= t.sr && Distance(t, b, a) <= t.sr
  {
  }

  lemma {:induction false} NumBounded(t: Tile, log: seq<Visit>, img: seq<real>, p: nat, lo: real, hi: real)
    requires t.width > 0 && |img| == t.Size() && LogOk(t, log) && Bounds(t, img, p, lo, hi)
    ensures Within(lo, hi, Den(log, p), Num(log, img, p)) && Max(log, p) >= 0.0
    decreases |log|
  {
    if log != [] {
      hide Within, Pair, Bounds, Part, Weight;
      var v, more := log[|log| - 1], log[..|log| - 1];
      NumBounded(t, more, img, p, lo, hi);
      PartWithin(t, v, img, p, lo, hi);
      WithinAdd(lo, hi, Den(more, p), Num(more, img, p), Weight(v, p), Part(v, img, p));
    } else {
      WithinNone(lo, hi);
    }
  }

  /** `w_cur`: the largest weight, or 1 where there is none to speak of. */
  function Own(max: real, epsilon: real): (w: real)
    requires epsilon >= 0.0
    ensures w > 0.0
  {
    if max > epsilon then max else 1.0
  }

  /** The last step: the pixel itself is added, and the sum divided by the weights. */
  function Average(v: real, num: real, den: real, max: real, epsilon: real): real
    requires epsilon >= 0.0 && den >= 0.0
  {
    (num + Times(Own(max, epsilon), v)) / (den + Own(max, epsilon))
  }

  lemma Cancel(a: real, b: real, d: real)
    requires d > 0.0 && a * d <= b * d
    ensures a <= b
  {
  }

  lemma BoundedQuotient(lo: real, hi: real, d: real, n: real)
    requires d > 0.0 && Within(lo, hi, d, n)
    ensures lo <= n / d <= hi
  {
    var q := n / d;
    assert q * d == n;
    Cancel(lo, q, d);
    Cancel(q, hi, d);
  }

  lemma OwnBound(t: Tile, img: seq<real>, p: nat, lo: real, hi: real)
    requires t.width > 0 && |img| == t.Size() && Bounds(t, img, p, lo, hi)
    ensures p < |img| && lo <= img[p] <= hi
  {
    assert Distance(t, p, p) == 0;
  }

  lemma WithinPositive(lo: real, hi: real, d: real, n: real)
    requires Within(lo, hi, d, n)
    ensures d >= 0.0
  {
  }

  lemma AverageWithin(lo: real, hi: real, num: real, den: real, v: real, max: real, epsilon: real)
    requires Within(lo, hi, den, num) && lo <= v <= hi && epsilon >= 0.0
    ensures den >= 0.0 && lo <= Average(v, num, den, max, epsilon) <= hi
  {
    hide Own, Times;
    var w := Own(max, epsilon);
    WithinTerm(lo, hi, w, v);
    WithinAdd(lo, hi, den, num, w, Times(w, v));
    WithinPositive(lo, hi, den, num);
    hide Within;
    BoundedQuotient(lo, hi, den + w, num + Times(w, v));
  }

  /** Each output lies between the smallest and the largest input of its diamond. */
  lemma Convex(t: Tile, log: seq<Visit>, img: seq<real>, p: nat, epsilon: real, lo: real, hi: real)
    requires t.width > 0 && |img| == t.Size() && LogOk(t, log) && Bounds(t, img, p, lo, hi) && epsilon >= 0.0
    ensures p < |img| && Den(log, p) >= 0.0
    ensures lo <= Average(img[p], Num(log, img, p), Den(log, p), Max(log, p), epsilon) <= hi
  {
    NumBounded(t, log, img, p, lo, hi);
    OwnBound(t, img, p, lo, hi);
    hide Average, Within, Num, Den, Max, Bounds;
    AverageWithin(lo, hi, Num(log, img, p), Den(log, p), img[p], Max(log, p), epsilon);
  }

  // ---------------------------------------------------------------- coverage

  function MarginLeft(nx: int): nat { if nx < 0 then -nx else 0 }
  function MarginRight(nx: int): nat { if nx > 0 then nx else 0 }

  /** The two inner loops come to row `y` and column `x`. */
  predicate InRegion(t: Tile, ny: int, nx: int, y: int, x: int) {
    -ny <= y < t.height && MarginLeft(nx) <= x < t.width - MarginRight(nx)
  }

  /** The two pixels of a visit. */
  lemma RegionPair(t: Tile, ny: int, nx: int, y: int, x: int)
    requires Half(t, ny, nx) && InRegion(t, ny, nx, y, x)
    ensures t.width > 0
    ensures var a, b := y * t.width + x, y * t.width + x + (ny * t.width + nx);
            && 0 <= a < t.Size() && 0 <= b < t.Size() && a != b && Pair(t, a, b)
            && RowOf(t, a) == y && ColOf(t, a) == x && RowOf(t, b) == y + ny && ColOf(t, b) == x + nx
  {
    Distribute(y, ny, t.width);
    CellAt(y, x, t.height, t.width);
    CellAt(y + ny, x + nx, t.height, t.width);
  }

  /** A pair at this offset is in the region, and its second pixel follows from the first. */
  lemma PairRegion(t: Tile, ny: int, nx: int, a: nat, b: nat)
    requires Pair(t, a, b) && RowOf(t, b) - RowOf(t, a) == ny && ColOf(t, b) - ColOf(t, a) == nx
    ensures InRegion(t, ny, nx, RowOf(t, a), ColOf(t, a)) && a == RowOf(t, a) * t.width + ColOf(t, a) && b == a + (ny * t.width + nx)
  {
    CellOf(a, t.height, t.width);
    CellOf(b, t.height, t.width);
    Distribute(RowOf(t, a), ny, t.width);
  }

  /** Two loop positions with no pair between them. */
  lemma CoverSame(t: Tile, log: seq<Visit>, ny: int, nx: int, y: int, x: int, ny': int, nx': int, y': int, x': int)
    requires t.width > 0 && Covered(t, log, ny, nx, y, x)
    requires forall a: nat, b: nat :: Pair(t, a, b) ==> (Past(t, a, b, ny, nx, y, x) <==> Past(t, a, b, ny', nx', y', x'))
    ensures Covered(t, log, ny', nx', y', x')
  {
    hide Pair, Past;
  }

  /** A visit brings the loops past its own pair and no other. */
  lemma PastStep(t: Tile, ny: int, nx: int, y: int, x: int, c: nat, d: nat)
    requires Half(t, ny, nx) && InRegion(t, ny, nx, y, x) && t.width > 0 && Pair(t, c, d)
    ensures var a := y * t.width + x;
            Past(t, c, d, ny, nx, y, x + 1) <==> Past(t, c, d, ny, nx, y, x) || (c == a && d == a + (ny * t.width + nx))
    ensures var a := y * t.width + x;
            c == a && d == a + (ny * t.width + nx) ==> !Past(t, c, d, ny, nx, y, x)
  {
    RegionPair(t, ny, nx, y, x);
    if RowOf(t, d) - RowOf(t, c) == ny && ColOf(t, d) - ColOf(t, c) == nx { PairRegion(t, ny, nx, c, d); }
    hide Pair, RowOf, ColOf, Half;
  }

  lemma CoverStep(t: Tile, log: seq<Visit>, img: seq<real>, ny: int, nx: int, y: int, x: int, w: real)
    requires Half(t, ny, nx) && InRegion(t, ny, nx, y, x) && t.width > 0 && Covered(t, log, ny, nx, y, x)
    requires LogOk(t, log) && w >= 0.0 && |img| == t.Size()
    ensures var a, b := y * t.width + x, y * t.width + x + (ny * t.width + nx);
            0 <= a && 0 <= b && Covered(t, log + [Visit(a, b, w)], ny, nx, y, x + 1) && LogOk(t, log + [Visit(a, b, w)])
  {
    RegionPair(t, ny, nx, y, x);
    var a, b := y * t.width + x, y * t.width + x + (ny * t.width + nx);
    hide Half, InRegion, RowOf, ColOf, Past, Tile.Size, Pair;
    forall c: nat, d: nat | Pair(t, c, d)
      ensures Past(t, c, d, ny, nx, y, x + 1) <==> Past(t, c, d, ny, nx, y, x) || (c == a && d == b)
      ensures c == a && d == b ==> !Past(t, c, d, ny, nx, y, x)
    {
      PastStep(t, ny, nx, y, x, c, d);
    }
    CoverOne(t, log, ny, nx, y, x, Visit(a, b, w));
  }

  lemma CoverOne(t: Tile, log: seq<Visit>, ny: int, nx: int, y: int, x: int, v: Visit)
    requires t.width > 0 && Covered(t, log, ny, nx, y, x) && LogOk(t, log) && v.w >= 0.0 && Pair(t, v.a, v.b)
    requires forall c: nat, d: nat :: Pair(t, c, d) ==>
               (Past(t, c, d, ny, nx, y, x + 1) <==> Past(t, c, d, ny, nx, y, x) || (c == v.a && d == v.b))
    requires !Past(t, v.a, v.b, ny, nx, y, x)
    ensures Covered(t, log + [v], ny, nx, y, x + 1) && LogOk(t, log + [v])
  {
    hide Past, Pairs, Pair;
    LogMore(t, log, v);
    PairsMore(log, v);
  }

  lemma LogMore(t: Tile, log: seq<Visit>, v: Visit)
    requires LogOk(t, log) && Pair(t, v.a, v.b) && v.w >= 0.0
    ensures LogOk(t, log + [v])
  {
    hide Pair;
  }

  lemma PairsMore(log: seq<Visit>, v: Visit)
    ensures Pairs(log + [v]) == Pairs(log) + multiset{(v.a, v.b)}
  {
    assert (log + [v])[..|log|] == log;
  }

  lemma OffsetStart(t: Tile, log: seq<Visit>, ny: int, nx: int)
    requires t.width > 0 && Covered(t, log, ny, nx, 0, 0)
    ensures Covered(t, log, ny, nx, -ny, MarginLeft(nx))
  {
    forall a: nat, b: nat | Pair(t, a, b)
      ensures Past(t, a, b, ny, nx, 0, 0) <==> Past(t, a, b, ny, nx, -ny, MarginLeft(nx))
    {
      if RowOf(t, b) - RowOf(t, a) == ny && ColOf(t, b) - ColOf(t, a) == nx { PairRegion(t, ny, nx, a, b); }
      CellOf(a, t.height, t.width);
      hide Pair, RowOf, ColOf;
    }
    CoverSame(t, log, ny, nx, 0, 0, ny, nx, -ny, MarginLeft(nx));
  }

  lemma RowEnd(t: Tile, log: seq<Visit>, ny: int, nx: int, y: int, x: int)
    requires t.width > 0 && Covered(t, log, ny, nx, y, x) && x >= t.width - MarginRight(nx)
    ensures Covered(t, log, ny, nx, y + 1, MarginLeft(nx))
  {
    forall a: nat, b: nat | Pair(t, a, b)
      ensures Past(t, a, b, ny, nx, y, x) <==> Past(t, a, b, ny, nx, y + 1, MarginLeft(nx))
    {
      if RowOf(t, b) - RowOf(t, a) == ny && ColOf(t, b) - ColOf(t, a) == nx { PairRegion(t, ny, nx, a, b); }
      hide Pair, RowOf, ColOf;
    }
    CoverSame(t, log, ny, nx, y, x, ny, nx, y + 1, MarginLeft(nx));
  }

  lemma OffsetEnd(t: Tile, log: seq<Visit>, ny: int, nx: int, y: int, x: int)
    requires t.width > 0 && Covered(t, log, ny, nx, y, x) && y >= t.height
    ensures Covered(t, log, ny, nx + 1, 0, 0)
  {
    forall a: nat, b: nat | Pair(t, a, b)
      ensures Past(t, a, b, ny, nx, y, x) <==> Past(t, a, b, ny, nx + 1, 0, 0)
    {
      if RowOf(t, b) - RowOf(t, a) == ny && ColOf(t, b) - ColOf(t, a) == nx { PairRegion(t, ny, nx, a, b); }
      CellOf(a, t.height, t.width);
      hide Pair, RowOf, ColOf;
    }
    CoverSame(t, log, ny, nx, y, x, ny, nx + 1, 0, 0);
  }

  /** The condition that ends the second loop leaves out no pair of the image, however wide the
      search is. */
  lemma OffsetsEnd(t: Tile, log: seq<Visit>, ny: int, nx: int)
    requires t.width > 0 && Covered(t, log, ny, nx, 0, 0) && ny <= 0 && (nx > ny + t.sr || ny * t.width + nx >= 0)
    ensures Covered(t, log, ny + 1, -(ny + 1 + t.sr), 0, 0)
  {
    forall a: nat, b: nat | Pair(t, a, b)
      ensures Past(t, a, b, ny, nx, 0, 0) <==> Past(t, a, b, ny + 1, -(ny + 1 + t.sr), 0, 0)
    {
      CellOf(a, t.height, t.width);
      CellOf(b, t.height, t.width);
      if ny < 0 { Smaller(1, -ny, t.width); assert -ny * t.width == -(ny * t.width); }
      hide RowOf, ColOf;
    }
    CoverSame(t, log, ny, nx, 0, 0, ny + 1, -(ny + 1 + t.sr), 0, 0);
  }

  lemma NothingVisited(t: Tile)
    requires t.width > 0
    ensures Covered(t, [], 0 - t.sr, 0, 0, 0)
  {
    forall a: nat, b: nat ensures !(Pair(t, a, b) && Past(t, a, b, 0 - t.sr, 0, 0, 0)) {
      if Pair(t, a, b) { CellOf(a, t.height, t.width); }
      hide RowOf, ColOf;
    }
  }

  lemma AllVisited(t: Tile, log: seq<Visit>, nx: int)
    requires t.width > 0 && Covered(t, log, 1, nx, 0, 0)
    ensures forall a: nat, b: nat :: Pairs(log)[(a, b)] == if Pair(t, a, b) then 1 else 0
  {
    hide RowOf, ColOf, Pairs;
  }

  // ---------------------------------------------------------------- weights

  function Sqr(d: real): real { Times(d, d) }

  /** What weights are made of: patch radius, half kernel, scale and exponential. */
  datatype Weights = Weights(pr: nat, kernel: seq<real>, cInv: real, exp: real -> real)

  /** Both windows of the patches around column `x` of row `y` and its partner are inside. */
  predicate PatchInside(t: Tile, ny: int, nx: int, y: int, x: int, pr: nat) {
    InRegion(t, ny, nx, y - pr, x - pr) && InRegion(t, ny, nx, y + pr, x + pr)
  }

  function Px(t: Tile, img: seq<real>, y: int, x: int): real
    requires |img| == t.Size() && 0 <= y < t.height && 0 <= x < t.width
  {
    CellAt(y, x, t.height, t.width);
    img[y * t.width + x]
  }

  /** Square distances of `n` pixels of a row, from column `x` on, to their partners. */
  function PatchRow(t: Tile, img: seq<real>, ny: int, nx: int, y: int, x: int, n: nat): real
    requires |img| == t.Size() && ny <= 0 && InRegion(t, ny, nx, y, x) && (n > 0 ==> InRegion(t, ny, nx, y, x + n - 1))
  {
    if n == 0 then 0.0
    else PatchRow(t, img, ny, nx, y, x, n - 1) + Sqr(Px(t, img, y, x + n - 1) - Px(t, img, y + ny, x + n - 1 + nx))
  }

  /** The distance of two patches: `rows` rows of `n` pixels, from (y, x) on. */
  function Patch(t: Tile, img: seq<real>, ny: int, nx: int, y: int, x: int, rows: nat, n: nat): real
    requires |img| == t.Size() && ny <= 0 && n > 0 && InRegion(t, ny, nx, y, x) && (rows > 0 ==> InRegion(t, ny, nx, y + rows - 1, x + n - 1))
  {
    if rows == 0 then 0.0
    else Patch(t, img, ny, nx, y, x, rows - 1, n) + PatchRow(t, img, ny, nx, y + rows - 1, x, n)
  }

  /** The weight of two pixels: the spatial kernel and the likeness of their patches. */
  function WeightOf(t: Tile, img: seq<real>, wt: Weights, ny: int, nx: int, y: int, x: int): real
    requires |img| == t.Size() && ny <= 0 && -ny < |wt.kernel| && Abs(nx) < |wt.kernel| && PatchInside(t, ny, nx, y, x, wt.pr)
  {
    Times(Times(wt.kernel[-ny], wt.kernel[Abs(nx)]),
          wt.exp(Times(Patch(t, img, ny, nx, y - wt.pr, x - wt.pr, 2 * wt.pr + 1, 2 * wt.pr + 1), wt.cInv)))
  }

  /** The offsets that the two outer loops come to. */
  predicate Visited(t: Tile, ny: int, nx: int) {
    t.width > 0 && 0 - t.sr <= ny <= 0 && -(ny + t.sr) <= nx <= ny + t.sr && ny * t.width + nx < 0
  }

  /** The last of them in a row of offsets. */
  function LastOf(t: Tile, ny: int): int {
    if ny + t.sr < -(ny * t.width) then ny + t.sr else -(ny * t.width) - 1
  }

  lemma LastVisited(t: Tile, ny: int)
    requires t.width > 0 && 0 - t.sr <= ny < 0
    ensures Visited(t, ny, LastOf(t, ny))
  {
    Smaller(1, -ny, t.width);
    assert -ny * t.width == -(ny * t.width);
  }

  /** All offsets before this one have been visited. */
  predicate UpTo(t: Tile, ny: int, nx: int) {
    t.width > 0 && 0 - t.sr <= ny <= 0 && -(ny + t.sr) <= nx && (nx > -(ny + t.sr) ==> Visited(t, ny, nx - 1))
  }

  /** The buffer of square distances as an offset finds it: what its predecessor left. */
  function UiBefore(t: Tile, img: seq<real>, ny: int, nx: int): (ui: seq<real>)
    requires UpTo(t, ny, nx) && |img| == t.Size()
    ensures |ui| == t.Size()
    decreases ny + t.sr, nx + ny + t.sr, 0
  {
    if nx > -(ny + t.sr) then UiAfter(t, img, ny, nx - 1)
    else if ny > 0 - t.sr then
      LastVisited(t, ny - 1);
      UiAfter(t, img, ny - 1, LastOf(t, ny - 1))
    else seq(t.Size(), _ => 0.0)
  }

  /** And as it leaves it: square distances where it has pairs, leftovers elsewhere. */
  function UiAfter(t: Tile, img: seq<real>, ny: int, nx: int): (ui: seq<real>)
    requires Visited(t, ny, nx) && |img| == t.Size()
    ensures |ui| == t.Size()
    decreases ny + t.sr, nx + ny + t.sr, 1
  {
    HalfHere(t, ny, nx);
    var before := UiBefore(t, img, ny, nx);
    seq(t.Size(), m requires 0 <= m < t.Size() => SquareAt(t, img, before, ny, nx, m))
  }

  predicate Fits(t: Tile, pr: nat) { 2 * pr + 1 <= t.width && 2 * pr + 1 <= t.height }

  /** What the box sums hold for a pixel: the sum of its window, and 0 near the border. */
  function Spread(t: Tile, img: seq<real>, ny: int, nx: int, pr: nat, m: nat): real
    requires Visited(t, ny, nx) && |img| == t.Size() && Fits(t, pr) && m < t.Size()
  {
    BoxSummed(UiAfter(t, img, ny, nx), seq(t.Size(), _ => 0.0), t.width, t.height, pr, pr, m)
  }

  /** A visit's weight: the spatial kernel and the exponential of what the box sums hold. */
  ghost predicate WeightIs(t: Tile, img: seq<real>, wt: Weights, v: Visit)
    requires t.width > 0
  {
    var ny, nx := RowOf(t, v.b) - RowOf(t, v.a), ColOf(t, v.b) - ColOf(t, v.a);
    && Visited(t, ny, nx) && |img| == t.Size() && Fits(t, wt.pr) && v.a < t.Size() && -ny < |wt.kernel| && Abs(nx) < |wt.kernel|
    && v.w == Times(Times(wt.kernel[-ny], wt.kernel[Abs(nx)]), wt.exp(Times(Spread(t, img, ny, nx, wt.pr, v.a), wt.cInv)))
  }

  /** The buffer of box sums when the weights are taken from it. */
  ghost predicate VIs(t: Tile, img: seq<real>, v: seq<real>, ny: int, nx: int, pr: nat) {
    && Visited(t, ny, nx) && Fits(t, pr) && |img| == |v| == t.Size()
    && forall m :: 0 <= m < |v| ==> v[m] == Spread(t, img, ny, nx, pr, m)
  }

  /** The rows at the top and the bottom of that buffer are never written. */
  ghost predicate BorderZero(t: Tile, v: seq<real>, pr: nat)
    requires t.width > 0
  {
    forall m :: 0 <= m < |v| && !(pr <= RowOf(t, m) < t.height - pr) ==> v[m] == 0.0
  }

  ghost predicate Weighed(t: Tile, img: seq<real>, wt: Weights, log: seq<Visit>)
    requires t.width > 0
  {
    forall k :: 0 <= k < |log| ==> WeightIs(t, img, wt, log[k])
  }

  /** The buffer of patch distances holds them wherever the patches lie inside. */
  ghost predicate PatchesIn(t: Tile, img: seq<real>, v: seq<real>, ny: int, nx: int, pr: nat)
    requires |img| == |v| == t.Size() && ny <= 0
  {
    forall y, x :: PatchInside(t, ny, nx, y, x, pr) ==> PatchIs(t, img, v, ny, nx, y, x, pr)
  }

  ghost predicate PatchIs(t: Tile, img: seq<real>, v: seq<real>, ny: int, nx: int, y: int, x: int, pr: nat)
    requires |img| == |v| == t.Size() && ny <= 0 && PatchInside(t, ny, nx, y, x, pr)
  {
    Px(t, v, y, x) == Patch(t, img, ny, nx, y - pr, x - pr, 2 * pr + 1, 2 * pr + 1)
  }

  // ---------------------------------------------------------------- the loops

  /** The accumulators of nlm_mono_tile. */
  class Sums {
    const obuf: array<real>
    const wSum: array<real>
    const wMax: array<real>

    constructor (n: nat)
      ensures obuf.Length == wSum.Length == wMax.Length == n && Apart()
      ensures fresh(obuf) && fresh(wSum) && fresh(wMax)
      ensures forall p :: 0 <= p < n ==> obuf[p] == 0.0 && wSum[p] == 0.0 && wMax[p] == 0.0
    {
      obuf := new real[n](_ => 0.0);
      wSum := new real[n](_ => 0.0);
      wMax := new real[n](_ => 0.0);
    }

    ghost predicate Apart() { obuf != wSum && obuf != wMax && wSum != wMax }

    ghost predicate Are(t: Tile, log: seq<Visit>, img: seq<real>)
      reads obuf, wSum, wMax
    {
      Summed(t, log, img, obuf[..], wSum[..], wMax[..])
    }

    /** The update of two pixels. */
    method Add(t: Tile, ibuf: array<real>, a: nat, b: nat, w: real, ghost log: seq<Visit>)
      requires Apart() && ibuf != obuf && ibuf != wSum && ibuf != wMax
      requires Are(t, log, ibuf[..]) && Pair(t, a, b) && w >= 0.0 && t.width > 0
      modifies obuf, wSum, wMax
      ensures Are(t, log + [Visit(a, b, w)], ibuf[..])
    {
      PairNear(t, a, b);
      SizesAre(t, log, ibuf[..], obuf[..], wSum[..], wMax[..]);
      ghost var v := Visit(a, b, w);
      ghost var o, s, m := obuf[..], wSum[..], wMax[..];
      SummedStep(t, log, v, ibuf[..], o, s, m);
      hide Pair, Summed, Times, Tile.Size;
      obuf[a] := obuf[a] + Times(w, ibuf[b]);
      obuf[b] := obuf[b] + Times(w, ibuf[a]);
      assert obuf[..] == o[a := o[a] + Times(w, ibuf[..][b])][b := o[b] + Times(w, ibuf[..][a])];
      wSum[a] := wSum[a] + w;
      wSum[b] := wSum[b] + w;
      assert wSum[..] == s[a := s[a] + w][b := s[b] + w];
      if w > wMax[a] { wMax[a] := w; }
      if w > wMax[b] { wMax[b] := w; }
      assert wMax[..] == m[a := if w > m[a] then w else m[a]][b := if w > m[b] then w else m[b]];
    }
  }

  lemma SizesAre(t: Tile, log: seq<Visit>, img: seq<real>, o: seq<real>, s: seq<real>, m: seq<real>)
    requires Summed(t, log, img, o, s, m)
    ensures |img| == |o| == |s| == |m| == t.Size()
  {
  }

  /** Updating the two pixels of a visit in each buffer extends the log. */
  lemma SummedStep(t: Tile, log: seq<Visit>, v: Visit, img: seq<real>, o: seq<real>, s: seq<real>, m: seq<real>)
    requires Summed(t, log, img, o, s, m) && Pair(t, v.a, v.b) && v.w >= 0.0
    requires v.a < |img| == |o| == |s| == |m| == t.Size() && v.b < |img| && v.a != v.b
    ensures Summed(t, log + [v], img, o[v.a := o[v.a] + Times(v.w, img[v.b])][v.b := o[v.b] + Times(v.w, img[v.a])],
                   s[v.a := s[v.a] + v.w][v.b := s[v.b] + v.w],
                   m[v.a := if v.w > m[v.a] then v.w else m[v.a]][v.b := if v.w > m[v.b] then v.w else m[v.b]])
  {
    LogInside(t, log);
    assert LogOk(t, log + [v]);
    LogInside(t, log + [v]);
    hide Pair, Times, Tile.Size, LogOk;
    forall p | 0 <= p < |img|
      ensures Num(log + [v], img, p) == o[v.a := o[v.a] + Times(v.w, img[v.b])][v.b := o[v.b] + Times(v.w, img[v.a])][p]
      ensures Den(log + [v], p) == s[v.a := s[v.a] + v.w][v.b := s[v.b] + v.w][p]
      ensures Max(log + [v], p) == m[v.a := if v.w > m[v.a] then v.w else m[v.a]][v.b := if v.w > m[v.b] then v.w else m[v.b]][p]
    {
      Append(log, v, img, p);
      hide Num, Den, Max;
    }
    hide Num, Den, Max;
  }

  lemma LogInside(t: Tile, log: seq<Visit>)
    requires LogOk(t, log)
    ensures forall k :: 0 <= k < |log| ==> log[k].a < t.Size() && log[k].b < t.Size()
  {
    forall k | 0 <= k < |log| ensures log[k].a < t.Size() && log[k].b < t.Size() {
      PairNear(t, log[k].a, log[k].b);
    }
  }

  /** Everything the accumulators and the log have to do with each other. */
  ghost predicate Going(t: Tile, sums: Sums, ibuf: array<real>, wt: Weights, log: seq<Visit>, ny: int, nx: int, y: int, x: int)
    reads sums.obuf, sums.wSum, sums.wMax, ibuf
  {
    && t.width > 0 && sums.Are(t, log, ibuf[..]) && LogOk(t, log) && Covered(t, log, ny, nx, y, x)
    && Weighed(t, ibuf[..], wt, log)
  }

  /** The ingredients of the weights are not negative, and the kernel reaches far enough. */
  ghost predicate WeightsOk(t: Tile, wt: Weights) {
    |wt.kernel| > t.sr && (forall i :: 0 <= i < |wt.kernel| ==> wt.kernel[i] >= 0.0) && forall r :: wt.exp(r) >= 0.0
  }

  /** The second pass over an offset: each pair of pixels updates both. */
  method VisitOffset(t: Tile, sums: Sums, ibuf: array<real>, v: array<real>, ny: int, nx: int, f: real, wt: Weights, ghost log0: seq<Visit>)
    returns (ghost log: seq<Visit>)
    requires sums.Apart() && ibuf != sums.obuf && ibuf != sums.wSum && ibuf != sums.wMax
    requires v != sums.obuf && v != sums.wSum && v != sums.wMax && v.Length == ibuf.Length == t.Size()
    requires Half(t, ny, nx) && WeightsOk(t, wt) && Abs(nx) <= t.sr && 0 <= -ny <= t.sr && f == Times(wt.kernel[-ny], wt.kernel[Abs(nx)])
    requires VIs(t, ibuf[..], v[..], ny, nx, wt.pr) && Going(t, sums, ibuf, wt, log0, ny, nx, 0, 0)
    modifies sums.obuf, sums.wSum, sums.wMax
    ensures Going(t, sums, ibuf, wt, log, ny, nx + 1, 0, 0)
  {
    hide Summed, LogOk, Covered, Pair, Half, Tile.Size, Weighed, VIs, Times;
    log := log0;
    OffsetStart(t, log, ny, nx);
    HalfNegative(t, ny, nx);
    var nOffset := ny * t.width + nx;
    var y := -ny;
    while y < t.height
      invariant -ny <= y && Going(t, sums, ibuf, wt, log, ny, nx, y, MarginLeft(nx))
    {
      var x0, x: int := y * t.width, MarginLeft(nx);
      while x < t.width - MarginRight(nx)
        invariant MarginLeft(nx) <= x && Going(t, sums, ibuf, wt, log, ny, nx, y, x)
      {
        log := VisitPixel(t, sums, ibuf, v, ny, nx, y, x, x0 + x, x0 + x + nOffset, f, wt, log);
        x := x + 1;
      }
      RowEnd(t, log, ny, nx, y, x);
      y := y + 1;
    }
    OffsetEnd(t, log, ny, nx, y, MarginLeft(nx));
  }

  lemma HalfNegative(t: Tile, ny: int, nx: int)
    requires Half(t, ny, nx)
    ensures ny <= 0
  {
  }

  method VisitPixel(t: Tile, sums: Sums, ibuf: array<real>, v: array<real>, ny: int, nx: int, y: int, x: int, pos0: int, pos1: int,
                    f: real, wt: Weights, ghost log0: seq<Visit>) returns (ghost log: seq<Visit>)
    requires sums.Apart() && ibuf != sums.obuf && ibuf != sums.wSum && ibuf != sums.wMax
    requires v != sums.obuf && v != sums.wSum && v != sums.wMax && v.Length == ibuf.Length == t.Size()
    requires Half(t, ny, nx) && WeightsOk(t, wt) && Abs(nx) <= t.sr && 0 <= -ny <= t.sr && f == Times(wt.kernel[-ny], wt.kernel[Abs(nx)])
    requires InRegion(t, ny, nx, y, x) && VIs(t, ibuf[..], v[..], ny, nx, wt.pr)
    requires Going(t, sums, ibuf, wt, log0, ny, nx, y, x)
    requires t.width > 0 ==> pos0 == y * t.width + x && pos1 == pos0 + (ny * t.width + nx)
    modifies sums.obuf, sums.wSum, sums.wMax
    ensures Going(t, sums, ibuf, wt, log, ny, nx, y, x + 1)
  {
    hide Summed, LogOk, Covered, Pair, Half, Tile.Size, InRegion, Weighed, VIs, Times;
    RegionPair(t, ny, nx, y, x);
    var w := Times(f, wt.exp(Times(v[pos0], wt.cInv)));
    VisitWeighed(t, ibuf[..], v[..], wt, log0, ny, nx, y, x, pos0, pos1, w);
    CoverStep(t, log0, ibuf[..], ny, nx, y, x, w);
    sums.Add(t, ibuf, pos0, pos1, w, log0);
    log := log0 + [Visit(pos0, pos1, w)];
  }

  /** The new visit has its weight. */
  lemma VisitWeighed(t: Tile, img: seq<real>, v: seq<real>, wt: Weights, log: seq<Visit>, ny: int, nx: int, y: int, x: int, a: nat, b: nat, w: real)
    requires t.width > 0 && |img| == |v| == t.Size() && Half(t, ny, nx) && InRegion(t, ny, nx, y, x) && Weighed(t, img, wt, log)
    requires a == y * t.width + x < |v| && b == a + (ny * t.width + nx) && ny <= 0 && VIs(t, img, v, ny, nx, wt.pr)
    requires -ny < |wt.kernel| && Abs(nx) < |wt.kernel|
    requires w == Times(Times(wt.kernel[-ny], wt.kernel[Abs(nx)]), wt.exp(Times(v[a], wt.cInv)))
    ensures Weighed(t, img, wt, log + [Visit(a, b, w)])
  {
    RegionPair(t, ny, nx, y, x);
    hide RowOf, ColOf, Times, Half, Tile.Size, Pair, Spread, Visited;
    assert WeightIs(t, img, wt, Visit(a, b, w));
    hide VIs, WeightIs;
  }

  /** Where both patches lie inside the tile that is the likeness of the patches. */
  lemma PatchWeight(t: Tile, img: seq<real>, wt: Weights, v: Visit)
    requires t.width > 0 && Pair(t, v.a, v.b) && WeightIs(t, img, wt, v)
    requires PatchInside(t, RowOf(t, v.b) - RowOf(t, v.a), ColOf(t, v.b) - ColOf(t, v.a), RowOf(t, v.a), ColOf(t, v.a), wt.pr)
    ensures v.w == WeightOf(t, img, wt, RowOf(t, v.b) - RowOf(t, v.a), ColOf(t, v.b) - ColOf(t, v.a), RowOf(t, v.a), ColOf(t, v.a))
  {
    var ny, nx := RowOf(t, v.b) - RowOf(t, v.a), ColOf(t, v.b) - ColOf(t, v.a);
    PairRegion(t, ny, nx, v.a, v.b);
    SpreadInside(t, img, ny, nx, wt.pr, v.a);
    hide *;
  }

  lemma SpreadInside(t: Tile, img: seq<real>, ny: int, nx: int, pr: nat, m: nat)
    requires Visited(t, ny, nx) && |img| == t.Size() && Fits(t, pr) && m < t.Size() && PatchInside(t, ny, nx, RowOf(t, m), ColOf(t, m), pr)
    ensures Spread(t, img, ny, nx, pr, m) ==
            Patch(t, img, ny, nx, RowOf(t, m) - pr, ColOf(t, m) - pr, 2 * pr + 1, 2 * pr + 1)
  {
    HalfHere(t, ny, nx);
    CellOf(m, t.height, t.width);
    hide SquareAt, BoxSummed, Half, Patch;
    var zero := seq(t.Size(), _ => 0.0);
    var before, ui := UiBefore(t, img, ny, nx), UiAfter(t, img, ny, nx);
    var v := seq(t.Size(), m requires 0 <= m < t.Size() => Spread(t, img, ny, nx, pr, m));
    PatchesFrom(t, img, before, ui, zero, v, ny, nx, pr);
    assert PatchIs(t, img, v, ny, nx, RowOf(t, m), ColOf(t, m), pr);
  }

  // ---------------------------------------------------------------- square distances

  /** The buffer of square distances after the first pass over an offset. */
  function SquareAt(t: Tile, img: seq<real>, before: seq<real>, ny: int, nx: int, m: nat): real
    requires Half(t, ny, nx) && |img| == |before| == t.Size() && m < |before| && t.width > 0
  {
    CellOf(m, t.height, t.width);
    if InRegion(t, ny, nx, RowOf(t, m), ColOf(t, m)) then
      RegionPair(t, ny, nx, RowOf(t, m), ColOf(t, m));
      Sqr(img[m] - img[m + (ny * t.width + nx)])
    else before[m]
  }

  ghost predicate SquaredTo(t: Tile, img: seq<real>, before: seq<real>, now: seq<real>, ny: int, nx: int, y: int, x: int)
    requires Half(t, ny, nx) && |img| == |before| == t.Size() && t.width > 0
  {
    |now| == |before| && forall m :: 0 <= m < |now| ==>
      now[m] == if RowOf(t, m) < y || (RowOf(t, m) == y && ColOf(t, m) < x) then SquareAt(t, img, before, ny, nx, m) else before[m]
  }

  lemma SquareStep(t: Tile, img: seq<real>, before: seq<real>, now: seq<real>, ny: int, nx: int, y: int, x: int)
    requires Half(t, ny, nx) && |img| == |before| == t.Size() && t.width > 0 && InRegion(t, ny, nx, y, x)
    requires SquaredTo(t, img, before, now, ny, nx, y, x)
    ensures var m, b := y * t.width + x, y * t.width + x + (ny * t.width + nx);
            && 0 <= m < |now| && 0 <= b < |img|
            && SquaredTo(t, img, before, now[m := Sqr(img[m] - img[b])], ny, nx, y, x + 1)
  {
    RegionPair(t, ny, nx, y, x);
    var m, b := y * t.width + x, y * t.width + x + (ny * t.width + nx);
    var after := now[m := Sqr(img[m] - img[b])];
    forall k | 0 <= k < |now|
      ensures after[k] == if RowOf(t, k) < y || (RowOf(t, k) == y && ColOf(t, k) < x + 1) then SquareAt(t, img, before, ny, nx, k) else before[k]
    {
      SameCell(t, k, m);
      hide RowOf, ColOf, Sqr, Tile.Size, Half;
    }
  }

  lemma SquareSkip(t: Tile, img: seq<real>, before: seq<real>, now: seq<real>, ny: int, nx: int, y: int, x: int, y': int, x': int)
    requires Half(t, ny, nx) && |img| == |before| == t.Size() && t.width > 0 && SquaredTo(t, img, before, now, ny, nx, y, x)
    requires forall m: nat :: m < t.Size() && InRegion(t, ny, nx, RowOf(t, m), ColOf(t, m)) ==>
               (RowOf(t, m) < y || (RowOf(t, m) == y && ColOf(t, m) < x) <==> RowOf(t, m) < y' || (RowOf(t, m) == y' && ColOf(t, m) < x'))
    ensures SquaredTo(t, img, before, now, ny, nx, y', x')
  {
    hide RowOf, ColOf, InRegion;
  }

  /** The first pass over an offset. */
  method SquareDistances(t: Tile, ibuf: array<real>, ui: array<real>, ny: int, nx: int)
    requires Half(t, ny, nx) && ibuf != ui && ibuf.Length == ui.Length == t.Size() && t.width > 0
    modifies ui
    ensures forall m :: 0 <= m < ui.Length ==> ui[m] == SquareAt(t, ibuf[..], old(ui[..]), ny, nx, m)
  {
    hide SquaredTo, SquareAt, Half, Tile.Size, RowOf, ColOf, Sqr;
    ghost var img, before := ibuf[..], ui[..];
    HalfNegative(t, ny, nx);
    NoSquares(t, img, before, ny, nx);
    var nOffset := ny * t.width + nx;
    var y := -ny;
    while y < t.height
      invariant -ny <= y && SquaredTo(t, img, before, ui[..], ny, nx, y, MarginLeft(nx))
    {
      var x0, x: int := y * t.width, MarginLeft(nx);
      while x < t.width - MarginRight(nx)
        invariant MarginLeft(nx) <= x && SquaredTo(t, img, before, ui[..], ny, nx, y, x)
      {
        ghost var was := ui[..];
        SquareStep(t, img, before, was, ny, nx, y, x);
        SquareSize(t, img, before, was, ny, nx, y, x);
        ui[x0 + x] := Sqr(ibuf[x0 + x] - ibuf[x0 + x + nOffset]);
        assert ui[..] == was[x0 + x := Sqr(img[x0 + x] - img[x0 + x + nOffset])];
        x := x + 1;
      }
      SquareSkip(t, img, before, ui[..], ny, nx, y, x, y + 1, MarginLeft(nx));
      y := y + 1;
    }
    AllSquares(t, img, before, ui[..], ny, nx, y, MarginLeft(nx));
  }

  lemma SquareSize(t: Tile, img: seq<real>, before: seq<real>, now: seq<real>, ny: int, nx: int, y: int, x: int)
    requires Half(t, ny, nx) && |img| == |before| == t.Size() && t.width > 0 && SquaredTo(t, img, before, now, ny, nx, y, x)
    ensures |now| == |before|
  {
  }

  lemma NoSquares(t: Tile, img: seq<real>, before: seq<real>, ny: int, nx: int)
    requires Half(t, ny, nx) && |img| == |before| == t.Size() && t.width > 0
    ensures SquaredTo(t, img, before, before, ny, nx, -ny, MarginLeft(nx))
  {
    hide RowOf, ColOf;
  }

  lemma AllSquares(t: Tile, img: seq<real>, before: seq<real>, now: seq<real>, ny: int, nx: int, y: int, x: int)
    requires Half(t, ny, nx) && |img| == |before| == t.Size() && t.width > 0 && SquaredTo(t, img, before, now, ny, nx, y, x) && y >= t.height
    ensures |now| == |before| && forall m :: 0 <= m < |now| ==> now[m] == SquareAt(t, img, before, ny, nx, m)
  {
    forall m | 0 <= m < |now| ensures now[m] == SquareAt(t, img, before, ny, nx, m) {
      CellOf(m, t.height, t.width);
      hide ColOf, SquareAt;
    }
  }

  lemma CellSquare(t: Tile, img: seq<real>, before: seq<real>, ny: int, nx: int, y: int, x: int)
    requires Half(t, ny, nx) && |img| == |before| == t.Size() && t.width > 0 && InRegion(t, ny, nx, y, x)
    ensures 0 <= y * t.width + x < t.Size()
    ensures SquareAt(t, img, before, ny, nx, y * t.width + x) == Sqr(Px(t, img, y, x) - Px(t, img, y + ny, x + nx))
  {
    RegionPair(t, ny, nx, y, x);
    Distribute(y, ny, t.width);
    hide Sqr, RowOf, ColOf;
  }

  /** The box sum of the square distances is the distance of the patches. */
  lemma {:induction false} RowOfSquares(t: Tile, img: seq<real>, before: seq<real>, ui: seq<real>, ny: int, nx: int, y: int, x: int, n: nat)
    requires Half(t, ny, nx) && |img| == |before| == |ui| == t.Size() && t.width > 0
    requires forall m :: 0 <= m < |ui| ==> ui[m] == SquareAt(t, img, before, ny, nx, m)
    requires InRegion(t, ny, nx, y, x) && (n > 0 ==> InRegion(t, ny, nx, y, x + n - 1))
    ensures 0 <= y * t.width + x && y * t.width + x + n <= |ui|
    ensures ny <= 0 && Sum(ui, y * t.width + x, n) == PatchRow(t, img, ny, nx, y, x, n)
    decreases n
  {
    CellAt(y, x, t.height, t.width);
    if n > 0 {
      if n > 1 { RowOfSquares(t, img, before, ui, ny, nx, y, x, n - 1); }
      CellSquare(t, img, before, ny, nx, y, x + n - 1);
      hide SquareAt, Sqr, Half, Px;
      assert Sum(ui, y * t.width + x, n - 1) == PatchRow(t, img, ny, nx, y, x, n - 1);
    }
  }

  lemma {:induction false} BlockOfSquares(t: Tile, img: seq<real>, before: seq<real>, ui: seq<real>, ny: int, nx: int, y: int, x: int, rows: nat, pr: nat)
    requires Half(t, ny, nx) && |img| == |before| == |ui| == t.Size() && t.width > 0
    requires forall m :: 0 <= m < |ui| ==> ui[m] == SquareAt(t, img, before, ny, nx, m)
    requires InRegion(t, ny, nx, y, x - pr) && InRegion(t, ny, nx, y, x + pr) && (rows > 0 ==> y + rows - 1 < t.height)
    ensures Box(t.width, t.height, pr).Ok(ui) && pr <= x < t.width - pr && 0 <= y && y + rows <= t.height && ny <= 0
    ensures Block(Box(t.width, t.height, pr), ui, x, y, rows) == Patch(t, img, ny, nx, y, x - pr, rows, 2 * pr + 1)
    decreases rows
  {
    SizeOk(t);
    HalfNegative(t, ny, nx);
    if rows > 0 {
      BlockOfSquares(t, img, before, ui, ny, nx, y, x, rows - 1, pr);
      RowOfSquares(t, img, before, ui, ny, nx, y + rows - 1, x - pr, 2 * pr + 1);
    }
  }

  lemma PatchesFrom(t: Tile, img: seq<real>, before: seq<real>, ui: seq<real>, prior: seq<real>, v: seq<real>, ny: int, nx: int, pr: nat)
    requires Half(t, ny, nx) && |img| == |before| == |ui| == |prior| == |v| == t.Size() && t.width > 0 && 2 * pr + 1 <= t.height
    requires Box(t.width, t.height, pr).Ok(ui) && |prior| == t.height * t.width && ny <= 0
    requires forall m :: 0 <= m < |ui| ==> ui[m] == SquareAt(t, img, before, ny, nx, m)
    requires forall m :: 0 <= m < |v| ==> v[m] == BoxSummed(ui, prior, t.width, t.height, pr, pr, m)
    ensures PatchesIn(t, img, v, ny, nx, pr)
  {
    forall y, x | PatchInside(t, ny, nx, y, x, pr) ensures PatchIs(t, img, v, ny, nx, y, x, pr) {
      BlockOfSquares(t, img, before, ui, ny, nx, y - pr, x, 2 * pr + 1, pr);
      InnerCell(t, ui, prior, ny, nx, y, x, pr);
      hide SquareAt, Block, Patch, Half, BoxSummed, Tile.Size;
    }
  }

  lemma InnerCell(t: Tile, ui: seq<real>, prior: seq<real>, ny: int, nx: int, y: int, x: int, pr: nat)
    requires t.width > 0 && Box(t.width, t.height, pr).Ok(ui) && |prior| == t.height * t.width && 2 * pr + 1 <= t.height && ny <= 0
    requires PatchInside(t, ny, nx, y, x, pr)
    ensures 0 <= y * t.width + x < t.Size() && pr <= x < t.width - pr && 0 <= y - pr && y + pr < t.height
    ensures BoxSummed(ui, prior, t.width, t.height, pr, pr, y * t.width + x) == Block(Box(t.width, t.height, pr), ui, x, y - pr, 2 * pr + 1)
  {
    CellAt(y, x, t.height, t.width);
    hide Block;
  }

  // ---------------------------------------------------------------- the filter

  function AbsReal(r: real): real { if r < 0.0 then -r else r }

  /** All offsets: each pair of pixels of the image is visited once. */
  method VisitAll(t: Tile, sums: Sums, ibuf: array<real>, wt: Weights) returns (ghost log: seq<Visit>)
    requires sums.Apart() && ibuf != sums.obuf && ibuf != sums.wSum && ibuf != sums.wMax && ibuf.Length == t.Size()
    requires 2 * wt.pr + 1 <= t.width && 2 * wt.pr + 1 <= t.height && WeightsOk(t, wt)
    requires sums.obuf.Length == sums.wSum.Length == sums.wMax.Length == t.Size()
    requires forall p :: 0 <= p < t.Size() ==> sums.obuf[p] == 0.0 && sums.wSum[p] == 0.0 && sums.wMax[p] == 0.0
    modifies sums.obuf, sums.wSum, sums.wMax
    ensures sums.Are(t, log, ibuf[..]) && LogOk(t, log) && Weighed(t, ibuf[..], wt, log)
    ensures forall a: nat, b: nat :: Pairs(log)[(a, b)] == if Pair(t, a, b) then 1 else 0
  {
    log := [];
    Start(t, sums, ibuf, wt);
    hide Covered, Pair, Half, Tile.Size, Times, SquareAt, BoxSummed, Pairs, Weighed, Summed, LogOk, BorderZero, UiIsBefore, Going;
    var v := new real[ibuf.Length](_ => 0.0);
    var ui := new real[ibuf.Length](_ => 0.0);
    NothingYet(t, ibuf[..], ui[..], v[..], wt.pr);
    log := OffsetRows(t, sums, ibuf, v, ui, wt, log);
  }

  /** All rows of offsets. */
  method OffsetRows(t: Tile, sums: Sums, ibuf: array<real>, v: array<real>, ui: array<real>, wt: Weights, ghost log0: seq<Visit>)
    returns (ghost log: seq<Visit>)
    requires sums.Apart() && ibuf != sums.obuf && ibuf != sums.wSum && ibuf != sums.wMax && ibuf.Length == v.Length == ui.Length == t.Size()
    requires v != sums.obuf && v != sums.wSum && v != sums.wMax && v != ibuf
    requires ui != sums.obuf && ui != sums.wSum && ui != sums.wMax && ui != ibuf && ui != v
    requires 2 * wt.pr + 1 <= t.width && 2 * wt.pr + 1 <= t.height
    requires WeightsOk(t, wt) && Going(t, sums, ibuf, wt, log0, 0 - t.sr, 0, 0, 0)
    requires BorderZero(t, v[..], wt.pr) && UiIsBefore(t, ibuf[..], ui[..], 0 - t.sr, 0)
    modifies sums.obuf, sums.wSum, sums.wMax, v, ui
    ensures sums.Are(t, log, ibuf[..]) && LogOk(t, log) && Weighed(t, ibuf[..], wt, log)
    ensures forall a: nat, b: nat :: Pairs(log)[(a, b)] == if Pair(t, a, b) then 1 else 0
  {
    hide *;
    log := log0;
    ghost var img := ibuf[..];
    var ny: int := 0 - t.sr;
    while ny <= 0
      invariant 0 - t.sr <= ny <= 1 && Going(t, sums, ibuf, wt, log, ny, -(ny + t.sr), 0, 0)
      invariant BorderZero(t, v[..], wt.pr) && (ny <= 0 ==> UiIsBefore(t, img, ui[..], ny, -(ny + t.sr)))
    {
      log := OffsetRow(t, sums, ibuf, v, ui, wt, ny, log);
      ny := ny + 1;
    }
    EndOf(t, sums, ibuf, wt, log, -(ny + t.sr));
  }

  lemma Start(t: Tile, sums: Sums, ibuf: array<real>, wt: Weights)
    requires t.width > 0 && ibuf.Length == sums.obuf.Length == sums.wSum.Length == sums.wMax.Length == t.Size()
    requires forall p :: 0 <= p < t.Size() ==> sums.obuf[p] == 0.0 && sums.wSum[p] == 0.0 && sums.wMax[p] == 0.0
    ensures Going(t, sums, ibuf, wt, [], 0 - t.sr, 0, 0, 0)
  {
    NothingVisited(t);
    hide Covered, Tile.Size;
  }

  lemma EndOf(t: Tile, sums: Sums, ibuf: array<real>, wt: Weights, log: seq<Visit>, nx: int)
    requires Going(t, sums, ibuf, wt, log, 1, nx, 0, 0)
    ensures sums.Are(t, log, ibuf[..]) && LogOk(t, log) && t.width > 0 && Weighed(t, ibuf[..], wt, log)
    ensures forall a: nat, b: nat :: Pairs(log)[(a, b)] == if Pair(t, a, b) then 1 else 0
  {
    hide Covered, Pair, Summed, LogOk, Weighed;
    AllVisited(t, log, nx);
  }

  /** A row of offsets. */
  method OffsetRow(t: Tile, sums: Sums, ibuf: array<real>, v: array<real>, ui: array<real>, wt: Weights, ny: int, ghost log0: seq<Visit>)
    returns (ghost log: seq<Visit>)
    requires sums.Apart() && ibuf != sums.obuf && ibuf != sums.wSum && ibuf != sums.wMax && ibuf.Length == v.Length == ui.Length == t.Size()
    requires v != sums.obuf && v != sums.wSum && v != sums.wMax && v != ibuf
    requires ui != sums.obuf && ui != sums.wSum && ui != sums.wMax && ui != ibuf && ui != v
    requires 2 * wt.pr + 1 <= t.width && 2 * wt.pr + 1 <= t.height && 0 - t.sr <= ny <= 0
    requires WeightsOk(t, wt) && Going(t, sums, ibuf, wt, log0, ny, -(ny + t.sr), 0, 0)
    requires BorderZero(t, v[..], wt.pr) && UiIsBefore(t, ibuf[..], ui[..], ny, -(ny + t.sr))
    modifies sums.obuf, sums.wSum, sums.wMax, v, ui
    ensures Going(t, sums, ibuf, wt, log, ny + 1, -(ny + 1 + t.sr), 0, 0)
    ensures BorderZero(t, v[..], wt.pr) && (ny < 0 ==> UiIsBefore(t, ibuf[..], ui[..], ny + 1, -(ny + 1 + t.sr)))
  {
    hide Covered, Pair, Half, Tile.Size, Times, SquareAt, BoxSummed, Pairs, Weighed, Summed, LogOk, BorderZero, UiIsBefore, Visited;
    log := log0;
    ghost var img := ibuf[..];
    var nx, nOffset := -(ny + t.sr), ny * t.width - (ny + t.sr);
    while nx <= ny + t.sr && nOffset < 0
      invariant -(ny + t.sr) <= nx && nOffset == ny * t.width + nx && Going(t, sums, ibuf, wt, log, ny, nx, 0, 0)
      invariant BorderZero(t, v[..], wt.pr) && UiIsBefore(t, img, ui[..], ny, nx)
      decreases ny + t.sr - nx
    {
      HalfHere(t, ny, nx);
      Reached(t, img, ui[..], ny, nx);
      log := OneOffset(t, sums, ibuf, v, ui, wt, ny, nx, log);
      NextUi(t, img, ui[..], ny, nx);
      nx, nOffset := nx + 1, nOffset + 1;
    }
    if ny < 0 { NextRowUi(t, img, ui[..], ny, nx); }
    OffsetsEnd(t, log, ny, nx);
  }

  ghost predicate UiIsBefore(t: Tile, img: seq<real>, ui: seq<real>, ny: int, nx: int) {
    UpTo(t, ny, nx) && |img| == t.Size() && ui == UiBefore(t, img, ny, nx)
  }

  lemma NothingYet(t: Tile, img: seq<real>, ui: seq<real>, v: seq<real>, pr: nat)
    requires t.width > 0 && |img| == |ui| == |v| == t.Size() && forall m :: 0 <= m < |ui| ==> ui[m] == 0.0 && v[m] == 0.0
    ensures UiIsBefore(t, img, ui, 0 - t.sr, 0) && BorderZero(t, v, pr)
  {
    hide Tile.Size;
  }

  lemma Reached(t: Tile, img: seq<real>, ui: seq<real>, ny: int, nx: int)
    requires UiIsBefore(t, img, ui, ny, nx) && nx <= ny + t.sr && ny * t.width + nx < 0
    ensures Visited(t, ny, nx) && UpTo(t, ny, nx) && |img| == t.Size() && ui == UiBefore(t, img, ny, nx)
  {
    hide UiBefore;
  }

  lemma NextUi(t: Tile, img: seq<real>, ui: seq<real>, ny: int, nx: int)
    requires Visited(t, ny, nx) && |img| == t.Size() && ui == UiAfter(t, img, ny, nx)
    ensures UiIsBefore(t, img, ui, ny, nx + 1)
  {
    hide UiAfter;
  }

  /** At the end of a row of offsets the last one of it has been visited. */
  lemma NextRowUi(t: Tile, img: seq<real>, ui: seq<real>, ny: int, nx: int)
    requires UiIsBefore(t, img, ui, ny, nx) && ny < 0 && (nx > ny + t.sr || ny * t.width + nx >= 0)
    ensures UiIsBefore(t, img, ui, ny + 1, -(ny + 1 + t.sr))
  {
    LastVisited(t, ny);
    hide UiAfter;
    assert nx - 1 == LastOf(t, ny);
  }

  /** One offset: square distances, their box sums, and the visits. */
  method OneOffset(t: Tile, sums: Sums, ibuf: array<real>, v: array<real>, ui: array<real>, wt: Weights, ny: int, nx: int, ghost log0: seq<Visit>)
    returns (ghost log: seq<Visit>)
    requires sums.Apart() && ibuf != sums.obuf && ibuf != sums.wSum && ibuf != sums.wMax && ibuf.Length == v.Length == ui.Length == t.Size()
    requires v != sums.obuf && v != sums.wSum && v != sums.wMax && v != ibuf
    requires ui != sums.obuf && ui != sums.wSum && ui != sums.wMax && ui != ibuf && ui != v
    requires 2 * wt.pr + 1 <= t.width && 2 * wt.pr + 1 <= t.height && Half(t, ny, nx) && Abs(nx) <= t.sr && 0 <= -ny <= t.sr
    requires WeightsOk(t, wt) && Going(t, sums, ibuf, wt, log0, ny, nx, 0, 0)
    requires Visited(t, ny, nx) && UpTo(t, ny, nx) && ui[..] == UiBefore(t, ibuf[..], ny, nx) && BorderZero(t, v[..], wt.pr)
    modifies sums.obuf, sums.wSum, sums.wMax, v, ui
    ensures Going(t, sums, ibuf, wt, log, ny, nx + 1, 0, 0)
    ensures ui[..] == UiAfter(t, ibuf[..], ny, nx) && BorderZero(t, v[..], wt.pr)
  {
    hide Covered, Pair, Half, Tile.Size, Times, SquareAt, BoxSummed, Pairs, Summed, LogOk, Weighed, VIs, BorderZero, Visited, UpTo, UiAfter, UiBefore;
    SizeOk(t);
    var f := Times(wt.kernel[-ny], wt.kernel[Abs(nx)]);
    ghost var before, prior := ui[..], v[..];
    SquareDistances(t, ibuf, ui, ny, nx);
    BoxSumBoth(ui, v, t.width, t.height, wt.pr, wt.pr);
    UiIs(t, ibuf[..], ui[..], ny, nx);
    VFrom(t, ibuf[..], prior, v[..], ny, nx, wt.pr);
    log := VisitOffset(t, sums, ibuf, v, ny, nx, f, wt, log0);
  }

  lemma UiIs(t: Tile, img: seq<real>, ui: seq<real>, ny: int, nx: int)
    requires Visited(t, ny, nx) && UpTo(t, ny, nx) && Half(t, ny, nx) && |img| == |ui| == t.Size()
    requires forall m :: 0 <= m < |ui| ==> ui[m] == SquareAt(t, img, UiBefore(t, img, ny, nx), ny, nx, m)
    ensures ui == UiAfter(t, img, ny, nx)
  {
    hide SquareAt, Tile.Size;
  }

  /** The box sums do not depend on what was there before. */
  lemma VFrom(t: Tile, img: seq<real>, prior: seq<real>, v: seq<real>, ny: int, nx: int, pr: nat)
    requires Visited(t, ny, nx) && Fits(t, pr) && |img| == |prior| == |v| == t.Size() && BorderZero(t, prior, pr)
    requires Box(t.width, t.height, pr).Ok(UiAfter(t, img, ny, nx)) && |prior| == t.height * t.width
    requires forall m :: 0 <= m < |v| ==> v[m] == BoxSummed(UiAfter(t, img, ny, nx), prior, t.width, t.height, pr, pr, m)
    ensures VIs(t, img, v, ny, nx, pr) && BorderZero(t, v, pr)
  {
    hide UiAfter, Block, Tile.Size, Visited;
  }

  lemma SizeOk(t: Tile)
    ensures t.Size() == t.height * t.width
  {
  }

  /** The offsets of the loops are those of the half diamond. */
  lemma HalfHere(t: Tile, ny: int, nx: int)
    requires ny <= 0 && -(ny + t.sr) <= nx <= ny + t.sr && ny * t.width + nx < 0
    ensures Half(t, ny, nx) && Abs(nx) <= t.sr && -ny <= t.sr
  {
  }

  /** nlm_mono_tile. Every pixel becomes the weighted average over the log of visits, in which
      each pair of pixels up to a distance of `sr` occurs once, with the weight that the box sums
      of its offset give it; it stays within any bounds that hold in its diamond. */
  method NlmMonoTile(ibuf: array<real>, h: real, sr: int, pr: nat, kernel: seq<real>, width: nat, height: nat, exp: real -> real, epsilon: real)
    returns (ghost log: seq<Visit>)
    requires epsilon > 0.0 && ibuf.Length == height * width
    requires AbsReal(h) >= epsilon && sr >= 1 ==> width > 0 && height > 0 && BothInside(width, height, pr, pr) && |kernel| > sr
    requires (forall i :: 0 <= i < |kernel| ==> kernel[i] >= 0.0) && forall r :: exp(r) >= 0.0
    modifies ibuf
    ensures AbsReal(h) < epsilon || sr < 1 ==> ibuf[..] == old(ibuf[..])
    ensures AbsReal(h) >= epsilon && sr >= 1 ==>
              var t, img := Tile(width, height, sr), old(ibuf[..]);
              && LogOk(t, log) && (forall a: nat, b: nat :: Pairs(log)[(a, b)] == if Pair(t, a, b) then 1 else 0)
              && Weighed(t, img, Weights(pr, kernel, CInv(h, pr), exp), log)
              && (forall p :: 0 <= p < ibuf.Length ==> Den(log, p) >= 0.0 && ibuf[p] == Average(img[p], Num(log, img, p), Den(log, p), Max(log, p), epsilon))
              && (forall p: nat, lo: real, hi: real :: Bounds(t, img, p, lo, hi) ==> lo <= ibuf[p] <= hi)
  {
    log := [];
    if AbsReal(h) < epsilon || sr < 1 { return; }
    BothExactly(width, height, pr, pr);
    var t := Tile(width, height, sr);
    ghost var img := ibuf[..];
    SizeOk(t);
    hide BothInside, Pair, Tile.Size, Average, Num, Den, Max, Bounds, Pairs, LogOk, CInv, Weighed;
    var cInv := CInv(h, pr);
    var sums := new Sums(ibuf.Length);
    var wt := Weights(pr, kernel, cInv, exp);
    log := VisitAll(t, sums, ibuf, wt);
    Finish(t, sums, ibuf, epsilon, log);
    forall p: nat, lo: real, hi: real | Bounds(t, img, p, lo, hi) ensures lo <= ibuf[p] <= hi {
      Convex(t, log, img, p, epsilon, lo, hi);
    }
  }

  /** `-1 / (SQR(h) * SQR(pd))` */
  function CInv(h: real, pr: nat): real
    requires h != 0.0
  {
    var pd := (2 * pr + 1) as real;
    NotZero(h, pd);
    -1.0 / (Sqr(h) * Sqr(pd))
  }

  lemma NotZero(h: real, pd: real)
    requires h != 0.0 && pd != 0.0
    ensures Sqr(h) * Sqr(pd) != 0.0
  {
    hide Sqr;
    SqrNonZero(h);
    SqrNonZero(pd);
    TimesNonZero(Sqr(h), Sqr(pd));
  }

  lemma SqrNonZero(d: real)
    requires d != 0.0
    ensures Sqr(d) != 0.0
  {
    hide Times;
    TimesNonZero(d, d);
  }

  lemma TimesNonZero(a: real, b: real)
    requires a != 0.0 && b != 0.0
    ensures Times(a, b) != 0.0
  {
    RealSign(a, b);
    RealSign(-a, b);
    RealSign(a, -b);
    RealSign(-a, -b);
    assert (-a) * b == -(a * b) && a * (-b) == -(a * b) && (-a) * (-b) == a * b;
  }

  /** The pixel itself, the normalisation, and the copy back. */
  method Finish(t: Tile, sums: Sums, ibuf: array<real>, epsilon: real, ghost log: seq<Visit>)
    requires t.width > 0 && sums.Apart() && ibuf != sums.obuf && ibuf != sums.wSum && ibuf != sums.wMax && epsilon > 0.0
    requires sums.Are(t, log, ibuf[..]) && LogOk(t, log)
    modifies ibuf, sums.obuf, sums.wSum
    ensures forall p :: 0 <= p < ibuf.Length ==>
              Den(log, p) >= 0.0 && ibuf[p] == Average(old(ibuf[p]), Num(log, old(ibuf[..]), p), Den(log, p), Max(log, p), epsilon)
  {
    ghost var img := ibuf[..];
    LogInside(t, log);
    forall p | 0 <= p < ibuf.Length ensures Den(log, p) >= 0.0 { DenPositive(log, p); }
    hide Num, Den, Max, Pair, LogOk, Times, Own, Tile.Size;
    var pos := 0;
    while pos < ibuf.Length
      modifies sums.obuf, sums.wSum
      invariant 0 <= pos <= ibuf.Length
      invariant forall p :: pos <= p < ibuf.Length ==> sums.obuf[p] == Num(log, img, p) && sums.wSum[p] == Den(log, p)
      invariant forall p :: 0 <= p < pos ==> sums.obuf[p] == Average(img[p], Num(log, img, p), Den(log, p), Max(log, p), epsilon)
    {
      var wCur := Own(sums.wMax[pos], epsilon);
      sums.wSum[pos] := sums.wSum[pos] + wCur;
      sums.obuf[pos] := sums.obuf[pos] + Times(wCur, ibuf[pos]);
      sums.obuf[pos] := sums.obuf[pos] / sums.wSum[pos];
      pos := pos + 1;
    }
    forall p | 0 <= p < ibuf.Length { ibuf[p] := sums.obuf[p]; }
  }

  lemma {:induction false} DenPositive(log: seq<Visit>, p: nat)
    requires forall k :: 0 <= k < |log| ==> log[k].w >= 0.0
    ensures Den(log, p) >= 0.0
    decreases |log|
  {
    if log != [] { DenPositive(log[..|log| - 1], p); }
  }
}
