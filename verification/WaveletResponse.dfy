/** The wavelet filter by its response: at the ends of a line it goes on in an even continuation, a
    level is one sum over nine pixels, and the thresholds shrink by more than half from level to
    level. */
module WaveletResponse {
  import opened Bits
  import opened BoxSum
  import opened Wavelet

  /** A line goes on beyond both ends as in mirrors that stand on the end samples: it comes back every
      `2 * size - 2` samples, the second half backwards. */
  function Continued(line: seq<real>, k: int): real
    requires |line| >= 2
  {
    var period := 2 * |line| - 2;
    if k % period < |line| then line[k % period] else line[period - k % period]
  }

  /** That is even about both ends. */
  lemma ContinuedEven(line: seq<real>, k: int)
    requires |line| >= 2
    ensures Continued(line, -k) == Continued(line, k) && Continued(line, 2 * (|line| - 1) - k) == Continued(line, k)
    ensures 0 <= k < |line| ==> Continued(line, k) == line[k]
  {
    FoldBack(k, 2 * |line| - 2);
    if 0 <= k < |line| {
      DivUnique(k, 2 * |line| - 2, if k < 2 * |line| - 2 then 0 else 1, if k < 2 * |line| - 2 then k else 0);
    }
  }

  lemma FoldBack(k: int, n: nat)
    requires n > 0
    ensures (-k) % n == (n - k) % n == if k % n == 0 then 0 else n - k % n
  {
    var q, m := k / n, k % n;
    assert k == q * n + m;
    Distribute(-q, -1, n);
    Distribute(1, -q, n);
    if m == 0 {
      DivUnique(-k, n, -q, 0);
      DivUnique(n - k, n, 1 - q, 0);
    } else {
      DivUnique(-k, n, -q - 1, n - m);
      DivUnique(n - k, n, -q, n - m);
    }
  }

  /** The samples of a line. */
  function LineOf(f: seq<real>, base: nat, st: nat, size: nat): (line: seq<real>)
    requires size > 0 ==> base + st * (size - 1) < |f|
    ensures |line| == size && forall k :: 0 <= k < size ==> line[k] == At(f, base, st, size, k)
  {
    seq(size, k requires 0 <= k < size => At(f, base, st, size, k))
  }

  /** On any line that is long enough hat_transform is the plain filter of its continuation: twice
      the sample, and those `sc` to its left and to its right. */
  lemma HatContinued(f: seq<real>, base: nat, st: nat, size: nat, sc: nat, i: nat)
    requires LineOk(f, base, st, size, sc) && i < size && sc > 0
    ensures var line := LineOf(f, base, st, size);
            Hat(f, base, st, size, sc, i) == 2.0 * Continued(line, i) + Continued(line, i - sc) + Continued(line, i + sc)
  {
    var line := LineOf(f, base, st, size);
    MirrorOf(line, i);
    MirrorOf(line, i - sc);
    MirrorOf(line, i + sc);
    hide At, Continued, LineOf;
  }

  lemma MirrorOf(line: seq<real>, k: int)
    requires |line| >= 2 && -|line| < k < 2 * |line| - 1
    ensures var m := Mirror(k, |line|); 0 <= m < |line| && line[m] == Continued(line, k) && (0 <= k < |line| ==> m == k)
  {
    ContinuedEven(line, k);
    ContinuedEven(line, Mirror(k, |line|));
    hide Continued;
  }

  /** A row of the first pass, pixel by pixel. */
  lemma RowOfPixels(p: Plane, x: seq<real>, sc: nat, r: nat, c: nat)
    requires p.Ok(sc) && |x| == p.Size() && r < p.h && c < p.w
    ensures var a, b := Mirror(c - sc, p.w), Mirror(c + sc, p.w);
            && 0 <= a < p.w && 0 <= b < p.w
            && Cell(p, RowsLow(p, x, sc), r, c) == (2.0 * Cell(p, x, r, c) + Cell(p, x, r, a) + Cell(p, x, r, b)) * 0.25
  {
    var a, b := Mirror(c - sc, p.w), Mirror(c + sc, p.w);
    LineCells(p, x, sc, r, c);
    LineCells(p, x, sc, r, a);
    LineCells(p, x, sc, r, b);
    hide Cell, RowsLow, ColsLow, At, Plane.Size;
  }

  /** And a column of the second. */
  lemma ColumnOfPixels(p: Plane, x: seq<real>, sc: nat, r: nat, c: nat)
    requires p.Ok(sc) && |x| == p.Size() && r < p.h && c < p.w
    ensures var a, b := Mirror(r - sc, p.h), Mirror(r + sc, p.h);
            && 0 <= a < p.h && 0 <= b < p.h
            && Cell(p, ColsLow(p, x, sc), r, c) == (2.0 * Cell(p, x, r, c) + Cell(p, x, a, c) + Cell(p, x, b, c)) * 0.25
  {
    var a, b := Mirror(r - sc, p.h), Mirror(r + sc, p.h);
    LineCells(p, x, sc, r, c);
    LineCells(p, x, sc, a, c);
    LineCells(p, x, sc, b, c);
    hide Cell, RowsLow, ColsLow, At, Plane.Size;
  }

  /** The low pass of a level: sixteenths of nine pixels, `1 << lev` apart, four of the pixel itself,
      two of those above, below and beside it, and one of those at the corners. */
  lemma NinePixels(p: Plane, x: seq<real>, lev: nat, r: nat, c: nat)
    requires p.Ok(Pow2(lev)) && |x| == p.Size() && r < p.h && c < p.w
    ensures var sc := Pow2(lev);
            var left, right, up, down := Mirror(c - sc, p.w), Mirror(c + sc, p.w), Mirror(r - sc, p.h), Mirror(r + sc, p.h);
            && 0 <= left < p.w && 0 <= right < p.w && 0 <= up < p.h && 0 <= down < p.h
            && 16.0 * Cell(p, Wavelet.Low(p, x, lev), r, c) ==
               4.0 * Cell(p, x, r, c)
               + 2.0 * (Cell(p, x, r, left) + Cell(p, x, r, right) + Cell(p, x, up, c) + Cell(p, x, down, c))
               + Cell(p, x, up, left) + Cell(p, x, up, right) + Cell(p, x, down, left) + Cell(p, x, down, right)
  {
    var sc := Pow2(lev);
    hide Cell, RowsLow, ColsLow, Plane.Size, Pow2, Mirror, Plane.Ok;
    var up, down := Mirror(r - sc, p.h), Mirror(r + sc, p.h);
    ColumnOfPixels(p, RowsLow(p, x, sc), sc, r, c);
    RowOfPixels(p, x, sc, r, c);
    RowOfPixels(p, x, sc, up, c);
    RowOfPixels(p, x, sc, down, c);
  }

  /** The soft threshold takes `t` off the size of a detail and keeps its sign; smaller details are
      gone. */
  lemma SoftIs(d: real, t: real)
    requires t >= 0.0
    ensures Size(Soft(d, t)) == if Size(d) > t then Size(d) - t else 0.0
    ensures (Soft(d, t) > 0.0 ==> d > 0.0) && (Soft(d, t) < 0.0 ==> d < 0.0)
  {
  }

  function Size(d: real): real { if d < 0.0 then -d else d }

  /** The thresholds of the five levels: each less than half of the one before, and 1.2815 of the
      given one altogether, by which no pixel is changed more. */
  lemma ThresholdsAre(threshold: real)
    ensures Tholds(threshold)[0] == 0.8002 * threshold && Total(Tholds(threshold), 5) == 1.2815 * threshold
    ensures threshold >= 0.0 ==> forall l :: 0 <= l < 4 ==> 2.0 * Tholds(threshold)[l + 1] <= Tholds(threshold)[l]
  {
    var t := Tholds(threshold);
    assert t[0] == 0.8002 * threshold && t[1] == 0.2735 * threshold && t[2] == 0.1202 * threshold;
    assert t[3] == 0.0585 * threshold && t[4] == 0.0291 * threshold;
    hide Tholds;
    assert Total(t, 1) == t[0];
    assert Total(t, 2) == t[0] + t[1];
    assert Total(t, 3) == t[0] + t[1] + t[2];
    assert Total(t, 4) == t[0] + t[1] + t[2] + t[3];
  }
}
