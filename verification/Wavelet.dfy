/** The first loop of wavelet_denoise: five levels of low-pass filtering with soft thresholds,
    over three blocks of one buffer. Floats are exact reals. */
module Wavelet {
  import opened Bits
  import opened BoxSum

  /** The line that hat_transform works on: `base[st*i]`. */
  predicate LineOk(f: seq<real>, base: nat, st: nat, size: nat, sc: nat) {
    2 * sc <= size && (size > 0 ==> base + st * (size - 1) < |f|)
  }

  function At(f: seq<real>, base: nat, st: nat, size: nat, i: nat): real
    requires i < size && base + st * (size - 1) < |f|
  {
    InLine(st, size, i);
    f[base + st * i]
  }

  lemma InLine(st: nat, size: nat, i: nat)
    requires i < size
    ensures 0 <= st * i <= st * (size - 1)
  {
    Smaller(i, size - 1, st);
    Commute(st, i);
    Commute(st, size - 1);
  }

  /** Positions beyond the ends are reflected at the first and the last sample. */
  function Mirror(k: int, size: nat): int { if k < 0 then -k else if k >= size then 2 * size - 2 - k else k }

  /** The hat filter with reflecting ends. */
  function Hat(f: seq<real>, base: nat, st: nat, size: nat, sc: nat, i: nat): real
    requires LineOk(f, base, st, size, sc) && i < size
  {
    2.0 * At(f, base, st, size, i) + At(f, base, st, size, Mirror(i - sc, size)) + At(f, base, st, size, Mirror(i + sc, size))
  }

  // ---------------------------------------------------------------- the three loops

  /** The positions that the loops come to: the first one runs up to `sc`, whatever the size. */
  predicate Handled(size: nat, sc: nat, i: nat) { i < sc || i < size }

  /** The two other positions that are read for position `i`. */
  function TapLeft(sc: nat, i: nat): int { if i < sc then sc - i else i - sc }
  function TapRight(size: nat, sc: nat, i: nat): int { if i < sc || i + sc < size then i + sc else 2 * size - 2 - (i + sc) }

  lemma TapsNatural(size: nat, sc: nat, i: nat)
    requires Handled(size, sc, i)
    ensures TapLeft(sc, i) >= 0 && TapRight(size, sc, i) >= 0
  {
  }

  /** All that is read for position `i` lies on the line. */
  predicate Read(size: nat, sc: nat, i: nat) { i < size && TapLeft(sc, i) < size && TapRight(size, sc, i) < size }

  ghost predicate StaysInLine(size: nat, sc: nat) {
    forall i: nat :: Handled(size, sc, i) ==> Read(size, sc, i)
  }

  /** hat_transform stays on its line if and only if the line is at least twice as long as the
      taps are apart. */
  lemma StaysExactly(size: nat, sc: nat)
    requires sc > 0
    ensures StaysInLine(size, sc) <==> 2 * sc <= size
  {
    if StaysInLine(size, sc) {
      assert Handled(size, sc, sc - 1) && TapRight(size, sc, sc - 1) == 2 * sc - 1;
      assert Read(size, sc, sc - 1);
    }
  }

  /** On a line of 31 samples the fifth level reads the 32nd. */
  lemma LeavesLine()
    ensures !StaysInLine(31, 16)
  {
    StaysExactly(31, 16);
  }

  /** Every line of every level stays inside the image. */
  ghost predicate AllStay(w: nat, h: nat) {
    forall lev: nat :: lev < 5 ==> StaysInLine(w, Pow2(lev)) && StaysInLine(h, Pow2(lev))
  }

  /** For wavelet_denoise that means images of at least 32 by 32. */
  lemma AllStayExactly(w: nat, h: nat)
    ensures AllStay(w, h) <==> w >= 32 && h >= 32
  {
    hide StaysInLine;
    var four := 4;
    Pow2Of(four);
    StaysExactly(w, 16);
    StaysExactly(h, 16);
    hide Pow2;
    if AllStay(w, h) {
      assert StaysInLine(w, Pow2(four)) && StaysInLine(h, Pow2(four));
    } else if w >= 32 && h >= 32 {
      forall lev: nat | lev < 5 ensures StaysInLine(w, Pow2(lev)) && StaysInLine(h, Pow2(lev)) {
        Pow2Monotone(lev, four);
        StaysExactly(w, Pow2(lev));
        StaysExactly(h, Pow2(lev));
      }
    }
  }

  /** The places of the buffer that are read for position `i`. */
  predicate TapsIn(length: nat, base: nat, st: nat, size: nat, sc: nat, i: nat)
    requires Handled(size, sc, i)
  {
    base + st * i < length && base + st * TapLeft(sc, i) < length && base + st * TapRight(size, sc, i) < length
  }

  ghost predicate AllTapsIn(length: nat, base: nat, st: nat, size: nat, sc: nat) {
    forall i: nat :: Handled(size, sc, i) ==> TapsIn(length, base, st, size, sc, i)
  }

  /** What the loops compute, whether or not they stay on the line. */
  function Taps(f: seq<real>, base: nat, st: nat, size: nat, sc: nat, i: nat): real
    requires Handled(size, sc, i) && TapsIn(|f|, base, st, size, sc, i)
  {
    TapsNatural(size, sc, i);
    TapsPlaces(size, sc, st, i);
    2.0 * f[base + st * i] + f[base + st * TapLeft(sc, i)] + f[base + st * TapRight(size, sc, i)]
  }

  lemma TapsPlaces(size: nat, sc: nat, st: nat, i: nat)
    requires Handled(size, sc, i)
    ensures st * i >= 0 && st * TapLeft(sc, i) >= 0 && st * TapRight(size, sc, i) >= 0
  {
    TapsNatural(size, sc, i);
    NatProduct(st, i);
    NatProduct(st, TapLeft(sc, i));
    NatProduct(st, TapRight(size, sc, i));
  }

  /** On a line that is long enough that is the filter with reflecting ends. */
  lemma TapsMirror(f: seq<real>, base: nat, st: nat, size: nat, sc: nat)
    requires LineOk(f, base, st, size, sc)
    ensures AllTapsIn(|f|, base, st, size, sc)
    ensures forall i :: 0 <= i < size ==> Taps(f, base, st, size, sc, i) == Hat(f, base, st, size, sc, i)
  {
    forall i: nat | Handled(size, sc, i)
      ensures TapsIn(|f|, base, st, size, sc, i) && i < size && Taps(f, base, st, size, sc, i) == Hat(f, base, st, size, sc, i)
    {
      HatIs(f, base, st, size, sc, i);
      hide Hat;
    }
  }

  /** hat_transform, for any line whose taps lie in the buffer. */
  method HatTransform(temp: array<real>, f: array<real>, base: nat, st: nat, size: nat, sc: nat)
    requires temp != f && AllTapsIn(f.Length, base, st, size, sc) && temp.Length >= size && temp.Length >= sc
    modifies temp
    ensures forall i: nat :: Handled(size, sc, i) ==> temp[i] == Taps(f[..], base, st, size, sc, i)
  {
    hide Taps, TapsIn, AllTapsIn, DoneTo;
    ghost var line := f[..];
    NothingDone(temp[..], line, base, st, size, sc);
    var i := 0;
    while i < sc
      invariant 0 <= i <= sc && DoneTo(temp[..], line, base, st, size, sc, i)
    {
      TapHere(temp[..], line, base, st, size, sc, i, sc - i, i + sc);
      temp[i] := 2.0 * f[base + st * i] + f[base + st * (sc - i)] + f[base + st * (i + sc)];
      i := i + 1;
    }
    while i + sc < size
      invariant sc <= i && (i > sc ==> i + sc <= size) && DoneTo(temp[..], line, base, st, size, sc, i)
    {
      TapHere(temp[..], line, base, st, size, sc, i, i - sc, i + sc);
      temp[i] := 2.0 * f[base + st * i] + f[base + st * (i - sc)] + f[base + st * (i + sc)];
      i := i + 1;
    }
    while i < size
      invariant sc <= i && (i > sc ==> i <= size) && size <= i + sc && DoneTo(temp[..], line, base, st, size, sc, i)
    {
      TapHere(temp[..], line, base, st, size, sc, i, i - sc, 2 * size - 2 - (i + sc));
      temp[i] := 2.0 * f[base + st * i] + f[base + st * (i - sc)] + f[base + st * (2 * size - 2 - (i + sc))];
      i := i + 1;
    }
    AllDone(temp[..], line, base, st, size, sc, i);
  }

  /** Storing the taps of position `i`, given the two positions beside it. */
  lemma TapHere(temp: seq<real>, f: seq<real>, base: nat, st: nat, size: nat, sc: nat, i: nat, l: int, r: int)
    requires AllTapsIn(|f|, base, st, size, sc) && DoneTo(temp, f, base, st, size, sc, i) && i < |temp|
    requires Handled(size, sc, i) && l == TapLeft(sc, i) && r == TapRight(size, sc, i)
    ensures 0 <= st * i && 0 <= st * l && 0 <= st * r && base + st * i < |f| && base + st * l < |f| && base + st * r < |f|
    ensures DoneTo(temp[i := 2.0 * f[base + st * i] + f[base + st * l] + f[base + st * r]], f, base, st, size, sc, i + 1)
  {
    hide Taps, TapsIn, AllTapsIn, DoneTo, Handled, TapLeft, TapRight;
    TapsHere(f, base, st, size, sc, i);
    OneMoreDone(temp, f, base, st, size, sc, i);
  }

  ghost predicate DoneTo(temp: seq<real>, f: seq<real>, base: nat, st: nat, size: nat, sc: nat, n: nat)
    requires AllTapsIn(|f|, base, st, size, sc)
  {
    n <= |temp| && forall i: nat :: i < n && Handled(size, sc, i) ==> temp[i] == Taps(f, base, st, size, sc, i)
  }

  lemma NothingDone(temp: seq<real>, f: seq<real>, base: nat, st: nat, size: nat, sc: nat)
    requires AllTapsIn(|f|, base, st, size, sc)
    ensures DoneTo(temp, f, base, st, size, sc, 0)
  {
  }

  lemma OneMoreDone(temp: seq<real>, f: seq<real>, base: nat, st: nat, size: nat, sc: nat, i: nat)
    requires AllTapsIn(|f|, base, st, size, sc) && Handled(size, sc, i) && TapsIn(|f|, base, st, size, sc, i)
    requires DoneTo(temp, f, base, st, size, sc, i) && i < |temp|
    ensures DoneTo(temp[i := Taps(f, base, st, size, sc, i)], f, base, st, size, sc, i + 1)
  {
    hide Taps, TapsIn;
  }

  lemma AllDone(temp: seq<real>, f: seq<real>, base: nat, st: nat, size: nat, sc: nat, n: nat)
    requires AllTapsIn(|f|, base, st, size, sc) && DoneTo(temp, f, base, st, size, sc, n) && n >= sc && n >= size
    ensures forall i: nat :: Handled(size, sc, i) ==> temp[i] == Taps(f, base, st, size, sc, i)
  {
    hide Taps;
  }

  lemma TapsHere(f: seq<real>, base: nat, st: nat, size: nat, sc: nat, i: nat)
    requires AllTapsIn(|f|, base, st, size, sc) && Handled(size, sc, i)
    ensures var l, r := TapLeft(sc, i), TapRight(size, sc, i);
            && 0 <= st * i && 0 <= st * l && 0 <= st * r && base + st * i < |f| && base + st * l < |f| && base + st * r < |f|
            && TapsIn(|f|, base, st, size, sc, i)
            && Taps(f, base, st, size, sc, i) == 2.0 * f[base + st * i] + f[base + st * l] + f[base + st * r]
  {
    TapsPlaces(size, sc, st, i);
    assert TapsIn(|f|, base, st, size, sc, i);
  }

  lemma HatIs(f: seq<real>, base: nat, st: nat, size: nat, sc: nat, i: nat)
    requires LineOk(f, base, st, size, sc) && i < size
    ensures 0 <= st * i && base + st * i < |f|
    ensures var l, r := Mirror(i - sc, size), Mirror(i + sc, size);
            && 0 <= l < size && 0 <= r < size && 0 <= st * l && 0 <= st * r && base + st * l < |f| && base + st * r < |f|
            && Hat(f, base, st, size, sc, i) == 2.0 * f[base + st * i] + f[base + st * l] + f[base + st * r]
  {
    InLine(st, size, i);
    InLine(st, size, Mirror(i - sc, size));
    InLine(st, size, Mirror(i + sc, size));
  }

  /** The filter keeps a constant line, apart from its gain of 4, and reacts to a reversed line
      with the reversed output. */
  lemma HatConstant(f: seq<real>, base: nat, st: nat, size: nat, sc: nat, i: nat, v: real)
    requires LineOk(f, base, st, size, sc) && i < size
    requires forall k :: 0 <= k < size ==> At(f, base, st, size, k) == v
    ensures Hat(f, base, st, size, sc, i) == 4.0 * v
  {
  }

  lemma HatReversed(f: seq<real>, g: seq<real>, base: nat, st: nat, size: nat, sc: nat, i: nat)
    requires LineOk(f, base, st, size, sc) && LineOk(g, base, st, size, sc) && i < size
    requires forall k :: 0 <= k < size ==> At(g, base, st, size, k) == At(f, base, st, size, size - 1 - k)
    ensures Hat(g, base, st, size, sc, i) == Hat(f, base, st, size, sc, size - 1 - i)
  {
    hide At;
    assert Mirror(size - 1 - i - sc, size) == size - 1 - Mirror(i + sc, size);
    assert Mirror(size - 1 - i + sc, size) == size - 1 - Mirror(i - sc, size);
  }

  // ---------------------------------------------------------------- low pass

  /** Image size and the distance of the taps. */
  datatype Plane = Plane(w: nat, h: nat) {
    function Size(): nat { h * w }
    predicate Ok(sc: nat) { 2 * sc <= w && 2 * sc <= h && w > 0 && h > 0 }
  }

  lemma RowLine(p: Plane, blk: seq<real>, sc: nat, row: nat)
    requires p.Ok(sc) && |blk| == p.Size() && row < p.h
    ensures 0 <= row * p.w && LineOk(blk, row * p.w, 1, p.w, sc)
  {
    CellAt(row, p.w - 1, p.h, p.w);
    Smaller(0, row, p.w);
  }

  lemma ColLine(p: Plane, blk: seq<real>, sc: nat, col: nat)
    requires p.Ok(sc) && |blk| == p.Size() && col < p.w
    ensures LineOk(blk, col, p.w, p.h, sc)
  {
    CellAt(p.h - 1, col, p.h, p.w);
    Commute(p.w, p.h - 1);
  }

  /** Rows filtered, then columns; each pass has a gain of 4, taken out again. */
  function RowsAt(p: Plane, blk: seq<real>, sc: nat, m: nat): real
    requires p.Ok(sc) && |blk| == p.Size() && m < |blk|
  {
    CellOf(m, p.h, p.w);
    RowLine(p, blk, sc, m / p.w);
    Hat(blk, m / p.w * p.w, 1, p.w, sc, m % p.w) * 0.25
  }

  function RowsLow(p: Plane, blk: seq<real>, sc: nat): (r: seq<real>)
    requires p.Ok(sc) && |blk| == p.Size()
    ensures |r| == |blk|
  {
    seq(|blk|, m requires 0 <= m < |blk| => RowsAt(p, blk, sc, m))
  }

  function ColsAt(p: Plane, blk: seq<real>, sc: nat, m: nat): real
    requires p.Ok(sc) && |blk| == p.Size() && m < |blk|
  {
    CellOf(m, p.h, p.w);
    ColLine(p, blk, sc, m % p.w);
    Hat(blk, m % p.w, p.w, p.h, sc, m / p.w) * 0.25
  }

  function ColsLow(p: Plane, blk: seq<real>, sc: nat): (r: seq<real>)
    requires p.Ok(sc) && |blk| == p.Size()
    ensures |r| == |blk|
  {
    seq(|blk|, m requires 0 <= m < |blk| => ColsAt(p, blk, sc, m))
  }

  /** A line of a block, seen in the whole buffer. */
  lemma HatShift(f: seq<real>, o: nat, n: nat, base: nat, st: nat, size: nat, sc: nat, i: nat)
    requires o + n <= |f| && LineOk(f[o..o + n], base, st, size, sc) && i < size
    ensures LineOk(f, o + base, st, size, sc) && Hat(f, o + base, st, size, sc, i) == Hat(f[o..o + n], base, st, size, sc, i)
  {
    HatIs(f[o..o + n], base, st, size, sc, i);
    HatIs(f, o + base, st, size, sc, i);
    hide Hat, Mirror;
  }

  /** Rows before `row`, and row `row` before `col`, are stored; the source and everything
      outside the destination are as they were. */
  ghost predicate RowsTo(p: Plane, sc: nat, before: seq<real>, now: seq<real>, hpass: nat, lpass: nat, row: nat, col: nat)
    requires p.Ok(sc) && hpass + p.Size() <= |before| && lpass + p.Size() <= |before|
  {
    |now| == |before| && forall m :: 0 <= m < |now| ==> now[m] == RowsExpected(p, sc, before, hpass, lpass, row, col, m)
  }

  function RowsExpected(p: Plane, sc: nat, before: seq<real>, hpass: nat, lpass: nat, row: nat, col: nat, m: nat): real
    requires p.Ok(sc) && hpass + p.Size() <= |before| && lpass + p.Size() <= |before| && m < |before|
  {
    if lpass <= m < lpass + p.Size() && m - lpass < row * p.w + col then RowsAt(p, before[hpass..hpass + p.Size()], sc, m - lpass) else before[m]
  }

  predicate Disjoint(p: Plane, hpass: nat, lpass: nat) { hpass + p.Size() <= lpass || lpass + p.Size() <= hpass }

  /** The rows of block `hpass`, filtered, into block `lpass`. */
  method FilterRows(p: Plane, f: array<real>, temp: array<real>, hpass: nat, lpass: nat, sc: nat)
    requires f != temp && p.Ok(sc) && temp.Length >= p.w && hpass + p.Size() <= f.Length && lpass + p.Size() <= f.Length
    requires Disjoint(p, hpass, lpass)
    modifies f, temp
    ensures RowsTo(p, sc, old(f[..]), f[..], hpass, lpass, p.h, 0)
  {
    hide RowsTo, RowsAt, LineOk, Hat, Plane.Size;
    ghost var before := f[..];
    RowsStart(p, sc, before, hpass, lpass);
    var row := 0;
    while row < p.h
      invariant 0 <= row <= p.h && RowsTo(p, sc, before, f[..], hpass, lpass, row, 0)
    {
      RowReady(p, sc, before, f[..], hpass, lpass, row);
      ghost var now := f[..];
      TapsMirror(now, hpass + row * p.w, 1, p.w, sc);
      HatTransform(temp, f, hpass + row * p.w, 1, p.w, sc);
      RowFiltered(p, sc, before, now, hpass, lpass, row, temp[..]);
      StoreRow(p, f, temp, hpass, lpass, sc, row, before);
      row := row + 1;
    }
  }

  lemma RowsStart(p: Plane, sc: nat, before: seq<real>, hpass: nat, lpass: nat)
    requires p.Ok(sc) && hpass + p.Size() <= |before| && lpass + p.Size() <= |before|
    ensures RowsTo(p, sc, before, before, hpass, lpass, 0, 0)
  {
    hide RowsAt;
  }

  /** `temp` holds the filtered row `row` of a block. */
  ghost predicate TempIs(p: Plane, blk: seq<real>, sc: nat, row: nat, temp: seq<real>, col: nat)
    requires p.Ok(sc) && |blk| == p.Size()
  {
    col < |temp| && 0 <= row * p.w + col < p.Size() && temp[col] * 0.25 == RowsAt(p, blk, sc, row * p.w + col)
  }

  ghost predicate RowInTemp(p: Plane, blk: seq<real>, sc: nat, row: nat, temp: seq<real>)
    requires p.Ok(sc) && |blk| == p.Size()
  {
    forall col :: 0 <= col < p.w ==> TempIs(p, blk, sc, row, temp, col)
  }

  /** The source block has not been touched. */
  lemma RowReady(p: Plane, sc: nat, before: seq<real>, now: seq<real>, hpass: nat, lpass: nat, row: nat)
    requires p.Ok(sc) && hpass + p.Size() <= |before| && lpass + p.Size() <= |before| && Disjoint(p, hpass, lpass) && row < p.h
    requires RowsTo(p, sc, before, now, hpass, lpass, row, 0)
    ensures |now| == |before| && now[hpass..hpass + p.Size()] == before[hpass..hpass + p.Size()]
    ensures row * p.w >= 0 && LineOk(now, hpass + row * p.w, 1, p.w, sc)
  {
    assert now[hpass..hpass + p.Size()] == before[hpass..hpass + p.Size()];
    RowLine(p, before[hpass..hpass + p.Size()], sc, row);
    HatShift(now, hpass, p.Size(), row * p.w, 1, p.w, sc, 0);
  }

  lemma RowFiltered(p: Plane, sc: nat, before: seq<real>, now: seq<real>, hpass: nat, lpass: nat, row: nat, temp: seq<real>)
    requires p.Ok(sc) && hpass + p.Size() <= |before| == |now| && row < p.h && |temp| >= p.w
    requires now[hpass..hpass + p.Size()] == before[hpass..hpass + p.Size()]
    requires row * p.w >= 0 && LineOk(now, hpass + row * p.w, 1, p.w, sc)
    requires forall i :: 0 <= i < p.w ==> temp[i] == Hat(now, hpass + row * p.w, 1, p.w, sc, i)
    ensures RowInTemp(p, before[hpass..hpass + p.Size()], sc, row, temp)
  {
    var blk := before[hpass..hpass + p.Size()];
    RowLine(p, blk, sc, row);
    forall col | 0 <= col < p.w ensures TempIs(p, blk, sc, row, temp, col) {
      CellAt(row, col, p.h, p.w);
      HatShift(now, hpass, p.Size(), row * p.w, 1, p.w, sc, col);
      hide Hat, LineOk, Plane.Size;
    }
  }

  method StoreRow(p: Plane, f: array<real>, temp: array<real>, hpass: nat, lpass: nat, sc: nat, row: nat, ghost before: seq<real>)
    requires f != temp && p.Ok(sc) && temp.Length >= p.w && hpass + p.Size() <= f.Length == |before| && lpass + p.Size() <= f.Length && row < p.h
    requires RowsTo(p, sc, before, f[..], hpass, lpass, row, 0)
    requires RowInTemp(p, before[hpass..hpass + p.Size()], sc, row, temp[..])
    modifies f
    ensures RowsTo(p, sc, before, f[..], hpass, lpass, row + 1, 0)
  {
    hide RowsTo, RowsAt, Hat, Plane.Size;
    var col := 0;
    while col < p.w
      invariant 0 <= col <= p.w && RowsTo(p, sc, before, f[..], hpass, lpass, row, col)
    {
      ghost var was := f[..];
      assert TempIs(p, before[hpass..hpass + p.Size()], sc, row, temp[..], col);
      RowsStep(p, sc, before, was, hpass, lpass, row, col);
      f[lpass + row * p.w + col] := temp[col] * 0.25;
      assert f[..] == was[lpass + row * p.w + col := RowsAt(p, before[hpass..hpass + p.Size()], sc, row * p.w + col)];
      col := col + 1;
    }
    RowsNext(p, sc, before, f[..], hpass, lpass, row);
  }

  lemma RowsStep(p: Plane, sc: nat, before: seq<real>, now: seq<real>, hpass: nat, lpass: nat, row: nat, col: nat)
    requires p.Ok(sc) && hpass + p.Size() <= |before| && lpass + p.Size() <= |before| && row < p.h && col < p.w
    requires RowsTo(p, sc, before, now, hpass, lpass, row, col)
    ensures 0 <= row * p.w + col < p.Size() && lpass + row * p.w + col < |now|
    ensures RowsTo(p, sc, before, now[lpass + row * p.w + col := RowsAt(p, before[hpass..hpass + p.Size()], sc, row * p.w + col)], hpass, lpass, row, col + 1)
  {
    CellAt(row, col, p.h, p.w);
    hide RowsAt, Plane.Size;
  }

  lemma RowsNext(p: Plane, sc: nat, before: seq<real>, now: seq<real>, hpass: nat, lpass: nat, row: nat)
    requires p.Ok(sc) && hpass + p.Size() <= |before| && lpass + p.Size() <= |before|
    requires RowsTo(p, sc, before, now, hpass, lpass, row, p.w)
    ensures RowsTo(p, sc, before, now, hpass, lpass, row + 1, 0)
  {
    Distribute(row, 1, p.w);
    hide RowsAt, Plane.Size;
  }

  // ---------------------------------------------------------------- columns, in place

  function ColsExpected(p: Plane, sc: nat, before: seq<real>, lpass: nat, col: nat, row: nat, m: nat): real
    requires p.Ok(sc) && lpass + p.Size() <= |before| && m < |before|
  {
    if lpass <= m < lpass + p.Size() && Filtered(p, m - lpass, col, row) then ColsAt(p, before[lpass..lpass + p.Size()], sc, m - lpass) else before[m]
  }

  /** Columns before `col`, and column `col` before `row`. */
  predicate Filtered(p: Plane, m: nat, col: nat, row: nat)
    requires p.w > 0
  {
    m % p.w < col || (m % p.w == col && m / p.w < row)
  }

  ghost predicate ColsTo(p: Plane, sc: nat, before: seq<real>, now: seq<real>, lpass: nat, col: nat, row: nat)
    requires p.Ok(sc) && lpass + p.Size() <= |before|
  {
    |now| == |before| && forall m :: 0 <= m < |now| ==> now[m] == ColsExpected(p, sc, before, lpass, col, row, m)
  }

  /** The columns of a block, filtered in place: a column is read before it is written, and no
      other column touches it. */
  method FilterCols(p: Plane, f: array<real>, temp: array<real>, lpass: nat, sc: nat)
    requires f != temp && p.Ok(sc) && temp.Length >= p.h && lpass + p.Size() <= f.Length
    modifies f, temp
    ensures ColsTo(p, sc, old(f[..]), f[..], lpass, p.w, 0)
  {
    hide ColsTo, ColsAt, LineOk, Hat, Plane.Size;
    ghost var before := f[..];
    ColsStart(p, sc, before, lpass);
    var col := 0;
    while col < p.w
      invariant 0 <= col <= p.w && ColsTo(p, sc, before, f[..], lpass, col, 0)
    {
      ColReady(p, sc, before, f[..], lpass, col);
      ghost var now := f[..];
      TapsMirror(now, lpass + col, p.w, p.h, sc);
      HatTransform(temp, f, lpass + col, p.w, p.h, sc);
      ColFiltered(p, sc, before, now, lpass, col, temp[..]);
      StoreCol(p, f, temp, lpass, sc, col, before);
      col := col + 1;
    }
  }

  lemma ColsStart(p: Plane, sc: nat, before: seq<real>, lpass: nat)
    requires p.Ok(sc) && lpass + p.Size() <= |before|
    ensures ColsTo(p, sc, before, before, lpass, 0, 0)
  {
    hide ColsAt;
    forall m | 0 <= m < |before| ensures before[m] == ColsExpected(p, sc, before, lpass, 0, 0, m) {
      if lpass <= m < lpass + p.Size() { CellOf(m - lpass, p.h, p.w); }
    }
  }

  /** A column that has not been filtered yet is the old one. */
  lemma ColReady(p: Plane, sc: nat, before: seq<real>, now: seq<real>, lpass: nat, col: nat)
    requires p.Ok(sc) && lpass + p.Size() <= |before| && col < p.w && ColsTo(p, sc, before, now, lpass, col, 0)
    ensures |now| == |before| && LineOk(now, lpass + col, p.w, p.h, sc)
    ensures forall row :: 0 <= row < p.h ==> SameInLine(p, before, now, lpass, col, row)
  {
    ColLine(p, before[lpass..lpass + p.Size()], sc, col);
    forall row | 0 <= row < p.h ensures SameInLine(p, before, now, lpass, col, row) {
      CellAt(row, col, p.h, p.w);
      Commute(p.w, row);
      hide ColsAt;
    }
  }

  ghost predicate SameInLine(p: Plane, before: seq<real>, now: seq<real>, lpass: nat, col: nat, row: nat) {
    0 <= p.w * row && lpass + col + p.w * row < |now| && |now| == |before| && now[lpass + col + p.w * row] == before[lpass + col + p.w * row]
  }

  ghost predicate ColTempIs(p: Plane, blk: seq<real>, sc: nat, col: nat, temp: seq<real>, row: nat)
    requires p.Ok(sc) && |blk| == p.Size()
  {
    row < |temp| && 0 <= row * p.w + col < p.Size() && temp[row] * 0.25 == ColsAt(p, blk, sc, row * p.w + col)
  }

  ghost predicate ColInTemp(p: Plane, blk: seq<real>, sc: nat, col: nat, temp: seq<real>)
    requires p.Ok(sc) && |blk| == p.Size()
  {
    forall row :: 0 <= row < p.h ==> ColTempIs(p, blk, sc, col, temp, row)
  }

  lemma ColFiltered(p: Plane, sc: nat, before: seq<real>, now: seq<real>, lpass: nat, col: nat, temp: seq<real>)
    requires p.Ok(sc) && lpass + p.Size() <= |before| == |now| && col < p.w && |temp| >= p.h
    requires LineOk(now, lpass + col, p.w, p.h, sc) && forall row :: 0 <= row < p.h ==> SameInLine(p, before, now, lpass, col, row)
    requires forall i :: 0 <= i < p.h ==> temp[i] == Hat(now, lpass + col, p.w, p.h, sc, i)
    ensures ColInTemp(p, before[lpass..lpass + p.Size()], sc, col, temp)
  {
    var blk := before[lpass..lpass + p.Size()];
    ColLine(p, blk, sc, col);
    forall row | 0 <= row < p.h ensures ColTempIs(p, blk, sc, col, temp, row) {
      CellAt(row, col, p.h, p.w);
      HatSame(p, sc, before, now, lpass, col, row);
      HatShift(before, lpass, p.Size(), col, p.w, p.h, sc, row);
      hide Hat;
    }
  }

  lemma HatSame(p: Plane, sc: nat, before: seq<real>, now: seq<real>, lpass: nat, col: nat, row: nat)
    requires p.Ok(sc) && |before| == |now| && row < p.h
    requires LineOk(now, lpass + col, p.w, p.h, sc) && forall row :: 0 <= row < p.h ==> SameInLine(p, before, now, lpass, col, row)
    ensures LineOk(before, lpass + col, p.w, p.h, sc)
    ensures Hat(now, lpass + col, p.w, p.h, sc, row) == Hat(before, lpass + col, p.w, p.h, sc, row)
  {
    var base := lpass + col;
    assert LineOk(before, base, p.w, p.h, sc);
    forall k | 0 <= k < p.h ensures At(now, base, p.w, p.h, k) == At(before, base, p.w, p.h, k) {
      assert SameInLine(p, before, now, lpass, col, k);
    }
    hide Hat, At, LineOk;
    SameHat(now, base, before, base, p.w, p.h, sc, row);
  }

  method StoreCol(p: Plane, f: array<real>, temp: array<real>, lpass: nat, sc: nat, col: nat, ghost before: seq<real>)
    requires f != temp && p.Ok(sc) && temp.Length >= p.h && lpass + p.Size() <= f.Length == |before| && col < p.w
    requires ColsTo(p, sc, before, f[..], lpass, col, 0) && ColInTemp(p, before[lpass..lpass + p.Size()], sc, col, temp[..])
    modifies f
    ensures ColsTo(p, sc, before, f[..], lpass, col + 1, 0)
  {
    hide ColsTo, ColsAt, Hat, Plane.Size;
    var row := 0;
    while row < p.h
      invariant 0 <= row <= p.h && ColsTo(p, sc, before, f[..], lpass, col, row)
    {
      ghost var was := f[..];
      assert ColTempIs(p, before[lpass..lpass + p.Size()], sc, col, temp[..], row);
      ColsStep(p, sc, before, was, lpass, col, row);
      f[lpass + row * p.w + col] := temp[row] * 0.25;
      assert f[..] == was[lpass + row * p.w + col := ColsAt(p, before[lpass..lpass + p.Size()], sc, row * p.w + col)];
      row := row + 1;
    }
    ColsNext(p, sc, before, f[..], lpass, col);
  }

  lemma ColsStep(p: Plane, sc: nat, before: seq<real>, now: seq<real>, lpass: nat, col: nat, row: nat)
    requires p.Ok(sc) && lpass + p.Size() <= |before| && row < p.h && col < p.w && ColsTo(p, sc, before, now, lpass, col, row)
    ensures 0 <= row * p.w + col < p.Size() && lpass + row * p.w + col < |now|
    ensures ColsTo(p, sc, before, now[lpass + row * p.w + col := ColsAt(p, before[lpass..lpass + p.Size()], sc, row * p.w + col)], lpass, col, row + 1)
  {
    CellAt(row, col, p.h, p.w);
    var at := lpass + row * p.w + col;
    var after := now[at := ColsAt(p, before[lpass..lpass + p.Size()], sc, row * p.w + col)];
    forall m | 0 <= m < |now| ensures after[m] == ColsExpected(p, sc, before, lpass, col, row + 1, m) {
      if lpass <= m < lpass + p.Size() { CellOf(m - lpass, p.h, p.w); }
      hide ColsAt, Plane.Size;
    }
  }

  lemma ColsNext(p: Plane, sc: nat, before: seq<real>, now: seq<real>, lpass: nat, col: nat)
    requires p.Ok(sc) && lpass + p.Size() <= |before| && ColsTo(p, sc, before, now, lpass, col, p.h)
    ensures ColsTo(p, sc, before, now, lpass, col + 1, 0)
  {
    forall m | 0 <= m < |now| ensures now[m] == ColsExpected(p, sc, before, lpass, col + 1, 0, m) {
      if lpass <= m < lpass + p.Size() { CellOf(m - lpass, p.h, p.w); }
      hide ColsAt, Plane.Size;
    }
  }

  // ---------------------------------------------------------------- levels

  /** The low pass of one level. */
  function Low(p: Plane, blk: seq<real>, lev: nat): (r: seq<real>)
    requires p.Ok(Pow2(lev)) && |blk| == p.Size()
    ensures |r| == |blk|
  {
    ColsLow(p, RowsLow(p, blk, Pow2(lev)), Pow2(lev))
  }

  lemma RowsBlock(p: Plane, sc: nat, before: seq<real>, now: seq<real>, hpass: nat, lpass: nat)
    requires p.Ok(sc) && hpass + p.Size() <= |before| && lpass + p.Size() <= |before|
    requires RowsTo(p, sc, before, now, hpass, lpass, p.h, 0)
    ensures |now| == |before| && now[lpass..lpass + p.Size()] == RowsLow(p, before[hpass..hpass + p.Size()], sc)
    ensures forall m :: 0 <= m < |now| && !(lpass <= m < lpass + p.Size()) ==> now[m] == before[m]
  {
    hide RowsAt;
  }

  lemma ColsBlock(p: Plane, sc: nat, before: seq<real>, now: seq<real>, lpass: nat)
    requires p.Ok(sc) && lpass + p.Size() <= |before| && ColsTo(p, sc, before, now, lpass, p.w, 0)
    ensures |now| == |before| && now[lpass..lpass + p.Size()] == ColsLow(p, before[lpass..lpass + p.Size()], sc)
    ensures forall m :: 0 <= m < |now| && !(lpass <= m < lpass + p.Size()) ==> now[m] == before[m]
  {
    hide ColsAt;
    var blk := before[lpass..lpass + p.Size()];
    forall m | 0 <= m < p.Size() ensures now[lpass..lpass + p.Size()][m] == ColsAt(p, blk, sc, m) {
      assert now[lpass + m] == ColsExpected(p, sc, before, lpass, p.w, 0, lpass + m);
      CellOf(m, p.h, p.w);
    }
  }

  /** Both passes of a level. */
  method LowPass(p: Plane, f: array<real>, temp: array<real>, hpass: nat, lpass: nat, lev: nat)
    requires f != temp && p.Ok(Pow2(lev)) && temp.Length >= p.w && temp.Length >= p.h
    requires hpass + p.Size() <= f.Length && lpass + p.Size() <= f.Length && Disjoint(p, hpass, lpass)
    modifies f, temp
    ensures f[lpass..lpass + p.Size()] == Low(p, old(f[hpass..hpass + p.Size()]), lev)
    ensures forall m :: 0 <= m < f.Length && !(lpass <= m < lpass + p.Size()) ==> f[m] == old(f[m])
  {
    hide RowsTo, ColsTo, RowsLow, ColsLow, Plane.Size, Pow2;
    ghost var before := f[..];
    var sc := Pow2(lev);
    FilterRows(p, f, temp, hpass, lpass, sc);
    ghost var mid := f[..];
    RowsBlock(p, sc, before, mid, hpass, lpass);
    FilterCols(p, f, temp, lpass, sc);
    ColsBlock(p, sc, mid, f[..], lpass);
    assert before[hpass..hpass + p.Size()] == old(f[hpass..hpass + p.Size()]);
    assert f[..][lpass..lpass + p.Size()] == f[lpass..lpass + p.Size()];
  }

  /** The soft threshold. */
  function Soft(d: real, t: real): real {
    if d < -t then d + t else if d > t then d - t else 0.0
  }

  lemma SoftNear(d: real, t: real)
    requires t >= 0.0
    ensures -t <= Soft(d, t) - d <= t
  {
  }

  /** The three blocks of the buffer. */
  predicate Blocks(n: nat, hpass: nat, lpass: nat) {
    (hpass == 0 || hpass == n || hpass == 2 * n) && (lpass == n || lpass == 2 * n) && hpass != lpass
  }

  function Kept(before: seq<real>, n: nat, hpass: nat, lpass: nat, thold: real, k: nat): real
    requires 3 * n <= |before| && Blocks(n, hpass, lpass) && k < n
  {
    Soft(before[hpass + k] - before[lpass + k], thold)
  }

  /** The buffer after `i` turns of the detail loop. */
  function ShrunkAt(before: seq<real>, n: nat, hpass: nat, lpass: nat, thold: real, i: nat, m: nat): real
    requires 3 * n <= |before| && Blocks(n, hpass, lpass) && i <= n && m < |before|
  {
    if m < i then (if hpass == 0 then Kept(before, n, hpass, lpass, thold, m) else before[m] + Kept(before, n, hpass, lpass, thold, m))
    else if hpass <= m < hpass + i then Kept(before, n, hpass, lpass, thold, m - hpass)
    else before[m]
  }

  ghost predicate ShrunkTo(before: seq<real>, now: seq<real>, n: nat, hpass: nat, lpass: nat, thold: real, i: nat)
    requires 3 * n <= |before| && Blocks(n, hpass, lpass) && i <= n
  {
    |now| == |before| && forall m :: 0 <= m < |now| ==> now[m] == ShrunkAt(before, n, hpass, lpass, thold, i, m)
  }

  lemma ShrinkStep(before: seq<real>, now: seq<real>, n: nat, hpass: nat, lpass: nat, thold: real, i: nat)
    requires 3 * n <= |before| && Blocks(n, hpass, lpass) && i < n && ShrunkTo(before, now, n, hpass, lpass, thold, i)
    ensures hpass + i < |now| && lpass + i < |now| && i < |now|
    ensures var s := Soft(now[hpass + i] - now[lpass + i], thold);
            var mid := now[hpass + i := s];
            ShrunkTo(before, if hpass != 0 then mid[i := mid[i] + s] else mid, n, hpass, lpass, thold, i + 1)
  {
    hide Soft;
  }

  /** The detail loop: what is left of the details after the threshold goes to the first block. */
  method Shrink(f: array<real>, n: nat, hpass: nat, lpass: nat, thold: real)
    requires 3 * n <= f.Length && Blocks(n, hpass, lpass)
    modifies f
    ensures ShrunkTo(old(f[..]), f[..], n, hpass, lpass, thold, n)
  {
    hide Soft, ShrunkTo;
    ghost var before := f[..];
    assert ShrunkTo(before, before, n, hpass, lpass, thold, 0) by { NotShrunk(before, n, hpass, lpass, thold); }
    var i := 0;
    while i < n
      invariant 0 <= i <= n && ShrunkTo(before, f[..], n, hpass, lpass, thold, i)
    {
      ghost var was := f[..];
      ShrinkStep(before, was, n, hpass, lpass, thold, i);
      f[hpass + i] := f[hpass + i] - f[lpass + i];
      f[hpass + i] := Threshold(f[hpass + i], thold);
      ghost var s := Soft(was[hpass + i] - was[lpass + i], thold);
      assert f[..] == was[hpass + i := s];
      if hpass != 0 { f[i] := f[i] + f[hpass + i]; }
      i := i + 1;
    }
  }

  lemma NotShrunk(before: seq<real>, n: nat, hpass: nat, lpass: nat, thold: real)
    requires 3 * n <= |before| && Blocks(n, hpass, lpass)
    ensures ShrunkTo(before, before, n, hpass, lpass, thold, 0)
  {
  }

  /** `if (x < -thold) x += thold; else if (x > thold) x -= thold; else x = 0;` */
  method Threshold(x: real, thold: real) returns (r: real)
    ensures r == Soft(x, thold)
  {
    if x < -thold { r := x + thold; } else if x > thold { r := x - thold; } else { r := 0.0; }
  }

  // ---------------------------------------------------------------- the error bound

  /** The low pass after `lev` levels, and the shrunken details of those levels added up. */
  function LowAt(p: Plane, x: seq<real>, lev: nat): (r: seq<real>)
    requires lev <= 5 && p.Ok(16) && |x| == p.Size()
    ensures |r| == |x|
  {
    if lev == 0 then x else ScaleOk(p, lev - 1); Low(p, LowAt(p, x, lev - 1), lev - 1)
  }

  lemma ScaleOk(p: Plane, lev: nat)
    requires p.Ok(16) && lev < 5
    ensures p.Ok(Pow2(lev))
  {
    var four := 4;
    Pow2Monotone(lev, four);
    Pow2Of(four);
  }

  function Details(p: Plane, x: seq<real>, tholds: seq<real>, lev: nat, m: nat): real
    requires lev <= 5 == |tholds| && p.Ok(16) && |x| == p.Size() && m < |x|
  {
    if lev == 0 then 0.0
    else Details(p, x, tholds, lev - 1, m) + Soft(LowAt(p, x, lev - 1)[m] - LowAt(p, x, lev)[m], tholds[lev - 1])
  }

  function Total(tholds: seq<real>, lev: nat): real
    requires lev <= |tholds|
  {
    if lev == 0 then 0.0 else Total(tholds, lev - 1) + tholds[lev - 1]
  }

  /** The details telescope: what the thresholds took away is all that is missing. */
  lemma {:induction false} ErrorBound(p: Plane, x: seq<real>, tholds: seq<real>, lev: nat, m: nat)
    requires lev <= 5 == |tholds| && p.Ok(16) && |x| == p.Size() && m < |x|
    requires forall l :: 0 <= l < 5 ==> tholds[l] >= 0.0
    ensures -Total(tholds, lev) <= Details(p, x, tholds, lev, m) + LowAt(p, x, lev)[m] - x[m] <= Total(tholds, lev)
  {
    hide LowAt, Soft;
    if lev == 0 {
      LowZero(p, x);
    } else {
      ErrorBound(p, x, tholds, lev - 1, m);
      SoftNear(LowAt(p, x, lev - 1)[m] - LowAt(p, x, lev)[m], tholds[lev - 1]);
    }
  }

  lemma LowZero(p: Plane, x: seq<real>)
    requires p.Ok(16) && |x| == p.Size()
    ensures LowAt(p, x, 0) == x
  {
  }

  // ---------------------------------------------------------------- all five levels

  /** The noise table, as far as the five levels use it. */
  function Noise(lev: nat): real
    requires lev < 5
  {
    if lev == 0 then 0.8002 else if lev == 1 then 0.2735 else if lev == 2 then 0.1202 else if lev == 3 then 0.0585 else 0.0291
  }

  function Tholds(threshold: real): (t: seq<real>)
    ensures |t| == 5
  {
    seq(5, l requires 0 <= l < 5 => threshold * Noise(l))
  }

  lemma TholdsNatural(threshold: real)
    requires threshold >= 0.0
    ensures forall l :: 0 <= l < 5 ==> Tholds(threshold)[l] >= 0.0
  {
    forall l | 0 <= l < 5 ensures Tholds(threshold)[l] >= 0.0 { RealProduct(threshold, Noise(l)); }
  }

  /** `lpass = size*((lev & 1)+1)`; what a level reads is what the one before has written. */
  function LowBlock(n: nat, lev: nat): nat { if lev % 2 == 0 then n else 2 * n }

  function HighBlock(n: nat, lev: nat): nat { if lev == 0 then 0 else LowBlock(n, lev - 1) }

  /** Block `o` of the buffer. */
  ghost predicate Holds(f: seq<real>, o: nat, blk: seq<real>) { o + |blk| <= |f| && f[o..o + |blk|] == blk }

  lemma HoldsAt(f: seq<real>, o: nat, blk: seq<real>, m: nat)
    requires Holds(f, o, blk) && m < |blk|
    ensures o + m < |f| && f[o + m] == blk[m]
  {
    assert f[o..o + |blk|][m] == f[o + m];
  }

  /** The buffer before level `lev`: the low pass in its block, the details in the first one. */
  ghost predicate Stage(p: Plane, x: seq<real>, tholds: seq<real>, f: seq<real>, lev: nat)
    requires lev <= 5 == |tholds| && p.Ok(16) && |x| == p.Size()
  {
    var n, h := p.Size(), HighBlock(p.Size(), lev);
    && 3 * n <= |f| && Holds(f, h, LowAt(p, x, lev))
    && (lev > 0 ==> forall m :: 0 <= m < n ==> f[m] == Details(p, x, tholds, lev, m))
  }

  /** A byte of the first block after a level. */
  lemma StageByte(p: Plane, x: seq<real>, tholds: seq<real>, before: seq<real>, mid: seq<real>, now: seq<real>, lev: nat, n: nat, h: nat, l: nat, m: nat)
    requires lev < 5 == |tholds| && p.Ok(16) && |x| == p.Size() == n && 3 * n <= |before| == |mid| && m < n
    requires Blocks(n, h, l) && (h == 0 <==> lev == 0) && ShrunkTo(mid, now, n, h, l, tholds[lev], n)
    requires before[h + m] == LowAt(p, x, lev)[m] && mid[l + m] == LowAt(p, x, lev + 1)[m]
    requires mid[h + m] == before[h + m] && mid[m] == before[m] && (lev > 0 ==> before[m] == Details(p, x, tholds, lev, m))
    ensures |now| == |mid| && now[m] == Details(p, x, tholds, lev + 1, m)
  {
    hide LowAt, Soft, Plane.Size;
    assert now[m] == ShrunkAt(mid, n, h, l, tholds[lev], n, m);
  }

  lemma LowKept(mid: seq<real>, now: seq<real>, blk: seq<real>, h: nat, l: nat, thold: real)
    requires 3 * |blk| <= |mid| && Blocks(|blk|, h, l) && ShrunkTo(mid, now, |blk|, h, l, thold, |blk|) && Holds(mid, l, blk)
    ensures |now| == |mid| && Holds(now, l, blk)
  {
    hide Soft;
    var a, n := now[l..l + |blk|], |blk|;
    forall m | 0 <= m < n ensures a[m] == blk[m] {
      HoldsAt(mid, l, blk, m);
      assert now[l + m] == ShrunkAt(mid, n, h, l, thold, n, l + m);
    }
  }

  lemma Apart(n: nat, h: nat, l: nat, m: nat)
    requires Blocks(n, h, l) && m < n
    ensures !(l <= m < l + n) && !(l <= h + m < l + n) && h + m < 3 * n && l + n <= 3 * n
  {
  }

  lemma StageStep(p: Plane, x: seq<real>, tholds: seq<real>, before: seq<real>, mid: seq<real>, now: seq<real>, lev: nat)
    requires lev < 5 == |tholds| && p.Ok(16) && |x| == p.Size() && Stage(p, x, tholds, before, lev)
    requires var n, l := p.Size(), LowBlock(p.Size(), lev);
             && |mid| == |before| && Blocks(n, HighBlock(n, lev), l)
             && Holds(mid, l, LowAt(p, x, lev + 1))
             && (forall m :: 0 <= m < |mid| && !(l <= m < l + n) ==> mid[m] == before[m])
             && ShrunkTo(mid, now, n, HighBlock(n, lev), l, tholds[lev], n)
    ensures Stage(p, x, tholds, now, lev + 1)
  {
    var n, h, l := p.Size(), HighBlock(p.Size(), lev), LowBlock(p.Size(), lev);
    hide LowAt, Soft, Plane.Size, Details, ShrunkTo, Blocks, Holds;
    LowKept(mid, now, LowAt(p, x, lev + 1), h, l, tholds[lev]);
    forall m | 0 <= m < n ensures now[m] == Details(p, x, tholds, lev + 1, m) {
      HoldsAt(before, h, LowAt(p, x, lev), m);
      HoldsAt(mid, l, LowAt(p, x, lev + 1), m);
      Apart(n, h, l, m);
      StageByte(p, x, tholds, before, mid, now, lev, n, h, l, m);
    }
  }

  /** The levels of wavelet_denoise for one colour, and the sum of the details and the last low
      pass, before it is squared and clipped. The result differs from the input by no more than
      the thresholds of the five levels together; with a threshold of 0 it is the input. */
  method Denoise(p: Plane, f: array<real>, temp: array<real>, threshold: real, out: array<real>, ghost x: seq<real>)
    requires f != temp && out != f && p.Ok(16) && f.Length >= 3 * p.Size() && temp.Length >= p.w + p.h && out.Length == p.Size()
    requires f[..p.Size()] == x
    modifies f, temp, out
    ensures forall m :: 0 <= m < out.Length ==> out[m] == Details(p, x, Tholds(threshold), 5, m) + LowAt(p, x, 5)[m]
    ensures threshold >= 0.0 ==>
              forall m :: 0 <= m < out.Length ==> -Total(Tholds(threshold), 5) <= out[m] - x[m] <= Total(Tholds(threshold), 5)
    ensures threshold == 0.0 ==> out[..] == x
  {
    hide LowAt, Low, ShrunkTo, Plane.Size, Stage, Tholds, Details, Total;
    FirstStage(p, x, Tholds(threshold), f[..]);
    var n := p.Size();
    var hpass, lev := 0, 0;
    while lev < 5
      invariant 0 <= lev <= 5 && hpass == HighBlock(n, lev)
      invariant Stage(p, x, Tholds(threshold), f[..], lev)
    {
      var lpass := n * (lev % 2 + 1);
      OneLevel(p, f, temp, threshold, lev, hpass, lpass, x);
      hpass := lpass;
      lev := lev + 1;
    }
    Collect(p, f, out, threshold, hpass, x);
    Outcome(p, x, threshold, out[..]);
  }

  lemma Outcome(p: Plane, x: seq<real>, threshold: real, out: seq<real>)
    requires p.Ok(16) && |x| == |out| == p.Size()
    requires forall m :: 0 <= m < |out| ==> out[m] == Details(p, x, Tholds(threshold), 5, m) + LowAt(p, x, 5)[m]
    ensures threshold >= 0.0 ==>
              forall m :: 0 <= m < |out| ==> -Total(Tholds(threshold), 5) <= out[m] - x[m] <= Total(Tholds(threshold), 5)
    ensures threshold == 0.0 ==> out == x
  {
    hide LowAt, Plane.Size, Tholds, Details;
    if threshold >= 0.0 { TholdsNatural(threshold); }
    forall m | 0 <= m < |out|
      ensures threshold >= 0.0 ==> -Total(Tholds(threshold), 5) <= out[m] - x[m] <= Total(Tholds(threshold), 5)
    {
      if threshold >= 0.0 { ErrorBound(p, x, Tholds(threshold), 5, m); }
    }
    if threshold == 0.0 { NoThreshold(5); }
  }

  method OneLevel(p: Plane, f: array<real>, temp: array<real>, threshold: real, lev: nat, hpass: nat, lpass: nat, ghost x: seq<real>)
    requires f != temp && p.Ok(16) && f.Length >= 3 * p.Size() && temp.Length >= p.w + p.h && lev < 5 && |x| == p.Size()
    requires hpass == HighBlock(p.Size(), lev) && lpass == LowBlock(p.Size(), lev) && Stage(p, x, Tholds(threshold), f[..], lev)
    modifies f, temp
    ensures Stage(p, x, Tholds(threshold), f[..], lev + 1)
  {
    hide Low, ShrunkTo, Plane.Size, Tholds, Pow2;
    ScaleOk(p, lev);
    ghost var before := f[..];
    BlocksApart(p, lev);
    LowPass(p, f, temp, hpass, lpass, lev);
    ghost var mid := f[..];
    var thold := Tholds(threshold)[lev];
    Shrink(f, p.Size(), hpass, lpass, thold);
    assert before[hpass..hpass + p.Size()] == LowAt(p, x, lev);
    assert mid[lpass..lpass + p.Size()] == LowAt(p, x, lev + 1);
    StageStep(p, x, Tholds(threshold), before, mid, f[..], lev);
  }

  lemma BlocksApart(p: Plane, lev: nat)
    requires p.Ok(16)
    ensures var n, h, l := p.Size(), HighBlock(p.Size(), lev), LowBlock(p.Size(), lev);
            Blocks(n, h, l) && h + n <= 3 * n && l + n <= 3 * n && Disjoint(p, h, l)
  {
    CellAt(p.h - 1, p.w - 1, p.h, p.w);
  }

  lemma FirstStage(p: Plane, x: seq<real>, tholds: seq<real>, f: seq<real>)
    requires |tholds| == 5 && p.Ok(16) && |f| >= 3 * p.Size() && f[..p.Size()] == x
    ensures Stage(p, x, tholds, f, 0)
  {
    LowZero(p, x);
    hide LowAt;
  }

  /** `fimg[i] + fimg[lpass+i]` */
  method Collect(p: Plane, f: array<real>, out: array<real>, threshold: real, lpass: nat, ghost x: seq<real>)
    requires out != f && p.Ok(16) && f.Length >= 3 * p.Size() && out.Length == p.Size() == |x| && lpass == HighBlock(p.Size(), 5)
    requires Stage(p, x, Tholds(threshold), f[..], 5)
    modifies out
    ensures forall m :: 0 <= m < out.Length ==> out[m] == Details(p, x, Tholds(threshold), 5, m) + LowAt(p, x, 5)[m]
  {
    hide LowAt, Details, Plane.Size, Tholds;
    var i := 0;
    while i < out.Length
      invariant 0 <= i <= out.Length
      invariant forall m :: 0 <= m < i ==> out[m] == Details(p, x, Tholds(threshold), 5, m) + LowAt(p, x, 5)[m]
    {
      HoldsAt(f[..], lpass, LowAt(p, x, 5), i);
      out[i] := f[i] + f[lpass + i];
      i := i + 1;
    }
  }

  lemma {:induction false} NoThreshold(lev: nat)
    requires lev <= 5
    ensures Total(Tholds(0.0), lev) == 0.0
  {
    if lev > 0 { NoThreshold(lev - 1); }
  }

  // ---------------------------------------------------------------- constant and mirrored images

  ghost predicate Constant(x: seq<real>, v: real) { forall m :: 0 <= m < |x| ==> x[m] == v }

  lemma LineConstant(p: Plane, x: seq<real>, base: nat, st: nat, size: nat, sc: nat, i: nat, v: real)
    requires LineOk(x, base, st, size, sc) && i < size && Constant(x, v)
    ensures Hat(x, base, st, size, sc, i) * 0.25 == v
  {
    forall k | 0 <= k < size ensures At(x, base, st, size, k) == v { InLine(st, size, k); }
    HatConstant(x, base, st, size, sc, i, v);
    hide Hat;
  }

  lemma LowConstant(p: Plane, x: seq<real>, sc: nat, v: real)
    requires p.Ok(sc) && |x| == p.Size() && Constant(x, v)
    ensures Constant(RowsLow(p, x, sc), v) && Constant(ColsLow(p, x, sc), v)
  {
    hide Hat, Plane.Size;
    forall m | 0 <= m < |x| ensures RowsLow(p, x, sc)[m] == v && ColsLow(p, x, sc)[m] == v {
      PlaneCells(p, |x|, m);
      RowLine(p, x, sc, m / p.w);
      ColLine(p, x, sc, m % p.w);
      LineConstant(p, x, m / p.w * p.w, 1, p.w, sc, m % p.w, v);
      LineConstant(p, x, m % p.w, p.w, p.h, sc, m / p.w, v);
    }
  }

  lemma PlaneCells(p: Plane, n: nat, m: nat)
    requires n == p.Size() && m < n
    ensures p.w > 0 && 0 <= m / p.w < p.h && 0 <= m % p.w < p.w && m / p.w * p.w >= 0
  {
    CellOf(m, p.h, p.w);
  }

  /** A constant image stays as it is, for any thresholds that are not negative. */
  lemma {:induction false} ConstantKept(p: Plane, x: seq<real>, tholds: seq<real>, lev: nat, m: nat, v: real)
    requires lev <= 5 == |tholds| && p.Ok(16) && |x| == p.Size() && m < |x| && Constant(x, v)
    requires forall l :: 0 <= l < 5 ==> tholds[l] >= 0.0
    ensures Constant(LowAt(p, x, lev), v) && Details(p, x, tholds, lev, m) == 0.0
  {
    hide RowsLow, ColsLow, Plane.Size, Pow2;
    if lev > 0 {
      ConstantKept(p, x, tholds, lev - 1, m, v);
      ScaleOk(p, lev - 1);
      LowConstant(p, LowAt(p, x, lev - 1), Pow2(lev - 1), v);
      LowConstant(p, RowsLow(p, LowAt(p, x, lev - 1), Pow2(lev - 1)), Pow2(lev - 1), v);
    }
  }

  /** `y` is `x` with left and right exchanged. */
  ghost predicate Mirrored(p: Plane, x: seq<real>, y: seq<real>)
    requires p.w > 0 && |x| == |y| == p.Size()
  {
    forall r, c :: 0 <= r < p.h && 0 <= c < p.w ==> Cell(p, y, r, c) == Cell(p, x, r, p.w - 1 - c)
  }

  function Cell(p: Plane, x: seq<real>, r: nat, c: nat): real
    requires |x| == p.Size() && r < p.h && c < p.w
  {
    CellAt(r, c, p.h, p.w);
    x[r * p.w + c]
  }

  /** A row and a column of an image, as the filter reads them. */
  lemma LineCells(p: Plane, x: seq<real>, sc: nat, r: nat, c: nat)
    requires p.Ok(sc) && |x| == p.Size() && r < p.h && c < p.w
    ensures 0 <= r * p.w && LineOk(x, r * p.w, 1, p.w, sc) && LineOk(x, c, p.w, p.h, sc)
    ensures At(x, r * p.w, 1, p.w, c) == Cell(p, x, r, c) && At(x, c, p.w, p.h, r) == Cell(p, x, r, c)
    ensures Cell(p, RowsLow(p, x, sc), r, c) == Hat(x, r * p.w, 1, p.w, sc, c) * 0.25
    ensures Cell(p, ColsLow(p, x, sc), r, c) == Hat(x, c, p.w, p.h, sc, r) * 0.25
  {
    RowLine(p, x, sc, r);
    ColLine(p, x, sc, c);
    CellAt(r, c, p.h, p.w);
    Commute(p.w, r);
    hide Hat;
  }

  lemma SameHat(f: seq<real>, base: nat, g: seq<real>, base': nat, st: nat, size: nat, sc: nat, i: nat)
    requires LineOk(f, base, st, size, sc) && LineOk(g, base', st, size, sc) && i < size
    requires forall k :: 0 <= k < size ==> At(f, base, st, size, k) == At(g, base', st, size, k)
    ensures Hat(f, base, st, size, sc, i) == Hat(g, base', st, size, sc, i)
  {
    hide At;
  }

  lemma LowMirrored(p: Plane, x: seq<real>, y: seq<real>, sc: nat)
    requires p.Ok(sc) && |x| == |y| == p.Size() && Mirrored(p, x, y)
    ensures Mirrored(p, RowsLow(p, x, sc), RowsLow(p, y, sc)) && Mirrored(p, ColsLow(p, x, sc), ColsLow(p, y, sc))
  {
    hide Hat, Plane.Size, At, RowsLow, ColsLow, Cell, LineOk;
    forall r, c | 0 <= r < p.h && 0 <= c < p.w
      ensures Cell(p, RowsLow(p, y, sc), r, c) == Cell(p, RowsLow(p, x, sc), r, p.w - 1 - c)
      ensures Cell(p, ColsLow(p, y, sc), r, c) == Cell(p, ColsLow(p, x, sc), r, p.w - 1 - c)
    {
      CellMirrored(p, x, y, sc, r, c);
    }
  }

  lemma CellMirrored(p: Plane, x: seq<real>, y: seq<real>, sc: nat, r: nat, c: nat)
    requires p.Ok(sc) && |x| == |y| == p.Size() && Mirrored(p, x, y) && r < p.h && c < p.w
    ensures Cell(p, RowsLow(p, y, sc), r, c) == Cell(p, RowsLow(p, x, sc), r, p.w - 1 - c)
    ensures Cell(p, ColsLow(p, y, sc), r, c) == Cell(p, ColsLow(p, x, sc), r, p.w - 1 - c)
  {
    hide Hat, Plane.Size, At, RowsLow, ColsLow, Cell;
    var d := p.w - 1 - c;
    LineCells(p, x, sc, r, d);
    LineCells(p, y, sc, r, c);
    forall k | 0 <= k < p.w ensures At(y, r * p.w, 1, p.w, k) == At(x, r * p.w, 1, p.w, p.w - 1 - k) {
      LineCells(p, y, sc, r, k);
      LineCells(p, x, sc, r, p.w - 1 - k);
    }
    HatReversed(x, y, r * p.w, 1, p.w, sc, c);
    forall k | 0 <= k < p.h ensures At(y, c, p.w, p.h, k) == At(x, d, p.w, p.h, k) {
      LineCells(p, y, sc, k, c);
      LineCells(p, x, sc, k, d);
    }
    SameHat(y, c, x, d, p.w, p.h, sc, r);
  }

  /** Denoising a mirrored image gives the mirrored result: neither end of a line is favoured. */
  lemma {:induction false} MirrorKept(p: Plane, x: seq<real>, y: seq<real>, tholds: seq<real>, lev: nat, r: nat, c: nat)
    requires lev <= 5 == |tholds| && p.Ok(16) && |x| == |y| == p.Size() && Mirrored(p, x, y) && r < p.h && c < p.w
    ensures Mirrored(p, LowAt(p, x, lev), LowAt(p, y, lev))
    ensures var m, k := r * p.w + c, r * p.w + (p.w - 1 - c);
            0 <= m < |y| && 0 <= k < |x| && Details(p, y, tholds, lev, m) == Details(p, x, tholds, lev, k)
  {
    hide RowsLow, ColsLow, Plane.Size, Plane.Ok, Pow2, Soft, Cell, Mirrored;
    CellInPlane(p, |x|, r, c);
    CellInPlane(p, |x|, r, p.w - 1 - c);
    if lev > 0 {
      MirrorKept(p, x, y, tholds, lev - 1, r, c);
      ScaleOk(p, lev - 1);
      var sc, a, b := Pow2(lev - 1), LowAt(p, x, lev - 1), LowAt(p, y, lev - 1);
      LowMirrored(p, a, b, sc);
      LowMirrored(p, RowsLow(p, a, sc), RowsLow(p, b, sc), sc);
      MirroredAt(p, a, b, r, c);
      MirroredAt(p, LowAt(p, x, lev), LowAt(p, y, lev), r, c);
    }
  }

  lemma MirroredAt(p: Plane, x: seq<real>, y: seq<real>, r: nat, c: nat)
    requires p.w > 0 && |x| == |y| == p.Size() && Mirrored(p, x, y) && r < p.h && c < p.w
    ensures var m, k := r * p.w + c, r * p.w + (p.w - 1 - c); 0 <= m < |y| && 0 <= k < |x| && y[m] == x[k]
  {
    CellInPlane(p, |x|, r, c);
    CellInPlane(p, |x|, r, p.w - 1 - c);
    assert Cell(p, y, r, c) == Cell(p, x, r, p.w - 1 - c);
    hide Plane.Size;
  }

  lemma CellInPlane(p: Plane, n: nat, r: nat, c: nat)
    requires n == p.Size() && r < p.h && c < p.w
    ensures 0 <= r * p.w + c < n
  {
    CellAt(r, c, p.h, p.w);
  }
}
