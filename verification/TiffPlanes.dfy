/** Interleaved samples and separate planes in tiffcp: the two copy loops, and exactly when
    scattering a block into planes and gathering them again restores it. */
module TiffPlanes {
  import opened Bits
  import opened TiffTiles

  /** A copy of `rows` by `cols` samples of `n` bytes: where they start, how far apart rows and
      samples are in the destination and in the source. */
  datatype Grid = Grid(o: nat, os: nat, op: nat, i: nat, iss: nat, ip: nat, rows: nat, cols: nat, n: nat) {
    predicate Ok(olen: nat, ilen: nat) {
      && 1 <= n <= op && n <= ip && cols * op <= os && cols * ip <= iss
      && (rows > 0 && cols > 0 ==>
            o + (rows - 1) * os + (cols - 1) * op + n <= olen && i + (rows - 1) * iss + (cols - 1) * ip + n <= ilen)
    }

    function To(y: nat, x: nat, k: nat): int { o + y * os + x * op + k }
    function From(y: nat, x: nat, k: nat): int { i + y * iss + x * ip + k }
  }

  lemma Inside(b: Grid, olen: nat, ilen: nat, y: nat, x: nat, k: nat)
    requires b.Ok(olen, ilen) && y < b.rows && x < b.cols && k < b.n
    ensures 0 <= b.To(y, x, k) < olen && 0 <= b.From(y, x, k) < ilen
  {
    Smaller(y, b.rows - 1, b.os);
    Smaller(y, b.rows - 1, b.iss);
    Smaller(x, b.cols - 1, b.op);
    Smaller(x, b.cols - 1, b.ip);
    Smaller(0, y, b.os);
    Smaller(0, y, b.iss);
    Smaller(0, x, b.op);
    Smaller(0, x, b.ip);
  }

  /** Row, sample and byte of a destination place. */
  function Spot(b: Grid, m: nat): (r: Option<(nat, nat, nat)>)
    ensures r.Some? ==> r.value.0 < b.rows && r.value.1 < b.cols && r.value.2 < b.n
  {
    if m < b.o || b.os == 0 || b.op == 0 then None
    else
      DivNonNegative(m - b.o, b.os);
      DivNonNegative((m - b.o) % b.os, b.op);
      var q, r := (m - b.o) / b.os, (m - b.o) % b.os;
      if q < b.rows && r / b.op < b.cols && r % b.op < b.n then Some((q, r / b.op, r % b.op)) else None
  }

  lemma SpotOf(b: Grid, y: nat, x: nat, k: nat)
    requires 1 <= b.n <= b.op && b.cols * b.op <= b.os && y < b.rows && x < b.cols && k < b.n
    ensures b.To(y, x, k) >= 0 && Spot(b, b.To(y, x, k)) == Some((y, x, k))
  {
    Smaller(x + 1, b.cols, b.op);
    Distribute(x, 1, b.op);
    Smaller(0, x, b.op);
    Smaller(0, y, b.os);
    DivUnique(y * b.os + (x * b.op + k), b.os, y, x * b.op + k);
    DivUnique(x * b.op + k, b.op, x, k);
  }

  lemma SpotBack(b: Grid, m: nat)
    requires Spot(b, m).Some?
    ensures var (y, x, k) := Spot(b, m).value; m == b.To(y, x, k)
  {
    var q, r := (m - b.o) / b.os, (m - b.o) % b.os;
    assert m - b.o == q * b.os + r;
    assert r == (r / b.op) * b.op + r % b.op;
  }

  /** Order of the copying. */
  predicate Earlier(s: (nat, nat, nat), y: nat, x: nat, k: nat) {
    s.0 < y || (s.0 == y && (s.1 < x || (s.1 == x && s.2 < k)))
  }

  function CopiedAt(b: Grid, out: seq<byte>, src: seq<byte>, y: nat, x: nat, k: nat, m: nat): byte
    requires b.Ok(|out|, |src|) && m < |out|
  {
    match Spot(b, m)
    case None => out[m]
    case Some(s) =>
      Inside(b, |out|, |src|, s.0, s.1, s.2);
      if Earlier(s, y, x, k) then src[b.From(s.0, s.1, s.2)] else out[m]
  }

  /** The destination after the samples before (y, x) and `k` bytes of that one are copied. */
  ghost predicate Copied(b: Grid, out: seq<byte>, src: seq<byte>, now: seq<byte>, y: nat, x: nat, k: nat)
    requires b.Ok(|out|, |src|)
  {
    |now| == |out| && forall m :: 0 <= m < |now| ==> now[m] == CopiedAt(b, out, src, y, x, k, m)
  }

  lemma Step(b: Grid, out: seq<byte>, src: seq<byte>, now: seq<byte>, y: nat, x: nat, k: nat)
    requires b.Ok(|out|, |src|) && Copied(b, out, src, now, y, x, k) && y < b.rows && x < b.cols && k < b.n
    ensures 0 <= b.To(y, x, k) < |now| && 0 <= b.From(y, x, k) < |src|
    ensures Copied(b, out, src, now[b.To(y, x, k) := src[b.From(y, x, k)]], y, x, k + 1)
  {
    Inside(b, |out|, |src|, y, x, k);
    SpotOf(b, y, x, k);
    var after := now[b.To(y, x, k) := src[b.From(y, x, k)]];
    forall m | 0 <= m < |now| ensures after[m] == CopiedAt(b, out, src, y, x, k + 1, m) {
      if Spot(b, m).Some? { SpotBack(b, m); }
      hide Spot, Grid.To, Grid.From;
    }
  }

  lemma Carry(b: Grid, out: seq<byte>, src: seq<byte>, now: seq<byte>, y: nat, x: nat, k: nat, y': nat, x': nat, k': nat)
    requires b.Ok(|out|, |src|) && Copied(b, out, src, now, y, x, k)
    requires forall s :: Spot3(b, s) ==> Earlier(s, y, x, k) == Earlier(s, y', x', k')
    ensures Copied(b, out, src, now, y', x', k')
  {
    hide Grid.To, Grid.From;
    forall m | 0 <= m < |now| ensures now[m] == CopiedAt(b, out, src, y', x', k', m) {
      if Spot(b, m).Some? { assert Spot3(b, Spot(b, m).value); }
      hide Spot;
    }
  }

  predicate Spot3(b: Grid, s: (nat, nat, nat)) { s.0 < b.rows && s.1 < b.cols && s.2 < b.n }

  /** One sample: `while (n--) *out++ = *in++;` */
  method CopySample(out: array<byte>, op: nat, src: array<byte>, ip: nat, n: nat, b: Grid, y: nat, x: nat, ghost before: seq<byte>)
    requires out != src && b.Ok(|before|, src.Length) && y < b.rows && x < b.cols && n == b.n
    requires op == b.To(y, x, 0) && ip == b.From(y, x, 0) && Copied(b, before, src[..], out[..], y, x, 0)
    modifies out
    ensures Copied(b, before, src[..], out[..], y, x + 1, 0)
  {
    hide Copied, Grid.Ok;
    var k := 0;
    while k < n
      invariant 0 <= k <= n && Copied(b, before, src[..], out[..], y, x, k)
    {
      ghost var was := out[..];
      Step(b, before, src[..], was, y, x, k);
      SameSize(b, before, src[..], was, y, x, k);
      out[op + k] := src[ip + k];
      assert out[..] == was[op + k := src[..][ip + k]];
      k := k + 1;
    }
    Carry(b, before, src[..], out[..], y, x, n, y, x + 1, 0);
  }

  lemma SameSize(b: Grid, out: seq<byte>, src: seq<byte>, now: seq<byte>, y: nat, x: nat, k: nat)
    requires b.Ok(|out|, |src|) && Copied(b, out, src, now, y, x, k)
    ensures |now| == |out|
  {
  }

  lemma Nothing(b: Grid, out: seq<byte>, src: seq<byte>)
    requires b.Ok(|out|, |src|)
    ensures Copied(b, out, src, out, 0, 0, 0)
  {
    hide Spot, Grid.To, Grid.From;
    forall m | 0 <= m < |out| ensures out[m] == CopiedAt(b, out, src, 0, 0, 0, m) {
    }
  }

  /** cpContigBufToSeparateBuf and cpSeparateBufToContigBuf: `oskip` and `iskip` are the bytes
      of the other samples, skipped after each copied one. */
  method CopyPlane(out: array<byte>, o: nat, src: array<byte>, i: nat, rows: nat, cols: nat, outskew: int, inskew: int,
                   oskip: nat, iskip: nat, n: nat, b: Grid)
    requires out != src && b.Ok(out.Length, src.Length)
    requires b.o == o && b.i == i && b.rows == rows && b.cols == cols && b.n == n && b.op == n + oskip && b.ip == n + iskip
    requires b.os == cols * b.op + outskew && b.iss == cols * b.ip + inskew
    modifies out
    ensures Copied(b, old(out[..]), src[..], out[..], rows, 0, 0)
  {
    hide Copied, Grid.Ok;
    ghost var before := out[..];
    Nothing(b, before, src[..]);
    var op, ip, y := o, i, 0;
    while y < rows
      invariant 0 <= y <= rows && op == o + y * b.os && ip == i + y * b.iss
      invariant Copied(b, before, src[..], out[..], y, 0, 0)
    {
      var x := 0;
      while x < cols
        invariant 0 <= x <= cols && op == o + y * b.os + x * b.op && ip == i + y * b.iss + x * b.ip
        invariant Copied(b, before, src[..], out[..], y, x, 0)
      {
        CopySample(out, op, src, ip, n, b, y, x, before);
        Distribute(x, 1, b.op);
        Distribute(x, 1, b.ip);
        op, ip, x := op + n + oskip, ip + n + iskip, x + 1;
      }
      Carry(b, before, src[..], out[..], y, cols, 0, y + 1, 0, 0);
      Distribute(y, 1, b.os);
      Distribute(y, 1, b.iss);
      op, ip, y := op + outskew, ip + inskew, y + 1;
    }
  }

  // ---------------------------------------------------------------- planes

  /** A block of an interleaved image at `base`, rows `stride` apart, and planes whose rows are
      `tilew` apart. */
  datatype Planes = Planes(base: nat, stride: nat, tilew: nat, rows: nat, cols: nat, spp: nat, bytes: nat) {
    predicate Ok(length: nat) {
      && spp >= 1 && bytes >= 1 && cols * (spp * bytes) <= stride && cols * bytes <= tilew
      && (rows > 0 && cols > 0 ==> base + (rows - 1) * stride + (cols - 1) * (spp * bytes) + spp * bytes <= length)
    }

    /** The block's pixels, `spp * bytes` bytes each. */
    function Pixels(): Grid { Grid(base, stride, spp * bytes, base, stride, spp * bytes, rows, cols, spp * bytes) }

    /** Where plane `s` is taken from. The C code adds `s` to the start, not `s` samples. */
    function Scattered(s: nat): Grid { Grid(0, tilew, bytes, base + s, stride, spp * bytes, rows, cols, bytes) }

    /** Where plane `s` is put back: `s * bytes_per_sample`. */
    function Gathered(s: nat): Grid { Grid(base + s * bytes, stride, spp * bytes, 0, tilew, bytes, rows, cols, bytes) }
  }

  lemma PlanesOk(p: Planes, length: nat, s: nat)
    requires p.Ok(length) && s < p.spp
    ensures p.spp * p.bytes >= p.bytes && p.Pixels().Ok(length, length) && p.rows * p.tilew >= 0
    ensures p.Scattered(s).Ok(p.rows * p.tilew, length) && p.Gathered(s).Ok(length, p.rows * p.tilew)
  {
    var pixel := p.spp * p.bytes;
    Smaller(s + 1, p.spp, p.bytes);
    Distribute(s, 1, p.bytes);
    Smaller(0, s, p.bytes);
    AtMost(s, p.bytes);
    Smaller(1, p.spp, p.bytes);
    if p.rows > 0 {
      Distribute(p.rows, -1, p.tilew);
      Smaller(0, p.rows - 1, p.tilew);
    }
    if p.cols > 0 { Distribute(p.cols, -1, p.bytes); }
  }

  lemma AtMost(s: nat, n: nat)
    requires n >= 1
    ensures s <= s * n
  {
    MulSign(n, s);
    assert (n - 1) * s >= 0;
  }

  /** Plane `s` of the block, byte by byte, is the buffer's bytes from `s` on. */
  lemma PlaneHolds(p: Planes, buf: seq<byte>, was: seq<byte>, plane: seq<byte>, s: nat, y: nat, x: nat, n: nat)
    requires p.Ok(|buf|) && s < p.spp && |was| == p.rows * p.tilew && p.Scattered(s).Ok(|was|, |buf|)
    requires Copied(p.Scattered(s), was, buf, plane, p.rows, 0, 0) && y < p.rows && x < p.cols && n < p.bytes
    ensures 0 <= y * p.tilew + x * p.bytes + n < |plane| && 0 <= p.Pixels().From(y, x, s + n) < |buf|
    ensures plane[y * p.tilew + x * p.bytes + n] == buf[p.Pixels().From(y, x, s + n)]
  {
    var b := p.Scattered(s);
    Inside(b, |was|, |buf|, y, x, n);
    SpotOf(b, y, x, n);
    assert plane[b.To(y, x, n)] == CopiedAt(b, was, buf, p.rows, 0, 0, b.To(y, x, n));
  }

  lemma SamePlace(p: Planes, s: nat, y: nat, x: nat, n: nat)
    requires s * p.bytes >= 0
    ensures p.Gathered(s).To(y, x, n) == p.Pixels().To(y, x, s * p.bytes + n)
  {
  }

  lemma SampleBytes(p: Planes, length: nat, s: nat, n: nat)
    requires p.Ok(length) && s < p.spp && n < p.bytes
    ensures 0 <= s * p.bytes && s * p.bytes + n < p.spp * p.bytes
    ensures (s * p.bytes + n) / p.bytes == s && (s * p.bytes + n) % p.bytes == n
  {
    Smaller(s + 1, p.spp, p.bytes);
    Distribute(s, 1, p.bytes);
    Smaller(0, s, p.bytes);
    DivUnique(s * p.bytes + n, p.bytes, s, n);
  }

  /** A destination byte of plane `s` is byte `s*bytes + n` of a pixel. */
  lemma GatheredSpot(p: Planes, length: nat, s: nat, m: nat)
    requires p.Ok(length) && s < p.spp && Spot(p.Gathered(s), m).Some?
    ensures var (y, x, n) := Spot(p.Gathered(s), m).value;
            s * p.bytes + n >= 0 && Spot(p.Pixels(), m) == Some((y, x, s * p.bytes + n))
  {
    hide Spot, Grid.To, Grid.Ok;
    var (y, x, n) := Spot(p.Gathered(s), m).value;
    PlanesOk(p, length, s);
    SpotBack(p.Gathered(s), m);
    SampleBytes(p, length, s, n);
    SamePlace(p, s, y, x, n);
    SpotOf(p.Pixels(), y, x, s * p.bytes + n);
  }

  lemma BytesPositive(p: Planes, length: nat)
    requires p.Ok(length)
    ensures p.bytes > 0 && 1 <= p.bytes <= p.spp * p.bytes && p.cols * (p.spp * p.bytes) <= p.stride
  {
    Smaller(1, p.spp, p.bytes);
  }

  /** And the other way. */
  lemma PixelSpot(p: Planes, length: nat, s: nat, m: nat)
    requires p.Ok(length) && s < p.spp && Spot(p.Pixels(), m).Some? && Spot(p.Pixels(), m).value.2 / p.bytes == s
    ensures Spot(p.Gathered(s), m).Some?
  {
    var (y, x, j) := Spot(p.Pixels(), m).value;
    PlanesOk(p, length, s);
    BytesPositive(p, length);
    hide Spot, Grid.To, Planes.Ok, Grid.Ok;
    SpotBack(p.Pixels(), m);
    Quotient(j, p.bytes);
    SampleBytes(p, length, s, j % p.bytes);
    SamePlace(p, s, y, x, j % p.bytes);
    SpotOf(p.Gathered(s), y, x, j % p.bytes);
  }

  /** What a byte of the block comes back as: byte `n` of sample `t` is the byte at `t + n` of
      the pixel. */
  function Regathered(p: Planes, buf: seq<byte>, before: seq<byte>, s: nat, m: nat): byte
    requires p.Ok(|buf|) && |before| == |buf| && m < |buf|
  {
    match Spot(p.Pixels(), m)
    case None => before[m]
    case Some((y, x, j)) =>
      SampleInside(p, |buf|, y, x, j);
      if j / p.bytes < s then buf[p.Pixels().From(y, x, j / p.bytes + j % p.bytes)] else before[m]
  }

  lemma SampleInside(p: Planes, length: nat, y: nat, x: nat, j: nat)
    requires p.Ok(length) && y < p.rows && x < p.cols && j < p.spp * p.bytes
    ensures 0 <= j / p.bytes < p.spp && 0 <= j % p.bytes && j / p.bytes + j % p.bytes < p.spp * p.bytes
    ensures 0 <= p.Pixels().From(y, x, j / p.bytes + j % p.bytes) < length
  {
    var t, n := j / p.bytes, j % p.bytes;
    DivBelow(j, p.bytes, p.spp);
    assert j == t * p.bytes + n;
    AtMost(t, p.bytes);
    PlanesOk(p, length, 0);
    Inside(p.Pixels(), length, length, y, x, t + n);
  }

  ghost predicate RegatheredTo(p: Planes, buf: seq<byte>, before: seq<byte>, now: seq<byte>, s: nat)
    requires p.Ok(|buf|) && |before| == |buf|
  {
    |now| == |before| && forall m :: 0 <= m < |now| ==> now[m] == Regathered(p, buf, before, s, m)
  }

  lemma GatherStep(p: Planes, buf: seq<byte>, before: seq<byte>, was: seq<byte>, plane: seq<byte>, mid: seq<byte>, now: seq<byte>, s: nat)
    requires p.Ok(|buf|) && |before| == |buf| && s < p.spp && |was| == p.rows * p.tilew && p.Scattered(s).Ok(|was|, |buf|)
    requires Copied(p.Scattered(s), was, buf, plane, p.rows, 0, 0)
    requires RegatheredTo(p, buf, before, mid, s) && p.Gathered(s).Ok(|mid|, |plane|)
    requires Copied(p.Gathered(s), mid, plane, now, p.rows, 0, 0)
    ensures RegatheredTo(p, buf, before, now, s + 1)
  {
    forall m | 0 <= m < |now| ensures now[m] == Regathered(p, buf, before, s + 1, m) {
      GatherByte(p, buf, before, was, plane, mid, now, s, m);
    }
  }

  lemma GatherByte(p: Planes, buf: seq<byte>, before: seq<byte>, was: seq<byte>, plane: seq<byte>, mid: seq<byte>, now: seq<byte>, s: nat, m: nat)
    requires p.Ok(|buf|) && |before| == |buf| && s < p.spp && |was| == p.rows * p.tilew && p.Scattered(s).Ok(|was|, |buf|)
    requires Copied(p.Scattered(s), was, buf, plane, p.rows, 0, 0)
    requires RegatheredTo(p, buf, before, mid, s) && p.Gathered(s).Ok(|mid|, |plane|)
    requires Copied(p.Gathered(s), mid, plane, now, p.rows, 0, 0) && m < |now|
    ensures now[m] == Regathered(p, buf, before, s + 1, m)
  {
    hide Spot, Grid.Ok, Planes.Ok;
    if Spot(p.Pixels(), m).Some? && Spot(p.Pixels(), m).value.2 / p.bytes == s { PixelSpot(p, |buf|, s, m); }
    assert now[m] == CopiedAt(p.Gathered(s), mid, plane, p.rows, 0, 0, m);
    if Spot(p.Gathered(s), m).Some? {
      var (y, x, n) := Spot(p.Gathered(s), m).value;
      GatheredSpot(p, |buf|, s, m);
      PlaneHolds(p, buf, was, plane, s, y, x, n);
      SampleBytes(p, |buf|, s, n);
    } else if Spot(p.Pixels(), m).Some? {
      assert Spot(p.Pixels(), m).value.2 / p.bytes != s;
    }
  }

  method CpContigBufToSeparateBuf(out: array<byte>, o: nat, src: array<byte>, i: nat, rows: nat, cols: nat, outskew: int, inskew: int,
                                  spp: nat, bytes: nat, b: Grid)
    requires out != src && spp >= 1 && b.Ok(out.Length, src.Length)
    requires b == Grid(o, b.os, bytes, i, b.iss, spp * bytes, rows, cols, bytes)
    requires b.os == cols * bytes + outskew && b.iss == cols * (spp * bytes) + inskew
    modifies out
    ensures Copied(b, old(out[..]), src[..], out[..], rows, 0, 0)
  {
    OtherSamples(spp, bytes);
    CopyPlane(out, o, src, i, rows, cols, outskew, inskew, 0, (spp - 1) * bytes, bytes, b);
  }

  method CpSeparateBufToContigBuf(out: array<byte>, o: nat, src: array<byte>, i: nat, rows: nat, cols: nat, outskew: int, inskew: int,
                                  spp: nat, bytes: nat, b: Grid)
    requires out != src && spp >= 1 && b.Ok(out.Length, src.Length)
    requires b == Grid(o, b.os, spp * bytes, i, b.iss, bytes, rows, cols, bytes)
    requires b.os == cols * (spp * bytes) + outskew && b.iss == cols * bytes + inskew
    modifies out
    ensures Copied(b, old(out[..]), src[..], out[..], rows, 0, 0)
  {
    OtherSamples(spp, bytes);
    CopyPlane(out, o, src, i, rows, cols, outskew, inskew, (spp - 1) * bytes, 0, bytes, b);
  }

  lemma OtherSamples(spp: nat, bytes: nat)
    requires spp >= 1
    ensures (spp - 1) * bytes >= 0 && bytes + (spp - 1) * bytes == spp * bytes
  {
  }

  /** All planes of a block, each scattered as writeBufferToSeparateTiles does it and gathered as
      readSeparateTilesIntoBuffer does. */
  method ScatterAndGather(p: Planes, buf: array<byte>, back: array<byte>)
    requires p.Ok(buf.Length) && back.Length == buf.Length && buf != back
    modifies back
    ensures RegatheredTo(p, buf[..], old(back[..]), back[..], p.spp)
  {
    hide RegatheredTo, Copied, Grid.Ok, Planes.Ok;
    ghost var before := back[..];
    NonePlanes(p, buf[..], before);
    AtLeastOne(p, buf.Length);
    PlanesOk(p, buf.Length, 0);
    var plane := new byte[p.rows * p.tilew](_ => 0);
    var s := 0;
    while s < p.spp
      invariant 0 <= s <= p.spp && RegatheredTo(p, buf[..], before, back[..], s)
    {
      PlanesOk(p, buf.Length, s);
      RegatheredSize(p, buf[..], before, back[..], s);
      ghost var was, mid := plane[..], back[..];
      CpContigBufToSeparateBuf(plane, 0, buf, p.base + s, p.rows, p.cols, p.tilew - p.cols * p.bytes,
                               p.stride - p.cols * (p.spp * p.bytes), p.spp, p.bytes, p.Scattered(s));
      CpSeparateBufToContigBuf(back, p.base + s * p.bytes, plane, 0, p.rows, p.cols, p.stride - p.cols * (p.spp * p.bytes),
                               p.tilew - p.cols * p.bytes, p.spp, p.bytes, p.Gathered(s));
      GatherStep(p, buf[..], before, was, plane[..], mid, back[..], s);
      s := s + 1;
    }
  }

  lemma AtLeastOne(p: Planes, length: nat)
    requires p.Ok(length)
    ensures p.spp >= 1
  {
  }

  lemma RegatheredSize(p: Planes, buf: seq<byte>, before: seq<byte>, now: seq<byte>, s: nat)
    requires p.Ok(|buf|) && |before| == |buf| && RegatheredTo(p, buf, before, now, s)
    ensures |now| == |before|
  {
  }

  lemma NonePlanes(p: Planes, buf: seq<byte>, before: seq<byte>)
    requires p.Ok(|buf|) && |before| == |buf|
    ensures RegatheredTo(p, buf, before, before, 0)
  {
    forall m | 0 <= m < |before| ensures before[m] == Regathered(p, buf, before, 0, m) {
      if Spot(p.Pixels(), m).Some? {
        var (y, x, j) := Spot(p.Pixels(), m).value;
        SampleInside(p, |buf|, y, x, j);
      }
      hide Spot;
    }
  }

  /** All bytes of the block are what they were. */
  ghost predicate Restored(p: Planes, buf: seq<byte>, before: seq<byte>)
    requires p.Ok(|buf|) && |before| == |buf|
  {
    forall m :: 0 <= m < |buf| && Spot(p.Pixels(), m).Some? ==> Regathered(p, buf, before, p.spp, m) == buf[m]
  }

  /** Sample and byte added up are the place in the pixel when one of them is always 0. */
  lemma SumIsPlace(p: Planes, j: nat)
    requires p.bytes >= 1 && j < p.spp * p.bytes && (p.bytes == 1 || p.spp == 1)
    ensures j / p.bytes + j % p.bytes == j && 0 <= j / p.bytes < p.spp
  {
    DivBelow(j, p.bytes, p.spp);
    if p.bytes == 1 { DivUnique(j, 1, j, 0); } else { DivUnique(j, p.bytes, 0, j); }
  }

  lemma RestoredByte(p: Planes, buf: seq<byte>, before: seq<byte>, m: nat)
    requires p.Ok(|buf|) && |before| == |buf| && (p.bytes == 1 || p.spp == 1) && m < |buf| && Spot(p.Pixels(), m).Some?
    ensures Regathered(p, buf, before, p.spp, m) == buf[m]
  {
    var (y, x, j) := Spot(p.Pixels(), m).value;
    SpotBack(p.Pixels(), m);
    SampleInside(p, |buf|, y, x, j);
    SumIsPlace(p, j);
    hide Spot, Planes.Ok;
  }

  lemma RestoredWhen(p: Planes, buf: seq<byte>, before: seq<byte>)
    requires p.Ok(|buf|) && |before| == |buf| && (p.bytes == 1 || p.spp == 1)
    ensures Restored(p, buf, before)
  {
    hide Spot, Regathered;
    forall m | 0 <= m < |buf| && Spot(p.Pixels(), m).Some? ensures Regathered(p, buf, before, p.spp, m) == buf[m] {
      RestoredByte(p, buf, before, m);
    }
  }

  /** A buffer whose second and `bytes`-th bytes of the first pixel differ is not restored. */
  lemma SpoiledWhen(p: Planes, buf: seq<byte>, before: seq<byte>)
    requires p.Ok(|buf|) && |before| == |buf| && p.bytes > 1 && p.spp > 1 && p.rows > 0 && p.cols > 0
    requires p.base + p.bytes < |buf| && buf[p.base + 1] != buf[p.base + p.bytes]
    ensures !Restored(p, buf, before)
  {
    var m := p.base + p.bytes;
    PlanesOk(p, |buf|, 0);
    Smaller(2, p.spp, p.bytes);
    SpotOf(p.Pixels(), 0, 0, p.bytes);
    SampleInside(p, |buf|, 0, 0, p.bytes);
    DivUnique(p.bytes, p.bytes, 1, 0);
    assert p.Pixels().To(0, 0, p.bytes) == m;
    hide Spot;
    assert Regathered(p, buf, before, p.spp, m) == buf[p.base + 1];
  }

  /** Scattering into planes and gathering restores every buffer if and only if samples are
      single bytes, or there is only one sample, or no pixel at all. */
  lemma RestoredExactly(p: Planes, length: nat)
    requires p.Ok(length)
    ensures (forall buf: seq<byte>, before: seq<byte> | |buf| == length && |before| == length :: Restored(p, buf, before)) <==>
            (p.bytes == 1 || p.spp == 1 || p.rows == 0 || p.cols == 0)
  {
    if p.bytes == 1 || p.spp == 1 {
      forall buf: seq<byte>, before: seq<byte> | |buf| == length && |before| == length ensures Restored(p, buf, before) {
        RestoredWhen(p, buf, before);
      }
    } else if p.rows > 0 && p.cols > 0 {
      PlanesOk(p, length, 0);
      Smaller(2, p.spp, p.bytes);
      Smaller(0, p.rows - 1, p.stride);
      Smaller(0, p.cols - 1, p.spp * p.bytes);
      var buf: seq<byte> := seq(length, i => if i == p.base + 1 then 1 else 0);
      SpoiledWhen(p, buf, buf);
    }
  }
}
