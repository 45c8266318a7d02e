/** Bit strings, most significant bit first, and their reading as natural numbers.
    The C code's masks and shifts of non-negative values appear elsewhere as
    `%` and `/` by `Pow2`. */
module Bits {
  type byte = x: int | 0 <= x < 256
  type ushort = x: int | 0 <= x < 0x1_0000

  datatype Option<+T> = None | Some(value: T)

  function Pow2(n: nat): (r: nat)
    ensures r >= 1
  {
    if n == 0 then 1 else 2 * Pow2(n - 1)
  }

  /** `v << n`, `v >> n` and `v & ((1 << n) - 1)` of a non-negative value. */
  function Shl(v: nat, n: nat): nat { v * Pow2(n) }
  function Shr(v: nat, n: nat): nat {
    DivNonNegative(v, Pow2(n));
    v / Pow2(n)
  }
  function Low(v: nat, n: nat): nat { v % Pow2(n) }

  lemma DivNonNegative(v: nat, d: int)
    requires d > 0
    ensures v / d >= 0
  {
  }

  function Abs(x: int): nat { if x < 0 then -x else x }

  /** Division as C does it, towards zero. */
  function CDiv(a: int, b: nat): int
    requires b > 0
  {
    if a < 0 then -(-a / b) else a / b
  }

  function Bit(b: bool): nat { if b then 1 else 0 }

  /** The number a bit string spells. */
  function ToNat(s: seq<bool>): nat {
    if s == [] then 0 else 2 * ToNat(s[..|s| - 1]) + Bit(s[|s| - 1])
  }

  /** The `n` low bits of `v`. */
  function FromNat(v: nat, n: nat): (s: seq<bool>)
    ensures |s| == n
  {
    if n == 0 then [] else FromNat(v / 2, n - 1) + [v % 2 == 1]
  }

  function Zeros(n: nat): (s: seq<bool>)
    ensures |s| == n
    ensures forall i :: 0 <= i < n ==> !s[i]
  {
    seq(n, _ => false)
  }

  function ByteBits(b: byte): (s: seq<bool>)
    ensures |s| == 8
  {
    seq(8, k requires 0 <= k < 8 => b / Pow2(7 - k) % 2 == 1)
  }

  function BytesToBits(s: seq<byte>): (r: seq<bool>)
    ensures |r| == 8 * |s|
  {
    if s == [] then [] else ByteBits(s[0]) + BytesToBits(s[1..])
  }

  /** The first `n` bits of a string that is followed by zeros without end. */
  function PadTake(s: seq<bool>, n: nat): (r: seq<bool>)
    ensures |r| == n
  {
    if n <= |s| then s[..n] else s + Zeros(n - |s|)
  }

  /** What is left of such a string after `n` bits. */
  function PadDrop(s: seq<bool>, n: nat): seq<bool> {
    if n <= |s| then s[n..] else []
  }

  /** Index of the first 1 bit. */
  function FirstOne(s: seq<bool>): (r: Option<nat>)
    ensures r == None ==> true !in s
    ensures r.Some? ==> r.value < |s| && s[r.value] && forall i :: 0 <= i < r.value ==> !s[i]
  {
    if s == [] then None
    else if s[0] then Some(0)
    else match FirstOne(s[1..])
      case None => None
      case Some(k) => Some(k + 1)
  }

  lemma Pow2Positive(n: nat)
    ensures Pow2(n) > 0
  {
  }

  lemma ShlStep(v: nat, n: nat)
    ensures Shl(v, n + 1) == 2 * Shl(v, n)
    ensures Shl(v, 0) == v
  {
    var p := Pow2(n);
    assert v * (2 * p) == 2 * (v * p);
  }

  lemma {:induction false} Pow2Add(a: nat, b: nat)
    ensures Pow2(a + b) == Shl(Pow2(a), b)
  {
    hide Shl;
    ShlStep(Pow2(a), 0);
    if b != 0 {
      Pow2Add(a, b - 1);
      ShlStep(Pow2(a), b - 1);
      assert Pow2(a + b) == 2 * Pow2(a + (b - 1));
    }
  }

  /** The powers of two that occur as constants. */
  lemma Pow2Of(n: nat)
    ensures n == 4 ==> Pow2(n) == 0x10
    ensures n == 5 ==> Pow2(n) == 0x20
    ensures n == 7 ==> Pow2(n) == 0x80
    ensures n == 8 ==> Pow2(n) == 0x100
    ensures n == 12 ==> Pow2(n) == 0x1000
    ensures n == 13 ==> Pow2(n) == 0x2000
    ensures n == 14 ==> Pow2(n) == 0x4000
    ensures n == 15 ==> Pow2(n) == 0x8000
    ensures n == 16 ==> Pow2(n) == 0x1_0000
    ensures n == 32 ==> Pow2(n) == 0x1_0000_0000
  {
    Pow2Zero();
    hide Pow2;
    Pow2Next(0);
    Pow2Next(1);
    Pow2Next(2);
    Pow2Next(3);
    Pow2Next(4);
    Pow2Next(5);
    Pow2Next(6);
    Pow2Add(4, 4);
    Pow2Add(8, 4);
    Pow2Add(8, 7);
    Pow2Add(8, 8);
    Pow2Add(16, 16);
    Pow2Next(12);
    Pow2Next(13);
  }

  lemma Pow2Zero()
    ensures Pow2(0) == 1
  {
  }

  lemma Pow2Next(n: nat)
    ensures Pow2(n + 1) == 2 * Pow2(n)
  {
  }

  /** A number is its high part shifted back plus its low part. */
  lemma SplitAt(v: nat, n: nat)
    ensures v == Shl(Shr(v, n), n) + Low(v, n)
    ensures Low(v, n) < Pow2(n)
    ensures Shr(v, n) > 0 ==> v > 0
  {
    var p := Pow2(n);
    assert v == p * (v / p) + v % p;
  }

  lemma {:induction false} Pow2Monotone(a: nat, b: nat)
    requires a <= b
    ensures Pow2(a) <= Pow2(b)
    decreases b
  {
    if a < b { Pow2Monotone(a, b - 1); }
  }

  lemma ShlTwice(v: nat, a: nat, b: nat)
    ensures Shl(Shl(v, a), b) == Shl(v, a + b)
  {
    Pow2Add(a, b);
    Assoc(v, Pow2(a), Pow2(b));
  }

  lemma ShlZero(v: nat, n: nat)
    ensures Shl(v, 0) == v && Shl(0, n) == 0
  {
  }

  lemma {:induction false} ToNatConcat(a: seq<bool>, b: seq<bool>)
    ensures ToNat(a + b) == Shl(ToNat(a), |b|) + ToNat(b)
    decreases |b|
  {
    hide Shl;
    ShlStep(ToNat(a), 0);
    if b == [] {
      assert a + b == a;
    } else {
      var b' := b[..|b| - 1];
      assert (a + b)[..|a + b| - 1] == a + b';
      ToNatConcat(a, b');
      ShlStep(ToNat(a), |b'|);
    }
  }

  lemma {:induction false} ToNatBound(s: seq<bool>)
    ensures ToNat(s) < Pow2(|s|)
  {
    if s != [] { ToNatBound(s[..|s| - 1]); }
  }

  lemma ToNatLast(v: nat, n: nat)
    requires n > 0
    ensures ToNat(FromNat(v, n)) == 2 * ToNat(FromNat(v / 2, n - 1)) + v % 2
  {
    var s := FromNat(v, n);
    assert s[..n - 1] == FromNat(v / 2, n - 1) && s[n - 1] == (v % 2 == 1);
  }

  lemma ToNatNone(v: nat, n: nat)
    requires n == 0 && v < Pow2(n)
    ensures v == 0 && ToNat(FromNat(v, n)) == 0
  {
  }

  lemma HalfBelow(v: nat, n: nat)
    requires n > 0 && v < Pow2(n)
    ensures v / 2 < Pow2(n - 1)
  {
  }

  /** Writing a number in enough bits and reading it back. */
  lemma {:induction false} ToNatFromNat(v: nat, n: nat)
    requires v < Pow2(n)
    ensures ToNat(FromNat(v, n)) == v
  {
    hide *;
    if n == 0 {
      ToNatNone(v, n);
    } else {
      ToNatLast(v, n);
      HalfBelow(v, n);
      ToNatFromNat(v / 2, n - 1);
    }
  }

  lemma {:induction false} FromNatToNat(s: seq<bool>)
    ensures FromNat(ToNat(s), |s|) == s
  {
    if s != [] {
      FromNatToNat(s[..|s| - 1]);
    }
  }

  /** The low `m` bits are the last `m` bits. */
  lemma {:induction false} FromNatLow(v: nat, n: nat, m: nat)
    requires m <= n
    ensures FromNat(v, n)[n - m..] == FromNat(v, m)
    decreases m
  {
    if m != 0 {
      FromNatLow(v / 2, n - 1, m - 1);
      assert FromNat(v, n)[n - m..] == FromNat(v / 2, n - 1)[(n - 1) - (m - 1)..] + [v % 2 == 1];
    }
  }

  /** The sign and size of a product with a positive factor. */
  lemma MulSign(d: int, x: int)
    requires d > 0
    ensures x >= 1 ==> d * x >= d
    ensures x <= -1 ==> d * x <= -d
    ensures x >= 0 ==> d * x >= 0
  {
    if x >= 1 {
      assert d * x == d + d * (x - 1);
      assert d * (x - 1) >= 0;
    } else if x <= -1 {
      assert d * x == -d + d * (x + 1);
      assert d * -(x + 1) >= 0;
    }
  }

  lemma Smaller(a: int, b: int, c: nat)
    requires a <= b
    ensures a * c <= b * c
  {
    if c > 0 { MulSign(c, b - a); assert c * (b - a) == b * c - a * c; }
  }

  lemma Distribute(a: int, b: int, c: int)
    ensures (a + b) * c == a * c + b * c
  {
  }

  lemma Assoc(a: int, b: int, c: int)
    ensures (a * b) * c == a * (b * c)
  {
  }

  lemma Commute(a: int, b: int)
    ensures a * b == b * a
  {
  }

  lemma Quotient(v: int, d: int)
    requires d > 0
    ensures v == (v / d) * d + v % d && 0 <= v % d < d
  {
  }

  lemma MulStep(a: nat, b: nat, w: nat)
    requires a < b
    ensures a * w + w <= b * w
  {
    Smaller(a + 1, b, w);
    Distribute(a, 1, w);
  }

  lemma NatProduct(a: nat, b: nat)
    ensures a * b >= 0
  {
  }

  lemma RealSign(a: real, b: real)
    ensures a > 0.0 && b > 0.0 ==> a * b > 0.0
  {
  }

  /** Products of reals that are not negative. */
  lemma RealProduct(a: real, b: real)
    requires a >= 0.0 && b >= 0.0
    ensures a * b >= 0.0
  {
  }

  lemma NoProduct(a: nat, b: nat)
    ensures a == 0 || b == 0 ==> a * b == 0
  {
  }

  lemma DivUnique(v: int, d: int, q: int, r: int)
    requires d > 0 && v == q * d + r && 0 <= r < d
    ensures v / d == q && v % d == r
  {
    var q', r' := v / d, v % d;
    assert v == d * q' + r';
    assert d * (q' - q) == r - r' by {
      assert d * (q' - q) == d * q' - d * q;
    }
    MulSign(d, q' - q);
  }

  lemma DivBelow(r: int, a: int, b: int)
    requires 0 <= r < a * b && a > 0
    ensures 0 <= r / a < b
  {
    var k := r / a;
    assert r == a * k + r % a;
    assert a * (b - k) == a * b - a * k;
    MulSign(a, b - k);
  }

  /** Row and column of a cell of a raster of width `w`, and back. */
  lemma CellAt(y: nat, x: nat, h: nat, w: nat)
    requires y < h && x < w
    ensures 0 <= y * w + x < h * w && (y * w + x) / w == y && (y * w + x) % w == x
  {
    Smaller(y + 1, h, w);
    Distribute(y, 1, w);
    Smaller(0, y, w);
    DivUnique(y * w + x, w, y, x);
  }

  lemma CellOf(m: nat, h: nat, w: nat)
    requires m < h * w
    ensures w > 0 && 0 <= m / w < h && 0 <= m % w < w && (m / w) * w + m % w == m
  {
    NoProduct(h, w);
    DivNonNegative(m, w);
    DivBelow(m, w, h);
  }

  lemma DivDiv(v: nat, a: nat, b: nat)
    requires a > 0 && b > 0
    ensures a * b > 0
    ensures v / a / b == v / (a * b)
  {
    MulSign(a, b);
    var q := v / (a * b);
    var r := v % (a * b);
    assert v == q * (a * b) + r;
    assert q * (a * b) == (q * b) * a;
    DivBelow(r, a, b);
    assert (q * b) * a + (r / a) * a == (q * b + r / a) * a;
    DivUnique(v, a, q * b + r / a, r % a);
    DivUnique(v / a, b, q, r / a);
  }

  /** The high bits: dropping `m` low bits divides by `Pow2(m)`. */
  lemma {:induction false} FromNatHigh(v: nat, n: nat, m: nat)
    requires m <= n
    ensures FromNat(v, n)[..n - m] == FromNat(Shr(v, m), n - m)
    decreases m
  {
    if m != 0 {
      FromNatHigh(v / 2, n - 1, m - 1);
      DivDiv(v, 2, Pow2(m - 1));
      assert Shr(v / 2, m - 1) == Shr(v, m);
      hide Shr;
      assert FromNat(v, n)[..n - m] == FromNat(v / 2, n - 1)[..n - m];
    } else {
      assert FromNat(v, n)[..n] == FromNat(v, n);
    }
  }

  /** A mask keeps the low bits. */
  lemma {:induction false} FromNatMod(v: nat, n: nat)
    ensures FromNat(v % Pow2(n), n) == FromNat(v, n)
  {
    if n != 0 {
      var p := Pow2(n - 1);
      var q := v / (2 * p);
      var r := v % (2 * p);
      assert v == q * (2 * p) + r;
      assert v == 2 * (q * p) + r;
      assert v / 2 == q * p + r / 2;
      DivUnique(v / 2, p, q, r / 2);
      assert r % 2 == v % 2;
      FromNatMod(v / 2, n - 1);
      assert FromNat(r, n) == FromNat(r / 2, n - 1) + [r % 2 == 1];
    }
  }

  /** One bit of a number: `(v >> (n-1-k)) & 1`. */
  lemma FromNatBit(v: nat, n: nat, k: nat)
    requires k < n
    ensures FromNat(v, n)[k] == (v / Pow2(n - 1 - k) % 2 == 1)
  {
    FromNatHigh(v, n, n - 1 - k);
    assert FromNat(v, n)[k] == FromNat(v, n)[..k + 1][k];
  }

  /** The field of `w` bits that starts at bit `k` of an `n`-bit number. */
  lemma FieldOf(v: nat, n: nat, k: nat, w: nat)
    requires k + w <= n
    ensures ToNat(FromNat(v, n)[k..k + w]) == v / Pow2(n - k - w) % Pow2(w)
  {
    var h := n - k - w;
    FromNatHigh(v, n, h);
    var u := v / Pow2(h);
    FromNatLow(u, k + w, w);
    assert FromNat(v, n)[k..k + w] == FromNat(v, n)[..k + w][k..];
    FromNatMod(u, w);
    ToNatFromNat(u % Pow2(w), w);
  }

  lemma {:induction false} BytesToBitsConcat(a: seq<byte>, b: seq<byte>)
    ensures BytesToBits(a + b) == BytesToBits(a) + BytesToBits(b)
  {
    if a == [] {
      assert a + b == b;
    } else {
      assert (a + b)[1..] == a[1..] + b;
      BytesToBitsConcat(a[1..], b);
      assert (a + b)[0] == a[0];
    }
  }

  lemma FirstOneAt(n: nat, tail: seq<bool>)
    ensures FirstOne(Zeros(n) + [true] + tail) == Some(n)
    ensures (Zeros(n) + [true] + tail)[n + 1..] == tail
  {
    var s := Zeros(n) + [true] + tail;
    assert s[n];
    assert true in s;
    assert forall i :: 0 <= i < n ==> !s[i];
  }

  /** Reading past the end goes on in step: `a` bits and then `b` bits are `a + b` bits. */
  lemma PadSplit(s: seq<bool>, a: nat, b: nat)
    ensures PadTake(s, a + b) == PadTake(s, a) + PadTake(PadDrop(s, a), b)
    ensures PadDrop(s, a + b) == PadDrop(PadDrop(s, a), b)
  {
    if a + b <= |s| {
      assert s[..a + b] == s[..a] + s[a..][..b];
      assert s[a..][b..] == s[a + b..];
    } else if a <= |s| {
      assert s == s[..a] + s[a..];
    } else {
      assert Zeros(a + b - |s|) == Zeros(a - |s|) + Zeros(b);
    }
  }

  lemma Nothing(s: seq<bool>)
    ensures ToNat(PadTake(s, 0)) == 0 && PadDrop(s, 0) == s
  {
  }

  /** Shifting what was read so far and adding the next `w` bits. */
  lemma AppendBits(s: seq<bool>, done: nat, w: nat)
    ensures ToNat(PadTake(s, done + w)) == Shl(ToNat(PadTake(s, done)), w) + ToNat(PadTake(PadDrop(s, done), w))
  {
    hide *;
    PadSplit(s, done, w);
    ToNatConcat(PadTake(s, done), PadTake(PadDrop(s, done), w));
  }

  lemma PadPrefix(s: seq<bool>, tail: seq<bool>)
    ensures PadTake(s + tail, |s|) == s && PadDrop(s + tail, |s|) == tail
  {
  }

  lemma ByteBitsAre(b: byte, n: nat)
    requires n == 8
    ensures ByteBits(b) == FromNat(b, n)
  {
    forall k | 0 <= k < n ensures ByteBits(b)[k] == FromNat(b, n)[k] {
      FromNatBit(b, n, k);
    }
  }

  lemma PadSlice(s: seq<bool>, n: nat, k: nat, w: nat)
    requires k + w <= n
    ensures PadTake(PadDrop(s, k), w) == PadTake(s, n)[k..k + w]
  {
  }

  /** Bits `k` to `k + w` of the byte at the front of a bit string, by shift and mask. */
  lemma FrontField(b: byte, s: seq<bool>, k: nat, w: nat)
    requires ByteBits(b) == PadTake(s, 8) && k + w <= 8
    ensures Low(Shr(b, 8 - k - w), w) == ToNat(PadTake(PadDrop(s, k), w))
  {
    hide PadTake, PadDrop, ByteBits, ToNat, FromNat, Pow2;
    var n := 8;
    ByteBitsAre(b, n);
    FieldOf(b, n, k, w);
    PadSlice(s, n, k, w);
  }

  lemma FrontBit(b: byte, s: seq<bool>, k: nat)
    requires ByteBits(b) == PadTake(s, 8) && k < 8
    ensures PadTake(PadDrop(s, k), 1)[0] == (Low(Shr(b, 7 - k), 1) == 1)
  {
    assert PadTake(PadDrop(s, k), 1)[0] == ByteBits(b)[k];
  }

  /** Whole bytes that spell a bit string, filled up with zeros. */
  function BitsToBytes(s: seq<bool>): (r: seq<byte>)
    ensures |r| == (|s| + 7) / 8
    decreases |s|
  {
    if s == [] then []
    else
      var n := 8;
      ToNatBound(PadTake(s, n));
      Pow2Of(n);
      [ToNat(PadTake(s, n))] + BitsToBytes(PadDrop(s, n))
  }

  lemma ByteSpells(s: seq<bool>, n: nat)
    requires |s| == n == 8
    ensures ToNat(s) < 0x100 && ByteBits(ToNat(s)) == s
  {
    ToNatBound(s);
    Pow2Of(n);
    ByteBitsAre(ToNat(s), n);
    FromNatToNat(s);
  }

  /** Reading them back gives the bits, and less than a byte of zeros. */
  lemma {:induction false} BytesSpell(s: seq<bool>) returns (fill: nat)
    ensures fill < 8 && BytesToBits(BitsToBytes(s)) == s + Zeros(fill)
    decreases |s|
  {
    if s == [] {
      fill := 0;
      assert [] + Zeros(0) == [];
    } else {
      hide ToNat, ByteBits;
      var n := 8;
      ByteSpells(PadTake(s, n), n);
      var b := BitsToBytes(s);
      assert b[1..] == BitsToBytes(PadDrop(s, n));
      var rest := BytesSpell(PadDrop(s, n));
      if |s| >= n {
        fill := rest;
        assert s == s[..n] + s[n..];
      } else {
        fill := n - |s|;
        assert PadDrop(s, n) == [] && BytesToBits(b[1..]) == [];
      }
    }
  }
}
