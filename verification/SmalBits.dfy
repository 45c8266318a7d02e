/** The bits of a SMaL stream: after eight ones in a row comes an extra bit that carries a late
    increment. The decoder takes it out on the fly, in a 16-bit register. */
module SmalBits {
  import opened Bits

  /** A one was the eighth in a row since the last extra bit; `since` counts the bits read since
      then, up to 8. */
  predicate Carrying(since: nat, v: nat) { since == 8 && v % 0x100 == 0xff }

  function Count8(since: nat, n: nat): (r: nat)
    ensures r <= 8
  {
    if since + n > 8 then 8 else since + n
  }

  /** Value read so far, bits since the last extra bit, and what is left of the stream. */
  datatype Pulled = Pulled(v: nat, since: nat, rest: seq<bool>)

  /** `n` bits more of the value, extra bits added in. */
  function Pull(since: nat, n: nat, v: nat, bits: seq<bool>): (r: Option<Pulled>)
    requires since <= 8
    ensures r.Some? ==> r.value.since <= 8
    decreases n
  {
    if n == 0 then Some(Pulled(v, since, bits))
    else if bits == [] then None
    else
      var w, s := 2 * v + Bit(bits[0]), Count8(since, 1);
      if !Carrying(s, w) then Pull(s, n - 1, w, bits[1..])
      else if |bits| < 2 then None
      else Pull(0, n - 1, w + Bit(bits[1]), bits[2..])
  }

  /** The writer's side, for a value whose bits are known to the end: an extra zero after eight
      ones. */
  function Stuffed(since: nat, v: nat, value: seq<bool>): seq<bool>
    requires since <= 8
    decreases |value|
  {
    if value == [] then []
    else
      var w, s := 2 * v + Bit(value[0]), Count8(since, 1);
      if Carrying(s, w) then [value[0], false] + Stuffed(0, w, value[1..])
      else [value[0]] + Stuffed(s, w, value[1..])
  }

  lemma ToNatHead(s: seq<bool>)
    requires s != []
    ensures ToNat(s) == Bit(s[0]) * Pow2(|s| - 1) + ToNat(s[1..])
  {
    var one := s[..1];
    assert s == one + s[1..];
    ToNatConcat(one, s[1..]);
    ToNatOne(one);
  }

  lemma ToNatOne(s: seq<bool>)
    requires |s| == 1
    ensures ToNat(s) == Bit(s[0])
  {
    assert s[..0] == [];
  }

  /** Bits since the last extra bit, after one more bit has made the value `w`. */
  function After(since: nat, w: nat): (r: nat)
    ensures r <= 8
  {
    if Carrying(Count8(since, 1), w) then 0 else Count8(since, 1)
  }

  lemma PullOne(since: nat, n: nat, v: nat, b: bool, more: seq<bool>)
    requires since <= 8 && n > 0
    ensures var w := 2 * v + Bit(b);
            Pull(since, n, v, (if Carrying(Count8(since, 1), w) then [b, false] else [b]) + more) == Pull(After(since, w), n - 1, w, more)
  {
    assert ([b, false] + more)[2..] == more && ([b] + more)[1..] == more;
    hide Carrying;
  }

  lemma StuffedOne(since: nat, v: nat, value: seq<bool>)
    requires since <= 8 && value != []
    ensures var w := 2 * v + Bit(value[0]);
            Stuffed(since, v, value) ==
            (if Carrying(Count8(since, 1), w) then [value[0], false] else [value[0]]) + Stuffed(After(since, w), w, value[1..])
  {
    hide Carrying;
  }

  lemma PullHead(since: nat, n: nat, v: nat, value: seq<bool>, tail: seq<bool>)
    requires since <= 8 && n > 0 && value != []
    ensures var w := 2 * v + Bit(value[0]);
            Pull(since, n, v, Stuffed(since, v, value) + tail) ==
            Pull(After(since, w), n - 1, w, Stuffed(After(since, w), w, value[1..]) + tail)
  {
    hide *;
    var w := 2 * v + Bit(value[0]);
    StuffedOne(since, v, value);
    var more := Stuffed(After(since, w), w, value[1..]);
    PullOne(since, n, v, value[0], more + tail);
    var head := if Carrying(Count8(since, 1), w) then [value[0], false] else [value[0]];
    assert (head + more) + tail == head + (more + tail);
  }

  /** Reading back what was stuffed gives the value, for any number of bits at a time. */
  lemma {:induction false} PullStuffed(since: nat, n: nat, v: nat, value: seq<bool>, tail: seq<bool>) returns (p: Pulled)
    requires since <= 8 && n <= |value|
    ensures Pull(since, n, v, Stuffed(since, v, value) + tail) == Some(p)
    ensures p.since <= 8 && p.v == v * Pow2(n) + ToNat(value[..n])
    ensures p.rest == Stuffed(p.since, p.v, value[n..]) + tail
    decreases n
  {
    if n == 0 {
      assert value[0..] == value;
      p := Pulled(v, since, Stuffed(since, v, value) + tail);
    } else {
      hide *;
      var w := 2 * v + Bit(value[0]);
      PullHead(since, n, v, value, tail);
      p := PullStuffed(After(since, w), n - 1, w, value[1..], tail);
      TailSlices(value, n);
      ValueStep(v, value, n);
    }
  }

  lemma TailSlices(value: seq<bool>, n: nat)
    requires 0 < n <= |value|
    ensures value[1..][..n - 1] == value[..n][1..] && value[1..][n - 1..] == value[n..]
  {
  }

  lemma ValueStep(v: nat, value: seq<bool>, n: nat)
    requires 0 < n <= |value|
    ensures (2 * v + Bit(value[0])) * Pow2(n - 1) + ToNat(value[..n][1..]) == v * Pow2(n) + ToNat(value[..n])
  {
    hide *;
    ToNatHead(value[..n]);
    PowerStep(v, Bit(value[0]), n);
  }

  lemma PowerStep(v: nat, b: nat, n: nat)
    requires n > 0
    ensures (2 * v + b) * Pow2(n - 1) == v * Pow2(n) + b * Pow2(n - 1)
  {
    var p := Pow2(n - 1);
    assert Pow2(n) == 2 * p;
    Spread(v, b, p);
  }

  lemma Spread(v: nat, b: nat, p: nat)
    ensures (2 * v + b) * p == v * (2 * p) + b * p
  {
  }

  // ---------------------------------------------------------------- whole steps at a time

  /** The value after `j` bits, were no extra bit among them. */
  function Prefix(v: nat, bits: seq<bool>, j: nat): nat
    requires j <= |bits|
  {
    v * Pow2(j) + ToNat(bits[..j])
  }

  /** The `j`-th bit is the eighth one in a row. */
  predicate EventAt(since: nat, v: nat, bits: seq<bool>, j: nat)
    requires j <= |bits|
  {
    since + j >= 8 && Prefix(v, bits, j) % 0x100 == 0xff
  }

  ghost predicate Quiet(since: nat, v: nat, bits: seq<bool>, n: nat)
    requires n <= |bits|
  {
    forall j :: 1 <= j <= n ==> !EventAt(since, v, bits, j)
  }

  lemma PrefixTail(v: nat, bits: seq<bool>, j: nat)
    requires 0 < j <= |bits|
    ensures Prefix(2 * v + Bit(bits[0]), bits[1..], j - 1) == Prefix(v, bits, j)
  {
    hide Pow2, ToNat, Bit;
    ValueStep(v, bits, j);
    assert bits[1..][..j - 1] == bits[..j][1..];
  }

  lemma EventTail(since: nat, v: nat, bits: seq<bool>, j: nat)
    requires since <= 8 && 1 < j <= |bits|
    ensures EventAt(Count8(since, 1), 2 * v + Bit(bits[0]), bits[1..], j - 1) == EventAt(since, v, bits, j)
  {
    hide Prefix, Bit;
    PrefixTail(v, bits, j);
  }

  lemma EventFirst(since: nat, v: nat, bits: seq<bool>)
    requires since <= 8 && |bits| > 0
    ensures EventAt(since, v, bits, 1) == Carrying(Count8(since, 1), 2 * v + Bit(bits[0]))
  {
    assert bits[..1][..0] == [];
    ToNatOne(bits[..1]);
    var one := 1;
    assert Pow2(one) == 2;
  }

  lemma QuietTail(since: nat, v: nat, bits: seq<bool>, n: nat)
    requires since <= 8 && 0 < n <= |bits| && Quiet(since, v, bits, n)
    ensures !Carrying(Count8(since, 1), 2 * v + Bit(bits[0]))
    ensures Quiet(Count8(since, 1), 2 * v + Bit(bits[0]), bits[1..], n - 1)
  {
    hide EventAt, Carrying, Count8, Bit;
    EventFirst(since, v, bits);
    var s, w, more := Count8(since, 1), 2 * v + Bit(bits[0]), bits[1..];
    forall j | 1 <= j <= n - 1 ensures !EventAt(s, w, more, j) {
      EventTail(since, v, bits, j + 1);
    }
  }

  lemma {:induction false} PullQuiet(since: nat, n: nat, v: nat, bits: seq<bool>)
    requires since <= 8 && n <= |bits| && Quiet(since, v, bits, n)
    ensures Pull(since, n, v, bits) == Some(Pulled(Prefix(v, bits, n), Count8(since, n), bits[n..]))
    decreases n
  {
    hide Carrying, Quiet, Prefix, Bit;
    if n > 0 {
      QuietTail(since, v, bits, n);
      PullQuiet(Count8(since, 1), n - 1, 2 * v + Bit(bits[0]), bits[1..]);
      PrefixTail(v, bits, n);
      assert bits[1..][n - 1..] == bits[n..];
    } else {
      PrefixZero(v, bits);
      assert bits[0..] == bits;
    }
  }

  lemma PrefixZero(v: nat, bits: seq<bool>)
    ensures Prefix(v, bits, 0) == v
  {
    assert bits[..0] == [];
  }

  /** The first event splits a step: its extra bit is added where the value then ends. */
  lemma {:induction false} PullFirst(since: nat, n: nat, v: nat, bits: seq<bool>, j: nat)
    requires since <= 8 && 1 <= j <= n && j <= |bits| && EventAt(since, v, bits, j) && Quiet(since, v, bits, j - 1)
    ensures Pull(since, n, v, bits) ==
            if |bits| == j then None else Pull(0, n - j, Prefix(v, bits, j) + Bit(bits[j]), bits[j + 1..])
    decreases j
  {
    hide Carrying, Quiet, Prefix, Bit, EventAt;
    EventFirst(since, v, bits);
    if j > 1 {
      QuietTail(since, v, bits, j - 1);
      EventTail(since, v, bits, j);
      PullFirst(Count8(since, 1), n - 1, 2 * v + Bit(bits[0]), bits[1..], j - 1);
      PrefixTail(v, bits, j);
      if |bits| > j { assert bits[1..][j..] == bits[j + 1..]; }
    } else {
      PrefixTail(v, bits, j);
      PrefixZero(2 * v + Bit(bits[0]), bits[1..]);
    }
  }

  /** Seven bits in a row are no event. */
  lemma QuietSoon(m: nat, v: nat, bits: seq<bool>)
    requires m <= 7 && m <= |bits|
    ensures Quiet(0, v, bits, m)
  {
    hide Prefix;
  }

  /** After an extra bit, up to seven bits are quiet. */
  lemma PullEvent(since: nat, n: nat, v: nat, bits: seq<bool>, j: nat)
    requires since <= 8 && 1 <= j <= n <= 8 && n <= |bits| && EventAt(since, v, bits, j) && Quiet(since, v, bits, j - 1)
    ensures |bits| == n ==> Pull(since, n, v, bits) == None
    ensures |bits| > n ==>
              Pull(since, n, v, bits) == Some(Pulled(Prefix(Prefix(v, bits, j) + Bit(bits[j]), bits[j + 1..], n - j), n - j, bits[n + 1..]))
  {
    hide Prefix, Bit, Quiet, EventAt, Pull;
    PullFirst(since, n, v, bits, j);
    if |bits| > n {
      QuietSoon(n - j, Prefix(v, bits, j) + Bit(bits[j]), bits[j + 1..]);
      PullQuiet(0, n - j, Prefix(v, bits, j) + Bit(bits[j]), bits[j + 1..]);
      assert bits[j + 1..][n - j..] == bits[n + 1..];
    } else if |bits| > j {
      PullShort(0, n - j, Prefix(v, bits, j) + Bit(bits[j]), bits[j + 1..]);
    }
  }

  lemma {:induction false} PullShort(since: nat, n: nat, v: nat, bits: seq<bool>)
    requires since <= 8 && |bits| < n
    ensures Pull(since, n, v, bits) == None
    decreases n
  {
    if bits != [] {
      var w, s := 2 * v + Bit(bits[0]), Count8(since, 1);
      if !Carrying(s, w) { PullShort(s, n - 1, w, bits[1..]); }
      else if |bits| >= 2 { PullShort(0, n - 1, w + Bit(bits[1]), bits[2..]); }
    }
  }

  // ---------------------------------------------------------------- the 16-bit register

  /** The bits below bit `n - j` of the prefix are the ones read after the `j`-th. */
  lemma PrefixSplit(v: nat, bits: seq<bool>, j: nat, n: nat)
    requires j <= n <= |bits|
    ensures Prefix(v, bits, n) == Prefix(v, bits, j) * Pow2(n - j) + ToNat(bits[j..n])
    ensures ToNat(bits[j..n]) < Pow2(n - j)
    ensures Prefix(v, bits, n) / Pow2(n - j) == Prefix(v, bits, j)
  {
    hide ToNat, Pow2;
    var a, b := bits[..j], bits[j..n];
    assert bits[..n] == a + b;
    ToNatConcat(a, b);
    ToNatBound(b);
    Pow2Add(j, n - j);
    Regroup(v, Pow2(j), ToNat(a), Pow2(n - j));
    DivUnique(Prefix(v, bits, n), Pow2(n - j), Prefix(v, bits, j), ToNat(b));
  }

  lemma Regroup(v: nat, x: nat, a: nat, y: nat)
    ensures v * (x * y) + a * y == (v * x + a) * y
  {
  }

  /** Eight bits of the register, at bit 8 or below, are those of the value. */
  lemma Window(d: nat, p: nat, m: nat)
    requires p > 0 && m * (0x100 * p) == 0x1_0000
    ensures d % 0x1_0000 / p % 0x100 == d / p % 0x100
  {
    var q, r := d / 0x1_0000, d % 0x1_0000;
    DivNonNegative(r, p);
    var k := q * m * 0x100;
    assert d == q * 0x1_0000 + r;
    assert q * 0x1_0000 == k * p by { Pull3(q, m, p); }
    DivUnique(d, p, k + r / p, r % p) by { assert r == (r / p) * p + r % p; Regroup(1, k, r / p, p); Distribute(k, r / p, p); }
    assert (k + r / p) % 0x100 == r / p % 0x100 by { ModPlus(q * m, r / p); }
  }

  lemma Pull3(q: nat, m: nat, p: nat)
    ensures q * (m * (0x100 * p)) == (q * m * 0x100) * p
  {
    assert m * (0x100 * p) == (m * 0x100) * p;
    assert q * ((m * 0x100) * p) == (q * (m * 0x100)) * p;
  }

  lemma ModPlus(a: nat, b: nat)
    ensures (a * 0x100 + b) % 0x100 == b % 0x100
  {
  }

  /** Taking out the bit below bit `pos` and adding it at bit `pos`: with `q` = 2^(pos-1) and
      `p` = 2^pos,
      `((data & (q-1)) << 1) | ((data + ((data & q) << 1)) & -p)`. */
  function TakenOut(data: nat, p: nat, q: nat): nat
    requires p > 0 && q > 0
  {
    DivNonNegative(data + Bit(data / q % 2 == 1) * p, p);
    MulSign(p, (data + Bit(data / q % 2 == 1) * p) / p);
    data % q * 2 + (data + Bit(data / q % 2 == 1) * p) / p * p
  }

  /** The same, with the register taken apart. */
  lemma TakenOutOf(a: nat, t: bool, low: nat, p: nat, q: nat)
    requires p == 2 * q && q > 0 && low < q
    ensures TakenOut(a * p + Bit(t) * q + low, p, q) == (a + Bit(t)) * p + 2 * low
  {
    var data := a * p + Bit(t) * q + low;
    assert data == (2 * a + Bit(t)) * q + low by { Distribute(2 * a, Bit(t), q); Assoc(a, 2, q); }
    DivUnique(data, q, 2 * a + Bit(t), low);
    assert (2 * a + Bit(t)) % 2 == Bit(t);
    Distribute(a, Bit(t), p);
    DivUnique(data + Bit(t) * p, p, a + Bit(t), Bit(t) * q + low);
  }

  /** A multiple of a divisor of 2^16, cut to 16 bits. */
  lemma CutMultiple(w: nat, p: nat, m: nat, r: nat, c: int)
    requires p > 0 && m > 0 && m * p == 0x1_0000 && r < p
    ensures 0 <= (w % m) * p + r && (w * p + r) % 0x1_0000 == (w % m) * p + r
    ensures ((w % m) * p + c) % 0x1_0000 == (w * p + c) % 0x1_0000
  {
    var a, k := w % m, w / m;
    assert a * p + p <= m * p by { Distribute(a, 1, p); Smaller(a + 1, m, p); }
    assert w * p == a * p + k * 0x1_0000 by { Distribute(k * m, a, p); Assoc(k, m, p); }
    Smaller(0, a, p);
    DivUnique(w * p + r, 0x1_0000, k, a * p + r);
    ModShift(a * p + c, k);
  }

  lemma ModShift(x: int, k: int)
    ensures (x + k * 0x1_0000) % 0x1_0000 == x % 0x1_0000
  {
  }

  /** The register does to the value what the stream calls for. */
  lemma TakenOutIs(w: nat, t: bool, low: nat, p: nat, q: nat, m: nat, b: nat)
    requires p == 2 * q && q > 0 && m > 0 && m * p == 0x1_0000 && low < q
    ensures var data := (w * p + Bit(t) * q + low) % 0x1_0000;
            (TakenOut(data, p, q) + b) % 0x1_0000 == ((w + Bit(t)) * p + 2 * low + b) % 0x1_0000
  {
    hide TakenOut;
    CutMultiple(w, p, m, Bit(t) * q + low, Bit(t) * p + 2 * low + b);
    TakenOutOf(w % m, t, low, p, q);
    Distribute(w % m, Bit(t), p);
    Distribute(w, Bit(t), p);
  }

}
