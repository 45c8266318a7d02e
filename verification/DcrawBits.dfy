/** getbithuff: the 32-bit bit buffer of dcraw, with the removal of stuffed zero bytes, seen as
    a reader of one flat bit string that may end. */
module DcrawBits {
  import opened Bits

  /** What the byte stream delivers: after 0xFF a zero byte is dropped, and anything else, the
      end of the file included, is a marker that ends the stream. */
  function Unstuff(s: seq<byte>, zeroAfterFF: bool): (r: seq<byte>)
    decreases |s|
  {
    if s == [] then []
    else if zeroAfterFF && s[0] == 0xff then
      if |s| > 1 && s[1] == 0 then [0xff] + Unstuff(s[2..], zeroAfterFF) else []
    else [s[0]] + Unstuff(s[1..], zeroAfterFF)
  }

  /** The encoder's side: a zero byte after every 0xFF (section F.1.2.3 of ITU-T T.81). */
  function Stuff(s: seq<byte>): seq<byte> {
    if s == [] then [] else (if s[0] == 0xff then [0xff, 0] else [s[0]]) + Stuff(s[1..])
  }

  lemma UnstuffHead(b: byte, more: seq<byte>)
    ensures b != 0xff ==> Unstuff([b] + more, true) == [b] + Unstuff(more, true)
    ensures b == 0xff ==> Unstuff([b, 0] + more, true) == [b] + Unstuff(more, true)
  {
    assert ([b] + more)[1..] == more;
    assert ([b, 0] + more)[2..] == more;
  }

  lemma StuffHead(s: seq<byte>)
    ensures Stuff(s) == if s == [] then [] else (if s[0] == 0xff then [0xff, 0] else [s[0]]) + Stuff(s[1..])
  {
  }

  /** Stuffing is undone, and what follows the stuffed bytes is read as if it stood alone. */
  lemma {:induction false} UnstuffStuff(s: seq<byte>, tail: seq<byte>)
    ensures Unstuff(Stuff(s) + tail, true) == s + Unstuff(tail, true)
  {
    hide Unstuff, Stuff;
    StuffHead(s);
    if s == [] {
      assert Stuff(s) + tail == tail;
      assert s + Unstuff(tail, true) == Unstuff(tail, true);
    } else {
      UnstuffStuff(s[1..], tail);
      var more := Stuff(s[1..]) + tail;
      UnstuffHead(s[0], more);
      if s[0] == 0xff {
        assert Stuff(s) + tail == [s[0], 0] + more;
      } else {
        assert Stuff(s) + tail == [s[0]] + more;
      }
      assert s + Unstuff(tail, true) == [s[0]] + (s[1..] + Unstuff(tail, true));
    }
  }

  /** `(bitbuf << 8) + c`, kept to 32 bits, has the byte's bits behind the others. */
  lemma PushByte(buf: nat, v: nat, c: byte)
    requires v <= 24
    ensures FromNat((buf * 0x100 + c) % 0x1_0000_0000, v + 8) == FromNat(buf, v) + ByteBits(c)
  {
    var n, w, full := 8, v + 8, 32;
    var x := buf * 0x100 + c;
    LowTwice(x, w, full);
    ByteBitsAre(c, n);
    FromNatHigh(x, w, n);
    FromNatLow(x, w, n);
    DivUnique(x, 0x100, buf, c);
    FromNatMod(x, n);
    assert Pow2(n) == 0x100 by { Pow2Of(n); }
    assert FromNat(x, w) == FromNat(x, w)[..w - n] + FromNat(x, w)[w - n..];
  }

  /** Reducing modulo a larger power of two does not change the low bits. */
  lemma LowTwice(x: nat, w: nat, full: nat)
    requires w <= full && full == 32
    ensures FromNat(x % 0x1_0000_0000, w) == FromNat(x, w)
  {
    Pow2Of(full);
    FromNatMod(x, full);
    FromNatLow(x, full, w);
    FromNatLow(x % 0x1_0000_0000, full, w);
  }

  lemma {:induction false} ShlBits(b: nat, v: nat, k: nat)
    ensures FromNat(Shl(b, k), v + k) == FromNat(b, v) + Zeros(k)
    decreases k
  {
    ShlStep(b, 0);
    if k == 0 {
      assert FromNat(b, v) + Zeros(0) == FromNat(b, v);
    } else {
      hide Shl;
      ShlStep(b, k - 1);
      ShlBits(b, v, k - 1);
      assert Zeros(k) == Zeros(k - 1) + [false];
      assert FromNat(Shl(b, k), v + k) == FromNat(Shl(b, k - 1), v + k - 1) + [false];
    }
  }

  /** `bitbuf << (32 - vbits) >> (32 - nbits)` in 32 bits: the next `n` bits, filled up with
      zeros when the buffer holds fewer. */
  lemma PeekBits(buf: nat, v: nat, n: nat)
    requires 1 <= v <= 32 && n <= 32
    ensures Shr(Shl(buf, 32 - v) % 0x1_0000_0000, 32 - n) == ToNat(PadTake(FromNat(buf, v), n))
  {
    hide Shl, PadTake, ToNat, FromNat, Pow2;
    var full := 32;
    var x := Shl(buf, full - v) % 0x1_0000_0000;
    Pow2Of(full);
    LowTwice(Shl(buf, full - v), full, full);
    ShlBits(buf, v, full - v);
    FromNatHigh(x, full, full - n);
    Pow2Add(n, full - n);
    TopBelow(x, n, full - n);
    ToNatFromNat(x / Pow2(full - n), n);
    PadZeros(FromNat(buf, v), full, n);
  }

  lemma TopBelow(x: nat, n: nat, m: nat)
    requires x < Pow2(n + m)
    ensures 0 <= x / Pow2(m) < Pow2(n)
  {
    Pow2Add(n, m);
    DivBelow(x, Pow2(m), Pow2(n));
  }

  lemma PadZeros(s: seq<bool>, full: nat, n: nat)
    requires |s| <= full && n <= full
    ensures (s + Zeros(full - |s|))[..n] == PadTake(s, n)
  {
  }

  class BitBuf {
    const file: seq<byte>
    const zeroAfterFF: bool
    var pos: nat
    var bitbuf: nat
    var vbits: int
    var reset: bool
    var failed: bool      // derror was called

    constructor (file: seq<byte>, pos: nat, zeroAfterFF: bool)
      requires pos <= |file|
      ensures Valid() && !failed && fresh(this)
      ensures this.file == file && this.pos == pos && this.zeroAfterFF == zeroAfterFF && vbits == 0
      ensures Rest() == BytesToBits(Unstuff(file[pos..], zeroAfterFF))
    {
      this.file, this.pos, this.zeroAfterFF := file, pos, zeroAfterFF;
      bitbuf, vbits, reset, failed := 0, 0, false, false;
    }

    ghost predicate Valid()
      reads this
    {
      pos <= |file| && bitbuf < 0x1_0000_0000 && vbits <= 32 && (reset ==> zeroAfterFF)
    }

    /** Bits still in the file. */
    ghost function Coming(): seq<bool>
      requires pos <= |file|
      reads `pos, `reset
    {
      if reset then [] else BytesToBits(Unstuff(file[pos..], zeroAfterFF))
    }

    /** All bits that can still be had. */
    ghost function Rest(): seq<bool>
      requires Valid()
      reads this
    {
      (if vbits > 0 then FromNat(bitbuf, vbits) else []) + Coming()
    }

    /** fgetc: -1 is EOF. */
    method Fgetc() returns (c: int)
      requires pos <= |file|
      modifies `pos
      ensures pos <= |file|
      ensures old(pos) < |file| ==> c == file[old(pos)] && pos == old(pos) + 1
      ensures old(pos) == |file| ==> c == -1 && pos == old(pos)
    {
      if pos == |file| { return -1; }
      c := file[pos];
      pos := pos + 1;
    }

    /** getbits(-1). */
    method Restart()
      requires Valid()
      modifies this
      ensures Valid() && failed == old(failed) && pos == old(pos) && vbits == 0
      ensures Rest() == BytesToBits(Unstuff(file[pos..], zeroAfterFF))
    {
      bitbuf, vbits, reset := 0, 0, false;
    }

    /** One turn of the refill loop: take a byte, or find the end of the stream. */
    method TakeByte() returns (more: bool)
      requires Valid() && 0 <= vbits <= 24 && !reset
      modifies this
      ensures Valid() && 0 <= vbits <= 32 && failed == old(failed) && pos >= old(pos)
      ensures Rest() == old(Rest())
      ensures more ==> !reset && pos > old(pos) && vbits == old(vbits) + 8
      ensures !more ==> Coming() == [] && vbits == old(vbits)
    {
      hide FromNat, ByteBits;
      ghost var all := file[pos..];
      var c := Fgetc();
      if c == -1 { return false; }
      assert all[1..] == file[pos..];
      if zeroAfterFF && c == 0xff {
        var d := Fgetc();
        reset := d != 0;
        if reset { return false; }
        assert all[2..] == file[pos..];
      }
      PushByte(bitbuf, vbits, c);
      BytesHead(c, Unstuff(file[pos..], zeroAfterFF));
      NoBits(bitbuf);
      bitbuf := (bitbuf * 0x100 + c) % 0x1_0000_0000;
      vbits := vbits + 8;
      more := true;
    }

    /** The refill loop of getbithuff. */
    method Refill(nbits: nat)
      requires Valid() && 0 <= vbits && nbits <= 25
      modifies this
      ensures Valid() && 0 <= vbits <= 32 && failed == old(failed)
      ensures Rest() == old(Rest())
      ensures vbits >= nbits || Coming() == []
      ensures vbits >= old(vbits) && (vbits == old(vbits) || vbits < nbits + 8)
    {
      hide Rest, Coming;
      var more := true;
      if reset { NoneComing(); }
      while !reset && vbits < nbits && more
        invariant Valid() && 0 <= vbits <= 32 && failed == old(failed) && vbits >= old(vbits)
        invariant vbits == old(vbits) || vbits < nbits + 8
        invariant Rest() == old(Rest())
        invariant !more || reset ==> Coming() == []
        decreases more, |file| - pos
      {
        more := TakeByte();
        if reset { NoneComing(); }
      }
    }

    /** The look-ahead of getbithuff. With no bit left at all the C code shifts by 32, whose
        outcome C leaves open; any value of the right size stands for it. */
    method Peek(nbits: nat) returns (c: nat)
      requires Valid() && 0 <= vbits && 1 <= nbits <= 25
      modifies this
      ensures Valid() && 0 <= vbits && failed == old(failed) && (vbits == old(vbits) || vbits < nbits + 8)
      ensures Rest() == old(Rest())
      ensures vbits >= nbits || (Coming() == [] && |Rest()| == vbits)
      ensures Rest() != [] ==> c == ToNat(PadTake(Rest(), nbits))
      ensures c < Pow2(nbits)
    {
      hide PadTake, ToNat, Shl, Shr, Pow2, FromNat, Coming;
      Refill(nbits);
      Pow2Positive(nbits);
      if vbits == 0 {
        c :| 0 <= c < Pow2(nbits);
      } else {
        c := Shr(Shl(bitbuf, 32 - vbits) % 0x1_0000_0000, 32 - nbits);
        PeekBits(bitbuf, vbits, nbits);
        PadFront(FromNat(bitbuf, vbits), Coming(), nbits);
        ToNatBound(PadTake(FromNat(bitbuf, vbits), nbits));
      }
    }

    /** Taking bits out of the buffer; too few of them is an error. */
    method Consume(n: nat)
      requires Valid() && 0 <= vbits && n <= 25
      requires vbits >= n || (Coming() == [] && |Rest()| == vbits)
      modifies `vbits, `failed
      ensures Valid()
      ensures n <= |old(Rest())| ==> vbits >= 0 && Rest() == old(Rest())[n..] && failed == old(failed)
      ensures n > |old(Rest())| ==> vbits < 0 && failed
      ensures vbits == old(vbits) - n
    {
      hide FromNat, Coming;
      if n <= vbits {
        FromNatLow(bitbuf, vbits, vbits - n);
        NoBits(bitbuf);
        assert (FromNat(bitbuf, vbits) + Coming())[n..] == FromNat(bitbuf, vbits)[n..] + Coming();
      }
      vbits := vbits - n;
      if vbits < 0 { failed := true; }
    }

    /** getbits(nbits), nbits not negative. */
    method GetBits(nbits: nat) returns (c: nat)
      requires Valid()
      modifies this
      ensures Valid()
      ensures old(vbits) >= 0 && nbits <= 25 && nbits <= |old(Rest())| ==>
                vbits >= 0 && failed == old(failed) && c == ToNat(old(Rest())[..nbits]) && Rest() == old(Rest())[nbits..]
      ensures old(vbits) >= 0 && |old(Rest())| < nbits <= 25 ==> vbits < 0 && failed
      ensures old(vbits) < 0 ==> c == 0 && vbits == old(vbits) && failed == old(failed)
      ensures nbits <= 25 ==> c < Pow2(nbits)
      ensures old(vbits) < 8 ==> vbits < 8
    {
      hide Rest, Coming, ToNat, Pow2, Valid;
      Pow2Positive(nbits);
      EmptyNumber();
      if nbits > 25 { return 0; }
      if nbits == 0 || vbits < 0 { return 0; }
      c := Peek(nbits);
      Consume(nbits);
    }

    /** gethuff(table): `table[0]` bits of look-ahead, an entry, and its length consumed. */
    method GetHuff(table: array<nat>) returns (leaf: nat)
      requires Valid() && table.Length >= 1 && table[0] <= 16 && table.Length == 1 + Pow2(table[0])
      requires forall i :: 1 <= i < table.Length ==> table[i] / 0x100 <= table[0]
      modifies this
      ensures Valid()
      ensures old(vbits) < 0 || table[0] == 0 ==> leaf == 0 && vbits == old(vbits) && failed == old(failed) && Rest() == old(Rest())
      ensures old(vbits) >= 0 && table[0] > 0 && old(Rest()) != [] ==>
                var i := ToNat(PadTake(old(Rest()), table[0]));
                && i + 1 < table.Length && leaf == table[i + 1] % 0x100
                && (table[i + 1] / 0x100 <= |old(Rest())| ==>
                      vbits >= 0 && failed == old(failed) && Rest() == old(Rest())[table[i + 1] / 0x100..])
                && (table[i + 1] / 0x100 > |old(Rest())| ==> vbits < 0 && failed)
    {
      hide Rest, Coming, ToNat, PadTake, Pow2;
      if table[0] == 0 || vbits < 0 { return 0; }
      var c := Peek(table[0]);
      Consume(table[c + 1] / 0x100);
      leaf := table[c + 1] % 0x100;
    }

    /** While less than a byte is buffered, the file position tells how much is left. */
    lemma Position()
      requires Valid() && 0 <= vbits < 8 && !zeroAfterFF
      ensures pos == |file| - |Rest()| / 8
    {
      PlainBytes(file[pos..]);
      DivUnique(|Rest()|, 8, |file| - pos, vbits);
    }

    lemma NoneComing()
      requires Valid() && reset
      ensures Coming() == []
    {
    }
  }

  lemma EmptyNumber()
    ensures ToNat([]) == 0
  {
  }

  lemma PadFront(s: seq<bool>, more: seq<bool>, n: nat)
    requires |s| >= n || more == []
    ensures PadTake(s + more, n) == PadTake(s, n)
  {
  }

  lemma BytesHead(c: byte, s: seq<byte>)
    ensures BytesToBits([c] + s) == ByteBits(c) + BytesToBits(s)
  {
    assert ([c] + s)[1..] == s;
  }

  lemma NoBits(buf: nat)
    ensures FromNat(buf, 0) == []
  {
  }

  /** With no zero byte after 0xFF to drop, the stream is the file. */
  lemma {:induction false} PlainBytes(s: seq<byte>)
    ensures Unstuff(s, false) == s
  {
    if s != [] { PlainBytes(s[1..]); assert s == [s[0]] + s[1..]; }
  }
}
