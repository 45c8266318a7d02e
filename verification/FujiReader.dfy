/** The chunked bit reader of the Fuji decoder (fuji_fill_buffer, fuji_zerobits,
    fuji_read_code): a refill buffer over a file, seen by its callers as one flat bit
    string that is followed by zeros without end. */
module FujiReader {
  import opened Bits

  const XTRANS_BUF_SIZE := 0x10000

  function Min(a: int, b: int): int { if a < b then a else b }

  /** `MIN((unsigned)(fsize - raw_offset), dsize)`: how much init_fuji_block will ask for. */
  function ReadLimit(fileSize: nat, rawOffset: nat, dsize: nat): (r: nat) {
    Min((fileSize - rawOffset) % 0x1_0000_0000, dsize)
  }

  /** The bytes a block can ever deliver: those inside both the file and the read limit. */
  function Available(file: seq<byte>, rawOffset: nat, dsize: nat): seq<byte> {
    if rawOffset >= |file| then []
    else file[rawOffset..Min(|file|, rawOffset + ReadLimit(|file|, rawOffset, dsize))]
  }

  lemma AvailableWithin(file: seq<byte>, rawOffset: nat, dsize: nat)
    requires rawOffset + dsize <= |file| < 0x1_0000_0000
    ensures Available(file, rawOffset, dsize) == file[rawOffset..rawOffset + dsize]
  {
  }

  /** It is what one fread of the whole block could deliver. */
  lemma AvailableIs(file: seq<byte>, rawOffset: nat, dsize: nat)
    ensures var a, n := Available(file, rawOffset, dsize), Min(ReadLimit(|file|, rawOffset, dsize), |file| - rawOffset);
            && |a| == (if n < 0 then 0 else n)
            && (a == [] || (rawOffset + |a| <= |file| && a == file[rawOffset..rawOffset + |a|]))
  {
  }

  /** fuji_zerobits comes to an end: some turn of its loop meets a 1. */
  ghost predicate ZeroBitsEnds(s: seq<bool>) { exists n: nat :: n > 0 && PadTake(s, n)[n - 1] }

  /** It does if and only if there is a 1 ahead: past the end of the data there are only zeros. */
  lemma ZeroBitsEndsIff(s: seq<bool>)
    ensures ZeroBitsEnds(s) <==> FirstOne(s).Some?
  {
    match FirstOne(s)
    case Some(k) =>
      assert PadTake(s, k + 1)[k];
    case None =>
      forall n: nat | n > 0 ensures !PadTake(s, n)[n - 1] {
        if n <= |s| { assert s[n - 1] in s; }
      }
  }

  /** There is a 1 ahead, and the first `count` bits are zeros. */
  predicate OneAhead(all: seq<bool>, count: nat) {
    FirstOne(all).Some? && count <= FirstOne(all).value < |all|
  }

  lemma ZeroStep(all: seq<bool>, count: nat)
    requires OneAhead(all, count)
    ensures count < |all| && PadDrop(all[count..], 1) == all[count + 1..] && PadTake(all[count..], 1)[0] == all[count]
    ensures if all[count] then FirstOne(all) == Some(count) else OneAhead(all, count + 1)
  {
    var k := FirstOne(all).value;
    assert all[k];
    hide FirstOne;
    assert all[count..][0] == all[count] && all[count..][1..] == all[count + 1..];
  }

  class BitReader {
    const file: seq<byte>
    var curBit: int
    var curPos: int
    var curBufOffset: int
    var maxReadSize: int
    var curBufSize: int
    const curBuf: array<byte>
    var fillBytes: int
    ghost const end: nat     // offset just past the last byte that can be delivered

    /** The buffer mirrors the file, and what fread may still return is what lies between the
        buffer and the end. */
    ghost predicate Mirrored()
      reads `curBufOffset, `maxReadSize, `curBufSize, curBuf
    {
      && curBuf.Length == XTRANS_BUF_SIZE
      && 0 <= curBufOffset && 0 <= maxReadSize
      && 0 <= curBufSize <= XTRANS_BUF_SIZE
      && curBufOffset + curBufSize <= end
      && (curBufSize > 0 ==> curBufOffset + curBufSize <= |file|)
      && (forall i :: 0 <= i < curBufSize && curBufOffset + i < |file| ==> curBuf[i] == file[curBufOffset + i])
      && end - (curBufOffset + curBufSize) == Remaining()
    }

    /** What fread can still deliver: limited by the block's quota and by the file. */
    ghost function Remaining(): int
      reads `curBufOffset, `maxReadSize, `curBufSize
    {
      var n := Min(maxReadSize, |file| - (curBufOffset + curBufSize));
      if n < 0 then 0 else n
    }

    /** The data has run out: every further byte is the zero byte that memset left behind. */
    ghost predicate Drained()
      reads `curBufOffset, `curBufSize, `fillBytes, curBuf
    {
      && curBuf.Length == XTRANS_BUF_SIZE
      && curBufSize == 0 && curBufOffset == end && curBuf[0] == 0 && fillBytes == 0
    }

    /** The current byte can be read. */
    ghost predicate Ready()
      reads `curBufOffset, `maxReadSize, `curBufSize, `curPos, `fillBytes, curBuf
      ensures Ready() ==> Spent() && 0 <= curPos < curBuf.Length
    {
      && Mirrored()
      && ((0 <= curPos < curBufSize && fillBytes == 1) || (curPos == 0 && Drained()))
    }

    ghost predicate Valid()
      reads this, curBuf
    {
      Ready() && 0 <= curBit < 8
    }

    /** A position that may have moved one past the buffer. */
    ghost predicate Spent()
      reads `curBufOffset, `maxReadSize, `curBufSize, `curPos, `fillBytes, curBuf
    {
      Mirrored() && ((fillBytes == 1 && 0 <= curPos <= curBufSize) || (Drained() && 0 <= curPos <= 1))
    }

    /** Bits from the start of the current byte. */
    ghost function Tail(): seq<bool>
      requires Spent()
      reads `curBufOffset, `maxReadSize, `curBufSize, `curPos, `fillBytes, curBuf
    {
      if curBufOffset + curPos < end <= |file| then BytesToBits(file[curBufOffset + curPos..end]) else []
    }

    /** The bits not yet consumed. After them the decoder sees zeros for ever. */
    ghost function Rest(): seq<bool>
      requires Valid()
      reads this, curBuf
    {
      PadDrop(Tail(), curBit)
    }

    constructor (file: seq<byte>, rawOffset: nat, dsize: nat)
      ensures Valid() && fresh(this) && fresh(curBuf)
      ensures this.file == file
      ensures Rest() == BytesToBits(Available(file, rawOffset, dsize))
    {
      hide BytesToBits, Available, ReadLimit;
      AvailableIs(file, rawOffset, dsize);
      this.file := file;
      maxReadSize := ReadLimit(|file|, rawOffset, dsize);
      fillBytes := 1;
      curBuf := new byte[XTRANS_BUF_SIZE];
      curBit, curPos, curBufOffset, curBufSize := 0, 0, rawOffset, 0;
      end := rawOffset + |Available(file, rawOffset, dsize)|;
      new;
      FillBuffer();
    }

    /** The operating system's fread: it may return fewer bytes than asked for, but at least
        one while there are any. */
    method Fread(offset: int, want: int) returns (n: int)
      requires 0 <= offset && 0 <= want <= XTRANS_BUF_SIZE == curBuf.Length
      modifies curBuf
      ensures 0 <= n <= want && (n > 0 ==> offset + n <= |file|)
      ensures n == 0 <==> want == 0 || offset >= |file|
      ensures forall i :: 0 <= i < n ==> curBuf[i] == file[offset + i]
      ensures n == 0 ==> curBuf[..] == old(curBuf[..])
    {
      if want == 0 || offset >= |file| { return 0; }
      var k: int :| 1 <= k <= want && offset + k <= |file|;
      forall i | 0 <= i < k {
        curBuf[i] := file[offset + i];
      }
      return k;
    }

    /** Refill when the buffer is used up; whatever size of chunk arrives, the bits seen from
        the current byte on do not change. */
    method FillBuffer()
      requires Spent()
      modifies this, curBuf
      ensures Ready() && curBit == old(curBit)
      ensures Tail() == old(Tail())
    {
      hide BytesToBits;
      if curPos >= curBufSize {
        curPos := 0;
        curBufOffset := curBufOffset + curBufSize;
        curBufSize := Fread(curBufOffset, Min(maxReadSize, XTRANS_BUF_SIZE));
        if curBufSize < 1 {
          if fillBytes > 0 {
            var ls := if 1 > Min(fillBytes, XTRANS_BUF_SIZE) then 1 else Min(fillBytes, XTRANS_BUF_SIZE);
            forall i | 0 <= i < ls {
              curBuf[i] := 0;
            }
            fillBytes := fillBytes - ls;
          }
        }
        maxReadSize := maxReadSize - curBufSize;
      }
    }

    /** The current byte is the next eight bits, zero once the data has run out. */
    lemma CurrentByte()
      requires Ready()
      ensures ByteBits(curBuf[curPos]) == PadTake(Tail(), 8)
    {
      if curPos < curBufSize {
        var s := file[curBufOffset + curPos..end];
        assert Tail() == ByteBits(s[0]) + BytesToBits(s[1..]);
      } else {
        forall k | 0 <= k < 8 ensures !ByteBits(0)[k] {
          assert ByteBits(0)[k] == (0 / Pow2(7 - k) % 2 == 1);
        }
        assert ByteBits(0) == Zeros(8);
      }
    }

    /** Step over one byte. */
    method NextByte()
      requires Ready()
      modifies this, curBuf
      ensures Ready() && curBit == old(curBit)
      ensures Tail() == PadDrop(old(Tail()), 8)
    {
      ghost var p := curBufOffset + curPos;
      if curPos < curBufSize {
        assert file[p..end][1..] == file[p + 1..end];
      }
      curPos := curPos + 1;
      FillBuffer();
    }

    /** One bit: `(cur_buf[cur_pos] >> (7 - cur_bit)) & 1`, and on to the next. */
    method NextBit() returns (bit: bool)
      requires Valid()
      modifies this, curBuf
      ensures Valid()
      ensures bit == PadTake(old(Rest()), 1)[0]
      ensures Rest() == PadDrop(old(Rest()), 1)
    {
      hide Ready, Tail, PadTake, ByteBits, Shr, Low;
      bit := Low(Shr(curBuf[curPos], 7 - curBit), 1) == 1;
      CurrentByte();
      FrontBit(curBuf[curPos], Tail(), curBit);
      PadSplit(Tail(), curBit, 1);
      curBit := curBit + 1;
      curBit := curBit % 8;
      if curBit == 0 {
        NextByte();
      }
    }

    /** fuji_zerobits: count the zeros before the next 1 and step past it. With no 1 ahead the
        C loop never ends, so that is what it demands of its caller. */
    method ZeroBits() returns (count: nat)
      requires Valid() && FirstOne(Rest()).Some?
      modifies this, curBuf
      ensures Valid()
      ensures FirstOne(old(Rest())) == Some(count)
      ensures Rest() == old(Rest())[count + 1..]
    {
      hide Valid, Ready, Tail, Rest, FirstOne, PadTake, PadDrop;
      count := 0;
      ghost var all := Rest();
      assert all[0..] == all;
      while true
        invariant Valid() && OneAhead(all, count) && Rest() == all[count..]
        decreases |all| - count
      {
        ZeroStep(all, count);
        var zero := NextBit();
        if zero { break; }
        count := count + 1;
      }
    }

    /** Bits of the current byte from bit `k` on, by shift and mask. */
    lemma Field(k: nat, w: nat)
      requires Ready() && k + w <= 8
      ensures Low(Shr(curBuf[curPos], 8 - k - w), w) == ToNat(PadTake(PadDrop(Tail(), k), w))
    {
      hide *;
      CurrentByte();
      FrontField(curBuf[curPos], Tail(), k, w);
    }

    /** The rest of the current byte: its `w` low bits, by mask. */
    method LowBits(w: nat) returns (v: nat)
      requires Ready() && 1 <= w <= 8
      modifies this, curBuf
      ensures Ready() && curBit == old(curBit)
      ensures v == ToNat(PadTake(PadDrop(old(Tail()), 8 - w), w))
      ensures Tail() == PadDrop(PadDrop(old(Tail()), 8 - w), w)
    {
      hide Ready, Tail, PadTake, PadDrop, ToNat;
      Field(8 - w, w);
      v := Low(curBuf[curPos], w);
      assert Pow2(0) == 1;
      PadSplit(Tail(), 8 - w, w);
      NextByte();
    }

    /** `w` of the last `left` bits of the current byte, which has more. */
    method PartOfByte(left: nat, w: nat) returns (v: nat)
      requires Ready() && 1 <= w < left <= 8
      modifies this
      ensures Valid()
      ensures v == ToNat(PadTake(PadDrop(old(Tail()), 8 - left), w))
      ensures Rest() == PadDrop(PadDrop(old(Tail()), 8 - left), w)
    {
      hide Ready, Tail, PadTake, PadDrop, ToNat, Shr, Low;
      Field(8 - left, w);
      PadSplit(Tail(), 8 - left, w);
      v := Low(Shr(curBuf[curPos], left - w), w);
      curBit := (8 - (left - w) % 8) % 8;
    }

    /** fuji_read_code: the next `bitsToRead` bits as a number. */
    method ReadCode(bitsToRead: nat) returns (data: nat)
      requires Valid() && bitsToRead < 32
      modifies this, curBuf
      ensures Valid()
      ensures data == ToNat(PadTake(old(Rest()), bitsToRead))
      ensures Rest() == PadDrop(old(Rest()), bitsToRead)
    {
      hide Ready, Tail, PadTake, PadDrop, ToNat, Shl, Shr, Low;
      var bitsLeft := bitsToRead;
      var bitsLeftInByte := 8 - curBit;
      data := 0;
      ghost var all := Rest();
      ghost var done := 0;
      Nothing(all);
      if bitsToRead == 0 { return; }
      if bitsToRead >= bitsLeftInByte {
        while true
          invariant Ready() && 1 <= bitsLeftInByte <= bitsLeft && bitsLeftInByte <= 8
          invariant done + bitsLeft == bitsToRead
          invariant data == ToNat(PadTake(all, done))
          invariant PadDrop(Tail(), 8 - bitsLeftInByte) == PadDrop(all, done)
          decreases bitsLeft
        {
          AppendBits(all, done, bitsLeftInByte);
          PadSplit(all, done, bitsLeftInByte);
          data := Shl(data, bitsLeftInByte);
          bitsLeft := bitsLeft - bitsLeftInByte;
          var low := LowBits(bitsLeftInByte);
          Nothing(Tail());
          data := data + low;
          done := done + bitsLeftInByte;
          bitsLeftInByte := 8;
          if bitsLeft < 8 { break; }
        }
      }
      if bitsLeft == 0 {
        curBit := (8 - bitsLeftInByte % 8) % 8;
        return;
      }
      AppendBits(all, done, bitsLeft);
      PadSplit(all, done, bitsLeft);
      data := Shl(data, bitsLeft);
      var bits := PartOfByte(bitsLeftInByte, bitsLeft);
      data := data + bits;
    }
  }
}
