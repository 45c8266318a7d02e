/** The order in which a group of six raster rows is decoded, and what the rolling window of 18
    lines shows at each step of it: exactly what whole, unbounded colour planes would show. */
module FujiSchedule {
  import opened Bits
  import opened FujiCodec
  import opened FujiWindow

  // ---------------------------------------------------------------- lines, passes, colours

  /** The two lines a pass decodes: (R2,G2), (G3,B2), (R3,G4), (G5,B3), (R4,G6), (G7,B4). */
  function LineA(k: nat): (l: nat)
    requires k < 6
    ensures 2 <= l < LINES
  {
    [2, 8, 3, 10, 4, 12][k]
  }

  function LineB(k: nat): (l: nat)
    requires k < 6
    ensures 2 <= l < LINES
  {
    [7, 15, 9, 16, 11, 17][k]
  }

  /** The pass that decodes a line; the lines carried over from the last group come first. */
  function Rank(line: nat): int
    requires line < LINES
  {
    [-1, -1, 0, 2, 4, -1, -1, 0, 1, 2, 3, 4, 5, -1, -1, 1, 3, 5][line]
  }

  function Colour(line: nat): (c: nat)
    ensures c < 3
  {
    if line < 5 then 0 else if line < 13 then 1 else 2
  }

  /** First buffer of a colour, and how many of its lines a group decodes. */
  function Base(c: nat): nat { if c == 0 then 0 else if c == 1 then 5 else 13 }
  function PerGroup(c: nat): nat { if c == 1 then 6 else 3 }

  /** The row of the colour's plane that a buffer holds while group `g` is decoded. */
  function RowOf(g: nat, line: nat): int {
    PerGroup(Colour(line)) * g + line - Base(Colour(line)) - 2
  }

  /** Which samples are in the stream: all of a Bayer strip; of an X-Trans strip all odd
      positions and the even ones that are not interpolated. */
  predicate IsCoded(p: Params, line: nat, pos: nat) {
    !p.xtrans || pos % 2 == 1 ||
    (if line == 2 || line == 15 || line == 9 || line == 12 then false
     else if line == 3 || line == 17 then pos % 4 != 0
     else if line == 16 || line == 4 then pos % 4 != 2
     else true)
  }

  function EvenEv(p: Params, k: nat, line: nat, pos: nat): (ev: Ev)
    ensures 2 <= line < LINES && pos < p.lineWidth ==> EvOk(p, ev)
  {
    if IsCoded(p, line, pos) then Sample(false, line, pos, k % 3) else Fill(line, pos)
  }

  // ---------------------------------------------------------------- the schedule

  /** Loop states of a pass: the even position leads, the odd one trails by seven. */
  predicate Reached(p: Params, e: nat, o: nat) {
    && e % 2 == 0 && o % 2 == 1 && e <= p.lineWidth + 1 && o <= p.lineWidth + 1
    && (if e <= 8 then o == 1 else if e < p.lineWidth then e == o + 7 else o + 7 >= e)
  }

  /** One of the six loops of xtrans_decode_block / fuji_bayer_decode_block, from positions
      `e` and `o` on. Lines of at most eight samples would never get an odd sample decoded. */
  function PassFrom(p: Params, k: nat, e: nat, o: nat): (evs: seq<Ev>)
    requires p.lineWidth > 8 && k < 6 && Reached(p, e, o)
    ensures EvsOk(p, evs)
    decreases 2 * p.lineWidth + 2 - (e + o)
  {
    if e >= p.lineWidth && o >= p.lineWidth then []
    else
      var e' := if e < p.lineWidth then e + 2 else e;
      var o' := if e' > 8 then o + 2 else o;
      EvenPart(p, k, e) + OddPart(p, k, e', o) + PassFrom(p, k, e', o')
  }

  function EvenPart(p: Params, k: nat, e: nat): (evs: seq<Ev>)
    requires k < 6
    ensures EvsOk(p, evs)
  {
    if e < p.lineWidth then [EvenEv(p, k, LineA(k), e), EvenEv(p, k, LineB(k), e)] else []
  }

  function OddPart(p: Params, k: nat, e: nat, o: nat): (evs: seq<Ev>)
    requires k < 6 && (e > 8 ==> o < p.lineWidth)
    ensures EvsOk(p, evs)
  {
    if e > 8 then [Sample(true, LineA(k), o, k % 3), Sample(true, LineB(k), o, k % 3)] else []
  }

  /** One turn of the loop keeps the lag: the odd sample about to be decoded has its left
      neighbour, and its right one unless that is padding. */
  lemma Turn(p: Params, k: nat, e: nat, o: nat)
    requires p.lineWidth > 8 && k < 6 && Reached(p, e, o) && (e < p.lineWidth || o < p.lineWidth)
    ensures var e' := if e < p.lineWidth then e + 2 else e;
            var o' := if e' > 8 then o + 2 else o;
            && Reached(p, e', o') && e + o < e' + o' <= 2 * p.lineWidth + 2
            && (e' > 8 ==> o < p.lineWidth && e' > o - 1 && (o + 1 < p.lineWidth ==> e' > o + 1))
            && PassFrom(p, k, e, o) == EvenPart(p, k, e) + OddPart(p, k, e', o) + PassFrom(p, k, e', o')
  {
  }

  /** fuji_extend_red / _green / _blue at the end of a pass. */
  function PassEnd(p: Params, k: nat): (evs: seq<Ev>)
    ensures EvsOk(p, evs)
  {
    if k % 2 == 0 then [Extend(2, 4), Extend(7, 12)] else [Extend(7, 12), Extend(15, 17)]
  }

  /** A whole call of the block decoder, from pass `k` on. */
  function GroupFrom(p: Params, k: nat): (evs: seq<Ev>)
    requires p.lineWidth > 8 && k <= 6
    ensures EvsOk(p, evs)
    decreases 6 - k
  {
    if k == 6 then [] else PassFrom(p, k, 0, 1) + PassEnd(p, k) + GroupFrom(p, k + 1)
  }

  // ---------------------------------------------------------------- when a pass ends

  /** Positions of the pass loop after `t` turns, for a line of `width` samples. */
  function EvenAfter(width: nat, t: nat): nat {
    if t == 0 then 0 else var e := EvenAfter(width, t - 1); if e < width then e + 2 else e
  }

  function OddAfter(width: nat, t: nat): nat {
    if t == 0 then 1 else OddAfter(width, t - 1) + if EvenAfter(width, t) > 8 then 2 else 0
  }

  ghost predicate PassEnds(width: nat) {
    exists t :: EvenAfter(width, t) >= width && OddAfter(width, t) >= width
  }

  lemma {:induction false} TurnsAre(width: nat, t: nat)
    ensures EvenAfter(width, t) == if 2 * t <= width then 2 * t else width + width % 2
    ensures OddAfter(width, t) == if width <= 8 || t < 5 then 1 else 2 * (t - 4) + 1
  {
    if t > 0 { TurnsAre(width, t - 1); }
  }

  /** The loop of a pass comes to an end exactly when the line has at most one sample or more
      than eight: in between, the odd position waits for an even one that never comes. */
  lemma PassEndsIff(width: nat)
    ensures PassEnds(width) <==> width <= 1 || width > 8
  {
    if width > 8 {
      TurnsAre(width, width);
      assert EvenAfter(width, width) >= width && OddAfter(width, width) >= width;
    } else if width <= 1 {
      TurnsAre(width, 1);
      assert EvenAfter(width, 1) >= width && OddAfter(width, 1) >= width;
    } else {
      forall t: nat ensures OddAfter(width, t) < width {
        TurnsAre(width, t);
      }
    }
  }

  // ---------------------------------------------------------------- each position once

  /** How many events of a list write a sample position. */
  function Writes(evs: seq<Ev>, line: nat, pos: nat): nat {
    if evs == [] then 0
    else (if !evs[0].Extend? && evs[0].line == line && evs[0].pos == pos then 1 else 0) + Writes(evs[1..], line, pos)
  }

  lemma {:induction false} WritesConcat(a: seq<Ev>, b: seq<Ev>, line: nat, pos: nat)
    ensures Writes(a + b, line, pos) == Writes(a, line, pos) + Writes(b, line, pos)
  {
    if a == [] {
      assert a + b == b;
    } else {
      assert (a + b)[1..] == a[1..] + b;
      WritesConcat(a[1..], b, line, pos);
    }
  }

  lemma PartWrites(p: Params, k: nat, e: nat, o: nat, line: nat, pos: nat)
    requires k < 6 && (e > 8 ==> o < p.lineWidth) && line < LINES
    ensures Writes(EvenPart(p, k, e), line, pos) == if e < p.lineWidth && pos == e && Rank(line) == k then 1 else 0
    ensures Writes(OddPart(p, k, e, o), line, pos) == if e > 8 && pos == o && Rank(line) == k then 1 else 0
  {
    hide LineA, LineB, Rank, IsCoded, Writes;
    PassLines(k, line);
    PairWrites(EvenPart(p, k, e), line, pos);
    PairWrites(OddPart(p, k, e, o), line, pos);
  }

  lemma PairWrites(evs: seq<Ev>, line: nat, pos: nat)
    requires |evs| == 2 ==> !evs[0].Extend? && !evs[1].Extend? && evs[0].line != evs[1].line && evs[0].pos == evs[1].pos
    requires |evs| == 0 || |evs| == 2
    ensures Writes(evs, line, pos) ==
            if |evs| == 2 && evs[0].pos == pos && (evs[0].line == line || evs[1].line == line) then 1 else 0
  {
    if |evs| == 2 {
      assert evs[1..][1..] == [];
      assert Writes(evs[1..], line, pos) == if evs[1].line == line && evs[1].pos == pos then 1 else 0;
    }
  }

  lemma {:induction false} PassWrites(p: Params, k: nat, e: nat, o: nat, line: nat, pos: nat)
    requires p.lineWidth > 8 && k < 6 && Reached(p, e, o)
    requires line < LINES && pos < p.lineWidth
    ensures Writes(PassFrom(p, k, e, o), line, pos) ==
            if Rank(line) == k && pos >= (if pos % 2 == 0 then e else o) then 1 else 0
    decreases 2 * p.lineWidth + 2 - (e + o)
  {
    hide Rank, EvenPart, OddPart;
    if e < p.lineWidth || o < p.lineWidth {
      hide Writes, PassFrom;
      Turn(p, k, e, o);
      var e' := if e < p.lineWidth then e + 2 else e;
      var o' := if e' > 8 then o + 2 else o;
      WritesConcat(EvenPart(p, k, e) + OddPart(p, k, e', o), PassFrom(p, k, e', o'), line, pos);
      WritesConcat(EvenPart(p, k, e), OddPart(p, k, e', o), line, pos);
      PartWrites(p, k, e, o, line, pos);
      PartWrites(p, k, e', o, line, pos);
      PassWrites(p, k, e', o', line, pos);
    }
  }

  lemma PassLines(k: nat, line: nat)
    requires k < 6 && line < LINES
    ensures Rank(line) == k <==> line == LineA(k) || line == LineB(k)
    ensures LineA(k) != LineB(k)
    ensures Rank(line) >= 0 ==> line >= 2 && Rank(line - 1) < Rank(line) && Rank(line - 2) < Rank(line)
    ensures Rank(line) >= 0 ==> Colour(line - 1) == Colour(line) && Colour(line - 2) == Colour(line)
  {
  }

  lemma RankBelow(line: nat)
    requires line < LINES
    ensures -1 <= Rank(line) < 6
  {
  }

  lemma EndWritesNothing(p: Params, k: nat, line: nat, pos: nat)
    ensures Writes(PassEnd(p, k), line, pos) == 0
  {
    var end := PassEnd(p, k);
    assert end[1..][1..] == [];
    assert Writes(end[1..], line, pos) == 0;
  }

  /** The block decoder writes every sample position of the twelve new lines exactly once, and
      none of the carried lines. */
  lemma {:induction false} EachPositionOnce(p: Params, k: nat, line: nat, pos: nat)
    requires p.lineWidth > 8 && k <= 6 && line < LINES && pos < p.lineWidth
    ensures Writes(GroupFrom(p, k), line, pos) == if Rank(line) >= k then 1 else 0
    decreases 6 - k
  {
    hide Rank, PassFrom, PassEnd;
    RankBelow(line);
    if k < 6 {
      hide Writes;
      WritesConcat(PassFrom(p, k, 0, 1) + PassEnd(p, k), GroupFrom(p, k + 1), line, pos);
      WritesConcat(PassFrom(p, k, 0, 1), PassEnd(p, k), line, pos);
      PassWrites(p, k, 0, 1, line, pos);
      EndWritesNothing(p, k, line, pos);
      EachPositionOnce(p, k + 1, line, pos);
    }
  }

  /** Everything xtrans_decode_block or fuji_bayer_decode_block does to the window. */
  function GroupEvents(p: Params): (evs: seq<Ev>)
    requires p.lineWidth > 8
    ensures EvsOk(p, evs)
  {
    var first := FIRST_PASS;
    GroupFrom(p, first)
  }

  const FIRST_PASS: nat := 0

  lemma CarriedLines(l: nat)
    requires l < LINES
    ensures Rank(l) < 0 <==> l in {0, 1, 5, 6, 13, 14}
    ensures l > 0 && Rank(l) >= 0 && Rank(l - 1) < 0 <==> l in {2, 7, 15}
  {
  }
}
