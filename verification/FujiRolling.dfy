/** The rolling window against the planes: along the real schedule every read hits a cell that
    already has its final value, or its padding, and a rotated window is the window of the next
    group. */
module FujiRolling {
  import opened Bits
  import opened FujiCodec
  import opened FujiWindow
  import opened FujiSchedule
  import opened FujiPlanes

  predicate SamePads(line: seq<int>, row: seq<int>)
    requires |line| == |row| > 0
  {
    line[0] == row[0] && line[|line| - 1] == row[|row| - 1]
  }

  /** Even positions below `e` and odd ones below `o` are in place. */
  predicate Partial(p: Params, line: seq<int>, row: seq<int>, e: nat, o: nat)
    requires |line| == |row| == p.lineWidth + 2
  {
    forall j :: 1 <= j <= p.lineWidth && j <= (if j % 2 == 1 then e else o) ==> line[j] == row[j]
  }

  /** Before pass `k`: finished lines equal their padded rows, and every unfinished line whose
      predecessor is finished has its padding. */
  ghost predicate Holds(p: Params, n: nat, planes: Planes, g: nat, k: int, w: Window)
    requires PlanesOk(p, n, planes) && g < n
  {
    && Shape(p, w)
    && (forall l :: 0 <= l < LINES && Rank(l) < k ==> w.lines[l] == Row(p, n, planes, g, l))
    && (forall l :: 1 <= l < LINES && Rank(l) >= k && Rank(l - 1) < k ==> SamePads(w.lines[l], Row(p, n, planes, g, l)))
  }

  /** Inside pass `k`. */
  ghost predicate Mid(p: Params, n: nat, planes: Planes, g: nat, k: nat, w: Window, e: nat, o: nat)
    requires PlanesOk(p, n, planes) && g < n && k < 6
  {
    && Holds(p, n, planes, g, k, w)
    && Partial(p, w.lines[LineA(k)], Row(p, n, planes, g, LineA(k)), e, o)
    && Partial(p, w.lines[LineB(k)], Row(p, n, planes, g, LineB(k)), e, o)
  }

  /** Writing the right sample into a line of the current pass. */
  lemma PutStep(p: Params, n: nat, planes: Planes, g: nat, k: nat, w: Window, w': Window, line: nat, pos: nat)
    requires PlanesOk(p, n, planes) && g < n && k < 6 && line < LINES && Rank(line) == k && pos < p.lineWidth
    requires Holds(p, n, planes, g, k, w)
    requires w'.lines == PutCell(w.lines, line, pos + 1, Row(p, n, planes, g, line)[pos + 1]) && Shape(p, w')
    ensures Holds(p, n, planes, g, k, w')
  {
    hide Rank, Row;
  }

  lemma SourceIs(p: Params, n: nat, planes: Planes, g: nat, line: nat, pos: nat)
    requires PlanesOk(p, n, planes) && g < n && line < LINES && pos < p.lineWidth
    ensures |GroupSource(p, n, planes, g)[line]| == p.lineWidth
    ensures GroupSource(p, n, planes, g)[line][pos] == Row(p, n, planes, g, line)[pos + 1]
  {
  }

  /** An even event sees the planes and puts the planes' sample in place. */
  lemma EvenStep(p: Params, n: nat, planes: Planes, g: nat, k: nat, w: Window, line: nat, e: nat, o: nat)
    requires FillersOk(p, n, planes) && g < n && k < 6 && line < LINES && Rank(line) == k && e < p.lineWidth && e % 2 == 0
    requires Healthy(p, w) && Holds(p, n, planes, g, k, w) && SourceOk(p, GroupSource(p, n, planes, g))
    requires Partial(p, w.lines[line], Row(p, n, planes, g, line), e, o)
    ensures line >= 2 && EvOk(p, EvenEv(p, k, line, e)) && Sees(p, n, planes, g, w, EvenEv(p, k, line, e))
    ensures var w' := Next(p, n, planes, g, w, EvenEv(p, k, line, e));
            && Holds(p, n, planes, g, k, w')
            && Partial(p, w'.lines[line], Row(p, n, planes, g, line), e + 2, o)
            && (forall l :: 0 <= l < LINES && l != line ==> w'.lines[l] == w.lines[l])
  {
    hide Rank, Row, IsCoded, Healthy, SourceOk, PlanesOk, Next, Sees, FillersOk;
    PassLines(k, line);
    EvenSample(p, n, planes, g, k, w, line, e);
    var w' := Next(p, n, planes, g, w, EvenEv(p, k, line, e));
    PutStep(p, n, planes, g, k, w, w', line, e);
  }

  lemma EvenSample(p: Params, n: nat, planes: Planes, g: nat, k: nat, w: Window, line: nat, e: nat)
    requires FillersOk(p, n, planes) && g < n && k < 6 && 2 <= line < LINES && Rank(line) == k && e < p.lineWidth
    requires Healthy(p, w) && SourceOk(p, GroupSource(p, n, planes, g))
    requires Around(p, w, false, line, e) == PlaneHood(p, n, planes, g, false, line, e)
    ensures EvOk(p, EvenEv(p, k, line, e)) && Sees(p, n, planes, g, w, EvenEv(p, k, line, e))
    ensures Next(p, n, planes, g, w, EvenEv(p, k, line, e)).lines == PutCell(w.lines, line, e + 1, Row(p, n, planes, g, line)[e + 1])
  {
    hide Row, IsCoded, Sloped, Adapt, Predict, Healthy, SourceOk, PlanesOk, Around, PlaneHood;
    if EvenEv(p, k, line, e).Sample? { SourceIs(p, n, planes, g, line, e); }
  }

  /** So does an odd event, once both its even neighbours are there. */
  lemma OddStep(p: Params, n: nat, planes: Planes, g: nat, k: nat, w: Window, line: nat, e: nat, o: nat)
    requires PlanesOk(p, n, planes) && g < n && k < 6 && line < LINES && Rank(line) == k && o < p.lineWidth && o % 2 == 1
    requires Healthy(p, w) && Holds(p, n, planes, g, k, w) && SourceOk(p, GroupSource(p, n, planes, g))
    requires Partial(p, w.lines[line], Row(p, n, planes, g, line), e, o)
    requires e > o - 1 && (o + 1 < p.lineWidth ==> e > o + 1)
    ensures line >= 2 && EvOk(p, Sample(true, line, o, k % 3)) && Sees(p, n, planes, g, w, Sample(true, line, o, k % 3))
    ensures var w' := Next(p, n, planes, g, w, Sample(true, line, o, k % 3));
            && Holds(p, n, planes, g, k, w')
            && Partial(p, w'.lines[line], Row(p, n, planes, g, line), e, o + 2)
            && (forall l :: 0 <= l < LINES && l != line ==> w'.lines[l] == w.lines[l])
  {
    hide Rank, Row, Sloped, Adapt, Predict, Healthy, SourceOk, PlanesOk;
    PassLines(k, line);
    SourceIs(p, n, planes, g, line, o);
    PutStep(p, n, planes, g, k, w, Next(p, n, planes, g, w, Sample(true, line, o, k % 3)), line, o);
  }

  lemma TwoEvents(p: Params, n: nat, planes: Planes, g: nat, w: Window, a: Ev, b: Ev)
    requires PlanesOk(p, n, planes) && g < n && Healthy(p, w) && EvOk(p, a) && EvOk(p, b)
    requires Sees(p, n, planes, g, w, a) && Sees(p, n, planes, g, Next(p, n, planes, g, w, a), b)
    requires SourceOk(p, GroupSource(p, n, planes, g))
    ensures Agrees(p, n, planes, g, w, [a, b])
    ensures RunAll(p, w, [a, b], GroupSource(p, n, planes, g)) == Next(p, n, planes, g, Next(p, n, planes, g, w, a), b)
  {
    hide Sees, Next, Healthy, EvOk, SourceOk;
    var evs := [a, b];
    var w1 := Next(p, n, planes, g, w, a);
    var w2 := Next(p, n, planes, g, w1, b);
    assert evs[1..] == [b] && evs[1..][1..] == [];
    assert Agrees(p, n, planes, g, w2, []);
    assert Agrees(p, n, planes, g, w1, evs[1..]);
    RunNext(p, n, planes, g, w1, evs[1..]);
    RunNext(p, n, planes, g, w, evs);
  }

  lemma EvenPartStep(p: Params, n: nat, planes: Planes, g: nat, k: nat, w: Window, e: nat, o: nat)
    requires FillersOk(p, n, planes) && g < n && k < 6 && e % 2 == 0
    requires Healthy(p, w) && Mid(p, n, planes, g, k, w, e, o) && SourceOk(p, GroupSource(p, n, planes, g))
    ensures Agrees(p, n, planes, g, w, EvenPart(p, k, e))
    ensures Mid(p, n, planes, g, k, RunAll(p, w, EvenPart(p, k, e), GroupSource(p, n, planes, g)), if e < p.lineWidth then e + 2 else e, o)
  {
    hide Rank, Row, EvenEv, LineA, LineB, Holds, Partial, Next, Sees;
    if e < p.lineWidth {
      var la, lb := LineA(k), LineB(k);
      PassLines(k, la);
      PassLines(k, lb);
      EvenStep(p, n, planes, g, k, w, la, e, o);
      var w1 := Next(p, n, planes, g, w, EvenEv(p, k, la, e));
      EvenStep(p, n, planes, g, k, w1, lb, e, o);
      TwoEvents(p, n, planes, g, w, EvenEv(p, k, la, e), EvenEv(p, k, lb, e));
    }
  }

  lemma OddPartStep(p: Params, n: nat, planes: Planes, g: nat, k: nat, w: Window, e: nat, o: nat)
    requires PlanesOk(p, n, planes) && g < n && k < 6 && o % 2 == 1 && (e > 8 ==> o < p.lineWidth)
    requires e > 8 ==> e > o - 1 && (o + 1 < p.lineWidth ==> e > o + 1)
    requires Healthy(p, w) && Mid(p, n, planes, g, k, w, e, o) && SourceOk(p, GroupSource(p, n, planes, g))
    ensures Agrees(p, n, planes, g, w, OddPart(p, k, e, o))
    ensures Mid(p, n, planes, g, k, RunAll(p, w, OddPart(p, k, e, o), GroupSource(p, n, planes, g)), e, if e > 8 then o + 2 else o)
  {
    hide Rank, Row, LineA, LineB, Holds, Partial, Next, Sees;
    if e > 8 {
      var la, lb := LineA(k), LineB(k);
      PassLines(k, la);
      PassLines(k, lb);
      OddStep(p, n, planes, g, k, w, la, e, o);
      var w1 := Next(p, n, planes, g, w, Sample(true, la, o, k % 3));
      OddStep(p, n, planes, g, k, w1, lb, e, o);
      TwoEvents(p, n, planes, g, w, Sample(true, la, o, k % 3), Sample(true, lb, o, k % 3));
    }
  }

  lemma PassDone(p: Params, n: nat, planes: Planes, g: nat, k: nat, w: Window, e: nat, o: nat)
    requires PlanesOk(p, n, planes) && g < n && k < 6 && Mid(p, n, planes, g, k, w, e, o)
    requires e >= p.lineWidth && o >= p.lineWidth
    ensures Mid(p, n, planes, g, k, w, p.lineWidth, p.lineWidth)
  {
  }

  /** A pass, from any state of its loop to its end: the window shows the planes throughout,
      and both lines end up complete. */
  lemma {:induction false} PassAgrees(p: Params, n: nat, planes: Planes, g: nat, k: nat, w: Window, e: nat, o: nat)
    requires FillersOk(p, n, planes) && g < n && k < 6 && Reached(p, e, o)
    requires Healthy(p, w) && Mid(p, n, planes, g, k, w, e, o) && SourceOk(p, GroupSource(p, n, planes, g))
    ensures Agrees(p, n, planes, g, w, PassFrom(p, k, e, o))
    ensures Mid(p, n, planes, g, k, RunAll(p, w, PassFrom(p, k, e, o), GroupSource(p, n, planes, g)), p.lineWidth, p.lineWidth)
    decreases 2 * p.lineWidth + 2 - (e + o)
  {
    var src := GroupSource(p, n, planes, g);
    if e >= p.lineWidth && o >= p.lineWidth {
      PassDone(p, n, planes, g, k, w, e, o);
    } else {
      hide *;
      Turn(p, k, e, o);
      var e' := if e < p.lineWidth then e + 2 else e;
      var o' := if e' > 8 then o + 2 else o;
      var evens, odds := EvenPart(p, k, e), OddPart(p, k, e', o);
      EvenPartStep(p, n, planes, g, k, w, e, o);
      var w1 := RunAll(p, w, evens, src);
      OddPartStep(p, n, planes, g, k, w1, e', o);
      var w2 := RunAll(p, w1, odds, src);
      PassAgrees(p, n, planes, g, k, w2, e', o');
      AgreesConcat(p, n, planes, g, w, evens, odds);
      RunConcat(p, w, evens, odds, src);
      AgreesConcat(p, n, planes, g, w, evens + odds, PassFrom(p, k, e', o'));
      RunConcat(p, w, evens + odds, PassFrom(p, k, e', o'), src);
    }
  }

  // ---------------------------------------------------------------- between passes

  ghost predicate Done(p: Params, n: nat, planes: Planes, g: nat, k: int, lines: seq<seq<int>>)
    requires PlanesOk(p, n, planes) && g < n
  {
    && |lines| == LINES
    && (forall l :: 0 <= l < LINES ==> |lines[l]| == p.lineWidth + 2)
    && (forall l :: 0 <= l < LINES && Rank(l) < k ==> lines[l] == Row(p, n, planes, g, l))
  }

  lemma PadsOfRow(p: Params, n: nat, planes: Planes, g: nat, line: nat)
    requires PlanesOk(p, n, planes) && g < n && line < LINES && Rank(line) >= 0
    ensures line >= 1
    ensures Row(p, n, planes, g, line)[0] == Row(p, n, planes, g, line - 1)[1]
    ensures Row(p, n, planes, g, line)[p.lineWidth + 1] == Row(p, n, planes, g, line - 1)[p.lineWidth]
  {
    PassLines(0, line);
    RowInPlane(p, n, planes, g, line);
    RowInPlane(p, n, planes, g, line - 1);
  }

  /** fuji_extend_generic gives every line whose predecessor is finished its padding, and
      changes no finished line. */
  lemma {:induction false} ExtendDone(p: Params, n: nat, planes: Planes, g: nat, k: nat, lines: seq<seq<int>>, first: nat, last: nat)
    requires PlanesOk(p, n, planes) && g < n && Done(p, n, planes, g, k, lines) && 1 <= first && last < LINES
    requires forall l :: first <= l <= last ==> Rank(l) >= 0
    ensures var r := Extended(p, lines, first, last);
            && Done(p, n, planes, g, k, r)
            && (forall l :: 0 <= l < LINES && !(first <= l <= last) ==> r[l] == lines[l])
            && (forall l :: first <= l <= last && Rank(l - 1) < k ==> SamePads(r[l], Row(p, n, planes, g, l)))
    decreases last - first + 1
  {
    if first <= last {
      hide Rank, Row;
      PadsOfRow(p, n, planes, g, first);
      PassLines(0, first);
      var a := PutCell(lines, first, 0, lines[first - 1][1]);
      var b := PutCell(a, first, p.lineWidth + 1, a[first - 1][p.lineWidth]);
      assert Done(p, n, planes, g, k, b);
      ExtendDone(p, n, planes, g, k, b, first + 1, last);
    }
  }

  lemma MidHolds(p: Params, n: nat, planes: Planes, g: nat, k: nat, w: Window, l: nat)
    requires PlanesOk(p, n, planes) && g < n && k < 6 && Mid(p, n, planes, g, k, w, p.lineWidth, p.lineWidth)
    requires 1 <= l < LINES && Rank(l) >= k && Rank(l - 1) < k
    ensures SamePads(w.lines[l], Row(p, n, planes, g, l))
  {
  }

  lemma PassComplete(p: Params, n: nat, planes: Planes, g: nat, k: nat, w: Window)
    requires PlanesOk(p, n, planes) && g < n && k < 6 && Mid(p, n, planes, g, k, w, p.lineWidth, p.lineWidth)
    ensures Done(p, n, planes, g, k + 1, w.lines)
  {
    hide Rank, Row, LineA, LineB;
    forall l | 0 <= l < LINES && Rank(l) < k + 1
      ensures w.lines[l] == Row(p, n, planes, g, l)
    {
      PassLines(k, l);
      if Rank(l) == k {
        var line, row := w.lines[l], Row(p, n, planes, g, l);
        assert SamePads(line, row);
        forall j | 0 <= j < |line| ensures line[j] == row[j] {
        }
      }
    }
  }

  /** The two extensions that close pass `k` leave everything ready for the next one. */
  lemma PassEndHolds(p: Params, n: nat, planes: Planes, g: nat, k: nat, w: Window)
    requires PlanesOk(p, n, planes) && g < n && k < 6 && Mid(p, n, planes, g, k, w, p.lineWidth, p.lineWidth)
    requires Healthy(p, w) && SourceOk(p, GroupSource(p, n, planes, g))
    ensures Agrees(p, n, planes, g, w, PassEnd(p, k))
    ensures Holds(p, n, planes, g, k + 1, RunAll(p, w, PassEnd(p, k), GroupSource(p, n, planes, g)))
  {
    hide Rank, Row, Done, Mid, SamePads, Extended, Agrees, RunAll, Healthy, SourceOk, PlanesOk;
    var a, b := PassEnd(p, k)[0], PassEnd(p, k)[1];
    AllRanked(k);
    PassComplete(p, n, planes, g, k, w);
    ExtendDone(p, n, planes, g, k + 1, w.lines, a.first, a.last);
    var w1 := Next(p, n, planes, g, w, a);
    ExtendDone(p, n, planes, g, k + 1, w1.lines, b.first, b.last);
    var w2 := Next(p, n, planes, g, w1, b);
    TwoEvents(p, n, planes, g, w, a, b);
    forall l | 1 <= l < LINES && Rank(l) >= k + 1 && Rank(l - 1) < k + 1
      ensures SamePads(w2.lines[l], Row(p, n, planes, g, l))
    {
      if Rank(l - 1) == k {
        ExtendedLines(k, l);
      } else {
        MidHolds(p, n, planes, g, k, w, l);
      }
    }
    DoneHolds(p, n, planes, g, k + 1, w2);
  }

  lemma DoneHolds(p: Params, n: nat, planes: Planes, g: nat, k: int, w: Window)
    requires PlanesOk(p, n, planes) && g < n && Shape(p, w) && Done(p, n, planes, g, k, w.lines)
    requires forall l :: 1 <= l < LINES && Rank(l) >= k && Rank(l - 1) < k ==> SamePads(w.lines[l], Row(p, n, planes, g, l))
    ensures Holds(p, n, planes, g, k, w)
  {
  }

  lemma AllRanked(k: nat)
    ensures forall l :: 2 <= l <= 4 || 7 <= l <= 12 || 15 <= l <= 17 ==> Rank(l) >= 0
  {
  }

  /** An unfinished line whose predecessor was just finished is among those extended. */
  lemma ExtendedLines(k: nat, l: nat)
    requires k < 6 && 1 <= l < LINES && Rank(l) >= k + 1 && Rank(l - 1) == k
    ensures if k % 2 == 0 then 2 <= l <= 4 || 7 <= l <= 12 else 7 <= l <= 12 || 15 <= l <= 17
  {
  }

  /** A whole group. */
  lemma {:induction false} GroupAgrees(p: Params, n: nat, planes: Planes, g: nat, k: nat, w: Window)
    requires FillersOk(p, n, planes) && g < n && k <= 6
    requires Healthy(p, w) && Holds(p, n, planes, g, k, w) && SourceOk(p, GroupSource(p, n, planes, g))
    ensures Agrees(p, n, planes, g, w, GroupFrom(p, k))
    ensures Holds(p, n, planes, g, 6, RunAll(p, w, GroupFrom(p, k), GroupSource(p, n, planes, g)))
    decreases 6 - k
  {
    hide Healthy, Holds, PassFrom, PassEnd;
    if k < 6 {
      hide Agrees, RunAll, Mid, SourceOk, PlanesOk, FillersOk;
      var src := GroupSource(p, n, planes, g);
      PassStart(p, n, planes, g, k, w);
      PassAgrees(p, n, planes, g, k, w, 0, 1);
      var w1 := RunAll(p, w, PassFrom(p, k, 0, 1), src);
      PassEndHolds(p, n, planes, g, k, w1);
      var w2 := RunAll(p, w1, PassEnd(p, k), src);
      GroupAgrees(p, n, planes, g, k + 1, w2);
      AgreesConcat(p, n, planes, g, w, PassFrom(p, k, 0, 1), PassEnd(p, k));
      RunConcat(p, w, PassFrom(p, k, 0, 1), PassEnd(p, k), src);
      AgreesConcat(p, n, planes, g, w, PassFrom(p, k, 0, 1) + PassEnd(p, k), GroupFrom(p, k + 1));
      RunConcat(p, w, PassFrom(p, k, 0, 1) + PassEnd(p, k), GroupFrom(p, k + 1), src);
    }
  }

  lemma PassStart(p: Params, n: nat, planes: Planes, g: nat, k: nat, w: Window)
    requires PlanesOk(p, n, planes) && g < n && k < 6 && Holds(p, n, planes, g, k, w)
    ensures Mid(p, n, planes, g, k, w, 0, 1)
  {
  }
}
