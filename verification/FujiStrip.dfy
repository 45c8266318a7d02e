/** A whole strip: groups of six raster rows, the rotation of the line buffers between them,
    and losslessness of the strip against the encoder that keeps whole planes. */
module FujiStrip {
  import opened Bits
  import opened FujiCodec
  import opened FujiWindow
  import opened FujiSchedule
  import opened FujiPlanes
  import opened FujiRolling

  // ---------------------------------------------------------------- rotation

  /** A fresh first line of a colour: only its padding is set, from the line before it. */
  function FreshLine(p: Params, before: seq<int>): (r: seq<int>)
    requires |before| == p.lineWidth + 2
    ensures |r| == p.lineWidth + 2
  {
    [before[1]] + seq(p.lineWidth, _ => 0) + [before[p.lineWidth]]
  }

  /** fuji_decode_strip between two groups: the last two lines of each colour become the first
      two, the others are cleared, and the first cleared line of each colour gets its padding. */
  function Rotated(p: Params, lines: seq<seq<int>>): (r: seq<seq<int>>)
    requires |lines| == LINES && forall l :: 0 <= l < LINES ==> |lines[l]| == p.lineWidth + 2
    ensures |r| == LINES && forall l :: 0 <= l < LINES ==> |r[l]| == p.lineWidth + 2
  {
    var z := seq(p.lineWidth + 2, _ => 0);
    [lines[3], lines[4], FreshLine(p, lines[4]), z, z,
     lines[11], lines[12], FreshLine(p, lines[12]), z, z, z, z, z,
     lines[16], lines[17], FreshLine(p, lines[17]), z, z]
  }

  lemma RotateKeeps(p: Params, w: Window)
    requires Healthy(p, w) && p.lineWidth > 0
    ensures Healthy(p, w.(lines := Rotated(p, w.lines)))
  {
    CellInRange(p.depth, w.lines[4], 1);
    CellInRange(p.depth, w.lines[4], p.lineWidth);
    CellInRange(p.depth, w.lines[12], 1);
    CellInRange(p.depth, w.lines[12], p.lineWidth);
    CellInRange(p.depth, w.lines[17], 1);
    CellInRange(p.depth, w.lines[17], p.lineWidth);
    forall l | 0 <= l < LINES
      ensures InRange(p.depth, Rotated(p, w.lines)[l])
    {
    }
  }

  /** The rows that the carried lines stand for. */
  lemma RotateRows(p: Params, n: nat, planes: Planes, g: nat)
    requires PlanesOk(p, n, planes) && g + 1 < n
    ensures Row(p, n, planes, g + 1, 0) == Row(p, n, planes, g, 3) && Row(p, n, planes, g + 1, 1) == Row(p, n, planes, g, 4)
    ensures Row(p, n, planes, g + 1, 5) == Row(p, n, planes, g, 11) && Row(p, n, planes, g + 1, 6) == Row(p, n, planes, g, 12)
    ensures Row(p, n, planes, g + 1, 13) == Row(p, n, planes, g, 16) && Row(p, n, planes, g + 1, 14) == Row(p, n, planes, g, 17)
  {
    hide PadRow, PlanesOk;
  }

  lemma RotatedCarried(p: Params, n: nat, planes: Planes, g: nat, w: Window, l: nat)
    requires PlanesOk(p, n, planes) && g + 1 < n && ShowsGroup(p, n, planes, g, w.lines) && Shape(p, w)
    requires l in {0, 1, 5, 6, 13, 14}
    ensures Rotated(p, w.lines)[l] == Row(p, n, planes, g + 1, l)
  {
    hide Row, PlanesOk;
    RotateRows(p, n, planes, g);
  }

  lemma RotatedPads(p: Params, w: Window, l: nat)
    requires Shape(p, w) && l in {2, 7, 15}
    ensures Rotated(p, w.lines)[l][0] == Rotated(p, w.lines)[l - 1][1]
    ensures Rotated(p, w.lines)[l][p.lineWidth + 1] == Rotated(p, w.lines)[l - 1][p.lineWidth]
  {
  }

  /** The rotated window is the window of the next group. */
  lemma RotateHolds(p: Params, n: nat, planes: Planes, g: nat, w: Window)
    requires PlanesOk(p, n, planes) && g + 1 < n && ShowsGroup(p, n, planes, g, w.lines) && Healthy(p, w)
    ensures Holds(p, n, planes, g + 1, 0, Turned(p, w))
  {
    hide Row, Rank, PlanesOk, Rotated, Healthy, ShowsGroup;
    var r := Rotated(p, w.lines);
    forall l | 0 <= l < LINES && Rank(l) < 0 ensures r[l] == Row(p, n, planes, g + 1, l) {
      CarriedLines(l);
      RotatedCarried(p, n, planes, g, w, l);
    }
    forall l | 1 <= l < LINES && Rank(l) >= 0 && Rank(l - 1) < 0 ensures SamePads(r[l], Row(p, n, planes, g + 1, l)) {
      CarriedLines(l);
      RotatedPads(p, w, l);
      PadsOfRow(p, n, planes, g + 1, l);
    }
    DoneHolds(p, n, planes, g + 1, 0, Turned(p, w));
  }

  lemma CarriedRowsStartBlank(p: Params, n: nat, planes: Planes, l: nat)
    requires PlanesOk(p, n, planes) && 0 < n && l < LINES && Rank(l) < 0
    ensures Row(p, n, planes, 0, l) == seq(p.lineWidth + 2, _ => 0)
  {
    CarriedLines(l);
    assert RowOf(0, l) < 0;
  }

  lemma InitialHolds(p: Params, n: nat, planes: Planes)
    requires PlanesOk(p, n, planes) && 0 < n
    ensures Holds(p, n, planes, 0, 0, InitialWindow(p))
  {
    hide Row, Rank, PlanesOk;
    var w := InitialWindow(p);
    forall l | 0 <= l < LINES && Rank(l) < 0 ensures w.lines[l] == Row(p, n, planes, 0, l) {
      CarriedRowsStartBlank(p, n, planes, l);
    }
    forall l | 1 <= l < LINES && Rank(l) >= 0 && Rank(l - 1) < 0 ensures SamePads(w.lines[l], Row(p, n, planes, 0, l)) {
      PadsOfRow(p, n, planes, 0, l);
      CarriedRowsStartBlank(p, n, planes, l - 1);
    }
    DoneHolds(p, n, planes, 0, 0, w);
  }

  // ---------------------------------------------------------------- the strip

  /** What a strip yields: the line buffers as they are when each group is copied out. */
  datatype StripOutcome = StripOutcome(groups: seq<seq<seq<int>>>, rest: seq<bool>, errors: nat)

  predicate SnapshotOk(p: Params, lines: seq<seq<int>>) {
    |lines| == LINES && forall l :: 0 <= l < LINES ==> |lines[l]| == p.lineWidth + 2 && InRange(p.depth, lines[l])
  }

  lemma HealthySnapshot(p: Params, w: Window)
    requires Healthy(p, w)
    ensures SnapshotOk(p, w.lines)
  {
  }

  /** One call of the block decoder. */
  function DecodeGroup(p: Params, w: Window, bits: seq<bool>): (r: Option<Outcome>)
    requires p.lineWidth > 8 && Healthy(p, w)
    ensures r.Some? ==> Healthy(p, r.value.window) && SnapshotOk(p, r.value.window.lines)
  {
    var r := DecodeAll(p, w, GroupEvents(p), bits);
    if r.Some? then HealthySnapshot(p, r.value.window); r else r
  }

  /** The window that the next group starts from. */
  function Turned(p: Params, w: Window): (r: Window)
    requires p.lineWidth > 8 && Healthy(p, w)
    ensures Healthy(p, r)
  {
    RotateKeeps(p, w);
    w.(lines := Rotated(p, w.lines))
  }

  lemma TurnedTables(p: Params, w: Window)
    requires p.lineWidth > 8 && Healthy(p, w)
    ensures Turned(p, w).even == w.even && Turned(p, w).odd == w.odd
  {
  }

  /** `count` groups from a given window on. */
  function DecodeGroups(p: Params, w: Window, count: nat, bits: seq<bool>): (r: Option<StripOutcome>)
    requires p.lineWidth > 8 && Healthy(p, w)
    decreases count
  {
    if count == 0 then Some(StripOutcome([], bits, 0))
    else match DecodeGroup(p, w, bits)
      case None => None
      case Some(o) =>
        match DecodeGroups(p, Turned(p, o.window), count - 1, o.rest)
        case None => None
        case Some(s) => Some(StripOutcome([o.window.lines] + s.groups, s.rest, o.errors + s.errors))
  }

  ghost predicate AllSnapshots(p: Params, groups: seq<seq<seq<int>>>) {
    groups == [] || (SnapshotOk(p, groups[0]) && AllSnapshots(p, groups[1..]))
  }

  /** Whatever the stream, every decoded cell is a sample value. */
  lemma {:induction false} GroupsInRange(p: Params, w: Window, count: nat, bits: seq<bool>)
    requires p.lineWidth > 8 && Healthy(p, w) && DecodeGroups(p, w, count, bits).Some?
    ensures |DecodeGroups(p, w, count, bits).value.groups| == count
    ensures AllSnapshots(p, DecodeGroups(p, w, count, bits).value.groups)
    decreases count
  {
    hide Healthy, Shape, DecodeGroup, SnapshotOk, Turned;
    if count > 0 {
      var o := DecodeGroup(p, w, bits).value;
      GroupsInRange(p, Turned(p, o.window), count - 1, o.rest);
      var rest := DecodeGroups(p, Turned(p, o.window), count - 1, o.rest).value.groups;
      assert ([o.window.lines] + rest)[1..] == rest;
    }
  }

  /** At every event of every group of a strip all contexts are within the Golomb bound. */
  ghost predicate StripBounded(p: Params, w: Window, count: nat, bits: seq<bool>)
    requires p.lineWidth > 8 && Healthy(p, w)
    decreases count
  {
    Bounded(p, w) &&
    (count == 0 ||
     (AlwaysBounded(p, w, GroupEvents(p), bits) &&
      match DecodeGroup(p, w, bits)
      case None => true
      case Some(o) => Bounded(p, o.window) && StripBounded(p, Turned(p, o.window), count - 1, o.rest)))
  }

  /** So it is in every strip that is decoded without an error. */
  lemma {:induction false} StripStaysBounded(p: Params, w: Window, count: nat, bits: seq<bool>)
    requires p.lineWidth > 8 && Healthy(p, w) && Bounded(p, w) && DecodeGroups(p, w, count, bits).Some?
    requires DecodeGroups(p, w, count, bits).value.errors == 0
    ensures StripBounded(p, w, count, bits)
    decreases count
  {
    hide Healthy, Shape, Bounded, DecodeAll, AlwaysBounded, Turned, GroupEvents;
    if count > 0 {
      var o := DecodeGroup(p, w, bits).value;
      BoundOverRuns(p, w, GroupEvents(p), bits);
      TurnedBounded(p, o.window);
      StripStaysBounded(p, Turned(p, o.window), count - 1, o.rest);
    }
  }

  lemma TurnedBounded(p: Params, w: Window)
    requires p.lineWidth > 8 && Healthy(p, w) && Bounded(p, w)
    ensures Bounded(p, Turned(p, w))
  {
    TurnedTables(p, w);
    hide Turned, Healthy;
  }

  /** From init_fuji_block on: an error-free strip never feels the cap of 13 in bitDiff. */
  lemma ErrorFreeStrip(p: Params, count: nat, bits: seq<bool>)
    requires p.lineWidth > 8 && DecodeGroups(p, InitialWindow(p), count, bits).Some?
    requires DecodeGroups(p, InitialWindow(p), count, bits).value.errors == 0
    ensures StripBounded(p, InitialWindow(p), count, bits)
  {
    hide InitialWindow, Healthy, Bounded, DecodeGroups, StripBounded;
    StripStaysBounded(p, InitialWindow(p), count, bits);
  }

  /** The strip encoder over whole planes, from group `g` on. */
  function StripCode(p: Params, n: nat, planes: Planes, g: nat, even: seq<Ctx>, odd: seq<Ctx>): seq<bool>
    requires PlanesOk(p, n, planes) && g <= n && TablesOk(even, odd)
    decreases n - g
  {
    if g == n then []
    else
      var r := PlaneCode(p, n, planes, g, GroupEvents(p), even, odd);
      r.bits + StripCode(p, n, planes, g + 1, r.even, r.odd)
  }

  /** One group: its bits decode to its rows, and the encoder that sees whole planes emits
      exactly them. */
  lemma GroupLossless(p: Params, n: nat, planes: Planes, g: nat, w: Window, tail: seq<bool>)
    requires FillersOk(p, n, planes) && g < n && Healthy(p, w) && Holds(p, n, planes, g, 0, w)
    ensures TablesOk(w.even, w.odd)
    ensures var r := PlaneCode(p, n, planes, g, GroupEvents(p), w.even, w.odd);
            var d := DecodeGroup(p, w, r.bits + tail);
            && d.Some? && d.value.rest == tail && d.value.errors == 0
            && d.value.window.even == r.even && d.value.window.odd == r.odd
            && ShowsGroup(p, n, planes, g, d.value.window.lines)
  {
    hide Holds, Healthy, GroupFrom, PlaneCode, DecodeAll, RunAll, EncodeAll, Agrees, TablesOk, PlanesOk;
    var evs := GroupEvents(p);
    GroupSourceOk(p, n, planes, g);
    GroupAgrees(p, n, planes, g, 0, w);
    SameBits(p, n, planes, g, w, evs);
    RoundTrip(p, w, evs, GroupSource(p, n, planes, g), tail);
    SixDone(p, n, planes, g, DecodeGroup(p, w, EncodeAll(p, w, evs, GroupSource(p, n, planes, g)) + tail).value.window);
  }

  /** A decoded group shows its plane rows in all the new lines. */
  ghost predicate ShowsGroup(p: Params, n: nat, planes: Planes, g: nat, lines: seq<seq<int>>)
    requires PlanesOk(p, n, planes) && g < n
  {
    |lines| == LINES && forall l :: 0 <= l < LINES ==> lines[l] == Row(p, n, planes, g, l)
  }

  /** Group after group, from group `g` to the last. */
  ghost predicate ShowsStrip(p: Params, n: nat, planes: Planes, g: nat, groups: seq<seq<seq<int>>>)
    requires PlanesOk(p, n, planes) && g <= n
    decreases n - g
  {
    if g == n then groups == []
    else groups != [] && ShowsGroup(p, n, planes, g, groups[0]) && ShowsStrip(p, n, planes, g + 1, groups[1..])
  }

  lemma {:induction false} ShowsStripAt(p: Params, n: nat, planes: Planes, g: nat, groups: seq<seq<seq<int>>>, i: nat)
    requires PlanesOk(p, n, planes) && g <= i < n && ShowsStrip(p, n, planes, g, groups)
    ensures |groups| == n - g && ShowsGroup(p, n, planes, i, groups[i - g])
    decreases n - g
  {
    hide ShowsGroup, PlanesOk;
    if g < i {
      ShowsStripAt(p, n, planes, g + 1, groups[1..], i);
    } else if g + 1 < n {
      ShowsStripAt(p, n, planes, g + 1, groups[1..], i + 1);
    }
  }

  /** Losslessness of the rest of a strip. */
  lemma {:induction false} StripLossless(p: Params, n: nat, planes: Planes, g: nat, w: Window, tail: seq<bool>)
    requires FillersOk(p, n, planes) && g <= n && Healthy(p, w)
    requires g < n ==> Holds(p, n, planes, g, 0, w)
    ensures TablesOk(w.even, w.odd)
    ensures var d := DecodeGroups(p, w, n - g, StripCode(p, n, planes, g, w.even, w.odd) + tail);
            && d.Some? && d.value.rest == tail && d.value.errors == 0
            && ShowsStrip(p, n, planes, g, d.value.groups)
    decreases n - g
  {
    hide Healthy, Shape, GroupEvents, PlaneCode, DecodeGroup, TablesOk, PlanesOk, FillersOk, Turned, Holds, ShowsGroup;
    HealthyTables(p, w);
    if g == n {
      assert [] + tail == tail;
    } else {
      var r := PlaneCode(p, n, planes, g, GroupEvents(p), w.even, w.odd);
      var more := StripCode(p, n, planes, g + 1, r.even, r.odd) + tail;
      assert StripCode(p, n, planes, g, w.even, w.odd) + tail == r.bits + more;
      GroupLossless(p, n, planes, g, w, more);
      var w1 := DecodeGroup(p, w, r.bits + more).value.window;
      var w2 := Turned(p, w1);
      TurnedTables(p, w1);
      if g + 1 < n { RotateHolds(p, n, planes, g, w1); }
      StripLossless(p, n, planes, g + 1, w2, tail);
      var rest := DecodeGroups(p, w2, n - g - 1, more).value.groups;
      assert ([w1.lines] + rest)[1..] == rest;
    }
  }

  lemma SixDone(p: Params, n: nat, planes: Planes, g: nat, w: Window)
    requires PlanesOk(p, n, planes) && g < n && Holds(p, n, planes, g, 6, w)
    ensures ShowsGroup(p, n, planes, g, w.lines)
  {
    hide Rank;
    forall l | 0 <= l < LINES
      ensures w.lines[l] == Row(p, n, planes, g, l)
    {
      RankBelow(l);
    }
  }
}
