/** Raster strips through the codec, and the tiling of strips into the raster. */
module FujiImage {
  import opened Bits
  import opened FujiCodec
  import opened FujiWindow
  import opened FujiSchedule
  import opened FujiPlanes
  import opened FujiRolling
  import opened FujiStrip
  import opened FujiRaster

  // ---------------------------------------------------------------- losslessness of a raster strip

  /** The bits of a raster strip, as an encoder that keeps whole colour planes emits them. */
  ghost function StripStream(p: Params, cfa: Cfa, blockWidth: nat, n: nat, width: nat, image: seq<seq<int>>): seq<bool>
    requires CfaOk(p, cfa) && StripOk(p, blockWidth, n, width, image)
  {
    HealthyTables(p, InitialWindow(p));
    StripCode(p, n, RasterPlanes(p, cfa, blockWidth, n, width, image), 0, InitialWindow(p).even, InitialWindow(p).odd)
  }

  /** Pixel (r, c) of a group, as the copy loops fetch it from the line buffers. */
  function PixelOf(p: Params, cfa: Cfa, lines: seq<seq<int>>, r: nat, c: nat): int
    requires CfaShape(p, cfa) && r < 6 && |lines| == LINES
    requires PixelIndex(p, c) + 1 < |lines[PixelLine(p, cfa, r, c)]|
  {
    lines[PixelLine(p, cfa, r, c)][PixelIndex(p, c) + 1]
  }

  /** A pixel of the raster is where the copy loops will fetch it. */
  ghost predicate RestoresAt(p: Params, cfa: Cfa, n: nat, width: nat, image: seq<seq<int>>, groups: seq<seq<seq<int>>>, g: nat, r: nat, c: nat)
    requires CfaShape(p, cfa) && |image| == 6 * n && (forall r :: 0 <= r < |image| ==> |image[r]| == width)
    requires |groups| == n && g < n && r < 6 && c < width
  {
    && |groups[g]| == LINES
    && PixelIndex(p, c) + 1 < |groups[g][PixelLine(p, cfa, r, c)]|
    && PixelOf(p, cfa, groups[g], r, c) == image[6 * g + r][c]
  }

  ghost predicate Restores(p: Params, cfa: Cfa, n: nat, width: nat, image: seq<seq<int>>, groups: seq<seq<seq<int>>>)
    requires CfaShape(p, cfa) && |image| == 6 * n && forall r :: 0 <= r < |image| ==> |image[r]| == width
  {
    |groups| == n && forall g, r, c :: 0 <= g < n && 0 <= r < 6 && 0 <= c < width ==>
      RestoresAt(p, cfa, n, width, image, groups, g, r, c)
  }

  /** Losslessness: every raster strip comes back from its stream pixel for pixel, without
      error, and the stream is consumed to the bit. */
  lemma RasterLossless(p: Params, cfa: Cfa, blockWidth: nat, n: nat, width: nat, image: seq<seq<int>>, tail: seq<bool>)
    requires CfaOk(p, cfa) && StripOk(p, blockWidth, n, width, image)
    ensures var d := DecodeGroups(p, InitialWindow(p), n, StripStream(p, cfa, blockWidth, n, width, image) + tail);
            && d.Some? && d.value.rest == tail && d.value.errors == 0
            && Restores(p, cfa, n, width, image, d.value.groups)
  {
    hide CfaOk, WidthOk, InRange, PixelLine, PixelIndex, RasterPlanes, StripCode, DecodeGroups, ShowsStrip, Row, PlanesOk, Holds, TablesOk;
    assert CfaShape(p, cfa) by { CfaHasShape(p, cfa); }
    var planes := RasterPlanes(p, cfa, blockWidth, n, width, image);
    RasterPlanesOk(p, cfa, blockWidth, n, width, image);
    if n > 0 { InitialHolds(p, n, planes); }
    StripLossless(p, n, planes, 0, InitialWindow(p), tail);
    var groups := DecodeGroups(p, InitialWindow(p), n, StripStream(p, cfa, blockWidth, n, width, image) + tail).value.groups;
    GroupsInRange(p, InitialWindow(p), n, StripStream(p, cfa, blockWidth, n, width, image) + tail);
    forall g, r, c | 0 <= g < n && 0 <= r < 6 && 0 <= c < width
      ensures RestoresAt(p, cfa, n, width, image, groups, g, r, c)
    {
      ShowsStripAt(p, n, planes, 0, groups, g);
      RasterPixel(p, cfa, blockWidth, n, width, image, g, r, c);
      ShowsLine(p, n, planes, g, groups[g], PixelLine(p, cfa, r, c));
    }
  }

  lemma ShowsLine(p: Params, n: nat, planes: Planes, g: nat, lines: seq<seq<int>>, l: nat)
    requires PlanesOk(p, n, planes) && g < n && ShowsGroup(p, n, planes, g, lines) && l < LINES
    ensures |lines| == LINES && lines[l] == Row(p, n, planes, g, l)
  {
  }
}
