// What one player update does with its trail and whether it kills the player:
// the trail anchor (`source_trail_point`) batches small moves into lines of at
// least TRAIL_PIXEL_DELAY pixels, and death is a trail overlap or leaving the
// play area.

module Trails {

  import opened Options
  import opened Geometry

  const TRAIL_PIXEL_DELAY: int := 5

  /** A line `pg.draw.line(trails, color, from, to, width)` on the trail surface. */
  datatype Segment = Segment(from: Point, to: Point, width: int)

  /** `dest` is at least TRAIL_PIXEL_DELAY pixels from `anchor`: the test
      `_draw_trail` makes before it draws. */
  predicate FarEnough(anchor: Point, dest: Point) {
    SquaredDistance(dest, anchor) >= TRAIL_PIXEL_DELAY * TRAIL_PIXEL_DELAY
  }

  /** A line that `_draw_trail` could have drawn: at least TRAIL_PIXEL_DELAY long. */
  predicate LongEnough(s: Segment) {
    FarEnough(s.from, s.to)
  }

  /** The anchor after an update and the line drawn by it, if any. */
  datatype AnchorStep = AnchorStep(anchor: Option<Point>, drawn: Option<Segment>)

  /** `_draw_trail`: draw from the anchor to `dest` and move the anchor there,
      but only once `dest` is at least TRAIL_PIXEL_DELAY pixels away. */
  function DrawTrail(anchor: Point, dest: Point, width: int): (r: AnchorStep)
    ensures r.drawn.Some? <==> FarEnough(anchor, dest)
    ensures r.drawn.Some? ==>
              r.drawn.value == Segment(anchor, dest, width) && r.anchor == Some(dest)
    ensures r.drawn.None? ==> r.anchor == Some(anchor)
  {
    if FarEnough(anchor, dest) then
      AnchorStep(Some(dest), Some(Segment(anchor, dest, width)))
    else
      AnchorStep(Some(anchor), None)
  }

  /** The trail part of `update`: with no hole open and an anchor set, try to
      draw up to the drawing point `dest`; otherwise draw nothing and re-seed
      the anchor at `dest`. */
  function Advance(holeOpen: bool, anchor: Option<Point>, dest: Point, width: int): (r: AnchorStep)
    ensures r.anchor.Some?
    ensures r.drawn.Some? <==> !holeOpen && anchor.Some? && FarEnough(anchor.value, dest)
    ensures r.drawn.Some? ==>
              r.drawn.value == Segment(anchor.value, dest, width) && r.anchor == Some(dest)
    ensures !holeOpen && anchor.Some? && r.drawn.None? ==> r.anchor == anchor
    ensures holeOpen || anchor.None? ==> r.anchor == Some(dest)
  {
    if !holeOpen && anchor.Some? then DrawTrail(anchor.value, dest, width)
    else AnchorStep(Some(dest), None)
  }

  /** The anchor and the lines drawn after a run of updates with no hole open,
      one drawing point per update. */
  function DrawRun(anchor: Point, dests: seq<Point>, width: int): (Point, seq<Segment>)
    decreases |dests|
  {
    if dests == [] then (anchor, [])
    else
      var step := Advance(false, Some(anchor), dests[0], width);
      var rest := DrawRun(step.anchor.value, dests[1..], width);
      (rest.0, (if step.drawn.Some? then [step.drawn.value] else []) + rest.1)
  }

  /** `segs` form one connected polyline from `start` to `end`, each line of
      width `width` and at least TRAIL_PIXEL_DELAY long. */
  ghost predicate Polyline(start: Point, segs: seq<Segment>, end: Point, width: int) {
    (segs == [] ==> start == end) &&
    (segs != [] ==> segs[0].from == start && segs[|segs| - 1].to == end) &&
    (forall i :: 0 <= i < |segs| - 1 ==> segs[i].to == segs[i + 1].from) &&
    (forall i :: 0 <= i < |segs| ==>
       segs[i].width == width && LongEnough(segs[i]))
  }

  /** Between holes the trail is one unbroken polyline that starts at the
      anchor and ends at the current anchor: batching never leaves a gap. */
  lemma {:induction false} DrawRunIsPolyline(anchor: Point, dests: seq<Point>, width: int)
    ensures Polyline(anchor, DrawRun(anchor, dests, width).1, DrawRun(anchor, dests, width).0, width)
    decreases |dests|
  {
    if dests != [] {
      var step := Advance(false, Some(anchor), dests[0], width);
      DrawRunIsPolyline(step.anchor.value, dests[1..], width);
    }
  }

  /** The result of `trails_mask.overlap_area(...)`: a pixel count, or the
      IndexError it raises. */
  datatype Overlap = Pixels(count: nat) | MaskIndexError

  /** `_check_collisions`' trail flag: a failing query counts as a collision. */
  predicate TrailCollision(o: Overlap) {
    o.MaskIndexError? || o.count > 0
  }

  /** `_check_collisions`' bounds flag. */
  predicate OutOfBounds(playArea: Rect, rect: Rect) {
    !Contains(playArea, rect)
  }

  /** `_check_death`. */
  predicate Dies(o: Overlap, playArea: Rect, rect: Rect) {
    TrailCollision(o) || OutOfBounds(playArea, rect)
  }

  /** A player dies iff the mask query fails or finds trail pixels, or some
      pixel of its rect lies outside the play area. */
  lemma DiesIffCollisionOrPixelOutside(o: Overlap, playArea: Rect, rect: Rect)
    requires rect.width > 0 && rect.height > 0
    ensures Dies(o, playArea, rect) <==>
              o.MaskIndexError? || (o.Pixels? && o.count > 0) ||
              exists x, y :: rect.HasPixel(x, y) && !playArea.HasPixel(x, y)
  {
    ContainsIffAllPixelsInside(playArea, rect);
  }
}
