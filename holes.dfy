// The hole scheduler of a player: a two-state timer machine that alternates
// between cooling off (trail drawn) and drawing a hole (trail suspended).
// Timers are seconds; every update advances them by one frame, 1/FPS.

module Holes {

  import opened Options

  const FPS: int := 30
  /** Length of one frame in seconds (`1 / FPS`). */
  const TICK: real := 1.0 / 30.0

  const HOLE_COOLOFF: real := 2.0
  const HOLE_TIME_LOW: real := 0.2
  const HOLE_TIME_HIGH: real := 0.3

  /** The random draws one update may consume: a sample of
      `np.random.uniform(0.2, 0.3)` and a non-negative sample of
      `np.random.exponential(FPS * (EXPECTED_TIME_BETWEEN_HOLES - HOLE_COOLOFF))`,
      whose scale of 30 * (4 - 2) = 60 frames only shapes the distribution
      and so does not appear in the model. */
  datatype Draws = Draws(uniform: real, exponential: real)

  predicate ValidDraws(d: Draws) {
    HOLE_TIME_LOW <= d.uniform < HOLE_TIME_HIGH && d.exponential >= 0.0
  }

  /** The player's fields `is_hole_being_drawn`, `hole_cooloff_timer` and
      `hole_draw_timer` (None until the first hole starts). */
  datatype HoleState = HoleState(drawing: bool, cooloff: real, drawTimer: Option<real>)

  /** While a hole is drawn its draw timer is set. */
  predicate WellFormed(h: HoleState) {
    h.drawing ==> h.drawTimer.Some?
  }

  /** A fresh cool-off: HOLE_COOLOFF plus the exponential sample in seconds. */
  function Cooloff(exponential: real): (c: real)
    requires exponential >= 0.0
    ensures c >= HOLE_COOLOFF
  {
    HOLE_COOLOFF + exponential / FPS as real
  }

  /** The hole state just after `reset`. */
  function Initial(exponential: real): (h: HoleState)
    requires exponential >= 0.0
    ensures WellFormed(h) && !h.drawing && h.drawTimer.None?
    ensures h.cooloff >= HOLE_COOLOFF
  {
    HoleState(false, Cooloff(exponential), None)
  }

  /** One `_update_hole_stats` call. */
  function Next(h: HoleState, d: Draws): (r: HoleState)
    requires WellFormed(h) && ValidDraws(d)
    ensures WellFormed(r)
    // cooling off: the cool-off timer drops by one frame; the hole starts
    // exactly when it reaches zero, with a draw time in HOLE_TIME_RANGE
    ensures !h.drawing ==> r.cooloff == h.cooloff - TICK
    ensures !h.drawing ==> (r.drawing <==> r.cooloff <= 0.0)
    ensures !h.drawing && r.drawing ==>
              HOLE_TIME_LOW <= r.drawTimer.value < HOLE_TIME_HIGH
    ensures !h.drawing && !r.drawing ==> r.drawTimer == h.drawTimer
    // drawing a hole: the draw timer drops by one frame; the hole ends
    // exactly when it reaches zero, with a cool-off of at least HOLE_COOLOFF
    ensures h.drawing ==> r.drawTimer == Some(h.drawTimer.value - TICK)
    ensures h.drawing ==> (r.drawing <==> r.drawTimer.value > 0.0)
    ensures h.drawing && !r.drawing ==> r.cooloff >= HOLE_COOLOFF
    ensures h.drawing && r.drawing ==> r.cooloff == h.cooloff
  {
    if !h.drawing then
      var c := h.cooloff - TICK;
      if c <= 0.0 then HoleState(true, c, Some(d.uniform))
      else HoleState(false, c, h.drawTimer)
    else
      var t := h.drawTimer.value - TICK;
      if t <= 0.0 then HoleState(false, Cooloff(d.exponential), Some(t))
      else HoleState(true, h.cooloff, Some(t))
  }

  predicate AllValid(ds: seq<Draws>) {
    forall i :: 0 <= i < |ds| ==> ValidDraws(ds[i])
  }

  /** The hole state after one update per element of `ds`. */
  function Run(h: HoleState, ds: seq<Draws>): (r: HoleState)
    requires WellFormed(h) && AllValid(ds)
    ensures WellFormed(r)
    decreases |ds|
  {
    if ds == [] then h else Run(Next(h, ds[0]), ds[1..])
  }

  /** While the cool-off timer exceeds the time of the frames to come, no hole
      starts and the timer falls by exactly one frame per update. */
  lemma {:induction false} CoolingContinues(h: HoleState, ds: seq<Draws>)
    requires WellFormed(h) && AllValid(ds)
    requires !h.drawing && h.cooloff > |ds| as real * TICK
    ensures !Run(h, ds).drawing
    ensures Run(h, ds).cooloff == h.cooloff - |ds| as real * TICK
    decreases |ds|
  {
    if ds != [] {
      CoolingContinues(Next(h, ds[0]), ds[1..]);
    }
  }

  /** A cool-off of at least HOLE_COOLOFF (after `reset` or after a hole)
      keeps the trail drawn for the next 2 * FPS - 1 = 59 updates. */
  lemma NoHoleWithinCooloff(h: HoleState, ds: seq<Draws>)
    requires WellFormed(h) && AllValid(ds)
    requires !h.drawing && h.cooloff >= HOLE_COOLOFF
    requires |ds| < 60
    ensures !Run(h, ds).drawing
  {
    CoolingContinues(h, ds);
  }

  /** While the draw timer exceeds the time of the frames to come, the hole
      stays open and the timer falls by exactly one frame per update. */
  lemma {:induction false} HoleContinues(h: HoleState, ds: seq<Draws>)
    requires WellFormed(h) && AllValid(ds)
    requires h.drawing && h.drawTimer.value > |ds| as real * TICK
    ensures Run(h, ds).drawing
    ensures Run(h, ds).drawTimer == Some(h.drawTimer.value - |ds| as real * TICK)
    decreases |ds|
  {
    if ds != [] {
      HoleContinues(Next(h, ds[0]), ds[1..]);
    }
  }

  /** An open hole (whose draw timer is positive, as `Next` leaves it) whose
      timer runs out within the next `|ds|` updates (at most 60) is closed
      after them: the cool-off it restarts does not expire in what remains. */
  lemma {:induction false} HoleCloses(h: HoleState, ds: seq<Draws>)
    requires WellFormed(h) && AllValid(ds)
    requires h.drawing && 0.0 < h.drawTimer.value <= |ds| as real * TICK
    requires |ds| <= 60
    ensures !Run(h, ds).drawing
    decreases |ds|
  {
    var h1 := Next(h, ds[0]);
    if h1.drawing {
      HoleCloses(h1, ds[1..]);
    } else {
      NoHoleWithinCooloff(h1, ds[1..]);
    }
  }

  /** A hole just opened (draw time in [0.2, 0.3)) is still open after five
      more updates and closed after nine: counting the update that opened
      it, between 6 and 9 frames go without trail. */
  lemma HoleLength(h: HoleState, five: seq<Draws>, nine: seq<Draws>)
    requires WellFormed(h) && AllValid(five) && AllValid(nine)
    requires h.drawing && HOLE_TIME_LOW <= h.drawTimer.value < HOLE_TIME_HIGH
    requires |five| == 5 && |nine| == 9
    ensures Run(h, five).drawing
    ensures !Run(h, nine).drawing
  {
    HoleContinues(h, five);
    HoleCloses(h, nine);
  }
}
