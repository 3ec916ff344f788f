// A light-cycle player: its hole timers, its rect on the play area, its trail
// anchor and the collision flags that decide its death. The random draws, the
// rounded movement of the frame, the drawing point behind the head and the
// trail-mask overlap are given to each update from outside.

module Players {

  import opened Options
  import opened Geometry
  import opened Holes
  import opened Trails

  const DEFAULT_WIDTH: nat := 7
  const INITIAL_SPEED: real := 3.0
  /** Spawn centres keep this many pixels from every edge of the play area. */
  const SPAWN_MARGIN: int := 30

  /** The random draws of `reset`: the exponential cool-off sample, the
      velocity `INITIAL_SPEED * (1, 0).rotate(angle)` and the spawn centre
      drawn with `np.random.randint` (upper bounds exclusive). */
  datatype Spawn = Spawn(exponential: real, velocity: Velocity, centre: Point)

  predicate ValidSpawn(s: Spawn, playArea: Rect) {
    s.exponential >= 0.0 &&
    s.velocity.x * s.velocity.x + s.velocity.y * s.velocity.y == INITIAL_SPEED * INITIAL_SPEED &&
    SPAWN_MARGIN <= s.centre.x < playArea.width - SPAWN_MARGIN &&
    SPAWN_MARGIN <= s.centre.y < playArea.height - SPAWN_MARGIN
  }

  /** `play_area.get_rect()` as every player sees it: `Board.PLAY_AREA_RECT`
      is 1540 x 1040, and a surface's own rect has its corner at the origin. */
  const PLAY_AREA: Rect := Rect(0, 0, 1540, 1040)

  /** A freshly spawned player lies inside the play area, so it is never out
      of bounds on its first frame. This holds for any play area with its
      corner at the origin that is wide and high enough for `randint`. */
  lemma SpawnInsidePlayArea(s: Spawn, playArea: Rect)
    requires playArea.left == 0 && playArea.top == 0 && ValidSpawn(s, playArea)
    ensures Contains(playArea, SquareAround(s.centre, DEFAULT_WIDTH))
    ensures !OutOfBounds(playArea, SquareAround(s.centre, DEFAULT_WIDTH))
  {
  }

  /** What one `update` consumes from outside: the hole draws, the rounded
      movement of the rect, the trail-mask overlap at the new position and
      the drawing point `_calc_drawing_point` returns. */
  datatype StepInput = StepInput(draws: Draws, movement: Point, overlap: Overlap, drawingPoint: Point)

  /** The player fields the core reads and writes. */
  datatype PlayerState = PlayerState(
    hole: HoleState, rect: Rect, anchor: Option<Point>,
    trailCollision: bool, outOfBounds: bool,
    width: int, velocity: Velocity, score: int)

  /** The new fields of the player after one `update`, whether it killed
      itself, and the line it drew on the trail surface. */
  datatype Outcome = Outcome(state: PlayerState, killed: bool, drawn: Option<Segment>)

  /** One `update`: hole timers, move, collision flags, death, trail. The
      player dies exactly when the overlap query fails or finds trail, or the
      moved rect leaves the play area; whether it dies or not, it still draws
      (or re-seeds its anchor) in that same update, and it never changes its
      velocity, width or score. */
  function Step(s: PlayerState, playArea: Rect, input: StepInput): (r: Outcome)
    requires WellFormed(s.hole) && ValidDraws(input.draws)
    ensures r.state.hole == Next(s.hole, input.draws) && WellFormed(r.state.hole)
    ensures r.state.rect == s.rect.MovedBy(input.movement.x, input.movement.y)
    ensures r.killed <==> Dies(input.overlap, playArea, r.state.rect)
    ensures r.state.anchor.Some?
    ensures r.state.velocity == s.velocity && r.state.width == s.width && r.state.score == s.score
    ensures AnchorStep(r.state.anchor, r.drawn) ==
              Advance(r.state.hole.drawing, s.anchor, input.drawingPoint, s.width)
    ensures r.drawn.Some? ==>
              s.anchor.Some? && r.drawn.value == Segment(s.anchor.value, input.drawingPoint, s.width) &&
              LongEnough(r.drawn.value)
  {
    var hole := Next(s.hole, input.draws);
    var rect := s.rect.MovedBy(input.movement.x, input.movement.y);
    var collided := TrailCollision(input.overlap);
    var outside := OutOfBounds(playArea, rect);
    var trail := Advance(hole.drawing, s.anchor, input.drawingPoint, s.width);
    Outcome(s.(hole := hole, rect := rect, anchor := trail.anchor,
               trailCollision := collided, outOfBounds := outside),
            collided || outside, trail.drawn)
  }

  /** The player fields after `reset`: fresh hole timers with no hole open,
      a square of DEFAULT_WIDTH around the spawn centre, the spawn velocity,
      no anchor and not out of bounds; the score and the trail flag stay. */
  function Respawned(s: PlayerState, spawn: Spawn): (r: PlayerState)
    requires spawn.exponential >= 0.0
    ensures WellFormed(r.hole) && !r.hole.drawing && r.hole.cooloff >= HOLE_COOLOFF
    ensures r.anchor.None? && !r.outOfBounds
    ensures r.score == s.score && r.trailCollision == s.trailCollision
  {
    s.(hole := Initial(spawn.exponential), rect := SquareAround(spawn.centre, DEFAULT_WIDTH),
       anchor := None, outOfBounds := false, width := DEFAULT_WIDTH, velocity := spawn.velocity)
  }

  /** During a hole (including the update that opens it) nothing is drawn and
      the anchor follows the drawing point; the first update after a reset
      also draws nothing. */
  lemma StepInHoleDrawsNothing(s: PlayerState, playArea: Rect, input: StepInput)
    requires WellFormed(s.hole) && ValidDraws(input.draws)
    requires Next(s.hole, input.draws).drawing || s.anchor.None?
    ensures Step(s, playArea, input).drawn.None?
    ensures Step(s, playArea, input).state.anchor == Some(input.drawingPoint)
  {
  }

  class Player {
    var score: int
    var holeCooloffTimer: real
    var holeDrawTimer: Option<real>
    var isHoleBeingDrawn: bool
    var velocity: Velocity
    var width: int
    var outOfBounds: bool
    var trailCollision: bool
    var sourceTrailPoint: Option<Point>
    var rect: Rect

    ghost predicate Valid()
      reads this
    {
      WellFormed(Hole())
    }

    function Hole(): HoleState
      reads this
    {
      HoleState(isHoleBeingDrawn, holeCooloffTimer, holeDrawTimer)
    }

    function State(): PlayerState
      reads this
    {
      PlayerState(Hole(), rect, sourceTrailPoint, trailCollision, outOfBounds,
                   width, velocity, score)
    }

    /** `Player.__init__`: score 0, then `reset`. */
    constructor (spawn: Spawn)
      requires ValidSpawn(spawn, PLAY_AREA)
      ensures Valid() && score == 0
      ensures Hole() == Initial(spawn.exponential)
      ensures sourceTrailPoint.None? && !outOfBounds && width == DEFAULT_WIDTH
      ensures rect == SquareAround(spawn.centre, DEFAULT_WIDTH) && velocity == spawn.velocity
    {
      score := 0;
      new;
      Reset(spawn);
    }

    /** `reset`: new hole timers, velocity and spawn position; the score is
        kept. */
    method Reset(spawn: Spawn)
      requires ValidSpawn(spawn, PLAY_AREA)
      modifies this
      ensures Valid() && State() == Respawned(old(State()), spawn)
    {
      holeCooloffTimer := Cooloff(spawn.exponential);
      holeDrawTimer := None;
      isHoleBeingDrawn := false;
      velocity := spawn.velocity;
      width := DEFAULT_WIDTH;
      outOfBounds := false;
      sourceTrailPoint := None;
      rect := SquareAround(spawn.centre, DEFAULT_WIDTH);
    }

    /** `_update_hole_stats` */
    method UpdateHoleStats(d: Draws)
      requires Valid() && ValidDraws(d)
      modifies this`holeCooloffTimer, this`holeDrawTimer, this`isHoleBeingDrawn
      ensures Valid() && Hole() == Next(old(Hole()), d)
    {
      if !isHoleBeingDrawn {
        holeCooloffTimer := holeCooloffTimer - TICK;
        if holeCooloffTimer <= 0.0 {
          isHoleBeingDrawn := true;
          holeDrawTimer := Some(d.uniform);
        }
      } else {
        holeDrawTimer := Some(holeDrawTimer.value - TICK);
        if holeDrawTimer.value <= 0.0 {
          isHoleBeingDrawn := false;
          holeCooloffTimer := Cooloff(d.exponential);
        }
      }
    }

    /** `_check_collisions` */
    method CheckCollisions(overlap: Overlap)
      modifies this`trailCollision, this`outOfBounds
      ensures trailCollision == TrailCollision(overlap)
      ensures outOfBounds == OutOfBounds(PLAY_AREA, rect)
    {
      trailCollision := TrailCollision(overlap);
      outOfBounds := OutOfBounds(PLAY_AREA, rect);
    }

    /** `_check_death` */
    predicate CheckDeath()
      reads this
    {
      trailCollision || outOfBounds
    }

    /** `_draw_trail`: returns the line drawn on the trail surface, if any. */
    method DrawTrail(dest: Point) returns (drawn: Option<Segment>)
      requires sourceTrailPoint.Some?
      modifies this`sourceTrailPoint
      ensures AnchorStep(sourceTrailPoint, drawn) ==
              Trails.DrawTrail(old(sourceTrailPoint.value), dest, width)
    {
      drawn := None;
      var source := sourceTrailPoint.value;
      if FarEnough(source, dest) {
        drawn := Some(Segment(source, dest, width));
        sourceTrailPoint := Some(dest);
      }
    }

    /** The trail branch of `update`: with no hole open and an anchor set,
        `_draw_trail`; otherwise re-seed the anchor at the drawing point. */
    method UpdateTrail(dest: Point) returns (drawn: Option<Segment>)
      modifies this`sourceTrailPoint
      ensures AnchorStep(sourceTrailPoint, drawn) ==
              Advance(isHoleBeingDrawn, old(sourceTrailPoint), dest, width)
    {
      if !isHoleBeingDrawn && sourceTrailPoint.Some? {
        drawn := DrawTrail(dest);
      } else {
        sourceTrailPoint := Some(dest);
        drawn := None;
      }
    }

    /** `update`; `killed` stands for the call to `self.kill()`, which removes
        the player from the round's sprite group. */
    method Update(input: StepInput) returns (killed: bool, drawn: Option<Segment>)
      requires Valid() && ValidDraws(input.draws)
      modifies this
      ensures Valid()
      ensures Outcome(State(), killed, drawn) == Step(old(State()), PLAY_AREA, input)
    {
      ghost var r := Step(State(), PLAY_AREA, input);
      UpdateHoleStats(input.draws);
      assert Hole() == r.state.hole;
      rect := rect.MovedBy(input.movement.x, input.movement.y);
      assert rect == r.state.rect;
      CheckCollisions(input.overlap);
      assert trailCollision == r.state.trailCollision && outOfBounds == r.state.outOfBounds;
      killed := CheckDeath();
      assert killed == r.killed;
      drawn := UpdateTrail(input.drawingPoint);
      assert sourceTrailPoint == r.state.anchor && drawn == r.drawn;
    }
  }
}
