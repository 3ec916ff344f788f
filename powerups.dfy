// Powerups: a timer machine that transforms its player once, counts down its
// alive time one frame per update, then undoes the transformation and kills
// itself. SelfSpeedUp doubles the player's velocity for its lifetime.

module Powerups {

  import opened Options
  import opened Geometry
  import opened Players

  const SPEED_FACTOR: real := 2.0
  const SPEED_UP_ALIVE_TIME: real := 5.0

  /** The subclass: `Powerup` itself (no effect) or `SelfSpeedUp`. */
  datatype Kind = Plain | SelfSpeedUp

  /** `transform` of each kind, on the player's velocity. */
  function TransformOf(kind: Kind, v: Velocity): Velocity {
    match kind
    case Plain => v
    case SelfSpeedUp => Scaled(v, SPEED_FACTOR)
  }

  /** `inv_transform` of each kind, on the player's velocity. */
  function InvTransformOf(kind: Kind, v: Velocity): Velocity {
    match kind
    case Plain => v
    case SelfSpeedUp => Divided(v, SPEED_FACTOR)
  }

  /** Undoing a transformation restores the velocity exactly (over reals);
      the base kind changes nothing at all. */
  lemma InvTransformUndoesTransform(kind: Kind, v: Velocity)
    ensures InvTransformOf(kind, TransformOf(kind, v)) == v
    ensures kind == Plain ==> TransformOf(kind, v) == v && InvTransformOf(kind, v) == v
  {
    ScaleDivideRoundTrip(v, SPEED_FACTOR);
  }

  /** A transformation never turns the player: the new velocity points the
      same way as the old one, and `SelfSpeedUp` doubles its speed. */
  lemma TransformKeepsDirection(kind: Kind, v: Velocity)
    ensures var t := TransformOf(kind, v);
      t.x * v.y == t.y * v.x && t.x * v.x + t.y * v.y >= 0.0
    ensures var t := TransformOf(kind, v);
      kind == SelfSpeedUp ==>
        t.x * t.x + t.y * t.y == SPEED_FACTOR * SPEED_FACTOR * (v.x * v.x + v.y * v.y)
  {
    assert v.x * v.x >= 0.0 && v.y * v.y >= 0.0;
  }

  /** The lifecycle of a powerup: its timer (None before the first update),
      whether it is still in its sprite group, and how many times `transform`
      and `inv_transform` have run. */
  datatype Life = Life(timer: Option<real>, alive: bool, transforms: nat, inverses: nat)

  const Unborn: Life := Life(None, true, 0, 0)

  /** One `update` call, with frame length `frame` = 1 / fps. */
  function Next(l: Life, aliveTime: real, frame: real): (r: Life)
    requires frame > 0.0
    ensures r.timer.Some?
    // `transform` runs exactly on the call that finds no timer, which then
    // starts at the alive time
    ensures r.transforms == l.transforms + (if l.timer.None? then 1 else 0)
    ensures l.timer.None? ==> r.timer == Some(aliveTime)
    // later calls with time left count down by exactly one frame
    ensures l.timer.Some? && l.timer.value > 0.0 ==> r.timer == Some(l.timer.value - frame)
    ensures l.timer.Some? && l.timer.value <= 0.0 ==> r.timer == l.timer
    // once no time is left, `inv_transform` runs and the powerup is killed
    ensures r.inverses == l.inverses + (if r.timer.value <= 0.0 then 1 else 0)
    ensures r.alive == (l.alive && r.timer.value > 0.0)
  {
    var timer :=
      if l.timer.None? then aliveTime
      else if l.timer.value > 0.0 then l.timer.value - frame
      else l.timer.value;
    var expired := timer <= 0.0;
    Life(Some(timer), l.alive && !expired,
         l.transforms + (if l.timer.None? then 1 else 0),
         l.inverses + (if expired then 1 else 0))
  }

  /** The lifecycle after `calls` frames of its sprite group, which stops
      updating the powerup once it is killed. However many frames pass, a
      powerup transforms its player at most once (and not again once its
      timer is set) and undoes it at most once; while it is alive it has
      undone nothing. */
  function Live(l: Life, aliveTime: real, frame: real, calls: nat): (r: Life)
    requires frame > 0.0
    ensures r.transforms <= l.transforms + 1 && r.inverses <= l.inverses + 1
    ensures l.timer.Some? ==> r.transforms == l.transforms
    ensures r.alive ==> l.alive && r.inverses == l.inverses
    decreases calls
  {
    if calls == 0 || !l.alive then l
    else Live(Next(l, aliveTime, frame), aliveTime, frame, calls - 1)
  }

  /** With more than `k` frames of time left, the next `k` updates only count
      down. */
  lemma {:induction false} CountsDown(t: real, aliveTime: real, frame: real, k: nat)
    requires frame > 0.0 && t > k as real * frame
    ensures Live(Life(Some(t), true, 1, 0), aliveTime, frame, k) ==
            Life(Some(t - k as real * frame), true, 1, 0)
    decreases k
  {
    if k > 0 {
      var t1, k1 := t - frame, k - 1;
      assert k1 as real * frame >= 0.0;
      assert t1 - k1 as real * frame == t - k as real * frame;
      assert Next(Life(Some(t), true, 1, 0), aliveTime, frame) == Life(Some(t1), true, 1, 0);
      CountsDown(t1, aliveTime, frame, k1);
      assert Live(Life(Some(t1), true, 1, 0), aliveTime, frame, k1) ==
             Life(Some(t1 - k1 as real * frame), true, 1, 0);
    }
  }

  /** With between `k - 1` and `k` frames of time left, the `k`-th update
      from now undoes the transformation and kills the powerup. */
  lemma {:induction false} ExpiresAfter(t: real, aliveTime: real, frame: real, k: nat)
    requires frame > 0.0 && k >= 1
    requires (k - 1) as real * frame < t <= k as real * frame
    ensures Live(Life(Some(t), true, 1, 0), aliveTime, frame, k) ==
            Life(Some(t - k as real * frame), false, 1, 1)
    decreases k
  {
    var t1, k1 := t - frame, k - 1;
    assert t1 - k1 as real * frame == t - k as real * frame;
    if k1 > 0 {
      assert (k1 - 1) as real * frame >= 0.0;
      assert k1 as real * frame == (k1 - 1) as real * frame + frame;
      assert Next(Life(Some(t), true, 1, 0), aliveTime, frame) == Life(Some(t1), true, 1, 0);
      ExpiresAfter(t1, aliveTime, frame, k1);
      assert Live(Life(Some(t1), true, 1, 0), aliveTime, frame, k1) ==
             Life(Some(t1 - k1 as real * frame), false, 1, 1);
    } else {
      assert Next(Life(Some(t), true, 1, 0), aliveTime, frame) == Life(Some(t1), false, 1, 1);
    }
  }

  /** A powerup whose alive time lies in ((n-1)/fps, n/fps] transforms its
      player on the first update, is alive with exactly one transformation
      in force for n updates, and undoes it and dies on update n + 1; no
      further update reaches it. */
  lemma Lifetime(aliveTime: real, frame: real, n: nat, m: nat)
    requires frame > 0.0 && n >= 1
    requires (n - 1) as real * frame < aliveTime <= n as real * frame
    requires m > n
    ensures var l := Live(Unborn, aliveTime, frame, n);
      l.alive && l.transforms == 1 && l.inverses == 0
    ensures Live(Unborn, aliveTime, frame, n + 1) ==
            Life(Some(aliveTime - n as real * frame), false, 1, 1)
    ensures Live(Unborn, aliveTime, frame, m) == Live(Unborn, aliveTime, frame, n + 1)
  {
    var born := Next(Unborn, aliveTime, frame);
    assert born == Life(Some(aliveTime), true, 1, 0);
    CountsDown(aliveTime, aliveTime, frame, n - 1);
    ExpiresAfter(aliveTime, aliveTime, frame, n);
    StaysDead(Live(born, aliveTime, frame, n), aliveTime, frame, m - 1 - n);
    LiveSplits(born, aliveTime, frame, n, m - 1 - n);
  }

  lemma {:induction false} StaysDead(l: Life, aliveTime: real, frame: real, calls: nat)
    requires frame > 0.0 && !l.alive
    ensures Live(l, aliveTime, frame, calls) == l
  {
  }

  lemma {:induction false} LiveSplits(l: Life, aliveTime: real, frame: real, a: nat, b: nat)
    requires frame > 0.0
    ensures Live(l, aliveTime, frame, a + b) ==
            Live(Live(l, aliveTime, frame, a), aliveTime, frame, b)
    decreases a
  {
    if a > 0 && l.alive {
      LiveSplits(Next(l, aliveTime, frame), aliveTime, frame, a - 1, b);
    } else if !l.alive {
      StaysDead(l, aliveTime, frame, b);
    }
  }

  /** A powerup with no positive alive time transforms and undoes it in its
      very first update, and dies there. */
  lemma ExpiresAtBirth(aliveTime: real, frame: real)
    requires frame > 0.0 && aliveTime <= 0.0
    ensures Next(Unborn, aliveTime, frame) == Life(Some(aliveTime), false, 1, 1)
  {
  }

  class Powerup {
    const kind: Kind
    const fps: nat
    const aliveTime: real
    var timer: Option<real>
    /** Not yet killed: `kill()` clears it. (pygame's `alive()` is also
        false until a caller adds the powerup to a group; that step is not
        part of this class.) */
    var alive: bool
    ghost var transforms: nat
    ghost var inverses: nat

    ghost function Lifecycle(): Life
      reads this
    {
      Life(timer, alive, transforms, inverses)
    }

    /** `Powerup.__init__(fps, alive_time)` */
    constructor (fps: nat, aliveTime: real)
      requires fps > 0
      ensures kind == Plain && this.fps == fps && this.aliveTime == aliveTime
      ensures Lifecycle() == Unborn
    {
      kind := Plain;
      this.fps := fps;
      this.aliveTime := aliveTime;
      timer := None;
      alive := true;
      transforms, inverses := 0, 0;
    }

    /** `SelfSpeedUp.__init__(fps)` */
    constructor SpeedUp(fps: nat)
      requires fps > 0
      ensures kind == SelfSpeedUp && this.fps == fps && aliveTime == SPEED_UP_ALIVE_TIME
      ensures Lifecycle() == Unborn
    {
      kind := SelfSpeedUp;
      this.fps := fps;
      aliveTime := SPEED_UP_ALIVE_TIME;
      timer := None;
      alive := true;
      transforms, inverses := 0, 0;
    }

    method Transform(player: Player)
      modifies this`transforms, player`velocity
      ensures player.velocity == TransformOf(kind, old(player.velocity))
      ensures transforms == old(transforms) + 1
    {
      if kind == SelfSpeedUp {
        player.velocity := Scaled(player.velocity, SPEED_FACTOR);
      }
      transforms := transforms + 1;
    }

    method InvTransform(player: Player)
      modifies this`inverses, player`velocity
      ensures player.velocity == InvTransformOf(kind, old(player.velocity))
      ensures inverses == old(inverses) + 1
    {
      if kind == SelfSpeedUp {
        player.velocity := Divided(player.velocity, SPEED_FACTOR);
      }
      inverses := inverses + 1;
    }

    /** `Powerup.update(player, players)` */
    method Update(player: Player)
      requires fps > 0
      modifies this, player`velocity
      ensures Lifecycle() == Next(old(Lifecycle()), aliveTime, 1.0 / fps as real)
      ensures var v := if old(timer).None? then TransformOf(kind, old(player.velocity))
                       else old(player.velocity);
              player.velocity == if timer.value <= 0.0 then InvTransformOf(kind, v) else v
    {
      if timer.None? {
        Transform(player);
        timer := Some(aliveTime);
      } else if timer.value > 0.0 {
        timer := Some(timer.value - 1.0 / fps as real);
      }
      if timer.value <= 0.0 {
        InvTransform(player);
        alive := false;
      }
    }
  }
}
