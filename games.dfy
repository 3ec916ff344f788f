// The game loop: the pause, exit and round-over flags, the game step that
// updates every player still in the round, and the round and main loops that
// sequence them. Events and per-player inputs come from a finite script of
// frames; each round takes its spawn draws from a finite script of setups.

module Games {

  import opened Options
  import opened Geometry
  import opened Holes
  import opened Trails
  import opened Players

  /** `_init_round` runs this many frozen game steps before play. */
  const FROZEN_STEPS: nat := 5

  datatype Key = Space | Escape | OtherKey
  datatype Event = KeyDown(key: Key) | Quit | OtherEvent

  /** A space key-down toggles the pause. */
  predicate TogglesPause(e: Event) {
    e == KeyDown(Space)
  }

  /** Escape or a QUIT event ends the game. */
  predicate Exits(e: Event) {
    e == KeyDown(Escape) || e == Quit
  }

  /** The pause flag after `_pause_state_machine` has seen `events`, in
      order. */
  function PausedAfter(paused: bool, events: seq<Event>): bool
    decreases |events|
  {
    if events == [] then paused
    else PausedAfter(if TogglesPause(events[0]) then !paused else paused, events[1..])
  }

  /** Some event of `events` is an exit event. */
  predicate HasExit(events: seq<Event>)
    decreases |events|
  {
    events != [] && (Exits(events[0]) || HasExit(events[1..]))
  }

  /** The number of pause toggles among `events`. */
  function Toggles(events: seq<Event>): nat
    decreases |events|
  {
    if events == [] then 0
    else (if TogglesPause(events[0]) then 1 else 0) + Toggles(events[1..])
  }

  /** The pause flag ends flipped exactly when the number of space
      key-downs is odd. */
  lemma {:induction false} PausedAfterCountsToggles(paused: bool, events: seq<Event>)
    ensures PausedAfter(paused, events) == if Toggles(events) % 2 == 0 then paused else !paused
    decreases |events|
  {
    if events != [] {
      PausedAfterCountsToggles(if TogglesPause(events[0]) then !paused else paused, events[1..]);
    }
  }

  /** `HasExit` holds exactly when some event is Escape or QUIT. */
  lemma {:induction false} HasExitIff(events: seq<Event>)
    ensures HasExit(events) <==> exists i :: 0 <= i < |events| && Exits(events[i])
    decreases |events|
  {
    if events != [] {
      HasExitIff(events[1..]);
      if HasExit(events[1..]) {
        var i :| 0 <= i < |events[1..]| && Exits(events[1..][i]);
        assert Exits(events[i + 1]);
      }
      if exists i :: 0 <= i < |events| && Exits(events[i]) {
        var i :| 0 <= i < |events| && Exits(events[i]);
        if i > 0 {
          assert Exits(events[1..][i - 1]);
        }
      }
    }
  }

  /** Handling events in two batches flips the pause flag as handling them
      in one does. */
  lemma {:induction false} PausedAfterAppend(paused: bool, a: seq<Event>, b: seq<Event>)
    ensures PausedAfter(paused, a + b) == PausedAfter(PausedAfter(paused, a), b)
    decreases |a|
  {
    if a == [] {
      assert a + b == b;
    } else {
      assert (a + b)[1..] == a[1..] + b;
      PausedAfterAppend(if TogglesPause(a[0]) then !paused else paused, a[1..], b);
    }
  }

  /** Events with no space key-down leave the pause flag alone; two space
      key-downs restore it. */
  lemma {:induction false} PauseOnlyToggledBySpace(paused: bool, events: seq<Event>)
    ensures (forall i :: 0 <= i < |events| ==> !TogglesPause(events[i])) ==>
              PausedAfter(paused, events) == paused
    ensures PausedAfter(paused, [KeyDown(Space), KeyDown(Space)]) == paused
    decreases |events|
  {
    if events != [] {
      PauseOnlyToggledBySpace(paused, events[1..]);
      if forall i :: 0 <= i < |events| ==> !TogglesPause(events[i]) {
        assert forall i :: 0 <= i < |events[1..]| ==> events[1..][i] == events[i + 1];
      }
    }
    assert [KeyDown(Space), KeyDown(Space)][1..] == [KeyDown(Space)];
    assert [KeyDown(Space)][1..] == [];
  }

  /** The per-player inputs of one game step, one per player. */
  predicate ValidInputs(inputs: seq<StepInput>, players: nat) {
    |inputs| == players && forall k :: 0 <= k < |inputs| ==> ValidDraws(inputs[k].draws)
  }

  predicate AllValidInputs(steps: seq<seq<StepInput>>, players: nat) {
    forall k :: 0 <= k < |steps| ==> ValidInputs(steps[k], players)
  }

  /** One pass of the main loop: the events polled and, if the game steps,
      what each player's update consumes. */
  datatype Frame = Frame(events: seq<Event>, inputs: seq<StepInput>)

  /** The random spawn draws of `_init_round` and the inputs of its frozen
      steps. */
  datatype RoundSetup = RoundSetup(spawns: seq<Spawn>, frozen: seq<seq<StepInput>>)

  predicate ValidSpawns(spawns: seq<Spawn>, players: nat) {
    |spawns| == players && forall k :: 0 <= k < |spawns| ==> ValidSpawn(spawns[k], PLAY_AREA)
  }

  predicate ValidSetup(s: RoundSetup, players: nat) {
    ValidSpawns(s.spawns, players) &&
    |s.frozen| == FROZEN_STEPS && AllValidInputs(s.frozen, players)
  }

  predicate ValidFrames(frames: seq<Frame>, players: nat) {
    forall k :: 0 <= k < |frames| ==> ValidInputs(frames[k].inputs, players)
  }

  predicate ValidSetups(setups: seq<RoundSetup>, players: nat) {
    forall k :: 0 <= k < |setups| ==> ValidSetup(setups[k], players)
  }

  /** Some frame in [from, to) carries an exit event. */
  predicate ExitBetween(frames: seq<Frame>, from: nat, to: nat)
    requires from <= to <= |frames|
    decreases |frames| - from
  {
    from < to && (HasExit(frames[from].events) || ExitBetween(frames, from + 1, to))
  }

  lemma {:induction false} ExitBetweenSplit(frames: seq<Frame>, a: nat, b: nat, c: nat)
    requires a <= b <= c <= |frames|
    ensures ExitBetween(frames, a, c) <==> ExitBetween(frames, a, b) || ExitBetween(frames, b, c)
    decreases b - a
  {
    if a < b {
      ExitBetweenSplit(frames, a + 1, b, c);
    }
  }

  /** Players only ever leave a group: a subgroup is no larger. */
  lemma {:induction false} SubgroupNoLarger(sub: set<nat>, group: set<nat>)
    requires sub <= group
    ensures |sub| <= |group|
  {
    assert group == sub + (group - sub);
  }

  /** What the game loop reads and writes, as one value: the player states in
      order, `players_group` as player indices, the lines on the trail
      surface, and the `round_over`, `going` and `is_paused` flags. */
  datatype GameView = GameView(states: seq<PlayerState>, group: set<nat>, trails: seq<Segment>,
                               roundOver: bool, going: bool, paused: bool)

  predicate AllWellFormed(states: seq<PlayerState>) {
    forall k :: 0 <= k < |states| ==> WellFormed(states[k].hole)
  }

  /** Every hole state is well formed. */
  predicate Sound(v: GameView) {
    AllWellFormed(v.states)
  }

  /** `_handle_game_state` on one frame's events. */
  function AfterEvents(v: GameView, events: seq<Event>): GameView {
    v.(paused := PausedAfter(v.paused, events), going := v.going && !HasExit(events))
  }

  /** Player `k`'s `update` within `_game_step`, if it is still in the
      group: it moves to its `Step` outcome, leaves the group if that kills
      it, and the line it draws, if any, goes onto the trail surface. */
  function UpdateOne(v: GameView, k: nat, input: StepInput): (r: GameView)
    requires Sound(v) && k < |v.states| && ValidDraws(input.draws)
    ensures Sound(r) && |r.states| == |v.states|
  {
    if k !in v.group then v
    else
      var o := Step(v.states[k], PLAY_AREA, input);
      v.(states := v.states[k := o.state],
         group := if o.killed then v.group - {k} else v.group,
         trails := v.trails + DrawnBy(v, k, input))
  }

  /** The line player `k` draws in its update, if it is a member and draws. */
  function DrawnBy(v: GameView, k: nat, input: StepInput): seq<Segment>
    requires Sound(v) && k < |v.states| && ValidDraws(input.draws)
  {
    var o := Step(v.states[k], PLAY_AREA, input);
    if k in v.group && o.drawn.Some? then [o.drawn.value] else []
  }

  /** `players_group.update(...)` over the first `upto` players, in player
      order. pygame iterates over a copy of the group, and an update removes
      at most its own player, so each player's membership is checked as the
      step began. */
  function Updated(v: GameView, inputs: seq<StepInput>, upto: nat): (r: GameView)
    requires Sound(v) && ValidInputs(inputs, |v.states|) && upto <= |v.states|
    ensures Sound(r) && |r.states| == |v.states|
    ensures r.roundOver == v.roundOver && r.going == v.going && r.paused == v.paused
    decreases upto
  {
    if upto == 0 then v
    else UpdateOne(Updated(v, inputs, upto - 1), upto - 1, inputs[upto - 1])
  }

  /** The lines that the members among the first `upto` players draw, in
      player order, each computed from the player's state as the step
      began. */
  function Lines(v: GameView, inputs: seq<StepInput>, upto: nat): seq<Segment>
    requires Sound(v) && ValidInputs(inputs, |v.states|) && upto <= |v.states|
    decreases upto
  {
    if upto == 0 then []
    else
      Lines(v, inputs, upto - 1) + DrawnBy(v, upto - 1, inputs[upto - 1])
  }

  /** The players' updates do not interfere: after the first `upto`
      updates, each member among them holds its `Step` outcome from its own
      state as the step began, and every other player is untouched. */
  lemma {:induction false} UpdatedStates(v: GameView, inputs: seq<StepInput>, upto: nat, j: nat)
    requires Sound(v) && ValidInputs(inputs, |v.states|) && upto <= |v.states| && j < |v.states|
    ensures Updated(v, inputs, upto).states[j] ==
            if j < upto && j in v.group then Step(v.states[j], PLAY_AREA, inputs[j]).state
            else v.states[j]
    decreases upto
  {
    if upto > 0 {
      var k := upto - 1;
      UpdatedLeavesRest(v, inputs, k, k);
      if j != k {
        UpdatedStates(v, inputs, k, j);
      }
    }
  }

  /** After the first `upto` updates, a player is in the group exactly when
      it was when the step began and its own update, if it had one, did not
      kill it. */
  lemma {:induction false} UpdatedGroup(v: GameView, inputs: seq<StepInput>, upto: nat, j: nat)
    requires Sound(v) && ValidInputs(inputs, |v.states|) && upto <= |v.states|
    ensures j in Updated(v, inputs, upto).group <==>
            j in v.group && (j < upto ==> !Step(v.states[j], PLAY_AREA, inputs[j]).killed)
    decreases upto
  {
    if upto > 0 {
      var k := upto - 1;
      UpdatedGroup(v, inputs, k, j);
      if j == k {
        UpdatedLeavesRest(v, inputs, k, k);
      }
    }
  }

  /** The lines drawn in the first `upto` updates follow the old trail
      surface, in player order. */
  lemma {:induction false} UpdatedTrails(v: GameView, inputs: seq<StepInput>, upto: nat)
    requires Sound(v) && ValidInputs(inputs, |v.states|) && upto <= |v.states|
    ensures Updated(v, inputs, upto).trails == v.trails + Lines(v, inputs, upto)
    decreases upto
  {
    if upto > 0 {
      var k := upto - 1;
      UpdatedLeavesRest(v, inputs, k, k);
      UpdatedTrails(v, inputs, k);
      var w := Updated(v, inputs, k);
      assert w.states[k] == v.states[k];
      assert k in w.group <==> k in v.group;
      var d := DrawnBy(v, k, inputs[k]);
      assert DrawnBy(w, k, inputs[k]) == d;
      assert Updated(v, inputs, upto) == UpdateOne(w, k, inputs[k]);
      UpdateOneTrails(w, k, inputs[k]);
      assert Lines(v, inputs, upto) == Lines(v, inputs, k) + d;
      assert w.trails + d == v.trails + Lines(v, inputs, upto);
    }
  }

  /** The first `upto` updates leave every later player, and its membership,
      as they were. */
  lemma {:induction false} UpdatedLeavesRest(v: GameView, inputs: seq<StepInput>, upto: nat, j: nat)
    requires Sound(v) && ValidInputs(inputs, |v.states|) && upto <= j < |v.states|
    ensures Updated(v, inputs, upto).states[j] == v.states[j]
    ensures j in Updated(v, inputs, upto).group <==> j in v.group
    decreases upto
  {
    if upto > 0 {
      UpdatedLeavesRest(v, inputs, upto - 1, j);
    }
  }

  /** An update adds to the trail surface only the line its player draws. */
  lemma UpdateOneTrails(v: GameView, k: nat, input: StepInput)
    requires Sound(v) && k < |v.states| && ValidDraws(input.draws)
    ensures UpdateOne(v, k, input).trails == v.trails + DrawnBy(v, k, input)
  {
    if k !in v.group {
      assert DrawnBy(v, k, input) == [];
      assert v.trails + [] == v.trails;
    }
  }

  /** `_game_step`: every member updates, and the round is over once exactly
      one player is left in the group. */
  function AfterStep(v: GameView, inputs: seq<StepInput>): (r: GameView)
    requires Sound(v) && ValidInputs(inputs, |v.states|)
    ensures Sound(r) && |r.states| == |v.states|
    ensures r.going == v.going && r.paused == v.paused
  {
    var w := Updated(v, inputs, |v.states|);
    w.(roundOver := w.roundOver || |w.group| == 1)
  }

  /** A game step keeps every score, only shrinks the group, only adds to
      the trail surface, sets `round_over` exactly when one player is left
      and never clears it, and, when the round was not over with more than
      one player left, leaves it over only with at most one. */
  lemma StepKeeps(v: GameView, inputs: seq<StepInput>)
    requires Sound(v) && ValidInputs(inputs, |v.states|)
    ensures var r := AfterStep(v, inputs);
      (r.roundOver <==> v.roundOver || |r.group| == 1) &&
      r.group <= v.group && v.trails <= r.trails && (v.roundOver ==> r.roundOver) &&
      ((v.roundOver ==> |v.group| <= 1) ==> (r.roundOver ==> |r.group| <= 1)) &&
      forall k :: 0 <= k < |v.states| ==> r.states[k].score == v.states[k].score
  {
    var w := Updated(v, inputs, |v.states|);
    forall k | 0 <= k < |v.states|
      ensures w.states[k].score == v.states[k].score
    {
      UpdatedStates(v, inputs, |v.states|, k);
    }
    forall k | k in w.group
      ensures k in v.group
    {
      UpdatedGroup(v, inputs, |v.states|, k);
    }
    UpdatedTrails(v, inputs, |v.states|);
    assert w.group <= v.group;
    SubgroupNoLarger(w.group, v.group);
  }

  /** When every member of the group dies in the same step, the group is
      left empty and the round is not set over: only a last survivor ends
      it. */
  lemma {:induction false} WipeOutLeavesRoundOpen(v: GameView, inputs: seq<StepInput>)
    requires Sound(v) && ValidInputs(inputs, |v.states|) && !v.roundOver
    requires forall k :: k in v.group ==> k < |v.states| && Step(v.states[k], PLAY_AREA, inputs[k]).killed
    ensures AfterStep(v, inputs).group == {} && !AfterStep(v, inputs).roundOver
  {
    var w := Updated(v, inputs, |v.states|);
    forall j: nat | j in w.group
      ensures false
    {
      UpdatedGroup(v, inputs, |v.states|, j);
    }
    assert w.group == {};
  }

  /** One `_game_step` per element of `steps`, in order. */
  function AfterSteps(v: GameView, steps: seq<seq<StepInput>>): (r: GameView)
    requires Sound(v) && AllValidInputs(steps, |v.states|)
    ensures Sound(r) && |r.states| == |v.states|
    ensures r.going == v.going && r.paused == v.paused
    decreases |steps|
  {
    if steps == [] then v else AfterSteps(AfterStep(v, steps[0]), steps[1..])
  }

  /** What `StepKeeps` says of one step holds for a run of them. */
  lemma {:induction false} StepsKeep(v: GameView, steps: seq<seq<StepInput>>)
    requires Sound(v) && AllValidInputs(steps, |v.states|)
    ensures var r := AfterSteps(v, steps);
      r.group <= v.group && v.trails <= r.trails && (v.roundOver ==> r.roundOver) &&
      ((v.roundOver ==> |v.group| <= 1) ==> (r.roundOver ==> |r.group| <= 1)) &&
      forall k :: 0 <= k < |v.states| ==> r.states[k].score == v.states[k].score
    decreases |steps|
  {
    if steps != [] {
      StepKeeps(v, steps[0]);
      StepsKeep(AfterStep(v, steps[0]), steps[1..]);
    }
  }

  /** The player indices 0 .. n-1. */
  function Indices(n: nat): (r: set<nat>)
    ensures forall k: int :: k in r <==> 0 <= k < n
    ensures |r| == n
  {
    if n == 0 then {} else Indices(n - 1) + {n - 1}
  }

  /** The first `upto` players reset, each with its own spawn draws; the
      others as they were. */
  function ResetStates(states: seq<PlayerState>, spawns: seq<Spawn>, upto: nat): (r: seq<PlayerState>)
    requires ValidSpawns(spawns, |states|) && upto <= |states|
    ensures |r| == |states|
    ensures forall k :: 0 <= k < |states| ==>
              r[k] == if k < upto then Respawned(states[k], spawns[k]) else states[k]
    decreases upto
  {
    if upto == 0 then states
    else ResetStates(states, spawns, upto - 1)[upto - 1 := Respawned(states[upto - 1], spawns[upto - 1])]
  }

  /** The first part of `_init_round`: the trail surface is cleared, every
      player is reset with its own spawn draws and keeps its score, all of
      them form the new group, the round is not over and the game is
      paused. */
  function AfterReset(v: GameView, spawns: seq<Spawn>): (r: GameView)
    requires ValidSpawns(spawns, |v.states|)
    ensures Sound(r) && |r.states| == |v.states|
    ensures forall k :: 0 <= k < |v.states| ==> r.states[k] == Respawned(v.states[k], spawns[k])
    ensures forall k: int :: k in r.group <==> 0 <= k < |v.states|
  {
    GameView(ResetStates(v.states, spawns, |v.states|), Indices(|v.states|), [], false, v.going, true)
  }

  /** `_init_round`: reset, then the frozen steps. */
  function AfterInit(v: GameView, setup: RoundSetup): (r: GameView)
    requires ValidSetup(setup, |v.states|)
    ensures Sound(r) && |r.states| == |v.states|
    ensures r.paused && r.going == v.going
  {
    AfterSteps(AfterReset(v, setup.spawns), setup.frozen)
  }

  /** A new round starts with every score kept, and over only if the frozen
      steps already left at most one player. */
  lemma InitKeeps(v: GameView, setup: RoundSetup)
    requires ValidSetup(setup, |v.states|)
    ensures var r := AfterInit(v, setup);
      (r.roundOver ==> |r.group| <= 1) &&
      forall k :: 0 <= k < |v.states| ==> r.states[k].score == v.states[k].score
  {
    var s := AfterReset(v, setup.spawns);
    StepsKeep(s, setup.frozen);
  }

  /** One pass of the `_round` loop body: handle the frame's events, then,
      unless the game was stopped or is paused, one game step. */
  function AfterFrame(v: GameView, frame: Frame): (r: GameView)
    requires Sound(v) && ValidInputs(frame.inputs, |v.states|)
    ensures Sound(r) && |r.states| == |v.states|
    ensures r.going == (v.going && !HasExit(frame.events))
    ensures r.paused == PausedAfter(v.paused, frame.events)
  {
    var h := AfterEvents(v, frame.events);
    if !h.going || h.paused then h else AfterStep(h, frame.inputs)
  }

  /** The `while not self.round_over` loop of `_round` from frame `next` on:
      the view it ends with and the first frame it did not read. A paused
      frame only handles events. The loop ends with the round over, the
      game stopped or the frames used up; it stops the game exactly when a
      frame it read has an exit event, and that frame is then the last one
      it read. */
  function PlayRound(v: GameView, frames: seq<Frame>, next: nat): (r: (GameView, nat))
    requires Sound(v) && ValidFrames(frames, |v.states|) && next <= |frames|
    ensures Sound(r.0) && |r.0.states| == |v.states| && next <= r.1 <= |frames|
    ensures r.0.roundOver || !r.0.going || r.1 == |frames|
    ensures r.0.going == (v.going && !ExitBetween(frames, next, r.1))
    ensures v.going && !r.0.going ==> next < r.1 && HasExit(frames[r.1 - 1].events)
    decreases |frames| - next
  {
    if v.roundOver || next == |frames| then (v, next)
    else
      var h := AfterFrame(v, frames[next]);
      if !h.going then (h, next + 1) else PlayRound(h, frames, next + 1)
  }

  /** A round keeps every score, only shrinks the group, and is over only
      with at most one player left (if it started that way). */
  lemma {:induction false} RoundKeeps(v: GameView, frames: seq<Frame>, next: nat)
    requires Sound(v) && ValidFrames(frames, |v.states|) && next <= |frames|
    requires v.roundOver ==> |v.group| <= 1
    ensures var r := PlayRound(v, frames, next);
      r.0.group <= v.group && (r.0.roundOver ==> |r.0.group| <= 1) &&
      forall k :: 0 <= k < |v.states| ==> r.0.states[k].score == v.states[k].score
    decreases |frames| - next
  {
    if !v.roundOver && next < |frames| {
      var e := AfterEvents(v, frames[next].events);
      if e.going && !e.paused {
        StepKeeps(e, frames[next].inputs);
      }
      var h := AfterFrame(v, frames[next]);
      if h.going {
        RoundKeeps(h, frames, next + 1);
      }
    }
  }

  /** A round whose group is already empty never ends: no step can leave
      exactly one player, so `_round` reads frames until the game is
      stopped or the frames run out. */
  lemma {:induction false} EmptyGroupNeverEnds(v: GameView, frames: seq<Frame>, next: nat)
    requires Sound(v) && ValidFrames(frames, |v.states|) && next <= |frames|
    requires v.group == {} && !v.roundOver
    ensures var r := PlayRound(v, frames, next);
      !r.0.roundOver && r.0.group == {} && (r.0.going ==> r.1 == |frames|)
    decreases |frames| - next
  {
    if next < |frames| {
      var e := AfterEvents(v, frames[next].events);
      if e.going && !e.paused {
        StepKeeps(e, frames[next].inputs);
      }
      var h := AfterFrame(v, frames[next]);
      if h.going {
        EmptyGroupNeverEnds(h, frames, next + 1);
      }
    }
  }

  /** While the game stays paused a round stands still: when no frame from
      `next` on toggles the pause or exits, the round reads them all and
      leaves every player, the group and the trail surface as they were. */
  lemma {:induction false} PausedRoundStandsStill(v: GameView, frames: seq<Frame>, next: nat)
    requires Sound(v) && ValidFrames(frames, |v.states|) && next <= |frames|
    requires v.paused && v.going
    requires forall i, j :: next <= i < |frames| && 0 <= j < |frames[i].events| ==>
               !TogglesPause(frames[i].events[j]) && !Exits(frames[i].events[j])
    ensures var r := PlayRound(v, frames, next);
      r.0.states == v.states && r.0.group == v.group && r.0.trails == v.trails &&
      r.0.paused && r.0.going && (!v.roundOver ==> r.1 == |frames|)
    decreases |frames| - next
  {
    if !v.roundOver && next < |frames| {
      var events := frames[next].events;
      assert forall j :: 0 <= j < |events| ==> !TogglesPause(events[j]) && !Exits(events[j]);
      PauseOnlyToggledBySpace(v.paused, events);
      HasExitIff(events);
      assert AfterFrame(v, frames[next]) == v;
      PausedRoundStandsStill(v, frames, next + 1);
    }
  }

  /** The inner loop of `main`: handle frames while the game is going and
      paused. It changes nothing but the two flags, and ends with the game
      stopped, unpaused or the frames used up; it stops the game exactly
      when a frame it read has an exit event, and that frame is then the
      last one it read. */
  function Wait(v: GameView, frames: seq<Frame>, used: nat): (r: (GameView, nat))
    requires used <= |frames|
    ensures used <= r.1 <= |frames|
    ensures r.0 == v.(going := r.0.going, paused := r.0.paused)
    ensures !r.0.going || !r.0.paused || r.1 == |frames|
    ensures !v.going ==> r.1 == used
    ensures r.0.going == (v.going && !ExitBetween(frames, used, r.1))
    ensures v.going && !r.0.going ==> used < r.1 && HasExit(frames[r.1 - 1].events)
    decreases |frames| - used
  {
    if !v.going || !v.paused || used == |frames| then (v, used)
    else Wait(AfterEvents(v, frames[used].events), frames, used + 1)
  }

  /** One pass of `main`'s loop: a round, the pause after it and the wait
      for the pause to be lifted. */
  function RoundThenWait(v: GameView, setup: RoundSetup, frames: seq<Frame>, used: nat): (r: (GameView, nat))
    requires Sound(v) && ValidSetup(setup, |v.states|) && ValidFrames(frames, |v.states|)
    requires used <= |frames|
    ensures Sound(r.0) && |r.0.states| == |v.states| && used <= r.1 <= |frames|
    ensures r.0.going == (v.going && !ExitBetween(frames, used, r.1))
    ensures v.going && !r.0.going ==> used < r.1 && HasExit(frames[r.1 - 1].events)
  {
    var round := PlayRound(AfterInit(v, setup), frames, used);
    var wait := Wait(round.0.(paused := true), frames, round.1);
    ExitBetweenSplit(frames, used, round.1, wait.1);
    wait
  }

  /** `main` from round `r` and frame `used` on: play a round, pause, wait
      for the pause to be lifted, and so on while the game is going. It
      returns the final view, the rounds started and the frames read. While
      the game is going it stops only when the setups or the frames run
      out; it stops the game exactly when a frame it read has an exit event,
      and that frame is then the last one it read. */
  function PlayFrom(v: GameView, setups: seq<RoundSetup>, r: nat, frames: seq<Frame>, used: nat)
    : (res: (GameView, nat, nat))
    requires Sound(v) && ValidSetups(setups, |v.states|) && ValidFrames(frames, |v.states|)
    requires r <= |setups| && used <= |frames|
    ensures Sound(res.0) && |res.0.states| == |v.states|
    ensures r <= res.1 <= |setups| && used <= res.2 <= |frames|
    ensures res.0.going ==> res.1 == |setups| || res.2 == |frames|
    ensures !v.going ==> res.2 == used
    ensures res.0.going == (v.going && !ExitBetween(frames, used, res.2))
    ensures v.going && !res.0.going ==> used < res.2 && HasExit(frames[res.2 - 1].events)
    decreases |setups| - r
  {
    if !v.going || r == |setups| || used == |frames| then (v, r, used)
    else
      var wait := RoundThenWait(v, setups[r], frames, used);
      var res := PlayFrom(wait.0, setups, r + 1, frames, wait.1);
      ExitBetweenSplit(frames, used, wait.1, res.2);
      res
  }

  /** No round or wait changes a score. */
  lemma {:induction false} PlayKeepsScores(v: GameView, setups: seq<RoundSetup>, r: nat, frames: seq<Frame>, used: nat)
    requires Sound(v) && ValidSetups(setups, |v.states|) && ValidFrames(frames, |v.states|)
    requires r <= |setups| && used <= |frames|
    ensures var res := PlayFrom(v, setups, r, frames, used);
      forall k :: 0 <= k < |v.states| ==> res.0.states[k].score == v.states[k].score
    decreases |setups| - r
  {
    if v.going && r < |setups| && used < |frames| {
      var init := AfterInit(v, setups[r]);
      InitKeeps(v, setups[r]);
      RoundKeeps(init, frames, used);
      var round := PlayRound(init, frames, used);
      var wait := RoundThenWait(v, setups[r], frames, used);
      assert wait == Wait(round.0.(paused := true), frames, round.1);
      PlayKeepsScores(wait.0, setups, r + 1, frames, wait.1);
    }
  }

  /** `Player.__init__`'s state from its spawn draws: the fields `reset`
      writes, with no hole open and no anchor. */
  ghost predicate JustSpawned(p: Player, spawn: Spawn)
    requires spawn.exponential >= 0.0
    reads p
  {
    p.Hole() == Initial(spawn.exponential) && p.sourceTrailPoint.None? && !p.outOfBounds &&
    p.width == DEFAULT_WIDTH && p.rect == SquareAround(spawn.centre, DEFAULT_WIDTH) &&
    p.velocity == spawn.velocity
  }

  class Game {
    const players: seq<Player>
    var going: bool
    var isPaused: bool
    var roundOver: bool
    /** `players_group`: the indices of the players still in the round. */
    var group: set<nat>
    /** The board's trail surface, as the lines drawn on it this round. */
    var trails: seq<Segment>

    /** The players are distinct objects, each in a valid state. */
    ghost predicate PlayersValid()
      reads players
    {
      (forall i, j :: 0 <= i < |players| && 0 <= j < |players| && i != j ==> players[i] != players[j]) &&
      (forall i :: 0 <= i < |players| ==> players[i].Valid())
    }

    ghost predicate Valid()
      reads this, players
    {
      PlayersValid() &&
      (forall i :: i in group ==> i < |players|) &&
      (forall k :: 0 <= k < |trails| ==> LongEnough(trails[k]))
    }

    /** `Game.__init__`: one player per spawn, running and not paused. The
        round fields are set by `_init_round`; until then the group and the
        trail surface are empty and the round is not over. */
    constructor (spawns: seq<Spawn>)
      requires ValidSpawns(spawns, |spawns|)
      ensures Valid() && |players| == |spawns| && going && !isPaused
      ensures group == {} && trails == [] && !roundOver
      ensures forall k :: 0 <= k < |players| ==> fresh(players[k]) && players[k].score == 0
      ensures forall k :: 0 <= k < |players| ==> JustSpawned(players[k], spawns[k])
    {
      var ps: seq<Player> := [];
      var i := 0;
      while i < |spawns|
        invariant 0 <= i <= |spawns| && |ps| == i
        invariant forall j, k :: 0 <= j < k < i ==> ps[j] != ps[k]
        invariant forall k :: 0 <= k < i ==>
                    fresh(ps[k]) && ps[k].Valid() && ps[k].score == 0 && JustSpawned(ps[k], spawns[k])
      {
        var p := new Player(spawns[i]);
        ps := ps + [p];
        i := i + 1;
      }
      players := ps;
      going := true;
      isPaused := false;
      roundOver := false;
      group := {};
      trails := [];
    }

    /** `_pause_state_machine` */
    method PauseStateMachine(e: Event)
      modifies this`isPaused
      ensures isPaused == PausedAfter(old(isPaused), [e])
    {
      assert [e][1..] == [];
      if e.KeyDown? && e.key == Space {
        isPaused := !isPaused;
      }
    }

    /** `_handle_game_state` for the events polled this frame: the pause
        flag flips once per space key-down, and `going` is cleared by Escape
        or QUIT and never set again. */
    method HandleGameState(events: seq<Event>)
      modifies this`isPaused, this`going
      ensures isPaused == PausedAfter(old(isPaused), events)
      ensures going == (old(going) && !HasExit(events))
      ensures View() == AfterEvents(old(View()), events)
    {
      var i := 0;
      while i < |events|
        invariant 0 <= i <= |events|
        invariant PausedAfter(isPaused, events[i..]) == PausedAfter(old(isPaused), events)
        invariant (going && !HasExit(events[i..])) == (old(going) && !HasExit(events))
      {
        var e := events[i];
        assert events[i..][1..] == events[i + 1..];
        PauseStateMachine(e);
        if e.KeyDown? {
          if e.key == Escape {
            going := false;
          }
        } else if e.Quit? {
          going := false;
        }
        i := i + 1;
      }
    }

    /** The player states, in order. */
    ghost function States(): (r: seq<PlayerState>)
      reads players
      ensures |r| == |players| && forall k :: 0 <= k < |players| ==> r[k] == players[k].State()
    {
      seq(|players|, k requires 0 <= k < |players| reads players => players[k].State())
    }

    /** The game as a value. */
    ghost function View(): (v: GameView)
      reads this, players
      ensures |v.states| == |players|
    {
      GameView(States(), group, trails, roundOver, going, isPaused)
    }

    lemma ValidIsSound()
      requires Valid()
      ensures Sound(View())
    {
    }

    /** `players[i].update(...)`: player `i` moves to its `Step` outcome and
        every other player stays as it was. */
    method MovePlayer(i: nat, input: StepInput) returns (o: Outcome)
      requires Valid() && ValidDraws(input.draws) && i < |players|
      modifies players[i]
      ensures Valid() && unchanged(this) && WellFormed(old(States())[i].hole)
      ensures o == Step(old(States())[i], PLAY_AREA, input)
      ensures States() == old(States())[i := o.state]
    {
      var killed, drawn := players[i].Update(input);
      o := Outcome(players[i].State(), killed, drawn);
    }

    /** Player `i`'s `update` within `_game_step`, if it is still in the
        group: a kill removes it from the group and a line it draws goes
        onto the trail surface. */
    method UpdateMember(i: nat, input: StepInput)
      requires Valid() && ValidDraws(input.draws) && i < |players|
      modifies this`group, this`trails, players[i]
      ensures Valid() && Sound(old(View()))
      ensures var r := UpdateOne(old(View()), i, input);
              States() == r.states && group == r.group && trails == r.trails
    {
      ValidIsSound();
      if i in group {
        var o := MovePlayer(i, input);
        Record(i, o);
      }
    }

    /** What player `i`'s update does to the game: a kill removes it from
        the group, and a line it draws goes onto the trail surface. */
    method Record(i: nat, o: Outcome)
      requires Valid() && (o.drawn.Some? ==> LongEnough(o.drawn.value))
      modifies this`group, this`trails
      ensures Valid()
      ensures group == if o.killed then old(group) - {i} else old(group)
      ensures trails == old(trails) + if o.drawn.Some? then [o.drawn.value] else []
    {
      if o.killed {
        group := group - {i};
      }
      if o.drawn.Some? {
        trails := trails + [o.drawn.value];
      }
    }

    /** `players_group.update(...)` within `_game_step`: every player in the
        group updates once, in order. */
    method UpdateGroup(inputs: seq<StepInput>)
      requires Valid() && ValidInputs(inputs, |players|)
      modifies this`group, this`trails, players
      ensures Valid() && Sound(old(View())) && View() == Updated(old(View()), inputs, |players|)
    {
      ValidIsSound();
      ghost var start := View();
      var i := 0;
      while i < |players|
        invariant 0 <= i <= |players| && Valid()
        invariant View() == Updated(start, inputs, i)
      {
        UpdateMember(i, inputs[i]);
        i := i + 1;
      }
    }

    /** `_game_step`. Turning (`change_direction`, skipped when
        `freezeDirection`) is floating-point rotation and is not part of
        this model. */
    method GameStep(inputs: seq<StepInput>, freezeDirection: bool)
      requires Valid() && ValidInputs(inputs, |players|)
      modifies this`group, this`roundOver, this`trails, players
      ensures Valid() && Sound(old(View())) && View() == AfterStep(old(View()), inputs)
    {
      UpdateGroup(inputs);
      if |group| == 1 {
        roundOver := true;
      }
    }

    /** `_init_round` up to the frozen steps: clear the trail surface, reset
        every player, then make all of them the new group. */
    method ResetRound(spawns: seq<Spawn>)
      requires Valid() && ValidSpawns(spawns, |players|)
      modifies this`group, this`roundOver, this`trails, this`isPaused, players
      ensures Valid() && View() == AfterReset(old(View()), spawns)
    {
      trails := [];
      ResetPlayers(spawns);
      StartGroup();
    }

    /** The `for player in self.players: player.reset()` loop. */
    method ResetPlayers(spawns: seq<Spawn>)
      requires Valid() && ValidSpawns(spawns, |players|)
      modifies players
      ensures Valid() && unchanged(this)
      ensures States() == ResetStates(old(States()), spawns, |players|)
    {
      ghost var states := States();
      var i := 0;
      while i < |players|
        invariant 0 <= i <= |players| && Valid() && unchanged(this)
        invariant States() == ResetStates(states, spawns, i)
      {
        assert States()[i] == states[i];
        ResetPlayer(i, spawns[i]);
        i := i + 1;
      }
    }

    /** `players_group = Group(players)`: every player is in the new group;
        the round is not over and the game is paused. */
    method StartGroup()
      requires Valid()
      modifies this`group, this`roundOver, this`isPaused
      ensures Valid() && View() == old(View()).(group := Indices(|players|), roundOver := false, paused := true)
    {
      group := Indices(|players|);
      roundOver := false;
      isPaused := true;
    }

    /** `players[i].reset()`: player `i` is respawned and every other
        player stays as it was. */
    method ResetPlayer(i: nat, spawn: Spawn)
      requires Valid() && i < |players| && ValidSpawn(spawn, PLAY_AREA)
      modifies players[i]
      ensures Valid() && unchanged(this)
      ensures States() == old(States())[i := Respawned(old(States())[i], spawn)]
    {
      players[i].Reset(spawn);
    }

    /** The frozen game steps at the end of `_init_round`. */
    method FrozenSteps(frozen: seq<seq<StepInput>>)
      requires Valid() && AllValidInputs(frozen, |players|)
      modifies this`group, this`roundOver, this`trails, players
      ensures Valid() && Sound(old(View())) && View() == AfterSteps(old(View()), frozen)
    {
      ValidIsSound();
      var s := 0;
      while s < |frozen|
        invariant 0 <= s <= |frozen|
        invariant Valid() && Sound(View())
        invariant AfterSteps(View(), frozen[s..]) == AfterSteps(old(View()), frozen)
      {
        GameStep(frozen[s], true);
        assert frozen[s..][1..] == frozen[s + 1..];
        ValidIsSound();
        s := s + 1;
      }
    }

    /** `_init_round`. */
    method InitRound(setup: RoundSetup)
      requires Valid() && ValidSetup(setup, |players|)
      modifies this`group, this`roundOver, this`trails, this`isPaused, players
      ensures Valid() && View() == AfterInit(old(View()), setup)
    {
      ResetRound(setup.spawns);
      FrozenSteps(setup.frozen);
    }

    /** One pass of the `_round` loop body: handle the frame's events and,
        unless that stopped the game or it is paused, one game step. */
    method PlayFrame(frame: Frame)
      requires Valid() && ValidInputs(frame.inputs, |players|)
      modifies this, players
      ensures Valid() && Sound(old(View())) && View() == AfterFrame(old(View()), frame)
    {
      ValidIsSound();
      HandleGameState(frame.events);
      if going && !isPaused {
        GameStep(frame.inputs, false);
      }
    }

    /** The `while not self.round_over` loop of `_round`, reading frames
        from `from` on; `next` is the first frame it did not read. */
    method RoundLoop(frames: seq<Frame>, from: nat) returns (next: nat)
      requires Valid() && ValidFrames(frames, |players|) && from <= |frames|
      modifies this, players
      ensures Valid() && Sound(old(View())) && (View(), next) == PlayRound(old(View()), frames, from)
    {
      ValidIsSound();
      ghost var start := View();
      next := from;
      while !roundOver
        invariant Valid() && Sound(View()) && from <= next <= |frames|
        invariant PlayRound(View(), frames, next) == PlayRound(start, frames, from)
        decreases |frames| - next
      {
        if next == |frames| {
          break;
        }
        PlayFrame(frames[next]);
        next := next + 1;
        ValidIsSound();
        if !going {
          break;
        }
      }
    }

    /** `_round`, reading frames from `from` on; `next` is the first frame
        it did not read. Scores are kept, and the round ends over only with
        at most one player left. */
    method Round(setup: RoundSetup, frames: seq<Frame>, from: nat) returns (next: nat)
      requires Valid() && ValidSetup(setup, |players|) && ValidFrames(frames, |players|)
      requires from <= |frames|
      modifies this, players
      ensures Valid() && (View(), next) == PlayRound(AfterInit(old(View()), setup), frames, from)
      ensures roundOver ==> |group| <= 1
      ensures forall k :: 0 <= k < |players| ==> States()[k].score == old(States())[k].score
    {
      ghost var before := View();
      InitRound(setup);
      InitKeeps(before, setup);
      RoundKeeps(View(), frames, from);
      next := RoundLoop(frames, from);
    }

    /** `self.is_paused = True` after a round. */
    method Pause()
      requires Valid()
      modifies this`isPaused
      ensures Valid() && View() == old(View()).(paused := true)
    {
      isPaused := true;
    }

    /** The inner loop of `main`: handle frames from `from` on while the
        game is going and paused; `next` is the first frame it did not
        read. */
    method WaitLoop(frames: seq<Frame>, from: nat) returns (next: nat)
      requires Valid() && from <= |frames|
      modifies this`isPaused, this`going
      ensures Valid() && (View(), next) == Wait(old(View()), frames, from)
    {
      ghost var start := View();
      next := from;
      while going && isPaused && next < |frames|
        invariant Valid() && from <= next <= |frames|
        invariant Wait(View(), frames, next) == Wait(start, frames, from)
        decreases |frames| - next
      {
        HandleGameState(frames[next].events);
        next := next + 1;
      }
    }

    /** The body of `main`'s loop: `_round`, then pause and handle frames
        while the game is going and paused. */
    method RoundAndWait(setup: RoundSetup, frames: seq<Frame>, from: nat) returns (next: nat)
      requires Valid() && ValidSetup(setup, |players|) && ValidFrames(frames, |players|)
      requires from <= |frames|
      modifies this, players
      ensures Valid() && Sound(old(View()))
      ensures (View(), next) == RoundThenWait(old(View()), setup, frames, from)
    {
      ValidIsSound();
      next := Round(setup, frames, from);
      Pause();
      next := WaitLoop(frames, next);
    }

    /** `main`: play rounds while the game is going, pausing after each and
        waiting for the pause to be lifted. It returns how many rounds it
        started and how many frames it read; it stops with `going` still
        set only when the setups or the frames ran out, and otherwise right
        after a frame with an exit event. */
    method Play(setups: seq<RoundSetup>, frames: seq<Frame>) returns (rounds: nat, used: nat)
      requires Valid() && ValidSetups(setups, |players|) && ValidFrames(frames, |players|)
      modifies this, players
      ensures Valid() && Sound(old(View()))
      ensures (View(), rounds, used) == PlayFrom(old(View()), setups, 0, frames, 0)
      ensures going ==> rounds == |setups| || used == |frames|
      ensures !going && old(going) ==> 0 < used && HasExit(frames[used - 1].events)
    {
      ValidIsSound();
      ghost var start := View();
      used := 0;
      rounds := 0;
      while going
        invariant Valid() && Sound(View()) && rounds <= |setups| && used <= |frames|
        invariant PlayFrom(View(), setups, rounds, frames, used) == PlayFrom(start, setups, 0, frames, 0)
        decreases |setups| - rounds
      {
        if rounds == |setups| || used == |frames| {
          break;
        }
        used := RoundAndWait(setups[rounds], frames, used);
        rounds := rounds + 1;
        ValidIsSound();
      }
      ghost var res := PlayFrom(start, setups, 0, frames, 0);
      assert res == (View(), rounds, used);
      assert res.0.going == going && start.going == old(going);
    }
  }
}
