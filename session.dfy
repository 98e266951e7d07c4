/**
 * A session as values: the game data one tick reads and writes, the tick itself
 * (one pass of SnakeMove.run's loop body) and the loop that repeats it while the
 * head is inside the window and no collision was found. The GamePanel class
 * performs the same steps in place and is proved equal to these functions.
 *
 * The loop and what is proved about its trace only use what a tick returns, so they
 * take the tick as a function value; TickOf(d) is the tick in direction d.
 */
module Session {
  import opened Grid
  import opened Body
  import opened FoodGeneration
  import opened Movement

  /** A body with the two segments the new-tail rule looks at. */
  type Segments = s: seq<Cell> | |s| >= 2 witness [Cell(0, 0), Cell(0, 0)]

  /** The game data a tick touches: body, food, score and the draws still to come. */
  datatype World = World(body: Segments, food: Food, counter: int, rng: seq<Draw>)

  /** The state after one tick, with its collision flag and whether generateFood stalled. */
  datatype Ticked = Ticked(world: World, rolledIn: bool, stalled: bool)

  /** How a run of the tick loop ended. */
  datatype RunOutcome =
    | Over          // the head left the window or ran into the body: the session is finished
    | StillRunning  // the model's tick budget ran out while the session goes on
    | Stalled       // generateFood found no acceptable cell among the remaining draws

  datatype RunResult = RunResult(outcome: RunOutcome, world: World)

  /**
   * One tick in direction d: shift and move, test for a collision, then eat when the
   * head's box covers the food. The body never shrinks and the score grows exactly
   * with the body.
   */
  function TickW(w: World, d: Direction): (t: Ticked)
    ensures |t.world.body| >= |w.body|
    ensures t.world.counter - |t.world.body| == w.counter - |w.body|
  {
    var moved := Advanced(w.body, d);
    if Covers(Last(moved), w.food) then
      var grown := WithTail(moved, NewTail(moved));
      var p := Placement(grown, w.rng);
      Ticked(World(grown, if p.Some? then p.value else w.food, w.counter + 1,
                   w.rng[DrawsUsed(grown, w.rng)..]),
             SelfHit(moved), p.None?)
    else
      Ticked(World(moved, w.food, w.counter, w.rng), SelfHit(moved), false)
  }

  /** The tick in direction d, as a function value. */
  function TickOf(d: Direction): World -> Ticked
  {
    w => TickW(w, d)
  }

  /**
   * A collision a tick reports is still in the body it leaves behind, and a body on
   * the grid stays on the grid.
   */
  lemma TickKeeps(w: World, d: Direction)
    ensures TickW(w, d).rolledIn ==> SelfHit(TickW(w, d).world.body)
    ensures OnGridBody(w.body) ==> OnGridBody(TickW(w, d).world.body)
  {
    var moved := Advanced(w.body, d);
    if SelfHit(moved) && Covers(Last(moved), w.food) {
      SelfHitKeptByGrowth(moved, NewTail(moved));
    }
    if OnGridBody(w.body) {
      TickKeepsGrid(w.body, d);
      GrowthKeepsGrid(moved);
    }
  }

  /**
   * The tick loop with at most `fuel` ticks: it stops as soon as the head is outside the
   * window or a tick found a collision (Over), when generateFood stalls, or when the
   * fuel is spent while the head is still inside (StillRunning).
   */
  function RunW(w: World, tick: World -> Ticked, fuel: nat): RunResult
    decreases fuel, 1
  {
    if !InBounds(Last(w.body)) then RunResult(Over, w)
    else if fuel == 0 then RunResult(StillRunning, w)
    else AfterTick(w, tick, fuel)
  }

  /** The rest of a run once the head is inside the window and fuel is left: one tick, then Resumed. */
  function AfterTick(w: World, tick: World -> Ticked, fuel: nat): RunResult
    requires fuel > 0
    decreases fuel, 0
  {
    var t := tick(w);
    Resumed(t.world, tick, fuel - 1, t.rolledIn, t.stalled)
  }

  /**
   * How a run goes on after a tick that reached v with these flags, with `left` ticks of
   * fuel: a stalled generateFood ends it, then a collision, else the loop carries on from v.
   */
  function Resumed(v: World, tick: World -> Ticked, left: nat, rolledIn: bool, stalled: bool): RunResult
    decreases left, 2
  {
    if stalled then RunResult(Stalled, v)
    else if rolledIn then RunResult(Over, v)
    else RunW(v, tick, left)
  }

  /** One step of a run from a world inside the window, with fuel left. */
  lemma RunStep(w: World, tick: World -> Ticked, fuel: nat)
    requires InBounds(Last(w.body)) && fuel > 0
    ensures RunW(w, tick, fuel) == Resumed(tick(w).world, tick, fuel - 1, tick(w).rolledIn, tick(w).stalled)
  {
  }

  /**
   * What a tick from v to t keeps: the body never shrinks, the score grows exactly with
   * the body, a reported collision is in the body left behind, and a body on the grid
   * stays on it.
   */
  predicate Keeps(v: World, t: Ticked)
  {
    && |t.world.body| >= |v.body|
    && t.world.counter - |t.world.body| == v.counter - |v.body|
    && (t.rolledIn ==> SelfHit(t.world.body))
    && (OnGridBody(v.body) ==> OnGridBody(t.world.body))
  }

  /** Every tick of `tick` keeps what Keeps lists. */
  ghost predicate TickInvariant(tick: World -> Ticked)
  {
    forall v :: Keeps(v, tick(v))
  }

  /** The game's tick, in any direction, keeps what Keeps lists. */
  lemma TickOfKeeps(d: Direction)
    ensures TickInvariant(TickOf(d))
  {
    forall v
      ensures Keeps(v, TickOf(d)(v))
    {
      TickKeeps(v, d);
    }
  }

  /**
   * What every run of such a tick keeps: the body never shrinks, the score grows exactly
   * with the body, a body on the grid stays on it; Over is only reported with the head
   * outside the window or on the body, and StillRunning only with the head inside.
   */
  lemma {:induction false} RunKeeps(w: World, tick: World -> Ticked, fuel: nat)
    requires TickInvariant(tick)
    ensures var r := RunW(w, tick, fuel);
      && |r.world.body| >= |w.body|
      && r.world.counter - |r.world.body| == w.counter - |w.body|
      && (r.outcome == Over ==> !InBounds(Last(r.world.body)) || SelfHit(r.world.body))
      && (r.outcome == StillRunning ==> InBounds(Last(r.world.body)))
      && (OnGridBody(w.body) ==> OnGridBody(r.world.body))
    decreases fuel
  {
    if InBounds(Last(w.body)) && fuel > 0 {
      var t := tick(w);
      RunStep(w, tick, fuel);
      assert Keeps(w, t);
      if !t.stalled && !t.rolledIn {
        RunKeeps(t.world, tick, fuel - 1);
      }
    }
  }

  /** The world after n ticks, whatever they found. */
  function Play(w: World, tick: World -> Ticked, n: nat): World
    decreases n
  {
    if n == 0 then w else tick(Play(w, tick, n - 1)).world
  }

  /** The tick from v starts inside the window, finds no collision and does not stall. */
  predicate Goes(v: World, tick: World -> Ticked)
  {
    InBounds(Last(v.body)) && !tick(v).rolledIn && !tick(v).stalled
  }

  /** The first n ticks from w all go on. */
  predicate Clean(w: World, tick: World -> Ticked, n: nat)
  {
    forall i :: 0 <= i < n ==> Goes(Play(w, tick, i), tick)
  }

  /**
   * While the ticks are clean, the run goes on: a run from w with total ticks of fuel
   * is the run from the world n clean ticks later, with n ticks less.
   */
  lemma {:induction false} CleanTicksContinue(w: World, tick: World -> Ticked, total: nat, n: nat)
    requires n <= total && Clean(w, tick, n)
    ensures RunW(w, tick, total) == RunW(Play(w, tick, n), tick, total - n)
    decreases n
  {
    if n > 0 {
      CleanTicksContinue(w, tick, total, n - 1);
      RunStep(Play(w, tick, n - 1), tick, total - (n - 1));
    }
  }

  /** The run can stop at v: v is outside the window, no fuel is left, or the tick from v ends it. */
  predicate Stops(v: World, tick: World -> Ticked, left: nat)
  {
    !InBounds(Last(v.body)) || left == 0 || tick(v).rolledIn || tick(v).stalled
  }

  /** How a run that stops at v ends, with `left` ticks of fuel. */
  predicate EndsAt(r: RunResult, v: World, tick: World -> Ticked, left: nat)
  {
    if !InBounds(Last(v.body)) then r == RunResult(Over, v)
    else if left == 0 then r == RunResult(StillRunning, v)
    else
      && (tick(v).stalled || tick(v).rolledIn)
      && r == RunResult(if tick(v).stalled then Stalled else Over, tick(v).world)
  }

  /** Some number of clean ticks from k on leads to a world where the run stops. */
  lemma {:induction false} FirstStop(w: World, tick: World -> Ticked, fuel: nat, k: nat)
    requires k <= fuel && Clean(w, tick, k)
    ensures exists n: nat :: k <= n <= fuel && Clean(w, tick, n) && Stops(Play(w, tick, n), tick, fuel - n)
    decreases fuel - k
  {
    if !Stops(Play(w, tick, k), tick, fuel - k) {
      assert Clean(w, tick, k + 1);
      FirstStop(w, tick, fuel, k + 1);
    }
  }

  /** A run that stops at v ends as EndsAt says. */
  lemma RunStopsAt(v: World, tick: World -> Ticked, left: nat)
    requires Stops(v, tick, left)
    ensures EndsAt(RunW(v, tick, left), v, tick, left)
  {
    if InBounds(Last(v.body)) && left > 0 {
      RunStep(v, tick, left);
    }
  }

  /**
   * A run is a run of clean ticks followed by the first state or tick that ends it: the
   * head outside the window or a collision (Over), a stalled generateFood (Stalled), or
   * the fuel spent (StillRunning).
   */
  lemma RunIsTicks(w: World, tick: World -> Ticked, fuel: nat)
    ensures exists n: nat ::
      && n <= fuel && Clean(w, tick, n)
      && Stops(Play(w, tick, n), tick, fuel - n)
      && EndsAt(RunW(w, tick, fuel), Play(w, tick, n), tick, fuel - n)
  {
    FirstStop(w, tick, fuel, 0);
    var n: nat :| n <= fuel && Clean(w, tick, n) && Stops(Play(w, tick, n), tick, fuel - n);
    CleanTicksContinue(w, tick, fuel, n);
    RunStopsAt(Play(w, tick, n), tick, fuel - n);
  }
}
