/** Steering: extend from a tree state toward a sampled state by simulating
    the agent for a fixed time in fixed increments, giving up on the first
    increment that would hit an obstacle and stopping early on the first one
    that reaches the goal. */
module Steering {
  import opened Wrappers
  import opened Agent

  /** Total simulated time of one extension. */
  const TimeToSimulate: real := 8.0
  /** Number of simulated increments of one extension. */
  const NumPoints: nat := 22
  /** Time passed to the agent for one increment. */
  const Dt: real := TimeToSimulate / NumPoints as real

  /** The state after `k` increments from `start` toward `target`. */
  function Trajectory(actor: Actor, start: State, target: State, k: nat): State
  {
    if k == 0 then start
    else actor.stepTowards(Trajectory(actor, start, target, k - 1), target, Dt)
  }

  /** Increment `k` ends the simulation: it collides or reaches the goal. */
  predicate Stops(actor: Actor, start: State, target: State, goal: State, k: nat)
  {
    var s := Trajectory(actor, start, target, k);
    actor.wouldHitObstacle(s) || actor.reachedWaypoint(s, goal)
  }

  /** The first increment, from `from` on, that ends the simulation, or
      NumPoints + 1 when none of them up to NumPoints does. */
  function FirstStop(actor: Actor, start: State, target: State, goal: State, from: nat): (k: nat)
    requires 1 <= from <= NumPoints + 1
    ensures from <= k <= NumPoints + 1
    ensures k <= NumPoints ==> Stops(actor, start, target, goal, k)
    decreases NumPoints + 1 - from
  {
    if from > NumPoints || Stops(actor, start, target, goal, from) then from
    else FirstStop(actor, start, target, goal, from + 1)
  }

  /** No increment from `from` on before the first stop ends the simulation. */
  lemma {:induction false} FirstStopIsFirst(actor: Actor, start: State, target: State, goal: State, from: nat)
    requires 1 <= from <= NumPoints + 1
    ensures forall j :: from <= j < FirstStop(actor, start, target, goal, from) ==>
              !Stops(actor, start, target, goal, j)
    decreases NumPoints + 1 - from
  {
    if from <= NumPoints && !Stops(actor, start, target, goal, from) {
      FirstStopIsFirst(actor, start, target, goal, from + 1);
    }
  }

  /** Any increment that stops the simulation with none stopping before it is
      the first stop. */
  lemma {:induction false} FirstStopAt(actor: Actor, start: State, target: State, goal: State,
                                       from: nat, k: nat)
    requires 1 <= from <= k <= NumPoints + 1
    requires k <= NumPoints ==> Stops(actor, start, target, goal, k)
    requires forall j :: from <= j < k ==> !Stops(actor, start, target, goal, j)
    ensures FirstStop(actor, start, target, goal, from) == k
    decreases k - from
  {
    if from < k {
      FirstStopAt(actor, start, target, goal, from + 1, k);
    }
  }

  /** What one extension yields: None when it was given up for a collision,
      otherwise the state it ended in. */
  function Extension(actor: Actor, start: State, target: State, goal: State): (r: Option<State>)
  {
    var k := FirstStop(actor, start, target, goal, 1);
    if k <= NumPoints && actor.wouldHitObstacle(Trajectory(actor, start, target, k)) then None
    else if k <= NumPoints then Some(Trajectory(actor, start, target, k))
    else Some(Trajectory(actor, start, target, NumPoints))
  }

  /** Increment `k` collides with no increment before it reaching the goal. */
  predicate BlockedAt(actor: Actor, start: State, target: State, goal: State, k: nat)
  {
    1 <= k <= NumPoints &&
    actor.wouldHitObstacle(Trajectory(actor, start, target, k)) &&
    forall j :: 1 <= j < k ==> !actor.reachedWaypoint(Trajectory(actor, start, target, j), goal)
  }

  /** An extension is given up exactly when some increment collides before
      any increment has reached the goal. */
  lemma ExtensionBlockedIff(actor: Actor, start: State, target: State, goal: State)
    ensures Extension(actor, start, target, goal).None? <==>
            (exists k :: BlockedAt(actor, start, target, goal, k))
  {
    var f := FirstStop(actor, start, target, goal, 1);
    FirstStopIsFirst(actor, start, target, goal, 1);
    if Extension(actor, start, target, goal).None? {
      forall j | 1 <= j < f
        ensures !actor.reachedWaypoint(Trajectory(actor, start, target, j), goal)
      {
        assert !Stops(actor, start, target, goal, j);
      }
      assert BlockedAt(actor, start, target, goal, f);
    }
    if k :| BlockedAt(actor, start, target, goal, k) {
      assert Stops(actor, start, target, goal, k);
      assert f <= k;
      if f < k {
        assert !actor.reachedWaypoint(Trajectory(actor, start, target, f), goal);
      }
    }
  }

  /** Increment `k` is where a successful extension ends: no increment up to
      it collides, none before it reaches the goal, and it reaches the goal
      or is the last one. */
  predicate EndsAt(actor: Actor, start: State, target: State, goal: State, k: nat)
  {
    1 <= k <= NumPoints &&
    (forall j :: 1 <= j <= k ==> !actor.wouldHitObstacle(Trajectory(actor, start, target, j))) &&
    (forall j :: 1 <= j < k ==> !actor.reachedWaypoint(Trajectory(actor, start, target, j), goal)) &&
    (actor.reachedWaypoint(Trajectory(actor, start, target, k), goal) || k == NumPoints)
  }

  /** A successful extension ends in the first increment that reaches the
      goal, or in the last increment when none does. */
  lemma ExtensionSucceeds(actor: Actor, start: State, target: State, goal: State)
    requires Extension(actor, start, target, goal).Some?
    ensures exists k :: EndsAt(actor, start, target, goal, k) &&
                        Extension(actor, start, target, goal).value == Trajectory(actor, start, target, k)
  {
    var f := FirstStop(actor, start, target, goal, 1);
    FirstStopIsFirst(actor, start, target, goal, 1);
    var k := if f <= NumPoints then f else NumPoints;
    forall j | 1 <= j <= k
      ensures !actor.wouldHitObstacle(Trajectory(actor, start, target, j))
      ensures j < k ==> !actor.reachedWaypoint(Trajectory(actor, start, target, j), goal)
    {
      if j < f {
        assert !Stops(actor, start, target, goal, j);
      }
    }
    assert EndsAt(actor, start, target, goal, k);
  }

  /** Simulates one extension as the planner does: NumPoints increments of Dt
      from `start` toward `goalState`, returning false with the undefined
      state on a collision, and stopping early when `endState` is reached. */
  method StepTowards(start: State, goalState: State, actor: Actor, endState: State)
    returns (ok: bool, newState: State)
    ensures ok == Extension(actor, start, goalState, endState).Some?
    ensures newState == if ok then Extension(actor, start, goalState, endState).value else Undefined
  {
    newState := start;
    for i := 0 to NumPoints
      invariant newState == Trajectory(actor, start, goalState, i)
      invariant forall j :: 1 <= j <= i ==> !Stops(actor, start, goalState, endState, j)
    {
      newState := actor.stepTowards(newState, goalState, Dt);
      if actor.wouldHitObstacle(newState) {
        FirstStopAt(actor, start, goalState, endState, 1, i + 1);
        newState := Undefined;
        return false, newState;
      }
      if actor.reachedWaypoint(newState, endState) {
        FirstStopAt(actor, start, goalState, endState, 1, i + 1);
        return true, newState;
      }
    }
    FirstStopAt(actor, start, goalState, endState, 1, NumPoints + 1);
    ok := true;
  }
}
