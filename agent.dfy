/** The agent's configuration and the capabilities the planner asks of it.
    The state type and the actor live outside the planner; here a state is a
    pose record, and each actor capability is a function the caller supplies
    and about which nothing is assumed beyond being a function. */
module Agent {

  datatype Vec3 = Vec3(x: real, y: real, z: real)

  /** A pose: position on the plane (y is the elevation), rotation in
      degrees, the heading taken from the rotation about y, and a speed. */
  datatype State = State(position: Vec3, rotation: Vec3, heading: real, speed: real)

  /** The distinguished "no valid configuration" state. Its value is fixed by
      the state type, which is not part of this model, so it is left open. */
  const Undefined: State

  /** What the planner consumes from the agent. */
  datatype Actor = Actor(
    cruiseSpeed: real,
    closenessMeasure: (State, State) -> real,
    stepTowards: (State, State, real) -> State,
    wouldHitObstacle: State -> bool,
    reachedWaypoint: (State, State) -> bool)
}
