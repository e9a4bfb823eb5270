/** The planner: a Rapidly-exploring Random Tree grown one step at a time.
    Each step draws samples until one can be reached from its nearest tree
    node without a collision, adds the state the extension ended in as a new
    child of that node, and updates the outcome flags: success when the new
    state reaches the goal, failure when the node budget is used up. */
module Planner {
  import opened Wrappers
  import opened Agent
  import opened Tree
  import opened Steering
  import opened NearestNeighbor
  import opened Path

  // ---------------------------------------------------------------------
  // Sampling.

  /** Below this draw of the uniform value the goal itself is sampled. */
  const GoalBias: real := 0.04

  /** The random numbers one sample is made of: a uniform value in [0, 1]
      choosing between the goal and a scattered state, then a position on
      the board and a yaw in degrees. */
  datatype Draw = Draw(value: real, x: real, z: real, yaw: real)

  /** The fixed parameters of one planning problem. */
  datatype Problem = Problem(startState: State, endState: State, actor: Actor,
                             maxNumNodes: int, boardWidth: real, boardHeight: real)

  /** A draw the random source can produce for `cfg`'s board. */
  predicate InRange(cfg: Problem, d: Draw)
  {
    0.0 <= d.value <= 1.0 &&
    -cfg.boardWidth / 2.0 <= d.x <= cfg.boardWidth / 2.0 &&
    -cfg.boardHeight / 2.0 <= d.z <= cfg.boardHeight / 2.0 &&
    -180.0 <= d.yaw <= 180.0
  }

  /** The sample made of the draw `d`: the goal, or a state at the goal's
      elevation, turned by the yaw about the vertical axis and moving at the
      agent's cruise speed. */
  function GetRandomState(cfg: Problem, d: Draw): (r: State)
    ensures d.value < GoalBias ==> r == cfg.endState
    ensures d.value >= GoalBias ==>
              r.position.y == cfg.endState.position.y && r.speed == cfg.actor.cruiseSpeed &&
              r.rotation.x == 0.0 && r.rotation.z == 0.0 && r.heading == r.rotation.y
  {
    if d.value < GoalBias then cfg.endState
    else
      var pos := Vec3(d.x, cfg.endState.position.y, d.z);
      var rot := Vec3(0.0, d.yaw, 0.0);
      State(pos, rot, rot.y, cfg.actor.cruiseSpeed)
  }

  /** A sample from an in-range draw is the goal or lies on the board with a
      heading between -180 and 180 degrees. */
  lemma SampleOnBoard(cfg: Problem, d: Draw)
    requires InRange(cfg, d)
    ensures var r := GetRandomState(cfg, d);
            r == cfg.endState ||
            (-cfg.boardWidth / 2.0 <= r.position.x <= cfg.boardWidth / 2.0 &&
             -cfg.boardHeight / 2.0 <= r.position.z <= cfg.boardHeight / 2.0 &&
             -180.0 <= r.heading <= 180.0 &&
             r.position.y == cfg.endState.position.y && r.speed == cfg.actor.cruiseSpeed)
  {
  }

  // ---------------------------------------------------------------------
  // One attempt: sample, nearest node, extension.

  /** The number of the last attempt one step may make (attempts are
      numbered from 0). */
  const MaxTries: nat := 10000

  /** The sample of attempt `k`. */
  function AttemptSample(cfg: Problem, draw: nat -> Draw, k: nat): State
  {
    GetRandomState(cfg, draw(k))
  }

  /** The node attempt `k` extends from: the nearest one to its sample. */
  function AttemptParent(cfg: Problem, t: Tree, draw: nat -> Draw, k: nat): (p: nat)
    requires Valid(t)
    ensures p < |t.nodes|
  {
    NearestIsMinimum(t, cfg.actor, AttemptSample(cfg, draw, k));
    Nearest(t, cfg.actor, AttemptSample(cfg, draw, k))
  }

  /** What the extension of attempt `k` yields. */
  function AttemptResult(cfg: Problem, t: Tree, draw: nat -> Draw, k: nat): Option<State>
    requires Valid(t)
  {
    Extension(cfg.actor, t.nodes[AttemptParent(cfg, t, draw, k)].value,
              AttemptSample(cfg, draw, k), cfg.endState)
  }

  /** A successful attempt: its number, the node it extended and the state
      the extension ended in. */
  datatype Success = Success(attempt: nat, parent: nat, newState: State)

  /** The first attempt, from `from` on up to the last one, whose extension
      succeeds, or nothing when none of them does. */
  function FirstSuccess(cfg: Problem, t: Tree, draw: nat -> Draw, from: nat): (r: Option<Success>)
    requires Valid(t) && from <= MaxTries + 1
    ensures r.Some? ==> from <= r.value.attempt <= MaxTries && r.value.parent < |t.nodes|
    decreases MaxTries + 1 - from
  {
    if from > MaxTries then None
    else match AttemptResult(cfg, t, draw, from)
      case Some(x) => Some(Success(from, AttemptParent(cfg, t, draw, from), x))
      case None => FirstSuccess(cfg, t, draw, from + 1)
  }

  /** Skipping failed attempts: when no success from `from` on comes before
      attempt `k`, the first success from `from` on is the first one from
      `k` on. */
  lemma {:induction false} FirstSuccessSkip(cfg: Problem, t: Tree, draw: nat -> Draw, from: nat, k: nat)
    requires Valid(t) && from <= k <= MaxTries + 1
    requires FirstSuccess(cfg, t, draw, from).None? || k <= FirstSuccess(cfg, t, draw, from).value.attempt
    ensures FirstSuccess(cfg, t, draw, from) == FirstSuccess(cfg, t, draw, k)
    decreases k - from
  {
    if from < k {
      assert AttemptResult(cfg, t, draw, from).None?;
      FirstSuccessSkip(cfg, t, draw, from + 1, k);
    }
  }

  /** Every attempt from `from` on before the first success fails (all of
      them up to the last one when there is none). */
  lemma FirstSuccessIsFirst(cfg: Problem, t: Tree, draw: nat -> Draw, from: nat)
    requires Valid(t) && from <= MaxTries + 1
    ensures var r := FirstSuccess(cfg, t, draw, from);
            forall j :: from <= j <= MaxTries && (r.None? || j < r.value.attempt) ==>
              AttemptResult(cfg, t, draw, j).None?
  {
    var r := FirstSuccess(cfg, t, draw, from);
    forall j | from <= j <= MaxTries && (r.None? || j < r.value.attempt)
      ensures AttemptResult(cfg, t, draw, j).None?
    {
      FirstSuccessSkip(cfg, t, draw, from, j);
    }
  }

  /** The first success is the attempt it names, with that attempt's
      nearest node and the state its extension ended in. */
  lemma {:induction false} FirstSuccessFound(cfg: Problem, t: Tree, draw: nat -> Draw, from: nat)
    requires Valid(t) && from <= MaxTries + 1
    requires FirstSuccess(cfg, t, draw, from).Some?
    ensures var a := FirstSuccess(cfg, t, draw, from).value;
            AttemptResult(cfg, t, draw, a.attempt) == Some(a.newState) &&
            a.parent == AttemptParent(cfg, t, draw, a.attempt)
    decreases MaxTries + 1 - from
  {
    if AttemptResult(cfg, t, draw, from).None? {
      FirstSuccessFound(cfg, t, draw, from + 1);
    }
  }

  // ---------------------------------------------------------------------
  // One step, as a function of the state before it.

  /** What a step changes: the tree, the two outcome flags, the count of
      nodes added and the node that reached the goal. */
  datatype Progress = Progress(tree: Tree, successful: bool, finished: bool,
                               numNodesAdded: int, endNode: Option<nat>)

  /** The state after one step. The first successful attempt, if any up to
      the last one, adds its end state under its nearest node; with none,
      both flags are cleared and nothing else changes. */
  function NextState(cfg: Problem, s: Progress, draw: nat -> Draw): Progress
    requires Valid(s.tree)
  {
    match FirstSuccess(cfg, s.tree, draw, 0)
    case None => s.(successful := false, finished := false)
    case Some(a) => AfterSuccess(cfg, s, a.attempt, a.parent, a.newState)
  }

  /** The state after attempt `k` extended node `p` to the state `x`. A new
      node reaching the goal ends the planning with success and records the
      node; a node added by the last attempt clears both flags and keeps the
      count; otherwise the count grows by one and the planning ends without
      success once it reaches the budget. */
  function AfterSuccess(cfg: Problem, s: Progress, k: nat, p: nat, x: State): Progress
    requires Valid(s.tree) && p < |s.tree.nodes|
  {
    var grown := AddChild(s.tree, p, x);
    if cfg.actor.reachedWaypoint(x, cfg.endState) then
      s.(tree := grown, endNode := Some(|s.tree.nodes|), successful := true, finished := true)
    else if k == MaxTries then
      s.(tree := grown, successful := false, finished := false)
    else if s.numNodesAdded + 1 >= cfg.maxNumNodes then
      s.(tree := grown, numNodesAdded := s.numNodesAdded + 1, successful := false, finished := true)
    else
      s.(tree := grown, numNodesAdded := s.numNodesAdded + 1)
  }

  /** What holds of the planner between steps: a well-formed tree rooted at
      the start state, with child lists in insertion order, no more nodes counted than were added, a recorded
      end node that is a non-root node reaching the goal, and success only
      together with being finished and having an end node. */
  predicate Inv(cfg: Problem, s: Progress)
  {
    Valid(s.tree) && ChildrenOrdered(s.tree) && s.tree.nodes[0].value == cfg.startState &&
    0 <= s.numNodesAdded <= |s.tree.nodes| - 1 &&
    (s.endNode.Some? ==>
       0 < s.endNode.value < |s.tree.nodes| &&
       cfg.actor.reachedWaypoint(s.tree.nodes[s.endNode.value].value, cfg.endState)) &&
    (s.successful ==> s.finished && s.endNode.Some?)
  }

  /** The state right after construction. */
  function Initial(cfg: Problem): (s: Progress)
    ensures Inv(cfg, s)
    ensures |s.tree.nodes| == 1 && !s.successful && !s.finished && s.numNodesAdded == 0
  {
    Progress(Singleton(cfg.startState), false, false, 0, None)
  }

  /** A step keeps the invariant. */
  lemma NextStateKeepsInv(cfg: Problem, s: Progress, draw: nat -> Draw)
    requires Inv(cfg, s)
    ensures Inv(cfg, NextState(cfg, s, draw))
  {
    var r := FirstSuccess(cfg, s.tree, draw, 0);
    if r.Some? {
      AfterSuccessKeepsInv(cfg, s, r.value.attempt, r.value.parent, r.value.newState);
    }
  }

  lemma AfterSuccessKeepsInv(cfg: Problem, s: Progress, k: nat, p: nat, x: State)
    requires Inv(cfg, s) && p < |s.tree.nodes|
    ensures Inv(cfg, AfterSuccess(cfg, s, k, p, x))
  {
    var grown := AddChild(s.tree, p, x);
    if cfg.actor.reachedWaypoint(x, cfg.endState) {
      GrownKeepsInv(cfg, s, p, x, s.(tree := grown, endNode := Some(|s.tree.nodes|), successful := true, finished := true));
    } else if k == MaxTries {
      GrownKeepsInv(cfg, s, p, x, s.(tree := grown, successful := false, finished := false));
    } else if s.numNodesAdded + 1 >= cfg.maxNumNodes {
      GrownKeepsInv(cfg, s, p, x, s.(tree := grown, numNodesAdded := s.numNodesAdded + 1, successful := false, finished := true));
    } else {
      GrownKeepsInv(cfg, s, p, x, s.(tree := grown, numNodesAdded := s.numNodesAdded + 1));
    }
  }

  /** Adding a node keeps the invariant when the count grows by at most one,
      the end node is kept or becomes the new node reaching the goal, and
      success still comes with being finished and an end node. */
  lemma GrownKeepsInv(cfg: Problem, s: Progress, p: nat, x: State, s': Progress)
    requires Inv(cfg, s) && p < |s.tree.nodes|
    requires s'.tree == AddChild(s.tree, p, x)
    requires s.numNodesAdded <= s'.numNodesAdded <= s.numNodesAdded + 1
    requires s'.endNode == s.endNode ||
             (s'.endNode == Some(|s.tree.nodes|) && cfg.actor.reachedWaypoint(x, cfg.endState))
    requires s'.successful ==> s'.finished && s'.endNode.Some?
    ensures Inv(cfg, s')
  {
    AddChildValid(s.tree, p, x);
    AddChildOrdered(s.tree, p, x);
    AddChildExtends(s.tree, p, x);
  }

  /** Whatever the outcome, a successful attempt's node is in the tree. */
  lemma AfterSuccessGrows(cfg: Problem, s: Progress, k: nat, p: nat, x: State)
    requires Valid(s.tree) && p < |s.tree.nodes|
    ensures AfterSuccess(cfg, s, k, p, x).tree == AddChild(s.tree, p, x)
  {
  }

  /** A step adds at most one node, and only when some attempt up to the
      last one succeeds: the end state of the first successful attempt,
      appended as the last child of that attempt's nearest node. No node
      already in the tree changes its state or its parent, no node other
      than that parent changes at all, and the root keeps its state. */
  lemma NextStateAddsAtMostOne(cfg: Problem, s: Progress, draw: nat -> Draw)
    requires Valid(s.tree)
    ensures var s' := NextState(cfg, s, draw);
            var r := FirstSuccess(cfg, s.tree, draw, 0);
            Extends(s.tree, s'.tree) &&
            s'.tree.nodes[0].value == s.tree.nodes[0].value &&
            (r.None? <==> s'.tree == s.tree) &&
            (r.Some? ==>
               var a := r.value;
               var n := |s.tree.nodes|;
               |s'.tree.nodes| == n + 1 &&
               a.parent == Nearest(s.tree, cfg.actor, AttemptSample(cfg, draw, a.attempt)) &&
               AttemptResult(cfg, s.tree, draw, a.attempt) == Some(a.newState) &&
               s'.tree == AddChild(s.tree, a.parent, a.newState) &&
               s'.tree.nodes[n] == Node(a.newState, Some(a.parent), []) &&
               s'.tree.nodes[a.parent].children == s.tree.nodes[a.parent].children + [n] &&
               forall i :: 0 <= i < n && i != a.parent ==> s'.tree.nodes[i] == s.tree.nodes[i])
  {
    var r := FirstSuccess(cfg, s.tree, draw, 0);
    if r.Some? {
      FirstSuccessFound(cfg, s.tree, draw, 0);
      AfterSuccessGrows(cfg, s, r.value.attempt, r.value.parent, r.value.newState);
      AddChildExtends(s.tree, r.value.parent, r.value.newState);
    }
  }

  /** Goal detection: when the first successful attempt (up to the last
      one) ends in a state reaching the goal, the step sets both flags,
      records the new node as the end node and leaves the count of added
      nodes as it was. Otherwise the step keeps the end node and never sets
      the success flag that was not already set. */
  lemma NextStateGoal(cfg: Problem, s: Progress, draw: nat -> Draw)
    requires Valid(s.tree)
    ensures var s' := NextState(cfg, s, draw);
            var r := FirstSuccess(cfg, s.tree, draw, 0);
            var reached := r.Some? && cfg.actor.reachedWaypoint(r.value.newState, cfg.endState);
            (reached ==>
               s'.successful && s'.finished && s'.endNode == Some(|s.tree.nodes|) &&
               s'.numNodesAdded == s.numNodesAdded &&
               s'.tree.nodes[|s.tree.nodes|].value == r.value.newState) &&
            (!reached ==> s'.endNode == s.endNode && (s'.successful ==> s.successful))
  {
    var r := FirstSuccess(cfg, s.tree, draw, 0);
    if r.Some? {
      AfterSuccessGrows(cfg, s, r.value.attempt, r.value.parent, r.value.newState);
    }
  }

  /** Retry limit: when no attempt up to the last one succeeds, the step
      clears both flags and changes nothing else; when only the last attempt
      succeeds without reaching the goal, its node stays in the tree but the
      count of added nodes is not incremented and both flags are cleared. */
  lemma NextStateRetryLimit(cfg: Problem, s: Progress, draw: nat -> Draw)
    requires Valid(s.tree)
    ensures var s' := NextState(cfg, s, draw);
            var r := FirstSuccess(cfg, s.tree, draw, 0);
            (r.None? ==>
               s' == Progress(s.tree, false, false, s.numNodesAdded, s.endNode)) &&
            (r.Some? && r.value.attempt == MaxTries &&
             !cfg.actor.reachedWaypoint(r.value.newState, cfg.endState) ==>
               |s'.tree.nodes| == |s.tree.nodes| + 1 &&
               !s'.successful && !s'.finished &&
               s'.numNodesAdded == s.numNodesAdded && s'.endNode == s.endNode)
  {
    var r := FirstSuccess(cfg, s.tree, draw, 0);
    if r.Some? {
      AfterSuccessGrows(cfg, s, r.value.attempt, r.value.parent, r.value.newState);
    }
  }

  /** Node budget: a step whose first success comes before the last attempt
      and does not reach the goal counts exactly one more node; it finishes
      without success exactly when the count reaches the budget, and
      otherwise leaves both flags as they were. */
  lemma NextStateBudget(cfg: Problem, s: Progress, draw: nat -> Draw)
    requires Valid(s.tree)
    ensures var s' := NextState(cfg, s, draw);
            var r := FirstSuccess(cfg, s.tree, draw, 0);
            r.Some? && r.value.attempt < MaxTries &&
            !cfg.actor.reachedWaypoint(r.value.newState, cfg.endState) ==>
              s'.numNodesAdded == s.numNodesAdded + 1 && s'.endNode == s.endNode &&
              (s'.numNodesAdded >= cfg.maxNumNodes ==> s'.finished && !s'.successful) &&
              (s'.numNodesAdded < cfg.maxNumNodes ==>
                 s'.finished == s.finished && s'.successful == s.successful)
  {
  }

  /** The first success depends only on the draws of the attempts it looks at. */
  lemma {:induction false} FirstSuccessLocal(cfg: Problem, t: Tree, d1: nat -> Draw, d2: nat -> Draw, from: nat)
    requires Valid(t) && from <= MaxTries + 1
    requires forall j :: from <= j <= MaxTries ==> d1(j) == d2(j)
    ensures FirstSuccess(cfg, t, d1, from) == FirstSuccess(cfg, t, d2, from)
    decreases MaxTries + 1 - from
  {
    if from <= MaxTries {
      assert AttemptSample(cfg, d1, from) == AttemptSample(cfg, d2, from);
      FirstSuccessLocal(cfg, t, d1, d2, from + 1);
    }
  }

  /** A step uses no draw past that of the last attempt: two draw sequences
      agreeing on attempts 0 to MaxTries give the same step. */
  lemma NextStateLocal(cfg: Problem, s: Progress, d1: nat -> Draw, d2: nat -> Draw)
    requires Valid(s.tree)
    requires forall j :: 0 <= j <= MaxTries ==> d1(j) == d2(j)
    ensures NextState(cfg, s, d1) == NextState(cfg, s, d2)
  {
    FirstSuccessLocal(cfg, s.tree, d1, d2, 0);
  }

  /** The path a finished, successful planner reports: it starts with the
      start state, ends with the end node's state, which reaches the goal,
      has one more state than the end node has ancestors, and each state is
      that of the parent of the node holding the next one. */
  lemma GoalPath(cfg: Problem, s: Progress)
    requires Inv(cfg, s) && s.successful
    ensures var e := s.endNode.value;
            var path := PathTo(s.tree, e);
            |path| == Depth(s.tree, e) + 1 && |path| >= 2 &&
            path[0] == cfg.startState &&
            path[|path| - 1] == s.tree.nodes[e].value &&
            cfg.actor.reachedWaypoint(path[|path| - 1], cfg.endState) &&
            forall k :: 0 <= k < |path| - 1 ==>
              s.tree.nodes[Chain(s.tree, e)[k + 1]].parent == Some(Chain(s.tree, e)[k])
  {
    PathShape(s.tree, s.endNode.value);
  }

  // ---------------------------------------------------------------------
  // One step, as a loop.

  /** The nearest node to attempt `k`'s sample and the outcome of extending
      it decide the first success when no earlier attempt succeeded: a
      succeeding attempt is the first success, a failing one comes before
      it, and a failing last attempt leaves no success at all. */
  lemma AttemptIs(cfg: Problem, t: Tree, draw: nat -> Draw, k: nat, p: nat, ok: bool, x: State)
    requires Valid(t) && k <= MaxTries
    requires FirstSuccess(cfg, t, draw, 0).Some? ==> k <= FirstSuccess(cfg, t, draw, 0).value.attempt
    requires p == Nearest(t, cfg.actor, GetRandomState(cfg, draw(k))) && p < |t.nodes|
    requires ok == Extension(cfg.actor, t.nodes[p].value, GetRandomState(cfg, draw(k)), cfg.endState).Some?
    requires ok ==> x == Extension(cfg.actor, t.nodes[p].value, GetRandomState(cfg, draw(k)), cfg.endState).value
    ensures ok ==> FirstSuccess(cfg, t, draw, 0) == Some(Success(k, p, x))
    ensures !ok && k < MaxTries ==>
              FirstSuccess(cfg, t, draw, 0).Some? ==> k < FirstSuccess(cfg, t, draw, 0).value.attempt
    ensures !ok && k == MaxTries ==> FirstSuccess(cfg, t, draw, 0).None?
  {
    assert AttemptParent(cfg, t, draw, k) == p;
    assert AttemptResult(cfg, t, draw, k).Some? == ok;
    FirstSuccessSkip(cfg, t, draw, 0, k);
    if !ok {
      assert FirstSuccess(cfg, t, draw, k) == FirstSuccess(cfg, t, draw, k + 1);
    }
  }

  /** The loop of one planning step, on the planner's state `s`: attempt
      after attempt, sample a state, find its nearest node and extend from
      it; add the first extension that succeeds as a child of that node,
      then end with success if it reaches the goal, or give up with both
      flags cleared after the last attempt, or count the node against the
      budget. The result is the state NextState describes. */
  method Step(cfg: Problem, s: Progress, draw: nat -> Draw) returns (s': Progress)
    requires Valid(s.tree)
    ensures s' == NextState(cfg, s, draw)
  {
    ghost var first := FirstSuccess(cfg, s.tree, draw, 0);
    s' := s;
    var triesToAddNode := 0;
    var addedNode := false;
    ghost var a: nat, p: nat, x: State := 0, 0, cfg.startState;
    while !addedNode
      invariant 0 <= triesToAddNode <= MaxTries
      invariant s'.numNodesAdded == s.numNodesAdded && s'.endNode == s.endNode
      invariant s'.successful == s.successful && s'.finished == s.finished
      invariant !addedNode ==>
                  s'.tree == s.tree && (first.Some? ==> triesToAddNode <= first.value.attempt)
      invariant addedNode ==>
                  triesToAddNode == a + 1 && first == Some(Success(a, p, x)) && p < |s.tree.nodes| &&
                  !cfg.actor.reachedWaypoint(x, cfg.endState) && s'.tree == AddChild(s.tree, p, x)
      decreases MaxTries - triesToAddNode, if addedNode then 0 else 1
    {
      var randState := GetRandomState(cfg, draw(triesToAddNode));
      var nearestNeighbor := GetNearestNeighbor(randState, s'.tree, cfg.actor);
      var ok, newState := StepTowards(s'.tree.nodes[nearestNeighbor].value, randState, cfg.actor, cfg.endState);
      AttemptIs(cfg, s'.tree, draw, triesToAddNode, nearestNeighbor, ok, newState);
      if ok {
        addedNode := true;
        a, p, x := triesToAddNode, nearestNeighbor, newState;
        var n := |s'.tree.nodes|;
        s' := s'.(tree := AddChild(s'.tree, nearestNeighbor, newState));
        if cfg.actor.reachedWaypoint(s'.tree.nodes[n].value, cfg.endState) {
          s' := s'.(endNode := Some(n), successful := true, finished := true);
          return;
        }
      }
      triesToAddNode := triesToAddNode + 1;
      if triesToAddNode > MaxTries {
        s' := s'.(successful := false, finished := false);
        return;
      }
    }
    s' := s'.(numNodesAdded := s'.numNodesAdded + 1);
    if s'.numNodesAdded >= cfg.maxNumNodes {
      s' := s'.(successful := false, finished := true);
    }
  }

  // ---------------------------------------------------------------------
  // The planner object.

  class RRT {
    var Successful: bool
    var Finished: bool
    var tree: Tree
    var numNodesAdded: int
    var endNode: Option<nat>

    const startState: State
    const endState: State
    const actor: Actor
    const maxNumNodes: int
    const boardWidth: real
    const boardHeight: real

    /** The fixed parameters of this planner. */
    function AsProblem(): (cfg: Problem)
      ensures cfg.startState == startState && cfg.endState == endState && cfg.actor == actor
      ensures cfg.maxNumNodes == maxNumNodes
      ensures cfg.boardWidth == boardWidth && cfg.boardHeight == boardHeight
    {
      Problem(startState, endState, actor, maxNumNodes, boardWidth, boardHeight)
    }

    /** The planner's changing state. */
    function AsProgress(): (s: Progress)
      reads this
      ensures s.tree == tree && s.successful == Successful && s.finished == Finished
      ensures s.numNodesAdded == numNodesAdded && s.endNode == endNode
    {
      Progress(tree, Successful, Finished, numNodesAdded, endNode)
    }

    /** The planner invariant on this planner's state. */
    predicate Valid()
      reads this
    {
      Inv(AsProblem(), AsProgress())
    }

    /** A planner holding only the start state, with no node added and
        neither flag set. */
    constructor (startState: State, endState: State, actor: Actor, maxNumNodes: int,
                 boardWidth: real, boardHeight: real)
      ensures Valid()
      ensures this.startState == startState && this.endState == endState && this.actor == actor
      ensures this.maxNumNodes == maxNumNodes
      ensures this.boardWidth == boardWidth && this.boardHeight == boardHeight
      ensures AsProgress() == Initial(AsProblem())
    {
      this.startState := startState;
      this.endState := endState;
      this.actor := actor;
      numNodesAdded := 0;
      this.maxNumNodes := maxNumNodes;
      this.boardWidth := boardWidth;
      this.boardHeight := boardHeight;
      Finished, Successful := false, false;
      tree := Singleton(startState);
      endNode := None;
    }

    /** One planning step, drawing the random numbers of attempt `k` from
        `draw(k)`: the new state is the one NextState describes, and the
        invariant is kept. */
    method NextStep(draw: nat -> Draw)
      requires Valid()
      modifies this
      ensures AsProgress() == NextState(AsProblem(), old(AsProgress()), draw)
      ensures Valid()
    {
      var s' := Step(AsProblem(), AsProgress(), draw);
      NextStateKeepsInv(AsProblem(), AsProgress(), draw);
      tree, Successful, Finished := s'.tree, s'.successful, s'.finished;
      numNodesAdded, endNode := s'.numNodesAdded, s'.endNode;
    }

    /** The path from the start state to the end node when the planning has
        finished with success, and nothing otherwise. */
    method GetPath() returns (path: Option<seq<State>>)
      requires Valid()
      ensures path.Some? <==> Finished && Successful
      ensures path.Some? ==> path.value == PathTo(tree, endNode.value)
      ensures path.Some? ==>
                |path.value| == Depth(tree, endNode.value) + 1 &&
                path.value[0] == startState &&
                actor.reachedWaypoint(path.value[|path.value| - 1], endState)
    {
      if Finished && Successful {
        var p := CreatePathFromTree(tree, endNode.value);
        GoalPath(AsProblem(), AsProgress());
        return Some(p);
      } else {
        return None;
      }
    }
  }
}
