# RRT planner, modelled in Dafny

A model of the `RRT` class of a Unity project. The class is a
Rapidly-exploring Random Tree planner that a game object drives one
`NextStep()` call at a time.

The model has these parts:

- **Wrappers** (`wrappers.dfy`): the `Option` datatype.
- **Agent** (`agent.dfy`): the planner's inputs from the game.
  - A `State` record.
  - The `Undefined` state, left open.
  - An `Actor` record of capabilities: cruise speed, closeness measure, stepping toward a target, obstacle test and goal test. Each capability is a function supplied by the caller, and nothing is assumed about it.
- **Tree** (`tree.dfy`): the search tree as an arena of nodes addressed by index.
  - Each node holds a state, the index of its parent (none for the root) and its children in insertion order.
  - `Valid` is the shape every planner tree keeps. The root has no parent. Every parent comes before its child, which makes the tree acyclic. Child lists and parent links agree.
  - Appending a child keeps that shape and keeps child lists in insertion order. It changes no existing node except by adding the new index at the end of the parent's child list.
  - Also defined here: the pre-order walk, and the parent chain from the root down to a node.
- **Steering** (`steering.dfy`): the extension from a tree state toward a sample.
  - It runs 22 increments of 8.0/22 time units each.
  - A collision gives up the extension with the undefined state.
  - Reaching the goal stops the extension early with success.
- **NearestNeighbor** (`nearest.dfy`): the recursive scan over children that carries a running minimum. It is proved to return the first strict minimum of the closeness measure over the pre-order walk.
- **Path** (`path.dfy`): the loop that walks parent links up from the end node and puts each state in front.
- **Planner** (`planner.dfy`): the sampler, the step and the `RRT` class.
  - `NextState` states the whole effect of one step as a function of the state before it and the random draws.
  - `Step` is the step's loop, proved to compute `NextState`.
  - `RRT.NextStep` updates the planner's fields to that state and keeps the invariant `Inv`.

Randomness is an oracle. A step receives `draw: nat -> Draw`, and `draw(k)` holds the random numbers of attempt `k` of that step. Each call draws anew, so two calls may receive different oracles. The lemma `NextStateLocal` shows that a step reads no draw beyond attempt 10000.

## Model

| member | source | states |
|---|---|---|
| Tree.Singleton | Assets/Scripts/RRT.cs:32 | the new tree holds one node, the root with the given state; it is well formed and its child lists are ordered |
| Tree.AddChild | Assets/Scripts/RRT.cs:53 | appending gives one more node; the new node holds the state, names its parent and has no children; the parent keeps its state and parent and gains the new index at the end of its child list; every other node is unchanged |
| Tree.AddChildValid | Assets/Scripts/RRT.cs:53 | appending a child to a well-formed tree leaves it well formed: rooted, parents before children, child lists and parent links in agreement |
| Tree.AddChildOrdered | Assets/Scripts/RRT.cs:53 | appending keeps every child list in insertion order |
| Tree.PreOrderCovers | Assets/Scripts/RRT.cs:114-127 | the pre-order walk from the root meets every node of the tree |
| Tree.ChainShape | Assets/Scripts/RRT.cs:172-176 | the parent chain runs from the root to the node, has depth + 1 entries, and each entry is the parent of the next |
| Steering.FirstStopIsFirst | Assets/Scripts/RRT.cs:139-150 | no increment before the first stopping one collides or reaches the goal |
| Steering.ExtensionBlockedIff | Assets/Scripts/RRT.cs:139-146 | an extension is given up exactly when some increment collides and no earlier increment reached the goal (both directions) |
| Steering.ExtensionSucceeds | Assets/Scripts/RRT.cs:138-164 | a successful extension ends at an increment between 1 and 22; no increment up to it collides, none before it reaches the goal, and it reaches the goal or is the 22nd |
| Steering.StepTowards | Assets/Scripts/RRT.cs:129-165 | the loop returns true exactly when the extension succeeds; the new state is then the extension's end state, and otherwise the undefined state |
| NearestNeighbor.BestIsMinimum | Assets/Scripts/RRT.cs:114-127 | the node a strict running minimum keeps is one of the nodes met, and no node met is closer |
| NearestNeighbor.BestIsFirst | Assets/Scripts/RRT.cs:120 | every node met before the kept one is strictly farther than it |
| NearestNeighbor.SweepIsBest | Assets/Scripts/RRT.cs:114-127 | carrying the running minimum from a first node across the rest keeps the same node as the first-strict-minimum rule, with its measure |
| NearestNeighbor.ScanSubtree | Assets/Scripts/RRT.cs:114-127 | the recursive scan leaves the running minimum it would have after meeting the walks of all children of the node, in order |
| NearestNeighbor.GetNearestNeighbor | Assets/Scripts/RRT.cs:105-112 | the search from the root returns the nearest neighbour over the pre-order walk, a node of the tree |
| NearestNeighbor.NearestIsMinimum | Assets/Scripts/RRT.cs:105-127 | the nearest neighbour is a node of the tree whose closeness to the sample is at most that of every node |
| NearestNeighbor.NearestIsFirst | Assets/Scripts/RRT.cs:105-127 | every node met in pre-order before the nearest neighbour is strictly farther, so on a tie the earliest node wins and the root wins whenever it is among the closest |
| Path.PathTo | Assets/Scripts/RRT.cs:168-178 | the path to a node has one state per node of its parent chain, each the state held by that node |
| Path.PathShape | Assets/Scripts/RRT.cs:168-178 | the path has depth + 1 states, starts with the root's state, ends with the node's state, and each state is that of the parent of the node holding the next |
| Path.CreatePathFromTree | Assets/Scripts/RRT.cs:168-178 | the front-inserting parent walk returns exactly the path from the root to the end node |
| Planner.GetRandomState | Assets/Scripts/RRT.cs:91-103 | below the goal bias the sample is the goal itself; otherwise it is at the goal's elevation, at cruise speed, rotated only about the vertical axis, with heading equal to that rotation |
| Planner.SampleOnBoard | Assets/Scripts/RRT.cs:93-101 | a sample from in-range draws is the goal, or lies on the board with a heading between -180 and 180 degrees |
| Planner.FirstSuccess | Assets/Scripts/RRT.cs:39-69 | the first successful attempt found from a given attempt on is numbered no earlier than that attempt and no later than 10000, and names a node of the tree |
| Planner.FirstSuccessSkip | Assets/Scripts/RRT.cs:39-69 | when no success lies between two attempt numbers, the search from the first gives the same result as the search from the second |
| Planner.FirstSuccessIsFirst | Assets/Scripts/RRT.cs:39-69 | every attempt before the first success fails, and with no success every attempt up to 10000 fails |
| Planner.FirstSuccessFound | Assets/Scripts/RRT.cs:42-53 | the first success is an attempt whose extension from its nearest node succeeds, with that node and that end state |
| Planner.FirstSuccessLocal | Assets/Scripts/RRT.cs:39-69 | the first success depends only on the draws of attempts up to 10000 |
| Planner.Initial | Assets/Scripts/RRT.cs:21-33 | the initial planner state satisfies the invariant, with one node, no node counted and neither flag set |
| Planner.NextStateKeepsInv | Assets/Scripts/RRT.cs:35-77 | a step keeps the invariant: a valid tree rooted at the start state with child lists in insertion order (so the pre-order tie-break meets children in the order they were added), a count of at most the non-root nodes, an end node that is a non-root node reaching the goal, and success only when finished with an end node |
| Planner.NextStateAddsAtMostOne | Assets/Scripts/RRT.cs:39-69 | a step adds exactly one node when some attempt up to 10000 succeeds and none otherwise; the node is the first success's end state, appended as the last child of that attempt's nearest node: the new tree is exactly that append, so the parent only gains the new index at the end of its child list and every other existing node is unchanged |
| Planner.NextStateGoal | Assets/Scripts/RRT.cs:53-60 | when the first success reaches the goal, both flags are set, its node becomes the end node and the count is unchanged; otherwise the end node is kept and success is never newly set |
| Planner.NextStateRetryLimit | Assets/Scripts/RRT.cs:62-68 | with no success in 10001 attempts both flags are cleared and nothing else changes; a non-goal success on the last attempt keeps its node but leaves the count unchanged and clears both flags |
| Planner.NextStateBudget | Assets/Scripts/RRT.cs:71-76 | a non-goal success before the last attempt counts exactly one more node and keeps the end node; it finishes without success exactly when the count reaches the budget and otherwise keeps both flags |
| Planner.NextStateLocal | Assets/Scripts/RRT.cs:39-69 | two draw oracles agreeing on attempts 0 to 10000 give the same step |
| Planner.GoalPath | Assets/Scripts/RRT.cs:79-89 | the path of a successful planner has depth + 1 states, at least two; it starts with the start state and ends with the end node's state, which reaches the goal; consecutive states are parent and child |
| Planner.AttemptIs | Assets/Scripts/RRT.cs:42-53 | while no earlier attempt has succeeded, a successful attempt is the first success, with its nearest node and end state; a failed one comes before the first success; a failed attempt 10000 means no success |
| Planner.Step | Assets/Scripts/RRT.cs:35-77 | the step's loop produces exactly the state NextState describes |
| Planner.RRT.constructor | Assets/Scripts/RRT.cs:21-33 | the fields hold the parameters, the tree is the start state alone, no node is counted, neither flag is set, and the invariant holds |
| Planner.RRT.NextStep | Assets/Scripts/RRT.cs:35-77 | the fields after the call are NextState of the fields before it, and the invariant is kept |
| Planner.RRT.GetPath | Assets/Scripts/RRT.cs:79-89 | a path is returned exactly when the planner finished with success; it is the path to the end node, with depth + 1 states, starting at the start state and ending in a state that reaches the goal |

## Left out

- Rendering is left out: `DrawLine` (Assets/Scripts/RRT.cs:181-199), the `points` list, the every-seventh-increment sampling and the random line colour (Assets/Scripts/RRT.cs:134-136, 152-163). They have no effect on the planning outcome.
- The random distribution is left out. `GetRandomState` is a function of the draws of its attempt. Nothing about the goal bias probability or the uniform ranges is modelled beyond `InRange`.
- Floats are modelled as unbounded reals, and `Vector3` as a triple of reals. The actor's capabilities (closeness, stepping, obstacle and goal tests) are arbitrary functions.
- `TreeNode<State>` is not part of this model. The tree is an arena of nodes addressed by index, and a node reference becomes an index.
- `State.Undefined` is a constant whose value is left open, since the state type is not part of this model.
- The per-frame loop that calls `NextStep` repeatedly is game logic outside the class, so it is left out.
- Planner.RRT.NextStep: the step's loop runs in `Planner.Step` on a copy of the planner's changing state, and the fields are written once at the end. The source writes the fields as it goes. No other code reads them during a step, so the outcome is the same.
- Planner.RRT.NextStep: `numNodesAdded` is an unbounded integer. The 32-bit wrap-around of the C# `int` would need more than 2^31 steps, so it is not modelled.
- Planner.RRT.constructor: it does not validate its parameters, because the source does not either.
- NearestNeighbor.GetNearestNeighbor: its contract ties the result to `Nearest`. The minimum and tie-break properties are stated once about `Nearest`, in `NearestIsMinimum` and `NearestIsFirst`.

The model keeps these behaviours of the code, which a reader might not expect:

- Exhausting the 10001 attempts of a step clears both `Successful` and `Finished`, so the outcome is not terminal and a later call tries again.
- A node added by the last allowed attempt stays in the tree, but it is not counted against the node budget.
- `NextStep` does not check `Finished`. A call after the planner has finished still grows the tree and may change the flags. The node count can therefore exceed the budget.
