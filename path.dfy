/** Path reconstruction: the states from the root of the tree down to a
    node, found by following parent links up from that node and putting each
    state in front of those already collected. */
module Path {
  import opened Wrappers
  import opened Agent
  import opened Tree

  /** The states held by the nodes from the root down to node `i`. */
  function PathTo(t: Tree, i: nat): (r: seq<State>)
    requires Valid(t) && i < |t.nodes|
    ensures |r| == |Chain(t, i)|
    ensures forall k :: 0 <= k < |r| ==> r[k] == t.nodes[Chain(t, i)[k]].value
    decreases i
  {
    if i == 0 then [t.nodes[0].value]
    else PathTo(t, t.nodes[i].parent.value) + [t.nodes[i].value]
  }

  /** The path to node `i` has one state more than `i` has ancestors, starts
      with the root's state, ends with the state of `i`, and each state
      belongs to the parent of the node holding the next one (the states
      are those of the chain of nodes, by the contract of PathTo). */
  lemma PathShape(t: Tree, i: nat)
    requires Valid(t) && i < |t.nodes|
    ensures |PathTo(t, i)| == Depth(t, i) + 1
    ensures PathTo(t, i)[0] == t.nodes[0].value
    ensures PathTo(t, i)[|PathTo(t, i)| - 1] == t.nodes[i].value
    ensures forall k :: 0 <= k < |PathTo(t, i)| - 1 ==>
              t.nodes[Chain(t, i)[k + 1]].parent == Some(Chain(t, i)[k])
  {
    ChainShape(t, i);
  }

  /** Builds the path to `endNode` by walking parent links up to the root,
      inserting each state at the front. */
  method CreatePathFromTree(t: Tree, endNode: nat) returns (path: seq<State>)
    requires Valid(t) && endNode < |t.nodes|
    ensures path == PathTo(t, endNode)
  {
    path := [];
    var cur: Option<nat> := Some(endNode);
    while cur.Some?
      invariant cur.Some? ==> cur.value < |t.nodes| && PathTo(t, cur.value) + path == PathTo(t, endNode)
      invariant cur.None? ==> path == PathTo(t, endNode)
      decreases if cur.Some? then cur.value + 1 else 0
    {
      var c := cur.value;
      ghost var up := if c == 0 then [] else PathTo(t, t.nodes[c].parent.value);
      assert up + ([t.nodes[c].value] + path) == (up + [t.nodes[c].value]) + path;
      path := [t.nodes[c].value] + path;
      cur := t.nodes[c].parent;
    }
  }
}
