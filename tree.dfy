/** The planner's search tree, kept as an arena of nodes addressed by index.
    Node 0 is the root; every other node records the index of its parent and
    every node records its children in the order they were added. Nodes are
    only ever appended: nothing is removed, and an existing node changes only
    by gaining a child at the end of its child list. */
module Tree {

  import opened Wrappers
  import opened Agent

  datatype Node = Node(value: State, parent: Option<nat>, children: seq<nat>)

  datatype Tree = Tree(nodes: seq<Node>)

  /** The shape every tree the planner builds keeps: a root without parent,
      parents that were added before their children, and child lists that
      list exactly the nodes naming that parent. */
  predicate Valid(t: Tree)
  {
    |t.nodes| > 0 && t.nodes[0].parent == None &&
    ParentsBefore(t) && ChildrenLinked(t)
  }

  /** Every non-root node names an earlier node as parent, and is listed as
      one of its children. */
  predicate ParentsBefore(t: Tree)
  {
    forall i :: 0 < i < |t.nodes| ==>
      t.nodes[i].parent.Some? && t.nodes[i].parent.value < i &&
      i in t.nodes[t.nodes[i].parent.value].children
  }

  /** Every listed child is a later node that names this node as parent. */
  predicate ChildrenLinked(t: Tree)
  {
    Forward(t) &&
    forall i, k :: 0 <= i < |t.nodes| && 0 <= k < |t.nodes[i].children| ==>
      t.nodes[t.nodes[i].children[k]].parent == Some(i)
  }

  /** Every listed child is a later node of the tree. This is all a walk
      over the children needs to stay inside the tree and to terminate. */
  predicate Forward(t: Tree)
  {
    forall i, k :: 0 <= i < |t.nodes| && 0 <= k < |t.nodes[i].children| ==>
      i < t.nodes[i].children[k] < |t.nodes|
  }

  /** Children are listed in the order they were added. */
  predicate ChildrenOrdered(t: Tree)
  {
    forall i :: 0 <= i < |t.nodes| ==> Increasing(t.nodes[i].children)
  }

  predicate Increasing(s: seq<nat>)
  {
    forall k, l :: 0 <= k < l < |s| ==> s[k] < s[l]
  }

  /** The tree holding only the root. */
  function Singleton(x: State): (t: Tree)
    ensures Valid(t) && ChildrenOrdered(t)
    ensures |t.nodes| == 1 && t.nodes[0].value == x
  {
    Tree([Node(x, None, [])])
  }

  /** Appends a node holding `x` as the last child of node `p`. */
  function AddChild(t: Tree, p: nat, x: State): (r: Tree)
    requires Valid(t) && p < |t.nodes|
    ensures |r.nodes| == |t.nodes| + 1
    ensures r.nodes[|t.nodes|] == Node(x, Some(p), [])
    ensures r.nodes[p].value == t.nodes[p].value && r.nodes[p].parent == t.nodes[p].parent
    ensures r.nodes[p].children == t.nodes[p].children + [|t.nodes|]
    ensures forall i :: 0 <= i < |t.nodes| && i != p ==> r.nodes[i] == t.nodes[i]
  {
    var n := |t.nodes|;
    Tree(t.nodes[p := t.nodes[p].(children := t.nodes[p].children + [n])] + [Node(x, Some(p), [])])
  }

  /** Appending a child keeps the tree well formed. */
  lemma AddChildValid(t: Tree, p: nat, x: State)
    requires Valid(t) && p < |t.nodes|
    ensures Valid(AddChild(t, p, x))
  {
    AddChildParents(t, p, x);
    AddChildLinked(t, p, x);
  }

  lemma AddChildParents(t: Tree, p: nat, x: State)
    requires Valid(t) && p < |t.nodes|
    ensures ParentsBefore(AddChild(t, p, x))
  {
  }

  lemma AddChildLinked(t: Tree, p: nat, x: State)
    requires Valid(t) && p < |t.nodes|
    ensures ChildrenLinked(AddChild(t, p, x))
  {
  }

  /** Appending a child keeps every child list in insertion order. */
  lemma AddChildOrdered(t: Tree, p: nat, x: State)
    requires Valid(t) && ChildrenOrdered(t) && p < |t.nodes|
    ensures ChildrenOrdered(AddChild(t, p, x))
  {
    var r := AddChild(t, p, x);
    var n := |t.nodes|;
    forall i | 0 <= i < |r.nodes|
      ensures Increasing(r.nodes[i].children)
    {
      if i == p {
        var cs := t.nodes[p].children;
        forall k, l | 0 <= k < l < |cs + [n]|
          ensures (cs + [n])[k] < (cs + [n])[l]
        {
          if l == |cs| {
            assert cs[k] < n;
          }
        }
      }
    }
  }

  /** The old tree survives inside the new one: same nodes, same values, same
      parents, and each old child list is a prefix of the new one. */
  ghost predicate Extends(t: Tree, r: Tree)
  {
    |t.nodes| <= |r.nodes| &&
    forall i :: 0 <= i < |t.nodes| ==>
      r.nodes[i].value == t.nodes[i].value &&
      r.nodes[i].parent == t.nodes[i].parent &&
      t.nodes[i].children <= r.nodes[i].children
  }

  lemma AddChildExtends(t: Tree, p: nat, x: State)
    requires Valid(t) && p < |t.nodes|
    ensures Extends(t, AddChild(t, p, x))
    ensures AddChild(t, p, x).nodes[0].value == t.nodes[0].value
  {
  }

  // ---------------------------------------------------------------------
  // Pre-order walk: a node, then the walks of its children in order.

  /** The pre-order walk of the subtree rooted at node `i`. */
  function PreOrderFrom(t: Tree, i: nat): (r: seq<nat>)
    requires Forward(t) && i < |t.nodes|
    ensures |r| > 0 && r[0] == i
    ensures forall k :: 0 <= k < |r| ==> i <= r[k] < |t.nodes|
    decreases |t.nodes| - i, 1
  {
    [i] + PreOrderKids(t, i, |t.nodes[i].children|)
  }

  /** The walks of the first `k` children of node `i`, one after the other. */
  function PreOrderKids(t: Tree, i: nat, k: nat): (r: seq<nat>)
    requires Forward(t) && i < |t.nodes| && k <= |t.nodes[i].children|
    ensures forall m :: 0 <= m < |r| ==> i < r[m] < |t.nodes|
    decreases |t.nodes| - i, 0, k
  {
    if k == 0 then []
    else PreOrderKids(t, i, k - 1) + PreOrderFrom(t, t.nodes[i].children[k - 1])
  }

  /** The whole tree's pre-order walk, root first. */
  function PreOrder(t: Tree): (r: seq<nat>)
    requires Valid(t)
    ensures |r| > 0 && r[0] == 0
    ensures forall k :: 0 <= k < |r| ==> r[k] < |t.nodes|
  {
    PreOrderFrom(t, 0)
  }

  lemma {:induction false} KidsContainChild(t: Tree, i: nat, k: nat, m: nat)
    requires Forward(t) && i < |t.nodes| && k <= |t.nodes[i].children| && m < k
    ensures t.nodes[i].children[m] in PreOrderKids(t, i, k)
    decreases k
  {
    if m < k - 1 {
      KidsContainChild(t, i, k - 1, m);
    }
  }

  lemma {:induction false} FromClosed(t: Tree, i: nat, x: nat, c: nat)
    requires Forward(t) && i < |t.nodes| && x < |t.nodes|
    requires x in PreOrderFrom(t, i) && c in t.nodes[x].children
    ensures c in PreOrderFrom(t, i)
    decreases |t.nodes| - i, 1
  {
    var cs := t.nodes[i].children;
    if x == i {
      var m :| 0 <= m < |cs| && cs[m] == c;
      KidsContainChild(t, i, |cs|, m);
    } else {
      KidsClosed(t, i, |cs|, x, c);
    }
  }

  lemma {:induction false} KidsClosed(t: Tree, i: nat, k: nat, x: nat, c: nat)
    requires Forward(t) && i < |t.nodes| && k <= |t.nodes[i].children| && x < |t.nodes|
    requires x in PreOrderKids(t, i, k) && c in t.nodes[x].children
    ensures c in PreOrderKids(t, i, k)
    decreases |t.nodes| - i, 0, k
  {
    var last := t.nodes[i].children[k - 1];
    if x in PreOrderKids(t, i, k - 1) {
      KidsClosed(t, i, k - 1, x, c);
    } else {
      FromClosed(t, last, x, c);
    }
  }

  /** Every node of the tree is met by the pre-order walk. */
  lemma {:induction false} PreOrderCovers(t: Tree, j: nat)
    requires Valid(t) && j < |t.nodes|
    ensures j in PreOrder(t)
  {
    if j > 0 {
      var p := t.nodes[j].parent.value;
      PreOrderCovers(t, p);
      FromClosed(t, 0, p, j);
    }
  }

  // ---------------------------------------------------------------------
  // Parent walk: the chain of nodes from the root down to a node.

  /** The number of parent links between node `i` and the root. */
  function Depth(t: Tree, i: nat): nat
    requires Valid(t) && i < |t.nodes|
    decreases i
  {
    if i == 0 then 0 else Depth(t, t.nodes[i].parent.value) + 1
  }

  /** The indices of the nodes from the root to node `i`, both included. */
  function Chain(t: Tree, i: nat): (r: seq<nat>)
    requires Valid(t) && i < |t.nodes|
    ensures forall k :: 0 <= k < |r| ==> r[k] < |t.nodes|
    decreases i
  {
    if i == 0 then [0] else Chain(t, t.nodes[i].parent.value) + [i]
  }

  /** The chain starts at the root, ends at `i`, has one more entry than the
      depth of `i`, and each entry is the parent of the one after it. */
  lemma {:induction false} ChainShape(t: Tree, i: nat)
    requires Valid(t) && i < |t.nodes|
    ensures |Chain(t, i)| == Depth(t, i) + 1
    ensures Chain(t, i)[0] == 0 && Chain(t, i)[|Chain(t, i)| - 1] == i
    ensures forall k :: 0 <= k < |Chain(t, i)| - 1 ==>
              t.nodes[Chain(t, i)[k + 1]].parent == Some(Chain(t, i)[k])
    decreases i
  {
    if i > 0 {
      var p := t.nodes[i].parent.value;
      ChainShape(t, p);
      var c := Chain(t, p);
      assert Chain(t, i) == c + [i];
      forall k | 0 <= k < |c + [i]| - 1
        ensures t.nodes[(c + [i])[k + 1]].parent == Some((c + [i])[k])
      {
        if k < |c| - 1 {
          assert (c + [i])[k + 1] == c[k + 1] && (c + [i])[k] == c[k];
        } else {
          assert (c + [i])[k + 1] == i && (c + [i])[k] == p;
        }
      }
    }
  }
}
