/** Nearest-neighbour search: a full pre-order walk of the tree keeping the
    node with the smallest closeness measure to the sample. The comparison is
    strict, so among equally close nodes the one met first by the walk (the
    root before everything else) is kept. */
module NearestNeighbor {
  import opened Wrappers
  import opened Agent
  import opened Tree

  /** The closeness measure from the sample to the state held by node `i`
      (an index outside the tree, which the search never meets, measures 0). */
  function Dist(t: Tree, actor: Actor, target: State, i: nat): real
  {
    if i < |t.nodes| then actor.closenessMeasure(target, t.nodes[i].value) else 0.0
  }

  /** The node the search keeps after meeting the nodes `met` in order: the
      first one, replaced only by a node that is strictly closer. */
  function Best(t: Tree, actor: Actor, target: State, met: seq<nat>): nat
    requires |met| > 0
  {
    if |met| == 1 then met[0]
    else
      var b := Best(t, actor, target, met[..|met| - 1]);
      var c := met[|met| - 1];
      if Dist(t, actor, target, c) < Dist(t, actor, target, b) then c else b
  }

  /** The kept node is one of those met, and no node met is closer. */
  lemma {:induction false} BestIsMinimum(t: Tree, actor: Actor, target: State, met: seq<nat>)
    requires |met| > 0
    ensures Best(t, actor, target, met) in met
    ensures forall q :: 0 <= q < |met| ==>
              Dist(t, actor, target, Best(t, actor, target, met)) <= Dist(t, actor, target, met[q])
  {
    if |met| > 1 {
      var front := met[..|met| - 1];
      BestIsMinimum(t, actor, target, front);
      assert forall q :: 0 <= q < |front| ==> met[q] == front[q];
    }
  }

  /** A node met before the kept node first appears is strictly farther: on
      a tie the earlier node is kept. */
  lemma {:induction false} BestIsFirst(t: Tree, actor: Actor, target: State, met: seq<nat>, q: nat)
    requires 0 <= q < |met|
    requires Best(t, actor, target, met) !in met[..q + 1]
    ensures Dist(t, actor, target, met[q]) > Dist(t, actor, target, Best(t, actor, target, met))
    decreases |met|
  {
    var front := met[..|met| - 1];
    if q == |met| - 1 {
      BestIsMinimum(t, actor, target, met);
      assert false;
    } else {
      assert met[q] == front[q];
      assert met[..q + 1] == front[..q + 1];
      var b := Best(t, actor, target, front);
      if Best(t, actor, target, met) == b {
        BestIsFirst(t, actor, target, front, q);
      } else {
        BestIsMinimum(t, actor, target, front);
      }
    }
  }

  /** The nearest neighbour of `target`: the node the search keeps after the
      whole pre-order walk. */
  function Nearest(t: Tree, actor: Actor, target: State): nat
    requires Valid(t)
  {
    Best(t, actor, target, PreOrder(t))
  }

  /** The nearest neighbour is a node of the tree at least as close as every
      node of the tree. */
  lemma NearestIsMinimum(t: Tree, actor: Actor, target: State)
    requires Valid(t)
    ensures Nearest(t, actor, target) < |t.nodes|
    ensures forall i :: 0 <= i < |t.nodes| ==>
              Dist(t, actor, target, Nearest(t, actor, target)) <= Dist(t, actor, target, i)
  {
    var order := PreOrder(t);
    BestIsMinimum(t, actor, target, order);
    forall i | 0 <= i < |t.nodes|
      ensures Dist(t, actor, target, Nearest(t, actor, target)) <= Dist(t, actor, target, i)
    {
      PreOrderCovers(t, i);
    }
  }

  /** Every node the walk meets before the nearest neighbour is strictly
      farther, so the root wins whenever it is among the closest. */
  lemma NearestIsFirst(t: Tree, actor: Actor, target: State)
    requires Valid(t)
    ensures forall q :: 0 <= q < |PreOrder(t)| && Nearest(t, actor, target) !in PreOrder(t)[..q + 1] ==>
              Dist(t, actor, target, PreOrder(t)[q]) > Dist(t, actor, target, Nearest(t, actor, target))
    ensures Dist(t, actor, target, 0) == Dist(t, actor, target, Nearest(t, actor, target)) ==>
              Nearest(t, actor, target) == 0
  {
    var order := PreOrder(t);
    forall q | 0 <= q < |order| && Nearest(t, actor, target) !in order[..q + 1]
      ensures Dist(t, actor, target, order[q]) > Dist(t, actor, target, Nearest(t, actor, target))
    {
      BestIsFirst(t, actor, target, order, q);
    }
    assert order[..1] == [0];
  }

  // ---------------------------------------------------------------------
  // The search as the source runs it: a recursive scan over the children
  // of each node, carrying the running minimum.

  /** The running minimum after meeting node `c`. */
  function Visit(t: Tree, actor: Actor, target: State, c: nat, minDist: real, nearest: nat): (real, nat)
  {
    var d := Dist(t, actor, target, c);
    if d < minDist then (d, c) else (minDist, nearest)
  }

  /** The running minimum after meeting the nodes `met` in order. */
  function Sweep(t: Tree, actor: Actor, target: State, met: seq<nat>,
                 minDist: real, nearest: nat): (real, nat)
    decreases |met|
  {
    if |met| == 0 then (minDist, nearest)
    else
      var acc := Visit(t, actor, target, met[0], minDist, nearest);
      Sweep(t, actor, target, met[1..], acc.0, acc.1)
  }

  /** Meeting `a` and then `b` is meeting `a + b`. */
  lemma {:induction false} SweepAppend(t: Tree, actor: Actor, target: State,
                                       a: seq<nat>, b: seq<nat>, minDist: real, nearest: nat)
    ensures var acc := Sweep(t, actor, target, a, minDist, nearest);
            Sweep(t, actor, target, a + b, minDist, nearest) == Sweep(t, actor, target, b, acc.0, acc.1)
    decreases |a|
  {
    if |a| == 0 {
      assert a + b == b;
    } else {
      var acc := Visit(t, actor, target, a[0], minDist, nearest);
      assert (a + b)[1..] == a[1..] + b;
      SweepAppend(t, actor, target, a[1..], b, acc.0, acc.1);
    }
  }

  /** Starting from node `x` and meeting `rest` keeps the node Best keeps for
      `[x] + rest`, together with its closeness measure. */
  lemma {:induction false} SweepIsBest(t: Tree, actor: Actor, target: State, x: nat, rest: seq<nat>)
    ensures Sweep(t, actor, target, rest, Dist(t, actor, target, x), x) ==
            (Dist(t, actor, target, Best(t, actor, target, [x] + rest)), Best(t, actor, target, [x] + rest))
    decreases |rest|
  {
    if |rest| > 0 {
      var front := rest[..|rest| - 1];
      var y := rest[|rest| - 1];
      SweepIsBest(t, actor, target, x, front);
      assert ([x] + rest)[..|[x] + rest| - 1] == [x] + front;
      assert rest == front + [y];
      SweepAppend(t, actor, target, front, [y], Dist(t, actor, target, x), x);
      assert [y][1..] == [];
    }
  }

  /** Scanning one more child of `node` meets that child and then the walks
      of its own children. */
  lemma KidsSweepStep(t: Tree, actor: Actor, target: State, node: nat, k: nat,
                      minDist: real, nearest: nat)
    requires Forward(t) && node < |t.nodes| && k < |t.nodes[node].children|
    ensures var c := t.nodes[node].children[k];
            var acc := Sweep(t, actor, target, PreOrderKids(t, node, k), minDist, nearest);
            var v := Visit(t, actor, target, c, acc.0, acc.1);
            Sweep(t, actor, target, PreOrderKids(t, node, k + 1), minDist, nearest) ==
            Sweep(t, actor, target, PreOrderKids(t, c, |t.nodes[c].children|), v.0, v.1)
  {
    var c := t.nodes[node].children[k];
    var before := PreOrderKids(t, node, k);
    var below := PreOrderKids(t, c, |t.nodes[c].children|);
    var acc := Sweep(t, actor, target, before, minDist, nearest);
    assert PreOrderKids(t, node, k + 1) == before + ([c] + below);
    SweepAppend(t, actor, target, before, [c] + below, minDist, nearest);
    assert ([c] + below)[1..] == below;
  }

  /** Scans the children of `node` and their subtrees in order, updating the
      running minimum (`minDist`, `nearest`): the result is the running
      minimum after meeting the walks of all children of `node`. */
  method ScanSubtree(t: Tree, actor: Actor, target: State, node: nat,
                     minDist: real, nearest: nat)
    returns (minDist': real, nearest': nat)
    requires Forward(t) && node < |t.nodes|
    ensures (minDist', nearest') ==
            Sweep(t, actor, target, PreOrderKids(t, node, |t.nodes[node].children|), minDist, nearest)
    decreases |t.nodes| - node
  {
    minDist', nearest' := minDist, nearest;
    var children := t.nodes[node].children;
    for k := 0 to |children|
      invariant (minDist', nearest') == Sweep(t, actor, target, PreOrderKids(t, node, k), minDist, nearest)
    {
      var child := children[k];
      KidsSweepStep(t, actor, target, node, k, minDist, nearest);
      var newDist := actor.closenessMeasure(target, t.nodes[child].value);
      if newDist < minDist' {
        minDist' := newDist;
        nearest' := child;
      }
      minDist', nearest' := ScanSubtree(t, actor, target, child, minDist', nearest');
    }
  }

  /** Finds the nearest neighbour of `target`, starting from the root. */
  method GetNearestNeighbor(target: State, t: Tree, actor: Actor) returns (nearest: nat)
    requires Valid(t)
    ensures nearest == Nearest(t, actor, target) && nearest < |t.nodes|
  {
    nearest := 0;
    var minDist := actor.closenessMeasure(target, t.nodes[0].value);
    minDist, nearest := ScanSubtree(t, actor, target, 0, minDist, nearest);
    SweepIsBest(t, actor, target, 0, PreOrderKids(t, 0, |t.nodes[0].children|));
    NearestIsMinimum(t, actor, target);
  }
}
