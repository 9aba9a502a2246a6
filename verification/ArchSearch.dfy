/**
 Breadth-first search over a view of the architecture graph (archkit/query.py): what a search that keeps
 a depth per discovered node and a first-in-first-out queue knows, one neighbour at a time.
 Both bounded searches of the query library are instances of it.
 */
module ArchSearch {
  import opened ArchGraph

  // ---- walks ------------------------------------------------------------------------------

  /** The node a walk from `a` is at after `k` hops. */
  function At(a: Node, w: seq<Hop>, k: nat): Node
    requires k <= |w|
  {
    if k == 0 then a else w[k - 1].node
  }

  function End(a: Node, w: seq<Hop>): Node { At(a, w, |w|) }

  /** Hop `k` is a step of the view. */
  predicate Legal(view: View, a: Node, w: seq<Hop>, k: nat)
    requires k < |w|
  {
    view.Step(At(a, w, k), w[k].edge, w[k].node)
  }

  predicate IsWalk(view: View, a: Node, w: seq<Hop>) {
    forall k {:trigger Legal(view, a, w, k)} :: 0 <= k < |w| ==> Legal(view, a, w, k)
  }

  /** Some walk of exactly `k` hops leads from `a` to `v`. */
  ghost predicate Reach(view: View, a: Node, v: Node, k: nat) {
    exists w: seq<Hop> :: |w| == k && IsWalk(view, a, w) && End(a, w) == v
  }

  lemma {:induction false} ReachExtends(view: View, a: Node, u: Node, k: nat, i: nat, v: Node)
    requires Reach(view, a, u, k) && view.Step(u, i, v)
    ensures Reach(view, a, v, k + 1)
  {
    var w: seq<Hop> :| |w| == k && IsWalk(view, a, w) && End(a, w) == u;
    var x := w + [Hop(i, v)];
    forall j | 0 <= j < |x| ensures Legal(view, a, x, j) {
      if j < k { assert Legal(view, a, w, j); }
    }
    assert End(a, x) == v;
  }

  lemma {:induction false} ReachNothing(view: View, a: Node)
    ensures Reach(view, a, a, 0)
    ensures forall v :: Reach(view, a, v, 0) ==> v == a
  {
    assert IsWalk(view, a, []) && End(a, []) == a;
  }

  /** The last hop of a walk. */
  lemma {:induction false} ReachBack(view: View, a: Node, v: Node, k: nat) returns (u: Node, i: nat)
    requires k > 0 && Reach(view, a, v, k)
    ensures Reach(view, a, u, k - 1) && view.Step(u, i, v)
  {
    var w: seq<Hop> :| |w| == k && IsWalk(view, a, w) && End(a, w) == v;
    u, i := At(a, w, k - 1), w[k - 1].edge;
    var x := w[..k - 1];
    assert Legal(view, a, w, k - 1);
    forall j | 0 <= j < |x| ensures Legal(view, a, x, j) { assert Legal(view, a, w, j); }
    assert End(a, x) == u;
  }

  // ---- the search between two visits --------------------------------------------------------

  /** The depths found so far are real, bounded by `max`, and the queue is sorted by them. */
  ghost predicate Sound(view: View, a: Node, max: nat, depth: map<Node, nat>, q: seq<Node>) {
    && a in depth && depth[a] == 0
    && (forall v {:trigger RealDepth(view, a, max, depth, v)} :: v in depth ==> RealDepth(view, a, max, depth, v))
    && (forall i :: 0 <= i < |q| ==> q[i] in depth)
    && (forall i, j {:trigger NoDeeper(depth, q, i, j)} :: 0 <= i <= j < |q| ==> NoDeeper(depth, q, i, j))
  }

  ghost predicate RealDepth(view: View, a: Node, max: nat, depth: map<Node, nat>, v: Node)
    requires v in depth
  {
    depth[v] <= max && Reach(view, a, v, depth[v])
  }

  /** The queue's `i`-th node is no deeper than its `j`-th. */
  predicate NoDeeper(depth: map<Node, nat>, q: seq<Node>, i: nat, j: nat)
    requires i < |q| && j < |q| && q[i] in depth && q[j] in depth
  {
    depth[q[i]] <= depth[q[j]]
  }

  /** `u` was expanded: each of its neighbours is known, one step further away at most. */
  ghost predicate Expanded(view: View, depth: map<Node, nat>, u: Node)
    requires u in depth
  {
    forall i, v {:trigger view.Step(u, i, v)} :: view.Step(u, i, v) ==> v in depth && depth[v] <= depth[u] + 1
  }

  /** At the head of the outer loop: whatever left the queue below the bound was expanded. */
  ghost predicate Layered(view: View, a: Node, max: nat, depth: map<Node, nat>, q: seq<Node>) {
    && Sound(view, a, max, depth, q)
    && (forall u {:trigger Expanded(view, depth, u)} :: u in depth && u !in q && depth[u] < max ==>
         Expanded(view, depth, u))
    && (q != [] ==> forall v :: v in depth ==> depth[v] <= depth[q[0]] + 1)
  }

  /** While `u` is being expanded: `hops` is what is left of its neighbour list. */
  ghost predicate Expanding(view: View, a: Node, max: nat, depth: map<Node, nat>, q: seq<Node>, u: Node, hops: seq<Hop>)
  {
    && Sound(view, a, max, depth, q)
    && u in depth
    && (forall w {:trigger Expanded(view, depth, w)} :: w in depth && w !in q && w != u && depth[w] < max ==>
         Expanded(view, depth, w))
    && (forall i :: 0 <= i < |q| ==> depth[u] <= depth[q[i]])
    && (forall v :: v in depth ==> depth[v] <= depth[u] + 1)
    && (forall k :: 0 <= k < |hops| ==> view.Step(u, hops[k].edge, hops[k].node))
    && (if depth[u] < max
        then forall i, v {:trigger view.Step(u, i, v)} :: view.Step(u, i, v) ==>
          (v in depth && depth[v] <= depth[u] + 1) || Hop(i, v) in hops
        else hops == [])
  }

  lemma {:induction false} LayeredStart(view: View, a: Node, max: nat)
    ensures Layered(view, a, max, map[a := 0], [a])
  {
    ReachNothing(view, a);
  }

  /** The heart of breadth-first search: nodes within reach of the queue's head depth are already known,
      at a depth no larger than any walk that leads to them. */
  lemma {:induction false} KnownWithin(view: View, a: Node, max: nat, depth: map<Node, nat>, q: seq<Node>, v: Node,
                                       k: nat)
    requires Layered(view, a, max, depth, q)
    requires Reach(view, a, v, k) && k <= max && (q != [] ==> k <= depth[q[0]])
    ensures v in depth && depth[v] <= k
    decreases k
  {
    if k == 0 {
      ReachNothing(view, a);
    } else {
      var u, i := ReachBack(view, a, v, k);
      KnownWithin(view, a, max, depth, q, u, k - 1);
      forall j | 0 <= j < |q| ensures q[j] != u { assert NoDeeper(depth, q, 0, j); }
      assert Expanded(view, depth, u);
    }
  }

  /** The node at the head of the queue is at its true distance. */
  lemma {:induction false} HeadIsNearest(view: View, a: Node, max: nat, depth: map<Node, nat>, q: seq<Node>, k: nat)
    requires Layered(view, a, max, depth, q) && q != [] && Reach(view, a, q[0], k)
    ensures depth[q[0]] <= k
  {
    assert RealDepth(view, a, max, depth, q[0]);
    if k < depth[q[0]] { KnownWithin(view, a, max, depth, q, q[0], k); }
  }

  lemma {:induction false} Pop(view: View, a: Node, max: nat, depth: map<Node, nat>, q: seq<Node>)
    requires Layered(view, a, max, depth, q) && q != []
    ensures Expanding(view, a, max, depth, q[1..], q[0], if depth[q[0]] >= max then [] else view.Next(q[0]))
  {
    var u := q[0];
    var hops := if depth[u] >= max then [] else view.Next(u);
    assert q == [u] + q[1..];
    assert Sound(view, a, max, depth, q[1..]) by {
      forall i, j | 0 <= i <= j < |q[1..]| ensures NoDeeper(depth, q[1..], i, j) {
        assert NoDeeper(depth, q, i + 1, j + 1);
      }
    }
    forall i | 0 <= i < |q[1..]| ensures depth[u] <= depth[q[1..][i]] { assert NoDeeper(depth, q, 0, i + 1); }
    forall k | 0 <= k < |hops| ensures view.Step(u, hops[k].edge, hops[k].node) {
      assert Hop(hops[k].edge, hops[k].node) in view.Next(u);
      NextIsStep(view, u, hops[k].edge, hops[k].node);
    }
    if depth[u] < max {
      forall i, v | view.Step(u, i, v) ensures Hop(i, v) in hops { NextIsStep(view, u, i, v); }
    }
  }

  /** The next neighbour is known already. */
  lemma {:induction false} Skip(view: View, a: Node, max: nat, depth: map<Node, nat>, q: seq<Node>, u: Node,
                                hops: seq<Hop>)
    requires Expanding(view, a, max, depth, q, u, hops) && hops != [] && hops[0].node in depth
    ensures Expanding(view, a, max, depth, q, u, hops[1..])
  {
    assert hops == [hops[0]] + hops[1..];
  }

  lemma {:induction false} StillSound(view: View, a: Node, max: nat, depth: map<Node, nat>, q: seq<Node>, v: Node,
                                      k: nat)
    requires Sound(view, a, max, depth, q) && v !in depth && k <= max && Reach(view, a, v, k)
    requires forall i :: 0 <= i < |q| ==> depth[q[i]] <= k
    ensures Sound(view, a, max, depth[v := k], q + [v])
  {
    var d, p := depth[v := k], q + [v];
    forall w | w in d ensures RealDepth(view, a, max, d, w) { if w != v { assert RealDepth(view, a, max, depth, w); } }
    forall i, j | 0 <= i <= j < |p| ensures NoDeeper(d, p, i, j) { if j < |q| { assert NoDeeper(depth, q, i, j); } }
  }

  /** The next neighbour is new: it gets its depth and joins the queue. */
  lemma {:induction false} Discover(view: View, a: Node, max: nat, depth: map<Node, nat>, q: seq<Node>, u: Node,
                                    hops: seq<Hop>)
    requires Expanding(view, a, max, depth, q, u, hops) && hops != [] && hops[0].node !in depth
    ensures Expanding(view, a, max, depth[hops[0].node := depth[u] + 1], q + [hops[0].node], u, hops[1..])
  {
    var v := hops[0].node;
    assert hops == [hops[0]] + hops[1..];
    assert view.Step(u, hops[0].edge, v) && RealDepth(view, a, max, depth, u);
    ReachExtends(view, a, u, depth[u], hops[0].edge, v);
    var d, p := depth[v := depth[u] + 1], q + [v];
    StillSound(view, a, max, depth, q, v, depth[u] + 1);
    forall w | w in d && w !in p && w != u && d[w] < max ensures Expanded(view, d, w) {
      assert w in depth && w !in q && Expanded(view, depth, w);
    }
  }

  lemma {:induction false} Done(view: View, a: Node, max: nat, depth: map<Node, nat>, q: seq<Node>, u: Node)
    requires Expanding(view, a, max, depth, q, u, [])
    ensures Layered(view, a, max, depth, q)
  {
    forall w | w in depth && w !in q && depth[w] < max ensures Expanded(view, depth, w) {}
  }

  /** When the queue runs dry, the depths are exactly the distances of everything within the bound. */
  lemma {:induction false} Exhausted(view: View, a: Node, max: nat, depth: map<Node, nat>, v: Node)
    requires Layered(view, a, max, depth, [])
    ensures v in depth <==> exists k: nat :: k <= max && Reach(view, a, v, k)
    ensures v in depth ==> Reach(view, a, v, depth[v]) && forall k: nat :: Reach(view, a, v, k) ==> depth[v] <= k
  {
    if v in depth {
      assert RealDepth(view, a, max, depth, v);
      forall k: nat | Reach(view, a, v, k) ensures depth[v] <= k {
        if k <= max { KnownWithin(view, a, max, depth, [], v, k); }
      }
    }
    if k: nat :| k <= max && Reach(view, a, v, k) { KnownWithin(view, a, max, depth, [], v, k); }
  }
}
