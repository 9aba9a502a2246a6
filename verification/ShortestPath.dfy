/** `shortest_path` of the query library (archkit/query.py): breadth-first search with a parent map. */
module ShortestPath {
  import opened Options
  import opened ArchGraph
  import opened ArchSearch

  /** How a node was discovered: from which node, along which edge; the start has no parent. */
  type Parents = map<Node, Option<(Node, nat)>>

  ghost predicate ParentOk(view: View, a: Node, depth: map<Node, nat>, prev: Parents, v: Node)
    requires v in prev && v in depth
  {
    match prev[v]
    case None => v == a
    case Some((u, e)) => v != a && u in prev && u in depth && depth[v] == depth[u] + 1 && view.Step(u, e, v)
  }

  ghost predicate Tree(view: View, a: Node, depth: map<Node, nat>, prev: Parents) {
    depth.Keys == prev.Keys &&
      forall v {:trigger ParentOk(view, a, depth, prev, v)} :: v in prev ==> ParentOk(view, a, depth, prev, v)
  }

  ghost predicate QueueOk(depth: map<Node, nat>, q: seq<(Node, nat)>, nodes: seq<Node>) {
    |q| == |nodes| && forall i :: 0 <= i < |q| ==> nodes[i] in depth && q[i] == (nodes[i], depth[nodes[i]])
  }

  lemma {:induction false} TreeGrows(view: View, a: Node, depth: map<Node, nat>, prev: Parents, u: Node, h: Hop)
    requires Tree(view, a, depth, prev) && u in prev && h.node !in prev && a in prev && view.Step(u, h.edge, h.node)
    ensures Tree(view, a, depth[h.node := depth[u] + 1], prev[h.node := Some((u, h.edge))])
  {
    var d, p := depth[h.node := depth[u] + 1], prev[h.node := Some((u, h.edge))];
    forall v | v in p ensures ParentOk(view, a, d, p, v) {
      if v != h.node { assert ParentOk(view, a, depth, prev, v); }
    }
  }

  /** The walk that `nodes` and `edges` spell out. */
  function Zip(nodes: seq<Node>, edges: seq<nat>): seq<Hop>
    requires |nodes| == |edges| + 1
  {
    seq(|edges|, k requires 0 <= k < |edges| => Hop(edges[k], nodes[k + 1]))
  }

  /** A path of allowed edges from `a` to `b`, node by node and edge by edge. */
  predicate IsPath(view: View, a: Node, b: Node, nodes: seq<Node>, edges: seq<nat>) {
    |nodes| == |edges| + 1 && nodes[0] == a && nodes[|edges|] == b &&
    IsWalk(view, a, Zip(nodes, edges)) && End(a, Zip(nodes, edges)) == b
  }

  /** Everything the outer loop knows at its head; `all` bounds the nodes there are. */
  ghost predicate Searching(view: View, a: Node, max: nat, all: set<Node>, prev: Parents, q: seq<(Node, nat)>,
                            depth: map<Node, nat>, nodes: seq<Node>) {
    Layered(view, a, max, depth, nodes) && Tree(view, a, depth, prev) && QueueOk(depth, q, nodes) && prev.Keys <= all
  }

  /** Visits the neighbours `hops` of `u`, which just left the queue at depth `d`. */
  method Expand(ghost view: View, ghost a: Node, ghost max: nat, ghost all: set<Node>, u: Node, d: nat, hops: seq<Hop>,
                prev0: Parents, q0: seq<(Node, nat)>, ghost depth0: map<Node, nat>, ghost nodes0: seq<Node>)
    returns (prev: Parents, q: seq<(Node, nat)>, ghost depth: map<Node, nat>, ghost nodes: seq<Node>)
    requires u in depth0 && d == depth0[u]
    requires Expanding(view, a, max, depth0, nodes0, u, hops) && Tree(view, a, depth0, prev0) &&
             QueueOk(depth0, q0, nodes0)
    requires prev0.Keys <= all && forall k :: 0 <= k < |hops| ==> hops[k].node in all
    ensures Searching(view, a, max, all, prev, q, depth, nodes)
    ensures prev0.Keys <= prev.Keys && (prev.Keys == prev0.Keys ==> q == q0)
    ensures forall v :: v in depth && v !in nodes ==> v in depth0 && v !in nodes0
  {
    prev, q, depth, nodes := prev0, q0, depth0, nodes0;
    for k := 0 to |hops|
      invariant Expanding(view, a, max, depth, nodes, u, hops[k..]) && Tree(view, a, depth, prev) &&
                QueueOk(depth, q, nodes)
      invariant prev.Keys <= all && u in prev && d == depth[u]
      invariant prev0.Keys <= prev.Keys && (prev.Keys == prev0.Keys ==> q == q0)
      invariant forall v :: v in depth && v !in nodes ==> v in depth0 && v !in nodes0
    {
      assert hops[k..][0] == hops[k] && hops[k..][1..] == hops[k + 1..];
      var h := hops[k];
      if h.node !in prev {
        Discover(view, a, max, depth, nodes, u, hops[k..]);
        TreeGrows(view, a, depth, prev, u, h);
        prev := prev[h.node := Some((u, h.edge))];
        q := q + [(h.node, d + 1)];
        depth, nodes := depth[h.node := depth[u] + 1], nodes + [h.node];
      } else {
        Skip(view, a, max, depth, nodes, u, hops[k..]);
      }
    }
    assert hops[|hops|..] == [];
    Done(view, a, max, depth, nodes, u);
  }

  /** Takes the head of the queue and, below the bound, visits its neighbours. */
  method Visit(ix: GraphIndex, view: View, ghost a: Node, max: nat, ghost all: set<Node>,
               prev0: Parents, q0: seq<(Node, nat)>, ghost depth0: map<Node, nat>, ghost nodes0: seq<Node>)
    returns (prev: Parents, q: seq<(Node, nat)>, ghost depth: map<Node, nat>, ghost nodes: seq<Node>)
    requires ix.Valid() && view.g == ix.g && view.Universe() <= all
    requires Searching(view, a, max, all, prev0, q0, depth0, nodes0) && q0 != []
    ensures Searching(view, a, max, all, prev, q, depth, nodes)
    ensures prev0.Keys <= prev.Keys && (prev.Keys == prev0.Keys ==> |q| < |q0|)
    ensures forall v :: v in depth && v !in nodes ==> v == q0[0].0 || (v in depth0 && v !in nodes0)
  {
    var (u, d) := q0[0];
    Pop(view, a, max, depth0, nodes0);
    assert nodes0 == [u] + nodes0[1..];
    var hops: seq<Hop> := [];
    if d < max {
      hops := ix.Neighbors(u, view);
      HopsStayInside(view, u, all);
    }
    prev, q, depth, nodes := Expand(view, a, max, all, u, d, hops, prev0, q0[1..], depth0, nodes0[1..]);
  }

  method Bfs(ix: GraphIndex, view: View, a: Node, b: Node, maxHops: nat) returns (r: Option<(seq<Node>, seq<nat>)>)
    requires ix.Valid() && view.g == ix.g
    ensures r.Some? ==> IsPath(view, a, b, r.value.0, r.value.1) && |r.value.1| <= maxHops
    ensures r.Some? ==> forall k: nat :: Reach(view, a, b, k) ==> |r.value.1| <= k
    ensures r.None? ==> forall k: nat :: k <= maxHops ==> !Reach(view, a, b, k)
  {
    ghost var all := view.Universe() + {a};
    ghost var depth: map<Node, nat>, nodes := map[a := 0], [a];
    var prev: Parents := map[a := None];
    var q: seq<(Node, nat)> := [(a, 0)];
    LayeredStart(view, a, maxHops);
    while q != [] && q[0].0 != b
      invariant Searching(view, a, maxHops, all, prev, q, depth, nodes)
      invariant b in depth ==> b in nodes
      decreases all - prev.Keys, |q|
    {
      prev, q, depth, nodes := Visit(ix, view, a, maxHops, all, prev, q, depth, nodes);
    }
    Settled(view, a, b, maxHops, depth, nodes);
    if b !in prev { return None; }
    var path, edges := Rebuild(view, a, b, depth, prev);
    return Some((path, edges));
  }

  /** The search stopped with `b` at the head of the queue, or with nothing left to visit. */
  lemma {:induction false} Settled(view: View, a: Node, b: Node, max: nat, depth: map<Node, nat>, nodes: seq<Node>)
    requires Layered(view, a, max, depth, nodes)
    requires if nodes == [] then b !in depth else nodes[0] == b
    ensures b in depth ==> depth[b] <= max && forall k: nat :: Reach(view, a, b, k) ==> depth[b] <= k
    ensures b !in depth ==> forall k: nat :: k <= max ==> !Reach(view, a, b, k)
  {
    if nodes == [] {
      Exhausted(view, a, max, depth, b);
    } else {
      assert RealDepth(view, a, max, depth, b);
      forall k: nat | Reach(view, a, b, k) ensures depth[b] <= k { HeadIsNearest(view, a, max, depth, nodes, k); }
    }
  }

  function Reverse<T>(s: seq<T>): seq<T> { if s == [] then [] else Reverse(s[1..]) + [s[0]] }

  lemma {:induction false} ReverseSnoc<T>(s: seq<T>, x: T)
    ensures Reverse(s + [x]) == [x] + Reverse(s)
    decreases |s|
  {
    if s == [] {
      assert [] + [x] == [x];
    } else {
      assert (s + [x])[1..] == s[1..] + [x];
      ReverseSnoc(s[1..], x);
    }
  }

  lemma {:induction false} ReverseOne<T>(x: T)
    ensures Reverse([x]) == [x]
  {
    assert [x][1..] == [];
  }

  /** Follows the parents from `b` back to the start, then turns both lists around. */
  method Rebuild(view: View, a: Node, b: Node, ghost depth: map<Node, nat>, prev: Parents)
    returns (path: seq<Node>, edges: seq<nat>)
    requires Tree(view, a, depth, prev) && b in prev && a in prev && depth[a] == 0
    ensures IsPath(view, a, b, path, edges) && |edges| == depth[b]
  {
    path, edges := [b], [];
    var cur := b;
    assert Zip([b], []) == [];
    ReverseOne(b);
    assert Reverse<nat>([]) == [];
    assert ParentOk(view, a, depth, prev, b);
    while prev[cur].Some?
      invariant cur in prev && ParentOk(view, a, depth, prev, cur)
      invariant |path| == |edges| + 1 && |edges| == depth[b] - depth[cur]
      invariant IsPath(view, cur, b, Reverse(path), Reverse(edges))
      decreases depth[cur]
    {
      var (u, e) := prev[cur].value;
      ReverseSnoc(path, u);
      ReverseSnoc(edges, e);
      PathCons(view, u, e, cur, b, Reverse(path), Reverse(edges));
      path, edges := path + [u], edges + [e];
      cur := u;
      assert ParentOk(view, a, depth, prev, u);
    }
    ReverseLength(edges);
    path, edges := Reverse(path), Reverse(edges);
  }

  lemma {:induction false} ReverseLength<T>(s: seq<T>)
    ensures |Reverse(s)| == |s|
    decreases |s|
  {
    if s != [] { ReverseLength(s[1..]); }
  }

  lemma {:induction false} PathCons(view: View, u: Node, e: nat, v: Node, b: Node, nodes: seq<Node>, edges: seq<nat>)
    requires IsPath(view, v, b, nodes, edges) && view.Step(u, e, v)
    ensures IsPath(view, u, b, [u] + nodes, [e] + edges)
  {
    var w, x := Zip(nodes, edges), Zip([u] + nodes, [e] + edges);
    assert x == [Hop(e, v)] + w;
    forall k | 0 <= k < |x| ensures Legal(view, u, x, k) {
      if k > 0 { assert Legal(view, v, w, k - 1); }
    }
  }

  // ---- the capability ---------------------------------------------------------------------------------

  datatype Answer = UnknownNode | NotFound | Found(path: seq<Node>, edges: seq<nat>)

  /** `max(1, min(int(max_hops or 12), 30))`. */
  function ClampHops(maxHops: int): nat {
    var h := if maxHops == 0 then 12 else maxHops;
    if h > 30 then 30 else if h < 1 then 1 else h
  }

  /** The bound on hops is between one and thirty, twelve by default, and the one asked for when it can be. */
  lemma {:induction false} HopsAreClamped(maxHops: int)
    ensures 1 <= ClampHops(maxHops) <= 30 && ClampHops(0) == 12 &&
            (1 <= maxHops <= 30 ==> ClampHops(maxHops) == maxHops)
    ensures maxHops > 30 ==> ClampHops(maxHops) == 30
    ensures maxHops < 0 ==> ClampHops(maxHops) == 1
  {
  }

  /** A shortest chain of allowed edges, or the news that none of at most that many hops exists. */
  method FindShortestPath(ix: GraphIndex, a: Node, b: Node, types: Option<seq<string>>, maxHops: int, undirected: bool)
    returns (r: Answer)
    requires ix.Valid()
    ensures r.UnknownNode? <==> a !in ix.g.kinds || b !in ix.g.kinds
    ensures var view := View(ix.g, if undirected then Both else Out, types, None);
            (r.Found? ==> IsPath(view, a, b, r.path, r.edges) && |r.edges| <= ClampHops(maxHops) &&
                          forall k: nat :: Reach(view, a, b, k) ==> |r.edges| <= k) &&
            (r.NotFound? ==> forall k: nat :: Reach(view, a, b, k) ==> k > ClampHops(maxHops))
  {
    if a !in ix.g.kinds || b !in ix.g.kinds { return UnknownNode; }
    var view := View(ix.g, if undirected then Both else Out, types, None);
    var p := Bfs(ix, view, a, b, ClampHops(maxHops));
    r := if p.None? then NotFound else Found(p.value.0, p.value.1);
  }
}
