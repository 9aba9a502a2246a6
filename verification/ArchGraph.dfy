/**
 The architecture graph and its adjacency index (archkit/index.py), and what it means for one node
 to be a neighbour of another under a direction, an edge-type filter and a node-kind filter.
 An edge is named by its position in the snapshot, so parallel edges stay apart.
 */
module ArchGraph {
  import opened Options

  type Node = string

  datatype Edge = Edge(from: Node, to: Node, kind: string)

  datatype Graph = Graph(kinds: map<Node, string>, edges: seq<Edge>)

  datatype Direction = Out | In | Both

  /** One step along edge `edge` to `node`. */
  datatype Hop = Hop(edge: nat, node: Node)

  /** A query's view of the graph; an absent or empty filter admits everything. */
  datatype View = View(g: Graph, dir: Direction, types: Option<seq<string>>, kinds: Option<seq<string>>) {

    predicate AdmitsType(e: Edge) { types.None? || types.value == [] || e.kind in types.value }

    predicate AdmitsNode(v: Node) { kinds.None? || kinds.value == [] || (v in g.kinds && g.kinds[v] in kinds.value) }

    /** Edge `i` leads from `u` to `v` in this view. */
    predicate Step(u: Node, i: nat, v: Node) {
      i < |g.edges| && AdmitsType(g.edges[i]) && AdmitsNode(v) &&
      ((dir != In && g.edges[i].from == u && g.edges[i].to == v) ||
       (dir != Out && g.edges[i].to == u && g.edges[i].from == v))
    }

    /** The far end of an edge as the index computes it. */
    function Other(u: Node, i: nat): Node
      requires i < |g.edges|
    {
      if g.edges[i].from == u then g.edges[i].to else g.edges[i].from
    }

    /** The edges at `u`, leaving first, in snapshot order. */
    function EdgesAt(u: Node): (ids: seq<nat>)
      ensures forall k :: 0 <= k < |ids| ==> ids[k] < |g.edges|
    {
      var a := if dir != In then Leaving(g.edges, u, |g.edges|) else [];
      var b := if dir != Out then Entering(g.edges, u, |g.edges|) else [];
      a + b
    }

    function HopsAlong(u: Node, ids: seq<nat>): seq<Hop>
      requires forall k :: 0 <= k < |ids| ==> ids[k] < |g.edges|
    {
      if ids == [] then []
      else
        var i := ids[|ids| - 1];
        HopsAlong(u, ids[..|ids| - 1]) +
        if AdmitsType(g.edges[i]) && AdmitsNode(Other(u, i)) then [Hop(i, Other(u, i))] else []
    }

    /** The neighbours of `u`, in the order the searches visit them. */
    function Next(u: Node): seq<Hop> { HopsAlong(u, EdgesAt(u)) }

    /** Every node an edge touches. */
    function Universe(): set<Node> {
      (set i | 0 <= i < |g.edges| :: g.edges[i].from) + (set i | 0 <= i < |g.edges| :: g.edges[i].to)
    }
  }

  /** Among the first `n` edges, those that leave `u`, and those that enter it. */
  function Leaving(edges: seq<Edge>, u: Node, n: nat): (ids: seq<nat>)
    requires n <= |edges|
    ensures forall k :: 0 <= k < |ids| ==> ids[k] < n
  {
    if n == 0 then [] else Leaving(edges, u, n - 1) + if edges[n - 1].from == u then [n - 1] else []
  }

  function Entering(edges: seq<Edge>, u: Node, n: nat): (ids: seq<nat>)
    requires n <= |edges|
    ensures forall k :: 0 <= k < |ids| ==> ids[k] < n
  {
    if n == 0 then [] else Entering(edges, u, n - 1) + if edges[n - 1].to == u then [n - 1] else []
  }

  // ---- the index finds exactly the steps -----------------------------------------------

  lemma {:induction false} LeavingAre(edges: seq<Edge>, u: Node, n: nat, i: nat)
    requires n <= |edges|
    ensures i in Leaving(edges, u, n) <==> i < n && edges[i].from == u
    decreases n
  {
    if n > 0 { LeavingAre(edges, u, n - 1, i); }
  }

  lemma {:induction false} EnteringAre(edges: seq<Edge>, u: Node, n: nat, i: nat)
    requires n <= |edges|
    ensures i in Entering(edges, u, n) <==> i < n && edges[i].to == u
    decreases n
  {
    if n > 0 { EnteringAre(edges, u, n - 1, i); }
  }

  lemma {:induction false} HopsAre(view: View, u: Node, ids: seq<nat>, i: nat, v: Node)
    requires forall k :: 0 <= k < |ids| ==> ids[k] < |view.g.edges|
    ensures Hop(i, v) in view.HopsAlong(u, ids) <==>
              i in ids && view.AdmitsType(view.g.edges[i]) && view.AdmitsNode(v) && v == view.Other(u, i)
    decreases |ids|
  {
    if ids != [] {
      var n := |ids| - 1;
      HopsAre(view, u, ids[..n], i, v);
      assert ids == ids[..n] + [ids[n]];
    }
  }

  /** `neighbors` yields a hop exactly when the view has that step. */
  lemma {:induction false} NextIsStep(view: View, u: Node, i: nat, v: Node)
    ensures Hop(i, v) in view.Next(u) <==> view.Step(u, i, v)
  {
    HopsAre(view, u, view.EdgesAt(u), i, v);
    LeavingAre(view.g.edges, u, |view.g.edges|, i);
    EnteringAre(view.g.edges, u, |view.g.edges|, i);
  }

  lemma {:induction false} NextStaysInside(view: View, u: Node, h: Hop)
    requires h in view.Next(u)
    ensures h.node in view.Universe() && view.Step(u, h.edge, h.node)
  {
    NextIsStep(view, u, h.edge, h.node);
    var i := h.edge;
    assert view.g.edges[i].from in view.Universe() && view.g.edges[i].to in view.Universe();
  }

  lemma {:induction false} HopsStayInside(view: View, u: Node, all: set<Node>)
    requires view.Universe() <= all
    ensures forall k :: 0 <= k < |view.Next(u)| ==> view.Next(u)[k].node in all
  {
    var hops := view.Next(u);
    forall k | 0 <= k < |hops| ensures hops[k].node in all {
      assert hops[k] in hops;
      NextStaysInside(view, u, hops[k]);
    }
  }

  lemma {:induction false} LeavingIncreases(edges: seq<Edge>, u: Node, n: nat)
    requires n <= |edges|
    ensures Rising(Leaving(edges, u, n))
    decreases n
  {
    if n > 0 { LeavingIncreases(edges, u, n - 1); }
  }

  predicate Rising(ids: seq<nat>) { forall a, b :: 0 <= a < b < |ids| ==> ids[a] < ids[b] }

  predicate RisingHops(hops: seq<Hop>) { forall a, b :: 0 <= a < b < |hops| ==> hops[a].edge < hops[b].edge }

  lemma {:induction false} HopsIncrease(view: View, u: Node, ids: seq<nat>)
    requires forall k :: 0 <= k < |ids| ==> ids[k] < |view.g.edges|
    requires Rising(ids)
    ensures RisingHops(view.HopsAlong(u, ids))
    decreases |ids|
  {
    if ids != [] {
      var n := |ids| - 1;
      var before := view.HopsAlong(u, ids[..n]);
      HopsIncrease(view, u, ids[..n]);
      forall k | 0 <= k < |before| ensures before[k].edge < ids[n] {
        assert Hop(before[k].edge, before[k].node) in before;
        HopsAre(view, u, ids[..n], before[k].edge, before[k].node);
        var j :| 0 <= j < |ids[..n]| && ids[..n][j] == before[k].edge;
        assert ids[j] < ids[n];
      }
    }
  }

  /** Followed forwards, no edge is offered twice: parallel edges give separate hops. */
  lemma {:induction false} OutHopsDistinct(view: View, u: Node)
    requires view.dir.Out?
    ensures RisingHops(view.Next(u))
  {
    LeavingIncreases(view.g.edges, u, |view.g.edges|);
    assert view.EdgesAt(u) == Leaving(view.g.edges, u, |view.g.edges|);
    HopsIncrease(view, u, view.EdgesAt(u));
  }

  lemma {:induction false} EnteringIncreases(edges: seq<Edge>, u: Node, n: nat)
    requires n <= |edges|
    ensures Rising(Entering(edges, u, n))
    decreases n
  {
    if n > 0 { EnteringIncreases(edges, u, n - 1); }
  }

  lemma {:induction false} HopsAppend(view: View, u: Node, a: seq<nat>, b: seq<nat>)
    requires forall k :: 0 <= k < |a| ==> a[k] < |view.g.edges|
    requires forall k :: 0 <= k < |b| ==> b[k] < |view.g.edges|
    ensures view.HopsAlong(u, a + b) == view.HopsAlong(u, a) + view.HopsAlong(u, b)
    decreases |b|
  {
    if b == [] { assert a + b == a; }
    else {
      var n := |b| - 1;
      assert (a + b)[..|a| + n] == a + b[..n];
      HopsAppend(view, u, a, b[..n]);
    }
  }

  predicate Among(names: seq<string>, name: string) { exists k :: 0 <= k < |names| && names[k] == name }

  /** The edge passes both filters of the query, an absent or empty one letting everything pass, and ends in `v`. */
  predicate Passes(view: View, e: Edge, v: Node) {
    (view.types == None || view.types == Some([]) || Among(view.types.value, e.kind)) &&
    (view.kinds == None || view.kinds == Some([]) || (v in view.g.kinds && Among(view.kinds.value, view.g.kinds[v])))
  }

  lemma {:induction false} PassesBoth(view: View, e: Edge, v: Node)
    ensures Passes(view, e, v) <==> view.AdmitsType(e) && view.AdmitsNode(v)
  {
  }

  /** Hop along edge `i`, which leads from one end to the other as asked, to `v`. */
  predicate Leads(view: View, from: Node, i: nat, to: Node, v: Node) {
    i < |view.g.edges| && view.g.edges[i].from == from && view.g.edges[i].to == to && Passes(view, view.g.edges[i], v)
  }

  /** The hops along the edges that leave `u`, in snapshot order. */
  lemma {:induction false} LeavingHops(view: View, u: Node, ids: seq<nat>) returns (hops: seq<Hop>)
    requires ids == if view.dir != In then Leaving(view.g.edges, u, |view.g.edges|) else []
    ensures hops == view.HopsAlong(u, ids) && RisingHops(hops)
    ensures forall i: nat, v :: Hop(i, v) in hops <==> !view.dir.In? && Leads(view, u, i, v, v)
  {
    hops := view.HopsAlong(u, ids);
    LeavingIncreases(view.g.edges, u, |view.g.edges|);
    HopsIncrease(view, u, ids);
    forall i: nat, v ensures Hop(i, v) in hops <==> !view.dir.In? && Leads(view, u, i, v, v) {
      HopsAre(view, u, ids, i, v);
      LeavingAre(view.g.edges, u, |view.g.edges|, i);
      if i < |view.g.edges| { PassesBoth(view, view.g.edges[i], v); }
    }
  }

  lemma {:induction false} EnteringHops(view: View, u: Node, ids: seq<nat>) returns (hops: seq<Hop>)
    requires ids == if view.dir != Out then Entering(view.g.edges, u, |view.g.edges|) else []
    ensures hops == view.HopsAlong(u, ids) && RisingHops(hops)
    ensures forall i: nat, v :: Hop(i, v) in hops <==> !view.dir.Out? && Leads(view, v, i, u, v)
  {
    hops := view.HopsAlong(u, ids);
    EnteringIncreases(view.g.edges, u, |view.g.edges|);
    HopsIncrease(view, u, ids);
    forall i: nat, v ensures Hop(i, v) in hops <==> !view.dir.Out? && Leads(view, v, i, u, v) {
      HopsAre(view, u, ids, i, v);
      EnteringAre(view.g.edges, u, |view.g.edges|, i);
      if i < |view.g.edges| { PassesBoth(view, view.g.edges[i], v); }
    }
  }

  /** The neighbours of a node: first along the edges that leave it, in snapshot order, unless only entering ones are
      asked for; then along those that enter it, in snapshot order, unless only leaving ones are.  Of each sort all that
      pass, and each once. */
  lemma {:induction false} NeighboursInOrder(view: View, u: Node) returns (leaving: seq<Hop>, entering: seq<Hop>)
    ensures view.Next(u) == leaving + entering && RisingHops(leaving) && RisingHops(entering)
    ensures forall i: nat, v :: Hop(i, v) in leaving <==> !view.dir.In? && Leads(view, u, i, v, v)
    ensures forall i: nat, v :: Hop(i, v) in entering <==> !view.dir.Out? && Leads(view, v, i, u, v)
  {
    var edges := view.g.edges;
    var a := if view.dir != In then Leaving(edges, u, |edges|) else [];
    var b := if view.dir != Out then Entering(edges, u, |edges|) else [];
    leaving := LeavingHops(view, u, a);
    entering := EnteringHops(view, u, b);
    HopsAppend(view, u, a, b);
  }

  /** The result limit of a query: a limit that is not a number counts as 50, the others are clamped to 1..500. */
  function ClampLimit(limit: Option<int>): nat {
    if limit.None? then 50 else if limit.value > 500 then 500 else if limit.value < 1 then 1 else limit.value
  }

  /** The limit is between 1 and 500, and the one asked for when that is. */
  lemma {:induction false} LimitIsClamped(limit: Option<int>)
    ensures 1 <= ClampLimit(limit) <= 500 && (limit.None? ==> ClampLimit(limit) == 50)
    ensures limit.Some? && 1 <= limit.value <= 500 ==> ClampLimit(limit) == limit.value
    ensures forall more: int :: limit.Some? && limit.value <= more ==> ClampLimit(limit) <= ClampLimit(Some(more))
  {
  }

  // ---- the index object ---------------------------------------------------------------------

  class GraphIndex {
    const g: Graph
    var out: map<Node, seq<nat>>
    var inc: map<Node, seq<nat>>

    /** The dictionary's default is the empty list. */
    static function At(index: map<Node, seq<nat>>, u: Node): seq<nat> { if u in index then index[u] else [] }

    /** The lists of `u` hold its edges among the first `n`. */
    static predicate Lists(edges: seq<Edge>, n: nat, u: Node, out: map<Node, seq<nat>>, inc: map<Node, seq<nat>>)
      requires n <= |edges|
    {
      At(out, u) == Leaving(edges, u, n) && At(inc, u) == Entering(edges, u, n)
    }

    static ghost predicate Indexes(edges: seq<Edge>, n: nat, out: map<Node, seq<nat>>, inc: map<Node, seq<nat>>)
      requires n <= |edges|
    {
      forall u {:trigger Lists(edges, n, u, out, inc)} :: Lists(edges, n, u, out, inc)
    }

    ghost predicate Valid()
      reads this
    {
      Indexes(g.edges, |g.edges|, out, inc)
    }

    constructor (g: Graph)
      ensures Valid() && this.g == g
    {
      this.g := g;
      var leaving, entering := Adjacency(g.edges);
      out, inc := leaving, entering;
    }

    /** The single pass over the snapshot's edges. */
    static method Adjacency(edges: seq<Edge>) returns (out: map<Node, seq<nat>>, inc: map<Node, seq<nat>>)
      ensures Indexes(edges, |edges|, out, inc)
    {
      out, inc := map[], map[];
      for i := 0 to |edges|
        invariant Indexes(edges, i, out, inc)
      {
        var e := edges[i];
        OneMoreEdge(edges, i, out, inc);
        out := out[e.from := At(out, e.from) + [i]];
        inc := inc[e.to := At(inc, e.to) + [i]];
      }
    }

    static lemma {:induction false} OneMoreEdge(edges: seq<Edge>, i: nat, out: map<Node, seq<nat>>,
                                                inc: map<Node, seq<nat>>)
      requires i < |edges| && Indexes(edges, i, out, inc)
      ensures var e := edges[i];
              Indexes(edges, i + 1, out[e.from := At(out, e.from) + [i]], inc[e.to := At(inc, e.to) + [i]])
    {
      var out2, inc2 := out[edges[i].from := At(out, edges[i].from) + [i]],
        inc[edges[i].to := At(inc, edges[i].to) + [i]];
      forall u {:trigger Lists(edges, i + 1, u, out2, inc2)} ensures Lists(edges, i + 1, u, out2, inc2) {
        assert Lists(edges, i, u, out, inc);
        ListsGrow(edges, i, u, out, inc);
      }
    }

    static lemma {:induction false} ListsGrow(edges: seq<Edge>, i: nat, u: Node, out: map<Node, seq<nat>>,
                                              inc: map<Node, seq<nat>>)
      requires i < |edges| && Lists(edges, i, u, out, inc)
      ensures var e := edges[i];
              Lists(edges, i + 1, u, out[e.from := At(out, e.from) + [i]], inc[e.to := At(inc, e.to) + [i]])
    {
    }

    method EdgesOf(u: Node, dir: Direction) returns (ids: seq<nat>)
      requires Valid()
      ensures forall t, k :: ids == View(g, dir, t, k).EdgesAt(u)
    {
      assert Lists(g.edges, |g.edges|, u, out, inc);
      ids := [];
      if dir != In { ids := ids + At(out, u); }
      if dir != Out { ids := ids + At(inc, u); }
    }

    static lemma {:induction false} OneMoreHop(view: View, u: Node, ids: seq<nat>, k: nat)
      requires k < |ids| && forall j :: 0 <= j < |ids| ==> ids[j] < |view.g.edges|
      ensures var other := view.Other(u, ids[k]);
              view.HopsAlong(u, ids[..k + 1]) == view.HopsAlong(u, ids[..k]) +
              if view.AdmitsType(view.g.edges[ids[k]]) && view.AdmitsNode(other) then [Hop(ids[k], other)] else []
    {
      assert ids[..k + 1][..k] == ids[..k];
    }

    method Neighbors(u: Node, view: View) returns (res: seq<Hop>)
      requires Valid() && view.g == g
      ensures res == view.Next(u)
    {
      var ids := EdgesOf(u, view.dir);
      assert ids == view.EdgesAt(u);
      res := [];
      for k := 0 to |ids|
        invariant res == view.HopsAlong(u, ids[..k])
      {
        OneMoreHop(view, u, ids, k);
        var other := view.Other(u, ids[k]);
        if view.AdmitsType(g.edges[ids[k]]) && view.AdmitsNode(other) { res := res + [Hop(ids[k], other)]; }
      }
      assert ids[..|ids|] == ids;
    }
  }
}
