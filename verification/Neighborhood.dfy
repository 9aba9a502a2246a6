/** `neighbors` of the query library (archkit/query.py): breadth-first search bounded in depth and in results. */
module Neighborhood {
  import opened Options
  import opened ArchGraph
  import opened ArchSearch

  /** A result row: the node, its depth, and the edge it was found along. */
  datatype Item = Item(node: Node, depth: nat, via: nat)

  // ---- the search without a result limit -------------------------------------------------------

  predicate InRange(all: set<Node>, depth: map<Node, nat>, q: seq<Node>) {
    depth.Keys <= all && forall i :: 0 <= i < |q| ==> q[i] in depth
  }

  /** The rest of the search from the head of the outer loop. */
  ghost function Search(view: View, max: nat, all: set<Node>, depth: map<Node, nat>, q: seq<Node>,
                        items: seq<Item>): seq<Item>
    requires view.Universe() <= all && InRange(all, depth, q)
    decreases all - depth.Keys, |q|, 0
  {
    if q == [] then items
    else
      HopsStayInside(view, q[0], all);
      Explore(view, max, all, depth, q[1..], q[0], if depth[q[0]] >= max then [] else view.Next(q[0]), items)
  }

  /** The rest of the search with `hops` left of the neighbours of `u`. */
  ghost function Explore(view: View, max: nat, all: set<Node>, depth: map<Node, nat>, q: seq<Node>, u: Node,
                         hops: seq<Hop>,
                         items: seq<Item>): seq<Item>
    requires view.Universe() <= all && InRange(all, depth, q) && u in depth
    requires forall k :: 0 <= k < |hops| ==> hops[k].node in all
    decreases all - depth.Keys, |q|, |hops| + 1
  {
    if hops == [] then Search(view, max, all, depth, q, items)
    else if hops[0].node in depth then Explore(view, max, all, depth, q, u, hops[1..], items)
    else
      var h := hops[0];
      assert h.node in all - depth.Keys && h.node !in all - depth[h.node := depth[u] + 1].Keys;
      Explore(view, max, all, depth[h.node := depth[u] + 1], q + [h.node], u, hops[1..],
        items + [Item(h.node, depth[u] + 1, h.edge)])
  }

  ghost function Unbounded(view: View, a: Node, max: nat): seq<Item> {
    Search(view, max, view.Universe() + {a}, map[a := 0], [a], [])
  }

  // ---- what it finds -----------------------------------------------------------------------------

  /** Row `i` is a new node at the depth recorded for it, reached along its edge from one level up. */
  ghost predicate RowOk(view: View, a: Node, depth: map<Node, nat>, items: seq<Item>, i: nat)
    requires i < |items|
  {
    var r := items[i];
    r.node != a && r.node in depth && depth[r.node] == r.depth >= 1 &&
    exists u :: u in depth && depth[u] + 1 == r.depth && view.Step(u, r.via, r.node)
  }

  /** The rows list the discovered nodes, each once, level by level. */
  ghost predicate Lists(view: View, a: Node, depth: map<Node, nat>, items: seq<Item>) {
    && (forall i {:trigger RowOk(view, a, depth, items, i)} :: 0 <= i < |items| ==> RowOk(view, a, depth, items, i))
    && (forall v :: v in depth && v != a ==> Listed(items, v))
    && Ascending(items)
  }

  predicate Listed(items: seq<Item>, v: Node) { exists i :: 0 <= i < |items| && items[i].node == v }

  predicate Ascending(items: seq<Item>) {
    forall i, j :: 0 <= i < j < |items| ==> items[i].node != items[j].node && items[i].depth <= items[j].depth
  }

  ghost predicate Distance(view: View, a: Node, v: Node, k: nat) {
    Reach(view, a, v, k) && forall j: nat :: Reach(view, a, v, j) ==> k <= j
  }

  /** Exactly the nodes within `max` hops of `a`, other than `a`, each once, with its true distance, nearest first. */
  ghost predicate IsNeighbourhood(view: View, a: Node, max: nat, items: seq<Item>) {
    && Ascending(items)
    && (forall i :: 0 <= i < |items| ==>
          items[i].node != a && 1 <= items[i].depth <= max && Distance(view, a, items[i].node, items[i].depth))
    && (forall v, k: nat :: v != a && k <= max && Reach(view, a, v, k) ==> Listed(items, v))
  }

  lemma {:induction false} ListsDiscover(view: View, a: Node, depth: map<Node, nat>, items: seq<Item>, u: Node, h: Hop)
    requires Lists(view, a, depth, items) && a in depth && u in depth && h.node !in depth &&
             view.Step(u, h.edge, h.node)
    requires forall v :: v in depth ==> depth[v] <= depth[u] + 1
    ensures Lists(view, a, depth[h.node := depth[u] + 1], items + [Item(h.node, depth[u] + 1, h.edge)])
  {
    var d, rows := depth[h.node := depth[u] + 1], items + [Item(h.node, depth[u] + 1, h.edge)];
    forall i | 0 <= i < |rows| ensures RowOk(view, a, d, rows, i) {
      if i < |items| {
        assert RowOk(view, a, depth, items, i);
        var w :| w in depth && depth[w] + 1 == items[i].depth && view.Step(w, items[i].via, items[i].node);
        assert w in d && d[w] + 1 == rows[i].depth;
      } else {
        assert u in d && d[u] + 1 == rows[i].depth;
      }
    }
    forall v | v in d && v != a ensures Listed(rows, v) {
      if v == h.node { assert rows[|items|].node == v; }
      else {
        var i :| 0 <= i < |items| && items[i].node == v;
        assert rows[i].node == v;
      }
    }
    forall i, j | 0 <= i < j < |rows| ensures rows[i].node != rows[j].node && rows[i].depth <= rows[j].depth {
      assert RowOk(view, a, depth, items, i);
    }
  }

  lemma {:induction false} SearchFinds(view: View, a: Node, max: nat, all: set<Node>, depth: map<Node, nat>,
                                       q: seq<Node>, items: seq<Item>)
    requires view.Universe() <= all && InRange(all, depth, q)
    requires Layered(view, a, max, depth, q) && Lists(view, a, depth, items)
    ensures IsNeighbourhood(view, a, max, Search(view, max, all, depth, q, items))
    decreases all - depth.Keys, |q|, 0
  {
    if q == [] {
      forall i | 0 <= i < |items|
        ensures items[i].node != a && 1 <= items[i].depth <= max && Distance(view, a, items[i].node, items[i].depth)
      {
        assert RowOk(view, a, depth, items, i);
        assert RealDepth(view, a, max, depth, items[i].node);
        Exhausted(view, a, max, depth, items[i].node);
      }
      forall v, k: nat | v != a && k <= max && Reach(view, a, v, k) ensures Listed(items, v) {
        Exhausted(view, a, max, depth, v);
      }
    } else {
      Pop(view, a, max, depth, q);
      HopsStayInside(view, q[0], all);
      ExploreFinds(view, a, max, all, depth, q[1..], q[0], if depth[q[0]] >= max then [] else view.Next(q[0]), items);
    }
  }

  lemma {:induction false} ExploreFinds(view: View, a: Node, max: nat, all: set<Node>, depth: map<Node, nat>,
                                        q: seq<Node>, u: Node,
                                        hops: seq<Hop>, items: seq<Item>)
    requires view.Universe() <= all && InRange(all, depth, q)
    requires forall k :: 0 <= k < |hops| ==> hops[k].node in all
    requires Expanding(view, a, max, depth, q, u, hops) && Lists(view, a, depth, items)
    ensures IsNeighbourhood(view, a, max, Explore(view, max, all, depth, q, u, hops, items))
    decreases all - depth.Keys, |q|, |hops| + 1
  {
    if hops == [] {
      Done(view, a, max, depth, q, u);
      SearchFinds(view, a, max, all, depth, q, items);
    } else if hops[0].node in depth {
      Skip(view, a, max, depth, q, u, hops);
      ExploreFinds(view, a, max, all, depth, q, u, hops[1..], items);
    } else {
      var h := hops[0];
      Discover(view, a, max, depth, q, u, hops);
      ListsDiscover(view, a, depth, items, u, h);
      assert h.node in all - depth.Keys && h.node !in all - depth[h.node := depth[u] + 1].Keys;
      ExploreFinds(view, a, max, all, depth[h.node := depth[u] + 1], q + [h.node], u, hops[1..],
        items + [Item(h.node, depth[u] + 1, h.edge)]);
    }
  }

  /** The unlimited search returns the neighbourhood: all of it, nothing else, at true distances. */
  lemma {:induction false} UnboundedIsNeighbourhood(view: View, a: Node, max: nat)
    ensures IsNeighbourhood(view, a, max, Unbounded(view, a, max))
  {
    LayeredStart(view, a, max);
    SearchFinds(view, a, max, view.Universe() + {a}, map[a := 0], [a], []);
  }

  // ---- rows are only ever added ----------------------------------------------------------------------

  lemma {:induction false} SearchExtends(view: View, max: nat, all: set<Node>, depth: map<Node, nat>, q: seq<Node>,
                                         items: seq<Item>)
    requires view.Universe() <= all && InRange(all, depth, q)
    ensures items <= Search(view, max, all, depth, q, items)
    decreases all - depth.Keys, |q|, 0
  {
    if q != [] {
      HopsStayInside(view, q[0], all);
      ExploreExtends(view, max, all, depth, q[1..], q[0], if depth[q[0]] >= max then [] else view.Next(q[0]), items);
    }
  }

  lemma {:induction false} ExploreExtends(view: View, max: nat, all: set<Node>, depth: map<Node, nat>, q: seq<Node>,
                                          u: Node,
                                          hops: seq<Hop>, items: seq<Item>)
    requires view.Universe() <= all && InRange(all, depth, q) && u in depth
    requires forall k :: 0 <= k < |hops| ==> hops[k].node in all
    ensures items <= Explore(view, max, all, depth, q, u, hops, items)
    decreases all - depth.Keys, |q|, |hops| + 1
  {
    if hops == [] { SearchExtends(view, max, all, depth, q, items); }
    else if hops[0].node in depth { ExploreExtends(view, max, all, depth, q, u, hops[1..], items); }
    else {
      var h := hops[0];
      assert h.node in all - depth.Keys && h.node !in all - depth[h.node := depth[u] + 1].Keys;
      ExploreExtends(view, max, all, depth[h.node := depth[u] + 1], q + [h.node], u, hops[1..],
        items + [Item(h.node, depth[u] + 1, h.edge)]);
    }
  }

  // ---- the limited search --------------------------------------------------------------------------------

  /** Either the search is still the unlimited one, or it has filled its limit and knows there is more. */
  ghost predicate OnTrack(limit: nat, full: seq<Item>, rest: seq<Item>, items: seq<Item>, truncated: bool) {
    if truncated then |items| == limit && items <= full && |full| > limit
    else |items| <= limit && rest == full
  }

  /** One neighbour list; once the limit is reached nodes are still marked as seen but no longer queued. */
  method ExploreLimited(ghost view: View, ghost max: nat, ghost all: set<Node>, ghost full: seq<Item>, limit: nat,
                        u: Node, hops: seq<Hop>,
                        seen0: map<Node, nat>, q0: seq<Node>, items0: seq<Item>, truncated0: bool)
    returns (seen: map<Node, nat>, q: seq<Node>, items: seq<Item>, truncated: bool)
    requires view.Universe() <= all && InRange(all, seen0, q0) && u in seen0
    requires forall k :: 0 <= k < |hops| ==> hops[k].node in all
    requires OnTrack(limit, full, Explore(view, max, all, seen0, q0, u, hops, items0), items0, truncated0)
    ensures InRange(all, seen, q) && seen0.Keys <= seen.Keys && (seen.Keys == seen0.Keys ==> q == q0)
    ensures OnTrack(limit, full, Search(view, max, all, seen, q, items), items, truncated)
  {
    seen, q, items, truncated := seen0, q0, items0, truncated0;
    for k := 0 to |hops|
      invariant InRange(all, seen, q) && u in seen && seen0.Keys <= seen.Keys && (seen.Keys == seen0.Keys ==> q == q0)
      invariant OnTrack(limit, full, Explore(view, max, all, seen, q, u, hops[k..], items), items, truncated)
    {
      assert hops[k..][0] == hops[k] && hops[k..][1..] == hops[k + 1..];
      var h := hops[k];
      if h.node !in seen {
        ghost var more := items + [Item(h.node, seen[u] + 1, h.edge)];
        ExploreExtends(view, max, all, seen[h.node := seen[u] + 1], q + [h.node], u, hops[k + 1..], more);
        seen := seen[h.node := seen[u] + 1];
        if |items| >= limit {
          truncated := true;
        } else {
          items := items + [Item(h.node, seen[h.node], h.edge)];
          q := q + [h.node];
        }
      }
    }
    assert hops[|hops|..] == [];
  }

  method NeighborsLimited(ix: GraphIndex, view: View, a: Node, max: nat, limit: nat)
    returns (items: seq<Item>, truncated: bool)
    requires ix.Valid() && view.g == ix.g
    ensures var full := Unbounded(view, a, max);
            items == (if |full| <= limit then full else full[..limit]) && truncated == (|full| > limit)
  {
    ghost var all, full := view.Universe() + {a}, Unbounded(view, a, max);
    var seen: map<Node, nat> := map[a := 0];
    var q := [a];
    items, truncated := [], false;
    while q != []
      invariant InRange(all, seen, q)
      invariant OnTrack(limit, full, Search(view, max, all, seen, q, items), items, truncated)
      decreases all - seen.Keys, |q|
    {
      var u := q[0];
      var hops: seq<Hop> := [];
      HopsStayInside(view, u, all);
      if seen[u] < max { hops := ix.Neighbors(u, view); }
      seen, q, items, truncated := ExploreLimited(view, max, all, full, limit, u, hops, seen, q[1..], items, truncated);
    }
  }

  // ---- the capability ------------------------------------------------------------------------------------------

  datatype Answer = UnknownNode | Neighbours(items: seq<Item>, truncated: bool)

  /** `max(1, min(int(depth or 1), 4))`. */
  function ClampDepth(depth: int): nat { if depth > 4 then 4 else if depth < 1 then 1 else depth }

  /** The depth is between one and four, and the one asked for when it can be. */
  lemma {:induction false} DepthIsClamped(depth: int)
    ensures 1 <= ClampDepth(depth) <= 4 && (1 <= depth <= 4 ==> ClampDepth(depth) == depth)
    ensures depth > 4 ==> ClampDepth(depth) == 4
    ensures depth < 1 ==> ClampDepth(depth) == 1
  {
  }

  /** The first `limit` rows of the whole neighbourhood, and whether there were more. */
  method FindNeighbours(ix: GraphIndex, a: Node, depth: int, types: Option<seq<string>>, kinds: Option<seq<string>>,
                        limit: Option<int>, dir: Direction) returns (r: Answer)
    requires ix.Valid()
    ensures r.UnknownNode? <==> a !in ix.g.kinds
    ensures r.Neighbours? ==>
              var view := View(ix.g, dir, types, kinds);
              var full := Unbounded(view, a, ClampDepth(depth));
              IsNeighbourhood(view, a, ClampDepth(depth), full) &&
              r.items == (if |full| <= ClampLimit(limit) then full else full[..ClampLimit(limit)]) &&
              r.truncated == (|full| > ClampLimit(limit))
  {
    if a !in ix.g.kinds { return UnknownNode; }
    var view := View(ix.g, dir, types, kinds);
    var items, truncated := NeighborsLimited(ix, view, a, ClampDepth(depth), ClampLimit(limit));
    UnboundedIsNeighbourhood(view, a, ClampDepth(depth));
    r := Neighbours(items, truncated);
  }
}
