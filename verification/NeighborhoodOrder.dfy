/**
 The order of the rows of `neighbors`, and so which of them a limit keeps: each node is found along the first hop that
 leads to it, where hops are tried node by node in the order of the rows, and edge by edge in the order of the index.
 */
module NeighborhoodOrder {
  import opened ArchGraph
  import opened Neighborhood

  /** The start is at place 0, row `p` at place `p + 1`. */
  function NodeAt(a: Node, items: seq<Item>, p: nat): Node
    requires p <= |items|
  {
    if p == 0 then a else items[p - 1].node
  }

  function DepthAt(items: seq<Item>, p: nat): nat
    requires p <= |items|
  {
    if p == 0 then 0 else items[p - 1].depth
  }

  /** The `k`-th neighbour of the node at place `p`, if that is near enough to be asked for its neighbours. */
  predicate Tried(view: View, a: Node, max: nat, items: seq<Item>, p: nat, k: nat) {
    p <= |items| && DepthAt(items, p) < max && k < |view.Next(NodeAt(a, items, p))|
  }

  function HopAt(view: View, a: Node, max: nat, items: seq<Item>, p: nat, k: nat): Hop
    requires Tried(view, a, max, items, p, k)
  {
    view.Next(NodeAt(a, items, p))[k]
  }

  predicate Earlier(p: nat, k: nat, p2: nat, k2: nat) { p < p2 || (p == p2 && k < k2) }

  /** Row `i` is what the `k`-th hop at place `p` leads to, one level further out; and no earlier hop leads there. */
  ghost predicate FoundAt(view: View, a: Node, max: nat, items: seq<Item>, i: nat, p: nat, k: nat) {
    i < |items| && p <= i && Tried(view, a, max, items, p, k) &&
    HopAt(view, a, max, items, p, k) == Hop(items[i].via, items[i].node) && items[i].depth == DepthAt(items, p) + 1 &&
    forall p2: nat, k2: nat :: Tried(view, a, max, items, p2, k2) && Earlier(p2, k2, p, k) ==>
      HopAt(view, a, max, items, p2, k2).node != items[i].node
  }

  /** `at` tells where each row was found; later rows were found at later hops. */
  ghost predicate InSearchOrder(view: View, a: Node, max: nat, items: seq<Item>, at: seq<(nat, nat)>) {
    |at| == |items| && (forall i :: 0 <= i < |at| ==> FoundAt(view, a, max, items, i, at[i].0, at[i].1)) &&
    forall i, j :: 0 <= i < j < |at| ==> Earlier(at[i].0, at[i].1, at[j].0, at[j].1)
  }

  /** What is known are the start and the rows, at their depths. */
  ghost predicate Knows(a: Node, items: seq<Item>, depth: map<Node, nat>) {
    (forall p: nat :: p <= |items| ==>
      NodeAt(a, items, p) in depth && depth[NodeAt(a, items, p)] == DepthAt(items, p)) &&
    forall v :: v in depth ==> exists p: nat :: p <= |items| && NodeAt(a, items, p) == v
  }

  /** Every hop before the `k`-th at place `e` leads to a known node. */
  ghost predicate SeenBefore(view: View, a: Node, max: nat, items: seq<Item>, depth: map<Node, nat>, e: nat, k: nat) {
    forall p2: nat, k2: nat :: Tried(view, a, max, items, p2, k2) && Earlier(p2, k2, e, k) ==>
      HopAt(view, a, max, items, p2, k2).node in depth
  }

  ghost predicate AllBefore(at: seq<(nat, nat)>, e: nat, k: nat) {
    forall i :: 0 <= i < |at| ==> Earlier(at[i].0, at[i].1, e, k)
  }

  /** The queue holds the places from `e` on. */
  predicate QueueFrom(a: Node, items: seq<Item>, q: seq<Node>, e: nat) {
    e + |q| == |items| + 1 && forall x :: 0 <= x < |q| ==> q[x] == NodeAt(a, items, e + x)
  }

  ghost predicate Going(view: View, a: Node, max: nat, items: seq<Item>, at: seq<(nat, nat)>, depth: map<Node, nat>,
                        q: seq<Node>, e: nat, k: nat, rest: nat) {
    InSearchOrder(view, a, max, items, at) && Knows(a, items, depth) && SeenBefore(view, a, max, items, depth, e, k) &&
    AllBefore(at, e, k) && QueueFrom(a, items, q, rest)
  }

  /** A newly found node becomes the last row. */
  lemma {:induction false} OneMoreRow(view: View, a: Node, max: nat, items: seq<Item>, at: seq<(nat, nat)>,
                                      depth: map<Node, nat>, q: seq<Node>, e: nat, k: nat)
    returns (items2: seq<Item>, at2: seq<(nat, nat)>, depth2: map<Node, nat>)
    requires Going(view, a, max, items, at, depth, q, e, k, e + 1) && Tried(view, a, max, items, e, k)
    requires HopAt(view, a, max, items, e, k).node !in depth
    ensures var h := HopAt(view, a, max, items, e, k);
            items2 == items + [Item(h.node, DepthAt(items, e) + 1, h.edge)] &&
            depth2 == depth[h.node := DepthAt(items, e) + 1] &&
            Going(view, a, max, items2, at2, depth2, q + [h.node], e, k + 1, e + 1)
  {
    var h := HopAt(view, a, max, items, e, k);
    items2, at2 := items + [Item(h.node, DepthAt(items, e) + 1, h.edge)], at + [(e, k)];
    depth2 := depth[h.node := DepthAt(items, e) + 1];
    OrderGrows(view, a, max, items, items2, at, depth, e, k);
    KnowsMore(a, items, items2, depth, depth2);
    SeenMore(view, a, max, items, items2, depth, depth2, e, k);
    BeforeGrows(at, e, k);
    QueueGrows(a, items, items2, q, e + 1);
  }

  lemma {:induction false} OrderGrows(view: View, a: Node, max: nat, items: seq<Item>, items2: seq<Item>,
                                      at: seq<(nat, nat)>, depth: map<Node, nat>, e: nat, k: nat)
    requires InSearchOrder(view, a, max, items, at) && AllBefore(at, e, k)
    requires Tried(view, a, max, items, e, k) && SeenBefore(view, a, max, items, depth, e, k)
    requires HopAt(view, a, max, items, e, k).node !in depth
    requires var h := HopAt(view, a, max, items, e, k);
             items2 == items + [Item(h.node, DepthAt(items, e) + 1, h.edge)]
    ensures InSearchOrder(view, a, max, items2, at + [(e, k)])
  {
    RowsStay(view, a, max, items, items2, at);
    NewRow(view, a, max, items, items2, depth, e, k);
  }

  lemma {:induction false} BeforeGrows(at: seq<(nat, nat)>, e: nat, k: nat)
    requires AllBefore(at, e, k)
    ensures AllBefore(at + [(e, k)], e, k + 1)
  {
  }

  lemma {:induction false} QueueGrows(a: Node, items: seq<Item>, items2: seq<Item>, q: seq<Node>, e: nat)
    requires QueueFrom(a, items, q, e) && |items2| == |items| + 1 && items <= items2
    ensures QueueFrom(a, items2, q + [items2[|items|].node], e)
  {
    PlacesStay(a, items, items2);
  }

  /** A hop to a node already known. */
  lemma {:induction false} KnownHop(view: View, a: Node, max: nat, items: seq<Item>, at: seq<(nat, nat)>,
                                    depth: map<Node, nat>, q: seq<Node>, e: nat, k: nat)
    requires Going(view, a, max, items, at, depth, q, e, k, e + 1) && Tried(view, a, max, items, e, k)
    requires HopAt(view, a, max, items, e, k).node in depth
    ensures Going(view, a, max, items, at, depth, q, e, k + 1, e + 1)
  {
    SeenMore(view, a, max, items, items, depth, depth, e, k);
    assert AllBefore(at, e, k + 1);
  }

  /** The depth on record is that of the place. */
  lemma {:induction false} DepthIsKnown(view: View, a: Node, max: nat, items: seq<Item>, at: seq<(nat, nat)>,
                                        depth: map<Node, nat>, q: seq<Node>, e: nat, k: nat, rest: nat)
    requires Going(view, a, max, items, at, depth, q, e, k, rest) && e <= |items|
    ensures NodeAt(a, items, e) in depth && depth[NodeAt(a, items, e)] == DepthAt(items, e)
  {
  }

  lemma {:induction false} PlacesStay(a: Node, items: seq<Item>, items2: seq<Item>)
    requires items <= items2
    ensures forall p: nat :: p <= |items| ==>
              NodeAt(a, items2, p) == NodeAt(a, items, p) && DepthAt(items2, p) == DepthAt(items, p)
  {
  }

  lemma {:induction false} RowsStay(view: View, a: Node, max: nat, items: seq<Item>, items2: seq<Item>,
                                    at: seq<(nat, nat)>)
    requires items <= items2 && InSearchOrder(view, a, max, items, at)
    ensures forall i :: 0 <= i < |at| ==> FoundAt(view, a, max, items2, i, at[i].0, at[i].1)
  {
    PlacesStay(a, items, items2);
    forall i | 0 <= i < |at| ensures FoundAt(view, a, max, items2, i, at[i].0, at[i].1) {
      var p, k := at[i].0, at[i].1;
      assert FoundAt(view, a, max, items, i, p, k);
      forall p2: nat, k2: nat | Tried(view, a, max, items2, p2, k2) && Earlier(p2, k2, p, k)
        ensures HopAt(view, a, max, items2, p2, k2).node != items2[i].node
      {
        assert Tried(view, a, max, items, p2, k2);
        assert HopAt(view, a, max, items, p2, k2).node != items[i].node;
      }
    }
  }

  lemma {:induction false} NewRow(view: View, a: Node, max: nat, items: seq<Item>, items2: seq<Item>,
                                  depth: map<Node, nat>, e: nat, k: nat)
    requires Tried(view, a, max, items, e, k) && SeenBefore(view, a, max, items, depth, e, k)
    requires HopAt(view, a, max, items, e, k).node !in depth
    requires var h := HopAt(view, a, max, items, e, k);
             items2 == items + [Item(h.node, DepthAt(items, e) + 1, h.edge)]
    ensures FoundAt(view, a, max, items2, |items|, e, k)
  {
    PlacesStay(a, items, items2);
    forall p2: nat, k2: nat | Tried(view, a, max, items2, p2, k2) && Earlier(p2, k2, e, k)
      ensures HopAt(view, a, max, items2, p2, k2).node != items2[|items|].node
    {
      assert Tried(view, a, max, items, p2, k2);
      assert HopAt(view, a, max, items, p2, k2).node in depth;
    }
  }

  lemma {:induction false} KnowsMore(a: Node, items: seq<Item>, items2: seq<Item>, depth: map<Node, nat>,
                                     depth2: map<Node, nat>)
    requires Knows(a, items, depth) && |items2| == |items| + 1 && items <= items2 && items2[|items|].node !in depth
    requires depth2 == depth[items2[|items|].node := items2[|items|].depth]
    ensures Knows(a, items2, depth2)
  {
    PlacesStay(a, items, items2);
    forall v | v in depth2 ensures exists p: nat :: p <= |items2| && NodeAt(a, items2, p) == v {
      if v in depth {
        var p: nat :| p <= |items| && NodeAt(a, items, p) == v;
        assert NodeAt(a, items2, p) == v;
      } else {
        assert NodeAt(a, items2, |items2|) == v;
      }
    }
    forall p: nat | p <= |items2|
      ensures NodeAt(a, items2, p) in depth2 && depth2[NodeAt(a, items2, p)] == DepthAt(items2, p)
    {
      if p <= |items| { assert NodeAt(a, items, p) in depth; }
    }
  }

  lemma {:induction false} SeenMore(view: View, a: Node, max: nat, items: seq<Item>, items2: seq<Item>,
                                    depth: map<Node, nat>, depth2: map<Node, nat>, e: nat, k: nat)
    requires Tried(view, a, max, items, e, k) && SeenBefore(view, a, max, items, depth, e, k) && items <= items2
    requires depth.Keys <= depth2.Keys && HopAt(view, a, max, items, e, k).node in depth2
    ensures SeenBefore(view, a, max, items2, depth2, e, k + 1)
  {
    PlacesStay(a, items, items2);
    forall p2: nat, k2: nat | Tried(view, a, max, items2, p2, k2) && Earlier(p2, k2, e, k + 1)
      ensures HopAt(view, a, max, items2, p2, k2).node in depth2
    {
      assert Tried(view, a, max, items, p2, k2);
      if Earlier(p2, k2, e, k) { assert HopAt(view, a, max, items, p2, k2).node in depth; }
    }
  }

  /** All hops at place `e` are tried: on to the next place. */
  lemma {:induction false} NextPlace(view: View, a: Node, max: nat, items: seq<Item>, at: seq<(nat, nat)>,
                                     depth: map<Node, nat>, q: seq<Node>, e: nat, k: nat)
    requires Going(view, a, max, items, at, depth, q, e, k, e + 1) && !Tried(view, a, max, items, e, k)
    requires k == 0 || Tried(view, a, max, items, e, k - 1)
    ensures Going(view, a, max, items, at, depth, q, e + 1, 0, e + 1)
  {
    forall p2: nat, k2: nat | Tried(view, a, max, items, p2, k2) && Earlier(p2, k2, e + 1, 0)
      ensures HopAt(view, a, max, items, p2, k2).node in depth
    {
      assert Earlier(p2, k2, e, k);
    }
    assert AllBefore(at, e + 1, 0);
  }

  lemma {:induction false} SearchInOrder(view: View, a: Node, max: nat, all: set<Node>, depth: map<Node, nat>,
                                         q: seq<Node>, items: seq<Item>, at: seq<(nat, nat)>, e: nat)
    returns (rows: seq<Item>, places: seq<(nat, nat)>)
    requires view.Universe() <= all && InRange(all, depth, q)
    requires Going(view, a, max, items, at, depth, q, e, 0, e)
    ensures rows == Search(view, max, all, depth, q, items) && InSearchOrder(view, a, max, rows, places)
    decreases all - depth.Keys, |q|, 0
  {
    if q == [] { rows, places := items, at; }
    else {
      HopsStayInside(view, q[0], all);
      DepthIsKnown(view, a, max, items, at, depth, q, e, 0, e);
      assert q[0] == NodeAt(a, items, e) && QueueFrom(a, items, q[1..], e + 1);
      rows, places := ExploreInOrder(view, a, max, all, depth, q[1..], q[0],
                                     if depth[q[0]] >= max then [] else view.Next(q[0]), items, at, e, 0);
    }
  }

  /** What is left of the neighbours of the node at place `e`, from the `k`-th on. */
  ghost predicate HopsLeft(view: View, a: Node, max: nat, items: seq<Item>, hops: seq<Hop>, e: nat, k: nat) {
    e <= |items| &&
    if DepthAt(items, e) >= max then hops == [] && k == 0
    else k <= |view.Next(NodeAt(a, items, e))| && hops == view.Next(NodeAt(a, items, e))[k..]
  }

  lemma {:induction false} HopsLeftSplit(view: View, a: Node, max: nat, items: seq<Item>, hops: seq<Hop>, e: nat,
                                         k: nat)
    requires HopsLeft(view, a, max, items, hops, e, k)
    ensures if hops == [] then !Tried(view, a, max, items, e, k) && (k == 0 || Tried(view, a, max, items, e, k - 1))
            else Tried(view, a, max, items, e, k) && HopAt(view, a, max, items, e, k) == hops[0] &&
                 HopsLeft(view, a, max, items, hops[1..], e, k + 1)
  {
    if hops != [] { assert hops[1..] == view.Next(NodeAt(a, items, e))[k + 1..]; }
  }

  lemma {:induction false} HopsLeftStay(view: View, a: Node, max: nat, items: seq<Item>, items2: seq<Item>,
                                        hops: seq<Hop>, e: nat, k: nat)
    requires HopsLeft(view, a, max, items, hops, e, k) && items <= items2
    ensures HopsLeft(view, a, max, items2, hops, e, k) && NodeAt(a, items2, e) == NodeAt(a, items, e)
  {
  }

  /** A hop to a new node. */
  lemma {:induction false} NewHop(view: View, a: Node, max: nat, all: set<Node>, depth: map<Node, nat>, q: seq<Node>,
                                  u: Node, hops: seq<Hop>, items: seq<Item>, depth2: map<Node, nat>, items2: seq<Item>)
    requires view.Universe() <= all && InRange(all, depth, q) && u in depth && hops != []
    requires (forall j :: 0 <= j < |hops| ==> hops[j].node in all) && hops[0].node !in depth
    requires items2 == items + [Item(hops[0].node, depth[u] + 1, hops[0].edge)]
    requires depth2 == depth[hops[0].node := depth[u] + 1]
    ensures InRange(all, depth2, q + [hops[0].node]) && u in depth2 && all - depth2.Keys < all - depth.Keys
    ensures Explore(view, max, all, depth, q, u, hops, items) ==
            Explore(view, max, all, depth2, q + [hops[0].node], u, hops[1..], items2)
  {
    assert hops[0].node in all - depth.Keys && hops[0].node !in all - depth2.Keys;
  }

  lemma {:induction false} OldHop(view: View, max: nat, all: set<Node>, depth: map<Node, nat>, q: seq<Node>, u: Node,
                                  hops: seq<Hop>, items: seq<Item>)
    requires view.Universe() <= all && InRange(all, depth, q) && u in depth && hops != []
    requires (forall j :: 0 <= j < |hops| ==> hops[j].node in all) && hops[0].node in depth
    ensures Explore(view, max, all, depth, q, u, hops, items) == Explore(view, max, all, depth, q, u, hops[1..], items)
  {
  }

  /** One hop of the search. */
  lemma {:induction false} OneHop(view: View, a: Node, max: nat, all: set<Node>, depth: map<Node, nat>, q: seq<Node>,
                                  u: Node, hops: seq<Hop>, items: seq<Item>, at: seq<(nat, nat)>, e: nat, k: nat)
    returns (depth2: map<Node, nat>, q2: seq<Node>, items2: seq<Item>, at2: seq<(nat, nat)>)
    requires view.Universe() <= all && InRange(all, depth, q) && u in depth && hops != []
    requires forall j :: 0 <= j < |hops| ==> hops[j].node in all
    requires HopsLeft(view, a, max, items, hops, e, k) && u == NodeAt(a, items, e)
    requires Going(view, a, max, items, at, depth, q, e, k, e + 1)
    ensures InRange(all, depth2, q2) && u in depth2 && e <= |items2| && u == NodeAt(a, items2, e)
    ensures HopsLeft(view, a, max, items2, hops[1..], e, k + 1)
    ensures Going(view, a, max, items2, at2, depth2, q2, e, k + 1, e + 1)
    ensures (depth2 == depth && q2 == q) || all - depth2.Keys < all - depth.Keys
    ensures Explore(view, max, all, depth, q, u, hops, items) ==
            Explore(view, max, all, depth2, q2, u, hops[1..], items2)
  {
    HopsLeftSplit(view, a, max, items, hops, e, k);
    if hops[0].node in depth {
      KnownHop(view, a, max, items, at, depth, q, e, k);
      OldHop(view, max, all, depth, q, u, hops, items);
      depth2, q2, items2, at2 := depth, q, items, at;
    } else {
      DepthIsKnown(view, a, max, items, at, depth, q, e, k, e + 1);
      items2, at2, depth2 := OneMoreRow(view, a, max, items, at, depth, q, e, k);
      q2 := q + [hops[0].node];
      HopsLeftStay(view, a, max, items, items2, hops[1..], e, k + 1);
      NewHop(view, a, max, all, depth, q, u, hops, items, depth2, items2);
    }
  }

  lemma {:induction false} ExploreInOrder(view: View, a: Node, max: nat, all: set<Node>, depth: map<Node, nat>,
                                          q: seq<Node>, u: Node, hops: seq<Hop>, items: seq<Item>, at: seq<(nat, nat)>,
                                          e: nat, k: nat)
    returns (rows: seq<Item>, places: seq<(nat, nat)>)
    requires view.Universe() <= all && InRange(all, depth, q) && u in depth
    requires forall j :: 0 <= j < |hops| ==> hops[j].node in all
    requires HopsLeft(view, a, max, items, hops, e, k) && u == NodeAt(a, items, e)
    requires Going(view, a, max, items, at, depth, q, e, k, e + 1)
    ensures rows == Explore(view, max, all, depth, q, u, hops, items) && InSearchOrder(view, a, max, rows, places)
    decreases all - depth.Keys, |q|, |hops| + 1
  {
    if hops == [] {
      HopsLeftSplit(view, a, max, items, hops, e, k);
      NextPlace(view, a, max, items, at, depth, q, e, k);
      rows, places := SearchInOrder(view, a, max, all, depth, q, items, at, e + 1);
    } else {
      var depth2, q2, items2, at2 := OneHop(view, a, max, all, depth, q, u, hops, items, at, e, k);
      rows, places := ExploreInOrder(view, a, max, all, depth2, q2, u, hops[1..], items2, at2, e, k + 1);
    }
  }

  /** The rows of the whole neighbourhood come in the order in which breadth-first search finds them. */
  lemma {:induction false} RowsInSearchOrder(view: View, a: Node, max: nat) returns (at: seq<(nat, nat)>)
    ensures InSearchOrder(view, a, max, Unbounded(view, a, max), at)
  {
    var items: seq<Item> := [];
    assert NodeAt(a, items, 0) == a && DepthAt(items, 0) == 0;
    assert Going(view, a, max, items, [], map[a := 0], [a], 0, 0, 0);
    var rows;
    rows, at := SearchInOrder(view, a, max, view.Universe() + {a}, map[a := 0], [a], items, [], 0);
  }
}
