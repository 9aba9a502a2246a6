/** `paths` of the query library (archkit/query.py): depth-first enumeration of simple paths under a budget. */
module SimplePaths {
  import opened Options
  import opened ArchGraph

  /** A path under construction: its nodes and the edges between them. */
  datatype Path = Path(nodes: seq<Node>, edges: seq<nat>) {
    predicate Shaped() { |nodes| == |edges| + 1 }

    function Last(): Node
      requires Shaped()
    {
      nodes[|edges|]
    }

    function Extend(h: Hop): Path { Path(nodes + [h.node], edges + [h.edge]) }
  }

  /** A chain of steps from `a` that never meets a node twice. */
  predicate Simple(view: View, a: Node, p: Path) {
    && p.Shaped() && p.nodes[0] == a
    && (forall k {:trigger StepAt(view, p, k)} :: 0 <= k < |p.edges| ==> StepAt(view, p, k))
    && (forall i, j :: 0 <= i < j < |p.nodes| ==> p.nodes[i] != p.nodes[j])
  }

  predicate StepAt(view: View, p: Path, k: nat)
    requires p.Shaped() && k < |p.edges|
  {
    view.Step(p.nodes[k], p.edges[k], p.nodes[k + 1])
  }

  /** What `paths(a, b)` is asked for. */
  predicate Wanted(view: View, a: Node, b: Node, max: nat, p: Path) {
    Simple(view, a, p) && p.Last() == b && |p.edges| <= max
  }

  // ---- the whole enumeration, without budget or limit ---------------------------------------------

  /** The hops that do not lead back onto the path. */
  function Fresh(hops: seq<Hop>, nodes: seq<Node>): (r: seq<Hop>)
    decreases |hops|
  {
    if hops == [] then []
    else Fresh(hops[..|hops| - 1], nodes) + if hops[|hops| - 1].node in nodes then [] else [hops[|hops| - 1]]
  }

  /** Everything found below `p`, in the order it is found. */
  function Below(view: View, b: Node, max: nat, p: Path): seq<Path>
    requires p.Shaped()
    decreases max - |p.edges|, 0, 0
  {
    if p.Last() == b then [p]
    else if |p.edges| >= max then []
    else BelowEach(view, b, max, p, Fresh(view.Next(p.Last()), p.nodes))
  }

  function BelowEach(view: View, b: Node, max: nat, p: Path, hops: seq<Hop>): seq<Path>
    requires p.Shaped() && |p.edges| < max
    decreases max - |p.edges| - 1, 1, |hops|
  {
    if hops == [] then [] else Below(view, b, max, p.Extend(hops[0])) + BelowEach(view, b, max, p, hops[1..])
  }

  /** The number of partial paths the search visits below `p`, itself included. */
  function Visits(view: View, b: Node, max: nat, p: Path): (n: nat)
    requires p.Shaped()
    decreases max - |p.edges|, 0, 0
  {
    if p.Last() == b || |p.edges| >= max then 1
    else 1 + VisitsEach(view, b, max, p, Fresh(view.Next(p.Last()), p.nodes))
  }

  function VisitsEach(view: View, b: Node, max: nat, p: Path, hops: seq<Hop>): nat
    requires p.Shaped() && |p.edges| < max
    decreases max - |p.edges| - 1, 1, |hops|
  {
    if hops == [] then 0 else Visits(view, b, max, p.Extend(hops[0])) + VisitsEach(view, b, max, p, hops[1..])
  }

  function AllPaths(view: View, a: Node, b: Node, max: nat): seq<Path> { Below(view, b, max, Path([a], [])) }

  // ---- soundness and completeness ------------------------------------------------------------------------

  predicate Prolongs(p: Path, q: Path) { q.nodes <= p.nodes && q.edges <= p.edges }

  lemma {:induction false} FreshAre(hops: seq<Hop>, nodes: seq<Node>, h: Hop)
    ensures h in Fresh(hops, nodes) <==> h in hops && h.node !in nodes
    decreases |hops|
  {
    if hops != [] {
      FreshAre(hops[..|hops| - 1], nodes, h);
      assert hops == hops[..|hops| - 1] + [hops[|hops| - 1]];
    }
  }

  lemma {:induction false} ExtendSimple(view: View, a: Node, q: Path, h: Hop)
    requires Simple(view, a, q) && view.Step(q.Last(), h.edge, h.node) && h.node !in q.nodes
    ensures Simple(view, a, q.Extend(h))
  {
    var p := q.Extend(h);
    forall k | 0 <= k < |p.edges| ensures StepAt(view, p, k) {
      if k < |q.edges| { assert StepAt(view, q, k); }
    }
  }

  /** Found below `q` means: a wanted path that continues `q`. */
  lemma {:induction false} BelowIsSound(view: View, a: Node, b: Node, max: nat, q: Path, p: Path)
    requires Simple(view, a, q) && |q.edges| <= max && p in Below(view, b, max, q)
    ensures Wanted(view, a, b, max, p) && Prolongs(p, q)
    decreases max - |q.edges|, 0, 0
  {
    if q.Last() != b && |q.edges| < max {
      var hops := Fresh(view.Next(q.Last()), q.nodes);
      EachIsSound(view, a, b, max, q, hops, p);
    }
  }

  lemma {:induction false} EachIsSound(view: View, a: Node, b: Node, max: nat, q: Path, hops: seq<Hop>, p: Path)
    requires Simple(view, a, q) && |q.edges| < max && p in BelowEach(view, b, max, q, hops)
    requires forall h :: h in hops ==> h in Fresh(view.Next(q.Last()), q.nodes)
    ensures Wanted(view, a, b, max, p) && exists h :: h in hops && Prolongs(p, q.Extend(h))
    decreases max - |q.edges| - 1, 1, |hops|
  {
    var h := hops[0];
    assert h in hops;
    if p in Below(view, b, max, q.Extend(h)) {
      FreshAre(view.Next(q.Last()), q.nodes, h);
      NextIsStep(view, q.Last(), h.edge, h.node);
      ExtendSimple(view, a, q, h);
      BelowIsSound(view, a, b, max, q.Extend(h), p);
    } else {
      EachIsSound(view, a, b, max, q, hops[1..], p);
    }
  }

  /** Every wanted path that continues `q` is found below it. */
  lemma {:induction false} BelowIsComplete(view: View, a: Node, b: Node, max: nat, q: Path, p: Path)
    requires Simple(view, a, q) && Wanted(view, a, b, max, p) && Prolongs(p, q)
    ensures p in Below(view, b, max, q)
    decreases max - |q.edges|, 0, 0
  {
    var n := |q.edges|;
    if q.Last() == b {
      assert p.nodes[n] == b;
      assert p == q;
    } else {
      assert n < |p.edges|;
      var h := Hop(p.edges[n], p.nodes[n + 1]);
      assert StepAt(view, p, n) && p.nodes[n] == q.Last();
      NextIsStep(view, q.Last(), h.edge, h.node);
      FreshAre(view.Next(q.Last()), q.nodes, h);
      assert q.Extend(h).nodes == p.nodes[..n + 2] && q.Extend(h).edges == p.edges[..n + 1];
      EachIsComplete(view, a, b, max, q, Fresh(view.Next(q.Last()), q.nodes), h, p);
    }
  }

  lemma {:induction false} EachIsComplete(view: View, a: Node, b: Node, max: nat, q: Path, hops: seq<Hop>, h: Hop,
                                          p: Path)
    requires Simple(view, a, q) && |q.edges| < max && h in hops && view.Step(q.Last(), h.edge, h.node) &&
             h.node !in q.nodes
    requires Wanted(view, a, b, max, p) && Prolongs(p, q.Extend(h))
    ensures p in BelowEach(view, b, max, q, hops)
    decreases max - |q.edges| - 1, 1, |hops|
  {
    if h == hops[0] {
      ExtendSimple(view, a, q, h);
      BelowIsComplete(view, a, b, max, q.Extend(h), p);
    } else {
      assert hops == [hops[0]] + hops[1..];
      EachIsComplete(view, a, b, max, q, hops[1..], h, p);
    }
  }

  // ---- nothing is found twice ---------------------------------------------------------------------------------

  predicate NoDuplicates(ps: seq<Path>) { forall i, j :: 0 <= i < j < |ps| ==> ps[i] != ps[j] }

  lemma {:induction false} FreshRises(hops: seq<Hop>, nodes: seq<Node>)
    requires RisingHops(hops)
    ensures RisingHops(Fresh(hops, nodes))
    decreases |hops|
  {
    if hops != [] {
      var n := |hops| - 1;
      var before := Fresh(hops[..n], nodes);
      FreshRises(hops[..n], nodes);
      forall k | 0 <= k < |before| ensures before[k].edge < hops[n].edge {
        FreshAre(hops[..n], nodes, before[k]);
        var j :| 0 <= j < |hops[..n]| && hops[..n][j] == before[k];
        assert hops[j].edge < hops[n].edge;
      }
    }
  }

  lemma {:induction false} BelowIsDistinct(view: View, a: Node, b: Node, max: nat, q: Path)
    requires view.dir.Out? && Simple(view, a, q) && |q.edges| <= max
    ensures NoDuplicates(Below(view, b, max, q))
    decreases max - |q.edges|, 0, 0
  {
    if q.Last() != b && |q.edges| < max {
      var hops := Fresh(view.Next(q.Last()), q.nodes);
      OutHopsDistinct(view, q.Last());
      FreshRises(view.Next(q.Last()), q.nodes);
      EachIsDistinct(view, a, b, max, q, hops);
    }
  }

  lemma {:induction false} EachIsDistinct(view: View, a: Node, b: Node, max: nat, q: Path, hops: seq<Hop>)
    requires view.dir.Out? && Simple(view, a, q) && |q.edges| < max && RisingHops(hops)
    requires forall h :: h in hops ==> h in Fresh(view.Next(q.Last()), q.nodes)
    ensures NoDuplicates(BelowEach(view, b, max, q, hops))
    decreases max - |q.edges| - 1, 1, |hops|
  {
    if hops != [] {
      var h, n := hops[0], |q.edges|;
      assert h in hops;
      FreshAre(view.Next(q.Last()), q.nodes, h);
      NextIsStep(view, q.Last(), h.edge, h.node);
      ExtendSimple(view, a, q, h);
      BelowIsDistinct(view, a, b, max, q.Extend(h));
      EachIsDistinct(view, a, b, max, q, hops[1..]);
      var first, rest := Below(view, b, max, q.Extend(h)), BelowEach(view, b, max, q, hops[1..]);
      forall i, j | 0 <= i < |first| && 0 <= j < |rest| ensures first[i] != rest[j] {
        BelowIsSound(view, a, b, max, q.Extend(h), first[i]);
        EachIsSound(view, a, b, max, q, hops[1..], rest[j]);
        var g :| g in hops[1..] && Prolongs(rest[j], q.Extend(g));
        assert first[i].edges[n] == h.edge && rest[j].edges[n] == g.edge;
        var k :| 0 <= k < |hops[1..]| && hops[1..][k] == g;
        assert hops[0].edge < hops[k + 1].edge;
      }
    }
  }

  /** The enumeration is exactly the wanted paths, each once; paths along parallel edges are different paths. */
  lemma {:induction false} AllPathsAreTheSimplePaths(view: View, a: Node, b: Node, max: nat)
    requires view.dir.Out?
    ensures NoDuplicates(AllPaths(view, a, b, max))
    ensures forall p :: p in AllPaths(view, a, b, max) <==> Wanted(view, a, b, max, p)
  {
    var start := Path([a], []);
    assert Simple(view, a, start);
    BelowIsDistinct(view, a, b, max, start);
    forall p ensures p in AllPaths(view, a, b, max) <==> Wanted(view, a, b, max, p) {
      if p in AllPaths(view, a, b, max) { BelowIsSound(view, a, b, max, start, p); }
      if Wanted(view, a, b, max, p) { BelowIsComplete(view, a, b, max, start, p); }
    }
  }

  // ---- the stack ------------------------------------------------------------------------------------------------

  predicate Stacked(stack: seq<Path>, max: nat) {
    forall k :: 0 <= k < |stack| ==> stack[k].Shaped() && |stack[k].edges| <= max
  }

  /** What is still to be found, from the top of the stack down. */
  ghost function Rest(view: View, b: Node, max: nat, stack: seq<Path>): seq<Path>
    requires Stacked(stack, max)
  {
    if stack == [] then [] else Below(view, b, max, stack[|stack| - 1]) + Rest(view, b, max, stack[..|stack| - 1])
  }

  ghost function RestVisits(view: View, b: Node, max: nat, stack: seq<Path>): nat
    requires Stacked(stack, max)
  {
    if stack == [] then 0 else Visits(view, b, max, stack[|stack| - 1]) + RestVisits(view, b, max, stack[..|stack| - 1])
  }

  lemma {:induction false} PushTop(view: View, b: Node, max: nat, stack: seq<Path>, p: Path)
    requires Stacked(stack, max) && p.Shaped() && |p.edges| <= max
    ensures Rest(view, b, max, stack + [p]) == Below(view, b, max, p) + Rest(view, b, max, stack)
    ensures RestVisits(view, b, max, stack + [p]) == Visits(view, b, max, p) + RestVisits(view, b, max, stack)
  {
    assert (stack + [p])[..|stack|] == stack;
  }

  /** What popping the top commits the search to. */
  lemma {:induction false} PopTop(view: View, b: Node, max: nat, stack: seq<Path>)
    requires Stacked(stack, max) && stack != []
    ensures var p, rest := stack[|stack| - 1], stack[..|stack| - 1];
            if p.Last() == b then
              Rest(view, b, max, stack) == [p] + Rest(view, b, max, rest) &&
              RestVisits(view, b, max, stack) == 1 + RestVisits(view, b, max, rest)
            else if |p.edges| >= max then
              Rest(view, b, max, stack) == Rest(view, b, max, rest) &&
              RestVisits(view, b, max, stack) == 1 + RestVisits(view, b, max, rest)
            else
              var hops := Fresh(view.Next(p.Last()), p.nodes);
              Rest(view, b, max, stack) == BelowEach(view, b, max, p, hops) + Rest(view, b, max, rest) &&
              RestVisits(view, b, max, stack) == 1 + VisitsEach(view, b, max, p, hops) + RestVisits(view, b, max, rest)
  {
  }

  /** The stack holds the continuations `hops` of `p` above `below`. */
  ghost predicate Pushed(view: View, b: Node, max: nat, stack: seq<Path>, p: Path, hops: seq<Hop>, below: seq<Path>)
    requires p.Shaped() && |p.edges| < max && Stacked(below, max)
  {
    Stacked(stack, max) &&
    Rest(view, b, max, stack) == BelowEach(view, b, max, p, hops) + Rest(view, b, max, below) &&
    RestVisits(view, b, max, stack) == VisitsEach(view, b, max, p, hops) + RestVisits(view, b, max, below)
  }

  lemma {:induction false} PushOneMore(view: View, b: Node, max: nat, stack: seq<Path>, p: Path, h: Hop, hops: seq<Hop>,
                                       below: seq<Path>)
    requires p.Shaped() && |p.edges| < max && Stacked(below, max) && Pushed(view, b, max, stack, p, hops, below)
    ensures Pushed(view, b, max, stack + [p.Extend(h)], p, [h] + hops, below)
  {
    PushTop(view, b, max, stack, p.Extend(h));
    FirstOfEach(view, b, max, p, h, hops);
    Reassociate(Below(view, b, max, p.Extend(h)), BelowEach(view, b, max, p, hops), Rest(view, b, max, below));
  }

  lemma {:induction false} FirstOfEach(view: View, b: Node, max: nat, p: Path, h: Hop, hops: seq<Hop>)
    requires p.Shaped() && |p.edges| < max
    ensures BelowEach(view, b, max, p, [h] + hops) ==
            Below(view, b, max, p.Extend(h)) + BelowEach(view, b, max, p, hops)
    ensures VisitsEach(view, b, max, p, [h] + hops) ==
            Visits(view, b, max, p.Extend(h)) + VisitsEach(view, b, max, p, hops)
  {
    assert ([h] + hops)[1..] == hops;
  }

  lemma {:induction false} Reassociate(x: seq<Path>, y: seq<Path>, z: seq<Path>)
    ensures x + (y + z) == (x + y) + z
  {
  }

  /** Pushes the fresh continuations of `p`, last first, so that the first is on top. */
  method PushAll(ghost view: View, ghost b: Node, ghost max: nat, stack0: seq<Path>, p: Path, hops: seq<Hop>)
    returns (stack: seq<Path>)
    requires Stacked(stack0, max) && p.Shaped() && |p.edges| < max
    ensures Pushed(view, b, max, stack, p, hops, stack0)
  {
    stack := stack0;
    var k := |hops|;
    assert hops[k..] == [];
    while k > 0
      invariant 0 <= k <= |hops| && Pushed(view, b, max, stack, p, hops[k..], stack0)
    {
      k := k - 1;
      assert hops[k..] == [hops[k]] + hops[k + 1..];
      PushOneMore(view, b, max, stack, p, hops[k], hops[k + 1..], stack0);
      stack := stack + [p.Extend(hops[k])];
    }
    assert hops[0..] == hops;
  }

  const BUDGET: nat := 20000

  /** Found so far plus still to be found is everything; visits so far plus visits to come is the total. */
  ghost predicate Progress(view: View, a: Node, b: Node, max: nat, stack: seq<Path>, found: seq<Path>, visits: nat) {
    Stacked(stack, max) &&
    found + Rest(view, b, max, stack) == AllPaths(view, a, b, max) &&
    visits + RestVisits(view, b, max, stack) == Visits(view, b, max, Path([a], []))
  }

  lemma {:induction false} FoundOne(view: View, a: Node, b: Node, max: nat, stack: seq<Path>, found: seq<Path>,
                                    visits: nat)
    requires Progress(view, a, b, max, stack, found, visits) && stack != [] && stack[|stack| - 1].Last() == b
    ensures Progress(view, a, b, max, stack[..|stack| - 1], found + [stack[|stack| - 1]], visits + 1)
  {
    PopTop(view, b, max, stack);
    var p, rest := stack[|stack| - 1], stack[..|stack| - 1];
    assert found + ([p] + Rest(view, b, max, rest)) == (found + [p]) + Rest(view, b, max, rest);
  }

  /** Takes the top off the stack; below the bound its fresh continuations replace it. */
  method GoDeeper(ix: GraphIndex, view: View, ghost a: Node, b: Node, max: nat, stack0: seq<Path>,
                  ghost found: seq<Path>, ghost visits: nat)
    returns (stack: seq<Path>)
    requires ix.Valid() && view.g == ix.g
    requires Progress(view, a, b, max, stack0, found, visits) && stack0 != [] && stack0[|stack0| - 1].Last() != b
    ensures Progress(view, a, b, max, stack, found, visits + 1)
  {
    var p, rest := stack0[|stack0| - 1], stack0[..|stack0| - 1];
    PopTop(view, b, max, stack0);
    if |p.edges| >= max { return rest; }
    var hops := ix.Neighbors(p.Last(), view);
    stack := PushAll(view, b, max, rest, p, Fresh(hops, p.nodes));
  }

  /** The search proper.  It stops early when it has `limit` paths, or when it takes its 20000th visit. */
  method Enumerate(ix: GraphIndex, view: View, a: Node, b: Node, max: nat, limit: nat)
    returns (found: seq<Path>, truncated: bool, exhausted: bool)
    requires ix.Valid() && view.g == ix.g && limit >= 1
    ensures found <= AllPaths(view, a, b, max) && |found| <= limit
    ensures !truncated ==> found == AllPaths(view, a, b, max)
    ensures truncated <==> |AllPaths(view, a, b, max)| >= limit || Visits(view, b, max, Path([a], [])) >= BUDGET
    ensures exhausted ==> truncated && Visits(view, b, max, Path([a], [])) >= BUDGET
    ensures truncated && !exhausted ==> |found| == limit
  {
    found, truncated, exhausted := [], false, false;
    var visits: nat := 0;
    var stack := [Path([a], [])];
    StartsWhole(view, a, b, max);
    while stack != []
      invariant Progress(view, a, b, max, stack, found, visits)
      invariant |found| < limit && visits < BUDGET && !truncated && !exhausted
      decreases BUDGET - visits
    {
      SomethingLeft(view, b, max, stack);
      if visits + 1 >= BUDGET {
        truncated, exhausted := true, true;
        return;
      }
      var p := stack[|stack| - 1];
      if p.Last() == b {
        FoundOne(view, a, b, max, stack, found, visits);
        found, stack := found + [p], stack[..|stack| - 1];
        if |found| >= limit {
          truncated := true;
          return;
        }
      } else {
        stack := GoDeeper(ix, view, a, b, max, stack, found, visits);
      }
      visits := visits + 1;
    }
    assert found + [] == found;
  }

  lemma {:induction false} SomethingLeft(view: View, b: Node, max: nat, stack: seq<Path>)
    requires Stacked(stack, max) && stack != []
    ensures RestVisits(view, b, max, stack) >= 1
  {
  }

  lemma {:induction false} StartsWhole(view: View, a: Node, b: Node, max: nat)
    ensures Stacked([Path([a], [])], max)
    ensures [] + Rest(view, b, max, [Path([a], [])]) == AllPaths(view, a, b, max)
    ensures RestVisits(view, b, max, [Path([a], [])]) == Visits(view, b, max, Path([a], []))
  {
    PushTop(view, b, max, [], Path([a], []));
    assert [] + [Path([a], [])] == [Path([a], [])];
  }

  // ---- which paths come first ----------------------------------------------------------------------------------

  /** At the first step in which they differ, one takes an edge that stands before the other's in the snapshot. */
  ghost predicate EdgesBefore(s: seq<nat>, t: seq<nat>) {
    exists n: nat :: n < |s| && n < |t| && s[..n] == t[..n] && s[n] < t[n]
  }

  ghost predicate InEdgeOrder(ps: seq<Path>) {
    forall i, j :: 0 <= i < j < |ps| ==> EdgesBefore(ps[i].edges, ps[j].edges)
  }

  /** Each of these goes on from `q` along one of the hops. */
  ghost predicate GoOn(ps: seq<Path>, q: Path, hops: seq<Hop>) {
    forall i :: 0 <= i < |ps| ==> GoesOn(ps[i], q, hops)
  }

  predicate GoesOn(p: Path, q: Path, hops: seq<Hop>) {
    |p.edges| > |q.edges| && p.edges[..|q.edges|] == q.edges &&
    exists k :: 0 <= k < |hops| && hops[k].edge == p.edges[|q.edges|]
  }

  /** Followed forwards, the paths below `q` all begin like it, and come in the order of their edges. */
  lemma {:induction false} BelowInOrder(view: View, b: Node, max: nat, q: Path)
    requires q.Shaped() && view.dir.Out?
    ensures var ps := Below(view, b, max, q);
            InEdgeOrder(ps) && forall i :: 0 <= i < |ps| ==> q.edges <= ps[i].edges
    decreases max - |q.edges|, 0, 0
  {
    if q.Last() != b && |q.edges| < max {
      var hops := Fresh(view.Next(q.Last()), q.nodes);
      OutHopsDistinct(view, q.Last());
      FreshRises(view.Next(q.Last()), q.nodes);
      EachInOrder(view, b, max, q, hops);
      var ps := BelowEach(view, b, max, q, hops);
      forall i | 0 <= i < |ps| ensures q.edges <= ps[i].edges { assert GoesOn(ps[i], q, hops); }
    }
  }

  lemma {:induction false} EachInOrder(view: View, b: Node, max: nat, q: Path, hops: seq<Hop>)
    requires q.Shaped() && |q.edges| < max && view.dir.Out? && RisingHops(hops)
    ensures var ps := BelowEach(view, b, max, q, hops); InEdgeOrder(ps) && GoOn(ps, q, hops)
    decreases max - |q.edges| - 1, 1, |hops|
  {
    if hops != [] {
      var first, rest := Below(view, b, max, q.Extend(hops[0])), BelowEach(view, b, max, q, hops[1..]);
      BelowInOrder(view, b, max, q.Extend(hops[0]));
      EachInOrder(view, b, max, q, hops[1..]);
      JoinInOrder(q, hops, first, rest);
    }
  }

  /** The paths along the first hop, and then those along the others. */
  lemma {:induction false} JoinInOrder(q: Path, hops: seq<Hop>, first: seq<Path>, rest: seq<Path>)
    requires hops != [] && RisingHops(hops) && InEdgeOrder(first) && InEdgeOrder(rest) && GoOn(rest, q, hops[1..])
    requires forall i :: 0 <= i < |first| ==> q.edges + [hops[0].edge] <= first[i].edges
    ensures InEdgeOrder(first + rest) && GoOn(first + rest, q, hops)
  {
    var n, ps := |q.edges|, first + rest;
    forall i | 0 <= i < |first| ensures GoesOn(first[i], q, hops) && first[i].edges[n] == hops[0].edge {
      assert first[i].edges[..n + 1] == q.edges + [hops[0].edge];
      assert first[i].edges[..n] == q.edges && first[i].edges[n] == hops[0].edge;
    }
    forall i | 0 <= i < |rest| ensures GoesOn(rest[i], q, hops) && rest[i].edges[n] > hops[0].edge {
      assert GoesOn(rest[i], q, hops[1..]);
      var k :| 0 <= k < |hops[1..]| && hops[1..][k].edge == rest[i].edges[n];
      assert hops[k + 1].edge == rest[i].edges[n];
    }
    forall i, j | 0 <= i < j < |ps| ensures EdgesBefore(ps[i].edges, ps[j].edges) {
      if i < |first| <= j {
        var s, t := first[i].edges, rest[j - |first|].edges;
        assert GoesOn(first[i], q, hops) && GoesOn(rest[j - |first|], q, hops);
        assert s[..n] == t[..n] && s[n] < t[n];
      }
    }
  }

  // ---- the final order -------------------------------------------------------------------------------------------

  /** Python's order on strings and on lists of strings. */
  predicate TextBefore(s: string, t: string) {
    t != [] && (s == [] || s[0] < t[0] || (s[0] == t[0] && TextBefore(s[1..], t[1..])))
  }

  predicate NodesBefore(s: seq<Node>, t: seq<Node>) {
    t != [] && (s == [] || TextBefore(s[0], t[0]) || (s[0] == t[0] && NodesBefore(s[1..], t[1..])))
  }

  predicate PathBefore(p: Path, q: Path) {
    |p.edges| < |q.edges| || (|p.edges| == |q.edges| && NodesBefore(p.nodes, q.nodes))
  }

  lemma {:induction false} TextAsymmetric(s: string, t: string)
    requires TextBefore(s, t)
    ensures !TextBefore(t, s) && s != t
    decreases |s|
  {
    if s != [] && s[0] == t[0] {
      TextAsymmetric(s[1..], t[1..]);
    }
  }

  lemma {:induction false} NodesAsymmetric(s: seq<Node>, t: seq<Node>)
    requires NodesBefore(s, t)
    ensures !NodesBefore(t, s)
    decreases |s|
  {
    if s != [] {
      if TextBefore(s[0], t[0]) { TextAsymmetric(s[0], t[0]); }
      else { NodesAsymmetric(s[1..], t[1..]); }
    }
  }

  /** Stable insertion from the right, as a stable sort places one more element. */
  function Insert(ps: seq<Path>, p: Path): seq<Path> {
    if ps != [] && PathBefore(p, ps[|ps| - 1]) then Insert(ps[..|ps| - 1], p) + [ps[|ps| - 1]] else ps + [p]
  }

  function Sorted(ps: seq<Path>): seq<Path> { if ps == [] then [] else Insert(Sorted(ps[..|ps| - 1]), ps[|ps| - 1]) }

  predicate InOrder(ps: seq<Path>) { forall k {:trigger OrderedAt(ps, k)} :: 0 <= k < |ps| - 1 ==> OrderedAt(ps, k) }

  predicate OrderedAt(ps: seq<Path>, k: nat)
    requires k + 1 < |ps|
  {
    !PathBefore(ps[k + 1], ps[k])
  }

  lemma {:induction false} InsertPermutes(ps: seq<Path>, p: Path)
    ensures multiset(Insert(ps, p)) == multiset(ps) + multiset{p}
    decreases |ps|
  {
    if ps != [] && PathBefore(p, ps[|ps| - 1]) {
      InsertPermutes(ps[..|ps| - 1], p);
      MultisetSnoc(ps);
    }
  }

  lemma {:induction false} InsertOrders(ps: seq<Path>, p: Path)
    requires InOrder(ps)
    ensures InOrder(Insert(ps, p)) && |Insert(ps, p)| == |ps| + 1
    ensures Insert(ps, p)[|ps|] == if ps != [] && PathBefore(p, ps[|ps| - 1]) then ps[|ps| - 1] else p
    decreases |ps|
  {
    var r := Insert(ps, p);
    if ps != [] && PathBefore(p, ps[|ps| - 1]) {
      var n := |ps| - 1;
      assert InOrder(ps[..n]) by {
        forall k | 0 <= k < n - 1 ensures OrderedAt(ps[..n], k) { assert OrderedAt(ps, k); }
      }
      InsertOrders(ps[..n], p);
      BeforeIsAsymmetric(p, ps[n]);
      assert n > 0 ==> OrderedAt(ps, n - 1);
      forall k | 0 <= k < |r| - 1 ensures OrderedAt(r, k) {
        if k < n { assert OrderedAt(Insert(ps[..n], p), k); }
      }
    } else {
      forall k | 0 <= k < |r| - 1 ensures OrderedAt(r, k) {
        if k < |ps| - 1 { assert OrderedAt(ps, k); }
      }
    }
  }

  lemma {:induction false} BeforeIsAsymmetric(p: Path, q: Path)
    requires PathBefore(p, q)
    ensures !PathBefore(q, p)
  {
    if |p.edges| == |q.edges| { NodesAsymmetric(p.nodes, q.nodes); }
  }

  lemma {:induction false} MultisetSnoc(ps: seq<Path>)
    requires ps != []
    ensures multiset(ps) == multiset(ps[..|ps| - 1]) + multiset{ps[|ps| - 1]}
  {
    assert ps == ps[..|ps| - 1] + [ps[|ps| - 1]];
  }

  /** The answer is the same paths, ... */
  lemma {:induction false} SortedPermutes(ps: seq<Path>)
    ensures multiset(Sorted(ps)) == multiset(ps)
    decreases |ps|
  {
    if ps != [] {
      SortedPermutes(ps[..|ps| - 1]);
      InsertPermutes(Sorted(ps[..|ps| - 1]), ps[|ps| - 1]);
      MultisetSnoc(ps);
    }
  }

  /** ... by number of hops and then by their nodes. */
  lemma {:induction false} SortedOrders(ps: seq<Path>)
    ensures InOrder(Sorted(ps))
    decreases |ps|
  {
    if ps != [] {
      SortedOrders(ps[..|ps| - 1]);
      InsertOrders(Sorted(ps[..|ps| - 1]), ps[|ps| - 1]);
    }
  }

  // ---- the capability ---------------------------------------------------------------------------------------------

  datatype Answer = UnknownNode | Answer(found: seq<Path>, truncated: bool, exhausted: bool)

  /** `max(1, min(int(max_hops or 6), 8))`. */
  function ClampHops(maxHops: int): nat {
    var h := if maxHops == 0 then 6 else maxHops;
    if h > 8 then 8 else if h < 1 then 1 else h
  }

  /** Only simple paths, never one twice; all of them when not truncated; and truncated exactly when there are at least
      `limit` of them or the search takes 20000 visits.  Those left out come, in the order of their edges, after all
      that are found. */
  method FindPaths(ix: GraphIndex, a: Node, b: Node, maxHops: int, limit: Option<int>, types: Option<seq<string>>)
    returns (r: Answer)
    requires ix.Valid()
    ensures r.UnknownNode? <==> a !in ix.g.kinds || b !in ix.g.kinds
    ensures r.Answer? ==>
              var view := View(ix.g, Out, types, None);
              var max := ClampHops(maxHops);
              InOrder(r.found) && ByLengthThenNodes(r.found) && |r.found| <= ClampLimit(limit) &&
              (forall p :: multiset(r.found)[p] <= if Wanted(view, a, b, max, p) then 1 else 0) &&
              (!r.truncated ==> forall p :: multiset(r.found)[p] == if Wanted(view, a, b, max, p) then 1 else 0) &&
              (r.truncated <==>
                |AllPaths(view, a, b, max)| >= ClampLimit(limit) || Visits(view, b, max, Path([a], [])) >= 20000) &&
              (r.exhausted ==> r.truncated && Visits(view, b, max, Path([a], [])) >= 20000) &&
              (r.truncated && !r.exhausted ==> |r.found| == ClampLimit(limit)) &&
              ComeFirst(view, a, b, max, r.found)
  {
    if a !in ix.g.kinds || b !in ix.g.kinds { return UnknownNode; }
    var view := View(ix.g, Out, types, None);
    var found, truncated, exhausted := Enumerate(ix, view, a, b, ClampHops(maxHops), ClampLimit(limit));
    ghost var all := AllPaths(view, a, b, ClampHops(maxHops));
    AllPathsAreTheSimplePaths(view, a, b, ClampHops(maxHops));
    SortedPermutes(found);
    SortedOrders(found);
    OrderIs(Sorted(found));
    assert |Sorted(found)| == |multiset(Sorted(found))| == |multiset(found)| == |found|;
    EachAtMostOnce(all, found);
    BelowInOrder(view, b, ClampHops(maxHops), Path([a], []));
    LeftOutComeLater(view, a, b, ClampHops(maxHops), all, found, Sorted(found));
    r := Answer(Sorted(found), truncated, exhausted);
  }

  /** Shorter paths first, and among equally long ones those whose nodes come first. */
  predicate ByLengthThenNodes(ps: seq<Path>) {
    forall k :: 0 <= k < |ps| - 1 ==>
      |ps[k].edges| < |ps[k + 1].edges| ||
      (|ps[k].edges| == |ps[k + 1].edges| && !NodesBefore(ps[k + 1].nodes, ps[k].nodes))
  }

  lemma {:induction false} OrderIs(ps: seq<Path>)
    requires InOrder(ps)
    ensures ByLengthThenNodes(ps)
  {
    forall k | 0 <= k < |ps| - 1
      ensures |ps[k].edges| < |ps[k + 1].edges| ||
              (|ps[k].edges| == |ps[k + 1].edges| && !NodesBefore(ps[k + 1].nodes, ps[k].nodes))
    {
      assert OrderedAt(ps, k);
    }
  }

  /** Every wanted path that is not among these comes after all of them. */
  ghost predicate ComeFirst(view: View, a: Node, b: Node, max: nat, ps: seq<Path>) {
    forall p, w :: p in ps && Wanted(view, a, b, max, w) && w !in ps ==> EdgesBefore(p.edges, w.edges)
  }

  lemma {:induction false} LeftOutComeLater(view: View, a: Node, b: Node, max: nat, all: seq<Path>, found: seq<Path>,
                                            answer: seq<Path>)
    requires InEdgeOrder(all) && found <= all && multiset(answer) == multiset(found)
    requires forall w :: Wanted(view, a, b, max, w) ==> w in all
    ensures ComeFirst(view, a, b, max, answer)
  {
    FoundComeFirst(all, found);
    forall p ensures p in answer <==> p in found {
      assert p in answer <==> p in multiset(answer);
      assert p in found <==> p in multiset(found);
    }
  }

  lemma {:induction false} FoundComeFirst(all: seq<Path>, found: seq<Path>)
    requires InEdgeOrder(all) && found <= all
    ensures forall p, w :: p in found && w in all && w !in found ==> EdgesBefore(p.edges, w.edges)
  {
    forall p, w | p in found && w in all && w !in found ensures EdgesBefore(p.edges, w.edges) {
      var i :| 0 <= i < |found| && found[i] == p;
      var j :| 0 <= j < |all| && all[j] == w;
      assert all[i] == found[i];
      assert forall k :: 0 <= k < |found| ==> found[k] == all[k];
    }
  }

  /** The bound on hops is between one and eight, six by default, and the one asked for when it can be. */
  lemma {:induction false} HopsAreClamped(maxHops: int)
    ensures 1 <= ClampHops(maxHops) <= 8 && ClampHops(0) == 6 && (1 <= maxHops <= 8 ==> ClampHops(maxHops) == maxHops)
    ensures maxHops > 8 ==> ClampHops(maxHops) == 8
    ensures maxHops < 0 ==> ClampHops(maxHops) == 1
  {
  }

  lemma {:induction false} EachAtMostOnce(all: seq<Path>, found: seq<Path>)
    requires NoDuplicates(all) && found <= all
    ensures forall p :: multiset(found)[p] <= if p in all then 1 else 0
    ensures found == all ==> forall p :: multiset(found)[p] == if p in all then 1 else 0
  {
    assert all == found + all[|found|..];
    forall p: Path ensures multiset(found)[p] <= multiset(all)[p] && multiset(all)[p] == (if p in all then 1 else 0) {
      OnceEach(all, p);
    }
  }

  lemma {:induction false} OnceEach(ps: seq<Path>, p: Path)
    requires NoDuplicates(ps)
    ensures multiset(ps)[p] == if p in ps then 1 else 0
    decreases |ps|
  {
    if ps != [] {
      assert ps == ps[..|ps| - 1] + [ps[|ps| - 1]];
      OnceEach(ps[..|ps| - 1], p);
    }
  }
}
