/**
 Deriving a focused profile (twinfactory/profiles.py): services are pulled in by rules until a pass adds nothing, then
 every promoted role keeps one variant (rule R12).  The rule lookups are a function from a service to what it pulls in.
 */
module Profiles {
  import opened Options
  import opened Sets

  datatype Pull = Pull(target: string, why: string)

  /** A line of the trace: the service whose rule it was, or None for a seed and for R12. */
  datatype Reason = Reason(source: Option<string>, why: string)

  /** The services in the order they were added, and why each was added, again and again. */
  datatype Acc = Acc(services: seq<string>, trace: map<string, seq<Reason>>)

  function Note(trace: map<string, seq<Reason>>, s: string, r: Reason): map<string, seq<Reason>> {
    trace[s := (if s in trace then trace[s] else []) + [r]]
  }

  /** A target without a recipe is ignored; a known one is only traced. */
  function Add(recipes: set<string>, a: Acc, source: Option<string>, p: Pull): Acc {
    if p.target !in recipes then a
    else
      Acc(if p.target in a.services then a.services else a.services + [p.target],
          Note(a.trace, p.target, Reason(source, p.why)))
  }

  function AddAll(recipes: set<string>, a: Acc, source: Option<string>, pulls: seq<Pull>): Acc
    decreases |pulls|
  {
    if pulls == [] then a else AddAll(recipes, Add(recipes, a, source, pulls[0]), source, pulls[1..])
  }

  /** One pass over the services known when it began. */
  function Pass(recipes: set<string>, rules: string -> seq<Pull>, a: Acc, todo: seq<string>): Acc
    decreases |todo|
  {
    if todo == [] then a else Pass(recipes, rules, AddAll(recipes, a, Some(todo[0]), rules(todo[0])), todo[1..])
  }

  function NextPass(recipes: set<string>, rules: string -> seq<Pull>, a: Acc): Acc {
    Pass(recipes, rules, a, a.services)
  }

  /** The services are distinct and have recipes. */
  predicate Ok(recipes: set<string>, a: Acc) {
    (forall i, j :: 0 <= i < j < |a.services| ==> a.services[i] != a.services[j]) &&
      forall s <- a.services :: s in recipes
  }

  function Names(services: seq<string>): set<string> { set s <- services }

  function Close(recipes: set<string>, rules: string -> seq<Pull>, a: Acc): Acc
    requires Ok(recipes, a)
    decreases |recipes| - |a.services|
  {
    var b := NextPass(recipes, rules, a);
    PassGrows(recipes, rules, a, a.services);
    AtMostRecipes(recipes, b);
    if |b.services| == |a.services| then b else Close(recipes, rules, b)
  }

  function Passes(recipes: set<string>, rules: string -> seq<Pull>, a: Acc): nat
    requires Ok(recipes, a)
    decreases |recipes| - |a.services|
  {
    var b := NextPass(recipes, rules, a);
    PassGrows(recipes, rules, a, a.services);
    AtMostRecipes(recipes, b);
    1 + if |b.services| == |a.services| then 0 else Passes(recipes, rules, b)
  }

  function Derive(recipes: set<string>, seeds: seq<Pull>, rules: string -> seq<Pull>): Acc {
    var a := AddAll(recipes, Acc([], map[]), None, seeds);
    AddAllGrows(recipes, Acc([], map[]), None, seeds);
    Close(recipes, rules, a)
  }

  // ---- growth ------------------------------------------------------------------------------------

  lemma {:induction false} AddAllGrows(recipes: set<string>, a: Acc, source: Option<string>, pulls: seq<Pull>)
    requires Ok(recipes, a)
    ensures var b := AddAll(recipes, a, source, pulls); Ok(recipes, b) && a.services <= b.services
    decreases |pulls|
  {
    if pulls != [] { AddAllGrows(recipes, Add(recipes, a, source, pulls[0]), source, pulls[1..]); }
  }

  lemma {:induction false} PassGrows(recipes: set<string>, rules: string -> seq<Pull>, a: Acc, todo: seq<string>)
    requires Ok(recipes, a)
    ensures var b := Pass(recipes, rules, a, todo); Ok(recipes, b) && a.services <= b.services
    decreases |todo|
  {
    if todo != [] {
      AddAllGrows(recipes, a, Some(todo[0]), rules(todo[0]));
      PassGrows(recipes, rules, AddAll(recipes, a, Some(todo[0]), rules(todo[0])), todo[1..]);
    }
  }

  lemma {:induction false} DistinctCount(services: seq<string>)
    requires forall i, j :: 0 <= i < j < |services| ==> services[i] != services[j]
    ensures |Names(services)| == |services|
    decreases |services|
  {
    if services != [] {
      DistinctCount(services[1..]);
      assert Names(services) == {services[0]} + Names(services[1..]);
      assert services[0] !in services[1..];
    }
  }

  lemma {:induction false} AtMostRecipes(recipes: set<string>, a: Acc)
    requires Ok(recipes, a)
    ensures |a.services| <= |recipes|
  {
    DistinctCount(a.services);
    SubsetSize(Names(a.services), recipes);
  }

  /** Every pass but the last adds a service, so there are at most one more passes than recipes without a seed. */
  lemma {:induction false} PassesAreBounded(recipes: set<string>, rules: string -> seq<Pull>, a: Acc)
    requires Ok(recipes, a)
    ensures Passes(recipes, rules, a) <= |recipes| - |a.services| + 1
    decreases |recipes| - |a.services|
  {
    var b := NextPass(recipes, rules, a);
    PassGrows(recipes, rules, a, a.services);
    AtMostRecipes(recipes, a);
    AtMostRecipes(recipes, b);
    if |b.services| != |a.services| { PassesAreBounded(recipes, rules, b); }
  }

  // ---- the least fixed point -----------------------------------------------------------------------

  /** `set` holds every target with a recipe that these pulls name. */
  predicate Holds(recipes: set<string>, services: set<string>, pulls: seq<Pull>) {
    forall p <- pulls :: p.target in recipes ==> p.target in services
  }

  predicate Closed(recipes: set<string>, seeds: seq<Pull>, rules: string -> seq<Pull>, services: set<string>) {
    Holds(recipes, services, seeds) && forall s <- services :: Holds(recipes, services, rules(s))
  }

  /** The least set closed under the rules. */
  ghost predicate IsClosure(recipes: set<string>, seeds: seq<Pull>, rules: string -> seq<Pull>, services: set<string>) {
    Closed(recipes, seeds, rules, services) &&
      forall other :: Closed(recipes, seeds, rules, other) ==> services <= other
  }

  lemma {:induction false} AddAllStays(recipes: set<string>, a: Acc, source: Option<string>, pulls: seq<Pull>,
                                       bound: set<string>)
    requires Names(a.services) <= bound && Holds(recipes, bound, pulls)
    ensures Names(AddAll(recipes, a, source, pulls).services) <= bound
    decreases |pulls|
  {
    if pulls != [] {
      assert pulls[0] in pulls;
      AddAllStays(recipes, Add(recipes, a, source, pulls[0]), source, pulls[1..], bound);
    }
  }

  lemma {:induction false} PassStays(recipes: set<string>, rules: string -> seq<Pull>, a: Acc, todo: seq<string>,
                                     bound: set<string>)
    requires Names(a.services) <= bound && forall s <- todo :: Holds(recipes, bound, rules(s))
    ensures Names(Pass(recipes, rules, a, todo).services) <= bound
    decreases |todo|
  {
    if todo != [] {
      assert todo[0] in todo;
      AddAllStays(recipes, a, Some(todo[0]), rules(todo[0]), bound);
      PassStays(recipes, rules, AddAll(recipes, a, Some(todo[0]), rules(todo[0])), todo[1..], bound);
    }
  }

  lemma {:induction false} CloseStays(recipes: set<string>, seeds: seq<Pull>, rules: string -> seq<Pull>, a: Acc,
                                      bound: set<string>)
    requires Ok(recipes, a) && Names(a.services) <= bound && Closed(recipes, seeds, rules, bound)
    ensures Names(Close(recipes, rules, a).services) <= bound
    decreases |recipes| - |a.services|
  {
    var b := NextPass(recipes, rules, a);
    PassGrows(recipes, rules, a, a.services);
    AtMostRecipes(recipes, b);
    forall s | s in a.services ensures Holds(recipes, bound, rules(s)) { assert s in Names(a.services); }
    PassStays(recipes, rules, a, a.services, bound);
    if |b.services| != |a.services| { CloseStays(recipes, seeds, rules, b, bound); }
  }

  lemma {:induction false} AddAllCovers(recipes: set<string>, a: Acc, source: Option<string>, pulls: seq<Pull>)
    requires Ok(recipes, a)
    ensures Holds(recipes, Names(AddAll(recipes, a, source, pulls).services), pulls)
    decreases |pulls|
  {
    if pulls != [] {
      var b := Add(recipes, a, source, pulls[0]);
      AddAllCovers(recipes, b, source, pulls[1..]);
      AddAllGrows(recipes, b, source, pulls[1..]);
      var c := AddAll(recipes, b, source, pulls[1..]);
      assert forall s <- b.services :: s in c.services;
    }
  }

  lemma {:induction false} PassCovers(recipes: set<string>, rules: string -> seq<Pull>, a: Acc, todo: seq<string>)
    requires Ok(recipes, a)
    ensures forall s <- todo :: Holds(recipes, Names(Pass(recipes, rules, a, todo).services), rules(s))
    decreases |todo|
  {
    if todo != [] {
      var b := AddAll(recipes, a, Some(todo[0]), rules(todo[0]));
      AddAllGrows(recipes, a, Some(todo[0]), rules(todo[0]));
      AddAllCovers(recipes, a, Some(todo[0]), rules(todo[0]));
      PassCovers(recipes, rules, b, todo[1..]);
      PassGrows(recipes, rules, b, todo[1..]);
      assert forall s <- b.services :: s in Pass(recipes, rules, b, todo[1..]).services;
    }
  }

  /** When the loop ends the last pass has changed nothing but the trace. */
  lemma {:induction false} CloseCovers(recipes: set<string>, rules: string -> seq<Pull>, a: Acc)
    requires Ok(recipes, a)
    ensures var c := Close(recipes, rules, a);
            Ok(recipes, c) && a.services <= c.services &&
              forall s <- c.services :: Holds(recipes, Names(c.services), rules(s))
    decreases |recipes| - |a.services|
  {
    var b := NextPass(recipes, rules, a);
    PassGrows(recipes, rules, a, a.services);
    AtMostRecipes(recipes, b);
    if |b.services| != |a.services| {
      CloseCovers(recipes, rules, b);
    } else {
      PassCovers(recipes, rules, a, a.services);
      assert a.services == b.services;
    }
  }

  /** The derived services are the least fixed point of the rules. */
  lemma {:induction false} DerivedIsClosure(recipes: set<string>, seeds: seq<Pull>, rules: string -> seq<Pull>)
    ensures IsClosure(recipes, seeds, rules, Names(Derive(recipes, seeds, rules).services))
  {
    var empty := Acc([], map[]);
    var a := AddAll(recipes, empty, None, seeds);
    AddAllGrows(recipes, empty, None, seeds);
    var c := Close(recipes, rules, a);
    AddAllCovers(recipes, empty, None, seeds);
    CloseCovers(recipes, rules, a);
    assert forall s <- a.services :: s in c.services;
    forall bound | Closed(recipes, seeds, rules, bound) ensures Names(c.services) <= bound {
      AddAllStays(recipes, empty, None, seeds, bound);
      CloseStays(recipes, seeds, rules, a, bound);
    }
  }

  /** The order in which seeds and rules are tried does not matter. */
  lemma {:induction false} OrderDoesNotMatter(recipes: set<string>, seeds1: seq<Pull>, rules1: string -> seq<Pull>,
                                              seeds2: seq<Pull>, rules2: string -> seq<Pull>)
    requires (forall p :: p in seeds1 <==> p in seeds2) &&
             forall s, p {:trigger p in rules1(s)} {:trigger p in rules2(s)} :: p in rules1(s) <==> p in rules2(s)
    ensures Names(Derive(recipes, seeds1, rules1).services) == Names(Derive(recipes, seeds2, rules2).services)
  {
    var r1, r2 := Names(Derive(recipes, seeds1, rules1).services), Names(Derive(recipes, seeds2, rules2).services);
    DerivedIsClosure(recipes, seeds1, rules1);
    DerivedIsClosure(recipes, seeds2, rules2);
    assert Closed(recipes, seeds1, rules1, r2);
    assert Closed(recipes, seeds2, rules2, r1);
  }

  // ---- reachability -----------------------------------------------------------------------------------

  /** A chain of pulls from a seed, every step of it a service with a recipe. */
  predicate Chain(recipes: set<string>, seeds: seq<Pull>, rules: string -> seq<Pull>, path: seq<string>) {
    path != [] && (forall s <- path :: s in recipes) && (exists p <- seeds :: p.target == path[0]) &&
    forall k :: 0 < k < |path| ==> Pulls(rules, path[k - 1], path[k])
  }

  predicate Pulls(rules: string -> seq<Pull>, s: string, t: string) { exists p <- rules(s) :: p.target == t }

  ghost predicate Reachable(recipes: set<string>, seeds: seq<Pull>, rules: string -> seq<Pull>, s: string) {
    exists path :: Chain(recipes, seeds, rules, path) && path[|path| - 1] == s
  }

  lemma {:induction false} ChainStays(recipes: set<string>, seeds: seq<Pull>, rules: string -> seq<Pull>,
                                      path: seq<string>, bound: set<string>)
    requires Chain(recipes, seeds, rules, path) && Closed(recipes, seeds, rules, bound)
    ensures path[|path| - 1] in bound
    decreases |path|
  {
    if |path| > 1 {
      var front := path[..|path| - 1];
      assert Chain(recipes, seeds, rules, front);
      ChainStays(recipes, seeds, rules, front, bound);
      assert Pulls(rules, path[|path| - 2], path[|path| - 1]);
    }
  }

  /** The services with a chain of pulls are a closed set. */
  lemma {:induction false} ChainExtends(recipes: set<string>, seeds: seq<Pull>, rules: string -> seq<Pull>, s: string,
                                        t: string)
    requires Reachable(recipes, seeds, rules, s) && Pulls(rules, s, t) && t in recipes
    ensures Reachable(recipes, seeds, rules, t)
  {
    var path :| Chain(recipes, seeds, rules, path) && path[|path| - 1] == s;
    var longer := path + [t];
    forall k | 0 < k < |longer| ensures Pulls(rules, longer[k - 1], longer[k]) {
      if k < |path| { assert Pulls(rules, path[k - 1], path[k]); }
    }
    assert Chain(recipes, seeds, rules, longer);
  }

  lemma {:induction false} ReachableIsClosed(recipes: set<string>, seeds: seq<Pull>, rules: string -> seq<Pull>,
                                             reached: set<string>)
    requires forall t :: t in reached <==> t in recipes && Reachable(recipes, seeds, rules, t)
    ensures Closed(recipes, seeds, rules, reached)
  {
    forall p | p in seeds && p.target in recipes ensures p.target in reached {
      assert Chain(recipes, seeds, rules, [p.target]);
    }
    forall t, p | t in reached && p in rules(t) && p.target in recipes ensures p.target in reached {
      assert Pulls(rules, t, p.target);
      ChainExtends(recipes, seeds, rules, t, p.target);
    }
  }

  /** A service is derived exactly when a chain of pulls leads to it from a seed. */
  lemma {:induction false} DerivedIsReachable(recipes: set<string>, seeds: seq<Pull>, rules: string -> seq<Pull>,
                                              s: string)
    ensures s in Derive(recipes, seeds, rules).services <==> Reachable(recipes, seeds, rules, s)
  {
    var services := Derive(recipes, seeds, rules).services;
    DerivedIsClosure(recipes, seeds, rules);
    if Reachable(recipes, seeds, rules, s) {
      var path :| Chain(recipes, seeds, rules, path) && path[|path| - 1] == s;
      ChainStays(recipes, seeds, rules, path, Names(services));
    }
    var reached := set t | t in recipes && Reachable(recipes, seeds, rules, t);
    ReachableIsClosed(recipes, seeds, rules, reached);
    if s in services { assert s in Names(services) && Names(services) <= reached; }
  }

  // ---- the trace ------------------------------------------------------------------------------------------

  predicate Noted(trace: map<string, seq<Reason>>, s: string, r: Reason) { s in trace && r in trace[s] }

  /** These pulls, tried for `source`, record the reason. */
  predicate Records(recipes: set<string>, source: Option<string>, pulls: seq<Pull>, s: string, r: Reason) {
    s in recipes && r.source == source && Pull(s, r.why) in pulls
  }

  lemma {:induction false} AddAllNotes(recipes: set<string>, a: Acc, source: Option<string>, pulls: seq<Pull>,
                                       s: string, r: Reason)
    ensures Noted(AddAll(recipes, a, source, pulls).trace, s, r) <==>
            Noted(a.trace, s, r) || Records(recipes, source, pulls, s, r)
    decreases |pulls|
  {
    if pulls != [] {
      var p := pulls[0];
      var b := Add(recipes, a, source, p);
      assert Noted(b.trace, s, r) <==>
             Noted(a.trace, s, r) || (s in recipes && s == p.target && r == Reason(source, p.why));
      assert Records(recipes, source, pulls, s, r) <==>
             Records(recipes, source, [p], s, r) || Records(recipes, source, pulls[1..], s, r);
      AddAllNotes(recipes, b, source, pulls[1..], s, r);
    }
  }

  /** Some service of `todo` records the reason. */
  predicate RecordedBy(recipes: set<string>, rules: string -> seq<Pull>, todo: seq<string>, s: string, r: Reason) {
    r.source.Some? && r.source.value in todo && Records(recipes, r.source, rules(r.source.value), s, r)
  }

  lemma {:induction false} PassNotes(recipes: set<string>, rules: string -> seq<Pull>, a: Acc, todo: seq<string>,
                                     s: string, r: Reason)
    ensures Noted(Pass(recipes, rules, a, todo).trace, s, r) <==>
            Noted(a.trace, s, r) || RecordedBy(recipes, rules, todo, s, r)
    decreases |todo|
  {
    if todo != [] {
      AddAllNotes(recipes, a, Some(todo[0]), rules(todo[0]), s, r);
      PassNotes(recipes, rules, AddAll(recipes, a, Some(todo[0]), rules(todo[0])), todo[1..], s, r);
    }
  }

  lemma {:induction false} CloseNotes(recipes: set<string>, rules: string -> seq<Pull>, a: Acc, s: string, r: Reason)
    requires Ok(recipes, a)
    ensures var c := Close(recipes, rules, a);
            Noted(c.trace, s, r) <==> Noted(a.trace, s, r) || RecordedBy(recipes, rules, c.services, s, r)
    decreases |recipes| - |a.services|
  {
    var b := NextPass(recipes, rules, a);
    PassGrows(recipes, rules, a, a.services);
    AtMostRecipes(recipes, b);
    PassNotes(recipes, rules, a, a.services, s, r);
    if |b.services| != |a.services| {
      CloseCovers(recipes, rules, b);
      var c := Close(recipes, rules, b);
      assert a.services <= c.services;
      CloseNotes(recipes, rules, b, s, r);
    } else {
      assert a.services == b.services;
    }
  }

  /** The trace of a service holds exactly the seeds that name it and the rules of derived services that pull it in. */
  lemma {:induction false} TraceIsExact(recipes: set<string>, seeds: seq<Pull>, rules: string -> seq<Pull>, s: string,
                                        r: Reason)
    ensures var d := Derive(recipes, seeds, rules);
            Noted(d.trace, s, r) <==>
            s in recipes &&
            (match r.source
             case None => Pull(s, r.why) in seeds
             case Some(puller) => puller in d.services && Pull(s, r.why) in rules(puller))
  {
    var empty := Acc([], map[]);
    AddAllGrows(recipes, empty, None, seeds);
    AddAllNotes(recipes, empty, None, seeds, s, r);
    CloseNotes(recipes, rules, AddAll(recipes, empty, None, seeds), s, r);
  }

  /** A chain's last step is a reason. */
  lemma {:induction false} LastStepIsNoted(recipes: set<string>, seeds: seq<Pull>, rules: string -> seq<Pull>,
                                           path: seq<string>, s: string)
    requires Chain(recipes, seeds, rules, path) && |path| > 1 && path[|path| - 1] == s
    ensures exists r :: Noted(Derive(recipes, seeds, rules).trace, s, r)
  {
    var puller := path[|path| - 2];
    var front := path[..|path| - 1];
    assert Chain(recipes, seeds, rules, front);
    DerivedIsReachable(recipes, seeds, rules, puller);
    assert Pulls(rules, puller, s);
    var p :| p in rules(puller) && p.target == s;
    assert p == Pull(s, p.why) && s in path;
    TraceIsExact(recipes, seeds, rules, s, Reason(Some(puller), p.why));
  }

  /** Every derived service has a reason. */
  lemma {:induction false} EveryServiceHasAReason(recipes: set<string>, seeds: seq<Pull>, rules: string -> seq<Pull>,
                                                  s: string)
    requires s in Derive(recipes, seeds, rules).services
    ensures exists r :: Noted(Derive(recipes, seeds, rules).trace, s, r)
  {
    DerivedIsReachable(recipes, seeds, rules, s);
    var path :| Chain(recipes, seeds, rules, path) && path[|path| - 1] == s;
    assert s in path;
    if |path| == 1 {
      var p :| p in seeds && p.target == s;
      assert p == Pull(s, p.why);
      TraceIsExact(recipes, seeds, rules, s, Reason(None, p.why));
    } else {
      LastStepIsNoted(recipes, seeds, rules, path, s);
    }
  }
}
