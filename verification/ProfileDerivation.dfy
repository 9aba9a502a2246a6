/**
 The derivation as the program runs it: one list of services and one trace, added to in place until a pass adds nothing.
 */
module ProfileDerivation {
  import opened Options
  import opened Profiles

  class Derivation {
    const recipes: set<string>
    const rules: string -> seq<Pull>
    var services: seq<string>
    var trace: map<string, seq<Reason>>

    function View(): Acc
      reads this
    {
      Acc(services, trace)
    }

    constructor (recipes: set<string>, rules: string -> seq<Pull>)
      ensures this.recipes == recipes && this.rules == rules && View() == Acc([], map[])
    {
      this.recipes := recipes;
      this.rules := rules;
      services := [];
      trace := map[];
    }

    method AddService(source: Option<string>, p: Pull) returns (added: bool)
      modifies this
      ensures View() == Add(recipes, old(View()), source, p)
      ensures added <==> services != old(services)
    {
      if p.target !in recipes { return false; }
      trace := Note(trace, p.target, Reason(source, p.why));
      added := p.target !in services;
      if added { services := services + [p.target]; }
    }

    method AddPulls(source: Option<string>, pulls: seq<Pull>) returns (changed: bool)
      requires Ok(recipes, View())
      modifies this
      ensures View() == AddAll(recipes, old(View()), source, pulls)
      ensures changed <==> |services| > |old(services)|
    {
      changed := false;
      for k := 0 to |pulls|
        invariant AddAll(recipes, old(View()), source, pulls) == AddAll(recipes, View(), source, pulls[k..])
        invariant |services| >= |old(services)| && (changed <==> |services| > |old(services)|)
      {
        assert pulls[k..][0] == pulls[k] && pulls[k..][1..] == pulls[k + 1..];
        var added := AddService(source, pulls[k]);
        changed := changed || added;
      }
    }

    method RunPass() returns (changed: bool)
      requires Ok(recipes, View())
      modifies this
      ensures View() == NextPass(recipes, rules, old(View())) && Ok(recipes, View())
      ensures |services| >= |old(services)|
      ensures changed <==> |services| > |old(services)|
    {
      changed := false;
      var snapshot := services;
      for k := 0 to |snapshot|
        invariant Pass(recipes, rules, old(View()), snapshot) == Pass(recipes, rules, View(), snapshot[k..])
        invariant Ok(recipes, View())
        invariant |services| >= |old(services)| && (changed <==> |services| > |old(services)|)
      {
        var svc := snapshot[k];
        assert snapshot[k..][0] == svc && snapshot[k..][1..] == snapshot[k + 1..];
        AddAllGrows(recipes, View(), Some(svc), rules(svc));
        var more := AddPulls(Some(svc), rules(svc));
        changed := changed || more;
      }
    }

    /** `passes` counts the turns of the loop. */
    method RunToFixedPoint() returns (passes: nat)
      requires Ok(recipes, View())
      modifies this
      ensures View() == Close(recipes, rules, old(View())) && passes == Passes(recipes, rules, old(View()))
      ensures passes <= |recipes| - |old(services)| + 1
    {
      passes := 0;
      PassesAreBounded(recipes, rules, View());
      ghost var before := View();
      AtMostRecipes(recipes, View());
      var changed := true;
      while changed
        invariant Ok(recipes, View()) && |services| <= |recipes|
        invariant changed ==> Close(recipes, rules, before) == Close(recipes, rules, View())
        invariant changed ==> Passes(recipes, rules, before) == passes + Passes(recipes, rules, View())
        invariant !changed ==> Close(recipes, rules, before) == View() && Passes(recipes, rules, before) == passes
        decreases |recipes| - |services|, changed
      {
        changed := RunPass();
        AtMostRecipes(recipes, View());
        passes := passes + 1;
      }
    }

    method RunSeeds(seeds: seq<Pull>) returns (passes: nat)
      requires View() == Acc([], map[])
      modifies this
      ensures View() == Derive(recipes, seeds, rules) && passes <= |recipes| + 1
    {
      AddAllGrows(recipes, View(), None, seeds);
      var _ := AddPulls(None, seeds);
      passes := RunToFixedPoint();
    }
  }
}
