/**
 Rule R12 of the profile derivation (twinfactory/profiles.py): of every promoted role that the services touch, one of
 its two implementations is kept; and the one-shot jobs that go with the real ones.
 */
module TrustVariant {
  datatype Variant = Real | Substitute {
    function Other(): Variant { if Real? then Substitute else Real }
  }

  datatype Role = Role(genuine: seq<string>, substitute: seq<string>) {
    function Set(v: Variant): seq<string> { if v.Real? then genuine else substitute }

    predicate Names(s: string) { s in genuine || s in substitute }
  }

  datatype Job = Job(name: string, store: string, service: string)

  // ---- the swap ------------------------------------------------------------------------------

  predicate Touched(role: Role, services: set<string>) { exists s <- services :: role.Names(s) }

  function Swap(recipes: set<string>, services: set<string>, role: Role, v: Variant): set<string> {
    if Touched(role, services)
    then services - (set s <- role.Set(v.Other())) + (set s <- role.Set(v) | s in recipes)
    else services
  }

  function SwapAll(recipes: set<string>, services: set<string>, roles: seq<Role>, v: Variant): set<string>
    decreases |roles|
  {
    if roles == [] then services else SwapAll(recipes, Swap(recipes, services, roles[0], v), roles[1..], v)
  }

  method RemoveNames(services: set<string>, names: seq<string>) returns (left: set<string>)
    ensures left == services - (set s <- names)
  {
    left := services;
    for n := 0 to |names|
      invariant left == services - (set s <- names[..n])
    {
      left := left - {names[n]};
    }
    assert names[..|names|] == names;
  }

  method AddNames(recipes: set<string>, services: set<string>, names: seq<string>) returns (more: set<string>)
    ensures more == services + (set s <- names | s in recipes)
  {
    more := services;
    for n := 0 to |names|
      invariant more == services + (set s <- names[..n] | s in recipes)
    {
      if names[n] in recipes && names[n] !in more { more := more + {names[n]}; }
    }
    assert names[..|names|] == names;
  }

  method ApplyTrustVariant(recipes: set<string>, services: set<string>, roles: seq<Role>, v: Variant)
    returns (result: set<string>)
    ensures result == SwapAll(recipes, services, roles, v)
  {
    result := services;
    for k := 0 to |roles|
      invariant SwapAll(recipes, services, roles, v) == SwapAll(recipes, result, roles[k..], v)
    {
      assert roles[k..][0] == roles[k] && roles[k..][1..] == roles[k + 1..];
      if !Touched(roles[k], result) { continue; }
      var left := RemoveNames(result, roles[k].Set(v.Other()));
      result := AddNames(recipes, left, roles[k].Set(v));
    }
  }

  // ---- what is kept -----------------------------------------------------------------------------

  /** No name belongs to two roles, or to both variants of one. */
  ghost predicate Distinct(roles: seq<Role>) {
    forall i, j, s {:trigger roles[i].Names(s), roles[j].Names(s)} ::
      0 <= i < |roles| && 0 <= j < |roles| && roles[i].Names(s) && roles[j].Names(s) ==> i == j
  }

  predicate Disjoint(role: Role) { forall s <- role.genuine :: s !in role.substitute }

  ghost predicate WellFormed(roles: seq<Role>) { Distinct(roles) && forall r <- roles :: Disjoint(r) }

  predicate InSomeRole(roles: seq<Role>, s: string) { exists i :: 0 <= i < |roles| && roles[i].Names(s) }

  lemma {:induction false} TailIsWellFormed(roles: seq<Role>)
    requires WellFormed(roles) && roles != []
    ensures WellFormed(roles[1..]) && Disjoint(roles[0])
  {
    assert roles[0] in roles;
    forall i, j, s | 0 <= i < |roles| - 1 && 0 <= j < |roles| - 1 && roles[1..][i].Names(s) && roles[1..][j].Names(s)
      ensures i == j
    {
      assert roles[i + 1].Names(s) && roles[j + 1].Names(s);
    }
    assert forall r <- roles[1..] :: r in roles;
  }

  /** Services outside the roles stay; a role is left alone, or reduced to its chosen variant. */
  lemma {:induction false} OnlyRolesChange(recipes: set<string>, services: set<string>, roles: seq<Role>, v: Variant,
                                           s: string)
    requires !InSomeRole(roles, s)
    ensures s in SwapAll(recipes, services, roles, v) <==> s in services
    decreases |roles|
  {
    if roles != [] {
      assert !roles[0].Names(s);
      forall i | 0 <= i < |roles[1..]| ensures !roles[1..][i].Names(s) { assert !roles[i + 1].Names(s); }
      OnlyRolesChange(recipes, Swap(recipes, services, roles[0], v), roles[1..], v, s);
    }
  }

  /** What swapping the other roles first does not touch. */
  lemma {:induction false} OtherRolesKeep(recipes: set<string>, services: set<string>, roles: seq<Role>, v: Variant,
                                          i: nat)
    requires WellFormed(roles) && 0 < i < |roles|
    ensures var next := Swap(recipes, services, roles[0], v);
            (forall s | roles[i].Names(s) :: s in next <==> s in services) &&
              (Touched(roles[i], next) <==> Touched(roles[i], services))
  {
    var next := Swap(recipes, services, roles[0], v);
    forall s | roles[i].Names(s) ensures s in next <==> s in services { assert !roles[0].Names(s); }
    if Touched(roles[i], services) {
      var s :| s in services && roles[i].Names(s);
      assert s in next;
    }
    if Touched(roles[i], next) {
      var s :| s in next && roles[i].Names(s);
      assert s in services;
    }
  }

  /** Of a touched role exactly the chosen variant's services with a recipe are left; of any other role, nothing. */
  lemma {:induction false} VariantIsExact(recipes: set<string>, services: set<string>, roles: seq<Role>, v: Variant,
                                          i: nat, s: string)
    requires WellFormed(roles) && services <= recipes && i < |roles| && roles[i].Names(s)
    ensures s in SwapAll(recipes, services, roles, v) <==>
            Touched(roles[i], services) && s in roles[i].Set(v) && s in recipes
    decreases |roles|
  {
    var next := Swap(recipes, services, roles[0], v);
    TailIsWellFormed(roles);
    if i > 0 {
      OtherRolesKeep(recipes, services, roles, v, i);
      assert roles[1..][i - 1] == roles[i];
      VariantIsExact(recipes, next, roles[1..], v, i - 1, s);
    } else {
      forall k | 0 <= k < |roles[1..]| ensures !roles[1..][k].Names(s) { assert roles[k + 1] == roles[1..][k]; }
      OnlyRolesChange(recipes, next, roles[1..], v, s);
      if s in services { assert Touched(roles[0], services); }
    }
  }

  // ---- which roles stay whole ----------------------------------------------------------------------

  predicate Offered(recipes: set<string>, role: Role, v: Variant) { exists s <- role.Set(v) :: s in recipes }

  /** After a swap a role is still touched exactly when it was and its variant has a recipe. */
  lemma {:induction false} StillTouched(recipes: set<string>, services: set<string>, roles: seq<Role>, v: Variant,
                                        i: nat)
    requires WellFormed(roles) && services <= recipes && i < |roles|
    ensures Touched(roles[i], SwapAll(recipes, services, roles, v)) <==>
            Touched(roles[i], services) && Offered(recipes, roles[i], v)
  {
    var after := SwapAll(recipes, services, roles, v);
    if Touched(roles[i], after) {
      var s :| s in after && roles[i].Names(s);
      VariantIsExact(recipes, services, roles, v, i, s);
    }
    if Touched(roles[i], services) && Offered(recipes, roles[i], v) {
      var s :| s in roles[i].Set(v) && s in recipes;
      assert roles[i].Names(s);
      VariantIsExact(recipes, services, roles, v, i, s);
    }
  }

  /** What R12 promises of a touched role: the whole chosen set, and nothing of the other one. */
  predicate OneSetKept(role: Role, services: set<string>, v: Variant) {
    (forall s <- role.Set(v) :: s in services) && forall s <- role.Set(v.Other()) :: s !in services
  }

  predicate WholeSetOffered(recipes: set<string>, role: Role, v: Variant) { forall s <- role.Set(v) :: s in recipes }

  /** The promise is kept for a touched role exactly when every name of its chosen set has a recipe. */
  lemma {:induction false} OneSetIsKeptExactly(recipes: set<string>, services: set<string>, roles: seq<Role>,
                                               v: Variant, i: nat)
    requires WellFormed(roles) && services <= recipes && i < |roles| && Touched(roles[i], services)
    ensures OneSetKept(roles[i], SwapAll(recipes, services, roles, v), v) <==> WholeSetOffered(recipes, roles[i], v)
  {
    var role, after := roles[i], SwapAll(recipes, services, roles, v);
    assert role in roles;
    forall s | role.Names(s) ensures s in after <==> s in role.Set(v) && s in recipes {
      VariantIsExact(recipes, services, roles, v, i, s);
    }
    assert forall s <- role.Set(v) :: role.Names(s);
    assert forall s <- role.Set(v.Other()) :: role.Names(s) && s !in role.Set(v);
  }

  // ---- the jobs of the real variant -------------------------------------------------------------------

  predicate Due(recipes: set<string>, services: set<string>, j: Job) {
    j.name in recipes && j.store in services && j.service in services
  }

  function TrustJobs(recipes: set<string>, services: set<string>, jobs: seq<Job>): seq<string> {
    if jobs == [] then []
    else (if Due(recipes, services, jobs[0]) then [jobs[0].name] else []) + TrustJobs(recipes, services, jobs[1..])
  }

  method TrustJobsFor(recipes: set<string>, services: set<string>, jobs: seq<Job>) returns (out: seq<string>)
    ensures out == TrustJobs(recipes, services, jobs)
  {
    out := [];
    for k := 0 to |jobs|
      invariant out == TrustJobs(recipes, services, jobs[..k])
    {
      OneMoreJob(recipes, services, jobs[..k], jobs[k]);
      assert jobs[..k + 1] == jobs[..k] + [jobs[k]];
      if Due(recipes, services, jobs[k]) { out := out + [jobs[k].name]; }
    }
    assert jobs[..|jobs|] == jobs;
  }

  lemma {:induction false} OneMoreJob(recipes: set<string>, services: set<string>, jobs: seq<Job>, j: Job)
    ensures TrustJobs(recipes, services, jobs + [j]) ==
            TrustJobs(recipes, services, jobs) + if Due(recipes, services, j) then [j.name] else []
    decreases |jobs|
  {
    if jobs != [] {
      assert (jobs + [j])[1..] == jobs[1..] + [j];
      OneMoreJob(recipes, services, jobs[1..], j);
    }
  }

  /** The job's store and service are in the real set of one role. */
  predicate BelongsTo(job: Job, role: Role) { job.store in role.genuine && job.service in role.genuine }

  lemma {:induction false} JobsAre(recipes: set<string>, services: set<string>, jobs: seq<Job>, name: string)
    ensures name in TrustJobs(recipes, services, jobs) <==>
            exists j <- jobs :: j.name == name && name in recipes && j.store in services && j.service in services
    decreases |jobs|
  {
    if jobs != [] { JobsAre(recipes, services, jobs[1..], name); }
  }

  /** After the swap a role's job is due exactly when the real variant was chosen, the role was touched, and the job,
      its store and its service all have recipes; so the substitutes never run one. */
  lemma {:induction false} JobsFollowTheVariant(recipes: set<string>, services: set<string>, roles: seq<Role>,
                                                jobs: seq<Job>, v: Variant, job: Job, i: nat)
    requires WellFormed(roles) && services <= recipes && job in jobs && i < |roles| && BelongsTo(job, roles[i])
    requires forall j <- jobs :: j.name == job.name ==> j == job
    ensures job.name in TrustJobs(recipes, SwapAll(recipes, services, roles, v), jobs) <==>
            v.Real? && Touched(roles[i], services) && job.name in recipes && job.store in recipes &&
              job.service in recipes
  {
    var after := SwapAll(recipes, services, roles, v);
    JobsAre(recipes, after, jobs, job.name);
    VariantIsExact(recipes, services, roles, v, i, job.store);
    VariantIsExact(recipes, services, roles, v, i, job.service);
    assert roles[i] in roles;
  }

  // ---- the tables of the program ------------------------------------------------------------------------

  const TrustRoles: seq<Role> := [
    Role(["edge-kong", "edge-bridge", "postgres-kong"], ["kong-lite"]),
    Role(["shield-web", "mysql-shield", "redis-shield"], ["shield-stub"]),
    Role(["banking-accounts-api", "mysql-bas"], ["bankingaccounts-stub"]),
    Role(["workflows-api", "workflows-worker", "cadence", "mysql-workflows"], ["workflow-engine", "workflow-sim"])
  ]

  const AllTrustJobs: seq<Job> := [
    Job("edge-kong-migrate", "postgres-kong", "edge-kong"),
    Job("edge-kong-config", "postgres-kong", "edge-kong"),
    Job("shield-migrate", "mysql-shield", "shield-web"),
    Job("bas-migrate", "mysql-bas", "banking-accounts-api"),
    Job("workflows-migrate", "mysql-workflows", "workflows-api"),
    Job("shield-seed", "mysql-shield", "shield-web"),
    Job("bas-seed", "mysql-bas", "banking-accounts-api"),
    Job("workflows-seed", "mysql-workflows", "workflows-api")
  ]

  /** The first letter tells a name's role, and for the MySQL stores the length does. */
  function RoleOf(s: string): nat {
    if s == [] then 4
    else if s[0] == 'e' || s[0] == 'p' || s[0] == 'k' then 0
    else if s[0] == 's' || s[0] == 'r' then 1
    else if s[0] == 'b' then 2
    else if s[0] == 'm' then (if |s| == 12 then 1 else if |s| == 9 then 2 else 3)
    else 3
  }

  lemma {:induction false} TableRole(i: nat, s: string)
    requires i < |TrustRoles| && TrustRoles[i].Names(s)
    ensures RoleOf(s) == i
  {
  }

  lemma {:induction false} TheRolesAreWellFormed()
    ensures WellFormed(TrustRoles)
  {
    forall i, j, s | 0 <= i < |TrustRoles| && 0 <= j < |TrustRoles| && TrustRoles[i].Names(s) && TrustRoles[j].Names(s)
      ensures i == j
    {
      TableRole(i, s);
      TableRole(j, s);
    }
    forall k | 0 <= k < |TrustRoles| ensures Disjoint(TrustRoles[k]) { VariantsDiffer(k); }
  }

  lemma {:induction false} VariantsDiffer(k: nat)
    requires k < |TrustRoles|
    ensures Disjoint(TrustRoles[k])
  {
    if k == 2 { assert "banking-accounts-api"[7] != "bankingaccounts-stub"[7]; }
  }

  lemma {:induction false} TheJobsBelong(k: nat)
    requires k < |AllTrustJobs|
    ensures exists i :: 0 <= i < |TrustRoles| && BelongsTo(AllTrustJobs[k], TrustRoles[i])
  {
    var i := if k < 2 then 0 else if k == 2 || k == 5 then 1 else if k == 3 || k == 6 then 2 else 3;
    assert BelongsTo(AllTrustJobs[k], TrustRoles[i]);
  }

  /** With the program's own table: no recipe for the substitute, and a profile loses its gateway altogether. */
  lemma {:induction false} GatewayCanVanish()
    ensures var recipes := {"edge-kong"};
            Touched(TrustRoles[0], recipes) &&
              !Touched(TrustRoles[0], SwapAll(recipes, recipes, TrustRoles, Substitute))
  {
    var recipes := {"edge-kong"};
    TheRolesAreWellFormed();
    assert "edge-kong" in TrustRoles[0].genuine && TrustRoles[0].Names("edge-kong");
    assert "kong-lite" != "edge-kong";
    StillTouched(recipes, recipes, TrustRoles, Substitute, 0);
  }

  /** With the program's own table: a recipe for the datastore only, and it is kept without its gateway. */
  lemma {:induction false} DatastoreCanStandAlone()
    ensures var recipes, services := {"kong-lite", "postgres-kong"}, {"kong-lite"};
            var after := SwapAll(recipes, services, TrustRoles, Real);
            Touched(TrustRoles[0], services) && "postgres-kong" in after &&
            "edge-kong" !in after && "edge-bridge" !in after && "kong-lite" !in after
  {
    var recipes, services := {"kong-lite", "postgres-kong"}, {"kong-lite"};
    TheRolesAreWellFormed();
    assert TrustRoles[0].Names("kong-lite") && TrustRoles[0].Names("postgres-kong");
    assert TrustRoles[0].Names("edge-kong") && TrustRoles[0].Names("edge-bridge");
    assert "edge-kong" !in recipes && "edge-bridge" !in recipes && "kong-lite" !in TrustRoles[0].genuine;
    VariantIsExact(recipes, services, TrustRoles, Real, 0, "postgres-kong");
    VariantIsExact(recipes, services, TrustRoles, Real, 0, "edge-kong");
    VariantIsExact(recipes, services, TrustRoles, Real, 0, "edge-bridge");
    VariantIsExact(recipes, services, TrustRoles, Real, 0, "kong-lite");
  }
}
