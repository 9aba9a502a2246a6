/**
 What the scheduler promises over a whole campaign: strict round robin over the twins, every thesis
 tried exactly as often as its priority asks and on twins of different lineage, no thesis proposed twice.
 */
module CampaignScheduling {
  import opened Options
  import opened Arith
  import opened Campaign
  import opened CampaignSafety

  predicate DistinctTwins(cfg: Config) {
    cfg.twins != [] && forall a, b :: 0 <= a < b < |cfg.twins| ==> cfg.twins[a] != cfg.twins[b]
  }

  /** The twins the probe tasks were created on, in creation order. */
  function ProbeHomes(tasks: seq<Task>): seq<Twin> {
    if tasks == [] then []
    else
      var t := tasks[|tasks| - 1];
      ProbeHomes(tasks[..|tasks| - 1]) + if t.kind.Probe? then [t.home] else []
  }

  function ProbesOf(tasks: seq<Task>, h: nat): nat {
    if tasks == [] then 0
    else
      var t := tasks[|tasks| - 1];
      ProbesOf(tasks[..|tasks| - 1], h) + if t.kind.Probe? && t.thesis == h then 1 else 0
  }

  /** How many probes a thesis is worth. */
  function Replicas(cfg: Config, h: Thesis): nat {
    if h.priority >= 3 && |cfg.twins| > 1 then 2 else 1
  }

  predicate RoundRobin(cfg: Config, tasks: seq<Task>, cursor: nat)
    requires cfg.twins != []
  {
    cursor == |ProbeHomes(tasks)| &&
    forall k :: 0 <= k < cursor ==> ProbeHomes(tasks)[k] == cfg.twins[k % |cfg.twins|]
  }

  /** Open theses have no task yet, the others exactly their replicas, no two of them created on one twin. */
  predicate PerThesis(cfg: Config, s: State) {
    OnlyWorked(s) && ApartAtBirth(s.tasks) &&
    (forall h :: 0 <= h < |s.theses| ==>
       ProbesOf(s.tasks, h) == if s.theses[h].status.Open? then 0 else Replicas(cfg, s.theses[h]))
  }

  predicate Worked(theses: seq<Thesis>, h: nat) { h < |theses| && !theses[h].status.Open? }

  /** Tasks and candidates belong to theses that were scheduled. */
  predicate OnlyWorked(s: State) {
    (forall i :: 0 <= i < |s.tasks| ==> Worked(s.theses, s.tasks[i].thesis)) &&
    (forall c :: 0 <= c < |s.candidates| ==> Worked(s.theses, s.candidates[c].thesis))
  }

  predicate ApartAtBirth(tasks: seq<Task>) {
    forall i, j :: 0 <= i < j < |tasks| && SameThesisProbes(tasks[i], tasks[j]) ==> tasks[i].home != tasks[j].home
  }

  predicate SameThesisProbes(t: Task, u: Task) { t.kind.Probe? && u.kind.Probe? && t.thesis == u.thesis }

  predicate DistinctFingerprints(theses: seq<Thesis>) {
    forall g, h :: 0 <= g < h < |theses| ==> theses[g].fingerprint != theses[h].fingerprint
  }

  predicate Sched(cfg: Config, s: State)
    requires cfg.twins != []
  {
    RoundRobin(cfg, s.tasks, s.cursor) && PerThesis(cfg, s) && DistinctFingerprints(s.theses)
  }

  // ---- the probe view of the task table ---------------------------------------------------

  predicate SameOrigin(t: Task, u: Task) { u.thesis == t.thesis && u.home == t.home && u.kind == t.kind }

  lemma {:induction false} SameProbes(a: seq<Task>, b: seq<Task>)
    requires |a| == |b| && forall i :: 0 <= i < |a| ==> SameOrigin(a[i], b[i])
    ensures ProbeHomes(a) == ProbeHomes(b)
    ensures forall h: nat :: ProbesOf(a, h) == ProbesOf(b, h)
    decreases |a|
  {
    if a != [] {
      var n := |a| - 1;
      SameProbes(a[..n], b[..n]);
      assert SameOrigin(a[n], b[n]);
    }
  }

  /** Origins stand, nothing but progress happened to the theses, new candidates belong to worked theses. */
  lemma {:induction false} SchedStable(cfg: Config, s: State, r: State)
    requires cfg.twins != [] && Sched(cfg, s)
    requires |r.tasks| == |s.tasks|
    requires forall i {:trigger SameOrigin(s.tasks[i], r.tasks[i])} :: 0 <= i < |s.tasks| ==>
             SameOrigin(s.tasks[i], r.tasks[i])
    requires |r.theses| == |s.theses| && r.cursor == s.cursor
    requires forall h :: 0 <= h < |s.theses| ==>
             r.theses[h].(status := s.theses[h].status) == s.theses[h] &&
             (r.theses[h].status.Open? <==> s.theses[h].status.Open?)
    requires forall c :: 0 <= c < |r.candidates| ==> Worked(s.theses, r.candidates[c].thesis)
    ensures Sched(cfg, r)
  {
    SameProbes(s.tasks, r.tasks);
    forall i | 0 <= i < |r.tasks| ensures Worked(r.theses, r.tasks[i].thesis) {
      assert SameOrigin(s.tasks[i], r.tasks[i]);
    }
    assert ApartAtBirth(r.tasks) by {
      forall i, j | 0 <= i < j < |r.tasks| && SameThesisProbes(r.tasks[i], r.tasks[j])
        ensures r.tasks[i].home != r.tasks[j].home
      {
        assert SameOrigin(s.tasks[i], r.tasks[i]) && SameOrigin(s.tasks[j], r.tasks[j]);
      }
    }
    forall h | 0 <= h < |r.theses|
      ensures ProbesOf(r.tasks, h) == if r.theses[h].status.Open? then 0 else Replicas(cfg, r.theses[h])
    {
      assert r.theses[h].(status := s.theses[h].status) == s.theses[h];
    }
  }

  lemma {:induction false} RecoverTwinsStable(cfg: Config, s: State, env: nat -> TwinEnv, k: nat)
    requires cfg.twins != [] && Sched(cfg, s)
    ensures Sched(cfg, RecoverTwins(cfg, s, env, k))
    decreases |cfg.twins| - k
  {
    if k < |cfg.twins| {
      var r := RecoverTwin(s, cfg.twins[k], env(k));
      SchedStable(cfg, s, r);
      RecoverTwinsStable(cfg, r, env, k + 1);
    }
  }

  // ---- planning ---------------------------------------------------------------------------------

  lemma {:induction false} ProposeAllFresh(theses: seq<Thesis>, ps: seq<Proposal>)
    requires DistinctFingerprints(theses)
    ensures var r := ProposeAll(theses, ps);
            theses <= r && DistinctFingerprints(r) && forall h :: |theses| <= h < |r| ==> r[h].status.Open?
    decreases |ps|
  {
    if ps != [] { ProposeAllFresh(Propose(theses, ps[0]), ps[1..]); }
  }

  lemma {:induction false} NoProbesOf(tasks: seq<Task>, h: nat)
    requires forall i :: 0 <= i < |tasks| ==> tasks[i].thesis != h
    ensures ProbesOf(tasks, h) == 0
    decreases |tasks|
  {
    if tasks != [] { NoProbesOf(tasks[..|tasks| - 1], h); }
  }

  lemma {:induction false} PlanKeepsSched(cfg: Config, s: State, env: TickEnv)
    requires cfg.twins != [] && Sched(cfg, s)
    ensures Sched(cfg, PlanIfNeeded(cfg, s, env))
  {
    var r := PlanIfNeeded(cfg, s, env);
    ProposeAllFresh(s.theses, env.proposals);
    forall h | |s.theses| <= h < |r.theses| ensures ProbesOf(r.tasks, h) == 0 { NoProbesOf(r.tasks, h); }
  }

  // ---- scheduling one thesis ------------------------------------------------------------------------

  lemma {:induction false} NextIsAnother(cur: nat, n: nat)
    requires n > 1
    ensures (cur + 1) % n != cur % n
  {
    NextDivMod(cur, n);
  }

  lemma {:induction false} TwinDiffers(cfg: Config, cur: nat)
    requires DistinctTwins(cfg) && |cfg.twins| > 1
    ensures cfg.twins[(cur + 1) % |cfg.twins|] != cfg.twins[cur % |cfg.twins|]
  {
    NextIsAnother(cur, |cfg.twins|);
  }

  /** The probes an open thesis gets: on the next one or two twins of the round. */
  function NewProbes(cfg: Config, s: State, h: nat): seq<Task>
    requires cfg.twins != [] && h < |s.theses|
  {
    var a, b := cfg.twins[s.cursor % |cfg.twins|], cfg.twins[(s.cursor + 1) % |cfg.twins|];
    [Task(h, a, a, Probe, s.theses[h].priority, s.now, Ready, 0)] +
    if Replicas(cfg, s.theses[h]) == 2 then [Task(h, b, b, Probe, s.theses[h].priority, s.now, Ready, 0)] else []
  }

  lemma {:induction false} ScheduleThesisShape(cfg: Config, s: State, h: nat)
    requires DistinctTwins(cfg) && h < |s.theses|
    requires forall i :: 0 <= i < |s.tasks| ==> s.tasks[i].thesis != h
    ensures var r := ScheduleThesis(cfg, s, h);
            r.cursor == s.cursor + Replicas(cfg, s.theses[h]) && r.candidates == s.candidates &&
            r.theses == s.theses[h := s.theses[h].(status := Scheduled)] &&
            r.tasks == s.tasks + NewProbes(cfg, s, h)
    ensures var made := NewProbes(cfg, s, h); |made| == 2 ==> made[0].home != made[1].home
  {
    var n, p := |cfg.twins|, s.theses[h].priority;
    var a := cfg.twins[s.cursor % n];
    assert NextTwin(cfg.twins, s.cursor, None, n) == (a, s.cursor + 1);
    var t1 := MakeProbe(s.tasks, h, p, a, s.now);
    assert t1 == s.tasks + [Task(h, a, a, Probe, p, s.now, Ready, 0)];
    if n > 1 {
      TwinDiffers(cfg, s.cursor);
      var b := cfg.twins[(s.cursor + 1) % n];
      assert NextTwin(cfg.twins, s.cursor + 1, Some(a), n) == (b, s.cursor + 2);
      assert !ActiveProbe(t1, h, b);
    }
  }

  lemma {:induction false} AppendProbe(tasks: seq<Task>, t: Task)
    ensures ProbeHomes(tasks + [t]) == ProbeHomes(tasks) + (if t.kind.Probe? then [t.home] else [])
    ensures forall h: nat :: ProbesOf(tasks + [t], h) ==
              ProbesOf(tasks, h) + if t.kind.Probe? && t.thesis == h then 1 else 0
  {
    assert (tasks + [t])[..|tasks|] == tasks;
  }

  /** One more probe, on the twin whose turn it is. */
  lemma {:induction false} ProbeAdded(cfg: Config, tasks: seq<Task>, cursor: nat, t: Task)
    requires DistinctTwins(cfg) && RoundRobin(cfg, tasks, cursor)
    requires t.kind.Probe? && t.home == cfg.twins[cursor % |cfg.twins|]
    ensures RoundRobin(cfg, tasks + [t], cursor + 1)
  {
    AppendProbe(tasks, t);
  }

  lemma {:induction false} ScheduleThesisSched(cfg: Config, s: State, h: nat)
    requires DistinctTwins(cfg) && Sched(cfg, s) && h < |s.theses| && s.theses[h].status.Open?
    ensures Sched(cfg, ScheduleThesis(cfg, s, h))
  {
    var r := ScheduleThesis(cfg, s, h);
    ScheduleThesisShape(cfg, s, h);
    var made := NewProbes(cfg, s, h);
    assert RoundRobin(cfg, r.tasks, r.cursor) &&
           forall g: nat :: ProbesOf(r.tasks, g) == ProbesOf(s.tasks, g) + if g == h then |made| else 0 by {
      NewProbesInTurn(cfg, s, h);
    }
    ScheduledThesis(cfg, s, h, r, made);
    assert DistinctFingerprints(r.theses);
  }

  lemma {:induction false} NewProbesInTurn(cfg: Config, s: State, h: nat)
    requires DistinctTwins(cfg) && RoundRobin(cfg, s.tasks, s.cursor) && h < |s.theses|
    ensures var made := NewProbes(cfg, s, h);
            RoundRobin(cfg, s.tasks + made, s.cursor + |made|) &&
            forall g: nat :: ProbesOf(s.tasks + made, g) == ProbesOf(s.tasks, g) + if g == h then |made| else 0
  {
    var made := NewProbes(cfg, s, h);
    var t := made[0];
    ProbeAdded(cfg, s.tasks, s.cursor, t);
    AppendProbe(s.tasks, t);
    if |made| == 2 {
      ProbeAdded(cfg, s.tasks + [t], s.cursor + 1, made[1]);
      AppendProbe(s.tasks + [t], made[1]);
      assert s.tasks + made == s.tasks + [t] + [made[1]];
    } else {
      assert s.tasks + made == s.tasks + [t];
    }
  }

  lemma {:induction false} ScheduledThesis(cfg: Config, s: State, h: nat, r: State, made: seq<Task>)
    requires cfg.twins != [] && PerThesis(cfg, s) && h < |s.theses| && s.theses[h].status.Open?
    requires r.tasks == s.tasks + made && r.candidates == s.candidates
    requires r.theses == s.theses[h := s.theses[h].(status := Scheduled)]
    requires |made| == Replicas(cfg, s.theses[h]) &&
             forall k :: 0 <= k < |made| ==> made[k].kind.Probe? && made[k].thesis == h
    requires |made| == 2 ==> made[0].home != made[1].home
    requires forall g: nat :: ProbesOf(r.tasks, g) == ProbesOf(s.tasks, g) + if g == h then |made| else 0
    ensures PerThesis(cfg, r)
  {
    forall i | 0 <= i < |r.tasks| ensures Worked(r.theses, r.tasks[i].thesis) {
      if i < |s.tasks| { assert Worked(s.theses, s.tasks[i].thesis); }
      else { assert r.tasks[i] == made[i - |s.tasks|]; }
    }
    forall c | 0 <= c < |r.candidates| ensures Worked(r.theses, r.candidates[c].thesis) {
      assert Worked(s.theses, s.candidates[c].thesis);
    }
    assert forall i :: 0 <= i < |s.tasks| ==> Worked(s.theses, s.tasks[i].thesis);
    ApartWithNew(s.tasks, h, made);
  }

  lemma {:induction false} ApartWithNew(tasks: seq<Task>, h: nat, made: seq<Task>)
    requires ApartAtBirth(tasks) && |made| <= 2 && (|made| == 2 ==> made[0].home != made[1].home)
    requires forall i :: 0 <= i < |tasks| ==> tasks[i].thesis != h
    requires forall k :: 0 <= k < |made| ==> made[k].thesis == h
    ensures ApartAtBirth(tasks + made)
  {
    var r := tasks + made;
    forall i, j | 0 <= i < j < |r| && SameThesisProbes(r[i], r[j]) ensures r[i].home != r[j].home {
      if j >= |tasks| { assert r[j].thesis == h; }
    }
  }

  lemma {:induction false} ScheduleThesesSched(cfg: Config, s: State, q: seq<nat>, made: nat)
    requires DistinctTwins(cfg) && Sched(cfg, s) && InRange(q, |s.theses|) && Distinct(q)
    requires forall a :: 0 <= a < |q| ==> s.theses[q[a]].status.Open?
    ensures Sched(cfg, ScheduleTheses(cfg, s, q, made))
    decreases |q|
  {
    if q != [] && made < MAX_NEW_TASKS {
      var s1 := ScheduleThesis(cfg, s, q[0]);
      ScheduleThesisSched(cfg, s, q[0]);
      ScheduleThesisShape(cfg, s, q[0]);
      ScheduleThesesSched(cfg, s1, q[1..], made + |s1.tasks| - |s.tasks|);
    }
  }

  lemma {:induction false} ScheduleVerificationsSched(cfg: Config, s: State, before: seq<Task>, c: nat)
    requires cfg.twins != [] && Sched(cfg, s)
    ensures Sched(cfg, ScheduleVerifications(s, before, c))
    decreases |s.candidates| - c
  {
    if c < |s.candidates| {
      var d := s.candidates[c];
      if !d.status.Unverified? || HasVerifyTask(before, c) { ScheduleVerificationsSched(cfg, s, before, c + 1); }
      else {
        var t := Task(d.thesis, d.twin, d.twin, Verify(c), VERIFY_PRIORITY, s.now, Ready, 0);
        var r := s.(tasks := s.tasks + [t], candidates := s.candidates[c := d.(status := Verifying)]);
        AppendProbe(s.tasks, t);
        assert Sched(cfg, r);
        ScheduleVerificationsSched(cfg, r, before, c + 1);
      }
    }
  }

  // ---- dispatch, ticks, lives -----------------------------------------------------------------------

  /** A run of task `t` leaves the origins alone; its candidates are of `t`'s thesis. */
  predicate Origins(s: State, t: Task, r: State) {
    r.theses == s.theses && r.cursor == s.cursor && r.current == s.current && |r.tasks| == |s.tasks| &&
    (forall j :: 0 <= j < |s.tasks| ==> SameOrigin(s.tasks[j], r.tasks[j]) && r.tasks[j].twin == s.tasks[j].twin) &&
    (forall c :: 0 <= c < |r.candidates| ==>
       r.candidates[c].thesis == if c < |s.candidates| then s.candidates[c].thesis else t.thesis)
  }

  lemma {:induction false} WorkOrigins(cfg: Config, s: State, t: Task, worker: nat, env: RunEnv)
    ensures Origins(s, t, Work(cfg, s, t, worker, env))
    ensures Work(cfg, s, t, worker, env).tasks == s.tasks && Work(cfg, s, t, worker, env).leases == s.leases
    ensures |Work(cfg, s, t, worker, env).candidates| >= |s.candidates|
  {
  }

  lemma {:induction false} AfterRunOrigins(s: State, t: Task, i: nat, l: nat, kind: Kind, outcome: Outcome)
    requires i < |s.tasks| && l < |s.leases|
    ensures Origins(s, t, AfterRun(s, i, l, kind, outcome)) &&
            AfterRun(s, i, l, kind, outcome).candidates == s.candidates
  {
  }

  lemma {:induction false} RunOneOrigins(cfg: Config, s: State, i: nat, env: RunEnv)
    requires i < |s.tasks|
    ensures Origins(s, s.tasks[i], RunOne(cfg, s, i, env))
  {
    var s1 := Start(cfg, s, i, env.delay);
    if !Leased(s.leases, s1.now, i) {
      if env.handleOk {
        WorkOrigins(cfg, s1, s.tasks[i], s.workers, env);
        AfterRunOrigins(Work(cfg, s1, s.tasks[i], s.workers, env), s.tasks[i], i, |s.leases|, s.tasks[i].kind,
          env.outcome);
      } else {
        AfterRunOrigins(s1, s.tasks[i], i, |s.leases|, Probe, Fails);
      }
    }
  }

  lemma {:induction false} RunOneSched(cfg: Config, s: State, i: nat, env: RunEnv)
    requires cfg.twins != [] && Sched(cfg, s) && i < |s.tasks|
    ensures Sched(cfg, RunOne(cfg, s, i, env))
  {
    RunOneOrigins(cfg, s, i, env);
    SchedStable(cfg, s, RunOne(cfg, s, i, env));
  }

  lemma {:induction false} DispatchSched(cfg: Config, s: State, q: seq<nat>, k: nat, runs: nat -> RunEnv)
    requires cfg.twins != [] && Sched(cfg, s) && InRange(q, |s.tasks|)
    ensures Sched(cfg, Dispatch(cfg, s, q, k, runs).s)
    decreases |q| - k
  {
    if k < |q| {
      RunOneSched(cfg, s, q[k], runs(k));
      if !Dies(s, q[k], runs(k)) { DispatchSched(cfg, RunOne(cfg, s, q[k], runs(k)), q, k + 1, runs); }
    }
  }

  lemma {:induction false} PrepareSched(cfg: Config, s: State, env: TickEnv, drain: bool)
    requires DistinctTwins(cfg) && Sched(cfg, s)
    ensures Sched(cfg, Prepare(cfg, s, env, drain))
  {
    var s1 := RecoverLeases(s);
    SchedStable(cfg, s, s1);
    RecoverTwinsStable(cfg, s1, env.twins, 0);
    var s2 := RecoverTwins(cfg, s1, env.twins, 0);
    PlanKeepsSched(cfg, s2, env);
    var p := PlanIfNeeded(cfg, s2, env);
    OpenThesesReady(cfg, p);
    ScheduleThesesSched(cfg, p, OpenTheses(cfg, p.theses), 0);
    var s3 := if drain then s2 else ScheduleTheses(cfg, p, OpenTheses(cfg, p.theses), 0);
    ScheduleVerificationsSched(cfg, s3, s3.tasks, 0);
  }

  lemma {:induction false} FinishSched(cfg: Config, s: State, env: TickEnv, drain: bool)
    requires cfg.twins != [] && Sched(cfg, s)
    ensures Sched(cfg, Finish(cfg, s, env, drain).s)
  {
    var q := Take(ReadyTasks(cfg, s.tasks), cfg.concurrency);
    DispatchSched(cfg, s, q, 0, env.runs);
    var d := Dispatch(cfg, s, q, 0, env.runs).s;
    UpdateThesesSched(cfg, d);
  }

  lemma {:induction false} UpdateThesesSched(cfg: Config, s: State)
    requires cfg.twins != [] && Sched(cfg, s)
    ensures Sched(cfg, UpdateTheses(s))
  {
    SchedStable(cfg, s, UpdateTheses(s));
  }

  lemma {:induction false} ProceedSched(cfg: Config, s: State, env: TickEnv, drain: bool)
    requires DistinctTwins(cfg) && Sched(cfg, s)
    ensures Sched(cfg, Finish(cfg, Prepare(cfg, s, env, drain), env, drain).s)
  {
    PrepareSched(cfg, s, env, drain);
    FinishSched(cfg, Prepare(cfg, s, env, drain), env, drain);
  }

  lemma {:induction false} ElapseSched(cfg: Config, s: State, env: TickEnv)
    requires cfg.twins != [] && Sched(cfg, s)
    ensures Sched(cfg, Elapse(s, env))
  {
  }

  lemma {:induction false} TickSched(cfg: Config, s: State, env: TickEnv, drain: bool)
    requires DistinctTwins(cfg) && Sched(cfg, s)
    ensures Sched(cfg, Tick(cfg, s, env, drain).s)
  {
    if HeadStop(cfg, s, env).None? { ProceedSched(cfg, s, env, drain); }
  }

  lemma {:induction false} RunSched(cfg: Config, s: State, envs: seq<TickEnv>, drain: bool)
    requires DistinctTwins(cfg) && Sched(cfg, s)
    ensures Sched(cfg, Run(cfg, s, envs, drain).0)
    decreases |envs|
  {
    if envs != [] {
      var s1 := Elapse(s, envs[0]);
      ElapseSched(cfg, s, envs[0]);
      TickSched(cfg, s1, envs[0], drain);
      var r := Tick(cfg, s1, envs[0], drain);
      if r.Go? { RunSched(cfg, r.s, envs[1..], drain); }
    }
  }

  lemma {:induction false} LivesSched(cfg: Config, s: State, lives: seq<Life>)
    requires DistinctTwins(cfg) && Sched(cfg, s)
    ensures Sched(cfg, LiveAll(cfg, s, lives))
    decreases |lives|
  {
    if lives != [] {
      var b := Boot(cfg, s, lives[0].downtime);
      SchedStable(cfg, s, b);
      SchedStable(cfg, b, Booted(cfg, s, lives[0]));
      RunSched(cfg, Booted(cfg, s, lives[0]), lives[0].ticks, lives[0].drain);
      LivesSched(cfg, Live(cfg, s, lives[0]).0, lives[1..]);
    }
  }

  // ---- balance ------------------------------------------------------------------------------------------

  function CountTwin(homes: seq<Twin>, t: Twin): nat {
    if homes == [] then 0 else CountTwin(homes[..|homes| - 1], t) + if homes[|homes| - 1] == t then 1 else 0
  }

  lemma {:induction false} RoundCounts(cfg: Config, homes: seq<Twin>, a: nat)
    requires DistinctTwins(cfg) && a < |cfg.twins|
    requires forall k :: 0 <= k < |homes| ==> homes[k] == cfg.twins[k % |cfg.twins|]
    ensures CountTwin(homes, cfg.twins[a]) == |homes| / |cfg.twins| + if a < |homes| % |cfg.twins| then 1 else 0
    decreases |homes|
  {
    var n := |cfg.twins|;
    if homes != [] {
      var m := |homes| - 1;
      RoundCounts(cfg, homes[..m], a);
      assert homes[m] == cfg.twins[m % n];
      assert homes[m] == cfg.twins[a] <==> m % n == a;
      NextDivMod(m, n);
    } else { DivModIs(0, 0, 0, n); }
  }

  /** In every reachable state the k-th probe ever created was created on twin k mod n; each thesis that was
      scheduled has exactly its replicas, on different twins; and any two twins were given numbers of probes
      that differ by at most one. */
  lemma {:induction false} TwinsShareTheWork(cfg: Config, now: nat, lives: seq<Life>, a: nat, b: nat)
    requires DistinctTwins(cfg) && a < |cfg.twins| && b < |cfg.twins|
    ensures var s := LiveAll(cfg, Blank(now), lives);
            var homes := ProbeHomes(s.tasks);
            Sched(cfg, s) &&
            (forall k :: 0 <= k < |homes| ==> homes[k] == cfg.twins[k % |cfg.twins|]) &&
            -1 <= CountTwin(homes, cfg.twins[a]) - CountTwin(homes, cfg.twins[b]) <= 1
  {
    var s := LiveAll(cfg, Blank(now), lives);
    LivesSched(cfg, Blank(now), lives);
    RoundCounts(cfg, ProbeHomes(s.tasks), a);
    RoundCounts(cfg, ProbeHomes(s.tasks), b);
  }

  // ---- replicas stay apart when twins are replaced ------------------------------------------------------------

  /** Twins replaced by `recover` keep their lineage (the factory names them after the twin they replace). */
  ghost predicate KeepsLineage(cfg: Config, lineage: Twin -> nat, env: TickEnv) {
    forall k :: 0 <= k < |cfg.twins| ==> lineage(env.twins(k).replacement) == lineage(cfg.twins[k])
  }

  predicate AtHome(cfg: Config, lineage: Twin -> nat, s: State) {
    (forall i {:trigger TaskAtHome(lineage, s.tasks[i])} :: 0 <= i < |s.tasks| ==> TaskAtHome(lineage, s.tasks[i])) &&
    (forall k {:trigger TwinAtHome(lineage, s.current, cfg.twins[k])} :: 0 <= k < |cfg.twins| ==>
      TwinAtHome(lineage, s.current, cfg.twins[k]))
  }

  predicate TaskAtHome(lineage: Twin -> nat, t: Task) { lineage(t.twin) == lineage(t.home) }

  predicate TwinAtHome(lineage: Twin -> nat, current: map<Twin, Twin>, t: Twin) {
    lineage(CurrentTwin(current, t)) == lineage(t)
  }

  predicate SameTwin(t: Task, u: Task) { u.twin == t.twin && u.home == t.home }

  /** Nobody moved; new tasks start at home. */
  lemma {:induction false} StillAtHome(cfg: Config, lineage: Twin -> nat, s: State, r: State)
    requires AtHome(cfg, lineage, s) && r.current == s.current && |s.tasks| <= |r.tasks|
    requires forall i {:trigger SameTwin(s.tasks[i], r.tasks[i])} :: 0 <= i < |s.tasks| ==>
             SameTwin(s.tasks[i], r.tasks[i])
    requires forall i {:trigger r.tasks[i].twin} :: |s.tasks| <= i < |r.tasks| ==> r.tasks[i].twin == r.tasks[i].home
    ensures AtHome(cfg, lineage, r)
  {
    forall i | 0 <= i < |r.tasks| ensures TaskAtHome(lineage, r.tasks[i]) {
      if i < |s.tasks| { assert SameTwin(s.tasks[i], r.tasks[i]) && TaskAtHome(lineage, s.tasks[i]); }
    }
    forall k | 0 <= k < |cfg.twins| ensures TwinAtHome(lineage, r.current, cfg.twins[k]) {
      assert TwinAtHome(lineage, s.current, cfg.twins[k]);
    }
  }

  lemma {:induction false} RecoverTwinAtHome(cfg: Config, lineage: Twin -> nat, s: State, k: nat, env: TwinEnv)
    requires AtHome(cfg, lineage, s) && k < |cfg.twins| && lineage(env.replacement) == lineage(cfg.twins[k])
    ensures AtHome(cfg, lineage, RecoverTwin(s, cfg.twins[k], env))
  {
    var r := RecoverTwin(s, cfg.twins[k], env);
    assert TwinAtHome(lineage, s.current, cfg.twins[k]);
    forall i | 0 <= i < |r.tasks| ensures TaskAtHome(lineage, r.tasks[i]) { assert TaskAtHome(lineage, s.tasks[i]); }
    forall j | 0 <= j < |cfg.twins| ensures TwinAtHome(lineage, r.current, cfg.twins[j]) {
      assert TwinAtHome(lineage, s.current, cfg.twins[j]);
    }
  }

  lemma {:induction false} RecoverTwinsAtHome(cfg: Config, lineage: Twin -> nat, s: State, env: nat -> TwinEnv, k: nat)
    requires AtHome(cfg, lineage, s) &&
             forall j :: k <= j < |cfg.twins| ==> lineage(env(j).replacement) == lineage(cfg.twins[j])
    ensures AtHome(cfg, lineage, RecoverTwins(cfg, s, env, k))
    decreases |cfg.twins| - k
  {
    if k < |cfg.twins| {
      RecoverTwinAtHome(cfg, lineage, s, k, env(k));
      RecoverTwinsAtHome(cfg, lineage, RecoverTwin(s, cfg.twins[k], env(k)), env, k + 1);
    }
  }

  lemma {:induction false} ScheduleThesesAtHome(cfg: Config, lineage: Twin -> nat, s: State, q: seq<nat>, made: nat)
    requires cfg.twins != [] && InRange(q, |s.theses|) && AtHome(cfg, lineage, s)
    ensures AtHome(cfg, lineage, ScheduleTheses(cfg, s, q, made))
    decreases |q|
  {
    if q != [] && made < MAX_NEW_TASKS {
      var s1 := ScheduleThesis(cfg, s, q[0]);
      ProbeThesisFresh(cfg, s, q[0]);
      StillAtHome(cfg, lineage, s, s1);
      ScheduleThesesAtHome(cfg, lineage, s1, q[1..], made + |s1.tasks| - |s.tasks|);
    }
  }

  lemma {:induction false} ScheduleVerificationsAtHome(cfg: Config, lineage: Twin -> nat, s: State, before: seq<Task>,
                                                       c: nat)
    requires AtHome(cfg, lineage, s)
    ensures AtHome(cfg, lineage, ScheduleVerifications(s, before, c))
    decreases |s.candidates| - c
  {
    if c < |s.candidates| {
      var d := s.candidates[c];
      if !d.status.Unverified? || HasVerifyTask(before, c) {
        ScheduleVerificationsAtHome(cfg, lineage, s, before, c + 1);
      }
      else {
        var r := s.(tasks := s.tasks + [Task(d.thesis, d.twin, d.twin, Verify(c), VERIFY_PRIORITY, s.now, Ready, 0)],
                    candidates := s.candidates[c := d.(status := Verifying)]);
        StillAtHome(cfg, lineage, s, r);
        ScheduleVerificationsAtHome(cfg, lineage, r, before, c + 1);
      }
    }
  }

  lemma {:induction false} RunOneAtHome(cfg: Config, lineage: Twin -> nat, s: State, i: nat, env: RunEnv)
    requires i < |s.tasks| && AtHome(cfg, lineage, s)
    ensures AtHome(cfg, lineage, RunOne(cfg, s, i, env))
  {
    RunOneOrigins(cfg, s, i, env);
    StillAtHome(cfg, lineage, s, RunOne(cfg, s, i, env));
  }

  lemma {:induction false} DispatchAtHome(cfg: Config, lineage: Twin -> nat, s: State, q: seq<nat>, k: nat,
                                          runs: nat -> RunEnv)
    requires InRange(q, |s.tasks|) && AtHome(cfg, lineage, s)
    ensures AtHome(cfg, lineage, Dispatch(cfg, s, q, k, runs).s)
    decreases |q| - k
  {
    if k < |q| {
      RunOneAtHome(cfg, lineage, s, q[k], runs(k));
      if !Dies(s, q[k], runs(k)) { DispatchAtHome(cfg, lineage, RunOne(cfg, s, q[k], runs(k)), q, k + 1, runs); }
    }
  }

  lemma {:induction false} PrepareAtHome(cfg: Config, lineage: Twin -> nat, s: State, env: TickEnv, drain: bool)
    requires cfg.twins != [] && AtHome(cfg, lineage, s) && KeepsLineage(cfg, lineage, env)
    ensures AtHome(cfg, lineage, Prepare(cfg, s, env, drain))
  {
    var s1 := RecoverLeases(s);
    StillAtHome(cfg, lineage, s, s1);
    RecoverTwinsAtHome(cfg, lineage, s1, env.twins, 0);
    var s2 := RecoverTwins(cfg, s1, env.twins, 0);
    var p := PlanIfNeeded(cfg, s2, env);
    ScheduleThesesAtHome(cfg, lineage, p, OpenTheses(cfg, p.theses), 0);
    var s3 := if drain then s2 else ScheduleTheses(cfg, p, OpenTheses(cfg, p.theses), 0);
    ScheduleVerificationsAtHome(cfg, lineage, s3, s3.tasks, 0);
  }

  lemma {:induction false} FinishAtHome(cfg: Config, lineage: Twin -> nat, s: State, env: TickEnv, drain: bool)
    requires AtHome(cfg, lineage, s)
    ensures AtHome(cfg, lineage, Finish(cfg, s, env, drain).s)
  {
    var q := Take(ReadyTasks(cfg, s.tasks), cfg.concurrency);
    DispatchAtHome(cfg, lineage, s, q, 0, env.runs);
    var d := Dispatch(cfg, s, q, 0, env.runs).s;
    StillAtHome(cfg, lineage, d, UpdateTheses(d));
  }

  lemma {:induction false} ProceedAtHome(cfg: Config, lineage: Twin -> nat, s: State, env: TickEnv, drain: bool)
    requires cfg.twins != [] && AtHome(cfg, lineage, s) && KeepsLineage(cfg, lineage, env)
    ensures AtHome(cfg, lineage, Finish(cfg, Prepare(cfg, s, env, drain), env, drain).s)
  {
    PrepareAtHome(cfg, lineage, s, env, drain);
    FinishAtHome(cfg, lineage, Prepare(cfg, s, env, drain), env, drain);
  }

  lemma {:induction false} TickAtHome(cfg: Config, lineage: Twin -> nat, s: State, env: TickEnv, drain: bool)
    requires cfg.twins != [] && AtHome(cfg, lineage, s) && KeepsLineage(cfg, lineage, env)
    ensures AtHome(cfg, lineage, Tick(cfg, s, env, drain).s)
  {
    if HeadStop(cfg, s, env).None? { ProceedAtHome(cfg, lineage, s, env, drain); }
  }

  lemma {:induction false} RunAtHome(cfg: Config, lineage: Twin -> nat, s: State, envs: seq<TickEnv>, drain: bool)
    requires cfg.twins != [] && AtHome(cfg, lineage, s)
    requires forall k :: 0 <= k < |envs| ==> KeepsLineage(cfg, lineage, envs[k])
    ensures AtHome(cfg, lineage, Run(cfg, s, envs, drain).0)
    decreases |envs|
  {
    if envs != [] {
      var s1 := Elapse(s, envs[0]);
      StillAtHome(cfg, lineage, s, s1);
      TickAtHome(cfg, lineage, s1, envs[0], drain);
      var r := Tick(cfg, s1, envs[0], drain);
      if r.Go? { RunAtHome(cfg, lineage, r.s, envs[1..], drain); }
    }
  }

  lemma {:induction false} BootedAtHome(cfg: Config, lineage: Twin -> nat, s: State, life: Life)
    requires AtHome(cfg, lineage, s)
    ensures AtHome(cfg, lineage, Booted(cfg, s, life))
  {
    var b := Boot(cfg, s, life.downtime);
    forall i | 0 <= i < |b.tasks| ensures TaskAtHome(lineage, b.tasks[i]) { assert TaskAtHome(lineage, s.tasks[i]); }
    assert AtHome(cfg, lineage, b);
    StillAtHome(cfg, lineage, b, RecoverLeases(b));
  }

  lemma {:induction false} LivesAtHome(cfg: Config, lineage: Twin -> nat, s: State, lives: seq<Life>)
    requires cfg.twins != [] && AtHome(cfg, lineage, s)
    requires forall n, k :: 0 <= n < |lives| && 0 <= k < |lives[n].ticks| ==>
             KeepsLineage(cfg, lineage, lives[n].ticks[k])
    ensures AtHome(cfg, lineage, LiveAll(cfg, s, lives))
    decreases |lives|
  {
    if lives != [] {
      var b := Booted(cfg, s, lives[0]);
      BootedAtHome(cfg, lineage, s, lives[0]);
      RunAtHome(cfg, lineage, b, lives[0].ticks, lives[0].drain);
      LivesAtHome(cfg, lineage, Live(cfg, s, lives[0]).0, lives[1..]);
    }
  }

  /** Replication is independent for good: as long as replaced twins keep their lineage, no two probe tasks of
      one thesis, active or finished, ever sit on one twin, across any number of restarts and replacements. */
  lemma {:induction false} ReplicasStayApart(cfg: Config, lineage: Twin -> nat, now: nat, lives: seq<Life>, i: nat,
                                             j: nat)
    requires DistinctTwins(cfg)
    requires forall a, b :: 0 <= a < b < |cfg.twins| ==> lineage(cfg.twins[a]) != lineage(cfg.twins[b])
    requires forall n, k :: 0 <= n < |lives| && 0 <= k < |lives[n].ticks| ==>
             KeepsLineage(cfg, lineage, lives[n].ticks[k])
    requires var tasks := LiveAll(cfg, Blank(now), lives).tasks;
             i < j < |tasks| && SameThesisProbes(tasks[i], tasks[j])
    ensures var tasks := LiveAll(cfg, Blank(now), lives).tasks; tasks[i].twin != tasks[j].twin
  {
    var s := LiveAll(cfg, Blank(now), lives);
    LivesSched(cfg, Blank(now), lives);
    LivesAtHome(cfg, lineage, Blank(now), lives);
    Apart(cfg, lineage, s, i, j);
  }

  lemma {:induction false} Apart(cfg: Config, lineage: Twin -> nat, s: State, i: nat, j: nat)
    requires DistinctTwins(cfg) && Sched(cfg, s) && AtHome(cfg, lineage, s)
    requires forall a, b :: 0 <= a < b < |cfg.twins| ==> lineage(cfg.twins[a]) != lineage(cfg.twins[b])
    requires i < j < |s.tasks| && SameThesisProbes(s.tasks[i], s.tasks[j])
    ensures s.tasks[i].twin != s.tasks[j].twin
  {
    assert TaskAtHome(lineage, s.tasks[i]) && TaskAtHome(lineage, s.tasks[j]);
    HomesAreTwins(cfg, s.tasks, i);
    HomesAreTwins(cfg, s.tasks, j);
  }

  lemma {:induction false} HomesAreTwins(cfg: Config, tasks: seq<Task>, i: nat)
    requires cfg.twins != [] && i < |tasks| && tasks[i].kind.Probe?
    requires forall k :: 0 <= k < |ProbeHomes(tasks)| ==> ProbeHomes(tasks)[k] == cfg.twins[k % |cfg.twins|]
    ensures tasks[i].home in cfg.twins
    decreases |tasks|
  {
    var n := |tasks| - 1;
    var homes := ProbeHomes(tasks[..n]);
    assert homes <= ProbeHomes(tasks);
    if i == n { assert ProbeHomes(tasks)[|homes|] == tasks[n].home; }
    else { HomesAreTwins(cfg, tasks[..n], i); }
  }
}
