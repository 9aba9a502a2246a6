/**
 How often a candidate is decided.  A verification makes two appends, its record and then the candidate's update, and
 one that is cut short is tried again.  So records may pile up, but never more than three; a decision always comes from
 one of the candidate's own records; and that is the last one unless a later attempt stopped between its two appends.
 */
module CampaignVerdicts {
  import opened Options
  import opened Campaign
  import opened CampaignSafety

  // ---- counting records ----------------------------------------------------------------------

  /** How many of the records are about candidate `c`, and the last of them. */
  function Verdicts(vs: seq<Verification>, c: nat): nat {
    if vs == [] then 0 else Verdicts(vs[..|vs| - 1], c) + if vs[|vs| - 1].candidate == c then 1 else 0
  }

  function LastVerdict(vs: seq<Verification>, c: nat): Option<nat> {
    if vs == [] then None
    else if vs[|vs| - 1].candidate == c then Some(|vs| - 1)
    else LastVerdict(vs[..|vs| - 1], c)
  }

  /** The last record about candidate `c` whose decision reached the candidate. */
  function LastSettled(vs: seq<Verification>, settled: set<nat>, c: nat): Option<nat> {
    if vs == [] then None
    else if vs[|vs| - 1].candidate == c && |vs| - 1 in settled then Some(|vs| - 1)
    else LastSettled(vs[..|vs| - 1], settled, c)
  }

  predicate IsAbout(vs: seq<Verification>, k: nat, c: nat) { k < |vs| && vs[k].candidate == c }

  lemma {:induction false} LastVerdictIs(vs: seq<Verification>, c: nat)
    ensures LastVerdict(vs, c).None? <==> Verdicts(vs, c) == 0
    ensures LastVerdict(vs, c).Some? ==> IsAbout(vs, LastVerdict(vs, c).value, c)
    ensures forall k: nat :: IsAbout(vs, k, c) ==> LastVerdict(vs, c).Some? && k <= LastVerdict(vs, c).value
    decreases |vs|
  {
    if vs != [] {
      LastVerdictIs(vs[..|vs| - 1], c);
      forall k: nat | IsAbout(vs, k, c) ensures LastVerdict(vs, c).Some? && k <= LastVerdict(vs, c).value {
        assert k < |vs| - 1 ==> IsAbout(vs[..|vs| - 1], k, c);
      }
    }
  }

  lemma {:induction false} LastSettledIs(vs: seq<Verification>, settled: set<nat>, c: nat)
    ensures var last := LastSettled(vs, settled, c); last.Some? ==> IsAbout(vs, last.value, c) && last.value in settled
    ensures var last := LastSettled(vs, settled, c);
            forall k: nat :: IsAbout(vs, k, c) && k in settled ==> last.Some? && k <= last.value
    decreases |vs|
  {
    if vs != [] {
      LastSettledIs(vs[..|vs| - 1], settled, c);
      var last := LastSettled(vs, settled, c);
      forall k: nat | IsAbout(vs, k, c) && k in settled ensures last.Some? && k <= last.value {
        assert k < |vs| - 1 ==> IsAbout(vs[..|vs| - 1], k, c);
      }
    }
  }

  /** Only the numbers of the records count. */
  lemma {:induction false} LaterDoesNotMatter(vs: seq<Verification>, settled: set<nat>, n: nat, c: nat)
    requires |vs| <= n
    ensures LastSettled(vs, settled + {n}, c) == LastSettled(vs, settled, c)
    decreases |vs|
  {
    if vs != [] { LaterDoesNotMatter(vs[..|vs| - 1], settled, n, c); }
  }

  lemma {:induction false} OneMoreVerdict(vs: seq<Verification>, rec: Verification, settled: set<nat>, both: bool,
                                          c: nat)
    requires forall k <- settled :: k < |vs|
    ensures Verdicts(vs + [rec], c) == Verdicts(vs, c) + if rec.candidate == c then 1 else 0
    ensures LastSettled(vs + [rec], if both then settled + {|vs|} else settled, c) ==
            if both && rec.candidate == c then Some(|vs|) else LastSettled(vs, settled, c)
  {
    assert (vs + [rec])[..|vs|] == vs;
    LaterDoesNotMatter(vs, settled, |vs|, c);
  }

  lemma {:induction false} NoVerdicts(vs: seq<Verification>, settled: set<nat>, n: nat, c: nat)
    requires (forall k :: 0 <= k < |vs| ==> vs[k].candidate < n) && c >= n
    ensures Verdicts(vs, c) == 0 && LastSettled(vs, settled, c) == None
    decreases |vs|
  {
    if vs != [] { NoVerdicts(vs[..|vs| - 1], settled, n, c); }
  }

  // ---- the invariant ----------------------------------------------------------------------------

  /** How many records a verify task may have left so far: one for each attempt begun. */
  function Tries(t: Task): nat { t.attempts + if t.status.Running? || t.status.Done? then 1 else 0 }

  predicate TaskTried(s: State, i: nat)
    requires i < |s.tasks|
  {
    s.tasks[i].kind.Verify? ==> Verdicts(s.verifications, s.tasks[i].kind.candidate) <= Tries(s.tasks[i])
  }

  /** The candidate carries the decision of the last of its records that reached it, and is undecided without one. */
  predicate CandidateJudged(s: State, c: nat)
    requires c < |s.candidates|
  {
    var d := s.candidates[c];
    d.verification == LastSettled(s.verifications, s.settled, c) && (d.Decided() <==> d.verification.Some?) &&
    (d.verification.Some? ==>
       IsAbout(s.verifications, d.verification.value, c) && d.status == s.verifications[d.verification.value].status) &&
    (!HasVerifyTask(s.tasks, c) ==> Verdicts(s.verifications, c) == 0)
  }

  predicate Judged(s: State) {
    && (forall k <- s.settled :: k < |s.verifications|)
    && (forall k :: 0 <= k < |s.verifications| ==> s.verifications[k].candidate < |s.candidates|)
    && (forall i :: 0 <= i < |s.tasks| ==> TaskTried(s, i))
    && (forall c :: 0 <= c < |s.candidates| ==> CandidateJudged(s, c))
  }

  // ---- steps that record no verdict ----------------------------------------------------------------

  predicate TaskSteady(t: Task, u: Task) { u.kind == t.kind && Tries(t) <= Tries(u) }

  predicate CandidateSteady(c: Candidate, d: Candidate) {
    d.verification == c.verification && (d.status == c.status || (c.status.Unverified? && d.status.Verifying?))
  }

  predicate NewTaskFresh(s: State, t: Task) { t.kind.Verify? ==> !HasVerifyTask(s.tasks, t.kind.candidate) }

  predicate NewCandidateBlank(d: Candidate) { d.verification == None && !d.Decided() }

  predicate Steady(s: State, r: State) {
    && r.verifications == s.verifications && r.settled == s.settled && |s.tasks| <= |r.tasks| &&
         |s.candidates| <= |r.candidates|
    && (forall i {:trigger TaskSteady(s.tasks[i], r.tasks[i])} :: 0 <= i < |s.tasks| ==>
         TaskSteady(s.tasks[i], r.tasks[i]))
    && (forall i {:trigger NewTaskFresh(s, r.tasks[i])} :: |s.tasks| <= i < |r.tasks| ==> NewTaskFresh(s, r.tasks[i]))
    && (forall c {:trigger CandidateSteady(s.candidates[c], r.candidates[c])} :: 0 <= c < |s.candidates| ==>
         CandidateSteady(s.candidates[c], r.candidates[c]))
    && (forall c {:trigger NewCandidateBlank(r.candidates[c])} :: |s.candidates| <= c < |r.candidates| ==>
         NewCandidateBlank(r.candidates[c]))
  }

  lemma {:induction false} VerifyTaskStays(s: State, r: State, c: nat)
    requires Steady(s, r) && HasVerifyTask(s.tasks, c)
    ensures HasVerifyTask(r.tasks, c)
  {
    var i :| 0 <= i < |s.tasks| && s.tasks[i].kind == Verify(c);
    assert TaskSteady(s.tasks[i], r.tasks[i]);
  }

  lemma {:induction false} TasksStayTried(s: State, r: State, i: nat)
    requires Judged(s) && Steady(s, r) && i < |r.tasks|
    ensures TaskTried(r, i)
  {
    if i < |s.tasks| { assert TaskTried(s, i) && TaskSteady(s.tasks[i], r.tasks[i]); }
    else if r.tasks[i].kind.Verify? {
      var c := r.tasks[i].kind.candidate;
      assert NewTaskFresh(s, r.tasks[i]);
      if c < |s.candidates| { assert CandidateJudged(s, c); }
      else { NoVerdicts(s.verifications, s.settled, |s.candidates|, c); }
    }
  }

  lemma {:induction false} CandidatesStayJudged(s: State, r: State, c: nat)
    requires Judged(s) && Steady(s, r) && c < |r.candidates|
    ensures CandidateJudged(r, c)
  {
    if c < |s.candidates| {
      assert CandidateJudged(s, c) && CandidateSteady(s.candidates[c], r.candidates[c]);
      if HasVerifyTask(s.tasks, c) { VerifyTaskStays(s, r, c); }
    } else {
      assert NewCandidateBlank(r.candidates[c]);
      NoVerdicts(s.verifications, s.settled, |s.candidates|, c);
    }
  }

  lemma {:induction false} SteadyKeepsJudged(s: State, r: State)
    requires Judged(s) && Steady(s, r)
    ensures Judged(r)
  {
    forall i | 0 <= i < |r.tasks| ensures TaskTried(r, i) { TasksStayTried(s, r, i); }
    forall c | 0 <= c < |r.candidates| ensures CandidateJudged(r, c) { CandidatesStayJudged(s, r, c); }
  }

  lemma {:induction false} RecoverTwinsJudged(cfg: Config, s: State, env: nat -> TwinEnv, k: nat)
    requires Judged(s)
    ensures Judged(RecoverTwins(cfg, s, env, k))
    decreases |cfg.twins| - k
  {
    if k < |cfg.twins| {
      var s1 := RecoverTwin(s, cfg.twins[k], env(k));
      SteadyKeepsJudged(s, s1);
      RecoverTwinsJudged(cfg, s1, env, k + 1);
    }
  }

  lemma {:induction false} ScheduleThesesJudged(cfg: Config, s: State, q: seq<nat>, made: nat)
    requires Judged(s) && cfg.twins != [] && InRange(q, |s.theses|)
    ensures Judged(ScheduleTheses(cfg, s, q, made))
    decreases |q|
  {
    if q != [] && made < MAX_NEW_TASKS {
      var s1 := ScheduleThesis(cfg, s, q[0]);
      SteadyKeepsJudged(s, s1);
      ScheduleThesesJudged(cfg, s1, q[1..], made + |s1.tasks| - |s.tasks|);
    }
  }

  lemma {:induction false} ScheduleVerificationsJudged(cfg: Config, s: State, before: seq<Task>, c: nat)
    requires Inv(cfg, s) && Judged(s)
    ensures Judged(ScheduleVerifications(s, before, c))
    decreases |s.candidates| - c
  {
    if c < |s.candidates| {
      var d := s.candidates[c];
      if !d.status.Unverified? || HasVerifyTask(before, c) { ScheduleVerificationsJudged(cfg, s, before, c + 1); }
      else {
        var r := s.(tasks := s.tasks + [Task(d.thesis, d.twin, d.twin, Verify(c), VERIFY_PRIORITY, s.now, Ready, 0)],
                    candidates := s.candidates[c := d.(status := Verifying)]);
        forall i | 0 <= i < |s.tasks| ensures s.tasks[i].kind != Verify(c) { assert VerifyTaskOk(s, i); }
        assert NewTaskFresh(s, r.tasks[|s.tasks|]);
        SteadyKeepsJudged(s, r);
        ScheduleOneVerificationKeeps(cfg, s, c, r);
        ScheduleVerificationsJudged(cfg, r, before, c + 1);
      }
    }
  }

  // ---- one dispatch -----------------------------------------------------------------------------------

  /** A record on the candidate of task `i`, which has begun one attempt more than before; with `both`, its decision
      too. */
  lemma {:induction false} VerdictKeepsJudged(s: State, r: State, i: nat, c: nat, rec: Verification, both: bool)
    requires Judged(s) && OneVerifyTaskEach(s.tasks) && i < |s.tasks| && s.tasks[i].kind == Verify(c) &&
             c < |s.candidates|
    requires IsVerdict(s, r, c, rec, both)
    requires |r.tasks| == |s.tasks| && r.tasks[i].kind == s.tasks[i].kind && Tries(s.tasks[i]) + 1 <= Tries(r.tasks[i])
    requires forall j :: 0 <= j < |s.tasks| && j != i ==> r.tasks[j] == s.tasks[j]
    ensures Judged(r)
  {
    forall j | 0 <= j < |r.tasks| ensures TaskTried(r, j) {
      assert TaskTried(s, j);
      if r.tasks[j].kind.Verify? {
        OneMoreVerdict(s.verifications, rec, s.settled, both, r.tasks[j].kind.candidate);
        if j != i { assert s.tasks[j].kind != s.tasks[i].kind; }
      }
    }
    forall b | 0 <= b < |r.candidates| ensures CandidateJudged(r, b) {
      assert CandidateJudged(s, b);
      OneMoreVerdict(s.verifications, rec, s.settled, both, b);
      SameVerifyTasks(s.tasks, r.tasks, b);
    }
  }

  /** One or both appends of a verification of candidate `c`. */
  predicate IsVerdict(s: State, r: State, c: nat, rec: Verification, both: bool)
    requires c < |s.candidates|
  {
    rec.candidate == c && (rec.status.Verified? || rec.status.Rejected? || rec.status.Invalid?) &&
    r.verifications == s.verifications + [rec] &&
      r.settled == (if both then s.settled + {|s.verifications|} else s.settled) &&
    r.candidates ==
      if both then s.candidates[c := s.candidates[c].(status := rec.status, verification := Some(|s.verifications|))]
      else s.candidates
  }

  lemma {:induction false} SameVerifyTasks(before: seq<Task>, after: seq<Task>, c: nat)
    requires |after| == |before| && forall i :: 0 <= i < |before| ==> after[i].kind == before[i].kind
    ensures HasVerifyTask(after, c) <==> HasVerifyTask(before, c)
  {
  }

  /** The dispatch writes a record, and perhaps the decision. */
  predicate Decides(s: State, i: nat, env: RunEnv)
    requires i < |s.tasks|
  {
    s.tasks[i].kind.Verify? && env.handleOk && !Written(env).Nothing? && !Leased(s.leases, s.now + env.delay, i)
  }

  lemma {:induction false} AfterRunTouchesOneTask(s: State, i: nat, l: nat, kind: Kind, outcome: Outcome)
    requires i < |s.tasks| && l < |s.leases| && s.tasks[i].status.Running?
    ensures var r := AfterRun(s, i, l, kind, outcome);
            |r.tasks| == |s.tasks| && r.tasks[i].kind == s.tasks[i].kind && s.tasks[i].attempts <= Tries(r.tasks[i]) &&
            forall j :: 0 <= j < |s.tasks| && j != i ==> r.tasks[j] == s.tasks[j]
  {
  }

  lemma {:induction false} RunTouchesOneTask(cfg: Config, s: State, i: nat, env: RunEnv)
    requires i < |s.tasks| && s.tasks[i].status.Ready?
    ensures var r := RunOne(cfg, s, i, env);
            |r.tasks| == |s.tasks| && TaskSteady(s.tasks[i], r.tasks[i]) &&
            forall j :: 0 <= j < |s.tasks| && j != i ==> r.tasks[j] == s.tasks[j]
  {
    var s1 := Start(cfg, s, i, env.delay);
    if !Leased(s.leases, s1.now, i) && env.handleOk {
      var s2 := Work(cfg, s1, s.tasks[i], s.workers, env);
      assert s2.tasks == s1.tasks && s2.leases == s1.leases;
      AfterRunTouchesOneTask(s2, i, |s.leases|, s.tasks[i].kind, env.outcome);
    }
  }

  lemma {:induction false} UndecidedWorkOnlyClaims(cfg: Config, s: State, t: Task, worker: nat, env: RunEnv)
    requires t.kind.Verify? ==> Written(env).Nothing?
    ensures var r := Work(cfg, s, t, worker, env);
            r.verifications == s.verifications && r.settled == s.settled && s.candidates <= r.candidates &&
              r.tasks == s.tasks && r.leases == s.leases &&
            forall c {:trigger NewCandidateBlank(r.candidates[c])} :: |s.candidates| <= c < |r.candidates| ==>
              NewCandidateBlank(r.candidates[c])
  {
  }

  lemma {:induction false} AfterRunKeepsVerdicts(s: State, i: nat, l: nat, kind: Kind, outcome: Outcome)
    requires i < |s.tasks| && l < |s.leases|
    ensures var r := AfterRun(s, i, l, kind, outcome);
            r.verifications == s.verifications && r.settled == s.settled && r.candidates == s.candidates
  {
  }

  lemma {:induction false} UndecidedRunOnlyClaims(cfg: Config, s: State, i: nat, env: RunEnv)
    requires i < |s.tasks| && s.tasks[i].status.Ready? && !Decides(s, i, env)
    ensures var r := RunOne(cfg, s, i, env);
            r.verifications == s.verifications && r.settled == s.settled && s.candidates <= r.candidates &&
            forall c {:trigger NewCandidateBlank(r.candidates[c])} :: |s.candidates| <= c < |r.candidates| ==>
              NewCandidateBlank(r.candidates[c])
  {
    var s1 := Start(cfg, s, i, env.delay);
    if !Leased(s.leases, s1.now, i) && env.handleOk {
      UndecidedWorkOnlyClaims(cfg, s1, s.tasks[i], s.workers, env);
      AfterRunKeepsVerdicts(Work(cfg, s1, s.tasks[i], s.workers, env), i, |s.leases|, s.tasks[i].kind, env.outcome);
    }
  }

  lemma {:induction false} UndecidedRunIsSteady(cfg: Config, s: State, i: nat, env: RunEnv)
    requires i < |s.tasks| && s.tasks[i].status.Ready? && !Decides(s, i, env)
    ensures Steady(s, RunOne(cfg, s, i, env))
  {
    RunTouchesOneTask(cfg, s, i, env);
    UndecidedRunOnlyClaims(cfg, s, i, env);
  }

  lemma {:induction false} DecidedRunIs(cfg: Config, s: State, i: nat, env: RunEnv, c: nat) returns (rec: Verification)
    requires i < |s.tasks| && s.tasks[i].status.Ready? && s.tasks[i].kind == Verify(c) && c < |s.candidates| &&
             Decides(s, i, env)
    ensures var r := RunOne(cfg, s, i, env);
            IsVerdict(s, r, c, rec, Written(env).RecordAndDecision?) && Tries(s.tasks[i]) + 1 <= Tries(r.tasks[i])
  {
    DecideVerified(env.reproduced, env.verdict);
    var s1 := Start(cfg, s, i, env.delay);
    rec := VerdictOn(cfg, s.candidates[c], c, s.workers, env);
    AfterRunKeepsVerdicts(Work(cfg, s1, s.tasks[i], s.workers, env), i, |s.leases|, s.tasks[i].kind, env.outcome);
  }

  lemma {:induction false} RunOneJudged(cfg: Config, s: State, i: nat, env: RunEnv)
    requires Inv(cfg, s) && Judged(s) && i < |s.tasks| && s.tasks[i].status.Ready?
    ensures Judged(RunOne(cfg, s, i, env))
  {
    if Decides(s, i, env) {
      var c := s.tasks[i].kind.candidate;
      assert VerifyTaskOk(s, i);
      var rec := DecidedRunIs(cfg, s, i, env, c);
      RunTouchesOneTask(cfg, s, i, env);
      VerdictKeepsJudged(s, RunOne(cfg, s, i, env), i, c, rec, Written(env).RecordAndDecision?);
    } else {
      UndecidedRunIsSteady(cfg, s, i, env);
      SteadyKeepsJudged(s, RunOne(cfg, s, i, env));
    }
  }

  lemma {:induction false} DispatchJudged(cfg: Config, s: State, q: seq<nat>, k: nat, runs: nat -> RunEnv)
    requires Inv(cfg, s) && Judged(s) && QueueReady(s, q, k)
    ensures Judged(Dispatch(cfg, s, q, k, runs).s)
    decreases |q| - k
  {
    if k < |q| {
      RunOneKeeps(cfg, s, q[k], runs(k));
      RunOneJudged(cfg, s, q[k], runs(k));
      if !Dies(s, q[k], runs(k)) { DispatchJudged(cfg, RunOne(cfg, s, q[k], runs(k)), q, k + 1, runs); }
    }
  }

  // ---- ticks, runs and lives ------------------------------------------------------------------------------

  lemma {:induction false} PrepareJudged(cfg: Config, s: State, env: TickEnv, drain: bool)
    requires Inv(cfg, s) && Judged(s) && cfg.twins != []
    ensures Judged(Prepare(cfg, s, env, drain))
  {
    var s1 := RecoverLeases(s);
    RecoverLeasesKeeps(cfg, s);
    SteadyKeepsJudged(s, s1);
    RecoverTwinsKeeps(cfg, s1, env.twins, 0);
    RecoverTwinsJudged(cfg, s1, env.twins, 0);
    var s2 := RecoverTwins(cfg, s1, env.twins, 0);
    var p := PlanIfNeeded(cfg, s2, env);
    PlanningIsInvisible(cfg, s2, p);
    SteadyKeepsJudged(s2, p);
    ScheduleThesesKeeps(cfg, p, OpenTheses(cfg, p.theses), 0);
    ScheduleThesesJudged(cfg, p, OpenTheses(cfg, p.theses), 0);
    var s3 := if drain then s2 else ScheduleTheses(cfg, p, OpenTheses(cfg, p.theses), 0);
    ScheduleVerificationsJudged(cfg, s3, s3.tasks, 0);
  }

  lemma {:induction false} FinishJudged(cfg: Config, s: State, env: TickEnv, drain: bool)
    requires Inv(cfg, s) && Judged(s)
    ensures Judged(Finish(cfg, s, env, drain).s)
  {
    var q := Take(ReadyTasks(cfg, s.tasks), cfg.concurrency);
    TakeReady(cfg, s);
    DispatchJudged(cfg, s, q, 0, env.runs);
    var d := Dispatch(cfg, s, q, 0, env.runs);
    SteadyKeepsJudged(d.s, UpdateTheses(d.s));
  }

  lemma {:induction false} TickJudged(cfg: Config, s: State, env: TickEnv, drain: bool)
    requires Inv(cfg, s) && Judged(s) && cfg.twins != []
    ensures Judged(Tick(cfg, s, env, drain).s)
  {
    if HeadStop(cfg, s, env).None? {
      PrepareKeeps(cfg, s, env, drain);
      PrepareJudged(cfg, s, env, drain);
      FinishJudged(cfg, Prepare(cfg, s, env, drain), env, drain);
    }
  }

  lemma {:induction false} RunJudged(cfg: Config, s: State, envs: seq<TickEnv>, drain: bool)
    requires Inv(cfg, s) && Judged(s) && cfg.twins != []
    ensures Judged(Run(cfg, s, envs, drain).0)
    decreases |envs|
  {
    if envs != [] {
      var s1 := Elapse(s, envs[0]);
      ElapseKeeps(cfg, s, envs[0]);
      SteadyKeepsJudged(s, s1);
      TickKeeps(cfg, s1, envs[0], drain);
      TickJudged(cfg, s1, envs[0], drain);
      var r := Tick(cfg, s1, envs[0], drain);
      if r.Go? { RunJudged(cfg, r.s, envs[1..], drain); }
    }
  }

  lemma {:induction false} LivesJudged(cfg: Config, s: State, lives: seq<Life>)
    requires Inv(cfg, s) && Judged(s) && cfg.twins != []
    ensures Judged(LiveAll(cfg, s, lives))
    decreases |lives|
  {
    if lives != [] {
      var b := Boot(cfg, s, lives[0].downtime);
      PlanningIsInvisible(cfg, s, b);
      RecoverLeasesKeeps(cfg, b);
      SteadyKeepsJudged(s, b);
      SteadyKeepsJudged(b, Booted(cfg, s, lives[0]));
      RunJudged(cfg, Booted(cfg, s, lives[0]), lives[0].ticks, lives[0].drain);
      LiveKeeps(cfg, s, lives[0]);
      LivesJudged(cfg, Live(cfg, s, lives[0]).0, lives[1..]);
    }
  }

  /** In every reachable state no candidate has more than three verification records; it is decided exactly when one of
      its own records reached it, and then points to such a record and carries its status. */
  lemma {:induction false} AtMostThreeVerdicts(cfg: Config, now: nat, lives: seq<Life>, c: nat)
    requires cfg.twins != [] && c < |LiveAll(cfg, Blank(now), lives).candidates|
    ensures var s := LiveAll(cfg, Blank(now), lives);
            Verdicts(s.verifications, c) <= MAX_TASK_ATTEMPTS && CandidateJudged(s, c)
  {
    var s := LiveAll(cfg, Blank(now), lives);
    LivesKeep(cfg, Blank(now), lives);
    LivesJudged(cfg, Blank(now), lives);
    assert CandidateJudged(s, c);
    if HasVerifyTask(s.tasks, c) {
      var i :| 0 <= i < |s.tasks| && s.tasks[i].kind == Verify(c);
      assert TaskTried(s, i) && Accounted(cfg, s, i);
    }
  }

  // ---- decisions that are not the last word --------------------------------------------------------------

  /** The attempt that wrote record `k` about candidate `c` stopped there, after the decision the candidate carries. */
  predicate StoppedLater(s: State, c: nat, k: nat)
    requires c < |s.candidates|
  {
    IsAbout(s.verifications, k, c) && k !in s.settled &&
    (s.candidates[c].verification.Some? ==> k > s.candidates[c].verification.value)
  }

  /** In every reachable state a candidate carries the decision of its last record exactly when no attempt since stopped
      between its record and the candidate's update. */
  lemma {:induction false} LastWordExactly(cfg: Config, now: nat, lives: seq<Life>, c: nat)
    requires cfg.twins != [] && c < |LiveAll(cfg, Blank(now), lives).candidates|
    ensures var s := LiveAll(cfg, Blank(now), lives);
            s.candidates[c].verification == LastVerdict(s.verifications, c) <==> forall k: nat :: !StoppedLater(s, c, k)
  {
    var s := LiveAll(cfg, Blank(now), lives);
    AtMostThreeVerdicts(cfg, now, lives, c);
    LastVerdictIs(s.verifications, c);
    LastSettledIs(s.verifications, s.settled, c);
    var last := LastVerdict(s.verifications, c);
    if last.Some? && last.value !in s.settled { assert StoppedLater(s, c, last.value); }
  }

  /** A verification by which nothing returns: it reproduces, or does not, and its Director dies. */
  function Dying(written: Progress, reproduced: bool, verdict: Verdict): RunEnv {
    RunEnv(0, true, 0, DirectorDies, [], 0, 0, written, Some(reproduced), verdict)
  }

  /** Two attempts at task `i`, one lease apart: the first dies after its decision, the second after its record. */
  function TwoAttempts(cfg: Config, s: State, i: nat): State
    requires i < |s.tasks|
  {
    var s1 := RunOne(cfg, s, i, Dying(RecordAndDecision, true, Confirmed));
    RunOne(cfg, RecoverLeases(Boot(cfg, s1, cfg.ttl)), i, Dying(RecordOnly, false, Refuted))
  }

  /** Every ready verification with two attempts left can leave its candidate verified while its last record says
      otherwise. */
  lemma {:induction false} DecisionCanGoStale(cfg: Config, s: State, i: nat, c: nat)
    requires Inv(cfg, s) && i < |s.tasks| && s.tasks[i].status.Ready? && s.tasks[i].kind == Verify(c)
    requires s.tasks[i].attempts + 1 < MAX_TASK_ATTEMPTS && !Leased(s.leases, s.now, i)
    ensures var r := TwoAttempts(cfg, s, i);
            c < |r.candidates| && r.candidates[c].status.Verified? &&
            LastVerdict(r.verifications, c) == Some(|s.verifications| + 1) &&
            r.verifications[|s.verifications| + 1].status.Rejected?
  {
    assert VerifyTaskOk(s, i);
    var s1 := FirstAttempt(cfg, s, i, c);
    forall l | 0 <= l < |s.leases| ensures s.leases[l].expires <= s.now + cfg.ttl { assert LeaseOk(cfg, s, l); }
    var s2 := OneLeaseLater(cfg, s1, i, |s.leases|);
    var _ := DecidedRunIs(cfg, s2, i, Dying(RecordOnly, false, Refuted), c);
  }

  /** When every lease has run out, the task is ready again and free. */
  lemma {:induction false} OneLeaseLater(cfg: Config, s: State, i: nat, l: nat) returns (r: State)
    requires i < |s.tasks| && s.tasks[i].status == Running(l) && s.tasks[i].attempts + 1 < MAX_TASK_ATTEMPTS
    requires l < |s.leases| && s.leases[l].Open() && s.leases[l].task == i
    requires forall k :: 0 <= k < |s.leases| ==> s.leases[k].expires <= s.now + cfg.ttl
    ensures r == RecoverLeases(Boot(cfg, s, cfg.ttl))
    ensures |r.tasks| == |s.tasks| && r.tasks[i].status.Ready? && r.tasks[i].kind == s.tasks[i].kind
    ensures !Leased(r.leases, r.now, i) && r.candidates == s.candidates && r.verifications == s.verifications
  {
    var b := Boot(cfg, s, cfg.ttl);
    r := RecoverLeases(b);
    assert Due(b.leases[l], b.now);
    assert r.tasks[i] == Requeue(s.tasks[i]);
  }

  lemma {:induction false} FirstAttempt(cfg: Config, s: State, i: nat, c: nat) returns (s1: State)
    requires i < |s.tasks| && s.tasks[i].status.Ready? && s.tasks[i].kind == Verify(c) && c < |s.candidates|
    requires !Leased(s.leases, s.now, i)
    ensures s1 == RunOne(cfg, s, i, Dying(RecordAndDecision, true, Confirmed))
    ensures s1.now == s.now && s1.tasks[i] == s.tasks[i].(status := Running(|s.leases|))
    ensures s1.leases == s.leases + [Lease(i, s.workers, s.now + cfg.ttl, false, false)]
    ensures |s1.candidates| == |s.candidates| && s1.candidates[c].status.Verified?
    ensures |s1.verifications| == |s.verifications| + 1
  {
    s1 := RunOne(cfg, s, i, Dying(RecordAndDecision, true, Confirmed));
  }
}
