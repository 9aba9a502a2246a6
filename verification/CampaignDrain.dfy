/**
 A draining run ends because there is nothing left to do.

 Each tick that goes on lowers `Potential`: the work still in the ledgers (attempts left, status,
 candidates waiting for their verification task), and when that stands still, the time left on the
 open leases.  `claims` bounds the candidates one worker may record in one run.
 */
module CampaignDrain {
  import opened Options
  import opened Arith
  import opened Campaign
  import opened CampaignSafety

  // ---- the measure ---------------------------------------------------------------------

  /** Two steps (start, finish) per attempt left; a running task has started. */
  function Rank(t: Task): nat {
    if t.attempts >= MAX_TASK_ATTEMPTS then 0
    else match t.status
      case Ready => 2 * (MAX_TASK_ATTEMPTS - t.attempts)
      case Running(_) => 2 * (MAX_TASK_ATTEMPTS - t.attempts) - 1
      case Done => 0
      case Blocked => 0
  }

  /** A fresh verify task weighs 6; the candidate it comes from weighs one more. */
  const CANDIDATE_WEIGHT: nat := 7

  /** One step of a probe pays for every candidate it may record. */
  function Weight(t: Task, claims: nat): nat {
    if t.kind.Probe? then Rank(t) * (CANDIDATE_WEIGHT * claims + 1) else Rank(t)
  }

  function TaskWeight(tasks: seq<Task>, claims: nat): nat {
    if tasks == [] then 0 else TaskWeight(tasks[..|tasks| - 1], claims) + Weight(tasks[|tasks| - 1], claims)
  }

  function Waiting(candidates: seq<Candidate>): nat {
    if candidates == [] then 0
    else
      Waiting(candidates[..|candidates| - 1]) +
      if candidates[|candidates| - 1].status.Unverified? then CANDIDATE_WEIGHT else 0
  }

  function Load(s: State, claims: nat): nat { TaskWeight(s.tasks, claims) + Waiting(s.candidates) }

  /** The longest time left on an open lease. */
  function TimeLeft(leases: seq<Lease>, now: nat): nat {
    if leases == [] then 0
    else
      var rest := TimeLeft(leases[..|leases| - 1], now);
      var l := leases[|leases| - 1];
      if l.Open() && l.expires > now + rest then l.expires - now else rest
  }

  function Potential(cfg: Config, s: State, claims: nat): nat {
    Load(s, claims) * (cfg.ttl + 1) + TimeLeft(s.leases, s.now)
  }

  // ---- sums ------------------------------------------------------------------------------

  lemma {:induction false} TaskWeightSet(tasks: seq<Task>, i: nat, t: Task, claims: nat)
    requires i < |tasks|
    ensures TaskWeight(tasks[i := t], claims) ==
            TaskWeight(tasks, claims) - Weight(tasks[i], claims) + Weight(t, claims)
    decreases |tasks|
  {
    var n := |tasks| - 1;
    if i == n {
      assert tasks[i := t][..n] == tasks[..n];
    } else {
      assert tasks[i := t][..n] == tasks[..n][i := t];
      TaskWeightSet(tasks[..n], i, t, claims);
    }
  }

  lemma {:induction false} TaskWeightFalls(a: seq<Task>, b: seq<Task>, claims: nat)
    requires |a| == |b| && forall i :: 0 <= i < |a| ==> Weight(b[i], claims) <= Weight(a[i], claims)
    ensures TaskWeight(b, claims) <= TaskWeight(a, claims)
    ensures (exists i :: 0 <= i < |a| && Weight(b[i], claims) < Weight(a[i], claims)) ==>
            TaskWeight(b, claims) < TaskWeight(a, claims)
    decreases |a|
  {
    if a != [] {
      var n := |a| - 1;
      TaskWeightFalls(a[..n], b[..n], claims);
      if i :| 0 <= i < |a| && Weight(b[i], claims) < Weight(a[i], claims) && i < n {
        assert Weight(b[..n][i], claims) < Weight(a[..n][i], claims);
      }
    }
  }

  lemma {:induction false} WaitingSet(cs: seq<Candidate>, c: nat, d: Candidate)
    requires c < |cs| && !d.status.Unverified?
    ensures Waiting(cs[c := d]) == Waiting(cs) - if cs[c].status.Unverified? then CANDIDATE_WEIGHT else 0
    decreases |cs|
  {
    var n := |cs| - 1;
    if c == n { assert cs[c := d][..n] == cs[..n]; }
    else {
      assert cs[c := d][..n] == cs[..n][c := d];
      WaitingSet(cs[..n], c, d);
    }
  }

  lemma {:induction false} WaitingClaims(cs: seq<Candidate>, more: seq<Candidate>)
    ensures Waiting(cs + more) <= Waiting(cs) + CANDIDATE_WEIGHT * |more|
    decreases |more|
  {
    if more == [] { assert cs + more == cs; }
    else {
      var n := |more| - 1;
      assert (cs + more)[..|cs| + n] == cs + more[..n];
      WaitingClaims(cs, more[..n]);
    }
  }

  lemma {:induction false} TimeLeftCovers(leases: seq<Lease>, now: nat, l: nat)
    requires l < |leases| && leases[l].Open()
    ensures leases[l].expires <= now + TimeLeft(leases, now)
    decreases |leases|
  {
    var n := |leases| - 1;
    if l < n { TimeLeftCovers(leases[..n], now, l); }
  }

  lemma {:induction false} TimeLeftWithin(leases: seq<Lease>, now: nat, ttl: nat)
    requires forall l :: 0 <= l < |leases| ==> leases[l].expires <= now + ttl
    ensures TimeLeft(leases, now) <= ttl
    decreases |leases|
  {
    if leases != [] { TimeLeftWithin(leases[..|leases| - 1], now, ttl); }
  }

  /** Leases may only have ended since. */
  predicate OnlyEnded(a: seq<Lease>, b: seq<Lease>) {
    |a| == |b| && forall l :: 0 <= l < |a| ==> LeaseEvolves(a[l], b[l])
  }

  lemma {:induction false} TimePasses(a: seq<Lease>, b: seq<Lease>, now: nat, later: nat)
    requires OnlyEnded(a, b) && now <= later
    ensures TimeLeft(b, later) == 0 || TimeLeft(b, later) + (later - now) <= TimeLeft(a, now)
    decreases |a|
  {
    if a != [] {
      var n := |a| - 1;
      assert LeaseEvolves(a[n], b[n]);
      TimePasses(a[..n], b[..n], now, later);
    }
  }

  // ---- every phase lowers the load, or changes no task and opens no lease --------------------------

  predicate Falls(s: State, r: State, claims: nat) {
    s.now <= r.now &&
    (Load(r, claims) < Load(s, claims) || (Load(r, claims) == Load(s, claims) && OnlyEnded(s.leases, r.leases)))
  }

  lemma {:induction false} FallsThrough(s: State, m: State, r: State, claims: nat)
    requires Falls(s, m, claims) && Falls(m, r, claims)
    ensures Falls(s, r, claims)
  {
    if Load(r, claims) == Load(s, claims) {
      forall l | 0 <= l < |s.leases| ensures LeaseEvolves(s.leases[l], r.leases[l]) {
        assert LeaseEvolves(s.leases[l], m.leases[l]) && LeaseEvolves(m.leases[l], r.leases[l]);
      }
    }
  }

  lemma {:induction false} RequeueIsLighter(t: Task, claims: nat)
    requires t.status.Running? && t.attempts < MAX_TASK_ATTEMPTS
    ensures Weight(Requeue(t), claims) <= Weight(t, claims)
  {
    var u := CANDIDATE_WEIGHT * claims + 1;
    if t.attempts == 0 { assert Rank(Requeue(t)) * u == 4 * u; assert Rank(t) * u == 5 * u; }
    else if t.attempts == 1 { assert Rank(Requeue(t)) * u == 2 * u; assert Rank(t) * u == 3 * u; }
    else { assert Rank(Requeue(t)) * u == 0; }
  }

  lemma {:induction false} RecoverLeasesFalls(cfg: Config, s: State, claims: nat)
    requires Inv(cfg, s)
    ensures Falls(s, RecoverLeases(s), claims)
  {
    var r := RecoverLeases(s);
    forall i | 0 <= i < |s.tasks| ensures Weight(r.tasks[i], claims) <= Weight(s.tasks[i], claims) {
      assert Accounted(cfg, s, i);
      if s.tasks[i].status.Running? { RequeueIsLighter(s.tasks[i], claims); }
    }
    TaskWeightFalls(s.tasks, r.tasks, claims);
  }

  lemma {:induction false} RecoverTwinsFalls(cfg: Config, s: State, env: nat -> TwinEnv, k: nat, claims: nat)
    requires Inv(cfg, s)
    ensures Falls(s, RecoverTwins(cfg, s, env, k), claims)
    ensures RecoverTwins(cfg, s, env, k).leases == s.leases && RecoverTwins(cfg, s, env, k).now == s.now
    decreases |cfg.twins| - k
  {
    if k < |cfg.twins| {
      var r := RecoverTwin(s, cfg.twins[k], env(k));
      forall i | 0 <= i < |s.tasks| ensures Weight(r.tasks[i], claims) <= Weight(s.tasks[i], claims) {
        assert Accounted(cfg, s, i);
        if s.tasks[i].status.Running? { RequeueIsLighter(s.tasks[i].(twin := r.tasks[i].twin), claims); }
      }
      TaskWeightFalls(s.tasks, r.tasks, claims);
      RecoverTwinKeeps(cfg, s, cfg.twins[k], env(k));
      RecoverTwinsFalls(cfg, r, env, k + 1, claims);
      FallsThrough(s, r, RecoverTwins(cfg, s, env, k), claims);
    }
  }

  lemma {:induction false} ScheduleVerificationsFalls(s: State, before: seq<Task>, c: nat, claims: nat)
    ensures Falls(s, ScheduleVerifications(s, before, c), claims)
    ensures ScheduleVerifications(s, before, c).leases == s.leases && ScheduleVerifications(s, before, c).now == s.now
    decreases |s.candidates| - c
  {
    if c < |s.candidates| {
      var d := s.candidates[c];
      if !d.status.Unverified? || HasVerifyTask(before, c) { ScheduleVerificationsFalls(s, before, c + 1, claims); }
      else {
        var t := Task(d.thesis, d.twin, d.twin, Verify(c), VERIFY_PRIORITY, s.now, Ready, 0);
        var r := s.(tasks := s.tasks + [t], candidates := s.candidates[c := d.(status := Verifying)]);
        assert r.tasks[..|s.tasks|] == s.tasks;
        WaitingSet(s.candidates, c, d.(status := Verifying));
        ScheduleVerificationsFalls(r, before, c + 1, claims);
        FallsThrough(s, r, ScheduleVerifications(s, before, c), claims);
      }
    }
  }

  /** While draining, what happens before dispatch neither takes time nor opens a lease. */
  lemma {:induction false} PrepareFalls(cfg: Config, s: State, env: TickEnv, claims: nat)
    requires Inv(cfg, s) && cfg.twins != []
    ensures Falls(s, Prepare(cfg, s, env, true), claims)
    ensures Prepare(cfg, s, env, true).leases == Reaped(s.leases, s.now) && Prepare(cfg, s, env, true).now == s.now
  {
    var s1 := RecoverLeases(s);
    RecoverLeasesFalls(cfg, s, claims);
    RecoverLeasesKeeps(cfg, s);
    RecoverTwinsFalls(cfg, s1, env.twins, 0, claims);
    var s2 := RecoverTwins(cfg, s1, env.twins, 0);
    ScheduleVerificationsFalls(s2, s2.tasks, 0, claims);
    FallsThrough(s, s1, s2, claims);
    FallsThrough(s, s2, Prepare(cfg, s, env, true), claims);
  }

  // ---- dispatch ------------------------------------------------------------------------------------

  /** The worker comes back, is not paused, and records at most `claims` candidates. */
  predicate Bounded(env: RunEnv, claims: nat) {
    |env.claims| <= claims && !env.outcome.DirectorDies? && env.outcome != Returns(PausedWorker)
  }

  lemma {:induction false} WorkLoad(cfg: Config, s: State, t: Task, worker: nat, env: RunEnv, claims: nat)
    requires t.kind.Probe? ==> |env.claims| <= claims
    requires t.kind.Verify? ==> t.kind.candidate < |s.candidates| ==> !s.candidates[t.kind.candidate].status.Unverified?
    ensures var r := Work(cfg, s, t, worker, env);
            r.tasks == s.tasks && r.leases == s.leases &&
            Waiting(r.candidates) <= Waiting(s.candidates) + if t.kind.Probe? then CANDIDATE_WEIGHT * claims else 0
  {
    match t.kind
    case Probe =>
      var r := Work(cfg, s, t, worker, env);
      var more := r.candidates[|s.candidates|..];
      assert r.candidates == s.candidates + more;
      WaitingClaims(s.candidates, more);
    case Verify(c) =>
      if c < |s.candidates| {
        DecideVerified(env.reproduced, env.verdict);
        WaitingSet(s.candidates, c,
          s.candidates[c].(status := Decide(env.reproduced, env.verdict), verification := Some(|s.verifications|)));
      }
  }

  /** From ready to anything a bounded run leaves behind: one unit at least is gone. */
  lemma {:induction false} RunPays(t: Task, u: Task, claims: nat)
    requires t.status.Ready? && t.attempts < MAX_TASK_ATTEMPTS && u.kind == t.kind
    requires (u.status.Running? && u.attempts == t.attempts) || u.status.Done? ||
             (u.attempts == t.attempts + 1 && (u.status.Ready? || u.status.Blocked?))
    ensures Weight(u, claims) + (if t.kind.Probe? then CANDIDATE_WEIGHT * claims else 0) < Weight(t, claims)
  {
    assert Rank(u) + 1 <= Rank(t) <= 6;
    RankProduct(Rank(u), Rank(t), CANDIDATE_WEIGHT * claims + 1);
  }

  lemma {:induction false} RankProduct(a: nat, b: nat, u: nat)
    requires a + 1 <= b
    ensures a * u + u <= b * u
  {
    MulMonotone(a + 1, b, u);
    OneMore(a, u);
  }

  /** What a run that gets its lease leaves of its task, and how many candidates then wait. */
  lemma {:induction false} RunLeaves(cfg: Config, s: State, i: nat, env: RunEnv, claims: nat) returns (u: Task)
    requires Inv(cfg, s) && i < |s.tasks| && s.tasks[i].status.Ready? && Bounded(env, claims)
    requires !Leased(s.leases, s.now + env.delay, i)
    ensures var r, t := RunOne(cfg, s, i, env), s.tasks[i];
            r.tasks == s.tasks[i := u] && s.now <= r.now && u.kind == t.kind &&
            ((u.status.Running? && u.attempts == t.attempts) || u.status.Done? ||
             (u.attempts == t.attempts + 1 && (u.status.Ready? || u.status.Blocked?))) &&
            Waiting(r.candidates) <= Waiting(s.candidates) + if t.kind.Probe? then CANDIDATE_WEIGHT * claims else 0
  {
    assert VerifyTaskOk(s, i);
    u := RunOne(cfg, s, i, env).tasks[i];
    if env.handleOk { WorkLoad(cfg, Start(cfg, s, i, env.delay), s.tasks[i], s.workers, env, claims); }
  }

  lemma {:induction false} RunOneFalls(cfg: Config, s: State, i: nat, env: RunEnv, claims: nat)
    requires Inv(cfg, s) && i < |s.tasks| && s.tasks[i].status.Ready? && Bounded(env, claims)
    ensures var r := RunOne(cfg, s, i, env);
            s.now <= r.now &&
            (if Leased(s.leases, s.now + env.delay, i)
             then r.tasks == s.tasks && r.leases == s.leases && r.candidates == s.candidates
             else Load(r, claims) < Load(s, claims))
  {
    assert Accounted(cfg, s, i);
    if !Leased(s.leases, s.now + env.delay, i) {
      var u := RunLeaves(cfg, s, i, env, claims);
      TaskWeightSet(s.tasks, i, u, claims);
      RunPays(s.tasks[i], u, claims);
    }
  }

  lemma {:induction false} DispatchFalls(cfg: Config, s: State, q: seq<nat>, k: nat, runs: nat -> RunEnv, claims: nat)
    requires Inv(cfg, s) && QueueReady(s, q, k) && forall a :: Bounded(runs(a), claims)
    ensures var d := Dispatch(cfg, s, q, k, runs);
            !d.died && s.now <= d.s.now &&
            (Load(d.s, claims) < Load(s, claims) ||
             (d.s.tasks == s.tasks && d.s.leases == s.leases && d.s.candidates == s.candidates &&
              (k < |q| ==> exists l :: 0 <= l < |s.leases| && s.leases[l].Open() && s.leases[l].expires > s.now)))
    decreases |q| - k
  {
    if k < |q| {
      var s1 := RunOne(cfg, s, q[k], runs(k));
      assert Bounded(runs(k), claims);
      RunOneFalls(cfg, s, q[k], runs(k), claims);
      RunOneKeeps(cfg, s, q[k], runs(k));
      DispatchFalls(cfg, s1, q, k + 1, runs, claims);
    }
  }

  // ---- the whole tick ----------------------------------------------------------------------------------

  /** Time moves on, nobody asks to stop or pause, and every worker comes back within bounds. */
  ghost predicate Calm(env: TickEnv, claims: nat) {
    env.elapsed >= 1 && !env.stop && !env.pause && forall a :: Bounded(env.runs(a), claims)
  }

  predicate BudgetReason(r: Stop) { r.ActionBudget? || r.ModelCallBudget? || r.WallBudget? || r.CostBudget? }

  lemma {:induction false} FinishFalls(cfg: Config, s: State, env: TickEnv, claims: nat)
    requires Inv(cfg, s) && cfg.concurrency >= 1 && forall a :: Bounded(env.runs(a), claims)
    ensures var r := Finish(cfg, s, env, true);
            s.now <= r.s.now && (r.Halt? ==> r.reason.Drained?) &&
            (Load(r.s, claims) < Load(s, claims) ||
             (Load(r.s, claims) == Load(s, claims) && r.s.leases == s.leases &&
              (r.Go? ==> exists l :: 0 <= l < |s.leases| && s.leases[l].Open() &&
                                     (s.leases[l].expires > s.now ||
                                      exists i :: 0 <= i < |s.tasks| && s.tasks[i].status == Running(l)))))
  {
    TakeReady(cfg, s);
    var q := Take(ReadyTasks(cfg, s.tasks), cfg.concurrency);
    DispatchFalls(cfg, s, q, 0, env.runs, claims);
    var d := Dispatch(cfg, s, q, 0, env.runs);
    var r := UpdateTheses(d.s);
    if Load(r, claims) == Load(s, claims) && q == [] && HasOpenWork(cfg, r, true) {
      var i :| 0 <= i < |r.tasks| && r.tasks[i].Active();
      assert ReadyTasks(cfg, s.tasks) == [];
      assert i !in ReadyTasks(cfg, s.tasks);
      assert Accounted(cfg, s, i);
      assert s.tasks[i].status == Running(s.tasks[i].status.lease);
    }
  }

  lemma {:induction false} ProceedFalls(cfg: Config, s0: State, s: State, env: TickEnv, claims: nat)
    requires Inv(cfg, s) && cfg.twins != [] && cfg.concurrency >= 1 && Calm(env, claims)
    requires s == Elapse(s0, env)
    ensures var r := Finish(cfg, Prepare(cfg, s, env, true), env, true);
            (r.Halt? ==> r.reason.Drained?) &&
            (r.Go? ==> Potential(cfg, r.s, claims) < Potential(cfg, s0, claims))
  {
    var s4 := Prepare(cfg, s, env, true);
    PrepareFalls(cfg, s, env, claims);
    PrepareKeeps(cfg, s, env, true);
    FinishFalls(cfg, s4, env, claims);
    FinishKeeps(cfg, s4, env, true);
    var r := Finish(cfg, s4, env, true);
    if r.Go? { GoLowersPotential(cfg, s0, s, s4, r.s, claims); }
  }

  /** The heart of termination: a calm draining tick stops drained or on a budget, or lowers the potential. */
  lemma {:induction false} DrainTickFalls(cfg: Config, s0: State, env: TickEnv, claims: nat)
    requires Inv(cfg, s0) && cfg.twins != [] && cfg.concurrency >= 1 && Calm(env, claims)
    ensures var r := Tick(cfg, Elapse(s0, env), env, true);
            (r.Halt? ==> r.reason.Drained? || BudgetReason(r.reason)) &&
            (r.Go? ==> Potential(cfg, r.s, claims) < Potential(cfg, s0, claims))
  {
    var s := Elapse(s0, env);
    ElapseKeeps(cfg, s0, env);
    if HeadStop(cfg, s, env).None? { ProceedFalls(cfg, s0, s, env, claims); }
  }

  lemma {:induction false} GoLowersPotential(cfg: Config, s0: State, s: State, s4: State, r: State, claims: nat)
    requires Inv(cfg, r) && Inv(cfg, s4)
    requires s.now > s0.now && s.leases == s0.leases && Load(s, claims) == Load(s0, claims)
    requires Falls(s, s4, claims) && s4.leases == Reaped(s.leases, s.now) && s4.now == s.now
    requires s4.now <= r.now
    requires Load(r, claims) < Load(s4, claims) ||
             (Load(r, claims) == Load(s4, claims) && r.leases == s4.leases &&
              exists l :: 0 <= l < |s4.leases| && s4.leases[l].Open() &&
                          (s4.leases[l].expires > s4.now ||
                           exists i :: 0 <= i < |s4.tasks| && s4.tasks[i].status == Running(l)))
    ensures Potential(cfg, r, claims) < Potential(cfg, s0, claims)
  {
    forall l | 0 <= l < |r.leases| ensures r.leases[l].expires <= r.now + cfg.ttl { assert LeaseOk(cfg, r, l); }
    TimeLeftWithin(r.leases, r.now, cfg.ttl);
    if Load(r, claims) < Load(s0, claims) {
      RankProduct(Load(r, claims), Load(s0, claims), cfg.ttl + 1);
    } else {
      var l :| 0 <= l < |s4.leases| && s4.leases[l].Open() &&
               (s4.leases[l].expires > s4.now || exists i :: 0 <= i < |s4.tasks| && s4.tasks[i].status == Running(l));
      assert s0.leases[l].Open() && s0.leases[l].expires > s0.now;
      assert OnlyEnded(s0.leases, r.leases);
      TimeLeftCovers(s0.leases, s0.now, l);
      TimePasses(s0.leases, r.leases, s0.now, r.now);
    }
  }

  /** With enough ticks allowed a draining run never ends for want of ticks: it ends drained (and then the
      certificate holds) or on a budget, whatever the workers, twins and verifications do on the way. */
  lemma {:induction false} DrainEnds(cfg: Config, s: State, envs: seq<TickEnv>, claims: nat)
    requires Inv(cfg, s) && cfg.twins != [] && cfg.concurrency >= 1
    requires forall k :: 0 <= k < |envs| ==> Calm(envs[k], claims)
    requires |envs| > Potential(cfg, s, claims)
    ensures var (r, reason) := Run(cfg, s, envs, true);
            (reason.Drained? && Quiet(cfg, r, reason)) || BudgetReason(reason)
    decreases |envs|
  {
    var s1 := Elapse(s, envs[0]);
    DrainTickFalls(cfg, s, envs[0], claims);
    ElapseKeeps(cfg, s, envs[0]);
    TickKeeps(cfg, s1, envs[0], true);
    var r := Tick(cfg, s1, envs[0], true);
    if r.Go? {
      DrainEnds(cfg, r.s, envs[1..], claims);
    } else if r.reason.Drained? {
      QuietTickCertifies(cfg, s1, envs[0], true);
    }
  }

  /** Stated from an empty campaign: after any history of Director lives, a fresh Director draining it stops
      with the certificate or on a budget as soon as its tick allowance exceeds the potential it boots into. */
  lemma {:induction false} DrainLifeEnds(cfg: Config, now: nat, lives: seq<Life>, last: Life, claims: nat)
    requires cfg.twins != [] && cfg.concurrency >= 1 && last.drain
    requires forall k :: 0 <= k < |last.ticks| ==> Calm(last.ticks[k], claims)
    requires |last.ticks| > Potential(cfg, Booted(cfg, LiveAll(cfg, Blank(now), lives), last), claims)
    ensures var (r, reason) := Live(cfg, LiveAll(cfg, Blank(now), lives), last);
            (reason.Drained? && Quiet(cfg, r, reason)) || BudgetReason(reason)
  {
    var s := LiveAll(cfg, Blank(now), lives);
    assert Inv(cfg, Blank(now));
    LivesKeep(cfg, Blank(now), lives);
    PlanningIsInvisible(cfg, s, Boot(cfg, s, last.downtime));
    RecoverLeasesKeeps(cfg, Boot(cfg, s, last.downtime));
    DrainEnds(cfg, Booted(cfg, s, last), last.ticks, claims);
  }
}
