/**
 What becomes of a dispatched task: by how its worker ended, in one dispatch, over a tick and over whole runs.
 */
module CampaignOutcomes {
  import opened Campaign
  import opened CampaignSafety
  import opened CampaignStops
  import CampaignBudget
  import Worker

  // ---- one dispatch ------------------------------------------------------------------------------

  /** The run has no twin, fails, or is a probe without a usable model. */
  predicate ComesToNothing(t: Task, env: RunEnv) {
    !env.handleOk || env.outcome.Fails? || (t.kind.Probe? && env.outcome == Returns(ModelUnusable))
  }

  predicate IsPaused(t: Task, env: RunEnv) { env.handleOk && t.kind.Probe? && env.outcome == Returns(PausedWorker) }

  /** The worker came back with its task finished; a verification always does. */
  predicate IsFinished(t: Task, env: RunEnv) {
    env.handleOk && (env.outcome == Returns(Finished) || (t.kind.Verify? && env.outcome.Returns?))
  }

  /** A run that comes to nothing costs an attempt, and the third blocks the task; a paused one leaves it as it was; a
      finished one has it done; and one that is abandoned, or loses its Director, leaves it running under its lease. */
  predicate Becomes(t: Task, u: Task, env: RunEnv, lease: nat) {
    u == t.(status := u.status, attempts := u.attempts) &&
    if ComesToNothing(t, env) then
      u.attempts == t.attempts + 1 && u.status == (if t.attempts >= 2 then Blocked else Ready)
    else if IsPaused(t, env) then u == t
    else if IsFinished(t, env) then u.attempts == t.attempts && u.status == Done
    else u.attempts == t.attempts && u.status == Running(lease)
  }

  lemma {:induction false} RunOneOutcome(cfg: Config, s: State, i: nat, env: RunEnv)
    requires i < |s.tasks| && s.tasks[i].status.Ready?
    ensures var r := RunOne(cfg, s, i, env);
            (if Leased(s.leases, s.now + env.delay, i) then r.tasks[i] == s.tasks[i]
             else Becomes(s.tasks[i], r.tasks[i], env, |s.leases|)) &&
            forall j :: 0 <= j < |s.tasks| && j != i ==> r.tasks[j] == s.tasks[j]
  {
    var s1 := Start(cfg, s, i, env.delay);
    if !Leased(s.leases, s1.now, i) && env.handleOk { WorkLeavesTasks(cfg, s1, s.tasks[i], s.workers, env); }
  }

  lemma {:induction false} WorkLeavesTasks(cfg: Config, s: State, t: Task, worker: nat, env: RunEnv)
    ensures Work(cfg, s, t, worker, env).tasks == s.tasks && Work(cfg, s, t, worker, env).leases == s.leases
  {
  }

  /** So a probe whose worker came back is as it was if the worker was paused, retried if it had no usable model left,
      and done otherwise: concluded, out of actions, out of time or told to stop. */
  lemma {:induction false} WorkersEndDecides(t: Task, u: Task, env: RunEnv, lease: nat, w: Worker.Stint,
                                             reason: Worker.Reason)
    requires t.kind.Probe? && Becomes(t, u, env, lease) && env.handleOk && env.outcome.Returns?
    requires CampaignBudget.WorkedBy(env, w) && w.Finished(reason)
    ensures if reason.Paused? then u == t
            else if reason.ModelUnusable? then u.attempts == t.attempts + 1 && !u.status.Done? && !u.status.Running?
            else u.status.Done?
  {
    var r :| w.Finished(r) && CampaignBudget.Reported(r) == env.outcome.reason;
    Worker.OutcomeIsUnique(w.maxActions, w.maxDur, w.turn, r, w.n, reason, w.n);
  }

  // ---- the queue -----------------------------------------------------------------------------------

  lemma {:induction false} RunKeepsQueue(cfg: Config, s: State, q: seq<nat>, k: nat, env: RunEnv)
    requires QueueReady(s, q, k) && k < |q|
    ensures QueueReady(RunOne(cfg, s, q[k], env), q, k + 1)
  {
    RunOneOutcome(cfg, s, q[k], env);
  }

  /** A task that is not in the rest of the queue stays as it is. */
  lemma {:induction false} OthersStay(cfg: Config, s: State, q: seq<nat>, k: nat, runs: nat -> RunEnv, i: nat)
    requires QueueReady(s, q, k) && i < |s.tasks| && forall a :: k <= a < |q| ==> q[a] != i
    ensures var r := Dispatch(cfg, s, q, k, runs).s; |r.tasks| == |s.tasks| && r.tasks[i] == s.tasks[i]
    decreases |q| - k
  {
    if k < |q| {
      RunOneOutcome(cfg, s, q[k], runs(k));
      RunKeepsQueue(cfg, s, q, k, runs(k));
      if !Dies(s, q[k], runs(k)) { OthersStay(cfg, RunOne(cfg, s, q[k], runs(k)), q, k + 1, runs, i); }
    }
  }

  /** The `n`-th of the queue becomes what its run makes of it, if the Director lives to start it and gets the lease. */
  predicate DispatchedAs(t: Task, u: Task, before: Dispatched, i: nat, env: RunEnv) {
    if before.died || Leased(before.s.leases, before.s.now + env.delay, i) then u == t
    else Becomes(t, u, env, |before.s.leases|)
  }

  lemma {:induction false} DispatchOutcome(cfg: Config, s: State, q: seq<nat>, k: nat, runs: nat -> RunEnv, n: nat)
    requires QueueReady(s, q, k) && k <= n < |q|
    ensures var r, before := Dispatch(cfg, s, q, k, runs).s, Dispatch(cfg, s, q[..n], k, runs);
            |r.tasks| == |s.tasks| && DispatchedAs(s.tasks[q[n]], r.tasks[q[n]], before, q[n], runs(n))
    decreases |q| - k
  {
    var s1 := RunOne(cfg, s, q[k], runs(k));
    RunOneOutcome(cfg, s, q[k], runs(k));
    RunKeepsQueue(cfg, s, q, k, runs(k));
    if k == n {
      OthersStay(cfg, s1, q, k + 1, runs, q[n]);
    } else {
      assert q[..n][k] == q[k] && q[k] != q[n];
      if !Dies(s, q[k], runs(k)) { DispatchOutcome(cfg, s1, q, k + 1, runs, n); }
    }
  }

  // ---- a tick ----------------------------------------------------------------------------------------

  function QueueOf(cfg: Config, s: State): (q: seq<nat>)
    ensures InRange(q, |s.tasks|)
  {
    Take(ReadyTasks(cfg, s.tasks), cfg.concurrency)
  }

  /** Over a tick that proceeds: a task of its queue becomes what its run makes of it, and any other stays as the tick's
      preparation left it. */
  lemma {:induction false} TickOutcome(cfg: Config, s: State, env: TickEnv, drain: bool, n: nat)
    requires cfg.twins != [] && MayProceed(cfg, s, env) && n < |QueueOf(cfg, Prepare(cfg, s, env, drain))|
    ensures var p, r := Prepare(cfg, s, env, drain), Tick(cfg, s, env, drain).s;
            var q := QueueOf(cfg, p);
            |r.tasks| == |p.tasks| && p.tasks[q[n]].status.Ready? &&
            DispatchedAs(p.tasks[q[n]], r.tasks[q[n]], Dispatch(cfg, p, q[..n], 0, env.runs), q[n], env.runs(n))
  {
    var _ := HeadIsExact(cfg, s, env, drain);
    var p := Prepare(cfg, s, env, drain);
    TakeReady(cfg, p);
    DispatchOutcome(cfg, p, QueueOf(cfg, p), 0, env.runs, n);
    FinishTasks(cfg, p, env, drain);
  }

  lemma {:induction false} FinishTasks(cfg: Config, s: State, env: TickEnv, drain: bool)
    ensures Finish(cfg, s, env, drain).s.tasks == Dispatch(cfg, s, QueueOf(cfg, s), 0, env.runs).s.tasks
  {
  }

  lemma {:induction false} UndispatchedStay(cfg: Config, s: State, env: TickEnv, drain: bool, i: nat)
    requires cfg.twins != [] && MayProceed(cfg, s, env) && i < |Prepare(cfg, s, env, drain).tasks|
    requires i !in QueueOf(cfg, Prepare(cfg, s, env, drain))
    ensures var p, r := Prepare(cfg, s, env, drain), Tick(cfg, s, env, drain).s;
            |r.tasks| == |p.tasks| && r.tasks[i] == p.tasks[i]
  {
    var _ := HeadIsExact(cfg, s, env, drain);
    var p := Prepare(cfg, s, env, drain);
    var q := QueueOf(cfg, p);
    TakeReady(cfg, p);
    forall a | 0 <= a < |q| ensures q[a] != i { assert q[a] in q; }
    OthersStay(cfg, p, q, 0, env.runs, i);
    FinishTasks(cfg, p, env, drain);
  }

  // ---- nothing but a dispatch finishes a task ---------------------------------------------------------

  /** Every task of `r` that is done was done in `s`. */
  predicate NoneNewlyDone(s: State, r: State) {
    forall i {:trigger r.tasks[i]} :: 0 <= i < |r.tasks| && r.tasks[i].status.Done? ==>
      i < |s.tasks| && s.tasks[i].status.Done?
  }

  lemma {:induction false} TwinsFinishNothing(cfg: Config, s: State, env: nat -> TwinEnv, k: nat)
    ensures NoneNewlyDone(s, RecoverTwins(cfg, s, env, k))
    decreases |cfg.twins| - k
  {
    if k < |cfg.twins| { TwinsFinishNothing(cfg, RecoverTwin(s, cfg.twins[k], env(k)), env, k + 1); }
  }

  lemma {:induction false} SchedulingFinishesNothing(cfg: Config, s: State, q: seq<nat>, made: nat)
    requires cfg.twins != [] && InRange(q, |s.theses|)
    ensures NoneNewlyDone(s, ScheduleTheses(cfg, s, q, made))
    decreases |q|
  {
    if q != [] && made < MAX_NEW_TASKS {
      var s1 := ScheduleThesis(cfg, s, q[0]);
      ProbeThesisFresh(cfg, s, q[0]);
      SchedulingFinishesNothing(cfg, s1, q[1..], made + |s1.tasks| - |s.tasks|);
    }
  }

  lemma {:induction false} VerificationsFinishNothing(s: State, before: seq<Task>, c: nat)
    ensures NoneNewlyDone(s, ScheduleVerifications(s, before, c))
    decreases |s.candidates| - c
  {
    if c < |s.candidates| {
      var d := s.candidates[c];
      if !d.status.Unverified? || HasVerifyTask(before, c) { VerificationsFinishNothing(s, before, c + 1); }
      else {
        VerificationsFinishNothing(
          s.(tasks := s.tasks + [Task(d.thesis, d.twin, d.twin, Verify(c), VERIFY_PRIORITY, s.now, Ready, 0)],
             candidates := s.candidates[c := d.(status := Verifying)]), before, c + 1);
      }
    }
  }

  lemma {:induction false} PrepareFinishesNothing(cfg: Config, s: State, env: TickEnv, drain: bool)
    requires cfg.twins != []
    ensures NoneNewlyDone(s, Prepare(cfg, s, env, drain))
  {
    var s1 := RecoverLeases(s);
    TwinsFinishNothing(cfg, s1, env.twins, 0);
    var s2 := RecoverTwins(cfg, s1, env.twins, 0);
    var p := PlanIfNeeded(cfg, s2, env);
    SchedulingFinishesNothing(cfg, p, OpenTheses(cfg, p.theses), 0);
    var s3 := if drain then s2 else ScheduleTheses(cfg, p, OpenTheses(cfg, p.theses), 0);
    VerificationsFinishNothing(s3, s3.tasks, 0);
  }

  /** In this tick, whose ledgers are `s` at its head, task `i` stands in the queue and its worker finishes it. */
  ghost predicate FinishedIn(cfg: Config, s: State, env: TickEnv, drain: bool, i: nat)
    requires cfg.twins != []
  {
    MayProceed(cfg, s, env) &&
    var p := Prepare(cfg, s, env, drain);
    exists n :: 0 <= n < |QueueOf(cfg, p)| && QueueOf(cfg, p)[n] == i && IsFinished(p.tasks[i], env.runs(n))
  }

  lemma {:induction false} TickFinishes(cfg: Config, s: State, env: TickEnv, drain: bool, i: nat)
    requires cfg.twins != [] && i < |Tick(cfg, s, env, drain).s.tasks|
    requires Tick(cfg, s, env, drain).s.tasks[i].status.Done? && (i < |s.tasks| ==> !s.tasks[i].status.Done?)
    ensures FinishedIn(cfg, s, env, drain, i)
  {
    var _ := HeadIsExact(cfg, s, env, drain);
    var p := Prepare(cfg, s, env, drain);
    var q := QueueOf(cfg, p);
    PrepareFinishesNothing(cfg, s, env, drain);
    FinishTasks(cfg, p, env, drain);
    if n :| 0 <= n < |q| && q[n] == i {
      TickOutcome(cfg, s, env, drain, n);
    } else {
      TasksStayInNumber(cfg, p, q, 0, env.runs);
      UndispatchedStay(cfg, s, env, drain, i);
    }
  }

  lemma {:induction false} TasksStayInNumber(cfg: Config, s: State, q: seq<nat>, k: nat, runs: nat -> RunEnv)
    requires InRange(q, |s.tasks|)
    ensures |Dispatch(cfg, s, q, k, runs).s.tasks| == |s.tasks|
    decreases |q| - k
  {
    if k < |q| && !Dies(s, q[k], runs(k)) { TasksStayInNumber(cfg, RunOne(cfg, s, q[k], runs(k)), q, k + 1, runs); }
  }

  /** Task `i` is finished in tick `k` of this run, to which it came through all ticks before. */
  ghost predicate FinishedAt(cfg: Config, s: State, envs: seq<TickEnv>, drain: bool, i: nat, k: nat)
    requires cfg.twins != []
  {
    k < |envs| && Run(cfg, s, envs[..k], drain).1.Completed? &&
    FinishedIn(cfg, Elapse(Run(cfg, s, envs[..k], drain).0, envs[k]), envs[k], drain, i)
  }

  lemma {:induction false} FinishedLater(cfg: Config, s: State, envs: seq<TickEnv>, drain: bool, i: nat, k: nat,
                                         r: State)
    requires cfg.twins != [] && envs != [] && Tick(cfg, Elapse(s, envs[0]), envs[0], drain) == Go(r)
    requires FinishedAt(cfg, r, envs[1..], drain, i, k)
    ensures FinishedAt(cfg, s, envs, drain, i, k + 1)
  {
    var some := envs[..k + 1];
    assert some[0] == envs[0] && some[1..] == envs[1..][..k] && envs[k + 1] == envs[1..][k];
    var same := RunStep(cfg, s, some, drain);
  }

  /** Over a whole run: a task becomes done only in a tick in which it was dispatched and its worker finished it. */
  lemma {:induction false} DoneOnlyByWork(cfg: Config, s: State, envs: seq<TickEnv>, drain: bool, i: nat)
    returns (k: nat)
    requires cfg.twins != [] && i < |Run(cfg, s, envs, drain).0.tasks|
    requires Run(cfg, s, envs, drain).0.tasks[i].status.Done? && (i < |s.tasks| ==> !s.tasks[i].status.Done?)
    ensures FinishedAt(cfg, s, envs, drain, i, k)
    decreases |envs|
  {
    var s1 := Elapse(s, envs[0]);
    var r := RunStep(cfg, s, envs, drain);
    if i < |r.s.tasks| && r.s.tasks[i].status.Done? {
      TickFinishes(cfg, s1, envs[0], drain, i);
      k := 0;
      assert envs[..0] == [];
    } else {
      k := DoneOnlyByWork(cfg, r.s, envs[1..], drain, i);
      FinishedLater(cfg, s, envs, drain, i, k, r.s);
      k := k + 1;
    }
  }

  // ---- what is ready is queued again -------------------------------------------------------------------

  /** A ready task passes the preparation of a tick unchanged, but for its twin, and stands in the order of the ready.
      */
  lemma {:induction false} ReadyIsQueued(cfg: Config, s: State, env: TickEnv, drain: bool, i: nat)
    requires cfg.twins != [] && i < |s.tasks| && s.tasks[i].status.Ready?
    ensures var p := Prepare(cfg, s, env, drain);
            i < |p.tasks| && p.tasks[i] == s.tasks[i].(twin := p.tasks[i].twin) && i in ReadyTasks(cfg, p.tasks)
  {
    var s1 := RecoverLeases(s);
    RecoverTwinsSettled(cfg, s1, env.twins, 0, i);
    var s2 := RecoverTwins(cfg, s1, env.twins, 0);
    var p := PlanIfNeeded(cfg, s2, env);
    SchedulingAppends(cfg, p, OpenTheses(cfg, p.theses), 0);
    var s3 := if drain then s2 else ScheduleTheses(cfg, p, OpenTheses(cfg, p.theses), 0);
    VerificationsAppend(s3, s3.tasks, 0);
  }

  /** A probe whose worker was paused is as it was, ready with its attempts unchanged, and stands in the order of the
      ready when the next life's first tick dispatches. */
  lemma {:induction false} PausedProbeIsResumed(cfg: Config, s: State, env: TickEnv, drain: bool, n: nat, next: Life)
    requires cfg.twins != [] && MayProceed(cfg, s, env) && n < |QueueOf(cfg, Prepare(cfg, s, env, drain))|
    requires var p := Prepare(cfg, s, env, drain); IsPaused(p.tasks[QueueOf(cfg, p)[n]], env.runs(n))
    requires next.ticks != []
    ensures var p, r := Prepare(cfg, s, env, drain), Tick(cfg, s, env, drain).s;
            var i := QueueOf(cfg, p)[n];
            i < |r.tasks| && r.tasks[i] == p.tasks[i] && r.tasks[i].status.Ready? &&
            var later := Prepare(cfg, Elapse(Booted(cfg, r, next), next.ticks[0]), next.ticks[0], next.drain);
            i in ReadyTasks(cfg, later.tasks) && later.tasks[i].attempts == r.tasks[i].attempts
  {
    TickOutcome(cfg, s, env, drain, n);
    var i, r := QueueOf(cfg, Prepare(cfg, s, env, drain))[n], Tick(cfg, s, env, drain).s;
    var b := Elapse(Booted(cfg, r, next), next.ticks[0]);
    assert b.tasks[i] == r.tasks[i];
    ReadyIsQueued(cfg, b, next.ticks[0], next.drain, i);
  }
}
