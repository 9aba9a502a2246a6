/**
 The action budget and the model-call budget are checked once per tick, before dispatch; this bounds how far a campaign
 can overshoot them, however often its Director is restarted. What is charged is exactly what workers and planner
 report.
 */
module CampaignBudget {
  import opened Arith
  import opened Campaign
  import opened Options
  import Worker

  // ---- what the workers record ----------------------------------------------------------------

  /** How the Director hears of a worker's end. */
  function Reported(reason: Worker.Reason): StopReason {
    match reason
    case ModelUnusable => ModelUnusable
    case Paused => PausedWorker
    case _ => Finished
  }

  /** The run is that of worker `w`: one that returns has finished; any other may have been cut short anywhere. */
  ghost predicate WorkedBy(env: RunEnv, w: Worker.Stint) {
    env.toolCalls == w.Recorded() && env.modelCalls == w.Heard() &&
    match env.outcome
    case Returns(reason) => exists r :: w.Finished(r) && Reported(r) == reason
    case _ => Ended(w)
  }

  /** It finished, or was cut short. */
  ghost predicate Ended(w: Worker.Stint) { w.CutShort() || exists r :: w.Finished(r) }

  /** At most `maxActions` actions are allowed, and at most `burst` tool calls come in one response. */
  ghost predicate Acts(w: Worker.Stint, maxActions: nat, burst: nat) { w.maxActions <= maxActions && w.Bursts(burst) }

  /** At most `maxDur` seconds are allowed, and every turn takes one at least. */
  ghost predicate Lasts(w: Worker.Stint, maxDur: nat) {
    w.maxDur <= maxDur && forall k: nat :: w.turn(k).took >= 1
  }

  ghost predicate ActingRun(env: RunEnv, maxActions: nat, burst: nat) {
    exists w :: WorkedBy(env, w) && Acts(w, maxActions, burst)
  }

  ghost predicate LastingRun(env: RunEnv, maxDur: nat) { exists w :: WorkedBy(env, w) && Lasts(w, maxDur) }

  /** Every run of every tick is some worker's. */
  ghost predicate AllActing(lives: seq<Life>, maxActions: nat, burst: nat) {
    forall n, k, a :: 0 <= n < |lives| && 0 <= k < |lives[n].ticks| ==>
      ActingRun(lives[n].ticks[k].runs(a), maxActions, burst)
  }

  ghost predicate AllLasting(lives: seq<Life>, maxDur: nat) {
    forall n, k, a :: 0 <= n < |lives| && 0 <= k < |lives[n].ticks| ==> LastingRun(lives[n].ticks[k].runs(a), maxDur)
  }

  lemma {:induction false} ActingRunIsFrugal(env: RunEnv, maxActions: nat, burst: nat)
    requires ActingRun(env, maxActions, burst) && burst >= 1
    ensures env.toolCalls <= maxActions - 1 + burst
  {
    var w :| WorkedBy(env, w) && Acts(w, maxActions, burst);
    Worker.RecordedCallsAreBounded(w, burst);
  }

  lemma {:induction false} LastingRunIsFrugal(env: RunEnv, maxDur: nat)
    requires LastingRun(env, maxDur)
    ensures env.modelCalls <= maxDur
  {
    var w :| WorkedBy(env, w) && Lasts(w, maxDur);
    Worker.ModelCallsAreBounded(w);
  }

  // ---- two meters -----------------------------------------------------------------------------------

  datatype Meter = ToolCalls | ModelCalls

  function Used(s: State, m: Meter): nat { if m.ToolCalls? then s.toolCalls else s.modelCalls }

  function Limit(cfg: Config, m: Meter): Option<nat> { if m.ToolCalls? then cfg.maxActions else cfg.maxModelCalls }

  /** What the run of task `i` reports: a run without lease or handle nothing, a verification no tool calls. */
  function Charge(s: State, i: nat, env: RunEnv, m: Meter): nat
    requires i < |s.tasks|
  {
    if Leased(s.leases, s.now + env.delay, i) || !env.handleOk then 0
    else if m.ModelCalls? then env.modelCalls
    else if s.tasks[i].kind.Probe? then env.toolCalls else 0
  }

  /** What planning in this tick reports. */
  function PlanCharge(cfg: Config, s: State, env: TickEnv, drain: bool, m: Meter): nat {
    if m.ModelCalls? && !drain && WantsPlan(cfg, RecoverTwins(cfg, RecoverLeases(s), env.twins, 0))
    then env.planCalls else 0
  }

  function Late(env: TickEnv, m: Meter): nat { if m.ToolCalls? then env.late else env.lateModels }

  lemma {:induction false} RunOneCharges(cfg: Config, s: State, i: nat, env: RunEnv, m: Meter)
    requires i < |s.tasks|
    ensures Used(RunOne(cfg, s, i, env), m) == Used(s, m) + Charge(s, i, env, m)
  {
  }

  function DispatchCharge(cfg: Config, s: State, q: seq<nat>, k: nat, runs: nat -> RunEnv, m: Meter): nat
    requires InRange(q, |s.tasks|)
    decreases |q| - k
  {
    if k >= |q| then 0
    else
      Charge(s, q[k], runs(k), m) +
      if Dies(s, q[k], runs(k)) then 0 else DispatchCharge(cfg, RunOne(cfg, s, q[k], runs(k)), q, k + 1, runs, m)
  }

  lemma {:induction false} DispatchCharges(cfg: Config, s: State, q: seq<nat>, k: nat, runs: nat -> RunEnv, m: Meter)
    requires InRange(q, |s.tasks|)
    ensures Used(Dispatch(cfg, s, q, k, runs).s, m) == Used(s, m) + DispatchCharge(cfg, s, q, k, runs, m)
    decreases |q| - k
  {
    if k < |q| {
      RunOneCharges(cfg, s, q[k], runs(k), m);
      if !Dies(s, q[k], runs(k)) { DispatchCharges(cfg, RunOne(cfg, s, q[k], runs(k)), q, k + 1, runs, m); }
    }
  }

  // ---- what a tick charges ---------------------------------------------------------------------------

  lemma {:induction false} PrepareCharges(cfg: Config, s: State, env: TickEnv, drain: bool, m: Meter)
    requires cfg.twins != []
    ensures Used(Prepare(cfg, s, env, drain), m) == Used(s, m) + PlanCharge(cfg, s, env, drain, m)
  {
    RecoverTwinsChargeNothing(cfg, RecoverLeases(s), env.twins, 0);
    var s2 := RecoverTwins(cfg, RecoverLeases(s), env.twins, 0);
    var p := PlanIfNeeded(cfg, s2, env);
    SchedulingChargesNothing(cfg, p, OpenTheses(cfg, p.theses), 0);
    var s3 := if drain then s2 else ScheduleTheses(cfg, p, OpenTheses(cfg, p.theses), 0);
    VerificationsChargeNothing(s3, s3.tasks, 0);
  }

  predicate SameUse(s: State, r: State) { r.toolCalls == s.toolCalls && r.modelCalls == s.modelCalls }

  lemma {:induction false} RecoverTwinsChargeNothing(cfg: Config, s: State, env: nat -> TwinEnv, k: nat)
    ensures SameUse(s, RecoverTwins(cfg, s, env, k))
    decreases |cfg.twins| - k
  {
    if k < |cfg.twins| { RecoverTwinsChargeNothing(cfg, RecoverTwin(s, cfg.twins[k], env(k)), env, k + 1); }
  }

  lemma {:induction false} SchedulingChargesNothing(cfg: Config, s: State, q: seq<nat>, made: nat)
    requires cfg.twins != [] && InRange(q, |s.theses|)
    ensures SameUse(s, ScheduleTheses(cfg, s, q, made))
    decreases |q|
  {
    if q != [] && made < MAX_NEW_TASKS {
      var s1 := ScheduleThesis(cfg, s, q[0]);
      SchedulingChargesNothing(cfg, s1, q[1..], made + |s1.tasks| - |s.tasks|);
    }
  }

  lemma {:induction false} VerificationsChargeNothing(s: State, before: seq<Task>, c: nat)
    ensures SameUse(s, ScheduleVerifications(s, before, c))
    decreases |s.candidates| - c
  {
    if c < |s.candidates| {
      var d := s.candidates[c];
      if !d.status.Unverified? || HasVerifyTask(before, c) { VerificationsChargeNothing(s, before, c + 1); }
      else {
        VerificationsChargeNothing(
          s.(tasks := s.tasks + [Task(d.thesis, d.twin, d.twin, Verify(c), VERIFY_PRIORITY, s.now, Ready, 0)],
             candidates := s.candidates[c := d.(status := Verifying)]), before, c + 1);
      }
    }
  }

  function DispatchedQueue(cfg: Config, s: State): (q: seq<nat>)
    ensures |q| <= cfg.concurrency && InRange(q, |s.tasks|)
  {
    Take(ReadyTasks(cfg, s.tasks), cfg.concurrency)
  }

  function TickCharge(cfg: Config, s: State, env: TickEnv, drain: bool, m: Meter): nat
    requires cfg.twins != []
  {
    if HeadStop(cfg, s, env).Some? then 0
    else
      var p := Prepare(cfg, s, env, drain);
      PlanCharge(cfg, s, env, drain, m) + DispatchCharge(cfg, p, DispatchedQueue(cfg, p), 0, env.runs, m)
  }

  lemma {:induction false} FinishCharges(cfg: Config, s: State, env: TickEnv, drain: bool, m: Meter)
    ensures Used(Finish(cfg, s, env, drain).s, m) ==
            Used(s, m) + DispatchCharge(cfg, s, DispatchedQueue(cfg, s), 0, env.runs, m)
  {
    DispatchCharges(cfg, s, DispatchedQueue(cfg, s), 0, env.runs, m);
  }

  lemma {:induction false} TickCharges(cfg: Config, s: State, env: TickEnv, drain: bool, m: Meter)
    requires cfg.twins != []
    ensures Used(Tick(cfg, s, env, drain).s, m) == Used(s, m) + TickCharge(cfg, s, env, drain, m)
  {
    if HeadStop(cfg, s, env).None? {
      PrepareCharges(cfg, s, env, drain, m);
      FinishCharges(cfg, Prepare(cfg, s, env, drain), env, drain, m);
    }
  }

  // ---- runs and lives ----------------------------------------------------------------------------------

  /** What workers without a Director record during these ticks, and over these lives. */
  function LateCalls(envs: seq<TickEnv>, m: Meter): nat {
    if envs == [] then 0 else Late(envs[0], m) + LateCalls(envs[1..], m)
  }

  function AllLateCalls(lives: seq<Life>, m: Meter): nat {
    if lives == [] then 0 else LateCalls(lives[0].ticks, m) + AllLateCalls(lives[1..], m)
  }

  function RunCharge(cfg: Config, s: State, envs: seq<TickEnv>, drain: bool, m: Meter): nat
    requires cfg.twins != []
    decreases |envs|
  {
    if envs == [] then 0
    else
      var s1 := Elapse(s, envs[0]);
      var r := Tick(cfg, s1, envs[0], drain);
      Late(envs[0], m) + TickCharge(cfg, s1, envs[0], drain, m) +
      if r.Go? then RunCharge(cfg, r.s, envs[1..], drain, m) else 0
  }

  lemma {:induction false} RunCharges(cfg: Config, s: State, envs: seq<TickEnv>, drain: bool, m: Meter)
    requires cfg.twins != []
    ensures Used(Run(cfg, s, envs, drain).0, m) == Used(s, m) + RunCharge(cfg, s, envs, drain, m)
    decreases |envs|
  {
    if envs != [] {
      var s1 := Elapse(s, envs[0]);
      TickCharges(cfg, s1, envs[0], drain, m);
      var r := Tick(cfg, s1, envs[0], drain);
      if r.Go? { RunCharges(cfg, r.s, envs[1..], drain, m); }
    }
  }

  function LivesCharge(cfg: Config, s: State, lives: seq<Life>, m: Meter): nat
    requires cfg.twins != []
    decreases |lives|
  {
    if lives == [] then 0
    else
      RunCharge(cfg, Booted(cfg, s, lives[0]), lives[0].ticks, lives[0].drain, m) +
      LivesCharge(cfg, Live(cfg, s, lives[0]).0, lives[1..], m)
  }

  /** Over any number of lives the meters show exactly what was reported, no call more and none less. */
  lemma {:induction false} CallsAreConserved(cfg: Config, s: State, lives: seq<Life>, m: Meter)
    requires cfg.twins != []
    ensures Used(LiveAll(cfg, s, lives), m) == Used(s, m) + LivesCharge(cfg, s, lives, m)
    decreases |lives|
  {
    if lives != [] {
      RunCharges(cfg, Booted(cfg, s, lives[0]), lives[0].ticks, lives[0].drain, m);
      CallsAreConserved(cfg, Live(cfg, s, lives[0]).0, lives[1..], m);
    }
  }

  // ---- ceilings -------------------------------------------------------------------------------------------

  /** What `n` workers may record together. */
  function Spending(n: nat, perTask: nat): nat { if n == 0 then 0 else perTask + Spending(n - 1, perTask) }

  lemma {:induction false} SpendingIsProduct(n: nat, perTask: nat)
    ensures Spending(n, perTask) == n * perTask
  {
    if n > 0 {
      SpendingIsProduct(n - 1, perTask);
      OneMore(n - 1, perTask);
    }
  }

  lemma {:induction false} SpendingGrows(a: nat, b: nat, perTask: nat)
    requires a <= b
    ensures Spending(a, perTask) <= Spending(b, perTask)
    decreases b
  {
    if a < b { SpendingGrows(a, b - 1, perTask); }
  }

  function Reports(env: RunEnv, m: Meter): nat { if m.ToolCalls? then env.toolCalls else env.modelCalls }

  /** A planning cycle asks the model once. */
  function Allowance(m: Meter): nat { if m.ToolCalls? then 0 else 1 }

  /** No run reports more than `perTask` calls. */
  ghost predicate Frugal(env: TickEnv, m: Meter, perTask: nat) {
    (m.ModelCalls? ==> env.planCalls <= 1) && forall a :: Reports(env.runs(a), m) <= perTask
  }

  ghost predicate AllFrugal(envs: seq<TickEnv>, m: Meter, perTask: nat) {
    forall k :: 0 <= k < |envs| ==> Frugal(envs[k], m, perTask)
  }

  /** The most that may ever be recorded: one short of the budget, plus one planning and one full round of workers. */
  function Ceiling(cfg: Config, m: Meter, perTask: nat): nat
    requires Limit(cfg, m).Some?
  {
    if Limit(cfg, m).value == 0 then 0
    else Limit(cfg, m).value - 1 + Allowance(m) + Spending(cfg.concurrency, perTask)
  }

  /** The charge of one run, and the state it leaves. */
  lemma {:induction false} NextCharge(cfg: Config, s: State, q: seq<nat>, k: nat, runs: nat -> RunEnv, m: Meter,
                                      perTask: nat)
    returns (charge: nat, s1: State, died: bool)
    requires InRange(q, |s.tasks|) && k < |q| && Reports(runs(k), m) <= perTask
    ensures |s1.tasks| == |s.tasks| && charge <= perTask
    ensures DispatchCharge(cfg, s, q, k, runs, m) ==
            charge + if died then 0 else DispatchCharge(cfg, s1, q, k + 1, runs, m)
  {
    charge, s1, died := Charge(s, q[k], runs(k), m), RunOne(cfg, s, q[k], runs(k)), Dies(s, q[k], runs(k));
  }

  /** The charges of the runs, one by one. */
  lemma {:induction false} ChargesOf(cfg: Config, s: State, q: seq<nat>, k: nat, runs: nat -> RunEnv, m: Meter,
                                     perTask: nat)
    returns (charges: seq<nat>)
    requires InRange(q, |s.tasks|) && k <= |q| && forall a :: Reports(runs(a), m) <= perTask
    ensures |charges| <= |q| - k && Sum(charges) == DispatchCharge(cfg, s, q, k, runs, m) && NoneOver(charges, perTask)
    decreases |q| - k
  {
    charges := [];
    if k < |q| {
      var charge, s1, died := NextCharge(cfg, s, q, k, runs, m, perTask);
      var rest: seq<nat> := [];
      if !died { rest := ChargesOf(cfg, s1, q, k + 1, runs, m, perTask); }
      charges := OneMoreCharge(charge, rest, perTask);
    }
  }

  function Sum(charges: seq<nat>): nat { if charges == [] then 0 else charges[0] + Sum(charges[1..]) }

  predicate NoneOver(charges: seq<nat>, perTask: nat) { forall k :: 0 <= k < |charges| ==> charges[k] <= perTask }

  lemma {:induction false} OneMoreCharge(charge: nat, rest: seq<nat>, perTask: nat) returns (charges: seq<nat>)
    requires charge <= perTask && NoneOver(rest, perTask)
    ensures |charges| == |rest| + 1 && Sum(charges) == charge + Sum(rest) && NoneOver(charges, perTask)
  {
    charges := [charge] + rest;
    assert charges[1..] == rest;
  }

  lemma {:induction false} SumIsBounded(charges: seq<nat>, perTask: nat)
    requires NoneOver(charges, perTask)
    ensures Sum(charges) <= Spending(|charges|, perTask)
    decreases |charges|
  {
    if charges != [] { SumIsBounded(charges[1..], perTask); }
  }

  lemma {:induction false} TickWithinCeiling(cfg: Config, s: State, env: TickEnv, drain: bool, m: Meter, perTask: nat,
                                             late: nat)
    requires cfg.twins != [] && Limit(cfg, m).Some? && Frugal(env, m, perTask)
    requires Used(s, m) <= Ceiling(cfg, m, perTask) + late
    ensures Used(Tick(cfg, s, env, drain).s, m) <= Ceiling(cfg, m, perTask) + late
  {
    TickCharges(cfg, s, env, drain, m);
    if HeadStop(cfg, s, env).None? {
      var p := Prepare(cfg, s, env, drain);
      var charges := ChargesOf(cfg, p, DispatchedQueue(cfg, p), 0, env.runs, m, perTask);
      SumIsBounded(charges, perTask);
      SpendingGrows(|charges|, cfg.concurrency, perTask);
    }
  }

  lemma {:induction false} RunWithinCeiling(cfg: Config, s: State, envs: seq<TickEnv>, drain: bool, m: Meter,
                                            perTask: nat, late: nat)
    requires cfg.twins != [] && Limit(cfg, m).Some? && Used(s, m) <= Ceiling(cfg, m, perTask) + late
    requires AllFrugal(envs, m, perTask)
    ensures Used(Run(cfg, s, envs, drain).0, m) <= Ceiling(cfg, m, perTask) + late + LateCalls(envs, m)
    decreases |envs|
  {
    if envs != [] {
      var s1 := Elapse(s, envs[0]);
      TickWithinCeiling(cfg, s1, envs[0], drain, m, perTask, late + Late(envs[0], m));
      var r := Tick(cfg, s1, envs[0], drain);
      if r.Go? { RunWithinCeiling(cfg, r.s, envs[1..], drain, m, perTask, late + Late(envs[0], m)); }
    }
  }

  lemma {:induction false} LivesWithinCeiling(cfg: Config, s: State, lives: seq<Life>, m: Meter, perTask: nat,
                                              late: nat)
    requires cfg.twins != [] && Limit(cfg, m).Some? && Used(s, m) <= Ceiling(cfg, m, perTask) + late
    requires forall n :: 0 <= n < |lives| ==> AllFrugal(lives[n].ticks, m, perTask)
    ensures Used(LiveAll(cfg, s, lives), m) <= Ceiling(cfg, m, perTask) + late + AllLateCalls(lives, m)
    decreases |lives|
  {
    if lives != [] {
      RunWithinCeiling(cfg, Booted(cfg, s, lives[0]), lives[0].ticks, lives[0].drain, m, perTask, late);
      LivesWithinCeiling(cfg, Live(cfg, s, lives[0]).0, lives[1..], m, perTask, late + LateCalls(lives[0].ticks, m));
    }
  }

  /** Across any number of Director lives, with workers finishing, failing, being abandoned or losing their Director
      anywhere: T is the largest action bound of a task, B the most tool calls in one response and C the concurrency.
      What workers record after their Director is gone comes on top. */
  lemma {:induction false} OvershootIsBounded(cfg: Config, now: nat, lives: seq<Life>, maxActions: nat, burst: nat)
    requires cfg.twins != [] && cfg.maxActions.Some? && burst >= 1 && AllActing(lives, maxActions, burst)
    ensures var calls, late := LiveAll(cfg, Blank(now), lives).toolCalls, AllLateCalls(lives, ToolCalls);
            if cfg.maxActions.value == 0 then calls <= late
            else calls <= cfg.maxActions.value - 1 + cfg.concurrency * (maxActions - 1 + burst) + late
  {
    var perTask := maxActions - 1 + burst;
    forall n | 0 <= n < |lives| ensures AllFrugal(lives[n].ticks, ToolCalls, perTask) {
      forall k, a | 0 <= k < |lives[n].ticks| ensures lives[n].ticks[k].runs(a).toolCalls <= perTask {
        ActingRunIsFrugal(lives[n].ticks[k].runs(a), maxActions, burst);
      }
    }
    SpendingIsProduct(cfg.concurrency, perTask);
    LivesWithinCeiling(cfg, Blank(now), lives, ToolCalls, perTask, 0);
  }

  /** A planning cycle makes one model call at most. */
  ghost predicate PlansOnce(lives: seq<Life>) {
    forall n, k :: 0 <= n < |lives| && 0 <= k < |lives[n].ticks| ==> lives[n].ticks[k].planCalls <= 1
  }

  /** The same for model calls: S is the longest time bound of a task in seconds, and no turn is quicker than one. */
  lemma {:induction false} ModelCallsAreBounded(cfg: Config, now: nat, lives: seq<Life>, maxDur: nat)
    requires cfg.twins != [] && cfg.maxModelCalls.Some? && AllLasting(lives, maxDur) && PlansOnce(lives)
    ensures var calls, late := LiveAll(cfg, Blank(now), lives).modelCalls, AllLateCalls(lives, ModelCalls);
            if cfg.maxModelCalls.value == 0 then calls <= late
            else calls <= cfg.maxModelCalls.value + cfg.concurrency * maxDur + late
  {
    forall n | 0 <= n < |lives| ensures AllFrugal(lives[n].ticks, ModelCalls, maxDur) {
      forall k, a | 0 <= k < |lives[n].ticks| ensures lives[n].ticks[k].runs(a).modelCalls <= maxDur {
        LastingRunIsFrugal(lives[n].ticks[k].runs(a), maxDur);
      }
    }
    SpendingIsProduct(cfg.concurrency, maxDur);
    LivesWithinCeiling(cfg, Blank(now), lives, ModelCalls, maxDur, 0);
  }

  ghost predicate WorkersEndWithTheirDirector(lives: seq<Life>, m: Meter) {
    forall n, k :: 0 <= n < |lives| && 0 <= k < |lives[n].ticks| ==> Late(lives[n].ticks[k], m) == 0
  }

  lemma {:induction false} NoLateCalls(envs: seq<TickEnv>, m: Meter)
    requires forall k :: 0 <= k < |envs| ==> Late(envs[k], m) == 0
    ensures LateCalls(envs, m) == 0
    decreases |envs|
  {
    if envs != [] { NoLateCalls(envs[1..], m); }
  }

  lemma {:induction false} NobodyIsLate(lives: seq<Life>, m: Meter)
    requires WorkersEndWithTheirDirector(lives, m)
    ensures AllLateCalls(lives, m) == 0
    decreases |lives|
  {
    if lives != [] {
      NoLateCalls(lives[0].ticks, m);
      NobodyIsLate(lives[1..], m);
    }
  }

  /** When no worker outlives its Director: at most max_actions - 1 + C * (T - 1 + B). */
  lemma {:induction false} OvershootWithoutOrphans(cfg: Config, now: nat, lives: seq<Life>, maxActions: nat, burst: nat)
    requires cfg.twins != [] && cfg.maxActions.Some? && cfg.maxActions.value >= 1 && burst >= 1
    requires AllActing(lives, maxActions, burst) && WorkersEndWithTheirDirector(lives, ToolCalls)
    ensures LiveAll(cfg, Blank(now), lives).toolCalls <=
            cfg.maxActions.value - 1 + cfg.concurrency * (maxActions - 1 + burst)
  {
    OvershootIsBounded(cfg, now, lives, maxActions, burst);
    NobodyIsLate(lives, ToolCalls);
  }

  // ---- workers that outlive their Director --------------------------------------------------------------

  /** How many of these lives end with the Director dying in the executor. */
  function Deaths(cfg: Config, s: State, lives: seq<Life>): nat
    requires cfg.twins != []
    decreases |lives|
  {
    if lives == [] then 0
    else
      var (r, reason) := Live(cfg, s, lives[0]);
      (if reason.DirectorDied? then 1 else 0) + Deaths(cfg, r, lives[1..])
  }

  function RecordedBy(workers: seq<Worker.Stint>, m: Meter): nat {
    if workers == [] then 0
    else (if m.ToolCalls? then workers[0].Recorded() else workers[0].Heard()) + RecordedBy(workers[1..], m)
  }

  lemma {:induction false} WorkersRecordAtMost(workers: seq<Worker.Stint>, m: Meter, perTask: nat)
    requires forall k :: 0 <= k < |workers| ==>
               (if m.ToolCalls? then workers[k].Recorded() else workers[k].Heard()) <= perTask
    ensures RecordedBy(workers, m) <= Spending(|workers|, perTask)
    decreases |workers|
  {
    if workers != [] {
      forall k | 0 <= k < |workers[1..]|
        ensures (if m.ToolCalls? then workers[1..][k].Recorded() else workers[1..][k].Heard()) <= perTask
      {
        assert workers[1..][k] == workers[k + 1];
      }
      WorkersRecordAtMost(workers[1..], m, perTask);
    }
  }

  /** One short of the limit and one full round; nothing under a limit of zero. */
  function Base(limit: nat, round: nat): nat { if limit == 0 then 0 else limit - 1 + round }

  lemma {:induction false} LateAtMost(late: nat, orphans: nat, deaths: nat, perTask: nat)
    requires late <= Spending(orphans, perTask) && orphans <= deaths
    ensures late <= deaths * perTask
  {
    SpendingGrows(orphans, deaths, perTask);
    SpendingIsProduct(deaths, perTask);
  }

  lemma {:induction false} OrphansRecordAtMost(orphans: seq<Worker.Stint>, maxActions: nat, burst: nat)
    requires burst >= 1 && forall k :: 0 <= k < |orphans| ==> Ended(orphans[k]) && Acts(orphans[k], maxActions, burst)
    ensures RecordedBy(orphans, ToolCalls) <= Spending(|orphans|, maxActions - 1 + burst)
  {
    forall k | 0 <= k < |orphans| ensures orphans[k].Recorded() <= maxActions - 1 + burst {
      Worker.RecordedCallsAreBounded(orphans[k], burst);
    }
    WorkersRecordAtMost(orphans, ToolCalls, maxActions - 1 + burst);
  }

  lemma {:induction false} OrphansAdd(calls: nat, late: nat, deaths: nat, limit: nat, round: nat,
                                      orphans: seq<Worker.Stint>, maxActions: nat, burst: nat)
    requires burst >= 1 && forall k :: 0 <= k < |orphans| ==> Ended(orphans[k]) && Acts(orphans[k], maxActions, burst)
    requires |orphans| <= deaths && late <= RecordedBy(orphans, ToolCalls) && calls <= Base(limit, round) + late
    ensures calls <= Base(limit, round) + deaths * (maxActions - 1 + burst)
  {
    OrphansRecordAtMost(orphans, maxActions, burst);
    LateAtMost(late, |orphans|, deaths, maxActions - 1 + burst);
  }

  /** Dispatch is sequential, so a Director that dies leaves one worker at most.  When the late calls are those of such
      orphans, D deaths add at most D * (T - 1 + B). */
  lemma {:induction false} OvershootWithOrphans(cfg: Config, now: nat, lives: seq<Life>, maxActions: nat, burst: nat,
                                                orphans: seq<Worker.Stint>)
    requires cfg.twins != [] && cfg.maxActions.Some? && burst >= 1 && AllActing(lives, maxActions, burst)
    requires |orphans| <= Deaths(cfg, Blank(now), lives)
    requires AllLateCalls(lives, ToolCalls) <= RecordedBy(orphans, ToolCalls)
    requires forall k :: 0 <= k < |orphans| ==> Ended(orphans[k]) && Acts(orphans[k], maxActions, burst)
    ensures var perTask, deaths := maxActions - 1 + burst, Deaths(cfg, Blank(now), lives);
            LiveAll(cfg, Blank(now), lives).toolCalls <=
            Base(cfg.maxActions.value, cfg.concurrency * perTask) + deaths * perTask
  {
    OvershootIsBounded(cfg, now, lives, maxActions, burst);
    OrphansAdd(LiveAll(cfg, Blank(now), lives).toolCalls, AllLateCalls(lives, ToolCalls),
      Deaths(cfg, Blank(now), lives),
               cfg.maxActions.value, cfg.concurrency * (maxActions - 1 + burst), orphans, maxActions, burst);
  }

  /** The same for model calls: D deaths add at most D * S. */
  lemma {:induction false} ModelCallsWithOrphans(cfg: Config, now: nat, lives: seq<Life>, maxDur: nat,
                                                 orphans: seq<Worker.Stint>)
    requires cfg.twins != [] && cfg.maxModelCalls.Some? && AllLasting(lives, maxDur) && PlansOnce(lives)
    requires |orphans| <= Deaths(cfg, Blank(now), lives)
    requires AllLateCalls(lives, ModelCalls) <= RecordedBy(orphans, ModelCalls)
    requires forall k :: 0 <= k < |orphans| ==> Ended(orphans[k]) && Lasts(orphans[k], maxDur)
    ensures LiveAll(cfg, Blank(now), lives).modelCalls <=
            (if cfg.maxModelCalls.value == 0 then 0 else cfg.maxModelCalls.value + cfg.concurrency * maxDur) +
            Deaths(cfg, Blank(now), lives) * maxDur
  {
    var deaths := Deaths(cfg, Blank(now), lives);
    ModelCallsAreBounded(cfg, now, lives, maxDur);
    forall k | 0 <= k < |orphans| ensures orphans[k].Heard() <= maxDur { Worker.ModelCallsAreBounded(orphans[k]); }
    WorkersRecordAtMost(orphans, ModelCalls, maxDur);
    LateAtMost(AllLateCalls(lives, ModelCalls), |orphans|, deaths, maxDur);
  }
}
