/**
 When a tick stops, and why: what the head of the loop asks, in its order, and what its end asks.  The questions are
 written out here against the ledgers, so that each stop reason is known to mean what it says.
 */
module CampaignStops {
  import opened Options
  import opened Campaign

  // ---- the head of a tick ----------------------------------------------------------------------

  /** The reasons for which a tick stops before it does anything. */
  predicate StopsAtHead(reason: Stop) {
    reason.KillSwitch? || reason.Paused? || reason.ActionBudget? || reason.ModelCallBudget? || reason.WallBudget? ||
    reason.CostBudget?
  }

  predicate AtLimit(limit: Option<nat>, used: int) { limit.Some? && limit.value <= used }

  function WallTime(s: State): int { if s.started.Some? then s.now - s.started.value else 0 }

  /** A reason is given exactly when it holds and none before it does. */
  predicate DueAtHead(cfg: Config, s: State, env: TickEnv, reason: Stop) {
    var actions, models := AtLimit(cfg.maxActions, s.toolCalls), AtLimit(cfg.maxModelCalls, s.modelCalls);
    var wall := AtLimit(cfg.maxWall, WallTime(s));
    match reason
    case KillSwitch => env.stop
    case Paused => !env.stop && env.pause
    case ActionBudget => !env.stop && !env.pause && actions
    case ModelCallBudget => !env.stop && !env.pause && !actions && models
    case WallBudget => !env.stop && !env.pause && !actions && !models && wall
    case CostBudget => !env.stop && !env.pause && !actions && !models && !wall && env.costOut
    case _ => false
  }

  /** Neither stop nor pause is asked for, every budget that is set has something left, and the cost is not out. */
  predicate MayProceed(cfg: Config, s: State, env: TickEnv) {
    !env.stop && !env.pause && !env.costOut &&
    (cfg.maxActions.Some? ==> s.toolCalls < cfg.maxActions.value) &&
    (cfg.maxModelCalls.Some? ==> s.modelCalls < cfg.maxModelCalls.value) &&
    (cfg.maxWall.Some? ==> WallTime(s) < cfg.maxWall.value)
  }

  lemma {:induction false} HeadStopIsExact(cfg: Config, s: State, env: TickEnv)
    ensures HeadStop(cfg, s, env).None? <==> MayProceed(cfg, s, env)
    ensures forall reason :: HeadStop(cfg, s, env) == Some(reason) <==> DueAtHead(cfg, s, env, reason)
    ensures HeadStop(cfg, s, env).Some? ==> StopsAtHead(HeadStop(cfg, s, env).value)
  {
  }

  /** A tick goes past its head exactly when it may; otherwise it leaves everything as it is, for the reason that is
      due. */
  lemma {:induction false} HeadIsExact(cfg: Config, s: State, env: TickEnv, drain: bool) returns (r: TickResult)
    requires cfg.twins != []
    ensures r == Tick(cfg, s, env, drain)
    ensures (r.Halt? && StopsAtHead(r.reason)) <==> !MayProceed(cfg, s, env)
    ensures forall reason :: StopsAtHead(reason) ==> (r.Halt? && r.reason == reason <==> DueAtHead(cfg, s, env, reason))
    ensures if MayProceed(cfg, s, env) then r == Finish(cfg, Prepare(cfg, s, env, drain), env, drain) else r.s == s
  {
    r := Tick(cfg, s, env, drain);
    HeadStopIsExact(cfg, s, env);
    if MayProceed(cfg, s, env) { FinishHasOtherReasons(cfg, Prepare(cfg, s, env, drain), env, drain); }
  }

  lemma {:induction false} FinishHasOtherReasons(cfg: Config, s: State, env: TickEnv, drain: bool)
    ensures var r := Finish(cfg, s, env, drain); r.Halt? ==> !StopsAtHead(r.reason) && !r.reason.Completed?
  {
  }

  // ---- the end of a tick -----------------------------------------------------------------------

  /** Nothing is left to do: every task is finished; and, unless draining, every thesis is exhausted, the planning floor
      is met and every candidate has its decision. */
  predicate NothingLeft(cfg: Config, s: State, drain: bool) {
    (forall i :: 0 <= i < |s.tasks| ==> s.tasks[i].status.Done? || s.tasks[i].status.Blocked?) &&
    (drain ||
     ((forall h :: 0 <= h < |s.theses| ==> s.theses[h].status.Exhausted?) && s.cycles >= cfg.minCycles &&
      forall c :: 0 <= c < |s.candidates| ==>
        !s.candidates[c].status.Unverified? && !s.candidates[c].status.Verifying?))
  }

  /** No task waits for a worker, or no worker may be sent. */
  predicate NobodySent(cfg: Config, s: State) {
    cfg.concurrency == 0 || forall i :: 0 <= i < |s.tasks| ==> !s.tasks[i].status.Ready?
  }

  /** A tick past its head stops when its Director dies; or when it sent nobody and leaves nothing to do, as drained or
      for want of work; and goes on otherwise. */
  lemma {:induction false} EndIsExact(cfg: Config, s: State, env: TickEnv, drain: bool)
    ensures var died := Dispatch(cfg, s, Take(ReadyTasks(cfg, s.tasks), cfg.concurrency), 0, env.runs).died;
            var r := Finish(cfg, s, env, drain);
            var quiet := NobodySent(cfg, s) && NothingLeft(cfg, r.s, drain);
            (r.Halt? <==> died || quiet) &&
            (r.Halt? && r.reason.DirectorDied? <==> died) &&
            (r.Halt? && r.reason.Drained? <==> !died && quiet && drain) &&
            (r.Halt? && r.reason.NoOpenWork? <==> !died && quiet && !drain)
  {
    QueueIsEmptyExactly(cfg, s);
    var q := Take(ReadyTasks(cfg, s.tasks), cfg.concurrency);
    OpenWorkIsExact(cfg, UpdateTheses(Dispatch(cfg, s, q, 0, env.runs).s), drain);
  }

  lemma {:induction false} QueueIsEmptyExactly(cfg: Config, s: State)
    ensures Take(ReadyTasks(cfg, s.tasks), cfg.concurrency) == [] <==> NobodySent(cfg, s)
  {
    var q := ReadyTasks(cfg, s.tasks);
    if q != [] { assert q[0] in q; }
    if i :| 0 <= i < |s.tasks| && s.tasks[i].status.Ready? { assert i in q; }
  }

  lemma {:induction false} OpenWorkIsExact(cfg: Config, s: State, drain: bool)
    ensures HasOpenWork(cfg, s, drain) <==> !NothingLeft(cfg, s, drain)
  {
    if PendingTask(s) {
      var i :| 0 <= i < |s.tasks| && s.tasks[i].Active();
    } else {
      forall i | 0 <= i < |s.tasks| ensures s.tasks[i].status.Done? || s.tasks[i].status.Blocked? {
        assert !s.tasks[i].Active();
      }
    }
  }

  // ---- whole runs ------------------------------------------------------------------------------

  lemma {:induction false} RunStep(cfg: Config, s: State, envs: seq<TickEnv>, drain: bool) returns (r: TickResult)
    requires cfg.twins != [] && envs != []
    ensures r == Tick(cfg, Elapse(s, envs[0]), envs[0], drain) && (r.Halt? ==> !r.reason.Completed?)
    ensures Run(cfg, s, envs, drain) == if r.Go? then Run(cfg, r.s, envs[1..], drain) else (r.s, r.reason)
  {
    var s1 := Elapse(s, envs[0]);
    r := HeadIsExact(cfg, s1, envs[0], drain);
    if MayProceed(cfg, s1, envs[0]) { FinishHasOtherReasons(cfg, Prepare(cfg, s1, envs[0], drain), envs[0], drain); }
  }

  /** A run of one tick more, after `k` ticks that all went on. */
  lemma {:induction false} OneTickMore(cfg: Config, s: State, envs: seq<TickEnv>, drain: bool, k: nat)
    returns (r: TickResult)
    requires cfg.twins != [] && k < |envs| && Run(cfg, s, envs[..k], drain).1.Completed?
    ensures r == Tick(cfg, Elapse(Run(cfg, s, envs[..k], drain).0, envs[k]), envs[k], drain)
    ensures Run(cfg, s, envs[..k + 1], drain) == if r.Go? then (r.s, Completed) else (r.s, r.reason)
    ensures r.Halt? ==> Run(cfg, s, envs, drain) == (r.s, r.reason)
    decreases k
  {
    var first := RunStep(cfg, s, envs, drain);
    var one := RunStep(cfg, s, envs[..k + 1], drain);
    if k == 0 {
      r := first;
      assert envs[..1][1..] == [] && envs[..0] == [];
    } else {
      var same := RunStep(cfg, s, envs[..k], drain);
      assert envs[..k][0] == envs[0] && envs[..k][1..] == envs[1..][..k - 1];
      assert envs[..k + 1][0] == envs[0] && envs[..k + 1][1..] == envs[1..][..k];
      r := OneTickMore(cfg, first.s, envs[1..], drain, k - 1);
    }
  }

  /** A run that came through `k` ticks stops at the head of the next exactly when it may not proceed, with the ledgers
      it found there and for the reason that is due. */
  lemma {:induction false} RunStopsExactly(cfg: Config, s: State, envs: seq<TickEnv>, drain: bool, k: nat)
    requires cfg.twins != [] && k < |envs| && Run(cfg, s, envs[..k], drain).1.Completed?
    ensures var at := Elapse(Run(cfg, s, envs[..k], drain).0, envs[k]);
            (!MayProceed(cfg, at, envs[k]) <==> StopsAtHead(Run(cfg, s, envs[..k + 1], drain).1)) &&
            forall reason :: StopsAtHead(reason) && DueAtHead(cfg, at, envs[k], reason) ==>
              Run(cfg, s, envs, drain) == (at, reason)
  {
    var r := OneTickMore(cfg, s, envs, drain, k);
    var at := Elapse(Run(cfg, s, envs[..k], drain).0, envs[k]);
    var same := HeadIsExact(cfg, at, envs[k], drain);
    if MayProceed(cfg, at, envs[k]) { HeadStopIsExact(cfg, at, envs[k]); }
  }

  /** A run that stops at a head has that very reason, and none before it, in the ledgers it leaves. */
  lemma {:induction false} RunStopsForCause(cfg: Config, s: State, envs: seq<TickEnv>, drain: bool)
    requires cfg.twins != [] && StopsAtHead(Run(cfg, s, envs, drain).1)
    ensures var (r, reason) := Run(cfg, s, envs, drain);
            exists k :: 0 <= k < |envs| && DueAtHead(cfg, r, envs[k], reason)
    decreases |envs|
  {
    var s1 := Elapse(s, envs[0]);
    var r := RunStep(cfg, s, envs, drain);
    var same := HeadIsExact(cfg, s1, envs[0], drain);
    if r.Go? {
      RunStopsForCause(cfg, r.s, envs[1..], drain);
      var (end, reason) := Run(cfg, r.s, envs[1..], drain);
      var k :| 0 <= k < |envs[1..]| && DueAtHead(cfg, end, envs[1..][k], reason);
      assert DueAtHead(cfg, end, envs[k + 1], reason);
    } else {
      assert DueAtHead(cfg, s1, envs[0], r.reason);
    }
  }
}
