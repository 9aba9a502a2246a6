/**
 Directors killed between two ledger writes of a dispatch or of a lease recovery: a kill strands a task exactly when it
 falls between the end of the task's lease and the task's own update, and a stranded task nobody else holds stays so.
 */
module CampaignKills {
  import opened Options
  import opened Campaign
  import opened CampaignSafety

  /** The task runs under a recorded lease that has ended. */
  predicate Stranded(s: State, i: nat) {
    i < |s.tasks| && s.tasks[i].status.Running? &&
    s.tasks[i].status.lease < |s.leases| && !s.leases[s.tasks[i].status.lease].Open()
  }

  /** The task runs, and no open lease names it. */
  predicate Lost(s: State, i: nat) {
    i < |s.tasks| && s.tasks[i].status.Running? &&
    forall l :: 0 <= l < |s.leases| && s.leases[l].Open() ==> s.leases[l].task != i
  }

  /** Nobody is stranded where the invariant holds. */
  lemma {:induction false} NobodyIsStranded(cfg: Config, s: State, i: nat)
    requires Inv(cfg, s) && i < |s.tasks|
    ensures !Stranded(s, i) && !Lost(s, i)
  {
    assert Accounted(cfg, s, i);
  }

  // ---- a kill inside one dispatch --------------------------------------------------------------

  /** The last ledger write of a dispatch before the kill. */
  datatype Cut = WorkerRecorded | LeaseRecorded | TaskMarked | Executed | LeaseReleased | TaskUpdated

  /** The run goes on to end its lease and update its task. */
  predicate Concludes(env: RunEnv) { !env.handleOk || env.outcome.Fails? || env.outcome.Returns? }

  function Hired(s: State, delay: nat): State { s.(workers := s.workers + 1, now := s.now + delay) }

  function Acquired(cfg: Config, s: State, i: nat, delay: nat): State {
    Hired(s, delay).(leases := s.leases + [Lease(i, s.workers, s.now + delay + cfg.ttl, false, false)])
  }

  /** The state when the executor is through, if the twin's handle was there. */
  function Ran(cfg: Config, s: State, i: nat, env: RunEnv): (r: State)
    requires i < |s.tasks|
    ensures |r.tasks| == |s.tasks|
    ensures !Leased(s.leases, s.now + env.delay, i) ==> |s.leases| < |r.leases|
  {
    var s1 := Start(cfg, s, i, env.delay);
    if env.handleOk then Work(cfg, s1, s.tasks[i], s.workers, env) else s1
  }

  /** What the ledgers hold when the dispatch of task `i` is cut off. */
  function CutRun(cfg: Config, s: State, i: nat, env: RunEnv, cut: Cut): State
    requires i < |s.tasks|
  {
    if cut.WorkerRecorded? || Leased(s.leases, s.now + env.delay, i) then Hired(s, env.delay)
    else
      match cut
      case LeaseRecorded => Acquired(cfg, s, i, env.delay)
      case TaskMarked => Start(cfg, s, i, env.delay)
      case Executed => Ran(cfg, s, i, env)
      case LeaseReleased => if Concludes(env) then Release(Ran(cfg, s, i, env), |s.leases|) else Ran(cfg, s, i, env)
      case TaskUpdated => RunOne(cfg, s, i, env)
  }

  /** The kill falls between the release of the lease and the update of its task. */
  predicate InRunWindow(s: State, i: nat, env: RunEnv, cut: Cut) {
    cut.LeaseReleased? && !Leased(s.leases, s.now + env.delay, i) && Concludes(env)
  }

  /** The stages lead to the dispatch as a whole. */
  lemma {:induction false} CutsLeadToRunOne(cfg: Config, s: State, i: nat, env: RunEnv)
    requires i < |s.tasks|
    ensures CutRun(cfg, s, i, env, TaskUpdated) == RunOne(cfg, s, i, env)
    ensures !Leased(s.leases, s.now + env.delay, i) && Concludes(env) ==>
              var r, before := RunOne(cfg, s, i, env), CutRun(cfg, s, i, env, LeaseReleased);
              |before.tasks| == |r.tasks| && r == SetTask(before, i, r.tasks[i])
  {
  }

  lemma {:induction false} AcquiredKeeps(cfg: Config, s: State, i: nat, delay: nat)
    requires Inv(cfg, s) && i < |s.tasks| && s.tasks[i].status.Ready?
    ensures Inv(cfg, Acquired(cfg, s, i, delay))
  {
    var r := Acquired(cfg, s, i, delay);
    forall j | 0 <= j < |r.tasks| ensures Accounted(cfg, r, j) && VerifyTaskOk(r, j) {
      assert Accounted(cfg, s, j) && VerifyTaskOk(s, j);
    }
    forall l | 0 <= l < |r.leases| ensures LeaseOk(cfg, r, l) {
      if l < |s.leases| { assert LeaseOk(cfg, s, l); }
    }
    VerifyTasksKept(cfg, s, r);
  }

  lemma {:induction false} RanKeeps(cfg: Config, s: State, i: nat, env: RunEnv)
    requires Inv(cfg, s) && i < |s.tasks| && s.tasks[i].status.Ready? && !Leased(s.leases, s.now + env.delay, i)
    ensures var r, s1 := Ran(cfg, s, i, env), Start(cfg, s, i, env.delay);
            Inv(cfg, r) && r.tasks == s1.tasks && r.leases == s1.leases
  {
    StartKeeps(cfg, s, i, env.delay);
    if env.handleOk { WorkKeeps(cfg, Start(cfg, s, i, env.delay), i, s.tasks[i], s.workers, env); }
  }

  /** A kill inside a dispatch keeps everything exactly when it misses the window. */
  lemma {:induction false} CutRunKeepsExactly(cfg: Config, s: State, i: nat, env: RunEnv, cut: Cut)
    requires Inv(cfg, s) && i < |s.tasks| && s.tasks[i].status.Ready?
    ensures Inv(cfg, CutRun(cfg, s, i, env, cut)) <==> !InRunWindow(s, i, env, cut)
  {
    if cut.WorkerRecorded? || Leased(s.leases, s.now + env.delay, i) { HiredKeeps(cfg, s, env.delay); }
    else {
      match cut
      case LeaseRecorded => AcquiredKeeps(cfg, s, i, env.delay);
      case TaskMarked => StartKeeps(cfg, s, i, env.delay);
      case Executed => RanKeeps(cfg, s, i, env);
      case LeaseReleased =>
        RanKeeps(cfg, s, i, env);
        if Concludes(env) { WindowStrands(cfg, s, i, env); NotKept(cfg, CutRun(cfg, s, i, env, cut), i); }
      case TaskUpdated => RunOneKeeps(cfg, s, i, env);
    }
  }

  lemma {:induction false} HiredKeeps(cfg: Config, s: State, delay: nat)
    requires Inv(cfg, s)
    ensures Inv(cfg, Hired(s, delay))
  {
    var r := Hired(s, delay);
    forall j | 0 <= j < |r.tasks| ensures Accounted(cfg, r, j) && VerifyTaskOk(r, j) {
      assert Accounted(cfg, s, j) && VerifyTaskOk(s, j);
    }
    forall l | 0 <= l < |r.leases| ensures LeaseOk(cfg, r, l) { assert LeaseOk(cfg, s, l); }
    VerifyTasksKept(cfg, s, r);
  }

  lemma {:induction false} NotKept(cfg: Config, s: State, i: nat)
    requires Stranded(s, i)
    ensures !Inv(cfg, s)
  {
    if Inv(cfg, s) { NobodyIsStranded(cfg, s, i); }
  }

  /** In the window the task at hand is stranded, and nobody else. */
  lemma {:induction false} WindowStrands(cfg: Config, s: State, i: nat, env: RunEnv)
    requires Inv(cfg, s) && i < |s.tasks| && s.tasks[i].status.Ready? && InRunWindow(s, i, env, LeaseReleased)
    ensures var r := CutRun(cfg, s, i, env, LeaseReleased);
            forall j :: Stranded(r, j) <==> j == i
  {
    RanKeeps(cfg, s, i, env);
    var m, r := Ran(cfg, s, i, env), CutRun(cfg, s, i, env, LeaseReleased);
    forall j | Stranded(r, j) ensures j == i {
      assert Accounted(cfg, m, j) && Accounted(cfg, m, i);
    }
  }

  /** It is lost for good exactly when no other open lease names it. */
  lemma {:induction false} WindowLosesExactly(cfg: Config, s: State, i: nat, env: RunEnv)
    requires Inv(cfg, s) && i < |s.tasks| && s.tasks[i].status.Ready? && InRunWindow(s, i, env, LeaseReleased)
    ensures Lost(CutRun(cfg, s, i, env, LeaseReleased), i) <==>
            forall l :: 0 <= l < |s.leases| && s.leases[l].Open() ==> s.leases[l].task != i
  {
    RanKeeps(cfg, s, i, env);
    var r := CutRun(cfg, s, i, env, LeaseReleased);
    assert forall l :: 0 <= l < |s.leases| ==> r.leases[l] == s.leases[l];
  }

  // ---- a kill inside a lease recovery -------------------------------------------------------------

  /** Of the first `n` leases, one that ran out names task `i`. */
  predicate RanOutBelow(leases: seq<Lease>, now: nat, n: nat, i: nat) {
    exists l :: 0 <= l < n && l < |leases| && Due(leases[l], now) && leases[l].task == i
  }

  /** The first `ended` leases are ended where due, and the tasks of the first `served` requeued.  (A recovery serves
      the first only when it has ended all that are due; what follows does not need that.) */
  function CutRecovery(s: State, ended: nat, served: nat): State {
    s.(leases := seq(|s.leases|, l requires 0 <= l < |s.leases| =>
         if l < ended && Due(s.leases[l], s.now) then s.leases[l].(expired := true) else s.leases[l]),
       tasks := seq(|s.tasks|, i requires 0 <= i < |s.tasks| =>
         if s.tasks[i].status.Running? && RanOutBelow(s.leases, s.now, served, i) then Requeue(s.tasks[i])
         else s.tasks[i]))
  }

  lemma {:induction false} CutsLeadToRecovery(s: State)
    ensures CutRecovery(s, 0, 0) == s && CutRecovery(s, |s.leases|, |s.leases|) == RecoverLeases(s)
  {
    var none, all := CutRecovery(s, 0, 0), CutRecovery(s, |s.leases|, |s.leases|);
    assert none.leases == s.leases && none.tasks == s.tasks;
    assert all.leases == RecoverLeases(s).leases && all.tasks == RecoverLeases(s).tasks;
  }

  /** Task `i`'s recorded lease was ended by now, and none of its leases was served yet. */
  predicate InRecoveryWindow(s: State, ended: nat, served: nat, i: nat) {
    i < |s.tasks| && s.tasks[i].status.Running? && s.tasks[i].status.lease < ended &&
    s.tasks[i].status.lease < |s.leases| && Due(s.leases[s.tasks[i].status.lease], s.now) &&
    !RanOutBelow(s.leases, s.now, served, i)
  }

  lemma {:induction false} RecoveryStrandsExactly(cfg: Config, s: State, ended: nat, served: nat, i: nat)
    requires Inv(cfg, s)
    ensures Stranded(CutRecovery(s, ended, served), i) <==> InRecoveryWindow(s, ended, served, i)
  {
    if i < |s.tasks| { assert Accounted(cfg, s, i); }
  }

  /** Lost for good exactly when every open lease that names it was ended. */
  lemma {:induction false} RecoveryLosesExactly(cfg: Config, s: State, ended: nat, served: nat, i: nat)
    requires Inv(cfg, s)
    ensures Lost(CutRecovery(s, ended, served), i) <==>
              InRecoveryWindow(s, ended, served, i) &&
              forall l :: 0 <= l < |s.leases| && s.leases[l].Open() && s.leases[l].task == i ==>
                l < ended && Due(s.leases[l], s.now)
  {
    var r := CutRecovery(s, ended, served);
    if i < |s.tasks| {
      assert Accounted(cfg, s, i);
      if Lost(r, i) {
        forall l | 0 <= l < |s.leases| && s.leases[l].Open() && s.leases[l].task == i
          ensures l < ended && Due(s.leases[l], s.now)
        {
          assert !r.leases[l].Open();
        }
      }
    }
  }

  /** A kill inside a recovery keeps everything exactly when it misses every task's window. */
  lemma {:induction false} CutRecoveryKeepsExactly(cfg: Config, s: State, ended: nat, served: nat)
    requires Inv(cfg, s)
    ensures Inv(cfg, CutRecovery(s, ended, served)) <==> forall i :: !InRecoveryWindow(s, ended, served, i)
  {
    var r := CutRecovery(s, ended, served);
    if i :| InRecoveryWindow(s, ended, served, i) {
      RecoveryStrandsExactly(cfg, s, ended, served, i);
      NotKept(cfg, r, i);
    } else {
      forall i | 0 <= i < |r.tasks| ensures Accounted(cfg, r, i) && VerifyTaskOk(r, i) {
        assert Accounted(cfg, s, i) && VerifyTaskOk(s, i) && !InRecoveryWindow(s, ended, served, i);
      }
      forall l | 0 <= l < |r.leases| ensures LeaseOk(cfg, r, l) { assert LeaseOk(cfg, s, l); }
      VerifyTasksKept(cfg, s, r);
    }
  }

  // ---- a kill inside a tick ------------------------------------------------------------------------

  /** The queue is worked off from position `k` to `last`, whose dispatch is cut off. */
  function CutDispatch(cfg: Config, s: State, q: seq<nat>, k: nat, last: nat, runs: nat -> RunEnv, cut: Cut): State
    requires InRange(q, |s.tasks|)
    decreases |q| - k
  {
    if k >= |q| then s
    else if k >= last then CutRun(cfg, s, q[k], runs(k), cut)
    else
      var s1 := RunOne(cfg, s, q[k], runs(k));
      if Dies(s, q[k], runs(k)) then s1 else CutDispatch(cfg, s1, q, k + 1, last, runs, cut)
  }

  predicate InDispatchWindow(cfg: Config, s: State, q: seq<nat>, k: nat, last: nat, runs: nat -> RunEnv, cut: Cut)
    requires InRange(q, |s.tasks|)
    decreases |q| - k
  {
    k < |q| &&
    if k >= last then InRunWindow(s, q[k], runs(k), cut)
    else !Dies(s, q[k], runs(k)) && InDispatchWindow(cfg, RunOne(cfg, s, q[k], runs(k)), q, k + 1, last, runs, cut)
  }

  lemma {:induction false} CutDispatchKeepsExactly(cfg: Config, s: State, q: seq<nat>, k: nat, last: nat,
                                                   runs: nat -> RunEnv, cut: Cut)
    requires Inv(cfg, s) && QueueReady(s, q, k)
    ensures var r := CutDispatch(cfg, s, q, k, last, runs, cut);
            (Inv(cfg, r) <==> !InDispatchWindow(cfg, s, q, k, last, runs, cut)) &&
            (InDispatchWindow(cfg, s, q, k, last, runs, cut) ==> exists i :: Stranded(r, i))
    decreases |q| - k
  {
    if k < |q| {
      if k >= last {
        CutRunKeepsExactly(cfg, s, q[k], runs(k), cut);
        if InRunWindow(s, q[k], runs(k), cut) {
          WindowStrands(cfg, s, q[k], runs(k));
          assert Stranded(CutRun(cfg, s, q[k], runs(k), cut), q[k]);
        }
      } else {
        RunOneKeeps(cfg, s, q[k], runs(k));
        if !Dies(s, q[k], runs(k)) {
          CutDispatchKeepsExactly(cfg, RunOne(cfg, s, q[k], runs(k)), q, k + 1, last, runs, cut);
        }
      }
    }
  }

  datatype Kill = AtRecovery(ended: nat, served: nat) | AtDispatch(last: nat, cut: Cut)

  /** A tick that is cut off, if it gets past the checks at its head. */
  function CutTick(cfg: Config, s: State, env: TickEnv, drain: bool, kill: Kill): State
    requires cfg.twins != []
  {
    if HeadStop(cfg, s, env).Some? then s
    else
      match kill
      case AtRecovery(ended, served) => CutRecovery(s, ended, served)
      case AtDispatch(last, cut) =>
        var p := Prepare(cfg, s, env, drain);
        CutDispatch(cfg, p, Take(ReadyTasks(cfg, p.tasks), cfg.concurrency), 0, last, env.runs, cut)
  }

  ghost predicate InTickWindow(cfg: Config, s: State, env: TickEnv, drain: bool, kill: Kill)
    requires cfg.twins != []
  {
    HeadStop(cfg, s, env).None? &&
    match kill
    case AtRecovery(ended, served) => exists i :: InRecoveryWindow(s, ended, served, i)
    case AtDispatch(last, cut) =>
      var p := Prepare(cfg, s, env, drain);
      InDispatchWindow(cfg, p, Take(ReadyTasks(cfg, p.tasks), cfg.concurrency), 0, last, env.runs, cut)
  }

  lemma {:induction false} CutTickKeepsExactly(cfg: Config, s: State, env: TickEnv, drain: bool, kill: Kill)
    requires Inv(cfg, s) && cfg.twins != []
    ensures var r := CutTick(cfg, s, env, drain, kill);
            (Inv(cfg, r) <==> !InTickWindow(cfg, s, env, drain, kill)) &&
            (InTickWindow(cfg, s, env, drain, kill) ==> exists i :: Stranded(r, i))
  {
    if HeadStop(cfg, s, env).None? {
      match kill
      case AtRecovery(ended, served) =>
        CutRecoveryKeepsExactly(cfg, s, ended, served);
        if i :| InRecoveryWindow(s, ended, served, i) { RecoveryStrandsExactly(cfg, s, ended, served, i); }
      case AtDispatch(last, cut) =>
        PrepareKeeps(cfg, s, env, drain);
        var p := Prepare(cfg, s, env, drain);
        TakeReady(cfg, p);
        CutDispatchKeepsExactly(cfg, p, Take(ReadyTasks(cfg, p.tasks), cfg.concurrency), 0, last, env.runs, cut);
    }
  }

  // ---- lives that end by a kill ----------------------------------------------------------------------

  /** A life ends by itself, is cut off while it resumes, or is cut off in the tick after its last full one. */
  datatype Ending = ByItself | InResume(ended: nat, served: nat) | InTick(env: TickEnv, kill: Kill)

  datatype Mortal = Mortal(life: Life, ending: Ending)

  function LiveOn(cfg: Config, s: State, m: Mortal): State
    requires cfg.twins != []
  {
    match m.ending
    case ByItself => Live(cfg, s, m.life).0
    case InResume(ended, served) => CutRecovery(Boot(cfg, s, m.life.downtime), ended, served)
    case InTick(env, kill) =>
      var (r, reason) := Live(cfg, s, m.life);
      if reason.Completed? then CutTick(cfg, Elapse(r, env), env, m.life.drain, kill) else r
  }

  /** The life ends by a kill between the end of a lease and the update of its task. */
  ghost predicate EndsInWindow(cfg: Config, s: State, m: Mortal)
    requires cfg.twins != []
  {
    match m.ending
    case ByItself => false
    case InResume(ended, served) => exists i :: InRecoveryWindow(Boot(cfg, s, m.life.downtime), ended, served, i)
    case InTick(env, kill) =>
      var (r, reason) := Live(cfg, s, m.life);
      reason.Completed? && InTickWindow(cfg, Elapse(r, env), env, m.life.drain, kill)
  }

  /** A life keeps everything exactly when it does not end in a window; if it does, it strands a task. */
  lemma {:induction false} LifeKeepsExactly(cfg: Config, s: State, m: Mortal)
    requires Inv(cfg, s) && cfg.twins != []
    ensures Inv(cfg, LiveOn(cfg, s, m)) <==> !EndsInWindow(cfg, s, m)
    ensures EndsInWindow(cfg, s, m) ==> exists i :: Stranded(LiveOn(cfg, s, m), i)
  {
    LiveKeeps(cfg, s, m.life);
    match m.ending
    case ByItself =>
    case InResume(ended, served) =>
      var b := Boot(cfg, s, m.life.downtime);
      PlanningIsInvisible(cfg, s, b);
      CutRecoveryKeepsExactly(cfg, b, ended, served);
      if i :| InRecoveryWindow(b, ended, served, i) { RecoveryStrandsExactly(cfg, b, ended, served, i); }
    case InTick(env, kill) =>
      var r := Live(cfg, s, m.life).0;
      ElapseKeeps(cfg, r, env);
      CutTickKeepsExactly(cfg, Elapse(r, env), env, m.life.drain, kill);
  }

  function LiveOnAll(cfg: Config, s: State, lives: seq<Mortal>): State
    requires cfg.twins != []
    decreases |lives|
  {
    if lives == [] then s else LiveOnAll(cfg, LiveOn(cfg, s, lives[0]), lives[1..])
  }

  /** None of these lives ends in a window. */
  ghost predicate NoneEndsInWindow(cfg: Config, s: State, lives: seq<Mortal>)
    requires cfg.twins != []
    decreases |lives|
  {
    lives != [] ==> !EndsInWindow(cfg, s, lives[0]) && NoneEndsInWindow(cfg, LiveOn(cfg, s, lives[0]), lives[1..])
  }

  lemma {:induction false} MortalLivesKeep(cfg: Config, s: State, lives: seq<Mortal>)
    requires Inv(cfg, s) && cfg.twins != [] && NoneEndsInWindow(cfg, s, lives)
    ensures Inv(cfg, LiveOnAll(cfg, s, lives))
    decreases |lives|
  {
    if lives != [] {
      LifeKeepsExactly(cfg, s, lives[0]);
      MortalLivesKeep(cfg, LiveOn(cfg, s, lives[0]), lives[1..]);
    }
  }

  /** After any number of lives that end elsewhere, one more life leaves a stranded task exactly when it ends in such a
      window; otherwise every task is still accounted for and every verified candidate soundly verified. */
  lemma {:induction false} TaskIsStrandedExactly(cfg: Config, now: nat, lives: seq<Mortal>, last: Mortal)
    requires cfg.twins != [] && NoneEndsInWindow(cfg, Blank(now), lives)
    ensures var s := LiveOnAll(cfg, Blank(now), lives);
            var r := LiveOn(cfg, s, last);
            ((exists i :: Stranded(r, i)) <==> EndsInWindow(cfg, s, last)) &&
            (!EndsInWindow(cfg, s, last) ==>
               (forall i :: 0 <= i < |r.tasks| ==> Accounted(cfg, r, i)) &&
               (forall c :: 0 <= c < |r.candidates| && r.candidates[c].status.Verified? ==> SoundlyVerified(cfg, r, c)))
  {
    assert Inv(cfg, Blank(now));
    MortalLivesKeep(cfg, Blank(now), lives);
    var s := LiveOnAll(cfg, Blank(now), lives);
    var r := LiveOn(cfg, s, last);
    LifeKeepsExactly(cfg, s, last);
    if !EndsInWindow(cfg, s, last) {
      forall i | Stranded(r, i) ensures false { NobodyIsStranded(cfg, r, i); }
      forall c | 0 <= c < |r.candidates| && r.candidates[c].status.Verified? ensures SoundlyVerified(cfg, r, c) {
        assert CandidateOk(cfg, r, c);
      }
    }
  }

  // ---- a lost task stays lost --------------------------------------------------------------------------

  /** A running task is requeued by a recovery exactly when an open lease that names it has run out. */
  lemma {:induction false} RecoveryServesExactly(s: State, i: nat)
    requires i < |s.tasks| && s.tasks[i].status.Running?
    ensures RecoverLeases(s).tasks[i] == (if LeaseRanOut(s.leases, s.now, i) then Requeue(s.tasks[i]) else s.tasks[i])
    ensures RecoverLeases(s).tasks[i].status.Running? <==> !LeaseRanOut(s.leases, s.now, i)
    ensures Lost(s, i) ==> Lost(RecoverLeases(s), i)
  {
  }

  /** Besides that, only a twin that fails and is replaced has its running tasks requeued. */
  lemma {:induction false} TwinServesExactly(s: State, base: Twin, env: TwinEnv, i: nat)
    requires i < |s.tasks| && s.tasks[i].status.Running?
    ensures var cur := CurrentTwin(s.current, base);
            var served := !env.healthy && env.replacement != cur && s.tasks[i].twin == cur;
            RecoverTwin(s, base, env).tasks[i] ==
              (if served then Requeue(s.tasks[i].(twin := env.replacement)) else s.tasks[i]) &&
            (RecoverTwin(s, base, env).tasks[i].status.Running? <==> !served)
  {
  }

  /** The task stays lost, as it is. */
  predicate StillLost(s: State, r: State, i: nat) { Lost(s, i) ==> Lost(r, i) && r.tasks[i] == s.tasks[i] }

  lemma {:induction false} StartLeavesLost(cfg: Config, s: State, j: nat, delay: nat, i: nat)
    requires j < |s.tasks| && j != i
    ensures StillLost(s, Start(cfg, s, j, delay), i)
  {
  }

  lemma {:induction false} WorkSparesTasks(cfg: Config, s: State, t: Task, worker: nat, env: RunEnv)
    ensures var r := Work(cfg, s, t, worker, env); r.tasks == s.tasks && r.leases == s.leases
  {
  }

  lemma {:induction false} AfterRunLeavesLost(s: State, j: nat, l: nat, kind: Kind, outcome: Outcome, i: nat)
    requires j < |s.tasks| && j != i && l < |s.leases|
    ensures StillLost(s, AfterRun(s, j, l, kind, outcome), i)
  {
  }

  lemma {:induction false} OtherRunLeavesLost(cfg: Config, s: State, j: nat, env: RunEnv, i: nat)
    requires j < |s.tasks| && j != i
    ensures StillLost(s, RunOne(cfg, s, j, env), i)
  {
    var s1 := Start(cfg, s, j, env.delay);
    StartLeavesLost(cfg, s, j, env.delay, i);
    if !Leased(s.leases, s1.now, j) {
      var s2 := if env.handleOk then Work(cfg, s1, s.tasks[j], s.workers, env) else s1;
      WorkSparesTasks(cfg, s1, s.tasks[j], s.workers, env);
      AfterRunLeavesLost(s2, j, |s.leases|, s.tasks[j].kind, if env.handleOk then env.outcome else Fails, i);
    }
  }

  lemma {:induction false} DispatchLeavesLost(cfg: Config, s: State, q: seq<nat>, k: nat, runs: nat -> RunEnv, i: nat)
    requires InRange(q, |s.tasks|) && Lost(s, i) && i !in q
    ensures StillLost(s, Dispatch(cfg, s, q, k, runs).s, i)
    decreases |q| - k
  {
    if k < |q| {
      assert q[k] in q;
      OtherRunLeavesLost(cfg, s, q[k], runs(k), i);
      if !Dies(s, q[k], runs(k)) { DispatchLeavesLost(cfg, RunOne(cfg, s, q[k], runs(k)), q, k + 1, runs, i); }
    }
  }

  lemma {:induction false} HealthyTwinsStay(cfg: Config, s: State, env: nat -> TwinEnv, k: nat)
    requires AllHealthy(cfg, env)
    ensures RecoverTwins(cfg, s, env, k) == s
    decreases |cfg.twins| - k
  {
    if k < |cfg.twins| { HealthyTwinsStay(cfg, s, env, k + 1); }
  }

  predicate AllHealthy(cfg: Config, env: nat -> TwinEnv) { forall k :: 0 <= k < |cfg.twins| ==> env(k).healthy }

  lemma {:induction false} PrepareLeavesLost(cfg: Config, s: State, env: TickEnv, drain: bool, i: nat)
    requires cfg.twins != [] && Lost(s, i) && AllHealthy(cfg, env.twins)
    ensures StillLost(s, Prepare(cfg, s, env, drain), i)
  {
    var s1 := RecoverLeases(s);
    RecoveryServesExactly(s, i);
    HealthyTwinsStay(cfg, s1, env.twins, 0);
    var p := PlanIfNeeded(cfg, s1, env);
    SchedulingAppends(cfg, p, OpenTheses(cfg, p.theses), 0);
    SchedulingSparesLeases(cfg, p, OpenTheses(cfg, p.theses), 0);
    var s3 := if drain then s1 else ScheduleTheses(cfg, p, OpenTheses(cfg, p.theses), 0);
    VerificationsAppend(s3, s3.tasks, 0);
    VerificationsSpareLeases(s3, s3.tasks, 0);
  }

  lemma {:induction false} SchedulingSparesLeases(cfg: Config, s: State, q: seq<nat>, made: nat)
    requires cfg.twins != [] && InRange(q, |s.theses|)
    ensures ScheduleTheses(cfg, s, q, made).leases == s.leases
    decreases |q|
  {
    if q != [] && made < MAX_NEW_TASKS {
      var s1 := ScheduleThesis(cfg, s, q[0]);
      SchedulingSparesLeases(cfg, s1, q[1..], made + |s1.tasks| - |s.tasks|);
    }
  }

  lemma {:induction false} VerificationsSpareLeases(s: State, before: seq<Task>, c: nat)
    ensures ScheduleVerifications(s, before, c).leases == s.leases
    decreases |s.candidates| - c
  {
    if c < |s.candidates| {
      var d := s.candidates[c];
      if !d.status.Unverified? || HasVerifyTask(before, c) { VerificationsSpareLeases(s, before, c + 1); }
      else {
        VerificationsSpareLeases(
          s.(tasks := s.tasks + [Task(d.thesis, d.twin, d.twin, Verify(c), VERIFY_PRIORITY, s.now, Ready, 0)],
             candidates := s.candidates[c := d.(status := Verifying)]), before, c + 1);
      }
    }
  }

  lemma {:induction false} FinishLeavesLost(cfg: Config, s: State, env: TickEnv, drain: bool, i: nat)
    requires Lost(s, i)
    ensures var r := Finish(cfg, s, env, drain);
            StillLost(s, r.s, i) && (r.Go? || r.reason.DirectorDied?)
  {
    var q := Take(ReadyTasks(cfg, s.tasks), cfg.concurrency);
    assert i !in ReadyTasks(cfg, s.tasks);
    DispatchLeavesLost(cfg, s, q, 0, env.runs, i);
    var d := Dispatch(cfg, s, q, 0, env.runs);
    assert PendingTask(UpdateTheses(d.s)) by { assert d.s.tasks[i].Active(); }
  }

  predicate Certifies(reason: Stop) { reason.NoOpenWork? || reason.Drained? }

  lemma {:induction false} TickLeavesLost(cfg: Config, s: State, env: TickEnv, drain: bool, i: nat)
    requires cfg.twins != [] && Lost(s, i) && AllHealthy(cfg, env.twins)
    ensures var r := Tick(cfg, s, env, drain);
            StillLost(s, r.s, i) && (r.Halt? ==> !Certifies(r.reason))
  {
    if HeadStop(cfg, s, env).None? {
      PrepareLeavesLost(cfg, s, env, drain, i);
      FinishLeavesLost(cfg, Prepare(cfg, s, env, drain), env, drain, i);
    }
  }

  /** While no twin fails, no run requeues a lost task, and none stops for want of work. */
  lemma {:induction false} RunLeavesLost(cfg: Config, s: State, envs: seq<TickEnv>, drain: bool, i: nat)
    requires cfg.twins != [] && Lost(s, i) && forall k :: 0 <= k < |envs| ==> AllHealthy(cfg, envs[k].twins)
    ensures StillLost(s, Run(cfg, s, envs, drain).0, i) && !Certifies(Run(cfg, s, envs, drain).1)
    decreases |envs|
  {
    if envs != [] {
      var s1 := Elapse(s, envs[0]);
      assert StillLost(s, s1, i);
      TickLeavesLost(cfg, s1, envs[0], drain, i);
      var r := Tick(cfg, s1, envs[0], drain);
      if r.Go? { RunLeavesLost(cfg, r.s, envs[1..], drain, i); }
    }
  }

  /** Restarting the Director does not help, with or without `resume`. */
  lemma {:induction false} LivesLeaveLost(cfg: Config, s: State, lives: seq<Life>, i: nat)
    requires cfg.twins != [] && Lost(s, i)
    requires forall n, k :: 0 <= n < |lives| && 0 <= k < |lives[n].ticks| ==> AllHealthy(cfg, lives[n].ticks[k].twins)
    ensures StillLost(s, LiveAll(cfg, s, lives), i)
    decreases |lives|
  {
    if lives != [] {
      var b := Boot(cfg, s, lives[0].downtime);
      assert StillLost(s, b, i);
      RecoveryServesExactly(b, i);
      RunLeavesLost(cfg, Booted(cfg, s, lives[0]), lives[0].ticks, lives[0].drain, i);
      LivesLeaveLost(cfg, Live(cfg, s, lives[0]).0, lives[1..], i);
    }
  }
}
