/**
 The Director process: the loops of the engine, the scheduler and the verifier, updating the tables
 in place.  Every method is proved to have exactly the effect the specification in module Campaign
 gives it, so everything proved there of ticks, runs and lives holds of this class.
 */
module Engine {
  import opened Options
  import opened Campaign
  import CampaignSafety

  /** One turn of the scheduling loop. */
  lemma {:induction false} OneThesisScheduled(cfg: Config, s: State, q: seq<nat>, k: nat, made: nat)
    requires cfg.twins != [] && InRange(q, |s.theses|) && k < |q| && made < MAX_NEW_TASKS
    ensures var s1 := ScheduleThesis(cfg, s, q[k]);
            ScheduleTheses(cfg, s, q[k..], made) ==
            ScheduleTheses(cfg, s1, q[k + 1..], made + |s1.tasks| - |s.tasks|)
  {
    assert q[k..][0] == q[k] && q[k..][1..] == q[k + 1..];
  }

  class Director {
    const cfg: Config
    var now: nat
    var started: Option<nat>
    var tasks: seq<Task>
    var leases: seq<Lease>
    var workers: nat
    var theses: seq<Thesis>
    var candidates: seq<Candidate>
    var verifications: seq<Verification>
    var settled: set<nat>
    var cursor: nat
    var cycles: nat
    var toolCalls: nat
    var modelCalls: nat
    var current: map<Twin, Twin>

    /** The whole campaign state as one value. */
    function View(): State
      reads this
    {
      State(now, started, tasks, leases, workers, theses, candidates, verifications, settled, cursor,
            cycles, toolCalls, modelCalls, current)
    }

    /** A new process over the ledgers `s` left behind: the twin map is rebuilt from the manifest. */
    constructor (cfg: Config, s: State, downtime: nat)
      ensures this.cfg == cfg && View() == Boot(cfg, s, downtime)
      ensures forall t :: CurrentTwin(current, t) == t
      ensures tasks == s.tasks && leases == s.leases && theses == s.theses && candidates == s.candidates
      ensures verifications == s.verifications && settled == s.settled && cursor == s.cursor && toolCalls == s.toolCalls
      ensures started.Some? && (s.started.Some? ==> started == s.started)
    {
      this.cfg := cfg;
      now := s.now + downtime;
      started := if s.started.Some? then s.started else Some(s.now + downtime);
      tasks, leases, workers, theses := s.tasks, s.leases, s.workers, s.theses;
      candidates, verifications, settled := s.candidates, s.verifications, s.settled;
      cursor, cycles, toolCalls, modelCalls := s.cursor, s.cycles, s.toolCalls, s.modelCalls;
      current := map t | t in cfg.twins :: t;
    }

    // ---- leases ------------------------------------------------------------------------

    /** Ends every open lease that ran out and returns them in ledger order. */
    method ReapExpired() returns (freed: seq<nat>)
      modifies this
      ensures View() == old(View()).(leases := Reaped(old(leases), now))
      ensures InRange(freed, |old(leases)|)
      ensures forall l: nat :: l in freed <==> l < |old(leases)| && Due(old(leases)[l], now)
    {
      freed := [];
      var before := leases;
      for l := 0 to |before|
        invariant |leases| == |before| && View() == old(View()).(leases := leases)
        invariant forall j :: 0 <= j < |before| ==>
                    leases[j] == if j < l && Due(before[j], now) then before[j].(expired := true) else before[j]
        invariant InRange(freed, l)
        invariant forall j: nat :: j in freed <==> j < l && Due(before[j], now)
      {
        if Due(before[l], now) {
          leases := leases[l := before[l].(expired := true)];
          freed := freed + [l];
        }
      }
      assert leases == Reaped(before, now);
    }

    method RecoverExpired()
      modifies this
      ensures View() == RecoverLeases(old(View()))
    {
      var before, held := tasks, leases;
      var freed := ReapExpired();
      for k := 0 to |freed|
        invariant |tasks| == |before| && View() == old(View()).(leases := Reaped(held, now), tasks := tasks)
        invariant forall i :: 0 <= i < |before| ==>
                    tasks[i] == if before[i].status.Running? && (exists j :: 0 <= j < k && held[freed[j]].task == i)
                                then Requeue(before[i]) else before[i]
      {
        assert freed[k] in freed;
        var i := held[freed[k]].task;
        if i < |tasks| && tasks[i].status.Running? { tasks := tasks[i := Requeue(tasks[i])]; }
      }
      forall i | 0 <= i < |before|
        ensures LeaseRanOut(held, now, i) <==> exists j :: 0 <= j < |freed| && held[freed[j]].task == i
      {
        if l :| 0 <= l < |held| && Due(held[l], now) && held[l].task == i {
          assert l in freed;
          var j :| 0 <= j < |freed| && freed[j] == l;
        }
        if j :| 0 <= j < |freed| && held[freed[j]].task == i { assert freed[j] in freed; }
      }
      assert tasks == RecoverLeases(old(View())).tasks;
    }

    // ---- twins -------------------------------------------------------------------------

    method RecoverFailedTwins(env: nat -> TwinEnv)
      modifies this
      ensures View() == RecoverTwins(cfg, old(View()), env, 0)
    {
      for k := 0 to |cfg.twins|
        invariant RecoverTwins(cfg, old(View()), env, 0) == RecoverTwins(cfg, View(), env, k)
      {
        ghost var s := View();
        var base := cfg.twins[k];
        var cur := CurrentTwin(current, base);
        if !env(k).healthy && env(k).replacement != cur {
          current := current[base := env(k).replacement];
          var before := tasks;
          for i := 0 to |before|
            invariant |tasks| == |before| && View() == s.(current := current, tasks := tasks)
            invariant current == s.current[base := env(k).replacement]
            invariant forall j :: 0 <= j < |before| ==>
                        tasks[j] == if j < i then Rehomed(before[j], cur, env(k).replacement) else before[j]
          {
            var t := tasks[i];
            if t.twin == cur && t.Active() {
              tasks := tasks[i := t.(twin := env(k).replacement)];
              if !t.status.Ready? { tasks := tasks[i := Requeue(tasks[i])]; }
            }
          }
          assert tasks == RecoverTwin(s, base, env(k)).tasks;
        }
        assert View() == RecoverTwin(s, base, env(k));
      }
    }

    // ---- planning and scheduling ---------------------------------------------------------

    method Plan(env: TickEnv)
      modifies this
      ensures View() == PlanIfNeeded(cfg, old(View()), env)
    {
      if WantsPlan(cfg, View()) {
        for k := 0 to |env.proposals|
          invariant View() == old(View()).(theses := theses)
          invariant ProposeAll(old(theses), env.proposals) == ProposeAll(theses, env.proposals[k..])
        {
          theses := Propose(theses, env.proposals[k]);
          assert env.proposals[k..][1..] == env.proposals[k + 1..];
        }
        cycles := cycles + 1;
        modelCalls := modelCalls + env.planCalls;
      }
    }

    /** The durable round robin: advances the cursor past `avoid`. */
    method PickTwin(avoid: Option<Twin>) returns (t: Twin)
      requires cfg.twins != []
      modifies this
      ensures (t, cursor) == NextTwin(cfg.twins, old(cursor), avoid, |cfg.twins|)
      ensures View() == old(View()).(cursor := cursor)
    {
      var cur: nat := cursor;
      for k := 0 to |cfg.twins|
        invariant NextTwin(cfg.twins, cursor, avoid, |cfg.twins|) == NextTwin(cfg.twins, cur, avoid, |cfg.twins| - k)
        invariant View() == old(View())
      {
        t := cfg.twins[cur % |cfg.twins|];
        cur := cur + 1;
        if Some(t) != avoid {
          cursor := cur;
          return;
        }
      }
      cursor := cur;
      t := cfg.twins[0];
    }

    method ActiveTaskExists(thesis: nat, twin: Twin) returns (found: bool)
      ensures found == ActiveProbe(tasks, thesis, twin)
    {
      for i := 0 to |tasks|
        invariant forall j :: 0 <= j < i ==>
                    !(tasks[j].kind.Probe? && tasks[j].thesis == thesis && tasks[j].twin == twin && tasks[j].Active())
      {
        if tasks[i].thesis == thesis && tasks[i].twin == twin && tasks[i].kind.Probe? && tasks[i].Active() {
          return true;
        }
      }
      return false;
    }

    /** Creates the probe unless one is active there; `made` says whether it did. */
    method CreateProbe(h: nat, twin: Twin) returns (made: nat)
      requires h < |theses|
      modifies this
      ensures View() == old(View()).(tasks := tasks) && made == |tasks| - |old(tasks)|
      ensures tasks == MakeProbe(old(tasks), h, theses[h].priority, twin, now)
    {
      var active := ActiveTaskExists(h, twin);
      if active { return 0; }
      tasks := tasks + [Task(h, twin, twin, Probe, theses[h].priority, now, Ready, 0)];
      made := 1;
    }

    /** One thesis: a probe on the next twin, and a replica on another if its priority asks for one. */
    method ScheduleOne(h: nat) returns (made: nat)
      requires cfg.twins != [] && h < |theses|
      modifies this
      ensures View() == ScheduleThesis(cfg, old(View()), h) && made == |tasks| - |old(tasks)|
    {
      var twin := PickTwin(None);
      made := CreateProbe(h, twin);
      if theses[h].priority >= REPLICATE_PRIORITY_MIN && |cfg.twins| > 1 {
        var twin2 := PickTwin(Some(twin));
        var more := CreateProbe(h, twin2);
        made := made + more;
      }
      theses := theses[h := theses[h].(status := Scheduled)];
    }

    method ScheduleOpenTheses()
      requires cfg.twins != []
      modifies this
      ensures View() == ScheduleTheses(cfg, old(View()), OpenTheses(cfg, old(theses)), 0)
    {
      var q := OpenTheses(cfg, theses);
      var made: nat, k: nat := 0, 0;
      while k < |q| && made < MAX_NEW_TASKS
        invariant 0 <= k <= |q| && InRange(q, |theses|)
        invariant ScheduleTheses(cfg, old(View()), q, 0) == ScheduleTheses(cfg, View(), q[k..], made)
        decreases |q| - k
      {
        OneThesisScheduled(cfg, View(), q, k, made);
        var more := ScheduleOne(q[k]);
        made, k := made + more, k + 1;
      }
    }

    method ScheduleVerificationTasks()
      modifies this
      ensures View() == ScheduleVerifications(old(View()), old(tasks), 0)
    {
      var existing := tasks;
      for c := 0 to |candidates|
        invariant |candidates| == |old(candidates)|
        invariant ScheduleVerifications(old(View()), existing, 0) == ScheduleVerifications(View(), existing, c)
      {
        var d := candidates[c];
        if d.status.Unverified? && !HasVerifyTask(existing, c) {
          tasks := tasks + [Task(d.thesis, d.twin, d.twin, Verify(c), VERIFY_PRIORITY, now, Ready, 0)];
          candidates := candidates[c := d.(status := Verifying)];
        }
      }
    }

    // ---- dispatch ---------------------------------------------------------------------------

    /** Takes the lease unless another owner's is live; workers are never reused, so any live lease conflicts. */
    method Acquire(i: nat, owner: nat) returns (l: Option<nat>)
      modifies this
      ensures l.None? <==> Leased(old(leases), now, i)
      ensures l.None? ==> View() == old(View())
      ensures l.Some? ==>
                (l.value == |old(leases)| &&
                 View() == old(View()).(leases := old(leases) + [Lease(i, owner, now + cfg.ttl, false, false)]))
    {
      for k := 0 to |leases|
        invariant forall j :: 0 <= j < k ==> !(leases[j].Open() && leases[j].expires > now && leases[j].task == i)
        invariant View() == old(View())
      {
        if leases[k].task == i && leases[k].Open() && leases[k].expires > now { return None; }
      }
      l := Some(|leases|);
      leases := leases + [Lease(i, owner, now + cfg.ttl, false, false)];
    }

    /** Appends one verification record, by somebody other than the claimant, and, unless it dies before that, gives its
        decision to the candidate. */
    method DecideCandidate(c: nat, worker: nat, env: RunEnv, dies: bool)
      modifies this
      ensures View() == if dies then RecordVerdict(cfg, old(View()), c, worker, env)
                        else VerifyCandidate(cfg, old(View()), c, worker, env)
      ensures tasks == old(tasks) && leases == old(leases) && theses == old(theses) && |candidates| == |old(candidates)|
      ensures forall d :: 0 <= d < |candidates| && (d != c || dies) ==> candidates[d] == old(candidates)[d]
      ensures c >= |old(candidates)| ==> verifications == old(verifications)
      ensures c < |candidates| ==>
                |verifications| == |old(verifications)| + 1 && old(verifications) <= verifications &&
                var rec := verifications[|old(verifications)|];
                rec.candidate == c && rec.claimant == candidates[c].worker && rec.verifier != W(rec.claimant) &&
                (rec.verifierModel.Some? ==> rec.verifierModel.value != rec.producer) &&
                (rec.status.Verified? <==> env.reproduced == Some(true) && CampaignSafety.Positive(env.verdict)) &&
                (!dies ==> candidates[c].Decided() && candidates[c].status == rec.status &&
                           candidates[c].verification == Some(|old(verifications)|))
    {
      if c >= |candidates| { return; }
      var d := candidates[c];
      CampaignSafety.VerifierIsIndependent(cfg, d.model);
      CampaignSafety.DecideVerified(env.reproduced, env.verdict);
      var verifier := if worker == d.worker then V(c) else W(worker);
      var model := VerifierFor(cfg, d.model);
      var status := Decide(env.reproduced, env.verdict);
      var id := |verifications|;
      verifications := verifications +
        [Verification(c, d.worker, verifier, d.model, model, env.reproduced, env.verdict, status)];
      if dies { return; }
      settled := settled + {id};
      candidates := candidates[c := d.(status := status, verification := Some(id))];
    }

    /** The executor: a probe records tool calls and claims, a verify task writes its decision. */
    method Execute(t: Task, worker: nat, env: RunEnv)
      modifies this
      ensures View() == Work(cfg, old(View()), t, worker, env)
    {
      now, modelCalls := now + env.took, modelCalls + env.modelCalls;
      match t.kind {
        case Probe =>
          toolCalls := toolCalls + env.toolCalls;
          for k := 0 to |env.claims|
            invariant candidates == old(candidates) +
                        seq(k, j requires 0 <= j < k =>
                          Candidate(t.thesis, worker, env.claims[j], t.twin, Unverified, None))
            invariant View() == Work(cfg, old(View()), t, worker, env).(candidates := candidates)
          {
            candidates := candidates + [Candidate(t.thesis, worker, env.claims[k], t.twin, Unverified, None)];
          }
        case Verify(c) =>
          if !Written(env).Nothing? { DecideCandidate(c, worker, env, Written(env).RecordOnly?); }
      }
    }

    /** The lease is open no more, whoever asks; every other lease is as it was. */
    method ReleaseLease(l: nat)
      requires l < |leases|
      modifies this
      ensures View() == Release(old(View()), l) && View() == old(View()).(leases := leases)
      ensures |leases| == |old(leases)| && !leases[l].Open() && leases[l].task == old(leases)[l].task
      ensures forall k :: 0 <= k < |leases| && k != l ==> leases[k] == old(leases)[k]
      ensures forall i, when: nat :: Leased(leases, when, i) ==> Leased(old(leases), when, i)
    {
      leases := leases[l := leases[l].(released := true)];
      forall i, when: nat | Leased(leases, when, i) ensures Leased(old(leases), when, i) {
        var k :| 0 <= k < |leases| && leases[k].Open() && leases[k].expires > when && leases[k].task == i;
        assert old(leases)[k] == leases[k];
      }
    }

    /** One dispatch; `died` when the Director is killed inside the executor. */
    method RunTask(i: nat, env: RunEnv) returns (died: bool)
      requires i < |tasks|
      modifies this
      ensures View() == RunOne(cfg, old(View()), i, env) && died == Dies(old(View()), i, env)
    {
      var task := tasks[i];
      var worker := workers;
      workers := workers + 1;
      now := now + env.delay;
      var lease := Acquire(i, worker);
      if lease.None? { return false; }
      var l := lease.value;
      tasks := tasks[i := tasks[i].(status := Running(l))];
      ghost var s1 := View();
      assert s1 == Start(cfg, old(View()), i, env.delay);
      if !env.handleOk {
        ReleaseLease(l);
        tasks := tasks[i := Requeue(tasks[i])];
        return false;
      }
      Execute(task, worker, env);
      match env.outcome {
        case Abandoned => return false;
        case DirectorDies => return true;
        case Fails =>
          ReleaseLease(l);
          tasks := tasks[i := Requeue(tasks[i])];
        case Returns(reason) =>
          ReleaseLease(l);
          if task.kind.Probe? && reason.ModelUnusable? { tasks := tasks[i := Requeue(tasks[i])]; }
          else if task.kind.Probe? && reason.PausedWorker? { tasks := tasks[i := tasks[i].(status := Ready)]; }
          else { tasks := tasks[i := tasks[i].(status := Done)]; }
      }
      return false;
    }

    method DispatchReady(runs: nat -> RunEnv) returns (n: nat, died: bool)
      modifies this
      ensures var q := Take(ReadyTasks(cfg, old(tasks)), cfg.concurrency);
              n == |q| && Dispatched(View(), died) == Dispatch(cfg, old(View()), q, 0, runs)
    {
      var q := Take(ReadyTasks(cfg, tasks), cfg.concurrency);
      n := |q|;
      for k := 0 to |q|
        invariant InRange(q, |tasks|)
        invariant Dispatch(cfg, old(View()), q, 0, runs) == Dispatch(cfg, View(), q, k, runs)
      {
        var dead := RunTask(q[k], runs(k));
        if dead { return n, true; }
      }
      died := false;
    }

    // ---- maintenance and the loop -----------------------------------------------------------------

    /** A thesis whose derived tasks all reached a terminal state is exhausted. */
    method RetireTheses()
      modifies this
      ensures View() == UpdateTheses(old(View()))
    {
      var before := theses;
      for h := 0 to |before|
        invariant |theses| == |before| && View() == old(View()).(theses := theses)
        invariant forall g :: 0 <= g < |before| ==>
                    theses[g] == if g < h && !before[g].status.Exhausted? && ThesisSpent(tasks, g)
                                 then before[g].(status := Exhausted) else before[g]
      {
        if !before[h].status.Exhausted? {
          var some, all := false, true;
          for i := 0 to |tasks|
            invariant View() == old(View()).(theses := theses)
            invariant some == exists j :: 0 <= j < i && tasks[j].thesis == h
            invariant all == forall j :: 0 <= j < i && tasks[j].thesis == h ==> !tasks[j].Active()
          {
            if tasks[i].thesis == h {
              some := true;
              if tasks[i].Active() { all := false; }
            }
          }
          if some && all { theses := theses[h := before[h].(status := Exhausted)]; }
        }
      }
      assert theses == UpdateTheses(old(View())).theses;
    }

    /** Recovery, planning and scheduling: everything before dispatch. */
    method PrepareTick(env: TickEnv, drain: bool)
      requires cfg.twins != []
      modifies this
      ensures View() == Prepare(cfg, old(View()), env, drain)
    {
      RecoverExpired();
      RecoverFailedTwins(env.twins);
      if !drain {
        Plan(env);
        ScheduleOpenTheses();
      }
      ScheduleVerificationTasks();
    }

    /** Dispatch, maintenance and the quiescence check; `reason` is set when the run stops here. */
    method FinishTick(env: TickEnv, drain: bool) returns (reason: Option<Stop>)
      modifies this
      ensures Finish(cfg, old(View()), env, drain) == if reason.None? then Go(View()) else Halt(View(), reason.value)
    {
      var n, died := DispatchReady(env.runs);
      if died { return Some(DirectorDied); }
      RetireTheses();
      var open := HasOpenWork(cfg, View(), drain);
      if n == 0 && !open { return Some(if drain then Drained else NoOpenWork); }
      return None;
    }

    /** A turn of the loop that is allowed past its checks. */
    method Proceed(env: TickEnv, drain: bool) returns (reason: Option<Stop>)
      requires cfg.twins != []
      modifies this
      ensures Finish(cfg, Prepare(cfg, old(View()), env, drain), env, drain) ==
                if reason.None? then Go(View()) else Halt(View(), reason.value)
    {
      PrepareTick(env, drain);
      reason := FinishTick(env, drain);
    }

    /** One turn of the loop. */
    method OneTick(env: TickEnv, drain: bool) returns (reason: Option<Stop>)
      requires cfg.twins != []
      modifies this
      ensures Tick(cfg, old(View()), env, drain) == if reason.None? then Go(View()) else Halt(View(), reason.value)
    {
      reason := if env.stop then Some(KillSwitch)
                else if env.pause then Some(Paused)
                else BudgetStop(cfg, View(), env.costOut);
      if reason.None? { reason := Proceed(env, drain); }
    }

    /** The clock and the ledgers are read afresh at every tick. */
    method Wait(env: TickEnv)
      modifies this
      ensures View() == Elapse(old(View()), env)
    {
      now, toolCalls, modelCalls := now + env.elapsed, toolCalls + env.late, modelCalls + env.lateModels;
    }

    /** `run(max_ticks, drain)` over the environment `envs`; one entry per allowed tick. */
    method Run(envs: seq<TickEnv>, drain: bool) returns (reason: Stop)
      requires cfg.twins != []
      modifies this
      ensures (View(), reason) == Campaign.Run(cfg, old(View()), envs, drain)
    {
      for tick := 0 to |envs|
        invariant Campaign.Run(cfg, old(View()), envs, drain) == Campaign.Run(cfg, View(), envs[tick..], drain)
      {
        assert envs[tick..][0] == envs[tick] && envs[tick..][1..] == envs[tick + 1..];
        Wait(envs[tick]);
        var stop := OneTick(envs[tick], drain);
        if stop.Some? { return stop.value; }
      }
      reason := Completed;
    }

    /** `resume`: leases that ran out while nobody was watching are recovered at once. */
    method Resume()
      modifies this
      ensures View() == RecoverLeases(old(View()))
    {
      RecoverExpired();
    }
  }
}
