/**
 What every reachable campaign state keeps: no task is lost, verification is sound,
 each candidate has at most one verification task, finished tasks stay finished.
 */
module CampaignSafety {
  import opened Options
  import opened Campaign

  // ---- the invariant ---------------------------------------------------------------

  /** Task `i` is accounted for: ready, done, blocked after exactly three attempts,
      or running under its recorded lease, which is still open and expires within the TTL. */
  predicate Accounted(cfg: Config, s: State, i: nat)
    requires i < |s.tasks|
  {
    var t := s.tasks[i];
    match t.status
    case Ready => t.attempts < MAX_TASK_ATTEMPTS
    case Done => t.attempts < MAX_TASK_ATTEMPTS
    case Blocked => t.attempts == MAX_TASK_ATTEMPTS
    case Running(l) => t.attempts < MAX_TASK_ATTEMPTS && l < |s.leases| && s.leases[l].task == i &&
                       s.leases[l].Open() && s.leases[l].expires <= s.now + cfg.ttl
  }

  /** A verify task belongs to a candidate that left "unverified"; once done, it was decided. */
  predicate VerifyTaskOk(s: State, i: nat)
    requires i < |s.tasks|
  {
    s.tasks[i].kind.Verify? ==>
      var c := s.tasks[i].kind.candidate;
      c < |s.candidates| && !s.candidates[c].status.Unverified? &&
      (s.tasks[i].status.Done? ==> s.candidates[c].Decided())
  }

  predicate LeaseOk(cfg: Config, s: State, l: nat)
    requires l < |s.leases|
  {
    s.leases[l].task < |s.tasks| && s.leases[l].owner < s.workers && s.leases[l].expires <= s.now + cfg.ttl
  }

  predicate Positive(v: Verdict) { v.Confirmed? || v.Violation? || v.Supported? }

  /** The pool holds a model of another family than `producer`. */
  predicate PoolDecorrelates(cfg: Config, producer: Model) {
    exists k :: 0 <= k < |cfg.pool| && cfg.family(cfg.pool[k]) != cfg.family(producer)
  }

  /** A verified candidate points to its own successful, independent verification. */
  predicate SoundlyVerified(cfg: Config, s: State, c: nat)
    requires c < |s.candidates|
  {
    var d := s.candidates[c];
    d.verification.Some? && d.verification.value < |s.verifications| &&
    var v := s.verifications[d.verification.value];
    v.candidate == c && v.status.Verified? && v.reproduced == Some(true) && Positive(v.verdict) &&
    v.claimant == d.worker && v.verifier != W(d.worker) && v.producer == d.model &&
    (PoolDecorrelates(cfg, d.model) ==>
       v.verifierModel.Some? && v.verifierModel.value in cfg.pool &&
       cfg.family(v.verifierModel.value) != cfg.family(d.model))
  }

  predicate CandidateOk(cfg: Config, s: State, c: nat)
    requires c < |s.candidates|
  {
    var d := s.candidates[c];
    d.worker < s.workers &&
    (d.status.Verifying? ==> HasVerifyTask(s.tasks, c)) &&
    (d.Decided() ==> HasVerifyTask(s.tasks, c)) &&
    (d.status.Verified? ==> SoundlyVerified(cfg, s, c))
  }

  predicate OneVerifyTaskEach(tasks: seq<Task>) {
    forall i, j :: 0 <= i < j < |tasks| && tasks[i].kind.Verify? ==> tasks[i].kind != tasks[j].kind
  }

  predicate Inv(cfg: Config, s: State) {
    && (forall i :: 0 <= i < |s.tasks| ==> Accounted(cfg, s, i))
    && (forall i :: 0 <= i < |s.tasks| ==> VerifyTaskOk(s, i))
    && (forall l :: 0 <= l < |s.leases| ==> LeaseOk(cfg, s, l))
    && (forall c :: 0 <= c < |s.candidates| ==> CandidateOk(cfg, s, c))
    && OneVerifyTaskEach(s.tasks)
  }

  // ---- verifier choice -----------------------------------------------------------------

  lemma {:induction false} DifferentFamilyFinds(pool: seq<Model>, family: Model -> string, producer: Model)
    ensures var m := DifferentFamily(pool, family, producer);
            (m.Some? <==> exists k :: 0 <= k < |pool| && family(pool[k]) != family(producer)) &&
            (m.Some? ==> m.value in pool && family(m.value) != family(producer))
    decreases |pool|
  {
    if pool != [] {
      DifferentFamilyFinds(pool[1..], family, producer);
      assert pool == [pool[0]] + pool[1..];
      if k :| 0 <= k < |pool| && family(pool[k]) != family(producer) && k > 0 {
        assert pool[1..][k - 1] == pool[k];
      }
    }
  }

  lemma {:induction false} DifferentModelFinds(pool: seq<Model>, producer: Model)
    ensures var m := DifferentModel(pool, producer);
            (m.Some? <==> exists k :: 0 <= k < |pool| && pool[k] != producer) &&
            (m.Some? ==> m.value in pool && m.value != producer)
    decreases |pool|
  {
    if pool != [] {
      DifferentModelFinds(pool[1..], producer);
      assert pool == [pool[0]] + pool[1..];
      if k :| 0 <= k < |pool| && pool[k] != producer && k > 0 {
        assert pool[1..][k - 1] == pool[k];
      }
    }
  }

  /** The verifier is never the producer; it is of another family exactly when the pool has one,
      and there is none exactly when the pool holds no model but the producer. */
  lemma {:induction false} VerifierIsIndependent(cfg: Config, producer: Model)
    ensures var m := VerifierFor(cfg, producer);
            (m.None? <==> forall k :: 0 <= k < |cfg.pool| ==> cfg.pool[k] == producer) &&
            (m.Some? ==> m.value in cfg.pool && m.value != producer) &&
            (PoolDecorrelates(cfg, producer) <==>
               m.Some? && cfg.family(m.value) != cfg.family(producer))
  {
    DifferentFamilyFinds(cfg.pool, cfg.family, producer);
    DifferentModelFinds(cfg.pool, producer);
  }

  /** Only a reproduced effect with a positive verdict is ever promoted. */
  lemma {:induction false} DecideVerified(reproduced: Option<bool>, verdict: Verdict)
    ensures Decide(reproduced, verdict).Verified? <==> reproduced == Some(true) && Positive(verdict)
    ensures Decide(reproduced, verdict).Invalid? <==>
              verdict.KnownGap? || verdict.Boundary? || verdict.Calibration? || verdict.InvalidVerdict?
    ensures Decide(reproduced, verdict).Verified? || Decide(reproduced, verdict).Rejected? ||
            Decide(reproduced, verdict).Invalid?
  {
  }

  // ---- each phase keeps the invariant --------------------------------------------------------

  lemma {:induction false} RecoverLeasesKeeps(cfg: Config, s: State)
    requires Inv(cfg, s)
    ensures Inv(cfg, RecoverLeases(s))
  {
    var r := RecoverLeases(s);
    forall i | 0 <= i < |r.tasks| ensures Accounted(cfg, r, i) && VerifyTaskOk(r, i) {
      assert Accounted(cfg, s, i) && VerifyTaskOk(s, i);
    }
    forall l | 0 <= l < |r.leases| ensures LeaseOk(cfg, r, l) { assert LeaseOk(cfg, s, l); }
    VerifyTasksKept(cfg, s, r);
  }

  /** Tasks keep their kinds and candidates are untouched, so the candidate side survives. */
  lemma {:induction false} VerifyTasksKept(cfg: Config, s: State, r: State)
    requires forall c :: 0 <= c < |s.candidates| ==> CandidateOk(cfg, s, c)
    requires OneVerifyTaskEach(s.tasks)
    requires |r.tasks| == |s.tasks| && forall i :: 0 <= i < |s.tasks| ==> r.tasks[i].kind == s.tasks[i].kind
    requires r.candidates == s.candidates && r.verifications == s.verifications && r.workers >= s.workers
    ensures forall c :: 0 <= c < |r.candidates| ==> CandidateOk(cfg, r, c)
    ensures OneVerifyTaskEach(r.tasks)
  {
    forall c | 0 <= c < |r.candidates| ensures CandidateOk(cfg, r, c) {
      assert CandidateOk(cfg, s, c);
      if i :| 0 <= i < |s.tasks| && s.tasks[i].kind == Verify(c) {
        assert r.tasks[i].kind == Verify(c);
      }
      if s.candidates[c].status.Verified? { assert SoundlyVerified(cfg, s, c); assert SoundlyVerified(cfg, r, c); }
    }
  }

  lemma {:induction false} RecoverTwinKeeps(cfg: Config, s: State, base: Twin, env: TwinEnv)
    requires Inv(cfg, s)
    ensures Inv(cfg, RecoverTwin(s, base, env))
  {
    var r := RecoverTwin(s, base, env);
    forall i | 0 <= i < |r.tasks| ensures Accounted(cfg, r, i) && VerifyTaskOk(r, i) {
      assert Accounted(cfg, s, i) && VerifyTaskOk(s, i);
    }
    forall l | 0 <= l < |r.leases| ensures LeaseOk(cfg, r, l) { assert LeaseOk(cfg, s, l); }
    VerifyTasksKept(cfg, s, r);
  }

  lemma {:induction false} RecoverTwinsKeeps(cfg: Config, s: State, env: nat -> TwinEnv, k: nat)
    requires Inv(cfg, s)
    ensures Inv(cfg, RecoverTwins(cfg, s, env, k))
    decreases |cfg.twins| - k
  {
    if k < |cfg.twins| {
      RecoverTwinKeeps(cfg, s, cfg.twins[k], env(k));
      RecoverTwinsKeeps(cfg, RecoverTwin(s, cfg.twins[k], env(k)), env, k + 1);
    }
  }

  /** The invariant reads neither theses, cursor, cycles, model calls nor the twin map. */
  lemma {:induction false} PlanningIsInvisible(cfg: Config, s: State, r: State)
    requires Inv(cfg, s)
    requires r.tasks == s.tasks && r.leases == s.leases && r.candidates == s.candidates
    requires r.verifications == s.verifications && r.workers == s.workers && r.now >= s.now
    ensures Inv(cfg, r)
  {
    forall i | 0 <= i < |r.tasks| ensures Accounted(cfg, r, i) && VerifyTaskOk(r, i) {
      assert Accounted(cfg, s, i) && VerifyTaskOk(s, i);
    }
    forall l | 0 <= l < |r.leases| ensures LeaseOk(cfg, r, l) { assert LeaseOk(cfg, s, l); }
    VerifyTasksKept(cfg, s, r);
  }

  /** Appending fresh ready probes. */
  lemma {:induction false} ProbesKeep(cfg: Config, s: State, r: State)
    requires Inv(cfg, s)
    requires r.leases == s.leases && r.candidates == s.candidates && r.verifications == s.verifications
    requires r.workers == s.workers && r.now == s.now && s.tasks <= r.tasks
    requires forall i :: |s.tasks| <= i < |r.tasks| ==> FreshProbe(r.tasks[i])
    ensures Inv(cfg, r)
  {
    forall i | 0 <= i < |r.tasks| ensures Accounted(cfg, r, i) && VerifyTaskOk(r, i) {
      if i < |s.tasks| { assert Accounted(cfg, s, i) && VerifyTaskOk(s, i); }
    }
    forall l | 0 <= l < |r.leases| ensures LeaseOk(cfg, r, l) { assert LeaseOk(cfg, s, l); }
    forall c | 0 <= c < |r.candidates| ensures CandidateOk(cfg, r, c) {
      assert CandidateOk(cfg, s, c);
      if i :| 0 <= i < |s.tasks| && s.tasks[i].kind == Verify(c) { assert r.tasks[i].kind == Verify(c); }
      if s.candidates[c].status.Verified? { assert SoundlyVerified(cfg, s, c); assert SoundlyVerified(cfg, r, c); }
    }
  }

  predicate FreshProbe(t: Task) { t.kind.Probe? && t.status.Ready? && t.attempts == 0 && t.twin == t.home }

  lemma {:induction false} ProbeThesisFresh(cfg: Config, s: State, h: nat)
    requires cfg.twins != [] && h < |s.theses|
    ensures var r := ProbeThesis(cfg, s, h).0;
            s.tasks <= r && forall i :: |s.tasks| <= i < |r| ==> FreshProbe(r[i])
  {
  }

  lemma {:induction false} ScheduleThesisKeeps(cfg: Config, s: State, h: nat)
    requires Inv(cfg, s) && cfg.twins != [] && h < |s.theses|
    ensures Inv(cfg, ScheduleThesis(cfg, s, h))
  {
    ProbeThesisFresh(cfg, s, h);
    ProbesKeep(cfg, s, ScheduleThesis(cfg, s, h));
  }

  lemma {:induction false} ScheduleThesesKeeps(cfg: Config, s: State, q: seq<nat>, made: nat)
    requires Inv(cfg, s) && cfg.twins != [] && InRange(q, |s.theses|)
    ensures Inv(cfg, ScheduleTheses(cfg, s, q, made))
    decreases |q|
  {
    if q != [] && made < MAX_NEW_TASKS {
      ScheduleThesisKeeps(cfg, s, q[0]);
      var s1 := ScheduleThesis(cfg, s, q[0]);
      ScheduleThesesKeeps(cfg, s1, q[1..], made + |s1.tasks| - |s.tasks|);
    }
  }

  lemma {:induction false} ScheduleOneVerificationKeeps(cfg: Config, s: State, c: nat, r: State)
    requires Inv(cfg, s) && c < |s.candidates| && s.candidates[c].status.Unverified?
    requires var d := s.candidates[c];
      r == s.(tasks := s.tasks + [Task(d.thesis, d.twin, d.twin, Verify(c), VERIFY_PRIORITY, s.now, Ready, 0)],
              candidates := s.candidates[c := d.(status := Verifying)])
    ensures Inv(cfg, r)
  {
    forall i | 0 <= i < |r.tasks| ensures Accounted(cfg, r, i) && VerifyTaskOk(r, i) {
      if i < |s.tasks| { assert Accounted(cfg, s, i) && VerifyTaskOk(s, i); }
    }
    forall l | 0 <= l < |r.leases| ensures LeaseOk(cfg, r, l) { assert LeaseOk(cfg, s, l); }
    forall b | 0 <= b < |r.candidates| ensures CandidateOk(cfg, r, b) {
      assert CandidateOk(cfg, s, b);
      assert r.tasks[|s.tasks|].kind == Verify(c);
      if i :| 0 <= i < |s.tasks| && s.tasks[i].kind == Verify(b) { assert r.tasks[i].kind == Verify(b); }
      if s.candidates[b].status.Verified? { assert SoundlyVerified(cfg, s, b); assert SoundlyVerified(cfg, r, b); }
    }
    forall i, j | 0 <= i < j < |r.tasks| && r.tasks[i].kind.Verify? ensures r.tasks[i].kind != r.tasks[j].kind {
      assert VerifyTaskOk(s, i);
    }
  }

  lemma {:induction false} ScheduleVerificationsKeeps(cfg: Config, s: State, before: seq<Task>, c: nat)
    requires Inv(cfg, s)
    ensures Inv(cfg, ScheduleVerifications(s, before, c))
    decreases |s.candidates| - c
  {
    if c < |s.candidates| {
      if !s.candidates[c].status.Unverified? || HasVerifyTask(before, c) {
        ScheduleVerificationsKeeps(cfg, s, before, c + 1);
      } else {
        var d := s.candidates[c];
        var r := s.(tasks := s.tasks + [Task(d.thesis, d.twin, d.twin, Verify(c), VERIFY_PRIORITY, s.now, Ready, 0)],
                    candidates := s.candidates[c := d.(status := Verifying)]);
        ScheduleOneVerificationKeeps(cfg, s, c, r);
        ScheduleVerificationsKeeps(cfg, r, before, c + 1);
      }
    }
  }

  // ---- dispatch ------------------------------------------------------------------------------

  lemma {:induction false} StartKeeps(cfg: Config, s: State, i: nat, delay: nat)
    requires Inv(cfg, s) && i < |s.tasks| && s.tasks[i].status.Ready?
    ensures Inv(cfg, Start(cfg, s, i, delay))
  {
    var r := Start(cfg, s, i, delay);
    forall j | 0 <= j < |r.tasks| ensures Accounted(cfg, r, j) && VerifyTaskOk(r, j) {
      assert Accounted(cfg, s, j) && VerifyTaskOk(s, j);
    }
    forall l | 0 <= l < |r.leases| ensures LeaseOk(cfg, r, l) {
      if l < |s.leases| { assert LeaseOk(cfg, s, l); }
    }
    VerifyTasksKept(cfg, s, r);
  }

  lemma {:induction false} ClaimKeeps(cfg: Config, s: State, t: Task, worker: nat, claims: seq<Model>)
    requires Inv(cfg, s) && worker < s.workers
    ensures Inv(cfg, Claim(s, t, worker, claims))
  {
    var r := Claim(s, t, worker, claims);
    forall i | 0 <= i < |r.tasks| ensures Accounted(cfg, r, i) && VerifyTaskOk(r, i) {
      assert Accounted(cfg, s, i) && VerifyTaskOk(s, i);
    }
    forall l | 0 <= l < |r.leases| ensures LeaseOk(cfg, r, l) { assert LeaseOk(cfg, s, l); }
    forall c | 0 <= c < |r.candidates| ensures CandidateOk(cfg, r, c) {
      if c < |s.candidates| {
        assert CandidateOk(cfg, s, c);
        if s.candidates[c].status.Verified? { assert SoundlyVerified(cfg, s, c); assert SoundlyVerified(cfg, r, c); }
      }
    }
  }

  lemma {:induction false} VerifyCandidateKeeps(cfg: Config, s: State, c: nat, worker: nat, env: RunEnv)
    requires Inv(cfg, s)
    requires c < |s.candidates| && HasVerifyTask(s.tasks, c)
    ensures Inv(cfg, VerifyCandidate(cfg, s, c, worker, env))
    ensures VerifyCandidate(cfg, s, c, worker, env).candidates[c].Decided()
  {
    var r := VerifyCandidate(cfg, s, c, worker, env);
    DecideVerified(env.reproduced, env.verdict);
    VerifierIsIndependent(cfg, s.candidates[c].model);
    forall i | 0 <= i < |r.tasks| ensures Accounted(cfg, r, i) && VerifyTaskOk(r, i) {
      assert Accounted(cfg, s, i) && VerifyTaskOk(s, i);
    }
    forall l | 0 <= l < |r.leases| ensures LeaseOk(cfg, r, l) { assert LeaseOk(cfg, s, l); }
    forall b | 0 <= b < |r.candidates| ensures CandidateOk(cfg, r, b) {
      assert CandidateOk(cfg, s, b);
      if b == c {
        if r.candidates[c].status.Verified? { assert SoundlyVerified(cfg, r, c); }
      } else if s.candidates[b].status.Verified? {
        assert SoundlyVerified(cfg, s, b); assert SoundlyVerified(cfg, r, b);
      }
    }
  }

  /** A record alone promotes nobody. */
  lemma {:induction false} RecordVerdictKeeps(cfg: Config, s: State, c: nat, worker: nat, env: RunEnv)
    requires Inv(cfg, s)
    ensures Inv(cfg, RecordVerdict(cfg, s, c, worker, env))
  {
    var r := RecordVerdict(cfg, s, c, worker, env);
    forall i | 0 <= i < |r.tasks| ensures Accounted(cfg, r, i) && VerifyTaskOk(r, i) {
      assert Accounted(cfg, s, i) && VerifyTaskOk(s, i);
    }
    forall l | 0 <= l < |r.leases| ensures LeaseOk(cfg, r, l) { assert LeaseOk(cfg, s, l); }
    forall b | 0 <= b < |r.candidates| ensures CandidateOk(cfg, r, b) {
      assert CandidateOk(cfg, s, b);
      if s.candidates[b].status.Verified? { assert SoundlyVerified(cfg, s, b); assert SoundlyVerified(cfg, r, b); }
    }
  }

  lemma {:induction false} WorkKeeps(cfg: Config, s: State, i: nat, t: Task, worker: nat, env: RunEnv)
    requires Inv(cfg, s) && worker < s.workers
    requires i < |s.tasks| && s.tasks[i].kind == t.kind
    ensures Inv(cfg, Work(cfg, s, t, worker, env))
    ensures Work(cfg, s, t, worker, env).tasks == s.tasks && Work(cfg, s, t, worker, env).leases == s.leases
    ensures env.outcome.Returns? && t.kind.Verify? ==>
              var r := Work(cfg, s, t, worker, env);
              t.kind.candidate < |r.candidates| && r.candidates[t.kind.candidate].Decided()
  {
    assert VerifyTaskOk(s, i);
    var s1 := s.(now := s.now + env.took, modelCalls := s.modelCalls + env.modelCalls);
    PlanningIsInvisible(cfg, s, s1);
    match t.kind
    case Probe =>
      var s2 := s1.(toolCalls := s1.toolCalls + env.toolCalls);
      PlanningIsInvisible(cfg, s1, s2);
      ClaimKeeps(cfg, s2, t, worker, env.claims);
    case Verify(c) =>
      match Written(env) {
        case Nothing =>
        case RecordOnly => RecordVerdictKeeps(cfg, s1, c, worker, env);
        case RecordAndDecision => VerifyCandidateKeeps(cfg, s1, c, worker, env);
      }
  }

  /** The worker's lease is released and its task put in any state but running. */
  lemma {:induction false} ReleaseKeeps(cfg: Config, s: State, i: nat, l: nat, t: Task)
    requires Inv(cfg, s) && i < |s.tasks| && s.tasks[i].status == Running(l)
    requires l < |s.leases|
    requires t == Requeue(s.tasks[i]) || t == s.tasks[i].(status := Ready) || t == s.tasks[i].(status := Done)
    requires t.status.Done? && t.kind.Verify? && t.kind.candidate < |s.candidates| ==>
             s.candidates[t.kind.candidate].Decided()
    ensures Inv(cfg, SetTask(Release(s, l), i, t))
  {
    var r := SetTask(Release(s, l), i, t);
    forall j | 0 <= j < |r.tasks| ensures Accounted(cfg, r, j) && VerifyTaskOk(r, j) {
      assert Accounted(cfg, s, j) && VerifyTaskOk(s, j) && Accounted(cfg, s, i);
    }
    forall k | 0 <= k < |r.leases| ensures LeaseOk(cfg, r, k) { assert LeaseOk(cfg, s, k); }
    VerifyTasksKept(cfg, s, r);
  }

  lemma {:induction false} RunOneKeeps(cfg: Config, s: State, i: nat, env: RunEnv)
    requires Inv(cfg, s) && i < |s.tasks| && s.tasks[i].status.Ready?
    ensures Inv(cfg, RunOne(cfg, s, i, env))
    ensures forall j :: 0 <= j < |s.tasks| && j != i ==> RunOne(cfg, s, i, env).tasks[j] == s.tasks[j]
  {
    StartKeeps(cfg, s, i, env.delay);
    var s1 := Start(cfg, s, i, env.delay);
    if !Leased(s.leases, s1.now, i) {
      var l := |s.leases|;
      if !env.handleOk {
        ReleaseKeeps(cfg, s1, i, l, Requeue(s1.tasks[i]));
      } else {
        WorkKeeps(cfg, s1, i, s.tasks[i], s.workers, env);
        var s2 := Work(cfg, s1, s.tasks[i], s.workers, env);
        AfterRunKeeps(cfg, s2, i, l, s.tasks[i].kind, env.outcome);
      }
    }
  }

  lemma {:induction false} AfterRunKeeps(cfg: Config, s: State, i: nat, l: nat, kind: Kind, outcome: Outcome)
    requires Inv(cfg, s) && i < |s.tasks| && s.tasks[i].status == Running(l) && l < |s.leases| &&
             s.tasks[i].kind == kind
    requires outcome.Returns? && kind.Verify? && kind.candidate < |s.candidates| ==>
             s.candidates[kind.candidate].Decided()
    ensures Inv(cfg, AfterRun(s, i, l, kind, outcome))
    ensures |AfterRun(s, i, l, kind, outcome).tasks| == |s.tasks|
    ensures forall j :: 0 <= j < |s.tasks| && j != i ==> AfterRun(s, i, l, kind, outcome).tasks[j] == s.tasks[j]
  {
    match outcome
    case Abandoned =>
    case DirectorDies =>
    case Fails => ReleaseKeeps(cfg, s, i, l, Requeue(s.tasks[i]));
    case Returns(reason) =>
      if kind.Probe? && reason.ModelUnusable? { ReleaseKeeps(cfg, s, i, l, Requeue(s.tasks[i])); }
      else if kind.Probe? && reason.PausedWorker? { ReleaseKeeps(cfg, s, i, l, s.tasks[i].(status := Ready)); }
      else { ReleaseKeeps(cfg, s, i, l, s.tasks[i].(status := Done)); }
  }

  predicate Distinct(q: seq<nat>) { forall a, b :: 0 <= a < b < |q| ==> q[a] != q[b] }

  lemma {:induction false} InsertDistinct(q: seq<nat>, i: nat, before: (nat, nat) -> bool)
    requires Distinct(q) && i !in q
    ensures Distinct(Insert(q, i, before))
    decreases |q|
  {
    InsertMembers(q, i, before);
    if q == [] || before(i, q[0]) {
    } else {
      InsertMembers(q[1..], i, before);
      InsertDistinct(q[1..], i, before);
      var r := Insert(q[1..], i, before);
      forall b | 0 <= b < |r| ensures r[b] != q[0] { assert r[b] in r; }
    }
  }

  lemma {:induction false} QueueDistinct(n: nat, keep: nat -> bool, before: (nat, nat) -> bool)
    ensures Distinct(Queue(n, keep, before))
    decreases n
  {
    if n > 0 {
      QueueDistinct(n - 1, keep, before);
      QueueMembers(n - 1, keep, before);
      if keep(n - 1) { InsertDistinct(Queue(n - 1, keep, before), n - 1, before); }
    }
  }

  lemma {:induction false} ReadyDistinct(cfg: Config, tasks: seq<Task>)
    ensures Distinct(ReadyTasks(cfg, tasks))
  {
    QueueDistinct(|tasks|, (i: nat) => i < |tasks| && tasks[i].status.Ready?,
                  (i: nat, j: nat) => TaskBefore(cfg, tasks, i, j));
  }

  lemma {:induction false} InsertSorted(q: seq<nat>, i: nat, before: (nat, nat) -> bool)
    requires StrictOrder(before) && SortedBy(q, before)
    ensures SortedBy(Insert(q, i, before), before)
    decreases |q|
  {
    if q == [] {
    } else if before(i, q[0]) {
      assert forall b :: 0 < b < |q| ==> !before(q[b], q[0]);
    } else {
      InsertSorted(q[1..], i, before);
      InsertMembers(q[1..], i, before);
      var r := Insert(q[1..], i, before);
      forall b | 0 <= b < |r| ensures !before(r[b], q[0]) { assert r[b] in r; }
    }
  }

  ghost predicate StrictOrder(before: (nat, nat) -> bool) {
    (forall x :: !before(x, x)) && forall x, y, z :: before(x, y) && before(y, z) ==> before(x, z)
  }

  ghost predicate SortedBy(q: seq<nat>, before: (nat, nat) -> bool) {
    forall a, b :: 0 <= a < b < |q| ==> !before(q[b], q[a])
  }

  lemma {:induction false} QueueSorted(n: nat, keep: nat -> bool, before: (nat, nat) -> bool)
    requires StrictOrder(before)
    ensures SortedBy(Queue(n, keep, before), before)
    decreases n
  {
    if n > 0 {
      QueueSorted(n - 1, keep, before);
      if keep(n - 1) { InsertSorted(Queue(n - 1, keep, before), n - 1, before); }
    }
  }

  /** The dispatch queue is exactly the ready tasks, each once, by falling priority, then creation, then id text. */
  lemma {:induction false} ReadyQueue(cfg: Config, tasks: seq<Task>)
    ensures var q := ReadyTasks(cfg, tasks);
            Distinct(q) && (forall i: nat :: i in q <==> i < |tasks| && tasks[i].status.Ready?) &&
            forall a, b :: 0 <= a < b < |q| ==> !TaskBefore(cfg, tasks, q[b], q[a])
  {
    ReadyDistinct(cfg, tasks);
    var before := (i: nat, j: nat) => TaskBefore(cfg, tasks, i, j);
    QueueSorted(|tasks|, (i: nat) => i < |tasks| && tasks[i].status.Ready?, before);
    forall a, b | 0 <= a < b < |ReadyTasks(cfg, tasks)|
      ensures !TaskBefore(cfg, tasks, ReadyTasks(cfg, tasks)[b], ReadyTasks(cfg, tasks)[a])
    {
      assert !before(ReadyTasks(cfg, tasks)[b], ReadyTasks(cfg, tasks)[a]);
    }
  }

  /** The part of the queue from `k` on is still ready. */
  predicate QueueReady(s: State, q: seq<nat>, k: nat) {
    InRange(q, |s.tasks|) && Distinct(q) && forall a :: k <= a < |q| ==> s.tasks[q[a]].status.Ready?
  }

  lemma {:induction false} DispatchKeeps(cfg: Config, s: State, q: seq<nat>, k: nat, runs: nat -> RunEnv)
    requires Inv(cfg, s) && QueueReady(s, q, k)
    ensures Inv(cfg, Dispatch(cfg, s, q, k, runs).s)
    decreases |q| - k
  {
    if k < |q| {
      RunOneKeeps(cfg, s, q[k], runs(k));
      if !Dies(s, q[k], runs(k)) { DispatchKeeps(cfg, RunOne(cfg, s, q[k], runs(k)), q, k + 1, runs); }
    }
  }

  lemma {:induction false} UpdateThesesKeeps(cfg: Config, s: State)
    requires Inv(cfg, s)
    ensures Inv(cfg, UpdateTheses(s))
  {
    PlanningIsInvisible(cfg, s, UpdateTheses(s));
  }

  lemma {:induction false} PrepareKeeps(cfg: Config, s: State, env: TickEnv, drain: bool)
    requires Inv(cfg, s) && cfg.twins != []
    ensures Inv(cfg, Prepare(cfg, s, env, drain))
  {
    RecoverLeasesKeeps(cfg, s);
    RecoverTwinsKeeps(cfg, RecoverLeases(s), env.twins, 0);
    var s2 := RecoverTwins(cfg, RecoverLeases(s), env.twins, 0);
    var p := PlanIfNeeded(cfg, s2, env);
    PlanningIsInvisible(cfg, s2, p);
    ScheduleThesesKeeps(cfg, p, OpenTheses(cfg, p.theses), 0);
    var s3 := if drain then s2 else ScheduleTheses(cfg, p, OpenTheses(cfg, p.theses), 0);
    ScheduleVerificationsKeeps(cfg, s3, s3.tasks, 0);
  }

  // ---- every tick, every run, every sequence of Director lives --------------------------------------

  lemma {:induction false} FinishKeeps(cfg: Config, s: State, env: TickEnv, drain: bool)
    requires Inv(cfg, s)
    ensures Inv(cfg, Finish(cfg, s, env, drain).s)
  {
    var q := Take(ReadyTasks(cfg, s.tasks), cfg.concurrency);
    TakeReady(cfg, s);
    DispatchKeeps(cfg, s, q, 0, env.runs);
    UpdateThesesKeeps(cfg, Dispatch(cfg, s, q, 0, env.runs).s);
  }

  lemma {:induction false} ProceedKeeps(cfg: Config, s: State, env: TickEnv, drain: bool)
    requires Inv(cfg, s) && cfg.twins != []
    ensures Inv(cfg, Finish(cfg, Prepare(cfg, s, env, drain), env, drain).s)
  {
    PrepareKeeps(cfg, s, env, drain);
    FinishKeeps(cfg, Prepare(cfg, s, env, drain), env, drain);
  }

  lemma {:induction false} TickKeeps(cfg: Config, s: State, env: TickEnv, drain: bool)
    requires Inv(cfg, s) && cfg.twins != []
    ensures Inv(cfg, Tick(cfg, s, env, drain).s)
  {
    if HeadStop(cfg, s, env).None? { ProceedKeeps(cfg, s, env, drain); }
  }

  lemma {:induction false} ElapseKeeps(cfg: Config, s: State, env: TickEnv)
    requires Inv(cfg, s)
    ensures Inv(cfg, Elapse(s, env))
  {
    PlanningIsInvisible(cfg, s, Elapse(s, env));
  }

  lemma {:induction false} TakeReady(cfg: Config, s: State)
    ensures QueueReady(s, Take(ReadyTasks(cfg, s.tasks), cfg.concurrency), 0)
  {
    var all := ReadyTasks(cfg, s.tasks);
    ReadyDistinct(cfg, s.tasks);
    forall a | 0 <= a < |all| ensures s.tasks[all[a]].status.Ready? { assert all[a] in all; }
  }

  lemma {:induction false} RunKeeps(cfg: Config, s: State, envs: seq<TickEnv>, drain: bool)
    requires Inv(cfg, s) && cfg.twins != []
    ensures Inv(cfg, Run(cfg, s, envs, drain).0)
    decreases |envs|
  {
    if envs != [] {
      var s1 := Elapse(s, envs[0]);
      ElapseKeeps(cfg, s, envs[0]);
      TickKeeps(cfg, s1, envs[0], drain);
      var r := Tick(cfg, s1, envs[0], drain);
      if r.Go? { RunKeeps(cfg, r.s, envs[1..], drain); }
    }
  }

  lemma {:induction false} LiveKeeps(cfg: Config, s: State, life: Life)
    requires Inv(cfg, s) && cfg.twins != []
    ensures Inv(cfg, Live(cfg, s, life).0)
  {
    var b := Boot(cfg, s, life.downtime);
    PlanningIsInvisible(cfg, s, b);
    RecoverLeasesKeeps(cfg, b);
    RunKeeps(cfg, if life.resume then RecoverLeases(b) else b, life.ticks, life.drain);
  }

  lemma {:induction false} LivesKeep(cfg: Config, s: State, lives: seq<Life>)
    requires Inv(cfg, s) && cfg.twins != []
    ensures Inv(cfg, LiveAll(cfg, s, lives))
    decreases |lives|
  {
    if lives != [] {
      LiveKeeps(cfg, s, lives[0]);
      LivesKeep(cfg, Live(cfg, s, lives[0]).0, lives[1..]);
    }
  }

  /** Across any number of Director lives, with workers crashing, twins failing and Directors dying
      inside a run or between ticks, every task is ready, done, blocked after exactly three attempts,
      or running under a recorded lease that is its own, still open, and at most one TTL from expiry. */
  lemma {:induction false} NoTaskIsLost(cfg: Config, now: nat, lives: seq<Life>, i: nat)
    requires cfg.twins != [] && i < |LiveAll(cfg, Blank(now), lives).tasks|
    ensures Accounted(cfg, LiveAll(cfg, Blank(now), lives), i)
  {
    assert Inv(cfg, Blank(now));
    LivesKeep(cfg, Blank(now), lives);
  }

  /** Every verified candidate of every reachable state points to its own successful, positive
      verification by somebody other than its claimant, decorrelated whenever the pool allows. */
  lemma {:induction false} VerifiedMeansVerified(cfg: Config, now: nat, lives: seq<Life>, c: nat)
    requires cfg.twins != [] && c < |LiveAll(cfg, Blank(now), lives).candidates|
    requires LiveAll(cfg, Blank(now), lives).candidates[c].status.Verified?
    ensures SoundlyVerified(cfg, LiveAll(cfg, Blank(now), lives), c)
  {
    assert Inv(cfg, Blank(now));
    LivesKeep(cfg, Blank(now), lives);
    assert CandidateOk(cfg, LiveAll(cfg, Blank(now), lives), c);
  }

  /** Once the recorded lease of a running task has run out, the next tick that gets past the stop
      checks has it ready again, or blocked, before anything is dispatched; and one TTL is enough. */
  lemma {:induction false} ExpiredTaskIsRecovered(cfg: Config, s: State, i: nat, env: TickEnv, drain: bool)
    requires Inv(cfg, s) && cfg.twins != [] && i < |s.tasks| && s.tasks[i].status.Running?
    ensures s.tasks[i].status.lease < |s.leases|
    ensures s.leases[s.tasks[i].status.lease].expires <= s.now + cfg.ttl
    ensures s.leases[s.tasks[i].status.lease].expires <= s.now ==>
              var r := Prepare(cfg, s, env, drain);
              i < |r.tasks| && (r.tasks[i].status.Ready? || r.tasks[i].status.Blocked?) &&
              r.tasks[i].attempts == s.tasks[i].attempts + 1
  {
    assert Accounted(cfg, s, i);
    if s.leases[s.tasks[i].status.lease].expires <= s.now {
      var s1 := RecoverLeases(s);
      assert s1.tasks[i] == Requeue(s.tasks[i]);
      RecoverTwinsSettled(cfg, s1, env.twins, 0, i);
      var s2 := RecoverTwins(cfg, s1, env.twins, 0);
      var p := PlanIfNeeded(cfg, s2, env);
      SchedulingAppends(cfg, p, OpenTheses(cfg, p.theses), 0);
      var s3 := if drain then s2 else ScheduleTheses(cfg, p, OpenTheses(cfg, p.theses), 0);
      VerificationsAppend(s3, s3.tasks, 0);
    }
  }

  /** Re-homing leaves a task that is not running alone but for its twin. */
  lemma {:induction false} RecoverTwinsSettled(cfg: Config, s: State, env: nat -> TwinEnv, k: nat, i: nat)
    requires i < |s.tasks| && !s.tasks[i].status.Running?
    ensures var r := RecoverTwins(cfg, s, env, k);
            |r.tasks| == |s.tasks| && r.tasks[i] == s.tasks[i].(twin := r.tasks[i].twin)
    decreases |cfg.twins| - k
  {
    if k < |cfg.twins| { RecoverTwinsSettled(cfg, RecoverTwin(s, cfg.twins[k], env(k)), env, k + 1, i); }
  }

  lemma {:induction false} SchedulingAppends(cfg: Config, s: State, q: seq<nat>, made: nat)
    requires cfg.twins != [] && InRange(q, |s.theses|)
    ensures s.tasks <= ScheduleTheses(cfg, s, q, made).tasks
    decreases |q|
  {
    if q != [] && made < MAX_NEW_TASKS {
      var s1 := ScheduleThesis(cfg, s, q[0]);
      assert s.tasks <= s1.tasks;
      SchedulingAppends(cfg, s1, q[1..], made + |s1.tasks| - |s.tasks|);
      assert ScheduleTheses(cfg, s, q, made) == ScheduleTheses(cfg, s1, q[1..], made + |s1.tasks| - |s.tasks|);
    }
  }

  lemma {:induction false} VerificationsAppend(s: State, before: seq<Task>, c: nat)
    ensures s.tasks <= ScheduleVerifications(s, before, c).tasks
    decreases |s.candidates| - c
  {
    if c < |s.candidates| {
      var d := s.candidates[c];
      if !d.status.Unverified? || HasVerifyTask(before, c) { VerificationsAppend(s, before, c + 1); }
      else {
        VerificationsAppend(
          s.(tasks := s.tasks + [Task(d.thesis, d.twin, d.twin, Verify(c), VERIFY_PRIORITY, s.now, Ready, 0)],
             candidates := s.candidates[c := d.(status := Verifying)]), before, c + 1);
      }
    }
  }

  // ---- quiescence -----------------------------------------------------------------------------------

  /** The verify task `j` is candidate `c`'s only one, and it was given up after exactly three attempts. */
  predicate GivenUp(s: State, c: nat, j: nat) {
    j < |s.tasks| && s.tasks[j].kind == Verify(c) && s.tasks[j].status.Blocked? &&
    s.tasks[j].attempts == MAX_TASK_ATTEMPTS &&
    forall i :: 0 <= i < |s.tasks| && s.tasks[i].kind == Verify(c) ==> i == j
  }

  lemma {:induction false} NoneLeftUnverified(s: State, before: seq<Task>, c: nat)
    requires forall b :: c <= b < |s.candidates| && s.candidates[b].status.Unverified? ==> !HasVerifyTask(before, b)
    requires forall b :: 0 <= b < c && b < |s.candidates| ==> !s.candidates[b].status.Unverified?
    ensures var r := ScheduleVerifications(s, before, c);
            |r.candidates| == |s.candidates| &&
            forall b :: 0 <= b < |r.candidates| ==> !r.candidates[b].status.Unverified?
    decreases |s.candidates| - c
  {
    if c < |s.candidates| {
      var d := s.candidates[c];
      if !d.status.Unverified? { NoneLeftUnverified(s, before, c + 1); }
      else {
        NoneLeftUnverified(
          s.(tasks := s.tasks + [Task(d.thesis, d.twin, d.twin, Verify(c), VERIFY_PRIORITY, s.now, Ready, 0)],
             candidates := s.candidates[c := d.(status := Verifying)]), before, c + 1);
      }
    }
  }

  lemma {:induction false} PrepareLeavesNoneUnverified(cfg: Config, s: State, env: TickEnv, drain: bool)
    requires Inv(cfg, s) && cfg.twins != []
    ensures var r := Prepare(cfg, s, env, drain);
            forall b :: 0 <= b < |r.candidates| ==> !r.candidates[b].status.Unverified?
  {
    RecoverLeasesKeeps(cfg, s);
    RecoverTwinsKeeps(cfg, RecoverLeases(s), env.twins, 0);
    var s2 := RecoverTwins(cfg, RecoverLeases(s), env.twins, 0);
    var p := PlanIfNeeded(cfg, s2, env);
    PlanningIsInvisible(cfg, s2, p);
    ScheduleThesesKeeps(cfg, p, OpenTheses(cfg, p.theses), 0);
    var s3 := if drain then s2 else ScheduleTheses(cfg, p, OpenTheses(cfg, p.theses), 0);
    assert forall i :: 0 <= i < |s3.tasks| ==> VerifyTaskOk(s3, i);
    forall b | 0 <= b < |s3.candidates| && HasVerifyTask(s3.tasks, b) ensures !s3.candidates[b].status.Unverified? {
      var i :| 0 <= i < |s3.tasks| && s3.tasks[i].kind == Verify(b);
      assert VerifyTaskOk(s3, i);
    }
    NoneLeftUnverified(s3, s3.tasks, 0);
  }

  /** What a tick that stops for want of work certifies. */
  lemma {:induction false} QuietTickCertifies(cfg: Config, s: State, env: TickEnv, drain: bool)
    requires Inv(cfg, s) && cfg.twins != []
    requires var r := Tick(cfg, s, env, drain); r.Halt? && (r.reason.Drained? || r.reason.NoOpenWork?)
    ensures Quiet(cfg, Tick(cfg, s, env, drain).s, Tick(cfg, s, env, drain).reason)
  {
    var r := Tick(cfg, s, env, drain).s;
    TickKeeps(cfg, s, env, drain);
    forall i | 0 <= i < |r.tasks| ensures !r.tasks[i].Active() {}
    if Tick(cfg, s, env, drain).reason.Drained? {
      PrepareLeavesNoneUnverified(cfg, s, env, drain);
      forall c | 0 <= c < |r.candidates| && !r.candidates[c].Decided() ensures exists j :: GivenUp(r, c, j) {
        assert CandidateOk(cfg, r, c);
        assert r.candidates[c].status.Verifying?;
        var j :| 0 <= j < |r.tasks| && r.tasks[j].kind == Verify(c);
        assert VerifyTaskOk(r, j) && Accounted(cfg, r, j);
        assert GivenUp(r, c, j);
      }
    }
  }

  /** Every task finished; and for `no_open_work` every thesis exhausted, every candidate decided and the
      planning floor met, for `drained` every candidate decided or given up on. */
  ghost predicate Quiet(cfg: Config, r: State, reason: Stop) {
    && (forall i :: 0 <= i < |r.tasks| ==> r.tasks[i].status.Done? || r.tasks[i].status.Blocked?)
    && (reason.NoOpenWork? ==>
          cfg.minCycles <= r.cycles &&
          (forall h :: 0 <= h < |r.theses| ==> r.theses[h].status.Exhausted?) &&
          (forall c :: 0 <= c < |r.candidates| ==> r.candidates[c].Decided()))
    && (reason.Drained? ==>
          forall c :: 0 <= c < |r.candidates| ==> r.candidates[c].Decided() || exists j :: GivenUp(r, c, j))
  }

  lemma {:induction false} QuietRunCertifies(cfg: Config, s: State, envs: seq<TickEnv>, drain: bool)
    requires Inv(cfg, s) && cfg.twins != []
    requires var r := Run(cfg, s, envs, drain).1; r.Drained? || r.NoOpenWork?
    ensures Quiet(cfg, Run(cfg, s, envs, drain).0, Run(cfg, s, envs, drain).1)
    decreases |envs|
  {
    var s1 := Elapse(s, envs[0]);
    ElapseKeeps(cfg, s, envs[0]);
    var r := Tick(cfg, s1, envs[0], drain);
    TickKeeps(cfg, s1, envs[0], drain);
    if r.Go? { QuietRunCertifies(cfg, r.s, envs[1..], drain); }
    else { QuietTickCertifies(cfg, s1, envs[0], drain); }
  }

  // ---- history only grows -----------------------------------------------------------------------------

  predicate TaskEvolves(t: Task, u: Task) {
    u.thesis == t.thesis && u.home == t.home && u.kind == t.kind && u.priority == t.priority &&
    u.created == t.created && t.attempts <= u.attempts && (t.Active() || u == t)
  }

  predicate CandidateEvolves(c: Candidate, d: Candidate) {
    d.thesis == c.thesis && d.worker == c.worker && d.model == c.model && d.twin == c.twin &&
    (d.status.Unverified? ==> c.status.Unverified?) && (c.Decided() ==> d.Decided())
  }

  predicate LeaseEvolves(l: Lease, m: Lease) {
    m.task == l.task && m.owner == l.owner && m.expires == l.expires && (m.Open() ==> l.Open())
  }

  predicate ThesisEvolves(h: Thesis, g: Thesis) {
    g.fingerprint == h.fingerprint && g.priority == h.priority &&
    (h.status.Exhausted? ==> g.status.Exhausted?) && (g.status.Open? ==> h.status.Open?)
  }

  /** Nothing recorded is forgotten: done and blocked tasks are frozen, ended leases stay ended, decided
      candidates stay decided, verification records are never rewritten, counters never fall. */
  predicate Evolves(s: State, r: State) {
    && |s.tasks| <= |r.tasks|
    && (forall i {:trigger TaskEvolves(s.tasks[i], r.tasks[i])} :: 0 <= i < |s.tasks| ==>
          TaskEvolves(s.tasks[i], r.tasks[i]))
    && |s.candidates| <= |r.candidates|
    && (forall c {:trigger CandidateEvolves(s.candidates[c], r.candidates[c])} :: 0 <= c < |s.candidates| ==>
          CandidateEvolves(s.candidates[c], r.candidates[c]))
    && |s.leases| <= |r.leases|
    && (forall l {:trigger LeaseEvolves(s.leases[l], r.leases[l])} :: 0 <= l < |s.leases| ==>
          LeaseEvolves(s.leases[l], r.leases[l]))
    && |s.theses| <= |r.theses|
    && (forall h {:trigger ThesisEvolves(s.theses[h], r.theses[h])} :: 0 <= h < |s.theses| ==>
          ThesisEvolves(s.theses[h], r.theses[h]))
    && s.verifications <= r.verifications && s.settled <= r.settled
    && s.now <= r.now && s.workers <= r.workers && s.cursor <= r.cursor && s.cycles <= r.cycles
    && s.toolCalls <= r.toolCalls && s.modelCalls <= r.modelCalls
  }

  lemma {:induction false} EvolvesThrough(s: State, m: State, r: State)
    requires Evolves(s, m) && Evolves(m, r)
    ensures Evolves(s, r)
  {
    forall i | 0 <= i < |s.tasks| ensures TaskEvolves(s.tasks[i], r.tasks[i]) {
      assert TaskEvolves(s.tasks[i], m.tasks[i]) && TaskEvolves(m.tasks[i], r.tasks[i]);
    }
    forall c | 0 <= c < |s.candidates| ensures CandidateEvolves(s.candidates[c], r.candidates[c]) {
      assert CandidateEvolves(s.candidates[c], m.candidates[c]) && CandidateEvolves(m.candidates[c], r.candidates[c]);
    }
    forall l | 0 <= l < |s.leases| ensures LeaseEvolves(s.leases[l], r.leases[l]) {
      assert LeaseEvolves(s.leases[l], m.leases[l]) && LeaseEvolves(m.leases[l], r.leases[l]);
    }
    forall h | 0 <= h < |s.theses| ensures ThesisEvolves(s.theses[h], r.theses[h]) {
      assert ThesisEvolves(s.theses[h], m.theses[h]) && ThesisEvolves(m.theses[h], r.theses[h]);
    }
  }

  lemma {:induction false} RecoverTwinsEvolve(cfg: Config, s: State, env: nat -> TwinEnv, k: nat)
    ensures Evolves(s, RecoverTwins(cfg, s, env, k))
    decreases |cfg.twins| - k
  {
    if k < |cfg.twins| {
      var s1 := RecoverTwin(s, cfg.twins[k], env(k));
      RecoverTwinsEvolve(cfg, s1, env, k + 1);
      EvolvesThrough(s, s1, RecoverTwins(cfg, s, env, k));
    }
  }

  lemma {:induction false} ProposeAllExtends(theses: seq<Thesis>, ps: seq<Proposal>)
    ensures theses <= ProposeAll(theses, ps)
    decreases |ps|
  {
    if ps != [] { ProposeAllExtends(Propose(theses, ps[0]), ps[1..]); }
  }

  lemma {:induction false} NextTwinAdvances(twins: seq<Twin>, cur: nat, avoid: Option<Twin>, n: nat)
    requires twins != []
    ensures cur <= NextTwin(twins, cur, avoid, n).1
    decreases n
  {
    if n != 0 && Some(twins[cur % |twins|]) == avoid { NextTwinAdvances(twins, cur + 1, avoid, n - 1); }
  }

  lemma {:induction false} ScheduleThesisEvolves(cfg: Config, s: State, h: nat)
    requires cfg.twins != [] && h < |s.theses| && s.theses[h].status.Open?
    ensures Evolves(s, ScheduleThesis(cfg, s, h))
  {
    var n := |cfg.twins|;
    var first := NextTwin(cfg.twins, s.cursor, None, n);
    NextTwinAdvances(cfg.twins, s.cursor, None, n);
    NextTwinAdvances(cfg.twins, first.1, Some(first.0), n);
  }

  lemma {:induction false} SchedulingEvolves(cfg: Config, s: State, q: seq<nat>, made: nat)
    requires cfg.twins != [] && InRange(q, |s.theses|)
    requires Distinct(q) && forall a :: 0 <= a < |q| ==> s.theses[q[a]].status.Open?
    ensures Evolves(s, ScheduleTheses(cfg, s, q, made))
    decreases |q|
  {
    if q != [] && made < MAX_NEW_TASKS {
      var s1 := ScheduleThesis(cfg, s, q[0]);
      ScheduleThesisEvolves(cfg, s, q[0]);
      SchedulingEvolves(cfg, s1, q[1..], made + |s1.tasks| - |s.tasks|);
      EvolvesThrough(s, s1, ScheduleTheses(cfg, s, q, made));
    }
  }

  lemma {:induction false} VerificationSchedulingEvolves(s: State, before: seq<Task>, c: nat)
    ensures Evolves(s, ScheduleVerifications(s, before, c))
    decreases |s.candidates| - c
  {
    if c < |s.candidates| {
      var d := s.candidates[c];
      if !d.status.Unverified? || HasVerifyTask(before, c) { VerificationSchedulingEvolves(s, before, c + 1); }
      else {
        var r := s.(tasks := s.tasks + [Task(d.thesis, d.twin, d.twin, Verify(c), VERIFY_PRIORITY, s.now, Ready, 0)],
                    candidates := s.candidates[c := d.(status := Verifying)]);
        VerificationSchedulingEvolves(r, before, c + 1);
        EvolvesThrough(s, r, ScheduleVerifications(s, before, c));
      }
    }
  }

  lemma {:induction false} WorkEvolves(cfg: Config, s: State, t: Task, worker: nat, env: RunEnv)
    ensures Evolves(s, Work(cfg, s, t, worker, env))
  {
    DecideVerified(env.reproduced, env.verdict);
  }

  lemma {:induction false} AfterRunEvolves(s: State, i: nat, l: nat, kind: Kind, outcome: Outcome)
    requires i < |s.tasks| && s.tasks[i].Active() && l < |s.leases|
    ensures Evolves(s, AfterRun(s, i, l, kind, outcome))
  {
  }

  lemma {:induction false} RunOneEvolves(cfg: Config, s: State, i: nat, env: RunEnv)
    requires i < |s.tasks| && s.tasks[i].status.Ready?
    ensures Evolves(s, RunOne(cfg, s, i, env))
  {
    var s1 := Start(cfg, s, i, env.delay);
    assert Evolves(s, s1);
    if !Leased(s.leases, s1.now, i) {
      var l := |s.leases|;
      if env.handleOk {
        var s2 := Work(cfg, s1, s.tasks[i], s.workers, env);
        WorkEvolves(cfg, s1, s.tasks[i], s.workers, env);
        EvolvesThrough(s, s1, s2);
        AfterRunEvolves(s2, i, l, s.tasks[i].kind, env.outcome);
        EvolvesThrough(s, s2, RunOne(cfg, s, i, env));
      } else {
        AfterRunEvolves(s1, i, l, Probe, Fails);
        EvolvesThrough(s, s1, RunOne(cfg, s, i, env));
      }
    }
  }

  lemma {:induction false} DispatchEvolves(cfg: Config, s: State, q: seq<nat>, k: nat, runs: nat -> RunEnv)
    requires Inv(cfg, s) && QueueReady(s, q, k)
    ensures Evolves(s, Dispatch(cfg, s, q, k, runs).s)
    decreases |q| - k
  {
    if k < |q| {
      var s1 := RunOne(cfg, s, q[k], runs(k));
      RunOneKeeps(cfg, s, q[k], runs(k));
      RunOneEvolves(cfg, s, q[k], runs(k));
      if !Dies(s, q[k], runs(k)) {
        DispatchEvolves(cfg, s1, q, k + 1, runs);
        EvolvesThrough(s, s1, Dispatch(cfg, s, q, k, runs).s);
      }
    }
  }

  lemma {:induction false} OpenThesesReady(cfg: Config, s: State)
    ensures var q := OpenTheses(cfg, s.theses);
            Distinct(q) && forall a :: 0 <= a < |q| ==> s.theses[q[a]].status.Open?
  {
    var q := OpenTheses(cfg, s.theses);
    QueueDistinct(|s.theses|, (h: nat) => h < |s.theses| && s.theses[h].status.Open?,
                  (g: nat, h: nat) => ThesisBefore(cfg, s.theses, g, h));
    forall a | 0 <= a < |q| ensures s.theses[q[a]].status.Open? { assert q[a] in q; }
  }

  lemma {:induction false} PlanAndScheduleEvolve(cfg: Config, s: State, env: TickEnv)
    requires cfg.twins != []
    ensures var p := PlanIfNeeded(cfg, s, env); Evolves(s, ScheduleTheses(cfg, p, OpenTheses(cfg, p.theses), 0))
  {
    var p := PlanIfNeeded(cfg, s, env);
    ProposeAllExtends(s.theses, env.proposals);
    assert Evolves(s, p);
    OpenThesesReady(cfg, p);
    SchedulingEvolves(cfg, p, OpenTheses(cfg, p.theses), 0);
    EvolvesThrough(s, p, ScheduleTheses(cfg, p, OpenTheses(cfg, p.theses), 0));
  }

  lemma {:induction false} PrepareEvolves(cfg: Config, s: State, env: TickEnv, drain: bool)
    requires cfg.twins != []
    ensures Evolves(s, Prepare(cfg, s, env, drain))
  {
    var s1 := RecoverLeases(s);
    RecoverTwinsEvolve(cfg, s1, env.twins, 0);
    var s2 := RecoverTwins(cfg, s1, env.twins, 0);
    EvolvesThrough(s, s1, s2);
    var p := PlanIfNeeded(cfg, s2, env);
    PlanAndScheduleEvolve(cfg, s2, env);
    var s3 := if drain then s2 else ScheduleTheses(cfg, p, OpenTheses(cfg, p.theses), 0);
    EvolvesThrough(s, s2, s3);
    VerificationSchedulingEvolves(s3, s3.tasks, 0);
    EvolvesThrough(s, s3, Prepare(cfg, s, env, drain));
  }

  lemma {:induction false} FinishEvolves(cfg: Config, s: State, env: TickEnv, drain: bool)
    requires Inv(cfg, s)
    ensures Evolves(s, Finish(cfg, s, env, drain).s)
  {
    TakeReady(cfg, s);
    var q := Take(ReadyTasks(cfg, s.tasks), cfg.concurrency);
    DispatchEvolves(cfg, s, q, 0, env.runs);
    var d := Dispatch(cfg, s, q, 0, env.runs);
    assert Evolves(d.s, UpdateTheses(d.s));
    EvolvesThrough(s, d.s, UpdateTheses(d.s));
  }

  lemma {:induction false} ProceedEvolves(cfg: Config, s: State, env: TickEnv, drain: bool)
    requires Inv(cfg, s) && cfg.twins != []
    ensures Evolves(s, Finish(cfg, Prepare(cfg, s, env, drain), env, drain).s)
  {
    PrepareKeeps(cfg, s, env, drain);
    PrepareEvolves(cfg, s, env, drain);
    var s4 := Prepare(cfg, s, env, drain);
    FinishEvolves(cfg, s4, env, drain);
    EvolvesThrough(s, s4, Finish(cfg, s4, env, drain).s);
  }

  /** One tick only ever adds to the history. */
  lemma {:induction false} TickEvolves(cfg: Config, s: State, env: TickEnv, drain: bool)
    requires Inv(cfg, s) && cfg.twins != []
    ensures Evolves(s, Tick(cfg, s, env, drain).s)
  {
    if HeadStop(cfg, s, env).None? { ProceedEvolves(cfg, s, env, drain); }
  }

  lemma {:induction false} ElapseEvolves(s: State, env: TickEnv, r: State)
    requires Evolves(Elapse(s, env), r)
    ensures Evolves(s, r)
  {
  }

  /** A whole run, and so a whole campaign, only ever adds to the history. */
  lemma {:induction false} RunEvolves(cfg: Config, s: State, envs: seq<TickEnv>, drain: bool)
    requires Inv(cfg, s) && cfg.twins != []
    ensures Evolves(s, Run(cfg, s, envs, drain).0)
    decreases |envs|
  {
    if envs != [] {
      var s1 := Elapse(s, envs[0]);
      ElapseKeeps(cfg, s, envs[0]);
      TickKeeps(cfg, s1, envs[0], drain);
      TickEvolves(cfg, s1, envs[0], drain);
      var r := Tick(cfg, s1, envs[0], drain);
      ElapseEvolves(s, envs[0], r.s);
      if r.Go? {
        RunEvolves(cfg, r.s, envs[1..], drain);
        EvolvesThrough(s, r.s, Run(cfg, s, envs, drain).0);
      }
    }
  }
}
