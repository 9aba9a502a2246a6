/**
 What each phase of a tick writes, row by row, with every field written out: lease recovery apart (module
 CampaignKills), the replacement of twins, planning, verification tasks, one dispatch, and the retiring of theses.
 */
module CampaignRecords {
  import opened Options
  import opened Campaign
  import opened CampaignSafety

  // ---- one dispatch ------------------------------------------------------------------------------

  /** Nobody else holds a lease on the task that has time left when the worker asks for one. */
  predicate GetsLease(s: State, i: nat, env: RunEnv) {
    forall l :: 0 <= l < |s.leases| && s.leases[l].task == i && !s.leases[l].released && !s.leases[l].expired ==>
      s.leases[l].expires <= s.now + env.delay
  }

  /** The worker is abandoned, or its Director dies: its lease stays open. */
  predicate LeftOpen(env: RunEnv) { env.handleOk && (env.outcome.Abandoned? || env.outcome.DirectorDies?) }

  /** The lease a dispatch leaves: for the new worker, for the time to live, closed by release unless it is left open.
      */
  function LeaseLeft(cfg: Config, s: State, i: nat, env: RunEnv): Lease {
    Lease(i, s.workers, s.now + env.delay + cfg.ttl, !LeftOpen(env), false)
  }

  /** The candidates the worker claims, one for each model it names, in order. */
  function Claimed(s: State, t: Task, env: RunEnv): (cs: seq<Candidate>)
    ensures |cs| == |env.claims|
  {
    seq(|env.claims|, k requires 0 <= k < |env.claims| =>
      Candidate(t.thesis, s.workers, env.claims[k], t.twin, Unverified, None))
  }

  /** Every dispatch takes one worker's number and the time it takes; one without a lease does nothing else, and neither
      theses nor twins nor the planning counters are touched by any. */
  lemma {:induction false} DispatchFrame(cfg: Config, s: State, i: nat, env: RunEnv)
    requires i < |s.tasks|
    ensures var r := RunOne(cfg, s, i, env);
            r.workers == s.workers + 1 && r.started == s.started && r.theses == s.theses && r.current == s.current &&
            r.cursor == s.cursor && r.cycles == s.cycles &&
            r.now == s.now + env.delay + (if GetsLease(s, i, env) && env.handleOk then env.took else 0) &&
            (!GetsLease(s, i, env) ==>
               r.leases == s.leases && r.tasks == s.tasks && r.candidates == s.candidates &&
               r.verifications == s.verifications && r.settled == s.settled) &&
            (GetsLease(s, i, env) ==> r.leases == s.leases + [LeaseLeft(cfg, s, i, env)])
  {
    LeaseIsFree(s, i, env);
    var s1 := Start(cfg, s, i, env.delay);
    if GetsLease(s, i, env) && env.handleOk { WorkFrame(cfg, s1, s.tasks[i], s.workers, env); }
  }

  lemma {:induction false} LeaseIsFree(s: State, i: nat, env: RunEnv)
    ensures GetsLease(s, i, env) <==> !Leased(s.leases, s.now + env.delay, i)
  {
  }

  lemma {:induction false} WorkFrame(cfg: Config, s: State, t: Task, worker: nat, env: RunEnv)
    ensures var r := Work(cfg, s, t, worker, env);
            r.tasks == s.tasks && r.leases == s.leases && r.now == s.now + env.took && r.workers == s.workers &&
            r.started == s.started && r.theses == s.theses && r.current == s.current && r.cursor == s.cursor &&
            r.cycles == s.cycles
  {
  }

  /** A probe adds exactly the candidates it claims, and no verification; without lease or handle it adds none. */
  lemma {:induction false} ProbeRecords(cfg: Config, s: State, i: nat, env: RunEnv)
    requires i < |s.tasks| && s.tasks[i].kind.Probe?
    ensures var r := RunOne(cfg, s, i, env);
            r.verifications == s.verifications && r.settled == s.settled &&
            r.candidates == s.candidates +
              if GetsLease(s, i, env) && env.handleOk then Claimed(s, s.tasks[i], env) else []
  {
    LeaseIsFree(s, i, env);
    var s1 := Start(cfg, s, i, env.delay);
    assert s.candidates + [] == s.candidates;
    if GetsLease(s, i, env) && env.handleOk {
      var r := Work(cfg, s1, s.tasks[i], s.workers, env);
      assert r.candidates == s.candidates + Claimed(s, s.tasks[i], env);
    }
  }

  /** The record of a verification: by the worker, under another name if it is the claimant itself; of the candidate's
      claimant and producer; with a model chosen away from the producer's; and with the decision the evidence allows. */
  ghost predicate IsRecordOf(cfg: Config, rec: Verification, d: Candidate, c: nat, worker: nat, env: RunEnv) {
    rec.candidate == c && rec.claimant == d.worker && rec.producer == d.model &&
    rec.verifier == (if worker == d.worker then V(c) else W(worker)) &&
    (rec.verifierModel.None? <==> forall m <- cfg.pool :: m == d.model) &&
    (rec.verifierModel.Some? ==> rec.verifierModel.value in cfg.pool && rec.verifierModel.value != d.model) &&
    ((exists m <- cfg.pool :: cfg.family(m) != cfg.family(d.model)) ==>
       rec.verifierModel.Some? && cfg.family(rec.verifierModel.value) != cfg.family(d.model)) &&
    rec.reproduced == env.reproduced && rec.verdict == env.verdict &&
    (rec.status.Invalid? <==> env.verdict in {KnownGap, Boundary, Calibration, InvalidVerdict}) &&
    (rec.status.Verified? <==> env.reproduced == Some(true) && env.verdict in {Confirmed, Violation, Supported}) &&
    (rec.status.Rejected? <==> !rec.status.Invalid? && !rec.status.Verified?)
  }

  /** A verification writes nothing, its record, or its record and then the candidate's decision by it; one that returns
      writes both; and it touches no other candidate. */
  lemma {:induction false} VerificationRecords(cfg: Config, s: State, i: nat, env: RunEnv)
    requires i < |s.tasks| && s.tasks[i].kind.Verify? && s.tasks[i].kind.candidate < |s.candidates|
    ensures var r, c := RunOne(cfg, s, i, env), s.tasks[i].kind.candidate;
            var runs := GetsLease(s, i, env) && env.handleOk;
            var both := runs && (env.outcome.Returns? || env.written.RecordAndDecision?);
            var writes := both || (runs && env.written.RecordOnly?);
            |r.candidates| == |s.candidates| &&
            (forall d :: 0 <= d < |s.candidates| && d != c ==> r.candidates[d] == s.candidates[d]) &&
            (!writes ==> r.verifications == s.verifications) && (!both ==> r.candidates == s.candidates) &&
            (writes ==>
               |r.verifications| == |s.verifications| + 1 && s.verifications <= r.verifications &&
               IsRecordOf(cfg, r.verifications[|s.verifications|], s.candidates[c], c, s.workers, env)) &&
            (both ==> r.candidates[c] == s.candidates[c].(status := r.verifications[|s.verifications|].status,
                                                          verification := Some(|s.verifications|)))
  {
    LeaseIsFree(s, i, env);
    var s1, c := Start(cfg, s, i, env.delay), s.tasks[i].kind.candidate;
    if GetsLease(s, i, env) && env.handleOk { RecordIsRight(cfg, s1, c, s.workers, env); }
  }

  lemma {:induction false} RecordIsRight(cfg: Config, s: State, c: nat, worker: nat, env: RunEnv)
    requires c < |s.candidates|
    ensures IsRecordOf(cfg, VerdictOn(cfg, s.candidates[c], c, worker, env), s.candidates[c], c, worker, env)
  {
    VerifierIsIndependent(cfg, s.candidates[c].model);
    DecideVerified(env.reproduced, env.verdict);
    if m :| m in cfg.pool && cfg.family(m) != cfg.family(s.candidates[c].model) {
      var k :| 0 <= k < |cfg.pool| && cfg.pool[k] == m;
      assert PoolDecorrelates(cfg, s.candidates[c].model);
    }
  }

  // ---- leases ----------------------------------------------------------------------------------------

  /** The lease is neither released nor expired, and its time is up. */
  predicate RanOut(l: Lease, now: nat) { !l.released && !l.expired && l.expires <= now }

  /** An attempt is spent; the third blocks the task. */
  predicate Retried(t: Task, u: Task) {
    u == t.(attempts := t.attempts + 1, status := if t.attempts >= 2 then Blocked else Ready)
  }

  /** A recovery marks exactly the leases whose time is up, and retries exactly the running tasks that one of them
      names. */
  lemma {:induction false} RecoveryIsExact(s: State)
    ensures var r := RecoverLeases(s);
            r == s.(tasks := r.tasks, leases := r.leases) && |r.tasks| == |s.tasks| && |r.leases| == |s.leases| &&
            (forall l :: 0 <= l < |s.leases| ==>
               r.leases[l] == if RanOut(s.leases[l], s.now) then s.leases[l].(expired := true) else s.leases[l]) &&
            forall i :: 0 <= i < |s.tasks| ==>
              if s.tasks[i].status.Running? && exists l <- s.leases :: RanOut(l, s.now) && l.task == i
              then Retried(s.tasks[i], r.tasks[i]) else r.tasks[i] == s.tasks[i]
  {
    forall i | 0 <= i < |s.tasks|
      ensures LeaseRanOut(s.leases, s.now, i) <==> exists l <- s.leases :: RanOut(l, s.now) && l.task == i
    {
      if l :| l in s.leases && RanOut(l, s.now) && l.task == i {
        var k :| 0 <= k < |s.leases| && s.leases[k] == l;
        assert Due(s.leases[k], s.now);
      }
      if LeaseRanOut(s.leases, s.now, i) {
        var k :| 0 <= k < |s.leases| && Due(s.leases[k], s.now) && s.leases[k].task == i;
        assert s.leases[k] in s.leases;
      }
    }
  }

  // ---- twins ---------------------------------------------------------------------------------------

  /** A running task on a replaced twin costs an attempt, and the third blocks it; a ready one only moves. */
  predicate MovedTo(t: Task, u: Task, to: Twin) {
    if t.status.Running? then Retried(t.(twin := to), u) else u == t.(twin := to)
  }

  /** The health check of one twin: a healthy one, or one that comes back under its own name, changes nothing; otherwise
      the replacement stands for it, and the active tasks on it move. */
  lemma {:induction false} TwinCheckIsExact(s: State, base: Twin, env: TwinEnv)
    ensures var r, cur := RecoverTwin(s, base, env), if base in s.current then s.current[base] else base;
            if env.healthy || env.replacement == cur then r == s
            else
              r == s.(tasks := r.tasks, current := s.current[base := env.replacement]) && |r.tasks| == |s.tasks| &&
              forall i :: 0 <= i < |s.tasks| ==>
                if s.tasks[i].twin == cur && (s.tasks[i].status.Ready? || s.tasks[i].status.Running?)
                then MovedTo(s.tasks[i], r.tasks[i], env.replacement)
                else r.tasks[i] == s.tasks[i]
  {
  }

  predicate DistinctTwins(cfg: Config) { forall j, k :: 0 <= j < k < |cfg.twins| ==> cfg.twins[j] != cfg.twins[k] }

  function StandsFor(s: State, base: Twin): Twin { if base in s.current then s.current[base] else base }

  /** The pass checks every twin of the manifest: afterwards each stands for itself as before if it was healthy, and its
      replacement stands for it if it was not. */
  lemma {:induction false} EveryTwinIsChecked(cfg: Config, s: State, env: nat -> TwinEnv, k: nat, j: nat)
    requires DistinctTwins(cfg) && j < |cfg.twins|
    ensures var r := RecoverTwins(cfg, s, env, k);
            StandsFor(r, cfg.twins[j]) ==
              if j >= k && !env(j).healthy then env(j).replacement else StandsFor(s, cfg.twins[j])
    decreases |cfg.twins| - k
  {
    if k < |cfg.twins| { EveryTwinIsChecked(cfg, RecoverTwin(s, cfg.twins[k], env(k)), env, k + 1, j); }
  }

  /** Nobody is replaced by this twin in the rest of the pass. */
  predicate NobodyTakes(cfg: Config, env: nat -> TwinEnv, k: nat, twin: Twin) {
    forall j :: k <= j < |cfg.twins| ==> env(j).replacement != twin
  }

  /** No active task is left on a twin that was replaced, unless another was replaced by it. */
  lemma {:induction false} FailedTwinsAreLeft(cfg: Config, s: State, env: nat -> TwinEnv, k: nat, j: nat, i: nat)
    requires DistinctTwins(cfg) && k <= j < |cfg.twins| && !env(j).healthy && i < |s.tasks|
    requires var failed := StandsFor(s, cfg.twins[j]); NobodyTakes(cfg, env, k, failed)
    ensures var r := RecoverTwins(cfg, s, env, k);
            |r.tasks| == |s.tasks| && (r.tasks[i].Active() ==> r.tasks[i].twin != StandsFor(s, cfg.twins[j]))
    decreases |cfg.twins| - k
  {
    var s1 := RecoverTwin(s, cfg.twins[k], env(k));
    if k == j { TwinsStayLeft(cfg, s1, env, k + 1, StandsFor(s, cfg.twins[j]), i); }
    else { FailedTwinsAreLeft(cfg, s1, env, k + 1, j, i); }
  }

  lemma {:induction false} TwinsStayLeft(cfg: Config, s: State, env: nat -> TwinEnv, k: nat, twin: Twin, i: nat)
    requires i < |s.tasks| && (s.tasks[i].Active() ==> s.tasks[i].twin != twin) && NobodyTakes(cfg, env, k, twin)
    ensures var r := RecoverTwins(cfg, s, env, k);
            |r.tasks| == |s.tasks| && (r.tasks[i].Active() ==> r.tasks[i].twin != twin)
    decreases |cfg.twins| - k
  {
    if k < |cfg.twins| { TwinsStayLeft(cfg, RecoverTwin(s, cfg.twins[k], env(k)), env, k + 1, twin, i); }
  }

  /** What follows in the preparation of a tick touches no task that was there, no lease and no twin. */
  lemma {:induction false} PreparedTasksAreMoved(cfg: Config, s: State, env: TickEnv, drain: bool, i: nat)
    requires cfg.twins != [] && i < |s.tasks|
    ensures var r, p := RecoverTwins(cfg, RecoverLeases(s), env.twins, 0), Prepare(cfg, s, env, drain);
            |r.tasks| == |s.tasks| && i < |p.tasks| && p.tasks[i] == r.tasks[i] && p.current == r.current &&
            p.leases == RecoverLeases(s).leases
  {
    var s1 := RecoverLeases(s);
    var s2 := RecoverTwins(cfg, s1, env.twins, 0);
    TwinsKeepTheRest(cfg, s1, env.twins, 0);
    var p := PlanIfNeeded(cfg, s2, env);
    SchedulingAppends(cfg, p, OpenTheses(cfg, p.theses), 0);
    SchedulingKeepsTheRest(cfg, p, OpenTheses(cfg, p.theses), 0);
    var s3 := if drain then s2 else ScheduleTheses(cfg, p, OpenTheses(cfg, p.theses), 0);
    var _, _ := VerificationsAreScheduled(s3, s3.tasks, 0);
  }

  lemma {:induction false} TwinsKeepTheRest(cfg: Config, s: State, env: nat -> TwinEnv, k: nat)
    ensures var r := RecoverTwins(cfg, s, env, k);
            r == s.(tasks := r.tasks, current := r.current) && |r.tasks| == |s.tasks|
    decreases |cfg.twins| - k
  {
    if k < |cfg.twins| { TwinsKeepTheRest(cfg, RecoverTwin(s, cfg.twins[k], env(k)), env, k + 1); }
  }

  lemma {:induction false} SchedulingKeepsTheRest(cfg: Config, s: State, q: seq<nat>, made: nat)
    requires cfg.twins != [] && InRange(q, |s.theses|)
    ensures var r := ScheduleTheses(cfg, s, q, made);
            r == s.(tasks := r.tasks, theses := r.theses, cursor := r.cursor)
    decreases |q|
  {
    if q != [] && made < MAX_NEW_TASKS {
      var s1 := ScheduleThesis(cfg, s, q[0]);
      SchedulingKeepsTheRest(cfg, s1, q[1..], made + |s1.tasks| - |s.tasks|);
    }
  }

  // ---- planning ----------------------------------------------------------------------------------------

  /** The `k`-th proposal is well formed, and the first with its fingerprint. */
  predicate FirstProposal(ps: seq<Proposal>, k: nat) {
    k < |ps| && ps[k].wellFormed &&
    forall j :: 0 <= j < k && ps[j].wellFormed ==> ps[j].fingerprint != ps[k].fingerprint
  }

  predicate Known(theses: seq<Thesis>, fingerprint: nat) {
    exists h :: 0 <= h < |theses| && theses[h].fingerprint == fingerprint
  }

  predicate ThesisOf(t: Thesis, p: Proposal) { t == Thesis(p.fingerprint, p.priority, Open) }

  /** After a planning cycle every well-formed proposal is known, and each thesis added is that of the first proposal
      with its fingerprint, unknown before: open, with that proposal's priority. */
  lemma {:induction false} ProposalsBecomeTheses(theses: seq<Thesis>, ps: seq<Proposal>)
    ensures var r := ProposeAll(theses, ps);
            theses <= r && (forall k :: 0 <= k < |ps| && ps[k].wellFormed ==> Known(r, ps[k].fingerprint)) &&
            forall h :: |theses| <= h < |r| ==>
              !Known(theses, r[h].fingerprint) && exists k: nat :: FirstProposal(ps, k) && ThesisOf(r[h], ps[k])
    decreases |ps|
  {
    if ps != [] {
      var next, rest := Propose(theses, ps[0]), ps[1..];
      var r := ProposeAll(theses, ps);
      ProposalsBecomeTheses(next, rest);
      forall k | 0 <= k < |ps| && ps[k].wellFormed ensures Known(r, ps[k].fingerprint) {
        if k == 0 {
          assert Known(next, ps[0].fingerprint) by {
            if next == theses {} else { assert next[|theses|].fingerprint == ps[0].fingerprint; }
          }
          var h :| 0 <= h < |next| && next[h].fingerprint == ps[0].fingerprint;
          assert r[h].fingerprint == ps[0].fingerprint;
        } else {
          assert rest[k - 1] == ps[k];
        }
      }
      forall h | |theses| <= h < |r|
        ensures !Known(theses, r[h].fingerprint) && exists k: nat :: FirstProposal(ps, k) && ThesisOf(r[h], ps[k])
      {
        if h < |next| {
          assert r[h] == next[h] && FirstProposal(ps, 0) && ThesisOf(r[h], ps[0]);
        } else {
          var k: nat :| FirstProposal(rest, k) && ThesisOf(r[h], rest[k]);
          assert forall g :: 0 <= g < |theses| ==> next[g] == theses[g];
          LaterProposal(theses, ps, k, r[h].fingerprint);
          assert ThesisOf(r[h], ps[k + 1]);
        }
      }
    }
  }

  lemma {:induction false} LaterProposal(theses: seq<Thesis>, ps: seq<Proposal>, k: nat, fingerprint: nat)
    requires ps != [] && FirstProposal(ps[1..], k) && ps[1..][k].fingerprint == fingerprint
    requires !Known(Propose(theses, ps[0]), fingerprint)
    ensures FirstProposal(ps, k + 1)
  {
    var next := Propose(theses, ps[0]);
    assert ps[1..][k] == ps[k + 1];
    if ps[0].wellFormed {
      if next != theses { assert next[|theses|].fingerprint == ps[0].fingerprint; }
      assert ps[0].fingerprint != fingerprint;
    }
    forall j | 0 <= j < k + 1 && ps[j].wellFormed ensures ps[j].fingerprint != ps[k + 1].fingerprint {
      if j > 0 { assert ps[1..][j - 1] == ps[j]; }
    }
  }

  // ---- probes -----------------------------------------------------------------------------------------

  /** A ready or running probe of the thesis is on the twin. */
  predicate ProbeGoesOn(tasks: seq<Task>, h: nat, twin: Twin) {
    exists t <- tasks :: t.kind.Probe? && t.thesis == h && t.twin == twin && (t.status.Ready? || t.status.Running?)
  }

  /** A probe is made unless one goes on there; it is ready, of the thesis's priority, and new. */
  lemma {:induction false} ProbeIsMadeExactly(tasks: seq<Task>, h: nat, priority: int, twin: Twin, now: nat)
    ensures MakeProbe(tasks, h, priority, twin, now) ==
            if ProbeGoesOn(tasks, h, twin) then tasks else tasks + [Task(h, twin, twin, Probe, priority, now, Ready, 0)]
  {
    if ActiveProbe(tasks, h, twin) {
      var i :| 0 <= i < |tasks| && tasks[i].kind.Probe? && tasks[i].thesis == h && tasks[i].twin == twin &&
        tasks[i].Active();
      assert tasks[i] in tasks;
    }
    if ProbeGoesOn(tasks, h, twin) {
      var t :| t in tasks && t.kind.Probe? && t.thesis == h && t.twin == twin && (t.status.Ready? || t.status.Running?);
      var i :| 0 <= i < |tasks| && tasks[i] == t;
      assert tasks[i].Active();
    }
  }

  // ---- verification tasks ---------------------------------------------------------------------------------

  /** The candidates from `c` on that are unverified and had no verification task, in order. */
  function Unserved(candidates: seq<Candidate>, before: seq<Task>, c: nat): (q: seq<nat>)
    ensures forall k :: 0 <= k < |q| ==> c <= q[k] < |candidates|
    decreases |candidates| - c
  {
    if c >= |candidates| then []
    else
      (if candidates[c].status.Unverified? && forall i :: 0 <= i < |before| ==> before[i].kind != Verify(c) then [c]
       else []) +
      Unserved(candidates, before, c + 1)
  }

  /** A ready task of priority four, with the candidate's thesis and its twin. */
  predicate VerifiesCandidate(t: Task, candidates: seq<Candidate>, c: nat, now: nat) {
    c < |candidates| &&
    t == Task(candidates[c].thesis, candidates[c].twin, candidates[c].twin, Verify(c), 4, now, Ready, 0)
  }

  /** Each of them gets one such task, in order, and is then being verified; nothing else changes. */
  lemma {:induction false} VerificationsAreScheduled(s: State, before: seq<Task>, c: nat)
    returns (r: State, q: seq<nat>)
    ensures r == ScheduleVerifications(s, before, c) && q == Unserved(s.candidates, before, c)
    ensures r == s.(tasks := r.tasks, candidates := r.candidates) && |r.candidates| == |s.candidates|
    ensures s.tasks <= r.tasks && |r.tasks| == |s.tasks| + |q|
    ensures forall k :: 0 <= k < |q| ==> VerifiesCandidate(r.tasks[|s.tasks| + k], s.candidates, q[k], s.now)
    ensures forall d :: 0 <= d < |s.candidates| ==>
              r.candidates[d] == if d in q then s.candidates[d].(status := Verifying) else s.candidates[d]
    decreases |s.candidates| - c
  {
    if c >= |s.candidates| { r, q := s, []; }
    else if !s.candidates[c].status.Unverified? || HasVerifyTask(before, c) {
      r, q := VerificationsAreScheduled(s, before, c + 1);
    } else {
      var s1 := OneVerification(s, before, c);
      var rest;
      r, rest := VerificationsAreScheduled(s1, before, c + 1);
      q := OneMoreServed(s, c, s1, r, rest);
      UnservedSplits(s.candidates, before, c, s1.candidates);
    }
  }

  /** One candidate and then the others. */
  lemma {:induction false} OneMoreServed(s: State, c: nat, s1: State, r: State, rest: seq<nat>) returns (q: seq<nat>)
    requires c < |s.candidates| && (forall k :: 0 <= k < |rest| ==> c < rest[k] < |s.candidates|)
    requires |s1.tasks| == |s.tasks| + 1 && s.tasks <= s1.tasks &&
             s1 == s.(tasks := s1.tasks, candidates := s1.candidates)
    requires VerifiesCandidate(s1.tasks[|s.tasks|], s.candidates, c, s.now)
    requires s1.candidates == s.candidates[c := s.candidates[c].(status := Verifying)]
    requires r == s1.(tasks := r.tasks, candidates := r.candidates) && |r.candidates| == |s1.candidates|
    requires s1.tasks <= r.tasks && |r.tasks| == |s1.tasks| + |rest|
    requires forall k :: 0 <= k < |rest| ==> VerifiesCandidate(r.tasks[|s1.tasks| + k], s1.candidates, rest[k], s.now)
    requires forall d :: 0 <= d < |s.candidates| ==>
               r.candidates[d] == if d in rest then s1.candidates[d].(status := Verifying) else s1.candidates[d]
    ensures q == [c] + rest && r == s.(tasks := r.tasks, candidates := r.candidates)
    ensures s.tasks <= r.tasks && |r.tasks| == |s.tasks| + |q|
    ensures forall k :: 0 <= k < |q| ==> VerifiesCandidate(r.tasks[|s.tasks| + k], s.candidates, q[k], s.now)
    ensures forall d :: 0 <= d < |s.candidates| ==>
              r.candidates[d] == if d in q then s.candidates[d].(status := Verifying) else s.candidates[d]
  {
    q := [c] + rest;
    assert r.tasks[|s.tasks|] == s1.tasks[|s.tasks|];
    TasksInOrder(r.tasks, |s.tasks|, s.candidates, s1.candidates, c, rest, s.now);
  }

  /** The state after one candidate got its task. */
  lemma {:induction false} OneVerification(s: State, before: seq<Task>, c: nat) returns (s1: State)
    requires c < |s.candidates| && s.candidates[c].status.Unverified? && !HasVerifyTask(before, c)
    ensures ScheduleVerifications(s, before, c) == ScheduleVerifications(s1, before, c + 1)
    ensures |s1.tasks| == |s.tasks| + 1 && s.tasks <= s1.tasks &&
            s1 == s.(tasks := s1.tasks, candidates := s1.candidates)
    ensures VerifiesCandidate(s1.tasks[|s.tasks|], s.candidates, c, s.now)
    ensures s1.candidates == s.candidates[c := s.candidates[c].(status := Verifying)]
  {
    var d := s.candidates[c];
    s1 := s.(tasks := s.tasks + [Task(d.thesis, d.twin, d.twin, Verify(c), VERIFY_PRIORITY, s.now, Ready, 0)],
             candidates := s.candidates[c := d.(status := Verifying)]);
  }

  lemma {:induction false} UnservedSplits(candidates: seq<Candidate>, before: seq<Task>, c: nat, next: seq<Candidate>)
    requires c < |candidates| && candidates[c].status.Unverified? && !HasVerifyTask(before, c)
    requires next == candidates[c := candidates[c].(status := Verifying)]
    ensures Unserved(candidates, before, c) == [c] + Unserved(next, before, c + 1)
  {
    UnservedAfter(candidates, next, before, c + 1);
  }

  /** The tasks of the first and of the rest are the tasks of all. */
  lemma {:induction false} TasksInOrder(tasks: seq<Task>, n: nat, candidates: seq<Candidate>, next: seq<Candidate>,
                                        c: nat,
                                        rest: seq<nat>, now: nat)
    requires |tasks| == n + 1 + |rest| && VerifiesCandidate(tasks[n], candidates, c, now)
    requires |next| == |candidates| && forall d :: 0 <= d < |next| && d != c ==> next[d] == candidates[d]
    requires forall k :: 0 <= k < |rest| ==> rest[k] > c && VerifiesCandidate(tasks[n + 1 + k], next, rest[k], now)
    ensures var q := [c] + rest; forall k :: 0 <= k < |q| ==> VerifiesCandidate(tasks[n + k], candidates, q[k], now)
  {
    var q := [c] + rest;
    forall k | 0 <= k < |q| ensures VerifiesCandidate(tasks[n + k], candidates, q[k], now) {
      if k > 0 { assert VerifiesCandidate(tasks[n + 1 + (k - 1)], next, rest[k - 1], now); }
    }
  }

  lemma {:induction false} UnservedAfter(a: seq<Candidate>, b: seq<Candidate>, before: seq<Task>, c: nat)
    requires |a| == |b| && forall d :: c <= d < |a| ==> a[d] == b[d]
    ensures Unserved(a, before, c) == Unserved(b, before, c)
    decreases |a| - c
  {
    if c < |a| { UnservedAfter(a, b, before, c + 1); }
  }

  // ---- theses are retired -------------------------------------------------------------------------------------

  /** A thesis is exhausted exactly when it was, or it has tasks and all of them are finished. */
  lemma {:induction false} ThesesRetireExactly(s: State, h: nat)
    requires h < |s.theses|
    ensures var r := UpdateTheses(s);
            r == s.(theses := r.theses) && |r.theses| == |s.theses| &&
            r.theses[h] == s.theses[h].(status := r.theses[h].status) &&
            (r.theses[h].status.Exhausted? <==>
               s.theses[h].status.Exhausted? ||
               ((exists t <- s.tasks :: t.thesis == h) &&
                forall t <- s.tasks :: t.thesis == h ==> t.status.Done? || t.status.Blocked?)) &&
            (!r.theses[h].status.Exhausted? ==> r.theses[h] == s.theses[h])
  {
    if t :| t in s.tasks && t.thesis == h {
      var i :| 0 <= i < |s.tasks| && s.tasks[i] == t;
    }
    var finished := forall t <- s.tasks :: t.thesis == h ==> t.status.Done? || t.status.Blocked?;
    if (exists t <- s.tasks :: t.thesis == h) && finished {
      forall i | 0 <= i < |s.tasks| && s.tasks[i].thesis == h ensures !s.tasks[i].Active() {
        assert s.tasks[i] in s.tasks;
      }
    }
    if ThesisSpent(s.tasks, h) {
      var i :| 0 <= i < |s.tasks| && s.tasks[i].thesis == h;
      assert s.tasks[i] in s.tasks;
      forall t | t in s.tasks && t.thesis == h ensures t.status.Done? || t.status.Blocked? {
        var j :| 0 <= j < |s.tasks| && s.tasks[j] == t;
        assert !s.tasks[j].Active();
      }
    }
  }

  /** A tick that its Director survives retires theses in this way, by the tasks it leaves. */
  lemma {:induction false} TickRetires(cfg: Config, s: State, env: TickEnv, drain: bool, h: nat)
    requires var r := Finish(cfg, s, env, drain); r.Go? || !r.reason.DirectorDied?
    requires var d := Dispatch(cfg, s, Take(ReadyTasks(cfg, s.tasks), cfg.concurrency), 0, env.runs).s; h < |d.theses|
    ensures var r := Finish(cfg, s, env, drain).s;
            h < |r.theses| &&
            ((exists t <- r.tasks :: t.thesis == h) &&
             (forall t <- r.tasks :: t.thesis == h ==> t.status.Done? || t.status.Blocked?) ==>
               r.theses[h].status.Exhausted?)
  {
    ThesesRetireExactly(Dispatch(cfg, s, Take(ReadyTasks(cfg, s.tasks), cfg.concurrency), 0, env.runs).s, h);
  }

  // ---- the start of a life ---------------------------------------------------------------------------------------

  /** A fresh Director finds the ledgers as they were, every twin standing for itself, and the campaign's start unless
      it is the first; one that resumes recovers the leases whose time was up. */
  lemma {:induction false} BootIsExact(cfg: Config, s: State, life: Life)
    ensures var b := Booted(cfg, s, life);
            b.now == s.now + life.downtime && (forall t: Twin :: StandsFor(b, t) == t) &&
            b.started == (if s.started.Some? then s.started else Some(b.now)) &&
            b == (if life.resume then RecoverLeases(s.(now := b.now)) else s).(
                   now := b.now, current := b.current, started := b.started)
  {
  }

  // ---- the start of the campaign ---------------------------------------------------------------------------------

  lemma {:induction false} RunKeepsStart(cfg: Config, s: State, envs: seq<TickEnv>, drain: bool)
    requires cfg.twins != []
    ensures Run(cfg, s, envs, drain).0.started == s.started
    decreases |envs|
  {
    if envs != [] {
      var s1 := Elapse(s, envs[0]);
      TickKeepsStart(cfg, s1, envs[0], drain);
      var r := Tick(cfg, s1, envs[0], drain);
      if r.Go? { RunKeepsStart(cfg, r.s, envs[1..], drain); }
    }
  }

  lemma {:induction false} TickKeepsStart(cfg: Config, s: State, env: TickEnv, drain: bool)
    requires cfg.twins != []
    ensures Tick(cfg, s, env, drain).s.started == s.started
  {
    if HeadStop(cfg, s, env).None? {
      PrepareKeepsStart(cfg, s, env, drain);
      var p := Prepare(cfg, s, env, drain);
      DispatchKeepsStart(cfg, p, Take(ReadyTasks(cfg, p.tasks), cfg.concurrency), 0, env.runs);
    }
  }

  lemma {:induction false} DispatchKeepsStart(cfg: Config, s: State, q: seq<nat>, k: nat, runs: nat -> RunEnv)
    requires InRange(q, |s.tasks|)
    ensures Dispatch(cfg, s, q, k, runs).s.started == s.started
    decreases |q| - k
  {
    if k < |q| {
      DispatchFrame(cfg, s, q[k], runs(k));
      if !Dies(s, q[k], runs(k)) { DispatchKeepsStart(cfg, RunOne(cfg, s, q[k], runs(k)), q, k + 1, runs); }
    }
  }

  lemma {:induction false} PrepareKeepsStart(cfg: Config, s: State, env: TickEnv, drain: bool)
    requires cfg.twins != []
    ensures Prepare(cfg, s, env, drain).started == s.started
  {
    TwinsKeepTheRest(cfg, RecoverLeases(s), env.twins, 0);
    var s2 := RecoverTwins(cfg, RecoverLeases(s), env.twins, 0);
    var p := PlanIfNeeded(cfg, s2, env);
    SchedulingKeepsTheRest(cfg, p, OpenTheses(cfg, p.theses), 0);
    var s3 := if drain then s2 else ScheduleTheses(cfg, p, OpenTheses(cfg, p.theses), 0);
    var _, _ := VerificationsAreScheduled(s3, s3.tasks, 0);
  }

  /** The wall clock of a campaign runs from its first boot, however often its Director is restarted. */
  lemma {:induction false} ClockRunsFromFirstBoot(cfg: Config, now: nat, lives: seq<Life>)
    requires cfg.twins != [] && lives != []
    ensures LiveAll(cfg, Blank(now), lives).started == Some(now + lives[0].downtime)
  {
    var b := Booted(cfg, Blank(now), lives[0]);
    RunKeepsStart(cfg, b, lives[0].ticks, lives[0].drain);
    LivesKeepStart(cfg, Live(cfg, Blank(now), lives[0]).0, lives[1..]);
  }

  lemma {:induction false} LivesKeepStart(cfg: Config, s: State, lives: seq<Life>)
    requires cfg.twins != [] && s.started.Some?
    ensures LiveAll(cfg, s, lives).started == s.started
    decreases |lives|
  {
    if lives != [] {
      RunKeepsStart(cfg, Booted(cfg, s, lives[0]), lives[0].ticks, lives[0].drain);
      LivesKeepStart(cfg, Live(cfg, s, lives[0]).0, lives[1..]);
    }
  }
}
