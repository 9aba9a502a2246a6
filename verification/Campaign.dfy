/**
 The durable state of one campaign and the meaning of one engine tick.

 A table is the folded view of a ledger: row `i` is the record whose id was the
 `i`-th handed out by `next_id` (module ControlStore proves that appending a record
 under a fresh id extends the folded view at its end and that an update changes one
 row in place).  What the outside world decides (clock, health checks, what a
 worker did, what the replay and the judge returned) arrives as a TickEnv.
 */
module Campaign {
  import opened Options

  type Twin = string
  type Model = string

  const MAX_TASK_ATTEMPTS: nat := 3
  const MAX_NEW_TASKS: nat := 12
  const REPLICATE_PRIORITY_MIN: int := 3
  const VERIFY_PRIORITY: int := 4

  // ---- rows ------------------------------------------------------------------

  datatype TaskStatus = Ready | Running(lease: nat) | Done | Blocked

  datatype Kind = Probe | Verify(candidate: nat)

  /** `home` is the twin named by the task_created event; `twin` may later be re-homed. */
  datatype Task = Task(thesis: nat, home: Twin, twin: Twin, kind: Kind, priority: int,
                       created: nat, status: TaskStatus, attempts: nat)
  {
    predicate Active() { status.Ready? || status.Running? }
  }

  datatype Lease = Lease(task: nat, owner: nat, expires: nat, released: bool, expired: bool)
  {
    /** Neither released nor marked expired. */
    predicate Open() { !released && !expired }
  }

  datatype ThesisStatus = Open | Scheduled | Exhausted

  datatype Thesis = Thesis(fingerprint: nat, priority: int, status: ThesisStatus)

  datatype CandidateStatus = Unverified | Verifying | Verified | Rejected | Invalid

  datatype Candidate = Candidate(thesis: nat, worker: nat, model: Model, twin: Twin,
                                 status: CandidateStatus, verification: Option<nat>)
  {
    predicate Decided() { status.Verified? || status.Rejected? || status.Invalid? }
  }

  /** Workers are named "W-n"; a verifier that would be the claimant is renamed "V-c". */
  datatype WorkerName = W(n: nat) | V(candidate: nat)

  datatype Verdict = KnownGap | Boundary | Calibration | InvalidVerdict
                   | Confirmed | Violation | Supported
                   | Refuted | NoViolation | Safe | Other

  datatype Verification = Verification(candidate: nat, claimant: nat, verifier: WorkerName,
                                       producer: Model, verifierModel: Option<Model>,
                                       reproduced: Option<bool>, verdict: Verdict,
                                       status: CandidateStatus)

  /** `settled` are the verifications whose decision reached the candidates' ledger. */
  datatype State = State(now: nat, started: Option<nat>, tasks: seq<Task>, leases: seq<Lease>, workers: nat,
                         theses: seq<Thesis>, candidates: seq<Candidate>,
                         verifications: seq<Verification>, settled: set<nat>, cursor: nat, cycles: nat,
                         toolCalls: nat, modelCalls: nat, current: map<Twin, Twin>)

  /** `rank` places an id's text among the other ids ("TASK-1000" sorts before "TASK-999"). */
  datatype Config = Config(twins: seq<Twin>, pool: seq<Model>, family: Model -> string,
                           rank: nat -> nat, ttl: nat, concurrency: nat, minCycles: nat,
                           maxActions: Option<nat>, maxModelCalls: Option<nat>, maxWall: Option<nat>)

  // ---- what the outside world decides ------------------------------------------

  datatype StopReason = Finished | ModelUnusable | PausedWorker

  datatype Progress = Nothing | RecordOnly | RecordAndDecision

  datatype Outcome = Abandoned | DirectorDies | Fails | Returns(reason: StopReason)

  /** One dispatched task: time passing before the lease, the twin handle, and the worker's doings.
      `claims` are the producer models of the candidates it recorded; `written` says how far a
      verification that did not return had come with its two appends. */
  datatype RunEnv = RunEnv(delay: nat, handleOk: bool, took: nat, outcome: Outcome, claims: seq<Model>,
                           toolCalls: nat, modelCalls: nat,
                           written: Progress, reproduced: Option<bool>, verdict: Verdict)

  datatype TwinEnv = TwinEnv(healthy: bool, replacement: Twin)

  datatype Proposal = Proposal(wellFormed: bool, fingerprint: nat, priority: int)

  /** `twins` and `runs` answer for every position asked, so they are total.  `late` and `lateModels` are the numbers of
      tool calls and of model calls that workers of a Director that died recorded since the last look. */
  datatype TickEnv = TickEnv(elapsed: nat, late: nat, lateModels: nat, stop: bool, pause: bool, costOut: bool,
                             twins: nat -> TwinEnv, proposals: seq<Proposal>, planCalls: nat,
                             runs: nat -> RunEnv)

  // ---- ordered queues -----------------------------------------------------------

  /** Stable insertion: `i` goes after everything it does not precede. */
  function Insert(q: seq<nat>, i: nat, before: (nat, nat) -> bool): seq<nat> {
    if q == [] || before(i, q[0]) then [i] + q else [q[0]] + Insert(q[1..], i, before)
  }

  /** The ids below `n` that `keep` accepts, sorted by `before`. */
  function Queue(n: nat, keep: nat -> bool, before: (nat, nat) -> bool): seq<nat> {
    if n == 0 then []
    else if keep(n - 1) then Insert(Queue(n - 1, keep, before), n - 1, before)
    else Queue(n - 1, keep, before)
  }

  predicate InRange(q: seq<nat>, n: nat) { forall k :: 0 <= k < |q| ==> q[k] < n }

  predicate TaskBefore(cfg: Config, tasks: seq<Task>, i: nat, j: nat) {
    i < |tasks| && j < |tasks| &&
    (tasks[i].priority > tasks[j].priority ||
     (tasks[i].priority == tasks[j].priority &&
      (tasks[i].created < tasks[j].created ||
       (tasks[i].created == tasks[j].created && cfg.rank(i) < cfg.rank(j)))))
  }

  function ReadyTasks(cfg: Config, tasks: seq<Task>): (q: seq<nat>)
    ensures InRange(q, |tasks|)
    ensures forall i: nat :: i in q <==> i < |tasks| && tasks[i].status.Ready?
  {
    var keep := (i: nat) => i < |tasks| && tasks[i].status.Ready?;
    var before := (i: nat, j: nat) => TaskBefore(cfg, tasks, i, j);
    QueueMembers(|tasks|, keep, before);
    Queue(|tasks|, keep, before)
  }

  predicate ThesisBefore(cfg: Config, theses: seq<Thesis>, i: nat, j: nat) {
    i < |theses| && j < |theses| &&
    (theses[i].priority > theses[j].priority ||
     (theses[i].priority == theses[j].priority && cfg.rank(i) < cfg.rank(j)))
  }

  function OpenTheses(cfg: Config, theses: seq<Thesis>): (q: seq<nat>)
    ensures InRange(q, |theses|)
    ensures forall h: nat :: h in q <==> h < |theses| && theses[h].status.Open?
  {
    var keep := (h: nat) => h < |theses| && theses[h].status.Open?;
    var before := (g: nat, h: nat) => ThesisBefore(cfg, theses, g, h);
    QueueMembers(|theses|, keep, before);
    Queue(|theses|, keep, before)
  }

  // ---- budgets --------------------------------------------------------------------

  datatype Stop = KillSwitch | Paused | ActionBudget | ModelCallBudget | WallBudget | CostBudget
                | DirectorDied | NoOpenWork | Drained | Completed

  predicate Spent(budget: Option<nat>, used: int) { budget.Some? && used >= budget.value }

  function BudgetStop(cfg: Config, s: State, costOut: bool): Option<Stop> {
    if Spent(cfg.maxActions, s.toolCalls) then Some(ActionBudget)
    else if Spent(cfg.maxModelCalls, s.modelCalls) then Some(ModelCallBudget)
    else if Spent(cfg.maxWall, if s.started.Some? then s.now - s.started.value else 0) then Some(WallBudget)
    else if costOut then Some(CostBudget)
    else None
  }

  // ---- leases and requeueing ------------------------------------------------------

  function Requeue(t: Task): Task {
    t.(attempts := t.attempts + 1,
       status := if t.attempts + 1 >= MAX_TASK_ATTEMPTS then Blocked else Ready)
  }

  predicate Due(l: Lease, now: nat) { l.Open() && l.expires <= now }

  /** Some open lease on task `i` has run out. */
  predicate LeaseRanOut(leases: seq<Lease>, now: nat, i: nat) {
    exists l :: 0 <= l < |leases| && Due(leases[l], now) && leases[l].task == i
  }

  /** Some open lease on task `i` has time left. */
  predicate Leased(leases: seq<Lease>, now: nat, i: nat) {
    exists l :: 0 <= l < |leases| && leases[l].Open() && leases[l].expires > now && leases[l].task == i
  }

  function Reaped(leases: seq<Lease>, now: nat): seq<Lease> {
    seq(|leases|, l requires 0 <= l < |leases| =>
      if Due(leases[l], now) then leases[l].(expired := true) else leases[l])
  }

  /** Every open lease that ran out is ended, and each running task that had one is requeued once. */
  function RecoverLeases(s: State): State {
    s.(leases := Reaped(s.leases, s.now),
       tasks := seq(|s.tasks|, i requires 0 <= i < |s.tasks| =>
         if s.tasks[i].status.Running? && LeaseRanOut(s.leases, s.now, i) then Requeue(s.tasks[i]) else s.tasks[i]))
  }

  // ---- twins ---------------------------------------------------------------------

  function CurrentTwin(current: map<Twin, Twin>, t: Twin): Twin {
    if t in current then current[t] else t
  }

  function Rehomed(t: Task, failed: Twin, to: Twin): Task {
    if t.twin == failed && t.Active() then
      (if t.status.Running? then Requeue(t.(twin := to)) else t.(twin := to))
    else t
  }

  function RecoverTwin(s: State, base: Twin, env: TwinEnv): State {
    var cur := CurrentTwin(s.current, base);
    if env.healthy || env.replacement == cur then s
    else s.(current := s.current[base := env.replacement],
            tasks := seq(|s.tasks|, i requires 0 <= i < |s.tasks| => Rehomed(s.tasks[i], cur, env.replacement)))
  }

  /** Health-checks the assigned twins from the `k`-th on, in manifest order. */
  function RecoverTwins(cfg: Config, s: State, env: nat -> TwinEnv, k: nat): State
    decreases |cfg.twins| - k
  {
    if k >= |cfg.twins| then s else RecoverTwins(cfg, RecoverTwin(s, cfg.twins[k], env(k)), env, k + 1)
  }

  // ---- planning and probe scheduling -----------------------------------------------

  function Propose(theses: seq<Thesis>, p: Proposal): seq<Thesis> {
    if !p.wellFormed || (exists h :: 0 <= h < |theses| && theses[h].fingerprint == p.fingerprint) then theses
    else theses + [Thesis(p.fingerprint, p.priority, Open)]
  }

  function ProposeAll(theses: seq<Thesis>, ps: seq<Proposal>): seq<Thesis>
    decreases |ps|
  {
    if ps == [] then theses else ProposeAll(Propose(theses, ps[0]), ps[1..])
  }

  predicate WantsPlan(cfg: Config, s: State) {
    s.cycles < cfg.minCycles ||
    ((forall i :: 0 <= i < |s.tasks| ==> !s.tasks[i].status.Ready?) &&
     (forall h :: 0 <= h < |s.theses| ==> !s.theses[h].status.Open?))
  }

  function PlanIfNeeded(cfg: Config, s: State, env: TickEnv): State {
    if WantsPlan(cfg, s)
    then s.(theses := ProposeAll(s.theses, env.proposals), cycles := s.cycles + 1,
            modelCalls := s.modelCalls + env.planCalls)
    else s
  }

  /** At most `n` steps of the round robin from `cur`, skipping `avoid`. */
  function NextTwin(twins: seq<Twin>, cur: nat, avoid: Option<Twin>, n: nat): (r: (Twin, nat))
    requires twins != []
    decreases n
  {
    if n == 0 then (twins[0], cur)
    else if Some(twins[cur % |twins|]) != avoid then (twins[cur % |twins|], cur + 1)
    else NextTwin(twins, cur + 1, avoid, n - 1)
  }

  predicate ActiveProbe(tasks: seq<Task>, thesis: nat, twin: Twin) {
    exists i :: 0 <= i < |tasks| && tasks[i].kind.Probe? && tasks[i].thesis == thesis &&
                tasks[i].twin == twin && tasks[i].Active()
  }

  function MakeProbe(tasks: seq<Task>, h: nat, priority: int, twin: Twin, now: nat): (r: seq<Task>)
    ensures tasks <= r
  {
    if ActiveProbe(tasks, h, twin) then tasks
    else tasks + [Task(h, twin, twin, Probe, priority, now, Ready, 0)]
  }

  /** The task table and the cursor after thesis `h` got its probe, and its replica if it deserves one. */
  function ProbeThesis(cfg: Config, s: State, h: nat): (r: (seq<Task>, nat))
    requires cfg.twins != [] && h < |s.theses|
    ensures s.tasks <= r.0
  {
    var n := |cfg.twins|;
    var p := s.theses[h].priority;
    var first := NextTwin(cfg.twins, s.cursor, None, n);
    var t1 := MakeProbe(s.tasks, h, p, first.0, s.now);
    if p >= REPLICATE_PRIORITY_MIN && n > 1 then
      var second := NextTwin(cfg.twins, first.1, Some(first.0), n);
      (MakeProbe(t1, h, p, second.0, s.now), second.1)
    else (t1, first.1)
  }

  function ScheduleThesis(cfg: Config, s: State, h: nat): (r: State)
    requires cfg.twins != [] && h < |s.theses|
    ensures |r.theses| == |s.theses| && s.tasks <= r.tasks
  {
    var p := ProbeThesis(cfg, s, h);
    s.(tasks := p.0, cursor := p.1, theses := s.theses[h := s.theses[h].(status := Scheduled)])
  }

  /** The scheduling pass over the sorted open theses; `made` tasks were created so far. */
  function ScheduleTheses(cfg: Config, s: State, q: seq<nat>, made: nat): State
    requires cfg.twins != [] && InRange(q, |s.theses|)
    decreases |q|
  {
    if q == [] || made >= MAX_NEW_TASKS then s
    else
      var s1 := ScheduleThesis(cfg, s, q[0]);
      ScheduleTheses(cfg, s1, q[1..], made + |s1.tasks| - |s.tasks|)
  }

  // ---- verification scheduling -----------------------------------------------------

  predicate HasVerifyTask(tasks: seq<Task>, c: nat) {
    exists i :: 0 <= i < |tasks| && tasks[i].kind == Verify(c)
  }

  /** One verification task per unverified candidate that had none when the pass began. */
  function ScheduleVerifications(s: State, before: seq<Task>, c: nat): State
    decreases |s.candidates| - c
  {
    if c >= |s.candidates| then s
    else if !s.candidates[c].status.Unverified? || HasVerifyTask(before, c) then ScheduleVerifications(s, before, c + 1)
    else
      var d := s.candidates[c];
      ScheduleVerifications(
        s.(tasks := s.tasks + [Task(d.thesis, d.twin, d.twin, Verify(c), VERIFY_PRIORITY, s.now, Ready, 0)],
           candidates := s.candidates[c := d.(status := Verifying)]),
        before, c + 1)
  }

  // ---- verification -----------------------------------------------------------------

  /** The first model of the pool that is not excluded and of another family. */
  function DifferentFamily(pool: seq<Model>, family: Model -> string, producer: Model): Option<Model> {
    if pool == [] then None
    else if pool[0] != producer && family(pool[0]) != family(producer) then Some(pool[0])
    else DifferentFamily(pool[1..], family, producer)
  }

  function DifferentModel(pool: seq<Model>, producer: Model): Option<Model> {
    if pool == [] then None
    else if pool[0] != producer then Some(pool[0])
    else DifferentModel(pool[1..], producer)
  }

  function VerifierFor(cfg: Config, producer: Model): Option<Model> {
    var m := DifferentFamily(cfg.pool, cfg.family, producer);
    if m.Some? then m else DifferentModel(cfg.pool, producer)
  }

  function Decide(reproduced: Option<bool>, verdict: Verdict): CandidateStatus {
    if verdict.KnownGap? || verdict.Boundary? || verdict.Calibration? || verdict.InvalidVerdict? then Invalid
    else if reproduced == Some(true) && (verdict.Confirmed? || verdict.Violation? || verdict.Supported?) then Verified
    else Rejected
  }

  function VerdictOn(cfg: Config, d: Candidate, c: nat, worker: nat, env: RunEnv): Verification {
    Verification(c, d.worker, if worker == d.worker then V(c) else W(worker), d.model, VerifierFor(cfg, d.model),
                 env.reproduced, env.verdict, Decide(env.reproduced, env.verdict))
  }

  /** The first append of a verification: its record. */
  function RecordVerdict(cfg: Config, s: State, c: nat, worker: nat, env: RunEnv): State {
    if c >= |s.candidates| then s
    else s.(verifications := s.verifications + [VerdictOn(cfg, s.candidates[c], c, worker, env)])
  }

  /** Both appends: the record, and the candidate's update by it. */
  function VerifyCandidate(cfg: Config, s: State, c: nat, worker: nat, env: RunEnv): State {
    if c >= |s.candidates| then s
    else
      var d := s.candidates[c];
      s.(verifications := s.verifications + [VerdictOn(cfg, d, c, worker, env)],
         settled := s.settled + {|s.verifications|},
         candidates := s.candidates[c := d.(status := Decide(env.reproduced, env.verdict),
                                            verification := Some(|s.verifications|))])
  }

  // ---- dispatch ----------------------------------------------------------------------

  function Claim(s: State, t: Task, worker: nat, claims: seq<Model>): State {
    s.(candidates := s.candidates +
        seq(|claims|, k requires 0 <= k < |claims| => Candidate(t.thesis, worker, claims[k], t.twin, Unverified, None)))
  }

  /** A verification that returns has made both of its appends. */
  function Written(env: RunEnv): Progress { if env.outcome.Returns? then RecordAndDecision else env.written }

  /** What the executor leaves in the ledgers, whatever becomes of it afterwards. */
  function Work(cfg: Config, s: State, t: Task, worker: nat, env: RunEnv): State {
    var s1 := s.(now := s.now + env.took, modelCalls := s.modelCalls + env.modelCalls);
    match t.kind
    case Probe => Claim(s1.(toolCalls := s1.toolCalls + env.toolCalls), t, worker, env.claims)
    case Verify(c) =>
      match Written(env)
      case Nothing => s1
      case RecordOnly => RecordVerdict(cfg, s1, c, worker, env)
      case RecordAndDecision => VerifyCandidate(cfg, s1, c, worker, env)
  }

  function SetTask(s: State, i: nat, t: Task): State
    requires i < |s.tasks|
  {
    s.(tasks := s.tasks[i := t])
  }

  function Release(s: State, l: nat): State
    requires l < |s.leases|
  {
    s.(leases := s.leases[l := s.leases[l].(released := true)])
  }

  function AfterRun(s: State, i: nat, l: nat, kind: Kind, outcome: Outcome): State
    requires i < |s.tasks| && l < |s.leases|
  {
    match outcome
    case Abandoned => s
    case DirectorDies => s
    case Fails => SetTask(Release(s, l), i, Requeue(s.tasks[i]))
    case Returns(reason) =>
      if kind.Probe? && reason.ModelUnusable? then SetTask(Release(s, l), i, Requeue(s.tasks[i]))
      else if kind.Probe? && reason.PausedWorker? then SetTask(Release(s, l), i, s.tasks[i].(status := Ready))
      else SetTask(Release(s, l), i, s.tasks[i].(status := Done))
  }

  /** Worker `s.workers` takes the lease on task `i`, marks it running, and runs it. */
  function Start(cfg: Config, s: State, i: nat, delay: nat): State
    requires i < |s.tasks|
  {
    var now := s.now + delay;
    if Leased(s.leases, now, i) then s.(workers := s.workers + 1, now := now)
    else
      s.(workers := s.workers + 1, now := now,
         leases := s.leases + [Lease(i, s.workers, now + cfg.ttl, false, false)],
         tasks := s.tasks[i := s.tasks[i].(status := Running(|s.leases|))])
  }

  function RunOne(cfg: Config, s: State, i: nat, env: RunEnv): (r: State)
    requires i < |s.tasks|
    ensures |r.tasks| == |s.tasks|
  {
    var s1 := Start(cfg, s, i, env.delay);
    if Leased(s.leases, s1.now, i) then s1
    else
      var l := |s.leases|;
      if !env.handleOk then SetTask(Release(s1, l), i, Requeue(s1.tasks[i]))
      else AfterRun(Work(cfg, s1, s.tasks[i], s.workers, env), i, l, s.tasks[i].kind, env.outcome)
  }

  /** The Director dies inside this run (it needs a lease and a handle to get there). */
  predicate Dies(s: State, i: nat, env: RunEnv) {
    env.outcome.DirectorDies? && env.handleOk && !Leased(s.leases, s.now + env.delay, i)
  }

  datatype Dispatched = Dispatched(s: State, died: bool)

  /** Runs the queued tasks from the `k`-th on. */
  function Dispatch(cfg: Config, s: State, q: seq<nat>, k: nat, runs: nat -> RunEnv): Dispatched
    requires InRange(q, |s.tasks|)
    decreases |q| - k
  {
    if k >= |q| then Dispatched(s, false)
    else
      var s1 := RunOne(cfg, s, q[k], runs(k));
      if Dies(s, q[k], runs(k)) then Dispatched(s1, true)
      else Dispatch(cfg, s1, q, k + 1, runs)
  }

  function Take<T>(q: seq<T>, n: nat): seq<T> { if |q| <= n then q else q[..n] }

  // ---- maintenance and stopping ---------------------------------------------------------

  predicate ThesisSpent(tasks: seq<Task>, h: nat) {
    (exists i :: 0 <= i < |tasks| && tasks[i].thesis == h) &&
    (forall i :: 0 <= i < |tasks| && tasks[i].thesis == h ==> !tasks[i].Active())
  }

  function UpdateTheses(s: State): State {
    s.(theses := seq(|s.theses|, h requires 0 <= h < |s.theses| =>
         if !s.theses[h].status.Exhausted? && ThesisSpent(s.tasks, h)
         then s.theses[h].(status := Exhausted) else s.theses[h]))
  }

  predicate PendingTask(s: State) { exists i :: 0 <= i < |s.tasks| && s.tasks[i].Active() }

  predicate HasOpenWork(cfg: Config, s: State, draining: bool) {
    PendingTask(s) ||
    (!draining &&
     ((exists h :: 0 <= h < |s.theses| && !s.theses[h].status.Exhausted?) ||
      s.cycles < cfg.minCycles ||
      (exists c :: 0 <= c < |s.candidates| && !s.candidates[c].Decided())))
  }

  // ---- one tick, one run, one life --------------------------------------------------------

  datatype TickResult = Go(s: State) | Halt(s: State, reason: Stop)

  /** Everything a tick does before it dispatches. */
  function Prepare(cfg: Config, s: State, env: TickEnv, drain: bool): State
    requires cfg.twins != []
  {
    var s2 := RecoverTwins(cfg, RecoverLeases(s), env.twins, 0);
    var s3 := if drain then s2 else
                (var p := PlanIfNeeded(cfg, s2, env);
                 ScheduleTheses(cfg, p, OpenTheses(cfg, p.theses), 0));
    ScheduleVerifications(s3, s3.tasks, 0)
  }

  /** From dispatch to the end of the tick. */
  function Finish(cfg: Config, s: State, env: TickEnv, drain: bool): TickResult {
    var q := Take(ReadyTasks(cfg, s.tasks), cfg.concurrency);
    var d := Dispatch(cfg, s, q, 0, env.runs);
    if d.died then Halt(d.s, DirectorDied)
    else
      var r := UpdateTheses(d.s);
      if q == [] && !HasOpenWork(cfg, r, drain) then Halt(r, if drain then Drained else NoOpenWork)
      else Go(r)
  }

  /** The checks at the head of a tick: the kill switch, the pause file, the budgets. */
  function HeadStop(cfg: Config, s: State, env: TickEnv): Option<Stop> {
    if env.stop then Some(KillSwitch)
    else if env.pause then Some(Paused)
    else BudgetStop(cfg, s, env.costOut)
  }

  /** Time goes by between two ticks, and workers without a Director go on. */
  function Elapse(s: State, env: TickEnv): State {
    s.(now := s.now + env.elapsed, toolCalls := s.toolCalls + env.late, modelCalls := s.modelCalls + env.lateModels)
  }

  function Tick(cfg: Config, s: State, env: TickEnv, drain: bool): TickResult
    requires cfg.twins != []
  {
    match HeadStop(cfg, s, env)
    case Some(reason) => Halt(s, reason)
    case None => Finish(cfg, Prepare(cfg, s, env, drain), env, drain)
  }

  /** `run(max_ticks = |envs|, drain)`. */
  function Run(cfg: Config, s: State, envs: seq<TickEnv>, drain: bool): (r: (State, Stop))
    requires cfg.twins != []
    decreases |envs|
  {
    if envs == [] then (s, Completed)
    else
      match Tick(cfg, Elapse(s, envs[0]), envs[0], drain)
      case Halt(s1, reason) => (s1, reason)
      case Go(s1) => Run(cfg, s1, envs[1..], drain)
  }

  /** A fresh Director process over the same ledgers: the twin map lives in memory and is rebuilt. */
  function Boot(cfg: Config, s: State, downtime: nat): State {
    s.(now := s.now + downtime,
       current := map t | t in cfg.twins :: t,
       started := if s.started.Some? then s.started else Some(s.now + downtime))
  }

  /** One Director life: boot, optionally `resume`, then `run`. */
  datatype Life = Life(downtime: nat, resume: bool, drain: bool, ticks: seq<TickEnv>)

  function Booted(cfg: Config, s: State, life: Life): State {
    var b := Boot(cfg, s, life.downtime);
    if life.resume then RecoverLeases(b) else b
  }

  function Live(cfg: Config, s: State, life: Life): (State, Stop)
    requires cfg.twins != []
  {
    Run(cfg, Booted(cfg, s, life), life.ticks, life.drain)
  }

  function LiveAll(cfg: Config, s: State, lives: seq<Life>): State
    requires cfg.twins != []
    decreases |lives|
  {
    if lives == [] then s else LiveAll(cfg, Live(cfg, s, lives[0]).0, lives[1..])
  }

  /** A campaign whose ledgers are still empty. */
  function Blank(now: nat): State {
    State(now, None, [], [], 0, [], [], [], {}, 0, 0, 0, 0, map[])
  }

  // ---- the queue holds exactly the accepted ids ---------------------------------------------

  lemma {:induction false} InsertMembers(q: seq<nat>, i: nat, before: (nat, nat) -> bool)
    ensures forall x :: x in Insert(q, i, before) <==> x == i || x in q
    ensures |Insert(q, i, before)| == |q| + 1
    decreases |q|
  {
    if q == [] || before(i, q[0]) {
    } else {
      InsertMembers(q[1..], i, before);
      assert q == [q[0]] + q[1..];
    }
  }

  lemma {:induction false} QueueMembers(n: nat, keep: nat -> bool, before: (nat, nat) -> bool)
    ensures forall x: nat :: x in Queue(n, keep, before) <==> x < n && keep(x)
    ensures InRange(Queue(n, keep, before), n)
    decreases n
  {
    if n > 0 {
      QueueMembers(n - 1, keep, before);
      if keep(n - 1) { InsertMembers(Queue(n - 1, keep, before), n - 1, before); }
    }
    forall k | 0 <= k < |Queue(n, keep, before)| ensures Queue(n, keep, before)[k] < n {
      assert Queue(n, keep, before)[k] in Queue(n, keep, before);
    }
  }
}
