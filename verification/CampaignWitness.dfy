/**
 Two campaigns from empty ledgers.  In one the candidate ends verified although its last record rejects it: the first
 verification dies after its decision, the second between its record and the candidate's update.  In the other the
 Director dies between releasing the lease of its first task and marking it done, and the task is lost.
 */
module CampaignWitness {
  import opened Options
  import opened Campaign
  import opened CampaignSafety
  import opened CampaignVerdicts
  import opened CampaignKills

  const TWIN: Twin := "twin"
  const MODEL: Model := "model"

  function Setup(): Config {
    Config([TWIN], [MODEL], m => m, i => i, 1, 1, 1, None, None, None)
  }

  /** A tick on healthy twins in which the one dispatched task runs as `run` says. */
  function Calm(proposals: seq<Proposal>, run: RunEnv): TickEnv {
    TickEnv(0, 0, 0, false, false, false, k => TwinEnv(true, TWIN), proposals, 0, k => run)
  }

  /** The probe claims one candidate. */
  const Claiming := RunEnv(0, true, 0, Returns(Finished), [MODEL], 0, 0, Nothing, None, Other)

  const FirstLife :=
    Life(0, false, false, [Calm([Proposal(true, 0, 0)], Claiming), Calm([], Dying(RecordAndDecision, true, Confirmed))])

  const SecondLife := Life(1, true, false, [Calm([], Dying(RecordOnly, false, Refuted))])

  // ---- ticks on small tables ----------------------------------------------------------------

  lemma {:induction false} NothingDue(s: State)
    requires forall l :: 0 <= l < |s.leases| ==> !Due(s.leases[l], s.now)
    ensures RecoverLeases(s) == s
  {
    assert RecoverLeases(s).tasks == s.tasks && RecoverLeases(s).leases == s.leases;
  }

  lemma {:induction false} OneElement(q: seq<nat>, x: nat)
    requires Distinct(q) && forall i :: i in q <==> i == x
    ensures q == [x]
  {
    assert |q| <= 1 || q[0] != q[1];
    assert x in q;
    forall a | 0 <= a < |q| ensures q[a] == x { assert q[a] in q; }
  }

  lemma {:induction false} OnlyReady(cfg: Config, tasks: seq<Task>, i: nat)
    requires i < |tasks| && forall j :: 0 <= j < |tasks| ==> (tasks[j].status.Ready? <==> j == i)
    ensures ReadyTasks(cfg, tasks) == [i]
  {
    ReadyDistinct(cfg, tasks);
    OneElement(ReadyTasks(cfg, tasks), i);
  }

  lemma {:induction false} NoneOpen(cfg: Config, theses: seq<Thesis>)
    requires |theses| == 1 && !theses[0].status.Open?
    ensures OpenTheses(cfg, theses) == []
  {
  }

  // ---- the first tick: plan, schedule a probe, run it ------------------------------------------

  function Probing(status: TaskStatus): Task { Task(0, TWIN, TWIN, Probe, 0, 0, status, 0) }

  function Claimed(status: CandidateStatus, verification: Option<nat>): Candidate {
    Candidate(0, 0, MODEL, TWIN, status, verification)
  }

  function Started(s: State): State { s.(started := Some(0), current := map[TWIN := TWIN]) }

  /** After planning and scheduling. */
  function Planned(): State {
    Started(Blank(0)).(theses := [Thesis(0, 0, Scheduled)], cycles := 1, cursor := 1, tasks := [Probing(Ready)])
  }

  /** After the probe. */
  function Probed(): State {
    Planned().(tasks := [Probing(Done)], theses := [Thesis(0, 0, Exhausted)], workers := 1,
               leases := [Lease(0, 0, 1, true, false)], candidates := [Claimed(Unverified, None)])
  }

  lemma {:induction false} FirstPlan(env: TickEnv)
    requires env == FirstLife.ticks[0]
    ensures Prepare(Setup(), Started(Blank(0)), env, false) == Planned()
  {
    var cfg, s := Setup(), Started(Blank(0));
    NothingDue(s);
    HealthyTwinsStay(cfg, s, env.twins, 0);
    var p := PlanIfNeeded(cfg, s, env);
    assert ProposeAll([], env.proposals) == [Thesis(0, 0, Open)] by {
      assert env.proposals[1..] == [];
      assert Propose([], env.proposals[0]) == [Thesis(0, 0, Open)];
    }
    assert p == s.(theses := [Thesis(0, 0, Open)], cycles := 1);
    OneOpen(cfg, p.theses);
    assert NextTwin(cfg.twins, 0, None, 1) == (TWIN, 1);
    assert ScheduleThesis(cfg, p, 0) == Planned();
    assert [0][1..] == [];
    assert ScheduleTheses(cfg, p, [0], 0) == Planned();
  }

  lemma {:induction false} OneOpen(cfg: Config, theses: seq<Thesis>)
    requires |theses| == 1 && theses[0].status.Open?
    ensures OpenTheses(cfg, theses) == [0]
  {
    OpenThesesReady(cfg, Blank(0).(theses := theses));
    OneElement(OpenTheses(cfg, theses), 0);
  }

  /** The rest of a tick in which one task is ready. */
  lemma {:induction false} OneDispatch(cfg: Config, s: State, env: TickEnv, drain: bool, i: nat)
    requires cfg.concurrency == 1 && i < |s.tasks| &&
             forall j :: 0 <= j < |s.tasks| ==> (s.tasks[j].status.Ready? <==> j == i)
    ensures var r := RunOne(cfg, s, i, env.runs(0));
            Finish(cfg, s, env, drain) == if Dies(s, i, env.runs(0)) then Halt(r, DirectorDied) else Go(UpdateTheses(r))
  {
    OnlyReady(cfg, s.tasks, i);
    var r := RunOne(cfg, s, i, env.runs(0));
    assert Dispatch(cfg, s, [i], 0, env.runs) == Dispatched(r, Dies(s, i, env.runs(0)));
  }

  lemma {:induction false} FirstRun()
    ensures RunOne(Setup(), Planned(), 0, Claiming) == Probed().(theses := Planned().theses)
  {
    var cfg, s := Setup(), Planned();
    var s1 := s.(workers := 1, leases := [Lease(0, 0, 1, false, false)], tasks := [Probing(Running(0))]);
    assert Start(cfg, s, 0, 0) == s1;
    var s2 := s1.(candidates := [Claimed(Unverified, None)]);
    assert Work(cfg, s1, s.tasks[0], 0, Claiming) == s2;
  }

  lemma {:induction false} TickProceeds(cfg: Config, s: State, env: TickEnv, drain: bool)
    requires cfg.twins != [] && HeadStop(cfg, s, env).None?
    ensures Tick(cfg, s, env, drain) == Finish(cfg, Prepare(cfg, s, env, drain), env, drain)
  {
  }

  lemma {:induction false} FirstTick(env: TickEnv)
    requires env == FirstLife.ticks[0]
    ensures Tick(Setup(), Started(Blank(0)), env, false) == Go(Probed())
  {
    FirstPlan(env);
    TickProceeds(Setup(), Started(Blank(0)), env, false);
    OneDispatch(Setup(), Planned(), env, false, 0);
    FirstRun();
    FirstUpdate();
  }

  lemma {:induction false} FirstUpdate()
    ensures UpdateTheses(Probed().(theses := Planned().theses)) == Probed()
  {
    var r := Probed().(theses := Planned().theses);
    assert r.tasks[0].thesis == 0;
    assert UpdateTheses(r).theses == Probed().theses;
  }

  // ---- the second tick: a verification that dies after its decision --------------------------------

  function Verifying1(status: TaskStatus, attempts: nat): Task {
    Task(0, TWIN, TWIN, Verify(0), VERIFY_PRIORITY, 0, status, attempts)
  }

  function Accepted(): Verification {
    Verification(0, 0, W(1), MODEL, None, Some(true), Confirmed, Verified)
  }

  function Refused(): Verification {
    Verification(0, 0, W(2), MODEL, None, Some(false), Refuted, Rejected)
  }

  /** With the verification scheduled. */
  function Scheduled2(): State {
    Probed().(cycles := 2, tasks := [Probing(Done), Verifying1(Ready, 0)], candidates := [Claimed(Verifying, None)])
  }

  /** After the first verification's Director died. */
  function Decided(): State {
    Scheduled2().(workers := 2, tasks := [Probing(Done), Verifying1(Running(1), 0)],
                  leases := [Lease(0, 0, 1, true, false), Lease(1, 1, 1, false, false)],
                  verifications := [Accepted()], settled := {0}, candidates := [Claimed(Verified, Some(0))])
  }

  lemma {:induction false} SecondPlan(env: TickEnv)
    requires env == FirstLife.ticks[1]
    ensures Prepare(Setup(), Probed(), env, false) == Scheduled2()
  {
    var cfg, s := Setup(), Probed();
    NothingDue(s);
    HealthyTwinsStay(cfg, s, env.twins, 0);
    var p := s.(cycles := 2);
    assert PlanIfNeeded(cfg, s, env) == p;
    NoneOpen(cfg, p.theses);
    assert ScheduleTheses(cfg, p, [], 0) == p;
    assert ScheduleVerifications(Scheduled2(), p.tasks, 1) == Scheduled2();
    assert !HasVerifyTask(p.tasks, 0);
    assert ScheduleVerifications(p, p.tasks, 0) == Scheduled2();
  }

  lemma {:induction false} SecondRun()
    ensures RunOne(Setup(), Scheduled2(), 1, Dying(RecordAndDecision, true, Confirmed)) == Decided()
  {
    var cfg, s := Setup(), Scheduled2();
    var s1 := s.(workers := 2, leases := Decided().leases, tasks := Decided().tasks);
    assert Start(cfg, s, 1, 0) == s1;
    DyingRun(cfg, s, s1, 1, Dying(RecordAndDecision, true, Confirmed));
    NobodyElseVerifies();
    assert VerdictOn(cfg, s1.candidates[0], 0, 1, Dying(RecordAndDecision, true, Confirmed)) == Accepted();
    assert VerifyCandidate(cfg, s1, 0, 1, Dying(RecordAndDecision, true, Confirmed)) == Decided();
  }

  /** What a dying verification leaves. */
  lemma {:induction false} DyingRun(cfg: Config, s: State, s1: State, i: nat, env: RunEnv)
    requires i < |s.tasks| && s.tasks[i].kind == Verify(0) && !Leased(s.leases, s.now, i) && s1 == Start(cfg, s, i, 0)
    requires env.outcome.DirectorDies? && env.handleOk && env.delay == 0 && env.took == 0 && env.modelCalls == 0
    ensures RunOne(cfg, s, i, env) ==
            match env.written
            case Nothing => s1
            case RecordOnly => RecordVerdict(cfg, s1, 0, s.workers, env)
            case RecordAndDecision => VerifyCandidate(cfg, s1, 0, s.workers, env)
  {
    assert s1.(now := s1.now + 0, modelCalls := s1.modelCalls + 0) == s1;
  }

  lemma {:induction false} NobodyElseVerifies()
    ensures VerifierFor(Setup(), MODEL) == None
  {
    VerifierIsIndependent(Setup(), MODEL);
  }

  lemma {:induction false} SecondTick(env: TickEnv)
    requires env == FirstLife.ticks[1]
    ensures Tick(Setup(), Probed(), env, false) == Halt(Decided(), DirectorDied)
  {
    SecondPlan(env);
    TickProceeds(Setup(), Probed(), env, false);
    OneDispatch(Setup(), Scheduled2(), env, false, 1);
    SecondRun();
  }

  // ---- the second life: a verification that dies after its record --------------------------------------

  /** The second Director, one lease later. */
  function Resumed(): State {
    Decided().(now := 1, tasks := [Probing(Done), Verifying1(Ready, 1)],
               leases := [Lease(0, 0, 1, true, false), Lease(1, 1, 1, false, true)])
  }

  /** After it died as well. */
  function Stale(): State {
    Resumed().(workers := 3, tasks := [Probing(Done), Verifying1(Running(2), 1)],
               leases := Resumed().leases + [Lease(1, 2, 2, false, false)],
               verifications := [Accepted(), Refused()])
  }

  lemma {:induction false} Resuming()
    ensures Booted(Setup(), Decided(), SecondLife) == Resumed()
  {
    var b := Boot(Setup(), Decided(), 1);
    assert b.current == map[TWIN := TWIN];
    assert Due(b.leases[1], b.now);
    assert RecoverLeases(b).tasks == Resumed().tasks && RecoverLeases(b).leases == Resumed().leases;
  }

  lemma {:induction false} ThirdPlan(env: TickEnv)
    requires env == SecondLife.ticks[0]
    ensures Prepare(Setup(), Resumed(), env, false) == Resumed()
  {
    var cfg, s := Setup(), Resumed();
    NothingDue(s);
    HealthyTwinsStay(cfg, s, env.twins, 0);
    assert s.tasks[1].status.Ready?;
    assert PlanIfNeeded(cfg, s, env) == s;
    NoneOpen(cfg, s.theses);
    assert ScheduleTheses(cfg, s, [], 0) == s;
    assert ScheduleVerifications(s, s.tasks, 1) == s;
    assert ScheduleVerifications(s, s.tasks, 0) == s;
  }

  lemma {:induction false} ThirdRun()
    ensures RunOne(Setup(), Resumed(), 1, Dying(RecordOnly, false, Refuted)) == Stale()
  {
    var cfg, s := Setup(), Resumed();
    var s1 := s.(workers := 3, leases := Stale().leases, tasks := Stale().tasks);
    assert Start(cfg, s, 1, 0) == s1;
    DyingRun(cfg, s, s1, 1, Dying(RecordOnly, false, Refuted));
    NobodyElseVerifies();
    assert VerdictOn(cfg, s1.candidates[0], 0, 2, Dying(RecordOnly, false, Refuted)) == Refused();
    assert RecordVerdict(cfg, s1, 0, 2, Dying(RecordOnly, false, Refuted)) == Stale();
  }

  lemma {:induction false} ThirdTick(env: TickEnv)
    requires env == SecondLife.ticks[0]
    ensures Tick(Setup(), Resumed(), env, false) == Halt(Stale(), DirectorDied)
  {
    ThirdPlan(env);
    TickProceeds(Setup(), Resumed(), env, false);
    OneDispatch(Setup(), Resumed(), env, false, 1);
    ThirdRun();
  }

  lemma {:induction false} RunHalts(cfg: Config, s: State, envs: seq<TickEnv>, drain: bool, r: State, reason: Stop)
    requires cfg.twins != [] && envs != [] && Tick(cfg, Elapse(s, envs[0]), envs[0], drain) == Halt(r, reason)
    ensures Run(cfg, s, envs, drain) == (r, reason)
  {
  }

  lemma {:induction false} RunGoes(cfg: Config, s: State, envs: seq<TickEnv>, drain: bool, r: State)
    requires cfg.twins != [] && envs != [] && Tick(cfg, Elapse(s, envs[0]), envs[0], drain) == Go(r)
    ensures Run(cfg, s, envs, drain) == Run(cfg, r, envs[1..], drain)
  {
  }

  lemma {:induction false} FirstLifeLeads()
    ensures Live(Setup(), Blank(0), FirstLife) == (Decided(), DirectorDied)
  {
    var cfg, ticks := Setup(), FirstLife.ticks;
    assert Boot(cfg, Blank(0), 0).current == map[TWIN := TWIN];
    assert Booted(cfg, Blank(0), FirstLife) == Started(Blank(0));
    assert Elapse(Started(Blank(0)), ticks[0]) == Started(Blank(0)) && Elapse(Probed(), ticks[1]) == Probed();
    FirstTick(ticks[0]);
    RunGoes(cfg, Started(Blank(0)), ticks, false, Probed());
    SecondTick(ticks[1]);
    RunHalts(cfg, Probed(), ticks[1..], false, Decided(), DirectorDied);
  }

  lemma {:induction false} SecondLifeLeads(cfg: Config, s: State, life: Life)
    requires cfg == Setup() && s == Decided() && life == SecondLife
    ensures Live(cfg, s, life) == (Stale(), DirectorDied)
  {
    var b, env := Booted(cfg, s, life), life.ticks[0];
    Resuming();
    assert Elapse(b, env) == b;
    ThirdTick(env);
    RunHalts(cfg, b, life.ticks, false, Stale(), DirectorDied);
  }

  /** A campaign that starts from empty ledgers and ends with a verified candidate whose last record rejects it. */
  lemma {:induction false} VerifiedAgainstTheLastRecord()
    ensures var s := LiveAll(Setup(), Blank(0), [FirstLife, SecondLife]);
            |s.candidates| == 1 && s.candidates[0].status.Verified? &&
            LastVerdict(s.verifications, 0) == Some(1) && |s.verifications| == 2 && s.verifications[1].status.Rejected?
  {
    FirstLifeLeads();
    SecondLifeLeads(Setup(), Decided(), SecondLife);
    var lives := [FirstLife, SecondLife];
    assert lives[1..] == [SecondLife] && lives[1..][1..] == [];
    assert LiveAll(Setup(), Decided(), lives[1..]) == Stale();
  }

  // ---- a task that is lost ----------------------------------------------------------------------

  /** The Director dies in its first tick, between the release of the lease and the update of the task. */
  const Interrupted := Mortal(Life(0, false, false, []), InTick(FirstLife.ticks[0], AtDispatch(0, LeaseReleased)))

  lemma {:induction false} InterruptedLeads()
    ensures LiveOn(Setup(), Blank(0), Interrupted) == CutRun(Setup(), Planned(), 0, Claiming, LeaseReleased)
  {
    var cfg, env, b := Setup(), FirstLife.ticks[0], Started(Blank(0));
    assert Boot(cfg, Blank(0), 0) == b;
    assert Live(cfg, Blank(0), Interrupted.life) == (b, Completed);
    assert Elapse(b, env) == b;
    FirstPlan(env);
    OnlyReady(cfg, Planned().tasks, 0);
    assert CutTick(cfg, b, env, false, AtDispatch(0, LeaseReleased)) ==
           CutDispatch(cfg, Planned(), [0], 0, 0, env.runs, LeaseReleased);
  }

  /** The campaign's first task is lost, and stays so in every life to come in which no twin fails. */
  lemma {:induction false} FirstTaskIsLost(lives: seq<Life>)
    requires forall n, k :: 0 <= n < |lives| && 0 <= k < |lives[n].ticks| ==>
             AllHealthy(Setup(), lives[n].ticks[k].twins)
    ensures Lost(LiveAll(Setup(), LiveOn(Setup(), Blank(0), Interrupted), lives), 0)
  {
    var s := Planned();
    InterruptedLeads();
    PlannedIsReachable();
    WindowLosesExactly(Setup(), s, 0, Claiming);
    LivesLeaveLost(Setup(), LiveOn(Setup(), Blank(0), Interrupted), lives, 0);
  }

  lemma {:induction false} PlannedIsReachable()
    ensures Inv(Setup(), Planned())
  {
    FirstPlan(FirstLife.ticks[0]);
    PrepareKeeps(Setup(), Started(Blank(0)), FirstLife.ticks[0], false);
  }
}
