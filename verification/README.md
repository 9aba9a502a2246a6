# Verified models of the red-team arena

Dafny models of the parts of the repository whose behaviour is spread over many calls, and proofs of what those parts
keep, reach or give back. `dafny verify dfyconfig.toml` checks everything.

| files | what they model |
|---|---|
| `Campaign`, `CampaignSafety`, `CampaignVerdicts`, `CampaignWitness`, `CampaignKills`, `CampaignDrain`, `CampaignScheduling`, `CampaignOrder`, `CampaignOutcomes`, `CampaignRecords`, `CampaignStops`, `CampaignBudget`, `Engine` | the campaign control plane: the Director loop over tasks, leases, theses, candidates and verifications |
| `ControlStore`, `SeqLog` | the append-only ledgers, their folded view, `next_id`, and sequence numbers under concurrent appenders |
| `Worker` | one worker's loop: action, time and model-fallback control flow |
| `ArchGraph`, `ArchSearch`, `ShortestPath`, `Neighborhood`, `NeighborhoodOrder`, `SimplePaths` | the architecture index and its three graph searches |
| `MiniYaml`, `MiniYamlInline`, `MiniYamlFlow`, `MiniYamlRoundTrip`, `MiniYamlText`, `MiniYamlWriting` | the YAML subset reader, and as its specification the ways to write a document |
| `Allocator`, `InstanceIds`, `Instances` | names, ports and subnets of twin instances over create, destroy and save |
| `Profiles`, `ProfileDerivation`, `TrustVariant` | profile derivation: the closure over the rules and the trust-path swap (R12) |
| `ReplayAliases`, `ReplayIdentities`, `ReplayCaptures`, `ReplayPairing` | replay comparison: numbering of generated ids, labels of payouts and captured events, and request/response pairing |
| `SourceLock` | merging commit records into one lock |
| `Options`, `Arith`, `Sets`, `Decimal` | an option type, a little arithmetic, counting in finite sets, decimal numerals |

## How the models are built

Code that works by changing things step by step is a class or a method with loops; its methods are proved equal to
specification functions on values, and the theorems are about those functions, for every input, every run or every
reachable state. Clocks, workers, twins, model answers, replays and judges are inputs: a run is given one environment per
tick, and the theorems hold for all of them. A campaign is a sequence of Director *lives*: each boots over the state the
last one left, runs under its own environments, and may die inside the executor (between its two appends of a verification
too) or between two ticks; `CampaignKills` adds kills between any two ledger writes of a dispatch or a lease recovery. The
tables of the control plane are indexed by position; `ControlStore.LedgerIsTable` justifies that for ledgers written
through `next_id`, `put` and `update`.

Main results, in the system's own terms:

* **No task is lost** (`CampaignSafety.NoTaskIsLost`, `ExpiredTaskIsRecovered`), **verification is sound**
  (`VerifiedMeansVerified`) **and bounded** (`CampaignVerdicts.AtMostThreeVerdicts`), **a quiet stop is a certificate**
  (`QuietRunCertifies`), **done and blocked are final** (`RunEvolves`).
* **A kill strands a task exactly when** it falls between the end of its lease and its own update
  (`CampaignKills.TaskIsStrandedExactly`).
* **Ticks stop for the reason they give, and for no other** (`CampaignStops.HeadIsExact`, `EndIsExact`, `RunStopsExactly`);
  **tasks are finished only by the worker that finishes them, and paused ones come back** (`CampaignOutcomes.TickOutcome`,
  `DoneOnlyByWork`, `PausedProbeIsResumed`); **the important work comes first** (`CampaignOrder.FirstTasksAreSent`,
  `FirstThesesAreScheduled`).
* **Draining ends for a real reason** (`CampaignDrain.DrainEnds`): a measure falls on every tick that does not stop.
* **Round robin is balanced and replicas stay apart** (`CampaignScheduling.TwinsShareTheWork`, `ReplicasStayApart`).
* **Budget overshoot is bounded** by max_actions - 1 + C * (T - 1 + B), plus what workers record after their Director is
  gone, over workers that finish, fail or are cut short anywhere (`CampaignBudget.OvershootIsBounded`); D deaths of a
  Director add at most D * (T - 1 + B) (`OvershootWithOrphans`). Model calls stay under max_model_calls + C * S in the same
  way (`ModelCallsAreBounded`), and both counts are exactly what was reported (`CallsAreConserved`).
* **Searches are exact** (`ShortestPath.FindShortestPath`, `Neighborhood.FindNeighbours`, `SimplePaths.FindPaths`).
* **The YAML round trip holds exactly when** no string holds a tab or a line break and no list item starts with a null and
  goes on, however the document is written (bare words, quotes, numerals, flow mappings, any deeper indentation) and laid
  out (`MiniYamlText.TextRoundTripExactly`).
* **Live instances stay apart** over every history that saves only registered ones; saving a destroyed one is safe exactly
  when nobody took its port or subnet (`Instances.LiveInstancesStayApart`, `RevivalIsSafeExactly`); planning ends exactly
  when fewer than 99 others are live (`PlanningEndsExactly`).
* **Profile derivation is the least fixed point** (`Profiles.DerivedIsClosure`) and its trace is exact (`TraceIsExact`).
* **First-occurrence labels are a complete invariant** (`ReplayAliases.SameLabelsExactly`), from the starting table of a
  comparison too (`ReplayCaptures.ReplaysAgreeExactly`), and **a trace is accepted exactly when it has one and only one
  pairing** (`ReplayPairing.PairResponses`).
* **The lock's conflicts are exactly the commits incompatible with the final one** (`SourceLock.LockPartitions`).

Properties that turned out not to hold of the code as it is, with a witness and the exact condition:

* A mapping list item whose first value is null takes its own siblings for that value's nested block
  (`MiniYamlWriting.NullFirstEntrySwallows`; exact condition in `MiniYamlRoundTrip.RoundTripExactly`).
* Saving the manifest of a destroyed instance registers it again; whatever the hash, there are two instances whose lives
  end on one port in this way (`Instances.RevivalCanCollide`; exact condition in `RevivalIsSafeExactly`).
* Rule R12 promises that exactly one implementation set of a touched role is kept. It is kept exactly when every name of the
  chosen set has a recipe (`TrustVariant.OneSetIsKeptExactly`); otherwise the role can vanish (`GatewayCanVanish`) or be left
  with its datastore alone (`DatastoreCanStandAlone`).
* A candidate's decision is not always that of its last verification record: a campaign from empty ledgers ends with a
  verified candidate whose last record rejects it (`CampaignWitness.VerifiedAgainstTheLastRecord`; exact condition in
  `CampaignVerdicts.LastWordExactly`).
* A task can be lost: when the Director dies between ending its lease and updating the task, no later tick requeues it and
  no run stops for want of work, unless another lease of it runs out or its twin is replaced (`CampaignWitness.FirstTaskIsLost`;
  exact conditions in `CampaignKills.TaskIsStrandedExactly`, `WindowLosesExactly`, `RecoveryLosesExactly`; consequences in
  `RunLeavesLost`).
* Labels of captured events can coincide: the starting table gives no two ids one label exactly when no two event groups have
  one shortened digest (`ReplayCaptures.StartingLabelsAreGivenExactly`).
* `next_id` counts ids instead of looking for a free one. No caller of the program records an id ahead of the count, but
  the function does not ask for that: it stays fresh for good exactly when no recorded id is ahead
  (`ControlStore.FreshForGoodExactly`; a ledger that breaks it in `ForeignIdCollides`).

Where the code and its own words differ, the code was followed: the reader's branch for a bare dash is never taken, because
lines are stripped first (`MiniYaml.BareDashIsNoItem`); `paths` reports `truncated` also when there are exactly `limit`
paths; a drained run leaves candidates in `verifying` whose verify task was blocked.

## Model

| member | source | states |
|---|---|---|
| CampaignSafety.NoTaskIsLost | controlplane/engine.py:85-243 | in every state reachable over any number of Director lives, with workers crashing, twins failing and Directors dying at tick boundaries or in the executor, each task is ready, done, blocked after exactly three attempts, or running under its own recorded, still open lease at most one TTL from expiry |
| CampaignKills.TaskIsStrandedExactly | controlplane/engine.py:175-243 | after any number of lives killed elsewhere, one more life leaves a task running under an ended lease exactly when it is killed between the end of a lease and the update of its task; otherwise every task is accounted for and every verified candidate soundly verified |
| CampaignKills.LifeKeepsExactly | controlplane/engine.py:85-243 | a life that ends by itself, is cut off while it resumes, or is cut off after any write of a dispatch or lease recovery keeps the whole invariant exactly when it does not end in such a window |
| CampaignKills.CutRunKeepsExactly | controlplane/engine.py:175-230 | the same for a kill after any one ledger write of a dispatch |
| CampaignKills.CutsLeadToRunOne | controlplane/engine.py:175-230 | the stages of a dispatch lead to the dispatch as a whole, the last by the task's update alone |
| CampaignKills.CutRecoveryKeepsExactly | controlplane/engine.py:232-243 | the same for a kill after any one write of a lease recovery, over all tasks at once |
| CampaignKills.CutsLeadToRecovery | controlplane/engine.py:232-243 | the stages of a lease recovery begin with nothing done and end with the recovery as a whole |
| CampaignKills.WindowStrands | controlplane/engine.py:222-223 | in the window of a dispatch its task is stranded, and no other |
| CampaignKills.WindowLosesExactly | controlplane/engine.py:193-230 | that task is named by no open lease any more exactly when no other open lease named it before |
| CampaignKills.RecoveryLosesExactly | controlplane/engine.py:232-243 | a recovery that is cut off leaves a task without any open lease exactly when it is in its window and every open lease that names it was ended |
| CampaignKills.RecoveryServesExactly | controlplane/engine.py:232-243 | a recovery requeues a running task exactly when an open lease that names it has run out |
| CampaignKills.TwinServesExactly | controlplane/engine.py:245-272 | the health check of a twin requeues a running task exactly when the task is on it, it is unhealthy, and it gets a replacement of another name |
| CampaignKills.RunLeavesLost | controlplane/engine.py:111-145 | as long as no twin fails, no run requeues a task that no open lease names, and none stops drained or for want of work |
| CampaignKills.LivesLeaveLost | controlplane/engine.py:85-145 | nor does any number of restarts, with or without resume |
| CampaignWitness.FirstTaskIsLost | controlplane/engine.py:222-223 | one campaign from empty ledgers whose Director dies in that window: its first task is lost, and stays so in all lives to come in which no twin fails |
| CampaignSafety.ExpiredTaskIsRecovered | controlplane/engine.py:232-243 | once a running task's lease has run out, the next tick that passes its checks has it ready or blocked, with one attempt more, before anything is dispatched; the lease runs out within one TTL |
| CampaignSafety.VerifiedMeansVerified | controlplane/verify.py:32-75 | every verified candidate of every reachable state points to its own verification record, with a successful replay, a positive verdict, a verifier other than its claimant, and of another model family whenever the pool has one |
| CampaignVerdicts.AtMostThreeVerdicts | controlplane/verify.py:32-75 | in every reachable state a candidate has at most three verification records; it is decided exactly when one of its own records reached it, and then it points to such a record and carries its status |
| CampaignVerdicts.LastWordExactly | controlplane/verify.py:70-72 | in every reachable state a candidate points to its last record exactly when no attempt since stopped between its record and the update of the candidate |
| CampaignVerdicts.DecisionCanGoStale | controlplane/verify.py:70-72 | from every reachable state, a ready verification with two attempts left can leave its candidate verified while its last record rejects it |
| CampaignWitness.VerifiedAgainstTheLastRecord | controlplane/verify.py:70-72 | one whole campaign from empty ledgers, over two Director lives, that ends like that |
| CampaignSafety.VerifierIsIndependent | controlplane/models.py:54-76 | the verifier model is never the producer, is missing exactly when the pool holds nothing but the producer, and is of another family exactly when the pool has one |
| CampaignSafety.DecideVerified | controlplane/verify.py:77-88 | a candidate is verified if and only if the replay reproduced it and the verdict is positive, and invalid exactly for the four non-findings |
| CampaignSafety.QuietTickCertifies | controlplane/engine.py:119-143 | a tick that stops for want of work leaves every task done or blocked; for `no_open_work` also every thesis exhausted, every candidate decided and the planning floor met; for `drained` every candidate decided or its verify task blocked after three attempts |
| CampaignSafety.QuietRunCertifies | controlplane/engine.py:111-145 | the same for a whole run from any reachable state |
| CampaignStops.HeadIsExact | controlplane/budget.py:65-78 | a tick goes past its head exactly when neither stop nor pause is asked for, every budget that is set has something left and the cost is not out; otherwise it changes nothing and stops for the first reason in the order of the source |
| CampaignStops.EndIsExact | controlplane/engine.py:131-143 | past its head a tick stops exactly when its Director dies, or when it dispatched nobody and leaves nothing to do (drained or no open work, by the drain flag) |
| CampaignStops.RunStopsExactly | controlplane/engine.py:115-133 | a run that came through k ticks stops at the head of the next exactly when that may not proceed, with the ledgers it found there and the reason that is due |
| CampaignStops.RunStopsForCause | controlplane/engine.py:115-133 | a run that stops at a head gives a reason that holds in the ledgers it leaves, and none before it in the order does |
| CampaignOutcomes.TickOutcome | controlplane/engine.py:175-230 | over a tick each dispatched task that gets its lease becomes what its run says: one attempt more, and blocked at the third, if it came to nothing (no handle, failure, a probe without a usable model); as it was if a probe was paused; done if finished; running under the new lease if abandoned or without its Director |
| CampaignOutcomes.WorkersEndDecides | controlplane/engine.py:210-226 | a probe whose worker came back paused is as it was, one without a usable model left is retried, and one that concluded, ran out of actions or time or was told to stop is done |
| CampaignOutcomes.UndispatchedStay | controlplane/engine.py:167-173 | a task that is not dispatched stays as the preparation of the tick left it |
| CampaignOutcomes.DoneOnlyByWork | controlplane/engine.py:222-226 | over a whole run a task becomes done only in a tick in which it was dispatched and its worker finished it |
| CampaignOutcomes.PausedProbeIsResumed | controlplane/engine.py:218-221 | a probe whose worker was paused is ready with its attempts unchanged, and stands in the order of the ready when the next life dispatches |
| CampaignOutcomes.ReadyIsQueued | controlplane/engine.py:126-133 | a ready task passes the preparation of every tick, but for its twin, and stands in the order of the ready |
| CampaignRecords.DispatchFrame | controlplane/engine.py:175-230 | a dispatch takes a worker number and time; without the lease it does nothing else; with it one lease is added, for the worker, for the time to live, and closed unless the worker was abandoned or its Director died |
| CampaignRecords.ProbeRecords | controlplane/worker.py:101-116 | a probe adds exactly the candidates it claims, in order, with its thesis, worker, model and twin, unverified |
| CampaignRecords.VerificationRecords | controlplane/verify.py:32-75 | a verification writes nothing, its record, or its record and the decision; every field of the record is the one due, whatever the decision, and no other candidate changes |
| CampaignRecords.RecoveryIsExact | controlplane/engine.py:232-243 | a recovery marks exactly the leases whose time is up, and costs exactly the running tasks they name an attempt, the third of which blocks |
| CampaignRecords.TwinCheckIsExact | controlplane/engine.py:245-272 | the check of one twin: healthy or back under its own name, nothing changes; otherwise the replacement stands for it, ready tasks on it move, running ones also lose an attempt |
| CampaignRecords.EveryTwinIsChecked | controlplane/engine.py:245-272 | after the pass every twin of the manifest that failed is stood for by its replacement, and every other as before |
| CampaignRecords.FailedTwinsAreLeft | controlplane/engine.py:263-269 | no active task is left on a twin that was replaced |
| CampaignRecords.PreparedTasksAreMoved | controlplane/engine.py:126-133 | what follows twin recovery in the preparation of a tick touches no task that was there, no lease and no twin |
| CampaignRecords.ProposalsBecomeTheses | controlplane/director.py:72-93 | after planning every well-formed proposal is known, and each new thesis is that of the first proposal with its fingerprint, with its priority, open |
| CampaignRecords.ProbeIsMadeExactly | controlplane/scheduler.py:44-70 | a probe is made unless a ready or running one of the thesis is on the twin; it has the priority of its thesis |
| CampaignRecords.VerificationsAreScheduled | controlplane/scheduler.py:104-133 | each unverified candidate without a verify task gets one, in order, of priority four, with its thesis and twin, and is being verified; nothing else changes |
| CampaignRecords.ThesesRetireExactly | controlplane/director.py:126-146 | a thesis is exhausted exactly when it was, or it has tasks and all are done or blocked |
| CampaignRecords.TickRetires | controlplane/engine.py:133-135 | a tick that its Director survives leaves exhausted every thesis it knew whose tasks, and there are some, are all finished |
| CampaignRecords.BootIsExact | controlplane/engine.py:56-80 | a fresh Director finds the ledgers as they were, every twin standing for itself, and the campaign started when it first was; with resume the leases whose time was up are recovered |
| CampaignRecords.ClockRunsFromFirstBoot | controlplane/engine.py:60-76 | the wall clock of a campaign runs from its first boot over any number of lives |
| CampaignSafety.TickEvolves | controlplane/engine.py:119-143 | one tick never forgets: done and blocked tasks are frozen, ended leases stay ended, decided candidates stay decided, verification records are never rewritten, counters never fall |
| CampaignSafety.RunEvolves | controlplane/engine.py:111-145 | the same for a whole run |
| CampaignSafety.LivesKeep | controlplane/engine.py:58-145 | the invariant of tasks, leases, candidates and verifications holds across any number of Director lives |
| CampaignSafety.ReadyQueue | controlplane/scheduler.py:135-138 | the dispatch queue holds exactly the ready tasks, each once, by falling priority, then creation time, then id |
| CampaignOrder.FirstTasksAreSent | controlplane/scheduler.py:135-138 | the first C ready tasks are dispatched, by falling priority, then age, then id: nobody left waiting is ahead of anybody sent |
| CampaignOrder.ThesisQueue | controlplane/scheduler.py:74-75 | the scheduling queue holds each open thesis once, by falling priority and then id |
| CampaignOrder.FirstThesesAreScheduled | controlplane/scheduler.py:72-91 | after a scheduling pass no thesis still open is ahead of one that was scheduled, some are still open only when twelve tasks or more were made, and never more than thirteen are |
| CampaignOrder.PlansWhenWorkRunsOut | controlplane/engine.py:156-165 | a tick plans exactly when it is not draining and the planning floor is not met, or neither a ready task nor an open thesis is left |
| CampaignDrain.DrainTickFalls | controlplane/engine.py:111-145 | a draining tick with an advancing clock and no kill or pause file stops drained or on a budget, or strictly lowers the potential |
| CampaignDrain.DrainEnds | controlplane/engine.py:111-145 | a draining run with more ticks allowed than its potential ends drained, with the certificate, or on a budget, whatever workers, twins and verifications do |
| CampaignDrain.DrainLifeEnds | controlplane/engine.py:85-145 | the same for a fresh Director after any history of lives |
| CampaignDrain.RecoverLeasesFalls | controlplane/engine.py:232-243 | reaping and requeueing never raise the work left, and where they leave it unchanged they only end leases |
| CampaignDrain.RunOneFalls | controlplane/engine.py:175-230 | dispatching a ready task strictly lowers the work left, whatever the worker does, unless a lease on it is still held; then no task, lease or candidate changes |
| CampaignScheduling.TwinsShareTheWork | controlplane/scheduler.py:30-91 | in every reachable state the k-th probe ever made was made on twin k mod n, replicas of a thesis on different twins, and any two twins got numbers of probes that differ by at most one |
| CampaignScheduling.ReplicasStayApart | controlplane/scheduler.py:44-91 | as long as replaced twins keep their lineage, no two probe tasks of one thesis, active or finished, are ever on one twin, across restarts and replacements |
| CampaignScheduling.ScheduleThesisShape | controlplane/scheduler.py:72-91 | scheduling one open thesis makes exactly one probe, or two on consecutive twins when its priority asks for a replica and there is more than one twin |
| CampaignScheduling.RoundCounts | controlplane/scheduler.py:30-42 | the number of picks of each twin after m picks in turn |
| CampaignScheduling.ProposeAllFresh | controlplane/director.py:72-93 | a planning cycle keeps the theses it finds and adds only open ones, with fingerprints that stay distinct |
| CampaignBudget.OvershootIsBounded | controlplane/engine.py:121-133 | across any number of Director lives, with every run a worker's, finished or cut short anywhere, the recorded tool calls never exceed max_actions - 1 + C * (T - 1 + B) plus the calls of workers without a Director; with max_actions = 0 they are only the latter |
| CampaignBudget.OvershootWithoutOrphans | controlplane/budget.py:39-77 | when no worker outlives its Director: at most max_actions - 1 + C * (T - 1 + B) |
| CampaignBudget.OvershootWithOrphans | controlplane/build.py:62-83 | when the late calls are those of at most one worker for each Director that died in the executor, D deaths add at most D * (T - 1 + B) |
| CampaignBudget.ModelCallsAreBounded | controlplane/budget.py:71-72 | across any number of lives the recorded model calls never exceed max_model_calls + C * S plus the late ones, S being the longest time bound of a task and no turn quicker than a second |
| CampaignBudget.ModelCallsWithOrphans | controlplane/build.py:62-83 | D Directors that died in the executor add at most D * S model calls |
| CampaignBudget.CallsAreConserved | controlplane/budget.py:39-63 | over any number of lives the counts of tool calls and of model calls are exactly what workers, planner and orphans reported |
| CampaignBudget.RunWithinCeiling | controlplane/engine.py:119-133 | a run keeps the recorded tool calls under that ceiling, up to the calls that came late |
| Engine.Director.constructor | controlplane/engine.py:56-58 | a new process finds every table of the ledgers as it was, and every twin of the manifest, and every other, stands for itself again, whatever was replaced before |
| Engine.Director.ReapExpired | RED_LOOP/red_loop/leases.py:87-105 | ends exactly the open leases that ran out and returns them in ledger order |
| Engine.Director.RecoverExpired | controlplane/engine.py:232-243 | the new state is the specified requeueing of every task that runs under an expired lease |
| Engine.Director.RecoverFailedTwins | controlplane/engine.py:245-272 | the new state is the specified replacement of failed twins and re-homing of their tasks |
| Engine.Director.Plan | controlplane/engine.py:156-165 | the new state is the specified planning cycle |
| Engine.Director.PickTwin | controlplane/scheduler.py:30-42 | returns the specified twin and moves the durable cursor past it |
| Engine.Director.ActiveTaskExists | controlplane/scheduler.py:44-50 | true exactly when a ready or running probe of the thesis is on the twin |
| Engine.Director.CreateProbe | controlplane/scheduler.py:52-70 | adds the probe unless one is active there |
| Engine.Director.ScheduleOne | controlplane/scheduler.py:77-91 | the new state is the specified scheduling of one thesis |
| Engine.Director.ScheduleOpenTheses | controlplane/scheduler.py:72-91 | the loop with its early exit reaches the specified state |
| Engine.Director.ScheduleVerificationTasks | controlplane/scheduler.py:104-133 | gives a verify task to every unverified candidate that has none |
| Engine.Director.Acquire | RED_LOOP/red_loop/leases.py:34-60 | takes a lease unless an unexpired one is open for the task |
| Engine.Director.ReleaseLease | RED_LOOP/red_loop/leases.py:77-85 | that lease is open no more, every other is as it was, and no task becomes leased by it |
| Engine.Director.DecideCandidate | controlplane/verify.py:32-75 | appends exactly one record, by somebody other than the claimant and with a model other than the producer's, verified exactly when reproduced with a positive verdict; unless it dies then, the candidate gets its status and points to it; every other candidate, task and lease is as it was |
| Engine.Director.Execute | controlplane/engine.py:295-313 | a probe records its tool calls and candidates, a verify task nothing, its record, or its record and the decision |
| Engine.Director.RunTask | controlplane/engine.py:175-230 | one dispatch, with conflict, crash, failure and success, reaches the specified state |
| Engine.Director.DispatchReady | controlplane/engine.py:167-173 | dispatches the first C of the queue as specified |
| Engine.Director.RetireTheses | controlplane/director.py:126-146 | theses whose tasks are all finished are exhausted |
| Engine.Director.PrepareTick | controlplane/engine.py:131-140 | recovery, planning and scheduling in the order of the loop |
| Engine.Director.FinishTick | controlplane/engine.py:133-141 | dispatch, maintenance and the quiescence check |
| Engine.Director.OneTick | controlplane/engine.py:115-141 | one turn of the loop is the specified tick |
| Engine.Director.Run | controlplane/engine.py:111-145 | the loop over the allowed ticks is the specified run, with the same stop reason |
| Engine.Director.Resume | controlplane/engine.py:85-95 | leases that ran out meanwhile are recovered as specified |
| ControlStore.LastWriterWins | controlplane/store.py:127-142 | the folded view has one object per id, exactly for the ids some record names, and each field has the value of the last record that has it |
| ControlStore.FoldKeepsOrder | controlplane/store.py:127-142 | appending a record never moves or renames a folded object and adds at most one, at the end |
| ControlStore.NextIdIsFresh | controlplane/store.py:160-163 | a ledger whose ids all come from `next_id` gets an id no record has, the next in line |
| ControlStore.IdIs | controlplane/store.py:160-163 | an id is its prefix, a dash and the number in decimal with zeros in front up to three digits |
| ControlStore.LedgerIsTable | controlplane/store.py:126-163 | every ledger written through `next_id`, `put` and `update` folds to a table: the k-th put is row k, an update changes its own row only, ids never repeat |
| ControlStore.FreshForGoodExactly | controlplane/store.py:160-163 | for every ledger, `next_id` is fresh after every further sequence of puts if and only if no recorded id carries a number above the count of ids |
| ControlStore.AheadIsReached | controlplane/store.py:160-163 | an id m ahead of the count collides after at most m - count - 1 puts |
| ControlStore.TablesAreFresh | controlplane/store.py:160-163 | a ledger written through `next_id` alone stays fresh for good |
| ControlStore.ForeignIdCollides | controlplane/store.py:160-163 | a ledger with one record under number m of two or more hands out a taken id after some further puts |
| ControlStore.Store.Append | controlplane/store.py:84-104 | adds the record at the end of its ledger |
| ControlStore.Store.Fold | controlplane/store.py:127-142 | the loop over records computes the folded view |
| ControlStore.Store.Get | controlplane/store.py:144-149 | finds the current object of an id, or none exactly when there is none |
| ControlStore.Store.FreshId | controlplane/store.py:160-163 | the id is in no record of the ledger when none is ahead of the count, and is the next in line when the ledger is a table |
| ControlStore.Store.PutNew | controlplane/store.py:151-163 | adds a row under a fresh id |
| ControlStore.Store.UpdateRow | controlplane/store.py:154-158 | appends one record; in every table that the ledger is, the fields overlay those of the named row and every other row stays |
| Decimal.Pad3Injective | controlplane/store.py:160-163 | zero-padded numbers never coincide, also beyond three digits |
| SeqLog.NumbersNeverRepeat | controlplane/store.py:70-104 | for every interleaving of appenders with crashes anywhere: numbers increase in file order within a ledger, never repeat within or across ledgers, never exceed the counter, and a missing number was taken by a dead process or is about to be appended |
| SeqLog.NoCrashNoGap | controlplane/store.py:70-104 | without crashes, whenever nobody holds the lock, the ledgers hold exactly 1 to the counter |
| Worker.RunTask | controlplane/worker.py:142-220 | when the run has an end, the loop reaches it, and its reason, turns, actions and tool calls are those of the declarative run |
| Worker.RunEndsExactly | controlplane/worker.py:142-220 | a run has an end exactly when it does not come to a turn from which the router offers one failing model after the other while the clock stands still |
| Worker.HeadOfTurn | controlplane/worker.py:142-152 | at the head of a turn the bound on actions, the kill switch, the pause and the clock are asked in this order, and each stops the worker exactly when it is the first that holds |
| Worker.EndOfTurn | controlplane/worker.py:159-220 | a turn is the last exactly when a tool call concludes the task, or when it is the third unusable one in a row and no other model is left |
| Worker.ActionsAreCounted | controlplane/worker.py:198-213 | the actions are the tool calls, and one for every turn without any |
| Worker.CallsOfATurn | controlplane/worker.py:203-220 | of the tool calls of a response all are made, or those up to the one that concludes |
| Worker.ToolCallsAreBounded | controlplane/worker.py:142-220 | a worker that ends by itself makes at most T - 1 + B tool calls |
| Worker.InterruptedCallsAreBounded | controlplane/worker.py:203-220 | so does a worker that is cut short between two turns or inside one, after any of its tool calls |
| Worker.TurnsAreBounded | controlplane/worker.py:142-158 | the time bound also bounds the model calls |
| Worker.ModelCallsAreBounded | controlplane/worker.py:142-178 | a worker, finished or cut short anywhere, records at most as many model calls as it has seconds |
| Worker.UnusableMeansThreeInARow | controlplane/worker.py:159-185 | a worker is called unusable only after three unusable turns in a row, the last with no model left |
| Worker.FailingModelsRunOutTheClock | controlplane/worker.py:159-168 | while the router has another model to offer, failing models are ended only by the clock or by a stop |
| Worker.OutcomeIsUnique | controlplane/worker.py:142-220 | reason and number of turns are determined by the answers from outside |
| ArchGraph.NextIsStep | archkit/index.py:73-82 | `neighbors` yields a hop exactly when there is such an edge in the asked direction, of an admitted type, to an admitted node |
| ArchGraph.NeighboursInOrder | archkit/index.py:63-83 | the neighbours come first along leaving and then along entering edges, each sort in snapshot order, and are exactly those that pass the filters |
| ArchGraph.OutHopsDistinct | archkit/index.py:63-82 | followed forwards no edge is offered twice, so parallel edges are separate hops |
| ArchGraph.LimitIsClamped | archkit/query.py:62-68 | the limit of a query is between 1 and 500, 50 by default, and the one asked for when it can be |
| ArchGraph.GraphIndex.constructor | archkit/index.py:11-40 | the index built in one pass over the edges is the adjacency of the graph |
| ArchGraph.GraphIndex.EdgesOf | archkit/index.py:63-71 | the edges at a node, leaving first, in snapshot order |
| ArchGraph.GraphIndex.Neighbors | archkit/index.py:73-82 | the filtered hops in that order |
| ArchSearch.KnownWithin | archkit/query.py:150-211 | every node within the depth of the queue's head is already known, at a depth no larger than any walk that leads to it |
| ArchSearch.HeadIsNearest | archkit/query.py:180-202 | the node at the head of the queue is at its true distance |
| ArchSearch.Exhausted | archkit/query.py:150-211 | when the queue runs dry the recorded depths are exactly the distances of everything within the bound |
| ShortestPath.Bfs | archkit/query.py:180-202 | the search returns a shortest walk, or none exactly when none of at most max_hops edges exists |
| ShortestPath.HopsAreClamped | archkit/query.py:207-207 | the bound on hops is between 1 and 30, 12 by default, and the one asked for when it can be |
| ShortestPath.FindShortestPath | archkit/query.py:204-211 | a chain of allowed edges from a to b no longer than any other allowed walk, or not found exactly when no walk of at most max_hops edges exists, directed or not |
| Neighborhood.UnboundedIsNeighbourhood | archkit/query.py:150-172 | the unlimited search lists every admitted node within the depth, once, at its true distance, and nothing else |
| NeighborhoodOrder.RowsInSearchOrder | archkit/query.py:150-172 | each row is what the first hop to its node leads to, one level further out, when hops are tried node by node in the order of the rows and edge by edge in the order of the index; later rows were found at later hops |
| Neighborhood.DepthIsClamped | archkit/query.py:152-152 | the depth is between 1 and 4, and the one asked for when it can be |
| Neighborhood.NeighborsLimited | archkit/query.py:150-172 | the loop with the limit returns the first `limit` rows and whether there were more |
| Neighborhood.FindNeighbours | archkit/query.py:150-172 | the same after clamping depth and limit, with unknown nodes refused |
| SimplePaths.AllPathsAreTheSimplePaths | archkit/query.py:213-240 | the enumeration is exactly the simple paths of at most max_hops edges, parallel edges included, each once |
| SimplePaths.BelowInOrder | archkit/query.py:221-237 | the paths are found in the order of their edges in the snapshot |
| SimplePaths.HopsAreClamped | archkit/query.py:216-216 | the bound on hops is between 1 and 8, 6 by default, and the one asked for when it can be |
| SimplePaths.Enumerate | archkit/query.py:213-235 | the stack search finds a prefix of the enumeration, all of it when not truncated, and is truncated exactly at `limit` paths or 20000 visits |
| SimplePaths.FindPaths | archkit/query.py:213-240 | only simple paths within the bounds, none twice, shorter ones first and then by their nodes; all of them unless truncated; truncated exactly when there are limit of them or the search takes 20000 visits; and those left out come after all that are found in the order of their edges |
| SimplePaths.SortedOrders | archkit/query.py:236-237 | the answer is ordered by number of hops and then by nodes |
| MiniYaml.Cursor.ParseValue | ENV2_COMPOSE/config/_miniyaml.py:86-97 | returns the specified value and leaves the cursor just past it, never further back |
| MiniYaml.Cursor.ParseFlowMapping | ENV2_COMPOSE/config/_miniyaml.py:55-69 | the loop over the parts gives the specified mapping or error |
| MiniYaml.Cursor.ParseBlock | ENV2_COMPOSE/config/_miniyaml.py:100-110 | dispatches on the first deeper line as specified |
| MiniYaml.Cursor.ParseEntry | ENV2_COMPOSE/config/_miniyaml.py:121-127 | one entry of a mapping is one step of the specified loop, and moves the cursor |
| MiniYaml.Cursor.ParseEntries | ENV2_COMPOSE/config/_miniyaml.py:113-128 | the mapping loop reads the specified entries and stops on the line after them |
| MiniYaml.Cursor.ParseSequence | ENV2_COMPOSE/config/_miniyaml.py:131-166 | the sequence loop reads the specified items |
| MiniYaml.Cursor.ParseItem | ENV2_COMPOSE/config/_miniyaml.py:137-165 | one dash item, with the mapping that may continue it |
| MiniYaml.LoadLines | ENV2_COMPOSE/config/_miniyaml.py:169-172 | reads the top-level mapping at column 0 |
| MiniYaml.BareDashIsNoItem | ENV2_COMPOSE/config/_miniyaml.py:138-142 | the branch for a bare dash is dead: no stripped line is a dash and a space alone |
| MiniYamlText.StripLines | ENV2_COMPOSE/config/_miniyaml.py:20-29 | drops blank and comment lines, refuses tabs, strips the right end |
| MiniYamlText.LoadDocument | ENV2_COMPOSE/config/_miniyaml.py:169-172 | reads a whole text |
| MiniYamlInline.ScalarExactly | ENV2_COMPOSE/config/_miniyaml.py:36-52 | a trimmed text is read as a scalar exactly when it is a way to write it: quoted with either quote, true or false, a numeral with its sign and digit groups, or a bare word that is none of these |
| MiniYamlFlow.FlowBack | ENV2_COMPOSE/config/_miniyaml.py:55-69 | a flow mapping with distinct keys, whatever the white space and the blank parts in it, is read as all its entries in order |
| MiniYamlFlow.LastValueStands | ENV2_COMPOSE/config/_miniyaml.py:60-69 | a key given more than once has the value it was given last |
| MiniYamlFlow.FlowRefusesExactly | ENV2_COMPOSE/config/_miniyaml.py:62-67 | a flow mapping is refused exactly when a part is neither blank nor key: value |
| MiniYamlFlow.AssignIs | ENV2_COMPOSE/config/_miniyaml.py:68-68 | assignment gives its key the value and leaves the others; a known key keeps its place and a new one comes last |
| MiniYamlRoundTrip.ValueBack | ENV2_COMPOSE/config/_miniyaml.py:86-97 | the value behind a key is read back, inline, as a flow mapping or from its nested block at any deeper column, and the cursor ends just past it |
| MiniYamlRoundTrip.FieldsBack | ENV2_COMPOSE/config/_miniyaml.py:113-128 | the same for a block mapping, wherever it stands |
| MiniYamlRoundTrip.ItemsBack | ENV2_COMPOSE/config/_miniyaml.py:131-166 | the same for a block sequence |
| MiniYamlRoundTrip.NullHeadBack | ENV2_COMPOSE/config/_miniyaml.py:143-153 | a list item that starts with a null takes the rest of its mapping for the null's nested block |
| MiniYamlRoundTrip.PrintedIsRead | ENV2_COMPOSE/config/_miniyaml.py:86-172 | reading a document as written never fails and gives what it means, but for such items |
| MiniYamlRoundTrip.RoundTripExactly | ENV2_COMPOSE/config/_miniyaml.py:86-172 | the round trip holds exactly when no list item in the document is such an item |
| MiniYamlRoundTrip.StrayLineIsRefused | ENV2_COMPOSE/config/_miniyaml.py:118-122 | a line at column 0 behind a document that is neither an entry nor a list item is an error |
| MiniYamlWriting.EveryDocumentCanBeWritten | ENV2_COMPOSE/config/_miniyaml.py:86-172 | every document of mappings, lists and scalars the reader has a form for has a valid way to be written that means it |
| MiniYamlWriting.NullFirstEntrySwallows | ENV2_COMPOSE/config/_miniyaml.py:143-153 | the smallest document that does not survive |
| MiniYamlText.IgnoredExactly | ENV2_COMPOSE/config/_miniyaml.py:22-25 | the lines dropped are exactly the blank ones and the comments |
| MiniYamlText.TabsAreRefusedExactly | ENV2_COMPOSE/config/_miniyaml.py:22-28 | a text is refused for its lines exactly when one that is kept holds a tab |
| MiniYamlText.PrintedTextIsRead | ENV2_COMPOSE/config/_miniyaml.py:20-172 | a document as written, laid out with comments, blank lines and trailing spaces, and without tabs and line breaks in its strings, is read back, but for such items |
| MiniYamlText.ReadTextIsClean | ENV2_COMPOSE/config/_miniyaml.py:20-172 | no text at all gives a value holding a tab or a line break |
| MiniYamlText.TextRoundTripExactly | ENV2_COMPOSE/config/_miniyaml.py:20-172 | the round trip of a text holds exactly when its strings hold no tab or line break and no list item starts with a null and goes on |
| InstanceIds.SanitizedIsValid | twinfactory/util.py:104-110 | sanitizing gives a valid id, and leaves alone exactly the valid ids |
| InstanceIds.SanitizeIsExact | twinfactory/util.py:104-110 | an id is the runs of letters and digits of the raw text, in lower case, with single dashes between; without any, or over forty characters, it is refused |
| InstanceIds.ProjectIs | twinfactory/plan.py:34-34 | the compose project is twin_ and the id with underscores for dashes |
| InstanceIds.ProjectsDiffer | twinfactory/plan.py:34-34 | different ids have different compose projects |
| Allocator.ProbePort | twinfactory/plan.py:51-54 | the port loop ends, with the first free port round the ring |
| Allocator.ProbeOctet | twinfactory/plan.py:55-59 | the subnet loop ends, with the first free even octet round the ring |
| Allocator.PlanInstance | twinfactory/plan.py:45-63 | plans against the records of all other instances |
| Allocator.FirstFreeIs | twinfactory/plan.py:51-59 | a probing loop ends with the first free number round its ring, and never ends exactly when all are used |
| Allocator.Pigeonhole | twinfactory/plan.py:51-59 | with fewer used slots than slots the loop ends |
| Instances.RegistryFile.Upsert | twinfactory/registry.py:45-54 | writes one record and keeps the others |
| Instances.RegistryFile.Remove | twinfactory/registry.py:63-70 | drops one record and keeps the others |
| Instances.Factory.SaveManifest | twinfactory/factory.py:76-81 | manifest and registry both carry the record |
| Instances.Factory.Create | twinfactory/factory.py:107-144 | refuses an invalid id, or a live one without force, and changes nothing; otherwise registry and manifest get the planned record and every other stays |
| Instances.Factory.Destroy | twinfactory/factory.py:397-433 | removes the record of an id that has a manifest, keeps the others and every manifest |
| Instances.Factory.Save | twinfactory/factory.py:382-394 | what stop, reset and the others do to the registry: the manifest's record is registered, and no manifest changes |
| Instances.PlannedNumbersAreFirst | twinfactory/plan.py:45-59 | a plan takes the first free port and the first free even octet from where the hash says, round 800 ports and 99 octets, free of the other instances and of 16 and 17 |
| Instances.PlannedIsApart | twinfactory/plan.py:45-63 | a planned instance shares no port, arena subnet, ingress subnet or project with any other live one, and its numbers are in range |
| Instances.LiveInstancesStayApart | twinfactory/factory.py:107-144 | over every history that saves only registered instances the live ones stay pairwise apart and in range |
| Instances.PlanningEndsExactly | twinfactory/plan.py:45-59 | with the live instances apart, planning ends exactly when fewer than 99 others are live |
| Instances.RevivalIsSafeExactly | twinfactory/factory.py:76-81 | saving a destroyed instance keeps the live ones apart exactly when nobody has its port or its subnet |
| Instances.RevivalCanCollide | twinfactory/factory.py:382-394 | for every hash there are two valid ids such that creating the first, destroying it, creating the second and stopping the first leaves both live on one port |
| Instances.RevivalCollides | twinfactory/factory.py:382-394 | it happens for any two ids with the same preferred port |
| ProfileDerivation.Derivation.AddService | twinfactory/profiles.py:236-243 | traces a known recipe every time and adds it once; says whether it was new |
| ProfileDerivation.Derivation.RunPass | twinfactory/profiles.py:278-324 | one pass over a snapshot of the services is the specified pass, and says whether anything was added |
| ProfileDerivation.Derivation.RunToFixedPoint | twinfactory/profiles.py:275-325 | the loop ends, with the specified result, within one pass more than there are recipes not yet included |
| ProfileDerivation.Derivation.RunSeeds | twinfactory/profiles.py:225-325 | seeds and closure together |
| Profiles.PassesAreBounded | twinfactory/profiles.py:275-325 | every pass but the last adds a service |
| Profiles.DerivedIsClosure | twinfactory/profiles.py:225-325 | the derived services are the least set that holds the seeds and is closed under the rules |
| Profiles.DerivedIsReachable | twinfactory/profiles.py:225-325 | a service is derived exactly when a chain of pulls leads to it from a seed |
| Profiles.OrderDoesNotMatter | twinfactory/profiles.py:225-325 | the order in which seeds and rules are tried does not change the services |
| Profiles.TraceIsExact | twinfactory/profiles.py:236-243 | the trace of a service holds exactly the seeds that name it and the rules of derived services that pull it in |
| Profiles.EveryServiceHasAReason | twinfactory/profiles.py:326-328 | no service is derived without a reason |
| TrustVariant.ApplyTrustVariant | twinfactory/profiles.py:166-185 | the loop over the roles computes the specified swap |
| TrustVariant.VariantIsExact | twinfactory/profiles.py:166-185 | of a touched role exactly the chosen variant's services with a recipe are left, of any other role nothing |
| TrustVariant.OnlyRolesChange | twinfactory/profiles.py:166-185 | services outside the roles are left alone |
| TrustVariant.StillTouched | twinfactory/profiles.py:166-185 | after a swap some name of a role is left exactly when the role was touched and a name of the chosen set has a recipe |
| TrustVariant.OneSetIsKeptExactly | twinfactory/profiles.py:166-185 | of a touched role exactly the chosen implementation set is kept, whole and without the other, if and only if every name of it has a recipe |
| TrustVariant.GatewayCanVanish | twinfactory/profiles.py:32-40 | with the program's own role table and a recipe for edge-kong only, the substitute variant leaves no gateway |
| TrustVariant.DatastoreCanStandAlone | twinfactory/profiles.py:32-40 | with the program's own role table and recipes for kong-lite and postgres-kong only, the real variant leaves the datastore without a gateway |
| TrustVariant.TrustJobsFor | twinfactory/profiles.py:188-193 | the loop over the jobs computes the specified list |
| TrustVariant.JobsFollowTheVariant | twinfactory/profiles.py:188-193 | after the swap a role's job is due exactly for the real variant of a touched role whose job, store and service have recipes |
| TrustVariant.TheRolesAreWellFormed | twinfactory/profiles.py:35-40 | in the program's role table no name belongs to two roles or to both variants |
| TrustVariant.TheJobsBelong | twinfactory/profiles.py:43-52 | every job of the program's table has its store and its service in one role's real set |
| ReplayIdentities.PayoutIdentities | ENV2_COMPOSE/scripts/compare-replays.py:70-92 | the loop over tests and their records picks the responses that create payouts and computes the specified identities |
| ReplayIdentities.PayoutsAreNamed | ENV2_COMPOSE/scripts/compare-replays.py:70-92 | a payout is named after the last test whose responses create it, and numbered by how many payouts that test created before |
| ReplayIdentities.IdentitiesAreGiven | ENV2_COMPOSE/scripts/compare-replays.py:70-92 | no two payouts get one identity, and none looks like a numbered label of a kind without a colon |
| ReplayCaptures.RegisterCaptures | ENV2_COMPOSE/scripts/compare-replays.py:222-248 | the loop over the sorted captures computes the specified labels |
| ReplayCaptures.StartingLabelsAreGivenExactly | ENV2_COMPOSE/scripts/compare-replays.py:222-248 | the table of payout identities and captured events gives no two ids one label, and none that looks like a numbered label, exactly when no two event groups have one digest |
| ReplayCaptures.GroupsAreNumbered | ENV2_COMPOSE/scripts/compare-replays.py:243-248 | the events of each group are labelled event_, the digest and a number, from one on without a gap |
| ReplayCaptures.SameGroupExactly | ENV2_COMPOSE/scripts/compare-replays.py:232-241 | two events belong together exactly when owner, event, status and amount are the same and their payouts are called alike |
| ReplayCaptures.ReplaysAgreeExactly | ENV2_COMPOSE/scripts/compare-replays.py:298-303 | two runs, each from its own such table, get the same labels exactly when they use their ids in the same way |
| ReplayAliases.Normalizer.Alias | ENV2_COMPOSE/scripts/compare-replays.py:101-105 | returns the known label, or the next number of its kind |
| ReplayAliases.Normalizer.NumericId | ENV2_COMPOSE/scripts/compare-replays.py:131-137 | the same for positive numbers; other numbers stay as they are |
| ReplayAliases.LabelsDiffer | ENV2_COMPOSE/scripts/compare-replays.py:101-105 | equal labels have equal kinds and numbers |
| ReplayAliases.LabelsAreNumbered | ENV2_COMPOSE/scripts/compare-replays.py:101-105 | an id given beforehand keeps its label; any other is its kind, an underscore and the number of its first occurrence among the new ids of its kind, counted on from the given ones |
| ReplayAliases.SameLabelsExactly | ENV2_COMPOSE/scripts/compare-replays.py:95-137 | two runs, each from its own given labels, pairwise different and unlike the numbered labels of the kinds observed, get the same labels exactly when they use their ids in the same way |
| ReplayAliases.SameLabelsUpToRenaming | ENV2_COMPOSE/scripts/compare-replays.py:95-137 | without given identities: the same labels exactly when a kind-preserving one-to-one renaming carries one run to the other |
| ReplayPairing.Matches | ENV2_COMPOSE/scripts/compare-replays.py:282-282 | the outstanding requests with the response's method and URL |
| ReplayPairing.PairResponses | ENV2_COMPOSE/scripts/compare-replays.py:277-297 | the loop accepts exactly the traces that can be paired in one and only one way, with that pairing; when it reports a missing request or response there is no pairing at all |
| ReplayPairing.TwoCandidates | ENV2_COMPOSE/scripts/compare-replays.py:284-287 | when two outstanding requests fit a response, any pairing of the trace can be changed into another |
| ReplayPairing.OneCandidate | ENV2_COMPOSE/scripts/compare-replays.py:288-288 | when one fits, every pairing of the trace takes it |
| SourceLock.LockBuilder.AddInventory | archkit/lock.py:21-31 | an inventory row sets its repository's entry, whatever that was |
| SourceLock.LockBuilder.AddSourceToPay | archkit/lock.py:32-45 | the loop merges each record into its repository's entry, preferring the new one among equally long ones |
| SourceLock.LockBuilder.AddGraph | archkit/lock.py:46-61 | the loop merges each graph node, preferring the old one among equally long ones; both are one merge |
| SourceLock.BuildSourceLock | archkit/lock.py:19-61 | every entry: the commit of the last inventory row, cut to forty characters, is a prefix of the final one, which is it or a later record's; every later record is a prefix of it or a conflict; and the conflicts are the incompatible records, in order |
| SourceLock.InventoryIsKept | archkit/lock.py:17-31 | the inventory's commit is the final one when no later record properly extends it, and every later record incompatible with it is a conflict |
| SourceLock.ConflictsInOrder | archkit/lock.py:39-55 | the conflicts a merge adds are the records incompatible with its result, in order and each as often as it came |
| SourceLock.OnlyGrows | archkit/lock.py:31-60 | the commit only grows by extension, and conflicts are only added |
| SourceLock.LockPartitions | archkit/lock.py:31-60 | every later commit is a prefix of the final one or a conflict, and the conflicts are exactly the commits incompatible with the final one |
| SourceLock.NoConflictExactly | archkit/lock.py:31-60 | from any entry without conflicts, such as the inventory's, there is no conflict exactly when its commit and the later records are pairwise compatible |
| SourceLock.LockHasNoConflictExactly | archkit/lock.py:19-60 | the same for every repository of the lock, its inventory row included |
| SourceLock.OrderDoesNotMatter | archkit/lock.py:31-60 | without conflicts the order of the later records does not change the entry, whatever commit it started from |

## Left out

- CampaignSafety.NoTaskIsLost: Directors die at tick boundaries or inside the executor; `CampaignKills` has the kills between the writes of a dispatch and of a lease recovery. Kills inside twin recovery, planning and scheduling (controlplane/scheduler.py:72-133) are not modelled.
- CampaignDrain.DrainEnds: every tick advances the clock by at least one second, workers propose a bounded number of candidates, and neither the kill file nor the pause file appears.
- CampaignBudget.OvershootIsBounded: counts tool calls; the USD cost is an oracle that may stop any tick. The late calls of workers that outlive their Director are a number per tick here and tied to workers in OvershootWithOrphans; their late candidates are not modelled.
- CampaignScheduling.ReplicasStayApart: asks that a replaced twin keep its lineage, which the factory does by naming it after the twin it replaces.
- ControlStore.LedgerIsTable: workers of other processes that call `next_id` at the same moment are not part of it; the number is read and used without holding the lock.
- ControlStore.UpdateTabulates: an update names a row that exists, as every caller does.
- Engine.Director.Plan: the proposals, whether from a model or from the heuristic over the subjects, come from outside.
- Engine.Director.Resume: the pause file and the phase are not part of it.
- Worker.RunTask: asks for a run that has an end; `RunEndsExactly` says which have none, and the source would loop on those.
- SeqLog.NumbersNeverRepeat: an append is atomic; torn lines are not modelled.
- MiniYamlText.TextRoundTripExactly: the printer writes no list inside a list, no empty or null list item and no empty list, because the reader has no form for them; integers are ASCII digits, of any length (Python refuses more than 4300).
- Instances.LiveInstancesStayApart: operations happen one after the other; the registry lock is not held from planning to writing.
- InstanceIds.SanitizedIsValid: lower-casing is that of ASCII letters.
- SourceLock.BuildSourceLock: the `sources`, `remote` and role columns of an entry are not part of it.
- Cells (controlplane/cells.py): a cell names its theses and its twin, and no decision about tasks reads it.
- `identity_reachability` (archkit/query.py:242-266): another breadth-first search with several starts, over the same theory.
- Campaign `phase` values and the pause and drain commands: `_finalize` overwrites the phase at every stop; draining is an argument of the run.
- Exceptions of the factory's `recover` and of the ledgers' file system: a failed recovery is a twin without a replacement.
- Ties between tasks created at the same moment are broken by a given order of ids.
- Replay normalization of whole records and clock fields: text rewriting around the numbering. Captured events come in their sorted order.
- Rule lookups R1 to R11 of the profile derivation: a finite function from a service to what it pulls in.
- Instances.RegistryFile.Upsert: of a record the fields that allocation uses; all of them are overwritten, the creation time is not part of it.
- Instances.RegistryFile.Remove: the list of destroyed instances is not part of it.
- ReplayIdentities.PayoutIdentities: the tests come in the order of their names, and unreadable files are left out.
- SourceLock.LockBuilder.AddInventory: the rows are those of repositories, under their lower-case names.
- Instances.Factory.Destroy: the manifest's state and times are not part of it; ids are given in their sanitized form; the source files a manifest under the id as given.
- Sizing, seeds, hashes, fingerprints, JSON, Docker, compose, HTTP, model clients, reports, benches and user interfaces.
