/**
 Who comes first: the order in which ready tasks are dispatched and open theses get their tasks, with the comparisons
 written out, and what a planning, a scheduling and a dispatching pass leave for later.
 */
module CampaignOrder {
  import opened Campaign
  import opened CampaignSafety
  import opened CampaignRecords

  // ---- ready tasks ---------------------------------------------------------------------------------

  /** Higher priority first, then the older task, then the smaller id. */
  predicate TaskAhead(cfg: Config, tasks: seq<Task>, i: nat, j: nat)
    requires i < |tasks| && j < |tasks|
  {
    var t, u := tasks[i], tasks[j];
    if t.priority != u.priority then t.priority > u.priority
    else if t.created != u.created then t.created < u.created
    else cfg.rank(i) < cfg.rank(j)
  }

  /** The first C ready tasks are dispatched, in order: nobody left waiting is ahead of anybody sent. */
  lemma {:induction false} FirstTasksAreSent(cfg: Config, s: State)
    ensures var q := Take(ReadyTasks(cfg, s.tasks), cfg.concurrency);
            InRange(q, |s.tasks|) && Distinct(q) && |q| <= cfg.concurrency &&
            (forall i: nat :: i in q ==> i < |s.tasks| && s.tasks[i].status.Ready?) &&
            (forall a, b :: 0 <= a < b < |q| ==> !TaskAhead(cfg, s.tasks, q[b], q[a])) &&
            (forall i: nat :: i < |s.tasks| && s.tasks[i].status.Ready? && i !in q ==>
               |q| == cfg.concurrency && forall a :: 0 <= a < |q| ==> !TaskAhead(cfg, s.tasks, i, q[a]))
  {
    var all := ReadyTasks(cfg, s.tasks);
    var q := Take(all, cfg.concurrency);
    ReadyQueue(cfg, s.tasks);
    forall i: nat | i < |s.tasks| && s.tasks[i].status.Ready? && i !in q
      ensures |q| == cfg.concurrency && forall a :: 0 <= a < |q| ==> !TaskAhead(cfg, s.tasks, i, q[a])
    {
      assert i in all;
      var b :| 0 <= b < |all| && all[b] == i;
      assert b >= |q|;
      forall a | 0 <= a < |q| ensures !TaskAhead(cfg, s.tasks, i, q[a]) { assert q[a] == all[a]; }
    }
    forall i: nat | i in q ensures i < |s.tasks| && s.tasks[i].status.Ready? { assert i in all; }
  }

  // ---- open theses -----------------------------------------------------------------------------------

  /** Higher priority first, then the smaller id. */
  predicate ThesisAhead(cfg: Config, theses: seq<Thesis>, g: nat, h: nat)
    requires g < |theses| && h < |theses|
  {
    if theses[g].priority != theses[h].priority then theses[g].priority > theses[h].priority
    else cfg.rank(g) < cfg.rank(h)
  }

  /** The scheduling queue holds each open thesis once, in order. */
  lemma {:induction false} ThesisQueue(cfg: Config, theses: seq<Thesis>)
    ensures var q := OpenTheses(cfg, theses);
            Distinct(q) && InRange(q, |theses|) &&
            (forall h: nat :: h in q <==> h < |theses| && theses[h].status.Open?) &&
            forall a, b :: 0 <= a < b < |q| ==> !ThesisAhead(cfg, theses, q[b], q[a])
  {
    var before := (g: nat, h: nat) => ThesisBefore(cfg, theses, g, h);
    var keep := (h: nat) => h < |theses| && theses[h].status.Open?;
    QueueDistinct(|theses|, keep, before);
    QueueSorted(|theses|, keep, before);
    var q := OpenTheses(cfg, theses);
    forall a, b | 0 <= a < b < |q| ensures !ThesisAhead(cfg, theses, q[b], q[a]) { assert !before(q[b], q[a]); }
  }

  /** The pass schedules the queue up to some place `k`: to its end, or until it has made twelve tasks. */
  lemma {:induction false} SchedulesUpTo(cfg: Config, s: State, q: seq<nat>, made: nat) returns (k: nat)
    requires cfg.twins != [] && InRange(q, |s.theses|) && Distinct(q)
    ensures var r := ScheduleTheses(cfg, s, q, made);
            var added := |r.tasks| - |s.tasks|;
            k <= |q| && |r.theses| == |s.theses| && added >= 0 &&
            (forall a :: 0 <= a < k ==> r.theses[q[a]] == s.theses[q[a]].(status := Scheduled)) &&
            (forall h :: 0 <= h < |s.theses| && (forall a :: 0 <= a < k ==> q[a] != h) ==>
              r.theses[h] == s.theses[h]) &&
            (k < |q| ==> made + added >= 12) && (if k == 0 then added == 0 else made + added <= 13)
    decreases |q|
  {
    if q == [] || made >= MAX_NEW_TASKS { k := 0; }
    else {
      var s1 := ScheduleThesis(cfg, s, q[0]);
      ThesisTasksAreFew(cfg, s, q[0]);
      var more := made + |s1.tasks| - |s.tasks|;
      var rest := SchedulesUpTo(cfg, s1, q[1..], more);
      k := rest + 1;
      var r := ScheduleTheses(cfg, s1, q[1..], more);
      assert r == ScheduleTheses(cfg, s, q, made);
      assert forall a :: 0 <= a < rest ==> q[1..][a] == q[a + 1];
      assert forall a :: 0 <= a < rest ==> q[1..][a] != q[0];
      assert r.theses[q[0]] == s1.theses[q[0]];
      forall a | 0 <= a < k ensures r.theses[q[a]] == s.theses[q[a]].(status := Scheduled) {
        if a > 0 { assert q[1..][a - 1] == q[a] && q[a] != q[0]; }
      }
      forall h | 0 <= h < |s.theses| && forall a :: 0 <= a < k ==> q[a] != h ensures r.theses[h] == s.theses[h] {
        assert q[0] != h;
        forall a | 0 <= a < rest ensures q[1..][a] != h { assert q[a + 1] != h; }
      }
    }
  }

  lemma {:induction false} ThesisTasksAreFew(cfg: Config, s: State, h: nat)
    requires cfg.twins != [] && h < |s.theses|
    ensures var r := ScheduleThesis(cfg, s, h);
            |s.tasks| <= |r.tasks| <= |s.tasks| + 2 && r.theses == s.theses[h := s.theses[h].(status := Scheduled)]
  {
  }

  /** After a pass no thesis still open is ahead of one the pass scheduled; some are still open only when it made twelve
      tasks, or thirteen; and nothing else about theses changes. */
  lemma {:induction false} FirstThesesAreScheduled(cfg: Config, s: State)
    requires cfg.twins != []
    ensures var r := ScheduleTheses(cfg, s, OpenTheses(cfg, s.theses), 0);
            var added := |r.tasks| - |s.tasks|;
            |r.theses| == |s.theses| && 0 <= added <= 13 &&
            (forall h :: 0 <= h < |s.theses| ==>
               r.theses[h] == s.theses[h] ||
               (s.theses[h].status.Open? && r.theses[h] == s.theses[h].(status := Scheduled))) &&
            (forall g, h ::
               (0 <= g < |s.theses| && s.theses[g].status.Open? && r.theses[g].status.Open? &&
                0 <= h < |s.theses| && s.theses[h].status.Open? && r.theses[h].status.Scheduled?) ==>
                 !ThesisAhead(cfg, s.theses, g, h)) &&
            ((exists g :: 0 <= g < |s.theses| && r.theses[g].status.Open?) ==> added >= 12)
  {
    var q := OpenTheses(cfg, s.theses);
    ThesisQueue(cfg, s.theses);
    var k := SchedulesUpTo(cfg, s, q, 0);
    var r := ScheduleTheses(cfg, s, q, 0);
    forall h | 0 <= h < |s.theses| && s.theses[h].status.Open? ensures exists a :: 0 <= a < |q| && q[a] == h {
      assert h in q;
    }
    forall h | 0 <= h < |s.theses|
      ensures r.theses[h] == s.theses[h] ||
              (s.theses[h].status.Open? && r.theses[h] == s.theses[h].(status := Scheduled))
    {
      if a :| 0 <= a < k && q[a] == h { assert h in q; }
    }
    forall g, h | 0 <= g < |s.theses| && 0 <= h < |s.theses| && s.theses[g].status.Open? && r.theses[g].status.Open? &&
                  s.theses[h].status.Open? && r.theses[h].status.Scheduled?
      ensures !ThesisAhead(cfg, s.theses, g, h)
    {
      var b :| 0 <= b < |q| && q[b] == g;
      var a :| 0 <= a < k && q[a] == h;
      assert b >= k;
    }
    if g :| 0 <= g < |s.theses| && r.theses[g].status.Open? {
      assert r.theses[g] == s.theses[g];
      var b :| 0 <= b < |q| && q[b] == g;
      assert b >= k;
    }
  }

  // ---- planning -------------------------------------------------------------------------------------

  /** A tick plans, once, exactly when it is not draining and the planning floor is not met or neither a ready task nor
      an open thesis is left; without planning it finds no new thesis. */
  lemma {:induction false} PlansWhenWorkRunsOut(cfg: Config, s: State, env: TickEnv, drain: bool)
    requires cfg.twins != []
    ensures var m, p := RecoverTwins(cfg, RecoverLeases(s), env.twins, 0), Prepare(cfg, s, env, drain);
            var plans := !drain &&
              (s.cycles < cfg.minCycles ||
               ((forall t <- m.tasks :: !t.status.Ready?) && forall h <- s.theses :: !h.status.Open?));
            p.cycles == s.cycles + (if plans then 1 else 0) &&
            p.modelCalls == s.modelCalls + (if plans then env.planCalls else 0) &&
            |p.theses| == |if plans then ProposeAll(s.theses, env.proposals) else s.theses|
  {
    var s1 := RecoverLeases(s);
    TwinsKeepTheRest(cfg, s1, env.twins, 0);
    var m := RecoverTwins(cfg, s1, env.twins, 0);
    var p := PlanIfNeeded(cfg, m, env);
    PlanWanted(cfg, m);
    SchedulingKeepsTheRest(cfg, p, OpenTheses(cfg, p.theses), 0);
    FirstThesesAreScheduled(cfg, p);
    var s3 := if drain then m else ScheduleTheses(cfg, p, OpenTheses(cfg, p.theses), 0);
    var _, _ := VerificationsAreScheduled(s3, s3.tasks, 0);
  }

  lemma {:induction false} PlanWanted(cfg: Config, s: State)
    ensures WantsPlan(cfg, s) <==>
              s.cycles < cfg.minCycles ||
              ((forall t <- s.tasks :: !t.status.Ready?) && forall h <- s.theses :: !h.status.Open?)
  {
    if forall i :: 0 <= i < |s.tasks| ==> !s.tasks[i].status.Ready? {
      forall t | t in s.tasks ensures !t.status.Ready? {
        var i :| 0 <= i < |s.tasks| && s.tasks[i] == t;
      }
    } else {
      var i :| 0 <= i < |s.tasks| && s.tasks[i].status.Ready?;
      assert s.tasks[i] in s.tasks;
    }
    if forall h :: 0 <= h < |s.theses| ==> !s.theses[h].status.Open? {
      forall h | h in s.theses ensures !h.status.Open? {
        var i :| 0 <= i < |s.theses| && s.theses[i] == h;
      }
    } else {
      var h :| 0 <= h < |s.theses| && s.theses[h].status.Open?;
      assert s.theses[h] in s.theses;
    }
  }
}
