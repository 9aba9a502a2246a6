/**
 The bounded turn loop of one worker (controlplane/worker.py, `run_task`): how many actions it may take,
 when it gives up on its models, and why it always comes back.
 */
module Worker {
  /** What the model client and the broker answer in one turn.  `fallback` says the router has another model;
      of `calls` tool calls only the first `upTo` are made when one of them concludes the task. */
  datatype Reply = Raises(fallback: bool)
                 | Unusable(fallback: bool)
                 | Talk
                 | Tools(calls: nat, concludes: bool, upTo: nat)

  datatype Turn = Turn(stop: bool, pause: bool, took: nat, reply: Reply)
  {
    predicate Bad() { reply.Raises? || reply.Unusable? }
    predicate Stuck() { Bad() && !reply.fallback }
    /** It changes the model, and nothing else. */
    predicate Idles() { Bad() && reply.fallback && took == 0 && !stop && !pause }
    predicate Concludes() { reply.Tools? && reply.concludes && 0 < reply.upTo <= reply.calls }
    function ToolCalls(): nat { if Concludes() then reply.upTo else if reply.Tools? then reply.calls else 0 }
    /** A model that raises leaves no record. */
    function ModelCalls(): nat { if reply.Raises? then 0 else 1 }
    /** A reply without a tool call still costs one action. */
    function Actions(): nat { if reply.Talk? || (reply.Tools? && reply.calls == 0) then 1 else ToolCalls() }
  }

  datatype Reason = ActionBudget | KillSwitch | Paused | TimeBudget | ModelUnusable | Concluded

  /** Consecutive unusable turns that end a worker without a fallback. */
  const PATIENCE: nat := 3

  // ---- the totals after the first n turns -------------------------------------------------

  function Elapsed(turn: nat -> Turn, n: nat): nat { if n == 0 then 0 else Elapsed(turn, n - 1) + turn(n - 1).took }

  function ActionsOf(turn: nat -> Turn, n: nat): nat {
    if n == 0 then 0 else ActionsOf(turn, n - 1) + turn(n - 1).Actions()
  }

  function ToolCallsOf(turn: nat -> Turn, n: nat): nat {
    if n == 0 then 0 else ToolCallsOf(turn, n - 1) + turn(n - 1).ToolCalls()
  }

  function ModelCallsOf(turn: nat -> Turn, n: nat): nat {
    if n == 0 then 0 else ModelCallsOf(turn, n - 1) + turn(n - 1).ModelCalls()
  }

  /** How many turns in a row, up to the n-th, were unusable. */
  function Streak(turn: nat -> Turn, n: nat): nat {
    if n == 0 || !turn(n - 1).Bad() then 0 else Streak(turn, n - 1) + 1
  }

  /** Turn `k` is begun: nothing asks the worker to stop, and both bounds leave room. */
  predicate Begins(maxActions: nat, maxDur: nat, turn: nat -> Turn, k: nat) {
    !turn(k).stop && !turn(k).pause && Elapsed(turn, k) < maxDur && ActionsOf(turn, k) < maxActions
  }

  /** Turn `k` is the last: it concludes, or it is one unusable turn too many with no model left to try. */
  predicate Ends(turn: nat -> Turn, k: nat) {
    turn(k).Concludes() || (turn(k).Stuck() && Streak(turn, k + 1) >= PATIENCE)
  }

  /** Nothing before turn `n` ended the loop, and every one of these turns was begun. */
  predicate Reaches(maxActions: nat, maxDur: nat, turn: nat -> Turn, n: nat) {
    forall k :: 0 <= k < n ==> Begins(maxActions, maxDur, turn, k) && !Ends(turn, k)
  }

  /** The worker stops for `reason` having begun exactly `n` turns. */
  predicate RunOf(maxActions: nat, maxDur: nat, turn: nat -> Turn, reason: Reason, n: nat) {
    match reason
    case Concluded =>
      n > 0 && Reaches(maxActions, maxDur, turn, n - 1) && Begins(maxActions, maxDur, turn, n - 1) &&
        turn(n - 1).Concludes()
    case ModelUnusable =>
      n > 0 && Reaches(maxActions, maxDur, turn, n - 1) && Begins(maxActions, maxDur, turn, n - 1) &&
      turn(n - 1).Stuck() && Streak(turn, n) >= PATIENCE
    case ActionBudget => Reaches(maxActions, maxDur, turn, n) && ActionsOf(turn, n) >= maxActions
    case KillSwitch => Reaches(maxActions, maxDur, turn, n) && ActionsOf(turn, n) < maxActions && turn(n).stop
    case Paused => Reaches(maxActions, maxDur, turn, n) && ActionsOf(turn, n) < maxActions && !turn(n).stop &&
      turn(n).pause
    case TimeBudget =>
      Reaches(maxActions, maxDur, turn, n) && ActionsOf(turn, n) < maxActions && !turn(n).stop && !turn(n).pause &&
      Elapsed(turn, n) >= maxDur
  }

  ghost predicate HasEnd(maxActions: nat, maxDur: nat, turn: nat -> Turn) {
    exists reason: Reason, n: nat :: RunOf(maxActions, maxDur, turn, reason, n)
  }

  /** The tool calls of one response, up to the one that concludes. */
  method MakeCalls(t: Turn) returns (made: nat, concluded: bool)
    requires t.reply.Tools? && t.reply.calls > 0
    ensures made == t.ToolCalls() && concluded == t.Concludes()
  {
    made, concluded := 0, false;
    while made < t.reply.calls
      invariant 0 <= made <= t.reply.calls
      invariant t.Concludes() ==> made < t.reply.upTo
    {
      made := made + 1;
      if t.reply.concludes && made == t.reply.upTo { return made, true; }
    }
  }

  /** A run with an end reaches no turn after `last`. */
  lemma {:induction false} NoTurnAfter(maxActions: nat, maxDur: nat, turn: nat -> Turn) returns (last: nat)
    requires HasEnd(maxActions, maxDur, turn)
    ensures forall n: nat :: Reaches(maxActions, maxDur, turn, n) ==> n <= last
  {
    var reason: Reason, end: nat :| RunOf(maxActions, maxDur, turn, reason, end);
    last := end;
    forall n: nat | Reaches(maxActions, maxDur, turn, n) ensures n <= last {
      assert n <= last || (Begins(maxActions, maxDur, turn, last) && (last > 0 ==> !Ends(turn, last - 1)));
    }
  }

  /** Runs the task to its end, if it has one (`RunEndsExactly` says when). */
  method RunTask(maxActions: nat, maxDur: nat, turn: nat -> Turn)
    returns (reason: Reason, n: nat, actions: nat, toolCalls: nat, modelCalls: nat)
    requires HasEnd(maxActions, maxDur, turn)
    ensures RunOf(maxActions, maxDur, turn, reason, n)
    ensures actions == ActionsOf(turn, n) && toolCalls == ToolCallsOf(turn, n) && modelCalls == ModelCallsOf(turn, n)
  {
    ghost var last := NoTurnAfter(maxActions, maxDur, turn);
    var elapsed: nat, streak: nat := 0, 0;
    reason, n, actions, toolCalls, modelCalls := ActionBudget, 0, 0, 0, 0;
    while actions < maxActions
      invariant actions == ActionsOf(turn, n) && toolCalls == ToolCallsOf(turn, n) &&
                modelCalls == ModelCallsOf(turn, n)
      invariant elapsed == Elapsed(turn, n) && streak == Streak(turn, n)
      invariant Reaches(maxActions, maxDur, turn, n) && reason.ActionBudget?
      decreases last - n
    {
      var t := turn(n);
      if t.stop { reason := KillSwitch; return; }
      if t.pause { reason := Paused; return; }
      if elapsed >= maxDur { reason := TimeBudget; return; }
      n, elapsed := n + 1, elapsed + t.took;
      match t.reply {
        case Raises(fallback) =>
          streak := streak + 1;
          if !fallback && streak >= PATIENCE { reason := ModelUnusable; return; }
        case Unusable(fallback) =>
          streak, modelCalls := streak + 1, modelCalls + 1;
          if !fallback && streak >= PATIENCE { reason := ModelUnusable; return; }
        case Talk =>
          streak, actions, modelCalls := 0, actions + 1, modelCalls + 1;
        case Tools(calls, concludes, upTo) =>
          streak, modelCalls := 0, modelCalls + 1;
          if calls == 0 {
            actions := actions + 1;
          } else {
            var made, concluded := MakeCalls(t);
            actions, toolCalls := actions + made, toolCalls + made;
            if concluded { reason := Concluded; return; }
          }
      }
    }
  }

  // ---- when a run ends --------------------------------------------------------------------------

  /** From turn `k` on the router offers one failing model after the other while the clock stands still. */
  ghost predicate HangsFrom(maxActions: nat, maxDur: nat, turn: nat -> Turn, k: nat) {
    Reaches(maxActions, maxDur, turn, k) && Begins(maxActions, maxDur, turn, k) &&
      forall m: nat :: m >= k ==> turn(m).Idles()
  }

  lemma {:induction false} HangingReachesAll(maxActions: nat, maxDur: nat, turn: nat -> Turn, k: nat, n: nat)
    requires HangsFrom(maxActions, maxDur, turn, k) && k <= n
    ensures Reaches(maxActions, maxDur, turn, n) && Begins(maxActions, maxDur, turn, n)
    decreases n
  {
    if k < n {
      HangingReachesAll(maxActions, maxDur, turn, k, n - 1);
      assert turn(n - 1).Idles() && turn(n).Idles();
    }
  }

  function Room(bound: nat, used: nat): nat { if used < bound then bound - used else 0 }

  predicate Stops(maxActions: nat, maxDur: nat, turn: nat -> Turn, n: nat) {
    !Begins(maxActions, maxDur, turn, n) || Ends(turn, n)
  }

  lemma {:induction false} StopIsEnd(maxActions: nat, maxDur: nat, turn: nat -> Turn, n: nat)
    requires Reaches(maxActions, maxDur, turn, n) && Stops(maxActions, maxDur, turn, n)
    ensures HasEnd(maxActions, maxDur, turn)
  {
    var reason, end :=
      if ActionsOf(turn, n) >= maxActions then ActionBudget else if turn(n).stop then KillSwitch
      else if turn(n).pause then Paused else if Elapsed(turn, n) >= maxDur then TimeBudget
      else if turn(n).Concludes() then Concluded else ModelUnusable,
      if Begins(maxActions, maxDur, turn, n) then n + 1 else n;
    assert RunOf(maxActions, maxDur, turn, reason, end);
  }

  /** A turn before the `k`-th is the last, or the `k`-th is not begun. */
  lemma {:induction false} EndsBy(maxActions: nat, maxDur: nat, turn: nat -> Turn, n: nat, k: nat)
    requires n <= k && Reaches(maxActions, maxDur, turn, n)
    requires !(Reaches(maxActions, maxDur, turn, k) && Begins(maxActions, maxDur, turn, k))
    ensures HasEnd(maxActions, maxDur, turn)
    decreases k - n
  {
    if Stops(maxActions, maxDur, turn, n) { StopIsEnd(maxActions, maxDur, turn, n); }
    else { EndsBy(maxActions, maxDur, turn, n + 1, k); }
  }

  ghost predicate MovesLater(turn: nat -> Turn, k: nat) { exists m: nat :: m >= k && !turn(m).Idles() }

  /** With a turn that is not idle at `next`, and always one more: time, actions or patience run out. */
  lemma {:induction false} EndsFrom(maxActions: nat, maxDur: nat, turn: nat -> Turn, n: nat, next: nat)
    requires Reaches(maxActions, maxDur, turn, n) && n <= next && !turn(next).Idles()
    requires forall k: nat :: MovesLater(turn, k)
    ensures HasEnd(maxActions, maxDur, turn)
    decreases Room(maxDur, Elapsed(turn, n)), Room(maxActions, ActionsOf(turn, n)),
              Room(PATIENCE, Streak(turn, n)), next - n
  {
    if Stops(maxActions, maxDur, turn, n) { StopIsEnd(maxActions, maxDur, turn, n); }
    else {
      var later := next;
      if n == next {
        assert MovesLater(turn, n + 1);
        later :| later >= n + 1 && !turn(later).Idles();
      }
      EndsFrom(maxActions, maxDur, turn, n + 1, later);
    }
  }

  /** A run has an end exactly when it does not hang like that. */
  lemma {:induction false} RunEndsExactly(maxActions: nat, maxDur: nat, turn: nat -> Turn)
    ensures HasEnd(maxActions, maxDur, turn) <==> !exists k: nat :: HangsFrom(maxActions, maxDur, turn, k)
  {
    if k: nat :| HangsFrom(maxActions, maxDur, turn, k) {
      forall reason: Reason, n: nat ensures !RunOf(maxActions, maxDur, turn, reason, n) {
        HangingReachesAll(maxActions, maxDur, turn, k, n + k + 1);
        assert Begins(maxActions, maxDur, turn, n) && (n > 0 ==> !Ends(turn, n - 1));
      }
    } else if forall k: nat :: MovesLater(turn, k) {
      var next: nat :| !turn(next).Idles() by { assert MovesLater(turn, 0); }
      EndsFrom(maxActions, maxDur, turn, 0, next);
    } else {
      var k: nat :| !MovesLater(turn, k);
      assert !HangsFrom(maxActions, maxDur, turn, k);
      EndsBy(maxActions, maxDur, turn, 0, k);
    }
  }

  // ---- workers that are cut short ------------------------------------------------------------------

  /** What a worker left behind: `n` whole turns; and of the next one, whether its model call was recorded, and the
      first `made` of its tool calls. */
  datatype Stint = Stint(maxActions: nat, maxDur: nat, turn: nat -> Turn, n: nat, heard: bool, made: nat) {
    function Recorded(): nat { ToolCallsOf(turn, n) + made }

    function Heard(): nat { ModelCallsOf(turn, n) + if heard then 1 else 0 }

    /** The worker ended by itself. */
    predicate Finished(reason: Reason) { !heard && made == 0 && RunOf(maxActions, maxDur, turn, reason, n) }

    /** It crashed between two turns, or inside turn `n` after its model call and `made` of its tool calls. */
    predicate CutShort() {
      Reaches(maxActions, maxDur, turn, n) && made <= turn(n).ToolCalls() &&
      (made > 0 ==> heard) && (heard ==> Begins(maxActions, maxDur, turn, n) && !turn(n).reply.Raises?)
    }

    /** No response holds more than `burst` tool calls. */
    ghost predicate Bursts(burst: nat) { forall k: nat :: turn(k).ToolCalls() <= burst }
  }

  // ---- what stops a worker ---------------------------------------------------------------------------

  /** A turn without a tool call: talk, or an empty list of calls. */
  predicate OnlyTalks(t: Turn) { t.reply.Talk? || (t.reply.Tools? && t.reply.calls == 0) }

  function TalksOf(turn: nat -> Turn, n: nat): nat {
    if n == 0 then 0 else TalksOf(turn, n - 1) + if OnlyTalks(turn(n - 1)) then 1 else 0
  }

  /** The actions are the tool calls, and one for every turn without any. */
  lemma {:induction false} ActionsAreCounted(turn: nat -> Turn, n: nat)
    ensures ActionsOf(turn, n) == ToolCallsOf(turn, n) + TalksOf(turn, n)
  {
    if n > 0 { ActionsAreCounted(turn, n - 1); }
  }

  /** What a reply makes of the tools it names: all are called, or those up to the one that concludes. */
  lemma {:induction false} CallsOfATurn(t: Turn)
    ensures t.ToolCalls() ==
              match t.reply
              case Tools(calls, concludes, upTo) => if concludes && 1 <= upTo <= calls then upTo else calls
              case _ => 0
    ensures t.ModelCalls() == 0 <==> t.reply.Raises?
  {
  }

  /** At the head of turn `n`, that it came to: the bound on actions is asked first, then the kill switch, the pause and
      the clock; and the turn is begun exactly when all of them let it. */
  lemma {:induction false} HeadOfTurn(maxActions: nat, maxDur: nat, turn: nat -> Turn, n: nat)
    requires Reaches(maxActions, maxDur, turn, n)
    ensures var spent, late := ActionsOf(turn, n) >= maxActions, Elapsed(turn, n) >= maxDur;
            (RunOf(maxActions, maxDur, turn, ActionBudget, n) <==> spent) &&
            (RunOf(maxActions, maxDur, turn, KillSwitch, n) <==> !spent && turn(n).stop) &&
            (RunOf(maxActions, maxDur, turn, Paused, n) <==> !spent && !turn(n).stop && turn(n).pause) &&
            (RunOf(maxActions, maxDur, turn, TimeBudget, n) <==> !spent && !turn(n).stop && !turn(n).pause && late) &&
            (Begins(maxActions, maxDur, turn, n) <==> !spent && !turn(n).stop && !turn(n).pause && !late)
  {
  }

  /** Turn `n`, once begun, is the last exactly when a tool call concludes the task, or when it is unusable, with no
      other model to turn to, and so were the two before it, whatever they could turn to. */
  lemma {:induction false} EndOfTurn(maxActions: nat, maxDur: nat, turn: nat -> Turn, n: nat)
    requires Reaches(maxActions, maxDur, turn, n) && Begins(maxActions, maxDur, turn, n)
    ensures RunOf(maxActions, maxDur, turn, Concluded, n + 1) <==>
              turn(n).reply.Tools? && turn(n).reply.concludes && 1 <= turn(n).reply.upTo <= turn(n).reply.calls
    ensures RunOf(maxActions, maxDur, turn, ModelUnusable, n + 1) <==>
              n >= 2 && turn(n).Stuck() && turn(n - 1).Bad() && turn(n - 2).Bad()
    ensures Reaches(maxActions, maxDur, turn, n + 1) <==>
              !RunOf(maxActions, maxDur, turn, Concluded, n + 1) &&
                !RunOf(maxActions, maxDur, turn, ModelUnusable, n + 1)
  {
    assert Streak(turn, n + 1) == if turn(n).Bad() then Streak(turn, n) + 1 else 0;
    if n >= 1 { assert Streak(turn, n) == if turn(n - 1).Bad() then Streak(turn, n - 1) + 1 else 0; }
    if n >= 2 { assert Streak(turn, n - 1) == if turn(n - 2).Bad() then Streak(turn, n - 2) + 1 else 0; }
  }

  // ---- consequences --------------------------------------------------------------------------------

  lemma {:induction false} ToolsAreActions(turn: nat -> Turn, n: nat)
    ensures ToolCallsOf(turn, n) <= ActionsOf(turn, n)
  {
    if n > 0 { ToolsAreActions(turn, n - 1); }
  }

  /** A worker overshoots its action bound by less than one response: with at most `burst` tool calls per
      response it makes at most maxActions - 1 + burst of them. */
  lemma {:induction false} ToolCallsAreBounded(maxActions: nat, maxDur: nat, turn: nat -> Turn, reason: Reason, n: nat,
                                               burst: nat)
    requires RunOf(maxActions, maxDur, turn, reason, n)
    requires maxActions >= 1 && burst >= 1 && forall k: nat :: turn(k).ToolCalls() <= burst
    ensures ToolCallsOf(turn, n) <= ActionsOf(turn, n) <= maxActions - 1 + burst
  {
    ToolsAreActions(turn, n);
    if n > 0 {
      assert Begins(maxActions, maxDur, turn, n - 1);
      assert turn(n - 1).ToolCalls() <= burst;
    }
  }

  /** The same for a worker that is cut short, wherever that happens. */
  lemma {:induction false} InterruptedCallsAreBounded(w: Stint, burst: nat)
    requires w.CutShort() && burst >= 1 && w.Bursts(burst)
    ensures w.Recorded() <= w.maxActions + burst - 1
  {
    ToolsAreActions(w.turn, w.n);
    if w.made == 0 && w.n > 0 {
      assert Begins(w.maxActions, w.maxDur, w.turn, w.n - 1);
      assert w.turn(w.n - 1).ToolCalls() <= burst;
    }
  }

  lemma {:induction false} RecordedCallsAreBounded(w: Stint, burst: nat)
    requires w.CutShort() || exists reason :: w.Finished(reason)
    requires burst >= 1 && w.Bursts(burst)
    ensures w.Recorded() <= w.maxActions + burst - 1
  {
    if w.CutShort() { InterruptedCallsAreBounded(w, burst); }
    else {
      var reason :| w.Finished(reason);
      if w.n > 0 {
        ToolsAreActions(w.turn, w.n);
        assert Begins(w.maxActions, w.maxDur, w.turn, w.n - 1);
        assert w.turn(w.n - 1).ToolCalls() <= burst;
      }
    }
  }

  lemma {:induction false} TimeAdvances(turn: nat -> Turn, n: nat)
    requires forall k: nat :: turn(k).took >= 1
    ensures n <= Elapsed(turn, n)
  {
    if n > 0 { TimeAdvances(turn, n - 1); }
  }

  /** The time bound also bounds the turns, so the model calls. */
  lemma {:induction false} TurnsAreBounded(maxActions: nat, maxDur: nat, turn: nat -> Turn, reason: Reason, n: nat)
    requires RunOf(maxActions, maxDur, turn, reason, n) && forall k: nat :: turn(k).took >= 1
    ensures n <= maxDur
  {
    if n > 0 {
      assert Begins(maxActions, maxDur, turn, n - 1);
      TimeAdvances(turn, n - 1);
    }
  }

  lemma {:induction false} TurnsAreModelCalls(turn: nat -> Turn, n: nat)
    ensures ModelCallsOf(turn, n) <= n
  {
    if n > 0 { TurnsAreModelCalls(turn, n - 1); }
  }

  /** So it bounds the recorded model calls, of a worker that is cut short too. */
  lemma {:induction false} ModelCallsAreBounded(w: Stint)
    requires w.CutShort() || exists reason :: w.Finished(reason)
    requires forall k: nat :: w.turn(k).took >= 1
    ensures w.Heard() <= w.maxDur
  {
    TurnsAreModelCalls(w.turn, w.n);
    TimeAdvances(w.turn, w.n);
    if w.CutShort() {
      if w.n > 0 {
        assert Begins(w.maxActions, w.maxDur, w.turn, w.n - 1);
        TimeAdvances(w.turn, w.n - 1);
      }
    } else {
      var reason :| w.Finished(reason);
      TurnsAreBounded(w.maxActions, w.maxDur, w.turn, reason, w.n);
    }
  }

  lemma {:induction false} StreakIsBad(turn: nat -> Turn, n: nat)
    ensures Streak(turn, n) <= n && forall k :: n - Streak(turn, n) <= k < n ==> turn(k).Bad()
  {
    if n > 0 { StreakIsBad(turn, n - 1); }
  }

  /** A worker is only called unusable after three unusable turns in a row, the last with no model left. */
  lemma {:induction false} UnusableMeansThreeInARow(maxActions: nat, maxDur: nat, turn: nat -> Turn, n: nat)
    requires RunOf(maxActions, maxDur, turn, ModelUnusable, n)
    ensures n >= 3 && turn(n - 1).Stuck() && forall k :: n - 3 <= k < n ==> turn(k).Bad()
  {
    StreakIsBad(turn, n);
  }

  lemma {:induction false} BadTurnsCostNothing(turn: nat -> Turn, n: nat)
    requires forall k: nat :: turn(k).Bad()
    ensures ActionsOf(turn, n) == 0
  {
    if n > 0 { BadTurnsCostNothing(turn, n - 1); }
  }

  /** As long as the router always has another model to offer, failing models never end a worker:
      only the clock, or somebody asking it to stop, does. */
  lemma {:induction false} FailingModelsRunOutTheClock(maxActions: nat, maxDur: nat, turn: nat -> Turn, reason: Reason,
                                                       n: nat)
    requires RunOf(maxActions, maxDur, turn, reason, n) && maxActions >= 1
    requires forall k: nat :: turn(k).Bad() && turn(k).reply.fallback
    ensures reason.TimeBudget? || reason.KillSwitch? || reason.Paused?
  {
    BadTurnsCostNothing(turn, n);
    if n > 0 { assert turn(n - 1).Bad() && turn(n - 1).reply.fallback; }
  }

  /** The outcome is determined by what the outside world answers. */
  lemma {:induction false} OutcomeIsUnique(maxActions: nat, maxDur: nat, turn: nat -> Turn, r: Reason, m: nat,
                                           q: Reason, n: nat)
    requires RunOf(maxActions, maxDur, turn, r, m) && RunOf(maxActions, maxDur, turn, q, n)
    ensures r == q && m == n
  {
    NoSooner(maxActions, maxDur, turn, r, m, q, n);
    NoSooner(maxActions, maxDur, turn, q, n, r, m);
  }

  lemma {:induction false} NoSooner(maxActions: nat, maxDur: nat, turn: nat -> Turn, r: Reason, m: nat, q: Reason,
                                    n: nat)
    requires RunOf(maxActions, maxDur, turn, q, n)
    ensures m < n ==> !RunOf(maxActions, maxDur, turn, r, m)
    ensures m == n && RunOf(maxActions, maxDur, turn, r, m) ==> r == q
  {
    if m < n {
      assert Begins(maxActions, maxDur, turn, m);
      assert m > 0 ==> !Ends(turn, m - 1);
    }
  }
}
