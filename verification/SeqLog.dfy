/**
 Sequence numbers under concurrent appenders (controlplane/store.py, `_append`): any number of processes
 take the campaign's file lock, read the counter file, replace it, append their line, and let go.
 A process may die between any two of these steps; the operating system then drops its lock.
 */
module SeqLog {
  import opened Options

  datatype Phase = Idle
                 | Locked(ledger: string)
                 | HasRead(ledger: string, n: nat)
                 | Bumped(ledger: string, n: nat)
                 | Appended(ledger: string)

  /** `lost` collects the numbers whose holder died before appending. */
  datatype Sys = Sys(holder: Option<nat>, counter: nat, ledgers: map<string, seq<nat>>,
                     phases: map<nat, Phase>, lost: set<nat>)

  datatype Step = Lock(p: nat, ledger: string) | Read(p: nat) | Replace(p: nat) | Append(p: nat) | Unlock(p: nat)
    | Crash(p: nat)

  function PhaseOf(s: Sys, p: nat): Phase { if p in s.phases then s.phases[p] else Idle }

  function Ledger(s: Sys, kind: string): seq<nat> { if kind in s.ledgers then s.ledgers[kind] else [] }

  function Move(s: Sys, p: nat, to: Phase): Sys { s.(phases := s.phases[p := to]) }

  /** A step that is not the process's turn to take changes nothing. */
  function Do(s: Sys, step: Step): Sys {
    match step
    case Lock(p, ledger) =>
      if PhaseOf(s, p).Idle? && s.holder.None? then Move(s, p, Locked(ledger)).(holder := Some(p)) else s
    case Read(p) =>
      if PhaseOf(s, p).Locked? then Move(s, p, HasRead(PhaseOf(s, p).ledger, s.counter)) else s
    case Replace(p) =>
      if PhaseOf(s, p).HasRead?
      then Move(s, p, Bumped(PhaseOf(s, p).ledger, PhaseOf(s, p).n + 1)).(counter := PhaseOf(s, p).n + 1) else s
    case Append(p) =>
      if PhaseOf(s, p).Bumped?
      then (var kind := PhaseOf(s, p).ledger;
            Move(s, p, Appended(kind)).(ledgers := s.ledgers[kind := Ledger(s, kind) + [PhaseOf(s, p).n]]))
      else s
    case Unlock(p) =>
      if PhaseOf(s, p).Appended? then Move(s, p, Idle).(holder := None) else s
    case Crash(p) =>
      Move(s, p, Idle).(holder := if s.holder == Some(p) then None else s.holder,
                        lost := if PhaseOf(s, p).Bumped? then s.lost + {PhaseOf(s, p).n} else s.lost)
  }

  function DoAll(s: Sys, steps: seq<Step>): Sys {
    if steps == [] then s else Do(DoAll(s, steps[..|steps| - 1]), steps[|steps| - 1])
  }

  const EMPTY := Sys(None, 0, map[], map[], {})

  // ---- the invariant ---------------------------------------------------------------------

  predicate Recorded(s: Sys, n: nat) { exists kind :: kind in s.ledgers && n in s.ledgers[kind] }

  /** The number its holder still has to append. */
  predicate InFlight(s: Sys, n: nat) {
    s.holder.Some? && PhaseOf(s, s.holder.value).Bumped? && PhaseOf(s, s.holder.value).n == n
  }

  predicate Increasing(l: seq<nat>) { forall i, j :: 0 <= i < j < |l| ==> l[i] < l[j] }

  ghost predicate Exclusive(s: Sys) {
    (forall p: nat :: PhaseOf(s, p) != Idle <==> s.holder == Some(p)) &&
    (s.holder.Some? ==>
       match PhaseOf(s, s.holder.value)
       case HasRead(_, n) => n == s.counter
       case Bumped(_, n) => n == s.counter
       case _ => true)
  }

  /** Every number up to the counter went to exactly one place: a ledger, a dead process, or the lock holder. */
  ghost predicate Conserved(s: Sys) {
    (forall n: nat :: 1 <= n <= s.counter <==> Recorded(s, n) || n in s.lost || InFlight(s, n)) &&
    (forall n: nat :: !(Recorded(s, n) && n in s.lost) && !(Recorded(s, n) && InFlight(s, n)) &&
      !(n in s.lost && InFlight(s, n)))
  }

  ghost predicate Ordered(s: Sys) {
    (forall kind :: kind in s.ledgers ==> Increasing(s.ledgers[kind])) &&
    (forall a, b, n :: a in s.ledgers && b in s.ledgers && a != b && n in s.ledgers[a] ==> n !in s.ledgers[b])
  }

  ghost predicate Inv(s: Sys) { Exclusive(s) && Conserved(s) && Ordered(s) }

  // ---- every step keeps it --------------------------------------------------------------------

  /** Steps that neither append nor bump nor lose a number. */
  lemma {:induction false} QuietStep(s: Sys, r: Sys)
    requires Conserved(s) && Ordered(s)
    requires r.ledgers == s.ledgers && r.counter == s.counter && r.lost == s.lost
    requires forall n: nat :: InFlight(r, n) <==> InFlight(s, n)
    ensures Conserved(r) && Ordered(r)
  {
    forall n: nat ensures Recorded(r, n) <==> Recorded(s, n) {}
  }

  lemma {:induction false} AppendStep(s: Sys, p: nat)
    requires Inv(s) && PhaseOf(s, p).Bumped?
    ensures Inv(Do(s, Append(p)))
  {
    var r := Do(s, Append(p));
    var kind, n := PhaseOf(s, p).ledger, PhaseOf(s, p).n;
    assert s.holder == Some(p) && InFlight(s, n);
    forall k: nat ensures Recorded(r, k) <==> Recorded(s, k) || k == n {
      if k == n { assert kind in r.ledgers && n in r.ledgers[kind]; }
      if Recorded(s, k) {
        var other :| other in s.ledgers && k in s.ledgers[other];
        assert other in r.ledgers && k in r.ledgers[other];
      }
      if Recorded(r, k) && k != n {
        var other :| other in r.ledgers && k in r.ledgers[other];
        assert other in s.ledgers && k in s.ledgers[other];
      }
    }
    var l := Ledger(s, kind);
    forall i | 0 <= i < |l| ensures l[i] < n {
      assert l[i] in s.ledgers[kind];
      assert Recorded(s, l[i]) && !InFlight(s, l[i]);
    }
    assert r.ledgers[kind] == l + [n] && Increasing(r.ledgers[kind]);
    assert forall other :: other in s.ledgers && n in s.ledgers[other] ==> Recorded(s, n);
    assert forall k: nat :: !InFlight(r, k);
  }

  lemma {:induction false} ReplaceStep(s: Sys, p: nat)
    requires Inv(s) && PhaseOf(s, p).HasRead?
    ensures Inv(Do(s, Replace(p)))
  {
    var r := Do(s, Replace(p));
    assert s.holder == Some(p);
    forall n: nat ensures Recorded(r, n) <==> Recorded(s, n) {}
    assert forall n: nat :: !InFlight(s, n);
    assert forall n: nat :: InFlight(r, n) <==> n == r.counter;
  }

  lemma {:induction false} CrashStep(s: Sys, p: nat)
    requires Inv(s)
    ensures Inv(Do(s, Crash(p)))
  {
    var r := Do(s, Crash(p));
    forall n: nat ensures Recorded(r, n) <==> Recorded(s, n) {}
    if s.holder == Some(p) {
      assert forall n: nat :: !InFlight(r, n);
      assert forall n: nat :: n in r.lost <==> n in s.lost || InFlight(s, n);
    } else {
      assert forall n: nat :: InFlight(r, n) <==> InFlight(s, n);
    }
  }

  lemma {:induction false} StepKeeps(s: Sys, step: Step)
    requires Inv(s)
    ensures Inv(Do(s, step))
  {
    match step
    case Append(p) => if PhaseOf(s, p).Bumped? { AppendStep(s, p); }
    case Replace(p) => if PhaseOf(s, p).HasRead? { ReplaceStep(s, p); }
    case Crash(p) => CrashStep(s, p);
    case Lock(p, ledger) => QuietStep(s, Do(s, step));
    case Read(p) => QuietStep(s, Do(s, step));
    case Unlock(p) => QuietStep(s, Do(s, step));
  }

  lemma {:induction false} AllKeep(steps: seq<Step>)
    ensures Inv(DoAll(EMPTY, steps))
    decreases |steps|
  {
    if steps != [] {
      AllKeep(steps[..|steps| - 1]);
      StepKeeps(DoAll(EMPTY, steps[..|steps| - 1]), steps[|steps| - 1]);
    }
  }

  /** For every interleaving of any number of appenders, with crashes anywhere: numbers increase in file order
      within each ledger, no number occurs twice in one ledger or in two, none exceeds the counter, and a number
      missing from the ledgers was taken by a process that died, or is about to be appended by the lock holder. */
  lemma {:induction false} NumbersNeverRepeat(steps: seq<Step>)
    ensures var s := DoAll(EMPTY, steps);
            (forall kind :: kind in s.ledgers ==> Increasing(s.ledgers[kind])) &&
            (forall a, b, n :: a in s.ledgers && b in s.ledgers && a != b && n in s.ledgers[a] ==>
              n !in s.ledgers[b]) &&
            (forall n: nat :: Recorded(s, n) ==> 1 <= n <= s.counter) &&
            (forall n: nat :: 1 <= n <= s.counter && !Recorded(s, n) ==> n in s.lost || InFlight(s, n))
  {
    AllKeep(steps);
  }

  predicate IsCrash(step: Step) { step.Crash? }

  /** Without crashes there are no gaps: whenever nobody holds the lock, the ledgers hold exactly 1 to the counter. */
  lemma {:induction false} NoCrashNoGap(steps: seq<Step>)
    requires forall k :: 0 <= k < |steps| ==> !IsCrash(steps[k])
    ensures var s := DoAll(EMPTY, steps);
            s.lost == {} && (s.holder.None? ==> forall n: nat :: Recorded(s, n) <==> 1 <= n <= s.counter)
    decreases |steps|
  {
    AllKeep(steps);
    if steps != [] {
      assert !IsCrash(steps[|steps| - 1]);
      NoCrashNoGap(steps[..|steps| - 1]);
    }
  }
}
