/**
 Pairing the HTTP responses of a replay trace with their requests (ENV2_COMPOSE/scripts/compare-replays.py): a trace is
 accepted exactly when there is one and only one way to pair it.
 */
module ReplayPairing {
  /** Method and URL: all that a response says about its request. */
  datatype Call = Call(verb: string, url: string)

  datatype Event = Request(call: Call) | Response(call: Call) | Other

  datatype Error = Unpaired | Ambiguous | NoResponse

  /** Where each response's request is, or why the trace is rejected. */
  datatype Outcome = Paired(pairs: map<nat, nat>) | Rejected(error: Error)

  // ---- pairings ---------------------------------------------------------------------------------

  predicate IsRequest(events: seq<Event>, k: nat) { k < |events| && events[k].Request? }

  predicate IsResponse(events: seq<Event>, k: nat) { k < |events| && events[k].Response? }

  /** The response at `j` may belong to the request at `r`. */
  predicate Fits(events: seq<Event>, r: nat, j: nat) {
    IsRequest(events, r) && IsResponse(events, j) && r < j && events[r].call == events[j].call
  }

  predicate OneToOne(pairs: map<nat, nat>) { forall i <- pairs, j <- pairs :: pairs[i] == pairs[j] ==> i == j }

  /** Every response gets an earlier request with the same method and URL, no two the same, and none is left over. */
  ghost predicate IsPairing(events: seq<Event>, pairs: map<nat, nat>) {
    (forall j <- pairs :: Fits(events, pairs[j], j)) && OneToOne(pairs) &&
    (forall j: nat :: IsResponse(events, j) ==> j in pairs) &&
    (forall r: nat :: IsRequest(events, r) ==> r in pairs.Values)
  }

  ghost predicate OnlyPairing(events: seq<Event>, pairs: map<nat, nat>) {
    IsPairing(events, pairs) && forall other :: IsPairing(events, other) ==> other == pairs
  }

  // ---- the loop's state -----------------------------------------------------------------------------

  /** The requests before `n` that no response has claimed yet, in order. */
  ghost predicate Waiting(events: seq<Event>, n: nat, waiting: seq<nat>, pairs: map<nat, nat>) {
    (forall i, j :: 0 <= i < j < |waiting| ==> waiting[i] < waiting[j]) &&
    forall r: nat :: r in waiting <==> IsRequest(events, r) && r < n && r !in pairs.Values
  }

  /** The responses before `n` are paired, and no pairing of the whole trace pairs them otherwise. */
  ghost predicate Forced(events: seq<Event>, n: nat, pairs: map<nat, nat>) {
    (forall j: nat :: j in pairs <==> IsResponse(events, j) && j < n) &&
    (forall j <- pairs :: Fits(events, pairs[j], j)) && OneToOne(pairs) &&
    forall other :: IsPairing(events, other) ==> forall j <- pairs :: j in other && other[j] == pairs[j]
  }

  ghost predicate Inv(events: seq<Event>, n: nat, waiting: seq<nat>, pairs: map<nat, nat>) {
    n <= |events| && Waiting(events, n, waiting, pairs) && Forced(events, n, pairs)
  }

  predicate Matching(events: seq<Event>, waiting: seq<nat>, call: Call, k: nat) {
    k < |waiting| && waiting[k] < |events| && events[waiting[k]] == Request(call)
  }

  /** What `other` adds to `pairs` takes no request of `pairs`. */
  lemma {:induction false} NewValue(pairs: map<nat, nat>, other: map<nat, nat>, n: nat)
    requires OneToOne(other) && (forall j <- pairs :: j in other && other[j] == pairs[j]) && n in other
    ensures n !in pairs <==> other[n] !in pairs.Values
  {
    if n in pairs { assert pairs[n] in pairs.Values; }
  }

  /** In any pairing of the whole trace the next response takes a waiting request. */
  lemma {:induction false} NextTakesWaiting(events: seq<Event>, n: nat, waiting: seq<nat>, pairs: map<nat, nat>,
                                            other: map<nat, nat>)
    requires Inv(events, n, waiting, pairs) && IsResponse(events, n) && IsPairing(events, other)
    ensures n in other && other[n] in waiting && Fits(events, other[n], n)
  {
    var r := other[n];
    assert Fits(events, r, n);
    NewValue(pairs, other, n);
  }

  lemma {:induction false} NoCandidate(events: seq<Event>, n: nat, waiting: seq<nat>, pairs: map<nat, nat>)
    requires Inv(events, n, waiting, pairs) && IsResponse(events, n)
    requires forall k: nat :: !Matching(events, waiting, events[n].call, k)
    ensures !exists other :: IsPairing(events, other)
  {
    if other :| IsPairing(events, other) {
      NextTakesWaiting(events, n, waiting, pairs, other);
      var k :| 0 <= k < |waiting| && waiting[k] == other[n];
      assert Matching(events, waiting, events[n].call, k);
    }
  }

  /** With two candidates, whoever takes one can swap with whoever takes the other. */
  lemma {:induction false} TwoCandidates(events: seq<Event>, n: nat, waiting: seq<nat>, pairs: map<nat, nat>, a: nat,
                                         b: nat, one: map<nat, nat>)
      returns (another: map<nat, nat>)
    requires Inv(events, n, waiting, pairs) && IsResponse(events, n) && IsPairing(events, one)
    requires a in waiting && b in waiting && a != b && events[a].call == events[n].call == events[b].call
    ensures IsPairing(events, another) && another != one
  {
    NextTakesWaiting(events, n, waiting, pairs, one);
    var r := one[n];
    var q := if r == a then b else a;
    assert IsRequest(events, q) && q in one.Values;
    var j :| j in one && one[j] == q;
    NewValue(pairs, one, j);
    assert Fits(events, q, j);
    Swapped(events, one, n, j);
    another := one[n := q][j := r];
    assert another[n] == q;
  }

  lemma {:induction false} TwoMatches(events: seq<Event>, n: nat, waiting: seq<nat>, pairs: map<nat, nat>, x: nat,
                                      y: nat)
    requires Inv(events, n, waiting, pairs) && IsResponse(events, n) && x < y
    requires Matching(events, waiting, events[n].call, x) && Matching(events, waiting, events[n].call, y)
    ensures !exists only :: OnlyPairing(events, only)
    ensures exists a, b, j :: a != b && Fits(events, a, j) && Fits(events, b, j)
  {
    var a, b := waiting[x], waiting[y];
    assert a in waiting && b in waiting;
    assert Fits(events, a, n) && Fits(events, b, n);
    if only :| OnlyPairing(events, only) {
      var another := TwoCandidates(events, n, waiting, pairs, a, b, only);
    }
  }

  /** Two responses later than both of their requests, all on one URL, can change partners. */
  lemma {:induction false} Swapped(events: seq<Event>, pairs: map<nat, nat>, n: nat, j: nat)
    requires IsPairing(events, pairs) && n in pairs && j in pairs && n != j
    requires Fits(events, pairs[j], n) && Fits(events, pairs[n], j)
    ensures IsPairing(events, pairs[n := pairs[j]][j := pairs[n]])
  {
    var other := pairs[n := pairs[j]][j := pairs[n]];
    forall i <- other, k <- other | other[i] == other[k] ensures i == k {
      var i2, k2 := (if i == n then j else if i == j then n else i), (if k == n then j else if k == j then n else k);
      assert other[i] == pairs[i2] && other[k] == pairs[k2];
    }
    forall r: nat | IsRequest(events, r) ensures r in other.Values {
      var i :| i in pairs && pairs[i] == r;
      assert other[if i == n then j else if i == j then n else i] == r;
    }
  }

  /** With one candidate every pairing takes it. */
  lemma {:induction false} OneCandidate(events: seq<Event>, n: nat, waiting: seq<nat>, pairs: map<nat, nat>, at: nat)
    requires Inv(events, n, waiting, pairs) && IsResponse(events, n) && at < |waiting|
    requires forall k: nat :: Matching(events, waiting, events[n].call, k) <==> k == at
    ensures Inv(events, n + 1, waiting[..at] + waiting[at + 1..], pairs[n := waiting[at]])
  {
    var r, pairs2 := waiting[at], pairs[n := waiting[at]];
    assert Matching(events, waiting, events[n].call, at) && r in waiting;
    assert Fits(events, r, n);
    WaitingWithout(events, n, waiting, pairs, at);
    forall other | IsPairing(events, other) ensures forall j <- pairs2 :: other[j] == pairs2[j] {
      NextTakesWaiting(events, n, waiting, pairs, other);
      var k :| 0 <= k < |waiting| && waiting[k] == other[n];
      assert Matching(events, waiting, events[n].call, k);
      assert other[n] == r;
    }
  }

  lemma {:induction false} WaitingWithout(events: seq<Event>, n: nat, waiting: seq<nat>, pairs: map<nat, nat>, at: nat)
    requires Waiting(events, n, waiting, pairs) && at < |waiting| && IsResponse(events, n) && n !in pairs
    ensures Waiting(events, n + 1, waiting[..at] + waiting[at + 1..], pairs[n := waiting[at]])
  {
    var rest, pairs2 := waiting[..at] + waiting[at + 1..], pairs[n := waiting[at]];
    assert pairs2.Values == pairs.Values + {waiting[at]} by {
      forall r | r in pairs.Values ensures r in pairs2.Values {
        var j :| j in pairs && pairs[j] == r;
        assert pairs2[j] == r;
      }
      assert pairs2[n] == waiting[at];
    }
    forall r: nat ensures r in rest <==> r in waiting && r != waiting[at] {
      if r in waiting {
        var k :| 0 <= k < |waiting| && waiting[k] == r;
        if k < at { assert rest[k] == r; }
        if k > at { assert rest[k - 1] == r; }
      }
    }
  }

  /** At the end there is no pairing but this one, and none while a request is still waiting. */
  lemma {:induction false} AtTheEnd(events: seq<Event>, waiting: seq<nat>, pairs: map<nat, nat>, other: map<nat, nat>)
    requires Inv(events, |events|, waiting, pairs) && IsPairing(events, other)
    ensures other == pairs && forall r :: r !in waiting
  {
    forall j | j in other ensures j in pairs { assert Fits(events, other[j], j); }
    assert other == pairs;
  }

  lemma {:induction false} NoneWaiting(events: seq<Event>, pairs: map<nat, nat>)
    requires Inv(events, |events|, [], pairs)
    ensures OnlyPairing(events, pairs)
  {
    var waiting: seq<nat> := [];
    forall r: nat | IsRequest(events, r) ensures r in pairs.Values { assert r !in waiting; }
    forall other | IsPairing(events, other) ensures other == pairs { AtTheEnd(events, waiting, pairs, other); }
  }

  /** The places of the waiting requests with this method and URL. */
  method Matches(events: seq<Event>, waiting: seq<nat>, call: Call) returns (found: seq<nat>)
    requires forall k :: 0 <= k < |waiting| ==> IsRequest(events, waiting[k])
    ensures forall k: nat :: k in found <==> Matching(events, waiting, call, k)
    ensures forall i, j :: 0 <= i < j < |found| ==> found[i] < found[j]
  {
    found := [];
    for n := 0 to |waiting|
      invariant forall k: nat :: k in found <==> k < n && Matching(events, waiting, call, k)
      invariant forall i, j :: 0 <= i < j < |found| ==> found[i] < found[j]
    {
      if events[waiting[n]].call == call {
        assert forall i :: 0 <= i < |found| ==> found[i] in found;
        found := found + [n];
      }
    }
  }

  lemma {:induction false} RequestWaits(events: seq<Event>, n: nat, waiting: seq<nat>, pairs: map<nat, nat>)
    requires Inv(events, n, waiting, pairs) && IsRequest(events, n)
    ensures Inv(events, n + 1, waiting + [n], pairs)
  {
    assert forall k :: 0 <= k < |waiting| ==> waiting[k] in waiting;
    assert forall j <- pairs :: Fits(events, pairs[j], j);
  }

  /** The pairing loop: it accepts exactly the traces that can be paired in one and only one way, with that pairing. */
  method PairResponses(events: seq<Event>) returns (r: Outcome)
    ensures r.Paired? ==> OnlyPairing(events, r.pairs)
    ensures r.Rejected? ==> !exists pairs :: OnlyPairing(events, pairs)
    ensures r.Rejected? && !r.error.Ambiguous? ==> !exists pairs :: IsPairing(events, pairs)
    ensures r == Rejected(Ambiguous) ==> exists a, b, n :: a != b && Fits(events, a, n) && Fits(events, b, n)
  {
    var waiting: seq<nat>, pairs: map<nat, nat> := [], map[];
    for n := 0 to |events|
      invariant Inv(events, n, waiting, pairs)
    {
      match events[n]
      case Other =>
      case Request(_) =>
        RequestWaits(events, n, waiting, pairs);
        waiting := waiting + [n];
      case Response(call) =>
        assert forall k :: 0 <= k < |waiting| ==> waiting[k] in waiting;
        var found := Matches(events, waiting, call);
        if found == [] {
          NoCandidate(events, n, waiting, pairs);
          return Rejected(Unpaired);
        }
        if |found| > 1 {
          assert found[0] in found && found[1] in found;
          TwoMatches(events, n, waiting, pairs, found[0], found[1]);
          return Rejected(Ambiguous);
        }
        assert found[0] in found;
        OneCandidate(events, n, waiting, pairs, found[0]);
        pairs := pairs[n := waiting[found[0]]];
        waiting := waiting[..found[0]] + waiting[found[0] + 1..];
    }
    if waiting == [] { NoneWaiting(events, pairs); }
    assert waiting == [] || waiting[0] in waiting;
    forall other | IsPairing(events, other) ensures waiting == [] { AtTheEnd(events, waiting, pairs, other); }
    r := if waiting == [] then Paired(pairs) else Rejected(NoResponse);
  }
}
