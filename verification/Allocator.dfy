/**
 Names, ports and subnets of twin instances: planning against the registry (twinfactory/plan.py), the registry
 (twinfactory/registry.py) and the registry effects of create, destroy and save (twinfactory/factory.py).
 */
module Allocator {
  import opened Options
  import opened Sets

  // ---- instance ids -------------------------------------------------------------------------

  predicate IdChar(c: char) { 'a' <= c <= 'z' || '0' <= c <= '9' || c == '-' }

  function IdCharOf(c: char): char {
    if 'A' <= c <= 'Z' then (c as int + 32) as char else if IdChar(c) then c else '-'
  }

  function MapId(s: string): string { if s == "" then "" else [IdCharOf(s[0])] + MapId(s[1..]) }

  /** Every run of dashes becomes one. */
  function Collapse(s: string): string {
    if |s| >= 2 && s[0] == '-' && s[1] == '-' then Collapse(s[1..])
    else if s == "" then ""
    else [s[0]] + Collapse(s[1..])
  }

  function StripLeft(s: string): string { if s != "" && s[0] == '-' then StripLeft(s[1..]) else s }

  function StripRight(s: string): string { if s != "" && s[|s| - 1] == '-' then StripRight(s[..|s| - 1]) else s }

  /** None is the ValueError for an empty or overlong id. */
  function Sanitize(raw: string): Option<string> {
    var s := StripRight(StripLeft(Collapse(MapId(raw))));
    if s == "" || |s| > 40 then None else Some(s)
  }

  predicate IdChars(s: string) { forall k :: 0 <= k < |s| ==> IdChar(s[k]) }

  function Underscored(s: string): string {
    if s == "" then "" else [if s[0] == '-' then '_' else s[0]] + Underscored(s[1..])
  }

  function ComposeProject(id: string): string { Underscored("twin_" + id) }

  // ---- probing ----------------------------------------------------------------------------------

  /** Consecutive numbers, or every second number when `even`, from `base` on: `size` slots in a ring. */
  datatype Ring = Ring(base: nat, even: bool, size: nat) {
    function At(k: nat): nat { base + if even then 2 * k else k }

    function Next(k: nat): nat { if k + 1 < size then k + 1 else 0 }
  }

  const Ports := Ring(18100, false, 800)
  const Octets := Ring(32, true, 99)

  /** The first number from slot `k` on that is not used, looking at no more than `more` further slots. */
  function Probe(r: Ring, k: nat, used: set<nat>, more: nat): Option<nat>
    decreases more
  {
    if r.At(k) !in used then Some(r.At(k))
    else if more == 0 then None
    else Probe(r, r.Next(k), used, more - 1)
  }

  /** What a probing loop that starts at slot `k` ends with; None when it never ends. */
  function FirstFree(r: Ring, k: nat, used: set<nat>): Option<nat>
    requires k < r.size
  {
    Probe(r, k, used, r.size - 1)
  }

  // ---- planning -------------------------------------------------------------------------------------

  /** `octet` is the third number of the arena's 172.28.x.0/24; the ingress subnet is the one after it. */
  datatype Record = Record(id: string, port: nat, octet: nat, project: string) {
    function Ingress(): nat { octet + 1 }
  }

  type Registry = map<string, Record>

  /** The records of other instances. */
  function Others(live: Registry, id: string): set<Record> { set r <- live.Values | r.id != id }

  function UsedPorts(others: set<Record>): set<nat> { set r <- others :: r.port }

  /** The historical defaults are never handed out. */
  function UsedOctets(others: set<Record>): set<nat> { (set r <- others :: r.octet) + {16, 17} }

  function Plan(live: Registry, id: string, hash: nat): Option<Record> {
    var others := Others(live, id);
    match FirstFree(Ports, hash % 800, UsedPorts(others))
    case None => None
    case Some(port) =>
      match FirstFree(Octets, hash % 99, UsedOctets(others))
      case None => None
      case Some(octet) => Some(Record(id, port, octet, ComposeProject(id)))
  }

  /** The loop over host ports; it must be able to end. */
  method ProbePort(first: nat, used: set<nat>) returns (port: nat)
    requires 18100 <= first < 18900 && FirstFree(Ports, first - 18100, used).Some?
    ensures FirstFree(Ports, first - 18100, used) == Some(port)
  {
    port := first;
    ghost var more: nat := 799;
    while port in used
      invariant 18100 <= port < 18900
      invariant FirstFree(Ports, first - 18100, used) == Probe(Ports, port - 18100, used, more)
      decreases more
    {
      port := 18100 + (port - 18100 + 1) % 800;
      assert more > 0;
      more := more - 1;
    }
  }

  /** The loop over the even octets. */
  method ProbeOctet(first: nat, used: set<nat>) returns (octet: nat)
    requires 32 <= first <= 228 && first % 2 == 0 && FirstFree(Octets, (first - 32) / 2, used).Some?
    ensures FirstFree(Octets, (first - 32) / 2, used) == Some(octet)
  {
    octet := first;
    ghost var more: nat := 98;
    while octet in used
      invariant 32 <= octet <= 228 && octet % 2 == 0
      invariant FirstFree(Octets, (first - 32) / 2, used) == Probe(Octets, (octet - 32) / 2, used, more)
      decreases more
    {
      NextOctet(octet);
      octet := 32 + (octet - 32 + 2) % 198;
      assert more > 0;
      more := more - 1;
    }
  }

  method PlanInstance(live: Registry, id: string, hash: nat) returns (rec: Record)
    requires Plan(live, id, hash).Some?
    ensures Plan(live, id, hash) == Some(rec)
  {
    var others := set r <- live.Values | r.id != id;
    var port := ProbePort(18100 + hash % 800, set r <- others :: r.port);
    var octet := ProbeOctet(32 + hash % 99 * 2, (set r <- others :: r.octet) + {16, 17});
    rec := Record(id, port, octet, ComposeProject(id));
  }

  lemma {:induction false} NextOctet(octet: nat)
    requires 32 <= octet <= 228 && octet % 2 == 0
    ensures var next := 32 + (octet - 32 + 2) % 198;
            32 <= next <= 228 && next % 2 == 0 && (next - 32) / 2 == Octets.Next((octet - 32) / 2)
            && Octets.At((octet - 32) / 2) == octet
  {
  }

  // ---- probing is right -------------------------------------------------------------------------------

  /** The slot `n` steps round the ring from slot `k`. */
  function Slot(r: Ring, k: nat, n: nat): nat
    requires k < r.size && n < r.size
  {
    if k + n < r.size then k + n else k + n - r.size
  }

  predicate UsedAt(r: Ring, k: nat, used: set<nat>, n: nat)
    requires k < r.size && n < r.size
  {
    r.At(Slot(r, k, n)) in used
  }

  /** `p` is the free number `n` steps on, and none of the numbers passed on the way is free. */
  predicate IsFirstFree(r: Ring, k: nat, used: set<nat>, n: nat, p: nat)
    requires k < r.size && n < r.size
  {
    p == r.At(Slot(r, k, n)) && p !in used && forall m: nat :: m < n ==> UsedAt(r, k, used, m)
  }

  /** What a search from slot `k` should end with. */
  predicate Finds(r: Ring, k: nat, used: set<nat>, found: Option<nat>)
    requires k < r.size
  {
    if found.Some? then exists n: nat :: n < r.size && IsFirstFree(r, k, used, n, found.value)
    else forall n: nat :: n < r.size ==> UsedAt(r, k, used, n)
  }

  /** The search that began at slot `start`, `d` steps later. */
  lemma {:induction false} ProbeIs(r: Ring, start: nat, used: set<nat>, d: nat)
    requires start < r.size && d < r.size && forall m: nat :: m < d ==> UsedAt(r, start, used, m)
    ensures Finds(r, start, used, Probe(r, Slot(r, start, d), used, r.size - 1 - d))
    decreases r.size - d
  {
    var found := Probe(r, Slot(r, start, d), used, r.size - 1 - d);
    if r.At(Slot(r, start, d)) !in used {
      assert IsFirstFree(r, start, used, d, found.value);
    } else {
      assert UsedAt(r, start, used, d);
      if d + 1 < r.size {
        ProbeIs(r, start, used, d + 1);
        assert found == Probe(r, Slot(r, start, d + 1), used, r.size - 1 - (d + 1));
      }
    }
  }

  /** The loop ends with the first free number round the ring; it never ends exactly when every number is used. */
  lemma {:induction false} FirstFreeIs(r: Ring, k: nat, used: set<nat>)
    requires k < r.size
    ensures Finds(r, k, used, FirstFree(r, k, used))
    ensures FirstFree(r, k, used).Some? <==> exists j: nat {:trigger r.At(j)} :: j < r.size && r.At(j) !in used
  {
    ProbeIs(r, k, used, 0);
    match FirstFree(r, k, used)
    case Some(p) =>
      var n: nat :| n < r.size && IsFirstFree(r, k, used, n, p);
      assert r.At(Slot(r, k, n)) !in used;
    case None =>
      forall j: nat {:trigger r.At(j)} | j < r.size ensures r.At(j) in used {
        var n := if j >= k then j - k else j + r.size - k;
        assert UsedAt(r, k, used, n);
      }
  }

  /** The first `n` numbers of the ring. */
  function Numbers(r: Ring, n: nat): set<nat> {
    if n == 0 then {} else Numbers(r, n - 1) + {r.At(n - 1)}
  }

  lemma {:induction false} NumbersAre(r: Ring, n: nat)
    ensures |Numbers(r, n)| == n &&
            forall p :: p in Numbers(r, n) ==> exists j: nat {:trigger r.At(j)} :: j < n && p == r.At(j)
    decreases n
  {
    if n > 0 {
      NumbersAre(r, n - 1);
      assert r.At(n - 1) !in Numbers(r, n - 1);
    }
  }

  /** Fewer used slots than slots: the loop ends. */
  lemma {:induction false} Pigeonhole(r: Ring, k: nat, used: set<nat>, slots: set<nat>)
    requires k < r.size && |slots| < r.size
    requires forall j: nat {:trigger r.At(j)} :: j < r.size && r.At(j) in used ==> r.At(j) in slots
    ensures FirstFree(r, k, used).Some?
  {
    FirstFreeIs(r, k, used);
    if FirstFree(r, k, used).None? {
      NumbersAre(r, r.size);
      forall p | p in Numbers(r, r.size) ensures p in slots {
        var j: nat :| j < r.size && p == r.At(j);
        assert r.At(j) in used;
      }
      SubsetSize(Numbers(r, r.size), slots);
    }
  }

  lemma {:induction false} InNumbers(r: Ring, j: nat, n: nat)
    requires j < n
    ensures r.At(j) in Numbers(r, n)
    decreases n
  {
    if j < n - 1 { InNumbers(r, j, n - 1); }
  }

  /** As many different numbers of the ring as it has slots: all of them. */
  lemma {:induction false} RingIsFull(r: Ring, s: set<nat>)
    requires |s| >= r.size && forall p <- s :: exists j: nat {:trigger r.At(j)} :: j < r.size && p == r.At(j)
    ensures forall j: nat {:trigger r.At(j)} :: j < r.size ==> r.At(j) in s
  {
    NumbersAre(r, r.size);
    forall p | p in s ensures p in Numbers(r, r.size) {
      var j: nat :| j < r.size && p == r.At(j);
      InNumbers(r, j, r.size);
    }
    SameSize(s, Numbers(r, r.size));
    forall j: nat {:trigger r.At(j)} | j < r.size ensures r.At(j) in s { InNumbers(r, j, r.size); }
  }
}
