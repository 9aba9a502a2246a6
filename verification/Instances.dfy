/**
 The life of instances in one factory home: create, destroy and re-save, over the registry and the manifests on disk.
 Live instances never share a port, a subnet or a compose project.
 */
module Instances {
  import opened Options
  import opened Arith
  import opened Decimal
  import opened Sets
  import opened Allocator
  import opened InstanceIds

  /** The registry's records, and the manifests, which outlive a destroyed instance. */
  datatype World = World(live: Registry, disk: Registry)

  datatype Op =
    | Create(raw: string, force: bool)
    | Destroy(id: string)
    | Save(id: string)  // stop, reset, build and the others that save the manifest back

  /** None when a probing loop never ends; an operation that raises an error changes nothing. */
  function Apply(w: World, op: Op, hash: string -> nat): Option<World> {
    match op
    case Create(raw, force) =>
      (match Sanitize(raw)
       case None => Some(w)
       case Some(id) =>
         if id in w.live && !force then Some(w)
         else
           match Plan(w.live, id, hash(id))
           case None => None
           case Some(rec) => Some(World(w.live[id := rec], w.disk[id := rec])))
    case Destroy(id) => if id in w.disk then Some(World(w.live - {id}, w.disk)) else Some(w)
    case Save(id) => if id in w.disk then Some(World(w.live[id := w.disk[id]], w.disk)) else Some(w)
  }

  function RunOps(w: World, ops: seq<Op>, hash: string -> nat): Option<World>
    decreases |ops|
  {
    if ops == [] then Some(w)
    else
      match Apply(w, ops[0], hash)
      case None => None
      case Some(w2) => RunOps(w2, ops[1..], hash)
  }

  // ---- the factory ---------------------------------------------------------------------------

  class RegistryFile {
    var instances: Registry

    constructor ()
      ensures instances == map[]
    {
      instances := map[];
    }

    method Upsert(rec: Record)
      modifies this
      ensures instances == old(instances)[rec.id := rec]
    {
      instances := instances[rec.id := rec];
    }

    method Remove(id: string)
      modifies this
      ensures instances == old(instances) - {id}
    {
      instances := instances - {id};
    }
  }

  class Factory {
    const registry: RegistryFile
    const hash: string -> nat
    var manifests: Registry

    function View(): World
      reads this, registry
    {
      World(registry.instances, manifests)
    }

    /** A manifest carries the id it is filed under. */
    predicate Valid()
      reads this
    {
      forall id <- manifests :: manifests[id].id == id
    }

    constructor (hash: string -> nat)
      ensures Valid() && fresh(registry) && this.hash == hash && View() == World(map[], map[])
    {
      this.hash := hash;
      manifests := map[];
      registry := new RegistryFile();
    }

    method SaveManifest(m: Record)
      requires Valid()
      modifies this, registry
      ensures Valid() && View() == World(old(registry.instances)[m.id := m], old(manifests)[m.id := m])
    {
      manifests := manifests[m.id := m];
      registry.Upsert(m);
    }

    method Create(raw: string, force: bool) returns (ok: bool)
      requires Valid() && Apply(View(), Op.Create(raw, force), hash).Some?
      modifies this, registry
      ensures Valid() && Some(View()) == Apply(old(View()), Op.Create(raw, force), hash)
      ensures ok <==> Sanitize(raw).Some? && (force || Sanitize(raw).value !in old(registry.instances))
      ensures !ok ==> View() == old(View())
      ensures ok ==> var id := Sanitize(raw).value;
                id in registry.instances &&
                  registry.instances == old(registry.instances)[id := registry.instances[id]] &&
                manifests == old(manifests)[id := registry.instances[id]]
    {
      var id := Sanitize(raw);
      if id.None? || (id.value in registry.instances && !force) { return false; }
      var rec := PlanInstance(registry.instances, id.value, hash(id.value));
      SaveManifest(rec);
      ok := true;
    }

    method Destroy(id: string) returns (ok: bool)
      requires Valid()
      modifies this, registry
      ensures Valid() && Some(View()) == Apply(old(View()), Op.Destroy(id), hash)
      ensures ok <==> id in old(manifests)
      ensures manifests == old(manifests) && registry.instances == old(registry.instances) - if ok then {id} else {}
    {
      if id !in manifests { return false; }
      registry.Remove(id);
      ok := true;
    }

    method Save(id: string) returns (ok: bool)
      requires Valid()
      modifies this, registry
      ensures Valid() && Some(View()) == Apply(old(View()), Op.Save(id), hash)
      ensures ok <==> id in old(manifests)
      ensures manifests == old(manifests)
      ensures registry.instances ==
              if ok then old(registry.instances)[id := manifests[id]] else old(registry.instances)
    {
      if id !in manifests { return false; }
      SaveManifest(manifests[id]);
      assert manifests == old(manifests);
      ok := true;
    }
  }

  // ---- live instances are apart -----------------------------------------------------------------

  /** Nothing of one instance's host resources is the other's. */
  predicate Apart(r: Record, s: Record) {
    r.port != s.port && r.octet != s.octet && r.Ingress() != s.Ingress() && r.octet != s.Ingress() &&
      r.Ingress() != s.octet
    && r.project != s.project
  }

  predicate InRange(r: Record) {
    18100 <= r.port < 18900 && 32 <= r.octet <= 228 && r.octet % 2 == 0 && r.Ingress() <= 229
  }

  predicate Disjoint(live: Registry) {
    forall a, b :: a in live && b in live && a != b ==> Apart(live[a], live[b])
  }

  predicate WellKept(id: string, r: Record) {
    r.id == id && ValidId(id) && InRange(r) && r.project == ComposeProject(id)
  }

  /** Manifests are well kept, and every live record is its manifest's. */
  predicate Kept(w: World) {
    (forall id <- w.disk :: WellKept(id, w.disk[id])) &&
      (forall id <- w.live :: id in w.disk && w.live[id] == w.disk[id])
  }

  predicate Sound(w: World) { Kept(w) && Disjoint(w.live) }

  /** No operation saves the manifest of an instance that is not registered. */
  predicate SavesRegistered(w: World, ops: seq<Op>, hash: string -> nat)
    decreases |ops|
  {
    ops == [] ||
    ((ops[0].Save? ==> ops[0].id in w.live) &&
     match Apply(w, ops[0], hash)
     case None => true
     case Some(w2) => SavesRegistered(w2, ops[1..], hash))
  }

  lemma {:induction false} FoundInRange(r: Ring, k: nat, used: set<nat>)
    requires k < r.size
    ensures var f := FirstFree(r, k, used);
            f.Some? ==> f.value !in used && exists j: nat {:trigger r.At(j)} :: j < r.size && f.value == r.At(j)
  {
    FirstFreeIs(r, k, used);
    var f := FirstFree(r, k, used);
    if f.Some? {
      var n: nat :| n < r.size && IsFirstFree(r, k, used, n, f.value);
      assert f.value == r.At(Slot(r, k, n));
    }
  }

  /** A planned instance is apart from every other live one. */
  lemma {:induction false} PlannedIsApart(live: Registry, id: string, hash: nat)
    requires ValidId(id) && (forall x <- live :: WellKept(x, live[x])) && Plan(live, id, hash).Some?
    ensures var rec := Plan(live, id, hash).value;
            WellKept(id, rec) && forall x :: x in live && x != id ==> Apart(rec, live[x]) && Apart(live[x], rec)
  {
    var rec := Plan(live, id, hash).value;
    var others := Others(live, id);
    FoundInRange(Ports, hash % 800, UsedPorts(others));
    FoundInRange(Octets, hash % 99, UsedOctets(others));
    forall x | x in live && x != id ensures Apart(rec, live[x]) && Apart(live[x], rec) {
      assert WellKept(x, live[x]);
      assert live[x] in others;
      assert live[x].port in UsedPorts(others) && live[x].octet in UsedOctets(others);
      if rec.project == live[x].project { ProjectsDiffer(id, x); }
    }
  }

  /** The `n`-th number probed: base, base + step, ... round a ring of `size` numbers, beginning `hash` steps on. */
  function Probed(base: nat, step: nat, size: nat, hash: nat, n: nat): nat
    requires size > 0
  {
    base + step * ((hash + n) % size)
  }

  /** `p` is the first number probed that is not taken. */
  predicate FirstProbed(p: nat, base: nat, step: nat, size: nat, hash: nat, taken: set<nat>)
    requires size > 0
  {
    p !in taken &&
    exists j: nat :: j < size && p == Probed(base, step, size, hash, j) &&
      forall i: nat :: i < j ==> Probed(base, step, size, hash, i) in taken
  }

  lemma {:induction false} RingIsModular(r: Ring, hash: nat, n: nat)
    requires r.size > 0 && n < r.size
    ensures r.At(Slot(r, hash % r.size, n)) == Probed(r.base, if r.even then 2 else 1, r.size, hash, n)
  {
    ModularSum(hash, n, r.size);
  }

  lemma {:induction false} ModularSum(a: nat, n: nat, size: nat)
    requires n < size
    ensures var k := a % size; (a + n) % size == if k + n < size then k + n else k + n - size
  {
    var q, k := a / size, a % size;
    assert a == q * size + k;
    OneMore(q, size);
    if k + n < size { DivModIs(a + n, q, k + n, size); } else { DivModIs(a + n, q + 1, k + n - size, size); }
  }

  lemma {:induction false} FoundIsFirst(r: Ring, hash: nat, taken: set<nat>)
    requires r.size > 0
    ensures var f := FirstFree(r, hash % r.size, taken);
            f.Some? ==> FirstProbed(f.value, r.base, if r.even then 2 else 1, r.size, hash, taken)
  {
    var k, f := hash % r.size, FirstFree(r, hash % r.size, taken);
    FirstFreeIs(r, k, taken);
    if f.Some? {
      var n: nat :| n < r.size && IsFirstFree(r, k, taken, n, f.value);
      RingIsModular(r, hash, n);
      var step := if r.even then 2 else 1;
      forall i: nat | i < n ensures Probed(r.base, step, r.size, hash, i) in taken {
        assert UsedAt(r, k, taken, i);
        RingIsModular(r, hash, i);
      }
      assert f.value == Probed(r.base, step, r.size, hash, n);
    }
  }

  /** A plan takes the first free port from 18100 on, modulo 800, and the first free even number from 32 on, modulo 99
      steps, each beginning where the hash says; free of the other live instances, and of 16 and 17. */
  lemma {:induction false} PlannedNumbersAreFirst(live: Registry, id: string, hash: nat)
    requires Plan(live, id, hash).Some?
    ensures var rec := Plan(live, id, hash).value;
            rec.id == id && rec.project == ComposeProject(id) && rec.Ingress() == rec.octet + 1 &&
            FirstProbed(rec.port, 18100, 1, 800, hash, set r <- live.Values | r.id != id :: r.port) &&
            FirstProbed(rec.octet, 32, 2, 99, hash, (set r <- live.Values | r.id != id :: r.octet) + {16, 17})
  {
    var others := Others(live, id);
    assert UsedPorts(others) == set r <- live.Values | r.id != id :: r.port;
    assert UsedOctets(others) == (set r <- live.Values | r.id != id :: r.octet) + {16, 17};
    FoundIsFirst(Ports, hash, UsedPorts(others));
    FoundIsFirst(Octets, hash, UsedOctets(others));
  }

  lemma {:induction false} ApplyKeeps(w: World, op: Op, hash: string -> nat)
    requires Sound(w) && (op.Save? ==> op.id in w.live) && Apply(w, op, hash).Some?
    ensures Sound(Apply(w, op, hash).value)
  {
    if op.Create? {
      SanitizedIsValid(op.raw);
      var id := Sanitize(op.raw);
      if id.Some? && !(id.value in w.live && !op.force) {
        forall x | x in w.live ensures WellKept(x, w.live[x]) { assert WellKept(x, w.disk[x]); }
        PlannedIsApart(w.live, id.value, hash(id.value));
        RejoinIsDisjoint(w.live, id.value, Plan(w.live, id.value, hash(id.value)).value);
      }
    }
  }

  /** Over every history that saves only registered instances, the live ones stay apart. */
  lemma {:induction false} LiveInstancesStayApart(w: World, ops: seq<Op>, hash: string -> nat)
    requires Sound(w) && SavesRegistered(w, ops, hash)
    ensures RunOps(w, ops, hash).Some? ==> Sound(RunOps(w, ops, hash).value)
    decreases |ops|
  {
    if ops != [] && Apply(w, ops[0], hash).Some? {
      ApplyKeeps(w, ops[0], hash);
      LiveInstancesStayApart(Apply(w, ops[0], hash).value, ops[1..], hash);
    }
  }

  // ---- when planning ends ---------------------------------------------------------------------------

  function PortsOf(live: Registry, ids: set<string>): set<nat>
    requires ids <= live.Keys
  {
    set x <- ids :: live[x].port
  }

  function OctetsOf(live: Registry, ids: set<string>): set<nat>
    requires ids <= live.Keys
  {
    set x <- ids :: live[x].octet
  }

  lemma {:induction false} NoMoreThanIds(live: Registry, ids: set<string>)
    requires ids <= live.Keys
    ensures |PortsOf(live, ids)| <= |ids| && |OctetsOf(live, ids)| <= |ids|
    ensures Disjoint(live) ==> |OctetsOf(live, ids)| == |ids|
    decreases |ids|
  {
    if ids != {} {
      var x :| x in ids;
      var rest := ids - {x};
      NoMoreThanIds(live, rest);
      assert PortsOf(live, ids) == PortsOf(live, rest) + {live[x].port};
      assert OctetsOf(live, ids) == OctetsOf(live, rest) + {live[x].octet};
      if Disjoint(live) {
        forall y | y in rest ensures live[y].octet != live[x].octet { assert Apart(live[y], live[x]); }
      }
    }
  }

  lemma {:induction false} OthersAre(live: Registry, id: string)
    requires forall x <- live :: live[x].id == x
    ensures var ids := live.Keys - {id};
            UsedPorts(Others(live, id)) == PortsOf(live, ids) &&
              UsedOctets(Others(live, id)) == OctetsOf(live, ids) + {16, 17}
  {
    var ids := live.Keys - {id};
    forall x | x in ids ensures live[x] in Others(live, id) {}
    forall r | r in Others(live, id) ensures r.id in ids && live[r.id] == r {}
  }

  /** With the live instances apart, planning ends exactly when fewer than 99 others are live. */
  lemma {:induction false} PlanningEndsExactly(live: Registry, id: string, hash: nat)
    requires Disjoint(live) && forall x <- live :: WellKept(x, live[x])
    ensures Plan(live, id, hash).Some? <==> |live.Keys - {id}| < 99
  {
    if |live.Keys - {id}| < 99 { PlanningEnds(live, id, hash); }
    else { PlanningNeverEnds(live, id, hash); }
  }

  lemma {:induction false} PlanningEnds(live: Registry, id: string, hash: nat)
    requires (forall x <- live :: live[x].id == x) && |live.Keys - {id}| < 99
    ensures Plan(live, id, hash).Some?
  {
    PortIsFree(live, id, hash % 800);
    OctetIsFree(live, id, hash % 99);
  }

  lemma {:induction false} PortIsFree(live: Registry, id: string, k: nat)
    requires (forall x <- live :: live[x].id == x) && |live.Keys - {id}| < 800 && k < 800
    ensures FirstFree(Ports, k, UsedPorts(Others(live, id))).Some?
  {
    OthersAre(live, id);
    NoMoreThanIds(live, live.Keys - {id});
    Pigeonhole(Ports, k, UsedPorts(Others(live, id)), UsedPorts(Others(live, id)));
  }

  lemma {:induction false} OctetIsFree(live: Registry, id: string, k: nat)
    requires (forall x <- live :: live[x].id == x) && |live.Keys - {id}| < 99 && k < 99
    ensures FirstFree(Octets, k, UsedOctets(Others(live, id))).Some?
  {
    OthersAre(live, id);
    NoMoreThanIds(live, live.Keys - {id});
    Pigeonhole(Octets, k, UsedOctets(Others(live, id)), OctetsOf(live, live.Keys - {id}));
  }

  lemma {:induction false} PlanningNeverEnds(live: Registry, id: string, hash: nat)
    requires Disjoint(live) && (forall x <- live :: WellKept(x, live[x])) && |live.Keys - {id}| >= 99
    ensures Plan(live, id, hash).None?
  {
    var ids := live.Keys - {id};
    OthersAre(live, id);
    NoMoreThanIds(live, ids);
    OctetsAreSlots(live, ids);
    RingIsFull(Octets, OctetsOf(live, ids));
    FirstFreeIs(Octets, hash % 99, UsedOctets(Others(live, id)));
  }

  lemma {:induction false} OctetsAreSlots(live: Registry, ids: set<string>)
    requires (forall x <- live :: WellKept(x, live[x])) && ids <= live.Keys
    ensures forall p <- OctetsOf(live, ids) :: exists j: nat {:trigger Octets.At(j)} :: j < 99 && p == Octets.At(j)
  {
    forall p | p in OctetsOf(live, ids) ensures exists j: nat {:trigger Octets.At(j)} :: j < 99 && p == Octets.At(j) {
      var x :| x in ids && live[x].octet == p;
      assert WellKept(x, live[x]);
      assert p == Octets.At((p - 32) / 2);
    }
  }

  // ---- saving a destroyed instance -------------------------------------------------------------------

  /** Nobody has the record's port or its subnet. */
  predicate Free(live: Registry, rec: Record) {
    forall x <- live :: live[x].port != rec.port && live[x].octet != rec.octet
  }

  lemma {:induction false} FreeMeansApart(w: World, id: string)
    requires Kept(w) && id in w.disk && id !in w.live && Free(w.live, w.disk[id])
    ensures forall x <- w.live :: Apart(w.disk[id], w.live[x]) && Apart(w.live[x], w.disk[id])
  {
    var rec := w.disk[id];
    assert WellKept(id, rec);
    forall x | x in w.live ensures Apart(rec, w.live[x]) && Apart(w.live[x], rec) {
      assert WellKept(x, w.disk[x]);
      if rec.project == w.live[x].project { ProjectsDiffer(id, x); }
    }
  }

  lemma {:induction false} DisjointMeansFree(live: Registry, id: string, rec: Record)
    requires id !in live && Disjoint(live[id := rec])
    ensures Free(live, rec)
  {
    forall x | x in live ensures live[x].port != rec.port && live[x].octet != rec.octet {
      assert Apart(live[id := rec][x], live[id := rec][id]);
    }
  }

  /** Saving a destroyed instance's manifest brings its record back; the live ones stay apart exactly when nobody
      took its port or its subnet in between. */
  lemma {:induction false} RevivalIsSafeExactly(w: World, id: string, hash: string -> nat)
    requires Sound(w) && id in w.disk && id !in w.live
    ensures Sound(Apply(w, Save(id), hash).value) <==> Free(w.live, w.disk[id])
  {
    if Disjoint(w.live[id := w.disk[id]]) { DisjointMeansFree(w.live, id, w.disk[id]); }
    if Free(w.live, w.disk[id]) {
      FreeMeansApart(w, id);
      RejoinIsDisjoint(w.live, id, w.disk[id]);
    }
  }

  lemma {:induction false} RejoinIsDisjoint(live: Registry, id: string, rec: Record)
    requires Disjoint(live) && forall x :: x in live && x != id ==> Apart(rec, live[x]) && Apart(live[x], rec)
    ensures Disjoint(live[id := rec])
  {
  }

  lemma {:induction false} FirstTry(live: Registry, id: string, hash: nat)
    requires Others(live, id) == {}
    ensures Plan(live, id, hash).Some? && Plan(live, id, hash).value.port == 18100 + hash % 800
  {
    assert Octets.At(hash % 99) !in UsedOctets({});
    assert Ports.At(hash % 800) !in UsedPorts({});
  }

  /** Create, destroy, let another take the port, then stop the destroyed one: two live instances on one port. */
  lemma {:induction false} RevivalCollides(a: string, b: string, hash: string -> nat)
    requires ValidId(a) && ValidId(b) && a != b && hash(a) % 800 == hash(b) % 800
    ensures var ops := [Create(a, false), Destroy(a), Create(b, false), Save(a)];
            var end := RunOps(World(map[], map[]), ops, hash);
            end.Some? && a in end.value.live && b in end.value.live && end.value.live[a].port == end.value.live[b].port
  {
    SanitizedIsValid(a);
    SanitizedIsValid(b);
    var w0 := World(map[], map[]);
    FirstTry(w0.live, a, hash(a));
    var ra := Plan(w0.live, a, hash(a)).value;
    var w1 := World(map[a := ra], map[a := ra]);
    var ops := [Create(a, false), Destroy(a), Create(b, false), Save(a)];
    assert Apply(w0, ops[0], hash) == Some(w1);
    var w2 := World(map[], map[a := ra]);
    assert Apply(w1, ops[1], hash) == Some(w2);
    FirstTry(w2.live, b, hash(b));
    var rb := Plan(w2.live, b, hash(b)).value;
    var w3 := World(map[b := rb], map[a := ra, b := rb]);
    assert Apply(w2, ops[2], hash) == Some(w3);
    var w4 := World(map[b := rb, a := ra], map[a := ra, b := rb]);
    assert Apply(w3, ops[3], hash) == Some(w4);
    assert ops[1..][1..][1..][1..] == [];
    assert RunOps(w0, ops, hash) == RunOps(w1, ops[1..], hash) == RunOps(w2, ops[1..][1..], hash)
        == RunOps(w3, ops[1..][1..][1..], hash) == Some(w4);
  }

  /** The `n`-th of as many valid ids as needed. */
  function NumberedId(n: nat): string { "t" + Show(n) }

  lemma {:induction false} ShownLength(n: nat)
    requires n < 1000
    ensures |Show(n)| <= 3
  {
    if n >= 10 {
      assert |Show(n)| == |Show(n / 10)| + 1;
      if n >= 100 { assert |Show(n / 10)| == |Show(n / 100)| + 1 && n / 10 / 10 == n / 100 < 10; }
    }
  }

  lemma {:induction false} NoDashes(s: string)
    requires forall k :: 0 <= k < |s| ==> s[k] != '-'
    ensures SingleDashes(s)
    decreases |s|
  {
    if |s| >= 2 { NoDashes(s[1..]); }
  }

  lemma {:induction false} NumberedIdIsValid(n: nat)
    requires n < 1000
    ensures ValidId(NumberedId(n))
  {
    var s := NumberedId(n);
    ReadShown(n);
    ShownLength(n);
    forall k | 0 <= k < |s| ensures IdChar(s[k]) && s[k] != '-' {
      if k > 0 { assert s[k] == Show(n)[k - 1] && IsDigit(Show(n)[k - 1]); }
    }
    NoDashes(s);
  }

  /** The values of `f` on the first `n` numbers. */
  function Values(f: nat -> nat, n: nat): set<nat> { if n == 0 then {} else Values(f, n - 1) + {f(n - 1)} }

  lemma {:induction false} ValueHasSource(f: nat -> nat, n: nat, p: nat) returns (i: nat)
    requires p in Values(f, n)
    ensures i < n && f(i) == p
    decreases n
  {
    if f(n - 1) == p { i := n - 1; } else { i := ValueHasSource(f, n - 1, p); }
  }

  predicate Shared(f: nat -> nat, i: nat, j: nat) { i < j && f(i) == f(j) }

  lemma {:induction false} AllDifferent(f: nat -> nat, n: nat)
    requires forall i: nat, j: nat :: j < n ==> !Shared(f, i, j)
    ensures |Values(f, n)| == n
    decreases n
  {
    if n > 0 {
      AllDifferent(f, n - 1);
      if f(n - 1) in Values(f, n - 1) {
        var i := ValueHasSource(f, n - 1, f(n - 1));
        assert Shared(f, i, n - 1);
      }
    }
  }

  /** More arguments than values: two arguments share one. */
  lemma {:induction false} TwoShareAValue(f: nat -> nat, size: nat) returns (i: nat, j: nat)
    requires forall n: nat :: n <= size ==> f(n) < size
    ensures i < j <= size && f(i) == f(j)
  {
    if forall i: nat, j: nat :: j < size + 1 ==> !Shared(f, i, j) {
      var r := Ring(0, false, size);
      AllDifferent(f, size + 1);
      NumbersAre(r, size);
      forall p | p in Values(f, size + 1) ensures p in Numbers(r, size) {
        var n := ValueHasSource(f, size + 1, p);
        assert p == r.At(p);
        InNumbers(r, p, size);
      }
      SubsetSize(Values(f, size + 1), Numbers(r, size));
    }
    i, j :| j < size + 1 && Shared(f, i, j);
  }

  /** Whatever the hash, there are two instances whose lives collide in this way. */
  lemma {:induction false} RevivalCanCollide(hash: string -> nat) returns (a: string, b: string)
    ensures ValidId(a) && ValidId(b) && a != b
    ensures var ops := [Create(a, false), Destroy(a), Create(b, false), Save(a)];
            var end := RunOps(World(map[], map[]), ops, hash);
            end.Some? && a in end.value.live && b in end.value.live && end.value.live[a].port == end.value.live[b].port
  {
    var preferred := (n: nat) => hash(NumberedId(n)) % 800;
    var i, j := TwoShareAValue(preferred, 800);
    a, b := NumberedId(i), NumberedId(j);
    assert preferred(i) == preferred(j);
    NumberedIdIsValid(i);
    NumberedIdIsValid(j);
    if a == b {
      assert Show(i) == a[1..] && Show(j) == b[1..];
      ShowInjective(i, j);
    }
    RevivalCollides(a, b, hash);
  }
}
