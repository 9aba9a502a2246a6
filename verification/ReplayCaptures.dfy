/**
 The labels of captured events (Normalizer.register_captures in ENV2_COMPOSE/scripts/compare-replays.py): events are
 grouped by their content and numbered within their group, on top of the payout identities.
 */
module ReplayCaptures {
  import opened Decimal
  import opened ReplayAliases
  import opened ReplayIdentities

  /** A captured event: its counter-derived id, and the content that outlives a replay. */
  datatype Event = Event(id: string, owner: string, payout: string, event: string, status: string, amount: string)

  /** Events with this content belong together. */
  datatype Group = Group(owner: string, payout: string, event: string, status: string, amount: string)

  datatype Registered = Registered(table: Table<string>, seen: set<string>, counts: map<Group, nat>)

  /** The payout goes by its label where it has one. */
  function GroupOf(t: Table<string>, e: Event): Group {
    var payout := Key("entity", e.payout);
    Group(e.owner, if payout in t then t[payout] else e.payout, e.event, e.status, e.amount)
  }

  function EventKind(digest: string): string { "event_" + digest }

  function EventLabel(hash: Group -> string, g: Group, n: nat): string { LabelOf(EventKind(hash(g)), n) }

  function CountOf(counts: map<Group, nat>, g: Group): nat { if g in counts then counts[g] else 0 }

  function Register(r: Registered, e: Event, hash: Group -> string): Registered {
    if e.id in r.seen then r
    else
      var g := GroupOf(r.table, e);
      var n := CountOf(r.counts, g) + 1;
      Registered(r.table[Key("entity", e.id) := EventLabel(hash, g, n)], r.seen + {e.id}, r.counts[g := n])
  }

  function RegisterAll(r: Registered, events: seq<Event>, hash: Group -> string): Registered
    decreases |events|
  {
    if events == [] then r else RegisterAll(Register(r, events[0], hash), events[1..], hash)
  }

  function Unregistered(t: Table<string>): Registered { Registered(t, {}, map[]) }

  method RegisterCaptures(t: Table<string>, events: seq<Event>, hash: Group -> string) returns (t2: Table<string>)
    ensures t2 == RegisterAll(Unregistered(t), events, hash).table
  {
    t2 := t;
    var seen: set<string>, counts: map<Group, nat> := {}, map[];
    for k := 0 to |events|
      invariant RegisterAll(Unregistered(t), events, hash) ==
                RegisterAll(Registered(t2, seen, counts), events[k..], hash)
    {
      assert events[k..][0] == events[k] && events[k..][1..] == events[k + 1..];
      var e := events[k];
      if e.id !in seen {
        var g := GroupOf(t2, e);
        counts := counts[g := (if g in counts then counts[g] else 0) + 1];
        t2 := t2[Key("entity", e.id) := EventLabel(hash, g, counts[g])];
        seen := seen + {e.id};
      }
    }
  }

  // ---- what the labels are ------------------------------------------------------------------------

  /** The label is that of the `n`-th event of group `g`; `of` tells the groups of the events. */
  predicate Numbers(r: Registered, of: map<string, Group>, hash: Group -> string, k: Key<string>, g: Group, n: nat) {
    k in r.table && k.kind == "entity" && k.id in of && of[k.id] == g && g in r.counts && 0 < n <= r.counts[g] &&
    r.table[k] == EventLabel(hash, g, n)
  }

  /** The `n`-th event of the group has its label. */
  ghost predicate HasNth(r: Registered, of: map<string, Group>, hash: Group -> string, g: Group, n: nat) {
    exists k :: Numbers(r, of, hash, k, g, n)
  }

  ghost predicate IsEvents(r: Registered, of: map<string, Group>, hash: Group -> string, k: Key<string>) {
    exists g, n :: Numbers(r, of, hash, k, g, n)
  }

  ghost predicate Kept(r: Registered, of: map<string, Group>, hash: Group -> string) {
    of.Keys == r.seen &&
    (forall k <- r.table :: ':' in r.table[k] || IsEvents(r, of, hash, k)) &&
    (forall g <- r.counts :: r.counts[g] > 0) &&
    forall g, n: nat :: g in r.counts && 0 < n <= r.counts[g] ==> HasNth(r, of, hash, g, n)
  }

  /** No two of these groups have one digest. */
  predicate NoCollision(groups: set<Group>, hash: Group -> string) {
    forall g <- groups, h <- groups :: hash(g) == hash(h) ==> g == h
  }

  ghost predicate PlainHash(hash: Group -> string) { forall g :: Plain(hash(g)) }

  lemma {:induction false} EventLabelsDiffer(hash: Group -> string, g: Group, m: nat, h: Group, n: nat)
    requires EventLabel(hash, g, m) == EventLabel(hash, h, n)
    ensures hash(g) == hash(h) && m == n
  {
    LabelsDiffer(EventKind(hash(g)), m, EventKind(hash(h)), n);
    assert hash(g) == EventKind(hash(g))[6..] && hash(h) == EventKind(hash(h))[6..];
  }

  lemma {:induction false} EventLabelHasNoColon(hash: Group -> string, g: Group, n: nat)
    requires PlainHash(hash)
    ensures ':' !in EventLabel(hash, g, n)
  {
    assert Plain(hash(g));
    NumberedHasNoColon(EventKind(hash(g)), n);
  }

  /** What a registration makes of the groups. */
  function OfAfter(r: Registered, of: map<string, Group>, e: Event): map<string, Group> {
    if e.id in r.seen then of else of[e.id := GroupOf(r.table, e)]
  }

  /** An event's label stays. */
  lemma {:induction false} StillNumbers(r: Registered, of: map<string, Group>, e: Event, hash: Group -> string,
                                        k: Key<string>, g: Group, n: nat)
    requires Numbers(r, of, hash, k, g, n) && of.Keys == r.seen
    ensures Numbers(Register(r, e, hash), OfAfter(r, of, e), hash, k, g, n)
  {
  }

  lemma {:induction false} RegisterKeeps(r: Registered, of: map<string, Group>, e: Event, hash: Group -> string)
    requires Kept(r, of, hash)
    ensures Kept(Register(r, e, hash), OfAfter(r, of, e), hash)
  {
    var r2, of2 := Register(r, e, hash), OfAfter(r, of, e);
    if e.id !in r.seen {
      var g, key := GroupOf(r.table, e), Key("entity", e.id);
      assert Numbers(r2, of2, hash, key, g, r2.counts[g]);
      forall k | k in r2.table ensures ':' in r2.table[k] || IsEvents(r2, of2, hash, k) {
        if k == key { assert IsEvents(r2, of2, hash, key); }
        else if IsEvents(r, of, hash, k) {
          var h, n :| Numbers(r, of, hash, k, h, n);
          StillNumbers(r, of, e, hash, k, h, n);
        }
      }
      forall h, n: nat | h in r2.counts && 0 < n <= r2.counts[h] ensures HasNth(r2, of2, hash, h, n) {
        if h in r.counts && n <= r.counts[h] {
          assert HasNth(r, of, hash, h, n);
          var k :| Numbers(r, of, hash, k, h, n);
          StillNumbers(r, of, e, hash, k, h, n);
        }
      }
    }
  }

  /** A label handed out is new, unless a digest collides. */
  lemma {:induction false} RegisterStaysInjective(r: Registered, of: map<string, Group>, e: Event,
                                                  hash: Group -> string)
    requires Kept(r, of, hash) && Injective(r.table) && PlainHash(hash)
    requires NoCollision(Register(r, e, hash).counts.Keys, hash)
    ensures Injective(Register(r, e, hash).table)
  {
    if e.id !in r.seen {
      var g := GroupOf(r.table, e);
      var n := CountOf(r.counts, g) + 1;
      forall k | k in r.table ensures r.table[k] != EventLabel(hash, g, n) {
        if ':' in r.table[k] { EventLabelHasNoColon(hash, g, n); }
        else {
          assert IsEvents(r, of, hash, k);
          var h, m :| Numbers(r, of, hash, k, h, m);
          assert h in Register(r, e, hash).counts.Keys && g in Register(r, e, hash).counts.Keys;
          if r.table[k] == EventLabel(hash, g, n) { EventLabelsDiffer(hash, h, m, g, n); }
        }
      }
    }
  }

  lemma {:induction false} AllKept(r: Registered, of: map<string, Group>, events: seq<Event>, hash: Group -> string)
      returns (of2: map<string, Group>)
    requires Kept(r, of, hash) && PlainHash(hash)
    ensures var r2 := RegisterAll(r, events, hash);
            Kept(r2, of2, hash) && r.counts.Keys <= r2.counts.Keys &&
            (Injective(r.table) && NoCollision(r2.counts.Keys, hash) ==> Injective(r2.table))
    decreases |events|
  {
    if events == [] { of2 := of; }
    else {
      RegisterKeeps(r, of, events[0], hash);
      of2 := AllKept(Register(r, events[0], hash), OfAfter(r, of, events[0]), events[1..], hash);
      if Injective(r.table) && NoCollision(RegisterAll(r, events, hash).counts.Keys, hash) {
        RegisterStaysInjective(r, of, events[0], hash);
      }
    }
  }

  /** Colliding groups give their first events one label. */
  lemma {:induction false} CollisionRepeats(r: Registered, of: map<string, Group>, hash: Group -> string)
    requires Kept(r, of, hash) && Injective(r.table)
    ensures NoCollision(r.counts.Keys, hash)
  {
    forall g, h | g in r.counts.Keys && h in r.counts.Keys && hash(g) == hash(h) ensures g == h {
      assert HasNth(r, of, hash, g, 1) && HasNth(r, of, hash, h, 1);
      var j :| Numbers(r, of, hash, j, g, 1);
      var k :| Numbers(r, of, hash, k, h, 1);
      assert j == k;
    }
  }

  // ---- the table a comparison starts from -----------------------------------------------------------

  /** No kind looks like an event's. */
  predicate OrdinaryKind(kind: string) { Plain(kind) && !(|kind| >= 6 && kind[..6] == "event_") }

  lemma {:induction false} EventLabelIsForeign(hash: Group -> string, g: Group, n: nat, kinds: set<string>)
    requires forall kind <- kinds :: OrdinaryKind(kind)
    ensures Foreign(EventLabel(hash, g, n), kinds)
  {
    forall kind, m | kind in kinds ensures EventLabel(hash, g, n) != LabelOf(kind, m) {
      assert EventKind(hash(g))[..6] == "event_";
      if EventLabel(hash, g, n) == LabelOf(kind, m) { LabelsDiffer(EventKind(hash(g)), n, kind, m); }
    }
  }

  /** The table of payout identities and captured events of one run. */
  function StartingTable(files: seq<File>, events: seq<Event>, hash: Group -> string): Registered {
    RegisterAll(Unregistered(AddFiles(map[], files)), events, hash)
  }

  /** The starting table gives no two ids one label exactly when no two event groups have one digest. */
  lemma {:induction false} StartingLabelsAreGivenExactly(files: seq<File>, events: seq<Event>, hash: Group -> string,
                                                         kinds: set<string>)
    requires DistinctNames(files) && PlainHash(hash) && forall kind <- kinds :: OrdinaryKind(kind)
    ensures var r := StartingTable(files, events, hash);
            Identities(r.table, kinds) <==> NoCollision(r.counts.Keys, hash)
  {
    var t, r := AddFiles(map[], files), StartingTable(files, events, hash);
    FilesArePlaced(map[], {}, files);
    assert Kept(Unregistered(t), map[], hash);
    var of := AllKept(Unregistered(t), map[], events, hash);
    if Injective(r.table) { CollisionRepeats(r, of, hash); }
    forall k | k in r.table ensures Foreign(r.table[k], kinds) {
      if ':' in r.table[k] {
        forall kind, n | kind in kinds ensures ':' !in LabelOf(kind, n) { NumberedHasNoColon(kind, n); }
      } else {
        assert IsEvents(r, of, hash, k);
        var g, n :| Numbers(r, of, hash, k, g, n);
        EventLabelIsForeign(hash, g, n, kinds);
      }
    }
  }

  /** What a payout is called in a table: its label, if it has one. */
  predicate CalledAlike(t: Table<string>, p: string, q: string) {
    if Key("entity", p) in t then
      t[Key("entity", p)] == if Key("entity", q) in t then t[Key("entity", q)] else q
    else if Key("entity", q) in t then p == t[Key("entity", q)] else p == q
  }

  /** Two events belong together exactly when all of their content that outlives a replay is the same. */
  lemma {:induction false} SameGroupExactly(t: Table<string>, e: Event, f: Event)
    ensures GroupOf(t, e) == GroupOf(t, f) <==>
              e.owner == f.owner && e.event == f.event && e.status == f.status && e.amount == f.amount &&
              CalledAlike(t, e.payout, f.payout)
  {
  }

  /** The events of each group are numbered from one on, without a gap. */
  lemma {:induction false} GroupsAreNumbered(files: seq<File>, events: seq<Event>, hash: Group -> string, g: Group,
                                             n: nat)
    requires DistinctNames(files) && PlainHash(hash)
    requires var r := StartingTable(files, events, hash); g in r.counts && 1 <= n <= r.counts[g]
    ensures var r := StartingTable(files, events, hash);
            exists id :: id in r.seen && Key("entity", id) in r.table &&
              r.table[Key("entity", id)] == "event_" + hash(g) + "_" + Show(n)
  {
    var t, r := AddFiles(map[], files), StartingTable(files, events, hash);
    FilesArePlaced(map[], {}, files);
    assert Kept(Unregistered(t), map[], hash);
    var of := AllKept(Unregistered(t), map[], events, hash);
    assert HasNth(r, of, hash, g, n);
    var k :| Numbers(r, of, hash, k, g, n);
    assert k == Key("entity", k.id);
  }

  /** Two runs of a test, each from its own starting table without collisions, get the same labels exactly when they use
      their ids in the same way. */
  lemma {:induction false} ReplaysAgreeExactly(files1: seq<File>, events1: seq<Event>, seen1: seq<Key<string>>,
                                               files2: seq<File>, events2: seq<Event>, seen2: seq<Key<string>>,
                                               hash: Group -> string, kinds: set<string>)
    requires DistinctNames(files1) && DistinctNames(files2) && PlainHash(hash)
    requires OfKinds(seen1, kinds) && OfKinds(seen2, kinds) && forall kind <- kinds :: OrdinaryKind(kind)
    requires NoCollision(StartingTable(files1, events1, hash).counts.Keys, hash)
    requires NoCollision(StartingTable(files2, events2, hash).counts.Keys, hash)
    ensures var t1, t2 := StartingTable(files1, events1, hash).table, StartingTable(files2, events2, hash).table;
            Labels(t1, seen1) == Labels(t2, seen2) <==> SameUse(t1, seen1, t2, seen2)
  {
    StartingLabelsAreGivenExactly(files1, events1, hash, kinds);
    StartingLabelsAreGivenExactly(files2, events2, hash, kinds);
    SameLabelsExactly(StartingTable(files1, events1, hash).table, seen1, StartingTable(files2, events2, hash).table,
      seen2, kinds);
  }
}
