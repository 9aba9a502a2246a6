/**
 The payout identities a comparison starts from (payout_identities in ENV2_COMPOSE/scripts/compare-replays.py): named
 after the test that created the payout and its place among that test's create responses.
 */
module ReplayIdentities {
  import opened Decimal
  import opened Options
  import opened ReplayAliases

  /** What matters of a trace record here. */
  datatype Capture = Capture(kind: string, verb: string, url: string, id: Option<string>)

  /** A test's trace. */
  datatype File = File(name: string, records: seq<Capture>)

  predicate EndsWith(s: string, suffix: string) { |s| >= |suffix| && s[|s| - |suffix|..] == suffix }

  /** The response that creates a payout. */
  predicate Creates(c: Capture) {
    c.kind == "http_response" && c.verb == "POST" && EndsWith(c.url, "/v1/payouts") && c.id.Some? &&
      "pout_" <= c.id.value
  }

  function RawOf(c: Capture): string
    requires Creates(c)
  {
    c.id.value[5..]
  }

  function PayoutLabel(name: string, n: nat): string { LabelOf(name + ":payout", n) }

  /** A payout is named when it is first created; `seen` are those of the test so far. */
  function AddFile(t: Table<string>, name: string, records: seq<Capture>, seen: seq<string>): Table<string>
    decreases |records|
  {
    if records == [] then t
    else if !Creates(records[0]) || RawOf(records[0]) in seen then AddFile(t, name, records[1..], seen)
    else
      var raw := RawOf(records[0]);
      AddFile(t[Key("entity", raw) := PayoutLabel(name, |seen| + 1)], name, records[1..], seen + [raw])
  }

  function AddFiles(t: Table<string>, files: seq<File>): Table<string>
    decreases |files|
  {
    if files == [] then t else AddFiles(AddFile(t, files[0].name, files[0].records, []), files[1..])
  }

  method PayoutIdentities(files: seq<File>) returns (t: Table<string>)
    ensures t == AddFiles(map[], files)
  {
    t := map[];
    for k := 0 to |files|
      invariant AddFiles(map[], files) == AddFiles(t, files[k..])
    {
      assert files[k..][0] == files[k] && files[k..][1..] == files[k + 1..];
      ghost var before := t;
      var name, records := files[k].name, files[k].records;
      var seen: seq<string> := [];
      for n := 0 to |records|
        invariant AddFile(before, name, records, []) == AddFile(t, name, records[n..], seen)
      {
        assert records[n..][0] == records[n] && records[n..][1..] == records[n + 1..];
        if Creates(records[n]) {
          var raw := records[n].id.value[5..];
          if raw !in seen {
            t := t[Key("entity", raw) := PayoutLabel(name, |seen| + 1)];
            seen := seen + [raw];
          }
        }
      }
    }
  }

  // ---- who is named how ----------------------------------------------------------------------------

  /** The record is the response that creates this payout. */
  ghost predicate IsCreation(c: Capture, raw: string) {
    c.kind == "http_response" && c.verb == "POST" &&
    (exists host :: c.url == host + "/v1/payouts") &&
    c.id == Some("pout_" + raw)
  }

  lemma {:induction false} CreatesExactly(c: Capture, raw: string)
    ensures Creates(c) && RawOf(c) == raw <==> IsCreation(c, raw)
  {
    var suffix, n := "/v1/payouts", |c.url| - |"/v1/payouts"|;
    if Creates(c) && RawOf(c) == raw {
      assert c.url == c.url[..n] + suffix;
      assert c.id.value == "pout_" + raw;
    }
    if IsCreation(c, raw) {
      var host :| c.url == host + suffix;
      assert c.url[n..] == suffix;
    }
  }

  /** The payouts that these records create. */
  function Payouts(records: seq<Capture>): set<string> { set c <- records | Creates(c) :: RawOf(c) }

  function Names(seen: seq<string>): set<string> { set x <- seen }

  /** Record `j` is the first of the test that creates this payout. */
  ghost predicate FirstCreation(records: seq<Capture>, j: nat, raw: string) {
    j < |records| && IsCreation(records[j], raw) && forall i :: 0 <= i < j ==> !IsCreation(records[i], raw)
  }

  ghost predicate Mentions(records: seq<Capture>, raw: string) { exists c <- records :: IsCreation(c, raw) }

  lemma {:induction false} OthersAreSpared(t: Table<string>, name: string, records: seq<Capture>, seen: seq<string>,
                                           raw: string)
    requires !Mentions(records, raw) || raw in seen
    ensures var r, key := AddFile(t, name, records, seen), Key("entity", raw);
            (key in r <==> key in t) && (key in t ==> r[key] == t[key])
    decreases |records|
  {
    if records != [] {
      CreatesExactly(records[0], raw);
      assert records[0] in records;
      if !Creates(records[0]) || RawOf(records[0]) in seen { OthersAreSpared(t, name, records[1..], seen, raw); }
      else {
        var first := RawOf(records[0]);
        var t2 := t[Key("entity", first) := PayoutLabel(name, |seen| + 1)];
        OthersAreSpared(t2, name, records[1..], seen + [first], raw);
      }
    }
  }

  lemma {:induction false} PayoutsSplit(records: seq<Capture>, j: nat)
    requires 0 < j <= |records|
    ensures Payouts(records[..j]) ==
            (if Creates(records[0]) then {RawOf(records[0])} else {}) + Payouts(records[1..][..j - 1])
  {
    assert records[..j] == [records[0]] + records[1..][..j - 1];
  }

  /** The first of a test's records is read, and creation `j` comes `j - 1` records later. */
  lemma {:induction false} FirstCreationLater(records: seq<Capture>, j: nat, raw: string)
    requires FirstCreation(records, j, raw) && j > 0
    ensures FirstCreation(records[1..], j - 1, raw) && !(Creates(records[0]) && RawOf(records[0]) == raw)
  {
    CreatesExactly(records[0], raw);
    assert forall i :: 0 <= i < |records[1..]| ==> records[1..][i] == records[i + 1];
  }

  /** One record of a test. */
  lemma {:induction false} OneRecord(t: Table<string>, name: string, records: seq<Capture>, seen: seq<string>)
    returns (t2: Table<string>, seen2: seq<string>)
    requires records != [] && |Names(seen)| == |seen|
    ensures AddFile(t, name, records, seen) == AddFile(t2, name, records[1..], seen2) && |Names(seen2)| == |seen2|
    ensures Names(seen2) == Names(seen) + if Creates(records[0]) then {RawOf(records[0])} else {}
  {
    t2, seen2 := t, seen;
    if Creates(records[0]) && RawOf(records[0]) !in seen {
      var raw := RawOf(records[0]);
      t2, seen2 := t[Key("entity", raw) := PayoutLabel(name, |seen| + 1)], seen + [raw];
      assert Names(seen2) == Names(seen) + {raw};
    }
  }

  lemma {:induction false} NamedAtOnce(t: Table<string>, name: string, records: seq<Capture>, seen: seq<string>,
                                       raw: string)
    requires records != [] && IsCreation(records[0], raw) && raw !in seen
    ensures var r, key := AddFile(t, name, records, seen), Key("entity", raw);
            key in r && r[key] == PayoutLabel(name, |seen| + 1)
  {
    CreatesExactly(records[0], raw);
    OthersAreSpared(t[Key("entity", raw) := PayoutLabel(name, |seen| + 1)], name, records[1..], seen + [raw], raw);
  }

  lemma {:induction false} InTurn<T>(a: set<T>, b: set<T>, c: set<T>)
    ensures a + (b + c) == (a + b) + c
  {
  }

  lemma {:induction false} NotNamed(seen: seq<string>, raw: string)
    ensures raw in seen <==> raw in Names(seen)
  {
  }

  /** Within a test: `seen` so far, and `all` before the payout is created. */
  lemma {:induction false} NamedInTest(t: Table<string>, name: string, records: seq<Capture>, seen: seq<string>, j: nat,
                                       raw: string, all: set<string>)
    requires FirstCreation(records, j, raw) && raw !in Names(seen) && |Names(seen)| == |seen|
    requires all == Names(seen) + Payouts(records[..j])
    ensures var r, key := AddFile(t, name, records, seen), Key("entity", raw);
            key in r && r[key] == PayoutLabel(name, |all| + 1)
    decreases |records|
  {
    if j == 0 {
      assert records[..0] == [] && all == Names(seen);
      NotNamed(seen, raw);
      NamedAtOnce(t, name, records, seen, raw);
    } else {
      PayoutsSplit(records, j);
      FirstCreationLater(records, j, raw);
      var t2, seen2 := OneRecord(t, name, records, seen);
      InTurn(Names(seen), if Creates(records[0]) then {RawOf(records[0])} else {}, Payouts(records[1..][..j - 1]));
      NamedInTest(t2, name, records[1..], seen2, j - 1, raw, all);
    }
  }

  /** Test `m` is the last whose records create this payout. */
  ghost predicate LastTest(files: seq<File>, m: nat, raw: string) {
    m < |files| && Mentions(files[m].records, raw) && forall n :: m < n < |files| ==> !Mentions(files[n].records, raw)
  }

  lemma {:induction false} LaterTestsSpare(t: Table<string>, files: seq<File>, raw: string)
    requires forall n :: 0 <= n < |files| ==> !Mentions(files[n].records, raw)
    ensures var r, key := AddFiles(t, files), Key("entity", raw);
            (key in r <==> key in t) && (key in t ==> r[key] == t[key])
    decreases |files|
  {
    if files != [] {
      OthersAreSpared(t, files[0].name, files[0].records, [], raw);
      LaterTestsSpare(AddFile(t, files[0].name, files[0].records, []), files[1..], raw);
    }
  }

  /** A payout is named after the last test that creates it, and numbered by how many payouts that test created before
      it did; and nothing else is named. */
  lemma {:induction false} PayoutsAreNamed(t: Table<string>, files: seq<File>, m: nat, j: nat, raw: string)
    requires LastTest(files, m, raw) && FirstCreation(files[m].records, j, raw)
    ensures var r, key := AddFiles(t, files), Key("entity", raw);
            key in r && r[key] == files[m].name + ":payout" + "_" + Show(|Payouts(files[m].records[..j])| + 1)
    decreases |files|
  {
    var t2 := AddFile(t, files[0].name, files[0].records, []);
    if m == 0 {
      var all := Payouts(files[0].records[..j]);
      assert Names([]) == {} && {} + all == all;
      NamedInTest(t, files[0].name, files[0].records, [], j, raw, all);
      LaterTestsSpare(t2, files[1..], raw);
    } else {
      PayoutsAreNamed(t2, files[1..], m - 1, j, raw);
    }
  }

  /** A label is of a test already done, or of the `n`-th payout of the test at hand. */
  predicate Placed(k: Key<string>, s: string, done: set<string>, name: string, seen: seq<string>, nm: string, n: nat) {
    s == PayoutLabel(nm, n) && (nm in done || (nm == name && 0 < n <= |seen| && k == Key("entity", seen[n - 1])))
  }

  ghost predicate AllPlaced(t: Table<string>, done: set<string>, name: string, seen: seq<string>) {
    Injective(t) && forall k <- t :: exists nm, n :: Placed(k, t[k], done, name, seen, nm, n)
  }

  predicate Plain(kind: string) { ':' !in kind }

  lemma {:induction false} PayoutLabelHasColon(name: string, n: nat)
    ensures ':' in PayoutLabel(name, n)
  {
    assert PayoutLabel(name, n)[|name|] == ':';
  }

  lemma {:induction false} NumberedHasNoColon(kind: string, n: nat)
    requires Plain(kind)
    ensures ':' !in LabelOf(kind, n)
  {
    ReadShown(n);
    forall k | 0 <= k < |Show(n)| ensures Show(n)[k] != ':' { assert IsDigit(Show(n)[k]); }
  }

  lemma {:induction false} PayoutLabelsDiffer(name1: string, m: nat, name2: string, n: nat)
    requires PayoutLabel(name1, m) == PayoutLabel(name2, n)
    ensures name1 == name2 && m == n
  {
    LabelsDiffer(name1 + ":payout", m, name2 + ":payout", n);
    assert name1 == (name1 + ":payout")[..|name1|] && name2 == (name2 + ":payout")[..|name2|];
  }

  /** A payout seen for the first time in its test gets a label nobody has. */
  lemma {:induction false} OneMorePayout(t: Table<string>, done: set<string>, name: string, seen: seq<string>,
                                         raw: string)
    requires AllPlaced(t, done, name, seen) && name !in done && raw !in seen
    ensures AllPlaced(t[Key("entity", raw) := PayoutLabel(name, |seen| + 1)], done, name, seen + [raw])
  {
    var s, seen2 := PayoutLabel(name, |seen| + 1), seen + [raw];
    var key := Key("entity", raw);
    var t2 := t[key := s];
    forall k | k in t ensures t[k] != s {
      var nm, n :| Placed(k, t[k], done, name, seen, nm, n);
      if t[k] == s { PayoutLabelsDiffer(nm, n, name, |seen| + 1); }
    }
    forall k | k in t2 ensures exists nm, n :: Placed(k, t2[k], done, name, seen2, nm, n) {
      if k == key { assert Placed(k, s, done, name, seen2, name, |seen| + 1); }
      else {
        var nm, n :| Placed(k, t[k], done, name, seen, nm, n);
        assert Placed(k, t2[k], done, name, seen2, nm, n);
      }
    }
  }

  lemma {:induction false} FileIsPlaced(t: Table<string>, done: set<string>, name: string, records: seq<Capture>,
                                        seen: seq<string>)
      returns (seen2: seq<string>)
    requires AllPlaced(t, done, name, seen) && name !in done
    ensures AllPlaced(AddFile(t, name, records, seen), done, name, seen2)
    decreases |records|
  {
    if records == [] { seen2 := seen; }
    else if !Creates(records[0]) || RawOf(records[0]) in seen {
      seen2 := FileIsPlaced(t, done, name, records[1..], seen);
    } else {
      var raw := RawOf(records[0]);
      OneMorePayout(t, done, name, seen, raw);
      var t2 := t[Key("entity", raw) := PayoutLabel(name, |seen| + 1)];
      seen2 := FileIsPlaced(t2, done, name, records[1..], seen + [raw]);
    }
  }

  predicate DistinctNames(files: seq<File>) { forall i, j :: 0 <= i < j < |files| ==> files[i].name != files[j].name }

  lemma {:induction false} FilesArePlaced(t: Table<string>, done: set<string>, files: seq<File>)
    requires AllPlaced(t, done, "", []) && DistinctNames(files) && forall f <- files :: f.name !in done
    ensures Injective(AddFiles(t, files)) && forall k <- AddFiles(t, files) :: ':' in AddFiles(t, files)[k]
    decreases |files|
  {
    if files == [] {
      forall k | k in t ensures ':' in t[k] {
        var nm, n :| Placed(k, t[k], done, "", [], nm, n);
        PayoutLabelHasColon(nm, n);
      }
    } else {
      var name := files[0].name;
      assert files[0] in files;
      forall k | k in t ensures exists nm, n :: Placed(k, t[k], done, name, [], nm, n) {
        var nm, n :| Placed(k, t[k], done, "", [], nm, n);
        assert Placed(k, t[k], done, name, [], nm, n);
      }
      var seen := FileIsPlaced(t, done, name, files[0].records, []);
      var t2 := AddFile(t, name, files[0].records, []);
      FileIsDone(t2, done, name, seen);
      FilesArePlaced(t2, done + {name}, files[1..]);
    }
  }

  lemma {:induction false} FileIsDone(t: Table<string>, done: set<string>, name: string, seen: seq<string>)
    requires AllPlaced(t, done, name, seen)
    ensures AllPlaced(t, done + {name}, "", [])
  {
    forall k | k in t ensures exists nm, n :: Placed(k, t[k], done + {name}, "", [], nm, n) {
      var nm, n :| Placed(k, t[k], done, name, seen, nm, n);
      assert Placed(k, t[k], done + {name}, "", [], nm, n);
    }
  }

  /** The identities of tests with distinct names give no two payouts one label. */
  lemma {:induction false} IdentitiesAreGiven(files: seq<File>, kinds: set<string>)
    requires DistinctNames(files) && forall kind <- kinds :: Plain(kind)
    ensures Identities(AddFiles(map[], files), kinds)
  {
    var none: Table<string> := map[];
    FilesArePlaced(none, {}, files);
    forall kind, n | kind in kinds ensures ':' !in LabelOf(kind, n) { NumberedHasNoColon(kind, n); }
  }
}
