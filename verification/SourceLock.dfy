/**
 Merging the committed records of every repository's commit into one lock (archkit/lock.py): compatible prefixes are
 extended, the others are kept as conflicts.
 */
module SourceLock {
  datatype Conflict = Conflict(source: string, sha: string)

  /** An empty `sha` is an unknown commit. */
  datatype Entry = Entry(sha: string, conflicts: seq<Conflict>)

  /** A record of a repository, under its lower-case name. */
  datatype Row = Row(key: string, source: string, sha: string)

  type Lock = map<string, Entry>

  predicate Compatible(a: string, b: string) { a <= b || b <= a }

  /** What one more record does to a repository's entry. */
  function Merge(e: Entry, r: Row): Entry {
    if r.sha == "" then e
    else if e.sha == "" then e.(sha := r.sha)
    else if !Compatible(e.sha, r.sha) then e.(conflicts := e.conflicts + [Conflict(r.source, r.sha)])
    else if e.sha <= r.sha then e.(sha := r.sha)
    else e
  }

  const Unknown := Entry("", [])

  /** The entry of `key` after these records. */
  function MergeAll(e: Entry, rows: seq<Row>, key: string): Entry
    decreases |rows|
  {
    if rows == [] then e else MergeAll(if rows[0].key == key then Merge(e, rows[0]) else e, rows[1..], key)
  }

  function EntryOf(lock: Lock, key: string): Entry { if key in lock then lock[key] else Unknown }

  predicate Mentions(rows: seq<Row>, key: string) { exists r <- rows :: r.key == key }

  /** Truncation to forty characters, as for the inventory. */
  function Short(sha: string): string { if |sha| <= 40 then sha else sha[..40] }

  /** The last inventory row of a repository wins. */
  function InventoryOf(rows: seq<Row>): Lock {
    if rows == [] then map[]
    else InventoryOf(rows[..|rows| - 1])[rows[|rows| - 1].key := Entry(Short(rows[|rows| - 1].sha), [])]
  }

  class LockBuilder {
    var repos: Lock

    constructor ()
      ensures repos == map[]
    {
      repos := map[];
    }

    /** An inventory row replaces whatever the repository's entry was. */
    method AddInventory(rows: seq<Row>)
      modifies this
      ensures repos == old(repos) + InventoryOf(rows)
    {
      for k := 0 to |rows|
        invariant repos == old(repos) + InventoryOf(rows[..k])
      {
        assert rows[..k + 1][..k] == rows[..k];
        repos := repos[rows[k].key := Entry(Short(rows[k].sha), [])];
      }
      assert rows[..|rows|] == rows;
    }

    /** The Source-to-Pay records, whose loop prefers the new record among equally long ones. */
    method AddSourceToPay(rows: seq<Row>)
      modifies this
      ensures forall key :: key in repos <==> key in old(repos) || Mentions(rows, key)
      ensures forall key :: EntryOf(repos, key) == MergeAll(EntryOf(old(repos), key), rows, key)
    {
      assert rows[0..] == rows;
      for k := 0 to |rows|
        invariant forall key :: key in repos <==> key in old(repos) || Mentions(rows[..k], key)
        invariant forall key ::
                  MergeAll(EntryOf(old(repos), key), rows, key) == MergeAll(EntryOf(repos, key), rows[k..], key)
      {
        assert rows[k..][0] == rows[k] && rows[k..][1..] == rows[k + 1..];
        assert rows[..k + 1] == rows[..k] + [rows[k]];
        var r := rows[k];
        var cur := EntryOf(repos, r.key);
        var next;
        if cur.sha != "" && r.sha != "" && !(cur.sha <= r.sha) && !(r.sha <= cur.sha) {
          next := cur.(conflicts := cur.conflicts + [Conflict(r.source, r.sha)]);
        } else {
          next := cur.(sha := if |r.sha| >= |cur.sha| then r.sha else cur.sha);
        }
        NextIsMerge(cur, r, next);
        repos := repos[r.key := next];
      }
      assert rows[..|rows|] == rows && rows[|rows|..] == [];
    }

    /** The repository nodes of the graph, whose loop keeps the old record among equally long ones. */
    method AddGraph(rows: seq<Row>)
      modifies this
      ensures forall key :: key in repos <==> key in old(repos) || Mentions(rows, key)
      ensures forall key :: EntryOf(repos, key) == MergeAll(EntryOf(old(repos), key), rows, key)
    {
      assert rows[0..] == rows;
      for k := 0 to |rows|
        invariant forall key :: key in repos <==> key in old(repos) || Mentions(rows[..k], key)
        invariant forall key ::
                  MergeAll(EntryOf(old(repos), key), rows, key) == MergeAll(EntryOf(repos, key), rows[k..], key)
      {
        assert rows[k..][0] == rows[k] && rows[k..][1..] == rows[k + 1..];
        assert rows[..k + 1] == rows[..k] + [rows[k]];
        var r := rows[k];
        var cur := EntryOf(repos, r.key);
        var next := cur;
        if r.sha != "" {
          if cur.sha != "" && !(r.sha <= cur.sha || cur.sha <= r.sha) {
            next := cur.(conflicts := cur.conflicts + [Conflict(r.source, r.sha)]);
          } else if |r.sha| > |cur.sha| {
            next := cur.(sha := r.sha);
          }
        }
        NextIsMerge(cur, r, next);
        repos := repos[r.key := next];
      }
      assert rows[..|rows|] == rows && rows[|rows|..] == [];
    }
  }

  /** Row `k` is the last of the inventory for this repository. */
  predicate IsLastRow(inventory: seq<Row>, k: nat, key: string) {
    k < |inventory| && inventory[k].key == key && forall j :: k < j < |inventory| ==> inventory[j].key != key
  }

  /** The first forty characters of `sha`, or all of it. */
  predicate IsCutTo40(start: string, sha: string) { start <= sha && |start| == if |sha| < 40 then |sha| else 40 }

  /** What the inventory says of a repository's commit: that of its last row, cut; nothing without one. */
  ghost predicate IsInventoryCommit(inventory: seq<Row>, key: string, start: string) {
    if Mentions(inventory, key) then exists k: nat :: IsLastRow(inventory, k, key) && IsCutTo40(start, inventory[k].sha)
    else start == ""
  }

  /** The later records of this repository that are incompatible with `sha`, in order. */
  function Incompatible(rows: seq<Row>, key: string, sha: string): seq<Conflict>
    decreases |rows|
  {
    if rows == [] then []
    else
      (if rows[0].key == key && !Compatible(rows[0].sha, sha) then [Conflict(rows[0].source, rows[0].sha)] else []) +
      Incompatible(rows[1..], key, sha)
  }

  /** The final commit extends the inventory's, and is it when no later record properly extends it; otherwise it is a
      later record's.  Every later record is a prefix of it or a conflict, and the conflicts are the incompatible ones,
      in order. */
  ghost predicate IsLocked(e: Entry, inventory: seq<Row>, later: seq<Row>, key: string) {
    exists start ::
      IsInventoryCommit(inventory, key, start) && start <= e.sha &&
      (e.sha == start || exists r <- later :: r.key == key && r.sha == e.sha) &&
      (forall source, sha :: Seen(later, key, source, sha) ==> sha <= e.sha || Conflict(source, sha) in e.conflicts) &&
      e.conflicts == Incompatible(later, key, e.sha)
  }

  method BuildSourceLock(inventory: seq<Row>, sourceToPay: seq<Row>, graph: seq<Row>) returns (repos: Lock)
    ensures forall key :: key in repos <==>
            Mentions(inventory, key) || Mentions(sourceToPay, key) || Mentions(graph, key)
    ensures forall key :: key in repos ==> IsLocked(repos[key], inventory, sourceToPay + graph, key)
    ensures forall key ::
            EntryOf(repos, key) == MergeAll(EntryOf(InventoryOf(inventory), key), sourceToPay + graph, key)
  {
    var b := new LockBuilder();
    b.AddInventory(inventory);
    assert b.repos == InventoryOf(inventory);
    b.AddSourceToPay(sourceToPay);
    b.AddGraph(graph);
    repos := b.repos;
    forall key ensures key in InventoryOf(inventory) <==> Mentions(inventory, key) { InventoryKeys(inventory, key); }
    forall key ensures EntryOf(repos, key) == MergeAll(EntryOf(InventoryOf(inventory), key), sourceToPay + graph, key) {
      MergeInTurn(EntryOf(InventoryOf(inventory), key), sourceToPay, graph, key);
    }
    forall key | key in repos ensures IsLocked(repos[key], inventory, sourceToPay + graph, key) {
      MergedIsLocked(inventory, sourceToPay + graph, key);
    }
  }

  lemma {:induction false} InventoryKeys(rows: seq<Row>, key: string)
    ensures key in InventoryOf(rows) <==> Mentions(rows, key)
    decreases |rows|
  {
    if rows != [] {
      InventoryKeys(rows[..|rows| - 1], key);
      assert rows == rows[..|rows| - 1] + [rows[|rows| - 1]];
    }
  }

  lemma {:induction false} MergeInTurn(e: Entry, a: seq<Row>, b: seq<Row>, key: string)
    ensures MergeAll(MergeAll(e, a, key), b, key) == MergeAll(e, a + b, key)
    decreases |a|
  {
    if a == [] { assert a + b == b; }
    else {
      assert (a + b)[1..] == a[1..] + b;
      MergeInTurn(if a[0].key == key then Merge(e, a[0]) else e, a[1..], b, key);
    }
  }

  /** The inventory's entry: the commit of the last row, cut, and no conflict. */
  lemma {:induction false} InventoryEntry(inventory: seq<Row>, key: string)
    ensures var e := EntryOf(InventoryOf(inventory), key);
            e.conflicts == [] && IsInventoryCommit(inventory, key, e.sha)
    decreases |inventory|
  {
    if inventory != [] {
      var n := |inventory| - 1;
      var before, last := inventory[..n], inventory[n];
      assert inventory == before + [last];
      InventoryEntry(before, key);
      if last.key == key {
        assert IsLastRow(inventory, n, key) && IsCutTo40(Short(last.sha), last.sha);
      } else if Mentions(before, key) {
        var k: nat :| IsLastRow(before, k, key) && IsCutTo40(EntryOf(InventoryOf(before), key).sha, before[k].sha);
        assert IsLastRow(inventory, k, key);
      }
    }
  }

  /** The conflicts a merge adds are the records incompatible with its result, in order and each as often as it came. */
  lemma {:induction false} ConflictsInOrder(e: Entry, rows: seq<Row>, key: string)
    ensures var m := MergeAll(e, rows, key); m.conflicts == e.conflicts + Incompatible(rows, key, m.sha)
    decreases |rows|
  {
    if rows != [] {
      var r := rows[0];
      var next := if r.key == key then Merge(e, r) else e;
      var m := MergeAll(next, rows[1..], key);
      OnlyGrows(next, rows[1..], key);
      ConflictsInOrder(next, rows[1..], key);
      if r.key == key { FirstConflict(e, r, m.sha); }
    }
  }

  /** One record is a conflict at its turn exactly when it is one in the end. */
  lemma {:induction false} FirstConflict(e: Entry, r: Row, final: string)
    requires Merge(e, r).sha <= final
    ensures Merge(e, r).conflicts ==
            e.conflicts + if Compatible(r.sha, final) then [] else [Conflict(r.source, r.sha)]
  {
    if r.sha != "" && e.sha != "" && !Compatible(e.sha, r.sha) {
      if r.sha <= final { PrefixesCompare(r.sha, e.sha, final); }
      else if final <= r.sha { PrefixOf(e.sha, final, r.sha); }
    } else {
      assert e.conflicts + [] == e.conflicts;
      PrefixOf(r.sha, Merge(e, r).sha, final);
    }
  }

  lemma {:induction false} MergedIsLocked(inventory: seq<Row>, later: seq<Row>, key: string)
    ensures IsLocked(MergeAll(EntryOf(InventoryOf(inventory), key), later, key), inventory, later, key)
  {
    var e := EntryOf(InventoryOf(inventory), key);
    var m := MergeAll(e, later, key);
    InventoryEntry(inventory, key);
    OnlyGrows(e, later, key);
    FinalIsSeen(e, later, key);
    ConflictsInOrder(e, later, key);
    forall source, sha | Seen(later, key, source, sha) ensures sha <= m.sha || Conflict(source, sha) in m.conflicts {
      LockPartitions(e, later, key, source, sha);
    }
    assert IsInventoryCommit(inventory, key, e.sha);
  }

  /** So the inventory's commit is never contradicted: it is a prefix of the final commit, and the final commit itself
      when no later record properly extends it; and whatever is incompatible with it is a conflict. */
  lemma {:induction false} InventoryIsKept(e: Entry, inventory: seq<Row>, later: seq<Row>, key: string, k: nat,
                                           start: string)
    requires IsLocked(e, inventory, later, key) && IsLastRow(inventory, k, key) && IsCutTo40(start, inventory[k].sha)
    ensures start <= e.sha
    ensures (forall r <- later :: r.key == key ==> !(start <= r.sha && start != r.sha)) ==> e.sha == start
    ensures forall source, sha :: Seen(later, key, source, sha) && !Compatible(sha, start) ==>
              Conflict(source, sha) in e.conflicts
  {
    var first :| IsInventoryCommit(inventory, key, first) && first <= e.sha &&
      (e.sha == first || exists r <- later :: r.key == key && r.sha == e.sha) &&
      (forall source, sha :: Seen(later, key, source, sha) ==> sha <= e.sha || Conflict(source, sha) in e.conflicts);
    assert inventory[k] in inventory;
    var j: nat :| IsLastRow(inventory, j, key) && IsCutTo40(first, inventory[j].sha);
    assert j == k && first == start;
    forall source, sha | Seen(later, key, source, sha) && !Compatible(sha, start)
      ensures Conflict(source, sha) in e.conflicts
    {
      if sha <= e.sha { PrefixesCompare(sha, start, e.sha); }
    }
  }

  /** Two ways to write the merge: by prefixes, or by lengths once the two are known to be compatible. */
  lemma {:induction false} NextIsMerge(cur: Entry, r: Row, next: Entry)
    requires if cur.sha != "" && r.sha != "" && !Compatible(cur.sha, r.sha)
             then next == cur.(conflicts := cur.conflicts + [Conflict(r.source, r.sha)])
             else next == cur.(sha := if |r.sha| > |cur.sha| then r.sha else cur.sha) ||
                  next == cur.(sha := if |r.sha| >= |cur.sha| then r.sha else cur.sha)
    ensures next == Merge(cur, r)
  {
    if Compatible(cur.sha, r.sha) && |cur.sha| == |r.sha| { assert cur.sha == r.sha; }
  }

  // ---- what the merged entry means ----------------------------------------------------------------

  lemma {:induction false} PrefixOf(a: string, b: string, c: string)
    requires a <= b <= c
    ensures a <= c
  {
  }

  /** Two prefixes of one string are compatible. */
  lemma {:induction false} PrefixesCompare(a: string, b: string, c: string)
    requires a <= c && b <= c
    ensures Compatible(a, b)
  {
    if |a| <= |b| { assert a == c[..|a|] && b[..|a|] == c[..|a|]; }
    else { assert b == c[..|b|] && a[..|b|] == c[..|b|]; }
  }

  /** The commit only ever grows by extension, and conflicts are only ever added. */
  lemma {:induction false} OnlyGrows(e: Entry, rows: seq<Row>, key: string)
    ensures var m := MergeAll(e, rows, key); e.sha <= m.sha && e.conflicts <= m.conflicts
    decreases |rows|
  {
    if rows != [] { OnlyGrows(if rows[0].key == key then Merge(e, rows[0]) else e, rows[1..], key); }
  }

  /** Record `r` of this repository was seen. */
  predicate Seen(rows: seq<Row>, key: string, source: string, sha: string) {
    sha != "" && Row(key, source, sha) in rows
  }

  /** Every record seen is a prefix of the final commit or one of the conflicts; the new conflicts are exactly the
      records incompatible with the final commit. */
  lemma {:induction false} LockPartitions(e: Entry, rows: seq<Row>, key: string, source: string, sha: string)
    ensures var m := MergeAll(e, rows, key);
            Seen(rows, key, source, sha) ==> sha <= m.sha || Conflict(source, sha) in m.conflicts
    ensures var m := MergeAll(e, rows, key);
            Conflict(source, sha) in m.conflicts <==>
            Conflict(source, sha) in e.conflicts || (Seen(rows, key, source, sha) && !Compatible(sha, m.sha))
    decreases |rows|
  {
    if rows != [] {
      var r := rows[0];
      var next := if r.key == key then Merge(e, r) else e;
      OnlyGrows(next, rows[1..], key);
      LockPartitions(next, rows[1..], key, source, sha);
      if r == Row(key, source, sha) && sha != "" {
        var m := MergeAll(next, rows[1..], key);
        if next.conflicts == e.conflicts {
          PrefixOf(sha, next.sha, m.sha);
        } else if Compatible(sha, m.sha) {
          if sha <= m.sha { PrefixesCompare(sha, e.sha, m.sha); }
          else { PrefixOf(e.sha, m.sha, sha); }
        }
      }
    }
  }

  predicate AllCompatible(rows: seq<Row>, key: string) {
    forall r, q :: r in rows && q in rows && r.key == key && q.key == key ==> Compatible(r.sha, q.sha)
  }

  /** The final commit is one of the records. */
  lemma {:induction false} FinalIsSeen(e: Entry, rows: seq<Row>, key: string)
    ensures var m := MergeAll(e, rows, key); m.sha == e.sha || exists r <- rows :: r.key == key && r.sha == m.sha
    decreases |rows|
  {
    if rows != [] { FinalIsSeen(if rows[0].key == key then Merge(e, rows[0]) else e, rows[1..], key); }
  }

  /** The entry's own commit, as the first of the records. */
  function Records(e: Entry, rows: seq<Row>, key: string): seq<Row> { [Row(key, "inventory", e.sha)] + rows }

  lemma {:induction false} OwnCommitIsFirst(e: Entry, rows: seq<Row>, key: string)
    requires e.conflicts == []
    ensures MergeAll(e, rows, key) == MergeAll(Unknown, Records(e, rows, key), key)
  {
    assert Records(e, rows, key)[1..] == rows;
    assert Merge(Unknown, Records(e, rows, key)[0]) == e;
  }

  /** Starting from an entry without conflicts, such as the inventory leaves, there is no conflict exactly when its
      commit and the later records of the repository are pairwise compatible. */
  lemma {:induction false} NoConflictExactly(e: Entry, rows: seq<Row>, key: string)
    requires e.conflicts == []
    ensures MergeAll(e, rows, key).conflicts == [] <==> AllCompatible(Records(e, rows, key), key)
  {
    OwnCommitIsFirst(e, rows, key);
    FreshHasNoConflict(Records(e, rows, key), key);
  }

  lemma {:induction false} FreshHasNoConflict(rows: seq<Row>, key: string)
    ensures MergeAll(Unknown, rows, key).conflicts == [] <==> AllCompatible(rows, key)
  {
    var m := MergeAll(Unknown, rows, key);
    if m.conflicts == [] {
      forall r, q | r in rows && q in rows && r.key == key && q.key == key ensures Compatible(r.sha, q.sha) {
        if r.sha != "" && q.sha != "" {
          LockPartitions(Unknown, rows, key, r.source, r.sha);
          LockPartitions(Unknown, rows, key, q.source, q.sha);
          PrefixesCompare(r.sha, q.sha, m.sha);
        }
      }
    } else if AllCompatible(rows, key) {
      var c := m.conflicts[0];
      LockPartitions(Unknown, rows, key, c.source, c.sha);
      FinalIsSeen(Unknown, rows, key);
    }
  }

  /** The same for the lock as a whole. */
  lemma {:induction false} LockHasNoConflictExactly(inventory: seq<Row>, later: seq<Row>, key: string)
    ensures var e := EntryOf(InventoryOf(inventory), key);
            MergeAll(e, later, key).conflicts == [] <==> AllCompatible(Records(e, later, key), key)
  {
    InventoryHasNoConflict(inventory, key);
    NoConflictExactly(EntryOf(InventoryOf(inventory), key), later, key);
  }

  lemma {:induction false} InventoryHasNoConflict(rows: seq<Row>, key: string)
    ensures EntryOf(InventoryOf(rows), key).conflicts == []
    decreases |rows|
  {
    if rows != [] { InventoryHasNoConflict(rows[..|rows| - 1], key); }
  }

  /** Without conflicts the order of the later records does not matter: the commit is the longest of all. */
  lemma {:induction false} OrderDoesNotMatter(e: Entry, rows1: seq<Row>, rows2: seq<Row>, key: string)
    requires e.conflicts == [] && forall r :: r in rows1 <==> r in rows2
    requires AllCompatible(Records(e, rows1, key), key)
    ensures MergeAll(e, rows1, key) == MergeAll(e, rows2, key)
  {
    var all1, all2 := Records(e, rows1, key), Records(e, rows2, key);
    assert forall r :: r in all1 <==> r in all2;
    OwnCommitIsFirst(e, rows1, key);
    OwnCommitIsFirst(e, rows2, key);
    FreshHasNoConflict(all1, key);
    FreshHasNoConflict(all2, key);
    LongestWins(all1, all2, key);
    LongestWins(all2, all1, key);
  }

  lemma {:induction false} LongestWins(rows1: seq<Row>, rows2: seq<Row>, key: string)
    requires (forall r :: r in rows1 <==> r in rows2) && MergeAll(Unknown, rows2, key).conflicts == []
    ensures MergeAll(Unknown, rows1, key).sha <= MergeAll(Unknown, rows2, key).sha
  {
    var m1 := MergeAll(Unknown, rows1, key);
    FinalIsSeen(Unknown, rows1, key);
    if m1.sha != "" {
      var r :| r in rows1 && r.key == key && r.sha == m1.sha;
      LockPartitions(Unknown, rows2, key, r.source, r.sha);
    }
  }
}
