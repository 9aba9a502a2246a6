/**
 First-occurrence numbering of generated ids in a replay trace (Normalizer in ENV2_COMPOSE/scripts/compare-replays.py):
 two runs get the same labels exactly when they use their ids in the same way.
 */
module ReplayAliases {
  import opened Decimal

  datatype Key<T> = Key(kind: string, id: T)

  type Table<T(==)> = map<Key<T>, string>

  function LabelOf(kind: string, n: nat): string { kind + "_" + Show(n) }

  function OfKind<T(==)>(t: Table<T>, kind: string): set<Key<T>> { set k <- t | k.kind == kind }

  function Count<T(==)>(t: Table<T>, kind: string): nat { |OfKind(t, kind)| }

  function NextLabel<T(==)>(t: Table<T>, k: Key<T>): string {
    if k in t then t[k] else LabelOf(k.kind, Count(t, k.kind) + 1)
  }

  function Observe<T(==)>(t: Table<T>, k: Key<T>): Table<T> { t[k := NextLabel(t, k)] }

  /** The labels of a sequence of observations, in order. */
  function Labels<T(==)>(t: Table<T>, seen: seq<Key<T>>): seq<string>
    decreases |seen|
  {
    if seen == [] then [] else [NextLabel(t, seen[0])] + Labels(Observe(t, seen[0]), seen[1..])
  }

  function ObserveAll<T(==)>(t: Table<T>, seen: seq<Key<T>>): Table<T>
    decreases |seen|
  {
    if seen == [] then t else ObserveAll(Observe(t, seen[0]), seen[1..])
  }

  /** A numeric id, or a value that is none and stays as it is. */
  datatype Cell = Label(s: string) | Number(i: int)

  class Normalizer {
    var aliases: Table<string>
    var numeric: Table<nat>

    constructor (identities: Table<string>)
      ensures aliases == identities && numeric == map[]
    {
      aliases := identities;
      numeric := map[];
    }

    method Alias(value: string, kind: string) returns (s: string)
      modifies this
      ensures s == NextLabel(old(aliases), Key(kind, value))
      ensures aliases == Observe(old(aliases), Key(kind, value)) && numeric == old(numeric)
    {
      var key := Key(kind, value);
      if key !in aliases {
        var same := set k <- aliases | k.kind == kind;
        aliases := aliases[key := kind + "_" + Show(|same| + 1)];
      }
      s := aliases[key];
    }

    method NumericId(value: int, kind: string) returns (c: Cell)
      modifies this
      ensures aliases == old(aliases)
      ensures value > 0 ==>
              c == Label(NextLabel(old(numeric), Key(kind, value))) &&
              numeric == Observe(old(numeric), Key(kind, value))
      ensures value <= 0 ==> c == Number(value) && numeric == old(numeric)
    {
      if value <= 0 { return Number(value); }
      var pair := Key(kind, value as nat);
      if pair !in numeric {
        var same := set k <- numeric | k.kind == kind;
        numeric := numeric[pair := kind + "_" + Show(|same| + 1)];
      }
      c := Label(numeric[pair]);
    }
  }

  // ---- labels ---------------------------------------------------------------------------------

  lemma {:induction false} LabelsDiffer(kind1: string, m: nat, kind2: string, n: nat)
    requires LabelOf(kind1, m) == LabelOf(kind2, n)
    ensures kind1 == kind2 && m == n
  {
    var s := LabelOf(kind1, m);
    ReadShown(m);
    ReadShown(n);
    if |Show(m)| < |Show(n)| { UnderscorePlace(kind1, m, kind2, n); }
    else if |Show(n)| < |Show(m)| { UnderscorePlace(kind2, n, kind1, m); }
    assert kind1 == s[..|kind1|] && kind2 == s[..|kind2|];
    assert Show(m) == s[|kind1| + 1..] && Show(n) == s[|kind2| + 1..];
    ShowInjective(m, n);
  }

  /** The last underscore cannot be two places at once. */
  lemma {:induction false} UnderscorePlace(kind1: string, m: nat, kind2: string, n: nat)
    requires LabelOf(kind1, m) == LabelOf(kind2, n)
    ensures |Show(m)| >= |Show(n)|
  {
    ReadShown(n);
    var s := LabelOf(kind1, m);
    forall k | |kind2| < k < |s| ensures IsDigit(s[k]) { assert s[k] == Show(n)[k - |kind2| - 1]; }
    assert s[|kind1|] == '_';
  }

  /** No label of these kinds is numbered so. */
  ghost predicate Foreign(name: string, kinds: set<string>) { forall kind <- kinds, n :: name != LabelOf(kind, n) }

  ghost predicate OfKinds<T>(seen: seq<Key<T>>, kinds: set<string>) { forall k <- seen :: k.kind in kinds }

  predicate Injective<T(==)>(t: Table<T>) { forall j <- t, k <- t :: t[j] == t[k] ==> j == k }

  /** A number in use is not above the count of its kind. */
  ghost predicate Numbered<T>(t: Table<T>, kinds: set<string>) {
    forall kind: string, n: nat {:trigger LabelOf(kind, n)} :: LabelOf(kind, n) in t.Values && kind in kinds ==>
      n <= Count(t, kind)
  }

  ghost predicate Good<T(!new)>(t: Table<T>, kinds: set<string>) { Injective(t) && Numbered(t, kinds) }

  /** A new id raises the count of its kind by one, and no other. */
  lemma {:induction false} CountAfter<T(!new)>(t: Table<T>, k: Key<T>, kind: string)
    ensures Count(Observe(t, k), kind) == Count(t, kind) + if k !in t && kind == k.kind then 1 else 0
  {
    var t2 := Observe(t, k);
    var before, after := OfKind(t, kind), OfKind(t2, kind);
    if k in t { assert t2 == t; }
    else if kind == k.kind {
      assert forall j :: j in after <==> j in before || j == k;
      assert after == before + {k};
    } else {
      assert forall j :: j in after <==> j in before;
      assert after == before;
    }
  }

  /** The label of a new id is new. */
  lemma {:induction false} NextIsNew<T(!new)>(t: Table<T>, k: Key<T>, kinds: set<string>)
    requires Numbered(t, kinds) && k !in t && k.kind in kinds
    ensures NextLabel(t, k) !in t.Values
  {
    var n := Count(t, k.kind) + 1;
    assert NextLabel(t, k) == LabelOf(k.kind, n);
  }

  lemma {:induction false} StaysGood<T(!new)>(t: Table<T>, k: Key<T>, kinds: set<string>)
    requires Good(t, kinds) && k.kind in kinds
    ensures Good(Observe(t, k), kinds)
  {
    var t2 := Observe(t, k);
    if k in t { assert t2 == t; }
    else {
      NextIsNew(t, k, kinds);
      assert forall j <- t :: t[j] in t.Values;
      forall kind: string, n: nat {:trigger LabelOf(kind, n)} | LabelOf(kind, n) in t2.Values && kind in kinds
        ensures n <= Count(t2, kind)
      {
        CountAfter(t, k, kind);
        if LabelOf(kind, n) !in t.Values { LabelsDiffer(kind, n, k.kind, Count(t, k.kind) + 1); }
      }
    }
  }

  // ---- what the labels are -----------------------------------------------------------------------

  lemma {:induction false} ObservedKeys<T(!new)>(t: Table<T>, seen: seq<Key<T>>, k: Key<T>)
    ensures k in ObserveAll(t, seen) <==> k in t || k in seen
    ensures k in t ==> ObserveAll(t, seen)[k] == t[k]
    decreases |seen|
  {
    if seen != [] { ObservedKeys(Observe(t, seen[0]), seen[1..], k); }
  }

  lemma {:induction false} LabelAt<T(!new)>(t: Table<T>, seen: seq<Key<T>>, i: nat)
    requires i < |seen|
    ensures |Labels(t, seen)| == |seen|
    ensures var before := ObserveAll(t, seen[..i]);
            Labels(t, seen)[i] == NextLabel(before, seen[i]) &&
            ObserveAll(t, seen[..i + 1]) == Observe(before, seen[i])
    decreases |seen|
  {
    LabelsAreMany(t, seen);
    if i == 0 {
      assert seen[..0] == [] && seen[..1][1..] == [];
    } else {
      assert seen[..i][1..] == seen[1..][..i - 1] && seen[..i + 1][1..] == seen[1..][..i];
      LabelAt(Observe(t, seen[0]), seen[1..], i - 1);
    }
  }

  lemma {:induction false} LabelsAreMany<T(!new)>(t: Table<T>, seen: seq<Key<T>>)
    ensures |Labels(t, seen)| == |seen|
    decreases |seen|
  {
    if seen != [] { LabelsAreMany(Observe(t, seen[0]), seen[1..]); }
  }

  /** The new ids of a kind among these. */
  function NewOfKind<T(==)>(t: Table<T>, seen: seq<Key<T>>, kind: string): set<Key<T>> {
    set k <- seen | k.kind == kind && k !in t
  }

  lemma {:induction false} CountObserved<T(!new)>(t: Table<T>, seen: seq<Key<T>>, kind: string)
    ensures Count(ObserveAll(t, seen), kind) == |set k <- t | k.kind == kind| + |NewOfKind(t, seen, kind)|
  {
    var old1 := set k <- t | k.kind == kind;
    var new1 := NewOfKind(t, seen, kind);
    forall k ensures k in OfKind(ObserveAll(t, seen), kind) <==> k in old1 || k in new1 { ObservedKeys(t, seen, k); }
    assert OfKind(ObserveAll(t, seen), kind) == old1 + new1;
  }

  /** The place of an id's first occurrence. */
  predicate FirstAt<T(==)>(seen: seq<Key<T>>, j: nat, k: Key<T>) {
    j < |seen| && seen[j] == k && forall i :: 0 <= i < j ==> seen[i] != k
  }

  /** An id given beforehand keeps its label; any other is named after its kind, numbered on from the given ids of the
      kind by how many new ones of the kind came before its first occurrence. */
  lemma {:induction false} LabelsAreNumbered<T(!new)>(t: Table<T>, seen: seq<Key<T>>, i: nat, j: nat)
    requires i < |seen| && FirstAt(seen, j, seen[i])
    ensures var k := seen[i];
            |Labels(t, seen)| == |seen| && Labels(t, seen)[i] ==
              if k in t then t[k]
              else k.kind + "_" +
                   Show(|set g <- t | g.kind == k.kind| + |set n <- seen[..j] | n.kind == k.kind && n !in t| + 1)
  {
    var k := seen[i];
    LabelAt(t, seen, i);
    ObservedKeys(t, seen[..i], k);
    if k !in t {
      LabelAt(t, seen, j);
      ObservedKeys(t, seen[..j], k);
      forall x | 0 <= x < j ensures seen[..j][x] != k {}
      CountObserved(t, seen[..j], k.kind);
      assert NewOfKind(t, seen[..j], k.kind) == set n <- seen[..j] | n.kind == k.kind && n !in t;
      if j < i { FirstLabelStays(t, seen, j, i); }
    }
  }

  /** What an id was called it is called again. */
  lemma {:induction false} FirstLabelStays<T(!new)>(t: Table<T>, seen: seq<Key<T>>, j: nat, i: nat)
    requires j < i < |seen|
    ensures var k, before := seen[j], ObserveAll(t, seen[..i]);
            k in before && before[k] == NextLabel(ObserveAll(t, seen[..j]), k)
    decreases i
  {
    var k := seen[j];
    LabelAt(t, seen, i - 1);
    LabelAt(t, seen, j);
    if j < i - 1 { FirstLabelStays(t, seen, j, i - 1); }
  }

  // ---- the same use of ids ------------------------------------------------------------------------

  /** Position by position: the same given or earlier label, or both new, of kinds equally often seen before; and equal
      where equal. */
  predicate SameUse<T(==)>(t1: Table<T>, seen1: seq<Key<T>>, t2: Table<T>, seen2: seq<Key<T>>) {
    |seen1| == |seen2| &&
    (forall i :: 0 <= i < |seen1| ==> SameHead(t1, seen1[i], t2, seen2[i])) &&
    (forall i, j :: 0 <= i < |seen1| && 0 <= j < |seen1| ==> (seen1[i] == seen1[j] <==> seen2[i] == seen2[j]))
  }

  predicate SameHead<T(==)>(t1: Table<T>, k1: Key<T>, t2: Table<T>, k2: Key<T>) {
    if k1 in t1 then k2 in t2 && t1[k1] == t2[k2]
    else k2 !in t2 && k1.kind == k2.kind && Count(t1, k1.kind) == Count(t2, k1.kind)
  }

  /** Both tables hold the same labels of these kinds. */
  ghost predicate Together<T(!new)>(t1: Table<T>, t2: Table<T>, kinds: set<string>) {
    Good(t1, kinds) && Good(t2, kinds) &&
      forall s {:trigger s in t1.Values} {:trigger s in t2.Values} :: !Foreign(s, kinds) ==>
      (s in t1.Values <==> s in t2.Values)
  }

  /** One observation in each run gets one label exactly when it is the same use. */
  lemma {:induction false} HeadsAgree<T(!new)>(t1: Table<T>, k1: Key<T>, t2: Table<T>, k2: Key<T>, kinds: set<string>)
    requires Together(t1, t2, kinds) && k1.kind in kinds && k2.kind in kinds
    ensures NextLabel(t1, k1) == NextLabel(t2, k2) <==> SameHead(t1, k1, t2, k2)
  {
    if k1 in t1 && k2 !in t2 { HeadsDiffer(t1, k1, t2, k2, kinds); }
    if k1 !in t1 && k2 in t2 { HeadsDiffer(t2, k2, t1, k1, kinds); }
    if k1 !in t1 && k2 !in t2 && NextLabel(t1, k1) == NextLabel(t2, k2) {
      LabelsDiffer(k1.kind, Count(t1, k1.kind) + 1, k2.kind, Count(t2, k2.kind) + 1);
    }
  }

  lemma {:induction false} HeadsDiffer<T(!new)>(t1: Table<T>, k1: Key<T>, t2: Table<T>, k2: Key<T>, kinds: set<string>)
    requires Together(t1, t2, kinds) && k1 in t1 && k2 !in t2 && k2.kind in kinds
    ensures t1[k1] != NextLabel(t2, k2)
  {
    NextIsNew(t2, k2, kinds);
    assert NextLabel(t2, k2) == LabelOf(k2.kind, Count(t2, k2.kind) + 1);
    assert t1[k1] in t1.Values;
  }

  lemma {:induction false} StayTogether<T(!new)>(t1: Table<T>, k1: Key<T>, t2: Table<T>, k2: Key<T>, kinds: set<string>)
    requires Together(t1, t2, kinds) && k1.kind in kinds && k2.kind in kinds && SameHead(t1, k1, t2, k2)
    ensures Together(Observe(t1, k1), Observe(t2, k2), kinds)
  {
    StaysGood(t1, k1, kinds);
    StaysGood(t2, k2, kinds);
    HeadsAgree(t1, k1, t2, k2, kinds);
    ValuesAfter(t1, k1);
    ValuesAfter(t2, k2);
  }

  lemma {:induction false} ValuesAfter<T(!new)>(t: Table<T>, k: Key<T>)
    ensures forall s :: s in Observe(t, k).Values <==> s in t.Values || s == NextLabel(t, k)
  {
    var t2 := Observe(t, k);
    forall s | s in t.Values ensures s in t2.Values {
      var j :| j in t && t[j] == s;
      assert t2[j] == s;
    }
    assert t2[k] == NextLabel(t, k);
  }

  /** Later positions look the same before and after the first observations were made. */
  lemma {:induction false} HeadAfter<T(!new)>(t1: Table<T>, k1: Key<T>, t2: Table<T>, k2: Key<T>,
                                              j1: Key<T>, j2: Key<T>, kinds: set<string>)
    requires Together(t1, t2, kinds) && k1.kind in kinds && k2.kind in kinds && SameHead(t1, k1, t2, k2) &&
             j1.kind in kinds && j2.kind in kinds
    ensures SameHead(Observe(t1, k1), j1, Observe(t2, k2), j2) <==> SameHead(t1, j1, t2, j2) && (j1 == k1 <==> j2 == k2)
  {
    HeadsAgree(t1, k1, t2, k2, kinds);
    CountAfter(t1, k1, j1.kind);
    CountAfter(t2, k2, j1.kind);
    if k1 in t1 {
      assert Observe(t1, k1) == t1 && Observe(t2, k2) == t2;
    } else {
      NextIsNew(t1, k1, kinds);
      NextIsNew(t2, k2, kinds);
      assert j1 in t1 ==> t1[j1] in t1.Values;
      assert j2 in t2 ==> t2[j2] in t2.Values;
    }
  }

  /** Labels agree exactly on the same use of ids. */
  lemma {:induction false} LabelsAgree<T(!new)>(t1: Table<T>, seen1: seq<Key<T>>,
                                                t2: Table<T>, seen2: seq<Key<T>>, kinds: set<string>)
    requires Together(t1, t2, kinds) && OfKinds(seen1, kinds) && OfKinds(seen2, kinds)
    ensures Labels(t1, seen1) == Labels(t2, seen2) <==> SameUse(t1, seen1, t2, seen2)
    decreases |seen1|
  {
    if seen1 != [] && seen2 != [] {
      var k1, k2, rest1, rest2 := seen1[0], seen2[0], seen1[1..], seen2[1..];
      assert k1 in seen1 && k2 in seen2;
      assert OfKinds(rest1, kinds) && OfKinds(rest2, kinds) by {
        RestIsOfKinds(seen1, kinds);
        RestIsOfKinds(seen2, kinds);
      }
      HeadsAgree(t1, k1, t2, k2, kinds);
      assert Labels(t1, seen1)[0] == NextLabel(t1, k1) && Labels(t2, seen2)[0] == NextLabel(t2, k2);
      assert Labels(t1, seen1)[1..] == Labels(Observe(t1, k1), rest1) &&
             Labels(t2, seen2)[1..] == Labels(Observe(t2, k2), rest2);
      if SameHead(t1, k1, t2, k2) {
        StayTogether(t1, k1, t2, k2, kinds);
        LabelsAgree(Observe(t1, k1), rest1, Observe(t2, k2), rest2, kinds);
        UseSplits(t1, seen1, t2, seen2, kinds);
      }
    }
  }

  lemma {:induction false} RestIsOfKinds<T(!new)>(seen: seq<Key<T>>, kinds: set<string>)
    requires OfKinds(seen, kinds) && seen != []
    ensures OfKinds(seen[1..], kinds)
  {
  }

  lemma {:induction false} UseSplits<T(!new)>(t1: Table<T>, seen1: seq<Key<T>>,
                                              t2: Table<T>, seen2: seq<Key<T>>, kinds: set<string>)
    requires Together(t1, t2, kinds) && OfKinds(seen1, kinds) && OfKinds(seen2, kinds) && seen1 != [] && seen2 != []
    requires SameHead(t1, seen1[0], t2, seen2[0])
    ensures SameUse(t1, seen1, t2, seen2) <==>
            SameUse(Observe(t1, seen1[0]), seen1[1..], Observe(t2, seen2[0]), seen2[1..])
  {
    var k1, k2, rest1, rest2 := seen1[0], seen2[0], seen1[1..], seen2[1..];
    if |seen1| == |seen2| {
      forall i | 0 <= i < |rest1|
        ensures SameHead(Observe(t1, k1), rest1[i], Observe(t2, k2), rest2[i]) <==>
                SameHead(t1, seen1[i + 1], t2, seen2[i + 1]) && (seen1[i + 1] == k1 <==> seen2[i + 1] == k2)
      {
        assert seen1[i + 1] in seen1 && seen2[i + 1] in seen2 && k1 in seen1 && k2 in seen2;
        HeadAfter(t1, k1, t2, k2, seen1[i + 1], seen2[i + 1], kinds);
      }
      if SameUse(Observe(t1, k1), rest1, Observe(t2, k2), rest2) {
        forall i, j | 0 <= i < |seen1| && 0 <= j < |seen1| ensures seen1[i] == seen1[j] <==> seen2[i] == seen2[j] {
          if i > 0 { assert seen1[i] == rest1[i - 1] && seen2[i] == rest2[i - 1]; }
          if j > 0 { assert seen1[j] == rest1[j - 1] && seen2[j] == rest2[j - 1]; }
        }
        forall i | 0 <= i < |seen1| ensures SameHead(t1, seen1[i], t2, seen2[i]) {
          if i > 0 { assert SameHead(Observe(t1, k1), rest1[i - 1], Observe(t2, k2), rest2[i - 1]); }
        }
      }
    }
  }

  // ---- from the identities on -----------------------------------------------------------------------

  /** A table of given labels: no two the same, none like a numbered label of these kinds. */
  ghost predicate Identities<T(!new)>(t: Table<T>, kinds: set<string>) {
    Injective(t) && forall k <- t :: Foreign(t[k], kinds)
  }

  /** Two runs, each with its own given labels, get the same labels exactly when they use their ids in the same way. */
  lemma {:induction false} SameLabelsExactly<T(!new)>(given1: Table<T>, seen1: seq<Key<T>>,
                                                      given2: Table<T>, seen2: seq<Key<T>>, kinds: set<string>)
    requires Identities(given1, kinds) && Identities(given2, kinds) && OfKinds(seen1, kinds) && OfKinds(seen2, kinds)
    ensures Labels(given1, seen1) == Labels(given2, seen2) <==> SameUse(given1, seen1, given2, seen2)
  {
    GivenIsGood(given1, kinds);
    GivenIsGood(given2, kinds);
    LabelsAgree(given1, seen1, given2, seen2, kinds);
  }

  lemma {:induction false} GivenIsGood<T(!new)>(t: Table<T>, kinds: set<string>)
    requires Identities(t, kinds)
    ensures Good(t, kinds) && forall s :: s in t.Values ==> Foreign(s, kinds)
  {
  }

  // ---- renamings ----------------------------------------------------------------------------------------

  /** A one-to-one renaming of ids within each kind. */
  predicate Renaming<T(==)>(f: map<Key<T>, Key<T>>) {
    (forall k <- f :: f[k].kind == k.kind) && forall j <- f, k <- f :: f[j] == f[k] ==> j == k
  }

  predicate Carries<T(==)>(f: map<Key<T>, Key<T>>, seen1: seq<Key<T>>, seen2: seq<Key<T>>) {
    |seen1| == |seen2| && forall i :: 0 <= i < |seen1| ==> seen1[i] in f && f[seen1[i]] == seen2[i]
  }

  /** Without given identities: the same labels exactly when a one-to-one renaming carries one run to the other. */
  lemma {:induction false} SameLabelsUpToRenaming<T(!new)>(seen1: seq<Key<T>>, seen2: seq<Key<T>>)
    ensures Labels(map[], seen1) == Labels(map[], seen2) <==> exists f :: Renaming(f) && Carries(f, seen1, seen2)
  {
    var none: Table<T> := map[];
    SameLabelsExactly(none, seen1, none, seen2, (set k <- seen1 :: k.kind) + (set k <- seen2 :: k.kind));
    if SameUse(none, seen1, none, seen2) {
      var f := RenamingOf(seen1, seen2, |seen1|);
      RenamingCarries(seen1, seen2);
      assert Renaming(f) && Carries(f, seen1, seen2);
    }
    if f :| Renaming(f) && Carries(f, seen1, seen2) {
      assert SameUse(none, seen1, none, seen2);
    }
  }

  function RenamingOf<T(==)>(seen1: seq<Key<T>>, seen2: seq<Key<T>>, n: nat): map<Key<T>, Key<T>>
    requires n <= |seen1| && n <= |seen2|
  {
    if n == 0 then map[] else RenamingOf(seen1, seen2, n - 1)[seen1[n - 1] := seen2[n - 1]]
  }

  lemma {:induction false} RenamingIs<T(!new)>(seen1: seq<Key<T>>, seen2: seq<Key<T>>, n: nat)
    requires SameUse(map[], seen1, map[], seen2) && n <= |seen1|
    ensures var f := RenamingOf(seen1, seen2, n);
            (forall i :: 0 <= i < n ==> seen1[i] in f && f[seen1[i]] == seen2[i]) &&
            forall k <- f :: exists i :: 0 <= i < n && seen1[i] == k
    decreases n
  {
    if n > 0 { RenamingIs(seen1, seen2, n - 1); }
  }

  lemma {:induction false} RenamingCarries<T(!new)>(seen1: seq<Key<T>>, seen2: seq<Key<T>>)
    requires SameUse(map[], seen1, map[], seen2)
    ensures var f := RenamingOf(seen1, seen2, |seen1|); Renaming(f) && Carries(f, seen1, seen2)
  {
    var f := RenamingOf(seen1, seen2, |seen1|);
    RenamingIs(seen1, seen2, |seen1|);
    forall k | k in f ensures f[k].kind == k.kind {
      var i :| 0 <= i < |seen1| && seen1[i] == k;
      assert SameHead(map[], seen1[i], map[], seen2[i]);
    }
    forall j, k | j in f && k in f && f[j] == f[k] ensures j == k {
      var a :| 0 <= a < |seen1| && seen1[a] == j;
      var b :| 0 <= b < |seen1| && seen1[b] == k;
    }
  }
}
