/**
 The append-only ledgers of one campaign (controlplane/store.py) and their folded view.
 A record is a set of fields, one of which may be the id its ledger is folded by.
 */
module ControlStore {
  import opened Options
  import opened Decimal

  datatype Rec<V> = Rec(id: Option<string>, fields: map<string, V>)

  /** One current object of the folded view. */
  datatype Obj<V> = Obj(id: string, fields: map<string, V>)

  function Find<V>(objs: seq<Obj<V>>, id: string): (r: Option<nat>)
    ensures r.Some? ==> r.value < |objs| && objs[r.value].id == id
    ensures r.None? ==> forall i :: 0 <= i < |objs| ==> objs[i].id != id
    decreases |objs|
  {
    if objs == [] then None
    else if objs[|objs| - 1].id == id then Some(|objs| - 1)
    else Find(objs[..|objs| - 1], id)
  }

  function Merge<V>(objs: seq<Obj<V>>, rec: Rec<V>): seq<Obj<V>> {
    match rec.id
    case None => objs
    case Some(id) =>
      match Find(objs, id)
      case None => objs + [Obj(id, rec.fields)]
      case Some(i) => objs[i := Obj(id, objs[i].fields + rec.fields)]
  }

  function Folded<V>(recs: seq<Rec<V>>): seq<Obj<V>> {
    if recs == [] then [] else Merge(Folded(recs[..|recs| - 1]), recs[|recs| - 1])
  }

  // ---- what folding means -------------------------------------------------------------

  predicate Writes<V>(rec: Rec<V>, id: string, f: string) { rec.id == Some(id) && f in rec.fields }

  /** The value the last record of `id` that has field `f` gave it. */
  function Latest<V>(recs: seq<Rec<V>>, id: string, f: string): Option<V> {
    if recs == [] then None
    else if Writes(recs[|recs| - 1], id, f) then Some(recs[|recs| - 1].fields[f])
    else Latest(recs[..|recs| - 1], id, f)
  }

  predicate Mentions<V>(recs: seq<Rec<V>>, id: string) { exists k :: 0 <= k < |recs| && recs[k].id == Some(id) }

  predicate DistinctIds<V>(objs: seq<Obj<V>>) { forall i, j :: 0 <= i < j < |objs| ==> objs[i].id != objs[j].id }

  predicate HasId<V>(objs: seq<Obj<V>>, id: string) { exists i :: 0 <= i < |objs| && objs[i].id == id }

  lemma {:induction false} OneMoreMentioned<V>(recs: seq<Rec<V>>, id: string)
    requires recs != []
    ensures Mentions(recs, id) <==> Mentions(recs[..|recs| - 1], id) || recs[|recs| - 1].id == Some(id)
  {
    var n := |recs| - 1;
    var before := recs[..n];
    if k :| 0 <= k < n && before[k].id == Some(id) { assert recs[k].id == Some(id); }
    if k :| 0 <= k < |recs| && recs[k].id == Some(id) { assert k < n ==> before[k].id == Some(id); }
  }

  lemma {:induction false} MergeIds<V>(a: seq<Obj<V>>, rec: Rec<V>, id: string)
    ensures HasId(Merge(a, rec), id) <==> HasId(a, id) || rec.id == Some(id)
  {
    var b := Merge(a, rec);
    if i :| 0 <= i < |a| && a[i].id == id { assert b[i].id == id; }
    if rec.id == Some(id) && Find(a, id).None? { assert b[|a|].id == id; }
  }

  /** The value of field `f` in an object with this id. */
  function FieldOf<V>(objs: seq<Obj<V>>, id: string, f: string): Option<V> {
    match Find(objs, id)
    case None => None
    case Some(i) => if f in objs[i].fields then Some(objs[i].fields[f]) else None
  }

  lemma {:induction false} FindIs<V>(objs: seq<Obj<V>>, i: nat)
    requires DistinctIds(objs) && i < |objs|
    ensures Find(objs, objs[i].id) == Some(i)
  {
  }

  lemma {:induction false} MergeDistinct<V>(a: seq<Obj<V>>, rec: Rec<V>)
    requires DistinctIds(a)
    ensures DistinctIds(Merge(a, rec))
  {
  }

  lemma {:induction false} FindAfterMerge<V>(a: seq<Obj<V>>, rec: Rec<V>, id: string)
    requires DistinctIds(a)
    ensures Find(Merge(a, rec), id) == if rec.id == Some(id) && Find(a, id).None? then Some(|a|) else Find(a, id)
  {
    var b := Merge(a, rec);
    MergeDistinct(a, rec);
    match Find(a, id)
    case Some(i) => FindIs(b, i);
    case None => if rec.id == Some(id) { FindIs(b, |a|); }
  }

  lemma {:induction false} MergeField<V>(a: seq<Obj<V>>, rec: Rec<V>, id: string, f: string)
    requires DistinctIds(a)
    ensures FieldOf(Merge(a, rec), id, f) == if Writes(rec, id, f) then Some(rec.fields[f]) else FieldOf(a, id, f)
  {
    FindAfterMerge(a, rec, id);
  }

  /** Last writer wins, field by field. */
  lemma {:induction false} FoldedFields<V>(recs: seq<Rec<V>>, id: string, f: string)
    ensures DistinctIds(Folded(recs)) && FieldOf(Folded(recs), id, f) == Latest(recs, id, f)
    decreases |recs|
  {
    if recs != [] {
      var n := |recs| - 1;
      FoldedFields(recs[..n], id, f);
      MergeDistinct(Folded(recs[..n]), recs[n]);
      MergeField(Folded(recs[..n]), recs[n], id, f);
    }
  }

  lemma {:induction false} FoldedIds<V>(recs: seq<Rec<V>>, id: string)
    ensures HasId(Folded(recs), id) <==> Mentions(recs, id)
    decreases |recs|
  {
    if recs != [] {
      var n := |recs| - 1;
      FoldedIds(recs[..n], id);
      OneMoreMentioned(recs, id);
      MergeIds(Folded(recs[..n]), recs[n], id);
    }
  }

  /** Last writer wins, field by field; an id has one object, and has it exactly when some record names it. */
  lemma {:induction false} LastWriterWins<V>(recs: seq<Rec<V>>)
    ensures DistinctIds(Folded(recs))
    ensures forall id :: HasId(Folded(recs), id) <==> Mentions(recs, id)
    ensures forall i, f :: 0 <= i < |Folded(recs)| ==>
              Latest(recs, Folded(recs)[i].id, f) ==
              if f in Folded(recs)[i].fields then Some(Folded(recs)[i].fields[f]) else None
    ensures forall id, f :: !Mentions(recs, id) ==> Latest(recs, id, f) == None
  {
    var objs := Folded(recs);
    FoldedFields(recs, "", "");
    forall id ensures HasId(objs, id) <==> Mentions(recs, id) { FoldedIds(recs, id); }
    forall i, f | 0 <= i < |objs|
      ensures Latest(recs, objs[i].id, f) == if f in objs[i].fields then Some(objs[i].fields[f]) else None
    {
      FoldedFields(recs, objs[i].id, f);
      FindIs(objs, i);
    }
    forall id, f | !Mentions(recs, id) ensures Latest(recs, id, f) == None {
      FoldedFields(recs, id, f);
      FoldedIds(recs, id);
    }
  }

  /** Folding keeps first-seen order: appending a record never moves or renames an object. */
  lemma {:induction false} FoldKeepsOrder<V>(recs: seq<Rec<V>>, rec: Rec<V>)
    ensures var a, b := Folded(recs), Folded(recs + [rec]);
            |a| <= |b| <= |a| + 1 && forall i :: 0 <= i < |a| ==> b[i].id == a[i].id
  {
    assert (recs + [rec])[..|recs|] == recs;
  }

  // ---- ids ------------------------------------------------------------------------------

  /** The ids of a ledger; an empty one is no id here. */
  function Ids<V>(recs: seq<Rec<V>>): set<string> {
    set k | 0 <= k < |recs| && recs[k].id.Some? && recs[k].id.value != "" :: recs[k].id.value
  }

  function FormatId(prefix: string, n: nat): string { prefix + "-" + Pad3(n) }

  /** An id is its prefix, a dash and the number in decimal, with zeros in front up to three digits. */
  lemma {:induction false} IdIs(prefix: string, n: nat) returns (digits: string)
    ensures FormatId(prefix, n) == prefix + "-" + digits && AllDigits(digits) && Number(digits) == n
    ensures |digits| >= 3 && (|digits| > 3 ==> digits[0] != '0')
  {
    digits := Pad3(n);
    ReadPadded(n);
    ReadShown(n);
  }

  lemma {:induction false} FormatIdInjective(prefix: string, m: nat, n: nat)
    requires FormatId(prefix, m) == FormatId(prefix, n)
    ensures m == n
  {
    var k := |prefix| + 1;
    assert FormatId(prefix, m)[k..] == Pad3(m) && FormatId(prefix, n)[k..] == Pad3(n);
    Pad3Injective(m, n);
  }

  function NextId<V>(recs: seq<Rec<V>>, prefix: string): string { FormatId(prefix, |Ids(recs)| + 1) }

  /** How a ledger is written: base records under the next id, updates of ids already handed out. */
  datatype Write<V> = Put(fields: map<string, V>) | Update(row: nat, fields: map<string, V>)

  function Apply<V>(recs: seq<Rec<V>>, prefix: string, w: Write<V>): seq<Rec<V>> {
    match w
    case Put(fields) => recs + [Rec(Some(NextId(recs, prefix)), fields)]
    case Update(row, fields) => recs + [Rec(Some(FormatId(prefix, row + 1)), fields)]
  }

  function ApplyAll<V>(prefix: string, ws: seq<Write<V>>): seq<Rec<V>> {
    if ws == [] then [] else Apply(ApplyAll(prefix, ws[..|ws| - 1]), prefix, ws[|ws| - 1])
  }

  /** The table the writes describe: `Put` adds a row at the end, `Update` overlays one row. */
  function Table<V>(ws: seq<Write<V>>): seq<map<string, V>> {
    if ws == [] then []
    else
      var t := Table(ws[..|ws| - 1]);
      match ws[|ws| - 1]
      case Put(fields) => t + [fields]
      case Update(row, fields) => if row < |t| then t[row := t[row] + fields] else t
  }

  predicate UpdatesExisting<V>(ws: seq<Write<V>>) {
    forall k :: 0 <= k < |ws| && ws[k].Update? ==> ws[k].row < |Table(ws[..k])|
  }

  /** Object `i` has the (i+1)-st id and the fields of row `i`. */
  predicate Rows<V(==)>(objs: seq<Obj<V>>, prefix: string, t: seq<map<string, V>>) {
    |objs| == |t| && forall i :: 0 <= i < |t| ==> objs[i] == Obj(FormatId(prefix, i + 1), t[i])
  }

  /** The folded view is the table. */
  predicate Tabulates<V(==)>(recs: seq<Rec<V>>, prefix: string, t: seq<map<string, V>>) {
    Rows(Folded(recs), prefix, t)
  }

  /** The id is that of row `row` of the table that the ledger is. */
  predicate IsRow<V(==)>(recs: seq<Rec<V>>, id: string, prefix: string, t: seq<map<string, V>>, row: nat) {
    Tabulates(recs, prefix, t) && row < |t| && id == FormatId(prefix, row + 1)
  }

  lemma {:induction false} AddRow<V>(objs: seq<Obj<V>>, prefix: string, t: seq<map<string, V>>, fields: map<string, V>)
    requires Rows(objs, prefix, t)
    ensures Rows(objs + [Obj(FormatId(prefix, |t| + 1), fields)], prefix, t + [fields])
  {
  }

  lemma {:induction false} IdsAreFolded<V>(recs: seq<Rec<V>>)
    ensures forall id :: id in Ids(recs) <==> id != "" && HasId(Folded(recs), id)
  {
    LastWriterWins(recs);
    forall id ensures id in Ids(recs) <==> id != "" && Mentions(recs, id) {
      if k :| 0 <= k < |recs| && recs[k].id == Some(id) && id != "" { assert recs[k].id.value in Ids(recs); }
    }
  }

  lemma {:induction false} CountDistinct<V>(objs: seq<Obj<V>>, ids: set<string>)
    requires DistinctIds(objs) && forall id :: id in ids <==> HasId(objs, id)
    ensures |ids| == |objs|
    decreases |objs|
  {
    if objs == [] {
      assert forall id :: !HasId(objs, id);
      assert ids == {};
    } else {
      var n := |objs| - 1;
      var last := objs[n].id;
      assert HasId(objs, last);
      forall id ensures id in ids - {last} <==> HasId(objs[..n], id) {
        if i :| 0 <= i < n && objs[..n][i].id == id { assert objs[i].id == id; }
        if id in ids && id != last {
          var i :| 0 <= i < |objs| && objs[i].id == id;
          assert objs[..n][i].id == id;
        }
      }
      CountDistinct(objs[..n], ids - {last});
    }
  }

  lemma {:induction false} RowsHaveIds<V>(objs: seq<Obj<V>>, prefix: string, t: seq<map<string, V>>)
    requires Rows(objs, prefix, t)
    ensures !HasId(objs, "")
  {
    forall i | 0 <= i < |objs| ensures objs[i].id != "" { assert objs[i].id == FormatId(prefix, i + 1); }
  }

  /** A ledger whose ids all come from `next_id` hands out a fresh one, and it is the next in line. */
  lemma {:induction false} NextIdIsFresh<V>(recs: seq<Rec<V>>, prefix: string, t: seq<map<string, V>>)
    requires Tabulates(recs, prefix, t)
    ensures NextId(recs, prefix) == FormatId(prefix, |t| + 1)
    ensures NextId(recs, prefix) !in Ids(recs)
  {
    LastWriterWins(recs);
    IdsAreFolded(recs);
    RowsHaveIds(Folded(recs), prefix, t);
    CountDistinct(Folded(recs), Ids(recs));
    if NextId(recs, prefix) in Ids(recs) {
      var i :| 0 <= i < |Folded(recs)| && Folded(recs)[i].id == NextId(recs, prefix);
      FormatIdInjective(prefix, i + 1, |t| + 1);
    }
  }

  lemma {:induction false} NewIdAddsObject<V>(recs: seq<Rec<V>>, id: string, fields: map<string, V>)
    requires !HasId(Folded(recs), id)
    ensures Folded(recs + [Rec(Some(id), fields)]) == Folded(recs) + [Obj(id, fields)]
  {
    assert (recs + [Rec(Some(id), fields)])[..|recs|] == recs;
  }

  lemma {:induction false} PutTabulates<V>(recs: seq<Rec<V>>, prefix: string, t: seq<map<string, V>>,
                                           fields: map<string, V>)
    requires Tabulates(recs, prefix, t)
    ensures Tabulates(Apply(recs, prefix, Put(fields)), prefix, t + [fields])
  {
    NextIdIsFresh(recs, prefix, t);
    IdsAreFolded(recs);
    NewIdAddsObject(recs, NextId(recs, prefix), fields);
    AddRow(Folded(recs), prefix, t, fields);
  }

  lemma {:induction false} OldIdUpdatesObject<V>(recs: seq<Rec<V>>, row: nat, fields: map<string, V>)
    requires row < |Folded(recs)| &&
             forall i :: 0 <= i < |Folded(recs)| && Folded(recs)[i].id == Folded(recs)[row].id ==> i == row
    ensures var o := Folded(recs)[row];
            Folded(recs + [Rec(Some(o.id), fields)]) == Folded(recs)[row := Obj(o.id, o.fields + fields)]
  {
    var o := Folded(recs)[row];
    assert (recs + [Rec(Some(o.id), fields)])[..|recs|] == recs;
    assert Find(Folded(recs), o.id) == Some(row);
  }

  lemma {:induction false} SetRow<V>(objs: seq<Obj<V>>, prefix: string, t: seq<map<string, V>>, row: nat,
                                     fields: map<string, V>)
    requires Rows(objs, prefix, t) && row < |t|
    ensures Rows(objs[row := Obj(FormatId(prefix, row + 1), t[row] + fields)], prefix, t[row := t[row] + fields])
  {
  }

  lemma {:induction false} RowIdsDiffer<V>(objs: seq<Obj<V>>, prefix: string, t: seq<map<string, V>>, i: nat, row: nat)
    requires Rows(objs, prefix, t) && i < |t| && row < |t| && objs[i].id == objs[row].id
    ensures i == row
  {
    FormatIdInjective(prefix, i + 1, row + 1);
  }

  lemma {:induction false} UpdateTabulates<V>(recs: seq<Rec<V>>, prefix: string, t: seq<map<string, V>>, row: nat,
                                              fields: map<string, V>)
    requires Tabulates(recs, prefix, t) && row < |t|
    ensures Tabulates(Apply(recs, prefix, Update(row, fields)), prefix, t[row := t[row] + fields])
  {
    var objs := Folded(recs);
    forall i | 0 <= i < |objs| && objs[i].id == objs[row].id ensures i == row { RowIdsDiffer(objs, prefix, t, i, row); }
    assert objs[row] == Obj(FormatId(prefix, row + 1), t[row]);
    OldIdUpdatesObject(recs, row, fields);
    SetRow(objs, prefix, t, row, fields);
  }

  /** Every ledger written through `next_id`, `put` and `update` is a table: the k-th `put` gets the k-th id,
      which is fresh, and becomes row k; an update changes its own row and nothing else. */
  lemma {:induction false} LedgerIsTable<V>(prefix: string, ws: seq<Write<V>>)
    requires UpdatesExisting(ws)
    ensures Tabulates(ApplyAll(prefix, ws), prefix, Table(ws))
    ensures NextId(ApplyAll(prefix, ws), prefix) !in Ids(ApplyAll(prefix, ws))
    decreases |ws|
  {
    if ws != [] {
      var n := |ws| - 1;
      assert forall k :: 0 <= k < n ==> ws[..n][..k] == ws[..k];
      LedgerIsTable(prefix, ws[..n]);
      match ws[n] {
        case Put(fields) => PutTabulates(ApplyAll(prefix, ws[..n]), prefix, Table(ws[..n]), fields);
        case Update(row, fields) => UpdateTabulates(ApplyAll(prefix, ws[..n]), prefix, Table(ws[..n]), row, fields);
      }
    }
    NextIdIsFresh(ApplyAll(prefix, ws), prefix, Table(ws));
  }

  // ---- when `next_id` is fresh for good -------------------------------------------------------

  /** Records put one after the other, each under the next id. */
  function PutAll<V>(recs: seq<Rec<V>>, prefix: string, puts: seq<map<string, V>>): seq<Rec<V>>
    decreases |puts|
  {
    if puts == [] then recs else PutAll(Apply(recs, prefix, Put(puts[0])), prefix, puts[1..])
  }

  /** However many records are put, the next id is fresh. */
  ghost predicate FreshForGood<V(!new)>(recs: seq<Rec<V>>, prefix: string) {
    forall puts :: NextId(PutAll(recs, prefix, puts), prefix) !in Ids(PutAll(recs, prefix, puts))
  }

  /** No recorded id carries a number above the count of ids. */
  ghost predicate NoneAhead<V>(recs: seq<Rec<V>>, prefix: string) {
    forall m: nat {:trigger FormatId(prefix, m)} :: m > |Ids(recs)| ==> FormatId(prefix, m) !in Ids(recs)
  }

  lemma {:induction false} PutAddsId<V>(recs: seq<Rec<V>>, prefix: string, fields: map<string, V>)
    ensures Ids(Apply(recs, prefix, Put(fields))) == Ids(recs) + {NextId(recs, prefix)}
  {
    var id := NextId(recs, prefix);
    var more := Apply(recs, prefix, Put(fields));
    assert more[|recs|].id == Some(id) && id != "";
    forall x ensures x in Ids(more) <==> x in Ids(recs) || x == id {
      if k :| 0 <= k < |recs| && recs[k].id == Some(x) { assert more[k].id == Some(x); }
    }
  }

  lemma {:induction false} NoneAheadStays<V>(recs: seq<Rec<V>>, prefix: string, puts: seq<map<string, V>>)
    requires NoneAhead(recs, prefix)
    ensures NextId(PutAll(recs, prefix, puts), prefix) !in Ids(PutAll(recs, prefix, puts))
    decreases |puts|
  {
    if puts != [] {
      var more := Apply(recs, prefix, Put(puts[0]));
      var n := |Ids(recs)| + 1;
      PutAddsId(recs, prefix, puts[0]);
      assert FormatId(prefix, n) !in Ids(recs) && |Ids(more)| == n;
      forall m: nat {:trigger FormatId(prefix, m)} | m > n ensures FormatId(prefix, m) !in Ids(more) {
        if FormatId(prefix, m) == FormatId(prefix, n) { FormatIdInjective(prefix, m, n); }
      }
      NoneAheadStays(more, prefix, puts[1..]);
    }
  }

  /** An id ahead of the count is reached after finitely many puts, if none collided before. */
  lemma {:induction false} AheadIsReached<V>(recs: seq<Rec<V>>, prefix: string, m: nat, fields: map<string, V>)
    returns (puts: seq<map<string, V>>)
    requires m > |Ids(recs)| && FormatId(prefix, m) in Ids(recs)
    ensures NextId(PutAll(recs, prefix, puts), prefix) in Ids(PutAll(recs, prefix, puts))
    ensures |puts| <= m - |Ids(recs)| - 1
    decreases m - |Ids(recs)|
  {
    if NextId(recs, prefix) in Ids(recs) { puts := []; }
    else {
      var more := Apply(recs, prefix, Put(fields));
      PutAddsId(recs, prefix, fields);
      assert |Ids(more)| == |Ids(recs)| + 1;
      var later := AheadIsReached(more, prefix, m, fields);
      puts := [fields] + later;
      assert puts[1..] == later;
    }
  }

  /** `next_id` hands out fresh ids for good exactly when no recorded id is ahead of the count. */
  lemma {:induction false} FreshForGoodExactly<V(!new)>(recs: seq<Rec<V>>, prefix: string)
    ensures FreshForGood(recs, prefix) <==> NoneAhead(recs, prefix)
  {
    if NoneAhead(recs, prefix) {
      forall puts ensures NextId(PutAll(recs, prefix, puts), prefix) !in Ids(PutAll(recs, prefix, puts)) {
        NoneAheadStays(recs, prefix, puts);
      }
    }
    if m: nat :| m > |Ids(recs)| && FormatId(prefix, m) in Ids(recs) {
      var puts := AheadIsReached(recs, prefix, m, map[]);
    }
  }

  /** Ledgers written through `next_id` alone are of that kind. */
  lemma {:induction false} TablesAreFresh<V(!new)>(recs: seq<Rec<V>>, prefix: string, t: seq<map<string, V>>)
    requires Tabulates(recs, prefix, t)
    ensures FreshForGood(recs, prefix)
  {
    LastWriterWins(recs);
    IdsAreFolded(recs);
    RowsHaveIds(Folded(recs), prefix, t);
    CountDistinct(Folded(recs), Ids(recs));
    forall m: nat {:trigger FormatId(prefix, m)} | m > |Ids(recs)| ensures FormatId(prefix, m) !in Ids(recs) {
      if HasId(Folded(recs), FormatId(prefix, m)) {
        var i :| 0 <= i < |t| && Folded(recs)[i].id == FormatId(prefix, m);
        FormatIdInjective(prefix, i + 1, m);
      }
    }
    FreshForGoodExactly(recs, prefix);
  }

  /** One record under the number `m` of two or more is ahead: its id is handed out again. */
  lemma {:induction false} ForeignIdCollides<V(!new)>(prefix: string, m: nat, fields: map<string, V>)
    requires m >= 2
    ensures !FreshForGood([Rec(Some(FormatId(prefix, m)), fields)], prefix)
  {
    var recs := [Rec(Some(FormatId(prefix, m)), fields)];
    assert recs[0].id.value in Ids(recs);
    assert Ids(recs) == {FormatId(prefix, m)};
    assert |Ids(recs)| == 1;
    FreshForGoodExactly(recs, prefix);
  }

  // ---- the store ---------------------------------------------------------------------------

  /** `merged` and `order` hold the objects `objs`. */
  ghost predicate Lists<V>(objs: seq<Obj<V>>, merged: map<string, map<string, V>>, order: seq<string>) {
    |objs| == |order| &&
    (forall id :: id in merged <==> HasId(objs, id)) &&
    (forall i :: 0 <= i < |order| ==>
      objs[i].id == order[i] && order[i] in merged && objs[i].fields == merged[order[i]])
  }

  lemma {:induction false} MergeLists<V>(objs: seq<Obj<V>>, merged: map<string, map<string, V>>, order: seq<string>,
                                         id: string, fields: map<string, V>)
    requires Lists(objs, merged, order) && DistinctIds(objs)
    ensures var first := if id in merged then merged[id] else map[];
            Lists(Merge(objs, Rec(Some(id), fields)), merged[id := first + fields],
                  if id in merged then order else order + [id])
  {
    var r := Merge(objs, Rec(Some(id), fields));
    var first := if id in merged then merged[id] else map[];
    var m := merged[id := first + fields];
    assert map[] + fields == fields;
    forall x ensures x in m <==> HasId(r, x) { MergeIds(objs, Rec(Some(id), fields), x); }
  }

  class Store<V(==)> {
    var ledgers: map<string, seq<Rec<V>>>

    function Ledger(kind: string): seq<Rec<V>>
      reads this
    {
      if kind in ledgers then ledgers[kind] else []
    }

    constructor ()
      ensures forall kind :: Ledger(kind) == []
    {
      ledgers := map[];
    }

    method Append(kind: string, rec: Rec<V>)
      modifies this
      ensures Ledger(kind) == old(Ledger(kind)) + [rec]
      ensures forall other :: other != kind ==> Ledger(other) == old(Ledger(other))
    {
      ledgers := ledgers[kind := Ledger(kind) + [rec]];
    }

    /** The loop over one ledger: merged objects by id, and the order in which ids were first seen. */
    method Fold(kind: string) returns (objs: seq<Obj<V>>)
      ensures objs == Folded(Ledger(kind))
    {
      var recs := Ledger(kind);
      var merged: map<string, map<string, V>> := map[];
      var order: seq<string> := [];
      for k := 0 to |recs|
        invariant Lists(Folded(recs[..k]), merged, order)
      {
        LastWriterWins(recs[..k]);
        assert recs[..k + 1][..k] == recs[..k];
        ghost var before := Folded(recs[..k]);
        match recs[k].id {
          case None =>
          case Some(id) =>
            MergeLists(before, merged, order, id, recs[k].fields);
            if id !in merged {
              merged := merged[id := map[]];
              order := order + [id];
            }
            merged := merged[id := merged[id] + recs[k].fields];
        }
      }
      assert recs[..|recs|] == recs;
      objs := seq(|order|, i requires 0 <= i < |order| && order[i] in merged => Obj(order[i], merged[order[i]]));
    }

    /** The current object of an id, found by scanning the folded view. */
    method Get(kind: string, id: string) returns (r: Option<Obj<V>>)
      ensures r.None? <==> !Mentions(Ledger(kind), id)
      ensures r.Some? ==> r.value.id == id
      ensures r.Some? ==>
              forall f :: Latest(Ledger(kind), id, f) == (if f in r.value.fields then Some(r.value.fields[f]) else None)
    {
      var objs := Fold(kind);
      LastWriterWins(Ledger(kind));
      for i := 0 to |objs|
        invariant forall j :: 0 <= j < i ==> objs[j].id != id
      {
        if objs[i].id == id { return Some(objs[i]); }
      }
      assert !HasId(objs, id);
      return None;
    }

    /** The number after the count of ids; new to the ledger whenever no recorded id is ahead of that count. */
    method FreshId(kind: string, prefix: string) returns (id: string)
      ensures id == NextId(Ledger(kind), prefix)
      ensures NoneAhead(Ledger(kind), prefix) ==> id !in Ids(Ledger(kind))
      ensures forall t :: Tabulates(Ledger(kind), prefix, t) ==>
              id == FormatId(prefix, |t| + 1) && id !in Ids(Ledger(kind))
    {
      forall t | Tabulates(Ledger(kind), prefix, t)
        ensures NextId(Ledger(kind), prefix) == FormatId(prefix, |t| + 1) &&
                NextId(Ledger(kind), prefix) !in Ids(Ledger(kind))
      {
        NextIdIsFresh(Ledger(kind), prefix, t);
      }
      var recs := Ledger(kind);
      id := FormatId(prefix, |Ids(recs)| + 1);
    }

    /** `put` under the next id: what every new task, thesis, cell, worker, candidate and verification does. */
    method PutNew(kind: string, prefix: string, fields: map<string, V>) returns (id: string)
      modifies this
      ensures Ledger(kind) == Apply(old(Ledger(kind)), prefix, Put(fields)) && id == NextId(old(Ledger(kind)), prefix)
      ensures forall other :: other != kind ==> Ledger(other) == old(Ledger(other))
    {
      id := FreshId(kind, prefix);
      Append(kind, Rec(Some(id), fields));
    }

    /** In a table, the fields overlay those of the id's row, and every other row stays. */
    method UpdateRow(kind: string, id: string, fields: map<string, V>)
      modifies this
      ensures Ledger(kind) == old(Ledger(kind)) + [Rec(Some(id), fields)]
      ensures forall other :: other != kind ==> Ledger(other) == old(Ledger(other))
      ensures forall prefix: string, t: seq<map<string, V>>, row: nat ::
                IsRow(old(Ledger(kind)), id, prefix, t, row) ==>
                  Tabulates(Ledger(kind), prefix, t[row := t[row] + fields])
    {
      ghost var recs := Ledger(kind);
      Append(kind, Rec(Some(id), fields));
      forall prefix: string, t: seq<map<string, V>>, row: nat | IsRow(recs, id, prefix, t, row)
        ensures Tabulates(recs + [Rec(Some(id), fields)], prefix, t[row := t[row] + fields])
      {
        UpdateTabulates(recs, prefix, t, row, fields);
      }
    }
  }
}
