/**
 Flow mappings on one line, `{key: scalar, key: scalar}`: every way to write one is read back as its entries in order,
 and of a key given twice the last value stands, at the place of the first.
 */
module MiniYamlFlow {
  import opened Options
  import opened Decimal
  import opened MiniYaml
  import opened MiniYamlInline

  predicate ValidKey(key: string) { key != "" && forall k :: 0 <= k < |key| ==> KeyChar(key[k]) }

  predicate HasKey(es: seq<Entry>, key: string) { es != [] && (es[0].key == key || HasKey(es[1..], key)) }

  /** What stands between two commas: nothing, or a pair with white space before, within and after. */
  datatype Cell = Blank(width: nat) | Pair(before: nat, key: string, gap: nat, text: string, value: Value, after: nat)

  function CellText(c: Cell): string {
    match c
    case Blank(width) => Spaces(width)
    case Pair(before, key, gap, text, _, after) => Spaces(before) + (key + ":" + (Spaces(gap) + text)) + Spaces(after)
  }

  function CellTexts(cells: seq<Cell>): seq<string> {
    if cells == [] then [] else [CellText(cells[0])] + CellTexts(cells[1..])
  }

  function FlowOf(cells: seq<Cell>): string { "{" + Joined(CellTexts(cells), ',') + "}" }

  function CellKey(c: Cell): seq<string> { if c.Pair? then [c.key] else [] }

  function CellKeys(cells: seq<Cell>): seq<string> {
    if cells == [] then [] else CellKey(cells[0]) + CellKeys(cells[1..])
  }

  function CellEntry(c: Cell): seq<Entry> { if c.Pair? then [Entry(c.key, c.value)] else [] }

  /** The entries that are written. */
  function CellEntries(cells: seq<Cell>): seq<Entry> {
    if cells == [] then [] else CellEntry(cells[0]) + CellEntries(cells[1..])
  }

  /** No key twice; every value a scalar without a comma, or nothing. */
  ghost predicate ValidCells(cells: seq<Cell>) { NoKeyTwice(cells) && forall c <- cells :: ValidCell(c) }

  predicate NoKeyTwice(cells: seq<Cell>) {
    cells == [] ||
    (NoKeyTwice(cells[1..]) && (cells[0].Pair? ==> cells[0].key !in CellKeys(cells[1..])))
  }

  ghost predicate ValidCell(c: Cell) {
    c.Pair? ==> ValidKey(c.key) && ',' !in c.text && ((c.text == "" && c.value == Null) || ScalarText(c.text, c.value))
  }

  // ---- white space ---------------------------------------------------------------------------------

  lemma {:induction false} LStripSpaces(n: nat, s: string)
    requires s == "" || !Space(s[0])
    ensures LStrip(Spaces(n) + s) == s
    decreases n
  {
    if n == 0 { assert Spaces(n) + s == s; }
    else {
      assert (Spaces(n) + s)[1..] == Spaces(n - 1) + s;
      LStripSpaces(n - 1, s);
    }
  }

  lemma {:induction false} SpacesAre(n: nat)
    ensures Spaces(n) == seq(n, _ => ' ')
    decreases n
  {
    if n > 0 { SpacesAre(n - 1); }
  }

  lemma {:induction false} RStripSpaces(s: string, n: nat)
    requires s == "" || !Space(s[|s| - 1])
    ensures RStrip(s + Spaces(n)) == s
    decreases n
  {
    SpacesAre(n);
    if n == 0 { assert s + Spaces(n) == s; }
    else {
      SpacesAre(n - 1);
      assert (s + Spaces(n))[..|s| + n - 1] == s + Spaces(n - 1);
      RStripSpaces(s, n - 1);
    }
  }

  lemma {:induction false} StripSpaces(before: nat, s: string, after: nat)
    requires s == "" || Trimmed(s)
    ensures Strip(Spaces(before) + s + Spaces(after)) == s
  {
    if s == "" {
      SpacesAre(before);
      SpacesAre(after);
      SpacesAre(before + after);
      assert Spaces(before) + s + Spaces(after) == Spaces(before + after) + "";
      LStripSpaces(before + after, "");
    } else {
      assert Spaces(before) + s + Spaces(after) == Spaces(before) + (s + Spaces(after));
      LStripSpaces(before, s + Spaces(after));
      RStripSpaces(s, after);
    }
  }

  // ---- keys ------------------------------------------------------------------------------------------

  lemma {:induction false} KeyLengthIs(key: string, tail: string)
    requires forall k :: 0 <= k < |key| ==> KeyChar(key[k])
    ensures KeyLength(key + ":" + tail) == |key|
    decreases |key|
  {
    var s := key + ":" + tail;
    if key == "" { assert s[0] == ':'; }
    else {
      assert s[1..] == key[1..] + ":" + tail;
      KeyLengthIs(key[1..], tail);
    }
  }

  lemma {:induction false} KeyBack(key: string, tail: string)
    requires ValidKey(key)
    ensures var s := key + ":" + tail;
            KeyValue(s) == Some((key, LStrip(tail))) && !IsDash(s) && !Space(s[0]) && s[0] != '#'
  {
    var s := key + ":" + tail;
    KeyLengthIs(key, tail);
    assert s[..|key|] == key && s[|key|] == ':' && s[|key| + 1..] == tail;
    assert s[1] == if |key| > 1 then key[1] else ':';
    assert KeyChar(s[0]);
  }

  // ---- cells are split and read -----------------------------------------------------------------------

  lemma {:induction false} SplitAppend(s: string, sep: char, rest: string)
    requires sep !in s
    ensures Split(s + [sep] + rest, sep) == [s] + Split(rest, sep)
    decreases |s|
  {
    var text := s + [sep] + rest;
    if s == "" { assert text[1..] == rest; }
    else {
      assert text[1..] == s[1..] + [sep] + rest;
      SplitAppend(s[1..], sep, rest);
      var parts := Split(rest, sep);
      assert ([s[1..]] + parts)[1..] == parts && [s[0]] + s[1..] == s;
    }
  }

  lemma {:induction false} SplitNone(s: string, sep: char)
    requires sep !in s
    ensures Split(s, sep) == [s]
    decreases |s|
  {
    if s != "" {
      SplitNone(s[1..], sep);
      assert [s[0]] + s[1..] == s;
    }
  }

  predicate NoneHas(parts: seq<string>, sep: char) { parts == [] || (sep !in parts[0] && NoneHas(parts[1..], sep)) }

  lemma {:induction false} SplitJoined(parts: seq<string>, sep: char)
    requires parts != [] && NoneHas(parts, sep)
    ensures Split(Joined(parts, sep), sep) == parts
    decreases |parts|
  {
    if |parts| == 1 { SplitNone(parts[0], sep); }
    else {
      SplitAppend(parts[0], sep, Joined(parts[1..], sep));
      SplitJoined(parts[1..], sep);
    }
  }

  lemma {:induction false} CellHasNoComma(c: Cell)
    requires ValidCell(c)
    ensures ',' !in CellText(c)
  {
    match c
    case Blank(width) => SpacesAre(width);
    case Pair(before, key, gap, text, _, after) =>
      SpacesAre(before);
      SpacesAre(gap);
      SpacesAre(after);
      forall k | 0 <= k < |key| ensures key[k] != ',' { assert KeyChar(key[k]); }
  }

  lemma {:induction false} CellsHaveNoComma(cells: seq<Cell>)
    requires ValidCells(cells)
    ensures NoneHas(CellTexts(cells), ',')
    decreases |cells|
  {
    if cells != [] {
      assert cells[0] in cells;
      CellHasNoComma(cells[0]);
      CellsHaveNoComma(cells[1..]);
    }
  }

  lemma {:induction false} BlankBack(c: Cell)
    requires c.Blank?
    ensures Strip(CellText(c)) == ""
  {
    StripSpaces(c.width, "", 0);
    assert Spaces(c.width) + "" + Spaces(0) == Spaces(c.width);
  }

  lemma {:induction false} PairBack(c: Cell)
    requires c.Pair? && ValidCell(c)
    ensures var part := Strip(CellText(c));
            part != "" && KeyValue(part).Some? && KeyValue(part).value.0 == c.key &&
            ReadScalar(KeyValue(part).value.1) == c.value
  {
    var body := c.key + ":" + (Spaces(c.gap) + c.text);
    assert KeyChar(c.key[0]) && body[0] == c.key[0];
    if c.text == "" {
      var bare := c.key + ":" + "";
      SpacesAre(c.gap);
      SpacesAre(c.after);
      SpacesAre(c.gap + c.after);
      assert CellText(c) == Spaces(c.before) + bare + Spaces(c.gap + c.after);
      StripSpaces(c.before, bare, c.gap + c.after);
      KeyBack(c.key, "");
    } else {
      assert body[|body| - 1] == c.text[|c.text| - 1];
      StripSpaces(c.before, body, c.after);
      KeyBack(c.key, Spaces(c.gap) + c.text);
      LStripSpaces(c.gap, c.text);
      ScalarExactly(c.text, c.value);
    }
  }

  lemma {:induction false} AssignNew(acc: seq<Entry>, key: string, v: Value)
    requires !HasKey(acc, key)
    ensures Assign(acc, key, v) == acc + [Entry(key, v)]
    decreases |acc|
  {
    if acc != [] { AssignNew(acc[1..], key, v); }
  }

  /** The keys still to come are none of those already read. */
  predicate KeysFresh(acc: seq<Entry>, keys: seq<string>) {
    keys == [] || (!HasKey(acc, keys[0]) && KeysFresh(acc, keys[1..]))
  }

  lemma {:induction false} HasKeyAppend(acc: seq<Entry>, e: Entry, key: string)
    ensures HasKey(acc + [e], key) <==> HasKey(acc, key) || e.key == key
    decreases |acc|
  {
    if acc != [] {
      assert (acc + [e])[1..] == acc[1..] + [e];
      HasKeyAppend(acc[1..], e, key);
    }
  }

  lemma {:induction false} KeysStayFresh(acc: seq<Entry>, e: Entry, keys: seq<string>)
    requires KeysFresh(acc, keys) && e.key !in keys
    ensures KeysFresh(acc + [e], keys)
    decreases |keys|
  {
    if keys != [] {
      HasKeyAppend(acc, e, keys[0]);
      KeysStayFresh(acc, e, keys[1..]);
    }
  }

  lemma {:induction false} NothingReadYet(keys: seq<string>)
    ensures KeysFresh([], keys)
    decreases |keys|
  {
    if keys != [] { NothingReadYet(keys[1..]); }
  }

  /** One part is read. */
  lemma {:induction false} OneCellBack(c: Cell, texts: seq<string>, acc: seq<Entry>)
    requires ValidCell(c) && texts != [] && texts[0] == CellText(c) && (c.Pair? ==> !HasKey(acc, c.key))
    ensures ReadFlowParts(texts, acc) == ReadFlowParts(texts[1..], acc + CellEntry(c))
  {
    if c.Blank? {
      BlankBack(c);
      assert acc + [] == acc;
    } else {
      PairBack(c);
      AssignNew(acc, c.key, c.value);
    }
  }

  lemma {:induction false} FreshAfter(c: Cell, rest: seq<string>, acc: seq<Entry>)
    requires KeysFresh(acc, CellKey(c) + rest) && (c.Pair? ==> c.key !in rest)
    ensures KeysFresh(acc + CellEntry(c), rest) && (c.Pair? ==> !HasKey(acc, c.key))
  {
    if c.Blank? { assert [] + rest == rest && acc + [] == acc; }
    else {
      assert (CellKey(c) + rest)[1..] == rest;
      KeysStayFresh(acc, CellEntry(c)[0], rest);
    }
  }

  lemma {:induction false} ValidCellsSplit(cells: seq<Cell>)
    requires ValidCells(cells) && cells != []
    ensures ValidCell(cells[0]) && ValidCells(cells[1..]) && (cells[0].Pair? ==> cells[0].key !in CellKeys(cells[1..]))
  {
    assert cells[0] in cells;
  }

  lemma {:induction false} Regroup<T>(a: seq<T>, b: seq<T>, c: seq<T>)
    ensures a + (b + c) == (a + b) + c
  {
  }

  /** The first cell, and what the others leave to be read. */
  lemma {:induction false} CellsSplit(cells: seq<Cell>, texts: seq<string>, acc: seq<Entry>, all: seq<Entry>)
    returns (next: seq<Entry>)
    requires ValidCells(cells) && cells != [] && texts == CellTexts(cells)
    requires KeysFresh(acc, CellKeys(cells)) && all == acc + CellEntries(cells)
    ensures texts[1..] == CellTexts(cells[1..]) && texts != []
    ensures KeysFresh(next, CellKeys(cells[1..])) && all == next + CellEntries(cells[1..])
    ensures ReadFlowParts(texts, acc) == ReadFlowParts(texts[1..], next)
  {
    var c := cells[0];
    next := acc + CellEntry(c);
    ValidCellsSplit(cells);
    FreshAfter(c, CellKeys(cells[1..]), acc);
    Regroup(acc, CellEntry(c), CellEntries(cells[1..]));
    OneCellBack(c, texts, acc);
  }

  lemma {:induction false} CellsBack(cells: seq<Cell>, texts: seq<string>, acc: seq<Entry>, all: seq<Entry>)
    requires ValidCells(cells) && texts == CellTexts(cells)
    requires KeysFresh(acc, CellKeys(cells)) && all == acc + CellEntries(cells)
    ensures ReadFlowParts(texts, acc) == Some(Dict(all))
    decreases |cells|
  {
    if cells == [] { assert acc + [] == acc; }
    else {
      var next := CellsSplit(cells, texts, acc, all);
      ValidCellsSplit(cells);
      CellsBack(cells[1..], texts[1..], next, all);
    }
  }

  /** A flow mapping is read as its entries, every one of them and in order. */
  lemma {:induction false} FlowBack(cells: seq<Cell>)
    requires ValidCells(cells)
    ensures ReadFlow(FlowOf(cells)) == Some(Dict(CellEntries(cells)))
  {
    var s, texts := FlowOf(cells), CellTexts(cells);
    StripKeeps(s);
    assert s[1..|s| - 1] == Joined(texts, ',');
    NothingReadYet(CellKeys(cells));
    assert [] + CellEntries(cells) == CellEntries(cells);
    CellsBack(cells, texts, [], CellEntries(cells));
    if cells == [] {
      assert Split("", ',') == [""] && ReadFlowParts([""], []) == ReadFlowParts([""][1..], []);
    } else {
      CellsHaveNoComma(cells);
      SplitJoined(texts, ',');
    }
  }

  // ---- what else is read, and what is refused -----------------------------------------------------------

  function Lookup(es: seq<Entry>, key: string): Option<Value> {
    if es == [] then None else if es[0].key == key then Some(es[0].value) else Lookup(es[1..], key)
  }

  /** Assignment changes the value of its key and no other; known keys keep their places. */
  lemma {:induction false} AssignIs(es: seq<Entry>, key: string, v: Value, other: string)
    ensures var r := Assign(es, key, v);
            Lookup(r, other) == (if other == key then Some(v) else Lookup(es, other)) &&
            |r| == |es| + (if HasKey(es, key) then 0 else 1) &&
            (forall k :: 0 <= k < |es| ==> r[k].key == es[k].key) && (!HasKey(es, key) ==> r == es + [Entry(key, v)])
    decreases |es|
  {
    if es != [] { AssignIs(es[1..], key, v, other); }
  }

  /** Part `k` gives the key its value, and no later part does. */
  predicate GivenLast(parts: seq<string>, k: nat, key: string) {
    k < |parts| && Gives(parts[k], key) && forall j :: k < j < |parts| ==> !Gives(parts[j], key)
  }

  predicate Gives(part: string, key: string) { KeyValue(Strip(part)).Some? && KeyValue(Strip(part)).value.0 == key }

  /** Neither blank nor `key: rest`. */
  predicate Malformed(part: string) { Strip(part) != "" && KeyValue(Strip(part)).None? }

  /** What one part does to the entries read so far. */
  lemma {:induction false} OnePart(parts: seq<string>, acc: seq<Entry>) returns (next: seq<Entry>)
    requires parts != [] && !Malformed(parts[0])
    ensures ReadFlowParts(parts, acc) == ReadFlowParts(parts[1..], next)
    ensures forall key :: Gives(parts[0], key) ==>
              Lookup(next, key) == Some(ReadScalar(KeyValue(Strip(parts[0])).value.1))
    ensures forall key :: !Gives(parts[0], key) ==> Lookup(next, key) == Lookup(acc, key)
  {
    var part := Strip(parts[0]);
    if part == "" { next := acc; }
    else {
      var (name, rest) := KeyValue(part).value;
      next := Assign(acc, name, ReadScalar(rest));
      forall key ensures Lookup(next, key) == if key == name then Some(ReadScalar(rest)) else Lookup(acc, key) {
        AssignIs(acc, name, ReadScalar(rest), key);
      }
    }
  }

  /** A flow mapping is refused exactly when a part is malformed. */
  lemma {:induction false} FlowRefusesExactly(parts: seq<string>, acc: seq<Entry>)
    ensures var r := ReadFlowParts(parts, acc);
            (r.None? <==> exists k :: 0 <= k < |parts| && Malformed(parts[k])) && (r.Some? ==> r.value.Dict?)
    decreases |parts|
  {
    if parts != [] && !Malformed(parts[0]) {
      var next := OnePart(parts, acc);
      FlowRefusesExactly(parts[1..], next);
      assert forall k :: 0 <= k < |parts[1..]| ==> parts[1..][k] == parts[k + 1];
      if k :| 0 <= k < |parts| && Malformed(parts[k]) { assert Malformed(parts[1..][k - 1]); }
    }
  }

  /** A key that no part gives stays as it was; */
  lemma {:induction false} FlowSparesOthers(parts: seq<string>, acc: seq<Entry>, key: string)
    requires ReadFlowParts(parts, acc).Some? && forall k :: 0 <= k < |parts| ==> !Gives(parts[k], key)
    ensures ReadFlowParts(parts, acc).value.Dict?
    ensures Lookup(ReadFlowParts(parts, acc).value.entries, key) == Lookup(acc, key)
    decreases |parts|
  {
    if parts != [] {
      var next := OnePart(parts, acc);
      FlowSparesOthers(parts[1..], next, key);
    }
  }

  /** and one given has the value it was given last. */
  lemma {:induction false} LastValueStands(parts: seq<string>, acc: seq<Entry>, key: string, k: nat)
    requires ReadFlowParts(parts, acc).Some? && GivenLast(parts, k, key)
    ensures ReadFlowParts(parts, acc).value.Dict?
    ensures Lookup(ReadFlowParts(parts, acc).value.entries, key) == Some(ReadScalar(KeyValue(Strip(parts[k])).value.1))
    decreases |parts|
  {
    var next := OnePart(parts, acc);
    assert forall j :: 0 <= j < |parts[1..]| ==> parts[1..][j] == parts[j + 1];
    if k == 0 { FlowSparesOthers(parts[1..], next, key); }
    else { LastValueStands(parts[1..], next, key, k - 1); }
  }
}
