/**
 From text to the reader's lines, and the round trip of a whole document as text: it survives exactly when no string
 in it holds a tab or a line break and no list item starts with a null and goes on.
 */
module MiniYamlText {
  import opened Options
  import opened Decimal
  import opened MiniYaml
  import opened MiniYamlInline
  import opened MiniYamlFlow
  import opened MiniYamlRoundTrip

  function LeadingSpaces(s: string): (n: nat)
    ensures n <= |s|
  {
    if s != [] && s[0] == ' ' then 1 + LeadingSpaces(s[1..]) else 0
  }

  function LineOf(raw: string): Line { Line(LeadingSpaces(RStrip(raw)), Strip(RStrip(raw))) }

  /** Blank lines and comments are dropped; a tab anywhere else is an error. */
  function Significant(raws: seq<string>): Option<seq<Line>> {
    if raws == [] then Some([])
    else
      var s := Strip(raws[0]);
      if s == "" || s[0] == '#' then Significant(raws[1..])
      else if '\t' in raws[0] then None
      else
        match Significant(raws[1..])
        case None => None
        case Some(rest) => Some([LineOf(raws[0])] + rest)
  }

  function LoadText(text: string): Option<Value> {
    match Significant(Split(text, '\n'))
    case None => None
    case Some(lines) => Load(lines)
  }

  method StripLines(text: string) returns (found: Option<seq<Line>>)
    ensures found == Significant(Split(text, '\n'))
  {
    var raws := Split(text, '\n');
    var lines: seq<Line> := [];
    assert raws[0..] == raws && forall more: seq<Line> :: lines + more == more;
    for k := 0 to |raws|
      invariant var rest := Significant(raws[k..]);
                Significant(raws) == if rest.Some? then Some(lines + rest.value) else None
    {
      assert raws[k..][0] == raws[k] && raws[k..][1..] == raws[k + 1..];
      assert forall more: seq<Line> :: lines + ([LineOf(raws[k])] + more) == (lines + [LineOf(raws[k])]) + more;
      var stripped := Strip(raws[k]);
      if stripped == "" || stripped[0] == '#' { continue; }
      if '\t' in raws[k] { return None; }
      lines := lines + [LineOf(raws[k])];
    }
    assert raws[|raws|..] == [] && lines + [] == lines;
    found := Some(lines);
  }

  method LoadDocument(text: string) returns (v: Option<Value>)
    ensures v == LoadText(text)
  {
    var lines := StripLines(text);
    if lines.None? { return None; }
    v := LoadLines(lines.value);
  }

  // ---- the printed text ---------------------------------------------------------------------

  function LineText(line: Line): string { Spaces(line.indent) + line.text }

  /** Between the lines stand other lines, and behind each some spaces. */
  datatype Layout = Layout(between: nat -> seq<string>, trail: nat -> nat)

  /** A comment, or a line of white space. */
  predicate Ignored(raw: string) {
    exists n :: 0 <= n <= |raw| && (forall k :: 0 <= k < n ==> Space(raw[k])) && (n == |raw| || raw[n] == '#')
  }

  /** What stands between the lines is ignored. */
  ghost predicate ValidLayout(layout: Layout) {
    forall k, raw {:trigger raw in layout.between(k)} :: raw in layout.between(k) ==> Ignored(raw) && '\n' !in raw
  }

  /** The lines from the `k`-th on, as they are laid out. */
  function LaidOut(lines: seq<Line>, layout: Layout, k: nat): seq<string>
    decreases |lines|
  {
    layout.between(k) +
    if lines == [] then []
    else [LineText(lines[0]) + Spaces(layout.trail(k))] + LaidOut(lines[1..], layout, k + 1)
  }

  function Print(fields: seq<Field>, layout: Layout): string {
    Joined(LaidOut(RenderFields(fields, 0), layout, 0), '\n')
  }

  // ---- strings without tabs and line breaks ----------------------------------------------------

  predicate CleanText(s: string) { '\t' !in s && '\n' !in s }

  predicate Clean(v: Value)
    decreases v, 1
  {
    match v
    case Str(s) => CleanText(s)
    case Dict(es) => CleanEntries(es)
    case List(items) => CleanItems(items)
    case _ => true
  }

  predicate CleanEntries(es: seq<Entry>)
    decreases es, 0
  {
    es == [] || (Clean(es[0].value) && CleanEntries(es[1..]))
  }

  predicate CleanItems(items: seq<Value>)
    decreases items, 0
  {
    items == [] || (Clean(items[0]) && CleanItems(items[1..]))
  }

  // ---- lines are kept or ignored ---------------------------------------------------------------

  /** A line the reader keeps as it is. */
  predicate Plain(line: Line) {
    var t := line.text;
    CleanText(t) && t != "" && t[0] != '#' && !Space(t[0]) && !Space(t[|t| - 1])
  }

  predicate AllPlain(lines: seq<Line>) { lines == [] || (Plain(lines[0]) && AllPlain(lines[1..])) }

  lemma {:induction false} AllPlainAppend(a: seq<Line>, b: seq<Line>)
    requires AllPlain(a) && AllPlain(b)
    ensures AllPlain(a + b)
    decreases |a|
  {
    if a == [] { assert a + b == b; }
    else {
      assert (a + b)[1..] == a[1..] + b;
      AllPlainAppend(a[1..], b);
    }
  }

  lemma {:induction false} LeadingSpacesAre(n: nat, t: string)
    requires t != "" && !Space(t[0])
    ensures LeadingSpaces(Spaces(n) + t) == n
    decreases n
  {
    if n == 0 { assert Spaces(n) + t == t; }
    else {
      assert (Spaces(n) + t)[1..] == Spaces(n - 1) + t;
      LeadingSpacesAre(n - 1, t);
    }
  }

  lemma {:induction false} PlainLineBack(line: Line, trail: nat)
    requires Plain(line)
    ensures var raw := LineText(line) + Spaces(trail);
            LineOf(raw) == line && Strip(raw) == line.text && '\t' !in raw && '\n' !in raw
  {
    var t, text := line.text, LineText(line);
    StripSpaces(line.indent, t, trail);
    RStripSpaces(text, trail);
    StripSpaces(line.indent, t, 0);
    assert Spaces(line.indent) + t + Spaces(0) == text;
    LeadingSpacesAre(line.indent, t);
    SpacesAre(line.indent);
    SpacesAre(trail);
  }

  lemma {:induction false} LStripTo(raw: string, n: nat)
    requires n <= |raw| && (forall k :: 0 <= k < n ==> Space(raw[k])) && (n < |raw| ==> !Space(raw[n]))
    ensures LStrip(raw) == raw[n..]
    decreases n
  {
    if n > 0 {
      assert forall k :: 0 <= k < n - 1 ==> raw[1..][k] == raw[k + 1];
      LStripTo(raw[1..], n - 1);
      assert raw[1..][n - 1..] == raw[n..];
    }
  }

  /** How many characters of white space a line starts with. */
  lemma {:induction false} StripStarts(raw: string) returns (n: nat)
    ensures n <= |raw| && (forall k :: 0 <= k < n ==> Space(raw[k])) && (n < |raw| ==> !Space(raw[n]))
    ensures LStrip(raw) == raw[n..]
    decreases |raw|
  {
    if raw == "" || !Space(raw[0]) { n := 0; }
    else {
      var m := StripStarts(raw[1..]);
      n := m + 1;
      assert forall k :: 0 < k < n ==> raw[k] == raw[1..][k - 1];
    }
    LStripTo(raw, n);
  }

  lemma {:induction false} RStripKeepsHead(s: string)
    requires s != "" && !Space(s[0])
    ensures RStrip(s) != "" && RStrip(s)[0] == s[0]
    decreases |s|
  {
    if |s| > 1 { RStripKeepsHead(s[..|s| - 1]); }
  }

  /** The reader ignores exactly the blank lines and the comments. */
  lemma {:induction false} IgnoredExactly(raw: string)
    ensures Ignored(raw) <==> Strip(raw) == "" || Strip(raw)[0] == '#'
  {
    var n := StripStarts(raw);
    if n < |raw| {
      RStripKeepsHead(raw[n..]);
      if m :| 0 <= m <= |raw| && (forall k :: 0 <= k < m ==> Space(raw[k])) && (m == |raw| || raw[m] == '#') {
        assert n <= m || Space(raw[m]);
      }
    }
  }

  lemma {:induction false} IgnoredInFront(ignored: seq<string>, raws: seq<string>)
    requires forall raw <- ignored :: Ignored(raw)
    ensures Significant(ignored + raws) == Significant(raws)
    decreases |ignored|
  {
    if ignored == [] { assert ignored + raws == raws; }
    else {
      assert ignored[0] in ignored && (ignored + raws)[1..] == ignored[1..] + raws;
      IgnoredExactly(ignored[0]);
      IgnoredInFront(ignored[1..], raws);
    }
  }

  /** A text is refused for its lines exactly when one that is not ignored holds a tab. */
  lemma {:induction false} TabsAreRefusedExactly(raws: seq<string>)
    ensures Significant(raws).None? <==> exists k :: 0 <= k < |raws| && !Ignored(raws[k]) && '\t' in raws[k]
    decreases |raws|
  {
    if raws != [] {
      IgnoredExactly(raws[0]);
      TabsAreRefusedExactly(raws[1..]);
      assert forall k :: 0 <= k < |raws[1..]| ==> raws[1..][k] == raws[k + 1];
      if k :| 0 <= k < |raws| && !Ignored(raws[k]) && '\t' in raws[k] && k > 0 { assert raws[1..][k - 1] == raws[k]; }
    }
  }

  lemma {:induction false} NoneHasAppend(a: seq<string>, b: seq<string>, c: char)
    requires (forall s <- a :: c !in s) && NoneHas(b, c)
    ensures NoneHas(a + b, c)
    decreases |a|
  {
    if a == [] { assert a + b == b; }
    else {
      assert a[0] in a && (a + b)[1..] == a[1..] + b;
      NoneHasAppend(a[1..], b, c);
    }
  }

  lemma {:induction false} LaidOutIsFound(lines: seq<Line>, layout: Layout, k: nat)
    requires AllPlain(lines) && ValidLayout(layout)
    ensures var raws := LaidOut(lines, layout, k); Significant(raws) == Some(lines) && NoneHas(raws, '\n')
    decreases |lines|
  {
    if lines == [] {
      IgnoredInFront(layout.between(k), []);
      NoneHasAppend(layout.between(k), [], '\n');
    } else {
      var raw, rest := LineText(lines[0]) + Spaces(layout.trail(k)), LaidOut(lines[1..], layout, k + 1);
      PlainLineBack(lines[0], layout.trail(k));
      LaidOutIsFound(lines[1..], layout, k + 1);
      assert ([raw] + rest)[1..] == rest && ([raw] + rest)[0] == raw;
      assert Significant([raw] + rest) == Some([LineOf(raw)] + lines[1..]);
      assert [lines[0]] + lines[1..] == lines;
      IgnoredInFront(layout.between(k), [raw] + rest);
      NoneHasAppend(layout.between(k), [raw] + rest, '\n');
    }
  }

  /** Laid out as a text, plain lines are found again. */
  lemma {:induction false} PlainLinesBack(lines: seq<Line>, layout: Layout)
    requires AllPlain(lines) && ValidLayout(layout)
    ensures Significant(Split(Joined(LaidOut(lines, layout, 0), '\n'), '\n')) == Some(lines)
  {
    var raws := LaidOut(lines, layout, 0);
    LaidOutIsFound(lines, layout, 0);
    if raws == [] {
      assert Split("", '\n') == [""] && Significant([""]) == Significant([""][1..]);
    } else {
      SplitJoined(raws, '\n');
    }
  }

  // ---- what is printed is plain ------------------------------------------------------------------

  lemma {:induction false} GroupsAreClean(s: string, n: nat)
    requires Unsigned(s, n)
    ensures CleanText(s)
  {
    UnsignedExactly(s);
  }

  lemma {:induction false} NumeralIsClean(s: string, i: int)
    requires Numeral(s, i)
    ensures CleanText(s)
  {
    if i >= 0 && Unsigned(s, i) { GroupsAreClean(s, i); }
    else {
      GroupsAreClean(s[1..], if s[0] == '+' then i else -i);
      assert s == [s[0]] + s[1..];
    }
  }

  lemma {:induction false} ScalarIsClean(s: string, v: Value)
    requires ScalarText(s, v) && Clean(v)
    ensures CleanText(s)
  {
    if v.Int? { NumeralIsClean(s, v.i); }
  }

  lemma {:induction false} CellIsClean(c: Cell)
    requires ValidCell(c) && CleanEntries(CellEntry(c))
    ensures CleanText(CellText(c))
  {
    match c
    case Blank(width) => SpacesAre(width);
    case Pair(before, key, gap, text, value, after) =>
      SpacesAre(before);
      SpacesAre(gap);
      SpacesAre(after);
      KeyIsClean(key);
      if text != "" { ScalarIsClean(text, value); }
  }

  lemma {:induction false} KeyIsClean(key: string)
    requires ValidKey(key)
    ensures CleanText(key) && key[0] != '#' && !Space(key[0])
  {
    forall k | 0 <= k < |key| ensures key[k] != '\t' && key[k] != '\n' { assert KeyChar(key[k]); }
    assert KeyChar(key[0]);
  }

  lemma {:induction false} CleanEntriesAppend(a: seq<Entry>, b: seq<Entry>)
    requires CleanEntries(a + b)
    ensures CleanEntries(a) && CleanEntries(b)
    decreases |a|
  {
    if a == [] { assert a + b == b; }
    else {
      assert (a + b)[1..] == a[1..] + b;
      CleanEntriesAppend(a[1..], b);
    }
  }

  lemma {:induction false} CellsAreClean(cells: seq<Cell>)
    requires ValidCells(cells) && CleanEntries(CellEntries(cells))
    ensures CleanText(Joined(CellTexts(cells), ','))
    decreases |cells|
  {
    if cells != [] {
      ValidCellsSplit(cells);
      CleanEntriesAppend(CellEntry(cells[0]), CellEntries(cells[1..]));
      CellIsClean(cells[0]);
      CellsAreClean(cells[1..]);
      if |cells| == 1 { assert CellTexts(cells)[1..] == []; }
      else { assert CellTexts(cells)[1..] == CellTexts(cells[1..]); }
    }
  }

  lemma {:induction false} InlineIsClean(text: string, value: Value)
    requires InlineText(text, value) && Clean(value)
    ensures CleanText(text) && Trimmed(text)
  {
    if ScalarText(text, value) { ScalarIsClean(text, value); }
    else {
      var cells :| ValidCells(cells) && text == FlowOf(cells) && value == Dict(CellEntries(cells));
      CellsAreClean(cells);
    }
  }

  lemma {:induction false} TailIsClean(n: Node)
    requires n.Inline? ==> CleanText(n.text) && Trimmed(n.text)
    ensures var s := Tail(n); CleanText(s) && (s != "" ==> !Space(s[|s| - 1]))
  {
    if n.Inline? { SpacesAre(n.gap); }
  }

  lemma {:induction false} FieldTextIsPlain(f: Field)
    requires ValidKey(f.key) && ValidNode(f.node) && Clean(Meaning(f.node))
    ensures var t := FieldText(f); Plain(Line(0, t)) && Plain(Line(0, "- " + t))
  {
    var t, tail := FieldText(f), Tail(f.node);
    if f.node.Inline? { InlineIsClean(f.node.text, f.node.value); }
    TailIsClean(f.node);
    KeyIsClean(f.key);
    assert t[0] == f.key[0] && t[|t| - 1] == if tail == "" then ':' else tail[|tail| - 1];
  }

  lemma {:induction false} NestedIsPlain(n: Node, above: nat)
    requires Clean(Meaning(n)) && ValidNode(n)
    ensures AllPlain(Nested(n, above))
    decreases n, 1
  {
    match n
    case Block(step, fields) => FieldsArePlain(fields, above + 1 + step);
    case Items(step, nodes) => ItemsArePlain(nodes, above + 1 + step);
    case _ =>
  }

  lemma {:induction false} FieldsArePlain(fields: seq<Field>, indent: nat)
    requires ValidFields(fields) && CleanEntries(MeaningFields(fields))
    ensures AllPlain(RenderFields(fields, indent))
    decreases fields, 0
  {
    if fields != [] {
      var first, nested := [Line(indent, FieldText(fields[0]))], Nested(fields[0].node, indent);
      assert MeaningFields(fields)[1..] == MeaningFields(fields[1..]);
      FieldTextIsPlain(fields[0]);
      NestedIsPlain(fields[0].node, indent);
      FieldsArePlain(fields[1..], indent);
      AllPlainAppend(first, nested);
      AllPlainAppend(first + nested, RenderFields(fields[1..], indent));
    }
  }

  lemma {:induction false} ItemIsPlain(n: Node, indent: nat)
    requires ValidItem(n) && Clean(Meaning(n))
    ensures AllPlain(RenderItem(n, indent))
    decreases n, 1
  {
    if n.Block? {
      var fields := n.fields;
      var first, nested := [Line(indent, "- " + FieldText(fields[0]))], Nested(fields[0].node, indent + 2);
      assert MeaningFields(fields)[1..] == MeaningFields(fields[1..]);
      FieldTextIsPlain(fields[0]);
      NestedIsPlain(fields[0].node, indent + 2);
      FieldsArePlain(fields[1..], indent + 2);
      AllPlainAppend(first, nested);
      AllPlainAppend(first + nested, RenderFields(fields[1..], indent + 2));
    } else {
      ScalarIsClean(n.text, n.value);
      TailIsClean(n);
    }
  }

  lemma {:induction false} ItemsArePlain(nodes: seq<Node>, indent: nat)
    requires ValidItems(nodes) && CleanItems(MeaningItems(nodes))
    ensures AllPlain(RenderItems(nodes, indent))
    decreases nodes, 0
  {
    if nodes != [] {
      assert MeaningItems(nodes)[1..] == MeaningItems(nodes[1..]);
      ItemIsPlain(nodes[0], indent);
      ItemsArePlain(nodes[1..], indent);
      AllPlainAppend(RenderItem(nodes[0], indent), RenderItems(nodes[1..], indent));
    }
  }

  // ---- nothing read holds a tab or a line break ---------------------------------------------------

  predicate CleanLines(lines: seq<Line>) { forall k :: 0 <= k < |lines| ==> CleanText(lines[k].text) }

  lemma {:induction false} StripIsPart(s: string)
    requires CleanText(s)
    ensures CleanText(LStrip(s)) && CleanText(RStrip(s))
    decreases |s|
  {
    if s != [] {
      StripIsPart(s[1..]);
      StripIsPart(s[..|s| - 1]);
    }
  }

  lemma {:induction false} StripIsClean(s: string)
    requires CleanText(s)
    ensures CleanText(Strip(s))
  {
    StripIsPart(s);
    StripIsPart(LStrip(s));
  }

  lemma {:induction false} ScalarReadClean(raw: string)
    requires CleanText(raw)
    ensures Clean(ReadScalar(raw))
  {
    StripIsClean(raw);
  }

  lemma {:induction false} KeyValueClean(s: string)
    requires CleanText(s) && KeyValue(s).Some?
    ensures CleanText(KeyValue(s).value.1)
  {
    StripIsPart(s[KeyLength(s) + 1..]);
  }

  lemma {:induction false} AssignClean(es: seq<Entry>, key: string, v: Value)
    requires CleanEntries(es) && Clean(v)
    ensures CleanEntries(Assign(es, key, v))
    decreases |es|
  {
    if es != [] { AssignClean(es[1..], key, v); }
  }

  lemma {:induction false} CleanItemsAppend(items: seq<Value>, v: Value)
    requires CleanItems(items) && Clean(v)
    ensures CleanItems(items + [v])
    decreases |items|
  {
    if items != [] {
      assert (items + [v])[1..] == items[1..] + [v];
      CleanItemsAppend(items[1..], v);
    }
  }

  lemma {:induction false} SplitClean(s: string, sep: char)
    requires CleanText(s)
    ensures forall k :: 0 <= k < |Split(s, sep)| ==> CleanText(Split(s, sep)[k])
    decreases |s|
  {
    if s != [] { SplitClean(s[1..], sep); }
  }

  lemma {:induction false} FlowPartsClean(parts: seq<string>, acc: seq<Entry>)
    requires (forall k :: 0 <= k < |parts| ==> CleanText(parts[k])) && CleanEntries(acc)
    ensures var r := ReadFlowParts(parts, acc); r.Some? ==> Clean(r.value)
    decreases |parts|
  {
    if parts != [] {
      var part := Strip(parts[0]);
      StripIsClean(parts[0]);
      if part == "" { FlowPartsClean(parts[1..], acc); }
      else if KeyValue(part).Some? {
        var (key, rest) := KeyValue(part).value;
        KeyValueClean(part);
        ScalarReadClean(rest);
        AssignClean(acc, key, ReadScalar(rest));
        FlowPartsClean(parts[1..], Assign(acc, key, ReadScalar(rest)));
      }
    }
  }

  lemma {:induction false} FlowClean(raw: string)
    requires CleanText(raw)
    ensures var r := ReadFlow(raw); r.Some? ==> Clean(r.value)
  {
    var s := Strip(raw);
    StripIsClean(raw);
    if |s| >= 2 {
      SplitClean(s[1..|s| - 1], ',');
      FlowPartsClean(Split(s[1..|s| - 1], ','), []);
    }
  }

  predicate ParsedClean(r: Parsed) { r.Ok? ==> Clean(r.value) }

  lemma {:induction false} ValueClean(lines: seq<Line>, i: nat, rest: string, above: nat)
    requires i <= |lines| && CleanLines(lines) && CleanText(rest)
    ensures ParsedClean(ReadValue(lines, i, rest, above))
    decreases |lines| - i, 3
  {
    var s := Strip(rest);
    StripIsClean(rest);
    FlowClean(s);
    ScalarReadClean(s);
    BlockClean(lines, i, above);
  }

  lemma {:induction false} BlockClean(lines: seq<Line>, i: nat, above: nat)
    requires i <= |lines| && CleanLines(lines)
    ensures ParsedClean(ReadBlock(lines, i, above))
    decreases |lines| - i, 2
  {
    if i < |lines| {
      ItemsClean(lines, i, lines[i].indent, []);
      EntriesClean(lines, i, lines[i].indent, [], true);
    }
  }

  lemma {:induction false} EntriesClean(lines: seq<Line>, i: nat, indent: nat, acc: seq<Entry>, strict: bool)
    requires i <= |lines| && CleanLines(lines) && CleanEntries(acc)
    ensures ParsedClean(ReadEntries(lines, i, indent, acc, strict))
    decreases |lines| - i, 1
  {
    if i < |lines| && lines[i].indent == indent && !IsDash(lines[i].text) && KeyValue(lines[i].text).Some? {
      var (key, rest) := KeyValue(lines[i].text).value;
      KeyValueClean(lines[i].text);
      ValueClean(lines, i + 1, rest, indent);
      match ReadValue(lines, i + 1, rest, indent)
      case Error =>
      case Ok(v, j) =>
        AssignClean(acc, key, v);
        EntriesClean(lines, j, indent, Assign(acc, key, v), strict);
    }
  }

  lemma {:induction false} ItemsClean(lines: seq<Line>, i: nat, indent: nat, acc: seq<Value>)
    requires i <= |lines| && CleanLines(lines) && CleanItems(acc)
    ensures ParsedClean(ReadItems(lines, i, indent, acc))
    decreases |lines| - i, 1
  {
    if i < |lines| && lines[i].indent == indent && IsDash(lines[i].text) {
      ItemClean(lines, i, indent);
      match ReadItem(lines, i, indent)
      case Error =>
      case Ok(v, j) =>
        CleanItemsAppend(acc, v);
        ItemsClean(lines, j, indent, acc + [v]);
    }
  }

  lemma {:induction false} ItemClean(lines: seq<Line>, i: nat, indent: nat)
    requires i < |lines| && IsDash(lines[i].text) && CleanLines(lines)
    ensures ParsedClean(ReadItem(lines, i, indent))
    decreases |lines| - i, 0
  {
    var body := lines[i].text[2..];
    ScalarReadClean(body);
    BlockClean(lines, i + 1, indent);
    if KeyValue(body).Some? {
      var (key, rest) := KeyValue(body).value;
      KeyValueClean(body);
      ValueClean(lines, i + 1, rest, indent);
      match ReadValue(lines, i + 1, rest, indent)
      case Error =>
      case Ok(v, j) => EntriesClean(lines, j, indent + 2, [Entry(key, v)], false);
    }
  }

  lemma {:induction false} SplitHasNone(s: string, sep: char)
    ensures forall k :: 0 <= k < |Split(s, sep)| ==> sep !in Split(s, sep)[k]
    decreases |s|
  {
    if s != [] { SplitHasNone(s[1..], sep); }
  }

  lemma {:induction false} SignificantClean(raws: seq<string>)
    requires forall k :: 0 <= k < |raws| ==> '\n' !in raws[k]
    ensures var r := Significant(raws); r.Some? ==> CleanLines(r.value)
    decreases |raws|
  {
    if raws != [] {
      SignificantClean(raws[1..]);
      if CleanText(raws[0]) {
        StripIsPart(raws[0]);
        StripIsClean(RStrip(raws[0]));
      }
    }
  }

  /** No text, printed or not, gives a value holding a tab or a line break. */
  lemma {:induction false} ReadTextIsClean(text: string)
    ensures var r := LoadText(text); r.Some? ==> Clean(r.value)
  {
    SplitHasNone(text, '\n');
    SignificantClean(Split(text, '\n'));
    match Significant(Split(text, '\n'))
    case None =>
    case Some(lines) => EntriesClean(lines, 0, 0, [], true);
  }

  // ---- the round trip of a text ----------------------------------------------------------------------

  /** However it is written and laid out, a document without tabs and line breaks is read, but for what is swallowed. */
  lemma {:induction false} PrintedTextIsRead(fields: seq<Field>, layout: Layout)
    requires ValidFields(fields) && CleanEntries(MeaningFields(fields)) && ValidLayout(layout)
    ensures LoadText(Print(fields, layout)) == Some(Dict(SwallowFields(fields)))
  {
    FieldsArePlain(fields, 0);
    PlainLinesBack(RenderFields(fields, 0), layout);
    PrintedIsRead(fields);
  }

  lemma {:induction false} TextRoundTripExactly(fields: seq<Field>, layout: Layout)
    requires ValidFields(fields) && ValidLayout(layout)
    ensures LoadText(Print(fields, layout)) == Some(Dict(MeaningFields(fields))) <==>
            SafeFields(fields) && CleanEntries(MeaningFields(fields))
  {
    ReadTextIsClean(Print(fields, layout));
    if CleanEntries(MeaningFields(fields)) {
      PrintedTextIsRead(fields, layout);
      SwallowFieldsIsMeaning(fields);
    }
  }
}
