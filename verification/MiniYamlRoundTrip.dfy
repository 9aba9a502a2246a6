/**
 Documents as they may be written, and what reading one gives back: its meaning, except that a mapping behind a dash
 whose first value is null swallows its siblings.
 */
module MiniYamlRoundTrip {
  import opened Options
  import opened Decimal
  import opened MiniYaml
  import opened MiniYamlInline
  import opened MiniYamlFlow

  // ---- the documents as written ------------------------------------------------------------

  /** What stands behind a key or a dash: nothing; a text on the same line, `gap` spaces further on, with its value; or
      a mapping or a list on lines of their own, `step` columns further in than they need to be. */
  datatype Node = Nothing
                | Inline(gap: nat, text: string, value: Value)
                | Block(step: nat, fields: seq<Field>)
                | Items(step: nat, nodes: seq<Node>)

  datatype Field = Field(key: string, node: Node)

  function Meaning(n: Node): Value
    decreases n, 1
  {
    match n
    case Nothing => Null
    case Inline(_, _, value) => value
    case Block(_, fields) => Dict(MeaningFields(fields))
    case Items(_, nodes) => List(MeaningItems(nodes))
  }

  function MeaningFields(fields: seq<Field>): seq<Entry>
    decreases fields, 0
  {
    if fields == [] then [] else [Entry(fields[0].key, Meaning(fields[0].node))] + MeaningFields(fields[1..])
  }

  function MeaningItems(nodes: seq<Node>): seq<Value>
    decreases nodes, 0
  {
    if nodes == [] then [] else [Meaning(nodes[0])] + MeaningItems(nodes[1..])
  }

  function Keys(fields: seq<Field>): seq<string> {
    if fields == [] then [] else [fields[0].key] + Keys(fields[1..])
  }

  /** Behind a key: a scalar that does not look like a flow mapping, or a flow mapping. */
  ghost predicate InlineText(text: string, value: Value) {
    (ScalarText(text, value) && text[0] != '{') ||
    exists cells :: ValidCells(cells) && text == FlowOf(cells) && value == Dict(CellEntries(cells))
  }

  /** The text begins like an entry. */
  predicate KeyLike(text: string) { exists n :: 0 < n < |text| && text[n] == ':' && ValidKey(text[..n]) }

  /** The keys of a mapping are distinct. */
  ghost predicate ValidFields(fields: seq<Field>)
    decreases fields, 0
  {
    fields == [] ||
    (ValidKey(fields[0].key) && fields[0].key !in Keys(fields[1..]) && ValidNode(fields[0].node) &&
     ValidFields(fields[1..]))
  }

  /** Behind a key. */
  ghost predicate ValidNode(n: Node)
    decreases n, 1
  {
    match n
    case Nothing => true
    case Inline(_, text, value) => InlineText(text, value)
    case Block(_, fields) => fields != [] && ValidFields(fields)
    case Items(_, nodes) => nodes != [] && ValidItems(nodes)
  }

  ghost predicate ValidItems(nodes: seq<Node>)
    decreases nodes, 0
  {
    nodes == [] || (ValidItem(nodes[0]) && ValidItems(nodes[1..]))
  }

  /** Behind a dash: a scalar, which begins like an entry only after a gap, or a mapping. */
  ghost predicate ValidItem(n: Node)
    decreases n, 1
  {
    match n
    case Inline(gap, text, value) => ScalarText(text, value) && (gap == 0 ==> !KeyLike(text))
    case Block(_, fields) => fields != [] && ValidFields(fields)
    case _ => false
  }

  // ---- the printer ---------------------------------------------------------------------------

  /** What stands behind `key:` on its own line. */
  function Tail(n: Node): string { if n.Inline? then Spaces(n.gap) + n.text else "" }

  function FieldText(f: Field): string { f.key + ":" + Tail(f.node) }

  /** The lines below an entry at column `above`. */
  function Nested(n: Node, above: nat): seq<Line>
    decreases n, 1
  {
    match n
    case Block(step, fields) => RenderFields(fields, above + 1 + step)
    case Items(step, nodes) => RenderItems(nodes, above + 1 + step)
    case _ => []
  }

  function RenderFields(fields: seq<Field>, indent: nat): seq<Line>
    decreases fields, 0
  {
    if fields == [] then []
    else
      [Line(indent, FieldText(fields[0]))] + Nested(fields[0].node, indent) + RenderFields(fields[1..], indent)
  }

  /** A mapping's first entry shares the dash's line; the others stand two columns further in. */
  function RenderItem(n: Node, indent: nat): seq<Line>
    decreases n, 1
  {
    if n.Block? && n.fields != []
    then [Line(indent, "- " + FieldText(n.fields[0]))] + Nested(n.fields[0].node, indent + 2) +
         RenderFields(n.fields[1..], indent + 2)
    else [Line(indent, "- " + Tail(n))]
  }

  function RenderItems(nodes: seq<Node>, indent: nat): seq<Line>
    decreases nodes, 0
  {
    if nodes == [] then [] else RenderItem(nodes[0], indent) + RenderItems(nodes[1..], indent)
  }

  // ---- what comes back -------------------------------------------------------------------------

  function Swallow(n: Node): Value
    decreases n, 1
  {
    match n
    case Nothing => Null
    case Inline(_, _, value) => value
    case Block(_, fields) => Dict(SwallowFields(fields))
    case Items(_, nodes) => List(SwallowItems(nodes))
  }

  function SwallowFields(fields: seq<Field>): seq<Entry>
    decreases fields, 0
  {
    if fields == [] then [] else [Entry(fields[0].key, Swallow(fields[0].node))] + SwallowFields(fields[1..])
  }

  predicate NullHead(n: Node) { n.Block? && |n.fields| >= 2 && n.fields[0].node.Nothing? }

  /** A null first value takes the rest of its mapping for its own nested block. */
  function SwallowItem(n: Node): Value
    decreases n, 1
  {
    if NullHead(n) then Dict([Entry(n.fields[0].key, Dict(SwallowFields(n.fields[1..])))])
    else if n.Block? then Dict(SwallowFields(n.fields))
    else Meaning(n)
  }

  function SwallowItems(nodes: seq<Node>): seq<Value>
    decreases nodes, 0
  {
    if nodes == [] then [] else [SwallowItem(nodes[0])] + SwallowItems(nodes[1..])
  }

  /** No list item anywhere in the document starts with a null and goes on. */
  predicate Safe(n: Node)
    decreases n, 1
  {
    match n
    case Block(_, fields) => SafeFields(fields)
    case Items(_, nodes) => SafeItems(nodes)
    case _ => true
  }

  predicate SafeFields(fields: seq<Field>)
    decreases fields, 0
  {
    fields == [] || (Safe(fields[0].node) && SafeFields(fields[1..]))
  }

  predicate SafeItem(n: Node)
    decreases n, 1
  {
    !NullHead(n) && (n.Block? ==> SafeFields(n.fields))
  }

  predicate SafeItems(nodes: seq<Node>)
    decreases nodes, 0
  {
    nodes == [] || (SafeItem(nodes[0]) && SafeItems(nodes[1..]))
  }

  // ---- texts read back ---------------------------------------------------------------------------

  lemma {:induction false} FieldBack(f: Field)
    requires ValidKey(f.key)
    ensures KeyValue(FieldText(f)) == Some((f.key, LStrip(Tail(f.node)))) && !IsDash(FieldText(f))
  {
    KeyBack(f.key, Tail(f.node));
  }

  lemma {:induction false} NotKeyLike(text: string)
    requires !KeyLike(text)
    ensures KeyValue(text) == None
  {
    var n := KeyLength(text);
    KeyLengthIsKey(text);
    assert 0 < n < |text| && text[n] == ':' ==> ValidKey(text[..n]);
  }

  lemma {:induction false} KeyLengthIsKey(s: string)
    ensures forall k :: 0 <= k < KeyLength(s) ==> KeyChar(s[k])
    decreases |s|
  {
    if s != "" && KeyChar(s[0]) { KeyLengthIsKey(s[1..]); }
  }

  /** What stands behind a dash when it is a scalar. */
  lemma {:induction false} ScalarItemText(n: Node)
    requires n.Inline? && ValidItem(n)
    ensures ReadScalar(Tail(n)) == n.value && KeyValue(Tail(n)) == None && Tail(n) != ""
  {
    StripSpaces(n.gap, n.text, 0);
    assert Spaces(n.gap) + n.text + Spaces(0) == Tail(n);
    ScalarExactly(n.text, n.value);
    StripKeeps(n.text);
    if n.gap == 0 {
      assert Tail(n) == n.text;
      NotKeyLike(n.text);
    } else {
      assert Tail(n)[0] == ' ';
    }
  }

  // ---- blocks read back -----------------------------------------------------------------------------

  /** The lines from `i` on are `block`. */
  predicate At(lines: seq<Line>, i: nat, block: seq<Line>)
    ensures At(lines, i, block) ==> i + |block| <= |lines|
    decreases |block|
  {
    if block == [] then i <= |lines| else i < |lines| && lines[i] == block[0] && At(lines, i + 1, block[1..])
  }

  /** From line `j` on, nothing belongs to a block at column `column` or deeper. */
  predicate Ends(lines: seq<Line>, j: nat, column: nat) { j <= |lines| && (j == |lines| || lines[j].indent < column) }

  lemma {:induction false} AtSplit(lines: seq<Line>, i: nat, a: seq<Line>, b: seq<Line>)
    requires At(lines, i, a + b)
    ensures At(lines, i, a) && At(lines, i + |a|, b)
    decreases |a|
  {
    if a == [] { assert a + b == b; }
    else {
      assert (a + b)[1..] == a[1..] + b;
      AtSplit(lines, i + 1, a[1..], b);
    }
  }

  /** Two blocks one after the other, each in its place. */
  lemma {:induction false} TwoPlaces(lines: seq<Line>, i: nat, whole: seq<Line>, block: seq<Line>, below: seq<Line>,
                                     column: nat, last: nat, end: nat)
    requires whole == block + below && At(lines, i, whole) && end == i + |whole| && block != []
    requires Ends(lines, end, last) && last <= column && (below != [] ==> below[0].indent < column)
    ensures At(lines, i, block) && i < |lines| && lines[i] == block[0]
    ensures var j := i + |block|; At(lines, j, below) && Ends(lines, j, column) && end == j + |below|
  {
    AtSplit(lines, i, block, below);
  }

  /** A line, what is nested below it, and what follows. */
  lemma {:induction false} Places(lines: seq<Line>, i: nat, whole: seq<Line>, first: Line, nested: seq<Line>,
                                  below: seq<Line>, column: nat, last: nat, end: nat)
    requires whole == [first] + nested + below && At(lines, i, whole) && end == i + |whole|
    requires Ends(lines, end, last) && last <= column && (below != [] ==> below[0].indent < column)
    ensures i < |lines| && lines[i] == first && At(lines, i + 1, nested)
    ensures var j := i + 1 + |nested|; At(lines, j, below) && Ends(lines, j, column) && end == j + |below|
  {
    var block := [first] + nested;
    TwoPlaces(lines, i, whole, block, below, column, last, end);
    assert block[1..] == nested && |block| == 1 + |nested|;
  }

  lemma {:induction false} AtWhole(lines: seq<Line>, i: nat)
    requires i <= |lines|
    ensures At(lines, i, lines[i..])
    decreases |lines| - i
  {
    if i < |lines| {
      assert lines[i..][1..] == lines[i + 1..];
      AtWhole(lines, i + 1);
    }
  }

  lemma {:induction false} FirstLine(fields: seq<Field>, indent: nat)
    requires ValidFields(fields) && fields != []
    ensures var r := RenderFields(fields, indent); r != [] && r[0].indent == indent && !IsDash(r[0].text)
  {
    FieldBack(fields[0]);
  }

  lemma {:induction false} ItemLine(n: Node, indent: nat)
    ensures var r := RenderItem(n, indent); r != [] && r[0].indent == indent && IsDash(r[0].text)
  {
  }

  lemma {:induction false} FirstItemLine(nodes: seq<Node>, indent: nat)
    requires nodes != []
    ensures var r := RenderItems(nodes, indent); r != [] && r[0].indent == indent && IsDash(r[0].text)
  {
    ItemLine(nodes[0], indent);
  }

  /** Values that fit on their entry's line. */
  lemma {:induction false} InlineBack(lines: seq<Line>, i: nat, n: Node, above: nat)
    requires i <= |lines| && n.Inline? && ValidNode(n)
    ensures ReadValue(lines, i, LStrip(Tail(n)), above) == Ok(n.value, i)
  {
    var text := n.text;
    if ScalarText(text, n.value) && text[0] != '{' {
      LStripSpaces(n.gap, text);
      StripKeeps(text);
      ScalarExactly(text, n.value);
    } else {
      var cells :| ValidCells(cells) && text == FlowOf(cells) && n.value == Dict(CellEntries(cells));
      LStripSpaces(n.gap, text);
      StripKeeps(text);
      FlowBack(cells);
    }
  }

  /** The value behind `key:`: its nested block is read exactly, unless it is nothing and deeper lines follow. */
  lemma {:induction false} ValueBack(lines: seq<Line>, i: nat, n: Node, above: nat, column: nat, end: nat)
    requires ValidNode(n) && above <= column && At(lines, i, Nested(n, column)) && end == i + |Nested(n, column)|
    requires Ends(lines, end, if n.Nothing? then above + 1 else column + 1)
    ensures ReadValue(lines, i, LStrip(Tail(n)), above) == Ok(Swallow(n), end)
    decreases n, 1
  {
    match n
    case Nothing =>
    case Inline(_, _, _) => InlineBack(lines, i, n, above);
    case Block(step, fields) =>
      var child := column + 1 + step;
      FirstLine(fields, child);
      NothingReadYet(Keys(fields));
      FieldsBack(lines, i, fields, child, [], true, end);
      assert [] + SwallowFields(fields) == SwallowFields(fields);
    case Items(step, nodes) =>
      var child := column + 1 + step;
      FirstItemLine(nodes, child);
      ItemsBack(lines, i, nodes, child, [], end);
      assert [] + SwallowItems(nodes) == SwallowItems(nodes);
  }

  /** One turn of the mapping loop. */
  lemma {:induction false} OneField(lines: seq<Line>, i: nat, f: Field, indent: nat, acc: seq<Entry>, strict: bool,
                                    v: Value, j: nat)
    requires i < |lines| && lines[i] == Line(indent, FieldText(f)) && ValidKey(f.key) && !HasKey(acc, f.key)
    requires ReadValue(lines, i + 1, LStrip(Tail(f.node)), indent) == Ok(v, j)
    ensures ReadEntries(lines, i, indent, acc, strict) == ReadEntries(lines, j, indent, acc + [Entry(f.key, v)], strict)
  {
    FieldBack(f);
    AssignNew(acc, f.key, v);
  }

  /** A printed mapping is its first line, what is nested below it, and the others. */
  lemma {:induction false} FieldsSplit(fields: seq<Field>, indent: nat)
    returns (first: Line, nested: seq<Line>, below: seq<Line>)
    requires ValidFields(fields) && fields != []
    ensures first == Line(indent, FieldText(fields[0])) && nested == Nested(fields[0].node, indent) &&
            below == RenderFields(fields[1..], indent)
    ensures RenderFields(fields, indent) == [first] + nested + below && (below != [] ==> below[0].indent == indent)
  {
    first, nested, below := Line(indent, FieldText(fields[0])), Nested(fields[0].node, indent),
      RenderFields(fields[1..], indent);
    if fields[1..] != [] { FirstLine(fields[1..], indent); }
  }

  lemma {:induction false} FieldPlaces(lines: seq<Line>, i: nat, fields: seq<Field>, indent: nat, end: nat)
    returns (nested: seq<Line>, below: seq<Line>)
    requires ValidFields(fields) && fields != [] && At(lines, i, RenderFields(fields, indent))
    requires end == i + |RenderFields(fields, indent)| && Ends(lines, end, indent + 1)
    ensures nested == Nested(fields[0].node, indent) && below == RenderFields(fields[1..], indent)
    ensures var j := i + 1 + |nested|;
            i < |lines| && lines[i] == Line(indent, FieldText(fields[0])) &&
            At(lines, i + 1, nested) && At(lines, j, below) && Ends(lines, j, indent + 1) && end == j + |below|
  {
    var first;
    first, nested, below := FieldsSplit(fields, indent);
    Places(lines, i, [first] + nested + below, first, nested, below, indent + 1, indent + 1, end);
  }

  /** The same behind a dash. */
  lemma {:induction false} DashSplit(n: Node, indent: nat) returns (first: Line, nested: seq<Line>, below: seq<Line>)
    requires n.Block? && ValidFields(n.fields) && n.fields != []
    ensures first == Line(indent, "- " + FieldText(n.fields[0])) && nested == Nested(n.fields[0].node, indent + 2) &&
            below == RenderFields(n.fields[1..], indent + 2)
    ensures RenderItem(n, indent) == [first] + nested + below && (below != [] ==> below[0].indent == indent + 2)
  {
    first, nested, below := Line(indent, "- " + FieldText(n.fields[0])), Nested(n.fields[0].node, indent + 2),
      RenderFields(n.fields[1..], indent + 2);
    if n.fields[1..] != [] { FirstLine(n.fields[1..], indent + 2); }
  }

  lemma {:induction false} DashPlaces(lines: seq<Line>, i: nat, n: Node, indent: nat, end: nat)
    returns (nested: seq<Line>, below: seq<Line>)
    requires n.Block? && ValidFields(n.fields) && n.fields != [] && At(lines, i, RenderItem(n, indent))
    requires end == i + |RenderItem(n, indent)| && Ends(lines, end, indent + 1)
    ensures nested == Nested(n.fields[0].node, indent + 2) && below == RenderFields(n.fields[1..], indent + 2)
    ensures var j := i + 1 + |nested|;
            i < |lines| && lines[i] == Line(indent, "- " + FieldText(n.fields[0])) &&
            At(lines, i + 1, nested) && At(lines, j, below) && Ends(lines, j, indent + 3) && end == j + |below|
  {
    var first;
    first, nested, below := DashSplit(n, indent);
    Places(lines, i, [first] + nested + below, first, nested, below, indent + 3, indent + 1, end);
  }

  /** The first entry is read, and the others stand where the reader then is. */
  lemma {:induction false} FirstFieldBack(lines: seq<Line>, i: nat, fields: seq<Field>, indent: nat, acc: seq<Entry>,
                                          strict: bool, end: nat)
    returns (j: nat)
    requires ValidFields(fields) && fields != [] && At(lines, i, RenderFields(fields, indent))
    requires end == i + |RenderFields(fields, indent)| && Ends(lines, end, indent + 1) && !HasKey(acc, fields[0].key)
    ensures var e := Entry(fields[0].key, Swallow(fields[0].node));
            j <= |lines| &&
            ReadEntries(lines, i, indent, acc, strict) == ReadEntries(lines, j, indent, acc + [e], strict)
    ensures At(lines, j, RenderFields(fields[1..], indent)) && end == j + |RenderFields(fields[1..], indent)|
    decreases fields, 0
  {
    var nested, below := FieldPlaces(lines, i, fields, indent, end);
    j := i + 1 + |nested|;
    ValueBack(lines, i + 1, fields[0].node, indent, indent, j);
    OneField(lines, i, fields[0], indent, acc, strict, Swallow(fields[0].node), j);
  }

  /** The entries are read, and the loop goes on behind them. */
  lemma {:induction false} FieldsRead(lines: seq<Line>, i: nat, fields: seq<Field>, indent: nat, acc: seq<Entry>,
                                      strict: bool, end: nat)
    requires ValidFields(fields) && At(lines, i, RenderFields(fields, indent)) && KeysFresh(acc, Keys(fields))
    requires end == i + |RenderFields(fields, indent)| && Ends(lines, end, indent + 1)
    ensures ReadEntries(lines, i, indent, acc, strict) ==
            ReadEntries(lines, end, indent, acc + SwallowFields(fields), strict)
    decreases fields, 1
  {
    if fields == [] {
      assert acc + [] == acc;
    } else {
      var e := Entry(fields[0].key, Swallow(fields[0].node));
      assert Keys(fields)[1..] == Keys(fields[1..]);
      var j := FirstFieldBack(lines, i, fields, indent, acc, strict, end);
      KeysStayFresh(acc, e, Keys(fields[1..]));
      FieldsRead(lines, j, fields[1..], indent, acc + [e], strict, end);
      Regroup(acc, [e], SwallowFields(fields[1..]));
    }
  }

  lemma {:induction false} FieldsBack(lines: seq<Line>, i: nat, fields: seq<Field>, indent: nat, acc: seq<Entry>,
                                      strict: bool, end: nat)
    requires ValidFields(fields) && At(lines, i, RenderFields(fields, indent)) && KeysFresh(acc, Keys(fields))
    requires end == i + |RenderFields(fields, indent)| && Ends(lines, end, indent)
    ensures ReadEntries(lines, i, indent, acc, strict) == Ok(Dict(acc + SwallowFields(fields)), end)
    decreases fields, 2
  {
    FieldsRead(lines, i, fields, indent, acc, strict, end);
  }

  /** A printed list is its first item and the others. */
  lemma {:induction false} ItemsSplit(nodes: seq<Node>, indent: nat) returns (block: seq<Line>, below: seq<Line>)
    requires nodes != []
    ensures block == RenderItem(nodes[0], indent) && below == RenderItems(nodes[1..], indent)
    ensures RenderItems(nodes, indent) == block + below
    ensures block != [] && block[0].indent == indent && IsDash(block[0].text) &&
            (below != [] ==> below[0].indent == indent)
  {
    block, below := RenderItem(nodes[0], indent), RenderItems(nodes[1..], indent);
    ItemLine(nodes[0], indent);
    if nodes[1..] != [] { FirstItemLine(nodes[1..], indent); }
  }

  /** The first item of a printed list, and the others. */
  lemma {:induction false} ItemPlaces(lines: seq<Line>, i: nat, nodes: seq<Node>, indent: nat, end: nat)
    returns (block: seq<Line>, below: seq<Line>)
    requires nodes != [] && At(lines, i, RenderItems(nodes, indent))
    requires end == i + |RenderItems(nodes, indent)| && Ends(lines, end, indent)
    ensures block == RenderItem(nodes[0], indent) && below == RenderItems(nodes[1..], indent)
    ensures var j := i + |block|;
            At(lines, i, block) && i < |lines| && lines[i].indent == indent && IsDash(lines[i].text) &&
            At(lines, j, below) && Ends(lines, j, indent + 1) && end == j + |below|
  {
    block, below := ItemsSplit(nodes, indent);
    TwoPlaces(lines, i, block + below, block, below, indent + 1, indent, end);
  }

  /** One turn of the sequence loop. */
  lemma {:induction false} OneItem(lines: seq<Line>, i: nat, indent: nat, acc: seq<Value>, v: Value, j: nat)
    requires i < |lines| && lines[i].indent == indent && IsDash(lines[i].text) && ReadItem(lines, i, indent) == Ok(v, j)
    ensures ReadItems(lines, i, indent, acc) == ReadItems(lines, j, indent, acc + [v])
  {
  }

  /** The first item is read, and the others stand where the reader then is. */
  lemma {:induction false} FirstItemBack(lines: seq<Line>, i: nat, nodes: seq<Node>, indent: nat, acc: seq<Value>,
                                         end: nat)
    returns (j: nat)
    requires ValidItems(nodes) && nodes != [] && At(lines, i, RenderItems(nodes, indent))
    requires end == i + |RenderItems(nodes, indent)| && Ends(lines, end, indent)
    ensures j <= |lines| &&
            ReadItems(lines, i, indent, acc) == ReadItems(lines, j, indent, acc + [SwallowItem(nodes[0])])
    ensures At(lines, j, RenderItems(nodes[1..], indent)) && end == j + |RenderItems(nodes[1..], indent)|
    decreases nodes, 0
  {
    var block, below := ItemPlaces(lines, i, nodes, indent, end);
    j := i + |block|;
    ItemBack(lines, i, nodes[0], indent, j);
    OneItem(lines, i, indent, acc, SwallowItem(nodes[0]), j);
  }

  lemma {:induction false} ItemsBack(lines: seq<Line>, i: nat, nodes: seq<Node>, indent: nat, acc: seq<Value>, end: nat)
    requires ValidItems(nodes) && At(lines, i, RenderItems(nodes, indent))
    requires end == i + |RenderItems(nodes, indent)| && Ends(lines, end, indent)
    ensures ReadItems(lines, i, indent, acc) == Ok(List(acc + SwallowItems(nodes)), end)
    decreases nodes, 1
  {
    if nodes == [] {
      assert acc + [] == acc;
    } else {
      var j := FirstItemBack(lines, i, nodes, indent, acc, end);
      ItemsBack(lines, j, nodes[1..], indent, acc + [SwallowItem(nodes[0])], end);
      Regroup(acc, [SwallowItem(nodes[0])], SwallowItems(nodes[1..]));
    }
  }

  /** The dash line of a mapping item, and the loop that continues it. */
  lemma {:induction false} DashEntry(lines: seq<Line>, i: nat, f: Field, indent: nat, v: Value, j: nat)
    requires i < |lines| && lines[i] == Line(indent, "- " + FieldText(f)) && ValidKey(f.key)
    requires ReadValue(lines, i + 1, LStrip(Tail(f.node)), indent) == Ok(v, j)
    ensures ReadItem(lines, i, indent) == ReadEntries(lines, j, indent + 2, [Entry(f.key, v)], false)
  {
    FieldBack(f);
    assert lines[i].text[2..] == FieldText(f);
  }

  lemma {:induction false} ScalarItemBack(lines: seq<Line>, i: nat, n: Node, indent: nat)
    requires n.Inline? && ValidItem(n) && i < |lines| && At(lines, i, RenderItem(n, indent)) && IsDash(lines[i].text)
    ensures ReadItem(lines, i, indent) == Ok(n.value, i + 1)
  {
    assert lines[i].text[2..] == Tail(n);
    ScalarItemText(n);
  }

  lemma {:induction false} ItemBack(lines: seq<Line>, i: nat, n: Node, indent: nat, end: nat)
    requires ValidItem(n) && At(lines, i, RenderItem(n, indent)) && i < |lines| && IsDash(lines[i].text)
    requires end == i + |RenderItem(n, indent)| && Ends(lines, end, indent + 1)
    ensures ReadItem(lines, i, indent) == Ok(SwallowItem(n), end)
    decreases n, 3
  {
    if n.Inline? { ScalarItemBack(lines, i, n, indent); }
    else if NullHead(n) { NullHeadBack(lines, i, n, indent, end); }
    else { MappingItemBack(lines, i, n, indent, end); }
  }

  /** The entry behind the dash is read, and the others stand where the reader then is. */
  lemma {:induction false} DashBack(lines: seq<Line>, i: nat, n: Node, indent: nat, end: nat) returns (j: nat)
    requires n.Block? && n.fields != [] && ValidFields(n.fields) && !NullHead(n) && At(lines, i, RenderItem(n, indent))
    requires i < |lines| && IsDash(lines[i].text)
    requires end == i + |RenderItem(n, indent)| && Ends(lines, end, indent + 1)
    ensures j <= |lines| &&
            ReadItem(lines, i, indent) ==
            ReadEntries(lines, j, indent + 2, [Entry(n.fields[0].key, Swallow(n.fields[0].node))], false)
    ensures At(lines, j, RenderFields(n.fields[1..], indent + 2)) &&
            end == j + |RenderFields(n.fields[1..], indent + 2)|
    decreases n, 1
  {
    var nested, below := DashPlaces(lines, i, n, indent, end);
    j := i + 1 + |nested|;
    if n.fields[0].node.Nothing? { assert n.fields[1..] == []; }
    ValueBack(lines, i + 1, n.fields[0].node, indent, indent + 2, j);
    DashEntry(lines, i, n.fields[0], indent, Swallow(n.fields[0].node), j);
  }

  lemma {:induction false} MappingItemBack(lines: seq<Line>, i: nat, n: Node, indent: nat, end: nat)
    requires n.Block? && n.fields != [] && ValidFields(n.fields) && !NullHead(n) && At(lines, i, RenderItem(n, indent))
    requires i < |lines| && IsDash(lines[i].text)
    requires end == i + |RenderItem(n, indent)| && Ends(lines, end, indent + 1)
    ensures ReadItem(lines, i, indent) == Ok(Dict(SwallowFields(n.fields)), end)
    decreases n, 2
  {
    var e, rest := Entry(n.fields[0].key, Swallow(n.fields[0].node)), n.fields[1..];
    var j := DashBack(lines, i, n, indent, end);
    NothingReadYet(Keys(rest));
    KeysStayFresh([], e, Keys(rest));
    assert [] + [e] == [e];
    FieldsBack(lines, j, rest, indent + 2, [e], false, end);
  }

  lemma {:induction false} NullHeadBack(lines: seq<Line>, i: nat, n: Node, indent: nat, end: nat)
    requires ValidItem(n) && NullHead(n) && At(lines, i, RenderItem(n, indent)) && i < |lines| && IsDash(lines[i].text)
    requires end == i + |RenderItem(n, indent)| && Ends(lines, end, indent + 1)
    ensures ReadItem(lines, i, indent) == Ok(SwallowItem(n), end)
    decreases n, 0
  {
    var f, rest := n.fields[0], n.fields[1..];
    var nested, below := DashPlaces(lines, i, n, indent, end);
    FirstLine(rest, indent + 2);
    NothingReadYet(Keys(rest));
    FieldsBack(lines, i + 1, rest, indent + 2, [], true, end);
    assert [] + SwallowFields(rest) == SwallowFields(rest);
    assert LStrip("") == "" && Strip("") == "";
    DashEntry(lines, i, f, indent, Dict(SwallowFields(rest)), end);
  }

  // ---- the round trip --------------------------------------------------------------------------------

  /** Reading a written document never fails and gives exactly the swallowed document. */
  lemma {:induction false} PrintedIsRead(fields: seq<Field>)
    requires ValidFields(fields)
    ensures Load(RenderFields(fields, 0)) == Some(Dict(SwallowFields(fields)))
  {
    var lines := RenderFields(fields, 0);
    AtWhole(lines, 0);
    assert lines[0..] == lines;
    NothingReadYet(Keys(fields));
    FieldsBack(lines, 0, fields, 0, [], true, |lines|);
    assert [] + SwallowFields(fields) == SwallowFields(fields);
  }

  /** A line at column 0 behind the document that is neither an entry nor a list item is an error, whatever follows. */
  lemma {:induction false} StrayLineIsRefused(fields: seq<Field>, stray: Line, rest: seq<Line>)
    requires ValidFields(fields) && stray.indent == 0 && !IsDash(stray.text) && !KeyLike(stray.text)
    ensures Load(RenderFields(fields, 0) + [stray] + rest).None?
  {
    var block := RenderFields(fields, 0);
    var lines := block + [stray] + rest;
    AtWhole(lines, 0);
    assert lines[0..] == lines == block + ([stray] + rest);
    AtSplit(lines, 0, block, [stray] + rest);
    NothingReadYet(Keys(fields));
    FieldsRead(lines, 0, fields, 0, [], true, |block|);
    NotKeyLike(stray.text);
  }

  lemma {:induction false} SwallowIsMeaning(n: Node)
    ensures Swallow(n) == Meaning(n) <==> Safe(n)
    decreases n, 1
  {
    match n
    case Block(_, fields) => SwallowFieldsIsMeaning(fields);
    case Items(_, nodes) => SwallowItemsIsMeaning(nodes);
    case _ =>
  }

  lemma {:induction false} SwallowFieldsIsMeaning(fields: seq<Field>)
    ensures |SwallowFields(fields)| == |MeaningFields(fields)| == |fields|
    ensures SwallowFields(fields) == MeaningFields(fields) <==> SafeFields(fields)
    decreases fields, 0
  {
    if fields != [] {
      SwallowIsMeaning(fields[0].node);
      SwallowFieldsIsMeaning(fields[1..]);
      var s, m := SwallowFields(fields), MeaningFields(fields);
      assert s[1..] == SwallowFields(fields[1..]) && m[1..] == MeaningFields(fields[1..]);
    }
  }

  lemma {:induction false} SwallowItemsIsMeaning(nodes: seq<Node>)
    ensures SwallowItems(nodes) == MeaningItems(nodes) <==> SafeItems(nodes)
    decreases nodes, 0
  {
    if nodes != [] {
      SwallowItemIsMeaning(nodes[0]);
      SwallowItemsIsMeaning(nodes[1..]);
      var s, m := SwallowItems(nodes), MeaningItems(nodes);
      assert s[1..] == SwallowItems(nodes[1..]) && m[1..] == MeaningItems(nodes[1..]);
    }
  }

  lemma {:induction false} SwallowItemIsMeaning(n: Node)
    ensures SwallowItem(n) == Meaning(n) <==> SafeItem(n)
    decreases n, 1
  {
    if n.Block? { SwallowFieldsIsMeaning(n.fields); }
  }

  /** A written document is read back as what it means exactly when no list item in it is a mapping of two or more
      entries that starts with a null. */
  lemma {:induction false} RoundTripExactly(fields: seq<Field>)
    requires ValidFields(fields)
    ensures Load(RenderFields(fields, 0)) == Some(Dict(MeaningFields(fields))) <==> SafeFields(fields)
  {
    PrintedIsRead(fields);
    SwallowFieldsIsMeaning(fields);
  }
}
