/** Every document the reader has a form for can be written, in one plain way among the many. */
module MiniYamlWriting {
  import opened Options
  import opened Decimal
  import opened MiniYaml
  import opened MiniYamlInline
  import opened MiniYamlFlow
  import opened MiniYamlRoundTrip

  predicate IsScalar(v: Value) { v.Bool? || v.Int? || v.Str? }

  /** The keys of a mapping are distinct. */
  predicate ValidEntries(es: seq<Entry>)
    decreases es, 0
  {
    es == [] || (ValidKey(es[0].key) && !HasKey(es[1..], es[0].key) && ValidValue(es[0].value) && ValidEntries(es[1..]))
  }

  /** A value behind a key: lists are not empty. */
  predicate ValidValue(v: Value)
    decreases v, 1
  {
    match v
    case Dict(es) => ValidEntries(es)
    case List(items) => items != [] && AllItems(items)
    case _ => true
  }

  /** Behind dashes: scalars, and mappings that are not empty. */
  predicate AllItems(items: seq<Value>)
    decreases items, 0
  {
    items == [] ||
    ((IsScalar(items[0]) || (items[0].Dict? && items[0].entries != [] && ValidEntries(items[0].entries))) &&
     AllItems(items[1..]))
  }

  function ShowInt(i: int): string { if i < 0 then "-" + Show(-i) else Show(i) }

  /** Strings are always quoted. */
  function ShowScalar(v: Value): string
    requires IsScalar(v)
  {
    match v
    case Bool(b) => if b then "true" else "false"
    case Int(i) => ShowInt(i)
    case Str(s) => "\"" + s + "\""
  }

  function Written(v: Value): Node
    decreases v, 1
  {
    match v
    case Null => Nothing
    case Dict(es) => if es == [] then Inline(1, "{}", v) else Block(1, WrittenFields(es))
    case List(items) => Items(1, WrittenItems(items))
    case _ => Inline(1, ShowScalar(v), v)
  }

  function WrittenFields(es: seq<Entry>): seq<Field>
    decreases es, 0
  {
    if es == [] then [] else [Field(es[0].key, Written(es[0].value))] + WrittenFields(es[1..])
  }

  function WrittenItems(items: seq<Value>): seq<Node>
    decreases items, 0
  {
    if items == [] then []
    else [if IsScalar(items[0]) then Inline(0, ShowScalar(items[0]), items[0]) else Written(items[0])] +
         WrittenItems(items[1..])
  }

  // ---- what is written is a way to write it -----------------------------------------------------------

  lemma {:induction false} JoinedOne(s: string, sep: char)
    ensures Joined([s], sep) == s
  {
  }

  lemma {:induction false} ShowIsNumeral(i: int)
    ensures ScalarText(ShowInt(i), Int(i)) && forall k :: 0 <= k < |ShowInt(i)| ==> ShowInt(i)[k] != ':'
    ensures ShowInt(i)[0] != '{'
  {
    var n: nat := if i < 0 then -i else i;
    var s, groups := Show(n), [Show(n)];
    ReadShown(n);
    assert groups[1..] == [] && AllGroups(groups);
    JoinedOne(s, '_');
    assert Concat(groups) == s + Concat([]) == s;
    assert Unsigned(s, n);
    if i < 0 { assert ("-" + s)[1..] == s; }
    var t := ShowInt(i);
    forall k | 0 <= k < |t| ensures t[k] == '-' || IsDigit(t[k]) {}
    assert Numeral(t, i);
  }

  lemma {:induction false} ShownIsScalarText(v: Value)
    requires IsScalar(v)
    ensures ScalarText(ShowScalar(v), v) && ShowScalar(v)[0] != '{' && !KeyLike(ShowScalar(v))
  {
    match v
    case Bool(b) =>
    case Int(i) => ShowIsNumeral(i);
    case Str(s) => assert ShowScalar(v)[0] == '\"' && !KeyChar('\"');
  }

  lemma {:induction false} NothingInBraces()
    ensures InlineText("{}", Dict([]))
  {
    var cells: seq<Cell> := [];
    assert CellTexts(cells) == [] && Joined([], ',') == "" && FlowOf(cells) == "{}" && CellEntries(cells) == [];
  }

  lemma {:induction false} WrittenKeys(es: seq<Entry>, key: string)
    ensures key in Keys(WrittenFields(es)) <==> HasKey(es, key)
    decreases |es|
  {
    if es != [] {
      assert WrittenFields(es)[1..] == WrittenFields(es[1..]);
      WrittenKeys(es[1..], key);
    }
  }

  /** Written, a value is a valid node that means it. */
  lemma {:induction false} WrittenMeans(v: Value)
    requires ValidValue(v)
    ensures ValidNode(Written(v)) && Meaning(Written(v)) == v
    decreases v, 1
  {
    match v
    case Null =>
    case Dict(es) => if es == [] { NothingInBraces(); } else { EveryDocumentCanBeWritten(es); }
    case List(items) => WrittenItemsMean(items);
    case _ => ShownIsScalarText(v);
  }

  /** So every document has a form that is valid and means it. */
  lemma {:induction false} EveryDocumentCanBeWritten(es: seq<Entry>)
    requires ValidEntries(es)
    ensures ValidFields(WrittenFields(es)) && MeaningFields(WrittenFields(es)) == es && |WrittenFields(es)| == |es|
    decreases es, 0
  {
    if es != [] {
      WrittenMeans(es[0].value);
      EveryDocumentCanBeWritten(es[1..]);
      WrittenKeys(es[1..], es[0].key);
      var fields := WrittenFields(es);
      assert fields[1..] == WrittenFields(es[1..]) && es == [es[0]] + es[1..];
    }
  }

  lemma {:induction false} WrittenItemsMean(items: seq<Value>)
    requires AllItems(items)
    ensures ValidItems(WrittenItems(items)) && MeaningItems(WrittenItems(items)) == items
    ensures |WrittenItems(items)| == |items|
    decreases items, 0
  {
    if items != [] {
      if IsScalar(items[0]) { ShownIsScalarText(items[0]); } else { WrittenMeans(items[0]); }
      WrittenItemsMean(items[1..]);
      var nodes := WrittenItems(items);
      assert nodes[1..] == WrittenItems(items[1..]) && items == [items[0]] + items[1..];
    }
  }

  // ---- the smallest document that does not survive ------------------------------------------------------

  /** l:, then a dash with a: and b: 1. */
  function Swallowed(): seq<Field> {
    [Field("l", Items(1, [Block(0, [Field("a", Nothing), Field("b", Inline(1, "1", Int(1)))])]))]
  }

  lemma {:induction false} NullFirstEntrySwallows()
    ensures var fields := Swallowed();
            ValidFields(fields) &&
            MeaningFields(fields) == [Entry("l", List([Dict([Entry("a", Null), Entry("b", Int(1))])]))] &&
            Load(RenderFields(fields, 0)) ==
              Some(Dict([Entry("l", List([Dict([Entry("a", Dict([Entry("b", Int(1))]))])]))]))
  {
    var b := [Field("b", Inline(1, "1", Int(1)))];
    var inner := [Field("a", Nothing)] + b;
    var item := Block(0, inner);
    ShowIsNumeral(1);
    assert Show(1) == "1";
    assert inner == [Field("a", Nothing), Field("b", Inline(1, "1", Int(1)))] && inner[1..] == b && b[1..] == [];
    assert ValidKey("a") && ValidKey("b") && ValidKey("l");
    assert Keys([]) == [] && Keys(b) == ["b"] && "a" !in Keys(b);
    assert ValidNode(b[0].node) && ValidFields(b);
    assert ValidFields(inner) && ValidItem(item);
    assert [item][1..] == [] && ValidItems([item]);
    assert Swallowed()[1..] == [] && Swallowed()[0].node == Items(1, [item]);
    assert ValidFields(Swallowed());
    PrintedIsRead(Swallowed());
    assert SwallowFields(b) == [Entry("b", Int(1))] && MeaningFields(b) == [Entry("b", Int(1))];
    assert MeaningFields(inner) == [Entry("a", Null)] + MeaningFields(b) == [Entry("a", Null), Entry("b", Int(1))];
    assert SwallowItems([item]) == [SwallowItem(item)] && MeaningItems([item]) == [Dict(MeaningFields(inner))];
    assert SwallowFields(Swallowed()) == [Entry("l", List(SwallowItems([item])))];
    assert MeaningFields(Swallowed()) == [Entry("l", List(MeaningItems([item])))];
  }
}
