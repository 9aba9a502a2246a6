/**
 The YAML subset reader of the arena configuration (ENV2_COMPOSE/config/_miniyaml.py): block sequences
 (YAML 1.2.2, section 8.2.1), block mappings (section 8.2.2) and one-line flow mappings (section 7.4.2).
 Here a document is its significant lines, each an indentation and a stripped, non-empty text.
 */
module MiniYaml {
  import opened Options
  import opened Decimal

  datatype Line = Line(indent: nat, text: string)

  datatype Value = Null | Bool(b: bool) | Int(i: int) | Str(s: string) | Dict(entries: seq<Entry>)
    | List(items: seq<Value>)

  datatype Entry = Entry(key: string, value: Value)

  /** A value and the line after it, or the ValueError of the source. */
  datatype Parsed = Ok(value: Value, next: nat) | Error

  // ---- scalars ---------------------------------------------------------------------------

  predicate Space(c: char) {
    '\t' <= c <= '\r' || '\U{001C}' <= c <= ' ' || c == '\U{0085}' || c == '\U{00A0}' || WideSpace(c)
  }

  predicate WideSpace(c: char) {
    c == '\U{1680}' || '\U{2000}' <= c <= '\U{200A}' || c == '\U{2028}' || c == '\U{2029}' || c == '\U{202F}' ||
    c == '\U{205F}' || c == '\U{3000}'
  }

  function LStrip(s: string): string { if s != [] && Space(s[0]) then LStrip(s[1..]) else s }

  function RStrip(s: string): string { if s != [] && Space(s[|s| - 1]) then RStrip(s[..|s| - 1]) else s }

  function Strip(s: string): string { RStrip(LStrip(s)) }

  predicate Quoted(s: string, q: char) { |s| >= 2 && s[0] == q && s[|s| - 1] == q }

  /** Digits, with single underscores allowed between them. */
  predicate DigitGroups(s: string) {
    s != [] && IsDigit(s[0]) && IsDigit(s[|s| - 1]) &&
    (forall k :: 0 <= k < |s| ==> IsDigit(s[k]) || s[k] == '_') &&
    (forall k :: 0 <= k < |s| - 1 ==> IsDigit(s[k]) || IsDigit(s[k + 1]))
  }

  function Digits(s: string): (d: string)
    requires forall k :: 0 <= k < |s| ==> IsDigit(s[k]) || s[k] == '_'
    ensures AllDigits(d)
  {
    if s == [] then [] else Digits(s[..|s| - 1]) + if IsDigit(s[|s| - 1]) then [s[|s| - 1]] else []
  }

  /** `int(s)` on a stripped text. */
  function ReadInt(s: string): Option<int> {
    if s != [] && (s[0] == '-' || s[0] == '+') then
      (if DigitGroups(s[1..]) then
         var n: int := Number(Digits(s[1..]));
         Some(if s[0] == '-' then -n else n)
       else None)
    else if DigitGroups(s) then Some(Number(Digits(s)))
    else None
  }

  function ReadScalar(raw: string): Value {
    var s := Strip(raw);
    if s == "" then Null
    else if Quoted(s, '\"') || Quoted(s, '\'') then Str(s[1..|s| - 1])
    else if s == "true" then Bool(true)
    else if s == "false" then Bool(false)
    else
      match ReadInt(s)
      case Some(i) => Int(i)
      case None => Str(s)
  }

  // ---- keys and flow mappings ------------------------------------------------------------------

  predicate KeyChar(c: char) { 'A' <= c <= 'Z' || 'a' <= c <= 'z' || IsDigit(c) || c == '_' || c == '.' || c == '-' }

  /** The length of the longest prefix of key characters. */
  function KeyLength(s: string): (n: nat)
    ensures n <= |s|
  {
    if s != [] && KeyChar(s[0]) then 1 + KeyLength(s[1..]) else 0
  }

  /** `key: rest`, with the white space before the rest dropped. */
  function KeyValue(s: string): Option<(string, string)> {
    var n := KeyLength(s);
    if 0 < n < |s| && s[n] == ':' then Some((s[..n], LStrip(s[n + 1..]))) else None
  }

  /** Assignment to a dictionary: a known key keeps its place. */
  function Assign(entries: seq<Entry>, key: string, v: Value): seq<Entry> {
    if entries == [] then [Entry(key, v)]
    else if entries[0].key == key then [Entry(key, v)] + entries[1..]
    else [entries[0]] + Assign(entries[1..], key, v)
  }

  function Split(s: string, sep: char): (parts: seq<string>)
    ensures parts != []
  {
    if s == [] then [[]]
    else if s[0] == sep then [[]] + Split(s[1..], sep)
    else
      var rest := Split(s[1..], sep);
      [[s[0]] + rest[0]] + rest[1..]
  }

  function ReadFlowParts(parts: seq<string>, acc: seq<Entry>): Option<Value> {
    if parts == [] then Some(Dict(acc))
    else
      var part := Strip(parts[0]);
      if part == "" then ReadFlowParts(parts[1..], acc)
      else
        match KeyValue(part)
        case None => None
        case Some((key, rest)) => ReadFlowParts(parts[1..], Assign(acc, key, ReadScalar(rest)))
  }

  /** `{a: b, c: d}`. */
  function ReadFlow(raw: string): Option<Value> {
    var s := Strip(raw);
    if |s| >= 2 && s[0] == '{' && s[|s| - 1] == '}' then ReadFlowParts(Split(s[1..|s| - 1], ','), []) else None
  }

  // ---- blocks -------------------------------------------------------------------------------------

  predicate IsDash(text: string) { "- " <= text }

  /** What follows `key:` on its line; when nothing does, the deeper lines that follow. */
  function ReadValue(lines: seq<Line>, i: nat, rest: string, above: nat): (r: Parsed)
    requires i <= |lines|
    ensures r.Ok? ==> i <= r.next <= |lines|
    decreases |lines| - i, 3
  {
    var s := Strip(rest);
    if s == "" then
      (if i == |lines| || lines[i].indent <= above then Ok(Null, i) else ReadBlock(lines, i, above))
    else if s[0] == '{' then
      match ReadFlow(s)
      case Some(v) => Ok(v, i)
      case None => Error
    else Ok(ReadScalar(s), i)
  }

  function ReadBlock(lines: seq<Line>, i: nat, above: nat): (r: Parsed)
    requires i <= |lines|
    ensures r.Ok? ==> i <= r.next <= |lines|
    decreases |lines| - i, 2
  {
    if i == |lines| || lines[i].indent <= above then Ok(Dict([]), i)
    else if IsDash(lines[i].text) then ReadItems(lines, i, lines[i].indent, [])
    else ReadEntries(lines, i, lines[i].indent, [], true)
  }

  /** The entries of a mapping at one indentation.  A line that is no `key: value` is an error in a block
      mapping (`strict`) and ends the mapping that began behind a dash. */
  function ReadEntries(lines: seq<Line>, i: nat, indent: nat, acc: seq<Entry>, strict: bool): (r: Parsed)
    requires i <= |lines|
    ensures r.Ok? ==> i <= r.next <= |lines|
    decreases |lines| - i, 1
  {
    if i == |lines| || lines[i].indent != indent || IsDash(lines[i].text) then Ok(Dict(acc), i)
    else
      match KeyValue(lines[i].text)
      case None => if strict then Error else Ok(Dict(acc), i)
      case Some((key, rest)) =>
        match ReadValue(lines, i + 1, rest, indent)
        case Error => Error
        case Ok(v, j) => ReadEntries(lines, j, indent, Assign(acc, key, v), strict)
  }

  function ReadItems(lines: seq<Line>, i: nat, indent: nat, acc: seq<Value>): (r: Parsed)
    requires i <= |lines|
    ensures r.Ok? ==> i <= r.next <= |lines|
    decreases |lines| - i, 1
  {
    if i == |lines| || lines[i].indent != indent || !IsDash(lines[i].text) then Ok(List(acc), i)
    else
      match ReadItem(lines, i, indent)
      case Error => Error
      case Ok(v, j) => ReadItems(lines, j, indent, acc + [v])
  }

  /** One `- ...` item. */
  function ReadItem(lines: seq<Line>, i: nat, indent: nat): (r: Parsed)
    requires i < |lines| && IsDash(lines[i].text)
    ensures r.Ok? ==> i < r.next <= |lines|
    decreases |lines| - i, 0
  {
    var body := lines[i].text[2..];
    if body == "" then ReadBlock(lines, i + 1, indent)
    else
      match KeyValue(body)
      case None => Ok(ReadScalar(body), i + 1)
      case Some((key, rest)) =>
        match ReadValue(lines, i + 1, rest, indent)
        case Error => Error
        case Ok(v, j) => ReadEntries(lines, j, indent + 2, [Entry(key, v)], false)
  }

  /** `load`: the top-level mapping at column 0. */
  function Load(lines: seq<Line>): Option<Value> {
    match ReadEntries(lines, 0, 0, [], true)
    case Ok(v, _) => Some(v)
    case Error => None
  }

  /** The branch for a bare dash is never taken: a text that is a dash and a space alone is not stripped. */
  lemma {:induction false} BareDashIsNoItem(text: string)
    requires IsDash(text) && text[2..] == ""
    ensures Strip(text) != text
  {
    assert text == "- " && text[..1] == "-";
    assert RStrip(text) == RStrip(text[..1]);
  }

  /** One turn of the mapping loop. */
  lemma {:induction false} EntriesStep(lines: seq<Line>, i: nat, indent: nat, acc: seq<Entry>, strict: bool,
                                       key: string, rest: string, r: Parsed)
    requires i < |lines| && lines[i].indent == indent && !IsDash(lines[i].text) &&
             KeyValue(lines[i].text) == Some((key, rest))
    requires r == ReadValue(lines, i + 1, rest, indent)
    ensures ReadEntries(lines, i, indent, acc, strict) ==
            if r.Ok? then ReadEntries(lines, r.next, indent, Assign(acc, key, r.value), strict) else Error
  {
  }

  /** A line that is no entry ends the loop or is an error. */
  lemma {:induction false} EntriesStop(lines: seq<Line>, i: nat, indent: nat, acc: seq<Entry>, strict: bool)
    requires i < |lines| && lines[i].indent == indent && !IsDash(lines[i].text) && KeyValue(lines[i].text).None?
    ensures ReadEntries(lines, i, indent, acc, strict) == if strict then Error else Ok(Dict(acc), i)
  {
  }

  /** The value was parsed and the cursor left at `i`, or an error was raised. */
  function Outcome(v: Option<Value>, i: nat): Parsed { if v.Some? then Ok(v.value, i) else Error }

  // ---- the cursor ------------------------------------------------------------------------------------

  class Cursor {
    const lines: seq<Line>
    var i: nat

    predicate Valid()
      reads this
    {
      i <= |lines|
    }

    constructor (lines: seq<Line>)
      ensures Valid() && this.lines == lines && i == 0
    {
      this.lines := lines;
      i := 0;
    }

    method Peek() returns (line: Option<Line>)
      requires Valid()
      ensures line == if i < |lines| then Some(lines[i]) else None
    {
      line := if i < |lines| then Some(lines[i]) else None;
    }

    method Advance() returns (line: Line)
      requires Valid() && i < |lines|
      modifies this
      ensures Valid() && line == lines[old(i)] && i == old(i) + 1
    {
      line := lines[i];
      i := i + 1;
    }

    method ParseValue(rest: string, above: nat) returns (v: Option<Value>)
      requires Valid()
      modifies this
      ensures Valid() && old(i) <= i && ReadValue(lines, old(i), rest, above) == Outcome(v, i)
      decreases |lines| - i, 3
    {
      var s := Strip(rest);
      if s == "" {
        var nxt := Peek();
        if nxt.None? || nxt.value.indent <= above { return Some(Null); }
        v := ParseBlock(above);
      } else if s[0] == '{' {
        v := ParseFlowMapping(s);
      } else {
        v := Some(ReadScalar(s));
      }
    }

    method ParseFlowMapping(raw: string) returns (v: Option<Value>)
      ensures v == ReadFlow(raw)
    {
      var s := Strip(raw);
      if !(|s| >= 2 && s[0] == '{' && s[|s| - 1] == '}') { return None; }
      var parts := Split(s[1..|s| - 1], ',');
      var out: seq<Entry> := [];
      for k := 0 to |parts|
        invariant ReadFlowParts(parts, []) == ReadFlowParts(parts[k..], out)
      {
        assert parts[k..][0] == parts[k] && parts[k..][1..] == parts[k + 1..];
        var part := Strip(parts[k]);
        if part != "" {
          var kv := KeyValue(part);
          if kv.None? { return None; }
          out := Assign(out, kv.value.0, ReadScalar(kv.value.1));
        }
      }
      v := Some(Dict(out));
    }

    method ParseBlock(above: nat) returns (v: Option<Value>)
      requires Valid()
      modifies this
      ensures Valid() && old(i) <= i && ReadBlock(lines, old(i), above) == Outcome(v, i)
      decreases |lines| - i, 2
    {
      var nxt := Peek();
      if nxt.None? || nxt.value.indent <= above { return Some(Dict([])); }
      if IsDash(nxt.value.text) {
        v := ParseSequence(nxt.value.indent);
      } else {
        v := ParseEntries(nxt.value.indent, [], true);
      }
    }

    /** One `key: value` line and what is nested below it. */
    method ParseEntry(key: string, rest: string, indent: nat, out: seq<Entry>, strict: bool) returns (w: Option<Value>)
      requires Valid() && i < |lines| && lines[i].indent == indent && !IsDash(lines[i].text) &&
               KeyValue(lines[i].text) == Some((key, rest))
      modifies this
      ensures Valid() && old(i) < i
      ensures ReadEntries(lines, old(i), indent, out, strict) ==
              if w.Some? then ReadEntries(lines, i, indent, Assign(out, key, w.value), strict) else Error
      decreases |lines| - i, 0
    {
      ghost var at := i;
      var _ := Advance();
      w := ParseValue(rest, indent);
      EntriesStep(lines, at, indent, out, strict, key, rest, Outcome(w, i));
    }

    /** The loop of a block mapping, and the one that continues a mapping behind a dash. */
    method ParseEntries(indent: nat, first: seq<Entry>, strict: bool) returns (v: Option<Value>)
      requires Valid()
      modifies this
      ensures Valid() && old(i) <= i && ReadEntries(lines, old(i), indent, first, strict) == Outcome(v, i)
      decreases |lines| - i, 1
    {
      ghost var whole := ReadEntries(lines, i, indent, first, strict);
      var out := first;
      while true
        invariant Valid() && old(i) <= i
        invariant whole == ReadEntries(lines, i, indent, out, strict)
        decreases |lines| - i
      {
        var line := Peek();
        if line.None? || line.value.indent != indent || IsDash(line.value.text) { return Some(Dict(out)); }
        var kv := KeyValue(line.value.text);
        if kv.None? {
          EntriesStop(lines, i, indent, out, strict);
          if strict { return None; }
          break;
        }
        var w := ParseEntry(kv.value.0, kv.value.1, indent, out, strict);
        if w.None? { return None; }
        out := Assign(out, kv.value.0, w.value);
      }
      v := Some(Dict(out));
    }

    method ParseSequence(indent: nat) returns (v: Option<Value>)
      requires Valid()
      modifies this
      ensures Valid() && old(i) <= i && ReadItems(lines, old(i), indent, []) == Outcome(v, i)
      decreases |lines| - i, 1
    {
      ghost var whole := ReadItems(lines, i, indent, []);
      var out: seq<Value> := [];
      while true
        invariant Valid() && old(i) <= i
        invariant whole == ReadItems(lines, i, indent, out)
        decreases |lines| - i
      {
        var line := Peek();
        if line.None? || line.value.indent != indent || !IsDash(line.value.text) { break; }
        var item := ParseItem(indent);
        if item.None? { return None; }
        out := out + [item.value];
      }
      v := Some(List(out));
    }

    method ParseItem(indent: nat) returns (v: Option<Value>)
      requires Valid() && i < |lines| && IsDash(lines[i].text)
      modifies this
      ensures Valid() && old(i) <= i && ReadItem(lines, old(i), indent) == Outcome(v, i) && (v.Some? ==> old(i) < i)
      decreases |lines| - i, 0
    {
      var line := Advance();
      var body := line.text[2..];
      if body == "" {
        v := ParseBlock(indent);
        return;
      }
      var kv := KeyValue(body);
      if kv.None? { return Some(ReadScalar(body)); }
      var w := ParseValue(kv.value.1, indent);
      if w.None? { return None; }
      v := ParseEntries(indent + 2, [Entry(kv.value.0, w.value)], false);
    }
  }

  method LoadLines(lines: seq<Line>) returns (v: Option<Value>)
    ensures v == Load(lines)
  {
    var cur := new Cursor(lines);
    v := cur.ParseEntries(0, [], true);
  }
}
