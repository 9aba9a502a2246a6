/**
 What fits on one line: scalars and flow mappings as they may be written, told apart without the reader, and read back
 exactly.
 */
module MiniYamlInline {
  import opened Options
  import opened Decimal
  import opened MiniYaml

  function Spaces(n: nat): (s: string)
    ensures |s| == n
  {
    if n == 0 then "" else " " + Spaces(n - 1)
  }

  function Joined(parts: seq<string>, sep: char): string {
    if parts == [] then ""
    else if |parts| == 1 then parts[0]
    else parts[0] + [sep] + Joined(parts[1..], sep)
  }

  predicate Trimmed(s: string) { s != "" && !Space(s[0]) && !Space(s[|s| - 1]) }

  // ---- numerals ------------------------------------------------------------------------------------

  /** Groups of digits, none of them empty. */
  predicate AllGroups(groups: seq<string>) {
    groups == [] || (groups[0] != "" && AllDigits(groups[0]) && AllGroups(groups[1..]))
  }

  function Concat(groups: seq<string>): (s: string)
    ensures AllGroups(groups) ==> AllDigits(s)
  {
    if groups == [] then "" else groups[0] + Concat(groups[1..])
  }

  /** Groups of digits with underscores between them, read as one number. */
  ghost predicate Unsigned(s: string, n: nat) {
    exists groups :: groups != [] && AllGroups(groups) && s == Joined(groups, '_') && n == Number(Concat(groups))
  }

  ghost predicate Numeral(s: string, i: int) {
    (i >= 0 && Unsigned(s, i)) ||
    (s != "" && s[0] == '+' && i >= 0 && Unsigned(s[1..], i)) ||
    (s != "" && s[0] == '-' && i <= 0 && Unsigned(s[1..], -i))
  }

  // ---- scalars ---------------------------------------------------------------------------------------

  /** A bare word: none of the other forms. */
  ghost predicate Bare(s: string) {
    (forall t :: s != "\"" + t + "\"" && s != "'" + t + "'") && s != "true" && s != "false" &&
    forall i :: !Numeral(s, i)
  }

  /** The text is a way to write the scalar. */
  ghost predicate ScalarText(s: string, v: Value) {
    Trimmed(s) &&
    match v
    case Str(t) => s == "\"" + t + "\"" || s == "'" + t + "'" || (s == t && Bare(s))
    case Bool(b) => s == if b then "true" else "false"
    case Int(i) => Numeral(s, i)
    case _ => false
  }

  lemma {:induction false} StripKeeps(s: string)
    requires s == [] || (!Space(s[0]) && !Space(s[|s| - 1]))
    ensures Strip(s) == s
  {
  }

  predicate NumeralChars(s: string) { forall k :: 0 <= k < |s| ==> IsDigit(s[k]) || s[k] == '_' }

  lemma {:induction false} DigitsKeep(s: string)
    requires AllDigits(s)
    ensures Digits(s) == s
    decreases |s|
  {
    if s != [] {
      DigitsKeep(s[..|s| - 1]);
      assert s == s[..|s| - 1] + [s[|s| - 1]];
    }
  }

  lemma {:induction false} DigitsAppend(a: string, b: string)
    requires NumeralChars(a) && NumeralChars(b)
    ensures Digits(a + b) == Digits(a) + Digits(b)
    decreases |b|
  {
    if b == "" { assert a + b == a; }
    else {
      assert (a + b)[..|a + b| - 1] == a + b[..|b| - 1];
      DigitsAppend(a, b[..|b| - 1]);
    }
  }

  /** One group more in front. */
  lemma {:induction false} GroupInFront(first: string, rest: string)
    requires first != "" && AllDigits(first) && DigitGroups(rest)
    ensures DigitGroups(first + ("_" + rest)) && Digits(first + ("_" + rest)) == first + Digits(rest)
  {
    DigitsKeep(first);
    DigitsAppend("_", rest);
    DigitsAppend(first, "_" + rest);
    assert Digits("_") == "" by { assert "_"[..0] == ""; }
    assert "" + Digits(rest) == Digits(rest);
    UnderscoreInFront(rest);
    GroupsAfter(first, "_" + rest);
  }

  /** What may follow a group. */
  predicate GroupTail(s: string) {
    s != "" && IsDigit(s[|s| - 1]) && NumeralChars(s) &&
    forall k :: 0 <= k < |s| - 1 ==> IsDigit(s[k]) || IsDigit(s[k + 1])
  }

  lemma {:induction false} UnderscoreInFront(rest: string)
    requires DigitGroups(rest)
    ensures GroupTail("_" + rest)
  {
    var s := "_" + rest;
    forall k | 0 <= k < |s| ensures s[k] == if k == 0 then '_' else rest[k - 1] {}
  }

  lemma {:induction false} GroupsAfter(first: string, tail: string)
    requires first != "" && AllDigits(first) && GroupTail(tail)
    ensures DigitGroups(first + tail)
  {
    var s := first + tail;
    forall k | 0 <= k < |s| ensures s[k] == if k < |first| then first[k] else tail[k - |first|] {}
  }

  lemma {:induction false} JoinedGroups(groups: seq<string>)
    requires groups != [] && AllGroups(groups)
    ensures var s := Joined(groups, '_'); DigitGroups(s) && Digits(s) == Concat(groups)
    decreases |groups|
  {
    if |groups| == 1 {
      DigitsKeep(groups[0]);
      assert groups[1..] == [] && Concat(groups) == groups[0];
    } else {
      JoinedGroups(groups[1..]);
      var rest := Joined(groups[1..], '_');
      GroupInFront(groups[0], rest);
      assert groups[0] + ['_'] + rest == groups[0] + ("_" + rest);
    }
  }

  /** Digit groups are what is between the underscores. */
  lemma {:induction false} SplitGroups(s: string)
    requires NumeralChars(s) && (forall k :: 0 <= k < |s| - 1 ==> IsDigit(s[k]) || IsDigit(s[k + 1]))
    requires s != "" ==> IsDigit(s[|s| - 1])
    ensures var parts := Split(s, '_');
            Joined(parts, '_') == s && AllDigits(parts[0]) && AllGroups(parts[1..]) &&
            (s != "" && IsDigit(s[0]) ==> parts[0] != "")
    decreases |s|
  {
    if s != "" {
      SplitGroups(s[1..]);
      var parts, rest := Split(s, '_'), Split(s[1..], '_');
      if s[0] == '_' {
        assert parts[1..] == rest && AllGroups(rest);
        assert s == "" + ['_'] + s[1..];
      } else {
        assert parts[1..] == rest[1..] && s == [s[0]] + s[1..];
      }
    }
  }

  lemma {:induction false} UnsignedExactly(s: string)
    ensures DigitGroups(s) ==> Unsigned(s, Number(Digits(s)))
    ensures forall n: nat :: Unsigned(s, n) ==> DigitGroups(s) && n == Number(Digits(s))
  {
    if DigitGroups(s) {
      SplitGroups(s);
      var groups := Split(s, '_');
      assert AllGroups(groups);
      JoinedGroups(groups);
    }
    forall n: nat | Unsigned(s, n) ensures DigitGroups(s) && n == Number(Digits(s)) {
      var groups :| groups != [] && AllGroups(groups) && s == Joined(groups, '_') && n == Number(Concat(groups));
      JoinedGroups(groups);
    }
  }

  predicate Signed(s: string) { s != "" && (s[0] == '+' || s[0] == '-') }

  /** A text with a sign is no unsigned numeral. */
  lemma {:induction false} SignedIsNotUnsigned(s: string, n: nat)
    requires Signed(s)
    ensures !Unsigned(s, n)
  {
    UnsignedExactly(s);
  }

  lemma {:induction false} IntExactly(s: string, i: int)
    ensures ReadInt(s) == Some(i) <==> Numeral(s, i)
  {
    if Signed(s) {
      UnsignedExactly(s[1..]);
      if i >= 0 { SignedIsNotUnsigned(s, i); }
    } else {
      UnsignedExactly(s);
    }
  }

  lemma {:induction false} QuotedExactly(s: string, q: char)
    ensures Quoted(s, q) <==> exists t: string :: s == [q] + t + [q]
    ensures Quoted(s, q) ==> s == [q] + s[1..|s| - 1] + [q]
  {
    if Quoted(s, q) { assert s == [q] + s[1..|s| - 1] + [q]; }
  }

  /** A scalar is read from exactly the texts that are ways to write it. */
  lemma {:induction false} ScalarExactly(s: string, v: Value)
    requires Trimmed(s)
    ensures ReadScalar(s) == v <==> ScalarText(s, v)
  {
    StripKeeps(s);
    QuotedExactly(s, '\"');
    QuotedExactly(s, '\'');
    forall i ensures ReadInt(s) == Some(i) <==> Numeral(s, i) { IntExactly(s, i); }
  }
}
