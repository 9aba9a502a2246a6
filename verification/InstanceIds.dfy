/** Instance ids are what sanitizing leaves alone, and distinct ids have distinct compose projects. */
module InstanceIds {
  import opened Options
  import opened Allocator

  /** The ids sanitizing can return. */
  predicate ValidId(s: string) {
    0 < |s| <= 40 && IdChars(s) && SingleDashes(s) && s[0] != '-' && s[|s| - 1] != '-'
  }

  predicate SingleDashes(s: string) { |s| < 2 || (!(s[0] == '-' && s[1] == '-') && SingleDashes(s[1..])) }

  lemma {:induction false} MapIdIs(s: string)
    ensures IdChars(MapId(s)) && (IdChars(s) ==> MapId(s) == s)
    decreases |s|
  {
    if s != "" {
      MapIdIs(s[1..]);
      if IdChars(s) { assert IdCharOf(s[0]) == s[0] && [s[0]] + s[1..] == s; }
    }
  }

  lemma {:induction false} CollapseIs(s: string)
    requires IdChars(s)
    ensures var c := Collapse(s);
            IdChars(c) && SingleDashes(c) && (s != "" ==> c != "" && c[0] == s[0]) && (SingleDashes(s) ==> c == s)
    decreases |s|
  {
    if s != "" {
      CollapseIs(s[1..]);
      var c := Collapse(s);
      if !(|s| >= 2 && s[0] == '-' && s[1] == '-') {
        assert c[1..] == Collapse(s[1..]);
        if SingleDashes(s) { assert [s[0]] + s[1..] == s; }
      }
    }
  }

  lemma {:induction false} DropLast(s: string)
    requires SingleDashes(s) && s != ""
    ensures SingleDashes(s[..|s| - 1])
    decreases |s|
  {
    if |s| >= 2 {
      DropLast(s[1..]);
      assert s[1..][..|s| - 2] == s[..|s| - 1][1..];
    }
  }

  lemma {:induction false} StripLeftIs(s: string)
    requires IdChars(s) && SingleDashes(s)
    ensures var t := StripLeft(s);
            IdChars(t) && SingleDashes(t) && (t != "" ==> t[0] != '-') && (s != "" && s[0] != '-' ==> t == s)
    decreases |s|
  {
    if s != "" && s[0] == '-' { StripLeftIs(s[1..]); }
  }

  lemma {:induction false} StripRightIs(s: string)
    requires IdChars(s) && SingleDashes(s) && (s != "" ==> s[0] != '-')
    ensures var t := StripRight(s);
            IdChars(t) && SingleDashes(t) && (t != "" ==> t[0] != '-' && t[|t| - 1] != '-') &&
              (s != "" && s[|s| - 1] != '-' ==> t == s)
    decreases |s|
  {
    if s != "" && s[|s| - 1] == '-' {
      DropLast(s);
      StripRightIs(s[..|s| - 1]);
    }
  }

  /** Sanitizing gives a valid id, and the valid ids are exactly those it leaves as they are. */
  lemma {:induction false} SanitizedIsValid(raw: string)
    ensures Sanitize(raw).Some? ==> ValidId(Sanitize(raw).value)
    ensures Sanitize(raw) == Some(raw) <==> ValidId(raw)
  {
    MapIdIs(raw);
    CollapseIs(MapId(raw));
    StripLeftIs(Collapse(MapId(raw)));
    StripRightIs(StripLeft(Collapse(MapId(raw))));
  }

  // ---- what sanitizing keeps ------------------------------------------------------------------

  /** Letters and digits are kept, in lower case; everything else separates. */
  function Letter(c: char): Option<char> {
    if 'A' <= c <= 'Z' then Some((c as int + 32) as char)
    else if 'a' <= c <= 'z' || '0' <= c <= '9' then Some(c)
    else None
  }

  /** The runs of letters and digits, the first of which begins with `open`. */
  function Words(s: string, open: string): seq<string>
    decreases |s|
  {
    if s == "" then (if open == "" then [] else [open])
    else
      match Letter(s[0])
      case Some(c) => Words(s[1..], open + [c])
      case None => (if open == "" then [] else [open]) + Words(s[1..], "")
  }

  function Dashed(words: seq<string>): string {
    if words == [] then "" else if |words| == 1 then words[0] else words[0] + "-" + Dashed(words[1..])
  }

  lemma {:induction false} LetterIs(c: char)
    ensures IdCharOf(c) == if Letter(c).Some? then Letter(c).value else '-'
    ensures Letter(c).Some? ==> Letter(c).value != '-'
  {
  }

  /** A dash in front of a collapsed text is one dash in front of its rest. */
  lemma {:induction false} CollapseDash(m: string)
    requires IdChars(m)
    ensures Collapse("-" + m) == "-" + StripLeft(Collapse(m))
    decreases |m|
  {
    CollapseIs(m);
    var s := "-" + m;
    assert s[1..] == m;
    if m != "" && m[0] == '-' {
      assert m == "-" + m[1..];
      CollapseDash(m[1..]);
      StripLeftIs(Collapse(m[1..]));
      var t := StripLeft(Collapse(m[1..]));
      assert Collapse(m) == "-" + t && ("-" + t)[1..] == t;
      assert StripLeft("-" + t) == StripLeft(t) == t;
    } else if m == "" {
      assert Collapse("-") == ['-'] + Collapse("");
    } else {
      assert StripLeft(Collapse(m)) == Collapse(m);
      assert Collapse(s) == ['-'] + Collapse(m);
    }
  }

  lemma {:induction false} StripRightAfter(open: string, rest: string)
    requires open != "" && open[|open| - 1] != '-'
    ensures StripRight(open + rest) == open + StripRight(rest)
    decreases |rest|
  {
    if rest == "" { assert open + rest == open; }
    else if rest[|rest| - 1] == '-' {
      assert (open + rest)[..|open + rest| - 1] == open + rest[..|rest| - 1];
      StripRightAfter(open, rest[..|rest| - 1]);
    }
  }

  lemma {:induction false} StripRightDash(rest: string)
    requires IdChars(rest) && SingleDashes(rest) && (rest != "" ==> rest[0] != '-')
    ensures StripRight("-" + rest) == if StripRight(rest) == "" then "" else "-" + StripRight(rest)
    decreases |rest|
  {
    if rest == "" { assert "-"[..0] == ""; }
    else if rest[|rest| - 1] == '-' {
      assert ("-" + rest)[..|rest|] == "-" + rest[..|rest| - 1];
      DropLast(rest);
      StripRightDash(rest[..|rest| - 1]);
    }
  }

  /** A word, a dash and the rest. */
  lemma {:induction false} DashBetween(open: string, rest: string, words: seq<string>)
    requires open != "" && open[|open| - 1] != '-'
    requires IdChars(rest) && SingleDashes(rest) && (rest != "" ==> rest[0] != '-')
    requires StripRight(rest) == Dashed(words) && forall w <- words :: w != ""
    ensures StripRight(open + ("-" + rest)) == Dashed([open] + words)
  {
    StripRightAfter(open, "-" + rest);
    StripRightDash(rest);
    assert ([open] + words)[1..] == words && open + "" == open;
    if words != [] { DashedIsSome(words); }
  }

  /** What follows an open word is separated from it by one dash, or dropped. */
  lemma {:induction false} WordsAfter(s: string, open: string)
    requires open != "" && open[|open| - 1] != '-'
    ensures StripRight(open + Collapse(MapId(s))) == Dashed(Words(s, open))
    decreases |s|, 0
  {
    if s == "" { assert open + "" == open; }
    else {
      var m := MapId(s[1..]);
      MapIdIs(s[1..]);
      LetterIs(s[0]);
      match Letter(s[0])
      case Some(c) =>
        assert MapId(s) == [c] + m && ([c] + m)[1..] == m;
        assert open + Collapse(MapId(s)) == open + [c] + Collapse(m);
        WordsAfter(s[1..], open + [c]);
      case None =>
        var rest := StripLeft(Collapse(m));
        CollapseDash(m);
        CollapseIs(m);
        StripLeftIs(Collapse(m));
        assert MapId(s) == "-" + m;
        SanitizedWords(s[1..]);
        NoEmptyWords(s[1..], "");
        DashBetween(open, rest, Words(s[1..], ""));
    }
  }

  lemma {:induction false} NoEmptyWords(s: string, open: string)
    ensures forall w <- Words(s, open) :: w != ""
    decreases |s|
  {
    if s != "" {
      match Letter(s[0])
      case Some(c) => NoEmptyWords(s[1..], open + [c]);
      case None => NoEmptyWords(s[1..], "");
    }
  }

  lemma {:induction false} DashedIsSome(words: seq<string>)
    requires words != [] && forall w <- words :: w != ""
    ensures Dashed(words) != ""
  {
    assert words[0] in words;
  }

  lemma {:induction false} SanitizedWords(s: string)
    ensures StripRight(StripLeft(Collapse(MapId(s)))) == Dashed(Words(s, ""))
    decreases |s|, 1
  {
    if s != "" {
      var m := MapId(s[1..]);
      MapIdIs(s[1..]);
      LetterIs(s[0]);
      match Letter(s[0])
      case Some(c) =>
        assert MapId(s) == [c] + m && ([c] + m)[1..] == m;
        assert Collapse(MapId(s)) == [c] + Collapse(m);
        assert "" + [c] == [c];
        WordsAfter(s[1..], [c]);
      case None =>
        CollapseDash(m);
        CollapseIs(m);
        StripLeftIs(Collapse(m));
        var rest := StripLeft(Collapse(m));
        assert MapId(s) == "-" + m && ("-" + rest)[1..] == rest;
        assert StripLeft("-" + rest) == StripLeft(rest) == rest;
        assert [] + Words(s[1..], "") == Words(s[1..], "");
        SanitizedWords(s[1..]);
    }
  }

  /** An id is the words of the raw text, in lower case, with single dashes between them; a text without words, or with
      more than forty characters of them, is refused. */
  lemma {:induction false} SanitizeIsExact(raw: string)
    ensures var id := Dashed(Words(raw, "")); Sanitize(raw) == if id == "" || |id| > 40 then None else Some(id)
  {
    SanitizedWords(raw);
  }

  // ---- compose projects ---------------------------------------------------------------------

  /** The project is named twin_ and the id, with underscores for dashes. */
  lemma {:induction false} ProjectIs(id: string, k: nat)
    requires k < |id|
    ensures var p := ComposeProject(id);
            |p| == |id| + 5 && p[..5] == "twin_" && p[k + 5] == if id[k] == '-' then '_' else id[k]
  {
    var s := "twin_" + id;
    UnderscoredAt(s, k + 5);
    forall j | 0 <= j < 5 ensures ComposeProject(id)[j] == "twin_"[j] { UnderscoredAt(s, j); }
    assert s[k + 5] == id[k];
  }

  lemma {:induction false} UnderscoredAt(s: string, k: nat)
    requires k < |s|
    ensures |Underscored(s)| == |s| && Underscored(s)[k] == if s[k] == '-' then '_' else s[k]
    decreases |s|
  {
    if |s| > 1 { UnderscoredAt(s[1..], if k > 0 then k - 1 else 0); }
  }

  lemma {:induction false} UnderscoredInjective(s: string, t: string)
    requires IdChars(s) && IdChars(t) && Underscored(s) == Underscored(t)
    ensures s == t
    decreases |s|
  {
    if s != "" && t != "" {
      assert Underscored(s)[0] == Underscored(t)[0] && Underscored(s)[1..] == Underscored(t)[1..];
      assert IdChar(s[0]) && IdChar(t[0]);
      UnderscoredInjective(s[1..], t[1..]);
      assert s == [s[0]] + s[1..] && t == [t[0]] + t[1..];
    }
  }

  lemma {:induction false} UnderscoredAppend(s: string, t: string)
    ensures Underscored(s + t) == Underscored(s) + Underscored(t)
    decreases |s|
  {
    if s == "" { assert s + t == t; }
    else {
      assert (s + t)[1..] == s[1..] + t;
      UnderscoredAppend(s[1..], t);
    }
  }

  /** Replacing dashes by underscores confuses no two ids. */
  lemma {:induction false} ProjectsDiffer(a: string, b: string)
    requires IdChars(a) && IdChars(b) && ComposeProject(a) == ComposeProject(b)
    ensures a == b
  {
    UnderscoredAppend("twin_", a);
    UnderscoredAppend("twin_", b);
    var n := |Underscored("twin_")|;
    assert Underscored(a) == ComposeProject(a)[n..] == Underscored(b);
    UnderscoredInjective(a, b);
  }
}
