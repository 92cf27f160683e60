/** Splitting text at a separator and joining it again, and trimming it. */
module Text {

  function Join(parts: seq<string>, separator: char): string {
    if parts == [] then "" else if |parts| == 1 then parts[0] else parts[0] + [separator] + Join(parts[1..], separator)
  }

  /** `split` at a one-character separator: never empty. */
  function Split(s: string, separator: char): (parts: seq<string>)
    ensures parts != []
  {
    if s == "" then [""]
    else if s[0] == separator then [""] + Split(s[1..], separator)
    else var rest := Split(s[1..], separator); [[s[0]] + rest[0]] + rest[1..]
  }

  lemma {:induction false} SplitOfPart(part: string, separator: char)
    requires separator !in part
    ensures Split(part, separator) == [part]
  {
    if part != "" {
      SplitOfPart(part[1..], separator);
      assert part == [part[0]] + part[1..];
    }
  }

  lemma {:induction false} SplitAtSeparator(part: string, separator: char, rest: string)
    requires separator !in part
    ensures Split(part + [separator] + rest, separator) == [part] + Split(rest, separator)
  {
    var s := part + [separator] + rest;
    if part == "" {
      assert s[1..] == rest;
    } else {
      SplitAtSeparator(part[1..], separator, rest);
      assert s[1..] == part[1..] + [separator] + rest;
      assert part == [part[0]] + part[1..];
    }
  }

  /** Splitting undoes joining, when no part holds the separator. */
  lemma {:induction false} SplitOfJoin(parts: seq<string>, separator: char)
    requires parts != [] && forall part <- parts :: separator !in part
    ensures Split(Join(parts, separator), separator) == parts
  {
    if |parts| == 1 {
      SplitOfPart(parts[0], separator);
    } else {
      SplitAtSeparator(parts[0], separator, Join(parts[1..], separator));
      SplitOfJoin(parts[1..], separator);
    }
  }

  /** Joining undoes splitting. */
  lemma {:induction false} JoinOfSplit(s: string, separator: char)
    ensures Join(Split(s, separator), separator) == s
    ensures forall part <- Split(s, separator) :: separator !in part
  {
    PartsHoldNoSeparator(s, separator);
    if s != "" {
      JoinOfSplit(s[1..], separator);
      hide Split, Join;
      SplitStep(s, separator);
      var rest := Split(s[1..], separator);
      if s[0] == separator {
        JoinAfterSeparator(rest, separator);
      } else {
        JoinPrepended(s[0], rest, separator);
      }
    }
  }

  lemma SplitStep(s: string, separator: char)
    requires s != ""
    ensures s == [s[0]] + s[1..]
    ensures var rest := Split(s[1..], separator);
            Split(s, separator) == if s[0] == separator then [""] + rest else [[s[0]] + rest[0]] + rest[1..]
  {
  }

  lemma JoinAfterSeparator(rest: seq<string>, separator: char)
    requires rest != []
    ensures Join([""] + rest, separator) == [separator] + Join(rest, separator)
  {
    assert ([""] + rest)[1..] == rest;
  }

  lemma JoinPrepended(c: char, rest: seq<string>, separator: char)
    requires rest != []
    ensures Join([[c] + rest[0]] + rest[1..], separator) == [c] + Join(rest, separator)
  {
    var parts := [[c] + rest[0]] + rest[1..];
    assert parts[1..] == rest[1..];
  }

  lemma {:induction false} PartsHoldNoSeparator(s: string, separator: char)
    ensures forall part <- Split(s, separator) :: separator !in part
  {
    if s != "" {
      PartsHoldNoSeparator(s[1..], separator);
      var rest := Split(s[1..], separator);
      forall part <- Split(s, separator) ensures separator !in part {
        if s[0] != separator && part == [s[0]] + rest[0] { assert rest[0] in rest; }
      }
    }
  }

  /** A character that `\s` matches. */
  predicate IsSpace(c: char) {
    || '\U{0009}' <= c <= '\U{000D}' || c == ' ' || c == '\U{00A0}' || c == '\U{1680}'
    || '\U{2000}' <= c <= '\U{200A}' || c == '\U{2028}' || c == '\U{2029}' || c == '\U{202F}' || c == '\U{205F}'
    || c == '\U{3000}' || c == '\U{FEFF}'
  }

  function TrimStart(s: string): string {
    if s != "" && IsSpace(s[0]) then TrimStart(s[1..]) else s
  }

  function TrimEnd(s: string): string {
    if s != "" && IsSpace(s[|s| - 1]) then TrimEnd(s[..|s| - 1]) else s
  }

  function Trim(s: string): string {
    TrimEnd(TrimStart(s))
  }

  predicate StartsWith(s: string, prefix: string) {
    |prefix| <= |s| && s[..|prefix|] == prefix
  }

  /** The white space and the line terminators of ECMA-262 (sections 12.2 and 12.3). */
  lemma SpacesExactly(c: char)
    ensures var n := c as int;
            IsSpace(c) <==> 9 <= n <= 13 || 0x2000 <= n <= 0x200A
                            || n in {0x20, 0xA0, 0x1680, 0x2028, 0x2029, 0x202F, 0x205F, 0x3000, 0xFEFF}
  {
  }

  predicate Blank(s: string) {
    forall c <- s :: IsSpace(c)
  }

  lemma {:induction false} TrimStartOfBlank(before: string, s: string)
    requires Blank(before) && (s == "" || !IsSpace(s[0]))
    ensures TrimStart(before + s) == s
  {
    hide IsSpace;
    if before == "" {
      assert before + s == s;
    } else {
      assert before[0] in before && (before + s)[1..] == before[1..] + s && (before + s)[0] == before[0];
      TrimStartOfBlank(before[1..], s);
    }
  }

  lemma {:induction false} TrimEndOfBlank(s: string, after: string)
    requires Blank(after) && (s == "" || !IsSpace(s[|s| - 1]))
    ensures TrimEnd(s + after) == s
    decreases |after|
  {
    hide IsSpace;
    if after == "" {
      assert s + after == s;
    } else {
      var text, rest := s + after, after[..|after| - 1];
      assert text[|text| - 1] == after[|after| - 1] && after[|after| - 1] in after && text[..|text| - 1] == s + rest;
      TrimEndOfBlank(s, rest);
    }
  }

  /** Trimming takes the spaces around a text away, and nothing else. */
  lemma TrimOfBlank(before: string, s: string, after: string)
    requires Blank(before) && Blank(after) && (s != "" ==> !IsSpace(s[0]) && !IsSpace(s[|s| - 1]))
    ensures Trim(before + s + after) == s
  {
    hide IsSpace;
    if s == "" {
      assert before + s + after == (before + after) + "";
      TrimStartOfBlank(before + after, "");
    } else {
      assert before + s + after == before + (s + after);
      TrimStartOfBlank(before, s + after);
      TrimEndOfBlank(s, after);
    }
  }
}
