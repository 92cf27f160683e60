/**
 * A printer for nested source text, and its agreement with the scanner: whatever is printed between two
 * brackets, the scanner started at the opening one ends exactly at the closing one.
 */
module SourcePrinter {
  import opened Prelude
  import opened SourceScanner
  import opened Text

  /** A piece of a string literal's body. */
  datatype Item = Ordinary(c: char) | Escaped(c: char)

  /** A piece of source text; a group nests in the brackets being balanced. */
  datatype Token =
    | Plain(c: char)
    | Slash
    | Quoted(quote: char, items: seq<Item>)
    | LineComment(body: string)
    | BlockComment(body: string)
    | Group(inner: seq<Token>)

  function RenderItems(items: seq<Item>): string {
    if items == [] then ""
    else (match items[0] case Ordinary(c) => [c] case Escaped(c) => ['\\', c]) + RenderItems(items[1..])
  }

  function RenderToken(b: Brackets, t: Token): (r: string)
    ensures |r| > 0
    decreases t
  {
    match t
    case Plain(c) => [c]
    case Slash => "/"
    case Quoted(q, items) => [q] + (RenderItems(items) + [q])
    case LineComment(body) => "//" + (body + "\n")
    case BlockComment(body) => "/*" + (body + "*/")
    case Group(inner) => [b.open] + (Render(b, inner) + [b.close])
  }

  function Render(b: Brackets, ts: seq<Token>): string
    decreases ts
  {
    if ts == [] then "" else RenderToken(b, ts[0]) + Render(b, ts[1..])
  }

  /** The text before any "*" followed by "/". */
  predicate NoBlockEnd(body: string) {
    forall i {:trigger body[i]} :: 0 <= i < |body| - 1 ==> !(body[i] == '*' && body[i + 1] == '/')
  }

  predicate StartsNoComment(rest: string) {
    rest != "" && rest[0] != '/' && rest[0] != '*'
  }

  /** The token prints as itself when `rest` follows it. */
  predicate TokenFits(b: Brackets, t: Token, rest: string)
    decreases t
  {
    match t
    case Plain(c) => c !in {b.open, b.close, '/', '"', '\'', '`'}
    case Slash => StartsNoComment(rest)
    case Quoted(q, items) => q in {'"', '\'', '`'} && Ordinary(q) !in items && Ordinary('\\') !in items
    case LineComment(body) => '\n' !in body
    case BlockComment(body) => NoBlockEnd(body)
    case Group(inner) => Fits(b, inner, [b.close])
  }

  predicate Fits(b: Brackets, ts: seq<Token>, rest: string)
    decreases ts
  {
    ts != [] ==> TokenFits(b, ts[0], Render(b, ts[1..]) + rest) && Fits(b, ts[1..], rest)
  }

  // ---------------------------------------------------------------- text found at a position

  predicate At(s: string, i: nat, text: string) {
    i + |text| <= |s| && s[i..i + |text|] == text
  }

  lemma AtParts(s: string, i: nat, first: string, rest: string)
    requires At(s, i, first + rest)
    ensures At(s, i, first) && At(s, i + |first|, rest)
    ensures first != "" ==> s[i] == first[0]
  {
    var whole := s[i..i + |first + rest|];
    assert s[i..i + |first|] == whole[..|first|] == first;
    assert s[i + |first|..i + |first| + |rest|] == whole[|first|..] == rest;
  }

  lemma AtFits(s: string, i: nat, text: string)
    requires At(s, i, text) && text != ""
    ensures i < |s| && s[i] == text[0]
    ensures |text| > 1 ==> i + 1 < |s| && s[i + 1] == text[1]
  {
    assert s[i..i + |text|][0] == text[0];
    if |text| > 1 { assert s[i..i + |text|][1] == text[1]; }
  }

  lemma SlashIsCode(s: string, i: nat, rest: string)
    requires At(s, i, "/" + rest) && StartsNoComment(rest)
    ensures IsCode(s, i)
  {
    AtFits(s, i, "/" + rest);
  }

  lemma QuotedIsSkipped(s: string, i: nat, q: char, items: seq<Item>)
    requires IsQuote(q) && Ordinary(q) !in items && Ordinary('\\') !in items
    requires At(s, i, [q] + (RenderItems(items) + [q]))
    ensures i < |s| && !IsCode(s, i) && Next(s, i) == i + |RenderItems(items)| + 2
  {
    AtFits(s, i, [q] + (RenderItems(items) + [q]));
    AtParts(s, i, [q], RenderItems(items) + [q]);
    StringEndsAfterItems(s, i + 1, items, q);
  }

  lemma LineCommentIsSkipped(s: string, i: nat, body: string)
    requires '\n' !in body && At(s, i, "//" + (body + "\n"))
    ensures i < |s| && !IsCode(s, i) && Next(s, i) == i + |body| + 3
  {
    AtFits(s, i, "//" + (body + "\n"));
    AtParts(s, i, "//", body + "\n");
    LineEndsAfterBody(s, i + 2, body);
  }

  lemma BlockCommentIsSkipped(s: string, i: nat, body: string)
    requires NoBlockEnd(body) && At(s, i, "/*" + (body + "*/"))
    ensures i < |s| && !IsCode(s, i) && Next(s, i) == i + |body| + 4
  {
    AtFits(s, i, "/*" + (body + "*/"));
    AtParts(s, i, "/*", body + "*/");
    BlockEndsAfterBody(s, i + 2, body);
  }

  lemma {:induction false} StringEndsAfterItems(s: string, from: nat, items: seq<Item>, quote: char)
    requires IsQuote(quote) && Ordinary(quote) !in items && Ordinary('\\') !in items
    requires At(s, from, RenderItems(items) + [quote])
    ensures StringEnd(s, from, quote) == from + |RenderItems(items)| + 1
    decreases |items|
  {
    if items == [] {
      AtParts(s, from, [quote], "");
      assert RenderItems(items) + [quote] == [quote] + "";
    } else {
      var head := match items[0] case Ordinary(c) => [c] case Escaped(c) => ['\\', c];
      assert RenderItems(items) + [quote] == head + (RenderItems(items[1..]) + [quote]);
      AtParts(s, from, head, RenderItems(items[1..]) + [quote]);
      StringEndsAfterItems(s, from + |head|, items[1..], quote);
      assert items[0] in items;
    }
  }

  lemma {:induction false} LineEndsAfterBody(s: string, from: nat, body: string)
    requires At(s, from, body + "\n") && '\n' !in body
    ensures IndexOf(s, '\n', from) == Some(from + |body|)
    decreases |body|
  {
    if body == "" {
      AtParts(s, from, "\n", "");
      assert body + "\n" == "\n" + "";
    } else {
      assert body + "\n" == [body[0]] + (body[1..] + "\n");
      AtParts(s, from, [body[0]], body[1..] + "\n");
      LineEndsAfterBody(s, from + 1, body[1..]);
    }
  }

  lemma {:induction false} BlockEndsAfterBody(s: string, from: nat, body: string)
    requires At(s, from, body + "*/") && NoBlockEnd(body)
    ensures IndexOfStarSlash(s, from) == Some(from + |body|)
    decreases |body|
  {
    var text := s[from..from + |body + "*/"|];
    assert forall k :: 0 <= k < |text| ==> text[k] == s[from + k];
    if body == "" {
      assert text[0] == '*' && text[1] == '/';
    } else {
      assert body + "*/" == [body[0]] + (body[1..] + "*/");
      AtParts(s, from, [body[0]], body[1..] + "*/");
      assert text[0] == body[0] && text[1] == (body + "*/")[1];
      forall i | 0 <= i < |body[1..]| - 1 ensures !(body[1..][i] == '*' && body[1..][i + 1] == '/') {
        assert body[i + 1] == body[1..][i] && body[i + 2] == body[1..][i + 1];
      }
      BlockEndsAfterBody(s, from + 1, body[1..]);
    }
  }

  // ---------------------------------------------------------------- the scanner passes over what is printed

  lemma ScanSkips(s: string, b: Brackets, i: nat, depth: int)
    requires i < |s| && !IsCode(s, i)
    ensures Scan(s, b, i, depth) == Scan(s, b, Next(s, i), depth)
  {
  }

  lemma ScanReads(s: string, b: Brackets, i: nat, depth: int)
    requires i < |s| && IsCode(s, i) && depth >= 1
    requires s[i] == b.close ==> depth > 1
    ensures Scan(s, b, i, depth) == Scan(s, b, i + 1, depth + Weight(b, s[i]))
  {
  }

  /** Scanning the printed tokens leaves the depth as it was. */
  lemma {:induction false} ScanPassesTokens(s: string, b: Brackets, i: nat, ts: seq<Token>, rest: string, depth: int)
    requires Proper(b) && depth >= 1 && Fits(b, ts, rest) && At(s, i, Render(b, ts) + rest)
    ensures Scan(s, b, i, depth) == Scan(s, b, i + |Render(b, ts)|, depth)
    decreases ts, 1
  {
    hide Scan;
    hide At;
    if ts != [] {
      var head, tail := RenderToken(b, ts[0]), Render(b, ts[1..]) + rest;
      assert Render(b, ts) + rest == head + tail;
      AtParts(s, i, head, tail);
      ScanPassesToken(s, b, i, ts[0], tail, depth);
      ScanPassesTokens(s, b, i + |head|, ts[1..], rest, depth);
    }
  }

  lemma {:induction false} ScanPassesToken(s: string, b: Brackets, i: nat, t: Token, rest: string, depth: int)
    requires Proper(b) && depth >= 1 && TokenFits(b, t, rest) && At(s, i, RenderToken(b, t) + rest)
    ensures Scan(s, b, i, depth) == Scan(s, b, i + |RenderToken(b, t)|, depth)
    decreases t, 0
  {
    hide Scan;
    hide At;
    AtParts(s, i, RenderToken(b, t), rest);
    AtFits(s, i, RenderToken(b, t));
    match t
    case Plain(c) => ScanReads(s, b, i, depth);
    case Slash => SlashIsCode(s, i, rest); ScanReads(s, b, i, depth);
    case Quoted(q, items) => QuotedIsSkipped(s, i, q, items); ScanSkips(s, b, i, depth);
    case LineComment(body) => LineCommentIsSkipped(s, i, body); ScanSkips(s, b, i, depth);
    case BlockComment(body) => BlockCommentIsSkipped(s, i, body); ScanSkips(s, b, i, depth);
    case Group(inner) =>
      AtParts(s, i, [b.open], Render(b, inner) + [b.close]);
      AtParts(s, i + 1, Render(b, inner), [b.close]);
      AtFits(s, i + 1 + |Render(b, inner)|, [b.close]);
      ScanReads(s, b, i, depth);
      ScanPassesTokens(s, b, i + 1, inner, [b.close], depth + 1);
      ScanReads(s, b, i + 1 + |Render(b, inner)|, depth + 1);
  }

  // ---------------------------------------------------------------- agreement

  function Bracketed(b: Brackets, ts: seq<Token>): string {
    RenderToken(b, Group(ts))
  }

  /** Started at a printed group, the scan ends at the group's last character, whatever stands around it. */
  lemma PrintedGroupCloses(s: string, b: Brackets, i: nat, ts: seq<Token>)
    requires Proper(b) && Fits(b, ts, [b.close]) && At(s, i, Bracketed(b, ts))
    ensures Scan(s, b, i, 0) == Some(i + |Bracketed(b, ts)| - 1)
  {
    hide At;
    hide Fits;
    AtFits(s, i, Bracketed(b, ts));
    AtParts(s, i, [b.open], Render(b, ts) + [b.close]);
    AtParts(s, i + 1, Render(b, ts), [b.close]);
    AtFits(s, i + 1 + |Render(b, ts)|, [b.close]);
    ScanPassesTokens(s, b, i + 1, ts, [b.close], 1);
  }

  // ---------------------------------------------------------------- and every scanned group is a printed one

  lemma {:induction false} ClosedStringHasItems(s: string, from: nat, quote: char) returns (items: seq<Item>)
    requires StringEnd(s, from, quote) < |s|
    ensures Ordinary(quote) !in items && Ordinary('\\') !in items
    ensures from < StringEnd(s, from, quote)
    ensures s[from..StringEnd(s, from, quote)] == RenderItems(items) + [quote]
    decreases |s| - from
  {
    var end := StringEnd(s, from, quote);
    if s[from] == '\\' {
      var more := ClosedStringHasItems(s, from + 2, quote);
      items := [Escaped(s[from + 1])] + more;
      assert items[1..] == more;
      assert s[from..end] == ['\\', s[from + 1]] + s[from + 2..end];
    } else if s[from] == quote {
      items := [];
    } else {
      var more := ClosedStringHasItems(s, from + 1, quote);
      items := [Ordinary(s[from])] + more;
      assert items[1..] == more;
      assert s[from..end] == [s[from]] + s[from + 1..end];
    }
  }

  lemma {:induction false} NoLineEndBefore(s: string, from: nat)
    requires IndexOf(s, '\n', from).Some?
    ensures from <= IndexOf(s, '\n', from).value < |s| && s[IndexOf(s, '\n', from).value] == '\n'
    ensures '\n' !in s[from..IndexOf(s, '\n', from).value]
    decreases |s| - from
  {
    IndexOfIsAfter(s, '\n', from);
    if s[from] != '\n' {
      var end := IndexOf(s, '\n', from).value;
      NoLineEndBefore(s, from + 1);
      assert s[from..end] == [s[from]] + s[from + 1..end];
    }
  }

  lemma {:induction false} NoBlockEndBefore(s: string, from: nat)
    requires IndexOfStarSlash(s, from).Some?
    ensures var end := IndexOfStarSlash(s, from).value;
            && from <= end < |s| - 1 && s[end] == '*' && s[end + 1] == '/' && NoBlockEnd(s[from..end])
    decreases |s| - from
  {
    IndexOfIsAfter(s, '\n', from);
    if !(s[from] == '*' && s[from + 1] == '/') {
      var end := IndexOfStarSlash(s, from).value;
      NoBlockEndBefore(s, from + 1);
      forall i | 0 <= i < |s[from..end]| - 1 ensures !(s[from..end][i] == '*' && s[from..end][i + 1] == '/') {
        if i > 0 { assert s[from + 1..end][i - 1] == s[from..end][i] && s[from + 1..end][i] == s[from..end][i + 1]; }
      }
    }
  }

  lemma SliceSplits(s: string, i: nat, m: nat, k: nat)
    requires i <= m <= k <= |s|
    ensures s[i..k] == s[i..m] + s[m..k]
  {
  }

  lemma SkippedString(s: string, b: Brackets, i: nat) returns (t: Token)
    requires i < |s| && IsQuote(s[i]) && Next(s, i) < |s|
    ensures forall rest {:trigger TokenFits(b, t, rest)} :: TokenFits(b, t, rest)
    ensures s[i..Next(s, i)] == RenderToken(b, t)
  {
    hide StringEnd;
    var items := ClosedStringHasItems(s, i + 1, s[i]);
    t := Quoted(s[i], items);
    SliceSplits(s, i, i + 1, Next(s, i));
  }

  lemma SkippedLineComment(s: string, b: Brackets, i: nat) returns (t: Token)
    requires i < |s| && StartsComment(s, i, '/') && Next(s, i) < |s|
    ensures forall rest {:trigger TokenFits(b, t, rest)} :: TokenFits(b, t, rest)
    ensures s[i..Next(s, i)] == RenderToken(b, t)
  {
    hide IndexOf;
    NoLineEndBefore(s, i + 2);
    var at := IndexOf(s, '\n', i + 2).value;
    assert Next(s, i) == at + 1;
    t := LineComment(s[i + 2..at]);
    assert s[i..i + 2] == "//" && s[at..at + 1] == "\n";
    SliceSplits(s, i, i + 2, at + 1);
    SliceSplits(s, i + 2, at, at + 1);
  }

  lemma SkippedBlockComment(s: string, b: Brackets, i: nat) returns (t: Token)
    requires i < |s| && StartsComment(s, i, '*') && Next(s, i) < |s|
    ensures forall rest {:trigger TokenFits(b, t, rest)} :: TokenFits(b, t, rest)
    ensures s[i..Next(s, i)] == RenderToken(b, t)
  {
    hide IndexOfStarSlash, NoBlockEnd, RenderToken;
    NoBlockEndBefore(s, i + 2);
    var at := IndexOfStarSlash(s, i + 2).value;
    assert Next(s, i) == at + 2;
    t := BlockComment(s[i + 2..at]);
    BlockCommentText(s, b, i, at);
  }

  lemma BlockCommentText(s: string, b: Brackets, i: nat, at: nat)
    requires i + 2 <= at && at + 2 <= |s| && s[i] == '/' && s[i + 1] == '*' && s[at] == '*' && s[at + 1] == '/'
    ensures s[i..at + 2] == RenderToken(b, BlockComment(s[i + 2..at]))
  {
    assert s[i..i + 2] == "/*" && s[at..at + 2] == "*/";
    SliceSplits(s, i, i + 2, at + 2);
    SliceSplits(s, i + 2, at, at + 2);
  }

  /** What the scanner steps over, when it does not run off the text, is a printed string or comment. */
  lemma SkippedIsToken(s: string, b: Brackets, i: nat) returns (t: Token)
    requires i < |s| && !IsCode(s, i) && Next(s, i) < |s|
    ensures forall rest {:trigger TokenFits(b, t, rest)} :: TokenFits(b, t, rest)
    ensures s[i..Next(s, i)] == RenderToken(b, t)
  {
    hide TokenFits, Next, RenderToken;
    if IsQuote(s[i]) {
      t := SkippedString(s, b, i);
    } else if StartsComment(s, i, '/') {
      t := SkippedLineComment(s, b, i);
    } else {
      t := SkippedBlockComment(s, b, i);
    }
  }

  /** The text from `i` up to the bracket at `k` that closes the innermost group still to be closed. */
  ghost predicate Inside(s: string, b: Brackets, i: nat, ts: seq<Token>, k: nat) {
    && i <= k < |s| && s[k] == b.close
    && Fits(b, ts, [b.close]) && s[i..k] == Render(b, ts)
  }

  lemma InsideStarts(s: string, b: Brackets, i: nat, ts: seq<Token>, k: nat)
    requires Inside(s, b, i, ts, k)
    ensures Render(b, ts) + [b.close] != "" && (Render(b, ts) + [b.close])[0] == s[i]
  {
    if i < k { assert s[i..k][0] == s[i]; }
  }

  lemma InsideMore(s: string, b: Brackets, i: nat, t: Token, m: nat, ts: seq<Token>, k: nat)
    requires i <= m <= |s| && s[i..m] == RenderToken(b, t)
    requires Inside(s, b, m, ts, k) && TokenFits(b, t, Render(b, ts) + [b.close])
    ensures Inside(s, b, i, [t] + ts, k)
  {
    assert ([t] + ts)[1..] == ts;
    SliceSplits(s, i, m, k);
  }

  /** A scan that finds the end of `depth` open groups has read, up to the first of those ends, printed tokens. */
  lemma {:induction false} ScanReadsTokens(s: string, b: Brackets, i: nat, depth: int)
    returns (ts: seq<Token>, k: nat)
    requires Proper(b) && depth >= 1 && Scan(s, b, i, depth).Some?
    ensures Inside(s, b, i, ts, k) && Scan(s, b, i, depth) == Scan(s, b, k, depth)
    decreases |s| - i
  {
    hide Fits;
    hide Render;
    hide TokenFits;
    hide Inside;
    if !IsCode(s, i) {
      var t := SkippedIsToken(s, b, i);
      ts, k := ScanReadsTokens(s, b, Next(s, i), depth);
      assert TokenFits(b, t, Render(b, ts) + [b.close]);
      InsideMore(s, b, i, t, Next(s, i), ts, k);
      ts := [t] + ts;
    } else if s[i] == b.close {
      ts, k := [], i;
      NothingInside(s, b, i);
    } else {
      ts, k := ScanReadsCode(s, b, i, depth);
    }
  }

  lemma NothingInside(s: string, b: Brackets, i: nat)
    requires i < |s| && s[i] == b.close
    ensures Inside(s, b, i, [], i)
  {
  }

  lemma {:induction false} ScanReadsCode(s: string, b: Brackets, i: nat, depth: int)
    returns (ts: seq<Token>, k: nat)
    requires Proper(b) && depth >= 1 && i < |s| && IsCode(s, i) && s[i] != b.close && Scan(s, b, i, depth).Some?
    ensures Inside(s, b, i, ts, k) && Scan(s, b, i, depth) == Scan(s, b, k, depth)
    decreases |s| - i, 0
  {
    hide Fits;
    hide Scan;
    ScanReads(s, b, i, depth);
    if s[i] == b.open {
      var inner, m := ScanReadsTokens(s, b, i + 1, depth + 1);
      CloseIsCode(s, b, m);
      ScanReads(s, b, m, depth + 1);
      ts, k := ScanReadsTokens(s, b, m + 1, depth);
      assert s[i..m + 1] == [b.open] + (s[i + 1..m] + [b.close]);
      InsideMore(s, b, i, Group(inner), m + 1, ts, k);
      ts := [Group(inner)] + ts;
    } else {
      ts, k := ScanReadsTokens(s, b, i + 1, depth);
      InsideStarts(s, b, i + 1, ts, k);
      var t := if s[i] == '/' then Slash else Plain(s[i]);
      InsideMore(s, b, i, t, i + 1, ts, k);
      ts := [t] + ts;
    }
  }

  lemma CloseIsCode(s: string, b: Brackets, m: nat)
    requires Proper(b) && m < |s| && (s[m] == b.close || s[m] == b.open)
    ensures IsCode(s, m)
  {
  }

  ghost predicate IsGroup(b: Brackets, text: string) {
    exists ts {:trigger Bracketed(b, ts)} :: Fits(b, ts, [b.close]) && text == Bracketed(b, ts)
  }

  lemma OnlyGroupsClose(s: string, b: Brackets, i: nat, j: nat)
    requires Proper(b) && i < |s| && s[i] == b.open && Scan(s, b, i, 0) == Some(j)
    ensures i <= j < |s| && IsGroup(b, s[i..j + 1])
  {
    hide Fits;
    CloseIsCode(s, b, i);
    var ts, k := ScanReadsTokens(s, b, i + 1, 1);
    CloseIsCode(s, b, k);
    assert Scan(s, b, k, 1) == Some(k);
    SliceSplits(s, i, i + 1, k + 1);
    SliceSplits(s, i + 1, k, k + 1);
    assert s[i..i + 1] == [b.open] && s[k..k + 1] == [b.close];
    assert s[i..k + 1] == Bracketed(b, ts);
  }

  lemma GroupCloses(s: string, b: Brackets, i: nat, text: string)
    requires Proper(b) && IsGroup(b, text) && At(s, i, text)
    ensures text != "" && i < |s| && s[i] == b.open && Scan(s, b, i, 0) == Some(i + |text| - 1)
  {
    hide Scan;
    hide Fits;
    hide At;
    var ts :| Fits(b, ts, [b.close]) && text == Bracketed(b, ts);
    AtFits(s, i, text);
    PrintedGroupCloses(s, b, i, ts);
  }

  /** From an opening bracket, the scan ends at `j` exactly when the text up to there is a printed group. */
  lemma ScanFindsExactlyGroups(s: string, b: Brackets, i: nat, j: nat)
    requires Proper(b) && i < |s| && s[i] == b.open
    ensures Scan(s, b, i, 0) == Some(j) <==> i <= j < |s| && IsGroup(b, s[i..j + 1])
  {
    hide Scan;
    hide IsGroup;
    if i <= j < |s| && IsGroup(b, s[i..j + 1]) { GroupCloses(s, b, i, s[i..j + 1]); }
    if Scan(s, b, i, 0) == Some(j) { OnlyGroupsClose(s, b, i, j); }
  }

  // ---------------------------------------------------------------- the call's parentheses

  predicate AllSpaces(w: string) {
    forall c :: c in w ==> IsSpace(c)
  }

  lemma {:induction false} SpacesAreSkipped(s: string, i: nat, w: string)
    requires At(s, i, w) && AllSpaces(w) && i + |w| < |s| && !IsSpace(s[i + |w|])
    ensures SpacesEnd(s, i) == i + |w|
    decreases |w|
  {
    if w != "" {
      assert w == [w[0]] + w[1..];
      AtParts(s, i, [w[0]], w[1..]);
      SpacesAreSkipped(s, i + 1, w[1..]);
    }
  }

  /** No type arguments: the spaces run up to the parenthesis. */
  lemma SpotWithoutTypes(s: string, i: nat, w: string)
    requires At(s, i, w) && AllSpaces(w) && i + |w| < |s| && s[i + |w|] == '('
    ensures ParenSpot(s, i) == i + |w|
  {
    hide Scan;
    hide At;
    SpacesAreSkipped(s, i, w);
    assert SpacesEnd(s, i + |w|) == i + |w|;
  }

  lemma SpotWithTypes(s: string, i: nat, before: string, m: nat, between: string)
    requires At(s, i, before) && AllSpaces(before) && i + |before| < |s| && s[i + |before|] == '<'
    requires Scan(s, ANGLES, i + |before|, 0) == Some(m)
    requires At(s, m + 1, between) && AllSpaces(between) && m + 1 + |between| < |s| && s[m + 1 + |between|] == '('
    ensures ParenSpot(s, i) == m + 1 + |between|
  {
    hide Scan;
    hide At;
    SpacesAreSkipped(s, i, before);
    SpacesAreSkipped(s, m + 1, between);
  }

  /** A call has its parentheses found, from the end of the callee's name to the closing one. */
  lemma CallParensAreFound(s: string, i: nat, between: string, call: string)
    requires AllSpaces(between) && IsGroup(PARENS, call) && At(s, i, between + call)
    ensures var spot := i + |between|;
            ParenSpot(s, i) == spot && spot < |s| && s[spot] == '(' && Scan(s, PARENS, spot, 0) == Some(spot + |call| - 1)
  {
    hide Scan;
    hide At;
    hide IsGroup;
    hide AllSpaces;
    hide ParenSpot;
    AtParts(s, i, between, call);
    GroupCloses(s, PARENS, i + |between|, call);
    SpotWithoutTypes(s, i, between);
  }

  /** The same with type arguments before the parentheses. */
  lemma TypedCallParensAreFound(s: string, i: nat, before: string, types: string, between: string, call: string)
    requires AllSpaces(before) && IsGroup(ANGLES, types) && AllSpaces(between) && IsGroup(PARENS, call)
    requires At(s, i, before + (types + (between + call)))
    ensures var spot := i + |before| + |types| + |between|;
            ParenSpot(s, i) == spot && spot < |s| && s[spot] == '(' && Scan(s, PARENS, spot, 0) == Some(spot + |call| - 1)
  {
    hide Scan;
    hide At;
    hide IsGroup;
    hide AllSpaces;
    hide ParenSpot;
    var m := i + |before| + |types|;
    AtParts(s, i, before, types + (between + call));
    AtParts(s, i + |before|, types, between + call);
    GroupCloses(s, ANGLES, i + |before|, types);
    AtParts(s, m, between, call);
    GroupCloses(s, PARENS, m + |between|, call);
    SpotWithTypes(s, i, before, m - 1, between);
  }

  /** One more ordinary character at the end of printed tokens. */
  lemma {:induction false} FitsWithPlain(b: Brackets, ts: seq<Token>, c: char, rest: string)
    requires Fits(b, ts, [c] + rest) && TokenFits(b, Plain(c), rest)
    ensures Fits(b, ts + [Plain(c)], rest) && Render(b, ts + [Plain(c)]) == Render(b, ts) + [c]
    decreases |ts|
  {
    if ts == [] {
      assert ts + [Plain(c)] == [Plain(c)];
      assert [Plain(c)][1..] == [];
    } else {
      FitsWithPlain(b, ts[1..], c, rest);
      assert (ts + [Plain(c)])[1..] == ts[1..] + [Plain(c)];
      assert Render(b, ts[1..]) + [c] + rest == Render(b, ts[1..]) + ([c] + rest);
    }
  }

  /**
   * The scanner does not know arrows: type arguments in which an arrow follows any printed tokens end at that
   * arrow. Unless a parenthesis follows the arrow at once or after spaces, the call's own is not found.
   */
  lemma ArrowEndsTypeArguments(s: string, i: nat, ts: seq<Token>)
    requires Fits(ANGLES, ts, "=>") && At(s, i, "<" + (Render(ANGLES, ts) + "=>"))
    ensures var end := i + |Render(ANGLES, ts)| + 3;
            && TypeArgumentsEnd(s, i) == end
            && (end < |s| && !IsSpace(s[end]) && s[end] != '(' ==> ParenSpot(s, i) == end && s[ParenSpot(s, i)] != '(')
  {
    hide Fits, At, Scan, Render;
    assert "=>" == ['='] + ">";
    FitsWithPlain(ANGLES, ts, '=', ">");
    assert "<" + (Render(ANGLES, ts) + "=>") == Bracketed(ANGLES, ts + [Plain('=')]);
    PrintedGroupCloses(s, ANGLES, i, ts + [Plain('=')]);
    AtFits(s, i, "<" + (Render(ANGLES, ts) + "=>"));
  }

  /** Such a call: `<()=>T>(x)` is no group of type arguments and parentheses to the scanner. */
  lemma ArrowHidesCall()
    ensures FindsNoParen("<()=>T>(x)", 0)
  {
    var ts := [Plain('('), Plain(')')];
    assert ts[1..][1..] == [];
    assert Render(ANGLES, ts[1..]) == ")";
    assert Render(ANGLES, ts) == "()";
    assert Fits(ANGLES, ts[1..], "=>") && Fits(ANGLES, ts, "=>");
    ArrowEndsTypeArguments("<()=>T>(x)", 0, ts);
  }

  predicate FindsNoParen(s: string, i: nat) {
    ParenSpot(s, i) < |s| ==> s[ParenSpot(s, i)] != '('
  }
}
