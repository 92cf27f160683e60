/**
 * The scanner of packages/adapter-sveltekit/src/preprocess.ts and transform-utils.ts: it walks over source
 * text, steps over strings and comments, and finds the bracket that closes the one it started at.
 */
module SourceScanner {
  import opened Prelude
  import opened Text

  // ---------------------------------------------------------------- steps

  predicate IsQuote(c: char) {
    c == '"' || c == '\'' || c == '`'
  }

  /** The end of a string whose body is being read at `cursor`; past the text when it is not closed. */
  function StringEnd(s: string, cursor: nat, quote: char): (r: nat)
    ensures r >= cursor
    decreases |s| - cursor
  {
    if cursor >= |s| then cursor
    else if s[cursor] == '\\' then StringEnd(s, cursor + 2, quote)
    else if s[cursor] == quote then cursor + 1
    else StringEnd(s, cursor + 1, quote)
  }

  /** `indexOf` of a character. */
  function IndexOf(s: string, c: char, from: nat): Option<nat>
    decreases |s| - from
  {
    if from >= |s| then None else if s[from] == c then Some(from) else IndexOf(s, c, from + 1)
  }

  /** `indexOf` of the end of a block comment. */
  function IndexOfStarSlash(s: string, from: nat): Option<nat>
    decreases |s| - from
  {
    if from + 1 >= |s| then None
    else if s[from] == '*' && s[from + 1] == '/' then Some(from)
    else IndexOfStarSlash(s, from + 1)
  }

  lemma IndexOfIsAfter(s: string, c: char, from: nat)
    ensures IndexOf(s, c, from).Some? ==> from <= IndexOf(s, c, from).value < |s|
    ensures IndexOfStarSlash(s, from).Some? ==> from <= IndexOfStarSlash(s, from).value < |s| - 1
  {
    IndexOfCharIsAfter(s, c, from);
    IndexOfStarSlashIsAfter(s, from);
  }

  lemma {:induction false} IndexOfCharIsAfter(s: string, c: char, from: nat)
    ensures IndexOf(s, c, from).Some? ==> from <= IndexOf(s, c, from).value < |s|
    decreases |s| - from
  {
    if from < |s| && s[from] != c { IndexOfCharIsAfter(s, c, from + 1); }
  }

  lemma {:induction false} IndexOfStarSlashIsAfter(s: string, from: nat)
    ensures IndexOfStarSlash(s, from).Some? ==> from <= IndexOfStarSlash(s, from).value < |s| - 1
    decreases |s| - from
  {
    if from + 1 < |s| { IndexOfStarSlashIsAfter(s, from + 1); }
  }

  function SkipLineComment(s: string, index: nat): nat {
    var end := IndexOf(s, '\n', index + 2);
    if end.None? then |s| else end.value + 1
  }

  function SkipBlockComment(s: string, index: nat): nat {
    var end := IndexOfStarSlash(s, index + 2);
    if end.None? then |s| else end.value + 2
  }

  predicate StartsComment(s: string, cursor: nat, second: char) {
    cursor + 1 < |s| && s[cursor] == '/' && s[cursor + 1] == second
  }

  /** The scanner looks at the character itself: it is outside strings and comments. */
  predicate IsCode(s: string, cursor: nat) {
    cursor < |s| && !IsQuote(s[cursor]) && !StartsComment(s, cursor, '/') && !StartsComment(s, cursor, '*')
  }

  /** Where the scanner looks next. */
  function Next(s: string, cursor: nat): (r: nat)
    requires cursor < |s|
    ensures r > cursor
  {
    IndexOfIsAfter(s, '\n', cursor + 2);
    if IsQuote(s[cursor]) then StringEnd(s, cursor + 1, s[cursor])
    else if StartsComment(s, cursor, '/') then SkipLineComment(s, cursor)
    else if StartsComment(s, cursor, '*') then SkipBlockComment(s, cursor)
    else cursor + 1
  }

  /** A pair of brackets to balance. */
  datatype Brackets = Brackets(open: char, close: char)

  predicate Proper(b: Brackets) {
    && b.open != b.close
    && b.open != '/' && b.close != '/' && !IsQuote(b.open) && !IsQuote(b.close)
  }

  const PARENS := Brackets('(', ')')
  const ANGLES := Brackets('<', '>')

  function Weight(b: Brackets, c: char): int {
    if c == b.open then 1 else if c == b.close then -1 else 0
  }

  /** The scan, from a position and a depth: the closing bracket at which the depth is back to zero. */
  function Scan(s: string, b: Brackets, cursor: nat, depth: int): Option<nat>
    decreases |s| - cursor
  {
    if cursor >= |s| then None
    else if !IsCode(s, cursor) then Scan(s, b, Next(s, cursor), depth)
    else if s[cursor] == b.close && b.open != b.close && depth - 1 == 0 then Some(cursor)
    else Scan(s, b, cursor + 1, depth + Weight(b, s[cursor]))
  }

  // ---------------------------------------------------------------- the loops

  method SkipString(s: string, index: nat, quote: char) returns (r: nat)
    ensures r == StringEnd(s, index + 1, quote)
  {
    var cursor := index + 1;
    while cursor < |s|
      invariant StringEnd(s, cursor, quote) == StringEnd(s, index + 1, quote)
    {
      if s[cursor] == '\\' {
        cursor := cursor + 2;
        continue;
      }
      if s[cursor] == quote {
        return cursor + 1;
      }
      cursor := cursor + 1;
    }
    r := cursor;
  }

  method FindClosing(s: string, b: Brackets, index: nat) returns (r: Option<nat>)
    requires Proper(b)
    ensures r == Scan(s, b, index, 0)
  {
    var depth := 0;
    var cursor := index;
    while cursor < |s|
      invariant Scan(s, b, cursor, depth) == Scan(s, b, index, 0)
      decreases |s| - cursor
    {
      var c := s[cursor];
      if IsQuote(c) {
        cursor := SkipString(s, cursor, c);
        continue;
      }
      if StartsComment(s, cursor, '/') {
        IndexOfIsAfter(s, '\n', cursor + 2);
        cursor := SkipLineComment(s, cursor);
        continue;
      }
      if StartsComment(s, cursor, '*') {
        IndexOfIsAfter(s, '\n', cursor + 2);
        cursor := SkipBlockComment(s, cursor);
        continue;
      }
      if c == b.open {
        depth := depth + 1;
      } else if c == b.close {
        depth := depth - 1;
        if depth == 0 {
          return Some(cursor);
        }
      }
      cursor := cursor + 1;
    }
    r := None;
  }

  method FindClosingParen(s: string, index: nat) returns (r: int)
    ensures r == if Scan(s, PARENS, index, 0).Some? then Scan(s, PARENS, index, 0).value else -1
  {
    var found := FindClosing(s, PARENS, index);
    r := if found.Some? then found.value else -1;
  }

  function TypeArgumentsEnd(s: string, index: nat): nat {
    if index < |s| && s[index] == '<' && Scan(s, ANGLES, index, 0).Some? then Scan(s, ANGLES, index, 0).value + 1 else index
  }

  method SkipTypeArguments(s: string, index: nat) returns (r: nat)
    ensures r == TypeArgumentsEnd(s, index)
  {
    if !(index < |s| && s[index] == '<') {
      return index;
    }
    var found := FindClosing(s, ANGLES, index);
    r := if found.Some? then found.value + 1 else index;
  }

  function SpacesEnd(s: string, cursor: nat): (r: nat)
    ensures r >= cursor
    decreases |s| - cursor
  {
    if cursor < |s| && IsSpace(s[cursor]) then SpacesEnd(s, cursor + 1) else cursor
  }

  method SkipSpaces(s: string, index: nat) returns (r: nat)
    ensures r == SpacesEnd(s, index)
  {
    r := index;
    while r < |s| && IsSpace(s[r])
      invariant SpacesEnd(s, r) == SpacesEnd(s, index)
    {
      r := r + 1;
    }
  }

  /** Where a call's parenthesis must stand: past spaces, type arguments and spaces. */
  function ParenSpot(s: string, index: nat): nat {
    SpacesEnd(s, TypeArgumentsEnd(s, SpacesEnd(s, index)))
  }

  method FindOpeningParen(s: string, index: nat) returns (r: int)
    ensures var spot := ParenSpot(s, index); r == if spot < |s| && s[spot] == '(' then spot else -1
  {
    var cursor := SkipSpaces(s, index);
    cursor := SkipTypeArguments(s, cursor);
    cursor := SkipSpaces(s, cursor);
    r := if cursor < |s| && s[cursor] == '(' then cursor else -1;
  }

  // ---------------------------------------------------------------- what the scan finds

  /** The positions the scanner looks at, outside strings and comments, in order. */
  function Stops(s: string, cursor: nat): seq<nat>
    decreases |s| - cursor
  {
    if cursor >= |s| then []
    else if IsCode(s, cursor) then [cursor] + Stops(s, cursor + 1)
    else Stops(s, Next(s, cursor))
  }

  /** Opening minus closing brackets at some stops. */
  function Balance(s: string, b: Brackets, stops: seq<nat>): int {
    if stops == [] then 0
    else (if stops[0] < |s| then Weight(b, s[stops[0]]) else 0) + Balance(s, b, stops[1..])
  }

  /** The k-th stop is a closing bracket at which everything opened so far, on top of `depth`, is closed. */
  predicate ClosesAt(s: string, b: Brackets, stops: seq<nat>, depth: int, k: nat) {
    k < |stops| && stops[k] < |s| && s[stops[k]] == b.close && depth + Balance(s, b, stops[..k + 1]) == 0
  }

  ghost predicate NoneClosesBefore(s: string, b: Brackets, stops: seq<nat>, depth: int, n: nat) {
    forall j: nat {:trigger ClosesAt(s, b, stops, depth, j)} :: j < n ==> !ClosesAt(s, b, stops, depth, j)
  }

  /** `r` is the first stop at which everything is closed, if any stop is. */
  ghost predicate FirstClose(s: string, b: Brackets, stops: seq<nat>, depth: int, r: Option<nat>) {
    match r
    case Some(at) =>
      exists k: nat {:trigger ClosesAt(s, b, stops, depth, k)} ::
        ClosesAt(s, b, stops, depth, k) && stops[k] == at && NoneClosesBefore(s, b, stops, depth, k)
    case None => NoneClosesBefore(s, b, stops, depth, |stops|)
  }

  lemma NoneClosesBeforeFirst(s: string, b: Brackets, stops: seq<nat>, depth: int)
    ensures NoneClosesBefore(s, b, stops, depth, 0)
  {
  }

  lemma BalanceOfMore(s: string, b: Brackets, at: nat, stops: seq<nat>, k: nat)
    requires at < |s| && k <= |stops|
    ensures Balance(s, b, ([at] + stops)[..k + 1]) == Weight(b, s[at]) + Balance(s, b, stops[..k])
  {
    assert ([at] + stops)[..k + 1] == [at] + stops[..k];
    assert ([at] + stops[..k])[1..] == stops[..k];
  }

  lemma ClosesLater(s: string, b: Brackets, at: nat, stops: seq<nat>, depth: int, k: nat)
    requires at < |s|
    ensures ClosesAt(s, b, [at] + stops, depth, k + 1) <==> ClosesAt(s, b, stops, depth + Weight(b, s[at]), k)
  {
    if k < |stops| { BalanceOfMore(s, b, at, stops, k + 1); }
  }

  lemma ClosesNow(s: string, b: Brackets, at: nat, stops: seq<nat>, depth: int)
    requires at < |s|
    ensures ClosesAt(s, b, [at] + stops, depth, 0) <==> s[at] == b.close && depth + Weight(b, s[at]) == 0
  {
    BalanceOfMore(s, b, at, stops, 0);
  }

  lemma NoneLater(s: string, b: Brackets, at: nat, stops: seq<nat>, depth: int, n: nat)
    requires at < |s| && !ClosesAt(s, b, [at] + stops, depth, 0)
    requires NoneClosesBefore(s, b, stops, depth + Weight(b, s[at]), n)
    ensures NoneClosesBefore(s, b, [at] + stops, depth, n + 1)
  {
    hide ClosesAt;
    forall j: nat | j < n + 1 ensures !ClosesAt(s, b, [at] + stops, depth, j) {
      if j > 0 { ClosesLater(s, b, at, stops, depth, j - 1); }
    }
  }

  lemma FirstCloseLater(s: string, b: Brackets, at: nat, stops: seq<nat>, depth: int, r: Option<nat>)
    requires at < |s| && !ClosesAt(s, b, [at] + stops, depth, 0)
    requires FirstClose(s, b, stops, depth + Weight(b, s[at]), r)
    ensures FirstClose(s, b, [at] + stops, depth, r)
  {
    hide NoneClosesBefore;
    var d := depth + Weight(b, s[at]);
    match r
    case None => NoneLater(s, b, at, stops, depth, |stops|);
    case Some(v) =>
      var k: nat :| ClosesAt(s, b, stops, d, k) && stops[k] == v && NoneClosesBefore(s, b, stops, d, k);
      ClosesLater(s, b, at, stops, depth, k);
      NoneLater(s, b, at, stops, depth, k);
      assert ([at] + stops)[k + 1] == v;
  }

  /**
   * The scan returns the first balanced closing bracket outside strings and comments, and nothing exactly
   * when there is none.
   */
  lemma {:induction false} ScanFindsFirstBalance(s: string, b: Brackets, cursor: nat, depth: int)
    requires Proper(b)
    ensures FirstClose(s, b, Stops(s, cursor), depth, Scan(s, b, cursor, depth))
    decreases |s| - cursor
  {
    hide ClosesAt;
    hide Balance;
    hide NoneClosesBefore;
    if cursor >= |s| {
      NoneClosesBeforeFirst(s, b, [], depth);
    } else if !IsCode(s, cursor) {
      ScanFindsFirstBalance(s, b, Next(s, cursor), depth);
    } else {
      var rest := Stops(s, cursor + 1);
      ClosesNow(s, b, cursor, rest, depth);
      if s[cursor] == b.close && depth - 1 == 0 {
        assert ([cursor] + rest)[0] == cursor;
        NoneClosesBeforeFirst(s, b, [cursor] + rest, depth);
      } else {
        ScanFindsFirstBalance(s, b, cursor + 1, depth + Weight(b, s[cursor]));
        FirstCloseLater(s, b, cursor, rest, depth, Scan(s, b, cursor + 1, depth + Weight(b, s[cursor])));
      }
    }
  }
}
