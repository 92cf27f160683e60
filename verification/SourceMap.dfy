/**
 * The source-map writer of packages/adapter-shared/src/build.ts against a decoder written from the public
 * format: base64 VLQ (section 6 of ECMA-426) and the mappings field (section 9.2 of ECMA-426).
 */
module SourceMap {
  import opened Prelude
  import opened Text
  import opened Base64Digits

  // ---------------------------------------------------------------- 32-bit conversions

  const WORD: int := 0x1_0000_0000
  const HALF: int := 0x8000_0000

  /** The unsigned 32-bit operand of `>>>`. */
  function ToUint32(x: int): (r: nat)
    ensures r < WORD
  {
    x % WORD
  }

  /** The signed 32-bit operand of `<<` and `&`. */
  function ToInt32(x: int): (r: int)
    ensures -HALF <= r < HALF
  {
    if x % WORD < HALF then x % WORD else x % WORD - WORD
  }

  predicate IsInt32(x: int) {
    -HALF <= x < HALF
  }

  // ---------------------------------------------------------------- the encoder

  /** Base 32, least digit first; a digit that others follow has 32 added. */
  function Digits(u: nat): string {
    if u / 32 > 0 then [Base64(u % 32 + 32)] + Digits(u / 32) else [Base64(u % 32)]
  }

  /** The sign in the lowest bit, under 32-bit shifts. */
  function Shifted(value: int): int {
    if value < 0 then ToInt32(2 * ToInt32(-value)) + 1 else ToInt32(2 * ToInt32(value))
  }

  function Encoded(value: int): string {
    Digits(ToUint32(Shifted(value)))
  }

  lemma WordDivides(x: int)
    ensures ToInt32(x) % 32 == ToUint32(x) % 32
    ensures ToUint32(ToUint32(x) / 32) == ToUint32(x) / 32
  {
    assert x % WORD == ToUint32(x);
  }

  lemma DigitsUnfold(u: nat, encoded: string)
    ensures encoded + Digits(u) == if u / 32 > 0 then encoded + [Base64(u % 32 + 32)] + Digits(u / 32) else encoded + [Base64(u % 32)]
  {
    hide Base64;
  }

  method EncodeVlq(value: int) returns (encoded: string)
    ensures encoded == Encoded(value)
  {
    hide Base64;
    hide Digits;
    hide ToInt32;
    hide ToUint32;
    encoded := "";
    var remaining := if value < 0 then ToInt32(2 * ToInt32(-value)) + 1 else ToInt32(2 * ToInt32(value));
    while true
      invariant encoded + Digits(ToUint32(remaining)) == Encoded(value)
      decreases ToUint32(remaining)
    {
      WordDivides(remaining);
      DigitsUnfold(ToUint32(remaining), encoded);
      var digit := ToInt32(remaining) % 32;
      remaining := ToUint32(remaining) / 32;
      if remaining > 0 { digit := digit + 32; }
      encoded := encoded + [Base64(digit)];
      if !(remaining > 0) { break; }
    }
  }

  // ---------------------------------------------------------------- the decoder

  datatype Decoded = Decoded(value: int, rest: string)

  function DecodeUnsigned(s: string): (r: Option<Decoded>)
    ensures r.Some? ==> |r.value.rest| < |s| && r.value.value >= 0
  {
    if s == "" then None
    else
      match DigitOf(s[0])
      case None => None
      case Some(d) =>
        if d < 32 then Some(Decoded(d, s[1..]))
        else
          match DecodeUnsigned(s[1..])
          case None => None
          case Some(more) => Some(Decoded(d - 32 + 32 * more.value, more.rest))
  }

  /** An odd number is negative; negative zero stands for the least 32-bit integer. */
  function Signed(u: int): int {
    if u % 2 == 0 then u / 2 else if u / 2 == 0 then -HALF else -(u / 2)
  }

  function DecodeVlq(s: string): (r: Option<Decoded>)
    ensures r.Some? ==> |r.value.rest| < |s|
  {
    match DecodeUnsigned(s)
    case None => None
    case Some(u) => Some(Decoded(Signed(u.value), u.rest))
  }

  lemma {:induction false} DigitsAreSelfDelimiting(u: nat, rest: string)
    ensures DecodeUnsigned(Digits(u) + rest) == Some(Decoded(u, rest))
  {
    hide Base64;
    hide DigitOf;
    var s := Digits(u) + rest;
    if u / 32 > 0 {
      DigitsAreInTable(u % 32 + 32);
      DigitsAreSelfDelimiting(u / 32, rest);
      assert s[1..] == Digits(u / 32) + rest;
    } else {
      DigitsAreInTable(u % 32);
      assert s[1..] == rest;
    }
  }

  /** What any integer is encoded as: its distance from zero, modulo 2 to the 31st, and its sign. */
  lemma ShiftedValue(value: int)
    ensures ToUint32(Shifted(value)) == if value < 0 then 2 * (-value % HALF) + 1 else 2 * (value % HALF)
  {
    var m := if value < 0 then -value else value;
    DoubledWord(m);
  }

  lemma DoubledWord(m: nat)
    ensures ToUint32(ToInt32(2 * ToInt32(m))) == 2 * (m % HALF)
    ensures ToUint32(ToInt32(2 * ToInt32(m)) + 1) == 2 * (m % HALF) + 1
  {
    var q := m / WORD;
    var r := m % WORD;
    assert m == WORD * q + r;
    var h := m % HALF;
    assert h == if r < HALF then r else r - HALF by {
      assert m == HALF * (2 * q + (if r < HALF then 0 else 1)) + (if r < HALF then r else r - HALF);
      Remainder(m, HALF, 2 * q + (if r < HALF then 0 else 1), if r < HALF then r else r - HALF);
    }
    var d := 2 * ToInt32(m);
    assert d == (if r < HALF then 2 * h else 2 * h - WORD);
    if r < HALF { Remainder(d, WORD, 0, 2 * h); } else { Remainder(d, WORD, -1, 2 * h); }
    assert d % WORD == 2 * h;
    var t := ToInt32(d);
    if 2 * h < HALF {
      Remainder(t, WORD, 0, 2 * h);
      Remainder(t + 1, WORD, 0, 2 * h + 1);
    } else {
      Remainder(t, WORD, -1, 2 * h);
      Remainder(t + 1, WORD, -1, 2 * h + 1);
    }
  }

  lemma Remainder(x: int, m: int, q: int, r: int)
    requires 0 <= r < m && x == m * q + r
    ensures x % m == r && x / m == q
  {
    var d := x / m - q;
    assert m * d == r - x % m;
    Multiple(m, d);
  }

  lemma Multiple(m: int, d: int)
    requires m > 0
    ensures d > 0 ==> m * d >= m
    ensures d < 0 ==> m * d <= -m
  {
  }

  /** A field read back from the front of any text is what was written, exactly for 32-bit integers. */
  lemma VlqRoundTrip(value: int, rest: string)
    ensures DecodeVlq(Encoded(value) + rest).Some?
    ensures DecodeVlq(Encoded(value) + rest).value.rest == rest
    ensures DecodeVlq(Encoded(value) + rest).value.value == value <==> IsInt32(value)
  {
    hide ToUint32;
    hide Shifted;
    hide Digits;
    hide DecodeUnsigned;
    var u := ToUint32(Shifted(value));
    DigitsAreSelfDelimiting(u, rest);
    ShiftedValue(value);
  }

  // ---------------------------------------------------------------- the writer

  /** One segment a mapped line: column 0, source 0, the line since the last mapped one, column 0. */
  function Segment(delta: int): string {
    Encoded(0) + (Encoded(0) + (Encoded(delta) + Encoded(0)))
  }

  function Segments(lines: seq<Option<int>>, previous: int): seq<string> {
    if lines == [] then []
    else match lines[0]
      case None => [""] + Segments(lines[1..], previous)
      case Some(line) => [Segment(line - previous)] + Segments(lines[1..], line)
  }

  function Mappings(lines: seq<Option<int>>): string {
    Join(Segments(lines, 0), ';')
  }

  lemma SegmentsUnfold(written: seq<string>, lines: seq<Option<int>>, i: nat, previous: int)
    requires i < |lines|
    ensures written + Segments(lines[i..], previous)
            == match lines[i]
               case None => written + [""] + Segments(lines[i + 1..], previous)
               case Some(line) => written + [Segment(line - previous)] + Segments(lines[i + 1..], line)
  {
    hide Segment;
    assert lines[i..][1..] == lines[i + 1..];
  }

  method CreateMappings(sourceLines: seq<Option<int>>) returns (mappings: string)
    ensures mappings == Mappings(sourceLines)
  {
    hide Segments;
    hide Encoded;
    var segments: seq<string> := [];
    var previousSourceLine := 0;
    assert sourceLines[0..] == sourceLines;
    for i := 0 to |sourceLines|
      invariant segments + Segments(sourceLines[i..], previousSourceLine) == Segments(sourceLines, 0)
    {
      SegmentsUnfold(segments, sourceLines, i, previousSourceLine);
      match sourceLines[i]
      case None => segments := segments + [""];
      case Some(sourceLine) =>
        var zero := EncodeVlq(0);
        var delta := EncodeVlq(sourceLine - previousSourceLine);
        segments := segments + [zero + (zero + (delta + zero))];
        previousSourceLine := sourceLine;
    }
    assert sourceLines[|sourceLines|..] == [] && segments + [] == segments;
    NoSegments(previousSourceLine);
    mappings := Join(segments, ';');
  }

  lemma NoSegments(previous: int)
    ensures Segments([], previous) == []
  {
  }

  // ---------------------------------------------------------------- the reader

  datatype Original = Original(source: int, line: int, column: int, name: Option<int>)
  datatype Mapping = Mapping(column: int, original: Option<Original>)

  /** What each field is relative to; the generated column starts over on every line. */
  datatype Position = Position(source: int, line: int, column: int, name: int)
  datatype Line = Line(mappings: seq<Mapping>, end: Position)

  function DecodeFields(segment: string): Option<seq<int>>
    decreases |segment|
  {
    if segment == "" then Some([])
    else match DecodeVlq(segment)
      case None => None
      case Some(field) =>
        match DecodeFields(field.rest)
        case None => None
        case Some(fields) => Some([field.value] + fields)
  }

  function Moved(p: Position, fields: seq<int>): Position {
    if |fields| < 4 then p
    else Position(p.source + fields[1], p.line + fields[2], p.column + fields[3],
                  if |fields| == 5 then p.name + fields[4] else p.name)
  }

  function MappingAt(p: Position, column: int, count: nat): Mapping {
    Mapping(column, if count == 1 then None
                    else Some(Original(p.source, p.line, p.column, if count == 5 then Some(p.name) else None)))
  }

  /** Segments of one, four or five fields; no position is negative. */
  function DecodeSegments(segments: seq<string>, column: int, p: Position): Option<Line>
    decreases |segments|
  {
    if segments == [] then Some(Line([], p))
    else match DecodeFields(segments[0])
      case None => None
      case Some(fields) =>
        if |fields| != 1 && |fields| != 4 && |fields| != 5 then None
        else
          var at := column + fields[0];
          var q := Moved(p, fields);
          if at < 0 || q.source < 0 || q.line < 0 || q.column < 0 || q.name < 0 then None
          else
            match DecodeSegments(segments[1..], at, q)
            case None => None
            case Some(more) => Some(Line([MappingAt(q, at, |fields|)] + more.mappings, more.end))
  }

  function DecodeLine(line: string, p: Position): Option<Line> {
    if line == "" then Some(Line([], p)) else DecodeSegments(Split(line, ','), 0, p)
  }

  function DecodeLines(lines: seq<string>, p: Position): Option<seq<seq<Mapping>>>
    decreases |lines|
  {
    if lines == [] then Some([])
    else match DecodeLine(lines[0], p)
      case None => None
      case Some(line) =>
        match DecodeLines(lines[1..], line.end)
        case None => None
        case Some(more) => Some([line.mappings] + more)
  }

  function DecodeMappings(mappings: string): Option<seq<seq<Mapping>>> {
    DecodeLines(Split(mappings, ';'), Position(0, 0, 0, 0))
  }

  // ---------------------------------------------------------------- the round trip

  /** What the map should say: each mapped line starts at column 0 of its source line. */
  function Intended(lines: seq<Option<int>>): seq<seq<Mapping>> {
    if lines == [] then []
    else [if lines[0].Some? then [Mapping(0, Some(Original(0, lines[0].value, 0, None)))] else []] + Intended(lines[1..])
  }

  /** Every step from one mapped line to the next fits a signed 32-bit integer. */
  predicate StepsFit(lines: seq<Option<int>>, previous: int) {
    lines != [] ==>
      && (lines[0].Some? ==> IsInt32(lines[0].value - previous))
      && StepsFit(lines[1..], if lines[0].Some? then lines[0].value else previous)
  }

  predicate NoneNegative(lines: seq<Option<int>>) {
    forall i :: 0 <= i < |lines| && lines[i].Some? ==> lines[i].value >= 0
  }

  predicate IsBase64(c: char) {
    DigitOf(c).Some?
  }

  lemma {:induction false} DigitsAreBase64(u: nat)
    ensures Digits(u) != "" && forall c <- Digits(u) :: IsBase64(c)
  {
    hide Base64;
    hide DigitOf;
    if u / 32 > 0 {
      DigitsAreInTable(u % 32 + 32);
      DigitsAreBase64(u / 32);
    } else {
      DigitsAreInTable(u % 32);
    }
  }

  lemma SegmentsAreClean(delta: int)
    ensures Segment(delta) != "" && ';' !in Segment(delta) && ',' !in Segment(delta)
  {
    hide Digits;
    hide Shifted;
    DigitsAreBase64(ToUint32(Shifted(0)));
    DigitsAreBase64(ToUint32(Shifted(delta)));
    assert !IsBase64(';') && !IsBase64(',');
  }

  lemma {:induction false} AllSegmentsAreClean(lines: seq<Option<int>>, previous: int)
    ensures |Segments(lines, previous)| == |lines|
    ensures forall part <- Segments(lines, previous) :: ';' !in part
    decreases |lines|
  {
    hide Segment;
    if lines != [] {
      if lines[0].Some? { SegmentsAreClean(lines[0].value - previous); }
      AllSegmentsAreClean(lines[1..], if lines[0].Some? then lines[0].value else previous);
    }
  }

  /** The four fields of a segment are read back as they are, the third exactly for 32-bit steps. */
  lemma SegmentFields(delta: int) returns (read: int)
    ensures DecodeFields(Segment(delta)) == Some([0, 0, read, 0])
    ensures read == delta <==> IsInt32(delta)
  {
    hide DecodeVlq;
    hide Encoded;
    VlqRoundTrip(0, "");
    VlqRoundTrip(delta, Encoded(0) + "");
    read := DecodeVlq(Encoded(delta) + (Encoded(0) + "")).value.value;
    VlqRoundTrip(0, Encoded(delta) + (Encoded(0) + ""));
    VlqRoundTrip(0, Encoded(0) + (Encoded(delta) + (Encoded(0) + "")));
    assert Encoded(0) + "" == Encoded(0);
    FieldFirst(Encoded(0), "", 0, [], [0]);
    FieldFirst(Encoded(delta), Encoded(0), read, [0], [read, 0]);
    FieldFirst(Encoded(0), Encoded(delta) + Encoded(0), 0, [read, 0], [0, read, 0]);
    FieldFirst(Encoded(0), Encoded(0) + (Encoded(delta) + Encoded(0)), 0, [0, read, 0], [0, 0, read, 0]);
  }

  lemma FieldFirst(field: string, rest: string, value: int, more: seq<int>, fields: seq<int>)
    requires DecodeVlq(field + rest) == Some(Decoded(value, rest)) && DecodeFields(rest) == Some(more)
    requires fields == [value] + more
    ensures DecodeFields(field + rest) == Some(fields)
  {
    hide DecodeVlq;
  }

  lemma OneSegment(segment: string, fields: seq<int>, p: Position)
    requires DecodeFields(segment) == Some(fields) && |fields| == 4
    ensures var q := Moved(p, fields);
            DecodeSegments([segment], 0, p)
            == if fields[0] < 0 || q.source < 0 || q.line < 0 || q.column < 0 || q.name < 0 then None
               else Some(Line([MappingAt(q, fields[0], 4)], q))
  {
    hide DecodeFields;
    hide Moved;
    hide MappingAt;
    var q := Moved(p, fields);
    assert [segment][1..] == [];
    assert DecodeSegments([], fields[0], q) == Some(Line([], q));
    assert [MappingAt(q, fields[0], 4)] + [] == [MappingAt(q, fields[0], 4)];
  }

  /** A written line, read back from where the last mapped line left off. */
  lemma SegmentIsRead(delta: int, previous: int) returns (read: int)
    ensures read == delta <==> IsInt32(delta)
    ensures DecodeLine(Segment(delta), Position(0, previous, 0, 0))
            == if previous + read < 0 then None
               else Some(Line([Mapping(0, Some(Original(0, previous + read, 0, None)))], Position(0, previous + read, 0, 0)))
  {
    hide Segment;
    hide DecodeFields;
    hide DecodeSegments;
    SegmentsAreClean(delta);
    SplitOfPart(Segment(delta), ',');
    read := SegmentFields(delta);
    OneSegment(Segment(delta), [0, 0, read, 0], Position(0, previous, 0, 0));
  }

  lemma FirstLine(line: string, rest: seq<string>, p: Position, decoded: Line, first: seq<Mapping>, intended: seq<seq<Mapping>>)
    requires DecodeLine(line, p) == Some(decoded)
    ensures DecodeLines([line] + rest, p) == Some([first] + intended)
            <==> decoded.mappings == first && DecodeLines(rest, decoded.end) == Some(intended)
  {
    hide DecodeLine;
    assert ([line] + rest)[1..] == rest;
    var more := DecodeLines(rest, decoded.end);
    if more.Some? {
      assert ([decoded.mappings] + more.value)[0] == decoded.mappings && ([first] + intended)[0] == first;
      assert ([decoded.mappings] + more.value)[1..] == more.value && ([first] + intended)[1..] == intended;
    }
  }

  lemma {:induction false} LinesAreRead(lines: seq<Option<int>>, previous: int)
    requires NoneNegative(lines) && previous >= 0
    ensures DecodeLines(Segments(lines, previous), Position(0, previous, 0, 0)) == Some(Intended(lines))
            <==> StepsFit(lines, previous)
    decreases |lines|
  {
    hide Segment;
    hide DecodeLine;
    hide DecodeLines;
    var p := Position(0, previous, 0, 0);
    if lines == [] {
      NoLines(p);
    } else {
      match lines[0]
      case None =>
        EmptyLine(p);
        LinesAreRead(lines[1..], previous);
        FirstLine("", Segments(lines[1..], previous), p, Line([], p), [], Intended(lines[1..]));
      case Some(line) =>
        var read := SegmentIsRead(line - previous, previous);
        LinesAreRead(lines[1..], line);
        var first := [Mapping(0, Some(Original(0, line, 0, None)))];
        var rest := Segments(lines[1..], line);
        var decoded := DecodeLine(Segment(line - previous), p);
        if decoded.None? {
          BadLine(Segment(line - previous), rest, p);
        } else {
          FirstLine(Segment(line - previous), rest, p, decoded.value, first, Intended(lines[1..]));
          assert decoded.value.mappings[0].original.value.line == previous + read;
          assert first[0].original.value.line == line;
        }
    }
  }

  lemma NoLines(p: Position)
    ensures DecodeLines([], p) == Some([])
  {
  }

  lemma EmptyLine(p: Position)
    ensures DecodeLine("", p) == Some(Line([], p))
  {
  }

  lemma BadLine(line: string, rest: seq<string>, p: Position)
    requires DecodeLine(line, p) == None
    ensures DecodeLines([line] + rest, p) == None
  {
    assert ([line] + rest)[0] == line;
  }

  /** No lines at all are written like one unmapped line. */
  function Written(lines: seq<Option<int>>): seq<Option<int>> {
    if lines == [] then [None] else lines
  }

  /**
   * The mappings field read back by the format's rules is the list that was written, exactly when no step
   * between mapped lines leaves the signed 32-bit integers.
   */
  lemma MappingsRoundTrip(lines: seq<Option<int>>)
    requires NoneNegative(lines)
    ensures DecodeMappings(Mappings(lines)) == Some(Intended(Written(lines))) <==> StepsFit(lines, 0)
  {
    NoLinesReadAsOne();
    LinesRoundTrip(Written(lines));
  }

  lemma LinesRoundTrip(lines: seq<Option<int>>)
    requires NoneNegative(lines) && lines != []
    ensures DecodeMappings(Mappings(lines)) == Some(Intended(lines)) <==> StepsFit(lines, 0)
  {
    hide Segments;
    hide StepsFit;
    hide DecodeLines;
    AllSegmentsAreClean(lines, 0);
    SplitOfJoin(Segments(lines, 0), ';');
    LinesAreRead(lines, 0);
  }

  lemma NoLinesReadAsOne()
    ensures Mappings([]) == Mappings([None]) && NoneNegative([None]) && StepsFit([None], 0) && StepsFit([], 0)
  {
    var bare: seq<Option<int>> := [None];
    assert bare[1..] == [] && Segments(bare, 0) == [""] + Segments(bare[1..], 0);
  }

  lemma {:induction false} SmallLinesFit(lines: seq<Option<int>>, previous: int)
    requires 0 <= previous < HALF && forall i :: 0 <= i < |lines| && lines[i].Some? ==> 0 <= lines[i].value < HALF
    ensures StepsFit(lines, previous)
    decreases |lines|
  {
    if lines != [] { SmallLinesFit(lines[1..], if lines[0].Some? then lines[0].value else previous); }
  }

  /** Line numbers below 2 to the 31st always survive, downward steps included. */
  lemma SourceMapRoundTrip(lines: seq<Option<int>>)
    requires forall i :: 0 <= i < |lines| && lines[i].Some? ==> 0 <= lines[i].value < HALF
    ensures DecodeMappings(Mappings(lines)) == Some(Intended(Written(lines)))
  {
    hide Mappings;
    hide DecodeMappings;
    hide StepsFit;
    SmallLinesFit(lines, 0);
    MappingsRoundTrip(lines);
  }
}
