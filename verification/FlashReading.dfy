/**
 * Reading a flash cookie (packages/adapter-sveltekit/src/index.ts, packages/kernel/src/cookieEncryption.ts):
 * base64url, UTF-8 and JSON read backwards. What was written is what is read, on the page it was written for.
 */
module FlashReading {
  import opened Prelude
  import opened Base64Digits
  import opened FlashValues
  import opened FlashJson
  import opened FlashBudget
  import CookiePath

  // ---------------------------------------------------------------- base64url

  /** Table 2 of section 5 of RFC 4648. */
  function UrlDigitOf(c: char): Option<nat> {
    if 'A' <= c <= 'Z' then Some((c - 'A') as nat)
    else if 'a' <= c <= 'z' then Some((c - 'a') as nat + 26)
    else if '0' <= c <= '9' then Some((c - '0') as nat + 52)
    else if c == '-' then Some(62)
    else if c == '_' then Some(63)
    else None
  }

  lemma UrlDigitsAreInTable(d: nat)
    requires d < 64
    ensures UrlDigitOf(Base64Url(d)) == Some(d)
  {
    DigitsAreInTable(d);
  }

  function DigitsOf(s: string): (ds: Option<seq<nat>>)
    ensures ds.Some? ==> forall i :: 0 <= i < |ds.value| ==> ds.value[i] < 64
  {
    if s == "" then Some([])
    else
      var head, rest := UrlDigitOf(s[0]), DigitsOf(s[1..]);
      if head.None? || rest.None? then None else Some([head.value] + rest.value)
  }

  function First(x: nat, y: nat): Byte
    requires x < 64 && y < 64
  {
    x * 4 + y / 16
  }

  function Second(y: nat, z: nat): Byte
    requires y < 64 && z < 64
  {
    y % 16 * 16 + z / 4
  }

  function Third(z: nat, u: nat): Byte
    requires z < 64 && u < 64
  {
    z % 4 * 64 + u
  }

  /** Six bits a digit; what is left over of the last group has to be zero, as written. */
  function BytesOf(ds: seq<nat>): Option<seq<Byte>>
    requires forall i :: 0 <= i < |ds| ==> ds[i] < 64
    decreases |ds|
  {
    if ds == [] then Some([])
    else if |ds| == 1 then None
    else if |ds| == 2 then if ds[1] % 16 == 0 then Some([First(ds[0], ds[1])]) else None
    else if |ds| == 3 then if ds[2] % 4 == 0 then Some([First(ds[0], ds[1]), Second(ds[1], ds[2])]) else None
    else
      var rest := BytesOf(ds[4..]);
      if rest.None? then None else Some([First(ds[0], ds[1]), Second(ds[1], ds[2]), Third(ds[2], ds[3])] + rest.value)
  }

  function FromBase64Url(s: string): Option<seq<Byte>> {
    var ds := DigitsOf(s);
    if ds.None? then None else BytesOf(ds.value)
  }

  /** The digits of the bytes, before they are written as characters. */
  function Sextets(bytes: seq<Byte>): (ds: seq<nat>)
    ensures forall i :: 0 <= i < |ds| ==> ds[i] < 64
  {
    if bytes == [] then []
    else if |bytes| == 1 then [bytes[0] / 4, bytes[0] % 4 * 16]
    else if |bytes| == 2 then [bytes[0] / 4, bytes[0] % 4 * 16 + bytes[1] / 16, bytes[1] % 16 * 4]
    else [bytes[0] / 4, bytes[0] % 4 * 16 + bytes[1] / 16, bytes[1] % 16 * 4 + bytes[2] / 64, bytes[2] % 64] + Sextets(bytes[3..])
  }

  lemma GroupIsBytes(a: Byte, b: Byte, c: Byte)
    ensures First(a / 4, a % 4 * 16 + b / 16) == a
    ensures Second(a % 4 * 16 + b / 16, b % 16 * 4 + c / 64) == b
    ensures Third(b % 16 * 4 + c / 64, c % 64) == c
  {
  }

  lemma LastGroupIsBytes(a: Byte, b: Byte)
    ensures First(a / 4, a % 4 * 16) == a && a % 4 * 16 % 16 == 0
    ensures Second(a % 4 * 16 + b / 16, b % 16 * 4) == b && b % 16 * 4 % 4 == 0
  {
  }

  lemma {:induction false} SextetsAreBytes(bytes: seq<Byte>)
    ensures BytesOf(Sextets(bytes)) == Some(bytes)
  {
    hide BytesOf, First, Second, Third;
    if bytes == [] {
      NothingIsRead();
    } else if |bytes| == 1 {
      LastGroupIsBytes(bytes[0], 0);
      TwoDigits(bytes[0] / 4, bytes[0] % 4 * 16);
      assert bytes == [bytes[0]];
    } else if |bytes| == 2 {
      GroupIsBytes(bytes[0], bytes[1], 0);
      LastGroupIsBytes(bytes[0], bytes[1]);
      ThreeDigits(bytes[0] / 4, bytes[0] % 4 * 16 + bytes[1] / 16, bytes[1] % 16 * 4);
      assert bytes == [bytes[0], bytes[1]];
    } else if |bytes| > 2 {
      SextetsAreBytes(bytes[3..]);
      GroupIsBytes(bytes[0], bytes[1], bytes[2]);
      FourDigits(bytes[0] / 4, bytes[0] % 4 * 16 + bytes[1] / 16, bytes[1] % 16 * 4 + bytes[2] / 64, bytes[2] % 64,
                 Sextets(bytes[3..]), bytes[3..]);
      assert bytes == [bytes[0], bytes[1], bytes[2]] + bytes[3..];
    }
  }

  lemma NothingIsRead()
    ensures BytesOf([]) == Some([])
  {
  }

  lemma TwoDigits(x: nat, y: nat)
    requires x < 64 && y < 64 && y % 16 == 0
    ensures BytesOf([x, y]) == Some([First(x, y)])
  {
  }

  lemma ThreeDigits(x: nat, y: nat, z: nat)
    requires x < 64 && y < 64 && z < 64 && z % 4 == 0
    ensures BytesOf([x, y, z]) == Some([First(x, y), Second(y, z)])
  {
  }

  lemma FourDigits(x: nat, y: nat, z: nat, u: nat, ds: seq<nat>, rest: seq<Byte>)
    requires x < 64 && y < 64 && z < 64 && u < 64 && (forall i :: 0 <= i < |ds| ==> ds[i] < 64) && BytesOf(ds) == Some(rest)
    ensures BytesOf([x, y, z, u] + ds) == Some([First(x, y), Second(y, z), Third(z, u)] + rest)
  {
    hide First, Second, Third;
    assert ([x, y, z, u] + ds)[4..] == ds;
  }

  function Written(ds: seq<nat>): string
    requires forall i :: 0 <= i < |ds| ==> ds[i] < 64
  {
    if ds == [] then "" else [Base64Url(ds[0])] + Written(ds[1..])
  }

  lemma {:induction false} WrittenDigits(ds: seq<nat>)
    requires forall i :: 0 <= i < |ds| ==> ds[i] < 64
    ensures DigitsOf(Written(ds)) == Some(ds)
  {
    hide Base64Url, UrlDigitOf;
    if ds != [] {
      UrlDigitsAreInTable(ds[0]);
      WrittenDigits(ds[1..]);
      assert Written(ds)[1..] == Written(ds[1..]) && ds == [ds[0]] + ds[1..];
    }
  }

  lemma WrittenFirst(d: nat, ds: seq<nat>)
    requires d < 64 && forall i :: 0 <= i < |ds| ==> ds[i] < 64
    ensures Written([d] + ds) == [Base64Url(d)] + Written(ds)
  {
    hide Base64Url;
    assert ([d] + ds)[1..] == ds;
  }

  lemma {:induction false} WrittenSextets(bytes: seq<Byte>)
    ensures Written(Sextets(bytes)) == ToBase64Url(bytes)
  {
    hide Base64Url, Written;
    var ds := Sextets(bytes);
    NothingWritten();
    if |bytes| == 1 {
      WrittenFirst(ds[1], []);
      WrittenFirst(ds[0], [ds[1]]);
      assert [ds[1]] + [] == [ds[1]] && [ds[0]] + [ds[1]] == ds;
    } else if |bytes| == 2 {
      WrittenFirst(ds[2], []);
      WrittenFirst(ds[1], [ds[2]]);
      WrittenFirst(ds[0], [ds[1], ds[2]]);
      assert [ds[2]] + [] == [ds[2]] && [ds[1]] + [ds[2]] == [ds[1], ds[2]] && [ds[0]] + [ds[1], ds[2]] == ds;
    } else if |bytes| > 2 {
      WrittenSextets(bytes[3..]);
      var rest := Sextets(bytes[3..]);
      WrittenFirst(ds[3], rest);
      WrittenFirst(ds[2], [ds[3]] + rest);
      WrittenFirst(ds[1], [ds[2]] + ([ds[3]] + rest));
      WrittenFirst(ds[0], [ds[1]] + ([ds[2]] + ([ds[3]] + rest)));
      assert ds == [ds[0]] + ([ds[1]] + ([ds[2]] + ([ds[3]] + rest)));
    }
  }

  lemma NothingWritten()
    ensures Written([]) == ""
  {
  }

  /** Reading base64url undoes writing it. */
  lemma Base64UrlRoundTrip(bytes: seq<Byte>)
    ensures FromBase64Url(ToBase64Url(bytes)) == Some(bytes)
  {
    WrittenSextets(bytes);
    WrittenDigits(Sextets(bytes));
    SextetsAreBytes(bytes);
  }

  // ---------------------------------------------------------------- UTF-8

  predicate IsScalar(n: int) {
    0 <= n < 0xD800 || 0xE000 <= n < 0x11_0000
  }

  /** The first scalar value and how many bytes it takes (section 3 of RFC 3629). */
  function FirstScalar(bytes: seq<Byte>): Option<(int, nat)>
    requires bytes != []
  {
    var a: int := bytes[0];
    if a < 0x80 then Some((a, 1))
    else if 0xC0 <= a < 0xE0 && |bytes| > 1 then Some((Bits(a % 0x20, bytes[1]), 2))
    else if 0xE0 <= a < 0xF0 && |bytes| > 2 then Some((Bits(Bits(a % 0x10, bytes[1]), bytes[2]), 3))
    else if 0xF0 <= a && |bytes| > 3 then Some((Bits(Bits(Bits(a % 8, bytes[1]), bytes[2]), bytes[3]), 4))
    else None
  }

  /** Six more bits. */
  function Bits(n: int, next: int): int {
    n * 0x40 + next % 0x40
  }

  function DecodeUtf8(bytes: seq<Byte>): Option<string>
    decreases |bytes|
  {
    if bytes == [] then Some("")
    else
      var first := FirstScalar(bytes);
      if first.None? || !IsScalar(first.value.0) then None
      else
        var rest := DecodeUtf8(bytes[first.value.1..]);
        if rest.None? then None else Some([first.value.0 as char] + rest.value)
  }

  lemma SixBits(n: nat)
    ensures Bits(n / 0x40, 0x80 + n % 0x40) == n && n / 0x1000 == n / 0x40 / 0x40 && n / 0x40000 == n / 0x1000 / 0x40
  {
  }

  lemma ScalarRoundTrip(c: char, rest: seq<Byte>)
    ensures FirstScalar(Utf8(c) + rest) == Some((c as int, |Utf8(c)|)) && IsScalar(c as int) && |Utf8(c)| > 0
  {
    var n := c as int;
    var bytes := Utf8(c) + rest;
    SixBits(n);
    SixBits(n / 0x40);
    SixBits(n / 0x1000);
    hide Bits;
    if n < 0x80 {
    } else if n < 0x800 {
      assert bytes[0] % 0x20 == n / 0x40;
    } else if n < 0x10000 {
      assert bytes[0] % 0x10 == n / 0x1000;
    } else {
      assert bytes[0] % 8 == n / 0x40000;
    }
  }

  lemma {:induction false} Utf8RoundTrip(s: string)
    ensures DecodeUtf8(Encode(s)) == Some(s)
  {
    hide Utf8, FirstScalar;
    if s != "" {
      Utf8RoundTrip(s[1..]);
      ScalarRoundTrip(s[0], Encode(s[1..]));
      assert Encode(s)[|Utf8(s[0])|..] == Encode(s[1..]);
      assert s == [s[0]] + s[1..];
    }
  }

  // ---------------------------------------------------------------- JSON strings

  function HexOf(c: char): Option<int> {
    if '0' <= c <= '9' then Some((c - '0') as int) else if 'a' <= c <= 'f' then Some((c - 'a') as int + 10)
    else if 'A' <= c <= 'F' then Some((c - 'A') as int + 10) else None
  }

  /** The character after a backslash, and how much text it takes (section 7 of RFC 8259). */
  function Unescape(s: string): Option<(char, nat)>
    requires s != ""
  {
    if s[0] == '"' then Some(('"', 1)) else if s[0] == '\\' then Some(('\\', 1)) else if s[0] == '/' then Some(('/', 1))
    else if s[0] == 'b' then Some(('\U{0008}', 1)) else if s[0] == 'f' then Some(('\U{000C}', 1))
    else if s[0] == 'n' then Some(('\U{000A}', 1)) else if s[0] == 'r' then Some(('\U{000D}', 1))
    else if s[0] == 't' then Some(('\U{0009}', 1))
    else if s[0] == 'u' && |s| > 4 && HexOf(s[1]).Some? && HexOf(s[2]).Some? && HexOf(s[3]).Some? && HexOf(s[4]).Some? then
      var n := HexOf(s[1]).value * 0x1000 + HexOf(s[2]).value * 0x100 + HexOf(s[3]).value * 0x10 + HexOf(s[4]).value;
      if IsScalar(n) then Some((n as char, 5)) else None
    else None
  }

  /** A string up to its closing quotation mark, and the text behind it. */
  function ParseString(s: string): (r: Option<(string, string)>)
    ensures r.Some? ==> |r.value.1| < |s|
    decreases |s|
  {
    if s == "" || s[0] < ' ' then None
    else if s[0] == '"' then Some(("", s[1..]))
    else if s[0] != '\\' then
      var rest := ParseString(s[1..]);
      if rest.None? then None else Some(([s[0]] + rest.value.0, rest.value.1))
    else if |s| == 1 || Unescape(s[1..]).None? then None
    else
      var (c, n) := Unescape(s[1..]).value;
      if n + 1 > |s| then None
      else
        var rest := ParseString(s[n + 1..]);
        if rest.None? then None else Some(([c] + rest.value.0, rest.value.1))
  }

  lemma HexRoundTrip(d: nat)
    requires d < 16
    ensures HexOf(Hex(d)) == Some(d)
  {
  }

  lemma EscapedIsRead(c: char, rest: string)
    ensures var s := Escape(c) + rest;
            s != "" && s[0] >= ' ' && s[0] != '"' &&
            if s[0] == '\\' then |s| > 1 && Unescape(s[1..]) == Some((c, |Escape(c)| - 1)) else Escape(c) == [c]
  {
    var s := Escape(c) + rest;
    if c < ' ' {
      HexRoundTrip(c as int / 16);
      HexRoundTrip(c as int % 16);
      HexRoundTrip(0);
    }
    assert s[0] == Escape(c)[0];
  }

  lemma {:induction false} StringRoundTrip(text: string, rest: string)
    ensures ParseString(EscapeAll(text) + ("\"" + rest)) == Some((text, rest))
  {
    hide Escape, Unescape;
    var tail := "\"" + rest;
    if text == "" {
      assert EscapeAll(text) + tail == tail && tail[1..] == rest;
    } else {
      StringRoundTrip(text[1..], rest);
      var more := EscapeAll(text[1..]) + tail;
      EscapedIsRead(text[0], more);
      var s := Escape(text[0]) + more;
      assert EscapeAll(text) + tail == s;
      assert s[|Escape(text[0])|..] == more;
      assert text == [text[0]] + text[1..];
    }
  }

  // ---------------------------------------------------------------- JSON

  predicate IsNumeric(c: char) {
    '0' <= c <= '9' || c == '-' || c == '+' || c == '.' || c == 'e' || c == 'E'
  }

  function NumberEnd(s: string): (n: nat)
    ensures n <= |s|
  {
    if s != "" && IsNumeric(s[0]) then 1 + NumberEnd(s[1..]) else 0
  }

  predicate IsPrefix(word: string, s: string) {
    |word| <= |s| && s[..|word|] == word
  }

  function ParseValue(s: string): (r: Option<(Value, string)>)
    ensures r.Some? ==> |r.value.1| < |s|
    decreases |s|, 1
  {
    if s == "" then None
    else if s[0] == '"' then
      var r := ParseString(s[1..]);
      if r.None? then None else Some((Str(r.value.0), r.value.1))
    else if s[0] == '[' then
      if IsPrefix("[]", s) then Some((Arr([]), s[2..]))
      else
        var r := ParseItems(s[1..]);
        if r.None? then None else Some((Arr(r.value.0), r.value.1))
    else if s[0] == '{' then
      if IsPrefix("{}", s) then Some((Obj([]), s[2..]))
      else
        var r := ParseMembers(s[1..]);
        if r.None? then None else Some((Obj(r.value.0), r.value.1))
    else if IsPrefix("null", s) then Some((Null, s[4..]))
    else if IsPrefix("true", s) then Some((Bool(true), s[4..]))
    else if IsPrefix("false", s) then Some((Bool(false), s[5..]))
    else if IsNumeric(s[0]) then Some((Num(s[..NumberEnd(s)]), s[NumberEnd(s)..]))
    else None
  }

  /** Values separated by commas, up to the closing bracket. */
  function ParseItems(s: string): (r: Option<(seq<Value>, string)>)
    ensures r.Some? ==> |r.value.1| < |s|
    decreases |s|, 2
  {
    var first := ParseValue(s);
    if first.None? || first.value.1 == "" then None
    else
      var (v, after) := first.value;
      if after[0] == ']' then Some(([v], after[1..]))
      else if after[0] == ',' then
        var rest := ParseItems(after[1..]);
        if rest.None? then None else Some(([v] + rest.value.0, rest.value.1))
      else None
  }

  function ParseMember(s: string): (r: Option<(Member, string)>)
    ensures r.Some? ==> |r.value.1| < |s|
    decreases |s|, 0
  {
    if s == "" || s[0] != '"' then None
    else
      var key := ParseString(s[1..]);
      if key.None? || key.value.1 == "" || key.value.1[0] != ':' then None
      else
        var v := ParseValue(key.value.1[1..]);
        if v.None? then None else Some((Member(key.value.0, v.value.0), v.value.1))
  }

  function ParseMembers(s: string): (r: Option<(seq<Member>, string)>)
    ensures r.Some? ==> |r.value.1| < |s|
    decreases |s|, 2
  {
    var first := ParseMember(s);
    if first.None? || first.value.1 == "" then None
    else
      var (m, after) := first.value;
      if after[0] == '}' then Some(([m], after[1..]))
      else if after[0] == ',' then
        var rest := ParseMembers(after[1..]);
        if rest.None? then None else Some(([m] + rest.value.0, rest.value.1))
      else None
  }

  function ParseJson(s: string): Option<Value> {
    var r := ParseValue(s);
    if r.None? || r.value.1 != "" then None else Some(r.value.0)
  }

  /** What JSON has a form for, with numbers given by their text. */
  predicate IsData(v: Value)
    decreases v
  {
    match v
    case Undefined | Other => false
    case Num(text) => text != "" && forall c <- text :: IsNumeric(c)
    case Arr(items) => forall item <- items :: IsData(item)
    case Obj(members) => forall m <- members :: IsDataMember(m)
    case _ => true
  }

  predicate IsDataMember(m: Member)
    decreases m
  {
    IsData(m.value)
  }

  /** No number goes on behind a value. */
  predicate Ends(rest: string) {
    rest == "" || !IsNumeric(rest[0])
  }

  lemma {:induction false} NumberIsRead(text: string, rest: string)
    requires (forall c <- text :: IsNumeric(c)) && Ends(rest)
    ensures NumberEnd(text + rest) == |text|
  {
    if text == "" {
      assert text + rest == rest;
    } else {
      assert text[0] in text && (text + rest)[1..] == text[1..] + rest;
      NumberIsRead(text[1..], rest);
    }
  }

  lemma FirstOfRendered(v: Value, rest: string)
    requires IsData(v)
    ensures Render(v) != "" && Render(v)[0] !in {']', '}', ','}
  {
    match v
    case Num(text) => assert text[0] in text;
    case _ =>
  }

  lemma {:induction false} ValueRoundTrip(v: Value, rest: string)
    requires IsData(v) && Ends(rest)
    ensures ParseValue(Render(v) + rest) == Some((v, rest))
    decreases v, 0
  {
    hide ParseValue, ParseItems, ParseMembers;
    match v {
      case Arr(items) =>
        if items != [] { ItemsRoundTrip(items, rest); }
        ArrayIsRead(items, rest);
      case Obj(members) =>
        if members != [] { MembersRoundTrip(members, rest); }
        ObjectIsRead(members, rest);
      case _ => PlainIsRead(v, rest);
    }
  }

  lemma PlainIsRead(v: Value, rest: string)
    requires IsData(v) && Ends(rest) && !v.Arr? && !v.Obj?
    ensures ParseValue(Render(v) + rest) == Some((v, rest))
  {
    hide ParseString, ParseItems, ParseMembers, EscapeAll;
    var s := Render(v) + rest;
    match v {
      case Null => assert s[..4] == "null" && s[4..] == rest;
      case Bool(b) => if b { assert s[..4] == "true" && s[4..] == rest; } else { assert s[..5] == "false" && s[5..] == rest; }
      case Num(text) =>
        NumberIsRead(text, rest);
        assert text[0] in text && s[0] == text[0] && s[..|text|] == text && s[|text|..] == rest;
        NumericIsNoWord(s);
      case Str(text) =>
        StringRoundTrip(text, rest);
        assert s[1..] == EscapeAll(text) + ("\"" + rest);
    }
  }

  lemma ArrayIsRead(items: seq<Value>, rest: string)
    requires forall item <- items :: IsData(item)
    requires items != [] ==> ParseItems(RenderItems(items) + ("]" + rest)) == Some((items, rest))
    ensures ParseValue(Render(Arr(items)) + rest) == Some((Arr(items), rest))
  {
    hide ParseItems, ParseMembers, ParseString, RenderItems;
    var s := Render(Arr(items)) + rest;
    if items == [] {
      NothingRendered();
      assert s == "[]" + rest && s[..2] == "[]" && s[2..] == rest;
    } else {
      assert s[1..] == RenderItems(items) + ("]" + rest);
      FirstOfItems(items, "]" + rest);
      assert s[..2][1] == s[1] == s[1..][0];
    }
  }

  lemma ObjectIsRead(members: seq<Member>, rest: string)
    requires members != [] ==> ParseMembers(RenderMembers(members) + ("}" + rest)) == Some((members, rest))
    ensures ParseValue(Render(Obj(members)) + rest) == Some((Obj(members), rest))
  {
    hide ParseItems, ParseMembers, ParseString, RenderMembers;
    var s := Render(Obj(members)) + rest;
    if members == [] {
      NothingRendered();
      assert s == "{}" + rest && s[..2] == "{}" && s[2..] == rest;
    } else {
      assert s[1..] == RenderMembers(members) + ("}" + rest);
      FirstOfMembers(members, "}" + rest);
      assert s[..2][1] == s[1] == s[1..][0];
    }
  }

  lemma NothingRendered()
    ensures RenderItems([]) == "" && RenderMembers([]) == ""
  {
  }

  lemma NumericIsNoWord(s: string)
    requires s != "" && IsNumeric(s[0])
    ensures !IsPrefix("null", s) && !IsPrefix("true", s) && !IsPrefix("false", s)
  {
    if |s| >= 5 { assert s[..4][0] == s[0] && s[..5][0] == s[0]; } else if |s| == 4 { assert s[..4][0] == s[0]; }
  }

  lemma FirstOfItems(items: seq<Value>, rest: string)
    requires items != [] && forall item <- items :: IsData(item)
    ensures RenderItems(items) + rest != "" && (RenderItems(items) + rest)[0] != ']'
  {
    FirstOfRendered(items[0], rest);
  }

  lemma FirstOfMembers(members: seq<Member>, rest: string)
    requires members != []
    ensures RenderMembers(members) + rest != "" && (RenderMembers(members) + rest)[0] != '}'
  {
  }

  lemma {:induction false} ItemsRoundTrip(items: seq<Value>, rest: string)
    requires items != [] && forall item <- items :: IsData(item)
    ensures ParseItems(RenderItems(items) + ("]" + rest)) == Some((items, rest))
    decreases items, 1
  {
    hide ParseValue, Render, IsData;
    var end := "]" + rest;
    if |items| == 1 {
      ValueRoundTrip(items[0], end);
      assert end[1..] == rest && items == [items[0]];
    } else {
      var others := items[1..];
      ItemsRoundTrip(others, rest);
      ValueRoundTrip(items[0], "," + (RenderItems(others) + end));
      ItemsAreJoined(items, end);
      OneItemMore(items[0], others, RenderItems(others) + end, rest, RenderItems(items) + end);
    }
  }

  lemma ItemsAreJoined(items: seq<Value>, end: string)
    requires |items| > 1
    ensures RenderItems(items) + end == Render(items[0]) + ("," + (RenderItems(items[1..]) + end))
    ensures items == [items[0]] + items[1..]
  {
    hide Render;
    var a, b := Render(items[0]), RenderItems(items[1..]);
    assert RenderItems(items) == a + ("," + b);
    hide RenderItems;
    JoinAssociates(a, ",", b, end);
  }

  lemma JoinAssociates(a: string, b: string, c: string, d: string)
    ensures (a + (b + c)) + d == a + (b + (c + d))
  {
  }

  lemma OneItemMore(v: Value, others: seq<Value>, tail: string, rest: string, s: string)
    requires ParseValue(s) == Some((v, "," + tail)) && ParseItems(tail) == Some((others, rest))
    ensures ParseItems(s) == Some(([v] + others, rest))
  {
    hide ParseValue;
    assert ("," + tail)[1..] == tail;
  }

  lemma {:induction false} MemberRoundTrip(m: Member, rest: string)
    requires IsDataMember(m) && Ends(rest)
    ensures ParseMember(Pair(m) + rest) == Some((m, rest))
    decreases m, 0
  {
    hide ParseValue, ParseString, Render, EscapeAll;
    var after := ":" + Render(m.value) + rest;
    StringRoundTrip(m.key, after);
    ValueRoundTrip(m.value, rest);
    var s := Pair(m) + rest;
    assert s[1..] == EscapeAll(m.key) + ("\"" + after);
    assert after[1..] == Render(m.value) + rest;
  }

  lemma {:induction false} MembersRoundTrip(members: seq<Member>, rest: string)
    requires members != [] && forall m <- members :: IsDataMember(m)
    ensures ParseMembers(RenderMembers(members) + ("}" + rest)) == Some((members, rest))
    decreases members, 1
  {
    hide ParseMember, Pair, IsDataMember;
    var end := "}" + rest;
    if |members| == 1 {
      MemberRoundTrip(members[0], end);
      assert end[1..] == rest && members == [members[0]];
    } else {
      var others := members[1..];
      MembersRoundTrip(others, rest);
      MemberRoundTrip(members[0], "," + (RenderMembers(others) + end));
      MembersAreJoined(members, end);
      OneMemberMore(members[0], others, RenderMembers(others) + end, rest, RenderMembers(members) + end);
    }
  }

  lemma MembersAreJoined(members: seq<Member>, end: string)
    requires |members| > 1
    ensures RenderMembers(members) + end == Pair(members[0]) + ("," + (RenderMembers(members[1..]) + end))
    ensures members == [members[0]] + members[1..]
  {
    hide Pair;
    var a, b := Pair(members[0]), RenderMembers(members[1..]);
    assert RenderMembers(members) == a + ("," + b);
    hide RenderMembers;
    JoinAssociates(a, ",", b, end);
  }

  lemma OneMemberMore(m: Member, others: seq<Member>, tail: string, rest: string, s: string)
    requires ParseMember(s) == Some((m, "," + tail)) && ParseMembers(tail) == Some((others, rest))
    ensures ParseMembers(s) == Some(([m] + others, rest))
  {
    hide ParseMember;
    assert ("," + tail)[1..] == tail;
  }

  /** Parsing undoes rendering, for every value JSON has a form for. */
  lemma JsonRoundTrip(v: Value)
    requires IsData(v)
    ensures ParseJson(Render(v)) == Some(v)
  {
    ValueRoundTrip(v, "");
    assert Render(v) + "" == Render(v);
  }

  // ---------------------------------------------------------------- the cookie

  /** Opening undoes sealing. */
  ghost predicate Opens(seal: seq<Byte> -> seq<Byte>, open: seq<Byte> -> Option<seq<Byte>>) {
    forall plaintext {:trigger seal(plaintext)} :: open(seal(plaintext)) == Some(plaintext)
  }

  /** `readValidationFlashCookie`, up to its check of the shape. */
  function ReadCookie(value: string, open: seq<Byte> -> Option<seq<Byte>>): Option<seq<Member>> {
    var bytes := FromBase64Url(value);
    if bytes.None? || open(bytes.value).None? then None
    else
      var json := DecodeUtf8(open(bytes.value).value);
      if json.None? then None
      else
        var parsed := ParseJson(json.value);
        if parsed.None? || !parsed.value.Obj? then None else Some(parsed.value.members)
  }

  /** `readValidationFlash`: only on the page the flash was written for. */
  function ReadOn(value: string, pathname: Option<string>, open: seq<Byte> -> Option<seq<Byte>>): Option<seq<Member>> {
    var members := ReadCookie(value, open);
    if members.Some? && HasKey(members.value, "path") && ValueOf(members.value, "path") == Str(CookiePath.SameOrigin(pathname))
    then members else None
  }

  /** What was flashed is what is read back, exactly on the page it was flashed for. */
  lemma FlashIsReadBack(candidate: seq<Member>, paths: Paths, pathname: Option<string>,
                        seal: seq<Byte> -> seq<Byte>, open: seq<Byte> -> Option<seq<Byte>>)
    requires HasKey(candidate, "values") && IsData(Obj(Flashed(candidate, paths))) && Opens(seal, open)
    ensures ReadCookie(Cookie(candidate, paths, seal), open) == Some(Flashed(candidate, paths))
    ensures ReadOn(Cookie(candidate, paths, seal), pathname, open)
            == if CookiePath.SameOrigin(pathname) == paths.page then Some(Flashed(candidate, paths)) else None
  {
    hide Flashed, IsData, Render, Encode, ToBase64Url, FromBase64Url, DecodeUtf8, ParseJson, CookiePath.SameOrigin, HasKey, ValueOf;
    var flashed := Obj(Flashed(candidate, paths));
    var plaintext := Encode(Render(flashed));
    Base64UrlRoundTrip(seal(plaintext));
    Utf8RoundTrip(Render(flashed));
    JsonRoundTrip(flashed);
    FlashedPath(candidate, paths);
  }

  lemma FlashedPath(candidate: seq<Member>, paths: Paths)
    requires HasKey(candidate, "values")
    ensures var f := Flashed(candidate, paths);
            && HasKey(f, "path") && ValueOf(f, "path") == Str(paths.page)
            && HasKey(f, "cookiePath") && ValueOf(f, "cookiePath") == Str(paths.cookie)
  {
    hide SetMember, HasKey, ValueOf;
    var values := match ValueOf(candidate, "values") case Obj(members) => members case _ => [];
    var one := SetMember(candidate, "values", Obj(FilterMembers(values)));
    var two := SetMember(one, "path", Str(paths.page));
    SetThenGet(one, "path", Str(paths.page), "path");
    SetThenGet(two, "cookiePath", Str(paths.cookie), "path");
    SetThenGet(two, "cookiePath", Str(paths.cookie), "cookiePath");
  }
}
