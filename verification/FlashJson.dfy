/**
 * The text and the bytes of a flash: JSON.stringify on data (RFC 8259), UTF-8, and unpadded base64url
 * (section 5 of RFC 4648), with their exact lengths.
 */
module FlashJson {
  import opened Prelude
  import opened Base64Digits
  import opened FlashValues

  // ---------------------------------------------------------------- text

  function Hex(d: nat): char
    requires d < 16
  {
    if d < 10 then '0' + d as char else 'a' + (d - 10) as char
  }

  function Escape(c: char): string {
    if c == '"' then "\\\"" else if c == '\\' then "\\\\"
    else if c == '\U{0008}' then "\\b" else if c == '\t' then "\\t" else if c == '\n' then "\\n"
    else if c == '\U{000C}' then "\\f" else if c == '\r' then "\\r"
    else if c < ' ' then "\\u00" + [Hex(c as int / 16), Hex(c as int % 16)]
    else [c]
  }

  function EscapeAll(s: string): string {
    if s == "" then "" else Escape(s[0]) + EscapeAll(s[1..])
  }

  function Quote(s: string): string {
    "\"" + EscapeAll(s) + "\""
  }

  /** JSON.stringify. Members that are undefined are taken to be absent; `Other` is never rendered. */
  function Render(v: Value): string
    decreases v
  {
    match v
    case Undefined | Other | Null => "null"
    case Bool(b) => if b then "true" else "false"
    case Num(text) => text
    case Str(s) => Quote(s)
    case Arr(items) => "[" + (RenderItems(items) + "]")
    case Obj(members) => "{" + (RenderMembers(members) + "}")
  }

  function RenderItems(items: seq<Value>): string
    decreases items
  {
    if items == [] then ""
    else if |items| == 1 then Render(items[0])
    else Render(items[0]) + ("," + RenderItems(items[1..]))
  }

  function Pair(m: Member): string
    decreases m
  {
    Quote(m.key) + (":" + Render(m.value))
  }

  function RenderMembers(members: seq<Member>): string
    decreases members
  {
    if members == [] then ""
    else if |members| == 1 then Pair(members[0])
    else Pair(members[0]) + ("," + RenderMembers(members[1..]))
  }

  // ---------------------------------------------------------------- bytes

  type Byte = b: int | 0 <= b < 256

  /** Section 3 of RFC 3629. */
  function Utf8(c: char): seq<Byte> {
    var n := c as int;
    if n < 0x80 then [n]
    else if n < 0x800 then [0xC0 + n / 0x40, 0x80 + n % 0x40]
    else if n < 0x10000 then [0xE0 + n / 0x1000, 0x80 + n / 0x40 % 0x40, 0x80 + n % 0x40]
    else [0xF0 + n / 0x40000, 0x80 + n / 0x1000 % 0x40, 0x80 + n / 0x40 % 0x40, 0x80 + n % 0x40]
  }

  function Encode(s: string): seq<Byte> {
    if s == "" then [] else Utf8(s[0]) + Encode(s[1..])
  }

  /** `Buffer.byteLength`. */
  function ByteLength(s: string): nat {
    |Encode(s)|
  }

  lemma {:induction false} EncodeJoins(a: string, b: string)
    ensures Encode(a + b) == Encode(a) + Encode(b)
  {
    hide Encode;
    if a == "" {
      assert a + b == b;
      EncodeNothing();
    } else {
      EncodeJoins(a[1..], b);
      assert (a + b)[1..] == a[1..] + b && (a + b)[0] == a[0];
      EncodeFirst(a);
      EncodeFirst(a + b);
      assert Utf8(a[0]) + (Encode(a[1..]) + Encode(b)) == (Utf8(a[0]) + Encode(a[1..])) + Encode(b);
    }
  }

  lemma EncodeNothing()
    ensures Encode("") == []
  {
  }

  lemma EncodeFirst(s: string)
    requires s != ""
    ensures Encode(s) == Utf8(s[0]) + Encode(s[1..])
  {
    hide Utf8;
  }

  lemma OneByte(c: char)
    requires c < '\U{0080}'
    ensures ByteLength([c]) == 1
  {
    var s := [c];
    assert s[1..] == "" && |Utf8(c)| == 1;
    assert Encode(s) == Utf8(c) + Encode(s[1..]);
  }

  // ---------------------------------------------------------------- sizes

  function PairBytes(m: Member): nat {
    ByteLength(Pair(m))
  }

  function TotalBytes(members: seq<Member>): nat {
    if members == [] then 0 else PairBytes(members[0]) + TotalBytes(members[1..])
  }

  lemma PairSize(m: Member)
    ensures PairBytes(m) == ByteLength(Quote(m.key)) + 1 + ByteLength(Render(m.value))
  {
    EncodeJoins(":", Render(m.value));
    EncodeJoins(Quote(m.key), ":" + Render(m.value));
    OneByte(':');
  }

  lemma {:induction false} MembersSize(members: seq<Member>)
    ensures ByteLength(RenderMembers(members)) == TotalBytes(members) + Max(0, |members| - 1)
    decreases |members|
  {
    hide Pair;
    if |members| == 1 {
      assert members[1..] == [];
    } else if |members| > 1 {
      MembersSize(members[1..]);
      EncodeJoins(",", RenderMembers(members[1..]));
      EncodeJoins(Pair(members[0]), "," + RenderMembers(members[1..]));
      OneByte(',');
    }
  }

  /** An object takes its two braces, its pairs and the commas between them. */
  lemma ObjectSize(members: seq<Member>)
    ensures ByteLength(Render(Obj(members))) == 2 + TotalBytes(members) + Max(0, |members| - 1)
  {
    hide RenderMembers;
    MembersSize(members);
    EncodeJoins(RenderMembers(members), "}");
    EncodeJoins("{", RenderMembers(members) + "}");
    OneByte('{');
    OneByte('}');
  }

  lemma {:induction false} TotalOfSlices(a: seq<Member>, b: seq<Member>)
    ensures TotalBytes(a + b) == TotalBytes(a) + TotalBytes(b)
    decreases |a|
  {
    hide PairBytes;
    if a == [] {
      assert a + b == b;
    } else {
      TotalOfSlices(a[1..], b);
      assert (a + b)[1..] == a[1..] + b;
    }
  }

  lemma TotalWithout(members: seq<Member>, i: nat)
    requires i < |members|
    ensures var rest := members[..i] + members[i + 1..];
            && multiset(rest) == multiset(members) - multiset{members[i]}
            && TotalBytes(members) == PairBytes(members[i]) + TotalBytes(rest)
  {
    hide PairBytes;
    var tail := [members[i]] + members[i + 1..];
    assert members == members[..i] + tail;
    assert tail[1..] == members[i + 1..];
    TotalOfSlices(members[..i], tail);
    TotalOfSlices(members[..i], members[i + 1..]);
  }

  /** The order of the members does not change the size. */
  lemma {:induction false} OrderKeepsTotal(a: seq<Member>, b: seq<Member>)
    requires multiset(a) == multiset(b)
    ensures TotalBytes(a) == TotalBytes(b) && |a| == |b|
    decreases |a|
  {
    hide PairBytes;
    assert |multiset(a)| == |a| && |multiset(b)| == |b|;
    if a != [] {
      assert a[0] in multiset(b);
      var i :| 0 <= i < |b| && b[i] == a[0];
      TotalWithout(a, 0);
      TotalWithout(b, i);
      OrderKeepsTotal(a[..0] + a[1..], b[..i] + b[i + 1..]);
    }
  }

  // ---------------------------------------------------------------- base64url

  /** Three bytes in four digits; one or two bytes left over in two or three, without padding. */
  function ToBase64Url(bytes: seq<Byte>): string {
    if bytes == [] then ""
    else if |bytes| == 1 then [Base64Url(bytes[0] / 4), Base64Url(bytes[0] % 4 * 16)]
    else if |bytes| == 2 then
      [Base64Url(bytes[0] / 4), Base64Url(bytes[0] % 4 * 16 + bytes[1] / 16), Base64Url(bytes[1] % 16 * 4)]
    else
      [Base64Url(bytes[0] / 4), Base64Url(bytes[0] % 4 * 16 + bytes[1] / 16),
       Base64Url(bytes[1] % 16 * 4 + bytes[2] / 64), Base64Url(bytes[2] % 64)] + ToBase64Url(bytes[3..])
  }

  /** Four digits for three bytes, rounded up. */
  lemma {:induction false} Base64UrlSize(bytes: seq<Byte>)
    ensures |ToBase64Url(bytes)| == (|bytes| * 4 + 2) / 3
  {
    hide Base64Url;
    if |bytes| > 2 { Base64UrlSize(bytes[3..]); }
  }
}
