/**
 * Old input kept for a redisplayed form: which submitted values may be flashed
 * (packages/adapter-sveltekit/src/index.ts).
 */
module FlashValues {
  import opened Prelude
  import opened Text

  /** A submitted value; `Other` is anything JSON has no form for: a file, a date, a function, a class instance. */
  datatype Value =
    | Undefined
    | Other
    | Null
    | Bool(b: bool)
    | Num(text: string)
    | Str(s: string)
    | Arr(items: seq<Value>)
    | Obj(members: seq<Member>)

  datatype Member = Member(key: string, value: Value)

  // ---------------------------------------------------------------- sensitive keys

  /** Lower case, as far as the letters A to Z are concerned; U+212A is the only other sign that becomes one of them. */
  function Lower(c: char): char {
    if 'A' <= c <= 'Z' then 'a' + (c - 'A') else if c == '\U{212A}' then 'k' else c
  }

  function Squeezed(key: string): string {
    if key == "" then ""
    else if key[0] == '-' || key[0] == '_' || IsSpace(key[0]) then Squeezed(key[1..])
    else [Lower(key[0])] + Squeezed(key[1..])
  }

  predicate Includes(s: string, word: string) {
    exists i {:trigger s[i..]} :: 0 <= i <= |s| - |word| && StartsWith(s[i..], word)
  }

  predicate IsSensitive(key: string) {
    var normalized := Squeezed(key);
    || StartsWith(TrimStart(key), "_")
    || Includes(normalized, "password")
    || Includes(normalized, "token")
    || Includes(normalized, "secret")
    || Includes(normalized, "credential")
  }

  // ---------------------------------------------------------------- the filter

  function FilterValue(v: Value): Value
    decreases v
  {
    match v
    case Arr(items) => Arr(FilterItems(items))
    case Obj(members) => Obj(FilterMembers(members))
    case Undefined | Other => Undefined
    case _ => v
  }

  function FilterItems(items: seq<Value>): seq<Value>
    decreases items
  {
    if items == [] then []
    else
      var next := FilterValue(items[0]);
      (if next == Undefined then [] else [next]) + FilterItems(items[1..])
  }

  function FilterMembers(members: seq<Member>): seq<Member>
    decreases members
  {
    if members == [] then []
    else
      var m := members[0];
      var next := FilterValue(m.value);
      (if IsSensitive(m.key) || next == Undefined then [] else [Member(m.key, next)]) + FilterMembers(members[1..])
  }

  lemma ItemsFrom(kept: seq<Value>, items: seq<Value>, i: nat)
    requires i < |items|
    ensures var next := FilterValue(items[i]);
            kept + FilterItems(items[i..])
            == (if next == Undefined then kept else kept + [next]) + FilterItems(items[i + 1..])
  {
    hide FilterValue;
    assert items[i..][1..] == items[i + 1..] && items[i..][0] == items[i];
  }

  lemma MembersFrom(kept: seq<Member>, members: seq<Member>, i: nat)
    requires i < |members|
    ensures var m := members[i]; var next := FilterValue(m.value);
            kept + FilterMembers(members[i..])
            == (if IsSensitive(m.key) || next == Undefined then kept else kept + [Member(m.key, next)]) + FilterMembers(members[i + 1..])
  {
    hide FilterValue;
    hide IsSensitive;
    assert members[i..][1..] == members[i + 1..] && members[i..][0] == members[i];
  }

  lemma NothingFrom(kept: seq<Value>, filtered: seq<Member>)
    ensures kept + FilterItems([]) == kept && filtered + FilterMembers([]) == filtered
  {
  }

  method FilterFlashValue(value: Value) returns (r: Value)
    ensures r == FilterValue(value)
    decreases value, 1
  {
    hide FilterItems;
    hide FilterMembers;
    match value
    case Arr(items) =>
      var kept: seq<Value> := [];
      assert items[0..] == items;
      for i := 0 to |items|
        invariant kept + FilterItems(items[i..]) == FilterItems(items)
      {
        ItemsFrom(kept, items, i);
        var next := FilterFlashValue(items[i]);
        if next != Undefined { kept := kept + [next]; }
      }
      assert items[|items|..] == [];
      NothingFrom(kept, []);
      r := Arr(kept);
    case Obj(members) =>
      var filtered := FilterFlashValues(members);
      r := Obj(filtered);
    case Undefined => r := Undefined;
    case Other => r := Undefined;
    case _ => r := value;
  }

  method FilterFlashValues(values: seq<Member>) returns (filtered: seq<Member>)
    ensures filtered == FilterMembers(values)
    decreases values, 0
  {
    hide FilterMembers;
    hide FilterValue;
    hide IsSensitive;
    filtered := [];
    assert values[0..] == values;
    for i := 0 to |values|
      invariant filtered + FilterMembers(values[i..]) == FilterMembers(values)
    {
      MembersFrom(filtered, values, i);
      if IsSensitive(values[i].key) { continue; }
      var next := FilterFlashValue(values[i].value);
      if next != Undefined { filtered := filtered + [Member(values[i].key, next)]; }
    }
    assert values[|values|..] == [];
    NothingFrom([], filtered);
  }

  // ---------------------------------------------------------------- what the filter leaves

  /** JSON data with no sensitive key at any depth. */
  predicate IsClean(v: Value)
    decreases v
  {
    match v
    case Arr(items) => forall item <- items :: IsClean(item)
    case Obj(members) => forall m <- members :: IsCleanMember(m)
    case Undefined | Other => false
    case _ => true
  }

  predicate IsCleanMember(m: Member)
    decreases m
  {
    !IsSensitive(m.key) && IsClean(m.value)
  }

  predicate AllClean(members: seq<Member>) {
    forall m <- members :: IsCleanMember(m)
  }

  lemma {:induction false} FilteredIsClean(v: Value)
    ensures FilterValue(v) == Undefined || IsClean(FilterValue(v))
    ensures IsClean(v) ==> FilterValue(v) == v != Undefined
    decreases v
  {
    hide IsSensitive;
    match v
    case Arr(items) => FilteredItemsAreClean(items);
    case Obj(members) => FilteredMembersAreClean(members);
    case _ =>
  }

  lemma {:induction false} FilteredItemsAreClean(items: seq<Value>)
    ensures forall item <- FilterItems(items) :: IsClean(item)
    ensures (forall item <- items :: IsClean(item)) ==> FilterItems(items) == items
    decreases items
  {
    hide IsSensitive;
    if items != [] {
      FilteredIsClean(items[0]);
      FilteredItemsAreClean(items[1..]);
      assert items == [items[0]] + items[1..];
    }
  }

  lemma {:induction false} FilteredMembersAreClean(members: seq<Member>)
    ensures AllClean(FilterMembers(members))
    ensures AllClean(members) ==> FilterMembers(members) == members
    decreases members
  {
    hide IsSensitive;
    if members != [] {
      FilteredIsClean(members[0].value);
      FilteredMembersAreClean(members[1..]);
      assert members == [members[0]] + members[1..];
      assert AllClean(members) ==> IsCleanMember(members[0]) && AllClean(members[1..]);
    }
  }

  /** Filtering leaves exactly the clean values alone, at every depth; a second pass changes nothing. */
  lemma FilterIsIdempotent(v: Value)
    ensures FilterValue(FilterValue(v)) == FilterValue(v)
    ensures v != Undefined ==> (FilterValue(v) == v <==> IsClean(v))
  {
    FilteredIsClean(v);
    FilteredIsClean(FilterValue(v));
  }

  predicate KeptAs(from: Member, m: Member) {
    from.key == m.key && !IsSensitive(m.key) && m.value == FilterValue(from.value) != Undefined
  }

  /** A member is flashed exactly when its key is not sensitive and its value has a JSON form. */
  lemma {:induction false} FilterKeeps(members: seq<Member>, m: Member)
    ensures m in FilterMembers(members) <==> exists from {:trigger KeptAs(from, m)} :: from in members && KeptAs(from, m)
    decreases |members|
  {
    hide IsSensitive;
    hide FilterValue;
    if members != [] {
      FilterKeeps(members[1..], m);
      assert members == [members[0]] + members[1..];
      assert FilterMembers(members)
             == (if KeptAs(members[0], Member(members[0].key, FilterValue(members[0].value)))
                 then [Member(members[0].key, FilterValue(members[0].value))] else []) + FilterMembers(members[1..]);
      if KeptAs(members[0], m) { assert m == Member(members[0].key, FilterValue(members[0].value)); }
    }
  }

  // ---------------------------------------------------------------- which keys are sensitive

  /** What `replace(/[-_\s]/g, '')` takes out. */
  predicate IsSeparator(c: char) {
    c in {'-', '_'} || IsSpace(c)
  }

  lemma {:induction false} SqueezedJoins(a: string, b: string)
    ensures Squeezed(a + b) == Squeezed(a) + Squeezed(b)
  {
    hide Lower;
    if a == "" {
      assert a + b == b;
    } else {
      SqueezedJoins(a[1..], b);
      assert (a + b)[1..] == a[1..] + b && (a + b)[0] == a[0];
    }
  }

  /** Letter by letter: separators go, capitals become small letters, and everything else stays. */
  lemma SqueezedOne(c: char)
    ensures IsSeparator(c) ==> Squeezed([c]) == ""
    ensures !IsSeparator(c) && 'A' <= c <= 'Z' ==> Squeezed([c]) == [c + ' '] && 'a' <= c + ' ' <= 'z'
    ensures !IsSeparator(c) && !('A' <= c <= 'Z') && c != '\U{212A}' ==> Squeezed([c]) == [c]
  {
    assert [c][1..] == "";
  }

  lemma IncludesParts(s: string, word: string)
    ensures Includes(s, word) <==> exists a, b :: s == a + word + b
  {
    if Includes(s, word) {
      var i :| 0 <= i <= |s| - |word| && StartsWith(s[i..], word);
      assert s == s[..i] + word + s[i + |word|..];
    }
    if a, b :| s == a + word + b {
      assert s[|a|..] == word + b;
      assert StartsWith(s[|a|..], word);
    }
  }

  /** The key's letters, squeezed, have one of the words in them. */
  ghost predicate Names(key: string, word: string) {
    exists a, b :: Squeezed(key) == a + word + b
  }

  /**
   * A key is sensitive exactly when it begins, after spaces, with an underscore, or when its squeezed letters have
   * "password", "token", "secret" or "credential" in them.
   */
  lemma SensitiveExactly(key: string)
    ensures IsSensitive(key)
            <==> (TrimStart(key) != "" && TrimStart(key)[0] == '_')
                 || Names(key, "password") || Names(key, "token") || Names(key, "secret") || Names(key, "credential")
  {
    hide Includes, Squeezed;
    IncludesParts(Squeezed(key), "password");
    IncludesParts(Squeezed(key), "token");
    IncludesParts(Squeezed(key), "secret");
    IncludesParts(Squeezed(key), "credential");
    assert StartsWith(TrimStart(key), "_") <==> TrimStart(key) != "" && TrimStart(key)[0] == '_' by {
      if TrimStart(key) != "" { assert TrimStart(key)[..1] == [TrimStart(key)[0]]; }
    }
  }

  /** Whatever stands around it, and whatever separators stand in it, a name with a word in it is sensitive. */
  lemma WordsAreFound(before: string, first: string, separator: char, second: string, after: string, word: string)
    requires word in {"password", "token", "secret", "credential"} && first + second == word && IsSeparator(separator)
    ensures IsSensitive(before + (first + ([separator] + (second + after))))
  {
    hide Squeezed, IsSensitive, IsSpace;
    SqueezedJoins(second, after);
    SqueezedJoins([separator], second + after);
    SqueezedJoins(first, [separator] + (second + after));
    SqueezedJoins(before, first + ([separator] + (second + after)));
    SqueezedJoins(first, second);
    SqueezedOne(separator);
    WordsStay(word);
    var key := before + (first + ([separator] + (second + after)));
    assert Squeezed(key) == Squeezed(before) + word + Squeezed(after);
    SensitiveExactly(key);
  }

  lemma WordsStay(word: string)
    requires word in {"password", "token", "secret", "credential"}
    ensures Squeezed(word) == word
  {
    SmallLettersStay(word);
  }

  lemma {:induction false} SmallLettersStay(word: string)
    requires forall c <- word :: 'a' <= c <= 'z'
    ensures Squeezed(word) == word
  {
    if word != "" {
      assert word[0] in word && word == [word[0]] + word[1..];
      forall c | c in word[1..] ensures c in word { }
      SmallLettersStay(word[1..]);
    }
  }

  // ---------------------------------------------------------------- filtering, one by one

  /** Filtering a list is filtering its parts. */
  lemma {:induction false} FilterJoins(a: seq<Value>, b: seq<Value>)
    ensures FilterItems(a + b) == FilterItems(a) + FilterItems(b)
  {
    hide FilterValue;
    if a == [] {
      assert a + b == b;
    } else {
      FilterJoins(a[1..], b);
      assert (a + b)[1..] == a[1..] + b && (a + b)[0] == a[0];
    }
  }

  lemma {:induction false} FilterMembersJoins(a: seq<Member>, b: seq<Member>)
    ensures FilterMembers(a + b) == FilterMembers(a) + FilterMembers(b)
  {
    hide FilterValue, IsSensitive;
    if a == [] {
      assert a + b == b;
    } else {
      FilterMembersJoins(a[1..], b);
      assert (a + b)[1..] == a[1..] + b && (a + b)[0] == a[0];
    }
  }

  /** And one part is kept as it is, filtered inside, or dropped: an order and a number of members nobody changes. */
  lemma FilterOfOne(v: Value, m: Member)
    ensures FilterItems([v]) == if v.Undefined? || v.Other? then [] else [FilterValue(v)]
    ensures FilterMembers([m])
            == if IsSensitive(m.key) || m.value.Undefined? || m.value.Other? then [] else [Member(m.key, FilterValue(m.value))]
    ensures v.Null? || v.Bool? || v.Num? || v.Str? ==> FilterValue(v) == v
    ensures v.Arr? ==> FilterValue(v) == Arr(FilterItems(v.items))
    ensures v.Obj? ==> FilterValue(v) == Obj(FilterMembers(v.members))
  {
    hide IsSensitive;
    assert [v][1..] == [] && [m][1..] == [];
  }
}
