/**
 * The size of a flash cookie, computed before anything is encrypted, against the size of the cookie that is
 * then written (packages/adapter-sveltekit/src/index.ts, packages/kernel/src/cookieEncryption.ts).
 */
module FlashBudget {
  import opened Prelude
  import opened Base64Digits
  import opened FlashJson
  import opened FlashValues

  // ---------------------------------------------------------------- object spread

  /** `{...members, key: value}`: in place when the key is there, else at the end. */
  function SetMember(members: seq<Member>, key: string, value: Value): seq<Member> {
    if members == [] then [Member(key, value)]
    else if members[0].key == key then [Member(key, value)] + members[1..]
    else [members[0]] + SetMember(members[1..], key, value)
  }

  predicate HasKey(members: seq<Member>, key: string) {
    members != [] && (members[0].key == key || HasKey(members[1..], key))
  }

  function ValueOf(members: seq<Member>, key: string): Value
    requires HasKey(members, key)
  {
    if members[0].key == key then members[0].value else ValueOf(members[1..], key)
  }

  lemma {:induction false} SetThenGet(members: seq<Member>, key: string, value: Value, other: string)
    ensures HasKey(SetMember(members, key, value), other) <==> other == key || HasKey(members, other)
    ensures HasKey(SetMember(members, key, value), other) ==>
              ValueOf(SetMember(members, key, value), other) == if other == key then value else ValueOf(members, other)
    decreases |members|
  {
    if members != [] { SetThenGet(members[1..], key, value, other); }
  }

  lemma {:induction false} SetTwice(members: seq<Member>, key: string, a: Value, b: Value)
    ensures SetMember(SetMember(members, key, a), key, b) == SetMember(members, key, b)
    decreases |members|
  {
    if members != [] { SetTwice(members[1..], key, a, b); }
  }

  lemma {:induction false} SetSame(members: seq<Member>, key: string)
    requires HasKey(members, key)
    ensures SetMember(members, key, ValueOf(members, key)) == members
    decreases |members|
  {
    if members[0].key != key { SetSame(members[1..], key); }
    assert members == [members[0]] + members[1..];
  }

  lemma {:induction false} SetSwap(members: seq<Member>, key: string, a: Value, other: string, b: Value)
    requires key != other && HasKey(members, key)
    ensures SetMember(SetMember(members, key, a), other, b) == SetMember(SetMember(members, other, b), key, a)
    decreases |members|
  {
    if members[0].key != key && members[0].key != other { SetSwap(members[1..], key, a, other, b); }
  }

  /** Replacing a value changes the size by the difference of the two values. */
  lemma {:induction false} SetSize(members: seq<Member>, key: string, value: Value)
    requires HasKey(members, key)
    ensures |SetMember(members, key, value)| == |members|
    ensures TotalBytes(SetMember(members, key, value)) + ByteLength(Render(ValueOf(members, key)))
            == TotalBytes(members) + ByteLength(Render(value))
    decreases |members|
  {
    hide ByteLength;
    hide Render;
    hide PairBytes;
    var updated := SetMember(members, key, value);
    if members[0].key == key {
      PairSize(members[0]);
      PairSize(Member(key, value));
      assert updated[1..] == members[1..];
    } else {
      SetSize(members[1..], key, value);
      assert updated[1..] == SetMember(members[1..], key, value);
    }
  }

  // ---------------------------------------------------------------- the payload and what is encoded

  datatype Paths = Paths(page: string, cookie: string)

  /** A serialized validation failure: values are an object, errors an object of lists of messages. */
  predicate IsPayload(members: seq<Member>) {
    && HasKey(members, "values") && ValueOf(members, "values").Obj?
    && HasKey(members, "errors") && ValueOf(members, "errors").Obj?
    && forall m <- ValueOf(members, "errors").members :: m.value.Arr?
  }

  function Stamp(members: seq<Member>, paths: Paths): seq<Member> {
    SetMember(SetMember(members, "path", Str(paths.page)), "cookiePath", Str(paths.cookie))
  }

  function Candidate(payload: seq<Member>, values: seq<Member>, errors: Value): seq<Member> {
    SetMember(SetMember(payload, "values", Obj(values)), "errors", errors)
  }

  /** What is encoded: the candidate with its values filtered (again) and the paths. */
  function Flashed(candidate: seq<Member>, paths: Paths): seq<Member>
    requires HasKey(candidate, "values")
  {
    var values := match ValueOf(candidate, "values") case Obj(members) => members case _ => [];
    Stamp(SetMember(candidate, "values", Obj(FilterMembers(values))), paths)
  }

  function Frame(payload: seq<Member>, paths: Paths): int {
    ByteLength(Render(Obj(Stamp(Candidate(payload, [], Obj([])), paths)))) - 4
  }

  function Estimate(frame: int, remainingBytes: int, remainingCount: int, errorsBytes: int): int {
    frame + 2 + remainingBytes + Max(0, remainingCount - 1) + errorsBytes
  }

  lemma CandidateKeys(payload: seq<Member>, values: seq<Member>, errors: Value)
    ensures var c := Candidate(payload, values, errors);
            && HasKey(c, "values") && ValueOf(c, "values") == Obj(values)
            && HasKey(c, "errors") && ValueOf(c, "errors") == errors
  {
    var one := SetMember(payload, "values", Obj(values));
    SetThenGet(payload, "values", Obj(values), "values");
    SetThenGet(one, "errors", errors, "values");
    SetThenGet(one, "errors", errors, "errors");
  }

  /** Clean values pass the encoder's filter unchanged, so the candidate is encoded as it is. */
  lemma CleanCandidateIsFlashed(payload: seq<Member>, kept: seq<Member>, errors: Value, paths: Paths)
    requires AllClean(kept)
    ensures var c := Candidate(payload, kept, errors); HasKey(c, "values") && Flashed(c, paths) == Stamp(c, paths)
  {
    hide FilterMembers;
    hide SetMember;
    hide AllClean;
    CandidateKeys(payload, kept, errors);
    FilteredMembersAreClean(kept);
    SetSame(Candidate(payload, kept, errors), "values");
  }

  lemma StampSwaps(members: seq<Member>, key: string, value: Value, paths: Paths)
    requires HasKey(members, key) && key != "path" && key != "cookiePath"
    ensures HasKey(Stamp(members, paths), key) && ValueOf(Stamp(members, paths), key) == ValueOf(members, key)
    ensures Stamp(SetMember(members, key, value), paths) == SetMember(Stamp(members, paths), key, value)
  {
    hide SetMember;
    hide HasKey;
    hide ValueOf;
    var one := SetMember(members, "path", Str(paths.page));
    SetThenGet(members, "path", Str(paths.page), key);
    SetThenGet(one, "cookiePath", Str(paths.cookie), key);
    SetSwap(members, key, value, "path", Str(paths.page));
    SetSwap(one, key, value, "cookiePath", Str(paths.cookie));
  }

  /** The candidate is the empty candidate with its two values replaced. */
  lemma CandidateFromEmpty(payload: seq<Member>, kept: seq<Member>, errors: Value)
    ensures Candidate(payload, kept, errors)
            == SetMember(SetMember(Candidate(payload, [], Obj([])), "values", Obj(kept)), "errors", errors)
  {
    hide SetMember;
    hide HasKey;
    hide ValueOf;
    var one := SetMember(payload, "values", Obj([]));
    SetThenGet(payload, "values", Obj([]), "values");
    SetSwap(one, "values", Obj(kept), "errors", Obj([]));
    SetTwice(payload, "values", Obj([]), Obj(kept));
    SetTwice(SetMember(payload, "values", Obj(kept)), "errors", Obj([]), errors);
  }

  lemma EmptyObjectSize()
    ensures ByteLength(Render(Obj([]))) == 2
  {
    ObjectSize([]);
  }

  lemma StampedSize(payload: seq<Member>, kept: seq<Member>, errors: Value, paths: Paths)
    ensures var s, e := Stamp(Candidate(payload, kept, errors), paths), Stamp(Candidate(payload, [], Obj([])), paths);
            && |s| == |e|
            && TotalBytes(s) + 4 == TotalBytes(e) + ByteLength(Render(Obj(kept))) + ByteLength(Render(errors))
  {
    hide *;
    var empty := Candidate(payload, [], Obj([]));
    var half := SetMember(empty, "values", Obj(kept));
    CandidateKeys(payload, [], Obj([]));
    CandidateFromEmpty(payload, kept, errors);
    SetThenGet(empty, "values", Obj(kept), "errors");
    StampSwaps(empty, "values", Obj(kept), paths);
    StampSwaps(empty, "errors", Obj([]), paths);
    StampSwaps(half, "errors", errors, paths);
    SetThenGet(Stamp(empty, paths), "values", Obj(kept), "errors");
    SetSize(Stamp(empty, paths), "values", Obj(kept));
    SetSize(Stamp(half, paths), "errors", errors);
    EmptyObjectSize();
  }

  /** The estimate is the number of bytes that are encrypted. */
  lemma EstimateIsExact(payload: seq<Member>, kept: seq<Member>, errors: Value, paths: Paths)
    requires AllClean(kept)
    ensures var c := Candidate(payload, kept, errors);
            && HasKey(c, "values")
            && ByteLength(Render(Obj(Flashed(c, paths))))
               == Estimate(Frame(payload, paths), TotalBytes(kept), |kept|, ByteLength(Render(errors)))
  {
    hide Flashed;
    hide Candidate;
    hide Stamp;
    hide AllClean;
    hide Render;
    hide ByteLength;
    hide TotalBytes;
    CleanCandidateIsFlashed(payload, kept, errors, paths);
    StampedSize(payload, kept, errors, paths);
    ObjectSize(kept);
    ObjectSize(Stamp(Candidate(payload, kept, errors), paths));
    ObjectSize(Stamp(Candidate(payload, [], Obj([])), paths));
  }

  // ---------------------------------------------------------------- the cookie

  const BUDGET: int := 4000
  const FIELD_LIMIT: nat := 200
  /** The initialisation vector and the authentication tag. */
  const CIPHER_OVERHEAD: int := 12 + 16

  /** Four thirds of the encrypted bytes, rounded up. */
  function EncryptedLength(plaintextBytes: int): int {
    ((CIPHER_OVERHEAD + plaintextBytes) * 4 + 2) / 3
  }

  /** Authenticated encryption in counter mode: as many bytes as the plaintext, with the vector and the tag. */
  ghost predicate SealSized(seal: seq<Byte> -> seq<Byte>) {
    forall plaintext {:trigger seal(plaintext)} :: |seal(plaintext)| == CIPHER_OVERHEAD + |plaintext|
  }

  /** The length of a string in JavaScript: UTF-16 code units. */
  function Units(s: string): nat {
    if s == "" then 0 else (if s[0] < '\U{10000}' then 1 else 2) + Units(s[1..])
  }

  function Header(value: string, cookiePath: string): string {
    "HOLO-SVELTEKIT-VALIDATION=" + (value + ("; Max-Age=60; Path=" + (cookiePath + "; SameSite=Lax; HttpOnly")))
  }

  lemma {:induction false} UnitsJoin(a: string, b: string)
    ensures Units(a + b) == Units(a) + Units(b)
  {
    if a == "" {
      assert a + b == b;
    } else {
      UnitsJoin(a[1..], b);
      assert (a + b)[1..] == a[1..] + b;
    }
  }

  lemma {:induction false} PlainUnits(s: string)
    requires forall c <- s :: c < '\U{10000}'
    ensures Units(s) == |s|
  {
    if s != "" {
      assert s[0] in s;
      forall c | c in s[1..] ensures c < '\U{10000}' { assert c in s; }
      PlainUnits(s[1..]);
    }
  }

  lemma {:induction false} Base64UrlIsPlain(bytes: seq<Byte>)
    ensures forall c <- ToBase64Url(bytes) :: c < '\U{10000}'
  {
    hide Base64Url;
    forall d: nat | d < 64 ensures Base64Url(d) < '\U{10000}' { UrlDigitIsPlain(d); }
    if |bytes| > 2 { Base64UrlIsPlain(bytes[3..]); }
  }

  lemma UrlDigitIsPlain(d: nat)
    requires d < 64
    ensures Base64Url(d) < '\U{10000}'
  {
    DigitsAreInTable(d);
  }

  lemma HeaderUnits(value: string, cookiePath: string)
    requires forall c <- value :: c < '\U{10000}'
    ensures Units(Header(value, cookiePath)) == Units(Header("", cookiePath)) + |value|
  {
    hide Units;
    var tail := "; Max-Age=60; Path=" + (cookiePath + "; SameSite=Lax; HttpOnly");
    PlainUnits(value);
    PlainUnits("");
    UnitsJoin(value, tail);
    UnitsJoin("", tail);
    UnitsJoin("HOLO-SVELTEKIT-VALIDATION=", value + tail);
    UnitsJoin("HOLO-SVELTEKIT-VALIDATION=", "" + tail);
  }

  /** The value of the cookie. */
  function Cookie(candidate: seq<Member>, paths: Paths, seal: seq<Byte> -> seq<Byte>): string
    requires HasKey(candidate, "values")
  {
    ToBase64Url(seal(Encode(Render(Obj(Flashed(candidate, paths))))))
  }

  predicate CookieFits(value: string, paths: Paths) {
    Units(Header(value, paths.cookie)) <= BUDGET
  }

  predicate FitsBudget(headerOverhead: int, plaintextBytes: int) {
    headerOverhead + EncryptedLength(plaintextBytes) <= BUDGET
  }

  function HeaderOverhead(paths: Paths): nat {
    Units(Header("", paths.cookie))
  }

  /** The plaintext of a candidate, by arithmetic. */
  function PlaintextBytes(payload: seq<Member>, kept: seq<Member>, errors: Value, paths: Paths): int {
    Estimate(Frame(payload, paths), TotalBytes(kept), |kept|, ByteLength(Render(errors)))
  }

  /** The estimate decides: the written header fits the budget exactly when the arithmetic says so. */
  lemma EstimateDecides(payload: seq<Member>, kept: seq<Member>, errors: Value, paths: Paths, seal: seq<Byte> -> seq<Byte>)
    requires AllClean(kept) && SealSized(seal)
    ensures var c := Candidate(payload, kept, errors);
            && HasKey(c, "values")
            && Units(Header(Cookie(c, paths, seal), paths.cookie))
               == HeaderOverhead(paths) + EncryptedLength(PlaintextBytes(payload, kept, errors, paths))
            && (CookieFits(Cookie(c, paths, seal), paths)
                <==> FitsBudget(HeaderOverhead(paths), PlaintextBytes(payload, kept, errors, paths)))
  {
    hide Flashed;
    hide Candidate;
    hide AllClean;
    hide Render;
    hide Encode;
    hide TotalBytes;
    hide ToBase64Url;
    hide Header;
    hide Units;
    var c := Candidate(payload, kept, errors);
    EstimateIsExact(payload, kept, errors, paths);
    var plaintext := Encode(Render(Obj(Flashed(c, paths))));
    Base64UrlSize(seal(plaintext));
    Base64UrlIsPlain(seal(plaintext));
    HeaderUnits(Cookie(c, paths, seal), paths.cookie);
  }

  // ---------------------------------------------------------------- what to drop

  function Sum(sizes: seq<nat>): nat {
    if sizes == [] then 0 else sizes[0] + Sum(sizes[1..])
  }

  /** The `d` first fields dropped, the rest fits. */
  predicate FitsWithout(frame: int, overhead: int, sizes: seq<nat>, errorsBytes: int, d: nat)
    requires d <= |sizes|
  {
    FitsBudget(overhead, Estimate(frame, Sum(sizes[d..]), |sizes| - d, errorsBytes))
  }

  /** The fewest first fields to drop, if dropping all of them helps. */
  ghost predicate IsFewest(frame: int, overhead: int, sizes: seq<nat>, errorsBytes: int, r: Option<nat>) {
    match r
    case Some(d) =>
      && d <= |sizes| && FitsWithout(frame, overhead, sizes, errorsBytes, d)
      && forall k: nat {:trigger FitsWithout(frame, overhead, sizes, errorsBytes, k)} ::
           k < d ==> !FitsWithout(frame, overhead, sizes, errorsBytes, k)
    case None =>
      forall k: nat {:trigger FitsWithout(frame, overhead, sizes, errorsBytes, k)} ::
        k <= |sizes| ==> !FitsWithout(frame, overhead, sizes, errorsBytes, k)
  }

  method LargestFirstDropCount(frame: int, overhead: int, sizes: seq<nat>, errorsBytes: int) returns (r: Option<nat>)
    ensures IsFewest(frame, overhead, sizes, errorsBytes, r) && (r.Some? ==> r.value <= |sizes|)
  {
    hide FitsBudget;
    hide Estimate;
    var remainingBytes := Sum(sizes);
    var remainingCount := |sizes|;
    var dropped := 0;
    assert sizes[0..] == sizes;
    while true
      invariant dropped <= |sizes|
      invariant remainingBytes == Sum(sizes[dropped..]) && remainingCount == |sizes| - dropped
      invariant forall k: nat {:trigger FitsWithout(frame, overhead, sizes, errorsBytes, k)} ::
        k < dropped ==> !FitsWithout(frame, overhead, sizes, errorsBytes, k)
      decreases |sizes| - dropped
    {
      if FitsBudget(overhead, Estimate(frame, remainingBytes, remainingCount, errorsBytes)) {
        assert FitsWithout(frame, overhead, sizes, errorsBytes, dropped);
        return Some(dropped);
      }
      assert !FitsWithout(frame, overhead, sizes, errorsBytes, dropped);
      if dropped == |sizes| {
        return None;
      }
      assert sizes[dropped..][1..] == sizes[dropped + 1..];
      remainingBytes := remainingBytes - sizes[dropped];
      remainingCount := remainingCount - 1;
      dropped := dropped + 1;
    }
  }

  // ---------------------------------------------------------------- the greedy choice is optimal

  predicate Descending(sizes: seq<nat>) {
    forall i, j :: 0 <= i < j < |sizes| ==> sizes[i] >= sizes[j]
  }

  function Chosen(mask: seq<bool>): nat {
    if mask == [] then 0 else (if mask[0] then 1 else 0) + Chosen(mask[1..])
  }

  lemma {:induction false} ChosenAtMost(mask: seq<bool>)
    ensures Chosen(mask) <= |mask|
  {
    if mask != [] { ChosenAtMost(mask[1..]); }
  }

  function SumChosen(sizes: seq<nat>, mask: seq<bool>): nat
    requires |sizes| == |mask|
  {
    if mask == [] then 0 else (if mask[0] then sizes[0] else 0) + SumChosen(sizes[1..], mask[1..])
  }

  lemma SumFrom(sizes: seq<nat>, at: nat)
    requires at < |sizes|
    ensures Sum(sizes[at..]) == sizes[at] + Sum(sizes[at + 1..])
  {
    assert sizes[at..][1..] == sizes[at + 1..];
  }

  lemma RestOfDescending(sizes: seq<nat>, at: nat)
    requires Descending(sizes) && at < |sizes|
    ensures Descending(sizes[1..]) && sizes[at] <= sizes[0]
  {
  }

  /** Of all choices of as many fields, the last ones of a descending list are the smallest. */
  lemma {:induction false} LastOnesAreLeast(sizes: seq<nat>, mask: seq<bool>)
    requires |sizes| == |mask| && Descending(sizes)
    ensures Chosen(mask) <= |mask| && Sum(sizes[|sizes| - Chosen(mask)..]) <= SumChosen(sizes, mask)
    decreases |sizes|
  {
    hide Descending;
    hide Sum;
    ChosenAtMost(mask);
    if mask == [] {
      NothingSums(sizes);
    } else {
      var rest, c := sizes[1..], Chosen(mask[1..]);
      ChosenAtMost(mask[1..]);
      RestOfDescending(sizes, 0);
      LastOnesAreLeast(rest, mask[1..]);
      assert rest[|rest| - c..] == sizes[|sizes| - c..];
      if mask[0] {
        RestOfDescending(sizes, |sizes| - 1 - c);
        SumFrom(sizes, |sizes| - 1 - c);
      }
    }
  }

  lemma NothingSums(sizes: seq<nat>)
    requires sizes == []
    ensures Sum(sizes[0..]) == 0
  {
  }

  lemma {:induction false} FewerIsLess(sizes: seq<nat>, i: nat, j: nat)
    requires i <= j <= |sizes|
    ensures Sum(sizes[j..]) <= Sum(sizes[i..])
    decreases j - i
  {
    if i < j {
      FewerIsLess(sizes, i + 1, j);
      assert sizes[i..][1..] == sizes[i + 1..];
    }
  }

  lemma SmallerFits(frame: int, overhead: int, bytes: int, count: int, fewerBytes: int, fewerCount: int, errorsBytes: int)
    requires fewerBytes <= bytes && fewerCount <= count
    requires FitsBudget(overhead, Estimate(frame, bytes, count, errorsBytes))
    ensures FitsBudget(overhead, Estimate(frame, fewerBytes, fewerCount, errorsBytes))
  {
  }

  /** No choice of fields that fits has more of them than the greedy one keeps. */
  lemma GreedyIsOptimal(frame: int, overhead: int, sizes: seq<nat>, errorsBytes: int, r: Option<nat>, mask: seq<bool>)
    requires |mask| == |sizes| && Descending(sizes) && IsFewest(frame, overhead, sizes, errorsBytes, r)
    requires FitsBudget(overhead, Estimate(frame, SumChosen(sizes, mask), Chosen(mask), errorsBytes))
    ensures r.Some? && Chosen(mask) <= |sizes| - r.value
  {
    hide FitsBudget;
    hide Estimate;
    LastOnesAreLeast(sizes, mask);
    var k: nat := |sizes| - Chosen(mask);
    SmallerFits(frame, overhead, SumChosen(sizes, mask), Chosen(mask), Sum(sizes[k..]), Chosen(mask), errorsBytes);
    assert FitsWithout(frame, overhead, sizes, errorsBytes, k);
  }
}
