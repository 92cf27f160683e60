/**
 * Fitting a validation failure into the flash cookie (packages/adapter-sveltekit/src/index.ts): drop the
 * largest old values, then all but the first message of each field, then everything.
 */
module ValidationFlash {
  import opened Prelude
  import opened FlashBudget
  import opened FlashJson
  import opened FlashValues
  import CookiePath

  // ---------------------------------------------------------------- paths

  ghost predicate ArePaths(pathname: Option<string>, paths: Paths) {
    paths.page == CookiePath.SameOrigin(pathname) && CookiePath.IsNarrowest(paths.page, paths.cookie)
  }

  method ValidationFlashPaths(pathname: Option<string>) returns (paths: Paths)
    ensures ArePaths(pathname, paths)
  {
    var pagePath := CookiePath.SameOrigin(pathname);
    var cookiePath := CookiePath.CookiePathFor(pagePath);
    paths := Paths(pagePath, cookiePath);
  }

  /** The encoder, given the page path again, arrives at the same paths and no others. */
  lemma PathsAreStable(pathname: Option<string>, paths: Paths, again: Paths)
    requires ArePaths(pathname, paths)
    ensures ArePaths(Some(paths.page), again) <==> again == paths
  {
    hide CookiePath.IsNarrowest;
    CookiePath.SameOriginIsStable(pathname);
    if ArePaths(Some(paths.page), again) { CookiePath.NarrowestIsUnique(paths.page, paths.cookie, again.cookie); }
  }

  // ---------------------------------------------------------------- the encoder

  method EncodeValidationFlashPayload(candidate: seq<Member>, pathname: string, hasKey: bool, seal: seq<Byte> -> seq<Byte>)
    returns (value: Option<string>)
    requires HasKey(candidate, "values") && ValueOf(candidate, "values").Obj?
    ensures !hasKey ==> value == None
    ensures forall paths {:trigger ArePaths(Some(pathname), paths)} ::
              hasKey && ArePaths(Some(pathname), paths) ==> value == Some(Cookie(candidate, paths, seal))
  {
    hide CookiePath.IsNarrowest;
    if !hasKey { return None; }
    var paths := ValidationFlashPaths(Some(pathname));
    var filtered := FilterFlashValues(ValueOf(candidate, "values").members);
    var flashed := SetMember(candidate, "values", Obj(filtered));
    flashed := SetMember(flashed, "path", Str(paths.page));
    flashed := SetMember(flashed, "cookiePath", Str(paths.cookie));
    value := Some(ToBase64Url(seal(Encode(Render(Obj(flashed))))));
    forall other | ArePaths(Some(pathname), other) ensures other == paths {
      CookiePath.NarrowestIsUnique(paths.page, paths.cookie, other.cookie);
    }
  }

  method EncodeOnce(candidate: seq<Member>, pathname: Option<string>, paths: Paths, hasKey: bool, seal: seq<Byte> -> seq<Byte>)
    returns (value: Option<string>)
    requires HasKey(candidate, "values") && ValueOf(candidate, "values").Obj? && ArePaths(pathname, paths)
    ensures value == if hasKey && CookieFits(Cookie(candidate, paths, seal), paths) then Some(Cookie(candidate, paths, seal)) else None
  {
    hide *;
    PathsAreStable(pathname, paths, paths);
    value := EncodeValidationFlashPayload(candidate, paths.page, hasKey, seal);
    if value.Some? && !CookieFits(value.value, paths) { value := None; }
  }

  // ---------------------------------------------------------------- fields by size

  function Insert(m: Member, members: seq<Member>): seq<Member> {
    if members == [] || PairBytes(m) >= PairBytes(members[0]) then [m] + members
    else [members[0]] + Insert(m, members[1..])
  }

  /** A stable sort, largest first. */
  function LargestFirst(members: seq<Member>): seq<Member> {
    if members == [] then [] else Insert(members[0], LargestFirst(members[1..]))
  }

  function Sizes(members: seq<Member>): (sizes: seq<nat>)
    ensures |sizes| == |members|
  {
    seq(|members|, i requires 0 <= i < |members| => PairBytes(members[i]))
  }

  lemma RestSorted(members: seq<Member>)
    requires members != [] && Descending(Sizes(members))
    ensures Descending(Sizes(members[1..])) && forall m <- members[1..] :: PairBytes(m) <= PairBytes(members[0])
  {
    hide PairBytes;
    var rest := members[1..];
    assert forall i :: 0 <= i < |rest| ==> Sizes(rest)[i] == Sizes(members)[i + 1];
    forall m | m in rest ensures PairBytes(m) <= PairBytes(members[0]) {
      var k :| 0 <= k < |rest| && rest[k] == m;
      assert Sizes(members)[0] >= Sizes(members)[k + 1];
    }
  }

  lemma {:induction false} InsertSorts(m: Member, members: seq<Member>)
    requires Descending(Sizes(members))
    ensures Descending(Sizes(Insert(m, members))) && multiset(Insert(m, members)) == multiset(members) + multiset{m}
    decreases |members|
  {
    hide PairBytes;
    hide Descending;
    hide Sizes;
    if members != [] && PairBytes(m) < PairBytes(members[0]) {
      RestSorted(members);
      InsertSorts(m, members[1..]);
      var more := Insert(m, members[1..]);
      assert members == [members[0]] + members[1..];
      if more != [] { assert more[0] in multiset(more); }
      HeadFirst(members[0], more);
    } else {
      HeadFirst(m, members);
    }
  }

  lemma HeadFirst(m: Member, members: seq<Member>)
    requires Descending(Sizes(members))
    requires members != [] ==> PairBytes(m) >= PairBytes(members[0])
    ensures Descending(Sizes([m] + members))
    ensures multiset([m] + members) == multiset(members) + multiset{m}
  {
    hide PairBytes;
    var all := [m] + members;
    forall i, j | 0 <= i < j < |all| ensures Sizes(all)[i] >= Sizes(all)[j] {
      assert Sizes(members)[j - 1] == Sizes(all)[j];
      assert Sizes(members)[0] >= Sizes(members)[j - 1];
      if i > 0 { assert Sizes(members)[i - 1] == Sizes(all)[i]; }
    }
  }

  lemma {:induction false} LargestFirstSorts(members: seq<Member>)
    ensures Descending(Sizes(LargestFirst(members))) && multiset(LargestFirst(members)) == multiset(members)
  {
    if members != [] {
      LargestFirstSorts(members[1..]);
      InsertSorts(members[0], LargestFirst(members[1..]));
      assert members == [members[0]] + members[1..];
    }
  }

  /** The fields that old input is taken from: at most so many of the filtered ones, largest first. */
  function Sized(payload: seq<Member>): seq<Member>
    requires IsPayload(payload)
  {
    var fields := FilterMembers(ValueOf(payload, "values").members);
    LargestFirst(fields[..Min(FIELD_LIMIT, |fields|)])
  }

  lemma CleanAlike(a: seq<Member>, b: seq<Member>)
    requires AllClean(a) && forall m <- b :: m in a
    ensures AllClean(b)
  {
  }

  lemma SizedAreClean(payload: seq<Member>)
    requires IsPayload(payload)
    ensures AllClean(Sized(payload)) && Descending(Sizes(Sized(payload)))
  {
    hide AllClean;
    var fields := FilterMembers(ValueOf(payload, "values").members);
    var considered := fields[..Min(FIELD_LIMIT, |fields|)];
    FilteredMembersAreClean(ValueOf(payload, "values").members);
    LargestFirstSorts(considered);
    forall m | m in Sized(payload) ensures m in fields { assert m in multiset(considered); }
    CleanAlike(fields, Sized(payload));
  }

  // ---------------------------------------------------------------- errors

  /** The first message of each field. */
  function FirstMessages(errors: seq<Member>): seq<Member>
    requires forall m <- errors :: m.value.Arr?
  {
    if errors == [] then []
    else [Member(errors[0].key, Arr(errors[0].value.items[..Min(1, |errors[0].value.items|)]))] + FirstMessages(errors[1..])
  }

  /** Every field keeps its key, and of its messages the first one, if there is any. */
  lemma {:induction false} FirstMessageOfEach(errors: seq<Member>, i: nat)
    requires (forall m <- errors :: m.value.Arr?) && i < |errors|
    ensures |FirstMessages(errors)| == |errors| && FirstMessages(errors)[i].key == errors[i].key
    ensures var messages := errors[i].value.items;
            FirstMessages(errors)[i].value == if messages == [] then Arr([]) else Arr([messages[0]])
    decreases |errors|
  {
    if i > 0 {
      FirstMessageOfEach(errors[1..], i - 1);
    } else if |errors| > 1 {
      FirstMessageOfEach(errors[1..], 0);
    }
  }

  function AllErrors(payload: seq<Member>): Value
    requires IsPayload(payload)
  {
    ValueOf(payload, "errors")
  }

  function FirstErrors(payload: seq<Member>): Value
    requires IsPayload(payload)
  {
    Obj(FirstMessages(ValueOf(payload, "errors").members))
  }

  function GenericCandidate(payload: seq<Member>): seq<Member> {
    Candidate(SetMember(payload, "message", Str("Validation failed.")), [], Obj([Member("_root", Arr([Str("Validation failed.")]))]))
  }

  // ---------------------------------------------------------------- fitting

  /** The order in which `Object.fromEntries` lists its keys. */
  ghost predicate KeepsMembers(arrange: seq<Member> -> seq<Member>) {
    forall members {:trigger arrange(members)} :: multiset(arrange(members)) == multiset(members)
  }

  datatype Outcome = Values(dropped: nat) | ValuesAndFirstErrors(dropped: nat) | Generic

  /** The fewest of the largest values to drop so that these errors fit. */
  ghost predicate Drops(payload: seq<Member>, paths: Paths, errors: Value, r: Option<nat>)
    requires IsPayload(payload)
  {
    IsFewest(Frame(payload, paths), HeaderOverhead(paths), Sizes(Sized(payload)), ByteLength(Render(errors)), r)
  }

  function Kept(payload: seq<Member>, d: nat, arrange: seq<Member> -> seq<Member>): seq<Member>
    requires IsPayload(payload) && d <= |Sized(payload)|
  {
    arrange(Sized(payload)[d..])
  }

  ghost predicate Fitted(payload: seq<Member>, paths: Paths, hasKey: bool, seal: seq<Byte> -> seq<Byte>,
                         arrange: seq<Member> -> seq<Member>, value: Option<string>, outcome: Outcome)
    requires IsPayload(payload)
  {
    match outcome
    case Values(d) =>
      && Drops(payload, paths, AllErrors(payload), Some(d))
      && IsFlash(Candidate(payload, Kept(payload, d, arrange), AllErrors(payload)), paths, hasKey, seal, value)
    case ValuesAndFirstErrors(d) =>
      && Drops(payload, paths, AllErrors(payload), None)
      && Drops(payload, paths, FirstErrors(payload), Some(d))
      && IsFlash(Candidate(payload, Kept(payload, d, arrange), FirstErrors(payload)), paths, hasKey, seal, value)
    case Generic =>
      && Drops(payload, paths, AllErrors(payload), None)
      && Drops(payload, paths, FirstErrors(payload), None)
      && value == Offered(GenericCandidate(payload), paths, hasKey, seal)
  }

  /** The candidate's cookie, when there is a key and it is within the budget. */
  ghost function Offered(candidate: seq<Member>, paths: Paths, hasKey: bool, seal: seq<Byte> -> seq<Byte>): Option<string> {
    if HasKey(candidate, "values") && hasKey && CookieFits(Cookie(candidate, paths, seal), paths)
    then Some(Cookie(candidate, paths, seal)) else None
  }

  /** The value is the candidate's cookie and within the budget; there is none exactly when there is no key. */
  ghost predicate IsFlash(candidate: seq<Member>, paths: Paths, hasKey: bool, seal: seq<Byte> -> seq<Byte>, value: Option<string>) {
    && HasKey(candidate, "values")
    && (if hasKey then value == Some(Cookie(candidate, paths, seal)) && CookieFits(value.value, paths) else value == None)
  }

  lemma {:induction false} SizesOfRest(members: seq<Member>, d: nat)
    requires d <= |members|
    ensures Sum(Sizes(members)[d..]) == TotalBytes(members[d..])
    decreases |members| - d
  {
    hide PairBytes;
    if d < |members| {
      SizesOfRest(members, d + 1);
      assert Sizes(members)[d..][1..] == Sizes(members)[d + 1..];
      assert members[d..][1..] == members[d + 1..];
    }
  }

  lemma KeptSize(payload: seq<Member>, d: nat, arrange: seq<Member> -> seq<Member>)
    requires IsPayload(payload) && KeepsMembers(arrange) && d <= |Sized(payload)|
    ensures var kept := Kept(payload, d, arrange);
            AllClean(kept) && |kept| == |Sized(payload)| - d && TotalBytes(kept) == Sum(Sizes(Sized(payload))[d..])
  {
    hide IsPayload;
    hide Sized;
    hide AllClean;
    hide Sizes;
    hide Sum;
    hide TotalBytes;
    var sized, kept := Sized(payload), Kept(payload, d, arrange);
    SizedAreClean(payload);
    assert multiset(kept) == multiset(sized[d..]);
    forall m | m in kept ensures m in sized { assert m in multiset(sized[d..]); }
    CleanAlike(sized, kept);
    OrderKeepsTotal(kept, sized[d..]);
    SizesOfRest(sized, d);
  }

  /** A candidate chosen by the estimate is never refused. */
  lemma ChosenCandidateFits(payload: seq<Member>, paths: Paths, seal: seq<Byte> -> seq<Byte>,
                            arrange: seq<Member> -> seq<Member>, errors: Value, d: nat)
    requires IsPayload(payload) && SealSized(seal) && KeepsMembers(arrange) && Drops(payload, paths, errors, Some(d))
    ensures var c := Candidate(payload, Kept(payload, d, arrange), errors);
            HasKey(c, "values") && CookieFits(Cookie(c, paths, seal), paths)
  {
    hide IsPayload;
    hide Sized;
    hide AllClean;
    hide Candidate;
    hide Cookie;
    hide CookieFits;
    hide Frame;
    hide FitsBudget;
    hide Estimate;
    hide Sizes;
    hide Kept;
    hide KeepsMembers;
    hide SealSized;
    hide HeaderOverhead;
    KeptSize(payload, d, arrange);
    assert FitsWithout(Frame(payload, paths), HeaderOverhead(paths), Sizes(Sized(payload)), ByteLength(Render(errors)), d);
    EstimateDecides(payload, Kept(payload, d, arrange), errors, paths, seal);
  }

  method FitValidationFlash(payload: seq<Member>, pathname: Option<string>, hasKey: bool,
                            seal: seq<Byte> -> seq<Byte>, arrange: seq<Member> -> seq<Member>)
    returns (value: Option<string>, outcome: Outcome)
    requires IsPayload(payload) && SealSized(seal) && KeepsMembers(arrange)
    ensures forall paths {:trigger ArePaths(pathname, paths)} ::
              ArePaths(pathname, paths) ==> Fitted(payload, paths, hasKey, seal, arrange, value, outcome)
  {
    hide *;
    var paths := ValidationFlashPaths(pathname);
    value, outcome := FitInto(payload, pathname, paths, hasKey, seal, arrange);
    forall other | ArePaths(pathname, other) ensures other == paths {
      SamePaths(pathname, paths, other);
    }
  }

  lemma SamePaths(pathname: Option<string>, a: Paths, b: Paths)
    requires ArePaths(pathname, a) && ArePaths(pathname, b)
    ensures a == b
  {
    CookiePath.NarrowestIsUnique(a.page, a.cookie, b.cookie);
  }

  lemma CandidateIsPayload(payload: seq<Member>, kept: seq<Member>, errors: Value)
    ensures var c := Candidate(payload, kept, errors); HasKey(c, "values") && ValueOf(c, "values").Obj?
  {
    CandidateKeys(payload, kept, errors);
  }

  /** The errors that replace the payload's, or else its own. */
  function ErrorsOr(payload: seq<Member>, replaced: Option<Value>): Value
    requires replaced.None? ==> IsPayload(payload)
  {
    if replaced.Some? then replaced.value else AllErrors(payload)
  }

  /** Keeping the errors as they are is the same candidate as setting them again. */
  lemma SameErrors(payload: seq<Member>, kept: seq<Member>)
    requires IsPayload(payload)
    ensures SetMember(payload, "values", Obj(kept)) == Candidate(payload, kept, AllErrors(payload))
  {
    hide SetMember, HasKey, ValueOf;
    SetThenGet(payload, "values", Obj(kept), "errors");
    SetSame(SetMember(payload, "values", Obj(kept)), "errors");
  }

  method SizeFields(payload: seq<Member>) returns (sized: seq<Member>)
    requires IsPayload(payload)
    ensures sized == Sized(payload)
  {
    hide LargestFirst, FilterMembers, HasKey, ValueOf;
    var fields := FilterFlashValues(ValueOf(payload, "values").members);
    sized := LargestFirst(fields[..Min(FIELD_LIMIT, |fields|)]);
  }

  /** With these errors, drop as few of the largest values as needed and encode the rest, if that can be done. */
  method FlashWith(payload: seq<Member>, sized: seq<Member>, replaced: Option<Value>, pathname: Option<string>, paths: Paths, hasKey: bool,
                   seal: seq<Byte> -> seq<Byte>, arrange: seq<Member> -> seq<Member>)
    returns (dropped: Option<nat>, value: Option<string>)
    requires IsPayload(payload) && SealSized(seal) && KeepsMembers(arrange) && ArePaths(pathname, paths)
    requires sized == Sized(payload)
    ensures Drops(payload, paths, ErrorsOr(payload, replaced), dropped)
    ensures dropped.Some? ==>
              && dropped.value <= |sized|
              && IsFlash(Candidate(payload, Kept(payload, dropped.value, arrange), ErrorsOr(payload, replaced)), paths, hasKey, seal, value)
  {
    hide Sized, IsPayload, SealSized, KeepsMembers, ArePaths, Candidate, Cookie, CookieFits, IsFewest, Frame, HeaderOverhead,
         Sizes, Render, ByteLength, HasKey, GenericCandidate, ErrorsOr;
    var errors := ErrorsOr(payload, replaced);
    value := None;
    dropped := LargestFirstDropCount(Frame(payload, paths), HeaderOverhead(paths), Sizes(sized), ByteLength(Render(errors)));
    if dropped.Some? {
      var kept := arrange(sized[dropped.value..]);
      ChosenCandidateFits(payload, paths, seal, arrange, errors, dropped.value);
      value := EncodeCandidate(payload, kept, replaced, pathname, paths, hasKey, seal);
      if value.None? { value := EncodeGeneric(payload, pathname, paths, hasKey, seal); }
    }
  }

  method FitInto(payload: seq<Member>, pathname: Option<string>, paths: Paths, hasKey: bool,
                 seal: seq<Byte> -> seq<Byte>, arrange: seq<Member> -> seq<Member>)
    returns (value: Option<string>, outcome: Outcome)
    requires IsPayload(payload) && SealSized(seal) && KeepsMembers(arrange) && ArePaths(pathname, paths)
    ensures Fitted(payload, paths, hasKey, seal, arrange, value, outcome)
  {
    hide Sized, IsPayload, SealSized, KeepsMembers, ArePaths, Candidate, Drops, IsFlash, Kept, AllErrors, FirstErrors;
    var sized := SizeFields(payload);
    var dropped: Option<nat>;
    dropped, value := FlashWith(payload, sized, None, pathname, paths, hasKey, seal, arrange);
    if dropped.Some? { return value, Values(dropped.value); }
    dropped, value := FlashWith(payload, sized, Some(FirstErrors(payload)), pathname, paths, hasKey, seal, arrange);
    if dropped.Some? { return value, ValuesAndFirstErrors(dropped.value); }
    outcome := Generic;
    value := EncodeGeneric(payload, pathname, paths, hasKey, seal);
  }

  /** The payload with new values and, when they are replaced, new errors. */
  method EncodeCandidate(payload: seq<Member>, kept: seq<Member>, replaced: Option<Value>, pathname: Option<string>, paths: Paths,
                         hasKey: bool, seal: seq<Byte> -> seq<Byte>)
    returns (value: Option<string>)
    requires ArePaths(pathname, paths) && (replaced.None? ==> IsPayload(payload))
    ensures var c := Candidate(payload, kept, ErrorsOr(payload, replaced));
            && HasKey(c, "values")
            && value == if hasKey && CookieFits(Cookie(c, paths, seal), paths) then Some(Cookie(c, paths, seal)) else None
  {
    hide IsPayload, ArePaths, HasKey, ValueOf, SetMember, Cookie, CookieFits, AllErrors;
    CandidateIsPayload(payload, kept, ErrorsOr(payload, replaced));
    var candidate := SetMember(payload, "values", Obj(kept));
    if replaced.Some? {
      candidate := SetMember(candidate, "errors", replaced.value);
    } else {
      SameErrors(payload, kept);
    }
    value := EncodeOnce(candidate, pathname, paths, hasKey, seal);
  }

  /** No input and one message. */
  method EncodeGeneric(payload: seq<Member>, pathname: Option<string>, paths: Paths, hasKey: bool, seal: seq<Byte> -> seq<Byte>)
    returns (value: Option<string>)
    requires ArePaths(pathname, paths)
    ensures value == Offered(GenericCandidate(payload), paths, hasKey, seal)
    ensures value.Some? ==> hasKey && IsFlash(GenericCandidate(payload), paths, hasKey, seal, value)
  {
    hide ArePaths;
    hide SetMember;
    hide HasKey;
    hide Cookie;
    hide CookieFits;
    var named := SetMember(payload, "message", Str("Validation failed."));
    value := EncodeCandidate(named, [], Some(Obj([Member("_root", Arr([Str("Validation failed.")]))])), pathname, paths, hasKey, seal);
  }

  // ---------------------------------------------------------------- no fuller flash exists

  /** Some of the fields, in their order. */
  function Picked(members: seq<Member>, mask: seq<bool>): seq<Member>
    requires |members| == |mask|
  {
    if mask == [] then [] else (if mask[0] then [members[0]] else []) + Picked(members[1..], mask[1..])
  }

  lemma {:induction false} PickedSize(members: seq<Member>, mask: seq<bool>)
    requires |members| == |mask|
    ensures TotalBytes(Picked(members, mask)) == SumChosen(Sizes(members), mask)
    ensures |Picked(members, mask)| == Chosen(mask)
    ensures forall m <- Picked(members, mask) :: m in members
    decreases |members|
  {
    hide PairBytes;
    if mask != [] {
      PickedSize(members[1..], mask[1..]);
      assert Sizes(members)[1..] == Sizes(members[1..]);
      assert members == [members[0]] + members[1..];
      TotalOfSlices(if mask[0] then [members[0]] else [], Picked(members[1..], mask[1..]));
      assert [members[0]][1..] == [];
    }
  }

  /** A choice of fields whose cookie fits has no more of them than the fewest drops leave. */
  lemma ChoiceIsNoFuller(payload: seq<Member>, paths: Paths, seal: seq<Byte> -> seq<Byte>, errors: Value,
                         r: Option<nat>, mask: seq<bool>, arranged: seq<Member>)
    requires IsPayload(payload) && SealSized(seal) && Drops(payload, paths, errors, r)
    requires |mask| == |Sized(payload)| && multiset(arranged) == multiset(Picked(Sized(payload), mask))
    requires var c := Candidate(payload, arranged, errors); HasKey(c, "values") && CookieFits(Cookie(c, paths, seal), paths)
    ensures r.Some? && |arranged| <= |Sized(payload)| - r.value
  {
    hide IsPayload;
    hide Sized;
    hide AllClean;
    hide Candidate;
    hide Cookie;
    hide CookieFits;
    hide Frame;
    hide FitsBudget;
    hide Estimate;
    hide IsFewest;
    hide HeaderOverhead;
    hide Sizes;
    hide Picked;
    var sized := Sized(payload);
    SizedAreClean(payload);
    PickedSize(sized, mask);
    forall m | m in arranged ensures m in sized { assert m in multiset(Picked(sized, mask)); }
    CleanAlike(sized, arranged);
    OrderKeepsTotal(arranged, Picked(sized, mask));
    EstimateDecides(payload, arranged, errors, paths, seal);
    GreedyIsOptimal(Frame(payload, paths), HeaderOverhead(paths), Sizes(sized), ByteLength(Render(errors)), r, mask);
  }

  /**
   * The flash that is written is the fullest one: with all errors no choice of the considered fields that fits
   * has more of them; errors are cut only when not even the errors alone fit, and only then is all input lost.
   */
  lemma NoFullerFlash(payload: seq<Member>, paths: Paths, seal: seq<Byte> -> seq<Byte>, arrange: seq<Member> -> seq<Member>,
                      value: Option<string>, outcome: Outcome, cut: bool, mask: seq<bool>, arranged: seq<Member>)
    requires IsPayload(payload) && SealSized(seal) && Fitted(payload, paths, true, seal, arrange, value, outcome)
    requires |mask| == |Sized(payload)| && multiset(arranged) == multiset(Picked(Sized(payload), mask))
    requires var c := Candidate(payload, arranged, if cut then FirstErrors(payload) else AllErrors(payload));
             HasKey(c, "values") && CookieFits(Cookie(c, paths, seal), paths)
    ensures value.Some? && !outcome.Generic?
    ensures !cut ==> outcome.Values?
    ensures (outcome.Values? && !cut) || (outcome.ValuesAndFirstErrors? && cut)
            ==> |arranged| <= |Sized(payload)| - outcome.dropped
  {
    hide Drops;
    hide Sized;
    hide Candidate;
    hide Cookie;
    hide CookieFits;
    hide Picked;
    hide IsPayload;
    var errors := if cut then FirstErrors(payload) else AllErrors(payload);
    match outcome
    case Values(d) =>
      if !cut { ChoiceIsNoFuller(payload, paths, seal, errors, Some(d), mask, arranged); }
    case ValuesAndFirstErrors(d) =>
      ChoiceIsNoFuller(payload, paths, seal, errors, if cut then Some(d) else None, mask, arranged);
    case Generic =>
      ChoiceIsNoFuller(payload, paths, seal, errors, None, mask, arranged);
  }

  // ---------------------------------------------------------------- what is flashed

  /** The fields old input is taken from: the first 200 at most of the filtered ones, each once, as submitted and filtered. */
  lemma ConsideredFields(payload: seq<Member>)
    requires IsPayload(payload)
    ensures var fields := FilterMembers(ValueOf(payload, "values").members);
            && |Sized(payload)| == Min(200, |fields|)
            && multiset(Sized(payload)) == multiset(fields[..Min(200, |fields|)])
  {
    hide FilterMembers, LargestFirst;
    var fields := FilterMembers(ValueOf(payload, "values").members);
    LargestFirstSorts(fields[..Min(FIELD_LIMIT, |fields|)]);
    assert |multiset(Sized(payload))| == |Sized(payload)|;
    assert |multiset(fields[..Min(200, |fields|)])| == Min(200, |fields|);
  }

  /** The generic flash has no old input and one message; everything else of the payload is in it. */
  lemma GenericFlashIs(payload: seq<Member>, key: string)
    ensures var g := GenericCandidate(payload);
            && HasKey(g, "values") && ValueOf(g, "values") == Obj([])
            && HasKey(g, "errors") && ValueOf(g, "errors") == Obj([Member("_root", Arr([Str("Validation failed.")]))])
            && HasKey(g, "message") && ValueOf(g, "message") == Str("Validation failed.")
            && (key !in {"values", "errors", "message"} && HasKey(payload, key) ==> HasKey(g, key) && ValueOf(g, key) == ValueOf(payload, key))
  {
    hide SetMember, HasKey, ValueOf;
    var named := SetMember(payload, "message", Str("Validation failed."));
    var errors := Obj([Member("_root", Arr([Str("Validation failed.")]))]);
    CandidateKeys(named, [], errors);
    SetThenGet(payload, "message", Str("Validation failed."), "message");
    SetThenGet(payload, "message", Str("Validation failed."), key);
    CandidateKeepsRest(named, [], errors, "message");
    CandidateKeepsRest(named, [], errors, key);
  }

  /** A candidate differs from the payload in its values and errors only. */
  lemma CandidateKeepsRest(payload: seq<Member>, values: seq<Member>, errors: Value, key: string)
    ensures key != "values" && key != "errors" && HasKey(payload, key) ==>
              var c := Candidate(payload, values, errors); HasKey(c, key) && ValueOf(c, key) == ValueOf(payload, key)
  {
    hide SetMember, HasKey, ValueOf;
    SetThenGet(payload, "values", Obj(values), key);
    SetThenGet(SetMember(payload, "values", Obj(values)), "errors", errors, key);
  }

  /** The whole header is what has to fit: 4000 UTF-16 code units, with every attribute that is sent. */
  lemma FittingHeader(value: string, paths: Paths)
    ensures CookieFits(value, paths)
            <==> Units("HOLO-SVELTEKIT-VALIDATION=" + (value + ("; Max-Age=60; Path=" + (paths.cookie + "; SameSite=Lax; HttpOnly")))) <= 4000
  {
  }
}
