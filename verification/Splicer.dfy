/**
 * Two ways of replacing ranges of a text: `applyReplacements` copies from left to right
 * (packages/adapter-sveltekit/src/transform-utils.ts), compiled validation splices one range at a time from
 * right to left (packages/adapter-shared/src/validation-transform.ts). `Woven` says position by position what
 * either must produce.
 */
module Splicer {
  import opened Prelude

  datatype Replacement = Replacement(start: nat, end: nat, text: string)

  /** `slice`, which clamps both bounds. */
  function Slice(s: string, from: nat, to: nat): string {
    var hi := Min(to, |s|);
    if from <= hi then s[from..hi] else ""
  }

  // ---------------------------------------------------------------- left to right

  /** A stable sort on where the ranges start. */
  function SortByStart(rs: seq<Replacement>): seq<Replacement> {
    if rs == [] then [] else Insert(rs[0], SortByStart(rs[1..]))
  }

  function Insert(r: Replacement, rs: seq<Replacement>): seq<Replacement> {
    if rs == [] || r.start <= rs[0].start then [r] + rs else [rs[0]] + Insert(r, rs[1..])
  }

  function Applied(s: string, rs: seq<Replacement>, cursor: nat): string {
    if rs == [] then Slice(s, cursor, |s|)
    else Slice(s, cursor, rs[0].start) + rs[0].text + Applied(s, rs[1..], rs[0].end)
  }

  // ---------------------------------------------------------------- right to left

  function SplicedOnce(s: string, r: Replacement): string {
    Slice(s, 0, r.start) + r.text + Slice(s, r.end, |s|)
  }

  /** The last range first. */
  function SplicedBackwards(s: string, rs: seq<Replacement>): string {
    if rs == [] then s else SplicedOnce(SplicedBackwards(s, rs[1..]), rs[0])
  }

  // ---------------------------------------------------------------- what both should produce

  predicate Apart(a: Replacement, b: Replacement) {
    a.start != b.start && (a.end <= b.start || b.end <= a.start)
  }

  /** Ranges of the text, pairwise disjoint, no two starting at one place. */
  ghost predicate Separate(s: string, rs: set<Replacement>) {
    && (forall r <- rs :: r.start <= r.end <= |s|)
    && (forall a <- rs, b <- rs :: a != b ==> Apart(a, b))
  }

  ghost predicate Starts(rs: set<Replacement>, p: nat) {
    exists r :: r in rs && r.start == p
  }

  ghost predicate Covers(rs: set<Replacement>, p: nat) {
    exists r :: r in rs && r.start <= p < r.end
  }

  ghost function TextAt(rs: set<Replacement>, p: nat): string {
    if Starts(rs, p) then var r :| r in rs && r.start == p; r.text else ""
  }

  /** From `p` on: the text of the range that starts here, then the character here unless a range covers it. */
  ghost function Woven(s: string, rs: set<Replacement>, p: nat): string
    requires p <= |s|
    decreases |s| - p
  {
    TextAt(rs, p) + if p == |s| then "" else (if Covers(rs, p) then "" else [s[p]]) + Woven(s, rs, p + 1)
  }

  // ---------------------------------------------------------------- stretches of the text

  lemma NothingHere(rs: set<Replacement>, p: nat)
    requires forall r <- rs :: p < r.start
    ensures !Covers(rs, p) && TextAt(rs, p) == ""
  {
  }

  lemma {:induction false} WovenCopies(s: string, rs: set<Replacement>, p: nat, q: nat)
    requires p <= q <= |s|
    requires forall r <- rs :: q <= r.start
    ensures Woven(s, rs, p) == s[p..q] + Woven(s, rs, q)
    decreases q - p
  {
    hide Covers;
    hide TextAt;
    if p == q {
      assert s[p..q] == "";
    } else {
      NothingHere(rs, p);
      WovenCopies(s, rs, p + 1, q);
      assert s[p..q] == [s[p]] + s[p + 1..q];
      assert Woven(s, rs, p) == [s[p]] + Woven(s, rs, p + 1);
    }
  }

  lemma InsideRange(s: string, rs: set<Replacement>, r: Replacement, p: nat)
    requires Separate(s, rs) && r in rs && r.start < p < r.end
    ensures Covers(rs, p) && TextAt(rs, p) == ""
  {
    forall other | other in rs ensures other.start != p {
      assert other == r || Apart(other, r);
    }
  }

  lemma {:induction false} WovenSkips(s: string, rs: set<Replacement>, r: Replacement, p: nat)
    requires Separate(s, rs) && r in rs && r.start < p <= r.end
    ensures Woven(s, rs, p) == Woven(s, rs, r.end)
    decreases r.end - p
  {
    hide Covers;
    hide TextAt;
    if p < r.end {
      InsideRange(s, rs, r, p);
      WovenSkips(s, rs, r, p + 1);
    }
  }

  lemma TextAtStart(s: string, rs: set<Replacement>, r: Replacement)
    requires Separate(s, rs) && r in rs
    ensures TextAt(rs, r.start) == r.text
  {
    forall other | other in rs && other.start == r.start ensures other == r {
      assert other == r || Apart(other, r);
    }
    assert Starts(rs, r.start);
  }

  lemma SameHere(s: string, rs: set<Replacement>, r: Replacement, p: nat)
    requires Separate(s, rs) && r in rs && r.start < p && r.end <= p
    ensures TextAt(rs, p) == TextAt(rs - {r}, p) && Covers(rs, p) == Covers(rs - {r}, p)
  {
    if Starts(rs, p) {
      var other :| other in rs && other.start == p;
      assert other in rs - {r};
      TextAtStart(s, rs, other);
      TextAtStart(s, rs - {r}, other);
    }
  }

  /** A range that has ended does not matter after its start. */
  lemma {:induction false} WovenForgets(s: string, rs: set<Replacement>, r: Replacement, p: nat)
    requires Separate(s, rs) && r in rs && r.start < p <= |s| && r.end <= p
    ensures Woven(s, rs, p) == Woven(s, rs - {r}, p)
    decreases |s| - p
  {
    hide Covers;
    hide TextAt;
    SameHere(s, rs, r, p);
    if p < |s| { WovenForgets(s, rs, r, p + 1); }
  }

  /** The first range: its text stands for what it covers, and the rest is woven from its end on. */
  lemma WovenTakesFirst(s: string, rs: set<Replacement>, r: Replacement, p: nat)
    requires Separate(s, rs) && r in rs && p <= r.start
    requires forall other <- rs :: other == r || (r.end <= other.start && r.start < other.start)
    ensures Woven(s, rs, p) == s[p..r.start] + r.text + Woven(s, rs - {r}, r.end)
  {
    hide Covers;
    hide TextAt;
    WovenCopies(s, rs, p, r.start);
    TextAtStart(s, rs, r);
    if r.start < r.end {
      CoveredAtStart(rs, r);
      WovenSkips(s, rs, r, r.start + 1);
      WovenForgets(s, rs, r, r.end);
    } else {
      NothingHere(rs - {r}, r.start);
      InsertionCoversNothing(rs, r);
      if r.start < |s| { WovenForgets(s, rs, r, r.start + 1); }
    }
  }

  lemma CoveredAtStart(rs: set<Replacement>, r: Replacement)
    requires r in rs && r.start < r.end
    ensures Covers(rs, r.start)
  {
  }

  lemma InsertionCoversNothing(rs: set<Replacement>, r: Replacement)
    requires r in rs && r.start == r.end && forall other <- rs :: other == r || r.start < other.start
    ensures !Covers(rs, r.start)
  {
  }

  // ---------------------------------------------------------------- lists of ranges in order

  ghost function Members(rs: seq<Replacement>): set<Replacement> {
    set r | r in rs
  }

  predicate Ascending(rs: seq<Replacement>) {
    forall i, j :: 0 <= i < j < |rs| ==> rs[i].start < rs[j].start
  }

  lemma FirstOfAscending(s: string, rs: seq<Replacement>)
    requires rs != [] && Ascending(rs) && Separate(s, Members(rs))
    ensures rs[0] in Members(rs) && Members(rs) - {rs[0]} == Members(rs[1..])
    ensures Ascending(rs[1..]) && Separate(s, Members(rs[1..]))
    ensures forall r <- Members(rs[1..]) :: rs[0].end <= r.start && rs[0].start < r.start
  {
    forall r | r in Members(rs[1..]) ensures r in Members(rs) && rs[0].end <= r.start && rs[0].start < r.start {
      var i :| 0 <= i < |rs[1..]| && rs[1..][i] == r;
      assert rs[i + 1] == r && Apart(rs[0], r);
    }
    forall r | r in Members(rs) && r != rs[0] ensures r in Members(rs[1..]) {
      var i :| 0 <= i < |rs| && rs[i] == r;
      assert rs[1..][i - 1] == r;
    }
  }

  lemma {:induction false} AppliedIsWoven(s: string, rs: seq<Replacement>, cursor: nat)
    requires Ascending(rs) && Separate(s, Members(rs)) && cursor <= |s|
    requires forall r <- Members(rs) :: cursor <= r.start
    ensures Applied(s, rs, cursor) == Woven(s, Members(rs), cursor)
    decreases |rs|
  {
    hide Woven;
    if rs == [] {
      assert Members(rs) == {};
      WovenCopies(s, {}, cursor, |s|);
      EndIsBare(s);
    } else {
      FirstOfAscending(s, rs);
      WovenTakesFirst(s, Members(rs), rs[0], cursor);
      AppliedIsWoven(s, rs[1..], rs[0].end);
    }
  }

  lemma EndIsBare(s: string)
    ensures Woven(s, {}, |s|) == ""
  {
  }

  lemma {:induction false} SplicedIsWoven(s: string, rs: seq<Replacement>)
    requires Ascending(rs) && Separate(s, Members(rs))
    ensures SplicedBackwards(s, rs) == Woven(s, Members(rs), 0)
    decreases |rs|
  {
    hide Woven;
    if rs == [] {
      assert Members(rs) == {};
      WovenCopies(s, {}, 0, |s|);
      EndIsBare(s);
    } else {
      var r, rest := rs[0], Members(rs[1..]);
      FirstOfAscending(s, rs);
      WovenTakesFirst(s, Members(rs), r, 0);
      SplicedIsWoven(s, rs[1..]);
      WovenCopies(s, rest, 0, r.end);
      RestStartsWithText(s, Woven(s, rest, r.end), r);
    }
  }

  /** Splicing at a range in front of text that was not spliced. */
  lemma RestStartsWithText(s: string, tail: string, r: Replacement)
    requires r.start <= r.end <= |s|
    ensures var spliced := s[0..r.end] + tail;
            spliced[..r.start] == s[..r.start] == s[0..r.start] && spliced[r.end..] == tail
  {
  }

  // ---------------------------------------------------------------- any order of the list

  /** A list of ranges of the text, pairwise disjoint, no two starting at one place. */
  ghost predicate AllApart(s: string, rs: seq<Replacement>) {
    && (forall i :: 0 <= i < |rs| ==> rs[i].start <= rs[i].end <= |s|)
    && (forall i, j :: 0 <= i < j < |rs| ==> Apart(rs[i], rs[j]))
  }

  lemma MembersSeparate(s: string, rs: seq<Replacement>)
    requires AllApart(s, rs)
    ensures Separate(s, Members(rs))
  {
    forall a, b | a in Members(rs) && b in Members(rs) && a != b ensures Apart(a, b) {
      var i, j :| 0 <= i < |rs| && rs[i] == a && 0 <= j < |rs| && rs[j] == b;
      assert if i < j then Apart(rs[i], rs[j]) else Apart(rs[j], rs[i]);
    }
  }

  lemma {:induction false} InsertKeeps(r: Replacement, rs: seq<Replacement>)
    requires Ascending(rs) && forall other <- Members(rs) :: other.start != r.start
    ensures Ascending(Insert(r, rs)) && Members(Insert(r, rs)) == Members(rs) + {r}
    decreases |rs|
  {
    if rs == [] {
    } else if r.start <= rs[0].start {
      assert r.start < rs[0].start by { assert rs[0] in Members(rs); }
      assert forall i :: 0 < i < |rs| ==> rs[0].start < rs[i].start;
      assert Members([r] + rs) == Members(rs) + {r};
    } else {
      TailKeeps(rs);
      InsertKeeps(r, rs[1..]);
      var more := Insert(r, rs[1..]);
      assert Members([rs[0]] + more) == Members(more) + {rs[0]};
      forall i | 0 <= i < |more| ensures rs[0].start < more[i].start {
        assert more[i] in Members(more);
        if more[i] != r { var k :| 0 <= k < |rs[1..]| && rs[1..][k] == more[i]; assert rs[k + 1] == more[i]; }
      }
    }
  }

  lemma TailKeeps(rs: seq<Replacement>)
    requires rs != []
    ensures Members(rs) == Members(rs[1..]) + {rs[0]}
    ensures Ascending(rs) ==> Ascending(rs[1..])
  {
    assert rs == [rs[0]] + rs[1..];
  }

  lemma {:induction false} SortKeeps(s: string, rs: seq<Replacement>)
    requires AllApart(s, rs)
    ensures Ascending(SortByStart(rs)) && Members(SortByStart(rs)) == Members(rs)
    decreases |rs|
  {
    if rs != [] {
      TailKeeps(rs);
      SortKeeps(s, rs[1..]);
      forall other | other in Members(rs[1..]) ensures other.start != rs[0].start {
        var i :| 0 <= i < |rs[1..]| && rs[1..][i] == other;
        assert Apart(rs[0], rs[i + 1]);
      }
      InsertKeeps(rs[0], SortByStart(rs[1..]));
    }
  }

  lemma SortedApplyIsWoven(s: string, rs: seq<Replacement>)
    requires AllApart(s, rs)
    ensures Applied(s, SortByStart(rs), 0) == Woven(s, Members(rs), 0)
  {
    MembersSeparate(s, rs);
    SortKeeps(s, rs);
    AppliedIsWoven(s, SortByStart(rs), 0);
  }

  /** Disjoint ranges may be listed in any order, and both ways of replacing give the same text. */
  lemma SplicersAgree(s: string, rs: seq<Replacement>, other: seq<Replacement>, inOrder: seq<Replacement>)
    requires AllApart(s, rs) && AllApart(s, other) && Members(other) == Members(rs)
    requires Ascending(inOrder) && Members(inOrder) == Members(rs)
    ensures Applied(s, SortByStart(rs), 0) == Applied(s, SortByStart(other), 0) == SplicedBackwards(s, inOrder)
  {
    hide Woven;
    SortedApplyIsWoven(s, rs);
    SortedApplyIsWoven(s, other);
    MembersSeparate(s, rs);
    SplicedIsWoven(s, inOrder);
  }

  /** Two insertions at one place come out in the order they are listed in, so distinct starts are needed. */
  lemma EqualStartsKeepTheirOrder()
    ensures var a, b := Replacement(0, 0, "a"), Replacement(0, 0, "b");
            && Applied("", SortByStart([a, b]), 0) == "ab"
            && Applied("", SortByStart([b, a]), 0) == "ba"
  {
    var a, b := Replacement(0, 0, "a"), Replacement(0, 0, "b");
    SortOfTwo(a, b);
    SortOfTwo(b, a);
    assert [a, b][1..] == [b] && [b, a][1..] == [a] && [a][1..] == [] && [b][1..] == [];
    assert Applied("", [b], 0) == "b" && Applied("", [a], 0) == "a";
    assert "" + "a" + "b" == "ab" && "" + "b" + "a" == "ba";
  }

  lemma SortOfTwo(first: Replacement, second: Replacement)
    requires first.start <= second.start
    ensures SortByStart([first, second]) == [first, second]
  {
    assert [first, second][1..] == [second] && [second][1..] == [];
    assert SortByStart([second]) == [second];
  }

  lemma Reassociate(a: string, b: string, c: string, d: string)
    ensures a + b + (c + d) == a + (b + c) + d
  {
  }

  // ---------------------------------------------------------------- the loops

  lemma NothingApplied(s: string)
    ensures Applied(s, SortByStart([]), 0) == s
  {
  }

  method ApplyReplacements(source: string, replacements: seq<Replacement>) returns (output: string)
    ensures output == Applied(source, SortByStart(replacements), 0)
    ensures AllApart(source, replacements) ==> output == Woven(source, Members(replacements), 0)
  {
    hide Woven;
    hide Slice;
    hide SortByStart;
    if AllApart(source, replacements) { SortedApplyIsWoven(source, replacements); }
    if |replacements| == 0 {
      NothingApplied(source);
      return source;
    }
    output := "";
    var cursor := 0;
    var ordered := SortByStart(replacements);
    for i := 0 to |ordered|
      invariant output + Applied(source, ordered[i..], cursor) == Applied(source, ordered, 0)
    {
      assert ordered[i..][1..] == ordered[i + 1..];
      Reassociate(output, Slice(source, cursor, ordered[i].start), ordered[i].text, Applied(source, ordered[i + 1..], ordered[i].end));
      output := output + Slice(source, cursor, ordered[i].start);
      output := output + ordered[i].text;
      cursor := ordered[i].end;
    }
    output := output + Slice(source, cursor, |source|);
  }

  method SpliceFromTheEnd(source: string, replacements: seq<Replacement>) returns (output: string)
    ensures output == SplicedBackwards(source, replacements)
    ensures Ascending(replacements) && Separate(source, Members(replacements))
            ==> output == Woven(source, Members(replacements), 0)
  {
    hide Woven;
    output := source;
    for i := |replacements| downto 0
      invariant output == SplicedBackwards(source, replacements[i..])
    {
      assert replacements[i..][1..] == replacements[i + 1..];
      output := Slice(output, 0, replacements[i].start) + replacements[i].text
                + Slice(output, replacements[i].end, |output|);
    }
    assert replacements[0..] == replacements;
    if Ascending(replacements) && Separate(source, Members(replacements)) { SplicedIsWoven(source, replacements); }
  }
}
