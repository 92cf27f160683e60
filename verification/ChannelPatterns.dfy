/**
 * Channel patterns of packages/broadcast: matching a channel name against a pattern and choosing among
 * definitions (src/auth.ts), filling a pattern in (src/contracts.ts), and the names sent over the wire
 * (src/runtime.ts).
 */
module ChannelPatterns {
  import opened Prelude
  import opened Text

  type Params = map<string, string>

  // ---------------------------------------------------------------- segments

  predicate IsLetter(c: char) {
    'A' <= c <= 'Z' || 'a' <= c <= 'z' || c == '_'
  }

  predicate IsDigit(c: char) {
    '0' <= c <= '9'
  }

  predicate IsParamName(s: string) {
    s != "" && IsLetter(s[0]) && forall c <- s :: IsLetter(c) || IsDigit(c)
  }

  /** The parameter a segment stands for, if it is a wildcard. */
  function Wildcard(segment: string): Option<string> {
    if |segment| > 2 && segment[0] == '{' && segment[|segment| - 1] == '}' && IsParamName(segment[1..|segment| - 1])
    then Some(segment[1..|segment| - 1]) else None
  }

  /** What a fixed segment of a pattern, or the value of a parameter, may be. */
  predicate IsPlain(s: string) {
    s != "" && forall c <- s :: IsLetter(c) || IsDigit(c) || c == '-'
  }

  predicate ValidPattern(pattern: string) {
    forall segment <- Split(pattern, '.') :: Wildcard(segment).Some? || IsPlain(segment)
  }

  // ---------------------------------------------------------------- matching

  const PROTO := "__proto__"

  /** Assigning a string to the `__proto__` property of a plain object leaves the object as it is. */
  function Assign(params: Params, name: string, value: string): Params {
    if name == PROTO then params else params[name := value]
  }

  function MatchFrom(ps: seq<string>, cs: seq<string>, params: Params): Option<Params>
    requires |ps| == |cs|
  {
    if ps == [] then Some(params)
    else match Wildcard(ps[0])
      case Some(name) => MatchFrom(ps[1..], cs[1..], Assign(params, name, cs[0]))
      case None => if ps[0] == cs[0] then MatchFrom(ps[1..], cs[1..], params) else None
  }

  function Match(pattern: string, channel: string): Option<Params> {
    var ps, cs := Split(pattern, '.'), Split(channel, '.');
    if |ps| != |cs| then None else MatchFrom(ps, cs, map[])
  }

  method MatchPattern(pattern: string, channel: string) returns (r: Option<Params>)
    ensures r == Match(pattern, channel)
  {
    var patternSegments, channelSegments := Split(pattern, '.'), Split(channel, '.');
    if |patternSegments| != |channelSegments| { return None; }
    var params: Params := map[];
    for index := 0 to |patternSegments|
      invariant MatchFrom(patternSegments[index..], channelSegments[index..], params)
                == MatchFrom(patternSegments, channelSegments, map[])
    {
      assert patternSegments[index..][1..] == patternSegments[index + 1..];
      assert channelSegments[index..][1..] == channelSegments[index + 1..];
      match Wildcard(patternSegments[index])
      case Some(name) => params := Assign(params, name, channelSegments[index]);
      case None => if patternSegments[index] != channelSegments[index] { return None; }
    }
    r := Some(params);
  }

  // ---------------------------------------------------------------- filling in

  function FillSegments(ps: seq<string>, params: Params): Option<seq<string>> {
    if ps == [] then Some([])
    else
      var head := match Wildcard(ps[0]) case Some(name) => Get(params, name) case None => Some(ps[0]);
      var rest := FillSegments(ps[1..], params);
      if head.None? || rest.None? then None else Some([head.value] + rest.value)
  }

  /** `formatChannelPattern`; nothing when a parameter is missing. */
  function Fill(pattern: string, params: Params): Option<string> {
    match FillSegments(Split(pattern, '.'), params)
    case None => None
    case Some(segments) => Some(Join(segments, '.'))
  }

  // ---------------------------------------------------------------- what matching means

  predicate Fits(p: string, c: string) {
    Wildcard(p).Some? || p == c
  }

  lemma {:induction false} MatchesWhenAllFit(ps: seq<string>, cs: seq<string>, params: Params)
    requires |ps| == |cs|
    ensures MatchFrom(ps, cs, params).Some? <==> forall k :: 0 <= k < |ps| ==> Fits(ps[k], cs[k])
    decreases |ps|
  {
    if ps != [] {
      var next := if Wildcard(ps[0]).Some? then Assign(params, Wildcard(ps[0]).value, cs[0]) else params;
      MatchesWhenAllFit(ps[1..], cs[1..], next);
      if forall k :: 0 <= k < |ps| ==> Fits(ps[k], cs[k]) {
        forall k | 0 <= k < |ps[1..]| ensures Fits(ps[1..][k], cs[1..][k]) { assert Fits(ps[k + 1], cs[k + 1]); }
      }
      if Fits(ps[0], cs[0]) && forall k :: 0 <= k < |ps[1..]| ==> Fits(ps[1..][k], cs[1..][k]) {
        forall k | 0 <= k < |ps| ensures Fits(ps[k], cs[k]) {
          if k > 0 { assert Fits(ps[1..][k - 1], cs[1..][k - 1]); }
        }
      }
    }
  }

  /** The parameters are the wildcards' names, but for `__proto__`; a repeated name has the last value. */
  lemma {:induction false} MatchedParams(ps: seq<string>, cs: seq<string>, params: Params, name: string)
    requires |ps| == |cs| && MatchFrom(ps, cs, params).Some?
    ensures var m := MatchFrom(ps, cs, params).value;
            && (Some(name) !in Wildcards(ps) ==> Get(m, name) == Get(params, name))
            && (name == PROTO ==> Get(m, name) == Get(params, name))
    decreases |ps|
  {
    if ps != [] {
      var next := if Wildcard(ps[0]).Some? then Assign(params, Wildcard(ps[0]).value, cs[0]) else params;
      MatchedParams(ps[1..], cs[1..], next, name);
      assert Wildcards(ps) == [Wildcard(ps[0])] + Wildcards(ps[1..]);
    }
  }

  function Wildcards(ps: seq<string>): (ws: seq<Option<string>>)
    ensures |ws| == |ps| && forall k :: 0 <= k < |ps| ==> ws[k] == Wildcard(ps[k])
  {
    if ps == [] then [] else [Wildcard(ps[0])] + Wildcards(ps[1..])
  }

  lemma {:induction false} LaterValueWins(ps: seq<string>, cs: seq<string>, params: Params, i: nat) returns (l: nat)
    requires |ps| == |cs| && MatchFrom(ps, cs, params).Some?
    requires i < |ps| && Wildcard(ps[i]).Some? && Wildcard(ps[i]).value != PROTO
    ensures i <= l < |ps| && Wildcard(ps[l]) == Wildcard(ps[i])
    ensures Get(MatchFrom(ps, cs, params).value, Wildcard(ps[i]).value) == Some(cs[l])
    decreases |ps|
  {
    var name := Wildcard(ps[i]).value;
    var next := if Wildcard(ps[0]).Some? then Assign(params, Wildcard(ps[0]).value, cs[0]) else params;
    if i > 0 {
      l := LaterValueWins(ps[1..], cs[1..], next, i - 1);
      l := l + 1;
    } else if Some(name) in Wildcards(ps[1..]) {
      var k :| 0 <= k < |ps[1..]| && Wildcards(ps[1..])[k] == Some(name);
      l := LaterValueWins(ps[1..], cs[1..], next, k);
      l := l + 1;
    } else {
      MatchedParams(ps[1..], cs[1..], next, name);
      l := 0;
    }
  }

  lemma {:induction false} FilledSegments(ps: seq<string>, params: Params)
    ensures var f := FillSegments(ps, params);
            if f.Some? then
              |f.value| == |ps| && forall k :: 0 <= k < |ps| ==>
                (if Wildcard(ps[k]).Some? then Get(params, Wildcard(ps[k]).value) == Some(f.value[k]) else f.value[k] == ps[k])
            else exists k :: 0 <= k < |ps| && Wildcard(ps[k]).Some? && Wildcard(ps[k]).value !in params
    decreases |ps|
  {
    if ps != [] {
      FilledSegments(ps[1..], params);
      if FillSegments(ps, params).None? && !(Wildcard(ps[0]).Some? && Wildcard(ps[0]).value !in params) {
        var k :| 0 <= k < |ps[1..]| && Wildcard(ps[1..][k]).Some? && Wildcard(ps[1..][k]).value !in params;
        assert ps[k + 1] == ps[1..][k];
      }
    }
  }

  // ---------------------------------------------------------------- filling in undoes matching, exactly

  /** No parameter is called `__proto__`. */
  predicate NoProto(ps: seq<string>) {
    forall i :: 0 <= i < |ps| ==> Wildcard(ps[i]) != Some(PROTO)
  }

  /** No parameter twice, none called `__proto__`. */
  predicate Faithful(ps: seq<string>) {
    && NoProto(ps)
    && (forall i, j :: 0 <= i < j < |ps| && Wildcard(ps[i]).Some? ==> Wildcard(ps[i]) != Wildcard(ps[j]))
  }

  lemma FillUndoesMatch(ps: seq<string>, cs: seq<string>)
    requires |ps| == |cs| && Faithful(ps) && MatchFrom(ps, cs, map[]).Some?
    ensures FillSegments(ps, MatchFrom(ps, cs, map[]).value) == Some(cs)
  {
    hide MatchFrom;
    hide FillSegments;
    hide Wildcard;
    var m := MatchFrom(ps, cs, map[]).value;
    MatchesWhenAllFit(ps, cs, map[]);
    forall k | 0 <= k < |ps| && Wildcard(ps[k]).Some? ensures Get(m, Wildcard(ps[k]).value) == Some(cs[k]) {
      var l := LaterValueWins(ps, cs, map[], k);
      assert l == k;
    }
    FilledSegments(ps, m);
    var f := FillSegments(ps, m);
    assert f.Some? && |f.value| == |cs|;
    forall k | 0 <= k < |ps| ensures f.value[k] == cs[k] { assert Fits(ps[k], cs[k]); }
    assert f.value == cs;
  }

  /** A channel the pattern matches, with one value at `i` and another at every other wildcard. */
  function Odd(ps: seq<string>, i: nat): (cs: seq<string>)
    ensures |cs| == |ps|
  {
    seq(|ps|, k requires 0 <= k < |ps| => if Wildcard(ps[k]).None? then ps[k] else if k == i then "a" else "b")
  }

  lemma OddMatches(ps: seq<string>, i: nat)
    ensures MatchFrom(ps, Odd(ps, i), map[]).Some?
  {
    MatchesWhenAllFit(ps, Odd(ps, i), map[]);
  }

  lemma UnfaithfulLoses(ps: seq<string>) returns (i: nat)
    requires !Faithful(ps)
    ensures MatchFrom(ps, Odd(ps, i), map[]).Some?
    ensures FillSegments(ps, MatchFrom(ps, Odd(ps, i), map[]).value) != Some(Odd(ps, i))
  {
    if k :| 0 <= k < |ps| && Wildcard(ps[k]) == Some(PROTO) {
      i := k;
      OddMatches(ps, i);
      var m := MatchFrom(ps, Odd(ps, i), map[]).value;
      MatchedParams(ps, Odd(ps, i), map[], PROTO);
      FilledSegments(ps, m);
    } else {
      var k, j :| 0 <= k < j < |ps| && Wildcard(ps[k]).Some? && Wildcard(ps[k]) == Wildcard(ps[j]);
      i := k;
      OddMatches(ps, i);
      var m := MatchFrom(ps, Odd(ps, i), map[]).value;
      var l := LaterValueWins(ps, Odd(ps, i), map[], j);
      FilledSegments(ps, m);
    }
  }

  /** Filling the pattern with what it matched always gives the channel back, exactly for faithful patterns. */
  lemma MatchThenFill(pattern: string)
    ensures Faithful(Split(pattern, '.'))
            <==> forall channel {:trigger Match(pattern, channel)} ::
                   Match(pattern, channel).Some? ==> Fill(pattern, Match(pattern, channel).value) == Some(channel)
  {
    var ps := Split(pattern, '.');
    if Faithful(ps) {
      forall channel | Match(pattern, channel).Some? ensures Fill(pattern, Match(pattern, channel).value) == Some(channel) {
        FillUndoesMatch(ps, Split(channel, '.'));
        JoinOfSplit(channel, '.');
      }
    } else {
      var i := UnfaithfulLoses(ps);
      var cs := Odd(ps, i);
      OddHasNoDots(pattern, i);
      SplitOfJoin(cs, '.');
      var channel := Join(cs, '.');
      assert Match(pattern, channel).Some?;
      var filled := FillSegments(ps, Match(pattern, channel).value);
      if filled.Some? && Join(filled.value, '.') == channel {
        FilledHaveNoDots(pattern, channel, filled.value);
        SplitOfJoin(filled.value, '.');
        assert false;
      }
    }
  }

  lemma OddHasNoDots(pattern: string, i: nat)
    ensures forall c <- Odd(Split(pattern, '.'), i) :: '.' !in c
  {
    JoinOfSplit(pattern, '.');
  }

  lemma FilledHaveNoDots(pattern: string, channel: string, segments: seq<string>)
    requires Match(pattern, channel).Some?
    requires FillSegments(Split(pattern, '.'), Match(pattern, channel).value) == Some(segments)
    ensures segments != [] && forall s <- segments :: '.' !in s
  {
    var ps, cs := Split(pattern, '.'), Split(channel, '.');
    var m := Match(pattern, channel).value;
    JoinOfSplit(pattern, '.');
    JoinOfSplit(channel, '.');
    FilledSegments(ps, m);
    forall k | 0 <= k < |ps| ensures '.' !in segments[k] {
      if Wildcard(ps[k]).Some? {
        if Wildcard(ps[k]).value == PROTO { MatchedParams(ps, cs, map[], PROTO); }
        else { var l := LaterValueWins(ps, cs, map[], k); assert cs[l] in cs; }
      } else {
        assert ps[k] in ps;
      }
    }
  }

  // ---------------------------------------------------------------- matching undoes filling in

  predicate PlainValues(params: Params) {
    forall name <- params :: IsPlain(params[name])
  }

  ghost predicate NamesOnly(ps: seq<string>, params: Params) {
    forall name :: name in params <==> Some(name) in Wildcards(ps)
  }

  lemma FilledFits(ps: seq<string>, params: Params, cs: seq<string>)
    requires FillSegments(ps, params) == Some(cs)
    ensures |cs| == |ps| && MatchFrom(ps, cs, map[]).Some?
  {
    FilledSegments(ps, params);
    MatchesWhenAllFit(ps, cs, map[]);
  }

  lemma FilledValue(ps: seq<string>, params: Params, cs: seq<string>, name: string)
    requires FillSegments(ps, params) == Some(cs) && |cs| == |ps| && MatchFrom(ps, cs, map[]).Some?
    requires Some(name) in Wildcards(ps) && name != PROTO
    ensures Get(MatchFrom(ps, cs, map[]).value, name) == Get(params, name)
  {
    var i :| 0 <= i < |ps| && Wildcards(ps)[i] == Some(name);
    var l := LaterValueWins(ps, cs, map[], i);
    FilledSegments(ps, params);
  }

  lemma FilledIsClean(pattern: string, params: Params, cs: seq<string>)
    requires FillSegments(Split(pattern, '.'), params) == Some(cs) && PlainValues(params)
    ensures cs != [] && forall c <- cs :: '.' !in c
  {
    var ps := Split(pattern, '.');
    JoinOfSplit(pattern, '.');
    FilledSegments(ps, params);
    forall k | 0 <= k < |cs| ensures '.' !in cs[k] {
      if Wildcard(ps[k]).None? { assert ps[k] in ps; } else { assert IsPlain(cs[k]); }
    }
  }

  lemma FillsWhenNamed(ps: seq<string>, params: Params)
    requires NamesOnly(ps, params)
    ensures FillSegments(ps, params).Some?
  {
    hide Wildcard;
    hide FillSegments;
    FilledSegments(ps, params);
    forall k | 0 <= k < |ps| && Wildcard(ps[k]).Some? ensures Wildcard(ps[k]).value in params {
      assert Wildcards(ps)[k] == Some(Wildcard(ps[k]).value);
    }
  }

  lemma MatchedIsFilled(ps: seq<string>, params: Params, cs: seq<string>)
    requires FillSegments(ps, params) == Some(cs) && |cs| == |ps| && MatchFrom(ps, cs, map[]).Some?
    requires NamesOnly(ps, params)
    ensures MatchFrom(ps, cs, map[]) == Some(params - {PROTO})
  {
    hide MatchFrom;
    hide FillSegments;
    hide Wildcard;
    var m := MatchFrom(ps, cs, map[]).value;
    forall name ensures Get(m, name) == Get(params - {PROTO}, name) {
      MatchedParams(ps, cs, map[], name);
      if Some(name) in Wildcards(ps) && name != PROTO { FilledValue(ps, params, cs, name); }
    }
    SameMap(m, params - {PROTO});
  }

  /** A target's channel name matches its pattern and gives the target's parameters back, but for `__proto__`. */
  lemma FillThenMatch(pattern: string, params: Params)
    requires PlainValues(params) && NamesOnly(Split(pattern, '.'), params)
    ensures Fill(pattern, params).Some? && Match(pattern, Fill(pattern, params).value) == Some(params - {PROTO})
  {
    hide MatchFrom;
    hide FillSegments;
    hide NamesOnly;
    hide PlainValues;
    var ps := Split(pattern, '.');
    FillsWhenNamed(ps, params);
    var cs := FillSegments(ps, params).value;
    FilledFits(ps, params, cs);
    FilledIsClean(pattern, params, cs);
    SplitOfJoin(cs, '.');
    MatchedIsFilled(ps, params, cs);
  }

  // ---------------------------------------------------------------- choosing a definition

  datatype Found = Found(index: nat, params: Params)

  /** The first loop's test: the pattern is the channel, or it has no parameters. */
  predicate IsExact(pattern: string, channel: string) {
    Match(pattern, channel).Some? && (pattern == channel || Match(pattern, channel).value == map[])
  }

  function FirstExact(patterns: seq<string>, channel: string, from: nat): (r: nat)
    requires from <= |patterns|
    ensures from <= r <= |patterns| && (r < |patterns| ==> IsExact(patterns[r], channel))
    decreases |patterns| - from
  {
    if from == |patterns| || IsExact(patterns[from], channel) then from else FirstExact(patterns, channel, from + 1)
  }

  function FirstMatch(patterns: seq<string>, channel: string, from: nat): (r: nat)
    requires from <= |patterns|
    ensures from <= r <= |patterns| && (r < |patterns| ==> Match(patterns[r], channel).Some?)
    decreases |patterns| - from
  {
    if from == |patterns| || Match(patterns[from], channel).Some? then from else FirstMatch(patterns, channel, from + 1)
  }

  /** The first exact definition, or else the first that matches. */
  function Resolve(patterns: seq<string>, channel: string): Option<Found> {
    var e, m := FirstExact(patterns, channel, 0), FirstMatch(patterns, channel, 0);
    if e < |patterns| then Some(Found(e, Match(patterns[e], channel).value))
    else if m < |patterns| then Some(Found(m, Match(patterns[m], channel).value))
    else None
  }

  method ResolveChannelMatch(channel: string, patterns: seq<string>) returns (r: Option<Found>)
    ensures r == Resolve(patterns, channel)
  {
    hide Match;
    for i := 0 to |patterns|
      invariant FirstExact(patterns, channel, i) == FirstExact(patterns, channel, 0)
    {
      var params := MatchPattern(patterns[i], channel);
      if params.Some? && (patterns[i] == channel || params.value == map[]) {
        return Some(Found(i, params.value));
      }
    }
    for i := 0 to |patterns|
      invariant FirstMatch(patterns, channel, i) == FirstMatch(patterns, channel, 0)
    {
      var params := MatchPattern(patterns[i], channel);
      if params.Some? { return Some(Found(i, params.value)); }
    }
    r := None;
  }

  lemma {:induction false} FirstOnes(patterns: seq<string>, channel: string, from: nat)
    requires from <= |patterns|
    ensures forall k :: from <= k < FirstExact(patterns, channel, from) ==> !IsExact(patterns[k], channel)
    ensures forall k :: from <= k < FirstMatch(patterns, channel, from) ==> Match(patterns[k], channel).None?
    decreases |patterns| - from
  {
    hide Match;
    if from < |patterns| { FirstOnes(patterns, channel, from + 1); }
  }

  /** Something is found exactly when some definition matches, and what is found matches with its parameters. */
  lemma ResolvesWhenMatched(patterns: seq<string>, channel: string)
    ensures Resolve(patterns, channel).Some? <==> exists k :: 0 <= k < |patterns| && Match(patterns[k], channel).Some?
    ensures Resolve(patterns, channel).Some? ==>
              var f := Resolve(patterns, channel).value;
              f.index < |patterns| && Match(patterns[f.index], channel) == Some(f.params)
  {
    hide Match;
    FirstOnes(patterns, channel, 0);
  }

  lemma {:induction false} PatternMatchesItself(pattern: string)
    ensures Match(pattern, pattern).Some?
  {
    var ps := Split(pattern, '.');
    MatchesWhenAllFit(ps, ps, map[]);
  }

  predicate Distinct(patterns: seq<string>) {
    forall i, j :: 0 <= i < j < |patterns| ==> patterns[i] != patterns[j]
  }

  /** A pattern whose wildcards are all called `__proto__` matches without recording a parameter. */
  predicate OnlyProto(pattern: string) {
    var ps := Split(pattern, '.');
    forall k :: 0 <= k < |ps| && Wildcard(ps[k]).Some? ==> Wildcard(ps[k]).value == PROTO
  }

  lemma OnlyProtoNames(pattern: string, name: string)
    requires OnlyProto(pattern) && name != PROTO
    ensures Some(name) !in Wildcards(Split(pattern, '.'))
  {
    hide Wildcard;
  }

  lemma NoParamsMeansOnlyProto(pattern: string, channel: string)
    requires Match(pattern, channel).Some?
    ensures Match(pattern, channel).value == map[] <==> OnlyProto(pattern)
  {
    hide MatchFrom;
    hide Wildcard;
    var ps, cs := Split(pattern, '.'), Split(channel, '.');
    var m := Match(pattern, channel).value;
    if OnlyProto(pattern) {
      forall name ensures Get(m, name) == None {
        MatchedParams(ps, cs, map[], name);
        if name != PROTO { OnlyProtoNames(pattern, name); }
      }
      SameMap(m, map[]);
    } else {
      var k :| 0 <= k < |ps| && Wildcard(ps[k]).Some? && Wildcard(ps[k]).value != PROTO;
      var l := LaterValueWins(ps, cs, map[], k);
      assert Wildcard(ps[k]).value in m;
    }
  }

  /**
   * The definition whose pattern is the channel is chosen, exactly when none before it matches by `__proto__`
   * wildcards alone.
   */
  lemma ExactPatternWins(patterns: seq<string>, channel: string, e: nat)
    requires Distinct(patterns) && e < |patterns| && patterns[e] == channel
    ensures Resolve(patterns, channel).Some?
    ensures Resolve(patterns, channel).value.index == e
            <==> forall k :: 0 <= k < e ==> !(OnlyProto(patterns[k]) && Match(patterns[k], channel).Some?)
  {
    hide Match;
    hide OnlyProto;
    hide FirstExact;
    hide FirstMatch;
    PatternMatchesItself(channel);
    FirstOnes(patterns, channel, 0);
    assert IsExact(patterns[e], channel);
    var first := FirstExact(patterns, channel, 0);
    assert first <= e;
    forall k | 0 <= k < e ensures IsExact(patterns[k], channel) <==> OnlyProto(patterns[k]) && Match(patterns[k], channel).Some? {
      if Match(patterns[k], channel).Some? { NoParamsMeansOnlyProto(patterns[k], channel); }
    }
  }

  lemma ProtoMatchesAnything(p: string, channel: string)
    requires Wildcard(p) == Some(PROTO) && '.' !in p && '.' !in channel
    ensures Match(p, channel) == Some(map[])
  {
    hide Wildcard;
    SplitOfPart(p, '.');
    SplitOfPart(channel, '.');
    var ps, cs := [p], [channel];
    assert ps[1..] == [] && cs[1..] == [] && ps[0] == p;
    assert MatchFrom(ps, cs, map[]) == MatchFrom(ps[1..], cs[1..], Assign(map[], PROTO, channel));
  }

  lemma ProtoIsAWildcard()
    ensures Wildcard("{__proto__}") == Some(PROTO) && '.' !in "{__proto__}"
  {
    var p := "{__proto__}";
    assert p[1..|p| - 1] == PROTO;
  }

  /** A definition of one `__proto__` parameter, listed first, takes a channel from the definition it names. */
  lemma ProtoShadowsExact(channel: string)
    requires '.' !in channel && channel != "{__proto__}"
    ensures Match(channel, channel).Some? && Resolve(["{__proto__}", channel], channel) == Some(Found(0, map[]))
  {
    hide Match;
    hide Wildcard;
    PatternMatchesItself(channel);
    ProtoIsAWildcard();
    ProtoMatchesAnything("{__proto__}", channel);
    assert IsExact(["{__proto__}", channel][0], channel);
  }

  /** Without parameters called `__proto__`, the exact definition wins whatever the order of definitions. */
  lemma ExactPatternWinsInAnyOrder(patterns: seq<string>, channel: string, e: nat)
    requires Distinct(patterns) && e < |patterns| && patterns[e] == channel
    requires forall p <- patterns :: NoProto(Split(p, '.'))
    ensures Resolve(patterns, channel).Some? && patterns[Resolve(patterns, channel).value.index] == channel
  {
    hide Match;
    hide FirstExact;
    hide FirstMatch;
    ExactPatternWins(patterns, channel, e);
    forall k | 0 <= k < e ensures !(OnlyProto(patterns[k]) && Match(patterns[k], channel).Some?) {
      assert NoProto(Split(patterns[k], '.'));
      if OnlyProto(patterns[k]) && Match(patterns[k], channel).Some? { FixedPatternIsItsChannel(patterns[k], channel); }
    }
  }

  lemma FixedPatternIsItsChannel(pattern: string, channel: string)
    requires OnlyProto(pattern) && NoProto(Split(pattern, '.')) && Match(pattern, channel).Some?
    ensures pattern == channel
  {
    hide Wildcard;
    hide MatchFrom;
    var ps, cs := Split(pattern, '.'), Split(channel, '.');
    MatchesWhenAllFit(ps, cs, map[]);
    forall k | 0 <= k < |ps| ensures ps[k] == cs[k] { assert Fits(ps[k], cs[k]); }
    assert ps == cs;
    JoinOfSplit(pattern, '.');
    JoinOfSplit(channel, '.');
  }

  // ---------------------------------------------------------------- names on the wire

  datatype ChannelType = Public | Private | Presence

  function WireName(t: ChannelType, channel: string): string {
    match t
    case Private => "private-" + channel
    case Presence => "presence-" + channel
    case Public => channel
  }

  /** The channel to look up; nothing for a blank name, which is refused. */
  function Lookup(channel: string): Option<string> {
    var normalized := Trim(channel);
    if normalized == "" then None
    else if StartsWith(normalized, "private-") then Some(normalized[|"private-"|..])
    else if StartsWith(normalized, "presence-") then Some(normalized[|"presence-"|..])
    else Some(normalized)
  }

  predicate HasPrefix(channel: string) {
    StartsWith(channel, "private-") || StartsWith(channel, "presence-")
  }

  /** Looking up a sent channel gives it back, exactly unless it is public and looks like another type. */
  lemma LookupUndoesWireName(t: ChannelType, channel: string)
    requires channel != "" && !IsSpace(channel[0]) && !IsSpace(channel[|channel| - 1])
    ensures Lookup(WireName(t, channel)) == Some(channel) <==> t != Public || !HasPrefix(channel)
  {
    var wire := WireName(t, channel);
    assert wire[|wire| - 1] == channel[|channel| - 1];
    assert Trim(wire) == wire;
    match t
    case Private => assert wire[..8] == "private-" && wire[8..] == channel;
    case Presence => assert wire[..9] == "presence-" && wire[9..] == channel; assert wire[1] == 'r' && wire[2] == 'e';
    case Public =>
  }

  lemma {:induction false} PlainEnds(parts: seq<string>)
    requires parts != [] && forall part <- parts :: IsPlain(part)
    ensures var s := Join(parts, '.'); s != "" && !IsSpace(s[0]) && !IsSpace(s[|s| - 1])
  {
    var s := Join(parts, '.');
    assert IsPlain(parts[0]) && parts[0][0] in parts[0];
    if |parts| == 1 {
      assert s[|s| - 1] in parts[0];
    } else {
      PlainEnds(parts[1..]);
      var rest := Join(parts[1..], '.');
      assert s == parts[0] + ['.'] + rest && s[0] == parts[0][0] && s[|s| - 1] == rest[|rest| - 1];
    }
  }

  lemma FilledArePlain(pattern: string, params: Params, cs: seq<string>)
    requires ValidPattern(pattern) && PlainValues(params) && FillSegments(Split(pattern, '.'), params) == Some(cs)
    ensures cs != [] && forall c <- cs :: IsPlain(c)
  {
    hide IsPlain;
    var ps := Split(pattern, '.');
    FilledSegments(ps, params);
    forall k | 0 <= k < |cs| ensures IsPlain(cs[k]) {
      if Wildcard(ps[k]).None? { assert ps[k] in ps; }
    }
  }

  /**
   * Sent to a private or presence channel built from a definition's pattern, a message is looked up under a
   * name that some definition matches, and a faithful one rebuilds that name from the parameters it is given.
   */
  lemma TargetsResolve(patterns: seq<string>, k: nat, t: ChannelType, params: Params)
    requires k < |patterns| && ValidPattern(patterns[k]) && t != Public
    requires PlainValues(params) && NamesOnly(Split(patterns[k], '.'), params)
    ensures Fill(patterns[k], params).Some?
    ensures var channel := Fill(patterns[k], params).value;
            && Lookup(WireName(t, channel)) == Some(channel)
            && Resolve(patterns, channel).Some?
            && var found := Resolve(patterns, channel).value;
               found.index < |patterns|
               && (Faithful(Split(patterns[found.index], '.')) ==> Fill(patterns[found.index], found.params) == Some(channel))
  {
    hide Match;
    hide Resolve;
    hide Faithful;
    hide NamesOnly;
    hide PlainValues;
    hide Lookup;
    FillThenMatch(patterns[k], params);
    var channel := Fill(patterns[k], params).value;
    var cs := FillSegments(Split(patterns[k], '.'), params).value;
    FilledArePlain(patterns[k], params, cs);
    PlainEnds(cs);
    LookupUndoesWireName(t, channel);
    ResolvesWhenMatched(patterns, channel);
    var found := Resolve(patterns, channel).value;
    MatchThenFill(patterns[found.index]);
  }

  /** `parseWorkerChannelKind`: which kind of channel a name on the wire means, and its name. */
  function WorkerKind(wire: string): (ChannelType, string) {
    if StartsWith(wire, "private-") then (Private, wire[|"private-"|..])
    else if StartsWith(wire, "presence-") then (Presence, wire[|"presence-"|..])
    else (Public, wire)
  }

  /** The worker reads the kind and the name that were sent, exactly unless a public name looks like another kind. */
  lemma KindUndoesWireName(t: ChannelType, channel: string)
    ensures WorkerKind(WireName(t, channel)) == (t, channel) <==> t != Public || !HasPrefix(channel)
  {
    var wire := WireName(t, channel);
    match t
    case Private => assert wire[..8] == "private-" && wire[8..] == channel;
    case Presence => assert wire[..9] == "presence-" && wire[9..] == channel && wire[1] == 'r' && wire[2] == 'e'; PresenceIsNotPrivate(wire);
    case Public =>
  }

  lemma PresenceIsNotPrivate(wire: string)
    requires |wire| > 8 && wire[2] == 'e'
    ensures !StartsWith(wire, "private-")
  {
    assert wire[..8][2] == 'e' && "private-"[2] == 'i';
  }

  // ---------------------------------------------------------------- what a wildcard is

  /** A letter or an underscore, and then letters, digits and underscores. */
  ghost predicate IsIdentifier(s: string) {
    && s != "" && !('0' <= s[0] <= '9')
    && forall c <- s :: 'a' <= c <= 'z' || 'A' <= c <= 'Z' || '0' <= c <= '9' || c == '_'
  }

  /** A segment is a wildcard exactly when it is an identifier in braces, which is its parameter. */
  lemma WildcardExactly(segment: string, name: string)
    ensures Wildcard(segment) == Some(name) <==> IsIdentifier(name) && segment == "{" + name + "}"
  {
    if IsIdentifier(name) && segment == "{" + name + "}" {
      assert segment[1..|segment| - 1] == name && name[0] in name;
    }
    if Wildcard(segment) == Some(name) {
      assert segment == "{" + segment[1..|segment| - 1] + "}";
    }
  }

  /** Of the definitions that match, the first is chosen, unless there is one without parameters of its own to fill. */
  lemma FirstDefinitionWins(patterns: seq<string>, channel: string)
    ensures var f := Resolve(patterns, channel);
            f.Some? ==>
              && f.value.index < |patterns|
              && (IsExact(patterns[f.value.index], channel) ==> forall k :: 0 <= k < f.value.index ==> !IsExact(patterns[k], channel))
              && (!IsExact(patterns[f.value.index], channel) ==>
                    && (forall k :: 0 <= k < |patterns| ==> !IsExact(patterns[k], channel))
                    && (forall k :: 0 <= k < f.value.index ==> Match(patterns[k], channel).None?))
  {
    hide Match;
    FirstOnes(patterns, channel, 0);
  }

  /** Spaces around a channel's name do not matter, and a name of spaces only is refused. */
  lemma LookupIgnoresSpaces(before: string, channel: string, after: string)
    requires Blank(before) && Blank(after) && (channel != "" ==> !IsSpace(channel[0]) && !IsSpace(channel[|channel| - 1]))
    ensures Lookup(before + channel + after) == Lookup(channel)
    ensures channel == "" ==> Lookup(before + channel + after) == None
  {
    hide IsSpace;
    TrimOfBlank(before, channel, after);
    TrimOfBlank("", channel, "");
    assert "" + channel + "" == channel;
  }
}
