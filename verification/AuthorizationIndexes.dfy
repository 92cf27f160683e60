/**
 * The three policy indexes: by name, by target object and by the memoised key of a model definition.
 * They describe the same set of policies; the lemmas say exactly when an operation keeps it so.
 */
module AuthorizationIndexes {
  import opened Prelude
  import opened AuthorizationLedger

  /** A class constructor, or a model reference with its definition object. */
  datatype Target = ClassTarget(id: nat) | ModelTarget(id: nat, definition: nat)

  type Policy = Definition<Target>

  /** The key a definition object would compute now: its trimmed name and, when known, its table. */
  type KeyReader = nat -> string

  datatype Indexes = Indexes(byTarget: map<Target, Policy>, byKey: map<string, Policy>, keys: map<nat, string>)

  /** `buildDefinitionKey`: the memoised key, unless it is missing or blank. */
  function KeyOf(keys: map<nat, string>, definition: nat, read: KeyReader): string {
    if definition in keys && keys[definition] != "" then keys[definition] else read(definition)
  }

  function Memoise(keys: map<nat, string>, t: Target, read: KeyReader): map<nat, string> {
    if t.ModelTarget? then keys[t.definition := KeyOf(keys, t.definition, read)] else keys
  }

  /** A target has a key of its own when it is a model whose key is not blank. */
  function TargetKey(keys: map<nat, string>, t: Target, read: KeyReader): Option<string> {
    if t.ModelTarget? && KeyOf(keys, t.definition, read) != "" then Some(KeyOf(keys, t.definition, read)) else None
  }

  /** `assertPolicyRegistrationAvailable` throws. */
  predicate Refused(byName: map<string, Policy>, ix: Indexes, p: Policy, read: KeyReader) {
    || p.name in byName
    || p.body in ix.byTarget
    || (TargetKey(ix.keys, p.body, read).Some? && TargetKey(ix.keys, p.body, read).value in ix.byKey)
  }

  function Add(ix: Indexes, p: Policy, read: KeyReader): Indexes {
    var key := TargetKey(ix.keys, p.body, read);
    Indexes(ix.byTarget[p.body := p],
            if key.Some? then ix.byKey[key.value := p] else ix.byKey,
            Memoise(ix.keys, p.body, read))
  }

  function Remove(ix: Indexes, p: Policy, read: KeyReader): Indexes {
    var key := TargetKey(ix.keys, p.body, read);
    Indexes(ix.byTarget - {p.body},
            if key.Some? then ix.byKey - {key.value} else ix.byKey,
            Memoise(ix.keys, p.body, read))
  }

  // ---------------------------------------------------------------- agreement

  /** A policy stored under its target, or under a key, is the registered one. */
  ghost predicate Registered(byName: map<string, Policy>, p: Policy) {
    Get(byName, p.name) == Some(p)
  }

  /** What agreement asks of one registered policy. */
  ghost predicate Indexed(ix: Indexes, p: Policy) {
    && Get(ix.byTarget, p.body) == Some(p)
    && (p.body.ModelTarget? ==>
          && p.body.definition in ix.keys
          && (ix.keys[p.body.definition] != "" ==> Get(ix.byKey, ix.keys[p.body.definition]) == Some(p)))
  }

  ghost predicate Agree(byName: map<string, Policy>, ix: Indexes) {
    && (forall n {:trigger NameEntry(byName, ix, n)} {:trigger n in byName} :: NameEntry(byName, ix, n))
    && (forall t {:trigger TargetEntry(byName, ix, t)} {:trigger t in ix.byTarget} :: TargetEntry(byName, ix, t))
    && (forall k {:trigger KeyEntry(byName, ix, k)} {:trigger k in ix.byKey} :: KeyEntry(byName, ix, k))
  }

  /** Another registered policy is about the same definition object. */
  ghost predicate SharedDefinition(byName: map<string, Policy>, p: Policy) {
    p.body.ModelTarget? &&
    exists n :: n in byName && byName[n] != p && byName[n].body.ModelTarget? && byName[n].body.definition == p.body.definition
  }

  /** The memoised key is blank and the definition object now computes another one. */
  predicate KeyAppears(keys: map<nat, string>, t: Target, read: KeyReader) {
    t.ModelTarget? && t.definition in keys && keys[t.definition] == "" && read(t.definition) != ""
  }

  /** What agreement asks of one entry of the key index. */
  ghost predicate KeyEntry(byName: map<string, Policy>, ix: Indexes, k: string) {
    k in ix.byKey ==>
      var p := ix.byKey[k];
      && Registered(byName, p)
      && p.body.ModelTarget? && Get(ix.keys, p.body.definition) == Some(k) && k != ""
  }

  ghost predicate TargetEntry(byName: map<string, Policy>, ix: Indexes, t: Target) {
    t in ix.byTarget ==> ix.byTarget[t].body == t && Registered(byName, ix.byTarget[t])
  }

  ghost predicate NameEntry(byName: map<string, Policy>, ix: Indexes, n: string) {
    n in byName ==> byName[n].name == n && Indexed(ix, byName[n])
  }

  /** The key appeared late, and another policy was registered while it was blank. */
  ghost predicate LateShared(byName: map<string, Policy>, ix: Indexes, p: Policy, read: KeyReader) {
    KeyAppears(ix.keys, p.body, read) && SharedDefinition(byName, p)
  }

  lemma AddKeepsName(byName: map<string, Policy>, ix: Indexes, p: Policy, read: KeyReader, n: string)
    requires Agree(byName, ix) && !Refused(byName, ix, p, read) && !LateShared(byName, ix, p, read)
    ensures NameEntry(byName[p.name := p], Add(ix, p, read), n)
  {
    assert NameEntry(byName, ix, n);
  }

  lemma AddKeepsTarget(byName: map<string, Policy>, ix: Indexes, p: Policy, read: KeyReader, t: Target)
    requires Agree(byName, ix) && !Refused(byName, ix, p, read)
    ensures TargetEntry(byName[p.name := p], Add(ix, p, read), t)
  {
    assert TargetEntry(byName, ix, t);
  }

  lemma AddKeepsKey(byName: map<string, Policy>, ix: Indexes, p: Policy, read: KeyReader, k: string)
    requires Agree(byName, ix) && !Refused(byName, ix, p, read)
    ensures KeyEntry(byName[p.name := p], Add(ix, p, read), k)
  {
    assert KeyEntry(byName, ix, k);
  }

  lemma AddBreaks(byName: map<string, Policy>, ix: Indexes, p: Policy, read: KeyReader)
    requires Agree(byName, ix) && !Refused(byName, ix, p, read) && LateShared(byName, ix, p, read)
    ensures !Agree(byName[p.name := p], Add(ix, p, read))
  {
    var n :| n in byName && byName[n] != p && byName[n].body.ModelTarget? && byName[n].body.definition == p.body.definition;
    assert NameEntry(byName, ix, n);
    assert !NameEntry(byName[p.name := p], Add(ix, p, read), n);
  }

  /**
   * A registration keeps the indexes in agreement exactly when it does not memoise a key that appeared
   * late for a definition object another policy was registered with while the key was blank.
   */
  lemma RegisterAgreesExactly(byName: map<string, Policy>, ix: Indexes, p: Policy, read: KeyReader)
    requires Agree(byName, ix) && !Refused(byName, ix, p, read)
    ensures Agree(byName[p.name := p], Add(ix, p, read)) <==>
            !(KeyAppears(ix.keys, p.body, read) && SharedDefinition(byName, p))
  {
    hide Add, KeyEntry, TargetEntry, NameEntry, Refused, KeyAppears, SharedDefinition;
    if LateShared(byName, ix, p, read) {
      AddBreaks(byName, ix, p, read);
    } else {
      var byName', ix' := byName[p.name := p], Add(ix, p, read);
      forall n ensures NameEntry(byName', ix', n) { AddKeepsName(byName, ix, p, read, n); }
      forall t ensures TargetEntry(byName', ix', t) { AddKeepsTarget(byName, ix, p, read, t); }
      forall k ensures KeyEntry(byName', ix', k) { AddKeepsKey(byName, ix, p, read, k); }
    }
  }

  /** The key that appeared late is another policy's. */
  predicate LateTaken(ix: Indexes, p: Policy, read: KeyReader) {
    KeyAppears(ix.keys, p.body, read) && read(p.body.definition) in ix.byKey
  }

  lemma RemoveKeepsName(byName: map<string, Policy>, ix: Indexes, p: Policy, read: KeyReader, n: string)
    requires Agree(byName, ix) && Registered(byName, p)
    requires !LateShared(byName, ix, p, read) && !LateTaken(ix, p, read)
    ensures NameEntry(byName - {p.name}, Remove(ix, p, read), n)
  {
    assert NameEntry(byName, ix, n) && NameEntry(byName, ix, p.name);
  }

  lemma RemoveKeepsTarget(byName: map<string, Policy>, ix: Indexes, p: Policy, read: KeyReader, t: Target)
    requires Agree(byName, ix) && Registered(byName, p)
    ensures TargetEntry(byName - {p.name}, Remove(ix, p, read), t)
  {
    assert TargetEntry(byName, ix, t);
  }

  lemma RemoveKeepsKey(byName: map<string, Policy>, ix: Indexes, p: Policy, read: KeyReader, k: string)
    requires Agree(byName, ix) && Registered(byName, p)
    ensures KeyEntry(byName - {p.name}, Remove(ix, p, read), k)
  {
    assert KeyEntry(byName, ix, k) && NameEntry(byName, ix, p.name);
  }

  lemma RemoveBreaks(byName: map<string, Policy>, ix: Indexes, p: Policy, read: KeyReader)
    requires Agree(byName, ix) && Registered(byName, p)
    requires LateShared(byName, ix, p, read) || LateTaken(ix, p, read)
    ensures !Agree(byName - {p.name}, Remove(ix, p, read))
  {
    assert NameEntry(byName, ix, p.name);
    if LateShared(byName, ix, p, read) {
      var n :| n in byName && byName[n] != p && byName[n].body.ModelTarget? && byName[n].body.definition == p.body.definition;
      assert NameEntry(byName, ix, n) && n != p.name;
      assert !NameEntry(byName - {p.name}, Remove(ix, p, read), n);
    } else {
      var q := ix.byKey[read(p.body.definition)];
      assert KeyEntry(byName, ix, read(p.body.definition)) && NameEntry(byName, ix, q.name);
      assert !NameEntry(byName - {p.name}, Remove(ix, p, read), q.name);
    }
  }

  /**
   * Taking a policy out keeps the indexes in agreement exactly when its key did not appear late, or the
   * late key is nobody's and no other policy is about the same definition object. In particular a
   * memoised key that is not blank always removes the right entry, whatever the definition computes now.
   */
  lemma UnregisterAgreesExactly(byName: map<string, Policy>, ix: Indexes, p: Policy, read: KeyReader)
    requires Agree(byName, ix) && Registered(byName, p)
    ensures Agree(byName - {p.name}, Remove(ix, p, read)) <==>
            !(KeyAppears(ix.keys, p.body, read) && (read(p.body.definition) in ix.byKey || SharedDefinition(byName, p)))
  {
    hide Remove, KeyEntry, TargetEntry, NameEntry, SharedDefinition, KeyAppears;
    if LateShared(byName, ix, p, read) || LateTaken(ix, p, read) {
      RemoveBreaks(byName, ix, p, read);
    } else {
      var byName', ix' := byName - {p.name}, Remove(ix, p, read);
      forall n ensures NameEntry(byName', ix', n) { RemoveKeepsName(byName, ix, p, read, n); }
      forall t ensures TargetEntry(byName', ix', t) { RemoveKeepsTarget(byName, ix, p, read, t); }
      forall k ensures KeyEntry(byName', ix', k) { RemoveKeepsKey(byName, ix, p, read, k); }
    }
  }

  // ---------------------------------------------------------------- keys that do not appear late

  /** No definition object whose key was memoised as blank computes another one now. */
  ghost predicate KeysSteady(keys: map<nat, string>, read: KeyReader) {
    forall m :: m in keys && keys[m] == "" ==> read(m) == ""
  }

  /** Two policies cannot be registered together. */
  predicate Clash(keys: map<nat, string>, p: Policy, q: Policy, read: KeyReader) {
    || p.body == q.body
    || (TargetKey(keys, p.body, read).Some? && TargetKey(keys, p.body, read) == TargetKey(keys, q.body, read))
  }

  ghost predicate NoClash(byName: map<string, Policy>, keys: map<nat, string>, read: KeyReader) {
    forall m, n :: m in byName && n in byName && m != n ==> !Clash(keys, byName[m], byName[n], read)
  }

  lemma AgreementHasNoClash(byName: map<string, Policy>, ix: Indexes, read: KeyReader)
    requires Agree(byName, ix) && KeysSteady(ix.keys, read)
    ensures NoClash(byName, ix.keys, read)
  {
    forall m, n | m in byName && n in byName && m != n ensures !Clash(ix.keys, byName[m], byName[n], read) {
      assert Indexed(ix, byName[m]) && Indexed(ix, byName[n]);
    }
  }

  /** A registration is refused exactly for a bound name or a clash with a registered policy. */
  lemma RefusedIffClash(byName: map<string, Policy>, ix: Indexes, p: Policy, read: KeyReader)
    requires Agree(byName, ix) && KeysSteady(ix.keys, read)
    ensures Refused(byName, ix, p, read) <==>
            p.name in byName || exists n :: n in byName && Clash(ix.keys, p, byName[n], read)
  {
    forall n | n in byName && Clash(ix.keys, p, byName[n], read) ensures Refused(byName, ix, p, read) {
      assert Indexed(ix, byName[n]);
    }
    if p.body in ix.byTarget {
      assert Registered(byName, ix.byTarget[p.body]);
      assert Clash(ix.keys, p, byName[ix.byTarget[p.body].name], read);
    } else if TargetKey(ix.keys, p.body, read).Some? && TargetKey(ix.keys, p.body, read).value in ix.byKey {
      var q := ix.byKey[TargetKey(ix.keys, p.body, read).value];
      assert Registered(byName, q);
      assert Clash(ix.keys, p, byName[q.name], read);
    }
  }

  /** Memoising another key changes neither the keys nor the agreement. */
  lemma MemoiseIsNeutral(byName: map<string, Policy>, ix: Indexes, t: Target, read: KeyReader)
    requires KeysSteady(ix.keys, read)
    ensures KeysSteady(Memoise(ix.keys, t, read), read)
    ensures forall m :: KeyOf(Memoise(ix.keys, t, read), m, read) == KeyOf(ix.keys, m, read)
    ensures Agree(byName, ix) ==> Agree(byName, ix.(keys := Memoise(ix.keys, t, read)))
  {
    var ix' := ix.(keys := Memoise(ix.keys, t, read));
    if Agree(byName, ix) {
      forall n | n in byName ensures byName[n].name == n && Indexed(ix', byName[n]) {
        assert Indexed(ix, byName[n]);
      }
      forall k | k in ix'.byKey ensures
        var q := ix'.byKey[k];
        Registered(byName, q) && q.body.ModelTarget? && Get(ix'.keys, q.body.definition) == Some(k) && k != ""
      {
        assert Registered(byName, ix.byKey[k]);
      }
    }
  }

  /**
   * In agreement, the other two indexes are determined by the by-name index and the memoised keys:
   * so giving the names back gives the targets and the keys back.
   */
  lemma NamesDetermineIndexes(byName: map<string, Policy>, ix: Indexes, ix': Indexes)
    requires Agree(byName, ix) && Agree(byName, ix')
    requires forall m :: m in ix.keys ==> Get(ix'.keys, m) == Some(ix.keys[m])
    ensures ix.byTarget == ix'.byTarget && ix.byKey == ix'.byKey
  {
    forall t ensures Get(ix.byTarget, t) == Get(ix'.byTarget, t) {
      if t in ix.byTarget { assert Registered(byName, ix.byTarget[t]); assert Indexed(ix', byName[ix.byTarget[t].name]); }
      if t in ix'.byTarget { assert Registered(byName, ix'.byTarget[t]); assert Indexed(ix, byName[ix'.byTarget[t].name]); }
    }
    forall k ensures Get(ix.byKey, k) == Get(ix'.byKey, k) {
      if k in ix.byKey { assert Registered(byName, ix.byKey[k]); assert Indexed(ix', byName[ix.byKey[k].name]); }
      if k in ix'.byKey { assert Registered(byName, ix'.byKey[k]); assert Indexed(ix, byName[ix'.byKey[k].name]); }
    }
    SameMap(ix.byTarget, ix'.byTarget);
    SameMap(ix.byKey, ix'.byKey);
  }

  /** No definition object got another key, and no memoised key was forgotten. */
  ghost predicate SameKeys(keys: map<nat, string>, keys': map<nat, string>, read: KeyReader) {
    && (forall m :: KeyOf(keys, m, read) == KeyOf(keys', m, read))
    && (forall m :: m in keys ==> Get(keys', m) == Some(keys[m]))
  }

  lemma SameKeysReflexive(keys: map<nat, string>, read: KeyReader)
    ensures SameKeys(keys, keys, read)
  {
  }

  lemma SameKeysTransitive(k0: map<nat, string>, k1: map<nat, string>, k2: map<nat, string>, read: KeyReader)
    requires SameKeys(k0, k1, read) && SameKeys(k1, k2, read)
    ensures SameKeys(k0, k2, read)
  {
  }

  lemma SameKeysSameClashes(keys: map<nat, string>, keys': map<nat, string>, read: KeyReader, byName: map<string, Policy>)
    requires SameKeys(keys, keys', read)
    ensures NoClash(byName, keys, read) <==> NoClash(byName, keys', read)
  {
    forall p: Policy, q: Policy ensures Clash(keys, p, q, read) == Clash(keys', p, q, read) {
    }
  }

  /** One step of a registration or of a withdrawal, when no key appears late. */
  lemma StepAgrees(byName: map<string, Policy>, ix: Indexes, p: Policy, read: KeyReader)
    requires Agree(byName, ix) && KeysSteady(ix.keys, read)
    ensures !Refused(byName, ix, p, read) ==> Agree(byName[p.name := p], Add(ix, p, read))
    ensures Registered(byName, p) ==> Agree(byName - {p.name}, Remove(ix, p, read))
    ensures Agree(byName, ix.(keys := Memoise(ix.keys, p.body, read)))
    ensures KeysSteady(Memoise(ix.keys, p.body, read), read) && SameKeys(ix.keys, Memoise(ix.keys, p.body, read), read)
  {
    MemoiseIsNeutral(byName, ix, p.body, read);
    if !Refused(byName, ix, p, read) { RegisterAgreesExactly(byName, ix, p, read); }
    if Registered(byName, p) { UnregisterAgreesExactly(byName, ix, p, read); }
  }

  // ---------------------------------------------------------------- any sequence of registrations and withdrawals

  /** The by-name index with the other two. */
  datatype Catalogue = Catalogue(byName: map<string, Policy>, ix: Indexes)

  /** What installing, loading, rolling back and disposing consist of. */
  datatype IndexStep = Registers(policy: Policy) | Withdraws(name: string)

  /** A registration refused for its name or target computes no key; one refused for its key has memoised it. */
  function DoStep(c: Catalogue, step: IndexStep, read: KeyReader): Catalogue {
    match step
    case Registers(p) =>
      if p.name in c.byName || p.body in c.ix.byTarget then c
      else if Refused(c.byName, c.ix, p, read) then c.(ix := c.ix.(keys := Memoise(c.ix.keys, p.body, read)))
      else Catalogue(c.byName[p.name := p], Add(c.ix, p, read))
    case Withdraws(name) =>
      if name !in c.byName then c else Catalogue(c.byName - {name}, Remove(c.ix, c.byName[name], read))
  }

  /** Each step comes with what the definition objects compute as their keys at that time. */
  function DoAll(c: Catalogue, steps: seq<(IndexStep, KeyReader)>): Catalogue {
    if steps == [] then c else DoStep(DoAll(c, steps[..|steps| - 1]), steps[|steps| - 1].0, steps[|steps| - 1].1)
  }

  lemma DoOneMore(c: Catalogue, steps: seq<(IndexStep, KeyReader)>, last: (IndexStep, KeyReader))
    ensures DoAll(c, steps + [last]) == DoStep(DoAll(c, steps), last.0, last.1)
  {
    assert (steps + [last])[..|steps|] == steps;
  }

  /** A definition object that once had a blank key keeps it; other keys may change at will. */
  ghost predicate BlanksLast(keys: map<nat, string>, steps: seq<(IndexStep, KeyReader)>) {
    && (forall k :: 0 <= k < |steps| ==> KeysSteady(keys, steps[k].1))
    && (forall j, k, m :: 0 <= j < k < |steps| && steps[j].1(m) == "" ==> steps[k].1(m) == "")
  }

  /** A blank memoised key was blank at the start, or computed as blank by some step. */
  ghost predicate BlankBy(keys: map<nat, string>, steps: seq<(IndexStep, KeyReader)>, m: nat) {
    (m in keys && keys[m] == "") || exists k :: 0 <= k < |steps| && steps[k].1(m) == ""
  }

  lemma {:induction false} BlankKeysWereBlank(c: Catalogue, steps: seq<(IndexStep, KeyReader)>, m: nat)
    requires m in DoAll(c, steps).ix.keys && DoAll(c, steps).ix.keys[m] == ""
    ensures BlankBy(c.ix.keys, steps, m)
    decreases |steps|
  {
    if steps != [] {
      var init, read := steps[..|steps| - 1], steps[|steps| - 1].1;
      var keys := DoAll(c, init).ix.keys;
      assert Get(DoAll(c, steps).ix.keys, m) == Get(keys, m) || DoAll(c, steps).ix.keys[m] == KeyOf(keys, m, read);
      if m in keys && keys[m] == "" { BlankKeysWereBlank(c, init, m); }
    }
  }

  /**
   * Name, target and definition-key indexes describe the same policies after every sequence of registrations,
   * refusals and withdrawals, whoever makes them, while what definition objects compute as keys changes.
   */
  lemma {:induction false} EverySequenceAgrees(c: Catalogue, steps: seq<(IndexStep, KeyReader)>)
    requires Agree(c.byName, c.ix) && BlanksLast(c.ix.keys, steps)
    ensures Agree(DoAll(c, steps).byName, DoAll(c, steps).ix)
    decreases |steps|
  {
    hide Agree, Refused, Add, Remove;
    if steps != [] {
      var init, read := steps[..|steps| - 1], steps[|steps| - 1].1;
      assert forall k :: 0 <= k < |init| ==> init[k] == steps[k];
      EverySequenceAgrees(c, init);
      var before := DoAll(c, init);
      forall m | m in before.ix.keys && before.ix.keys[m] == "" ensures read(m) == "" { BlankKeysWereBlank(c, init, m); }
      match steps[|steps| - 1].0
      case Registers(p) => StepAgrees(before.byName, before.ix, p, read);
      case Withdraws(name) =>
        if name in before.byName {
          BoundIsRegistered(before.byName, before.ix, name);
          StepAgrees(before.byName, before.ix, before.byName[name], read);
        }
    }
  }

  lemma BoundIsRegistered(byName: map<string, Policy>, ix: Indexes, name: string)
    requires Agree(byName, ix) && name in byName
    ensures byName[name].name == name && Registered(byName, byName[name])
  {
    assert NameEntry(byName, ix, name);
  }

  const NOTHING := Catalogue(map[], Indexes(map[], map[], map[]))

  /** A policy registered while its key is blank, and another one with a key. */
  lemma TwoRegistered(p: Policy, q: Policy, blank: KeyReader)
    requires p.name != q.name && p.body.ModelTarget? && q.body.ModelTarget? && p.body.definition != q.body.definition
    requires blank(p.body.definition) == "" && blank(q.body.definition) != ""
    ensures DoStep(DoStep(NOTHING, Registers(p), blank), Registers(q), blank)
         == Catalogue(map[p.name := p, q.name := q],
                      Indexes(map[p.body := p, q.body := q], map[blank(q.body.definition) := q],
                              map[p.body.definition := "", q.body.definition := blank(q.body.definition)]))
  {
    var one := DoStep(NOTHING, Registers(p), blank);
    assert one == Catalogue(map[p.name := p], Indexes(map[p.body := p], map[], map[p.body.definition := ""]));
  }

  /**
   * Why blank keys have to last: from an empty registry, a policy registered while its key is blank, another
   * one with a key, and the first withdrawn once its object computes the other's key.
   */
  lemma BlankKeyRemovesAnotherEntry(p: Policy, q: Policy, blank: KeyReader, late: KeyReader)
    requires p.name != q.name && p.body.ModelTarget? && q.body.ModelTarget? && p.body.definition != q.body.definition
    requires blank(p.body.definition) == "" && blank(q.body.definition) != ""
    requires late(p.body.definition) == blank(q.body.definition)
    ensures var c := DoAll(NOTHING, [(Registers(p), blank), (Registers(q), blank), (Withdraws(p.name), late)]);
            c.byName == map[q.name := q] && c.ix.byKey == map[] && !Agree(c.byName, c.ix)
  {
    var first, second, third := (Registers(p), blank), (Registers(q), blank), (Withdraws(p.name), late);
    var two := ThreeSteps(first, second, third);
    hide DoAll;
    TwoRegistered(p, q, blank);
    var c := DoStep(two, Withdraws(p.name), late);
    assert c.byName == map[q.name := q] && c.ix.byKey == map[];
    assert !NameEntry(c.byName, c.ix, q.name);
  }

  lemma ThreeSteps(first: (IndexStep, KeyReader), second: (IndexStep, KeyReader), third: (IndexStep, KeyReader)) returns (two: Catalogue)
    ensures two == DoStep(DoStep(NOTHING, first.0, first.1), second.0, second.1)
    ensures DoAll(NOTHING, [first, second, third]) == DoStep(two, third.0, third.1)
  {
    hide DoStep;
    var none: seq<(IndexStep, KeyReader)> := [];
    assert [first, second, third] == [first, second] + [third] && [first, second] == [first] + [second] && [first] == none + [first];
    DoOneMore(NOTHING, none, first);
    DoOneMore(NOTHING, [first], second);
    DoOneMore(NOTHING, [first, second], third);
    two := DoStep(DoStep(NOTHING, first.0, first.1), second.0, second.1);
  }
}
