/**
 * The authorization runtime: the mutable registry, its installations and their disposal.
 * Each method is tied to the ledger operations and to the three policy indexes.
 */
module AuthorizationRuntime {
  import opened Prelude
  import opened AuthorizationLedger
  import opened AuthorizationIndexes

  /** The handler of an ability, as a reference. */
  type Handler = nat

  type AbilityDefinition = Definition<Handler>

  /** `AuthorizationInstallationContext`, with the source names its `restore` closes over. */
  datatype Installation = Installation(
    active: bool,
    disposed: bool,
    policyNames: set<string>,
    abilityNames: set<string>,
    policies: map<string, Policy>,
    abilities: map<string, AbilityDefinition>,
    displacedPolicies: map<string, Policy>,
    displacedAbilities: map<string, AbilityDefinition>)

  function PolicySide(x: Installation): Side<Target> {
    Side(x.policyNames, x.policies, x.displacedPolicies)
  }

  function AbilitySide(x: Installation): Side<Handler> {
    Side(x.abilityNames, x.abilities, x.displacedAbilities)
  }

  function NamesOf(names: seq<string>): set<string> {
    set n | n in names
  }

  function PolicySides(xs: seq<Installation>): (r: seq<Side<Target>>)
    ensures |r| == |xs|
  {
    seq(|xs|, i requires 0 <= i < |xs| => PolicySide(xs[i]))
  }

  function AbilitySides(xs: seq<Installation>): (r: seq<Side<Handler>>)
    ensures |r| == |xs|
  {
    seq(|xs|, i requires 0 <= i < |xs| => AbilitySide(xs[i]))
  }

  function DisposedFlags(xs: seq<Installation>): (r: seq<bool>)
    ensures |r| == |xs|
  {
    seq(|xs|, i requires 0 <= i < |xs| => xs[i].disposed)
  }

  /** The active contexts: at most the installation that is running. */
  function ActiveFlags(xs: seq<Installation>): (r: seq<bool>)
    ensures |r| == |xs| && forall i :: 0 <= i < |xs| ==> r[i] == xs[i].active
  {
    seq(|xs|, i requires 0 <= i < |xs| => xs[i].active)
  }

  /** Replacing one context in the list replaces one side of each kind, and one pair of flags. */
  lemma ReplaceContext(xs: seq<Installation>, i: nat, x: Installation)
    requires i < |xs|
    ensures PolicySides(xs[i := x]) == PolicySides(xs)[i := PolicySide(x)]
    ensures AbilitySides(xs[i := x]) == AbilitySides(xs)[i := AbilitySide(x)]
    ensures DisposedFlags(xs[i := x]) == DisposedFlags(xs)[i := x.disposed]
    ensures ActiveFlags(xs[i := x]) == ActiveFlags(xs)[i := x.active]
    ensures PolicySide(x) == PolicySide(xs[i]) ==> PolicySides(xs[i := x]) == PolicySides(xs)
    ensures AbilitySide(x) == AbilitySide(xs[i]) ==> AbilitySides(xs[i := x]) == AbilitySides(xs)
    ensures x.disposed == xs[i].disposed ==> DisposedFlags(xs[i := x]) == DisposedFlags(xs)
    ensures x.active == xs[i].active ==> ActiveFlags(xs[i := x]) == ActiveFlags(xs)
  {
  }

  /** Part way through the start of an installation: the names in `taken` are already out. */
  function BeginPartly<T>(l: Ledger<T>, names: set<string>, taken: set<string>): Ledger<T> {
    l.(byName := l.byName - taken,
       sides := l.sides + [Side(names, map[], map n | n in taken && n in l.byName :: l.byName[n])],
       disposed := l.disposed + [false])
  }

  /** One more definition brought back. */
  lemma ReturnStep<T>(kept: map<string, Definition<T>>, restoring: map<string, Definition<T>>, pending: set<string>, n: string)
    requires n in pending && pending <= restoring.Keys
    ensures (kept + (restoring - pending))[n := restoring[n]] == kept + (restoring - (pending - {n}))
    ensures kept.Keys !! restoring.Keys ==> n !in kept + (restoring - pending)
  {
  }

  lemma ReturnedAll<T>(kept: map<string, Definition<T>>, restoring: map<string, Definition<T>>)
    ensures kept + (restoring - restoring.Keys) == kept && restoring - {} == restoring
  {
  }

  /** Policies are registered as they are in `whole`. */
  ghost predicate Part(part: map<string, Policy>, whole: map<string, Policy>) {
    forall n :: n in part ==> Get(whole, n) == Some(part[n])
  }

  ghost predicate Opposed(p: Policy, byName: map<string, Policy>, keys: map<nat, string>, read: KeyReader) {
    exists n :: n in byName && Clash(keys, p, byName[n], read)
  }

  /** What a restore that meets clashes ends with: what was kept, and as much of the rest as can be registered with it. */
  ghost predicate Salvaged(kept: map<string, Policy>, final: map<string, Policy>, byName: map<string, Policy>,
                           keys: map<nat, string>, read: KeyReader)
  {
    && Part(kept, byName) && Part(byName, final)
    && forall n :: n in final && n !in byName ==> Opposed(final[n], byName, keys, read)
  }

  /** What is registered part way through, when nothing has been refused. */
  function Partway(kept: map<string, Policy>, restoring: map<string, Policy>, pending: set<string>): map<string, Policy> {
    kept + (restoring - pending)
  }

  /** The same, part way through: nothing pending is registered yet. */
  ghost predicate Returned(kept: map<string, Policy>, restoring: map<string, Policy>, pending: set<string>,
                           byName: map<string, Policy>, keys: map<nat, string>, read: KeyReader)
  {
    && kept.Keys !! restoring.Keys && byName.Keys !! pending
    && Part(kept, byName) && Part(byName, kept + restoring)
    && forall n :: n in restoring && n !in pending && n !in byName ==> Opposed(restoring[n], byName, keys, read)
  }

  lemma ReturnsStart(kept: map<string, Policy>, restoring: map<string, Policy>, keys: map<nat, string>, read: KeyReader)
    requires kept.Keys !! restoring.Keys
    ensures Returned(kept, restoring, restoring.Keys, kept, keys, read) && kept == Partway(kept, restoring, restoring.Keys)
  {
    assert restoring - restoring.Keys == map[];
  }

  lemma NotReturnedYet(kept: map<string, Policy>, restoring: map<string, Policy>, pending: set<string>, byName: map<string, Policy>,
                       n: string, keys: map<nat, string>, read: KeyReader)
    requires Returned(kept, restoring, pending, byName, keys, read) && n in pending
    ensures n !in byName
  {
  }

  lemma ReturnsOne(kept: map<string, Policy>, restoring: map<string, Policy>, pending: set<string>, byName: map<string, Policy>,
                   n: string, ok: bool, keys: map<nat, string>, now: map<nat, string>, read: KeyReader)
    requires Returned(kept, restoring, pending, byName, keys, read) && n in pending && pending <= restoring.Keys
    requires SameKeys(keys, now, read) && (!ok ==> Opposed(restoring[n], byName, now, read))
    ensures var byName' := if ok then byName[n := restoring[n]] else byName;
            && Returned(kept, restoring, pending - {n}, byName', keys, read)
            && (byName' == Partway(kept, restoring, pending - {n}) <==> ok && byName == Partway(kept, restoring, pending))
  {
    hide Opposed, SameKeys, Part;
    SameKeysOpposed(keys, now, read, restoring[n], byName);
    ReturnedWhole(kept, restoring, pending, byName, n);
    if ok {
      ReturnedParts(kept, restoring, byName, n);
      forall m | m in restoring && m !in pending && m !in byName ensures Opposed(restoring[m], byName[n := restoring[n]], keys, read) {
        StillOpposed(restoring[m], byName, n, restoring[n], keys, read);
      }
    } else {
      assert n in Partway(kept, restoring, pending - {n});
    }
  }

  lemma ReturnedParts(kept: map<string, Policy>, restoring: map<string, Policy>, byName: map<string, Policy>, n: string)
    requires kept.Keys !! restoring.Keys && n in restoring && n !in byName
    requires Part(kept, byName) && Part(byName, kept + restoring)
    ensures Part(kept, byName[n := restoring[n]]) && Part(byName[n := restoring[n]], kept + restoring)
  {
  }

  lemma SameKeysOpposed(keys: map<nat, string>, now: map<nat, string>, read: KeyReader, p: Policy, byName: map<string, Policy>)
    requires SameKeys(keys, now, read)
    ensures Opposed(p, byName, keys, read) <==> Opposed(p, byName, now, read)
  {
    forall q: Policy ensures Clash(keys, p, q, read) == Clash(now, p, q, read) { }
  }

  lemma StillOpposed(p: Policy, byName: map<string, Policy>, n: string, q: Policy, keys: map<nat, string>, read: KeyReader)
    requires Opposed(p, byName, keys, read) && n !in byName
    ensures Opposed(p, byName[n := q], keys, read)
  {
    var k :| k in byName && Clash(keys, p, byName[k], read);
    assert k in byName[n := q] && byName[n := q][k] == byName[k];
  }

  lemma ReturnedWhole(kept: map<string, Policy>, restoring: map<string, Policy>, pending: set<string>, byName: map<string, Policy>, n: string)
    requires kept.Keys !! restoring.Keys && n in pending && pending <= restoring.Keys && n !in byName
    ensures byName[n := restoring[n]] == Partway(kept, restoring, pending - {n}) <==> byName == Partway(kept, restoring, pending)
  {
    var whole := kept + (restoring - pending);
    assert whole[n := restoring[n]] == kept + (restoring - (pending - {n}));
    if byName[n := restoring[n]] == whole[n := restoring[n]] {
      forall m ensures Get(byName, m) == Get(whole, m) {
        assert Get(byName[n := restoring[n]], m) == Get(whole[n := restoring[n]], m);
      }
      SameMap(byName, whole);
    }
  }

  lemma ReturnsEnd(kept: map<string, Policy>, restoring: map<string, Policy>, byName: map<string, Policy>,
                   keys: map<nat, string>, read: KeyReader)
    requires Returned(kept, restoring, {}, byName, keys, read)
    ensures Salvaged(kept, kept + restoring, byName, keys, read)
    ensures NoClash(kept + restoring, keys, read) ==> byName == kept + restoring
    ensures Partway(kept, restoring, {}) == kept + restoring
  {
    assert restoring - {} == restoring;
    if NoClash(kept + restoring, keys, read) {
      forall n | n in kept + restoring ensures n in byName { }
      SameMap(byName, kept + restoring);
    }
  }

  lemma SameKeysSalvaged(keys: map<nat, string>, keys': map<nat, string>, read: KeyReader, kept: map<string, Policy>,
                         final: map<string, Policy>, byName: map<string, Policy>)
    requires SameKeys(keys, keys', read) && Salvaged(kept, final, byName, keys', read)
    ensures Salvaged(kept, final, byName, keys, read)
  {
    forall p: Policy, q: Policy ensures Clash(keys, p, q, read) == Clash(keys', p, q, read) { }
  }

  lemma BeginWhole<T>(l: Ledger<T>, names: set<string>)
    ensures BeginPartly(l, names, names) == Begin(l, names)
  {
  }

  lemma BeginStep<T>(l: Ledger<T>, names: set<string>, taken: set<string>, n: string)
    requires n in l.byName ==> l.byName[n].name == n
    ensures Unregister(BeginPartly(l, names, taken), n, Some(|l.sides|)) == BeginPartly(l, names, taken + {n})
  {
    var l1 := BeginPartly(l, names, taken);
    var l2 := BeginPartly(l, names, taken + {n});
    if n in l1.byName {
      assert l1.sides[|l.sides|].displaced[n := l.byName[n]] == l2.sides[|l.sides|].displaced;
      assert Unregister(l1, n, Some(|l.sides|)).sides == l2.sides;
      assert l1.byName - {n} == l2.byName;
    } else {
      assert l1.byName == l2.byName;
      assert l1.sides[|l.sides|].displaced == l2.sides[|l.sides|].displaced;
    }
  }

  /** `resolveLiveDefinition`. */
  method ResolveLive<T(!new)>(definition: Definition<T>, lifetimes: map<nat, Lifetime<T>>, disposed: seq<bool>,
                              ghost l: Ledger<T>) returns (live: Option<Definition<T>>)
    requires Descending(lifetimes) && l.lifetimes == lifetimes && l.disposed == disposed
    ensures live == Resolve(l, definition)
  {
    var current := definition;
    while true
      invariant Resolve(l, current) == Resolve(l, definition)
      decreases current.id
    {
      if current.id !in lifetimes {
        return Some(current);
      }
      var lifetime := lifetimes[current.id];
      if !(lifetime.installation < |disposed| && disposed[lifetime.installation]) {
        return Some(current);
      }
      if lifetime.previous.None? {
        return None;
      }
      current := lifetime.previous.value;
    }
  }

  lemma RestoredName<T(!new)>(l: Ledger<T>, i: nat, rollback: bool, n: string)
    requires i < |l.sides| && Descending(l.lifetimes)
    ensures Get(Restoring(l, i, rollback), n)
            == if n in Returning(l, i, rollback) then Resolve(l, l.sides[i].displaced[n]) else None
  {
    hide Resolve, Returning;
  }

  /** The live definitions behind some displaced ones. */
  method ResolveAll<T(!new)>(names: set<string>, displaced: map<string, Definition<T>>, lifetimes: map<nat, Lifetime<T>>,
                             disposed: seq<bool>, ghost l: Ledger<T>)
    returns (live: map<string, Definition<T>>)
    requires Descending(lifetimes) && l.lifetimes == lifetimes && l.disposed == disposed && names <= displaced.Keys
    ensures live.Keys <= names && forall n :: n in names ==> Get(live, n) == Resolve(l, displaced[n])
  {
    hide Resolve, Descending;
    live := map[];
    var todo := names;
    while todo != {}
      invariant todo <= names
      invariant live.Keys <= names && live.Keys !! todo
      invariant forall n :: n in names && n !in todo ==> Get(live, n) == Resolve(l, displaced[n])
      decreases |todo|
    {
      var n :| n in todo;
      var definition := ResolveLive(displaced[n], lifetimes, disposed, l);
      if definition.Some? {
        live := live[n := definition.value];
      }
      todo := todo - {n};
    }
  }

  /** What `restore` is about to release and to bring back, computed before it changes anything. */
  method Plan<T(!new, ==)>(side: Side<T>, byName: map<string, Definition<T>>, lifetimes: map<nat, Lifetime<T>>,
                           disposed: seq<bool>, rollback: bool, ghost l: Ledger<T>, ghost i: nat)
    returns (releasing: set<string>, restoring: map<string, Definition<T>>)
    requires Descending(lifetimes) && l.lifetimes == lifetimes && l.disposed == disposed && l.byName == byName
    requires i < |l.sides| && l.sides[i] == side
    ensures releasing == Released(l, i) && restoring == Restoring(l, i, rollback)
  {
    hide Resolve, Restoring, Descending;
    releasing := set n | n in side.owned && n in byName && byName[n] == side.owned[n];
    var returning := set n | n in side.displaced &&
                             (n in releasing || ((rollback || n !in side.names) && n !in byName));
    assert returning == Returning(l, i, rollback);
    restoring := ResolveAll(returning, side.displaced, lifetimes, disposed, l);
    forall n ensures Get(restoring, n) == Get(Restoring(l, i, rollback), n) {
      RestoredName(l, i, rollback, n);
    }
    SameMap(restoring, Restoring(l, i, rollback));
  }

  /** A load that returned the definition it has just registered first takes it out again. */
  function Withdrawn<T(==)>(l: Ledger<T>, returned: Definition<T>, context: Option<nat>): Ledger<T>
    requires InContext(l, context)
  {
    if Get(l.byName, returned.name) == Some(returned) then Unregister(l, returned.name, context) else l
  }

  ghost predicate KeyedByName<T>(m: map<string, Definition<T>>) {
    forall n :: n in m ==> m[n].name == n
  }

  class Runtime {
    var policiesByName: map<string, Policy>
    var policiesByTargetObject: map<Target, Policy>
    var policiesByDefinitionKey: map<string, Policy>
    var definitionKeys: map<nat, string>
    var policyLifetimes: map<nat, Lifetime<Target>>
    var abilitiesByName: map<string, AbilityDefinition>
    var abilityLifetimes: map<nat, Lifetime<Handler>>
    var installations: seq<Installation>
    /** The next object identity. */
    var nextId: nat

    constructor ()
      ensures PolicyLedger() == Ledger(map[], map[], [], []) && AbilityLedger() == Ledger(map[], map[], [], [])
      ensures PolicyIndexes() == Indexes(map[], map[], map[])
    {
      policiesByName := map[];
      policiesByTargetObject := map[];
      policiesByDefinitionKey := map[];
      definitionKeys := map[];
      policyLifetimes := map[];
      abilitiesByName := map[];
      abilityLifetimes := map[];
      installations := [];
      nextId := 0;
    }

    ghost function PolicyLedger(): Ledger<Target>
      reads this
    {
      Ledger(policiesByName, policyLifetimes, PolicySides(installations), DisposedFlags(installations))
    }

    ghost function AbilityLedger(): Ledger<Handler>
      reads this
    {
      Ledger(abilitiesByName, abilityLifetimes, AbilitySides(installations), DisposedFlags(installations))
    }

    ghost function PolicyIndexes(): Indexes
      reads this
    {
      Indexes(policiesByTargetObject, policiesByDefinitionKey, definitionKeys)
    }

    predicate Inside(context: Option<nat>)
      reads this
    {
      context.Some? ==> context.value < |installations|
    }

    /** `getAuthorizationInstallation`: the caller's context while it is active. */
    function Active(context: Option<nat>): (r: Option<nat>)
      reads this
      requires Inside(context)
      ensures r.Some? ==> r == context && installations[r.value].active
    {
      if context.Some? && installations[context.value].active then context else None
    }

    // -------------------------------------------------------------- registrations

    method DefinitionKeyForTarget(t: Target, read: KeyReader) returns (key: Option<string>)
      modifies `definitionKeys
      ensures key == TargetKey(old(definitionKeys), t, read)
      ensures definitionKeys == Memoise(old(definitionKeys), t, read)
    {
      if t.ClassTarget? {
        return None;
      }
      var built := KeyOf(definitionKeys, t.definition, read);
      definitionKeys := definitionKeys[t.definition := built];
      key := if built != "" then Some(built) else None;
    }

    /** A refused registration changes no index; an accepted one adds the policy to all three. */
    method RegisterPolicyDefinition(p: Policy, read: KeyReader, context: Option<nat>) returns (ok: bool)
      requires Inside(context)
      modifies `policiesByName, `policiesByTargetObject, `policiesByDefinitionKey, `definitionKeys,
               `policyLifetimes, `installations
      ensures ok <==> !Refused(old(policiesByName), old(PolicyIndexes()), p, read)
      ensures ok ==> PolicyLedger() == Register(old(PolicyLedger()), p, old(Active(context)))
      ensures ok ==> PolicyIndexes() == Add(old(PolicyIndexes()), p, read)
      ensures !ok ==> PolicyLedger() == old(PolicyLedger())
      ensures !ok ==> PolicyIndexes() == old(PolicyIndexes()) ||
                      PolicyIndexes() == old(PolicyIndexes()).(keys := Memoise(old(definitionKeys), p.body, read))
      ensures AbilityLedger() == old(AbilityLedger()) && ActiveFlags(installations) == old(ActiveFlags(installations))
    {
      if p.name in policiesByName {
        return false;
      }
      if p.body in policiesByTargetObject {
        return false;
      }
      var key := DefinitionKeyForTarget(p.body, read);
      if key.Some? && key.value in policiesByDefinitionKey {
        return false;
      }
      policiesByName := policiesByName[p.name := p];
      policiesByTargetObject := policiesByTargetObject[p.body := p];
      if key.Some? {
        policiesByDefinitionKey := policiesByDefinitionKey[key.value := p];
      }
      var installation := Active(context);
      if installation.Some? {
        var i := installation.value;
        policyLifetimes := policyLifetimes[p.id := Lifetime(i, Get(installations[i].displacedPolicies, p.name))];
        var x := installations[i].(policies := installations[i].policies[p.name := p]);
        ReplaceContext(installations, i, x);
        installations := installations[i := x];
      }
      ok := true;
    }

    method RegisterAbilityDefinition(d: AbilityDefinition, context: Option<nat>) returns (ok: bool)
      requires Inside(context)
      modifies `abilitiesByName, `abilityLifetimes, `installations
      ensures ok <==> d.name !in old(abilitiesByName)
      ensures ok ==> AbilityLedger() == Register(old(AbilityLedger()), d, old(Active(context)))
      ensures !ok ==> AbilityLedger() == old(AbilityLedger())
      ensures PolicyLedger() == old(PolicyLedger()) && ActiveFlags(installations) == old(ActiveFlags(installations))
    {
      if d.name in abilitiesByName {
        return false;
      }
      abilitiesByName := abilitiesByName[d.name := d];
      var installation := Active(context);
      if installation.Some? {
        var i := installation.value;
        abilityLifetimes := abilityLifetimes[d.id := Lifetime(i, Get(installations[i].displacedAbilities, d.name))];
        var x := installations[i].(abilities := installations[i].abilities[d.name := d]);
        ReplaceContext(installations, i, x);
        installations := installations[i := x];
      }
      ok := true;
    }

    method UnregisterPolicyDefinition(name: string, read: KeyReader, context: Option<nat>)
      requires Inside(context)
      requires name in policiesByName ==> policiesByName[name].name == name
      modifies `policiesByName, `policiesByTargetObject, `policiesByDefinitionKey, `definitionKeys, `installations
      ensures PolicyLedger() == Unregister(old(PolicyLedger()), name, old(Active(context)))
      ensures PolicyIndexes() == if name in old(policiesByName)
                                 then Remove(old(PolicyIndexes()), old(policiesByName)[name], read)
                                 else old(PolicyIndexes())
      ensures AbilityLedger() == old(AbilityLedger()) && ActiveFlags(installations) == old(ActiveFlags(installations))
    {
      hide PolicySides, AbilitySides, DisposedFlags, ActiveFlags, TargetKey, Release;
      if name !in policiesByName {
        return;
      }
      var p := policiesByName[name];
      RecordRelease(p, context);
      policiesByName := policiesByName - {name};
      policiesByTargetObject := policiesByTargetObject - {p.body};
      var key := DefinitionKeyForTarget(p.body, read);
      if key.Some? {
        policiesByDefinitionKey := policiesByDefinitionKey - {key.value};
      }
    }

    /** An active installation gives up a policy of its own, or notes the one it displaced. */
    method RecordRelease(p: Policy, context: Option<nat>)
      requires Inside(context)
      modifies `installations
      ensures |installations| == old(|installations|)
      ensures var i := old(Active(context));
              PolicySides(installations)
              == if i.None? then old(PolicySides(installations))
                 else old(PolicySides(installations))[i.value := Release(old(PolicySides(installations))[i.value], p)]
      ensures AbilitySides(installations) == old(AbilitySides(installations))
      ensures DisposedFlags(installations) == old(DisposedFlags(installations))
      ensures ActiveFlags(installations) == old(ActiveFlags(installations))
    {
      hide AbilitySides, DisposedFlags, ActiveFlags;
      var installation := Active(context);
      if installation.Some? {
        var i := installation.value;
        var x := installations[i];
        if p.name in x.policies && x.policies[p.name] == p {
          x := x.(policies := x.policies - {p.name});
        } else if p.name !in x.displacedPolicies {
          x := x.(displacedPolicies := x.displacedPolicies[p.name := p]);
        }
        assert PolicySide(x) == Release(PolicySides(installations)[i], p);
        ReplaceContext(installations, i, x);
        installations := installations[i := x];
      }
    }

    method UnregisterAbilityDefinition(name: string, context: Option<nat>)
      requires Inside(context)
      requires name in abilitiesByName ==> abilitiesByName[name].name == name
      modifies `abilitiesByName, `installations
      ensures AbilityLedger() == Unregister(old(AbilityLedger()), name, old(Active(context)))
      ensures PolicyLedger() == old(PolicyLedger()) && ActiveFlags(installations) == old(ActiveFlags(installations))
    {
      if name !in abilitiesByName {
        return;
      }
      var d := abilitiesByName[name];
      var installation := Active(context);
      if installation.Some? {
        var i := installation.value;
        var x := installations[i];
        if name in x.abilities && x.abilities[name] == d {
          x := x.(abilities := x.abilities - {name});
        } else if name !in x.displacedAbilities {
          x := x.(displacedAbilities := x.displacedAbilities[name := d]);
        }
        ReplaceContext(installations, i, x);
        installations := installations[i := x];
      }
      abilitiesByName := abilitiesByName - {name};
    }

    // -------------------------------------------------------------- installations

    /** The policy indexes agree, no blank key has turned into another one, and abilities carry the name they are bound to. */
    ghost predicate Ready(read: KeyReader)
      reads this
    {
      && Agree(policiesByName, PolicyIndexes())
      && KeysSteady(definitionKeys, read)
      && KeyedByName(abilitiesByName)
    }

    /** The synchronous part of `installAuthorizationDefinitions`: a context, and every source name taken out. */
    method BeginInstallation(policyNames: seq<string>, abilityNames: seq<string>, read: KeyReader) returns (i: nat)
      requires Ready(read)
      modifies this
      ensures i == old(|installations|) && Inside(Some(i)) && Active(Some(i)) == Some(i)
      ensures PolicyLedger() == Begin(old(PolicyLedger()), NamesOf(policyNames))
      ensures AbilityLedger() == Begin(old(AbilityLedger()), NamesOf(abilityNames))
      ensures Ready(read) && SameKeys(old(definitionKeys), definitionKeys, read)
      ensures ActiveFlags(installations) == old(ActiveFlags(installations)) + [true] && nextId == old(nextId)
    {
      ghost var policies, abilities := PolicyLedger(), AbilityLedger();
      i := OpenContext(NamesOf(policyNames), NamesOf(abilityNames));
      assert ActiveFlags(installations)[i];
      TakeOutPolicies(policyNames, read, i, policies);
      assert ActiveFlags(installations)[i];
      TakeOutAbilities(abilityNames, i, abilities);
      assert ActiveFlags(installations)[i];
    }

    method OpenContext(policyNames: set<string>, abilityNames: set<string>) returns (i: nat)
      modifies `installations
      ensures i == old(|installations|) && |installations| == i + 1
      ensures PolicyLedger() == BeginPartly(old(PolicyLedger()), policyNames, {})
      ensures AbilityLedger() == BeginPartly(old(AbilityLedger()), abilityNames, {})
      ensures ActiveFlags(installations) == old(ActiveFlags(installations)) + [true]
    {
      i := |installations|;
      installations := installations + [Installation(true, false, policyNames, abilityNames, map[], map[], map[], map[])];
      ghost var p, a := BeginPartly(old(PolicyLedger()), policyNames, {}), BeginPartly(old(AbilityLedger()), abilityNames, {});
      assert PolicyLedger().sides == p.sides && PolicyLedger().byName == p.byName && PolicyLedger().disposed == p.disposed;
      assert AbilityLedger().sides == a.sides && AbilityLedger().byName == a.byName;
    }

    method TakeOutPolicies(names: seq<string>, read: KeyReader, i: nat, ghost l: Ledger<Target>)
      requires Ready(read) && Inside(Some(i)) && ActiveFlags(installations)[i] && i == |l.sides|
      requires KeyedByName(l.byName)
      requires PolicyLedger() == BeginPartly(l, NamesOf(names), {})
      modifies `policiesByName, `policiesByTargetObject, `policiesByDefinitionKey, `definitionKeys, `installations
      ensures PolicyLedger() == Begin(l, NamesOf(names))
      ensures AbilityLedger() == old(AbilityLedger()) && ActiveFlags(installations) == old(ActiveFlags(installations))
      ensures Ready(read) && SameKeys(old(definitionKeys), definitionKeys, read)
    {
      hide Agree, KeysSteady, Begin;
      ghost var all := NamesOf(names);
      ghost var taken: set<string> := {};
      for k := 0 to |names|
        invariant taken == NamesOf(names[..k])
        invariant PolicyLedger() == BeginPartly(l, all, taken)
        invariant AbilityLedger() == old(AbilityLedger()) && ActiveFlags(installations) == old(ActiveFlags(installations))
        invariant Ready(read) && SameKeys(old(definitionKeys), definitionKeys, read)
      {
        assert |ActiveFlags(installations)| == |installations| && ActiveFlags(installations)[i];
        BeginStep(l, all, taken, names[k]);
        TakeOutPolicy(names[k], read, Some(i));
        taken := taken + {names[k]};
      }
      assert taken == all;
      BeginWhole(l, all);
    }

    method TakeOutAbilities(names: seq<string>, i: nat, ghost l: Ledger<Handler>)
      requires KeyedByName(abilitiesByName) && Inside(Some(i)) && ActiveFlags(installations)[i] && i == |l.sides|
      requires KeyedByName(l.byName)
      requires AbilityLedger() == BeginPartly(l, NamesOf(names), {})
      modifies `abilitiesByName, `installations
      ensures AbilityLedger() == Begin(l, NamesOf(names))
      ensures PolicyLedger() == old(PolicyLedger()) && ActiveFlags(installations) == old(ActiveFlags(installations))
      ensures KeyedByName(abilitiesByName)
    {
      hide Agree, KeysSteady, Begin;
      ghost var all := NamesOf(names);
      ghost var taken: set<string> := {};
      for k := 0 to |names|
        invariant taken == NamesOf(names[..k])
        invariant AbilityLedger() == BeginPartly(l, all, taken)
        invariant PolicyLedger() == old(PolicyLedger()) && ActiveFlags(installations) == old(ActiveFlags(installations))
        invariant KeyedByName(abilitiesByName)
      {
        assert |ActiveFlags(installations)| == |installations| && ActiveFlags(installations)[i];
        BeginStep(l, all, taken, names[k]);
        UnregisterAbilityDefinition(names[k], Some(i));
        taken := taken + {names[k]};
      }
      assert taken == all;
      BeginWhole(l, all);
    }

    /** Taking a policy out of a registry where no key appears late keeps the indexes in agreement. */
    method TakeOutPolicy(name: string, read: KeyReader, context: Option<nat>)
      requires Ready(read) && Inside(context)
      modifies `policiesByName, `policiesByTargetObject, `policiesByDefinitionKey, `definitionKeys, `installations
      ensures PolicyLedger() == Unregister(old(PolicyLedger()), name, old(Active(context)))
      ensures AbilityLedger() == old(AbilityLedger()) && ActiveFlags(installations) == old(ActiveFlags(installations))
      ensures Ready(read) && SameKeys(old(definitionKeys), definitionKeys, read)
    {
      if name in policiesByName {
        StepAgrees(policiesByName, PolicyIndexes(), policiesByName[name], read);
      }
      UnregisterPolicyDefinition(name, read, context);
    }

    /** Registering a policy, accepted or refused, keeps the indexes in agreement. */
    method TryPolicy(p: Policy, read: KeyReader, context: Option<nat>) returns (ok: bool)
      requires Ready(read) && Inside(context)
      modifies `policiesByName, `policiesByTargetObject, `policiesByDefinitionKey, `definitionKeys,
               `policyLifetimes, `installations
      ensures ok <==> !(p.name in old(policiesByName) || Opposed(p, old(policiesByName), old(definitionKeys), read))
      ensures PolicyLedger() == if ok then Register(old(PolicyLedger()), p, old(Active(context))) else old(PolicyLedger())
      ensures AbilityLedger() == old(AbilityLedger()) && ActiveFlags(installations) == old(ActiveFlags(installations))
      ensures Ready(read) && SameKeys(old(definitionKeys), definitionKeys, read)
    {
      StepAgrees(policiesByName, PolicyIndexes(), p, read);
      RefusedIffClash(policiesByName, PolicyIndexes(), p, read);
      ok := RegisterPolicyDefinition(p, read, context);
    }

    // -------------------------------------------------------------- restore

    /**
     * The policy half of `restore`, in any order of the names. Every registration succeeds exactly when no
     * two policies of the result clash, and then the result is that of the ledger; otherwise nothing else is
     * registered, and every policy that is missing clashes with one that is there.
     */
    method RestorePolicies(i: nat, rollback: bool, read: KeyReader) returns (failures: nat)
      requires i < |installations| && Descending(policyLifetimes) && Ready(read)
      requires KeyedByName(Restoring(PolicyLedger(), i, rollback))
      modifies `policiesByName, `policiesByTargetObject, `policiesByDefinitionKey, `definitionKeys,
               `policyLifetimes, `installations
      ensures Ready(read) && SameKeys(old(definitionKeys), definitionKeys, read)
      ensures AbilityLedger() == old(AbilityLedger()) && ActiveFlags(installations) == old(ActiveFlags(installations))
      ensures failures == 0 <==> NoClash(Restore(old(PolicyLedger()), i, rollback).byName, old(definitionKeys), read)
      ensures failures == 0 <==> PolicyLedger() == Restore(old(PolicyLedger()), i, rollback)
      ensures PolicyLedger() == old(PolicyLedger()).(byName := policiesByName)
      ensures Salvaged(old(policiesByName) - Released(old(PolicyLedger()), i), Restore(old(PolicyLedger()), i, rollback).byName,
                       policiesByName, old(definitionKeys), read)
    {
      ghost var l, keys := PolicyLedger(), definitionKeys;
      var releasing, restoring := Plan(PolicySide(installations[i]), policiesByName, policyLifetimes,
                                       DisposedFlags(installations), rollback, l, i);
      ReleasePolicies(releasing, read);
      SameKeysSameClashes(keys, definitionKeys, read, policiesByName + restoring);
      ghost var released := definitionKeys;
      failures := ReturnPolicies(restoring, read);
      SameKeysSalvaged(keys, released, read, old(policiesByName) - releasing, old(policiesByName) - releasing + restoring, policiesByName);
    }

    method ReleasePolicies(names: set<string>, read: KeyReader)
      requires Ready(read)
      modifies `policiesByName, `policiesByTargetObject, `policiesByDefinitionKey, `definitionKeys, `installations
      ensures PolicyLedger() == old(PolicyLedger()).(byName := old(policiesByName) - names)
      ensures AbilityLedger() == old(AbilityLedger()) && ActiveFlags(installations) == old(ActiveFlags(installations))
      ensures Ready(read) && SameKeys(old(definitionKeys), definitionKeys, read)
    {
      hide Agree, KeysSteady, Clash, SameKeys, PolicySides, AbilitySides, DisposedFlags, ActiveFlags;
      SameKeysReflexive(definitionKeys, read);
      ghost var keys := definitionKeys;
      var todo := names;
      ghost var gone: set<string> := {};
      while todo != {}
        invariant todo + gone == names
        invariant PolicyLedger() == old(PolicyLedger()).(byName := old(policiesByName) - gone)
        invariant AbilityLedger() == old(AbilityLedger()) && ActiveFlags(installations) == old(ActiveFlags(installations))
        invariant Ready(read) && SameKeys(keys, definitionKeys, read)
        decreases |todo|
      {
        var n :| n in todo;
        ghost var now := definitionKeys;
        TakeOutPolicy(n, read, None);
        SameKeysTransitive(keys, now, definitionKeys, read);
        assert old(policiesByName) - gone - {n} == old(policiesByName) - (gone + {n});
        todo, gone := todo - {n}, gone + {n};
      }
      assert gone == names;
    }

    method ReturnPolicies(restoring: map<string, Policy>, read: KeyReader) returns (failures: nat)
      requires Ready(read) && KeyedByName(restoring) && policiesByName.Keys !! restoring.Keys
      modifies `policiesByName, `policiesByTargetObject, `policiesByDefinitionKey, `definitionKeys,
               `policyLifetimes, `installations
      ensures Ready(read) && SameKeys(old(definitionKeys), definitionKeys, read)
      ensures AbilityLedger() == old(AbilityLedger()) && ActiveFlags(installations) == old(ActiveFlags(installations))
      ensures failures == 0 <==> NoClash(old(policiesByName) + restoring, old(definitionKeys), read)
      ensures failures == 0 <==> policiesByName == old(policiesByName) + restoring
      ensures PolicyLedger() == old(PolicyLedger()).(byName := policiesByName)
      ensures Salvaged(old(policiesByName), old(policiesByName) + restoring, policiesByName, old(definitionKeys), read)
    {
      hide Agree, KeysSteady, NoClash, Clash, SameKeys, PolicySides, AbilitySides, DisposedFlags, ActiveFlags, Part, Opposed, Returned, Salvaged, Partway;
      SameKeysReflexive(definitionKeys, read);
      ghost var kept, keys, final := policiesByName, definitionKeys, policiesByName + restoring;
      failures := 0;
      var pending := restoring.Keys;
      ReturnsStart(kept, restoring, keys, read);
      while pending != {}
        invariant pending <= restoring.Keys
        invariant Ready(read) && SameKeys(keys, definitionKeys, read)
        invariant AbilityLedger() == old(AbilityLedger()) && ActiveFlags(installations) == old(ActiveFlags(installations))
        invariant PolicyLedger() == old(PolicyLedger()).(byName := policiesByName)
        invariant Returned(kept, restoring, pending, policiesByName, keys, read)
        invariant failures == 0 <==> policiesByName == Partway(kept, restoring, pending)
        decreases |pending|
      {
        var n :| n in pending;
        ghost var now, before := definitionKeys, policiesByName;
        NotReturnedYet(kept, restoring, pending, before, n, keys, read);
        var ok := TryPolicy(restoring[n], read, None);
        ReturnsOne(kept, restoring, pending, before, n, ok, keys, now, read);
        SameKeysTransitive(keys, now, definitionKeys, read);
        if !ok {
          failures := failures + 1;
        }
        pending := pending - {n};
      }
      ReturnsEnd(kept, restoring, policiesByName, keys, read);
      AgreementHasNoClash(policiesByName, PolicyIndexes(), read);
      SameKeysSameClashes(keys, definitionKeys, read, policiesByName);
    }

    /** The ability half of `restore`: every name is free by then, so no registration is refused. */
    method RestoreAbilities(i: nat, rollback: bool)
      requires i < |installations| && Descending(abilityLifetimes) && KeyedByName(abilitiesByName)
      requires KeyedByName(Restoring(AbilityLedger(), i, rollback))
      modifies `abilitiesByName, `abilityLifetimes, `installations
      ensures KeyedByName(abilitiesByName)
      ensures PolicyLedger() == old(PolicyLedger()) && ActiveFlags(installations) == old(ActiveFlags(installations))
      ensures AbilityLedger() == Restore(old(AbilityLedger()), i, rollback)
    {
      ghost var l := AbilityLedger();
      var releasing, restoring := Plan(AbilitySide(installations[i]), abilitiesByName, abilityLifetimes,
                                       DisposedFlags(installations), rollback, l, i);
      ReleaseAbilities(releasing);
      ReturnAbilities(restoring);
    }

    method ReleaseAbilities(names: set<string>)
      requires KeyedByName(abilitiesByName)
      modifies `abilitiesByName, `installations
      ensures AbilityLedger() == old(AbilityLedger()).(byName := old(abilitiesByName) - names)
      ensures PolicyLedger() == old(PolicyLedger()) && ActiveFlags(installations) == old(ActiveFlags(installations))
      ensures KeyedByName(abilitiesByName)
    {
      hide PolicySides, AbilitySides, DisposedFlags, ActiveFlags;
      var todo := names;
      ghost var gone: set<string> := {};
      while todo != {}
        invariant todo + gone == names
        invariant AbilityLedger() == old(AbilityLedger()).(byName := old(abilitiesByName) - gone)
        invariant PolicyLedger() == old(PolicyLedger()) && ActiveFlags(installations) == old(ActiveFlags(installations))
        invariant KeyedByName(abilitiesByName)
        decreases |todo|
      {
        var n :| n in todo;
        UnregisterAbilityDefinition(n, None);
        assert old(abilitiesByName) - gone - {n} == old(abilitiesByName) - (gone + {n});
        todo, gone := todo - {n}, gone + {n};
      }
      assert gone == names;
    }

    method ReturnAbilities(restoring: map<string, AbilityDefinition>)
      requires KeyedByName(abilitiesByName) && KeyedByName(restoring) && abilitiesByName.Keys !! restoring.Keys
      modifies `abilitiesByName, `abilityLifetimes, `installations
      ensures AbilityLedger() == old(AbilityLedger()).(byName := old(abilitiesByName) + restoring)
      ensures PolicyLedger() == old(PolicyLedger()) && ActiveFlags(installations) == old(ActiveFlags(installations))
      ensures KeyedByName(abilitiesByName)
    {
      hide PolicySides, AbilitySides, DisposedFlags, ActiveFlags;
      ghost var kept := abilitiesByName;
      var pending := restoring.Keys;
      ReturnedAll(kept, restoring);
      while pending != {}
        invariant pending <= restoring.Keys
        invariant AbilityLedger() == old(AbilityLedger()).(byName := kept + (restoring - pending))
        invariant PolicyLedger() == old(PolicyLedger()) && ActiveFlags(installations) == old(ActiveFlags(installations))
        invariant KeyedByName(abilitiesByName)
        decreases |pending|
      {
        var n :| n in pending;
        ReturnStep(kept, restoring, pending, n);
        var _ := RegisterAbilityDefinition(restoring[n], None);
        pending := pending - {n};
      }
      ReturnedAll(kept, restoring);
    }

    /**
     * `dispose()` of an installation, or the rollback of the one that is running. All policies come back
     * exactly when no two of those left clash, and otherwise all but some that clash; the abilities always do.
     */
    method DisposeInstallation(i: nat, rollback: bool, read: KeyReader) returns (failures: nat)
      requires i < |installations| && Ready(read)
      requires Descending(policyLifetimes) && Descending(abilityLifetimes)
      requires KeyedByName(Restoring(MarkDisposed(PolicyLedger(), i), i, rollback))
      requires KeyedByName(Restoring(MarkDisposed(AbilityLedger(), i), i, rollback))
      modifies this
      ensures Ready(read) && SameKeys(old(definitionKeys), definitionKeys, read) && nextId == old(nextId)
      ensures AbilityLedger() == Dispose(old(AbilityLedger()), i, rollback)
      ensures failures == 0 <==> NoClash(Dispose(old(PolicyLedger()), i, rollback).byName, old(definitionKeys), read)
      ensures failures == 0 <==> policiesByName == Dispose(old(PolicyLedger()), i, rollback).byName
      ensures PolicyLedger() == Dispose(old(PolicyLedger()), i, rollback).(byName := policiesByName)
      ensures Salvaged(old(policiesByName) - Released(old(PolicyLedger()), i), Dispose(old(PolicyLedger()), i, rollback).byName,
                       policiesByName, old(definitionKeys), read)
      ensures ActiveFlags(installations) ==
              if rollback then old(ActiveFlags(installations))[i := false] else old(ActiveFlags(installations))
    {
      hide Agree, KeysSteady, SameKeys, NoClash, PolicySides, AbilitySides, DisposedFlags, ActiveFlags, Salvaged, Restoring, Released;
      ReleasedWhenMarked(PolicyLedger(), i);
      var x := installations[i].(disposed := true);
      if rollback {
        x := x.(active := false);
      }
      MarkContext(i, x);
      failures := RestorePolicies(i, rollback, read);
      RestoreAbilities(i, rollback);
    }

    /** The installation has loaded its last source: from now on its context counts for nothing. */
    method FinishInstallation(i: nat)
      requires i < |installations|
      modifies `installations
      ensures PolicyLedger() == old(PolicyLedger()) && AbilityLedger() == old(AbilityLedger())
      ensures |installations| == old(|installations|) && ActiveFlags(installations) == old(ActiveFlags(installations))[i := false]
    {
      ReplaceContext(installations, i, installations[i].(active := false));
      installations := installations[i := installations[i].(active := false)];
    }

    static lemma ReleasedWhenMarked(l: Ledger<Target>, i: nat)
      requires i < |l.sides| == |l.disposed|
      ensures Released(MarkDisposed(l, i), i) == Released(l, i)
    {
    }

    method MarkContext(i: nat, x: Installation)
      requires i < |installations|
      requires PolicySide(x) == PolicySide(installations[i]) && AbilitySide(x) == AbilitySide(installations[i]) && x.disposed
      modifies `installations
      ensures |installations| == old(|installations|)
      ensures PolicyLedger() == MarkDisposed(old(PolicyLedger()), i)
      ensures AbilityLedger() == MarkDisposed(old(AbilityLedger()), i)
      ensures ActiveFlags(installations) == old(ActiveFlags(installations))[i := x.active]
      ensures x.active == old(installations[i].active) ==> ActiveFlags(installations) == old(ActiveFlags(installations))
    {
      ReplaceContext(installations, i, x);
      installations := installations[i := x];
    }

    // -------------------------------------------------------------- what a load can do

    /** `definePolicy` with a context: a new frozen object is registered, or the call throws. */
    method DefinePolicy(name: string, target: Target, read: KeyReader, context: Option<nat>) returns (ok: bool)
      requires Ready(read) && Inside(context)
      modifies `policiesByName, `policiesByTargetObject, `policiesByDefinitionKey, `definitionKeys,
               `policyLifetimes, `installations, `nextId
      ensures Ready(read) && SameKeys(old(definitionKeys), definitionKeys, read) && nextId == old(nextId) + 1
      ensures AbilityLedger() == old(AbilityLedger()) && ActiveFlags(installations) == old(ActiveFlags(installations))
      ensures var p := Definition(old(nextId), name, target);
              && (ok <==> !(name in old(policiesByName) || Opposed(p, old(policiesByName), old(definitionKeys), read)))
              && PolicyLedger() == if ok then Register(old(PolicyLedger()), p, old(Active(context))) else old(PolicyLedger())
    {
      hide Agree, KeysSteady, SameKeys, PolicySides, AbilitySides, DisposedFlags, ActiveFlags, Opposed;
      ok := TryPolicy(Definition(nextId, name, target), read, context);
      nextId := nextId + 1;
    }

    method DefineAbility(name: string, handler: Handler, context: Option<nat>) returns (ok: bool)
      requires KeyedByName(abilitiesByName) && Inside(context)
      modifies `abilitiesByName, `abilityLifetimes, `installations, `nextId
      ensures KeyedByName(abilitiesByName) && nextId == old(nextId) + 1
      ensures PolicyLedger() == old(PolicyLedger()) && ActiveFlags(installations) == old(ActiveFlags(installations))
      ensures ok <==> name !in old(abilitiesByName)
      ensures AbilityLedger() == if ok then Register(old(AbilityLedger()), Definition(old(nextId), name, handler), old(Active(context)))
                                 else old(AbilityLedger())
    {
      hide PolicySides, AbilitySides, DisposedFlags, ActiveFlags;
      ok := RegisterAbilityDefinition(Definition(nextId, name, handler), context);
      nextId := nextId + 1;
    }

    /** After `await source.load()`: the loaded definition is registered as a copy under the source's name. */
    method LoadPolicy(source: string, returned: Policy, read: KeyReader, context: Option<nat>) returns (ok: bool)
      requires Ready(read) && Inside(context)
      modifies `policiesByName, `policiesByTargetObject, `policiesByDefinitionKey, `definitionKeys,
               `policyLifetimes, `installations, `nextId
      ensures Ready(read) && SameKeys(old(definitionKeys), definitionKeys, read) && nextId == old(nextId) + 1
      ensures AbilityLedger() == old(AbilityLedger()) && ActiveFlags(installations) == old(ActiveFlags(installations))
      ensures var l := Withdrawn(old(PolicyLedger()), returned, old(Active(context)));
              var p := Definition(old(nextId), source, returned.body);
              && (ok <==> !(source in l.byName || Opposed(p, l.byName, old(definitionKeys), read)))
              && PolicyLedger() == if ok then Register(l, p, old(Active(context))) else l
    {
      hide Agree, KeysSteady, PolicySides, AbilitySides, DisposedFlags;
      assert |ActiveFlags(installations)| == |installations|;
      assert context.Some? ==> ActiveFlags(installations)[context.value] == installations[context.value].active;
      if returned.name in policiesByName && policiesByName[returned.name] == returned {
        ghost var keys := definitionKeys;
        TakeOutPolicy(returned.name, read, context);
        SameKeysOpposed(keys, definitionKeys, read, Definition(nextId, source, returned.body), policiesByName);
      }
      assert |ActiveFlags(installations)| == |installations|;
      assert context.Some? ==> ActiveFlags(installations)[context.value] == installations[context.value].active;
      ok := DefinePolicy(source, returned.body, read, context);
    }

    method LoadAbility(source: string, returned: AbilityDefinition, context: Option<nat>) returns (ok: bool)
      requires KeyedByName(abilitiesByName) && Inside(context)
      modifies `abilitiesByName, `abilityLifetimes, `installations, `nextId
      ensures KeyedByName(abilitiesByName) && nextId == old(nextId) + 1
      ensures PolicyLedger() == old(PolicyLedger()) && ActiveFlags(installations) == old(ActiveFlags(installations))
      ensures var l := Withdrawn(old(AbilityLedger()), returned, old(Active(context)));
              && (ok <==> source !in l.byName)
              && AbilityLedger() == if ok then Register(l, Definition(old(nextId), source, returned.body), old(Active(context))) else l
    {
      hide PolicySides, AbilitySides, DisposedFlags;
      assert |ActiveFlags(installations)| == |installations|;
      assert context.Some? ==> ActiveFlags(installations)[context.value] == installations[context.value].active;
      if returned.name in abilitiesByName && abilitiesByName[returned.name] == returned {
        UnregisterAbilityDefinition(returned.name, context);
      }
      assert |ActiveFlags(installations)| == |installations|;
      assert context.Some? ==> ActiveFlags(installations)[context.value] == installations[context.value].active;
      ok := DefineAbility(source, returned.body, context);
    }
  }
}
