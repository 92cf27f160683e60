/**
 * Whole runs of the authorization registry: a failed installation leaves no trace, and any run of
 * non-overlapping installations, with disposals in any order, shows the topmost undisposed layer.
 */
module AuthorizationRuns {
  import opened Prelude
  import opened AuthorizationLedger
  import opened AuthorizationRefinement
  import opened AuthorizationLosses
  import opened AuthorizationRollback
  import opened AuthorizationIndexes
  import opened AuthorizationRuntime

  // ---------------------------------------------------------------- failed installations

  /** What the loads of one installation do, in its context. */
  datatype Action =
    | DefinesPolicy(name: string, target: Target)
    | DefinesAbility(name: string, handler: Handler)
    | LoadedPolicy(source: string, policy: Policy)
    | LoadedAbility(source: string, ability: AbilityDefinition)

  /** The running installation is the last context, and the only one that acted since `policies`, `abilities`. */
  ghost predicate RunsAlone(rt: Runtime, policies: Ledger<Target>, abilities: Ledger<Handler>, first: nat, i: nat)
    reads rt
  {
    && Alone(policies, rt.PolicyLedger(), first) && Alone(abilities, rt.AbilityLedger(), first)
    && i == |rt.installations| - 1 && i >= 0 && ActiveFlags(rt.installations)[i]
    && first <= rt.nextId
  }

  method Perform(rt: Runtime, action: Action, read: KeyReader, i: nat,
                 ghost policies: Ledger<Target>, ghost abilities: Ledger<Handler>, ghost first: nat)
    requires rt.Ready(read) && RunsAlone(rt, policies, abilities, first, i)
    requires BoundLive(policies, first) && BoundLive(abilities, first)
    modifies rt
    ensures rt.Ready(read) && SameKeys(old(rt.definitionKeys), rt.definitionKeys, read)
    ensures RunsAlone(rt, policies, abilities, first, i)
  {
    hide Agree, KeysSteady, SameKeys, Alone, BoundLive, PolicySides, AbilitySides, DisposedFlags;
    SameKeysReflexive(rt.definitionKeys, read);
    AloneIsLast(policies, rt.PolicyLedger(), first);
    AloneIsLast(abilities, rt.AbilityLedger(), first);
    ghost var l, a := rt.PolicyLedger(), rt.AbilityLedger();
    assert rt.Active(Some(i)) == Some(i);
    match action {
      case DefinesPolicy(name, target) =>
        var ok := rt.DefinePolicy(name, target, read, Some(i));
        if ok { RegisterStaysAlone(policies, l, Definition(old(rt.nextId), name, target), first); }
      case DefinesAbility(name, handler) =>
        var ok := rt.DefineAbility(name, handler, Some(i));
        if ok { RegisterStaysAlone(abilities, a, Definition(old(rt.nextId), name, handler), first); }
      case LoadedPolicy(source, policy) =>
        WithdrawnStaysAlone(policies, l, policy, first);
        var ok := rt.LoadPolicy(source, policy, read, Some(i));
        if ok { RegisterStaysAlone(policies, Withdrawn(l, policy, Some(i)), Definition(old(rt.nextId), source, policy.body), first); }
      case LoadedAbility(source, ability) =>
        WithdrawnStaysAlone(abilities, a, ability, first);
        var ok := rt.LoadAbility(source, ability, Some(i));
        if ok { RegisterStaysAlone(abilities, Withdrawn(a, ability, Some(i)), Definition(old(rt.nextId), source, ability.body), first); }
    }
    assert |rt.installations| == |rt.PolicyLedger().sides| == |rt.AbilityLedger().sides|;
  }

  lemma AloneIsLast<T(!new)>(before: Ledger<T>, l: Ledger<T>, first: nat)
    requires Alone(before, l, first)
    ensures |l.sides| == |before.sides| + 1
  {
  }

  lemma WithdrawnStaysAlone<T(!new)>(before: Ledger<T>, l: Ledger<T>, d: Definition<T>, first: nat)
    requires Alone(before, l, first) && BoundLive(before, first)
    ensures Alone(before, Withdrawn(l, d, Some(|l.sides| - 1)), first)
    ensures |Withdrawn(l, d, Some(|l.sides| - 1)).sides| == |l.sides|
  {
    UnregisterStaysAlone(before, l, d.name, first);
  }

  /**
   * Exact rollback: whatever an installation's loads define, take out or return, when it fails in the end
   * all three policy indexes and the ability index hold what they held before it started.
   */
  method FailedInstallation(rt: Runtime, policyNames: seq<string>, abilityNames: seq<string>,
                            actions: seq<Action>, read: KeyReader)
    requires rt.Ready(read)
    requires WellShaped(rt.PolicyLedger()) && WellShaped(rt.AbilityLedger())
    requires BoundLive(rt.PolicyLedger(), rt.nextId) && BoundLive(rt.AbilityLedger(), rt.nextId)
    modifies rt
    ensures rt.policiesByName == old(rt.policiesByName)
    ensures rt.policiesByTargetObject == old(rt.policiesByTargetObject)
    ensures rt.policiesByDefinitionKey == old(rt.policiesByDefinitionKey)
    ensures rt.abilitiesByName == old(rt.abilitiesByName)
  {
    hide Agree, KeysSteady, SameKeys, NoClash, Alone, BoundLive, PolicySides, AbilitySides, DisposedFlags, KeyedByName;
    ghost var policies, abilities, first := rt.PolicyLedger(), rt.AbilityLedger(), rt.nextId;
    ghost var indexes := rt.PolicyIndexes();
    AgreementHasNoClash(rt.policiesByName, indexes, read);
    var i := rt.BeginInstallation(policyNames, abilityNames, read);
    BeginIsAlone(policies, NamesOf(policyNames), first);
    BeginIsAlone(abilities, NamesOf(abilityNames), first);
    assert |rt.installations| == |rt.PolicyLedger().sides| == |policies.sides| + 1;
    for k := 0 to |actions|
      invariant rt.Ready(read) && RunsAlone(rt, policies, abilities, first, i)
      invariant SameKeys(indexes.keys, rt.definitionKeys, read)
    {
      ghost var keys := rt.definitionKeys;
      Perform(rt, actions[k], read, i, policies, abilities, first);
      SameKeysTransitive(indexes.keys, keys, rt.definitionKeys, read);
    }
    ghost var keys := rt.definitionKeys;
    RollBack(rt, read, i, policies, abilities, first, indexes.keys);
    SameKeysTransitive(indexes.keys, keys, rt.definitionKeys, read);
    SameIndexes(rt.policiesByName, indexes, rt.PolicyIndexes(), read);
  }

  lemma SameIndexes(byName: map<string, Policy>, ix: Indexes, ix': Indexes, read: KeyReader)
    requires Agree(byName, ix) && Agree(byName, ix') && SameKeys(ix.keys, ix'.keys, read)
    ensures ix.byTarget == ix'.byTarget && ix.byKey == ix'.byKey
  {
    NamesDetermineIndexes(byName, ix, ix');
  }

  method RollBack(rt: Runtime, read: KeyReader, i: nat, ghost policies: Ledger<Target>, ghost abilities: Ledger<Handler>,
                  ghost first: nat, ghost keys: map<nat, string>)
    requires rt.Ready(read) && RunsAlone(rt, policies, abilities, first, i)
    requires BoundLive(policies, first) && BoundLive(abilities, first)
    requires SameKeys(keys, rt.definitionKeys, read) && NoClash(policies.byName, keys, read)
    modifies rt
    ensures rt.Ready(read) && SameKeys(old(rt.definitionKeys), rt.definitionKeys, read)
    ensures rt.policiesByName == policies.byName && rt.abilitiesByName == abilities.byName
  {
    hide Agree, KeysSteady, SameKeys, NoClash, PolicySides, AbilitySides, DisposedFlags, Dispose, Restore, Restoring, MarkDisposed;
    RollbackIsExact(policies, rt.PolicyLedger(), first);
    RollbackIsExact(abilities, rt.AbilityLedger(), first);
    SameKeysSameClashes(keys, rt.definitionKeys, read, policies.byName);
    assert |rt.installations| == |rt.PolicyLedger().sides| == |rt.AbilityLedger().sides|;
    var _ := rt.DisposeInstallation(i, true, read);
  }

  // ---------------------------------------------------------------- runs, specified on the stacks

  /** Where the installation in progress is: its sources still to be loaded, policies first. */
  datatype Control = Idle | Running(policies: seq<string>, abilities: seq<string>)

  datatype Spec = Spec(policies: Stack<Target>, abilities: Stack<Handler>, control: Control, nextId: nat)

  /**
   * A load answers the next source with any definition: a new one, a registered one, under any name. Outside
   * any installation, or in code of one that has ended, definitions are made and taken out at any time.
   */
  datatype Event =
    | Installs(policyNames: seq<string>, abilityNames: seq<string>)
    | Defines(action: Action)
    | PolicyLoads(policy: Policy)
    | AbilityLoads(ability: AbilityDefinition)
    | LoadThrows
    | Disposes(installation: nat)
    | DefinesOutside(action: Action, context: Option<nat>)
    | TakesOutPolicy(name: string)
    | TakesOutAbility(name: string)

  function Advance(control: Control): Control {
    if control == Running([], []) then Idle else control
  }

  /** A failed installation counts as disposed. */
  function Fail(s: Spec): Spec
    requires s.policies.layers != [] && s.abilities.layers != []
  {
    s.(policies := Drop(s.policies, |s.policies.layers| - 1),
       abilities := Drop(s.abilities, |s.abilities.layers| - 1),
       control := Idle)
  }

  /** A load that returns a registered definition first takes it out, whatever its name and whoever registered it. */
  function Withdraw<T(==)>(s: Stack<T>, returned: Definition<T>): Stack<T>
    requires s.layers != []
  {
    if Visible(s, returned.name) == Some(returned) then TakeOut(s, returned.name) else s
  }

  /** Two visible policies with one target or one definition key cannot both be registered. */
  ghost predicate Peaceful(read: KeyReader, s: Stack<Target>) {
    forall m, n {:trigger Visible(s, m), Visible(s, n)} ::
      m != n && Visible(s, m).Some? && Visible(s, n).Some? ==> !Clash(map[], Visible(s, m).value, Visible(s, n).value, read)
  }

  ghost predicate Accepted(read: KeyReader, s: Stack<Target>, p: Policy) {
    && Visible(s, p.name).None?
    && forall n {:trigger Visible(s, n)} :: Visible(s, n).Some? ==> !Clash(map[], p, Visible(s, n).value, read)
  }

  /** No installation's code runs, or that of one that has ended. */
  predicate Ended(s: Spec, context: Option<nat>) {
    context.Some? ==>
      && context.value < |s.policies.layers| && context.value < |s.abilities.layers|
      && (s.control.Running? ==> context.value < |s.policies.layers| - 1)
  }

  /** Whether the event can happen: installations do not overlap, and only the running one loads or defines. */
  predicate Enabled(s: Spec, e: Event) {
    match e
    case Installs(_, _) => s.control.Idle?
    case Defines(action) => s.control.Running? && (action.DefinesPolicy? || action.DefinesAbility?)
    case PolicyLoads(p) => s.control.Running? && s.control.policies != []
    case AbilityLoads(d) => s.control.Running? && s.control.policies == [] && s.control.abilities != []
    case LoadThrows => s.control.Running?
    case Disposes(i) => i < |s.policies.layers| && i < |s.abilities.layers| && (s.control.Running? ==> i < |s.policies.layers| - 1)
    case DefinesOutside(action, context) => (action.DefinesPolicy? || action.DefinesAbility?) && Ended(s, context)
    case TakesOutPolicy(_) => true
    case TakesOutAbility(_) => true
  }

  predicate Layered(s: Spec) {
    |s.policies.layers| == |s.abilities.layers| && (s.control.Running? ==> s.policies.layers != [])
  }

  /** The next policy source answered: the copy is bound, or the installation fails. */
  ghost function LoadPolicyInto(read: KeyReader, s: Spec, returned: Policy): (r: Spec)
    requires Layered(s) && Enabled(s, PolicyLoads(returned))
    ensures Layered(r)
  {
    var s1 := s.(policies := Withdraw(s.policies, returned), nextId := s.nextId + 1);
    var copy := Definition(s.nextId, s.control.policies[0], returned.body);
    if Accepted(read, s1.policies, copy)
    then s1.(policies := Bind(s1.policies, copy), control := Advance(s.control.(policies := s.control.policies[1..])))
    else Fail(s1)
  }

  ghost function LoadAbilityInto(s: Spec, returned: AbilityDefinition): (r: Spec)
    requires Layered(s) && Enabled(s, AbilityLoads(returned))
    ensures Layered(r)
  {
    var s1 := s.(abilities := Withdraw(s.abilities, returned), nextId := s.nextId + 1);
    var copy := Definition(s.nextId, s.control.abilities[0], returned.body);
    if Visible(s1.abilities, copy.name).None?
    then s1.(abilities := Bind(s1.abilities, copy), control := Advance(s.control.(abilities := s.control.abilities[1..])))
    else Fail(s1)
  }

  ghost function DefineInto(read: KeyReader, s: Spec, action: Action): (r: Spec)
    requires Layered(s) && Enabled(s, Defines(action))
    ensures Layered(r) && r.control == s.control
  {
    var s1 := s.(nextId := s.nextId + 1);
    match action
    case DefinesPolicy(name, target) =>
      var p := Definition(s.nextId, name, target);
      if Accepted(read, s.policies, p) then s1.(policies := Bind(s.policies, p)) else s1
    case DefinesAbility(name, handler) =>
      if Visible(s.abilities, name).None? then s1.(abilities := Bind(s.abilities, Definition(s.nextId, name, handler))) else s1
  }

  /** A definition made outside any installation belongs to the base. */
  ghost function DefineOutside(read: KeyReader, s: Spec, action: Action): (r: Spec)
    requires Layered(s) && (action.DefinesPolicy? || action.DefinesAbility?)
    ensures Layered(r) && r.control == s.control
  {
    var s1 := s.(nextId := s.nextId + 1);
    match action
    case DefinesPolicy(name, target) =>
      var p := Definition(s.nextId, name, target);
      if Accepted(read, s.policies, p) then s1.(policies := s.policies.(base := s.policies.base[name := p])) else s1
    case DefinesAbility(name, handler) =>
      if Visible(s.abilities, name).None?
      then s1.(abilities := s.abilities.(base := s.abilities.base[name := Definition(s.nextId, name, handler)])) else s1
  }

  /** A visible definition taken out outside any installation leaves the base. */
  function Without<T>(s: Stack<T>, n: string): Stack<T> {
    if Visible(s, n).Some? then s.(base := s.base - {n}) else s
  }

  ghost function SpecStep(read: KeyReader, s: Spec, e: Event): (r: Spec)
    requires Layered(s)
    ensures Layered(r)
  {
    if !Enabled(s, e) then s
    else match e
      case Installs(ps, abs) =>
        s.(policies := Push(s.policies, NamesOf(ps)), abilities := Push(s.abilities, NamesOf(abs)),
           control := Advance(Running(ps, abs)))
      case Defines(action) => DefineInto(read, s, action)
      case PolicyLoads(p) => LoadPolicyInto(read, s, p)
      case AbilityLoads(d) => LoadAbilityInto(s, d)
      case LoadThrows => Fail(s)
      case Disposes(i) => s.(policies := Drop(s.policies, i), abilities := Drop(s.abilities, i))
      case DefinesOutside(action, _) => DefineOutside(read, s, action)
      case TakesOutPolicy(name) => s.(policies := Without(s.policies, name))
      case TakesOutAbility(name) => s.(abilities := Without(s.abilities, name))
  }

  ghost function SpecRun(read: KeyReader, s: Spec, events: seq<Event>): (r: Spec)
    requires Layered(s)
    ensures Layered(r)
    decreases |events|
  {
    if events == [] then s else SpecStep(read, SpecRun(read, s, events[..|events| - 1]), events[|events| - 1])
  }

  /** The event ends the running installation by a failure. */
  ghost predicate Fails(read: KeyReader, s: Spec, e: Event)
    requires Layered(s)
  {
    Enabled(s, e) && match e
      case PolicyLoads(p) => !Accepted(read, Withdraw(s.policies, p), Definition(s.nextId, s.control.policies[0], p.body))
      case AbilityLoads(d) => Visible(Withdraw(s.abilities, d), s.control.abilities[0]).Some?
      case LoadThrows => true
      case _ => false
  }

  /** What is made or taken out outside has a name that no undisposed installation mentions. */
  ghost predicate Aside(read: KeyReader, s: Spec, e: Event)
    requires Layered(s)
  {
    match e
    case DefinesOutside(DefinesPolicy(name, target), _) =>
      Accepted(read, s.policies, Definition(s.nextId, name, target)) ==> Unmentioned(s.policies, name)
    case DefinesOutside(DefinesAbility(name, handler), _) => Visible(s.abilities, name).None? ==> Unmentioned(s.abilities, name)
    case TakesOutPolicy(name) => Visible(s.policies, name).Some? ==> Unmentioned(s.policies, name)
    case TakesOutAbility(name) => Visible(s.abilities, name).Some? ==> Unmentioned(s.abilities, name)
    case _ => true
  }

  /**
   * What has to be checked before a disposal, on the stacks: the layers may be dropped, and no two policies
   * that are then visible clash. After a failure, only the latter. Before a change from outside: that no
   * undisposed installation mentions the name.
   */
  ghost predicate Smooth(read: KeyReader, s: Spec, e: Event)
    requires Layered(s)
  {
    && (Enabled(s, e) && e.Disposes? ==>
          && Droppable(s.policies, e.installation) && Droppable(s.abilities, e.installation)
          && Peaceful(read, Drop(s.policies, e.installation)))
    && (Fails(read, s, e) ==> Peaceful(read, SpecStep(read, s, e).policies))
    && (Enabled(s, e) ==> Aside(read, s, e))
  }

  ghost predicate SmoothRun(read: KeyReader, s: Spec, events: seq<Event>)
    requires Layered(s)
  {
    forall k {:trigger events[k]} :: 0 <= k < |events| ==> Smooth(read, SpecRun(read, s, events[..k]), events[k])
  }

  // ---------------------------------------------------------------- what an event shows

  /** Nothing else is shown differently. */
  ghost predicate OnlyAt<T(!new)>(s: Stack<T>, s': Stack<T>, n: string, shown: Option<Definition<T>>) {
    Visible(s', n) == shown && forall m :: m != n ==> Visible(s', m) == Visible(s, m)
  }

  lemma BindShows<T(!new)>(s: Stack<T>, d: Definition<T>)
    requires s.layers != [] && !s.layers[|s.layers| - 1].disposed
    ensures OnlyAt(s, Bind(s, d), d.name, Some(d))
  {
    var s', top := Bind(s, d), |s.layers| - 1;
    assert s'.layers[..top] == s.layers[..top];
    assert |s'.layers| == top + 1 && s'.layers[top] == s.layers[top].(bound := s.layers[top].bound[d.name := d]);
    forall m ensures Visible(s', m) == if m == d.name then Some(d) else Visible(s, m) {
      LookupIgnoresAbove(s', s, top, m);
      assert m != d.name ==> (Mentions(s'.layers[top], m) <==> Mentions(s.layers[top], m));
    }
  }

  /** Of a tracked stack, taking a shown name out shows nothing under it: what a layer binds alone lies over nothing. */
  lemma TakeOutShows<T(!new)>(l: Ledger<T>, base: map<string, Definition<T>>, nextId: nat, n: string)
    requires Inv(l, base, true, nextId) && Visible(StackOf(l, base), n).Some?
    ensures OnlyAt(StackOf(l, base), TakeOut(StackOf(l, base), n), n, None)
  {
    hide Core, Visible, TakeOut;
    assert Get(l.byName, n) == Visible(StackOf(l, base), n);
    WithdrawTakesOut(l, base, n, nextId);
    var l' := Unregister(l, n, Some(|l.sides| - 1));
    forall m ensures Visible(StackOf(l', base), m) == if m == n then None else Visible(StackOf(l, base), m) {
      assert Get(l.byName, m) == Visible(StackOf(l, base), m);
      assert Get(l'.byName, m) == Visible(StackOf(l', base), m);
    }
  }

  lemma PushShows<T(!new)>(s: Stack<T>, names: set<string>)
    ensures forall n :: Visible(Push(s, names), n) == if n in names then None else Visible(s, n)
  {
    var s', top := Push(s, names), |s.layers|;
    assert s'.layers[..top] == s.layers[..top] == s.layers;
    forall m ensures Lookup(s', top, m) == Lookup(s, top, m) { LookupIgnoresAbove(s', s, top, m); }
  }

  /** The start of an installation shows none of its sources. */
  lemma InstallingShows(read: KeyReader, s: Spec, policyNames: seq<string>, abilityNames: seq<string>)
    requires Layered(s) && s.control.Idle?
    ensures var s' := SpecStep(read, s, Installs(policyNames, abilityNames));
            && (forall n :: Visible(s'.policies, n) == if n in policyNames then None else Visible(s.policies, n))
            && (forall n :: Visible(s'.abilities, n) == if n in abilityNames then None else Visible(s.abilities, n))
            && s'.control == if policyNames == [] && abilityNames == [] then Idle else Running(policyNames, abilityNames)
  {
    hide Visible;
    PushShows(s.policies, NamesOf(policyNames));
    PushShows(s.abilities, NamesOf(abilityNames));
  }

  /** A definition made inside the running installation is shown, unless it is refused, which changes nothing. */
  lemma DefiningShows(rt: Runtime, read: KeyReader, s: Spec, name: string, target: Target, handler: Handler)
    requires Tracks(rt, read, s) && s.control.Running?
    ensures var p := Definition(s.nextId, name, target); var s' := SpecStep(read, s, Defines(DefinesPolicy(name, target)));
            s'.abilities == s.abilities && if Accepted(read, s.policies, p) then OnlyAt(s.policies, s'.policies, name, Some(p)) else s'.policies == s.policies
    ensures var d := Definition(s.nextId, name, handler); var s' := SpecStep(read, s, Defines(DefinesAbility(name, handler)));
            s'.policies == s.policies && if Visible(s.abilities, name).None? then OnlyAt(s.abilities, s'.abilities, name, Some(d)) else s'.abilities == s.abilities
  {
    hide Visible, Accepted, OnlyAt, Core, Refines;
    BindShows(s.policies, Definition(s.nextId, name, target));
    BindShows(s.abilities, Definition(s.nextId, name, handler));
  }

  /**
   * The answer of the next policy source: what was returned is not shown any more under its own name, and its copy
   * is under the source's, or the installation has failed, and its layer is dropped.
   */
  lemma LoadingPolicyShows(rt: Runtime, read: KeyReader, s: Spec, p: Policy)
    requires Tracks(rt, read, s) && s.control.Running? && s.control.policies != []
    ensures var s' := SpecStep(read, s, PolicyLoads(p)); var source := s.control.policies[0];
            if !Fails(read, s, PolicyLoads(p)) then
              && Visible(s'.policies, source) == Some(Definition(s.nextId, source, p.body))
              && (Visible(s.policies, p.name) == Some(p) && p.name != source ==> Visible(s'.policies, p.name) == None)
              && (forall n :: n != source && n != p.name ==> Visible(s'.policies, n) == Visible(s.policies, n))
              && s'.control == Advance(Running(s.control.policies[1..], s.control.abilities))
            else s'.control.Idle? && s'.policies.layers[|s.policies.layers| - 1].disposed
  {
    hide Visible, Accepted, Core, Refines;
    if Visible(s.policies, p.name) == Some(p) { TakeOutShows(rt.PolicyLedger(), s.policies.base, s.nextId, p.name); }
    var s1 := Withdraw(s.policies, p);
    LoadedLayers(s.policies, p, p);
    BindShows(s1, Definition(s.nextId, s.control.policies[0], p.body));
  }

  lemma LoadingAbilityShows(rt: Runtime, read: KeyReader, s: Spec, d: AbilityDefinition)
    requires Tracks(rt, read, s) && s.control.Running? && s.control.policies == [] && s.control.abilities != []
    ensures var s' := SpecStep(read, s, AbilityLoads(d)); var source := s.control.abilities[0];
            if !Fails(read, s, AbilityLoads(d)) then
              && Visible(s'.abilities, source) == Some(Definition(s.nextId, source, d.body))
              && (Visible(s.abilities, d.name) == Some(d) && d.name != source ==> Visible(s'.abilities, d.name) == None)
              && (forall n :: n != source && n != d.name ==> Visible(s'.abilities, n) == Visible(s.abilities, n))
              && s'.control == Advance(Running([], s.control.abilities[1..]))
            else s'.control.Idle? && s'.abilities.layers[|s.abilities.layers| - 1].disposed
  {
    hide Visible, Core, Refines;
    if Visible(s.abilities, d.name) == Some(d) { TakeOutShows(rt.AbilityLedger(), s.abilities.base, s.nextId, d.name); }
    var s1 := Withdraw(s.abilities, d);
    LoadedLayers(s.abilities, d, d);
    BindShows(s1, Definition(s.nextId, s.control.abilities[0], d.body));
  }

  /** A load that throws ends the installation, and what is below its layer is shown again. */
  lemma ThrowingShows(read: KeyReader, s: Spec, n: string)
    requires Layered(s) && s.control.Running?
    ensures var s' := SpecStep(read, s, LoadThrows);
            && s'.control.Idle?
            && Visible(s'.policies, n) == Lookup(s.policies, |s.policies.layers| - 1, n)
            && Visible(s'.abilities, n) == Lookup(s.abilities, |s.abilities.layers| - 1, n)
  {
    hide Visible, Lookup;
    TopDropped(s.policies, n);
    TopDropped(s.abilities, n);
  }

  /**
   * Any installation but the running one may be disposed, at any time: where its layer was on top, what is below
   * it is shown, and nothing else changes.
   */
  lemma DisposingShows(read: KeyReader, s: Spec, i: nat, n: string)
    requires Layered(s) && i < |s.policies.layers| && (s.control.Idle? || i < |s.policies.layers| - 1)
    ensures var s' := SpecStep(read, s, Disposes(i));
            && Visible(s'.policies, n) == (if TopmostAt(s.policies, i, n) then Lookup(s.policies, i, n) else Visible(s.policies, n))
            && Visible(s'.abilities, n) == (if TopmostAt(s.abilities, i, n) then Lookup(s.abilities, i, n) else Visible(s.abilities, n))
            && s'.policies.layers[i].disposed && s'.abilities.layers[i].disposed
            && s'.control == s.control && s'.nextId == s.nextId
  {
    hide Visible, Lookup, TopmostAt;
    DropUncovers(s.policies, i, n);
    DropUncovers(s.abilities, i, n);
  }

  lemma TopDropped<T>(s: Stack<T>, n: string)
    requires s.layers != []
    ensures Visible(Drop(s, |s.layers| - 1), n) == Lookup(s, |s.layers| - 1, n)
  {
    var top := |s.layers| - 1;
    assert Drop(s, top).layers[..top] == s.layers[..top];
    LookupIgnoresAbove(Drop(s, top), s, top, n);
  }

  /** What is made or taken out outside, under a name no installation mentions, is shown or not shown accordingly. */
  lemma OutsideShows(read: KeyReader, s: Spec, name: string, target: Target, handler: Handler, context: Option<nat>)
    requires Layered(s) && Ended(s, context)
    ensures var p := Definition(s.nextId, name, target); var s' := SpecStep(read, s, DefinesOutside(DefinesPolicy(name, target), context));
            Accepted(read, s.policies, p) && Unmentioned(s.policies, name) ==> OnlyAt(s.policies, s'.policies, name, Some(p))
    ensures var d := Definition(s.nextId, name, handler); var s' := SpecStep(read, s, DefinesOutside(DefinesAbility(name, handler), context));
            Visible(s.abilities, name).None? && Unmentioned(s.abilities, name) ==> OnlyAt(s.abilities, s'.abilities, name, Some(d))
    ensures Unmentioned(s.policies, name) ==> OnlyAt(s.policies, SpecStep(read, s, TakesOutPolicy(name)).policies, name, None)
    ensures Unmentioned(s.abilities, name) ==> OnlyAt(s.abilities, SpecStep(read, s, TakesOutAbility(name)).abilities, name, None)
  {
    hide Accepted, Lookup;
    if Unmentioned(s.policies, name) {
      BaseShows(s.policies, name, Some(Definition(s.nextId, name, target)));
      BaseShows(s.policies, name, None);
    }
    if Unmentioned(s.abilities, name) {
      BaseShows(s.abilities, name, Some(Definition(s.nextId, name, handler)));
      BaseShows(s.abilities, name, None);
    }
  }

  lemma BaseShows<T(!new)>(s: Stack<T>, n: string, d: Option<Definition<T>>)
    requires Unmentioned(s, n)
    ensures OnlyAt(s, s.(base := if d.Some? then s.base[n := d.value] else s.base - {n}), n, d)
  {
    var base := if d.Some? then s.base[n := d.value] else s.base - {n};
    forall m ensures Visible(s.(base := base), m) == if m == n then d else Visible(s, m) {
      LookupOtherBase(s, base, |s.layers|, m);
      LookupOtherBase(s.(base := base), s.base, |s.layers|, m);
    }
  }

  // ---------------------------------------------------------------- the registry follows the specification

  ghost predicate KeysRead(keys: map<nat, string>, read: KeyReader) {
    forall m :: m in keys ==> keys[m] == read(m)
  }

  /** Only the running installation's context is active. */
  ghost predicate OneActive(flags: seq<bool>, running: bool) {
    forall k :: 0 <= k < |flags| ==> (flags[k] <==> running && k == |flags| - 1)
  }

  ghost predicate Tracks(rt: Runtime, read: KeyReader, s: Spec)
    reads rt
  {
    && rt.Ready(read) && KeysRead(rt.definitionKeys, read)
    && Inv(rt.PolicyLedger(), s.policies.base, s.control.Running?, rt.nextId)
    && Inv(rt.AbilityLedger(), s.abilities.base, s.control.Running?, rt.nextId)
    && s.policies == StackOf(rt.PolicyLedger(), s.policies.base)
    && s.abilities == StackOf(rt.AbilityLedger(), s.abilities.base)
    && s.nextId == rt.nextId
    && Layered(s)
    && OneActive(ActiveFlags(rt.installations), s.control.Running?)
  }

  /** Under every name, the registry answers like the stacks. */
  ghost predicate Shows(rt: Runtime, s: Spec)
    reads rt
  {
    && (forall n :: Get(rt.policiesByName, n) == Visible(s.policies, n))
    && (forall n :: Get(rt.abilitiesByName, n) == Visible(s.abilities, n))
  }

  // ---------------------------------------------------------------- small facts

  lemma KeysStayRead(keys: map<nat, string>, keys': map<nat, string>, read: KeyReader)
    requires KeysRead(keys, read) && SameKeys(keys, keys', read) && KeysSteady(keys', read)
    ensures KeysRead(keys', read)
  {
    forall m | m in keys' ensures keys'[m] == read(m) {
      assert KeyOf(keys, m, read) == KeyOf(keys', m, read);
    }
  }

  lemma ReadKeysClash(keys: map<nat, string>, read: KeyReader, p: Policy, q: Policy)
    requires KeysRead(keys, read)
    ensures Clash(keys, p, q, read) == Clash(map[], p, q, read)
  {
  }

  /** A registration is accepted exactly when the stack says so. */
  lemma AcceptedIffShown(l: Ledger<Target>, base: map<string, Policy>, read: KeyReader, running: bool, nextId: nat, keys: map<nat, string>, p: Policy)
    requires Inv(l, base, running, nextId) && KeysRead(keys, read)
    ensures Accepted(read, StackOf(l, base), p) <==> !(p.name in l.byName || Opposed(p, l.byName, keys, read))
  {
    hide Core, Lookup, Clash;
    CoreShape(l, base, nextId);
    var s := StackOf(l, base);
    forall n ensures Get(l.byName, n) == Visible(s, n) { }
    forall q: Policy ensures Clash(keys, p, q, read) == Clash(map[], p, q, read) { ReadKeysClash(keys, read, p, q); }
    if !Opposed(p, l.byName, keys, read) {
      forall n | Visible(s, n).Some? ensures !Clash(map[], p, Visible(s, n).value, read) {
        assert n in l.byName && l.byName[n] == Visible(s, n).value;
      }
    } else {
      var n :| n in l.byName && Clash(keys, p, l.byName[n], read);
      assert Visible(s, n) == Some(l.byName[n]);
    }
  }

  /** Nothing clashes exactly when the stack is peaceful. */
  lemma PeacefulIffNoClash(l: Ledger<Target>, base: map<string, Policy>, read: KeyReader, running: bool, nextId: nat, keys: map<nat, string>)
    requires Inv(l, base, running, nextId) && KeysRead(keys, read)
    ensures Peaceful(read, StackOf(l, base)) <==> NoClash(l.byName, keys, read)
  {
    hide Core, Lookup, Clash;
    CoreShape(l, base, nextId);
    var s := StackOf(l, base);
    forall n ensures Get(l.byName, n) == Visible(s, n) { }
    forall p: Policy, q: Policy ensures Clash(keys, p, q, read) == Clash(map[], p, q, read) { ReadKeysClash(keys, read, p, q); }
    if Peaceful(read, s) {
      forall m, n | m in l.byName && n in l.byName && m != n ensures !Clash(keys, l.byName[m], l.byName[n], read) {
        assert Visible(s, m) == Some(l.byName[m]) && Visible(s, n) == Some(l.byName[n]);
      }
    }
    if NoClash(l.byName, keys, read) {
      forall m, n | m != n && Visible(s, m).Some? && Visible(s, n).Some?
        ensures !Clash(map[], Visible(s, m).value, Visible(s, n).value, read)
      {
        assert m in l.byName && n in l.byName;
      }
    }
  }

  /** What a disposal is about to bring back carries the name it was displaced under. */
  lemma RestoringIsKeyed<T(!new)>(l: Ledger<T>, base: map<string, Definition<T>>, i: nat, running: bool, rollback: bool, nextId: nat)
    requires Inv(l, base, running, nextId) && i < |l.sides|
    requires rollback ==> !l.disposed[i]
    requires l.disposed[i] ==> Droppable(StackOf(l, base), i)
    ensures KeyedByName(Restoring(MarkDisposed(l, i), i, rollback))
  {
    if l.disposed[i] {
      DisposeAgain(l, base, i, running, nextId);
    } else {
      forall n | n in Restoring(MarkDisposed(l, i), i, rollback) ensures Restoring(MarkDisposed(l, i), i, rollback)[n].name == n {
        RestoringIsNamed(l, base, i, rollback, nextId, n);
      }
    }
  }

  /** More identities given out. */
  lemma LaterId<T(!new)>(l: Ledger<T>, base: map<string, Definition<T>>, running: bool, nextId: nat, later: nat)
    requires Inv(l, base, running, nextId) && nextId <= later
    ensures Inv(l, base, running, later)
  {
  }

  // ---------------------------------------------------------------- one ledger, one load

  /** What a load's withdrawal and the registration of its copy do to one ledger. */
  lemma LoadEvent<T(!new)>(l: Ledger<T>, base: map<string, Definition<T>>, nextId: nat, returned: Definition<T>, source: string)
    requires Inv(l, base, true, nextId)
    ensures var l1 := Withdrawn(l, returned, Some(|l.sides| - 1));
            var copy := Definition(nextId, source, returned.body);
            && Inv(l1, base, true, nextId) && StackOf(l1, base) == Withdraw(StackOf(l, base), returned)
            && (source in l1.byName <==> Visible(StackOf(l1, base), source).Some?)
            && (source !in l1.byName ==>
                  && Inv(Register(l1, copy, Some(|l.sides| - 1)), base, true, nextId + 1)
                  && StackOf(Register(l1, copy, Some(|l.sides| - 1)), base) == Bind(StackOf(l1, base), copy))
  {
    hide Core, Lookup;
    var l1 := Withdrawn(l, returned, Some(|l.sides| - 1));
    assert Get(l.byName, returned.name) == Visible(StackOf(l, base), returned.name);
    if Get(l.byName, returned.name) == Some(returned) { WithdrawTakesOut(l, base, returned.name, nextId); }
    assert Get(l1.byName, source) == Visible(StackOf(l1, base), source);
    if source !in l1.byName { RegisterBinds(l1, base, Definition(nextId, source, returned.body), nextId); }
  }

  // ---------------------------------------------------------------- the registry, one event

  lemma TracksShape(rt: Runtime, read: KeyReader, s: Spec)
    requires Tracks(rt, read, s)
    ensures WellShaped(rt.PolicyLedger()) && WellShaped(rt.AbilityLedger())
    ensures |rt.installations| == |s.policies.layers| == |s.abilities.layers|
    ensures s.control.Running? ==> rt.installations != [] && rt.Active(Some(|rt.installations| - 1)) == Some(|rt.installations| - 1)
  {
  }

  method Install(rt: Runtime, read: KeyReader, ghost s: Spec, policyNames: seq<string>, abilityNames: seq<string>) returns (control: Control)
    requires Tracks(rt, read, s) && s.control.Idle?
    modifies rt
    ensures control == SpecStep(read, s, Installs(policyNames, abilityNames)).control
    ensures Tracks(rt, read, SpecStep(read, s, Installs(policyNames, abilityNames)))
  {
    hide Inv, Agree, KeysSteady, SameKeys, Begin, Push, PolicySides, AbilitySides, DisposedFlags;
    TracksShape(rt, read, s);
    BeginPushes(rt.PolicyLedger(), s.policies.base, NamesOf(policyNames), rt.nextId);
    BeginPushes(rt.AbilityLedger(), s.abilities.base, NamesOf(abilityNames), rt.nextId);
    PushShape(s.policies, NamesOf(policyNames));
    PushShape(s.abilities, NamesOf(abilityNames));
    StillIdle(rt.PolicyLedger(), s.policies.base, NamesOf(policyNames), rt.nextId);
    StillIdle(rt.AbilityLedger(), s.abilities.base, NamesOf(abilityNames), rt.nextId);
    var i := rt.BeginInstallation(policyNames, abilityNames, read);
    KeysStayRead(old(rt.definitionKeys), rt.definitionKeys, read);
    control := Advance(Running(policyNames, abilityNames));
    if control.Idle? { rt.FinishInstallation(i); }
  }

  lemma PushShape<T>(s: Stack<T>, names: set<string>)
    ensures |Push(s, names).layers| == |s.layers| + 1 && Push(s, names).base == s.base
  {
  }

  /** An installation may end at any time. */
  lemma Ends<T(!new)>(l: Ledger<T>, base: map<string, Definition<T>>, nextId: nat)
    requires Inv(l, base, true, nextId)
    ensures Inv(l, base, false, nextId)
  {
  }

  lemma StillIdle<T(!new)>(l: Ledger<T>, base: map<string, Definition<T>>, names: set<string>, nextId: nat)
    requires Inv(l, base, false, nextId)
    ensures Inv(Begin(l, names), base, false, nextId)
  {
    BeginPushes(l, base, names, nextId);
    Ends(Begin(l, names), base, nextId);
  }

  /** What a disposal or a rollback does to one ledger. */
  lemma DropEvent<T(!new)>(l: Ledger<T>, base: map<string, Definition<T>>, i: nat, running: bool, rollback: bool, nextId: nat)
    requires Inv(l, base, running, nextId) && i < |l.sides|
    requires rollback == (running && i == |l.sides| - 1)
    requires rollback || Droppable(StackOf(l, base), i)
    ensures Inv(Dispose(l, i, rollback), base, running && !rollback, nextId)
    ensures StackOf(Dispose(l, i, rollback), base) == Drop(StackOf(l, base), i)
    ensures KeyedByName(Restoring(MarkDisposed(l, i), i, rollback))
  {
    hide Core, Lookup, Droppable, Dispose;
    CoreShape(l, base, nextId);
    RestoringIsKeyed(l, base, i, running, rollback, nextId);
    if rollback {
      RollbackDrops(l, base, nextId);
    } else if l.disposed[i] {
      DisposeAgain(l, base, i, running, nextId);
      DroppedStack(l, base, i);
      assert MarkDisposed(l, i) == l;
    } else {
      DisposeDrops(l, base, i, running, nextId);
    }
  }

  /** A disposal, or a rollback, of installation `i`. */
  method Discard(rt: Runtime, read: KeyReader, ghost s: Spec, i: nat, rollback: bool)
    requires Tracks(rt, read, s) && i < |rt.installations|
    requires rollback == (s.control.Running? && i == |rt.installations| - 1)
    requires rollback || (i < |s.policies.layers| == |s.abilities.layers| && Droppable(s.policies, i) && Droppable(s.abilities, i))
    requires i < |s.policies.layers| && Peaceful(read, Drop(s.policies, i))
    modifies rt
    ensures |s.policies.layers| == |s.abilities.layers| == old(|rt.installations|)
    ensures Tracks(rt, read, s.(policies := Drop(s.policies, i), abilities := Drop(s.abilities, i),
                             control := if rollback then Idle else s.control))
  {
    hide Inv, Agree, KeysSteady, SameKeys, Dispose, Drop, Droppable, NoClash, PolicySides, AbilitySides, DisposedFlags, KeysRead, Restoring,
         Peaceful, StackOf, Salvaged;
    TracksShape(rt, read, s);
    ghost var l, a, running := rt.PolicyLedger(), rt.AbilityLedger(), s.control.Running?;
    assert |l.sides| == |a.sides| == |rt.installations|;
    DropEvent(l, s.policies.base, i, running, rollback, rt.nextId);
    DropEvent(a, s.abilities.base, i, running, rollback, rt.nextId);
    PeacefulIffNoClash(Dispose(l, i, rollback), s.policies.base, read, running && !rollback, rt.nextId, rt.definitionKeys);
    DropShape(s.policies, i);
    DropShape(s.abilities, i);
    var _ := rt.DisposeInstallation(i, rollback, read);
    KeysStayRead(old(rt.definitionKeys), rt.definitionKeys, read);
    assert rt.PolicyLedger() == Dispose(l, i, rollback) && rt.AbilityLedger() == Dispose(a, i, rollback);
  }

  /** The installations above `i` that are not disposed yet. */
  ghost predicate RestOf(s: Spec, i: nat, order: seq<nat>) {
    RestAbove(s.policies, i, order) && RestAbove(s.abilities, i, order)
  }

  /** Once installation `i` is gone, they may be dropped in this order. */
  ghost predicate InTurn(s: Spec, i: nat, order: seq<nat>)
    requires Enabled(s, Disposes(i)) && RestOf(s, i, order)
  {
    DroppableInTurn(Drop(s.policies, i), order) && DroppableInTurn(Drop(s.abilities, i), order)
  }

  /** The registry still answers like the stacks once these installations are disposed too. */
  ghost predicate StillShows(rt: Runtime, s: Spec, order: seq<nat>)
    reads rt
  {
    var l, a := rt.PolicyLedger(), rt.AbilityLedger();
    && WellShaped(l) && WellShaped(a) && Within(order, |l.sides|) && Within(order, |a.sides|)
    && Refines(DisposeAll(l, order), s.policies.base) && Refines(DisposeAll(a, order), s.abilities.base)
  }

  /**
   * What disposing an installation shows. If no registration is refused, and the registry shows the stack
   * without the layer at once and still shows the stack when the installations above are disposed too, in any
   * order, then the layer may be dropped and nothing visible clashes. And if that is so, all this is shown, in
   * every order in which each of the others may be dropped in its turn.
   */
  method DisposeExactly(rt: Runtime, read: KeyReader, ghost s: Spec, i: nat) returns (failures: nat)
    requires Tracks(rt, read, s) && Enabled(s, Disposes(i)) && i < |rt.installations|
    requires !s.policies.layers[i].disposed && !s.abilities.layers[i].disposed
    modifies rt
    ensures var dropped := s.(policies := Drop(s.policies, i), abilities := Drop(s.abilities, i));
            && (forall order {:trigger RestOf(s, i, order)} ::
                  RestOf(s, i, order) && failures == 0 && Shows(rt, dropped) && StillShows(rt, s, order) ==> Smooth(read, s, Disposes(i)))
            && (Smooth(read, s, Disposes(i)) ==>
                  && failures == 0 && Shows(rt, dropped) && Tracks(rt, read, dropped)
                  && forall order {:trigger RestOf(s, i, order)} :: RestOf(s, i, order) && InTurn(s, i, order) ==> StillShows(rt, s, order))
            && (failures == 0 && Tracks(rt, read, dropped) ==> Smooth(read, s, Disposes(i)))
  {
    hide Inv, Agree, KeysSteady, SameKeys, Dispose, Drop, Droppable, NoClash, PolicySides, AbilitySides, DisposedFlags, KeysRead, Restoring,
         Peaceful, Salvaged, Shows, StillShows, InTurn;
    TracksShape(rt, read, s);
    ghost var l, a, running := rt.PolicyLedger(), rt.AbilityLedger(), s.control.Running?;
    ghost var dropped := s.(policies := Drop(s.policies, i), abilities := Drop(s.abilities, i));
    RestoringIsKeyed(l, s.policies.base, i, running, false, rt.nextId);
    RestoringIsKeyed(a, s.abilities.base, i, running, false, rt.nextId);
    DisposeDropsExactly(l, s.policies.base, i, running, rt.nextId);
    DisposeDropsExactly(a, s.abilities.base, i, running, rt.nextId);
    DisposedStack(l, s.policies.base, i);
    DisposedStack(a, s.abilities.base, i);
    ghost var keys := rt.definitionKeys;
    if running {
      Ends(l, s.policies.base, rt.nextId);
      Ends(a, s.abilities.base, rt.nextId);
    }
    if Smooth(read, s, Disposes(i)) {
      DisposeDrops(l, s.policies.base, i, running, rt.nextId);
      DisposeDrops(a, s.abilities.base, i, running, rt.nextId);
      PeacefulIffNoClash(Dispose(l, i, false), s.policies.base, read, running, rt.nextId, keys);
    }
    DropShape(s.policies, i);
    DropShape(s.abilities, i);
    failures := rt.DisposeInstallation(i, false, read);
    KeysStayRead(keys, rt.definitionKeys, read);
    if failures == 0 { ShownAreSmooth(rt, read, s, l, a, i); }
    if failures == 0 && Tracks(rt, read, dropped) {
      assert rt.PolicyLedger() == Dispose(l, i, false) && rt.AbilityLedger() == Dispose(a, i, false);
      RunStatesAreSound(rt, read, dropped);
    }
    if Smooth(read, s, Disposes(i)) { SmoothAreShown(rt, read, s, i); }
  }

  lemma ShownAreSmooth(rt: Runtime, read: KeyReader, s: Spec, l: Ledger<Target>, a: Ledger<Handler>, i: nat)
    requires Inv(l, s.policies.base, false, rt.nextId) && Inv(a, s.abilities.base, false, rt.nextId)
    requires WellShaped(l) && WellShaped(a) && i < |l.sides| && i < |a.sides| && Enabled(s, Disposes(i)) && Layered(s)
    requires s.policies == StackOf(l, s.policies.base) && s.abilities == StackOf(a, s.abilities.base)
    requires !l.disposed[i] && !a.disposed[i]
    requires rt.PolicyLedger() == Dispose(l, i, false) && rt.AbilityLedger() == Dispose(a, i, false)
    requires rt.Ready(read) && KeysRead(rt.definitionKeys, read)
    ensures var dropped := s.(policies := Drop(s.policies, i), abilities := Drop(s.abilities, i));
            forall order {:trigger RestOf(s, i, order)} ::
              RestOf(s, i, order) && Shows(rt, dropped) && StillShows(rt, s, order) ==> Smooth(read, s, Disposes(i))
  {
    hide Inv, Drop, Dispose, Shows, StillShows, Smooth, RestOf, Enabled;
    var dropped := s.(policies := Drop(s.policies, i), abilities := Drop(s.abilities, i));
    forall order | RestOf(s, i, order) && Shows(rt, dropped) && StillShows(rt, s, order) ensures Smooth(read, s, Disposes(i)) {
      ShownIsSmooth(rt, read, s, l, a, i, order);
    }
  }

  lemma SmoothAreShown(rt: Runtime, read: KeyReader, s: Spec, i: nat)
    requires Enabled(s, Disposes(i)) && Tracks(rt, read, s.(policies := Drop(s.policies, i), abilities := Drop(s.abilities, i)))
    ensures Shows(rt, s.(policies := Drop(s.policies, i), abilities := Drop(s.abilities, i)))
    ensures forall order {:trigger RestOf(s, i, order)} :: RestOf(s, i, order) && InTurn(s, i, order) ==> StillShows(rt, s, order)
  {
    hide Tracks, Drop, StillShows, InTurn, RestOf;
    RunShows(rt, read, s.(policies := Drop(s.policies, i), abilities := Drop(s.abilities, i)));
    forall order | RestOf(s, i, order) && InTurn(s, i, order) ensures StillShows(rt, s, order) {
      SmoothStillShows(rt, read, s, i, order);
    }
  }

  lemma SmoothStillShows(rt: Runtime, read: KeyReader, s: Spec, i: nat, order: seq<nat>)
    requires Enabled(s, Disposes(i)) && Tracks(rt, read, s.(policies := Drop(s.policies, i), abilities := Drop(s.abilities, i)))
    requires RestOf(s, i, order) && InTurn(s, i, order)
    ensures StillShows(rt, s, order)
  {
    hide Core, Refines, DisposeAll, Droppable, DroppableInTurn, Drop;
    var l, a := rt.PolicyLedger(), rt.AbilityLedger();
    DropShape(s.policies, i);
    DropShape(s.abilities, i);
    if s.control.Running? {
      Ends(l, s.policies.base, rt.nextId);
      Ends(a, s.abilities.base, rt.nextId);
    }
    CoreShape(l, s.policies.base, rt.nextId);
    CoreShape(a, s.abilities.base, rt.nextId);
    InTurnKeepsInv(l, s.policies.base, rt.nextId, order);
    InTurnKeepsInv(a, s.abilities.base, rt.nextId, order);
  }

  /** What is shown now and later decides: the layers may be dropped, and nothing visible clashes. */
  lemma ShownIsSmooth(rt: Runtime, read: KeyReader, s: Spec, l: Ledger<Target>, a: Ledger<Handler>, i: nat, order: seq<nat>)
    requires Inv(l, s.policies.base, false, rt.nextId) && Inv(a, s.abilities.base, false, rt.nextId)
    requires WellShaped(l) && WellShaped(a) && i < |l.sides| && i < |a.sides| && Enabled(s, Disposes(i)) && Layered(s)
    requires s.policies == StackOf(l, s.policies.base) && s.abilities == StackOf(a, s.abilities.base)
    requires !l.disposed[i] && !a.disposed[i] && RestOf(s, i, order)
    requires rt.PolicyLedger() == Dispose(l, i, false) && rt.AbilityLedger() == Dispose(a, i, false)
    requires rt.Ready(read) && KeysRead(rt.definitionKeys, read)
    requires Shows(rt, s.(policies := Drop(s.policies, i), abilities := Drop(s.abilities, i))) && StillShows(rt, s, order)
    ensures Smooth(read, s, Disposes(i))
  {
    hide Core, Lookup, Dispose, DisposeAll, Droppable, Drop, Agree, KeysSteady, RestAbove, Clash, Peaceful;
    DisposedStack(l, s.policies.base, i);
    DisposedStack(a, s.abilities.base, i);
    assert Refines(Dispose(l, i, false), s.policies.base) && Refines(Dispose(a, i, false), s.abilities.base);
    if !Droppable(s.policies, i) { LossIsSeen(l, s.policies.base, i, rt.nextId, order); }
    if !Droppable(s.abilities, i) { LossIsSeen(a, s.abilities.base, i, rt.nextId, order); }
    AgreementHasNoClash(rt.policiesByName, rt.PolicyIndexes(), read);
    ShownIsPeaceful(rt, read, Drop(s.policies, i));
  }

  lemma ShownIsPeaceful(rt: Runtime, read: KeyReader, s: Stack<Target>)
    requires NoClash(rt.policiesByName, rt.definitionKeys, read) && KeysRead(rt.definitionKeys, read)
    requires forall n :: Get(rt.policiesByName, n) == Visible(s, n)
    ensures Peaceful(read, s)
  {
    hide Visible, Clash;
    forall m, n | m != n && Visible(s, m).Some? && Visible(s, n).Some?
      ensures !Clash(map[], Visible(s, m).value, Visible(s, n).value, read)
    {
      assert Get(rt.policiesByName, m) == Visible(s, m) && Get(rt.policiesByName, n) == Visible(s, n);
      ReadKeysClash(rt.definitionKeys, read, rt.policiesByName[m], rt.policiesByName[n]);
    }
  }

  lemma DisposedStack<T(!new)>(l: Ledger<T>, base: map<string, Definition<T>>, i: nat)
    requires WellShaped(l) && i < |l.sides|
    ensures WellShaped(Dispose(l, i, false)) && StackOf(Dispose(l, i, false), base) == Drop(StackOf(l, base), i)
  {
    DroppedStack(l, base, i);
    assert StackOf(Dispose(l, i, false), base) == StackOf(MarkDisposed(l, i), base);
  }

  lemma DropShape<T>(s: Stack<T>, i: nat)
    requires i < |s.layers|
    ensures |Drop(s, i).layers| == |s.layers| && Drop(s, i).base == s.base
  {
  }

  /** Failing drops the layer of the installation in progress, in both kinds. */
  method FailRunning(rt: Runtime, read: KeyReader, ghost s: Spec)
    requires Tracks(rt, read, s) && s.control.Running? && Peaceful(read, Fail(s).policies)
    modifies rt
    ensures Tracks(rt, read, Fail(s))
  {
    hide Inv, Peaceful, Drop, Droppable;
    TracksShape(rt, read, s);
    Discard(rt, read, s, |rt.installations| - 1, true);
  }

  method DefinePolicyInside(rt: Runtime, read: KeyReader, ghost s: Spec, name: string, target: Target)
    requires Tracks(rt, read, s) && s.control.Running?
    modifies rt
    ensures Tracks(rt, read, DefineInto(read, s, DefinesPolicy(name, target)))
  {
    hide Inv, Agree, KeysSteady, SameKeys, Accepted, Opposed, Bind, StackOf, KeysRead, Register, PolicySides, AbilitySides, DisposedFlags;
    TracksShape(rt, read, s);
    ghost var l, p := rt.PolicyLedger(), Definition(rt.nextId, name, target);
    var i := |rt.installations| - 1;
    AcceptedIffShown(l, s.policies.base, read, true, rt.nextId, rt.definitionKeys, p);
    LaterId(rt.AbilityLedger(), s.abilities.base, true, rt.nextId, rt.nextId + 1);
    LaterId(l, s.policies.base, true, rt.nextId, rt.nextId + 1);
    LoadedLayers(s.policies, p, p);
    if name !in l.byName { Binds(l, s.policies.base, p, rt.nextId); }
    var _ := rt.DefinePolicy(name, target, read, Some(i));
    KeysStayRead(old(rt.definitionKeys), rt.definitionKeys, read);
  }

  lemma Binds<T(!new)>(l: Ledger<T>, base: map<string, Definition<T>>, d: Definition<T>, nextId: nat)
    requires Inv(l, base, true, nextId) && d.name !in l.byName && d.id == nextId
    ensures |l.sides| == |l.disposed| > 0 && StackOf(l, base).layers != []
    ensures |Bind(StackOf(l, base), d).layers| == |l.sides|
    ensures Inv(Register(l, d, Some(|l.sides| - 1)), base, true, nextId + 1)
    ensures StackOf(Register(l, d, Some(|l.sides| - 1)), base) == Bind(StackOf(l, base), d)
  {
    RegisterBinds(l, base, d, nextId);
  }

  method DefineAbilityInside(rt: Runtime, read: KeyReader, ghost s: Spec, name: string, handler: Handler)
    requires Tracks(rt, read, s) && s.control.Running?
    modifies rt
    ensures Tracks(rt, read, DefineInto(read, s, DefinesAbility(name, handler)))
  {
    hide Core, Lookup, Agree, KeysSteady, SameKeys, Bind, StackOf, KeysRead, Register, PolicySides, AbilitySides, DisposedFlags;
    TracksShape(rt, read, s);
    ghost var a, d := rt.AbilityLedger(), Definition(rt.nextId, name, handler);
    var i := |rt.installations| - 1;
    assert Get(a.byName, name) == Visible(StackOf(a, s.abilities.base), name);
    LaterId(rt.PolicyLedger(), s.policies.base, true, rt.nextId, rt.nextId + 1);
    LaterId(a, s.abilities.base, true, rt.nextId, rt.nextId + 1);
    LoadedLayers(s.abilities, d, d);
    if name !in a.byName { Binds(a, s.abilities.base, d, rt.nextId); }
    var _ := rt.DefineAbility(name, handler, Some(i));
  }

  lemma LoadedLayers<T>(s: Stack<T>, returned: Definition<T>, d: Definition<T>)
    requires s.layers != []
    ensures |Withdraw(s, returned).layers| == |s.layers| == |Bind(s, d).layers|
    ensures Withdraw(s, returned).base == s.base == Bind(s, d).base
  {
  }

  // ---------------------------------------------------------------- outside any installation

  predicate CanBeEnded(rt: Runtime, context: Option<nat>, control: Control)
    reads rt
  {
    context.Some? ==> context.value < |rt.installations| && (control.Running? ==> context.value < |rt.installations| - 1)
  }

  /** The context of an installation that has ended counts for nothing. */
  lemma EndedIsInactive(rt: Runtime, read: KeyReader, s: Spec, context: Option<nat>)
    requires Tracks(rt, read, s) && Ended(s, context)
    ensures rt.Inside(context) && rt.Active(context) == None
  {
    hide Inv, Agree, KeysSteady, KeysRead;
    TracksShape(rt, read, s);
  }

  method DefinePolicyOutside(rt: Runtime, read: KeyReader, ghost s: Spec, name: string, target: Target, context: Option<nat>)
    requires Tracks(rt, read, s) && Ended(s, context) && Aside(read, s, DefinesOutside(DefinesPolicy(name, target), context))
    modifies rt
    ensures Tracks(rt, read, DefineOutside(read, s, DefinesPolicy(name, target)))
  {
    hide Inv, Agree, KeysSteady, SameKeys, Accepted, Opposed, StackOf, KeysRead, Register, PolicySides, AbilitySides, DisposedFlags,
         Unmentioned;
    TracksShape(rt, read, s);
    ghost var l, p, running := rt.PolicyLedger(), Definition(rt.nextId, name, target), s.control.Running?;
    AcceptedIffShown(l, s.policies.base, read, running, rt.nextId, rt.definitionKeys, p);
    LaterId(rt.AbilityLedger(), s.abilities.base, running, rt.nextId, rt.nextId + 1);
    LaterId(l, s.policies.base, running, rt.nextId, rt.nextId + 1);
    if name !in l.byName { RegisterOutsideExactly(l, s.policies.base, p, running, rt.nextId); }
    EndedIsInactive(rt, read, s, context);
    var _ := rt.DefinePolicy(name, target, read, context);
    KeysStayRead(old(rt.definitionKeys), rt.definitionKeys, read);
  }

  method DefineAbilityOutside(rt: Runtime, read: KeyReader, ghost s: Spec, name: string, handler: Handler, context: Option<nat>)
    requires Tracks(rt, read, s) && Ended(s, context) && Aside(read, s, DefinesOutside(DefinesAbility(name, handler), context))
    modifies rt
    ensures Tracks(rt, read, DefineOutside(read, s, DefinesAbility(name, handler)))
  {
    hide Inv, Agree, KeysSteady, SameKeys, StackOf, KeysRead, Register, PolicySides, AbilitySides, DisposedFlags, Unmentioned, Visible;
    TracksShape(rt, read, s);
    ghost var a, d, running := rt.AbilityLedger(), Definition(rt.nextId, name, handler), s.control.Running?;
    BoundIsVisible(a, s.abilities.base, running, rt.nextId, name);
    LaterId(rt.PolicyLedger(), s.policies.base, running, rt.nextId, rt.nextId + 1);
    LaterId(a, s.abilities.base, running, rt.nextId, rt.nextId + 1);
    if name !in a.byName { RegisterOutsideExactly(a, s.abilities.base, d, running, rt.nextId); }
    EndedIsInactive(rt, read, s, context);
    var _ := rt.DefineAbility(name, handler, context);
  }

  lemma BoundIsVisible<T(!new)>(l: Ledger<T>, base: map<string, Definition<T>>, running: bool, nextId: nat, n: string)
    requires Inv(l, base, running, nextId)
    ensures WellShaped(l) && Get(l.byName, n) == Visible(StackOf(l, base), n)
  {
    hide Visible;
  }

  method TakeOutPolicyOutside(rt: Runtime, read: KeyReader, ghost s: Spec, name: string)
    requires Tracks(rt, read, s) && Aside(read, s, TakesOutPolicy(name))
    modifies rt
    ensures Tracks(rt, read, s.(policies := Without(s.policies, name)))
  {
    hide Inv, Agree, KeysSteady, SameKeys, StackOf, KeysRead, PolicySides, AbilitySides, DisposedFlags, Unmentioned, Visible;
    TracksShape(rt, read, s);
    ghost var l, running := rt.PolicyLedger(), s.control.Running?;
    BoundIsVisible(l, s.policies.base, running, rt.nextId, name);
    if name in l.byName { UnregisterOutsideExactly(l, s.policies.base, name, running, rt.nextId); }
    rt.TakeOutPolicy(name, read, None);
    KeysStayRead(old(rt.definitionKeys), rt.definitionKeys, read);
  }

  method TakeOutAbilityOutside(rt: Runtime, read: KeyReader, ghost s: Spec, name: string)
    requires Tracks(rt, read, s) && Aside(read, s, TakesOutAbility(name))
    modifies rt
    ensures Tracks(rt, read, s.(abilities := Without(s.abilities, name)))
  {
    hide Inv, Agree, KeysSteady, SameKeys, StackOf, KeysRead, PolicySides, AbilitySides, DisposedFlags, Unmentioned, Visible;
    TracksShape(rt, read, s);
    ghost var a, running := rt.AbilityLedger(), s.control.Running?;
    BoundIsVisible(a, s.abilities.base, running, rt.nextId, name);
    if name in a.byName { UnregisterOutsideExactly(a, s.abilities.base, name, running, rt.nextId); }
    rt.UnregisterAbilityDefinition(name, None);
  }

  // ---------------------------------------------------------------- loads

  /** The installation in progress takes up the next source, or ends. */
  method MoveOn(rt: Runtime, read: KeyReader, ghost s: Spec, control: Control) returns (next: Control)
    requires Tracks(rt, read, s) && s.control == control && control.Running?
    modifies rt
    ensures next == Advance(control) && Tracks(rt, read, s.(control := next))
  {
    hide Core, Refines, Agree, KeysSteady, KeysRead, StackOf, PolicySides, AbilitySides, DisposedFlags;
    TracksShape(rt, read, s);
    next := Advance(control);
    if next.Idle? {
      rt.FinishInstallation(|rt.installations| - 1);
      Ends(rt.PolicyLedger(), s.policies.base, rt.nextId);
      Ends(rt.AbilityLedger(), s.abilities.base, rt.nextId);
    }
  }

  method LoadPolicySource(rt: Runtime, read: KeyReader, ghost s: Spec, p: Policy, control: Control) returns (next: Control)
    requires Tracks(rt, read, s) && s.control == control && Enabled(s, PolicyLoads(p)) && Smooth(read, s, PolicyLoads(p))
    modifies rt
    ensures next == SpecStep(read, s, PolicyLoads(p)).control && Tracks(rt, read, SpecStep(read, s, PolicyLoads(p)))
  {
    hide Inv, Agree, KeysSteady, SameKeys, Clash, Bind, Withdraw, Withdrawn, Drop, Peaceful, Accepted, Opposed,
         PolicySides, AbilitySides, DisposedFlags, StackOf, KeysRead, Register, Visible;
    ghost var l, id := rt.PolicyLedger(), rt.nextId;
    TracksShape(rt, read, s);
    var i := |rt.installations| - 1;
    ghost var l1, copy := Withdrawn(l, p, Some(i)), Definition(id, control.policies[0], p.body);
    LoadEvent(l, s.policies.base, id, p, control.policies[0]);
    AcceptedIffShown(l1, s.policies.base, read, true, id, rt.definitionKeys, copy);
    LoadedLayers(s.policies, p, copy);
    LoadedLayers(Withdraw(s.policies, p), p, copy);
    LaterId(rt.AbilityLedger(), s.abilities.base, true, id, id + 1);
    LaterId(l1, s.policies.base, true, id, id + 1);
    var ok := rt.LoadPolicy(control.policies[0], p, read, Some(i));
    KeysStayRead(old(rt.definitionKeys), rt.definitionKeys, read);
    assert |rt.installations| == |rt.PolicyLedger().sides|;
    ghost var s1 := s.(policies := Withdraw(s.policies, p), nextId := id + 1);
    if ok {
      next := MoveOn(rt, read, s1.(policies := Bind(s1.policies, copy), control := control.(policies := control.policies[1..])),
                     control.(policies := control.policies[1..]));
    } else {
      FailRunning(rt, read, s1);
      next := Idle;
    }
  }

  method LoadAbilitySource(rt: Runtime, read: KeyReader, ghost s: Spec, d: AbilityDefinition, control: Control) returns (next: Control)
    requires Tracks(rt, read, s) && s.control == control && Enabled(s, AbilityLoads(d)) && Smooth(read, s, AbilityLoads(d))
    modifies rt
    ensures next == SpecStep(read, s, AbilityLoads(d)).control && Tracks(rt, read, SpecStep(read, s, AbilityLoads(d)))
  {
    hide Inv, Agree, KeysSteady, SameKeys, Bind, Withdraw, Withdrawn, Drop, Peaceful,
         PolicySides, AbilitySides, DisposedFlags, StackOf, KeysRead, Register, Visible;
    ghost var a, id := rt.AbilityLedger(), rt.nextId;
    TracksShape(rt, read, s);
    var i := |rt.installations| - 1;
    ghost var a1, copy := Withdrawn(a, d, Some(i)), Definition(id, control.abilities[0], d.body);
    LoadEvent(a, s.abilities.base, id, d, control.abilities[0]);
    LoadedLayers(s.abilities, d, copy);
    LoadedLayers(Withdraw(s.abilities, d), d, copy);
    LaterId(rt.PolicyLedger(), s.policies.base, true, id, id + 1);
    LaterId(a1, s.abilities.base, true, id, id + 1);
    var ok := rt.LoadAbility(control.abilities[0], d, Some(i));
    assert |rt.installations| == |rt.AbilityLedger().sides|;
    ghost var s1 := s.(abilities := Withdraw(s.abilities, d), nextId := id + 1);
    if ok {
      next := MoveOn(rt, read, s1.(abilities := Bind(s1.abilities, copy), control := control.(abilities := control.abilities[1..])),
                     control.(abilities := control.abilities[1..]));
    } else {
      FailRunning(rt, read, s1);
      next := Idle;
    }
  }

  /** One event of a run. */
  method Step(rt: Runtime, read: KeyReader, ghost s: Spec, e: Event, control: Control) returns (next: Control)
    requires Tracks(rt, read, s) && s.control == control && Smooth(read, s, e)
    modifies rt
    ensures next == SpecStep(read, s, e).control && Tracks(rt, read, SpecStep(read, s, e))
  {
    hide Inv, Agree, KeysSteady, KeysRead, Push, Drop, Droppable, Peaceful, DefineInto, DefineOutside, LoadPolicyInto, LoadAbilityInto,
         Aside, Without;
    next := control;
    TracksShape(rt, read, s);
    match e {
      case Installs(ps, abs) =>
        if control.Idle? { next := Install(rt, read, s, ps, abs); }
      case Defines(DefinesPolicy(name, target)) =>
        if control.Running? { DefinePolicyInside(rt, read, s, name, target); }
      case Defines(DefinesAbility(name, handler)) =>
        if control.Running? { DefineAbilityInside(rt, read, s, name, handler); }
      case Defines(_) =>
      case PolicyLoads(p) =>
        if control.Running? && control.policies != [] { next := LoadPolicySource(rt, read, s, p, control); }
      case AbilityLoads(d) =>
        if control.Running? && control.policies == [] && control.abilities != [] { next := LoadAbilitySource(rt, read, s, d, control); }
      case LoadThrows =>
        if control.Running? {
          FailRunning(rt, read, s);
          next := Idle;
        }
      case Disposes(i) =>
        if i < |rt.installations| && (control.Running? ==> i < |rt.installations| - 1) {
          Discard(rt, read, s, i, false);
        }
      case DefinesOutside(DefinesPolicy(name, target), context) =>
        if CanBeEnded(rt, context, control) { DefinePolicyOutside(rt, read, s, name, target, context); }
      case DefinesOutside(DefinesAbility(name, handler), context) =>
        if CanBeEnded(rt, context, control) { DefineAbilityOutside(rt, read, s, name, handler, context); }
      case DefinesOutside(_, _) =>
      case TakesOutPolicy(name) => TakeOutPolicyOutside(rt, read, s, name);
      case TakesOutAbility(name) => TakeOutAbilityOutside(rt, read, s, name);
    }
  }

  /**
   * Stack refinement over whole runs. From a registry that shows a stack of layers, any sequence of
   * installations that do not overlap, of what their loads define, return (under any name) or throw, of
   * disposals in any order and of changes from outside, ends in a registry that shows, under every name, the
   * topmost undisposed layer of the specified stack, or else the base; the three policy indexes agree
   * throughout. A disposal has to be of a layer that may be dropped, with no two visible policies clashing
   * after it (`DisposeExactly` says what is shown otherwise); a change from outside, of a name that no
   * undisposed installation mentions.
   */
  method Run(rt: Runtime, read: KeyReader, ghost s: Spec, events: seq<Event>, control: Control) returns (end: Control)
    requires Tracks(rt, read, s) && s.control == control && SmoothRun(read, s, events)
    modifies rt
    ensures end == SpecRun(read, s, events).control && Tracks(rt, read, SpecRun(read, s, events))
    ensures Shows(rt, SpecRun(read, s, events)) && Agree(rt.policiesByName, rt.PolicyIndexes())
  {
    end := control;
    for k := 0 to |events|
      invariant Tracks(rt, read, SpecRun(read, s, events[..k])) && end == SpecRun(read, s, events[..k]).control
    {
      hide Tracks, SpecStep, Smooth;
      assert events[..k + 1][..k] == events[..k];
      end := Step(rt, read, SpecRun(read, s, events[..k]), events[k], end);
    }
    assert events[..|events|] == events;
    RunShows(rt, read, SpecRun(read, s, events));
  }

  lemma RunShows(rt: Runtime, read: KeyReader, s: Spec)
    requires Tracks(rt, read, s)
    ensures Shows(rt, s) && Agree(rt.policiesByName, rt.PolicyIndexes())
  {
    hide Core, Lookup;
    forall n ensures Get(rt.policiesByName, n) == Visible(s.policies, n) && Get(rt.abilitiesByName, n) == Visible(s.abilities, n) {
      assert Get(rt.PolicyLedger().byName, n) == Visible(s.policies, n);
      assert Get(rt.AbilityLedger().byName, n) == Visible(s.abilities, n);
    }
  }

  /** A run may start from any registry in agreement that no installation has touched. */
  lemma UntouchedTracks(rt: Runtime, read: KeyReader)
    requires rt.Ready(read) && KeysRead(rt.definitionKeys, read)
    requires rt.installations == [] && rt.policyLifetimes == map[] && rt.abilityLifetimes == map[]
    requires forall n :: n in rt.policiesByName ==> rt.policiesByName[n].id < rt.nextId
    requires forall n :: n in rt.abilitiesByName ==> rt.abilitiesByName[n].id < rt.nextId
    ensures Tracks(rt, read, Spec(Stack(rt.policiesByName, []), Stack(rt.abilitiesByName, []), Idle, rt.nextId))
  {
    var policies, abilities := rt.policiesByName, rt.abilitiesByName;
    assert StackOf(rt.PolicyLedger(), policies) == Stack(policies, []);
    assert StackOf(rt.AbilityLedger(), abilities) == Stack(abilities, []);
    forall n ensures Get(policies, n) == Visible(StackOf(rt.PolicyLedger(), policies), n) { }
    forall n ensures Get(abilities, n) == Visible(StackOf(rt.AbilityLedger(), abilities), n) { }
  }

  /** In every state of a run no two visible policies clash, and a failed installation leaves no trace. */
  lemma RunStatesAreSound(rt: Runtime, read: KeyReader, s: Spec)
    requires Tracks(rt, read, s)
    ensures Peaceful(read, s.policies)
    ensures WellShaped(rt.PolicyLedger()) && WellShaped(rt.AbilityLedger())
    ensures BoundLive(rt.PolicyLedger(), rt.nextId) && BoundLive(rt.AbilityLedger(), rt.nextId)
  {
    hide Agree, Core, Lookup;
    AgreementHasNoClash(rt.policiesByName, rt.PolicyIndexes(), read);
    PeacefulIffNoClash(rt.PolicyLedger(), s.policies.base, read, s.control.Running?, rt.nextId, rt.definitionKeys);
    TracksShape(rt, read, s);
    ShownIsLive(rt.PolicyLedger(), s.policies.base, s.control.Running?, rt.nextId);
    ShownIsLive(rt.AbilityLedger(), s.abilities.base, s.control.Running?, rt.nextId);
  }

  lemma ShownIsLive<T(!new)>(l: Ledger<T>, base: map<string, Definition<T>>, running: bool, nextId: nat)
    requires Inv(l, base, running, nextId)
    ensures WellShaped(l) && BoundLive(l, nextId)
  {
    hide Core, Lookup;
    CoreShape(l, base, nextId);
    forall n | n in l.byName
      ensures var d := l.byName[n];
              && d.name == n && d.id < nextId
              && (d.id in l.lifetimes ==>
                    l.lifetimes[d.id].installation < |l.disposed| && !l.disposed[l.lifetimes[d.id].installation])
    {
      assert Get(l.byName, n) == Visible(StackOf(l, base), n);
      VisibleNamed(l, base, nextId, |l.sides|, n);
    }
  }
}
