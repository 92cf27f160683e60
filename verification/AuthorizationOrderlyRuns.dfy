/**
 * Installations that only take out what they registered themselves, when every target and key belongs to one
 * name: every run of them, with disposals in any order, shows the topmost undisposed layer. And what happens
 * to a definition that an installation took from below it.
 */
module AuthorizationOrderlyRuns {
  import opened Prelude
  import opened AuthorizationLedger
  import opened AuthorizationRefinement
  import opened AuthorizationIndexes
  import opened AuthorizationRuntime
  import opened AuthorizationRuns

  // ---------------------------------------------------------------- one name for each target and key

  datatype Owners = Owners(ofTarget: Target -> string, ofKey: string -> string)

  ghost predicate Follows(o: Owners, read: KeyReader, p: Policy) {
    && o.ofTarget(p.body) == p.name
    && (p.body.ModelTarget? ==> o.ofKey(read(p.body.definition)) == p.name)
  }

  ghost predicate StackFollows(o: Owners, read: KeyReader, s: Stack<Target>) {
    && (forall n :: n in s.base ==> s.base[n].name == n && Follows(o, read, s.base[n]))
    && (forall i, n :: 0 <= i < |s.layers| && n in s.layers[i].bound ==>
          s.layers[i].bound[n].name == n && Follows(o, read, s.layers[i].bound[n]))
  }

  lemma {:induction false} LookupFollows(o: Owners, read: KeyReader, s: Stack<Target>, i: nat, n: string)
    requires StackFollows(o, read, s) && i <= |s.layers|
    ensures Lookup(s, i, n).Some? ==> Lookup(s, i, n).value.name == n && Follows(o, read, Lookup(s, i, n).value)
    decreases i
  {
    if i > 0 { LookupFollows(o, read, s, i - 1, n); }
  }

  lemma FollowersArePeaceful(o: Owners, read: KeyReader, s: Stack<Target>)
    requires StackFollows(o, read, s)
    ensures Peaceful(read, s)
  {
    forall m, n | m != n && Visible(s, m).Some? && Visible(s, n).Some?
      ensures !Clash(map[], Visible(s, m).value, Visible(s, n).value, read)
    {
      LookupFollows(o, read, s, |s.layers|, m);
      LookupFollows(o, read, s, |s.layers|, n);
    }
  }

  // ---------------------------------------------------------------- layers that bind their sources

  function Top<T>(s: Stack<T>): Layer<T>
    requires s.layers != []
  {
    s.layers[|s.layers| - 1]
  }

  /** A layer borrowed nothing, and shows every source that is not still to be loaded. */
  ghost predicate SolidLayer<T>(layer: Layer<T>, pending: seq<string>) {
    layer.borrowed == {} && (layer.disposed || forall n :: n in layer.sources ==> n in layer.bound || n in pending)
  }

  ghost predicate Solid<T>(s: Stack<T>, pending: seq<string>) {
    && (forall i {:trigger s.layers[i]} :: 0 <= i < |s.layers| ==> SolidLayer(s.layers[i], if i == |s.layers| - 1 then pending else []))
    && (pending != [] ==> s.layers != [] && forall n :: n in pending ==> n in Top(s).sources)
  }

  lemma SolidDrops<T>(s: Stack<T>, pending: seq<string>, i: nat)
    requires Solid(s, pending) && i < |s.layers| && (pending != [] ==> i < |s.layers| - 1)
    ensures Droppable(s, i) && Solid(Drop(s, i), pending)
  {
    var layer := s.layers[i];
    assert SolidLayer(layer, []);
    if !layer.disposed {
      forall n | Mentions(layer, n) ensures DroppableAt(s, i, n) { }
    }
    forall k | 0 <= k < |s.layers| ensures SolidLayer(Drop(s, i).layers[k], if k == |s.layers| - 1 then pending else []) {
      assert SolidLayer(s.layers[k], if k == |s.layers| - 1 then pending else []);
    }
  }

  lemma SolidFails<T>(s: Stack<T>, pending: seq<string>)
    requires Solid(s, pending) && s.layers != []
    ensures Solid(Drop(s, |s.layers| - 1), [])
  {
    var s' := Drop(s, |s.layers| - 1);
    forall k | 0 <= k < |s.layers| ensures SolidLayer(s'.layers[k], []) {
      assert SolidLayer(s.layers[k], if k == |s.layers| - 1 then pending else []);
    }
  }

  lemma SolidPushes<T>(s: Stack<T>, names: seq<string>)
    requires Solid(s, [])
    ensures Solid(Push(s, NamesOf(names)), names)
  {
    forall k | 0 <= k < |s.layers| ensures SolidLayer(Push(s, NamesOf(names)).layers[k], []) {
      assert SolidLayer(s.layers[k], []);
    }
  }

  /** The definition a load takes out is the running installation's own, and no source it has already loaded. */
  ghost predicate OwnOrAbsent<T(!new)>(s: Stack<T>, pending: seq<string>, returned: Definition<T>)
    requires s.layers != []
  {
    Visible(s, returned.name) == Some(returned) ==>
      returned.name in Top(s).bound && (returned.name in Top(s).sources ==> returned.name in pending)
  }

  lemma SolidWithdraws<T(!new)>(s: Stack<T>, pending: seq<string>, returned: Definition<T>)
    requires Solid(s, pending) && s.layers != [] && OwnOrAbsent(s, pending, returned)
    ensures Solid(Withdraw(s, returned), pending)
  {
    var s' := Withdraw(s, returned);
    forall k | 0 <= k < |s.layers| ensures SolidLayer(s'.layers[k], if k == |s.layers| - 1 then pending else []) {
      assert SolidLayer(s.layers[k], if k == |s.layers| - 1 then pending else []);
    }
  }

  lemma SolidBinds<T>(s: Stack<T>, pending: seq<string>, d: Definition<T>)
    requires Solid(s, pending) && s.layers != []
    ensures Solid(Bind(s, d), pending)
    ensures pending != [] && d.name == pending[0] ==> Solid(Bind(s, d), pending[1..])
  {
    forall k | 0 <= k < |s.layers| ensures SolidLayer(Bind(s, d).layers[k], if k == |s.layers| - 1 then pending else []) {
      assert SolidLayer(s.layers[k], if k == |s.layers| - 1 then pending else []);
    }
    if pending != [] && d.name == pending[0] {
      forall n | n in pending ensures n == d.name || n in pending[1..] { }
      assert SolidLayer(Top(s), pending) && SolidLayer(Top(Bind(s, d)), pending[1..]);
    }
  }

  // ---------------------------------------------------------------- runs of such installations

  function PendingPolicies(control: Control): seq<string> { if control.Idle? then [] else control.policies }

  function PendingAbilities(control: Control): seq<string> { if control.Idle? then [] else control.abilities }

  ghost predicate Orderly(o: Owners, read: KeyReader, s: Spec) {
    && Layered(s) && StackFollows(o, read, s.policies)
    && Solid(s.policies, PendingPolicies(s.control)) && Solid(s.abilities, PendingAbilities(s.control))
  }

  /**
   * The loads take out nothing but the installation's own definitions, what happens outside leaves the
   * installations' names alone, and policies are about their own targets.
   */
  ghost predicate Tidy(o: Owners, read: KeyReader, s: Spec, e: Event)
    requires Layered(s)
  {
    Enabled(s, e) ==>
      match e
      case Defines(DefinesPolicy(name, target)) => Follows(o, read, Definition(0, name, target))
      case DefinesOutside(DefinesPolicy(name, target), _) => Follows(o, read, Definition(0, name, target)) && Aside(read, s, e)
      case PolicyLoads(p) =>
        Follows(o, read, Definition(0, s.control.policies[0], p.body)) && OwnOrAbsent(s.policies, s.control.policies, p)
      case AbilityLoads(d) => OwnOrAbsent(s.abilities, s.control.abilities, d)
      case _ => Aside(read, s, e)
  }

  ghost predicate TidyRun(o: Owners, read: KeyReader, s: Spec, events: seq<Event>)
    requires Layered(s)
  {
    forall k {:trigger events[k]} :: 0 <= k < |events| ==> Tidy(o, read, SpecRun(read, s, events[..k]), events[k])
  }

  lemma BindFollows(o: Owners, read: KeyReader, s: Stack<Target>, p: Policy)
    requires StackFollows(o, read, s) && s.layers != [] && Follows(o, read, p)
    ensures StackFollows(o, read, Bind(s, p))
  {
  }

  lemma WithdrawFollows(o: Owners, read: KeyReader, s: Stack<Target>, p: Policy)
    requires StackFollows(o, read, s) && s.layers != []
    ensures StackFollows(o, read, Withdraw(s, p)) && Withdraw(s, p).layers != []
  {
  }

  lemma DropFollows(o: Owners, read: KeyReader, s: Stack<Target>, i: nat)
    requires StackFollows(o, read, s) && i < |s.layers|
    ensures StackFollows(o, read, Drop(s, i)) && Peaceful(read, Drop(s, i))
  {
    FollowersArePeaceful(o, read, Drop(s, i));
  }

  lemma OrderlyFails(o: Owners, read: KeyReader, s: Spec)
    requires Orderly(o, read, s) && s.control.Running?
    ensures Orderly(o, read, Fail(s)) && Peaceful(read, Fail(s).policies)
  {
    hide StackFollows, Solid, Peaceful;
    DropFollows(o, read, s.policies, |s.policies.layers| - 1);
    SolidFails(s.policies, s.control.policies);
    SolidFails(s.abilities, s.control.abilities);
  }

  lemma OrderlyLoadsPolicy(o: Owners, read: KeyReader, s: Spec, p: Policy)
    requires Orderly(o, read, s) && Enabled(s, PolicyLoads(p)) && Tidy(o, read, s, PolicyLoads(p))
    ensures Smooth(read, s, PolicyLoads(p)) && Orderly(o, read, LoadPolicyInto(read, s, p))
  {
    hide StackFollows, Solid, Peaceful, Withdraw, Bind, Drop, Accepted, OwnOrAbsent;
    var pending := s.control.policies;
    var s1 := s.(policies := Withdraw(s.policies, p), nextId := s.nextId + 1);
    var copy := Definition(s.nextId, pending[0], p.body);
    LoadedLayers(s.policies, p, copy);
    SolidWithdraws(s.policies, pending, p);
    WithdrawFollows(o, read, s.policies, p);
    LoadedLayers(s1.policies, p, copy);
    SolidBinds(s1.policies, pending, copy);
    assert Follows(o, read, copy);
    BindFollows(o, read, s1.policies, copy);
    if !Accepted(read, s1.policies, copy) { OrderlyFails(o, read, s1); }
  }

  lemma OrderlyLoadsAbility(o: Owners, read: KeyReader, s: Spec, d: AbilityDefinition)
    requires Orderly(o, read, s) && Enabled(s, AbilityLoads(d)) && Tidy(o, read, s, AbilityLoads(d))
    ensures Smooth(read, s, AbilityLoads(d)) && Orderly(o, read, LoadAbilityInto(s, d))
  {
    hide StackFollows, Solid, Peaceful, Withdraw, Bind, Drop, OwnOrAbsent, Visible;
    var pending := s.control.abilities;
    var s1 := s.(abilities := Withdraw(s.abilities, d), nextId := s.nextId + 1);
    var copy := Definition(s.nextId, pending[0], d.body);
    LoadedLayers(s.abilities, d, copy);
    SolidWithdraws(s.abilities, pending, d);
    LoadedLayers(s1.abilities, d, copy);
    SolidBinds(s1.abilities, pending, copy);
    if Visible(s1.abilities, copy.name).Some? { OrderlyFails(o, read, s1); }
  }

  lemma OrderlyDefines(o: Owners, read: KeyReader, s: Spec, action: Action)
    requires Orderly(o, read, s) && Enabled(s, Defines(action)) && Tidy(o, read, s, Defines(action))
    ensures Orderly(o, read, DefineInto(read, s, action))
  {
    hide StackFollows, Solid, Peaceful, Bind, Accepted, Visible;
    match action {
      case DefinesPolicy(name, target) =>
        var p := Definition(s.nextId, name, target);
        assert Follows(o, read, p);
        BindFollows(o, read, s.policies, p);
        SolidBinds(s.policies, s.control.policies, p);
        LoadedLayers(s.policies, p, p);
      case DefinesAbility(name, handler) =>
        var d := Definition(s.nextId, name, handler);
        SolidBinds(s.abilities, s.control.abilities, d);
        LoadedLayers(s.abilities, d, d);
    }
  }

  lemma OtherBaseIsSolid<T>(s: Stack<T>, base: map<string, Definition<T>>, pending: seq<string>)
    requires Solid(s, pending)
    ensures Solid(s.(base := base), pending)
  {
    forall k | 0 <= k < |s.layers| ensures SolidLayer(s.(base := base).layers[k], if k == |s.layers| - 1 then pending else []) {
      assert SolidLayer(s.layers[k], if k == |s.layers| - 1 then pending else []);
    }
  }

  lemma OtherBaseFollows(o: Owners, read: KeyReader, s: Stack<Target>, name: string, target: Target, id: nat)
    requires StackFollows(o, read, s)
    ensures Follows(o, read, Definition(0, name, target)) ==>
              StackFollows(o, read, s.(base := s.base[name := Definition(id, name, target)]))
    ensures StackFollows(o, read, s.(base := s.base - {name}))
  {
  }

  lemma OrderlyOutside(o: Owners, read: KeyReader, s: Spec, e: Event)
    requires Orderly(o, read, s) && Enabled(s, e) && Tidy(o, read, s, e) && (e.DefinesOutside? || e.TakesOutPolicy? || e.TakesOutAbility?)
    ensures Orderly(o, read, SpecStep(read, s, e))
  {
    hide StackFollows, Solid, Peaceful, Accepted, Visible, Aside, Follows;
    match e {
      case DefinesOutside(DefinesPolicy(name, target), _) =>
        OtherBaseFollows(o, read, s.policies, name, target, s.nextId);
        OtherBaseIsSolid(s.policies, s.policies.base[name := Definition(s.nextId, name, target)], PendingPolicies(s.control));
      case DefinesOutside(DefinesAbility(name, handler), _) =>
        OtherBaseIsSolid(s.abilities, s.abilities.base[name := Definition(s.nextId, name, handler)], PendingAbilities(s.control));
      case TakesOutPolicy(name) =>
        OtherBaseFollows(o, read, s.policies, name, ClassTarget(0), 0);
        OtherBaseIsSolid(s.policies, s.policies.base - {name}, PendingPolicies(s.control));
      case TakesOutAbility(name) =>
        OtherBaseIsSolid(s.abilities, s.abilities.base - {name}, PendingAbilities(s.control));
    }
  }

  /** A tidy event is smooth, and keeps the layers solid and the policies about their own targets. */
  lemma OrderlyStep(o: Owners, read: KeyReader, s: Spec, e: Event)
    requires Orderly(o, read, s) && Tidy(o, read, s, e)
    ensures Smooth(read, s, e) && Orderly(o, read, SpecStep(read, s, e))
  {
    hide StackFollows, Solid, Peaceful, LoadPolicyInto, LoadAbilityInto, DefineInto, Drop, Droppable, Accepted, Visible, Withdraw, OwnOrAbsent, DefineOutside, Without;
    if Enabled(s, e) {
      match e {
        case DefinesOutside(_, _) => OrderlyOutside(o, read, s, e);
        case TakesOutPolicy(_) => OrderlyOutside(o, read, s, e);
        case TakesOutAbility(_) => OrderlyOutside(o, read, s, e);
        case Installs(ps, abs) =>
          SolidPushes(s.policies, ps);
          SolidPushes(s.abilities, abs);
          PushFollows(o, read, s.policies, NamesOf(ps));
        case Defines(action) => OrderlyDefines(o, read, s, action);
        case PolicyLoads(p) => OrderlyLoadsPolicy(o, read, s, p);
        case AbilityLoads(d) => OrderlyLoadsAbility(o, read, s, d);
        case LoadThrows => OrderlyFails(o, read, s);
        case Disposes(i) =>
          SolidDrops(s.policies, PendingPolicies(s.control), i);
          SolidDrops(s.abilities, PendingAbilities(s.control), i);
          DropFollows(o, read, s.policies, i);
      }
    }
  }

  lemma PushFollows(o: Owners, read: KeyReader, s: Stack<Target>, names: set<string>)
    requires StackFollows(o, read, s)
    ensures StackFollows(o, read, Push(s, names))
  {
  }

  /** Runs of such installations are smooth from beginning to end, so the registry shows the specified stack. */
  lemma {:induction false} OrderlyRunIsSmooth(o: Owners, read: KeyReader, s: Spec, events: seq<Event>)
    requires Orderly(o, read, s) && TidyRun(o, read, s, events)
    ensures SmoothRun(read, s, events) && Orderly(o, read, SpecRun(read, s, events))
    decreases |events|
  {
    assert Layered(s);
    hide Orderly, Tidy, Smooth, SpecStep, TidyRun, SmoothRun;
    if events == [] {
      NothingIsSmooth(read, s);
    } else {
      TidyBefore(o, read, s, events);
      var before, last := events[..|events| - 1], events[|events| - 1];
      OrderlyRunIsSmooth(o, read, s, before);
      OrderlyStep(o, read, SpecRun(read, s, before), last);
      SmoothOneMore(read, s, events);
    }
  }

  lemma NothingIsSmooth(read: KeyReader, s: Spec)
    requires Layered(s)
    ensures SmoothRun(read, s, [])
  {
  }

  lemma TidyBefore(o: Owners, read: KeyReader, s: Spec, events: seq<Event>)
    requires Layered(s) && TidyRun(o, read, s, events) && events != []
    ensures TidyRun(o, read, s, events[..|events| - 1])
    ensures Tidy(o, read, SpecRun(read, s, events[..|events| - 1]), events[|events| - 1])
  {
    hide Tidy, SpecRun, Layered;
    var before := events[..|events| - 1];
    forall k | 0 <= k < |before| ensures Tidy(o, read, SpecRun(read, s, before[..k]), before[k]) {
      assert before[..k] == events[..k] && before[k] == events[k];
    }
  }

  lemma SmoothOneMore(read: KeyReader, s: Spec, events: seq<Event>)
    requires Layered(s) && events != [] && SmoothRun(read, s, events[..|events| - 1])
    requires Smooth(read, SpecRun(read, s, events[..|events| - 1]), events[|events| - 1])
    ensures SmoothRun(read, s, events)
  {
    hide Smooth, SpecRun, Layered;
    forall k | 0 <= k < |events| ensures Smooth(read, SpecRun(read, s, events[..k]), events[k]) {
      hide SmoothRun;
      if k < |events| - 1 { SmoothBefore(read, s, events, k); }
    }
  }

  lemma SmoothBefore(read: KeyReader, s: Spec, events: seq<Event>, k: nat)
    requires Layered(s) && k < |events| - 1 && SmoothRun(read, s, events[..|events| - 1])
    ensures Smooth(read, SpecRun(read, s, events[..k]), events[k])
  {
    hide Smooth, SpecRun, Layered;
    var before := events[..|events| - 1];
    assert before[..k] == events[..k] && before[k] == events[k];
  }

  /** A load that returns a definition under its source's name, registered by anyone or nobody, is tidy. */
  lemma OwnNamesAreTidy<T(!new)>(s: Stack<T>, pending: seq<string>, returned: Definition<T>)
    requires Solid(s, pending) && pending != [] && returned.name == pending[0] && !Top(s).disposed
    ensures OwnOrAbsent(s, pending, returned)
  {
    assert returned.name in Top(s).sources;
  }

  // ---------------------------------------------------------------- loads that carry their source's name

  /** What an event has to be, given the source that is asked: nothing here looks at the registry. */
  ghost predicate OwnNamed(o: Owners, read: KeyReader, control: Control, e: Event) {
    match e
    case Defines(DefinesPolicy(name, target)) => Follows(o, read, Definition(0, name, target))
    case PolicyLoads(p) =>
      control.Running? && control.policies != [] ==> p.name == control.policies[0] && Follows(o, read, Definition(0, p.name, p.body))
    case AbilityLoads(d) =>
      control.Running? && control.policies == [] && control.abilities != [] ==> d.name == control.abilities[0]
    case DefinesOutside(_, _) => false
    case TakesOutPolicy(_) => false
    case TakesOutAbility(_) => false
    case _ => true
  }

  ghost predicate OwnNamedRun(o: Owners, read: KeyReader, s: Spec, events: seq<Event>)
    requires Layered(s)
  {
    forall k {:trigger events[k]} :: 0 <= k < |events| ==> OwnNamed(o, read, SpecRun(read, s, events[..k]).control, events[k])
  }

  /** The running installation is not disposed. */
  predicate TopOpen(s: Spec)
    requires Layered(s)
  {
    s.control.Running? ==> !Top(s.policies).disposed && !Top(s.abilities).disposed
  }

  lemma TopStaysOpen(read: KeyReader, s: Spec, e: Event)
    requires Layered(s) && TopOpen(s)
    ensures TopOpen(SpecStep(read, s, e))
  {
    hide Accepted, Visible;
    if Enabled(s, e) && e.PolicyLoads? {
      LoadedLayers(s.policies, e.policy, Definition(s.nextId, s.control.policies[0], e.policy.body));
    }
  }

  lemma OwnNamedIsTidy(o: Owners, read: KeyReader, s: Spec, e: Event)
    requires Orderly(o, read, s) && TopOpen(s) && OwnNamed(o, read, s.control, e)
    ensures Tidy(o, read, s, e)
  {
    hide Solid, StackFollows, Visible, OwnOrAbsent;
    if Enabled(s, e) {
      match e {
        case PolicyLoads(p) => OwnNamesAreTidy(s.policies, s.control.policies, p);
        case AbilityLoads(d) => OwnNamesAreTidy(s.abilities, s.control.abilities, d);
        case _ =>
      }
    }
  }

  /**
   * When every load returns a definition under its source's name, registered by anyone or nobody, and each
   * target and key belongs to one name, every run of installations and disposals is smooth.
   */
  lemma {:induction false} OwnNamedRunIsSmooth(o: Owners, read: KeyReader, s: Spec, events: seq<Event>)
    requires Orderly(o, read, s) && TopOpen(s) && OwnNamedRun(o, read, s, events)
    ensures SmoothRun(read, s, events)
    ensures Orderly(o, read, SpecRun(read, s, events)) && TopOpen(SpecRun(read, s, events))
    decreases |events|
  {
    assert Layered(s);
    hide Orderly, OwnNamed, Smooth, SpecStep, OwnNamedRun, SmoothRun, TopOpen, Tidy;
    if events == [] {
      NothingIsSmooth(read, s);
    } else {
      OwnNamedBefore(o, read, s, events);
      var before, last := events[..|events| - 1], events[|events| - 1];
      OwnNamedRunIsSmooth(o, read, s, before);
      OwnNamedIsTidy(o, read, SpecRun(read, s, before), last);
      OrderlyStep(o, read, SpecRun(read, s, before), last);
      TopStaysOpen(read, SpecRun(read, s, before), last);
      SmoothOneMore(read, s, events);
    }
  }

  lemma OwnNamedBefore(o: Owners, read: KeyReader, s: Spec, events: seq<Event>)
    requires Layered(s) && OwnNamedRun(o, read, s, events) && events != []
    ensures OwnNamedRun(o, read, s, events[..|events| - 1])
    ensures OwnNamed(o, read, SpecRun(read, s, events[..|events| - 1]).control, events[|events| - 1])
  {
    hide OwnNamed, SpecRun, Layered;
    var before := events[..|events| - 1];
    forall k | 0 <= k < |before| ensures OwnNamed(o, read, SpecRun(read, s, before[..k]).control, before[k]) {
      assert before[..k] == events[..k] && before[k] == events[k];
    }
  }

  // ---------------------------------------------------------------- what is taken from elsewhere

  lemma RunOneMore(read: KeyReader, s: Spec, events: seq<Event>, e: Event)
    requires Layered(s)
    ensures SpecRun(read, s, events + [e]) == SpecStep(read, SpecRun(read, s, events), e)
  {
    assert (events + [e])[..|events|] == events;
  }

  /** The registry before any installation, of abilities only. */
  function Untouched(base: map<string, AbilityDefinition>, nextId: nat): Spec {
    Spec(Stack(map[], []), Stack(base, []), Idle, nextId)
  }

  /** What is visible to an installation that is alone on the base. */
  lemma LookupAlone<T>(base: map<string, Definition<T>>, layer: Layer<T>, n: string)
    requires !layer.disposed
    ensures Visible(Stack(base, [layer]), n) == if Mentions(layer, n) then Get(layer.bound, n) else Get(base, n)
  {
    var s := Stack(base, [layer]);
    assert Lookup(s, 0, n) == Get(base, n);
  }

  /** A lone installation loads an ability, and the load answers with a definition named like one of its sources. */
  lemma LoadsAlone(read: KeyReader, s: Spec, base: map<string, AbilityDefinition>, layer: Layer<Handler>,
                   pending: seq<string>, d: AbilityDefinition)
    requires Layered(s) && s.abilities == Stack(base, [layer]) && !layer.disposed
    requires s.control == Running([], pending) && pending != [] && pending[0] in layer.sources && d.name in layer.sources
    requires pending[0] !in layer.bound
    ensures var left := if Get(layer.bound, d.name) == Some(d) then layer.bound - {d.name} else layer.bound;
            var copy := Definition(s.nextId, pending[0], d.body);
            SpecStep(read, s, AbilityLoads(d))
            == s.(abilities := Stack(base, [layer.(bound := left[pending[0] := copy])]), nextId := s.nextId + 1,
                  control := Advance(Running([], pending[1..])))
  {
    hide Visible;
    LookupAlone(base, layer, d.name);
    var left := if Get(layer.bound, d.name) == Some(d) then layer.bound - {d.name} else layer.bound;
    var withdrawn := Withdraw(s.abilities, d);
    assert withdrawn == Stack(base, [layer.(bound := left)]);
    LookupAlone(base, layer.(bound := left), pending[0]);
    assert Bind(withdrawn, Definition(s.nextId, pending[0], d.body)).layers
        == [layer.(bound := left[pending[0] := Definition(s.nextId, pending[0], d.body)])];
  }

  /**
   * Two sources of one installation, the second of which returns the definition just registered for the
   * first: the first name is then nobody's, and a disposal gives nothing back under it. That is right if and
   * only if nothing was registered under that name before.
   */
  lemma SourceTakenByAnother(read: KeyReader, base: map<string, AbilityDefinition>, nextId: nat,
                             first: string, second: string, d: AbilityDefinition)
    requires first != second && d.name == first
    ensures var events := [Installs([], [first, second]), AbilityLoads(d), AbilityLoads(Definition(nextId, first, d.body))];
            Smooth(read, SpecRun(read, Untouched(base, nextId), events), Disposes(0)) <==> first !in base
  {
    hide Visible, SpecStep, LoadAbilityInto;
    var s0 := Untouched(base, nextId);
    var own := Definition(nextId, first, d.body);
    var e1, e2, e3 := Installs([], [first, second]), AbilityLoads(d), AbilityLoads(own);
    RunOneMore(read, s0, [], e1);
    RunOneMore(read, s0, [e1], e2);
    RunOneMore(read, s0, [e1, e2], e3);
    assert [e1] + [e2] == [e1, e2] && [e1, e2] + [e3] == [e1, e2, e3] && [] + [e1] == [e1];
    InstallsAlone(read, base, nextId, [first, second]);
    var layer := Layer(false, NamesOf([first, second]), {}, map[]);
    LoadsAlone(read, SpecRun(read, s0, [e1]), base, layer, [first, second], d);
    LoadsAlone(read, SpecRun(read, s0, [e1, e2]), base, layer.(bound := map[first := own]), [second], own);
    var s3 := SpecRun(read, s0, [e1, e2, e3]);
    var end := layer.(bound := map[second := Definition(nextId + 1, second, d.body)]);
    assert map[first := own] - {first} == map[];
    assert s3.abilities == Stack(base, [end]) && s3.control == Idle;
    AloneDrops(read, s3, base, end);
    assert first in end.sources && first !in end.bound;
  }

  lemma InstallsAlone(read: KeyReader, base: map<string, AbilityDefinition>, nextId: nat, names: seq<string>)
    requires names != []
    ensures SpecStep(read, Untouched(base, nextId), Installs([], names))
         == Spec(Stack(map[], [Layer(false, {}, {}, map[])]), Stack(base, [Layer(false, NamesOf(names), {}, map[])]),
                 Running([], names), nextId)
  {
    assert NamesOf([]) == {};
  }

  /** A lone installation that borrowed nothing may be dropped when it bound every source the base has. */
  lemma AloneDrops(read: KeyReader, s: Spec, base: map<string, AbilityDefinition>, layer: Layer<Handler>)
    requires s.policies == Stack(map[], [Layer(false, {}, {}, map[])]) && s.control == Idle
    requires s.abilities == Stack(base, [layer]) && !layer.disposed && layer.borrowed == {}
    ensures Smooth(read, s, Disposes(0)) <==> forall n :: n in layer.sources && n in base ==> n in layer.bound
  {
    var dropped := Drop(s.policies, 0);
    forall n ensures Visible(dropped, n) == None { assert Lookup(dropped, 0, n) == None; }
    forall n ensures Mentions(layer, n) && !DroppableAt(s.abilities, 0, n) <==> n in layer.sources && n in base && n !in layer.bound {
      assert Lookup(s.abilities, 0, n) == Get(base, n);
    }
    if exists n :: n in layer.sources && n in base && n !in layer.bound {
      var n :| n in layer.sources && n in base && n !in layer.bound;
      assert Mentions(layer, n) && !DroppableAt(s.abilities, 0, n);
    }
  }

  /** An installation of "first" answered with the base's `alias`, and then one of `alias` itself. */
  function AfterAlias(base: map<string, AbilityDefinition>, alias: string, first: AbilityDefinition, second: AbilityDefinition): Ledger<Handler>
    requires alias in base && base[alias].name == alias && first.name !in base && second.name == alias
  {
    var taken := Withdrawn(Begin(Ledger(base, map[], [], []), {first.name}), base[alias], Some(0));
    Register(Begin(Register(taken, first, Some(0)), {alias}), second, Some(1))
  }

  lemma AfterAliasIs(base: map<string, AbilityDefinition>, alias: string, first: AbilityDefinition, second: AbilityDefinition)
    requires alias in base && base[alias].name == alias && first.name !in base && second.name == alias
    ensures var l := AfterAlias(base, alias, first, second);
            && l.sides == [Side({first.name}, map[first.name := first], map[alias := base[alias]]),
                           Side({alias}, map[alias := second], map[])]
            && l.disposed == [false, false]
            && l.lifetimes == map[first.id := Lifetime(0, None)][second.id := Lifetime(1, None)]
            && l.byName == base[first.name := first][alias := second]
  {
    var begun := Begin(Ledger(base, map[], [], []), {first.name});
    assert begun.byName == base && begun.sides == [Side({first.name}, map[], map[])];
    var taken := Withdrawn(begun, base[alias], Some(0));
    assert taken.sides == [Side({first.name}, map[], map[alias := base[alias]])];
    var installed := Register(taken, first, Some(0));
    assert Begin(installed, {alias}).sides[1] == Side({alias}, map[], map[]);
  }

  /**
   * What an installation took from below it and another one covers cannot be given back. A source is answered
   * with the definition the base holds under another name; a later installation has a source of that other
   * name. The first installation may then not be dropped, and after both are disposed, in this order, the
   * base definition is missing although the stack shows it.
   */
  lemma AliasIsLost(base: map<string, AbilityDefinition>, alias: string, first: AbilityDefinition, second: AbilityDefinition)
    requires alias in base && base[alias].name == alias && first.name !in base && second.name == alias
    requires base[alias].id < first.id < second.id
    ensures var l := AfterAlias(base, alias, first, second);
            && WellShaped(l) && !Droppable(StackOf(l, base), 0)
            && var l' := Dispose(Dispose(l, 0, false), 1, false);
               alias !in l'.byName && Visible(StackOf(l', base), alias) == Some(base[alias])
  {
    hide AfterAlias;
    var l := AfterAlias(base, alias, first, second);
    AfterAliasIs(base, alias, first, second);
    var s := StackOf(l, base);
    assert alias in s.layers[0].borrowed && Mentions(s.layers[1], alias) && Lookup(s, 0, alias) == Some(base[alias]);
    assert CoveredAbove(s, 0, alias) && !DroppableAt(s, 0, alias);
    var once := Dispose(l, 0, false);
    assert Get(once.byName, alias) == Some(second);
    var s' := StackOf(Dispose(once, 1, false), base);
    assert s'.layers[0].disposed && s'.layers[1].disposed && Lookup(s', 1, alias) == Lookup(s', 0, alias) == Some(base[alias]);
  }
}
