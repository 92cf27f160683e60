/**
 * One kind of authorization definition (policies or abilities): the by-name index, the
 * lifetimes of installed definitions and, for each installation, what it owns and what it displaced.
 *
 * The operations are those of packages/authorization/src/runtime.ts and internal/installation.ts.
 * The specification is a stack of layers; the lemmas show that the index always agrees with it.
 */
module AuthorizationLedger {
  import opened Prelude

  /** A registered (frozen) definition. Objects are compared by identity, so `id` is part of the value. */
  datatype Definition<T> = Definition(id: nat, name: string, body: T)

  /** `DefinitionLifetime`: the installation that registered the definition and what it replaced. */
  datatype Lifetime<T> = Lifetime(installation: nat, previous: Option<Definition<T>>)

  /** One installation, seen from one kind: the source names, and the two maps of its context. */
  datatype Side<T> = Side(names: set<string>,
                          owned: map<string, Definition<T>>,
                          displaced: map<string, Definition<T>>)

  datatype Ledger<T> = Ledger(byName: map<string, Definition<T>>,
                              lifetimes: map<nat, Lifetime<T>>,
                              sides: seq<Side<T>>,
                              disposed: seq<bool>)

  // ---------------------------------------------------------------- operations

  ghost predicate WellShaped<T(!new)>(l: Ledger<T>) {
    && |l.disposed| == |l.sides|
    && Descending(l.lifetimes)
  }

  /** Every replaced definition is older than the definition that replaced it. */
  ghost predicate Descending<T(!new)>(lifetimes: map<nat, Lifetime<T>>) {
    forall id :: id in lifetimes && lifetimes[id].previous.Some? ==> lifetimes[id].previous.value.id < id
  }

  /** The active installation context, when there is one, is an installation of the ledger. */
  predicate InContext<T>(l: Ledger<T>, context: Option<nat>) {
    context.Some? ==> context.value < |l.sides|
  }

  /** What an active context records when a definition of its registry is taken out. */
  function Release<T(==)>(side: Side<T>, d: Definition<T>): Side<T> {
    if d.name in side.owned && side.owned[d.name] == d then side.(owned := side.owned - {d.name})
    else if d.name !in side.displaced then side.(displaced := side.displaced[d.name := d])
    else side
  }

  function Unregister<T(==)>(l: Ledger<T>, name: string, context: Option<nat>): Ledger<T>
    requires InContext(l, context)
  {
    if name !in l.byName then l
    else if context.None? then l.(byName := l.byName - {name})
    else l.(byName := l.byName - {name},
            sides := l.sides[context.value := Release(l.sides[context.value], l.byName[name])])
  }

  function Register<T>(l: Ledger<T>, d: Definition<T>, context: Option<nat>): Ledger<T>
    requires InContext(l, context)
    requires d.name !in l.byName
  {
    if context.None? then l.(byName := l.byName[d.name := d])
    else
      var i := context.value;
      l.(byName := l.byName[d.name := d],
         sides := l.sides[i := l.sides[i].(owned := l.sides[i].owned[d.name := d])],
         lifetimes := l.lifetimes[d.id := Lifetime(i, Get(l.sides[i].displaced, d.name))])
  }

  /** The synchronous start of an installation: a new context, then every source name is taken out. */
  function Begin<T>(l: Ledger<T>, names: set<string>): Ledger<T> {
    l.(byName := l.byName - names,
       sides := l.sides + [Side(names, map[], map n | n in names && n in l.byName :: l.byName[n])],
       disposed := l.disposed + [false])
  }

  /** `resolveLiveDefinition`: follow replaced definitions until one whose installation is not disposed. */
  function Resolve<T(!new)>(l: Ledger<T>, d: Definition<T>): Option<Definition<T>>
    requires Descending(l.lifetimes)
    decreases d.id
  {
    if d.id !in l.lifetimes then Some(d)
    else
      var lifetime := l.lifetimes[d.id];
      if !(lifetime.installation < |l.disposed| && l.disposed[lifetime.installation]) then Some(d)
      else if lifetime.previous.None? then None
      else Resolve(l, lifetime.previous.value)
  }

  /** The names whose current binding the installation owns. */
  function Released<T(==)>(l: Ledger<T>, i: nat): set<string>
    requires i < |l.sides|
  {
    set n | n in l.sides[i].owned && n in l.byName && l.byName[n] == l.sides[i].owned[n]
  }

  /** The displaced names that a restore brings back, before their live definition is looked up. */
  function Returning<T(==)>(l: Ledger<T>, i: nat, rollback: bool): set<string>
    requires i < |l.sides|
  {
    set n | n in l.sides[i].displaced &&
            (n in Released(l, i) || ((rollback || n !in l.sides[i].names) && n !in l.byName))
  }

  /** The definitions that a restore registers again, by the name they were displaced under. */
  function Restoring<T(==, !new)>(l: Ledger<T>, i: nat, rollback: bool): map<string, Definition<T>>
    requires i < |l.sides| && Descending(l.lifetimes)
  {
    map n | n in Returning(l, i, rollback) && Resolve(l, l.sides[i].displaced[n]).Some?
      :: Resolve(l, l.sides[i].displaced[n]).value
  }

  /** `restore` without an active context, when no registration is refused. */
  function Restore<T(==, !new)>(l: Ledger<T>, i: nat, rollback: bool): Ledger<T>
    requires i < |l.sides| && Descending(l.lifetimes)
  {
    l.(byName := (l.byName - Released(l, i)) + Restoring(l, i, rollback))
  }

  function MarkDisposed<T>(l: Ledger<T>, i: nat): Ledger<T>
    requires i < |l.disposed|
  {
    l.(disposed := l.disposed[i := true])
  }

  /** `dispose()` of an installation, or the rollback of the one that is running. */
  function Dispose<T(==, !new)>(l: Ledger<T>, i: nat, rollback: bool): Ledger<T>
    requires WellShaped(l) && i < |l.sides|
  {
    Restore(MarkDisposed(l, i), i, rollback)
  }

  // ---------------------------------------------------------------- specification: a stack of layers

  /**
   * A layer hides its sources until they are loaded, and what it borrowed from below (a load returned a
   * definition visible under another name) for good; it shows what it bound.
   */
  datatype Layer<T> = Layer(disposed: bool, sources: set<string>, borrowed: set<string>, bound: map<string, Definition<T>>)

  datatype Stack<T> = Stack(base: map<string, Definition<T>>, layers: seq<Layer<T>>)

  predicate Mentions<T>(layer: Layer<T>, n: string) {
    n in layer.sources || n in layer.borrowed || n in layer.bound
  }

  /** What the topmost undisposed layer below `i` says about a name, or else the base. */
  function Lookup<T>(s: Stack<T>, i: nat, n: string): Option<Definition<T>>
    requires i <= |s.layers|
    decreases i
  {
    if i == 0 then Get(s.base, n)
    else if !s.layers[i - 1].disposed && Mentions(s.layers[i - 1], n) then Get(s.layers[i - 1].bound, n)
    else Lookup(s, i - 1, n)
  }

  function Visible<T>(s: Stack<T>, n: string): Option<Definition<T>> {
    Lookup(s, |s.layers|, n)
  }

  function Push<T>(s: Stack<T>, names: set<string>): Stack<T> {
    s.(layers := s.layers + [Layer(false, names, {}, map[])])
  }

  function Bind<T>(s: Stack<T>, d: Definition<T>): Stack<T>
    requires s.layers != []
  {
    var top := |s.layers| - 1;
    s.(layers := s.layers[top := s.layers[top].(bound := s.layers[top].bound[d.name := d])])
  }

  /** The top layer no longer shows a name: it unbinds its own definition, or borrows the one below. */
  function TakeOut<T>(s: Stack<T>, n: string): Stack<T>
    requires s.layers != []
  {
    var top := |s.layers| - 1;
    var layer := s.layers[top];
    s.(layers := s.layers[top := if n in layer.bound then layer.(bound := layer.bound - {n})
                                 else layer.(borrowed := layer.borrowed + {n})])
  }

  function Drop<T>(s: Stack<T>, i: nat): Stack<T>
    requires i < |s.layers|
  {
    s.(layers := s.layers[i := s.layers[i].(disposed := true)])
  }

  // ---------------------------------------------------------------- when a layer can be dropped

  /** An undisposed layer above `i` says something about the name. */
  ghost predicate CoveredAbove<T>(s: Stack<T>, i: nat, n: string)
    requires i < |s.layers|
  {
    exists j :: i < j < |s.layers| && !s.layers[j].disposed && Mentions(s.layers[j], n)
  }

  /**
   * Dropping the layer is right at one name: nothing is below, or the layer is on top there and bound or
   * borrowed the name, or it is covered and bound the name, and what it borrowed is not hidden by the cover.
   */
  ghost predicate DroppableAt<T>(s: Stack<T>, i: nat, n: string)
    requires i < |s.layers|
  {
    var layer := s.layers[i];
    || Lookup(s, i, n).None?
    || (!CoveredAbove(s, i, n) && (n in layer.bound || n in layer.borrowed))
    || (CoveredAbove(s, i, n) && n in layer.bound && (n in layer.borrowed ==> Visible(s, n).Some?))
  }

  /** A disposed layer may be disposed again as long as everything it borrowed is visible. */
  ghost predicate Droppable<T>(s: Stack<T>, i: nat)
    requires i < |s.layers|
  {
    if s.layers[i].disposed then forall n :: n in s.layers[i].borrowed ==> Visible(s, n).Some?
    else forall n {:trigger DroppableAt(s, i, n)} :: Mentions(s.layers[i], n) ==> DroppableAt(s, i, n)
  }

  // ---------------------------------------------------------------- abstraction and invariant

  function Entries<T>(side: Side<T>): set<string> {
    side.names + side.owned.Keys + side.displaced.Keys
  }

  function LayerOf<T>(side: Side<T>, disposed: bool): Layer<T> {
    Layer(disposed, side.names, side.displaced.Keys - side.names, side.owned)
  }

  function StackOf<T>(l: Ledger<T>, base: map<string, Definition<T>>): Stack<T>
    requires |l.disposed| == |l.sides|
  {
    Stack(base, seq(|l.sides|, i requires 0 <= i < |l.sides| => LayerOf(l.sides[i], l.disposed[i])))
  }

  /**
   * `found` is what the i-th installation displaced (or did not) under name `n`: going down from i, the
   * definition the first undisposed layer that mentions the name binds, or that of a disposed one met on the
   * way; and what such a layer displaced in its turn is found below it.
   */
  ghost predicate Below<T(!new)>(l: Ledger<T>, base: map<string, Definition<T>>, i: nat, n: string, found: Option<Definition<T>>)
    requires |l.disposed| == |l.sides| && i <= |l.sides|
    decreases i
  {
    if i == 0 then found == Get(base, n)
    else
      var side := l.sides[i - 1];
      if n !in Entries(side) then Below(l, base, i - 1, n, found)
      else
        || (n in side.owned && found == Some(side.owned[n]) && Below(l, base, i - 1, n, Get(side.displaced, n)))
        || (n !in side.owned && !l.disposed[i - 1] && found == None)
        || (l.disposed[i - 1] && Below(l, base, i - 1, n, found))
  }

  /** An owned definition keeps its name and remembers what it displaced. */
  ghost predicate OwnedWell<T(!new)>(l: Ledger<T>, i: nat, n: string)
    requires i < |l.sides|
  {
    n in l.sides[i].owned ==>
      var d := l.sides[i].owned[n];
      && d.name == n
      && d.id in l.lifetimes
      && l.lifetimes[d.id] == Lifetime(i, Get(l.sides[i].displaced, n))
  }

  /** What an undisposed layer displaced lies below it. */
  ghost predicate DisplacedWell<T(!new)>(l: Ledger<T>, base: map<string, Definition<T>>, i: nat, n: string)
    requires |l.disposed| == |l.sides| && i < |l.sides|
  {
    !l.disposed[i] && n in Entries(l.sides[i]) ==> Below(l, base, i, n, Get(l.sides[i].displaced, n))
  }

  /** What holds of owned and displaced definitions, whatever the by-name index says at the moment. */
  ghost predicate Core<T(!new)>(l: Ledger<T>, base: map<string, Definition<T>>, nextId: nat) {
    && WellShaped(l)
    && (forall n :: n in base ==> base[n].name == n && base[n].id < nextId && base[n].id !in l.lifetimes)
    && (forall id :: id in l.lifetimes ==> id < nextId)
    && (forall i, n {:trigger OwnedWell(l, i, n)} :: 0 <= i < |l.sides| ==> OwnedWell(l, i, n))
    && (forall i, n {:trigger DisplacedWell(l, base, i, n)} :: 0 <= i < |l.sides| ==> DisplacedWell(l, base, i, n))
  }

  /** The index binds each name to what the stack of layers shows. */
  ghost predicate Refines<T(!new)>(l: Ledger<T>, base: map<string, Definition<T>>)
    requires WellShaped(l)
  {
    forall n :: Get(l.byName, n) == Visible(StackOf(l, base), n)
  }

  /** The layer of a running installation is the last one, and undisposed. */
  ghost predicate OnTop<T>(l: Ledger<T>) {
    |l.disposed| == |l.sides| > 0 && !l.disposed[|l.sides| - 1]
  }

  /** The representation invariant of one kind over any run of non-overlapping installations. */
  ghost predicate Inv<T(!new)>(l: Ledger<T>, base: map<string, Definition<T>>, running: bool, nextId: nat) {
    Core(l, base, nextId) && (running ==> OnTop(l)) && Refines(l, base)
  }
}
