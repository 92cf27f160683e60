/**
 * The by-name index follows the stack of layers: what an installation start, a registration, the
 * withdrawal of a loaded definition and a disposal (in any order) do to the stack.
 */
module AuthorizationRefinement {
  import opened Prelude
  import opened AuthorizationLedger

  // ---------------------------------------------------------------- frames

  /** The first `i` installations look the same at name `n`. */
  ghost predicate SameUpTo<T(!new)>(l: Ledger<T>, l': Ledger<T>, i: nat, n: string) {
    && |l.disposed| == |l.sides| && |l'.disposed| == |l'.sides|
    && i <= |l.sides| && i <= |l'.sides|
    && forall j :: 0 <= j < i ==> SameAt(l.sides[j], l'.sides[j], n) && l.disposed[j] == l'.disposed[j]
  }

  ghost predicate SameAt<T>(side: Side<T>, side': Side<T>, n: string) {
    && (n in Entries(side) <==> n in Entries(side'))
    && Get(side.owned, n) == Get(side'.owned, n)
    && Get(side.displaced, n) == Get(side'.displaced, n)
  }

  lemma LayerMentions<T>(l: Ledger<T>, base: map<string, Definition<T>>, i: nat, n: string)
    requires |l.disposed| == |l.sides| && i < |l.sides|
    ensures StackOf(l, base).layers[i] == LayerOf(l.sides[i], l.disposed[i])
    ensures Mentions(StackOf(l, base).layers[i], n) <==> n in Entries(l.sides[i])
  {
  }

  lemma {:induction false} FrameLookup<T(!new)>(l: Ledger<T>, l': Ledger<T>, base: map<string, Definition<T>>, i: nat, n: string)
    requires SameUpTo(l, l', i, n)
    ensures Lookup(StackOf(l, base), i, n) == Lookup(StackOf(l', base), i, n)
    decreases i
  {
    hide Lookup, StackOf, Entries;
    LookupDown(l, base, i, n);
    LookupDown(l', base, i, n);
    if i > 0 {
      FrameLookup(l, l', base, i - 1, n);
      assert SameAt(l.sides[i - 1], l'.sides[i - 1], n);
    }
  }

  /** One layer of a lookup, in terms of the ledger. */
  lemma LookupDown<T(!new)>(l: Ledger<T>, base: map<string, Definition<T>>, i: nat, n: string)
    requires |l.disposed| == |l.sides| && i <= |l.sides|
    ensures i <= |StackOf(l, base).layers| == |l.sides|
    ensures Lookup(StackOf(l, base), i, n)
         == if i == 0 then Get(base, n)
            else if !l.disposed[i - 1] && n in Entries(l.sides[i - 1]) then Get(l.sides[i - 1].owned, n)
            else Lookup(StackOf(l, base), i - 1, n)
  {
    if i > 0 { LayerMentions(l, base, i - 1, n); }
  }

  lemma {:induction false} FrameBelow<T(!new)>(l: Ledger<T>, l': Ledger<T>, base: map<string, Definition<T>>, i: nat, n: string, found: Option<Definition<T>>)
    requires SameUpTo(l, l', i, n)
    requires Below(l, base, i, n, found)
    ensures Below(l', base, i, n, found)
    decreases i
  {
    if i > 0 {
      var side := l.sides[i - 1];
      assert SameAt(side, l'.sides[i - 1], n);
      assert SameUpTo(l, l', i - 1, n);
      assert Get(side.owned, n) == Get(l'.sides[i - 1].owned, n) && Get(side.displaced, n) == Get(l'.sides[i - 1].displaced, n);
      if n !in Entries(side) || (l.disposed[i - 1] && Below(l, base, i - 1, n, found)) {
        FrameBelow(l, l', base, i - 1, n, found);
      } else if n in side.owned {
        FrameBelow(l, l', base, i - 1, n, Get(side.displaced, n));
      }
    }
  }

  // ---------------------------------------------------------------- resolving displaced definitions

  function ResolveOption<T(!new)>(l: Ledger<T>, d: Option<Definition<T>>): Option<Definition<T>>
    requires Descending(l.lifetimes)
  {
    if d.None? then None else Resolve(l, d.value)
  }

  /** Following replaced definitions from what was displaced at layer `i` gives the stack's answer there. */
  lemma {:induction false} ResolveIsLookup<T(!new)>(l: Ledger<T>, base: map<string, Definition<T>>, nextId: nat,
                                                    i: nat, n: string, found: Option<Definition<T>>)
    requires Core(l, base, nextId) && i <= |l.sides|
    requires Below(l, base, i, n, found)
    ensures ResolveOption(l, found) == Lookup(StackOf(l, base), i, n)
    decreases i
  {
    if i > 0 {
      var side := l.sides[i - 1];
      LayerMentions(l, base, i - 1, n);
      if n !in Entries(side) {
        ResolveIsLookup(l, base, nextId, i - 1, n, found);
      } else if n in side.owned && found == Some(side.owned[n]) && Below(l, base, i - 1, n, Get(side.displaced, n)) {
        assert OwnedWell(l, i - 1, n);
        if l.disposed[i - 1] {
          ResolveIsLookup(l, base, nextId, i - 1, n, Get(side.displaced, n));
        }
      } else if l.disposed[i - 1] {
        ResolveIsLookup(l, base, nextId, i - 1, n, found);
      }
    }
  }

  /** What is visible below a layer is a possible displaced definition there. */
  lemma {:induction false} LookupIsBelow<T(!new)>(l: Ledger<T>, base: map<string, Definition<T>>, nextId: nat, i: nat, n: string)
    requires Core(l, base, nextId) && i <= |l.sides|
    ensures Below(l, base, i, n, Lookup(StackOf(l, base), i, n))
    decreases i
  {
    if i > 0 {
      LayerMentions(l, base, i - 1, n);
      assert DisplacedWell(l, base, i - 1, n);
      LookupIsBelow(l, base, nextId, i - 1, n);
    }
  }

  /** The layer hides the name without binding it. */
  predicate IsHole<T>(l: Ledger<T>, i: nat, n: string)
    requires |l.disposed| == |l.sides| && i < |l.sides|
  {
    !l.disposed[i] && n in Entries(l.sides[i]) && n !in l.sides[i].owned
  }

  /** Disposing an installation keeps what others displaced, unless it hid something that is there below it. */
  lemma {:induction false} DisposalKeepsBelow<T(!new)>(l: Ledger<T>, base: map<string, Definition<T>>, nextId: nat, k: nat,
                                                       i: nat, n: string, found: Option<Definition<T>>)
    requires Core(l, base, nextId) && i <= |l.sides| && k < |l.sides|
    requires i <= k || !IsHole(l, k, n) || Lookup(StackOf(l, base), k, n).None?
    requires Below(l, base, i, n, found)
    ensures Below(MarkDisposed(l, k), base, i, n, found)
    decreases i
  {
    if i > 0 {
      var side := l.sides[i - 1];
      if n !in Entries(side) || (l.disposed[i - 1] && Below(l, base, i - 1, n, found)) {
        DisposalKeepsBelow(l, base, nextId, k, i - 1, n, found);
      } else if n in side.owned {
        DisposalKeepsBelow(l, base, nextId, k, i - 1, n, Get(side.displaced, n));
      } else if i - 1 == k {
        LookupIsBelow(l, base, nextId, k, n);
        DisposalKeepsBelow(l, base, nextId, k, k, n, None);
      }
    }
  }

  /** A visible definition carries the name it is bound to, was registered before, and nobody disposed it. */
  lemma {:induction false} VisibleNamed<T(!new)>(l: Ledger<T>, base: map<string, Definition<T>>, nextId: nat, i: nat, n: string)
    requires Core(l, base, nextId) && i <= |l.sides|
    ensures var d := Lookup(StackOf(l, base), i, n);
            d.Some? ==>
              && d.value.name == n && d.value.id < nextId
              && (d.value.id in l.lifetimes ==>
                    l.lifetimes[d.value.id].installation < |l.disposed| && !l.disposed[l.lifetimes[d.value.id].installation])
    decreases i
  {
    if i > 0 {
      VisibleNamed(l, base, nextId, i - 1, n);
      LayerMentions(l, base, i - 1, n);
      if n in l.sides[i - 1].owned { assert OwnedWell(l, i - 1, n); }
    }
  }

  lemma CoreShape<T(!new)>(l: Ledger<T>, base: map<string, Definition<T>>, nextId: nat)
    requires Core(l, base, nextId)
    ensures WellShaped(l)
  {
  }

  // ---------------------------------------------------------------- the start of an installation

  /** Starting an installation pushes a layer that hides every source name. */
  lemma BeginPushes<T(!new)>(l: Ledger<T>, base: map<string, Definition<T>>, names: set<string>, nextId: nat)
    requires Inv(l, base, false, nextId)
    ensures Inv(Begin(l, names), base, true, nextId)
    ensures StackOf(Begin(l, names), base) == Push(StackOf(l, base), names)
  {
    hide Core, Below;
    var l' := Begin(l, names);
    var top := |l.sides|;
    CoreShape(l, base, nextId);
    BeginKeepsCore(l, base, names, nextId);
    assert l'.sides[top].displaced.Keys - names == {};
    assert StackOf(l', base).layers == Push(StackOf(l, base), names).layers;
    forall n ensures Get(l'.byName, n) == Visible(StackOf(l', base), n) {
      FrameLookup(l, l', base, top, n);
      LayerMentions(l', base, top, n);
      assert Get(l.byName, n) == Visible(StackOf(l, base), n);
    }
  }

  lemma BeginKeepsCore<T(!new)>(l: Ledger<T>, base: map<string, Definition<T>>, names: set<string>, nextId: nat)
    requires Inv(l, base, false, nextId)
    ensures Core(Begin(l, names), base, nextId)
  {
    var l' := Begin(l, names);
    var top := |l.sides|;
    forall i, n | 0 <= i < |l'.sides| ensures DisplacedWell(l', base, i, n) && OwnedWell(l', i, n) {
      BeginKeepsAt(l, base, names, nextId, i, n);
    }
  }

  lemma BeginKeepsAt<T(!new)>(l: Ledger<T>, base: map<string, Definition<T>>, names: set<string>, nextId: nat, i: nat, n: string)
    requires Inv(l, base, false, nextId) && i <= |l.sides|
    ensures DisplacedWell(Begin(l, names), base, i, n) && OwnedWell(Begin(l, names), i, n)
  {
    hide Below, Lookup;
    var l' := Begin(l, names);
    var top := |l.sides|;
    if i < top {
      assert DisplacedWell(l, base, i, n) && OwnedWell(l, i, n);
      if !l.disposed[i] && n in Entries(l.sides[i]) { FrameBelow(l, l', base, i, n, Get(l.sides[i].displaced, n)); }
    } else if n in names {
      LookupIsBelow(l, base, nextId, top, n);
      assert Get(l'.sides[top].displaced, n) == Get(l.byName, n) == Visible(StackOf(l, base), n);
      FrameBelow(l, l', base, top, n, Get(l.byName, n));
    }
  }

  // ---------------------------------------------------------------- a registration

  /** A registration in the running installation binds the name in the top layer. */
  lemma RegisterBinds<T(!new)>(l: Ledger<T>, base: map<string, Definition<T>>, d: Definition<T>, nextId: nat)
    requires Inv(l, base, true, nextId)
    requires d.name !in l.byName && nextId <= d.id
    ensures Inv(Register(l, d, Some(|l.sides| - 1)), base, true, d.id + 1)
    ensures StackOf(Register(l, d, Some(|l.sides| - 1)), base) == Bind(StackOf(l, base), d)
  {
    hide Core, Below;
    var top := |l.sides| - 1;
    var l' := Register(l, d, Some(top));
    RegisterKeepsCore(l, base, d, nextId);
    assert StackOf(l', base).layers == Bind(StackOf(l, base), d).layers;
    forall n ensures Get(l'.byName, n) == Visible(StackOf(l', base), n) {
      FrameLookup(l, l', base, top, n);
      LayerMentions(l, base, top, n);
      LayerMentions(l', base, top, n);
      assert Get(l.byName, n) == Visible(StackOf(l, base), n);
    }
  }

  lemma RegisterKeepsCore<T(!new)>(l: Ledger<T>, base: map<string, Definition<T>>, d: Definition<T>, nextId: nat)
    requires Inv(l, base, true, nextId)
    requires d.name !in l.byName && nextId <= d.id
    ensures Core(Register(l, d, Some(|l.sides| - 1)), base, d.id + 1)
  {
    var top := |l.sides| - 1;
    var l' := Register(l, d, Some(top));
    hide Below, Lookup;
    FreeNameIsFree(l, base, d.name, nextId);
    var found := Get(l.sides[top].displaced, d.name);
    if found.Some? { FoundIsOld(l, base, nextId, top, d.name, found); }
    forall i, n | 0 <= i < |l'.sides| ensures DisplacedWell(l', base, i, n) && OwnedWell(l', i, n) {
      RegisterKeepsAt(l, base, d, nextId, i, n);
    }
  }

  lemma RegisterKeepsAt<T(!new)>(l: Ledger<T>, base: map<string, Definition<T>>, d: Definition<T>, nextId: nat, i: nat, n: string)
    requires Inv(l, base, true, nextId) && i < |l.sides|
    requires d.name !in l.byName && nextId <= d.id
    requires Below(l, base, |l.sides| - 1, d.name, Get(l.sides[|l.sides| - 1].displaced, d.name))
    ensures DisplacedWell(Register(l, d, Some(|l.sides| - 1)), base, i, n)
    ensures OwnedWell(Register(l, d, Some(|l.sides| - 1)), i, n)
  {
    hide Below, Lookup, Refines;
    var l' := Register(l, d, Some(|l.sides| - 1));
    assert DisplacedWell(l, base, i, n) && OwnedWell(l, i, n);
    if !l.disposed[i] && n in Entries(l'.sides[i]) { FrameBelow(l, l', base, i, n, Get(l.sides[i].displaced, n)); }
  }

  /** A free name is not bound by the running layer, and what that layer displaced under it lies below. */
  lemma FreeNameIsFree<T(!new)>(l: Ledger<T>, base: map<string, Definition<T>>, n: string, nextId: nat)
    requires Inv(l, base, true, nextId) && n !in l.byName
    ensures n !in l.sides[|l.sides| - 1].owned
    ensures Below(l, base, |l.sides| - 1, n, Get(l.sides[|l.sides| - 1].displaced, n))
  {
    var top := |l.sides| - 1;
    assert Get(l.byName, n) == Visible(StackOf(l, base), n);
    LayerMentions(l, base, top, n);
    assert DisplacedWell(l, base, top, n);
    LookupIsBelow(l, base, nextId, top, n);
  }

  /** Every displaced definition is older than any identity still to be given out. */
  lemma {:induction false} FoundIsOld<T(!new)>(l: Ledger<T>, base: map<string, Definition<T>>, nextId: nat,
                                               i: nat, n: string, found: Option<Definition<T>>)
    requires Core(l, base, nextId) && i <= |l.sides| && found.Some?
    requires Below(l, base, i, n, found)
    ensures found.value.id < nextId
    decreases i
  {
    if i > 0 {
      if n in l.sides[i - 1].owned && found == Some(l.sides[i - 1].owned[n]) {
        assert OwnedWell(l, i - 1, n);
      } else {
        FoundIsOld(l, base, nextId, i - 1, n, found);
      }
    }
  }

  // ---------------------------------------------------------------- a withdrawal

  /** Taking any bound name out, inside the running installation, takes it out of the top layer. */
  lemma WithdrawTakesOut<T(!new)>(l: Ledger<T>, base: map<string, Definition<T>>, n: string, nextId: nat)
    requires Inv(l, base, true, nextId) && n in l.byName
    ensures Inv(Unregister(l, n, Some(|l.sides| - 1)), base, true, nextId)
    ensures StackOf(Unregister(l, n, Some(|l.sides| - 1)), base) == TakeOut(StackOf(l, base), n)
  {
    hide Core, Below;
    var top := |l.sides| - 1;
    var l' := Unregister(l, n, Some(top));
    WithdrawnSide(l, base, n, nextId);
    WithdrawKeepsCore(l, base, n, nextId);
    WithdrawnLayer(l, base, n, nextId);
    assert StackOf(l', base).layers == TakeOut(StackOf(l, base), n).layers;
    forall m ensures Get(l'.byName, m) == Visible(StackOf(l', base), m) {
      FrameLookup(l, l', base, top, m);
      LayerMentions(l, base, top, m);
      LayerMentions(l', base, top, m);
      assert Get(l.byName, m) == Visible(StackOf(l, base), m);
    }
  }

  /** What the running installation records: a binding given up, or a definition borrowed from below. */
  lemma WithdrawnSide<T(!new)>(l: Ledger<T>, base: map<string, Definition<T>>, n: string, nextId: nat)
    requires Inv(l, base, true, nextId) && n in l.byName
    ensures var top := |l.sides| - 1; var side := l.sides[top]; var d := l.byName[n];
            && d.name == n
            && (n in side.owned ==> side.owned[n] == d && Release(side, d) == side.(owned := side.owned - {n}))
            && (n !in side.owned ==> n !in Entries(side) && Lookup(StackOf(l, base), top, n) == Some(d)
                                     && Release(side, d) == side.(displaced := side.displaced[n := d]))
            && (n in side.owned && n !in side.names && n !in side.displaced ==> Lookup(StackOf(l, base), top, n) == None)
  {
    var top := |l.sides| - 1;
    assert Get(l.byName, n) == Visible(StackOf(l, base), n);
    VisibleNamed(l, base, nextId, |l.sides|, n);
    LayerMentions(l, base, top, n);
    if n in l.sides[top].owned {
      assert DisplacedWell(l, base, top, n);
      ResolveIsLookup(l, base, nextId, top, n, Get(l.sides[top].displaced, n));
    }
  }

  lemma WithdrawnLayer<T(!new)>(l: Ledger<T>, base: map<string, Definition<T>>, n: string, nextId: nat)
    requires Inv(l, base, true, nextId) && n in l.byName
    ensures var top := |l.sides| - 1; var side, layer := l.sides[top], LayerOf(l.sides[top], false);
            LayerOf(Release(side, l.byName[n]), false)
            == if n in layer.bound then layer.(bound := layer.bound - {n}) else layer.(borrowed := layer.borrowed + {n})
  {
    hide Core, Below, Lookup;
    WithdrawnSide(l, base, n, nextId);
    var side := l.sides[|l.sides| - 1];
    if n !in side.owned {
      assert side.displaced[n := l.byName[n]].Keys - side.names == (side.displaced.Keys - side.names) + {n};
    }
  }

  lemma WithdrawKeepsCore<T(!new)>(l: Ledger<T>, base: map<string, Definition<T>>, n: string, nextId: nat)
    requires Inv(l, base, true, nextId) && n in l.byName
    ensures Core(Unregister(l, n, Some(|l.sides| - 1)), base, nextId)
  {
    var top := |l.sides| - 1;
    var l' := Unregister(l, n, Some(top));
    hide Below, Lookup;
    WithdrawnSide(l, base, n, nextId);
    forall i, m | 0 <= i < |l'.sides| ensures DisplacedWell(l', base, i, m) && OwnedWell(l', i, m) {
      WithdrawKeepsAt(l, base, n, nextId, i, m);
    }
  }

  lemma WithdrawKeepsAt<T(!new)>(l: Ledger<T>, base: map<string, Definition<T>>, n: string, nextId: nat, i: nat, m: string)
    requires Inv(l, base, true, nextId) && n in l.byName && i < |l.sides|
    ensures DisplacedWell(Unregister(l, n, Some(|l.sides| - 1)), base, i, m)
    ensures OwnedWell(Unregister(l, n, Some(|l.sides| - 1)), i, m)
  {
    hide Below, Lookup, Refines;
    var top := |l.sides| - 1;
    var l' := Unregister(l, n, Some(top));
    WithdrawnSide(l, base, n, nextId);
    assert DisplacedWell(l, base, i, m) && OwnedWell(l, i, m);
    if !l.disposed[i] && m in Entries(l'.sides[i]) {
      if i == top && m == n && n !in l.sides[top].owned {
        LookupIsBelow(l, base, nextId, top, n);
        FrameBelow(l, l', base, top, n, Some(l.byName[n]));
      } else {
        FrameBelow(l, l', base, i, m, Get(l.sides[i].displaced, m));
      }
    }
  }

  // ---------------------------------------------------------------- dropping a layer of a stack

  /** No layer above `i`, undisposed, says anything about the name. */
  ghost predicate TopmostAt<T>(s: Stack<T>, i: nat, n: string)
    requires i < |s.layers|
  {
    !s.layers[i].disposed && Mentions(s.layers[i], n) && !CoveredAbove(s, i, n)
  }

  lemma {:induction false} LookupAtTopmost<T>(s: Stack<T>, i: nat, k: nat, n: string)
    requires i < k <= |s.layers|
    requires forall j :: i < j < k ==> s.layers[j].disposed || !Mentions(s.layers[j], n)
    ensures Lookup(s, k, n) == Lookup(s, i + 1, n)
    decreases k
  {
    if k > i + 1 { LookupAtTopmost(s, i, k - 1, n); }
  }

  /** Dropping a layer uncovers what is below it where it was on top, and changes nothing elsewhere. */
  lemma {:induction false} DropUncovers<T>(s: Stack<T>, i: nat, n: string)
    requires i < |s.layers|
    ensures Visible(Drop(s, i), n) == if TopmostAt(s, i, n) then Lookup(s, i, n) else Visible(s, n)
  {
    var s' := Drop(s, i);
    LookupDropBelow(s, i, i, n);
    if TopmostAt(s, i, n) {
      LookupAtTopmost(s', i, |s.layers|, n);
    } else if s.layers[i].disposed || !Mentions(s.layers[i], n) {
      LookupDropSilent(s, i, |s.layers|, n);
    } else {
      var j :| i < j < |s.layers| && !s.layers[j].disposed && Mentions(s.layers[j], n);
      LookupDropCovered(s, i, j, |s.layers|, n);
    }
  }

  lemma {:induction false} LookupDropBelow<T>(s: Stack<T>, i: nat, k: nat, n: string)
    requires k <= i < |s.layers|
    ensures Lookup(Drop(s, i), k, n) == Lookup(s, k, n)
    decreases k
  {
    if k > 0 { LookupDropBelow(s, i, k - 1, n); }
  }

  lemma {:induction false} LookupDropSilent<T>(s: Stack<T>, i: nat, k: nat, n: string)
    requires k <= |s.layers| && i < |s.layers|
    requires s.layers[i].disposed || !Mentions(s.layers[i], n)
    ensures Lookup(Drop(s, i), k, n) == Lookup(s, k, n)
    decreases k
  {
    if k > 0 { LookupDropSilent(s, i, k - 1, n); }
  }

  lemma {:induction false} LookupDropCovered<T>(s: Stack<T>, i: nat, j: nat, k: nat, n: string)
    requires i < j < k <= |s.layers|
    requires !s.layers[j].disposed && Mentions(s.layers[j], n)
    ensures Lookup(Drop(s, i), k, n) == Lookup(s, k, n)
    decreases k
  {
    if k > j + 1 { LookupDropCovered(s, i, j, k - 1, n); }
  }

  // ---------------------------------------------------------------- disposal

  /** An installation owns the current binding of a name exactly when its layer is on top there and bound. */
  lemma OwnerIsTopmost<T(!new)>(l: Ledger<T>, base: map<string, Definition<T>>, nextId: nat, i: nat, n: string, running: bool)
    requires Inv(l, base, running, nextId) && i < |l.sides|
    ensures n in Released(l, i) <==> TopmostAt(StackOf(l, base), i, n) && n in l.sides[i].owned
  {
    var s := StackOf(l, base);
    assert Get(l.byName, n) == Visible(s, n);
    LayerMentions(l, base, i, n);
    if n in l.sides[i].owned {
      if TopmostAt(s, i, n) {
        LookupAtTopmost(s, i, |s.layers|, n);
      } else {
        if !l.disposed[i] {
          var j :| i < j < |s.layers| && !s.layers[j].disposed && Mentions(s.layers[j], n);
          LayerMentions(l, base, j, n);
          assert Covers(l, j, n);
        }
        VisibleElsewhere(l, base, nextId, i, |l.sides|, n);
      }
    }
  }

  /** A definition owned by a layer is not what a disposed or covered layer shows. */
  lemma {:induction false} VisibleElsewhere<T(!new)>(l: Ledger<T>, base: map<string, Definition<T>>, nextId: nat, i: nat, k: nat, n: string)
    requires Core(l, base, nextId) && i < |l.sides| && k <= |l.sides|
    requires n in l.sides[i].owned
    requires k <= i || l.disposed[i] || exists j :: i < j < k && Covers(l, j, n)
    ensures Lookup(StackOf(l, base), k, n) != Some(l.sides[i].owned[n])
    decreases k
  {
    assert OwnedWell(l, i, n);
    if k > 0 {
      var side := l.sides[k - 1];
      LayerMentions(l, base, k - 1, n);
      if Covers(l, k - 1, n) {
        if n in side.owned { assert OwnedWell(l, k - 1, n); }
      } else {
        VisibleElsewhere(l, base, nextId, i, k - 1, n);
      }
    }
  }

  ghost predicate Covers<T>(l: Ledger<T>, j: nat, n: string)
    requires |l.disposed| == |l.sides| && j < |l.sides|
  {
    !l.disposed[j] && n in Entries(l.sides[j])
  }

  /** The definitions that replaced each other below a layer do not depend on the layer itself. */
  lemma {:induction false} ResolveIgnoresAbove<T(!new)>(l: Ledger<T>, base: map<string, Definition<T>>, nextId: nat, k: nat,
                                                        i: nat, n: string, found: Option<Definition<T>>)
    requires Core(l, base, nextId) && i <= k < |l.sides| && Below(l, base, i, n, found)
    ensures ResolveOption(MarkDisposed(l, k), found) == ResolveOption(l, found)
    decreases i
  {
    if i > 0 {
      var side := l.sides[i - 1];
      if n !in Entries(side) {
        ResolveIgnoresAbove(l, base, nextId, k, i - 1, n, found);
      } else if n in side.owned && found == Some(side.owned[n]) && Below(l, base, i - 1, n, Get(side.displaced, n)) {
        assert OwnedWell(l, i - 1, n);
        ResolveIgnoresAbove(l, base, nextId, k, i - 1, n, Get(side.displaced, n));
      } else if l.disposed[i - 1] {
        ResolveIgnoresAbove(l, base, nextId, k, i - 1, n, found);
      }
    }
  }

  /** What a restore of an undisposed installation does at one name, said in terms of the stack below it. */
  lemma RestoredAtName<T(!new)>(l: Ledger<T>, base: map<string, Definition<T>>, i: nat, rollback: bool, nextId: nat, n: string)
    requires Core(l, base, nextId) && i < |l.sides| && !l.disposed[i]
    ensures var side := l.sides[i];
            Get(Dispose(l, i, rollback).byName, n)
            == if n in Released(l, i) || (n !in l.byName && n in Entries(side) && (rollback || (n in side.displaced && n !in side.names)))
               then Lookup(StackOf(l, base), i, n)
               else Get(l.byName, n)
  {
    var side := l.sides[i];
    var marked := MarkDisposed(l, i);
    assert Released(marked, i) == Released(l, i);
    if n in Entries(side) {
      assert DisplacedWell(l, base, i, n);
      ResolveIgnoresAbove(l, base, nextId, i, i, n, Get(side.displaced, n));
      ResolveIsLookup(l, base, nextId, i, n, Get(side.displaced, n));
    }
  }

  /** What a disposal is about to bring back carries the name it was displaced under. */
  lemma RestoringIsNamed<T(!new)>(l: Ledger<T>, base: map<string, Definition<T>>, i: nat, rollback: bool, nextId: nat, n: string)
    requires Core(l, base, nextId) && i < |l.sides| && !l.disposed[i]
    requires n in Restoring(MarkDisposed(l, i), i, rollback)
    ensures Restoring(MarkDisposed(l, i), i, rollback)[n].name == n
  {
    var side := l.sides[i];
    assert DisplacedWell(l, base, i, n);
    ResolveIgnoresAbove(l, base, nextId, i, i, n, Get(side.displaced, n));
    ResolveIsLookup(l, base, nextId, i, n, Get(side.displaced, n));
    VisibleNamed(l, base, nextId, i, n);
  }

  lemma DroppedStack<T>(l: Ledger<T>, base: map<string, Definition<T>>, i: nat)
    requires |l.disposed| == |l.sides| && i < |l.sides|
    ensures StackOf(MarkDisposed(l, i), base) == Drop(StackOf(l, base), i)
  {
    assert StackOf(MarkDisposed(l, i), base).layers == Drop(StackOf(l, base), i).layers;
  }

  lemma DisposeKeepsCore<T(!new)>(l: Ledger<T>, base: map<string, Definition<T>>, i: nat, rollback: bool, nextId: nat)
    requires Core(l, base, nextId) && i < |l.sides|
    requires forall n :: IsHole(l, i, n) && CoveredAbove(StackOf(l, base), i, n) ==> Lookup(StackOf(l, base), i, n).None?
    ensures Core(Dispose(l, i, rollback), base, nextId)
    ensures StackOf(Dispose(l, i, rollback), base) == Drop(StackOf(l, base), i)
  {
    hide Lookup, CoveredAbove, Below;
    var marked := MarkDisposed(l, i);
    var l' := Dispose(l, i, rollback);
    DroppedStack(l, base, i);
    assert StackOf(l', base) == StackOf(marked, base);
    forall k, n | 0 <= k < |l'.sides| ensures DisplacedWell(l', base, k, n) && OwnedWell(l', k, n) {
      assert DisplacedWell(l, base, k, n) && OwnedWell(l, k, n);
      if !l'.disposed[k] && n in Entries(l.sides[k]) {
        if k > i { CoverIs(l, base, i, k, n); }
        DisposalKeepsBelow(l, base, nextId, i, k, n, Get(l.sides[k].displaced, n));
        FrameBelow(marked, l', base, k, n, Get(l.sides[k].displaced, n));
      }
    }
  }

  lemma CoverIs<T>(l: Ledger<T>, base: map<string, Definition<T>>, i: nat, k: nat, n: string)
    requires |l.disposed| == |l.sides| && i < k < |l.sides| && !l.disposed[k] && n in Entries(l.sides[k])
    ensures CoveredAbove(StackOf(l, base), i, n)
  {
    LayerMentions(l, base, k, n);
  }

  /** At each name, a dispose shows what the stack shows without the layer, if and only if the layer is droppable there. */
  lemma DisposeAtName<T(!new)>(l: Ledger<T>, base: map<string, Definition<T>>, i: nat, running: bool, nextId: nat, n: string)
    requires Inv(l, base, running, nextId) && i < |l.sides| && !l.disposed[i]
    ensures var s := StackOf(l, base);
            && (Mentions(s.layers[i], n) && DroppableAt(s, i, n) ==> Get(Dispose(l, i, false).byName, n) == Visible(Drop(s, i), n))
            && (!Mentions(s.layers[i], n) ==> Get(Dispose(l, i, false).byName, n) == Visible(Drop(s, i), n))
            && (Get(Dispose(l, i, false).byName, n) == Visible(Drop(s, i), n) && Mentions(s.layers[i], n)
                ==> DroppableAt(s, i, n) || (IsHole(l, i, n) && CoveredAbove(s, i, n)))
  {
    hide Below, Core, Lookup, CoveredAbove, Dispose;
    CoreShape(l, base, nextId);
    var s := StackOf(l, base);
    DropUncovers(s, i, n);
    RestoredAtName(l, base, i, false, nextId, n);
    OwnerIsTopmost(l, base, nextId, i, n, running);
    LayerMentions(l, base, i, n);
    assert Get(l.byName, n) == Visible(s, n);
    if TopmostAt(s, i, n) { TopmostIsVisible(s, i, n); }
  }

  lemma TopmostIsVisible<T>(s: Stack<T>, i: nat, n: string)
    requires i < |s.layers| && TopmostAt(s, i, n)
    ensures Visible(s, n) == Get(s.layers[i].bound, n)
  {
    LookupAtTopmost(s, i, |s.layers|, n);
  }

  /** A layer that may be dropped is dropped: the index then shows the topmost layer that is left. */
  lemma DisposeDrops<T(!new)>(l: Ledger<T>, base: map<string, Definition<T>>, i: nat, running: bool, nextId: nat)
    requires Inv(l, base, running, nextId) && i < |l.sides| && !l.disposed[i] && (running ==> i < |l.sides| - 1)
    requires Droppable(StackOf(l, base), i)
    ensures Inv(Dispose(l, i, false), base, running, nextId)
    ensures StackOf(Dispose(l, i, false), base) == Drop(StackOf(l, base), i)
  {
    hide Below, Core, Lookup, CoveredAbove, Dispose;
    CoreShape(l, base, nextId);
    var s, l' := StackOf(l, base), Dispose(l, i, false);
    DisposeShape(l, i, false);
    forall n | IsHole(l, i, n) && CoveredAbove(s, i, n) ensures Lookup(s, i, n).None? {
      LayerMentions(l, base, i, n);
      assert DroppableAt(s, i, n);
    }
    DisposeKeepsCore(l, base, i, false, nextId);
    CoreShape(l', base, nextId);
    forall n ensures Get(l'.byName, n) == Visible(StackOf(l', base), n) {
      DisposeAtName(l, base, i, running, nextId, n);
      if Mentions(s.layers[i], n) { assert DroppableAt(s, i, n); }
    }
  }

  lemma DisposeShape<T(!new)>(l: Ledger<T>, i: nat, rollback: bool)
    requires WellShaped(l) && i < |l.sides|
    ensures var l' := Dispose(l, i, rollback);
            l'.sides == l.sides && l'.disposed == l.disposed[i := true] && l'.lifetimes == l.lifetimes
  {
  }

  /** Rolling the running installation back always drops its layer. */
  lemma RollbackDrops<T(!new)>(l: Ledger<T>, base: map<string, Definition<T>>, nextId: nat)
    requires Inv(l, base, true, nextId)
    ensures Inv(Dispose(l, |l.sides| - 1, true), base, false, nextId)
    ensures StackOf(Dispose(l, |l.sides| - 1, true), base) == Drop(StackOf(l, base), |l.sides| - 1)
  {
    hide Below, Core, Lookup, Dispose;
    var top := |l.sides| - 1;
    CoreShape(l, base, nextId);
    var s, l' := StackOf(l, base), Dispose(l, top, true);
    DisposeShape(l, top, true);
    DisposeKeepsCore(l, base, top, true, nextId);
    CoreShape(l', base, nextId);
    forall n ensures Get(l'.byName, n) == Visible(StackOf(l', base), n) {
      DropUncovers(s, top, n);
      RestoredAtName(l, base, top, true, nextId, n);
      OwnerIsTopmost(l, base, nextId, top, n, true);
      LayerMentions(l, base, top, n);
      assert Get(l.byName, n) == Visible(s, n);
      if TopmostAt(s, top, n) { TopmostIsVisible(s, top, n); }
    }
  }

  // ---------------------------------------------------------------- the condition is exact

  /** More disposals never bring back a definition whose whole chain was disposed. */
  lemma {:induction false} GoneStaysGone<T(!new)>(l: Ledger<T>, l': Ledger<T>, d: Definition<T>)
    requires Descending(l.lifetimes) && l'.lifetimes == l.lifetimes && Resolve(l, d) == None
    requires |l'.disposed| == |l.disposed| && forall k :: 0 <= k < |l.disposed| && l.disposed[k] ==> l'.disposed[k]
    ensures Resolve(l', d) == None
    decreases d.id
  {
    var lifetime := l.lifetimes[d.id];
    if lifetime.previous.Some? { GoneStaysGone(l, l', lifetime.previous.value); }
  }

  /** The lowest of the undisposed layers above `i` that mention the name. */
  lemma {:induction false} LowestCover<T>(s: Stack<T>, i: nat, n: string, k: nat) returns (j: nat)
    requires i < k < |s.layers| && !s.layers[k].disposed && Mentions(s.layers[k], n)
    ensures i < j <= k && !s.layers[j].disposed && Mentions(s.layers[j], n)
    ensures forall m :: i < m < j ==> s.layers[m].disposed || !Mentions(s.layers[m], n)
    decreases k
  {
    if m :| i < m < k && !s.layers[m].disposed && Mentions(s.layers[m], n) {
      j := LowestCover(s, i, n, m);
    } else {
      j := k;
    }
  }

  /** A covered hole with something below it: once the layer is dropped, nobody gives that back any more. */
  lemma CoveredHoleIsLost<T(!new)>(l: Ledger<T>, base: map<string, Definition<T>>, i: nat, nextId: nat, n: string)
    requires Core(l, base, nextId) && i < |l.sides| && IsHole(l, i, n)
    requires CoveredAbove(StackOf(l, base), i, n) && Lookup(StackOf(l, base), i, n).Some?
    ensures !Core(Dispose(l, i, false), base, nextId)
  {
    hide Below;
    var s, l' := StackOf(l, base), Dispose(l, i, false);
    var k :| i < k < |s.layers| && !s.layers[k].disposed && Mentions(s.layers[k], n);
    var j := LowestCover(s, i, n, k);
    LayerMentions(l, base, j, n);
    LayerMentions(l, base, i, n);
    var found := Get(l.sides[j].displaced, n);
    assert DisplacedWell(l, base, j, n);
    ResolveIsLookup(l, base, nextId, j, n, found);
    LookupAtTopmost(s, i, j, n);
    assert ResolveOption(l, found) == None;
    if found.Some? { GoneStaysGone(l, l', found.value); }
    DroppedStack(l, base, i);
    assert StackOf(l', base) == Drop(s, i);
    LookupAtTopmost(Drop(s, i), i, j, n);
    LookupDropBelow(s, i, i, n);
    if Core(l', base, nextId) {
      assert DisplacedWell(l', base, j, n);
      ResolveIsLookup(l', base, nextId, j, n, found);
    }
  }

  /** Disposing an undisposed layer keeps the invariant if and only if the layer may be dropped. */
  lemma DisposeDropsExactly<T(!new)>(l: Ledger<T>, base: map<string, Definition<T>>, i: nat, running: bool, nextId: nat)
    requires Inv(l, base, running, nextId) && i < |l.sides| && !l.disposed[i] && (running ==> i < |l.sides| - 1)
    ensures Inv(Dispose(l, i, false), base, running, nextId) <==> Droppable(StackOf(l, base), i)
  {
    hide Below, Core, Lookup, CoveredAbove, Dispose;
    CoreShape(l, base, nextId);
    var s, l' := StackOf(l, base), Dispose(l, i, false);
    if Droppable(s, i) {
      DisposeDrops(l, base, i, running, nextId);
    } else {
      var n :| Mentions(s.layers[i], n) && !DroppableAt(s, i, n);
      if Inv(l', base, running, nextId) {
        CoreShape(l', base, nextId);
        DroppedStack(l, base, i);
        DisposeShape(l, i, false);
        assert StackOf(l', base) == Drop(s, i);
        assert Get(l'.byName, n) == Visible(StackOf(l', base), n);
        DisposeAtName(l, base, i, running, nextId, n);
        CoveredHoleIsLost(l, base, i, nextId, n);
      }
    }
  }

  /**
   * Disposing a second time changes nothing if and only if no borrowed name is free whose definition is live;
   * in particular when the stack shows everything the layer borrowed.
   */
  lemma DisposeAgain<T(!new)>(l: Ledger<T>, base: map<string, Definition<T>>, i: nat, running: bool, nextId: nat)
    requires Inv(l, base, running, nextId) && i < |l.sides| && l.disposed[i]
    ensures Dispose(l, i, false) == l
            <==> forall n :: n in l.sides[i].displaced && n !in l.sides[i].names && n !in l.byName
                             ==> Resolve(l, l.sides[i].displaced[n]).None?
    ensures Droppable(StackOf(l, base), i) ==> Dispose(l, i, false) == l
    ensures Dispose(l, i, false) == l <==> Restoring(MarkDisposed(l, i), i, false) == map[]
  {
    hide Below, Lookup, CoveredAbove;
    var s, side := StackOf(l, base), l.sides[i];
    assert MarkDisposed(l, i) == l;
    forall n ensures n !in Released(l, i) { OwnerIsTopmost(l, base, nextId, i, n, running); }
    assert Released(l, i) == {};
    var restoring := Restoring(l, i, false);
    assert Dispose(l, i, false).byName == l.byName - {} + restoring;
    assert l.byName - {} == l.byName;
    LayerMentions(l, base, i, "");
    if restoring == map[] {
      assert l.byName + restoring == l.byName;
    } else {
      var n :| n in restoring;
      assert n in (l.byName + restoring) && n !in l.byName;
    }
    forall n | Droppable(s, i) && n in side.displaced && n !in side.names ensures n in l.byName {
      assert n in s.layers[i].borrowed && Get(l.byName, n) == Visible(s, n);
    }
  }

  // ---------------------------------------------------------------- outside any installation

  /** No undisposed layer says anything about the name. */
  ghost predicate Unmentioned<T>(s: Stack<T>, n: string) {
    forall k {:trigger s.layers[k]} :: 0 <= k < |s.layers| && !s.layers[k].disposed ==> !Mentions(s.layers[k], n)
  }

  lemma {:induction false} LookupOtherBase<T>(s: Stack<T>, base: map<string, Definition<T>>, i: nat, n: string)
    requires i <= |s.layers|
    ensures Get(base, n) == Get(s.base, n) ==> Lookup(s.(base := base), i, n) == Lookup(s, i, n)
    ensures (exists k :: 0 <= k < i && !s.layers[k].disposed && Mentions(s.layers[k], n))
            ==> Lookup(s.(base := base), i, n) == Lookup(s, i, n)
    ensures (forall k :: 0 <= k < i && !s.layers[k].disposed ==> !Mentions(s.layers[k], n)) ==> Lookup(s, i, n) == Get(s.base, n)
    decreases i
  {
    if i > 0 { LookupOtherBase(s, base, i - 1, n); }
  }

  lemma {:induction false} BelowOtherBase<T(!new)>(l: Ledger<T>, l': Ledger<T>, base: map<string, Definition<T>>, base': map<string, Definition<T>>,
                                                   i: nat, n: string, found: Option<Definition<T>>)
    requires |l.disposed| == |l.sides| && i <= |l.sides| && l'.sides == l.sides && l'.disposed == l.disposed
    requires Get(base', n) == Get(base, n) && Below(l, base, i, n, found)
    ensures Below(l', base', i, n, found)
    decreases i
  {
    if i > 0 {
      var side := l.sides[i - 1];
      if n !in Entries(side) || (l.disposed[i - 1] && Below(l, base, i - 1, n, found)) {
        BelowOtherBase(l, l', base, base', i - 1, n, found);
      } else if n in side.owned {
        BelowOtherBase(l, l', base, base', i - 1, n, Get(side.displaced, n));
      }
    }
  }

  /** A change of the base at one name that no undisposed layer mentions. */
  lemma ChangedOutside<T(!new)>(l: Ledger<T>, l': Ledger<T>, base: map<string, Definition<T>>, base': map<string, Definition<T>>,
                                running: bool, nextId: nat, nextId': nat, n: string)
    requires Inv(l, base, running, nextId) && nextId <= nextId' && WellShaped(l)
    requires l' == l.(byName := l'.byName)
    requires forall m :: m != n ==> Get(l'.byName, m) == Get(l.byName, m) && Get(base', m) == Get(base, m)
    requires n in base' ==> base'[n].name == n && base'[n].id < nextId' && base'[n].id !in l.lifetimes
    requires Get(l'.byName, n) == Get(base', n)
    ensures StackOf(l', base') == StackOf(l, base).(base := base')
    ensures Unmentioned(StackOf(l, base), n) ==> Inv(l', base', running, nextId')
  {
    hide Below, Lookup;
    var s := StackOf(l, base);
    if Unmentioned(s, n) {
      forall i, m | 0 <= i < |l'.sides| ensures DisplacedWell(l', base', i, m) && OwnedWell(l', i, m) {
        assert DisplacedWell(l, base, i, m) && OwnedWell(l, i, m);
        LayerMentions(l, base, i, m);
        if !l.disposed[i] && m in Entries(l.sides[i]) {
          assert Mentions(s.layers[i], m);
          BelowOtherBase(l, l', base, base', i, m, Get(l.sides[i].displaced, m));
        }
      }
      forall m | m in base' ensures base'[m].name == m && base'[m].id < nextId' && base'[m].id !in l'.lifetimes {
        if m != n { assert Get(base', m) == Get(base, m); }
      }
      forall m ensures Get(l'.byName, m) == Visible(StackOf(l', base'), m) {
        assert Get(l.byName, m) == Visible(s, m);
        LookupOtherBase(s, base', |s.layers|, m);
        LookupOtherBase(StackOf(l', base'), base', |s.layers|, m);
      }
    }
  }

  /**
   * A definition registered outside any installation goes to the base, if and only if no undisposed
   * installation mentions its name; else the stack, which hides the name, does not show it.
   */
  lemma RegisterOutsideExactly<T(!new)>(l: Ledger<T>, base: map<string, Definition<T>>, d: Definition<T>, running: bool, nextId: nat)
    requires Inv(l, base, running, nextId) && d.name !in l.byName && d.id == nextId
    ensures WellShaped(l) && StackOf(Register(l, d, None), base[d.name := d]) == StackOf(l, base).(base := base[d.name := d])
    ensures Unmentioned(StackOf(l, base), d.name) <==> Refines(Register(l, d, None), base[d.name := d])
    ensures Unmentioned(StackOf(l, base), d.name) ==> Inv(Register(l, d, None), base[d.name := d], running, nextId + 1)
  {
    hide Below, Lookup, DisplacedWell, OwnedWell;
    var s, l', base' := StackOf(l, base), Register(l, d, None), base[d.name := d];
    ChangedOutside(l, l', base, base', running, nextId, nextId + 1, d.name);
    LookupOtherBase(s, base', |s.layers|, d.name);
    assert Get(l.byName, d.name) == Visible(s, d.name);
  }

  /** Likewise for a definition taken out. */
  lemma UnregisterOutsideExactly<T(!new)>(l: Ledger<T>, base: map<string, Definition<T>>, n: string, running: bool, nextId: nat)
    requires Inv(l, base, running, nextId) && n in l.byName
    ensures WellShaped(l) && StackOf(Unregister(l, n, None), base - {n}) == StackOf(l, base).(base := base - {n})
    ensures Unmentioned(StackOf(l, base), n) <==> Refines(Unregister(l, n, None), base - {n})
    ensures Unmentioned(StackOf(l, base), n) ==> Inv(Unregister(l, n, None), base - {n}, running, nextId)
  {
    hide Below, Lookup, DisplacedWell, OwnedWell;
    var s, l', base' := StackOf(l, base), Unregister(l, n, None), base - {n};
    ChangedOutside(l, l', base, base', running, nextId, nextId, n);
    LookupOtherBase(s, base', |s.layers|, n);
    assert Get(l.byName, n) == Visible(s, n);
  }
}
