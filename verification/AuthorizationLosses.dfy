/**
 * What a disposal loses that does not drop its layer rightly: the registry stops showing the stack at once,
 * or when the installations that cover the lost name are disposed too, in whatever order.
 */
module AuthorizationLosses {
  import opened Prelude
  import opened AuthorizationLedger
  import opened AuthorizationRefinement

  // ---------------------------------------------------------------- disposing one after the other

  predicate Within(order: seq<nat>, bound: nat) {
    forall j :: 0 <= j < |order| ==> order[j] < bound
  }

  function DisposeAll<T(==, !new)>(l: Ledger<T>, order: seq<nat>): (r: Ledger<T>)
    requires WellShaped(l) && Within(order, |l.sides|)
    ensures WellShaped(r) && r.sides == l.sides && r.lifetimes == l.lifetimes
    ensures forall k :: 0 <= k < |l.sides| ==> r.disposed[k] == (l.disposed[k] || k in order)
    decreases |order|
  {
    if order == [] then l
    else
      assert order == [order[0]] + order[1..];
      DisposeAll(Dispose(l, order[0], false), order[1..])
  }

  /** The installations above `i` that are not disposed yet, each of them at least once. */
  ghost predicate RestAbove<T(!new)>(s: Stack<T>, i: nat, order: seq<nat>) {
    && (forall j :: 0 <= j < |order| ==> i < order[j] < |s.layers| && !s.layers[order[j]].disposed)
    && (forall k :: i < k < |s.layers| && !s.layers[k].disposed ==> k in order)
  }

  /** Each of these layers may be dropped when its turn comes. */
  ghost predicate DroppableInTurn<T(!new)>(s: Stack<T>, order: seq<nat>)
    requires Within(order, |s.layers|)
    decreases |order|
  {
    order != [] ==> Droppable(s, order[0]) && DroppableInTurn(Drop(s, order[0]), order[1..])
  }

  // ---------------------------------------------------------------- whose a visible definition is

  /** What lies below a layer belongs to the base or to a lower layer. */
  lemma {:induction false} LookupIsLower<T(!new)>(l: Ledger<T>, base: map<string, Definition<T>>, nextId: nat, i: nat, n: string)
    requires Core(l, base, nextId) && i <= |l.sides|
    ensures var d := Lookup(StackOf(l, base), i, n);
            d.Some? && d.value.id in l.lifetimes ==> l.lifetimes[d.value.id].installation < i
    decreases i
  {
    hide Below, DisplacedWell;
    LookupDown(l, base, i, n);
    if i > 0 {
      LookupIsLower(l, base, nextId, i - 1, n);
      if n in l.sides[i - 1].owned { assert OwnedWell(l, i - 1, n); }
    }
  }

  /** What a covered layer does not show: the definition that lies below it. */
  lemma {:induction false} CoveredIsNotBelow<T(!new)>(l: Ledger<T>, base: map<string, Definition<T>>, nextId: nat, i: nat, k: nat, n: string)
    requires Core(l, base, nextId) && i < |l.sides| && k <= |l.sides|
    requires exists j :: i < j < k && Covers(l, j, n)
    requires Lookup(StackOf(l, base), i, n).Some?
    ensures Lookup(StackOf(l, base), k, n) != Lookup(StackOf(l, base), i, n)
    decreases k
  {
    hide Below, DisplacedWell;
    LookupDown(l, base, k, n);
    LookupIsLower(l, base, nextId, i, n);
    if Covers(l, k - 1, n) {
      if n in l.sides[k - 1].owned { assert OwnedWell(l, k - 1, n); }
    } else {
      CoveredIsNotBelow(l, base, nextId, i, k - 1, n);
    }
  }

  // ---------------------------------------------------------------- nobody gives it back

  /** What an installation above a hole displaced never leads back to what lies below the hole. */
  lemma {:induction false} NeverLeadsBelow<T(!new)>(l: Ledger<T>, later: Ledger<T>, base: map<string, Definition<T>>, nextId: nat,
                                                    i: nat, k: nat, n: string, found: Option<Definition<T>>)
    requires Core(l, base, nextId) && i < k <= |l.sides| && IsHole(l, i, n)
    requires Lookup(StackOf(l, base), i, n).Some?
    requires Below(l, base, k, n, found)
    requires later.lifetimes == l.lifetimes
    ensures ResolveOption(later, found) != Lookup(StackOf(l, base), i, n)
    decreases k
  {
    hide Lookup, StackOf;
    LookupIsLower(l, base, nextId, i, n);
    var side := l.sides[k - 1];
    if k - 1 > i {
      if n in side.owned && found == Some(side.owned[n]) && Below(l, base, k - 1, n, Get(side.displaced, n)) {
        assert OwnedWell(l, k - 1, n);
        NeverLeadsBelow(l, later, base, nextId, i, k - 1, n, Get(side.displaced, n));
      } else if n !in Entries(side) || (l.disposed[k - 1] && Below(l, base, k - 1, n, found)) {
        NeverLeadsBelow(l, later, base, nextId, i, k - 1, n, found);
      }
    }
  }

  /** So no disposal of such an installation makes the index show it. */
  lemma {:induction false} NeverShownAgain<T(!new)>(l: Ledger<T>, later: Ledger<T>, base: map<string, Definition<T>>, nextId: nat,
                                                    i: nat, n: string, order: seq<nat>)
    requires Core(l, base, nextId) && i < |l.sides| && IsHole(l, i, n) && Lookup(StackOf(l, base), i, n).Some?
    requires later.sides == l.sides && later.lifetimes == l.lifetimes && |later.disposed| == |l.disposed|
    requires forall j :: 0 <= j < |order| ==> i < order[j] < |l.sides| && !l.disposed[order[j]]
    requires Get(later.byName, n) != Lookup(StackOf(l, base), i, n)
    ensures Get(DisposeAll(later, order).byName, n) != Lookup(StackOf(l, base), i, n)
    decreases |order|
  {
    hide Lookup, StackOf, Below;
    if order != [] {
      var k, next := order[0], Dispose(later, order[0], false);
      DisposeShape(later, k, false);
      assert DisplacedWell(l, base, k, n);
      if n in l.sides[k].displaced {
        NeverLeadsBelow(l, MarkDisposed(later, k), base, nextId, i, k, n, Get(l.sides[k].displaced, n));
      }
      NeverShownAgain(l, next, base, nextId, i, n, order[1..]);
    }
  }

  /** With a layer and everything above it disposed, the stack shows what lies below. */
  lemma {:induction false} LookupPastDisposed<T>(s: Stack<T>, i: nat, k: nat, n: string)
    requires i <= k <= |s.layers| && forall j :: i <= j < k ==> s.layers[j].disposed
    ensures Lookup(s, k, n) == Lookup(s, i, n)
    decreases k
  {
    if k > i { LookupPastDisposed(s, i, k - 1, n); }
  }

  lemma {:induction false} LookupIgnoresAbove<T>(s: Stack<T>, s': Stack<T>, i: nat, n: string)
    requires s.base == s'.base && i <= |s.layers| && i <= |s'.layers| && s.layers[..i] == s'.layers[..i]
    ensures Lookup(s, i, n) == Lookup(s', i, n)
    decreases i
  {
    if i > 0 {
      assert s.layers[..i][i - 1] == s'.layers[..i][i - 1] && s.layers[..i][..i - 1] == s'.layers[..i][..i - 1];
      LookupIgnoresAbove(s, s', i - 1, n);
    }
  }

  lemma LowerDisposedAlike<T(!new)>(l: Ledger<T>, base: map<string, Definition<T>>, i: nat, order: seq<nat>, n: string)
    requires WellShaped(l) && i < |l.sides| && RestAbove(StackOf(l, base), i, order)
    ensures Within(order, |l.sides|)
    ensures var later := DisposeAll(Dispose(l, i, false), order);
            Visible(StackOf(later, base), n) == Lookup(StackOf(l, base), i, n)
  {
    hide Lookup, Dispose;
    var s, once := StackOf(l, base), Dispose(l, i, false);
    DisposeShape(l, i, false);
    var later := DisposeAll(once, order);
    var s' := StackOf(later, base);
    forall k | i <= k < |l.sides| ensures s'.layers[k].disposed { assert k == i || s.layers[k].disposed || k in order; }
    forall j | 0 <= j < |order| ensures order[j] > i { }
    assert s'.layers[..i] == s.layers[..i];
    LookupPastDisposed(s', i, |s'.layers|, n);
    LookupIgnoresAbove(s', s, i, n);
  }

  // ---------------------------------------------------------------- when a disposal is right

  /**
   * A disposal whose layer may not be dropped is seen: the registry stops showing the stack at once, or once
   * the installations above it are disposed too.
   */
  lemma LossIsSeen<T(!new)>(l: Ledger<T>, base: map<string, Definition<T>>, i: nat, nextId: nat, order: seq<nat>)
    requires Inv(l, base, false, nextId) && i < |l.sides| && !l.disposed[i]
    requires !Droppable(StackOf(l, base), i) && RestAbove(StackOf(l, base), i, order)
    ensures Within(order, |l.sides|)
    ensures !Refines(Dispose(l, i, false), base) || !Refines(DisposeAll(Dispose(l, i, false), order), base)
  {
    hide Below, Core, Lookup, Dispose, DisposeAll;
    CoreShape(l, base, nextId);
    var s, once := StackOf(l, base), Dispose(l, i, false);
    DisposeShape(l, i, false);
    LowerDisposedAlike(l, base, i, order, "");
    var n :| Mentions(s.layers[i], n) && !DroppableAt(s, i, n);
    if Refines(once, base) {
      DroppedStack(l, base, i);
      assert StackOf(once, base) == Drop(s, i);
      assert Get(once.byName, n) == Visible(Drop(s, i), n);
      DisposeAtName(l, base, i, false, nextId, n);
      HoleIsNotShown(l, base, i, nextId, n);
      assert forall j :: 0 <= j < |order| ==> i < order[j] < |l.sides| && !l.disposed[order[j]];
      NeverShownAgain(l, once, base, nextId, i, n, order);
      LowerDisposedAlike(l, base, i, order, n);
    }
  }

  /** Below a covered hole there is something that nobody sees, with the hole or without it. */
  lemma HoleIsNotShown<T(!new)>(l: Ledger<T>, base: map<string, Definition<T>>, i: nat, nextId: nat, n: string)
    requires Core(l, base, nextId) && i < |l.sides| && IsHole(l, i, n)
    requires CoveredAbove(StackOf(l, base), i, n) && !DroppableAt(StackOf(l, base), i, n)
    ensures Lookup(StackOf(l, base), i, n).Some?
    ensures Visible(Drop(StackOf(l, base), i), n) != Lookup(StackOf(l, base), i, n)
  {
    hide Below, Lookup;
    var s := StackOf(l, base);
    var j :| i < j < |s.layers| && !s.layers[j].disposed && Mentions(s.layers[j], n);
    LayerMentions(l, base, j, n);
    assert Covers(l, j, n);
    CoveredIsNotBelow(l, base, nextId, i, |l.sides|, n);
    DropUncovers(s, i, n);
  }

  lemma {:induction false} InTurnKeepsInv<T(!new)>(l: Ledger<T>, base: map<string, Definition<T>>, nextId: nat, order: seq<nat>)
    requires Inv(l, base, false, nextId) && Within(order, |l.sides|) && DroppableInTurn(StackOf(l, base), order)
    ensures WellShaped(l) && Inv(DisposeAll(l, order), base, false, nextId)
    decreases |order|
  {
    hide Core, Lookup, Droppable, Dispose;
    CoreShape(l, base, nextId);
    if order != [] {
      DroppedInTurn(l, base, order[0], nextId);
      InTurnKeepsInv(Dispose(l, order[0], false), base, nextId, order[1..]);
    }
  }

  lemma DroppedInTurn<T(!new)>(l: Ledger<T>, base: map<string, Definition<T>>, i: nat, nextId: nat)
    requires Inv(l, base, false, nextId) && i < |l.sides| && Droppable(StackOf(l, base), i)
    ensures WellShaped(l) && Dispose(l, i, false).sides == l.sides
    ensures Inv(Dispose(l, i, false), base, false, nextId)
    ensures StackOf(Dispose(l, i, false), base) == Drop(StackOf(l, base), i)
  {
    hide Core, Lookup, Droppable, Dispose;
    CoreShape(l, base, nextId);
    DisposeShape(l, i, false);
    if l.disposed[i] {
      DisposeAgain(l, base, i, false, nextId);
      DroppedStack(l, base, i);
      assert MarkDisposed(l, i) == l;
    } else {
      DisposeDrops(l, base, i, false, nextId);
    }
  }

  /**
   * The condition is exact for what the registry shows. When the layers above may each be dropped in turn, the
   * registry shows the stack right after a disposal and still does once all of those are disposed, if and only
   * if the layer may be dropped.
   */
  lemma DroppableIffShown<T(!new)>(l: Ledger<T>, base: map<string, Definition<T>>, i: nat, nextId: nat, order: seq<nat>)
    requires Inv(l, base, false, nextId) && i < |l.sides| && !l.disposed[i]
    requires RestAbove(StackOf(l, base), i, order) && Within(order, |l.sides|)
    requires DroppableInTurn(Drop(StackOf(l, base), i), order)
    ensures WellShaped(l)
    ensures Droppable(StackOf(l, base), i)
            <==> Refines(Dispose(l, i, false), base) && Refines(DisposeAll(Dispose(l, i, false), order), base)
  {
    hide Core, Lookup, Droppable, Dispose, DisposeAll, DroppableInTurn, Refines, RestAbove;
    CoreShape(l, base, nextId);
    DisposeShape(l, i, false);
    if Droppable(StackOf(l, base), i) {
      DroppedInTurn(l, base, i, nextId);
      InTurnKeepsInv(Dispose(l, i, false), base, nextId, order);
    } else {
      LossIsSeen(l, base, i, nextId, order);
    }
  }
}
