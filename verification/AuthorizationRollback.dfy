/**
 * A failed installation leaves no trace: whatever its loads registered or took out, the rollback gives
 * the by-name index back, provided nothing outside the installation touched the registry.
 */
module AuthorizationRollback {
  import opened Prelude
  import opened AuthorizationLedger

  /** Every bound definition carries its name, is older than `first` and is not of a disposed installation. */
  ghost predicate BoundLive<T(!new)>(l: Ledger<T>, first: nat) {
    forall n :: n in l.byName ==>
      var d := l.byName[n];
      && d.name == n && d.id < first
      && (d.id in l.lifetimes ==>
            l.lifetimes[d.id].installation < |l.disposed| && !l.disposed[l.lifetimes[d.id].installation])
  }

  /** `l` was reached from `before` by the running installation alone. */
  ghost predicate Alone<T(!new)>(before: Ledger<T>, l: Ledger<T>, first: nat) {
    && WellShaped(before) && WellShaped(l)
    && |l.sides| == |before.sides| + 1
    && l.disposed == before.disposed + [false]
    && (forall id: nat {:trigger SameLifetime(before, l, id)} :: id < first ==> SameLifetime(before, l, id))
    && (forall n {:trigger TouchedWell(before, l, first, n)} :: TouchedWell(before, l, first, n))
  }

  predicate SameLifetime<T(==)>(before: Ledger<T>, l: Ledger<T>, id: nat) {
    Get(l.lifetimes, id) == Get(before.lifetimes, id)
  }

  ghost predicate TouchedWell<T(!new)>(before: Ledger<T>, l: Ledger<T>, first: nat, n: string)
    requires |l.sides| > 0
  {
    var side := l.sides[|l.sides| - 1];
    && (n in side.displaced ==> Get(before.byName, n) == Some(side.displaced[n]))
    && (n in before.byName && n !in side.displaced ==> Get(l.byName, n) == Some(before.byName[n]))
    && (n in l.byName && (n !in before.byName || n in side.displaced) ==> Get(side.owned, n) == Some(l.byName[n]))
    && (n in side.owned ==> side.owned[n].id >= first)
    && (n in l.byName ==> l.byName[n].name == n)
  }

  lemma BeginIsAlone<T(!new)>(before: Ledger<T>, names: set<string>, first: nat)
    requires WellShaped(before) && BoundLive(before, first)
    ensures Alone(before, Begin(before, names), first)
  {
    var l := Begin(before, names);
    forall n ensures TouchedWell(before, l, first, n) { }
  }

  /** Any name may be taken out by a load: its own, one it displaced, or another one (an alias). */
  lemma UnregisterStaysAlone<T(!new)>(before: Ledger<T>, l: Ledger<T>, name: string, first: nat)
    requires Alone(before, l, first) && BoundLive(before, first)
    ensures Alone(before, Unregister(l, name, Some(|l.sides| - 1)), first)
  {
    var l' := Unregister(l, name, Some(|l.sides| - 1));
    assert TouchedWell(before, l, first, name);
    forall id: nat | id < first ensures SameLifetime(before, l', id) { assert SameLifetime(before, l, id); }
    forall n ensures TouchedWell(before, l', first, n) {
      assert TouchedWell(before, l, first, n);
    }
  }

  lemma RegisterStaysAlone<T(!new)>(before: Ledger<T>, l: Ledger<T>, d: Definition<T>, first: nat)
    requires Alone(before, l, first) && BoundLive(before, first)
    requires d.name !in l.byName && first <= d.id
    ensures Alone(before, Register(l, d, Some(|l.sides| - 1)), first)
  {
    var l' := Register(l, d, Some(|l.sides| - 1));
    assert TouchedWell(before, l, first, d.name);
    forall id: nat | id < first ensures SameLifetime(before, l', id) { assert SameLifetime(before, l, id); }
    forall n ensures TouchedWell(before, l', first, n) {
      assert TouchedWell(before, l, first, n);
    }
  }

  /** Exact rollback of the by-name index: what comes back is what was displaced, under its own name. */
  lemma RollbackIsExact<T(!new)>(before: Ledger<T>, l: Ledger<T>, first: nat)
    requires Alone(before, l, first) && BoundLive(before, first)
    ensures Dispose(l, |l.sides| - 1, true).byName == before.byName
    ensures var restoring := Restoring(MarkDisposed(l, |l.sides| - 1), |l.sides| - 1, true);
            forall n :: n in restoring ==> restoring[n].name == n
  {
    var top := |l.sides| - 1;
    var marked := MarkDisposed(l, top);
    forall n | n in marked.sides[top].displaced
      ensures n in before.byName && Resolve(marked, marked.sides[top].displaced[n]) == Some(before.byName[n])
    {
      assert TouchedWell(before, l, first, n);
      assert SameLifetime(before, l, before.byName[n].id);
    }
    var after := Dispose(l, top, true).byName;
    forall n ensures Get(after, n) == Get(before.byName, n) {
      assert TouchedWell(before, l, first, n);
    }
    SameMap(after, before.byName);
  }
}
