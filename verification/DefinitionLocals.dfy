/**
 * Which local names of a realtime module hold definitions, and which names its factories are imported under
 * (packages/adapter-shared/src/build.ts). A module is the list of its top-level declarations: the names each
 * one binds and the identifiers its initializer refers to.
 */
module DefinitionLocals {
  import opened Prelude

  datatype Initializer = Initializer(mentionsRealtime: bool, mentions: set<string>)
  datatype Declaration = Declaration(names: seq<string>, initializer: Option<Initializer>)

  predicate RefersTo(d: Declaration, locals: set<string>) {
    d.initializer.Some? && (d.initializer.value.mentionsRealtime || !(d.initializer.value.mentions !! locals))
  }

  predicate Bound(d: Declaration, locals: set<string>) {
    forall name <- d.names :: name in locals
  }

  /** Whatever refers to a realtime binding or to a name in the set binds names in the set. */
  predicate Closed(ds: seq<Declaration>, locals: set<string>) {
    forall d <- ds :: RefersTo(d, locals) ==> Bound(d, locals)
  }

  ghost predicate Least(ds: seq<Declaration>, locals: set<string>) {
    && Closed(ds, locals)
    && forall other {:trigger Closed(ds, other)} :: Closed(ds, other) ==> locals <= other
  }

  ghost function AllNames(ds: seq<Declaration>): set<string> {
    set d, name | d in ds && name in d.names :: name
  }

  /** Everything found so far is in every closed set. */
  ghost predicate Needed(ds: seq<Declaration>, locals: set<string>) {
    && locals <= AllNames(ds)
    && forall other {:trigger Closed(ds, other)} :: Closed(ds, other) ==> locals <= other
  }

  lemma NamesAreNeeded(ds: seq<Declaration>, locals: set<string>, d: Declaration, name: string)
    requires Needed(ds, locals) && d in ds && RefersTo(d, locals) && name in d.names
    ensures Needed(ds, locals + {name})
  {
    forall other | Closed(ds, other) ensures name in other {
      assert RefersTo(d, other) && Bound(d, other);
    }
  }

  method AddNames(ds: seq<Declaration>, d: Declaration, locals: set<string>, changed: bool)
    returns (more: set<string>, grew: bool)
    requires Needed(ds, locals) && d in ds && RefersTo(d, locals)
    ensures Needed(ds, more) && locals <= more && Bound(d, more)
    ensures grew == (changed || more != locals)
  {
    more, grew := locals, changed;
    for i := 0 to |d.names|
      invariant Needed(ds, more) && locals <= more && (forall j :: 0 <= j < i ==> d.names[j] in more)
      invariant grew == (changed || more != locals)
    {
      if d.names[i] !in more {
        NamesAreNeeded(ds, more, d, d.names[i]);
        more := more + {d.names[i]};
        grew := true;
      }
    }
  }

  method CollectDefinitionLocals(declarations: seq<Declaration>) returns (locals: set<string>)
    ensures Least(declarations, locals)
  {
    hide Needed;
    hide RefersTo;
    hide Bound;
    locals := {};
    NothingNeeded(declarations);
    var changed := true;
    while changed
      invariant Needed(declarations, locals)
      invariant !changed ==> Closed(declarations, locals)
      decreases |AllNames(declarations) - locals|, changed
    {
      changed := false;
      ghost var before := locals;
      for i := 0 to |declarations|
        invariant Needed(declarations, locals) && before <= locals && changed == (locals != before)
        invariant !changed ==> forall j :: 0 <= j < i && RefersTo(declarations[j], locals) ==> Bound(declarations[j], locals)
      {
        var d := declarations[i];
        if RefersTo(d, locals) {
          locals, changed := AddNames(declarations, d, locals, changed);
        }
      }
      if changed { FewerNamesLeft(declarations, before, locals); }
    }
    NeededIsLeast(declarations, locals);
  }

  lemma NothingNeeded(ds: seq<Declaration>)
    ensures Needed(ds, {})
  {
  }

  lemma NeededIsLeast(ds: seq<Declaration>, locals: set<string>)
    requires Needed(ds, locals) && Closed(ds, locals)
    ensures Least(ds, locals)
  {
  }

  lemma FewerNamesLeft(ds: seq<Declaration>, before: set<string>, locals: set<string>)
    requires Needed(ds, locals) && before < locals
    ensures |AllNames(ds) - locals| < |AllNames(ds) - before|
  {
    var all := AllNames(ds);
    assert all - locals < all - before by {
      assert exists name :: name in locals && name !in before;
      var name :| name in locals && name !in before;
      assert name in all - before && name !in all - locals;
    }
    SmallerSet(all - locals, all - before);
  }

  lemma {:induction false} SmallerSet<T>(a: set<T>, b: set<T>)
    requires a < b
    ensures |a| < |b|
  {
    assert b == a + (b - a) && b - a != {};
    assert |b| == |a| + |b - a|;
  }

  /** The order of the declarations does not matter. */
  lemma OrderIsImmaterial(ds: seq<Declaration>, other: seq<Declaration>, locals: set<string>, otherLocals: set<string>)
    requires forall d :: d in ds <==> d in other
    requires Least(ds, locals) && Least(other, otherLocals)
    ensures locals == otherLocals
  {
    assert forall s {:trigger Closed(ds, s)} :: Closed(ds, s) <==> Closed(other, s);
    assert Closed(ds, otherLocals);
  }

  // ---------------------------------------------------------------- chains of references

  /** Each declaration refers to a name the one before binds; the first one to a realtime binding. */
  ghost predicate Chain(ds: seq<Declaration>, chain: seq<Declaration>)
    decreases |chain|
  {
    && chain != []
    && var last := chain[|chain| - 1];
       && last in ds && last.initializer.Some?
       && if |chain| == 1 then last.initializer.value.mentionsRealtime
          else var before := chain[..|chain| - 1];
               Chain(ds, before) && exists name :: name in last.initializer.value.mentions && name in before[|before| - 1].names
  }

  ghost predicate Reaches(ds: seq<Declaration>, name: string) {
    exists chain: seq<Declaration> {:trigger Chain(ds, chain)} :: Chain(ds, chain) && name in chain[|chain| - 1].names
  }

  lemma {:induction false} ChainsStayInside(ds: seq<Declaration>, chain: seq<Declaration>, locals: set<string>)
    requires Chain(ds, chain) && Closed(ds, locals)
    ensures Bound(chain[|chain| - 1], locals)
    decreases |chain|
  {
    var last := chain[|chain| - 1];
    if |chain| > 1 {
      var before := chain[..|chain| - 1];
      ChainsStayInside(ds, before, locals);
      var name :| name in last.initializer.value.mentions && name in before[|before| - 1].names;
      assert name in locals;
    }
    assert RefersTo(last, locals);
  }

  lemma ReachedNamesAreClosed(ds: seq<Declaration>, reached: set<string>)
    requires forall name :: name in reached <==> Reaches(ds, name)
    ensures Closed(ds, reached)
  {
    forall d | d in ds && RefersTo(d, reached) ensures Bound(d, reached) {
      var chain := [d];
      if !d.initializer.value.mentionsRealtime {
        var name :| name in d.initializer.value.mentions && name in reached;
        var before: seq<Declaration> :| Chain(ds, before) && name in before[|before| - 1].names;
        chain := before + [d];
        assert chain[..|chain| - 1] == before;
      }
      assert Chain(ds, chain) && chain[|chain| - 1] == d;
      forall name | name in d.names ensures name in reached { assert Reaches(ds, name); }
    }
  }

  /** The least set is the set of names that a chain of references connects to a realtime binding. */
  lemma LocalsAreReached(ds: seq<Declaration>, locals: set<string>, name: string)
    requires Least(ds, locals)
    ensures name in locals <==> Reaches(ds, name)
  {
    if Reaches(ds, name) {
      var chain: seq<Declaration> :| Chain(ds, chain) && name in chain[|chain| - 1].names;
      ChainsStayInside(ds, chain, locals);
    }
    var reached := set n | n in AllNames(ds) && Reaches(ds, n);
    forall n ensures n in reached <==> Reaches(ds, n) {
      if Reaches(ds, n) {
        var chain: seq<Declaration> :| Chain(ds, chain) && n in chain[|chain| - 1].names;
        assert chain[|chain| - 1] in ds;
      }
    }
    ReachedNamesAreClosed(ds, reached);
  }

  // ---------------------------------------------------------------- names for the factories

  function Underscored(name: string, k: nat): string {
    if k == 0 then name else "_" + Underscored(name, k - 1)
  }

  /** The shortest underscored form of `name` that is not taken. */
  ghost predicate Shortest(name: string, taken: set<string>, local: string) {
    exists k: nat {:trigger Underscored(name, k)} ::
      local == Underscored(name, k) && local !in taken && forall j: nat | j < k :: Underscored(name, j) in taken
  }

  lemma {:induction false} UnderscoredLength(name: string, k: nat)
    ensures |Underscored(name, k)| == |name| + k
    ensures Underscored(name, k)[k..] == name
  {
    if k > 0 { UnderscoredLength(name, k - 1); }
  }

  /** The names not shorter than `length`. */
  ghost function Longer(taken: set<string>, length: nat): set<string> {
    set name | name in taken && |name| >= length
  }

  method FreshName(factory: string, exported: set<string>) returns (local: string)
    ensures Shortest(factory, exported, local)
  {
    local := factory;
    ghost var k: nat := 0;
    while local in exported
      invariant local == Underscored(factory, k)
      invariant forall j: nat | j < k :: Underscored(factory, j) in exported
      decreases |Longer(exported, |local|)|
    {
      ghost var was := local;
      local := "_" + local;
      k := k + 1;
      assert Longer(exported, |local|) < Longer(exported, |was|) by {
        assert was in Longer(exported, |was|) && was !in Longer(exported, |local|);
      }
      SmallerSet(Longer(exported, |local|), Longer(exported, |was|));
    }
  }

  datatype Factory = Query | Mutation

  function NameOf(f: Factory): string {
    match f case Query => "query" case Mutation => "mutation"
  }

  lemma UnderscoredStayApart(j: nat, k: nat)
    ensures Underscored("query", j) != Underscored("mutation", k)
  {
    var a, b := Underscored("query", j), Underscored("mutation", k);
    UnderscoredLength("query", j);
    UnderscoredLength("mutation", k);
    assert a[|a| - 1] == a[j..][4] == 'y' && b[|b| - 1] == b[k..][7] == 'n';
  }

  /** The import names: one for each factory in use, none an exported name, no two alike. */
  method ChooseFactoryLocals(used: seq<Factory>, exported: set<string>) returns (locals: map<Factory, string>)
    ensures forall f :: f in locals <==> f in used
    ensures forall f <- locals :: Shortest(NameOf(f), exported, locals[f]) && locals[f] !in exported
    ensures forall f <- locals, g <- locals :: f != g ==> locals[f] != locals[g]
  {
    locals := map[];
    for i := 0 to |used|
      invariant forall f :: f in locals <==> f in used[..i]
      invariant forall f <- locals :: Shortest(NameOf(f), exported, locals[f]) && locals[f] !in exported
    {
      if used[i] !in locals {
        var local := FreshName(NameOf(used[i]), exported);
        locals := locals[used[i] := local];
      }
    }
    assert used[..|used|] == used;
    forall f, g | f in locals && g in locals && f != g ensures locals[f] != locals[g] {
      var j: nat :| locals[f] == Underscored(NameOf(f), j);
      var k: nat :| locals[g] == Underscored(NameOf(g), k);
      UnderscoredStayApart(j, k);
      UnderscoredStayApart(k, j);
    }
  }
}
