/**
 * Whole requests of several guards that share session records: what the other guards do, in any order, does
 * not change what a guard sees. And runs that show what the conditions are for.
 */
module GuardRuns {
  import opened Prelude
  import opened GuardSessions
  import opened GuardHomes

  datatype Operation =
    | LogsIn(payload: Payload, family: nat)
    | Impersonates(guard: Guard, actorGuard: Guard, target: Identity, family: nat)
    | Stops(guard: Guard)
    | LogsOut(guard: Guard)
    | Resolves(guard: Guard)

  /** Impersonation hydrates the actor's guard only, and its end no guard at all. */
  function Do(w: World, cookie: Option<nat>, op: Operation): World {
    match op
    case LogsIn(p, family) => Establish(Hydrated(w, cookie, p.guard), p, family)
    case Impersonates(g, a, target, family) => Impersonate(Hydrated(w, cookie, a), g, a, target, family).0
    case Stops(g) => Stop(w, g).0
    case LogsOut(g) => Logout(Hydrated(w, cookie, g), g)
    case Resolves(g) => Resolve(Hydrated(w, cookie, g), g).0
  }

  function Run(w: World, cookie: Option<nat>, ops: seq<Operation>): World
    decreases |ops|
  {
    if ops == [] then w else Do(Run(w, cookie, ops[..|ops| - 1]), cookie, ops[|ops| - 1])
  }

  // ---------------------------------------------------------------- one operation of a run

  /** What every caller provides: a configured guard, and a payload that remembers its own guard. */
  ghost predicate WellCalled(w: World, op: Operation) {
    match op
    case LogsIn(p, _) => p.guard in w.guards && OriginalIsOwn(p)
    case Impersonates(g, _, _, _) => g in w.guards
    case _ => true
  }

  /** The operation resolves a user that no longer exists, and leaves somebody's revoked payload to others. */
  ghost predicate LeavesRevokedBehind(w: World, cookie: Option<nat>, op: Operation) {
    match op
    case Impersonates(_, a, _, _) => LeavesRevoked(Hydrated(w, cookie, a), cookie, a)
    case Resolves(g) => LeavesRevoked(Hydrated(w, cookie, g), cookie, g)
    case _ => false
  }

  /** Every operation keeps the payloads at home, with exactly one exception. */
  lemma DoKeepsHomesExactly(w: World, cookie: Option<nat>, op: Operation)
    requires WorldWell(w) && Homed(w, cookie) && WellCalled(w, op)
    ensures Sound(w, Do(w, cookie, op))
    ensures Homed(Do(w, cookie, op), cookie) <==> !LeavesRevokedBehind(w, cookie, op)
  {
    hide WorldWell, Homed, Establish, Impersonate, Stop, Logout, Resolve, LeavesRevoked, Shown;
    AtCookieWhenHomed(w, cookie);
    match op {
      case LogsIn(p, family) =>
        var w1 := Hydrated(w, cookie, p.guard);
        HydratingKeeps(w, cookie, p.guard);
        HydratedIsAnchored(w, cookie, p.guard);
        EstablishKeepsHomes(w1, cookie, p, family);
        EstablishIsSound(w1, p, family);
      case Impersonates(g, a, target, family) =>
        HydratingKeeps(w, cookie, a);
        ImpersonatingKeepsHomesExactly(Hydrated(w, cookie, a), cookie, g, a, target, family);
      case Stops(g) =>
        StoppingSpares(w, cookie, g);
      case LogsOut(g) =>
        HydratingKeeps(w, cookie, g);
        LoggingOutKeepsHomes(Hydrated(w, cookie, g), cookie, g);
      case Resolves(g) =>
        HydratingKeeps(w, cookie, g);
        ResolvingKeepsHomesExactly(Hydrated(w, cookie, g), cookie, g);
    }
  }

  lemma HydratedIsAnchored(w: World, cookie: Option<nat>, g: Guard)
    requires WorldWell(w) && AtCookie(w, cookie) && g in w.guards
    ensures Anchored(Hydrated(w, cookie, g), cookie, g)
  {
    hide RecordWell;
    HydratingKeeps(w, cookie, g);
    if cookie.Some? { BoundIsAnchored(Hydrated(w, cookie, g), cookie, g, g); }
  }

  /** The operation is about other guards; a logout without a payload is not of a guard at home where `g` is. */
  ghost predicate About(w: World, cookie: Option<nat>, op: Operation, g: Guard) {
    match op
    case LogsIn(p, _) => p.guard != g
    case Impersonates(h, a, _, _) => h != g && a != g
    case Stops(h) => h != g
    case LogsOut(h) => h != g && (EndsOnlyItself(Hydrated(w, cookie, h), h) || Home(w, cookie, h) != Home(w, cookie, g))
    case Resolves(h) => h != g
  }

  /** What other guards do does not change what a guard sees. */
  lemma DoSpares(w: World, cookie: Option<nat>, op: Operation, g: Guard)
    requires WorldWell(w) && Homed(w, cookie) && WellCalled(w, op) && About(w, cookie, op, g)
    ensures Shown(Do(w, cookie, op), cookie, g) == Shown(w, cookie, g)
  {
    hide WorldWell, Homed, Establish, Impersonate, Stop, Logout, Resolve, LeavesRevoked, Shown, EndsOnlyItself;
    AtCookieWhenHomed(w, cookie);
    match op {
      case LogsIn(p, family) =>
        HydratingKeeps(w, cookie, p.guard);
        HydratedIsAnchored(w, cookie, p.guard);
        EstablishSpares(Hydrated(w, cookie, p.guard), cookie, p, family, g);
      case Impersonates(h, a, target, family) =>
        HydratingKeeps(w, cookie, a);
        ImpersonatingKeepsHomesExactly(Hydrated(w, cookie, a), cookie, h, a, target, family);
      case Stops(h) =>
        StoppingSpares(w, cookie, h);
      case LogsOut(h) =>
        HydratingKeeps(w, cookie, h);
        LoggingOutKeepsHomes(Hydrated(w, cookie, h), cookie, h);
      case Resolves(h) =>
        HydratingKeeps(w, cookie, h);
        ResolvingKeepsHomesExactly(Hydrated(w, cookie, h), cookie, h);
    }
  }

  // ---------------------------------------------------------------- nothing revoked to begin with

  ghost predicate CleanAt(w: World, cookie: Option<nat>, id: nat) {
    IsHome(w, cookie, id) ==> forall h :: h in PayloadsIn(w.sessions[id]) ==> ValidPayload(w, PayloadsIn(w.sessions[id])[h])
  }

  /** No guard has a revoked payload in its home. */
  ghost predicate Clean(w: World, cookie: Option<nat>) {
    forall id {:trigger CleanAt(w, cookie, id)} :: CleanAt(w, cookie, id)
  }

  lemma CleanLeavesNothing(w: World, cookie: Option<nat>, g: Guard)
    requires Clean(w, cookie)
    ensures !LeavesRevoked(w, cookie, g)
  {
    hide PayloadsIn, ValidPayload, Effective;
    if WritesBack(w, g) { assert CleanAt(w, cookie, w.bound[g]); }
  }

  /** Reading then changes nothing. */
  lemma CleanReading(w: World, cookie: Option<nat>, g: Guard)
    requires Clean(w, cookie)
    ensures ReadState(w, g).0 == w
  {
    hide PayloadsIn, ValidPayload, Effective, StoreOrEnd;
    if g in w.bound && w.bound[g] in w.sessions {
      assert CleanAt(w, cookie, w.bound[g]);
      var ps := PayloadsIn(w.sessions[w.bound[g]]);
      assert ValidIn(w, ps) == ps;
    }
  }

  lemma CleanRewriting(w: World, cookie: Option<nat>, id: nat, ps: Payloads)
    requires Clean(w, cookie) && id in w.sessions && KeyedByGuard(ps)
    requires forall h :: h in ps ==> ValidPayload(w, ps[h])
    ensures Clean(StoreOrEnd(w, id, ps), cookie)
  {
    hide PayloadsIn, Valid, ValidPayload, StoreOrEnd;
    var w' := StoreOrEnd(w, id, ps);
    RewritingStores(w, id, ps, w.bound);
    StoreKeepsValidity(w, id, ps);
    JudgesTheSame(w, w');
    forall i: nat ensures CleanAt(w', cookie, i) {
      assert CleanAt(w, cookie, i);
      if i != id { assert Get(w'.sessions, i) == Get(w.sessions, i); }
    }
  }

  lemma CleanLeaving(w: World, cookie: Option<nat>, gs: set<Guard>)
    requires Clean(w, cookie)
    ensures Clean(w.(bound := w.bound - gs), cookie)
  {
    hide PayloadsIn, Valid;
    var w' := w.(bound := w.bound - gs);
    JudgesTheSame(w, w');
    hide ValidPayload;
    forall i: nat ensures CleanAt(w', cookie, i) { assert CleanAt(w, cookie, i); }
  }

  lemma CleanHydrating(w: World, cookie: Option<nat>, g: Guard)
    requires Clean(w, cookie)
    ensures Clean(Hydrated(w, cookie, g), cookie)
  {
    hide PayloadsIn, Valid;
    var w' := Hydrated(w, cookie, g);
    JudgesTheSame(w, w');
    hide ValidPayload;
    forall i: nat ensures CleanAt(w', cookie, i) {
      assert CleanAt(w, cookie, i);
      if IsHome(w', cookie, i) && cookie != Some(i) {
        var k :| k in w'.bound && w'.bound[k] == i;
        assert k in w.bound && w.bound[k] == i;
      }
    }
  }

  lemma CleanEstablishing(w: World, cookie: Option<nat>, p: Payload, family: nat)
    requires WorldWell(w) && AtCookie(w, cookie) && Clean(w, cookie) && p.guard in w.guards && OriginalIsOwn(p)
    ensures Clean(Establish(w, p, family), cookie)
  {
    hide PayloadsIn, Valid, ValidPayload, Establish, WithRevocation, SharedSession, RecordWell;
    var w' := Establish(w, p, family);
    RotationJudgesTheSame(w, p, family);
    var shared := SharedSession(w, p.guard);
    SharedIsOld(w, p.guard);
    if shared.Some? {
      RotationMovesEverything(w, p, family);
      SharedIsHome(w, cookie, p.guard);
      assert CleanAt(w, cookie, shared.value);
    } else {
      AfterCreation(w, p, family);
    }
    forall i: nat ensures CleanAt(w', cookie, i) {
      assert CleanAt(w, cookie, i);
      if shared.Some? { BoundAfterRotation(w, p, family, p.guard); }
      if IsHome(w', cookie, i) && i != w.nextSession {
        assert Get(w'.sessions, i) == Get(w.sessions, i);
        if cookie != Some(i) {
          var k :| k in w'.bound && w'.bound[k] == i;
          if shared.Some? { BoundAfterRotation(w, p, family, k); }
          assert k in w.bound && w.bound[k] == i;
        }
      }
    }
  }

  lemma CleanUnbinding(w: World, cookie: Option<nat>, g: Guard)
    requires Clean(w, cookie)
    ensures Clean(Unbind(w, g), cookie)
  {
    CleanLeaving(w, cookie, {g});
    assert w.(bound := w.bound - {g}) == Unbind(w, g);
  }

  /** Replacing one guard's payload by a valid one, or taking it out. */
  lemma CleanReplacing(w: World, cookie: Option<nat>, g: Guard, ps: Payloads)
    requires WorldWell(w) && Clean(w, cookie) && g in w.bound && w.bound[g] in w.sessions
    requires KeyedByGuard(ps) && (g in ps ==> ValidPayload(w, ps[g]))
    requires var was := PayloadsIn(w.sessions[w.bound[g]]); forall h :: h != g ==> Get(ps, h) == Get(was, h)
    ensures Clean(StoreOrEnd(w, w.bound[g], ps), cookie)
    ensures Clean(Unbind(StoreOrEnd(w, w.bound[g], ps), g), cookie)
  {
    hide PayloadsIn, ValidPayload, StoreOrEnd;
    assert CleanAt(w, cookie, w.bound[g]);
    var was := PayloadsIn(w.sessions[w.bound[g]]);
    forall h | h in ps ensures ValidPayload(w, ps[h]) {
      if h != g { assert Get(ps, h) == Get(was, h); }
    }
    CleanRewriting(w, cookie, w.bound[g], ps);
    CleanUnbinding(StoreOrEnd(w, w.bound[g], ps), cookie, g);
  }

  lemma CleanStopping(w: World, cookie: Option<nat>, g: Guard)
    requires WorldWell(w) && Clean(w, cookie)
    ensures Clean(Stop(w, g).0, cookie)
  {
    hide Write, ReadState, Clean, Shown, StoreOrEnd, Valid, CleanAt, PayloadsIn;
    CleanReading(w, cookie, g);
    ReadStateShowsTheSame(w, g);
    var p := Effective(w, g);
    if p.Some? && p.value.impersonation.Some? {
      var id := w.bound[g];
      var ps := PayloadsIn(w.sessions[id]);
      assert RecordWell(w.sessions[id]);
      WellPayloads(w.sessions[id]);
      var o := p.value.impersonation.value.original;
      if o.Some? && o.value.identity in w.users && Valid(w, o.value.identity, o.value.revocation) {
        var ps' := ps[g := Payload(o.value.guard, o.value.identity, o.value.revocation, None, false)];
        CleanReplacing(w, cookie, g, ps');
        StoredWithPayload(w, id, ps', g);
      } else {
        CleanReplacing(w, cookie, g, ps - {g});
      }
    }
  }

  lemma CleanLoggingOut(w: World, cookie: Option<nat>, g: Guard)
    requires WorldWell(w) && Clean(w, cookie)
    ensures Clean(Logout(w, g), cookie)
  {
    hide Write, Clean, StoreOrEnd, CleanAt, PayloadsIn;
    if g in w.bound && w.bound[g] in w.sessions {
      var id := w.bound[g];
      var ps := PayloadsIn(w.sessions[id]);
      assert RecordWell(w.sessions[id]);
      WellPayloads(w.sessions[id]);
      CleanReplacing(w, cookie, g, ps - {g});
      CleanRewriting(w, cookie, id, map[]);
      EndedIs(w, id);
      CleanUnbinding(Invalidate(w, id), cookie, g);
    } else {
      CleanUnbinding(w, cookie, g);
    }
  }

  lemma EndedIs(w: World, id: nat)
    requires id in w.sessions
    ensures StoreOrEnd(w, id, map[]) == Invalidate(w, id)
  {
  }

  lemma CleanResolving(w: World, cookie: Option<nat>, g: Guard)
    requires WorldWell(w) && Clean(w, cookie)
    ensures Clean(Resolve(w, g).0, cookie)
  {
    hide Write, Clean, StoreOrEnd, CleanAt, PayloadsIn, ReadState, Stop, Effective;
    CleanReading(w, cookie, g);
    CleanStopping(w, cookie, g);
    CleanUnbinding(w, cookie, g);
    if g in w.bound && w.bound[g] in w.sessions {
      var ps := PayloadsIn(w.sessions[w.bound[g]]);
      assert RecordWell(w.sessions[w.bound[g]]);
      WellPayloads(w.sessions[w.bound[g]]);
      CleanReplacing(w, cookie, g, ps - {g});
    }
  }

  lemma CleanImpersonating(w: World, cookie: Option<nat>, g: Guard, actorGuard: Guard, target: Identity, family: nat)
    requires WorldWell(w) && Homed(w, cookie) && Clean(w, cookie) && g in w.guards
    ensures Clean(Impersonate(w, g, actorGuard, target, family).0, cookie)
  {
    hide Write, Read, Establish, DropRevoked, Resolve, ReadState, Effective, WithRevocation, WorldWell, Valid, Homed, Shown,
         LeavesRevoked, Clean;
    ResolvingKeepsHomesExactly(w, cookie, actorGuard);
    CleanLeavesNothing(w, cookie, actorGuard);
    CleanResolving(w, cookie, actorGuard);
    var (w1, actor) := Resolve(w, actorGuard);
    CleanReading(w1, cookie, actorGuard);
    CleanReading(w1, cookie, g);
    ReadStateShowsTheSame(w1, g);
    AtCookieWhenHomed(w1, cookie);
    var current := ReadState(w1, g).1;
    if current.Some? { EffectiveIsKeyed(w1, g); }
    forall p: Payload | p.guard == g && OriginalIsOwn(p) ensures Clean(Establish(w1, p, family), cookie) {
      CleanEstablishing(w1, cookie, p, family);
    }
  }

  lemma DoKeepsClean(w: World, cookie: Option<nat>, op: Operation)
    requires WorldWell(w) && Homed(w, cookie) && Clean(w, cookie) && WellCalled(w, op)
    ensures !LeavesRevokedBehind(w, cookie, op) && Clean(Do(w, cookie, op), cookie)
  {
    hide WorldWell, Homed, Establish, Impersonate, Stop, Logout, Resolve, LeavesRevoked, Shown, Clean;
    AtCookieWhenHomed(w, cookie);
    match op {
      case LogsIn(p, family) =>
        HydratingKeeps(w, cookie, p.guard);
        CleanHydrating(w, cookie, p.guard);
        CleanEstablishing(Hydrated(w, cookie, p.guard), cookie, p, family);
      case Impersonates(g, a, target, family) =>
        HydratingKeeps(w, cookie, a);
        CleanHydrating(w, cookie, a);
        CleanLeavesNothing(Hydrated(w, cookie, a), cookie, a);
        CleanImpersonating(Hydrated(w, cookie, a), cookie, g, a, target, family);
      case Stops(g) =>
        CleanStopping(w, cookie, g);
      case LogsOut(g) =>
        HydratingKeeps(w, cookie, g);
        CleanHydrating(w, cookie, g);
        CleanLoggingOut(Hydrated(w, cookie, g), cookie, g);
      case Resolves(g) =>
        HydratingKeeps(w, cookie, g);
        CleanHydrating(w, cookie, g);
        CleanLeavesNothing(Hydrated(w, cookie, g), cookie, g);
        CleanResolving(Hydrated(w, cookie, g), cookie, g);
    }
  }

  /** What an operation does to its own guard: the payload of a login, nothing after a logout, the former user after a stop. */
  lemma DoDecides(w: World, cookie: Option<nat>, op: Operation)
    requires WorldWell(w) && AtCookie(w, cookie) && WellCalled(w, op)
    ensures var w' := Do(w, cookie, op);
            match op
            case LogsIn(p, family) => Effective(w', p.guard) == Some(WithRevocation(w, p, family))
            case LogsOut(g) => Effective(w', g) == None
            case Stops(g) =>
              Effective(w, g).Some? && Effective(w, g).value.impersonation.Some? ==>
                if Former(w, Effective(w, g).value).Some?
                then Effective(w', g).Some? && Effective(w', g).value.identity == Former(w, Effective(w, g).value).value
                     && Effective(w', g).value.impersonation.None?
                else Effective(w', g) == None
            case Resolves(g) => Resolve(Hydrated(w, cookie, g), g).1.None? || Effective(w', g).Some?
            case Impersonates(g, a, target, family) =>
              Impersonate(Hydrated(w, cookie, a), g, a, target, family).1.Done? ==>
                Effective(w', g).Some? && Effective(w', g).value.identity == target && Effective(w', g).value.impersonation.Some?
  {
    hide Write, Read, PayloadsIn, Establish, Impersonate, Stop, Logout, Resolve, Effective, RecordWell;
    match op {
      case LogsIn(p, family) =>
        HydratingKeeps(w, cookie, p.guard);
        EstablishShows(Hydrated(w, cookie, p.guard), p, family, p.guard);
      case Impersonates(g, a, target, family) =>
        HydratingKeeps(w, cookie, a);
        ImpersonateExactly(Hydrated(w, cookie, a), g, a, target, family);
      case Stops(g) => StopRestores(w, g);
      case LogsOut(g) =>
        HydratingKeeps(w, cookie, g);
        LogoutIsolatesExactly(Hydrated(w, cookie, g), g);
      case Resolves(g) =>
        HydratingKeeps(w, cookie, g);
        ResolveDecides(Hydrated(w, cookie, g), g);
    }
  }

  // ---------------------------------------------------------------- runs

  ghost predicate AboutOthers(w: World, cookie: Option<nat>, ops: seq<Operation>, g: Guard) {
    forall k {:trigger ops[k]} :: 0 <= k < |ops| ==> WellCalled(w, ops[k]) && About(Run(w, cookie, ops[..k]), cookie, ops[k], g)
  }

  /**
   * Guard isolation over whole requests. From a request's start in which every payload is at home and none
   * there was revoked, logins, impersonations, their ends, logouts and resolutions of other guards, in any
   * order, leave what a guard sees as it is: as long as no guard at home in its session logs out without a
   * payload, which ends the session.
   */
  lemma {:induction false} RunSpares(w: World, cookie: Option<nat>, ops: seq<Operation>, g: Guard)
    requires WorldWell(w) && Homed(w, cookie) && Clean(w, cookie) && AboutOthers(w, cookie, ops, g)
    ensures Sound(w, Run(w, cookie, ops)) && Homed(Run(w, cookie, ops), cookie) && Clean(Run(w, cookie, ops), cookie)
    ensures Shown(Run(w, cookie, ops), cookie, g) == Shown(w, cookie, g)
    decreases |ops|
  {
    if ops == [] {
      SoundItself(w);
    } else {
      hide Do, Shown, Homed, Clean, WorldWell, About;
      var init, last := ops[..|ops| - 1], ops[|ops| - 1];
      assert forall k :: 0 <= k < |init| ==> init[..k] == ops[..k] && init[k] == ops[k];
      RunSpares(w, cookie, init, g);
      var w1 := Run(w, cookie, init);
      DoKeepsClean(w1, cookie, last);
      DoKeepsHomesExactly(w1, cookie, last);
      DoSpares(w1, cookie, last, g);
    }
  }

  lemma SoundItself(w: World)
    requires WorldWell(w)
    ensures Sound(w, w)
  {
  }

  // ---------------------------------------------------------------- runs that need the conditions

  /** The start of a request: nothing bound yet, and a cookie with a session. */
  ghost predicate Fresh(w: World, cookie: nat) {
    WorldWell(w) && w.bound == map[] && cookie in w.sessions && cookie < w.nextSession
  }

  /** A guard without a payload logs out: the session ends, and another guard in it sees nothing any more. */
  lemma LogoutWithoutPayloadEndsOthers(w: World, cookie: nat, g: Guard, h: Guard)
    requires Fresh(w, cookie) && g in w.guards && h in w.guards
    requires g !in PayloadsIn(w.sessions[cookie]) && Shown(w, Some(cookie), h).Some?
    ensures Homed(w, Some(cookie)) && Shown(Run(w, Some(cookie), [LogsOut(g)]), Some(cookie), h) == None
  {
    hide PayloadsIn, Valid, ValidPayload, RecordWell;
    RequestsStartHomed(w, Some(cookie));
    assert [LogsOut(g)][..0] == [];
    assert Run(w, Some(cookie), [LogsOut(g)]) == Do(w, Some(cookie), LogsOut(g));
    assert h != g;
    assert cookie !in Logout(Hydrated(w, Some(cookie), g), g).sessions;
  }

  /** A guard whose user is gone is resolved: another guard's revoked payload, just dropped, is stored again. */
  lemma RevokedIsStoredAgain(w: World, cookie: nat, g: Guard, h: Guard)
    requires Fresh(w, cookie) && g in w.guards && h != g
    requires h in PayloadsIn(w.sessions[cookie]) && !ValidPayload(w, PayloadsIn(w.sessions[cookie])[h])
    requires WritesBack(Hydrated(w, Some(cookie), g), g)
    ensures var w1 := DropRevoked(Hydrated(w, Some(cookie), g), cookie); var w2 := Run(w, Some(cookie), [Resolves(g)]);
            && cookie in w1.sessions && h !in PayloadsIn(w1.sessions[cookie])
            && cookie in w2.sessions && Get(PayloadsIn(w2.sessions[cookie]), h) == Some(PayloadsIn(w.sessions[cookie])[h])
  {
    hide PayloadsIn, Valid, RecordWell, Resolve, DropRevoked, Effective;
    var hydrated := Hydrated(w, Some(cookie), g);
    assert [Resolves(g)][..0] == [];
    assert Run(w, Some(cookie), [Resolves(g)]) == Resolve(hydrated, g).0;
    HydratingJudgesTheSame(w, Some(cookie), g);
    WritingBackIs(hydrated, g);
    var w2 := WrittenBack(hydrated, g);
    assert h in PayloadsIn(w.sessions[cookie]) - {g};
  }

  lemma ReadingNeverBinds(w: World, g: Guard)
    ensures ReadState(w, g).0.bound.Keys <= w.bound.Keys
  {
    hide PayloadsIn, Valid, ValidPayload, Effective, Write;
  }

  lemma StoppingNeverBinds(w: World, g: Guard)
    ensures Stop(w, g).0.bound.Keys <= w.bound.Keys
  {
    hide PayloadsIn, Valid, ValidPayload, ReadState, Write;
    ReadingNeverBinds(w, g);
  }

  lemma ResolvingNeverBinds(w: World, g: Guard)
    requires WorldWell(w)
    ensures Resolve(w, g).0.bound.Keys <= w.bound.Keys
  {
    hide PayloadsIn, Valid, ValidPayload, ReadState, Write, Stop, WorldWell;
    ReadingNeverBinds(w, g);
    StoppingNeverBinds(ReadState(w, g).0, g);
  }

  /**
   * Impersonation hydrates the actor's guard only. On a guard not yet used in the request it does not see the
   * guard's payload, so that payload is not remembered, and ending the impersonation logs the guard out.
   */
  lemma UnusedGuardIsForgotten(w: World, cookie: nat, g: Guard, actorGuard: Guard, target: Identity, family: nat)
    requires Fresh(w, cookie) && g in w.guards && actorGuard in w.guards && g != actorGuard
    ensures var w1 := Run(w, Some(cookie), [Impersonates(g, actorGuard, target, family)]);
            var (w2, user) := Stop(w1, g);
            Impersonate(Hydrated(w, Some(cookie), actorGuard), g, actorGuard, target, family).1.Done? ==>
              && Effective(w1, g).Some? && Effective(w1, g).value.impersonation.Some?
              && Effective(w1, g).value.impersonation.value.original == None
              && user == None && Effective(w2, g) == None
  {
    hide Write, Read, PayloadsIn, Valid, RecordWell, Resolve, DropRevoked, Impersonate, Stop, WorldWell, Sound, ReadState;
    assert WorldWell(w);
    RequestsStartHomed(w, Some(cookie));
    AtCookieWhenHomed(w, Some(cookie));
    HydratingKeeps(w, Some(cookie), actorGuard);
    var hydrated := Hydrated(w, Some(cookie), actorGuard);
    var op := Impersonates(g, actorGuard, target, family);
    assert [op][..0] == [];
    assert Run(w, Some(cookie), [op]) == Impersonate(hydrated, g, actorGuard, target, family).0;
    assert WorldWell(hydrated) by { SoundIsWell(w, hydrated); }
    ImpersonateExactly(hydrated, g, actorGuard, target, family);
    ResolvingNeverBinds(hydrated, actorGuard);
    assert g !in Resolve(hydrated, actorGuard).0.bound;
    SoundIsWell(hydrated, Run(w, Some(cookie), [op]));
    StopRestores(Run(w, Some(cookie), [op]), g);
  }

  lemma SoundIsWell(w: World, w': World)
    requires Sound(w, w')
    ensures WorldWell(w')
  {
  }

  /**
   * What the one exception to payloads at home does to a guard, in any request with a cookie: whenever a
   * revoked payload is left to others, its guard may log in, and a login of one of those others then shows it
   * nothing any more.
   */
  lemma RevokedBehindIsSeen(w: World, cookie: nat, g: Guard) returns (h: Guard, m: Guard)
    requires WorldWell(w) && Homed(w, Some(cookie)) && LeavesRevoked(w, Some(cookie), g)
    ensures h != m && h in w.guards && m in w.guards
    ensures forall p: Payload, q: Payload, family :: p.guard == m && q.guard == h && OriginalIsOwn(p) && OriginalIsOwn(q) ==>
              var after := Do(Resolve(w, g).0, Some(cookie), LogsIn(q, family));
              Shown(after, Some(cookie), h).Some? && Shown(Do(after, Some(cookie), LogsIn(p, family)), Some(cookie), h) == None
  {
    hide PayloadsIn, Valid, ValidPayload, RecordWell, Effective, Resolve, Do, Shown;
    var id := w.bound[g];
    var ps := PayloadsIn(w.sessions[id]);
    h :| h in w.guards && h != g && h in ps && !ValidPayload(w, ps[h]);
    m :| m != g && m in w.bound && w.bound[m] == id && (m in ps ==> ValidPayload(w, ps[m]));
    assert HomedAt(w, Some(cookie), id, h);
    var w1 := WrittenBackTogether(w, cookie, id, g, h, m);
    assert w1 == Resolve(w, g).0 by { BoundIsHydrated(w, cookie, g); }
    forall p: Payload, q: Payload, family | p.guard == m && q.guard == h && OriginalIsOwn(p) && OriginalIsOwn(q)
      ensures var after := Do(w1, Some(cookie), LogsIn(q, family));
              Shown(after, Some(cookie), h).Some? && Shown(Do(after, Some(cookie), LogsIn(p, family)), Some(cookie), h) == None
    {
      var after := LoggedInApart(w1, cookie, id, q, family, m);
      MovedBack(after, cookie, id, h, p, family);
    }
  }

  lemma BoundIsHydrated(w: World, cookie: nat, g: Guard)
    requires g in w.bound
    ensures Do(w, Some(cookie), Resolves(g)) == Resolve(w, g).0
  {
  }

  /**
   * A login that logs out another guard. In the cookie's session, `g`'s user is gone, `h` was revoked. A login
   * of `m` moves all three to a new session; resolving `g` writes `h`'s revoked payload back while `m` stays;
   * `h` logs in, into a session of its own since the cookie's is gone; and the next login of `m` moves `h` back
   * to its revoked payload.
   */
  lemma LoginLogsOutAnother(w: World, cookie: nat, g: Guard, h: Guard, m: Guard, p: Payload, q: Payload, family: nat)
    requires Fresh(w, cookie) && g in w.guards && h in w.guards && m in w.guards && g != h && g != m && h != m
    requires p.guard == m && q.guard == h && OriginalIsOwn(p) && OriginalIsOwn(q)
    requires h in PayloadsIn(w.sessions[cookie]) && !ValidPayload(w, PayloadsIn(w.sessions[cookie])[h])
    requires WritesBack(Hydrated(w, Some(cookie), g), g)
    ensures var c := Some(cookie);
            var ops := [LogsIn(p, family), Resolves(g), LogsIn(q, family)];
            && Homed(w, c)
            && Shown(Run(w, c, ops), c, h).Some?
            && Shown(Run(w, c, ops + [LogsIn(p, family)]), c, h) == None
  {
    var c, id := Some(cookie), w.nextSession;
    RequestsStartHomed(w, c);
    var e1, e2, e3 := LogsIn(p, family), Resolves(g), LogsIn(q, family);
    ThreeOperations(w, c, e1, e2, e3);
    RunOneMore(w, c, [e1, e2, e3], e1);
    hide Run, Do, Shown, Beside, Fresh, WritesBack, Homed;
    var w1 := MovedTogether(w, cookie, g, h, p, family);
    var w2 := WrittenBackTogether(w1, cookie, id, g, h, m);
    var w3 := LoggedInApart(w2, cookie, id, q, family, m);
    MovedBack(w3, cookie, id, h, p, family);
  }

  lemma RunOneMore(w: World, cookie: Option<nat>, ops: seq<Operation>, op: Operation)
    ensures Run(w, cookie, ops + [op]) == Do(Run(w, cookie, ops), cookie, op)
  {
    assert (ops + [op])[..|ops|] == ops;
  }

  lemma ThreeOperations(w: World, cookie: Option<nat>, e1: Operation, e2: Operation, e3: Operation)
    ensures Run(w, cookie, [e1, e2, e3]) == Do(Do(Do(w, cookie, e1), cookie, e2), cookie, e3)
  {
    hide Do;
    RunOneMore(w, cookie, [], e1);
    RunOneMore(w, cookie, [e1], e2);
    RunOneMore(w, cookie, [e1, e2], e3);
    assert [] + [e1] == [e1] && [e1] + [e2] == [e1, e2] && [e1, e2] + [e3] == [e1, e2, e3];
  }

  /** `h` has a revoked payload in the session `m` is bound to, and the cookie's session is gone. */
  ghost predicate Beside(w: World, cookie: nat, id: nat, h: Guard, m: Guard) {
    && WorldWell(w) && cookie !in w.sessions && cookie < w.nextSession && id in w.sessions
    && m in w.guards && h in w.guards && h != m && Get(w.bound, m) == Some(id)
    && var ps := PayloadsIn(w.sessions[id]);
       (m in ps ==> ValidPayload(w, ps[m])) && h in ps && !ValidPayload(w, ps[h])
  }

  lemma MovedTogether(w: World, cookie: nat, g: Guard, h: Guard, p: Payload, family: nat) returns (w1: World)
    requires Fresh(w, cookie) && g in w.guards && h in w.guards && p.guard in w.guards && g != h && g != p.guard && h != p.guard
    requires OriginalIsOwn(p)
    requires h in PayloadsIn(w.sessions[cookie]) && !ValidPayload(w, PayloadsIn(w.sessions[cookie])[h])
    requires WritesBack(Hydrated(w, Some(cookie), g), g)
    ensures w1 == Do(w, Some(cookie), LogsIn(p, family)) && Beside(w1, cookie, w.nextSession, h, p.guard)
    ensures Get(w1.bound, g) == Get(w1.bound, h) == Some(w.nextSession) && WritesBack(w1, g)
  {
    hide PayloadsIn, Valid, ValidPayload, RecordWell, Establish, WithRevocation;
    var c, m := Some(cookie), p.guard;
    var hydrated := Hydrated(w, c, m);
    HydratingKeeps(w, c, m);
    SoundIsWell(w, hydrated);
    w1 := Establish(hydrated, p, family);
    assert SharedSession(hydrated, m) == Some(cookie);
    HydratingJudgesTheSame(w, c, m);
    HydratingJudgesTheSame(w, c, g);
    RotationMovesEverything(hydrated, p, family);
    RotationJudgesTheSame(hydrated, p, family);
    EstablishIsSound(hydrated, p, family);
    BoundAfterRotation(hydrated, p, family, g);
    BoundAfterRotation(hydrated, p, family, h);
  }

  lemma WrittenBackTogether(w: World, cookie: nat, id: nat, g: Guard, h: Guard, m: Guard) returns (w1: World)
    requires Beside(w, cookie, id, h, m) && Get(w.bound, g) == Get(w.bound, h) == Some(id) && g != m && g != h && WritesBack(w, g)
    ensures w1 == Do(w, Some(cookie), Resolves(g)) && Beside(w1, cookie, id, h, m) && h !in w1.bound
  {
    hide PayloadsIn, Valid, ValidPayload, RecordWell, Resolve, DropRevoked, Effective;
    w1 := WrittenBack(w, g);
    ResolveIsolates(w, g);
    JudgesTheSame(w, w1);
    assert Get(w1.sessions, cookie) == Get(w.sessions, cookie);
    var ps := PayloadsIn(w.sessions[id]);
    assert h in ps - {g} && Get(ps - {g}, m) == Get(ps, m);
  }

  lemma LoggedInApart(w: World, cookie: nat, id: nat, q: Payload, family: nat, m: Guard) returns (w1: World)
    requires Beside(w, cookie, id, q.guard, m) && q.guard !in w.bound && OriginalIsOwn(q)
    ensures w1 == Do(w, Some(cookie), LogsIn(q, family)) && Beside(w1, cookie, id, q.guard, m)
    ensures Shown(w1, Some(cookie), q.guard).Some?
  {
    hide PayloadsIn, Valid, ValidPayload, RecordWell, Establish, WithRevocation;
    var hydrated := Hydrated(w, Some(cookie), q.guard);
    assert WorldWell(hydrated) && SharedSession(hydrated, q.guard) == None;
    HydratingJudgesTheSame(w, Some(cookie), q.guard);
    w1 := Establish(hydrated, q, family);
    AfterCreation(hydrated, q, family);
    RotationJudgesTheSame(hydrated, q, family);
    EstablishIsSound(hydrated, q, family);
    EstablishShows(hydrated, q, family, q.guard);
    assert Get(w1.sessions, id) == Get(w.sessions, id) && Get(w1.sessions, cookie) == Get(w.sessions, cookie);
  }

  lemma MovedBack(w: World, cookie: nat, id: nat, h: Guard, p: Payload, family: nat)
    requires Beside(w, cookie, id, h, p.guard) && OriginalIsOwn(p)
    ensures Shown(Do(w, Some(cookie), LogsIn(p, family)), Some(cookie), h) == None
  {
    hide PayloadsIn, Valid, ValidPayload, RecordWell, Establish, WithRevocation;
    assert Hydrated(w, Some(cookie), p.guard) == w && SharedSession(w, p.guard) == Some(id);
    RotationMovesEverything(w, p, family);
    RotationJudgesTheSame(w, p, family);
    BoundAfterRotation(w, p, family, h);
  }
}
