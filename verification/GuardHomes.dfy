/**
 * Where the payloads of a request's guards are: every guard is at home in the session it is bound to or, not
 * bound yet, in the one of the request's cookie. Each operation keeps the payloads at home, and shows the
 * other guards what they saw; the one exception is exact.
 */
module GuardHomes {
  import opened Prelude
  import opened GuardSessions

  // ---------------------------------------------------------------- what a guard sees, and where it is at home

  /** What a guard would see if it were looked at now. */
  function Shown(w: World, cookie: Option<nat>, g: Guard): Option<Payload> {
    Effective(Hydrated(w, cookie, g), g)
  }

  function Home(w: World, cookie: Option<nat>, g: Guard): Option<nat> {
    if g in w.bound then Some(w.bound[g]) else cookie
  }

  ghost predicate IsHome(w: World, cookie: Option<nat>, id: nat) {
    id in w.sessions && (cookie == Some(id) || exists g :: g in w.bound && w.bound[g] == id)
  }

  /** A payload of a configured guard, in a session that is some guard's home, is at its own guard's home. */
  ghost predicate HomedAt(w: World, cookie: Option<nat>, id: nat, h: Guard) {
    IsHome(w, cookie, id) && h in w.guards && h in PayloadsIn(w.sessions[id]) ==> Home(w, cookie, h) == Some(id)
  }

  /** As long as the cookie's session lives, no guard is bound to another one. */
  ghost predicate AtCookie(w: World, cookie: Option<nat>) {
    cookie.Some? ==> cookie.value < w.nextSession &&
                     (cookie.value in w.sessions ==> forall g :: g in w.bound ==> w.bound[g] == cookie.value)
  }

  ghost predicate Homed(w: World, cookie: Option<nat>) {
    AtCookie(w, cookie) && forall id, h {:trigger HomedAt(w, cookie, id, h)} :: HomedAt(w, cookie, id, h)
  }

  /** Every request starts homed: no guard is bound, or all are bound to the cookie's session. */
  lemma RequestsStartHomed(w: World, cookie: Option<nat>)
    requires cookie.Some? ==> cookie.value < w.nextSession
    requires forall g :: g in w.bound ==> Some(w.bound[g]) == cookie
    ensures Homed(w, cookie)
  {
    forall id, h ensures HomedAt(w, cookie, id, h) { }
  }

  // ---------------------------------------------------------------- what keeps payloads at home

  /** Hydrating a guard gives it the home it would have anyway. */
  lemma HydratingKeeps(w: World, cookie: Option<nat>, g: Guard)
    requires WorldWell(w) && AtCookie(w, cookie)
    ensures Sound(w, Hydrated(w, cookie, g)) && AtCookie(Hydrated(w, cookie, g), cookie)
    ensures Homed(w, cookie) ==> Homed(Hydrated(w, cookie, g), cookie)
    ensures forall h :: Home(Hydrated(w, cookie, g), cookie, h) == Home(w, cookie, h)
    ensures forall h :: Shown(Hydrated(w, cookie, g), cookie, h) == Shown(w, cookie, h)
  {
    hide Effective, PayloadsIn, RecordWell, HomedAt;
    forall h ensures Shown(Hydrated(w, cookie, g), cookie, h) == Shown(w, cookie, h) { HydratingShows(w, cookie, g, h); }
    if Homed(w, cookie) {
      forall id, h ensures HomedAt(Hydrated(w, cookie, g), cookie, id, h) {
        assert HomedAt(w, cookie, id, h);
        HydratingKeepsAt(w, cookie, g, id, h);
      }
    }
  }

  lemma HydratingShows(w: World, cookie: Option<nat>, g: Guard, h: Guard)
    ensures Shown(Hydrated(w, cookie, g), cookie, h) == Shown(w, cookie, h)
  {
  }

  lemma HydratingKeepsAt(w: World, cookie: Option<nat>, g: Guard, id: nat, h: Guard)
    requires HomedAt(w, cookie, id, h)
    ensures HomedAt(Hydrated(w, cookie, g), cookie, id, h)
  {
    hide PayloadsIn;
    var w' := Hydrated(w, cookie, g);
    if IsHome(w', cookie, id) && cookie != Some(id) {
      var k :| k in w'.bound && w'.bound[k] == id;
      assert k in w.bound && w.bound[k] == id;
    }
  }

  /** Writing a session back with fewer guards in it. */
  lemma RewritingKeepsHomes(w: World, cookie: Option<nat>, id: nat, ps: Payloads)
    requires WorldWell(w) && Homed(w, cookie) && id in w.sessions && KeyedByGuard(ps)
    requires ps.Keys <= PayloadsIn(w.sessions[id]).Keys
    ensures Homed(StoreOrEnd(w, id, ps), cookie)
  {
    hide Write, Read, PayloadsIn;
    var w' := StoreOrEnd(w, id, ps);
    WriteThenRead(ps);
    forall i, h ensures HomedAt(w', cookie, i, h) { assert HomedAt(w, cookie, i, h); }
  }

  /** A guard may lose its binding when it has no payload in the session. */
  ghost predicate MayLeave(w: World, g: Guard) {
    g in w.bound && w.bound[g] in w.sessions ==> g !in PayloadsIn(w.sessions[w.bound[g]])
  }

  lemma LeavingKeepsHomes(w: World, cookie: Option<nat>, gs: set<Guard>)
    requires Homed(w, cookie) && forall g :: g in gs ==> MayLeave(w, g)
    ensures Homed(w.(bound := w.bound - gs), cookie)
  {
    var w' := w.(bound := w.bound - gs);
    forall id, h ensures HomedAt(w', cookie, id, h) {
      assert HomedAt(w, cookie, id, h);
      if h in gs { assert MayLeave(w, h); }
    }
  }

  lemma DroppingRevokedKeepsHomes(w: World, cookie: Option<nat>, id: nat)
    requires WorldWell(w) && Homed(w, cookie) && id in w.sessions
    ensures Homed(DropRevoked(w, id), cookie)
  {
    hide Write, Read, PayloadsIn, Valid, ValidPayload, StoreOrEnd, Homed;
    var ps := PayloadsIn(w.sessions[id]);
    assert RecordWell(w.sessions[id]);
    var gs := DroppedGuards(w, id, ps);
    var w1 := StoreOrEnd(w, id, ValidIn(w, ps));
    RewritingKeepsHomes(w, cookie, id, ValidIn(w, ps));
    RewritingStores(w, id, ValidIn(w, ps), w.bound - gs);
    forall g | g in gs ensures MayLeave(w1, g) { }
    LeavingKeepsHomes(w1, cookie, gs);
  }

  lemma RewritingStores(w: World, id: nat, ps: Payloads, bound: map<Guard, nat>)
    requires id in w.sessions && KeyedByGuard(ps)
    ensures var w' := StoreOrEnd(w, id, ps);
            && w'.bound == w.bound && (id in w'.sessions ==> PayloadsIn(w'.sessions[id]) == ps)
            && StoreOrEnd(w.(bound := bound), id, ps) == w'.(bound := bound)
            && forall i :: i != id ==> Get(w'.sessions, i) == Get(w.sessions, i)
  {
    hide Write, Read, PayloadsIn;
    WriteThenRead(ps);
  }

  // ---------------------------------------------------------------- logins

  /** While the cookie's session lives, it is the one a login works on. */
  ghost predicate Anchored(w: World, cookie: Option<nat>, g: Guard) {
    cookie.Some? && cookie.value in w.sessions ==> SharedSession(w, g) == cookie
  }

  lemma {:induction false} FirstBoundIsBound(bound: map<Guard, nat>, guards: seq<Guard>, k: Guard)
    requires k in guards && k in bound
    ensures FirstBound(bound, guards).Some? && exists g :: g in bound && bound[g] == FirstBound(bound, guards).value
  {
    if guards[0] !in bound { FirstBoundIsBound(bound, guards[1..], k); }
  }

  /** A login is anchored once its own guard, or any other one, is bound. */
  lemma BoundIsAnchored(w: World, cookie: Option<nat>, g: Guard, k: Guard)
    requires WorldWell(w) && AtCookie(w, cookie) && k in w.bound
    ensures Anchored(w, cookie, g)
  {
    hide WorldWell;
    if g !in w.bound {
      assert k in w.guards by { KnownGuards(w); }
      FirstBoundIsBound(w.bound - {g}, w.guards, k);
    }
  }

  lemma KnownGuards(w: World)
    requires WorldWell(w)
    ensures forall g :: g in w.bound ==> g in w.guards
  {
  }

  /** The session a login works on is the home of some guard. */
  lemma {:induction false} FirstBoundFrom(bound: map<Guard, nat>, guards: seq<Guard>)
    ensures FirstBound(bound, guards).Some? ==> exists g :: g in bound && bound[g] == FirstBound(bound, guards).value
  {
    if guards != [] && guards[0] !in bound { FirstBoundFrom(bound, guards[1..]); }
  }

  lemma SharedIsHome(w: World, cookie: Option<nat>, g: Guard)
    requires SharedSession(w, g).Some?
    ensures IsHome(w, cookie, SharedSession(w, g).value)
    ensures exists k :: k in w.bound && w.bound[k] == SharedSession(w, g).value
  {
    if g in w.bound {
      assert w.bound[g] == SharedSession(w, g).value;
    } else {
      FirstBoundFrom(w.bound - {g}, w.guards);
      var k :| k in w.bound - {g} && (w.bound - {g})[k] == SharedSession(w, g).value;
      assert k in w.bound && w.bound[k] == SharedSession(w, g).value;
    }
  }

  /** What a login that finds no session does to bindings and records. */
  lemma AfterCreation(w: World, p: Payload, family: nat)
    requires WorldWell(w) && SharedSession(w, p.guard).None?
    ensures var w' := Establish(w, p, family);
            && w'.bound == w.bound[p.guard := w.nextSession] && w'.guards == w.guards && w'.nextSession == w.nextSession + 1
            && w.nextSession in w'.sessions
            && PayloadsIn(w'.sessions[w.nextSession]) == map[p.guard := WithRevocation(w, p, family)]
            && forall i :: i != w.nextSession ==> Get(w'.sessions, i) == Get(w.sessions, i)
  {
    hide Write, Read, PayloadsIn, SharedSession;
    WithRevocationIsSimilar(w, p, family);
    WriteThenRead(map[p.guard := WithRevocation(w, p, family)]);
  }

  lemma CreationKeepsHomes(w: World, cookie: Option<nat>, p: Payload, family: nat)
    requires WorldWell(w) && Homed(w, cookie) && Anchored(w, cookie, p.guard) && SharedSession(w, p.guard).None?
    ensures Homed(Establish(w, p, family), cookie)
  {
    hide PayloadsIn, Establish, RecordWell, WithRevocation;
    var w', g := Establish(w, p, family), p.guard;
    AfterCreation(w, p, family);
    assert cookie.Some? ==> cookie.value !in w.sessions && Get(w'.sessions, cookie.value) == Get(w.sessions, cookie.value);
    forall id, h ensures HomedAt(w', cookie, id, h) {
      assert HomedAt(w, cookie, id, h);
      if id != w.nextSession && IsHome(w', cookie, id) {
        assert Get(w'.sessions, id) == Get(w.sessions, id);
        var k :| k in w'.bound && w'.bound[k] == id;
        assert k in w.bound && w.bound[k] == id;
        assert h == g && h in w.bound ==> w.bound[h] !in w.sessions;
      }
    }
  }

  lemma RotationKeepsHomes(w: World, cookie: Option<nat>, p: Payload, family: nat)
    requires WorldWell(w) && Homed(w, cookie) && Anchored(w, cookie, p.guard) && SharedSession(w, p.guard).Some?
    requires p.guard in w.guards && OriginalIsOwn(p)
    ensures Homed(Establish(w, p, family), cookie)
  {
    hide PayloadsIn, Establish, RecordWell, WithRevocation, SharedSession;
    var w', g, former := Establish(w, p, family), p.guard, SharedSession(w, p.guard).value;
    SharedIsOld(w, g);
    RotationMovesEverything(w, p, family);
    EstablishIsSound(w, p, family);
    forall id, h ensures HomedAt(w', cookie, id, h) { RotationKeepsHome(w, cookie, p, family, id, h); }
    assert cookie.Some? && cookie.value in w'.sessions ==> false by { RotationEndsCookie(w, cookie, p, family); }
  }

  lemma RotationEndsCookie(w: World, cookie: Option<nat>, p: Payload, family: nat)
    requires WorldWell(w) && AtCookie(w, cookie) && Anchored(w, cookie, p.guard) && SharedSession(w, p.guard).Some?
    ensures cookie.Some? ==> cookie.value !in Establish(w, p, family).sessions
  {
    hide SharedSession, WithRevocation;
  }

  lemma RotationKeepsHome(w: World, cookie: Option<nat>, p: Payload, family: nat, id: nat, h: Guard)
    requires WorldWell(w) && Homed(w, cookie) && Anchored(w, cookie, p.guard) && SharedSession(w, p.guard).Some?
    requires p.guard in w.guards && OriginalIsOwn(p)
    ensures HomedAt(Establish(w, p, family), cookie, id, h)
  {
    hide PayloadsIn, Establish, RecordWell, WithRevocation, SharedSession;
    var w', g, former := Establish(w, p, family), p.guard, SharedSession(w, p.guard).value;
    SharedIsOld(w, g);
    SharedIsHome(w, cookie, g);
    RotationMovesEverything(w, p, family);
    RotationEndsCookie(w, cookie, p, family);
    EstablishIsSound(w, p, family);
    BoundAfterRotation(w, p, family, h);
    assert HomedAt(w, cookie, id, h) && HomedAt(w, cookie, former, h);
    if IsHome(w', cookie, id) && id != w.nextSession {
      var k :| k in w'.bound && w'.bound[k] == id;
      BoundAfterRotation(w, p, family, k);
      assert Get(w'.sessions, id) == Get(w.sessions, id);
      assert k in w.bound && w.bound[k] == id && id != former && id in w.sessions;
    }
  }

  lemma EstablishKeepsHomes(w: World, cookie: Option<nat>, p: Payload, family: nat)
    requires WorldWell(w) && Homed(w, cookie) && Anchored(w, cookie, p.guard)
    requires p.guard in w.guards && OriginalIsOwn(p)
    ensures Homed(Establish(w, p, family), cookie)
  {
    if SharedSession(w, p.guard).Some? {
      RotationKeepsHomes(w, cookie, p, family);
    } else {
      CreationKeepsHomes(w, cookie, p, family);
    }
  }

  /** A login shows every other guard what it saw before, bound to the session or not yet. */
  lemma EstablishSpares(w: World, cookie: Option<nat>, p: Payload, family: nat, h: Guard)
    requires WorldWell(w) && Homed(w, cookie) && Anchored(w, cookie, p.guard)
    requires p.guard in w.guards && OriginalIsOwn(p) && h != p.guard
    ensures Shown(Establish(w, p, family), cookie, h) == Shown(w, cookie, h)
  {
    if SharedSession(w, p.guard).Some? {
      RotationSpares(w, cookie, p, family, h);
    } else {
      CreationSpares(w, cookie, p, family, h);
    }
  }

  lemma RotationSpares(w: World, cookie: Option<nat>, p: Payload, family: nat, h: Guard)
    requires WorldWell(w) && Homed(w, cookie) && SharedSession(w, p.guard).Some?
    requires p.guard in w.guards && OriginalIsOwn(p) && h != p.guard
    ensures Shown(Establish(w, p, family), cookie, h) == Shown(w, cookie, h)
  {
    hide PayloadsIn, Establish, RecordWell, WithRevocation, SharedSession, Valid, ValidPayload, Shown;
    var w', former := Establish(w, p, family), SharedSession(w, p.guard).value;
    SharedIsOld(w, p.guard);
    SharedIsHome(w, cookie, p.guard);
    RotationMovesEverything(w, p, family);
    BoundAfterRotation(w, p, family, h);
    EstablishIsSound(w, p, family);
    JudgesTheSame(w, w');
    ShownIsAtHome(w, cookie, h);
    ShownIsAtHome(w', cookie, h);
    assert HomedAt(w, cookie, former, h);
    var home := Home(w, cookie, h);
    if h in MovingGuards(w, former) {
      assert home == Some(former) && Home(w', cookie, h) == Some(w.nextSession);
    } else {
      assert h in w.guards ==> Home(w', cookie, h) == home;
      if home.Some? && home.value != former { assert Get(w'.sessions, home.value) == Get(w.sessions, home.value); }
    }
  }

  lemma CreationSpares(w: World, cookie: Option<nat>, p: Payload, family: nat, h: Guard)
    requires WorldWell(w) && AtCookie(w, cookie) && Anchored(w, cookie, p.guard) && SharedSession(w, p.guard).None?
    requires p.guard in w.guards && OriginalIsOwn(p) && h != p.guard
    ensures Shown(Establish(w, p, family), cookie, h) == Shown(w, cookie, h)
  {
    hide PayloadsIn, Establish, RecordWell, WithRevocation, SharedSession, Valid, ValidPayload, Shown;
    var w' := Establish(w, p, family);
    AfterCreation(w, p, family);
    EstablishIsSound(w, p, family);
    JudgesTheSame(w, w');
    ShownIsAtHome(w, cookie, h);
    ShownIsAtHome(w', cookie, h);
    var home := Home(w, cookie, h);
    assert Home(w', cookie, h) == home;
    if home.Some? { assert Get(w'.sessions, home.value) == Get(w.sessions, home.value); }
  }

  // ---------------------------------------------------------------- what else shows the same

  /** The payload, unless it was revoked. */
  function Counting(w: World, p: Option<Payload>): Option<Payload> {
    if p.Some? && ValidPayload(w, p.value) then p else None
  }

  lemma ShownIsAtHome(w: World, cookie: Option<nat>, h: Guard)
    requires WorldWell(w)
    ensures Shown(w, cookie, h) ==
            var home := Home(w, cookie, h);
            if h in w.guards && home.Some? && home.value in w.sessions
            then Counting(w, Get(PayloadsIn(w.sessions[home.value]), h)) else None
  {
    hide PayloadsIn, RecordWell, Valid, ValidPayload;
    HydratingJudgesTheSame(w, cookie, h);
  }

  lemma HydratingJudgesTheSame(w: World, cookie: Option<nat>, h: Guard)
    ensures forall p :: ValidPayload(Hydrated(w, cookie, h), p) <==> ValidPayload(w, p)
  {
  }

  lemma RewritingSpares(w: World, cookie: Option<nat>, id: nat, ps: Payloads, h: Guard)
    requires WorldWell(w) && id in w.sessions && KeyedByGuard(ps) && forall g :: g in ps ==> OriginalIsOwn(ps[g])
    requires Counting(w, Get(ps, h)) == Counting(w, Get(PayloadsIn(w.sessions[id]), h))
    ensures Shown(StoreOrEnd(w, id, ps), cookie, h) == Shown(w, cookie, h)
  {
    hide PayloadsIn, RecordWell, Valid, ValidPayload, StoreOrEnd, Shown;
    var w' := StoreOrEnd(w, id, ps);
    RewritingStores(w, id, ps, w.bound);
    StoreIsSound(w, id, ps);
    StoreKeepsValidity(w, id, ps);
    JudgesTheSame(w, w');
    EndedWhenEmpty(w, id, ps);
    ShownIsAtHome(w, cookie, h);
    ShownIsAtHome(w', cookie, h);
    var home := Home(w, cookie, h);
    if home.Some? && home.value != id { assert Get(w'.sessions, home.value) == Get(w.sessions, home.value); }
  }

  lemma JudgesTheSame(w: World, w': World)
    requires w'.revocations == w.revocations
    ensures forall p :: ValidPayload(w', p) <==> ValidPayload(w, p)
  {
  }

  lemma EndedWhenEmpty(w: World, id: nat, ps: Payloads)
    requires id in w.sessions
    ensures id !in StoreOrEnd(w, id, ps).sessions ==> ps == map[]
  {
  }

  lemma LeavingSpares(w: World, cookie: Option<nat>, gs: set<Guard>, h: Guard)
    requires WorldWell(w) && AtCookie(w, cookie) && (h in gs ==> Effective(w, h) == None)
    ensures WorldWell(w.(bound := w.bound - gs)) && Shown(w.(bound := w.bound - gs), cookie, h) == Shown(w, cookie, h)
  {
    hide PayloadsIn, RecordWell, Valid, ValidPayload, Shown;
    JudgesTheSame(w, w.(bound := w.bound - gs));
    ShownIsAtHome(w, cookie, h);
    ShownIsAtHome(w.(bound := w.bound - gs), cookie, h);
  }

  lemma DroppingRevokedSpares(w: World, cookie: Option<nat>, id: nat, h: Guard)
    requires WorldWell(w) && Homed(w, cookie) && id in w.sessions
    ensures Shown(DropRevoked(w, id), cookie, h) == Shown(w, cookie, h)
  {
    hide Write, Read, PayloadsIn, Valid, StoreOrEnd, HomedAt, Shown;
    var ps := PayloadsIn(w.sessions[id]);
    assert RecordWell(w.sessions[id]);
    var gs := DroppedGuards(w, id, ps);
    var w1 := StoreOrEnd(w, id, ValidIn(w, ps));
    RewritingKeepsHomes(w, cookie, id, ValidIn(w, ps));
    RewritingStores(w, id, ValidIn(w, ps), w.bound - gs);
    RewritingSpares(w, cookie, id, ValidIn(w, ps), h);
    StoreIsSound(w, id, ValidIn(w, ps));
    if h in gs { NotThere(w1, id, h); }
    LeavingSpares(w1, cookie, gs, h);
  }

  lemma NotThere(w: World, id: nat, h: Guard)
    requires Get(w.bound, h) == Some(id) || h !in w.bound
    requires id in w.sessions ==> h !in PayloadsIn(w.sessions[id])
    ensures Effective(w, h) == None
  {
  }

  // ---------------------------------------------------------------- one operation

  /** Records stay well formed, payloads at home, and nobody but `g` sees a difference. */
  ghost predicate Spared(w: World, w': World, cookie: Option<nat>, g: Guard) {
    Sound(w, w') && Homed(w', cookie) && forall h :: h != g ==> Shown(w', cookie, h) == Shown(w, cookie, h)
  }

  lemma ReadingSpares(w: World, cookie: Option<nat>, g: Guard)
    requires WorldWell(w) && Homed(w, cookie)
    ensures Sound(w, ReadState(w, g).0) && Homed(ReadState(w, g).0, cookie) && ReadState(w, g).1 == Effective(w, g)
    ensures forall h :: Effective(ReadState(w, g).0, h) == Effective(w, h) && Shown(ReadState(w, g).0, cookie, h) == Shown(w, cookie, h)
  {
    hide DropRevoked, Effective, Homed, WorldWell, Shown;
    ReadStateShowsTheSame(w, g);
    if g in w.bound && w.bound[g] in w.sessions {
      DroppingRevokedKeepsHomes(w, cookie, w.bound[g]);
      forall h ensures Shown(ReadState(w, g).0, cookie, h) == Shown(w, cookie, h) {
        DroppingRevokedSpares(w, cookie, w.bound[g], h);
      }
    }
  }

  lemma SparedByReading(w: World, cookie: Option<nat>, g: Guard)
    requires WorldWell(w) && Homed(w, cookie)
    ensures Spared(w, ReadState(w, g).0, cookie, g)
  {
    hide DropRevoked, Effective, Homed, WorldWell, Shown, ReadState;
    ReadingSpares(w, cookie, g);
  }

  /** Taking the payload of one guard out of its session, or replacing it. */
  lemma ReplacingSpares(w: World, cookie: Option<nat>, g: Guard, ps: Payloads)
    requires WorldWell(w) && Homed(w, cookie) && g in w.bound && w.bound[g] in w.sessions
    requires KeyedByGuard(ps) && forall h :: h in ps ==> OriginalIsOwn(ps[h])
    requires var was := PayloadsIn(w.sessions[w.bound[g]]);
             ps.Keys <= was.Keys && forall h :: h != g ==> Get(ps, h) == Get(was, h)
    ensures Spared(w, StoreOrEnd(w, w.bound[g], ps), cookie, g)
    ensures g !in ps ==> Spared(w, Unbind(StoreOrEnd(w, w.bound[g], ps), g), cookie, g)
  {
    hide PayloadsIn, RecordWell, HomedAt, Valid, ValidPayload, StoreOrEnd, Shown, Effective;
    var id := w.bound[g];
    var w1 := StoreOrEnd(w, id, ps);
    StoreIsSound(w, id, ps);
    RewritingKeepsHomes(w, cookie, id, ps);
    RewritingStores(w, id, ps, w.bound);
    forall h | h != g ensures Shown(w1, cookie, h) == Shown(w, cookie, h) { RewritingSpares(w, cookie, id, ps, h); }
    if g !in ps {
      LeavingSparesOthers(w1, cookie, g);
    }
  }

  lemma LeavingSparesOthers(w: World, cookie: Option<nat>, g: Guard)
    requires WorldWell(w) && Homed(w, cookie) && MayLeave(w, g)
    ensures Spared(w, Unbind(w, g), cookie, g)
  {
    hide PayloadsIn, RecordWell, HomedAt, Shown, Effective;
    UnbindHides(w, g);
    LeavingKeepsHomes(w, cookie, {g});
    assert w.bound - {g} == Unbind(w, g).bound;
    forall h | h != g ensures Shown(Unbind(w, g), cookie, h) == Shown(w, cookie, h) { LeavingSpares(w, cookie, {g}, h); }
  }

  lemma SparedTwice(w: World, w1: World, w2: World, cookie: Option<nat>, g: Guard)
    requires Sound(w, w1) && (forall h :: h != g ==> Shown(w1, cookie, h) == Shown(w, cookie, h)) && Spared(w1, w2, cookie, g)
    ensures Spared(w, w2, cookie, g)
  {
    hide Shown, Homed;
  }

  lemma StoredWithPayload(w: World, id: nat, ps: Payloads, g: Guard)
    requires id in w.sessions && g in ps
    ensures StoreOrEnd(w, id, ps) == Store(w, id, ps)
  {
  }

  lemma StoppingSpares(w: World, cookie: Option<nat>, g: Guard)
    requires WorldWell(w) && Homed(w, cookie)
    ensures Spared(w, Stop(w, g).0, cookie, g)
  {
    hide Write, DropRevoked, ReadState, Homed, Shown, StoreOrEnd, Valid, Spared;
    var (w1, p) := ReadState(w, g);
    ReadingSpares(w, cookie, g);
    if p.None? || p.value.impersonation.None? || g !in w1.bound || w1.bound[g] !in w1.sessions {
      assert Spared(w, w1, cookie, g) by { SparedByReading(w, cookie, g); }
    } else {
      var id := w1.bound[g];
      var ps := PayloadsIn(w1.sessions[id]);
      assert RecordWell(w1.sessions[id]) && ps[g] == p.value && OriginalIsOwn(ps[g]);
      var o := p.value.impersonation.value.original;
      if o.Some? && o.value.identity in w1.users && Valid(w1, o.value.identity, o.value.revocation) {
        var ps' := ps[g := Payload(o.value.guard, o.value.identity, o.value.revocation, None, false)];
        ReplacingSpares(w1, cookie, g, ps');
        StoredWithPayload(w1, id, ps', g);
        SparedTwice(w, w1, StoreOrEnd(w1, id, ps'), cookie, g);
      } else {
        ReplacingSpares(w1, cookie, g, ps - {g});
        SparedTwice(w, w1, Unbind(StoreOrEnd(w1, id, ps - {g}), g), cookie, g);
      }
    }
  }

  /** The guard ends more than its own part of a session when it has no payload there. */
  ghost predicate EndsOnlyItself(w: World, g: Guard) {
    g in w.bound && w.bound[g] in w.sessions ==> g in PayloadsIn(w.sessions[w.bound[g]])
  }

  lemma LoggingOutKeepsHomes(w: World, cookie: Option<nat>, g: Guard)
    requires WorldWell(w) && Homed(w, cookie)
    ensures Sound(w, Logout(w, g)) && Homed(Logout(w, g), cookie)
    ensures EndsOnlyItself(w, g) ==> Spared(w, Logout(w, g), cookie, g)
    ensures forall h :: h != g && Home(w, cookie, h) != Home(w, cookie, g) ==> Shown(Logout(w, g), cookie, h) == Shown(w, cookie, h)
  {
    hide Write, Read, PayloadsIn, Homed, Shown, StoreOrEnd, Valid, Spared, RecordWell, Effective;
    LogoutIsolatesExactly(w, g);
    if g !in w.bound {
      SparedByNothing(w, cookie, g);
    } else {
      var id := w.bound[g];
      if id !in w.sessions {
        LeavingSparesOthers(w, cookie, g);
        SparesOthers(w, Unbind(w, g), cookie, g);
      } else if g in PayloadsIn(w.sessions[id]) {
        var ps := PayloadsIn(w.sessions[id]);
        assert RecordWell(w.sessions[id]);
        WellPayloads(w.sessions[id]);
        ReplacingSpares(w, cookie, g, ps - {g});
        SparesOthers(w, Logout(w, g), cookie, g);
      } else {
        EndingKeepsHomes(w, cookie, g);
      }
    }
  }

  lemma WellPayloads(r: Record)
    requires RecordWell(r)
    ensures KeyedByGuard(PayloadsIn(r)) && forall g :: g in PayloadsIn(r) ==> OriginalIsOwn(PayloadsIn(r)[g])
  {
  }

  lemma SparedByNothing(w: World, cookie: Option<nat>, g: Guard)
    requires WorldWell(w) && Homed(w, cookie)
    ensures Spared(w, w, cookie, g)
  {
    hide WorldWell, Homed, Shown;
    assert WorldWell(w);
  }

  lemma SparesOthers(w: World, w': World, cookie: Option<nat>, g: Guard)
    requires Spared(w, w', cookie, g)
    ensures Homed(w', cookie) && forall h :: h != g ==> Shown(w', cookie, h) == Shown(w, cookie, h)
  {
    hide Homed, Shown;
  }

  /** A logout without a payload ends the session for everybody at home there, and for nobody else. */
  lemma EndingKeepsHomes(w: World, cookie: Option<nat>, g: Guard)
    requires WorldWell(w) && Homed(w, cookie) && g in w.bound && w.bound[g] in w.sessions
    requires g !in PayloadsIn(w.sessions[w.bound[g]])
    ensures Homed(Logout(w, g), cookie)
    ensures forall h :: h != g && Home(w, cookie, h) != Home(w, cookie, g) ==> Shown(Logout(w, g), cookie, h) == Shown(w, cookie, h)
  {
    hide PayloadsIn, RecordWell, HomedAt, Shown, Valid, ValidPayload;
    var id := w.bound[g];
    var w1 := StoreOrEnd(w, id, map[]);
    assert w1 == Invalidate(w, id);
    RewritingKeepsHomes(w, cookie, id, map[]);
    LeavingSparesOthers(w1, cookie, g);
    JudgesTheSame(w, w1);
    forall h | h != g && Home(w, cookie, h) != Home(w, cookie, g) ensures Shown(Logout(w, g), cookie, h) == Shown(w, cookie, h) {
      ShownIsAtHome(w, cookie, h);
      ShownIsAtHome(w1, cookie, h);
    }
  }

  // ---------------------------------------------------------------- revoked payloads written back

  /** The guard's user no longer exists, so its payload is taken out of the record read before. */
  ghost predicate WritesBack(w: World, g: Guard) {
    && g in w.bound && w.bound[g] in w.sessions && Effective(w, g).Some?
    && var p := Effective(w, g).value;
       !p.challenge && p.impersonation.None? && p.identity !in w.users
  }

  /** A revoked payload of another configured guard is in the record, and somebody stays bound to it. */
  ghost predicate RevokedStays(w: World, cookie: Option<nat>, g: Guard)
    requires g in w.bound && w.bound[g] in w.sessions
  {
    var id := w.bound[g];
    var ps := PayloadsIn(w.sessions[id]);
    && cookie != Some(id)
    && (exists h :: h in w.guards && h != g && h in ps && !ValidPayload(w, ps[h]))
    && (exists k :: k != g && k in w.bound && w.bound[k] == id && (k in ps ==> ValidPayload(w, ps[k])))
  }

  lemma WritingBackIs(w: World, g: Guard)
    requires WorldWell(w) && WritesBack(w, g)
    ensures var id := w.bound[g]; var ps := PayloadsIn(w.sessions[id]);
            var w1 := DropRevoked(w, id);
            && id in w1.sessions && Resolve(w, g).0 == Unbind(StoreOrEnd(w1, id, ps - {g}), g)
            && w1.bound == w.bound - (set h | h in ps && !ValidPayload(w, ps[h]) && (h in w.bound ==> w.bound[h] == id))
            && w1.guards == w.guards
            && PayloadsIn(w1.sessions[id]) == ValidIn(w, ps)
            && (forall i :: i != id ==> Get(w1.sessions, i) == Get(w.sessions, i))
  {
    hide Write, Read, PayloadsIn, Valid, ValidPayload;
    var id := w.bound[g];
    var ps := PayloadsIn(w.sessions[id]);
    assert RecordWell(w.sessions[id]);
    WellPayloads(w.sessions[id]);
    assert g in ValidIn(w, ps);
    DroppingIs(w, id);
  }

  lemma DroppingIs(w: World, id: nat)
    requires WorldWell(w) && id in w.sessions
    ensures var ps := PayloadsIn(w.sessions[id]); var w1 := DropRevoked(w, id);
            && w1.bound == w.bound - DroppedGuards(w, id, ps) && w1.guards == w.guards
            && (ValidIn(w, ps) != map[] ==> id in w1.sessions && PayloadsIn(w1.sessions[id]) == ValidIn(w, ps))
            && (forall i :: i != id ==> Get(w1.sessions, i) == Get(w.sessions, i))
  {
    hide Write, Read, PayloadsIn;
    var ps := PayloadsIn(w.sessions[id]);
    assert RecordWell(w.sessions[id]);
    WellPayloads(w.sessions[id]);
    AllOrSome(w, ps);
    RewritingStores(w, id, ValidIn(w, ps), w.bound - DroppedGuards(w, id, ps));
    if ValidIn(w, ps) == ps { assert DroppedGuards(w, id, ps) == {}; assert w.bound - {} == w.bound; }
  }

  lemma AllOrSome(w: World, ps: Payloads)
    ensures |ValidIn(w, ps)| == |ps| <==> ValidIn(w, ps) == ps
    ensures w.revocations.None? || |ps| == 0 ==> ValidIn(w, ps) == ps
  {
    var valid := ValidIn(w, ps);
    assert valid.Keys <= ps.Keys;
    if |valid| == |ps| {
      assert |valid.Keys| == |ps.Keys|;
      SubsetOfSameSize(valid.Keys, ps.Keys);
    }
  }

  lemma SubsetOfSameSize<T>(a: set<T>, b: set<T>)
    requires a <= b && |a| == |b|
    ensures a == b
  {
    assert b == a + (b - a);
    assert |b - a| == 0;
  }

  /** The written record keeps every payload at home, unless a revoked one stays in a session others are bound to. */
  lemma WritingBackKeepsHomesExactly(w: World, cookie: Option<nat>, g: Guard)
    requires WorldWell(w) && Homed(w, cookie) && WritesBack(w, g)
    ensures Homed(Resolve(w, g).0, cookie) <==> !RevokedStays(w, cookie, g)
  {
    hide PayloadsIn, RecordWell, Valid, ValidPayload, Resolve, DropRevoked, Effective;
    var id := w.bound[g];
    var ps := PayloadsIn(w.sessions[id]);
    var w' := WrittenBack(w, g);
    if RevokedStays(w, cookie, g) {
      var h :| h in w.guards && h != g && h in ps && !ValidPayload(w, ps[h]);
      var k :| k != g && k in w.bound && w.bound[k] == id && (k in ps ==> ValidPayload(w, ps[k]));
      assert k in w'.bound && w'.bound[k] == id;
      assert HomedAt(w, cookie, id, h);
      assert h in ps - {g} && h !in w'.bound;
      assert !HomedAt(w', cookie, id, h);
    } else {
      if cookie.Some? { assert cookie.value == id || Get(w'.sessions, cookie.value) == Get(w.sessions, cookie.value); }
      forall k | k in w'.bound ensures k in w.bound && w'.bound[k] == w.bound[k] { }
      forall i, h ensures HomedAt(w', cookie, i, h) { WritingBackKeepsHome(w, cookie, g, i, h); }
    }
  }

  /** The world after a record was written back. */
  lemma WrittenBack(w: World, g: Guard) returns (w': World)
    requires WorldWell(w) && WritesBack(w, g)
    ensures w' == Resolve(w, g).0 && w'.guards == w.guards && w'.nextSession == w.nextSession
    ensures var id := w.bound[g]; var ps := PayloadsIn(w.sessions[id]);
            && w'.bound == w.bound - (set h | h in ps && !ValidPayload(w, ps[h]) && (h in w.bound ==> w.bound[h] == id)) - {g}
            && (if ps - {g} == map[] then id !in w'.sessions else id in w'.sessions && PayloadsIn(w'.sessions[id]) == ps - {g})
            && (forall i :: i != id ==> Get(w'.sessions, i) == Get(w.sessions, i))
  {
    hide PayloadsIn, RecordWell, Valid, ValidPayload, Resolve, DropRevoked, Effective, Write, WorldWell;
    var id := w.bound[g];
    assert RecordWell(w.sessions[id]) by { KnownRecords(w); }
    WellPayloads(w.sessions[id]);
    WritingBackIs(w, g);
    var w1 := DropRevoked(w, id);
    var ps := PayloadsIn(w.sessions[id]) - {g};
    RewritingStores(w1, id, ps, w1.bound);
    DroppingKeepsNext(w, id);
    w' := Resolve(w, g).0;
  }

  lemma KnownRecords(w: World)
    requires WorldWell(w)
    ensures forall id :: id in w.sessions ==> RecordWell(w.sessions[id])
  {
  }

  lemma DroppingKeepsNext(w: World, id: nat)
    requires id in w.sessions
    ensures DropRevoked(w, id).nextSession == w.nextSession
  {
  }

  lemma WritingBackKeepsHome(w: World, cookie: Option<nat>, g: Guard, i: nat, h: Guard)
    requires WorldWell(w) && Homed(w, cookie) && WritesBack(w, g) && !RevokedStays(w, cookie, g)
    ensures HomedAt(Resolve(w, g).0, cookie, i, h)
  {
    hide PayloadsIn, RecordWell, Valid, ValidPayload, Resolve, DropRevoked, Effective;
    var id := w.bound[g];
    var w' := WrittenBack(w, g);
    var ps := PayloadsIn(w.sessions[id]);
    assert HomedAt(w, cookie, i, h) && HomedAt(w, cookie, id, h);
    if IsHome(w', cookie, i) && h in w.guards && h in PayloadsIn(w'.sessions[i]) {
      assert Get(w'.sessions, i) == Get(w.sessions, i) || i == id;
      if cookie != Some(i) {
        var k :| k in w'.bound && w'.bound[k] == i;
        assert k in w.bound && w.bound[k] == i && k != g;
      }
    }
  }

  /** Whoever is revoked sees nothing before and after, and nobody else's payload is touched. */
  lemma WritingBackSpares(w: World, cookie: Option<nat>, g: Guard, h: Guard)
    requires WorldWell(w) && Homed(w, cookie) && WritesBack(w, g) && h != g
    ensures Shown(Resolve(w, g).0, cookie, h) == Shown(w, cookie, h)
  {
    hide PayloadsIn, RecordWell, Valid, ValidPayload, Resolve, DropRevoked, Effective, Shown, HomedAt;
    var id := w.bound[g];
    var w' := WrittenBack(w, g);
    ResolveIsolates(w, g);
    JudgesTheSame(w, w');
    ShownIsAtHome(w, cookie, h);
    ShownIsAtHome(w', cookie, h);
    var home := Home(w, cookie, h);
    if home.Some? && home.value != id { assert Get(w'.sessions, home.value) == Get(w.sessions, home.value); }
    if cookie.Some? && cookie.value != id { assert Get(w'.sessions, cookie.value) == Get(w.sessions, cookie.value); }
    var ps := PayloadsIn(w.sessions[id]);
    assert Get(ps, h) == Get(ps - {g}, h);
    if h in w.bound && h !in w'.bound {
      assert Counting(w, Get(ps, h)) == None;
    } else {
      assert Home(w', cookie, h) == home;
    }
  }

  ghost predicate LeavesRevoked(w: World, cookie: Option<nat>, g: Guard) {
    WritesBack(w, g) && RevokedStays(w, cookie, g)
  }

  /** Resolving a user keeps payloads at home exactly when it does not leave a revoked one to others. */
  lemma ResolvingKeepsHomesExactly(w: World, cookie: Option<nat>, g: Guard)
    requires WorldWell(w) && Homed(w, cookie)
    ensures Sound(w, Resolve(w, g).0)
    ensures Homed(Resolve(w, g).0, cookie) <==> !LeavesRevoked(w, cookie, g)
    ensures forall h :: h != g ==> Shown(Resolve(w, g).0, cookie, h) == Shown(w, cookie, h)
  {
    ResolveIsolates(w, g);
    if WritesBack(w, g) {
      hide Write, Read, DropRevoked, Stop, ReadState, Effective, PayloadsIn, Valid, StoreOrEnd, Homed, Shown, Resolve, RevokedStays;
      WritingBackKeepsHomesExactly(w, cookie, g);
      forall h | h != g ensures Shown(Resolve(w, g).0, cookie, h) == Shown(w, cookie, h) { WritingBackSpares(w, cookie, g, h); }
    } else {
      ResolvingSpares(w, cookie, g);
      hide *;
      SparesOthers(w, Resolve(w, g).0, cookie, g);
    }
  }

  lemma ResolvingSpares(w: World, cookie: Option<nat>, g: Guard)
    requires WorldWell(w) && Homed(w, cookie) && !WritesBack(w, g)
    ensures Spared(w, Resolve(w, g).0, cookie, g)
  {
    hide Write, Read, DropRevoked, Stop, Effective, PayloadsIn, Valid, StoreOrEnd, Homed, Shown, Spared, RecordWell;
    SparedByNothing(w, cookie, g);
    if g in w.bound && w.bound[g] !in w.sessions {
      LeavingSparesOthers(w, cookie, g);
    } else if g in w.bound {
      var (w1, p) := ReadState(w, g);
      ReadingSpares(w, cookie, g);
      SparedByReading(w, cookie, g);
      if p.None? {
        RevokedIsGone(w, g);
        LeavingSparesOthers(w1, cookie, g);
        SparedTwice(w, w1, Unbind(w1, g), cookie, g);
      } else {
        StoppingSpares(w1, cookie, g);
        SparedTwice(w, w1, Stop(w1, g).0, cookie, g);
        StillThere(w, g);
      }
    }
  }

  /** A guard whose payload does not count has none left after reading. */
  lemma RevokedIsGone(w: World, g: Guard)
    requires WorldWell(w) && Effective(w, g) == None && g in w.bound && w.bound[g] in w.sessions
    ensures MayLeave(ReadState(w, g).0, g)
  {
    hide Write, Read, PayloadsIn, Valid, DropRevoked;
    var id := w.bound[g];
    DroppingIs(w, id);
    if ValidIn(w, PayloadsIn(w.sessions[id])) == map[] { DroppingEnds(w, id); }
  }

  lemma DroppingEnds(w: World, id: nat)
    requires WorldWell(w) && id in w.sessions && ValidIn(w, PayloadsIn(w.sessions[id])) == map[]
    ensures id in DropRevoked(w, id).sessions ==> PayloadsIn(DropRevoked(w, id).sessions[id]) == map[]
  {
    hide Write, Read, PayloadsIn, Valid;
    if |PayloadsIn(w.sessions[id])| == 0 { assert PayloadsIn(w.sessions[id]) == map[]; }
    if w.revocations.None? { AllOrSome(w, PayloadsIn(w.sessions[id])); }
  }

  lemma StillThere(w: World, g: Guard)
    requires WorldWell(w) && g in w.bound && w.bound[g] in w.sessions && Effective(w, g).Some?
    ensures w.bound[g] in ReadState(w, g).0.sessions
  {
    hide Write, Read, PayloadsIn, Valid, DropRevoked;
    DroppingIs(w, w.bound[g]);
    assert g in ValidIn(w, PayloadsIn(w.sessions[w.bound[g]]));
  }

  /** Impersonating keeps payloads at home exactly when resolving the actor does. */
  lemma ImpersonatingKeepsHomesExactly(w: World, cookie: Option<nat>, g: Guard, actorGuard: Guard, target: Identity, family: nat)
    requires WorldWell(w) && Homed(w, cookie) && g in w.guards
    ensures var w' := Impersonate(w, g, actorGuard, target, family).0;
            && Sound(w, w') && (Homed(w', cookie) <==> !LeavesRevoked(w, cookie, actorGuard))
            && forall h :: h != g && h != actorGuard ==> Shown(w', cookie, h) == Shown(w, cookie, h)
  {
    hide Write, Read, Establish, DropRevoked, Resolve, ReadState, Effective, WithRevocation, WorldWell, Valid, Homed, Shown, LeavesRevoked;
    ImpersonateExactly(w, g, actorGuard, target, family);
    ResolvingKeepsHomesExactly(w, cookie, actorGuard);
    var (w1, actor) := Resolve(w, actorGuard);
    if LeavesRevoked(w, cookie, actorGuard) {
      ActorIsGone(w, cookie, actorGuard);
    } else {
      ReadingSpares(w1, cookie, actorGuard);
      var (w2, actorPayload) := ReadState(w1, actorGuard);
      ReadingSpares(w2, cookie, g);
      var (w3, current) := ReadState(w2, g);
      if actor.Some? && actorPayload.Some? && actorPayload.value.impersonation.None?
         && !(current.Some? && current.value.impersonation.Some?) && target in w3.users {
        var im := Impersonation(Remember(actorPayload.value), if current.Some? then Some(Remember(current.value)) else None);
        var p := Payload(g, target, None, Some(im), false);
        if current.Some? { EffectiveIsKeyed(w2, g); }
        SeenIsBound(w3, actorGuard);
        AtCookieWhenHomed(w3, cookie);
        BoundIsAnchored(w3, cookie, g, actorGuard);
        EstablishKeepsHomes(w3, cookie, p, family);
        forall h | h != g && h != actorGuard ensures Shown(Establish(w3, p, family), cookie, h) == Shown(w, cookie, h) {
          EstablishSpares(w3, cookie, p, family, h);
        }
      }
    }
  }

  lemma AtCookieWhenHomed(w: World, cookie: Option<nat>)
    requires Homed(w, cookie)
    ensures AtCookie(w, cookie)
  {
  }

  lemma SeenIsBound(w: World, g: Guard)
    requires Effective(w, g).Some?
    ensures g in w.bound
  {
  }

  lemma ActorIsGone(w: World, cookie: Option<nat>, g: Guard)
    requires LeavesRevoked(w, cookie, g) && WorldWell(w)
    ensures Resolve(w, g).1 == None && ReadState(Resolve(w, g).0, g).0 == Resolve(w, g).0
  {
    hide Write, Read, DropRevoked, PayloadsIn, Valid, Effective, StoreOrEnd;
    WritingBackIs(w, g);
  }
}
