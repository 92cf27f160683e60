/**
 * One session record holds the payloads of several guards. Login, impersonation, its end, and logout each
 * rewrite part of it; these functions say what they do to the stored records and to the request's bindings
 * of guards to session ids (packages/auth/src/runtime.ts and runtime/sessionPayloads.ts).
 */
module GuardSessions {
  import opened Prelude

  type Guard = string

  datatype Identity = Identity(provider: string, userId: string)

  datatype Revocation = Revocation(id: nat, generation: nat)

  /** `SessionIdentityPayload`: what an impersonation remembers; it cannot itself be an impersonation. */
  datatype Remembered = Remembered(guard: Guard, identity: Identity, revocation: Option<Revocation>)

  datatype Impersonation = Impersonation(actor: Remembered, original: Option<Remembered>)

  datatype Payload = Payload(guard: Guard, identity: Identity, revocation: Option<Revocation>,
                             impersonation: Option<Impersonation>, challenge: bool)

  type Payloads = map<Guard, Payload>

  /** How the payloads are stored: nothing, a single one bare, or an object keyed by guard. */
  datatype AuthData = Absent | Bare(payload: Payload) | Keyed(payloads: Payloads)

  /** A stored record; `rest` stands for all its other data, which no operation here changes. */
  datatype Record = Record(auth: AuthData, rest: nat)

  /** The revocation store's state of an identity. */
  datatype Revoked = Revoked(generation: nat, retained: Option<nat>)

  /**
   * The stored records, the request's bindings, and what is only read: the configured session guards, the
   * existing users and, when it is configured, the revocation store.
   */
  datatype World = World(sessions: map<nat, Record>, bound: map<Guard, nat>, nextSession: nat,
                         guards: seq<Guard>, users: set<Identity>, revocations: Option<map<Identity, Revoked>>)

  // ---------------------------------------------------------------- storing payloads

  ghost predicate KeyedByGuard(ps: Payloads) {
    forall g :: g in ps ==> ps[g].guard == g
  }

  lemma OnlyKey(ps: Payloads)
    requires |ps| == 1
    ensures exists g :: g in ps
    ensures forall g, h :: g in ps && h in ps ==> g == h
  {
    assert |ps.Keys| == 1;
    var g :| ps.Keys == {g} by { OneElement(ps.Keys); }
    assert g in ps.Keys;
  }

  lemma OneElement<T>(s: set<T>)
    requires |s| == 1
    ensures exists x :: s == {x}
  {
    var x :| x in s;
    assert |s - {x}| == 0;
    assert s == {x};
  }

  /** `writeSessionPayloads`. */
  function Write(ps: Payloads): AuthData {
    if |ps| == 0 then Absent
    else if |ps| == 1 then
      OnlyKey(ps);
      var g :| g in ps;
      Bare(ps[g])
    else Keyed(ps)
  }

  /** `readSessionPayloads`; no payloads read as nothing. */
  function Read(auth: AuthData): Option<Payloads> {
    match auth
    case Absent => None
    case Bare(p) => Some(map[p.guard := p])
    case Keyed(ps) => if |ps| == 0 then None else Some(ps)
  }

  function PayloadsIn(r: Record): Payloads {
    var ps := Read(r.auth);
    if ps.Some? then ps.value else map[]
  }

  /** What is written is read back, however many guards there are. */
  lemma WriteThenRead(ps: Payloads)
    requires KeyedByGuard(ps)
    ensures Read(Write(ps)) == if |ps| == 0 then None else Some(ps)
    ensures forall rest :: PayloadsIn(Record(Write(ps), rest)) == ps
  {
    if |ps| == 1 {
      OnlyKey(ps);
      var g :| g in ps;
      assert ps == map[g := ps[g]];
    }
  }

  /** Payloads are stored under their guard, and an impersonation remembers its own guard's former payload. */
  ghost predicate RecordWell(r: Record) {
    && KeyedByGuard(PayloadsIn(r))
    && forall g :: g in PayloadsIn(r) ==> OriginalIsOwn(PayloadsIn(r)[g])
  }

  predicate OriginalIsOwn(p: Payload) {
    p.impersonation.Some? && p.impersonation.value.original.Some? ==> p.impersonation.value.original.value.guard == p.guard
  }

  ghost predicate WorldWell(w: World) {
    && (forall id :: id in w.sessions ==> id < w.nextSession && RecordWell(w.sessions[id]))
    && (forall g :: g in w.bound ==> w.bound[g] < w.nextSession && g in w.guards)
  }

  // ---------------------------------------------------------------- what a guard sees

  function StateOf(revocations: map<Identity, Revoked>, i: Identity): Revoked {
    if i in revocations then revocations[i] else Revoked(0, None)
  }

  /** `sessionIdentityValid`, when a revocation store is configured. */
  predicate Valid(w: World, i: Identity, r: Option<Revocation>) {
    w.revocations.None? ||
    (r.Some? && (r.value.generation == StateOf(w.revocations.value, i).generation
                 || Some(r.value.id) == StateOf(w.revocations.value, i).retained))
  }

  predicate ValidPayload(w: World, p: Payload) {
    Valid(w, p.identity, p.revocation)
  }

  /** The payloads of the session a guard is bound to. */
  function PayloadsOf(w: World, g: Guard): Payloads {
    if g in w.bound && w.bound[g] in w.sessions then PayloadsIn(w.sessions[w.bound[g]]) else map[]
  }

  /** The payload that counts for a guard: stored in the session it is bound to, and not revoked. */
  function Effective(w: World, g: Guard): Option<Payload> {
    var p := Get(PayloadsOf(w, g), g);
    if p.Some? && ValidPayload(w, p.value) then p else None
  }

  // ---------------------------------------------------------------- operations

  /** `hydrateGuardContextFromRequest`: an unbound session guard takes the id from the request's cookie. */
  function Hydrated(w: World, cookie: Option<nat>, g: Guard): World {
    if g in w.guards && g !in w.bound && cookie.Some? then w.(bound := w.bound[g := cookie.value]) else w
  }

  function Store(w: World, id: nat, ps: Payloads): World
    requires id in w.sessions
  {
    w.(sessions := w.sessions[id := w.sessions[id].(auth := Write(ps))])
  }

  function Invalidate(w: World, id: nat): World {
    w.(sessions := w.sessions - {id})
  }

  function Unbind(w: World, g: Guard): World {
    w.(bound := w.bound - {g})
  }

  /** Keep the payloads, or end the session that would have none. */
  function StoreOrEnd(w: World, id: nat, ps: Payloads): World
    requires id in w.sessions
  {
    if |ps| == 0 then Invalidate(w, id) else Store(w, id, ps)
  }

  function ValidIn(w: World, ps: Payloads): Payloads {
    map g | g in ps && ValidPayload(w, ps[g]) :: ps[g]
  }

  /** Guards whose revoked payload is dropped lose their binding, unless they are bound to another session. */
  function DroppedGuards(w: World, id: nat, ps: Payloads): set<Guard> {
    set g | g in ps && !ValidPayload(w, ps[g]) && (g in w.bound ==> w.bound[g] == id)
  }

  /** `filterRevokedSessionPayloads`. */
  function DropRevoked(w: World, id: nat): World
    requires id in w.sessions
  {
    var ps := PayloadsIn(w.sessions[id]);
    if w.revocations.None? || |ps| == 0 || |ValidIn(w, ps)| == |ps| then w
    else StoreOrEnd(w.(bound := w.bound - DroppedGuards(w, id, ps)), id, ValidIn(w, ps))
  }

  /** `readGuardSessionState`: what it does to the store, and the payload it finds. */
  function ReadState(w: World, g: Guard): (World, Option<Payload>) {
    if g !in w.bound || w.bound[g] !in w.sessions then (w, None)
    else (DropRevoked(w, w.bound[g]), Effective(w, g))
  }

  /** The session a login works on: the guard's own, or the first one another guard is bound to. */
  function FirstBound(bound: map<Guard, nat>, guards: seq<Guard>): Option<nat> {
    if guards == [] then None
    else if guards[0] in bound then Some(bound[guards[0]])
    else FirstBound(bound, guards[1..])
  }

  function SharedId(w: World, g: Guard): Option<nat> {
    if g in w.bound then Some(w.bound[g]) else FirstBound(w.bound - {g}, w.guards)
  }

  function SharedSession(w: World, g: Guard): Option<nat> {
    var id := SharedId(w, g);
    if id.Some? && id.value in w.sessions then id else None
  }

  /** The guards that move along when the shared session is rotated. */
  function MovingGuards(w: World, id: nat): set<Guard>
    requires id in w.sessions
  {
    set h | h in w.guards && (h in PayloadsIn(w.sessions[id]) || (h in w.bound && w.bound[h] == id))
  }

  function Rebind(bound: map<Guard, nat>, moving: set<Guard>, id: nat): map<Guard, nat> {
    map h | h in bound.Keys + moving :: if h in moving then id else bound[h]
  }

  /** Login revocation metadata: the current generation, under the session family's id. */
  function WithRevocation(w: World, p: Payload, family: nat): Payload {
    if w.revocations.None? then p
    else p.(revocation := Some(Revocation(family, StateOf(w.revocations.value, p.identity).generation)))
  }

  /** `establishSessionForUser` when nothing throws: rotate the shared session, or create one. */
  function Establish(w: World, p: Payload, family: nat): World {
    var g, next := p.guard, w.nextSession;
    var q := WithRevocation(w, p, family);
    var shared := SharedSession(w, g);
    if shared.None? then
      w.(sessions := w.sessions[next := Record(Write(map[g := q]), 0)], bound := w.bound[g := next], nextSession := next + 1)
    else
      var former := w.sessions[shared.value];
      w.(sessions := (w.sessions - {shared.value})[next := former.(auth := Write(PayloadsIn(former)[g := q]))],
         bound := Rebind(w.bound, MovingGuards(w, shared.value), next)[g := next],
         nextSession := next + 1)
  }

  function Remember(p: Payload): Remembered {
    Remembered(p.guard, p.identity, p.revocation)
  }

  /** `stopImpersonatingForGuard`: the user the guard is back to, if any. */
  function Stop(w: World, g: Guard): (World, Option<Identity>) {
    var (w1, p) := ReadState(w, g);
    if p.None? || p.value.impersonation.None? || g !in w1.bound || w1.bound[g] !in w1.sessions then (w1, None)
    else
      var id := w1.bound[g];
      var ps := PayloadsIn(w1.sessions[id]);
      var o := p.value.impersonation.value.original;
      if o.Some? && o.value.identity in w1.users && Valid(w1, o.value.identity, o.value.revocation) then
        (Store(w1, id, ps[g := Payload(o.value.guard, o.value.identity, o.value.revocation, None, false)]), Some(o.value.identity))
      else (Unbind(StoreOrEnd(w1, id, ps - {g}), g), None)
  }

  /** The session part of `logoutForGuard`. */
  function Logout(w: World, g: Guard): World {
    if g !in w.bound then w
    else
      var id := w.bound[g];
      if id !in w.sessions then Unbind(w, g)
      else
        var ps := PayloadsIn(w.sessions[id]);
        if g !in ps then Unbind(Invalidate(w, id), g)
        else Unbind(StoreOrEnd(w, id, ps - {g}), g)
  }

  /** The session part of `resolveUserFromGuard`. */
  function Resolve(w: World, g: Guard): (World, Option<Identity>) {
    if g !in w.bound then (w, None)
    else if w.bound[g] !in w.sessions then (Unbind(w, g), None)
    else
      var (w1, p) := ReadState(w, g);
      if p.None? then (Unbind(w1, g), None)
      else if p.value.challenge then (w1, None)
      else
        var known := p.value.identity in w.users;
        var im := p.value.impersonation;
        if im.Some? && !(known && im.value.actor.identity in w.users
                         && (im.value.original.Some? ==> im.value.original.value.identity in w.users)) then Stop(w1, g)
        else if known then (w1, Some(p.value.identity))
        else if w.bound[g] !in w1.sessions then (Unbind(w1, g), None)
        else
          // The record that was touched is written back, so payloads just dropped as revoked are stored again.
          (Unbind(StoreOrEnd(w1, w.bound[g], PayloadsIn(w.sessions[w.bound[g]]) - {g}), g), None)
  }

  datatype Refusal = ActorRequired | Nested | AlreadyActive | UserMissing

  datatype Outcome = Done | Refused(why: Refusal)

  /** `impersonateForGuard` for an identity of the guard's provider. */
  function Impersonate(w: World, g: Guard, actorGuard: Guard, target: Identity, family: nat): (World, Outcome) {
    var (w1, actor) := Resolve(w, actorGuard);
    var (w2, actorPayload) := ReadState(w1, actorGuard);
    if actor.None? || actorPayload.None? then (w2, Refused(ActorRequired))
    else if actorPayload.value.impersonation.Some? then (w2, Refused(Nested))
    else
      var (w3, current) := ReadState(w2, g);
      if current.Some? && current.value.impersonation.Some? then (w3, Refused(AlreadyActive))
      else if target !in w3.users then (w3, Refused(UserMissing))
      else
        var im := Impersonation(Remember(actorPayload.value),
                                if current.Some? then Some(Remember(current.value)) else None);
        (Establish(w3, Payload(g, target, None, Some(im), false), family), Done)
  }

  // ---------------------------------------------------------------- isolation

  /** Nobody but `g` sees a difference. */
  ghost predicate OthersKeep(w: World, w': World, g: Guard) {
    forall h :: h != g ==> Effective(w', h) == Effective(w, h)
  }

  /** The stored records stay well formed, and nothing that is only read changes. */
  ghost predicate Sound(w: World, w': World) {
    && WorldWell(w')
    && w'.guards == w.guards && w'.users == w.users && w'.revocations == w.revocations
    && w'.nextSession >= w.nextSession
  }

  /** Rewriting one session shows, under every guard, the payload now stored for it. */
  lemma StoredIsSeen(w: World, id: nat, ps: Payloads, h: Guard)
    requires WorldWell(w) && id in w.sessions && KeyedByGuard(ps)
    ensures Get(PayloadsOf(StoreOrEnd(w, id, ps), h), h) ==
            if h in w.bound && w.bound[h] == id then Get(ps, h) else Get(PayloadsOf(w, h), h)
  {
    WriteThenRead(ps);
  }

  lemma StoreIsSound(w: World, id: nat, ps: Payloads)
    requires WorldWell(w) && id in w.sessions && KeyedByGuard(ps)
    requires forall g :: g in ps ==> OriginalIsOwn(ps[g])
    ensures Sound(w, StoreOrEnd(w, id, ps))
  {
    WriteThenRead(ps);
  }

  lemma DropRevokedShows(w: World, id: nat, h: Guard)
    requires WorldWell(w) && id in w.sessions
    ensures Effective(DropRevoked(w, id), h) == Effective(w, h)
  {
    hide Write, Read;
    var ps := PayloadsIn(w.sessions[id]);
    var w1 := w.(bound := w.bound - DroppedGuards(w, id, ps));
    assert WorldWell(w1);
    StoredIsSeen(w1, id, ValidIn(w, ps), h);
  }

  /** Dropping revoked payloads changes what no guard sees. */
  lemma DropRevokedShowsTheSame(w: World, id: nat)
    requires WorldWell(w) && id in w.sessions
    ensures Sound(w, DropRevoked(w, id))
    ensures forall h :: Effective(DropRevoked(w, id), h) == Effective(w, h)
  {
    hide Write, Read;
    var ps := PayloadsIn(w.sessions[id]);
    var w1 := w.(bound := w.bound - DroppedGuards(w, id, ps));
    assert WorldWell(w1);
    StoreIsSound(w1, id, ValidIn(w, ps));
    forall h ensures Effective(DropRevoked(w, id), h) == Effective(w, h) {
      DropRevokedShows(w, id, h);
    }
  }

  lemma ReadStateShowsTheSame(w: World, g: Guard)
    requires WorldWell(w)
    ensures Sound(w, ReadState(w, g).0)
    ensures forall h :: Effective(ReadState(w, g).0, h) == Effective(w, h)
    ensures ReadState(w, g).1 == Effective(w, g)
  {
    if g in w.bound && w.bound[g] in w.sessions { DropRevokedShowsTheSame(w, w.bound[g]); }
  }

  lemma UnbindHides(w: World, g: Guard)
    requires WorldWell(w)
    ensures Sound(w, Unbind(w, g)) && OthersKeep(w, Unbind(w, g), g) && Effective(Unbind(w, g), g) == None
  {
  }

  lemma StoreKeepsValidity(w: World, id: nat, ps: Payloads)
    requires id in w.sessions
    ensures StoreOrEnd(w, id, ps).revocations == w.revocations
  {
  }

  /** Writing a session back with only `g`'s payload changed or dropped. */
  lemma RewriteIsolates(w: World, g: Guard, ps: Payloads)
    requires WorldWell(w) && g in w.bound && w.bound[g] in w.sessions && KeyedByGuard(ps)
    requires forall h :: h in ps ==> OriginalIsOwn(ps[h])
    requires forall h :: h != g && h in w.bound && w.bound[h] == w.bound[g] && Effective(w, h).Some? ==> Get(ps, h) == Effective(w, h)
    requires forall h :: h != g && h in w.bound && w.bound[h] == w.bound[g] && h in ps && ValidPayload(w, ps[h]) ==> Effective(w, h).Some?
    ensures var w' := StoreOrEnd(w, w.bound[g], ps);
            && Sound(w, w') && OthersKeep(w, w', g)
            && Effective(w', g) == if g in ps && ValidPayload(w, ps[g]) then Some(ps[g]) else None
  {
    hide Write, Read, StoreOrEnd, PayloadsIn, PayloadsOf, RecordWell;
    StoreIsSound(w, w.bound[g], ps);
    StoreKeepsValidity(w, w.bound[g], ps);
    forall h ensures h != g ==> Effective(StoreOrEnd(w, w.bound[g], ps), h) == Effective(w, h) {
      StoredIsSeen(w, w.bound[g], ps, h);
    }
    StoredIsSeen(w, w.bound[g], ps, g);
  }

  /**
   * Ending an impersonation concerns only its guard. It gives the former payload back exactly when there was
   * one, its user still exists and it has not been revoked; otherwise the guard is logged out.
   */
  lemma StopRestores(w: World, g: Guard)
    requires WorldWell(w)
    ensures Sound(w, Stop(w, g).0) && OthersKeep(w, Stop(w, g).0, g)
    ensures var p := Effective(w, g); var (w', user) := Stop(w, g);
            if p.None? || p.value.impersonation.None? then Effective(w', g) == p && user == None
            else
              var o := p.value.impersonation.value.original;
              if o.Some? && o.value.identity in w.users && Valid(w, o.value.identity, o.value.revocation)
              then user == Some(o.value.identity) && Effective(w', g).Some? && Remember(Effective(w', g).value) == o.value &&
                   Effective(w', g).value.impersonation.None? && !Effective(w', g).value.challenge
              else user == None && Effective(w', g) == None
  {
    hide Write, DropRevoked;
    var (w1, p) := ReadState(w, g);
    ReadStateShowsTheSame(w, g);
    if p.Some? && p.value.impersonation.Some? {
      assert Effective(w1, g) == p;
      var id := w1.bound[g];
      var ps := PayloadsIn(w1.sessions[id]);
      assert RecordWell(w1.sessions[id]) && ps[g] == p.value && OriginalIsOwn(ps[g]);
      var o := p.value.impersonation.value.original;
      if o.Some? && o.value.identity in w1.users && Valid(w1, o.value.identity, o.value.revocation) {
        RewriteIsolates(w1, g, ps[g := Payload(o.value.guard, o.value.identity, o.value.revocation, None, false)]);
      } else {
        RewriteIsolates(w1, g, ps - {g});
        UnbindHides(StoreOrEnd(w1, id, ps - {g}), g);
      }
    }
  }

  /**
   * Logging a guard out changes nothing for the others exactly when the guard holds a payload, or none of
   * those bound to its session has one that counts: without a payload the whole session is ended.
   */
  lemma LogoutIsolatesExactly(w: World, g: Guard)
    requires WorldWell(w)
    ensures Sound(w, Logout(w, g)) && Effective(Logout(w, g), g) == None
    ensures OthersKeep(w, Logout(w, g), g) <==>
            g in PayloadsOf(w, g)
            || (forall h :: h != g && g in w.bound && h in w.bound && w.bound[h] == w.bound[g] ==> Effective(w, h) == None)
  {
    hide Write, Read, PayloadsIn, Effective, RecordWell, StoreOrEnd, Invalidate;
    if g in w.bound && w.bound[g] in w.sessions {
      if g in PayloadsIn(w.sessions[w.bound[g]]) {
        LogoutOfOne(w, g);
      } else {
        LogoutOfAll(w, g, g);
        forall h ensures Effective(Logout(w, g), h) == if h == g || Get(w.bound, h) == Some(w.bound[g]) then None else Effective(w, h) {
          LogoutOfAll(w, g, h);
        }
      }
    } else {
      UnbindHides(w, g);
      DeadIsEmpty(w, g);
      if g in w.bound {
        forall h | h in w.bound && w.bound[h] == w.bound[g] ensures Effective(w, h) == None { DeadIsEmpty(w, h); }
      }
    }
  }

  lemma DeadIsEmpty(w: World, h: Guard)
    requires h in w.bound ==> w.bound[h] !in w.sessions
    ensures Effective(w, h) == None
  {
  }

  lemma LogoutOfOne(w: World, g: Guard)
    requires WorldWell(w) && g in w.bound && w.bound[g] in w.sessions && g in PayloadsIn(w.sessions[w.bound[g]])
    ensures Sound(w, Logout(w, g)) && OthersKeep(w, Logout(w, g), g) && Effective(Logout(w, g), g) == None
  {
    hide Write, Read;
    var id := w.bound[g];
    var ps := PayloadsIn(w.sessions[id]);
    assert RecordWell(w.sessions[id]);
    RewriteIsolates(w, g, ps - {g});
    UnbindHides(StoreOrEnd(w, id, ps - {g}), g);
  }

  lemma LogoutOfAll(w: World, g: Guard, h: Guard)
    requires WorldWell(w) && g in w.bound && w.bound[g] in w.sessions && g !in PayloadsIn(w.sessions[w.bound[g]])
    ensures Sound(w, Logout(w, g))
    ensures Effective(Logout(w, g), h) == if h == g || Get(w.bound, h) == Some(w.bound[g]) then None else Effective(w, h)
  {
    hide Write, Read;
    UnbindHides(Invalidate(w, w.bound[g]), g);
  }

  // ---------------------------------------------------------------- establishing a session

  /** What the session works on is a session some guard is bound to. */
  lemma SharedIsOld(w: World, g: Guard)
    requires WorldWell(w)
    ensures SharedSession(w, g).Some? ==> SharedSession(w, g).value in w.sessions && SharedSession(w, g).value < w.nextSession
    ensures g in w.bound && w.bound[g] in w.sessions ==> SharedSession(w, g) == Some(w.bound[g])
  {
  }

  lemma WithRevocationIsSimilar(w: World, p: Payload, family: nat)
    ensures WithRevocation(w, p, family).guard == p.guard && OriginalIsOwn(WithRevocation(w, p, family)) == OriginalIsOwn(p)
  {
  }

  /**
   * After a rotation the old session is gone, every guard that was bound to it is bound to the new one, and
   * the new one holds the old payloads with only this guard's replaced.
   */
  lemma RotationMovesEverything(w: World, p: Payload, family: nat)
    requires WorldWell(w) && p.guard in w.guards && OriginalIsOwn(p) && SharedSession(w, p.guard).Some?
    ensures var w' := Establish(w, p, family); var former := SharedSession(w, p.guard).value;
            && former !in w'.sessions && w.nextSession in w'.sessions
            && PayloadsIn(w'.sessions[w.nextSession]) == PayloadsIn(w.sessions[former])[p.guard := WithRevocation(w, p, family)]
            && w'.sessions[w.nextSession].rest == w.sessions[former].rest
            && (forall h :: h in w.bound && w.bound[h] == former ==> Get(w'.bound, h) == Some(w.nextSession))
            && (forall h :: h in w'.bound ==> w'.bound[h] != former)
            && Get(w'.bound, p.guard) == Some(w.nextSession)
  {
    hide Write, Read, SharedId, PayloadsIn, OriginalIsOwn;
    var q := WithRevocation(w, p, family);
    assert RecordWell(w.sessions[SharedSession(w, p.guard).value]);
    WriteThenRead(PayloadsIn(w.sessions[SharedSession(w, p.guard).value])[p.guard := q]);
  }

  lemma EstablishIsSound(w: World, p: Payload, family: nat)
    requires WorldWell(w) && p.guard in w.guards && OriginalIsOwn(p)
    ensures Sound(w, Establish(w, p, family))
  {
    if SharedSession(w, p.guard).Some? {
      RotationIsSound(w, p, family);
    } else {
      hide WorldWell;
      CreationIsSound(w, p, family);
    }
  }

  lemma CreationIsSound(w: World, p: Payload, family: nat)
    requires WorldWell(w) && p.guard in w.guards && OriginalIsOwn(p) && SharedSession(w, p.guard).None?
    ensures Sound(w, Establish(w, p, family))
  {
    hide Write, Read, PayloadsIn, RecordWell, SharedSession, WithRevocation;
    var q, w' := WithRevocation(w, p, family), Establish(w, p, family);
    NewRecordIsWell(w, p, family);
    forall id | id in w'.sessions ensures id < w'.nextSession && RecordWell(w'.sessions[id]) {
    }
  }

  lemma NewRecordIsWell(w: World, p: Payload, family: nat)
    requires OriginalIsOwn(p)
    ensures RecordWell(Record(Write(map[p.guard := WithRevocation(w, p, family)]), 0))
  {
    hide Write, Read, PayloadsIn;
    WithRevocationIsSimilar(w, p, family);
    WriteThenRead(map[p.guard := WithRevocation(w, p, family)]);
  }

  lemma RotationIsSound(w: World, p: Payload, family: nat)
    requires WorldWell(w) && p.guard in w.guards && OriginalIsOwn(p) && SharedSession(w, p.guard).Some?
    ensures Sound(w, Establish(w, p, family))
  {
    hide Write, Read, PayloadsIn, Valid, WithRevocation, SharedSession, KeyedByGuard;
    var former := SharedSession(w, p.guard).value;
    SharedIsOld(w, p.guard);
    WithRevocationIsSimilar(w, p, family);
    RotationMovesEverything(w, p, family);
    ReplacedIsWell(w.sessions[former], WithRevocation(w, p, family), Establish(w, p, family).sessions[w.nextSession]);
  }

  lemma ReplacedIsWell(r: Record, q: Payload, r': Record)
    requires RecordWell(r) && OriginalIsOwn(q) && PayloadsIn(r') == PayloadsIn(r)[q.guard := q]
    ensures RecordWell(r')
  {
  }

  /** Whom a rotation shows another payload: a guard with one in the shared session but bound elsewhere. */
  ghost predicate Stray(w: World, g: Guard, h: Guard) {
    && h != g && h in w.guards && SharedSession(w, g).Some?
    && h in PayloadsIn(w.sessions[SharedSession(w, g).value])
    && !(h in w.bound && w.bound[h] == SharedSession(w, g).value)
  }

  /** What guard `h` has in the session that is about to be rotated. */
  function Waiting(w: World, g: Guard, h: Guard): Option<Payload>
    requires SharedSession(w, g).Some?
  {
    var p := Get(PayloadsIn(w.sessions[SharedSession(w, g).value]), h);
    if p.Some? && ValidPayload(w, p.value) then p else None
  }

  lemma EstablishShows(w: World, p: Payload, family: nat, h: Guard)
    requires WorldWell(w) && p.guard in w.guards && OriginalIsOwn(p)
    ensures var w' := Establish(w, p, family);
            Effective(w', h) ==
            if h == p.guard then Some(WithRevocation(w, p, family))
            else if Stray(w, p.guard, h) then Waiting(w, p.guard, h)
            else Effective(w, h)
  {
    if SharedSession(w, p.guard).Some? {
      RotationShows(w, p, family, h);
    } else {
      CreationShows(w, p, family, h);
    }
  }

  lemma CreationShows(w: World, p: Payload, family: nat, h: Guard)
    requires WorldWell(w) && SharedSession(w, p.guard).None?
    ensures Effective(Establish(w, p, family), h) ==
            if h == p.guard then Some(WithRevocation(w, p, family)) else Effective(w, h)
  {
    hide Write, Read, PayloadsIn, Valid;
    WithRevocationIsSimilar(w, p, family);
    WriteThenRead(map[p.guard := WithRevocation(w, p, family)]);
    RotationJudgesTheSame(w, p, family);
  }

  lemma RotationShows(w: World, p: Payload, family: nat, h: Guard)
    requires WorldWell(w) && p.guard in w.guards && OriginalIsOwn(p) && SharedSession(w, p.guard).Some?
    ensures var w' := Establish(w, p, family);
            Effective(w', h) ==
            if h == p.guard then Some(WithRevocation(w, p, family))
            else if Stray(w, p.guard, h) then Waiting(w, p.guard, h)
            else Effective(w, h)
  {
    hide Write, Read, Establish, PayloadsIn, Valid, SharedSession;
    var w' := Establish(w, p, family);
    var former, q := SharedSession(w, p.guard).value, WithRevocation(w, p, family);
    SharedIsOld(w, p.guard);
    RotationMovesEverything(w, p, family);
    BoundAfterRotation(w, p, family, h);
    RotationJudgesTheSame(w, p, family);
    if h == p.guard {
      assert Effective(w', h) == Some(q);
    } else if h in w.guards && (h in PayloadsIn(w.sessions[former]) || Get(w.bound, h) == Some(former)) {
      assert Effective(w', h) == Waiting(w, p.guard, h);
    } else {
      assert Get(w'.bound, h) == Get(w.bound, h);
      if h in w.bound {
        assert w.bound[h] != former && w.bound[h] < w.nextSession;
        assert Get(w'.sessions, w.bound[h]) == Get(w.sessions, w.bound[h]);
      }
    }
  }

  lemma RotationJudgesTheSame(w: World, p: Payload, family: nat)
    ensures forall x :: ValidPayload(Establish(w, p, family), x) <==> ValidPayload(w, x)
    ensures ValidPayload(w, WithRevocation(w, p, family))
  {
  }

  lemma BoundAfterRotation(w: World, p: Payload, family: nat, h: Guard)
    requires SharedSession(w, p.guard).Some? && WorldWell(w)
    ensures var w' := Establish(w, p, family); var former := SharedSession(w, p.guard).value;
            && Get(w'.bound, h) == (if h == p.guard || h in MovingGuards(w, former) then Some(w.nextSession) else Get(w.bound, h))
            && (forall id :: id != former && id != w.nextSession ==> Get(w'.sessions, id) == Get(w.sessions, id))
  {
  }

  /** The first of the configured guards that is bound. */
  lemma {:induction false} FirstBoundIsFirst(bound: map<Guard, nat>, guards: seq<Guard>, k: nat)
    requires k < |guards| && guards[k] in bound && forall j :: 0 <= j < k ==> guards[j] !in bound
    ensures FirstBound(bound, guards) == Some(bound[guards[k]])
  {
    if k > 0 { FirstBoundIsFirst(bound, guards[1..], k - 1); }
  }

  /**
   * A login joins the session of the guards that are bound: when they all share a living one, the guard and all
   * of them are bound to one session after it, which holds their payloads and the new one.
   */
  lemma LoginJoins(w: World, p: Payload, family: nat, id: nat, k: Guard)
    requires WorldWell(w) && p.guard in w.guards && OriginalIsOwn(p) && id in w.sessions
    requires k in w.bound && forall h :: h in w.bound ==> w.bound[h] == id
    ensures var w' := Establish(w, p, family);
            && Get(w'.bound, p.guard) == Some(w.nextSession) && w.nextSession in w'.sessions
            && (forall h :: h in w.bound ==> Get(w'.bound, h) == Some(w.nextSession))
            && PayloadsIn(w'.sessions[w.nextSession]) == PayloadsIn(w.sessions[id])[p.guard := WithRevocation(w, p, family)]
  {
    hide PayloadsIn, Establish, WithRevocation, FirstBound, RecordWell;
    if p.guard !in w.bound {
      var i := FirstPlace(w.bound, w.guards, k);
      assert w.bound - {p.guard} == w.bound;
      FirstBoundIsFirst(w.bound, w.guards, i);
    }
    assert SharedSession(w, p.guard) == Some(id);
    RotationMovesEverything(w, p, family);
  }

  lemma {:induction false} FirstPlace(bound: map<Guard, nat>, guards: seq<Guard>, k: Guard) returns (i: nat)
    requires k in guards && k in bound
    ensures i < |guards| && guards[i] in bound && forall j :: 0 <= j < i ==> guards[j] !in bound
  {
    if guards[0] in bound {
      i := 0;
    } else {
      i := FirstPlace(bound, guards[1..], k);
      i := i + 1;
    }
  }

  /** After a logout the guard's payload is in no session it was bound to, and the others' are as they were. */
  lemma LogoutForgets(w: World, g: Guard)
    requires WorldWell(w) && g in w.bound && w.bound[g] in w.sessions
    ensures var id := w.bound[g]; var w' := Logout(w, g);
            && g !in w'.bound && (id in w'.sessions ==> PayloadsIn(w'.sessions[id]) == PayloadsIn(w.sessions[id]) - {g})
            && (id in w'.sessions <==> g in PayloadsIn(w.sessions[id]) && PayloadsIn(w.sessions[id]) - {g} != map[])
            && forall i :: i != id ==> Get(w'.sessions, i) == Get(w.sessions, i)
  {
    hide Write, Read;
    var id := w.bound[g];
    assert RecordWell(w.sessions[id]);
    WriteThenRead(PayloadsIn(w.sessions[id]) - {g});
  }

  /** `revokeOthers` of the store: refused unless the current session is valid, a new generation otherwise. */
  function RevokeOthers(w: World, i: Identity, current: Revocation): World
    requires w.revocations.Some?
  {
    if !Valid(w, i, Some(current)) then w
    else w.(revocations := Some(w.revocations.value[i := Revoked(StateOf(w.revocations.value, i).generation + 1, Some(current.id))]))
  }

  /**
   * Of the sessions of an identity that were made before, exactly those of the current session's family stay
   * valid, even if they were not any more; other identities are not concerned. A new login is always valid.
   */
  lemma OnlyRetainedStay(w: World, i: Identity, current: Revocation, j: Identity, r: Revocation, p: Payload, family: nat)
    requires w.revocations.Some? && r.generation <= StateOf(w.revocations.value, i).generation
    ensures var w' := RevokeOthers(w, i, current);
            && (Valid(w', j, Some(r)) <==> if j == i && Valid(w, i, Some(current)) then r.id == current.id else Valid(w, j, Some(r)))
            && ValidPayload(w', WithRevocation(w', p, family))
            && WithRevocation(w', p, family).revocation.Some? && WithRevocation(w', p, family).revocation.value.id == family
  {
  }

  /**
   * A login changes nothing for the other guards exactly when each of those with a payload waiting in the
   * shared session is bound to it, or sees that payload already. The guard itself sees its new payload.
   */
  lemma EstablishIsolatesExactly(w: World, p: Payload, family: nat)
    requires WorldWell(w) && p.guard in w.guards && OriginalIsOwn(p)
    ensures var w' := Establish(w, p, family);
            && Effective(w', p.guard) == Some(WithRevocation(w, p, family))
            && (OthersKeep(w, w', p.guard) <==>
                  forall h :: Stray(w, p.guard, h) ==> Waiting(w, p.guard, h) == Effective(w, h))
  {
    forall h ensures Effective(Establish(w, p, family), h) ==
                     if h == p.guard then Some(WithRevocation(w, p, family))
                     else if Stray(w, p.guard, h) then Waiting(w, p.guard, h)
                     else Effective(w, h)
    {
      EstablishShows(w, p, family, h);
    }
  }

  // ---------------------------------------------------------------- impersonation

  lemma ResolveIsolates(w: World, g: Guard)
    requires WorldWell(w)
    ensures Sound(w, Resolve(w, g).0) && OthersKeep(w, Resolve(w, g).0, g)
    ensures Resolve(w, g).1.Some? ==> Resolve(w, g).1.value in w.users
  {
    hide Write, Read, DropRevoked, Stop, ReadState, Effective, PayloadsIn, Valid, StoreOrEnd;
    UnbindHides(w, g);
    if g in w.bound && w.bound[g] in w.sessions {
      var (w1, p) := ReadState(w, g);
      ReadStateShowsTheSame(w, g);
      UnbindHides(w1, g);
      StopRestores(w1, g);
      if p.Some? && w.bound[g] in w1.sessions {
        ResolvedRecordWrittenBack(w, g);
      }
    }
  }

  /** The touched record, written back without the guard of a user that no longer exists. */
  lemma ResolvedRecordWrittenBack(w: World, g: Guard)
    requires WorldWell(w) && g in w.bound && w.bound[g] in w.sessions && Effective(w, g).Some?
    requires w.bound[g] in ReadState(w, g).0.sessions
    ensures var w1 := ReadState(w, g).0;
            var w' := Unbind(StoreOrEnd(w1, w.bound[g], PayloadsIn(w.sessions[w.bound[g]]) - {g}), g);
            Sound(w, w') && OthersKeep(w, w', g)
  {
    hide Write;
    var id := w.bound[g];
    var ps := PayloadsIn(w.sessions[id]) - {g};
    var w1 := ReadState(w, g).0;
    ReadStateShowsTheSame(w, g);
    assert RecordWell(w.sessions[id]);
    StoreIsSound(w1, id, ps);
    UnbindHides(StoreOrEnd(w1, id, ps), g);
    forall h | h != g ensures Effective(StoreOrEnd(w1, id, ps), h) == Effective(w, h) {
      StoredIsSeen(w1, id, ps, h);
      BoundAfterReading(w, g, h);
    }
  }

  /** Reading a guard's state unbinds only guards whose payload in that session is revoked. */
  lemma BoundAfterReading(w: World, g: Guard, h: Guard)
    requires WorldWell(w) && g in w.bound && w.bound[g] in w.sessions
    ensures var w1 := ReadState(w, g).0;
            && (h in w1.bound ==> Get(w.bound, h) == Some(w1.bound[h]))
            && (h !in w1.bound && h in w.bound ==> w.bound[h] == w.bound[g] && Effective(w, h) == None)
  {
  }

  /** Resolving a user leaves the guard's payload as it is, unless it has to end a stale impersonation. */
  lemma ResolveKeepsOwn(w: World, g: Guard)
    requires WorldWell(w) && Resolve(w, g).1.Some?
    requires Effective(w, g).Some? ==> Effective(w, g).value.impersonation.None?
    ensures Effective(Resolve(w, g).0, g) == Effective(w, g)
  {
    ReadStateShowsTheSame(w, g);
  }

  /** Somebody an impersonation is about no longer exists. */
  predicate Stale(w: World, p: Payload) {
    p.impersonation.Some? &&
    !(p.identity in w.users && p.impersonation.value.actor.identity in w.users
      && (p.impersonation.value.original.Some? ==> p.impersonation.value.original.value.identity in w.users))
  }

  /** The identity an impersonation may go back to: remembered, existing and not revoked. */
  function Former(w: World, p: Payload): Option<Identity> {
    if p.impersonation.None? || p.impersonation.value.original.None? then None
    else
      var o := p.impersonation.value.original.value;
      if o.identity in w.users && Valid(w, o.identity, o.revocation) then Some(o.identity) else None
  }

  /**
   * The user a guard resolves to, from the payload that counts for it: nobody without one or while a challenge
   * is pending, the former user when the impersonation is stale, else the payload's own as long as it exists.
   * And what then counts for the guard: the payload stays unless its user, or its impersonation, is gone.
   */
  lemma ResolveDecides(w: World, g: Guard)
    requires WorldWell(w)
    ensures var p := Effective(w, g); var (w', user) := Resolve(w, g);
            && (p.None? ==> user == None && Effective(w', g) == None && g !in w'.bound)
            && (p.Some? && p.value.challenge ==> user == None && Effective(w', g) == p)
            && (p.Some? && !p.value.challenge && Stale(w, p.value) ==>
                  && user == Former(w, p.value)
                  && (user.Some? <==> Effective(w', g).Some?)
                  && (user.Some? ==> Effective(w', g).value.identity == user.value && !Effective(w', g).value.challenge
                                     && Effective(w', g).value.impersonation.None?))
            && (p.Some? && !p.value.challenge && !Stale(w, p.value) ==>
                  if p.value.identity in w.users then user == Some(p.value.identity) && Effective(w', g) == p
                  else user == None && Effective(w', g) == None)
  {
    hide Write, Read, DropRevoked, ReadState, PayloadsIn, StoreOrEnd, Stop, Effective;
    ReadStateShowsTheSame(w, g);
    var w1 := ReadState(w, g).0;
    UnbindHides(w, g);
    UnbindHides(w1, g);
    StopRestores(w1, g);
    UnboundSeesNothing(w, g);
    UnboundSeesNothing(Resolve(w, g).0, g);
  }

  lemma UnboundSeesNothing(w: World, g: Guard)
    ensures g !in w.bound || w.bound[g] !in w.sessions ==> Effective(w, g) == None
  {
  }

  /** The world in which an impersonation, accepted so far, establishes its session. */
  function Prepared(w: World, g: Guard, actorGuard: Guard): World {
    ReadState(ReadState(Resolve(w, actorGuard).0, actorGuard).0, g).0
  }

  lemma WithRevocationAddsOnly()
    ensures forall w: World, p, family :: WithRevocation(w, p, family) == p.(revocation := WithRevocation(w, p, family).revocation)
  {
  }

  /**
   * Impersonation, seen from every guard. Accepted, it gives the guard the target's payload, which remembers
   * the former one; refused, it changes nothing for the guard. Others keep theirs, but for a stale payload of
   * the actor's guard and for guards whose payload waits in a session they are not bound to.
   */
  lemma ImpersonateExactly(w: World, g: Guard, actorGuard: Guard, target: Identity, family: nat)
    requires WorldWell(w) && g in w.guards
    ensures var (w', outcome) := Impersonate(w, g, actorGuard, target, family);
            var former := Effective(Resolve(w, actorGuard).0, g);
            && Sound(w, w')
            && (outcome.Done? ==>
                  && (former.Some? ==> former.value.impersonation.None?)
                  && Effective(w', g).Some? && Effective(w', g).value.identity == target
                  && Effective(w', g).value.impersonation.Some?
                  && Effective(w', g).value.impersonation.value.original ==
                       (if former.Some? then Some(Remember(former.value)) else None)
                  && (forall h :: h != g && h != actorGuard && !Stray(Prepared(w, g, actorGuard), g, h) ==>
                        Effective(w', h) == Effective(w, h)))
            && (!outcome.Done? ==> Effective(w', g) == former && OthersKeep(w, w', actorGuard))
  {
    hide Write, Read, Establish, DropRevoked, Resolve, ReadState, Effective, WithRevocation, WorldWell, Waiting, Valid;
    WithRevocationAddsOnly();
    var (w1, actor) := Resolve(w, actorGuard);
    ResolveIsolates(w, actorGuard);
    var (w2, actorPayload) := ReadState(w1, actorGuard);
    ReadStateShowsTheSame(w1, actorGuard);
    ReadStateShowsTheSame(w2, g);
    var (w3, current) := ReadState(w2, g);
    if actor.Some? && actorPayload.Some? && actorPayload.value.impersonation.None?
       && !(current.Some? && current.value.impersonation.Some?) && target in w3.users {
      var im := Impersonation(Remember(actorPayload.value), if current.Some? then Some(Remember(current.value)) else None);
      var p := Payload(g, target, None, Some(im), false);
      if current.Some? { EffectiveIsKeyed(w2, g); }
      EstablishIsSound(w3, p, family);
      forall h ensures Effective(Establish(w3, p, family), h) ==
                       if h == g then Some(WithRevocation(w3, p, family))
                       else if Stray(w3, g, h) then Waiting(w3, g, h)
                       else Effective(w3, h)
      {
        EstablishShows(w3, p, family, h);
      }
    }
  }

  lemma EffectiveIsKeyed(w: World, g: Guard)
    requires WorldWell(w) && Effective(w, g).Some?
    ensures Effective(w, g).value.guard == g
  {
    assert RecordWell(w.sessions[w.bound[g]]);
  }

  /**
   * What decides about an impersonation, and what it records, in terms of what counts once the actor's guard was
   * resolved. It is accepted exactly when the actor's guard has a user, no impersonation of its own, no pending
   * challenge, the guard no impersonation either, and the target exists; the reason of a refusal is the first of
   * these that is missing. Accepted, it remembers the actor as it is.
   */
  lemma ImpersonateDecides(w: World, g: Guard, actorGuard: Guard, target: Identity, family: nat)
    requires WorldWell(w) && g in w.guards
    ensures var (w1, actor) := Resolve(w, actorGuard);
            var (w', outcome) := Impersonate(w, g, actorGuard, target, family);
            var a, current := Effective(w1, actorGuard), Effective(w1, g);
            && outcome == (if actor.None? || a.None? then Refused(ActorRequired)
                           else if a.value.impersonation.Some? then Refused(Nested)
                           else if current.Some? && current.value.impersonation.Some? then Refused(AlreadyActive)
                           else if target !in w.users then Refused(UserMissing)
                           else Done)
            && (actor.Some? ==> a.Some? && !a.value.challenge && a.value.identity == actor.value)
            && (outcome.Done? ==>
                  && Effective(w', g).Some? && Effective(w', g).value.guard == g && !Effective(w', g).value.challenge
                  && Effective(w', g).value.impersonation.Some?
                  && Effective(w', g).value.impersonation.value.actor == Remember(a.value))
  {
    hide Write, Read, Establish, DropRevoked, Resolve, ReadState, Effective, WithRevocation, Valid;
    WithRevocationAddsOnly();
    var (w1, actor) := Resolve(w, actorGuard);
    ResolveIsolates(w, actorGuard);
    ResolveDecides(w, actorGuard);
    var (w2, actorPayload) := ReadState(w1, actorGuard);
    ReadStateShowsTheSame(w1, actorGuard);
    ReadStateShowsTheSame(w2, g);
    var (w3, current) := ReadState(w2, g);
    if actor.Some? && actorPayload.value.impersonation.None?
       && !(current.Some? && current.value.impersonation.Some?) && target in w3.users {
      var im := Impersonation(Remember(actorPayload.value), if current.Some? then Some(Remember(current.value)) else None);
      var p := Payload(g, target, None, Some(im), false);
      if current.Some? { EffectiveIsKeyed(w2, g); }
      EstablishShows(w3, p, family, g);
    }
  }

  /** Impersonation is never nested: neither the actor's nor the guard's own payload was an impersonation. */
  lemma NeverNested(w: World, g: Guard, actorGuard: Guard, target: Identity, family: nat)
    requires WorldWell(w)
    ensures var (w', outcome) := Impersonate(w, g, actorGuard, target, family);
            outcome.Done? ==>
              var w1 := Resolve(w, actorGuard).0;
              && Effective(w1, actorGuard).Some? && Effective(w1, actorGuard).value.impersonation.None?
              && (Effective(w1, g).Some? ==> Effective(w1, g).value.impersonation.None?)
  {
    hide Write, Read, Establish, DropRevoked, Resolve, ReadState;
    ResolveIsolates(w, actorGuard);
    var w1 := Resolve(w, actorGuard).0;
    ReadStateShowsTheSame(w1, actorGuard);
    ReadStateShowsTheSame(ReadState(w1, actorGuard).0, g);
  }

  /**
   * Impersonating and then stopping, whatever the other guards did in between, gives the guard's former user
   * back exactly when the user still exists and was not revoked.
   */
  lemma ImpersonateThenStop(w: World, g: Guard, actorGuard: Guard, target: Identity, family: nat, later: World)
    requires WorldWell(w) && g in w.guards
    requires actorGuard == g && Effective(w, g).Some? ==> Effective(w, g).value.impersonation.None?
    requires WorldWell(later)
    ensures var (w', outcome) := Impersonate(w, g, actorGuard, target, family);
            outcome.Done? && Effective(later, g) == Effective(w', g) ==>
              var (end, user) := Stop(later, g); var former := Effective(w, g);
              if former.Some? && former.value.identity in later.users && Valid(later, former.value.identity, former.value.revocation)
              then user == Some(former.value.identity) && Effective(end, g).Some?
                   && Remember(Effective(end, g).value) == Remember(former.value)
              else user == None && Effective(end, g) == None
  {
    hide Resolve, Stop, ReadState, Establish, DropRevoked, WithRevocation, Write, Valid;
    ImpersonateExactly(w, g, actorGuard, target, family);
    ResolveIsolates(w, actorGuard);
    if Impersonate(w, g, actorGuard, target, family).1.Done? {
      NeverNested(w, g, actorGuard, target, family);
      ActorWasResolved(w, g, actorGuard, target, family);
      if actorGuard == g { ResolveKeepsOwn(w, g); }
      StopRestores(later, g);
    }
  }

  lemma ActorWasResolved(w: World, g: Guard, actorGuard: Guard, target: Identity, family: nat)
    requires Impersonate(w, g, actorGuard, target, family).1.Done?
    ensures Resolve(w, actorGuard).1.Some?
  {
    hide Resolve, ReadState, Establish;
  }
}
