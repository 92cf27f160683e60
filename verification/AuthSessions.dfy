/** The request's session runtime, updated in place, and its tie to the functions of GuardSessions. */
module AuthSessions {
  import opened Prelude
  import opened GuardSessions

  class AuthRuntime {
    var sessions: map<nat, Record>
    var bound: map<Guard, nat>
    var nextSession: nat
    var guards: seq<Guard>
    var users: set<Identity>
    var revocations: Option<map<Identity, Revoked>>

    constructor (guards: seq<Guard>, users: set<Identity>, revocations: Option<map<Identity, Revoked>>)
      ensures State() == World(map[], map[], 0, guards, users, revocations)
      ensures WorldWell(State())
    {
      sessions := map[];
      bound := map[];
      nextSession := 0;
      this.guards := guards;
      this.users := users;
      this.revocations := revocations;
    }

    function State(): World
      reads this
    {
      World(sessions, bound, nextSession, guards, users, revocations)
    }

    method HydrateGuard(g: Guard, cookie: Option<nat>)
      modifies `bound
      ensures State() == Hydrated(old(State()), cookie, g)
    {
      if g in guards && g !in bound && cookie.Some? {
        bound := bound[g := cookie.value];
      }
    }

    method WriteOrInvalidate(id: nat, payloads: Payloads)
      requires id in sessions
      modifies `sessions
      ensures State() == StoreOrEnd(old(State()), id, payloads)
    {
      if |payloads| == 0 {
        sessions := sessions - {id};
      } else {
        sessions := sessions[id := sessions[id].(auth := Write(payloads))];
      }
    }

    /** Revoked payloads are dropped, and the guards bound to this session lose their binding. */
    method FilterRevoked(id: nat)
      requires id in sessions
      modifies `sessions, `bound
      ensures State() == DropRevoked(old(State()), id)
    {
      var payloads := PayloadsIn(sessions[id]);
      if revocations.None? || |payloads| == 0 {
        return;
      }
      var valid := ValidIn(State(), payloads);
      if |valid| == |payloads| {
        return;
      }
      hide Write, Valid, ValidPayload, PayloadsIn, DroppedGuards, StoreOrEnd;
      ghost var w := State();
      var names := payloads.Keys;
      assert bound == w.bound - (DroppedGuards(w, id, payloads) - names) by { NothingDroppedYet(w, id, payloads); }
      while names != {}
        invariant names <= payloads.Keys
        invariant sessions == old(sessions)
        invariant bound == w.bound - (DroppedGuards(w, id, payloads) - names)
        decreases |names|
      {
        var name :| name in names;
        OneMoreDropped(w, id, payloads, names, name);
        if name !in valid {
          if !(name in bound && bound[name] != id) {
            bound := bound - {name};
          }
        }
        names := names - {name};
      }
      assert DroppedGuards(w, id, payloads) - names == DroppedGuards(w, id, payloads);
      WriteOrInvalidate(id, valid);
    }

    static lemma NothingDroppedYet(w: World, id: nat, ps: Payloads)
      ensures w.bound - (DroppedGuards(w, id, ps) - ps.Keys) == w.bound
    {
      assert DroppedGuards(w, id, ps) - ps.Keys == {};
    }

    /** One more name looked at. */
    static lemma OneMoreDropped(w: World, id: nat, ps: Payloads, names: set<Guard>, name: Guard)
      requires name in names && names <= ps.Keys
      ensures var bound := w.bound - (DroppedGuards(w, id, ps) - names);
              w.bound - (DroppedGuards(w, id, ps) - (names - {name}))
              == if name !in ValidIn(w, ps) && !(name in bound && bound[name] != id) then bound - {name} else bound
    {
      hide ValidPayload;
      var dropped := DroppedGuards(w, id, ps);
      if name in dropped {
        assert dropped - (names - {name}) == (dropped - names) + {name};
      } else {
        assert dropped - (names - {name}) == dropped - names;
      }
    }

    method ReadGuardState(g: Guard) returns (p: Option<Payload>)
      modifies `sessions, `bound
      ensures (State(), p) == ReadState(old(State()), g)
    {
      if g !in bound || bound[g] !in sessions {
        return None;
      }
      p := Effective(State(), g);
      FilterRevoked(bound[g]);
    }

    /** The guard's own session id, or the first one another session guard is bound to. */
    method FindSharedSession(g: Guard) returns (id: Option<nat>)
      ensures id == SharedSession(State(), g)
    {
      if g in bound {
        id := Some(bound[g]);
      } else {
        id := None;
        var k := 0;
        while k < |guards| && id.None?
          invariant 0 <= k <= |guards|
          invariant if id.None? then FirstBound(bound - {g}, guards) == FirstBound(bound - {g}, guards[k..])
                    else FirstBound(bound - {g}, guards) == id
        {
          if guards[k] != g && guards[k] in bound {
            id := Some(bound[guards[k]]);
          }
          k := k + 1;
        }
      }
      if id.Some? && id.value !in sessions {
        id := None;
      }
    }

    /** Every moving guard is bound to the new session, one after the other. */
    method RebindGuards(moving: set<Guard>, id: nat)
      requires forall g :: g in moving ==> g in guards
      modifies `bound
      ensures bound == Rebind(old(bound), moving, id)
    {
      for k := 0 to |guards|
        invariant bound == Rebind(old(bound), (set h | h in guards[..k] && h in moving), id)
      {
        if guards[k] in moving {
          bound := bound[guards[k] := id];
        }
        assert guards[..k + 1] == guards[..k] + [guards[k]];
      }
      assert guards[..|guards|] == guards;
      assert (set h | h in guards && h in moving) == moving;
    }

    method EstablishSession(p: Payload, family: nat) returns (id: nat)
      modifies `sessions, `bound, `nextSession
      ensures id == old(nextSession) && State() == Establish(old(State()), p, family)
    {
      hide Write, PayloadsIn, WithRevocation, SharedId, Rebind;
      var q := WithRevocation(State(), p, family);
      var shared := FindSharedSession(p.guard);
      id := nextSession;
      if shared.None? {
        sessions := sessions[id := Record(Write(map[p.guard := q]), 0)];
      } else {
        var former := sessions[shared.value];
        var payloads := PayloadsIn(former);
        var moving := MovingGuards(State(), shared.value);
        sessions := (sessions - {shared.value})[id := former.(auth := Write(payloads[p.guard := q]))];
        RebindGuards(moving, id);
      }
      nextSession := nextSession + 1;
      bound := bound[p.guard := id];
    }

    method StopImpersonating(g: Guard) returns (user: Option<Identity>)
      modifies `sessions, `bound
      ensures (State(), user) == Stop(old(State()), g)
    {
      var p := ReadGuardState(g);
      if p.None? || p.value.impersonation.None? || g !in bound || bound[g] !in sessions {
        return None;
      }
      var id := bound[g];
      var payloads := PayloadsIn(sessions[id]);
      var original := p.value.impersonation.value.original;
      if original.Some? && original.value.identity in users && Valid(State(), original.value.identity, original.value.revocation) {
        payloads := payloads[g := Payload(original.value.guard, original.value.identity, original.value.revocation, None, false)];
        user := Some(original.value.identity);
        assert |payloads| > 0;
        WriteOrInvalidate(id, payloads);
      } else {
        WriteOrInvalidate(id, payloads - {g});
        bound := bound - {g};
        user := None;
      }
    }

    method LogoutGuard(g: Guard)
      modifies `sessions, `bound
      ensures State() == Logout(old(State()), g)
    {
      if g !in bound {
        return;
      }
      var id := bound[g];
      if id in sessions {
        var payloads := PayloadsIn(sessions[id]);
        if g !in payloads {
          sessions := sessions - {id};
        } else {
          WriteOrInvalidate(id, payloads - {g});
        }
      }
      bound := bound - {g};
    }

    method ResolveUser(g: Guard) returns (user: Option<Identity>)
      modifies `sessions, `bound
      ensures (State(), user) == Resolve(old(State()), g)
    {
      if g !in bound {
        return None;
      }
      var id := bound[g];
      if id !in sessions {
        bound := bound - {g};
        return None;
      }
      var touched := PayloadsIn(sessions[id]);
      var p := ReadGuardState(g);
      if p.None? {
        bound := bound - {g};
        return None;
      }
      if p.value.challenge {
        return None;
      }
      var im := p.value.impersonation;
      if im.Some? && !(p.value.identity in users && im.value.actor.identity in users
                       && (im.value.original.Some? ==> im.value.original.value.identity in users)) {
        user := StopImpersonating(g);
        return;
      }
      if p.value.identity in users {
        return Some(p.value.identity);
      }
      if id in sessions {
        WriteOrInvalidate(id, touched - {g});
      }
      bound := bound - {g};
      user := None;
    }

    method ImpersonateUser(g: Guard, actorGuard: Guard, target: Identity, family: nat) returns (outcome: Outcome)
      requires WorldWell(State()) && g in guards
      modifies `sessions, `bound, `nextSession
      ensures (State(), outcome) == Impersonate(old(State()), g, actorGuard, target, family)
    {
      hide Write, Read, Establish, DropRevoked, Resolve, ReadState, Effective;
      ResolveIsolates(State(), actorGuard);
      var actor := ResolveUser(actorGuard);
      ReadStateShowsTheSame(State(), actorGuard);
      var actorPayload := ReadGuardState(actorGuard);
      if actor.None? || actorPayload.None? {
        return Refused(ActorRequired);
      }
      if actorPayload.value.impersonation.Some? {
        return Refused(Nested);
      }
      ReadStateShowsTheSame(State(), g);
      var current := ReadGuardState(g);
      if current.Some? && current.value.impersonation.Some? {
        return Refused(AlreadyActive);
      }
      if target !in users {
        return Refused(UserMissing);
      }
      var im := Impersonation(Remember(actorPayload.value), if current.Some? then Some(Remember(current.value)) else None);
      var _ := EstablishSession(Payload(g, target, None, Some(im), false), family);
      outcome := Done;
    }
  }
}
