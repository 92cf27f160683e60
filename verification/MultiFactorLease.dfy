/**
 * The multi-factor challenge lease: concurrent logins, challenges and recoveries over one session store.
 *
 * Every `await` of establishLoginSessionForUser and completeMultiFactorChallenge
 * (packages/auth/src/runtime.ts) ends an atomic step, and the steps of all calls interleave freely.
 * The store's `take`, `flash`, `rotate` and `invalidate` are atomic; each of them may also fail.
 */
module MultiFactorLease {
  import opened Prelude

  /** A stored session: is its guard's payload authenticated, and is the challenge lease there to be taken? */
  datatype Session = Session(authenticated: bool, lease: bool)

  datatype Phase =
    // establishLoginSessionForUser
    | Logging
    | Granting(session: nat)
    | Refusing(session: nat)
    // completeMultiFactorChallenge
    | Reading(session: nat)
    | Asking(session: nat)
    | Counting(session: nat)
    | Checking(session: nat, attempts: nat)
    | Returning(session: nat)
    | Ending(session: nat)
    | Establishing(session: nat)
    | Replaced(session: nat, next: nat)
    | Undoing(session: nat, next: nat)
    | Inspecting(session: nat, undone: Option<nat>)
    | Recovering(session: nat)
    | GivingUp(session: nat)
    | Finished(took: Option<nat>)

  /**
   * `replacements` remembers what a rotation replaced; `stranded` the sessions for which giving the lease
   * back, ending the session or reading it back has failed. Neither is read by the protocol.
   */
  datatype State = State(sessions: map<nat, Session>, calls: map<nat, Phase>, nextSession: nat,
                         replacements: map<nat, nat>, stranded: set<nat>)

  /** What a step's awaited operation does. */
  datatype Outcome =
    | Succeeds
    | Fails
    | Limited
    | Wrong

  const MAX_ATTEMPTS: nat := 5

  /** The phases in which a call has taken (or not yet granted) the lease of a session. */
  function Holds(p: Phase): Option<nat> {
    match p
    case Granting(s) => Some(s)
    case Refusing(s) => Some(s)
    case Counting(s) => Some(s)
    case Checking(s, _) => Some(s)
    case Returning(s) => Some(s)
    case Ending(s) => Some(s)
    case Establishing(s) => Some(s)
    case Replaced(s, _) => Some(s)
    case Undoing(s, _) => Some(s)
    case Inspecting(s, _) => Some(s)
    case Recovering(s) => Some(s)
    case GivingUp(s) => Some(s)
    case _ => None
  }

  /** What one step does to the store, atomically. */
  datatype Effect =
    | Nothing
    | Create
    | PutLease(s: nat)
    | TakeLease(s: nat)
    | Rotate(s: nat)
    | Delete(s: nat)
    | Strand(s: nat)

  function Do(st: State, e: Effect): State {
    match e
    case Nothing => st
    case Create =>
      st.(sessions := st.sessions[st.nextSession := Session(false, false)], nextSession := st.nextSession + 1)
    case PutLease(s) =>
      // `flash` throws when the session is gone.
      if s in st.sessions then st.(sessions := st.sessions[s := st.sessions[s].(lease := true)]) else st
    case TakeLease(s) =>
      if s in st.sessions then st.(sessions := st.sessions[s := st.sessions[s].(lease := false)]) else st
    case Rotate(s) =>
      // Private flash state moves with the rotation.
      if s !in st.sessions then st
      else st.(sessions := (st.sessions - {s})[st.nextSession := Session(true, st.sessions[s].lease)],
               nextSession := st.nextSession + 1,
               replacements := st.replacements[s := st.nextSession])
    case Delete(s) => st.(sessions := st.sessions - {s})
    case Strand(s) => st.(stranded := st.stranded + {s})
  }

  /** The store operation a call awaits next, and where it goes from there. */
  function Plan(st: State, p: Phase, o: Outcome, attempts: nat): (Effect, Phase) {
    var ok := o.Succeeds?;
    match p
    case Logging => if ok then (Create, Granting(st.nextSession)) else (Nothing, Finished(None))
    case Granting(s) => if ok then (PutLease(s), Finished(Some(s))) else (Nothing, Refusing(s))
    case Refusing(s) => (if ok then Delete(s) else Strand(s), Finished(Some(s)))
    case Reading(s) =>
      if ok && s in st.sessions && !st.sessions[s].authenticated then (Nothing, Asking(s)) else (Nothing, Finished(None))
    case Asking(s) =>
      if ok && s in st.sessions && st.sessions[s].lease then (TakeLease(s), Counting(s)) else (Nothing, Finished(None))
    case Counting(s) =>
      (Nothing, if o.Limited? then Ending(s) else if ok && attempts >= 1 then Checking(s, attempts) else Returning(s))
    case Checking(s, n) =>
      (Nothing, if ok then Establishing(s) else if o.Wrong? && n >= MAX_ATTEMPTS then Ending(s) else Returning(s))
    case Returning(s) => (if ok then PutLease(s) else Strand(s), Finished(Some(s)))
    case Ending(s) => (if ok then Delete(s) else Strand(s), Finished(Some(s)))
    case Establishing(s) =>
      if ok && s in st.sessions then (Rotate(s), Replaced(s, st.nextSession)) else (Nothing, Inspecting(s, None))
    case Replaced(s, next) => (Nothing, if ok then Finished(Some(s)) else Undoing(s, next))
    case Undoing(s, next) => (if ok then Delete(next) else Nothing, Inspecting(s, Some(next)))
    case Inspecting(s, _) =>
      if !ok then (Strand(s), Finished(Some(s)))
      else (Nothing, if s in st.sessions then Recovering(s) else Finished(Some(s)))
    case Recovering(s) => if ok then (PutLease(s), Finished(Some(s))) else (Nothing, GivingUp(s))
    case GivingUp(s) => (if ok then Delete(s) else Strand(s), Finished(Some(s)))
    case Finished(_) => (Nothing, p)
  }

  /** One atomic step of a call. `attempts` is what the shared rate limiter reports, when it is asked. */
  function Step(st: State, call: nat, o: Outcome, attempts: nat): State
    requires call in st.calls
  {
    var (effect, phase) := Plan(st, st.calls[call], o, attempts);
    Goto(Do(st, effect), call, phase)
  }

  function Goto(st: State, call: nat, p: Phase): State {
    st.(calls := st.calls[call := p])
  }

  // ---------------------------------------------------------------- runs

  datatype Event =
    | LoginStarts(call: nat)
    | ChallengeStarts(call: nat, session: nat)
    | Steps(call: nat, outcome: Outcome, attempts: nat)

  function Apply(st: State, e: Event): State {
    match e
    case LoginStarts(c) => if c in st.calls then st else Goto(st, c, Logging)
    case ChallengeStarts(c, s) => if c in st.calls then st else Goto(st, c, Reading(s))
    case Steps(c, o, n) => if c in st.calls then Step(st, c, o, n) else st
  }

  function Run(st: State, events: seq<Event>): State
    decreases |events|
  {
    if events == [] then st else Apply(Run(st, events[..|events| - 1]), events[|events| - 1])
  }

  const START := State(map[], map[], 0, map[], {})

  // ---------------------------------------------------------------- invariant

  /** The call is about to replace the session, or has not decided yet: the session is there, without lease. */
  predicate Before(p: Phase) {
    Holds(p).Some? && !p.Replaced? && !p.Undoing? && !(p.Inspecting? && p.undone.Some?)
  }

  /** What holds of the store while a call is in a phase. */
  ghost predicate PhaseWell(st: State, p: Phase) {
    && (Holds(p).Some? ==> Holds(p).value < st.nextSession)
    && (Before(p) ==> Get(st.sessions, Holds(p).value) == Some(Session(false, false)))
    && (p.Replaced? ==> && p.session !in st.sessions && Get(st.replacements, p.session) == Some(p.next)
                        && Get(st.sessions, p.next) == Some(Session(true, false)))
    && (p.Undoing? ==> p.session !in st.sessions && Get(st.replacements, p.session) == Some(p.next))
    && (p.Inspecting? && p.undone.Some? ==> p.session !in st.sessions && p.session in st.replacements)
  }

  /** Exactly one of the three good ends of a session whose lease somebody took. */
  ghost predicate LeaseBack(st: State, s: nat) {
    s in st.sessions && st.sessions[s].lease
  }

  ghost predicate Gone(st: State, s: nat) {
    s !in st.sessions && (s in st.replacements ==> st.replacements[s] !in st.sessions)
  }

  ghost predicate ReplacedByAuthenticated(st: State, s: nat) {
    && s !in st.sessions && s in st.replacements
    && Get(st.sessions, st.replacements[s]) == Some(Session(true, false))
  }

  /** Identities are given out once; only a pending session has a lease. */
  ghost predicate SessionsWell(st: State) {
    forall s :: s in st.sessions ==> s < st.nextSession && (st.sessions[s].authenticated ==> !st.sessions[s].lease)
  }

  /** A rotation ends one session and starts an authenticated one. */
  ghost predicate ReplacementsWell(st: State) {
    && (forall s :: s in st.replacements ==>
          s < st.nextSession && s !in st.sessions && st.replacements[s] < st.nextSession && st.replacements[s] !in st.replacements)
    && (forall s, t :: s in st.replacements && t in st.replacements && s != t ==> st.replacements[s] != st.replacements[t])
    && (forall s :: s in st.replacements && st.replacements[s] in st.sessions ==> st.sessions[st.replacements[s]] == Session(true, false))
    && (forall s :: s in st.sessions && st.sessions[s].authenticated ==> s in st.replacements.Values)
  }

  ghost predicate StoreWell(st: State) {
    SessionsWell(st) && ReplacementsWell(st)
  }

  ghost predicate CallsWell(st: State) {
    forall c :: c in st.calls ==> PhaseWell(st, st.calls[c])
  }

  ghost predicate OneHolder(st: State) {
    forall c, d :: c in st.calls && d in st.calls && c != d && Holds(st.calls[c]).Some? ==>
      Holds(st.calls[c]) != Holds(st.calls[d])
  }

  /** A pending session without lease is in somebody's hands, or a store operation failed on it. */
  ghost predicate Held(st: State, s: nat) {
    exists c :: c in st.calls && Holds(st.calls[c]) == Some(s)
  }

  ghost predicate Remembered(st: State) {
    forall s :: s in st.sessions && st.sessions[s] == Session(false, false) && s !in st.stranded ==> Held(st, s)
  }

  ghost predicate Inv(st: State) {
    StoreWell(st) && CallsWell(st) && OneHolder(st) && Remembered(st)
  }

  lemma StartInv()
    ensures Inv(START)
  {
  }

  /** When a step does an effect, the store is ready for it. */
  ghost predicate EffectWell(st: State, e: Effect) {
    match e
    case PutLease(s) => Get(st.sessions, s) == Some(Session(false, false))
    case TakeLease(s) => s in st.sessions && st.sessions[s].lease
    case Rotate(s) => Get(st.sessions, s) == Some(Session(false, false))
    case _ => true
  }

  lemma PlanIsWell(st: State, p: Phase, o: Outcome, attempts: nat)
    requires SessionsWell(st) && PhaseWell(st, p)
    ensures var (e, q) := Plan(st, p, o, attempts); EffectWell(st, e) && PhaseWell(Do(st, e), q)
  {
    PlanEffectIsWell(st, p, o, attempts);
  }

  lemma PlanEffectIsWell(st: State, p: Phase, o: Outcome, attempts: nat)
    requires PhaseWell(st, p)
    ensures EffectWell(st, Plan(st, p, o, attempts).0)
  {
  }

  /** A call gets hold of a session only by taking its lease or by making it. */
  lemma PlanTakesOrMakes(st: State, p: Phase, o: Outcome, attempts: nat)
    ensures var (e, q) := Plan(st, p, o, attempts);
            && (Holds(q).Some? && Holds(q) != Holds(p) ==> e == Create || e == TakeLease(Holds(q).value))
            && (e.Create? ==> Holds(q) == Some(st.nextSession))
  {
  }

  /** The session an effect changes. */
  function Touches(st: State, e: Effect): Option<nat> {
    match e
    case PutLease(s) => Some(s)
    case Rotate(s) => Some(s)
    case Delete(s) => Some(s)
    case _ => None
  }

  /** A call only changes a session it holds, or the one it has just made. */
  lemma PlanTouchesItsOwn(st: State, p: Phase, o: Outcome, attempts: nat)
    requires PhaseWell(st, p)
    ensures var (e, q) := Plan(st, p, o, attempts);
            Touches(st, e).Some? ==> Touches(st, e) == Holds(p) || (p.Undoing? && Touches(st, e) == Some(p.next))
  {
  }

  lemma EffectKeepsStore(st: State, e: Effect)
    requires StoreWell(st) && EffectWell(st, e)
    ensures StoreWell(Do(st, e))
  {
    if e.Rotate? {
      assert forall s :: s in st.replacements ==> st.replacements[s] != e.s;
      assert st.nextSession in Do(st, e).replacements.Values by { assert e.s in Do(st, e).replacements; }
      forall s | s in st.replacements.Values ensures s in Do(st, e).replacements.Values {
        var r :| r in st.replacements && st.replacements[r] == s;
        assert r in Do(st, e).replacements;
      }
    }
  }

  /** A phase is not disturbed by an effect on another call's session. */
  lemma EffectKeepsPhase(st: State, e: Effect, q: Phase)
    requires StoreWell(st) && EffectWell(st, e) && PhaseWell(st, q)
    requires Touches(st, e).Some? ==> Touches(st, e) != Holds(q) && (q.Replaced? ==> Touches(st, e) != Some(q.next))
    requires e.TakeLease? ==> Holds(q) != Some(e.s)
    ensures PhaseWell(Do(st, e), q)
  {
  }

  /** Nobody holds what a step is about to take or to make. */
  lemma NewHolderIsAlone(st: State, e: Effect, q: Phase)
    requires StoreWell(st) && EffectWell(st, e) && PhaseWell(st, q)
    ensures e.TakeLease? ==> Holds(q) != Some(e.s)
    ensures e.Create? ==> Holds(q) != Some(st.nextSession)
  {
  }

  lemma StepKeepsOthers(st: State, c: nat, o: Outcome, attempts: nat, d: nat)
    requires StoreWell(st) && CallsWell(st) && OneHolder(st) && c in st.calls && d in st.calls && d != c
    ensures var (e, q) := Plan(st, st.calls[c], o, attempts);
            PhaseWell(Do(st, e), st.calls[d]) && (Holds(q).Some? ==> Holds(q) != Holds(st.calls[d]))
  {
    hide SessionsWell, ReplacementsWell, Plan, PhaseWell;
    var (e, q) := Plan(st, st.calls[c], o, attempts);
    PlanIsWell(st, st.calls[c], o, attempts);
    PlanTakesOrMakes(st, st.calls[c], o, attempts);
    PlanTouchesItsOwn(st, st.calls[c], o, attempts);
    NewHolderIsAlone(st, e, st.calls[d]);
    MadeByOne(st, st.calls[c], st.calls[d]);
    EffectKeepsPhase(st, e, st.calls[d]);
  }

  /** A session made by one rotation is nobody else's. */
  lemma MadeByOne(st: State, p: Phase, q: Phase)
    requires StoreWell(st) && PhaseWell(st, p) && PhaseWell(st, q)
    requires Holds(p).Some? ==> Holds(p) != Holds(q)
    ensures p.Undoing? ==> Holds(q) != Some(p.next) && (q.Replaced? ==> q.next != p.next)
    ensures q.Replaced? ==> Holds(p) != Some(q.next)
  {
  }

  /** No pending session is forgotten: its lease is back, or its holder still has it, or the step stranded it. */
  lemma PlanForgetsNothing(st: State, p: Phase, o: Outcome, attempts: nat, s: nat)
    requires PhaseWell(st, p)
    requires var (e, _) := Plan(st, p, o, attempts);
             Get(Do(st, e).sessions, s) == Some(Session(false, false)) && s !in Do(st, e).stranded
    ensures var (e, q) := Plan(st, p, o, attempts);
            Holds(q) == Some(s) || (Get(st.sessions, s) == Some(Session(false, false)) && s !in st.stranded && Holds(p) != Some(s))
  {
  }

  lemma StepKeepsInv(st: State, c: nat, o: Outcome, attempts: nat)
    requires Inv(st) && c in st.calls
    ensures Inv(Step(st, c, o, attempts))
  {
    hide SessionsWell, ReplacementsWell, Plan, PhaseWell, Do;
    var (e, q) := Plan(st, st.calls[c], o, attempts);
    var st' := Step(st, c, o, attempts);
    PlanIsWell(st, st.calls[c], o, attempts);
    EffectKeepsStore(st, e);
    CallsAreSeparate(Do(st, e), c, q);
    EffectKeepsCalls(st, e);
    forall d | d in st'.calls ensures PhaseWell(st', st'.calls[d]) {
      if d != c { StepKeepsOthers(st, c, o, attempts, d); }
      CallsAreSeparatePhase(Do(st, e), c, q, st'.calls[d]);
    }
    forall d | d in st.calls && d != c && Holds(q).Some? ensures Holds(q) != Holds(st.calls[d]) {
      StepKeepsOthers(st, c, o, attempts, d);
    }
    forall s | s in st'.sessions && st'.sessions[s] == Session(false, false) && s !in st'.stranded ensures Held(st', s) {
      PlanForgetsNothing(st, st.calls[c], o, attempts, s);
      if Holds(q) == Some(s) {
        assert c in st'.calls && Holds(st'.calls[c]) == Some(s);
      } else {
        assert Held(st, s);
        var d :| d in st.calls && Holds(st.calls[d]) == Some(s);
        assert d in st'.calls && Holds(st'.calls[d]) == Some(s);
      }
    }
  }

  lemma EffectKeepsCalls(st: State, e: Effect)
    ensures Do(st, e).calls == st.calls
  {
  }

  /** The phase a call is in is no part of the store. */
  lemma CallsAreSeparate(st: State, c: nat, q: Phase)
    ensures StoreWell(Goto(st, c, q)) <==> StoreWell(st)
  {
  }

  lemma CallsAreSeparatePhase(st: State, c: nat, q: Phase, r: Phase)
    ensures PhaseWell(Goto(st, c, q), r) <==> PhaseWell(st, r)
  {
  }

  // ---------------------------------------------------------------- runs

  lemma ApplyKeepsInv(st: State, e: Event)
    requires Inv(st)
    ensures Inv(Apply(st, e))
  {
    match e
    case LoginStarts(c) => if c !in st.calls { StartKeepsInv(st, c, Logging); }
    case ChallengeStarts(c, s) => if c !in st.calls { StartKeepsInv(st, c, Reading(s)); }
    case Steps(c, o, n) => if c in st.calls { StepKeepsInv(st, c, o, n); }
  }

  lemma StartKeepsInv(st: State, c: nat, p: Phase)
    requires Inv(st) && (p.Logging? || p.Reading?) && c !in st.calls
    ensures Inv(Goto(st, c, p))
  {
    var st' := Goto(st, c, p);
    CallsAreSeparate(st, c, p);
    forall d | d in st'.calls ensures PhaseWell(st', st'.calls[d]) {
      if d != c { CallsAreSeparatePhase(st, c, p, st.calls[d]); }
    }
    forall s: nat | Held(st, s) ensures Held(st', s) {
      var d :| d in st.calls && Holds(st.calls[d]) == Some(s);
      assert d in st'.calls && Holds(st'.calls[d]) == Some(s);
    }
  }

  lemma {:induction false} RunKeepsInv(events: seq<Event>)
    ensures Inv(Run(START, events))
    decreases |events|
  {
    if events == [] {
      StartInv();
    } else {
      RunKeepsInv(events[..|events| - 1]);
      ApplyKeepsInv(Run(START, events[..|events| - 1]), events[|events| - 1]);
    }
  }

  /** Over all interleavings, at most one call holds the lease of a session, and then nobody can take it. */
  lemma OneHolderEver(events: seq<Event>, c: nat, d: nat)
    ensures var st := Run(START, events);
            c in st.calls && d in st.calls && Holds(st.calls[c]).Some? && Holds(st.calls[c]) == Holds(st.calls[d]) ==>
              c == d && !LeaseBack(st, Holds(st.calls[c]).value)
  {
    RunKeepsInv(events);
    var st := Run(START, events);
    if c in st.calls && Holds(st.calls[c]).Some? { assert PhaseWell(st, st.calls[c]); }
  }

  /** A session that some rotation made, as opposed to one that a login made with a pending challenge. */
  ghost predicate MadeByRotation(st: State, s: nat) {
    s in st.replacements.Values
  }

  /**
   * Whenever no call has the lease of a challenge session in hand, the session is in exactly one of three
   * conditions: its lease is back, it is gone, or an authenticated session has replaced it. The one
   * exception is a session on which giving back, ending or reading back has itself failed.
   */
  lemma EveryExitSettles(events: seq<Event>, s: nat)
    ensures var st := Run(START, events);
            s < st.nextSession && !MadeByRotation(st, s) && !Held(st, s) && s !in st.stranded ==>
              && (LeaseBack(st, s) || Gone(st, s) || ReplacedByAuthenticated(st, s))
              && !(LeaseBack(st, s) && Gone(st, s)) && !(LeaseBack(st, s) && ReplacedByAuthenticated(st, s))
              && !(Gone(st, s) && ReplacedByAuthenticated(st, s))
  {
    RunKeepsInv(events);
  }

  /**
   * The exception is for good: whatever happens after it, a session that is pending without lease and in
   * nobody's hands stays so, and no challenge of it ever gets anywhere.
   */
  lemma {:induction false} StrandedIsDead(st: State, s: nat, events: seq<Event>)
    requires Inv(st) && Get(st.sessions, s) == Some(Session(false, false)) && !Held(st, s)
    ensures Inv(Run(st, events))
    ensures Get(Run(st, events).sessions, s) == Some(Session(false, false)) && !Held(Run(st, events), s)
    decreases |events|
  {
    if events != [] {
      hide Inv, Held, Apply;
      var init, last := events[..|events| - 1], events[|events| - 1];
      StrandedIsDead(st, s, init);
      ApplyKeepsInv(Run(st, init), last);
      StrandedStays(Run(st, init), s, last);
    }
  }

  lemma StrandedStays(st: State, s: nat, e: Event)
    requires Inv(st) && Get(st.sessions, s) == Some(Session(false, false)) && !Held(st, s)
    ensures Get(Apply(st, e).sessions, s) == Some(Session(false, false)) && !Held(Apply(st, e), s)
  {
    match e
    case LoginStarts(c) =>
    case ChallengeStarts(c, _) =>
    case Steps(c, o, n) =>
      if c in st.calls {
        var st' := Apply(st, e);
        assert PhaseWell(st, st.calls[c]) && Holds(st.calls[c]) != Some(s);
        UndoneIsAuthenticated(st, st.calls[c]);
        PlanLeavesAlone(st, st.calls[c], o, n, s);
      }
  }

  lemma UndoneIsAuthenticated(st: State, p: Phase)
    requires StoreWell(st) && PhaseWell(st, p)
    ensures p.Undoing? && p.next in st.sessions ==> st.sessions[p.next].authenticated
  {
  }

  lemma PlanLeavesAlone(st: State, p: Phase, o: Outcome, attempts: nat, s: nat)
    requires SessionsWell(st) && PhaseWell(st, p) && Holds(p) != Some(s) && Get(st.sessions, s) == Some(Session(false, false))
    requires p.Undoing? ==> p.next != s
    ensures var (e, q) := Plan(st, p, o, attempts);
            Get(Do(st, e).sessions, s) == Some(Session(false, false)) && Holds(q) != Some(s)
  {
  }

  /** The last chance to give the lease back, to end the session or to read it back. */
  predicate LastChance(p: Phase) {
    p.Refusing? || p.Returning? || p.Ending? || p.GivingUp? || (p.Inspecting? && p.undone.None?)
  }

  /**
   * The exact condition, for the step with which a call ends: the session it had in hand is settled unless
   * the step was the last chance and failed.
   */
  lemma LastStepSettlesExactly(st: State, c: nat, o: Outcome, attempts: nat, s: nat)
    requires Inv(st) && c in st.calls && Holds(st.calls[c]) == Some(s)
    requires Step(st, c, o, attempts).calls[c].Finished?
    ensures var st' := Step(st, c, o, attempts);
            LeaseBack(st', s) || Gone(st', s) || ReplacedByAuthenticated(st', s) <==> !(LastChance(st.calls[c]) && !o.Succeeds?)
  {
    assert PhaseWell(st, st.calls[c]);
    PlanSettles(st, st.calls[c], o, attempts, s);
  }

  /** Seen from the store alone. */
  lemma PlanSettles(st: State, p: Phase, o: Outcome, attempts: nat, s: nat)
    requires PhaseWell(st, p) && Holds(p) == Some(s)
    requires s in st.replacements && st.replacements[s] in st.sessions ==> st.sessions[st.replacements[s]] == Session(true, false)
    requires s in st.replacements ==> st.replacements[s] != s
    requires Plan(st, p, o, attempts).1.Finished?
    ensures var st' := Do(st, Plan(st, p, o, attempts).0);
            LeaseBack(st', s) || Gone(st', s) || ReplacedByAuthenticated(st', s) <==> !(LastChance(p) && !o.Succeeds?)
  {
  }

  // ---------------------------------------------------------------- only a verified code logs in

  /** The session whose code this event finds right; `Plan` is not asked. */
  function VerifiedBy(st: State, e: Event): set<nat> {
    if e.Steps? && e.call in st.calls && st.calls[e.call].Checking? && e.outcome.Succeeds? then {st.calls[e.call].session} else {}
  }

  function Verified(st: State, events: seq<Event>): set<nat>
    decreases |events|
  {
    if events == [] then {}
    else Verified(st, events[..|events| - 1]) + VerifiedBy(Run(st, events[..|events| - 1]), events[|events| - 1])
  }

  /** Sessions are replaced, and about to be, only after their code was found right. */
  ghost predicate ReplacedWhenVerified(st: State, verified: set<nat>) {
    && (forall s :: s in st.replacements ==> s in verified)
    && (forall c :: c in st.calls && st.calls[c].Establishing? ==> st.calls[c].session in verified)
  }

  lemma ApplyVerifies(st: State, e: Event, verified: set<nat>)
    requires ReplacedWhenVerified(st, verified)
    ensures ReplacedWhenVerified(Apply(st, e), verified + VerifiedBy(st, e))
  {
  }

  /**
   * Over every interleaving: an authenticated session has replaced a challenge session only if a call that
   * held the challenge's lease found its code right.
   */
  lemma {:induction false} OnlyVerifiedLogIn(events: seq<Event>)
    ensures ReplacedWhenVerified(Run(START, events), Verified(START, events))
    ensures forall s :: s in Run(START, events).sessions && Run(START, events).sessions[s].authenticated ==>
              exists former :: former in Verified(START, events) && Get(Run(START, events).replacements, former) == Some(s)
    decreases |events|
  {
    hide Inv;
    if events != [] {
      hide Apply, VerifiedBy;
      OnlyVerifiedLogIn(events[..|events| - 1]);
      ApplyVerifies(Run(START, events[..|events| - 1]), events[|events| - 1], Verified(START, events[..|events| - 1]));
    }
    hide Run, Verified;
    RunKeepsInv(events);
    AuthenticatedReplaced(Run(START, events));
  }

  lemma AuthenticatedReplaced(st: State)
    requires Inv(st)
    ensures forall s :: s in st.sessions && st.sessions[s].authenticated ==> exists former :: Get(st.replacements, former) == Some(s)
  {
    forall s | s in st.sessions && st.sessions[s].authenticated ensures exists former :: Get(st.replacements, former) == Some(s) {
      var former :| former in st.replacements && st.replacements[former] == s;
      assert Get(st.replacements, former) == Some(s);
    }
  }

  // ---------------------------------------------------------------- what a check decides

  /** Events of other calls. */
  predicate OfOthers(events: seq<Event>, c: nat) {
    forall k :: 0 <= k < |events| ==> !(events[k].Steps? && events[k].call == c)
  }

  /** A call stays where it is while others go on. */
  lemma {:induction false} WaitsForItself(st: State, events: seq<Event>, c: nat)
    requires Inv(st) && c in st.calls && OfOthers(events, c)
    ensures Inv(Run(st, events)) && Get(Run(st, events).calls, c) == Some(st.calls[c])
    decreases |events|
  {
    if events != [] {
      hide Inv;
      WaitsForItself(st, events[..|events| - 1], c);
      ApplyKeepsInv(Run(st, events[..|events| - 1]), events[|events| - 1]);
      OthersLeavePhase(Run(st, events[..|events| - 1]), events[|events| - 1], c);
    }
  }

  lemma OthersLeavePhase(st: State, e: Event, c: nat)
    requires c in st.calls && !(e.Steps? && e.call == c)
    ensures Get(Apply(st, e).calls, c) == Some(st.calls[c])
  {
  }

  /** The call's step, anything others do, and its next step, whose store operation succeeds. */
  function Concluded(st: State, c: nat, o: Outcome, attempts: nat, between: seq<Event>): State {
    Apply(Run(Apply(st, Steps(c, o, attempts)), between), Steps(c, Succeeds, 0))
  }

  /**
   * What a check of a code leads to, whatever others do meanwhile and as long as the store works: a right code
   * replaces the session by an authenticated one; a wrong one, or a check that fails, gives the lease back for
   * another try; from the fifth counted attempt on a wrong one ends the session.
   */
  lemma CheckDecides(st: State, c: nat, o: Outcome, attempts: nat, between: seq<Event>)
    requires Inv(st) && c in st.calls && st.calls[c].Checking? && OfOthers(between, c)
    ensures var s, n := st.calls[c].session, st.calls[c].attempts; var st' := Concluded(st, c, o, attempts, between);
            && (o.Succeeds? ==> ReplacedByAuthenticated(st', s))
            && (o.Wrong? && n < 5 ==> LeaseBack(st', s))
            && (o.Wrong? && n >= 5 ==> Gone(st', s))
            && (o.Fails? || o.Limited? ==> LeaseBack(st', s))
  {
    hide Inv, Run;
    var e := Steps(c, o, attempts);
    ApplyKeepsInv(st, e);
    WaitsForItself(Apply(st, e), between, c);
    WorkingStep(Run(Apply(st, e), between), c);
  }

  /**
   * What the count of attempts leads to: above the limit the session ends; with a count the code is checked;
   * without one the lease is given back.
   */
  lemma CountDecides(st: State, c: nat, o: Outcome, attempts: nat, between: seq<Event>)
    requires Inv(st) && c in st.calls && st.calls[c].Counting? && OfOthers(between, c)
    ensures var s := st.calls[c].session; var st' := Concluded(st, c, o, attempts, between);
            && (o.Limited? ==> Gone(st', s))
            && (o.Succeeds? && attempts >= 1 ==> Get(Apply(st, Steps(c, o, attempts)).calls, c) == Some(Checking(s, attempts)))
            && (o.Fails? || o.Wrong? || (o.Succeeds? && attempts == 0) ==> LeaseBack(st', s))
  {
    hide Inv, Run;
    var e := Steps(c, o, attempts);
    ApplyKeepsInv(st, e);
    WaitsForItself(Apply(st, e), between, c);
    WorkingStep(Run(Apply(st, e), between), c);
  }

  /** A step whose store operation works settles the session it concludes. */
  lemma WorkingStep(st: State, c: nat)
    requires Inv(st) && c in st.calls
    ensures var st' := Apply(st, Steps(c, Succeeds, 0));
            && (st.calls[c].Returning? || st.calls[c].Granting? || st.calls[c].Recovering? ==> LeaseBack(st', st.calls[c].session))
            && (st.calls[c].Ending? || st.calls[c].Refusing? || st.calls[c].GivingUp? ==> Gone(st', st.calls[c].session))
            && (st.calls[c].Establishing? ==> ReplacedByAuthenticated(st', st.calls[c].session))
  {
    assert PhaseWell(st, st.calls[c]);
  }

  /** A step that fails, and then two that work. */
  function Recovered(st: State, c: nat): State {
    Apply(Apply(Apply(st, Steps(c, Fails, 0)), Steps(c, Succeeds, 0)), Steps(c, Succeeds, 0))
  }

  /** A step as its plan says. */
  lemma StepIs(st: State, c: nat, o: Outcome)
    requires c in st.calls
    ensures var (effect, phase) := Plan(st, st.calls[c], o, 0);
            Apply(st, Steps(c, o, 0)) == Goto(Do(st, effect), c, phase) && Apply(st, Steps(c, o, 0)).calls[c] == phase
  {
  }

  /** An establishment that fails before the rotation: as long as the store works, the lease is given back. */
  lemma FailedEstablishmentRecovers(st: State, c: nat)
    requires Inv(st) && c in st.calls && st.calls[c].Establishing?
    ensures LeaseBack(Recovered(st, c), st.calls[c].session) && Recovered(st, c).calls[c].Finished?
  {
    assert PhaseWell(st, st.calls[c]);
    hide Inv, Apply;
    var s := st.calls[c].session;
    StepIs(st, c, Fails);
    var inspecting := Apply(st, Steps(c, Fails, 0));
    assert inspecting.calls[c] == Inspecting(s, None) && inspecting.sessions == st.sessions;
    StepIs(inspecting, c, Succeeds);
    var recovering := Apply(inspecting, Steps(c, Succeeds, 0));
    assert recovering.calls[c] == Recovering(s) && recovering.sessions == st.sessions;
    StepIs(recovering, c, Succeeds);
  }

  /** One that fails after the rotation: the new session is deleted, so that both are gone. */
  lemma FailedReplacementEndsBoth(st: State, c: nat)
    requires Inv(st) && c in st.calls && st.calls[c].Replaced?
    ensures Gone(Recovered(st, c), st.calls[c].session) && Recovered(st, c).calls[c].Finished?
  {
    assert PhaseWell(st, st.calls[c]);
    hide Inv, Apply, PhaseWell;
    var s, next := st.calls[c].session, st.calls[c].next;
    StepIs(st, c, Fails);
    var undoing := Apply(st, Steps(c, Fails, 0));
    assert undoing.calls[c] == Undoing(s, next) && undoing.sessions == st.sessions && undoing.replacements == st.replacements;
    UndoingEndsBoth(undoing, c);
    hide Gone;
  }

  lemma UndoingEndsBoth(st: State, c: nat)
    requires c in st.calls && st.calls[c].Undoing? && st.calls[c].session !in st.sessions
    requires Get(st.replacements, st.calls[c].session) == Some(st.calls[c].next)
    ensures var st' := Apply(Apply(st, Steps(c, Succeeds, 0)), Steps(c, Succeeds, 0));
            Gone(st', st.calls[c].session) && c in st'.calls && st'.calls[c].Finished?
  {
    hide Apply;
    var s, next := st.calls[c].session, st.calls[c].next;
    StepIs(st, c, Succeeds);
    var inspecting := Apply(st, Steps(c, Succeeds, 0));
    assert inspecting.calls[c] == Inspecting(s, Some(next)) && inspecting.sessions == st.sessions - {next};
    StepIs(inspecting, c, Succeeds);
  }

  /** A login makes a session with a challenge, and only a call that finds the lease there goes on to its code. */
  lemma ChallengeNeedsLease(st: State, c: nat, o: Outcome, attempts: nat)
    requires Inv(st) && c in st.calls
    ensures var st' := Apply(st, Steps(c, o, attempts));
            && (st.calls[c].Logging? && o.Succeeds? ==>
                  Get(st'.sessions, st.nextSession) == Some(Session(false, false)) && Get(st'.calls, c) == Some(Granting(st.nextSession)))
            && (st.calls[c].Asking? && Get(st'.calls, c) == Some(Counting(st.calls[c].session)) <==>
                  st.calls[c].Asking? && o.Succeeds? && LeaseBack(st, st.calls[c].session))
            && (st.calls[c].Reading? && Get(st'.calls, c) == Some(Asking(st.calls[c].session)) <==>
                  st.calls[c].Reading? && o.Succeeds? && st.calls[c].session in st.sessions && !st.sessions[st.calls[c].session].authenticated)
  {
  }

  lemma RunOneMore(st: State, events: seq<Event>, e: Event)
    ensures Run(st, events + [e]) == Apply(Run(st, events), e)
  {
    assert (events + [e])[..|events|] == events;
  }

  /** A login grants its challenge, and a call takes the lease. */
  function Taken(): seq<Event> {
    var ok := Succeeds;
    [LoginStarts(0)] + [Steps(0, ok, 0)] + [Steps(0, ok, 0)] + [ChallengeStarts(1, 0)] + [Steps(1, ok, 0)] + [Steps(1, ok, 0)]
  }

  lemma TakenIs()
    ensures Run(START, Taken()) == State(map[0 := Session(false, false)], map[0 := Finished(Some(0)), 1 := Counting(0)], 1, map[], {})
  {
    var ok := Succeeds;
    var es: seq<Event> := [LoginStarts(0)];
    RunOneMore(START, [], LoginStarts(0));
    assert [] + es == es;
    RunOneMore(START, es, Steps(0, ok, 0));
    RunOneMore(START, es + [Steps(0, ok, 0)], Steps(0, ok, 0));
    RunOneMore(START, es + [Steps(0, ok, 0)] + [Steps(0, ok, 0)], ChallengeStarts(1, 0));
    RunOneMore(START, es + [Steps(0, ok, 0)] + [Steps(0, ok, 0)] + [ChallengeStarts(1, 0)], Steps(1, ok, 0));
    RunOneMore(START, es + [Steps(0, ok, 0)] + [Steps(0, ok, 0)] + [ChallengeStarts(1, 0)] + [Steps(1, ok, 0)], Steps(1, ok, 0));
  }

  /** Then the rate limiter fails, and giving the lease back fails too. */
  function Stranding(): seq<Event> {
    Taken() + [Steps(1, Fails, 0)] + [Steps(1, Fails, 0)]
  }

  lemma StrandingIs()
    ensures Run(START, Stranding())
         == State(map[0 := Session(false, false)], map[0 := Finished(Some(0)), 1 := Finished(Some(0))], 1, map[], {0})
  {
    hide Taken;
    TakenIs();
    var e := Steps(1, Fails, 0);
    RunOneMore(START, Taken(), e);
    RunOneMore(START, Taken() + [e], e);
  }

  /** It happens: a challenge is stranded, and no later event helps. */
  lemma ChallengeIsStranded(later: seq<Event>)
    ensures var st := Run(START, Stranding());
            0 in st.stranded && Get(Run(st, later).sessions, 0) == Some(Session(false, false)) && !Held(Run(st, later), 0)
  {
    StrandingIs();
    RunKeepsInv(Stranding());
    var st := Run(START, Stranding());
    assert !Held(st, 0);
    hide Inv, Held, Stranding, Run;
    StrandedIsDead(st, 0, later);
  }
}
