/**
 * One-time codes of one identity, over all its sessions: TOTP counters, recovery codes and the shared
 * rate limit, with challenge, disable, regenerate and enrolment interleaving at every `await`. A code is
 * checked against the credential read before, and accepted by the one that is live.
 *
 * The store operations (packages/auth/src/contracts.ts:718-725) and the rate limiter's `hit` are atomic.
 */
module OneTimeCodes {
  import opened Prelude

  /** A recovery code, hashed. */
  type Hash = nat

  /** The row of the multi-factor store. Enrolments are numbered: each has its own secret. */
  datatype Credential = Credential(enrolment: nat, counter: nat, hashes: seq<Hash>)

  /** What an accepting store operation returns. */
  datatype Verification = Verification(counter: nat, hashes: seq<Hash>)

  /**
   * A verification in progress. It reads the credential with `find`, and checks its code against the secret
   * of the enrolment it `read` then; `Passed` keeps what the store returned.
   */
  datatype Phase =
    | Found(read: nat)
    | Admitted(read: nat)
    | Trying(read: nat, counters: seq<nat>)
    | Passed(verified: Verification)
    | Cleared(verified: Verification)
    | Finished

  /** A counter that was accepted, and the enrolment whose secret its code was checked against. */
  datatype Acceptance = Acceptance(counter: nat, against: nat)

  /**
   * The multi-factor store's row of the identity, with its history. `enrolments`: how many there were.
   * `accepted`: the counters of the live credential, from the enrolment counter on. `issued`, `spent` and
   * `dropped`: recovery hashes, ever.
   */
  datatype Vault = Vault(credential: Option<Credential>, enrolments: nat, accepted: seq<Acceptance>,
                         issued: multiset<Hash>, spent: multiset<Hash>, dropped: multiset<Hash>)

  /**
   * The limiter's key and the calls. `checks`: codes checked since the key was last reset; `carried`: calls
   * admitted before that which had not checked yet; `waiting`: the admitted calls that have not checked.
   */
  datatype Limiter = Limiter(attempts: nat, calls: map<nat, Phase>, checks: nat, carried: nat, waiting: set<nat>)

  datatype State = State(vault: Vault, limiter: Limiter)

  const MAX_ATTEMPTS: nat := 5

  datatype Event =
    | Enrol(counter: nat, hashes: seq<Hash>)
    | Find(call: nat)
    | Hit(call: nat)
    | TryTotp(call: nat, counters: seq<nat>)
    | Advance(call: nat)
    | TryRecovery(call: nat, hash: Hash)
    | Clear(call: nat, works: bool)
    | Regenerate(call: nat, hashes: seq<Hash>)
    | Disable(call: nat)
    | WindowEnds

  // ---------------------------------------------------------------- the store

  /** `save` refuses when a credential exists. */
  function Save(v: Vault, counter: nat, hashes: seq<Hash>): Vault {
    if v.credential.Some? then v
    else v.(credential := Some(Credential(v.enrolments, counter, hashes)), enrolments := v.enrolments + 1,
            accepted := [Acceptance(counter, v.enrolments)], issued := v.issued + multiset(hashes))
  }

  function Delete(v: Vault): Vault {
    if v.credential.None? then v
    else v.(credential := None, accepted := [], dropped := v.dropped + multiset(v.credential.value.hashes))
  }

  function Verified(c: Credential): Verification {
    Verification(c.counter, c.hashes)
  }

  /** `advanceCounter` accepts a counter above the last one used; it does not ask whose secret it came from. */
  function AdvanceCounter(v: Vault, counter: nat, read: nat): (Vault, Option<Verification>) {
    if v.credential.Some? && counter > v.credential.value.counter then
      var updated := v.credential.value.(counter := counter);
      (v.(credential := Some(updated), accepted := v.accepted + [Acceptance(counter, read)]), Some(Verified(updated)))
    else (v, None)
  }

  function Without(hashes: seq<Hash>, h: Hash): (r: seq<Hash>)
    ensures h in hashes ==> multiset(hashes) == multiset(r) + multiset{h}
    ensures h !in hashes ==> r == hashes
  {
    if hashes == [] then []
    else
      assert hashes == [hashes[0]] + hashes[1..];
      if hashes[0] == h then hashes[1..] else [hashes[0]] + Without(hashes[1..], h)
  }

  /** `consumeRecoveryCode` takes out the first occurrence of the hash. */
  function ConsumeRecoveryCode(v: Vault, h: Hash): (Vault, Option<Verification>) {
    if v.credential.Some? && h in v.credential.value.hashes then
      var updated := v.credential.value.(hashes := Without(v.credential.value.hashes, h));
      (v.(credential := Some(updated), spent := v.spent + multiset{h}), Some(Verified(updated)))
    else (v, None)
  }

  /** `replaceRecoveryCodes` compares with what the verification returned. */
  function ReplaceRecoveryCodes(v: Vault, hashes: seq<Hash>, verified: Verification): Vault {
    if v.credential.Some? && Verified(v.credential.value) == verified then
      v.(credential := Some(v.credential.value.(hashes := hashes)),
         issued := v.issued + multiset(hashes),
         dropped := v.dropped + multiset(verified.hashes))
    else v
  }

  // ---------------------------------------------------------------- the limiter

  function Goto(l: Limiter, c: nat, p: Phase): Limiter {
    l.(calls := l.calls[c := p], waiting := if p.Admitted? then l.waiting + {c} else l.waiting - {c})
  }

  function At(l: Limiter, c: nat): Option<Phase> {
    Get(l.calls, c)
  }

  /** The key starts from nothing, by `clear` or because its window has passed. */
  function Reset(l: Limiter): Limiter {
    l.(attempts := 0, checks := 0, carried := |l.waiting|)
  }

  /** `hit` counts, and limits exactly above the maximum. */
  function Count(l: Limiter, c: nat, read: nat): Limiter {
    Goto(l.(attempts := l.attempts + 1), c, if l.attempts + 1 > MAX_ATTEMPTS then Finished else Admitted(read))
  }

  /** An admitted call checks its code. */
  function Check(l: Limiter, c: nat, p: Phase): Limiter {
    Goto(l.(checks := l.checks + 1), c, p)
  }

  /** The counters a code matches are tried from the newest down. */
  predicate NewestFirst(counters: seq<nat>) {
    forall i, j :: 0 <= i < j < |counters| ==> counters[i] > counters[j]
  }

  // ---------------------------------------------------------------- steps

  /** What a step of a verification does to the store, and the phase it leads to. */
  function Verify(v: Vault, p: Phase, e: Event): (Vault, Phase) {
    match (p, e)
    case (Admitted(read), TryTotp(_, counters)) => (v, Trying(read, counters))
    case (Admitted(_), TryRecovery(_, h)) =>
      var (v', r) := ConsumeRecoveryCode(v, h);
      (v', if r.Some? then Passed(r.value) else Finished)
    case (Trying(read, counters), Advance(_)) =>
      if counters == [] then (v, Finished)
      else
        var (v', r) := AdvanceCounter(v, counters[0], read);
        (v', if r.Some? then Passed(r.value) else Trying(read, counters[1..]))
    case (Passed(verified), Clear(_, _)) => (v, Cleared(verified))
    case (Cleared(verified), Regenerate(_, hashes)) => (ReplaceRecoveryCodes(v, hashes, verified), Finished)
    case (Cleared(_), Disable(_)) => (Delete(v), Finished)
    case _ => (v, p)
  }

  /** Whether the event can happen to a call in the phase. */
  predicate Enabled(p: Phase, e: Event) {
    match e
    case TryTotp(_, counters) => p.Admitted? && NewestFirst(counters)
    case TryRecovery(_, _) => p.Admitted?
    case Advance(_) => p.Trying?
    case Clear(_, _) => p.Passed?
    case Regenerate(_, _) => p.Cleared?
    case Disable(_) => p.Cleared?
    case _ => false
  }

  /** One atomic step. An event that cannot happen leaves the state as it is. */
  function Apply(st: State, e: Event): State {
    match e
    case Enrol(counter, hashes) => st.(vault := Save(st.vault, counter, hashes))
    case WindowEnds => st.(limiter := Reset(st.limiter))
    case Find(c) =>
      if At(st.limiter, c).Some? then st
      else st.(limiter := Goto(st.limiter, c, if st.vault.credential.Some? then Found(st.vault.credential.value.enrolment) else Finished))
    case Hit(c) =>
      if At(st.limiter, c).None? || !st.limiter.calls[c].Found? then st
      else st.(limiter := Count(st.limiter, c, st.limiter.calls[c].read))
    case _ =>
      var c := e.call;
      if At(st.limiter, c).None? || !Enabled(st.limiter.calls[c], e) then st
      else
        var (v, p) := Verify(st.vault, st.limiter.calls[c], e);
        var l := if e.Clear? && e.works then Reset(st.limiter) else st.limiter;
        State(v, if e.TryTotp? || e.TryRecovery? then Check(l, c, p) else Goto(l, c, p))
  }

  function Run(st: State, events: seq<Event>): State
    decreases |events|
  {
    if events == [] then st else Apply(Run(st, events[..|events| - 1]), events[|events| - 1])
  }

  const START := State(Vault(None, 0, [], multiset{}, multiset{}, multiset{}), Limiter(0, map[], 0, 0, {}))

  // ---------------------------------------------------------------- invariants

  predicate StrictlyIncreasing(s: seq<Acceptance>) {
    forall i, j :: 0 <= i < j < |s| ==> s[i].counter < s[j].counter
  }

  function Remaining(v: Vault): multiset<Hash> {
    if v.credential.Some? then multiset(v.credential.value.hashes) else multiset{}
  }

  /**
   * The live credential's counter is the last accepted one, and accepted counters only grow. Every hash ever
   * issued is spent, dropped or still there: none is lost, none appears.
   */
  ghost predicate VaultWell(v: Vault) {
    && StrictlyIncreasing(v.accepted)
    && (v.credential.Some? <==> v.accepted != [])
    && (v.credential.Some? ==> v.credential.value.counter == v.accepted[|v.accepted| - 1].counter)
    && (v.credential.Some? ==> v.credential.value.enrolment == v.enrolments - 1)
    && v.issued == v.spent + v.dropped + Remaining(v)
  }

  /** Checks are paid for by admissions since the last reset, or by calls admitted before it. */
  ghost predicate ChecksPaid(l: Limiter) {
    && (forall c :: c in l.waiting <==> At(l, c).Some? && At(l, c).value.Admitted?)
    && l.checks + |l.waiting| <= l.carried + Min(l.attempts, MAX_ATTEMPTS)
  }

  ghost predicate Inv(st: State) {
    VaultWell(st.vault) && ChecksPaid(st.limiter)
  }

  lemma SaveKeepsVault(v: Vault, counter: nat, hashes: seq<Hash>)
    requires VaultWell(v)
    ensures VaultWell(Save(v, counter, hashes)) && VaultWell(Delete(v))
  {
  }

  lemma AdvanceKeepsVault(v: Vault, counter: nat, read: nat)
    requires VaultWell(v)
    ensures VaultWell(AdvanceCounter(v, counter, read).0)
  {
  }

  lemma ConsumeKeepsVault(v: Vault, h: Hash)
    requires VaultWell(v)
    ensures VaultWell(ConsumeRecoveryCode(v, h).0)
  {
    hide StrictlyIncreasing;
  }

  lemma ReplaceKeepsVault(v: Vault, hashes: seq<Hash>, verified: Verification)
    requires VaultWell(v)
    ensures VaultWell(ReplaceRecoveryCodes(v, hashes, verified))
  {
    hide StrictlyIncreasing;
  }

  lemma VerifyKeepsVault(v: Vault, p: Phase, e: Event)
    requires VaultWell(v)
    ensures VaultWell(Verify(v, p, e).0)
  {
    hide VaultWell, Save, Delete, AdvanceCounter, ConsumeRecoveryCode, ReplaceRecoveryCodes;
    SaveKeepsVault(v, 0, []);
    if p.Trying? && p.counters != [] { AdvanceKeepsVault(v, p.counters[0], p.read); }
    if e.TryRecovery? { ConsumeKeepsVault(v, e.hash); }
    if e.Regenerate? && p.Cleared? { ReplaceKeepsVault(v, e.hashes, p.verified); }
  }

  predicate Waits(l: Limiter, c: nat) {
    At(l, c).Some? && At(l, c).value.Admitted?
  }

  lemma LimiterKeepsChecks(l: Limiter, c: nat, p: Phase, read: nat)
    requires ChecksPaid(l)
    ensures ChecksPaid(Reset(l))
    ensures !Waits(l, c) ==> ChecksPaid(Count(l, c, read))
    ensures !p.Admitted? ==> ChecksPaid(Goto(l, c, p))
    ensures !p.Admitted? && Waits(l, c) ==> ChecksPaid(Check(l, c, p))
  {
    hide ChecksPaid, Count, Goto, Check, Waits;
    ResetIsPaid(l);
    if !Waits(l, c) { CountIsPaid(l, c, read); }
    if !p.Admitted? { GotoIsPaid(l, c, p); }
    if !p.Admitted? && Waits(l, c) { CheckIsPaid(l, c, p); }
  }

  lemma ResetIsPaid(l: Limiter)
    requires ChecksPaid(l)
    ensures ChecksPaid(Reset(l))
  {
  }

  lemma CountIsPaid(l: Limiter, c: nat, read: nat)
    requires ChecksPaid(l) && !Waits(l, c)
    ensures ChecksPaid(Count(l, c, read))
  {
    assert c in l.waiting || l.waiting - {c} == l.waiting;
  }

  lemma GotoIsPaid(l: Limiter, c: nat, p: Phase)
    requires ChecksPaid(l) && !p.Admitted?
    ensures ChecksPaid(Goto(l, c, p))
  {
    assert c in l.waiting || l.waiting - {c} == l.waiting;
  }

  lemma CheckIsPaid(l: Limiter, c: nat, p: Phase)
    requires ChecksPaid(l) && !p.Admitted? && Waits(l, c)
    ensures ChecksPaid(Check(l, c, p))
  {
    assert c in l.waiting ==> |l.waiting - {c}| == |l.waiting| - 1;
    assert c in l.waiting || l.waiting - {c} == l.waiting;
  }

  lemma ApplyKeepsInv(st: State, e: Event)
    requires Inv(st)
    ensures Inv(Apply(st, e))
  {
    hide VaultWell, ChecksPaid, Verify, Goto, Count, Check, Reset, Save;
    match e
    case Enrol(counter, hashes) => SaveKeepsVault(st.vault, counter, hashes);
    case WindowEnds => LimiterKeepsChecks(st.limiter, 0, Finished, 0);
    case Find(c) =>
      var p := if st.vault.credential.Some? then Found(st.vault.credential.value.enrolment) else Finished;
      LimiterKeepsChecks(st.limiter, c, p, 0);
    case Hit(c) =>
      if At(st.limiter, c).Some? && st.limiter.calls[c].Found? { LimiterKeepsChecks(st.limiter, c, Finished, st.limiter.calls[c].read); }
    case _ =>
      var c := e.call;
      if At(st.limiter, c).Some? && Enabled(st.limiter.calls[c], e) {
        var (v, p) := Verify(st.vault, st.limiter.calls[c], e);
        VerifyKeepsVault(st.vault, st.limiter.calls[c], e);
        VerifyAdmitsNobody(st.vault, st.limiter.calls[c], e);
        LimiterKeepsChecks(st.limiter, c, p, 0);
        LimiterKeepsChecks(Reset(st.limiter), c, p, 0);
      }
  }

  lemma VerifyAdmitsNobody(v: Vault, p: Phase, e: Event)
    requires Enabled(p, e)
    ensures !Verify(v, p, e).1.Admitted?
  {
  }

  lemma {:induction false} RunKeepsInv(events: seq<Event>)
    ensures Inv(Run(START, events))
    decreases |events|
  {
    if events != [] {
      var st := Run(START, events[..|events| - 1]);
      RunKeepsInv(events[..|events| - 1]);
      ApplyKeepsInv(st, events[|events| - 1]);
    }
  }

  // ---------------------------------------------------------------- what it means

  /** While a credential lives, the counters accepted from it strictly increase from the enrolment counter. */
  lemma CountersIncrease(events: seq<Event>, i: nat, j: nat)
    ensures var accepted := Run(START, events).vault.accepted;
            i < j < |accepted| ==> accepted[i].counter < accepted[j].counter
  {
    RunKeepsInv(events);
  }

  /** A recovery code is accepted at most as often as it was issued: once, unless it is issued again. */
  lemma RecoveryCodesAreSpentOnce(events: seq<Event>, h: Hash)
    ensures Run(START, events).vault.spent[h] <= Run(START, events).vault.issued[h]
  {
    RunKeepsInv(events);
  }

  /** At most five codes are checked between two resets, besides those of calls admitted before the first. */
  lemma ChecksAreLimited(events: seq<Event>)
    ensures var l := Run(START, events).limiter; l.checks <= l.carried + MAX_ATTEMPTS
    ensures var l := Run(START, events).limiter; l.carried == 0 ==> l.checks <= MAX_ATTEMPTS
  {
    RunKeepsInv(events);
  }

  // ---------------------------------------------------------------- the limit is exact

  /** Calls that have not started; there is always one. */
  predicate Fresh(l: Limiter, c: nat) {
    forall d :: d in l.calls ==> d < c
  }

  /** The events of new calls, one after the other: each is admitted and checks a wrong recovery code. */
  function Attempts(from: nat, n: nat, wrong: Hash): seq<Event> {
    if n == 0 then []
    else Attempts(from, n - 1, wrong) + [Find(from + n - 1)] + [Hit(from + n - 1)] + [TryRecovery(from + n - 1, wrong)]
  }

  predicate Wrong(v: Vault, h: Hash) {
    v.credential.Some? && h !in v.credential.value.hashes
  }

  /** A new call is admitted and checks a wrong code. */
  lemma OneAttempt(st: State, c: nat, wrong: Hash)
    requires Fresh(st.limiter, c) && st.limiter.attempts < MAX_ATTEMPTS && Wrong(st.vault, wrong)
    ensures var st' := Apply(Apply(Apply(st, Find(c)), Hit(c)), TryRecovery(c, wrong));
            && st'.vault == st.vault && Fresh(st'.limiter, c + 1)
            && st'.limiter.checks == st.limiter.checks + 1 && st'.limiter.attempts == st.limiter.attempts + 1
  {
    var found := Apply(st, Find(c));
    assert found.limiter.calls[c].Found? && found.vault == st.vault;
    assert Apply(found, Hit(c)).limiter.calls[c].Admitted?;
  }

  /** Between two resets the limiter really lets through everything it has counted room for. */
  lemma {:induction false} RoomIsUsed(st: State, from: nat, n: nat, wrong: Hash)
    requires Fresh(st.limiter, from) && st.limiter.attempts + n <= MAX_ATTEMPTS && Wrong(st.vault, wrong)
    ensures var st' := Run(st, Attempts(from, n, wrong));
            && st'.vault == st.vault && Fresh(st'.limiter, from + n)
            && st'.limiter.checks == st.limiter.checks + n && st'.limiter.attempts == st.limiter.attempts + n
  {
    hide Apply, Fresh, Run;
    if n == 0 {
      RunNone(st);
    } else {
      var before, c := Attempts(from, n - 1, wrong), from + n - 1;
      RoomIsUsed(st, from, n - 1, wrong);
      OneAttempt(Run(st, before), c, wrong);
      RunOne(st, before, Find(c));
      RunOne(st, before + [Find(c)], Hit(c));
      RunOne(st, before + [Find(c)] + [Hit(c)], TryRecovery(c, wrong));
    }
  }

  lemma RunNone(st: State)
    ensures Run(st, []) == st
  {
  }

  lemma RunOne(st: State, events: seq<Event>, e: Event)
    ensures Run(st, events + [e]) == Apply(Run(st, events), e)
  {
    assert (events + [e])[..|events|] == events;
  }

  /**
   * Five is exceeded exactly because of carried calls: right after a reset that finds a call admitted and
   * not yet checked, a run without another reset checks six codes.
   */
  lemma CarriedCallsExceedTheLimit(st: State, c: nat, from: nat, wrong: Hash)
    requires st.limiter.attempts == 0 && st.limiter.checks == 0
    requires Waits(st.limiter, c) && Fresh(st.limiter, from) && Wrong(st.vault, wrong)
    ensures Run(st, [TryRecovery(c, wrong)] + Attempts(from, MAX_ATTEMPTS, wrong)).limiter.checks == MAX_ATTEMPTS + 1
  {
    var e := TryRecovery(c, wrong);
    var next := Apply(st, e);
    assert next.limiter == Check(st.limiter, c, Finished) && next.vault == st.vault;
    RoomIsUsed(next, from, MAX_ATTEMPTS, wrong);
    RunFirst(st, e, Attempts(from, MAX_ATTEMPTS, wrong));
  }

  lemma {:induction false} RunFirst(st: State, e: Event, events: seq<Event>)
    ensures Run(st, [e] + events) == Run(Apply(st, e), events)
    decreases |events|
  {
    hide Apply, Run;
    RunNone(st);
    RunOne(st, [], e);
    assert [] + [e] == [e];
    if events == [] {
      assert [e] + events == [e];
      RunNone(Apply(st, e));
    } else {
      var init, last := events[..|events| - 1], events[|events| - 1];
      RunFirst(st, e, init);
      RunOne(st, [e] + init, last);
      RunOne(Apply(st, e), init, last);
      assert [e] + events == [e] + init + [last] && events == init + [last];
    }
  }

  // ---------------------------------------------------------------- what a step decides

  /**
   * A recovery code passes exactly when its hash is among the live ones, and then that one is spent: the live
   * hashes have it once less, and nothing else changes. Otherwise the call ends and nothing changes.
   */
  lemma RecoveryDecides(st: State, c: nat, h: Hash)
    requires At(st.limiter, c).Some? && st.limiter.calls[c].Admitted?
    ensures var st' := Apply(st, TryRecovery(c, h)); var p := At(st'.limiter, c);
            if st.vault.credential.Some? && h in st.vault.credential.value.hashes then
              && st'.vault.credential.Some? && p == Some(Passed(Verified(st'.vault.credential.value)))
              && multiset(st'.vault.credential.value.hashes) + multiset{h} == multiset(st.vault.credential.value.hashes)
              && st'.vault == st.vault.(credential := Some(st.vault.credential.value.(hashes := st'.vault.credential.value.hashes)),
                                        spent := st.vault.spent + multiset{h})
            else p == Some(Finished) && st'.vault == st.vault
  {
  }

  /** A counter passes exactly when it is above the last one used, which it then is; else the next one is tried. */
  lemma CounterDecides(st: State, c: nat)
    requires At(st.limiter, c).Some? && st.limiter.calls[c].Trying?
    ensures var counters := st.limiter.calls[c].counters;
            var st' := Apply(st, Advance(c)); var p := At(st'.limiter, c);
            if counters == [] then p == Some(Finished) && st'.vault == st.vault
            else if st.vault.credential.Some? && counters[0] > st.vault.credential.value.counter then
              && st'.vault.credential == Some(st.vault.credential.value.(counter := counters[0]))
              && p == Some(Passed(Verified(st'.vault.credential.value)))
            else p == Some(Trying(st.limiter.calls[c].read, counters[1..])) && st'.vault == st.vault
  {
  }

  /** The attempts of a code whose counters are tried one after the other. */
  function AllCounters(c: nat, n: nat): seq<Event> {
    if n == 0 then [] else AllCounters(c, n - 1) + [Advance(c)]
  }

  /** Undisturbed, a code passes if and only if its newest counter is above the last one used. */
  lemma {:induction false} NewestCounterDecides(st: State, c: nat, n: nat)
    requires At(st.limiter, c).Some? && st.limiter.calls[c].Trying? && NewestFirst(st.limiter.calls[c].counters)
    requires 0 < n <= |st.limiter.calls[c].counters|
    ensures var counters := st.limiter.calls[c].counters; var st' := Run(st, AllCounters(c, n));
            if st.vault.credential.Some? && counters[0] > st.vault.credential.value.counter then
              && st'.vault.credential == Some(st.vault.credential.value.(counter := counters[0]))
              && At(st'.limiter, c) == Some(Passed(Verified(st'.vault.credential.value)))
            else st'.vault == st.vault && At(st'.limiter, c) == Some(Trying(st.limiter.calls[c].read, counters[n..]))
  {
    hide Run, Apply;
    RunNone(st);
    if n > 1 {
      NewestCounterDecides(st, c, n - 1);
    }
    RunOne(st, AllCounters(c, n - 1), Advance(c));
    var before := Run(st, AllCounters(c, n - 1));
    if At(before.limiter, c).value.Trying? { CounterDecides(before, c); } else { PassedStays(before, c); }
  }

  lemma PassedStays(st: State, c: nat)
    requires At(st.limiter, c).Some? && st.limiter.calls[c].Passed?
    ensures Apply(st, Advance(c)) == st
  {
  }

  /** Enrolling succeeds exactly where there is no credential, disabling leaves none, and both leave no old code. */
  lemma EnrolmentDecides(st: State, counter: nat, hashes: seq<Hash>, c: nat)
    ensures var enrolled := Apply(st, Enrol(counter, hashes)).vault;
            if st.vault.credential.Some? then enrolled == st.vault
            else enrolled.credential == Some(Credential(st.vault.enrolments, counter, hashes))
    ensures At(st.limiter, c).Some? && st.limiter.calls[c].Cleared? ==> Apply(st, Disable(c)).vault.credential == None
  {
  }

  /**
   * Regenerating recovery codes, when what the verification returned is still what is live, leaves exactly the
   * new ones; otherwise nothing changes.
   */
  lemma RegenerationReplaces(st: State, c: nat, hashes: seq<Hash>)
    requires At(st.limiter, c).Some? && st.limiter.calls[c].Cleared?
    ensures var verified := st.limiter.calls[c].verified; var v := Apply(st, Regenerate(c, hashes)).vault;
            if st.vault.credential.Some? && st.vault.credential.value.counter == verified.counter
               && st.vault.credential.value.hashes == verified.hashes
            then v.credential == Some(st.vault.credential.value.(hashes := hashes))
            else v == st.vault
  {
  }

  /** What was issued, spent or dropped stays so. */
  ghost predicate Grows(v: Vault, v': Vault, h: Hash) {
    v.issued[h] <= v'.issued[h] && v.spent[h] <= v'.spent[h] && v.dropped[h] <= v'.dropped[h]
  }

  lemma VerifyGrows(v: Vault, p: Phase, e: Event, h: Hash)
    ensures Grows(v, Verify(v, p, e).0, h)
  {
    hide Without;
  }

  lemma HistoryGrows(st: State, e: Event, h: Hash)
    ensures Grows(st.vault, Apply(st, e).vault, h)
  {
    hide Verify, Goto, Count, Check, Reset;
    if !e.Enrol? && !e.WindowEnds? && At(st.limiter, e.call).Some? { VerifyGrows(st.vault, st.limiter.calls[e.call], e, h); }
  }

  /** A code that is not live and is not issued again is never accepted again, whatever happens. */
  lemma {:induction false} RetiredIsNeverAccepted(st: State, events: seq<Event>, h: Hash)
    requires Inv(st) && Remaining(st.vault)[h] == 0
    ensures Inv(Run(st, events)) && Run(st, events).vault.issued[h] >= st.vault.issued[h]
    ensures Run(st, events).vault.spent[h] >= st.vault.spent[h] && Run(st, events).vault.dropped[h] >= st.vault.dropped[h]
    ensures Run(st, events).vault.issued[h] == st.vault.issued[h] ==> Run(st, events).vault.spent[h] == st.vault.spent[h]
    decreases |events|
  {
    if events == [] {
      RunNone(st);
    } else {
      hide Apply, Inv;
      var init, last := events[..|events| - 1], events[|events| - 1];
      RetiredIsNeverAccepted(st, init, h);
      ApplyKeepsInv(Run(st, init), last);
      HistoryGrows(Run(st, init), last, h);
    }
    NothingAppears(st, h);
    NothingAppears(Run(st, events), h);
  }

  /** What was issued is spent, dropped or live. */
  lemma NothingAppears(st: State, h: Hash)
    requires Inv(st)
    ensures st.vault.issued[h] == st.vault.spent[h] + st.vault.dropped[h] + Remaining(st.vault)[h]
  {
  }

  /** So after a regeneration the old codes are good for nothing, over every later run that does not issue them again. */
  lemma RegenerationRetires(before: seq<Event>, c: nat, hashes: seq<Hash>, after: seq<Event>, h: Hash)
    ensures var st := Run(START, before);
            At(st.limiter, c).Some? && st.limiter.calls[c].Cleared? && st.vault.credential.Some?
            && Verified(st.vault.credential.value) == st.limiter.calls[c].verified && h !in hashes ==>
              var regenerated := Apply(st, Regenerate(c, hashes));
              var end := Run(regenerated, after);
              end.vault.issued[h] == regenerated.vault.issued[h] ==> end.vault.spent[h] == st.vault.spent[h]
  {
    hide Run;
    RunKeepsInv(before);
    var st := Run(START, before);
    if At(st.limiter, c).Some? && st.limiter.calls[c].Cleared? && st.vault.credential.Some?
       && Verified(st.vault.credential.value) == st.limiter.calls[c].verified && h !in hashes {
      RegenerationReplaces(st, c, hashes);
      ApplyKeepsInv(st, Regenerate(c, hashes));
      RegenerationSpendsNothing(st, c, hashes);
      RetiredIsNeverAccepted(Apply(st, Regenerate(c, hashes)), after, h);
    }
  }

  lemma RegenerationSpendsNothing(st: State, c: nat, hashes: seq<Hash>)
    ensures Apply(st, Regenerate(c, hashes)).vault.spent == st.vault.spent
  {
  }

  // ---------------------------------------------------------------- only a verified call changes the credential

  /** The call whose code this event accepts, seen from the store. */
  function AcceptedBy(st: State, e: Event): set<nat> {
    if (e.TryRecovery? && Apply(st, e).vault.spent != st.vault.spent)
       || (e.Advance? && Apply(st, e).vault.accepted != st.vault.accepted) then {e.call} else {}
  }

  function AcceptedCalls(st: State, events: seq<Event>): set<nat>
    decreases |events|
  {
    if events == [] then {}
    else AcceptedCalls(st, events[..|events| - 1]) + AcceptedBy(Run(st, events[..|events| - 1]), events[|events| - 1])
  }

  ghost predicate PassedWhenAccepted(st: State, accepted: set<nat>) {
    forall c :: c in st.limiter.calls && (st.limiter.calls[c].Passed? || st.limiter.calls[c].Cleared?) ==> c in accepted
  }

  lemma ApplyAccepts(st: State, e: Event, accepted: set<nat>)
    requires PassedWhenAccepted(st, accepted)
    ensures PassedWhenAccepted(Apply(st, e), accepted + AcceptedBy(st, e))
  {
    if e.TryRecovery? { assert (st.vault.spent + multiset{e.hash})[e.hash] == st.vault.spent[e.hash] + 1; }
  }

  lemma {:induction false} RunAccepts(events: seq<Event>)
    ensures PassedWhenAccepted(Run(START, events), AcceptedCalls(START, events))
    decreases |events|
  {
    if events != [] {
      hide Apply, AcceptedBy;
      RunAccepts(events[..|events| - 1]);
      ApplyAccepts(Run(START, events[..|events| - 1]), events[|events| - 1], AcceptedCalls(START, events[..|events| - 1]));
    }
  }

  /**
   * In every run, a step that disables the identity, replaces its recovery codes, or resets the rate limit before
   * its window ends, is of a call whose code the store has accepted.
   */
  lemma OnlyAcceptedCallsChange(events: seq<Event>, e: Event)
    ensures var st := Run(START, events); var st' := Apply(st, e);
            (st.vault.credential.Some? && st'.vault.credential.None?) || st'.vault.dropped != st.vault.dropped
            || (st'.limiter.attempts < st.limiter.attempts && !e.WindowEnds?) ==>
              (e.Disable? || e.Regenerate? || e.Clear?) && e.call in AcceptedCalls(START, events)
  {
    RunAccepts(events);
  }

  /** When an accepted call's clearing works, and when the window ends, five more attempts are admitted. */
  lemma ResetGivesRoom(st: State, c: nat)
    ensures Apply(st, WindowEnds).limiter.attempts == 0
    ensures At(st.limiter, c).Some? && st.limiter.calls[c].Passed? ==> Apply(st, Clear(c, true)).limiter.attempts == 0
    ensures At(st.limiter, c).Some? && st.limiter.calls[c].Passed? ==> Apply(st, Clear(c, false)).limiter.attempts == st.limiter.attempts
  {
  }

  /** A call is admitted exactly below the limit. */
  lemma HitDecides(st: State, c: nat)
    requires At(st.limiter, c).Some? && st.limiter.calls[c].Found?
    ensures var l := Apply(st, Hit(c)).limiter;
            l.attempts == st.limiter.attempts + 1
            && l.calls[c] == if st.limiter.attempts < 5 then Admitted(st.limiter.calls[c].read) else Finished
  {
  }

  // ---------------------------------------------------------------- whose secret a code is checked against

  /** The enrolment a verification in progress has read. */
  function ReadBy(p: Phase): Option<nat> {
    if p.Found? || p.Admitted? || p.Trying? then Some(p.read) else None
  }

  lemma ApplyKeepsRead(st: State, e: Event, c: nat)
    requires At(st.limiter, c).Some?
    ensures At(Apply(st, e).limiter, c).Some?
    ensures var p := At(Apply(st, e).limiter, c).value;
            ReadBy(p).Some? ==> ReadBy(p) == ReadBy(At(st.limiter, c).value)
  {
  }

  /** An enrolment begins only where there was none. */
  lemma ApplyCountsEnrolments(st: State, e: Event)
    ensures var v, v' := st.vault, Apply(st, e).vault;
            && v'.enrolments >= v.enrolments
            && (v.credential.Some? && v'.credential.Some? ==> v'.enrolments == v.enrolments)
            && (v.credential.None? && v'.credential.Some? ==> v'.enrolments > v.enrolments)
  {
  }

  /** In no state of the run is the identity without a credential. */
  ghost predicate StaysEnrolled(st: State, events: seq<Event>) {
    forall k {:trigger events[..k]} :: 0 <= k <= |events| ==> Run(st, events[..k]).vault.credential.Some?
  }

  lemma {:induction false} EnrolledThroughout(st: State, events: seq<Event>, c: nat)
    requires Inv(st) && st.vault.credential.Some? && At(st.limiter, c).Some?
    ensures var st' := Run(st, events);
            && Inv(st') && At(st'.limiter, c).Some?
            && (ReadBy(At(st'.limiter, c).value).Some? ==> ReadBy(At(st'.limiter, c).value) == ReadBy(At(st.limiter, c).value))
            && st'.vault.enrolments >= st.vault.enrolments
            && (st'.vault.credential.Some? ==> (st'.vault.enrolments == st.vault.enrolments <==> StaysEnrolled(st, events)))
    decreases |events|
  {
    hide Apply, Inv;
    if events == [] {
      assert events[..0] == events;
    } else {
      var init, last := events[..|events| - 1], events[|events| - 1];
      EnrolledThroughout(st, init, c);
      ApplyKeepsInv(Run(st, init), last);
      ApplyKeepsRead(Run(st, init), last, c);
      ApplyCountsEnrolments(Run(st, init), last);
      StaysEnrolledOneMore(st, events);
    }
  }

  lemma StaysEnrolledOneMore(st: State, events: seq<Event>)
    requires events != []
    ensures StaysEnrolled(st, events)
            <==> StaysEnrolled(st, events[..|events| - 1]) && Run(st, events).vault.credential.Some?
  {
    hide Run;
    var init := events[..|events| - 1];
    assert forall k :: 0 <= k <= |init| ==> init[..k] == events[..k];
    assert events[..|events|] == events;
    if StaysEnrolled(st, events) {
      forall k | 0 <= k <= |init| ensures Run(st, init[..k]).vault.credential.Some? { assert init[..k] == events[..k]; }
    }
    if StaysEnrolled(st, init) && Run(st, events).vault.credential.Some? {
      forall k | 0 <= k <= |events| ensures Run(st, events[..k]).vault.credential.Some? {
        if k < |events| { assert events[..k] == init[..k]; }
      }
    }
  }

  /**
   * A call that has found the credential in a reachable state checks its code against what it found. When the
   * store accepts the counter, that was the live credential's secret if and only if the identity did not go
   * without a credential, by a disable, between the reading and the acceptance.
   */
  lemma AcceptedAgainstLiveExactly(before: seq<Event>, c: nat, between: seq<Event>)
    ensures var start := Run(START, before);
            At(start.limiter, c).None? && start.vault.credential.Some? ==>
              var found := Apply(start, Find(c));
              var st := Run(found, between);
              Accepts(st, c) ==>
                var v := Apply(st, Advance(c)).vault;
                && v.credential.Some? && v.accepted != [] && v.accepted[|v.accepted| - 1].counter == v.credential.value.counter
                && (v.accepted[|v.accepted| - 1].against == v.credential.value.enrolment <==> StaysEnrolled(found, between))
  {
    RunKeepsInv(before);
    var start := Run(START, before);
    if At(start.limiter, c).None? && start.vault.credential.Some? && Accepts(Run(Apply(start, Find(c)), between), c) {
      AcceptedAfterFind(start, c, between);
    }
  }

  /** The next counter of the call is accepted. */
  predicate Accepts(st: State, c: nat) {
    At(st.limiter, c).Some? && st.limiter.calls[c].Trying? && Apply(st, Advance(c)).vault != st.vault
  }

  lemma AcceptedAfterFind(start: State, c: nat, between: seq<Event>)
    requires Inv(start) && At(start.limiter, c).None? && start.vault.credential.Some?
    requires Accepts(Run(Apply(start, Find(c)), between), c)
    ensures var found := Apply(start, Find(c));
            var v := Apply(Run(found, between), Advance(c)).vault;
            && v.credential.Some? && v.accepted != [] && v.accepted[|v.accepted| - 1].counter == v.credential.value.counter
            && (v.accepted[|v.accepted| - 1].against == v.credential.value.enrolment <==> StaysEnrolled(found, between))
  {
    var e := Find(c);
    ApplyKeepsInv(start, e);
    var found := Apply(start, e);
    assert found.limiter.calls[c] == Found(start.vault.credential.value.enrolment) && found.vault == start.vault;
    EnrolledThroughout(found, between, c);
    hide Run, StaysEnrolled;
    AcceptingNow(Run(found, between), c);
  }

  lemma AcceptingNow(st: State, c: nat)
    requires Inv(st) && Accepts(st, c)
    ensures st.vault.credential.Some? && st.vault.credential.value.enrolment == st.vault.enrolments - 1
    ensures var v := Apply(st, Advance(c)).vault;
            && v.credential.Some? && v.credential.value.enrolment == st.vault.credential.value.enrolment
            && v.accepted == st.vault.accepted + [Acceptance(v.credential.value.counter, st.limiter.calls[c].read)]
  {
  }

  // ---------------------------------------------------------------- an old secret's code is accepted

  lemma RunTwo(st: State, a: Event, b: Event)
    ensures Run(st, [a, b]) == Apply(Apply(st, a), b)
  {
    hide Apply;
    RunNone(st);
    RunOne(st, [], a);
    RunOne(st, [a], b);
    assert [] + [a] == [a] && [a] + [b] == [a, b];
  }

  lemma {:induction false} RunBoth(st: State, first: seq<Event>, next: seq<Event>)
    ensures Run(st, first + next) == Run(Run(st, first), next)
    decreases |next|
  {
    hide Apply, Run;
    if next == [] {
      assert first + next == first;
      RunNone(Run(st, first));
    } else {
      var init := next[..|next| - 1];
      RunBoth(st, first, init);
      RunOne(st, first + init, next[|next| - 1]);
      RunOne(Run(st, first), init, next[|next| - 1]);
      assert first + next == first + init + [next[|next| - 1]] && next == init + [next[|next| - 1]];
    }
  }

  /** Two calls read the first enrolment, the second one passes with a recovery code and disables it. */
  function Disabling(h: Hash): seq<Event> {
    [Enrol(0, [h]), Find(1)] + [Find(2), Hit(2)] + [TryRecovery(2, h), Clear(2, true)]
  }

  lemma DisablingIs(h: Hash)
    ensures var v := Vault(Some(Credential(0, 0, [])), 1, [Acceptance(0, 0)], multiset{h}, multiset{h}, multiset{});
            Run(START, Disabling(h)) == State(v, Limiter(0, map[1 := Found(0), 2 := Cleared(Verification(0, []))], 0, 0, {}))
  {
    hide Run;
    RunTwo(START, Enrol(0, [h]), Find(1));
    var enrolled := Vault(Some(Credential(0, 0, [h])), 1, [Acceptance(0, 0)], multiset{h}, multiset{}, multiset{});
    var st1 := State(enrolled, Limiter(0, map[1 := Found(0)], 0, 0, {}));
    assert Run(START, [Enrol(0, [h]), Find(1)]) == st1;
    RunTwo(st1, Find(2), Hit(2));
    var st2 := State(enrolled, Limiter(1, map[1 := Found(0), 2 := Admitted(0)], 0, 0, {2}));
    assert Run(st1, [Find(2), Hit(2)]) == st2;
    RecoveringIs(st2, h);
    RunBoth(START, [Enrol(0, [h]), Find(1)], [Find(2), Hit(2)]);
    RunBoth(START, [Enrol(0, [h]), Find(1)] + [Find(2), Hit(2)], [TryRecovery(2, h), Clear(2, true)]);
  }

  lemma RecoveringIs(st: State, h: Hash)
    requires st == State(Vault(Some(Credential(0, 0, [h])), 1, [Acceptance(0, 0)], multiset{h}, multiset{}, multiset{}),
                         Limiter(1, map[1 := Found(0), 2 := Admitted(0)], 0, 0, {2}))
    ensures Run(st, [TryRecovery(2, h), Clear(2, true)])
         == State(Vault(Some(Credential(0, 0, [])), 1, [Acceptance(0, 0)], multiset{h}, multiset{h}, multiset{}),
                  Limiter(0, map[1 := Found(0), 2 := Cleared(Verification(0, []))], 0, 0, {}))
  {
    hide Run;
    RunTwo(st, TryRecovery(2, h), Clear(2, true));
    assert Without([h], h) == [];
    assert {2} - {2} == {};
  }

  /** The identity is disabled and enrols again; the first call then checks its code. */
  function EnrollingAgain(h: Hash, counter: nat): seq<Event> {
    [Disable(2), Enrol(0, [h])] + [Hit(1), TryTotp(1, [counter])]
  }

  /**
   * A code that matches the secret of an enrolment that was disabled is accepted by the next enrolment, when
   * the call had read the credential before.
   */
  lemma OldSecretIsAccepted(h: Hash, counter: nat)
    requires counter > 0
    ensures var v := Run(START, Disabling(h) + EnrollingAgain(h, counter) + [Advance(1)]).vault;
            && v.credential.Some? && v.credential.value.enrolment == 1
            && v.accepted == [Acceptance(0, 1), Acceptance(counter, 0)]
  {
    hide Disabling, EnrollingAgain, Run, Apply, START;
    DisablingIs(h);
    EnrollingAgainIs(Run(START, Disabling(h)), h, counter);
    RunBoth(START, Disabling(h), EnrollingAgain(h, counter));
    RunOne(START, Disabling(h) + EnrollingAgain(h, counter), Advance(1));
    OldCodePasses(Run(START, Disabling(h) + EnrollingAgain(h, counter)), counter);
  }

  lemma OldCodePasses(st: State, counter: nat)
    requires st.vault.credential.Some? && st.vault.credential.value.counter < counter
    requires At(st.limiter, 1) == Some(Trying(0, [counter]))
    ensures var v := Apply(st, Advance(1)).vault;
            && v.credential == Some(st.vault.credential.value.(counter := counter))
            && v.accepted == st.vault.accepted + [Acceptance(counter, 0)]
  {
  }

  lemma EnrollingAgainIs(st: State, h: Hash, counter: nat)
    requires st.vault == Vault(Some(Credential(0, 0, [])), 1, [Acceptance(0, 0)], multiset{h}, multiset{h}, multiset{})
    requires st.limiter == Limiter(0, map[1 := Found(0), 2 := Cleared(Verification(0, []))], 0, 0, {})
    ensures var st' := Run(st, EnrollingAgain(h, counter));
            && st'.vault.credential == Some(Credential(1, 0, [h])) && st'.vault.accepted == [Acceptance(0, 1)]
            && At(st'.limiter, 1) == Some(Trying(0, [counter]))
  {
    hide Run;
    RunTwo(st, Disable(2), Enrol(0, [h]));
    var again := Run(st, [Disable(2), Enrol(0, [h])]);
    assert again.vault.credential == Some(Credential(1, 0, [h])) && again.vault.accepted == [Acceptance(0, 1)];
    RunTwo(again, Hit(1), TryTotp(1, [counter]));
    RunBoth(st, [Disable(2), Enrol(0, [h])], [Hit(1), TryTotp(1, [counter])]);
  }
}
