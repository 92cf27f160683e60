/**
 * The reconnecting socket of packages/broadcast/src/browser-connection.ts as a state machine: every handler
 * up to its next callback is one event. Callbacks (`resolveUrl`, `activate`, `onOpen`, `onDisconnect`) may call
 * `connect` and `disconnect` again: since nothing but the next handler follows a callback, whatever they do
 * is a sequence of further events, so any order of events covers every re-entrant run.
 */
module Reconnection {
  import opened Prelude

  datatype Settlement = Pending | Resolved | Rejected

  /** One `ConnectionAttempt`; `asked` while its URL is being resolved. */
  datatype Attempt = Attempt(socket: Option<nat>, asked: bool, isOpen: bool, openedAt: real, settled: Settlement)

  /** A created socket: whose it is, whether its `open` event has fired, whether `close()` was called. */
  datatype Socket = Socket(attempt: nat, fired: bool, closed: bool)

  datatype Kind = Retry | Stability(attempt: nat)

  datatype Timer = Timer(kind: Kind, due: real)

  /**
   * `resetAt` and `retries` are not read: the time the retry counter was last reset and the retries that
   * have started since.
   */
  datatype Connection = Connection(
    attempt: Option<nat>, attempts: seq<Attempt>, sockets: seq<Socket>,
    reconnecting: bool, reconnectAttempts: nat,
    reconnectTimer: Option<nat>, stabilityTimer: Option<nat>,
    timers: map<nat, Timer>, nextTimer: nat,
    now: real, resetAt: real, retries: nat)

  const RECONNECT_BASE_DELAY_MS: real := 500.0
  const RECONNECT_MAX_DELAY_MS: real := 30000.0
  const STABLE_CONNECTION_MS: real := 5000.0

  function Pow2(n: nat): (r: real)
    ensures r >= 1.0
  {
    if n == 0 then 1.0 else 2.0 * Pow2(n - 1)
  }

  function Ceiling(attempt: nat): real
    requires attempt > 0
  {
    var grown := RECONNECT_BASE_DELAY_MS * Pow2(attempt - 1);
    if grown < RECONNECT_MAX_DELAY_MS then grown else RECONNECT_MAX_DELAY_MS
  }

  /** `reconnectDelay`, for a random number between 0 and 1. */
  function ReconnectDelay(attempt: nat, random: real): real
    requires attempt > 0
  {
    Jitter(Ceiling(attempt), random)
  }

  function Jitter(ceiling: real, random: real): real {
    ceiling / 2.0 + random * ceiling / 2.0
  }

  // ---------------------------------------------------------------- handlers

  function ClearTimer(timers: map<nat, Timer>, handle: Option<nat>): map<nat, Timer> {
    if handle.Some? then timers - {handle.value} else timers
  }

  function CancelReconnect(c: Connection): Connection {
    c.(timers := ClearTimer(c.timers, c.reconnectTimer), reconnectTimer := None)
  }

  function CancelStabilityCheck(c: Connection): Connection {
    c.(timers := ClearTimer(c.timers, c.stabilityTimer), stabilityTimer := None)
  }

  function ScheduleReconnect(c: Connection, random: real): Connection {
    if c.reconnectTimer.Some? then c
    else
      var n := c.reconnectAttempts + 1;
      c.(reconnectAttempts := n,
         timers := c.timers[c.nextTimer := Timer(Retry, c.now + ReconnectDelay(n, random))],
         reconnectTimer := Some(c.nextTimer), nextTimer := c.nextTimer + 1)
  }

  /** `connect` up to its call of `resolveUrl`; with an attempt in progress it only returns its promise. */
  function Connect(c: Connection): Connection {
    if c.attempt.Some? then c
    else
      var c1 := CancelReconnect(c);
      c1.(attempts := c1.attempts + [Attempt(None, true, false, 0.0, Pending)], attempt := Some(|c1.attempts|))
  }

  /** Settling a promise a second time has no effect. */
  function Settle(a: Attempt, s: Settlement): Attempt {
    if a.settled.Pending? then a.(settled := s) else a
  }

  function CloseSocket(sockets: seq<Socket>, s: Option<nat>): seq<Socket> {
    if s.Some? && s.value < |sockets| then sockets[s.value := sockets[s.value].(closed := true)] else sockets
  }

  /** `fail` of attempt `a`, up to `onDisconnect`. */
  function Fail(c: Connection, a: nat, random: real): Connection
    requires a < |c.attempts|
  {
    if c.attempt != Some(a) then c
    else
      var c1 := CancelStabilityCheck(c);
      var again := c1.reconnecting || c1.attempts[a].isOpen;
      var c2 := c1.(attempt := None, reconnecting := again,
                    attempts := c1.attempts[a := Settle(c1.attempts[a], Rejected)],
                    sockets := CloseSocket(c1.sockets, c1.attempts[a].socket));
      if again then ScheduleReconnect(c2, random) else c2
  }

  /** `open` of attempt `a` with its URL: the socket is made, or its constructor throws. */
  function UrlResolved(c: Connection, a: nat, constructed: bool, random: real): Connection
    requires a < |c.attempts|
  {
    var c1 := c.(attempts := c.attempts[a := c.attempts[a].(asked := false)]);
    if c1.attempt != Some(a) then c1
    else if !constructed then Fail(c1, a, random)
    else
      c1.(sockets := c1.sockets + [Socket(a, false, false)],
          attempts := c1.attempts[a := c1.attempts[a].(socket := Some(|c1.sockets|))])
  }

  function UrlRejected(c: Connection, a: nat, random: real): Connection
    requires a < |c.attempts|
  {
    Fail(c.(attempts := c.attempts[a := c.attempts[a].(asked := false)]), a, random)
  }

  /** The socket's `open` event, up to `onOpen`. */
  function SocketOpens(c: Connection, s: nat): Connection
    requires s < |c.sockets| && c.sockets[s].attempt < |c.attempts|
  {
    var a := c.sockets[s].attempt;
    var c1 := c.(sockets := c.sockets[s := c.sockets[s].(fired := true)]);
    if c1.attempt != Some(a) then c1
    else
      c1.(attempts := c1.attempts[a := Settle(c1.attempts[a], Resolved).(isOpen := true, openedAt := c1.now)],
          reconnecting := false,
          timers := c1.timers[c1.nextTimer := Timer(Stability(a), c1.now + STABLE_CONNECTION_MS)],
          stabilityTimer := Some(c1.nextTimer), nextTimer := c1.nextTimer + 1)
  }

  function RetryTimerFires(c: Connection, t: nat): Connection
    requires t in c.timers
  {
    Connect(c.(timers := c.timers - {t}, reconnectTimer := None, retries := c.retries + 1))
  }

  function StabilityTimerFires(c: Connection, t: nat): Connection
    requires t in c.timers && c.timers[t].kind.Stability?
  {
    var a := c.timers[t].kind.attempt;
    var c1 := c.(timers := c.timers - {t}, stabilityTimer := None);
    if c1.attempt == Some(a) then c1.(reconnectAttempts := 0, resetAt := c1.now, retries := 0) else c1
  }

  /** The attempt in progress is given up: its promise is rejected and its socket closed. */
  function Abandon(c: Connection): Connection {
    if c.attempt.None? || c.attempt.value >= |c.attempts| then c.(attempt := None)
    else
      var a := c.attempt.value;
      c.(attempt := None,
         attempts := c.attempts[a := Settle(c.attempts[a], Rejected)],
         sockets := CloseSocket(c.sockets, c.attempts[a].socket))
  }

  function Disconnect(c: Connection): Connection {
    Abandon(CancelStabilityCheck(CancelReconnect(
      c.(reconnecting := false, reconnectAttempts := 0, resetAt := c.now, retries := 0))))
  }

  // ---------------------------------------------------------------- events

  datatype Event =
    | Connects
    | Disconnects
    | UrlArrives(attempt: nat, constructed: bool)
    | UrlFails(attempt: nat)
    | ActivationThrows(attempt: nat)
    | Opens(socket: nat)
    | MessageArrives(socket: nat)
    | ClosesOrErrs(socket: nat)
    | TimerFires(timer: nat)
    | TimePasses(elapsed: real)

  /** What the environment can do: resolve a URL once, open a socket once, fire a timer when it is due. */
  predicate Enabled(c: Connection, e: Event) {
    match e
    case Connects => true
    case Disconnects => true
    case UrlArrives(a, _) => a < |c.attempts| && c.attempts[a].asked
    case UrlFails(a) => a < |c.attempts| && c.attempts[a].asked
    case ActivationThrows(a) => a < |c.attempts| && c.attempts[a].socket.Some?
    case Opens(s) => s < |c.sockets| && !c.sockets[s].fired && c.sockets[s].attempt < |c.attempts|
    case MessageArrives(s) => s < |c.sockets|
    case ClosesOrErrs(s) => s < |c.sockets| && c.sockets[s].attempt < |c.attempts|
    case TimerFires(t) => t in c.timers && c.now >= c.timers[t].due
    case TimePasses(d) => d >= 0.0
  }

  function Apply(c: Connection, e: Event, random: real): Connection {
    if !Enabled(c, e) then c
    else match e
      case Connects => Connect(c)
      case Disconnects => Disconnect(c)
      case UrlArrives(a, constructed) => UrlResolved(c, a, constructed, random)
      case UrlFails(a) => UrlRejected(c, a, random)
      case ActivationThrows(a) => Fail(c, a, random)
      case Opens(s) => SocketOpens(c, s)
      case MessageArrives(_) => c
      case ClosesOrErrs(s) => Fail(c, c.sockets[s].attempt, random)
      case TimerFires(t) => if c.timers[t].kind.Retry? then RetryTimerFires(c, t) else StabilityTimerFires(c, t)
      case TimePasses(d) => c.(now := c.now + d)
  }

  /** Each event comes with the random number its handler would draw. */
  function Run(c: Connection, events: seq<(Event, real)>): Connection
    decreases |events|
  {
    if events == [] then c else Apply(Run(c, events[..|events| - 1]), events[|events| - 1].0, events[|events| - 1].1)
  }

  const IDLE := Connection(None, [], [], false, 0, None, None, map[], 0, 0.0, 0.0, 0)

  // ---------------------------------------------------------------- invariant

  /** A retry is pending exactly when the connection is reconnecting and no attempt is in progress. */
  ghost predicate RetryWell(c: Connection) {
    c.reconnectTimer.Some? <==> c.reconnecting && c.attempt.None?
  }

  /** The two handles are the two pending timers, and nothing else is pending. */
  ghost predicate TimersWell(c: Connection) {
    && (forall t :: t in c.timers ==> t < c.nextTimer && (c.reconnectTimer == Some(t) || c.stabilityTimer == Some(t)))
    && (c.reconnectTimer.Some? ==> c.reconnectTimer.value in c.timers && c.timers[c.reconnectTimer.value].kind.Retry?)
    && (c.stabilityTimer.Some? ==>
          && c.stabilityTimer.value in c.timers
          && c.attempt.Some? && c.timers[c.stabilityTimer.value].kind == Stability(c.attempt.value)
          && c.attempt.value < |c.attempts| && c.attempts[c.attempt.value].isOpen
          && c.timers[c.stabilityTimer.value].due == c.attempts[c.attempt.value].openedAt + STABLE_CONNECTION_MS)
  }

  /** An attempt and its socket know each other; a superseded attempt has settled. */
  ghost predicate AttemptWell(c: Connection, a: nat)
    requires a < |c.attempts|
  {
    var x := c.attempts[a];
    && (c.attempt != Some(a) ==> !x.settled.Pending?)
    && (x.socket.Some? ==> !x.asked && x.socket.value < |c.sockets| && c.sockets[x.socket.value].attempt == a)
    && (x.isOpen ==> x.socket.Some? && c.sockets[x.socket.value].fired)
  }

  /** Only the current attempt is unsettled; once open it is resolved and the connection is not reconnecting. */
  ghost predicate AttemptsWell(c: Connection) {
    && (c.attempt.Some? ==> c.attempt.value < |c.attempts|)
    && (forall a: nat {:trigger AttemptWell(c, a)} :: a < |c.attempts| ==> AttemptWell(c, a))
    && (c.attempt.Some? ==>
          var a := c.attempts[c.attempt.value];
          if a.isOpen then a.settled.Resolved? && !c.reconnecting else a.settled.Pending? && c.stabilityTimer.None?)
  }

  /** Every socket but the current attempt's has been closed. */
  ghost predicate SocketWell(c: Connection, s: nat)
    requires s < |c.sockets|
  {
    var x := c.sockets[s];
    && x.attempt < |c.attempts| && c.attempts[x.attempt].socket == Some(s)
    && (x.closed <==> c.attempt != Some(x.attempt))
    && (x.fired && c.attempt == Some(x.attempt) ==> c.attempts[x.attempt].isOpen)
  }

  ghost predicate SocketsWell(c: Connection) {
    forall s: nat {:trigger SocketWell(c, s)} :: s < |c.sockets| ==> SocketWell(c, s)
  }

  ghost predicate Inv(c: Connection) {
    RetryWell(c) && TimersWell(c) && AttemptsWell(c) && SocketsWell(c)
  }

  lemma ConnectKeepsInv(c: Connection)
    requires Inv(c)
    ensures Inv(Connect(c))
  {
    var c' := Connect(c);
    forall x: nat | x < |c'.attempts| ensures AttemptWell(c', x) { if x < |c.attempts| { assert AttemptWell(c, x); } }
    forall s: nat | s < |c'.sockets| ensures SocketWell(c', s) { if s < |c.sockets| { assert SocketWell(c, s); } }
  }

  lemma FailKeepsTimers(c: Connection, a: nat, random: real)
    requires Inv(c) && a < |c.attempts|
    ensures RetryWell(Fail(c, a, random)) && TimersWell(Fail(c, a, random))
  {
    hide ReconnectDelay, SocketsWell;
  }

  lemma FailKeepsSockets(c: Connection, a: nat, random: real)
    requires Inv(c) && a < |c.attempts|
    ensures AttemptsWell(Fail(c, a, random)) && SocketsWell(Fail(c, a, random))
  {
    hide ReconnectDelay, TimersWell, RetryWell;
    assert AttemptWell(c, a);
    var c' := Fail(c, a, random);
    forall x: nat | x < |c'.attempts| ensures AttemptWell(c', x) { if x < |c.attempts| { assert AttemptWell(c, x); } }
    forall s: nat | s < |c'.sockets| ensures SocketWell(c', s) { if s < |c.sockets| { assert SocketWell(c, s); } }
  }

  lemma FailKeepsInv(c: Connection, a: nat, random: real)
    requires Inv(c) && a < |c.attempts|
    ensures Inv(Fail(c, a, random))
  {
    hide Fail, RetryWell, TimersWell, AttemptsWell, SocketsWell;
    FailKeepsTimers(c, a, random);
    FailKeepsSockets(c, a, random);
  }

  lemma DisconnectKeepsInv(c: Connection)
    requires Inv(c)
    ensures Inv(Disconnect(c))
  {
    if c.attempt.Some? { assert AttemptWell(c, c.attempt.value); }
    var c' := Disconnect(c);
    forall x: nat | x < |c'.attempts| ensures AttemptWell(c', x) { if x < |c.attempts| { assert AttemptWell(c, x); } }
    forall s: nat | s < |c'.sockets| ensures SocketWell(c', s) { if s < |c.sockets| { assert SocketWell(c, s); } }
  }

  /** The URL has come, or will not come. */
  function Answered(c: Connection, a: nat): Connection
    requires a < |c.attempts|
  {
    c.(attempts := c.attempts[a := c.attempts[a].(asked := false)])
  }

  lemma AnswerKeepsInv(c: Connection, a: nat)
    requires Inv(c) && a < |c.attempts| && c.attempts[a].asked
    ensures Inv(Answered(c, a)) && Answered(c, a).attempts[a].socket.None?
  {
    assert AttemptWell(c, a);
    var c' := Answered(c, a);
    forall x: nat | x < |c'.attempts| ensures AttemptWell(c', x) { if x < |c.attempts| { assert AttemptWell(c, x); } }
    forall s: nat | s < |c'.sockets| ensures SocketWell(c', s) { if s < |c.sockets| { assert SocketWell(c, s); } }
  }

  lemma NewSocketKeepsInv(c: Connection, a: nat)
    requires Inv(c) && c.attempt == Some(a) && a < |c.attempts| && !c.attempts[a].asked && c.attempts[a].socket.None?
    ensures Inv(c.(sockets := c.sockets + [Socket(a, false, false)],
                   attempts := c.attempts[a := c.attempts[a].(socket := Some(|c.sockets|))]))
  {
    assert AttemptWell(c, a);
    var c' := c.(sockets := c.sockets + [Socket(a, false, false)],
                   attempts := c.attempts[a := c.attempts[a].(socket := Some(|c.sockets|))]);
    forall x: nat | x < |c'.attempts| ensures AttemptWell(c', x) { if x < |c.attempts| { assert AttemptWell(c, x); } }
    forall s: nat | s < |c'.sockets| ensures SocketWell(c', s) { if s < |c.sockets| { assert SocketWell(c, s); } }
  }

  lemma UrlKeepsInv(c: Connection, a: nat, constructed: bool, random: real)
    requires Inv(c) && a < |c.attempts| && c.attempts[a].asked
    ensures Inv(UrlResolved(c, a, constructed, random)) && Inv(UrlRejected(c, a, random))
  {
    hide Inv, Fail;
    AnswerKeepsInv(c, a);
    FailKeepsInv(Answered(c, a), a, random);
    if c.attempt == Some(a) { NewSocketKeepsInv(Answered(c, a), a); }
  }

  lemma OpensKeepsInv(c: Connection, s: nat)
    requires Inv(c) && s < |c.sockets| && !c.sockets[s].fired
    ensures c.sockets[s].attempt < |c.attempts| && Inv(SocketOpens(c, s))
  {
    assert SocketWell(c, s);
    assert AttemptWell(c, c.sockets[s].attempt);
    var c' := SocketOpens(c, s);
    forall x: nat | x < |c'.attempts| ensures AttemptWell(c', x) { if x < |c.attempts| { assert AttemptWell(c, x); } }
    forall r: nat | r < |c'.sockets| ensures SocketWell(c', r) { if r < |c.sockets| { assert SocketWell(c, r); } }
  }

  lemma TimerKeepsInv(c: Connection, t: nat)
    requires Inv(c) && t in c.timers
    ensures Inv(if c.timers[t].kind.Retry? then RetryTimerFires(c, t) else StabilityTimerFires(c, t))
  {
    var c' := if c.timers[t].kind.Retry? then RetryTimerFires(c, t) else StabilityTimerFires(c, t);
    forall x: nat | x < |c'.attempts| ensures AttemptWell(c', x) { if x < |c.attempts| { assert AttemptWell(c, x); } }
    forall s: nat | s < |c'.sockets| ensures SocketWell(c', s) { if s < |c.sockets| { assert SocketWell(c, s); } }
  }

  lemma ApplyKeepsInv(c: Connection, e: Event, random: real)
    requires Inv(c)
    ensures Inv(Apply(c, e, random))
  {
    hide Inv, Fail, Connect, Disconnect, UrlResolved, UrlRejected, SocketOpens, RetryTimerFires, StabilityTimerFires;
    if Enabled(c, e) {
      match e
      case Connects => ConnectKeepsInv(c);
      case Disconnects => DisconnectKeepsInv(c);
      case UrlArrives(a, constructed) => UrlKeepsInv(c, a, constructed, random);
      case UrlFails(a) => UrlKeepsInv(c, a, true, random);
      case ActivationThrows(a) => FailKeepsInv(c, a, random);
      case Opens(s) => OpensKeepsInv(c, s);
      case MessageArrives(_) =>
      case ClosesOrErrs(s) => FailKeepsInv(c, c.sockets[s].attempt, random);
      case TimerFires(t) => TimerKeepsInv(c, t);
      case TimePasses(d) => TimeKeepsInv(c, d);
    }
  }

  lemma TimeKeepsInv(c: Connection, d: real)
    requires Inv(c)
    ensures Inv(c.(now := c.now + d))
  {
    var c' := c.(now := c.now + d);
    forall x: nat | x < |c'.attempts| ensures AttemptWell(c', x) { if x < |c.attempts| { assert AttemptWell(c, x); } }
    forall s: nat | s < |c'.sockets| ensures SocketWell(c', s) { if s < |c.sockets| { assert SocketWell(c, s); } }
  }

  lemma {:induction false} RunKeepsInv(events: seq<(Event, real)>)
    ensures Inv(Run(IDLE, events))
    decreases |events|
  {
    if events != [] {
      hide Inv, Apply;
      RunKeepsInv(events[..|events| - 1]);
      ApplyKeepsInv(Run(IDLE, events[..|events| - 1]), events[|events| - 1].0, events[|events| - 1].1);
    } else {
      IdleIsWell();
    }
  }

  lemma IdleIsWell()
    ensures Inv(IDLE)
  {
  }

  // ---------------------------------------------------------------- what it means

  /**
   * In every reachable state: a retry timer is pending exactly when the connection is reconnecting with no
   * attempt in progress; the stability timer is pending only while the current attempt is open; no other timer
   * is pending; at most one created socket has not been closed; superseded attempts have settled.
   */
  lemma ConnectionIsSound(events: seq<(Event, real)>)
    ensures var c := Run(IDLE, events);
            && ((exists t :: t in c.timers && c.timers[t].kind.Retry?) <==> c.reconnecting && c.attempt.None?)
            && (forall t :: t in c.timers && c.timers[t].kind.Stability? ==>
                  c.attempt == Some(c.timers[t].kind.attempt) && c.attempt.value < |c.attempts| && c.attempts[c.attempt.value].isOpen)
            && (forall t, u :: t in c.timers && u in c.timers && c.timers[t].kind.Retry? == c.timers[u].kind.Retry? ==> t == u)
            && (forall s, r :: 0 <= s < |c.sockets| && 0 <= r < |c.sockets| && !c.sockets[s].closed && !c.sockets[r].closed ==> s == r)
            && (forall a :: 0 <= a < |c.attempts| && c.attempt != Some(a) ==> !c.attempts[a].settled.Pending?)
  {
    RunKeepsInv(events);
    var c := Run(IDLE, events);
    if c.reconnectTimer.Some? { assert c.timers[c.reconnectTimer.value].kind.Retry?; }
    forall s: nat | s < |c.sockets| && !c.sockets[s].closed
      ensures c.attempt.Some? && c.attempt.value < |c.attempts| && c.attempts[c.attempt.value].socket == Some(s)
    {
      assert SocketWell(c, s);
    }
    forall a: nat | a < |c.attempts| && c.attempt != Some(a) ensures !c.attempts[a].settled.Pending? {
      assert AttemptWell(c, a);
    }
  }

  /** The events of a superseded attempt: its socket's, its URL's, its activation's. */
  predicate Late(c: Connection, e: Event) {
    match e
    case UrlArrives(a, _) => c.attempt != Some(a)
    case UrlFails(a) => c.attempt != Some(a)
    case ActivationThrows(a) => c.attempt != Some(a)
    case Opens(s) => s < |c.sockets| && c.attempt != Some(c.sockets[s].attempt)
    case ClosesOrErrs(s) => s < |c.sockets| && c.attempt != Some(c.sockets[s].attempt)
    case _ => false
  }

  /** Late events change nothing but the environment's own record that they have happened. */
  lemma LateEventsChangeNothing(c: Connection, e: Event, random: real)
    requires Late(c, e)
    ensures var c' := Apply(c, e, random);
            && c'.(attempts := c.attempts, sockets := c.sockets) == c
            && |c'.attempts| == |c.attempts| && |c'.sockets| == |c.sockets|
            && (forall a :: 0 <= a < |c.attempts| ==> c'.attempts[a].(asked := c.attempts[a].asked) == c.attempts[a])
            && (forall s :: 0 <= s < |c.sockets| ==> c'.sockets[s].(fired := c.sockets[s].fired) == c.sockets[s])
  {
  }

  // ---------------------------------------------------------------- a dropped connection is retried

  /** The socket of the attempt in progress opens. */
  predicate OpensNow(c: Connection, e: Event) {
    e.Opens? && Enabled(c, e) && c.attempt == Some(c.sockets[e.socket].attempt)
  }

  /** Some attempt has opened since the last `disconnect()`. */
  predicate HasOpened(events: seq<(Event, real)>)
    decreases |events|
  {
    events != [] &&
    var before, last := events[..|events| - 1], events[|events| - 1].0;
    !last.Disconnects? && (OpensNow(Run(IDLE, before), last) || HasOpened(before))
  }

  predicate IsOpen(c: Connection) {
    c.attempt.Some? && c.attempt.value < |c.attempts| && c.attempts[c.attempt.value].isOpen
  }

  lemma ApplyOpens(c: Connection, e: Event, random: real)
    requires Inv(c)
    ensures var c' := Apply(c, e, random);
            (c'.reconnecting || IsOpen(c')) <==> !e.Disconnects? && (OpensNow(c, e) || c.reconnecting || IsOpen(c))
  {
    hide TimersWell, RetryWell, SocketsWell, ReconnectDelay;
    if c.attempt.Some? { assert AttemptWell(c, c.attempt.value); }
  }

  lemma {:induction false} RunOpens(events: seq<(Event, real)>)
    ensures var c := Run(IDLE, events); c.reconnecting || IsOpen(c) <==> HasOpened(events)
    decreases |events|
  {
    if events != [] {
      hide Inv, Apply, OpensNow;
      var before := events[..|events| - 1];
      RunOpens(before);
      RunKeepsInv(before);
      ApplyOpens(Run(IDLE, before), events[|events| - 1].0, events[|events| - 1].1);
    }
  }

  /**
   * In every run: once an attempt has opened, and until `disconnect()`, an attempt is in progress or a retry is
   * pending; as long as none has, no retry is.
   */
  lemma DroppedConnectionIsRetried(events: seq<(Event, real)>)
    ensures var c := Run(IDLE, events);
            && (HasOpened(events) ==> c.attempt.Some? || exists t :: t in c.timers && c.timers[t].kind.Retry?)
            && (!HasOpened(events) ==> forall t :: t in c.timers ==> !c.timers[t].kind.Retry?)
  {
    RunOpens(events);
    RunKeepsInv(events);
    var c := Run(IDLE, events);
    if c.reconnectTimer.Some? { assert c.timers[c.reconnectTimer.value].kind.Retry?; }
  }

  /** The attempt in progress fails: its URL, its socket's constructor, its activation or its socket. */
  predicate FailsNow(c: Connection, e: Event) {
    Enabled(c, e) &&
    match e
    case UrlArrives(a, constructed) => c.attempt == Some(a) && !constructed
    case UrlFails(a) => c.attempt == Some(a)
    case ActivationThrows(a) => c.attempt == Some(a)
    case ClosesOrErrs(s) => c.attempt == Some(c.sockets[s].attempt)
    case _ => false
  }

  /**
   * A failure ends the attempt, closes its socket and rejects its promise unless it had opened. If some attempt
   * had opened since the last `disconnect()`, the next retry is due between c/2 and c later, where c is the
   * ceiling for one attempt more; else there is none.
   */
  lemma FailureIsRetried(events: seq<(Event, real)>, e: Event, random: real)
    requires 0.0 <= random < 1.0
    ensures var c := Run(IDLE, events); var c' := Apply(c, e, random);
            FailsNow(c, e) ==>
              && c'.attempt.None? && (forall s :: 0 <= s < |c'.sockets| ==> c'.sockets[s].closed)
              && (HasOpened(events) ==> RetryIsDue(c', c.reconnectAttempts + 1))
              && (!HasOpened(events) ==> c'.reconnectTimer.None?)
  {
    RunOpens(events);
    RunKeepsInv(events);
    var c := Run(IDLE, events);
    hide Run, HasOpened, Inv;
    if FailsNow(c, e) {
      ApplyKeepsInv(c, e, random);
      FailureSchedules(c, e, random);
      NothingIsOpen(Apply(c, e, random));
    }
  }

  /** The pending retry is the n-th since the last reset, and waits between half of its ceiling and its ceiling. */
  predicate RetryIsDue(c: Connection, n: nat) {
    && n > 0 && c.reconnectAttempts == n && c.reconnectTimer.Some? && c.reconnectTimer.value in c.timers
    && Ceiling(n) / 2.0 <= c.timers[c.reconnectTimer.value].due - c.now < Ceiling(n)
  }

  lemma NothingIsOpen(c: Connection)
    requires Inv(c) && c.attempt.None?
    ensures forall s :: 0 <= s < |c.sockets| ==> c.sockets[s].closed
  {
    forall s: nat | s < |c.sockets| ensures c.sockets[s].closed { assert SocketWell(c, s); }
  }

  lemma FailureSchedules(c: Connection, e: Event, random: real)
    requires Inv(c) && FailsNow(c, e) && 0.0 <= random < 1.0
    ensures var c' := Apply(c, e, random);
            && c'.attempt.None? && c'.now == c.now
            && (c.reconnecting || IsOpen(c) ==> RetryIsDue(c', c.reconnectAttempts + 1))
            && (!c.reconnecting && !IsOpen(c) ==> c'.reconnectTimer.None?)
  {
    hide TimersWell, SocketsWell, ReconnectDelay, Ceiling;
    DelayBounds(c.reconnectAttempts + 1, random);
    assert AttemptWell(c, c.attempt.value);
  }

  // ---------------------------------------------------------------- what the other events do

  /** `connect()` starts an attempt whose URL is asked for, unless one is in progress; so does the retry timer. */
  lemma ConnectingAsks(c: Connection, e: Event, random: real)
    requires Inv(c) && Enabled(c, e) && (e.Connects? || (e.TimerFires? && c.timers[e.timer].kind.Retry?))
    ensures var c' := Apply(c, e, random);
            && (c.attempt.Some? ==> e.Connects? && c' == c)
            && (c.attempt.None? ==>
                  && c'.attempt == Some(|c.attempts|) && |c'.attempts| == |c.attempts| + 1
                  && c'.attempts[|c.attempts|] == Attempt(None, true, false, 0.0, Pending)
                  && c'.reconnectTimer.None? && c'.reconnecting == c.reconnecting && c'.sockets == c.sockets)
  {
  }

  /** The URL of the attempt in progress makes its socket. */
  lemma UrlMakesSocket(c: Connection, a: nat, random: real)
    requires Inv(c) && Enabled(c, UrlArrives(a, true)) && c.attempt == Some(a)
    ensures var c' := Apply(c, UrlArrives(a, true), random);
            && c'.sockets == c.sockets + [Socket(a, false, false)] && c'.attempt == Some(a)
            && c'.attempts[a].socket == Some(|c.sockets|) && !c'.attempts[a].asked
  {
  }

  /** The opening resolves the promise, ends the reconnecting and starts the check of five seconds. */
  lemma OpeningStartsCheck(c: Connection, e: Event, random: real)
    requires Inv(c) && OpensNow(c, e)
    ensures var c' := Apply(c, e, random);
            && c'.attempt == c.attempt && IsOpen(c') && c'.attempts[c'.attempt.value].settled.Resolved? && !c'.reconnecting
            && c'.stabilityTimer.Some? && c'.stabilityTimer.value in c'.timers
            && c'.timers[c'.stabilityTimer.value].due == c.now + 5000.0
            && c'.reconnectAttempts == c.reconnectAttempts
  {
    assert AttemptWell(c, c.attempt.value);
  }

  /** After `disconnect()` nothing is pending, open, or counted. */
  lemma DisconnectEndsEverything(c: Connection, random: real)
    requires Inv(c)
    ensures var c' := Apply(c, Disconnects, random);
            && c'.attempt.None? && !c'.reconnecting && c'.reconnectAttempts == 0 && c'.timers == map[]
            && (forall s :: 0 <= s < |c'.sockets| ==> c'.sockets[s].closed)
            && (forall a :: 0 <= a < |c'.attempts| ==> !c'.attempts[a].settled.Pending?)
  {
    DisconnectKeepsInv(c);
    var c' := Disconnect(c);
    NothingIsOpen(c');
    forall a: nat | a < |c'.attempts| ensures !c'.attempts[a].settled.Pending? { assert AttemptWell(c', a); }
  }

  /** A promise is resolved exactly when its attempt has opened, and the check of an open attempt runs or is done. */
  ghost predicate Told(c: Connection) {
    && (forall a :: 0 <= a < |c.attempts| ==> (c.attempts[a].settled.Resolved? <==> c.attempts[a].isOpen))
    && (IsOpen(c) ==> c.stabilityTimer.Some? || c.resetAt >= c.attempts[c.attempt.value].openedAt + 5000.0)
    && (c.attempt.Some? ==> c.attempt.value < |c.attempts| &&
                            (c.attempts[c.attempt.value].asked || c.attempts[c.attempt.value].socket.Some?))
  }

  lemma FailTells(c: Connection, a: nat, random: real)
    requires Told(c) && AttemptsWell(c) && a < |c.attempts|
    ensures Told(Fail(c, a, random))
  {
    hide ReconnectDelay;
    if c.attempt.Some? { assert AttemptWell(c, c.attempt.value); }
  }

  /** Right after the answer the attempt waits for nothing, so it has to get its socket or to fail. */
  lemma AnswerTells(c: Connection, a: nat)
    requires Inv(c) && Told(c) && a < |c.attempts| && c.attempts[a].asked
    ensures AttemptsWell(Answered(c, a)) && (c.attempt != Some(a) ==> Told(Answered(c, a)))
  {
    hide SocketsWell, TimersWell;
    AnswerKeepsInv(c, a);
  }

  lemma AnsweredTells(c: Connection, a: nat, constructed: bool, random: real)
    requires Inv(c) && Told(c) && a < |c.attempts| && c.attempts[a].asked
    ensures Told(UrlResolved(c, a, constructed, random)) && Told(UrlRejected(c, a, random))
  {
    hide SocketsWell, TimersWell, ReconnectDelay;
    AnswerTells(c, a);
    assert AttemptWell(c, a);
  }

  lemma ApplyTells(c: Connection, e: Event, random: real)
    requires Inv(c) && Told(c)
    ensures Told(Apply(c, e, random))
  {
    hide SocketsWell, Fail, UrlResolved, UrlRejected;
    if Enabled(c, e) {
      match e {
        case UrlArrives(a, constructed) => AnsweredTells(c, a, constructed, random);
        case UrlFails(a) => AnsweredTells(c, a, true, random);
        case ActivationThrows(a) => FailTells(c, a, random);
        case ClosesOrErrs(s) => FailTells(c, c.sockets[s].attempt, random);
        case _ => if c.attempt.Some? { assert AttemptWell(c, c.attempt.value); }
      }
    }
  }

  /** The check of five seconds, when it comes to an end, resets the counter. */
  lemma StableResets(c: Connection, t: nat, random: real)
    requires Inv(c) && Enabled(c, TimerFires(t)) && c.timers[t].kind.Stability?
    ensures var c' := Apply(c, TimerFires(t), random);
            c'.reconnectAttempts == 0 && c'.resetAt == c.now && c'.attempt == c.attempt && IsOpen(c')
  {
  }

  /**
   * In every run: a promise is resolved exactly when its attempt's socket has opened, and rejected when it was
   * superseded before; an attempt that stays open has the retry counter reset once it has been open for five seconds.
   */
  lemma {:induction false} PromisesTell(events: seq<(Event, real)>)
    ensures var c := Run(IDLE, events);
            && Told(c)
            && forall a :: 0 <= a < |c.attempts| && c.attempt != Some(a) && !c.attempts[a].isOpen ==> c.attempts[a].settled.Rejected?
    decreases |events|
  {
    if events != [] {
      hide Inv, Told, Apply;
      PromisesTell(events[..|events| - 1]);
      RunKeepsInv(events[..|events| - 1]);
      ApplyTells(Run(IDLE, events[..|events| - 1]), events[|events| - 1].0, events[|events| - 1].1);
    }
    RunKeepsInv(events);
    SupersededAreRejected(Run(IDLE, events));
  }

  /**
   * An attempt in progress always has a way on: its URL may still come or fail, or its socket may open, close or
   * err; and a timer that is due may fire.
   */
  lemma AttemptsGoOn(events: seq<(Event, real)>)
    ensures var c := Run(IDLE, events);
            && (c.attempt.Some? ==>
                  && c.attempt.value < |c.attempts|
                  && var a := c.attempts[c.attempt.value];
                     && (a.asked ==> Enabled(c, UrlArrives(c.attempt.value, true)) && Enabled(c, UrlArrives(c.attempt.value, false))
                                     && Enabled(c, UrlFails(c.attempt.value)))
                     && (!a.asked ==> a.socket.Some? && Enabled(c, ClosesOrErrs(a.socket.value)) && Enabled(c, ActivationThrows(c.attempt.value))
                                      && (!a.isOpen ==> Enabled(c, Opens(a.socket.value)))))
            && (forall t :: t in c.timers && c.now >= c.timers[t].due ==> Enabled(c, TimerFires(t)))
            && Enabled(c, Connects) && Enabled(c, Disconnects) && forall d: real :: d >= 0.0 ==> Enabled(c, TimePasses(d))
  {
    hide Run, Apply;
    RunKeepsInv(events);
    PromisesTell(events);
    var c := Run(IDLE, events);
    if c.attempt.Some? {
      assert AttemptWell(c, c.attempt.value);
      var socket := c.attempts[c.attempt.value].socket;
      if socket.Some? { assert SocketWell(c, socket.value); }
    }
  }

  lemma SupersededAreRejected(c: Connection)
    requires Inv(c) && Told(c)
    ensures forall a :: 0 <= a < |c.attempts| && c.attempt != Some(a) && !c.attempts[a].isOpen ==> c.attempts[a].settled.Rejected?
  {
    forall a: nat | a < |c.attempts| && c.attempt != Some(a) && !c.attempts[a].isOpen ensures c.attempts[a].settled.Rejected? {
      assert AttemptWell(c, a);
    }
  }

  // ---------------------------------------------------------------- pacing

  /** The least delay before the n-th retry. */
  function LeastDelay(n: nat): real
    requires n > 0
  {
    Ceiling(n) / 2.0
  }

  /** The least time the first n retries take together. */
  function LeastTotal(n: nat): (r: real)
    ensures r >= 0.0
  {
    if n == 0 then 0.0 else CeilingBounds(n); LeastTotal(n - 1) + LeastDelay(n)
  }

  lemma CeilingBounds(n: nat)
    requires n > 0
    ensures RECONNECT_BASE_DELAY_MS <= Ceiling(n) <= RECONNECT_MAX_DELAY_MS
  {
  }

  lemma {:induction false} CeilingGrows(m: nat, n: nat)
    requires 0 < m <= n
    ensures Ceiling(m) <= Ceiling(n)
    decreases n - m
  {
    if m < n {
      CeilingGrows(m, n - 1);
      assert Pow2(n - 1) == 2.0 * Pow2(n - 2);
    }
  }

  /** The n-th retry since the last reset waits between c/2 and c, with c = min(30000, 500 * 2^(n-1)). */
  lemma DelayBounds(n: nat, random: real)
    requires n > 0 && 0.0 <= random < 1.0
    ensures Ceiling(n) / 2.0 <= ReconnectDelay(n, random) < Ceiling(n)
  {
    hide Ceiling, Jitter;
    CeilingBounds(n);
    JitterBounds(Ceiling(n), random);
  }

  lemma JitterBounds(c: real, x: real)
    requires 0.0 <= x < 1.0 && c > 0.0
    ensures c / 2.0 <= Jitter(c, x) < c
  {
    ScaleBelow(x, c);
    var y := x * c;
    assert Jitter(c, x) == c / 2.0 + y / 2.0;
  }

  lemma ScaleBelow(x: real, c: real)
    requires 0.0 <= x < 1.0 && c > 0.0
    ensures 0.0 <= x * c < c
  {
    assert x * c >= 0.0;
    assert c - x * c == (1.0 - x) * c;
    assert (1.0 - x) * c > 0.0;
  }

  /** From the sixth retry on the delay is at its ceiling. */
  lemma {:induction false} LeastTotalFromSix(n: nat)
    requires n >= 6
    ensures LeastTotal(n) >= 15750.0 + 15000.0 * (n - 6) as real
  {
    SmallCeilings();
    if n == 6 {
      assert LeastTotal(6) == LeastDelay(1) + LeastDelay(2) + LeastDelay(3) + LeastDelay(4) + LeastDelay(5) + LeastDelay(6) by {
        assert LeastTotal(1) == LeastDelay(1);
        assert LeastTotal(2) == LeastTotal(1) + LeastDelay(2);
        assert LeastTotal(3) == LeastTotal(2) + LeastDelay(3);
        assert LeastTotal(4) == LeastTotal(3) + LeastDelay(4);
        assert LeastTotal(5) == LeastTotal(4) + LeastDelay(5);
      }
    } else {
      LeastTotalFromSix(n - 1);
      CeilingGrows(7, n);
    }
  }

  lemma SmallCeilings()
    ensures Ceiling(1) == 500.0 && Ceiling(2) == 1000.0 && Ceiling(3) == 2000.0 && Ceiling(4) == 4000.0
    ensures Ceiling(5) == 8000.0 && Ceiling(6) == 16000.0 && Ceiling(7) == 30000.0
  {
    assert Pow2(1) == 2.0;
    assert Pow2(2) == 4.0;
    assert Pow2(3) == 8.0;
    assert Pow2(4) == 16.0;
    assert Pow2(5) == 32.0;
    assert Pow2(6) == 64.0;
  }

  /** Since the last reset, the retries that started have taken at least their least delays. */
  ghost predicate Paced(c: Connection) {
    && c.retries <= c.reconnectAttempts
    && c.now - c.resetAt >= LeastTotal(c.retries)
    && (c.reconnectTimer.Some? ==>
          && c.reconnectTimer.value in c.timers && c.retries < c.reconnectAttempts
          && c.timers[c.reconnectTimer.value].due - c.resetAt >= LeastTotal(c.retries + 1))
  }

  lemma SchedulePaces(c: Connection, random: real)
    requires Paced(c) && c.reconnectTimer.None? && 0.0 <= random < 1.0
    ensures Paced(ScheduleReconnect(c, random))
  {
    var n := c.reconnectAttempts + 1;
    DelayBounds(n, random);
    CeilingGrows(c.retries + 1, n);
  }

  lemma FailPaces(c: Connection, a: nat, random: real)
    requires Inv(c) && Paced(c) && a < |c.attempts| && 0.0 <= random < 1.0
    ensures Paced(Fail(c, a, random))
  {
    hide SocketsWell, LeastTotal, ScheduleReconnect;
    if c.attempt == Some(a) {
      var c1 := CancelStabilityCheck(c);
      var c2 := c1.(attempt := None, reconnecting := c1.reconnecting || c1.attempts[a].isOpen,
                    attempts := c1.attempts[a := Settle(c1.attempts[a], Rejected)],
                    sockets := CloseSocket(c1.sockets, c1.attempts[a].socket));
      assert c2.reconnectTimer.None?;
      SchedulePaces(c2, random);
    }
  }

  lemma ApplyPaces(c: Connection, e: Event, random: real)
    requires Inv(c) && Paced(c) && 0.0 <= random < 1.0
    ensures Paced(Apply(c, e, random))
  {
    hide SocketsWell, AttemptsWell, LeastTotal, Fail, ReconnectDelay;
    LeastTotalOfNone();
    if Enabled(c, e) {
      match e
      case UrlArrives(a, constructed) =>
        AnswerKeepsInv(c, a);
        FailPaces(Answered(c, a), a, random);
      case UrlFails(a) =>
        AnswerKeepsInv(c, a);
        FailPaces(Answered(c, a), a, random);
      case ActivationThrows(a) => FailPaces(c, a, random);
      case ClosesOrErrs(s) => FailPaces(c, c.sockets[s].attempt, random);
      case _ =>
    }
  }

  lemma LeastTotalOfNone()
    ensures LeastTotal(0) == 0.0
  {
  }

  lemma {:induction false} RunPaces(events: seq<(Event, real)>)
    requires forall k :: 0 <= k < |events| ==> 0.0 <= events[k].1 < 1.0
    ensures Paced(Run(IDLE, events))
    decreases |events|
  {
    if events == [] {
      LeastTotalOfNone();
    } else {
      hide Inv, Paced, Apply;
      RunPaces(events[..|events| - 1]);
      RunKeepsInv(events[..|events| - 1]);
      ApplyPaces(Run(IDLE, events[..|events| - 1]), events[|events| - 1].0, events[|events| - 1].1);
    }
  }

  /** n retries since the last reset, n at least 6, have taken at least 15750 + 15000 * (n - 6) milliseconds. */
  predicate TookItsTime(c: Connection) {
    c.retries >= 6 ==> c.now - c.resetAt >= 15750.0 + 15000.0 * (c.retries - 6) as real
  }

  /** Retry pacing over every run. */
  lemma {:induction false} RetriesTakeTheirTime(events: seq<(Event, real)>)
    requires forall k :: 0 <= k < |events| ==> 0.0 <= events[k].1 < 1.0
    ensures TookItsTime(Run(IDLE, events))
  {
    RunPaces(events);
    if Run(IDLE, events).retries >= 6 { LeastTotalFromSix(Run(IDLE, events).retries); }
  }

  /** The counter goes back only by `disconnect()`, or once the current attempt has been open for 5 seconds. */
  lemma ResetOnlyWhenStable(c: Connection, e: Event, random: real)
    requires Inv(c)
    ensures var c' := Apply(c, e, random);
            c'.reconnectAttempts < c.reconnectAttempts ==>
              e.Disconnects? || (c.attempt.Some? && c.attempts[c.attempt.value].isOpen
                                 && c.now >= c.attempts[c.attempt.value].openedAt + STABLE_CONNECTION_MS)
  {
  }
}
