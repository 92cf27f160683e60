/** `createConnection`: the closures' shared variables as fields, updated step by step. */
module BrowserConnection {
  import opened Prelude
  import opened Reconnection

  class BrowserConnection {
    var attempt: Option<nat>
    var attempts: seq<Attempt>
    var sockets: seq<Socket>
    var reconnecting: bool
    var reconnectAttempts: nat
    var reconnectTimer: Option<nat>
    var stabilityTimer: Option<nat>
    /** The environment: pending timers and its clock. */
    var timers: map<nat, Timer>
    var nextTimer: nat
    var now: real
    /** Not read by any handler. */
    var resetAt: real
    var retries: nat

    constructor ()
      ensures View() == IDLE && Inv(View())
    {
      attempt, attempts, sockets := None, [], [];
      reconnecting, reconnectAttempts := false, 0;
      reconnectTimer, stabilityTimer := None, None;
      timers, nextTimer, now := map[], 0, 0.0;
      resetAt, retries := 0.0, 0;
    }

    function View(): Connection
      reads this
    {
      Connection(attempt, attempts, sockets, reconnecting, reconnectAttempts, reconnectTimer, stabilityTimer,
                 timers, nextTimer, now, resetAt, retries)
    }

    method CancelReconnect()
      modifies `timers, `reconnectTimer
      ensures View() == Reconnection.CancelReconnect(old(View()))
    {
      if reconnectTimer.Some? {
        timers := timers - {reconnectTimer.value};
      }
      reconnectTimer := None;
    }

    method CancelStabilityCheck()
      modifies `timers, `stabilityTimer
      ensures View() == Reconnection.CancelStabilityCheck(old(View()))
    {
      if stabilityTimer.Some? {
        timers := timers - {stabilityTimer.value};
      }
      stabilityTimer := None;
    }

    method SetTimeout(kind: Kind, delay: real) returns (handle: nat)
      modifies `timers, `nextTimer
      ensures handle == old(nextTimer) && nextTimer == handle + 1
      ensures timers == old(timers)[handle := Timer(kind, now + delay)]
    {
      handle := nextTimer;
      timers := timers[handle := Timer(kind, now + delay)];
      nextTimer := nextTimer + 1;
    }

    method ScheduleReconnect(random: real)
      modifies `timers, `nextTimer, `reconnectTimer, `reconnectAttempts
      ensures View() == Reconnection.ScheduleReconnect(old(View()), random)
    {
      if reconnectTimer.Some? {
        return;
      }
      reconnectAttempts := reconnectAttempts + 1;
      var handle := SetTimeout(Retry, ReconnectDelay(reconnectAttempts, random));
      reconnectTimer := Some(handle);
    }

    /** Returns the attempt whose promise `connect` returns. */
    method Connect() returns (a: nat)
      requires attempt.Some? ==> attempt.value < |attempts|
      modifies this
      ensures View() == Reconnection.Connect(old(View()))
      ensures attempt == Some(a) && a < |attempts|
    {
      if attempt.Some? {
        return attempt.value;
      }
      CancelReconnect();
      a := |attempts|;
      attempts := attempts + [Attempt(None, true, false, 0.0, Pending)];
      attempt := Some(a);
    }

    method Fail(a: nat, random: real)
      requires a < |attempts|
      modifies this
      ensures View() == Reconnection.Fail(old(View()), a, random)
    {
      hide ReconnectDelay;
      if attempt != Some(a) {
        return;
      }
      CancelStabilityCheck();
      attempt := None;
      reconnecting := reconnecting || attempts[a].isOpen;
      attempts := attempts[a := Settle(attempts[a], Rejected)];
      sockets := CloseSocket(sockets, attempts[a].socket);
      if reconnecting {
        ScheduleReconnect(random);
      }
    }

    method Open(a: nat, constructed: bool, random: real)
      requires a < |attempts|
      modifies this
      ensures View() == UrlResolved(old(View()), a, constructed, random)
    {
      attempts := attempts[a := attempts[a].(asked := false)];
      if attempt != Some(a) {
        return;
      }
      if !constructed {
        Fail(a, random);
        return;
      }
      attempts := attempts[a := attempts[a].(socket := Some(|sockets|))];
      sockets := sockets + [Socket(a, false, false)];
    }

    method SocketOpened(s: nat)
      requires s < |sockets| && sockets[s].attempt < |attempts|
      modifies this
      ensures View() == SocketOpens(old(View()), s)
    {
      var a := sockets[s].attempt;
      sockets := sockets[s := sockets[s].(fired := true)];
      if attempt != Some(a) {
        return;
      }
      attempts := attempts[a := Settle(attempts[a], Resolved).(isOpen := true, openedAt := now)];
      reconnecting := false;
      var handle := SetTimeout(Stability(a), STABLE_CONNECTION_MS);
      stabilityTimer := Some(handle);
    }

    method TimerFired(t: nat)
      requires t in timers && (attempt.Some? ==> attempt.value < |attempts|)
      modifies this
      ensures View() == if old(timers)[t].kind.Retry? then RetryTimerFires(old(View()), t) else StabilityTimerFires(old(View()), t)
    {
      var timer := timers[t];
      timers := timers - {t};
      match timer.kind {
        case Retry =>
          reconnectTimer := None;
          retries := retries + 1;
          var _ := Connect();
        case Stability(a) =>
          stabilityTimer := None;
          if attempt == Some(a) {
            reconnectAttempts := 0;
            resetAt, retries := now, 0;
          }
      }
    }

    method Disconnect()
      requires attempt.Some? ==> attempt.value < |attempts|
      modifies this
      ensures View() == Reconnection.Disconnect(old(View()))
    {
      hide Reconnection.Abandon, ClearTimer;
      reconnecting, reconnectAttempts := false, 0;
      resetAt, retries := now, 0;
      CancelReconnect();
      CancelStabilityCheck();
      Abandon();
    }

    method Abandon()
      requires attempt.Some? ==> attempt.value < |attempts|
      modifies `attempt, `attempts, `sockets
      ensures View() == Reconnection.Abandon(old(View()))
    {
      var previous := attempt;
      attempt := None;
      if previous.Some? {
        var former := attempts[previous.value];
        attempts := attempts[previous.value := Settle(former, Rejected)];
        sockets := CloseSocket(sockets, former.socket);
      }
    }

    /** One event of the environment; the invariant holds before and after. */
    method Handle(e: Event, random: real)
      requires Inv(View())
      modifies this
      ensures View() == Apply(old(View()), e, random) && Inv(View())
    {
      hide RetryWell, TimersWell, SocketsWell, ReconnectDelay;
      ApplyKeepsInv(View(), e, random);
      if !Enabled(View(), e) {
        return;
      }
      match e {
        case Connects => var _ := Connect();
        case Disconnects => Disconnect();
        case UrlArrives(a, constructed) => Open(a, constructed, random);
        case UrlFails(a) =>
          attempts := attempts[a := attempts[a].(asked := false)];
          Fail(a, random);
        case ActivationThrows(a) => Fail(a, random);
        case Opens(s) => SocketOpened(s);
        case MessageArrives(_) =>
        case ClosesOrErrs(s) => Fail(sockets[s].attempt, random);
        case TimerFires(t) => TimerFired(t);
        case TimePasses(d) => now := now + d;
      }
    }
  }
}
