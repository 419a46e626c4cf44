/**
 * The bot's connection life cycle: the module-level flags of the bot process, the
 * guard against overlapping connection attempts, the reaction to `connection.update`
 * events with its capped, growing back-off, and the timers that bring the bot back.
 */
module BotConnection {
  import opened BotMessages

  const MaxReconnectAttempts: nat := 10
  const BackoffStepMs: nat := 3000
  const MaxBackoffMs: nat := 15000
  /** The pause after the attempt cap is reached, before starting over. */
  const RetryPauseMs: nat := 30000

  /** `Math.min(reconnectAttempts * 3000, 15000)`. */
  function BackoffDelay(attempts: nat): (delay: nat)
    ensures delay <= MaxBackoffMs
    ensures attempts >= 1 ==> BackoffStepMs <= delay
    ensures delay % BackoffStepMs == 0
  {
    if attempts * BackoffStepMs < MaxBackoffMs then attempts * BackoffStepMs else MaxBackoffMs
  }

  /** The delay grows by three seconds per attempt up to the fifth, then stays at fifteen. */
  lemma BackoffSchedule(attempts: nat)
    ensures attempts <= 5 ==> BackoffDelay(attempts) == 3000 * attempts
    ensures attempts >= 5 ==> BackoffDelay(attempts) == 15000
  {
  }

  /** Waiting longer never follows waiting more: the delay never shrinks as attempts grow. */
  lemma BackoffMonotone(m: nat, n: nat)
    requires m <= n
    ensures BackoffDelay(m) <= BackoffDelay(n)
  {
  }

  /** What a non-logout close does with the attempt counter. */
  datatype ReconnectPlan =
    | Backoff(attempts: nat, delayMs: nat)   // count one more attempt and reconnect after the delay
    | GiveUp(pauseMs: nat)                   // stop counting and start over after the pause

  function PlanAfterClose(attempts: nat): (plan: ReconnectPlan)
    ensures plan.GiveUp? <==> attempts >= MaxReconnectAttempts
    ensures plan.GiveUp? ==> plan.pauseMs == RetryPauseMs
    ensures plan.Backoff? ==>
              && plan.attempts == attempts + 1 <= MaxReconnectAttempts
              && plan.delayMs == BackoffDelay(plan.attempts)
              && BackoffStepMs <= plan.delayMs <= MaxBackoffMs
  {
    if attempts >= MaxReconnectAttempts then GiveUp(RetryPauseMs)
    else Backoff(attempts + 1, BackoffDelay(attempts + 1))
  }

  /** The counter after `closes` closes in a row with no `open` between them. */
  function AttemptsAfterCloses(attempts: nat, closes: nat): nat
    decreases closes
  {
    if closes == 0 then attempts
    else
      match PlanAfterClose(attempts)
      case Backoff(next, _) => AttemptsAfterCloses(next, closes - 1)
      case GiveUp(_) => AttemptsAfterCloses(attempts, closes - 1)
  }

  /** Closes in a row raise the counter one at a time until it stops at the cap. */
  lemma {:induction false} AttemptsSaturate(attempts: nat, closes: nat)
    requires attempts <= MaxReconnectAttempts
    ensures AttemptsAfterCloses(attempts, closes) ==
              if attempts + closes <= MaxReconnectAttempts then attempts + closes else MaxReconnectAttempts
    decreases closes
  {
    if closes > 0 {
      match PlanAfterClose(attempts)
      case Backoff(next, _) => AttemptsSaturate(next, closes - 1);
      case GiveUp(_) => AttemptsSaturate(attempts, closes - 1);
    }
  }

  /** The total wait of the back-off delays while the counter climbs from `attempts` by `closes`. */
  function WaitAfterCloses(attempts: nat, closes: nat): nat
    decreases closes
  {
    if closes == 0 then 0
    else
      match PlanAfterClose(attempts)
      case Backoff(next, delay) => delay + WaitAfterCloses(next, closes - 1)
      case GiveUp(pause) => pause + WaitAfterCloses(attempts, closes - 1)
  }

  /** From a fresh counter, ten failed reconnections wait two minutes in all before the cap. */
  lemma TenClosesWaitTwoMinutes()
    ensures WaitAfterCloses(0, 10) == 120000
    ensures AttemptsAfterCloses(0, 10) == MaxReconnectAttempts
  {
    AttemptsSaturate(0, 10);
  }

  /** A callback queued with `setTimeout`. */
  datatype Timer =
    | ResumeAfter(delayMs: nat)   // clears `isReconnecting`, then connects
    | RetryAfter(delayMs: nat)    // connects

  predicate ValidTimer(t: Timer) {
    match t
    case ResumeAfter(d) => BackoffStepMs <= d <= MaxBackoffMs && d % BackoffStepMs == 0
    case RetryAfter(d) => d == RetryPauseMs
  }

  /** The `connection` field of an update. */
  datatype Connection = Close(loggedOut: bool) | Open | Connecting | Unchanged

  /**
   * A `connection.update` event: the connection field, whether the credentials are
   * registered, and the phone number the pairing step would obtain ("" when none is given).
   */
  datatype ConnectionUpdate = ConnectionUpdate(connection: Connection, registered: bool, phoneNumber: string)

  /** The bot process's module-level state. */
  class Bot {
    var sockets: nat                 // sockets created so far
    var isConnected: bool
    var pairingCodeRequested: bool
    var reconnectAttempts: nat
    var isReconnecting: bool
    var timers: seq<Timer>           // callbacks queued and not yet run

    /**
     * The counter never passes the cap, a connected bot has a reset counter, and every
     * queued timer carries one of the delays the handler schedules.
     */
    ghost predicate Valid()
      reads this
    {
      && reconnectAttempts <= MaxReconnectAttempts
      && (isConnected ==> reconnectAttempts == 0)
      && forall k :: 0 <= k < |timers| ==> ValidTimer(timers[k])
    }

    constructor ()
      ensures Valid()
      ensures sockets == 0 && !isConnected && !pairingCodeRequested
      ensures reconnectAttempts == 0 && !isReconnecting && timers == []
    {
      sockets := 0;
      isConnected := false;
      pairingCodeRequested := false;
      reconnectAttempts := 0;
      isReconnecting := false;
      timers := [];
    }

    /**
     * `connectToWhatsApp`: ignored while an attempt is under way, otherwise marks one as
     * under way and opens a new socket. `setupSucceeds` is false when one of the two
     * awaits before the socket is made (loading the stored credentials, fetching the
     * protocol version) rejects: the rejection escapes to the process-level handler, the
     * flag stays set and no socket is made, so every later call is ignored as well.
     */
    method Connect(setupSucceeds: bool) returns (started: bool)
      requires Valid()
      modifies this
      ensures Valid()
      ensures started <==> !old(isReconnecting) && setupSucceeds
      ensures isReconnecting
      ensures sockets == if started then old(sockets) + 1 else old(sockets)
      ensures isConnected == old(isConnected) && pairingCodeRequested == old(pairingCodeRequested)
      ensures reconnectAttempts == old(reconnectAttempts) && timers == old(timers)
    {
      if isReconnecting {
        return false;
      }
      isReconnecting := true;
      if !setupSucceeds {
        return false;
      }
      sockets := sockets + 1;
      return true;
    }

    /**
     * The `connection.update` handler. `exits` is true when the session was logged out
     * and the process ends.
     */
    method OnConnectionUpdate(u: ConnectionUpdate) returns (exits: bool)
      requires Valid()
      modifies this
      ensures Valid()
      ensures exits <==> u.connection == Close(true) && (u.registered || old(pairingCodeRequested) || u.phoneNumber != "")
      ensures pairingCodeRequested == (old(pairingCodeRequested) || !u.registered)
      ensures sockets == old(sockets)
      // without a phone number the pairing step ends the handler before the connection is looked at
      ensures !u.registered && !old(pairingCodeRequested) && u.phoneNumber == "" ==>
                && isConnected == old(isConnected) && isReconnecting == old(isReconnecting)
                && reconnectAttempts == old(reconnectAttempts) && timers == old(timers)
      ensures (u.registered || old(pairingCodeRequested) || u.phoneNumber != "") ==>
                match u.connection
                case Close(loggedOut) =>
                  && !isConnected
                  && (loggedOut ==>
                        isReconnecting == old(isReconnecting) && reconnectAttempts == old(reconnectAttempts)
                        && timers == old(timers))
                  && (!loggedOut && old(reconnectAttempts) >= MaxReconnectAttempts ==>
                        !isReconnecting && reconnectAttempts == old(reconnectAttempts)
                        && timers == old(timers) + [RetryAfter(RetryPauseMs)])
                  && (!loggedOut && old(reconnectAttempts) < MaxReconnectAttempts ==>
                        isReconnecting == old(isReconnecting) && reconnectAttempts == old(reconnectAttempts) + 1
                        && timers == old(timers) + [ResumeAfter(BackoffDelay(reconnectAttempts))])
                case Open =>
                  isConnected && !isReconnecting && reconnectAttempts == 0 && timers == old(timers)
                case _ =>
                  && isConnected == old(isConnected) && isReconnecting == old(isReconnecting)
                  && reconnectAttempts == old(reconnectAttempts) && timers == old(timers)
    {
      exits := false;
      if !u.registered && !pairingCodeRequested {
        pairingCodeRequested := true;
        if u.phoneNumber == "" {
          return;
        }
      }
      match u.connection
      case Close(loggedOut) =>
        isConnected := false;
        if loggedOut {
          exits := true;
        } else {
          match PlanAfterClose(reconnectAttempts)
          case GiveUp(pause) =>
            isReconnecting := false;
            timers := timers + [RetryAfter(pause)];
          case Backoff(next, delay) =>
            reconnectAttempts := next;
            timers := timers + [ResumeAfter(delay)];
        }
      case Open =>
        isConnected := true;
        isReconnecting := false;
        reconnectAttempts := 0;
      case Connecting =>
      case Unchanged =>
    }

    /** Runs the queued callback at `k` and removes it from the queue; `setupSucceeds` is as for `Connect`. */
    method FireTimer(k: nat, setupSucceeds: bool) returns (started: bool)
      requires Valid()
      requires k < |timers|
      modifies this
      ensures Valid()
      ensures timers == old(timers[..k] + timers[k + 1..])
      ensures isReconnecting
      ensures started <==> (old(timers[k]).ResumeAfter? || !old(isReconnecting)) && setupSucceeds
      ensures sockets == if started then old(sockets) + 1 else old(sockets)
      ensures isConnected == old(isConnected) && pairingCodeRequested == old(pairingCodeRequested)
      ensures reconnectAttempts == old(reconnectAttempts)
    {
      var t := timers[k];
      timers := timers[..k] + timers[k + 1..];
      if t.ResumeAfter? {
        isReconnecting := false;
      }
      started := Connect(setupSucceeds);
    }

    /** The `messages.upsert` handler's decision, taken on the flags as they are now. */
    method OnMessages(batch: seq<IncomingMessage>) returns (action: Action)
      ensures !isConnected || isReconnecting ==> action == Ignore
      ensures action == Triage(isConnected, isReconnecting, batch)
    {
      action := Triage(isConnected, isReconnecting, batch);
    }
  }

  /**
   * A bot that connects and then sees eleven closes in a row ends with the counter at
   * the cap, no attempt under way, and a thirty-second retry queued last.
   */
  method ElevenDropsReachTheCap(registered: bool) returns (bot: Bot)
    ensures bot.reconnectAttempts == MaxReconnectAttempts
    ensures !bot.isConnected && !bot.isReconnecting
    ensures |bot.timers| == 11 && bot.timers[10] == RetryAfter(RetryPauseMs)
    ensures forall k :: 0 <= k < 10 ==> bot.timers[k] == ResumeAfter(BackoffDelay(k + 1))
  {
    bot := new Bot();
    var _ := bot.Connect(true);
    var i := 0;
    while i < 11
      invariant 0 <= i <= 11
      invariant bot.Valid()
      invariant !bot.isConnected
      invariant bot.isReconnecting <==> i <= MaxReconnectAttempts
      invariant bot.reconnectAttempts == if i <= MaxReconnectAttempts then i else MaxReconnectAttempts
      invariant |bot.timers| == i
      invariant forall k :: 0 <= k < i && k < 10 ==> bot.timers[k] == ResumeAfter(BackoffDelay(k + 1))
      invariant i == 11 ==> bot.timers[10] == RetryAfter(RetryPauseMs)
    {
      var _ := bot.OnConnectionUpdate(ConnectionUpdate(Close(false), registered, "212600000000"));
      i := i + 1;
    }
  }
}
