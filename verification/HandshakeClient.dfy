/**
 Models the awaiters and the handshake attempt of src/services/osc/client.ts as the code runs them: every
 variable the closures share is a field, every closure a method, proved to do what Awaiters and Handshake say.
 */
module HandshakeClient {
  import opened Awaiters
  import opened Handshake
  import opened Options

  /** The listener set of the gateway. */
  class Gateway {
    var listeners: set<nat>
    var nextListener: nat

    ghost predicate Valid()
      reads this
    {
      forall id | id in listeners :: id < nextListener
    }

    constructor ()
      ensures Valid() && listeners == {}
    {
      listeners, nextListener := {}, 0;
    }

    method OnMessage() returns (id: nat)
      requires Valid()
      modifies this
      ensures Valid() && id !in old(listeners) && listeners == old(listeners) + {id}
      ensures id == old(nextListener) && nextListener == id + 1
    {
      id := nextListener;
      listeners, nextListener := listeners + {id}, nextListener + 1;
    }

    method Dispose(id: nat)
      modifies this`listeners
      ensures listeners == old(listeners) - {id}
    {
      listeners := listeners - {id};
    }
  }

  class ResponseAwaiter {
    const gateway: Gateway
    const listener: nat
    var armed: map<nat, int>
    var timer: Option<nat>
    var timerStarted: bool
    var completed: bool
    var outcome: Outcome
    var settlements: nat
    var nextHandle: nat

    ghost function View(): Awaiter
      reads this, gateway`listeners
    {
      Awaiter(listener in gateway.listeners, armed, timer, timerStarted, completed, outcome, settlements, nextHandle)
    }

    constructor (gateway: Gateway, deadline: Option<int>)
      requires gateway.Valid()
      modifies gateway
      ensures this.gateway == gateway && gateway.Valid() && View() == Created(deadline)
      ensures listener == old(gateway.nextListener) && listener !in old(gateway.listeners)
      ensures gateway.listeners == old(gateway.listeners) + {listener}
    {
      var id := gateway.OnMessage();
      this.gateway, listener := gateway, id;
      armed, timer, timerStarted, completed := map[], None, false, false;
      outcome, settlements, nextHandle := Pending, 0, 0;
      new;
      if deadline.Some? {
        StartTimer(deadline.value);
      }
    }

    method StartTimer(deadline: int)
      modifies this
      ensures View() == Started(old(View()), deadline)
    {
      if timerStarted || completed {
        return;
      }
      timerStarted := true;
      timer := Some(nextHandle);
      armed := armed[nextHandle := deadline];
      nextHandle := nextHandle + 1;
    }

    method Cleanup()
      modifies this, gateway`listeners
      ensures View() == Awaiters.Cleanup(old(View()))
      ensures gateway.listeners - {listener} == old(gateway.listeners) - {listener}
    {
      if completed {
        return;
      }
      completed := true;
      if timer.Some? {
        armed := armed - {timer.value};
        timer := None;
      }
      gateway.Dispose(listener);
    }

    /** resolve or reject. */
    method SettlePromise(result: Outcome)
      modifies this`outcome, this`settlements
      ensures outcome == Settle(old(outcome), result) && settlements == old(settlements) + 1
    {
      outcome := if outcome.Pending? then result else outcome;
      settlements := settlements + 1;
    }

    /** The listener; the gateway calls it only while it is in its set. */
    method OnIncoming(matched: Option<Message>)
      requires listener in gateway.listeners
      modifies this, gateway`listeners
      ensures View() == Delivered(old(View()), matched)
      ensures gateway.listeners - {listener} == old(gateway.listeners) - {listener}
    {
      if matched.Some? {
        Cleanup();
        SettlePromise(Resolved(matched.value));
      }
    }

    /** The timer callback. */
    method OnTimer(handle: nat)
      requires handle in armed
      modifies this, gateway`listeners
      ensures View() == Expired(old(View()), handle)
      ensures gateway.listeners - {listener} == old(gateway.listeners) - {listener}
    {
      armed := armed - {handle};
      Cleanup();
      SettlePromise(TimedOut);
    }
  }

  class LegacyAwaiter {
    const gateway: Gateway
    const listener: nat
    var armed: map<nat, Message>
    var timer: Option<nat>
    var disposed: bool
    var outcome: Outcome
    var settlements: nat
    var nextHandle: nat

    ghost function View(): Legacy
      reads this, gateway`listeners
    {
      Legacy(listener in gateway.listeners, armed, timer, disposed, outcome, settlements, nextHandle)
    }

    constructor (gateway: Gateway)
      requires gateway.Valid()
      modifies gateway
      ensures this.gateway == gateway && gateway.Valid() && View() == LEGACY_IDLE
      ensures listener == old(gateway.nextListener) && listener !in old(gateway.listeners)
      ensures gateway.listeners == old(gateway.listeners) + {listener}
    {
      var id := gateway.OnMessage();
      this.gateway, listener := gateway, id;
      armed, timer, disposed, outcome, settlements, nextHandle := map[], None, false, Pending, 0, 0;
    }

    method OnIncoming(legacy: Option<Message>)
      requires listener in gateway.listeners
      modifies this
      ensures View() == LegacyDelivered(old(View()), legacy)
    {
      if legacy.None? {
        return;
      }
      timer := Some(nextHandle);
      armed := armed[nextHandle := legacy.value];
      nextHandle := nextHandle + 1;
    }

    method OnTimer(handle: nat)
      requires handle in armed
      modifies this, gateway`listeners
      ensures View() == LegacyFired(old(View()), handle)
      ensures gateway.listeners - {listener} == old(gateway.listeners) - {listener}
    {
      var legacy := armed[handle];
      armed := armed - {handle};
      timer := None;
      if disposed {
        return;
      }
      disposed := true;
      gateway.Dispose(listener);
      outcome := if outcome.Pending? then Resolved(legacy) else outcome;
      settlements := settlements + 1;
    }

    method Cancel()
      modifies this, gateway`listeners
      ensures View() == LegacyCancelled(old(View()))
      ensures gateway.listeners - {listener} == old(gateway.listeners) - {listener}
    {
      if disposed {
        return;
      }
      disposed := true;
      if timer.Some? {
        armed := armed - {timer.value};
        timer := None;
      }
      gateway.Dispose(listener);
    }
  }

  class HandshakeAttempt {
    const config: Config
    const gateway: Gateway
    const canonical: ResponseAwaiter
    const legacy: LegacyAwaiter
    var phase: Phase
    var closed: bool
    var sendErrorReject: bool
    var sendError: bool
    var resendTimer: Option<nat>
    var armed: map<nat, int>
    var nextHandle: nat
    var inFlight: nat
    var fulfilled: nat
    var canonicalReaction: Reaction
    var legacyReaction: bool
    var now: int
    var resends: nat

    /** Two listeners of its own in the gateway. */
    ghost predicate Wired() {
      canonical.gateway == gateway && legacy.gateway == gateway && canonical.listener != legacy.listener
    }

    ghost function View(): Attempt
      reads this, canonical, legacy, canonical.gateway`listeners, legacy.gateway`listeners
    {
      Attempt(canonical.View(), legacy.View(), phase, closed, sendErrorReject, sendError, resendTimer, armed,
              nextHandle, inFlight, fulfilled, canonicalReaction, legacyReaction, now, resends)
    }

    /** The listeners that are none of this attempt's. */
    ghost function Others(): set<nat>
      reads gateway`listeners
    {
      gateway.listeners - {canonical.listener, legacy.listener}
    }

    constructor (config: Config, gateway: Gateway)
      requires gateway.Valid()
      modifies gateway
      ensures this.config == config && this.gateway == gateway && Wired() && fresh(canonical) && fresh(legacy)
      ensures View() == Initial(config) && Others() == old(gateway.listeners)
      ensures gateway.Valid() && canonical.listener < gateway.nextListener && legacy.listener < gateway.nextListener
      ensures canonical.listener >= old(gateway.nextListener) && legacy.listener >= old(gateway.nextListener)
      ensures gateway.nextListener >= old(gateway.nextListener)
    {
      var canonical := new ResponseAwaiter(gateway, None);
      var legacy := new LegacyAwaiter(gateway);
      this.config, this.gateway, this.canonical, this.legacy := config, gateway, canonical, legacy;
      phase, closed, sendErrorReject, sendError := FirstSend, false, true, false;
      resendTimer, armed, nextHandle, inFlight, fulfilled, resends := None, map[], 0, 0, 0, 0;
      canonicalReaction, legacyReaction, now := NotRun, false, config.start;
    }

    // ---------- The closures ----------

    method StopResends()
      modifies this`armed, this`resendTimer
      ensures View() == Handshake.StopResends(old(View()))
    {
      if resendTimer.Some? {
        armed := armed - {resendTimer.value};
        resendTimer := None;
      }
    }

    method FinalizeSuccess()
      modifies this
      ensures View() == Handshake.FinalizeSuccess(old(View()))
    {
      if closed {
        return;
      }
      closed := true;
      StopResends();
      sendErrorReject := false;
    }

    method CancelCanonical()
      requires Wired()
      modifies canonical, gateway`listeners
      ensures View() == old(View()).(canonical := Awaiters.Cleanup(old(View()).canonical)) && Others() == old(Others())
    {
      hide Awaiters.Cleanup;
      canonical.Cleanup();
      SameOthers(old(gateway.listeners), canonical.listener);
    }

    method CancelLegacy()
      requires Wired()
      modifies legacy, gateway`listeners
      ensures View() == old(View()).(legacy := LegacyCancelled(old(View()).legacy)) && Others() == old(Others())
    {
      hide LegacyCancelled;
      legacy.Cancel();
      SameOthers(old(gateway.listeners), legacy.listener);
    }

    /** Changing one listener of the attempt changes the membership of no other. */
    lemma SameOthers(before: set<nat>, listener: nat)
      requires gateway.listeners - {listener} == before - {listener}
      requires listener == canonical.listener || listener == legacy.listener
      ensures Others() == before - {canonical.listener, legacy.listener}
      ensures forall id | id != listener :: id in gateway.listeners <==> id in before
    {
      forall id
        ensures id != listener ==> (id in gateway.listeners <==> id in before)
      {
        assert id in gateway.listeners - {listener} <==> id in before - {listener};
      }
    }

    method FinalizeError()
      requires Wired()
      modifies this, canonical, legacy, gateway`listeners
      ensures View() == Handshake.FinalizeError(old(View())) && Others() == old(Others())
    {
      hide Awaiters.Cleanup, LegacyCancelled;
      if closed {
        return;
      }
      closed := true;
      StopResends();
      CancelCanonical();
      CancelLegacy();
      sendErrorReject := false;
    }

    method HandleSendError()
      requires Wired()
      modifies this, canonical, legacy, gateway`listeners
      ensures View() == Handshake.HandleSendError(old(View())) && Others() == old(Others())
    {
      hide Awaiters.Cleanup, LegacyCancelled;
      var reject := sendErrorReject;
      FinalizeError();
      if reject {
        sendError := true;
      }
    }

    method ScheduleNextSend()
      modifies this`armed, this`nextHandle, this`resendTimer
      ensures View() == Handshake.ScheduleNextSend(config, old(View()))
    {
      if closed {
        return;
      }
      var remaining := config.timeout - (now - config.start);
      if remaining <= 0 {
        return;
      }
      resendTimer := Some(nextHandle);
      armed := armed[nextHandle := now + TimerDelay(Min(ResendInterval(config.timeout), remaining))];
      nextHandle := nextHandle + 1;
    }

    // ---------- The callbacks ----------

    method OnFirstSendEnded(ok: bool)
      requires Wired()
      modifies this, canonical, legacy, gateway`listeners
      ensures View() == AfterFirstSend(config, old(View()), ok) && Others() == old(Others())
    {
      hide Handshake.HandleSendError, Handshake.ScheduleNextSend, Started;
      if ok {
        canonical.StartTimer(now + TimerDelay(config.timeout));
        phase := Racing;
        ScheduleNextSend();
      } else {
        HandleSendError();
        phase := Finished(Failed);
      }
    }

    method DeliverToCanonical(matched: Option<Message>)
      requires Wired()
      modifies canonical, gateway`listeners
      ensures View() == old(View()).(canonical := Delivered(old(View()).canonical, matched)) &&
              Others() == old(Others())
    {
      if canonical.listener in gateway.listeners {
        hide Delivered;
        canonical.OnIncoming(matched);
        SameOthers(old(gateway.listeners), canonical.listener);
      }
    }

    method DeliverToLegacy(legacyMessage: Option<Message>)
      requires Wired()
      modifies legacy
      ensures View() == old(View()).(legacy := LegacyDelivered(old(View()).legacy, legacyMessage))
    {
      if legacy.listener in gateway.listeners {
        hide LegacyDelivered;
        legacy.OnIncoming(legacyMessage);
      }
    }

    /** The gateway hands a message to the listeners in its set. */
    method OnMessage(forCanonical: Option<Message>, forLegacy: Option<Message>)
      requires Wired()
      modifies canonical, legacy, gateway`listeners
      ensures View() == old(View()).(canonical := Delivered(old(View()).canonical, forCanonical),
                                     legacy := LegacyDelivered(old(View()).legacy, forLegacy))
      ensures Others() == old(Others())
    {
      hide Delivered, LegacyDelivered;
      DeliverToCanonical(forCanonical);
      DeliverToLegacy(forLegacy);
    }

    method OnCanonicalTimer(handle: nat)
      requires Wired() && handle in canonical.armed
      modifies canonical, gateway`listeners
      ensures View() == old(View()).(canonical := Expired(old(View()).canonical, handle)) && Others() == old(Others())
    {
      hide Expired;
      canonical.OnTimer(handle);
      SameOthers(old(gateway.listeners), canonical.listener);
    }

    method OnLegacyTimer(handle: nat)
      requires Wired() && handle in legacy.armed
      modifies legacy, gateway`listeners
      ensures View() == old(View()).(legacy := LegacyFired(old(View()).legacy, handle)) && Others() == old(Others())
    {
      hide LegacyFired;
      legacy.OnTimer(handle);
      SameOthers(old(gateway.listeners), legacy.listener);
    }

    method OnResendTimer(handle: nat)
      requires handle in armed
      modifies this
      ensures View() == AfterResendTimer(old(View()), handle)
    {
      armed := armed - {handle};
      resendTimer := None;
      if closed {
        return;
      }
      inFlight, resends := inFlight + 1, resends + 1;
    }

    method OnResendEnded(ok: bool)
      requires Wired() && inFlight > 0
      modifies this, canonical, legacy, gateway`listeners
      ensures View() == AfterResend(old(View()), ok) && Others() == old(Others())
    {
      hide Handshake.HandleSendError;
      inFlight := inFlight - 1;
      if ok {
        fulfilled := fulfilled + 1;
      } else {
        HandleSendError();
      }
    }

    method OnResendReaction()
      requires fulfilled > 0
      modifies this
      ensures View() == Handshake.ScheduleNextSend(config, old(View()).(fulfilled := old(View()).fulfilled - 1))
    {
      fulfilled := fulfilled - 1;
      ScheduleNextSend();
    }

    method OnCanonicalReaction(parses: bool)
      requires Wired()
      modifies this, canonical, legacy, gateway`listeners
      ensures View() == AfterCanonical(old(View()), parses) && Others() == old(Others())
    {
      hide Handshake.FinalizeError, Handshake.FinalizeSuccess, LegacyCancelled;
      if canonical.outcome.Resolved? {
        FinalizeSuccess();
        CancelLegacy();
        canonicalReaction := if parses then Succeeded else Rejected;
      } else {
        FinalizeError();
        canonicalReaction := Rejected;
      }
    }

    method OnLegacyReaction()
      requires Wired()
      modifies this, canonical, legacy, gateway`listeners
      ensures View() == AfterLegacy(old(View())) && Others() == old(Others())
    {
      hide Handshake.FinalizeSuccess, Awaiters.Cleanup;
      FinalizeSuccess();
      CancelCanonical();
      legacyReaction := true;
    }

    method OnRaceSettled(winner: Winner)
      requires Wired()
      modifies this, canonical, legacy, gateway`listeners
      ensures View() == AfterRace(old(View()), winner) && Others() == old(Others())
    {
      hide Handshake.FinalizeError, Handshake.StopResends;
      var result := Failed;
      if winner.CanonicalWins? && canonicalReaction.Succeeded? && canonical.outcome.Resolved? {
        result := Canonical(canonical.outcome.message);
      } else if winner.LegacyWins? && legacy.outcome.Resolved? {
        result := ByLegacy(legacy.outcome.message);
      }
      if result.Failed? {
        FinalizeError();
      }
      StopResends();
      phase := Finished(result);
    }

    /** What the event loop calls for an event of the attempt. */
    method Handle(event: Event)
      requires Wired() && Enabled(View(), event)
      modifies this, canonical, legacy, gateway`listeners
      ensures View() == Apply(config, old(View()), event) && Others() == old(Others())
    {
      hide AfterFirstSend, Delivered, LegacyDelivered, Expired, LegacyFired, AfterResendTimer, AfterResend;
      hide AfterCanonical, AfterLegacy, AfterRace, Handshake.ScheduleNextSend;
      match event
      case Tick(to) => now := to;
      case FirstSendEnds(ok) => OnFirstSendEnded(ok);
      case MessageArrives(forCanonical, forLegacy) => OnMessage(forCanonical, forLegacy);
      case CanonicalTimerFires(handle) => OnCanonicalTimer(handle);
      case LegacyTimerFires(handle) => OnLegacyTimer(handle);
      case ResendTimerFires(handle) => OnResendTimer(handle);
      case ResendEnds(ok) => OnResendEnded(ok);
      case ResendReacts => OnResendReaction();
      case CanonicalReacts(parses) => OnCanonicalReaction(parses);
      case LegacyReacts => OnLegacyReaction();
      case RaceSettles(winner) => OnRaceSettled(winner);
    }
  }
}
