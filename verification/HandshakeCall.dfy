/**
 Models performHandshake of src/services/osc/client.ts as the code runs it: a first attempt and, after a
 timeout, a second one, both listening on the shared gateway.

 Ghost state ties the object to the run of HandshakeRetry it has been through, and keeps apart the gateway's
 listeners that belong to others, who may come and go at any time.
 */
module HandshakeCalls {
  import opened Awaiters
  import opened Handshake
  import opened HandshakeClient
  import opened HandshakeRetry
  import opened Options

  class HandshakeCall {
    const gateway: Gateway
    const forced: bool
    const timeout: int
    const first: HandshakeAttempt
    var second: HandshakeAttempt?
    var gaveUp: bool
    ghost const began: int
    ghost var history: seq<CallEvent>
    ghost var others: set<nat>    // the listeners of everyone else

    /** The listeners of both attempts. */
    ghost function Own(): set<nat>
      reads this`second
    {
      {first.canonical.listener, first.legacy.listener}
      + if second == null then {} else {second.canonical.listener, second.legacy.listener}
    }

    /** The attempts share nothing but the gateway. */
    ghost predicate Apart()
      reads this`second
    {
      && first.Wired() && first.gateway == gateway
      && (second != null ==>
            && second.Wired() && second.gateway == gateway && second != first
            && second.canonical != first.canonical && second.legacy != first.legacy
            && {second.canonical.listener, second.legacy.listener} !! {first.canonical.listener, first.legacy.listener})
    }

    ghost function SecondView(): Option<Attempt>
      reads this`second
      reads if second == null then {} else {second, second.canonical, second.legacy}
      reads if second == null then {} else {second.canonical.gateway, second.legacy.gateway}
    {
      if second == null then None else Some(second.View())
    }

    ghost function View(): Call
      reads this`second, this`gaveUp, first, first.canonical, first.legacy, first.canonical.gateway,
          first.legacy.gateway
      reads if second == null then {} else {second, second.canonical, second.legacy}
      reads if second == null then {} else {second.canonical.gateway, second.legacy.gateway}
    {
      Call(forced, timeout, first.View(), first.config.start, SecondView(),
           if second == null then began else second.config.start, gaveUp)
    }

    ghost predicate Valid()
      reads this, gateway, first, first.canonical, first.legacy, first.canonical.gateway, first.legacy.gateway
      reads if second == null then {} else {second, second.canonical, second.legacy}
      reads if second == null then {} else {second.canonical.gateway, second.legacy.gateway}
    {
      && Apart() && gateway.Valid() && (forall id | id in Own() :: id < gateway.nextListener)
      && first.config == Config(began, timeout)
      && (second != null ==> second.config.timeout == timeout)
      && View() == RunCall(Begin(forced, timeout, began), history)
      && gateway.listeners - Own() == others
    }

    constructor (gateway: Gateway, forced: bool, timeout: int, now: int)
      requires gateway.Valid()
      modifies gateway
      ensures Valid() && this.gateway == gateway && history == [] && others == old(gateway.listeners)
    {
      var attempt := new HandshakeAttempt(Config(now, timeout), gateway);
      this.gateway, this.forced, this.timeout := gateway, forced, timeout;
      first, second, gaveUp := attempt, null, false;
      began, history, others := now, [], gateway.listeners - {attempt.canonical.listener, attempt.legacy.listener};
    }

    /** A callback or a promise reaction of the first attempt. */
    method OnFirst(event: Event)
      requires Valid() && CanHappen(View(), InFirst(event))
      modifies this`history, first, first.canonical, first.legacy, gateway`listeners
      ensures Valid() && history == old(history) + [InFirst(event)] && others == old(others)
    {
      hide RunCall, Apply, Enabled;
      OneEventMore(Begin(forced, timeout, began), history, InFirst(event));
      ghost var before := gateway.listeners;
      first.Handle(event);
      OnlyTheseChanged(before, gateway.listeners, first.canonical.listener, first.legacy.listener);
      assert SecondView() == old(SecondView());
      history := history + [InFirst(event)];
    }

    /** A callback or a promise reaction of the second attempt. */
    method OnSecond(event: Event)
      requires Valid() && CanHappen(View(), InSecond(event))
      modifies this`history, second, second.canonical, second.legacy, gateway`listeners
      ensures Valid() && history == old(history) + [InSecond(event)] && others == old(others) && second == old(second)
    {
      hide RunCall, Apply, Enabled;
      OneEventMore(Begin(forced, timeout, began), history, InSecond(event));
      ghost var before := gateway.listeners;
      second.Handle(event);
      OnlyTheseChanged(before, gateway.listeners, second.canonical.listener, second.legacy.listener);
      assert first.View() == old(first.View());
      history := history + [InSecond(event)];
    }

    /** Time passes for both attempts. */
    method AdvanceClock(to: int)
      requires Valid() && CanHappen(View(), Clock(to))
      modifies this`history, first`now
      modifies if second == null then {} else {second}
      ensures Valid() && history == old(history) + [Clock(to)] && others == old(others) && second == old(second)
    {
      hide RunCall, Enabled;
      OneEventMore(Begin(forced, timeout, began), history, Clock(to));
      first.now := to;
      if second != null {
        second.now := to;
      }
      history := history + [Clock(to)];
    }

    /** The continuation of the first attempt's rejection: give up, or try again over the other transport. */
    method OnFirstRejected(timedOut: bool)
      requires Valid() && CanHappen(View(), FirstRejected(timedOut))
      modifies this`history, this`second, this`gaveUp, gateway
      ensures Valid() && history == old(history) + [FirstRejected(timedOut)] && others == old(others)
      ensures second != null <==> timedOut && !forced
    {
      hide RunCall;
      OneEventMore(Begin(forced, timeout, began), history, FirstRejected(timedOut));
      if timedOut && !forced {
        ghost var before := gateway.listeners;
        var attempt := new HandshakeAttempt(Config(first.now, timeout), gateway);
        OnlyTheseChanged(before, gateway.listeners, attempt.canonical.listener, attempt.legacy.listener);
        second := attempt;
        assert first.View() == old(first.View());
      } else {
        gaveUp := true;
      }
      history := history + [FirstRejected(timedOut)];
    }

    /** Another part of the client starts to listen, whatever the call is doing. */
    method OtherListens() returns (id: nat)
      requires Valid()
      modifies this`others, gateway
      ensures Valid() && history == old(history) && others == old(others) + {id} && id !in old(others)
    {
      ghost var before := gateway.listeners;
      id := gateway.OnMessage();
      OnlyTheseChanged(before, gateway.listeners, id, id);
      others := others + {id};
      assert first.View() == old(first.View()) && SecondView() == old(SecondView());
    }

    method OtherStops(id: nat)
      requires Valid() && id in others
      modifies this`others, gateway`listeners
      ensures Valid() && history == old(history) && others == old(others) - {id}
    {
      ghost var before := gateway.listeners;
      gateway.Dispose(id);
      OnlyTheseChanged(before, gateway.listeners, id, id);
      others := others - {id};
      assert first.View() == old(first.View()) && SecondView() == old(SecondView());
    }

    /**
     Once the call has settled, the gateway holds exactly the listeners of others, and no timeout or resend is
     armed.
     */
    lemma OverGivesBack()
      requires Valid() && IsOver(View())
      ensures gateway.listeners == others
      ensures first.armed == map[] && first.canonical.armed == map[]
      ensures second != null ==> second.armed == map[] && second.canonical.armed == map[]
    {
      SettledCallsLeaveNothing(forced, timeout, began, history, []);
      assert View() == RunCall(View(), []);
      hide RunCall, IsOver;
      assert Released(first.View()) && (second != null ==> Released(second.View()));
      assert gateway.listeners - Own() == gateway.listeners;
    }
  }

  lemma OnlyTheseChanged(before: set<nat>, now: set<nat>, a: nat, b: nat)
    requires now - {a, b} == before - {a, b}
    ensures forall id | id != a && id != b :: id in now <==> id in before
  {
    forall id
      ensures id != a && id != b ==> (id in now <==> id in before)
    {
      assert id in now - {a, b} <==> id in before - {a, b};
    }
  }
}
