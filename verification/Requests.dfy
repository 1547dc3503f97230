/**
 Models the shape shared by ping, reset, subscribe and requestJsonInternal of src/services/osc/client.ts:
 an awaiter with its timer running, a send that may fail and then cancels it, and the wait for the promise.
 */
module Requests {
  import opened Awaiters
  import opened Options

  datatype Phase = Sending | Waiting | Answered(message: Message) | NoAnswer | SendFailed

  datatype Request = Request(awaiter: Awaiter, phase: Phase)

  datatype Event =
    | Reply(matched: Option<Message>)
    | Expiry(handle: nat)
    | SendEnds(ok: bool)
    | Resumes              // the continuation of the settled promise runs

  function Begin(deadline: int): Request {
    Request(Created(Some(deadline)), Sending)
  }

  function Step(r: Request, event: Event): Request {
    match event
    case Reply(matched) => r.(awaiter := Delivered(r.awaiter, matched))
    case Expiry(handle) => r.(awaiter := Expired(r.awaiter, handle))
    case SendEnds(ok) =>
      if !r.phase.Sending? then r
      else if ok then r.(phase := Waiting)
      else Request(Cleanup(r.awaiter), SendFailed)
    case Resumes =>
      if !r.phase.Waiting? || r.awaiter.outcome.Pending? then r
      else r.(phase := if r.awaiter.outcome.Resolved? then Answered(r.awaiter.outcome.message) else NoAnswer)
  }

  function RunRequest(r: Request, events: seq<Event>): Request {
    if events == [] then r else Step(RunRequest(r, events[..|events| - 1]), events[|events| - 1])
  }

  predicate IsOver(phase: Phase) {
    !phase.Sending? && !phase.Waiting?
  }

  // ---------- The history alone ----------

  /** How the send ended, if it has. */
  function SendOutcome(events: seq<Event>): Option<bool> {
    if events == [] then None
    else
      var before, last := SendOutcome(events[..|events| - 1]), events[|events| - 1];
      if before.Some? then before else if last.SendEnds? then Some(last.ok) else None
  }

  /** What the awaiter saw, the send apart. */
  function Seen(events: seq<Event>): seq<AwaiterEvent> {
    if events == [] then []
    else
      var before := Seen(events[..|events| - 1]);
      match events[|events| - 1]
      case Reply(matched) => before + [Incoming(matched)]
      case Expiry(handle) => before + [TimerFires(handle)]
      case _ => before
  }

  ghost predicate Inv(r: Request, events: seq<Event>, deadline: int) {
    && Tidy(r.awaiter)
    && (r.phase.SendFailed? <==> SendOutcome(events) == Some(false))
    && (r.phase.Sending? <==> SendOutcome(events) == None)
    && (r.phase.SendFailed? ==> r.awaiter.completed)
    && (!r.phase.SendFailed? ==> r.awaiter == Run(Created(Some(deadline)), Seen(events)))
    && (!r.phase.SendFailed? && r.awaiter.outcome.Pending? ==> !r.awaiter.completed)
    && match r.phase
       case Answered(m) => r.awaiter.outcome == Resolved(m)
       case NoAnswer => r.awaiter.outcome == TimedOut
       case _ => true
  }

  lemma {:induction false} RequestKeepsInv(deadline: int, events: seq<Event>)
    ensures Inv(RunRequest(Begin(deadline), events), events, deadline)
  {
    if events != [] {
      var last := |events| - 1;
      RequestKeepsInv(deadline, events[..last]);
      var before := Seen(events[..last]);
      if events[last].Reply? {
        assert (before + [Incoming(events[last].matched)])[..|before|] == before;
      } else if events[last].Expiry? {
        assert (before + [TimerFires(events[last].handle)])[..|before|] == before;
      }
    }
  }

  /**
   A request fails exactly when its send does, even if a reply came first; otherwise it ends as the first of
   reply and expiry says, and until one of them it listens with its timer armed.
   */
  lemma RequestsEndAsDecided(deadline: int, events: seq<Event>)
    ensures var r := RunRequest(Begin(deadline), events);
            && (r.phase.SendFailed? <==> SendOutcome(events) == Some(false))
            && (r.phase.Sending? <==> SendOutcome(events) == None)
            && (forall m :: r.phase == Answered(m) ==> Decision(true, Seen(events)) == Resolved(m))
            && (r.phase.NoAnswer? ==> Decision(true, Seen(events)) == TimedOut)
            && (!IsOver(r.phase) && Decision(true, Seen(events)).Pending? ==>
                r.awaiter.listening && r.awaiter.timer.Some?)
  {
    RequestKeepsInv(deadline, events);
    FirstEventDecides(Some(deadline), Seen(events));
    TimerIsStarted(deadline, Seen(events));
    hide RunRequest, SendOutcome, Seen, Decision, Run;
  }

  /** Once its send has succeeded and reply or expiry is there, a request ends as soon as it gets to run. */
  lemma RequestsResume(deadline: int, events: seq<Event>)
    requires SendOutcome(events) == Some(true)
    ensures RunRequest(Begin(deadline), events + [Resumes]).phase ==
            match Decision(true, Seen(events))
            case Resolved(m) => Answered(m)
            case TimedOut => NoAnswer
            case Pending => Waiting
  {
    var all := events + [Resumes];
    assert all[..|all| - 1] == events;
    RequestKeepsInv(deadline, events);
    FirstEventDecides(Some(deadline), Seen(events));
    hide SendOutcome, Seen, Decision, Run;
  }

  lemma {:induction false} TimerIsStarted(deadline: int, events: seq<AwaiterEvent>)
    ensures Run(Created(Some(deadline)), events).timerStarted
  {
    if events != [] {
      TimerIsStarted(deadline, events[..|events| - 1]);
    }
  }

  // ---------- A promise that nobody awaits yet ----------

  /** The awaiter has rejected its promise while the send, which is awaited first, is still on its way. */
  predicate IsUnhandled(r: Request) {
    r.phase.Sending? && r.awaiter.outcome.TimedOut?
  }

  ghost predicate EverUnhandled(deadline: int, events: seq<Event>) {
    exists n: nat :: n <= |events| && IsUnhandled(RunRequest(Begin(deadline), events[..n]))
  }

  /** At i the timer fires, before the send has ended and before any reply. */
  ghost predicate ExpiresFirst(events: seq<Event>, i: nat) {
    && i < |events| && events[i] == Expiry(0)
    && forall j | 0 <= j < i :: !events[j].SendEnds? && !IsReply(events[j])
  }

  predicate IsReply(event: Event) {
    event.Reply? && event.matched.Some?
  }

  /** A request whose send is under way, with neither reply nor expiry so far. */
  predicate IsUntouched(r: Request) {
    && r.phase.Sending? && r.awaiter.outcome.Pending? && !r.awaiter.completed && r.awaiter.listening
    && r.awaiter.timer == Some(0) && r.awaiter.armed.Keys == {0}
  }

  /** Until one of them comes, no event changes that. */
  lemma {:induction false} UntouchedUntil(deadline: int, events: seq<Event>)
    requires forall i | 0 <= i < |events| :: !events[i].SendEnds? && !IsReply(events[i]) && events[i] != Expiry(0)
    ensures IsUntouched(RunRequest(Begin(deadline), events))
  {
    if events != [] {
      UntouchedUntil(deadline, events[..|events| - 1]);
    }
  }

  lemma {:induction false} FirstOfThree(events: seq<Event>) returns (i: nat)
    ensures i <= |events|
    ensures forall j | 0 <= j < i :: !events[j].SendEnds? && !IsReply(events[j]) && events[j] != Expiry(0)
    ensures i < |events| ==> events[i].SendEnds? || IsReply(events[i]) || events[i] == Expiry(0)
  {
    if events == [] {
      i := 0;
    } else {
      var n := |events| - 1;
      i := FirstOfThree(events[..n]);
      if i == n && !events[n].SendEnds? && !IsReply(events[n]) && events[n] != Expiry(0) {
        i := n + 1;
      }
    }
  }

  /** Once the send has ended or a reply has come, the promise is never rejected without being awaited. */
  lemma {:induction false} HandledForGood(r: Request, events: seq<Event>)
    requires !r.phase.Sending? || r.awaiter.outcome.Resolved?
    ensures var after := RunRequest(r, events); !after.phase.Sending? || after.awaiter.outcome.Resolved?
  {
    if events != [] {
      HandledForGood(r, events[..|events| - 1]);
    }
  }

  lemma {:induction false} RunSplits(r: Request, before: seq<Event>, after: seq<Event>)
    ensures RunRequest(r, before + after) == RunRequest(RunRequest(r, before), after)
  {
    if after == [] {
      assert before + after == before;
    } else {
      var n := |after| - 1;
      RunSplits(r, before, after[..n]);
      assert (before + after)[..|before| + n] == before + after[..n];
    }
  }

  /** The event that comes first decides whether the promise is ever rejected without being awaited. */
  lemma FirstDecides(deadline: int, events: seq<Event>, i: nat)
    requires i < |events|
    requires forall j | 0 <= j < i :: !events[j].SendEnds? && !IsReply(events[j]) && events[j] != Expiry(0)
    requires events[i].SendEnds? || IsReply(events[i]) || events[i] == Expiry(0)
    ensures EverUnhandled(deadline, events) <==> events[i] == Expiry(0)
  {
    var begun := Begin(deadline);
    UntouchedUntil(deadline, events[..i]);
    assert events[..i + 1][..i] == events[..i];
    hide Begin;
    if events[i] == Expiry(0) {
      assert IsUnhandled(RunRequest(begun, events[..i + 1]));
    } else {
      forall n: nat | n <= |events|
        ensures !IsUnhandled(RunRequest(begun, events[..n]))
      {
        if n <= i {
          assert events[..n] == events[..i][..n];
          UntouchedUntil(deadline, events[..n]);
        } else {
          assert events[..n] == events[..i + 1] + events[i + 1..n];
          RunSplits(begun, events[..i + 1], events[i + 1..n]);
          HandledForGood(RunRequest(begun, events[..i + 1]), events[i + 1..n]);
        }
      }
    }
  }

  /**
   The promise of the awaiter is rejected before anything awaits it exactly when its timer fires before the send has
   ended and before a reply has come.
   */
  lemma UnhandledIff(deadline: int, events: seq<Event>)
    ensures EverUnhandled(deadline, events) <==> exists i: nat :: ExpiresFirst(events, i)
  {
    var i := FirstOfThree(events);
    if i < |events| {
      FirstDecides(deadline, events, i);
      assert events[i] == Expiry(0) ==> ExpiresFirst(events, i);
    } else {
      forall n: nat | n <= |events|
        ensures !IsUnhandled(RunRequest(Begin(deadline), events[..n]))
      {
        UntouchedUntil(deadline, events[..n]);
      }
    }
  }

  /** When a request is over its listener and timer are gone, and nothing that comes later has any effect. */
  lemma {:induction false} RequestsConserve(deadline: int, events: seq<Event>, later: seq<Event>)
    requires IsOver(RunRequest(Begin(deadline), events).phase)
    ensures !RunRequest(Begin(deadline), events).awaiter.listening
    ensures RunRequest(Begin(deadline), events).awaiter.armed == map[]
    ensures RunRequest(Begin(deadline), events + later) == RunRequest(Begin(deadline), events)
    decreases |later|
  {
    RequestKeepsInv(deadline, events);
    if later == [] {
      assert events + later == events;
    } else {
      var all := events + later;
      assert all[..|all| - 1] == events + later[..|later| - 1];
      RequestsConserve(deadline, events, later[..|later| - 1]);
    }
  }
}
