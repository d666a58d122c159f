/** How the event iterator of a run ends, told by what happened to it (api/client.ts). */
module RunOutcomes {
  import opened Options
  import opened RunSubscription

  // ---------- What the events say ----------

  /** The payloads that arrived, in order. */
  function Payloads(events: seq<Event>): seq<string> {
    if events == [] then []
    else
      var n := |events| - 1;
      Payloads(events[..n]) + if events[n].Deliver? then [events[n].data] else []
  }

  /** The stream failed, with an error that the browser may recover from, before it had opened. */
  predicate FailsToOpen(events: seq<Event>, k: nat) {
    k < |events| && events[k] == Fail(false) && Open !in events[..k]
  }

  /** The event ends the stream: a terminal payload, a final error, an abort, or before the stream has opened an
      error or the timeout. */
  predicate Ends(events: seq<Event>, k: nat) {
    && k < |events|
    && ((events[k].Deliver? && events[k].terminal) || events[k] == Fail(true) || events[k] == Abort
        || FailsToOpen(events, k) || (events[k] == Timeout && Open !in events[..k]))
  }

  ghost predicate HasEnded(events: seq<Event>) { exists k: nat :: Ends(events, k) }

  /** The timeout found a stream that had neither opened nor ended. */
  ghost predicate TimesOut(events: seq<Event>, k: nat) {
    k < |events| && events[k] == Timeout && Open !in events[..k] && !HasEnded(events[..k])
  }

  /** The error that the stream has: one before it opened, or its timeout. */
  ghost predicate HasError(events: seq<Event>, failure: Failure) {
    match failure
    case FailedToOpen => exists k: nat :: FailsToOpen(events, k)
    case TimedOut => exists k: nat :: TimesOut(events, k)
  }

  // ---------- One more event ----------

  lemma {:induction false} PlaySnoc(w: World, front: seq<Event>, e: Event)
    requires PossibleRun(w, front + [e])
    ensures PossibleRun(w, front) && Possible(Play(w, front), e)
    ensures Play(w, front + [e]) == Next(Play(w, front), e)
    decreases |front|
  {
    if front == [] {
      assert front + [e] == [e] && [e][1..] == [];
      assert PossibleRun(w, [e]) && Play(w, [e]) == Play(Next(w, e), []) == Next(w, e);
    } else {
      assert (front + [e])[1..] == front[1..] + [e];
      PlaySnoc(Next(w, front[0]), front[1..], e);
    }
  }

  lemma PrefixTells(front: seq<Event>, e: Event)
    ensures forall k: nat | k < |front| :: Ends(front + [e], k) <==> Ends(front, k)
    ensures forall k: nat | k < |front| :: FailsToOpen(front + [e], k) <==> FailsToOpen(front, k)
    ensures forall k: nat | k < |front| :: TimesOut(front + [e], k) <==> TimesOut(front, k)
    ensures (front + [e])[..|front|] == front
  {
    forall k: nat | k < |front|
      ensures Ends(front + [e], k) <==> Ends(front, k)
      ensures FailsToOpen(front + [e], k) <==> FailsToOpen(front, k)
      ensures TimesOut(front + [e], k) <==> TimesOut(front, k)
    {
      assert (front + [e])[..k] == front[..k];
    }
    assert (front + [e])[..|front|] == front;
  }

  lemma EndedAfter(front: seq<Event>, e: Event)
    ensures HasEnded(front + [e]) <==> HasEnded(front) || Ends(front + [e], |front|)
    ensures HasError(front + [e], FailedToOpen) <==> HasError(front, FailedToOpen) || FailsToOpen(front + [e], |front|)
    ensures HasError(front + [e], TimedOut) <==> HasError(front, TimedOut) || TimesOut(front + [e], |front|)
  {
    PrefixTells(front, e);
    if k: nat :| Ends(front, k) { assert Ends(front + [e], k); }
    if k: nat :| FailsToOpen(front, k) { assert FailsToOpen(front + [e], k); }
    if k: nat :| TimesOut(front, k) { assert TimesOut(front + [e], k); }
  }

  /** The iterator's variables say what happened. */
  ghost predicate Says(events: seq<Event>, w: World) {
    && w.received == Payloads(events)
    && (w.sub.everOpened <==> Open in events)
    && (w.sub.done <==> HasEnded(events))
    && (w.sub.error == Some(FailedToOpen) <==> HasError(events, FailedToOpen))
    && (w.sub.error == Some(TimedOut) <==> HasError(events, TimedOut))
    && (w.sub.consumer.Stopped? <==> Stop in events)
    && (w.sub.closed <==> Over(w) || Fail(true) in events || Abort in events || HasError(events, TimedOut))
    && (w.sub.timer <==> !Over(w) && Open !in events && Abort !in events && Timeout !in events)
    && (w.sub.listening <==> !Over(w) && Abort !in events)
  }

  /** The consumer has ended, thrown or been stopped. */
  predicate Over(w: World) { w.sub.consumer.Ended? || w.sub.consumer.Threw? || w.sub.consumer.Stopped? }

  /** Over every run: more events can arrive exactly until the consumer has finished, a final error, an abort, or the
      timeout of a stream that had neither opened nor ended; the timeout is armed exactly until the consumer has
      finished, the stream opened or was aborted, or it fired; and an abort is heard once, until the consumer has
      finished. */
  lemma ResourcesAreReleased(events: seq<Event>, data: string, terminal: bool)
    requires PossibleRun(FRESH, events)
    ensures var w := Play(FRESH, events);
            && (Possible(w, Deliver(data, terminal)) <==>
                  !Over(w) && Fail(true) !in events && Abort !in events && !HasError(events, TimedOut))
            && (Possible(w, Timeout) <==> !Over(w) && Open !in events && Abort !in events && Timeout !in events)
            && (Possible(w, Abort) <==> !Over(w) && Abort !in events)
  {
    RunSays(events);
  }

  lemma EventSays(front: seq<Event>, e: Event, w: World)
    requires Inv(w) && Says(front, w) && Possible(w, e)
    ensures Says(front + [e], Next(w, e))
  {
    EndedAfter(front, e);
    PrefixTells(front, e);
    assert (front + [e])[|front|] == e;
    assert forall x :: x in front + [e] <==> x in front || x == e;
    assert w.received + [] == w.received;
  }

  lemma {:induction false} RunSays(events: seq<Event>)
    requires PossibleRun(FRESH, events)
    ensures Inv(Play(FRESH, events)) && Says(events, Play(FRESH, events))
    decreases |events|
  {
    if events != [] {
      var front, e := events[..|events| - 1], events[|events| - 1];
      assert events == front + [e];
      PlaySnoc(FRESH, front, e);
      RunSays(front);
      StepKeeps(Play(FRESH, front), e);
      EventSays(front, e, Play(FRESH, front));
    }
  }

  /** Over every run: the consumer is given the payloads that arrived, in order and from the first on. It ends
      without an error only after a terminal payload, a final error or an abort, with every payload given and with
      no error before the stream opened; it throws exactly the error that happened; and it sleeps only while no
      such event has happened. */
  lemma OutcomesTellTheEvents(events: seq<Event>)
    requires PossibleRun(FRESH, events)
    ensures var w := Play(FRESH, events);
            && w.yielded <= Payloads(events)
            && (w.sub.consumer.Ended? ==>
                  w.yielded == Payloads(events) && HasEnded(events)
                  && !HasError(events, FailedToOpen) && !HasError(events, TimedOut))
            && (w.sub.consumer.Threw? ==>
                  w.yielded == Payloads(events) && HasError(events, w.sub.consumer.failure))
            && (w.sub.consumer.Parked? ==> w.yielded == Payloads(events) && !HasEnded(events))
            && (w.sub.consumer.Stopped? <==> Stop in events)
  {
    RunSays(events);
  }

  /** And whenever the consumer runs: as many pulls as there are payloads left to give, and one more, finish a
      stream that has ended, with the error that happened if there was one; in a stream that has not ended they
      give the rest and leave the consumer asleep. */
  lemma PullsFinishIffEnded(events: seq<Event>)
    requires PossibleRun(FRESH, events) && Play(FRESH, events).sub.consumer.Ready?
    ensures var w := Play(FRESH, events);
            |w.yielded| <= |Payloads(events)|
            && var run := Pulls(|Payloads(events)| - |w.yielded| + 1);
            && PossibleRun(w, run)
            && var end := Play(w, run);
               && end.yielded == Payloads(events)
               && (end.sub.consumer.Parked? <==> !HasEnded(events))
               && (end.sub.consumer.Threw? <==> HasError(events, FailedToOpen) || HasError(events, TimedOut))
               && (end.sub.consumer.Threw? ==> HasError(events, end.sub.consumer.failure))
               && (end.sub.consumer.Parked? || end.sub.consumer.Threw? || end.sub.consumer.Ended?)
  {
    RunSays(events);
    var w := Play(FRESH, events);
    assert w.sub.error.Some? ==> w.sub.error.value.FailedToOpen? || w.sub.error.value.TimedOut?;
    if w.sub.done { DoneStreamsDrain(w); } else { OpenStreamsPark(w); }
  }

  lemma {:induction false} OpenStreamsPark(w: World)
    requires Inv(w) && !w.sub.done && w.sub.consumer.Ready?
    ensures var run := Pulls(|w.sub.queue| + 1);
            && PossibleRun(w, run)
            && Play(w, run).yielded == w.received && Play(w, run).sub.consumer.Parked?
    decreases |w.sub.queue|
  {
    var run := Pulls(|w.sub.queue| + 1);
    var next := Next(w, Pull);
    StepKeeps(w, Pull);
    assert run[1..] == Pulls(|w.sub.queue|);
    if w.sub.queue != [] {
      OpenStreamsPark(next);
    } else {
      assert PossibleRun(next, run[1..]) && Play(next, run[1..]) == next;
    }
  }
}
