/** The event iterator of subscribeRun (api/client.ts): browser callbacks fill a queue, one consumer drains it. */
module RunSubscription {
  import opened Options

  datatype Failure = FailedToOpen | TimedOut

  /** Where the generator stands: about to run its loop, awaiting a waiter, or finished. */
  datatype Consumer = Ready | Parked | Ended | Threw(failure: Failure) | Stopped

  /** The generator's variables. `timer` is the armed connect timeout, `closed` the closed EventSource,
      `listening` the registered abort listener. */
  datatype Sub = Sub(
    queue: seq<string>, waiters: nat, done: bool, error: Option<Failure>, everOpened: bool,
    timer: bool, closed: bool, listening: bool, consumer: Consumer)

  const START: Sub := Sub([], 0, false, None, false, true, false, true, Ready)

  function Notify(s: Sub): Sub {
    s.(waiters := 0, consumer := if s.waiters > 0 && s.consumer.Parked? then Ready else s.consumer)
  }

  function Message(s: Sub, data: string, terminal: bool): Sub {
    Notify(s.(queue := s.queue + [data], done := s.done || terminal))
  }

  function Opened(s: Sub): Sub { s.(everOpened := true, timer := false) }

  /** `final`: the browser has put the source in its CLOSED state. */
  function Errored(s: Sub, final: bool): Sub {
    if final then Notify(s.(closed := true, done := true))
    else if !s.everOpened then Notify(s.(error := Some(FailedToOpen), done := true))
    else s
  }

  function TimedOutAt(s: Sub): Sub {
    var t := s.(timer := false);
    if !s.everOpened && !s.done then Notify(t.(error := Some(TimedOut), done := true, closed := true)) else t
  }

  function Aborted(s: Sub): Sub { Notify(s.(done := true, timer := false, closed := true, listening := false)) }

  function Finished(s: Sub, how: Consumer): Sub {
    s.(timer := false, closed := true, listening := false, consumer := how)
  }

  /** One pass of the consumer's loop; the second component is what it yields. */
  function Pulled(s: Sub): (Sub, Option<string>) {
    if s.queue != [] then (s.(queue := s.queue[1..]), Some(s.queue[0]))
    else if s.error.Some? then (Finished(s, Threw(s.error.value)), None)
    else if s.done then (Finished(s, Ended), None)
    else (s.(waiters := s.waiters + 1, consumer := Parked), None)
  }

  /** The closure variables that the callbacks and the generator share. */
  class Subscription {
    var queue: seq<string>
    var waiters: nat
    var done: bool
    var error: Option<Failure>
    var everOpened: bool
    var timer: bool
    var closed: bool
    var listening: bool
    var consumer: Consumer

    function State(): Sub
      reads this
    {
      Sub(queue, waiters, done, error, everOpened, timer, closed, listening, consumer)
    }

    constructor ()
      ensures State() == START
    {
      queue, waiters, done, error := [], 0, false, None;
      everOpened, timer, closed, listening, consumer := false, true, false, true, Ready;
    }

    method WakeAll()
      modifies this`waiters, this`consumer
      ensures State() == Notify(old(State()))
    {
      while waiters > 0
        invariant waiters <= old(waiters)
        invariant consumer == if waiters < old(waiters) && old(consumer).Parked? then Ready else old(consumer)
      {
        waiters := waiters - 1;
        if consumer.Parked? { consumer := Ready; }
      }
    }

    method OnMessage(data: string, terminal: bool)
      modifies this
      ensures State() == Message(old(State()), data, terminal)
    {
      queue := queue + [data];
      if terminal { done := true; }
      WakeAll();
    }

    method OnOpen()
      modifies this
      ensures State() == Opened(old(State()))
    {
      everOpened := true;
      if timer { timer := false; }
    }

    method OnError(final: bool)
      modifies this
      ensures State() == Errored(old(State()), final)
    {
      if final {
        closed := true;
        done := true;
        WakeAll();
        return;
      }
      if !everOpened {
        error := Some(FailedToOpen);
        done := true;
        WakeAll();
      }
    }

    method OnTimeout()
      modifies this
      ensures State() == TimedOutAt(old(State()))
    {
      timer := false;
      if !everOpened && !done {
        error := Some(TimedOut);
        done := true;
        closed := true;
        WakeAll();
      }
    }

    method OnAbort()
      modifies this
      ensures State() == Aborted(old(State()))
    {
      done := true;
      timer := false;
      closed := true;
      listening := false;
      WakeAll();
    }

    method Pull() returns (out: Option<string>)
      modifies this
      ensures (State(), out) == Pulled(old(State()))
    {
      out := None;
      if !done || |queue| > 0 {
        if |queue| > 0 {
          out := Some(queue[0]);
          queue := queue[1..];
          return;
        }
        if error.Some? { Finish(Threw(error.value)); return; }
        waiters := waiters + 1;
        consumer := Parked;
        return;
      }
      Finish(if error.Some? then Threw(error.value) else Ended);
    }

    method Finish(how: Consumer)
      modifies this
      ensures State() == Finished(old(State()), how)
    {
      timer := false;
      closed := true;
      listening := false;
      consumer := how;
    }
  }

  // ---------- Runs ----------

  /** The iterator with everything the source delivered and everything the consumer was given. */
  datatype World = World(sub: Sub, received: seq<string>, yielded: seq<string>)

  datatype Event =
    | Deliver(data: string, terminal: bool)
    | Open
    | Fail(final: bool)
    | Timeout
    | Abort
    | Pull
    | Stop

  /** A closed source is silent; a cleared timer and a removed listener do not fire; only a consumer that
      is neither parked nor finished runs. */
  predicate Possible(w: World, e: Event) {
    match e
    case Deliver(_, _) => !w.sub.closed
    case Open => !w.sub.closed
    case Fail(_) => !w.sub.closed
    case Timeout => w.sub.timer
    case Abort => w.sub.listening
    case Pull => w.sub.consumer.Ready?
    case Stop => w.sub.consumer.Ready?
  }

  function Next(w: World, e: Event): World {
    match e
    case Deliver(data, terminal) => w.(sub := Message(w.sub, data, terminal), received := w.received + [data])
    case Open => w.(sub := Opened(w.sub))
    case Fail(final) => w.(sub := Errored(w.sub, final))
    case Timeout => w.(sub := TimedOutAt(w.sub))
    case Abort => w.(sub := Aborted(w.sub))
    case Pull =>
      var (sub, out) := Pulled(w.sub);
      w.(sub := sub, yielded := if out.Some? then w.yielded + [out.value] else w.yielded)
    case Stop => w.(sub := Finished(w.sub, Stopped))
  }

  ghost predicate Inv(w: World) {
    var s := w.sub;
    && w.received == w.yielded + s.queue
    && (if s.consumer.Parked? then s.waiters == 1 && s.queue == [] && !s.done && s.error.None? else s.waiters == 0)
    && (s.error.Some? ==> s.done)
    && (s.timer ==> !s.everOpened)
    && (s.consumer.Ended? || s.consumer.Threw? || s.consumer.Stopped? ==> s.closed && !s.timer && !s.listening)
    && (s.consumer.Ended? ==> s.queue == [] && s.done && s.error.None?)
    && (s.consumer.Threw? ==> s.queue == [] && s.error == Some(s.consumer.failure))
  }

  lemma StepKeeps(w: World, e: Event)
    requires Inv(w) && Possible(w, e)
    ensures Inv(Next(w, e))
  {
    match e
    case Deliver(data, _) =>
      assert w.yielded + w.sub.queue + [data] == w.yielded + (w.sub.queue + [data]);
    case Pull =>
      if w.sub.queue != [] { assert w.sub.queue == [w.sub.queue[0]] + w.sub.queue[1..]; }
    case _ =>
  }

  ghost predicate PossibleRun(w: World, events: seq<Event>)
    decreases |events|
  {
    events == [] || (Possible(w, events[0]) && PossibleRun(Next(w, events[0]), events[1..]))
  }

  function Play(w: World, events: seq<Event>): World
    decreases |events|
  {
    if events == [] then w else Play(Next(w, events[0]), events[1..])
  }

  lemma {:induction false} RunsKeep(w: World, events: seq<Event>)
    requires Inv(w) && PossibleRun(w, events)
    ensures Inv(Play(w, events))
    decreases |events|
  {
    if events != [] {
      StepKeeps(w, events[0]);
      RunsKeep(Next(w, events[0]), events[1..]);
    }
  }

  const FRESH: World := World(START, [], [])

  /** For every order of messages, opens, errors, timeouts, aborts and pulls: the consumer has been given a
      prefix of what arrived; the iterator ends or throws only after giving everything; and it sleeps only
      when there is nothing to do and a waiter is registered to wake it. */
  lemma NothingIsLostAndNoSleepOnWork(events: seq<Event>)
    requires PossibleRun(FRESH, events)
    ensures var w := Play(FRESH, events);
            && w.yielded <= w.received
            && (w.sub.consumer.Ended? || w.sub.consumer.Threw? ==> w.yielded == w.received)
            && (w.sub.consumer.Threw? <==> w.sub.error.Some? && !w.sub.consumer.Ready? && !w.sub.consumer.Stopped?)
            && (w.sub.consumer.Parked? ==>
                  w.sub.queue == [] && !w.sub.done && w.sub.error.None? && w.sub.waiters == 1
                  && w.yielded == w.received)
  {
    RunsKeep(FRESH, events);
  }

  /** Every event that brings work wakes the consumer: afterwards it is not asleep. */
  lemma WorkWakes(w: World, e: Event)
    requires Inv(w) && Possible(w, e)
    requires e.Deliver? || e.Abort? || (e.Fail? && (e.final || !w.sub.everOpened))
          || (e.Timeout? && !w.sub.everOpened && !w.sub.done)
    ensures !Next(w, e).sub.consumer.Parked?
  {
  }

  function Pulls(n: nat): seq<Event> { if n == 0 then [] else [Pull] + Pulls(n - 1) }

  /** Once the stream is done, as many pulls as there are queued payloads, and one more, hand over the rest
      and finish: with the stream error if there is one, normally otherwise. */
  lemma {:induction false} DoneStreamsDrain(w: World)
    requires Inv(w) && w.sub.done && w.sub.consumer.Ready?
    ensures var run := Pulls(|w.sub.queue| + 1);
            && PossibleRun(w, run)
            && Play(w, run).yielded == w.received && Play(w, run).received == w.received
            && Play(w, run).sub.consumer ==
                 if w.sub.error.Some? then Threw(w.sub.error.value) else Ended
    decreases |w.sub.queue|
  {
    var run := Pulls(|w.sub.queue| + 1);
    var next := Next(w, Pull);
    StepKeeps(w, Pull);
    assert run[1..] == Pulls(|w.sub.queue|);
    if w.sub.queue != [] {
      DoneStreamsDrain(next);
    } else {
      assert PossibleRun(next, run[1..]) && Play(next, run[1..]) == next;
    }
  }

  /** The connect timeout can only end a stream that never opened. */
  lemma OpenDisarmsTimeout(events: seq<Event>)
    requires PossibleRun(FRESH, events)
    ensures Play(FRESH, events).sub.everOpened ==> !Possible(Play(FRESH, events), Timeout)
  {
    RunsKeep(FRESH, events);
  }
}
