/** What a read of a cache is answered with, and what becomes of a response, told by the history of the cache
    (api/client.ts): what was stored when, and which requests still wait. */
module CacheReads {
  import opened Options
  import opened ValueCaches
  import opened CacheProtocol
  import opened CacheMutations

  /** The held value was stored less than 30 seconds before. A clock that ran backwards makes it young. */
  predicate Young(w: World, now: int) { w.stored.Some? && now - w.stored.value.moment < 30_000 }

  /** The newest request still waits, and nothing was stored or invalidated since it was issued. */
  ghost predicate Flying(w: World, r: nat) {
    IsWaiting(w, r) && w.promises[r].revision == w.cache.revision && forall q | q in w.promises :: q <= r
  }

  ghost predicate SomeFlying(w: World) { exists r :: Flying(w, r) }

  /** The record holds what the latest commit or patch stored, with its moment. */
  predicate HoldsStored(w: World) {
    match w.stored
    case None => w.cache.data.None?
    case Some(s) => w.cache.data == Some(s.value) && w.cache.fetchedAt == s.moment
  }

  lemma StepHoldsStored(w: World, e: Event)
    requires HoldsStored(w) && Possible(w, e)
    ensures HoldsStored(Next(w, e))
  {
  }

  lemma {:induction false} RunHoldsStored(w: World, events: seq<Event>)
    requires HoldsStored(w) && PossibleRun(w, events)
    ensures HoldsStored(Play(w, events))
    decreases |events|
  {
    if events != [] {
      StepHoldsStored(w, events[0]);
      RunHoldsStored(Next(w, events[0]), events[1..]);
    }
  }

  /** The number after a write or an invalidation belongs to no request. */
  ghost predicate NumbersAreSpent(w: World) {
    w.cache.requestId !in w.promises ==>
      forall r | r in w.promises && IsWaiting(w, r) :: w.promises[r].revision < w.cache.revision
  }

  lemma StepSpends(w: World, e: Event)
    requires Inv(w) && Behind(w) && NumbersAreSpent(w) && Possible(w, e)
    ensures Behind(Next(w, e)) && NumbersAreSpent(Next(w, e))
  {
  }

  ghost predicate Behind(w: World) { forall r | IsWaiting(w, r) :: w.promises[r].revision <= w.cache.revision }

  lemma {:induction false} RunSpends(w: World, events: seq<Event>)
    requires Inv(w) && Behind(w) && NumbersAreSpent(w) && PossibleRun(w, events)
    ensures Behind(Play(w, events)) && NumbersAreSpent(Play(w, events))
    decreases |events|
  {
    if events != [] {
      StepKeeps(w, events[0]);
      StepSpends(w, events[0]);
      RunSpends(Next(w, events[0]), events[1..]);
    }
  }

  /** What holds in every reachable state. */
  ghost predicate Reached(w: World) {
    && Inv(w) && CommittersFly(w) && HoldsStored(w)
    && (w.cache.inflight.Some? ==> Flying(w, w.cache.inflight.value))
    && (forall r | Flying(w, r) :: w.cache.inflight == Some(r) && r == w.cache.requestId)
  }

  lemma RunsReach(events: seq<Event>)
    requires PossibleRun(START, events)
    ensures Reached(Play(START, events))
  {
    RunsKeep(START, events);
    RunCommittersFly(START, events);
    RunHoldsStored(START, events);
    RunSpends(START, events);
    InflightFlies(Play(START, events));
  }

  lemma InflightFlies(w: World)
    requires Inv(w) && CommittersFly(w) && Behind(w) && NumbersAreSpent(w)
    ensures w.cache.inflight.Some? ==> Flying(w, w.cache.inflight.value)
    ensures forall r | Flying(w, r) :: w.cache.inflight == Some(r) && r == w.cache.requestId
  {
  }

  /** A read is answered with the held value if and only if it is not forced and the value was stored less than
      30 seconds before; it joins a request if and only if it is not forced, the value is not young and that
      request is in flight; and otherwise it issues a request. It changes nothing else. */
  lemma ReadsAreAnsweredByAge(events: seq<Event>, now: int, force: bool)
    requires PossibleRun(START, events)
    ensures var w := Play(START, events);
            var next := Next(w, Read(now, force));
            |next.answers| == |w.answers| + 1 && next.answers[..|w.answers|] == w.answers
            && var answer := next.answers[|w.answers|];
            && (answer.Hit? <==> !force && Young(w, now))
            && (answer.Hit? ==> answer.value == w.stored.value.value)
            && (answer.Join? <==> !force && !Young(w, now) && SomeFlying(w))
            && (answer.Join? ==> Flying(w, answer.request))
            && (answer.Issue? ==> answer.request !in w.promises && Flying(next, answer.request))
            && next.stored == w.stored && HoldsStored(next)
  {
    RunsReach(events);
    ReadAnswers(Play(START, events), now, force);
  }

  lemma ReadAnswers(w: World, now: int, force: bool)
    requires Reached(w)
    ensures var next := Next(w, Read(now, force));
            |next.answers| == |w.answers| + 1 && next.answers[..|w.answers|] == w.answers
            && var answer := next.answers[|w.answers|];
            && (answer.Hit? <==> !force && Young(w, now))
            && (answer.Hit? ==> answer.value == w.stored.value.value)
            && (answer.Join? <==> !force && !Young(w, now) && SomeFlying(w))
            && (answer.Join? ==> Flying(w, answer.request))
            && (answer.Issue? ==> answer.request !in w.promises && Flying(next, answer.request))
            && next.stored == w.stored && HoldsStored(next)
  {
  }

  /** A forced read always puts a new number into the promises; an unforced one puts none if and only if the
      value is young or a request is in flight; and no read puts in more than one or touches the others. */
  lemma ReadsIssueIff(events: seq<Event>, now: int, force: bool)
    requires PossibleRun(START, events)
    ensures var w := Play(START, events);
            var next := Next(w, Read(now, force));
            && (next.promises == w.promises <==> !force && (Young(w, now) || SomeFlying(w)))
            && (next.promises != w.promises ==>
                  exists r :: r !in w.promises && next.promises.Keys == w.promises.Keys + {r}
                              && IsWaiting(next, r) && next.promises[r].since == w.server)
            && forall r | r in w.promises :: r in next.promises && next.promises[r] == w.promises[r]
  {
    var w := Play(START, events);
    var next := Next(w, Read(now, force));
    RunsReach(events);
    if ReadOf(w.cache, now, force).Issue? {
      var r := w.cache.requestId + 1;
      assert r !in w.promises && r in next.promises;
      assert next.promises.Keys == w.promises.Keys + {r};
    }
  }

  // ---------- Responses ----------

  /** Nothing is stored or invalidated and no request is issued. */
  ghost predicate Quiet(w: World, e: Event)
    requires Possible(w, e)
  {
    !e.Patch? && !e.Invalidate? && Next(w, e).promises.Keys == w.promises.Keys
  }

  ghost predicate AllQuiet(w: World, events: seq<Event>)
    requires PossibleRun(w, events)
    decreases |events|
  {
    events == [] || (Quiet(w, events[0]) && AllQuiet(Next(w, events[0]), events[1..]))
  }

  lemma QuietKeepsFlying(w: World, e: Event, r: nat)
    requires Inv(w) && Flying(w, r) && r == w.cache.requestId && Possible(w, e) && IsWaiting(Next(w, e), r)
    ensures Quiet(w, e) ==> Flying(Next(w, e), r) && r == Next(w, e).cache.requestId
    ensures !Quiet(w, e) ==> r < Next(w, e).cache.requestId
  {
    NumbersGoUpIffUsed(w, e, r);
  }

  lemma NumbersGoUpIffUsed(w: World, e: Event, r: nat)
    requires Inv(w) && Flying(w, r) && r == w.cache.requestId && Possible(w, e) && IsWaiting(Next(w, e), r)
    ensures w.cache.requestId <= Next(w, e).cache.requestId
    ensures w.cache.requestId < Next(w, e).cache.requestId <==> !Quiet(w, e)
  {
    var next := Next(w, e);
    if e.RespondOk? || e.RespondFail? { assert e.request in w.promises && e.request != r; }
    assert r + 1 !in w.promises;
    if r + 1 in next.promises { assert next.promises.Keys != w.promises.Keys; }
    if e.RespondOk? && r + 1 !in next.promises { assert next.promises.Keys == w.promises.Keys; }
  }

  lemma {:induction false} FliesWhileQuiet(w: World, events: seq<Event>, r: nat)
    requires Inv(w) && Flying(w, r) && r == w.cache.requestId && PossibleRun(w, events) && IsWaiting(Play(w, events), r)
    ensures AllQuiet(w, events) ==> Flying(Play(w, events), r) && r == Play(w, events).cache.requestId
    ensures !AllQuiet(w, events) ==> r < Play(w, events).cache.requestId
    decreases |events|
  {
    if events != [] {
      var next := Next(w, events[0]);
      StepKeeps(w, events[0]);
      StepGrows(w, events[0]);
      WaitedBefore(next, events[1..], r);
      QuietKeepsFlying(w, events[0], r);
      if Quiet(w, events[0]) { FliesWhileQuiet(next, events[1..], r); } else { RunsKeep(next, events[1..]); }
    }
  }

  /** A number that is used and still waits at the end waited all the time. */
  lemma {:induction false} WaitedBefore(w: World, events: seq<Event>, r: nat)
    requires Inv(w) && PossibleRun(w, events) && IsWaiting(Play(w, events), r) && r <= w.cache.requestId && r in w.promises
    ensures IsWaiting(w, r)
    decreases |events|
  {
    if !IsWaiting(w, r) { SettledStays(w, events, r); }
  }

  /** The response to a request is committed if and only if, since the request was issued, nothing was stored or
      invalidated and no other request was issued. */
  lemma CommitsIffUndisturbed(events: seq<Event>, issue: Event, after: seq<Event>, r: nat, value: Value, now: int)
    requires PossibleRun(START, events) && issue.Read?
    requires r !in Play(START, events).promises && r in Next(Play(START, events), issue).promises
    requires PossibleRun(Next(Play(START, events), issue), after)
    requires Possible(Play(Next(Play(START, events), issue), after), RespondOk(r, value, now))
    ensures var end := Play(Next(Play(START, events), issue), after);
            var next := Next(end, RespondOk(r, value, now));
            if AllQuiet(Next(Play(START, events), issue), after)
            then next.stored == Some(Storing(value, now)) && next.promises[r] == Delivered(value, end.floor)
                 && next.committed == value.version
            else next.stored == end.stored && next.committed == end.committed && HoldsStored(next)
  {
    var w := Play(START, events);
    var issued := Next(w, issue);
    var end := Play(issued, after);
    RunsReach(events);
    StepKeeps(w, issue);
    StepHoldsStored(w, issue);
    RunHoldsStored(issued, after);
    StepHoldsStored(end, RespondOk(r, value, now));
    assert Flying(issued, r) && r == issued.cache.requestId;
    FliesWhileQuiet(issued, after, r);
  }

  /** What becomes of a response that is not committed: its caller gets the answer of the request in flight; or,
      without one, the value that was stored last; or, without that, the answer of a new request. */
  lemma SupersededAnswers(events: seq<Event>, r: nat, value: Value, now: int)
    requires PossibleRun(START, events) && Possible(Play(START, events), RespondOk(r, value, now))
    requires !Flying(Play(START, events), r)
    ensures var w := Play(START, events);
            var next := Next(w, RespondOk(r, value, now));
            && next.stored == w.stored
            && (forall t | Flying(w, t) :: next.promises == w.promises[r := Following(t, w.floor)])
            && (!SomeFlying(w) && w.stored.Some? ==>
                  next.promises == w.promises[r := Delivered(w.stored.value.value, w.floor)])
            && (!SomeFlying(w) && w.stored.None? ==>
                  exists t :: t !in w.promises && Flying(next, t) && next.promises[t].since == w.server
                              && next.promises[r] == Following(t, w.floor))
  {
    var w := Play(START, events);
    var next := Next(w, RespondOk(r, value, now));
    RunsReach(events);
    if !SomeFlying(w) && w.stored.None? {
      var t := w.cache.requestId + 1;
      assert t !in w.promises && Flying(next, t);
    }
  }

  // ---------- Counting ----------

  function Changes(events: seq<Event>): nat {
    if events == [] then 0
    else Changes(events[..|events| - 1]) + if events[|events| - 1].ServerChanges? then 1 else 0
  }

  function Reads(events: seq<Event>): nat {
    if events == [] then 0 else Reads(events[..|events| - 1]) + if events[|events| - 1].Read? then 1 else 0
  }

  function Invalidations(events: seq<Event>): nat {
    if events == [] then 0 else Invalidations(events[..|events| - 1]) + if events[|events| - 1].Invalidate? then 1 else 0
  }

  function Failures(events: seq<Event>): nat {
    if events == [] then 0 else Failures(events[..|events| - 1]) + if events[|events| - 1].RespondFail? then 1 else 0
  }

  /** How often the server had changed by the latest invalidation. */
  function ChangesByInvalidation(events: seq<Event>): nat {
    if events == [] then 0
    else
      var front := events[..|events| - 1];
      if events[|events| - 1].Invalidate? then Changes(front) else ChangesByInvalidation(front)
  }

  lemma {:induction false} PlaySnoc(w: World, front: seq<Event>, e: Event)
    requires PossibleRun(w, front + [e])
    ensures PossibleRun(w, front) && Possible(Play(w, front), e)
    ensures Play(w, front + [e]) == Next(Play(w, front), e)
    decreases |front|
  {
    if front == [] {
      assert front + [e] == [e] && [e][1..] == [];
      assert PossibleRun(w, [e]) && Play(w, [e]) == Play(Next(w, e), []) == Next(w, e);
    } else {
      assert (front + [e])[1..] == front[1..] + [e];
      PlaySnoc(Next(w, front[0]), front[1..], e);
    }
  }

  /** The world's history is that of the run. */
  ghost predicate Counts(w: World, events: seq<Event>) {
    && w.server == Changes(events) && w.floor == ChangesByInvalidation(events)
    && w.invalidations == Invalidations(events) && w.failures <= Failures(events)
    && |w.promises| <= Reads(events) + w.refetches
  }

  lemma EventCounts(w: World, front: seq<Event>, e: Event)
    requires Inv(w) && Counts(w, front) && Possible(w, e)
    ensures Counts(Next(w, e), front + [e])
  {
    assert (front + [e])[..|front|] == front;
    PromisesGrow(w, e);
  }

  lemma PromisesGrow(w: World, e: Event)
    requires Inv(w) && Possible(w, e)
    ensures |Next(w, e).promises| <= |w.promises| + (if e.Read? then 1 else 0) + (Next(w, e).refetches - w.refetches)
  {
    match e
    case RespondOk(request, value, now) => SettledKeys(w, request, value, now);
    case RespondFail(request) => assert Next(w, e).promises.Keys == w.promises.Keys;
    case Read(_, _) =>
      assert Next(w, e).promises.Keys <= w.promises.Keys + {w.cache.requestId + 1};
      FewerKeys(Next(w, e).promises.Keys, w.promises.Keys + {w.cache.requestId + 1});
    case _ =>
  }

  lemma SettledKeys(w: World, request: nat, value: Value, now: int)
    requires IsWaiting(w, request)
    ensures var next := Settled(w, request, value, now);
            w.refetches <= next.refetches && |next.promises| <= |w.promises| + (next.refetches - w.refetches)
  {
    var next, n := Settled(w, request, value, now), w.cache.requestId + 1;
    match SettleOf(w.cache, request, w.promises[request].revision)
    case Refetch(_, _) =>
      assert next.promises.Keys == w.promises.Keys + {n};
      FewerKeys(next.promises.Keys, w.promises.Keys + {n});
    case _ => assert next.promises.Keys == w.promises.Keys;
  }

  lemma FewerKeys(a: set<nat>, b: set<nat>)
    requires a <= b
    ensures |a| <= |b|
  {
    assert b == a + (b - a);
  }

  lemma {:induction false} RunCounts(events: seq<Event>)
    requires PossibleRun(START, events)
    ensures Inv(Play(START, events)) && Counts(Play(START, events), events)
    decreases |events|
  {
    if events != [] {
      var front, e := events[..|events| - 1], events[|events| - 1];
      assert events == front + [e];
      PlaySnoc(START, front, e);
      RunCounts(front);
      StepKeeps(Play(START, front), e);
      EventCounts(Play(START, front), front, e);
    }
  }

  /** Over every run: what the cache holds is at least as new as the server was at the latest invalidation of the
      run; and the requests that were ever issued are at most as many as the reads, invalidations and failures
      together. */
  lemma RequestsAreBounded(events: seq<Event>)
    requires PossibleRun(START, events)
    ensures var w := Play(START, events);
            && (w.cache.data.Some? ==> ChangesByInvalidation(events) <= w.cache.data.value.version <= Changes(events))
            && |w.promises| <= Reads(events) + Invalidations(events) + Failures(events)
  {
    RunCounts(events);
  }
}
