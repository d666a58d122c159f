/** Which startup responses the table keeps, and which reads it answers, told by the requests themselves
    (api/client.ts). */
module StartupRetention {
  import opened Options
  import opened StartupReads

  /** Resolved five seconds ago or more, or, by a clock that ran backwards, in the future. */
  predicate Stale(e: Entry, now: int) {
    e.settledAt.Some? && (now < e.settledAt.value || now - e.settledAt.value >= 5_000)
  }

  /** The held responses that a read at this moment may share. */
  function Live(w: World, now: int): set<Entry> { set e | e in w.entries && !Stale(e, now) }

  predicate Missing(w: World, path: string, now: int) { forall e | e in Live(w, now) :: e.path != path }

  /** No live response was requested before this one. */
  ghost predicate Longest(w: World, now: int, e: Entry) {
    && e in Live(w, now) && e.request in w.requests
    && forall x | x in Live(w, now) && x.request in w.requests :: w.requests[e.request].begun <= w.requests[x.request].begun
  }

  // ---------- Entries stand in the order of their requests ----------

  ghost predicate InOrder(entries: seq<Entry>, requests: map<nat, Request>) {
    && (forall e | e in entries :: e.request in requests)
    && forall i, j | 0 <= i < j < |entries| ::
         entries[i].request in requests && entries[j].request in requests
         && requests[entries[i].request].begun < requests[entries[j].request].begun
  }

  lemma TailInOrder(entries: seq<Entry>, requests: map<nat, Request>)
    requires InOrder(entries, requests) && entries != []
    ensures InOrder(entries[1..], requests)
    ensures forall e | e in entries[1..] :: requests[entries[0].request].begun < requests[e.request].begun
  {
    forall e | e in entries[1..] ensures requests[entries[0].request].begun < requests[e.request].begun {
      var j :| 0 <= j < |entries[1..]| && entries[1..][j] == e;
      assert entries[j + 1] == e;
    }
    assert forall e | e in entries[1..] :: e in entries;
  }

  lemma ConsInOrder(head: Entry, rest: seq<Entry>, requests: map<nat, Request>)
    requires InOrder(rest, requests) && head.request in requests
    requires forall e | e in rest :: requests[head.request].begun < requests[e.request].begun
    ensures InOrder([head] + rest, requests)
  {
    forall j | 0 <= j < |rest| ensures requests[head.request].begun < requests[rest[j].request].begun {
      assert rest[j] in rest;
    }
  }

  lemma {:induction false} PrunedInOrder(entries: seq<Entry>, now: int, requests: map<nat, Request>)
    requires InOrder(entries, requests)
    ensures InOrder(Prune(entries, now), requests)
  {
    if entries != [] {
      assert entries[0] in entries;
      TailInOrder(entries, requests);
      PrunedInOrder(entries[1..], now, requests);
      ConsInOrder(entries[0], Prune(entries[1..], now), requests);
    }
  }

  lemma {:induction false} ForgottenInOrder(entries: seq<Entry>, path: string, requests: map<nat, Request>)
    requires InOrder(entries, requests)
    ensures InOrder(Forget(entries, path), requests)
  {
    if entries != [] {
      assert entries[0] in entries;
      TailInOrder(entries, requests);
      ForgottenInOrder(entries[1..], path, requests);
      ConsInOrder(entries[0], Forget(entries[1..], path), requests);
    }
  }

  lemma AdmittedInOrder(w: World, live: seq<Entry>, path: string, request: nat)
    requires Inv(w) && InOrder(live, w.requests) && request !in w.requests
    ensures InOrder(Admit(live, Entry(path, request, None)), w.requests[request := Request(path, w.time, w.time, Open)])
  {
    var kept := if |live| >= STARTUP_LIMIT then Forget(live, live[0].path) else live;
    if |live| >= STARTUP_LIMIT { ForgottenInOrder(live, live[0].path, w.requests); }
    var requests := w.requests[request := Request(path, w.time, w.time, Open)];
    forall i | 0 <= i < |kept| ensures kept[i].request in requests && requests[kept[i].request].begun < w.time {
      assert kept[i] in kept;
    }
  }

  lemma StepInOrder(w: World, e: Event)
    requires Inv(w) && InOrder(w.entries, w.requests) && Possible(w, e)
    ensures InOrder(Next(w, e).entries, Next(w, e).requests)
  {
    match e
    case Read(path, now, request) => ReadInOrder(w, path, now, request);
    case Reject(request) => RejectedInOrder(w, request);
    case Plain(path) => ForgottenInOrder(w.entries, path, w.requests);
    case Resolve(request, now) => MarkedInOrder(w, request, now);
    case Resend(request) => SameBegun(w.entries, w.requests, Next(w, e).requests);
    case _ =>
  }

  lemma ReadInOrder(w: World, path: string, now: int, request: nat)
    requires Inv(w) && InOrder(w.entries, w.requests) && request !in w.requests
    ensures var next := Next(w, Read(path, now, request)); InOrder(next.entries, next.requests)
  {
    var live := Prune(w.entries, now);
    PrunedInOrder(w.entries, now, w.requests);
    if Find(live, path).None? {
      AdmittedInOrder(w, live, path, request);
    } else {
      assert EntryFits(w, Find(live, path).value);
    }
  }

  lemma RejectedInOrder(w: World, request: nat)
    requires InOrder(w.entries, w.requests) && Possible(w, Reject(request))
    ensures var next := Next(w, Reject(request)); InOrder(next.entries, next.requests)
  {
    var next, path := Next(w, Reject(request)), w.requests[request].path;
    ForgottenInOrder(w.entries, path, w.requests);
    SameBegun(next.entries, w.requests, next.requests);
  }

  lemma SameBegun(entries: seq<Entry>, one: map<nat, Request>, two: map<nat, Request>)
    requires InOrder(entries, one) && one.Keys <= two.Keys
    requires forall r | r in one :: one[r].begun == two[r].begun
    ensures InOrder(entries, two)
  {
  }

  lemma MarkedInOrder(w: World, request: nat, now: int)
    requires InOrder(w.entries, w.requests) && Possible(w, Resolve(request, now))
    ensures InOrder(Next(w, Resolve(request, now)).entries, Next(w, Resolve(request, now)).requests)
  {
    var next := Next(w, Resolve(request, now));
    forall e | e in next.entries ensures e.request in next.requests {
      var i :| 0 <= i < |next.entries| && next.entries[i] == e;
      assert w.entries[i] in w.entries;
    }
  }

  lemma {:induction false} RunInOrder(w: World, events: seq<Event>)
    requires Inv(w) && InOrder(w.entries, w.requests) && PossibleRun(w, events)
    ensures InOrder(Play(w, events).entries, Play(w, events).requests)
    decreases |events|
  {
    if events != [] {
      StepKeeps(w, events[0]);
      StepInOrder(w, events[0]);
      RunInOrder(Next(w, events[0]), events[1..]);
    }
  }

  // ---------- What a read does ----------

  lemma {:induction false} AsManyAsElements(entries: seq<Entry>)
    requires DistinctPaths(entries)
    ensures |set e | e in entries| == |entries|
  {
    if entries == [] {
      assert (set e | e in entries) == {};
    } else {
      HeadIsAlone(entries);
      AsManyAsElements(entries[1..]);
      assert entries == [entries[0]] + entries[1..];
      assert (set e | e in entries) == {entries[0]} + (set e | e in entries[1..]);
    }
  }

  lemma LiveIsPruned(w: World, now: int)
    requires Inv(w)
    ensures var live := Prune(w.entries, now);
            DistinctPaths(live) && |Live(w, now)| == |live| && forall e :: e in live <==> e in Live(w, now)
  {
    PruneKeepsDistinct(w.entries, now);
    AsManyAsElements(Prune(w.entries, now));
    assert Live(w, now) == set e | e in Prune(w.entries, now);
  }

  lemma FirstIsLongest(w: World, now: int, e: Entry)
    requires Inv(w) && InOrder(w.entries, w.requests) && e in Live(w, now)
    ensures Prune(w.entries, now) != [] && (Longest(w, now, e) <==> e == Prune(w.entries, now)[0])
    ensures forall x :: x in Forget(Prune(w.entries, now), Prune(w.entries, now)[0].path)
                        <==> x in Live(w, now) && x != Prune(w.entries, now)[0]
  {
    var live := Prune(w.entries, now);
    LiveIsPruned(w, now);
    PrunedInOrder(w.entries, now, w.requests);
    TailInOrder(live, w.requests);
    assert live == [live[0]] + live[1..];
    assert live[0] in Live(w, now);
    forall x | x in live && x.path == live[0].path ensures x == live[0] { OnePerPath(live, x, live[0]); }
  }

  /** Over every run: a read shares a held response if and only if a live one has its path, and otherwise begins a
      request, which is held from then on; and of the others a response stays held if and only if it is not stale,
      unless the read begins a request, sixteen are live, and this one was requested first. */
  lemma ReadsKeepTheSixteenNewest(events: seq<Event>, path: string, now: int, request: nat)
    requires PossibleRun(START, events) && Possible(Play(START, events), Read(path, now, request))
    ensures var w := Play(START, events);
            var next := Next(w, Read(path, now, request));
            && next.requests ==
               (if Missing(w, path, now) then w.requests[request := Request(path, w.time, w.time, Open)] else w.requests)
            && forall x :: x in next.entries <==>
                 || (Missing(w, path, now) && x == Entry(path, request, None))
                 || (x in w.entries && !Stale(x, now)
                     && !(Missing(w, path, now) && |Live(w, now)| >= 16 && Longest(w, now, x)))
  {
    var w := Play(START, events);
    RunsKeep(START, events);
    RunInOrder(START, events);
    ReadKeepsExactly(w, path, now, request);
  }

  lemma ReadKeepsExactly(w: World, path: string, now: int, request: nat)
    requires Inv(w) && InOrder(w.entries, w.requests) && request !in w.requests
    ensures var next := Next(w, Read(path, now, request));
            && next.requests ==
               (if Missing(w, path, now) then w.requests[request := Request(path, w.time, w.time, Open)] else w.requests)
            && forall x :: x in next.entries <==>
                 || (Missing(w, path, now) && x == Entry(path, request, None))
                 || (x in w.entries && !Stale(x, now)
                     && !(Missing(w, path, now) && |Live(w, now)| >= 16 && Longest(w, now, x)))
  {
    var next, live := Next(w, Read(path, now, request)), Prune(w.entries, now);
    LiveIsPruned(w, now);
    MissingIffNotFound(w, path, now, request);
    forall x ensures x in next.entries <==>
                 || (Missing(w, path, now) && x == Entry(path, request, None))
                 || (x in w.entries && !Stale(x, now)
                     && !(Missing(w, path, now) && |Live(w, now)| >= 16 && Longest(w, now, x)))
    {
      assert x in Live(w, now) <==> x in w.entries && !Stale(x, now);
      if x in Live(w, now) { FirstIsLongest(w, now, x); }
      if |live| >= 16 { assert live[0] in Live(w, now); FirstIsLongest(w, now, live[0]); }
    }
  }

  lemma MissingIffNotFound(w: World, path: string, now: int, request: nat)
    requires Inv(w) && request !in w.requests
    ensures Find(Prune(w.entries, now), path).None? <==> Missing(w, path, now)
    ensures Served(w.entries, path, now, request) == request <==> Missing(w, path, now)
  {
    LiveIsPruned(w, now);
    var held := Find(Prune(w.entries, now), path);
    if held.Some? { assert EntryFits(w, held.value); }
  }

  // ---------- What the other events do ----------

  /** Over every run: a mutation clears the table when it begins and whenever an attempt of it ends, and so does a
      run submission; a request that is no startup read drops the response of its own path, and a rejection the
      response of its own request; a resolution stamps its own response with its moment; nothing else changes. */
  lemma OthersKeepExactly(events: seq<Event>, e: Event)
    requires PossibleRun(START, events) && Possible(Play(START, events), e) && !e.Read?
    ensures var w := Play(START, events);
            forall x :: x in Next(w, e).entries <==>
              match e
              case Plain(path) => x in w.entries && x.path != path
              case Reject(request) => x in w.entries && x.request != request
              case Resolve(request, now) =>
                exists o :: o in w.entries && x == if o.request == request then o.(settledAt := Some(now)) else o
              case Resend(_) => x in w.entries
              case Send(_) => x in w.entries
              case Settle(_) => x in w.entries
              case _ => false
  {
    var w := Play(START, events);
    RunsKeep(START, events);
    match e
    case Reject(request) => RejectsExactly(w, request);
    case Resolve(request, now) => MarksExactly(w.entries, request, now);
    case _ =>
  }

  lemma MarksExactly(entries: seq<Entry>, request: nat, now: int)
    ensures forall x :: x in MarkSettled(entries, request, now) <==>
              exists o :: o in entries && x == if o.request == request then o.(settledAt := Some(now)) else o
  {
    var marked := MarkSettled(entries, request, now);
    forall o | o in entries ensures (if o.request == request then o.(settledAt := Some(now)) else o) in marked {
      var i :| 0 <= i < |entries| && entries[i] == o;
      assert marked[i] in marked;
    }
    forall x | x in marked
      ensures exists o :: o in entries && x == if o.request == request then o.(settledAt := Some(now)) else o
    {
      var i :| 0 <= i < |marked| && marked[i] == x;
      assert entries[i] in entries;
    }
  }

  lemma RejectsExactly(w: World, request: nat)
    requires Inv(w) && Possible(w, Reject(request))
    ensures forall x :: x in Next(w, Reject(request)).entries <==> x in w.entries && x.request != request
  {
    var path := w.requests[request].path;
    forall x | x in w.entries && x.request == request ensures x.path == path { assert EntryFits(w, x); }
    var held := Find(w.entries, path);
    forall x | x in w.entries && x.path == path ensures held == Some(x) { OnePerPath(w.entries, held.value, x); }
  }
}
