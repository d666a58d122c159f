/** The bounded table of startup responses (startupRead and its clearing points in api/client.ts). */
module StartupReads {
  import opened Options

  const STARTUP_TTL_MS: int := 5_000
  const STARTUP_LIMIT: nat := 16

  /** One Map entry; `request` names the promise, `settledAt` is set when it resolves. */
  datatype Entry = Entry(path: string, request: nat, settledAt: Option<int>)

  predicate Expired(e: Entry, now: int) {
    e.settledAt.Some? && (now < e.settledAt.value || now - e.settledAt.value >= STARTUP_TTL_MS)
  }

  function Prune(entries: seq<Entry>, now: int): (r: seq<Entry>)
    ensures |r| <= |entries|
    ensures forall e :: e in r <==> e in entries && !Expired(e, now)
  {
    if entries == [] then []
    else
      assert entries == [entries[0]] + entries[1..];
      if Expired(entries[0], now) then Prune(entries[1..], now)
      else [entries[0]] + Prune(entries[1..], now)
  }

  function Find(entries: seq<Entry>, path: string): (r: Option<Entry>)
    ensures r.Some? ==> r.value in entries && r.value.path == path
    ensures r.None? ==> forall e | e in entries :: e.path != path
  {
    if entries == [] then None
    else
      assert entries == [entries[0]] + entries[1..];
      if entries[0].path == path then Some(entries[0]) else Find(entries[1..], path)
  }

  function Forget(entries: seq<Entry>, path: string): (r: seq<Entry>)
    ensures |r| <= |entries|
    ensures forall e :: e in r <==> e in entries && e.path != path
  {
    if entries == [] then []
    else
      assert entries == [entries[0]] + entries[1..];
      if entries[0].path == path then Forget(entries[1..], path)
      else [entries[0]] + Forget(entries[1..], path)
  }

  /** Makes room by dropping the oldest key, then adds the new entry at the end. */
  function Admit(entries: seq<Entry>, e: Entry): seq<Entry> {
    (if |entries| >= STARTUP_LIMIT then Forget(entries, entries[0].path) else entries) + [e]
  }

  function MarkSettled(entries: seq<Entry>, request: nat, now: int): (r: seq<Entry>)
    ensures |r| == |entries|
    ensures forall i | 0 <= i < |entries| ::
              r[i] == if entries[i].request == request then entries[i].(settledAt := Some(now)) else entries[i]
  {
    if entries == [] then []
    else [if entries[0].request == request then entries[0].(settledAt := Some(now)) else entries[0]]
         + MarkSettled(entries[1..], request, now)
  }

  /** A rejected entry leaves the table unless its key already belongs to another entry. */
  function DropRejected(entries: seq<Entry>, path: string, request: nat): seq<Entry> {
    var held := Find(entries, path);
    if held.Some? && held.value.request == request then Forget(entries, path) else entries
  }

  function Served(entries: seq<Entry>, path: string, now: int, request: nat): nat {
    var held := Find(Prune(entries, now), path);
    if held.Some? then held.value.request else request
  }

  function AfterRead(entries: seq<Entry>, path: string, now: int, request: nat): seq<Entry> {
    var live := Prune(entries, now);
    if Find(live, path).Some? then live else Admit(live, Entry(path, request, None))
  }

  /** What request does to the table before its first attempt. */
  function Begun(entries: seq<Entry>, path: string, mutation: bool, startup: bool): seq<Entry> {
    if mutation then [] else if startup then entries else Forget(entries, path)
  }

  /** What it does at the end of every attempt. */
  function AttemptEnded(entries: seq<Entry>, mutation: bool): seq<Entry> {
    if mutation then [] else entries
  }

  ghost predicate DistinctPaths(entries: seq<Entry>) {
    forall i, j :: 0 <= i < j < |entries| ==> entries[i].path != entries[j].path
  }

  lemma PruneFrom(entries: seq<Entry>, i: nat, kept: seq<Entry>, now: int)
    requires i < |entries|
    ensures kept + Prune(entries[i..], now) ==
            (if Expired(entries[i], now) then kept else kept + [entries[i]]) + Prune(entries[i + 1..], now)
  {
    var rest := Prune(entries[i + 1..], now);
    assert entries[i..][1..] == entries[i + 1..];
    assert Prune(entries[i..], now) == if Expired(entries[i], now) then rest else [entries[i]] + rest;
    assert kept + ([entries[i]] + rest) == kept + [entries[i]] + rest;
  }

  method Unexpired(entries: seq<Entry>, now: int) returns (kept: seq<Entry>)
    ensures kept == Prune(entries, now)
  {
    kept := [];
    for i := 0 to |entries|
      invariant kept + Prune(entries[i..], now) == Prune(entries, now)
    {
      PruneFrom(entries, i, kept, now);
      if !Expired(entries[i], now) { kept := kept + [entries[i]]; }
    }
    assert entries[|entries|..] == [] && kept + [] == kept;
  }

  /** The module-level Map. */
  class StartupTable {
    var entries: seq<Entry>

    constructor ()
      ensures entries == []
    {
      entries := [];
    }

    /** The loop over the Map at the start of startupRead. */
    method DeleteExpired(now: int)
      modifies this
      ensures entries == Prune(old(entries), now)
    {
      entries := Unexpired(entries, now);
    }

    /** startupRead: `request` is the number a new request would get; the result is the request that answers. */
    method StartupRead(path: string, now: int, request: nat) returns (served: nat)
      modifies this
      ensures served == Served(old(entries), path, now, request)
      ensures entries == AfterRead(old(entries), path, now, request)
    {
      DeleteExpired(now);
      var cached := Find(entries, path);
      if cached.Some? { return cached.value.request; }
      if |entries| >= STARTUP_LIMIT { entries := Forget(entries, entries[0].path); }
      BeforeRequest(path, false, true);
      entries := entries + [Entry(path, request, None)];
      served := request;
    }

    method Resolve(request: nat, now: int)
      modifies this
      ensures entries == MarkSettled(old(entries), request, now)
    {
      entries := MarkSettled(entries, request, now);
    }

    method Reject(path: string, request: nat)
      modifies this
      ensures entries == DropRejected(old(entries), path, request)
    {
      var held := Find(entries, path);
      if held.Some? && held.value.request == request { entries := Forget(entries, path); }
    }

    /** request: a mutation clears the table, any other non-startup request drops its own path. */
    method BeforeRequest(path: string, mutation: bool, startup: bool)
      modifies this
      ensures entries == Begun(old(entries), path, mutation, startup)
    {
      if mutation { entries := []; }
      else if !startup { entries := Forget(entries, path); }
    }

    /** The end of every attempt of a mutation, and both ends of a run submission. */
    method AfterAttempt(mutation: bool)
      modifies this
      ensures entries == AttemptEnded(old(entries), mutation)
    {
      if mutation { entries := []; }
    }
  }

  // ---------- The table over whole runs ----------

  datatype Outcome = Open | Resolved | Rejected

  /** A startup request: when it was begun, when the attempt that may answer it was sent, and how it ended. */
  datatype Request = Request(path: string, begun: nat, sent: nat, outcome: Outcome)

  /** A mutation attempts at once. A run submission first prepares its attachments. Both have ended when the
      last attempt is over, and settle some time later: a mutation still parses the body by then. */
  datatype Phase = Preparing | Attempting | Over | Settled

  /** A mutation or a run submission; `cleared` is the moment of its latest clear. */
  datatype Change = Change(submission: bool, phase: Phase, cleared: nat)

  datatype World = World(
    time: nat, entries: seq<Entry>, requests: map<nat, Request>, changes: map<nat, Change>)

  datatype Event =
    | Read(path: string, now: int, request: nat)
    | Resend(request: nat)
    | Resolve(request: nat, now: int)
    | Reject(request: nat)
    | Plain(path: string)
    | Begin(change: nat, path: string)
    | Submit(change: nat)
    | Send(change: nat)
    | Retry(change: nat)
    | End(change: nat)
    | Settle(change: nat)

  const START: World := World(0, [], map[], map[])

  predicate In(w: World, change: nat, phase: Phase) {
    change in w.changes && w.changes[change].phase == phase
  }

  /** A submission is not retried, and settles without a send if its attachments fail. */
  predicate Possible(w: World, e: Event) {
    match e
    case Read(_, _, request) => request !in w.requests
    case Resend(request) => request in w.requests && w.requests[request].outcome.Open?
    case Resolve(request, _) => request in w.requests && w.requests[request].outcome.Open?
    case Reject(request) => request in w.requests && w.requests[request].outcome.Open?
    case Plain(_) => true
    case Begin(change, _) => change !in w.changes
    case Submit(change) => change !in w.changes
    case Send(change) => In(w, change, Preparing)
    case Retry(change) => In(w, change, Attempting) && !w.changes[change].submission
    case End(change) => In(w, change, Attempting)
    case Settle(change) => In(w, change, Over) || In(w, change, Preparing)
  }

  /** `change` reaches `phase` and clears the table as request and submitRun do at that point. */
  function Clears(w: World, change: nat, submission: bool, phase: Phase, entries: seq<Entry>): World {
    w.(entries := entries, changes := w.changes[change := Change(submission, phase, w.time)])
  }

  function Moved(w: World, change: nat, phase: Phase): World
    requires change in w.changes
  {
    w.(changes := w.changes[change := w.changes[change].(phase := phase)])
  }

  function Next(w: World, e: Event): World
    requires Possible(w, e)
  {
    (match e
     case Read(path, now, request) =>
       w.(entries := AfterRead(w.entries, path, now, request),
          requests := if Served(w.entries, path, now, request) == request
                      then w.requests[request := Request(path, w.time, w.time, Open)] else w.requests)
     case Resend(request) => w.(requests := w.requests[request := w.requests[request].(sent := w.time)])
     case Resolve(request, now) =>
       w.(entries := MarkSettled(w.entries, request, now),
          requests := w.requests[request := w.requests[request].(outcome := Resolved)])
     case Reject(request) =>
       w.(entries := DropRejected(w.entries, w.requests[request].path, request),
          requests := w.requests[request := w.requests[request].(outcome := Rejected)])
     case Plain(path) => w.(entries := Begun(w.entries, path, false, false))
     case Begin(change, path) => Clears(w, change, false, Attempting, Begun(w.entries, path, true, false))
     case Submit(change) => Clears(w, change, true, Preparing, [])
     case Send(change) => Moved(w, change, Attempting)
     case Retry(change) => Clears(w, change, false, Attempting, AttemptEnded(w.entries, true))
     case End(change) =>
       Clears(w, change, w.changes[change].submission, Over, AttemptEnded(w.entries, true))
     case Settle(change) => Moved(w, change, Settled)).(time := w.time + 1)
  }

  ghost predicate EntryFits(w: World, e: Entry) {
    && e.request in w.requests
    && var r := w.requests[e.request];
       && r.path == e.path && !r.outcome.Rejected? && (r.outcome.Resolved? <==> e.settledAt.Some?)
       && forall c | c in w.changes :: w.changes[c].cleared < r.begun
  }

  ghost predicate Inv(w: World) {
    && |w.entries| <= STARTUP_LIMIT
    && DistinctPaths(w.entries)
    && (forall c | c in w.changes :: w.changes[c].cleared < w.time)
    && (forall r | r in w.requests :: w.requests[r].begun <= w.requests[r].sent <= w.time
                                   && w.requests[r].begun < w.time)
    && forall e | e in w.entries :: EntryFits(w, e)
  }

  lemma {:induction false} PruneKeepsDistinct(entries: seq<Entry>, now: int)
    requires DistinctPaths(entries)
    ensures DistinctPaths(Prune(entries, now))
  {
    if entries != [] {
      HeadIsAlone(entries);
      PruneKeepsDistinct(entries[1..], now);
      forall j | 0 <= j < |Prune(entries[1..], now)|
        ensures Prune(entries[1..], now)[j].path != entries[0].path
      {
        assert Prune(entries[1..], now)[j] in Prune(entries[1..], now);
      }
    }
  }

  lemma {:induction false} ForgetKeepsDistinct(entries: seq<Entry>, path: string)
    requires DistinctPaths(entries)
    ensures DistinctPaths(Forget(entries, path))
  {
    if entries != [] {
      HeadIsAlone(entries);
      ForgetKeepsDistinct(entries[1..], path);
      forall j | 0 <= j < |Forget(entries[1..], path)|
        ensures Forget(entries[1..], path)[j].path != entries[0].path
      {
        assert Forget(entries[1..], path)[j] in Forget(entries[1..], path);
      }
    }
  }

  lemma HeadIsAlone(entries: seq<Entry>)
    requires DistinctPaths(entries) && entries != []
    ensures DistinctPaths(entries[1..]) && forall e | e in entries[1..] :: e.path != entries[0].path
  {
    forall e | e in entries[1..] ensures e.path != entries[0].path {
      var i :| 0 <= i < |entries[1..]| && entries[1..][i] == e;
      assert entries[i + 1] == e;
    }
  }

  lemma AdmitKeeps(entries: seq<Entry>, e: Entry)
    requires DistinctPaths(entries) && |entries| <= STARTUP_LIMIT && Find(entries, e.path).None?
    ensures DistinctPaths(Admit(entries, e)) && |Admit(entries, e)| <= STARTUP_LIMIT
    ensures forall x | x in Admit(entries, e) :: x == e || x in entries
  {
    if |entries| >= STARTUP_LIMIT { ForgetKeepsDistinct(entries, entries[0].path); }
    var kept := if |entries| >= STARTUP_LIMIT then Forget(entries, entries[0].path) else entries;
    forall i | 0 <= i < |kept| ensures kept[i].path != e.path { assert kept[i] in kept; }
  }

  lemma ReadKeeps(w: World, path: string, now: int, request: nat)
    requires Inv(w) && request !in w.requests
    ensures Inv(Next(w, Read(path, now, request)))
  {
    var live := Prune(w.entries, now);
    PruneKeepsDistinct(w.entries, now);
    var held := Find(live, path);
    if held.Some? {
      assert EntryFits(w, held.value);
    } else {
      AdmitKeeps(live, Entry(path, request, None));
    }
  }

  lemma RejectKeeps(w: World, request: nat)
    requires Inv(w) && Possible(w, Reject(request))
    ensures Inv(Next(w, Reject(request)))
  {
    var path := w.requests[request].path;
    ForgetKeepsDistinct(w.entries, path);
    var next := Next(w, Reject(request));
    forall e | e in next.entries ensures EntryFits(next, e) {
      assert EntryFits(w, e);
      if e.request == request {
        assert Find(w.entries, path).Some?;
        OnePerPath(w.entries, Find(w.entries, path).value, e);
      }
    }
  }

  lemma OnePerPath(entries: seq<Entry>, a: Entry, b: Entry)
    requires DistinctPaths(entries) && a in entries && b in entries && a.path == b.path
    ensures a == b
  {
  }

  lemma StepKeeps(w: World, e: Event)
    requires Inv(w) && Possible(w, e)
    ensures Inv(Next(w, e))
  {
    match e
    case Read(path, now, request) => ReadKeeps(w, path, now, request);
    case Reject(request) => RejectKeeps(w, request);
    case Plain(path) => PlainKeeps(w, path);
    case Resolve(request, now) => ResolveKeeps(w, request, now);
    case Resend(request) => ResendKeeps(w, request);
    case Send(change) => MoveKeeps(w, e, change);
    case Settle(change) => MoveKeeps(w, e, change);
    case _ =>
  }

  lemma PlainKeeps(w: World, path: string)
    requires Inv(w)
    ensures Inv(Next(w, Plain(path)))
  {
    ForgetKeepsDistinct(w.entries, path);
  }

  lemma ResolveKeeps(w: World, request: nat, now: int)
    requires Inv(w) && Possible(w, Resolve(request, now))
    ensures Inv(Next(w, Resolve(request, now)))
  {
    var next := Next(w, Resolve(request, now));
    forall i | 0 <= i < |next.entries| ensures EntryFits(next, next.entries[i]) {
      assert EntryFits(w, w.entries[i]);
    }
  }

  lemma ResendKeeps(w: World, request: nat)
    requires Inv(w) && Possible(w, Resend(request))
    ensures Inv(Next(w, Resend(request)))
  {
    var next := Next(w, Resend(request));
    forall e | e in next.entries ensures EntryFits(next, e) { assert EntryFits(w, e); }
  }

  lemma MoveKeeps(w: World, e: Event, change: nat)
    requires Inv(w) && Possible(w, e) && (e == Send(change) || e == Settle(change))
    ensures Inv(Next(w, e))
  {
    var next := Next(w, e);
    forall x | x in next.entries ensures EntryFits(next, x) { assert EntryFits(w, x); }
  }

  ghost predicate PossibleRun(w: World, events: seq<Event>)
    decreases |events|
  {
    events == [] || (Possible(w, events[0]) && PossibleRun(Next(w, events[0]), events[1..]))
  }

  function Play(w: World, events: seq<Event>): World
    requires PossibleRun(w, events)
    decreases |events|
  {
    if events == [] then w else Play(Next(w, events[0]), events[1..])
  }

  lemma {:induction false} RunsKeep(w: World, events: seq<Event>)
    requires Inv(w) && PossibleRun(w, events)
    ensures Inv(Play(w, events))
    decreases |events|
  {
    if events != [] {
      StepKeeps(w, events[0]);
      RunsKeep(Next(w, events[0]), events[1..]);
    }
  }

  /** Over every run the table keeps at most sixteen paths, once each, and never a rejected request. */
  lemma TableIsBoundedAndClean(events: seq<Event>)
    requires PossibleRun(START, events)
    ensures var w := Play(START, events);
            && |w.entries| <= STARTUP_LIMIT && DistinctPaths(w.entries)
            && forall e | e in w.entries :: e.request in w.requests && !w.requests[e.request].outcome.Rejected?
  {
    RunsKeep(START, events);
    forall e | e in Play(START, events).entries ensures EntryFits(Play(START, events), e) {}
  }

  /** A read is never answered by a response whose request was begun, or last sent, before the latest clear
      of any mutation or submission; once one has settled, that is the end of its last attempt. And what a
      read shares is younger than the time to live. */
  lemma ReadsSeeEveryClear(events: seq<Event>, path: string, now: int, request: nat)
    requires PossibleRun(START, events) && request !in Play(START, events).requests
    ensures var w := Play(START, events);
            var next := Next(w, Read(path, now, request));
            var served := Served(w.entries, path, now, request);
            && served in next.requests && next.requests[served].path == path
            && !next.requests[served].outcome.Rejected?
            && (forall c | c in w.changes ::
                  w.changes[c].cleared < next.requests[served].begun <= next.requests[served].sent)
            && forall e | e in w.entries && e.request == served && e.settledAt.Some? && e.path == path
                 && served != request :: 0 <= now - e.settledAt.value < STARTUP_TTL_MS
  {
    RunsKeep(START, events);
    var w := Play(START, events);
    var held := Find(Prune(w.entries, now), path);
    if held.Some? {
      assert EntryFits(w, held.value);
      forall e | e in w.entries && e.request == held.value.request && e.path == path
        ensures e == held.value
      {
        OnePerPath(w.entries, e, held.value);
      }
    }
  }

  lemma {:induction false} TimeCounts(w: World, events: seq<Event>)
    requires PossibleRun(w, events)
    ensures Play(w, events).time == w.time + |events|
    decreases |events|
  {
    if events != [] { TimeCounts(Next(w, events[0]), events[1..]); }
  }

  lemma PlaySplit(w: World, events: seq<Event>, k: nat)
    requires PossibleRun(w, events) && k <= |events|
    ensures PossibleRun(w, events[..k]) && PossibleRun(Play(w, events[..k]), events[k..])
    ensures Play(w, events) == Play(Play(w, events[..k]), events[k..])
  {
    assert events == events[..k] + events[k..];
    PlayBoth(w, events[..k], events[k..]);
  }

  lemma {:induction false} PlayBoth(w: World, a: seq<Event>, b: seq<Event>)
    requires PossibleRun(w, a + b)
    ensures PossibleRun(w, a) && PossibleRun(Play(w, a), b) && Play(w, a + b) == Play(Play(w, a), b)
    decreases |a|
  {
    if a == [] {
      assert a + b == b;
    } else {
      assert (a + b)[1..] == a[1..] + b;
      PlayBoth(Next(w, a[0]), a[1..], b);
    }
  }

  predicate OverSince(w: World, change: nat, moment: nat) {
    (In(w, change, Over) || In(w, change, Settled)) && w.changes[change].cleared == moment
  }

  /** A change that is over does nothing but settle. */
  lemma {:induction false} OverStaysOver(w: World, events: seq<Event>, change: nat, moment: nat)
    requires OverSince(w, change, moment) && PossibleRun(w, events)
    ensures OverSince(Play(w, events), change, moment)
    decreases |events|
  {
    if events != [] { OverStaysOver(Next(w, events[0]), events[1..], change, moment); }
  }

  /** If the last attempt of a mutation or submission ends as event `k` of a run, its latest clear is at `k` for
      ever, and every later read is answered by a request begun, and last sent, after `k`. */
  lemma ReadsSeeTheLastAttempt(events: seq<Event>, k: nat, change: nat, path: string, now: int, request: nat)
    requires PossibleRun(START, events) && k < |events| && events[k] == End(change)
    requires request !in Play(START, events).requests
    ensures var w := Play(START, events);
            var next := Next(w, Read(path, now, request));
            var served := Served(w.entries, path, now, request);
            && change in w.changes && w.changes[change].cleared == k
            && served in next.requests && k < next.requests[served].begun <= next.requests[served].sent
  {
    PlaySplit(START, events, k);
    TimeCounts(START, events[..k]);
    var before := Play(START, events[..k]);
    assert events[k..][0] == End(change);
    OverStaysOver(Next(before, End(change)), events[k..][1..], change, k);
    ReadsSeeEveryClear(events, path, now, request);
  }

  // ---------- Reads after a change has settled ----------

  /** After the run `after`, a read is answered by a request begun no earlier than the moment of `w`. */
  ghost predicate AnsweredSince(w: World, after: seq<Event>, path: string, now: int, request: nat) {
    PossibleRun(w, after) && request !in Play(w, after).requests ==>
      var read := Next(Play(w, after), Read(path, now, request));
      var served := Served(Play(w, after).entries, path, now, request);
      served in read.requests && w.time <= read.requests[served].begun
  }

  ghost predicate NothingOlderServed(w: World) {
    forall after, path, now, request :: AnsweredSince(w, after, path, now, request)
  }

  ghost predicate AllSince(w: World, moment: nat) {
    forall e | e in w.entries :: e.request in w.requests && moment <= w.requests[e.request].begun
  }

  lemma StepKeepsSince(w: World, e: Event, moment: nat)
    requires Inv(w) && AllSince(w, moment) && moment <= w.time && Possible(w, e)
    ensures AllSince(Next(w, e), moment)
  {
    match e
    case Read(path, now, request) =>
      var live := Prune(w.entries, now);
      PruneKeepsDistinct(w.entries, now);
      if Find(live, path).None? { AdmitKeeps(live, Entry(path, request, None)); }
    case Resolve(request, now) =>
      var marked := MarkSettled(w.entries, request, now);
      forall i | 0 <= i < |marked| ensures moment <= w.requests[marked[i].request].begun {
        assert w.entries[i] in w.entries && EntryFits(w, w.entries[i]);
      }
    case _ =>
  }

  lemma {:induction false} RunsKeepSince(w: World, events: seq<Event>, moment: nat)
    requires Inv(w) && AllSince(w, moment) && moment <= w.time && PossibleRun(w, events)
    ensures Inv(Play(w, events)) && AllSince(Play(w, events), moment) && moment <= Play(w, events).time
    decreases |events|
  {
    if events != [] {
      StepKeeps(w, events[0]);
      StepKeepsSince(w, events[0], moment);
      RunsKeepSince(Next(w, events[0]), events[1..], moment);
    }
  }

  lemma {:induction false} UnusedNumber(used: set<nat>) returns (n: nat)
    ensures forall x | x in used :: x < n
    decreases |used|
  {
    n := 0;
    if used != {} {
      var x :| x in used;
      assert used == (used - {x}) + {x};
      var m := UnusedNumber(used - {x});
      n := if m > x then m else x + 1;
    }
  }

  /** The startup reads begun between the last clear of `change` and now that the table still holds. */
  function Lingering(w: World, change: nat): (held: set<Entry>)
    requires change in w.changes
    ensures forall e :: e in held <==>
              && e in w.entries && e.request in w.requests
              && w.changes[change].cleared < w.requests[e.request].begun < w.time
  {
    set e | e in w.entries && e.request in w.requests
            && w.changes[change].cleared < w.requests[e.request].begun < w.time
  }

  lemma HeldAreOlder(w: World, e: Entry, now: int, request: nat)
    requires Inv(w) && e in w.entries && !Expired(e, now) && request !in w.requests
    ensures Served(w.entries, e.path, now, request) == e.request && !AnsweredSince(w, [], e.path, now, request)
  {
    assert EntryFits(w, e);
    assert e in Prune(w.entries, now);
    OnePerPath(w.entries, e, Find(Prune(w.entries, now), e.path).value);
    assert PossibleRun(w, []) && Play(w, []) == w;
  }

  /** The stronger promise, that once a mutation or submission has settled no read is ever answered by a
      request begun before, holds if and only if the table keeps no startup read begun between its last
      clear and its settlement. */
  lemma SettlementIsABarrierIffNothingLingers(events: seq<Event>, change: nat)
    requires PossibleRun(START, events) && Possible(Play(START, events), Settle(change))
    ensures var w := Next(Play(START, events), Settle(change));
            NothingOlderServed(w) <==> Lingering(w, change) == {}
  {
    RunsKeep(START, events);
    StepKeeps(Play(START, events), Settle(change));
    BarrierIffNothingLingers(Next(Play(START, events), Settle(change)), change);
  }

  lemma BarrierIffNothingLingers(w: World, change: nat)
    requires Inv(w) && change in w.changes
    ensures NothingOlderServed(w) <==> Lingering(w, change) == {}
  {
    forall e | e in w.entries ensures e in Lingering(w, change) { assert EntryFits(w, e); }
    if w.entries == [] {
      forall after, path, now, request ensures AnsweredSince(w, after, path, now, request) {
        if PossibleRun(w, after) { RunsKeepSince(w, after, w.time); }
      }
    } else {
      var e := w.entries[0];
      var request := UnusedNumber(w.requests.Keys);
      assert e in w.entries;
      HeldAreOlder(w, e, if e.settledAt.Some? then e.settledAt.value else 0, request);
    }
  }

  // ---------- With a clock that does not run backwards ----------

  predicate NoEarlier(e: Event, clock: int) { (e.Read? || e.Resolve?) ==> clock <= e.now }

  predicate NoLater(e: Event, clock: int) { (e.Read? || e.Resolve?) ==> e.now <= clock }

  ghost predicate TimedBarrier(w: World, clock: int) {
    forall after, path, now, request | now >= clock && (forall e | e in after :: NoEarlier(e, clock)) ::
      AnsweredSince(w, after, path, now, request)
  }

  /** The entry can answer no read from `clock` on. */
  predicate Dead(w: World, e: Entry, clock: int) {
    && e.settledAt.Some? && clock - e.settledAt.value >= STARTUP_TTL_MS
    && e.request in w.requests && !w.requests[e.request].outcome.Open?
  }

  ghost predicate OldAreDead(w: World, moment: nat, clock: int) {
    forall e | e in w.entries :: e.request in w.requests && (moment <= w.requests[e.request].begun || Dead(w, e, clock))
  }

  lemma StepKeepsDead(w: World, e: Event, moment: nat, clock: int)
    requires Inv(w) && OldAreDead(w, moment, clock) && moment <= w.time && Possible(w, e) && NoEarlier(e, clock)
    ensures OldAreDead(Next(w, e), moment, clock)
  {
    match e
    case Read(path, now, request) =>
      var live := Prune(w.entries, now);
      PruneKeepsDistinct(w.entries, now);
      if Find(live, path).None? { AdmitKeeps(live, Entry(path, request, None)); }
    case Resolve(request, now) =>
      var next := Next(w, e);
      forall i | 0 <= i < |next.entries|
        ensures moment <= next.requests[next.entries[i].request].begun || Dead(next, next.entries[i], clock)
      {
        assert w.entries[i] in w.entries && EntryFits(w, w.entries[i]);
      }
    case _ =>
  }

  lemma {:induction false} RunsKeepDead(w: World, events: seq<Event>, moment: nat, clock: int)
    requires Inv(w) && OldAreDead(w, moment, clock) && moment <= w.time && PossibleRun(w, events)
    requires forall e | e in events :: NoEarlier(e, clock)
    ensures Inv(Play(w, events)) && OldAreDead(Play(w, events), moment, clock) && moment <= Play(w, events).time
    decreases |events|
  {
    if events != [] {
      assert events[0] in events && forall e | e in events[1..] :: e in events;
      StepKeeps(w, events[0]);
      StepKeepsDead(w, events[0], moment, clock);
      RunsKeepDead(Next(w, events[0]), events[1..], moment, clock);
    }
  }

  ghost predicate SettledBy(w: World, clock: int) {
    forall e | e in w.entries && e.settledAt.Some? :: e.settledAt.value <= clock
  }

  lemma {:induction false} StampsAreNoLater(w: World, events: seq<Event>, clock: int)
    requires SettledBy(w, clock) && PossibleRun(w, events) && forall e | e in events :: NoLater(e, clock)
    ensures SettledBy(Play(w, events), clock)
    decreases |events|
  {
    if events != [] {
      assert events[0] in events && forall e | e in events[1..] :: e in events;
      StampStep(w, events[0], clock);
      StampsAreNoLater(Next(w, events[0]), events[1..], clock);
    }
  }

  lemma StampStep(w: World, e: Event, clock: int)
    requires SettledBy(w, clock) && Possible(w, e) && NoLater(e, clock)
    ensures SettledBy(Next(w, e), clock)
  {
    match e
    case Resolve(request, now) =>
      var marked := MarkSettled(w.entries, request, now);
      forall i | 0 <= i < |marked| && marked[i].settledAt.Some? ensures marked[i].settledAt.value <= clock {
        assert w.entries[i] in w.entries;
      }
    case _ =>
  }

  /** With a clock that does not run backwards: from the settlement at `clock` on no read is answered by a
      request begun before, if and only if every startup read begun between the last clear and the settlement
      that the table still holds has expired by then. */
  lemma SettlementIsABarrierIffLingeringExpired(events: seq<Event>, change: nat, clock: int)
    requires PossibleRun(START, events) && Possible(Play(START, events), Settle(change))
    requires forall e | e in events :: NoLater(e, clock)
    ensures var w := Next(Play(START, events), Settle(change));
            TimedBarrier(w, clock) <==> forall e | e in Lingering(w, change) :: Expired(e, clock)
  {
    var before := Play(START, events);
    RunsKeep(START, events);
    StampsAreNoLater(START, events, clock);
    StepKeeps(before, Settle(change));
    var w := Next(before, Settle(change));
    forall e | e in w.entries ensures e in Lingering(w, change) { assert EntryFits(w, e); }
    if forall e | e in Lingering(w, change) :: Expired(e, clock) {
      ExpiredIsBarrier(w, clock);
    }
    forall e | e in Lingering(w, change) && !Expired(e, clock) ensures !TimedBarrier(w, clock) {
      var request := UnusedNumber(w.requests.Keys);
      HeldAreOlder(w, e, clock, request);
    }
  }

  lemma ExpiredIsBarrier(w: World, clock: int)
    requires Inv(w) && SettledBy(w, clock) && forall e | e in w.entries :: Expired(e, clock)
    ensures TimedBarrier(w, clock)
  {
    forall e | e in w.entries ensures e.request in w.requests && Dead(w, e, clock) { assert EntryFits(w, e); }
    forall after, path, now, request | now >= clock && (forall e | e in after :: NoEarlier(e, clock))
      ensures AnsweredSince(w, after, path, now, request)
    {
      if PossibleRun(w, after) { RunsKeepDead(w, after, w.time, clock); }
    }
  }

  /** For a read right after the settlement: it shares an older request if and only if such a startup read of
      its path has not expired. */
  lemma NextReadIsOvertakenIff(events: seq<Event>, change: nat, path: string, now: int, request: nat)
    requires PossibleRun(START, events) && Possible(Play(START, events), Settle(change))
    requires request !in Play(START, events).requests
    ensures var w := Next(Play(START, events), Settle(change));
            AnsweredSince(w, [], path, now, request)
            <==> forall e | e in Lingering(w, change) && e.path == path :: Expired(e, now)
  {
    RunsKeep(START, events);
    StepKeeps(Play(START, events), Settle(change));
    var w := Next(Play(START, events), Settle(change));
    assert PossibleRun(w, []) && Play(w, []) == w;
    var held := Find(Prune(w.entries, now), path);
    if held.Some? {
      assert EntryFits(w, held.value);
      assert held.value in Lingering(w, change);
      HeldAreOlder(w, held.value, now, request);
    }
  }

  /** If no startup read is begun after the last clear, nothing lingers. */
  lemma {:induction false} QuietGapLeavesTableEmpty(w: World, between: seq<Event>)
    requires w.entries == [] && PossibleRun(w, between)
    requires forall e | e in between :: !e.Read?
    ensures Play(w, between).entries == []
    decreases |between|
  {
    if between != [] {
      assert between[0] in between && forall e | e in between[1..] :: e in between;
      QuietGapLeavesTableEmpty(Next(w, between[0]), between[1..]);
    }
  }

  /** A mutation of this code can be overtaken: it begins, its attempt ends, a startup read begins while the
      body is parsed, the mutation settles; and the next read of that path shares the earlier request. */
  lemma SettlementCanBeOvertaken(path: string, mutated: string)
    ensures var before := [Begin(0, mutated), End(0), Read(path, 0, 0)];
            && PossibleRun(START, before) && Possible(Play(START, before), Settle(0))
            && var w := Next(Play(START, before), Settle(0));
               In(w, 0, Settled) && !AnsweredSince(w, [], path, 0, 1)
  {
    var before := [Begin(0, mutated), End(0), Read(path, 0, 0)];
    var over := Next(Next(START, Begin(0, mutated)), End(0));
    var read := Next(over, Read(path, 0, 0));
    assert read.entries == [Entry(path, 0, None)] by { assert over.entries == [] && Prune([], 0) == []; }
    PlayThree(START, before[0], before[1], before[2]);
    RunsKeep(START, before);
    StepKeeps(read, Settle(0));
    HeldAreOlder(Next(read, Settle(0)), Entry(path, 0, None), 0, 1);
  }

  lemma PlayThree(w: World, a: Event, b: Event, c: Event)
    requires Possible(w, a) && Possible(Next(w, a), b) && Possible(Next(Next(w, a), b), c)
    ensures PossibleRun(w, [a, b, c]) && Play(w, [a, b, c]) == Next(Next(Next(w, a), b), c)
  {
    PlayOne(Next(Next(w, a), b), c);
    assert [b, c][1..] == [c];
    assert PossibleRun(Next(w, a), [b, c]) && Play(Next(w, a), [b, c]) == Next(Next(Next(w, a), b), c);
    assert [a, b, c][1..] == [b, c];
  }

  lemma PlayOne(w: World, e: Event)
    requires Possible(w, e)
    ensures PossibleRun(w, [e]) && Play(w, [e]) == Next(w, e)
  {
    assert [e][1..] == [] && PossibleRun(Next(w, e), []) && Play(Next(w, e), []) == Next(w, e);
  }
}
