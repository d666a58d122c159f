/** One cache, its callers and the server, under every interleaving of reads, responses, failures,
    patches and invalidations. */
module CacheProtocol {
  import opened Options
  import opened ValueCaches

  /** A request promise. `since` is the server version when its fetch was issued; `floor` is the server
      version at the latest invalidation when its own response arrived. */
  datatype Promise =
    | Waiting(revision: nat, since: nat)
    | Following(target: nat, floor: nat)
    | Delivered(value: Value, floor: nat)
    | Failed

  /** A value and the moment at which a commit or a patch stored it. */
  datatype Storing = Storing(value: Value, moment: int)

  /** `committed` is the version that the latest committing fetch stored, `mark` the server version at
      that moment, `floor` the server version at the latest invalidation. `stored` is the latest commit or patch
      since the latest invalidation, `answers` what every read was answered, in order. */
  datatype World = World(
    cache: Record, server: nat, promises: map<nat, Promise>,
    floor: nat, committed: nat, mark: nat,
    refetches: nat, invalidations: nat, failures: nat,
    stored: Option<Storing>, answers: seq<ReadOutcome>)

  datatype Event =
    | ServerChanges
    | Read(now: int, force: bool)
    | RespondOk(request: nat, value: Value, now: int)
    | RespondFail(request: nat)
    | Patch(body: string, now: int)
    | Invalidate

  const START: World := World(EMPTY, 0, map[], 0, 0, 0, 0, 0, 0, None, [])

  predicate IsWaiting(w: World, request: nat) {
    request in w.promises && w.promises[request].Waiting?
  }

  /** A response carries some version between the issue of its fetch and now. After a mutation the caller
      patches the data it finds, if there is any; a patched row does not make the other rows newer. */
  predicate Possible(w: World, e: Event) {
    match e
    case RespondOk(request, value, _) =>
      IsWaiting(w, request) && w.promises[request].since <= value.version <= w.server
    case RespondFail(request) => IsWaiting(w, request)
    case Patch(_, _) => w.cache.data.Some?
    case _ => true
  }

  function Settled(w: World, request: nat, value: Value, now: int): World
    requires IsWaiting(w, request)
  {
    var under := w.promises[request].revision;
    var next := w.(cache := AfterSettle(w.cache, request, under, value, now));
    match SettleOf(w.cache, request, under)
    case Commit =>
      next.(promises := w.promises[request := Delivered(value, w.floor)], committed := value.version, mark := w.server,
            stored := Some(Storing(value, now)))
    case Follow(target) => next.(promises := w.promises[request := Following(target, w.floor)])
    case Copy(held) => next.(promises := w.promises[request := Delivered(held, w.floor)])
    case Refetch(target, revision) =>
      next.(promises := w.promises[request := Following(target, w.floor)][target := Waiting(revision, w.server)],
            refetches := w.refetches + 1)
  }

  function Next(w: World, e: Event): World
    requires Possible(w, e)
  {
    match e
    case ServerChanges => w.(server := w.server + 1)
    case Read(now, force) =>
      var answered := w.(answers := w.answers + [ReadOf(w.cache, now, force)]);
      (match ReadOf(w.cache, now, force)
       case Issue(request, revision) =>
         answered.(
           cache := AfterRead(w.cache, now, force), promises := w.promises[request := Waiting(revision, w.server)])
       case _ => answered)
    case RespondOk(request, value, now) => Settled(w, request, value, now)
    case RespondFail(request) =>
      w.(cache := AfterFailure(w.cache, request), promises := w.promises[request := Failed],
         failures := w.failures + if w.cache.inflight == Some(request) then 1 else 0)
    case Patch(body, now) =>
      var value := Value(w.cache.data.value.version, body);
      w.(cache := Written(w.cache, value, now), stored := Some(Storing(value, now)))
    case Invalidate =>
      w.(cache := Invalidated(w.cache), floor := w.server, invalidations := w.invalidations + 1, stored := None)
  }

  // ---------- Invariants ----------

  ghost predicate NewestInFlight(w: World) {
    w.cache.inflight.Some? ==>
      && w.cache.inflight.value == w.cache.requestId
      && IsWaiting(w, w.cache.requestId)
      && w.promises[w.cache.requestId].revision == w.cache.revision
  }

  ghost predicate ChainsAscend(w: World) {
    && (forall r | r in w.promises :: r <= w.cache.requestId)
    && (forall r | r in w.promises && w.promises[r].Following? ::
          r < w.promises[r].target && w.promises[r].target in w.promises)
  }

  ghost predicate Versions(w: World) {
    && w.floor <= w.server && w.committed <= w.mark <= w.server
    && (w.cache.data.Some? ==> w.floor <= w.cache.data.value.version <= w.server)
    && (IsWaiting(w, w.cache.requestId) && w.promises[w.cache.requestId].revision == w.cache.revision ==>
          w.floor <= w.promises[w.cache.requestId].since && w.mark <= w.promises[w.cache.requestId].since)
  }

  /** What every promise owes: delivered values are fresh for their moment, and a promise that follows
      another was answered no later than it. */
  ghost predicate Promised(w: World) {
    && (forall r | r in w.promises && w.promises[r].Delivered? ::
          w.promises[r].floor <= w.promises[r].value.version && w.promises[r].floor <= w.floor)
    && (forall r | r in w.promises && w.promises[r].Following? ::
          && w.promises[r].floor <= w.floor
          && var t := w.promises[r].target;
             t in w.promises && (w.promises[t].Following? || w.promises[t].Delivered? ==>
               w.promises[r].floor <= w.promises[t].floor))
  }

  /** Some request has been issued and the cache holds neither data nor a request in flight. */
  predicate Open(w: World) {
    w.cache.data.None? && w.cache.inflight.None? && w.promises != map[]
  }

  ghost predicate RefetchesPaid(w: World) {
    w.refetches + (if Open(w) then 1 else 0) <= w.invalidations + w.failures
  }

  ghost predicate Inv(w: World) {
    NewestInFlight(w) && ChainsAscend(w) && Versions(w) && Promised(w) && RefetchesPaid(w)
  }

  lemma CommitKeeps(w: World, request: nat, value: Value, now: int)
    requires Inv(w) && Possible(w, RespondOk(request, value, now))
    requires SettleOf(w.cache, request, w.promises[request].revision).Commit?
    ensures Inv(Settled(w, request, value, now))
  {
  }

  lemma ReplaceKeeps(w: World, request: nat, value: Value, now: int)
    requires Inv(w) && Possible(w, RespondOk(request, value, now))
    requires var out := SettleOf(w.cache, request, w.promises[request].revision); out.Follow? || out.Copy?
    ensures Inv(Settled(w, request, value, now))
  {
  }

  lemma RefetchKeeps(w: World, request: nat, value: Value, now: int)
    requires Inv(w) && Possible(w, RespondOk(request, value, now))
    requires SettleOf(w.cache, request, w.promises[request].revision).Refetch?
    ensures Inv(Settled(w, request, value, now))
  {
  }

  lemma ReadKeeps(w: World, now: int, force: bool)
    requires Inv(w)
    ensures Inv(Next(w, Read(now, force)))
  {
  }

  lemma FailKeeps(w: World, request: nat)
    requires Inv(w) && IsWaiting(w, request)
    ensures Inv(Next(w, RespondFail(request)))
  {
  }

  lemma StepKeeps(w: World, e: Event)
    requires Inv(w) && Possible(w, e)
    ensures Inv(Next(w, e))
  {
    match e
    case RespondOk(request, value, now) =>
      match SettleOf(w.cache, request, w.promises[request].revision) {
        case Commit => CommitKeeps(w, request, value, now);
        case Refetch(_, _) => RefetchKeeps(w, request, value, now);
        case _ => ReplaceKeeps(w, request, value, now);
      }
    case Read(now, force) => ReadKeeps(w, now, force);
    case RespondFail(request) => FailKeeps(w, request);
    case _ =>
  }

  /** Counters and versions only grow; in particular fetches never commit an older version. */
  lemma StepGrows(w: World, e: Event)
    requires Inv(w) && Possible(w, e)
    ensures w.cache.requestId <= Next(w, e).cache.requestId
    ensures w.committed <= Next(w, e).committed && w.floor <= Next(w, e).floor
  {
  }

  // ---------- Whole runs ----------

  ghost predicate PossibleRun(w: World, events: seq<Event>)
    decreases |events|
  {
    events == [] || (Possible(w, events[0]) && PossibleRun(Next(w, events[0]), events[1..]))
  }

  function Play(w: World, events: seq<Event>): World
    requires PossibleRun(w, events)
    decreases |events|
  {
    if events == [] then w else Play(Next(w, events[0]), events[1..])
  }

  lemma {:induction false} RunsKeep(w: World, events: seq<Event>)
    requires Inv(w) && PossibleRun(w, events)
    ensures Inv(Play(w, events))
    ensures w.cache.requestId <= Play(w, events).cache.requestId
    ensures w.committed <= Play(w, events).committed && w.floor <= Play(w, events).floor
    decreases |events|
  {
    if events != [] {
      StepKeeps(w, events[0]);
      StepGrows(w, events[0]);
      RunsKeep(Next(w, events[0]), events[1..]);
    }
  }

  /** In every reachable state, what the cache holds, what a read serves from it, and what any request
      has delivered is at least as new as the server was at the latest invalidation before it was
      delivered; a read that joins a request joins one that can still deliver. */
  lemma EveryValueIsFresh(events: seq<Event>, now: int, force: bool)
    requires PossibleRun(START, events)
    ensures var w := Play(START, events);
            && (w.cache.data.Some? ==> w.floor <= w.cache.data.value.version <= w.server)
            && (match ReadOf(w.cache, now, force)
                case Hit(value) => w.floor <= value.version
                case Join(request) => request == w.cache.requestId && IsWaiting(w, request)
                case Issue(request, _) => request !in w.promises)
            && (forall r | r in w.promises && w.promises[r].Delivered? ::
                  w.promises[r].floor <= w.promises[r].value.version)
  {
    RunsKeep(START, events);
  }

  /** Fetches never commit backwards: a later commit stores a version no older than an earlier one. */
  lemma CommitsNeverGoBack(w: World, between: seq<Event>, request: nat, value: Value, now: int)
    requires Inv(w) && PossibleRun(w, between)
    requires Possible(Play(w, between), RespondOk(request, value, now))
    requires var p := Play(w, between);
             SettleOf(p.cache, request, p.promises[request].revision).Commit?
    ensures w.committed <= value.version
    ensures Play(w, between).floor <= value.version
  {
    RunsKeep(w, between);
  }

  /** A fetch that was in flight when the cache was patched, invalidated or re-requested never commits. */
  lemma SupersededNeverCommits(w: World, event: Event, after: seq<Event>, request: nat)
    requires Inv(w) && IsWaiting(w, request) && Possible(w, event)
    requires event.Patch? || event.Invalidate? || (event.Read? && ReadOf(w.cache, event.now, event.force).Issue?)
    requires PossibleRun(Next(w, event), after)
    ensures var end := Play(Next(w, event), after);
            IsWaiting(end, request) ==> !SettleOf(end.cache, request, end.promises[request].revision).Commit?
  {
    Supersedes(w, event, request);
    StaleStaysStale(Next(w, event), after, request);
  }

  lemma StaleStaysStale(w: World, after: seq<Event>, request: nat)
    requires Inv(w) && request < w.cache.requestId && PossibleRun(w, after)
    ensures forall revision: nat :: !SettleOf(Play(w, after).cache, request, revision).Commit?
  {
    RunsKeep(w, after);
  }

  lemma Supersedes(w: World, event: Event, request: nat)
    requires Inv(w) && IsWaiting(w, request) && Possible(w, event)
    requires event.Patch? || event.Invalidate? || (event.Read? && ReadOf(w.cache, event.now, event.force).Issue?)
    ensures Inv(Next(w, event)) && request < Next(w, event).cache.requestId
  {
    StepKeeps(w, event);
  }

  // ---------- Callers of superseded requests ----------

  /** The request that answers for `r`: delegation only goes to larger numbers, so it ends. */
  function Leader(w: World, r: nat): (l: nat)
    requires ChainsAscend(w) && r in w.promises
    ensures r <= l && l in w.promises && !w.promises[l].Following?
    decreases w.cache.requestId - r
  {
    if w.promises[r].Following? then Leader(w, w.promises[r].target) else r
  }

  lemma {:induction false} LeaderIsFresher(w: World, r: nat)
    requires Inv(w) && r in w.promises && w.promises[r].Following?
    ensures var l := Leader(w, r);
            w.promises[l].Delivered? ==>
              w.promises[r].floor <= w.promises[l].floor <= w.promises[l].value.version
    decreases w.cache.requestId - r
  {
    var t := w.promises[r].target;
    if w.promises[t].Following? { LeaderIsFresher(w, t); }
  }

  /** Once no fetch is outstanding every caller has its answer, and a caller whose request was
      superseded gets a value no older than the invalidations its own response came after. */
  lemma EveryCallerIsServed(events: seq<Event>, r: nat)
    requires PossibleRun(START, events) && r in Play(START, events).promises
    requires forall q :: !IsWaiting(Play(START, events), q)
    ensures ChainsAscend(Play(START, events))
    ensures var w := Play(START, events);
            var answer := w.promises[Leader(w, r)];
            && (answer.Delivered? || answer.Failed?)
            && (answer.Delivered? && w.promises[r].Following? ==> w.promises[r].floor <= answer.value.version)
  {
    RunsKeep(START, events);
    var w := Play(START, events);
    assert !IsWaiting(w, Leader(w, r));
    if w.promises[r].Following? { LeaderIsFresher(w, r); }
  }

  /** When a leader fails, the catch callbacks of its followers leave the cache alone: the request in
      flight is never a follower. */
  lemma FollowersFailSilently(events: seq<Event>, r: nat)
    requires PossibleRun(START, events) && r in Play(START, events).promises
    requires !IsWaiting(Play(START, events), r)
    ensures AfterFailure(Play(START, events).cache, r) == Play(START, events).cache
  {
    RunsKeep(START, events);
  }

  /** A settled promise never changes, and a delivered value is the cache content of that moment. */
  lemma SettlesOnce(w: World, e: Event, r: nat)
    requires Inv(w) && Possible(w, e) && r in Next(w, e).promises
    ensures r in w.promises && !w.promises[r].Waiting? ==> Next(w, e).promises[r] == w.promises[r]
    ensures Next(w, e).promises[r].Delivered? ==>
              (r in w.promises && Next(w, e).promises[r] == w.promises[r])
              || Next(w, e).cache.data == Some(Next(w, e).promises[r].value)
  {
  }

  /** Every value ever delivered was the cache content right after some step of the run. */
  lemma {:induction false} DeliveredWasCached(w: World, events: seq<Event>, r: nat) returns (k: nat)
    requires Inv(w) && PossibleRun(w, events)
    requires r in Play(w, events).promises && Play(w, events).promises[r].Delivered?
    requires r in w.promises ==> w.promises[r].Waiting?
    ensures k <= |events| && PossibleRun(w, events[..k])
    ensures Play(w, events[..k]).cache.data == Some(Play(w, events).promises[r].value)
    decreases |events|
  {
    var first, rest := events[0], events[1..];
    var next := Next(w, first);
    StepKeeps(w, first);
    if r in next.promises && !next.promises[r].Waiting? {
      SettledStays(next, rest, r);
      SettlesOnce(w, first, r);
      k := 1;
      assert events[..1] == [first] && [first][1..] == [];
    } else {
      var j := DeliveredWasCached(next, rest, r);
      k := j + 1;
      assert events[..k][1..] == rest[..j];
    }
  }

  lemma {:induction false} SettledStays(w: World, events: seq<Event>, r: nat)
    requires Inv(w) && PossibleRun(w, events) && r in w.promises && !w.promises[r].Waiting?
    ensures r in Play(w, events).promises && Play(w, events).promises[r] == w.promises[r]
    decreases |events|
  {
    if events != [] {
      StepKeeps(w, events[0]);
      SettlesOnce(w, events[0], r);
      SettledStays(Next(w, events[0]), events[1..], r);
    }
  }

  // ---------- Refetches ----------

  /** The recursive refetches of superseded requests never exceed the invalidations plus the failures of
      the request in flight: each of them closes a state that only those events open. */
  lemma RefetchesAreBounded(events: seq<Event>)
    requires PossibleRun(START, events)
    ensures var w := Play(START, events); w.refetches <= w.invalidations + w.failures
  {
    RunsKeep(START, events);
  }

  /** The bound is tight for every n: n invalidations, each answered too late, cost n refetches. */
  lemma {:induction false} RefetchBoundIsTight(n: nat) returns (events: seq<Event>)
    ensures PossibleRun(START, events)
    ensures Paying(Play(START, events), n)
  {
    if n == 0 {
      events := [Read(0, false)];
      assert events[1..] == [];
    } else {
      var before := RefetchBoundIsTight(n - 1);
      var w := Play(START, before);
      var late := [Invalidate, RespondOk(w.cache.requestId, Value(0, ""), 0)];
      events := before + late;
      LateAnswerRefetches(w, n - 1, late);
      PlayConcat(START, before, late);
    }
  }

  /** After n refetches for n invalidations, with one more fetch in flight and nothing cached. */
  predicate Paying(w: World, n: nat) {
    && w.refetches == n && w.invalidations + w.failures == n
    && IsWaiting(w, w.cache.requestId) && w.cache.inflight == Some(w.cache.requestId)
    && w.cache.data.None? && w.promises[w.cache.requestId].since == 0 && w.server == 0
  }

  lemma LateAnswerRefetches(w: World, n: nat, late: seq<Event>)
    requires Paying(w, n)
    requires late == [Invalidate, RespondOk(w.cache.requestId, Value(0, ""), 0)]
    ensures PossibleRun(w, late) && Paying(Play(w, late), n + 1)
  {
    var mid := Next(w, Invalidate);
    assert late[1..] == [late[1]] && late[1..][1..] == [];
    assert Possible(mid, late[1]);
    assert Paying(Next(mid, late[1]), n + 1);
    assert Play(mid, late[1..]) == Next(mid, late[1]);
  }

  lemma {:induction false} PlayConcat(w: World, a: seq<Event>, b: seq<Event>)
    requires PossibleRun(w, a) && PossibleRun(Play(w, a), b)
    ensures PossibleRun(w, a + b) && Play(w, a + b) == Play(Play(w, a), b)
    decreases |a|
  {
    if a == [] {
      assert a + b == b;
    } else {
      assert (a + b)[1..] == a[1..] + b;
      PlayConcat(Next(w, a[0]), a[1..], b);
    }
  }
}
