/** A mutation of a cached list: when later readers of the cache see it (api/client.ts). After the request
    the client patches the list that it holds; without one it does nothing. */
module CacheMutations {
  import opened Options
  import opened ValueCaches
  import opened CacheProtocol

  /** The server changes, and the held list, if there is one, is patched. */
  function Mutated(w: World, body: string, now: int): World {
    var changed := Next(w, ServerChanges);
    if changed.cache.data.Some? then Next(changed, Patch(body, now)) else changed
  }

  /** The list that the cache holds has the mutation: it was patched with it, or fetched from a server version
      that has it. Later patches keep it. `mark` is the server version right after the mutation. */
  predicate ShowsAfter(w: World, e: Event, mark: nat, shows: bool)
    requires Possible(w, e)
  {
    match e
    case RespondOk(request, value, _) =>
      if SettleOf(w.cache, request, w.promises[request].revision).Commit? then mark <= value.version else shows
    case _ => shows
  }

  predicate Shows(w: World, events: seq<Event>, mark: nat, shows: bool)
    requires PossibleRun(w, events)
    decreases |events|
  {
    if events == [] then shows else Shows(Next(w, events[0]), events[1..], mark, ShowsAfter(w, events[0], mark, shows))
  }

  /** From the mutation on, under every run, whatever list the cache holds has the mutation. A list held at
      that moment has it by its patch. */
  ghost predicate Visible(w: World, body: string, now: int) {
    var after := Mutated(w, body, now);
    forall events | PossibleRun(after, events) && Play(after, events).cache.data.Some? ::
      Shows(after, events, after.server, after.cache.data.Some?)
  }

  /** Fetches were issued in the past, and one that may still commit is the one in flight. */
  ghost predicate CommittersFly(w: World) {
    && (forall r | IsWaiting(w, r) :: w.promises[r].since <= w.server)
    && (IsWaiting(w, w.cache.requestId) && w.promises[w.cache.requestId].revision == w.cache.revision ==>
          w.cache.inflight == Some(w.cache.requestId))
  }

  lemma StepCommittersFly(w: World, e: Event)
    requires Inv(w) && CommittersFly(w) && Possible(w, e)
    ensures CommittersFly(Next(w, e))
  {
  }

  lemma {:induction false} RunCommittersFly(w: World, events: seq<Event>)
    requires Inv(w) && CommittersFly(w) && PossibleRun(w, events)
    ensures CommittersFly(Play(w, events))
    decreases |events|
  {
    if events != [] {
      StepKeeps(w, events[0]);
      StepCommittersFly(w, events[0]);
      RunCommittersFly(Next(w, events[0]), events[1..]);
    }
  }

  /** What is held has the mutation, and what may still commit was fetched after it. */
  ghost predicate Safe(w: World, mark: nat, shows: bool) {
    && mark <= w.server
    && (w.cache.data.Some? ==> shows)
    && (IsWaiting(w, w.cache.requestId) && w.promises[w.cache.requestId].revision == w.cache.revision ==>
          mark <= w.promises[w.cache.requestId].since)
  }

  lemma StepKeepsSafe(w: World, e: Event, mark: nat, shows: bool)
    requires Inv(w) && Safe(w, mark, shows) && Possible(w, e)
    ensures Safe(Next(w, e), mark, ShowsAfter(w, e, mark, shows))
  {
  }

  lemma {:induction false} RunsKeepSafe(w: World, events: seq<Event>, mark: nat, shows: bool)
    requires Inv(w) && Safe(w, mark, shows) && PossibleRun(w, events)
    ensures Safe(Play(w, events), mark, Shows(w, events, mark, shows))
    decreases |events|
  {
    if events != [] {
      StepKeeps(w, events[0]);
      StepKeepsSafe(w, events[0], mark, shows);
      RunsKeepSafe(Next(w, events[0]), events[1..], mark, ShowsAfter(w, events[0], mark, shows));
    }
  }

  lemma MutatedKeeps(w: World, body: string, now: int)
    requires Inv(w)
    ensures Inv(Mutated(w, body, now))
  {
    StepKeeps(w, ServerChanges);
    if w.cache.data.Some? { StepKeeps(Next(w, ServerChanges), Patch(body, now)); }
  }

  /** In every reachable state: a mutation is visible from then on if and only if the list was held or no fetch
      was in flight. A fetch in flight may commit a list from before the mutation. */
  lemma MutationIsVisibleIff(before: seq<Event>, body: string, now: int)
    requires PossibleRun(START, before)
    ensures var w := Play(START, before);
            Visible(w, body, now) <==> w.cache.data.Some? || w.cache.inflight.None?
  {
    var w := Play(START, before);
    RunsKeep(START, before);
    RunCommittersFly(START, before);
    if w.cache.data.Some? || w.cache.inflight.None? {
      HeldOrIdleIsVisible(w, body, now);
    } else {
      LateListCommits(w, body, now);
    }
  }

  lemma HeldOrIdleIsVisible(w: World, body: string, now: int)
    requires Inv(w) && CommittersFly(w) && (w.cache.data.Some? || w.cache.inflight.None?)
    ensures Visible(w, body, now)
  {
    var after := Mutated(w, body, now);
    MutatedKeeps(w, body, now);
    assert Safe(after, after.server, after.cache.data.Some?);
    forall events | PossibleRun(after, events) && Play(after, events).cache.data.Some?
      ensures Shows(after, events, after.server, after.cache.data.Some?)
    {
      RunsKeepSafe(after, events, after.server, after.cache.data.Some?);
    }
  }

  /** The fetch in flight answers with a list from before the mutation, and commits it. */
  lemma LateListCommits(w: World, body: string, now: int)
    requires Inv(w) && CommittersFly(w) && w.cache.data.None? && w.cache.inflight.Some?
    ensures var after := Mutated(w, body, now);
            var late := [RespondOk(w.cache.requestId, Value(w.promises[w.cache.requestId].since, ""), now)];
            && PossibleRun(after, late) && Play(after, late).cache.data.Some?
            && !Shows(after, late, after.server, after.cache.data.Some?)
    ensures !Visible(w, body, now)
  {
    var after := Mutated(w, body, now);
    var answer := RespondOk(w.cache.requestId, Value(w.promises[w.cache.requestId].since, ""), now);
    MutatedKeeps(w, body, now);
    assert IsWaiting(w, w.cache.requestId);
    assert [answer][1..] == [];
    assert PossibleRun(Next(after, answer), []);
    assert Play(after, [answer]) == Play(Next(after, answer), []) == Next(after, answer);
    assert Shows(after, [answer], after.server, false) == Shows(Next(after, answer), [], after.server, false);
  }

  /** Such a run: a read issues a fetch, the mutation finds no list, the fetch answers with the old list, and
      the next read within the time to live is served from it. */
  lemma MutationCanStayHidden(stale: string, body: string, now: int)
    ensures var w := Play(START, [Read(0, false)]);
            var late := [RespondOk(1, Value(0, stale), 0)];
            && PossibleRun(START, [Read(0, false)]) && PossibleRun(Mutated(w, body, 0), late)
            && var end := Play(Mutated(w, body, 0), late);
               && end.server == 1 && end.cache.data == Some(Value(0, stale))
               && (now < LIST_TTL_MS ==> ReadOf(end.cache, now, false) == Hit(Value(0, stale)))
  {
    var asked := Next(START, Read(0, false));
    assert [Read(0, false)][1..] == [] && PossibleRun(asked, []) && Play(asked, []) == asked;
    assert Play(START, [Read(0, false)]) == asked;
    var after := Mutated(asked, body, 0);
    var answer := RespondOk(1, Value(0, stale), 0);
    assert [answer][1..] == [] && PossibleRun(Next(after, answer), []);
    assert Play(after, [answer]) == Play(Next(after, answer), []) == Next(after, answer);
  }
}
