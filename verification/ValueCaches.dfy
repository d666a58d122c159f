/** The in-memory value and list caches of the API client (api/client.ts). */
module ValueCaches {
  import opened Options

  const LIST_TTL_MS: int := 30_000

  /** A cached value; `version` is the server version it was read from. */
  datatype Value = Value(version: nat, body: string)

  /** The cache record. A request promise is named by the request number it was issued under. */
  datatype Record = Record(
    data: Option<Value>, fetchedAt: int, inflight: Option<nat>, requestId: nat, revision: nat)

  /** What cachedRead hands its caller: a value, an existing promise, or the promise of a new fetch. */
  datatype ReadOutcome = Hit(value: Value) | Join(request: nat) | Issue(request: nat, revision: nat)

  /** What the fetch callback does with a successful response. */
  datatype Settlement =
    | Commit
    | Follow(target: nat)
    | Copy(value: Value)
    | Refetch(target: nat, revision: nat)

  const EMPTY: Record := Record(None, 0, None, 0, 0)

  function Written(c: Record, value: Value, now: int): Record {
    Record(Some(value), now, None, c.requestId + 1, c.revision + 1)
  }

  function Invalidated(c: Record): Record { Record(None, 0, None, c.requestId + 1, c.revision + 1) }

  function Issued(c: Record): Record {
    c.(requestId := c.requestId + 1, inflight := Some(c.requestId + 1))
  }

  function ReadOf(c: Record, now: int, force: bool): ReadOutcome {
    if !force && c.data.Some? && now - c.fetchedAt < LIST_TTL_MS then Hit(c.data.value)
    else if !force && c.inflight.Some? then Join(c.inflight.value)
    else Issue(c.requestId + 1, c.revision)
  }

  function AfterRead(c: Record, now: int, force: bool): Record {
    if ReadOf(c, now, force).Issue? then Issued(c) else c
  }

  function SettleOf(c: Record, request: nat, revision: nat): Settlement {
    if c.requestId == request && c.revision == revision then Commit
    else if c.inflight.Some? && c.inflight.value != request then Follow(c.inflight.value)
    else if c.data.Some? then Copy(c.data.value)
    else Refetch(c.requestId + 1, c.revision)
  }

  function AfterSettle(c: Record, request: nat, revision: nat, value: Value, now: int): Record {
    match SettleOf(c, request, revision)
    case Commit => Written(c, value, now)
    case Refetch(_, _) => Issued(c)
    case _ => c
  }

  function AfterFailure(c: Record, request: nat): Record {
    if c.inflight == Some(request) then c.(inflight := None) else c
  }

  /** The mutable record and the functions that share it. */
  class ValueCache {
    var data: Option<Value>
    var fetchedAt: int
    var inflight: Option<nat>
    var requestId: nat
    var revision: nat

    function State(): Record
      reads this
    {
      Record(data, fetchedAt, inflight, requestId, revision)
    }

    constructor ()
      ensures State() == EMPTY
    {
      data, fetchedAt, inflight, requestId, revision := None, 0, None, 0, 0;
    }

    /** writeValueCache; writeListCache is the same on values that are copied. */
    method Write(value: Value, now: int) returns (r: Value)
      modifies this
      ensures State() == Written(old(State()), value, now) && r == value
    {
      requestId := requestId + 1;
      revision := revision + 1;
      data := Some(value);
      fetchedAt := now;
      inflight := None;
      r := value;
    }

    /** invalidateCache. */
    method Invalidate()
      modifies this
      ensures State() == Invalidated(old(State()))
    {
      requestId := requestId + 1;
      revision := revision + 1;
      data := None;
      fetchedAt := 0;
      inflight := None;
    }

    /** cachedRead up to the point where it returns to its caller. */
    method Read(now: int, force: bool) returns (out: ReadOutcome)
      modifies this
      ensures out == ReadOf(old(State()), now, force)
      ensures State() == AfterRead(old(State()), now, force)
    {
      if !force && data.Some? && now - fetchedAt < LIST_TTL_MS { return Hit(data.value); }
      if !force && inflight.Some? { return Join(inflight.value); }
      requestId := requestId + 1;
      out := Issue(requestId, revision);
      inflight := Some(requestId);
    }

    /** The `then` callback of the fetch issued as `request` under `revision`. */
    method Respond(request: nat, under: nat, value: Value, now: int) returns (out: Settlement)
      modifies this
      ensures out == SettleOf(old(State()), request, under)
      ensures State() == AfterSettle(old(State()), request, under, value, now)
    {
      if requestId != request || revision != under {
        var latest := inflight;
        if latest.Some? && latest.value != request { return Follow(latest.value); }
        if data.Some? { return Copy(data.value); }
        var again := Read(now, true);
        return Refetch(again.request, again.revision);
      }
      var _ := Write(value, now);
      out := Commit;
    }

    /** The `catch` callback. */
    method Fail(request: nat)
      modifies this
      ensures State() == AfterFailure(old(State()), request)
    {
      if inflight == Some(request) { inflight := None; }
    }
  }
}
