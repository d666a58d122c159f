/** The chat message list and the merge of server rows into it
    (components/chat/chat-helpers.ts). */
module Messages {
  import opened Options
  import opened StableSorting

  datatype Role = User | Assistant

  /** Client-side lifecycle of a bubble. `Unmarked` is a row without a status, as the server sends it. */
  datatype Status = Pending | Sent | Steering | SteeringUncertain | Confirmed | Unmarked

  /** `order` is the server-assigned `seq`; `draft` says that the reply is still in progress; `extra` stands for
      the other fields that the merge only copies. */
  datatype Message = Message(
    id: string, role: Role, content: string, order: Option<int>, status: Status, draft: bool, extra: string)

  predicate IsUnconfirmed(m: Message) {
    m.status.Pending? || m.status.Sent? || m.status.Steering? || m.status.SteeringUncertain?
  }

  function Confirm(m: Message): Message { m.(status := Confirmed) }

  function OrderKey(m: Message): Key {
    if m.order.Some? then Finite(m.order.value) else Infinite
  }

  function Ids(rows: seq<Message>): set<string> { set m | m in rows :: m.id }

  ghost predicate DistinctIds(rows: seq<Message>) {
    forall i, j :: 0 <= i < j < |rows| ==> rows[i].id != rows[j].id
  }

  /** The local array and its index Map, as one loop iteration of appendUnique sees them. */
  datatype Working = Working(rows: seq<Message>, index: map<string, nat>)

  predicate InRange(w: Working) { forall id | id in w.index :: w.index[id] < |w.rows| }

  /** The index Map built from id/position pairs: for a repeated id the last position wins. */
  function IndexById(rows: seq<Message>): (index: map<string, nat>)
    ensures forall id | id in index :: index[id] < |rows| && rows[index[id]].id == id
  {
    if rows == [] then map[]
    else IndexById(rows[..|rows| - 1])[rows[|rows| - 1].id := |rows| - 1]
  }

  lemma {:induction false} IndexFindsLast(rows: seq<Message>, at: nat)
    requires at < |rows|
    ensures rows[at].id in IndexById(rows) && IndexById(rows)[rows[at].id] >= at
  {
    var n := |rows| - 1;
    if at < n { IndexFindsLast(rows[..n], at); }
  }

  predicate Claimable(m: Message, content: string) {
    IsUnconfirmed(m) && m.role.User? && m.content == content
  }

  /** Position of the first optimistic user bubble with this content. */
  function FirstBubble(rows: seq<Message>, content: string): (at: Option<nat>)
    ensures at.Some? ==> at.value < |rows| && Claimable(rows[at.value], content)
    ensures forall j :: 0 <= j < (if at.Some? then at.value else |rows|) ==> !Claimable(rows[j], content)
  {
    if rows == [] then None
    else if Claimable(rows[0], content) then Some(0)
    else match FirstBubble(rows[1..], content)
         case Some(at) => Some(at + 1)
         case None => None
  }

  function BubbleFor(rows: seq<Message>, server: Message): Option<nat> {
    if server.role.User? then FirstBubble(rows, server.content) else None
  }

  /** One incoming row: overwrite by id, else confirm a matching bubble, else append. */
  function Place(w: Working, server: Message): (r: Working)
    requires InRange(w)
    ensures InRange(r)
  {
    var confirmed := Confirm(server);
    if server.id in w.index then
      Working(w.rows[w.index[server.id] := confirmed], w.index)
    else match BubbleFor(w.rows, server)
      case Some(at) =>
        Working(w.rows[at := confirmed], (w.index - {w.rows[at].id})[server.id := at])
      case None =>
        Working(w.rows + [confirmed], w.index[server.id := |w.rows|])
  }

  function PlaceAll(w: Working, incoming: seq<Message>): (r: Working)
    requires InRange(w)
    ensures InRange(r)
    decreases |incoming|
  {
    if incoming == [] then w else PlaceAll(Place(w, incoming[0]), incoming[1..])
  }

  function Start(prev: seq<Message>): (w: Working)
    ensures InRange(w)
  {
    Working(prev, IndexById(prev))
  }

  function AppendUnique(prev: seq<Message>, incoming: seq<Message>): seq<Message> {
    if incoming == [] then prev else Sort(PlaceAll(Start(prev), incoming).rows, OrderKey)
  }

  /** appendUnique as written: an index Map and a local array updated row by row, then one stable sort. */
  method MergeRows(prev: seq<Message>, incoming: seq<Message>) returns (result: seq<Message>)
    ensures result == AppendUnique(prev, incoming)
  {
    if |incoming| == 0 { return prev; }
    result := prev;
    var idxById: map<string, nat> := map[];
    for i := 0 to |result|
      invariant idxById == IndexById(result[..i])
    {
      assert result[..i + 1][..i] == result[..i];
      idxById := idxById[result[i].id := i];
    }
    assert result[..|result|] == result;
    for k := 0 to |incoming|
      invariant InRange(Working(result, idxById))
      invariant PlaceAll(Start(prev), incoming) == PlaceAll(Working(result, idxById), incoming[k..])
    {
      ghost var before := Working(result, idxById);
      var server := incoming[k];
      var confirmed := server.(status := Confirmed);
      if server.id in idxById {
        result := result[idxById[server.id] := confirmed];
      } else {
        var at := |result|;
        if server.role.User? { at := FindBubble(result, server.content); }
        if at < |result| {
          idxById := idxById - {result[at].id};
          result := result[at := confirmed];
          idxById := idxById[server.id := at];
        } else {
          idxById := idxById[server.id := |result|];
          result := result + [confirmed];
        }
      }
      assert Working(result, idxById) == Place(before, server);
      assert incoming[k..][1..] == incoming[k + 1..];
    }
    result := Sort(result, OrderKey);
  }

  /** The findIndex call; a position past the end stands for -1. */
  method FindBubble(rows: seq<Message>, content: string) returns (at: nat)
    ensures at == match FirstBubble(rows, content) case Some(i) => i case None => |rows|
  {
    at := 0;
    while at < |rows| && !Claimable(rows[at], content)
      invariant at <= |rows|
      invariant forall j :: 0 <= j < at ==> !Claimable(rows[j], content)
    {
      at := at + 1;
    }
  }

  /** Every id occurs once and the index points at it. */
  ghost predicate Indexed(w: Working) {
    && (forall i :: 0 <= i < |w.rows| ==> w.rows[i].id in w.index && w.index[w.rows[i].id] == i)
    && (forall id | id in w.index :: w.index[id] < |w.rows| && w.rows[w.index[id]].id == id)
  }

  lemma StartIndexed(prev: seq<Message>)
    requires DistinctIds(prev)
    ensures Indexed(Start(prev))
  {
    forall i | 0 <= i < |prev| ensures prev[i].id in IndexById(prev) && IndexById(prev)[prev[i].id] == i {
      IndexFindsLast(prev, i);
    }
  }

  lemma PlaceIndexed(w: Working, server: Message)
    requires Indexed(w)
    ensures Indexed(Place(w, server))
  {
  }

  lemma {:induction false} PlaceAllIndexed(w: Working, incoming: seq<Message>)
    requires Indexed(w)
    ensures Indexed(PlaceAll(w, incoming))
    decreases |incoming|
  {
    if incoming != [] {
      PlaceIndexed(w, incoming[0]);
      PlaceAllIndexed(Place(w, incoming[0]), incoming[1..]);
    }
  }

  lemma {:induction false} PlaceAllSnoc(w: Working, incoming: seq<Message>, last: Message)
    requires InRange(w)
    ensures PlaceAll(w, incoming + [last]) == Place(PlaceAll(w, incoming), last)
    decreases |incoming|
  {
    if incoming != [] {
      assert (incoming + [last])[1..] == incoming[1..] + [last];
      PlaceAllSnoc(Place(w, incoming[0]), incoming[1..], last);
    } else {
      assert ([last])[1..] == [];
    }
  }
}
