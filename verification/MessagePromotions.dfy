/** Which bubbles a merge promotes: for every text, the waiting bubbles are a queue that each new row of the text
    pops (components/chat/chat-helpers.ts). */
module MessagePromotions {
  import opened Options
  import opened StableSorting
  import opened Messages
  import opened MessageAccounting

  /** A user bubble with this text that the server has not echoed back. */
  predicate Waits(m: Message, text: string) {
    && m.role == User && m.content == text
    && (m.status == Pending || m.status == Sent || m.status == Steering || m.status == SteeringUncertain)
  }

  function Waiting(rows: seq<Message>, text: string): seq<Message> {
    if rows == [] then []
    else if Waits(rows[0], text) then [rows[0]] + Waiting(rows[1..], text)
    else Waiting(rows[1..], text)
  }

  /** How many user rows with this text and an id not seen before a batch brings. */
  function NewRows(seen: set<string>, batch: seq<Message>, text: string): nat
    decreases |batch|
  {
    if batch == [] then 0
    else
      (if batch[0].role == User && batch[0].content == text && batch[0].id !in seen then 1 else 0)
      + NewRows(seen + {batch[0].id}, batch[1..], text)
  }

  function After<T>(queue: seq<T>, k: nat): seq<T> { if k <= |queue| then queue[k..] else [] }

  // ---------- The list of waiting bubbles ----------

  lemma {:induction false} WaitingConcat(a: seq<Message>, b: seq<Message>, text: string)
    ensures Waiting(a + b, text) == Waiting(a, text) + Waiting(b, text)
  {
    if a == [] {
      assert a + b == b;
    } else {
      assert (a + b)[1..] == a[1..] + b;
      WaitingConcat(a[1..], b, text);
    }
  }

  lemma {:induction false} WaitingMembers(rows: seq<Message>, text: string)
    ensures forall m :: m in Waiting(rows, text) <==> m in rows && Waits(m, text)
  {
    if rows != [] {
      assert rows == [rows[0]] + rows[1..];
      WaitingMembers(rows[1..], text);
    }
  }

  lemma WaitingAround(rows: seq<Message>, at: nat, text: string)
    requires at < |rows|
    ensures Waiting(rows, text) ==
            Waiting(rows[..at], text) + (if Waits(rows[at], text) then [rows[at]] else []) + Waiting(rows[at + 1..], text)
  {
    assert rows == rows[..at] + rows[at..];
    WaitingConcat(rows[..at], rows[at..], text);
    assert rows[at..][1..] == rows[at + 1..];
  }

  lemma {:induction false} NoneWaiting(rows: seq<Message>, text: string)
    requires forall i | 0 <= i < |rows| :: !Waits(rows[i], text)
    ensures Waiting(rows, text) == []
  {
    if rows != [] { NoneWaiting(rows[1..], text); }
  }

  lemma WaitingAfterUpdate(rows: seq<Message>, at: nat, m: Message, text: string)
    requires at < |rows| && !Waits(m, text)
    ensures !Waits(rows[at], text) ==> Waiting(rows[at := m], text) == Waiting(rows, text)
    ensures Waits(rows[at], text) && (forall i | 0 <= i < at :: !Waits(rows[i], text)) ==>
              Waiting(rows, text) != [] && Waiting(rows[at := m], text) == Waiting(rows, text)[1..]
  {
    WaitingAround(rows, at, text);
    WaitingAround(rows[at := m], at, text);
    assert rows[at := m][..at] == rows[..at] && rows[at := m][at + 1..] == rows[at + 1..];
    if forall i | 0 <= i < at :: !Waits(rows[i], text) { NoneWaiting(rows[..at], text); }
  }

  // ---------- One batch ----------

  /** The index knows the delivered ids that were seen, and no delivered id is a bubble's. */
  ghost predicate Tracks(w: Working, seen: set<string>, batch: seq<Message>) {
    && Indexed(w)
    && (forall x | x in batch :: x.id in w.index <==> x.id in seen)
    && (forall m | m in w.rows && Waits(m, m.content) :: m.id !in Ids(batch))
  }

  lemma PlaceTracks(w: Working, seen: set<string>, batch: seq<Message>)
    requires batch != [] && Tracks(w, seen, batch)
    ensures Tracks(Place(w, batch[0]), seen + {batch[0].id}, batch[1..])
  {
    var row, rest, next := batch[0], batch[1..], Place(w, batch[0]);
    assert batch == [row] + rest;
    PlaceIndexed(w, row);
    forall m | m in next.rows && Waits(m, m.content) ensures m in w.rows && m.id !in Ids(rest) {
      assert m != Confirm(row);
      assert m.id !in Ids(batch);
    }
    forall x | x in rest ensures x.id in next.index <==> x.id in seen + {row.id} {
      assert x.id in Ids(batch);
      if row.id !in w.index && BubbleFor(w.rows, row).Some? {
        var b := w.rows[BubbleFor(w.rows, row).value];
        assert b in w.rows && Waits(b, b.content);
      }
    }
  }

  lemma PlacePops(w: Working, seen: set<string>, batch: seq<Message>, text: string)
    requires batch != [] && Tracks(w, seen, batch)
    ensures var row := batch[0];
            var pops := row.role == User && row.content == text && row.id !in seen;
            Waiting(Place(w, row).rows, text) == After(Waiting(w.rows, text), if pops then 1 else 0)
  {
    var row := batch[0];
    assert row in batch && row.id in Ids(batch);
    if row.id in w.index {
      var at := w.index[row.id];
      assert w.rows[at] in w.rows;
      WaitingAfterUpdate(w.rows, at, Confirm(row), text);
    } else if BubbleFor(w.rows, row).Some? {
      var at := BubbleFor(w.rows, row).value;
      WaitingAfterUpdate(w.rows, at, Confirm(row), text);
    } else {
      AppendPopsNothing(w.rows, row, text);
    }
  }

  lemma AppendPopsNothing(rows: seq<Message>, row: Message, text: string)
    requires BubbleFor(rows, row).None?
    ensures Waiting(rows + [Confirm(row)], text) == Waiting(rows, text)
    ensures row.role == User && row.content == text ==> Waiting(rows, text) == []
  {
    WaitingConcat(rows, [Confirm(row)], text);
    assert [Confirm(row)][1..] == [];
    if row.role == User { NoneWaiting(rows, row.content); }
  }

  lemma {:induction false} PlaceAllPops(w: Working, seen: set<string>, batch: seq<Message>, text: string)
    requires Tracks(w, seen, batch)
    ensures Waiting(PlaceAll(w, batch).rows, text) == After(Waiting(w.rows, text), NewRows(seen, batch, text))
    decreases |batch|
  {
    if batch != [] {
      PlaceTracks(w, seen, batch);
      PlacePops(w, seen, batch, text);
      PlaceAllPops(Place(w, batch[0]), seen + {batch[0].id}, batch[1..], text);
    }
  }

  /** Sorting moves no bubble past another. */
  lemma {:induction false} WaitingIsUnsequenced(rows: seq<Message>, text: string)
    requires forall m | m in rows && Waits(m, text) :: m.order == None
    ensures Waiting(rows, text) == Waiting(WithKey(rows, OrderKey, Infinite), text)
  {
    if rows != [] {
      assert rows[0] in rows && forall m | m in rows[1..] :: m in rows;
      WaitingIsUnsequenced(rows[1..], text);
      var rest := WithKey(rows[1..], OrderKey, Infinite);
      assert ([rows[0]] + rest)[1..] == rest;
    }
  }

  lemma SortKeepsWaiting(rows: seq<Message>, text: string)
    requires forall m | m in rows && Waits(m, text) :: m.order == None
    ensures Waiting(Sort(rows, OrderKey), text) == Waiting(rows, text)
  {
    var sorted := Sort(rows, OrderKey);
    SortIsStable(rows, OrderKey);
    SameMembers(sorted, rows);
    WaitingIsUnsequenced(rows, text);
    WaitingIsUnsequenced(sorted, text);
  }

  lemma {:induction false} PlacedBubblesAreOld(w: Working, batch: seq<Message>)
    requires InRange(w)
    ensures forall m | m in PlaceAll(w, batch).rows && Waits(m, m.content) :: m in w.rows
    decreases |batch|
  {
    if batch != [] {
      assert forall m | m in Place(w, batch[0]).rows :: m == Confirm(batch[0]) || m in w.rows;
      PlacedBubblesAreOld(Place(w, batch[0]), batch[1..]);
    }
  }

  /** Bubbles have no seq, and the server never uses their ids. */
  ghost predicate BubblesAreLocal(prev: seq<Message>, batch: seq<Message>) {
    forall m | m in prev && Waits(m, m.content) :: m.order == None && m.id !in Ids(batch)
  }

  /** For every text, a merge leaves the waiting bubbles as they were and in their order, without the first k:
      one for each delivered user row of the text whose id was not in the list. */
  lemma MergePopsTheQueue(prev: seq<Message>, batch: seq<Message>, text: string)
    requires DistinctIds(prev) && BubblesAreLocal(prev, batch)
    ensures Waiting(AppendUnique(prev, batch), text) == After(Waiting(prev, text), NewRows(Ids(prev), batch, text))
  {
    if batch != [] {
      StartIndexed(prev);
      StartTracks(prev, batch);
      PlaceAllPops(Start(prev), Ids(prev), batch, text);
      PlacedBubblesAreOld(Start(prev), batch);
      SortKeepsWaiting(PlaceAll(Start(prev), batch).rows, text);
    }
  }

  lemma StartTracks(prev: seq<Message>, batch: seq<Message>)
    requires DistinctIds(prev) && BubblesAreLocal(prev, batch)
    ensures Tracks(Start(prev), Ids(prev), batch)
  {
    StartIndexed(prev);
    forall x | x in batch ensures x.id in IndexById(prev) <==> x.id in Ids(prev) {
      if x.id in IndexById(prev) { assert prev[IndexById(prev)[x.id]] in prev; }
      if x.id in Ids(prev) { IndexHasIds(prev, x.id); }
    }
  }

  /** So a waiting bubble gives its place up if and only if there are more new rows of its text than bubbles
      before it with its text. */
  lemma BubbleWaitsOnIff(prev: seq<Message>, batch: seq<Message>, text: string, p: nat)
    requires DistinctIds(prev) && BubblesAreLocal(prev, batch) && p < |Waiting(prev, text)|
    ensures Waiting(prev, text)[p] in AppendUnique(prev, batch) <==> NewRows(Ids(prev), batch, text) <= p
  {
    MergePopsTheQueue(prev, batch, text);
    WaitingMembers(prev, text);
    WaitingMembers(AppendUnique(prev, batch), text);
    WaitingDistinct(prev, text);
    assert Waiting(prev, text)[p] in Waiting(prev, text);
    LeftAfter(Waiting(prev, text), NewRows(Ids(prev), batch, text), p);
  }

  lemma LeftAfter(queue: seq<Message>, k: nat, p: nat)
    requires DistinctIds(queue) && p < |queue|
    ensures queue[p] in After(queue, k) <==> k <= p
  {
    if k <= p { assert After(queue, k)[p - k] == queue[p]; }
  }

  lemma {:induction false} WaitingDistinct(rows: seq<Message>, text: string)
    requires DistinctIds(rows)
    ensures DistinctIds(Waiting(rows, text))
  {
    if rows != [] {
      WaitingDistinct(rows[1..], text);
      WaitingMembers(rows[1..], text);
      var rest := Waiting(rows[1..], text);
      forall j | 0 <= j < |rest| ensures rest[j].id != rows[0].id { assert rest[j] in rows[1..]; }
    }
  }

  /** Every delivered row is in the result with the server's fields of its last version, marked confirmed; and
      the list is ordered by seq, with the rows that have none at the end. */
  lemma DeliveredRowsKeepTheirFields(prev: seq<Message>, batch: seq<Message>, id: string)
    requires DistinctIds(prev) && id in Ids(batch)
    ensures var x, r := LastVersion(batch, id), AppendUnique(prev, batch);
            && Message(x.id, x.role, x.content, x.order, Confirmed, x.draft, x.extra) in r
            && forall i, j | 0 <= i < j < |r| && r[j].order != None ::
                 r[i].order != None && r[i].order.value <= r[j].order.value
  {
    HoldsLastVersion(prev, batch, id);
    MergeShape(prev, batch);
  }
}
