/** What one merge does to every row: nothing is lost, nothing is invented, nothing is doubled. */
module MessageAccounting {
  import opened Options
  import opened StableSorting
  import opened Messages

  /** The version of row `id` that arrives last in the batch. */
  function LastVersion(incoming: seq<Message>, id: string): (row: Message)
    requires id in Ids(incoming)
    ensures row in incoming && row.id == id
  {
    var n := |incoming| - 1;
    if incoming[n].id == id then incoming[n]
    else
      assert incoming == incoming[..n] + [incoming[n]];
      LastVersion(incoming[..n], id)
  }

  /** `now` holds the last delivered version of its id. */
  predicate Delivered(now: Message, incoming: seq<Message>) {
    now.id in Ids(incoming) && now == Confirm(LastVersion(incoming, now.id))
  }

  /** `was` was an optimistic user bubble and a delivered row of the new id carries its text. */
  ghost predicate Promoted(was: Message, now: Message, incoming: seq<Message>) {
    IsUnconfirmed(was) && was.role.User? &&
    exists row :: row in incoming && row.id == now.id && row.role.User? && row.content == was.content
  }

  /** What may stand at a position that held `was` before the batch. */
  ghost predicate Accounted(was: Message, now: Message, incoming: seq<Message>) {
    || (now == was && now.id !in Ids(incoming))
    || (Delivered(now, incoming) && (now.id == was.id || Promoted(was, now, incoming)))
  }

  ghost predicate Account(prev: seq<Message>, w: Working, incoming: seq<Message>) {
    && Indexed(w)
    && |prev| <= |w.rows|
    && (forall i :: 0 <= i < |prev| ==> Accounted(prev[i], w.rows[i], incoming))
    && (forall i :: |prev| <= i < |w.rows| ==> Delivered(w.rows[i], incoming))
    && (forall id :: id in Ids(incoming) ==> id in w.index)
  }

  lemma LastVersionSnoc(s: seq<Message>, x: Message, id: string)
    requires id in Ids(s + [x])
    ensures Ids(s + [x]) == Ids(s) + {x.id}
    ensures LastVersion(s + [x], id) == if id == x.id then x else LastVersion(s, id)
  {
    assert (s + [x])[..|s|] == s;
  }

  lemma AccountedSnoc(was: Message, now: Message, s: seq<Message>, x: Message)
    requires Accounted(was, now, s) && now.id != x.id
    ensures Accounted(was, now, s + [x])
  {
    LastVersionSnoc(s, x, x.id);
    if now.id in Ids(s) { LastVersionSnoc(s, x, now.id); }
    if Promoted(was, now, s) {
      var row :| row in s && row.id == now.id && row.role.User? && row.content == was.content;
      assert row in s + [x];
    }
  }

  lemma AccountedReplaced(was: Message, earlier: Message, s: seq<Message>, x: Message)
    requires Accounted(was, earlier, s) && earlier.id == x.id
    ensures Accounted(was, Confirm(x), s + [x])
  {
    LastVersionSnoc(s, x, x.id);
    if Promoted(was, earlier, s) {
      var row :| row in s && row.id == earlier.id && row.role.User? && row.content == was.content;
      assert row in s + [x];
    }
  }

  lemma AccountStep(prev: seq<Message>, w: Working, s: seq<Message>, x: Message)
    requires Account(prev, w, s)
    ensures Account(prev, Place(w, x), s + [x])
  {
    var next := Place(w, x);
    PlaceIndexed(w, x);
    LastVersionSnoc(s, x, x.id);
    forall i | 0 <= i < |prev| ensures Accounted(prev[i], next.rows[i], s + [x]) {
      if next.rows[i] == w.rows[i] && w.rows[i].id != x.id {
        AccountedSnoc(prev[i], w.rows[i], s, x);
      } else if w.rows[i].id == x.id {
        AccountedReplaced(prev[i], w.rows[i], s, x);
      } else {
        var at := BubbleFor(w.rows, x);
        assert at == Some(i) && next.rows[i] == Confirm(x);
        assert x in s + [x];
      }
    }
    forall i | |prev| <= i < |next.rows| ensures Delivered(next.rows[i], s + [x]) {
      if next.rows[i].id != x.id { LastVersionSnoc(s, x, next.rows[i].id); }
    }
    forall id | id in Ids(s + [x]) ensures id in next.index {
      if id in Ids(s) && id != x.id && x.id !in w.index {
        SettledNeverClaimed(prev, w, s, id, x);
      }
    }
  }

  /** A delivered row is confirmed, so no later row of the batch can take its place. */
  lemma SettledNeverClaimed(prev: seq<Message>, w: Working, s: seq<Message>, id: string, x: Message)
    requires Account(prev, w, s) && id in Ids(s)
    ensures BubbleFor(w.rows, x).Some? ==> w.rows[BubbleFor(w.rows, x).value].id != id
  {
    var k := w.index[id];
    assert !IsUnconfirmed(w.rows[k]);
  }

  lemma {:induction false} AccountHolds(prev: seq<Message>, incoming: seq<Message>)
    requires DistinctIds(prev)
    ensures Account(prev, PlaceAll(Start(prev), incoming), incoming)
    decreases |incoming|
  {
    if incoming == [] {
      StartIndexed(prev);
    } else {
      var n := |incoming| - 1;
      assert incoming == incoming[..n] + [incoming[n]];
      AccountHolds(prev, incoming[..n]);
      PlaceAllSnoc(Start(prev), incoming[..n], incoming[n]);
      AccountStep(prev, PlaceAll(Start(prev), incoming[..n]), incoming[..n], incoming[n]);
    }
  }

  /** `merged` lists the outcome position by position: first the places of `prev`, then the appended rows. */
  ghost predicate Accounts(prev: seq<Message>, merged: seq<Message>, incoming: seq<Message>) {
    && |prev| <= |merged|
    && (forall i :: 0 <= i < |prev| ==> Accounted(prev[i], merged[i], incoming))
    && (forall i :: |prev| <= i < |merged| ==> Delivered(merged[i], incoming))
  }

  lemma {:induction false} IdCount(rows: seq<Message>)
    ensures |Ids(rows)| <= |rows|
    ensures |Ids(rows)| == |rows| <==> DistinctIds(rows)
  {
    if rows != [] {
      var n := |rows| - 1;
      var front := rows[..n];
      IdCount(front);
      assert rows == front + [rows[n]];
      assert Ids(rows) == Ids(front) + {rows[n].id};
      if rows[n].id in Ids(front) { assert Ids(rows) == Ids(front); }
      DistinctSnoc(front, rows[n]);
    }
  }

  lemma DistinctSnoc(front: seq<Message>, last: Message)
    ensures DistinctIds(front + [last]) <==> DistinctIds(front) && last.id !in Ids(front)
  {
    var rows := front + [last];
    if DistinctIds(rows) {
      forall m | m in front ensures m.id != last.id {
        var i :| 0 <= i < |front| && front[i] == m;
        assert rows[i] == m && rows[|front|] == last;
      }
      assert forall i | 0 <= i < |front| :: front[i] == rows[i];
    }
    if DistinctIds(front) && last.id !in Ids(front) {
      forall i | 0 <= i < |front| ensures rows[i].id != last.id { assert front[i] in front; }
    }
  }

  lemma SameMembers(a: seq<Message>, b: seq<Message>)
    requires multiset(a) == multiset(b)
    ensures forall m :: m in a <==> m in b
    ensures Ids(a) == Ids(b)
  {
    forall m ensures m in a <==> m in b {
      assert m in a <==> m in multiset(a);
      assert m in b <==> m in multiset(b);
    }
  }

  /** A merge result is a sorted rearrangement of the placed rows. */
  lemma MergeShape(prev: seq<Message>, incoming: seq<Message>)
    requires DistinctIds(prev) && incoming != []
    ensures var r, rows := AppendUnique(prev, incoming), PlaceAll(Start(prev), incoming).rows;
            && Sorted(r, OrderKey) && DistinctIds(r) && multiset(rows) == multiset(r)
            && (forall m :: m in r <==> m in rows) && Ids(r) == Ids(rows)
  {
    var r, rows := AppendUnique(prev, incoming), PlaceAll(Start(prev), incoming).rows;
    AccountHolds(prev, incoming);
    SortIsStable(rows, OrderKey);
    assert DistinctIds(rows);
    SameMembers(rows, r);
    IdCount(rows);
    IdCount(r);
  }

  lemma PlacedMembers(prev: seq<Message>, w: Working, incoming: seq<Message>)
    requires Account(prev, w, incoming)
    ensures forall m | m in w.rows && m.id in Ids(incoming) :: Delivered(m, incoming)
    ensures forall m | m in w.rows && m.id !in Ids(incoming) :: m in prev
    ensures forall id | id in Ids(incoming) :: id in Ids(w.rows)
  {
    forall m | m in w.rows
      ensures m.id in Ids(incoming) ==> Delivered(m, incoming)
      ensures m.id !in Ids(incoming) ==> m in prev
    {
      var i :| 0 <= i < |w.rows| && w.rows[i] == m;
      if i < |prev| { assert Accounted(prev[i], m, incoming); }
    }
    forall id | id in Ids(incoming) ensures id in Ids(w.rows) {
      assert w.rows[w.index[id]] in w.rows;
    }
  }

  /** A merge only keeps old rows and adds confirmed server rows. */
  lemma MergeMembers(prev: seq<Message>, incoming: seq<Message>)
    requires DistinctIds(prev)
    ensures DistinctIds(AppendUnique(prev, incoming))
    ensures forall m | m in AppendUnique(prev, incoming) :: m in prev || exists x :: x in incoming && m == Confirm(x)
  {
    if incoming != [] {
      MergeShape(prev, incoming);
      AccountHolds(prev, incoming);
      PlacedMembers(prev, PlaceAll(Start(prev), incoming), incoming);
      forall m | m in AppendUnique(prev, incoming) && m !in prev
        ensures exists x :: x in incoming && m == Confirm(x)
      {
        assert Delivered(m, incoming) && LastVersion(incoming, m.id) in incoming;
      }
    }
  }

  lemma OneVersion(rows: seq<Message>, held: Message, other: Message)
    requires DistinctIds(rows) && held in rows && other.id == held.id && other != held
    ensures other !in rows
  {
  }

  lemma OnlyBubblesGiveWay(prev: seq<Message>, w: Working, incoming: seq<Message>, m: Message)
    requires Account(prev, w, incoming)
    requires m in prev && m.id !in Ids(w.rows)
    ensures IsUnconfirmed(m) && m.role.User?
  {
    var i :| 0 <= i < |prev| && prev[i] == m;
    assert Accounted(prev[i], w.rows[i], incoming) && w.rows[i] in w.rows;
  }

  lemma LengthFormula(before: seq<Message>, after: seq<Message>, delivered: set<string>)
    requires DistinctIds(before) && DistinctIds(after)
    requires delivered <= Ids(after) <= Ids(before) + delivered
    ensures |after| == |before| + |delivered - Ids(before)| - |Ids(before) - Ids(after)|
  {
    IdCount(before);
    IdCount(after);
    var added, gone := delivered - Ids(before), Ids(before) - Ids(after);
    assert Ids(after) == (Ids(before) - gone) + added;
    assert |Ids(before) - gone| == |Ids(before)| - |gone|;
  }

  /** appendUnique accounts for every row. The result is a sorted permutation of `merged`, in which
      every old row survives, is updated by id, or gives its place to a server row with its role and
      text; every delivered id occurs once, as its last version; and the length is the old length plus
      the new ids, less the bubbles that gave their place away. */
  lemma MergeAccountsForEveryRow(prev: seq<Message>, incoming: seq<Message>)
    requires DistinctIds(prev) && incoming != []
    ensures var r := AppendUnique(prev, incoming);
            && Sorted(r, OrderKey)
            && DistinctIds(r)
            && (exists merged :: multiset(merged) == multiset(r) && Accounts(prev, merged, incoming))
            && Ids(incoming) <= Ids(r) <= Ids(prev) + Ids(incoming)
            && (forall m | m in r && m.id in Ids(incoming) :: m == Confirm(LastVersion(incoming, m.id)))
            && (forall m | m in r && m.id !in Ids(incoming) :: m in prev)
            && (forall m | m in prev && m.id !in Ids(r) :: IsUnconfirmed(m) && m.role.User?)
            && |r| == |prev| + |Ids(incoming) - Ids(prev)| - |Ids(prev) - Ids(r)|
  {
    var r := AppendUnique(prev, incoming);
    var w := PlaceAll(Start(prev), incoming);
    AccountHolds(prev, incoming);
    MergeShape(prev, incoming);
    PlacedMembers(prev, w, incoming);
    assert multiset(w.rows) == multiset(r) && Accounts(prev, w.rows, incoming);
    forall m | m in prev && m.id !in Ids(r) ensures IsUnconfirmed(m) && m.role.User? {
      OnlyBubblesGiveWay(prev, w, incoming, m);
    }
    LengthFormula(prev, r, Ids(incoming));
  }

  lemma LastVersionOfDistinct(rows: seq<Message>, x: Message)
    requires DistinctIds(rows) && x in rows
    ensures LastVersion(rows, x.id) == x
  {
  }

  lemma HoldsLastVersion(prev: seq<Message>, incoming: seq<Message>, id: string)
    requires DistinctIds(prev) && id in Ids(incoming)
    ensures Confirm(LastVersion(incoming, id)) in AppendUnique(prev, incoming)
  {
    AccountHolds(prev, incoming);
    var w := PlaceAll(Start(prev), incoming);
    assert w.rows[w.index[id]].id == id && w.rows[w.index[id]] in w.rows;
    assert Confirm(LastVersion(incoming, id)) in w.rows by { PlacedMembers(prev, w, incoming); }
    MergeShape(prev, incoming);
  }

  /** `w` is `r` with the batch so far written over it, position by position. */
  ghost predicate Rewritten(r: seq<Message>, w: Working, done: seq<Message>) {
    && Indexed(w)
    && w.index == Start(r).index
    && |w.rows| == |r|
    && (forall i :: 0 <= i < |r| ==> w.rows[i].id == r[i].id)
    && (forall i :: 0 <= i < |r| ==>
          w.rows[i] == if r[i].id in Ids(done) then Confirm(LastVersion(done, r[i].id)) else r[i])
  }

  lemma RewriteStep(r: seq<Message>, w: Working, s: seq<Message>, x: Message)
    requires Rewritten(r, w, s) && x.id in w.index
    ensures Rewritten(r, Place(w, x), s + [x])
  {
    PlaceIndexed(w, x);
    var next := Place(w, x);
    LastVersionSnoc(s, x, x.id);
    forall i | 0 <= i < |r|
      ensures next.rows[i] ==
        if r[i].id in Ids(s + [x]) then Confirm(LastVersion(s + [x], r[i].id)) else r[i]
    {
      if r[i].id in Ids(s + [x]) { LastVersionSnoc(s, x, r[i].id); }
    }
  }

  lemma {:induction false} Rewriting(r: seq<Message>, done: seq<Message>)
    requires DistinctIds(r) && Ids(done) <= Ids(r)
    ensures Rewritten(r, PlaceAll(Start(r), done), done)
    decreases |done|
  {
    StartIndexed(r);
    if done != [] {
      var n := |done| - 1;
      var s, x := done[..n], done[n];
      assert done == s + [x];
      assert x.id in Ids(r);
      Rewriting(r, s);
      PlaceAllSnoc(Start(r), s, x);
      IndexHasIds(r, x.id);
      RewriteStep(r, PlaceAll(Start(r), s), s, x);
    }
  }

  lemma IndexHasIds(r: seq<Message>, id: string)
    requires id in Ids(r)
    ensures id in Start(r).index
  {
    var k :| 0 <= k < |r| && r[k].id == id;
    IndexFindsLast(r, k);
  }

  /** Delivering the same batch a second time changes nothing. */
  lemma MergeIsIdempotent(prev: seq<Message>, incoming: seq<Message>)
    requires DistinctIds(prev)
    ensures AppendUnique(AppendUnique(prev, incoming), incoming) == AppendUnique(prev, incoming)
  {
    if incoming != [] {
      var r := AppendUnique(prev, incoming);
      MergeAccountsForEveryRow(prev, incoming);
      Rewriting(r, incoming);
      forall i | 0 <= i < |r| ensures PlaceAll(Start(r), incoming).rows[i] == r[i] {
        assert r[i] in r;
      }
      assert PlaceAll(Start(r), incoming).rows == r;
      SortOfSorted(r, OrderKey);
    }
  }
}
