/** The chat list under every interleaving of launches, steers, their outcomes and refetches
    (launchRun and steerRun in components/chat/ChatView.tsx). */
module ChatRuns {
  import opened Options
  import opened StableSorting
  import opened Messages
  import opened MessageAccounting

  /** Optimistic ids carry the prefix that no server id has. */
  predicate IsOptimistic(id: string) { |id| >= 4 && id[..4] == "opt-" }

  datatype Step =
    | Launch(id: string, content: string, extra: string)
    | Steer(id: string, content: string, extra: string)
    | MarkSent(id: string)
    | MarkUncertain(id: string)
    | Withdraw(id: string)
    | Refetch(batch: seq<Message>)

  /** The list with its history: the text of each bubble ever shown, the bubbles taken back on
      rejection, and the server row that took each promoted bubble's place. */
  datatype Chat = Chat(
    rows: seq<Message>,
    texts: map<string, string>,
    withdrawn: set<string>,
    promoted: map<string, Message>)

  function Drop(rows: seq<Message>, id: string): seq<Message> {
    if rows == [] then []
    else if rows[0].id == id then Drop(rows[1..], id)
    else [rows[0]] + Drop(rows[1..], id)
  }

  function Mark(rows: seq<Message>, id: string, status: Status): (r: seq<Message>)
    ensures |r| == |rows|
    ensures forall i | 0 <= i < |rows| :: r[i] == if rows[i].id == id then rows[i].(status := status) else rows[i]
  {
    if rows == [] then []
    else [if rows[0].id == id then rows[0].(status := status) else rows[0]] + Mark(rows[1..], id, status)
  }

  /** Ids of the bubbles in the list. */
  function Pendings(rows: seq<Message>): set<string> { set id | id in Ids(rows) && IsOptimistic(id) }

  /** Ids of the confirmed rows in the list. */
  function SettledIds(rows: seq<Message>): set<string> { set id | id in Ids(rows) && !IsOptimistic(id) }

  predicate Claims(w: Working, row: Message) {
    row.id !in w.index && BubbleFor(w.rows, row).Some?
  }

  /** The bubbles that a batch promotes, each with the row that promotes it. */
  function Promotions(w: Working, batch: seq<Message>): map<string, Message>
    requires InRange(w)
    decreases |batch|
  {
    if batch == [] then map[]
    else
      var later := Promotions(Place(w, batch[0]), batch[1..]);
      if Claims(w, batch[0]) then later[w.rows[BubbleFor(w.rows, batch[0]).value].id := batch[0]] else later
  }

  function Bubble(id: string, content: string, status: Status, extra: string): Message {
    Message(id, User, content, None, status, false, extra)
  }

  function Apply(c: Chat, step: Step): Chat {
    match step
    case Launch(id, content, extra) =>
      Chat(c.rows + [Bubble(id, content, Pending, extra)], c.texts[id := content], c.withdrawn, c.promoted)
    case Steer(id, content, extra) =>
      Chat(c.rows + [Bubble(id, content, Steering, extra)], c.texts[id := content], c.withdrawn, c.promoted)
    case MarkSent(id) => c.(rows := Mark(c.rows, id, Sent))
    case MarkUncertain(id) => c.(rows := Mark(c.rows, id, SteeringUncertain))
    case Withdraw(id) =>
      c.(rows := Drop(c.rows, id), withdrawn := c.withdrawn + ({id} * Pendings(c.rows)))
    case Refetch(batch) =>
      c.(rows := AppendUnique(c.rows, batch), promoted := c.promoted + Promotions(Start(c.rows), batch))
  }

  /** New bubbles get unused ids; outcomes arrive at any time for any bubble; server rows have a seq
      and no optimistic id. */
  predicate Enabled(c: Chat, step: Step) {
    match step
    case Launch(id, _, _) => IsOptimistic(id) && id !in c.texts
    case Steer(id, _, _) => IsOptimistic(id) && id !in c.texts
    case MarkSent(id) => id in c.texts
    case MarkUncertain(id) => id in c.texts
    case Withdraw(id) => id in c.texts
    case Refetch(batch) => forall m | m in batch :: m.order.Some? && !IsOptimistic(m.id)
  }

  // ---------- The invariant ----------

  ghost predicate Proper(m: Message) {
    if IsUnconfirmed(m) then IsOptimistic(m.id) && m.role.User? && m.order.None?
    else !IsOptimistic(m.id) && m.order.Some?
  }

  ghost predicate WellShaped(rows: seq<Message>) {
    && DistinctIds(rows)
    && Sorted(rows, OrderKey)
    && (forall m | m in rows :: Proper(m))
  }

  ghost predicate Injective(promoted: map<string, Message>) {
    forall b, d | b in promoted && d in promoted && promoted[b].id == promoted[d].id :: b == d
  }

  /** Each bubble ever shown is in exactly one place: pending, withdrawn, or promoted. */
  ghost predicate Partition(c: Chat) {
    && c.texts.Keys == Pendings(c.rows) + c.withdrawn + c.promoted.Keys
    && Pendings(c.rows) !! c.withdrawn !! c.promoted.Keys
  }

  ghost predicate TextsKept(rows: seq<Message>, texts: map<string, string>) {
    forall m | m in rows && IsUnconfirmed(m) :: m.id in texts && m.content == texts[m.id]
  }

  /** Each promoted bubble's row has its text and is in the list, and no other bubble shares the row. */
  ghost predicate RowsForPromoted(promoted: map<string, Message>, texts: map<string, string>, settled: set<string>) {
    && Injective(promoted)
    && forall b | b in promoted ::
         promoted[b].role.User? && b in texts && promoted[b].content == texts[b] && promoted[b].id in settled
  }

  ghost predicate Inv(c: Chat) {
    && WellShaped(c.rows)
    && Partition(c)
    && TextsKept(c.rows, c.texts)
    && RowsForPromoted(c.promoted, c.texts, SettledIds(c.rows))
  }

  // ---------- Local list updates ----------

  lemma {:induction false} DropMembers(rows: seq<Message>, id: string)
    ensures forall m :: m in Drop(rows, id) <==> m in rows && m.id != id
  {
    if rows != [] {
      DropMembers(rows[1..], id);
      assert rows == [rows[0]] + rows[1..];
    }
  }

  lemma {:induction false} DropKeepsShape(rows: seq<Message>, id: string)
    requires WellShaped(rows)
    ensures WellShaped(Drop(rows, id))
  {
    if rows != [] {
      ShapeTail(rows);
      DropKeepsShape(rows[1..], id);
      DropMembers(rows[1..], id);
      if rows[0].id != id { ShapeCons(rows[0], Drop(rows[1..], id)); }
    }
  }

  lemma ShapeTail(rows: seq<Message>)
    requires WellShaped(rows) && rows != []
    ensures WellShaped(rows[1..]) && Proper(rows[0])
    ensures forall m | m in rows[1..] :: m.id != rows[0].id && Leq(OrderKey(rows[0]), OrderKey(m))
  {
    assert rows[0] in rows;
    forall m | m in rows[1..] ensures Proper(m) && m.id != rows[0].id && Leq(OrderKey(rows[0]), OrderKey(m)) {
      var j :| 0 <= j < |rows[1..]| && rows[1..][j] == m;
      assert rows[j + 1] == m;
    }
  }

  lemma ShapeCons(head: Message, rows: seq<Message>)
    requires WellShaped(rows) && Proper(head)
    requires forall m | m in rows :: m.id != head.id && Leq(OrderKey(head), OrderKey(m))
    ensures WellShaped([head] + rows)
  {
    forall j | 0 <= j < |rows| ensures rows[j].id != head.id && Leq(OrderKey(head), OrderKey(rows[j])) {
      assert rows[j] in rows;
    }
  }

  lemma AppendBubble(rows: seq<Message>, b: Message)
    requires WellShaped(rows) && Proper(b) && IsUnconfirmed(b) && b.id !in Ids(rows)
    ensures WellShaped(rows + [b])
    ensures Ids(rows + [b]) == Ids(rows) + {b.id}
  {
    forall i | 0 <= i < |rows| ensures rows[i].id != b.id {
      assert rows[i] in rows;
    }
  }

  lemma MarkKeepsShape(rows: seq<Message>, id: string, status: Status)
    requires WellShaped(rows) && IsOptimistic(id)
    requires status.Sent? || status.SteeringUncertain?
    ensures WellShaped(Mark(rows, id, status))
  {
    var r := Mark(rows, id, status);
    forall i | 0 <= i < |rows| ensures Proper(r[i]) && OrderKey(r[i]) == OrderKey(rows[i]) {
      assert rows[i] in rows;
    }
  }

  lemma MarkKeepsIds(rows: seq<Message>, id: string, status: Status)
    ensures Ids(Mark(rows, id, status)) == Ids(rows)
    ensures forall m | m in Mark(rows, id, status) ::
              exists o :: o in rows && o.id == m.id && o.content == m.content
  {
    var r := Mark(rows, id, status);
    forall m | m in r ensures exists o :: o in rows && o.id == m.id && o.content == m.content {
      var i :| 0 <= i < |r| && r[i] == m;
      assert rows[i] in rows;
    }
    forall o | o in rows ensures o.id in Ids(r) {
      var i :| 0 <= i < |rows| && rows[i] == o;
      assert r[i] in r;
    }
  }

  // ---------- Promotion, row by row ----------

  ghost predicate ProperRows(rows: seq<Message>) { forall m | m in rows :: Proper(m) }

  lemma IndexKeys(w: Working)
    requires Indexed(w)
    ensures w.index.Keys == Ids(w.rows)
  {
    forall id | id in w.index ensures id in Ids(w.rows) { assert w.rows[w.index[id]] in w.rows; }
  }

  ghost predicate ServerRow(row: Message) { row.order.Some? && !IsOptimistic(row.id) }

  /** Placing one server row adds its id; if it claims a bubble, that bubble's id goes. */
  lemma PlaceKeepsShape(w: Working, row: Message)
    requires Indexed(w) && ProperRows(w.rows) && ServerRow(row)
    ensures Indexed(Place(w, row)) && ProperRows(Place(w, row).rows)
    ensures forall m | m in Place(w, row).rows && IsUnconfirmed(m) :: m in w.rows
  {
    PlaceIndexed(w, row);
    forall m | m in Place(w, row).rows ensures m == Confirm(row) || m in w.rows {}
  }

  lemma PlaceIds(w: Working, row: Message)
    requires Indexed(w)
    ensures Claims(w, row) ==>
              var b := w.rows[BubbleFor(w.rows, row).value];
              && b in w.rows && Claimable(b, row.content) && row.role.User? && row.id !in Ids(w.rows)
              && Ids(Place(w, row).rows) == Ids(w.rows) - {b.id} + {row.id}
    ensures !Claims(w, row) ==> Ids(Place(w, row).rows) == Ids(w.rows) + {row.id}
  {
    PlaceIndexed(w, row);
    IndexKeys(w);
    IndexKeys(Place(w, row));
    if row.id in w.index {
      assert Place(w, row).index == w.index;
    }
  }

  ghost predicate PromotesFrom(rows: seq<Message>, batch: seq<Message>, b: string, row: Message) {
    && row in batch && row.role.User? && row.id !in Ids(rows)
    && exists m :: m in rows && m.id == b && Claimable(m, row.content)
  }

  lemma PromotesFromLater(w: Working, batch: seq<Message>, b: string, row: Message)
    requires Indexed(w) && ProperRows(w.rows) && batch != [] && ServerRow(batch[0]) && ServerRow(row)
    requires PromotesFrom(Place(w, batch[0]).rows, batch[1..], b, row)
    ensures PromotesFrom(w.rows, batch, b, row)
    ensures row.id != batch[0].id && b in Pendings(w.rows)
    ensures Claims(w, batch[0]) ==> b != w.rows[BubbleFor(w.rows, batch[0]).value].id
  {
    PlaceKeepsShape(w, batch[0]);
    PlaceIds(w, batch[0]);
    var m :| m in Place(w, batch[0]).rows && m.id == b && Claimable(m, row.content);
    assert m.id in Ids(Place(w, batch[0]).rows);
    assert batch == [batch[0]] + batch[1..];
  }

  lemma {:induction false} BatchKeepsShape(w: Working, batch: seq<Message>)
    requires Indexed(w) && ProperRows(w.rows)
    requires forall m | m in batch :: ServerRow(m)
    ensures Indexed(PlaceAll(w, batch)) && ProperRows(PlaceAll(w, batch).rows)
    ensures forall m | m in PlaceAll(w, batch).rows && IsUnconfirmed(m) :: m in w.rows
    decreases |batch|
  {
    if batch != [] {
      PlaceKeepsShape(w, batch[0]);
      BatchKeepsShape(Place(w, batch[0]), batch[1..]);
    }
  }

  /** Every promotion takes a bubble with the row's text, and no row takes two. */
  lemma {:induction false} PromotionsMatch(w: Working, batch: seq<Message>)
    requires Indexed(w) && ProperRows(w.rows)
    requires forall m | m in batch :: ServerRow(m)
    ensures Injective(Promotions(w, batch))
    ensures forall b | b in Promotions(w, batch) ::
              b in Pendings(w.rows) && PromotesFrom(w.rows, batch, b, Promotions(w, batch)[b])
    decreases |batch|
  {
    if batch != [] {
      var row, rest, next := batch[0], batch[1..], Place(w, batch[0]);
      PlaceKeepsShape(w, row);
      PromotionsMatch(next, rest);
      var later := Promotions(next, rest);
      forall b | b in later
        ensures PromotesFrom(w.rows, batch, b, later[b]) && later[b].id != row.id && b in Pendings(w.rows)
        ensures Claims(w, row) ==> b != w.rows[BubbleFor(w.rows, row).value].id
      {
        PromotesFromLater(w, batch, b, later[b]);
      }
      if Claims(w, row) {
        PlaceIds(w, row);
        var claimed := w.rows[BubbleFor(w.rows, row).value];
        assert PromotesFrom(w.rows, batch, claimed.id, row);
      }
    }
  }

  /** A batch adds its ids and removes exactly the ids of the promoted bubbles. */
  lemma {:induction false} BatchIds(w: Working, batch: seq<Message>)
    requires Indexed(w) && ProperRows(w.rows)
    requires forall m | m in batch :: ServerRow(m)
    ensures Ids(PlaceAll(w, batch).rows) == Ids(w.rows) - Promotions(w, batch).Keys + Ids(batch)
    decreases |batch|
  {
    if batch == [] {
      assert Ids(batch) == {};
    } else {
      var row, rest, next := batch[0], batch[1..], Place(w, batch[0]);
      assert batch == [row] + rest;
      assert Ids(batch) == {row.id} + Ids(rest);
      PlaceKeepsShape(w, row);
      BatchIds(next, rest);
      assert row.id !in Promotions(next, rest).Keys by { PromotionsMatch(next, rest); }
      FirstRowIds(w, batch);
    }
  }

  lemma FirstRowIds(w: Working, batch: seq<Message>)
    requires Indexed(w) && batch != []
    requires batch[0].id !in Promotions(Place(w, batch[0]), batch[1..]).Keys
    ensures var row, rest, next := batch[0], batch[1..], Place(w, batch[0]);
            Ids(next.rows) - Promotions(next, rest).Keys + Ids(rest)
            == Ids(w.rows) - Promotions(w, batch).Keys + ({row.id} + Ids(rest))
  {
    var row, rest, next := batch[0], batch[1..], Place(w, batch[0]);
    var later := Promotions(next, rest).Keys;
    PlaceIds(w, row);
    if Claims(w, row) {
      var b := w.rows[BubbleFor(w.rows, row).value].id;
      assert Promotions(w, batch).Keys == later + {b};
      SwapFirst(Ids(w.rows), {b}, row.id, later, Ids(rest));
    } else {
      SwapFirst(Ids(w.rows), {}, row.id, later, Ids(rest));
    }
  }

  lemma SwapFirst(ids: set<string>, gone: set<string>, row: string, later: set<string>, rest: set<string>)
    requires row !in later
    ensures ids - gone + {row} - later + rest == ids - (later + gone) + ({row} + rest)
  {
  }

  // ---------- Every step keeps the invariant ----------

  lemma RefetchShape(rows: seq<Message>, batch: seq<Message>)
    requires WellShaped(rows)
    requires forall m | m in batch :: ServerRow(m)
    ensures var r, p := AppendUnique(rows, batch), Promotions(Start(rows), batch);
            && WellShaped(r)
            && Ids(r) == Ids(rows) - p.Keys + Ids(batch)
            && forall m | m in r && IsUnconfirmed(m) :: m in rows
  {
    StartIndexed(rows);
    BatchKeepsShape(Start(rows), batch);
    BatchIds(Start(rows), batch);
    if batch != [] { MergeShape(rows, batch); }
  }

  lemma RefetchIds(rows: seq<Message>, batch: seq<Message>)
    requires WellShaped(rows)
    requires forall m | m in batch :: ServerRow(m)
    ensures var r, p := AppendUnique(rows, batch), Promotions(Start(rows), batch);
            && Pendings(r) == Pendings(rows) - p.Keys
            && SettledIds(r) == SettledIds(rows) + Ids(batch)
            && p.Keys <= Pendings(rows)
  {
    StartIndexed(rows);
    RefetchShape(rows, batch);
    PromotionsMatch(Start(rows), batch);
    assert forall id | id in Ids(batch) :: !IsOptimistic(id);
  }

  lemma PromotedJoin(c: Chat, p: map<string, Message>, batch: seq<Message>)
    requires Inv(c) && Injective(p) && p.Keys <= Pendings(c.rows)
    requires forall m | m in batch :: ServerRow(m)
    requires forall b | b in p :: PromotesFrom(c.rows, batch, b, p[b])
    ensures RowsForPromoted(c.promoted + p, c.texts, SettledIds(c.rows) + Ids(batch))
  {
    forall b | b in p ensures b in c.texts && p[b].content == c.texts[b] && p[b].role.User? && p[b].id in Ids(batch) {
      var m :| m in c.rows && m.id == b && Claimable(m, p[b].content);
    }
  }

  lemma RefetchKeeps(c: Chat, batch: seq<Message>)
    requires Inv(c) && Enabled(c, Refetch(batch))
    ensures Inv(Apply(c, Refetch(batch)))
    ensures SettledIds(Apply(c, Refetch(batch)).rows) == SettledIds(c.rows) + Ids(batch)
  {
    var p, r := Promotions(Start(c.rows), batch), AppendUnique(c.rows, batch);
    assert forall m | m in batch :: ServerRow(m);
    RefetchIds(c.rows, batch);
    assert WellShaped(r) && TextsKept(r, c.texts) by {
      RefetchShape(c.rows, batch);
    }
    assert RowsForPromoted(c.promoted + p, c.texts, SettledIds(c.rows) + Ids(batch)) by {
      StartIndexed(c.rows);
      PromotionsMatch(Start(c.rows), batch);
      PromotedJoin(c, p, batch);
    }
    RefetchPartition(c, batch);
  }

  lemma RefetchPartition(c: Chat, batch: seq<Message>)
    requires Inv(c) && forall m | m in batch :: ServerRow(m)
    ensures Partition(Apply(c, Refetch(batch)))
  {
    RefetchIds(c.rows, batch);
  }

  lemma LaunchKeeps(c: Chat, b: Message)
    requires Inv(c) && Proper(b) && IsUnconfirmed(b) && b.id !in c.texts
    ensures Inv(Chat(c.rows + [b], c.texts[b.id := b.content], c.withdrawn, c.promoted))
    ensures SettledIds(c.rows + [b]) == SettledIds(c.rows)
  {
    assert b.id !in Ids(c.rows) by { assert b.id !in Pendings(c.rows); }
    AppendBubble(c.rows, b);
    assert Pendings(c.rows + [b]) == Pendings(c.rows) + {b.id};
  }

  lemma MarkKeeps(c: Chat, id: string, status: Status)
    requires Inv(c) && IsOptimistic(id)
    requires status.Sent? || status.SteeringUncertain?
    ensures Inv(c.(rows := Mark(c.rows, id, status)))
    ensures SettledIds(Mark(c.rows, id, status)) == SettledIds(c.rows)
  {
    MarkKeepsShape(c.rows, id, status);
    MarkKeepsIds(c.rows, id, status);
    forall m | m in Mark(c.rows, id, status) && IsUnconfirmed(m)
      ensures m.id in c.texts && m.content == c.texts[m.id]
    {
      var o :| o in c.rows && o.id == m.id && o.content == m.content;
    }
  }

  lemma WithdrawKeeps(c: Chat, id: string)
    requires Inv(c) && IsOptimistic(id)
    ensures Inv(Apply(c, Withdraw(id)))
    ensures SettledIds(Apply(c, Withdraw(id)).rows) == SettledIds(c.rows)
  {
    DropMembers(c.rows, id);
    DropKeepsShape(c.rows, id);
    assert Ids(Drop(c.rows, id)) == Ids(c.rows) - {id};
    assert Pendings(Drop(c.rows, id)) == Pendings(c.rows) - {id};
  }

  /** All bubbles ever shown carry optimistic ids. */
  ghost predicate BubbleIds(c: Chat) { forall id | id in c.texts :: IsOptimistic(id) }

  lemma StepKeeps(c: Chat, step: Step)
    requires Inv(c) && BubbleIds(c) && Enabled(c, step)
    ensures Inv(Apply(c, step)) && BubbleIds(Apply(c, step))
    ensures SettledIds(c.rows) <= SettledIds(Apply(c, step).rows)
    ensures c.promoted.Keys <= Apply(c, step).promoted.Keys && c.withdrawn <= Apply(c, step).withdrawn
  {
    match step
    case Launch(id, content, extra) => LaunchKeeps(c, Bubble(id, content, Pending, extra));
    case Steer(id, content, extra) => LaunchKeeps(c, Bubble(id, content, Steering, extra));
    case MarkSent(id) => MarkKeeps(c, id, Sent);
    case MarkUncertain(id) => MarkKeeps(c, id, SteeringUncertain);
    case Withdraw(id) => WithdrawKeeps(c, id);
    case Refetch(batch) => RefetchKeeps(c, batch);
  }

  // ---------- Whole runs ----------

  ghost predicate Legal(c: Chat, steps: seq<Step>)
    decreases |steps|
  {
    steps == [] || (Enabled(c, steps[0]) && Legal(Apply(c, steps[0]), steps[1..]))
  }

  function Run(c: Chat, steps: seq<Step>): Chat
    decreases |steps|
  {
    if steps == [] then c else Run(Apply(c, steps[0]), steps[1..])
  }

  /** A freshly loaded page of server rows. */
  ghost predicate Loaded(c: Chat) {
    && WellShaped(c.rows)
    && (forall m | m in c.rows :: !IsUnconfirmed(m))
    && c.texts == map[] && c.withdrawn == {} && c.promoted == map[]
  }

  lemma {:induction false} RunsKeep(c: Chat, steps: seq<Step>)
    requires Inv(c) && BubbleIds(c) && Legal(c, steps)
    ensures Inv(Run(c, steps)) && BubbleIds(Run(c, steps))
    ensures SettledIds(c.rows) <= SettledIds(Run(c, steps).rows)
    ensures c.promoted.Keys <= Run(c, steps).promoted.Keys && c.withdrawn <= Run(c, steps).withdrawn
    decreases |steps|
  {
    if steps != [] {
      StepKeeps(c, steps[0]);
      RunsKeep(Apply(c, steps[0]), steps[1..]);
    }
  }

  lemma {:induction false} RunConcat(c: Chat, a: seq<Step>, b: seq<Step>)
    requires Legal(c, a + b)
    ensures Legal(c, a) && Legal(Run(c, a), b) && Run(c, a + b) == Run(Run(c, a), b)
    decreases |a|
  {
    if a == [] {
      assert a + b == b;
    } else {
      assert (a + b)[1..] == a[1..] + b;
      RunConcat(Apply(c, a[0]), a[1..], b);
    }
  }

  lemma LoadedIsSafe(c: Chat)
    requires Loaded(c)
    ensures Inv(c) && BubbleIds(c)
  {
    assert Pendings(c.rows) == {};
  }

  /** Along every run from a loaded page: ids stay distinct, the list stays ordered by seq with the
      bubbles last, and a row that is confirmed at some moment is confirmed at every later moment. */
  lemma ChatIsSafe(c: Chat, before: seq<Step>, after: seq<Step>)
    requires Loaded(c) && Legal(c, before + after)
    ensures var mid, end := Run(c, before), Run(c, before + after);
            && DistinctIds(end.rows) && Sorted(end.rows, OrderKey)
            && (forall m | m in end.rows :: IsUnconfirmed(m) <==> m.order.None?)
            && forall m | m in mid.rows && !IsUnconfirmed(m) ::
                 exists kept :: kept in end.rows && kept.id == m.id && !IsUnconfirmed(kept)
  {
    LoadedIsSafe(c);
    RunConcat(c, before, after);
    RunsKeep(c, before);
    RunsKeep(Run(c, before), after);
    var mid, end := Run(c, before), Run(c, before + after);
    forall m | m in mid.rows && !IsUnconfirmed(m)
      ensures exists kept :: kept in end.rows && kept.id == m.id && !IsUnconfirmed(kept)
    {
      assert Proper(m) && m.id in SettledIds(mid.rows);
      var kept :| kept in end.rows && kept.id == m.id;
      assert Proper(kept);
    }
  }

  /** No bubble disappears and none is doubled: at the end of every run a bubble that was ever shown is
      in exactly one of three states. Either it still waits in the list with its text, or it was
      withdrawn, or a server row with its text took its place, stays in the list, and took no other. */
  lemma NoBubbleDisappears(c: Chat, steps: seq<Step>, id: string)
    requires Loaded(c) && Legal(c, steps) && id in Run(c, steps).texts
    ensures var end := Run(c, steps);
            var waiting := exists m :: m in end.rows && m.id == id && IsUnconfirmed(m) && m.content == end.texts[id];
            && (waiting || id in end.withdrawn || id in end.promoted)
            && !(waiting && id in end.withdrawn) && !(waiting && id in end.promoted)
            && !(id in end.withdrawn && id in end.promoted)
            && (id in end.promoted ==>
                  && end.promoted[id].content == end.texts[id]
                  && (exists m :: m in end.rows && m.id == end.promoted[id].id && !IsUnconfirmed(m))
                  && forall other | other in end.promoted && other != id ::
                       end.promoted[other].id != end.promoted[id].id)
  {
    LoadedIsSafe(c);
    RunsKeep(c, steps);
    var end := Run(c, steps);
    if id in Pendings(end.rows) {
      var m :| m in end.rows && m.id == id;
      assert Proper(m);
    }
    if id in end.promoted {
      var m :| m in end.rows && m.id == end.promoted[id].id;
      assert Proper(m);
    }
    forall m | m in end.rows && m.id == id && IsUnconfirmed(m) ensures id in Pendings(end.rows) {
      assert Proper(m);
    }
  }

  /** Once a bubble has been promoted or withdrawn, the updates of its own request find nothing. */
  lemma LateOutcomesMiss(c: Chat, steps: seq<Step>, id: string)
    requires Loaded(c) && Legal(c, steps) && id in Run(c, steps).texts
    requires id in Run(c, steps).promoted || id in Run(c, steps).withdrawn
    ensures var end := Run(c, steps);
            && Mark(end.rows, id, Sent) == end.rows
            && Mark(end.rows, id, SteeringUncertain) == end.rows
            && Drop(end.rows, id) == end.rows
  {
    assert Inv(Run(c, steps)) && BubbleIds(Run(c, steps)) by {
      LoadedIsSafe(c);
      RunsKeep(c, steps);
    }
    GoneFromList(Run(c, steps), id);
    NothingToChange(Run(c, steps).rows, id);
  }

  lemma GoneFromList(c: Chat, id: string)
    requires Inv(c) && BubbleIds(c) && id in c.texts && (id in c.promoted || id in c.withdrawn)
    ensures id !in Ids(c.rows)
  {
    assert id !in Pendings(c.rows);
  }

  lemma NothingToChange(rows: seq<Message>, id: string)
    requires id !in Ids(rows)
    ensures Mark(rows, id, Sent) == rows && Mark(rows, id, SteeringUncertain) == rows && Drop(rows, id) == rows
  {
    forall i | 0 <= i < |rows| ensures rows[i].id != id { assert rows[i] in rows; }
    DropNothing(rows, id);
  }

  lemma {:induction false} DropNothing(rows: seq<Message>, id: string)
    requires forall i | 0 <= i < |rows| :: rows[i].id != id
    ensures Drop(rows, id) == rows
  {
    if rows != [] { DropNothing(rows[1..], id); }
  }
}
