/** When the loaded rows also have the contents of the server's rows, which it rewrites in place. */
module RefetchContents {
  import opened Options
  import opened Messages
  import opened MessageAccounting
  import opened ChatRuns
  import opened Refetch
  import opened RefetchRaces

  /** The row with this id, if there is one. */
  function Row(table: seq<Message>, id: string): (r: Option<Message>)
    ensures r.Some? ==> r.value in table && r.value.id == id
    ensures r.None? ==> forall m | m in table :: m.id != id
  {
    if table == [] then None else if table[0].id == id then Some(table[0]) else Row(table[1..], id)
  }

  /** The version of row `id` in the answer that last delivered it. */
  function Delivered(t: Thread, id: string): Option<Message> {
    if id in t.from && t.from[id] < |t.answers| then Row(t.answers[t.from[id]], id) else None
  }

  /** The server's row is as that answer had it. */
  predicate Unchanged(t: Thread, id: string) { Delivered(t, id) == Row(t.table, id) }

  /** The server has rewritten the row since that answer. */
  predicate RewrittenSince(t: Thread, id: string) {
    id in t.from && id in t.rewrites && t.from[id] < t.rewrites[id]
  }

  /** The list holds the server's version of row `m`. */
  predicate Holds(t: Thread, m: Message) {
    Row(t.table, m.id).Some? && Confirm(Row(t.table, m.id).value) == Confirm(m)
  }

  /** Every loaded row has the contents of the server's row. */
  ghost predicate Current(t: Thread) { forall m | m in ConfirmedRows(t.chat.rows) :: Holds(t, m) }

  // ---------- The history of a thread ----------

  /** A loaded row is, but for its status, the version that was last delivered. */
  ghost predicate Sourced(t: Thread, m: Message) {
    Delivered(t, m.id).Some? && Confirm(Delivered(t, m.id).value) == Confirm(m)
  }

  /** Rows of an answer still exist, and are as they were if they were not rewritten since. */
  ghost predicate Remembers(t: Thread, n: nat, id: string)
    requires n < |t.answers|
  {
    var was, now := Row(t.answers[n], id), Row(t.table, id);
    was.Some? ==> now.Some? && ((id in t.rewrites && n < t.rewrites[id]) || was == now)
  }

  ghost predicate FromAnswer(t: Thread, r: Request) {
    r.Answered? ==> r.answer < |t.answers| && forall x | x in r.rows :: Row(t.answers[r.answer], x.id) == Some(x)
  }

  ghost predicate Recorded(t: Thread) {
    && Table(t.table) && Inv(t.chat) && BubbleIds(t.chat)
    && (forall n: nat | n < |t.answers| :: Table(t.answers[n]))
    && (forall n: nat, id | n < |t.answers| :: Remembers(t, n, id))
    && (forall id | id in t.rewrites :: t.rewrites[id] <= |t.answers|)
    && (forall r | r in t.requests :: FromAnswer(t, r))
    && forall m | m in ConfirmedRows(t.chat.rows) :: Sourced(t, m)
  }

  lemma {:induction false} RowOfMember(table: seq<Message>, m: Message)
    requires DistinctIds(table) && m in table
    ensures Row(table, m.id) == Some(m)
  {
    if table[0] != m {
      assert m in table[1..];
      var i :| 0 <= i < |table[1..]| && table[1..][i] == m;
      assert table[i + 1].id != table[0].id;
      RowOfMember(table[1..], m);
    }
  }

  lemma {:induction false} RowAfterStore(table: seq<Message>, row: Message, id: string)
    requires forall r | r in table :: r.id != row.id
    ensures Row(table + [row], id) == if id == row.id then Some(row) else Row(table, id)
  {
    if table == [] {
      assert [row][1..] == [];
    } else {
      assert (table + [row])[1..] == table[1..] + [row];
      RowAfterStore(table[1..], row, id);
    }
  }

  lemma {:induction false} RowAfterRewrite(table: seq<Message>, k: nat, row: Message, id: string)
    requires DistinctIds(table) && k < |table| && row.id == table[k].id
    ensures Row(table[k := row], id) == if id == row.id then Some(row) else Row(table, id)
  {
    if k == 0 {
      assert table[k := row][1..] == table[1..];
    } else {
      assert table[k := row][1..] == table[1..][k - 1 := row];
      assert table[0].id != table[k].id;
      RowAfterRewrite(table[1..], k - 1, row, id);
    }
  }

  lemma {:induction false} ConfirmedMembers(rows: seq<Message>, m: Message)
    ensures m in ConfirmedRows(rows) <==> m in rows && !IsUnconfirmed(m)
  {
    if rows != [] {
      ConfirmedMembers(rows[1..], m);
      assert rows == [rows[0]] + rows[1..];
    }
  }

  lemma {:induction false} NewerMembers(table: seq<Message>, anchor: int, m: Message)
    ensures m in Newer(table, anchor) ==> m in table && m.order.Some? && m.order.value > anchor
  {
    if table != [] { NewerMembers(table[1..], anchor, m); }
  }

  lemma ResponseMembers(table: seq<Message>, anchor: Option<int>, m: Message)
    requires m in Respond(table, anchor)
    ensures m in table && (anchor.Some? ==> m.order.Some? && m.order.value > anchor.value)
  {
    if anchor.Some? {
      assert m in Newer(table, anchor.value);
      NewerMembers(table, anchor.value, m);
    }
  }

  // ---------- Every event keeps the history right ----------

  lemma StoreRecorded(t: Thread, row: Message)
    requires Recorded(t) && Possible(t, Store(row))
    ensures Recorded(Next(t, Store(row)))
  {
    var next := Next(t, Store(row));
    StoredTable(t.table, row);
    forall n: nat, id | n < |t.answers| ensures Remembers(next, n, id) {
      assert Remembers(t, n, id);
      RowAfterStore(t.table, row, id);
    }
    SameDeliveries(t, next);
  }

  lemma RewriteRecorded(t: Thread, k: nat, row: Message)
    requires Recorded(t) && Possible(t, Rewrite(k, row))
    ensures Recorded(Next(t, Rewrite(k, row)))
  {
    var next := Next(t, Rewrite(k, row));
    RewrittenTable(t.table, k, row);
    forall n: nat, id | n < |t.answers| ensures Remembers(next, n, id) {
      assert Remembers(t, n, id);
      RowAfterRewrite(t.table, k, row, id);
    }
    SameDeliveries(t, next);
  }

  /** Without an answer or a landing, what was delivered stays as it was. */
  lemma SameDeliveries(t: Thread, next: Thread)
    requires Recorded(t) && next.answers == t.answers && next.from == t.from && next.requests == t.requests
    requires ConfirmedRows(next.chat.rows) == ConfirmedRows(t.chat.rows)
    ensures forall r | r in next.requests :: FromAnswer(next, r)
    ensures forall m | m in ConfirmedRows(next.chat.rows) :: Sourced(next, m)
  {
    forall r | r in next.requests ensures FromAnswer(next, r) { assert FromAnswer(t, r); }
    forall m | m in ConfirmedRows(next.chat.rows) ensures Sourced(next, m) { assert Sourced(t, m); }
  }

  lemma LocalRecorded(t: Thread, step: Step)
    requires Recorded(t) && Possible(t, Local(step))
    ensures Recorded(Next(t, Local(step)))
  {
    var next := Next(t, Local(step));
    StepKeeps(t.chat, step);
    LocalStepsKeepConfirmed(t.chat, step);
    forall n: nat, id | n < |t.answers| ensures Remembers(next, n, id) { assert Remembers(t, n, id); }
    SameDeliveries(t, next);
  }

  lemma AskRecorded(t: Thread)
    requires Recorded(t)
    ensures Recorded(Next(t, Ask))
  {
    var next := Next(t, Ask);
    forall n: nat, id | n < |t.answers| ensures Remembers(next, n, id) { assert Remembers(t, n, id); }
    forall r | r in next.requests ensures FromAnswer(next, r) {
      if r in t.requests { assert FromAnswer(t, r); }
    }
    forall m | m in ConfirmedRows(next.chat.rows) ensures Sourced(next, m) { assert Sourced(t, m); }
  }

  lemma AnswerRecorded(t: Thread, at: nat)
    requires Recorded(t) && Possible(t, Answer(at))
    ensures Recorded(Next(t, Answer(at)))
  {
    var next := Next(t, Answer(at));
    forall n: nat, id | n < |next.answers| ensures Remembers(next, n, id) {
      if n < |t.answers| { assert Remembers(t, n, id); }
    }
    forall r | r in next.requests ensures FromAnswer(next, r) {
      if r in t.requests { assert FromAnswer(t, r); } else { NewAnswer(t, at); }
    }
    forall m | m in ConfirmedRows(next.chat.rows) ensures Sourced(next, m) { assert Sourced(t, m); }
  }

  lemma NewAnswer(t: Thread, at: nat)
    requires Table(t.table) && Possible(t, Answer(at))
    ensures FromAnswer(Next(t, Answer(at)), Next(t, Answer(at)).requests[at])
  {
    var anchor := t.requests[at].anchor;
    forall x | x in Respond(t.table, anchor) ensures Row(t.table, x.id) == Some(x) {
      ResponseMembers(t.table, anchor, x);
      RowOfMember(t.table, x);
    }
  }

  lemma AnsweredRows(t: Thread, at: nat)
    requires Recorded(t) && Possible(t, Land(at))
    ensures t.requests[at].answer < |t.answers|
    ensures forall x | x in t.requests[at].rows ::
              ServerRow(x) && Row(t.answers[t.requests[at].answer], x.id) == Some(x)
  {
    assert FromAnswer(t, t.requests[at]) by { assert t.requests[at] in t.requests; }
  }

  lemma LandRecorded(t: Thread, at: nat)
    requires Recorded(t) && Possible(t, Land(at))
    ensures Recorded(Next(t, Land(at)))
  {
    var next := Next(t, Land(at));
    AnsweredRows(t, at);
    StepKeeps(t.chat, ChatRuns.Refetch(t.requests[at].rows));
    forall n: nat, id | n < |t.answers| ensures Remembers(next, n, id) { assert Remembers(t, n, id); }
    forall r | r in next.requests ensures FromAnswer(next, r) {
      if r in t.requests { assert FromAnswer(t, r); }
    }
    forall m | m in ConfirmedRows(next.chat.rows) ensures Sourced(next, m) { LandedRowSourced(t, at, m); }
  }

  /** After a landing a loaded row is the delivered version, or the old one if it was not delivered. */
  lemma LandedRowSourced(t: Thread, at: nat, m: Message)
    requires Recorded(t) && Possible(t, Land(at)) && m in ConfirmedRows(Next(t, Land(at)).chat.rows)
    ensures Sourced(Next(t, Land(at)), m)
  {
    var rows := t.requests[at].rows;
    LandedList(t, at);
    MergedRow(t.chat.rows, rows, m);
    if m.id in Ids(rows) { NewlySourced(t, at, m); } else { StillSourced(t, at, m); }
  }

  lemma NewlySourced(t: Thread, at: nat, m: Message)
    requires Recorded(t) && Possible(t, Land(at)) && m.id in Ids(t.requests[at].rows)
    requires exists x :: x in t.requests[at].rows && x.id == m.id && m == Confirm(x)
    ensures Sourced(Next(t, Land(at)), m)
  {
    AnsweredRows(t, at);
    assert Next(t, Land(at)).from[m.id] == t.requests[at].answer;
  }

  lemma StillSourced(t: Thread, at: nat, m: Message)
    requires Recorded(t) && Possible(t, Land(at)) && m.id !in Ids(t.requests[at].rows)
    requires m in ConfirmedRows(t.chat.rows)
    ensures Sourced(Next(t, Land(at)), m)
  {
    assert Sourced(t, m);
    assert m.id in t.from && Next(t, Land(at)).from[m.id] == t.from[m.id];
  }

  lemma MergedRow(prev: seq<Message>, batch: seq<Message>, m: Message)
    requires DistinctIds(prev) && m in ConfirmedRows(AppendUnique(prev, batch))
    ensures if m.id in Ids(batch) then exists x :: x in batch && x.id == m.id && m == Confirm(x)
            else m in ConfirmedRows(prev)
  {
    ConfirmedMembers(AppendUnique(prev, batch), m);
    ConfirmedMembers(prev, m);
    if batch != [] { MergedVersion(prev, batch, m); }
  }

  lemma MergedVersion(prev: seq<Message>, batch: seq<Message>, m: Message)
    requires DistinctIds(prev) && batch != [] && m in AppendUnique(prev, batch)
    ensures if m.id in Ids(batch) then exists x :: x in batch && x.id == m.id && m == Confirm(x) else m in prev
  {
    MergeAccountsForEveryRow(prev, batch);
    if m.id in Ids(batch) { assert LastVersion(batch, m.id) in batch; }
  }

  lemma EventRecorded(t: Thread, e: Event)
    requires Recorded(t) && Possible(t, e)
    ensures Recorded(Next(t, e))
  {
    match e
    case Store(row) => StoreRecorded(t, row);
    case Rewrite(k, row) => RewriteRecorded(t, k, row);
    case Local(step) => LocalRecorded(t, step);
    case Ask => AskRecorded(t);
    case Answer(at) => AnswerRecorded(t, at);
    case Land(at) => LandRecorded(t, at);
  }

  lemma {:induction false} RunRecorded(t: Thread, events: seq<Event>)
    requires Recorded(t) && PossibleRun(t, events)
    ensures Recorded(Play(t, events))
    decreases |events|
  {
    if events != [] {
      EventRecorded(t, events[0]);
      RunRecorded(Next(t, events[0]), events[1..]);
    }
  }

  /** Nothing loaded, asked or answered yet. */
  ghost predicate Fresh(t: Thread) {
    && Table(t.table) && Inv(t.chat) && BubbleIds(t.chat)
    && ConfirmedRows(t.chat.rows) == []
    && t.requests == [] && t.answers == [] && t.rewrites == map[]
  }

  // ---------- Contents ----------

  lemma RowHeldIffUnchanged(t: Thread, m: Message)
    requires Recorded(t) && m in ConfirmedRows(t.chat.rows)
    ensures Holds(t, m) <==> Unchanged(t, m.id)
  {
    assert Sourced(t, m);
    var n := t.from[m.id];
    assert Remembers(t, n, m.id) && Table(t.answers[n]);
    SameVersion(t.answers[n], t.table, Row(t.answers[n], m.id).value, Row(t.table, m.id).value);
  }

  lemma SameVersion(was: seq<Message>, now: seq<Message>, x: Message, y: Message)
    requires Table(was) && Table(now) && x in was && y in now
    ensures Confirm(x) == Confirm(y) <==> x == y
  {
  }

  /** At every moment of every run the loaded rows have the server's contents if and only if each of them is
      unchanged since the answer that last delivered it. */
  lemma CurrentIffUnchanged(t: Thread, events: seq<Event>)
    requires Recorded(t) && PossibleRun(t, events)
    ensures var end := Play(t, events);
            Current(end) <==> forall m | m in ConfirmedRows(end.chat.rows) :: Unchanged(end, m.id)
  {
    RunRecorded(t, events);
    var end := Play(t, events);
    forall m | m in ConfirmedRows(end.chat.rows) ensures Holds(end, m) <==> Unchanged(end, m.id) {
      RowHeldIffUnchanged(end, m);
    }
  }

  // ---------- Rewritten rows ----------

  lemma NotRewrittenIsUnchanged(t: Thread, m: Message)
    requires Recorded(t) && m in ConfirmedRows(t.chat.rows) && !RewrittenSince(t, m.id)
    ensures Unchanged(t, m.id)
  {
    assert Sourced(t, m);
    assert Remembers(t, t.from[m.id], m.id);
  }

  /** The row differs from every version of it that an answer was given from. */
  ghost predicate IsNew(t: Thread, row: Message) {
    forall n: nat | n < |t.answers| :: Row(t.answers[n], row.id) != Some(row)
  }

  ghost predicate EveryRewriteIsNew(t: Thread, events: seq<Event>)
    requires PossibleRun(t, events)
    decreases |events|
  {
    events == [] ||
    ((events[0].Rewrite? ==> IsNew(t, events[0].row)) && EveryRewriteIsNew(Next(t, events[0]), events[1..]))
  }

  /** No rewrite has brought an answered version back. */
  ghost predicate Moved(t: Thread, n: nat, id: string)
    requires n < |t.answers|
  {
    id in t.rewrites && n < t.rewrites[id] && Row(t.answers[n], id).Some? ==> Row(t.answers[n], id) != Row(t.table, id)
  }

  ghost predicate MovedOn(t: Thread) { forall n: nat, id | n < |t.answers| :: Moved(t, n, id) }

  lemma EventMovesOn(t: Thread, e: Event)
    requires Recorded(t) && MovedOn(t) && Possible(t, e) && (e.Rewrite? ==> IsNew(t, e.row))
    ensures MovedOn(Next(t, e))
  {
    var next := Next(t, e);
    forall n: nat, id | n < |next.answers| ensures Moved(next, n, id) {
      if n < |t.answers| {
        assert Moved(t, n, id) && Remembers(t, n, id);
        if e.Store? { RowAfterStore(t.table, e.row, id); }
        if e.Rewrite? { RowAfterRewrite(t.table, e.position, e.row, id); }
      }
    }
  }

  lemma {:induction false} RunMovesOn(t: Thread, events: seq<Event>)
    requires Recorded(t) && MovedOn(t) && PossibleRun(t, events) && EveryRewriteIsNew(t, events)
    ensures MovedOn(Play(t, events))
    decreases |events|
  {
    if events != [] {
      EventRecorded(t, events[0]);
      EventMovesOn(t, events[0]);
      RunMovesOn(Next(t, events[0]), events[1..]);
    }
  }

  /** If no rewrite brings back a version that was answered before: at every moment of every run the loaded
      rows have the server's contents if and only if none of them was rewritten since the answer that last
      delivered it. */
  lemma CurrentIffNotRewritten(t: Thread, events: seq<Event>)
    requires Recorded(t) && MovedOn(t) && PossibleRun(t, events) && EveryRewriteIsNew(t, events)
    ensures var end := Play(t, events);
            Current(end) <==> forall m | m in ConfirmedRows(end.chat.rows) :: !RewrittenSince(end, m.id)
  {
    CurrentIffUnchanged(t, events);
    RunRecorded(t, events);
    RunMovesOn(t, events);
    var end := Play(t, events);
    forall m | m in ConfirmedRows(end.chat.rows) ensures Unchanged(end, m.id) <==> !RewrittenSince(end, m.id) {
      UnchangedIffNotRewritten(end, m);
    }
  }

  lemma UnchangedIffNotRewritten(t: Thread, m: Message)
    requires Recorded(t) && MovedOn(t) && m in ConfirmedRows(t.chat.rows)
    ensures Unchanged(t, m.id) <==> !RewrittenSince(t, m.id)
  {
    assert Sourced(t, m);
    assert Moved(t, t.from[m.id], m.id);
    if !RewrittenSince(t, m.id) { NotRewrittenIsUnchanged(t, m); }
  }

  /** From a fresh thread nothing has to be assumed about what was delivered before. */
  lemma FreshIsRecorded(t: Thread)
    requires Fresh(t)
    ensures Recorded(t) && MovedOn(t) && Gapless(t, |t.table|, |t.table|)
  {
    var n := |t.table|;
    assert t.table[n..n] == [];
  }

  // ---------- Contents and stretch together ----------

  function Stamped(rows: seq<Message>): (r: seq<Message>)
    ensures |r| == |rows| && forall i | 0 <= i < |rows| :: r[i] == Confirm(rows[i])
  {
    if rows == [] then [] else [Confirm(rows[0])] + Stamped(rows[1..])
  }

  /** The confirmed rows are, contents and all, the server rows from position lo up to hi. */
  ghost predicate ExactWindow(rows: seq<Message>, table: seq<Message>, lo: nat, hi: nat) {
    lo <= hi <= |table| && Stamped(ConfirmedRows(rows)) == Stamped(table[lo..hi])
  }

  lemma WindowRow(rows: seq<Message>, table: seq<Message>, lo: nat, hi: nat, i: nat)
    requires Table(table) && Window(rows, table, lo, hi) && i < hi - lo
    ensures |ConfirmedRows(rows)| == hi - lo
    ensures ConfirmedRows(rows)[i].id == table[lo + i].id && ConfirmedRows(rows)[i].order == table[lo + i].order
    ensures Row(table, table[lo + i].id) == Some(table[lo + i])
  {
    var confirmed := ConfirmedRows(rows);
    WindowLength(rows, table, lo, hi);
    assert OutlineAll(confirmed)[i] == OutlineAll(table[lo..hi])[i];
    RowOfMember(table, table[lo + i]);
  }

  lemma ExactIsWindow(rows: seq<Message>, table: seq<Message>, lo: nat, hi: nat)
    requires ExactWindow(rows, table, lo, hi)
    ensures Window(rows, table, lo, hi)
  {
    var confirmed := ConfirmedRows(rows);
    assert |Stamped(confirmed)| == |Stamped(table[lo..hi])|;
    forall i | 0 <= i < |confirmed| ensures OutlineAll(confirmed)[i] == OutlineAll(table[lo..hi])[i] {
      assert Stamped(confirmed)[i] == Stamped(table[lo..hi])[i];
    }
  }

  lemma ExactAt(t: Thread, lo: nat, hi: nat, i: nat)
    requires Table(t.table) && Window(t.chat.rows, t.table, lo, hi) && i < hi - lo
    ensures |ConfirmedRows(t.chat.rows)| == hi - lo
    ensures var m := ConfirmedRows(t.chat.rows)[i];
            Holds(t, m) <==> Stamped(ConfirmedRows(t.chat.rows))[i] == Stamped(t.table[lo..hi])[i]
  {
    WindowRow(t.chat.rows, t.table, lo, hi, i);
  }

  /** A stretch is exact if and only if its rows are current. */
  lemma ExactIffCurrent(t: Thread, lo: nat, hi: nat)
    requires Table(t.table) && Window(t.chat.rows, t.table, lo, hi)
    ensures ExactWindow(t.chat.rows, t.table, lo, hi) <==> Current(t)
  {
    var confirmed := ConfirmedRows(t.chat.rows);
    WindowLength(t.chat.rows, t.table, lo, hi);
    if ExactWindow(t.chat.rows, t.table, lo, hi) {
      forall m | m in confirmed ensures Holds(t, m) {
        var i: nat :| i < |confirmed| && confirmed[i] == m;
        ExactAt(t, lo, hi, i);
      }
    }
    if Current(t) {
      forall i: nat | i < hi - lo ensures Stamped(confirmed)[i] == Stamped(t.table[lo..hi])[i] {
        ExactAt(t, lo, hi, i);
        assert confirmed[i] in confirmed;
      }
      assert Stamped(confirmed) == Stamped(t.table[lo..hi]);
    }
  }

  lemma WindowLength(rows: seq<Message>, table: seq<Message>, lo: nat, hi: nat)
    requires Window(rows, table, lo, hi)
    ensures |ConfirmedRows(rows)| == hi - lo
  {
    assert |OutlineAll(ConfirmedRows(rows))| == |OutlineAll(table[lo..hi])|;
  }

  /** While all unanchored pages meet, the confirmed rows are, contents and all, a stretch of the table if and
      only if each loaded row is unchanged since the answer that last delivered it. */
  lemma StretchIsExactIffUnchanged(t: Thread, events: seq<Event>, lo: nat, hi: nat)
    requires Gapless(t, lo, hi) && Recorded(t) && PossibleRun(t, events) && PagesMeet(t, events)
    ensures var end := Play(t, events);
            (exists l, h :: ExactWindow(end.chat.rows, end.table, l, h))
            <==> forall m | m in ConfirmedRows(end.chat.rows) :: Unchanged(end, m.id)
  {
    var end := Play(t, events);
    var lower, higher := MeetingPagesKeepGapless(t, events, lo, hi);
    CurrentIffUnchanged(t, events);
    ExactIffCurrent(end, lower, higher);
    forall l, h | ExactWindow(end.chat.rows, end.table, l, h) ensures Current(end) {
      ExactIsWindow(end.chat.rows, end.table, l, h);
      ExactIffCurrent(end, l, h);
    }
  }
}
