/** Rows that were loaded unfinished: what anchored refetches can and cannot bring up to date. */
module RefetchDrafts {
  import opened Options
  import opened Messages
  import opened ChatRuns
  import opened Refetch
  import opened RefetchRaces
  import opened RefetchContents

  // ---------- What lies behind the anchor ----------

  /** A loaded row's seq is that of the table row with its id. */
  lemma LoadedOrder(t: Thread, lo: nat, hi: nat, m: Message, x: Message)
    requires Gapless(t, lo, hi) && lo < hi && m in ConfirmedRows(t.chat.rows) && x in t.table && x.id == m.id
    ensures x.order == m.order
    ensures m.order.Some? && t.table[hi - 1].order.Some? && m.order.value <= t.table[hi - 1].order.value
  {
    ConfirmedMembers(t.chat.rows, m);
    ConfirmedIsOlder(t.chat.rows, t.table, lo, hi, m);
    ConfirmedIn(t.chat.rows, m);
    var i := PositionOf(t.table, lo, hi, Outline(m));
    assert t.table[i].id == Outline(m).id && t.table[i].order == Outline(m).order;
    SameRow(t.table, t.table[i], x);
  }

  /** A response to an anchor at or after a loaded row does not contain the row. */
  lemma NotInResponse(t: Thread, lo: nat, hi: nat, m: Message, anchor: int)
    requires Gapless(t, lo, hi) && lo < hi && m in ConfirmedRows(t.chat.rows)
    requires m.order.Some? && m.order.value <= anchor
    ensures m.id !in Ids(Respond(t.table, Some(anchor)))
  {
    forall x | x in Respond(t.table, Some(anchor)) ensures x.id != m.id {
      ResponseMembers(t.table, Some(anchor), x);
      if x.id == m.id { LoadedOrder(t, lo, hi, m, x); }
    }
  }

  // ---------- Rows that no request in flight can bring ----------

  /** The request is anchored at or after the row, or was answered without it. */
  ghost predicate Passes(r: Request, m: Message) {
    match r
    case Asked(anchor) => anchor.Some? && m.order.Some? && m.order.value <= anchor.value
    case Answered(anchored, rows, _) => anchored && m.id !in Ids(rows)
    case Landed => true
  }

  ghost predicate Passed(t: Thread, m: Message) {
    m in ConfirmedRows(t.chat.rows) && forall r | r in t.requests :: Passes(r, m)
  }

  lemma KeptRow(rows: seq<Message>, batch: seq<Message>, m: Message)
    requires DistinctIds(rows) && m in ConfirmedRows(rows) && m.id !in Ids(batch)
    ensures m in ConfirmedRows(AppendUnique(rows, batch))
  {
    ConfirmedMembers(rows, m);
    ConfirmedMembers(AppendUnique(rows, batch), m);
    if batch != [] { UndeliveredStays(rows, batch, m); }
  }

  lemma AskPasses(t: Thread, lo: nat, hi: nat, m: Message)
    requires Gapless(t, lo, hi) && lo < hi && Passed(t, m)
    ensures Passed(Next(t, Ask), m)
  {
    ConfirmedMembers(t.chat.rows, m);
    AnchorIsWindowEnd(t.chat.rows, t.table, lo, hi);
    forall r | r in Next(t, Ask).requests ensures Passes(r, m) {
      assert r in t.requests || r == Asked(Anchor(t.chat.rows));
    }
  }

  lemma AnswerPasses(t: Thread, at: nat, lo: nat, hi: nat, m: Message)
    requires Gapless(t, lo, hi) && lo < hi && Passed(t, m) && Possible(t, Answer(at))
    ensures Passed(Next(t, Answer(at)), m)
  {
    var next := Next(t, Answer(at));
    assert Passes(t.requests[at], m) by { assert t.requests[at] in t.requests; }
    NotInResponse(t, lo, hi, m, t.requests[at].anchor.value);
    forall r | r in next.requests ensures Passes(r, m) {
      assert r in t.requests || r == next.requests[at];
    }
  }

  lemma LandPasses(t: Thread, at: nat, m: Message)
    requires Inv(t.chat) && Passed(t, m) && Possible(t, Land(at))
    ensures Passed(Next(t, Land(at)), m) && !PageLands(t, Land(at))
    ensures m.id in t.from ==> m.id in Next(t, Land(at)).from && Next(t, Land(at)).from[m.id] == t.from[m.id]
  {
    var next := Next(t, Land(at));
    assert Passes(t.requests[at], m) by { assert t.requests[at] in t.requests; }
    KeptRow(t.chat.rows, t.requests[at].rows, m);
    LandedList(t, at);
    forall r | r in next.requests ensures Passes(r, m) {
      assert r in t.requests || r == Landed;
    }
  }

  lemma EventPasses(t: Thread, e: Event, lo: nat, hi: nat, m: Message)
    requires Gapless(t, lo, hi) && lo < hi && Passed(t, m) && Possible(t, e)
    ensures Passed(Next(t, e), m) && !PageLands(t, e)
    ensures m.id in t.from ==> m.id in Next(t, e).from && Next(t, e).from[m.id] == t.from[m.id]
  {
    match e
    case Local(step) => LocalStepsKeepConfirmed(t.chat, step);
    case Ask => AskPasses(t, lo, hi, m);
    case Answer(at) => AnswerPasses(t, at, lo, hi, m);
    case Land(at) => LandPasses(t, at, m);
    case _ =>
  }

  /** Once no request in flight can bring a loaded row, it stays exactly as it is, under every run of refetches,
      stores, rewrites and local steps; and the answer that last delivered it stays the last. */
  lemma {:induction false} PassedRowsNeverChange(t: Thread, events: seq<Event>, lo: nat, hi: nat, m: Message)
    requires Gapless(t, lo, hi) && lo < hi && Passed(t, m) && PossibleRun(t, events)
    ensures var end := Play(t, events);
            && m in ConfirmedRows(end.chat.rows)
            && Passed(end, m)
            && (m.id in t.from ==> m.id in end.from && end.from[m.id] == t.from[m.id])
    decreases |events|
  {
    if events != [] {
      EventPasses(t, events[0], lo, hi, m);
      var higher := EventKeeps(t, events[0], lo, hi);
      PassedRowsNeverChange(Next(t, events[0]), events[1..], lo, higher, m);
    }
  }

  // ---------- Stale rows stay stale ----------

  /** The latest rewrite of a row only moves on. */
  lemma {:induction false} RewritesMoveOn(t: Thread, events: seq<Event>, id: string)
    requires Recorded(t) && PossibleRun(t, events) && id in t.rewrites
    ensures id in Play(t, events).rewrites && t.rewrites[id] <= Play(t, events).rewrites[id]
    decreases |events|
  {
    if events != [] {
      EventRecorded(t, events[0]);
      RewritesMoveOn(Next(t, events[0]), events[1..], id);
    }
  }

  /** A passed row that was rewritten since it was delivered counts as rewritten for ever, so it is stale under
      every run unless the server itself brings the delivered version back. */
  lemma StaleRowsStayStale(t: Thread, events: seq<Event>, lo: nat, hi: nat, m: Message)
    requires Gapless(t, lo, hi) && lo < hi && Recorded(t) && Passed(t, m) && RewrittenSince(t, m.id)
    requires PossibleRun(t, events)
    ensures var end := Play(t, events);
            && m in ConfirmedRows(end.chat.rows) && RewrittenSince(end, m.id)
            && (Holds(end, m) <==> Row(end.table, m.id) == Delivered(t, m.id))
            && (MovedOn(t) && EveryRewriteIsNew(t, events) ==> !Holds(end, m))
  {
    var end := Play(t, events);
    PassedRowsNeverChange(t, events, lo, hi, m);
    RewritesMoveOn(t, events, m.id);
    RunRecorded(t, events);
    RowHeldIffUnchanged(end, m);
    assert Delivered(end, m.id) == Delivered(t, m.id) by {
      assert Sourced(t, m);
      AnswersStay(t, events, t.from[m.id]);
    }
    if MovedOn(t) && EveryRewriteIsNew(t, events) {
      RunMovesOn(t, events);
      UnchangedIffNotRewritten(end, m);
    }
  }

  lemma {:induction false} AnswersStay(t: Thread, events: seq<Event>, n: nat)
    requires PossibleRun(t, events) && n < |t.answers|
    ensures n < |Play(t, events).answers| && Play(t, events).answers[n] == t.answers[n]
    decreases |events|
  {
    if events != [] { AnswersStay(Next(t, events[0]), events[1..], n); }
  }

  // ---------- What a caller can check ----------

  ghost predicate OnlyDraftsRewritten(t: Thread, events: seq<Event>)
    requires PossibleRun(t, events)
    decreases |events|
  {
    events == [] ||
    ((events[0].Rewrite? ==> t.table[events[0].position].draft) && OnlyDraftsRewritten(Next(t, events[0]), events[1..]))
  }

  lemma {:induction false} FinishedRowsStay(t: Thread, events: seq<Event>, row: Message)
    requires Table(t.table) && PossibleRun(t, events) && OnlyDraftsRewritten(t, events)
    requires Row(t.table, row.id) == Some(row) && !row.draft
    ensures Row(Play(t, events).table, row.id) == Some(row)
    decreases |events|
  {
    if events != [] {
      var e := events[0];
      if e.Store? {
        StoredTable(t.table, e.row);
        RowAfterStore(t.table, e.row, row.id);
        assert e.row.id != row.id;
      }
      if e.Rewrite? {
        RewrittenTable(t.table, e.position, e.row);
        RowAfterRewrite(t.table, e.position, e.row, row.id);
        RowOfMember(t.table, t.table[e.position]);
      }
      FinishedRowsStay(Next(t, e), events[1..], row);
    }
  }

  /** A row that was finished when it was loaded, and is up to date, stays up to date, if the server rewrites
      nothing but drafts. */
  lemma FinishedRowsStayCurrent(t: Thread, events: seq<Event>, lo: nat, hi: nat, m: Message)
    requires Gapless(t, lo, hi) && lo < hi && Recorded(t) && Passed(t, m) && Holds(t, m) && !m.draft
    requires PossibleRun(t, events) && OnlyDraftsRewritten(t, events)
    ensures m in ConfirmedRows(Play(t, events).chat.rows) && Holds(Play(t, events), m)
  {
    PassedRowsNeverChange(t, events, lo, hi, m);
    FinishedRowsStay(t, events, Row(t.table, m.id).value);
  }

  // ---------- One refetch ----------

  function Refetching(t: Thread): seq<Event> { [Ask, Answer(|t.requests|), Land(|t.requests|)] }

  /** The thread after one refetch that nothing interrupts. */
  function Refetched(t: Thread): Thread {
    var rows := Respond(t.table, Anchor(t.chat.rows));
    Thread(
      t.table, Apply(t.chat, ChatRuns.Refetch(rows)), t.requests + [Landed], t.answers + [t.table],
      t.from + Deliveries(rows, |t.answers|), t.rewrites)
  }

  lemma RefetchingLeads(t: Thread)
    ensures PossibleRun(t, Refetching(t)) && Play(t, Refetching(t)) == Refetched(t)
  {
    var n := |t.requests|;
    var asked := Next(t, Ask);
    var answered := Next(asked, Answer(n));
    assert answered.requests == t.requests + [answered.requests[n]];
    assert Next(answered, Land(n)).requests == t.requests + [Landed];
    PlayThree(t, Ask, Answer(n), Land(n));
  }

  lemma UnchangedAfterRefetch(t: Thread, id: string)
    requires Recorded(t)
    ensures var rows := Respond(t.table, Anchor(t.chat.rows));
            if id in Ids(rows) then Unchanged(Refetched(t), id)
            else id in t.from && t.from[id] < |t.answers| ==> (Unchanged(Refetched(t), id) <==> Unchanged(t, id))
  {
    var after := Refetched(t);
    assert after.answers[|t.answers|] == t.table;
    if id !in Ids(Respond(t.table, Anchor(t.chat.rows))) && id in t.from && t.from[id] < |t.answers| {
      assert after.from[id] == t.from[id] && after.answers[t.from[id]] == t.answers[t.from[id]];
    }
  }

  lemma LoadedNotDelivered(t: Thread, lo: nat, hi: nat, m: Message)
    requires Gapless(t, lo, hi) && lo < hi && m in ConfirmedRows(t.chat.rows)
    ensures m.id !in Ids(Respond(t.table, Anchor(t.chat.rows)))
  {
    ConfirmedMembers(t.chat.rows, m);
    AnchorIsLast(t.chat.rows, t.table, lo, hi);
    ConfirmedIsOlder(t.chat.rows, t.table, lo, hi, m);
    NotInResponse(t, lo, hi, m, Anchor(t.chat.rows).value);
  }

  lemma UndeliveredKept(t: Thread, m: Message)
    requires Inv(t.chat) && m in ConfirmedRows(t.chat.rows)
    requires m.id !in Ids(Respond(t.table, Anchor(t.chat.rows)))
    ensures m in ConfirmedRows(Refetched(t).chat.rows)
  {
    KeptRow(t.chat.rows, Respond(t.table, Anchor(t.chat.rows)), m);
  }

  lemma LoadedKept(t: Thread, lo: nat, hi: nat, m: Message)
    requires Gapless(t, lo, hi) && lo < hi && Recorded(t) && m in ConfirmedRows(t.chat.rows)
    ensures m in ConfirmedRows(Refetched(t).chat.rows)
    ensures Unchanged(Refetched(t), m.id) <==> Unchanged(t, m.id)
  {
    LoadedNotDelivered(t, lo, hi, m);
    UndeliveredKept(t, m);
    assert Sourced(t, m);
    UnchangedAfterRefetch(t, m.id);
  }

  lemma NewOrLoaded(t: Thread, m: Message)
    requires Recorded(t) && m in ConfirmedRows(Refetched(t).chat.rows)
    ensures m in ConfirmedRows(t.chat.rows) || Unchanged(Refetched(t), m.id)
  {
    MergedRow(t.chat.rows, Respond(t.table, Anchor(t.chat.rows)), m);
    UnchangedAfterRefetch(t, m.id);
  }

  ghost predicate AllUnchanged(t: Thread) { forall m | m in ConfirmedRows(t.chat.rows) :: Unchanged(t, m.id) }

  lemma AllUnchangedAfterRefetch(t: Thread, lo: nat, hi: nat)
    requires Gapless(t, lo, hi) && lo < hi && Recorded(t)
    ensures AllUnchanged(Refetched(t)) <==> AllUnchanged(t)
  {
    if AllUnchanged(t) {
      forall m | m in ConfirmedRows(Refetched(t).chat.rows) ensures Unchanged(Refetched(t), m.id) {
        NewOrLoaded(t, m);
        if m in ConfirmedRows(t.chat.rows) { LoadedKept(t, lo, hi, m); }
      }
    }
    if AllUnchanged(Refetched(t)) {
      forall m | m in ConfirmedRows(t.chat.rows) ensures Unchanged(t, m.id) { LoadedKept(t, lo, hi, m); }
    }
  }

  /** After a refetch that nothing interrupts, the loaded rows have the server's contents if and only if no row
      that was loaded before, that is, at or before the anchor, had changed since it was delivered. */
  lemma RefetchIsCurrentIffLoadedUnchanged(t: Thread, lo: nat, hi: nat)
    requires Gapless(t, lo, hi) && lo < hi && Recorded(t)
    ensures PossibleRun(t, Refetching(t)) && Play(t, Refetching(t)) == Refetched(t)
    ensures Current(Refetched(t)) <==> AllUnchanged(t)
  {
    RefetchingLeads(t);
    CurrentIffUnchanged(t, Refetching(t));
    AllUnchangedAfterRefetch(t, lo, hi);
  }

  // ---------- The draft that is never completed ----------

  /** With everything loaded, a refetch brings nothing and changes nothing. */
  lemma NothingNewerChangesNothing(t: Thread, lo: nat)
    requires Gapless(t, lo, |t.table|) && lo < |t.table|
    ensures Respond(t.table, Anchor(t.chat.rows)) == [] && Refetched(t).chat.rows == t.chat.rows
  {
    NothingAfterWindow(t.chat.rows, t.table, lo);
    EmptyAnswerChangesNothing(t);
  }

  lemma EmptyAnswerChangesNothing(t: Thread)
    requires Respond(t.table, Anchor(t.chat.rows)) == []
    ensures Refetched(t).chat.rows == t.chat.rows
  {
  }

  lemma NothingAfterWindow(rows: seq<Message>, table: seq<Message>, lo: nat)
    requires Table(table) && Window(rows, table, lo, |table|) && lo < |table|
    ensures Respond(table, Anchor(rows)) == []
  {
    AnchorIsLast(rows, table, lo, |table|);
    NothingAfterLast(table);
  }

  lemma NothingAfterLast(table: seq<Message>)
    requires Table(table) && table != []
    ensures var last := table[|table| - 1].order;
            last.Some? && Respond(table, last) == []
  {
    RowHasSeq(table, |table| - 1);
    PageAfterRow(table, |table| - 1);
  }

  lemma FreshPageIsGapless(t: Thread)
    requires Fresh(t) && 0 < |t.table| <= DEFAULT_PAGE
    ensures Recorded(Refetched(t)) && Gapless(Refetched(t), 0, |t.table|)
  {
    var n := |t.table|;
    FreshIsRecorded(t);
    RefetchingLeads(t);
    RunRecorded(t, Refetching(t));
    assert Anchor(t.chat.rows).None?;
    LatestIsSlice(t.table);
    LandExtends(t.chat, t.table, t.table, n, n, 0, n);
  }

  /** The first page of a short thread loads all of it, up to date. */
  lemma PageIntoFresh(t: Thread)
    requires Fresh(t) && 0 < |t.table| <= DEFAULT_PAGE
    ensures PossibleRun(t, Refetching(t)) && Play(t, Refetching(t)) == Refetched(t)
    ensures Recorded(Refetched(t)) && Gapless(Refetched(t), 0, |t.table|) && Current(Refetched(t))
  {
    FreshIsRecorded(t);
    FreshPageIsGapless(t);
    RefetchingLeads(t);
    forall m | m in ConfirmedRows(Refetched(t).chat.rows) ensures Holds(Refetched(t), m) {
      NewOrLoaded(t, m);
      RowHeldIffUnchanged(Refetched(t), m);
    }
  }

  /** A page ends with the draft of a reply, the server completes the draft in its row, the refetch after the
      run asks for what is newer than the draft, gets nothing, and the list keeps the draft. */
  lemma DraftIsNeverCompleted(t: Thread, final: Message) returns (page: Thread, done: Thread)
    requires Fresh(t) && 0 < |t.table| <= DEFAULT_PAGE
    requires var draft := t.table[|t.table| - 1];
             final != draft && Outline(final) == Outline(draft) && final.status.Unmarked?
    ensures PossibleRun(t, Refetching(t)) && page == Play(t, Refetching(t)) && Current(page)
    ensures Possible(page, Rewrite(|t.table| - 1, final)) && done == Next(page, Rewrite(|t.table| - 1, final))
    ensures PossibleRun(done, Refetching(done))
    ensures Respond(done.table, Anchor(done.chat.rows)) == []
    ensures var end := Play(done, Refetching(done)); end.chat.rows == page.chat.rows && !Current(end)
  {
    var k := |t.table| - 1;
    PageIntoFresh(t);
    page := Refetched(t);
    RewriteKeeps(page, k, final, 0, |t.table|);
    done := Next(page, Rewrite(k, final));
    RefetchingLeads(done);
    NothingNewerChangesNothing(done, 0);
    OldVersionIsNotHeld(page, k, final);
  }

  lemma OldVersionIsNotHeld(t: Thread, k: nat, final: Message)
    requires Gapless(t, 0, |t.table|) && Current(t) && Possible(t, Rewrite(k, final)) && final != t.table[k]
    ensures !Current(Next(t, Rewrite(k, final)))
  {
    WindowRow(t.chat.rows, t.table, 0, |t.table|, k);
    var m := ConfirmedRows(t.chat.rows)[k];
    assert Holds(t, m) && t.table[k] in t.table;
    RowAfterRewrite(t.table, k, final, m.id);
    assert !Holds(Next(t, Rewrite(k, final)), m);
  }
}
