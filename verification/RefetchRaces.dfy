/** Several refetches in flight at once, while the server stores rows and rewrites stored ones, and the user
    keeps sending. */
module RefetchRaces {
  import opened Options
  import opened Messages
  import opened ChatRuns
  import opened Refetch

  /** A refetch between its three moments: sent, answered by the server, merged into the list. */
  datatype Request =
    | Asked(anchor: Option<int>)
    | Answered(anchored: bool, rows: seq<Message>, answer: nat)
    | Landed

  /** The table, the list and the requests, with the history of what was delivered: `answers` are the tables
      that the answers so far were given from, `from` the answer that last delivered each id, and `rewrites`
      the number of answers given before the latest rewrite of each id. */
  datatype Thread = Thread(
    table: seq<Message>, chat: Chat, requests: seq<Request>,
    answers: seq<seq<Message>>, from: map<string, nat>, rewrites: map<string, nat>)

  datatype Event =
    | Store(row: Message)
    | Rewrite(position: nat, row: Message)
    | Local(step: Step)
    | Ask
    | Answer(at: nat)
    | Land(at: nat)

  function Respond(table: seq<Message>, anchor: Option<int>): seq<Message> {
    if anchor.Some? then RowsAfter(table, anchor.value) else LatestPage(table)
  }

  function Deliveries(rows: seq<Message>, answer: nat): map<string, nat> { map id | id in Ids(rows) :: answer }

  function Next(t: Thread, e: Event): Thread
    requires Possible(t, e)
  {
    match e
    case Store(row) => t.(table := t.table + [row])
    case Rewrite(k, row) => t.(table := t.table[k := row], rewrites := t.rewrites[row.id := |t.answers|])
    case Local(step) => t.(chat := Apply(t.chat, step))
    case Ask => t.(requests := t.requests + [Asked(Anchor(t.chat.rows))])
    case Answer(at) =>
      var anchor := t.requests[at].anchor;
      t.(requests := t.requests[at := Answered(anchor.Some?, Respond(t.table, anchor), |t.answers|)],
         answers := t.answers + [t.table])
    case Land(at) =>
      var r := t.requests[at];
      t.(chat := Apply(t.chat, ChatRuns.Refetch(r.rows)), requests := t.requests[at := Landed],
         from := t.from + Deliveries(r.rows, r.answer))
  }

  /** A rewrite keeps a row's id, seq and role: drafts grow, are reset and are finalised in their row. */
  predicate Possible(t: Thread, e: Event) {
    match e
    case Rewrite(k, row) => k < |t.table| && Outline(row) == Outline(t.table[k]) && row.status.Unmarked?
    case Store(row) =>
      && row.order.Some? && row.order.value > 0 && !IsOptimistic(row.id) && row.status.Unmarked?
      && forall r | r in t.table :: r.id != row.id && r.order.Some? && r.order.value < row.order.value
    case Local(step) => !step.Refetch? && Enabled(t.chat, step)
    case Ask => true
    case Answer(at) => at < |t.requests| && t.requests[at].Asked?
    case Land(at) => at < |t.requests| && t.requests[at].Answered?
  }

  // ---------- The anchor ----------

  /** The last confirmed row carries the largest local seq, and that is the anchor. */
  lemma AnchorIsWindowEnd(rows: seq<Message>, table: seq<Message>, lo: nat, hi: nat)
    requires Table(table) && Window(rows, table, lo, hi) && lo < hi
    ensures Anchor(rows) == table[hi - 1].order && Anchor(rows).Some?
    ensures forall m | m in rows && !IsUnconfirmed(m) :: m.order.Some? && m.order.value <= Anchor(rows).value
  {
    AnchorIsLast(rows, table, lo, hi);
    forall m | m in rows && !IsUnconfirmed(m)
      ensures m.order.Some? && m.order.value <= table[hi - 1].order.value
    {
      ConfirmedIsOlder(rows, table, lo, hi, m);
    }
  }

  lemma AnchorIsLast(rows: seq<Message>, table: seq<Message>, lo: nat, hi: nat)
    requires Table(table) && Window(rows, table, lo, hi) && lo < hi
    ensures Anchor(rows) == table[hi - 1].order && Anchor(rows).Some?
  {
    RowHasSeq(table, hi - 1);
    WindowEnd(rows, table, lo, hi);
    AnchorOfLast(rows);
  }

  lemma WindowEnd(rows: seq<Message>, table: seq<Message>, lo: nat, hi: nat)
    requires Window(rows, table, lo, hi) && lo < hi
    ensures ConfirmedRows(rows) != [] && ConfirmedRows(rows)[|ConfirmedRows(rows)| - 1].order == table[hi - 1].order
  {
    var part := table[lo..hi];
    assert part != [] && part[|part| - 1] == table[hi - 1];
    SameEnds(ConfirmedRows(rows), part);
  }

  lemma AnchorOfLast(rows: seq<Message>)
    requires ConfirmedRows(rows) != [] && ConfirmedRows(rows)[|ConfirmedRows(rows)| - 1].order.Some?
    requires ConfirmedRows(rows)[|ConfirmedRows(rows)| - 1].order.value > 0
    ensures Anchor(rows) == ConfirmedRows(rows)[|ConfirmedRows(rows)| - 1].order
  {
  }

  lemma RowHasSeq(table: seq<Message>, k: nat)
    requires Table(table) && k < |table|
    ensures table[k].order.Some? && table[k].order.value > 0
  {
    assert table[k] in table;
  }

  lemma SameEnds(a: seq<Message>, b: seq<Message>)
    requires OutlineAll(a) == OutlineAll(b) && b != []
    ensures |a| == |b| && a[|a| - 1].order == b[|b| - 1].order
  {
    assert Outline(a[|a| - 1]) == Outline(b[|b| - 1]);
  }

  lemma RowsAscend(table: seq<Message>, i: nat, k: nat)
    requires Table(table) && i <= k < |table|
    ensures table[i].order.Some? && table[k].order.Some? && table[i].order.value <= table[k].order.value
  {
    RowHasSeq(table, i);
    RowHasSeq(table, k);
  }

  lemma ConfirmedIn(rows: seq<Message>, m: Message)
    requires m in rows && !IsUnconfirmed(m)
    ensures Outline(m) in Outlines(rows)
  {
    OutlinesMembers(rows);
  }

  lemma PositionOf(table: seq<Message>, lo: nat, hi: nat, c: Message) returns (i: nat)
    requires lo <= hi <= |table| && c in OutlineAll(table[lo..hi])
    ensures lo <= i < hi && c == Outline(table[i])
  {
    InSliceIffMember(table, lo, hi, c);
    i :| lo <= i < hi && c == Outline(table[i]);
  }

  lemma ConfirmedIsOlder(rows: seq<Message>, table: seq<Message>, lo: nat, hi: nat, m: Message)
    requires Table(table) && Window(rows, table, lo, hi) && lo < hi
    requires m in rows && !IsUnconfirmed(m)
    ensures m.order.Some? && table[hi - 1].order.Some? && m.order.value <= table[hi - 1].order.value
  {
    var i := WindowMember(rows, table, lo, hi, m);
    RowsAscend(table, i, hi - 1);
  }

  lemma WindowMember(rows: seq<Message>, table: seq<Message>, lo: nat, hi: nat, m: Message) returns (i: nat)
    requires Window(rows, table, lo, hi) && m in rows && !IsUnconfirmed(m)
    ensures lo <= i < hi <= |table| && table[i].id == m.id && table[i].order == m.order
  {
    ConfirmedIn(rows, m);
    i := PositionOf(table, lo, hi, Outline(m));
    assert Outline(m).id == m.id && Outline(m).order == m.order;
  }

  // ---------- The invariant ----------

  /** What a request in flight may carry: with an anchor, the seq of a row in the window or a slice that
      touches the window; without one, any slice. */
  ghost predicate Fits(r: Request, table: seq<Message>, lo: nat, hi: nat) {
    match r
    case Asked(anchor) => anchor.Some? ==> exists k: nat :: lo <= k < hi && k < |table| && table[k].order == anchor
    case Answered(anchored, rows, _) =>
      exists a: nat, b: nat :: Slice(rows, table, a, b) && (anchored ==> lo < a <= hi)
    case Landed => true
  }

  /** By id, seq and role the confirmed rows are one stretch of the table, which may be empty. */
  ghost predicate Gapless(t: Thread, lo: nat, hi: nat) {
    && Table(t.table)
    && Inv(t.chat) && BubbleIds(t.chat)
    && Window(t.chat.rows, t.table, lo, hi)
    && forall r | r in t.requests :: Fits(r, t.table, lo, hi)
  }

  lemma SliceGrows(rows: seq<Message>, table: seq<Message>, more: seq<Message>, a: nat, b: nat)
    requires Slice(rows, table, a, b)
    ensures Slice(rows, table + more, a, b)
  {
    assert (table + more)[a..b] == table[a..b];
  }

  lemma FitsGrows(r: Request, table: seq<Message>, more: seq<Message>, lo: nat, hi: nat, lower: nat, higher: nat)
    requires Fits(r, table, lo, hi) && (lo < hi ==> lower <= lo && hi <= higher)
    ensures Fits(r, table + more, lower, higher)
  {
    match r
    case Asked(anchor) =>
      if anchor.Some? {
        var k: nat :| lo <= k < hi && k < |table| && table[k].order == anchor;
        assert (table + more)[k] == table[k];
      }
    case Answered(anchored, rows, _) =>
      var a: nat, b: nat :| Slice(rows, table, a, b) && (anchored ==> lo < a <= hi);
      SliceGrows(rows, table, more, a, b);
    case Landed =>
  }

  lemma {:induction false} DropKeepsConfirmed(rows: seq<Message>, id: string)
    requires ProperRows(rows) && IsOptimistic(id)
    ensures ConfirmedRows(Drop(rows, id)) == ConfirmedRows(rows)
  {
    if rows != [] {
      assert rows[0] in rows && forall m | m in rows[1..] :: m in rows;
      DropKeepsConfirmed(rows[1..], id);
    }
  }

  lemma {:induction false} MarkKeepsConfirmed(rows: seq<Message>, id: string, status: Status)
    requires ProperRows(rows) && IsOptimistic(id)
    requires status.Sent? || status.SteeringUncertain?
    ensures ConfirmedRows(Mark(rows, id, status)) == ConfirmedRows(rows)
  {
    if rows != [] {
      assert rows[0] in rows && forall m | m in rows[1..] :: m in rows;
      assert Mark(rows, id, status)[1..] == Mark(rows[1..], id, status);
      MarkKeepsConfirmed(rows[1..], id, status);
    }
  }

  lemma BubbleAddsNothing(rows: seq<Message>, b: Message)
    requires IsUnconfirmed(b)
    ensures ConfirmedRows(rows + [b]) == ConfirmedRows(rows)
  {
    ConfirmedRowsConcat(rows, [b]);
    assert ConfirmedRows([b]) == [];
  }

  /** Launches, steers and their outcomes leave the confirmed rows alone. */
  lemma LocalStepsKeepConfirmed(c: Chat, step: Step)
    requires Inv(c) && BubbleIds(c) && Enabled(c, step) && !step.Refetch?
    ensures ConfirmedRows(Apply(c, step).rows) == ConfirmedRows(c.rows)
  {
    match step
    case Launch(id, content, extra) => BubbleAddsNothing(c.rows, Bubble(id, content, Pending, extra));
    case Steer(id, content, extra) => BubbleAddsNothing(c.rows, Bubble(id, content, Steering, extra));
    case MarkSent(id) => MarkKeepsConfirmed(c.rows, id, Sent);
    case MarkUncertain(id) => MarkKeepsConfirmed(c.rows, id, SteeringUncertain);
    case Withdraw(id) => DropKeepsConfirmed(c.rows, id);
  }

  lemma StoredTable(table: seq<Message>, row: Message)
    requires Table(table) && ServerRow(row) && row.order.value > 0 && row.status.Unmarked?
    requires forall r | r in table :: r.id != row.id && r.order.Some? && r.order.value < row.order.value
    ensures Table(table + [row])
  {
    forall i | 0 <= i < |table|
      ensures table[i].id != row.id && table[i].order.Some? && table[i].order.value < row.order.value
    {
      assert table[i] in table;
    }
  }

  lemma StoreKeeps(t: Thread, row: Message, lo: nat, hi: nat)
    requires Gapless(t, lo, hi) && Possible(t, Store(row))
    ensures Gapless(Next(t, Store(row)), lo, hi)
  {
    var grown := t.table + [row];
    StoredTable(t.table, row);
    assert grown[lo..hi] == t.table[lo..hi];
    forall r | r in t.requests ensures Fits(r, grown, lo, hi) { FitsGrows(r, t.table, [row], lo, hi, lo, hi); }
  }

  lemma SameOutlines(table: seq<Message>, k: nat, row: Message, a: nat, b: nat)
    requires k < |table| && Outline(row) == Outline(table[k]) && a <= b <= |table|
    ensures OutlineAll(table[k := row][a..b]) == OutlineAll(table[a..b])
  {
  }

  lemma RewrittenTable(table: seq<Message>, k: nat, row: Message)
    requires Table(table) && k < |table| && Outline(row) == Outline(table[k]) && row.status.Unmarked?
    ensures Table(table[k := row])
  {
    var now := table[k := row];
    forall r | r in now ensures ServerRow(r) && r.order.value > 0 && r.status.Unmarked? {
      assert table[k] in table;
    }
  }

  lemma SliceRewritten(rows: seq<Message>, table: seq<Message>, k: nat, row: Message, a: nat, b: nat)
    requires Slice(rows, table, a, b) && k < |table| && Outline(row) == Outline(table[k])
    ensures Slice(rows, table[k := row], a, b)
  {
    SameOutlines(table, k, row, a, b);
  }

  lemma FitsRewritten(r: Request, table: seq<Message>, k: nat, row: Message, lo: nat, hi: nat)
    requires Fits(r, table, lo, hi) && k < |table| && Outline(row) == Outline(table[k])
    ensures Fits(r, table[k := row], lo, hi)
  {
    match r
    case Asked(anchor) =>
      if anchor.Some? {
        var i: nat :| lo <= i < hi && i < |table| && table[i].order == anchor;
        assert table[k := row][i].order == anchor;
      }
    case Answered(anchored, rows, _) =>
      var a: nat, b: nat :| Slice(rows, table, a, b) && (anchored ==> lo < a <= hi);
      SliceRewritten(rows, table, k, row, a, b);
    case Landed =>
  }

  lemma RewriteKeeps(t: Thread, k: nat, row: Message, lo: nat, hi: nat)
    requires Gapless(t, lo, hi) && Possible(t, Rewrite(k, row))
    ensures Gapless(Next(t, Rewrite(k, row)), lo, hi)
  {
    RewrittenTable(t.table, k, row);
    SameOutlines(t.table, k, row, lo, hi);
    forall r | r in t.requests ensures Fits(r, t.table[k := row], lo, hi) {
      FitsRewritten(r, t.table, k, row, lo, hi);
    }
  }

  lemma LatestIsSlice(table: seq<Message>)
    ensures Slice(LatestPage(table), table, if |table| <= DEFAULT_PAGE then 0 else |table| - DEFAULT_PAGE, |table|)
  {
  }

  lemma AnswerFits(t: Thread, at: nat, lo: nat, hi: nat)
    requires Gapless(t, lo, hi) && Possible(t, Answer(at))
    ensures Fits(Next(t, Answer(at)).requests[at], t.table, lo, hi)
  {
    assert t.requests[at] in t.requests;
    var anchor := t.requests[at].anchor;
    if anchor.Some? {
      var k: nat :| lo <= k < hi && k < |t.table| && t.table[k].order == anchor;
      PageAfterRow(t.table, k);
      assert Slice(RowsAfter(t.table, anchor.value), t.table, k + 1, PageEnd(t.table, k + 1));
    } else {
      LatestIsSlice(t.table);
    }
  }

  /** Landing a slice that meets the window joins them, even if the list grew during the fetch. */
  lemma LandExtends(c: Chat, table: seq<Message>, rows: seq<Message>, lo: nat, hi: nat, a: nat, b: nat)
    requires Table(table) && Inv(c) && BubbleIds(c) && Window(c.rows, table, lo, hi)
    requires Slice(rows, table, a, b) && Meets(lo, hi, a, b)
    ensures var after := Apply(c, ChatRuns.Refetch(rows));
            Inv(after) && BubbleIds(after) && Window(after.rows, table, Lower(lo, hi, a, b), Higher(lo, hi, a, b))
  {
    SliceShape(rows, table, a, b);
    StepKeeps(c, ChatRuns.Refetch(rows));
    if a < b { SliceJoins(c.rows, table, lo, hi, rows, a, b); }
  }

  lemma LandKeeps(t: Thread, at: nat, lo: nat, hi: nat, a: nat, b: nat)
    requires Gapless(t, lo, hi) && Possible(t, Land(at))
    requires Slice(t.requests[at].rows, t.table, a, b) && Meets(lo, hi, a, b)
    ensures Gapless(Next(t, Land(at)), Lower(lo, hi, a, b), Higher(lo, hi, a, b))
  {
    var lower, higher := Lower(lo, hi, a, b), Higher(lo, hi, a, b);
    LandExtends(t.chat, t.table, t.requests[at].rows, lo, hi, a, b);
    forall r | r in t.requests ensures Fits(r, t.table, lower, higher) {
      FitsGrows(r, t.table, [], lo, hi, lower, higher);
      assert t.table + [] == t.table;
    }
  }

  /** An unanchored page lands. */
  predicate PageLands(t: Thread, e: Event)
    requires Possible(t, e)
  {
    e.Land? && !t.requests[e.at].anchored
  }

  lemma AskKeeps(t: Thread, lo: nat, hi: nat)
    requires Gapless(t, lo, hi)
    ensures Gapless(Next(t, Ask), lo, hi)
  {
    AnchorFits(t.chat.rows, t.table, lo, hi);
    forall r | r in Next(t, Ask).requests ensures Fits(r, t.table, lo, hi) {
      assert r in t.requests || r == Asked(Anchor(t.chat.rows));
    }
  }

  lemma AnchorFits(rows: seq<Message>, table: seq<Message>, lo: nat, hi: nat)
    requires Table(table) && Window(rows, table, lo, hi)
    ensures Fits(Asked(Anchor(rows)), table, lo, hi)
  {
    if lo < hi {
      AnchorIsLast(rows, table, lo, hi);
    } else {
      assert |OutlineAll(ConfirmedRows(rows))| == |OutlineAll(table[lo..hi])| == 0;
    }
  }

  /** Every event but the landing of an unanchored page keeps the stretch with its lower end. */
  lemma EventKeeps(t: Thread, e: Event, lo: nat, hi: nat) returns (higher: nat)
    requires Gapless(t, lo, hi) && Possible(t, e) && !PageLands(t, e)
    ensures hi <= higher && (lo == hi ==> higher == hi)
    ensures Gapless(Next(t, e), lo, higher)
  {
    higher := hi;
    match e
    case Store(row) => StoreKeeps(t, row, lo, hi);
    case Rewrite(k, row) => RewriteKeeps(t, k, row, lo, hi);
    case Local(step) =>
      StepKeeps(t.chat, step);
      LocalStepsKeepConfirmed(t.chat, step);
    case Ask => AskKeeps(t, lo, hi);
    case Answer(at) => AnswerFits(t, at, lo, hi);
    case Land(at) =>
      assert t.requests[at] in t.requests;
      var a: nat, b: nat :| Slice(t.requests[at].rows, t.table, a, b) && lo < a <= hi;
      higher := Higher(lo, hi, a, b);
      LandKeeps(t, at, lo, hi, a, b);
  }

  ghost predicate PossibleRun(t: Thread, events: seq<Event>)
    decreases |events|
  {
    events == [] || (Possible(t, events[0]) && PossibleRun(Next(t, events[0]), events[1..]))
  }

  function Play(t: Thread, events: seq<Event>): Thread
    requires PossibleRun(t, events)
    decreases |events|
  {
    if events == [] then t else Play(Next(t, events[0]), events[1..])
  }

  lemma PlayThree(t: Thread, a: Event, b: Event, c: Event)
    requires Possible(t, a) && Possible(Next(t, a), b) && Possible(Next(Next(t, a), b), c)
    ensures PossibleRun(t, [a, b, c]) && Play(t, [a, b, c]) == Next(Next(Next(t, a), b), c)
  {
    var ta, tb := Next(t, a), Next(Next(t, a), b);
    assert [c][1..] == [] && [b, c][1..] == [c] && [a, b, c][1..] == [b, c];
    assert PossibleRun(Next(tb, c), []) && Play(Next(tb, c), []) == Next(tb, c);
    assert PossibleRun(tb, [c]) && Play(tb, [c]) == Next(tb, c);
    assert PossibleRun(ta, [b, c]) && Play(ta, [b, c]) == Next(tb, c);
  }

  lemma {:induction false} PlayConcat(t: Thread, a: seq<Event>, b: seq<Event>)
    requires PossibleRun(t, a) && PossibleRun(Play(t, a), b)
    ensures PossibleRun(t, a + b) && Play(t, a + b) == Play(Play(t, a), b)
    decreases |a|
  {
    if a == [] {
      assert a + b == b;
    } else {
      assert (a + b)[1..] == a[1..] + b;
      PlayConcat(Next(t, a[0]), a[1..], b);
    }
  }

  /** No request in flight goes without an anchor. */
  predicate AllAnchored(requests: seq<Request>) {
    forall r | r in requests :: (r.Asked? ==> r.anchor.Some?) && (r.Answered? ==> r.anchored)
  }

  lemma ReplacedStaysAnchored(requests: seq<Request>, at: nat, r: Request)
    requires AllAnchored(requests) && at < |requests|
    requires (r.Asked? ==> r.anchor.Some?) && (r.Answered? ==> r.anchored)
    ensures AllAnchored(requests[at := r])
  {
    forall x | x in requests[at := r] ensures x == r || x in requests {}
  }

  lemma AddedStaysAnchored(requests: seq<Request>, r: Request)
    requires AllAnchored(requests) && r.Asked? && r.anchor.Some?
    ensures AllAnchored(requests + [r])
  {
  }

  lemma StaysAnchored(t: Thread, e: Event, lo: nat, hi: nat)
    requires Gapless(t, lo, hi) && lo < hi && Possible(t, e) && AllAnchored(t.requests)
    ensures !PageLands(t, e) && AllAnchored(Next(t, e).requests)
  {
    match e
    case Ask =>
      AnchorIsLast(t.chat.rows, t.table, lo, hi);
      AddedStaysAnchored(t.requests, Asked(Anchor(t.chat.rows)));
    case Answer(at) =>
      assert t.requests[at] in t.requests;
      ReplacedStaysAnchored(t.requests, at, Next(t, e).requests[at]);
    case Land(at) =>
      assert t.requests[at] in t.requests;
      ReplacedStaysAnchored(t.requests, at, Landed);
    case _ =>
  }

  /** Once rows are loaded and the requests are anchored: over every run, by id, seq and role, the confirmed
      rows stay one stretch of the server table with a fixed lower end, whatever the server rewrites, however
      many refetches are in flight and in whatever order they land. */
  lemma {:induction false} RefetchesLeaveNoGaps(t: Thread, events: seq<Event>, lo: nat, hi: nat) returns (higher: nat)
    requires Gapless(t, lo, hi) && lo < hi && AllAnchored(t.requests) && PossibleRun(t, events)
    ensures hi <= higher && Gapless(Play(t, events), lo, higher)
    decreases |events|
  {
    higher := hi;
    if events != [] {
      StaysAnchored(t, events[0], lo, hi);
      higher := EventKeeps(t, events[0], lo, hi);
      higher := RefetchesLeaveNoGaps(Next(t, events[0]), events[1..], lo, higher);
    }
  }

  // ---------- Unanchored pages ----------

  ghost predicate OneStretch(t: Thread) { exists lo, hi :: Window(t.chat.rows, t.table, lo, hi) }

  /** After each event of the run the confirmed rows are one stretch of the table. */
  ghost predicate AlwaysOneStretch(t: Thread, events: seq<Event>)
    requires PossibleRun(t, events)
    decreases |events|
  {
    OneStretch(t) && (events == [] || AlwaysOneStretch(Next(t, events[0]), events[1..]))
  }

  /** The page is empty, or nothing is loaded, or the page meets what is loaded. */
  ghost predicate PageMeets(t: Thread, rows: seq<Message>) {
    exists lo: nat, hi: nat, a: nat, b: nat ::
      Window(t.chat.rows, t.table, lo, hi) && Slice(rows, t.table, a, b) && Meets(lo, hi, a, b)
  }

  ghost predicate PagesMeet(t: Thread, events: seq<Event>)
    requires PossibleRun(t, events)
    decreases |events|
  {
    events == [] ||
    ((PageLands(t, events[0]) ==> PageMeets(t, t.requests[events[0].at].rows))
     && PagesMeet(Next(t, events[0]), events[1..]))
  }

  lemma WindowIsUnique(rows: seq<Message>, table: seq<Message>, lo: nat, hi: nat, l: nat, h: nat)
    requires Table(table) && Window(rows, table, lo, hi) && Window(rows, table, l, h)
    ensures hi - lo == h - l && (lo < hi ==> lo == l && hi == h)
  {
    assert |OutlineAll(table[lo..hi])| == |OutlineAll(table[l..h])|;
    if lo < hi {
      assert OutlineAll(table[lo..hi])[0].id == table[lo].id && OutlineAll(table[l..h])[0].id == table[l].id;
    }
  }

  lemma AnswerIsSlice(t: Thread, at: nat, lo: nat, hi: nat) returns (a: nat, b: nat)
    requires Gapless(t, lo, hi) && Possible(t, Land(at))
    ensures Slice(t.requests[at].rows, t.table, a, b)
  {
    assert t.requests[at] in t.requests;
    a, b :| Slice(t.requests[at].rows, t.table, a, b);
  }

  lemma SeparatePageLeavesHole(t: Thread, at: nat, lo: nat, hi: nat)
    requires Gapless(t, lo, hi) && Possible(t, Land(at)) && !PageMeets(t, t.requests[at].rows)
    ensures !OneStretch(Next(t, Land(at)))
  {
    var a, b := AnswerIsSlice(t, at, lo, hi);
    MeetingIsPageMeets(t, t.requests[at].rows, lo, hi, a, b);
    NoStretchAfter(t.chat.rows, t.table, lo, hi, t.requests[at].rows, a, b);
    LandedList(t, at);
  }

  lemma LandedList(t: Thread, at: nat)
    requires Possible(t, Land(at))
    ensures Next(t, Land(at)).chat.rows == AppendUnique(t.chat.rows, t.requests[at].rows)
    ensures Next(t, Land(at)).table == t.table
  {
  }

  lemma MeetingIsPageMeets(t: Thread, rows: seq<Message>, lo: nat, hi: nat, a: nat, b: nat)
    requires Window(t.chat.rows, t.table, lo, hi) && Slice(rows, t.table, a, b)
    ensures Meets(lo, hi, a, b) ==> PageMeets(t, rows)
  {
  }

  lemma NoStretchAfter(
      rows: seq<Message>, table: seq<Message>, lo: nat, hi: nat, page: seq<Message>, a: nat, b: nat)
    requires WellShaped(rows) && Table(table) && Window(rows, table, lo, hi)
    requires Slice(page, table, a, b) && !Meets(lo, hi, a, b)
    ensures forall l, h :: !Window(AppendUnique(rows, page), table, l, h)
  {
    SliceKeepsWindowIffItMeets(rows, table, lo, hi, page, a, b);
  }

  lemma MeetingPageKeeps(t: Thread, at: nat, lo: nat, hi: nat) returns (lower: nat, higher: nat)
    requires Gapless(t, lo, hi) && Possible(t, Land(at)) && PageMeets(t, t.requests[at].rows)
    ensures Gapless(Next(t, Land(at)), lower, higher)
  {
    var l: nat, h: nat, a: nat, b: nat :|
      Window(t.chat.rows, t.table, l, h) && Slice(t.requests[at].rows, t.table, a, b) && Meets(l, h, a, b);
    WindowIsUnique(t.chat.rows, t.table, lo, hi, l, h);
    lower, higher := Lower(lo, hi, a, b), Higher(lo, hi, a, b);
    LandKeeps(t, at, lo, hi, a, b);
  }

  /** While all pages meet, the stretch stays one. */
  lemma {:induction false} MeetingPagesKeepGapless(t: Thread, events: seq<Event>, lo: nat, hi: nat)
    returns (lower: nat, higher: nat)
    requires Gapless(t, lo, hi) && PossibleRun(t, events) && PagesMeet(t, events)
    ensures Gapless(Play(t, events), lower, higher)
    decreases |events|
  {
    lower, higher := lo, hi;
    if events != [] {
      if PageLands(t, events[0]) {
        lower, higher := MeetingPageKeeps(t, events[0].at, lo, hi);
      } else {
        higher := EventKeeps(t, events[0], lo, hi);
      }
      lower, higher := MeetingPagesKeepGapless(Next(t, events[0]), events[1..], lower, higher);
    }
  }

  /** From a thread with anything or nothing loaded: over a run the confirmed rows are always, by id, seq
      and role, one stretch of the table if and only if every unanchored page meets what is loaded when it
      lands. */
  lemma {:induction false} OneStretchIffPagesMeet(t: Thread, events: seq<Event>, lo: nat, hi: nat)
    requires Gapless(t, lo, hi) && PossibleRun(t, events)
    ensures AlwaysOneStretch(t, events) <==> PagesMeet(t, events)
    decreases |events|
  {
    assert OneStretch(t);
    if events != [] {
      var e, rest := events[0], events[1..];
      if !PageLands(t, e) {
        var higher := EventKeeps(t, e, lo, hi);
        OneStretchIffPagesMeet(Next(t, e), rest, lo, higher);
      } else if PageMeets(t, t.requests[e.at].rows) {
        var lower, higher := MeetingPageKeeps(t, e.at, lo, hi);
        OneStretchIffPagesMeet(Next(t, e), rest, lower, higher);
      } else {
        SeparatePageLeavesHole(t, e.at, lo, hi);
        assert !AlwaysOneStretch(Next(t, e), rest);
      }
    }
  }

  /** Position `pin` lies in or at the edge of the window and of every unanchored page in flight. */
  ghost predicate Pinned(t: Thread, lo: nat, hi: nat, pin: nat) {
    && pin <= |t.table|
    && (lo < hi ==> lo <= pin <= hi)
    && forall r | r in t.requests && r.Answered? && !r.anchored ::
         exists a: nat, b: nat :: Slice(r.rows, t.table, a, b) && a <= pin <= b
  }

  lemma {:induction false} TableGrows(t: Thread, events: seq<Event>)
    requires PossibleRun(t, events)
    ensures |t.table| <= |Play(t, events).table|
    decreases |events|
  {
    if events != [] { TableGrows(Next(t, events[0]), events[1..]); }
  }

  lemma StaysPinned(t: Thread, e: Event, lo: nat, hi: nat, higher: nat, pin: nat)
    requires Possible(t, e) && !PageLands(t, e) && hi <= higher && Pinned(t, lo, hi, pin)
    requires lo < hi || (lo == hi == higher)
    requires |t.table| <= pin + DEFAULT_PAGE
    ensures Pinned(Next(t, e), lo, higher, pin)
  {
    var next := Next(t, e);
    forall r | r in next.requests && r.Answered? && !r.anchored
      ensures exists a: nat, b: nat :: Slice(r.rows, next.table, a, b) && a <= pin <= b
    {
      if r in t.requests {
        var a: nat, b: nat :| Slice(r.rows, t.table, a, b) && a <= pin <= b;
        assert Slice(r.rows, next.table, a, b) by {
          if e.Store? { SliceGrows(r.rows, t.table, [e.row], a, b); }
          if e.Rewrite? { SliceRewritten(r.rows, t.table, e.position, e.row, a, b); }
        }
      } else {
        LatestIsSlice(t.table);
      }
    }
  }

  lemma PinnedPageLands(t: Thread, at: nat, lo: nat, hi: nat, pin: nat) returns (lower: nat, higher: nat)
    requires Gapless(t, lo, hi) && Possible(t, Land(at)) && PageLands(t, Land(at)) && Pinned(t, lo, hi, pin)
    ensures Gapless(Next(t, Land(at)), lower, higher) && Pinned(Next(t, Land(at)), lower, higher, pin)
  {
    var a, b := PinnedSlice(t, at, lo, hi, pin);
    lower, higher := Lower(lo, hi, a, b), Higher(lo, hi, a, b);
    LandKeeps(t, at, lo, hi, a, b);
    LandedPinned(t, at, lo, hi, pin, lower, higher);
  }

  lemma PinnedSlice(t: Thread, at: nat, lo: nat, hi: nat, pin: nat) returns (a: nat, b: nat)
    requires Possible(t, Land(at)) && PageLands(t, Land(at)) && Pinned(t, lo, hi, pin) && lo <= hi
    ensures Slice(t.requests[at].rows, t.table, a, b) && a <= pin <= b && Meets(lo, hi, a, b)
  {
    assert t.requests[at] in t.requests;
    a, b :| Slice(t.requests[at].rows, t.table, a, b) && a <= pin <= b;
  }

  lemma LandedPinned(t: Thread, at: nat, lo: nat, hi: nat, pin: nat, lower: nat, higher: nat)
    requires Possible(t, Land(at)) && Pinned(t, lo, hi, pin) && (lower < higher ==> lower <= pin <= higher)
    ensures Pinned(Next(t, Land(at)), lower, higher, pin)
  {
    forall r | r in Next(t, Land(at)).requests && r.Answered? ensures r in t.requests {}
  }

  /** While the server stores at most one page of rows beyond position `pin`, all pages meet. */
  lemma {:induction false} OnePageOfNewsLeavesNoGaps(t: Thread, events: seq<Event>, lo: nat, hi: nat, pin: nat)
    requires Gapless(t, lo, hi) && Pinned(t, lo, hi, pin) && PossibleRun(t, events)
    requires |Play(t, events).table| <= pin + DEFAULT_PAGE
    ensures AlwaysOneStretch(t, events)
    decreases |events|
  {
    assert OneStretch(t);
    TableGrows(t, events);
    if events != [] {
      var e, rest := events[0], events[1..];
      if PageLands(t, e) {
        var lower, higher := PinnedPageLands(t, e.at, lo, hi, pin);
        OnePageOfNewsLeavesNoGaps(Next(t, e), rest, lower, higher, pin);
      } else {
        var higher := EventKeeps(t, e, lo, hi);
        StaysPinned(t, e, lo, hi, higher, pin);
        OnePageOfNewsLeavesNoGaps(Next(t, e), rest, lo, higher, pin);
      }
    }
  }

  /** In particular a thread in which nothing is loaded or in flight yet: until the server has stored more
      than one page of further rows, no order of unanchored and anchored fetches leaves a gap. */
  lemma FreshThreadsHaveNoGaps(t: Thread, events: seq<Event>)
    requires Table(t.table) && Inv(t.chat) && BubbleIds(t.chat)
    requires ConfirmedRows(t.chat.rows) == [] && t.requests == [] && PossibleRun(t, events)
    requires |Play(t, events).table| <= |t.table| + DEFAULT_PAGE
    ensures AlwaysOneStretch(t, events) && PagesMeet(t, events)
  {
    var n := |t.table|;
    assert t.table[n..n] == [];
    OnePageOfNewsLeavesNoGaps(t, events, n, n, n);
    OneStretchIffPagesMeet(t, events, n, n);
  }

  function Stores(rows: seq<Message>): seq<Event> {
    if rows == [] then [] else [Store(rows[0])] + Stores(rows[1..])
  }

  lemma FirstStorable(table: seq<Message>, more: seq<Message>)
    requires Table(table + more) && more != []
    ensures ServerRow(more[0]) && more[0].order.value > 0 && more[0].status.Unmarked?
    ensures forall r | r in table :: r.id != more[0].id && r.order.Some? && r.order.value < more[0].order.value
  {
    var all := table + more;
    assert all[|table|] == more[0] && all[|table|] in all;
    forall r | r in table ensures r.id != more[0].id && r.order.Some? && r.order.value < more[0].order.value {
      var i :| 0 <= i < |table| && table[i] == r;
      assert all[i] == r && all[i] in all;
    }
  }

  lemma {:induction false} StoresGrow(t: Thread, more: seq<Message>, lo: nat, hi: nat)
    requires Gapless(t, lo, hi) && Table(t.table + more)
    ensures PossibleRun(t, Stores(more)) && Play(t, Stores(more)) == t.(table := t.table + more)
    ensures Gapless(Play(t, Stores(more)), lo, hi)
    decreases |more|
  {
    if more == [] {
      assert t.table + [] == t.table;
    } else {
      FirstStorable(t.table, more);
      StoreKeeps(t, more[0], lo, hi);
      assert t.table + more == (t.table + [more[0]]) + more[1..];
      StoresGrow(Next(t, Store(more[0])), more[1..], lo, hi);
      assert Stores(more)[1..] == Stores(more[1..]);
    }
  }

  /** Nothing is loaded and two pages are asked for; the first is answered, the server stores more than a page
      of further rows, the second is answered, both land: the rows in between are missing. */
  lemma UnanchoredPagesCanLeaveGap(t: Thread, more: seq<Message>)
    requires Table(t.table + more) && Inv(t.chat) && BubbleIds(t.chat)
    requires ConfirmedRows(t.chat.rows) == [] && t.requests == [] && t.table != [] && |more| > DEFAULT_PAGE
    ensures var events := [Ask, Ask, Answer(0)] + Stores(more) + [Answer(1), Land(0), Land(1)];
            PossibleRun(t, events) && !OneStretch(Play(t, events))
  {
    var n := |t.table|;
    NothingLoaded(t, more);
    var begun := TwoAsked(t, n);
    StoresGrow(begun, more, n, n);
    var stored := begun.(table := t.table + more);
    TwoLand(stored, t.table, n);
    PlayConcat(t, [Ask, Ask, Answer(0)], Stores(more));
    PlayConcat(t, [Ask, Ask, Answer(0)] + Stores(more), [Answer(1), Land(0), Land(1)]);
  }

  lemma NothingLoaded(t: Thread, more: seq<Message>)
    requires Table(t.table + more) && Inv(t.chat) && BubbleIds(t.chat)
    requires ConfirmedRows(t.chat.rows) == [] && t.requests == []
    ensures Gapless(t, |t.table|, |t.table|)
  {
    TableFront(t.table, more);
    assert t.table[|t.table|..|t.table|] == [];
  }

  lemma TableFront(table: seq<Message>, more: seq<Message>)
    requires Table(table + more)
    ensures Table(table)
  {
    var all := table + more;
    assert forall i | 0 <= i < |table| :: table[i] == all[i];
    assert forall r | r in table :: r in all;
  }

  lemma TwoAsked(t: Thread, n: nat) returns (begun: Thread)
    requires Gapless(t, n, n) && ConfirmedRows(t.chat.rows) == [] && t.requests == []
    ensures PossibleRun(t, [Ask, Ask, Answer(0)]) && begun == Play(t, [Ask, Ask, Answer(0)])
    ensures Gapless(begun, n, n) && begun.table == t.table && begun.chat == t.chat
    ensures begun.requests == [Answered(false, LatestPage(t.table), |t.answers|), Asked(None)]
  {
    var a, b := Next(t, Ask), Next(Next(t, Ask), Ask);
    AskKeeps(t, n, n);
    AskKeeps(a, n, n);
    assert b.requests == [Asked(None), Asked(None)];
    var _ := EventKeeps(b, Answer(0), n, n);
    begun := Next(b, Answer(0));
    PlayThree(t, Ask, Ask, Answer(0));
  }

  function PageStart(length: nat): nat { if length <= DEFAULT_PAGE then 0 else length - DEFAULT_PAGE }

  lemma TwoLand(t: Thread, early: seq<Message>, n: nat)
    requires Gapless(t, n, n) && 0 < n == |early| && early == t.table[..n] && |t.table| > n + DEFAULT_PAGE
    requires |t.requests| == 2 && t.requests[1] == Asked(None)
    requires t.requests[0].Answered? && t.requests[0].rows == LatestPage(early)
    ensures PossibleRun(t, [Answer(1), Land(0), Land(1)]) && !OneStretch(Play(t, [Answer(1), Land(0), Land(1)]))
  {
    var answered := Next(t, Answer(1));
    var _ := EventKeeps(t, Answer(1), n, n);
    EarlyPage(t.table, n);
    LandKeeps(answered, 0, n, n, PageStart(n), n);
    LatePageLeavesHole(Next(answered, Land(0)), PageStart(n), n);
    PlayThree(t, Answer(1), Land(0), Land(1));
  }

  lemma EarlyPage(table: seq<Message>, n: nat)
    requires n <= |table|
    ensures Slice(LatestPage(table[..n]), table, PageStart(n), n)
  {
    assert LatestPage(table[..n]) == table[PageStart(n)..n];
  }

  lemma LatePageLeavesHole(t: Thread, first: nat, n: nat)
    requires Gapless(t, first, n) && first < n && n + DEFAULT_PAGE < |t.table|
    requires Possible(t, Land(1)) && t.requests[1].rows == LatestPage(t.table)
    ensures !OneStretch(Next(t, Land(1)))
  {
    var page := LatestPage(t.table);
    EarlyPage(t.table, |t.table|);
    assert t.table[..|t.table|] == t.table;
    NoStretchAfter(t.chat.rows, t.table, first, n, page, PageStart(|t.table|), |t.table|);
    LandedList(t, 1);
  }

  /** How far one refetch gets. It was anchored when the window ended at `asked`, answered when the server
      held `stored` rows in the versions `seen`, and lands on a window that has meanwhile grown to `now`.
      Afterwards the window ends at the server's maximum of that moment if and only if at most one page of
      rows was newer than the anchor, or another refetch had already brought them. */
  lemma RefetchCatchesUpIffOnePage(
      rows: seq<Message>, table: seq<Message>, lo: nat, asked: nat, now: nat, seen: seq<Message>)
    requires WellShaped(rows) && Table(table) && Window(rows, table, lo, now)
    requires Table(seen) && Slice(seen, table, 0, |seen|) && lo < asked <= now && asked <= |seen|
    ensures var page := Respond(seen, table[asked - 1].order);
            && Window(AppendUnique(rows, page), table, lo, Max(PageEnd(seen, asked), now))
            && ((exists top :: top >= |seen| && Window(AppendUnique(rows, page), table, lo, top))
                <==> |seen| - asked <= DEFAULT_PAGE || |seen| <= now)
  {
    var end := PageEnd(seen, asked);
    var page := Respond(seen, table[asked - 1].order);
    PageAtAsk(table, asked, seen);
    var r := AppendUnique(rows, page);
    if asked < end { SliceKeepsWindowIffItMeets(rows, table, lo, now, page, asked, end); }
    assert Window(r, table, lo, Max(end, now));
    forall other: nat | Window(r, table, lo, other) ensures other == Max(end, now) {
      WindowEndIsUnique(r, table, lo, Max(end, now), other);
    }
  }

  lemma PageAtAsk(table: seq<Message>, asked: nat, seen: seq<Message>)
    requires Table(table) && Table(seen) && Slice(seen, table, 0, |seen|) && 0 < asked <= |seen|
    ensures Slice(Respond(seen, table[asked - 1].order), table, asked, PageEnd(seen, asked))
    ensures asked == PageEnd(seen, asked) ==> Respond(seen, table[asked - 1].order) == []
  {
    SliceRow(seen, table, 0, |seen|, asked - 1);
    RowHasSeq(seen, asked - 1);
    PageAfterRow(seen, asked - 1);
    SubSlice(seen, table, asked, PageEnd(seen, asked));
  }

  lemma SubSlice(seen: seq<Message>, table: seq<Message>, a: nat, b: nat)
    requires Slice(seen, table, 0, |seen|) && a <= b <= |seen|
    ensures Slice(seen[a..b], table, a, b)
  {
    forall k: nat | k < b - a ensures Outline(seen[a..b][k]) == Outline(table[a..b][k]) {
      SliceRow(seen, table, 0, |seen|, a + k);
    }
    assert |OutlineAll(seen)| == |OutlineAll(table[0..|seen|])|;
  }

  lemma WindowEndIsUnique(rows: seq<Message>, table: seq<Message>, lo: nat, h: nat, k: nat)
    requires Window(rows, table, lo, h) && Window(rows, table, lo, k)
    ensures h == k
  {
    assert |OutlineAll(table[lo..h])| == |OutlineAll(table[lo..k])|;
  }
}
