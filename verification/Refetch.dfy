/** The refetch after a run (components/chat/chat-run-utils.ts) against the server's table of a thread. */
module Refetch {
  import opened Options
  import opened StableSorting
  import opened Messages
  import opened MessageAccounting
  import opened ChatRuns

  /** Rows per response when the request names no limit. */
  const DEFAULT_PAGE: nat := 50

  // ---------- The client side ----------

  function ConfirmedRows(rows: seq<Message>): seq<Message> {
    if rows == [] then []
    else if IsUnconfirmed(rows[0]) then ConfirmedRows(rows[1..])
    else [rows[0]] + ConfirmedRows(rows[1..])
  }

  /** The seq of the last confirmed row. A missing seq and a zero seq are both falsy: no anchor. */
  function Anchor(rows: seq<Message>): Option<int> {
    var confirmed := ConfirmedRows(rows);
    if confirmed == [] then None
    else match confirmed[|confirmed| - 1].order
         case Some(n) => if n == 0 then None else Some(n)
         case None => None
  }

  /** The anchor is the seq of the last row that is not a waiting bubble, if that row has a seq other than zero. */
  lemma {:induction false} AnchorIsLastSeq(rows: seq<Message>, n: int)
    ensures Anchor(rows) == Some(n)
            <==> n != 0 && exists i :: 0 <= i < |rows| && Persisted(rows[i]) && rows[i].order == Some(n)
                                       && forall j | i < j < |rows| :: !Persisted(rows[j])
  {
    var i := LastPersisted(rows);
    if i.Some? { assert Persisted(rows[i.value]); }
  }

  predicate Persisted(m: Message) {
    m.status != Pending && m.status != Sent && m.status != Steering && m.status != SteeringUncertain
  }

  lemma {:induction false} LastPersisted(rows: seq<Message>) returns (i: Option<nat>)
    ensures match i
            case None => ConfirmedRows(rows) == [] && forall j | 0 <= j < |rows| :: !Persisted(rows[j])
            case Some(i) =>
              && i < |rows| && Persisted(rows[i]) && (forall j | i < j < |rows| :: !Persisted(rows[j]))
              && ConfirmedRows(rows) != [] && ConfirmedRows(rows)[|ConfirmedRows(rows)| - 1] == rows[i]
  {
    if rows == [] {
      i := None;
    } else {
      i := LastPersisted(rows[1..]);
      if i.Some? { i := Some(i.value + 1); } else if Persisted(rows[0]) { i := Some(0); }
    }
  }

  predicate Speakable(m: Message) { m.role.Assistant? && m.id != "" }

  ghost predicate LastSpeakable(rows: seq<Message>, id: string) {
    && id != ""
    && exists i :: 0 <= i < |rows| && rows[i].id == id && rows[i].role == Assistant
                   && forall j | i < j < |rows| :: rows[j].role == User || rows[j].id == ""
  }

  /** The view state that finalizeRunFromServer reads and writes. */
  class ThreadView {
    var messages: seq<Message>
    var hasMore: bool
    var pendingAutoSpeak: bool

    constructor (page: seq<Message>, more: bool)
      ensures messages == page && hasMore == more && !pendingAutoSpeak
    {
      messages, hasMore, pendingAutoSpeak := page, more, false;
    }

    /** The synchronous part, before the request is sent. */
    method StartRefetch() returns (anchor: Option<int>)
      ensures anchor == Anchor(messages)
    {
      var confirmed := ConfirmedRows(messages);
      anchor := None;
      if |confirmed| > 0 {
        anchor := confirmed[|confirmed| - 1].order;
        if anchor == Some(0) { anchor := None; }
      }
    }

    /** The part that runs when the response arrives, on whatever the list is by then. */
    method LandRefetch(anchor: Option<int>, rows: seq<Message>, more: bool) returns (speak: Option<string>)
      modifies this
      ensures messages == AppendUnique(old(messages), rows)
      ensures hasMore == if anchor.None? then more else old(hasMore)
      ensures !pendingAutoSpeak
      ensures speak.Some? ==> old(pendingAutoSpeak) && LastSpeakable(rows, speak.value)
      ensures speak.None? ==> !old(pendingAutoSpeak) || forall m | m in rows :: m.role == User || m.id == ""
    {
      messages := MergeRows(messages, rows);
      if anchor.None? { hasMore := more; }
      speak := None;
      if pendingAutoSpeak {
        pendingAutoSpeak := false;
        var i := |rows|;
        while i > 0 && !Speakable(rows[i - 1])
          invariant 0 <= i <= |rows|
          invariant forall j | i <= j < |rows| :: !Speakable(rows[j])
        {
          i := i - 1;
        }
        if i > 0 { speak := Some(rows[i - 1].id); }
      }
    }
  }

  // ---------- The server side ----------

  /** Rows in insertion order: increasing positive seq, one row per id, no client status. */
  ghost predicate Table(table: seq<Message>) {
    && DistinctIds(table)
    && (forall r | r in table :: ServerRow(r) && r.order.value > 0 && r.status.Unmarked?)
    && (forall i, j | 0 <= i < j < |table| && table[i].order.Some? && table[j].order.Some? ::
          table[i].order.value < table[j].order.value)
  }

  function Newer(table: seq<Message>, anchor: int): seq<Message> {
    if table == [] then []
    else if table[0].order.Some? && table[0].order.value > anchor then [table[0]] + Newer(table[1..], anchor)
    else Newer(table[1..], anchor)
  }

  /** The forward fetch: the oldest rows newer than the anchor, one page of them. */
  function RowsAfter(table: seq<Message>, anchor: int): seq<Message> {
    var newer := Newer(table, anchor);
    if |newer| <= DEFAULT_PAGE then newer else newer[..DEFAULT_PAGE]
  }

  /** The full reload: the latest page. */
  function LatestPage(table: seq<Message>): seq<Message> {
    if |table| <= DEFAULT_PAGE then table else table[|table| - DEFAULT_PAGE..]
  }

  function PageEnd(table: seq<Message>, first: nat): (next: nat) {
    if |table| <= first + DEFAULT_PAGE then |table| else first + DEFAULT_PAGE
  }

  lemma {:induction false} NewerIsSuffix(table: seq<Message>, k: nat)
    requires Table(table) && k < |table|
    ensures Newer(table, table[k].order.value) == table[k + 1..]
  {
    assert table[0] in table && table[k] in table;
    var rest := table[1..];
    assert forall r | r in rest :: r in table;
    if k == 0 {
      AllNewer(rest, table[0].order.value);
    } else {
      NewerIsSuffix(rest, k - 1);
    }
  }

  lemma {:induction false} AllNewer(rows: seq<Message>, anchor: int)
    requires forall r | r in rows :: r.order.Some? && r.order.value > anchor
    ensures Newer(rows, anchor) == rows
  {
    if rows != [] { AllNewer(rows[1..], anchor); }
  }

  lemma PageAfterRow(table: seq<Message>, k: nat)
    requires Table(table) && k < |table|
    ensures RowsAfter(table, table[k].order.value) == table[k + 1..PageEnd(table, k + 1)]
    ensures PageEnd(table, k + 1) == if |table| - (k + 1) <= 50 then |table| else k + 51
  {
    NewerIsSuffix(table, k);
  }

  // ---------- Windows of the table ----------

  /** What a rewrite of a stored row leaves alone: its id, its seq and its role. */
  function Outline(m: Message): Message { Message(m.id, m.role, "", m.order, Confirmed, false, "") }

  function OutlineAll(rows: seq<Message>): (r: seq<Message>)
    ensures |r| == |rows| && forall i | 0 <= i < |rows| :: r[i] == Outline(rows[i])
  {
    if rows == [] then [] else [Outline(rows[0])] + OutlineAll(rows[1..])
  }

  /** The outlines of the confirmed rows. */
  function Outlines(rows: seq<Message>): seq<Message> { OutlineAll(ConfirmedRows(rows)) }

  lemma OutlinesOfTail(rows: seq<Message>)
    requires rows != []
    ensures Outlines(rows) ==
            (if IsUnconfirmed(rows[0]) then [] else [Outline(rows[0])]) + Outlines(rows[1..])
  {
    if !IsUnconfirmed(rows[0]) { assert ConfirmedRows(rows)[1..] == ConfirmedRows(rows[1..]); }
  }

  /** The confirmed rows of the list are, by id, seq and role, exactly the server rows from position lo up to
      hi. */
  ghost predicate Window(rows: seq<Message>, table: seq<Message>, lo: nat, hi: nat) {
    lo <= hi <= |table| && Outlines(rows) == OutlineAll(table[lo..hi])
  }

  /** `rows` are versions of the server rows from position a up to b, of whatever time. */
  ghost predicate Slice(rows: seq<Message>, table: seq<Message>, a: nat, b: nat) {
    a <= b <= |table| && OutlineAll(rows) == OutlineAll(table[a..b])
  }

  lemma SliceRow(rows: seq<Message>, table: seq<Message>, a: nat, b: nat, k: nat)
    requires Slice(rows, table, a, b) && k < |rows|
    ensures |rows| == b - a && Outline(rows[k]) == Outline(table[a + k])
  {
    assert OutlineAll(rows)[k] == OutlineAll(table[a..b])[k];
  }

  lemma SliceShape(rows: seq<Message>, table: seq<Message>, a: nat, b: nat)
    requires Table(table) && Slice(rows, table, a, b)
    ensures |rows| == b - a && DistinctIds(rows) && forall m | m in rows :: ServerRow(m)
  {
    assert |OutlineAll(rows)| == |OutlineAll(table[a..b])|;
    forall i, j | 0 <= i < j < |rows| ensures rows[i].id != rows[j].id {
      SliceRow(rows, table, a, b, i);
      SliceRow(rows, table, a, b, j);
    }
    forall m | m in rows ensures ServerRow(m) {
      var i: nat :| i < |rows| && rows[i] == m;
      SliceRow(rows, table, a, b, i);
      assert table[a + i] in table;
    }
  }

  lemma {:induction false} OutlinesMembers(rows: seq<Message>)
    ensures forall c :: c in Outlines(rows) <==> exists m :: m in rows && !IsUnconfirmed(m) && c == Outline(m)
  {
    if rows != [] {
      OutlinesMembers(rows[1..]);
      OutlinesOfTail(rows);
      assert rows == [rows[0]] + rows[1..];
    }
  }

  lemma {:induction false} ConfirmedRowsConcat(a: seq<Message>, b: seq<Message>)
    ensures ConfirmedRows(a + b) == ConfirmedRows(a) + ConfirmedRows(b)
  {
    if a == [] {
      assert a + b == b;
    } else {
      assert (a + b)[1..] == a[1..] + b;
      ConfirmedRowsConcat(a[1..], b);
    }
  }

  lemma ShapeOfCons(head: Message, rows: seq<Message>)
    requires Sorted(rows, OrderKey) && DistinctIds(rows)
    requires forall c | c in rows :: c.id != head.id && Leq(OrderKey(head), OrderKey(c))
    ensures Sorted([head] + rows, OrderKey) && DistinctIds([head] + rows)
  {
    forall j | 0 <= j < |rows| ensures rows[j].id != head.id && Leq(OrderKey(head), OrderKey(rows[j])) {
      assert rows[j] in rows;
    }
  }

  lemma {:induction false} OutlinesShape(rows: seq<Message>)
    requires WellShaped(rows)
    ensures Sorted(Outlines(rows), OrderKey) && DistinctIds(Outlines(rows))
  {
    if rows != [] {
      ShapeTail(rows);
      OutlinesShape(rows[1..]);
      OutlinesOfTail(rows);
      if !IsUnconfirmed(rows[0]) {
        forall c | c in Outlines(rows[1..]) ensures c.id != rows[0].id && Leq(OrderKey(rows[0]), OrderKey(c)) {
          OutlinesMembers(rows[1..]);
        }
        ShapeOfCons(Outline(rows[0]), Outlines(rows[1..]));
      }
    }
  }

  ghost predicate Increasing(s: seq<Message>) {
    && (forall m | m in s :: m.order.Some?)
    && (forall i, j | 0 <= i < j < |s| && s[i].order.Some? && s[j].order.Some? ::
          s[i].order.value < s[j].order.value)
  }

  lemma {:induction false} IncreasingIsUnique(a: seq<Message>, b: seq<Message>)
    requires Increasing(a) && Increasing(b)
    requires forall m :: m in a <==> m in b
    ensures a == b
  {
    NoMembers(a);
    NoMembers(b);
    if a != [] {
      assert a[0] in b;
      assert b[0] in a;
      assert a[0].order.Some? && b[0].order.Some?;
      var i :| 0 <= i < |b| && b[i] == a[0];
      var j :| 0 <= j < |a| && a[j] == b[0];
      assert a[0] == b[0];
      forall m ensures m in a[1..] <==> m in b[1..] {
        TailMembers(a, m);
        TailMembers(b, m);
      }
      TailIncreasing(a);
      TailIncreasing(b);
      IncreasingIsUnique(a[1..], b[1..]);
    }
  }

  lemma NoMembers(s: seq<Message>)
    ensures s == [] <==> forall m :: m !in s
  {
    if s != [] { assert s[0] in s; }
  }

  lemma TailMembers(s: seq<Message>, m: Message)
    requires Increasing(s) && s != []
    ensures m in s[1..] <==> m in s && m != s[0]
  {
    assert s == [s[0]] + s[1..];
    assert s[0] in s;
    if m in s[1..] {
      var i :| 0 <= i < |s[1..]| && s[1..][i] == m;
      assert s[i + 1] == m && m in s;
    }
  }

  lemma TailIncreasing(s: seq<Message>)
    requires Increasing(s) && s != []
    ensures Increasing(s[1..])
  {
    assert forall m | m in s[1..] :: m in s;
  }

  lemma SliceIncreasing(table: seq<Message>, lo: nat, hi: nat)
    requires Table(table) && lo <= hi <= |table|
    ensures Increasing(OutlineAll(table[lo..hi]))
  {
    var c := OutlineAll(table[lo..hi]);
    forall i | 0 <= i < |c| ensures c[i].order.Some? && c[i].order == table[lo + i].order {
      assert table[lo + i] in table;
    }
  }

  /** A sorted list whose confirmed rows all come from the table holds them in table order. */
  lemma OutlinesIncreasing(rows: seq<Message>, table: seq<Message>)
    requires WellShaped(rows) && Table(table)
    requires forall m | m in rows && !IsUnconfirmed(m) :: exists x :: x in table && Outline(x) == Outline(m)
    ensures Increasing(Outlines(rows))
  {
    var c := Outlines(rows);
    OutlinesShape(rows);
    OutlinesMembers(rows);
    forall i | 0 <= i < |c| ensures exists x :: x in table && c[i] == Outline(x) {
      assert c[i] in c;
      var m :| m in rows && !IsUnconfirmed(m) && c[i] == Outline(m);
      var x :| x in table && Outline(x) == Outline(m);
      assert x in table && c[i] == Outline(x);
    }
    forall i, j | 0 <= i < j < |c| && c[i].order.Some? && c[j].order.Some?
      ensures c[i].order.value < c[j].order.value
    {
      var x :| x in table && c[i] == Outline(x);
      var y :| y in table && c[j] == Outline(y);
      SeqIdentifiesRow(table, x, y);
      assert Leq(OrderKey(c[i]), OrderKey(c[j]));
    }
  }

  lemma SeqIdentifiesRow(table: seq<Message>, x: Message, y: Message)
    requires Table(table) && x in table && y in table && x.id != y.id
    ensures x.order != y.order
  {
    var i :| 0 <= i < |table| && table[i] == x;
    var j :| 0 <= j < |table| && table[j] == y;
    assert i < j || j < i;
  }

  // ---------- Merging a slice of the table ----------

  ghost predicate InSlice(table: seq<Message>, lo: nat, hi: nat, c: Message)
    requires lo <= hi <= |table|
  {
    exists i :: lo <= i < hi && c == Outline(table[i])
  }

  lemma InSliceIffMember(table: seq<Message>, lo: nat, hi: nat, c: Message)
    requires lo <= hi <= |table|
    ensures InSlice(table, lo, hi, c) <==> c in OutlineAll(table[lo..hi])
  {
    var rows := OutlineAll(table[lo..hi]);
    assert forall i: nat | i < hi - lo :: rows[i] == Outline(table[lo + i]);
    if InSlice(table, lo, hi, c) {
      var i :| lo <= i < hi && c == Outline(table[i]);
      assert rows[i - lo] == c;
    }
    if c in rows {
      var i: nat :| i < hi - lo && rows[i] == c;
      assert c == Outline(table[lo + i]);
    }
  }

  lemma MergeOnlyUnites(rows: seq<Message>, batch: seq<Message>, c: Message)
    requires WellShaped(rows) && batch != []
    requires c in Outlines(AppendUnique(rows, batch))
    ensures c in Outlines(rows) || c in OutlineAll(batch)
  {
    var r := AppendUnique(rows, batch);
    MergeMembers(rows, batch);
    OutlinesMembers(r);
    OutlinesMembers(rows);
    var m :| m in r && !IsUnconfirmed(m) && c == Outline(m);
    if m !in rows {
      var x :| x in batch && m == Confirm(x);
      var i :| 0 <= i < |batch| && batch[i] == x;
      assert OutlineAll(batch)[i] == c;
    }
  }

  lemma DeliveredStays(rows: seq<Message>, batch: seq<Message>, x: Message)
    requires DistinctIds(rows) && DistinctIds(batch) && x in batch
    ensures Confirm(x) in AppendUnique(rows, batch)
  {
    LastVersionOfDistinct(batch, x);
    HoldsLastVersion(rows, batch, x.id);
  }

  lemma UndeliveredStays(rows: seq<Message>, batch: seq<Message>, m: Message)
    requires DistinctIds(rows) && batch != []
    requires m in rows && !IsUnconfirmed(m) && m.id !in Ids(batch)
    ensures m in AppendUnique(rows, batch)
  {
    assert m.id in Ids(AppendUnique(rows, batch)) && KeepsUndelivered(rows, batch) by {
      MergeAccountsForEveryRow(rows, batch);
    }
    var kept :| kept in AppendUnique(rows, batch) && kept.id == m.id;
    SameRow(rows, kept, m);
  }

  ghost predicate KeepsUndelivered(rows: seq<Message>, batch: seq<Message>) {
    forall m | m in AppendUnique(rows, batch) && m.id !in Ids(batch) :: m in rows
  }

  lemma SameRow(rows: seq<Message>, a: Message, b: Message)
    requires DistinctIds(rows) && a in rows && b in rows && a.id == b.id
    ensures a == b
  {
  }

  lemma MergeKeepsBoth(rows: seq<Message>, batch: seq<Message>, c: Message)
    requires WellShaped(rows) && DistinctIds(batch) && batch != []
    requires c in OutlineAll(batch) || (c in Outlines(rows) && c.id !in Ids(batch))
    ensures c in Outlines(AppendUnique(rows, batch))
  {
    OutlinesMembers(rows);
    OutlinesMembers(AppendUnique(rows, batch));
    if c in OutlineAll(batch) {
      var i :| 0 <= i < |batch| && OutlineAll(batch)[i] == c;
      assert batch[i] in batch;
      DeliveredStays(rows, batch, batch[i]);
      assert c == Outline(Confirm(batch[i]));
    } else {
      var m :| m in rows && !IsUnconfirmed(m) && c == Outline(m);
      UndeliveredStays(rows, batch, m);
    }
  }

  /** By id, seq and role, the confirmed rows after a merge are the old ones and the delivered ones. */
  lemma MergeUnites(
      rows: seq<Message>, table: seq<Message>, lo: nat, hi: nat, batch: seq<Message>, a: nat, b: nat, c: Message)
    requires WellShaped(rows) && Table(table) && Window(rows, table, lo, hi)
    requires a < b && Slice(batch, table, a, b)
    ensures c in Outlines(AppendUnique(rows, batch)) <==>
            InSlice(table, lo, hi, c) || InSlice(table, a, b, c)
  {
    SliceShape(batch, table, a, b);
    InSliceIffMember(table, lo, hi, c);
    InSliceIffMember(table, a, b, c);
    if c in Outlines(AppendUnique(rows, batch)) {
      MergeOnlyUnites(rows, batch, c);
    }
    if InSlice(table, lo, hi, c) && !InSlice(table, a, b, c) {
      NotInSlice(table, batch, a, b, lo, hi, c);
    }
    if InSlice(table, lo, hi, c) || InSlice(table, a, b, c) {
      MergeKeepsBoth(rows, batch, c);
    }
  }

  lemma NotInSlice(table: seq<Message>, batch: seq<Message>, a: nat, b: nat, lo: nat, hi: nat, c: Message)
    requires Table(table) && Slice(batch, table, a, b) && lo <= hi <= |table|
    requires InSlice(table, lo, hi, c) && !InSlice(table, a, b, c)
    ensures c.id !in Ids(batch)
  {
    var i :| lo <= i < hi && c == Outline(table[i]);
    SliceShape(batch, table, a, b);
    forall x | x in batch ensures x.id != c.id {
      var j: nat :| j < |batch| && batch[j] == x;
      SliceRow(batch, table, a, b, j);
      assert c != Outline(table[a + j]);
    }
  }

  lemma MergedShape(rows: seq<Message>, table: seq<Message>, batch: seq<Message>, a: nat, b: nat)
    requires WellShaped(rows) && Table(table) && Slice(batch, table, a, b)
    ensures WellShaped(AppendUnique(rows, batch))
  {
    SliceShape(batch, table, a, b);
    RefetchShape(rows, batch);
  }

  function Min(a: nat, b: nat): nat { if a < b then a else b }

  function Max(a: nat, b: nat): nat { if a > b then a else b }

  /** Window and slice leave no hole between them. */
  predicate Meets(lo: nat, hi: nat, a: nat, b: nat) { lo == hi || a == b || (a <= hi && lo <= b) }

  function Lower(lo: nat, hi: nat, a: nat, b: nat): nat {
    if a == b then lo else if lo == hi then a else Min(a, lo)
  }

  function Higher(lo: nat, hi: nat, a: nat, b: nat): nat {
    if a == b then hi else if lo == hi then b else Max(b, hi)
  }

  /** A slice that meets the window joins it. */
  lemma SliceJoins(
      rows: seq<Message>, table: seq<Message>, lo: nat, hi: nat, batch: seq<Message>, a: nat, b: nat)
    requires WellShaped(rows) && Table(table) && Window(rows, table, lo, hi)
    requires a < b && Slice(batch, table, a, b) && Meets(lo, hi, a, b)
    ensures Window(AppendUnique(rows, batch), table, Lower(lo, hi, a, b), Higher(lo, hi, a, b))
  {
    var r, l, h := AppendUnique(rows, batch), Lower(lo, hi, a, b), Higher(lo, hi, a, b);
    MergedShape(rows, table, batch, a, b);
    forall c ensures c in Outlines(r) <==> c in OutlineAll(table[l..h]) {
      MergeUnites(rows, table, lo, hi, batch, a, b, c);
      JoinedSlice(table, lo, hi, a, b, c);
      InSliceIffMember(table, l, h, c);
    }
    WindowByMembers(r, table, l, h);
  }

  lemma JoinedSlice(table: seq<Message>, lo: nat, hi: nat, a: nat, b: nat, c: Message)
    requires lo <= hi <= |table| && a < b <= |table| && Meets(lo, hi, a, b)
    ensures InSlice(table, Lower(lo, hi, a, b), Higher(lo, hi, a, b), c)
            <==> InSlice(table, lo, hi, c) || InSlice(table, a, b, c)
  {
    var l, h := Lower(lo, hi, a, b), Higher(lo, hi, a, b);
    if InSlice(table, l, h, c) {
      var k: nat :| l <= k < h && c == Outline(table[k]);
      assert lo <= k < hi || a <= k < b;
    }
  }

  lemma WindowByMembers(rows: seq<Message>, table: seq<Message>, l: nat, h: nat)
    requires WellShaped(rows) && Table(table) && l <= h <= |table|
    requires forall c :: c in Outlines(rows) <==> c in OutlineAll(table[l..h])
    ensures Window(rows, table, l, h)
  {
    SliceIncreasing(table, l, h);
    forall m | m in rows && !IsUnconfirmed(m) ensures exists x :: x in table && Outline(x) == Outline(m) {
      assert Outline(m) in Outlines(rows) by { OutlinesMembers(rows); }
      InSliceIffMember(table, l, h, Outline(m));
      var i :| l <= i < h && Outline(m) == Outline(table[i]);
      assert table[i] in table;
    }
    OutlinesIncreasing(rows, table);
    IncreasingIsUnique(Outlines(rows), OutlineAll(table[l..h]));
  }

  /** Merging any slice keeps a window exactly when the slice and the window meet or overlap. Two
      separate stretches leave a hole. */
  lemma SliceKeepsWindowIffItMeets(
      rows: seq<Message>, table: seq<Message>, lo: nat, hi: nat, batch: seq<Message>, a: nat, b: nat)
    requires WellShaped(rows) && Table(table) && Window(rows, table, lo, hi) && lo < hi
    requires a < b && Slice(batch, table, a, b)
    ensures (exists l, h :: Window(AppendUnique(rows, batch), table, l, h)) <==> (a <= hi && lo <= b)
    ensures a <= hi && lo <= b ==> Window(AppendUnique(rows, batch), table, Min(a, lo), Max(b, hi))
  {
    if a <= hi && lo <= b {
      SliceJoins(rows, table, lo, hi, batch, a, b);
    } else {
      forall l, h ensures !Window(AppendUnique(rows, batch), table, l, h) {
        HoleIsNoWindow(rows, table, lo, hi, batch, a, b, l, h);
      }
    }
  }

  lemma HoleIsNoWindow(
      rows: seq<Message>, table: seq<Message>, lo: nat, hi: nat, batch: seq<Message>, a: nat, b: nat, l: nat, h: nat)
    requires WellShaped(rows) && Table(table) && Window(rows, table, lo, hi) && lo < hi
    requires a < b && Slice(batch, table, a, b) && (hi < a || b < lo)
    ensures !Window(AppendUnique(rows, batch), table, l, h)
  {
    var hole := if hi < a then hi else b;
    if Window(AppendUnique(rows, batch), table, l, h) {
      Covered(rows, table, lo, hi, batch, a, b, l, h, lo);
      Covered(rows, table, lo, hi, batch, a, b, l, h, a);
      Covered(rows, table, lo, hi, batch, a, b, l, h, hole);
    }
  }

  lemma Covered(
      rows: seq<Message>, table: seq<Message>, lo: nat, hi: nat, batch: seq<Message>, a: nat, b: nat,
      l: nat, h: nat, k: nat)
    requires WellShaped(rows) && Table(table) && Window(rows, table, lo, hi)
    requires a < b && Slice(batch, table, a, b) && k < |table|
    requires Window(AppendUnique(rows, batch), table, l, h)
    ensures l <= k < h <==> lo <= k < hi || a <= k < b
  {
    var c := Outline(table[k]);
    MergeUnites(rows, table, lo, hi, batch, a, b, c);
    InSliceIffMember(table, l, h, c);
    RowPosition(table, l, h, k);
    RowPosition(table, lo, hi, k);
    RowPosition(table, a, b, k);
  }

  lemma RowPosition(table: seq<Message>, lo: nat, hi: nat, k: nat)
    requires Table(table) && lo <= hi <= |table| && k < |table|
    ensures InSlice(table, lo, hi, Outline(table[k])) <==> lo <= k < hi
  {
    if InSlice(table, lo, hi, Outline(table[k])) {
      var i :| lo <= i < hi && Outline(table[k]) == Outline(table[i]);
      assert table[i].id == table[k].id;
    }
  }
}
