/** The bubbles of the chat list over whole runs: for every text they are a first-in, first-out queue, and each
    shows the outcome that was told last (components/chat/ChatView.tsx). */
module ChatQueues {
  import opened Options
  import opened Messages
  import opened MessageAccounting
  import opened MessagePromotions
  import opened ChatRuns

  // ---------- The queue of one text ----------

  function IdList(rows: seq<Message>): (ids: seq<string>)
    ensures |ids| == |rows| && forall i | 0 <= i < |rows| :: ids[i] == rows[i].id
  {
    if rows == [] then [] else [rows[0].id] + IdList(rows[1..])
  }

  /** The ids of the bubbles that wait with this text, in list order. */
  function Queue(rows: seq<Message>, text: string): seq<string> { IdList(Waiting(rows, text)) }

  function Skip(queue: seq<string>, id: string): (r: seq<string>)
    ensures id !in queue ==> r == queue
  {
    if queue == [] then []
    else if queue[0] == id then Skip(queue[1..], id)
    else [queue[0]] + Skip(queue[1..], id)
  }

  /** The queue of a text and the ids that the server has delivered. */
  datatype History = History(queue: seq<string>, known: set<string>)

  /** What a step does to the queue, whatever the list looks like. */
  function Hear(h: History, step: Step, text: string): History {
    match step
    case Launch(id, content, _) => if content == text then h.(queue := h.queue + [id]) else h
    case Steer(id, content, _) => if content == text then h.(queue := h.queue + [id]) else h
    case Withdraw(id) => h.(queue := Skip(h.queue, id))
    case Refetch(batch) => History(After(h.queue, NewRows(h.known, batch, text)), h.known + Ids(batch))
    case _ => h
  }

  function HearAll(h: History, steps: seq<Step>, text: string): History
    decreases |steps|
  {
    if steps == [] then h else HearAll(Hear(h, steps[0], text), steps[1..], text)
  }

  function Now(c: Chat, text: string): History { History(Queue(c.rows, text), SettledIds(c.rows)) }

  lemma IdListConcat(a: seq<Message>, b: seq<Message>)
    ensures IdList(a + b) == IdList(a) + IdList(b)
  {
  }

  lemma PushQueues(rows: seq<Message>, b: Message, text: string)
    requires Waits(b, b.content)
    ensures Queue(rows + [b], text) == if b.content == text then Queue(rows, text) + [b.id] else Queue(rows, text)
  {
    WaitingConcat(rows, [b], text);
    assert [b][1..] == [];
    IdListConcat(Waiting(rows, text), Waiting([b], text));
  }

  lemma {:induction false} DropQueues(rows: seq<Message>, id: string, text: string)
    ensures Queue(Drop(rows, id), text) == Skip(Queue(rows, text), id)
  {
    if rows != [] {
      DropQueues(rows[1..], id, text);
      if Waits(rows[0], text) {
        assert Queue(rows, text) == [rows[0].id] + Queue(rows[1..], text);
        assert Queue(rows, text)[1..] == Queue(rows[1..], text);
        if rows[0].id != id {
          var kept := [rows[0]] + Drop(rows[1..], id);
          assert kept[1..] == Drop(rows[1..], id);
          assert Queue(kept, text) == [rows[0].id] + Queue(kept[1..], text);
        }
      } else if rows[0].id != id {
        assert ([rows[0]] + Drop(rows[1..], id))[1..] == Drop(rows[1..], id);
      }
    }
  }

  lemma {:induction false} MarkQueues(rows: seq<Message>, id: string, status: Status, text: string)
    requires ProperRows(rows) && IsOptimistic(id) && (status == Sent || status == SteeringUncertain)
    ensures Queue(Mark(rows, id, status), text) == Queue(rows, text)
  {
    if rows != [] {
      var marked := Mark(rows, id, status);
      assert rows[0] in rows && forall m | m in rows[1..] :: m in rows;
      MarkQueues(rows[1..], id, status, text);
      assert Proper(rows[0]);
      assert marked[1..] == Mark(rows[1..], id, status);
      assert Waits(marked[0], text) <==> Waits(rows[0], text);
    }
  }

  lemma {:induction false} SameNewRows(a: set<string>, b: set<string>, batch: seq<Message>, text: string)
    requires forall x | x in batch :: x.id in a <==> x.id in b
    ensures NewRows(a, batch, text) == NewRows(b, batch, text)
    decreases |batch|
  {
    if batch != [] {
      assert batch[0] in batch && forall x | x in batch[1..] :: x in batch;
      SameNewRows(a + {batch[0].id}, b + {batch[0].id}, batch[1..], text);
    }
  }

  lemma RefetchQueues(c: Chat, batch: seq<Message>, text: string)
    requires Inv(c) && Enabled(c, Refetch(batch))
    ensures Now(Apply(c, Refetch(batch)), text) == Hear(Now(c, text), Refetch(batch), text)
  {
    assert forall x | x in batch :: ServerRow(x);
    ServerRowsAreNoBubbles(c.rows, batch);
    MergePopsTheQueue(c.rows, batch, text);
    SameNewRows(Ids(c.rows), SettledIds(c.rows), batch, text);
    IdListAfter(Waiting(c.rows, text), NewRows(Ids(c.rows), batch, text));
    RefetchIds(c.rows, batch);
  }

  lemma IdListAfter(rows: seq<Message>, k: nat)
    ensures IdList(After(rows, k)) == After(IdList(rows), k)
  {
  }

  lemma ServerRowsAreNoBubbles(rows: seq<Message>, batch: seq<Message>)
    requires ProperRows(rows) && forall x | x in batch :: ServerRow(x)
    ensures BubblesAreLocal(rows, batch)
    ensures forall x | x in batch :: x.id in Ids(rows) <==> x.id in SettledIds(rows)
  {
    forall m | m in rows && Waits(m, m.content) ensures m.order == None && m.id !in Ids(batch) { assert Proper(m); }
  }

  lemma StepQueues(c: Chat, step: Step, text: string)
    requires Inv(c) && BubbleIds(c) && Enabled(c, step)
    ensures Now(Apply(c, step), text) == Hear(Now(c, text), step, text)
  {
    match step
    case Launch(id, content, extra) =>
      LaunchKeeps(c, Bubble(id, content, Pending, extra));
      PushQueues(c.rows, Bubble(id, content, Pending, extra), text);
    case Steer(id, content, extra) =>
      LaunchKeeps(c, Bubble(id, content, Steering, extra));
      PushQueues(c.rows, Bubble(id, content, Steering, extra), text);
    case MarkSent(id) =>
      MarkKeeps(c, id, Sent);
      MarkQueues(c.rows, id, Sent, text);
    case MarkUncertain(id) =>
      MarkKeeps(c, id, SteeringUncertain);
      MarkQueues(c.rows, id, SteeringUncertain, text);
    case Withdraw(id) =>
      WithdrawKeeps(c, id);
      DropQueues(c.rows, id, text);
    case Refetch(batch) => RefetchQueues(c, batch, text);
  }

  lemma {:induction false} RunQueues(c: Chat, steps: seq<Step>, text: string)
    requires Inv(c) && BubbleIds(c) && Legal(c, steps)
    ensures Now(Run(c, steps), text) == HearAll(Now(c, text), steps, text)
    decreases |steps|
  {
    if steps != [] {
      StepKeeps(c, steps[0]);
      StepQueues(c, steps[0], text);
      RunQueues(Apply(c, steps[0]), steps[1..], text);
    }
  }

  /** Along every run from a loaded page, the bubbles of a text are a queue: launches and steers join at its end,
      withdrawals leave it, and each new user row of the text takes the one at its front. */
  lemma BubblesQueueUp(c: Chat, steps: seq<Step>, text: string)
    requires Loaded(c) && Legal(c, steps)
    ensures Queue(Run(c, steps).rows, text) == HearAll(History([], Ids(c.rows)), steps, text).queue
  {
    LoadedIsSafe(c);
    RunQueues(c, steps, text);
    forall i | 0 <= i < |c.rows| ensures !Waits(c.rows[i], text) { assert c.rows[i] in c.rows; }
    NoneWaiting(c.rows, text);
    forall id | id in Ids(c.rows) ensures !IsOptimistic(id) {
      var m :| m in c.rows && m.id == id;
      assert Proper(m);
    }
    assert SettledIds(c.rows) == Ids(c.rows);
  }

  // ---------- How long a bubble waits ----------

  /** How many new user rows of the text a run brings. */
  function Arrived(known: set<string>, steps: seq<Step>, text: string): nat
    decreases |steps|
  {
    if steps == [] then 0
    else match steps[0]
         case Refetch(batch) => NewRows(known, batch, text) + Arrived(known + Ids(batch), steps[1..], text)
         case _ => Arrived(known, steps[1..], text)
  }

  predicate Shows(step: Step, id: string) { (step.Launch? || step.Steer?) && step.id == id }

  /** The bubble at position p and the older ones. */
  function UpTo(queue: seq<string>, p: nat): set<string>
    requires p < |queue|
  {
    Members(queue[..p + 1])
  }

  function Members(ids: seq<string>): set<string> { set x | x in ids }

  ghost predicate OnlyAt(queue: seq<string>, p: nat, id: string) {
    p < |queue| && queue[p] == id && forall j | 0 <= j < |queue| && j != p :: queue[j] != id
  }

  lemma {:induction false} SkipMembers(queue: seq<string>, id: string)
    ensures forall x :: x in Skip(queue, id) <==> x in queue && x != id
  {
    if queue != [] {
      assert queue == [queue[0]] + queue[1..];
      SkipMembers(queue[1..], id);
    }
  }

  lemma {:induction false} SkipConcat(a: seq<string>, b: seq<string>, id: string)
    ensures Skip(a + b, id) == Skip(a, id) + Skip(b, id)
    ensures |Skip(a, id)| <= |a|
  {
    if a == [] {
      assert a + b == b;
    } else {
      assert (a + b)[1..] == a[1..] + b;
      SkipConcat(a[1..], b, id);
    }
  }

  lemma OnlyBetween(front: seq<string>, id: string, back: seq<string>)
    requires id !in front && id !in back
    ensures OnlyAt(front + ([id] + back), |front|, id)
  {
    var queue := front + ([id] + back);
    forall j | 0 <= j < |queue| && j != |front| ensures queue[j] != id {
      if j < |front| { assert queue[j] in front; } else { assert queue[j] in back; }
    }
  }

  lemma SkipAround(queue: seq<string>, p: nat, other: string)
    requires p < |queue| && queue[p] != other
    ensures Skip(queue, other) == Skip(queue[..p], other) + ([queue[p]] + Skip(queue[p + 1..], other))
    ensures |Skip(queue[..p], other)| <= p
  {
    var tail := queue[p..];
    assert queue == queue[..p] + tail && tail[1..] == queue[p + 1..];
    SkipConcat(queue[..p], tail, other);
  }

  lemma SkipMoves(queue: seq<string>, p: nat, id: string, other: string)
    requires OnlyAt(queue, p, id) && other != id
    ensures var at := |Skip(queue[..p], other)|; at <= p && OnlyAt(Skip(queue, other), at, id)
  {
    SkipAround(queue, p, other);
    SkipMembers(queue[..p], other);
    SkipMembers(queue[p + 1..], other);
    OnlyBetween(Skip(queue[..p], other), id, Skip(queue[p + 1..], other));
  }

  lemma SkipKeepsFront(queue: seq<string>, p: nat, other: string)
    requires p < |queue| && other !in UpTo(queue, p)
    ensures Skip(queue[..p], other) == queue[..p]
    ensures p < |Skip(queue, other)| && UpTo(Skip(queue, other), p) == UpTo(queue, p)
  {
    var front := queue[..p + 1];
    assert front[p] == queue[p] && front[..p] == queue[..p];
    forall i | 0 <= i < p ensures queue[..p][i] != other { assert front[i] in front; }
    SkipAround(queue, p, other);
    assert Skip(queue, other)[..p + 1] == front;
  }

  lemma PopsMove(queue: seq<string>, k: nat, p: nat, id: string)
    requires OnlyAt(queue, p, id)
    ensures k <= p ==> OnlyAt(After(queue, k), p - k, id)
    ensures k <= p ==> UpTo(After(queue, k), p - k) <= UpTo(queue, p)
    ensures k > p ==> id !in After(queue, k)
  {
    if k <= p { assert After(queue, k)[..p - k + 1] == queue[..p + 1][k..]; }
  }

  lemma {:induction false} GoneForGood(h: History, steps: seq<Step>, text: string, id: string)
    requires id !in h.queue && forall s | s in steps :: !Shows(s, id)
    ensures id !in HearAll(h, steps, text).queue
    decreases |steps|
  {
    if steps != [] {
      var step := steps[0];
      assert step in steps && forall s | s in steps[1..] :: s in steps;
      if step.Withdraw? { SkipMembers(h.queue, step.id); }
      GoneForGood(Hear(h, step, text), steps[1..], text, id);
    }
  }

  /** No step withdraws one of these bubbles. */
  ghost predicate Keep(steps: seq<Step>, ids: set<string>) {
    forall s | s in steps && s.Withdraw? :: s.id !in ids
  }

  lemma KeepRest(steps: seq<Step>, ids: set<string>, fewer: set<string>)
    requires steps != [] && fewer <= ids
    ensures Keep(steps, ids) ==> Keep(steps[1..], fewer) && (steps[0].Withdraw? ==> steps[0].id !in ids)
  {
    assert forall s | s in steps[1..] :: s in steps;
  }

  /** In the queue of a text, a bubble with p older ones still waits only if at most p new rows of the text have
      arrived; and if none of those was withdrawn, exactly then. */
  lemma {:induction false} Outlasts(h: History, steps: seq<Step>, text: string, p: nat, id: string)
    requires OnlyAt(h.queue, p, id) && forall s | s in steps :: !Shows(s, id)
    ensures id in HearAll(h, steps, text).queue ==> Arrived(h.known, steps, text) <= p
    ensures Keep(steps, UpTo(h.queue, p)) ==>
              (id in HearAll(h, steps, text).queue <==> Arrived(h.known, steps, text) <= p)
    decreases |steps|
  {
    if steps == [] {
      assert h.queue[p] in h.queue;
    } else {
      var step, rest, next := steps[0], steps[1..], Hear(h, steps[0], text);
      assert step in steps && forall s | s in rest :: s in steps;
      match step
      case Refetch(batch) =>
        var k := NewRows(h.known, batch, text);
        PopsMove(h.queue, k, p, id);
        if k <= p {
          KeepRest(steps, UpTo(h.queue, p), UpTo(next.queue, p - k));
          Outlasts(next, rest, text, p - k, id);
        } else {
          GoneForGood(next, rest, text, id);
        }
      case Withdraw(other) =>
        if other == id {
          SkipMembers(h.queue, id);
          GoneForGood(next, rest, text, id);
          assert h.queue[..p + 1][p] == id;
        } else {
          SkipMoves(h.queue, p, id, other);
          if other !in UpTo(h.queue, p) { SkipKeepsFront(h.queue, p, other); }
          KeepRest(steps, UpTo(h.queue, p), UpTo(h.queue, p));
          Outlasts(next, rest, text, |Skip(h.queue[..p], other)|, id);
        }
      case _ =>
        assert next.queue[..p + 1] == h.queue[..p + 1];
        KeepRest(steps, UpTo(h.queue, p), UpTo(next.queue, p));
        Outlasts(next, rest, text, p, id);
    }
  }

  lemma {:induction false} ShownOnce(c: Chat, steps: seq<Step>, id: string)
    requires Legal(c, steps) && id in c.texts
    ensures forall s | s in steps :: !Shows(s, id)
    decreases |steps|
  {
    if steps != [] {
      assert steps == [steps[0]] + steps[1..];
      ShownOnce(Apply(c, steps[0]), steps[1..], id);
    }
  }

  lemma QueuedOnce(c: Chat, text: string, p: nat)
    requires Inv(c) && p < |Queue(c.rows, text)|
    ensures var id := Queue(c.rows, text)[p]; OnlyAt(Queue(c.rows, text), p, id) && id in c.texts
  {
    WaitingDistinct(c.rows, text);
    WaitingMembers(c.rows, text);
    var m := Waiting(c.rows, text)[p];
    assert m in Waiting(c.rows, text);
  }

  /** From any moment of any run on: a bubble with p older ones of its text still waits only if at most p new rows
      of the text have arrived since; exactly then, if neither it nor an older one was withdrawn. */
  lemma WaitsIffFewArrived(c: Chat, before: seq<Step>, after: seq<Step>, text: string, p: nat)
    requires Loaded(c) && Legal(c, before + after) && p < |Queue(Run(c, before).rows, text)|
    ensures var mid, end := Run(c, before), Run(c, before + after);
            var queue, arrived := Queue(mid.rows, text), Arrived(SettledIds(mid.rows), after, text);
            && (queue[p] in Queue(end.rows, text) ==> arrived <= p)
            && (Keep(after, UpTo(queue, p)) ==>
                  (queue[p] in Queue(end.rows, text) <==> arrived <= p))
  {
    LoadedIsSafe(c);
    RunConcat(c, before, after);
    RunsKeep(c, before);
    var mid := Run(c, before);
    var id := Queue(mid.rows, text)[p];
    QueuedOnce(mid, text, p);
    ShownOnce(mid, after, id);
    RunQueues(mid, after, text);
    Outlasts(Now(mid, text), after, text, p, id);
  }

  // ---------- What a bubble shows ----------

  /** What the run last told about a bubble. */
  function Told(steps: seq<Step>, id: string): Option<Status> {
    if steps == [] then None
    else
      var earlier := Told(steps[..|steps| - 1], id);
      match steps[|steps| - 1]
      case Launch(shown, _, _) => if shown == id then Some(Pending) else earlier
      case Steer(shown, _, _) => if shown == id then Some(Steering) else earlier
      case MarkSent(marked) => if marked == id then Some(Sent) else earlier
      case MarkUncertain(marked) => if marked == id then Some(SteeringUncertain) else earlier
      case _ => earlier
  }

  ghost predicate ShownAs(steps: seq<Step>, m: Message) {
    !m.draft && (Launch(m.id, m.content, m.extra) in steps || Steer(m.id, m.content, m.extra) in steps)
  }

  lemma StepTells(c: Chat, front: seq<Step>, step: Step, m: Message)
    requires Inv(c) && BubbleIds(c) && Enabled(c, step)
    requires m in Apply(c, step).rows && Waits(m, m.content)
    requires forall o | o in c.rows && Waits(o, o.content) :: Told(front, o.id) == Some(o.status) && ShownAs(front, o)
    ensures Told(front + [step], m.id) == Some(m.status) && ShownAs(front + [step], m)
  {
    var steps := front + [step];
    assert steps[..|steps| - 1] == front && step in steps;
    assert forall s | s in front :: s in steps;
    match step
    case Launch(id, content, extra) => OldOrPushed(c, Bubble(id, content, Pending, extra), m);
    case Steer(id, content, extra) => OldOrPushed(c, Bubble(id, content, Steering, extra), m);
    case MarkSent(id) => var o := Unmarked(c, id, Sent, m);
    case MarkUncertain(id) => var o := Unmarked(c, id, SteeringUncertain, m);
    case Withdraw(id) => ChatRuns.DropMembers(c.rows, id);
    case Refetch(batch) =>
      assert forall x | x in batch :: ServerRow(x);
      RefetchShape(c.rows, batch);
  }

  lemma OldOrPushed(c: Chat, b: Message, m: Message)
    requires Inv(c) && b.id !in c.texts && m in c.rows + [b] && Waits(m, m.content)
    ensures m == b || (m in c.rows && m.id != b.id)
  {
    if m != b {
      assert m in c.rows && Proper(m);
      assert m.id in Pendings(c.rows);
    }
  }

  lemma Unmarked(c: Chat, id: string, status: Status, m: Message) returns (o: Message)
    requires Inv(c) && IsOptimistic(id) && m in Mark(c.rows, id, status) && Waits(m, m.content)
    ensures o in c.rows && Waits(o, o.content) && m == if o.id == id then o.(status := status) else o
  {
    var i: nat :| i < |c.rows| && Mark(c.rows, id, status)[i] == m;
    o := c.rows[i];
    assert Proper(o);
  }

  /** At every moment of every run, a waiting bubble has the text and the other fields it was launched or steered
      with, no seq, and the status that was told last about it. */
  lemma {:induction false} BubblesShowTheirOutcome(c: Chat, steps: seq<Step>, m: Message)
    requires Loaded(c) && Legal(c, steps) && m in Run(c, steps).rows && Waits(m, m.content)
    ensures Told(steps, m.id) == Some(m.status) && ShownAs(steps, m) && m.order == None
    decreases |steps|
  {
    LoadedIsSafe(c);
    RunsKeep(c, steps);
    assert Proper(m);
    if steps != [] {
      var front, step := steps[..|steps| - 1], steps[|steps| - 1];
      assert steps == front + [step];
      RunConcat(c, front, [step]);
      RunsKeep(c, front);
      var mid := Run(c, front);
      assert [step][1..] == [] && Run(mid, [step]) == Run(Apply(mid, step), []);
      forall o | o in mid.rows && Waits(o, o.content) ensures Told(front, o.id) == Some(o.status) && ShownAs(front, o) {
        BubblesShowTheirOutcome(c, front, o);
      }
      StepTells(mid, front, step, m);
    }
  }
}
