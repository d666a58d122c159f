/** Freezing and rolling back steered segments keeps the streamed text (hooks/useSSE.ts). */
module Steering {
  import opened Options
  import opened StreamSession

  function Joined(segments: seq<Segment>): string {
    if segments == [] then "" else segments[0].content + Joined(segments[1..])
  }

  /** All text of the run: the frozen segments, then the live text. */
  function Total(s: Session): string { Joined(s.segments) + (s.mirror + s.pending) }

  function TotalOf(l: Live): string { Joined(l.segments) + l.text }

  function DeltaOf(step: Step): string {
    match step
    case Server(event) => if event.TextDelta? then event.delta else ""
    case _ => ""
  }

  function Received(steps: seq<Step>): string {
    if steps == [] then "" else DeltaOf(steps[0]) + Received(steps[1..])
  }

  /** No snapshot, reset, error, clear or new run: the steps that neither replace nor cut the text. */
  predicate Steady(step: Step) {
    match step
    case Server(event) => !event.Snapshot? && !event.ResetText? && !event.Error?
    case Begin => false
    case Clear => false
    case _ => true
  }

  // ---------- Segments ----------

  lemma {:induction false} JoinedConcat(a: seq<Segment>, b: seq<Segment>)
    ensures Joined(a + b) == Joined(a) + Joined(b)
  {
    if a == [] {
      assert a + b == b;
    } else {
      assert (a + b)[1..] == a[1..] + b;
      JoinedConcat(a[1..], b);
      assert a[0].content + (Joined(a[1..]) + Joined(b)) == a[0].content + Joined(a[1..]) + Joined(b);
    }
  }

  lemma JoinedSnoc(a: seq<Segment>, last: Segment)
    ensures Joined(a + [last]) == Joined(a) + last.content
  {
    JoinedConcat(a, [last]);
    assert [last][1..] == [] && last.content + "" == last.content;
  }

  lemma {:induction false} DropNothing(segments: seq<Segment>, id: string)
    requires Find(segments, id).None?
    ensures DropId(segments, id) == segments
  {
    if segments != [] { DropNothing(segments[1..], id); }
  }

  lemma {:induction false} FindMeets(segments: seq<Segment>, id: string)
    ensures Find(segments, id).None? <==> forall g | g in segments :: g.id != id
    ensures Find(segments, id).Some? ==> Find(segments, id).value in segments && Find(segments, id).value.id == id
  {
    if segments != [] {
      FindMeets(segments[1..], id);
      assert segments == [segments[0]] + segments[1..];
    }
  }

  /** Position of the segment that a rollback of `id` restores. */
  function Position(segments: seq<Segment>, id: string): (at: nat)
    requires Find(segments, id).Some?
    ensures at < |segments| && segments[at] == Find(segments, id).value && segments[at].id == id
    ensures forall g | g in segments[..at] :: g.id != id
  {
    if segments[0].id == id then 0
    else
      var at := 1 + Position(segments[1..], id);
      assert segments[..at] == [segments[0]] + segments[1..][..at - 1];
      at
  }

  lemma {:induction false} DropConcat(a: seq<Segment>, b: seq<Segment>, id: string)
    ensures DropId(a + b, id) == DropId(a, id) + DropId(b, id)
  {
    if a == [] {
      assert a + b == b;
    } else {
      assert (a + b)[1..] == a[1..] + b;
      DropConcat(a[1..], b, id);
    }
  }

  lemma {:induction false} DropAt(segments: seq<Segment>, id: string)
    requires Find(segments, id).Some?
    ensures var at := Position(segments, id);
            DropId(segments, id) == segments[..at] + DropId(segments[at + 1..], id)
  {
    if segments[0].id == id {
      assert segments[..0] + DropId(segments[1..], id) == DropId(segments[1..], id);
    } else {
      var at := Position(segments[1..], id);
      DropAt(segments[1..], id);
      assert segments[..at + 1] == [segments[0]] + segments[1..][..at];
      assert segments[at + 2..] == segments[1..][at + 1..];
    }
  }

  /** Text before, of and after a segment. */
  lemma JoinedAround(segments: seq<Segment>, at: nat)
    requires at < |segments|
    ensures Joined(segments) == Joined(segments[..at]) + segments[at].content + Joined(segments[at + 1..])
  {
    assert segments == segments[..at] + segments[at..];
    JoinedConcat(segments[..at], segments[at..]);
    JoinedFrom(segments, at);
    Regroup3(Joined(segments[..at]), segments[at].content, Joined(segments[at + 1..]));
  }

  lemma JoinedFrom(segments: seq<Segment>, at: nat)
    requires at < |segments|
    ensures Joined(segments[at..]) == segments[at].content + Joined(segments[at + 1..])
  {
    assert segments[at..][1..] == segments[at + 1..];
  }

  // ---------- Exact order ----------

  /** A rollback that finds nothing, or that hits the segment frozen last. */
  predicate HitsNewest(segments: seq<Segment>, id: string) {
    Find(segments, id).None? || Position(segments, id) == |segments| - 1
  }

  predicate NewestRollbacks(s: Session, steps: seq<Step>)
    decreases |steps|
  {
    steps == [] ||
    ((steps[0].TakeBack? ==> HitsNewest(s.segments, steps[0].id)) && NewestRollbacks(Apply(s, steps[0]), steps[1..]))
  }

  lemma FreezeKeepsTotal(l: Live)
    ensures TotalOf(Do(l, Freezes)) == TotalOf(l)
  {
    if Truthy(l.armed) && l.text != "" {
      JoinedSnoc(l.segments, Segment(l.armed.value, l.text));
    }
  }

  /** What a rollback with a unique hit does to the text: the segment moves behind the later ones. */
  lemma UnfreezeMoves(l: Live, id: string)
    requires Find(l.segments, id).Some?
    requires Find(l.segments[Position(l.segments, id) + 1..], id).None?
    ensures var at := Position(l.segments, id);
            var before, hit, later := Joined(l.segments[..at]), l.segments[at].content, Joined(l.segments[at + 1..]);
            && TotalOf(l) == before + (hit + later) + l.text
            && TotalOf(Do(l, Unfreeze(id))) == before + (later + hit) + l.text
  {
    var at := Position(l.segments, id);
    var rest := l.segments[at + 1..];
    JoinedAround(l.segments, at);
    JoinedAfterDrop(l.segments, id);
    Regrouped(Joined(l.segments[..at]), l.segments[at].content, Joined(rest), l.text);
  }

  lemma JoinedAfterDrop(segments: seq<Segment>, id: string)
    requires Find(segments, id).Some?
    requires Find(segments[Position(segments, id) + 1..], id).None?
    ensures var at := Position(segments, id);
            Joined(DropId(segments, id)) == Joined(segments[..at]) + Joined(segments[at + 1..])
  {
    var at := Position(segments, id);
    DropAt(segments, id);
    DropNothing(segments[at + 1..], id);
    JoinedConcat(segments[..at], segments[at + 1..]);
  }

  lemma Regrouped(before: string, hit: string, later: string, text: string)
    ensures before + hit + later + text == before + (hit + later) + text
    ensures (before + later) + (hit + text) == before + (later + hit) + text
  {
  }

  /** A rollback with a unique hit keeps the text in order if and only if the restored segment may trade
      places with everything frozen after it. With nothing frozen after it, it always may. */
  lemma RollbackKeepsOrderIff(l: Live, id: string)
    requires Find(l.segments, id).Some?
    requires Find(l.segments[Position(l.segments, id) + 1..], id).None?
    ensures var at := Position(l.segments, id);
            var hit, later := l.segments[at].content, Joined(l.segments[at + 1..]);
            && (TotalOf(Do(l, Unfreeze(id))) == TotalOf(l) <==> hit + later == later + hit)
            && (at == |l.segments| - 1 ==> TotalOf(Do(l, Unfreeze(id))) == TotalOf(l))
  {
    UnfreezeMoves(l, id);
    var at := Position(l.segments, id);
    var before, hit, later := Joined(l.segments[..at]), l.segments[at].content, Joined(l.segments[at + 1..]);
    Sandwich(before, hit + later, later + hit, l.text);
    if at == |l.segments| - 1 { assert hit + later == hit == later + hit; }
  }

  lemma Sandwich(front: string, a: string, b: string, back: string)
    requires |a| == |b|
    ensures front + a + back == front + b + back <==> a == b
  {
    if front + a + back == front + b + back {
      assert a == (front + a + back)[|front|..|front| + |a|];
      assert b == (front + b + back)[|front|..|front| + |b|];
    }
  }

  /** Two segments, the older one rolled back: the text comes out in the wrong order. */
  lemma OlderRollbackReorders()
    ensures var l := Live("", "", None, [Segment("a", "1"), Segment("b", "2")]);
            TotalOf(l) == "12" && TotalOf(Do(l, Unfreeze("a"))) == "21"
  {
    var segments := [Segment("a", "1"), Segment("b", "2")];
    assert segments[1..] == [Segment("b", "2")] && segments[1..][1..] == [];
    assert Joined(segments[1..]) == "2" + "";
    assert DropId(segments[1..], "a") == [Segment("b", "2")] + [];
    assert DropId(segments, "a") == [Segment("b", "2")];
  }

  lemma StepConserves(s: Session, step: Step)
    requires Inv(s) && Possible(s, step) && Steady(step)
    requires step.TakeBack? ==> HitsNewest(s.segments, step.id)
    ensures Total(Apply(s, step)) == Total(s) + DeltaOf(step)
  {
    StepSimulates(s, step);
    MeaningConserves(s, Abstract(s), step);
  }

  lemma MeaningConserves(s: Session, l: Live, step: Step)
    requires Steady(step) && (step.TakeBack? ==> HitsNewest(l.segments, step.id))
    ensures TotalOf(Do(l, MeaningOf(s, step))) == TotalOf(l) + DeltaOf(step)
  {
    assert TotalOf(l) + "" == TotalOf(l);
    match step
    case Server(TextDelta(delta)) => Regroup3(Joined(l.segments), l.text, delta);
    case Server(Done) => FreezeKeepsTotal(l);
    case TakeBack(id) => NewestRollbackKeepsTotal(l, id);
    case _ =>
  }

  lemma NewestRollbackKeepsTotal(l: Live, id: string)
    requires HitsNewest(l.segments, id)
    ensures TotalOf(Do(l, Unfreeze(id))) == TotalOf(l)
  {
    if Find(l.segments, id).Some? { RollbackKeepsOrderIff(l, id); }
  }

  /** Frozen segments followed by the live text are all the text received, for any placement of arms,
      dones and rollbacks and any frame timing, if each rollback hits the segment frozen last. */
  lemma {:induction false} SteeringConservesText(s: Session, steps: seq<Step>)
    requires Inv(s) && PossibleRun(s, steps)
    requires forall i | 0 <= i < |steps| :: Steady(steps[i])
    requires NewestRollbacks(s, steps)
    ensures Total(Run(s, steps)) == Total(s) + Received(steps)
    decreases |steps|
  {
    if steps != [] {
      var step, next, rest := steps[0], Apply(s, steps[0]), steps[1..];
      assert Steady(step);
      StepKeeps(s, step);
      StepConserves(s, step);
      SteeringConservesText(next, rest);
      Regroup3(Total(s), DeltaOf(step), Received(rest));
    }
  }

  lemma Regroup3(a: string, b: string, c: string)
    ensures a + b + c == a + (b + c)
  {
  }

  /** A steer whose `done` raced in before its rejection leaves no trace: arm, done, rollback restores the
      live text and the segments. */
  lemma RollbackUndoesSplit(s: Session, id: string)
    requires Inv(s) && id != "" && Find(s.segments, id).None? && s.armed.None?
    ensures var done := Apply(Apply(s, Arm(Some(id))), Server(Done));
            Abstract(Apply(done, TakeBack(id))) == Abstract(s)
  {
    var armed := Apply(s, Arm(Some(id)));
    var done := Apply(armed, Server(Done));
    StepSimulates(s, Arm(Some(id)));
    StepSimulates(armed, Server(Done));
    StepKeeps(armed, Server(Done));
    StepSimulates(done, TakeBack(id));
    UnfreezeUndoesFreeze(Abstract(s), id);
  }

  lemma UnfreezeUndoesFreeze(l: Live, id: string)
    requires id != "" && Find(l.segments, id).None? && l.armed.None?
    ensures Do(Do(Do(l, SetArm(Some(id))), Freezes), Unfreeze(id)) == l
  {
    if l.text != "" {
      LastIsFound(l.segments, Segment(id, l.text));
      assert l.text + "" == l.text;
    }
  }

  lemma {:induction false} LastIsFound(segments: seq<Segment>, last: Segment)
    requires Find(segments, last.id).None?
    ensures Find(segments + [last], last.id) == Some(last)
    ensures DropId(segments + [last], last.id) == segments
  {
    if segments == [] {
      assert [last][1..] == [];
    } else {
      assert (segments + [last])[1..] == segments[1..] + [last];
      LastIsFound(segments[1..], last);
    }
  }

  // ---------- Characters, for any rollback ----------

  ghost predicate DistinctSegments(segments: seq<Segment>) {
    forall i, j :: 0 <= i < j < |segments| ==> segments[i].id != segments[j].id
  }

  /** Segments have different used ids, and the armed id is used and none of theirs. */
  ghost predicate Distinct(l: Live, used: set<string>) {
    && DistinctSegments(l.segments)
    && (forall g | g in l.segments :: g.id in used)
    && (l.armed.Some? ==> l.armed.value in used && forall g | g in l.segments :: g.id != l.armed.value)
  }

  /** Each steer arms a new id. */
  predicate FreshArms(used: set<string>, steps: seq<Step>)
    decreases |steps|
  {
    steps == [] ||
    (FreshArm(used, steps[0]) && FreshArms(UsedAfter(used, steps[0]), steps[1..]))
  }

  predicate FreshArm(used: set<string>, step: Step) {
    step.Arm? && step.steer.Some? ==> step.steer.value !in used
  }

  function UsedAfter(used: set<string>, step: Step): set<string> {
    if step.Arm? && step.steer.Some? then used + {step.steer.value} else used
  }

  lemma {:induction false} DropMembers(segments: seq<Segment>, id: string)
    ensures forall g :: g in DropId(segments, id) <==> g in segments && g.id != id
  {
    if segments != [] {
      DropMembers(segments[1..], id);
      assert segments == [segments[0]] + segments[1..];
    }
  }

  lemma {:induction false} DropDistinct(segments: seq<Segment>, id: string)
    requires DistinctSegments(segments)
    ensures DistinctSegments(DropId(segments, id))
  {
    if segments != [] {
      DropDistinct(segments[1..], id);
      DropMembers(segments[1..], id);
      var kept := DropId(segments[1..], id);
      forall j | 0 <= j < |kept| ensures kept[j].id != segments[0].id {
        assert kept[j] in segments[1..];
      }
    }
  }

  lemma FreezeKeepsDistinct(l: Live, used: set<string>)
    requires Distinct(l, used)
    ensures Distinct(Do(l, Freezes), used)
  {
    forall i | 0 <= i < |l.segments| && l.armed.Some? ensures l.segments[i].id != l.armed.value {
      assert l.segments[i] in l.segments;
    }
  }

  lemma UnfreezeKeepsDistinct(l: Live, id: string, used: set<string>)
    requires Distinct(l, used)
    ensures Distinct(Do(l, Unfreeze(id)), used)
  {
    DropMembers(l.segments, id);
    DropDistinct(l.segments, id);
  }

  lemma StepKeepsDistinct(s: Session, step: Step, used: set<string>)
    requires Inv(s) && Possible(s, step) && Steady(step) && Distinct(Abstract(s), used) && FreshArm(used, step)
    ensures Distinct(Abstract(Apply(s, step)), UsedAfter(used, step))
  {
    StepSimulates(s, step);
    var l := Abstract(s);
    match MeaningOf(s, step)
    case Freezes => FreezeKeepsDistinct(l, used);
    case Unfreeze(id) => UnfreezeKeepsDistinct(l, id, used);
    case _ =>
  }

  lemma UnfreezeKeepsCharacters(l: Live, id: string)
    requires DistinctSegments(l.segments)
    ensures multiset(TotalOf(Do(l, Unfreeze(id)))) == multiset(TotalOf(l))
  {
    if Find(l.segments, id).Some? {
      var at := Position(l.segments, id);
      FindMeets(l.segments[at + 1..], id);
      UnfreezeMoves(l, id);
      Swap(Joined(l.segments[..at]), l.segments[at].content, Joined(l.segments[at + 1..]), l.text);
    }
  }

  lemma Swap(front: string, a: string, b: string, back: string)
    ensures multiset(front + (a + b) + back) == multiset(front + (b + a) + back)
  {
  }

  lemma StepKeepsCharacters(s: Session, step: Step, used: set<string>)
    requires Inv(s) && Possible(s, step) && Steady(step) && Distinct(Abstract(s), used)
    ensures multiset(Total(Apply(s, step))) == multiset(Total(s) + DeltaOf(step))
  {
    if step.TakeBack? {
      StepSimulates(s, step);
      UnfreezeKeepsCharacters(Abstract(s), step.id);
      assert Total(s) + "" == Total(s);
    } else {
      StepConserves(s, step);
    }
  }

  lemma AppendBoth(next: string, before: string, delta: string, rest: string)
    requires multiset(next) == multiset(before + delta)
    ensures multiset(next + rest) == multiset(before + (delta + rest))
  {
    assert before + delta + rest == before + (delta + rest);
    assert multiset(next + rest) == multiset(before + delta) + multiset(rest);
  }

  /** Whatever segments the rollbacks hit, no character is lost or doubled. */
  lemma {:induction false} SteeringConservesCharacters(s: Session, steps: seq<Step>, used: set<string>)
    requires Inv(s) && PossibleRun(s, steps) && Distinct(Abstract(s), used) && FreshArms(used, steps)
    requires forall i | 0 <= i < |steps| :: Steady(steps[i])
    ensures multiset(Total(Run(s, steps))) == multiset(Total(s) + Received(steps))
    decreases |steps|
  {
    if steps == [] {
      assert Total(s) + "" == Total(s);
    } else {
      assert Steady(steps[0]);
      StepKeeps(s, steps[0]);
      StepKeepsDistinct(s, steps[0], used);
      StepKeepsCharacters(s, steps[0], used);
      SteeringConservesCharacters(Apply(s, steps[0]), steps[1..], UsedAfter(used, steps[0]));
      AppendBoth(Total(Apply(s, steps[0])), Total(s), DeltaOf(steps[0]), Received(steps[1..]));
    }
  }

  lemma BeginStartsEmpty(s: Session)
    requires Inv(s)
    ensures var begun := Apply(s, Begin);
            Inv(begun) && Total(begun) == "" && Distinct(Abstract(begun), {})
  {
  }

  /** Whatever a session held before, after `begin` the segments and the live text are the deltas received since:
      in order while each rollback hits the newest segment, and character by character for any rollbacks of
      new ids. */
  lemma BegunSessionsHoldTheirDeltas(s: Session, steps: seq<Step>)
    requires Inv(s) && PossibleRun(Apply(s, Begin), steps)
    requires forall i | 0 <= i < |steps| :: Steady(steps[i])
    ensures NewestRollbacks(Apply(s, Begin), steps) ==> Total(Run(Apply(s, Begin), steps)) == Received(steps)
    ensures FreshArms({}, steps) ==> multiset(Total(Run(Apply(s, Begin), steps))) == multiset(Received(steps))
  {
    var begun := Apply(s, Begin);
    BeginStartsEmpty(s);
    assert "" + Received(steps) == Received(steps);
    if NewestRollbacks(begun, steps) { SteeringConservesText(begun, steps); }
    if FreshArms({}, steps) { SteeringConservesCharacters(begun, steps, {}); }
  }

  // ---------- One consumed stream ----------

  /** All text of the deltas. */
  function Deltas(events: seq<ServerEvent>): string {
    if events == [] then ""
    else (if events[0].TextDelta? then events[0].delta else "") + Deltas(events[1..])
  }

  lemma {:induction false} StepsArePossible(s: Session, events: seq<ServerEvent>)
    ensures PossibleRun(s, Steps(events)) && Received(Steps(events)) == Deltas(events)
    decreases |events|
  {
    if events != [] {
      assert Steps(events)[1..] == Steps(events[1..]);
      StepsArePossible(Handle(s, events[0]), events[1..]);
    }
  }

  lemma {:induction false} NoRollbacks(s: Session, steps: seq<Step>)
    requires forall i | 0 <= i < |steps| :: !steps[i].TakeBack?
    ensures NewestRollbacks(s, steps)
    decreases |steps|
  {
    if steps != [] { NoRollbacks(Apply(s, steps[0]), steps[1..]); }
  }

  lemma DoneShowsAll(s: Session)
    requires Inv(s)
    ensures var f := Freeze(s);
            && f.rendered == f.mirror && f.pending == "" && f.pendingThinking == "" && f.armed == None
            && Joined(f.segments) + f.rendered == Total(f)
            && (s.armed.Some? && s.armed.value != "" ==> f.rendered == "")
  {
    assert Freeze(s).mirror + "" == Freeze(s).rendered;
  }

  /** The state that consume leaves behind is the simple machine's after the events up to the first `done` or
      `error`; and after a `done` nothing waits for a frame. */
  lemma ConsumedStreamsRefine(s: Session, events: seq<ServerEvent>)
    requires Inv(s)
    ensures var end := Run(s, Steps(Taken(events)));
            && Inv(end) && Abstract(end) == DoAll(Abstract(s), Meanings(s, Steps(Taken(events))))
            && (FirstEnd(events) < |events| && events[FirstEnd(events)] == Done ==>
                  end.rendered == end.mirror && end.pending == "" && end.pendingThinking == "")
  {
    StepsArePossible(s, Taken(events));
    BufferRefinesImmediateAppend(s, Steps(Taken(events)));
    if FirstEnd(events) < |events| && events[FirstEnd(events)] == Done {
      var taken := events[..FirstEnd(events)];
      StepsFrom(s, events, FirstEnd(events));
      StepsArePossible(s, taken);
      BufferRefinesImmediateAppend(s, Steps(taken));
      DoneShowsAll(Run(s, Steps(taken)));
    }
  }

  /** Without snapshot, reset or error, consume leaves segments and live text as the old ones and all deltas. */
  lemma ConsumedStreamsHoldTheirDeltas(s: Session, events: seq<ServerEvent>)
    requires Inv(s) && forall e | e in Taken(events) :: !e.Snapshot? && !e.ResetText? && !e.Error?
    ensures Total(Run(s, Steps(Taken(events)))) == Total(s) + Deltas(Taken(events))
  {
    var taken := Taken(events);
    StepsArePossible(s, taken);
    forall i | 0 <= i < |taken| ensures Steady(Steps(taken)[i]) && !Steps(taken)[i].TakeBack? {
      assert taken[i] in taken;
    }
    NoRollbacks(s, Steps(taken));
    SteeringConservesText(s, Steps(taken));
  }

  ghost predicate Reply(events: seq<ServerEvent>) {
    forall e | e in events :: e.TextDelta? || e.ThinkingDelta? || e.Boundary? || e.Quiet?
  }

  lemma ReplyText(s: Session, reply: seq<ServerEvent>)
    requires Inv(s) && Reply(reply)
    ensures Total(Run(s, Steps(reply + [Done]))) == Total(s) + Deltas(reply)
  {
    var events := reply + [Done];
    EndsAtDone(reply);
    DeltasThenDone(reply);
    forall e | e in events ensures !e.Snapshot? && !e.ResetText? && !e.Error? { assert e in reply || e == Done; }
    ConsumedStreamsHoldTheirDeltas(s, events);
  }

  lemma ReplyEnd(s: Session, reply: seq<ServerEvent>)
    requires Inv(s) && Reply(reply)
    ensures Run(s, Steps(reply + [Done])) == Freeze(Run(s, Steps(reply))) && Run(s, Steps(reply)).armed == s.armed
    ensures Inv(Run(s, Steps(reply)))
  {
    EndsAtDone(reply);
    StepsFrom(s, reply + [Done], |reply|);
    StepsArePossible(s, reply);
    BufferRefinesImmediateAppend(s, Steps(reply));
    ArmedStays(s, reply);
  }

  /** A reply of deltas that ends with `done`: segments and rendered text gain exactly the deltas; and if a steer
      was armed, all of it is frozen in segments. */
  lemma RepliesHoldTheirDeltas(s: Session, reply: seq<ServerEvent>)
    requires Inv(s) && Reply(reply)
    ensures var end := Run(s, Steps(Taken(reply + [Done])));
            && Joined(end.segments) + end.rendered == Total(s) + Deltas(reply)
            && end.pending == "" && end.armed == None
            && (s.armed.Some? && s.armed.value != "" ==> end.rendered == "")
  {
    EndsAtDone(reply);
    ReplyText(s, reply);
    ReplyEnd(s, reply);
    DoneShowsAll(Run(s, Steps(reply)));
  }

  /** The same of the loop that the hook runs. */
  method ConsumeReply(stream: Stream, reply: seq<ServerEvent>) returns (continuation: bool)
    requires Inv(stream.State()) && Reply(reply)
    modifies stream
    ensures Joined(stream.segments) + stream.rendered == old(Total(stream.State())) + Deltas(reply)
    ensures continuation <==> old(stream.armed).Some? && old(stream.armed).value != ""
    ensures continuation ==> stream.rendered == ""
  {
    EndsAtDone(reply);
    RepliesHoldTheirDeltas(stream.State(), reply);
    continuation := stream.Consume(reply + [Done]);
  }

  lemma EndsAtDone(reply: seq<ServerEvent>)
    requires Reply(reply)
    ensures FirstEnd(reply + [Done]) == |reply| && Taken(reply + [Done]) == reply + [Done]
    ensures (reply + [Done])[..|reply|] == reply
  {
    DoneIsFirst(reply);
    assert (reply + [Done])[..|reply| + 1] == reply + [Done];
  }

  lemma {:induction false} DoneIsFirst(reply: seq<ServerEvent>)
    requires Reply(reply)
    ensures FirstEnd(reply + [Done]) == |reply|
  {
    if reply != [] {
      assert reply[0] in reply && forall e | e in reply[1..] :: e in reply;
      assert (reply + [Done])[1..] == reply[1..] + [Done];
      DoneIsFirst(reply[1..]);
    }
  }

  lemma {:induction false} DeltasThenDone(reply: seq<ServerEvent>)
    ensures Deltas(reply + [Done]) == Deltas(reply)
  {
    if reply == [] {
      assert [Done][1..] == [];
    } else {
      assert (reply + [Done])[1..] == reply[1..] + [Done];
      DeltasThenDone(reply[1..]);
    }
  }

  lemma {:induction false} ArmedStays(s: Session, events: seq<ServerEvent>)
    requires Reply(events)
    ensures Run(s, Steps(events)).armed == s.armed
    decreases |events|
  {
    if events != [] {
      assert events[0] in events && forall e | e in events[1..] :: e in events;
      assert Steps(events)[1..] == Steps(events[1..]);
      HandleKeepsArmed(s, events[0]);
      ArmedStays(Handle(s, events[0]), events[1..]);
    }
  }

  lemma HandleKeepsArmed(s: Session, e: ServerEvent)
    requires e != Done
    ensures Handle(s, e).armed == s.armed
  {
  }

  // ---------- Repeated ids ----------

  /** With a repeated id a rollback restores the first segment and drops the others: characters are kept
      if and only if the id is not repeated. */
  lemma RollbackKeepsCharactersIffIdUnique(l: Live, id: string)
    requires Find(l.segments, id).Some?
    requires forall g | g in l.segments :: g.content != ""
    ensures multiset(TotalOf(Do(l, Unfreeze(id)))) == multiset(TotalOf(l))
       <==> Find(l.segments[Position(l.segments, id) + 1..], id).None?
  {
    var at := Position(l.segments, id);
    var rest := l.segments[at + 1..];
    var before, hit := Joined(l.segments[..at]), l.segments[at].content;
    if Find(rest, id).None? {
      UnfreezeMoves(l, id);
      Swap(before, hit, Joined(rest), l.text);
    } else {
      RepeatedRollbackShortens(l, id);
      ShorterIsOther(TotalOf(Do(l, Unfreeze(id))), TotalOf(l));
    }
  }

  lemma ShorterIsOther(a: string, b: string)
    requires |a| < |b|
    ensures multiset(a) != multiset(b)
  {
    assert |multiset(a)| < |multiset(b)|;
  }

  lemma RepeatedRollbackShortens(l: Live, id: string)
    requires Find(l.segments, id).Some?
    requires Find(l.segments[Position(l.segments, id) + 1..], id).Some?
    requires forall g | g in l.segments :: g.content != ""
    ensures |TotalOf(Do(l, Unfreeze(id)))| < |TotalOf(l)|
  {
    var at := Position(l.segments, id);
    var rest := l.segments[at + 1..];
    JoinedAround(l.segments, at);
    DropAt(l.segments, id);
    JoinedConcat(l.segments[..at], DropId(rest, id));
    assert forall g | g in rest :: g in l.segments;
    DropShortens(rest, id);
  }

  lemma {:induction false} DropShortens(segments: seq<Segment>, id: string)
    requires forall g | g in segments :: g.content != ""
    ensures |Joined(DropId(segments, id))| <= |Joined(segments)|
    ensures Find(segments, id).Some? ==> |Joined(DropId(segments, id))| < |Joined(segments)|
  {
    if segments != [] {
      assert segments[0] in segments && forall g | g in segments[1..] :: g in segments;
      DropShortens(segments[1..], id);
    }
  }
}
