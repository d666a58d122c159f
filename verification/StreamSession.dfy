/** The streamed reply of one run (hooks/useSSE.ts): text batched behind animation frames, mirrored in a
    ref, frozen into segments when a `done` meets an armed steer, and restored on rollback. */
module StreamSession {
  import opened Options

  datatype Segment = Segment(id: string, content: string)

  /** Server events as the consumer sees them; `Boundary` is a tool call or result, `Quiet` an event that
      touches no text. */
  datatype ServerEvent =
    | Snapshot(text: string)
    | TextDelta(delta: string)
    | ThinkingDelta(delta: string)
    | ResetText
    | Boundary
    | Quiet
    | Done
    | Error

  /** `rendered` and `thinking` are React state, `mirror` the ref, `frame` the remembered frame id,
      `frames` the callbacks still due, `animated` whether requestAnimationFrame exists. */
  datatype Session = Session(
    rendered: string, mirror: string, pending: string, thinking: string, pendingThinking: string,
    frame: Option<nat>, frames: set<nat>, nextFrame: nat, animated: bool,
    armed: Option<string>, segments: seq<Segment>)

  // ---------- The source's operations ----------

  function Flush(s: Session): Session {
    var t := s.(frame := None);
    var u := if s.pending == "" then t
             else t.(pending := "", mirror := s.mirror + s.pending, rendered := s.mirror + s.pending);
    if s.pendingThinking == "" then u
    else u.(pendingThinking := "", thinking := s.thinking + s.pendingThinking)
  }

  function Schedule(s: Session): Session {
    if s.frame.Some? then s
    else if !s.animated then Flush(s)
    else s.(frame := Some(s.nextFrame), frames := s.frames + {s.nextFrame}, nextFrame := s.nextFrame + 1)
  }

  function AppendText(s: Session, delta: string): Session { Schedule(s.(pending := s.pending + delta)) }

  function AppendThinking(s: Session, delta: string): Session {
    Schedule(s.(pendingThinking := s.pendingThinking + delta))
  }

  function Cancel(s: Session): Session {
    s.(frames := if s.frame.Some? then s.frames - {s.frame.value} else s.frames,
       frame := None, pending := "", pendingThinking := "")
  }

  function ResetBuffer(s: Session): Session { Cancel(s).(mirror := "", rendered := "", thinking := "") }

  function Split(s: Session): Session { s.(pending := "", mirror := "", rendered := "") }

  function Restore(s: Session, content: string): Session {
    if content == "" then s else s.(mirror := content + s.mirror, rendered := content + s.mirror)
  }

  function Truthy(id: Option<string>): bool { id.Some? && id.value != "" }

  function Find(segments: seq<Segment>, id: string): Option<Segment> {
    if segments == [] then None
    else if segments[0].id == id then Some(segments[0])
    else Find(segments[1..], id)
  }

  function DropId(segments: seq<Segment>, id: string): seq<Segment> {
    if segments == [] then []
    else if segments[0].id == id then DropId(segments[1..], id)
    else [segments[0]] + DropId(segments[1..], id)
  }

  function Freeze(s: Session): Session {
    var f := Flush(s);
    var id := f.armed;
    var d := f.(armed := None);
    if !Truthy(id) then d
    else
      var frozen := f.mirror + f.pending;
      var split := Split(d);
      if frozen == "" then split else split.(segments := d.segments + [Segment(id.value, frozen)])
  }

  function Rollback(s: Session, id: string): Session {
    var d := if s.armed == Some(id) then s.(armed := None) else s;
    match Find(d.segments, id)
    case None => d
    case Some(hit) => Restore(d, hit.content).(segments := DropId(d.segments, id))
  }

  function Handle(s: Session, e: ServerEvent): Session {
    match e
    case Snapshot(text) => Flush(AppendText(ResetBuffer(s), text))
    case TextDelta(delta) => AppendText(s, delta)
    case ThinkingDelta(delta) => AppendThinking(s, delta)
    case ResetText => Split(s)
    case Boundary => Flush(s)
    case Quiet => s
    case Done => Freeze(s)
    case Error => Cancel(s)
  }

  /** The hook's state and refs, updated in place by its callbacks. */
  class Stream {
    var rendered: string
    var mirror: string
    var pending: string
    var thinking: string
    var pendingThinking: string
    var frame: Option<nat>
    var frames: set<nat>
    var nextFrame: nat
    const animated: bool
    var armed: Option<string>
    var segments: seq<Segment>

    function State(): Session
      reads this
    {
      Session(rendered, mirror, pending, thinking, pendingThinking, frame, frames, nextFrame, animated, armed, segments)
    }

    constructor (animated: bool)
      ensures State() == Idle(animated)
    {
      rendered, mirror, pending, thinking, pendingThinking := "", "", "", "", "";
      frame, frames, nextFrame := None, {}, 0;
      this.animated := animated;
      armed, segments := None, [];
    }

    method FlushPending()
      modifies this
      ensures State() == Flush(old(State()))
    {
      frame := None;
      if pending != "" {
        var next := mirror + pending;
        pending := "";
        mirror := next;
        rendered := next;
      }
      if pendingThinking != "" {
        var delta := pendingThinking;
        pendingThinking := "";
        thinking := thinking + delta;
      }
    }

    method ScheduleFlush()
      modifies this
      ensures State() == Schedule(old(State()))
    {
      if frame.Some? { return; }
      if !animated { FlushPending(); return; }
      frame := Some(nextFrame);
      frames := frames + {nextFrame};
      nextFrame := nextFrame + 1;
    }

    method AddText(delta: string)
      modifies this
      ensures State() == AppendText(old(State()), delta)
    {
      pending := pending + delta;
      ScheduleFlush();
    }

    method AddThinking(delta: string)
      modifies this
      ensures State() == AppendThinking(old(State()), delta)
    {
      pendingThinking := pendingThinking + delta;
      ScheduleFlush();
    }

    method CancelPendingFlush()
      modifies this
      ensures State() == Cancel(old(State()))
    {
      if frame.Some? { frames := frames - {frame.value}; }
      frame := None;
      pending := "";
      pendingThinking := "";
    }

    method Reset()
      modifies this
      ensures State() == ResetBuffer(old(State()))
    {
      CancelPendingFlush();
      mirror := "";
      rendered := "";
      thinking := "";
    }

    method SplitContent() returns (content: string)
      modifies this
      ensures State() == Split(old(State())) && content == old(mirror) + old(pending)
    {
      content := mirror + pending;
      pending := "";
      mirror := "";
      rendered := "";
    }

    method RestoreContent(content: string)
      modifies this
      ensures State() == Restore(old(State()), content)
    {
      if content == "" { return; }
      var next := content + mirror;
      mirror := next;
      rendered := next;
    }

    /** The `done` branch; true means that a steer was armed. */
    method OnDone() returns (continuation: bool)
      modifies this
      ensures State() == Freeze(old(State())) && continuation == Truthy(old(armed))
    {
      FlushPending();
      var steer := armed;
      armed := None;
      continuation := Truthy(steer);
      if continuation {
        var frozen := SplitContent();
        if frozen != "" { segments := segments + [Segment(steer.value, frozen)]; }
      }
    }

    method RollbackSegment(id: string)
      modifies this
      ensures State() == Rollback(old(State()), id)
    {
      if armed == Some(id) { armed := None; }
      var i := 0;
      while i < |segments| && segments[i].id != id
        invariant 0 <= i <= |segments|
        invariant Find(segments, id) == Find(segments[i..], id)
      {
        assert segments[i..][1..] == segments[i + 1..];
        i := i + 1;
      }
      if i < |segments| {
        RestoreContent(segments[i].content);
        segments := DropId(segments, id);
      }
    }

    /** The branches of the event loop that go on with the next event. */
    method HandleEvent(event: ServerEvent)
      requires event != Done && event != Error
      modifies this
      ensures State() == Handle(old(State()), event) && armed == old(armed)
    {
      match event {
        case Snapshot(text) =>
          Reset();
          AddText(text);
          FlushPending();
        case TextDelta(delta) => AddText(delta);
        case ThinkingDelta(delta) => AddThinking(delta);
        case ResetText =>
          var _ := SplitContent();
        case Boundary => FlushPending();
        case Quiet =>
      }
    }

    /** consume: handles the events up to the first `done` or `error`; true asks the caller to reconnect. */
    method Consume(events: seq<ServerEvent>) returns (continuation: bool)
      modifies this
      ensures State() == Run(old(State()), Steps(Taken(events)))
      ensures continuation <==>
                FirstEnd(events) < |events| && events[FirstEnd(events)] == Done
                && old(armed).Some? && old(armed).value != ""
    {
      var i := 0;
      StepsFrom(old(State()), events, 0);
      while i < |events|
        invariant 0 <= i <= FirstEnd(events)
        invariant armed == old(armed)
        invariant State() == Run(old(State()), Steps(events[..i]))
      {
        StepsFrom(old(State()), events, i);
        EndsHere(events, i);
        if events[i] == Done {
          continuation := OnDone();
          return;
        }
        if events[i] == Error {
          CancelPendingFlush();
          return false;
        }
        HandleEvent(events[i]);
        i := i + 1;
      }
      continuation := false;
    }
  }

  function Idle(animated: bool): Session {
    Session("", "", "", "", "", None, {}, 0, animated, None, [])
  }

  // ---------- Interleavings ----------

  /** Everything that can happen to the session, in any order. */
  datatype Step =
    | Server(event: ServerEvent)
    | Frame(due: nat)
    | Arm(steer: Option<string>)
    | TakeBack(id: string)
    | Stop
    | Begin
    | Clear

  predicate Possible(s: Session, step: Step) { step.Frame? ==> step.due in s.frames }

  function Apply(s: Session, step: Step): Session {
    match step
    case Server(event) => Handle(s, event)
    case Frame(id) => Flush(s.(frames := s.frames - {id}))
    case Arm(id) => s.(armed := id)
    case TakeBack(id) => Rollback(s, id)
    case Stop => Flush(s).(armed := None)
    case Begin => ResetBuffer(s).(armed := None, segments := [])
    case Clear => s.(mirror := "", rendered := "", segments := [])
  }

  ghost predicate Inv(s: Session) {
    && s.rendered == s.mirror
    && (s.frame.Some? ==> s.animated && s.frame.value in s.frames)
    && (forall f | f in s.frames :: f < s.nextFrame)
    && (s.pending != "" || s.pendingThinking != "" ==> s.frame.Some?)
  }

  /** Inv without the promise that pending text has a frame due. */
  ghost predicate Mirrored(s: Session) {
    && s.rendered == s.mirror
    && (s.frame.Some? ==> s.animated && s.frame.value in s.frames)
    && (forall f | f in s.frames :: f < s.nextFrame)
  }

  lemma FlushKeeps(s: Session)
    requires s.rendered == s.mirror && forall f | f in s.frames :: f < s.nextFrame
    ensures Inv(Flush(s))
  {
  }

  lemma ScheduleKeeps(s: Session)
    requires Mirrored(s)
    ensures Inv(Schedule(s))
  {
    FlushKeeps(s);
  }

  lemma HandleKeeps(s: Session, e: ServerEvent)
    requires Inv(s)
    ensures Inv(Handle(s, e))
  {
    match e
    case Snapshot(text) =>
      var r := ResetBuffer(s);
      ScheduleKeeps(r.(pending := r.pending + text));
      FlushKeeps(AppendText(r, text));
    case TextDelta(delta) => ScheduleKeeps(s.(pending := s.pending + delta));
    case ThinkingDelta(delta) => ScheduleKeeps(s.(pendingThinking := s.pendingThinking + delta));
    case Boundary => FlushKeeps(s);
    case Done => FlushKeeps(s);
    case _ =>
  }

  lemma StepKeeps(s: Session, step: Step)
    requires Inv(s) && Possible(s, step)
    ensures Inv(Apply(s, step))
  {
    match step
    case Server(event) => HandleKeeps(s, event);
    case Frame(due) => FlushKeeps(s.(frames := s.frames - {due}));
    case Stop => FlushKeeps(s);
    case _ =>
  }

  // ---------- One stream of events ----------

  /** Position of the first `done` or `error`, or the length. */
  function FirstEnd(events: seq<ServerEvent>): (k: nat)
    ensures k <= |events|
    ensures k < |events| ==> events[k] == Done || events[k] == Error
    ensures forall i | 0 <= i < k :: events[i] != Done && events[i] != Error
  {
    if events == [] || events[0] == Done || events[0] == Error then 0 else 1 + FirstEnd(events[1..])
  }

  /** The events up to and with that one. */
  function Taken(events: seq<ServerEvent>): seq<ServerEvent> {
    if FirstEnd(events) < |events| then events[..FirstEnd(events) + 1] else events
  }

  function Steps(events: seq<ServerEvent>): (steps: seq<Step>)
    ensures |steps| == |events| && forall i | 0 <= i < |events| :: steps[i] == Server(events[i])
  {
    if events == [] then [] else [Server(events[0])] + Steps(events[1..])
  }

  lemma EndsHere(events: seq<ServerEvent>, i: nat)
    requires i <= FirstEnd(events) && i < |events|
    ensures events[i] == Done || events[i] == Error <==> i == FirstEnd(events)
    ensures i == FirstEnd(events) ==> Taken(events) == events[..i + 1]
  {
  }

  lemma {:induction false} RunSnoc(s: Session, steps: seq<Step>, last: Step)
    ensures Run(s, steps + [last]) == Apply(Run(s, steps), last)
    decreases |steps|
  {
    if steps == [] {
      assert [last][1..] == [] && Run(Apply(s, last), []) == Apply(s, last);
    } else {
      assert (steps + [last])[1..] == steps[1..] + [last];
      RunSnoc(Apply(s, steps[0]), steps[1..], last);
    }
  }

  lemma StepsFrom(s: Session, events: seq<ServerEvent>, i: nat)
    requires i <= |events|
    ensures Run(s, Steps(events[..0])) == s && events[..|events|] == events
    ensures i < |events| ==> Run(s, Steps(events[..i + 1])) == Handle(Run(s, Steps(events[..i])), events[i])
  {
    if i < |events| {
      assert Steps(events[..i + 1]) == Steps(events[..i]) + [Server(events[i])];
      RunSnoc(s, Steps(events[..i]), Server(events[i]));
    }
  }

  // ---------- The simple machine ----------

  /** One live string, one thinking string and the frozen segments. */
  datatype Live = Live(text: string, thinking: string, armed: Option<string>, segments: seq<Segment>)

  datatype Meaning =
    | Append(delta: string)
    | Think(delta: string)
    | Replace(text: string)
    | Discard
    | Freezes
    | Nothing
    | SetArm(steer: Option<string>)
    | Unfreeze(id: string)
    | Restart
    | KeepFirst(chars: nat, thoughts: nat)
    | DropFirst(chars: nat)

  function Abstract(s: Session): Live {
    Live(s.mirror + s.pending, s.thinking + s.pendingThinking, s.armed, s.segments)
  }

  /** What a step does to the live string. Only an error, which cuts off what is not yet rendered, and a
      clear, which cuts off what is rendered, depend on how far rendering has come. */
  function MeaningOf(s: Session, step: Step): Meaning {
    match step
    case Server(event) =>
      (match event
       case Snapshot(text) => Replace(text)
       case TextDelta(delta) => Append(delta)
       case ThinkingDelta(delta) => Think(delta)
       case ResetText => Discard
       case Done => Freezes
       case Error => KeepFirst(|s.rendered|, |s.thinking|)
       case _ => Nothing)
    case Frame(_) => Nothing
    case Arm(id) => SetArm(id)
    case TakeBack(id) => Unfreeze(id)
    case Stop => SetArm(None)
    case Begin => Restart
    case Clear => DropFirst(|s.rendered|)
  }

  function Cut(text: string, n: nat): string { if n <= |text| then text[..n] else text }

  function Do(l: Live, m: Meaning): Live {
    match m
    case Append(delta) => l.(text := l.text + delta)
    case Think(delta) => l.(thinking := l.thinking + delta)
    case Replace(text) => l.(text := text, thinking := "")
    case Discard => l.(text := "")
    case Freezes =>
      var d := l.(armed := None);
      if !Truthy(l.armed) then d
      else if l.text == "" then d
      else d.(text := "", segments := l.segments + [Segment(l.armed.value, l.text)])
    case Nothing => l
    case SetArm(id) => l.(armed := id)
    case Unfreeze(id) =>
      var d := if l.armed == Some(id) then l.(armed := None) else l;
      (match Find(l.segments, id)
       case None => d
       case Some(hit) => d.(text := hit.content + l.text, segments := DropId(l.segments, id)))
    case Restart => Live("", "", None, [])
    case KeepFirst(text, thinking) => l.(text := Cut(l.text, text), thinking := Cut(l.thinking, thinking))
    case DropFirst(text) => l.(text := if text <= |l.text| then l.text[text..] else "", segments := [])
  }

  lemma FlushIsInvisible(s: Session)
    ensures Abstract(Flush(s)) == Abstract(s)
  {
  }

  lemma ScheduleIsInvisible(s: Session)
    ensures Abstract(Schedule(s)) == Abstract(s)
  {
    FlushIsInvisible(s);
  }

  lemma HandleSimulates(s: Session, e: ServerEvent)
    requires Inv(s)
    ensures Abstract(Handle(s, e)) == Do(Abstract(s), MeaningOf(s, Server(e)))
  {
    match e
    case Snapshot(text) =>
      var r := ResetBuffer(s);
      ScheduleIsInvisible(r.(pending := r.pending + text));
      FlushIsInvisible(AppendText(r, text));
    case TextDelta(delta) =>
      ScheduleIsInvisible(s.(pending := s.pending + delta));
      assert s.mirror + (s.pending + delta) == s.mirror + s.pending + delta;
    case ThinkingDelta(delta) =>
      ScheduleIsInvisible(s.(pendingThinking := s.pendingThinking + delta));
      assert s.thinking + (s.pendingThinking + delta) == s.thinking + s.pendingThinking + delta;
    case ResetText =>
    case Boundary => FlushIsInvisible(s);
    case Quiet =>
    case Done => FlushIsInvisible(s);
    case Error =>
      assert (s.mirror + s.pending)[..|s.mirror|] == s.mirror;
      assert (s.thinking + s.pendingThinking)[..|s.thinking|] == s.thinking;
  }

  lemma RollbackSimulates(s: Session, id: string)
    ensures Abstract(Rollback(s, id)) == Do(Abstract(s), Unfreeze(id))
  {
    match Find(s.segments, id)
    case Some(hit) => assert hit.content + s.mirror + s.pending == hit.content + (s.mirror + s.pending);
    case None =>
  }

  lemma ClearSimulates(s: Session)
    requires s.rendered == s.mirror
    ensures Abstract(Apply(s, Clear)) == Do(Abstract(s), DropFirst(|s.rendered|))
  {
    assert (s.mirror + s.pending)[|s.mirror|..] == s.pending;
    assert "" + s.pending == s.pending;
  }

  /** Every step does to rendered-plus-pending what the simple machine does to its one string. */
  lemma StepSimulates(s: Session, step: Step)
    requires Inv(s) && Possible(s, step)
    ensures Abstract(Apply(s, step)) == Do(Abstract(s), MeaningOf(s, step))
  {
    match step
    case Server(event) => HandleSimulates(s, event);
    case Frame(id) => FlushIsInvisible(s.(frames := s.frames - {id}));
    case TakeBack(id) => RollbackSimulates(s, id);
    case Stop => FlushIsInvisible(s);
    case Clear => ClearSimulates(s);
    case _ =>
  }

  ghost predicate PossibleRun(s: Session, steps: seq<Step>)
    decreases |steps|
  {
    steps == [] || (Possible(s, steps[0]) && PossibleRun(Apply(s, steps[0]), steps[1..]))
  }

  function Run(s: Session, steps: seq<Step>): Session
    decreases |steps|
  {
    if steps == [] then s else Run(Apply(s, steps[0]), steps[1..])
  }

  function Meanings(s: Session, steps: seq<Step>): seq<Meaning>
    decreases |steps|
  {
    if steps == [] then [] else [MeaningOf(s, steps[0])] + Meanings(Apply(s, steps[0]), steps[1..])
  }

  function DoAll(l: Live, ms: seq<Meaning>): Live
    decreases |ms|
  {
    if ms == [] then l else DoAll(Do(l, ms[0]), ms[1..])
  }

  /** Over every run, whenever frames fire and however many are stale, the batched buffer is the simple
      machine; the ref is what is rendered, what is rendered is a prefix of the live text, and text that is
      not rendered yet has a frame due. */
  lemma {:induction false} BufferRefinesImmediateAppend(s: Session, steps: seq<Step>)
    requires Inv(s) && PossibleRun(s, steps)
    ensures var end := Run(s, steps);
            && Abstract(end) == DoAll(Abstract(s), Meanings(s, steps))
            && Inv(end)
            && end.rendered == end.mirror && end.rendered <= Abstract(end).text
            && (end.rendered != Abstract(end).text || end.thinking != Abstract(end).thinking ==>
                  exists f :: f in end.frames && end.frame == Some(f))
    decreases |steps|
  {
    if steps != [] {
      StepKeeps(s, steps[0]);
      StepSimulates(s, steps[0]);
      BufferRefinesImmediateAppend(Apply(s, steps[0]), steps[1..]);
      assert Meanings(s, steps)[1..] == Meanings(Apply(s, steps[0]), steps[1..]);
    } else {
      assert s.mirror + s.pending == Abstract(s).text;
      if s.pending == "" { assert s.mirror + s.pending == s.mirror; }
      if s.pendingThinking == "" { assert s.thinking + s.pendingThinking == s.thinking; }
    }
  }

  /** When that frame fires, everything is on screen. */
  lemma DueFrameRendersAll(s: Session)
    requires Inv(s) && s.frame.Some?
    ensures Possible(s, Frame(s.frame.value))
    ensures var after := Apply(s, Frame(s.frame.value));
            after.rendered == Abstract(s).text && after.thinking == Abstract(s).thinking
  {
    assert s.pending == "" ==> s.mirror + s.pending == s.mirror;
    assert s.pendingThinking == "" ==> s.thinking + s.pendingThinking == s.thinking;
  }

  /** At every moment of every run: a tool boundary, a snapshot, a `done` and a stop put everything that was received
      on screen, so text never shows up behind a later tool; a quiet event changes nothing; a delta waits for a
      frame where there are frames and is rendered at once where there are none; and a session that is cut off
      or restarted leaves no frame of its own due, and no frame fires twice. */
  lemma WhatIsOnScreen(s: Session, steps: seq<Step>, step: Step)
    requires Inv(s) && PossibleRun(s, steps) && Possible(Run(s, steps), step)
    ensures var now := Run(s, steps);
            var after := Apply(now, step);
            && (step == Server(Boundary) || step == Server(Done) || step == Stop
                || (step.Server? && step.event.Snapshot?) ==>
                  after.rendered == Abstract(after).text && after.thinking == Abstract(after).thinking)
            && (step == Server(Quiet) ==> after == now) && (step.Frame? ==> step.due !in after.frames)
            && (step.Server? && step.event.TextDelta? ==>
                  if now.animated then after.rendered == now.rendered && after.frame.Some?
                  else after.rendered == Abstract(after).text)
            && (step == Server(Error) || step == Begin || (step.Server? && step.event.Snapshot?) ==>
                  after.frame.None? && (now.frame.Some? ==> now.frame.value !in after.frames))
  {
    BufferRefinesImmediateAppend(s, steps);
    StepShows(Run(s, steps), step);
    StepWaits(Run(s, steps), step);
  }

  lemma StepWaits(s: Session, step: Step)
    requires Inv(s)
    ensures var after := Apply(s, step);
            && (step == Server(Quiet) ==> after == s) && (step.Frame? ==> step.due !in after.frames)
            && (step.Server? && step.event.TextDelta? ==>
                  if s.animated then after.rendered == s.rendered && after.frame.Some?
                  else after.rendered == Abstract(after).text)
            && (step == Server(Error) || step == Begin || (step.Server? && step.event.Snapshot?) ==>
                  after.frame.None? && (s.frame.Some? ==> s.frame.value !in after.frames))
  {
    match step
    case Server(TextDelta(delta)) => FlushedShowsAll(s.(pending := s.pending + delta));
    case Frame(due) => FlushedShowsAll(s.(frames := s.frames - {due}));
    case _ =>
  }

  lemma FlushedShowsAll(s: Session)
    requires s.rendered == s.mirror
    ensures var f := Flush(s);
            && f.rendered == Abstract(f).text && f.thinking == Abstract(f).thinking
            && f.rendered == f.mirror && f.frame.None? && f.frames == s.frames
  {
    var f := Flush(s);
    assert f.mirror + "" == f.mirror && f.thinking + "" == f.thinking;
  }

  lemma StepShows(s: Session, step: Step)
    requires Inv(s)
    ensures step == Server(Boundary) || step == Server(Done) || step == Stop || (step.Server? && step.event.Snapshot?) ==>
              var after := Apply(s, step);
              after.rendered == Abstract(after).text && after.thinking == Abstract(after).thinking
  {
    FlushedShowsAll(s);
    match step
    case Server(Snapshot(text)) =>
      ScheduleKeeps(ResetBuffer(s).(pending := ResetBuffer(s).pending + text));
      FlushedShowsAll(AppendText(ResetBuffer(s), text));
    case Server(Done) =>
      var f := Freeze(s);
      assert f.mirror + "" == f.mirror && f.thinking + "" == f.thinking;
    case _ =>
  }

  /** A `done` freezes the live text, if there is any, under the armed id, if that is not empty; otherwise text and
      segments stay. It disarms in any case. */
  lemma DoneFreezesIffArmed(s: Session)
    requires Inv(s)
    ensures var now, after := Abstract(s), Abstract(Apply(s, Server(Done)));
            && after.armed == None && after.thinking == now.thinking
            && if now.armed.Some? && now.armed.value != ""
               then after.text == ""
                    && after.segments == now.segments + if now.text == "" then [] else [Segment(now.armed.value, now.text)]
               else after.text == now.text && after.segments == now.segments
  {
    HandleSimulates(s, Done);
    assert s.segments + [] == s.segments;
  }

  // ---------- Timing does not show ----------

  /** Errors and clears cut the text where rendering stands; all other steps do not look at it. */
  predicate Untimed(step: Step) { step != Server(Error) && !step.Clear? }

  function WithoutFrames(steps: seq<Step>): seq<Step> {
    if steps == [] then []
    else if steps[0].Frame? then WithoutFrames(steps[1..])
    else [steps[0]] + WithoutFrames(steps[1..])
  }

  function Script(steps: seq<Step>): seq<Meaning> {
    if steps == [] then [] else [MeaningOf(Idle(false), steps[0])] + Script(steps[1..])
  }

  lemma {:induction false} MeaningsFollowScript(s: Session, l: Live, steps: seq<Step>)
    requires forall i | 0 <= i < |steps| :: Untimed(steps[i])
    ensures DoAll(l, Meanings(s, steps)) == DoAll(l, Script(WithoutFrames(steps)))
    decreases |steps|
  {
    if steps != [] {
      var m := MeaningOf(s, steps[0]);
      assert Untimed(steps[0]) && m == MeaningOf(Idle(false), steps[0]);
      MeaningsFollowScript(Apply(s, steps[0]), Do(l, m), steps[1..]);
      assert Meanings(s, steps)[1..] == Meanings(Apply(s, steps[0]), steps[1..]);
      if !steps[0].Frame? {
        assert WithoutFrames(steps)[1..] == WithoutFrames(steps[1..]);
        assert Script(WithoutFrames(steps))[1..] == Script(WithoutFrames(steps[1..]));
      }
    }
  }

  lemma FollowsScript(s: Session, steps: seq<Step>)
    requires Inv(s) && PossibleRun(s, steps)
    requires forall i | 0 <= i < |steps| :: Untimed(steps[i])
    ensures Abstract(Run(s, steps)) == DoAll(Abstract(s), Script(WithoutFrames(steps)))
  {
    BufferRefinesImmediateAppend(s, steps);
    MeaningsFollowScript(s, Abstract(s), steps);
  }

  /** Two sessions that go through the same steps have the same live text, thinking and segments, however
      their frames fire, even if only one of them has animation frames at all. */
  lemma FrameTimingIsInvisible(s: Session, one: seq<Step>, t: Session, two: seq<Step>)
    requires Inv(s) && PossibleRun(s, one) && Inv(t) && PossibleRun(t, two)
    requires Abstract(s) == Abstract(t) && WithoutFrames(one) == WithoutFrames(two)
    requires forall i | 0 <= i < |one| :: Untimed(one[i])
    requires forall i | 0 <= i < |two| :: Untimed(two[i])
    ensures Abstract(Run(s, one)) == Abstract(Run(t, two))
  {
    FollowsScript(s, one);
    FollowsScript(t, two);
  }
}
