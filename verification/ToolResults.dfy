/** What a card shows, told by the events of its id alone: its name, its arguments, its result and status, its
    deadline and its steps (components/chat/ToolList.tsx). */
module ToolResults {
  import opened Options
  import opened ToolGroups
  import opened ToolCards
  import opened ToolLabels
  import opened ToolNames

  // ---------- Names and routes ----------

  function FirstName<P>(events: seq<ToolEvent<P>>, id: string): string {
    if FirstNamed(events, id) < 0 then "" else events[FirstNamed(events, id)].name
  }

  /** The tool that an event names to a dispatcher call: a call in its target, a result in its envelope. */
  function RouteOf<P>(r: Readers<P>, ev: ToolEvent<P>): Option<string> {
    var name := match ev.phase
      case Call => (match r.invokeTarget(r.unwrap(ev.payload)) case Some(t) => t.name case None => "")
      case Progress => ""
      case Result => (match r.invokeResultTool(r.unwrap(ev.payload)) case Some(name) => name case None => "");
    if name == "" then None else Some(name)
  }

  /** Event `k` routes a call of the dispatcher. */
  ghost predicate Routes<P>(r: Readers<P>, events: seq<ToolEvent<P>>, id: string, k: nat) {
    k < |events| && events[k].id == id && FirstName(events[..k + 1], id) == "invoke_tool" && RouteOf(r, events[k]).Some?
  }

  ghost predicate Dispatched<P>(r: Readers<P>, events: seq<ToolEvent<P>>, id: string) {
    exists k: nat :: Routes(r, events, id, k)
  }

  /** It gives the call another name; a result does so only for a call that was not routed before. */
  ghost predicate Renames<P>(r: Readers<P>, events: seq<ToolEvent<P>>, id: string, k: nat) {
    && Routes(r, events, id, k) && RouteOf(r, events[k]).value != "invoke_tool"
    && (events[k].phase.Result? ==> !Dispatched(r, events[..k], id))
  }

  ghost function FirstRename<P>(r: Readers<P>, events: seq<ToolEvent<P>>, id: string): (at: int)
    ensures at == -1 || (0 <= at < |events| && Renames(r, events, id, at))
    ensures forall k: nat | Renames(r, events, id, k) :: 0 <= at <= k
  {
    if events == [] then -1
    else
      var n := |events| - 1;
      var before := FirstRename(r, events[..n], id);
      PrefixRenames(r, events[..n], events[n], id);
      assert events == events[..n] + [events[n]];
      if before >= 0 || !Renames(r, events, id, n) then before else n
  }

  lemma PrefixRoutes<P>(r: Readers<P>, rest: seq<ToolEvent<P>>, ev: ToolEvent<P>, id: string)
    ensures forall k: nat | k < |rest| :: Routes(r, rest + [ev], id, k) <==> Routes(r, rest, id, k)
    ensures Dispatched(r, rest + [ev], id) <==> Dispatched(r, rest, id) || Routes(r, rest + [ev], id, |rest|)
  {
    forall k: nat | k < |rest| ensures Routes(r, rest + [ev], id, k) <==> Routes(r, rest, id, k) {
      assert (rest + [ev])[..k + 1] == rest[..k + 1];
    }
  }

  lemma PrefixRenames<P>(r: Readers<P>, rest: seq<ToolEvent<P>>, ev: ToolEvent<P>, id: string)
    ensures forall k: nat | k < |rest| :: Renames(r, rest + [ev], id, k) <==> Renames(r, rest, id, k)
  {
    PrefixRoutes(r, rest, ev, id);
    forall k: nat | k < |rest| ensures Renames(r, rest + [ev], id, k) <==> Renames(r, rest, id, k) {
      assert (rest + [ev])[..k] == rest[..k];
    }
  }

  /** The first name wins; the dispatcher's name gives way to the first other tool it is routed to. */
  ghost function NameOf<P>(r: Readers<P>, events: seq<ToolEvent<P>>, id: string): string {
    var at := FirstRename(r, events, id);
    if at < 0 then FirstName(events, id) else RouteOf(r, events[at]).value
  }

  // ---------- Payloads ----------

  /** Position of the last event of `id` in this phase, or -1. */
  function LastOf<P>(events: seq<ToolEvent<P>>, id: string, phase: Phase): (at: int)
    ensures at == -1 || (0 <= at < |events| && events[at].id == id && events[at].phase == phase)
    ensures forall k | 0 <= k < |events| && events[k].id == id && events[k].phase == phase :: k <= at
  {
    if events == [] then -1
    else
      var n := |events| - 1;
      if events[n].id == id && events[n].phase == phase then n else LastOf(events[..n], id, phase)
  }

  /** The last result, unwrapped, and without the dispatcher's envelope if the call had been routed by then. */
  ghost function ResultOf<P>(r: Readers<P>, events: seq<ToolEvent<P>>, id: string): Option<P> {
    var k := LastOf(events, id, Result);
    if k < 0 then None else Some(Unpacked(r, events[..k + 1], id, events[k].payload))
  }

  ghost function Unpacked<P>(r: Readers<P>, events: seq<ToolEvent<P>>, id: string, payload: P): P {
    if Dispatched(r, events, id) then r.invokeResult(r.unwrap(payload)) else r.unwrap(payload)
  }

  /** The arguments of the last call, or those meant for the tool that the dispatcher is sent to. */
  ghost function ArgsOf<P>(r: Readers<P>, events: seq<ToolEvent<P>>, id: string): Option<P> {
    var k := LastOf(events, id, Call);
    if k < 0 then None else Some(Meant(r, events[..k], events[k]))
  }

  /** The arguments of call `ev`, after the events `before`. */
  ghost function Meant<P>(r: Readers<P>, before: seq<ToolEvent<P>>, ev: ToolEvent<P>): P {
    var raw := r.unwrap(ev.payload);
    var target := r.invokeTarget(raw);
    var dispatcher := FirstName(before + [ev], ev.id) == "invoke_tool" && FirstRename(r, before, ev.id) < 0;
    if dispatcher && target.Some? && target.value.name != "" then target.value.args else raw
  }

  /** The deadline that arguments set; zero sets none. */
  function SetBy<P>(r: Readers<P>, args: Option<P>): Option<int> {
    match args
    case None => None
    case Some(a) => if r.deadline(a) == Some(0) then None else r.deadline(a)
  }

  /** What the last call of `id` with a deadline sets, or two minutes. */
  ghost function DeadlineOf<P>(r: Readers<P>, events: seq<ToolEvent<P>>, id: string): int {
    if events == [] then 120_000
    else
      var n := |events| - 1;
      var chosen := if events[n].id == id && events[n].phase.Call? then SetBy(r, ArgsOf(r, events, id)) else None;
      if chosen.Some? then chosen.value else DeadlineOf(r, events[..n], id)
  }

  function TextOf<P>(r: Readers<P>, ev: ToolEvent<P>): seq<string> {
    var text := r.stepText(ev.payload);
    if ev.phase.Progress? && text.Some? && text.value != "" then [text.value] else []
  }

  /** The texts of the progress events that have one, in order. */
  function StepsOf<P>(r: Readers<P>, events: seq<ToolEvent<P>>, id: string): seq<string> {
    if events == [] then []
    else
      var n := |events| - 1;
      StepsOf(r, events[..n], id) + if events[n].id == id then TextOf(r, events[n]) else []
  }

  // ---------- The first pass shows these ----------

  ghost predicate Told<P>(r: Readers<P>, events: seq<ToolEvent<P>>, g: Group<P>) {
    && g.viaInvokeTool == Dispatched(r, events, g.id)
    && g.name == NameOf(r, events, g.id)
    && g.args == ArgsOf(r, events, g.id)
    && g.result == ResultOf(r, events, g.id)
    && g.status == Standing(r, g.result)
    && g.deadlineMs == DeadlineOf(r, events, g.id)
    && g.steps == StepsOf(r, events, g.id)
  }

  function Standing<P>(r: Readers<P>, result: Option<P>): CardStatus {
    match result
    case None => Running
    case Some(p) => if r.isError(p) then Failed else if r.isAsync(p) then Async else Ok
  }

  lemma FirstNameAfter<P>(rest: seq<ToolEvent<P>>, ev: ToolEvent<P>, id: string)
    ensures FirstName(rest + [ev], id) ==
            if FirstName(rest, id) == "" && ev.id == id then ev.name else FirstName(rest, id)
  {
    NamedAfter(rest, ev, id);
    var was := FirstNamed(rest, id);
    if was >= 0 { assert (rest + [ev])[was] == rest[was]; }
  }

  lemma RenameAfter<P>(r: Readers<P>, rest: seq<ToolEvent<P>>, ev: ToolEvent<P>, id: string)
    ensures var was := FirstRename(r, rest, id);
            FirstRename(r, rest + [ev], id) ==
              if was >= 0 || !Renames(r, rest + [ev], id, |rest|) then was else |rest|
  {
    assert (rest + [ev])[..|rest|] == rest;
  }

  lemma LastAfter<P>(rest: seq<ToolEvent<P>>, ev: ToolEvent<P>, id: string, phase: Phase)
    ensures LastOf(rest + [ev], id, phase) ==
            if ev.id == id && ev.phase == phase then |rest| else LastOf(rest, id, phase)
  {
    assert (rest + [ev])[..|rest|] == rest;
  }

  lemma NameOfAfter<P>(r: Readers<P>, rest: seq<ToolEvent<P>>, ev: ToolEvent<P>, id: string)
    ensures var named := if NameOf(r, rest, id) == "" && ev.id == id then ev.name else NameOf(r, rest, id);
            NameOf(r, rest + [ev], id) ==
              if named == "invoke_tool" && Renames(r, rest + [ev], id, |rest|) then RouteOf(r, ev).value else named
  {
    var was := FirstRename(r, rest, id);
    FirstNameAfter(rest, ev, id);
    RenameAfter(r, rest, ev, id);
    if was >= 0 { assert (rest + [ev])[was] == rest[was]; }
    assert (rest + [ev])[..|rest| + 1] == rest + [ev];
  }

  /** While the call has the dispatcher's name, its first name was the dispatcher's, and nothing renamed it. */
  lemma DispatcherName<P>(r: Readers<P>, events: seq<ToolEvent<P>>, id: string)
    ensures NameOf(r, events, id) == "invoke_tool"
            <==> FirstName(events, id) == "invoke_tool" && FirstRename(r, events, id) < 0
    ensures !Dispatched(r, events, id) ==> FirstRename(r, events, id) < 0
  {
  }

  ghost function NamedBy<P>(r: Readers<P>, rest: seq<ToolEvent<P>>, ev: ToolEvent<P>): string {
    if NameOf(r, rest, ev.id) == "" then ev.name else NameOf(r, rest, ev.id)
  }

  /** What the event finds: the dispatcher's name stands exactly if the first name is the dispatcher's and no
      earlier event renamed the call. */
  lemma EventFinds<P>(r: Readers<P>, rest: seq<ToolEvent<P>>, ev: ToolEvent<P>)
    ensures NamedBy(r, rest, ev) == "invoke_tool"
            <==> FirstName(rest + [ev], ev.id) == "invoke_tool" && FirstRename(r, rest, ev.id) < 0
    ensures (rest + [ev])[..|rest| + 1] == rest + [ev] && (rest + [ev])[..|rest|] == rest
  {
    FirstNameAfter(rest, ev, ev.id);
    var was := FirstRename(r, rest, ev.id);
    if was >= 0 { assert RouteOf(r, rest[was]).value != "invoke_tool"; }
    assert (rest + [ev])[..|rest| + 1] == rest + [ev];
  }

  lemma RouteTold<P>(r: Readers<P>, rest: seq<ToolEvent<P>>, ev: ToolEvent<P>, g: Group<P>)
    requires g.id == ev.id && g.name == NameOf(r, rest, g.id) && g.viaInvokeTool == Dispatched(r, rest, g.id)
    ensures var u := Updated(r, g, ev);
            u.viaInvokeTool == Dispatched(r, rest + [ev], ev.id) && u.name == NameOf(r, rest + [ev], ev.id)
  {
    PrefixRoutes(r, rest, ev, ev.id);
    EventFinds(r, rest, ev);
    NameOfAfter(r, rest, ev, ev.id);
    DispatcherName(r, rest, ev.id);
    FirstNameAfter(rest, ev, ev.id);
    RouteSteps(r, g, ev);
  }

  /** The code's two places that route a call. */
  lemma RouteSteps<P>(r: Readers<P>, g: Group<P>, ev: ToolEvent<P>)
    ensures var u, n := Updated(r, g, ev), Named(g, ev);
            && n.name == (if g.name == "" then ev.name else g.name) && n.viaInvokeTool == g.viaInvokeTool
            && var route := n.name == "invoke_tool" && RouteOf(r, ev).Some? && (ev.phase.Result? ==> !g.viaInvokeTool);
               u.viaInvokeTool == (g.viaInvokeTool || route)
               && u.name == if route then RouteOf(r, ev).value else n.name
  {
    match ev.phase
    case Call =>
    case Progress =>
    case Result =>
  }

  lemma ResultSteps<P>(r: Readers<P>, g: Group<P>, ev: ToolEvent<P>)
    ensures var u, raw := Updated(r, g, ev), r.unwrap(ev.payload);
            if ev.phase.Result?
            then u.result == Some(if u.viaInvokeTool then r.invokeResult(raw) else raw) && u.status == Standing(r, u.result)
            else u.result == g.result && u.status == g.status
  {
    match ev.phase
    case Call =>
    case Progress =>
    case Result =>
  }

  lemma ResultAfter<P>(r: Readers<P>, rest: seq<ToolEvent<P>>, ev: ToolEvent<P>)
    requires ev.phase.Result?
    ensures var raw := r.unwrap(ev.payload);
            ResultOf(r, rest + [ev], ev.id) ==
              Some(if Dispatched(r, rest + [ev], ev.id) then r.invokeResult(raw) else raw)
  {
    LastAfter(rest, ev, ev.id, Result);
    assert (rest + [ev])[..|rest| + 1] == rest + [ev];
  }

  lemma ResultTold<P>(r: Readers<P>, rest: seq<ToolEvent<P>>, ev: ToolEvent<P>, g: Group<P>)
    requires g.id == ev.id && g.result == ResultOf(r, rest, g.id) && g.status == Standing(r, g.result)
    requires Updated(r, g, ev).viaInvokeTool == Dispatched(r, rest + [ev], ev.id)
    ensures var u := Updated(r, g, ev);
            u.result == ResultOf(r, rest + [ev], ev.id) && u.status == Standing(r, u.result)
  {
    ResultSteps(r, g, ev);
    if ev.phase.Result? { ResultAfter(r, rest, ev); } else { ResultBefore(r, rest, ev, ev.id); }
  }

  lemma ResultBefore<P>(r: Readers<P>, rest: seq<ToolEvent<P>>, ev: ToolEvent<P>, id: string)
    requires ev.id != id || !ev.phase.Result?
    ensures ResultOf(r, rest + [ev], id) == ResultOf(r, rest, id)
  {
    LastAfter(rest, ev, id, Result);
    var events, k := rest + [ev], LastOf(rest, id, Result);
    if k >= 0 { assert events[k] == rest[k] && events[..k + 1] == rest[..k + 1]; }
  }

  lemma ArgsBefore<P>(r: Readers<P>, rest: seq<ToolEvent<P>>, ev: ToolEvent<P>, id: string)
    requires ev.id != id || !ev.phase.Call?
    ensures ArgsOf(r, rest + [ev], id) == ArgsOf(r, rest, id)
  {
    LastAfter(rest, ev, id, Call);
    var events, k := rest + [ev], LastOf(rest, id, Call);
    if k >= 0 { assert events[k] == rest[k] && events[..k] == rest[..k]; }
  }

  lemma ArgsSteps<P>(r: Readers<P>, g: Group<P>, ev: ToolEvent<P>)
    ensures var raw := r.unwrap(ev.payload);
            var target, name := r.invokeTarget(raw), if g.name == "" then ev.name else g.name;
            Updated(r, g, ev).args ==
              if !ev.phase.Call? then g.args
              else Some(if name == "invoke_tool" && target.Some? && target.value.name != "" then target.value.args else raw)
  {
    match ev.phase
    case Call =>
    case Progress =>
    case Result =>
  }

  lemma ArgsAfter<P>(r: Readers<P>, rest: seq<ToolEvent<P>>, ev: ToolEvent<P>)
    requires ev.phase.Call?
    ensures var raw := r.unwrap(ev.payload);
            var target := r.invokeTarget(raw);
            ArgsOf(r, rest + [ev], ev.id) ==
              Some(if NamedBy(r, rest, ev) == "invoke_tool" && target.Some? && target.value.name != ""
                   then target.value.args else raw)
  {
    EventFinds(r, rest, ev);
    LastAfter(rest, ev, ev.id, Call);
  }

  lemma ArgsTold<P>(r: Readers<P>, rest: seq<ToolEvent<P>>, ev: ToolEvent<P>, g: Group<P>)
    requires g.id == ev.id && g.name == NameOf(r, rest, g.id) && g.args == ArgsOf(r, rest, g.id)
    ensures Updated(r, g, ev).args == ArgsOf(r, rest + [ev], ev.id)
  {
    ArgsSteps(r, g, ev);
    if ev.phase.Call? { ArgsAfter(r, rest, ev); } else { ArgsBefore(r, rest, ev, ev.id); }
  }

  lemma TimedAfter<P>(r: Readers<P>, rest: seq<ToolEvent<P>>, ev: ToolEvent<P>, id: string)
    ensures DeadlineOf(r, rest + [ev], id) ==
            var chosen := SetBy(r, ArgsOf(r, rest + [ev], id));
            if ev.id == id && ev.phase.Call? && chosen.Some? then chosen.value else DeadlineOf(r, rest, id)
  {
    assert (rest + [ev])[..|rest|] == rest;
  }

  lemma DeadlineTold<P>(r: Readers<P>, rest: seq<ToolEvent<P>>, ev: ToolEvent<P>, g: Group<P>)
    requires g.id == ev.id && g.deadlineMs == DeadlineOf(r, rest, g.id)
    requires Updated(r, g, ev).args == ArgsOf(r, rest + [ev], ev.id)
    ensures Updated(r, g, ev).deadlineMs == DeadlineOf(r, rest + [ev], ev.id)
  {
    TimedAfter(r, rest, ev, ev.id);
    DeadlineSteps(r, g, ev);
  }

  lemma DeadlineSteps<P>(r: Readers<P>, g: Group<P>, ev: ToolEvent<P>)
    ensures var u := Updated(r, g, ev);
            && (ev.phase.Call? ==> u.args.Some?)
            && u.deadlineMs ==
               if ev.phase.Call? && r.deadline(u.args.value).Some? && r.deadline(u.args.value).value != 0
               then r.deadline(u.args.value).value else g.deadlineMs
  {
    match ev.phase
    case Call =>
    case Progress =>
    case Result =>
  }

  lemma StepsTold<P>(r: Readers<P>, rest: seq<ToolEvent<P>>, ev: ToolEvent<P>, g: Group<P>)
    requires g.id == ev.id && g.steps == StepsOf(r, rest, g.id)
    ensures Updated(r, g, ev).steps == StepsOf(r, rest + [ev], ev.id)
  {
    StepsAfter(r, rest, ev, ev.id);
    StepsSteps(r, g, ev);
  }

  lemma StepsAfter<P>(r: Readers<P>, rest: seq<ToolEvent<P>>, ev: ToolEvent<P>, id: string)
    ensures StepsOf(r, rest + [ev], id) == StepsOf(r, rest, id) + (if ev.id == id then TextOf(r, ev) else [])
  {
    assert (rest + [ev])[..|rest|] == rest;
  }

  lemma StepsSteps<P>(r: Readers<P>, g: Group<P>, ev: ToolEvent<P>)
    ensures Updated(r, g, ev).steps == g.steps + TextOf(r, ev)
  {
    assert g.steps + [] == g.steps;
    match ev.phase
    case Call =>
    case Progress =>
    case Result =>
  }

  lemma EventTold<P>(r: Readers<P>, rest: seq<ToolEvent<P>>, ev: ToolEvent<P>, g: Group<P>)
    requires g.id == ev.id && Told(r, rest, g)
    ensures Told(r, rest + [ev], Updated(r, g, ev))
  {
    StatusAfter(r, g, ev);
    RouteTold(r, rest, ev, g);
    ResultTold(r, rest, ev, g);
    ArgsTold(r, rest, ev, g);
    DeadlineTold(r, rest, ev, g);
    StepsTold(r, rest, ev, g);
  }

  lemma OthersTold<P>(r: Readers<P>, rest: seq<ToolEvent<P>>, ev: ToolEvent<P>, g: Group<P>)
    requires g.id != ev.id && Told(r, rest, g)
    ensures Told(r, rest + [ev], g)
  {
    PrefixRoutes(r, rest, ev, g.id);
    NameOfAfter(r, rest, ev, g.id);
    ResultBefore(r, rest, ev, g.id);
    ArgsBefore(r, rest, ev, g.id);
    TimedAfter(r, rest, ev, g.id);
    StepsAfter(r, rest, ev, g.id);
    assert g.steps + [] == g.steps;
  }

  lemma UnseenTold<P>(r: Readers<P>, events: seq<ToolEvent<P>>, ev: ToolEvent<P>)
    requires forall i | 0 <= i < |events| :: events[i].id != ev.id
    ensures Told(r, events, NewGroup(ev).(name := ""))
  {
    assert forall k: nat :: !Routes(r, events, ev.id, k);
    NoSteps(r, events, ev.id);
  }

  lemma {:induction false} NoSteps<P>(r: Readers<P>, events: seq<ToolEvent<P>>, id: string)
    requires forall i | 0 <= i < |events| :: events[i].id != id
    ensures StepsOf(r, events, id) == [] && DeadlineOf(r, events, id) == 120_000
  {
    if events != [] { NoSteps(r, events[..|events| - 1], id); }
  }

  /** On every stream, each group of the first pass shows what the events of its id say: name, arguments, result,
      status, deadline and steps. */
  lemma {:induction false} CardsTellTheirEvents<P>(r: Readers<P>, events: seq<ToolEvent<P>>, g: Group<P>)
    requires g in FirstPass(r, events)
    ensures Told(r, events, g)
  {
    var ev, rest := events[|events| - 1], events[..|events| - 1];
    var groups := FirstPass(r, rest);
    var at := Locate(groups, ev.id);
    GroupIdsAreSeen(r, rest);
    TakenGroup(r, groups, ev, g);
    assert events == rest + [ev];
    if g.id != ev.id {
      CardsTellTheirEvents(r, rest, g);
      OthersTold(r, rest, ev, g);
    } else if at.Some? {
      CardsTellTheirEvents(r, rest, groups[at.value]);
      EventTold(r, rest, ev, groups[at.value]);
    } else {
      NewCardTold(r, rest, ev);
    }
  }

  lemma NewCardTold<P>(r: Readers<P>, rest: seq<ToolEvent<P>>, ev: ToolEvent<P>)
    requires Locate(FirstPass(r, rest), ev.id).None?
    ensures Told(r, rest + [ev], Updated(r, NewGroup(ev), ev))
  {
    LocatesExactly(FirstPass(r, rest), ev.id);
    GroupIdsAreSeen(r, rest);
    FirstSeenIds(rest);
    UnseenTold(r, rest, ev);
    NewGroupNamed(r, ev);
    EventTold(r, rest, ev, NewGroup(ev).(name := ""));
  }
}
