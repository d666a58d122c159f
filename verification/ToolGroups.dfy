/** Tool events folded into cards (components/chat/ToolList.tsx) and into the running-tool label
    (hooks/useSSE.ts). Payloads stay abstract: `Readers` holds whatever the payload classifiers are. */
module ToolGroups {
  import opened Options

  datatype Phase = Call | Progress | Result

  datatype ToolEvent<+P> = ToolEvent(id: string, phase: Phase, name: string, payload: P)

  datatype CardStatus = Running | Ok | Failed | Async

  datatype Target<+P> = Target(name: string, args: P)

  /** unwrapReaperResult, with the payload of a finished call already unwrapped. */
  datatype Reaped<+P> = ReapedDone(value: P) | ReapedError(value: P) | ReapedPending | ReapedUnknown

  datatype Readers<!P> = Readers(
    unwrap: P -> P,
    invokeTarget: P -> Option<Target<P>>,
    deadline: P -> Option<int>,
    stepText: P -> Option<string>,
    invokeResultTool: P -> Option<string>,
    invokeResult: P -> P,
    isError: P -> bool,
    isAsync: P -> bool,
    asyncKey: P -> Option<string>,
    argKey: P -> Option<string>,
    reaperKey: P -> Option<string>,
    reaperTool: P -> Option<string>,
    reaped: P -> Reaped<P>)

  const DEFAULT_DEADLINE_MS: int := 120_000
  const INVOKE_TOOL: string := "invoke_tool"
  const READER_TOOL: string := "tool_result_get"

  datatype Group<+P> = Group(
    id: string, name: string, args: Option<P>, result: Option<P>, deadlineMs: int, status: CardStatus,
    readByAgent: bool, absorbed: bool, viaInvokeTool: bool, steps: seq<string>)

  // ---------- First pass ----------

  function NewGroup<P>(ev: ToolEvent<P>): Group<P> {
    Group(ev.id, ev.name, None, None, DEFAULT_DEADLINE_MS, Running, false, false, false, [])
  }

  function Named<P>(g: Group<P>, ev: ToolEvent<P>): Group<P> {
    if g.name == "" then g.(name := ev.name) else g
  }

  /** The tool that the dispatcher's arguments name; an empty name names none. */
  function Redirect<P>(r: Readers<P>, payload: P): Option<Target<P>> {
    var target := r.invokeTarget(r.unwrap(payload));
    if target.Some? && target.value.name == "" then None else target
  }

  function Called<P>(r: Readers<P>, g: Group<P>, payload: P): Group<P> {
    var args := r.unwrap(payload);
    var target := if g.name == INVOKE_TOOL then Redirect(r, payload) else None;
    var named := match target
      case Some(t) => g.(name := t.name, args := Some(t.args), viaInvokeTool := true)
      case None => g.(args := Some(args));
    match r.deadline(named.args.value)
    case Some(d) => if d == 0 then named else named.(deadlineMs := d)
    case None => named
  }

  function Progressed<P>(r: Readers<P>, g: Group<P>, payload: P): Group<P> {
    match r.stepText(payload)
    case Some(text) => if text == "" then g else g.(steps := g.steps + [text])
    case None => g
  }

  function StatusOf<P>(r: Readers<P>, payload: P): CardStatus {
    if r.isError(payload) then Failed else if r.isAsync(payload) then Async else Ok
  }

  function Resulted<P>(r: Readers<P>, g: Group<P>, payload: P): Group<P> {
    var raw := r.unwrap(payload);
    var tool := if !g.viaInvokeTool && g.name == INVOKE_TOOL then r.invokeResultTool(raw) else None;
    var named := match tool
      case Some(t) => if t == "" then g else g.(name := t, viaInvokeTool := true)
      case None => g;
    var payload := if named.viaInvokeTool then r.invokeResult(raw) else raw;
    named.(result := Some(payload), status := StatusOf(r, payload))
  }

  function Updated<P>(r: Readers<P>, g: Group<P>, ev: ToolEvent<P>): Group<P> {
    var n := Named(g, ev);
    match ev.phase
    case Call => Called(r, n, ev.payload)
    case Progress => Progressed(r, n, ev.payload)
    case Result => Resulted(r, n, ev.payload)
  }

  function Locate<P>(groups: seq<Group<P>>, id: string): (at: Option<nat>)
    ensures at.Some? ==> at.value < |groups| && groups[at.value].id == id
    ensures at.None? ==> forall g | g in groups :: g.id != id
  {
    if groups == [] then None
    else if groups[0].id == id then Some(0)
    else match Locate(groups[1..], id)
         case Some(at) => Some(at + 1)
         case None => None
  }

  function Take<P>(r: Readers<P>, groups: seq<Group<P>>, ev: ToolEvent<P>): seq<Group<P>> {
    match Locate(groups, ev.id)
    case Some(at) => groups[at := Updated(r, groups[at], ev)]
    case None => groups + [Updated(r, NewGroup(ev), ev)]
  }

  function FirstPass<P>(r: Readers<P>, events: seq<ToolEvent<P>>): seq<Group<P>> {
    if events == [] then []
    else Take(r, FirstPass(r, events[..|events| - 1]), events[|events| - 1])
  }

  // ---------- Second pass ----------

  /** Async handoffs by key; for a repeated key the last one counts. */
  function AsyncKeys<P>(r: Readers<P>, groups: seq<Group<P>>): (keys: map<string, nat>)
    ensures forall k | k in keys :: keys[k] < |groups|
  {
    if groups == [] then map[]
    else
      var n := |groups| - 1;
      var keys := AsyncKeys(r, groups[..n]);
      match HandoffKey(r, groups[n])
      case Some(k) => keys[k := n]
      case None => keys
  }

  function HandoffKey<P>(r: Readers<P>, g: Group<P>): Option<string> {
    if g.status.Async? && g.result.Some? then
      var k := r.asyncKey(g.result.value);
      if k == Some("") then None else k
    else None
  }

  /** The key a reader call names: in its arguments, else in its result; an empty key names nothing. */
  function WantedKey<P>(r: Readers<P>, g: Group<P>): Option<string> {
    var fromArgs := if g.args.Some? then r.argKey(g.args.value) else None;
    var key := if fromArgs.Some? then fromArgs
               else if g.result.Some? then r.reaperKey(g.result.value) else None;
    if key == Some("") then None else key
  }

  /** Position of the handoff that group `g` reads, if `g` is a reader call and the handoff exists. */
  function TargetOf<P>(r: Readers<P>, keys: map<string, nat>, g: Group<P>): Option<nat> {
    if g.name != READER_TOOL then None
    else match WantedKey(r, g)
         case Some(k) => if k in keys then Some(keys[k]) else None
         case None => None
  }

  function Verdict<P>(r: Readers<P>, g: Group<P>): Option<(P, CardStatus)> {
    if g.status.Running? || g.result.None? then None
    else match r.reaped(g.result.value)
         case ReapedDone(value) => Some((r.unwrap(value), if r.isError(r.unwrap(value)) then Failed else Ok))
         case ReapedError(value) => Some((r.unwrap(value), Failed))
         case _ => None
  }

  /** The handoff card after reader `g` has been read into it. */
  function ReadInto<P>(r: Readers<P>, target: Group<P>, g: Group<P>): Group<P> {
    var inferred := if target.name == "" && g.result.Some? then r.reaperTool(g.result.value) else None;
    var named := (if inferred.Some? && inferred.value != "" then target.(name := inferred.value) else target)
      .(readByAgent := true);
    match Verdict(r, g)
    case Some((result, status)) => named.(result := Some(result), status := status)
    case None => named
  }

  function MergeReader<P>(r: Readers<P>, keys: map<string, nat>, groups: seq<Group<P>>, i: nat): (m: seq<Group<P>>)
    requires i < |groups| && forall k | k in keys :: keys[k] < |groups|
    ensures |m| == |groups|
  {
    match TargetOf(r, keys, groups[i])
    case None => groups
    case Some(t) =>
      var read := groups[t := ReadInto(r, groups[t], groups[i])];
      read[i := read[i].(absorbed := true)]
  }

  function MergeReaders<P>(r: Readers<P>, keys: map<string, nat>, groups: seq<Group<P>>, upto: nat): (m: seq<Group<P>>)
    requires upto <= |groups| && forall k | k in keys :: keys[k] < |groups|
    ensures |m| == |groups|
  {
    if upto == 0 then groups else MergeReader(r, keys, MergeReaders(r, keys, groups, upto - 1), upto - 1)
  }

  function Merged<P>(r: Readers<P>, groups: seq<Group<P>>): (m: seq<Group<P>>)
    ensures |m| == |groups|
  {
    MergeReaders(r, AsyncKeys(r, groups), groups, |groups|)
  }

  function Visible<P>(groups: seq<Group<P>>): seq<Group<P>> {
    if groups == [] then []
    else if groups[0].absorbed then Visible(groups[1..])
    else [groups[0]] + Visible(groups[1..])
  }

  /** The event loop: a list of groups in insertion order, updated in place. */
  method GroupEvents<P>(r: Readers<P>, events: seq<ToolEvent<P>>) returns (groups: seq<Group<P>>)
    ensures groups == FirstPass(r, events)
  {
    groups := [];
    for i := 0 to |events|
      invariant groups == FirstPass(r, events[..i])
    {
      var ev := events[i];
      assert events[..i + 1][..i] == events[..i];
      var at := Locate(groups, ev.id);
      if at.None? {
        groups := groups + [Updated(r, NewGroup(ev), ev)];
      } else {
        groups := groups[at.value := Updated(r, groups[at.value], ev)];
      }
    }
    assert events[..|events|] == events;
  }

  method IndexHandoffs<P>(r: Readers<P>, groups: seq<Group<P>>) returns (byAsyncKey: map<string, nat>)
    ensures byAsyncKey == AsyncKeys(r, groups)
  {
    byAsyncKey := map[];
    for i := 0 to |groups|
      invariant byAsyncKey == AsyncKeys(r, groups[..i])
    {
      assert groups[..i + 1][..i] == groups[..i];
      var key := HandoffKey(r, groups[i]);
      if key.Some? { byAsyncKey := byAsyncKey[key.value := i]; }
    }
    assert groups[..|groups|] == groups;
  }

  method AbsorbReaders<P>(r: Readers<P>, byAsyncKey: map<string, nat>, first: seq<Group<P>>)
    returns (groups: seq<Group<P>>)
    requires forall k | k in byAsyncKey :: byAsyncKey[k] < |first|
    ensures groups == MergeReaders(r, byAsyncKey, first, |first|)
  {
    groups := first;
    for i := 0 to |first|
      invariant groups == MergeReaders(r, byAsyncKey, first, i)
    {
      var target := TargetOf(r, byAsyncKey, groups[i]);
      if target.Some? {
        groups := groups[target.value := ReadInto(r, groups[target.value], groups[i])];
        groups := groups[i := groups[i].(absorbed := true)];
      }
    }
  }

  /** groupByCallId. */
  method GroupByCallId<P>(r: Readers<P>, events: seq<ToolEvent<P>>) returns (cards: seq<Group<P>>)
    ensures cards == Visible(Merged(r, FirstPass(r, events)))
  {
    var groups := GroupEvents(r, events);
    var byAsyncKey := IndexHandoffs(r, groups);
    groups := AbsorbReaders(r, byAsyncKey, groups);
    cards := Visible(groups);
  }

  // ---------- The running-tool label ----------

  /** One entry of the label's Map. */
  datatype Active = Active(id: string, name: string)

  function SetActive(active: seq<Active>, id: string, name: string): seq<Active> {
    if active == [] then [Active(id, name)]
    else if active[0].id == id then [Active(id, name)] + active[1..]
    else [active[0]] + SetActive(active[1..], id, name)
  }

  function DropActive(active: seq<Active>, id: string): seq<Active> {
    if active == [] then []
    else if active[0].id == id then active[1..]
    else [active[0]] + DropActive(active[1..], id)
  }

  function Note<P>(active: seq<Active>, ev: ToolEvent<P>): seq<Active> {
    match ev.phase
    case Call => SetActive(active, ev.id, ev.name)
    case Progress => active
    case Result => DropActive(active, ev.id)
  }

  function ActiveCalls<P>(events: seq<ToolEvent<P>>): seq<Active> {
    if events == [] then [] else Note(ActiveCalls(events[..|events| - 1]), events[|events| - 1])
  }

  function ActiveNames(active: seq<Active>): seq<string> {
    if active == [] then [] else [active[0].name] + ActiveNames(active[1..])
  }

  method ActiveToolNames<P>(events: seq<ToolEvent<P>>) returns (names: seq<string>)
    ensures names == ActiveNames(ActiveCalls(events))
  {
    var active: seq<Active> := [];
    for i := 0 to |events|
      invariant active == ActiveCalls(events[..i])
    {
      var ev := events[i];
      assert events[..i + 1][..i] == events[..i];
      if ev.phase.Call? { active := SetActive(active, ev.id, ev.name); }
      else if ev.phase.Result? { active := DropActive(active, ev.id); }
    }
    assert events[..|events|] == events;
    names := ActiveNames(active);
  }
}
