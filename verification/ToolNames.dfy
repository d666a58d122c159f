/** The names that the running-tool label and the cards show for a call that runs. */
module ToolNames {
  import opened Options
  import opened ToolGroups
  import opened ToolCards
  import opened ToolLabels

  /** Position of the first event of `id` that carries a name, or -1. */
  function FirstNamed<P>(events: seq<ToolEvent<P>>, id: string): (at: int)
    ensures at == -1 || (0 <= at < |events| && events[at].id == id && events[at].name != "")
    ensures forall i | 0 <= i < |events| && events[i].id == id && events[i].name != "" :: 0 <= at <= i
  {
    if events == [] then -1
    else
      var n := |events| - 1;
      var before := FirstNamed(events[..n], id);
      if before >= 0 || events[n].id != id || events[n].name == "" then before else n
  }

  /** The call goes through the dispatcher to another tool. */
  predicate Dispatches<P>(r: Readers<P>, ev: ToolEvent<P>) {
    ev.phase.Call? && Redirect(r, ev.payload).Some? && Redirect(r, ev.payload).value.name != INVOKE_TOOL
  }

  /** Position of the first such call of `id` from its first name on, or -1. */
  function FirstDispatch<P>(r: Readers<P>, events: seq<ToolEvent<P>>, id: string): (at: int)
    ensures at == -1 || (0 <= FirstNamed(events, id) <= at < |events| && events[at].id == id && Dispatches(r, events[at]))
    ensures forall i | 0 <= FirstNamed(events, id) <= i < |events| && events[i].id == id && Dispatches(r, events[i]) ::
              0 <= at <= i
  {
    if events == [] then -1
    else
      var n := |events| - 1;
      var before := FirstDispatch(r, events[..n], id);
      if before >= 0 || events[n].id != id || !Dispatches(r, events[n]) || FirstNamed(events, id) < 0 then before else n
  }

  /** The first name wins; the dispatcher's name gives way to the first tool it is sent to. */
  function ShownName<P>(r: Readers<P>, events: seq<ToolEvent<P>>, id: string): string {
    var named, dispatch := FirstNamed(events, id), FirstDispatch(r, events, id);
    if named < 0 then ""
    else if events[named].name != INVOKE_TOOL then events[named].name
    else if dispatch < 0 then INVOKE_TOOL
    else Redirect(r, events[dispatch].payload).value.name
  }

  // ---------- The card ----------

  lemma NameAfter<P>(r: Readers<P>, g: Group<P>, ev: ToolEvent<P>)
    requires !ev.phase.Result?
    ensures var name, redirect := Named(g, ev).name, Redirect(r, ev.payload);
            Updated(r, g, ev).name ==
              if ev.phase.Call? && name == INVOKE_TOOL && redirect.Some? then redirect.value.name else name
  {
  }

  lemma NamedAfter<P>(rest: seq<ToolEvent<P>>, ev: ToolEvent<P>, id: string)
    ensures var was := FirstNamed(rest, id);
            FirstNamed(rest + [ev], id) == if was >= 0 || ev.id != id || ev.name == "" then was else |rest|
  {
    assert (rest + [ev])[..|rest|] == rest;
  }

  lemma DispatchAfter<P>(r: Readers<P>, rest: seq<ToolEvent<P>>, ev: ToolEvent<P>, id: string)
    ensures var was := FirstDispatch(r, rest, id);
            FirstDispatch(r, rest + [ev], id) ==
              if was >= 0 || ev.id != id || !Dispatches(r, ev) || FirstNamed(rest + [ev], id) < 0 then was else |rest|
  {
    assert (rest + [ev])[..|rest|] == rest;
  }

  lemma ShownNameAfter<P>(r: Readers<P>, rest: seq<ToolEvent<P>>, ev: ToolEvent<P>, g: Group<P>, id: string)
    requires ev.id == id ==> !ev.phase.Result? && g.name == ShownName(r, rest, id)
    ensures ShownName(r, rest + [ev], id) ==
            if ev.id == id then Updated(r, g, ev).name else ShownName(r, rest, id)
  {
    var named, dispatch := FirstNamed(rest, id), FirstDispatch(r, rest, id);
    NamedAfter(rest, ev, id);
    DispatchAfter(r, rest, ev, id);
    assert named >= 0 ==> (rest + [ev])[named] == rest[named];
    assert dispatch >= 0 ==> (rest + [ev])[dispatch] == rest[dispatch];
    assert (rest + [ev])[|rest|] == ev;
    if ev.id == id { NameAfter(r, g, ev); }
  }

  lemma UnseenShowsNothing<P>(r: Readers<P>, events: seq<ToolEvent<P>>, id: string)
    requires Locate(FirstPass(r, events), id).None?
    ensures ShownName(r, events, id) == ""
  {
    LocatesExactly(FirstPass(r, events), id);
    GroupIdsAreSeen(r, events);
    FirstSeenIds(events);
  }

  lemma ChangedOrOld<P>(groups: seq<Group<P>>, at: nat, changed: Group<P>, g: Group<P>)
    requires at < |groups| && NoRepeats(IdsOf(groups)) && changed.id == groups[at].id
    requires g in groups[at := changed]
    ensures if g.id == changed.id then g == changed else g in groups
  {
    var i :| 0 <= i < |groups| && groups[at := changed][i] == g;
    if i != at { DifferentIds(groups, i, at); }
  }

  lemma TakenGroup<P>(r: Readers<P>, groups: seq<Group<P>>, ev: ToolEvent<P>, g: Group<P>)
    requires NoRepeats(IdsOf(groups)) && g in Take(r, groups, ev)
    ensures var at := Locate(groups, ev.id);
            if g.id == ev.id then g == Updated(r, if at.Some? then groups[at.value] else NewGroup(ev), ev)
            else g in groups
  {
    var at := Locate(groups, ev.id);
    StatusAfter(r, if at.Some? then groups[at.value] else NewGroup(ev), ev);
    if at.Some? { ChangedOrOld(groups, at.value, Updated(r, groups[at.value], ev), g); }
  }

  /** A running card shows the name that the stream determines. */
  lemma {:induction false} CardShowsName<P>(r: Readers<P>, events: seq<ToolEvent<P>>, g: Group<P>)
    requires g in FirstPass(r, events) && !HasResult(events, g.id)
    ensures g.name == ShownName(r, events, g.id)
  {
    var ev, rest := events[|events| - 1], events[..|events| - 1];
    var groups := FirstPass(r, rest);
    var at := Locate(groups, ev.id);
    ResultSoFar(events, g.id);
    assert if g.id == ev.id then g == Updated(r, if at.Some? then groups[at.value] else NewGroup(ev), ev) else g in groups by {
      GroupIdsAreSeen(r, rest);
      TakenGroup(r, groups, ev, g);
    }
    assert events == rest + [ev];
    if g.id != ev.id {
      CardShowsName(r, rest, g);
      ShownNameAfter(r, rest, ev, g, g.id);
    } else if at.Some? {
      assert groups[at.value] in groups;
      CardShowsName(r, rest, groups[at.value]);
      ShownNameAfter(r, rest, ev, groups[at.value], g.id);
    } else {
      UnseenShowsNothing(r, rest, g.id);
      NewGroupNamed(r, ev);
      ShownNameAfter(r, rest, ev, NewGroup(ev).(name := ""), g.id);
    }
  }

  lemma NewGroupNamed<P>(r: Readers<P>, ev: ToolEvent<P>)
    ensures Updated(r, NewGroup(ev), ev) == Updated(r, NewGroup(ev).(name := ""), ev)
  {
    assert Named(NewGroup(ev), ev) == Named(NewGroup(ev).(name := ""), ev);
  }

  // ---------- The label ----------

  lemma {:induction false} MembersAreListed(active: seq<Active>, a: Active)
    requires a in active
    ensures a.id in LabelIds(active)
  {
    if active[0] != a { MembersAreListed(active[1..], a); }
  }

  lemma {:induction false} SetMembers(active: seq<Active>, id: string, name: string, a: Active)
    requires NoRepeats(LabelIds(active)) && a in SetActive(active, id, name)
    ensures if a.id == id then a == Active(id, name) else a in active
  {
    if active != [] {
      var rest := active[1..];
      assert LabelIds(active)[1..] == LabelIds(rest);
      if active[0].id == id {
        if a in rest { HeadListedOnce(active, a); }
      } else if a != active[0] {
        assert NoRepeats(LabelIds(rest));
        SetMembers(rest, id, name, a);
      }
    }
  }

  lemma HeadListedOnce(active: seq<Active>, a: Active)
    requires active != [] && NoRepeats(LabelIds(active)) && a in active[1..]
    ensures a.id != active[0].id
  {
    MembersAreListed(active[1..], a);
    var i :| 0 <= i < |LabelIds(active[1..])| && LabelIds(active[1..])[i] == a.id;
    assert LabelIds(active)[i + 1] == a.id && LabelIds(active)[0] == active[0].id;
  }

  lemma {:induction false} DropMembers(active: seq<Active>, id: string)
    ensures forall a | a in DropActive(active, id) :: a in active
  {
    if active != [] { DropMembers(active[1..], id); }
  }

  /** The label shows the name of the call that is the last turn of the id. */
  lemma {:induction false} LabelShowsLastCall<P>(events: seq<ToolEvent<P>>, a: Active)
    requires a in ActiveCalls(events)
    ensures var last := LastTurn(events, a.id);
            last.Some? && events[last.value].phase.Call? && events[last.value].name == a.name
  {
    var ev, rest := events[|events| - 1], events[..|events| - 1];
    MembersAreListed(ActiveCalls(events), a);
    LabelKeepsOpenCalls(events, a.id);
    LabelIdsAreDistinct(rest);
    DropMembers(ActiveCalls(rest), ev.id);
    if ev.phase.Call? { SetMembers(ActiveCalls(rest), ev.id, ev.name, a); }
    if a.id != ev.id || ev.phase.Progress? { LabelShowsLastCall(rest, a); }
  }

  /** The label is the names of those calls, in the order of the ids it lists. */
  lemma {:induction false} LabelNamesLastCalls<P>(events: seq<ToolEvent<P>>)
    ensures var names, ids := ActiveNames(ActiveCalls(events)), LabelIds(ActiveCalls(events));
            |names| == |ids| && forall k | 0 <= k < |ids| ::
              LastTurn(events, ids[k]).Some? && names[k] == events[LastTurn(events, ids[k]).value].name
  {
    var active := ActiveCalls(events);
    NamesAndIds(active);
    forall k | 0 <= k < |active|
      ensures LastTurn(events, active[k].id).Some? && active[k].name == events[LastTurn(events, active[k].id).value].name
    {
      LabelShowsLastCall(events, active[k]);
    }
  }

  lemma {:induction false} NamesAndIds(active: seq<Active>)
    ensures var names, ids := ActiveNames(active), LabelIds(active);
            |names| == |ids| == |active|
            && forall k | 0 <= k < |active| :: names[k] == active[k].name && ids[k] == active[k].id
  {
    if active != [] { NamesAndIds(active[1..]); }
  }

  /** Where label and cards both list an id, they show the same name if and only if the last call's name is the
      one that the first name, or the dispatcher's first target, determines. */
  lemma NamesAgreeIff<P>(r: Readers<P>, events: seq<ToolEvent<P>>, entry: Active, card: Group<P>)
    requires entry in ActiveCalls(events) && card in FirstPass(r, events) && card.id == entry.id
    requires card.id in RunningIds(FirstPass(r, events))
    ensures LastTurn(events, card.id).Some?
    ensures entry.name == card.name
            <==> events[LastTurn(events, card.id).value].name == ShownName(r, events, card.id)
  {
    LabelShowsLastCall(events, entry);
    CardsRunUntilAnyResult(r, events, card.id);
    CardShowsName(r, events, card);
  }

  ghost predicate OneName<P>(events: seq<ToolEvent<P>>, id: string, name: string) {
    forall i | 0 <= i < |events| && events[i].id == id :: events[i].name == name
  }

  /** In particular, if all events of an id carry one name: if and only if it is not the dispatcher's, or no call
      of the id is dispatched to another tool. */
  lemma NamesAgreeIffUndispatched<P>(
      r: Readers<P>, events: seq<ToolEvent<P>>, name: string, entry: Active, card: Group<P>)
    requires entry in ActiveCalls(events) && card in FirstPass(r, events) && card.id == entry.id
    requires card.id in RunningIds(FirstPass(r, events))
    requires name != "" && OneName(events, card.id, name)
    ensures entry.name == card.name
            <==> (name == INVOKE_TOOL ==>
                    forall i | 0 <= i < |events| && events[i].id == card.id :: !Dispatches(r, events[i]))
  {
    NamesAgreeIff(r, events, entry, card);
    var named := FirstNamed(events, card.id);
    assert events[LastTurn(events, card.id).value].name == name;
    assert named >= 0 && events[named].name == name;
    assert forall i | 0 <= i < |events| && events[i].id == card.id :: named <= i;
  }
}
