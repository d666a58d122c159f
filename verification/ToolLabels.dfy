/** The header label's fold and the cards' fold, on the same tool events. */
module ToolLabels {
  import opened Options
  import opened ToolGroups
  import opened ToolCards

  function LabelIds(active: seq<Active>): (ids: seq<string>)
    ensures |ids| == |active|
  {
    if active == [] then [] else [active[0].id] + LabelIds(active[1..])
  }

  /** The cards still running, in card order. */
  function RunningIds<P>(groups: seq<Group<P>>): seq<string> {
    if groups == [] then []
    else (if groups[0].status.Running? then [groups[0].id] else []) + RunningIds(groups[1..])
  }

  function Without(ids: seq<string>, id: string): seq<string> {
    if ids == [] then [] else if ids[0] == id then ids[1..] else [ids[0]] + Without(ids[1..], id)
  }

  // ---------- One step of either fold ----------

  lemma {:induction false} SettingAddsAtTheEnd(active: seq<Active>, id: string, name: string)
    ensures LabelIds(SetActive(active, id, name)) ==
            if id in LabelIds(active) then LabelIds(active) else LabelIds(active) + [id]
  {
    if active != [] { SettingAddsAtTheEnd(active[1..], id, name); }
  }

  lemma {:induction false} DroppingRemoves(active: seq<Active>, id: string)
    ensures LabelIds(DropActive(active, id)) == Without(LabelIds(active), id)
  {
    if active != [] { DroppingRemoves(active[1..], id); }
  }

  lemma {:induction false} WithoutMembers(ids: seq<string>, id: string, x: string)
    requires NoRepeats(ids)
    ensures x in Without(ids, id) <==> x in ids && x != id
  {
    if ids != [] {
      WithoutMembers(ids[1..], id, x);
      if x in ids[1..] {
        var i :| 0 <= i < |ids[1..]| && ids[1..][i] == x;
        assert ids[i + 1] == x;
      }
    }
  }

  lemma {:induction false} WithoutRepeats(ids: seq<string>, id: string)
    requires NoRepeats(ids)
    ensures NoRepeats(Without(ids, id))
  {
    if ids != [] && ids[0] != id {
      var rest := Without(ids[1..], id);
      WithoutRepeats(ids[1..], id);
      WithoutMembers(ids[1..], id, ids[0]);
      forall j | 0 <= j < |rest| ensures rest[j] != ids[0] { assert rest[j] in rest; }
    }
  }

  lemma {:induction false} AbsentStays(ids: seq<string>, id: string)
    requires id !in ids
    ensures Without(ids, id) == ids
  {
    if ids != [] { AbsentStays(ids[1..], id); }
  }

  lemma {:induction false} RunningConcat<P>(a: seq<Group<P>>, b: seq<Group<P>>)
    ensures RunningIds(a + b) == RunningIds(a) + RunningIds(b)
  {
    if a == [] {
      assert a + b == b;
    } else {
      assert (a + b)[1..] == a[1..] + b;
      RunningConcat(a[1..], b);
      assert RunningIds(a + b) == Listed(a[0]) + (RunningIds(a[1..]) + RunningIds(b));
    }
  }

  function Listed<P>(g: Group<P>): seq<string> { if g.status.Running? then [g.id] else [] }

  lemma RunningAppend<P>(groups: seq<Group<P>>, g: Group<P>)
    ensures RunningIds(groups + [g]) == RunningIds(groups) + Listed(g)
  {
    RunningConcat(groups, [g]);
    assert [g][1..] == [];
  }

  lemma RunningAround<P>(front: seq<Group<P>>, g: Group<P>, back: seq<Group<P>>)
    ensures RunningIds(front + [g] + back) == RunningIds(front) + Listed(g) + RunningIds(back)
  {
    RunningConcat(front + [g], back);
    RunningAppend(front, g);
  }

  lemma {:induction false} WithoutBehind(a: seq<string>, b: seq<string>, id: string)
    requires id !in a
    ensures Without(a + b, id) == a + Without(b, id)
  {
    if a == [] {
      assert a + b == b;
    } else {
      assert (a + b)[1..] == a[1..] + b;
      WithoutBehind(a[1..], b, id);
    }
  }

  lemma {:induction false} RunningAreGroups<P>(groups: seq<Group<P>>, id: string)
    ensures id in RunningIds(groups) ==> id in IdsOf(groups)
  {
    if groups != [] { RunningAreGroups(groups[1..], id); }
  }

  lemma NotElsewhere<P>(groups: seq<Group<P>>, at: nat, part: seq<Group<P>>)
    requires at < |groups| && NoRepeats(IdsOf(groups)) && (part == groups[..at] || part == groups[at + 1..])
    ensures groups[at].id !in RunningIds(part)
  {
    forall i | 0 <= i < |part| ensures IdsOf(part)[i] != groups[at].id {
      DifferentIds(groups, if part == groups[..at] then i else at + 1 + i, at);
    }
    RunningAreGroups(part, groups[at].id);
  }

  lemma DifferentIds<P>(groups: seq<Group<P>>, i: nat, k: nat)
    requires i < |groups| && k < |groups| && i != k && NoRepeats(IdsOf(groups))
    ensures groups[i].id != groups[k].id
  {
    var ids := IdsOf(groups);
    assert ids[i] != ids[k];
    assert ids[i] == groups[i].id && ids[k] == groups[k].id;
  }

  /** Replacing a group by one with the same id leaves it in the running list or takes it out. */
  lemma RunningUpdate<P>(groups: seq<Group<P>>, at: nat, g: Group<P>)
    requires at < |groups| && g.id == groups[at].id && NoRepeats(IdsOf(groups))
    ensures g.status == groups[at].status ==> RunningIds(groups[at := g]) == RunningIds(groups)
    ensures !g.status.Running? ==> RunningIds(groups[at := g]) == Without(RunningIds(groups), g.id)
  {
    var front, back := groups[..at], groups[at + 1..];
    assert groups == front + [groups[at]] + back;
    assert groups[at := g] == front + [g] + back;
    RunningAround(front, groups[at], back);
    RunningAround(front, g, back);
    if !g.status.Running? {
      NotElsewhere(groups, at, front);
      NotElsewhere(groups, at, back);
      DropMiddle(RunningIds(front), Listed(groups[at]), RunningIds(back), g.id);
      assert RunningIds(front) + [] == RunningIds(front);
    }
  }

  lemma DropMiddle(front: seq<string>, middle: seq<string>, back: seq<string>, id: string)
    requires id !in front && id !in back && (middle == [] || middle == [id])
    ensures Without(front + middle + back, id) == front + back
  {
    WithoutFirst(middle, back, id);
    WithoutBehind(front, middle + back, id);
    assert front + (middle + back) == front + middle + back;
  }

  lemma WithoutFirst(middle: seq<string>, back: seq<string>, id: string)
    requires id !in back && (middle == [] || middle == [id])
    ensures Without(middle + back, id) == back
  {
    if middle == [] {
      assert middle + back == back;
      AbsentStays(back, id);
    } else {
      assert (middle + back)[1..] == back;
    }
  }

  /** A step of the card fold, seen on the running list. */
  lemma TakeOnRunning<P>(r: Readers<P>, groups: seq<Group<P>>, ev: ToolEvent<P>)
    requires NoRepeats(IdsOf(groups))
    ensures RunningIds(Take(r, groups, ev)) ==
            if ev.phase.Result? then Without(RunningIds(groups), ev.id)
            else if ev.id in IdsOf(groups) then RunningIds(groups)
            else RunningIds(groups) + [ev.id]
  {
    LocatesExactly(groups, ev.id);
    var at := Locate(groups, ev.id);
    if at.Some? {
      StatusAfter(r, groups[at.value], ev);
      RunningUpdate(groups, at.value, Updated(r, groups[at.value], ev));
    } else {
      StatusAfter(r, NewGroup(ev), ev);
      RunningAppend(groups, Updated(r, NewGroup(ev), ev));
      RunningAreGroups(groups, ev.id);
      AbsentStays(RunningIds(groups), ev.id);
    }
  }

  lemma StatusAfter<P>(r: Readers<P>, g: Group<P>, ev: ToolEvent<P>)
    ensures Updated(r, g, ev).id == g.id
    ensures if ev.phase.Result? then !Updated(r, g, ev).status.Running? else Updated(r, g, ev).status == g.status
  {
    match ev.phase
    case Call => assert Called(r, Named(g, ev), ev.payload).status == g.status;
    case Progress =>
    case Result => assert Resulted(r, Named(g, ev), ev.payload).id == g.id;
  }

  // ---------- Which ids each fold keeps ----------

  /** Position of the last call or result of `id`; progress events do not count. */
  function LastTurn<P>(events: seq<ToolEvent<P>>, id: string): (at: Option<nat>)
    ensures at.Some? ==> at.value < |events| && events[at.value].id == id && !events[at.value].phase.Progress?
    ensures forall i | 0 <= i < |events| && events[i].id == id && !events[i].phase.Progress? ::
              at.Some? && i <= at.value
  {
    if events == [] then None
    else
      var n := |events| - 1;
      if events[n].id == id && !events[n].phase.Progress? then Some(n) else LastTurn(events[..n], id)
  }

  lemma {:induction false} LabelIdsAreDistinct<P>(events: seq<ToolEvent<P>>)
    ensures NoRepeats(LabelIds(ActiveCalls(events)))
  {
    if events != [] {
      var ev, rest := events[|events| - 1], events[..|events| - 1];
      LabelIdsAreDistinct(rest);
      SettingAddsAtTheEnd(ActiveCalls(rest), ev.id, ev.name);
      DroppingRemoves(ActiveCalls(rest), ev.id);
      WithoutRepeats(LabelIds(ActiveCalls(rest)), ev.id);
    }
  }

  /** The label keeps the ids whose last call or result is a call. */
  lemma {:induction false} LabelKeepsOpenCalls<P>(events: seq<ToolEvent<P>>, id: string)
    ensures id in LabelIds(ActiveCalls(events))
            <==> LastTurn(events, id).Some? && events[LastTurn(events, id).value].phase.Call?
  {
    if events != [] {
      var ev, rest := events[|events| - 1], events[..|events| - 1];
      LabelKeepsOpenCalls(rest, id);
      LabelIdsAreDistinct(rest);
      SettingAddsAtTheEnd(ActiveCalls(rest), ev.id, ev.name);
      DroppingRemoves(ActiveCalls(rest), ev.id);
      WithoutMembers(LabelIds(ActiveCalls(rest)), ev.id, id);
    }
  }

  ghost predicate HasResult<P>(events: seq<ToolEvent<P>>, id: string) {
    exists i :: 0 <= i < |events| && events[i].id == id && events[i].phase.Result?
  }

  lemma ResultSoFar<P>(events: seq<ToolEvent<P>>, id: string)
    requires events != []
    ensures var n := |events| - 1;
            HasResult(events, id)
            <==> HasResult(events[..n], id) || (events[n].id == id && events[n].phase.Result?)
  {
    var n := |events| - 1;
    if HasResult(events[..n], id) {
      var i :| 0 <= i < n && events[..n][i].id == id && events[..n][i].phase.Result?;
      assert events[i].id == id;
    }
    if HasResult(events, id) {
      var i :| 0 <= i < |events| && events[i].id == id && events[i].phase.Result?;
      if i < n { assert events[..n][i] == events[i]; }
    }
  }

  lemma GroupIdsAreSeen<P>(r: Readers<P>, events: seq<ToolEvent<P>>)
    ensures IdsOf(FirstPass(r, events)) == FirstSeen(events) && NoRepeats(IdsOf(FirstPass(r, events)))
  {
    OneGroupPerId(r, events);
    FirstSeenIds(events);
  }

  lemma {:induction false} RunningAreDistinct<P>(r: Readers<P>, events: seq<ToolEvent<P>>)
    ensures NoRepeats(RunningIds(FirstPass(r, events)))
  {
    if events != [] {
      var ev, rest := events[|events| - 1], events[..|events| - 1];
      var running := RunningIds(FirstPass(r, rest));
      RunningAreDistinct(r, rest);
      GroupIdsAreSeen(r, rest);
      TakeOnRunning(r, FirstPass(r, rest), ev);
      WithoutRepeats(running, ev.id);
      RunningAreGroups(FirstPass(r, rest), ev.id);
    }
  }

  /** The cards keep the ids that have an event and no result at all. */
  lemma {:induction false} CardsRunUntilAnyResult<P>(r: Readers<P>, events: seq<ToolEvent<P>>, id: string)
    ensures id in RunningIds(FirstPass(r, events)) <==> id in FirstSeen(events) && !HasResult(events, id)
  {
    if events != [] {
      var ev, rest := events[|events| - 1], events[..|events| - 1];
      var running := RunningIds(FirstPass(r, rest));
      CardsRunUntilAnyResult(r, rest, id);
      ResultSoFar(events, id);
      GroupIdsAreSeen(r, rest);
      TakeOnRunning(r, FirstPass(r, rest), ev);
      assert id in Without(running, ev.id) <==> id in running && id != ev.id by {
        RunningAreDistinct(r, rest);
        WithoutMembers(running, ev.id, id);
      }
      if id == ev.id && id !in FirstSeen(rest) { UnseenHasNoResult(rest, id); }
    }
  }

  lemma UnseenHasNoResult<P>(events: seq<ToolEvent<P>>, id: string)
    requires id !in FirstSeen(events)
    ensures !HasResult(events, id)
  {
    FirstSeenIds(events);
  }

  // ---------- Where the folds agree ----------

  /** What the stream owes a single id: a call unless there is a result, and after a result no call that is
      not itself followed by a result. */
  ghost predicate Orderly<P>(events: seq<ToolEvent<P>>, id: string) {
    && ((exists i :: 0 <= i < |events| && events[i].id == id) ==>
          exists i :: 0 <= i < |events| && events[i].id == id && !events[i].phase.Progress?)
    && forall i, j | 0 <= i < j < |events| && events[i].id == events[j].id == id
                     && events[i].phase.Result? && events[j].phase.Call? ::
         exists k :: j < k < |events| && events[k].id == id && events[k].phase.Result?
  }

  /** On any stream, label and cards agree about an id if and only if its events are orderly. */
  lemma FoldsAgreeIffOrderly<P>(r: Readers<P>, events: seq<ToolEvent<P>>, id: string)
    ensures (id in LabelIds(ActiveCalls(events)) <==> id in RunningIds(FirstPass(r, events))) <==> Orderly(events, id)
  {
    LabelKeepsOpenCalls(events, id);
    CardsRunUntilAnyResult(r, events, id);
    FirstSeenIds(events);
    var last := LastTurn(events, id);
    if last.None? {
      NeverTurned(events, id);
    } else {
      assert events[last.value].id == id;
      assert id in FirstSeen(events);
      OrderlyByLastTurn(events, id);
    }
  }

  lemma NeverTurned<P>(events: seq<ToolEvent<P>>, id: string)
    requires LastTurn(events, id).None?
    ensures !HasResult(events, id)
    ensures Orderly(events, id) <==> id !in FirstSeen(events)
  {
    FirstSeenIds(events);
    assert forall i | 0 <= i < |events| && events[i].id == id :: events[i].phase.Progress?;
  }

  lemma OrderlyByLastTurn<P>(events: seq<ToolEvent<P>>, id: string)
    requires LastTurn(events, id).Some?
    ensures Orderly(events, id) <==> (events[LastTurn(events, id).value].phase.Call? ==> !HasResult(events, id))
  {
    var last := LastTurn(events, id).value;
    assert events[last].id == id;
    if events[last].phase.Call? {
      if HasResult(events, id) {
        var i :| 0 <= i < |events| && events[i].id == id && events[i].phase.Result?;
        assert i < last;
        assert forall k | last < k < |events| && events[k].id == id :: !events[k].phase.Result?;
      }
    } else {
      assert events[last].phase.Result?;
      forall i, j | 0 <= i < j < |events| && events[i].id == events[j].id == id
                    && events[i].phase.Result? && events[j].phase.Call?
        ensures exists k :: j < k < |events| && events[k].id == id && events[k].phase.Result?
      {
        assert j < last;
      }
    }
  }

  // ---------- The order of the folds ----------

  ghost predicate Ascending(ids: seq<string>, key: string -> int) {
    forall i, j :: 0 <= i < j < |ids| ==> key(ids[i]) < key(ids[j])
  }

  lemma AscendingTail(ids: seq<string>, key: string -> int)
    requires Ascending(ids, key) && ids != []
    ensures Ascending(ids[1..], key) && forall x | x in ids[1..] :: key(ids[0]) < key(x)
  {
  }

  lemma AscendingCons(head: string, ids: seq<string>, key: string -> int)
    requires Ascending(ids, key) && forall x | x in ids :: key(head) < key(x)
    ensures Ascending([head] + ids, key)
  {
  }

  lemma {:induction false} WithoutIsPart(ids: seq<string>, id: string)
    ensures forall x | x in Without(ids, id) :: x in ids
  {
    if ids != [] { WithoutIsPart(ids[1..], id); }
  }

  lemma {:induction false} WithoutAscends(ids: seq<string>, id: string, key: string -> int)
    requires Ascending(ids, key)
    ensures Ascending(Without(ids, id), key)
  {
    if ids != [] {
      AscendingTail(ids, key);
      if ids[0] != id {
        WithoutAscends(ids[1..], id, key);
        WithoutIsPart(ids[1..], id);
        AscendingCons(ids[0], Without(ids[1..], id), key);
      }
    }
  }

  lemma SameKeys(ids: seq<string>, one: string -> int, two: string -> int)
    requires Ascending(ids, one) && forall x | x in ids :: one(x) == two(x)
    ensures Ascending(ids, two)
  {
  }

  lemma NoIds(ids: seq<string>)
    ensures ids == [] <==> forall x :: x !in ids
  {
    if ids != [] { assert ids[0] in ids; }
  }

  /** Members and an ascending key determine a list of ids. */
  lemma {:induction false} AscendingIsUnique(a: seq<string>, b: seq<string>, key: string -> int)
    requires Ascending(a, key) && Ascending(b, key)
    requires forall x :: x in a <==> x in b
    ensures a == b
  {
    NoIds(a);
    NoIds(b);
    if a != [] {
      assert a[0] in b;
      AscendingTail(a, key);
      AscendingTail(b, key);
      assert b[0] in a;
      assert a[0] == b[0];
      forall x ensures x in a[1..] <==> x in b[1..] {
        assert x in a <==> x == a[0] || x in a[1..];
        assert x in b <==> x == b[0] || x in b[1..];
      }
      AscendingIsUnique(a[1..], b[1..], key);
    }
  }

  /** Position of the first event of `id`, or -1. */
  function FirstEvent<P>(events: seq<ToolEvent<P>>, id: string): (at: int)
    ensures at == -1 || (0 <= at < |events| && events[at].id == id)
    ensures forall i | 0 <= i < |events| && events[i].id == id :: 0 <= at <= i
  {
    if events == [] then -1
    else
      var n := |events| - 1;
      var before := FirstEvent(events[..n], id);
      if before >= 0 || events[n].id != id then before else n
  }

  /** Position of the first call of `id`, or -1. */
  function FirstCall<P>(events: seq<ToolEvent<P>>, id: string): (at: int)
    ensures at == -1 || (0 <= at < |events| && events[at].id == id && events[at].phase.Call?)
    ensures forall i | 0 <= i < |events| && events[i].id == id && events[i].phase.Call? :: 0 <= at <= i
  {
    if events == [] then -1
    else
      var n := |events| - 1;
      var before := FirstCall(events[..n], id);
      if before >= 0 || events[n].id != id || !events[n].phase.Call? then before else n
  }

  /** Position of the call since which the label lists `id`, or -1: its first call after its last result. */
  function OpenedAt<P>(events: seq<ToolEvent<P>>, id: string): (at: int)
    ensures -1 <= at < |events|
  {
    if events == [] then -1
    else
      var n := |events| - 1;
      var before := OpenedAt(events[..n], id);
      if events[n].id != id || events[n].phase.Progress? then before
      else if events[n].phase.Result? then -1
      else if before >= 0 then before
      else n
  }

  lemma {:induction false} OpenedByFirstCall<P>(events: seq<ToolEvent<P>>, id: string)
    requires !HasResult(events, id)
    ensures OpenedAt(events, id) == FirstCall(events, id)
  {
    if events != [] {
      ResultSoFar(events, id);
      OpenedByFirstCall(events[..|events| - 1], id);
    }
  }

  function Openings<P>(events: seq<ToolEvent<P>>): string -> int { id => OpenedAt(events, id) }

  function FirstEvents<P>(events: seq<ToolEvent<P>>): string -> int { id => FirstEvent(events, id) }

  function FirstCalls<P>(events: seq<ToolEvent<P>>): string -> int { id => FirstCall(events, id) }

  lemma {:induction false} LabelIffOpened<P>(events: seq<ToolEvent<P>>, id: string)
    ensures id in LabelIds(ActiveCalls(events)) <==> OpenedAt(events, id) >= 0
  {
    if events != [] {
      var ev, rest := events[|events| - 1], events[..|events| - 1];
      LabelIffOpened(rest, id);
      LabelIdsAreDistinct(rest);
      SettingAddsAtTheEnd(ActiveCalls(rest), ev.id, ev.name);
      DroppingRemoves(ActiveCalls(rest), ev.id);
      WithoutMembers(LabelIds(ActiveCalls(rest)), ev.id, id);
    }
  }

  lemma AscendingEnd(ids: seq<string>, last: string, key: string -> int)
    requires Ascending(ids, key) && forall x | x in ids :: key(x) < key(last)
    ensures Ascending(ids + [last], key)
  {
  }

  lemma {:induction false} LabelFollowsOpenings<P>(events: seq<ToolEvent<P>>)
    ensures Ascending(LabelIds(ActiveCalls(events)), Openings(events))
  {
    if events != [] {
      var ev, rest := events[|events| - 1], events[..|events| - 1];
      var ids := LabelIds(ActiveCalls(rest));
      LabelFollowsOpenings(rest);
      OpeningsAfter(events, ids);
      SettingAddsAtTheEnd(ActiveCalls(rest), ev.id, ev.name);
      DroppingRemoves(ActiveCalls(rest), ev.id);
    }
  }

  /** The label's list keeps its order through one more event. */
  lemma OpeningsAfter<P>(events: seq<ToolEvent<P>>, ids: seq<string>)
    requires events != [] && ids == LabelIds(ActiveCalls(events[..|events| - 1]))
    requires Ascending(ids, Openings(events[..|events| - 1]))
    ensures var ev := events[|events| - 1];
            if ev.phase.Result? then Ascending(Without(ids, ev.id), Openings(events))
            else if ev.phase.Progress? || ev.id in ids then Ascending(ids, Openings(events))
            else Ascending(ids + [ev.id], Openings(events))
  {
    var ev, rest := events[|events| - 1], events[..|events| - 1];
    LabelIdsAreDistinct(rest);
    forall x | x in ids ensures Openings(rest)(x) >= 0 { LabelIffOpened(rest, x); }
    if ev.phase.Result? {
      WithoutAscends(ids, ev.id, Openings(rest));
      forall x | x in Without(ids, ev.id) ensures Openings(rest)(x) == Openings(events)(x) {
        WithoutMembers(ids, ev.id, x);
      }
      SameKeys(Without(ids, ev.id), Openings(rest), Openings(events));
    } else {
      SameKeys(ids, Openings(rest), Openings(events));
      if ev.phase.Call? && ev.id !in ids {
        LabelIffOpened(rest, ev.id);
        AscendingEnd(ids, ev.id, Openings(events));
      }
    }
  }

  lemma RunningWereSeen<P>(r: Readers<P>, events: seq<ToolEvent<P>>, id: string)
    requires id in RunningIds(FirstPass(r, events))
    ensures FirstEvent(events, id) >= 0
  {
    RunningAreGroups(FirstPass(r, events), id);
    GroupIdsAreSeen(r, events);
    FirstSeenIds(events);
  }

  /** First events stay where they are; a new id's is the last position. */
  lemma FirstEventAfter<P>(events: seq<ToolEvent<P>>, id: string)
    requires events != []
    ensures var n := |events| - 1;
            var before := FirstEvent(events[..n], id);
            && (before >= 0 ==> FirstEvents(events)(id) == FirstEvents(events[..n])(id) == before < n)
            && (before < 0 && events[n].id == id ==> FirstEvents(events)(id) == n)
  {
  }

  lemma SeenHaveFirstEvents<P>(events: seq<ToolEvent<P>>, id: string)
    ensures id in FirstSeen(events) <==> FirstEvent(events, id) >= 0
  {
    FirstSeenIds(events);
    if FirstEvent(events, id) >= 0 { assert events[FirstEvent(events, id)].id in FirstSeen(events); }
  }

  lemma {:induction false} CardsFollowFirstEvents<P>(r: Readers<P>, events: seq<ToolEvent<P>>)
    ensures Ascending(RunningIds(FirstPass(r, events)), FirstEvents(events))
  {
    if events != [] {
      var ev, rest := events[|events| - 1], events[..|events| - 1];
      var running := RunningIds(FirstPass(r, rest));
      CardsFollowFirstEvents(r, rest);
      forall id | id in running
        ensures FirstEvents(rest)(id) == FirstEvents(events)(id) < |rest|
      {
        RunningWereSeen(r, rest, id);
        FirstEventAfter(events, id);
      }
      SameKeys(running, FirstEvents(rest), FirstEvents(events));
      WithoutAscends(running, ev.id, FirstEvents(events));
      GroupIdsAreSeen(r, rest);
      TakeOnRunning(r, FirstPass(r, rest), ev);
      if ev.id !in FirstSeen(rest) {
        SeenHaveFirstEvents(rest, ev.id);
        FirstEventAfter(events, ev.id);
        AscendingEnd(running, ev.id, FirstEvents(events));
      }
    }
  }

  /** A tool that has an event and no result. */
  ghost predicate Runs<P>(events: seq<ToolEvent<P>>, id: string) {
    FirstEvent(events, id) >= 0 && !HasResult(events, id)
  }

  /** Of two tools that run, the one with the earlier first event has the earlier first call. */
  ghost predicate CalledInOrder<P>(events: seq<ToolEvent<P>>) {
    forall x, y | Runs(events, x) && Runs(events, y) && FirstEvent(events, x) < FirstEvent(events, y) ::
      FirstCall(events, x) < FirstCall(events, y)
  }

  lemma RunningIffRuns<P>(r: Readers<P>, events: seq<ToolEvent<P>>, id: string)
    ensures id in RunningIds(FirstPass(r, events)) <==> Runs(events, id)
  {
    CardsRunUntilAnyResult(r, events, id);
    SeenHaveFirstEvents(events, id);
  }

  /** On any stream, label and cards list the same ids in the same order if and only if the events of every
      id are orderly and the tools that run were called in the order of their first events. */
  lemma FoldsAgreeInOrderIff<P>(r: Readers<P>, events: seq<ToolEvent<P>>)
    ensures LabelIds(ActiveCalls(events)) == RunningIds(FirstPass(r, events))
            <==> (forall id :: Orderly(events, id)) && CalledInOrder(events)
  {
    var listed, running := LabelIds(ActiveCalls(events)), RunningIds(FirstPass(r, events));
    forall id ensures (id in listed <==> id in running) <==> Orderly(events, id) { FoldsAgreeIffOrderly(r, events, id); }
    forall id ensures id in running <==> Runs(events, id) { RunningIffRuns(r, events, id); }
    LabelFollowsOpenings(events);
    CardsFollowFirstEvents(r, events);
    forall id ensures id in listed <==> OpenedAt(events, id) >= 0 { LabelIffOpened(events, id); }
    forall id | id in running ensures OpenedAt(events, id) == FirstCall(events, id) { OpenedByFirstCall(events, id); }
    if listed == running {
      forall x, y | Runs(events, x) && Runs(events, y) && FirstEvent(events, x) < FirstEvent(events, y)
        ensures FirstCall(events, x) < FirstCall(events, y)
      {
        EarlierInBoth(listed, x, y, FirstEvents(events), Openings(events));
      }
    }
    if (forall id :: Orderly(events, id)) && CalledInOrder(events) {
      SameKeys(listed, Openings(events), FirstCalls(events));
      Reordered(running, FirstEvents(events), FirstCalls(events));
      AscendingIsUnique(listed, running, FirstCalls(events));
    }
  }

  lemma EarlierInBoth(ids: seq<string>, x: string, y: string, one: string -> int, two: string -> int)
    requires Ascending(ids, one) && Ascending(ids, two) && x in ids && y in ids && one(x) < one(y)
    ensures two(x) < two(y)
  {
    var i :| 0 <= i < |ids| && ids[i] == x;
    var j :| 0 <= j < |ids| && ids[j] == y;
    assert i < j;
  }

  lemma Reordered(ids: seq<string>, one: string -> int, two: string -> int)
    requires Ascending(ids, one)
    requires forall x, y | x in ids && y in ids && one(x) < one(y) :: two(x) < two(y)
    ensures Ascending(ids, two)
  {
  }

  /** Every id opens with a call, and no call of an id follows a result of it. */
  ghost predicate WellFormed<P>(events: seq<ToolEvent<P>>) {
    && (forall j | 0 <= j < |events| && !events[j].phase.Call? ::
          exists i :: 0 <= i < j && events[i].id == events[j].id)
    && forall i, j | 0 <= i < j < |events| && events[i].id == events[j].id && events[i].phase.Result? ::
         !events[j].phase.Call?
  }

  lemma WellFormedSoFar<P>(events: seq<ToolEvent<P>>)
    requires WellFormed(events) && events != []
    ensures var n := |events| - 1;
            && WellFormed(events[..n])
            && (!events[n].phase.Call? ==> events[n].id in FirstSeen(events[..n]))
            && (events[n].phase.Call? ==> !HasResult(events[..n], events[n].id))
  {
    var n := |events| - 1;
    var rest := events[..n];
    FirstSeenIds(rest);
    forall j | 0 <= j < n && !rest[j].phase.Call? ensures exists i :: 0 <= i < j && rest[i].id == rest[j].id {
      assert !events[j].phase.Call?;
      var i :| 0 <= i < j && events[i].id == events[j].id;
      assert rest[i].id == rest[j].id;
    }
    if !events[n].phase.Call? {
      var i :| 0 <= i < n && events[i].id == events[n].id;
      assert rest[i].id in FirstSeen(rest);
    }
  }

  /** On a well-formed stream the label and the running cards list the same ids in the same order. */
  lemma {:induction false} FoldsAgreeInOrder<P>(r: Readers<P>, events: seq<ToolEvent<P>>)
    requires WellFormed(events)
    ensures LabelIds(ActiveCalls(events)) == RunningIds(FirstPass(r, events))
  {
    if events != [] {
      var ev, rest := events[|events| - 1], events[..|events| - 1];
      WellFormedSoFar(events);
      FoldsAgreeInOrder(r, rest);
      OneGroupPerId(r, rest);
      FirstSeenIds(rest);
      TakeOnRunning(r, FirstPass(r, rest), ev);
      CardsRunUntilAnyResult(r, rest, ev.id);
      SettingAddsAtTheEnd(ActiveCalls(rest), ev.id, ev.name);
      DroppingRemoves(ActiveCalls(rest), ev.id);
    }
  }

  /** A call that reuses a finished id is active for the label, while its card stays finished. */
  lemma RepeatedCallDrifts<P>(r: Readers<P>, call: ToolEvent<P>, result: ToolEvent<P>)
    requires call.phase.Call? && result.phase.Result? && call.id == result.id
    ensures call.id in LabelIds(ActiveCalls([call, result, call]))
    ensures call.id !in RunningIds(FirstPass(r, [call, result, call]))
  {
    var events := [call, result, call];
    LabelKeepsOpenCalls(events, call.id);
    CardsRunUntilAnyResult(r, events, call.id);
    assert LastTurn(events, call.id) == Some(2);
    assert events[1].phase.Result?;
  }
}
