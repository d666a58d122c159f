/** Which tool calls become cards, which are absorbed, and which still run. */
module ToolCards {
  import opened Options
  import opened ToolGroups

  // ---------- The first pass ----------

  function IdsOf<P>(groups: seq<Group<P>>): (ids: seq<string>)
    ensures |ids| == |groups| && forall i | 0 <= i < |groups| :: ids[i] == groups[i].id
  {
    if groups == [] then [] else [groups[0].id] + IdsOf(groups[1..])
  }

  /** The distinct call ids of a stream in the order of their first event. */
  function FirstSeen<P>(events: seq<ToolEvent<P>>): seq<string> {
    if events == [] then []
    else
      var seen := FirstSeen(events[..|events| - 1]);
      var id := events[|events| - 1].id;
      if id in seen then seen else seen + [id]
  }

  ghost predicate NoRepeats(ids: seq<string>) { forall i, j :: 0 <= i < j < |ids| ==> ids[i] != ids[j] }

  lemma UpdateKeeps<P>(r: Readers<P>, g: Group<P>, ev: ToolEvent<P>)
    ensures var u := Updated(r, g, ev);
            u.id == g.id && u.absorbed == g.absorbed && u.readByAgent == g.readByAgent
  {
  }

  ghost predicate Untouched<P>(groups: seq<Group<P>>) {
    forall i | 0 <= i < |groups| :: !groups[i].absorbed && !groups[i].readByAgent
  }

  lemma {:induction false} FirstSeenIds<P>(events: seq<ToolEvent<P>>)
    ensures NoRepeats(FirstSeen(events))
    ensures forall i | 0 <= i < |events| :: events[i].id in FirstSeen(events)
    ensures forall id | id in FirstSeen(events) :: exists i :: 0 <= i < |events| && events[i].id == id
  {
    if events != [] {
      var rest := events[..|events| - 1];
      FirstSeenIds(rest);
      forall i | 0 <= i < |events| ensures events[i].id in FirstSeen(events) {
        if i < |rest| { assert rest[i].id in FirstSeen(rest); }
      }
      forall id | id in FirstSeen(events) ensures exists i :: 0 <= i < |events| && events[i].id == id {
        if id in FirstSeen(rest) {
          var i: nat :| i < |rest| && rest[i].id == id;
          assert events[i].id == id;
        } else {
          assert events[|rest|].id == id;
        }
      }
    }
  }

  lemma LocatesExactly<P>(groups: seq<Group<P>>, id: string)
    ensures Locate(groups, id).Some? <==> id in IdsOf(groups)
  {
    if id in IdsOf(groups) {
      var i :| 0 <= i < |groups| && IdsOf(groups)[i] == id;
      assert groups[i] in groups;
    }
  }

  lemma TakeKeepsIds<P>(r: Readers<P>, groups: seq<Group<P>>, ev: ToolEvent<P>)
    requires Untouched(groups)
    ensures IdsOf(Take(r, groups, ev)) ==
            if ev.id in IdsOf(groups) then IdsOf(groups) else IdsOf(groups) + [ev.id]
    ensures Untouched(Take(r, groups, ev))
  {
    LocatesExactly(groups, ev.id);
    var at := Locate(groups, ev.id);
    UpdateKeeps(r, if at.Some? then groups[at.value] else NewGroup(ev), ev);
  }

  /** There is one group per distinct id, in first-seen order. */
  lemma {:induction false} OneGroupPerId<P>(r: Readers<P>, events: seq<ToolEvent<P>>)
    ensures IdsOf(FirstPass(r, events)) == FirstSeen(events) && Untouched(FirstPass(r, events))
  {
    if events != [] {
      OneGroupPerId(r, events[..|events| - 1]);
      TakeKeepsIds(r, FirstPass(r, events[..|events| - 1]), events[|events| - 1]);
    }
  }

  // ---------- The second pass, position by position ----------

  lemma {:induction false} KeysPointAtHandoffs<P>(r: Readers<P>, groups: seq<Group<P>>)
    ensures forall k | k in AsyncKeys(r, groups) ::
              AsyncKeys(r, groups)[k] < |groups| && HandoffKey(r, groups[AsyncKeys(r, groups)[k]]) == Some(k)
  {
    if groups != [] { KeysPointAtHandoffs(r, groups[..|groups| - 1]); }
  }

  /** Group `i` as the second pass finds it when its turn comes. */
  function Turn<P>(r: Readers<P>, groups: seq<Group<P>>, i: nat): Group<P>
    requires i < |groups|
  {
    MergeReaders(r, AsyncKeys(r, groups), groups, i)[i]
  }

  /** The handoff that call `i` reads when its turn comes. */
  function Target<P>(r: Readers<P>, groups: seq<Group<P>>, i: nat): (t: Option<nat>)
    requires i < |groups|
    ensures t.Some? ==> t.value < |groups|
  {
    TargetOf(r, AsyncKeys(r, groups), Turn(r, groups, i))
  }

  /** Group `j` after the calls in front of `upto` have been read into it. */
  function Reads<P>(r: Readers<P>, groups: seq<Group<P>>, j: nat, upto: nat): Group<P>
    requires j < |groups| && upto <= |groups|
  {
    if upto == 0 then groups[j]
    else
      var g := Reads(r, groups, j, upto - 1);
      if Target(r, groups, upto - 1) == Some(j) then ReadInto(r, g, Turn(r, groups, upto - 1)) else g
  }

  function Outcome<P>(r: Readers<P>, groups: seq<Group<P>>, j: nat, upto: nat): Group<P>
    requires j < |groups| && upto <= |groups|
  {
    Reads(r, groups, j, upto).(absorbed := j < upto && Target(r, groups, j).Some?)
  }

  lemma {:induction false} ReadsKeepIds<P>(r: Readers<P>, groups: seq<Group<P>>, j: nat, upto: nat)
    requires Untouched(groups) && j < |groups| && upto <= |groups|
    ensures var g := Reads(r, groups, j, upto);
            g.id == groups[j].id && !g.absorbed && g.args == groups[j].args
            && (groups[j].name != "" ==> g.name == groups[j].name)
  {
    if upto > 0 { ReadsKeepIds(r, groups, j, upto - 1); }
  }

  lemma ReadingKeepsFlag<P>(r: Readers<P>, target: Group<P>, g: Group<P>, flag: bool)
    ensures ReadInto(r, target.(absorbed := flag), g) == ReadInto(r, target, g).(absorbed := flag)
  {
  }

  /** On any groups of a first pass, the in-place second pass treats each group on its own. */
  lemma {:induction false} MergeIsPointwise<P>(r: Readers<P>, groups: seq<Group<P>>, upto: nat)
    requires Untouched(groups) && upto <= |groups|
    ensures forall j | 0 <= j < |groups| ::
              MergeReaders(r, AsyncKeys(r, groups), groups, upto)[j] == Outcome(r, groups, j, upto)
  {
    if upto > 0 {
      var i := upto - 1;
      MergeIsPointwise(r, groups, i);
      var before := MergeReaders(r, AsyncKeys(r, groups), groups, i);
      forall j | 0 <= j < |groups|
        ensures MergeReaders(r, AsyncKeys(r, groups), groups, upto)[j] == Outcome(r, groups, j, upto)
      {
        assert before[j] == Outcome(r, groups, j, i);
        StepIsPointwise(r, groups, before, i, j);
      }
    }
  }

  lemma StepIsPointwise<P>(r: Readers<P>, groups: seq<Group<P>>, before: seq<Group<P>>, i: nat, j: nat)
    requires |before| == |groups| && i < |groups| && j < |groups|
    requires before[j] == Outcome(r, groups, j, i) && before[i] == Turn(r, groups, i)
    ensures MergeReader(r, AsyncKeys(r, groups), before, i)[j] == Outcome(r, groups, j, i + 1)
  {
    ReadingKeepsFlag(r, Reads(r, groups, j, i), before[i], before[j].absorbed);
  }

  lemma MergedOutcome<P>(r: Readers<P>, groups: seq<Group<P>>, i: nat)
    requires Untouched(groups) && i < |groups|
    ensures Merged(r, groups)[i]
            == Reads(r, groups, i, |groups|).(absorbed := Target(r, groups, i).Some?)
  {
    MergeIsPointwise(r, groups, |groups|);
  }

  // ---------- What the first pass already decides ----------

  /** The handoff that call `i` names as the first pass leaves it. */
  function Aim<P>(r: Readers<P>, groups: seq<Group<P>>, i: nat): Option<nat>
    requires i < |groups|
  {
    TargetOf(r, AsyncKeys(r, groups), groups[i])
  }

  /** Call `i` was not handed off itself, or it has a name and, if it is a reader call, a key argument. */
  predicate Fixed<P>(r: Readers<P>, groups: seq<Group<P>>, i: nat)
    requires i < |groups|
  {
    var g := groups[i];
    !g.status.Async? || (g.name != "" && (g.name == READER_TOOL ==> g.args.Some? && r.argKey(g.args.value).Some?))
  }

  lemma TargetsAreHandoffs<P>(r: Readers<P>, groups: seq<Group<P>>, i: nat)
    requires i < |groups| && Target(r, groups, i).Some?
    ensures groups[Target(r, groups, i).value].status.Async?
  {
    KeysPointAtHandoffs(r, groups);
  }

  lemma {:induction false} UnreadStays<P>(r: Readers<P>, groups: seq<Group<P>>, j: nat, upto: nat)
    requires j < |groups| && upto <= |groups|
    requires forall k: nat | k < upto :: Target(r, groups, k) != Some(j)
    ensures Reads(r, groups, j, upto) == groups[j]
  {
    if upto > 0 { UnreadStays(r, groups, j, upto - 1); }
  }

  /** A call that was not handed off comes to its turn as the first pass left it. */
  lemma FinishedCallsStay<P>(r: Readers<P>, groups: seq<Group<P>>, i: nat)
    requires Untouched(groups) && i < |groups| && !groups[i].status.Async?
    ensures Turn(r, groups, i) == groups[i]
  {
    MergeIsPointwise(r, groups, i);
    forall k: nat | k < i ensures Target(r, groups, k) != Some(i) {
      if Target(r, groups, k).Some? { TargetsAreHandoffs(r, groups, k); }
    }
    UnreadStays(r, groups, i, i);
  }

  /** For such calls the target can be read off the first pass. */
  lemma FixedCallsAim<P>(r: Readers<P>, groups: seq<Group<P>>, i: nat)
    requires Untouched(groups) && i < |groups| && Fixed(r, groups, i)
    ensures Target(r, groups, i) == Aim(r, groups, i)
  {
    if groups[i].status.Async? {
      MergeIsPointwise(r, groups, i);
      ReadsKeepIds(r, groups, i, i);
    } else {
      FinishedCallsStay(r, groups, i);
    }
  }

  // ---------- What the readers do to a handoff card ----------

  /** Call `i` brings a finished or failed result for handoff `t`. */
  ghost predicate Rules<P>(r: Readers<P>, groups: seq<Group<P>>, i: nat, t: nat) {
    i < |groups| && Target(r, groups, i) == Some(t) && Verdict(r, Turn(r, groups, i)).Some?
  }

  lemma {:induction false} ReadExactlyIfNamed<P>(r: Readers<P>, groups: seq<Group<P>>, t: nat, upto: nat)
    requires t < |groups| && upto <= |groups|
    ensures Reads(r, groups, t, upto).readByAgent
            <==> groups[t].readByAgent || exists i: nat :: i < upto && Target(r, groups, i) == Some(t)
  {
    if upto > 0 {
      ReadExactlyIfNamed(r, groups, t, upto - 1);
      if Target(r, groups, upto - 1) == Some(t) { assert Reads(r, groups, t, upto).readByAgent; }
    }
  }

  lemma {:induction false} UnruledStays<P>(r: Readers<P>, groups: seq<Group<P>>, t: nat, from: nat, upto: nat)
    requires t < |groups| && from <= upto <= |groups|
    requires forall k: nat | from <= k < upto :: !Rules(r, groups, k, t)
    ensures var g := Reads(r, groups, t, upto);
            g.status == Reads(r, groups, t, from).status && g.result == Reads(r, groups, t, from).result
    decreases upto
  {
    if from < upto {
      UnruledStays(r, groups, t, from, upto - 1);
      assert !Rules(r, groups, upto - 1, t);
    }
  }

  lemma LastReaderRules<P>(r: Readers<P>, groups: seq<Group<P>>, t: nat, last: nat)
    requires t < |groups| && Rules(r, groups, last, t)
    requires forall k: nat | last < k < |groups| :: !Rules(r, groups, k, t)
    ensures var g := Reads(r, groups, t, |groups|);
            g.result.Some? && Verdict(r, Turn(r, groups, last)) == Some((g.result.value, g.status))
  {
    UnruledStays(r, groups, t, last + 1, |groups|);
  }

  // ---------- Visible cards ----------

  /** Positions of the groups that are not absorbed, counted from `from`. */
  function Shown<P>(groups: seq<Group<P>>, from: nat): seq<nat> {
    if groups == [] then []
    else if groups[0].absorbed then Shown(groups[1..], from + 1)
    else [from] + Shown(groups[1..], from + 1)
  }

  lemma {:induction false} AsManyShown<P>(groups: seq<Group<P>>, from: nat)
    ensures |Shown(groups, from)| == |Visible(groups)|
  {
    if groups != [] { AsManyShown(groups[1..], from + 1); }
  }

  lemma {:induction false} ShownIsVisible<P>(groups: seq<Group<P>>, from: nat, k: nat)
    requires k < |Visible(groups)| == |Shown(groups, from)|
    ensures from <= Shown(groups, from)[k] < from + |groups|
    ensures Visible(groups)[k] == groups[Shown(groups, from)[k] - from]
  {
    var rest := groups[1..];
    AsManyShown(rest, from + 1);
    if groups[0].absorbed {
      ShownIsVisible(rest, from + 1, k);
    } else if k > 0 {
      ShownIsVisible(rest, from + 1, k - 1);
    }
  }

  lemma {:induction false} ShownAscend<P>(groups: seq<Group<P>>, from: nat)
    ensures forall k | 0 <= k < |Shown(groups, from)| :: from <= Shown(groups, from)[k]
    ensures forall k, m | 0 <= k < m < |Shown(groups, from)| :: Shown(groups, from)[k] < Shown(groups, from)[m]
  {
    if groups != [] { ShownAscend(groups[1..], from + 1); }
  }

  lemma {:induction false} VisibleKeeps<P>(groups: seq<Group<P>>, i: nat)
    requires i < |groups| && !groups[i].absorbed
    ensures groups[i] in Visible(groups)
  {
    if i > 0 { VisibleKeeps(groups[1..], i - 1); }
  }

  function CountAbsorbed<P>(groups: seq<Group<P>>): nat {
    if groups == [] then 0 else (if groups[0].absorbed then 1 else 0) + CountAbsorbed(groups[1..])
  }

  lemma {:induction false} VisiblePlusAbsorbed<P>(groups: seq<Group<P>>)
    ensures |Visible(groups)| + CountAbsorbed(groups) == |groups|
  {
    if groups != [] { VisiblePlusAbsorbed(groups[1..]); }
  }

  lemma {:induction false} MergeKeepsIds<P>(r: Readers<P>, keys: map<string, nat>, groups: seq<Group<P>>, upto: nat)
    requires upto <= |groups| && forall k | k in keys :: keys[k] < |groups|
    ensures forall j | 0 <= j < |groups| :: MergeReaders(r, keys, groups, upto)[j].id == groups[j].id
  {
    if upto > 0 { MergeKeepsIds(r, keys, groups, upto - 1); }
  }

  /** Cards are conserved, on every stream: each distinct call id is either a visible card or an absorbed
      reader call, and the visible cards stand in first-seen order. */
  lemma CardsAreConserved<P>(r: Readers<P>, events: seq<ToolEvent<P>>) returns (at: seq<nat>)
    ensures var all := Merged(r, FirstPass(r, events));
            && |FirstSeen(events)| == |all| == |Visible(all)| + CountAbsorbed(all)
            && |at| == |Visible(all)|
            && (forall k, m | 0 <= k < m < |at| :: at[k] < at[m])
            && (forall k | 0 <= k < |at| ::
                  && at[k] < |FirstSeen(events)|
                  && Visible(all)[k].id == FirstSeen(events)[at[k]]
                  && Visible(all)[k] == all[at[k]])
            && (forall i | 0 <= i < |all| && !all[i].absorbed :: all[i] in Visible(all))
  {
    var all := Merged(r, FirstPass(r, events));
    MergedIds(r, events);
    VisiblePlusAbsorbed(all);
    at := VisibleInOrder(all);
    forall i | 0 <= i < |all| && !all[i].absorbed ensures all[i] in Visible(all) { VisibleKeeps(all, i); }
  }

  lemma MergedIds<P>(r: Readers<P>, events: seq<ToolEvent<P>>)
    ensures var all := Merged(r, FirstPass(r, events));
            |all| == |FirstSeen(events)| && forall i | 0 <= i < |all| :: all[i].id == FirstSeen(events)[i]
  {
    var first := FirstPass(r, events);
    OneGroupPerId(r, events);
    MergeKeepsIds(r, AsyncKeys(r, first), first, |first|);
    assert forall i | 0 <= i < |first| :: IdsOf(first)[i] == first[i].id;
  }

  lemma VisibleInOrder<P>(groups: seq<Group<P>>) returns (at: seq<nat>)
    ensures |at| == |Visible(groups)|
    ensures forall k, m | 0 <= k < m < |at| :: at[k] < at[m]
    ensures forall k | 0 <= k < |at| :: at[k] < |groups| && Visible(groups)[k] == groups[at[k]]
  {
    at := Shown(groups, 0);
    AsManyShown(groups, 0);
    ShownAscend(groups, 0);
    forall k: nat | k < |at| ensures at[k] < |groups| && Visible(groups)[k] == groups[at[k]] {
      ShownIsVisible(groups, 0, k);
    }
  }

  lemma {:induction false} VisibleAreNotAbsorbed<P>(groups: seq<Group<P>>, g: Group<P>)
    requires g in Visible(groups)
    ensures !g.absorbed
  {
    if groups[0].absorbed || g != groups[0] {
      assert g in Visible(groups[1..]);
      VisibleAreNotAbsorbed(groups[1..], g);
    }
  }

  /** The handoff that call `i` was read into has another card, which is visible and marked as read. */
  ghost predicate HasCard<P>(r: Readers<P>, groups: seq<Group<P>>, i: nat)
    requires i < |groups|
  {
    var t, all := Target(r, groups, i), Merged(r, groups);
    t.Some? && t.value != i && all[t.value].readByAgent && all[t.value] in Visible(all)
  }

  lemma HasCardIff<P>(r: Readers<P>, groups: seq<Group<P>>, i: nat)
    requires Untouched(groups) && i < |groups| && Target(r, groups, i).Some?
    ensures HasCard(r, groups, i) <==> Target(r, groups, Target(r, groups, i).value).None?
  {
    var t, all := Target(r, groups, i).value, Merged(r, groups);
    MergedOutcome(r, groups, t);
    ReadExactlyIfNamed(r, groups, t, |groups|);
    if all[t].absorbed {
      if all[t] in Visible(all) { VisibleAreNotAbsorbed(all, all[t]); }
    } else {
      VisibleKeeps(all, t);
    }
  }

  /** No call reads a call that reads one itself. */
  ghost predicate Unchained<P>(r: Readers<P>, groups: seq<Group<P>>) {
    forall i: nat, t: nat | i < |groups| && t < |groups| && Target(r, groups, i) == Some(t) :: Target(r, groups, t).None?
  }

  /** No group that a reader names is itself a reader call for a known handoff. */
  ghost predicate AimsUnchained<P>(r: Readers<P>, groups: seq<Group<P>>) {
    forall i: nat, t: nat | i < |groups| && t < |groups| && Aim(r, groups, i) == Some(t) :: Aim(r, groups, t).None?
  }

  ghost predicate EveryReaderHasCard<P>(r: Readers<P>, groups: seq<Group<P>>) {
    forall i: nat | i < |groups| && Merged(r, groups)[i].absorbed :: HasCard(r, groups, i)
  }

  lemma CardsIffUnchained<P>(r: Readers<P>, groups: seq<Group<P>>)
    requires Untouched(groups)
    ensures EveryReaderHasCard(r, groups) <==> Unchained(r, groups)
  {
    forall i: nat | i < |groups| && Target(r, groups, i).Some?
      ensures Merged(r, groups)[i].absorbed
      ensures HasCard(r, groups, i) <==> Target(r, groups, Target(r, groups, i).value).None?
    {
      MergedOutcome(r, groups, i);
      HasCardIff(r, groups, i);
    }
    forall i: nat | i < |groups| && Merged(r, groups)[i].absorbed ensures Target(r, groups, i).Some? {
      MergedOutcome(r, groups, i);
    }
    if Unchained(r, groups) {
      forall i: nat | i < |groups| && Merged(r, groups)[i].absorbed ensures HasCard(r, groups, i) {
        assert Target(r, groups, i) == Some(Target(r, groups, i).value);
      }
    }
  }

  lemma ChainsCanBeSeen<P>(r: Readers<P>, groups: seq<Group<P>>)
    requires Untouched(groups) && forall i: nat | i < |groups| :: Fixed(r, groups, i)
    ensures forall i: nat | i < |groups| :: Target(r, groups, i) == Aim(r, groups, i)
    ensures Unchained(r, groups) <==> AimsUnchained(r, groups)
  {
    forall i: nat | i < |groups| ensures Target(r, groups, i) == Aim(r, groups, i) { FixedCallsAim(r, groups, i); }
  }

  /** On every stream, every absorbed call has its handoff's card if and only if no call reads a call that
      reads one itself. */
  lemma EveryReaderHasCardIffUnchained<P>(r: Readers<P>, events: seq<ToolEvent<P>>)
    ensures var first := FirstPass(r, events);
            EveryReaderHasCard(r, first) <==> Unchained(r, first)
  {
    OneGroupPerId(r, events);
    CardsIffUnchained(r, FirstPass(r, events));
  }

  /** If every handed-off call has a name, and a key argument where it is a reader, the condition can be read
      off the first pass. */
  lemma EveryReaderHasCardIffAimsUnchained<P>(r: Readers<P>, events: seq<ToolEvent<P>>)
    requires forall i: nat | i < |FirstPass(r, events)| :: Fixed(r, FirstPass(r, events), i)
    ensures var first := FirstPass(r, events);
            && (forall i: nat | i < |first| :: Merged(r, first)[i].absorbed <==> Aim(r, first, i).Some?)
            && (EveryReaderHasCard(r, first) <==> AimsUnchained(r, first))
  {
    var first := FirstPass(r, events);
    OneGroupPerId(r, events);
    CardsIffUnchained(r, first);
    ChainsCanBeSeen(r, first);
    forall i: nat | i < |first| ensures Merged(r, first)[i].absorbed <==> Aim(r, first, i).Some? {
      MergedOutcome(r, first, i);
    }
  }

  /** In particular, every absorbed call has a card if groups have names and no reader call is handed off. */
  lemma AbsorbedReadersHaveCards<P>(r: Readers<P>, events: seq<ToolEvent<P>>)
    requires forall g | g in FirstPass(r, events) :: g.name != "" && (g.name == READER_TOOL ==> !g.status.Async?)
    ensures EveryReaderHasCard(r, FirstPass(r, events))
  {
    var first := FirstPass(r, events);
    assert forall i: nat | i < |first| :: Fixed(r, first, i);
    forall i: nat, t: nat | i < |first| && t < |first| && Aim(r, first, i) == Some(t)
      ensures Aim(r, first, t).None?
    {
      AimsAreHandoffs(r, first, i);
      assert first[t] in first;
    }
    EveryReaderHasCardIffAimsUnchained(r, events);
  }

  lemma AimsAreHandoffs<P>(r: Readers<P>, groups: seq<Group<P>>, i: nat)
    requires i < |groups| && Aim(r, groups, i).Some?
    ensures Aim(r, groups, i).value < |groups| && groups[Aim(r, groups, i).value].status.Async?
  {
    KeysPointAtHandoffs(r, groups);
  }

  /** On every stream and for every group: it is absorbed if and only if it has a target; marked as read if
      and only if a call reads it; and it has the result and status of the last call that brought a
      finished or failed one, or its own without such a call. */
  lemma HandoffShowsLastReader<P>(r: Readers<P>, events: seq<ToolEvent<P>>, t: nat)
    requires t < |FirstPass(r, events)|
    ensures var first := FirstPass(r, events);
            var card := Merged(r, first)[t];
            && (card.absorbed <==> Target(r, first, t).Some?)
            && (card.readByAgent <==> exists i: nat :: i < |first| && Target(r, first, i) == Some(t))
            && ((forall i: nat | i < |first| :: !Rules(r, first, i, t)) ==>
                  card.status == first[t].status && card.result == first[t].result)
            && (forall i: nat | Rules(r, first, i, t)
                   && (forall k: nat | i < k < |first| :: !Rules(r, first, k, t)) ::
                  card.result.Some? && Verdict(r, Turn(r, first, i)) == Some((card.result.value, card.status)))
  {
    OneGroupPerId(r, events);
    ReadingsShow(r, FirstPass(r, events), t);
  }

  lemma ReadingsShow<P>(r: Readers<P>, groups: seq<Group<P>>, t: nat)
    requires Untouched(groups) && t < |groups|
    ensures var card := Merged(r, groups)[t];
            && (card.absorbed <==> Target(r, groups, t).Some?)
            && (card.readByAgent <==> exists i: nat :: i < |groups| && Target(r, groups, i) == Some(t))
            && ((forall i: nat | i < |groups| :: !Rules(r, groups, i, t)) ==>
                  card.status == groups[t].status && card.result == groups[t].result)
            && (forall i: nat | Rules(r, groups, i, t)
                   && (forall k: nat | i < k < |groups| :: !Rules(r, groups, k, t)) ::
                  card.result.Some? && Verdict(r, Turn(r, groups, i)) == Some((card.result.value, card.status)))
  {
    MergedOutcome(r, groups, t);
    ReadExactlyIfNamed(r, groups, t, |groups|);
    if forall i: nat | i < |groups| :: !Rules(r, groups, i, t) { UnruledShows(r, groups, t); }
    forall i: nat | Rules(r, groups, i, t) && (forall k: nat | i < k < |groups| :: !Rules(r, groups, k, t))
      ensures var card := Merged(r, groups)[t];
              card.result.Some? && Verdict(r, Turn(r, groups, i)) == Some((card.result.value, card.status))
    {
      LastRulerShows(r, groups, t, i);
    }
  }

  lemma UnruledShows<P>(r: Readers<P>, groups: seq<Group<P>>, t: nat)
    requires Untouched(groups) && t < |groups| && forall i: nat | i < |groups| :: !Rules(r, groups, i, t)
    ensures var card := Merged(r, groups)[t]; card.status == groups[t].status && card.result == groups[t].result
  {
    MergedOutcome(r, groups, t);
    UnruledStays(r, groups, t, 0, |groups|);
  }

  lemma LastRulerShows<P>(r: Readers<P>, groups: seq<Group<P>>, t: nat, i: nat)
    requires Untouched(groups) && t < |groups| && Rules(r, groups, i, t)
    requires forall k: nat | i < k < |groups| :: !Rules(r, groups, k, t)
    ensures var card := Merged(r, groups)[t];
            card.result.Some? && Verdict(r, Turn(r, groups, i)) == Some((card.result.value, card.status))
  {
    MergedOutcome(r, groups, t);
    LastReaderRules(r, groups, t, i);
  }
}
