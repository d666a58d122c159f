/** Streams on which a card or a result goes missing. */
module ToolChains {
  import opened Options
  import opened ToolGroups
  import opened ToolCards

  /** A call with its result. */
  datatype Exchange<+P> = Exchange(id: string, name: string, args: P, result: P)

  function EventsOf<P>(x: Exchange<P>): seq<ToolEvent<P>> {
    [ToolEvent(x.id, Call, x.name, x.args), ToolEvent(x.id, Result, x.name, x.result)]
  }

  function Stream<P>(xs: seq<Exchange<P>>): seq<ToolEvent<P>> {
    if xs == [] then [] else Stream(xs[..|xs| - 1]) + EventsOf(xs[|xs| - 1])
  }

  predicate Direct<P>(x: Exchange<P>) { x.name != "" && x.name != INVOKE_TOOL }

  /** The group that such a pair of events leaves. */
  function GroupOf<P>(r: Readers<P>, x: Exchange<P>): (g: Group<P>)
    requires Direct(x)
    ensures g.id == x.id && g.name == x.name && !g.absorbed && !g.readByAgent
    ensures g.args == Some(r.unwrap(x.args)) && g.result == Some(r.unwrap(x.result))
    ensures g.status == StatusOf(r, r.unwrap(x.result))
  {
    var begun := Updated(r, NewGroup(EventsOf(x)[0]), EventsOf(x)[0]);
    Updated(r, begun, EventsOf(x)[1])
  }

  lemma NewExchange<P>(r: Readers<P>, events: seq<ToolEvent<P>>, x: Exchange<P>)
    requires Direct(x) && x.id !in FirstSeen(events)
    ensures FirstPass(r, events + EventsOf(x)) == FirstPass(r, events) + [GroupOf(r, x)]
  {
    var call, result := EventsOf(x)[0], EventsOf(x)[1];
    var groups := FirstPass(r, events);
    assert Locate(groups, x.id).None? by {
      OneGroupPerId(r, events);
      LocatesExactly(groups, x.id);
    }
    var begun := Updated(r, NewGroup(call), call);
    FirstPassTakes(r, events, call);
    assert begun.id == x.id;
    LocateLast(groups, begun);
    FirstPassTakes(r, events + [call], result);
    assert events + EventsOf(x) == events + [call] + [result];
    assert (groups + [begun])[|groups| := GroupOf(r, x)] == groups + [GroupOf(r, x)];
  }

  lemma FirstPassTakes<P>(r: Readers<P>, events: seq<ToolEvent<P>>, ev: ToolEvent<P>)
    ensures FirstPass(r, events + [ev]) == Take(r, FirstPass(r, events), ev)
  {
    assert (events + [ev])[..|events|] == events;
  }

  lemma {:induction false} LocateLast<P>(groups: seq<Group<P>>, g: Group<P>)
    requires Locate(groups, g.id).None?
    ensures Locate(groups + [g], g.id) == Some(|groups|)
  {
    if groups != [] {
      assert (groups + [g])[1..] == groups[1..] + [g];
      LocateLast(groups[1..], g);
    }
  }

  /** A result can be lost without any call naming its own key. `a` reads the handoff `h` and is handed off
      itself; `b` reads `a` and is done. `a` and `b` vanish, and `h` stays async with its own result. */
  lemma ChainLosesResult<P>(r: Readers<P>, h: Exchange<P>, a: Exchange<P>, b: Exchange<P>, forH: string, forA: string)
    requires h.id != a.id && a.id != b.id && b.id != h.id
    requires Direct(h) && h.name != READER_TOOL && a.name == b.name == READER_TOOL
    requires forH != "" && forA != "" && forH != forA
    requires StatusOf(r, r.unwrap(h.result)).Async? && r.asyncKey(r.unwrap(h.result)) == Some(forH)
    requires StatusOf(r, r.unwrap(a.result)).Async? && r.asyncKey(r.unwrap(a.result)) == Some(forA)
    requires r.argKey(r.unwrap(a.args)) == Some(forH) && r.reaped(r.unwrap(a.result)).ReapedUnknown?
    requires r.argKey(r.unwrap(b.args)) == Some(forA) && r.reaped(r.unwrap(b.result)).ReapedDone?
    requires StatusOf(r, r.unwrap(b.result)).Ok?
    ensures var first := FirstPass(r, Stream([h, a, b]));
            && |first| == 3
            && Visible(Merged(r, first)) == [GroupOf(r, h).(readByAgent := true)]
            && Aim(r, first, 1) == Some(0) && Aim(r, first, 2) == Some(1)
  {
    ThreeExchanges(r, h, a, b);
    ChainMerges(r, GroupOf(r, h), GroupOf(r, a), GroupOf(r, b), forH, forA);
  }

  lemma ChainMerges<P>(r: Readers<P>, h: Group<P>, a: Group<P>, b: Group<P>, forH: string, forA: string)
    requires Untouched([h]) && h.name != READER_TOOL && h.name != "" && a.name == b.name == READER_TOOL
    requires HandoffKey(r, h) == Some(forH) && HandoffKey(r, a) == Some(forA) && HandoffKey(r, b).None?
    requires forH != forA && WantedKey(r, a) == Some(forH) && WantedKey(r, b) == Some(forA)
    requires Verdict(r, a).None?
    ensures var groups := [h, a, b];
            && Visible(Merged(r, groups)) == [h.(readByAgent := true)]
            && Aim(r, groups, 1) == Some(0) && Aim(r, groups, 2) == Some(1)
  {
    var groups := [h, a, b];
    ThreeKeys(r, groups, forH, forA);
    var keys := map[forH := 0, forA := 1];
    var read := [h.(readByAgent := true), a.(absorbed := true), b];
    assert MergeReaders(r, keys, groups, 0) == groups;
    assert MergeReaders(r, keys, groups, 1) == groups;
    assert MergeReaders(r, keys, groups, 2) == read by {
      assert MergeReader(r, keys, groups, 1) == read;
    }
    LastOfThree(r, keys, read);
  }

  lemma LastOfThree<P>(r: Readers<P>, keys: map<string, nat>, read: seq<Group<P>>)
    requires |read| == 3 && !read[0].absorbed && read[1].absorbed
    requires TargetOf(r, keys, read[2]) == Some(1) && forall k | k in keys :: keys[k] < 3
    ensures Visible(MergeReader(r, keys, read, 2)) == [read[0]]
  {
    var all := MergeReader(r, keys, read, 2);
    assert all[0] == read[0] && all[1].absorbed && all[2].absorbed;
    assert Visible(all[2..]) == [] by { assert all[2..][1..] == []; }
    assert Visible(all[1..]) == [] by { assert all[1..][1..] == all[2..]; }
    assert Visible(all) == [all[0]] + Visible(all[1..]);
  }

  lemma StreamGrows<P>(xs: seq<Exchange<P>>, x: Exchange<P>)
    ensures Stream(xs + [x]) == Stream(xs) + EventsOf(x)
  {
    assert (xs + [x])[..|xs|] == xs;
  }

  /** One more exchange with a new id appends its group. */
  lemma GroupsGrow<P>(r: Readers<P>, xs: seq<Exchange<P>>, x: Exchange<P>, groups: seq<Group<P>>)
    requires Direct(x) && FirstPass(r, Stream(xs)) == groups && forall g | g in groups :: g.id != x.id
    ensures FirstPass(r, Stream(xs + [x])) == groups + [GroupOf(r, x)]
  {
    StreamGrows(xs, x);
    assert x.id !in FirstSeen(Stream(xs)) by {
      OneGroupPerId(r, Stream(xs));
      LocatesExactly(groups, x.id);
    }
    NewExchange(r, Stream(xs), x);
  }

  lemma ThreeExchanges<P>(r: Readers<P>, x: Exchange<P>, y: Exchange<P>, z: Exchange<P>)
    requires x.id != y.id && y.id != z.id && z.id != x.id && Direct(x) && Direct(y) && Direct(z)
    ensures FirstPass(r, Stream([x, y, z])) == [GroupOf(r, x), GroupOf(r, y), GroupOf(r, z)]
  {
    TwoExchanges(r, x, y);
    assert [x, y] + [z] == [x, y, z];
    GroupsGrow(r, [x, y], z, [GroupOf(r, x), GroupOf(r, y)]);
  }

  lemma TwoExchanges<P>(r: Readers<P>, x: Exchange<P>, y: Exchange<P>)
    requires x.id != y.id && Direct(x) && Direct(y)
    ensures FirstPass(r, Stream([x, y])) == [GroupOf(r, x), GroupOf(r, y)]
  {
    GroupsGrow(r, [], x, []);
    assert [] + [x] == [x] && [x] + [y] == [x, y];
    GroupsGrow(r, [x], y, [GroupOf(r, x)]);
  }

  lemma ThreeKeys<P>(r: Readers<P>, groups: seq<Group<P>>, first: string, second: string)
    requires |groups| == 3 && first != second
    requires HandoffKey(r, groups[0]) == Some(first) && HandoffKey(r, groups[1]) == Some(second)
    requires HandoffKey(r, groups[2]).None?
    ensures AsyncKeys(r, groups) == map[first := 0, second := 1]
  {
    assert groups[..2][..1] == groups[..1] && groups[..1][..0] == [];
    assert AsyncKeys(r, groups[..1]) == map[first := 0];
  }

  /** A reader call that was itself handed off and whose arguments were lost names its own key, because the
      key is then read from its result. It is absorbed into itself: nothing is shown. */
  lemma LostArgumentsHideTheCall<P>(r: Readers<P>, ev: ToolEvent<P>, key: string)
    requires ev.phase.Result? && ev.name == READER_TOOL && key != ""
    requires StatusOf(r, r.unwrap(ev.payload)).Async?
    requires r.asyncKey(r.unwrap(ev.payload)) == Some(key) == r.reaperKey(r.unwrap(ev.payload))
    ensures Visible(Merged(r, FirstPass(r, [ev]))) == []
  {
    assert [ev][..0] == [];
    var g := Updated(r, NewGroup(ev), ev);
    assert FirstPass(r, [ev]) == [g];
    SelfReadingCallVanishes(r, g, key);
  }

  /** Any reader call that names its own key vanishes. */
  lemma SelfReadingCallVanishes<P>(r: Readers<P>, g: Group<P>, key: string)
    requires g.name == READER_TOOL && HandoffKey(r, g) == Some(key) && WantedKey(r, g) == Some(key)
    ensures Visible(Merged(r, [g])) == []
  {
    assert [g][..0] == [];
    assert AsyncKeys(r, [g]) == map[key := 0];
    assert MergeReaders(r, AsyncKeys(r, [g]), [g], 0) == [g];
    assert Merged(r, [g])[0].absorbed;
    assert Merged(r, [g])[1..] == [];
  }
}
