/** What a card shows after the second pass: which calls are read into it, and whose result and name it has
    (components/chat/ToolList.tsx). */
module ToolReadings {
  import opened Options
  import opened ToolGroups
  import opened ToolCards
  import opened ToolResults

  // ---------- Which handoff a call reads ----------

  /** Group `t` was handed off under this key. */
  predicate HandedOff<P>(r: Readers<P>, g: Group<P>, key: string) {
    g.status == Async && g.result.Some? && r.asyncKey(g.result.value) == Some(key) && key != ""
  }

  lemma {:induction false} KeysNameTheLast<P>(r: Readers<P>, groups: seq<Group<P>>, key: string, t: nat)
    ensures key in AsyncKeys(r, groups) && AsyncKeys(r, groups)[key] == t
            <==> t < |groups| && HandedOff(r, groups[t], key)
                 && forall k | t < k < |groups| :: !HandedOff(r, groups[k], key)
  {
    if groups != [] {
      var n := |groups| - 1;
      KeysNameTheLast(r, groups[..n], key, t);
      assert HandoffKey(r, groups[n]) == Some(key) <==> HandedOff(r, groups[n], key);
      if t < n && forall k | t < k < |groups| :: !HandedOff(r, groups[k], key) {
        assert !HandedOff(r, groups[n], key);
      }
    }
  }

  /** The key that a call names: its argument, or without one what its result echoes. */
  predicate Wants<P>(r: Readers<P>, g: Group<P>, key: string) {
    && key != "" && g.name == "tool_result_get"
    && var named := if g.args.Some? then r.argKey(g.args.value) else None;
       if named.Some? then named.value == key else g.result.Some? && r.reaperKey(g.result.value) == Some(key)
  }

  /** A call reads handoff `t` if and only if it is a reader call that names a key under which `t` is the last
      call handed off. */
  lemma ReadersFindTheLastHandoff<P>(r: Readers<P>, events: seq<ToolEvent<P>>, i: nat, t: nat)
    requires i < |FirstPass(r, events)|
    ensures var first := FirstPass(r, events);
            ToolCards.Target(r, first, i) == Some(t)
            <==> exists key: string ::
                   Wants(r, Turn(r, first, i), key) && t < |first| && HandedOff(r, first[t], key)
                   && forall k | t < k < |first| :: !HandedOff(r, first[k], key)
  {
    var first := FirstPass(r, events);
    var g := Turn(r, first, i);
    forall key: string ensures Wants(r, g, key) <==> g.name == READER_TOOL && WantedKey(r, g) == Some(key) {}
    forall key: string ensures key in AsyncKeys(r, first) && AsyncKeys(r, first)[key] == t
        <==> t < |first| && HandedOff(r, first[t], key) && forall k | t < k < |first| :: !HandedOff(r, first[k], key)
    {
      KeysNameTheLast(r, first, key, t);
    }
    if ToolCards.Target(r, first, i) == Some(t) { assert Wants(r, g, WantedKey(r, g).value); }
  }

  // ---------- What it brings ----------

  /** Call `i` reads handoff `t`, has a result when its turn comes, and the result says finished or failed. */
  ghost predicate Brings<P>(r: Readers<P>, groups: seq<Group<P>>, i: nat, t: nat) {
    && i < |groups| && ToolCards.Target(r, groups, i) == Some(t)
    && var g := Turn(r, groups, i);
       g.status != Running && g.result.Some?
       && (r.reaped(g.result.value).ReapedDone? || r.reaped(g.result.value).ReapedError?)
  }

  lemma BringersRule<P>(r: Readers<P>, groups: seq<Group<P>>, t: nat)
    ensures forall i: nat :: Brings(r, groups, i, t) <==> Rules(r, groups, i, t)
  {
  }

  lemma {:induction false} ReadsKeepRest<P>(r: Readers<P>, groups: seq<Group<P>>, j: nat, upto: nat)
    requires j < |groups| && upto <= |groups|
    ensures var g := Reads(r, groups, j, upto);
            && g.id == groups[j].id && g.args == groups[j].args && g.deadlineMs == groups[j].deadlineMs
            && g.steps == groups[j].steps && g.viaInvokeTool == groups[j].viaInvokeTool
            && (groups[j].name != "" ==> g.name == groups[j].name)
  {
    if upto > 0 { ReadsKeepRest(r, groups, j, upto - 1); }
  }

  /** On every stream, what a card shows of its own: its arguments, deadline and steps; its name, if it has one;
      and, unless a finished reader call brings a result for it, the last result of its id, failed, handed off or
      good by what that payload says. */
  lemma CardsShowTheirLastResult<P>(r: Readers<P>, events: seq<ToolEvent<P>>, t: nat)
    requires t < |FirstPass(r, events)|
    ensures var first := FirstPass(r, events);
            var card, result := Merged(r, first)[t], ResultOf(r, events, first[t].id);
            && card.id == first[t].id && card.args == ArgsOf(r, events, card.id)
            && card.deadlineMs == DeadlineOf(r, events, card.id) && card.steps == StepsOf(r, events, card.id)
            && (NameOf(r, events, card.id) != "" ==> card.name == NameOf(r, events, card.id))
            && ((forall i: nat :: !Brings(r, first, i, t)) ==>
                  && card.result == result
                  && (card.status == Running <==> result.None?)
                  && (card.status == Failed <==> result.Some? && r.isError(result.value))
                  && (card.status == Async <==> result.Some? && !r.isError(result.value) && r.isAsync(result.value)))
  {
    var first := FirstPass(r, events);
    OneGroupPerId(r, events);
    assert first[t] in first;
    CardsTellTheirEvents(r, events, first[t]);
    MergedOutcome(r, first, t);
    ReadsKeepRest(r, first, t, |first|);
    BringersRule(r, first, t);
    if forall i: nat :: !Brings(r, first, i, t) { UnruledStays(r, first, t, 0, |first|); }
  }

  /** A card that finished reader calls were read into shows what the last of them brought: a finished result,
      good or failed by what it says, or a failure. A reader call that was not handed off itself brings the last
      result of its own id. */
  lemma CardsShowTheirLastReading<P>(r: Readers<P>, events: seq<ToolEvent<P>>, i: nat, t: nat)
    requires t < |FirstPass(r, events)| && Brings(r, FirstPass(r, events), i, t)
    requires forall k: nat | i < k :: !Brings(r, FirstPass(r, events), k, t)
    ensures var first := FirstPass(r, events);
            var card, reading := Merged(r, first)[t], Turn(r, first, i).result;
            && (match r.reaped(reading.value)
                case ReapedDone(value) =>
                  card.result == Some(r.unwrap(value)) && card.status == if r.isError(r.unwrap(value)) then Failed else Ok
                case ReapedError(value) => card.result == Some(r.unwrap(value)) && card.status == Failed
                case _ => false)
            && (first[i].status != Async ==> reading == ResultOf(r, events, first[i].id))
  {
    var first := FirstPass(r, events);
    OneGroupPerId(r, events);
    BringersRule(r, first, t);
    MergedOutcome(r, first, t);
    LastReaderRules(r, first, t, i);
    assert first[i] in first;
    CardsTellTheirEvents(r, events, first[i]);
    if first[i].status != Async { FinishedCallsStay(r, first, i); }
  }

  /** Call `i` reads handoff `t`, and its result names a tool. */
  ghost predicate NamesTool<P>(r: Readers<P>, groups: seq<Group<P>>, i: nat, t: nat) {
    && i < |groups| && ToolCards.Target(r, groups, i) == Some(t) && Turn(r, groups, i).result.Some?
    && var tool := r.reaperTool(Turn(r, groups, i).result.value);
       tool.Some? && tool.value != ""
  }

  lemma {:induction false} NamelessReads<P>(r: Readers<P>, groups: seq<Group<P>>, t: nat, upto: nat)
    returns (first: Option<nat>)
    requires t < |groups| && upto <= |groups| && groups[t].name == ""
    ensures match first
            case None =>
              Reads(r, groups, t, upto).name == "" && forall i: nat | i < upto :: !NamesTool(r, groups, i, t)
            case Some(i) =>
              && i < upto && NamesTool(r, groups, i, t) && (forall k: nat | k < i :: !NamesTool(r, groups, k, t))
              && Some(Reads(r, groups, t, upto).name) == r.reaperTool(Turn(r, groups, i).result.value)
  {
    first := None;
    if upto > 0 {
      var n := upto - 1;
      first := NamelessReads(r, groups, t, n);
      var name := ReadingNames(r, groups, t, n);
      if first.None? && NamesTool(r, groups, n, t) { first := Some(n); }
    }
  }

  lemma ReadingNames<P>(r: Readers<P>, groups: seq<Group<P>>, t: nat, n: nat) returns (name: string)
    requires t < |groups| && n < |groups|
    ensures name == Reads(r, groups, t, n + 1).name
    ensures var before := Reads(r, groups, t, n).name;
            if before == "" && NamesTool(r, groups, n, t)
            then Some(name) == r.reaperTool(Turn(r, groups, n).result.value) else name == before
  {
    name := Reads(r, groups, t, n + 1).name;
  }

  /** A card whose events carry no name shows the tool that the first reading names, if any names one. */
  lemma NamelessCardsTakeTheFirstReading<P>(r: Readers<P>, events: seq<ToolEvent<P>>, t: nat) returns (i: Option<nat>)
    requires t < |FirstPass(r, events)| && NameOf(r, events, FirstPass(r, events)[t].id) == ""
    ensures var first := FirstPass(r, events);
            var name := Merged(r, first)[t].name;
            match i
            case None => name == "" && forall k: nat | k < |first| :: !NamesTool(r, first, k, t)
            case Some(i) =>
              && NamesTool(r, first, i, t) && (forall k: nat | k < i :: !NamesTool(r, first, k, t))
              && Some(name) == r.reaperTool(Turn(r, first, i).result.value)
  {
    var first := FirstPass(r, events);
    assert first[t].name == "" by {
      assert first[t] in first;
      CardsTellTheirEvents(r, events, first[t]);
    }
    assert Merged(r, first)[t].name == Reads(r, first, t, |first|).name by {
      OneGroupPerId(r, events);
      MergedOutcome(r, first, t);
    }
    i := NamelessReads(r, first, t, |first|);
  }
}
