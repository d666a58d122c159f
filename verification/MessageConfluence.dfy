/** Fetches of the same rows may land in any order and in any grouping: the list converges. */
module MessageConfluence {
  import opened Options
  import opened StableSorting
  import opened Messages
  import opened MessageAccounting

  // ---------- An order-free reading of the list ----------

  ghost function Settled(rows: seq<Message>): set<Message> {
    set m | m in rows && !IsUnconfirmed(m)
  }

  function Bubbles(rows: seq<Message>): seq<Message> {
    if rows == [] then []
    else if IsUnconfirmed(rows[0]) then [rows[0]] + Bubbles(rows[1..])
    else Bubbles(rows[1..])
  }

  /** The confirmed rows as a set and the optimistic bubbles as a queue. */
  datatype View = View(settled: set<Message>, bubbles: seq<Message>)

  ghost function Overview(rows: seq<Message>): View { View(Settled(rows), Bubbles(rows)) }

  function RemoveFirst(bubbles: seq<Message>, content: string): seq<Message> {
    if bubbles == [] then []
    else if Claimable(bubbles[0], content) then bubbles[1..]
    else [bubbles[0]] + RemoveFirst(bubbles[1..], content)
  }

  ghost predicate Known(v: View, id: string) { exists m :: m in v.settled && m.id == id }

  /** A server row joins the settled set; a new user row also takes the oldest bubble with its text. */
  ghost function Absorb(v: View, row: Message): View {
    View(
      (set m | m in v.settled && m.id != row.id) + {Confirm(row)},
      if Known(v, row.id) || !row.role.User? then v.bubbles else RemoveFirst(v.bubbles, row.content))
  }

  ghost function AbsorbAll(v: View, rows: seq<Message>): View
    decreases |rows|
  {
    if rows == [] then v else AbsorbAll(Absorb(v, rows[0]), rows[1..])
  }

  // ---------- Absorbing commutes and is idempotent ----------

  lemma {:induction false} RemovalsCommute(s: seq<Message>, c: string, d: string)
    ensures RemoveFirst(RemoveFirst(s, c), d) == RemoveFirst(RemoveFirst(s, d), c)
  {
    if s != [] {
      RemovalsCommute(s[1..], c, d);
      assert ([s[0]] + RemoveFirst(s[1..], c))[1..] == RemoveFirst(s[1..], c);
      assert ([s[0]] + RemoveFirst(s[1..], d))[1..] == RemoveFirst(s[1..], d);
    }
  }

  lemma AbsorbKnows(v: View, x: Message, id: string)
    ensures Known(Absorb(v, x), id) <==> id == x.id || Known(v, id)
  {
    assert Confirm(x) in Absorb(v, x).settled;
    if Known(v, id) && id != x.id {
      var m :| m in v.settled && m.id == id;
      assert m in Absorb(v, x).settled;
    }
  }

  lemma AbsorbsCommute(v: View, x: Message, y: Message)
    requires x.id == y.id ==> Confirm(x) == Confirm(y)
    ensures Absorb(Absorb(v, x), y) == Absorb(Absorb(v, y), x)
  {
    AbsorbKnows(v, x, y.id);
    AbsorbKnows(v, y, x.id);
    RemovalsCommute(v.bubbles, x.content, y.content);
    assert Absorb(Absorb(v, x), y).settled == Absorb(Absorb(v, y), x).settled;
  }

  lemma AbsorbTwice(v: View, x: Message)
    ensures Absorb(Absorb(v, x), x) == Absorb(v, x)
  {
    AbsorbKnows(v, x, x.id);
    assert Absorb(Absorb(v, x), x).settled == Absorb(v, x).settled;
  }

  function Without(s: seq<Message>, x: Message): (r: seq<Message>)
    ensures x in s ==> |r| < |s|
    ensures |r| <= |s|
    ensures forall m :: m in r <==> m in s && m != x
  {
    if s == [] then []
    else
      assert s == [s[0]] + s[1..];
      if s[0] == x then Without(s[1..], x) else [s[0]] + Without(s[1..], x)
  }

  /** Rows with the same id are the same row. */
  ghost predicate Agree(rows: set<Message>) {
    forall a, b | a in rows && b in rows && a.id == b.id :: Confirm(a) == Confirm(b)
  }

  ghost function Elements(rows: seq<Message>): set<Message> { set m | m in rows }

  lemma NoElements(s: seq<Message>)
    ensures Elements(s) == {} <==> s == []
  {
    if s != [] { assert s[0] in Elements(s); }
  }

  lemma {:induction false} PullFront(v: View, s: seq<Message>, x: Message)
    requires x in s && Agree(Elements(s))
    ensures AbsorbAll(v, s) == AbsorbAll(Absorb(v, x), Without(s, x))
    decreases |s|
  {
    var y, rest := s[0], s[1..];
    assert s == [y] + rest;
    if y == x {
      if x in rest {
        PullFront(Absorb(v, x), rest, x);
        AbsorbTwice(v, x);
      } else {
        WithoutAbsent(rest, x);
      }
    } else {
      PullFront(Absorb(v, y), rest, x);
      AbsorbsCommute(v, x, y);
      assert Without(s, x)[1..] == Without(rest, x);
    }
  }

  lemma {:induction false} WithoutAbsent(s: seq<Message>, x: Message)
    requires x !in s
    ensures Without(s, x) == s
  {
    if s != [] { WithoutAbsent(s[1..], x); }
  }

  /** The final view depends only on which rows arrived. */
  lemma {:induction false} OnlyTheSetMatters(v: View, s: seq<Message>, t: seq<Message>)
    requires Elements(s) == Elements(t) && Agree(Elements(s))
    ensures AbsorbAll(v, s) == AbsorbAll(v, t)
    decreases |s|
  {
    NoElements(s);
    NoElements(t);
    if s != [] {
      var x := s[0];
      assert x in Elements(s);
      PullFront(v, s, x);
      PullFront(v, t, x);
      assert Elements(Without(s, x)) == Elements(s) - {x} == Elements(Without(t, x));
      OnlyTheSetMatters(Absorb(v, x), Without(s, x), Without(t, x));
    }
  }

  // ---------- The merge is an absorption ----------

  lemma {:induction false} BubblesOfUpdate(rows: seq<Message>, at: nat, m: Message)
    requires at < |rows| && !IsUnconfirmed(m) && !IsUnconfirmed(rows[at])
    ensures Bubbles(rows[at := m]) == Bubbles(rows)
  {
    if at > 0 {
      assert rows[at := m][1..] == rows[1..][at - 1 := m];
      BubblesOfUpdate(rows[1..], at - 1, m);
    } else {
      assert rows[at := m][1..] == rows[1..];
    }
  }

  lemma {:induction false} BubblesOfClaim(rows: seq<Message>, content: string, m: Message)
    requires FirstBubble(rows, content).Some? && !IsUnconfirmed(m)
    ensures Bubbles(rows[FirstBubble(rows, content).value := m]) == RemoveFirst(Bubbles(rows), content)
  {
    var at := FirstBubble(rows, content).value;
    if at > 0 {
      assert rows[at := m][1..] == rows[1..][at - 1 := m];
      BubblesOfClaim(rows[1..], content, m);
      assert IsUnconfirmed(rows[0]) ==> Bubbles(rows)[1..] == Bubbles(rows[1..]);
    } else {
      assert rows[at := m][1..] == rows[1..];
      assert Bubbles(rows)[1..] == Bubbles(rows[1..]);
    }
  }

  lemma {:induction false} BubblesOfConcat(a: seq<Message>, b: seq<Message>)
    ensures Bubbles(a + b) == Bubbles(a) + Bubbles(b)
  {
    if a == [] {
      assert a + b == b;
    } else {
      assert (a + b)[1..] == a[1..] + b;
      BubblesOfConcat(a[1..], b);
    }
  }

  lemma {:induction false} NothingToRemove(rows: seq<Message>, content: string)
    requires FirstBubble(rows, content).None?
    ensures RemoveFirst(Bubbles(rows), content) == Bubbles(rows)
  {
    if rows != [] {
      NothingToRemove(rows[1..], content);
      if IsUnconfirmed(rows[0]) { assert Bubbles(rows)[1..] == Bubbles(rows[1..]); }
    }
  }

  ghost predicate NoBubbleHas(rows: seq<Message>, id: string) {
    forall m | m in rows && m.id == id :: !IsUnconfirmed(m)
  }

  lemma KnownIffIndexed(w: Working, id: string)
    requires Indexed(w) && NoBubbleHas(w.rows, id)
    ensures id in w.index <==> Known(Overview(w.rows), id)
  {
    if id in w.index {
      assert w.rows[w.index[id]] in Settled(w.rows);
    }
  }

  lemma SettledOfReplace(w: Working, at: nat, x: Message)
    requires Indexed(w) && at < |w.rows|
    requires w.rows[at].id == x.id || IsUnconfirmed(w.rows[at])
    requires forall i | 0 <= i < |w.rows| && i != at :: w.rows[i].id != x.id
    ensures Settled(w.rows[at := Confirm(x)])
         == (set m | m in Settled(w.rows) && m.id != x.id) + {Confirm(x)}
  {
    var after := w.rows[at := Confirm(x)];
    forall m ensures m in Settled(after) <==> (m in Settled(w.rows) && m.id != x.id) || m == Confirm(x) {
      if m in Settled(after) {
        var i :| 0 <= i < |after| && after[i] == m;
        if i != at { assert w.rows[i] == m; }
      }
      if m in Settled(w.rows) && m.id != x.id {
        var i :| 0 <= i < |w.rows| && w.rows[i] == m;
        assert after[i] == m;
      }
      if m == Confirm(x) { assert after[at] == m; }
    }
  }

  lemma PlaceAbsorbs(w: Working, x: Message)
    requires Indexed(w) && NoBubbleHas(w.rows, x.id)
    ensures Overview(Place(w, x).rows) == Absorb(Overview(w.rows), x)
  {
    KnownIffIndexed(w, x.id);
    if x.id in w.index {
      var at := w.index[x.id];
      assert w.rows[at] in w.rows;
      SettledOfReplace(w, at, x);
      BubblesOfUpdate(w.rows, at, Confirm(x));
    } else {
      match BubbleFor(w.rows, x)
      case Some(at) =>
        SettledOfReplace(w, at, x);
        BubblesOfClaim(w.rows, x.content, Confirm(x));
      case None =>
        BubblesOfConcat(w.rows, [Confirm(x)]);
        if x.role.User? { NothingToRemove(w.rows, x.content); }
        SettledOfAppend(w, x);
    }
  }

  lemma SettledOfAppend(w: Working, x: Message)
    requires Indexed(w) && x.id !in w.index
    ensures Settled(w.rows + [Confirm(x)]) == (set m | m in Settled(w.rows) && m.id != x.id) + {Confirm(x)}
  {
    forall m | m in Settled(w.rows) ensures m.id != x.id {
      var i :| 0 <= i < |w.rows| && w.rows[i] == m;
    }
  }

  lemma {:induction false} PlaceAllAbsorbs(w: Working, rows: seq<Message>)
    requires Indexed(w)
    requires forall x | x in rows :: NoBubbleHas(w.rows, x.id)
    ensures Overview(PlaceAll(w, rows).rows) == AbsorbAll(Overview(w.rows), rows)
    decreases |rows|
  {
    if rows != [] {
      PlaceAbsorbs(w, rows[0]);
      PlaceIndexed(w, rows[0]);
      forall x | x in rows[1..] ensures NoBubbleHas(Place(w, rows[0]).rows, x.id) {
        assert x in rows;
        BubblesOnlyShrink(w, rows[0], x.id);
      }
      PlaceAllAbsorbs(Place(w, rows[0]), rows[1..]);
    }
  }

  lemma BubblesOnlyShrink(w: Working, x: Message, id: string)
    requires InRange(w) && NoBubbleHas(w.rows, id)
    ensures NoBubbleHas(Place(w, x).rows, id)
  {
    forall m | m in Place(w, x).rows && m.id == id ensures !IsUnconfirmed(m) {
      assert m == Confirm(x) || m in w.rows;
    }
  }

  // ---------- Lists and deliveries that fit together ----------

  /** Bubbles have no seq and no server id; confirmed rows and server rows have one seq per row. */
  ghost predicate Compatible(rows: seq<Message>, server: set<Message>) {
    && DistinctIds(rows)
    && (forall m | m in rows :: IsUnconfirmed(m) <==> m.order.None?)
    && (forall r | r in server :: r.order.Some? && NoBubbleHas(rows, r.id))
    && (forall a, b | a in Settled(rows) + server && b in Settled(rows) + server && a.order == b.order ::
          a.id == b.id)
  }

  lemma MergeStaysCompatible(prev: seq<Message>, incoming: seq<Message>, server: set<Message>)
    requires Compatible(prev, server) && Elements(incoming) <= server
    ensures Compatible(AppendUnique(prev, incoming), server)
  {
    var r := AppendUnique(prev, incoming);
    MergeMembers(prev, incoming);
    forall m | m in r ensures m in prev || exists x :: x in server && m == Confirm(x) {
      if m !in prev {
        var x :| x in incoming && m == Confirm(x);
        assert x in Elements(incoming);
      }
    }
    SeqsStayDistinct(prev, r, server);
  }

  lemma SeqsStayDistinct(prev: seq<Message>, r: seq<Message>, server: set<Message>)
    requires Compatible(prev, server)
    requires forall m | m in r :: m in prev || exists x :: x in server && m == Confirm(x)
    ensures forall a, b | a in Settled(r) + server && b in Settled(r) + server && a.order == b.order :: a.id == b.id
  {
    forall a, b | a in Settled(r) + server && b in Settled(r) + server && a.order == b.order
      ensures a.id == b.id
    {
      var a' := Original(a, prev, server, r);
      var b' := Original(b, prev, server, r);
    }
  }

  /** A settled row of the merge result carries the id and seq of an old row or of a server row. */
  lemma Original(m: Message, prev: seq<Message>, server: set<Message>, r: seq<Message>) returns (o: Message)
    requires m in Settled(r) + server
    requires m in r ==> m in prev || exists x :: x in server && m == Confirm(x)
    ensures o in Settled(prev) + server && o.id == m.id && o.order == m.order
  {
    if m in server || m in prev { o := m; } else { o :| o in server && m == Confirm(o); }
  }

  lemma {:induction false} BubblesAreUnsequenced(rows: seq<Message>)
    requires forall m | m in rows :: IsUnconfirmed(m) <==> m.order.None?
    ensures Bubbles(rows) == WithKey(rows, OrderKey, Infinite)
  {
    if rows != [] {
      assert rows[0] in rows;
      assert forall m | m in rows[1..] :: m in rows;
      BubblesAreUnsequenced(rows[1..]);
    }
  }

  lemma MergeAbsorbs(prev: seq<Message>, incoming: seq<Message>, server: set<Message>)
    requires Compatible(prev, server) && Elements(incoming) <= server
    ensures Overview(AppendUnique(prev, incoming)) == AbsorbAll(Overview(prev), incoming)
  {
    if incoming != [] {
      var r, rows := AppendUnique(prev, incoming), PlaceAll(Start(prev), incoming).rows;
      StartIndexed(prev);
      assert forall x | x in incoming :: x in Elements(incoming);
      PlaceAllAbsorbs(Start(prev), incoming);
      MergeShape(prev, incoming);
      MergeStaysCompatible(prev, incoming, server);
      SortIsStable(rows, OrderKey);
      BubblesAreUnsequenced(r);
      BubblesAreUnsequenced(rows);
      assert Settled(r) == Settled(rows);
    }
  }

  lemma {:induction false} AtMostOne(rows: seq<Message>, server: set<Message>, k: Key)
    requires Compatible(rows, server) && k.Finite?
    ensures |WithKey(rows, OrderKey, k)| <= 1
  {
    if rows != [] {
      var rest := rows[1..];
      assert rows == [rows[0]] + rest;
      assert Settled(rest) <= Settled(rows);
      AtMostOne(rest, server, k);
      if OrderKey(rows[0]) == k {
        assert rows[0] in Settled(rows);
        forall i | 0 <= i < |rest| ensures OrderKey(rest[i]) != k {
          assert rows[i + 1] == rest[i];
          assert rest[i].order.Some? ==> rest[i] in Settled(rows);
        }
        NoneWithKey(rest, OrderKey, k);
      }
    }
  }

  /** A sorted list is its view: the settled rows by seq, then the bubbles in order. */
  lemma ViewDeterminesList(a: seq<Message>, b: seq<Message>, server: set<Message>)
    requires Compatible(a, server) && Compatible(b, server)
    requires Sorted(a, OrderKey) && Sorted(b, OrderKey)
    requires Overview(a) == Overview(b)
    ensures a == b
  {
    forall k ensures WithKey(a, OrderKey, k) == WithKey(b, OrderKey, k) {
      if k.Infinite? {
        BubblesAreUnsequenced(a);
        BubblesAreUnsequenced(b);
      } else {
        AtMostOne(a, server, k);
        AtMostOne(b, server, k);
        SameKeyed(a, b, server, k);
        SameKeyed(b, a, server, k);
      }
    }
    StableOrderIsUnique(a, b, OrderKey);
  }

  lemma SameKeyed(a: seq<Message>, b: seq<Message>, server: set<Message>, k: Key)
    requires Compatible(a, server) && k.Finite? && Settled(a) == Settled(b)
    ensures WithKey(a, OrderKey, k) != [] ==> WithKey(a, OrderKey, k)[0] in WithKey(b, OrderKey, k)
  {
    if WithKey(a, OrderKey, k) != [] {
      var m := WithKey(a, OrderKey, k)[0];
      WithKeyMember(a, OrderKey, k, m);
      assert m in Settled(a);
      WithKeyMember(b, OrderKey, k, m);
    }
  }

  // ---------- Main results ----------

  function Deliver(list: seq<Message>, batches: seq<seq<Message>>): seq<Message>
    decreases |batches|
  {
    if batches == [] then list else Deliver(AppendUnique(list, batches[0]), batches[1..])
  }

  function Flatten(batches: seq<seq<Message>>): seq<Message> {
    if batches == [] then [] else batches[0] + Flatten(batches[1..])
  }

  lemma {:induction false} AbsorbConcat(v: View, a: seq<Message>, b: seq<Message>)
    ensures AbsorbAll(v, a + b) == AbsorbAll(AbsorbAll(v, a), b)
    decreases |a|
  {
    if a == [] {
      assert a + b == b;
    } else {
      assert (a + b)[1..] == a[1..] + b;
      AbsorbConcat(Absorb(v, a[0]), a[1..], b);
    }
  }

  lemma {:induction false} DeliveryAbsorbs(list: seq<Message>, batches: seq<seq<Message>>, server: set<Message>)
    requires Compatible(list, server) && Elements(Flatten(batches)) <= server
    ensures Compatible(Deliver(list, batches), server)
    ensures Overview(Deliver(list, batches)) == AbsorbAll(Overview(list), Flatten(batches))
    ensures Sorted(list, OrderKey) || Flatten(batches) != [] ==> Sorted(Deliver(list, batches), OrderKey)
    ensures Flatten(batches) == [] ==> Deliver(list, batches) == list
    decreases |batches|
  {
    if batches != [] {
      var first, rest := batches[0], batches[1..];
      assert forall m | m in first :: m in Flatten(batches);
      assert forall m | m in Flatten(rest) :: m in Flatten(batches);
      assert Elements(first) <= server && Elements(Flatten(rest)) <= server by {
        assert forall m | m in Flatten(batches) :: m in Elements(Flatten(batches));
      }
      MergeStaysCompatible(list, first, server);
      MergeAbsorbs(list, first, server);
      if first != [] { MergeShape(list, first); }
      DeliveryAbsorbs(AppendUnique(list, first), rest, server);
      AbsorbConcat(Overview(list), first, Flatten(rest));
    }
  }

  /** Two histories of fetches that bring the same rows, however split, repeated and ordered, leave the
      same list, even with several pending bubbles of equal text. */
  lemma DeliveriesConverge(list: seq<Message>, one: seq<seq<Message>>, two: seq<seq<Message>>)
    requires Elements(Flatten(one)) == Elements(Flatten(two))
    requires Compatible(list, Elements(Flatten(one))) && Agree(Elements(Flatten(one)))
    ensures Deliver(list, one) == Deliver(list, two)
  {
    var server := Elements(Flatten(one));
    DeliveryAbsorbs(list, one, server);
    DeliveryAbsorbs(list, two, server);
    NoElements(Flatten(one));
    NoElements(Flatten(two));
    if Flatten(one) != [] {
      OnlyTheSetMatters(Overview(list), Flatten(one), Flatten(two));
      ViewDeterminesList(Deliver(list, one), Deliver(list, two), server);
    }
  }

  /** The two fetch orders of the double-fetch race, and one fetch of both, give the same list. */
  lemma BothOrdersConverge(prev: seq<Message>, a: seq<Message>, b: seq<Message>)
    requires Compatible(prev, Elements(a + b)) && Agree(Elements(a + b))
    ensures AppendUnique(AppendUnique(prev, a), b) == AppendUnique(AppendUnique(prev, b), a)
    ensures AppendUnique(AppendUnique(prev, a), b) == AppendUnique(prev, a + b)
  {
    DeliverTwo(prev, a, b);
    DeliverTwo(prev, b, a);
    assert [a + b][1..] == [];
    assert Elements(a + b) == Elements(b + a);
    DeliveriesConverge(prev, [a, b], [b, a]);
    DeliveriesConverge(prev, [a, b], [a + b]);
  }

  lemma DeliverTwo(prev: seq<Message>, a: seq<Message>, b: seq<Message>)
    ensures Deliver(prev, [a, b]) == AppendUnique(AppendUnique(prev, a), b)
    ensures Flatten([a, b]) == a + b
  {
    assert [a, b][1..] == [b] && [b][1..] == [];
    assert Deliver(AppendUnique(prev, a), [b]) == AppendUnique(AppendUnique(prev, a), b);
    assert Flatten([b]) == b;
  }

  /** For two pages that each list a row once, the orders converge exactly when the pages agree on
      every row they share: otherwise the page that lands last wins. */
  lemma OrdersConvergeIffPagesAgree(prev: seq<Message>, a: seq<Message>, b: seq<Message>)
    requires Compatible(prev, Elements(a + b)) && DistinctIds(a) && DistinctIds(b)
    ensures AppendUnique(AppendUnique(prev, a), b) == AppendUnique(AppendUnique(prev, b), a)
       <==> forall x, y | x in a && y in b && x.id == y.id :: Confirm(x) == Confirm(y)
  {
    if forall x, y | x in a && y in b && x.id == y.id :: Confirm(x) == Confirm(y) {
      assert Agree(Elements(a + b));
      BothOrdersConverge(prev, a, b);
    } else {
      var x, y :| x in a && y in b && x.id == y.id && Confirm(x) != Confirm(y);
      LandsLast(prev, a, b, y);
      LandsLast(prev, b, a, x);
      OneVersion(AppendUnique(AppendUnique(prev, a), b), Confirm(y), Confirm(x));
    }
  }

  lemma LandsLast(prev: seq<Message>, a: seq<Message>, b: seq<Message>, y: Message)
    requires DistinctIds(prev) && DistinctIds(b) && y in b
    ensures var r := AppendUnique(AppendUnique(prev, a), b); Confirm(y) in r && DistinctIds(r)
  {
    var mid := AppendUnique(prev, a);
    if a != [] { MergeAccountsForEveryRow(prev, a); }
    MergeAccountsForEveryRow(mid, b);
    LastVersionOfDistinct(b, y);
    assert y.id in Ids(AppendUnique(mid, b));
    var m :| m in AppendUnique(mid, b) && m.id == y.id;
    assert m.id in Ids(b);
  }
}
