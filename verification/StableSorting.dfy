/** The contract of Array.prototype.sort that the client relies on: a stable sort by a
    numeric key, where a missing key counts as positive infinity.

    The TypeScript comparators subtract keys. Infinity - Infinity is NaN, which
    CompareArrayElements (section 23.1.3.30.2 of ECMA-262) reads as zero, so two
    infinite keys compare as equal and keep their order. */
module StableSorting {

  datatype Key = Finite(rank: int) | Infinite

  predicate Leq(a: Key, b: Key) {
    b.Infinite? || (a.Finite? && a.rank <= b.rank)
  }

  ghost predicate Sorted<T>(s: seq<T>, key: T -> Key) {
    forall i, j :: 0 <= i < j < |s| ==> Leq(key(s[i]), key(s[j]))
  }

  /** The elements of `s` whose key is `k`, in order. */
  function WithKey<T>(s: seq<T>, key: T -> Key, k: Key): seq<T> {
    if s == [] then []
    else if key(s[0]) == k then [s[0]] + WithKey(s[1..], key, k)
    else WithKey(s[1..], key, k)
  }

  /** Puts `x` in front of the first element whose key is not below its own. */
  function Insert<T>(x: T, s: seq<T>, key: T -> Key): seq<T> {
    if s == [] || Leq(key(x), key(s[0])) then [x] + s else [s[0]] + Insert(x, s[1..], key)
  }

  function Sort<T>(s: seq<T>, key: T -> Key): seq<T> {
    if s == [] then [] else Insert(s[0], Sort(s[1..], key), key)
  }

  lemma {:induction false} InsertKeeps<T>(x: T, s: seq<T>, key: T -> Key)
    requires Sorted(s, key)
    ensures multiset(Insert(x, s, key)) == multiset{x} + multiset(s)
    ensures |Insert(x, s, key)| == |s| + 1
    ensures Sorted(Insert(x, s, key), key)
  {
    if s == [] || Leq(key(x), key(s[0])) {
    } else {
      InsertKeeps(x, s[1..], key);
      var rest := Insert(x, s[1..], key);
      assert s == [s[0]] + s[1..];
      forall j | 0 <= j < |rest| ensures Leq(key(s[0]), key(rest[j])) {
        assert rest[j] in multiset(rest);
      }
    }
  }

  lemma {:induction false} InsertWithKey<T>(x: T, s: seq<T>, key: T -> Key, k: Key)
    requires Sorted(s, key)
    ensures WithKey(Insert(x, s, key), key, k) == WithKey([x] + s, key, k)
  {
    assert ([x] + s)[1..] == s;
    if s == [] || Leq(key(x), key(s[0])) {
    } else {
      InsertWithKey(x, s[1..], key, k);
      assert ([x] + s[1..])[1..] == s[1..];
      assert ([s[0]] + Insert(x, s[1..], key))[1..] == Insert(x, s[1..], key);
    }
  }

  /** Sort returns an ordered permutation in which equal keys keep their order. */
  lemma {:induction false} SortIsStable<T>(s: seq<T>, key: T -> Key)
    ensures Sorted(Sort(s, key), key)
    ensures multiset(Sort(s, key)) == multiset(s)
    ensures |Sort(s, key)| == |s|
    ensures forall k :: WithKey(Sort(s, key), key, k) == WithKey(s, key, k)
  {
    if s != [] {
      var rest := Sort(s[1..], key);
      SortIsStable(s[1..], key);
      InsertKeeps(s[0], rest, key);
      assert s == [s[0]] + s[1..];
      forall k ensures WithKey(Sort(s, key), key, k) == WithKey(s, key, k) {
        InsertWithKey(s[0], rest, key, k);
        assert ([s[0]] + rest)[1..] == rest;
      }
    }
  }

  lemma {:induction false} WithKeyMember<T>(s: seq<T>, key: T -> Key, k: Key, x: T)
    ensures x in WithKey(s, key, k) <==> x in s && key(x) == k
  {
    if s != [] {
      WithKeyMember(s[1..], key, k, x);
      assert s == [s[0]] + s[1..];
    }
  }

  lemma {:induction false} NoneWithKey<T>(s: seq<T>, key: T -> Key, k: Key)
    requires forall x | x in s :: key(x) != k
    ensures WithKey(s, key, k) == []
  {
    if s != [] { NoneWithKey(s[1..], key, k); }
  }

  lemma EmptyHasNoKeys<T>(s: seq<T>, key: T -> Key)
    ensures s == [] <==> forall k :: WithKey(s, key, k) == []
  {
    if s != [] { assert WithKey(s, key, key(s[0])) != []; }
  }

  /** Order and stability leave no freedom: they determine the whole sequence. */
  lemma {:induction false} StableOrderIsUnique<T>(a: seq<T>, b: seq<T>, key: T -> Key)
    requires Sorted(a, key) && Sorted(b, key)
    requires forall k :: WithKey(a, key, k) == WithKey(b, key, k)
    ensures a == b
  {
    EmptyHasNoKeys(a, key);
    EmptyHasNoKeys(b, key);
    if a != [] {
      var k := key(a[0]);
      assert WithKey(a, key, k) == WithKey(b, key, k);
      WithKeyMember(b, key, k, a[0]);
      WithKeyMember(a, key, key(b[0]), b[0]);
      HeadsShareKey(a, b, key);
      assert WithKey(a, key, k)[0] == a[0] && WithKey(b, key, k)[0] == b[0];
      forall j ensures WithKey(a[1..], key, j) == WithKey(b[1..], key, j) {
        assert WithKey(a, key, j) == WithKey(b, key, j);
        if j == k {
          assert WithKey(a, key, j)[1..] == WithKey(a[1..], key, j);
          assert WithKey(b, key, j)[1..] == WithKey(b[1..], key, j);
        }
      }
      StableOrderIsUnique(a[1..], b[1..], key);
    }
  }

  lemma HeadsShareKey<T>(a: seq<T>, b: seq<T>, key: T -> Key)
    requires Sorted(a, key) && Sorted(b, key) && a != [] && b != []
    requires a[0] in b && b[0] in a
    ensures key(a[0]) == key(b[0])
  {
    var i :| 0 <= i < |b| && b[i] == a[0];
    var j :| 0 <= j < |a| && a[j] == b[0];
  }

  lemma SortOfSorted<T>(s: seq<T>, key: T -> Key)
    requires Sorted(s, key)
    ensures Sort(s, key) == s
  {
    SortIsStable(s, key);
    StableOrderIsUnique(Sort(s, key), s, key);
  }
}
