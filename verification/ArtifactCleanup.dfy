/** What a cleanup deletes, keeps and reports (lib/files.ts). */
module ArtifactCleanup {
  import opened StableSorting
  import opened ArtifactFiles

  ghost predicate DistinctNames(files: seq<File>) {
    forall i, j :: 0 <= i < j < |files| ==> files[i].name != files[j].name
  }

  // ---------- Filters ----------

  lemma {:induction false} ManagedMembers(files: seq<File>, policy: Policy)
    ensures forall f :: f in Managed(files, policy) <==> f in files && IsManaged(f, policy)
    ensures DistinctNames(files) ==> DistinctNames(Managed(files, policy))
  {
    if files != [] {
      var rest := files[1..];
      assert files == [files[0]] + rest;
      ManagedMembers(rest, policy);
      HeadDistinct(files, Managed(rest, policy));
    }
  }

  lemma {:induction false} ExpiredMembers(files: seq<File>, cutoff: int)
    ensures forall f :: f in Expired(files, cutoff) <==> f in files && f.updated < cutoff
    ensures DistinctNames(files) ==> DistinctNames(Expired(files, cutoff))
  {
    if files != [] {
      var rest := files[1..];
      assert files == [files[0]] + rest;
      ExpiredMembers(rest, cutoff);
      HeadDistinct(files, Expired(rest, cutoff));
    }
  }

  lemma {:induction false} ExceptMembers(files: seq<File>, names: set<string>)
    ensures forall f :: f in Except(files, names) <==> f in files && f.name !in names
    ensures DistinctNames(files) ==> DistinctNames(Except(files, names))
  {
    if files != [] {
      var rest := files[1..];
      assert files == [files[0]] + rest;
      ExceptMembers(rest, names);
      HeadDistinct(files, Except(rest, names));
    }
  }

  lemma HeadDistinct(files: seq<File>, kept: seq<File>)
    requires files != [] && forall f | f in kept :: f in files[1..]
    ensures DistinctNames(files) ==> forall j | 0 <= j < |kept| :: kept[j].name != files[0].name
    ensures DistinctNames(files) ==> DistinctNames(files[1..])
  {
    if DistinctNames(files) {
      forall j | 0 <= j < |kept| ensures kept[j].name != files[0].name {
        assert kept[j] in files[1..];
      }
    }
  }

  lemma SortMembers(files: seq<File>, key: File -> Key)
    ensures forall f :: f in Sort(files, key) <==> f in files
    ensures multiset(Sort(files, key)) == multiset(files)
  {
    SortIsStable(files, key);
    forall f ensures f in Sort(files, key) <==> f in files {
      assert f in Sort(files, key) <==> f in multiset(Sort(files, key));
      assert f in files <==> f in multiset(files);
    }
  }

  lemma SameName(files: seq<File>, f: File, g: File)
    requires DistinctNames(files) && f in files && g in files && f.name == g.name
    ensures f == g
  {
  }

  lemma DifferentFiles(files: seq<File>, f: File, g: File)
    requires DistinctNames(files) && f in files && g in files && f != g
    ensures f.name != g.name
  {
  }

  // ---------- Bytes ----------

  lemma {:induction false} BytesConcat(a: seq<File>, b: seq<File>)
    ensures Bytes(a + b) == Bytes(a) + Bytes(b)
  {
    if a == [] {
      assert a + b == b;
    } else {
      assert (a + b)[1..] == a[1..] + b;
      BytesConcat(a[1..], b);
    }
  }

  lemma BytesWithout(b: seq<File>, i: nat)
    requires i < |b|
    ensures Bytes(b) == b[i].size + Bytes(b[..i] + b[i + 1..])
  {
    var front, back := b[..i], b[i..];
    assert Bytes(back) == b[i].size + Bytes(b[i + 1..]) by { assert back[1..] == b[i + 1..]; }
    assert b == front + back;
    BytesConcat(front, back);
    BytesConcat(front, b[i + 1..]);
  }

  lemma MultisetWithout(b: seq<File>, i: nat)
    requires i < |b|
    ensures multiset(b[..i] + b[i + 1..]) == multiset(b) - multiset{b[i]}
  {
    assert b == b[..i] + [b[i]] + b[i + 1..];
  }

  lemma PositionOf(b: seq<File>, f: File) returns (i: nat)
    requires f in multiset(b)
    ensures i < |b| && b[i] == f
  {
    i :| i < |b| && b[i] == f;
  }

  lemma WithoutHead(a: seq<File>, b: seq<File>) returns (i: nat)
    requires multiset(a) == multiset(b) && a != []
    ensures i < |b| && b[i] == a[0]
    ensures multiset(a[1..]) == multiset(b[..i] + b[i + 1..])
  {
    assert a[0] in multiset(a);
    i := PositionOf(b, a[0]);
    MultisetWithout(b, i);
    MultisetOfTail(a);
  }

  lemma MultisetOfTail(a: seq<File>)
    requires a != []
    ensures multiset(a[1..]) == multiset(a) - multiset{a[0]}
  {
    assert a == [a[0]] + a[1..];
  }

  lemma NoneLeft(b: seq<File>)
    requires multiset(b) == multiset{}
    ensures b == []
  {
    assert |multiset(b)| == |b|;
  }

  lemma {:induction false} BytesOfPermutation(a: seq<File>, b: seq<File>)
    requires multiset(a) == multiset(b)
    ensures Bytes(a) == Bytes(b)
  {
    if a == [] {
      NoneLeft(b);
    } else {
      var i := WithoutHead(a, b);
      BytesWithout(b, i);
      BytesOfPermutation(a[1..], b[..i] + b[i + 1..]);
    }
  }

  function Only(files: seq<File>, names: set<string>): seq<File> {
    if files == [] then []
    else if files[0].name in names then [files[0]] + Only(files[1..], names)
    else Only(files[1..], names)
  }

  lemma {:induction false} BytesSplit(files: seq<File>, names: set<string>)
    ensures Bytes(files) == Bytes(Only(files, names)) + Bytes(Except(files, names))
  {
    if files != [] { BytesSplit(files[1..], names); }
  }

  lemma {:induction false} OnlyMembers(files: seq<File>, names: set<string>)
    ensures forall f :: f in Only(files, names) <==> f in files && f.name in names
    ensures DistinctNames(files) ==> DistinctNames(Only(files, names))
  {
    if files != [] {
      var rest := files[1..];
      assert files == [files[0]] + rest;
      OnlyMembers(rest, names);
      HeadDistinct(files, Only(rest, names));
    }
  }

  lemma {:induction false} SameElements(a: seq<File>, b: seq<File>)
    requires DistinctNames(a) && DistinctNames(b)
    requires forall f :: f in a <==> f in b
    ensures multiset(a) == multiset(b)
  {
    forall f ensures multiset(a)[f] == multiset(b)[f] {
      Once(a, f);
      Once(b, f);
    }
  }

  lemma Once(a: seq<File>, f: File)
    requires DistinctNames(a)
    ensures multiset(a)[f] == if f in a then 1 else 0
  {
    if f in a {
      var i :| 0 <= i < |a| && a[i] == f;
      assert a == a[..i] + [a[i]] + a[i + 1..];
      assert f !in a[..i] && f !in a[i + 1..];
    }
  }

  // ---------- The plan ----------

  lemma CandidateMembers(files: seq<File>, policy: Policy, now: int)
    requires DistinctNames(files)
    ensures forall f :: f in Aged(files, policy, now) <==>
              f in files && IsManaged(f, policy) && f.updated < Cutoff(policy, now)
    ensures forall f :: f in Candidates(files, policy, now) <==>
              f in files && IsManaged(f, policy) && f.updated >= Cutoff(policy, now)
  {
    var managed := Managed(files, policy);
    var aged := Aged(files, policy, now);
    ManagedMembers(files, policy);
    ExpiredMembers(managed, Cutoff(policy, now));
    ExceptMembers(managed, Names(aged));
    SortMembers(Except(managed, Names(aged)), Oldest);
    forall f | f in managed ensures f.name in Names(aged) <==> f in aged {
      if f.name in Names(aged) {
        var g :| g in aged && g.name == f.name;
        SameName(managed, f, g);
      }
    }
  }

  lemma PlanDistinct(files: seq<File>, policy: Policy, now: int)
    requires DistinctNames(files)
    ensures DistinctNames(Candidates(files, policy, now))
    ensures DistinctNames(Plan(files, policy, now))
  {
    var aged, young := Aged(files, policy, now), Except(Managed(files, policy), Names(Aged(files, policy, now)));
    ManagedMembers(files, policy);
    ExpiredMembers(Managed(files, policy), Cutoff(policy, now));
    ExceptMembers(Managed(files, policy), Names(aged));
    SortIsStable(young, Oldest);
    DistinctByNames(young, Candidates(files, policy, now));
    var evicted := Oversize(files, policy, now);
    SortMembers(young, Oldest);
    forall i, j | 0 <= i < |aged| && 0 <= j < |evicted| ensures aged[i].name != evicted[j].name {
      assert evicted[j] == Candidates(files, policy, now)[j] && evicted[j] in young;
      assert aged[i].name in Names(aged);
    }
  }

  lemma DistinctByNames(a: seq<File>, b: seq<File>)
    requires DistinctNames(a) && multiset(a) == multiset(b)
    ensures DistinctNames(b)
  {
    forall i, j | 0 <= i < j < |b| ensures b[i].name != b[j].name {
      assert b[i] in multiset(a) && b[j] in multiset(a);
      Once(a, b[i]);
      assert b == b[..i] + [b[i]] + b[i + 1..];
      assert b[j] in b[i + 1..];
      assert b[j] != b[i];
      DifferentFiles(a, b[i], b[j]);
    }
  }

  /** The loop stops within the cap or at the end of the list, and not one file too late. */
  lemma {:induction false} EvictionStops(list: seq<File>, retained: int, cap: int)
    ensures var gone := Evicted(list, retained, cap);
            && |gone| <= |list|
            && (gone == list || retained - Bytes(gone) <= cap)
            && (gone != [] ==> retained - Bytes(gone) + gone[|gone| - 1].size > cap)
  {
    if list != [] && retained > cap {
      var gone := Evicted(list, retained, cap);
      var rest := Evicted(list[1..], retained - list[0].size, cap);
      EvictionStops(list[1..], retained - list[0].size, cap);
      assert gone == [list[0]] + rest && gone[1..] == rest;
      assert Bytes(gone) == list[0].size + Bytes(rest);
    }
  }

  /** The files that a cleanup leaves. */
  function Retained(files: seq<File>, policy: Policy, now: int): seq<File> {
    Except(files, Names(Plan(files, policy, now)))
  }

  lemma PlanMembers(files: seq<File>, policy: Policy, now: int)
    requires DistinctNames(files)
    ensures forall f | f in Plan(files, policy, now) :: f in files && IsManaged(f, policy)
    ensures forall f | f in files :: f.name in Names(Plan(files, policy, now)) <==> f in Plan(files, policy, now)
  {
    CandidateMembers(files, policy, now);
    var plan, gone := Plan(files, policy, now), Oversize(files, policy, now);
    forall f | f in plan ensures f in files && IsManaged(f, policy) {
      if f in gone {
        var i :| 0 <= i < |gone| && gone[i] == f;
        assert Candidates(files, policy, now)[i] == f;
      }
    }
    forall f | f in files && f.name in Names(plan) ensures f in plan {
      var g :| g in plan && g.name == f.name;
      SameName(files, f, g);
    }
  }

  /** Retained and deleted bytes add up to the total, whatever order the report lists them in. */
  lemma BytesAreConserved(files: seq<File>, policy: Policy, now: int)
    requires DistinctNames(files)
    ensures Bytes(files) == Bytes(Retained(files, policy, now)) + Bytes(Plan(files, policy, now))
  {
    var plan := Plan(files, policy, now);
    PlanMembers(files, policy, now);
    PlanDistinct(files, policy, now);
    BytesSplit(files, Names(plan));
    OnlyMembers(files, Names(plan));
    assert forall f :: f in Only(files, Names(plan)) <==> f in plan;
    SameElements(Only(files, Names(plan)), plan);
    BytesOfPermutation(Only(files, Names(plan)), plan);
  }

  lemma CandidatesOrdered(files: seq<File>, policy: Policy, now: int, i: nat, k: nat)
    requires i <= k < |Candidates(files, policy, now)|
    ensures Candidates(files, policy, now)[i].updated <= Candidates(files, policy, now)[k].updated
  {
    SortIsStable(Except(Managed(files, policy), Names(Aged(files, policy, now))), Oldest);
    assert i < k ==> Leq(Oldest(Candidates(files, policy, now)[i]), Oldest(Candidates(files, policy, now)[k]));
  }

  /** The evicted files stand in front of the candidates that stay. */
  lemma EvictedAreOlder(files: seq<File>, policy: Policy, now: int, gone: File, kept: File)
    requires gone in Oversize(files, policy, now)
    requires kept in Candidates(files, policy, now) && kept !in Oversize(files, policy, now)
    ensures gone.updated <= kept.updated
  {
    var evicted, list := Oversize(files, policy, now), Candidates(files, policy, now);
    var i :| 0 <= i < |evicted| && evicted[i] == gone;
    var k :| 0 <= k < |list| && list[k] == kept;
    assert forall m | 0 <= m < |evicted| :: list[m] == evicted[m];
    CandidatesOrdered(files, policy, now, i, k);
  }

  /** A retained managed file is no older than the cutoff and stands behind every evicted candidate. */
  lemma RetainedIsNewer(files: seq<File>, policy: Policy, now: int, kept: File, gone: File)
    requires DistinctNames(files)
    requires kept in Retained(files, policy, now) && IsManaged(kept, policy)
    requires gone in Plan(files, policy, now)
    ensures kept.updated >= Cutoff(policy, now) && gone.updated <= kept.updated
  {
    var plan, evicted, list := Plan(files, policy, now), Oversize(files, policy, now), Candidates(files, policy, now);
    CandidateMembers(files, policy, now);
    PlanMembers(files, policy, now);
    ExceptMembers(files, Names(plan));
    assert kept !in plan && kept in list;
    if gone in evicted { EvictedAreOlder(files, policy, now, gone, kept); }
  }

  /** The cleanup plan is correct: only managed files go; every expired managed file goes; no deleted file
      is newer than a retained managed one; bytes are accounted for exactly; at the end the cap is kept or
      no managed file is left; and a file is evicted for size only while the cap is exceeded. */
  lemma CleanupIsCorrect(files: seq<File>, policy: Policy, now: int)
    requires DistinctNames(files)
    ensures var plan, left := Plan(files, policy, now), Retained(files, policy, now);
            && DistinctNames(plan)
            && (forall f | f in plan :: f in files && IsManaged(f, policy))
            && (forall f | f in files && IsManaged(f, policy) && f.updated < Cutoff(policy, now) :: f in plan)
            && (forall f, g | f in left && IsManaged(f, policy) && g in plan :: g.updated <= f.updated)
            && Bytes(files) == Bytes(left) + Bytes(plan)
            && (Bytes(left) <= Cap(policy) || forall f | f in left :: !IsManaged(f, policy))
            && (forall g | g in plan && g.updated >= Cutoff(policy, now) ::
                  exists last :: last in plan && g.updated <= last.updated
                    && last.updated >= Cutoff(policy, now) && Bytes(left) + last.size > Cap(policy))
  {
    var plan, left := Plan(files, policy, now), Retained(files, policy, now);
    PlanDistinct(files, policy, now);
    PlanMembers(files, policy, now);
    CandidateMembers(files, policy, now);
    BytesAreConserved(files, policy, now);
    forall f, g | f in left && IsManaged(f, policy) && g in plan ensures g.updated <= f.updated {
      RetainedIsNewer(files, policy, now, f, g);
    }
    EndsWithinCap(files, policy, now);
    forall g | g in plan && g.updated >= Cutoff(policy, now)
      ensures exists last :: last in plan && g.updated <= last.updated
                && last.updated >= Cutoff(policy, now) && Bytes(left) + last.size > Cap(policy)
    {
      var last := LastEvictionWasNeeded(files, policy, now, g);
    }
  }

  lemma RetainedBytes(files: seq<File>, policy: Policy, now: int)
    requires DistinctNames(files)
    ensures Bytes(Retained(files, policy, now))
            == Bytes(files) - Bytes(Aged(files, policy, now)) - Bytes(Oversize(files, policy, now))
  {
    BytesConcat(Aged(files, policy, now), Oversize(files, policy, now));
    BytesAreConserved(files, policy, now);
  }

  lemma NothingManagedLeft(files: seq<File>, policy: Policy, now: int)
    requires DistinctNames(files) && Oversize(files, policy, now) == Candidates(files, policy, now)
    ensures forall f | f in Retained(files, policy, now) :: !IsManaged(f, policy)
  {
    CandidateMembers(files, policy, now);
    PlanMembers(files, policy, now);
    ExceptMembers(files, Names(Plan(files, policy, now)));
  }

  lemma OversizeStops(files: seq<File>, policy: Policy, now: int)
    ensures var gone := Oversize(files, policy, now);
            var left := Bytes(files) - Bytes(Aged(files, policy, now)) - Bytes(gone);
            && (gone == Candidates(files, policy, now) || left <= Cap(policy))
            && (gone != [] ==> left + gone[|gone| - 1].size > Cap(policy))
  {
    GoneStops(
      Candidates(files, policy, now), Bytes(files) - Bytes(Aged(files, policy, now)), Cap(policy),
      Oversize(files, policy, now));
  }

  lemma GoneStops(list: seq<File>, total: int, cap: int, gone: seq<File>)
    requires gone == Evicted(list, total, cap)
    ensures gone == list || total - Bytes(gone) <= cap
    ensures gone != [] ==> total - Bytes(gone) + gone[|gone| - 1].size > cap
  {
    EvictionStops(list, total, cap);
  }

  lemma EndsWithinCap(files: seq<File>, policy: Policy, now: int)
    requires DistinctNames(files)
    ensures Bytes(Retained(files, policy, now)) <= Cap(policy)
         || forall f | f in Retained(files, policy, now) :: !IsManaged(f, policy)
  {
    OversizeStops(files, policy, now);
    RetainedBytes(files, policy, now);
    if Oversize(files, policy, now) == Candidates(files, policy, now) { NothingManagedLeft(files, policy, now); }
  }

  /** Without the last eviction the retained bytes would exceed the cap. */
  lemma UndoingLastEvictionExceedsCap(files: seq<File>, policy: Policy, now: int)
    requires DistinctNames(files) && Oversize(files, policy, now) != []
    ensures var gone := Oversize(files, policy, now);
            Bytes(Retained(files, policy, now)) + gone[|gone| - 1].size > Cap(policy)
  {
    OversizeStops(files, policy, now);
    RetainedBytes(files, policy, now);
  }

  lemma LateInPlanIsEvicted(files: seq<File>, policy: Policy, now: int, g: File)
    requires DistinctNames(files)
    requires g in Plan(files, policy, now) && g.updated >= Cutoff(policy, now)
    ensures g in Oversize(files, policy, now)
  {
    CandidateMembers(files, policy, now);
  }

  lemma LastEvictedIsNewest(files: seq<File>, policy: Policy, now: int, g: File)
    requires DistinctNames(files) && g in Oversize(files, policy, now)
    ensures var gone := Oversize(files, policy, now);
            && g.updated <= gone[|gone| - 1].updated
            && gone[|gone| - 1] in Candidates(files, policy, now)
  {
    var gone, list := Oversize(files, policy, now), Candidates(files, policy, now);
    var i: nat :| i < |gone| && gone[i] == g;
    var n := |gone| - 1;
    assert list[i] == g && list[n] == gone[n];
    CandidatesOrdered(files, policy, now, i, n);
  }

  lemma LastEvictionWasNeeded(files: seq<File>, policy: Policy, now: int, g: File) returns (last: File)
    requires DistinctNames(files)
    requires g in Plan(files, policy, now) && g.updated >= Cutoff(policy, now)
    ensures last in Plan(files, policy, now) && g.updated <= last.updated
    ensures last.updated >= Cutoff(policy, now)
    ensures Bytes(Retained(files, policy, now)) + last.size > Cap(policy)
  {
    var gone := Oversize(files, policy, now);
    LateInPlanIsEvicted(files, policy, now, g);
    LastEvictedIsNewest(files, policy, now, g);
    UndoingLastEvictionExceedsCap(files, policy, now);
    last := gone[|gone| - 1];
    assert last.updated >= Cutoff(policy, now) by { CandidateMembers(files, policy, now); }
    assert last in gone;
  }

  // ---------- Running it again ----------

  lemma SettledPlanIsEmpty(files: seq<File>, policy: Policy, now: int)
    requires DistinctNames(files)
    requires forall f | f in files && IsManaged(f, policy) :: f.updated >= Cutoff(policy, now)
    requires Bytes(files) <= Cap(policy) || forall f | f in files :: !IsManaged(f, policy)
    ensures Plan(files, policy, now) == []
  {
    CandidateMembers(files, policy, now);
    NoFiles(Aged(files, policy, now));
    NoFiles(Candidates(files, policy, now));
  }

  lemma NoFiles(files: seq<File>)
    ensures files == [] <==> forall f :: f !in files
  {
    if files != [] { assert files[0] in files; }
  }

  /** Any list of exactly the retained files, in any order, yields an empty plan. */
  lemma PlanIsIdempotent(files: seq<File>, again: seq<File>, policy: Policy, now: int)
    requires DistinctNames(files) && DistinctNames(again)
    requires forall f :: f in again <==> f in Retained(files, policy, now)
    ensures Plan(again, policy, now) == []
  {
    var left := Retained(files, policy, now);
    ExceptMembers(files, Names(Plan(files, policy, now)));
    CandidateMembers(files, policy, now);
    PlanMembers(files, policy, now);
    EndsWithinCap(files, policy, now);
    SameElements(left, again);
    BytesOfPermutation(left, again);
    SettledPlanIsEmpty(again, policy, now);
  }

  // ---------- The folder ----------

  lemma {:induction false} FilesMembers(entries: seq<DirEntry>)
    requires DistinctEntries(entries)
    ensures forall f :: f in Files(entries) <==> exists e :: e in entries && Readable(e) && Info(e) == f
    ensures DistinctNames(Files(entries))
  {
    if entries != [] {
      var rest := entries[1..];
      assert entries == [entries[0]] + rest;
      FilesMembers(rest);
      forall j | 0 <= j < |Files(rest)| ensures Files(rest)[j].name != entries[0].name {
        assert Files(rest)[j] in Files(rest);
        var e :| e in rest && Readable(e) && Info(e) == Files(rest)[j];
        var i :| 0 <= i < |rest| && rest[i] == e;
        assert entries[i + 1] == e;
      }
    }
  }

  lemma {:induction false} UnlinkedMembers(entries: seq<DirEntry>, deleted: set<string>, stuck: set<string>)
    requires DistinctEntries(entries)
    ensures forall e :: e in Unlinked(entries, deleted, stuck) <==>
              e in entries && !(e.name in deleted && e.name !in stuck)
    ensures DistinctEntries(Unlinked(entries, deleted, stuck))
  {
    if entries != [] {
      var rest, kept := entries[1..], Unlinked(entries[1..], deleted, stuck);
      assert entries == [entries[0]] + rest;
      UnlinkedMembers(rest, deleted, stuck);
      forall j | 0 <= j < |kept| ensures kept[j].name != entries[0].name {
        assert kept[j] in rest;
        var i :| 0 <= i < |rest| && rest[i] == kept[j];
        assert entries[i + 1] == kept[j];
      }
    }
  }

  lemma ListingMembers(entries: seq<DirEntry>)
    requires DistinctEntries(entries)
    ensures var files := Listing(entries).files;
            && DistinctNames(files)
            && (forall f :: f in files <==> exists e :: e in entries && Readable(e) && Info(e) == f)
            && Listing(entries).totalBytes == Bytes(files)
  {
    FilesMembers(entries);
    SortMembers(Files(entries), Newest);
    DistinctByNames(Files(entries), Sort(Files(entries), Newest));
  }

  /** What a cleanup deletes from a folder, by name. */
  function Deletions(entries: seq<DirEntry>, policy: Policy, now: int): seq<File> {
    Sort(Plan(Listing(entries).files, policy, now), Oldest)
  }

  /** With nothing stuck, the folder afterwards lists exactly the retained files. */
  lemma FolderAfterCleanup(entries: seq<DirEntry>, policy: Policy, now: int)
    requires DistinctEntries(entries)
    ensures var files, after := Listing(entries).files, Unlinked(entries, Names(Deletions(entries, policy, now)), {});
            && DistinctEntries(after)
            && forall f :: f in Listing(after).files <==> f in Retained(files, policy, now)
  {
    var files := Listing(entries).files;
    var plan := Plan(files, policy, now);
    var after := Unlinked(entries, Names(Deletions(entries, policy, now)), {});
    ListingMembers(entries);
    SortMembers(plan, Oldest);
    assert Names(Deletions(entries, policy, now)) == Names(plan);
    UnlinkedMembers(entries, Names(plan), {});
    ListingMembers(after);
    ExceptMembers(files, Names(plan));
    forall f ensures f in Listing(after).files <==> f in Retained(files, policy, now) {
      if f in Retained(files, policy, now) {
        var e :| e in entries && Readable(e) && Info(e) == f;
        assert e in after;
      }
    }
  }

  /** With the same clock and policy and no failing unlink, a second cleanup deletes nothing. */
  lemma CleanupIsIdempotent(entries: seq<DirEntry>, policy: Policy, now: int)
    requires DistinctEntries(entries)
    ensures Deletions(Unlinked(entries, Names(Deletions(entries, policy, now)), {}), policy, now) == []
  {
    var files, after := Listing(entries).files, Unlinked(entries, Names(Deletions(entries, policy, now)), {});
    ListingMembers(entries);
    FolderAfterCleanup(entries, policy, now);
    ListingMembers(after);
    PlanIsIdempotent(files, Listing(after).files, policy, now);
  }

  /** What stays in the folder listing when the names in `stuck` resist. */
  lemma BytesAfter(entries: seq<DirEntry>, policy: Policy, now: int, stuck: set<string>)
    requires DistinctEntries(entries)
    ensures var plan := Plan(Listing(entries).files, policy, now);
            var after := Unlinked(entries, Names(Deletions(entries, policy, now)), stuck);
            Listing(after).totalBytes == Listing(entries).totalBytes - Bytes(plan) + Bytes(Only(plan, stuck))
  {
    var files := Listing(entries).files;
    var plan := Plan(files, policy, now);
    var after := Unlinked(entries, Names(Deletions(entries, policy, now)), stuck);
    ListingMembers(entries);
    SortMembers(plan, Oldest);
    assert Names(Deletions(entries, policy, now)) == Names(plan);
    UnlinkedMembers(entries, Names(plan), stuck);
    ListingMembers(after);
    PlanMembers(files, policy, now);
    PlanDistinct(files, policy, now);
    BytesSplit(plan, stuck);
    OnlyMembers(plan, stuck);
    var removed := Except(plan, stuck);
    ExceptMembers(plan, stuck);
    BytesSplit(files, Names(removed));
    OnlyMembers(files, Names(removed));
    RemovedByName(files, plan, removed);
    SameElements(Only(files, Names(removed)), removed);
    BytesOfPermutation(Only(files, Names(removed)), removed);
    ExceptMembers(files, Names(removed));
    forall f ensures f in Listing(after).files <==> f in Except(files, Names(removed)) {
      StillListed(entries, after, plan, removed, stuck, f);
    }
    SameElements(Listing(after).files, Except(files, Names(removed)));
    BytesOfPermutation(Listing(after).files, Except(files, Names(removed)));
  }

  lemma RemovedByName(files: seq<File>, plan: seq<File>, removed: seq<File>)
    requires DistinctNames(files) && forall f | f in plan :: f in files
    requires forall f | f in removed :: f in plan
    ensures forall f :: f in files && f.name in Names(removed) <==> f in removed
  {
    forall f | f in files && f.name in Names(removed) ensures f in removed {
      var g :| g in removed && g.name == f.name;
      SameName(files, f, g);
    }
  }

  lemma StillListed(
      entries: seq<DirEntry>, after: seq<DirEntry>, plan: seq<File>, removed: seq<File>, stuck: set<string>, f: File)
    requires DistinctEntries(entries) && DistinctEntries(after)
    requires forall e :: e in after <==> e in entries && !(e.name in Names(plan) && e.name !in stuck)
    requires forall g :: g in removed <==> g in plan && g.name !in stuck
    ensures f in Listing(after).files <==> f in Listing(entries).files && f.name !in Names(removed)
  {
    ListingMembers(entries);
    ListingMembers(after);
    assert f.name in Names(removed) <==> f.name in Names(plan) && f.name !in stuck by {
      if f.name in Names(plan) && f.name !in stuck {
        var g :| g in plan && g.name == f.name;
        assert g in removed;
      }
    }
    if f in Listing(entries).files && f.name !in Names(removed) {
      var e :| e in entries && Readable(e) && Info(e) == f;
      assert e in after;
    }
    if f in Listing(after).files {
      var e :| e in after && Readable(e) && Info(e) == f;
      assert e in entries;
    }
  }

  lemma {:induction false} NoBytes(files: seq<File>)
    ensures Bytes(files) == 0 <==> forall f | f in files :: f.size == 0
  {
    if files != [] {
      assert files == [files[0]] + files[1..];
      NoBytes(files[1..]);
    }
  }

  /** The report counts a file as deleted even if its unlink failed. So the reported bytes are the drop in
      the folder's total if and only if every file that resisted is empty. */
  lemma ReportAddsUpIffOnlyEmptyFilesStuck(entries: seq<DirEntry>, policy: Policy, now: int, stuck: set<string>)
    requires DistinctEntries(entries)
    ensures var deleted := Deletions(entries, policy, now);
            var after := Unlinked(entries, Names(deleted), stuck);
            Bytes(deleted) == Listing(entries).totalBytes - Listing(after).totalBytes
            <==> forall f | f in deleted && f.name in stuck :: f.size == 0
  {
    var plan := Plan(Listing(entries).files, policy, now);
    BytesAfter(entries, policy, now, stuck);
    SortMembers(plan, Oldest);
    BytesOfPermutation(Deletions(entries, policy, now), plan);
    BytesSplit(plan, stuck);
    OnlyMembers(plan, stuck);
    NoBytes(Only(plan, stuck));
  }

  /** A dry run, a real run and a second real run on one folder: the first two report the same deletions,
      the dry run changes nothing, the books balance, and the last run finds nothing to delete. */
  method DryRunThenCleanup(folder: Folder, policy: Policy, now: int)
      returns (preview: CleanupResult, done: CleanupResult, again: CleanupResult)
    requires DistinctEntries(folder.entries)
    modifies folder
    ensures preview.deleted == done.deleted && preview.deletedBytes == done.deletedBytes
    ensures preview.before == preview.after == done.before
    ensures done.after.totalBytes == done.before.totalBytes - done.deletedBytes
    ensures again.deleted == [] && again.after == done.after
  {
    ghost var entries := folder.entries;
    preview := folder.Cleanup(policy, true, now, {});
    done := folder.Cleanup(policy, false, now, {});
    ReportAddsUpIffOnlyEmptyFilesStuck(entries, policy, now, {});
    CleanupIsIdempotent(entries, policy, now);
    ghost var left := folder.entries;
    again := folder.Cleanup(policy, false, now, {});
    UnlinkTwice(left, {}, {}, {});
    assert Names([]) == {};
  }
}
