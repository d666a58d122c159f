/** What a cleanup does to the folder, told by entry names, sizes and times alone (lib/files.ts). */
module ArtifactRetention {
  import opened Options
  import opened StableSorting
  import opened ArtifactFiles
  import opened ArtifactCleanup

  predicate BrowserName(name: string) { "browser-" <= name }

  predicate GeneratedName(name: string) {
    "generated-" <= name || "voice-" <= name || "image-" <= name || "img-" <= name
  }

  /** A cleanup under this policy may delete files of this name. */
  predicate MayGo(name: string, policy: Policy) {
    (policy.includeBrowser && BrowserName(name)) || (policy.includeGenerated && GeneratedName(name))
  }

  /** A regular file that can be read, with a name of letters, digits, dots, underscores and hyphens without two
      dots in a row. */
  predicate Listed(e: DirEntry) {
    && e.stat.Some? && e.stat.value.regular && |e.name| > 0
    && (forall i | 0 <= i < |e.name| ::
          'A' <= e.name[i] <= 'Z' || 'a' <= e.name[i] <= 'z' || '0' <= e.name[i] <= '9' || e.name[i] in {'.', '_', '-'})
    && forall i | 0 <= i < |e.name| - 1 :: e.name[i] != '.' || e.name[i + 1] != '.'
  }

  /** Last written more than the policy's days, at least one, before. */
  predicate TooOld(e: DirEntry, policy: Policy, now: int) {
    e.stat.Some? && now - e.stat.value.mtime > (if policy.retentionDays < 1 then 1 else policy.retentionDays) * 86_400_000
  }

  /** The policy's megabytes, at least one, in bytes. */
  function Limit(policy: Policy): int { (if policy.maxTotalMb < 1 then 1 else policy.maxTotalMb) * 1_048_576 }

  /** The bytes of the listed files whose names are picked. */
  function BytesIn(entries: seq<DirEntry>, pick: string -> bool): nat {
    if entries == [] then 0
    else
      (if Listed(entries[0]) && pick(entries[0].name) then entries[0].stat.value.size else 0) + BytesIn(entries[1..], pick)
  }

  function FolderBytes(entries: seq<DirEntry>): nat { BytesIn(entries, name => true) }

  /** The folder after a cleanup. */
  function Cleaned(entries: seq<DirEntry>, policy: Policy, now: int, stuck: set<string>): seq<DirEntry> {
    Unlinked(entries, Names(Deletions(entries, policy, now)), stuck)
  }

  // ---------- Entries and listed files ----------

  lemma ListedIsReadable(e: DirEntry)
    ensures Listed(e) <==> Readable(e)
  {
    if Readable(e) {
      forall i | 0 <= i < |e.name| ensures SafeChar(e.name[i]) { assert e.name[i] in e.name; }
    }
  }

  lemma MayGoIsManaged(e: DirEntry, policy: Policy)
    requires Readable(e)
    ensures MayGo(e.name, policy) <==> IsManaged(Info(e), policy)
  {
    KindOfName(e.name);
  }

  lemma OldIsExpired(e: DirEntry, policy: Policy, now: int)
    requires Readable(e)
    ensures TooOld(e, policy, now) <==> Info(e).updated < Cutoff(policy, now)
    ensures Limit(policy) == Cap(policy)
  {
  }

  lemma FileOf(entries: seq<DirEntry>, e: DirEntry)
    requires DistinctEntries(entries) && e in entries
    ensures Listed(e) ==> Info(e) in Listing(entries).files
    ensures forall f | f in Listing(entries).files && f.name == e.name :: Listed(e) && f == Info(e)
  {
    ListingMembers(entries);
    ListedIsReadable(e);
    forall f | f in Listing(entries).files && f.name == e.name ensures Readable(e) && f == Info(e) {
      var other :| other in entries && Readable(other) && Info(other) == f;
      SameEntry(entries, e, other);
    }
  }

  lemma SameEntry(entries: seq<DirEntry>, a: DirEntry, b: DirEntry)
    requires DistinctEntries(entries) && a in entries && b in entries && a.name == b.name
    ensures a == b
  {
  }

  ghost predicate Gone(e: DirEntry, entries: seq<DirEntry>, after: seq<DirEntry>) { e in entries && e !in after }

  /** The entries that are gone are those of planned files that did not resist. */
  lemma GoneIffPlanned(entries: seq<DirEntry>, policy: Policy, now: int, stuck: set<string>, e: DirEntry)
    requires DistinctEntries(entries) && e in entries
    ensures var files, after := Listing(entries).files, Cleaned(entries, policy, now, stuck);
            && (e !in after <==> Listed(e) && Info(e) in Plan(files, policy, now) && e.name !in stuck)
            && (Listed(e) ==>
                  (MayGo(e.name, policy) <==> IsManaged(Info(e), policy))
                  && (TooOld(e, policy, now) <==> Info(e).updated < Cutoff(policy, now)))
  {
    var files := Listing(entries).files;
    var plan := Plan(files, policy, now);
    ListingMembers(entries);
    PlanMembers(files, policy, now);
    SortMembers(plan, Oldest);
    UnlinkedMembers(entries, Names(Deletions(entries, policy, now)), stuck);
    FileOf(entries, e);
    ListedIsReadable(e);
    if Listed(e) {
      MayGoIsManaged(e, policy);
      OldIsExpired(e, policy, now);
      if Info(e) in plan { assert Info(e) in Deletions(entries, policy, now); }
    }
    if e.name in Names(Deletions(entries, policy, now)) {
      var f :| f in Deletions(entries, policy, now) && f.name == e.name;
      assert f in plan && f in files;
    }
  }

  // ---------- What may go and what must ----------

  /** On every folder, under every policy and whatever resists: what stays is as it was; whatever goes is a listed
      file whose name the policy gives up, so attachments and all other names stay; a file of such a name that is
      too old goes unless it resists; and nothing that goes is newer than a file of such a name that stays
      without resisting. */
  lemma OnlyOwnedNamesGo(entries: seq<DirEntry>, policy: Policy, now: int, stuck: set<string>)
    requires DistinctEntries(entries)
    ensures var after := Cleaned(entries, policy, now, stuck);
            && DistinctEntries(after) && (forall e | e in after :: e in entries)
            && (forall e | Gone(e, entries, after) :: Listed(e) && MayGo(e.name, policy) && e.name !in stuck)
            && (forall e | e in entries && Listed(e) && MayGo(e.name, policy) && TooOld(e, policy, now) ::
                  Gone(e, entries, after) || e.name in stuck)
            && (forall e, k | Gone(e, entries, after) && k in after && Listed(k) && MayGo(k.name, policy)
                              && k.name !in stuck ::
                  e.stat.Some? && e.stat.value.mtime <= k.stat.value.mtime)
  {
    var files, after := Listing(entries).files, Cleaned(entries, policy, now, stuck);
    ListingMembers(entries);
    CleanupIsCorrect(files, policy, now);
    UnlinkedMembers(entries, Names(Deletions(entries, policy, now)), stuck);
    forall e | e in entries
      ensures Gone(e, entries, after) ==> Listed(e) && MayGo(e.name, policy) && e.name !in stuck
      ensures Listed(e) && MayGo(e.name, policy) && TooOld(e, policy, now) ==> Gone(e, entries, after) || e.name in stuck
    {
      GoneIffPlanned(entries, policy, now, stuck, e);
      FileOf(entries, e);
    }
    forall e, k | Gone(e, entries, after) && k in after && Listed(k) && MayGo(k.name, policy) && k.name !in stuck
      ensures e.stat.Some? && e.stat.value.mtime <= k.stat.value.mtime
    {
      KeptIsNewer(entries, policy, now, stuck, e, k);
    }
  }

  lemma KeptIsNewer(entries: seq<DirEntry>, policy: Policy, now: int, stuck: set<string>, e: DirEntry, k: DirEntry)
    requires DistinctEntries(entries) && e in entries && k in entries && k.name !in stuck
    requires e !in Cleaned(entries, policy, now, stuck) && k in Cleaned(entries, policy, now, stuck)
    requires Listed(k) && MayGo(k.name, policy)
    ensures e.stat.Some? && e.stat.value.mtime <= k.stat.value.mtime
  {
    var files := Listing(entries).files;
    ListingMembers(entries);
    GoneIffPlanned(entries, policy, now, stuck, e);
    GoneIffPlanned(entries, policy, now, stuck, k);
    FileOf(entries, k);
    PlanMembers(files, policy, now);
    ExceptMembers(files, Names(Plan(files, policy, now)));
    RetainedIsNewer(files, policy, now, Info(k), Info(e));
  }

  // ---------- Bytes ----------

  lemma {:induction false} BytesOfFiles(entries: seq<DirEntry>)
    ensures Bytes(Files(entries)) == FolderBytes(entries)
    ensures Bytes(OfKind(Files(entries), Browser)) == BytesIn(entries, BrowserName)
    ensures Bytes(OfKind(Files(entries), Generated)) == BytesIn(entries, GeneratedName)
  {
    if entries != [] {
      var e, rest := entries[0], Files(entries[1..]);
      BytesOfFiles(entries[1..]);
      ListedIsReadable(e);
      if Listed(e) {
        KindOfName(e.name);
        assert Files(entries) == [Info(e)] + rest && ([Info(e)] + rest)[1..] == rest;
      } else {
        assert Files(entries) == rest;
      }
    }
  }

  lemma KindOfName(name: string)
    ensures Classify(name).Browser? <==> BrowserName(name)
    ensures Classify(name).Generated? <==> GeneratedName(name)
  {
    if BrowserName(name) { assert name[0] == 'b'; }
    if GeneratedName(name) { assert name[0] == 'g' || name[0] == 'v' || name[0] == 'i'; }
    if StartsWith(name, "browser-extract-") { assert name[..8] == "browser-extract-"[..8] == "browser-"; }
  }

  lemma {:induction false} KindsOfPermutation(a: seq<File>, b: seq<File>, kind: Kind)
    requires multiset(a) == multiset(b)
    ensures multiset(OfKind(a, kind)) == multiset(OfKind(b, kind))
  {
    forall f ensures multiset(OfKind(a, kind))[f] == multiset(OfKind(b, kind))[f] {
      KindCount(a, kind, f);
      KindCount(b, kind, f);
    }
  }

  lemma {:induction false} KindCount(files: seq<File>, kind: Kind, f: File)
    ensures multiset(OfKind(files, kind))[f] == if f.kind == kind then multiset(files)[f] else 0
  {
    if files != [] {
      assert files == [files[0]] + files[1..];
      KindCount(files[1..], kind, f);
    }
  }

  /** The inventory tells the folder: each listed file with its size and time, newest first and otherwise in
      folder order; and the bytes of all listed files, of those named for the browser, and of the generated. */
  lemma InventoryTellsTheFolder(entries: seq<DirEntry>)
    ensures var inventory := Listing(entries);
            && (forall i, j | 0 <= i < j < |inventory.files| :: inventory.files[i].updated >= inventory.files[j].updated)
            && (forall k :: WithKey(inventory.files, Newest, k) == WithKey(Files(entries), Newest, k))
            && inventory.totalFiles == |inventory.files|
            && inventory.totalBytes == FolderBytes(entries)
            && inventory.browserBytes == BytesIn(entries, BrowserName)
            && inventory.generatedBytes == BytesIn(entries, GeneratedName)
  {
    var files, sorted := Files(entries), Sort(Files(entries), Newest);
    SortIsStable(files, Newest);
    BytesOfFiles(entries);
    BytesOfPermutation(files, sorted);
    KindsOfPermutation(files, sorted, Browser);
    KindsOfPermutation(files, sorted, Generated);
    BytesOfPermutation(OfKind(files, Browser), OfKind(sorted, Browser));
    BytesOfPermutation(OfKind(files, Generated), OfKind(sorted, Generated));
    forall i, j | 0 <= i < j < |sorted| ensures sorted[i].updated >= sorted[j].updated {
      assert Leq(Newest(sorted[i]), Newest(sorted[j]));
    }
  }

  /** If nothing resists, the folder is afterwards within the limit, or no file is left that the policy gives up;
      and a file that is not too old goes only as long as the limit is exceeded: with the newest of those that
      went, it would be. */
  lemma CleanedFolderFits(entries: seq<DirEntry>, policy: Policy, now: int)
    requires DistinctEntries(entries)
    ensures var after := Cleaned(entries, policy, now, {});
            && (FolderBytes(after) <= Limit(policy) || forall e | e in after :: !(Listed(e) && MayGo(e.name, policy)))
            && forall e | Gone(e, entries, after) && !TooOld(e, policy, now) ::
                 exists last :: Gone(last, entries, after) && last.stat.Some?
                   && e.stat.Some? && e.stat.value.mtime <= last.stat.value.mtime
                   && FolderBytes(after) + last.stat.value.size > Limit(policy)
  {
    var files, after := Listing(entries).files, Cleaned(entries, policy, now, {});
    var left := Retained(files, policy, now);
    ListingMembers(entries);
    CleanupIsCorrect(files, policy, now);
    LeftInFolder(entries, policy, now);
    if Bytes(left) > Cap(policy) {
      forall e | e in after ensures !(Listed(e) && MayGo(e.name, policy)) {
        UnlinkedMembers(entries, Names(Deletions(entries, policy, now)), {});
        GoneIffPlanned(entries, policy, now, {}, e);
        FileOf(entries, e);
        PlanMembers(files, policy, now);
        ExceptMembers(files, Names(Plan(files, policy, now)));
      }
    }
    forall e | Gone(e, entries, after) && !TooOld(e, policy, now)
      ensures exists last :: Gone(last, entries, after) && last.stat.Some?
                && e.stat.Some? && e.stat.value.mtime <= last.stat.value.mtime
                && FolderBytes(after) + last.stat.value.size > Limit(policy)
    {
      var last := LastGone(entries, policy, now, e);
    }
  }

  lemma LeftInFolder(entries: seq<DirEntry>, policy: Policy, now: int)
    requires DistinctEntries(entries)
    ensures FolderBytes(Cleaned(entries, policy, now, {})) == Bytes(Retained(Listing(entries).files, policy, now))
    ensures Limit(policy) == Cap(policy)
  {
    var files, after := Listing(entries).files, Cleaned(entries, policy, now, {});
    FolderAfterCleanup(entries, policy, now);
    ListingMembers(entries);
    ListingMembers(after);
    ExceptMembers(files, Names(Plan(files, policy, now)));
    SameElements(Listing(after).files, Retained(files, policy, now));
    BytesOfPermutation(Listing(after).files, Retained(files, policy, now));
    InventoryTellsTheFolder(after);
  }

  lemma LastGone(entries: seq<DirEntry>, policy: Policy, now: int, e: DirEntry) returns (last: DirEntry)
    requires DistinctEntries(entries) && e in entries
    requires e !in Cleaned(entries, policy, now, {}) && !TooOld(e, policy, now)
    ensures Gone(last, entries, Cleaned(entries, policy, now, {})) && last.stat.Some?
    ensures e.stat.Some? && e.stat.value.mtime <= last.stat.value.mtime
    ensures FolderBytes(Cleaned(entries, policy, now, {})) + last.stat.value.size > Limit(policy)
  {
    var files := Listing(entries).files;
    ListingMembers(entries);
    GoneIffPlanned(entries, policy, now, {}, e);
    var f := LastEvictionWasNeeded(files, policy, now, Info(e));
    PlanMembers(files, policy, now);
    assert f in files;
    last :| last in entries && Readable(last) && Info(last) == f;
    ListedIsReadable(last);
    GoneIffPlanned(entries, policy, now, {}, last);
    LeftInFolder(entries, policy, now);
  }

  /** The same of a cleanup that runs: attachments and other names are not touched, owned names that are too old
      go unless they resist, and the report tells what was deleted. */
  method CleanFolder(folder: Folder, policy: Policy, now: int, stuck: set<string>) returns (result: CleanupResult)
    requires DistinctEntries(folder.entries)
    modifies folder
    ensures forall e | e in folder.entries :: e in old(folder.entries)
    ensures forall e | e in old(folder.entries) && !(Listed(e) && MayGo(e.name, policy)) :: e in folder.entries
    ensures forall e | e in old(folder.entries) && Listed(e) && MayGo(e.name, policy) && TooOld(e, policy, now) ::
              e !in folder.entries || e.name in stuck
    ensures stuck == {} ==>
              FolderBytes(folder.entries) <= Limit(policy)
              || forall e | e in folder.entries :: !(Listed(e) && MayGo(e.name, policy))
    ensures result.before.totalBytes == FolderBytes(old(folder.entries))
    ensures result.after.totalBytes == FolderBytes(folder.entries)
  {
    ghost var entries := folder.entries;
    OnlyOwnedNamesGo(entries, policy, now, stuck);
    CleanedFolderFits(entries, policy, now);
    InventoryTellsTheFolder(entries);
    result := folder.Cleanup(policy, false, now, stuck);
    assert folder.entries == Cleaned(entries, policy, now, stuck);
    InventoryTellsTheFolder(folder.entries);
    forall e | e in entries && !(Listed(e) && MayGo(e.name, policy)) ensures e in folder.entries {
      assert !Gone(e, entries, folder.entries);
    }
    forall e | e in entries && Listed(e) && MayGo(e.name, policy) && TooOld(e, policy, now)
      ensures e !in folder.entries || e.name in stuck
    {
      assert Gone(e, entries, folder.entries) || e.name in stuck;
    }
  }
}
