/** The artifact folder and its two-phase cleanup (lib/files.ts). */
module ArtifactFiles {
  import opened Options
  import opened StableSorting

  datatype Kind = Browser | Generated | Attachment | Other

  /** A listed file; `updated` is its modification time in milliseconds. */
  datatype File = File(name: string, kind: Kind, size: nat, updated: int)

  datatype Stat = Stat(regular: bool, size: nat, mtime: int)

  /** A directory entry; `stat` is absent when the entry cannot be read. */
  datatype DirEntry = DirEntry(name: string, stat: Option<Stat>)

  datatype Policy = Policy(retentionDays: int, maxTotalMb: int, includeBrowser: bool, includeGenerated: bool)

  datatype Inventory = Inventory(
    files: seq<File>, totalFiles: nat, totalBytes: nat, browserBytes: nat, generatedBytes: nat)

  datatype CleanupResult = CleanupResult(
    deleted: seq<File>, deletedCount: nat, deletedBytes: nat, dryRun: bool, before: Inventory, after: Inventory)

  const DAY_MS: int := 86_400_000
  const MEBIBYTE: int := 1024 * 1024

  // ---------- Names ----------

  predicate SafeChar(c: char) {
    'A' <= c <= 'Z' || 'a' <= c <= 'z' || '0' <= c <= '9' || c == '.' || c == '_' || c == '-'
  }

  predicate IsSafeFileName(name: string) {
    && name != ""
    && (forall c | c in name :: SafeChar(c))
    && (forall i | 0 <= i < |name| - 1 :: !(name[i] == '.' && name[i + 1] == '.'))
  }

  predicate StartsWith(name: string, prefix: string) { prefix <= name }

  function Classify(name: string): Kind {
    if StartsWith(name, "browser-") || StartsWith(name, "browser-extract-") then Browser
    else if StartsWith(name, "generated-") || StartsWith(name, "voice-")
         || StartsWith(name, "image-") || StartsWith(name, "img-") then Generated
    else if StartsWith(name, "attachment-") then Attachment
    else Other
  }

  predicate IsManaged(file: File, policy: Policy) {
    (file.kind.Browser? && policy.includeBrowser) || (file.kind.Generated? && policy.includeGenerated)
  }

  // ---------- Listing ----------

  function Readable(e: DirEntry): bool {
    IsSafeFileName(e.name) && e.stat.Some? && e.stat.value.regular
  }

  function Info(e: DirEntry): File
    requires Readable(e)
  {
    File(e.name, Classify(e.name), e.stat.value.size, e.stat.value.mtime)
  }

  function Files(entries: seq<DirEntry>): seq<File> {
    if entries == [] then []
    else (if Readable(entries[0]) then [Info(entries[0])] else []) + Files(entries[1..])
  }

  function Oldest(f: File): Key { Finite(f.updated) }

  function Newest(f: File): Key { Finite(-f.updated) }

  function Bytes(files: seq<File>): nat { if files == [] then 0 else files[0].size + Bytes(files[1..]) }

  function OfKind(files: seq<File>, kind: Kind): seq<File> {
    if files == [] then []
    else if files[0].kind == kind then [files[0]] + OfKind(files[1..], kind)
    else OfKind(files[1..], kind)
  }

  function Summarize(files: seq<File>): Inventory {
    Inventory(files, |files|, Bytes(files), Bytes(OfKind(files, Browser)), Bytes(OfKind(files, Generated)))
  }

  function Listing(entries: seq<DirEntry>): Inventory { Summarize(Sort(Files(entries), Newest)) }

  // ---------- The plan ----------

  function Max(a: int, b: int): int { if a >= b then a else b }

  function Cutoff(policy: Policy, now: int): int { now - Max(1, policy.retentionDays) * DAY_MS }

  function Cap(policy: Policy): int { Max(1, policy.maxTotalMb) * MEBIBYTE }

  function Managed(files: seq<File>, policy: Policy): seq<File> {
    if files == [] then []
    else if IsManaged(files[0], policy) then [files[0]] + Managed(files[1..], policy)
    else Managed(files[1..], policy)
  }

  function Expired(files: seq<File>, cutoff: int): seq<File> {
    if files == [] then []
    else if files[0].updated < cutoff then [files[0]] + Expired(files[1..], cutoff)
    else Expired(files[1..], cutoff)
  }

  function Names(files: seq<File>): set<string> { set f | f in files :: f.name }

  function Except(files: seq<File>, names: set<string>): seq<File> {
    if files == [] then []
    else if files[0].name in names then Except(files[1..], names)
    else [files[0]] + Except(files[1..], names)
  }

  /** The prefix that is evicted until the retained bytes fit. */
  function Evicted(oldestFirst: seq<File>, retained: int, cap: int): (r: seq<File>)
    ensures r <= oldestFirst
  {
    if oldestFirst == [] || retained <= cap then []
    else [oldestFirst[0]] + Evicted(oldestFirst[1..], retained - oldestFirst[0].size, cap)
  }

  function Aged(files: seq<File>, policy: Policy, now: int): seq<File> {
    Expired(Managed(files, policy), Cutoff(policy, now))
  }

  function Candidates(files: seq<File>, policy: Policy, now: int): seq<File> {
    Sort(Except(Managed(files, policy), Names(Aged(files, policy, now))), Oldest)
  }

  function Oversize(files: seq<File>, policy: Policy, now: int): seq<File> {
    Evicted(Candidates(files, policy, now), Bytes(files) - Bytes(Aged(files, policy, now)), Cap(policy))
  }

  /** Everything to delete: the expired files, then the oldest others while the cap is exceeded. */
  function Plan(files: seq<File>, policy: Policy, now: int): seq<File> {
    Aged(files, policy, now) + Oversize(files, policy, now)
  }

  /** The folder after deleting `deleted`, where the names in `stuck` resist. */
  function Unlinked(entries: seq<DirEntry>, deleted: set<string>, stuck: set<string>): seq<DirEntry> {
    if entries == [] then []
    else if entries[0].name in deleted && entries[0].name !in stuck then Unlinked(entries[1..], deleted, stuck)
    else [entries[0]] + Unlinked(entries[1..], deleted, stuck)
  }

  ghost predicate DistinctEntries(entries: seq<DirEntry>) {
    forall i, j :: 0 <= i < j < |entries| ==> entries[i].name != entries[j].name
  }

  /** The artifact folder. */
  class Folder {
    var entries: seq<DirEntry>

    constructor (entries: seq<DirEntry>)
      ensures this.entries == entries
    {
      this.entries := entries;
    }

    method List() returns (inventory: Inventory)
      ensures inventory == Listing(entries)
    {
      var files: seq<File> := [];
      for i := 0 to |entries|
        invariant files + Files(entries[i..]) == Files(entries)
      {
        FilesFrom(entries, i, files);
        if Readable(entries[i]) { files := files + [Info(entries[i])]; }
      }
      assert entries[|entries|..] == [] && files + [] == files;
      inventory := Summarize(Sort(files, Newest));
    }

    method Unlink(name: string, stuck: set<string>)
      modifies this
      ensures entries == Unlinked(old(entries), {name}, stuck)
    {
      entries := Unlinked(entries, {name}, stuck);
    }

    /** The unlink loop of cleanupArtifactFiles. */
    method UnlinkAll(deleted: seq<File>, stuck: set<string>)
      modifies this
      ensures entries == Unlinked(old(entries), Names(deleted), stuck)
    {
      UnlinkTwice(entries, {}, {}, stuck);
      assert Names(deleted[..0]) == {};
      for k := 0 to |deleted|
        invariant entries == Unlinked(old(entries), Names(deleted[..k]), stuck)
      {
        assert deleted[..k + 1] == deleted[..k] + [deleted[k]];
        assert Names(deleted[..k + 1]) == Names(deleted[..k]) + {deleted[k].name};
        UnlinkTwice(old(entries), Names(deleted[..k]), {deleted[k].name}, stuck);
        Unlink(deleted[k].name, stuck);
      }
      assert deleted[..|deleted|] == deleted;
    }

    /** cleanupArtifactFiles. `stuck` are the files whose unlink fails. */
    method Cleanup(policy: Policy, dryRun: bool, now: int, stuck: set<string>) returns (result: CleanupResult)
      modifies this
      ensures var before := Listing(old(entries));
              var deleted := Sort(Plan(before.files, policy, now), Oldest);
              && entries == (if dryRun then old(entries) else Unlinked(old(entries), Names(deleted), stuck))
              && result == CleanupResult(deleted, |deleted|, Bytes(deleted), dryRun, before,
                                         if dryRun then before else Listing(entries))
    {
      var before := List();
      var toDelete := PlanDeletions(before, policy, now);
      var deleted := Sort(toDelete, Oldest);
      var after := before;
      if !dryRun {
        UnlinkAll(deleted, stuck);
        after := List();
      }
      result := CleanupResult(deleted, |deleted|, Bytes(deleted), dryRun, before, after);
    }
  }

  lemma FilesFrom(entries: seq<DirEntry>, i: nat, files: seq<File>)
    requires i < |entries|
    ensures files + Files(entries[i..]) ==
            (if Readable(entries[i]) then files + [Info(entries[i])] else files) + Files(entries[i + 1..])
  {
    var rest := Files(entries[i + 1..]);
    assert entries[i..][1..] == entries[i + 1..];
    assert Files(entries[i..]) == (if Readable(entries[i]) then [Info(entries[i])] else []) + rest;
    if Readable(entries[i]) { assert files + ([Info(entries[i])] + rest) == files + [Info(entries[i])] + rest; }
  }

  /** The first half of cleanupArtifactFiles: which files go, in the order of the Map. */
  method PlanDeletions(before: Inventory, policy: Policy, now: int) returns (toDelete: seq<File>)
    requires before.totalBytes == Bytes(before.files)
    ensures toDelete == Plan(before.files, policy, now)
  {
    var cap := Cap(policy);
    var eligible := Managed(before.files, policy);
    toDelete := CollectExpired(eligible, Cutoff(policy, now));
    var retainedBytes: int := before.totalBytes - Bytes(toDelete);
    if retainedBytes > cap {
      var oldestFirst := Sort(Except(eligible, Names(toDelete)), Oldest);
      var evicted := EvictOldest(oldestFirst, retainedBytes, cap);
      toDelete := toDelete + evicted;
    } else {
      assert Oversize(before.files, policy, now) == [];
    }
  }

  /** The age loop. */
  method CollectExpired(eligible: seq<File>, cutoff: int) returns (expired: seq<File>)
    ensures expired == Expired(eligible, cutoff)
  {
    expired := [];
    for i := 0 to |eligible|
      invariant expired + Expired(eligible[i..], cutoff) == Expired(eligible, cutoff)
    {
      assert eligible[i..][1..] == eligible[i + 1..];
      if eligible[i].updated < cutoff { expired := expired + [eligible[i]]; }
    }
    assert eligible[|eligible|..] == [] && expired + [] == expired;
  }

  lemma EvictedFrom(oldestFirst: seq<File>, i: nat, evicted: seq<File>, retained: int, cap: int)
    requires i < |oldestFirst| && retained > cap
    ensures evicted + Evicted(oldestFirst[i..], retained, cap)
         == (evicted + [oldestFirst[i]]) + Evicted(oldestFirst[i + 1..], retained - oldestFirst[i].size, cap)
  {
    var rest := Evicted(oldestFirst[i + 1..], retained - oldestFirst[i].size, cap);
    assert oldestFirst[i..][1..] == oldestFirst[i + 1..];
    assert Evicted(oldestFirst[i..], retained, cap) == [oldestFirst[i]] + rest;
    assert evicted + ([oldestFirst[i]] + rest) == (evicted + [oldestFirst[i]]) + rest;
  }

  /** The size loop. */
  method EvictOldest(oldestFirst: seq<File>, total: int, cap: int) returns (evicted: seq<File>)
    ensures evicted == Evicted(oldestFirst, total, cap)
  {
    evicted := [];
    var retained := total;
    var i := 0;
    assert oldestFirst[0..] == oldestFirst;
    assert [] + Evicted(oldestFirst, total, cap) == Evicted(oldestFirst, total, cap);
    while i < |oldestFirst| && retained > cap
      invariant 0 <= i <= |oldestFirst|
      invariant evicted + Evicted(oldestFirst[i..], retained, cap) == Evicted(oldestFirst, total, cap)
    {
      EvictedFrom(oldestFirst, i, evicted, retained, cap);
      evicted := evicted + [oldestFirst[i]];
      retained := retained - oldestFirst[i].size;
      i := i + 1;
    }
    assert Evicted(oldestFirst[i..], retained, cap) == [] && evicted + [] == evicted;
  }

  lemma {:induction false} UnlinkTwice(entries: seq<DirEntry>, a: set<string>, b: set<string>, stuck: set<string>)
    ensures Unlinked(Unlinked(entries, a, stuck), b, stuck) == Unlinked(entries, a + b, stuck)
    ensures Unlinked(entries, {}, stuck) == entries
  {
    if entries != [] { UnlinkTwice(entries[1..], a, b, stuck); }
  }
}
