/**
 Applying the files of an accepted feed (`openvibes-vulns/src/feedimport.rs`, `check_file` of
 `feedfmt.rs`, and the rules of `record_file` and `mark_stale` in
 `platform-store/src/feeds.rs`). NVD keeps only what advisories and installed products
 name, so a changed advisory must make NVD files count as changed; this module says
 exactly when that need is kept.
 */
module FeedImport {
  import opened Basics

  type Sha = Bytes

  /** What a forgotten hash is replaced with. */
  const FORGOTTEN: Sha := [0, 0, 0, 0, 0, 0, 0, 0, 0, 0, 0, 0, 0, 0, 0, 0,
                           0, 0, 0, 0, 0, 0, 0, 0, 0, 0, 0, 0, 0, 0, 0, 0]

  datatype Kind = Repomd | Updateinfo | Osv | Kev | Epss | Euvd | Nvd

  /** The format's largest size per kind. */
  function MaxSize(kind: Kind): nat {
    match kind
    case Repomd => 1_048_576
    case Updateinfo => 268_435_456
    case Osv => 8_589_934_592
    case Kev | Euvd => 67_108_864
    case Epss => 134_217_728
    case Nvd => 536_870_912
  }

  /** The limits in mebibytes. */
  lemma SizesAre(kind: Kind)
    ensures MaxSize(kind) == 1024 * 1024 * (if kind == Repomd then 1 else if kind == Updateinfo then 256
                                            else if kind == Osv then 8 * 1024 else if kind == Epss then 128
                                            else if kind == Nvd then 512 else 64)
  {
  }

  datatype FileId = FileId(source: string, kind: Kind, name: string)

  datatype FileEntry = FileEntry(id: FileId, sha: Sha, size: nat, fetchedAt: int)

  datatype AppliedFile = AppliedFile(sha: Sha, fetchedAt: int)

  // ---- one file's checks ------------------------------------------------------------------

  datatype FileRefusal = TooLarge | SizeMismatch | HashMismatch | OlderThanApplied

  /** A blob against its entry: the first check that fails. */
  function CheckFile(entry: FileEntry, length: nat, sha: Sha, appliedAt: Option<int>, limit: nat): Option<FileRefusal> {
    if entry.size > limit || length > limit then Some(TooLarge)
    else if length != entry.size then Some(SizeMismatch)
    else if sha != entry.sha then Some(HashMismatch)
    else if appliedAt.Some? && entry.fetchedAt < appliedAt.value then Some(OlderThanApplied)
    else None
  }

  // ---- importing ----------------------------------------------------------------------------

  datatype Outcome = Applied | Unchanged | Refused | Skipped

  /** How an importer leaves a file; one that fails may have stored part of it before. */
  datatype Progress = Done | Skip | Fails(partly: bool)

  predicate IsAdvisory(kind: Kind) {
    kind.Updateinfo? || kind.Osv?
  }

  /** One manifest's worth of work: its entries, the blobs at hand and how each importer fares. */
  datatype Feed = Feed(entries: seq<FileEntry>, blobs: map<Sha, Bytes>, importer: FileEntry -> Progress,
                       selected: string -> bool)

  /** NVD files go last. */
  function Ordered(entries: seq<FileEntry>): seq<FileEntry> {
    Select(entries, false) + Select(entries, true)
  }

  function Select(entries: seq<FileEntry>, nvd: bool): (r: seq<FileEntry>)
    ensures forall e :: e in r <==> e in entries && (e.id.kind.Nvd? <==> nvd)
  {
    if entries == [] then []
    else
      assert entries == [entries[0]] + entries[1..];
      if entries[0].id.kind.Nvd? == nvd then [entries[0]] + Select(entries[1..], nvd) else Select(entries[1..], nvd)
  }

  predicate HasNvd(entries: seq<FileEntry>) {
    exists i :: 0 <= i < |entries| && entries[i].id.kind.Nvd?
  }

  /**
   The tables an import writes. `needs` counts what made NVD's files due again: advisories stored,
   whether or not their file was recorded, and products newly installed. `readAt` is the count an
   NVD file was last read at. Both only record history.
   */
  datatype Tables = Tables(files: map<FileId, AppliedFile>, needs: nat, readAt: map<FileId, nat>)

  const NOTHING := Tables(map[], 0, map[])

  function Lookup(files: map<FileId, AppliedFile>, id: FileId): Option<AppliedFile> {
    if id in files then Some(files[id]) else None
  }

  /** An NVD file whose hash is known, so that it counts as unchanged until it changes. */
  predicate Remembered(t: Tables, id: FileId) {
    id in t.files && id.kind.Nvd? && t.files[id].sha != FORGOTTEN
  }

  /** An NVD file that is due but counts as unchanged. */
  predicate Stale(t: Tables, id: FileId) {
    Remembered(t, id) && !(id in t.readAt && t.readAt[id] == t.needs)
  }

  /** Every NVD file recorded as applied was read after the latest need, or its hash is forgotten. */
  ghost predicate NvdCurrent(t: Tables) {
    forall id :: !Stale(t, id)
  }

  /** No file was read at a count that is still to come. */
  ghost predicate Counted(t: Tables) {
    forall id :: id in t.readAt ==> t.readAt[id] <= t.needs
  }

  /** A file recorded as applied: an advisory makes NVD due again, an NVD file has now been read. */
  ghost function Recorded(t: Tables, entry: FileEntry): Tables {
    Tables(
      t.files[entry.id := AppliedFile(entry.sha, entry.fetchedAt)],
      if IsAdvisory(entry.id.kind) then t.needs + 1 else t.needs,
      if entry.id.kind.Nvd? then t.readAt[entry.id := t.needs] else t.readAt)
  }

  function Forget(files: map<FileId, AppliedFile>): map<FileId, AppliedFile> {
    map id | id in files :: if id.kind.Nvd? then files[id].(sha := FORGOTTEN) else files[id]
  }

  /** `previous` is what a newer file is compared with. */
  function AppliedAt(files: map<FileId, AppliedFile>, id: FileId): Option<int> {
    if id in files then Some(files[id].fetchedAt) else None
  }

  /** A file gets to its importer exactly when it is whole, not older, and not the one applied before. */
  predicate Imports(files: map<FileId, AppliedFile>, entry: FileEntry, feed: Feed, hash: Bytes -> Sha) {
    && entry.sha in feed.blobs
    && CheckFile(entry, |feed.blobs[entry.sha]|, hash(feed.blobs[entry.sha]), AppliedAt(files, entry.id),
                 MaxSize(entry.id.kind)) == None
    && (entry.id in files ==> files[entry.id].sha != entry.sha)
  }

  /** A file is imported and recorded exactly when it gets to its importer, and that is done. */
  predicate Applies(files: map<FileId, AppliedFile>, entry: FileEntry, feed: Feed, hash: Bytes -> Sha) {
    Imports(files, entry, feed, hash) && feed.importer(entry).Done?
  }

  /** A file that was asked for and applies. */
  predicate Takes(files: map<FileId, AppliedFile>, entry: FileEntry, feed: Feed, hash: Bytes -> Sha) {
    feed.selected(entry.id.source) && Applies(files, entry, feed, hash)
  }

  /** A file with advisories that was asked for and gets to its importer, which stores some of them. */
  predicate Begins(files: map<FileId, AppliedFile>, entry: FileEntry, feed: Feed, hash: Bytes -> Sha) {
    && feed.selected(entry.id.source) && IsAdvisory(entry.id.kind) && Imports(files, entry, feed, hash)
    && (feed.importer(entry).Done? || feed.importer(entry) == Fails(true))
  }

  /** Its importer stores some of the advisories and then fails. */
  predicate PartlyStored(files: map<FileId, AppliedFile>, entry: FileEntry, feed: Feed, hash: Bytes -> Sha) {
    Begins(files, entry, feed, hash) && feed.importer(entry) == Fails(true)
  }

  /** No file twice, as the rules of a manifest demand. */
  predicate DistinctIds(entries: seq<FileEntry>) {
    forall i, j :: 0 <= i < j < |entries| ==> entries[i].id != entries[j].id
  }

  // ---- the import as a protocol ---------------------------------------------------------------

  /** Something made NVD due and its hashes are as they were. */
  ghost function Due(t: Tables): Tables {
    t.(needs := t.needs + 1)
  }

  /** One file; once it is recorded NVD's hashes are forgotten, if it has advisories and the feed NVD files. */
  ghost function EntryStep(t: Tables, entry: FileEntry, feed: Feed, hash: Bytes -> Sha): Tables {
    if PartlyStored(t.files, entry, feed, hash) then Due(t)
    else if !Takes(t.files, entry, feed, hash) then t
    else
      var r := Recorded(t, entry);
      if HasNvd(feed.entries) && IsAdvisory(entry.id.kind) then r.(files := Forget(r.files)) else r
  }

  /** A product newly installed makes NVD due, and its hashes are forgotten, if the feed has NVD files. */
  ghost function Begun(t: Tables, feed: Feed, newProducts: bool): Tables {
    if HasNvd(feed.entries) && newProducts then t.(files := Forget(t.files), needs := t.needs + 1) else t
  }

  /** The tables once `n` files are through. */
  ghost function Through(t: Tables, feed: Feed, newProducts: bool, n: nat, hash: Bytes -> Sha): Tables
    requires n <= |Ordered(feed.entries)|
  {
    if n == 0 then Begun(t, feed, newProducts)
    else EntryStep(Through(t, feed, newProducts, n - 1, hash), Ordered(feed.entries)[n - 1], feed, hash)
  }

  /**
   Where an import ends: with new products stored and nothing forgotten, after some files, with a file's
   advisories stored and the file not recorded, or with it recorded and nothing forgotten.
   */
  datatype End = BeforeFiles | AfterFiles(n: nat) | BeforeRecording(n: nat) | BeforeForgetting(n: nat)

  datatype Event = Import(feed: Feed, newProducts: bool, end: End)

  /** How many files were through. */
  function Files(end: End): nat {
    if end.BeforeFiles? then 0 else end.n
  }

  ghost predicate Legal(t: Tables, e: Event, hash: Bytes -> Sha) {
    var n, ordered := Files(e.end), Ordered(e.feed.entries);
    && DistinctIds(e.feed.entries)
    && n <= |ordered|
    && (e.end.BeforeFiles? ==> HasNvd(e.feed.entries) && e.newProducts)
    && (e.end.BeforeRecording? ==>
          n < |ordered| && Begins(Through(t, e.feed, e.newProducts, n, hash).files, ordered[n], e.feed, hash))
    && (e.end.BeforeForgetting? ==>
          && n < |ordered| && HasNvd(e.feed.entries) && IsAdvisory(ordered[n].id.kind)
          && Takes(Through(t, e.feed, e.newProducts, n, hash).files, ordered[n], e.feed, hash))
  }

  ghost function Step(t: Tables, e: Event, hash: Bytes -> Sha): Tables
    requires Legal(t, e, hash)
  {
    match e.end
    case BeforeFiles => Due(t)
    case AfterFiles(n) => Through(t, e.feed, e.newProducts, n, hash)
    case BeforeRecording(n) => Due(Through(t, e.feed, e.newProducts, n, hash))
    case BeforeForgetting(n) => Recorded(Through(t, e.feed, e.newProducts, n, hash), Ordered(e.feed.entries)[n])
  }

  ghost predicate IsRun(t: Tables, events: seq<Event>, hash: Bytes -> Sha)
    decreases |events|
  {
    events == [] || (Legal(t, events[0], hash) && IsRun(Step(t, events[0], hash), events[1..], hash))
  }

  ghost function After(t: Tables, events: seq<Event>, hash: Bytes -> Sha): Tables
    requires IsRun(t, events, hash)
    decreases |events|
  {
    if events == [] then t else After(Step(t, events[0], hash), events[1..], hash)
  }

  /** No recorded file is lost, and none goes back in time. */
  ghost predicate Newer(before: map<FileId, AppliedFile>, after: map<FileId, AppliedFile>) {
    forall id :: id in before ==> id in after && before[id].fetchedAt <= after[id].fetchedAt
  }

  // ---- what one file changes ----------------------------------------------------------------------

  lemma AppliesLooksAtItsFile(a: map<FileId, AppliedFile>, b: map<FileId, AppliedFile>, entry: FileEntry, feed: Feed,
                              hash: Bytes -> Sha)
    requires Lookup(a, entry.id) == Lookup(b, entry.id)
    ensures Takes(a, entry, feed, hash) == Takes(b, entry, feed, hash)
    ensures PartlyStored(a, entry, feed, hash) == PartlyStored(b, entry, feed, hash)
  {
    assert entry.id in a <==> entry.id in b;
  }

  lemma ForgetLookups(files: map<FileId, AppliedFile>)
    ensures forall id: FileId :: !id.kind.Nvd? ==> Lookup(Forget(files), id) == Lookup(files, id)
    ensures Newer(files, Forget(files))
  {
  }

  lemma RecordingLookups(t: Tables, entry: FileEntry)
    ensures forall id :: Lookup(Recorded(t, entry).files, id) ==
                         if id == entry.id then Some(AppliedFile(entry.sha, entry.fetchedAt)) else Lookup(t.files, id)
  {
  }

  lemma RecordingKeepsCounted(t: Tables, entry: FileEntry)
    requires Counted(t)
    ensures Counted(Recorded(t, entry))
    ensures IsAdvisory(entry.id.kind) ==> forall id :: Stale(Recorded(t, entry), id) <==> Remembered(t, id)
    ensures !IsAdvisory(entry.id.kind) ==> forall id ::
              Stale(Recorded(t, entry), id) <==> Stale(t, id) && id != entry.id
  {
  }

  lemma NothingRememberedIsStale(t: Tables)
    ensures forall id :: !Remembered(t.(files := Forget(t.files)), id)
  {
  }

  lemma NewNeedKeepsCounted(t: Tables)
    requires Counted(t)
    ensures Counted(Due(t)) && forall id :: Stale(Due(t), id) <==> Remembered(t, id)
  {
  }

  /** Which NVD files are stale after one file, exactly. */
  lemma EntryLeavesStale(t: Tables, entry: FileEntry, feed: Feed, hash: Bytes -> Sha)
    requires Counted(t)
    ensures Counted(EntryStep(t, entry, feed, hash))
    ensures forall id :: Stale(EntryStep(t, entry, feed, hash), id) <==>
              if PartlyStored(t.files, entry, feed, hash) then Remembered(t, id)
              else if !Takes(t.files, entry, feed, hash) then Stale(t, id)
              else if IsAdvisory(entry.id.kind) then !HasNvd(feed.entries) && Remembered(t, id)
              else Stale(t, id) && id != entry.id
  {
    hide Takes, PartlyStored, Recorded, Forget, Stale, Remembered, HasNvd, Due;
    RecordingKeepsCounted(t, entry);
    NewNeedKeepsCounted(t);
    NothingRememberedIsStale(Recorded(t, entry));
    RememberedFirst(Recorded(t, entry).(files := Forget(Recorded(t, entry).files)));
  }

  lemma NotBoth(files: map<FileId, AppliedFile>, entry: FileEntry, feed: Feed, hash: Bytes -> Sha)
    ensures !(Takes(files, entry, feed, hash) && PartlyStored(files, entry, feed, hash))
    ensures PartlyStored(files, entry, feed, hash) ==> IsAdvisory(entry.id.kind)
  {
  }

  lemma RememberedFirst(t: Tables)
    ensures forall id :: Stale(t, id) ==> Remembered(t, id)
  {
  }

  /** What one file changes of what is looked up. */
  lemma EntryLookups(t: Tables, entry: FileEntry, feed: Feed, hash: Bytes -> Sha)
    ensures var after := EntryStep(t, entry, feed, hash).files;
            && (forall id: FileId :: !id.kind.Nvd? && id != entry.id ==> Lookup(after, id) == Lookup(t.files, id))
            && (!(HasNvd(feed.entries) && Takes(t.files, entry, feed, hash) && IsAdvisory(entry.id.kind)) ==>
                  forall id :: id != entry.id ==> Lookup(after, id) == Lookup(t.files, id))
            && (!entry.id.kind.Nvd? ==>
                  Lookup(after, entry.id) == if Takes(t.files, entry, feed, hash)
                    then Some(AppliedFile(entry.sha, entry.fetchedAt))
                                             else Lookup(t.files, entry.id))
  {
    hide Takes, PartlyStored, Lookup, Recorded, Forget, HasNvd;
    NotBoth(t.files, entry, feed, hash);
    RecordingLookups(t, entry);
    ForgetLookups(Recorded(t, entry).files);
  }

  // ---- what an import leaves -----------------------------------------------------------------------

  lemma {:induction false} SelectKeepsDistinct(entries: seq<FileEntry>, nvd: bool)
    requires DistinctIds(entries)
    ensures DistinctIds(Select(entries, nvd))
  {
    if entries != [] {
      var rest := entries[1..];
      assert forall i :: 0 <= i < |rest| ==> rest[i] == entries[i + 1];
      SelectKeepsDistinct(rest, nvd);
      var tail := Select(rest, nvd);
      forall j | 0 <= j < |tail| ensures tail[j].id != entries[0].id {
        assert tail[j] in rest;
        var k :| 0 <= k < |rest| && rest[k] == tail[j];
        assert entries[0].id != entries[k + 1].id;
      }
    }
  }

  lemma OrderedIsDistinct(entries: seq<FileEntry>)
    requires DistinctIds(entries)
    ensures DistinctIds(Ordered(entries)) && forall e :: e in Ordered(entries) <==> e in entries
  {
    var a, b := Select(entries, false), Select(entries, true);
    SelectKeepsDistinct(entries, false);
    SelectKeepsDistinct(entries, true);
    forall i, j | 0 <= i < |a| && 0 <= j < |b| ensures a[i].id != b[j].id { assert a[i] in a && b[j] in b; }
  }

  /** An advisory among the first `n` files applies. */
  ghost predicate AdvisoryApplies(t: Tables, feed: Feed, n: nat, hash: Bytes -> Sha)
    requires n <= |Ordered(feed.entries)|
  {
    exists i :: 0 <= i < n && IsAdvisory(Ordered(feed.entries)[i].id.kind)
      && Takes(t.files, Ordered(feed.entries)[i], feed, hash)
  }

  /** Advisories of one of the first `n` files were stored, whether or not the file was recorded. */
  ghost predicate NeedRises(t: Tables, feed: Feed, n: nat, hash: Bytes -> Sha)
    requires n <= |Ordered(feed.entries)|
  {
    AdvisoryApplies(t, feed, n, hash)
    || exists i :: 0 <= i < n && PartlyStored(t.files, Ordered(feed.entries)[i], feed, hash)
  }

  /** The file `id` is among the first `n` and applies. */
  ghost predicate FileApplies(t: Tables, feed: Feed, n: nat, id: FileId, hash: Bytes -> Sha)
    requires n <= |Ordered(feed.entries)|
  {
    exists i :: 0 <= i < n && Ordered(feed.entries)[i].id == id && Takes(t.files, Ordered(feed.entries)[i], feed, hash)
  }

  /** NVD's hashes have been forgotten within the first `n` files. */
  ghost predicate Forgets(t: Tables, feed: Feed, newProducts: bool, n: nat, hash: Bytes -> Sha)
    requires n <= |Ordered(feed.entries)|
  {
    HasNvd(feed.entries) && (newProducts || AdvisoryApplies(t, feed, n, hash))
  }

  /** Files not among the first `n` are as they were; NVD's only if nothing was forgotten. */
  ghost predicate OthersAsBefore(t: Tables, feed: Feed, newProducts: bool, n: nat, hash: Bytes -> Sha)
    requires n <= |Ordered(feed.entries)|
  {
    forall id: FileId ::
      (!id.kind.Nvd? || !Forgets(t, feed, newProducts, n, hash)) &&
      (forall i :: 0 <= i < n ==> Ordered(feed.entries)[i].id != id) ==>
        Lookup(Through(t, feed, newProducts, n, hash).files, id) == Lookup(t.files, id)
  }

  lemma AppliesLater(t: Tables, feed: Feed, n: nat, hash: Bytes -> Sha)
    requires n < |Ordered(feed.entries)|
    ensures var entry := Ordered(feed.entries)[n];
            && (AdvisoryApplies(t, feed, n + 1, hash) <==>
                AdvisoryApplies(t, feed, n, hash) || (IsAdvisory(entry.id.kind) && Takes(t.files, entry, feed, hash)))
            && (NeedRises(t, feed, n + 1, hash) <==>
                NeedRises(t, feed, n, hash) || PartlyStored(t.files, entry, feed, hash)
                  || (IsAdvisory(entry.id.kind) && Takes(t.files, entry, feed, hash)))
            && forall id :: FileApplies(t, feed, n + 1, id, hash) <==>
                            FileApplies(t, feed, n, id, hash) || (entry.id == id && Takes(t.files, entry, feed, hash))
  {
    hide Takes, PartlyStored, Ordered;
    var ordered := Ordered(feed.entries);
    if AdvisoryApplies(t, feed, n, hash) {
      var i :| 0 <= i < n && IsAdvisory(ordered[i].id.kind) && Takes(t.files, ordered[i], feed, hash);
      assert 0 <= i < n + 1;
    }
    forall id ensures FileApplies(t, feed, n + 1, id, hash) <==>
                      FileApplies(t, feed, n, id, hash) || (ordered[n].id == id
                        && Takes(t.files, ordered[n], feed, hash)) {
      if FileApplies(t, feed, n, id, hash) {
        var i :| 0 <= i < n && ordered[i].id == id && Takes(t.files, ordered[i], feed, hash);
        assert 0 <= i < n + 1;
      }
    }
  }

  /** Unless NVD's hashes were forgotten meanwhile, a file applies exactly when it did before the import. */
  lemma SameAnswer(t: Tables, feed: Feed, newProducts: bool, n: nat, hash: Bytes -> Sha)
    requires n < |Ordered(feed.entries)| && DistinctIds(Ordered(feed.entries))
             && OthersAsBefore(t, feed, newProducts, n, hash)
    ensures var entry := Ordered(feed.entries)[n];
            !entry.id.kind.Nvd? || !Forgets(t, feed, newProducts, n, hash) ==>
              var files := Through(t, feed, newProducts, n, hash).files;
              && Takes(files, entry, feed, hash) == Takes(t.files, entry, feed, hash)
              && PartlyStored(files, entry, feed, hash) == PartlyStored(t.files, entry, feed, hash)
  {
    hide Takes, PartlyStored, Ordered, Through, Forgets, Lookup;
    var entry := Ordered(feed.entries)[n];
    if !entry.id.kind.Nvd? || !Forgets(t, feed, newProducts, n, hash) {
      assert Lookup(Through(t, feed, newProducts, n, hash).files, entry.id) == Lookup(t.files, entry.id);
      AppliesLooksAtItsFile(Through(t, feed, newProducts, n, hash).files, t.files, entry, feed, hash);
    }
  }

  lemma {:induction false} ThroughKeepsOthers(t: Tables, feed: Feed, newProducts: bool, n: nat, hash: Bytes -> Sha)
    requires n <= |Ordered(feed.entries)| && DistinctIds(Ordered(feed.entries))
    ensures OthersAsBefore(t, feed, newProducts, n, hash)
  {
    hide Takes, Ordered, EntryStep, Lookup, Forget, HasNvd, AdvisoryApplies, FileApplies;
    if n == 0 {
      ForgetLookups(t.files);
    } else {
      var entry, before := Ordered(feed.entries)[n - 1], Through(t, feed, newProducts, n - 1, hash);
      ThroughKeepsOthers(t, feed, newProducts, n - 1, hash);
      SameAnswer(t, feed, newProducts, n - 1, hash);
      AppliesLater(t, feed, n - 1, hash);
      EntryLookups(before, entry, feed, hash);
      forall id: FileId |
        (!id.kind.Nvd? || !Forgets(t, feed, newProducts, n, hash))
          && (forall i :: 0 <= i < n ==> Ordered(feed.entries)[i].id != id)
        ensures Lookup(Through(t, feed, newProducts, n, hash).files, id) == Lookup(t.files, id)
      {
        assert id != entry.id;
        assert Lookup(before.files, id) == Lookup(t.files, id);
      }
    }
  }

  lemma SameRemembered(a: Tables, b: Tables, id: FileId)
    requires Lookup(a.files, id) == Lookup(b.files, id)
    ensures Remembered(a, id) == Remembered(b, id)
  {
    assert id in a.files <==> id in b.files;
  }

  lemma NoNvdAmong(feed: Feed, i: nat)
    requires i < |Ordered(feed.entries)| && !HasNvd(feed.entries)
    ensures !Ordered(feed.entries)[i].id.kind.Nvd?
  {
    var entry := Ordered(feed.entries)[i];
    assert entry in Ordered(feed.entries);
    assert entry in feed.entries;
  }

  /** Which NVD files are stale once `n` files are through, from what the tables held before. */
  ghost predicate StaleAfter(t: Tables, feed: Feed, newProducts: bool, n: nat, id: FileId, hash: Bytes -> Sha)
    requires n <= |Ordered(feed.entries)|
  {
    && (if NeedRises(t, feed, n, hash) then Remembered(t, id) else Stale(t, id))
    && !Forgets(t, feed, newProducts, n, hash) && !FileApplies(t, feed, n, id, hash)
  }

  ghost predicate StaleIsKnown(t: Tables, feed: Feed, newProducts: bool, n: nat, hash: Bytes -> Sha)
    requires n <= |Ordered(feed.entries)|
  {
    && Counted(Through(t, feed, newProducts, n, hash))
    && forall id :: Stale(Through(t, feed, newProducts, n, hash), id) <==>
                    StaleAfter(t, feed, newProducts, n, id, hash)
  }

  lemma {:induction false} ThroughLeavesStale(t: Tables, feed: Feed, newProducts: bool, n: nat, hash: Bytes -> Sha)
    requires n <= |Ordered(feed.entries)| && DistinctIds(Ordered(feed.entries)) && Counted(t)
    ensures StaleIsKnown(t, feed, newProducts, n, hash)
  {
    hide Takes, PartlyStored, Ordered, EntryStep, Lookup, Forget, HasNvd, Stale, Remembered, AdvisoryApplies,
      FileApplies, NeedRises, OthersAsBefore;
    if n == 0 {
      NothingApplied(t, feed, hash);
      BeginningLeavesStale(t);
    } else {
      ThroughLeavesStale(t, feed, newProducts, n - 1, hash);
      OneFileLeavesStale(t, feed, newProducts, n - 1, hash);
    }
  }

  /** The induction step: what one more file makes of the stale ones. */
  lemma OneFileLeavesStale(t: Tables, feed: Feed, newProducts: bool, n: nat, hash: Bytes -> Sha)
    requires n < |Ordered(feed.entries)| && DistinctIds(Ordered(feed.entries))
             && StaleIsKnown(t, feed, newProducts, n, hash)
    ensures StaleIsKnown(t, feed, newProducts, n + 1, hash)
  {
    hide Takes, PartlyStored, Ordered, EntryStep, Lookup, Forget, HasNvd, Stale, Remembered, AdvisoryApplies,
      FileApplies, NeedRises, OthersAsBefore;
    var entry, before := Ordered(feed.entries)[n], Through(t, feed, newProducts, n, hash);
    EntryLeavesStale(before, entry, feed, hash);
    NotBoth(before.files, entry, feed, hash);
    NotBoth(t.files, entry, feed, hash);
    AppliesLater(t, feed, n, hash);
    ThroughKeepsOthers(t, feed, newProducts, n, hash);
    SameAnswer(t, feed, newProducts, n, hash);
    RememberedFirst(t);
    var after := Through(t, feed, newProducts, n + 1, hash);
    assert after == EntryStep(before, entry, feed, hash);
    if !entry.id.kind.Nvd? { RememberedSoFar(t, feed, newProducts, n, hash); }
    assert Forgets(t, feed, newProducts, n, hash) ==> Forgets(t, feed, newProducts, n + 1, hash);
    forall id ensures Stale(after, id) <==> StaleAfter(t, feed, newProducts, n + 1, id, hash) {
      assert Stale(before, id) <==> StaleAfter(t, feed, newProducts, n, id, hash);
    }
  }

  /** Before the first NVD file, what is remembered is what was, or nothing once it was forgotten. */
  lemma RememberedSoFar(t: Tables, feed: Feed, newProducts: bool, n: nat, hash: Bytes -> Sha)
    requires n < |Ordered(feed.entries)| && DistinctIds(Ordered(feed.entries))
             && !Ordered(feed.entries)[n].id.kind.Nvd?
    ensures forall id :: Remembered(Through(t, feed, newProducts, n, hash), id) <==>
                         Remembered(t, id) && !Forgets(t, feed, newProducts, n, hash)
    ensures forall id :: Remembered(t, id) ==>
              id != Ordered(feed.entries)[n].id && !FileApplies(t, feed, n, id, hash)
  {
    hide Ordered, Through, Forgets, OthersAsBefore, Takes;
    NvdLast(feed.entries, n);
    ThroughKeepsOthers(t, feed, newProducts, n, hash);
    forall id ensures Remembered(Through(t, feed, newProducts, n, hash), id) <==>
                      Remembered(t, id) && !Forgets(t, feed, newProducts, n, hash)
    {
      if Forgets(t, feed, newProducts, n, hash) {
        ForgottenStays(t, feed, newProducts, n, hash);
      } else {
        RememberedThrough(t, feed, newProducts, n, id, hash);
      }
    }
  }

  lemma NothingApplied(t: Tables, feed: Feed, hash: Bytes -> Sha)
    ensures !AdvisoryApplies(t, feed, 0, hash) && !NeedRises(t, feed, 0, hash)
    ensures forall id :: !FileApplies(t, feed, 0, id, hash)
  {
  }

  lemma BeginningLeavesStale(t: Tables)
    requires Counted(t)
    ensures var forgot := t.(files := Forget(t.files), needs := t.needs + 1);
            Counted(forgot) && forall id :: !Stale(forgot, id)
  {
  }

  /** Files that are not NVD's come first. */
  lemma NvdLast(entries: seq<FileEntry>, n: nat)
    requires n < |Ordered(entries)| && !Ordered(entries)[n].id.kind.Nvd?
    ensures forall i :: 0 <= i <= n ==> !Ordered(entries)[i].id.kind.Nvd?
  {
    var a, b := Select(entries, false), Select(entries, true);
    forall i | 0 <= i < |a| ensures !a[i].id.kind.Nvd? { assert a[i] in a; }
    forall i | 0 <= i < |b| ensures b[i].id.kind.Nvd? { assert b[i] in b; }
  }

  lemma RecordingRemembers(t: Tables, entry: FileEntry)
    requires !entry.id.kind.Nvd?
    ensures forall id :: Remembered(Recorded(t, entry), id) <==> Remembered(t, id)
    ensures forall id :: Remembered(Due(t), id) <==> Remembered(t, id)
  {
  }

  /** Once forgotten, nothing is remembered until an NVD file is read. */
  lemma {:induction false} ForgottenStays(t: Tables, feed: Feed, newProducts: bool, n: nat, hash: Bytes -> Sha)
    requires n <= |Ordered(feed.entries)| && DistinctIds(Ordered(feed.entries))
             && Forgets(t, feed, newProducts, n, hash)
    requires forall i :: 0 <= i < n ==> !Ordered(feed.entries)[i].id.kind.Nvd?
    ensures forall id :: !Remembered(Through(t, feed, newProducts, n, hash), id)
  {
    hide Takes, PartlyStored, Ordered, Forget, HasNvd, Remembered, AdvisoryApplies, Recorded, Due, OthersAsBefore;
    if n == 0 {
      NothingApplied(t, feed, hash);
      NothingRememberedIsStale(t.(needs := t.needs + 1));
    } else {
      var entry, before := Ordered(feed.entries)[n - 1], Through(t, feed, newProducts, n - 1, hash);
      AppliesLater(t, feed, n - 1, hash);
      RecordingRemembers(before, entry);
      NotBoth(before.files, entry, feed, hash);
      NothingRememberedIsStale(Recorded(before, entry));
      if Forgets(t, feed, newProducts, n - 1, hash) {
        ForgottenStays(t, feed, newProducts, n - 1, hash);
      } else {
        ThroughKeepsOthers(t, feed, newProducts, n - 1, hash);
        SameAnswer(t, feed, newProducts, n - 1, hash);
      }
    }
  }

  /**
   Exactly which NVD files are stale after an import, wherever it ended. With NVD files in the feed a
   stale file comes right if a product was new, an advisory file applied or the file itself did. What
   makes every remembered file stale: advisories in a feed without NVD files, advisories of a file that
   failed half-way or was not recorded, and a stop between storing products or recording a file and
   forgetting.
   */
  lemma ImportLeavesStale(t: Tables, e: Event, id: FileId, hash: Bytes -> Sha)
    requires Counted(t) && Legal(t, e, hash)
    ensures Counted(Step(t, e, hash))
    ensures Stale(Step(t, e, hash), id) <==>
            if e.end.BeforeFiles? then Remembered(t, id)
            else if e.end.AfterFiles? then StaleAfter(t, e.feed, e.newProducts, e.end.n, id, hash)
            else Remembered(t, id) && !Forgets(t, e.feed, e.newProducts, e.end.n, hash)
  {
    hide Begins, Takes, Ordered, Stale, Remembered, AdvisoryApplies, HasNvd, Recorded, Through, Due, StaleAfter,
      Forgets, Counted;
    var n := Files(e.end);
    OrderedIsDistinct(e.feed.entries);
    NewNeedKeepsCounted(t);
    ThroughLeavesStale(t, e.feed, e.newProducts, n, hash);
    if e.end.BeforeRecording? || e.end.BeforeForgetting? {
      var entry, t' := Ordered(e.feed.entries)[n], Through(t, e.feed, e.newProducts, n, hash);
      BeginsWithAdvisory(t'.files, entry, e.feed, hash);
      NewNeedKeepsCounted(t');
      RecordingKeepsCounted(t', entry);
      RememberedSoFar(t, e.feed, e.newProducts, n, hash);
    }
  }

  lemma BeginsWithAdvisory(files: map<FileId, AppliedFile>, entry: FileEntry, feed: Feed, hash: Bytes -> Sha)
    ensures Begins(files, entry, feed, hash) ==> IsAdvisory(entry.id.kind)
  {
  }

  lemma RememberedThrough(t: Tables, feed: Feed, newProducts: bool, n: nat, id: FileId, hash: Bytes -> Sha)
    requires n <= |Ordered(feed.entries)| && OthersAsBefore(t, feed, newProducts, n, hash)
             && !Forgets(t, feed, newProducts, n, hash)
    requires forall i :: 0 <= i < n ==> !Ordered(feed.entries)[i].id.kind.Nvd?
    ensures Remembered(Through(t, feed, newProducts, n, hash), id) <==> Remembered(t, id)
  {
    hide Ordered, Through, Lookup, Forgets;
    if id.kind.Nvd? { SameRemembered(Through(t, feed, newProducts, n, hash), t, id); }
  }

  lemma {:induction false} RunKeepsCounted(t: Tables, events: seq<Event>, hash: Bytes -> Sha)
    requires Counted(t) && IsRun(t, events, hash)
    ensures Counted(After(t, events, hash))
    decreases |events|
  {
    hide Counted, Legal, Step;
    if events != [] {
      ImportLeavesStale(t, events[0], FileId("", Nvd, ""), hash);
      RunKeepsCounted(Step(t, events[0], hash), events[1..], hash);
    }
  }

  // ---- a need that is lost ------------------------------------------------------------------------------

  /** When a stale file comes right in an import that has NVD files and was not cut off within a file. */
  lemma LostNeedComesBack(t: Tables, e: Event, id: FileId, hash: Bytes -> Sha)
    requires Counted(t) && Legal(t, e, hash) && Stale(t, id) && HasNvd(e.feed.entries) && e.end.AfterFiles?
    ensures !Stale(Step(t, e, hash), id) <==>
            e.newProducts || AdvisoryApplies(t, e.feed, e.end.n, hash) || FileApplies(t, e.feed, e.end.n, id, hash)
  {
    hide Stale, Legal, Step, HasNvd, AdvisoryApplies, FileApplies, NeedRises;
    ImportLeavesStale(t, e, id, hash);
    RememberedFirst(t);
  }

  /**
   An import that forgets nothing and has `id` only with the hash it is remembered with. It may store
   advisories, if it has no NVD files or ends before they are recorded.
   */
  ghost predicate Quiet(t: Tables, e: Event, id: FileId, hash: Bytes -> Sha) {
    && Legal(t, e, hash)
    && (e.end.BeforeFiles? || !Forgets(t, e.feed, e.newProducts, e.end.n, hash))
    && id in t.files && forall entry :: entry in e.feed.entries && entry.id == id ==> entry.sha == t.files[id].sha
  }

  ghost predicate QuietRun(t: Tables, events: seq<Event>, id: FileId, hash: Bytes -> Sha)
    decreases |events|
  {
    events == [] || (Quiet(t, events[0], id, hash) && QuietRun(Step(t, events[0], hash), events[1..], id, hash))
  }

  lemma QuietStays(t: Tables, e: Event, id: FileId, hash: Bytes -> Sha)
    requires Counted(t) && Quiet(t, e, id, hash) && Stale(t, id)
    ensures Stale(Step(t, e, hash), id) && Counted(Step(t, e, hash))
  {
    hide Through, Forgets, NeedRises, HasNvd, Ordered;
    ImportLeavesStale(t, e, id, hash);
    RememberedFirst(t);
    forall i | 0 <= i < Files(e.end) && Ordered(e.feed.entries)[i].id == id
      ensures !Takes(t.files, Ordered(e.feed.entries)[i], e.feed, hash) {
      OrderedIsDistinct(e.feed.entries);
      assert Ordered(e.feed.entries)[i] in Ordered(e.feed.entries);
    }
  }

  /** A stale file is never read again, however many such imports follow. */
  lemma {:induction false} NeverReadAgain(t: Tables, events: seq<Event>, id: FileId, hash: Bytes -> Sha)
    requires Counted(t) && Stale(t, id) && QuietRun(t, events, id, hash)
    ensures IsRun(t, events, hash) && Stale(After(t, events, hash), id)
    decreases |events|
  {
    hide Counted, Stale, Step, Legal;
    if events != [] {
      QuietStays(t, events[0], id, hash);
      NeverReadAgain(Step(t, events[0], hash), events[1..], id, hash);
    }
  }

  const NVD_FILE := FileId("nvd", Nvd, "nvd-2024.json.gz")
  const ADVISORIES := FileId("fedora", Updateinfo, "updateinfo.xml")

  /** A feed of empty files; the importer of advisories fares as said, the others without trouble. */
  function EmptyFiles(ids: seq<FileId>, progress: Progress, hash: Bytes -> Sha): Feed {
    Feed(seq(|ids|, i requires 0 <= i < |ids| => FileEntry(ids[i], hash([]), 0, 1)), map[hash([]) := []],
         (entry: FileEntry) => if IsAdvisory(entry.id.kind) then progress else Done, (source: string) => true)
  }

  lemma EmptyFileApplies(t: Tables, ids: seq<FileId>, progress: Progress, i: nat, hash: Bytes -> Sha)
    requires i < |ids| && ids[i] !in t.files
    ensures var feed := EmptyFiles(ids, progress, hash);
            && (Takes(t.files, feed.entries[i], feed, hash) <==> !IsAdvisory(ids[i].kind) || progress == Done)
            && (Begins(t.files, feed.entries[i], feed, hash) <==>
                IsAdvisory(ids[i].kind) && (progress == Done || progress == Fails(true)))
            && (PartlyStored(t.files, feed.entries[i], feed, hash) <==>
                IsAdvisory(ids[i].kind) && progress == Fails(true))
  {
  }

  lemma SelectOne(entry: FileEntry, nvd: bool)
    ensures Select([entry], nvd) == if entry.id.kind.Nvd? == nvd then [entry] else []
  {
    assert [entry][1..] == [] && Select([], nvd) == [];
  }

  lemma OrderedOne(entry: FileEntry)
    ensures Ordered([entry]) == [entry]
  {
    SelectOne(entry, false);
    SelectOne(entry, true);
  }

  lemma SelectTwo(a: FileEntry, b: FileEntry, nvd: bool)
    requires !a.id.kind.Nvd? && b.id.kind.Nvd?
    ensures Select([a, b], nvd) == if nvd then [b] else [a]
  {
    assert [a, b][1..] == [b];
    SelectOne(b, nvd);
  }

  lemma OrderedTwo(a: FileEntry, b: FileEntry)
    requires !a.id.kind.Nvd? && b.id.kind.Nvd?
    ensures Ordered([a, b]) == [a, b]
  {
    hide Select;
    SelectTwo(a, b, false);
    SelectTwo(a, b, true);
  }

  /** After one import of an NVD file the tables remember it as read. */
  lemma FirstImport(hash: Bytes -> Sha) returns (e: Event)
    ensures Legal(NOTHING, e, hash)
    ensures Step(NOTHING, e, hash) == Tables(map[NVD_FILE := AppliedFile(hash([]), 1)], 0, map[NVD_FILE := 0])
  {
    hide Takes, PartlyStored, HasNvd, Ordered;
    var feed := EmptyFiles([NVD_FILE], Done, hash);
    var entry := FileEntry(NVD_FILE, hash([]), 0, 1);
    assert feed.entries == [entry];
    e := Import(feed, false, AfterFiles(1));
    OrderedOne(entry);
    EmptyFileApplies(NOTHING, [NVD_FILE], Done, 0, hash);
    NotBoth(NOTHING.files, entry, feed, hash);
    assert Through(NOTHING, feed, false, 0, hash) == NOTHING;
    assert Through(NOTHING, feed, false, 1, hash) == EntryStep(NOTHING, entry, feed, hash);
    assert NOTHING.files[NVD_FILE := AppliedFile(hash([]), 1)] == map[NVD_FILE := AppliedFile(hash([]), 1)];
  }

  /** How the second of two imports loses a need. */
  datatype Way = WithoutNvd | StopsAtProducts | StopsInFile | FailsInFile | StopsAfterFile

  /**
   Two imports from empty tables lose a need: an NVD file, and then a new product cut off before
   forgetting, or advisories in a feed without NVD files, cut off in or after their file, or in a file
   that fails half-way. The NVD file is stale from then on.
   */
  lemma NeedIsLost(way: Way, hash: Bytes -> Sha) returns (events: seq<Event>)
    requires hash([]) != FORGOTTEN
    ensures IsRun(NOTHING, events, hash) && Counted(After(NOTHING, events, hash))
            && Stale(After(NOTHING, events, hash), NVD_FILE)
    ensures |events| == 2 && match way
            case WithoutNvd => !HasNvd(events[1].feed.entries) && events[1].end == AfterFiles(1)
            case StopsAtProducts => HasNvd(events[1].feed.entries) && events[1].end.BeforeFiles?
            case StopsInFile => HasNvd(events[1].feed.entries) && events[1].end == BeforeRecording(0)
            case FailsInFile => HasNvd(events[1].feed.entries) && events[1].end == AfterFiles(1)
            case StopsAfterFile => HasNvd(events[1].feed.entries) && events[1].end == BeforeForgetting(0)
  {
    hide Legal, Step, Stale, Counted, HasNvd;
    var first := FirstImport(hash);
    var t := Step(NOTHING, first, hash);
    var second := SecondImport(t, way, hash);
    var end := Step(t, second, hash);
    events := [first, second];
    assert events[1..] == [second] && [second][1..] == [];
    assert IsRun(end, [], hash) && After(end, [], hash) == end;
    assert IsRun(t, [second], hash) && After(t, [second], hash) == end;
  }

  function EndOf(way: Way): End {
    match way
    case WithoutNvd | FailsInFile => AfterFiles(1)
    case StopsAtProducts => BeforeFiles
    case StopsInFile => BeforeRecording(0)
    case StopsAfterFile => BeforeForgetting(0)
  }

  lemma SecondImport(t: Tables, way: Way, hash: Bytes -> Sha) returns (e: Event)
    requires t == Tables(map[NVD_FILE := AppliedFile(hash([]), 1)], 0, map[NVD_FILE := 0]) && hash([]) != FORGOTTEN
    ensures Legal(t, e, hash) && Counted(Step(t, e, hash)) && Stale(Step(t, e, hash), NVD_FILE)
    ensures e.end == EndOf(way) && (HasNvd(e.feed.entries) <==> !way.WithoutNvd?)
  {
    hide Takes, Begins, PartlyStored, Ordered, Through, HasNvd, FileApplies, AdvisoryApplies, NeedRises,
      EmptyFiles, Stale, Remembered;
    var ids := if way.WithoutNvd? then [ADVISORIES] else [ADVISORIES, NVD_FILE];
    var progress := if way.FailsInFile? then Fails(true) else Done;
    var feed := EmptyFiles(ids, progress, hash);
    WhichHasNvd(way, feed, hash);
    assert ids[0] == ADVISORIES && ADVISORIES.kind == Updateinfo && NVD_FILE.kind == Nvd;
    EmptyFileApplies(t, ids, progress, 0, hash);
    StartsWith(t, feed, hash);
    e := Import(feed, way.StopsAtProducts?, EndOf(way));
    assert Remembered(t, NVD_FILE) && Counted(t) by { IsRemembered(t, hash([])); }
    ImportLeavesStale(t, e, NVD_FILE, hash);
    NothingApplied(t, feed, hash);
    AppliesLater(t, feed, 0, hash);
    assert !FileApplies(t, feed, 0, NVD_FILE, hash);
  }

  lemma IsRemembered(t: Tables, sha: Sha)
    requires t == Tables(map[NVD_FILE := AppliedFile(sha, 1)], 0, map[NVD_FILE := 0]) && sha != FORGOTTEN
    ensures Remembered(t, NVD_FILE) && Counted(t)
  {
  }

  lemma StartsWith(t: Tables, feed: Feed, hash: Bytes -> Sha)
    ensures Through(t, feed, false, 0, hash) == t
  {
  }

  lemma WhichHasNvd(way: Way, feed: Feed, hash: Bytes -> Sha)
    requires feed == EmptyFiles(if way.WithoutNvd? then [ADVISORIES] else [ADVISORIES, NVD_FILE],
                                if way.FailsInFile? then Fails(true) else Done, hash)
    ensures (HasNvd(feed.entries) <==> !way.WithoutNvd?) && DistinctIds(feed.entries)
    ensures feed.entries != [] && feed.entries[0].id == ADVISORIES
    ensures Ordered(feed.entries) != [] && Ordered(feed.entries)[0] == feed.entries[0]
  {
    var advisory, nvd := FileEntry(ADVISORIES, hash([]), 0, 1), FileEntry(NVD_FILE, hash([]), 0, 1);
    if way.WithoutNvd? {
      assert feed.entries == [advisory];
      OrderedOne(advisory);
    } else {
      assert feed.entries == [advisory, nvd];
      OrderedTwo(advisory, nvd);
      assert feed.entries[1].id.kind.Nvd?;
    }
  }

  // ---- what an import records --------------------------------------------------------------------------

  /** What an import leaves of a file: the entry if it applied, otherwise what was there. */
  ghost predicate Handled(before: map<FileId, AppliedFile>, after: map<FileId, AppliedFile>, entry: FileEntry,
                          feed: Feed, hash: Bytes -> Sha) {
    Lookup(after, entry.id) ==
    if Takes(before, entry, feed, hash) then Some(AppliedFile(entry.sha, entry.fetchedAt)) else Lookup(before, entry.id)
  }

  /** NVD's files are as they were. */
  ghost predicate SameNvd(before: map<FileId, AppliedFile>, after: map<FileId, AppliedFile>) {
    forall id: FileId :: id.kind.Nvd? ==> Lookup(after, id) == Lookup(before, id)
  }

  lemma {:induction false} ThroughHandles(t: Tables, feed: Feed, newProducts: bool, n: nat, i: nat, hash: Bytes -> Sha)
    requires i < n <= |Ordered(feed.entries)| && DistinctIds(Ordered(feed.entries))
             && !Ordered(feed.entries)[i].id.kind.Nvd?
    ensures Handled(t.files, Through(t, feed, newProducts, n, hash).files, Ordered(feed.entries)[i], feed, hash)
  {
    hide Takes, Ordered, Lookup, EntryStep, HasNvd, AdvisoryApplies;
    var entry, before := Ordered(feed.entries)[n - 1], Through(t, feed, newProducts, n - 1, hash);
    EntryLookups(before, entry, feed, hash);
    if i == n - 1 {
      ThroughKeepsOthers(t, feed, newProducts, n - 1, hash);
      SameAnswer(t, feed, newProducts, n - 1, hash);
      assert Lookup(before.files, entry.id) == Lookup(t.files, entry.id);
    } else {
      ThroughHandles(t, feed, newProducts, n - 1, i, hash);
    }
  }

  lemma EntryIsNewer(t: Tables, entry: FileEntry, feed: Feed, hash: Bytes -> Sha)
    ensures Newer(t.files, EntryStep(t, entry, feed, hash).files)
  {
    ForgetLookups(Recorded(t, entry).files);
  }

  lemma {:induction false} ThroughIsNewer(t: Tables, feed: Feed, newProducts: bool, n: nat, hash: Bytes -> Sha)
    requires n <= |Ordered(feed.entries)|
    ensures Newer(t.files, Through(t, feed, newProducts, n, hash).files)
  {
    hide EntryStep, Ordered, Forget, HasNvd;
    if n == 0 {
      ForgetLookups(t.files);
    } else {
      ThroughIsNewer(t, feed, newProducts, n - 1, hash);
      EntryIsNewer(Through(t, feed, newProducts, n - 1, hash), Ordered(feed.entries)[n - 1], feed, hash);
    }
  }

  /** What every import does, wherever it ends. */
  lemma ImportRecords(t: Tables, e: Event, hash: Bytes -> Sha)
    requires Legal(t, e, hash)
    ensures Newer(t.files, Step(t, e, hash).files)
    ensures e.end == AfterFiles(|Ordered(e.feed.entries)|) ==>
              forall entry :: entry in e.feed.entries && !entry.id.kind.Nvd? ==>
                Handled(t.files, Step(t, e, hash).files, entry, e.feed, hash)
    ensures !HasNvd(e.feed.entries) ==> SameNvd(t.files, Step(t, e, hash).files)
  {
    hide Takes, Ordered, Through, EntryStep, Forget, Recorded, Lookup, Newer, Handled;
    var n, ordered := Files(e.end), Ordered(e.feed.entries);
    OrderedIsDistinct(e.feed.entries);
    ThroughIsNewer(t, e.feed, e.newProducts, n, hash);
    ThroughKeepsOthers(t, e.feed, e.newProducts, n, hash);
    NewerItself(t.files);
    if e.end.BeforeForgetting? {
      CutIsNewer(t.files, Through(t, e.feed, e.newProducts, n, hash), ordered[n], e.feed, hash);
    }
    if n == |ordered| {
      forall entry | entry in e.feed.entries && !entry.id.kind.Nvd?
        ensures Handled(t.files, Through(t, e.feed, e.newProducts, n, hash).files, entry, e.feed, hash)
      {
        assert entry in ordered;
        var i :| 0 <= i < |ordered| && ordered[i] == entry;
        ThroughHandles(t, e.feed, e.newProducts, n, i, hash);
      }
    }
    if !HasNvd(e.feed.entries) {
      forall i | 0 <= i < n ensures !ordered[i].id.kind.Nvd? { NoNvdAmong(e.feed, i); }
    }
  }

  lemma NewerItself(files: map<FileId, AppliedFile>)
    ensures Newer(files, files)
  {
  }

  lemma CutIsNewer(before: map<FileId, AppliedFile>, t: Tables, entry: FileEntry, feed: Feed, hash: Bytes -> Sha)
    requires Newer(before, t.files) && Takes(t.files, entry, feed, hash)
    ensures Newer(before, Recorded(t, entry).files)
  {
  }

  // ---- the importer's own code ----------------------------------------------------------------

  class Database {
    const hash: Bytes -> Sha
    var files: map<FileId, AppliedFile>
    ghost var needs: nat
    ghost var readAt: map<FileId, nat>

    ghost function View(): Tables
      reads this
    {
      Tables(files, needs, readAt)
    }

    ghost predicate Valid()
      reads this
    {
      Counted(View())
    }

    constructor (h: Bytes -> Sha)
      ensures hash == h && View() == NOTHING && Valid()
    {
      hash := h;
      files := map[];
      needs, readAt := 0, map[];
    }

    /** Forgets the hashes of all NVD files. */
    method MarkNvdStale()
      modifies this`files
      ensures View() == old(View()).(files := Forget(old(files))) && NvdCurrent(View())
    {
      files := Forget(files);
    }

    /** `record_file`: an older file changes nothing. */
    method RecordFile(entry: FileEntry) returns (newest: bool)
      modifies this
      ensures newest <==> entry.id !in old(files) || old(files)[entry.id].fetchedAt <= entry.fetchedAt
      ensures View() == if newest then Recorded(old(View()), entry) else old(View())
    {
      newest := entry.id !in files || files[entry.id].fetchedAt <= entry.fetchedAt;
      if newest {
        files := files[entry.id := AppliedFile(entry.sha, entry.fetchedAt)];
        if IsAdvisory(entry.id.kind) {
          needs := needs + 1;
        } else if entry.id.kind.Nvd? {
          readAt := readAt[entry.id := needs];
        }
      }
    }

    /**
     Checks one file, imports it unless it is the one applied before, and records it; `stopped` when
     advisories were stored and the file was not recorded.
     */
    method ApplyFile(entry: FileEntry, feed: Feed) returns (outcome: Outcome, stopped: bool)
      requires feed.selected(entry.id.source)
      modifies this
      ensures outcome == Applied <==> !stopped && Applies(old(files), entry, feed, hash)
      ensures View() ==
              if outcome == Applied then Recorded(old(View()), entry)
              else if stopped || PartlyStored(old(files), entry, feed, hash) then Due(old(View()))
              else old(View())
      ensures outcome == Applied || outcome == Unchanged ==>
                && entry.sha in feed.blobs && hash(feed.blobs[entry.sha]) == entry.sha
                && |feed.blobs[entry.sha]| == entry.size <= MaxSize(entry.id.kind)
                && (entry.id in old(files) ==> old(files)[entry.id].fetchedAt <= entry.fetchedAt)
      ensures outcome == Unchanged ==> entry.id in files && files[entry.id].sha == entry.sha
      ensures stopped ==> Begins(old(files), entry, feed, hash)
    {
      stopped := false;
      if entry.sha !in feed.blobs {
        return Refused, false;
      }
      var content := feed.blobs[entry.sha];
      var refusal := CheckFile(entry, |content|, hash(content), AppliedAt(files, entry.id), MaxSize(entry.id.kind));
      if refusal.Some? {
        return Refused, false;
      }
      if entry.id in files && files[entry.id].sha == entry.sha {
        return Unchanged, false;
      }
      if IsAdvisory(entry.id.kind) && (feed.importer(entry).Done? || feed.importer(entry) == Fails(true)) {
        stopped := *;
        if stopped {
          needs := needs + 1;
          return Refused, true;
        }
      }
      match feed.importer(entry) {
        case Fails(partly) =>
          if partly && IsAdvisory(entry.id.kind) {
            needs := needs + 1;
          }
          return Refused, false;
        case Skip => return Skipped, false;
        case Done =>
          var newest := RecordFile(entry);
          return if newest then Applied else Refused, false;
      }
    }

    /** One selected file, and forgetting NVD's hashes after advisories; `stop` says whether it stopped within. */
    method ApplyEntry(entry: FileEntry, feed: Feed) returns (outcome: Outcome, stop: Stop)
      requires feed.selected(entry.id.source)
      modifies this
      ensures stop.InFile? ==> Begins(old(files), entry, feed, hash) && View() == Due(old(View()))
      ensures stop.AfterFile? ==>
                && Takes(old(files), entry, feed, hash) && HasNvd(feed.entries) && IsAdvisory(entry.id.kind)
                && View() == Recorded(old(View()), entry)
      ensures stop.NotStopped? ==>
                && (outcome == Applied <==> Takes(old(files), entry, feed, hash))
                && View() == EntryStep(old(View()), entry, feed, hash)
    {
      hide Imports, Begins, Recorded, Forget, Due;
      stop := NotStopped;
      NotBoth(files, entry, feed, hash);
      var stopped;
      outcome, stopped := ApplyFile(entry, feed);
      if stopped {
        stop := InFile;
      } else if outcome == Applied && HasNvd(feed.entries) && IsAdvisory(entry.id.kind) {
        var now: bool := *;
        if now {
          stop := AfterFile;
        } else {
          MarkNvdStale();
        }
      }
    }

    /**
     Applies a feed; it may stop between storing new products and forgetting NVD's hashes, after any
     file, within one that has advisories, or between recording it and forgetting. Whatever the tables
     held before: no file's time ever falls, a whole import records every selected file that is not
     NVD's exactly if it applies, and NVD stays current, or becomes so with a new product, unless it
     stops at one of those places or a file fails with part of its advisories stored.
     */
    method Apply(feed: Feed, newProducts: bool) returns (end: End)
      requires Valid() && DistinctIds(feed.entries)
      modifies this
      ensures Valid()
      ensures var e := Import(feed, newProducts, end);
              Legal(old(View()), e, hash) && View() == Step(old(View()), e, hash)
      ensures Newer(old(files), files)
      ensures end == AfterFiles(|feed.entries|) ==>
                forall entry :: entry in feed.entries && !entry.id.kind.Nvd? ==>
                  Handled(old(files), files, entry, feed, hash)
      ensures HasNvd(feed.entries) && end.AfterFiles? && old(NvdCurrent(View())) && NothingFailsPartly(feed) ==>
                NvdCurrent(View())
      ensures HasNvd(feed.entries) && end.AfterFiles? && newProducts ==> NvdCurrent(View())
      ensures !HasNvd(feed.entries) ==> SameNvd(old(files), files)
    {
      hide Counted, Takes, Begins, Forget, Newer, Handled, DistinctIds, Ordered, EntryStep, Recorded, NvdCurrent, Due,
        NothingFailsPartly;
      var ordered := Ordered(feed.entries);
      OrderedIsDistinct(feed.entries);
      SameLength(feed.entries);
      ghost var before := View();
      var stop := NotStopped;
      var done := 0;
      if HasNvd(feed.entries) && newProducts {
        needs := needs + 1;
        assert View() == Due(before) by { DueIs(before); }
        var now: bool := *;
        if now {
          end := BeforeFiles;
          Conclude(before, Import(feed, newProducts, end));
          return;
        }
        MarkNvdStale();
        DueIs(before);
      }
      while done < |ordered| && stop.NotStopped?
        invariant done <= |ordered|
        invariant Legal(before, Import(feed, newProducts, EndAt(done, stop)), hash)
        invariant View() == Step(before, Import(feed, newProducts, EndAt(done, stop)), hash)
        decreases |ordered| - done, stop.NotStopped?
      {
        var entry := ordered[done];
        if feed.selected(entry.id.source) {
          var outcome;
          outcome, stop := ApplyEntry(entry, feed);
        } else {
          SkippedStays(View(), entry, feed);
        }
        if stop.NotStopped? {
          done := done + 1;
          var now: bool := *;
          if now {
            break;
          }
        }
      }
      end := EndAt(done, stop);
      Conclude(before, Import(feed, newProducts, end));
    }

    lemma DueIs(t: Tables)
      ensures Due(t) == t.(needs := t.needs + 1)
    {
    }

    lemma SkippedStays(t: Tables, entry: FileEntry, feed: Feed)
      requires !feed.selected(entry.id.source)
      ensures EntryStep(t, entry, feed, hash) == t
    {
    }

    lemma Conclude(t: Tables, e: Event)
      requires Counted(t) && Legal(t, e, hash)
      ensures var t' := Step(t, e, hash);
              && Counted(t') && Newer(t.files, t'.files)
              && (e.end == AfterFiles(|Ordered(e.feed.entries)|) ==>
                    forall entry :: entry in e.feed.entries && !entry.id.kind.Nvd? ==>
                      Handled(t.files, t'.files, entry, e.feed, hash))
              && (!HasNvd(e.feed.entries) ==> SameNvd(t.files, t'.files))
              && (HasNvd(e.feed.entries) && e.end.AfterFiles? && NvdCurrent(t) && NothingFailsPartly(e.feed) ==>
                    NvdCurrent(t'))
              && (HasNvd(e.feed.entries) && e.end.AfterFiles? && e.newProducts ==> NvdCurrent(t'))
    {
      hide Legal, Step, Stale, HasNvd, Counted, Remembered, AdvisoryApplies, FileApplies, Newer, Handled, SameNvd,
        Ordered, NeedRises, NothingFailsPartly;
      ImportRecords(t, e, hash);
      ImportLeavesStale(t, e, NVD_FILE, hash);
      if e.end.AfterFiles? && NothingFailsPartly(e.feed) { OnlyWholeFiles(t, e, hash); }
      forall id { ImportLeavesStale(t, e, id, hash); }
    }
  }

  /** Where within a file with advisories an import stops. */
  datatype Stop = NotStopped | InFile | AfterFile

  function EndAt(done: nat, stop: Stop): End {
    match stop
    case NotStopped => AfterFiles(done)
    case InFile => BeforeRecording(done)
    case AfterFile => BeforeForgetting(done)
  }

  /** No importer fails with part of a file stored. */
  ghost predicate NothingFailsPartly(feed: Feed) {
    forall entry :: entry in feed.entries ==> feed.importer(entry) != Fails(true)
  }

  lemma OnlyWholeFiles(t: Tables, e: Event, hash: Bytes -> Sha)
    requires Legal(t, e, hash) && e.end.AfterFiles? && NothingFailsPartly(e.feed)
    ensures NeedRises(t, e.feed, e.end.n, hash) <==> AdvisoryApplies(t, e.feed, e.end.n, hash)
  {
    hide AdvisoryApplies, Through, Ordered;
    var ordered := Ordered(e.feed.entries);
    OrderedIsDistinct(e.feed.entries);
    forall i | 0 <= i < e.end.n ensures !PartlyStored(t.files, ordered[i], e.feed, hash) {
      assert ordered[i] in ordered;
    }
  }

  lemma {:induction false} SelectLengths(entries: seq<FileEntry>)
    ensures |Select(entries, false)| + |Select(entries, true)| == |entries|
  {
    if entries != [] { SelectLengths(entries[1..]); }
  }

  lemma SameLength(entries: seq<FileEntry>)
    ensures |Ordered(entries)| == |entries|
  {
    SelectLengths(entries);
  }
}
