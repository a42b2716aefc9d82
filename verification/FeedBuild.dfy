/**
 Building a feed (`openvibes-feed/src/build.rs`): blobs are stored under their hashes, the
 signed `feed.json` is written next, blobs no kept manifest names are removed, and
 `state.json` is written last. The steps are first given as a protocol in which a build may
 stop anywhere; then the builder's own code is shown to take only such steps.
 */
module FeedBuild {
  import opened Basics

  type Sha = Bytes
  type Hash = Bytes -> Sha

  /** `source/kind` of a file. */
  type FileKey = string

  datatype Held = Held(sha: Sha, size: nat, fetchedAt: int)

  type Files = map<FileKey, Held>

  datatype Manifest = Manifest(sequence: nat, createdAt: int, files: Files)

  datatype BuildState = BuildState(sequence: nat, files: Files, previous: set<Sha>)

  const NO_STATE := BuildState(0, map[], {})

  function Shas(files: Files): set<Sha> {
    set key | key in files :: files[key].sha
  }

  /** The sequence rule: above the last recorded build's, and at least the time. */
  function NextSequence(state: BuildState, now: int): nat {
    if now > state.sequence + 1 then now else state.sequence + 1
  }

  // ---- the protocol ---------------------------------------------------------------------

  /** What is on disk; `nvdHeld` are the blobs `nvd-state.json` names. */
  datatype Disk = Disk(blobs: map<Sha, Bytes>, feed: Option<Manifest>, state: Option<BuildState>, nvdHeld: set<Sha>) {
    function Known(): BuildState {
      if state.Some? then state.value else NO_STATE
    }
  }

  datatype Phase = Idle | Gathering(current: Files) | Published(keep: set<Sha>)

  /**
   The disk, where a running build is, every manifest published so far, whether `state.json` was
   written by the build of the last and of the last but one of them, and whether every prune so far
   could read `nvd-state.json`.
   */
  datatype World = World(disk: Disk, phase: Phase, history: seq<Manifest>, recorded: bool, priorRecorded: bool,
                         nvdRead: bool)

  const EMPTY := World(Disk(map[], None, None, {}), Idle, [], false, false, true)

  datatype Event =
    | Begin
    | StoreBlob(bytes: Bytes)
    | Gather(key: FileKey, held: Held)   // a file whose blob is there joins the manifest
    | SaveNvd(shas: set<Sha>)            // each new, or named before
    | Publish(now: int, readable: bool)  // `feed.json` is replaced, and `nvd-state.json` read for the prune
    | Remove(sha: Sha)                   // one step of the prune
    | SaveState                          // `state.json` is replaced
    | Stop                               // the build ends, or is cut off

  predicate Enabled(w: World, e: Event) {
    match e
    case Begin => w.phase.Idle?
    case StoreBlob(_) => w.phase.Gathering?
    case Gather(_, held) => w.phase.Gathering? && held.sha in w.disk.blobs
    case SaveNvd(shas) => w.phase.Gathering? && shas <= w.disk.blobs.Keys + w.disk.nvdHeld
    case Publish(_, _) => w.phase.Gathering?
    case Remove(sha) => w.phase.Published? && sha !in w.phase.keep
    case SaveState => w.phase.Published? && w.disk.feed.Some?
    case Stop => true
  }

  /** What a prune leaves: nothing is kept for NVD when its state cannot be read. */
  function Kept(disk: Disk, files: Files, readable: bool): set<Sha> {
    Shas(files) + disk.Known().previous + if readable then disk.nvdHeld else {}
  }

  function Step(w: World, e: Event, hash: Hash): World
    requires Enabled(w, e)
  {
    match e
    case Begin => w.(phase := Gathering(map[]))
    case StoreBlob(bytes) =>
      if hash(bytes) in w.disk.blobs then w else w.(disk := w.disk.(blobs := w.disk.blobs[hash(bytes) := bytes]))
    case Gather(key, held) => w.(phase := Gathering(w.phase.current[key := held]))
    case SaveNvd(shas) => w.(disk := w.disk.(nvdHeld := shas))
    case Publish(now, readable) =>
      var files := w.phase.current;
      var manifest := Manifest(NextSequence(w.disk.Known(), now), now, files);
      World(w.disk.(feed := Some(manifest)), Published(Kept(w.disk, files, readable)),
            w.history + [manifest], false, w.recorded, w.nvdRead && readable)
    case Remove(sha) => w.(disk := w.disk.(blobs := w.disk.blobs - {sha}))
    case SaveState =>
      var feed := w.disk.feed.value;
      w.(disk := w.disk.(state := Some(BuildState(feed.sequence, feed.files, Shas(feed.files)))),
         phase := Idle, recorded := true)
    case Stop => w.(phase := Idle)
  }

  /** The events can happen one after the other, from an empty tree. */
  ghost predicate Legal(events: seq<Event>, hash: Hash)
    decreases |events|, 0
  {
    events == [] || (Legal(events[..|events| - 1], hash)
        && Enabled(After(events[..|events| - 1], hash), events[|events| - 1]))
  }

  ghost function After(events: seq<Event>, hash: Hash): World
    requires Legal(events, hash)
    decreases |events|, 1
  {
    if events == [] then EMPTY else Step(After(events[..|events| - 1], hash), events[|events| - 1], hash)
  }

  lemma Extend(events: seq<Event>, e: Event, hash: Hash)
    requires Legal(events, hash) && Enabled(After(events, hash), e)
    ensures Legal(events + [e], hash) && After(events + [e], hash) == Step(After(events, hash), e, hash)
  {
    assert (events + [e])[..|events|] == events;
  }

  // ---- what readers rely on -----------------------------------------------------------------

  /** Each of these blobs exists and holds what its name says. */
  predicate Present(blobs: map<Sha, Bytes>, shas: set<Sha>, hash: Hash) {
    forall sha :: sha in shas ==> sha in blobs && hash(blobs[sha]) == sha
  }

  function Prior(w: World): Files {
    if |w.history| < 2 then map[] else w.history[|w.history| - 2].files
  }

  predicate Inv(w: World, hash: Hash) {
    && Present(w.disk.blobs, w.disk.blobs.Keys, hash)
    && w.disk.feed == (if w.history == [] then None else Some(w.history[|w.history| - 1]))
    && (w.disk.feed.Some? ==> Present(w.disk.blobs, Shas(w.disk.feed.value.files), hash))
    && (w.recorded ==> w.disk.feed.Some? && w.disk.state.Some?
                       && w.disk.state.value.sequence == w.disk.feed.value.sequence
                       && w.disk.state.value.previous == Shas(w.disk.feed.value.files))
    && (w.priorRecorded ==> Present(w.disk.blobs, Shas(Prior(w)), hash))
    && (w.phase.Gathering? ==> Present(w.disk.blobs, Shas(w.phase.current), hash))
    && (w.phase.Published? ==> w.disk.feed.Some? && Shas(w.disk.feed.value.files) <= w.phase.keep && !w.recorded
                               && (w.priorRecorded ==> Shas(Prior(w)) <= w.phase.keep)
                               && (w.nvdRead ==> w.disk.nvdHeld <= w.phase.keep))
    && (w.nvdRead ==> Present(w.disk.blobs, w.disk.nvdHeld, hash))
  }

  lemma ShasGrow(files: Files, key: FileKey, held: Held)
    ensures Shas(files[key := held]) <= Shas(files) + {held.sha}
  {
  }

  lemma StepKeepsInv(w: World, e: Event, hash: Hash)
    requires Inv(w, hash) && Enabled(w, e)
    ensures Inv(Step(w, e, hash), hash)
  {
    hide Shas;
    match e
    case Gather(key, held) => ShasGrow(w.phase.current, key, held);
    case Begin => assert Shas(map[]) == {} by { NoShas(); }
    case Publish(now, readable) =>
      var w' := Step(w, e, hash);
      assert w.recorded ==> w'.history[|w'.history| - 2] == w.disk.feed.value;
      if !w.recorded { NoShas(); }
    case _ =>
  }

  lemma NoShas()
    ensures Shas(map[]) == {}
  {
  }

  /**
   At every point of every run, whatever builds were cut off: every blob the `feed.json`
   on disk names is there, intact; so is every blob of the manifest before it, if the build of that
   manifest wrote `state.json`; and so is every blob `nvd-state.json` names, if each prune could read it.
   */
  lemma {:induction false} ReadersFindTheirBlobs(events: seq<Event>, hash: Hash)
    requires Legal(events, hash)
    ensures var w := After(events, hash);
            && Inv(w, hash)
            && (w.disk.feed.Some? ==> Present(w.disk.blobs, Shas(w.disk.feed.value.files), hash))
            && (w.priorRecorded ==> Present(w.disk.blobs, Shas(Prior(w)), hash))
            && (w.nvdRead ==> Present(w.disk.blobs, w.disk.nvdHeld, hash))
  {
    hide Shas, Step, Present;
    if events == [] {
      NothingYet(hash);
    } else {
      var n := |events| - 1;
      ReadersFindTheirBlobs(events[..n], hash);
      StepKeepsInv(After(events[..n], hash), events[n], hash);
      InvMeans(After(events, hash), hash);
    }
  }

  lemma NothingYet(hash: Hash)
    ensures Inv(EMPTY, hash)
  {
  }

  lemma InvMeans(w: World, hash: Hash)
    requires Inv(w, hash)
    ensures w.disk.feed.Some? ==> Present(w.disk.blobs, Shas(w.disk.feed.value.files), hash)
    ensures w.priorRecorded ==> Present(w.disk.blobs, Shas(Prior(w)), hash)
    ensures w.nvdRead ==> Present(w.disk.blobs, w.disk.nvdHeld, hash)
  {
  }

  /**
   Those conditions are needed: while a new manifest is out and the prune runs, a blob can be removed
   exactly when neither the new manifest, nor the `state.json` the build read, nor NVD's state, as far
   as it could be read, names it. If it is one of the manifest before, that build was not recorded; if
   NVD's state names it, that state could not be read.
   */
  lemma PruneTakesTheRest(w: World, now: int, readable: bool, sha: Sha, hash: Hash)
    requires Inv(w, hash) && w.phase.Gathering? && sha in w.disk.blobs
    ensures var w' := Step(w, Publish(now, readable), hash);
            && Prior(w') == (if w.disk.feed.Some? then w.disk.feed.value.files else map[])
            && (Enabled(w', Remove(sha)) <==>
                sha !in Shas(w.phase.current) && sha !in w.disk.Known().previous
                && !(readable && sha in w.disk.nvdHeld))
            && (Enabled(w', Remove(sha)) ==> sha !in Step(w', Remove(sha), hash).disk.blobs)
            && (Enabled(w', Remove(sha)) && sha in Shas(Prior(w')) ==> !w.recorded)
            && (Enabled(w', Remove(sha)) && sha in w.disk.nvdHeld ==> !readable)
  {
    hide Shas;
    NoShas();
  }

  /** A world the protocol can reach. */
  ghost predicate Reachable(w: World, hash: Hash) {
    exists events :: Legal(events, hash) && After(events, hash) == w
  }

  lemma ReachableNext(w: World, e: Event, hash: Hash)
    requires Reachable(w, hash) && Enabled(w, e)
    ensures Reachable(Step(w, e, hash), hash)
  {
    hide Step, Enabled;
    var events :| Legal(events, hash) && After(events, hash) == w;
    Extend(events, e, hash);
  }

  /** A build that publishes one new file and is then cut off. */
  lemma PublishesOne(w: World, bytes: Bytes, now: int, hash: Hash) returns (w': World)
    requires Reachable(w, hash) && w.phase.Idle? && w.disk.state.None? && w.disk.nvdHeld == {} && now > 0
    ensures Reachable(w', hash) && w'.phase == Published({hash(bytes)}) && w'.disk.state.None? && w'.disk.nvdHeld == {}
    ensures w'.history == w.history + [Manifest(now, now, map["kev/kev" := Held(hash(bytes), |bytes|, now)])]
    ensures w'.disk.blobs == if hash(bytes) in w.disk.blobs then w.disk.blobs else w.disk.blobs[hash(bytes) := bytes]
  {
    hide Reachable;
    var held := Held(hash(bytes), |bytes|, now);
    ReachableNext(w, Begin, hash);
    w' := Step(w, Begin, hash);
    ReachableNext(w', StoreBlob(bytes), hash);
    w' := Step(w', StoreBlob(bytes), hash);
    ReachableNext(w', Gather("kev/kev", held), hash);
    w' := Step(w', Gather("kev/kev", held), hash);
    assert w'.phase.current == map["kev/kev" := held];
    OneSha("kev/kev", held);
    assert {held.sha} + {} + {} == {held.sha};
    ReachableNext(w', Publish(now, true), hash);
    w' := Step(w', Publish(now, true), hash);
  }

  lemma OneSha(key: FileKey, held: Held)
    ensures Shas(map[key := held]) == {held.sha}
  {
    assert key in map[key := held];
  }

  lemma NothingReached(hash: Hash)
    ensures Reachable(EMPTY, hash)
  {
    assert Legal([], hash) && After([], hash) == EMPTY;
  }

  /**
   Two builds, the first cut off before `state.json`: the second one's prune takes the blob
   of the manifest that a reader may still hold.
   */
  lemma PreviousBlobIsLost(a: Bytes, b: Bytes, hash: Hash) returns (w: World)
    requires hash(a) != hash(b)
    ensures Reachable(w, hash) && |w.history| == 2 && !Present(w.disk.blobs, Shas(Prior(w)), hash)
  {
    hide Reachable, Step;
    NothingReached(hash);
    w := PublishesOne(EMPTY, a, 1, hash);
    w := Stops(w, hash);
    w := PublishesOne(w, b, 2, hash);
    w := Removes(w, hash(a), hash);
    OneSha("kev/kev", Held(hash(a), |a|, 1));
    assert Prior(w) == map["kev/kev" := Held(hash(a), |a|, 1)];
    assert hash(a) in Shas(Prior(w));
  }

  lemma Stops(w: World, hash: Hash) returns (w': World)
    requires Reachable(w, hash)
    ensures Reachable(w', hash) && w' == w.(phase := Idle)
  {
    ReachableNext(w, Stop, hash);
    w' := Step(w, Stop, hash);
  }

  lemma Removes(w: World, sha: Sha, hash: Hash) returns (w': World)
    requires Reachable(w, hash) && w.phase.Published? && sha !in w.phase.keep
    ensures Reachable(w', hash) && w' == w.(disk := w.disk.(blobs := w.disk.blobs - {sha}))
  {
    ReachableNext(w, Remove(sha), hash);
    w' := Step(w, Remove(sha), hash);
  }

  /**
   A build that reads NVD and publishes, whose prune cannot read `nvd-state.json`: a blob that file
   names is gone.
   */
  lemma NvdBlobIsLost(a: Bytes, hash: Hash) returns (w: World)
    ensures Reachable(w, hash) && !w.nvdRead && hash(a) in w.disk.nvdHeld && hash(a) !in w.disk.blobs
  {
    hide Reachable;
    NothingReached(hash);
    NoShas();
    ReachableNext(EMPTY, Begin, hash);
    w := Step(EMPTY, Begin, hash);
    ReachableNext(w, StoreBlob(a), hash);
    w := Step(w, StoreBlob(a), hash);
    ReachableNext(w, SaveNvd({hash(a)}), hash);
    w := Step(w, SaveNvd({hash(a)}), hash);
    ReachableNext(w, Publish(1, false), hash);
    w := Step(w, Publish(1, false), hash);
    w := Removes(w, hash(a), hash);
  }

  // ---- sequences ------------------------------------------------------------------------------

  predicate Rising(history: seq<Manifest>) {
    forall i, j :: 0 <= i < j < |history| ==> history[i].sequence < history[j].sequence
  }

  /** A publish after a cut-off build happens at a later time than that build's sequence. */
  predicate ClockMoved(w: World, e: Event) {
    e.Publish? && w.history != [] ==> w.recorded || e.now > w.history[|w.history| - 1].sequence
  }

  ghost predicate ClockMovedThroughout(events: seq<Event>, hash: Hash)
    requires Legal(events, hash)
  {
    events == [] ||
    (ClockMovedThroughout(events[..|events| - 1], hash)
        && ClockMoved(After(events[..|events| - 1], hash), events[|events| - 1]))
  }

  /** A build that was not recorded published a sequence above the recorded one. */
  predicate BehindLast(w: World) {
    w.history != [] && !w.recorded ==> w.disk.Known().sequence < w.history[|w.history| - 1].sequence
  }

  lemma StepStaysBehind(w: World, e: Event, hash: Hash)
    requires BehindLast(w) && Enabled(w, e)
    ensures BehindLast(Step(w, e, hash))
  {
    hide Shas;
  }

  lemma {:induction false} RunStaysBehind(events: seq<Event>, hash: Hash)
    requires Legal(events, hash)
    ensures BehindLast(After(events, hash))
  {
    hide Step, BehindLast;
    if events == [] {
      assert BehindLast(EMPTY) by { NothingBehind(); }
    } else {
      RunStaysBehind(events[..|events| - 1], hash);
      StepStaysBehind(After(events[..|events| - 1], hash), events[|events| - 1], hash);
    }
  }

  lemma NothingBehind()
    ensures BehindLast(EMPTY)
  {
  }

  /** One more event keeps the sequences rising exactly when the clock has moved on. */
  lemma StepRises(w: World, e: Event, hash: Hash)
    requires Inv(w, hash) && BehindLast(w) && Enabled(w, e)
    ensures Rising(Step(w, e, hash).history) <==> Rising(w.history) && ClockMoved(w, e)
  {
    hide Shas, Present;
    if e.Publish? {
      var before, after := w.history, Step(w, e, hash).history;
      assert forall i :: 0 <= i < |before| ==> after[i] == before[i];
      if Rising(after) {
        assert forall i, j :: 0 <= i < j < |before| ==> after[i].sequence < after[j].sequence;
        assert before != [] ==> after[|before| - 1].sequence < after[|before|].sequence;
      }
    }
  }

  /**
   Published sequences strictly rise if and only if every publish that follows an unrecorded
   build happens at a later time than that build's sequence.
   */
  lemma {:induction false} SequencesRiseExactly(events: seq<Event>, hash: Hash)
    requires Legal(events, hash)
    ensures Rising(After(events, hash).history) <==> ClockMovedThroughout(events, hash)
  {
    hide Inv, Shas, Step, BehindLast, ClockMoved;
    if events != [] {
      var n := |events| - 1;
      SequencesRiseExactly(events[..n], hash);
      ReadersFindTheirBlobs(events[..n], hash);
      RunStaysBehind(events[..n], hash);
      StepRises(After(events[..n], hash), events[n], hash);
    }
  }

  /** Two builds in one second, the first cut off before `state.json`: both publish the same sequence. */
  lemma SequenceRepeats(a: Bytes, b: Bytes, hash: Hash) returns (w: World)
    ensures Reachable(w, hash) && |w.history| == 2 && w.history[0].sequence == w.history[1].sequence
  {
    hide Reachable, Step;
    NothingReached(hash);
    w := PublishesOne(EMPTY, a, 1, hash);
    w := Stops(w, hash);
    w := PublishesOne(w, b, 1, hash);
  }

  // ---- the builder's own code -------------------------------------------------------------------

  /** What fetching one source gave. */
  datatype Fetch = Fetched(bytes: Bytes, limit: nat) | NotModified | Failed

  datatype Source = Source(key: FileKey, fetch: Fetch)

  /**
   What reading NVD gave: per window the year files its records were merged into, and whether it got
   to the present.
   */
  datatype Nvd = Nvd(windows: seq<map<FileKey, Bytes>>, reaches: bool)

  datatype BuildError = NothingFetched | DoesNotVerify | CannotRead | CannotWrite | Stopped

  ghost function Asked(sources: seq<Source>): set<FileKey> {
    set s | s in sources :: s.key
  }

  predicate SameFile(key: FileKey, before: Files, after: Files) {
    (key in after <==> key in before) && (key in after ==> after[key] == before[key])
  }

  /** The files whose blob is there. */
  function WithBlobs(files: Files, blobs: map<Sha, Bytes>): Files {
    map key | key in files && files[key].sha in blobs :: files[key]
  }

  /** Every file of `after` is one of `before`, or was merged in one of `windows`. */
  ghost predicate ComesFrom(after: Files, before: Files, windows: seq<map<FileKey, Bytes>>, hash: Hash) {
    forall key :: key in after ==>
      || (key in before && after[key] == before[key])
      || exists i :: 0 <= i < |windows| && key in windows[i] && after[key].sha == hash(windows[i][key])
  }

  lemma ComesFromNext(a: Files, b: Files, c: Files, windows: seq<map<FileKey, Bytes>>, i: nat, hash: Hash)
    requires i < |windows| && ComesFrom(b, a, windows[..i], hash) && ComesFrom(c, b, [windows[i]], hash)
    ensures ComesFrom(c, a, windows[..i + 1], hash)
  {
    var some := windows[..i + 1];
    assert forall k :: 0 <= k < i ==> windows[..i][k] == some[k];
    assert some[i] == windows[i] && [windows[i]][0] == windows[i];
    forall key | key in c && !(key in a && c[key] == a[key])
      ensures exists k :: 0 <= k < |some| && key in some[k] && c[key].sha == hash(some[k][key])
    {
      if !(key in b && c[key] == b[key]) {
        assert key in some[i] && c[key].sha == hash(some[i][key]);
      } else {
        var k :| 0 <= k < i && key in windows[..i][k] && b[key].sha == hash(windows[..i][k][key]);
        assert key in some[k] && c[key].sha == hash(some[k][key]);
      }
    }
  }

  lemma ComesFromNothing(files: Files, hash: Hash)
    ensures ComesFrom(files, files, [], hash)
  {
  }

  lemma ComesFromFewer(after: Files, before: Files, windows: seq<map<FileKey, Bytes>>, n: nat, blobs: map<Sha, Bytes>,
                       hash: Hash)
    requires n <= |windows| && ComesFrom(after, before, windows[..n], hash)
    ensures ComesFrom(WithBlobs(after, blobs), before, windows, hash) && ComesFrom(after, before, windows, hash)
  {
    forall key | key in after && !(key in before && after[key] == before[key])
      ensures exists i :: 0 <= i < |windows| && key in windows[i] && after[key].sha == hash(windows[i][key])
    {
      var i :| 0 <= i < n && key in windows[..n][i] && after[key].sha == hash(windows[..n][i][key]);
      assert key in windows[i] && after[key].sha == hash(windows[i][key]);
    }
  }

  /** The output tree of a builder, and the protocol steps taken on it so far. */
  class Tree {
    const hash: Hash
    var blobs: map<Sha, Bytes>
    var feed: Option<Manifest>
    var state: Option<BuildState>
    var nvdYears: Files      // `nvd-state.json`: the year files, and whether a read was ever complete
    var nvdComplete: bool
    ghost var log: seq<Event>

    ghost predicate Valid()
      reads this
    {
      Legal(log, hash) && After(log, hash).disk == View()
    }

    ghost function View(): Disk
      reads this
    {
      Disk(blobs, feed, state, Shas(nvdYears))
    }

    ghost function Phase(): Phase
      reads this
      requires Valid()
    {
      After(log, hash).phase
    }

    function Known(): BuildState
      reads this
    {
      if state.Some? then state.value else NO_STATE
    }

    constructor (h: Hash)
      ensures Valid() && Phase().Idle? && hash == h && log == []
    {
      hash := h;
      blobs, feed, state, nvdYears, nvdComplete := map[], None, None, map[], false;
      log := [];
    }

    ghost method Took(e: Event)
      requires Legal(log, hash) && Enabled(After(log, hash), e)
      requires View() == Step(After(log, hash), e, hash).disk
      modifies this`log
      ensures Valid() && log == old(log) + [e] && Phase() == Step(After(old(log), hash), e, hash).phase
    {
      hide Step, Legal, After;
      Extend(log, e, hash);
      log := log + [e];
    }

    /** Writes bytes as the blob named by their hash. */
    method Store(bytes: Bytes) returns (sha: Sha)
      requires Valid() && Phase().Gathering?
      modifies this`blobs, this`log
      ensures Valid() && Phase() == old(Phase()) && old(log) <= log
      ensures sha == hash(bytes) && blobs == if sha in old(blobs) then old(blobs) else old(blobs)[sha := bytes]
    {
      hide Legal, After;
      sha := hash(bytes);
      if sha !in blobs {
        blobs := blobs[sha := bytes];
      }
      Took(StoreBlob(bytes));
    }

    /** Puts a file whose blob is there into the manifest being gathered. */
    method Take(current: Files, key: FileKey, held: Held) returns (next: Files)
      requires Valid() && Phase() == Gathering(current) && held.sha in blobs
      modifies this`log
      ensures Valid() && Phase() == Gathering(next) && next == current[key := held] && old(log) <= log
    {
      hide Legal, After;
      next := current[key := held];
      Took(Gather(key, held));
    }

    /**
     Fetches one source: the new file, the earlier one when it did not change, or after a
     failure the earlier one if its blob is still there.
     */
    method Collect(source: Source, current: Files, now: int) returns (next: Files, ok: bool)
      requires Valid() && Phase() == Gathering(current)
      modifies this`blobs, this`log
      ensures Valid() && Phase() == Gathering(next) && old(log) <= log && old(blobs.Keys) <= blobs.Keys
      ensures next - {source.key} == current - {source.key}
      ensures ok <==> || (source.fetch.Fetched? && 0 < |source.fetch.bytes| <= source.fetch.limit)
                      || (source.fetch.NotModified? && source.key in Known().files
                        && Known().files[source.key].sha in old(blobs))
      ensures ok ==> source.key in next && next[source.key].fetchedAt == now
      ensures ok && source.fetch.Fetched? ==> next[source.key].sha == hash(source.fetch.bytes)
      ensures ok && source.fetch.NotModified? ==> next[source.key].sha == Known().files[source.key].sha
      ensures !ok && source.key in Known().files && Known().files[source.key].sha in old(blobs) ==>
                source.key in next && next[source.key] == Known().files[source.key]
      ensures !ok && !(source.key in Known().files && Known().files[source.key].sha in old(blobs)) ==> next == current
    {
      hide Legal, After;
      var earlier := if source.key in Known().files && Known().files[source.key].sha in blobs
        then Some(Known().files[source.key]) else None;
      var result: Option<Held> := None;
      match source.fetch {
        case NotModified =>
          if earlier.Some? {
            result := Some(earlier.value.(fetchedAt := now));
          }
        case Fetched(bytes, limit) =>
          if 0 < |bytes| <= limit {
            var sha := Store(bytes);
            result := Some(Held(sha, |bytes|, now));
          }
        case Failed =>
      }
      ok := result.Some?;
      next := current;
      if ok {
        next := Take(next, source.key, result.value);
      } else if earlier.Some? {
        next := Take(next, source.key, earlier.value);
      }
    }

    /**
     Stores the year files a window was merged into. A year whose earlier file is gone, or one
     that cannot be written, ends it with the years before merged in memory.
     */
    method FlushYears(years: Files, merged: map<FileKey, Bytes>, now: int) returns (next: Files, ok: bool, cut: bool)
      requires Valid() && Phase().Gathering?
      modifies this`blobs, this`log
      ensures Valid() && Phase() == old(Phase()) && old(log) <= log && old(blobs.Keys) <= blobs.Keys
      ensures years.Keys <= next.Keys && ComesFrom(next, years, [merged], hash)
      ensures Shas(next) <= blobs.Keys + Shas(years)
      ensures ok ==> !cut && forall key :: key in merged ==> key in next && next[key].sha == hash(merged[key])
      ensures ok ==> forall key :: key in merged && key in years ==> years[key].sha in blobs
    {
      hide Legal, After, ComesFrom, Shas;
      next, ok, cut := years, true, false;
      StartsFrom(years, merged);
      var rest := merged.Keys;
      while rest != {}
        invariant Valid() && Phase() == old(Phase()) && old(log) <= log && old(blobs.Keys) <= blobs.Keys
        invariant rest <= merged.Keys && years.Keys <= next.Keys
        invariant ComesFrom(next, years, [merged], hash)
        invariant Shas(next) <= blobs.Keys + Shas(years)
        invariant forall key :: key in rest && key in next ==> key in years && next[key] == years[key]
        invariant forall key :: key in merged && key !in rest ==> key in next && next[key].sha == hash(merged[key])
        invariant forall key :: key in merged && key !in rest && key in years ==> years[key].sha in blobs
      {
        var key :| key in rest;
        var stop: bool, fails: bool := *, *;
        if stop {
          return next, false, true;
        }
        if fails || (key in next && next[key].sha !in blobs) {
          return next, false, false;
        }
        var sha := Store(merged[key]);
        if !(key in next && next[key].sha == sha) {
          ShasGrow(next, key, Held(sha, |merged[key]|, now));
          OneMoreYear(next, years, merged, key, Held(sha, |merged[key]|, now));
          next := next[key := Held(sha, |merged[key]|, now)];
        }
        rest := rest - {key};
      }
    }

    lemma StartsFrom(years: Files, merged: map<FileKey, Bytes>)
      ensures ComesFrom(years, years, [merged], hash)
    {
    }

    lemma OneMoreYear(next: Files, years: Files, merged: map<FileKey, Bytes>, key: FileKey, held: Held)
      requires ComesFrom(next, years, [merged], hash) && key in merged && held.sha == hash(merged[key])
      ensures ComesFrom(next[key := held], years, [merged], hash)
    {
      assert [merged][0] == merged;
    }

    /**
     Reads NVD window by window, each saved before the next; the year files once a read was
     complete, and whether it got to the present now. It may stop or fail anywhere.
     */
    method SyncNvd(nvd: Nvd, now: int) returns (r: Result<bool, BuildError>, files: Files)
      requires Valid() && Phase().Gathering?
      modifies this`blobs, this`nvdYears, this`nvdComplete, this`log
      ensures Valid() && Phase() == old(Phase()) && old(log) <= log && old(blobs.Keys) <= blobs.Keys
      ensures r.Err? ==> r.error == CannotRead || r.error == CannotWrite || r.error == Stopped
      ensures nvdComplete <==> old(nvdComplete) || r == Ok(true)
      ensures ComesFrom(nvdYears, old(nvdYears), nvd.windows, hash)
              && ComesFrom(files, old(nvdYears), nvd.windows, hash)
      ensures r == Ok(true) ==> nvd.reaches && files == WithBlobs(nvdYears, blobs)
      ensures !nvdComplete ==> files == map[]
      ensures forall key :: key in files ==> files[key].sha in blobs
    {
      hide Legal, After, Shas, ComesFrom, WithBlobs;
      var readable: bool := *;
      files := map[];
      ComesFromNothing(nvdYears, hash);
      NoneComeFrom(nvdYears, nvd.windows);
      ComesFromFewer(nvdYears, nvdYears, nvd.windows, 0, blobs, hash) by { assert nvd.windows[..0] == []; }
      if !readable {
        return Err(CannotRead), map[];
      }
      var years := nvdYears;
      var failed := false;
      var i := 0;
      while i < |nvd.windows| && !failed
        invariant i <= |nvd.windows| && (!failed ==> years == nvdYears)
        invariant Valid() && Phase() == old(Phase()) && old(log) <= log && old(blobs.Keys) <= blobs.Keys
        invariant ComesFrom(years, old(nvdYears), nvd.windows[..i], hash)
        invariant ComesFrom(nvdYears, old(nvdYears), nvd.windows, hash)
        invariant nvdComplete == old(nvdComplete)
        decreases |nvd.windows| - i
      {
        var next, ok, cut := FlushYears(years, nvd.windows[i], now);
        if cut {
          return Err(Stopped), map[];
        }
        ComesFromNext(old(nvdYears), years, next, nvd.windows, i, hash);
        years := next;
        i := i + 1;
        ComesFromFewer(years, old(nvdYears), nvd.windows, i, blobs, hash);
        var saved: bool := *;
        if ok && saved {
          nvdYears := years;
          Took(SaveNvd(Shas(years)));
        } else {
          failed := true;
        }
      }
      var complete := nvdComplete;
      if !failed && nvd.reaches {
        var saved: bool := *;
        if !saved {
          return Err(CannotWrite), map[];
        }
        nvdComplete, complete := true, true;
        Took(SaveNvd(Shas(nvdYears)));
      }
      ComesFromFewer(years, old(nvdYears), nvd.windows, i, blobs, hash);
      BlobsAreThere(years, blobs);
      return Ok(!failed && nvd.reaches), if complete then WithBlobs(years, blobs) else map[];
    }

    lemma BlobsAreThere(files: Files, blobs: map<Sha, Bytes>)
      ensures forall key :: key in WithBlobs(files, blobs) ==> WithBlobs(files, blobs)[key].sha in blobs
    {
    }

    lemma NoneComeFrom(before: Files, windows: seq<map<FileKey, Bytes>>)
      ensures ComesFrom(map[], before, windows, hash)
    {
    }

    method TakeAll(files: Files, current: Files) returns (next: Files)
      requires Valid() && Phase() == Gathering(current) && forall key :: key in files ==> files[key].sha in blobs
      modifies this`log
      ensures Valid() && Phase() == Gathering(next) && old(log) <= log && next == current + files
    {
      hide Legal, After;
      next := current;
      var rest := files.Keys;
      while rest != {}
        invariant Valid() && Phase() == Gathering(next) && old(log) <= log
        invariant rest <= files.Keys && next.Keys == current.Keys + (files.Keys - rest)
        invariant forall key :: key in next ==> next[key] == if key in files && key !in rest then files[key]
                  else current[key]
      {
        var key :| key in rest;
        next := Take(next, key, files[key]);
        rest := rest - {key};
      }
    }

    /** NVD's year files join the manifest. */
    method CollectNvd(nvd: Nvd, current: Files, now: int) returns (r: Result<bool, BuildError>, next: Files)
      requires Valid() && Phase() == Gathering(current)
      modifies this`blobs, this`nvdYears, this`nvdComplete, this`log
      ensures Valid() && Phase().Gathering? && old(log) <= log && old(blobs.Keys) <= blobs.Keys
      ensures r.Ok? ==> Phase() == Gathering(next)
      ensures r.Err? ==> r.error == CannotRead || r.error == CannotWrite || r.error == Stopped
      ensures r.Ok? && !nvdComplete ==> next == current
      ensures r == Ok(true) ==> next == current + WithBlobs(nvdYears, blobs)
      ensures nvdComplete <==> old(nvdComplete) || r == Ok(true)
      ensures ComesFrom(nvdYears, old(nvdYears), nvd.windows, hash)
    {
      hide Legal, After, ComesFrom, WithBlobs;
      var files;
      r, files := SyncNvd(nvd, now);
      next := current;
      if r.Err? {
        return;
      }
      next := TakeAll(files, current);
    }

    /** Adds the files of sources this run did not ask for, as the last build had them; it may be cut off. */
    method CollectLeftover(current: Files, wanted: FileKey -> bool) returns (next: Files, cut: bool)
      requires Valid() && Phase() == Gathering(current)
      modifies this`log
      ensures Valid() && Phase() == Gathering(next) && old(log) <= log
      ensures !cut ==> forall key :: key in next <==>
                key in current || (key in Known().files && !wanted(key) && Known().files[key].sha in blobs)
      ensures forall key :: key in next ==>
                (key in current && next[key] == current[key])
                  || (key !in current && key in Known().files && next[key] == Known().files[key])
    {
      hide Legal, After;
      next, cut := current, false;
      var files := Known().files;
      var rest := files.Keys;
      while rest != {}
        invariant Valid() && Phase() == Gathering(next) && old(log) <= log
        invariant rest <= files.Keys
        invariant forall key :: key in next <==>
                    key in current || (key in files && key !in rest && !wanted(key) && files[key].sha in blobs)
        invariant forall key :: key in next ==> next[key] == if key in current then current[key] else files[key]
      {
        var stop: bool := *;
        if stop {
          return next, true;
        }
        var key :| key in rest;
        if !wanted(key) && files[key].sha in blobs && key !in next {
          next := Take(next, key, files[key]);
        }
        rest := rest - {key};
      }
    }

    /** Removes the blobs nothing kept names; it may be cut off, and some removals may fail. */
    method Prune(keep: set<Sha>) returns (finished: bool, failed: set<Sha>)
      requires Valid() && Phase() == Published(keep)
      modifies this`blobs, this`log
      ensures Valid() && Phase() == Published(keep) && old(log) <= log
      ensures forall sha :: sha in blobs ==> sha in old(blobs) && blobs[sha] == old(blobs)[sha]
      ensures forall sha :: sha in old(blobs) && sha in keep ==> sha in blobs
      ensures finished ==> forall sha :: sha in blobs ==> sha in keep || sha in failed
    {
      hide Legal, After;
      var rest := blobs.Keys;
      finished, failed := true, {};
      while rest != {}
        invariant Valid() && Phase() == Published(keep) && old(log) <= log
        invariant forall sha :: sha in blobs ==> sha in old(blobs) && blobs[sha] == old(blobs)[sha]
        invariant forall sha :: sha in old(blobs) && sha in keep ==> sha in blobs
        invariant forall sha :: sha in blobs ==> sha in keep || sha in failed || sha in rest
        decreases rest
      {
        var stop: bool := *;
        if stop {
          finished := false;
          break;
        }
        var name :| name in rest;
        var removed: bool := *;
        if name !in keep {
          if removed {
            blobs := blobs - {name};
            Took(Remove(name));
          } else {
            failed := failed + {name};
          }
        }
        rest := rest - {name};
      }
    }

    /** Sources one after the other; it may be cut off after any of them. */
    method CollectAll(sources: seq<Source>, current: Files, now: int) returns (next: Files, fetched: nat, cut: bool)
      requires Valid() && Phase() == Gathering(current)
      modifies this`blobs, this`log
      ensures Valid() && Phase() == Gathering(next) && old(log) <= log && old(blobs.Keys) <= blobs.Keys
      ensures forall key :: key !in Asked(sources) ==> SameFile(key, current, next)
    {
      hide Legal, After, SameFile;
      NothingChanged(current);
      next, fetched, cut := current, 0, false;
      for i := 0 to |sources|
        invariant Valid() && Phase() == Gathering(next) && old(log) <= log && old(blobs.Keys) <= blobs.Keys
        invariant forall key :: key !in Asked(sources) ==> SameFile(key, current, next)
      {
        ghost var before := next;
        var ok;
        next, ok := Collect(sources[i], next, now);
        assert sources[i] in sources && sources[i].key in Asked(sources);
        OtherFilesStay(current, before, next, sources[i].key, Asked(sources));
        fetched := if ok then fetched + 1 else fetched;
        var stop: bool := *;
        if stop {
          return next, fetched, true;
        }
      }
    }

    lemma NothingChanged(files: Files)
      ensures forall key :: SameFile(key, files, files)
    {
    }

    lemma OtherFilesStay(current: Files, before: Files, after: Files, key: FileKey, asked: set<FileKey>)
      requires key in asked && after - {key} == before - {key}
      requires forall other :: other !in asked ==> SameFile(other, current, before)
      ensures forall other :: other !in asked ==> SameFile(other, current, after)
    {
      forall other | other !in asked ensures SameFile(other, current, after) {
        assert (other in after - {key} <==> other in after) && (other in before - {key} <==> other in before);
        assert SameFile(other, current, before);
      }
    }

    /** Everything up to the manifest: the sources before NVD, NVD, and those after it. */
    method GatherAll(sources: seq<Source>, nvd: Option<Nvd>, osv: seq<Source>, wanted: FileKey -> bool, now: int)
      returns (r: Result<Files, BuildError>)
      requires Valid() && Phase().Idle?
      modifies this`blobs, this`nvdYears, this`nvdComplete, this`log
      ensures Valid() && old(log) <= log && old(blobs.Keys) <= blobs.Keys
      ensures r.Ok? ==> Phase() == Gathering(r.value)
      ensures r.Err? ==> Phase().Idle? && r.error != DoesNotVerify
    {
      hide Legal, After, ComesFrom, WithBlobs;
      Took(Begin);
      var current, fetched, cut := CollectAll(sources, map[], now);
      if !cut && nvd.Some? {
        var read, next := CollectNvd(nvd.value, current, now);
        if read.Err? {
          Took(Stop);
          return Err(read.error);
        }
        current, fetched := next, if read.value then fetched + 1 else fetched;
      }
      if !cut {
        var more;
        current, more, cut := CollectAll(osv, current, now);
        fetched := fetched + more;
      }
      if !cut && fetched == 0 {
        Took(Stop);
        return Err(NothingFetched);
      }
      if !cut {
        current, cut := CollectLeftover(current, wanted);
      }
      if cut {
        Took(Stop);
        return Err(Stopped);
      }
      return Ok(current);
    }

    /** From a manifest that verified: `feed.json`, the prune, `state.json`. */
    method PublishAndPrune(current: Files, now: int) returns (r: Result<nat, BuildError>)
      requires Valid() && Phase() == Gathering(current)
      modifies this`blobs, this`feed, this`state, this`log
      ensures Valid() && Phase().Idle? && old(log) <= log
      ensures feed != old(feed) ==> feed == Some(Manifest(NextSequence(old(Known()), now), now, current))
      ensures r.Ok? ==> feed == Some(Manifest(r.value, now, current)) && r.value == NextSequence(old(Known()), now)
      ensures state == if r.Ok? then Some(BuildState(r.value, current, Shas(current))) else old(state)
      ensures r.Err? ==> r.error == CannotWrite || r.error == Stopped
    {
      hide Legal, After, Shas;
      var manifest := Manifest(NextSequence(Known(), now), now, current);
      var written: bool := *;
      if !written {
        Took(Stop);
        return Err(CannotWrite);
      }
      feed := Some(manifest);
      var readable: bool := *;
      Took(Publish(now, readable));
      var finished, failed := Prune(Shas(current) + Known().previous + if readable then Shas(nvdYears) else {});
      written := *;
      if !finished || !written {
        Took(Stop);
        return if finished then Err(CannotWrite) else Err(Stopped);
      }
      state := Some(BuildState(manifest.sequence, current, Shas(current)));
      Took(SaveState);
      return Ok(manifest.sequence);
    }

    /**
     Builds and publishes one feed, or stops somewhere. Every step is one of the protocol,
     so what holds of all its runs holds here. `verifies` is the check a platform runs.
     */
    method Run(sources: seq<Source>, nvd: Option<Nvd>, osv: seq<Source>, wanted: FileKey -> bool, now: int,
               verifies: Manifest -> bool)
      returns (r: Result<nat, BuildError>)
      requires Valid() && Phase().Idle?
      modifies this`blobs, this`feed, this`state, this`nvdYears, this`nvdComplete, this`log
      ensures Valid() && Phase().Idle? && old(log) <= log && Inv(After(log, hash), hash)
      ensures feed != old(feed) ==>
                feed.Some? && feed.value.sequence == NextSequence(old(Known()), now) && verifies(feed.value)
      ensures r.Ok? ==>
                feed.Some? && r.value == feed.value.sequence
                && state == Some(BuildState(r.value, feed.value.files, Shas(feed.value.files)))
      ensures r.Err? ==> state == old(state)
      ensures r == Err(NothingFetched) || r == Err(DoesNotVerify) ==> feed == old(feed) && old(blobs.Keys) <= blobs.Keys
    {
      hide Legal, After, Shas, Inv, Present;
      var gathered := GatherAll(sources, nvd, osv, wanted, now);
      if gathered.Err? {
        r := Err(gathered.error);
      } else {
        var manifest := Manifest(NextSequence(Known(), now), now, gathered.value);
        if verifies(manifest) {
          r := PublishAndPrune(gathered.value, now);
        } else {
          Took(Stop);
          r := Err(DoesNotVerify);
        }
      }
      ReadersFindTheirBlobs(log, hash);
    }
  }
}
