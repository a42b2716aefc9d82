/**
 The rule signer (`openvibes-signer/src/lib.rs`, `state.rs`): under one lock it checks
 the publish rate, takes the next version of a rule set, signs, makes the version
 durable and only then hands the envelope out. Writes fail, processes crash, power is
 lost, the version file gets damaged and is seeded again; over every such run the
 versions handed out for a set strictly increase.
 */
module Signer {
  import opened Basics

  const SITE := "site"
  const SITE_ALARMS := "site-alarms"
  const HOUR_MS: int := 3_600_000

  datatype SetState = SetState(version: nat, expires: Option<int>)

  type Versions = map<string, SetState>

  /** What `versions.json` holds. */
  datatype File = Missing | Unreadable | Holds(sets: Versions)

  datatype Refusal = Invalid | Rate | VersionState | Unavailable

  /** How a publish is cut short inside the lock, or not at all. */
  datatype Fault =
    | NoFault
    | SignRefused           // the loader refuses the envelope
    | RulesNotWritten       // `<set>.rules.json` cannot be written
    | VersionsNotRenamed    // `versions.json` cannot be written
    | VersionsNotSynced     // renamed, but the directory sync fails
    | CrashBeforeRename
    | CrashAfterRename      // renamed, not yet synced
    | CrashAfterSync        // durable, but never handed out

  /**
   What a new process finds of a file whose rename was not yet durable: the renamed file, which a later
   power loss may still undo, or after a power loss the one synced before.
   */
  datatype Survivor = Renamed | Synced

  datatype Event =
    | Publish(ruleSet: string, now: int, expires: int, fault: Fault, survivor: Survivor)
    | Status(now: int)                  // `status.json` is written, which also drops old publishes
    | Restart(survivor: Survivor)
    | Damage(file: File)                // the version file is lost or becomes unreadable
    | Seed(minVersion: nat, fault: Fault)

  /**
   The signer and its disk. `visible` is what a read of the version file gives,
   `durable` what survives a power loss. The last three fields record history: the
   versions handed out per set, and of this process the times of its publishes and
   the latest time it dropped old ones for.
   */
  datatype World = World(
    sets: Option<Versions>, publishes: seq<int>,
    visible: File, durable: File,
    handed: map<string, seq<nat>>, published: seq<int>, clock: Option<int>)

  // ---- reading and writing the state ----------------------------------------------

  /** `State::open`: a missing or invalid file is no version state. */
  function Read(file: File): Option<Versions> {
    if file.Holds? && SITE in file.sets && SITE_ALARMS in file.sets then Some(file.sets) else None
  }

  function Reopen(w: World, survivor: Survivor): World {
    var file := if survivor.Renamed? then w.visible else w.durable;
    w.(sets := Read(file), publishes := [], visible := file, published := [], clock := None)
  }

  function NextVersion(sets: Option<Versions>, ruleSet: string): Option<nat> {
    if sets.None? || ruleSet !in sets.value || sets.value[ruleSet].version >= U64_MAX then None
    else Some(sets.value[ruleSet].version + 1)
  }

  function Prune(queue: seq<int>, now: int): seq<int> {
    if queue != [] && queue[0] <= now - HOUR_MS then Prune(queue[1..], now) else queue
  }

  /** `publishes_this_hour` drops what is an hour old. */
  function Pruned(w: World, now: int): World {
    w.(publishes := Prune(w.publishes, now), clock := Some(now))
  }

  /** The files after a write of `sets` that ends as `fault` says. */
  function Written(w: World, sets: Versions, fault: Fault): World {
    match fault
    case VersionsNotSynced | CrashAfterRename => w.(visible := Holds(sets))
    case NoFault | CrashAfterSync => w.(visible := Holds(sets), durable := Holds(sets))
    case _ => w
  }

  function Handed(w: World, ruleSet: string): seq<nat> {
    if ruleSet in w.handed then w.handed[ruleSet] else []
  }

  // ---- one step -----------------------------------------------------------------------

  /** The locked section of a publish: the new world and the answer. */
  function PublishStep(w: World, limit: nat, ruleSet: string, now: int, expires: int, fault: Fault,
                       survivor: Survivor): (World, Result<nat, Refusal>) {
    if ruleSet != SITE && ruleSet != SITE_ALARMS then (w, Err(Invalid))
    else
      var pruned := Pruned(w, now);
      if |pruned.publishes| >= limit then (pruned, Err(Rate))
      else if NextVersion(w.sets, ruleSet).None? then (pruned, Err(VersionState))
      else
        var version := NextVersion(w.sets, ruleSet).value;
        var sets := w.sets.value[ruleSet := SetState(version, Some(expires))];
        var files := Written(pruned, sets, fault);
        match fault
        case NoFault =>
          (files.(sets := Some(sets), publishes := pruned.publishes + [now],
                  handed := w.handed[ruleSet := Handed(w, ruleSet) + [version]],
                  published := w.published + [now]),
           Ok(version))
        case SignRefused => (pruned, Err(Invalid))
        case RulesNotWritten | VersionsNotRenamed | VersionsNotSynced => (files, Err(Unavailable))
        case CrashBeforeRename | CrashAfterRename | CrashAfterSync => (Reopen(files, survivor), Err(Unavailable))
  }

  /** `seed`: a readable file is kept, anything else replaced. */
  function SeedStep(w: World, minVersion: nat, fault: Fault): World {
    if minVersion == 0 || Read(w.visible).Some? then w
    else
      var last := SetState(minVersion - 1, None);
      Written(w, map[SITE := last, SITE_ALARMS := last], fault)
  }

  function Step(w: World, limit: nat, e: Event): World {
    match e
    case Publish(ruleSet, now, expires, fault, survivor) =>
        PublishStep(w, limit, ruleSet, now, expires, fault, survivor).0
    case Status(now) => Pruned(w, now)
    case Restart(survivor) => Reopen(w, survivor)
    case Damage(file) => w.(visible := file, durable := file)
    case Seed(minVersion, fault) => SeedStep(w, minVersion, fault)
  }

  function Run(w: World, limit: nat, events: seq<Event>): World {
    if events == [] then w else Step(Run(w, limit, events[..|events| - 1]), limit, events[|events| - 1])
  }

  /** Nothing but the queue and the clock changed, and of the queue only old publishes went. */
  predicate OnlyPruned(w: World, w': World, now: int) {
    && w'.sets == w.sets && w'.visible == w.visible && w'.durable == w.durable && w'.handed == w.handed
    && w'.published == w.published && w'.clock == Some(now) && w'.publishes == Prune(w.publishes, now)
  }

  /** A publish that touches no file: its set is unknown, the hour is full, no version is next, or it is not signed. */
  lemma PublishRefuses(w: World, limit: nat, ruleSet: string, now: int, expires: int, fault: Fault, survivor: Survivor)
    ensures var (w', answer) := PublishStep(w, limit, ruleSet, now, expires, fault, survivor);
            if ruleSet != SITE && ruleSet != SITE_ALARMS then w' == w && answer == Err(Invalid)
            else if |Prune(w.publishes, now)| >= limit then OnlyPruned(w, w', now) && answer == Err(Rate)
            else if w.sets.None? || ruleSet !in w.sets.value || w.sets.value[ruleSet].version >= 0xFFFF_FFFF_FFFF_FFFF
              then OnlyPruned(w, w', now) && answer == Err(VersionState)
            else fault.SignRefused? ==> OnlyPruned(w, w', now) && answer == Err(Invalid)
  {
    hide Prune;
  }

  /**
   With room and a next version: what memory and the two copies of the file hold, and what is answered,
   after a publish that succeeds and after each way to fail.
   */
  lemma PublishLeaves(w: World, limit: nat, ruleSet: string, now: int, expires: int, fault: Fault, survivor: Survivor)
    requires (ruleSet == SITE || ruleSet == SITE_ALARMS) && |Prune(w.publishes, now)| < limit && !fault.SignRefused?
    requires w.sets.Some? && ruleSet in w.sets.value && w.sets.value[ruleSet].version < 0xFFFF_FFFF_FFFF_FFFF
    ensures var (w', answer) := PublishStep(w, limit, ruleSet, now, expires, fault, survivor);
            var version := w.sets.value[ruleSet].version + 1;
            var file := Holds(w.sets.value[ruleSet := SetState(version, Some(expires))]);
            && (answer == if fault == NoFault then Ok(version) else Err(Unavailable))
            && (Handed(w', ruleSet) == if fault == NoFault then Handed(w, ruleSet) + [version] else Handed(w, ruleSet))
            && (w'.durable == if fault == NoFault || fault == CrashAfterSync then file else w.durable)
            && (fault == NoFault ==>
                  && w'.visible == file && w'.sets == Some(file.sets)
                  && w'.publishes == Prune(w.publishes, now) + [now] && w'.published == w.published + [now])
            && (fault == RulesNotWritten || fault == VersionsNotRenamed ==> OnlyPruned(w, w', now))
            && (fault == VersionsNotSynced ==> OnlyPruned(w.(visible := file), w', now))
            && (fault == CrashBeforeRename || fault == CrashAfterRename || fault == CrashAfterSync ==>
                  && w'.visible == (if survivor == Synced then w'.durable
                                    else if fault == CrashBeforeRename then w.visible else file)
                  && w'.sets == Read(w'.visible) && w'.publishes == [] && w'.published == [])
  {
    hide Prune;
  }

  /** A new process finds the visible file, or after a power loss the synced one, and nothing queued. */
  lemma RestartFinds(w: World, limit: nat, survivor: Survivor)
    ensures var w', file := Step(w, limit, Restart(survivor)), if survivor == Synced then w.durable else w.visible;
            && w'.visible == file && w'.durable == w.durable && w'.handed == w.handed && w'.publishes == []
            && w'.published == [] && w'.clock == None
            && (w'.sets.Some? <==> file.Holds? && SITE in file.sets && SITE_ALARMS in file.sets)
            && (w'.sets.Some? ==> w'.sets.value == file.sets)
  {
  }

  /** What a damaged file leaves, no restart brings back. */
  lemma DamageStays(w: World, limit: nat, file: File, survivor: Survivor)
    ensures var w' := Step(Step(w, limit, Damage(file)), limit, Restart(survivor));
            w'.visible == file && w'.durable == file && w'.sets == Read(file)
  {
  }

  // ---- versions ---------------------------------------------------------------------------

  predicate Increasing(versions: seq<nat>) {
    forall i, j :: 0 <= i < j < |versions| ==> versions[i] < versions[j]
  }

  predicate UpTo(versions: seq<nat>, last: nat) {
    forall i :: 0 <= i < |versions| ==> versions[i] <= last
  }

  /** Every version handed out is at most the recorded one. */
  predicate Covers(sets: Option<Versions>, handed: map<string, seq<nat>>) {
    sets.Some? ==> forall s :: s in handed ==> s in sets.value && UpTo(handed[s], sets.value[s].version)
  }

  /**
   The version in memory, the one a read gives and the one that survives a power loss
   all cover what was handed out; each of them may fall, none below that.
   */
  predicate Inv(w: World) {
    && Covers(w.sets, w.handed)
    && Covers(Read(w.visible), w.handed)
    && Covers(Read(w.durable), w.handed)
    && (forall s :: s in w.handed ==> (s == SITE || s == SITE_ALARMS) && Increasing(w.handed[s]))
  }

  /**
   What is asked of operators: damage leaves no readable older file, and a new seed starts above
   every version handed out.
   */
  predicate Allowed(w: World, e: Event) {
    match e
    case Damage(file) => Read(file).None?
    case Seed(minVersion, _) => minVersion == 0 || Read(w.visible).Some? || forall s :: s in w.handed ==>
      UpTo(w.handed[s], minVersion - 1)
    case _ => true
  }

  /** A write of versions that cover what was handed out, however it ends. */
  lemma WriteKeepsVersions(w: World, sets: Versions, fault: Fault, survivor: Survivor)
    requires Inv(w) && Covers(Some(sets), w.handed)
    ensures Inv(Written(w, sets, fault))
    ensures Inv(Reopen(Written(w, sets, fault), survivor))
  {
    hide Increasing, UpTo;
  }

  /** The version after the recorded one is above every version handed out. */
  lemma NextIsNew(w: World, ruleSet: string, version: nat, expires: int)
    requires Inv(w) && NextVersion(w.sets, ruleSet) == Some(version)
    ensures Covers(Some(w.sets.value[ruleSet := SetState(version, Some(expires))]), w.handed)
    ensures Increasing(Handed(w, ruleSet) + [version]) && UpTo(Handed(w, ruleSet) + [version], version)
  {
    if ruleSet in w.handed { assert UpTo(w.handed[ruleSet], version - 1); }
  }

  lemma PruneKeepsVersions(w: World, now: int)
    requires Inv(w)
    ensures Inv(Pruned(w, now))
  {
    hide Prune, Increasing, UpTo;
  }

  lemma HandOutKeepsVersions(w: World, pruned: World, ruleSet: string, version: nat, sets: Versions, now: int)
    requires Inv(w) && Inv(pruned) && pruned.handed == w.handed
    requires (ruleSet == SITE || ruleSet == SITE_ALARMS) && ruleSet in sets && sets[ruleSet].version == version
    requires Covers(Some(sets), w.handed)
    requires Increasing(Handed(w, ruleSet) + [version]) && UpTo(Handed(w, ruleSet) + [version], version)
    ensures Inv(Written(pruned, sets, NoFault).(sets := Some(sets), publishes := pruned.publishes + [now],
                                                handed := w.handed[ruleSet := Handed(w, ruleSet) + [version]],
                                                published := w.published + [now]))
  {
    hide Increasing, UpTo, Handed;
  }

  lemma PublishKeepsVersions(w: World, limit: nat, ruleSet: string, now: int, expires: int, fault: Fault,
                             survivor: Survivor)
    requires Inv(w)
    ensures Inv(PublishStep(w, limit, ruleSet, now, expires, fault, survivor).0)
  {
    hide Prune, Increasing, UpTo, Inv, Covers, Written, Reopen;
    if (ruleSet == SITE || ruleSet == SITE_ALARMS) && NextVersion(w.sets, ruleSet).Some? {
      var version := NextVersion(w.sets, ruleSet).value;
      NextIsNew(w, ruleSet, version, expires);
      var pruned := Pruned(w, now);
      var sets := w.sets.value[ruleSet := SetState(version, Some(expires))];
      PruneKeepsVersions(w, now);
      WriteKeepsVersions(pruned, sets, fault, survivor);
      HandOutKeepsVersions(w, pruned, ruleSet, version, sets, now);
    } else {
      PruneKeepsVersions(w, now);
    }
  }

  lemma SeedKeepsVersions(w: World, minVersion: nat, fault: Fault)
    requires Inv(w) && Allowed(w, Seed(minVersion, fault))
    ensures Inv(SeedStep(w, minVersion, fault))
  {
    hide Increasing, UpTo;
    if minVersion > 0 && Read(w.visible).None? {
      var last := SetState(minVersion - 1, None);
      WriteKeepsVersions(w, map[SITE := last, SITE_ALARMS := last], fault, Renamed);
    }
  }

  lemma StepKeepsVersions(w: World, limit: nat, e: Event)
    requires Inv(w) && Allowed(w, e)
    ensures Inv(Step(w, limit, e))
  {
    hide Increasing, UpTo, Prune, PublishStep, SeedStep;
    match e
    case Publish(ruleSet, now, expires, fault, survivor) =>
        PublishKeepsVersions(w, limit, ruleSet, now, expires, fault, survivor);
    case Seed(minVersion, fault) => SeedKeepsVersions(w, minVersion, fault);
    case _ =>
  }

  ghost predicate AllowedRun(w: World, limit: nat, events: seq<Event>) {
    forall i :: 0 <= i < |events| ==> Allowed(Run(w, limit, events[..i]), events[i])
  }

  /**
   In every run the versions handed out for a set strictly increase, so none is handed
   out twice, whatever fails or crashes in between.
   */
  lemma {:induction false} VersionsNeverRepeat(w: World, limit: nat, events: seq<Event>)
    requires Inv(w) && AllowedRun(w, limit, events)
    ensures Inv(Run(w, limit, events))
    ensures forall s :: Increasing(Handed(Run(w, limit, events), s))
  {
    if events != [] {
      var n := |events| - 1;
      assert forall i :: 0 <= i <= n ==> events[..n][..i] == events[..i];
      assert events[..n] == events[..n][..n];
      VersionsNeverRepeat(w, limit, events[..n]);
      assert Allowed(Run(w, limit, events[..n]), events[n]);
      StepKeepsVersions(Run(w, limit, events[..n]), limit, events[n]);
    }
  }

  /** With no file lost and none seeded, publishes, failures, crashes and restarts in any order repeat no version. */
  lemma UndamagedNeverRepeats(w: World, limit: nat, events: seq<Event>)
    requires Inv(w) && forall i :: 0 <= i < |events| ==> !events[i].Damage? && !events[i].Seed?
    ensures forall s :: Increasing(Handed(Run(w, limit, events), s))
  {
    hide Inv, Run, Increasing;
    VersionsNeverRepeat(w, limit, events);
  }

  /**
   The rule for seeds is exact: seeding a damaged file and publishing keeps a set's
   versions increasing if and only if the seed is above all of them.
   */
  lemma SeedMustBeAbove(w: World, limit: nat, minVersion: nat, ruleSet: string, now: int, expires: int)
    requires Inv(w) && Read(w.visible).None? && limit > 0
    requires 0 < minVersion <= U64_MAX && (ruleSet == SITE || ruleSet == SITE_ALARMS)
    ensures var after := Run(w, limit, [Seed(minVersion, NoFault), Restart(Renamed),
            Publish(ruleSet, now, expires, NoFault, Renamed)]);
            Handed(after, ruleSet) == Handed(w, ruleSet) + [minVersion] &&
            (Increasing(Handed(after, ruleSet)) <==> UpTo(Handed(w, ruleSet), minVersion - 1))
  {
    hide Increasing, UpTo, Prune, Inv;
    var last := SetState(minVersion - 1, None);
    var sets := map[SITE := last, SITE_ALARMS := last];
    var events := [Seed(minVersion, NoFault), Restart(Renamed), Publish(ruleSet, now, expires, NoFault, Renamed)];
    var w1 := Step(w, limit, events[0]);
    var w2 := Step(w1, limit, events[1]);
    assert w2.sets == Some(sets) && w2.publishes == [] && w2.handed == w.handed;
    ThreeSteps(w, limit, events);
    PruneShrinks(w2.publishes, now);
    PublishHandsOut(w2, limit, ruleSet, now, expires);
    LastAbove(w, ruleSet, minVersion);
  }

  /** With room under the limit and no fault, a publish hands out the next version. */
  lemma PublishHandsOut(w: World, limit: nat, ruleSet: string, now: int, expires: int)
    requires ruleSet == SITE || ruleSet == SITE_ALARMS
    requires NextVersion(w.sets, ruleSet).Some? && |Prune(w.publishes, now)| < limit
    ensures var w' := Step(w, limit, Publish(ruleSet, now, expires, NoFault, Renamed));
            Handed(w', ruleSet) == Handed(w, ruleSet) + [NextVersion(w.sets, ruleSet).value] &&
            w'.publishes == Prune(w.publishes, now) + [now] && w'.published == w.published + [now] &&
            NextVersion(w'.sets, SITE).Some? == (NextVersion(w.sets, SITE).Some?
              && (ruleSet == SITE ==> w.sets.value[SITE].version < U64_MAX - 1))
  {
    hide Prune;
  }

  lemma LastAbove(w: World, ruleSet: string, version: nat)
    requires Inv(w) && version > 0
    ensures Increasing(Handed(w, ruleSet) + [version]) <==> UpTo(Handed(w, ruleSet), version - 1)
  {
    var before := Handed(w, ruleSet);
    var after := before + [version];
    assert Increasing(before);
    if Increasing(after) {
      forall i | 0 <= i < |before| ensures before[i] <= version - 1 { assert after[i] < after[|before|]; }
    }
  }

  lemma ThreeSteps(w: World, limit: nat, events: seq<Event>)
    requires |events| == 3
    ensures Run(w, limit, events) == Step(Step(Step(w, limit, events[0]), limit, events[1]), limit, events[2])
  {
    hide Step;
    assert events[..2][..1] == events[..1] && events[..1][..0] == [];
    assert Run(w, limit, events[..1]) == Step(w, limit, events[0]);
  }

  // ---- the publish rate -----------------------------------------------------------------

  predicate HourApart(a: int, b: int) {
    a + HOUR_MS <= b || b + HOUR_MS <= a
  }

  /** Any publish is at least an hour apart from every one `limit` places or more before it. */
  predicate Spaced(times: seq<int>, limit: nat) {
    forall i, j :: 0 <= i <= j - limit && j < |times| ==> HourApart(times[i], times[j])
  }

  function Dropped(w: World): int {
    |w.published| - |w.publishes|
  }

  /** The queue is the end of the history, which is spaced; nothing is said about the order of times. */
  predicate RateInv(w: World, limit: nat) {
    && |w.publishes| <= limit && |w.publishes| <= |w.published|
    && w.publishes == w.published[Dropped(w)..]
    && Spaced(w.published, limit)
  }

  /** At a publish, nothing already dropped from the queue is within an hour of it, before or after. */
  predicate Settled(w: World, e: Event) {
    e.Publish? ==> forall i :: 0 <= i < Dropped(w) && i < |w.published| ==> HourApart(w.published[i], e.now)
  }

  ghost predicate SettledRun(w: World, limit: nat, events: seq<Event>) {
    forall i :: 0 <= i < |events| ==> Settled(Run(w, limit, events[..i]), events[i])
  }

  /** What is dropped from the front is an hour old, in whatever order the queue is. */
  lemma {:induction false} PruneDropsOld(queue: seq<int>, now: int)
    ensures |Prune(queue, now)| <= |queue| && Prune(queue, now) == queue[|queue| - |Prune(queue, now)|..]
    ensures forall i :: 0 <= i < |queue| - |Prune(queue, now)| ==> queue[i] + HOUR_MS <= now
  {
    if queue != [] && queue[0] <= now - HOUR_MS {
      PruneDropsOld(queue[1..], now);
    }
  }

  lemma {:induction false} PruneShrinks(queue: seq<int>, now: int)
    ensures |Prune(queue, now)| <= |queue|
  {
    if queue != [] && queue[0] <= now - HOUR_MS { PruneShrinks(queue[1..], now); }
  }

  lemma PrunedKeepsRate(w: World, limit: nat, now: int)
    requires RateInv(w, limit)
    ensures RateInv(Pruned(w, now), limit)
    ensures forall i :: Dropped(w) <= i < Dropped(Pruned(w, now)) ==> w.published[i] + HOUR_MS <= now
  {
    hide Prune, Spaced;
    PruneDropsOld(w.publishes, now);
    var dropped, still := Dropped(w), Dropped(Pruned(w, now));
    assert w.published[dropped..][still - dropped..] == w.published[still..];
    forall i | dropped <= i < still ensures w.published[i] + HOUR_MS <= now {
      assert w.published[i] == w.publishes[i - dropped];
    }
  }

  /** A publish with room in the queue, when all that was dropped is an hour apart. */
  lemma AcceptKeepsRate(w: World, limit: nat, now: int, w': World)
    requires RateInv(w, limit) && |w.publishes| < limit
    requires forall i :: 0 <= i < Dropped(w) ==> HourApart(w.published[i], now)
    requires w'.publishes == w.publishes + [now] && w'.published == w.published + [now]
    ensures RateInv(w', limit)
  {
    assert w'.published[Dropped(w)..] == w.published[Dropped(w)..] + [now];
    forall i, j | 0 <= i <= j - limit && j < |w'.published| ensures HourApart(w'.published[i], w'.published[j]) {
      if j == |w.published| {
        assert i < Dropped(w);
      } else {
        assert HourApart(w.published[i], w.published[j]);
      }
    }
  }

  lemma StepKeepsRate(w: World, limit: nat, e: Event)
    requires RateInv(w, limit) && Settled(w, e)
    ensures RateInv(Step(w, limit, e), limit)
  {
    hide Prune, RateInv, NextVersion, Read;
    match e
    case Publish(ruleSet, now, expires, fault, survivor) =>
      PrunedKeepsRate(w, limit, now);
      var w' := Step(w, limit, e);
      if |w'.published| > |w.published| {
        AcceptKeepsRate(Pruned(w, now), limit, now, w');
      } else {
        SameRate(Pruned(w, now), w', limit);
        SameRate(w, w', limit);
      }
    case Status(now) => PrunedKeepsRate(w, limit, now);
    case _ => SameRate(w, Step(w, limit, e), limit);
  }

  lemma SameRate(w: World, w': World, limit: nat)
    requires RateInv(w, limit)
    ensures w'.publishes == w.publishes && w'.published == w.published ==> RateInv(w', limit)
    ensures w'.publishes == [] && w'.published == [] ==> RateInv(w', limit)
  {
  }

  lemma PrefixRuns(events: seq<Event>)
    requires events != []
    ensures var n := |events| - 1; events[..n] == events[..n][..n] && forall i :: 0 <= i <= n ==>
            events[..n][..i] == events[..i]
  {
  }

  lemma {:induction false} RunKeepsRate(w: World, limit: nat, events: seq<Event>)
    requires RateInv(w, limit) && SettledRun(w, limit, events)
    ensures RateInv(Run(w, limit, events), limit)
  {
    hide RateInv, Step, Settled;
    if events != [] {
      var n := |events| - 1;
      PrefixRuns(events);
      RunKeepsRate(w, limit, events[..n]);
      StepKeepsRate(Run(w, limit, events[..n]), limit, events[n]);
    }
  }

  /** The publishes of this process in the hour up to `t`. */
  ghost function Window(w: World, t: int): set<int> {
    set i | 0 <= i < |w.published| && t - HOUR_MS < w.published[i] <= t
  }

  lemma {:induction false} BoundedSet(s: set<int>, low: int, high: int)
    requires low <= high && forall i :: i in s ==> low <= i < high
    ensures |s| <= high - low
    decreases high - low
  {
    if low < high {
      BoundedSet(s - {high - 1}, low, high - 1);
    } else {
      assert s == {};
    }
  }

  /**
   No window of an hour holds more publishes than the limit, in whatever order times are
   taken, as long as at each publish nothing already dropped is within an hour of it.
   */
  lemma NoHourOverTheLimit(w: World, limit: nat, events: seq<Event>, t: int)
    requires RateInv(w, limit) && SettledRun(w, limit, events)
    ensures |Window(Run(w, limit, events), t)| <= limit
  {
    hide Run, Settled;
    RunKeepsRate(w, limit, events);
    var after := Run(w, limit, events);
    var times, window := after.published, Window(after, t);
    if some :| some in window {
      var last := LastIn(window, some, |times|);
      BoundedSet(window, last + 1 - limit, last + 1);
    } else {
      assert window == {};
    }
  }

  lemma {:induction false} LastIn(window: set<int>, some: int, n: nat) returns (last: int)
    requires some in window && forall i :: i in window ==> 0 <= i < n
    ensures last in window && forall i :: i in window ==> i <= last
  {
    last := n - 1;
    if last !in window {
      last := LastIn(window, some, n - 1);
    }
  }

  // ---- times taken in order -------------------------------------------------------------------

  /** The event's time is not before the latest time already used by this process. */
  predicate Timely(w: World, e: Event) {
    w.clock.None? ||
    match e
    case Publish(_, now, _, _, _) => w.clock.value <= now
    case Status(now) => w.clock.value <= now
    case _ => true
  }

  ghost predicate TimelyRun(w: World, limit: nat, events: seq<Event>) {
    forall i :: 0 <= i < |events| ==> Timely(Run(w, limit, events[..i]), events[i])
  }

  /** Everything dropped was an hour old at the latest time used. */
  predicate ClockInv(w: World) {
    && |w.publishes| <= |w.published| && w.publishes == w.published[Dropped(w)..]
    && (w.clock.None? ==> w.published == [])
    && (w.clock.Some? ==> forall i :: 0 <= i < Dropped(w) ==> w.published[i] + HOUR_MS <= w.clock.value)
  }

  lemma PrunedKeepsClock(w: World, now: int)
    requires ClockInv(w) && (w.clock.Some? ==> w.clock.value <= now)
    ensures ClockInv(Pruned(w, now))
  {
    hide Prune;
    PruneDropsOld(w.publishes, now);
    var dropped, still := Dropped(w), Dropped(Pruned(w, now));
    assert w.published[dropped..][still - dropped..] == w.published[still..];
    forall i | 0 <= i < still ensures w.published[i] + HOUR_MS <= now {
      if i >= dropped { assert w.published[i] == w.publishes[i - dropped]; }
    }
  }

  lemma StepKeepsClock(w: World, limit: nat, e: Event)
    requires ClockInv(w) && Timely(w, e)
    ensures ClockInv(Step(w, limit, e)) && Settled(w, e)
  {
    hide Prune, NextVersion, Read, ClockInv;
    var w' := Step(w, limit, e);
    assert Settled(w, e) by { TimelySettles(w, e); }
    match e
    case Publish(_, now, _, _, _) =>
      PrunedKeepsClock(w, now);
      SameClock(Pruned(w, now), w', now);
      SameClock(w, w', now);
    case Status(now) => PrunedKeepsClock(w, now);
    case _ => SameClock(w, w', 0);
  }

  lemma TimelySettles(w: World, e: Event)
    requires ClockInv(w) && Timely(w, e)
    ensures Settled(w, e)
  {
  }

  lemma SameClock(w: World, w': World, now: int)
    requires ClockInv(w)
    ensures w'.publishes == w.publishes && w'.published == w.published && w'.clock == w.clock ==> ClockInv(w')
    ensures w'.publishes == [] && w'.published == [] ==> ClockInv(w')
    ensures w'.publishes == w.publishes + [now] && w'.published == w.published + [now] && w'.clock == w.clock
            && w.clock.Some? ==>
              ClockInv(w')
  {
    assert (w.published + [now])[Dropped(w)..] == w.publishes + [now];
  }

  /** Times that do not go back in lock order are one way to settle. */
  lemma {:induction false} TimelyRunsSettle(w: World, limit: nat, events: seq<Event>)
    requires ClockInv(w) && TimelyRun(w, limit, events)
    ensures SettledRun(w, limit, events) && ClockInv(Run(w, limit, events))
  {
    hide ClockInv, Step, Settled, Timely;
    if events != [] {
      var n := |events| - 1;
      PrefixRuns(events);
      TimelyRunsSettle(w, limit, events[..n]);
      StepKeepsClock(Run(w, limit, events[..n]), limit, events[n]);
    }
  }

  /** The time an event takes, if it takes one. */
  function TimeOf(e: Event): Option<int> {
    if e.Publish? || e.Status? then Some(e.now) else None
  }

  /** Publishes and status writes whose times never go back. */
  predicate InOrder(events: seq<Event>) {
    forall i, j :: 0 <= i < j < |events| && TimeOf(events[i]).Some? && TimeOf(events[j]).Some? ==>
      TimeOf(events[i]).value <= TimeOf(events[j]).value
  }

  lemma {:induction false} ClockFollows(w: World, limit: nat, events: seq<Event>)
    requires w.clock == None
    ensures var clock := Run(w, limit, events).clock;
            clock.Some? ==> exists i :: 0 <= i < |events| && TimeOf(events[i]) == clock
  {
    hide Prune, NextVersion, Read;
    if events != [] {
      var n := |events| - 1;
      ClockFollows(w, limit, events[..n]);
      var before, after := Run(w, limit, events[..n]), Run(w, limit, events);
      assert after.clock == before.clock || after.clock == None || after.clock == TimeOf(events[n]);
      assert forall i :: 0 <= i < n ==> events[..n][i] == events[i];
    }
  }

  /** From a new process, times in order keep every hour within the limit. */
  lemma TimesInOrderKeepTheLimit(w: World, limit: nat, events: seq<Event>, t: int)
    requires w.publishes == [] && w.published == [] && w.clock == None && InOrder(events)
    ensures |Window(Run(w, limit, events), t)| <= limit
  {
    hide Run, Timely, Settled, Window;
    forall i | 0 <= i < |events| ensures Timely(Run(w, limit, events[..i]), events[i]) {
      ClockFollows(w, limit, events[..i]);
      IsTimely(Run(w, limit, events[..i]), events, i);
    }
    assert ClockInv(w) && RateInv(w, limit);
    TimelyRunsSettle(w, limit, events);
    NoHourOverTheLimit(w, limit, events, t);
  }

  lemma IsTimely(w: World, events: seq<Event>, i: nat)
    requires i < |events| && InOrder(events)
    requires w.clock.Some? ==> exists k :: 0 <= k < |events[..i]| && TimeOf(events[..i][k]) == w.clock
    ensures Timely(w, events[i])
  {
    if w.clock.Some? {
      var k :| 0 <= k < |events[..i]| && TimeOf(events[..i][k]) == w.clock;
      assert events[..i][k] == events[k];
    }
  }

  /** They are not the only one: two publishes whose times cross are settled as well. */
  lemma CrossedTimesSettle(w: World)
    requires FreshProcess(w)
    ensures var events := [Publish(SITE, 10, 0, NoFault, Renamed), Publish(SITE, 5, 0, NoFault, Renamed)];
            SettledRun(w, 2, events) && !TimelyRun(w, 2, events)
  {
    hide PublishStep, Run;
    var events := [Publish(SITE, 10, 0, NoFault, Renamed), Publish(SITE, 5, 0, NoFault, Renamed)];
    FirstRuns(w, 2, events);
    PublishHandsOut(w, 2, SITE, 10, 0);
    var w1 := Step(w, 2, events[0]);
    assert w1.publishes == [10] && w1.published == [10];
    ClockIsLast(w, 2, events[0]);
    assert !Timely(Run(w, 2, events[..1]), events[1]);
  }

  lemma FirstRuns(w: World, limit: nat, events: seq<Event>)
    requires |events| >= 2
    ensures Run(w, limit, events[..0]) == w && Run(w, limit, events[..1]) == Step(w, limit, events[0])
    ensures Run(w, limit, events[..2]) == Step(Step(w, limit, events[0]), limit, events[1])
  {
    hide Step;
    assert events[..1][..0] == [] && events[..2][..1] == events[..1];
  }

  lemma ClockIsLast(w: World, limit: nat, e: Event)
    requires e.Publish? && e.fault.NoFault? && (e.ruleSet == SITE || e.ruleSet == SITE_ALARMS)
    ensures Step(w, limit, e).clock == Some(e.now)
  {
    hide Prune;
  }

  // ---- exactly when a publish keeps the limit ------------------------------------------------------

  ghost predicate WithinLimit(w: World, limit: nat) {
    forall t :: |Window(w, t)| <= limit
  }

  /** A publish is let through: its set is known, the pruned queue has room, there is a next version, no fault. */
  predicate Admitted(w: World, limit: nat, e: Event) {
    && e.Publish? && (e.ruleSet == SITE || e.ruleSet == SITE_ALARMS) && e.fault.NoFault?
    && |Prune(w.publishes, e.now)| < limit && NextVersion(w.sets, e.ruleSet).Some?
  }

  /** How many of `times` are in the hour up to `t`. */
  function InHour(times: seq<int>, t: int): nat {
    if times == [] then 0
    else InHour(times[..|times| - 1], t) + if t - HOUR_MS < times[|times| - 1] <= t then 1 else 0
  }

  /** The queue holds the latest publishes, and those before it were dropped. */
  predicate QueueInv(w: World) {
    |w.publishes| <= |w.published| && w.publishes == w.published[Dropped(w)..]
  }

  /** What was dropped before `now` or is dropped at it. */
  function Forgotten(w: World, now: int): seq<int> {
    var n := |w.published| - |Prune(w.publishes, now)|;
    if n < 0 then [] else w.published[..n]
  }

  /**
   In every hour an admitted publish counts in, the dropped ones take no more than the room that the pruned
   queue leaves.
   */
  ghost predicate HasRoom(w: World, limit: nat, e: Event) {
    Admitted(w, limit, e) ==>
      forall t :: e.now <= t < e.now + HOUR_MS ==>
        InHour(Forgotten(w, e.now), t) < limit - InHour(Prune(w.publishes, e.now), t)
  }

  lemma {:induction false} InHourAdds(a: seq<int>, b: seq<int>, t: int)
    ensures InHour(a + b, t) == InHour(a, t) + InHour(b, t)
  {
    if b == [] {
      assert a + b == a;
    } else {
      var n := |b| - 1;
      assert (a + b)[..|a + b| - 1] == a + b[..n];
      InHourAdds(a, b[..n], t);
    }
  }

  ghost function Indices(times: seq<int>, t: int): set<int> {
    set i | 0 <= i < |times| && t - HOUR_MS < times[i] <= t
  }

  lemma OneMoreIndex(times: seq<int>, time: int, t: int)
    ensures Indices(times + [time], t) == Indices(times, t) + if t - HOUR_MS < time <= t then {|times|} else {}
    ensures |times| !in Indices(times, t)
  {
  }

  lemma {:induction false} InHourCounts(times: seq<int>, t: int)
    ensures InHour(times, t) == |Indices(times, t)|
  {
    hide Indices;
    if times == [] {
      assert Indices(times, t) == {} by { NoIndices(t); }
    } else {
      var n := |times| - 1;
      InHourCounts(times[..n], t);
      OneMoreIndex(times[..n], times[n], t);
      assert times[..n] + [times[n]] == times;
    }
  }

  lemma NoIndices(t: int)
    ensures Indices([], t) == {}
  {
  }

  /** The dropped and the queued publishes of an hour are all of them. */
  lemma WindowSplits(w: World, now: int, t: int)
    requires QueueInv(w)
    ensures |Window(w, t)| == InHour(Forgotten(w, now), t) + InHour(Prune(w.publishes, now), t)
  {
    hide InHour, Prune;
    PruneDropsOld(w.publishes, now);
    var queue, dropped := Prune(w.publishes, now), Forgotten(w, now);
    assert dropped + queue == w.published;
    InHourAdds(dropped, queue, t);
    InHourCounts(w.published, t);
    assert Window(w, t) == Indices(w.published, t);
  }

  lemma WindowGrows(w: World, w': World, now: int, t: int)
    requires w'.published == w.published + [now]
    ensures |Window(w', t)| == |Window(w, t)| + if now <= t < now + HOUR_MS then 1 else 0
  {
    var n := |w.published|;
    assert Window(w', t) == Window(w, t) + if now <= t < now + HOUR_MS then {n} else {};
  }

  lemma StepPublished(w: World, limit: nat, e: Event)
    ensures Admitted(w, limit, e) ==> Step(w, limit, e).published == w.published + [e.now]
    ensures !Admitted(w, limit, e) ==>
              Step(w, limit, e).published == w.published || Step(w, limit, e).published == []
  {
    hide Prune, NextVersion, Read;
  }

  lemma StepKeepsQueue(w: World, limit: nat, e: Event)
    requires QueueInv(w)
    ensures QueueInv(Step(w, limit, e))
  {
    hide Prune, NextVersion, Read, QueueInv;
    var w' := Step(w, limit, e);
    if e.Publish? || e.Status? {
      PrunedKeepsQueue(w, e.now);
      QueueStays(Pruned(w, e.now), w', e.now);
    }
    QueueStays(w, w', 0);
  }

  lemma PrunedKeepsQueue(w: World, now: int)
    requires QueueInv(w)
    ensures QueueInv(Pruned(w, now))
  {
    hide Prune;
    PruneDropsOld(w.publishes, now);
    var still := Dropped(Pruned(w, now));
    assert w.published[Dropped(w)..][still - Dropped(w)..] == w.published[still..];
  }

  lemma QueueStays(w: World, w': World, now: int)
    requires QueueInv(w)
    ensures w'.publishes == w.publishes && w'.published == w.published ==> QueueInv(w')
    ensures w'.publishes == [] && w'.published == [] ==> QueueInv(w')
    ensures w'.publishes == w.publishes + [now] && w'.published == w.published + [now] ==> QueueInv(w')
  {
    assert (w.published + [now])[Dropped(w)..] == w.published[Dropped(w)..] + [now];
  }

  /** One event keeps every hour within the limit exactly when it has room in the hours it counts in. */
  lemma StepWithinExactly(w: World, limit: nat, e: Event)
    requires QueueInv(w) && WithinLimit(w, limit)
    ensures WithinLimit(Step(w, limit, e), limit) <==> HasRoom(w, limit, e)
  {
    hide Step, Window, InHour, Admitted, Prune, QueueInv;
    var w' := Step(w, limit, e);
    StepPublished(w, limit, e);
    if Admitted(w, limit, e) {
      IsPublish(w, limit, e);
      forall t
        ensures |Window(w', t)| == |Window(w, t)| + if e.now <= t < e.now + HOUR_MS then 1 else 0
        ensures |Window(w, t)| == InHour(Forgotten(w, e.now), t) + InHour(Prune(w.publishes, e.now), t)
      {
        WindowGrows(w, w', e.now, t);
        WindowSplits(w, e.now, t);
      }
    } else {
      forall t ensures |Window(w', t)| <= limit { SameWindow(w, w', t); }
    }
  }

  lemma IsPublish(w: World, limit: nat, e: Event)
    requires Admitted(w, limit, e)
    ensures e.Publish?
  {
  }

  lemma {:induction false} InHourAtMost(times: seq<int>, t: int)
    ensures InHour(times, t) <= |times|
    ensures (forall i :: 0 <= i < |times| ==> !(t - HOUR_MS < times[i] <= t)) ==> InHour(times, t) == 0
  {
    if times != [] { InHourAtMost(times[..|times| - 1], t); }
  }

  /** A settled publish has room: nothing dropped counts in its hours, and the queue is below the limit. */
  lemma SettledHasRoom(w: World, limit: nat, e: Event)
    requires QueueInv(w) && Settled(w, e)
    ensures HasRoom(w, limit, e)
  {
    hide InHour, Prune, NextVersion;
    if Admitted(w, limit, e) {
      var dropped := Forgotten(w, e.now);
      PruneDropsOld(w.publishes, e.now);
      forall i | 0 <= i < |dropped| ensures HourApart(dropped[i], e.now) {
        if i >= Dropped(w) { assert dropped[i] == w.publishes[i - Dropped(w)]; }
      }
      forall t | e.now <= t < e.now + HOUR_MS
        ensures InHour(dropped, t) < limit - InHour(Prune(w.publishes, e.now), t)
      {
        InHourAtMost(dropped, t);
        InHourAtMost(Prune(w.publishes, e.now), t);
      }
    }
  }

  lemma SameWindow(w: World, w': World, t: int)
    requires w'.published == w.published || w'.published == []
    ensures |Window(w', t)| <= |Window(w, t)|
  {
    if w'.published == w.published {
      assert Window(w', t) == Window(w, t);
    } else {
      assert Window(w', t) == {};
    }
  }

  lemma RunEnds(w: World, limit: nat, events: seq<Event>)
    ensures events == [] ==> Run(w, limit, events) == w
    ensures events != [] ==>
              var n := |events| - 1; Run(w, limit, events) == Step(Run(w, limit, events[..n]), limit, events[n])
  {
    hide Step;
  }

  lemma {:induction false} RunKeepsQueue(w: World, limit: nat, events: seq<Event>)
    requires QueueInv(w)
    ensures QueueInv(Run(w, limit, events))
  {
    hide QueueInv, Step;
    if events != [] {
      RunKeepsQueue(w, limit, events[..|events| - 1]);
      StepKeepsQueue(Run(w, limit, events[..|events| - 1]), limit, events[|events| - 1]);
    }
  }

  /** Over a whole run: no hour is ever over the limit if and only if each publish let through had room. */
  lemma {:induction false} WithinExactly(w: World, limit: nat, events: seq<Event>)
    requires QueueInv(w) && WithinLimit(w, limit)
    ensures (forall i :: 0 <= i <= |events| ==> WithinLimit(Run(w, limit, events[..i]), limit)) <==>
            (forall i :: 0 <= i < |events| ==> HasRoom(Run(w, limit, events[..i]), limit, events[i]))
  {
    hide WithinLimit, HasRoom, Step, Run, QueueInv;
    RunEnds(w, limit, events);
    if events == [] {
      assert forall i :: 0 <= i <= |events| ==> events[..i] == [];
    } else {
      var n := |events| - 1;
      PrefixRuns(events);
      WithinExactly(w, limit, events[..n]);
      assert events[..n + 1] == events;
      RunKeepsQueue(w, limit, events[..n]);
      if WithinLimit(Run(w, limit, events[..n]), limit) {
        StepWithinExactly(Run(w, limit, events[..n]), limit, events[n]);
      }
    }
  }

  /** Whatever the times, the queue never holds more than the limit. */
  lemma {:induction false} QueueWithinLimit(w: World, limit: nat, events: seq<Event>)
    requires |w.publishes| <= limit
    ensures |Run(w, limit, events).publishes| <= limit
  {
    hide Read, NextVersion;
    if events != [] {
      var n := |events| - 1;
      QueueWithinLimit(w, limit, events[..n]);
      var before := Run(w, limit, events[..n]);
      match events[n]
      case Publish(_, now, _, _, _) => PruneShrinks(before.publishes, now);
      case Status(now) => PruneShrinks(before.publishes, now);
      case _ =>
    }
  }

  /** A publish at 0, a status write at one hour, and a publish stamped a millisecond earlier. */
  const LATE := [Publish(SITE, 0, 0, NoFault, Renamed), Status(HOUR_MS),
                 Publish(SITE, HOUR_MS - 1, 0, NoFault, Renamed)]

  predicate FreshProcess(w: World) {
    && w.sets.Some? && SITE in w.sets.value && w.sets.value[SITE].version < U64_MAX - 1
    && w.publishes == [] && w.published == [] && w.clock == None
  }

  lemma LateFirst(w: World)
    requires FreshProcess(w)
    ensures var w2 := Step(Step(w, 1, LATE[0]), 1, LATE[1]);
            w2.publishes == [] && w2.published == [0] && NextVersion(w2.sets, SITE).Some?
  {
    hide PublishStep;
    PublishHandsOut(w, 1, SITE, 0, 0);
    var w1 := Step(w, 1, LATE[0]);
    assert w1.publishes == [0] && w1.publishes[1..] == [];
    assert Prune(w1.publishes, HOUR_MS) == Prune(w1.publishes[1..], HOUR_MS) == [];
  }

  /**
   A time taken before waiting for the lock can beat the limit: with one publish an hour allowed,
   the late run has two publishes within one hour. Up to the last event it is settled; the last
   one is not, since what the status write dropped is less than an hour before it.
   */
  lemma LateTimestampsBeatTheLimit(w: World)
    requires FreshProcess(w)
    ensures |Window(Run(w, 1, LATE), HOUR_MS - 1)| == 2
    ensures SettledRun(w, 1, LATE[..2]) && !Settled(Run(w, 1, LATE[..2]), LATE[2])
  {
    hide Step, Run, NextVersion, FreshProcess;
    ThreeSteps(w, 1, LATE);
    FirstRuns(w, 1, LATE);
    LateFirst(w);
    var w1 := Step(w, 1, LATE[0]);
    var w2 := Step(w1, 1, LATE[1]);
    assert |Prune(w2.publishes, HOUR_MS - 1)| == 0;
    PublishHandsOut(w2, 1, SITE, HOUR_MS - 1, 0);
    var w3 := Step(w2, 1, LATE[2]);
    assert w3.published == [0, HOUR_MS - 1];
    assert Window(w3, HOUR_MS - 1) == {0, 1};
    assert !Settled(w2, LATE[2]) by { assert w2.published[0] == 0; }
    NothingPublished(w);
    FirstTwoSettle(w, w1, LATE);
  }

  lemma NothingPublished(w: World)
    requires FreshProcess(w)
    ensures w.published == []
  {
  }

  lemma FirstTwoSettle(w: World, w1: World, events: seq<Event>)
    requires |events| == 3 && events[1].Status? && w.published == [] && w1 == Step(w, 1, events[0])
    ensures SettledRun(w, 1, events[..2])
  {
    hide Run, Step;
    FirstRuns(w, 1, events);
    assert events[..2][..0] == events[..0] && events[..2][..1] == events[..1];
  }

  // ---- the signer's own code --------------------------------------------------------------

  /** `State` behind its lock, with the disk it writes to. */
  class State {
    var sets: Option<Versions>
    var publishes: seq<int>
    var visible: File
    var durable: File
    ghost var handed: map<string, seq<nat>>
    ghost var published: seq<int>
    ghost var clock: Option<int>

    ghost function View(): World
      reads this
    {
      World(sets, publishes, visible, durable, handed, published, clock)
    }

    /** Opens the state a disk holds; nothing was handed out yet. */
    constructor (file: File)
      ensures View() == World(Read(file), [], file, file, map[], [], None)
      ensures Inv(View()) && forall limit: nat :: RateInv(View(), limit)
    {
      sets, publishes, visible, durable := Read(file), [], file, file;
      handed, published, clock := map[], [], None;
    }

    /** Drops what is an hour old and counts what is left. */
    method PublishesThisHour(now: int) returns (n: nat)
      modifies this`publishes, this`clock
      ensures View() == Pruned(old(View()), now) && n == |publishes|
    {
      while publishes != [] && publishes[0] <= now - HOUR_MS
        invariant Prune(publishes, now) == old(Prune(publishes, now))
        decreases |publishes|
      {
        publishes := publishes[1..];
      }
      clock := Some(now);
      n := |publishes|;
    }

    /** Makes a signed version durable; only then does it count as handed out. */
    method RecordSigned(ruleSet: string, version: nat, expires: int, now: int, fault: Fault) returns (recorded: bool)
      requires sets.Some? && !fault.SignRefused?
      modifies this
      ensures recorded <==> fault.NoFault?
      ensures View() ==
              var written := old(sets.value)[ruleSet := SetState(version, Some(expires))];
              var files := Written(old(View()), written, fault);
              if recorded
              then files.(sets := Some(written), publishes := old(publishes) + [now],
                          handed := old(handed)[ruleSet := Handed(old(View()), ruleSet) + [version]],
                          published := old(published) + [now])
              else files
    {
      var next := sets.value[ruleSet := SetState(version, Some(expires))];
      if fault in {RulesNotWritten, VersionsNotRenamed, CrashBeforeRename} {
        return false;
      }
      visible := Holds(next);
      if fault in {VersionsNotSynced, CrashAfterRename} {
        return false;
      }
      durable := Holds(next);
      if fault == CrashAfterSync {
        return false;
      }
      handed := handed[ruleSet := Handed(View(), ruleSet) + [version]];
      published := published + [now];
      sets := Some(next);
      publishes := publishes + [now];
      return true;
    }

    /** A new process reads what the disk gives it. */
    method Open(survivor: Survivor)
      modifies this
      ensures View() == Reopen(old(View()), survivor)
    {
      if survivor.Synced? {
        visible := durable;
      }
      sets, publishes := Read(visible), [];
      published, clock := [], None;
    }

    /** The part of `check_and_sign` under the lock: rate, version, signature, and recording it. */
    method CheckAndSign(limit: nat, ruleSet: string, now: int, expires: int, fault: Fault, survivor: Survivor)
                        returns (answer: Result<nat, Refusal>)
      modifies this
      ensures (View(), answer) == PublishStep(old(View()), limit, ruleSet, now, expires, fault, survivor)
      ensures answer.Ok? ==> answer.value in handed[ruleSet]
    {
      if ruleSet != SITE && ruleSet != SITE_ALARMS {
        return Err(Invalid);
      }
      var recent := PublishesThisHour(now);
      if recent >= limit {
        return Err(Rate);
      }
      var version := NextVersion(sets, ruleSet);
      if version.None? {
        return Err(VersionState);
      }
      if fault == SignRefused {
        return Err(Invalid);
      }
      var recorded := RecordSigned(ruleSet, version.value, expires, now, fault);
      if fault in {CrashBeforeRename, CrashAfterRename, CrashAfterSync} {
        Open(survivor);
      }
      return if recorded then Ok(version.value) else Err(Unavailable);
    }

    /** Setup's seed: it never replaces a readable file. */
    method SeedVersions(minVersion: nat, fault: Fault) returns (seeded: bool)
      modifies this`visible, this`durable
      ensures View() == SeedStep(old(View()), minVersion, fault)
      ensures Read(old(visible)).Some? ==> visible == old(visible) && !seeded
    {
      if minVersion == 0 || Read(visible).Some? {
        return false;
      }
      var last := SetState(minVersion - 1, None);
      var file := Holds(map[SITE := last, SITE_ALARMS := last]);
      if fault in {NoFault, CrashAfterSync, VersionsNotSynced, CrashAfterRename} {
        visible := file;
      }
      if fault in {NoFault, CrashAfterSync} {
        durable := file;
      }
      return fault == NoFault;
    }
  }
}
