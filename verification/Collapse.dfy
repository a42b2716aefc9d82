/**
 The collapsing map of `openvibes-netlog/src/collapse.rs`, which is also the retry buffer: events
 of one device, signature and source are counted into one alarm until a quiet window passes, and
 only alarms the database has answered for may leave. The runs below interleave adding events, taking a
 batch of changed alarms, the database accepting or skipping alarms of a batch, and marking a batch stored.
 */
module Collapse {
  import opened Basics

  type Address = string

  datatype Device = Device(id: int)

  datatype Ips = Ips(signature: string, src: Address, severity: string, message: string, network: string,
                     unknownRisk: Option<string>)

  datatype Key = Key(device: Device, signature: string, src: Address)

  /** `<signature>/<source>/<milliseconds>`. */
  datatype AlarmId = AlarmId(signature: string, src: Address, millis: int)

  datatype Alarm = Alarm(device: Device, id: AlarmId, ruleId: string, severity: string, confidence: int,
                         message: string, firstSeen: int, lastSeen: int, count: nat, network: string)

  datatype Entry = Entry(alarm: Alarm, dirty: bool)

  /** What names a row of the database. */
  datatype Ref = Ref(device: Device, id: AlarmId)

  /** What `stored` compares. */
  datatype Mark = Mark(row: Ref, count: nat)

  type Open = map<Key, Entry>

  // ---- one event --------------------------------------------------------------------------

  /** Times are in nanoseconds. */
  function Millis(now: int): int {
    now / 1_000_000
  }

  function KeyOf(device: Device, ips: Ips): Key {
    Key(device, ips.signature, ips.src)
  }

  function NewAlarm(device: Device, ips: Ips, now: int): Alarm {
    Alarm(device, AlarmId(ips.signature, ips.src, Millis(now)), "ips." + ips.signature, ips.severity, 80,
          ips.message, now, now, 1, ips.network)
  }

  function Bumped(alarm: Alarm, ips: Ips, now: int): Alarm {
    alarm.(count := alarm.count + 1, lastSeen := now, network := ips.network)
  }

  function RefOf(alarm: Alarm): Ref {
    Ref(alarm.device, alarm.id)
  }

  function MarkOf(alarm: Alarm): Mark {
    Mark(RefOf(alarm), alarm.count)
  }

  /** Stored entries that have been quiet for the window go. */
  function Kept(open: Open, window: int, now: int): Open {
    map k | k in open && (open[k].dirty || open[k].alarm.lastSeen + window > now) :: open[k]
  }

  predicate Oldest(open: Open, k: Key) {
    k in open && !open[k].dirty && forall j :: j in open && !open[j].dirty ==>
      open[k].alarm.lastSeen <= open[j].alarm.lastSeen
  }

  /** Whether `evicted` may be what a full map gives up for `key`: one of its oldest stored entries, if it has any. */
  predicate MayEvict(kept: Open, maxKeys: nat, key: Key, evicted: Option<Key>) {
    if key in kept || |kept| < maxKeys then evicted.None?
    else if evicted.None? then forall k :: k in kept ==> kept[k].dirty
    else Oldest(kept, evicted.value)
  }

  predicate Accepts(kept: Open, maxKeys: nat, key: Key, evicted: Option<Key>) {
    key in kept || |kept| < maxKeys || evicted.Some?
  }

  function Added(kept: Open, maxKeys: nat, device: Device, ips: Ips, now: int, evicted: Option<Key>): Open {
    var key := KeyOf(device, ips);
    if key in kept then kept[key := Entry(Bumped(kept[key].alarm, ips, now), true)]
    else if !Accepts(kept, maxKeys, key, evicted) then kept
    else (if evicted.Some? then kept - {evicted.value} else kept)[key := Entry(NewAlarm(device, ips, now), true)]
  }

  /** The alarm an event was counted into. */
  function RefAdded(kept: Open, device: Device, ips: Ips, now: int): Ref {
    var key := KeyOf(device, ips);
    RefOf(if key in kept then kept[key].alarm else NewAlarm(device, ips, now))
  }

  function Cleaned(open: Open, batch: set<Mark>): Open {
    map k | k in open :: if MarkOf(open[k].alarm) in batch then open[k].(dirty := false) else open[k]
  }

  // ---- runs -------------------------------------------------------------------------------

  /**
   The map with its history: the alarm of every counted event, the alarms whose id was used twice,
   the marks handed out in batches, those the database accepted, those it skipped because their day has
   no partition, the skipped ones that were marked stored all the same, and its row counts.
   */
  datatype World = World(window: int, maxKeys: nat, open: Open, events: multiset<Ref>, restarted: set<Ref>,
                         taken: set<Mark>, accepted: set<Mark>, skipped: set<Mark>, missed: set<Mark>,
                         rows: multiset<Ref>)

  datatype Event =
    | Add(device: Device, ips: Ips, now: int, evicted: Option<Key>)
    | Take
    | Accept(mark: Mark)
    | Skip(mark: Mark)
    | Stored(batch: set<Mark>)

  function Dirty(open: Open): set<Alarm> {
    set k | k in open && open[k].dirty :: open[k].alarm
  }

  /** The marks a clean entry may have: there is a row for them, or they were skipped. */
  ghost function Answered(w: World): set<Mark> {
    w.accepted + w.missed
  }

  ghost predicate Legal(w: World, e: Event) {
    match e
    case Add(device, ips, now, evicted) => MayEvict(Kept(w.open, w.window, now), w.maxKeys, KeyOf(device, ips), evicted)
    case Take => true
    case Accept(mark) => mark in w.taken
    case Skip(mark) => mark in w.taken
    case Stored(batch) => batch <= w.accepted + w.skipped
  }

  function Max(a: nat, b: nat): nat {
    if a < b then b else a
  }

  ghost function AfterAdd(w: World, device: Device, ips: Ips, now: int, evicted: Option<Key>): World {
    var kept, key := Kept(w.open, w.window, now), KeyOf(device, ips);
    var row := RefAdded(kept, device, ips, now);
    var w' := w.(open := Added(kept, w.maxKeys, device, ips, now, evicted));
    if !Accepts(kept, w.maxKeys, key, evicted) then w'
    else w'.(events := w.events + multiset{row},
             restarted := if key !in kept && row in w.events then w.restarted + {row} else w.restarted)
  }

  ghost function After(w: World, e: Event): World {
    match e
    case Add(device, ips, now, evicted) => AfterAdd(w, device, ips, now, evicted)
    case Take => w.(taken := w.taken + set a | a in Dirty(w.open) :: MarkOf(a))
    case Accept(mark) =>
        w.(accepted := w.accepted + {mark}, rows := w.rows[mark.row := Max(w.rows[mark.row], mark.count)])
    case Skip(mark) => w.(skipped := w.skipped + {mark})
    case Stored(batch) => w.(open := Cleaned(w.open, batch), missed := w.missed + (batch - w.accepted))
  }

  ghost predicate IsRun(w: World, run: seq<Event>)
    decreases |run|
  {
    run == [] || (Legal(w, run[0]) && IsRun(After(w, run[0]), run[1..]))
  }

  ghost function AfterAll(w: World, run: seq<Event>): World
    decreases |run|
  {
    if run == [] then w else AfterAll(After(w, run[0]), run[1..])
  }

  ghost predicate Start(w: World) {
    w.open == map[] && w.events == multiset{} && w.rows == multiset{} && w.restarted == {} && w.taken == {}
      && w.accepted == {} && w.skipped == {} && w.missed == {}
  }

  // ---- what every step keeps -----------------------------------------------------------------

  /** Counts of an alarm stay within its events, and below them once its id was used twice. */
  ghost predicate Within(w: World, m: Mark) {
    0 < m.count <= w.events[m.row] && (m.row in w.restarted ==> m.count < w.events[m.row])
  }

  /** An entry holds the alarm of its key with all its events, and a clean one was answered as it is. */
  ghost predicate EntryOk(w: World, k: Key, e: Entry) {
    && e.alarm.device == k.device && e.alarm.id.signature == k.signature && e.alarm.id.src == k.src
    && Within(w, MarkOf(e.alarm))
    && (RefOf(e.alarm) !in w.restarted ==> e.alarm.count == w.events[RefOf(e.alarm)])
    && (!e.dirty ==> MarkOf(e.alarm) in Answered(w))
  }

  ghost predicate OpenInv(w: World) {
    |w.open| <= w.maxKeys && forall k :: k in w.open ==> EntryOk(w, k, w.open[k])
  }

  ghost predicate RowInv(w: World) {
    && (forall m :: m in w.taken ==> Within(w, m))
    && w.accepted <= w.taken && w.missed <= w.skipped
    && (forall m :: m in w.accepted ==> m.count <= w.rows[m.row])
    && (forall row :: row in w.rows ==> Mark(row, w.rows[row]) in w.accepted)
    && (forall row :: row in w.restarted ==> row in w.events)
  }

  ghost predicate IsOpen(open: Open, row: Ref) {
    exists k :: k in open && RefOf(open[k].alarm) == row
  }

  /** The mark of an alarm with every event counted into it. */
  ghost function LastMark(w: World, row: Ref): Mark {
    Mark(row, w.events[row])
  }

  /** An alarm left the map only after the database answered for every event counted into it. */
  ghost predicate GoneInv(w: World) {
    forall row :: row in w.events && row !in w.restarted && !IsOpen(w.open, row) ==> LastMark(w, row) in Answered(w)
  }

  ghost predicate Inv(w: World) {
    OpenInv(w) && RowInv(w) && GoneInv(w)
  }

  lemma StartInv(w: World)
    requires Start(w)
    ensures Inv(w)
  {
  }

  lemma {:induction false} SubsetSize<T>(a: set<T>, b: set<T>)
    requires a <= b
    ensures |a| <= |b|
    decreases a
  {
    if a != {} {
      var x :| x in a;
      SubsetSize(a - {x}, b - {x});
    }
  }

  /** `less` is `open` without some stored entries. */
  ghost predicate Drops(open: Open, less: Open) {
    && less.Keys <= open.Keys
    && (forall k :: k in less ==> less[k] == open[k])
    && (forall k :: k in open && k !in less ==> !open[k].dirty)
  }

  lemma SameHistory(w: World, w': World)
    requires w.events == w'.events && w.restarted == w'.restarted
    ensures forall m :: Within(w, m) == Within(w', m)
    ensures Answered(w) <= Answered(w') ==> forall k, e :: EntryOk(w, k, e) ==> EntryOk(w', k, e)
  {
  }

  /** The database answered for all events of a clean alarm, unless its id was used twice. */
  lemma CleanIsAnswered(w: World, k: Key)
    requires OpenInv(w) && k in w.open && !w.open[k].dirty && RefOf(w.open[k].alarm) !in w.restarted
    ensures LastMark(w, RefOf(w.open[k].alarm)) in Answered(w)
  {
    assert EntryOk(w, k, w.open[k]);
  }

  lemma DropsKeepInv(w: World, less: Open)
    requires Inv(w) && Drops(w.open, less)
    ensures Inv(w.(open := less))
  {
    hide Within, MarkOf, EntryOk, RefOf;
    var w' := w.(open := less);
    SubsetSize(less.Keys, w.open.Keys);
    SameHistory(w, w');
    forall row | row in w.events && row !in w.restarted && !IsOpen(less, row)
      ensures LastMark(w, row) in Answered(w)
    {
      if IsOpen(w.open, row) {
        var k :| k in w.open && RefOf(w.open[k].alarm) == row;
        CleanIsAnswered(w, k);
      }
    }
  }

  /** `w'` has one more event than `w`, of the alarm `row`. */
  ghost predicate OneMore(w: World, w': World, row: Ref) {
    && w'.events == w.events + multiset{row}
    && w.restarted <= w'.restarted <= w.restarted + {row} && (row in w'.restarted ==> row in w.events)
    && w'.accepted == w.accepted && w'.skipped == w.skipped && w'.missed == w.missed
    && w'.taken == w.taken && w'.rows == w.rows && w'.maxKeys == w.maxKeys
  }

  lemma MarksStayWithin(w: World, w': World, row: Ref)
    requires OneMore(w, w', row)
    ensures forall m :: Within(w, m) ==> Within(w', m)
  {
    forall m | Within(w, m) ensures Within(w', m) {
      if m.row == row { assert w'.events[row] == w.events[row] + 1; }
    }
  }

  lemma OthersStayOk(w: World, w': World, row: Ref, k: Key, e: Entry)
    requires OneMore(w, w', row) && EntryOk(w, k, e) && RefOf(e.alarm) != row
    ensures EntryOk(w', k, e)
  {
    MarksStayWithin(w, w', row);
  }

  lemma RowsStayOk(w: World, w': World, row: Ref)
    requires RowInv(w) && OneMore(w, w', row)
    ensures RowInv(w')
  {
    hide Within;
    MarksStayWithin(w, w', row);
  }

  lemma GoneStayGone(w: World, w': World, row: Ref)
    requires GoneInv(w) && OneMore(w, w', row) && IsOpen(w'.open, row)
    requires forall r :: IsOpen(w.open, r) ==> IsOpen(w'.open, r)
    ensures GoneInv(w')
  {
    hide IsOpen;
    forall r | r in w'.events && r !in w'.restarted && !IsOpen(w'.open, r)
      ensures LastMark(w', r) in Answered(w')
    {
      assert r != row;
    }
  }

  lemma StaysOpen(open: Open, open': Open)
    requires open.Keys <= open'.Keys && forall k :: k in open ==> RefOf(open'[k].alarm) == RefOf(open[k].alarm)
    ensures forall r :: IsOpen(open, r) ==> IsOpen(open', r)
  {
    hide RefOf;
  }

  lemma BumpKeepsInv(w: World, key: Key, alarm: Alarm)
    requires Inv(w) && key in w.open
    requires RefOf(alarm) == RefOf(w.open[key].alarm) && alarm.count == w.open[key].alarm.count + 1
    ensures Inv(w.(open := w.open[key := Entry(alarm, true)], events := w.events + multiset{RefOf(alarm)}))
  {
    hide EntryOk, IsOpen, RefOf, RowInv, GoneInv, Within;
    var row := RefOf(alarm);
    var w' := w.(open := w.open[key := Entry(alarm, true)], events := w.events + multiset{row});
    assert w'.open.Keys == w.open.Keys;
    assert EntryOk(w, key, w.open[key]);
    KnownRow(w, key, w.open[key]);
    assert OneMore(w, w', row) by { RestartedKnown(w); }
    forall k | k in w'.open ensures EntryOk(w', k, w'.open[k]) {
      if k == key {
        BumpedStaysOk(w, w', key, w.open[key], alarm);
      } else {
        DistinctRows(w, k, key);
        OthersStayOk(w, w', row, k, w.open[k]);
      }
    }
    StaysOpen(w.open, w'.open);
    HasOpen(w'.open, key);
    RowsStayOk(w, w', row);
    GoneStayGone(w, w', row);
  }

  lemma HasOpen(open: Open, k: Key)
    requires k in open
    ensures IsOpen(open, RefOf(open[k].alarm))
  {
  }

  lemma RestartedKnown(w: World)
    requires RowInv(w)
    ensures forall row :: row in w.restarted ==> row in w.events
  {
  }

  lemma KnownRow(w: World, k: Key, e: Entry)
    requires EntryOk(w, k, e)
    ensures RefOf(e.alarm) in w.events
  {
  }

  lemma DistinctRows(w: World, j: Key, k: Key)
    requires j in w.open && k in w.open && j != k && EntryOk(w, j, w.open[j]) && EntryOk(w, k, w.open[k])
    ensures RefOf(w.open[j].alarm) != RefOf(w.open[k].alarm)
  {
  }

  lemma BumpedStaysOk(w: World, w': World, k: Key, e: Entry, alarm: Alarm)
    requires EntryOk(w, k, e) && OneMore(w, w', RefOf(alarm)) && w'.restarted == w.restarted
    requires RefOf(alarm) == RefOf(e.alarm) && alarm.count == e.alarm.count + 1
    ensures EntryOk(w', k, Entry(alarm, true))
  {
    assert w'.events[RefOf(alarm)] == w.events[RefOf(alarm)] + 1;
  }

  ghost function Started(w: World, key: Key, alarm: Alarm): World {
    var row := RefOf(alarm);
    w.(open := w.open[key := Entry(alarm, true)], events := w.events + multiset{row},
       restarted := if row in w.events then w.restarted + {row} else w.restarted)
  }

  lemma NewKeepsInv(w: World, key: Key, alarm: Alarm)
    requires Inv(w) && key !in w.open && |w.open| < w.maxKeys && alarm.count == 1
    requires alarm.device == key.device && alarm.id.signature == key.signature && alarm.id.src == key.src
    ensures Inv(Started(w, key, alarm))
  {
    hide EntryOk, IsOpen, RowInv, GoneInv, Within;
    var row, w' := RefOf(alarm), Started(w, key, alarm);
    assert w'.open.Keys == w.open.Keys + {key};
    assert OneMore(w, w', row) by { RestartedKnown(w); }
    forall k | k in w'.open ensures EntryOk(w', k, w'.open[k]) {
      if k == key {
        NewIsOk(w, key, alarm);
      } else {
        NotTheNew(w, k, key, row);
        OthersStayOk(w, w', row, k, w.open[k]);
      }
    }
    StaysOpen(w.open, w'.open);
    HasOpen(w'.open, key);
    RowsStayOk(w, w', row);
    GoneStayGone(w, w', row);
  }

  lemma NotTheNew(w: World, k: Key, key: Key, row: Ref)
    requires k in w.open && EntryOk(w, k, w.open[k]) && k != key
    requires row.device == key.device && row.id.signature == key.signature && row.id.src == key.src
    ensures RefOf(w.open[k].alarm) != row
  {
  }

  lemma NewIsOk(w: World, key: Key, alarm: Alarm)
    requires RowInv(w) && alarm.count == 1
    requires alarm.device == key.device && alarm.id.signature == key.signature && alarm.id.src == key.src
    ensures EntryOk(Started(w, key, alarm), key, Entry(alarm, true))
  {
    assert Started(w, key, alarm).events[RefOf(alarm)] == w.events[RefOf(alarm)] + 1;
  }

  lemma AddKeepsInv(w: World, device: Device, ips: Ips, now: int, evicted: Option<Key>)
    requires Inv(w) && Legal(w, Add(device, ips, now, evicted))
    ensures Inv(AfterAdd(w, device, ips, now, evicted))
  {
    hide Inv, Kept, Oldest;
    var kept, key := Kept(w.open, w.window, now), KeyOf(device, ips);
    var w1 := w.(open := kept);
    ExpiryDrops(w.open, w.window, now);
    DropsKeepInv(w, kept);
    if key in kept {
      BumpKeepsInv(w1, key, Bumped(kept[key].alarm, ips, now));
    } else if Accepts(kept, w.maxKeys, key, evicted) {
      var room := if evicted.Some? then kept - {evicted.value} else kept;
      RoomDrops(w1, room, evicted, key);
      DropsKeepInv(w1, room);
      NewKeepsInv(w1.(open := room), key, NewAlarm(device, ips, now));
    }
  }

  lemma ExpiryDrops(open: Open, window: int, now: int)
    ensures Drops(open, Kept(open, window, now))
  {
  }

  lemma RoomDrops(w: World, room: Open, evicted: Option<Key>, key: Key)
    requires Inv(w) && key !in w.open && MayEvict(w.open, w.maxKeys, key, evicted)
             && Accepts(w.open, w.maxKeys, key, evicted)
    requires room == if evicted.Some? then w.open - {evicted.value} else w.open
    ensures Drops(w.open, room) && |room| < w.maxKeys && key !in room
  {
    if evicted.Some? { assert room.Keys == w.open.Keys - {evicted.value}; }
  }

  lemma TakeKeepsInv(w: World)
    requires Inv(w)
    ensures Inv(After(w, Take))
  {
    hide EntryOk, IsOpen;
    var w' := After(w, Take);
    SameHistory(w, w');
    forall m | m in w'.taken ensures Within(w, m) {
      if m !in w.taken {
        var a :| a in Dirty(w.open) && m == MarkOf(a);
        var k :| k in w.open && w.open[k].alarm == a;
        EntryWithin(w, k);
      }
    }
  }

  lemma EntryWithin(w: World, k: Key)
    requires OpenInv(w) && k in w.open
    ensures Within(w, MarkOf(w.open[k].alarm))
  {
    assert EntryOk(w, k, w.open[k]);
  }

  lemma AcceptKeepsInv(w: World, mark: Mark)
    requires Inv(w) && mark in w.taken
    ensures Inv(After(w, Accept(mark)))
  {
    hide EntryOk, IsOpen, RowInv;
    var w' := After(w, Accept(mark));
    SameHistory(w, w');
    AcceptKeepsRows(w, mark);
  }

  lemma AcceptKeepsRows(w: World, mark: Mark)
    requires RowInv(w) && mark in w.taken
    ensures RowInv(After(w, Accept(mark)))
  {
    var w' := After(w, Accept(mark));
    SameHistory(w, w');
    assert Within(w, mark);
    forall row | row in w'.rows ensures Mark(row, w'.rows[row]) in w'.accepted {
      assert row != mark.row ==> row in w.rows;
    }
  }

  lemma SkipKeepsInv(w: World, mark: Mark)
    requires Inv(w) && mark in w.taken
    ensures Inv(After(w, Skip(mark)))
  {
    hide EntryOk, IsOpen, Within;
    SameHistory(w, After(w, Skip(mark)));
  }

  lemma StoredKeepsInv(w: World, batch: set<Mark>)
    requires Inv(w) && batch <= w.accepted + w.skipped
    ensures Inv(After(w, Stored(batch)))
  {
    hide Within, EntryOk, IsOpen, RefOf, MarkOf;
    var w' := After(w, Stored(batch));
    assert w'.open.Keys == w.open.Keys;
    SameHistory(w, w');
    forall k | k in w'.open ensures EntryOk(w', k, w'.open[k]) {
      if MarkOf(w.open[k].alarm) in batch { StoredStaysOk(w', k, w.open[k]); }
    }
    StaysOpen(w.open, w'.open);
  }

  lemma StoredStaysOk(w: World, k: Key, e: Entry)
    requires EntryOk(w, k, e) && MarkOf(e.alarm) in Answered(w)
    ensures EntryOk(w, k, e.(dirty := false))
  {
  }

  lemma StepKeepsInv(w: World, e: Event)
    requires Inv(w) && Legal(w, e)
    ensures Inv(After(w, e))
  {
    hide Inv, AfterAdd;
    match e
    case Add(device, ips, now, evicted) => AddKeepsInv(w, device, ips, now, evicted);
    case Take => TakeKeepsInv(w);
    case Accept(mark) => AcceptKeepsInv(w, mark);
    case Skip(mark) => SkipKeepsInv(w, mark);
    case Stored(batch) => StoredKeepsInv(w, batch);
  }

  lemma {:induction false} RunKeepsInv(w: World, run: seq<Event>)
    requires Inv(w) && IsRun(w, run)
    ensures Inv(AfterAll(w, run))
    decreases |run|
  {
    hide Inv, Legal, After;
    if run != [] {
      StepKeepsInv(w, run[0]);
      RunKeepsInv(After(w, run[0]), run[1..]);
    }
  }

  // ---- what holds after every run -------------------------------------------------------------

  lemma {:induction false} RunKeepsLimits(w: World, run: seq<Event>)
    ensures AfterAll(w, run).maxKeys == w.maxKeys
    decreases |run|
  {
    if run != [] { RunKeepsLimits(After(w, run[0]), run[1..]); }
  }

  /** The last mark of every alarm got a row. */
  ghost predicate LastAccepted(w: World) {
    forall row :: row in w.events ==> LastMark(w, row) in w.accepted
  }

  /** No alarm was marked stored, as it is now, without a row. */
  ghost predicate NoneMissed(w: World) {
    forall row :: row in w.events && LastMark(w, row) in w.missed ==> LastMark(w, row) in w.accepted
  }

  /**
   After every run the map is within its limit, the database answered for a clean entry with exactly its
   count, and for an alarm that left with all its events. A row holds all the events of its alarm exactly
   when the last mark of the alarm was accepted, so the database holds every counted event if and only if
   no alarm id was used twice and the last mark of every alarm was accepted; with nothing waiting the
   second half fails only for an alarm that was skipped and marked stored as it is now.
   */
  lemma NoAlarmIsLost(w: World, run: seq<Event>)
    requires Start(w) && IsRun(w, run)
    ensures var end := AfterAll(w, run);
            && |end.open| <= w.maxKeys
            && end.missed <= end.skipped
            && (forall k :: k in end.open && !end.open[k].dirty ==> MarkOf(end.open[k].alarm) in Answered(end))
            && (forall row :: row in end.events && row !in end.restarted && !IsOpen(end.open, row) ==>
              LastMark(end, row) in Answered(end))
            && (forall row :: row in end.events ==>
              (end.rows[row] == end.events[row] <==> LastMark(end, row) in end.accepted))
            && (end.rows == end.events <==> end.restarted == {} && LastAccepted(end))
            && (Dirty(end.open) == {} ==> (end.rows == end.events <==> end.restarted == {} && NoneMissed(end)))
  {
    hide IsRun, AfterAll, Start, IsOpen, Within;
    StartInv(w);
    RunKeepsInv(w, run);
    RunKeepsLimits(w, run);
    var end := AfterAll(w, run);
    forall row ensures row in end.events ==>
                         (end.rows[row] == end.events[row] <==> LastMark(end, row) in end.accepted)
    {
      RowOf(end, row);
    }
    AllStored(end);
  }

  /** A row holds all the events of its alarm exactly when the alarm's last mark was accepted. */
  lemma RowOf(w: World, row: Ref)
    requires RowInv(w)
    ensures w.rows[row] <= w.events[row]
    ensures row in w.events ==> (w.rows[row] == w.events[row] <==> LastMark(w, row) in w.accepted)
    ensures row in w.events && LastMark(w, row) in w.accepted ==> row !in w.restarted
  {
    if row in w.rows { assert Within(w, Mark(row, w.rows[row])); }
    if LastMark(w, row) in w.accepted { assert Within(w, LastMark(w, row)); }
  }

  lemma AllStored(w: World)
    requires Inv(w)
    ensures w.rows == w.events <==> w.restarted == {} && LastAccepted(w)
    ensures Dirty(w.open) == {} && w.restarted == {} ==> (LastAccepted(w) <==> NoneMissed(w))
  {
    hide EntryOk, IsOpen, Within, GoneInv, OpenInv;
    forall row ensures w.rows[row] <= w.events[row]
      ensures row in w.events ==> (w.rows[row] == w.events[row] <==> LastMark(w, row) in w.accepted)
      ensures row in w.events && LastMark(w, row) in w.accepted ==> row !in w.restarted
    {
      RowOf(w, row);
    }
    if Dirty(w.open) == {} && w.restarted == {} {
      forall row | row in w.events ensures LastMark(w, row) in Answered(w) { AnsweredInFull(w, row); }
    }
  }

  lemma AnsweredInFull(w: World, row: Ref)
    requires Inv(w) && Dirty(w.open) == {} && row in w.events && row !in w.restarted
    ensures LastMark(w, row) in Answered(w)
  {
    hide EntryOk, RowInv;
    if IsOpen(w.open, row) {
      var k :| k in w.open && RefOf(w.open[k].alarm) == row;
      assert w.open[k].alarm !in Dirty(w.open);
      CleanIsAnswered(w, k);
    }
  }

  /** An entry with something unstored stays, and only grows. */
  lemma OnlyStoredLeave(w: World, e: Event, k: Key)
    requires Inv(w) && Legal(w, e) && k in w.open && w.open[k].dirty
    ensures var open := After(w, e).open;
            k in open && RefOf(open[k].alarm) == RefOf(w.open[k].alarm) && open[k].alarm.count >= w.open[k].alarm.count
  {
    hide EntryOk, RowInv, GoneInv;
    match e
    case Add(device, ips, now, evicted) =>
      var kept := Kept(w.open, w.window, now);
      assert k in kept;
      assert evicted.Some? ==> !kept[evicted.value].dirty;
    case _ =>
  }

  /** The alarm an event starts. */
  ghost function StartOf(w: World, e: Event): Option<Ref> {
    match e
    case Add(device, ips, now, evicted) =>
      var kept, key := Kept(w.open, w.window, now), KeyOf(device, ips);
      if key !in kept && Accepts(kept, w.maxKeys, key, evicted) then Some(RefAdded(kept, device, ips, now)) else None
    case _ => None
  }

  ghost function Starts(w: World, run: seq<Event>): seq<Ref>
    decreases |run|
  {
    if run == [] then []
    else (if StartOf(w, run[0]).Some? then [StartOf(w, run[0]).value] else []) + Starts(After(w, run[0]), run[1..])
  }

  /** `rows` are distinct and none is known yet. */
  ghost predicate AllNew(rows: seq<Ref>, known: multiset<Ref>) {
    (forall i :: 0 <= i < |rows| ==> rows[i] !in known) && forall i, j :: 0 <= i < j < |rows| ==> rows[i] != rows[j]
  }

  lemma KeptIsOpen(open: Open, window: int, now: int)
    ensures forall k :: k in Kept(open, window, now) ==> k in open && Kept(open, window, now)[k] == open[k]
  {
  }

  lemma StepStarts(w: World, e: Event)
    requires Inv(w) && Legal(w, e)
    ensures var w', start := After(w, e), StartOf(w, e);
            && (forall row :: row in w'.events <==> row in w.events || start == Some(row))
            && w'.restarted == w.restarted + if start.Some? && start.value in w.events then {start.value} else {}
  {
    hide EntryOk, MayEvict, Accepts, GoneInv, RowInv, Added, Kept, Dirty, Cleaned, NewAlarm;
    if e.Add? {
      var kept, key := Kept(w.open, w.window, e.now), KeyOf(e.device, e.ips);
      KeptIsOpen(w.open, w.window, e.now);
      if key in kept {
        KnownRow(w, key, w.open[key]);
      }
    }
  }

  lemma AllNewStep(row: Ref, rest: seq<Ref>, known: multiset<Ref>, more: multiset<Ref>)
    requires forall r :: r in more <==> r in known || r == row
    ensures AllNew([row] + rest, known) <==> row !in known && AllNew(rest, more)
  {
    var rows := [row] + rest;
    assert forall i :: 0 < i < |rows| ==> rows[i] == rest[i - 1];
    assert rows[0] == row;
    if AllNew(rows, known) {
      forall i | 0 <= i < |rest| ensures rest[i] !in more { assert rows[i + 1] == rest[i] && rows[0] != rows[i + 1]; }
      forall i, j | 0 <= i < j < |rest| ensures rest[i] != rest[j] { assert rows[i + 1] != rows[j + 1]; }
    }
    if row !in known && AllNew(rest, more) {
      forall i | 0 <= i < |rows| ensures rows[i] !in known { assert i > 0 ==> rest[i - 1] !in more; }
      forall i, j | 0 <= i < j < |rows| ensures rows[i] != rows[j] { assert rest[j - 1] !in more; }
    }
  }

  /** An id is used twice exactly when two alarms of one device, signature and source start in the same millisecond. */
  lemma {:induction false} RestartsAreRepeats(w: World, run: seq<Event>)
    requires Inv(w) && IsRun(w, run)
    ensures AfterAll(w, run).restarted == {} <==> w.restarted == {} && AllNew(Starts(w, run), w.events)
    decreases |run|
  {
    hide Inv, Legal, After, StartOf, AllNew;
    if run == [] {
      assert AllNew([], w.events) by { NothingNew(w.events); }
    } else {
      var w' := After(w, run[0]);
      StepKeepsInv(w, run[0]);
      StepStarts(w, run[0]);
      RestartsAreRepeats(w', run[1..]);
      var start, rest := StartOf(w, run[0]), Starts(w', run[1..]);
      if start.Some? {
        AllNewStep(start.value, rest, w.events, w'.events);
      } else {
        assert [] + rest == rest;
        SameKnown(rest, w.events, w'.events);
      }
    }
  }

  lemma NothingNew(known: multiset<Ref>)
    ensures AllNew([], known)
  {
  }

  lemma SameKnown(rows: seq<Ref>, known: multiset<Ref>, known': multiset<Ref>)
    requires forall r :: r in known <==> r in known'
    ensures AllNew(rows, known) == AllNew(rows, known')
  {
  }

  // ---- what the database does with a batch ---------------------------------------------------

  /** The day an alarm is stored under, counted from the epoch. */
  function Day(alarm: Alarm): int {
    alarm.firstSeen / 86_400_000_000_000
  }

  /** Days begin at midnight, also before the epoch. */
  lemma DayIs(alarm: Alarm, day: int)
    ensures Day(alarm) == day <==>
            day * (24 * 60 * 60 * 1_000_000_000) <= alarm.firstSeen < (day + 1) * (24 * 60 * 60 * 1_000_000_000)
  {
  }

  ghost function AnswerTo(alarm: Alarm, partitions: int -> bool): Event {
    if partitions(Day(alarm)) then Accept(MarkOf(alarm)) else Skip(MarkOf(alarm))
  }

  /** `m` is the mark of an alarm of `batch` whose day has a partition, or has none. */
  ghost predicate IsAnswer(batch: seq<Alarm>, partitions: int -> bool, has: bool, m: Mark) {
    exists a :: a in batch && MarkOf(a) == m && partitions(Day(a)) == has
  }

  lemma OneMoreAnswer(batch: seq<Alarm>, partitions: int -> bool, i: nat)
    requires i < |batch|
    ensures forall has, m :: IsAnswer(batch[..i + 1], partitions, has, m) <==>
                             IsAnswer(batch[..i], partitions, has, m)
                               || (m == MarkOf(batch[i]) && partitions(Day(batch[i])) == has)
  {
    hide Day, MarkOf;
    assert batch[..i + 1] == batch[..i] + [batch[i]];
    forall has, m ensures IsAnswer(batch[..i + 1], partitions, has, m) <==>
                          IsAnswer(batch[..i], partitions, has, m)
                            || (m == MarkOf(batch[i]) && partitions(Day(batch[i])) == has)
    {
      if IsAnswer(batch[..i], partitions, has, m) {
        var a :| a in batch[..i] && MarkOf(a) == m && partitions(Day(a)) == has;
        assert a in batch[..i + 1];
      }
      if m == MarkOf(batch[i]) && partitions(Day(batch[i])) == has { assert batch[i] in batch[..i + 1]; }
    }
  }

  // ---- the map itself -----------------------------------------------------------------------------

  /** The stored entry seen least recently; the map's own order decides between equals. */
  method FindOldest(open: Open) returns (oldest: Option<Key>)
    ensures oldest.None? <==> forall k :: k in open ==> open[k].dirty
    ensures oldest.Some? ==> Oldest(open, oldest.value)
  {
    oldest := None;
    var rest := open.Keys;
    while rest != {}
      invariant rest <= open.Keys
      invariant oldest.None? ==> forall k :: k in open && k !in rest ==> open[k].dirty
      invariant oldest.Some? ==> oldest.value in open && !open[oldest.value].dirty
      invariant oldest.Some? ==> forall k :: k in open && k !in rest && !open[k].dirty ==>
                                   open[oldest.value].alarm.lastSeen <= open[k].alarm.lastSeen
      decreases |rest|
    {
      var k :| k in rest;
      rest := rest - {k};
      if !open[k].dirty && (oldest.None? || open[k].alarm.lastSeen < open[oldest.value].alarm.lastSeen) {
        oldest := Some(k);
      }
    }
  }

  lemma NotYetTaken(w: World, batch: seq<Alarm>, rest: set<Key>, k: Key)
    requires Inv(w) && k in w.open
    requires forall a :: a in batch ==> exists j :: j in w.open && j !in rest && j != k && w.open[j].alarm == a
    ensures w.open[k].alarm !in batch
  {
    hide EntryOk;
    if w.open[k].alarm in batch {
      var j :| j in w.open && j != k && w.open[j].alarm == w.open[k].alarm;
      DistinctRows(w, j, k);
    }
  }

  class Collapser {
    const window: int
    const maxKeys: nat
    var open: Open
    ghost var world: World

    ghost predicate Valid()
      reads this
    {
      world.window == window && world.maxKeys == maxKeys && world.open == open && Inv(world)
    }

    /** There is no room, and nothing may leave. */
    ghost predicate Crowded()
      reads this
    {
      |open| >= maxKeys && forall k :: k in open ==> open[k].dirty
    }

    constructor (window: int, maxKeys: nat)
      ensures Valid() && Start(world) && this.window == window && this.maxKeys == maxKeys
    {
      this.window := window;
      this.maxKeys := maxKeys;
      open := map[];
      world := World(window, maxKeys, map[], multiset{}, {}, {}, {}, {}, {}, multiset{});
      new;
      StartInv(world);
    }

    /** Adds one event, unless there is no room because every entry still waits to be stored. */
    method AddEvent(device: Device, ips: Ips, now: int) returns (ok: bool, ghost evicted: Option<Key>)
      requires Valid()
      modifies this
      ensures Valid() && Legal(old(world), Add(device, ips, now, evicted))
              && world == After(old(world), Add(device, ips, now, evicted))
      ensures ok <==> |world.events| == |old(world).events| + 1
      ensures world.missed == old(world).missed
      ensures !ok <==> world.events == old(world).events
      ensures !ok ==> KeyOf(device, ips) !in open && Crowded()
    {
      hide Inv;
      evicted := None;
      ghost var before := world;
      var key := KeyOf(device, ips);
      open := Kept(open, window, now);
      if key in open {
        open := open[key := Entry(Bumped(open[key].alarm, ips, now), true)];
        ok := true;
      } else {
        var full := |open| >= maxKeys;
        var oldest := None;
        if full {
          oldest := FindOldest(open);
        }
        evicted := oldest;
        ok := !full || oldest.Some?;
        if oldest.Some? {
          open := open - {oldest.value};
        }
        if ok {
          open := open[key := Entry(NewAlarm(device, ips, now), true)];
        }
      }
      world := After(before, Add(device, ips, now, evicted));
      StepKeepsInv(before, Add(device, ips, now, evicted));
    }

    /** The waiting alarms, each once. */
    method TakeDirty() returns (batch: seq<Alarm>)
      requires Valid()
      modifies this`world
      ensures Valid() && world == After(old(world), Take)
      ensures forall a :: a in batch <==> a in Dirty(open)
      ensures forall i, j :: 0 <= i < j < |batch| ==> batch[i] != batch[j]
    {
      hide Inv;
      batch := [];
      var rest := open.Keys;
      while rest != {}
        invariant rest <= open.Keys
        invariant forall a :: a in batch <==> exists k :: k in open && k !in rest && open[k].dirty && open[k].alarm == a
        invariant forall i, j :: 0 <= i < j < |batch| ==> batch[i] != batch[j]
        invariant world == old(world)
        decreases |rest|
      {
        var k :| k in rest;
        rest := rest - {k};
        if open[k].dirty {
          NotYetTaken(world, batch, rest, k);
          batch := batch + [open[k].alarm];
        }
      }
      StepKeepsInv(world, Take);
      world := After(world, Take);
    }

    /** The database answers a batch: it takes the alarms whose first day has a partition and skips the others. */
    ghost method Inserted(batch: seq<Alarm>, partitions: int -> bool)
      requires Valid() && forall a :: a in batch ==> MarkOf(a) in world.taken
      modifies this`world
      ensures Valid() && world.taken == old(world).taken && world.events == old(world).events
              && world.missed == old(world).missed
      ensures forall m :: m in world.accepted <==> m in old(world).accepted || IsAnswer(batch, partitions, true, m)
      ensures forall m :: m in world.skipped <==> m in old(world).skipped || IsAnswer(batch, partitions, false, m)
      ensures exists run :: IsRun(old(world), run) && world == AfterAll(old(world), run)
    {
      hide Inv;
      var run: seq<Event> := [];
      for i := 0 to |batch|
        invariant Valid() && world.taken == old(world).taken && world.events == old(world).events
                  && world.missed == old(world).missed
        invariant forall m ::
                    m in world.accepted <==> m in old(world).accepted || IsAnswer(batch[..i], partitions, true, m)
        invariant forall m ::
                    m in world.skipped <==> m in old(world).skipped || IsAnswer(batch[..i], partitions, false, m)
        invariant IsRun(old(world), run) && world == AfterAll(old(world), run)
      {
        var e := AnswerTo(batch[i], partitions);
        StepKeepsInv(world, e);
        RunAppends(old(world), run, e);
        OneMoreAnswer(batch, partitions, i);
        run := run + [e];
        world := After(world, e);
      }
      assert batch[..|batch|] == batch;
    }

    /** Marks those entries clean that are still as the stored batch has them. */
    method MarkStored(batch: seq<Alarm>)
      requires Valid() && forall a :: a in batch ==> MarkOf(a) in world.accepted + world.skipped
      modifies this
      ensures Valid() && world == After(old(world), Stored(set a | a in batch :: MarkOf(a)))
    {
      hide Inv, Dirty, AfterAdd, MayEvict;
      var done := set a | a in batch :: MarkOf(a);
      ghost var before := world;
      var rest := open.Keys;
      while rest != {}
        invariant rest <= open.Keys && open.Keys == old(open).Keys && world == before
        invariant forall k :: k in open ==> open[k] == if k in rest then old(open)[k] else Cleaned(old(open), done)[k]
        decreases |rest|
      {
        var k :| k in rest;
        rest := rest - {k};
        if MarkOf(open[k].alarm) in done {
          open := open[k := open[k].(dirty := false)];
        }
      }
      assert open == Cleaned(old(open), done);
      StepKeepsInv(before, Stored(done));
      world := After(before, Stored(done));
    }
  }

  lemma {:induction false} RunAppends(w: World, run: seq<Event>, e: Event)
    requires IsRun(w, run) && Legal(AfterAll(w, run), e)
    ensures IsRun(w, run + [e]) && AfterAll(w, run + [e]) == After(AfterAll(w, run), e)
    decreases |run|
  {
    hide Legal, After;
    if run == [] {
      assert [] + [e] == [e] && [e][1..] == [];
    } else {
      RunAppends(After(w, run[0]), run[1..], e);
      assert (run + [e])[1..] == run[1..] + [e];
    }
  }

  // ---- two ways to lose events -----------------------------------------------------------------------

  ghost predicate Reaches(w: World, w': World) {
    exists run :: IsRun(w, run) && AfterAll(w, run) == w'
  }

  lemma ReachesItself(w: World)
    ensures Reaches(w, w)
  {
    assert IsRun(w, []) && AfterAll(w, []) == w;
  }

  lemma ReachesNext(w: World, w': World, e: Event)
    requires Reaches(w, w') && Legal(w', e)
    ensures Reaches(w, After(w', e))
  {
    hide Legal, After;
    var run :| IsRun(w, run) && AfterAll(w, run) == w';
    RunAppends(w, run, e);
  }

  /** The only alarm of a map is handed to the database, answered and marked. */
  lemma StoresTheOnly(w: World, w': World, k: Key, alarm: Alarm, skip: bool) returns (w'': World)
    requires Reaches(w, w') && w'.open == map[k := Entry(alarm, true)]
    ensures Reaches(w, w'') && w''.open == map[k := Entry(alarm, false)]
    ensures w''.window == w'.window && w''.maxKeys == w'.maxKeys && w''.events == w'.events
            && w''.restarted == w'.restarted
    ensures skip ==> w''.rows == w'.rows
    ensures !skip ==> w''.rows == w'.rows[RefOf(alarm) := Max(w'.rows[RefOf(alarm)], alarm.count)]
  {
    hide Reaches;
    var mark := MarkOf(alarm);
    assert alarm in Dirty(w'.open) by { assert w'.open[k].dirty; }
    ReachesNext(w, w', Take);
    var w1 := After(w', Take);
    var answer := if skip then Skip(mark) else Accept(mark);
    ReachesNext(w, w1, answer);
    var w2 := After(w1, answer);
    ReachesNext(w, w2, Stored({mark}));
    w'' := After(w2, Stored({mark}));
  }

  /** A map of one key, whose alarm is stored, takes an event of another key in its place. */
  lemma Replaces(w: World, w': World, k: Key, e: Entry, device: Device, ips: Ips, now: int) returns (w'': World)
    requires Reaches(w, w') && w'.maxKeys == 1 && w'.open == map[k := e] && !e.dirty
             && e.alarm.lastSeen + w'.window > now
    requires k != KeyOf(device, ips)
    ensures Reaches(w, w'') && w''.open == map[KeyOf(device, ips) := Entry(NewAlarm(device, ips, now), true)]
    ensures w''.window == w'.window && w''.maxKeys == 1
    ensures w''.events == w'.events + multiset{RefOf(NewAlarm(device, ips, now))}
    ensures w''.rows == w'.rows
    ensures if RefOf(NewAlarm(device, ips, now)) in w'.events then RefOf(NewAlarm(device, ips, now)) in w''.restarted
            else w''.restarted == w'.restarted
  {
    hide Reaches;
    var kept := Kept(w'.open, w'.window, now);
    assert kept == w'.open;
    assert |kept| == 1 by { assert kept.Keys == {k}; }
    var event := Add(device, ips, now, Some(k));
    ReachesNext(w, w', event);
    w'' := After(w', event);
    assert w''.open == map[KeyOf(device, ips) := Entry(NewAlarm(device, ips, now), true)];
  }

  /**
   With room for one alarm and a window of a minute, an event that comes back in its millisecond is
   missing from the database.
   */
  lemma SameMillisecondLosesAnEvent() returns (start: World, end: World)
    ensures Start(start) && Reaches(start, end) && start.maxKeys == 1 && start.window == 60_000_000_000
    ensures Dirty(end.open) == {} && end.rows != end.events
  {
    hide Reaches, Dirty;
    var a := Ips("1", "a", "low", "", "", None);
    var b := Ips("1", "b", "low", "", "", None);
    var row := RefOf(NewAlarm(Device(0), a, 0));
    start := World(60_000_000_000, 1, map[], multiset{}, {}, {}, {}, {}, {}, multiset{});
    ReachesItself(start);
    ReachesNext(start, start, Add(Device(0), a, 0, None));
    var w := After(start, Add(Device(0), a, 0, None));
    assert w.open == map[KeyOf(Device(0), a) := Entry(NewAlarm(Device(0), a, 0), true)] && row in w.events;
    w := StoresTheOnly(start, w, KeyOf(Device(0), a), NewAlarm(Device(0), a, 0), false);
    w := Replaces(start, w, KeyOf(Device(0), a), Entry(NewAlarm(Device(0), a, 0), false), Device(0), b, 0);
    w := StoresTheOnly(start, w, KeyOf(Device(0), b), NewAlarm(Device(0), b, 0), false);
    w := Replaces(start, w, KeyOf(Device(0), b), Entry(NewAlarm(Device(0), b, 0), false), Device(0), a, 0);
    assert row in w.restarted;
    end := StoresTheOnly(start, w, KeyOf(Device(0), a), NewAlarm(Device(0), a, 0), false);
    NotAllStored(start, end, KeyOf(Device(0), a));
  }

  lemma NotAllStored(start: World, end: World, k: Key)
    requires Start(start) && Reaches(start, end) && end.restarted != {} && k in end.open
             && end.open == map[k := end.open[k]] && !end.open[k].dirty
    ensures Dirty(end.open) == {} && end.rows != end.events
  {
    hide Start;
    var run :| IsRun(start, run) && AfterAll(start, run) == end;
    StartInv(start);
    RunKeepsInv(start, run);
    assert Dirty(end.open) == {};
    AllStored(end);
  }

  /**
   An alarm without a partition for its day is marked stored like the others and leaves the map: nothing waits,
   no id was used twice, and the database has no row for it.
   */
  lemma SkippedAlarmIsLost() returns (start: World, end: World, row: Ref)
    ensures Start(start) && Reaches(start, end) && start.maxKeys == 1 && start.window == 60_000_000_000
    ensures Dirty(end.open) == {} && end.restarted == {}
    ensures end.events[row] == 1 && !IsOpen(end.open, row) && row !in end.rows
  {
    hide Reaches, Dirty, IsOpen;
    var a := Ips("1", "a", "low", "", "", None);
    var b := Ips("1", "b", "low", "", "", None);
    var first, second := NewAlarm(Device(0), a, 0), NewAlarm(Device(0), b, 0);
    row := RefOf(first);
    start := World(60_000_000_000, 1, map[], multiset{}, {}, {}, {}, {}, {}, multiset{});
    ReachesItself(start);
    ReachesNext(start, start, Add(Device(0), a, 0, None));
    var w := After(start, Add(Device(0), a, 0, None));
    assert w.open == map[KeyOf(Device(0), a) := Entry(first, true)] && w.events == multiset{row};
    w := StoresTheOnly(start, w, KeyOf(Device(0), a), first, true);
    w := Replaces(start, w, KeyOf(Device(0), a), Entry(first, false), Device(0), b, 0);
    end := StoresTheOnly(start, w, KeyOf(Device(0), b), second, false);
    OnlyOneOpen(end.open, KeyOf(Device(0), b), Entry(second, false), row);
  }

  lemma OnlyOneOpen(open: Open, k: Key, e: Entry, row: Ref)
    requires open == map[k := e] && !e.dirty && RefOf(e.alarm) != row
    ensures Dirty(open) == {} && !IsOpen(open, row)
  {
  }
}
