/**
 What the collapsing map makes of the events of one key (`openvibes-netlog/src/collapse.rs`): a scan that
 goes on is one alarm however often it is stored meanwhile, a pause of the window ends it, and what the
 other keys do does not change it.
 */
module Scans {
  import opened Basics
  import opened Collapse

  // ---- one event ----------------------------------------------------------------------------

  /** The alarm an event starts. */
  predicate Begins(a: Alarm, device: Device, ips: Ips, now: int) {
    && a.device == device && a.id == AlarmId(ips.signature, ips.src, now / 1_000_000)
    && a.ruleId == "ips." + ips.signature && a.severity == ips.severity && a.confidence == 80
    && a.message == ips.message && a.network == ips.network
    && a.firstSeen == now && a.lastSeen == now && a.count == 1
  }

  /** The same alarm, `more` events later. */
  predicate Continues(a: Alarm, b: Alarm, more: nat) {
    && b.device == a.device && b.id == a.id && b.ruleId == a.ruleId && b.severity == a.severity
    && b.confidence == a.confidence && b.message == a.message && b.firstSeen == a.firstSeen
    && b.count == a.count + more
  }

  predicate OfKey(k: Key, device: Device, ips: Ips) {
    k.device == device && k.signature == ips.signature && k.src == ips.src
  }

  /** Waiting to be stored, or seen within the window. */
  predicate Lasts(w: World, k: Key, now: int)
    requires k in w.open
  {
    w.open[k].dirty || now < w.open[k].alarm.lastSeen + w.window
  }

  /** An event of a key whose entry lasts goes into that entry. */
  lemma GoesOn(w: World, k: Key, device: Device, ips: Ips, now: int, evicted: Option<Key>)
    requires Legal(w, Add(device, ips, now, evicted)) && OfKey(k, device, ips) && k in w.open && Lasts(w, k, now)
    ensures var open := After(w, Add(device, ips, now, evicted)).open;
            && k in open && open[k].dirty && Continues(w.open[k].alarm, open[k].alarm, 1)
            && open[k].alarm.lastSeen == now && open[k].alarm.network == ips.network
            && evicted == None
  {
    assert KeyOf(device, ips) == k;
  }

  /** How many entries stay when an event comes in. */
  function Staying(w: World, now: int): set<Key> {
    set k | k in w.open && Lasts(w, k, now)
  }

  lemma KeptIsStaying(w: World, now: int)
    ensures Kept(w.open, w.window, now).Keys == Staying(w, now)
    ensures |Kept(w.open, w.window, now)| == |Staying(w, now)|
  {
    assert Kept(w.open, w.window, now).Keys == Staying(w, now);
  }

  /**
   An event of a key without an entry, or whose stored entry was quiet for the window, starts a new alarm,
   unless the map is full of entries that wait; then nothing is counted.
   */
  lemma StartsAnew(w: World, k: Key, device: Device, ips: Ips, now: int, evicted: Option<Key>)
    requires Legal(w, Add(device, ips, now, evicted)) && OfKey(k, device, ips) && k !in Staying(w, now)
    ensures var w' := After(w, Add(device, ips, now, evicted));
            if |Staying(w, now)| >= w.maxKeys && (forall j :: j in Staying(w, now) ==> w.open[j].dirty)
            then k !in w'.open && w'.events == w.events
            else k in w'.open && w'.open[k].dirty && Begins(w'.open[k].alarm, device, ips, now)
                 && |w'.events| == |w.events| + 1
  {
    assert KeyOf(device, ips) == k;
    KeptIsStaying(w, now);
  }

  /** Which entries of other keys stay: those that last, but for the one that makes room. */
  lemma OthersStay(w: World, j: Key, device: Device, ips: Ips, now: int, evicted: Option<Key>)
    requires Legal(w, Add(device, ips, now, evicted)) && !OfKey(j, device, ips)
    ensures var open := After(w, Add(device, ips, now, evicted)).open;
            && (j in open <==> j in w.open && Lasts(w, j, now) && evicted != Some(j))
            && (j in open ==> open[j] == w.open[j])
  {
    assert KeyOf(device, ips) != j;
  }

  /**
   An entry makes room only when the map is full and the event's key is new; it is stored, and no stored
   entry that lasts was seen before it.
   */
  lemma OldestMakesRoom(w: World, j: Key, device: Device, ips: Ips, now: int)
    requires Legal(w, Add(device, ips, now, Some(j)))
    ensures j in Staying(w, now) && !w.open[j].dirty && |Staying(w, now)| >= w.maxKeys
    ensures forall k :: OfKey(k, device, ips) ==> k !in Staying(w, now)
    ensures forall i :: i in Staying(w, now) && !w.open[i].dirty ==>
              w.open[j].alarm.lastSeen <= w.open[i].alarm.lastSeen
  {
    KeptIsStaying(w, now);
    forall k | OfKey(k, device, ips) ensures k == KeyOf(device, ips) { }
  }

  /** Storing a batch cleans exactly the entries whose device, id and count are in it, and changes no alarm. */
  lemma StoringCleans(w: World, batch: set<Mark>, k: Key)
    requires Legal(w, Stored(batch))
    ensures var open := After(w, Stored(batch)).open;
            && (k in open <==> k in w.open)
            && (k in open ==>
                  && open[k].alarm == w.open[k].alarm
                  && (open[k].dirty <==>
                      w.open[k].dirty && forall m :: m in batch ==>
                        m.row.device != w.open[k].alarm.device || m.row.id != w.open[k].alarm.id
                        || m.count != w.open[k].alarm.count))
  {
    if k in w.open {
      var a := w.open[k].alarm;
      if m :| m in batch && m.row.device == a.device && m.row.id == a.id && m.count == a.count {
        assert m == MarkOf(a);
      }
    }
  }

  // ---- a scan -------------------------------------------------------------------------------

  datatype Seen = Seen(ips: Ips, now: int)

  /** The events of one key in a run. */
  function Mine(run: seq<Event>, k: Key): seq<Seen> {
    if run == [] then []
    else
      var e := run[0];
      (if e.Add? && OfKey(k, e.device, e.ips) then [Seen(e.ips, e.now)] else []) + Mine(run[1..], k)
  }

  /**
   Whatever comes in, of this key or another, comes within the window of the key's last event, which was at
   `last`, and the key's entry does not have to make room. Batches may be taken, answered and stored at
   any time.
   */
  predicate KeepsGoing(run: seq<Event>, k: Key, last: int, window: int) {
    run == [] ||
    var e := run[0];
    if e.Add? then
      && e.now < last + window && e.evicted != Some(k)
      && KeepsGoing(run[1..], k, if OfKey(k, e.device, e.ips) then e.now else last, window)
    else KeepsGoing(run[1..], k, last, window)
  }

  /** What an alarm is after more events of its key. */
  predicate Grown(a: Alarm, b: Alarm, seen: seq<Seen>) {
    && Continues(a, b, |seen|)
    && b.lastSeen == (if seen == [] then a.lastSeen else seen[|seen| - 1].now)
    && b.network == (if seen == [] then a.network else seen[|seen| - 1].ips.network)
  }

  lemma StepGrows(w: World, e: Event, k: Key)
    requires Legal(w, e) && k in w.open
    requires e.Add? ==> e.now < w.open[k].alarm.lastSeen + w.window && e.evicted != Some(k)
    ensures var w' := After(w, e);
            && k in w'.open && w'.window == w.window
            && Grown(w.open[k].alarm, w'.open[k].alarm, Mine([e], k))
  {
    hide KeyOf, Kept, Added, MayEvict, Accepts, Continues;
    assert [e][1..] == [] && Mine([], k) == [];
    match e
    case Add(device, ips, now, evicted) =>
      if OfKey(k, device, ips) {
        GoesOn(w, k, device, ips, now, evicted);
      } else {
        OthersStay(w, k, device, ips, now, evicted);
        SameAlarm(w.open[k].alarm);
      }
    case Stored(batch) => StoringCleans(w, batch, k); SameAlarm(w.open[k].alarm);
    case _ => SameAlarm(w.open[k].alarm);
  }

  lemma SameAlarm(a: Alarm)
    ensures Continues(a, a, 0)
  {
  }

  lemma GrownTwice(a: Alarm, b: Alarm, c: Alarm, x: seq<Seen>, y: seq<Seen>)
    requires Grown(a, b, x) && Grown(b, c, y)
    ensures Grown(a, c, x + y)
  {
  }

  /** An alarm that keeps going stays one alarm, with every event of its key counted into it. */
  lemma {:induction false} ScanIsOneAlarm(w: World, run: seq<Event>, k: Key)
    requires IsRun(w, run) && k in w.open && KeepsGoing(run, k, w.open[k].alarm.lastSeen, w.window)
    ensures var w' := AfterAll(w, run);
            k in w'.open && Grown(w.open[k].alarm, w'.open[k].alarm, Mine(run, k))
    decreases |run|
  {
    hide Legal, After, Continues;
    if run == [] {
      SameAlarm(w.open[k].alarm);
    } else {
      var w' := After(w, run[0]);
      StepGrows(w, run[0], k);
      OneOfMine(run, k);
      ScanIsOneAlarm(w', run[1..], k);
      GrownTwice(w.open[k].alarm, w'.open[k].alarm, AfterAll(w', run[1..]).open[k].alarm, Mine([run[0]], k),
                 Mine(run[1..], k));
    }
  }

  lemma OneOfMine(run: seq<Event>, k: Key)
    requires run != []
    ensures Mine(run, k) == Mine([run[0]], k) + Mine(run[1..], k)
    ensures Mine([run[0]], k) ==
            if run[0].Add? && OfKey(k, run[0].device, run[0].ips) then [Seen(run[0].ips, run[0].now)] else []
  {
    assert [run[0]][1..] == [] && Mine([], k) == [];
  }

  /**
   From the event that starts it: events of one key that come within the window of one another are one
   alarm, first seen at the first and last seen at the last, with its rule, severity and message from the
   first, its network from the last, and as many counts as there were events.
   */
  lemma WindowLaw(w: World, first: Event, run: seq<Event>, k: Key)
    requires first.Add? && Legal(w, first) && OfKey(k, first.device, first.ips) && k !in Staying(w, first.now)
    requires k in After(w, first).open
    requires IsRun(After(w, first), run) && KeepsGoing(run, k, first.now, w.window)
    ensures var end, seen := AfterAll(After(w, first), run), [Seen(first.ips, first.now)] + Mine(run, k);
            && k in end.open
            && var a := end.open[k].alarm;
            && a.device == first.device
            && a.id == AlarmId(first.ips.signature, first.ips.src, first.now / 1_000_000)
            && a.ruleId == "ips." + first.ips.signature && a.severity == first.ips.severity
            && a.message == first.ips.message && a.firstSeen == first.now
            && a.count == |seen| && a.lastSeen == seen[|seen| - 1].now && a.network == seen[|seen| - 1].ips.network
  {
    hide Legal, IsRun, AfterAll, KeepsGoing, Mine, Staying;
    StartsAnew(w, k, first.device, first.ips, first.now, first.evicted);
    SameWindow(w, first);
    ScanIsOneAlarm(After(w, first), run, k);
  }

  lemma SameWindow(w: World, e: Event)
    ensures After(w, e).window == w.window
  {
  }
}
