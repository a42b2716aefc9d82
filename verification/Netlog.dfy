/**
 What happens to every datagram (`openvibes-netlog/src/handle.rs`), and the flush of what was
 counted (`openvibes-netlog/src/service.rs`). The history says what each datagram was; the
 counters in memory and those whose flush was answered add up to it, for every device and every kind.
 What the database holds differs from the answered flushes exactly where a flush was committed and its
 answer was lost.
 */
module Netlog {
  import opened Basics
  import opened Collapse
  import Cef

  const MAX_CLASSES: nat := 64

  type Classes = map<string, nat>

  datatype Counters = Counters(received: nat, alarms: nat, notCef: nat, unparsed: nat, other: nat, mismatch: nat,
                               classes: Classes, lastSeen: Option<int>)

  const ZERO := Counters(0, 0, 0, 0, 0, 0, map[], None)

  /** What the host dropped without a device to count it under. */
  datatype HostCounters = HostCounters(unknownSender: nat, collapseFull: nat, unstorable: nat)

  const HOST_ZERO := HostCounters(0, 0, 0)

  /** What an event of a known device is. */
  datatype Outcome = Intrusion(ips: Ips) | OtherClass(key: string) | WrongAddress | Invalid

  // ---- history --------------------------------------------------------------------------------

  datatype What = Raised | NotCef | Unparsed | Other | Mismatch | Full

  datatype Seen = Unknown | From(device: Device, what: What)

  ghost function Count(log: seq<Seen>, seen: Seen): nat {
    multiset(log)[seen]
  }

  ghost function Received(log: seq<Seen>, device: Device): nat {
    if log == [] then 0
    else Received(log[..|log| - 1], device) + if log[|log| - 1].From? && log[|log| - 1].device == device then 1 else 0
  }

  /** How many datagrams, of whichever device, ended as `what`. */
  ghost function Ended(log: seq<Seen>, what: What): nat {
    if log == [] then 0
    else Ended(log[..|log| - 1], what) + if log[|log| - 1].From? && log[|log| - 1].what == what then 1 else 0
  }

  lemma LogGrows(log: seq<Seen>, seen: Seen)
    ensures forall s :: Count(log + [seen], s) == Count(log, s) + if s == seen then 1 else 0
    ensures forall d :: Received(log + [seen], d) == Received(log, d) + if seen.From? && seen.device == d then 1 else 0
    ensures forall w :: Ended(log + [seen], w) == Ended(log, w) + if seen.From? && seen.what == w then 1 else 0
  {
    assert (log + [seen])[..|log|] == log;
  }

  /** Everything received from a device ended in exactly one way. */
  lemma {:induction false} ReceivedIsCounted(log: seq<Seen>, d: Device)
    ensures Received(log, d) ==
              Count(log, From(d, Raised)) + Count(log, From(d, NotCef)) + Count(log, From(d, Unparsed)) +
                                Count(log, From(d, Other)) + Count(log, From(d, Mismatch)) + Count(log, From(d, Full))
  {
    if log == [] {
      assert forall s :: s !in multiset(log);
    } else {
      hide Count, Received;
      var n := |log| - 1;
      ReceivedIsCounted(log[..n], d);
      assert log == log[..n] + [log[n]];
      LogGrows(log[..n], log[n]);
      if log[n].From? && log[n].device == d {
        match log[n].what
        case Raised =>
        case NotCef =>
        case Unparsed =>
        case Other =>
        case Mismatch =>
        case Full =>
      }
    }
  }

  // ---- counters ---------------------------------------------------------------------------------

  ghost function Of(counters: map<Device, Counters>, d: Device): Counters {
    if d in counters then counters[d] else ZERO
  }

  /** Counters in memory and flushed ones add up to the history of a device. */
  ghost predicate Accounted(log: seq<Seen>, d: Device, c: Counters, f: Counters) {
    && c.received + f.received == Received(log, d)
    && c.alarms + f.alarms == Count(log, From(d, Raised))
    && c.notCef + f.notCef == Count(log, From(d, NotCef))
    && c.unparsed + f.unparsed == Count(log, From(d, Unparsed))
    && c.other + f.other == Count(log, From(d, Other))
    && c.mismatch + f.mismatch == Count(log, From(d, Mismatch))
  }

  ghost predicate AllAccounted(log: seq<Seen>, counters: map<Device, Counters>, flushed: map<Device, Counters>) {
    forall d :: Accounted(log, d, Of(counters, d), Of(flushed, d))
  }

  /** One more of a class; new classes only while there is room. */
  function Bump(classes: Classes, key: string): Classes {
    if |classes| < MAX_CLASSES || key in classes then
      classes[key := (if key in classes then classes[key] else 0) + 1]
    else classes
  }

  /** One more of the key and none of another; at most 64 classes, so past that no new one. */
  lemma BumpCounts(classes: Classes, key: string)
    ensures var r := Bump(classes, key);
            && (|classes| <= 64 ==> |r| <= 64) && r.Keys <= classes.Keys + {key}
            && (forall k :: k in classes ==> k in r && r[k] == classes[k] + if k == key then 1 else 0)
            && (key in r <==> key in classes || |classes| < 64) && (key !in classes && key in r ==> r[key] == 1)
  {
    var r := classes[key := (if key in classes then classes[key] else 0) + 1];
    assert r.Keys == classes.Keys + {key};
  }

  /** The counters of a device after one more datagram that ended as `what`. */
  ghost predicate CountsOne(c: Counters, c': Counters, what: What, now: int, key: Option<string>) {
    && c'.received == c.received + 1 && c'.lastSeen == Some(now)
    && c'.alarms == c.alarms + (if what == Raised then 1 else 0)
    && c'.notCef == c.notCef + (if what == NotCef then 1 else 0)
    && c'.unparsed == c.unparsed + (if what == Unparsed then 1 else 0)
    && c'.other == c.other + (if what == Other then 1 else 0)
    && c'.mismatch == c.mismatch + (if what == Mismatch then 1 else 0)
    && c'.classes == if key.Some? then Bump(c.classes, key.value) else c.classes
  }

  ghost function AddUp(a: Counters, b: Counters): Counters {
    a.(received := a.received + b.received, alarms := a.alarms + b.alarms, notCef := a.notCef + b.notCef,
       unparsed := a.unparsed + b.unparsed, other := a.other + b.other, mismatch := a.mismatch + b.mismatch)
  }

  /** What a datagram of a known device is, before the collapser decides about room. */
  predicate IsKind(what: What, parsed: Cef.Parsed, classify: Cef.Event -> Outcome) {
    match parsed
    case NotCef => what == NotCef
    case Unparsed => what == Unparsed
    case Cef(event) =>
      match classify(event)
      case OtherClass(_) => what == Other
      case WrongAddress => what == Mismatch
      case Invalid => what == Unparsed
      case Intrusion(_) => what == Raised || what == Full
  }

  lemma NothingHeld()
    ensures AllHeld(map[], map[], map[]) && NonZero(map[])
  {
  }

  lemma NothingSeen()
    ensures AllAccounted([], map[], map[]) && Count([], Unknown) == 0 && Ended([], Full) == 0 && Ended([], Raised) == 0
  {
  }

  lemma UnknownAccounted(log: seq<Seen>, counters: map<Device, Counters>, flushed: map<Device, Counters>)
    requires AllAccounted(log, counters, flushed)
    ensures AllAccounted(log + [Unknown], counters, flushed)
  {
    hide Count, Received;
    LogGrows(log, Unknown);
    forall d ensures Accounted(log + [Unknown], d, Of(counters, d), Of(flushed, d)) {
      assert Accounted(log, d, Of(counters, d), Of(flushed, d));
    }
  }

  lemma OneMoreAccounted(log: seq<Seen>, counters: map<Device, Counters>, flushed: map<Device, Counters>,
                         d: Device, c: Counters, what: What, now: int, key: Option<string>)
    requires AllAccounted(log, counters, flushed) && CountsOne(Of(counters, d), c, what, now, key)
    ensures AllAccounted(log + [From(d, what)], counters[d := c], flushed)
  {
    hide Accounted, CountsOne;
    forall e ensures Accounted(log + [From(d, what)], e, Of(counters[d := c], e), Of(flushed, e)) {
      assert Accounted(log, e, Of(counters, e), Of(flushed, e));
      if e == d {
        CountedAccounted(log, d, what, Of(counters, d), c, Of(flushed, d), now, key);
      } else {
        OtherAccounted(log, d, what, e, Of(counters, e), Of(flushed, e));
      }
    }
  }

  lemma ClassesStayWithin(c: Counters, c': Counters, what: What, now: int, key: Option<string>)
    requires |c.classes| <= MAX_CLASSES && CountsOne(c, c', what, now, key)
    ensures |c'.classes| <= MAX_CLASSES
  {
    hide Bump;
    if key.Some? { BumpCounts(c.classes, key.value); }
  }

  lemma CountedAccounted(log: seq<Seen>, d: Device, what: What, c: Counters, c': Counters, f: Counters, now: int,
                         key: Option<string>)
    requires Accounted(log, d, c, f) && CountsOne(c, c', what, now, key)
    ensures Accounted(log + [From(d, what)], d, c', f)
  {
    hide Count, Received, Bump;
    LogGrows(log, From(d, what));
  }

  lemma OtherAccounted(log: seq<Seen>, d: Device, what: What, e: Device, c: Counters, f: Counters)
    requires Accounted(log, e, c, f) && e != d
    ensures Accounted(log + [From(d, what)], e, c, f)
  {
    hide Count, Received;
    LogGrows(log, From(d, what));
  }

  lemma FlushAccounted(log: seq<Seen>, counters: map<Device, Counters>, flushed: map<Device, Counters>, d: Device)
    requires AllAccounted(log, counters, flushed) && d in counters
    ensures AllAccounted(log, counters - {d}, flushed[d := AddUp(Of(flushed, d), counters[d])])
  {
    hide Count, Received;
    forall e ensures Accounted(log, e, Of(counters - {d}, e), Of(flushed[d := AddUp(Of(flushed, d), counters[d])], e)) {
      assert Accounted(log, e, Of(counters, e), Of(flushed, e));
    }
  }

  // ---- the database -------------------------------------------------------------------------------

  /** The counters of a device's row are the answered flushes and those that were committed without an answer. */
  ghost predicate Holds(row: Counters, f: Counters, again: Counters) {
    && row.received == f.received + again.received && row.alarms == f.alarms + again.alarms
    && row.notCef == f.notCef + again.notCef && row.unparsed == f.unparsed + again.unparsed
    && row.other == f.other + again.other && row.mismatch == f.mismatch + again.mismatch
  }

  ghost predicate AllHeld(database: map<Device, Counters>, flushed: map<Device, Counters>,
                          again: map<Device, Counters>)
  {
    forall d :: Holds(Of(database, d), Of(flushed, d), Of(again, d))
  }

  /** Counters exist only once something was received. */
  ghost predicate NonZero(counters: map<Device, Counters>) {
    forall d :: d in counters ==> counters[d].received > 0
  }

  ghost function Plus(rows: map<Device, Counters>, d: Device, c: Counters): map<Device, Counters> {
    rows[d := AddUp(Of(rows, d), c)]
  }

  lemma PlusIs(rows: map<Device, Counters>, d: Device, c: Counters, e: Device)
    ensures Of(Plus(rows, d, c), e) == if e == d then AddUp(Of(rows, d), c) else Of(rows, e)
  {
    hide AddUp;
  }

  lemma HoldsPlus(row: Counters, f: Counters, a: Counters, c: Counters)
    requires Holds(row, f, a)
    ensures Holds(AddUp(row, c), AddUp(f, c), a) && Holds(AddUp(row, c), f, AddUp(a, c))
  {
  }

  lemma AnsweredIsHeld(database: map<Device, Counters>, flushed: map<Device, Counters>, again: map<Device, Counters>,
                       d: Device, c: Counters)
    requires AllHeld(database, flushed, again)
    ensures AllHeld(Plus(database, d, c), Plus(flushed, d, c), again)
  {
    hide Holds, Of, Plus, AddUp;
    forall e ensures Holds(Of(Plus(database, d, c), e), Of(Plus(flushed, d, c), e), Of(again, e)) {
      PlusIs(database, d, c, e);
      PlusIs(flushed, d, c, e);
      HoldsPlus(Of(database, e), Of(flushed, e), Of(again, e), c);
    }
  }

  lemma UnansweredIsHeld(database: map<Device, Counters>, flushed: map<Device, Counters>,
                         again: map<Device, Counters>, d: Device, c: Counters)
    requires AllHeld(database, flushed, again)
    ensures AllHeld(Plus(database, d, c), flushed, Plus(again, d, c))
  {
    hide Holds, Of, Plus, AddUp;
    forall e ensures Holds(Of(Plus(database, d, c), e), Of(flushed, e), Of(Plus(again, d, c), e)) {
      PlusIs(database, d, c, e);
      PlusIs(again, d, c, e);
      HoldsPlus(Of(database, e), Of(flushed, e), Of(again, e), c);
    }
  }

  /** The history, the counters in memory, the answered flushes and the rows agree. */
  ghost predicate Balanced(log: seq<Seen>, counters: map<Device, Counters>, flushed: map<Device, Counters>,
                           again: map<Device, Counters>, database: map<Device, Counters>)
  {
    AllAccounted(log, counters, flushed) && AllHeld(database, flushed, again) && NonZero(counters) && NonZero(again)
  }

  lemma UnknownBalanced(log: seq<Seen>, counters: map<Device, Counters>, flushed: map<Device, Counters>,
                        again: map<Device, Counters>, database: map<Device, Counters>)
    requires Balanced(log, counters, flushed, again, database)
    ensures Balanced(log + [Unknown], counters, flushed, again, database)
  {
    hide AllAccounted, AllHeld, NonZero;
    UnknownAccounted(log, counters, flushed);
  }

  lemma OneMoreBalanced(log: seq<Seen>, counters: map<Device, Counters>, flushed: map<Device, Counters>,
                        again: map<Device, Counters>, database: map<Device, Counters>,
                        d: Device, c: Counters, what: What, now: int, key: Option<string>)
    requires Balanced(log, counters, flushed, again, database) && CountsOne(Of(counters, d), c, what, now, key)
    ensures Balanced(log + [From(d, what)], counters[d := c], flushed, again, database)
  {
    hide AllAccounted, AllHeld, Bump;
    OneMoreAccounted(log, counters, flushed, d, c, what, now, key);
  }

  /** `rows` is `before` with the counters of the devices `done` added, once each. */
  ghost predicate AddedOnce(before: map<Device, Counters>, counters: map<Device, Counters>, done: set<Device>,
                        rows: map<Device, Counters>)
  {
    && done <= counters.Keys
    && forall d :: Of(rows, d) == if d in done then AddUp(Of(before, d), counters[d]) else Of(before, d)
  }

  /** The devices whose flush took effect. */
  ghost function Reached(counters: map<Device, Counters>, takes: Device -> bool, committed: Device -> bool)
    : set<Device>
  {
    set d | d in counters && (takes(d) || committed(d))
  }

  lemma OneMoreAdded(before: map<Device, Counters>, counters: map<Device, Counters>, done: set<Device>,
                     rows: map<Device, Counters>, d: Device)
    requires AddedOnce(before, counters, done, rows) && d in counters && d !in done
    ensures AddedOnce(before, counters, done + {d}, Plus(rows, d, counters[d]))
  {
    hide Of, Plus, AddUp;
    forall e ensures Of(Plus(rows, d, counters[d]), e) ==
                     if e in done + {d} then AddUp(Of(before, e), counters[e]) else Of(before, e)
    {
      PlusIs(rows, d, counters[d], e);
    }
  }

  /** `counters` is `before` without the devices handled so far, that is not `ids`, whose flush was answered. */
  ghost predicate Remain(before: map<Device, Counters>, ids: set<Device>, takes: Device -> bool,
                         counters: map<Device, Counters>)
  {
    && ids <= counters.Keys <= before.Keys
    && (forall d :: d in counters ==> counters[d] == before[d])
    && (forall d :: d in before && d !in ids ==> (d in counters <==> !takes(d)))
  }

  lemma OneFewerRemain(before: map<Device, Counters>, ids: set<Device>, takes: Device -> bool,
                       counters: map<Device, Counters>, d: Device)
    requires Remain(before, ids, takes, counters) && d in ids
    ensures Remain(before, ids - {d}, takes, if takes(d) then counters - {d} else counters)
  {
  }

  /** The devices handled so far whose flush was committed without an answer are in `again`. */
  ghost predicate Repeats(before: map<Device, Counters>, ids: set<Device>, takes: Device -> bool,
                          committed: Device -> bool, again: set<Device>, now: set<Device>)
  {
    forall d :: d in now <==> d in again || (d in before && d !in ids && !takes(d) && committed(d))
  }

  lemma OneMoreRepeats(before: map<Device, Counters>, ids: set<Device>, takes: Device -> bool,
                       committed: Device -> bool, again: set<Device>, now: set<Device>, d: Device)
    requires Repeats(before, ids, takes, committed, again, now) && d in ids && d in before
    ensures Repeats(before, ids - {d}, takes, committed, again, if !takes(d) && committed(d) then now + {d} else now)
  {
  }

  lemma OneMoreReached(before: map<Device, Counters>, ids: set<Device>, takes: Device -> bool,
                       committed: Device -> bool, d: Device)
    requires ids <= before.Keys && d in ids
    ensures Reached(before, takes, committed) - (ids - {d}) ==
            (Reached(before, takes, committed) - ids) + if takes(d) || committed(d) then {d} else {}
    ensures d !in Reached(before, takes, committed) - ids
  {
  }

  lemma StillThere(before: map<Device, Counters>, ids: set<Device>, takes: Device -> bool,
                   counters: map<Device, Counters>, d: Device)
    requires Remain(before, ids, takes, counters) && d in ids
    ensures ids <= before.Keys && d in counters && d in before && counters[d] == before[d]
  {
  }

  lemma NothingHandled(rows: map<Device, Counters>, counters: map<Device, Counters>, takes: Device -> bool,
                       committed: Device -> bool, again: set<Device>)
    ensures Remain(counters, counters.Keys, takes, counters)
    ensures Repeats(counters, counters.Keys, takes, committed, again, again)
    ensures Reached(counters, takes, committed) - counters.Keys == {}
    ensures AddedOnce(rows, counters, {}, rows)
  {
  }

  lemma AllHandled(before: map<Device, Counters>, takes: Device -> bool, committed: Device -> bool)
    ensures Reached(before, takes, committed) - {} == Reached(before, takes, committed)
  {
  }

  /** `insert_batch` counts the alarms whose first day has no partition. */
  method CountUnstorable(batch: seq<Collapse.Alarm>, partitions: int -> bool) returns (n: nat)
    requires forall i, j :: 0 <= i < j < |batch| ==> batch[i] != batch[j]
    ensures n == |set a | a in batch && !partitions(Day(a))|
  {
    hide Day;
    n := 0;
    ghost var without: set<Collapse.Alarm> := {};
    for i := 0 to |batch|
      invariant without == set a | a in batch[..i] && !partitions(Day(a))
      invariant n == |without|
    {
      assert batch[..i + 1] == batch[..i] + [batch[i]];
      assert batch[i] !in without;
      if !partitions(Day(batch[i])) {
        n := n + 1;
        without := without + {batch[i]};
      }
    }
    assert batch[..|batch|] == batch;
  }

  lemma {:induction false} FewerMarks(alarms: set<Collapse.Alarm>, marks: set<Mark>)
    requires forall m :: m in marks ==> exists a :: a in alarms && MarkOf(a) == m
    ensures |marks| <= |alarms|
    decreases |alarms|
  {
    hide MarkOf;
    if marks != {} {
      var m :| m in marks;
      var a :| a in alarms && MarkOf(a) == m;
      FewerMarks(alarms - {a}, marks - {m});
      assert |alarms - {a}| == |alarms| - 1 && |marks - {m}| == |marks| - 1;
    }
  }

  /** The marks of a stored batch that got no row are no more than the alarms that were counted. */
  lemma MissedAreCounted(w: World, w': World, batch: seq<Collapse.Alarm>, partitions: int -> bool)
    requires w'.missed == w.missed
    requires forall m :: IsAnswer(batch, partitions, true, m) ==> m in w'.accepted
    ensures var marks := set a | a in batch :: MarkOf(a);
            |After(w', Stored(marks)).missed| <= |w.missed| + |set a | a in batch && !partitions(Day(a))|
  {
    hide Day, MarkOf, Cleaned;
    var marks := set a | a in batch :: MarkOf(a);
    var fresher := marks - w'.accepted;
    forall m | m in fresher ensures exists a :: a in (set a | a in batch && !partitions(Day(a))) && MarkOf(a) == m {
      var a :| a in batch && MarkOf(a) == m;
      assert IsAnswer(batch, partitions, partitions(Day(a)), m);
    }
    FewerMarks((set a | a in batch && !partitions(Day(a))), fresher);
    UnionSize(w.missed, fresher);
  }

  lemma {:induction false} UnionSize<T>(a: set<T>, b: set<T>)
    ensures |a + b| <= |a| + |b|
    decreases b
  {
    if b != {} {
      var x :| x in b;
      UnionSize(a, b - {x});
      assert a + b == (a + (b - {x})) + {x};
    } else {
      assert a + b == a;
    }
  }

  lemma NoneDirty(open: Open, batch: seq<Collapse.Alarm>)
    requires forall a :: a in batch <==> a in Dirty(open)
    ensures batch == [] <==> Dirty(open) == {}
  {
    hide Dirty;
    if batch != [] { assert batch[0] in Dirty(open); }
  }

  /** The waiting alarms the database has no place for. */
  ghost function Unplaced(waiting: set<Collapse.Alarm>, partitions: Option<int -> bool>): set<Collapse.Alarm> {
    set a | a in waiting && partitions.Some? && !partitions.value(Day(a))
  }

  lemma AllAnswered(w: World, batch: seq<Collapse.Alarm>, partitions: int -> bool)
    requires forall m :: IsAnswer(batch, partitions, true, m) ==> m in w.accepted
    requires forall m :: IsAnswer(batch, partitions, false, m) ==> m in w.skipped
    ensures forall a :: a in batch ==> MarkOf(a) in w.accepted + w.skipped
    ensures forall a :: a in batch && partitions(Day(a)) ==> MarkOf(a) in w.accepted
  {
    hide MarkOf, Day;
    forall a | a in batch ensures MarkOf(a) in w.accepted + w.skipped
      ensures partitions(Day(a)) ==> MarkOf(a) in w.accepted
    {
      assert IsAnswer(batch, partitions, partitions(Day(a)), MarkOf(a));
    }
  }

  lemma MoreReceived(a: Counters, c: Counters)
    requires c.received > 0
    ensures AddUp(a, c).received > 0
  {
  }

  lemma AllTaken(w: World, batch: seq<Collapse.Alarm>)
    requires forall a :: a in batch ==> a in Dirty(w.open)
    ensures forall a :: a in batch ==> MarkOf(a) in After(w, Take).taken
  {
    hide MarkOf, Dirty;
  }

  lemma AllCleaned(open: Open, batch: seq<Collapse.Alarm>)
    requires forall a :: a in batch <==> a in Dirty(open)
    ensures Dirty(Cleaned(open, set a | a in batch :: MarkOf(a))) == {}
  {
    hide MarkOf;
    var marks := set a | a in batch :: MarkOf(a);
    forall k | k in open && open[k].dirty ensures MarkOf(open[k].alarm) in marks {
      assert open[k].alarm in Dirty(open);
    }
  }

  /** The class a datagram is counted under: of another kind of event, or of a risk that is not in the table. */
  function ClassKey(parsed: Cef.Parsed, classify: Cef.Event -> Outcome): Option<string> {
    if !parsed.Cef? then None
    else match classify(parsed.event)
      case OtherClass(key) => Some(key)
      case Intrusion(ips) => if ips.unknownRisk.Some? then Some("risk:" + ips.unknownRisk.value) else None
      case _ => None
  }

  class Netlog {
    const utf8: Bytes -> Option<string>
    const canonical: Address -> Address
    const classify: (Cef.Event, Address) -> Outcome
    const collapser: Collapser
    var known: map<Address, Device>
    var counters: map<Device, Counters>
    var host: HostCounters
    ghost var log: seq<Seen>
    ghost var flushed: map<Device, Counters>
    ghost var again: map<Device, Counters>
    ghost var database: map<Device, Counters>
    ghost var reported: HostCounters

    ghost predicate Valid()
      reads this, collapser
    {
      && collapser.Valid()
      && Balanced(log, counters, flushed, again, database)
      && (forall d :: d in counters ==> |counters[d].classes| <= MAX_CLASSES)
      && host.unknownSender + reported.unknownSender == Count(log, Unknown)
      && host.collapseFull + reported.collapseFull == Ended(log, Full)
      && |collapser.world.events| == Ended(log, Raised)
      && |collapser.world.missed| <= host.unstorable + reported.unstorable
    }

    constructor (utf8: Bytes -> Option<string>, canonical: Address -> Address,
                 classify: (Cef.Event, Address) -> Outcome,
                 window: int, maxKeys: nat)
      ensures Valid() && fresh(collapser) && log == [] && counters == database == map[] && known == map[]
      ensures this.canonical == canonical && Start(collapser.world) && collapser.maxKeys == maxKeys
    {
      hide AllAccounted, AllHeld, Count, Ended, Collapse.Inv;
      this.utf8 := utf8;
      this.canonical := canonical;
      this.classify := classify;
      known := map[];
      counters := map[];
      host := HOST_ZERO;
      log := [];
      flushed := map[];
      again := map[];
      database := map[];
      reported := HOST_ZERO;
      collapser := new Collapser(window, maxKeys);
      new;
      NothingSeen();
      NothingHeld();
    }

    /** Reads the registered devices again; when the database does not answer, the old list stays. */
    method LoadDevices(list: Option<map<Address, Device>>)
      requires Valid()
      modifies this`known
      ensures Valid() && known == if list.Some? then list.value else old(known)
    {
      hide Balanced, Collapse.Inv, Count, Ended;
      if list.Some? {
        known := list.value;
      }
    }

    method CountIntrusion(d: Device, ips: Ips, now: int, c: Counters) returns (c': Counters, what: What)
      requires collapser.Valid()
      modifies this`host, collapser
      ensures collapser.Valid() && (what == Raised || what == Full)
      ensures c' == c.(alarms := c.alarms + if what == Raised then 1 else 0,
                       classes := if ips.unknownRisk.Some? then Bump(c.classes, "risk:" + ips.unknownRisk.value)
                         else c.classes)
      ensures host == old(host).(collapseFull := old(host).collapseFull + if what == Full then 1 else 0)
      ensures |collapser.world.events| == |old(collapser.world.events)| + if what == Raised then 1 else 0
      ensures collapser.world.missed == old(collapser.world.missed)
      ensures what == Full ==> collapser.Crowded()
    {
      hide Bump, After, Legal, Collapse.Inv;
      c' := c;
      if ips.unknownRisk.Some? {
        c' := c'.(classes := Bump(c.classes, "risk:" + ips.unknownRisk.value));
      }
      var ok, evicted := collapser.AddEvent(d, ips, now);
      if ok {
        c' := c'.(alarms := c.alarms + 1);
        what := Raised;
      } else {
        host := host.(collapseFull := host.collapseFull + 1);
        what := Full;
      }
    }

    /** A datagram of a known device: parse, classify, collapse, count. */
    method CountOne(datagram: Bytes, from: Address, d: Device, now: int, c: Counters) returns (c': Counters, what: What)
      requires collapser.Valid()
      modifies this`host, collapser
      ensures collapser.Valid() && IsKind(what, Cef.Reading(datagram, utf8), e => classify(e, from))
      ensures CountsOne(c, c', what, now, ClassKey(Cef.Reading(datagram, utf8), e => classify(e, from)))
      ensures host == old(host).(collapseFull := old(host).collapseFull + if what == Full then 1 else 0)
      ensures |collapser.world.events| == |old(collapser.world.events)| + if what == Raised then 1 else 0
      ensures collapser.world.missed == old(collapser.world.missed)
      ensures what == Full ==> collapser.Crowded()
    {
      hide Cef.Reading, Cef.MarkAt, Cef.ReadEvent, Cef.TrimLineEnds, Bump, After, Legal, Collapse.Inv;
      c' := c.(received := c.received + 1, lastSeen := Some(now));
      what := Raised;
      var parsed := Cef.Parse(datagram, utf8);
      match parsed {
        case NotCef =>
          c' := c'.(notCef := c.notCef + 1);
          what := NotCef;
        case Unparsed =>
          c' := c'.(unparsed := c.unparsed + 1);
          what := Unparsed;
        case Cef(event) =>
          match classify(event, from) {
            case OtherClass(key) =>
              c' := c'.(other := c.other + 1, classes := Bump(c.classes, key));
              what := Other;
            case WrongAddress =>
              c' := c'.(mismatch := c.mismatch + 1);
              what := Mismatch;
            case Invalid =>
              c' := c'.(unparsed := c.unparsed + 1);
              what := Unparsed;
            case Intrusion(ips) =>
              c', what := CountIntrusion(d, ips, now, c');
          }
      }
    }

    /** `d`'s counters and the history after one of its datagrams. */
    ghost predicate CountedFor(d: Device, from: Address, datagram: Bytes, now: int, before: map<Device, Counters>)
      reads this, collapser
    {
      && log != [] && log[|log| - 1].From? && log[|log| - 1].device == d && d in counters
      && var what, parsed := log[|log| - 1].what, Cef.Reading(datagram, utf8);
      && IsKind(what, parsed, e => classify(e, from))
      && counters == before[d := counters[d]]
      && CountsOne(Of(before, d), counters[d], what, now, ClassKey(parsed, e => classify(e, from)))
      && (what == Full ==> collapser.Crowded())
    }

    method HandleKnown(datagram: Bytes, from: Address, d: Device, now: int)
      requires Valid()
      modifies this`counters, this`host, this`log, collapser
      ensures Valid() && |log| == |old(log)| + 1 && log[..|old(log)|] == old(log)
      ensures CountedFor(d, from, datagram, now, old(counters))
    {
      hide Cef.Reading, Collapser.Crowded, Balanced, CountsOne, IsKind, ClassKey, Collapse.Inv, Received, Count,
        Ended, Bump;
      var c, what := CountOne(datagram, from, d, now, if d in counters then counters[d] else ZERO);
      ghost var key := ClassKey(Cef.Reading(datagram, utf8), e => classify(e, from));
      LogGrows(log, From(d, what));
      OneMoreBalanced(log, counters, flushed, again, database, d, c, what, now, key);
      ClassesStayWithin(Of(counters, d), c, what, now, key);
      counters := counters[d := c];
      log := log + [From(d, what)];
    }

    /** One datagram, from the sender filter on. */
    method Handle(datagram: Bytes, sender: Address, now: int)
      requires Valid()
      modifies this`counters, this`host, this`log, collapser
      ensures Valid() && |log| == |old(log)| + 1 && log[..|old(log)|] == old(log)
      ensures canonical(sender) !in known ==> log[|log| - 1] == Unknown && counters == old(counters)
      ensures canonical(sender) in known ==>
                CountedFor(known[canonical(sender)], canonical(sender), datagram, now, old(counters))
    {
      hide Balanced, Netlog.CountedFor, Collapse.Inv, Received, Count, Ended;
      var from := canonical(sender);
      if from !in known {
        LogGrows(log, Unknown);
        UnknownBalanced(log, counters, flushed, again, database);
        host := host.(unknownSender := host.unknownSender + 1);
        log := log + [Unknown];
      } else {
        HandleKnown(datagram, from, known[from], now);
      }
    }

    /**
     Stores what changed. `partitions` says which days the database has a place for, if the insert is
     answered; `committed` the same for an insert that took effect although its answer was lost.
     */
    method StoreAlarms(partitions: Option<int -> bool>, ghost committed: Option<int -> bool>) returns (ok: bool)
      requires collapser.Valid()
      modifies this`host, collapser
      ensures collapser.Valid() && collapser.world.events == old(collapser.world.events)
      ensures ok <==> partitions.Some? || Dirty(old(collapser.open)) == {}
      ensures ok ==> Dirty(collapser.open) == {}
      ensures ok ==> forall a :: a in Dirty(old(collapser.open)) && partitions.value(Day(a)) ==>
                                   MarkOf(a) in collapser.world.accepted
      ensures !ok ==> collapser.open == old(collapser.open)
      ensures host == old(host).(unstorable := old(host).unstorable +
                                   if ok then |Unplaced(Dirty(old(collapser.open)), partitions)| else 0)
      ensures |collapser.world.missed| <=
                |old(collapser.world.missed)| + host.unstorable - old(host).unstorable
    {
      hide Collapse.Inv, Dirty, Cleaned, IsRun, AfterAll, MarkOf, Day, IsAnswer;
      var batch := collapser.TakeDirty();
      NoneDirty(collapser.open, batch);
      assert collapser.world.missed == old(collapser.world.missed);
      if batch != [] {
        AllTaken(old(collapser.world), batch);
        if partitions.None? {
          if committed.Some? { collapser.Inserted(batch, committed.value); }
          return false;
        }
        var unstorable := CountUnstorable(batch, partitions.value);
        assert (set a | a in batch && !partitions.value(Day(a))) == Unplaced(Dirty(old(collapser.open)), partitions);
        collapser.Inserted(batch, partitions.value);
        AllAnswered(collapser.world, batch, partitions.value);
        MissedAreCounted(old(collapser.world), collapser.world, batch, partitions.value);
        collapser.MarkStored(batch);
        AllCleaned(old(collapser.open), batch);
        host := host.(unstorable := host.unstorable + unstorable);
      }
      return true;
    }

    /** The flush of one device: answered, or committed without an answer, or neither. */
    method FlushOne(d: Device, takes: bool, ghost committed: bool)
      requires Balanced(log, counters, flushed, again, database) && d in counters
      modifies this`counters, this`flushed, this`again, this`database
      ensures Balanced(log, counters, flushed, again, database)
      ensures counters == if takes then old(counters) - {d} else old(counters)
      ensures again.Keys == if !takes && committed then old(again).Keys + {d} else old(again).Keys
      ensures database == if takes || committed then Plus(old(database), d, old(counters)[d]) else old(database)
    {
      hide AllAccounted, AllHeld, AddUp, Of;
      if takes {
        FlushAccounted(log, counters, flushed, d);
        AnsweredIsHeld(database, flushed, again, d, counters[d]);
        flushed := Plus(flushed, d, counters[d]);
        database := Plus(database, d, counters[d]);
        counters := counters - {d};
      } else if committed {
        UnansweredIsHeld(database, flushed, again, d, counters[d]);
        MoreReceived(Of(again, d), counters[d]);
        again := Plus(again, d, counters[d]);
        database := Plus(database, d, counters[d]);
      }
    }

    /**
     Hands the counters of each device to the database. `takes` says which flushes are answered,
     `committed` which took effect although their answer was lost; whatever is not answered stays.
     */
    method FlushCounters(takes: Device -> bool, ghost committed: Device -> bool)
      requires Balanced(log, counters, flushed, again, database)
      modifies this`counters, this`flushed, this`again, this`database
      ensures Balanced(log, counters, flushed, again, database)
      ensures Remain(old(counters), {}, takes, counters)
      ensures Repeats(old(counters), {}, takes, committed, old(again).Keys, again.Keys)
      ensures AddedOnce(old(database), old(counters), Reached(old(counters), takes, committed), database)
    {
      hide Balanced, AddUp, Of, AddedOnce, Plus, Reached, Remain, Repeats;
      var ids := counters.Keys;
      ghost var done: set<Device> := {};
      NothingHandled(database, counters, takes, committed, again.Keys);
      while ids != {}
        invariant Balanced(log, counters, flushed, again, database)
        invariant Remain(old(counters), ids, takes, counters)
        invariant Repeats(old(counters), ids, takes, committed, old(again).Keys, again.Keys)
        invariant done == Reached(old(counters), takes, committed) - ids
        invariant AddedOnce(old(database), old(counters), done, database)
        decreases |ids|
      {
        var d :| d in ids;
        StillThere(old(counters), ids, takes, counters, d);
        OneFewerRemain(old(counters), ids, takes, counters, d);
        OneMoreRepeats(old(counters), ids, takes, committed, old(again).Keys, again.Keys, d);
        OneMoreReached(old(counters), ids, takes, committed, d);
        if takes(d) || committed(d) {
          OneMoreAdded(old(database), old(counters), done, database, d);
          done := done + {d};
        }
        ids := ids - {d};
        FlushOne(d, takes(d), committed(d));
      }
      AllHandled(old(counters), takes, committed);
    }

    /**
     The flush: alarms first, then counters, then the host's own. `up` is whether the database answers at
     all; the other arguments are those of the two steps.
     */
    method Store(up: bool, partitions: Option<int -> bool>, ghost inserted: Option<int -> bool>,
                 takes: Device -> bool, ghost committed: Device -> bool)
      requires Valid()
      modifies this`counters, this`host, this`flushed, this`again, this`database, this`reported, collapser
      ensures Valid() && collapser.world.events == old(collapser.world.events)
      ensures up && (partitions.Some? || Dirty(old(collapser.open)) == {}) ==>
                && Dirty(collapser.open) == {} && host == HOST_ZERO
                && (forall a :: a in Dirty(old(collapser.open)) && partitions.value(Day(a)) ==>
                  MarkOf(a) in collapser.world.accepted)
                && (forall d :: d in counters <==> d in old(counters) && !takes(d))
                && (forall d :: d in again <==> d in old(again) || (d in old(counters) && !takes(d) && committed(d)))
                && AddedOnce(old(database), old(counters), Reached(old(counters), takes, committed), database)
      ensures up && partitions.None? && Dirty(old(collapser.open)) != {} ==>
                collapser.open == old(collapser.open) && counters == old(counters) && host == old(host)
                && database == old(database)
      ensures forall d :: d in counters ==> d in old(counters) && counters[d] == old(counters)[d]
      ensures !up ==> counters == old(counters) && host == old(host) && collapser.world == old(collapser.world)
                      && database == old(database)
    {
      hide Balanced, Collapse.Inv, Received, Count, Ended, Dirty, Day, MarkOf, AddedOnce;
      if !up {
        return;
      }
      var ok := StoreAlarms(partitions, inserted);
      if !ok {
        return;
      }
      FlushCounters(takes, committed);
      reported := HostCounters(reported.unknownSender + host.unknownSender,
                               reported.collapseFull + host.collapseFull,
                               reported.unstorable + host.unstorable);
      host := HOST_ZERO;
    }
  }

  // ---- counters that were flushed twice ---------------------------------------------------------

  /**
   At every moment of every run: the counters in memory and in the row of a device add up to its history
   if and only if no flush of it was committed without its answer.
   */
  lemma CountersAddUpExactly(n: Netlog, d: Device)
    requires n.Valid()
    ensures Accounted(n.log, d, Of(n.counters, d), Of(n.database, d)) <==> d !in n.again
    ensures Of(n.counters, d).received + Of(n.database, d).received >= Received(n.log, d)
  {
    hide Count, Received, Collapse.Inv;
    assert Accounted(n.log, d, Of(n.counters, d), Of(n.flushed, d));
    assert Holds(Of(n.database, d), Of(n.flushed, d), Of(n.again, d));
  }

  lemma AddedTwice(d: Device, counters: map<Device, Counters>, once: map<Device, Counters>,
                   twice: map<Device, Counters>)
    requires d in counters && AddedOnce(map[], counters, {d}, once) && AddedOnce(once, counters, {d}, twice)
    ensures Of(twice, d).received == 2 * counters[d].received
  {
  }

  lemma ReachesTheOne(d: Device, counters: map<Device, Counters>)
    requires counters.Keys == {d}
    ensures Reached(counters, _ => false, _ => true) == {d} == Reached(counters, _ => true, _ => false)
  {
  }

  lemma FirstCount(c: Counters, what: What, now: int)
    requires exists key :: CountsOne(ZERO, c, what, now, key)
    ensures c.received == 1
  {
    hide Bump;
  }

  /** A flush whose answer is lost is sent again: one datagram was received and the row says two. */
  method CountedTwice(utf8: Bytes -> Option<string>, classify: (Cef.Event, Address) -> Outcome)
    returns (n: Netlog)
    ensures n.Valid() && |n.log| == 1 && n.counters == map[]
    ensures Of(n.database, Device(0)).received == 2 && Received(n.log, Device(0)) == 1
  {
    hide Netlog.Valid, Dirty, Cef.Reading, IsKind, ClassKey, CountsOne, AddedOnce, Reached, Start, Collapse.Day, MarkOf;
    var d := Device(0);
    n := new Netlog(utf8, a => a, classify, 0, 0);
    n.LoadDevices(Some(map["" := d]));
    n.Handle([], "", 0);
    ghost var counters := n.counters;
    FirstCount(counters[d], n.log[0].what, 0);
    assert Received(n.log, d) == 1 by {
      assert n.log == [] + [n.log[0]];
      LogGrows([], n.log[0]);
    }
    n.Store(true, Some(_ => true), None, _ => false, _ => true);
    assert n.counters == counters;
    ghost var once := n.database;
    ReachesTheOne(d, counters);
    n.Store(true, Some(_ => true), None, _ => true, _ => false);
    AddedTwice(d, counters, once, n.database);
  }

  // ---- totals over all devices ------------------------------------------------------------------

  ghost function Sum(ds: seq<Device>, f: Device -> nat): nat {
    if ds == [] then 0 else f(ds[0]) + Sum(ds[1..], f)
  }

  ghost predicate Distinct(ds: seq<Device>) {
    forall i, j :: 0 <= i < j < |ds| ==> ds[i] != ds[j]
  }

  /** Every device of the history is among `ds`, once. */
  ghost predicate Covers(ds: seq<Device>, log: seq<Seen>) {
    Distinct(ds) && forall i :: 0 <= i < |log| && log[i].From? ==> log[i].device in ds
  }

  lemma {:induction false} SumGrows(ds: seq<Device>, f: Device -> nat, g: Device -> nat, d: Device)
    requires Distinct(ds) && forall e :: g(e) == f(e) + if e == d then 1 else 0
    ensures Sum(ds, g) == Sum(ds, f) + if d in ds then 1 else 0
  {
    if ds != [] {
      assert forall i :: 0 <= i < |ds[1..]| ==> ds[1..][i] == ds[i + 1];
      SumGrows(ds[1..], f, g, d);
      assert d in ds <==> d == ds[0] || d in ds[1..];
      assert ds[0] !in ds[1..];
    }
  }

  lemma {:induction false} SumSame(ds: seq<Device>, f: Device -> nat, g: Device -> nat)
    requires forall d :: f(d) == g(d)
    ensures Sum(ds, f) == Sum(ds, g)
  {
    if ds != [] { SumSame(ds[1..], f, g); }
  }

  lemma {:induction false} SumZero(ds: seq<Device>, f: Device -> nat)
    requires forall d :: f(d) == 0
    ensures Sum(ds, f) == 0
  {
    if ds != [] { SumZero(ds[1..], f); }
  }

  lemma LogSplits(ds: seq<Device>, log: seq<Seen>)
    requires log != [] && Covers(ds, log)
    ensures var n := |log| - 1;
            log == log[..n] + [log[n]] && Covers(ds, log[..n]) && (log[n].From? ==> log[n].device in ds)
  {
  }

  /** Every datagram was received from one of the devices, or from a sender that is none. */
  lemma {:induction false} DatagramsAddUp(ds: seq<Device>, log: seq<Seen>)
    requires Covers(ds, log)
    ensures |log| == Sum(ds, d => Received(log, d)) + Count(log, Unknown)
  {
    if log == [] {
      assert Unknown !in multiset(log);
      SumZero(ds, d => Received(log, d));
    } else {
      hide Covers, Received, Count, Sum;
      var n := |log| - 1;
      LogSplits(ds, log);
      var pre, last := log[..n], log[n];
      DatagramsAddUp(ds, pre);
      LogGrows(pre, last);
      if last.From? {
        assert Distinct(ds) by { CoversDistinct(ds, log); }
        SumGrows(ds, d => Received(pre, d), d => Received(log, d), last.device);
      } else {
        SumSame(ds, d => Received(pre, d), d => Received(log, d));
      }
    }
  }

  lemma CoversDistinct(ds: seq<Device>, log: seq<Seen>)
    requires Covers(ds, log)
    ensures Distinct(ds)
  {
  }

  lemma {:induction false} EndsAddUp(ds: seq<Device>, log: seq<Seen>, what: What)
    requires Covers(ds, log)
    ensures Ended(log, what) == Sum(ds, d => Count(log, From(d, what)))
  {
    if log == [] {
      assert forall s :: s !in multiset(log);
      SumZero(ds, d => Count(log, From(d, what)));
    } else {
      hide Covers, Ended, Count, Sum;
      var n := |log| - 1;
      LogSplits(ds, log);
      var pre, last := log[..n], log[n];
      EndsAddUp(ds, pre, what);
      LogGrows(pre, last);
      if last.From? && last.what == what {
        assert Distinct(ds) by { CoversDistinct(ds, log); }
        SumGrows(ds, d => Count(pre, From(d, what)), d => Count(log, From(d, what)), last.device);
      } else {
        SumSame(ds, d => Count(pre, From(d, what)), d => Count(log, From(d, what)));
      }
    }
  }

  /** The counters of all devices together, in memory and flushed. */
  ghost function Totals(ds: seq<Device>, counters: map<Device, Counters>, flushed: map<Device, Counters>): Counters {
    if ds == [] then ZERO else AddUp(AddUp(Totals(ds[1..], counters, flushed), Of(counters, ds[0])), Of(flushed, ds[0]))
  }

  lemma {:induction false} TotalsAre(ds: seq<Device>, log: seq<Seen>, counters: map<Device, Counters>,
                                     flushed: map<Device, Counters>)
    requires AllAccounted(log, counters, flushed)
    ensures var t := Totals(ds, counters, flushed);
            && t.received == Sum(ds, d => Received(log, d)) && t.alarms == Sum(ds, d => Count(log, From(d, Raised)))
            && t.received ==
                t.alarms + t.notCef + t.unparsed + t.other + t.mismatch + Sum(ds, d => Count(log, From(d, Full)))
  {
    if ds != [] {
      hide Received, Count, Of;
      TotalsAre(ds[1..], log, counters, flushed);
      assert Accounted(log, ds[0], Of(counters, ds[0]), Of(flushed, ds[0]));
      ReceivedIsCounted(log, ds[0]);
    }
  }

  /**
   At every moment of every run: each datagram was received from a known device or came from an
   unknown sender; what was received is an alarm, plain syslog, unparsed, of another kind, from
   the wrong address or dropped by a full map; and the alarms are the events the map counted.
   */
  lemma EveryDatagramIsCounted(n: Netlog, ds: seq<Device>)
    requires n.Valid() && Covers(ds, n.log)
    ensures var t := Totals(ds, n.counters, n.flushed);
            && |n.log| == t.received + n.host.unknownSender + n.reported.unknownSender
            && t.received == t.alarms + t.notCef + t.unparsed + t.other + t.mismatch + n.host.collapseFull
              + n.reported.collapseFull
            && t.alarms == |n.collapser.world.events|
  {
    hide Covers, Received, Count, Ended, Sum, Totals, AllAccounted, Collapse.Inv;
    TotalsAre(ds, n.log, n.counters, n.flushed);
    DatagramsAddUp(ds, n.log);
    EndsAddUp(ds, n.log, Full);
    EndsAddUp(ds, n.log, Raised);
  }

  /**
   With nothing waiting, the database holds every event counted as an alarm if and only if no alarm id was
   used twice and no alarm was marked stored, as it is now, without a row. If `unstorable` never rose, the
   first half decides alone.
   */
  lemma EveryAlarmIsStored(n: Netlog, ds: seq<Device>)
    requires n.Valid() && Covers(ds, n.log) && Dirty(n.collapser.open) == {}
    ensures var w := n.collapser.world;
            && (w.rows == w.events <==> w.restarted == {} && LastAccepted(w))
            && (w.rows == w.events <==> w.restarted == {} && NoneMissed(w))
            && (n.host.unstorable + n.reported.unstorable == 0 ==> (w.rows == w.events <==> w.restarted == {}))
            && (w.rows == w.events ==> |w.rows| == Totals(ds, n.counters, n.flushed).alarms)
  {
    hide Covers, Totals, Balanced, Collapse.Inv, Dirty, LastAccepted;
    EveryDatagramIsCounted(n, ds);
    AllStored(n.collapser.world);
    if n.host.unstorable + n.reported.unstorable == 0 { assert n.collapser.world.missed == {}; }
  }
}
