/**
 Matching inventories against advisories (`openvibes-vulns/src/matching.rs`):
 which hosts are affected by which advisory, and the fast form (a filter over
 distinct versions, then batches of hosts) that must find the same.
 */
module Matching {
  import opened Basics
  import opened Orders
  import DpkgVersion
  import RpmVersion

  type Text = Bytes

  /** One installed version beside an advisory package that could apply to it. */
  datatype Candidate = Candidate(
    agent: Text, advisory: Text, name: Text, fixedArch: Text, scheme: Text,
    introduced: Option<Text>, fixed: Option<Text>, lastAffected: Option<Text>,
    installed: Text, versionId: int, runningKernel: Option<Text>)

  // ---- one candidate ------------------------------------------------------------

  /** How two versions compare under a scheme: Debian's, or else rpm's. */
  function Order(scheme: Text, a: Text, b: Text): Ordering {
    if scheme == Ascii("dpkg") then DpkgVersion.Order(a, b) else RpmVersion.EvrOrder(a, b)
  }

  lemma OrderIsTotalPreorder(scheme: Text, a: Text, b: Text, c: Text)
    ensures Order(scheme, a, a) == Equal
    ensures Order(scheme, b, a) == Order(scheme, a, b).Flip()
    ensures Chain(Order(scheme, a, b), Order(scheme, b, c), Order(scheme, a, c))
  {
    DpkgVersion.TotalPreorder(a, b, c);
    RpmVersion.EvrTotalPreorder(a, b, c);
  }

  /** Not before the first affected version, and before the fix, or not after the last affected one. */
  predicate InRange(c: Candidate, installed: Text) {
    && (match c.introduced
        case None => true
        case Some(from) => from == Ascii("0") || Order(c.scheme, installed, from) != Less)
    && (match c.fixed
        case Some(fixed) => Order(c.scheme, installed, fixed) == Less
        case None =>
          match c.lastAffected
          case Some(last) => Order(c.scheme, installed, last) != Greater
          case None => true)
  }

  predicate IsKernel(name: Text) {
    name == Ascii("kernel") || name == Ascii("kernel-core") || Ascii("kernel-modules") <= name
  }

  const ARCHES: seq<string> := ["x86_64", "aarch64", "ppc64le", "s390x", "i686", "armv7hl", "riscv64"]

  predicate IsArch(text: Text) {
    exists i :: 0 <= i < |ARCHES| && text == Ascii(ARCHES[i])
  }

  /** A text without the architecture at its end. */
  function Bare(plain: Text): Text {
    var dot := LastIndexOf(plain, 46);
    if dot < |plain| && IsArch(plain[dot + 1..]) then plain[..dot] else plain
  }

  /** A `uname -r` release as `0:version-release`. */
  function RunningEvr(uname: Text): Option<Text> {
    var bare := Bare(uname[..IndexOf(uname, 43)]);
    var dash := IndexOf(bare, 45);
    if dash == |bare| then None
    else Some(Ascii("0:") + bare[..dash] + Ascii("-") + bare[dash + 1..])
  }

  /** The running kernel, when the candidate is an rpm kernel and it is below the fix. */
  function RunningBelowFix(c: Candidate): Option<Text> {
    if c.fixed.None? || !IsKernel(c.name) || c.scheme != Ascii("rpm") || c.runningKernel.None? then None
    else
      match RunningEvr(c.runningKernel.value)
      case None => None
      case Some(running) =>
        if Order(Ascii("rpm"), running, c.fixed.value) == Less then Some(running) else None
  }

  predicate Affected(c: Candidate) {
    InRange(c, c.installed) || RunningBelowFix(c).Some?
  }

  // ---- groups of candidates -------------------------------------------------------

  datatype GroupKey = GroupKey(agent: Text, advisory: Text, name: Text, arch: Text, from: Text)

  function KeyOf(c: Candidate): GroupKey {
    GroupKey(c.agent, c.advisory, c.name, c.fixedArch, if c.introduced.Some? then c.introduced.value else [])
  }

  /** The order of the keys in the tree map `evaluate` walks. */
  function KeyCmp(k: GroupKey, l: GroupKey): Ordering {
    LexCmp(k.agent, l.agent).Then(LexCmp(k.advisory, l.advisory)).Then(LexCmp(k.name, l.name))
    .Then(LexCmp(k.arch, l.arch)).Then(LexCmp(k.from, l.from))
  }

  lemma KeyOrderIsTotal(k: GroupKey, l: GroupKey, m: GroupKey)
    ensures KeyCmp(k, l) == Equal <==> k == l
    ensures KeyCmp(l, k) == KeyCmp(k, l).Flip()
    ensures Chain(KeyCmp(k, l), KeyCmp(l, m), KeyCmp(k, m))
  {
    hide LexCmp, Chain, Ordering.Then, Ordering.Flip;
    LexTotalOrder(k.agent, l.agent, m.agent);
    LexTotalOrder(k.advisory, l.advisory, m.advisory);
    LexTotalOrder(k.name, l.name, m.name);
    LexTotalOrder(k.arch, l.arch, m.arch);
    LexTotalOrder(k.from, l.from, m.from);
    var kl, lm, km := LexCmp(k.agent, l.agent), LexCmp(l.agent, m.agent), LexCmp(k.agent, m.agent);
    var kl', lm', km' := LexCmp(k.advisory, l.advisory), LexCmp(l.advisory, m.advisory), LexCmp(k.advisory, m.advisory);
    ThenIsTotal(kl, lm, km, kl', lm', km');
    kl, lm, km := kl.Then(kl'), lm.Then(lm'), km.Then(km');
    kl', lm', km' := LexCmp(k.name, l.name), LexCmp(l.name, m.name), LexCmp(k.name, m.name);
    ThenIsTotal(kl, lm, km, kl', lm', km');
    kl, lm, km := kl.Then(kl'), lm.Then(lm'), km.Then(km');
    kl', lm', km' := LexCmp(k.arch, l.arch), LexCmp(l.arch, m.arch), LexCmp(k.arch, m.arch);
    ThenIsTotal(kl, lm, km, kl', lm', km');
    kl, lm, km := kl.Then(kl'), lm.Then(lm'), km.Then(km');
    kl', lm', km' := LexCmp(k.from, l.from), LexCmp(l.from, m.from), LexCmp(k.from, m.from);
    ThenIsTotal(kl, lm, km, kl', lm', km');
  }

  /** The first row of group `k` that no later row of it is newer than, or none. */
  function Newest(rows: seq<Candidate>, k: GroupKey): (newest: Option<Candidate>)
    ensures newest.Some? ==> newest.value in rows && newest.value.fixed.Some? && KeyOf(newest.value) == k
    ensures newest.None? <==> forall c :: c in rows && c.fixed.Some? ==> KeyOf(c) != k
  {
    if rows == [] then None
    else
      var before, c := Newest(rows[..|rows| - 1], k), rows[|rows| - 1];
      assert rows == rows[..|rows| - 1] + [c];
      if c.fixed.None? || KeyOf(c) != k then before
      else if before.None? || Order(c.scheme, c.installed, before.value.installed) == Greater then Some(c)
      else before
  }

  ghost function Keys(rows: seq<Candidate>): set<GroupKey> {
    set c | c in rows && c.fixed.Some? :: KeyOf(c)
  }

  /** The affected groups, each with its newest row. */
  ghost function AffectedGroups(rows: seq<Candidate>): map<GroupKey, Candidate> {
    map k | k in Keys(rows) && Affected(Newest(rows, k).value) :: Newest(rows, k).value
  }

  // ---- what is reported -----------------------------------------------------------

  /** One affected package: `rebootOnly` when the fix is installed but does not run. */
  datatype Package = Package(installed: Text, fixed: Option<Text>, running: Option<Text>, rebootOnly: bool)

  function PackageOf(c: Candidate): Package {
    Package(c.installed, c.fixed, RunningBelowFix(c), !InRange(c, c.installed))
  }

  datatype HostAdvisory = HostAdvisory(agent: Text, advisory: Text)

  /** The affected packages per host and advisory, by name. */
  type Findings = map<HostAdvisory, map<Text, Package>>

  /** `reboot_needed` of one finding. */
  predicate RebootNeeded(packages: map<Text, Package>) {
    forall name :: name in packages ==> packages[name].rebootOnly
  }

  function Lookup(found: Findings, p: HostAdvisory, name: Text): Option<Package> {
    if p in found && name in found[p] then Some(found[p][name]) else None
  }

  predicate IsLeast(keys: set<GroupKey>, k: GroupKey) {
    k in keys && forall l :: l in keys ==> KeyCmp(k, l) != Greater
  }

  lemma {:induction false} LeastExists(keys: set<GroupKey>)
    requires keys != {}
    ensures exists k :: IsLeast(keys, k)
  {
    hide KeyCmp;
    var k :| k in keys;
    KeyOrderIsTotal(k, k, k);
    if keys == {k} {
      assert IsLeast(keys, k);
    } else {
      LeastExists(keys - {k});
      var m :| IsLeast(keys - {k}, m);
      KeyOrderIsTotal(k, m, m);
      if KeyCmp(m, k) != Greater {
        assert IsLeast(keys, m);
      } else {
        forall l | l in keys ensures KeyCmp(k, l) != Greater { KeyOrderIsTotal(k, m, l); }
        assert IsLeast(keys, k);
      }
    }
  }

  lemma LeastIsUnique(keys: set<GroupKey>, k: GroupKey, l: GroupKey)
    requires IsLeast(keys, k) && IsLeast(keys, l)
    ensures k == l
  {
    hide KeyCmp;
    KeyOrderIsTotal(k, l, l);
  }

  ghost function Least(keys: set<GroupKey>): (k: GroupKey)
    requires keys != {}
    ensures IsLeast(keys, k)
  {
    LeastExists(keys);
    var k :| IsLeast(keys, k);
    k
  }

  ghost function Named(groups: map<GroupKey, Candidate>, p: HostAdvisory, name: Text): set<GroupKey> {
    set k | k in groups && k.agent == p.agent && k.advisory == p.advisory && k.name == name
  }

  /** What must be reported for one package name: the entry of its first affected group. */
  ghost function Expected(groups: map<GroupKey, Candidate>, p: HostAdvisory, name: Text): Option<Package> {
    var keys := Named(groups, p, name);
    if keys == {} then None else Some(PackageOf(groups[Least(keys)]))
  }

  /** `found` reports exactly the affected `groups`. */
  ghost predicate Describes(groups: map<GroupKey, Candidate>, found: Findings) {
    && (forall p, name :: Lookup(found, p, name) == Expected(groups, p, name))
    && (forall p :: p in found ==> found[p] != map[])
  }

  /** Only one report describes a set of affected groups. */
  lemma DescribesOnce(groups: map<GroupKey, Candidate>, f: Findings, g: Findings)
    requires Describes(groups, f) && Describes(groups, g)
    ensures f == g
  {
    hide Expected;
    forall p, name ensures Lookup(f, p, name) == Lookup(g, p, name) {
      assert Lookup(f, p, name) == Expected(groups, p, name);
    }
    SameLookups(f, g);
    SameLookups(g, f);
    assert f.Keys == g.Keys;
    forall p | p in f ensures f[p] == g[p] {
      assert forall name :: Lookup(f, p, name) == Lookup(g, p, name);
      assert f[p].Keys == g[p].Keys by {
        forall name ensures name in f[p] <==> name in g[p] { assert Lookup(f, p, name) == Lookup(g, p, name); }
      }
      forall name | name in f[p] ensures f[p][name] == g[p][name] { assert Lookup(f, p, name) == Lookup(g, p, name); }
    }
  }

  lemma SameLookups(f: Findings, g: Findings)
    requires forall p, name :: Lookup(f, p, name) == Lookup(g, p, name)
    requires forall p :: p in f ==> f[p] != map[]
    ensures f.Keys <= g.Keys
  {
    forall p | p in f ensures p in g {
      var name :| name in f[p];
      assert Lookup(f, p, name).Some?;
      assert Lookup(g, p, name).Some?;
    }
  }

  /** Adds one affected group; an entry already kept for its package name stays. */
  function Insert(found: Findings, k: GroupKey, c: Candidate): Findings {
    var p := HostAdvisory(k.agent, k.advisory);
    var packages := if p in found then found[p] else map[];
    found[p := if k.name in packages then packages else packages[k.name := PackageOf(c)]]
  }

  lemma InsertDescribes(groups: map<GroupKey, Candidate>, found: Findings, k: GroupKey, c: Candidate)
    requires Describes(groups, found)
    requires forall l :: l in groups ==> KeyCmp(l, k) == Less
    ensures Describes(groups[k := c], Insert(found, k, c))
  {
    hide KeyCmp, PackageOf;
    var wider, next := groups[k := c], Insert(found, k, c);
    var p0 := HostAdvisory(k.agent, k.advisory);
    forall p, name ensures Lookup(next, p, name) == Expected(wider, p, name) {
      assert Lookup(found, p, name) == Expected(groups, p, name);
      var prior, after := Named(groups, p, name), Named(wider, p, name);
      if p == p0 && name == k.name {
        assert after == prior + {k};
        if prior == {} {
          assert IsLeast(after, k) by { KeyOrderIsTotal(k, k, k); }
          LeastIsUnique(after, k, Least(after));
        } else {
          var l := Least(prior);
          KeyOrderIsTotal(l, k, k);
          assert IsLeast(after, l);
          LeastIsUnique(after, l, Least(after));
          assert k !in groups by { KeyOrderIsTotal(k, k, k); }
        }
      } else {
        assert after == prior;
        assert k !in groups by { KeyOrderIsTotal(k, k, k); }
      }
    }
  }

  lemma NothingDescribed()
    ensures Describes(map[], map[])
  {
  }

  // ---- evaluate -------------------------------------------------------------------

  lemma NewestStep(rows: seq<Candidate>, i: nat, k: GroupKey)
    requires i < |rows|
    ensures var c, before := rows[i], Newest(rows[..i], k);
            Newest(rows[..i + 1], k) ==
            if c.fixed.None? || KeyOf(c) != k then before
            else if before.None? || Order(c.scheme, c.installed, before.value.installed) == Greater then Some(c)
            else before
  {
    assert rows[..i + 1][..i] == rows[..i];
  }

  /** The newest row of every group, as one pass over the rows finds it. */
  method NewestPerGroup(rows: seq<Candidate>) returns (newest: map<GroupKey, Candidate>)
    ensures newest.Keys == Keys(rows)
    ensures forall k :: k in newest ==> Newest(rows, k) == Some(newest[k])
  {
    hide Order, Newest;
    newest := map[];
    assert rows[..0] == [];
    for i := 0 to |rows|
      invariant newest.Keys == Keys(rows[..i])
      invariant forall k :: k in newest ==> Newest(rows[..i], k) == Some(newest[k])
    {
      var c := rows[i];
      var k := KeyOf(c);
      forall l ensures l in Keys(rows[..i + 1]) <==> l in Keys(rows[..i]) || (c.fixed.Some? && l == k) {
        assert rows[..i + 1] == rows[..i] + [c];
      }
      ghost var was := newest;
      if c.fixed.Some? {
        assert k !in newest ==> Newest(rows[..i], k).None?;
        OrderIsTotalPreorder(c.scheme, c.installed, c.installed, c.installed);
        if k !in newest {
          newest := newest[k := c];
        }
        if Order(c.scheme, c.installed, newest[k].installed) == Greater {
          newest := newest[k := c];
        }
      }
      forall l | l in newest ensures Newest(rows[..i + 1], l) == Some(newest[l]) {
        NewestStep(rows, i, l);
      }
    }
    assert rows[..|rows|] == rows;
  }

  /** `done` holds the affected groups of the keys walked so far, all below those in `rest`. */
  ghost predicate Walked(newest: map<GroupKey, Candidate>, rest: set<GroupKey>, done: map<GroupKey, Candidate>) {
    && rest <= newest.Keys
    && (forall k :: k in done <==> k in newest && k !in rest && Affected(newest[k]))
    && (forall k :: k in done ==> done[k] == newest[k])
    && (forall k, l :: k in done && l in rest ==> KeyCmp(k, l) == Less)
  }

  lemma WalkStep(newest: map<GroupKey, Candidate>, rest: set<GroupKey>, done: map<GroupKey, Candidate>, k: GroupKey)
    requires Walked(newest, rest, done) && IsLeast(rest, k)
    ensures Walked(newest, rest - {k}, if Affected(newest[k]) then done[k := newest[k]] else done)
    ensures forall l :: l in done ==> KeyCmp(l, k) == Less
  {
    hide KeyCmp, Affected;
    forall l | l in rest && l != k ensures KeyCmp(k, l) == Less { KeyOrderIsTotal(k, l, l); }
  }

  lemma WalkEnds(rows: seq<Candidate>, newest: map<GroupKey, Candidate>, done: map<GroupKey, Candidate>)
    requires newest.Keys == Keys(rows)
    requires forall k :: k in newest ==> Newest(rows, k) == Some(newest[k])
    requires Walked(newest, {}, done)
    ensures done == AffectedGroups(rows)
  {
    hide Newest, Affected;
  }

  /** Decides which hosts are affected by which advisory. */
  method Evaluate(rows: seq<Candidate>) returns (found: Findings)
    ensures Describes(AffectedGroups(rows), found)
  {
    hide KeyCmp, Affected, Describes, Insert, Newest, AffectedGroups, Keys;
    var newest := NewestPerGroup(rows);
    found := map[];
    NothingDescribed();
    var rest := newest.Keys;
    ghost var done: map<GroupKey, Candidate> := map[];
    while rest != {}
      invariant Walked(newest, rest, done)
      invariant Describes(done, found)
    {
      LeastExists(rest);
      var k :| IsLeast(rest, k);
      var c := newest[k];
      WalkStep(newest, rest, done, k);
      if Affected(c) {
        InsertDescribes(done, found, k, c);
        found := Insert(found, k, c);
        done := done[k := c];
      }
      rest := rest - {k};
    }
    WalkEnds(rows, newest, done);
  }

  // ---- what a report means --------------------------------------------------------

  /** The installed versions of one group are compared in one scheme. */
  ghost predicate OneScheme(rows: seq<Candidate>) {
    forall c, d :: c in rows && d in rows && c.fixed.Some? && d.fixed.Some? && KeyOf(c) == KeyOf(d) ==>
                     c.scheme == d.scheme
  }

  /** Rows of one group share scheme, range, fix and running kernel. */
  ghost predicate Uniform(rows: seq<Candidate>) {
    forall c, d :: c in rows && d in rows && c.fixed.Some? && d.fixed.Some? && KeyOf(c) == KeyOf(d) ==> Alike(c, d)
  }

  predicate Alike(c: Candidate, d: Candidate) {
    c.scheme == d.scheme && c.introduced == d.introduced && c.fixed == d.fixed && c.runningKernel == d.runningKernel
  }

  /** No row of the same group has a newer version installed. */
  ghost predicate IsNewest(rows: seq<Candidate>, c: Candidate) {
    && c in rows && c.fixed.Some?
    && forall d :: d in rows && d.fixed.Some? && KeyOf(d) == KeyOf(c) ==>
      Order(c.scheme, d.installed, c.installed) != Greater
  }

  lemma {:induction false} NewestIsNewest(rows: seq<Candidate>, k: GroupKey)
    requires OneScheme(rows) && k in Keys(rows)
    ensures IsNewest(rows, Newest(rows, k).value)
  {
    hide Order, Newest, KeyOf;
    var n := |rows| - 1;
    var c, rest := rows[n], rows[..n];
    assert rows[..n + 1] == rows && rows == rest + [c];
    NewestStep(rows, n, k);
    if Newest(rest, k).Some? {
      var before := Newest(rest, k).value;
      NewestIsNewest(rest, k);
      NewerRow(rest, before, c);
    } else {
      OrderIsTotalPreorder(c.scheme, c.installed, c.installed, c.installed);
    }
  }

  lemma NewerRow(rest: seq<Candidate>, before: Candidate, c: Candidate)
    requires OneScheme(rest + [c]) && IsNewest(rest, before)
    ensures c.fixed.None? || KeyOf(c) != KeyOf(before) ==> IsNewest(rest + [c], before)
    ensures c.fixed.Some? && KeyOf(c) == KeyOf(before) && Order(c.scheme, c.installed, before.installed) == Greater ==>
            IsNewest(rest + [c], c)
    ensures c.fixed.Some? && KeyOf(c) == KeyOf(before) && Order(c.scheme, c.installed, before.installed) != Greater ==>
            IsNewest(rest + [c], before)
  {
    hide Order, KeyOf;
    if c.fixed.Some? && KeyOf(c) == KeyOf(before) {
      assert c in rest + [c] && before in rest + [c];
      forall d | d in rest && d.fixed.Some? && KeyOf(d) == KeyOf(c)
        ensures Order(c.scheme, c.installed, before.installed) == Greater ==>
                Order(c.scheme, d.installed, c.installed) != Greater
      {
        OrderIsTotalPreorder(c.scheme, d.installed, before.installed, c.installed);
        OrderIsTotalPreorder(c.scheme, c.installed, before.installed, c.installed);
      }
      OrderIsTotalPreorder(c.scheme, c.installed, c.installed, c.installed);
    }
  }

  /** In one group, equally new versions are affected alike. */
  lemma SameVersionSameAnswer(c: Candidate, d: Candidate)
    requires c.fixed.Some? && d.fixed.Some? && KeyOf(c) == KeyOf(d) && Alike(c, d)
    requires Order(c.scheme, c.installed, d.installed) == Equal
    ensures InRange(c, c.installed) == InRange(d, d.installed)
    ensures RunningBelowFix(c) == RunningBelowFix(d)
  {
    hide Order;
    OrderIsTotalPreorder(c.scheme, c.installed, d.installed, c.fixed.value);
    OrderIsTotalPreorder(c.scheme, d.installed, c.installed, c.fixed.value);
    if c.introduced.Some? {
      var from := c.introduced.value;
      OrderIsTotalPreorder(c.scheme, c.installed, d.installed, from);
      OrderIsTotalPreorder(c.scheme, d.installed, c.installed, from);
      OrderIsTotalPreorder(c.scheme, from, c.installed, d.installed);
      OrderIsTotalPreorder(c.scheme, from, d.installed, c.installed);
    }
  }

  /** Equally new rows of one group are affected alike and shown alike. */
  ghost predicate ShownAlike(rows: seq<Candidate>) {
    forall c, d :: IsNewest(rows, c) && IsNewest(rows, d) && KeyOf(c) == KeyOf(d) ==>
                     Affected(c) == Affected(d) && PackageOf(c) == PackageOf(d).(installed := c.installed)
  }

  lemma UniformIsShownAlike(rows: seq<Candidate>)
    requires Uniform(rows)
    ensures OneScheme(rows) && ShownAlike(rows)
  {
    hide Order, InRange, RunningBelowFix, KeyOf;
    forall c, d | IsNewest(rows, c) && IsNewest(rows, d) && KeyOf(c) == KeyOf(d)
      ensures Affected(c) == Affected(d) && PackageOf(c) == PackageOf(d).(installed := c.installed)
    {
      assert Alike(c, d);
      OrderIsTotalPreorder(c.scheme, c.installed, d.installed, d.installed);
      SameVersionSameAnswer(c, d);
    }
  }

  /** A host is affected by an advisory through row `c`. */
  ghost predicate Through(rows: seq<Candidate>, c: Candidate, p: HostAdvisory) {
    c.agent == p.agent && c.advisory == p.advisory && IsNewest(rows, c) && Affected(c)
  }

  /** Some affected group is of this host and advisory. */
  ghost predicate Reported(rows: seq<Candidate>, p: HostAdvisory) {
    exists k :: k in AffectedGroups(rows) && k.agent == p.agent && k.advisory == p.advisory
  }

  lemma FoundIsReported(rows: seq<Candidate>, found: Findings, p: HostAdvisory)
    requires Describes(AffectedGroups(rows), found)
    ensures p in found <==> Reported(rows, p)
  {
    hide AffectedGroups, PackageOf, KeyCmp;
    var groups := AffectedGroups(rows);
    if p in found {
      var name :| name in found[p];
      assert Lookup(found, p, name) == Expected(groups, p, name);
    }
    if k :| k in groups && k.agent == p.agent && k.advisory == p.advisory {
      assert k in Named(groups, p, k.name);
      assert Lookup(found, p, k.name) == Expected(groups, p, k.name);
    }
  }

  /** Whatever is reported is affected through a newest row. */
  lemma ReportedThrough(rows: seq<Candidate>, p: HostAdvisory)
    requires OneScheme(rows) && Reported(rows, p)
    ensures exists c :: Through(rows, c, p)
  {
    hide Affected, Newest;
    var k :| k in AffectedGroups(rows) && k.agent == p.agent && k.advisory == p.advisory;
    NewestIsNewest(rows, k);
    assert Through(rows, Newest(rows, k).value, p);
  }

  /**
   A host and advisory are reported exactly when the newest installed version of some group is in range, or
   its rpm kernel runs below the fix, if equally new rows of a group are affected alike.
   */
  lemma ReportedExactlyWhenNewestAffected(rows: seq<Candidate>, found: Findings, p: HostAdvisory)
    requires OneScheme(rows) && AffectedAlike(rows) && Describes(AffectedGroups(rows), found)
    ensures p in found <==> exists c :: Through(rows, c, p)
  {
    hide Affected, Newest, OneScheme, Describes;
    FoundIsReported(rows, found, p);
    if p in found { ReportedThrough(rows, p); }
    if c :| Through(rows, c, p) {
      assert KeyOf(c) in Keys(rows);
      NewestIsNewest(rows, KeyOf(c));
      assert KeyOf(c) in AffectedGroups(rows);
    }
  }

  /** Two reports that differ at most in which of several equal versions they print. */
  ghost predicate SameUpToEqualVersions(f: Findings, g: Findings) {
    forall p, name ::
      var (x, y) := (Lookup(f, p, name), Lookup(g, p, name));
      x.Some? == y.Some? && (x.Some? ==> x.value == y.value.(installed := x.value.installed))
  }

  /** The same rows in any order. */
  ghost predicate SameRows(rows: seq<Candidate>, other: seq<Candidate>) {
    multiset(rows) == multiset(other)
  }

  /** The same rows in any order, repeated or not. */
  ghost predicate SameSet(rows: seq<Candidate>, other: seq<Candidate>) {
    forall c :: c in rows <==> c in other
  }

  lemma ReorderedIsSameSet(rows: seq<Candidate>, other: seq<Candidate>)
    requires SameRows(rows, other)
    ensures SameSet(rows, other)
  {
    forall c ensures c in rows <==> c in other { assert c in rows <==> c in multiset(rows); }
  }

  lemma SameSetHasSameNewest(rows: seq<Candidate>, other: seq<Candidate>)
    requires SameSet(rows, other)
    ensures Keys(rows) == Keys(other) && (OneScheme(rows) ==> OneScheme(other))
    ensures forall c :: IsNewest(rows, c) <==> IsNewest(other, c)
  {
    hide Order, KeyOf;
  }

  lemma SameRowsHaveSameNewest(rows: seq<Candidate>, other: seq<Candidate>)
    requires SameRows(rows, other)
    ensures SameSet(rows, other) && Keys(rows) == Keys(other) && (OneScheme(rows) ==> OneScheme(other))
    ensures forall c :: IsNewest(rows, c) <==> IsNewest(other, c)
  {
    hide IsNewest, OneScheme, Keys, SameRows;
    ReorderedIsSameSet(rows, other);
    SameSetHasSameNewest(rows, other);
  }

  lemma GroupsAgree(rows: seq<Candidate>, other: seq<Candidate>)
    requires OneScheme(rows) && ShownAlike(rows) && SameSet(rows, other)
    ensures AffectedGroups(rows).Keys == AffectedGroups(other).Keys
    ensures forall k :: k in AffectedGroups(rows) ==>
              var (x, y) := (PackageOf(AffectedGroups(rows)[k]), PackageOf(AffectedGroups(other)[k]));
              x == y.(installed := x.installed)
  {
    hide Affected, PackageOf, Newest, KeyOf, Order, IsNewest, OneScheme;
    SameSetHasSameNewest(rows, other);
    forall k | k in Keys(rows)
      ensures Affected(Newest(rows, k).value) == Affected(Newest(other, k).value)
      ensures var (x, y) := (PackageOf(Newest(rows, k).value),
              PackageOf(Newest(other, k).value)); x == y.(installed := x.installed)
    {
      NewestIsNewest(rows, k);
      NewestIsNewest(other, k);
      var (c, d) := (Newest(rows, k).value, Newest(other, k).value);
      assert IsNewest(rows, c) && IsNewest(rows, d);
      InstalledOf(c);
    }
  }

  lemma InstalledOf(c: Candidate)
    ensures PackageOf(c).installed == c.installed
  {
  }

  /**
   Neither the order of the rows nor repeating them changes what is reported, reboot flags included, if
   equally new rows of a group are affected and shown alike.
   */
  lemma RowOrderIsIrrelevant(rows: seq<Candidate>, other: seq<Candidate>, f: Findings, g: Findings)
    requires OneScheme(rows) && ShownAlike(rows) && SameSet(rows, other)
    requires Describes(AffectedGroups(rows), f) && Describes(AffectedGroups(other), g)
    ensures SameUpToEqualVersions(f, g)
    ensures f.Keys == g.Keys && forall p :: p in f ==> RebootNeeded(f[p]) == RebootNeeded(g[p])
  {
    hide AffectedGroups, PackageOf, OneScheme, ShownAlike, SameSet, KeyCmp;
    var groups, groups' := AffectedGroups(rows), AffectedGroups(other);
    GroupsAgree(rows, other);
    forall p, name ensures
        var (x, y) := (Lookup(f, p, name), Lookup(g, p, name));
        x.Some? == y.Some? && (x.Some? ==> x.value == y.value.(installed := x.value.installed))
    {
      assert Lookup(f, p, name) == Expected(groups, p, name);
      assert Lookup(g, p, name) == Expected(groups', p, name);
      assert Named(groups, p, name) == Named(groups', p, name);
    }
    SameFlags(f, g);
  }

  lemma SameFlags(f: Findings, g: Findings)
    requires SameUpToEqualVersions(f, g)
    requires (forall p :: p in f ==> f[p] != map[]) && forall p :: p in g ==> g[p] != map[]
    ensures f.Keys == g.Keys && forall p :: p in f ==> RebootNeeded(f[p]) == RebootNeeded(g[p])
  {
    forall p ensures p in f <==> p in g {
      if p in f { var name :| name in f[p]; assert Lookup(f, p, name).Some?; assert Lookup(g, p, name).Some?; }
      if p in g { var name :| name in g[p]; assert Lookup(g, p, name).Some?; assert Lookup(f, p, name).Some?; }
    }
    forall p | p in f ensures RebootNeeded(f[p]) == RebootNeeded(g[p]) {
      forall name ensures name in f[p] <==> name in g[p] {
        assert Lookup(f, p, name).Some? == Lookup(g, p, name).Some?;
      }
      forall name | name in f[p] ensures f[p][name].rebootOnly == g[p][name].rebootOnly {
        assert Lookup(f, p, name).Some?;
      }
    }
  }

  // ---- when the order of the rows decides -----------------------------------------

  /** Equally new rows of one group are affected alike. */
  ghost predicate AffectedAlike(rows: seq<Candidate>) {
    forall c, d :: IsNewest(rows, c) && IsNewest(rows, d) && KeyOf(c) == KeyOf(d) ==> Affected(c) == Affected(d)
  }

  ghost function Only(rows: seq<Candidate>, f: Candidate -> bool, keep: bool): (only: seq<Candidate>)
    ensures forall c :: c in only <==> c in rows && f(c) == keep
  {
    if rows == [] then []
    else
      var last := rows[|rows| - 1];
      assert rows == rows[..|rows| - 1] + [last];
      Only(rows[..|rows| - 1], f, keep) + if f(last) == keep then [last] else []
  }

  /** The rows that satisfy `f`, then the others. */
  ghost function Front(rows: seq<Candidate>, f: Candidate -> bool): seq<Candidate> {
    Only(rows, f, true) + Only(rows, f, false)
  }

  lemma {:induction false} FrontIsSame(rows: seq<Candidate>, f: Candidate -> bool)
    ensures SameRows(rows, Front(rows, f))
  {
    if rows != [] {
      var rest, last := rows[..|rows| - 1], rows[|rows| - 1];
      assert rows == rest + [last];
      FrontIsSame(rest, f);
    }
  }

  /** The first row of a group stays its newest if none is newer. */
  lemma {:induction false} FirstStays(rows: seq<Candidate>, i: nat, c: Candidate)
    requires i < |rows| && rows[i] == c && c.fixed.Some?
    requires forall j :: 0 <= j < i ==> rows[j].fixed.None? || KeyOf(rows[j]) != KeyOf(c)
    requires forall d :: d in rows && d.fixed.Some? && KeyOf(d) == KeyOf(c) ==>
                           Order(d.scheme, d.installed, c.installed) != Greater
    ensures Newest(rows, KeyOf(c)) == Some(c)
  {
    hide Order, KeyOf;
    var n := |rows| - 1;
    assert rows == rows[..n] + [rows[n]];
    if i < n {
      assert rows[n] in rows;
      FirstStays(rows[..n], i, c);
    } else {
      assert forall d :: d in rows[..n] && d.fixed.Some? ==> KeyOf(d) != KeyOf(c);
    }
  }

  /** The index of the first row of a group. */
  lemma {:induction false} FirstOf(rows: seq<Candidate>, k: GroupKey) returns (i: nat)
    requires k in Keys(rows)
    ensures i < |rows| && rows[i].fixed.Some? && KeyOf(rows[i]) == k
    ensures forall j :: 0 <= j < i ==> rows[j].fixed.None? || KeyOf(rows[j]) != k
  {
    hide KeyOf;
    if rows[0].fixed.Some? && KeyOf(rows[0]) == k {
      i := 0;
    } else {
      assert rows == [rows[0]] + rows[1..];
      var rest := FirstOf(rows[1..], k);
      i := rest + 1;
      forall j | 0 <= j < i ensures rows[j].fixed.None? || KeyOf(rows[j]) != k {
        if j > 0 { assert rows[j] == rows[1..][j - 1]; }
      }
    }
  }

  /** Newest rows that are put in front are the ones their groups keep. */
  lemma FrontWins(rows: seq<Candidate>, f: Candidate -> bool, k: GroupKey)
    requires OneScheme(rows) && forall c :: c in rows && f(c) ==> IsNewest(rows, c)
    requires k in Keys(Only(rows, f, true))
    ensures var newest := Newest(Front(rows, f), k); newest.Some? && newest.value in rows && f(newest.value)
  {
    hide Order, KeyOf, Newest;
    var front, all := Only(rows, f, true), Front(rows, f);
    var i := FirstOf(front, k);
    var c := front[i];
    assert c in front && all[i] == c;
    assert forall j :: 0 <= j < i ==> all[j] == front[j];
    FrontIsSame(rows, f);
    SameRowsHaveSameNewest(rows, all);
    FirstStays(all, i, c);
  }

  /**
   Whatever the order of the rows, the same groups are affected, if and only if equally new rows of a group
   are affected alike.
   */
  lemma RowOrderDecidesExactly(rows: seq<Candidate>)
    requires OneScheme(rows)
    ensures (forall other :: SameRows(rows, other) ==> AffectedGroups(other).Keys == AffectedGroups(rows).Keys) <==>
            AffectedAlike(rows)
  {
    hide IsNewest, OneScheme, Newest, Affected, KeyOf, SameRows;
    if AffectedAlike(rows) {
      forall other | SameRows(rows, other) ensures AffectedGroups(other).Keys == AffectedGroups(rows).Keys {
        SameRowsHaveSameNewest(rows, other);
        forall k | k in Keys(rows) ensures Affected(Newest(rows, k).value) == Affected(Newest(other, k).value) {
          NewestIsNewest(rows, k);
          NewestIsNewest(other, k);
        }
      }
    } else {
      var c, d :| IsNewest(rows, c) && IsNewest(rows, d) && KeyOf(c) == KeyOf(d) && Affected(c) != Affected(d);
      InFront(rows, c);
      InFront(rows, d);
      var k := KeyOf(c);
      assert k in AffectedGroups(Front(rows, x => x == c)) <==> Affected(c);
      assert k in AffectedGroups(Front(rows, x => x == d)) <==> Affected(d);
    }
  }

  lemma InFront(rows: seq<Candidate>, c: Candidate)
    requires OneScheme(rows) && IsNewest(rows, c)
    ensures var other := Front(rows, x => x == c);
            SameRows(rows, other) && KeyOf(c) in Keys(other) && Newest(other, KeyOf(c)) == Some(c)
  {
    hide Newest, KeyOf, Order;
    FrontIsSame(rows, x => x == c);
    SameRowsHaveSameNewest(rows, Front(rows, x => x == c));
    assert c in Only(rows, x => x == c, true);
    FrontWins(rows, x => x == c, KeyOf(c));
  }

  /** All newest rows of some group of a host and advisory are affected. */
  ghost predicate SurelyAffected(rows: seq<Candidate>, p: HostAdvisory) {
    exists k :: k in Keys(rows) && k.agent == p.agent && k.advisory == p.advisory
      && forall c :: IsNewest(rows, c) && KeyOf(c) == k ==> Affected(c)
  }

  lemma SurelyReported(rows: seq<Candidate>, p: HostAdvisory)
    requires OneScheme(rows) && SurelyAffected(rows, p)
    ensures Reported(rows, p)
  {
    hide Newest, Affected, IsNewest;
    var k :| k in Keys(rows) && k.agent == p.agent && k.advisory == p.advisory
      && forall c :: IsNewest(rows, c) && KeyOf(c) == k ==> Affected(c);
    NewestIsNewest(rows, k);
    assert k in AffectedGroups(rows);
  }

  /** A newest row of the host and advisory that is not affected. */
  ghost predicate Cleared(rows: seq<Candidate>, c: Candidate, p: HostAdvisory) {
    c.agent == p.agent && c.advisory == p.advisory && IsNewest(rows, c) && !Affected(c)
  }

  /** If no group is surely affected, some order of the rows reports nothing. */
  lemma ClearedFirst(rows: seq<Candidate>, p: HostAdvisory) returns (other: seq<Candidate>)
    requires OneScheme(rows) && !SurelyAffected(rows, p)
    ensures SameRows(rows, other) && !Reported(other, p)
  {
    hide Newest, Affected, IsNewest, OneScheme, SameRows;
    var f := c => Cleared(rows, c, p);
    other := Front(rows, f);
    FrontIsSame(rows, f);
    SameRowsHaveSameNewest(rows, other);
    forall k | k in Keys(other) && k.agent == p.agent && k.advisory == p.advisory
      ensures !Affected(Newest(other, k).value)
    {
      assert k in Keys(rows);
      var c :| IsNewest(rows, c) && KeyOf(c) == k && !Affected(c);
      IsAmong(rows, c);
      assert c in Only(rows, f, true);
      FrontWins(rows, f, k);
    }
  }

  lemma IsAmong(rows: seq<Candidate>, c: Candidate)
    requires IsNewest(rows, c)
    ensures c in rows && c.fixed.Some?
  {
  }

  /** If a newest row is affected, some order of the rows reports it. */
  lemma AffectedFirst(rows: seq<Candidate>, p: HostAdvisory, c: Candidate) returns (other: seq<Candidate>)
    requires OneScheme(rows) && Through(rows, c, p)
    ensures SameRows(rows, other) && Reported(other, p)
  {
    hide Newest, Affected, IsNewest, OneScheme, SameRows;
    other := Front(rows, x => x == c);
    InFront(rows, c);
    assert KeyOf(c) in AffectedGroups(other);
  }

  /**
   Whether a host and advisory are reported depends on the order of the rows exactly when some newest row
   is affected and no group has only affected ones.
   */
  lemma ReportDependsOnRowOrderExactly(rows: seq<Candidate>, p: HostAdvisory)
    requires OneScheme(rows)
    ensures (forall other :: SameRows(rows, other) ==> Reported(other, p) == Reported(rows, p)) <==>
            ((exists c :: Through(rows, c, p)) ==> SurelyAffected(rows, p))
  {
    hide AffectedGroups, IsNewest, Affected, OneScheme, SameRows, Reported;
    if SurelyAffected(rows, p) {
      forall other | SameRows(rows, other) ensures Reported(other, p) && Reported(rows, p) {
        SurelyInAnyOrder(rows, other, p);
        SurelyReported(other, p);
        SurelyReported(rows, p);
      }
    } else if c :| Through(rows, c, p) {
      var one := AffectedFirst(rows, p, c);
      var none := ClearedFirst(rows, p);
    } else {
      forall other | SameRows(rows, other) ensures !Reported(other, p) {
        if Reported(other, p) { ReportedInAnOrder(rows, other, p); }
      }
      if Reported(rows, p) { ReportedThrough(rows, p); }
    }
  }

  lemma ReportedInAnOrder(rows: seq<Candidate>, other: seq<Candidate>, p: HostAdvisory)
    requires OneScheme(rows) && SameRows(rows, other) && Reported(other, p)
    ensures exists c :: Through(rows, c, p)
  {
    hide IsNewest, Affected, OneScheme, Reported;
    SameRowsHaveSameNewest(rows, other);
    ReportedThrough(other, p);
    var c :| Through(other, c, p);
    assert Through(rows, c, p);
  }

  lemma SurelyInAnyOrder(rows: seq<Candidate>, other: seq<Candidate>, p: HostAdvisory)
    requires OneScheme(rows) && SameRows(rows, other) && SurelyAffected(rows, p)
    ensures OneScheme(other) && SurelyAffected(other, p)
  {
    hide IsNewest, Affected, OneScheme, KeyOf;
    SameRowsHaveSameNewest(rows, other);
    var k :| k in Keys(rows) && k.agent == p.agent && k.advisory == p.advisory
      && forall c :: IsNewest(rows, c) && KeyOf(c) == k ==> Affected(c);
  }

  /** Equally new rows of one group that differ in what they name as the fix. */
  lemma EqualVersionsOfDifferentRanges(c: Candidate, d: Candidate)
    requires c.fixed.Some? && d.fixed.Some? && KeyOf(c) == KeyOf(d)
    requires Order(d.scheme, d.installed, c.installed) == Equal && Order(c.scheme, c.installed, d.installed) == Equal
    ensures Newest([c, d], KeyOf(c)) == Some(c) && Newest([d, c], KeyOf(c)) == Some(d)
    ensures Affected(c) && !Affected(d) ==> KeyOf(c) in AffectedGroups([c, d]) && KeyOf(c) !in AffectedGroups([d, c])
  {
    hide Order, Affected;
    assert [c, d][..1] == [c] && [d, c][..1] == [d];
    assert [c][..0] == [] && [d][..0] == [];
    assert Newest([c], KeyOf(c)) == Some(c) && Newest([d], KeyOf(c)) == Some(d);
    assert c in [c, d];
  }

  lemma OneDigit(x: Byte, y: Byte)
    requires IsDigit(x) && IsDigit(y)
    ensures DpkgVersion.Order([x], [x]) == Equal
    ensures x < y ==> DpkgVersion.Order([x], [y]) == Less
  {
    hide DpkgVersion.PartOrder;
    DpkgVersion.TotalPreorder([x], [x], [x]);
    OneDigitSplits(x);
    OneDigitSplits(y);
    DpkgVersion.DigitRunsCompareAsNumbers([], [x], [y], [], []);
    assert [] + [x] + [] == [x] && [] + [y] + [] == [y];
    assert [x][..0] == [] && [y][..0] == [];
  }

  lemma OneDigitSplits(x: Byte)
    requires IsDigit(x)
    ensures DpkgVersion.Split([x]) == DpkgVersion.Version(0, [x], [])
  {
    hide IndexOf, LastIndexOf;
    assert IndexOf([x], DpkgVersion.COLON) == 1;
    assert LastIndexOf([x], DpkgVersion.HYPHEN) == 1;
  }

  /**
   Two rows of one group and one installed version that name different fixes: reported in one order,
   not in the other.
   */
  lemma RowOrderCanDecide() returns (c: Candidate, d: Candidate)
    ensures c.fixed.Some? && d.fixed.Some? && KeyOf(c) == KeyOf(d) && c.installed == d.installed
    ensures KeyOf(c) in AffectedGroups([c, d]) && KeyOf(c) !in AffectedGroups([d, c])
  {
    hide Ascii, DpkgVersion.Order, AffectedGroups, RunningEvr, IsKernel;
    c := Candidate([1], [2], [3], [4], Ascii("dpkg"), None, Some([50]), None, [49], 0, None);
    d := c.(fixed := Some([49]));
    OneDigit(49, 50);
    assert Affected(c) && !Affected(d);
    EqualVersionsOfDifferentRanges(c, d);
  }
}
