/**
 The fast form of matching (`per_version` and `match_release_in_batches` of
 `openvibes-vulns/src/matching.rs`): each distinct version is evaluated once, only
 the (advisory, package) pairs that hit some version are looked up per host, and
 hosts go in batches. It finds what one evaluation of every row finds.
 */
module FastMatching {
  import opened Basics
  import opened Matching

  datatype Pair = Pair(advisory: Text, name: Text)
  datatype VersionFound = VersionFound(versionId: int, advisory: Text, name: Text)

  predicate IsRpmKernel(c: Candidate) {
    c.scheme == Ascii("rpm") && IsKernel(c.name)
  }

  /** An rpm kernel is kept whatever is installed, since an older one may still be running. */
  predicate Selects(c: Candidate) {
    c.fixed.Some? && (IsRpmKernel(c) || InRange(c, c.installed))
  }

  /** The outcome of looking at every distinct package version a single time. */
  method PerVersion(versions: seq<Candidate>) returns (pairs: set<Pair>, noFix: set<VersionFound>, evaluated: set<int>)
    ensures pairs == set c | c in versions && Selects(c) :: Pair(c.advisory, c.name)
    ensures noFix == set c | c in versions && c.fixed.None? && InRange(c, c.installed) ::
                       VersionFound(c.versionId, c.advisory, c.name)
    ensures evaluated == set c | c in versions :: c.versionId
  {
    hide InRange, IsRpmKernel;
    pairs, noFix, evaluated := {}, {}, {};
    for i := 0 to |versions|
      invariant pairs == set c | c in versions[..i] && Selects(c) :: Pair(c.advisory, c.name)
      invariant noFix == set c | c in versions[..i] && c.fixed.None?
                && InRange(c, c.installed) :: VersionFound(c.versionId, c.advisory, c.name)
      invariant evaluated == set c | c in versions[..i] :: c.versionId
    {
      var c := versions[i];
      assert versions[..i + 1] == versions[..i] + [c];
      evaluated := evaluated + {c.versionId};
      if c.fixed.Some? {
        if IsRpmKernel(c) || InRange(c, c.installed) {
          pairs := pairs + {Pair(c.advisory, c.name)};
        }
      } else if InRange(c, c.installed) {
        noFix := noFix + {VersionFound(c.versionId, c.advisory, c.name)};
      }
    }
    assert versions[..|versions|] == versions;
  }

  // ---- rows the store returns -------------------------------------------------------

  /** The rows of the groups `p` asks for, in the order of `rows`. */
  function Keep(rows: seq<Candidate>, p: GroupKey -> bool): seq<Candidate> {
    if rows == [] then []
    else
      var n := |rows| - 1;
      Keep(rows[..n], p) + if p(KeyOf(rows[n])) then [rows[n]] else []
  }

  lemma {:induction false} KeepMembers(rows: seq<Candidate>, p: GroupKey -> bool)
    ensures forall c :: c in Keep(rows, p) <==> c in rows && p(KeyOf(c))
  {
    hide KeyOf;
    if rows != [] {
      var n := |rows| - 1;
      KeepMembers(rows[..n], p);
      assert rows == rows[..n] + [rows[n]];
    }
  }

  lemma {:induction false} KeepNewest(rows: seq<Candidate>, p: GroupKey -> bool, k: GroupKey)
    requires p(k)
    ensures Newest(Keep(rows, p), k) == Newest(rows, k)
  {
    hide KeyOf, Order;
    if rows != [] {
      var n := |rows| - 1;
      var kept, c := Keep(rows[..n], p), rows[n];
      KeepNewest(rows[..n], p, k);
      if p(KeyOf(c)) {
        assert (kept + [c])[..|kept|] == kept;
      } else {
        assert kept + [] == kept;
      }
    }
  }

  /** Asking for whole groups leaves the affected groups asked for as they were. */
  lemma KeepGroups(rows: seq<Candidate>, p: GroupKey -> bool)
    ensures AffectedGroups(Keep(rows, p)) == map k | k in AffectedGroups(rows) && p(k) :: AffectedGroups(rows)[k]
  {
    hide Affected, Newest, Keep;
    KeepMembers(rows, p);
    forall k ensures k in Keys(Keep(rows, p)) <==> k in Keys(rows) && p(k) { }
    forall k | p(k) ensures Newest(Keep(rows, p), k) == Newest(rows, k) { KeepNewest(rows, p, k); }
  }

  // ---- the prefilter ----------------------------------------------------------------

  /** Every row's version was evaluated with the row's range. */
  ghost predicate Covered(rows: seq<Candidate>, versions: seq<Candidate>) {
    forall c :: c in rows ==> exists v :: v in versions && v == c.(agent := v.agent, runningKernel := v.runningKernel)
  }

  /** A pair no version hits affects no host. */
  lemma PrefilterLosesNothing(rows: seq<Candidate>, versions: seq<Candidate>, pairs: set<Pair>, k: GroupKey)
    requires Covered(rows, versions)
    requires pairs == set c | c in versions && Selects(c) :: Pair(c.advisory, c.name)
    requires k in AffectedGroups(rows)
    ensures Pair(k.advisory, k.name) in pairs
  {
    hide Newest, InRange, IsRpmKernel, RunningBelowFix;
    var c := Newest(rows, k).value;
    assert c in rows && KeyOf(c) == k;
    var v :| v in versions && v == c.(agent := v.agent, runningKernel := v.runningKernel);
    RangeIgnoresHost(c, v);
    assert Selects(v);
  }

  lemma RangeIgnoresHost(c: Candidate, v: Candidate)
    requires v == c.(agent := v.agent, runningKernel := v.runningKernel)
    ensures InRange(v, v.installed) == InRange(c, c.installed)
    ensures RunningBelowFix(c).Some? ==> IsRpmKernel(v)
  {
    hide Order;
  }

  // ---- batches ------------------------------------------------------------------------

  ghost function GroupsOf(rows: seq<Candidate>, hosts: seq<Text>): map<GroupKey, Candidate> {
    map k | k in AffectedGroups(rows) && k.agent in hosts :: AffectedGroups(rows)[k]
  }

  lemma ReportedHost(m: map<GroupKey, Candidate>, f: Findings, p: HostAdvisory)
    requires Describes(m, f) && p in f
    ensures exists k :: k in m && k.agent == p.agent
  {
    hide PackageOf, KeyCmp;
    var name :| name in f[p];
    assert Lookup(f, p, name) == Expected(m, p, name);
    var k :| k in Named(m, p, name);
  }

  /** Reports about different hosts add up. */
  lemma DisjointReportsAdd(m: map<GroupKey, Candidate>, n: map<GroupKey, Candidate>, f: Findings, g: Findings)
    requires Describes(m, f) && Describes(n, g)
    requires forall k, l :: k in m && l in n ==> k.agent != l.agent
    ensures Describes(m + n, f + g)
    ensures f.Keys !! g.Keys
  {
    hide PackageOf, KeyCmp;
    forall p | p in f ensures exists k :: k in m && k.agent == p.agent { ReportedHost(m, f, p); }
    forall p | p in g ensures exists k :: k in n && k.agent == p.agent { ReportedHost(n, g, p); }
    forall p, name ensures Lookup(f + g, p, name) == Expected(m + n, p, name) {
      assert Lookup(f, p, name) == Expected(m, p, name) && Lookup(g, p, name) == Expected(n, p, name);
      if Named(n, p, name) == {} {
        assert Named(m + n, p, name) == Named(m, p, name);
      } else {
        assert Named(m, p, name) == {};
        assert Named(m + n, p, name) == Named(n, p, name);
      }
    }
  }

  lemma OneBatch(rows: seq<Candidate>, versions: seq<Candidate>, pairs: set<Pair>, chunk: seq<Text>)
    requires Covered(rows, versions)
    requires pairs == set c | c in versions && Selects(c) :: Pair(c.advisory, c.name)
    ensures AffectedGroups(Keep(rows, (k: GroupKey) => k.agent in chunk && Pair(k.advisory, k.name) in pairs)) ==
              GroupsOf(rows, chunk)
  {
    hide Covered, Selects, Affected, Newest, Keep;
    KeepGroups(rows, (k: GroupKey) => k.agent in chunk && Pair(k.advisory, k.name) in pairs);
    forall k | k in AffectedGroups(rows) ensures Pair(k.advisory, k.name) in pairs {
      PrefilterLosesNothing(rows, versions, pairs, k);
    }
  }

  lemma NextBatch(rows: seq<Candidate>, hosts: seq<Text>, at: nat, next: nat)
    requires at <= next <= |hosts|
    requires forall i, j :: 0 <= i < j < |hosts| ==> hosts[i] != hosts[j]
    ensures GroupsOf(rows, hosts[..next]) == GroupsOf(rows, hosts[..at]) + GroupsOf(rows, hosts[at..next])
    ensures forall k, l :: k in GroupsOf(rows, hosts[..at]) && l in GroupsOf(rows, hosts[at..next]) ==>
            k.agent != l.agent
  {
    hide AffectedGroups;
    assert hosts[..next] == hosts[..at] + hosts[at..next];
  }

  /**
   Matches every host of a release, `batch` hosts at a time (at least one), and
   finds exactly what evaluating every row at once finds.
   */
  method MatchRelease(rows: seq<Candidate>, versions: seq<Candidate>, hosts: seq<Text>, batch: nat)
    returns (open: nat, found: Findings)
    requires Covered(rows, versions)
    requires forall i, j :: 0 <= i < j < |hosts| ==> hosts[i] != hosts[j]
    requires forall c :: c in rows ==> c.agent in hosts
    ensures Describes(AffectedGroups(rows), found)
    ensures open == |found|
  {
    hide Covered, Selects, Affected, Newest, Keep, AffectedGroups, Describes;
    var pairs, _, _ := PerVersion(versions);
    open, found := 0, map[];
    var at := 0;
    var size := if batch == 0 then 1 else batch;
    NothingDescribed();
    assert GroupsOf(rows, hosts[..0]) == map[];
    while at < |hosts|
      invariant 0 <= at <= |hosts|
      invariant Describes(GroupsOf(rows, hosts[..at]), found)
      invariant open == |found|
    {
      var next := if at + size < |hosts| then at + size else |hosts|;
      var chunk := hosts[at..next];
      var some := Evaluate(Keep(rows, (k: GroupKey) => k.agent in chunk && Pair(k.advisory, k.name) in pairs));
      OneBatch(rows, versions, pairs, chunk);
      NextBatch(rows, hosts, at, next);
      DisjointReportsAdd(GroupsOf(rows, hosts[..at]), GroupsOf(rows, chunk), found, some);
      assert (found + some).Keys == found.Keys + some.Keys;
      assert |found + some| == |(found + some).Keys| && |found| == |found.Keys| && |some| == |some.Keys|;
      found := found + some;
      open := open + |some|;
      at := next;
    }
    AllHosts(rows, hosts);
  }

  lemma AllHosts(rows: seq<Candidate>, hosts: seq<Text>)
    requires forall c :: c in rows ==> c.agent in hosts
    ensures GroupsOf(rows, hosts[..|hosts|]) == AffectedGroups(rows)
  {
    hide Affected, Newest;
    assert hosts[..|hosts|] == hosts;
    forall k | k in AffectedGroups(rows) ensures k.agent in hosts { }
  }
}
