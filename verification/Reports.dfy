/**
 What a report says, in the terms of the rows it was made from (`in_range`, `running_evr` and `evaluate`
 of `openvibes-vulns/src/matching.rs`): bounds are compared versions, a running kernel is a written
 release, and a group is what its rows share.
 */
module Reports {
  import opened Basics
  import opened Orders
  import opened Matching
  import DpkgVersion
  import RpmVersion
  import FastMatching

  // ---- schemes ----------------------------------------------------------------------

  /** A letter is before a plus sign for Debian, which counts it; rpm takes the sign for a separator. */
  lemma SchemesDiffer(scheme: Text)
    ensures Order(scheme, [97], [43]) == if scheme == Ascii("dpkg") then Less else Greater
  {
    hide DpkgVersion.Order, RpmVersion.EvrOrder, Ascii;
    LetterBeforePlus();
    LetterAfterPlus();
  }

  lemma PlainSplits(c: Byte, limit: nat)
    requires c != DpkgVersion.COLON && c != DpkgVersion.HYPHEN
    ensures DpkgVersion.SplitEpoch([c], limit) == (0, [c]) && DpkgVersion.SplitRevision([c]) == ([c], [])
  {
    hide DpkgVersion.SplitEpoch, DpkgVersion.SplitRevision;
    DpkgVersion.NoEpochSplits([c], limit);
    DpkgVersion.RevisionSplits([], [c]);
  }

  lemma LetterBeforePlus()
    ensures DpkgVersion.Order([97], [43]) == Less
  {
    hide DpkgVersion.PartOrder, DpkgVersion.SplitEpoch, DpkgVersion.SplitRevision;
    PlainSplits(97, U64_MAX);
    PlainSplits(43, U64_MAX);
    DpkgVersion.TildeEndLetterSymbol([], [126], [97], [43]);
    assert [] + [97] == [97] && [] + [43] == [43];
  }

  lemma LetterAfterPlus()
    ensures RpmVersion.EvrOrder([97], [43]) == Greater
  {
    hide RpmVersion.Order, DpkgVersion.SplitEpoch, DpkgVersion.SplitRevision;
    PlainSplits(97, U32_MAX);
    PlainSplits(43, U32_MAX);
    RpmVersion.SeparatorsDoNotCount([], 43, [], [97]);
    var none: Text := [];
    assert none + ([43] + none) == [43] && none + none == none;
    LetterAfterNothing();
    RpmVersion.TotalPreorder([43], [97], [97]);
  }

  lemma LetterAfterNothing()
    ensures RpmVersion.Order([], [97]) == Less
  {
    assert RpmVersion.Letters([97]) == [97];
    assert [97][1..] == [];
  }

  // ---- what a kernel release is written like ----------------------------------------

  /** `.arch` and `+extra`, each there or not. */
  function Suffix(arch: Option<Text>, extra: Option<Text>): Text {
    (if arch.Some? then [46] + arch.value else []) + if extra.Some? then [43] + extra.value else []
  }

  ghost predicate EndsInArch(t: Text) {
    exists a :: IsArch(a) && |a| < |t| && t[|t| - |a| - 1..] == [46] + a
  }

  /** `uname -r` prints version and release, here `v` and `r`, with an architecture and more after them or not. */
  ghost predicate Prints(uname: Text, v: Text, r: Text, arch: Option<Text>, extra: Option<Text>) {
    && 45 !in v && 43 !in v && 43 !in r
    && (if arch.Some? then IsArch(arch.value) else !EndsInArch(r))
    && uname == v + [45] + r + Suffix(arch, extra)
  }

  lemma ArchIs(i: nat)
    requires i < |ARCHES|
    ensures IsArch(Ascii(ARCHES[i]))
  {
    hide Ascii;
  }

  lemma KnownArches()
    ensures IsArch(Ascii("x86_64")) && IsArch(Ascii("aarch64")) && IsArch(Ascii("ppc64le")) && IsArch(Ascii("s390x"))
    ensures IsArch(Ascii("i686")) && IsArch(Ascii("armv7hl")) && IsArch(Ascii("riscv64"))
  {
    hide IsArch, Ascii;
    ArchIs(0);
    ArchIs(1);
    ArchIs(2);
    ArchIs(3);
    ArchIs(4);
    ArchIs(5);
    ArchIs(6);
  }

  /** No architecture holds one of the marks a release is taken apart at. */
  lemma ArchesAreWords(a: Text)
    requires IsArch(a)
    ensures 43 !in a && 45 !in a && 46 !in a
  {
    var i :| 0 <= i < |ARCHES| && a == Ascii(ARCHES[i]);
    WordStays(ARCHES[i]);
  }

  lemma WordStays(w: string)
    requires forall i :: 0 <= i < |w| ==> '0' <= w[i] <= 'z'
    ensures 43 !in Ascii(w) && 45 !in Ascii(w) && 46 !in Ascii(w)
  {
  }

  /** The release `v-r` is read whatever follows it: an architecture, `+debug`, both or nothing. */
  lemma ReleaseReads(uname: Text, v: Text, r: Text, arch: Option<Text>, extra: Option<Text>)
    requires Prints(uname, v, r, arch, extra)
    ensures RunningEvr(uname) == Some(Ascii("0:") + v + Ascii("-") + r)
  {
    hide IsArch, Ascii, EndsInArch, Bare;
    var plain := WithArch(v + [45] + r, arch);
    Regroup(v + [45] + r, arch, extra);
    NoPlusIn(v, r, arch);
    CutsAtPlus(uname, plain, extra);
    CutsArch(plain, v, r, arch);
    CutsAtDash(v, r);
  }

  function WithArch(base: Text, arch: Option<Text>): Text {
    if arch.Some? then base + ([46] + arch.value) else base
  }

  function WithExtra(plain: Text, extra: Option<Text>): Text {
    if extra.Some? then plain + ([43] + extra.value) else plain
  }

  lemma Regroup(base: Text, arch: Option<Text>, extra: Option<Text>)
    ensures base + Suffix(arch, extra) == WithExtra(WithArch(base, arch), extra)
  {
  }

  lemma NoPlusIn(v: Text, r: Text, arch: Option<Text>)
    requires 43 !in v && 43 !in r && (arch.Some? ==> IsArch(arch.value))
    ensures 43 !in WithArch(v + [45] + r, arch)
  {
    hide IsArch;
    if arch.Some? { ArchesAreWords(arch.value); }
  }

  lemma CutsAtDash(v: Text, r: Text)
    requires 45 !in v
    ensures var base := v + [45] + r;
            var dash := IndexOf(base, 45);
            dash < |base| && base[..dash] == v && base[dash + 1..] == r
  {
    var base := v + [45] + r;
    assert base[..|v|] == v && base[|v| + 1..] == r;
    DpkgVersion.IndexOfIs(base, 45, |v|);
  }

  lemma CutsAtPlus(uname: Text, plain: Text, extra: Option<Text>)
    requires 43 !in plain && uname == WithExtra(plain, extra)
    ensures uname[..IndexOf(uname, 43)] == plain
  {
    if extra.Some? {
      assert uname[..|plain|] == plain;
      DpkgVersion.IndexOfIs(uname, 43, |plain|);
    } else {
      assert uname == plain;
    }
  }

  lemma CutsArch(plain: Text, v: Text, r: Text, arch: Option<Text>)
    requires plain == WithArch(v + [45] + r, arch)
    requires if arch.Some? then IsArch(arch.value) else !EndsInArch(r)
    ensures Bare(plain) == v + [45] + r
  {
    hide IsArch, EndsInArch, Bare;
    if arch.Some? {
      CutsThisArch(v + [45] + r, arch.value);
    } else {
      assert plain == v + [45] + r;
      NothingToCut(v, r);
    }
  }

  lemma CutsThisArch(base: Text, arch: Text)
    requires IsArch(arch)
    ensures Bare(base + ([46] + arch)) == base
  {
    hide IsArch;
    ArchesAreWords(arch);
    var plain := base + ([46] + arch);
    assert plain[..|base|] == base && plain[|base| + 1..] == arch && plain[|base|] == 46;
    DpkgVersion.LastIndexOfIs(plain, 46, |base|);
  }

  lemma NothingToCut(v: Text, r: Text)
    requires !EndsInArch(r)
    ensures Bare(v + [45] + r) == v + [45] + r
  {
    hide IsArch, EndsInArch;
    var plain := v + [45] + r;
    var dot := LastIndexOf(plain, 46);
    if dot < |plain| && IsArch(plain[dot + 1..]) { EndsTheRelease(v, r, dot); }
  }

  lemma EndsTheRelease(v: Text, r: Text, dot: nat)
    requires dot < |v + [45] + r| && (v + [45] + r)[dot] == 46 && IsArch((v + [45] + r)[dot + 1..])
    ensures EndsInArch(r)
  {
    hide IsArch;
    var plain := v + [45] + r;
    var a := plain[dot + 1..];
    ArchesAreWords(a);
    assert dot > |v| by {
      assert plain[|v|] == 45;
      assert forall j :: dot < j < |plain| ==> plain[j] in a;
    }
    var k := dot - |v| - 1;
    assert r[k] == 46 && r[k + 1..] == a && |a| == |r| - k - 1;
    assert r[|r| - |a| - 1..] == [46] + a;
  }

  /** Whatever is read was written that way. */
  lemma ReadsRelease(uname: Text) returns (v: Text, r: Text, arch: Option<Text>, extra: Option<Text>)
    requires RunningEvr(uname).Some?
    ensures Prints(uname, v, r, arch, extra)
  {
    hide IsArch, Ascii, EndsInArch, Bare, Suffix;
    var i := IndexOf(uname, 43);
    var plain := uname[..i];
    extra := if i < |uname| then Some(uname[i + 1..]) else None;
    assert uname == WithExtra(plain, extra);
    arch := ArchOf(plain);
    var bare := Bare(plain);
    var dash := IndexOf(bare, 45);
    v, r := bare[..dash], bare[dash + 1..];
    assert bare == v + [45] + r;
    Regroup(bare, arch, extra);
    assert 43 !in bare by { assert forall j :: 0 <= j < |bare| ==> bare[j] == plain[j]; }
    if arch.None? { StillNothingToCut(plain, v, r); }
  }

  lemma ArchOf(plain: Text) returns (arch: Option<Text>)
    ensures plain == WithArch(Bare(plain), arch)
    ensures if arch.Some? then IsArch(arch.value) else Bare(plain) == plain
  {
    hide IsArch;
    var dot := LastIndexOf(plain, 46);
    arch := if dot < |plain| && IsArch(plain[dot + 1..]) then Some(plain[dot + 1..]) else None;
  }

  lemma StillNothingToCut(plain: Text, v: Text, r: Text)
    requires plain == v + [45] + r && Bare(plain) == plain
    ensures !EndsInArch(r)
  {
    hide IsArch, Bare;
    if EndsInArch(r) {
      var a :| IsArch(a) && |a| < |r| && r[|r| - |a| - 1..] == [46] + a;
      var base := v + [45] + r[..|r| - |a| - 1];
      assert plain == base + ([46] + a);
      CutsThisArch(base, a);
    }
  }

  // ---- what makes a row count -------------------------------------------------------

  /** Installed at or after the first affected version, if one is named, and before the fix. */
  predicate WithinBounds(c: Candidate) {
    && c.fixed.Some?
    && (c.introduced.None? || c.introduced == Some(Ascii("0"))
        || Order(c.scheme, c.installed, c.introduced.value) != Less)
    && Order(c.scheme, c.installed, c.fixed.value) == Less
  }

  predicate NamesKernel(c: Candidate) {
    c.name == Ascii("kernel") || c.name == Ascii("kernel-core") || Ascii("kernel-modules") <= c.name
  }

  /** An rpm kernel of which the release `v-r` runs, and is before the fix. */
  ghost predicate RunsOld(c: Candidate, v: Text, r: Text) {
    && c.fixed.Some? && c.scheme == Ascii("rpm") && NamesKernel(c) && c.runningKernel.Some?
    && (exists arch, extra :: Prints(c.runningKernel.value, v, r, arch, extra))
    && RpmVersion.EvrOrder(Ascii("0:") + v + Ascii("-") + r, c.fixed.value) == Less
  }

  ghost predicate Counts(c: Candidate) {
    WithinBounds(c) || exists v, r :: RunsOld(c, v, r)
  }

  lemma RpmIsNotDpkg()
    ensures Ascii("rpm") != Ascii("dpkg")
  {
    assert |Ascii("rpm")| != |Ascii("dpkg")|;
  }

  lemma RunningMeans(c: Candidate)
    requires c.fixed.Some?
    ensures RunningBelowFix(c).Some? <==> exists v, r :: RunsOld(c, v, r)
    ensures forall v, r :: RunsOld(c, v, r) ==> RunningBelowFix(c) == Some(Ascii("0:") + v + Ascii("-") + r)
  {
    hide Ascii, RunningEvr, RpmVersion.EvrOrder, Prints;
    RpmIsNotDpkg();
    forall v, r | RunsOld(c, v, r) ensures RunningBelowFix(c) == Some(Ascii("0:") + v + Ascii("-") + r) {
      var arch, extra :| Prints(c.runningKernel.value, v, r, arch, extra);
      ReleaseReads(c.runningKernel.value, v, r, arch, extra);
    }
    if RunningBelowFix(c).Some? {
      var v, r, arch, extra := ReadsRelease(c.runningKernel.value);
      ReleaseReads(c.runningKernel.value, v, r, arch, extra);
      assert RunsOld(c, v, r);
    }
  }

  lemma AffectedMeans(c: Candidate)
    requires c.fixed.Some?
    ensures Affected(c) <==> Counts(c)
    ensures InRange(c, c.installed) <==> WithinBounds(c)
  {
    hide Ascii, Order, RunningBelowFix, RunsOld;
    RunningMeans(c);
  }

  // ---- groups -----------------------------------------------------------------------

  function Start(c: Candidate): Text {
    if c.introduced.Some? then c.introduced.value else []
  }

  /** Rows of one host, advisory and package, for one architecture and one first affected version. */
  predicate SameGroup(c: Candidate, d: Candidate) {
    c.agent == d.agent && c.advisory == d.advisory && c.name == d.name && c.fixedArch == d.fixedArch
    && Start(c) == Start(d)
  }

  /** Nothing newer is installed in the row's group. */
  ghost predicate NewestRow(rows: seq<Candidate>, c: Candidate) {
    && c in rows && c.fixed.Some?
    && forall d :: d in rows && d.fixed.Some? && SameGroup(c, d) ==>
         Order(c.scheme, d.installed, c.installed) != Greater
  }

  /** The versions of a group are compared in one scheme, and equally new ones count alike. */
  ghost predicate Consistent(rows: seq<Candidate>) {
    && (forall c, d :: c in rows && d in rows && c.fixed.Some? && d.fixed.Some? && SameGroup(c, d) ==>
          c.scheme == d.scheme)
    && (forall c, d :: NewestRow(rows, c) && NewestRow(rows, d) && SameGroup(c, d) ==> (Counts(c) <==> Counts(d)))
  }

  lemma GroupsAreKeys(c: Candidate, d: Candidate)
    ensures SameGroup(c, d) <==> KeyOf(c) == KeyOf(d)
  {
  }

  lemma NewestMeans(rows: seq<Candidate>, c: Candidate)
    ensures NewestRow(rows, c) <==> IsNewest(rows, c)
  {
    hide Order, KeyOf, SameGroup;
    forall d ensures SameGroup(c, d) <==> KeyOf(d) == KeyOf(c) { GroupsAreKeys(c, d); }
  }

  lemma ConsistentMeans(rows: seq<Candidate>)
    requires Consistent(rows)
    ensures OneScheme(rows) && AffectedAlike(rows)
  {
    hide IsNewest, NewestRow, KeyOf, SameGroup, Affected, Counts;
    forall c, d | c in rows && d in rows && c.fixed.Some? && d.fixed.Some? && KeyOf(c) == KeyOf(d)
      ensures c.scheme == d.scheme
    {
      GroupsAreKeys(c, d);
    }
    forall c, d | IsNewest(rows, c) && IsNewest(rows, d) && KeyOf(c) == KeyOf(d) ensures Affected(c) == Affected(d) {
      GroupsAreKeys(c, d);
      NewestMeans(rows, c);
      NewestMeans(rows, d);
      IsAmong(rows, c);
      IsAmong(rows, d);
      AffectedMeans(c);
      AffectedMeans(d);
    }
  }

  // ---- what is reported -------------------------------------------------------------

  /** A newest row of this host and advisory counts. */
  ghost predicate Hit(rows: seq<Candidate>, c: Candidate, p: HostAdvisory) {
    c.agent == p.agent && c.advisory == p.advisory && NewestRow(rows, c) && Counts(c)
  }

  lemma HitsAre(rows: seq<Candidate>, c: Candidate, p: HostAdvisory)
    ensures Hit(rows, c, p) <==> Through(rows, c, p)
  {
    hide IsNewest, NewestRow, Affected, Counts;
    NewestMeans(rows, c);
    if NewestRow(rows, c) {
      IsAmong(rows, c);
      AffectedMeans(c);
    }
  }

  /**
   A host and advisory are reported if and only if the newest version installed in some group is at or
   after the first affected one and before the fix, or is a kernel of which an older release runs.
   */
  lemma ReportMeans(rows: seq<Candidate>, found: Findings, p: HostAdvisory)
    requires Consistent(rows) && Describes(AffectedGroups(rows), found)
    ensures p in found <==> exists c :: Hit(rows, c, p)
  {
    hide Consistent, Hit, Through, Describes;
    ConsistentMeans(rows);
    ReportedExactlyWhenNewestAffected(rows, found, p);
    forall c ensures Hit(rows, c, p) <==> Through(rows, c, p) { HitsAre(rows, c, p); }
  }

  /** A host whose newest rows are all older than the first affected version, and no kernels, is not reported. */
  lemma OlderThanTheFirstAffected(rows: seq<Candidate>, found: Findings, p: HostAdvisory)
    requires Consistent(rows) && Describes(AffectedGroups(rows), found)
    requires forall c :: NewestRow(rows, c) && c.agent == p.agent && c.advisory == p.advisory ==>
               && !NamesKernel(c) && c.introduced.Some? && c.introduced.value != Ascii("0")
               && Order(c.scheme, c.installed, c.introduced.value) == Less
    ensures p !in found
  {
    hide Consistent, NewestRow, Describes, Order, Ascii;
    ReportMeans(rows, found, p);
  }

  /** The entry of `c` comes first among those of its package. */
  ghost predicate FirstOfName(rows: seq<Candidate>, c: Candidate, p: HostAdvisory) {
    forall d :: Hit(rows, d, p) && d.name == c.name ==>
      LexCmp(c.fixedArch, d.fixedArch).Then(LexCmp(Start(c), Start(d))) != Greater
  }

  /** What is printed of a row. */
  ghost predicate Shows(package: Package, c: Candidate) {
    && package.installed == c.installed && package.fixed == c.fixed
    && (package.rebootOnly <==> !WithinBounds(c))
    && (package.running.Some? <==> exists v, r :: RunsOld(c, v, r))
    && (forall v, r :: RunsOld(c, v, r) ==> package.running == Some(Ascii("0:") + v + Ascii("-") + r))
  }

  /**
   The packages reported are those of the rows that count. Each shows the installed version, the fix, the
   release that runs if it is older, and whether a reboot is all that is missing, of its first group by
   architecture and first affected version.
   */
  lemma PackagesMean(rows: seq<Candidate>, found: Findings, p: HostAdvisory, name: Text)
    requires Consistent(rows) && Describes(AffectedGroups(rows), found)
    ensures (p in found && name in found[p]) <==> exists c :: Hit(rows, c, p) && c.name == name
    ensures p in found && name in found[p] ==>
              exists c :: Hit(rows, c, p) && c.name == name && FirstOfName(rows, c, p) && Shows(found[p][name], c)
  {
    hide Consistent, Hit, Newest, Affected, PackageOf, KeyCmp, Shows, FirstOfName;
    ConsistentMeans(rows);
    var groups := AffectedGroups(rows);
    assert Lookup(found, p, name) == Expected(groups, p, name);
    if c :| Hit(rows, c, p) && c.name == name { HitIsNamed(rows, c, p); }
    if p in found && name in found[p] {
      var k := Least(Named(groups, p, name));
      var c := groups[k];
      NamedIsHit(rows, k, p);
      FirstIsLeast(rows, c, p);
      ShownIs(c);
    }
  }

  lemma HitIsNamed(rows: seq<Candidate>, c: Candidate, p: HostAdvisory)
    requires OneScheme(rows) && AffectedAlike(rows) && Hit(rows, c, p)
    ensures KeyOf(c) in Named(AffectedGroups(rows), p, c.name)
  {
    hide Affected, Newest, OneScheme, Hit;
    HitsAre(rows, c, p);
    assert KeyOf(c) in Keys(rows);
    NewestIsNewest(rows, KeyOf(c));
  }

  lemma NamedIsHit(rows: seq<Candidate>, k: GroupKey, p: HostAdvisory)
    requires OneScheme(rows) && k in AffectedGroups(rows) && k.agent == p.agent && k.advisory == p.advisory
    ensures var c := AffectedGroups(rows)[k]; Hit(rows, c, p) && c.name == k.name && KeyOf(c) == k && c.fixed.Some?
  {
    hide Affected, Newest, OneScheme, Hit;
    var c := AffectedGroups(rows)[k];
    NewestIsNewest(rows, k);
    assert c == Newest(rows, k).value;
    HitsAre(rows, c, p);
  }

  lemma FirstIsLeast(rows: seq<Candidate>, c: Candidate, p: HostAdvisory)
    requires OneScheme(rows) && AffectedAlike(rows) && c.agent == p.agent && c.advisory == p.advisory
    requires IsLeast(Named(AffectedGroups(rows), p, c.name), KeyOf(c))
    ensures FirstOfName(rows, c, p)
  {
    hide Hit, OneScheme, AffectedAlike, AffectedGroups, LexCmp;
    forall d | Hit(rows, d, p) && d.name == c.name
      ensures LexCmp(c.fixedArch, d.fixedArch).Then(LexCmp(Start(c), Start(d))) != Greater
    {
      HitIsNamed(rows, d, p);
      LexTotalOrder(c.agent, c.agent, c.agent);
      LexTotalOrder(c.advisory, c.advisory, c.advisory);
      LexTotalOrder(c.name, c.name, c.name);
      assert d.agent == c.agent && d.advisory == c.advisory by { HitsAre(rows, d, p); }
    }
  }

  lemma ShownIs(c: Candidate)
    requires c.fixed.Some?
    ensures Shows(PackageOf(c), c)
  {
    hide Ascii, Order, RunningBelowFix, RunsOld, InRange, WithinBounds;
    RunningMeans(c);
    AffectedMeans(c);
  }

  // ---- versions without a fix -------------------------------------------------------

  /** At or after the first affected version, if one is named, and not after the last one, if one is. */
  predicate WithinUnfixed(c: Candidate) {
    && c.fixed.None?
    && (c.introduced.None? || c.introduced == Some(Ascii("0"))
        || Order(c.scheme, c.installed, c.introduced.value) != Less)
    && (c.lastAffected.None? || Order(c.scheme, c.installed, c.lastAffected.value) != Greater)
  }

  /** Worth looking up per host: within its bounds, or an rpm kernel, of which an older one may run. */
  predicate WorthLooking(c: Candidate) {
    c.fixed.Some? && (WithinBounds(c) || (c.scheme == Ascii("rpm") && NamesKernel(c)))
  }

  /** What looking at each version once gives: the pairs to look up, the findings without a fix, the versions seen. */
  method LookAtVersions(versions: seq<Candidate>)
    returns (pairs: set<FastMatching.Pair>, noFix: set<FastMatching.VersionFound>, evaluated: set<int>)
    ensures pairs == set c | c in versions && WorthLooking(c) :: FastMatching.Pair(c.advisory, c.name)
    ensures noFix == set c | c in versions && WithinUnfixed(c) ::
                       FastMatching.VersionFound(c.versionId, c.advisory, c.name)
    ensures evaluated == set c | c in versions :: c.versionId
  {
    hide Ascii, Order;
    pairs, noFix, evaluated := FastMatching.PerVersion(versions);
    forall c ensures WithinUnfixed(c) <==> c.fixed.None? && InRange(c, c.installed) { }
    forall c ensures WorthLooking(c) <==> FastMatching.Selects(c) { }
  }
}
