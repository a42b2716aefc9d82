/**
 CPE matching (`openvibes-vulns/src/cpe.rs`): installed packages checked against the
 upstream ranges NVD lists per product. Only the ranges of products some package
 could be are ever loaded; that filter is proved to lose nothing.
 */
module Cpe {
  import opened Basics
  import opened Orders
  import RpmVersion

  type Text = Bytes

  datatype Alias = Alias(from: string, product: string)

  const ALIASES: seq<Alias> := [
    Alias("curl", "libcurl"), Alias("libcurl", "curl"), Alias("httpd", "http_server"),
    Alias("python3", "python"), Alias("python3-libs", "python"), Alias("python3-devel", "python"),
    Alias("qemu-kvm", "qemu"), Alias("qemu-system-x86", "qemu"), Alias("vim-minimal", "vim"),
    Alias("vim-enhanced", "vim"), Alias("java-17-openjdk", "openjdk"), Alias("java-21-openjdk", "openjdk"),
    Alias("openssh-server", "openssh"), Alias("openssh-clients", "openssh"), Alias("libxml2", "libxml2"),
    Alias("pcre2", "pcre2"), Alias("sqlite-libs", "sqlite"), Alias("openssl-libs", "openssl"),
    Alias("glibc-common", "glibc"), Alias("gnutls", "gnutls")]

  const SUFFIXES: seq<string> := [
    "-libs", "-devel", "-common", "-static", "-tools", "-data", "-core", "-utils", "-minimal",
    "-server", "-client", "-clients"]

  const MAX_CONFIDENCE: int := 75

  /** How a package was tied to a product. */
  datatype Tie = Derived | Exact

  // ---- ties between packages and products ------------------------------------------

  function KeyByte(c: Byte): Byte {
    if 65 <= c <= 90 then c + 32 else if c == 45 then 95 else c
  }

  /** How a product name is spelt: in lower case, with underscores for hyphens. */
  function ProductKey(name: Text): Text {
    seq(|name|, i requires 0 <= i < |name| => KeyByte(name[i]))
  }

  predicate EndsWith(name: Text, suffix: Text) {
    |suffix| <= |name| && name[|name| - |suffix|..] == suffix
  }

  function StripSuffix(name: Text, suffix: Text): Text
    requires EndsWith(name, suffix)
  {
    name[..|name| - |suffix|]
  }

  /** `product` is the base name or an alias of `own`. */
  ghost predicate DerivedFrom(own: Text, product: Text) {
    IsBaseName(own, product, |SUFFIXES|) || IsAlias(own, product, |ALIASES|)
  }

  ghost predicate IsBaseName(own: Text, product: Text, upTo: nat)
    requires upTo <= |SUFFIXES|
  {
    exists i :: 0 <= i < upTo && BaseName(own, SUFFIXES[i], product)
  }

  ghost predicate IsAlias(own: Text, product: Text, upTo: nat)
    requires upTo <= |ALIASES|
  {
    exists i :: 0 <= i < upTo && AliasName(own, ALIASES[i], product)
  }

  ghost predicate BaseName(own: Text, suffix: string, product: Text) {
    EndsWith(own, Ascii(suffix)) && product == ProductKey(StripSuffix(own, Ascii(suffix)))
  }

  ghost predicate AliasName(own: Text, alias: Alias, product: Text) {
    own == Ascii(alias.from) && product == Ascii(alias.product)
  }

  /** The strongest tie between a package and a product, if there is one. */
  ghost function TieOf(name: Text, source: Option<Text>, product: Text): Option<Tie> {
    if product == ProductKey(name) || (source.Some? && product == ProductKey(source.value)) then Some(Exact)
    else if DerivedFrom(name, product) || (source.Some? && DerivedFrom(source.value, product)) then Some(Derived)
    else None
  }

  function Get<K, V>(m: map<K, V>, k: K): Option<V> {
    if k in m then Some(m[k]) else None
  }

  /** Records a tie, keeping the stronger one. */
  function AddTie(found: map<Text, Tie>, product: Text, tie: Tie): map<Text, Tie> {
    found[product := if product in found && found[product].Exact? then Exact else tie]
  }

  method AddBaseNames(ties: map<Text, Tie>, own: Text) returns (found: map<Text, Tie>)
    ensures forall p :: Get(found, p) == if Get(ties, p).None? && IsBaseName(own, p, |SUFFIXES|) then Some(Derived)
            else Get(ties, p)
  {
    hide ProductKey, Ascii, EndsWith, BaseName, StripSuffix;
    found := ties;
    for i := 0 to |SUFFIXES|
      invariant forall p :: Get(found, p) == if Get(ties, p).None? && IsBaseName(own, p, i) then Some(Derived)
                else Get(ties, p)
    {
      var suffix := Ascii(SUFFIXES[i]);
      forall p ensures IsBaseName(own, p, i + 1) <==> IsBaseName(own, p, i) || BaseName(own, SUFFIXES[i], p) { }
      TheBaseName(own, SUFFIXES[i]);
      if EndsWith(own, suffix) {
        found := AddTie(found, ProductKey(StripSuffix(own, suffix)), Derived);
      }
    }
  }

  lemma TheBaseName(own: Text, suffix: string)
    ensures forall p ::
              BaseName(own, suffix, p) <==>
                  EndsWith(own, Ascii(suffix)) && p == ProductKey(StripSuffix(own, Ascii(suffix)))
  {
  }

  method AddAliases(ties: map<Text, Tie>, own: Text) returns (found: map<Text, Tie>)
    ensures forall p :: Get(found, p) == if Get(ties, p).None? && IsAlias(own, p, |ALIASES|) then Some(Derived)
            else Get(ties, p)
  {
    hide Ascii;
    found := ties;
    for i := 0 to |ALIASES|
      invariant forall p :: Get(found, p) == if Get(ties, p).None? && IsAlias(own, p, i) then Some(Derived)
                else Get(ties, p)
    {
      forall p ensures IsAlias(own, p, i + 1) <==> IsAlias(own, p, i) || AliasName(own, ALIASES[i], p) { }
      if own == Ascii(ALIASES[i].from) {
        found := AddTie(found, Ascii(ALIASES[i].product), Derived);
      }
    }
  }

  /** Every product tied to a package, with its strongest tie. */
  method ProductsOf(name: Text, source: Option<Text>) returns (found: map<Text, Tie>)
    ensures forall p :: Get(found, p) == TieOf(name, source, p)
  {
    hide ProductKey, IsBaseName, IsAlias;
    found := AddTie(map[], ProductKey(name), Exact);
    if source.Some? {
      found := AddTie(found, ProductKey(source.value), Exact);
    }
    found := AddBaseNames(found, name);
    found := AddAliases(found, name);
    if source.Some? {
      found := AddBaseNames(found, source.value);
      found := AddAliases(found, source.value);
    }
  }

  predicate IsKernel(name: Text) {
    name == Ascii("kernel") || Ascii("kernel-") <= name
  }

  // ---- findings -----------------------------------------------------------------------

  datatype Applicability = Applicability(
    cve: Text, vendor: Text, product: Text, introduced: Option<Text>, fixed: Option<Text>,
    lastAffected: Option<Text>, fedora: seq<Text>)

  datatype ReleaseVersion = ReleaseVersion(id: int, name: Text, source: Option<Text>, version: Text)

  /** A finding: the range it comes from carries its printed texts. */
  datatype Finding = Finding(version: ReleaseVersion, range: Applicability, confidence: int)

  datatype FindingKey = FindingKey(versionId: int, cve: Text, product: Text)

  /** An upstream version within the bounds of a range. */
  predicate InRange(version: Text, r: Applicability) {
    && (r.introduced.Some? ==> RpmVersion.Order(version, r.introduced.value) != Less)
    && (r.fixed.Some? ==> RpmVersion.Order(version, r.fixed.value) == Less)
    && (r.lastAffected.Some? ==> RpmVersion.Order(version, r.lastAffected.value) != Greater)
  }

  function Confidence(tie: Tie, r: Applicability, osVersion: Text): int {
    var exactVersion := r.introduced.Some? && r.introduced == r.lastAffected;
    var base := if tie == Exact && !exactVersion then 60 else 55;
    var raised := if osVersion in r.fedora then base + 15 else base;
    if raised < MAX_CONFIDENCE then raised else MAX_CONFIDENCE
  }

  /** Replaces the finding under `f`'s key when `f` is more certain. */
  function Consider(best: map<FindingKey, Finding>, f: Finding): map<FindingKey, Finding> {
    var key := KeyOf(f);
    if key in best && best[key].confidence >= f.confidence then best else best[key := f]
  }

  function KeyOf(f: Finding): FindingKey {
    FindingKey(f.version.id, f.range.cve, f.range.product)
  }

  /** The first of the most certain findings. */
  function FirstBest(hits: seq<Finding>): Option<Finding> {
    if hits == [] then None
    else
      var before, f := FirstBest(hits[..|hits| - 1]), hits[|hits| - 1];
      if before.Some? && before.value.confidence >= f.confidence then before else Some(f)
  }

  /** What one range says of one version, if it says anything under `key`. */
  ghost function HitOf(osVersion: Text, v: ReleaseVersion, r: Applicability, advised: set<Text>,
                       key: FindingKey): seq<Finding> {
    var tie := TieOf(v.name, v.source, r.product);
    if !IsKernel(v.name) && r.cve !in advised && tie.Some? && InRange(v.version, r)
      && key == FindingKey(v.id, r.cve, r.product)
    then [Finding(v, r, Confidence(tie.value, r, osVersion))]
    else []
  }

  ghost function VersionHits(osVersion: Text, v: ReleaseVersion, ranges: seq<Applicability>, advised: set<Text>,
                             key: FindingKey): seq<Finding> {
    if ranges == [] then []
    else
      VersionHits(osVersion, v, ranges[..|ranges| - 1], advised, key) +
      HitOf(osVersion, v, ranges[|ranges| - 1], advised, key)
  }

  /** Everything the ranges say under `key`, version by version. */
  ghost function Hits(osVersion: Text, versions: seq<ReleaseVersion>, ranges: seq<Applicability>, advised: set<Text>,
                      key: FindingKey): seq<Finding> {
    if versions == [] then []
    else Hits(osVersion, versions[..|versions| - 1], ranges, advised, key) + VersionHits(osVersion,
      versions[|versions| - 1], ranges, advised, key)
  }

  lemma FirstBestStep(hits: seq<Finding>, f: Finding)
    ensures FirstBest(hits + [f]) ==
            var before := FirstBest(hits); if before.Some? && before.value.confidence >= f.confidence then before
              else Some(f)
  {
    assert (hits + [f])[..|hits|] == hits;
  }

  /** The ranges of one product that no advisory covers, in order. */
  function Of(ranges: seq<Applicability>, product: Text, advised: set<Text>): seq<Applicability> {
    if ranges == [] then []
    else
      var rest, r := Of(ranges[..|ranges| - 1], product, advised), ranges[|ranges| - 1];
      if r.product == product && r.cve !in advised then rest + [r] else rest
  }

  /** Under a product's key only that product's ranges say anything. */
  lemma {:induction false} OnlyItsProduct(osVersion: Text, v: ReleaseVersion, ranges: seq<Applicability>,
                                          advised: set<Text>, key: FindingKey)
    ensures VersionHits(osVersion, v, Of(ranges, key.product, advised), advised, key) ==
              VersionHits(osVersion, v, ranges, advised, key)
    ensures TieOf(v.name, v.source, key.product).None? || IsKernel(v.name) || key.versionId != v.id ==>
            VersionHits(osVersion, v, ranges, advised, key) == []
  {
    hide TieOf, IsKernel, InRange, Confidence;
    if ranges != [] {
      var n := |ranges| - 1;
      OnlyItsProduct(osVersion, v, ranges[..n], advised, key);
      var rest := Of(ranges[..n], key.product, advised);
      assert (rest + [ranges[n]])[..|rest|] == rest;
    }
  }

  method ByProduct(ranges: seq<Applicability>, advised: set<Text>) returns (byProduct: map<Text, seq<Applicability>>)
    ensures forall p :: (if p in byProduct then byProduct[p] else []) == Of(ranges, p, advised)
  {
    byProduct := map[];
    for i := 0 to |ranges|
      invariant forall p :: (if p in byProduct then byProduct[p] else []) == Of(ranges[..i], p, advised)
    {
      var r := ranges[i];
      assert ranges[..i + 1][..i] == ranges[..i];
      if r.cve !in advised {
        var before := if r.product in byProduct then byProduct[r.product] else [];
        byProduct := byProduct[r.product := before + [r]];
      }
    }
    assert ranges[..|ranges|] == ranges;
  }

  /** A finding that is considered is one more hit under its own key, and none under another. */
  lemma KeepsFirstBest(was: map<FindingKey, Finding>, f: Finding, inRange: bool, key: FindingKey,
                       before: seq<Finding>, found: seq<Finding>)
    requires Get(was, key) == FirstBest(before + if key.product == f.range.product then found else [])
    ensures Get(if inRange then Consider(was, f) else was, key) ==
            FirstBest(before + if key.product == f.range.product
              then found + if inRange && key == KeyOf(f) then [f] else [] else [])
  {
    hide FirstBest;
    var hits := before + if key.product == f.range.product then found else [];
    FirstBestStep(hits, f);
    assert key.product == f.range.product ==> hits + [f] == before + (found + [f]) && found + [] == found;
  }

  /** All ranges of one product against one version. */
  method EvaluateProduct(osVersion: Text, v: ReleaseVersion, product: Text, tie: Tie, candidates: seq<Applicability>,
                         advised: set<Text>, start: map<FindingKey, Finding>, ghost before: FindingKey -> seq<Finding>)
    returns (best: map<FindingKey, Finding>)
    requires !IsKernel(v.name) && TieOf(v.name, v.source, product) == Some(tie)
    requires forall r :: r in candidates ==> r.product == product && r.cve !in advised
    requires forall key :: Get(start, key) == FirstBest(before(key))
    ensures forall key :: Get(best, key) == FirstBest(before(key) + if key.product == product
            then VersionHits(osVersion, v, candidates, advised, key) else [])
  {
    hide IsKernel, TieOf, InRange, Confidence, FirstBest;
    best := start;
    forall key ensures before(key) + [] == before(key) { }
    for i := 0 to |candidates|
      invariant forall key :: Get(best, key) == FirstBest(before(key) + if key.product == product
                then VersionHits(osVersion, v, candidates[..i], advised, key) else [])
    {
      var r := candidates[i];
      ghost var was := best;
      var f := Finding(v, r, Confidence(tie, r, osVersion));
      if InRange(v.version, r) {
        best := Consider(best, f);
      }
      forall key ensures Get(best, key) == FirstBest(before(key) + if key.product == product
        then VersionHits(osVersion, v, candidates[..i + 1], advised, key) else []) {
        assert candidates[..i + 1][..i] == candidates[..i];
        KeepsFirstBest(was, f, InRange(v.version, r), key, before(key),
          VersionHits(osVersion, v, candidates[..i], advised, key));
      }
    }
    assert candidates[..|candidates|] == candidates;
  }

  /** What is known under `key` once `done` of the products of `versions[i]` are through. */
  ghost function Known(osVersion: Text, versions: seq<ReleaseVersion>, i: nat, ranges: seq<Applicability>,
                       advised: set<Text>, done: set<Text>, key: FindingKey): seq<Finding>
    requires i < |versions|
  {
    Hits(osVersion, versions[..i], ranges, advised, key) + if key.product in done
      then VersionHits(osVersion, versions[i], ranges, advised, key) else []
  }

  lemma AllProductsKnown(osVersion: Text, versions: seq<ReleaseVersion>, i: nat, ranges: seq<Applicability>,
                         advised: set<Text>, done: set<Text>, key: FindingKey)
    requires i < |versions|
    requires IsKernel(versions[i].name) || forall p :: p in done <==>
             TieOf(versions[i].name, versions[i].source, p).Some?
    ensures !IsKernel(versions[i].name) ==>
              Known(osVersion, versions, i, ranges, advised, done,
              key) == Hits(osVersion, versions[..i + 1], ranges, advised, key)
    ensures IsKernel(versions[i].name) ==> Hits(osVersion, versions[..i], ranges, advised, key) == Hits(osVersion,
            versions[..i + 1], ranges, advised, key)
  {
    hide IsKernel, TieOf, VersionHits;
    assert versions[..i + 1][..i] == versions[..i];
    OnlyItsProduct(osVersion, versions[i], ranges, advised, key);
  }

  lemma NextProduct(osVersion: Text, versions: seq<ReleaseVersion>, i: nat, ranges: seq<Applicability>,
                    advised: set<Text>, done: set<Text>, p: Text, key: FindingKey)
    requires i < |versions| && p !in done
    ensures Known(osVersion, versions, i, ranges, advised, done + {p}, key) ==
            Known(osVersion, versions, i, ranges, advised, done, key) +
            if key.product == p then VersionHits(osVersion, versions[i], Of(ranges, p, advised), advised, key) else []
  {
    hide VersionHits, Hits, Of;
    OnlyItsProduct(osVersion, versions[i], ranges, advised, key);
    var h, now := Hits(osVersion, versions[..i], ranges, advised, key),
      Known(osVersion, versions, i, ranges, advised, done, key);
    if key.product == p {
      assert now == h;
    } else {
      assert now + [] == now;
    }
  }

  lemma {:induction false} OfMembers(ranges: seq<Applicability>, p: Text, advised: set<Text>)
    ensures forall r :: r in Of(ranges, p, advised) ==> r.product == p && r.cve !in advised
  {
    if ranges != [] { OfMembers(ranges[..|ranges| - 1], p, advised); }
  }

  /** The best finding per version, CVE and product. */
  method Evaluate(osVersion: Text, versions: seq<ReleaseVersion>, ranges: seq<Applicability>, advised: set<Text>)
    returns (best: map<FindingKey, Finding>)
    ensures forall key :: Get(best, key) == FirstBest(Hits(osVersion, versions, ranges, advised, key))
  {
    hide IsKernel, TieOf, FirstBest, Hits, VersionHits, Of, Known;
    var byProduct := ByProduct(ranges, advised);
    best := map[];
    NothingHit(osVersion, versions, ranges, advised);
    for i := 0 to |versions|
      invariant forall key :: Get(best, key) == FirstBest(Hits(osVersion, versions[..i], ranges, advised, key))
    {
      var v := versions[i];
      if !IsKernel(v.name) {
        var products := ProductsOf(v.name, v.source);
        var rest := products.Keys;
        NothingKnown(osVersion, versions, i, ranges, advised);
        while rest != {}
          invariant rest <= products.Keys
          invariant forall key :: Get(best, key) ==
                      FirstBest(Known(osVersion, versions, i, ranges, advised, products.Keys - rest, key))
        {
          var p :| p in rest;
          ghost var done := products.Keys - rest;
          forall key { NextProduct(osVersion, versions, i, ranges, advised, done, p, key); }
          OfMembers(ranges, p, advised);
          assert Get(products, p) == TieOf(v.name, v.source, p);
          var candidates := if p in byProduct then byProduct[p] else [];
          best := EvaluateProduct(osVersion, v, p, products[p], candidates, advised, best,
                                  key => Known(osVersion, versions, i, ranges, advised, done, key));
          assert products.Keys - (rest - {p}) == done + {p};
          rest := rest - {p};
        }
        assert products.Keys - {} == products.Keys;
        forall p ensures p in products.Keys <==>
            TieOf(v.name, v.source, p).Some? { assert Get(products, p) == TieOf(v.name, v.source, p); }
        forall key { AllProductsKnown(osVersion, versions, i, ranges, advised, products.Keys, key); }
      } else {
        forall key { AllProductsKnown(osVersion, versions, i, ranges, advised, {}, key); }
      }
    }
    assert versions[..|versions|] == versions;
  }

  lemma NothingHit(osVersion: Text, versions: seq<ReleaseVersion>, ranges: seq<Applicability>, advised: set<Text>)
    ensures forall key :: FirstBest(Hits(osVersion, versions[..0], ranges, advised, key)) == None
  {
  }

  lemma NothingKnown(osVersion: Text, versions: seq<ReleaseVersion>, i: nat, ranges: seq<Applicability>,
                     advised: set<Text>)
    requires i < |versions|
    ensures forall key, done ::
              done == {} ==>
                  Known(osVersion, versions, i, ranges, advised, done,
                  key) == Hits(osVersion, versions[..i], ranges, advised, key)
  {
    hide Hits, VersionHits;
    forall key, done | done == {} ensures Known(osVersion, versions, i, ranges, advised, done, key) ==
        Hits(osVersion, versions[..i], ranges, advised, key) {
      assert Hits(osVersion, versions[..i], ranges, advised, key) + [] ==
          Hits(osVersion, versions[..i], ranges, advised, key);
    }
  }

  // ---- what the findings mean -----------------------------------------------------------

  /** Range `r` makes version `v` a finding under `key`. */
  ghost predicate Applies(v: ReleaseVersion, r: Applicability, advised: set<Text>, key: FindingKey) {
    !IsKernel(v.name) && r.cve !in advised && TieOf(v.name, v.source, r.product).Some? && InRange(v.version, r)
      && key == FindingKey(v.id, r.cve, r.product)
  }

  ghost function CertaintyOf(osVersion: Text, v: ReleaseVersion, r: Applicability): int
    requires TieOf(v.name, v.source, r.product).Some?
  {
    Confidence(TieOf(v.name, v.source, r.product).value, r, osVersion)
  }

  ghost predicate IsHit(osVersion: Text, versions: seq<ReleaseVersion>, ranges: seq<Applicability>, advised: set<Text>,
                        key: FindingKey, f: Finding) {
    f.version in versions && f.range in ranges && Applies(f.version, f.range, advised, key)
      && f.confidence == CertaintyOf(osVersion, f.version, f.range)
  }

  lemma {:induction false} VersionHitsAre(osVersion: Text, v: ReleaseVersion, ranges: seq<Applicability>,
                                          advised: set<Text>, key: FindingKey)
    ensures forall f :: f in VersionHits(osVersion, v, ranges, advised, key) <==>
            IsHit(osVersion, [v], ranges, advised, key, f)
  {
    hide TieOf, IsKernel, InRange, Confidence;
    if ranges != [] {
      var n := |ranges| - 1;
      VersionHitsAre(osVersion, v, ranges[..n], advised, key);
      assert ranges == ranges[..n] + [ranges[n]];
    }
  }

  lemma {:induction false} HitsAre(osVersion: Text, versions: seq<ReleaseVersion>, ranges: seq<Applicability>,
                                   advised: set<Text>, key: FindingKey)
    ensures forall f :: f in Hits(osVersion, versions, ranges, advised, key) <==>
            IsHit(osVersion, versions, ranges, advised, key, f)
  {
    hide Applies, CertaintyOf, VersionHits;
    if versions != [] {
      var n := |versions| - 1;
      HitsAre(osVersion, versions[..n], ranges, advised, key);
      VersionHitsAre(osVersion, versions[n], ranges, advised, key);
      assert versions == versions[..n] + [versions[n]];
    }
  }

  lemma {:induction false} FirstBestIsMaximal(hits: seq<Finding>)
    ensures FirstBest(hits).None? <==> hits == []
    ensures FirstBest(hits).Some? ==> FirstBest(hits).value in hits && forall f :: f in hits ==>
            f.confidence <= FirstBest(hits).value.confidence
  {
    if hits != [] {
      FirstBestIsMaximal(hits[..|hits| - 1]);
      assert hits == hits[..|hits| - 1] + [hits[|hits| - 1]];
    }
  }

  /**
   There is a finding under a key exactly when some range applies to some version
   there (never for an advised CVE), and it has the highest confidence any
   applicable range gives, one of four values.
   */
  lemma FindingsAreMostCertain(osVersion: Text, versions: seq<ReleaseVersion>, ranges: seq<Applicability>,
                               advised: set<Text>,
                               best: map<FindingKey, Finding>, key: FindingKey)
    requires forall k :: Get(best, k) == FirstBest(Hits(osVersion, versions, ranges, advised, k))
    ensures key in best <==> exists v, r :: v in versions && r in ranges && Applies(v, r, advised, key)
    ensures key in best ==> IsHit(osVersion, versions, ranges, advised, key, best[key]) && key.cve !in advised
    ensures key in best ==> best[key].confidence in {55, 60, 70, 75}
    ensures forall v, r ::
              v in versions && r in ranges && Applies(v, r, advised, key) ==>
                  key in best && CertaintyOf(osVersion, v, r) <= best[key].confidence
  {
    hide Hits, FirstBest, IsKernel, TieOf, InRange;
    var hits := Hits(osVersion, versions, ranges, advised, key);
    HitsAre(osVersion, versions, ranges, advised, key);
    FirstBestIsMaximal(hits);
    assert Get(best, key) == FirstBest(hits);
    forall v, r | v in versions && r in ranges && Applies(v, r, advised, key)
      ensures Finding(v, r, CertaintyOf(osVersion, v, r)) in hits
    {
      assert IsHit(osVersion, versions, ranges, advised, key, Finding(v, r, CertaintyOf(osVersion, v, r)));
    }
    if key in best { assert best[key] in hits; }
  }

  // ---- in the terms of the rows -------------------------------------------------------------

  /** At or after the first affected version, before the fix, and not after the last affected one, where named. */
  predicate WithinBounds(version: Text, r: Applicability) {
    && (r.introduced.None? || RpmVersion.Order(version, r.introduced.value) != Less)
    && (r.fixed.None? || RpmVersion.Order(version, r.fixed.value) == Less)
    && (r.lastAffected.None? || RpmVersion.Order(version, r.lastAffected.value) != Greater)
  }

  /** `key` spells `name` in lower case, with underscores for hyphens. */
  predicate Spells(key: Text, name: Text) {
    && |key| == |name|
    && forall i :: 0 <= i < |name| ==>
         key[i] == if 'A' as int <= name[i] <= 'Z' as int then name[i] + 32
                   else if name[i] == '-' as int then '_' as int else name[i]
  }

  /** The product is the package or its source package by name. */
  predicate SameName(v: ReleaseVersion, product: Text) {
    Spells(product, v.name) || (v.source.Some? && Spells(product, v.source.value))
  }

  /** The product is what is left of a name without one of the suffixes, or one of the aliases of the name. */
  ghost predicate NameOf(own: Text, product: Text) {
    NamesBase(own, product) || NamesAlias(own, product)
  }

  ghost predicate NamesBase(own: Text, product: Text) {
    exists base, suffix :: suffix in SUFFIXES && own == base + Ascii(suffix) && Spells(product, base)
  }

  ghost predicate NamesAlias(own: Text, product: Text) {
    exists alias :: alias in ALIASES && own == Ascii(alias.from) && product == Ascii(alias.product)
  }

  ghost predicate OtherName(v: ReleaseVersion, product: Text) {
    NameOf(v.name, product) || (v.source.Some? && NameOf(v.source.value, product))
  }

  /** The range makes the version a finding for its CVE and product. */
  ghost predicate Concerns(v: ReleaseVersion, r: Applicability, advised: set<Text>) {
    && v.name != Ascii("kernel") && !(Ascii("kernel-") <= v.name) && r.cve !in advised
    && (SameName(v, r.product) || OtherName(v, r.product)) && WithinBounds(v.version, r)
  }

  /** 60 for a product of the same name, 55 for another or if one single version is listed; 15 more if Fedora is. */
  function Certainty(osVersion: Text, v: ReleaseVersion, r: Applicability): int {
    (if SameName(v, r.product) && (r.introduced.None? || r.introduced != r.lastAffected) then 60 else 55) +
    if osVersion in r.fedora then 15 else 0
  }

  lemma SpellsIs(key: Text, name: Text)
    ensures Spells(key, name) <==> key == ProductKey(name)
  {
    forall i | 0 <= i < |name|
      ensures ProductKey(name)[i] == if 'A' as int <= name[i] <= 'Z' as int then name[i] + 32
                                     else if name[i] == '-' as int then '_' as int else name[i]
    {
    }
  }

  lemma NamesAre(own: Text, product: Text)
    ensures NameOf(own, product) <==> DerivedFrom(own, product)
  {
    hide NamesBase, NamesAlias, IsBaseName, IsAlias;
    AliasesAre(own, product);
    BaseNamesAre(own, product);
  }

  lemma BaseNamesAre(own: Text, product: Text)
    ensures NamesBase(own, product) <==> IsBaseName(own, product, |SUFFIXES|)
  {
    hide Ascii, Spells, IsBaseName;
    if base, suffix :| suffix in SUFFIXES && own == base + Ascii(suffix) && Spells(product, base) {
      BaseNameIs(own, base, suffix, product);
    }
    if IsBaseName(own, product, |SUFFIXES|) { var base, suffix := BaseNameOf(own, product); }
  }

  lemma BaseNameIs(own: Text, base: Text, suffix: string, product: Text)
    requires suffix in SUFFIXES && own == base + Ascii(suffix) && Spells(product, base)
    ensures IsBaseName(own, product, |SUFFIXES|)
  {
    hide Ascii, Spells, ProductKey;
    var i :| 0 <= i < |SUFFIXES| && SUFFIXES[i] == suffix;
    SpellsIs(product, base);
    assert own[..|own| - |Ascii(suffix)|] == base && own[|own| - |Ascii(suffix)|..] == Ascii(suffix);
    assert BaseName(own, SUFFIXES[i], product);
  }

  lemma BaseNameOf(own: Text, product: Text) returns (base: Text, suffix: string)
    requires IsBaseName(own, product, |SUFFIXES|)
    ensures suffix in SUFFIXES && own == base + Ascii(suffix) && Spells(product, base)
  {
    hide Ascii, Spells, ProductKey;
    var i :| 0 <= i < |SUFFIXES| && BaseName(own, SUFFIXES[i], product);
    suffix := SUFFIXES[i];
    base := StripSuffix(own, Ascii(suffix));
    SpellsIs(product, base);
    assert own == base + Ascii(suffix);
  }

  lemma AliasesAre(own: Text, product: Text)
    ensures NamesAlias(own, product) <==> IsAlias(own, product, |ALIASES|)
  {
    hide Ascii;
    if alias :| alias in ALIASES && own == Ascii(alias.from) && product == Ascii(alias.product) {
      var i :| 0 <= i < |ALIASES| && ALIASES[i] == alias;
      assert AliasName(own, ALIASES[i], product);
    }
    if IsAlias(own, product, |ALIASES|) {
      var i :| 0 <= i < |ALIASES| && AliasName(own, ALIASES[i], product);
      assert ALIASES[i] in ALIASES;
    }
  }

  lemma ConcernsIs(osVersion: Text, v: ReleaseVersion, r: Applicability, advised: set<Text>, key: FindingKey)
    ensures Applies(v, r, advised, key) <==>
            Concerns(v, r, advised) && key.versionId == v.id && key.cve == r.cve && key.product == r.product
    ensures Applies(v, r, advised, key) ==> CertaintyOf(osVersion, v, r) == Certainty(osVersion, v, r)
  {
    hide Ascii, Spells, ProductKey, NameOf, DerivedFrom;
    SpellsIs(r.product, v.name);
    NamesAre(v.name, r.product);
    if v.source.Some? {
      SpellsIs(r.product, v.source.value);
      NamesAre(v.source.value, r.product);
    }
  }

  /** The `i`th version and the `j`th range make a finding under `key`. */
  ghost predicate HitAt(versions: seq<ReleaseVersion>, ranges: seq<Applicability>, advised: set<Text>, key: FindingKey,
                        i: nat, j: nat)
  {
    && i < |versions| && j < |ranges| && Concerns(versions[i], ranges[j], advised)
    && key == FindingKey(versions[i].id, ranges[j].cve, ranges[j].product)
  }

  /** The finding under `key` comes from the `i`th version and the `j`th range: the first of the most certain. */
  ghost predicate FirstMostCertain(osVersion: Text, versions: seq<ReleaseVersion>, ranges: seq<Applicability>,
                                   advised: set<Text>, key: FindingKey, f: Finding, i: nat, j: nat)
  {
    && HitAt(versions, ranges, advised, key, i, j)
    && f == Finding(versions[i], ranges[j], Certainty(osVersion, versions[i], ranges[j]))
    && forall a: nat, b: nat :: HitAt(versions, ranges, advised, key, a, b) ==>
         var other := Certainty(osVersion, versions[a], ranges[b]);
         other <= f.confidence && (a < i || (a == i && b < j) ==> other < f.confidence)
  }

  lemma FirstBestAdds(x: seq<Finding>, y: seq<Finding>)
    ensures FirstBest(x + y) ==
            var (a, b) := (FirstBest(x), FirstBest(y));
            if b.None? || (a.Some? && a.value.confidence >= b.value.confidence) then a else b
    decreases |y|
  {
    if y == [] {
      assert x + y == x;
    } else {
      var n := |y| - 1;
      assert (x + y)[..|x + y| - 1] == x + y[..n];
      FirstBestAdds(x, y[..n]);
    }
  }

  /** The first most certain hit of one version among its first `m` ranges. */
  ghost predicate FirstInRow(osVersion: Text, v: ReleaseVersion, ranges: seq<Applicability>, advised: set<Text>,
                             key: FindingKey, best: Option<Finding>, m: nat)
    requires m <= |ranges|
  {
    if best.None? then forall b :: 0 <= b < m ==> !HitAt([v], ranges, advised, key, 0, b)
    else exists j: nat :: j < m && FirstMostCertain(osVersion, [v], ranges[..m], advised, key, best.value, 0, j)
  }

  lemma {:induction false} RowIsFirst(osVersion: Text, v: ReleaseVersion, ranges: seq<Applicability>,
                                      advised: set<Text>, key: FindingKey, m: nat)
    requires m <= |ranges|
    ensures FirstInRow(osVersion, v, ranges, advised, key,
                       FirstBest(VersionHits(osVersion, v, ranges[..m], advised, key)), m)
  {
    hide Concerns, Certainty, Applies, CertaintyOf, TieOf, IsKernel, InRange, Confidence;
    if m > 0 {
      RowIsFirst(osVersion, v, ranges, advised, key, m - 1);
      var r := ranges[m - 1];
      var before := VersionHits(osVersion, v, ranges[..m - 1], advised, key);
      var hit := HitOf(osVersion, v, r, advised, key);
      assert ranges[..m][..m - 1] == ranges[..m - 1];
      assert VersionHits(osVersion, v, ranges[..m], advised, key) == before + hit;
      HitIs(osVersion, v, r, advised, key);
      FirstBestAdds(before, hit);
      assert FirstBest([]) == None;
      RowStep(osVersion, v, ranges, advised, key, m, FirstBest(before), hit);
    }
  }

  lemma HitIs(osVersion: Text, v: ReleaseVersion, r: Applicability, advised: set<Text>, key: FindingKey)
    ensures HitOf(osVersion, v, r, advised, key) ==
            if Concerns(v, r, advised) && key == FindingKey(v.id, r.cve, r.product)
            then [Finding(v, r, Certainty(osVersion, v, r))] else []
  {
    hide Concerns, Certainty, IsKernel, TieOf, InRange, Confidence;
    ConcernsIs(osVersion, v, r, advised, key);
  }

  lemma RowStep(osVersion: Text, v: ReleaseVersion, ranges: seq<Applicability>, advised: set<Text>, key: FindingKey,
                m: nat, before: Option<Finding>, hit: seq<Finding>)
    requires 0 < m <= |ranges| && FirstInRow(osVersion, v, ranges, advised, key, before, m - 1)
    requires var r := ranges[m - 1];
             hit == if Concerns(v, r, advised) && key == FindingKey(v.id, r.cve, r.product)
                    then [Finding(v, r, Certainty(osVersion, v, r))] else []
    ensures FirstInRow(osVersion, v, ranges, advised, key,
                       if hit == [] || (before.Some? && before.value.confidence >= hit[0].confidence) then before
                       else Some(hit[0]), m)
  {
    hide Concerns, Certainty;
    assert [v][0] == v;
    if before.Some? {
      var j: nat :| j < m - 1 && FirstMostCertain(osVersion, [v], ranges[..m - 1], advised, key, before.value, 0, j);
      forall b: nat | b < m - 1
        ensures HitAt([v], ranges[..m], advised, key, 0, b) <==> HitAt([v], ranges[..m - 1], advised, key, 0, b)
      {
      }
      if hit == [] || before.value.confidence >= hit[0].confidence {
        assert FirstMostCertain(osVersion, [v], ranges[..m], advised, key, before.value, 0, j);
      } else {
        assert FirstMostCertain(osVersion, [v], ranges[..m], advised, key, hit[0], 0, m - 1);
      }
    } else {
      forall b: nat | b < m - 1 ensures !HitAt([v], ranges[..m], advised, key, 0, b) {
        assert !HitAt([v], ranges, advised, key, 0, b);
      }
      assert hit != [] ==> FirstMostCertain(osVersion, [v], ranges[..m], advised, key, hit[0], 0, m - 1);
    }
  }

  /** The first most certain hit of the first `n` versions. */
  ghost predicate FirstIn(osVersion: Text, versions: seq<ReleaseVersion>, ranges: seq<Applicability>,
                          advised: set<Text>, key: FindingKey, best: Option<Finding>, n: nat)
    requires n <= |versions|
  {
    if best.None? then forall a: nat, b: nat :: a < n ==> !HitAt(versions, ranges, advised, key, a, b)
    else exists i: nat, j: nat :: FirstMostCertain(osVersion, versions[..n], ranges, advised, key, best.value, i, j)
  }

  lemma {:induction false} BestIsFirst(osVersion: Text, versions: seq<ReleaseVersion>, ranges: seq<Applicability>,
                                       advised: set<Text>, key: FindingKey, n: nat)
    requires n <= |versions|
    ensures FirstIn(osVersion, versions, ranges, advised, key,
                    FirstBest(Hits(osVersion, versions[..n], ranges, advised, key)), n)
  {
    hide HitAt, FirstMostCertain, VersionHits, FirstInRow;
    if n > 0 {
      BestIsFirst(osVersion, versions, ranges, advised, key, n - 1);
      var v := versions[n - 1];
      var before := Hits(osVersion, versions[..n - 1], ranges, advised, key);
      var row := VersionHits(osVersion, v, ranges, advised, key);
      assert versions[..n][..n - 1] == versions[..n - 1];
      assert ranges[..|ranges|] == ranges;
      RowIsFirst(osVersion, v, ranges, advised, key, |ranges|);
      FirstBestAdds(before, row);
      VersionStep(osVersion, versions, ranges, advised, key, n, FirstBest(before), FirstBest(row));
    }
  }

  lemma SameHits(versions: seq<ReleaseVersion>, ranges: seq<Applicability>, advised: set<Text>, key: FindingKey,
                 n: nat, a: nat, b: nat)
    requires 0 < n <= |versions|
    ensures a < n - 1 ==>
              (HitAt(versions[..n], ranges, advised, key, a, b) <==>
               HitAt(versions[..n - 1], ranges, advised, key, a, b))
    ensures HitAt(versions[..n], ranges, advised, key, n - 1, b) <==>
            HitAt([versions[n - 1]], ranges, advised, key, 0, b)
    ensures HitAt(versions[..n], ranges, advised, key, a, b) <==> a < n && HitAt(versions, ranges, advised, key, a, b)
  {
    hide Concerns;
  }

  lemma VersionStep(osVersion: Text, versions: seq<ReleaseVersion>, ranges: seq<Applicability>, advised: set<Text>,
                    key: FindingKey, n: nat, before: Option<Finding>, row: Option<Finding>)
    requires 0 < n <= |versions| && FirstIn(osVersion, versions, ranges, advised, key, before, n - 1)
    requires FirstInRow(osVersion, versions[n - 1], ranges, advised, key, row, |ranges|)
    ensures FirstIn(osVersion, versions, ranges, advised, key,
                    if row.None? || (before.Some? && before.value.confidence >= row.value.confidence) then before
                    else row, n)
  {
    hide Concerns, Certainty, HitAt;
    var some := versions[..n];
    forall a: nat, b: nat
      ensures HitAt(some, ranges, advised, key, a, b) ==>
                if a < n - 1 then HitAt(versions[..n - 1], ranges, advised, key, a, b)
                else a == n - 1 && HitAt([versions[n - 1]], ranges, advised, key, 0, b)
    {
      SameHits(versions, ranges, advised, key, n, a, b);
    }
    if row.None? || (before.Some? && before.value.confidence >= row.value.confidence) {
      if before.Some? {
        var i: nat, j: nat :| FirstMostCertain(osVersion, versions[..n - 1], ranges, advised, key, before.value, i, j);
        EarlierStays(osVersion, versions, ranges, advised, key, n, before.value, row, i, j);
      } else {
        forall a: nat, b: nat | a < n ensures !HitAt(versions, ranges, advised, key, a, b) {
          SameHits(versions, ranges, advised, key, n, a, b);
          assert a < n - 1 ==> !HitAt(versions, ranges, advised, key, a, b);
          NothingBeyond([versions[n - 1]], ranges, advised, key, b);
        }
      }
    } else {
      NewerWins(osVersion, versions, ranges, advised, key, n, before, row.value);
    }
  }

  lemma NothingBeyond(versions: seq<ReleaseVersion>, ranges: seq<Applicability>, advised: set<Text>, key: FindingKey,
                      b: nat)
    ensures HitAt(versions, ranges, advised, key, 0, b) ==> b < |ranges|
  {
    hide Concerns;
  }

  lemma EarlierStays(osVersion: Text, versions: seq<ReleaseVersion>, ranges: seq<Applicability>, advised: set<Text>,
                     key: FindingKey, n: nat, f: Finding, row: Option<Finding>, i: nat, j: nat)
    requires 0 < n <= |versions| && FirstMostCertain(osVersion, versions[..n - 1], ranges, advised, key, f, i, j)
    requires FirstInRow(osVersion, versions[n - 1], ranges, advised, key, row, |ranges|)
    requires row.Some? ==> f.confidence >= row.value.confidence
    ensures FirstMostCertain(osVersion, versions[..n], ranges, advised, key, f, i, j)
  {
    hide Concerns, Certainty, HitAt;
    var some := versions[..n];
    assert ranges[..|ranges|] == ranges;
    SameHits(versions, ranges, advised, key, n, i, j);
    assert i < n - 1 by { HitsInside(versions[..n - 1], ranges, advised, key, i, j); }
    forall a: nat, b: nat | HitAt(some, ranges, advised, key, a, b)
      ensures a < |some| && b < |ranges|
      ensures var other := Certainty(osVersion, some[a], ranges[b]);
              other <= f.confidence && (a < i || (a == i && b < j) ==> other < f.confidence)
    {
      SameHits(versions, ranges, advised, key, n, a, b);
      HitsInside(some, ranges, advised, key, a, b);
      if a < n - 1 {
        assert some[a] == versions[..n - 1][a];
      } else {
        assert some[a] == [versions[n - 1]][0];
        assert HitAt([versions[n - 1]], ranges, advised, key, 0, b);
      }
    }
  }

  lemma HitsInside(versions: seq<ReleaseVersion>, ranges: seq<Applicability>, advised: set<Text>, key: FindingKey,
                 a: nat, b: nat)
    ensures HitAt(versions, ranges, advised, key, a, b) ==> a < |versions| && b < |ranges|
  {
    hide Concerns;
  }

  lemma NewerWins(osVersion: Text, versions: seq<ReleaseVersion>, ranges: seq<Applicability>, advised: set<Text>,
                  key: FindingKey, n: nat, before: Option<Finding>, f: Finding)
    requires 0 < n <= |versions| && FirstIn(osVersion, versions, ranges, advised, key, before, n - 1)
    requires FirstInRow(osVersion, versions[n - 1], ranges, advised, key, Some(f), |ranges|)
    requires before.Some? ==> before.value.confidence < f.confidence
    ensures FirstIn(osVersion, versions, ranges, advised, key, Some(f), n)
  {
    hide Concerns, Certainty, HitAt;
    var some := versions[..n];
    assert ranges[..|ranges|] == ranges;
    var j: nat :|
      j < |ranges| && FirstMostCertain(osVersion, [versions[n - 1]], ranges[..|ranges|], advised, key, f, 0, j);
    SameHits(versions, ranges, advised, key, n, n - 1, j);
    forall a: nat, b: nat | HitAt(some, ranges, advised, key, a, b)
      ensures a < |some| && b < |ranges|
      ensures var other := Certainty(osVersion, some[a], ranges[b]);
              other <= f.confidence && (a < n - 1 || (a == n - 1 && b < j) ==> other < f.confidence)
    {
      SameHits(versions, ranges, advised, key, n, a, b);
      HitsInside(some, ranges, advised, key, a, b);
      if a < n - 1 {
        BelowTheBest(osVersion, versions, ranges, advised, key, n, before, a, b);
      } else {
        assert some[a] == [versions[n - 1]][0];
        assert HitAt([versions[n - 1]], ranges, advised, key, 0, b);
      }
    }
    assert FirstMostCertain(osVersion, some, ranges, advised, key, f, n - 1, j);
  }

  lemma BelowTheBest(osVersion: Text, versions: seq<ReleaseVersion>, ranges: seq<Applicability>, advised: set<Text>,
                     key: FindingKey, n: nat, before: Option<Finding>, a: nat, b: nat)
    requires 0 < n <= |versions| && FirstIn(osVersion, versions, ranges, advised, key, before, n - 1)
    requires a < n - 1 && b < |ranges| && HitAt(versions[..n - 1], ranges, advised, key, a, b)
    ensures before.Some? && Certainty(osVersion, versions[a], ranges[b]) <= before.value.confidence
  {
    hide Concerns, Certainty;
    assert HitAt(versions, ranges, advised, key, a, b);
    var i: nat, j: nat :| FirstMostCertain(osVersion, versions[..n - 1], ranges, advised, key, before.value, i, j);
    assert versions[..n - 1][a] == versions[a];
  }

  /**
   There is a finding under a key exactly when a version and a range concern each other there, and it is
   that of the first of the most certain such pairs, version by version.
   */
  lemma FindingsMean(osVersion: Text, versions: seq<ReleaseVersion>, ranges: seq<Applicability>, advised: set<Text>,
                     best: map<FindingKey, Finding>, key: FindingKey)
    requires forall k :: Get(best, k) == FirstBest(Hits(osVersion, versions, ranges, advised, k))
    ensures key in best <==> exists i: nat, j: nat :: HitAt(versions, ranges, advised, key, i, j)
    ensures key in best ==>
              exists i: nat, j: nat :: FirstMostCertain(osVersion, versions, ranges, advised, key, best[key], i, j)
  {
    hide HitAt, Hits, FirstBest;
    assert Get(best, key) == FirstBest(Hits(osVersion, versions, ranges, advised, key));
    BestIsFirst(osVersion, versions, ranges, advised, key, |versions|);
    assert versions[..|versions|] == versions;
    if i: nat, j: nat :| HitAt(versions, ranges, advised, key, i, j) {
      HitsInside(versions, ranges, advised, key, i, j);
    }
  }

  // ---- the product filter -----------------------------------------------------------------

  datatype InstalledName = InstalledName(name: Text, source: Option<Text>)

  /** Every product some installed package could be. */
  method WantedProducts(installed: seq<InstalledName>) returns (products: set<Text>)
    ensures forall p :: p in products <==>
              exists x :: x in installed && !IsKernel(x.name) && TieOf(x.name, x.source, p).Some?
  {
    hide IsKernel, TieOf;
    products := {};
    for i := 0 to |installed|
      invariant forall p :: p in products <==>
                  exists x :: x in installed[..i] && !IsKernel(x.name) && TieOf(x.name, x.source, p).Some?
    {
      var x := installed[i];
      assert installed[..i + 1] == installed[..i] + [x];
      if !IsKernel(x.name) {
        var found := ProductsOf(x.name, x.source);
        forall p ensures p in found.Keys <==>
            TieOf(x.name, x.source, p).Some? { assert Get(found, p) == TieOf(x.name, x.source, p); }
        products := products + found.Keys;
      }
    }
    assert installed[..|installed|] == installed;
  }

  /** The ranges of these products, in order: what the store returns for them. */
  function OfProducts(ranges: seq<Applicability>, products: set<Text>): seq<Applicability> {
    if ranges == [] then []
    else
      var rest, r := OfProducts(ranges[..|ranges| - 1], products), ranges[|ranges| - 1];
      if r.product in products then rest + [r] else rest
  }

  /** Exactly the ranges of these products are loaded, each as often as it is stored. */
  lemma {:induction false} LoadsOnlyTheirs(ranges: seq<Applicability>, products: set<Text>, r: Applicability)
    ensures multiset(OfProducts(ranges, products))[r] == if r.product in products then multiset(ranges)[r] else 0
  {
    if ranges != [] {
      var n := |ranges| - 1;
      assert ranges == ranges[..n] + [ranges[n]];
      LoadsOnlyTheirs(ranges[..n], products, r);
    }
  }

  lemma {:induction false} FilterKeepsVersionHits(osVersion: Text, v: ReleaseVersion, ranges: seq<Applicability>,
                                                  advised: set<Text>, products: set<Text>, key: FindingKey)
    requires IsKernel(v.name) || forall p :: TieOf(v.name, v.source, p).Some? ==> p in products
    ensures VersionHits(osVersion, v, OfProducts(ranges, products), advised, key) ==
              VersionHits(osVersion, v, ranges, advised, key)
  {
    hide TieOf, IsKernel, InRange, Confidence;
    if ranges != [] {
      var n := |ranges| - 1;
      FilterKeepsVersionHits(osVersion, v, ranges[..n], advised, products, key);
      var rest := OfProducts(ranges[..n], products);
      assert (rest + [ranges[n]])[..|rest|] == rest;
    }
  }

  /** Loading only the ranges of wanted products changes no finding. */
  lemma {:induction false} ProductFilterLosesNothing(osVersion: Text, versions: seq<ReleaseVersion>,
                                                     ranges: seq<Applicability>, advised: set<Text>,
                                                    products: set<Text>, key: FindingKey)
    requires forall v, p :: v in versions && !IsKernel(v.name) && TieOf(v.name, v.source, p).Some? ==> p in products
    ensures Hits(osVersion, versions, OfProducts(ranges, products), advised, key) ==
              Hits(osVersion, versions, ranges, advised, key)
  {
    hide TieOf, IsKernel, VersionHits, OfProducts;
    if versions != [] {
      var n := |versions| - 1;
      ProductFilterLosesNothing(osVersion, versions[..n], ranges, advised, products, key);
      FilterKeepsVersionHits(osVersion, versions[n], ranges, advised, products, key);
    }
  }

  /** Recomputes a release's findings from the stored ranges of wanted products. */
  method Refresh(osVersion: Text, versions: seq<ReleaseVersion>, stored: seq<Applicability>, advised: set<Text>)
    returns (best: map<FindingKey, Finding>)
    ensures forall key :: Get(best, key) == FirstBest(Hits(osVersion, versions, stored, advised, key))
  {
    hide TieOf, IsKernel, Hits, FirstBest, OfProducts;
    var installed := seq(|versions|, i requires 0 <= i < |versions| =>
        InstalledName(versions[i].name, versions[i].source));
    var products := WantedProducts(installed);
    forall v, p | v in versions && !IsKernel(v.name) && TieOf(v.name, v.source, p).Some? ensures p in products {
      var i :| 0 <= i < |versions| && versions[i] == v;
      assert installed[i] in installed;
    }
    best := Evaluate(osVersion, versions, OfProducts(stored, products), advised);
    forall key { ProductFilterLosesNothing(osVersion, versions, stored, advised, products, key); }
  }
}
