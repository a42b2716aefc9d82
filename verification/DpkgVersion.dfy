/**
 dpkg version order (`openvibes-vulns/src/dpkgver.rs`): epoch, upstream version
 and revision, the last two by `verrevcmp`. The byte loop is proved to be
 comparison of zero-padded keys, which makes the whole order a total preorder
 (section 5.6.12 of Debian Policy).
 */
module DpkgVersion {
  import opened Basics
  import opened Orders

  const TILDE: Byte := 126
  const COLON: Byte := 58
  const HYPHEN: Byte := 45

  /** Sort weight of the first byte of `s`, or of its end. */
  function Weight(s: Bytes): int {
    if s == [] then 0
    else if IsDigit(s[0]) then 0
    else if IsAlpha(s[0]) then s[0]
    else if s[0] == TILDE then -1
    else 256 + s[0] as int
  }

  predicate StartsWithDigit(s: Bytes) {
    s != [] && IsDigit(s[0])
  }

  predicate StartsNonDigit(s: Bytes) {
    s != [] && !IsDigit(s[0])
  }

  /** The sort key of one part: a weight per non-digit, then 0 and the number per digit run. */
  function PartKey(s: Bytes): Key {
    if s == [] then [] else SegmentKey(s) + PartKey(s[Used(s)..])
  }

  function SegmentKey(s: Bytes): Key
    requires s != []
  {
    if IsDigit(s[0]) then [0, Number(s)] else [Weight(s)]
  }

  /** A non-digit is a segment of its own; digits go together. */
  function Used(s: Bytes): (n: nat)
    requires s != []
    ensures 1 <= n <= |s|
  {
    if IsDigit(s[0]) then DigitRun(s) else 1
  }

  /** The number `s` starts with (0 when it starts with none). */
  function Number(s: Bytes): int {
    Value(s[..DigitRun(s)])
  }

  function AfterNumber(s: Bytes): (rest: Bytes)
    ensures StartsWithDigit(s) ==> |rest| < |s|
  {
    s[DigitRun(s)..]
  }

  function PartOrder(a: Bytes, b: Bytes): Ordering {
    PadCmp(PartKey(a), PartKey(b))
  }

  lemma SameWeightAdvances(a: Bytes, b: Bytes)
    requires StartsNonDigit(a) || StartsNonDigit(b)
    ensures Weight(a) != Weight(b) ==> PartOrder(a, b) == Cmp(Weight(a), Weight(b))
    ensures Weight(a) == Weight(b) ==>
              StartsNonDigit(a) && StartsNonDigit(b) && PartOrder(a, b) == PartOrder(a[1..], b[1..])
  {
  }

  lemma NumbersDecide(a: Bytes, b: Bytes)
    requires !StartsNonDigit(a) && !StartsNonDigit(b)
    ensures PartOrder(a, b) == Cmp(Number(a), Number(b)).Then(PartOrder(AfterNumber(a), AfterNumber(b)))
  {
    forall s: Bytes | !StartsNonDigit(s)
      ensures At(PartKey(s), 0) == 0 && At(PartKey(s), 1) == Number(s)
      ensures Tail(Tail(PartKey(s))) == PartKey(AfterNumber(s))
    {
    }
    var x, y := PartKey(a), PartKey(b);
    if x != [] || y != [] {
      assert PadCmp(x, y) == PadCmp(Tail(x), Tail(y));
      assert Tail(x) != [] || Tail(y) != [];
      assert At(Tail(x), 0) == At(x, 1) && At(Tail(y), 0) == At(y, 1);
    } else {
      assert a == [] && b == [];
    }
  }

  lemma StripZero(s: Bytes)
    requires s != [] && s[0] == 48
    ensures Number(s[1..]) == Number(s) && AfterNumber(s[1..]) == AfterNumber(s)
    ensures !StartsNonDigit(s[1..]) || s[1..] == AfterNumber(s)
  {
    var d := s[..DigitRun(s)];
    LeadingZero(d);
    assert d[1..] == s[1..][..DigitRun(s[1..])];
  }

  /** The first `k` bytes of both are digits. */
  predicate DigitsUpTo(a: Bytes, b: Bytes, k: nat) {
    k <= |a| && k <= |b| && AllDigits(a[..k]) && AllDigits(b[..k])
  }

  /** One more digit each: an earlier difference stays the difference. */
  lemma NextDigit(a: Bytes, b: Bytes, k: nat)
    requires DigitsUpTo(a, b, k) && StartsWithDigit(a[k..]) && StartsWithDigit(b[k..])
    ensures DigitsUpTo(a, b, k + 1)
    ensures Cmp(Value(a[..k + 1]), Value(b[..k + 1])) == Cmp(Value(a[..k]), Value(b[..k])).Then(Cmp(a[k], b[k]))
  {
    assert a[..k + 1] == a[..k] + [a[k]] && b[..k + 1] == b[..k] + [b[k]];
    assert a[..k + 1][..k] == a[..k] && b[..k + 1][..k] == b[..k];
  }

  /** A run that goes on where the other stops is the larger number. */
  lemma RunsEnd(a: Bytes, b: Bytes, k: nat)
    requires DigitsUpTo(a, b, k) && !StartsWithDigit(b[k..])
    requires a == [] || a[0] != 48
    ensures StartsWithDigit(a[k..]) ==> Number(b) < Number(a)
    ensures !StartsWithDigit(a[k..]) ==> Number(a) == Value(a[..k]) && AfterNumber(a) == a[k..]
    ensures Number(b) == Value(b[..k]) && AfterNumber(b) == b[k..]
  {
    hide Value;
    var m, n := DigitRun(a), DigitRun(b);
    assert forall i | 0 <= i < k :: a[..k][i] == a[i] && b[..k][i] == b[i];
    if StartsWithDigit(a[k..]) {
      LongerIsLarger(b[..k], a[..m]);
    }
  }

  /**
   Compares the numbers two runs start with, as the code does once leading
   zeros are gone: by length, then by the first different digit.
   */
  method CompareStripped(a1: Bytes, b1: Bytes) returns (order: Ordering, a: Bytes, b: Bytes)
    requires a1 == [] || a1[0] != 48
    requires b1 == [] || b1[0] != 48
    ensures order == Cmp(Number(a1), Number(b1))
    ensures order == Equal ==> a == AfterNumber(a1) && b == AfterNumber(b1)
  {
    a, b := a1, b1;
    var firstDifference := Equal;
    ghost var k := 0;
    while StartsWithDigit(a) && StartsWithDigit(b)
      invariant DigitsUpTo(a1, b1, k)
      invariant a == a1[k..] && b == b1[k..]
      invariant firstDifference == Cmp(Value(a1[..k]), Value(b1[..k]))
      decreases |a|
    {
      NextDigit(a1, b1, k);
      if firstDifference == Equal {
        firstDifference := Cmp(a[0], b[0]);
      }
      a, b := a[1..], b[1..];
      k := k + 1;
    }
    if StartsWithDigit(a) {
      RunsEnd(a1, b1, k);
      return Greater, a, b;
    }
    RunsEnd(b1, a1, k);
    if StartsWithDigit(b) {
      return Less, a, b;
    }
    order := firstDifference;
  }

  /** dpkg's `verrevcmp` on one part; it ends because each round uses up input. */
  method Verrevcmp(x: Bytes, y: Bytes) returns (order: Ordering)
    ensures order == PartOrder(x, y)
  {
    var a, b := x, y;
    while a != [] || b != []
      invariant PartOrder(x, y) == PartOrder(a, b)
      decreases |a| + |b|
    {
      ghost var (a0, b0) := (a, b);
      while StartsNonDigit(a) || StartsNonDigit(b)
        invariant PartOrder(x, y) == PartOrder(a, b)
        invariant |a| + |b| <= |a0| + |b0|
        invariant a != a0 || b != b0 ==> |a| + |b| < |a0| + |b0|
        decreases |a| + |b|
      {
        SameWeightAdvances(a, b);
        if Weight(a) != Weight(b) {
          return Cmp(Weight(a), Weight(b));
        }
        a, b := a[1..], b[1..];
      }
      ghost var (a1, b1) := (a, b);
      NumbersDecide(a1, b1);
      while a != [] && a[0] == 48
        invariant Number(a) == Number(a1) && AfterNumber(a) == AfterNumber(a1) && |a| <= |a1|
        decreases |a|
      {
        StripZero(a);
        a := a[1..];
      }
      while b != [] && b[0] == 48
        invariant Number(b) == Number(b1) && AfterNumber(b) == AfterNumber(b1) && |b| <= |b1|
        decreases |b|
      {
        StripZero(b);
        b := b[1..];
      }
      var numbers;
      numbers, a, b := CompareStripped(a, b);
      if numbers != Equal {
        return numbers;
      }
    }
    order := Equal;
  }

  // ---- full versions ----------------------------------------------------------

  datatype Version = Version(epoch: int, upstream: Bytes, revision: Bytes)

  function Saturate(n: int, limit: nat): int {
    if n <= limit then n else limit
  }

  /** Splits off a numeric epoch before the first colon; a larger one than `limit` saturates. */
  function SplitEpoch(version: Bytes, limit: nat): (int, Bytes) {
    var i := IndexOf(version, COLON);
    if 0 < i < |version| && AllDigits(version[..i])
    then (Saturate(Value(version[..i]), limit), version[i + 1..])
    else (0, version)
  }

  /** Splits off what follows the last hyphen. */
  function SplitRevision(rest: Bytes): (Bytes, Bytes) {
    var i := LastIndexOf(rest, HYPHEN);
    if i < |rest| then (rest[..i], rest[i + 1..]) else (rest, [])
  }

  /** `[epoch:]upstream[-revision]`. */
  function Split(version: Bytes): Version {
    var (epoch, rest) := SplitEpoch(version, U64_MAX);
    var (upstream, revision) := SplitRevision(rest);
    Version(epoch, upstream, revision)
  }

  function VersionOrder(a: Version, b: Version): Ordering {
    Cmp(a.epoch, b.epoch).Then(PartOrder(a.upstream, b.upstream)).Then(PartOrder(a.revision, b.revision))
  }

  function Order(a: Bytes, b: Bytes): Ordering {
    VersionOrder(Split(a), Split(b))
  }

  method Compare(a: Bytes, b: Bytes) returns (order: Ordering)
    ensures order == Order(a, b)
  {
    var (x, y) := (Split(a), Split(b));
    var upstream := Verrevcmp(x.upstream, y.upstream);
    var revision := Verrevcmp(x.revision, y.revision);
    order := Cmp(x.epoch, y.epoch).Then(upstream).Then(revision);
  }

  lemma PartTotalPreorder(a: Bytes, b: Bytes, c: Bytes)
    ensures PartOrder(a, a) == Equal
    ensures PartOrder(b, a) == PartOrder(a, b).Flip()
    ensures Chain(PartOrder(a, b), PartOrder(b, c), PartOrder(a, c))
  {
    PadCmpFlips(PartKey(a), PartKey(b));
    PadCmpTransitive(PartKey(a), PartKey(b), PartKey(c));
  }

  /** The dpkg order is a total preorder on all strings. */
  lemma TotalPreorder(a: Bytes, b: Bytes, c: Bytes)
    ensures Order(a, a) == Equal
    ensures Order(b, a) == Order(a, b).Flip()
    ensures Chain(Order(a, b), Order(b, c), Order(a, c))
  {
    hide PartOrder, Split;
    var (x, y, z) := (Split(a), Split(b), Split(c));
    PartTotalPreorder(x.upstream, y.upstream, z.upstream);
    PartTotalPreorder(x.revision, y.revision, z.revision);
  }

  // ---- what Debian Policy promises of the order -------------------------------

  /** No digit run goes on from `s` into `t`. */
  predicate Boundary(s: Bytes, t: Bytes) {
    s == [] || !StartsWithDigit(t) || !IsDigit(s[|s| - 1])
  }

  lemma {:induction false} KeySplits(s: Bytes, t: Bytes)
    requires Boundary(s, t)
    ensures PartKey(s + t) == PartKey(s) + PartKey(t)
  {
    hide SegmentKey, Used;
    if s == [] {
      assert s + t == t;
    } else {
      var r := s[Used(s)..];
      SegmentStays(s, t);
      assert (s + t)[Used(s)..] == r + t;
      KeySplits(r, t);
      assert SegmentKey(s) + (PartKey(r) + PartKey(t)) == (SegmentKey(s) + PartKey(r)) + PartKey(t);
    }
  }

  lemma SegmentStays(s: Bytes, t: Bytes)
    requires s != [] && Boundary(s, t)
    ensures Used(s + t) == Used(s) && SegmentKey(s + t) == SegmentKey(s)
  {
    RunStays(s, t);
  }

  lemma {:induction false} RunStays(s: Bytes, t: Bytes)
    requires s != [] && Boundary(s, t)
    ensures DigitRun(s + t) == DigitRun(s) && (s + t)[..DigitRun(s)] == s[..DigitRun(s)]
  {
    assert (s + t)[1..] == s[1..] + t;
    if |s| > 1 {
      RunStays(s[1..], t);
    } else {
      assert s[1..] + t == t;
    }
  }

  lemma FirstWeight(s: Bytes)
    requires s != [] && !IsDigit(s[0])
    ensures PartKey(s) != [] && PartKey(s)[0] == if s[0] == TILDE then -1 else if IsAlpha(s[0]) then s[0]
            else 256 + s[0] as int
  {
  }

  /**
   After any common start, what follows sorts: a tilde before the end, the end
   before a letter, a letter before any other symbol.
   */
  lemma TildeEndLetterSymbol(s: Bytes, tilde: Bytes, letter: Bytes, symbol: Bytes)
    requires tilde != [] && tilde[0] == TILDE
    requires letter != [] && IsAlpha(letter[0])
    requires symbol != [] && !IsDigit(symbol[0]) && !IsAlpha(symbol[0]) && symbol[0] != TILDE
    ensures PartOrder(s + tilde, s) == Less
    ensures PartOrder(s, s + letter) == Less
    ensures PartOrder(s + letter, s + symbol) == Less
  {
    hide PartKey, Weight;
    KeySplits(s, tilde);
    KeySplits(s, letter);
    KeySplits(s, symbol);
    assert s + [] == s && PartKey(s) + [] == PartKey(s);
    PadCmpSkips(PartKey(s), PartKey(tilde), []);
    PadCmpSkips(PartKey(s), [], PartKey(letter));
    PadCmpSkips(PartKey(s), PartKey(letter), PartKey(symbol));
    FirstWeight(tilde);
    FirstWeight(letter);
    FirstWeight(symbol);
  }

  /** After any common start, digit runs compare as numbers whatever their leading zeros. */
  lemma DigitRunsCompareAsNumbers(s: Bytes, x: Bytes, y: Bytes, t: Bytes, u: Bytes)
    requires AllDigits(x) && AllDigits(y)
    requires s == [] || !IsDigit(s[|s| - 1])
    requires x != [] && y != [] && !StartsWithDigit(t) && !StartsWithDigit(u)
    ensures Value(x) < Value(y) ==> PartOrder(s + x + t, s + y + u) == Less
    ensures Value(x) == Value(y) ==> PartOrder(s + x + t, s + y + u) == PartOrder(t, u)
  {
    hide PartKey, PadCmp, Number, AfterNumber;
    KeySplits(s, x + t);
    KeySplits(s, y + u);
    assert s + x + t == s + (x + t) && s + y + u == s + (y + u);
    PadCmpSkips(PartKey(s), PartKey(x + t), PartKey(y + u));
    WholeRun(x, t);
    WholeRun(y, u);
    NumbersDecide(x + t, y + u);
  }

  lemma WholeRun(x: Bytes, t: Bytes)
    requires x != [] && AllDigits(x) && !StartsWithDigit(t)
    ensures Number(x + t) == Value(x) && AfterNumber(x + t) == t
  {
    RunStays(x, t);
    RunOfDigits(x);
    assert (x + t)[..|x|] == x;
  }

  lemma {:induction false} RunOfDigits(x: Bytes)
    requires AllDigits(x)
    ensures DigitRun(x) == |x|
  {
    if x != [] { RunOfDigits(x[1..]); }
  }

  /** After any common start, two letters compare as bytes, and so do two other symbols. */
  lemma SameKindComparesAsBytes(s: Bytes, x: Bytes, y: Bytes)
    requires x != [] && y != [] && !IsDigit(x[0]) && !IsDigit(y[0]) && x[0] != TILDE && y[0] != TILDE
    requires IsAlpha(x[0]) == IsAlpha(y[0])
    ensures x[0] < y[0] ==> PartOrder(s + x, s + y) == Less
    ensures x[0] == y[0] ==> PartOrder(s + x, s + y) == PartOrder(x[1..], y[1..])
  {
    hide PartKey, PadCmp;
    KeySplits(s, x);
    KeySplits(s, y);
    PadCmpSkips(PartKey(s), PartKey(x), PartKey(y));
    FirstByte(x);
    FirstByte(y);
    FirstOfKeys(PartKey(x), PartKey(y));
    PadCmpSkips([Weight(x)], PartKey(x[1..]), PartKey(y[1..]));
  }

  lemma FirstByte(x: Bytes)
    requires x != [] && !IsDigit(x[0])
    ensures PartKey(x) == [Weight(x)] + PartKey(x[1..])
  {
  }

  lemma FirstOfKeys(x: Key, y: Key)
    requires x != [] && y != []
    ensures x[0] < y[0] ==> PadCmp(x, y) == Less
  {
  }

  // ---- the order of written versions ------------------------------------------

  lemma IndexOfIs(s: Bytes, c: Byte, i: nat)
    requires i < |s| && s[i] == c && c !in s[..i]
    ensures IndexOf(s, c) == i
  {
    var k := IndexOf(s, c);
    assert forall j :: 0 <= j < i ==> s[..i][j] == s[j];
    assert forall j :: 0 <= j < k ==> s[..k][j] == s[j];
  }

  lemma LastIndexOfIs(s: Bytes, c: Byte, i: nat)
    requires i < |s| && s[i] == c && c !in s[i + 1..]
    ensures LastIndexOf(s, c) == i
  {
    var k := LastIndexOf(s, c);
    assert forall j :: i < j < |s| ==> s[j] in s[i + 1..];
    assert k < |s| ==> forall j :: k < j < |s| ==> s[j] in s[k + 1..];
  }

  /** What stands before the first colon, if there is one, is no number. */
  predicate NoEpoch(x: Bytes) {
    forall i :: 0 <= i < |x| && x[i] == COLON && COLON !in x[..i] ==> i == 0 || !AllDigits(x[..i])
  }

  lemma EpochSplits(d: Bytes, x: Bytes, limit: nat)
    requires d != [] && AllDigits(d)
    ensures SplitEpoch(d + [COLON] + x, limit) == (Saturate(Value(d), limit), x)
  {
    var t := d + [COLON] + x;
    assert t[..|d|] == d && t[|d| + 1..] == x;
    IndexOfIs(t, COLON, |d|);
  }

  lemma NoEpochSplits(x: Bytes, limit: nat)
    requires NoEpoch(x)
    ensures SplitEpoch(x, limit) == (0, x)
  {
  }

  lemma RevisionSplits(u: Bytes, r: Bytes)
    requires HYPHEN !in r
    ensures SplitRevision(u + [HYPHEN] + r) == (u, r)
    ensures SplitRevision(r) == (r, [])
  {
    var t := u + [HYPHEN] + r;
    assert t[..|u|] == u && t[|u| + 1..] == r;
    LastIndexOfIs(t, HYPHEN, |u|);
  }

  /** Without epochs the upstream versions decide, and the revisions only between equal ones. */
  lemma UpstreamThenRevision(u: Bytes, r: Bytes, v: Bytes, s: Bytes)
    requires HYPHEN !in r && HYPHEN !in s && NoEpoch(u + [HYPHEN] + r) && NoEpoch(v + [HYPHEN] + s)
    ensures Order(u + [HYPHEN] + r, v + [HYPHEN] + s) ==
            if PartOrder(u, v) != Equal then PartOrder(u, v) else PartOrder(r, s)
  {
    hide PartOrder, SplitEpoch, SplitRevision;
    NoEpochSplits(u + [HYPHEN] + r, U64_MAX);
    NoEpochSplits(v + [HYPHEN] + s, U64_MAX);
    RevisionSplits(u, r);
    RevisionSplits(v, s);
  }

  /** A smaller epoch decides whatever follows; equal ones, and all that no 64 bits hold, leave it to the rest. */
  lemma EpochsDecide(d: Bytes, x: Bytes, e: Bytes, y: Bytes)
    requires d != [] && e != [] && AllDigits(d) && AllDigits(e)
    ensures Value(d) < Value(e) && Value(d) < U64_MAX ==> Order(d + [COLON] + x, e + [COLON] + y) == Less
    ensures (Value(d) == Value(e) || (Value(d) >= U64_MAX && Value(e) >= U64_MAX)) && NoEpoch(x) && NoEpoch(y) ==>
              Order(d + [COLON] + x, e + [COLON] + y) == Order(x, y)
  {
    hide PartOrder, SplitEpoch, SplitRevision, NoEpoch;
    EpochSplits(d, x, U64_MAX);
    EpochSplits(e, y, U64_MAX);
    if NoEpoch(x) && NoEpoch(y) {
      NoEpochSplits(x, U64_MAX);
      NoEpochSplits(y, U64_MAX);
    }
  }

  /** A version without an epoch orders as with epoch 0, one without a revision as with an empty one. */
  lemma MissingParts(x: Bytes, y: Bytes)
    ensures NoEpoch(x) ==> Order([48] + [COLON] + x, y) == Order(x, y)
    ensures HYPHEN !in x && NoEpoch(x) ==> Order(x + [HYPHEN], y) == Order(x, y)
  {
    hide PartOrder, SplitEpoch, SplitRevision, NoEpoch;
    if NoEpoch(x) {
      NoEpochSplits(x, U64_MAX);
      EpochSplits([48], x, U64_MAX);
      assert Value([48]) == 0 by { assert [48][..0] == []; }
      if HYPHEN !in x {
        RevisionSplits(x, []);
        RevisionSplits([], x);
        assert x + [HYPHEN] + [] == x + [HYPHEN];
        assert NoEpoch(x + [HYPHEN]) by { HyphenIsNoColon(x); }
        NoEpochSplits(x + [HYPHEN], U64_MAX);
      }
    }
  }

  lemma HyphenIsNoColon(x: Bytes)
    requires NoEpoch(x)
    ensures NoEpoch(x + [HYPHEN])
  {
    var t := x + [HYPHEN];
    forall i | 0 <= i < |t| && t[i] == COLON && COLON !in t[..i] ensures i == 0 || !AllDigits(t[..i]) {
      assert t[..i] == x[..i];
    }
  }
}
