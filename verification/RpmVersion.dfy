/**
 RPM version order (`openvibes-vulns/src/rpmver.rs`, and `rpm_parts` of
 `matching.rs`). As for dpkg, the segment loop is proved to be comparison of
 zero-padded keys, so the order is a total preorder on all strings.
 */
module RpmVersion {
  import opened Basics
  import opened Orders
  import Dpkg = DpkgVersion

  const TILDE: Byte := 126
  const CARET: Byte := 94

  predicate IsSeparator(c: Byte) {
    !IsDigit(c) && !IsAlpha(c) && c != TILDE && c != CARET
  }

  /** How many letters `s` starts with. */
  function AlphaRun(s: Bytes): (n: nat)
    ensures n <= |s|
    ensures forall i :: 0 <= i < n ==> IsAlpha(s[i])
    ensures n < |s| ==> !IsAlpha(s[n])
  {
    if s == [] || !IsAlpha(s[0]) then 0 else 1 + AlphaRun(s[1..])
  }

  /** How many bytes the first segment of `s` takes. */
  function Used(s: Bytes): (n: nat)
    requires s != []
    ensures 1 <= n <= |s|
  {
    if IsDigit(s[0]) then DigitRun(s) else if IsAlpha(s[0]) then AlphaRun(s) else 1
  }

  /**
   What the first segment of `s` adds to the sort key: -1 for a tilde, 1 for a
   caret, 2 and the letters and 0 for a letter run, 3 and the number for a digit
   run. The end is the padding 0.
   */
  function SegmentKey(s: Bytes): Key
    requires s != []
  {
    if IsSeparator(s[0]) then []
    else if s[0] == TILDE then [-1]
    else if s[0] == CARET then [1]
    else if IsDigit(s[0]) then [3, Dpkg.Number(s)]
    else [2] + Letters(s) + [0]
  }

  function SortKey(s: Bytes): Key {
    if s == [] then [] else SegmentKey(s) + SortKey(s[Used(s)..])
  }

  function Letters(s: Bytes): Key {
    seq(AlphaRun(s), i requires 0 <= i < AlphaRun(s) => s[i])
  }

  function Order(a: Bytes, b: Bytes): Ordering {
    PadCmp(SortKey(a), SortKey(b))
  }

  /** Letter runs, each ended by 0, compare bytewise. */
  lemma {:induction false} LettersCompareBytewise(x: Bytes, y: Bytes, kx: Key, ky: Key, p: Key, q: Key)
    requires |kx| == |x| && forall i :: 0 <= i < |x| ==> kx[i] == x[i] > 0
    requires |ky| == |y| && forall i :: 0 <= i < |y| ==> ky[i] == y[i] > 0
    ensures PadCmp(kx + [0] + p, ky + [0] + q) == LexCmp(x, y).Then(PadCmp(p, q))
  {
    var u, v := kx + [0] + p, ky + [0] + q;
    assert kx != [] ==> Tail(u) == kx[1..] + [0] + p;
    assert ky != [] ==> Tail(v) == ky[1..] + [0] + q;
    assert kx == [] ==> Tail(u) == p;
    assert ky == [] ==> Tail(v) == q;
    if x != [] && y != [] {
      LettersCompareBytewise(x[1..], y[1..], kx[1..], ky[1..], p, q);
    }
  }

  /** Digit runs of one length compare bytewise as their numbers do. */
  lemma {:induction false} SameLengthNumbers(x: Bytes, y: Bytes)
    requires AllDigits(x) && AllDigits(y)
    requires |x| == |y|
    ensures LexCmp(x, y) == Cmp(Value(x), Value(y))
  {
    if x != [] {
      var n := |x| - 1;
      SameLengthNumbers(x[..n], y[..n]);
      LexLast(x[..n], y[..n], x[n], y[n]);
      assert x == x[..n] + [x[n]] && y == y[..n] + [y[n]];
    }
  }

  lemma {:induction false} LexLast(x: Bytes, y: Bytes, c: Byte, d: Byte)
    requires |x| == |y|
    ensures LexCmp(x + [c], y + [d]) == LexCmp(x, y).Then(Cmp(c, d))
  {
    if x != [] {
      LexLast(x[1..], y[1..], c, d);
      assert (x + [c])[1..] == x[1..] + [c] && (y + [d])[1..] == y[1..] + [d];
    }
  }

  function TrimZeros(d: Bytes): (r: Bytes)
    ensures AllDigits(d) ==> AllDigits(r)
    ensures r == [] || r[0] != 48
    ensures Value(r) == Value(d)
  {
    if d != [] && d[0] == 48 then LeadingZero(d); TrimZeros(d[1..]) else d
  }

  /** Trimmed, the longer run is the larger number; at one length bytes decide. */
  lemma TrimmedNumbers(d: Bytes, e: Bytes)
    requires AllDigits(d) && AllDigits(e)
    ensures Cmp(|TrimZeros(d)|, |TrimZeros(e)|).Then(LexCmp(TrimZeros(d), TrimZeros(e))) == Cmp(Value(d), Value(e))
  {
    var x, y := TrimZeros(d), TrimZeros(e);
    if |x| < |y| {
      LongerIsLarger(x, y);
    } else if |y| < |x| {
      LongerIsLarger(y, x);
    } else {
      SameLengthNumbers(x, y);
    }
  }

  // ---- the loop -----------------------------------------------------------------

  method SkipSeparators(s: Bytes) returns (t: Bytes)
    ensures SortKey(t) == SortKey(s) && |t| <= |s|
    ensures t == [] || !IsSeparator(t[0])
    ensures s == [] || !IsSeparator(s[0]) ==> t == s
  {
    t := s;
    while t != [] && IsSeparator(t[0])
      invariant SortKey(t) == SortKey(s) && |t| <= |s|
      invariant s == [] || !IsSeparator(s[0]) ==> t == s
    {
      t := t[1..];
    }
  }

  /** Two runs of one kind: their own order, then what follows. */
  lemma DigitSegments(one: Bytes, two: Bytes)
    requires Dpkg.StartsWithDigit(one) && Dpkg.StartsWithDigit(two)
    ensures Order(one, two) ==
              Cmp(Dpkg.Number(one), Dpkg.Number(two)).Then(Order(Dpkg.AfterNumber(one), Dpkg.AfterNumber(two)))
  {
    var (x, y) := (SortKey(one), SortKey(two));
    assert Tail(Tail(x)) == SortKey(Dpkg.AfterNumber(one));
    assert Tail(Tail(y)) == SortKey(Dpkg.AfterNumber(two));
    assert PadCmp(x, y) == PadCmp(Tail(x), Tail(y));
  }

  lemma LetterSegments(one: Bytes, two: Bytes)
    requires one != [] && two != [] && IsAlpha(one[0]) && IsAlpha(two[0])
    ensures Order(one, two) ==
            LexCmp(one[..AlphaRun(one)], two[..AlphaRun(two)]).Then(Order(one[AlphaRun(one)..], two[AlphaRun(two)..]))
  {
    hide PadCmp, SortKey, LexCmp;
    var (p, q) := (SortKey(one[AlphaRun(one)..]), SortKey(two[AlphaRun(two)..]));
    var (x, y) := (Letters(one) + [0] + p, Letters(two) + [0] + q);
    LetterKey(one);
    LetterKey(two);
    PadCmpSkips([2], x, y);
    LettersCompareBytewise(one[..AlphaRun(one)], two[..AlphaRun(two)], Letters(one), Letters(two), p, q);
  }

  lemma LetterKey(s: Bytes)
    requires s != [] && IsAlpha(s[0])
    ensures SortKey(s) == [2] + (Letters(s) + [0] + SortKey(s[AlphaRun(s)..]))
  {
  }

  /** How the key of `s` starts once separators are skipped. */
  function First(s: Bytes): int
    requires s == [] || !IsSeparator(s[0])
  {
    if s == [] then 0
    else if s[0] == TILDE then -1
    else if s[0] == CARET then 1
    else if IsDigit(s[0]) then 3
    else 2
  }

  lemma FirstDecides(one: Bytes, two: Bytes)
    requires one == [] || !IsSeparator(one[0])
    requires two == [] || !IsSeparator(two[0])
    ensures First(one) != First(two) ==> Order(one, two) == Cmp(First(one), First(two))
    ensures one == [] && two == [] ==> Order(one, two) == Equal
  {
    assert At(SortKey(one), 0) == First(one);
    assert At(SortKey(two), 0) == First(two);
  }

  lemma SameMark(one: Bytes, two: Bytes)
    requires one != [] && two != [] && one[0] == two[0] && (one[0] == TILDE || one[0] == CARET)
    ensures Order(one, two) == Order(one[1..], two[1..])
  {
    PadCmpSkips(SegmentKey(one), SortKey(one[1..]), SortKey(two[1..]));
  }

  /** The first segments of both: a number beats letters, numbers by value, letters bytewise. */
  method CompareSegments(one: Bytes, two: Bytes) returns (order: Ordering, rest1: Bytes, rest2: Bytes)
    requires one != [] && (IsDigit(one[0]) || IsAlpha(one[0]))
    requires two != [] && (IsDigit(two[0]) || IsAlpha(two[0]))
    ensures order != Equal ==> order == Order(one, two)
    ensures order == Equal ==> Order(rest1, rest2) == Order(one, two) && |rest1| < |one| && |rest2| < |two|
  {
    FirstDecides(one, two);
    if IsDigit(one[0]) {
      if !IsDigit(two[0]) {
        return Greater, one, two;
      }
      DigitSegments(one, two);
      var (m, n) := (DigitRun(one), DigitRun(two));
      var x, y := TrimZeros(one[..m]), TrimZeros(two[..n]);
      TrimmedNumbers(one[..m], two[..n]);
      return Cmp(|x|, |y|).Then(LexCmp(x, y)), one[m..], two[n..];
    } else {
      if !IsAlpha(two[0]) {
        return Less, one, two;
      }
      LetterSegments(one, two);
      var (m, n) := (AlphaRun(one), AlphaRun(two));
      return LexCmp(one[..m], two[..n]), one[m..], two[n..];
    }
  }

  /** `rpmvercmp`: separators skipped, tilde and caret first, then segment by segment. */
  method Rpmvercmp(a: Bytes, b: Bytes) returns (order: Ordering)
    ensures order == Order(a, b)
  {
    if a == b {
      PadCmpFlips(SortKey(a), SortKey(a));
      return Equal;
    }
    var one, two := a, b;
    while one != [] || two != []
      invariant Order(a, b) == Order(one, two)
      decreases |one| + |two|
    {
      ghost var before := |one| + |two|;
      one := SkipSeparators(one);
      two := SkipSeparators(two);
      FirstDecides(one, two);
      var (tilde1, tilde2) := (one != [] && one[0] == TILDE, two != [] && two[0] == TILDE);
      if tilde1 && tilde2 {
        SameMark(one, two);
        one, two := one[1..], two[1..];
        continue;
      } else if tilde1 {
        return Less;
      } else if tilde2 {
        return Greater;
      }
      if (one != [] && one[0] == CARET) || (two != [] && two[0] == CARET) {
        if one == [] {
          return Less;
        }
        if two == [] {
          return Greater;
        }
        if one[0] != CARET {
          return Greater;
        }
        if two[0] != CARET {
          return Less;
        }
        SameMark(one, two);
        one, two := one[1..], two[1..];
        continue;
      }
      if one == [] || two == [] {
        break;
      }
      var segments;
      segments, one, two := CompareSegments(one, two);
      if segments != Equal {
        return segments;
      }
    }
    FirstDecides(one, two);
    return if one == [] && two == [] then Equal else if one == [] then Less else Greater;
  }

  /** The RPM order of versions and of releases is a total preorder on all strings. */
  lemma TotalPreorder(a: Bytes, b: Bytes, c: Bytes)
    ensures Order(a, a) == Equal
    ensures Order(b, a) == Order(a, b).Flip()
    ensures Chain(Order(a, b), Order(b, c), Order(a, c))
  {
    PadCmpFlips(SortKey(a), SortKey(b));
    PadCmpTransitive(SortKey(a), SortKey(b), SortKey(c));
  }

  /** `t` starts a new segment after `s`. */
  predicate Boundary(s: Bytes, t: Bytes) {
    || s == []
    || t == []
    || (!IsDigit(t[0]) && !IsAlpha(t[0]))
    || (!IsDigit(s[|s| - 1]) && !IsAlpha(s[|s| - 1]))
  }

  lemma EmptyKey()
    ensures SortKey([]) == []
  {
  }

  /** After any common start: a tilde sorts before the end, a caret after it. */
  lemma TildeEndCaret(s: Bytes, tilde: Bytes, caret: Bytes)
    requires tilde != [] && tilde[0] == TILDE
    requires caret != [] && caret[0] == CARET
    ensures Order(s + tilde, s) == Less
    ensures Order(s, s + caret) == Less
  {
    hide SortKey, SegmentKey;
    KeySplits(s, tilde);
    KeySplits(s, caret);
    FirstDecides(tilde, []);
    FirstDecides([], caret);
    assert SortKey([]) == [] by { EmptyKey(); }
    assert SortKey(s) + [] == SortKey(s);
    PadCmpSkips(SortKey(s), SortKey(tilde), []);
    PadCmpSkips(SortKey(s), [], SortKey(caret));
  }

  /** At the start of a segment: a caret sorts before letters, letters before digits. */
  lemma CaretLetterDigit(s: Bytes, caret: Bytes, letter: Bytes, digit: Bytes)
    requires caret != [] && caret[0] == CARET
    requires letter != [] && IsAlpha(letter[0]) && Boundary(s, letter)
    requires digit != [] && IsDigit(digit[0]) && Boundary(s, digit)
    ensures Order(s + caret, s + letter) == Less
    ensures Order(s + letter, s + digit) == Less
  {
    hide SortKey, SegmentKey;
    KeySplits(s, caret);
    KeySplits(s, letter);
    KeySplits(s, digit);
    FirstDecides(caret, letter);
    FirstDecides(letter, digit);
    PadCmpSkips(SortKey(s), SortKey(caret), SortKey(letter));
    PadCmpSkips(SortKey(s), SortKey(letter), SortKey(digit));
  }

  lemma {:induction false} KeySplits(s: Bytes, t: Bytes)
    requires Boundary(s, t)
    ensures SortKey(s + t) == SortKey(s) + SortKey(t)
  {
    hide SegmentKey, Used;
    if s == [] {
      assert s + t == t;
    } else {
      var r := s[Used(s)..];
      SegmentStays(s, t);
      assert (s + t)[Used(s)..] == r + t;
      KeySplits(r, t);
      assert SegmentKey(s) + (SortKey(r) + SortKey(t)) == (SegmentKey(s) + SortKey(r)) + SortKey(t);
    }
  }

  lemma SegmentStays(s: Bytes, t: Bytes)
    requires s != [] && Boundary(s, t)
    ensures Used(s + t) == Used(s) && SegmentKey(s + t) == SegmentKey(s)
  {
    if IsDigit(s[0]) {
      Dpkg.RunStays(s, t);
    } else if IsAlpha(s[0]) {
      WholeLetters(s, t);
    }
  }

  lemma {:induction false} WholeLetters(s: Bytes, t: Bytes)
    requires s != [] && Boundary(s, t)
    ensures AlphaRun(s + t) == AlphaRun(s) && Letters(s + t) == Letters(s)
  {
    assert (s + t)[1..] == s[1..] + t;
    if |s| > 1 {
      WholeLetters(s[1..], t);
    } else {
      assert s[1..] + t == t;
    }
  }

  /** After any common start, digit runs compare as numbers whatever their leading zeros. */
  lemma DigitRunsCompareAsNumbers(s: Bytes, x: Bytes, y: Bytes, t: Bytes, u: Bytes)
    requires AllDigits(x) && AllDigits(y) && x != [] && y != []
    requires Boundary(s, x) && Boundary(s, y) && !Dpkg.StartsWithDigit(t) && !Dpkg.StartsWithDigit(u)
    ensures Value(x) < Value(y) ==> Order(s + (x + t), s + (y + u)) == Less
    ensures Value(x) == Value(y) ==> Order(s + (x + t), s + (y + u)) == Order(t, u)
  {
    hide PadCmp, Dpkg.Number;
    KeySplits(s, x + t);
    KeySplits(s, y + u);
    PadCmpSkips(SortKey(s), SortKey(x + t), SortKey(y + u));
    NumberKey(x, t);
    NumberKey(y, u);
    PairsDecide(3, Value(x), Value(y), SortKey(t), SortKey(u));
  }

  lemma NumberKey(x: Bytes, t: Bytes)
    requires x != [] && AllDigits(x) && !Dpkg.StartsWithDigit(t)
    ensures SortKey(x + t) == [3, Value(x)] + SortKey(t)
  {
    Dpkg.WholeRun(x, t);
    assert (x + t)[Used(x + t)..] == t;
  }

  lemma PairsDecide(k: int, m: int, n: int, p: Key, q: Key)
    ensures m < n ==> PadCmp([k, m] + p, [k, n] + q) == Less
    ensures m == n ==> PadCmp([k, m] + p, [k, n] + q) == PadCmp(p, q)
  {
    PadCmpSkips([k], [m] + p, [n] + q);
    assert [k, m] + p == [k] + ([m] + p) && [k, n] + q == [k] + ([n] + q);
    if m == n { PadCmpSkips([m], p, q); }
  }

  /** After any common start, letter runs compare bytewise, a run before its longer ones. */
  lemma LetterRunsCompareBytewise(s: Bytes, x: Bytes, y: Bytes, t: Bytes, u: Bytes)
    requires x != [] && forall i :: 0 <= i < |x| ==> IsAlpha(x[i])
    requires y != [] && forall i :: 0 <= i < |y| ==> IsAlpha(y[i])
    requires Boundary(s, x) && Boundary(s, y) && (t == [] || !IsAlpha(t[0])) && (u == [] || !IsAlpha(u[0]))
    ensures Order(s + (x + t), s + (y + u)) == if x == y then Order(t, u) else LexCmp(x, y)
  {
    hide PadCmp, LexCmp, SortKey, Letters;
    KeySplits(s, x + t);
    KeySplits(s, y + u);
    PadCmpSkips(SortKey(s), SortKey(x + t), SortKey(y + u));
    LettersKey(x, t);
    LettersKey(y, u);
    LettersCompareBytewise(x, y, x, y, SortKey(t), SortKey(u));
    PadCmpSkips([2], x + [0] + SortKey(t), y + [0] + SortKey(u));
    LexTotalOrder(x, y, y);
  }

  lemma {:induction false} RunOfLetters(x: Bytes, t: Bytes)
    requires (forall i :: 0 <= i < |x| ==> IsAlpha(x[i])) && (t == [] || !IsAlpha(t[0]))
    ensures AlphaRun(x + t) == |x|
  {
    if x == [] {
      assert x + t == t;
    } else {
      assert (x + t)[1..] == x[1..] + t;
      RunOfLetters(x[1..], t);
    }
  }

  lemma SegmentOfLetters(x: Bytes, t: Bytes)
    requires x != [] && (forall i :: 0 <= i < |x| ==> IsAlpha(x[i])) && (t == [] || !IsAlpha(t[0]))
    ensures Used(x + t) == |x| && SegmentKey(x + t) == [2] + x + [0]
  {
    hide AlphaRun, SortKey;
    RunOfLetters(x, t);
    assert Letters(x + t) == x;
    assert IsAlpha((x + t)[0]);
  }

  lemma Regroup(x: Key, k: Key)
    ensures [2] + x + [0] + k == [2] + (x + [0] + k)
  {
  }

  lemma LettersKey(x: Bytes, t: Bytes)
    requires x != [] && (forall i :: 0 <= i < |x| ==> IsAlpha(x[i])) && (t == [] || !IsAlpha(t[0]))
    ensures SortKey(x + t) == [2] + (x + [0] + SortKey(t))
  {
    hide SegmentKey, Used;
    SegmentOfLetters(x, t);
    assert (x + t)[|x|..] == t;
    Regroup(x, SortKey(t));
  }

  /** Separators at a boundary do not count. */
  lemma SeparatorsDoNotCount(s: Bytes, c: Byte, t: Bytes, y: Bytes)
    requires IsSeparator(c) && Boundary(s, t)
    ensures Order(s + ([c] + t), y) == Order(s + t, y)
  {
    KeySplits(s, [c] + t);
    KeySplits(s, t);
    assert ([c] + t)[1..] == t;
    assert SortKey([c] + t) == SortKey(t);
  }

  // ---- epoch, version, release --------------------------------------------------

  /** `[E:]V-R`; a missing epoch is 0. */
  function RpmParts(full: Bytes): Dpkg.Version {
    var (epoch, rest) := Dpkg.SplitEpoch(full, U32_MAX);
    var (version, release) := Dpkg.SplitRevision(rest);
    Dpkg.Version(epoch, version, release)
  }

  function EvrOrder(a: Bytes, b: Bytes): Ordering {
    var (x, y) := (RpmParts(a), RpmParts(b));
    Cmp(x.epoch, y.epoch).Then(Order(x.upstream, y.upstream)).Then(Order(x.revision, y.revision))
  }

  method CompareEvr(a: Bytes, b: Bytes) returns (order: Ordering)
    ensures order == EvrOrder(a, b)
  {
    var (x, y) := (RpmParts(a), RpmParts(b));
    var version := Rpmvercmp(x.upstream, y.upstream);
    var release := Rpmvercmp(x.revision, y.revision);
    order := Cmp(x.epoch, y.epoch).Then(version).Then(release);
  }

  lemma EvrTotalPreorder(a: Bytes, b: Bytes, c: Bytes)
    ensures EvrOrder(a, a) == Equal
    ensures EvrOrder(b, a) == EvrOrder(a, b).Flip()
    ensures Chain(EvrOrder(a, b), EvrOrder(b, c), EvrOrder(a, c))
  {
    hide Order, RpmParts;
    var (x, y, z) := (RpmParts(a), RpmParts(b), RpmParts(c));
    TotalPreorder(x.upstream, y.upstream, z.upstream);
    TotalPreorder(x.revision, y.revision, z.revision);
  }

  /** Without epochs the versions decide, and the releases only between equal ones. */
  lemma VersionThenRelease(v: Bytes, r: Bytes, w: Bytes, s: Bytes)
    requires Dpkg.HYPHEN !in r && Dpkg.HYPHEN !in s
    requires Dpkg.NoEpoch(v + [Dpkg.HYPHEN] + r) && Dpkg.NoEpoch(w + [Dpkg.HYPHEN] + s)
    ensures EvrOrder(v + [Dpkg.HYPHEN] + r, w + [Dpkg.HYPHEN] + s) ==
            if Order(v, w) != Equal then Order(v, w) else Order(r, s)
  {
    hide Order, Dpkg.SplitEpoch, Dpkg.SplitRevision;
    Dpkg.NoEpochSplits(v + [Dpkg.HYPHEN] + r, U32_MAX);
    Dpkg.NoEpochSplits(w + [Dpkg.HYPHEN] + s, U32_MAX);
    Dpkg.RevisionSplits(v, r);
    Dpkg.RevisionSplits(w, s);
  }

  /** A smaller epoch decides whatever follows; equal ones, and all that no 32 bits hold, leave it to the rest. */
  lemma EpochsDecide(d: Bytes, x: Bytes, e: Bytes, y: Bytes)
    requires d != [] && e != [] && AllDigits(d) && AllDigits(e)
    ensures Value(d) < Value(e) && Value(d) < U32_MAX ==>
              EvrOrder(d + [Dpkg.COLON] + x, e + [Dpkg.COLON] + y) == Less
    ensures (Value(d) == Value(e) || (Value(d) >= U32_MAX && Value(e) >= U32_MAX))
            && Dpkg.NoEpoch(x) && Dpkg.NoEpoch(y) ==>
              EvrOrder(d + [Dpkg.COLON] + x, e + [Dpkg.COLON] + y) == EvrOrder(x, y)
  {
    hide Order, Dpkg.SplitEpoch, Dpkg.SplitRevision, Dpkg.NoEpoch;
    Dpkg.EpochSplits(d, x, U32_MAX);
    Dpkg.EpochSplits(e, y, U32_MAX);
    if Dpkg.NoEpoch(x) && Dpkg.NoEpoch(y) {
      Dpkg.NoEpochSplits(x, U32_MAX);
      Dpkg.NoEpochSplits(y, U32_MAX);
    }
  }

  /** A version without an epoch orders as with epoch 0, one without a release as with an empty one. */
  lemma MissingParts(x: Bytes, y: Bytes)
    ensures Dpkg.NoEpoch(x) ==> EvrOrder([48] + [Dpkg.COLON] + x, y) == EvrOrder(x, y)
    ensures Dpkg.HYPHEN !in x && Dpkg.NoEpoch(x) ==> EvrOrder(x + [Dpkg.HYPHEN], y) == EvrOrder(x, y)
  {
    hide Order, Dpkg.SplitEpoch, Dpkg.SplitRevision, Dpkg.NoEpoch;
    if Dpkg.NoEpoch(x) {
      Dpkg.NoEpochSplits(x, U32_MAX);
      Dpkg.EpochSplits([48], x, U32_MAX);
      assert Value([48]) == 0 by { assert [48][..0] == []; }
      if Dpkg.HYPHEN !in x {
        Dpkg.RevisionSplits(x, []);
        Dpkg.RevisionSplits([], x);
        assert x + [Dpkg.HYPHEN] + [] == x + [Dpkg.HYPHEN];
        Dpkg.HyphenIsNoColon(x);
        Dpkg.NoEpochSplits(x + [Dpkg.HYPHEN], U32_MAX);
      }
    }
  }
}
