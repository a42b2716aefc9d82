/**
 Three-way comparison, and the order every version comparison of the
 platform turns out to be: lexicographic comparison of integer keys that are
 padded with zeros for ever.
 */
module Orders {
  import opened Basics

  datatype Ordering = Less | Equal | Greater {

    function Flip(): Ordering {
      match this
      case Less => Greater
      case Equal => Equal
      case Greater => Less
    }

    /** Rust's `then_with`: the next comparison decides a tie. */
    function Then(next: Ordering): Ordering {
      if this == Equal then next else this
    }
  }

  function Cmp(x: int, y: int): Ordering {
    if x < y then Less else if x == y then Equal else Greater
  }

  /** What transitivity says of the three comparisons of `a`, `b` and `c`. */
  predicate Chain(ab: Ordering, bc: Ordering, ac: Ordering) {
    ab != Greater && bc != Greater ==> ac == ab.Then(bc)
  }

  /** One total order after another is one again: ties, direction and transitivity carry over. */
  lemma ThenIsTotal(ab: Ordering, bc: Ordering, ac: Ordering, ab': Ordering, bc': Ordering, ac': Ordering)
    requires Chain(ab, bc, ac) && Chain(ab', bc', ac')
    ensures Chain(ab.Then(ab'), bc.Then(bc'), ac.Then(ac'))
    ensures ab.Then(ab') == Equal <==> ab == Equal && ab' == Equal
    ensures ab.Flip().Then(ab'.Flip()) == ab.Then(ab').Flip()
  {
  }

  type Key = seq<int>

  /** The `i`th element of the key followed by zeros for ever. */
  function At(k: Key, i: nat): int {
    if i < |k| then k[i] else 0
  }

  function Tail(k: Key): Key {
    if k == [] then [] else k[1..]
  }

  /** Lexicographic comparison of zero-padded keys. */
  function PadCmp(x: Key, y: Key): Ordering
    decreases |x| + |y|
  {
    if x == [] && y == [] then Equal
    else Cmp(At(x, 0), At(y, 0)).Then(PadCmp(Tail(x), Tail(y)))
  }

  /** `x` and `y` agree on their first `n` padded elements. */
  ghost predicate Agree(x: Key, y: Key, n: nat) {
    forall i: nat :: i < n ==> At(x, i) == At(y, i)
  }

  /** The first place where two padded keys differ decides their order. */
  lemma {:induction false} FirstDifferenceDecides(x: Key, y: Key, n: nat)
    requires Agree(x, y, n)
    ensures At(x, n) != At(y, n) ==> PadCmp(x, y) == Cmp(At(x, n), At(y, n))
    ensures (forall i: nat :: At(x, i) == At(y, i)) ==> PadCmp(x, y) == Equal
    decreases |x| + |y|
  {
    if x != [] || y != [] {
      assert At(x, 0) == At(y, 0) || n == 0;
      forall i: nat ensures At(Tail(x), i) == At(x, i + 1) && At(Tail(y), i) == At(y, i + 1) { }
      assert Agree(Tail(x), Tail(y), if n == 0 then 0 else n - 1);
      FirstDifferenceDecides(Tail(x), Tail(y), if n == 0 then 0 else n - 1);
    }
  }

  lemma {:induction false} EqualKeysAgree(x: Key, y: Key, i: nat)
    requires PadCmp(x, y) == Equal
    ensures At(x, i) == At(y, i)
    decreases i
  {
    if (x != [] || y != []) && i > 0 {
      EqualKeysAgree(Tail(x), Tail(y), i - 1);
    }
  }

  lemma {:induction false} PadCmpFlips(x: Key, y: Key)
    ensures PadCmp(y, x) == PadCmp(x, y).Flip()
    ensures PadCmp(x, x) == Equal
    decreases |x| + |y|
  {
    if x != [] || y != [] {
      PadCmpFlips(Tail(x), Tail(y));
      if x != [] { PadCmpFlips(x[1..], []); }
    }
  }

  /** Padded comparison is transitive, and equal keys stand in for each other. */
  lemma {:induction false} PadCmpTransitive(x: Key, y: Key, z: Key)
    ensures Chain(PadCmp(x, y), PadCmp(y, z), PadCmp(x, z))
    decreases |x| + |y| + |z|
  {
    if x != [] || y != [] || z != [] {
      if At(x, 0) == At(y, 0) && At(y, 0) == At(z, 0) {
        PadCmpTransitive(Tail(x), Tail(y), Tail(z));
      }
    }
  }

  /** A common prefix does not matter. */
  lemma {:induction false} PadCmpSkips(p: Key, x: Key, y: Key)
    ensures PadCmp(p + x, p + y) == PadCmp(x, y)
  {
    if p == [] {
      assert p + x == x && p + y == y;
    } else {
      PadCmpSkips(p[1..], x, y);
      assert (p + x)[1..] == p[1..] + x && (p + y)[1..] == p[1..] + y;
    }
  }

  // ---- byte strings, as Rust orders them --------------------------------------

  function LexCmp(x: Bytes, y: Bytes): Ordering {
    if x == [] && y == [] then Equal
    else if x == [] then Less
    else if y == [] then Greater
    else Cmp(x[0], y[0]).Then(LexCmp(x[1..], y[1..]))
  }

  lemma {:induction false} LexTotalOrder(x: Bytes, y: Bytes, z: Bytes)
    ensures LexCmp(x, y) == Equal <==> x == y
    ensures LexCmp(y, x) == LexCmp(x, y).Flip()
    ensures Chain(LexCmp(x, y), LexCmp(y, z), LexCmp(x, z))
  {
    if x != [] && y != [] {
      assert x == [x[0]] + x[1..] && y == [y[0]] + y[1..];
      LexTotalOrder(x[1..], y[1..], Tail(z));
    }
  }

  /** The first byte that differs decides, and a string comes before its continuations. */
  lemma {:induction false} LexDecides(p: Bytes, a: Byte, x: Bytes, b: Byte, y: Bytes)
    ensures a < b ==> LexCmp(p + ([a] + x), p + ([b] + y)) == Less
    ensures LexCmp(p, p + ([a] + x)) == Less
  {
    if p != [] {
      assert (p + ([a] + x))[1..] == p[1..] + ([a] + x) && (p + ([b] + y))[1..] == p[1..] + ([b] + y);
      LexDecides(p[1..], a, x, b, y);
    } else {
      assert p + ([a] + x) == [a] + x && p + ([b] + y) == [b] + y;
    }
  }

  // ---- decimal digits -------------------------------------------------------

  predicate AllDigits(s: Bytes) {
    forall i :: 0 <= i < |s| ==> IsDigit(s[i])
  }

  /** The number a run of digits writes. */
  function Value(d: Bytes): int {
    if d == [] then 0 else 10 * Value(d[..|d| - 1]) + (d[|d| - 1] as int - 48)
  }

  function Pow10(n: nat): nat {
    if n == 0 then 1 else 10 * Pow10(n - 1)
  }

  /** How many digits `s` starts with. */
  function DigitRun(s: Bytes): (n: nat)
    ensures n <= |s|
    ensures forall i :: 0 <= i < n ==> IsDigit(s[i])
    ensures n < |s| ==> !IsDigit(s[n])
  {
    if s == [] || !IsDigit(s[0]) then 0 else 1 + DigitRun(s[1..])
  }

  lemma {:induction false} ValueBounds(d: Bytes)
    requires AllDigits(d)
    ensures 0 <= Value(d) < Pow10(|d|)
    ensures d != [] && d[0] != 48 ==> Pow10(|d| - 1) <= Value(d)
  {
    if d != [] {
      ValueBounds(d[..|d| - 1]);
    }
  }

  lemma {:induction false} Pow10Grows(m: nat, n: nat)
    requires m <= n
    ensures Pow10(m) <= Pow10(n)
  {
    if m < n { Pow10Grows(m, n - 1); }
  }

  /** Without leading zeros, more digits write a larger number. */
  lemma LongerIsLarger(x: Bytes, y: Bytes)
    requires AllDigits(x) && AllDigits(y)
    requires |x| < |y| && y[0] != 48
    ensures Value(x) < Value(y)
  {
    ValueBounds(x);
    ValueBounds(y);
    Pow10Grows(|x|, |y| - 1);
  }

  /** A leading zero does not change the number. */
  lemma {:induction false} LeadingZero(d: Bytes)
    requires d != [] && d[0] == 48
    ensures Value(d) == Value(d[1..])
  {
    if |d| > 1 {
      LeadingZero(d[..|d| - 1]);
      assert d[..|d| - 1][1..] == d[1..][..|d| - 2];
      assert d[1..][|d| - 2] == d[|d| - 1];
    }
  }
}
