/**
 The filter a web search query passes before anything is sent (`openvibes-fetch/src/filter.rs`):
 whole words from a deny list, and addresses in any surroundings.
 */
module QueryFilter {
  import opened Basics

  // ---- characters and places ---------------------------------------------------------------

  predicate Digit(c: char) {
    '0' <= c <= '9'
  }

  predicate Letter(c: char) {
    'a' <= c <= 'z' || 'A' <= c <= 'Z'
  }

  predicate WordChar(c: char) {
    Digit(c) || Letter(c)
  }

  predicate HexDigit(c: char) {
    Digit(c) || 'a' <= c <= 'f' || 'A' <= c <= 'F'
  }

  predicate OccursAt(q: string, term: string, i: nat) {
    i + |term| <= |q| && q[i..i + |term|] == term
  }

  /** `term` occurs at `i` and is not part of a longer word. */
  predicate WordAt(q: string, term: string, i: nat) {
    OccursAt(q, term, i) && (i > 0 ==> !WordChar(q[i - 1])) && (i + |term| < |q| ==> !WordChar(q[i + |term|]))
  }

  /** Where `term` next occurs from `from` on. */
  function Find(q: string, term: string, from: nat): (r: Option<nat>)
    ensures r.Some? ==> from <= r.value && OccursAt(q, term, r.value)
    ensures forall i: nat :: from <= i && (r.Some? ==> i < r.value) ==> !OccursAt(q, term, i)
    decreases |q| - from
  {
    if from + |term| > |q| then None else if OccursAt(q, term, from) then Some(from) else Find(q, term, from + 1)
  }

  ghost predicate Mentions(q: string, term: string) {
    term != [] && exists i: nat :: WordAt(q, term, i)
  }

  /** Looks at every occurrence, overlapping ones too. */
  method HasWord(q: string, term: string) returns (found: bool)
    ensures found <==> Mentions(q, term)
  {
    hide Find;
    if term == [] {
      return false;
    }
    var from := 0;
    while true
      invariant 0 <= from <= |q| && forall i: nat :: i < from ==> !WordAt(q, term, i)
      decreases |q| - from
    {
      var at := Find(q, term, from);
      if at.None? {
        return false;
      }
      if WordAt(q, term, at.value) {
        return true;
      }
      from := at.value + 1;
    }
  }

  // ---- runs ---------------------------------------------------------------------------------

  datatype Run = Run(start: nat, text: string)

  /** A stretch of characters satisfying `f` that cannot be made longer. */
  predicate IsRun(q: string, f: char -> bool, r: Run) {
    var end := r.start + |r.text|;
    && r.text != [] && end <= |q| && q[r.start..end] == r.text && (forall i :: r.start <= i < end ==> f(q[i]))
    && (r.start > 0 ==> !f(q[r.start - 1])) && (end < |q| ==> !f(q[end]))
  }

  lemma RunsDoNotOverlap(q: string, f: char -> bool, r: Run, s: Run, i: nat)
    requires IsRun(q, f, r) && IsRun(q, f, s)
    requires r.start <= i < r.start + |r.text| && s.start <= i < s.start + |s.text|
    ensures r == s
  {
    var a, b := r.start + |r.text|, s.start + |s.text|;
    assert r.start == s.start;
    assert a == b;
  }

  /** All maximal runs, in order, and nothing else. */
  method Runs(q: string, f: char -> bool) returns (out: seq<Run>)
    ensures forall r :: r in out <==> IsRun(q, f, r)
    ensures forall i, j :: 0 <= i < j < |out| ==> out[i].start < out[j].start
  {
    hide IsRun;
    out := [];
    var start: Option<nat> := None;
    NoRunEndsAtStart(q, f);
    for i := 0 to |q|
      invariant start.None? ==> i == 0 || !f(q[i - 1])
      invariant start.Some? ==>
                  start.value < i && (start.value > 0 ==> !f(q[start.value - 1]))
                  && forall k :: start.value <= k < i ==> f(q[k])
      invariant forall r :: r in out <==> IsRun(q, f, r) && r.start + |r.text| <= (if start.Some? then start.value
                else i)
      invariant forall j, k :: 0 <= j < k < |out| ==> out[j].start < out[k].start
    {
      if f(q[i]) && start.None? {
        start := Some(i);
      } else if !f(q[i]) && start.Some? {
        var r := Run(start.value, q[start.value..i]);
        RunEndsHere(q, f, start.value, i);
        NoRunEndsAfter(q, f, i);
        StartsInOrder(q, f, out, start.value);
        out := out + [r];
        start := None;
      } else if !f(q[i]) {
        NoRunEndsAfter(q, f, i);
      }
    }
    if start.Some? {
      RunEndsHere(q, f, start.value, |q|);
      StartsInOrder(q, f, out, start.value);
      assert q[start.value..] == q[start.value..|q|];
      out := out + [Run(start.value, q[start.value..])];
    }
    RunsEndInside(q, f);
  }

  lemma NoRunEndsAtStart(q: string, f: char -> bool)
    ensures forall r :: IsRun(q, f, r) ==> r.start + |r.text| > 0
  {
  }

  lemma RunsEndInside(q: string, f: char -> bool)
    ensures forall r :: IsRun(q, f, r) ==> r.start + |r.text| <= |q|
  {
  }

  lemma StartsInOrder(q: string, f: char -> bool, out: seq<Run>, start: nat)
    requires forall r :: r in out ==> IsRun(q, f, r) && r.start + |r.text| <= start
    ensures forall j :: 0 <= j < |out| ==> out[j].start < start
  {
    forall j | 0 <= j < |out| ensures out[j].start < start { assert out[j] in out; }
  }

  /** Characters from `start` to `i` that cannot be extended are a run, and no other run ends there. */
  lemma RunEndsHere(q: string, f: char -> bool, start: nat, i: nat)
    requires start < i <= |q| && (forall k :: start <= k < i ==> f(q[k]))
    requires (start > 0 ==> !f(q[start - 1])) && (i < |q| ==> !f(q[i]))
    ensures IsRun(q, f, Run(start, q[start..i]))
    ensures forall r :: IsRun(q, f, r) && start < r.start + |r.text| <= i ==> r == Run(start, q[start..i])
  {
    forall r | IsRun(q, f, r) && start < r.start + |r.text| <= i ensures r == Run(start, q[start..i]) {
      var end := r.start + |r.text|;
      RunsDoNotOverlap(q, f, r, Run(start, q[start..i]), end - 1);
    }
  }

  lemma NoRunEndsAfter(q: string, f: char -> bool, i: nat)
    requires i < |q| && !f(q[i])
    ensures forall r :: IsRun(q, f, r) ==> r.start + |r.text| != i + 1
  {
    forall r | IsRun(q, f, r) ensures r.start + |r.text| != i + 1 {
      var end := r.start + |r.text|;
      assert f(q[end - 1]);
    }
  }

  // ---- groups in a run ------------------------------------------------------------------------

  function Index(s: string, c: char): (i: nat)
    ensures i <= |s| && (i < |s| ==> s[i] == c) && forall k :: 0 <= k < i ==> s[k] != c
  {
    if s == [] || s[0] == c then 0 else Index(s[1..], c) + 1
  }

  function Split(s: string, sep: char): (parts: seq<string>)
    ensures parts != []
  {
    var j := Index(s, sep);
    if j == |s| then [s] else [s[..j]] + Split(s[j + 1..], sep)
  }

  /** Some `n` parts in a row all satisfy `p`. */
  predicate Windows(parts: seq<string>, p: string -> bool, n: nat) {
    exists k: nat :: k + n <= |parts| && WindowAt(parts, p, n, k)
  }

  predicate WindowAt(parts: seq<string>, p: string -> bool, n: nat, k: nat)
    requires k + n <= |parts|
  {
    forall j :: k <= j < k + n ==> p(parts[j])
  }

  /** Where the first part of `s` ends: at a separator or outside the run. */
  function PartEnd(s: string, f: char -> bool, sep: char): (i: nat)
    ensures i <= |s| && (i < |s| ==> s[i] == sep || !f(s[i])) && forall k :: 0 <= k < i ==> s[k] != sep && f(s[k])
  {
    if s == [] || s[0] == sep || !f(s[0]) then 0 else PartEnd(s[1..], f, sep) + 1
  }

  /** `s` starts with `n` parts that satisfy `p`, joined by separators. */
  predicate Groups(s: string, f: char -> bool, sep: char, p: string -> bool, n: nat)
    decreases n
  {
    n == 0 ||
    var j := PartEnd(s, f, sep);
    p(s[..j]) && (n == 1 || (j < |s| && s[j] == sep && Groups(s[j + 1..], f, sep, p, n - 1)))
  }

  /** Such parts stand in `q` at `i`, and nothing of the run is glued to them. */
  predicate GroupsAt(q: string, f: char -> bool, sep: char, p: string -> bool, n: nat, i: nat) {
    i <= |q| && (i > 0 ==> q[i - 1] == sep || !f(q[i - 1])) && Groups(q[i..], f, sep, p, n)
  }

  lemma PartEndIs(s: string, f: char -> bool, sep: char, i: nat)
    requires i <= |s| && (i < |s| ==> s[i] == sep || !f(s[i])) && forall k :: 0 <= k < i ==> s[k] != sep && f(s[k])
    ensures PartEnd(s, f, sep) == i
  {
    hide PartEnd;
    assert PartEnd(s, f, sep) < |s| ==> s[PartEnd(s, f, sep)] == sep || !f(s[PartEnd(s, f, sep)]);
  }

  lemma {:induction false} FirstParts(s: string, f: char -> bool, sep: char, p: string -> bool, n: nat)
    requires forall i :: 0 <= i < |s| ==> f(s[i])
    ensures n <= |Split(s, sep)| && WindowAt(Split(s, sep), p, n, 0) <==> Groups(s, f, sep, p, n)
    decreases n
  {
    hide PartEnd, Index;
    if n > 0 {
      var j, parts := Index(s, sep), Split(s, sep);
      PartEndIs(s, f, sep, j);
      if j == |s| {
        assert s[..j] == s;
        assert parts == [s] && parts[0] == s;
        assert WindowAt(parts, p, 1, 0) <==> p(s);
      } else {
        var rest := Split(s[j + 1..], sep);
        FirstParts(s[j + 1..], f, sep, p, n - 1);
        ShiftWindow(s[..j], rest, p, n - 1);
      }
    }
  }

  lemma ShiftWindow(part: string, rest: seq<string>, p: string -> bool, n: nat)
    ensures n <= |rest| ==> (WindowAt([part] + rest, p, n + 1, 0) <==> p(part) && WindowAt(rest, p, n, 0))
  {
    var parts := [part] + rest;
    assert parts[0] == part && forall j :: 0 < j < |parts| ==> parts[j] == rest[j - 1];
    if n <= |rest| && WindowAt(parts, p, n + 1, 0) {
      forall j | 0 <= j < n ensures p(rest[j]) { assert parts[j + 1] == rest[j]; }
    }
  }

  lemma TailWindow(part: string, rest: seq<string>, p: string -> bool, n: nat, k: nat)
    requires k + n <= |rest|
    ensures WindowAt([part] + rest, p, n, k + 1) <==> WindowAt(rest, p, n, k)
  {
    var parts := [part] + rest;
    assert forall j :: 0 < j < |parts| ==> parts[j] == rest[j - 1];
    if WindowAt(parts, p, n, k + 1) {
      forall j | k <= j < k + n ensures p(rest[j]) { assert parts[j + 1] == rest[j]; }
    }
  }

  /** Parts that satisfy `p` follow one another in the split of a run exactly when they stand in it. */
  lemma {:induction false} WindowsAreGroups(s: string, f: char -> bool, sep: char, p: string -> bool, n: nat)
    requires forall i :: 0 <= i < |s| ==> f(s[i])
    ensures Windows(Split(s, sep), p, n) <==> exists i: nat :: GroupsAt(s, f, sep, p, n, i)
    decreases |s|
  {
    hide WindowAt, Groups;
    FirstParts(s, f, sep, p, n);
    assert s[0..] == s;
    var j, parts := Index(s, sep), Split(s, sep);
    if GroupsAt(s, f, sep, p, n, 0) {
      assert Windows(parts, p, n);
    } else if j == |s| {
      OnePart(s, f, sep, p, n);
    } else {
      var tail := s[j + 1..];
      WindowsAreGroups(tail, f, sep, p, n);
      WindowsInTail(s[..j], Split(tail, sep), p, n);
      GroupsInTail(s, tail, f, sep, p, n, j);
    }
  }

  lemma OnePart(s: string, f: char -> bool, sep: char, p: string -> bool, n: nat)
    requires Index(s, sep) == |s| && !GroupsAt(s, f, sep, p, n, 0) && forall i :: 0 <= i < |s| ==> f(s[i])
    ensures !Windows(Split(s, sep), p, n) && forall i: nat :: !GroupsAt(s, f, sep, p, n, i)
  {
    FirstParts(s, f, sep, p, n);
    assert s[0..] == s;
  }

  lemma WindowsInTail(part: string, rest: seq<string>, p: string -> bool, n: nat)
    requires n <= |rest| + 1 ==> !WindowAt([part] + rest, p, n, 0)
    ensures Windows([part] + rest, p, n) <==> Windows(rest, p, n)
  {
    hide WindowAt;
    var parts := [part] + rest;
    if Windows(parts, p, n) {
      var k: nat :| k + n <= |parts| && WindowAt(parts, p, n, k);
      TailWindow(part, rest, p, n, k - 1);
    }
    if Windows(rest, p, n) {
      var k: nat :| k + n <= |rest| && WindowAt(rest, p, n, k);
      TailWindow(part, rest, p, n, k);
    }
  }

  lemma GroupsInTail(s: string, tail: string, f: char -> bool, sep: char, p: string -> bool, n: nat, j: nat)
    requires j == Index(s, sep) < |s| && !GroupsAt(s, f, sep, p, n, 0) && forall i :: 0 <= i < |s| ==> f(s[i])
    requires tail == s[j + 1..]
    ensures (exists i: nat :: GroupsAt(s, f, sep, p, n, i)) <==> exists i: nat :: GroupsAt(tail, f, sep, p, n, i)
  {
    hide Groups, Index;
    assert s[j] == sep;
    if i: nat :| GroupsAt(s, f, sep, p, n, i) {
      assert i > j;
      assert tail[i - j - 1..] == s[i..];
      assert GroupsAt(tail, f, sep, p, n, i - j - 1);
    }
    if i: nat :| GroupsAt(tail, f, sep, p, n, i) {
      assert tail[i..] == s[i + j + 1..];
      assert i > 0 ==> tail[i - 1] == s[i + j];
      assert GroupsAt(s, f, sep, p, n, i + j + 1);
    }
  }

  /** What lies past the end of a run does not change which groups start in it. */
  lemma {:induction false} GroupsEndWithRun(s: string, m: nat, f: char -> bool, sep: char, p: string -> bool, n: nat)
    requires m <= |s| && (forall i :: 0 <= i < m ==> f(s[i])) && (m < |s| ==> !f(s[m]) && s[m] != sep)
    ensures Groups(s, f, sep, p, n) <==> Groups(s[..m], f, sep, p, n)
    decreases n
  {
    hide PartEnd;
    if n > 0 {
      var j := PartEnd(s[..m], f, sep);
      PartEndIs(s, f, sep, j);
      assert s[..m][..j] == s[..j];
      if j < m {
        assert s[..m][j + 1..] == s[j + 1..][..m - j - 1];
        GroupsEndWithRun(s[j + 1..], m - j - 1, f, sep, p, n - 1);
      }
    }
  }

  /** Some maximal run, split at the separator, has `n` parts in a row that satisfy `p`. */
  ghost predicate RunHas(q: string, f: char -> bool, sep: char, p: string -> bool, n: nat) {
    exists r :: IsRun(q, f, r) && Windows(Split(r.text, sep), p, n)
  }

  /** Groups are found in the runs exactly when they stand somewhere with nothing of a run glued to them. */
  lemma RunsHaveGroups(q: string, f: char -> bool, sep: char, p: string -> bool, n: nat)
    requires n > 0 && f(sep) && !p([])
    ensures RunHas(q, f, sep, p, n) <==> exists i: nat :: GroupsAt(q, f, sep, p, n, i)
  {
    hide IsRun, GroupsAt, Windows;
    if RunHas(q, f, sep, p, n) {
      var r :| IsRun(q, f, r) && Windows(Split(r.text, sep), p, n);
      var i := GroupOfRun(q, f, sep, p, n, r);
    }
    if i: nat :| GroupsAt(q, f, sep, p, n, i) {
      var r := RunOfGroup(q, f, sep, p, n, i);
    }
  }

  lemma RunText(q: string, f: char -> bool, r: Run)
    requires IsRun(q, f, r)
    ensures forall k :: 0 <= k < |r.text| ==> f(r.text[k])
  {
    assert forall k :: 0 <= k < |r.text| ==> r.text[k] == q[r.start + k];
  }

  lemma GroupsInside(q: string, f: char -> bool, sep: char, p: string -> bool, n: nat, i: nat)
    requires GroupsAt(q, f, sep, p, n, i)
    ensures i <= |q|
  {
  }

  lemma GroupOfRun(q: string, f: char -> bool, sep: char, p: string -> bool, n: nat, r: Run) returns (i: nat)
    requires f(sep) && IsRun(q, f, r) && Windows(Split(r.text, sep), p, n)
    ensures GroupsAt(q, f, sep, p, n, i)
  {
    hide GroupsAt, Windows, Split, IsRun;
    RunText(q, f, r);
    WindowsAreGroups(r.text, f, sep, p, n);
    var k: nat :| GroupsAt(r.text, f, sep, p, n, k);
    assert k <= |r.text| by { GroupsInside(r.text, f, sep, p, n, k); }
    InRun(q, f, sep, p, n, r, k);
    i := r.start + k;
  }

  lemma RunOfGroup(q: string, f: char -> bool, sep: char, p: string -> bool, n: nat, i: nat) returns (r: Run)
    requires n > 0 && f(sep) && !p([]) && GroupsAt(q, f, sep, p, n, i)
    ensures IsRun(q, f, r) && Windows(Split(r.text, sep), p, n)
  {
    hide GroupsAt, Windows, Split, IsRun;
    GroupStarts(q, f, sep, p, n, i);
    r := RunAround(q, f, i);
    RunText(q, f, r);
    InRun(q, f, sep, p, n, r, i - r.start);
    WindowsAreGroups(r.text, f, sep, p, n);
  }

  lemma InRun(q: string, f: char -> bool, sep: char, p: string -> bool, n: nat, r: Run, i: nat)
    requires IsRun(q, f, r) && i <= |r.text| && f(sep)
    ensures GroupsAt(r.text, f, sep, p, n, i) <==> GroupsAt(q, f, sep, p, n, r.start + i)
  {
    hide Groups;
    var m := |r.text| - i;
    assert q[r.start + i..][..m] == r.text[i..];
    assert i > 0 ==> r.text[i - 1] == q[r.start + i - 1] && f(r.text[i - 1]);
    GroupsEndWithRun(q[r.start + i..], m, f, sep, p, n);
  }

  lemma GroupStarts(q: string, f: char -> bool, sep: char, p: string -> bool, n: nat, i: nat)
    requires GroupsAt(q, f, sep, p, n, i) && n > 0 && !p([])
    ensures i < |q| && f(q[i])
  {
    var s := q[i..];
    assert s[..0] == [];
    assert s != [] ==> s[0] == q[i];
  }

  /** Every character of the kind lies in a maximal run. */
  lemma RunAround(q: string, f: char -> bool, i: nat) returns (r: Run)
    requires i < |q| && f(q[i])
    ensures IsRun(q, f, r) && r.start <= i < r.start + |r.text|
  {
    var a, b := i, i + 1;
    while a > 0 && f(q[a - 1])
      invariant 0 <= a <= i && forall k :: a <= k <= i ==> f(q[k])
    {
      a := a - 1;
    }
    while b < |q| && f(q[b])
      invariant i < b <= |q| && forall k :: a <= k < b ==> f(q[k])
    {
      b := b + 1;
    }
    r := Run(a, q[a..b]);
  }

  // ---- addresses ------------------------------------------------------------------------------

  predicate DigitOrDot(c: char) {
    Digit(c) || c == '.'
  }

  predicate Digits(s: string) {
    forall i :: 0 <= i < |s| ==> Digit(s[i])
  }

  function Number(s: string): int {
    if s == [] then 0 else 10 * Number(s[..|s| - 1]) + (s[|s| - 1] as int - '0' as int)
  }

  /** One to three digits, at most 255. */
  predicate Octet(p: string) {
    1 <= |p| <= 3 && Digits(p) && Number(p) <= 255
  }

  predicate HexGroup(p: string, n: nat) {
    |p| == n && forall i :: 0 <= i < n ==> HexDigit(p[i])
  }

  predicate Hex2(p: string) {
    HexGroup(p, 2)
  }

  predicate Hex4(p: string) {
    HexGroup(p, 4)
  }

  predicate MacChar(c: char) {
    HexDigit(c) || c == ':' || c == '.' || c == '-'
  }

  /** Four octets joined by dots, no digit before or after. */
  ghost predicate HasIpv4(q: string) {
    exists i: nat :: GroupsAt(q, DigitOrDot, '.', Octet, 4, i)
  }

  ghost predicate HasGroups(q: string, sep: char, p: string -> bool, n: nat) {
    exists i: nat :: GroupsAt(q, MacChar, sep, p, n, i)
  }

  ghost predicate HasMac(q: string) {
    HasGroups(q, ':', Hex2, 6) || HasGroups(q, '-', Hex2, 6) || HasGroups(q, '.', Hex4, 3)
  }

  method FindIpv4(n: string) returns (found: bool)
    ensures found <==> HasIpv4(n)
  {
    hide IsRun, Windows, GroupsAt, Octet;
    RunsHaveGroups(n, DigitOrDot, '.', Octet, 4) by { NotEmpty(); }
    var runs := Runs(n, DigitOrDot);
    for i := 0 to |runs|
      invariant forall j :: 0 <= j < i ==> !Windows(Split(runs[j].text, '.'), Octet, 4)
    {
      if Windows(Split(runs[i].text, '.'), Octet, 4) {
        assert IsRun(n, DigitOrDot, runs[i]);
        return true;
      }
    }
    return false;
  }

  lemma NotEmpty()
    ensures !Octet([]) && !Hex2([]) && !Hex4([])
  {
  }

  predicate IsMac(run: string) {
    Windows(Split(run, ':'), Hex2, 6) || Windows(Split(run, '-'), Hex2, 6) || Windows(Split(run, '.'), Hex4, 3)
  }

  method FindMac(n: string) returns (found: bool)
    ensures found <==> HasMac(n)
  {
    hide IsRun, Windows, GroupsAt, Hex2, Hex4;
    NotEmpty();
    RunsHaveGroups(n, MacChar, ':', Hex2, 6);
    RunsHaveGroups(n, MacChar, '-', Hex2, 6);
    RunsHaveGroups(n, MacChar, '.', Hex4, 3);
    var runs := Runs(n, MacChar);
    for i := 0 to |runs|
      invariant forall j :: 0 <= j < i ==> !IsMac(runs[j].text)
    {
      if IsMac(runs[i].text) {
        assert IsRun(n, MacChar, runs[i]);
        return true;
      }
    }
    return false;
  }

  // ---- dots written otherwise --------------------------------------------------------------------

  /** Every `pat`, from the left, becomes a dot. */
  function Replace(s: string, pat: string): string
    requires pat != []
  {
    if s == [] then [] else if pat <= s then "." + Replace(s[|pat|..], pat) else [s[0]] + Replace(s[1..], pat)
  }

  function Normalise(q: string): string {
    Replace(Replace(Replace(q, "[.]"), "(.)"), "[dot]")
  }

  lemma PrefixStops(x: string, c: char, y: string, pat: string)
    requires c !in pat && pat != []
    ensures pat <= x + [c] + y <==> pat <= x
  {
    var s := x + [c] + y;
    assert s[|x|] == c;
    assert pat <= s ==> forall i :: 0 <= i < |pat| ==> pat[i] == s[i];
    assert pat <= x ==> forall i :: 0 <= i < |pat| ==> pat[i] == x[i];
  }

  lemma ReplaceStep(s: string, pat: string)
    requires s != [] && pat != []
    ensures Replace(s, pat) == if pat <= s then "." + Replace(s[|pat|..], pat) else [s[0]] + Replace(s[1..], pat)
  {
  }

  lemma ReplaceNothing(pat: string)
    requires pat != []
    ensures Replace([], pat) == []
  {
  }

  lemma DropsFront(x: string, c: char, y: string, k: nat)
    requires 0 < k <= |x|
    ensures (x + [c] + y)[k..] == x[k..] + [c] + y && (x + [c] + y)[0] == x[0]
  {
  }

  lemma Regroups(head: string, x: string, c: char, y: string)
    ensures head + (x + [c] + y) == (head + x) + [c] + y
  {
  }

  /** A character that is not in the pattern keeps what is left and right of it apart. */
  lemma {:induction false} ReplaceSplits(x: string, c: char, y: string, pat: string)
    requires c !in pat && pat != []
    ensures Replace(x + [c] + y, pat) == Replace(x, pat) + [c] + Replace(y, pat)
    decreases |x|
  {
    hide Replace;
    var s := x + [c] + y;
    PrefixStops(x, c, y, pat);
    ReplaceStep(s, pat);
    if x == [] {
      ReplaceNothing(pat);
      assert s[0] == c && s[1..] == y;
      assert [] + [c] + Replace(y, pat) == [c] + Replace(y, pat);
    } else {
      ReplaceStep(x, pat);
      var k := if pat <= x then |pat| else 1;
      DropsFront(x, c, y, k);
      ReplaceSplits(x[k..], c, y, pat);
      Regroups(if pat <= x then "." else [x[0]], Replace(x[k..], pat), c, Replace(y, pat));
    }
  }

  lemma NormaliseSplits(x: string, c: char, y: string)
    requires Digit(c)
    ensures Normalise(x + [c] + y) == Normalise(x) + [c] + Normalise(y)
  {
    hide Replace;
    ReplaceSplits(x, c, y, "[.]");
    var x1, y1 := Replace(x, "[.]"), Replace(y, "[.]");
    ReplaceSplits(x1, c, y1, "(.)");
    ReplaceSplits(Replace(x1, "(.)"), c, Replace(y1, "(.)"), "[dot]");
  }

  lemma {:induction false} NormaliseKeepsDigits(x: string, d: string, y: string)
    requires Digits(d)
    ensures d != [] ==> Normalise(x + d + y) == Normalise(x) + d + Normalise(y)
    decreases |d|
  {
    hide Normalise;
    if |d| == 1 {
      assert d == [d[0]];
      NormaliseSplits(x, d[0], y);
    } else if |d| > 1 {
      var c, rest := d[0], d[1..];
      assert x + d + y == x + [c] + (rest + y);
      NormaliseSplits(x, c, rest + y);
      assert rest + y == "" + rest + y;
      NormaliseKeepsDigits("", rest, y);
      NormaliseNothing();
      assert Normalise(x) + [c] + ("" + rest + Normalise(y)) == Normalise(x) + d + Normalise(y);
    }
  }

  lemma NormaliseNothing()
    ensures Normalise("") == ""
  {
  }

  /** The ways to write a dot. */
  predicate IsDot(s: string) {
    s == "." || s == "[.]" || s == "(.)" || s == "[dot]"
  }

  lemma PrefixIsIn(pat: string, s: string)
    requires pat <= s
    ensures forall c :: c in pat ==> c in s
  {
    assert forall i :: 0 <= i < |pat| ==> pat[i] == s[i];
  }

  lemma {:induction false} Missing(s: string, pat: string, c: char)
    requires c in pat && c !in s
    ensures Replace(s, pat) == s
    decreases |s|
  {
    if s != [] {
      if pat <= s { PrefixIsIn(pat, s); }
      Missing(s[1..], pat, c);
      assert s == [s[0]] + s[1..];
    }
  }

  lemma WholePattern(pat: string)
    requires pat != []
    ensures Replace(pat, pat) == "."
  {
    assert pat[|pat|..] == [] && "." + [] == ".";
  }

  lemma DotIsDot(s: string)
    requires IsDot(s)
    ensures Normalise(s) == "."
  {
    hide Replace;
    Missing(".", "[.]", '[');
    Missing(".", "(.)", '(');
    Missing(".", "[dot]", '[');
    WholePattern("[.]");
    Missing("(.)", "[.]", '[');
    WholePattern("(.)");
    Missing("[dot]", "[.]", '.');
    Missing("[dot]", "(.)", '.');
    WholePattern("[dot]");
  }

  predicate EndsApart(x: string) {
    x != [] ==> !Digit(x[|x| - 1])
  }

  predicate StartsApart(y: string) {
    y != [] ==> !Digit(y[0])
  }

  lemma {:induction false} ReplaceStaysApart(s: string, pat: string)
    requires pat != []
    ensures EndsApart(s) ==> EndsApart(Replace(s, pat))
    ensures StartsApart(s) ==> StartsApart(Replace(s, pat))
    decreases |s|
  {
    if s != [] {
      var rest := if pat <= s then s[|pat|..] else s[1..];
      ReplaceStaysApart(rest, pat);
      assert rest != [] ==> rest[|rest| - 1] == s[|s| - 1];
      if rest != [] { ReplaceStays(rest, pat); }
    }
  }

  lemma ReplaceStays(s: string, pat: string)
    requires pat != [] && s != []
    ensures Replace(s, pat) != []
  {
  }

  lemma NormaliseStaysApart(s: string)
    ensures EndsApart(s) ==> EndsApart(Normalise(s))
    ensures StartsApart(s) ==> StartsApart(Normalise(s))
  {
    hide EndsApart, StartsApart, Replace;
    var a := Replace(s, "[.]");
    ReplaceStaysApart(s, "[.]");
    ReplaceStaysApart(a, "(.)");
    ReplaceStaysApart(Replace(a, "(.)"), "[dot]");
  }

  lemma LastGroup(part: string, post: string)
    requires Octet(part) && StartsApart(post)
    ensures Groups(part + post, DigitOrDot, '.', Octet, 1)
  {
    hide Octet, PartEnd;
    var s := part + post;
    assert Digits(part) by { OctetDigits(part); }
    PartEndIs(s, DigitOrDot, '.', |part|);
    assert s[..|part|] == part;
  }

  lemma OctetDigits(part: string)
    requires Octet(part)
    ensures Digits(part) && part != []
  {
  }

  lemma OneMoreGroup(part: string, rest: string, n: nat)
    requires Octet(part) && n > 0 && Groups(rest, DigitOrDot, '.', Octet, n)
    ensures Groups(part + "." + rest, DigitOrDot, '.', Octet, n + 1)
  {
    hide Octet, PartEnd;
    var s := part + "." + rest;
    OctetDigits(part);
    assert forall k :: 0 <= k < |part| ==> s[k] == part[k];
    assert s[|part|] == '.';
    PartEndIs(s, DigitOrDot, '.', |part|);
    assert s[..|part|] == part && s[|part| + 1..] == rest;
  }

  /** A dotted quad, its dots written in any of the ways, is found whatever stands around it, if that is not a digit. */
  lemma QuadIsFound(pre: string, a: string, d1: string, b: string, d2: string, c: string, d3: string, d: string,
                    post: string)
    requires Octet(a) && Octet(b) && Octet(c) && Octet(d) && IsDot(d1) && IsDot(d2) && IsDot(d3)
    requires EndsApart(pre) && StartsApart(post)
    ensures HasIpv4(Normalise(pre + a + (d1 + b + (d2 + c + (d3 + d + post)))))
  {
    hide Normalise, Octet, Groups, Digits, EndsApart, StartsApart;
    OctetDigits(a);
    OctetDigits(b);
    OctetDigits(c);
    OctetDigits(d);
    NormaliseStaysApart(pre);
    NormaliseStaysApart(post);
    var end := Normalise(post);
    SpelledGroup(d3, d, post, end);
    LastGroup(d, end);
    var cd := c + "." + (d + end);
    OneMoreGroup(c, d + end, 1);
    SpelledGroup(d2, c, d3 + d + post, "." + (d + end));
    Regroup(c, d + end);
    OneMoreGroup(b, cd, 2);
    SpelledGroup(d1, b, d2 + c + (d3 + d + post), "." + cd);
    Regroup(b, cd);
    var bcd := b + "." + cd;
    OneMoreGroup(a, bcd, 3);
    NormaliseKeepsDigits(pre, a, d1 + b + (d2 + c + (d3 + d + post)));
    Stands(Normalise(pre), a, bcd);
  }

  lemma Regroup(a: string, b: string)
    ensures a + ("." + b) == a + "." + b
  {
  }

  lemma SpelledGroup(dot: string, part: string, rest: string, end: string)
    requires IsDot(dot) && Digits(part) && part != [] && Normalise(rest) == end
    ensures Normalise(dot + part + rest) == "." + (part + end)
  {
    hide Normalise;
    DotIsDot(dot);
    NormaliseKeepsDigits(dot, part, rest);
    assert "." + part + end == "." + (part + end);
  }

  lemma Stands(pre: string, a: string, bcd: string)
    requires EndsApart(pre) && Groups(a + "." + bcd, DigitOrDot, '.', Octet, 4)
    ensures HasIpv4(pre + a + ("." + bcd))
  {
    hide Groups;
    var s := pre + a + ("." + bcd);
    assert s[|pre|..] == a + "." + bcd;
    assert GroupsAt(s, DigitOrDot, '.', Octet, 4, |pre|);
  }

  // ---- the whole filter -----------------------------------------------------------------------------

  const MAX_QUERY: nat := 200

  predicate SchemeSlashAt(q: string, i: nat) {
    && 2 <= i && i + 1 < |q| && q[i] == ':' && (q[i + 1] == '/' || q[i + 1] == '\\')
    && Letter(q[i - 1]) && Letter(q[i - 2])
  }

  predicate PercentAt(q: string, i: nat) {
    i + 2 < |q| && q[i] == '%' && HexDigit(q[i + 1]) && HexDigit(q[i + 2])
  }

  predicate LooksAlike(c: char, numeric: char -> bool) {
    '\U{FF00}' <= c <= '\U{FFEF}' || '\U{1D400}' <= c <= '\U{1D7FF}' || (c > '\U{7F}' && numeric(c))
  }

  predicate Ipv6Char(c: char) {
    HexDigit(c) || c == ':' || c == '.'
  }

  /** What the library does: lowercase a text, tell numeric characters, and parse an IPv6 address. */
  datatype Library = Library(lower: string -> string, numeric: char -> bool, parses: string -> bool)

  function CountOf(s: string, c: char): nat {
    if s == [] then 0 else (if s[0] == c then 1 else 0) + CountOf(s[1..], c)
  }

  /** A letter or digit stands right before `at`. */
  predicate Glued(q: string, at: nat) {
    0 < at <= |q| && WordChar(q[at - 1])
  }

  function TrimPunctuation(s: string): string {
    if s != [] && (s[|s| - 1] == '.' || s[|s| - 1] == ':') then TrimPunctuation(s[..|s| - 1]) else s
  }

  /** A part that looks like an address even when glued to a word: eight groups, or a first group of four digits. */
  predicate Strong(c: string) {
    CountOf(c, ':') == 7 || Index(c, ':') == 4
  }

  /** The part `s..e` of a run is taken for an IPv6 address. */
  predicate Ipv6Part(q: string, r: Run, s: nat, e: nat, parses: string -> bool)
    requires s < e <= |r.text|
  {
    var part, glued, end := r.text[s..e], Glued(q, r.start + s), r.start + |r.text|;
    && !(glued && r.text[s] == ':')
    && (exists i :: 0 <= i < |part| && HexDigit(part[i])) && CountOf(part, ':') >= 2
    && (glued ==>
          (e == |r.text| || e == |TrimPunctuation(r.text)|) && !(end < |q| && WordChar(q[end])) && Strong(part))
    && parses(part)
  }

  predicate IsIpv6(q: string, r: Run, parses: string -> bool) {
    CountOf(r.text, ':') >= 2 && exists s, e :: 0 <= s < e <= |r.text| && Ipv6Part(q, r, s, e, parses)
  }

  ghost predicate IsRefused(lib: Library, query: string, deny: seq<string>) {
    var q := lib.lower(query);
    var n := Normalise(q);
    || |q| > MAX_QUERY
    || (exists i: nat :: OccursAt(q, "://", i))
    || (exists i :: 0 <= i < |q| && LooksAlike(q[i], lib.numeric))
    || (exists i: nat :: SchemeSlashAt(q, i))
    || (exists i: nat :: PercentAt(q, i))
    || (exists k :: 0 <= k < |deny| && (Mentions(q, lib.lower(deny[k])) || Mentions(n, lib.lower(deny[k]))))
    || HasIpv4(n)
    || (exists r :: IsRun(n, Ipv6Char, r) && IsIpv6(n, r, lib.parses))
    || HasMac(n)
  }

  method FindDenied(lib: Library, q: string, n: string, deny: seq<string>) returns (found: bool)
    ensures found <==>
              exists k :: 0 <= k < |deny| && (Mentions(q, lib.lower(deny[k])) || Mentions(n, lib.lower(deny[k])))
  {
    hide Mentions;
    for k := 0 to |deny|
      invariant forall j :: 0 <= j < k ==> !Mentions(q, lib.lower(deny[j])) && !Mentions(n, lib.lower(deny[j]))
    {
      var term := lib.lower(deny[k]);
      var inQuery := HasWord(q, term);
      var inNormal := HasWord(n, term);
      if inQuery || inNormal {
        return true;
      }
    }
    return false;
  }

  method FindIpv6(n: string, parses: string -> bool) returns (found: bool)
    ensures found <==> exists r :: IsRun(n, Ipv6Char, r) && IsIpv6(n, r, parses)
  {
    hide IsRun, IsIpv6;
    var runs := Runs(n, Ipv6Char);
    for i := 0 to |runs|
      invariant forall j :: 0 <= j < i ==> !IsIpv6(n, runs[j], parses)
    {
      if IsIpv6(n, runs[i], parses) {
        assert IsRun(n, Ipv6Char, runs[i]);
        return true;
      }
    }
    return false;
  }

  lemma {:induction false} CountSplits(a: string, b: string, c: char)
    ensures CountOf(a + b, c) == CountOf(a, c) + CountOf(b, c)
  {
    if a == [] {
      assert a + b == b;
    } else {
      assert (a + b)[1..] == a[1..] + b;
      CountSplits(a[1..], b, c);
    }
  }

  /** An IPv6 address with no letter or digit right before it is found, whatever else stands around it. */
  lemma Ipv6IsFound(n: string, i: nat, j: nat, parses: string -> bool)
    requires i < j <= |n| && (forall k :: i <= k < j ==> Ipv6Char(n[k])) && !Glued(n, i)
    requires parses(n[i..j]) && CountOf(n[i..j], ':') >= 2 && exists k :: i <= k < j && HexDigit(n[k])
    ensures exists r :: IsRun(n, Ipv6Char, r) && IsIpv6(n, r, parses)
  {
    hide CountOf, Glued, WordChar, HexDigit, Strong, TrimPunctuation, IsRun, Ipv6Char;
    var r := RunAround(n, Ipv6Char, i);
    RunReaches(n, Ipv6Char, r, i, j);
    var s, e := i - r.start, j - r.start;
    var k :| i <= k < j && HexDigit(n[k]);
    assert r.text[s..e][k - i] == n[k];
    CountInside(r.text, s, e, ':');
    assert Ipv6Part(n, r, s, e, parses);
  }

  lemma CountInside(t: string, s: nat, e: nat, c: char)
    requires s <= e <= |t|
    ensures CountOf(t[s..e], c) <= CountOf(t, c)
  {
    hide CountOf;
    assert t == t[..s] + (t[s..e] + t[e..]);
    CountSplits(t[..s], t[s..e] + t[e..], c);
    CountSplits(t[s..e], t[e..], c);
  }

  lemma RunReaches(q: string, f: char -> bool, r: Run, i: nat, j: nat)
    requires IsRun(q, f, r) && r.start <= i < r.start + |r.text| && i < j <= |q| && forall k :: i <= k < j ==> f(q[k])
    ensures j <= r.start + |r.text| && r.text[i - r.start..j - r.start] == q[i..j]
  {
    var end := r.start + |r.text|;
    assert i < end;
    assert j <= end;
    assert q[r.start..end][i - r.start..j - r.start] == q[i..j];
  }

  method CheckQuery(lib: Library, query: string, deny: seq<string>) returns (ok: bool)
    ensures ok <==> !IsRefused(lib, query, deny)
  {
    hide HasIpv4, HasMac, Mentions, IsRun, Normalise, Find, IsIpv6;
    var q := lib.lower(query);
    var n := Normalise(q);
    if |q| > MAX_QUERY || Find(q, "://", 0).Some? || (exists i :: 0 <= i < |q| && LooksAlike(q[i], lib.numeric)) {
      return false;
    }
    if (exists i :: 0 <= i < |q| && SchemeSlashAt(q, i)) || (exists i :: 0 <= i < |q| && PercentAt(q, i)) {
      return false;
    }
    var denied := FindDenied(lib, q, n, deny);
    if denied {
      return false;
    }
    var ipv4 := FindIpv4(n);
    var ipv6 := FindIpv6(n, lib.parses);
    var mac := FindMac(n);
    return !ipv4 && !ipv6 && !mac;
  }

  /** A query whose lowercase form holds a dotted quad, however its dots are written, is refused. */
  lemma QuadIsRefused(lib: Library, query: string, deny: seq<string>,
                      pre: string, a: string, d1: string, b: string, d2: string, c: string, d3: string, d: string,
                        post: string)
    requires Octet(a) && Octet(b) && Octet(c) && Octet(d) && IsDot(d1) && IsDot(d2) && IsDot(d3)
    requires EndsApart(pre) && StartsApart(post)
    requires lib.lower(query) == pre + a + (d1 + b + (d2 + c + (d3 + d + post)))
    ensures IsRefused(lib, query, deny)
  {
    hide HasIpv4, HasMac, Mentions, IsRun, Normalise, Octet, IsIpv6;
    QuadIsFound(pre, a, d1, b, d2, c, d3, d, post);
  }
}
