/**
 What the query filter refuses (`openvibes-fetch/src/filter.rs`), in the characters of the query alone:
 no runs, no splitting, no windows. Each kind of address is found exactly where it is written, and
 nothing else is taken for one.
 */
module Addresses {
  import opened Basics
  import opened QueryFilter

  // ---- characters ---------------------------------------------------------------------------

  predicate IsDigitChar(c: char) {
    c in "0123456789"
  }

  predicate IsHexChar(c: char) {
    c in "0123456789" || c in "abcdef" || c in "ABCDEF"
  }

  predicate IsLetter(c: char) {
    c in "abcdefghijklmnopqrstuvwxyz" || c in "ABCDEFGHIJKLMNOPQRSTUVWXYZ"
  }

  predicate IsAlnum(c: char) {
    IsDigitChar(c) || IsLetter(c)
  }

  /** A character a MAC address may stand in. */
  predicate IsMacChar(c: char) {
    IsHexChar(c) || c in ":.-"
  }

  predicate IsIpv6Char(c: char) {
    IsHexChar(c) || c in ":."
  }

  lemma InText(c: char, text: string, first: char, last: char)
    requires first as int <= last as int < 128 && |text| == last as int - first as int + 1
    requires forall i :: 0 <= i < |text| ==> text[i] as int == first as int + i
    ensures c in text <==> first <= c <= last
  {
    if first <= c <= last { assert text[c as int - first as int] == c; }
  }

  lemma DigitsAre(c: char)
    ensures Digit(c) <==> IsDigitChar(c)
  {
    InText(c, "0123456789", '0', '9');
  }

  lemma HexAre(c: char)
    ensures HexDigit(c) <==> IsHexChar(c)
  {
    InText(c, "0123456789", '0', '9');
    InText(c, "abcdef", 'a', 'f');
    InText(c, "ABCDEF", 'A', 'F');
  }

  lemma LowerAre(c: char)
    ensures c in "abcdefghijklmnopqrstuvwxyz" <==> 'a' <= c <= 'z'
  {
    InText(c, "abcdefghijklmnopqrstuvwxyz", 'a', 'z');
  }

  lemma UpperAre(c: char)
    ensures c in "ABCDEFGHIJKLMNOPQRSTUVWXYZ" <==> 'A' <= c <= 'Z'
  {
    InText(c, "ABCDEFGHIJKLMNOPQRSTUVWXYZ", 'A', 'Z');
  }

  lemma LettersAre(c: char)
    ensures Letter(c) <==> IsLetter(c)
  {
    LowerAre(c);
    UpperAre(c);
  }

  lemma AlnumAre(c: char)
    ensures WordChar(c) <==> IsAlnum(c)
  {
    hide IsDigitChar, Digit, IsLetter, Letter;
    DigitsAre(c);
    LettersAre(c);
  }

  lemma MacCharsAre(c: char)
    ensures MacChar(c) <==> IsMacChar(c)
  {
    HexAre(c);
  }

  lemma Ipv6CharsAre(c: char)
    ensures Ipv6Char(c) <==> IsIpv6Char(c)
  {
    HexAre(c);
  }

  // ---- MAC addresses ------------------------------------------------------------------------

  /** `count` pairs of hex digits joined by `sep`, at the start of `s`. */
  predicate Pairs(s: string, sep: char, count: nat) {
    3 * count <= |s| + 1 && forall k :: 0 <= k < 3 * count - 1 ==> if k % 3 == 2 then s[k] == sep else IsHexChar(s[k])
  }

  /** `count` fours of hex digits joined by dots, at the start of `s`. */
  predicate Fours(s: string, count: nat) {
    5 * count <= |s| + 1 && forall k :: 0 <= k < 5 * count - 1 ==> if k % 5 == 4 then s[k] == '.' else IsHexChar(s[k])
  }

  /** At `j` nothing goes on that `sep` separates. */
  predicate Apart(n: string, j: int, sep: char) {
    0 <= j < |n| ==> n[j] == sep || !IsMacChar(n[j])
  }

  /** Twelve hex digits in six pairs joined by colons or hyphens, or in three fours joined by dots. */
  predicate MacAt(n: string, i: nat) {
    i <= |n| &&
    (|| (Pairs(n[i..], ':', 6) && Apart(n, i - 1, ':') && Apart(n, i + 17, ':'))
     || (Pairs(n[i..], '-', 6) && Apart(n, i - 1, '-') && Apart(n, i + 17, '-'))
     || (Fours(n[i..], 3) && Apart(n, i - 1, '.') && Apart(n, i + 14, '.')))
  }

  /** `count` groups of `size` hex digits joined by `sep`, and then no more of the kind. */
  predicate Joined(s: string, sep: char, size: nat, count: nat)
    decreases count
  {
    && size <= |s| && (forall k :: 0 <= k < size ==> IsHexChar(s[k]))
    && if count <= 1 then Apart(s, size, sep)
       else size < |s| && s[size] == sep && Joined(s[size + 1..], sep, size, count - 1)
  }

  lemma {:induction false} GroupsAreJoined(s: string, sep: char, size: nat, p: string -> bool, count: nat)
    requires size > 0 && count > 0 && sep in ":-." && forall t :: p(t) <==> HexGroup(t, size)
    ensures Groups(s, MacChar, sep, p, count) <==> Joined(s, sep, size, count)
    decreases count
  {
    hide PartEnd, IsMacChar, MacChar, IsHexChar, HexGroup;
    FirstIsHex(s, sep, size);
    if count > 1 && size < |s| && s[size] == sep { GroupsAreJoined(s[size + 1..], sep, size, p, count - 1); }
  }

  /** The first part is a group of hex digits exactly when these stand there and nothing goes on. */
  lemma FirstIsHex(s: string, sep: char, size: nat)
    requires size > 0 && sep in ":-."
    ensures HexGroup(s[..PartEnd(s, MacChar, sep)], size) <==>
            && size <= |s| && (forall k :: 0 <= k < size ==> IsHexChar(s[k])) && Apart(s, size, sep)
    ensures HexGroup(s[..PartEnd(s, MacChar, sep)], size) ==> PartEnd(s, MacChar, sep) == size
  {
    hide PartEnd, IsMacChar, MacChar, IsHexChar, HexDigit;
    var j := PartEnd(s, MacChar, sep);
    if size < |s| { MacCharsAre(s[size]); }
    if size <= |s| && (forall k :: 0 <= k < size ==> IsHexChar(s[k])) && Apart(s, size, sep) {
      HexIsNoMark(s, sep, size);
      PartEndIs(s, MacChar, sep, size);
    }
    assert forall k :: 0 <= k < j ==> s[..j][k] == s[k];
    forall k | 0 <= k < |s| ensures HexDigit(s[k]) <==> IsHexChar(s[k]) { HexAre(s[k]); }
  }

  lemma HexIsNoMark(s: string, sep: char, size: nat)
    requires size <= |s| && sep in ":-." && forall k :: 0 <= k < size ==> IsHexChar(s[k])
    ensures forall k :: 0 <= k < size ==> s[k] != sep && MacChar(s[k])
  {
    forall k | 0 <= k < size ensures s[k] != sep && MacChar(s[k]) { HexAre(s[k]); }
  }

  lemma {:induction false} PairsAreJoined(s: string, sep: char, count: nat)
    requires count > 0
    ensures Joined(s, sep, 2, count) <==> Pairs(s, sep, count) && Apart(s, 3 * count - 1, sep)
    decreases count
  {
    hide IsHexChar, IsMacChar;
    if count > 1 && 2 < |s| {
      var t := s[3..];
      PairsAreJoined(t, sep, count - 1);
      assert forall k :: 0 <= k < |t| ==> t[k] == s[k + 3];
      if Pairs(s, sep, count) {
        forall k | 0 <= k < 3 * (count - 1) - 1 ensures if k % 3 == 2 then t[k] == sep else IsHexChar(t[k]) {
          assert (k + 3) % 3 == k % 3;
        }
      }
      if Joined(s, sep, 2, count) {
        forall k | 0 <= k < 3 * count - 1 ensures if k % 3 == 2 then s[k] == sep else IsHexChar(s[k]) {
          if k >= 3 { assert (k - 3) % 3 == k % 3 && s[k] == t[k - 3]; }
        }
      }
    }
  }

  lemma {:induction false} FoursAreJoined(s: string, count: nat)
    requires count > 0
    ensures Joined(s, '.', 4, count) <==> Fours(s, count) && Apart(s, 5 * count - 1, '.')
    decreases count
  {
    hide IsHexChar, IsMacChar;
    if count > 1 && 4 < |s| {
      var t := s[5..];
      FoursAreJoined(t, count - 1);
      assert forall k :: 0 <= k < |t| ==> t[k] == s[k + 5];
      if Fours(s, count) {
        forall k | 0 <= k < 5 * (count - 1) - 1 ensures if k % 5 == 4 then t[k] == '.' else IsHexChar(t[k]) {
          assert (k + 5) % 5 == k % 5;
        }
      }
      if Joined(s, '.', 4, count) {
        forall k | 0 <= k < 5 * count - 1 ensures if k % 5 == 4 then s[k] == '.' else IsHexChar(s[k]) {
          if k >= 5 { assert (k - 5) % 5 == k % 5 && s[k] == t[k - 5]; }
        }
      }
    }
  }

  lemma GroupsStand(n: string, i: nat, sep: char, size: nat, p: string -> bool, count: nat)
    requires size > 0 && count > 0 && sep in ":-." && (forall t :: p(t) <==> HexGroup(t, size)) && i <= |n|
    ensures GroupsAt(n, MacChar, sep, p, count, i) <==> Apart(n, i - 1, sep) && Joined(n[i..], sep, size, count)
  {
    hide Groups, Joined, MacChar, IsMacChar;
    GroupsAreJoined(n[i..], sep, size, p, count);
    if i > 0 { MacCharsAre(n[i - 1]); }
  }

  lemma ApartFrom(n: string, i: nat, k: nat, sep: char)
    requires i <= |n|
    ensures Apart(n[i..], k, sep) <==> Apart(n, i + k, sep)
  {
  }

  lemma MacStands(n: string, i: nat)
    ensures MacAt(n, i) <==>
            || GroupsAt(n, MacChar, ':', Hex2, 6, i) || GroupsAt(n, MacChar, '-', Hex2, 6, i)
            || GroupsAt(n, MacChar, '.', Hex4, 3, i)
  {
    hide Groups, Joined, MacChar, Apart, Pairs, Fours, HexGroup;
    if i <= |n| {
      GroupsStand(n, i, ':', 2, Hex2, 6);
      GroupsStand(n, i, '-', 2, Hex2, 6);
      GroupsStand(n, i, '.', 4, Hex4, 3);
      PairsAreJoined(n[i..], ':', 6);
      PairsAreJoined(n[i..], '-', 6);
      FoursAreJoined(n[i..], 3);
      ApartFrom(n, i, 17, ':');
      ApartFrom(n, i, 17, '-');
      ApartFrom(n, i, 14, '.');
    }
  }

  /** A MAC address is found exactly where one is written with nothing of its kind adjacent. */
  lemma MacExactly(n: string)
    ensures HasMac(n) <==> exists i: nat :: MacAt(n, i)
  {
    hide GroupsAt, MacAt;
    forall i: nat
      ensures MacAt(n, i) <==>
              || GroupsAt(n, MacChar, ':', Hex2, 6, i) || GroupsAt(n, MacChar, '-', Hex2, 6, i)
              || GroupsAt(n, MacChar, '.', Hex4, 3, i)
    {
      MacStands(n, i);
    }
  }

  /** Whatever stands around it: an address between texts that neither end nor start with a character of its kind. */
  lemma MacIsFound(pre: string, mac: string, post: string)
    requires (|mac| == 17 && (Pairs(mac, ':', 6) || Pairs(mac, '-', 6))) || (|mac| == 14 && Fours(mac, 3))
    requires pre != [] ==> !IsMacChar(pre[|pre| - 1])
    requires post != [] ==> !IsMacChar(post[0])
    ensures HasMac(pre + mac + post)
  {
    hide HasMac, IsHexChar, IsMacChar;
    var n := pre + mac + post;
    assert forall k :: 0 <= k < |mac| ==> n[|pre|..][k] == mac[k];
    assert post != [] ==> n[|pre| + |mac|] == post[0];
    assert MacAt(n, |pre|);
    MacExactly(n);
  }

  // ---- dotted quads -------------------------------------------------------------------------

  function DigitValue(c: char): int {
    c as int - '0' as int
  }

  /** One to three digits that write at most 255. */
  predicate OctetText(t: string) {
    && 1 <= |t| <= 3 && (forall k :: 0 <= k < |t| ==> IsDigitChar(t[k]))
    && (|t| == 3 ==> 100 * DigitValue(t[0]) + 10 * DigitValue(t[1]) + DigitValue(t[2]) <= 255)
  }

  /** Four octets joined by dots at `i`, of these lengths, and no digit before or after. */
  predicate QuadAt(n: string, i: nat, a: nat, b: nat, c: nat, d: nat) {
    var j, k, l := i + a + 1, i + a + b + 2, i + a + b + c + 3;
    && l + d <= |n|
    && OctetText(n[i..i + a]) && n[i + a] == '.' && OctetText(n[j..j + b]) && n[j + b] == '.'
    && OctetText(n[k..k + c]) && n[k + c] == '.' && OctetText(n[l..l + d])
    && (i > 0 ==> !IsDigitChar(n[i - 1])) && (l + d < |n| ==> !IsDigitChar(n[l + d]))
  }

  lemma OctetsAre(t: string)
    ensures Octet(t) <==> OctetText(t)
  {
    hide IsDigitChar;
    forall c ensures Digit(c) <==> IsDigitChar(c) { DigitsAre(c); }
    if 1 <= |t| <= 3 && forall k :: 0 <= k < |t| ==> IsDigitChar(t[k]) { NumberIs(t); }
  }

  lemma NumberIs(t: string)
    requires 1 <= |t| <= 3 && forall k :: 0 <= k < |t| ==> Digit(t[k])
    ensures |t| == 3 ==> Number(t) == 100 * DigitValue(t[0]) + 10 * DigitValue(t[1]) + DigitValue(t[2])
    ensures |t| < 3 ==> Number(t) <= 99
  {
    var s := t[..|t| - 1];
    assert Number(t) == 10 * Number(s) + DigitValue(t[|t| - 1]);
    if |t| >= 2 {
      var r := s[..|s| - 1];
      assert Number(s) == 10 * Number(r) + DigitValue(s[|s| - 1]);
      if |t| == 3 {
        assert r[..0] == [] && Number(r) == DigitValue(t[0]);
      } else {
        assert r == [];
      }
    } else {
      assert s == [];
    }
  }

  /** `Groups` takes the octet up to the next dot or non-digit. */
  lemma OctetGroup(s: string, a: nat, more: nat)
    requires a <= |s| && OctetText(s[..a]) && more > 0
    requires if more == 1 then a < |s| ==> !IsDigitChar(s[a])
             else a < |s| && s[a] == '.' && Groups(s[a + 1..], DigitOrDot, '.', Octet, more - 1)
    ensures Groups(s, DigitOrDot, '.', Octet, more)
  {
    hide Octet, IsDigitChar, PartEnd;
    OctetsAre(s[..a]);
    forall c ensures Digit(c) <==> IsDigitChar(c) { DigitsAre(c); }
    assert forall k :: 0 <= k < a ==> s[..a][k] == s[k];
    PartEndIs(s, DigitOrDot, '.', a);
  }

  /** And the other way round. */
  lemma GroupIsOctet(s: string, more: nat) returns (a: nat)
    requires more > 0 && Groups(s, DigitOrDot, '.', Octet, more)
    ensures a <= |s| && OctetText(s[..a])
    ensures if more == 1 then a < |s| ==> !IsDigitChar(s[a])
            else a < |s| && s[a] == '.' && Groups(s[a + 1..], DigitOrDot, '.', Octet, more - 1)
  {
    hide Octet, IsDigitChar;
    forall c ensures Digit(c) <==> IsDigitChar(c) { DigitsAre(c); }
    a := PartEnd(s, DigitOrDot, '.');
    OctetsAre(s[..a]);
  }

  lemma OctetFrom(n: string, i: nat, a: nat, more: nat)
    requires i + a <= |n| && OctetText(n[i..i + a]) && more > 0
    requires if more == 1 then i + a < |n| ==> !IsDigitChar(n[i + a])
             else i + a < |n| && n[i + a] == '.' && Groups(n[i + a + 1..], DigitOrDot, '.', Octet, more - 1)
    ensures Groups(n[i..], DigitOrDot, '.', Octet, more)
  {
    hide Groups, OctetText, Octet, IsDigitChar;
    assert n[i..][..a] == n[i..i + a];
    assert i + a < |n| ==> n[i..][a + 1..] == n[i + a + 1..];
    OctetGroup(n[i..], a, more);
  }

  lemma QuadStands(n: string, i: nat, a: nat, b: nat, c: nat, d: nat)
    requires QuadAt(n, i, a, b, c, d)
    ensures GroupsAt(n, DigitOrDot, '.', Octet, 4, i)
  {
    hide Groups, OctetText, Octet, IsDigitChar;
    var j, k, l := i + a + 1, i + a + b + 2, i + a + b + c + 3;
    if i > 0 { DigitsAre(n[i - 1]); }
    OctetFrom(n, l, d, 1);
    OctetFrom(n, k, c, 2);
    OctetFrom(n, j, b, 3);
    OctetFrom(n, i, a, 4);
  }

  /** `more` octets joined by dots from `i` on, and then no digit. */
  ghost predicate Octets(n: string, i: nat, lengths: seq<nat>)
    decreases |lengths|
  {
    && lengths != [] && i + lengths[0] <= |n| && OctetText(n[i..i + lengths[0]])
    && var j := i + lengths[0];
    if |lengths| == 1 then j < |n| ==> !IsDigitChar(n[j])
    else j < |n| && n[j] == '.' && Octets(n, j + 1, lengths[1..])
  }

  lemma {:induction false} GroupsAreOctets(n: string, i: nat, more: nat) returns (lengths: seq<nat>)
    requires i <= |n| && more > 0 && Groups(n[i..], DigitOrDot, '.', Octet, more)
    ensures |lengths| == more && Octets(n, i, lengths)
    decreases more
  {
    hide Groups, OctetText, Octet, IsDigitChar;
    var a := GroupIsOctet(n[i..], more);
    assert n[i..][..a] == n[i..i + a];
    if more == 1 {
      lengths := [a];
    } else {
      assert n[i..][a + 1..] == n[i + a + 1..];
      var rest := GroupsAreOctets(n, i + a + 1, more - 1);
      lengths := [a] + rest;
      assert lengths[1..] == rest;
    }
  }

  lemma StandsAsQuad(n: string, i: nat) returns (a: nat, b: nat, c: nat, d: nat)
    requires GroupsAt(n, DigitOrDot, '.', Octet, 4, i)
    ensures QuadAt(n, i, a, b, c, d)
  {
    hide Groups, OctetText, Octet, IsDigitChar;
    if i > 0 { DigitsAre(n[i - 1]); }
    var lengths := GroupsAreOctets(n, i, 4);
    a, b, c, d := lengths[0], lengths[1], lengths[2], lengths[3];
    assert lengths[1..] == [b, c, d] && [b, c, d][1..] == [c, d] && [c, d][1..] == [d];
    assert Octets(n, i + a + 1, [b, c, d]);
    assert Octets(n, i + a + b + 2, [c, d]);
    assert Octets(n, i + a + b + c + 3, [d]);
  }

  /** A dotted quad is found exactly where one is written with no digit adjacent. */
  lemma Ipv4Exactly(n: string)
    ensures HasIpv4(n) <==> exists i: nat, a: nat, b: nat, c: nat, d: nat :: QuadAt(n, i, a, b, c, d)
  {
    hide GroupsAt, QuadAt;
    if i: nat :| GroupsAt(n, DigitOrDot, '.', Octet, 4, i) {
      var a, b, c, d := StandsAsQuad(n, i);
    }
    if i: nat, a: nat, b: nat, c: nat, d: nat :| QuadAt(n, i, a, b, c, d) { QuadStands(n, i, a, b, c, d); }
  }

  // ---- IPv6 addresses -----------------------------------------------------------------------

  /** How many colons there are. */
  function Colons(s: string): nat {
    if s == [] then 0 else Colons(s[..|s| - 1]) + if s[|s| - 1] == ':' then 1 else 0
  }

  lemma {:induction false} ColonsAre(s: string)
    ensures CountOf(s, ':') == Colons(s)
  {
    hide CountOf;
    if s == [] {
      assert CountOf(s, ':') == 0 by { NoneCounted(); }
    } else {
      var n := |s| - 1;
      ColonsAre(s[..n]);
      assert s == s[..n] + [s[n]];
      CountSplits(s[..n], [s[n]], ':');
      OneCounted(s[n]);
    }
  }

  lemma NoneCounted()
    ensures CountOf("", ':') == 0
  {
  }

  lemma OneCounted(c: char)
    ensures CountOf([c], ':') == if c == ':' then 1 else 0
  {
    assert [c][1..] == [];
  }

  /** Where the characters an IPv6 address may hold end, from `j` on. */
  predicate RunEnds(n: string, j: nat, m: nat) {
    j <= m <= |n| && (forall k :: j <= k < m ==> IsIpv6Char(n[k])) && (m < |n| ==> !IsIpv6Char(n[m]))
  }

  predicate IsMark(c: char) {
    c == '.' || c == ':'
  }

  /**
   An address at `i..j`: it parses, has two colons and a hex digit. Right after a letter or digit it must
   also start with a group of four or have eight groups, not start with a colon, and end the word: the run
   of such characters ends there, or only marks follow in it, and no letter or digit comes after the run.
   */
  predicate Ipv6At(n: string, i: nat, j: nat, m: nat, parses: string -> bool) {
    && i < j && RunEnds(n, i, m) && j <= m
    && parses(n[i..j]) && Colons(n[i..j]) >= 2 && (exists k :: i <= k < j && IsHexChar(n[k]))
    && (i > 0 && IsAlnum(n[i - 1]) ==>
          && n[i] != ':'
          && (Colons(n[i..j]) == 7 || FirstColonFifth(n, i, j))
          && (j == m || OnlyMarksFollow(n, j, m))
          && (m < |n| ==> !IsAlnum(n[m])))
  }

  predicate FirstColonFifth(n: string, i: nat, j: nat)
    requires j <= |n|
  {
    i + 4 < j && n[i + 4] == ':' && forall k :: i <= k < i + 4 ==> n[k] != ':'
  }

  predicate OnlyMarksFollow(n: string, j: nat, m: nat)
    requires 0 < j <= m <= |n|
  {
    !IsMark(n[j - 1]) && forall k :: j <= k < m ==> IsMark(n[k])
  }

  lemma {:induction false} TrimsMarks(t: string)
    ensures |TrimPunctuation(t)| <= |t|
    ensures forall k :: |TrimPunctuation(t)| <= k < |t| ==> IsMark(t[k])
    ensures TrimPunctuation(t) != [] ==> !IsMark(t[|TrimPunctuation(t)| - 1])
  {
    if t != [] && IsMark(t[|t| - 1]) { TrimsMarks(t[..|t| - 1]); }
  }

  /** Where the trimmed text ends is told by the marks alone. */
  lemma TrimEnds(t: string, e: nat)
    requires 0 < e <= |t|
    ensures e == |TrimPunctuation(t)| <==> !IsMark(t[e - 1]) && forall k :: e <= k < |t| ==> IsMark(t[k])
  {
    hide IsMark;
    TrimsMarks(t);
    var end := |TrimPunctuation(t)|;
    assert e < end ==> !IsMark(t[end - 1]);
    assert end < e ==> IsMark(t[e - 1]);
  }

  /** The run around `i` ends where the characters do. */
  lemma RunsEnd(n: string, r: Run, i: nat, m: nat)
    requires IsRun(n, Ipv6Char, r) && r.start <= i < r.start + |r.text|
    ensures RunEnds(n, i, m) <==> m == r.start + |r.text|
    ensures r.start + |r.text| <= |n|
  {
    hide Ipv6Char, IsIpv6Char;
    forall c ensures Ipv6Char(c) <==> IsIpv6Char(c) { Ipv6CharsAre(c); }
  }

  lemma StrongIs(n: string, i: nat, j: nat)
    requires i < j <= |n| && Colons(n[i..j]) >= 2
    ensures Strong(n[i..j]) <==>
            Colons(n[i..j]) == 7 || FirstColonFifth(n, i, j)
  {
    hide CountOf, Colons;
    var c := n[i..j];
    ColonsAre(c);
    assert forall k :: 0 <= k < |c| ==> c[k] == n[i + k];
    if Index(c, ':') == |c| { NoColons(c); }
    if i + 4 < j && n[i + 4] == ':' && forall k :: i <= k < i + 4 ==> n[k] != ':' {
      assert c[4] == ':' && forall k :: 0 <= k < 4 ==> c[k] != ':';
    }
  }

  lemma {:induction false} NoColons(c: string)
    requires forall k :: 0 <= k < |c| ==> c[k] != ':'
    ensures Colons(c) == 0
  {
    if c != [] { NoColons(c[..|c| - 1]); }
  }

  /** A part of a run is taken for an address exactly when it is one where it stands. */
  lemma PartsAre(n: string, r: Run, s: nat, e: nat, parses: string -> bool)
    requires IsRun(n, Ipv6Char, r) && s < e <= |r.text|
    ensures Ipv6Part(n, r, s, e, parses) <==>
            Ipv6At(n, r.start + s, r.start + e, r.start + |r.text|, parses)
  {
    hide Ipv6Char, IsIpv6Char, CountOf, Colons, Strong, TrimPunctuation, HexDigit, IsHexChar, WordChar, IsAlnum,
      FirstColonFifth, OnlyMarksFollow, RunEnds;
    var i, j, m := r.start + s, r.start + e, r.start + |r.text|;
    RunsEnd(n, r, i, m);
    SameText(n, r, s, e);
    ColonsAre(n[i..j]);
    if i > 0 { AlnumAre(n[i - 1]); }
    if m < |n| { AlnumAre(n[m]); }
    MarksFollow(n, r, e);
    if Colons(n[i..j]) >= 2 { StrongIs(n, i, j); }
    HexInside(n, r, s, e);
  }

  lemma SameText(n: string, r: Run, s: nat, e: nat)
    requires IsRun(n, Ipv6Char, r) && s < e <= |r.text|
    ensures r.start + e <= |n| && r.text[s..e] == n[r.start + s..r.start + e] && r.text[s] == n[r.start + s]
    ensures r.text[e - 1] == n[r.start + e - 1]
  {
    assert forall k :: 0 <= k < |r.text| ==> r.text[k] == n[r.start + k];
  }

  lemma MarksFollow(n: string, r: Run, e: nat)
    requires IsRun(n, Ipv6Char, r) && 0 < e <= |r.text|
    ensures r.start + |r.text| <= |n|
    ensures e == |TrimPunctuation(r.text)| <==> OnlyMarksFollow(n, r.start + e, r.start + |r.text|)
  {
    hide IsMark, TrimPunctuation;
    TrimEnds(r.text, e);
    assert forall k :: 0 <= k < |r.text| ==> r.text[k] == n[r.start + k];
    if forall k :: e <= k < |r.text| ==> IsMark(r.text[k]) {
      forall k | r.start + e <= k < r.start + |r.text| ensures IsMark(n[k]) { assert r.text[k - r.start] == n[k]; }
    }
  }

  lemma HexInside(n: string, r: Run, s: nat, e: nat)
    requires IsRun(n, Ipv6Char, r) && s < e <= |r.text|
    ensures r.start + |r.text| <= |n|
    ensures (exists k :: 0 <= k < |r.text[s..e]| && HexDigit(r.text[s..e][k])) <==>
            exists k :: r.start + s <= k < r.start + e && IsHexChar(n[k])
  {
    hide HexDigit, IsHexChar;
    forall c ensures HexDigit(c) <==> IsHexChar(c) { HexAre(c); }
    assert forall k :: 0 <= k < |r.text| ==> r.text[k] == n[r.start + k];
    if k :| 0 <= k < e - s && HexDigit(r.text[s..e][k]) { assert HexDigit(n[r.start + s + k]); }
    if k :| r.start + s <= k < r.start + e && HexDigit(n[k]) { assert HexDigit(r.text[s..e][k - r.start - s]); }
  }

  /** An IPv6 address is found exactly where one stands. */
  lemma Ipv6Exactly(n: string, parses: string -> bool)
    ensures (exists r :: IsRun(n, Ipv6Char, r) && IsIpv6(n, r, parses)) <==>
            exists i: nat, j: nat, m: nat :: Ipv6At(n, i, j, m, parses)
  {
    hide IsRun, Ipv6Part, Ipv6At, CountOf, Ipv6Char;
    if r :| IsRun(n, Ipv6Char, r) && IsIpv6(n, r, parses) {
      var s, e :| 0 <= s < e <= |r.text| && Ipv6Part(n, r, s, e, parses);
      PartsAre(n, r, s, e, parses);
    }
    if i: nat, j: nat, m: nat :| Ipv6At(n, i, j, m, parses) {
      var r := RunOfAddress(n, i, j, m, parses);
      PartsAre(n, r, i - r.start, j - r.start, parses);
      EnoughColons(n, r, i - r.start, j - r.start, parses);
    }
  }

  lemma RunOfAddress(n: string, i: nat, j: nat, m: nat, parses: string -> bool) returns (r: Run)
    requires Ipv6At(n, i, j, m, parses)
    ensures IsRun(n, Ipv6Char, r) && r.start <= i < j <= r.start + |r.text| == m
  {
    hide IsRun, Ipv6Char, Colons, IsHexChar, IsAlnum, IsMark;
    Ipv6CharsAre(n[i]);
    r := RunAround(n, Ipv6Char, i);
    RunsEnd(n, r, i, m);
  }

  lemma EnoughColons(n: string, r: Run, s: nat, e: nat, parses: string -> bool)
    requires IsRun(n, Ipv6Char, r) && s < e <= |r.text| && Ipv6Part(n, r, s, e, parses)
    ensures CountOf(r.text, ':') >= 2
  {
    hide CountOf, IsRun;
    CountInside(r.text, s, e, ':');
  }

  // ---- the whole filter ---------------------------------------------------------------------

  /** `term` stands in `q` with no letter or digit right before or after it. */
  ghost predicate HoldsWord(q: string, term: string) {
    term != [] && exists pre, post :: HoldsWordAt(q, pre, term, post)
  }

  predicate HoldsWordAt(q: string, pre: string, term: string, post: string) {
    && q == pre + term + post && (pre != [] ==> !IsAlnum(pre[|pre| - 1])) && (post != [] ==> !IsAlnum(post[0]))
  }

  lemma WordsAre(q: string, term: string)
    ensures Mentions(q, term) <==> HoldsWord(q, term)
  {
    hide IsAlnum, WordChar;
    forall c ensures WordChar(c) <==> IsAlnum(c) { AlnumAre(c); }
    if Mentions(q, term) {
      var i: nat :| WordAt(q, term, i);
      assert q == q[..i] + term + q[i + |term|..];
      assert HoldsWordAt(q, q[..i], term, q[i + |term|..]);
    }
    if HoldsWord(q, term) {
      var pre, post :| HoldsWordAt(q, pre, term, post);
      assert q[|pre|..|pre| + |term|] == term;
      assert WordAt(q, term, |pre|);
    }
  }

  predicate SlashesAt(q: string, i: int) {
    0 <= i < |q| - 2 && q[i] == ':' && q[i + 1] == '/' && q[i + 2] == '/'
  }

  /** Two letters before `:/` or `:\\`. */
  predicate SchemeAt(q: string, i: int) {
    && 2 <= i < |q| - 1 && q[i] == ':' && (q[i + 1] == '/' || q[i + 1] == '\\')
    && IsLetter(q[i - 1]) && IsLetter(q[i - 2])
  }

  predicate EscapeAt(q: string, i: int) {
    0 <= i < |q| - 2 && q[i] == '%' && IsHexChar(q[i + 1]) && IsHexChar(q[i + 2])
  }

  /** What a URL is recognised by. */
  ghost predicate HoldsUrl(q: string) {
    (exists i :: SlashesAt(q, i)) || (exists i :: SchemeAt(q, i)) || (exists i :: EscapeAt(q, i))
  }

  lemma UrlIs(q: string, i: int)
    ensures SlashesAt(q, i) <==> i >= 0 && OccursAt(q, "://", i)
    ensures SchemeAt(q, i) <==> i >= 0 && SchemeSlashAt(q, i)
    ensures EscapeAt(q, i) <==> i >= 0 && PercentAt(q, i)
  {
    hide IsLetter, Letter, IsHexChar, HexDigit;
    if 2 <= i <= |q| {
      LettersAre(q[i - 1]);
      LettersAre(q[i - 2]);
    }
    if 0 <= i < |q| - 2 {
      HexAre(q[i + 1]);
      HexAre(q[i + 2]);
      assert q[i..i + 3] == [q[i], q[i + 1], q[i + 2]];
    }
  }

  lemma UrlsAre(q: string)
    ensures HoldsUrl(q) <==>
            || (exists i: nat :: OccursAt(q, "://", i)) || (exists i: nat :: SchemeSlashAt(q, i))
            || (exists i: nat :: PercentAt(q, i))
  {
    hide SlashesAt, SchemeAt, EscapeAt, OccursAt, SchemeSlashAt, PercentAt;
    if i :| SlashesAt(q, i) { UrlIs(q, i); }
    if i :| SchemeAt(q, i) { UrlIs(q, i); }
    if i :| EscapeAt(q, i) { UrlIs(q, i); }
    if i: nat :| OccursAt(q, "://", i) { UrlIs(q, i); }
    if i: nat :| SchemeSlashAt(q, i) { UrlIs(q, i); }
    if i: nat :| PercentAt(q, i) { UrlIs(q, i); }
  }

  /** Full-width forms, mathematical letters, and whatever else is numeric without being ASCII. */
  predicate Disguised(c: char, numeric: char -> bool) {
    0xFF00 <= c as int <= 0xFFEF || 0x1D400 <= c as int <= 0x1D7FF || (c as int >= 128 && numeric(c))
  }

  /**
   A query is refused exactly when its lowercase form is longer than 200 characters, holds a URL or a
   disguised character, holds a denied word as it is or with its dots written out, or holds an IPv4, IPv6
   or MAC address once they are.
   */
  lemma RefusedExactly(lib: Library, query: string, deny: seq<string>)
    ensures var q, n := lib.lower(query), Normalise(lib.lower(query));
            IsRefused(lib, query, deny) <==>
            || |q| > 200 || HoldsUrl(q) || (exists c :: c in q && Disguised(c, lib.numeric))
            || (exists d :: d in deny && (HoldsWord(q, lib.lower(d)) || HoldsWord(n, lib.lower(d))))
            || (exists i: nat, a: nat, b: nat, c: nat, d: nat :: QuadAt(n, i, a, b, c, d))
            || (exists i: nat, j: nat, m: nat :: Ipv6At(n, i, j, m, lib.parses))
            || (exists i: nat :: MacAt(n, i))
  {
    hide HasIpv4, HasMac, IsRun, IsIpv6, Normalise, QuadAt, Ipv6At, MacAt, HoldsUrl, OccursAt, SchemeSlashAt, PercentAt,
      Mentions, HoldsWord;
    var q, n := lib.lower(query), Normalise(lib.lower(query));
    UrlsAre(q);
    DisguisesAre(q, lib.numeric);
    DeniedAre(q, n, deny, lib.lower);
    Ipv4Exactly(n);
    Ipv6Exactly(n, lib.parses);
    MacExactly(n);
  }

  lemma DisguisesAre(q: string, numeric: char -> bool)
    ensures (exists c :: c in q && Disguised(c, numeric)) <==>
            exists i :: 0 <= i < |q| && LooksAlike(q[i], numeric)
  {
    forall c ensures Disguised(c, numeric) <==> LooksAlike(c, numeric) { }
    if i :| 0 <= i < |q| && LooksAlike(q[i], numeric) { assert q[i] in q; }
  }

  lemma DeniedAre(q: string, n: string, deny: seq<string>, lower: string -> string)
    ensures (exists d :: d in deny && (HoldsWord(q, lower(d)) || HoldsWord(n, lower(d)))) <==>
            exists k :: 0 <= k < |deny| && (Mentions(q, lower(deny[k])) || Mentions(n, lower(deny[k])))
  {
    hide Mentions, HoldsWord;
    forall d ensures (Mentions(q, d) <==> HoldsWord(q, d)) && (Mentions(n, d) <==> HoldsWord(n, d)) {
      WordsAre(q, d);
      WordsAre(n, d);
    }
    if k :| 0 <= k < |deny| && (Mentions(q, lower(deny[k])) || Mentions(n, lower(deny[k]))) { assert deny[k] in deny; }
  }

  /** A query that holds a MAC address once its dots are written out is refused. */
  lemma MacIsRefused(lib: Library, query: string, deny: seq<string>, pre: string, mac: string, post: string)
    requires Normalise(lib.lower(query)) == pre + mac + post
    requires (|mac| == 17 && (Pairs(mac, ':', 6) || Pairs(mac, '-', 6))) || (|mac| == 14 && Fours(mac, 3))
    requires pre != [] ==> !IsMacChar(pre[|pre| - 1])
    requires post != [] ==> !IsMacChar(post[0])
    ensures IsRefused(lib, query, deny)
  {
    hide HasIpv4, HasMac, Mentions, IsRun, Normalise, IsIpv6;
    MacIsFound(pre, mac, post);
  }

  /** A text without brackets and parentheses has its dots written out already. */
  lemma PlainStays(s: string)
    requires '[' !in s && '(' !in s
    ensures Normalise(s) == s
  {
    hide Replace;
    Missing(s, "[.]", '[');
    Missing(s, "(.)", '(');
    Missing(s, "[dot]", '[');
  }
}
