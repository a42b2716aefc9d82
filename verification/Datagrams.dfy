/**
 What a datagram is read as and counted as (`openvibes-netlog/src/cef.rs` and `handle.rs`), beyond what a
 well-behaved producer prints: every escape, every kind of leading text, and every outcome.
 */
module Datagrams {
  import opened Basics
  import opened Cef
  import opened CefRoundTrip
  import N = Netlog

  // ---- characters ---------------------------------------------------------------------------

  lemma KeyCharsAre(c: char)
    ensures IsKeyChar(c) <==>
            || c in "abcdefghijklmnopqrstuvwxyz" || c in "ABCDEFGHIJKLMNOPQRSTUVWXYZ" || c in "0123456789" || c == '_'
  {
    InText(c, "abcdefghijklmnopqrstuvwxyz", 'a', 'z');
    InText(c, "ABCDEFGHIJKLMNOPQRSTUVWXYZ", 'A', 'Z');
    InText(c, "0123456789", '0', '9');
  }

  lemma InText(c: char, text: string, first: char, last: char)
    requires first as int <= last as int < 128 && |text| == last as int - first as int + 1
    requires forall i :: 0 <= i < |text| ==> text[i] as int == first as int + i
    ensures c in text <==> first <= c <= last
  {
    if first <= c <= last { assert text[c as int - first as int] == c; }
  }

  /** The characters Unicode calls white space. */
  const WHITE := [9, 10, 11, 12, 13, 32, 133, 160, 5760, 8192, 8193, 8194, 8195, 8196, 8197, 8198, 8199, 8200, 8201,
                  8202, 8232, 8233, 8239, 8287, 12288]

  lemma SpacesAre(c: char)
    ensures IsSpace(c) <==> c as int in WHITE
  {
    if IsSpace(c) {
      var n := c as int;
      assert 9 <= n <= 13 ==> WHITE[n - 9] == n;
      assert 8192 <= n <= 8202 ==> WHITE[n - 8183] == n;
      assert WHITE[5] == 32 && WHITE[6] == 133 && WHITE[7] == 160 && WHITE[8] == 5760 && WHITE[20] == 8232;
      assert WHITE[21] == 8233 && WHITE[22] == 8239 && WHITE[23] == 8287 && WHITE[24] == 12288;
    }
  }

  // ---- values -------------------------------------------------------------------------------

  /** A character as it is, or one after a backslash. */
  datatype Token = Plain(c: char) | Escaped(c: char)

  predicate IsToken(t: Token) {
    t.Plain? ==> t.c != '\\'
  }

  function Written(ts: seq<Token>): string {
    if ts == [] then "" else (if ts[0].Plain? then [ts[0].c] else ['\\', ts[0].c]) + Written(ts[1..])
  }

  function Meant(ts: seq<Token>): string {
    if ts == [] then "" else Stands(ts[0]) + Meant(ts[1..])
  }

  /** Line ends, equals signs and backslashes are meant by their escapes; any other escape means itself. */
  function Stands(t: Token): string {
    if t.Plain? then [t.c]
    else if t.c == 'n' then "\n"
    else if t.c == 'r' then "\r"
    else if t.c in "=\\" then [t.c]
    else ['\\', t.c]
  }

  /** A text of tokens reads as what they mean, and one backslash more is refused. */
  lemma {:induction false} TokensRead(ts: seq<Token>)
    requires forall i :: 0 <= i < |ts| ==> IsToken(ts[i])
    ensures Unescape(Written(ts)) == Some(Meant(ts)) && Unescape(Written(ts) + "\\") == None
  {
    hide Unescape;
    if ts == [] {
      assert Written(ts) + "\\" == "\\";
      LoneBackslash();
    } else {
      var head, rest := if ts[0].Plain? then [ts[0].c] else ['\\', ts[0].c], Written(ts[1..]);
      TokensRead(ts[1..]);
      assert Written(ts) == head + rest && Written(ts) + "\\" == head + (rest + "\\");
      FirstToken(ts[0], rest);
      FirstToken(ts[0], rest + "\\");
    }
  }

  lemma LoneBackslash()
    ensures Unescape("") == Some("") && Unescape("\\") == None
  {
  }

  lemma FirstToken(t: Token, rest: string)
    requires IsToken(t)
    ensures var head := if t.Plain? then [t.c] else ['\\', t.c];
            Unescape(head + rest) == if Unescape(rest).None? then None else Some(Stands(t) + Unescape(rest).value)
  {
    var head := if t.Plain? then [t.c] else ['\\', t.c];
    assert (head + rest)[|head|..] == rest;
  }

  /** Every text is tokens, with a backslash left over or not; so `TokensRead` says what any value is read as. */
  lemma {:induction false} EveryText(v: string) returns (ts: seq<Token>, left: string)
    ensures (forall i :: 0 <= i < |ts| ==> IsToken(ts[i])) && (left == "" || left == "\\") && v == Written(ts) + left
  {
    if v == "" || v == "\\" {
      ts, left := [], v;
    } else {
      var t := if v[0] != '\\' then Plain(v[0]) else Escaped(v[1]);
      var head := if t.Plain? then [t.c] else ['\\', t.c];
      var ts', left' := EveryText(v[|head|..]);
      ts, left := [t] + ts', left';
      assert ts[1..] == ts';
      assert v == head + v[|head|..];
      assert Written(ts) + left == head + (Written(ts') + left);
    }
  }

  // ---- the extension ------------------------------------------------------------------------

  lemma {:induction false} FirstKeyAfter(s: string, i: nat, k: nat)
    requires i <= k < |s| && forall j :: i <= j <= k ==> !KeyAt(s, j)
    ensures FindKeys(s, i) == [] || FindKeys(s, i)[0].start > k
    decreases |s| - i
  {
    hide KeyAt, KeyEnd;
    if i < k { FirstKeyAfter(s, i + 1, k); }
  }

  lemma {:induction false} FirstKeyIs(s: string, i: nat)
    ensures FindKeys(s, i) != [] ==> var k := FindKeys(s, i)[0].start; k < |s| && KeyAt(s, k)
    ensures FindKeys(s, i) == [] ==> forall j :: i <= j < |s| ==> !KeyAt(s, j)
    ensures FindKeys(s, i) != [] ==> forall j :: i <= j < FindKeys(s, i)[0].start ==> !KeyAt(s, j)
    decreases |s| - i
  {
    hide KeyAt, KeyEnd;
    if i < |s| && !KeyAt(s, i) { FirstKeyIs(s, i + 1); }
  }

  /** Whatever stands before the first key must be white space: anything else is refused wherever it stands. */
  lemma LeadingText(s: string, i: nat)
    requires i < |s| && NotWhite(s[i]) && forall j :: 0 <= j <= i ==> !KeyAt(s, j)
    ensures Extensions(s) == None
  {
    hide KeyAt, FindKeys, Values, IsSpace;
    SpacesAre(s[i]);
    FirstKeyAfter(s, 0, i);
  }

  /** Not white space. */
  predicate NotWhite(c: char) {
    c as int !in WHITE
  }

  /** A text of white space alone has no pairs. */
  lemma OnlySpaces(s: string)
    requires forall i :: 0 <= i < |s| ==> !NotWhite(s[i])
    ensures Extensions(s) == Some(map[])
  {
    hide FindKeys, IsSpace;
    forall i | 0 <= i < |s| ensures IsSpace(s[i]) { SpacesAre(s[i]); }
    assert FindKeys(s, 0) == [] by {
      FirstKeyIs(s, 0);
      if FindKeys(s, 0) != [] {
        var k := FindKeys(s, 0)[0].start;
        NoKeyOfSpaces(s, k);
      }
    }
  }

  lemma NoKeyOfSpaces(s: string, k: nat)
    requires k < |s| && IsSpace(s[k])
    ensures !KeyAt(s, k)
  {
  }

  // ---- what a datagram is counted as --------------------------------------------------------

  /** Plain syslog, text that is no text, and an event that cannot be read. */
  lemma NoEvent(datagram: Bytes, utf8: Bytes -> Option<string>, classify: Event -> N.Outcome, what: N.What)
    requires N.IsKind(what, Reading(datagram, utf8), classify)
    ensures (forall at: nat :: !MarkAt(datagram, at)) ==> what == N.NotCef
    ensures what == N.NotCef ==> forall at: nat :: !MarkAt(datagram, at)
    ensures !Reading(datagram, utf8).Cef? ==> N.ClassKey(Reading(datagram, utf8), classify) == None
    ensures Reading(datagram, utf8).Unparsed? ==> what == N.Unparsed
  {
    hide ReadEvent, TrimLineEnds;
    var at := FirstMark(datagram, 0);
    if at + |MARK| <= |datagram| { assert MarkAt(datagram, at); }
    forall i: nat | at + |MARK| > |datagram| ensures !MarkAt(datagram, i) { }
  }

  /** An event printed by the rules is counted by its class, or as unparsed if it repeats a key or has over 64. */
  lemma EventCounts(prefix: Bytes, encoded: Bytes, utf8: Bytes -> Option<string>, fields: seq<string>, ps: seq<Pair>,
                    ends: string, classify: Event -> N.Outcome, what: N.What)
    requires forall at: nat :: !MarkAt(prefix, at)
    requires utf8(encoded) == Some(PrintEvent(fields, ps, ends))
    requires |fields| == 6 && Printable(ps) && Ends(ends)
    requires N.IsKind(what, Reading(prefix + MARK + encoded, utf8), classify)
    ensures var parsed := Reading(prefix + MARK + encoded, utf8);
            var counted := N.ClassKey(parsed, classify);
            if !(|ps| <= 64 && Distinct(ps)) then what == N.Unparsed && counted == None
            else
              && parsed.Cef? && parsed.event.fields == fields
              && var outcome := classify(parsed.event);
              && (what == N.Raised || what == N.Full <==> outcome.Intrusion?)
              && (what == N.Other <==> outcome.OtherClass?)
              && (what == N.Mismatch <==> outcome.WrongAddress?)
              && (what == N.Unparsed <==> outcome.Invalid?)
              && (outcome.OtherClass? ==> counted == Some(outcome.key))
              && (outcome.Intrusion? ==>
                    var risk := outcome.ips.unknownRisk;
                    counted == if risk.Some? then Some("risk:" + risk.value) else None)
              && (outcome.WrongAddress? || outcome.Invalid? ==> counted == None)
  {
    hide Reading, PrintEvent, Printable, Distinct, Ends, MarkAt, IsMapOf, EndsIn;
    DatagramRoundTrip(prefix, encoded, utf8, fields, ps, ends);
  }
}
