/**
 Printing an event by the escaping rules of the Common Event Format and reading it with
 `openvibes-netlog/src/cef.rs` gives the event back: exactly so when no value ends in a space.
 */
module CefRoundTrip {
  import opened Basics
  import opened Cef

  // ---- printing -----------------------------------------------------------------------------

  function EscapeFieldChar(c: char): string {
    if c == '|' || c == '\\' then ['\\', c] else [c]
  }

  function EscapeField(f: string): string {
    if f == [] then [] else EscapeFieldChar(f[0]) + EscapeField(f[1..])
  }

  function PrintFields(fields: seq<string>): string {
    if fields == [] then [] else EscapeField(fields[0]) + "|" + PrintFields(fields[1..])
  }

  function EscapeChar(c: char): string {
    if c == '=' || c == '\\' then ['\\', c] else if c == '\n' then "\\n" else if c == '\r' then "\\r" else [c]
  }

  function Escape(v: string): string {
    if v == [] then [] else EscapeChar(v[0]) + Escape(v[1..])
  }

  function PrintPair(p: Pair): string {
    p.key + "=" + Escape(p.value)
  }

  function PrintPairs(ps: seq<Pair>): string {
    if ps == [] then [] else PrintPair(ps[0]) + if |ps| == 1 then [] else " " + PrintPairs(ps[1..])
  }

  predicate IsKey(key: string) {
    key != [] && forall i :: 0 <= i < |key| ==> IsKeyChar(key[i])
  }

  /** Keys as the format wants them, with `msg` only at the end. */
  predicate Printable(ps: seq<Pair>) {
    && (forall i :: 0 <= i < |ps| ==> IsKey(ps[i].key))
    && (forall i :: 0 <= i < |ps| - 1 ==> ps[i].key != "msg")
  }

  // ---- header ---------------------------------------------------------------------------------

  lemma FieldCharReads(c: char, tail: string, done: seq<string>, current: string)
    ensures ReadFields(EscapeFieldChar(c) + tail, done, current) == ReadFields(tail, done, current + [c])
  {
    var text := EscapeFieldChar(c) + tail;
    if c == '|' || c == '\\' {
      assert text[0] == '\\' && text[1] == c && text[2..] == tail;
    } else {
      assert text[0] == c && text[1..] == tail;
    }
  }

  lemma {:induction false} FieldReads(f: string, rest: string, done: seq<string>, current: string)
    ensures ReadFields(EscapeField(f) + rest, done, current) == ReadFields(rest, done, current + f)
  {
    hide ReadFields;
    if f == [] {
      assert EscapeField(f) + rest == rest && current + f == current;
    } else {
      var c, tail := f[0], EscapeField(f[1..]) + rest;
      assert EscapeField(f) + rest == EscapeFieldChar(c) + tail;
      FieldCharReads(c, tail, done, current);
      FieldReads(f[1..], rest, done, current + [c]);
      assert current + [c] + f[1..] == current + f;
    }
  }

  lemma {:induction false} HeaderReads(fields: seq<string>, rest: string, done: seq<string>)
    requires fields != [] && |done| + |fields| == 6
    ensures ReadFields(PrintFields(fields) + rest, done, "") == Some((done + fields, rest))
  {
    hide EscapeField;
    var f, others := fields[0], fields[1..];
    var tail := PrintFields(others) + rest;
    assert PrintFields(fields) + rest == EscapeField(f) + ("|" + tail);
    FieldReads(f, "|" + tail, done, "");
    assert "" + f == f && ("|" + tail)[1..] == tail;
    if others == [] {
      assert PrintFields(others) + rest == rest && done + [f] == done + fields;
    } else {
      HeaderReads(others, rest, done + [f]);
      assert done + [f] + others == done + fields;
    }
  }

  // ---- values ---------------------------------------------------------------------------------

  lemma {:induction false} UnescapeUndoesEscape(v: string)
    ensures Unescape(Escape(v)) == Some(v)
  {
    if v != [] {
      var c, tail := v[0], Escape(v[1..]);
      UnescapeUndoesEscape(v[1..]);
      var text := Escape(v);
      assert v == [c] + v[1..];
      if |EscapeChar(c)| == 2 {
        assert text[0] == '\\' && text[1] == EscapeChar(c)[1] && text[2..] == tail;
        assert Decode(text[1]) == [c];
      } else {
        assert text[0] == c && text[1..] == tail;
      }
    }
  }

  lemma {:induction false} EscapeAppends(v: string, c: char)
    ensures Escape(v + [c]) == Escape(v) + EscapeChar(c)
  {
    if v == [] {
      assert v + [c] == [c] && [c][1..] == [];
      assert Escape([c]) == EscapeChar(c) + Escape([]);
    } else {
      assert (v + [c])[1..] == v[1..] + [c];
      EscapeAppends(v[1..], c);
    }
  }

  /** Spaces are not escaped, so trimming the printed value trims the value. */
  lemma {:induction false} TrimsEscaped(v: string)
    ensures TrimEnd(Escape(v)) == Escape(TrimEnd(v))
  {
    hide Escape;
    if v != [] {
      var n := |v| - 1;
      assert v == v[..n] + [v[n]];
      EscapeAppends(v[..n], v[n]);
      var head, last := Escape(v[..n]), EscapeChar(v[n]);
      assert (head + last)[|head + last| - 1] == last[|last| - 1];
      if v[n] == ' ' {
        TrimsEscaped(v[..n]);
        assert (head + last)[..|head + last| - 1] == head;
      }
    } else {
      assert Escape([]) == [] by { EscapeNothing(); }
    }
  }

  lemma EscapeNothing()
    ensures Escape([]) == []
  {
  }

  lemma TrimsOneSpace(s: string)
    ensures TrimEnd(s + " ") == TrimEnd(s)
  {
    assert (s + " ")[..|s|] == s;
  }

  /** In a printed value every equals sign follows a backslash, and none starts it. */
  lemma {:induction false} EqualsIsEscaped(v: string, i: nat)
    requires i < |Escape(v)| && Escape(v)[i] == '='
    ensures i > 0 && Escape(v)[i - 1] == '\\'
  {
    var head := EscapeChar(v[0]);
    if i >= |head| {
      EqualsIsEscaped(v[1..], i - |head|);
    }
  }

  // ---- keys -------------------------------------------------------------------------------------

  /** Where the keys of printed pairs stand. */
  function Spans(at: nat, ps: seq<Pair>): seq<Span>
    decreases |ps|
  {
    if ps == [] then []
    else [Span(at, at + |ps[0].key|)] + Spans(at + |PrintPair(ps[0])| + 1, ps[1..])
  }

  lemma SpansStep(at: nat, ps: seq<Pair>)
    requires ps != []
    ensures var eq := at + |ps[0].key|; Spans(at, ps) == [Span(at, eq)] + Spans(eq + 2 + |Escape(ps[0].value)|, ps[1..])
    ensures |ps| == 1 ==> Spans(at, ps) == [Span(at, at + |ps[0].key|)]
  {
    hide Escape;
  }

  lemma KeyEndIs(s: string, i: nat, j: nat)
    requires i <= j <= |s| && (forall k :: i <= k < j ==> IsKeyChar(s[k])) && (j < |s| ==> !IsKeyChar(s[j]))
    ensures KeyEnd(s, i) == j
  {
  }

  /** A printed value, up to a space or the end, holds no key. */
  lemma NoKeyInValue(s: string, a: nat, v: string, i: nat)
    requires a + |Escape(v)| <= |s| && s[a..a + |Escape(v)|] == Escape(v)
    requires a + |Escape(v)| < |s| ==> s[a + |Escape(v)|] == ' '
    requires a <= i <= a + |Escape(v)| && i < |s|
    ensures !KeyAt(s, i)
  {
    hide KeyEnd, Escape;
    var text := Escape(v);
    var j := KeyEnd(s, i);
    if a <= j < a + |text| {
      assert s[j] == text[j - a];
      if text[j - a] == '=' {
        EqualsIsEscaped(v, j - a);
        assert s[j - 1] == text[j - a - 1];
      }
    }
  }

  lemma {:induction false} SkipsTo(s: string, i: nat, j: nat)
    requires i <= j <= |s| && forall k :: i <= k < j ==> !KeyAt(s, k)
    ensures FindKeys(s, i) == FindKeys(s, j)
    decreases j - i
  {
    if i < j { SkipsTo(s, i + 1, j); }
  }

  /** Printed pairs stand in `s` from `at` on, up to its end. */
  ghost predicate Stands(s: string, at: nat, ps: seq<Pair>)
    requires ps != []
    decreases |ps|
  {
    var eq := at + |ps[0].key|;
    var next := eq + 1 + |Escape(ps[0].value)|;
    && next <= |s| && s[at..eq] == ps[0].key && s[eq] == '=' && s[eq + 1..next] == Escape(ps[0].value)
    && if |ps| == 1 then next == |s| else next < |s| && s[next] == ' ' && Stands(s, next + 1, ps[1..])
  }

  lemma Parts(s: string, at: nat, key: string, text: string, rest: string)
    requires at <= |s| && s[at..] == key + "=" + text + rest
    ensures var eq := at + |key|;
            var next := eq + 1 + |text|;
            next <= |s| && s[at..eq] == key && s[eq] == '=' && s[eq + 1..next] == text && s[next..] == rest
  {
    var t, eq := s[at..], at + |key|;
    assert forall k :: at <= k < |s| ==> s[k] == t[k - at];
    assert t[|key| + 1..|key| + 1 + |text|] == text;
    assert s[eq + 1..eq + 1 + |text|] == t[|key| + 1..|key| + 1 + |text|];
  }

  /** What is printed after the first pair. */
  function Rest(ps: seq<Pair>): string
    requires ps != []
  {
    if |ps| == 1 then "" else " " + PrintPairs(ps[1..])
  }

  lemma PrintsFirst(ps: seq<Pair>)
    requires ps != []
    ensures PrintPairs(ps) == ps[0].key + "=" + Escape(ps[0].value) + Rest(ps)
  {
    hide Escape;
  }

  lemma AfterSpace(s: string, at: nat, rest: string)
    requires at <= |s| && s[at..] == " " + rest
    ensures at < |s| && s[at] == ' ' && s[at + 1..] == rest
  {
    assert s[at] == s[at..][0] && s[at + 1..] == s[at..][1..];
  }

  lemma FirstStands(s: string, at: nat, ps: seq<Pair>)
    requires ps != [] && at <= |s| && s[at..] == PrintPairs(ps)
    ensures var eq := at + |ps[0].key|;
            var next := eq + 1 + |Escape(ps[0].value)|;
            && next <= |s| && s[at..eq] == ps[0].key && s[eq] == '=' && s[eq + 1..next] == Escape(ps[0].value)
            && s[next..] == Rest(ps)
  {
    hide Escape, PrintPairs, Rest;
    PrintsFirst(ps);
    Parts(s, at, ps[0].key, Escape(ps[0].value), Rest(ps));
  }

  lemma StandsHere(s: string, at: nat, ps: seq<Pair>)
    requires ps != []
    requires var eq := at + |ps[0].key|;
             var next := eq + 1 + |Escape(ps[0].value)|;
             && next <= |s| && s[at..eq] == ps[0].key && s[eq] == '=' && s[eq + 1..next] == Escape(ps[0].value)
             && if |ps| == 1 then next == |s| else next < |s| && s[next] == ' ' && Stands(s, next + 1, ps[1..])
    ensures Stands(s, at, ps)
  {
    hide Escape;
  }

  lemma {:induction false} PrintedStands(s: string, at: nat, ps: seq<Pair>)
    requires ps != [] && at <= |s| && s[at..] == PrintPairs(ps)
    ensures Stands(s, at, ps)
    decreases |ps|
  {
    hide Escape, PrintPairs, Stands;
    FirstStands(s, at, ps);
    var next := at + |ps[0].key| + 1 + |Escape(ps[0].value)|;
    if |ps| > 1 {
      AfterSpace(s, next, PrintPairs(ps[1..]));
      PrintedStands(s, next + 1, ps[1..]);
    }
    StandsHere(s, at, ps);
  }

  /** Scanning printed pairs finds their keys and nothing else. */
  lemma {:induction false} ScanFindsKeys(s: string, at: nat, ps: seq<Pair>)
    requires ps != [] && Printable(ps) && Stands(s, at, ps) && (at == 0 || s[at - 1] == ' ')
    ensures FindKeys(s, at) == Spans(at, ps)
    decreases |ps|
  {
    hide FindKeys, Escape, IsKey, Spans;
    var eq := at + |ps[0].key|;
    var next := eq + 1 + |Escape(ps[0].value)|;
    KeyFound(s, at, ps[0].key);
    SkipsValue(s, eq + 1, ps[0].value);
    SpansStep(at, ps);
    if |ps| > 1 {
      PrintableTail(ps);
      ScanFindsKeys(s, next + 1, ps[1..]);
    }
  }

  lemma PrintableTail(ps: seq<Pair>)
    requires Printable(ps) && ps != []
    ensures Printable(ps[1..])
  {
    forall i | 0 <= i < |ps[1..]| - 1 ensures ps[1..][i].key != "msg" { assert ps[1..][i] == ps[i + 1]; }
  }

  /** A key that stands at `at` is found, and the scan goes on at its value. */
  lemma KeyFound(s: string, at: nat, key: string)
    requires at + |key| < |s| && s[at..at + |key|] == key && s[at + |key|] == '='
    requires IsKey(key) && (at == 0 || s[at - 1] == ' ')
    ensures FindKeys(s, at) == [Span(at, at + |key|)] + if key == "msg" then [] else FindKeys(s, at + |key| + 1)
  {
    hide KeyEnd, FindKeys;
    var eq := at + |key|;
    assert forall k :: at <= k < eq ==> s[k] == s[at..eq][k - at];
    KeyEndIs(s, at, eq);
    FindKeysStep(s, at, []);
    assert [] + FindKeys(s, at) == FindKeys(s, at);
    assert [] + [Span(at, eq)] == [Span(at, eq)];
  }

  lemma SkipsValue(s: string, a: nat, v: string)
    requires a + |Escape(v)| <= |s| && s[a..a + |Escape(v)|] == Escape(v)
    requires a + |Escape(v)| < |s| ==> s[a + |Escape(v)|] == ' '
    ensures a + |Escape(v)| < |s| ==> FindKeys(s, a) == FindKeys(s, a + |Escape(v)| + 1)
    ensures a + |Escape(v)| == |s| ==> FindKeys(s, a) == []
  {
    hide FindKeys, Escape, KeyAt;
    var b := a + |Escape(v)|;
    forall i | a <= i <= b && i < |s| ensures !KeyAt(s, i) { NoKeyInValue(s, a, v, i); }
    if b < |s| {
      SkipsTo(s, a, b + 1);
    } else {
      SkipsTo(s, a, b);
      NoMoreKeys(s, b);
    }
  }

  // ---- the extension --------------------------------------------------------------------------

  /** What reading should give: values without their trailing spaces, and no key twice. */
  function Expected(ps: seq<Pair>, ext: map<string, string>): Option<map<string, string>> {
    if ps == [] then Some(ext)
    else if ps[0].key in ext then None
    else Expected(ps[1..], ext[ps[0].key := TrimEnd(ps[0].value)])
  }

  /** One printed value, with the space before the next key, is read as the value trimmed. */
  lemma ValueReads(s: string, a: nat, end: nat, v: string)
    requires a + |Escape(v)| <= end <= |s| && s[a..a + |Escape(v)|] == Escape(v)
    requires end == a + |Escape(v)| || (end == a + |Escape(v)| + 1 && s[end - 1] == ' ')
    ensures Unescape(TrimEnd(s[a..end])) == Some(TrimEnd(v))
  {
    hide Escape, TrimEnd, Unescape;
    if end > a + |Escape(v)| { assert s[a..end] == Escape(v) + " "; }
    TrimsOneSpace(Escape(v));
    TrimsEscaped(v);
    UnescapeUndoesEscape(TrimEnd(v));
  }

  lemma {:induction false} ValuesRead(s: string, at: nat, ps: seq<Pair>, ext: map<string, string>)
    requires ps != [] && Stands(s, at, ps) && Sensible(s, Spans(at, ps))
    ensures Values(s, Spans(at, ps), ext) == Expected(ps, ext)
    decreases |ps|
  {
    hide Escape, TrimEnd, Unescape, Sensible, Spans, Values;
    var keys, q := Spans(at, ps), ps[0];
    var eq := at + |q.key|;
    var next := eq + 1 + |Escape(q.value)|;
    SpansStep(at, ps);
    if |ps| > 1 { SpansStep(next + 1, ps[1..]); }
    var end := if |ps| == 1 then next else next + 1;
    assert keys[1..] == Spans(next + 1, ps[1..]) && keys[0..] == keys;
    ValueReads(s, eq + 1, end, q.value);
    ValuesStep(s, keys, 0, ext);
    if |ps| > 1 {
      ValuesRead(s, next + 1, ps[1..], ext[q.key := TrimEnd(q.value)]);
    } else {
      NoMoreValues(s, keys, ext[q.key := TrimEnd(q.value)]);
    }
  }

  ghost predicate Distinct(ps: seq<Pair>) {
    forall i, j :: 0 <= i < j < |ps| ==> ps[i].key != ps[j].key
  }

  ghost predicate NoneIn(ps: seq<Pair>, ext: map<string, string>) {
    forall i :: 0 <= i < |ps| ==> ps[i].key !in ext
  }

  ghost function KeysOf(ps: seq<Pair>): set<string> {
    set i | 0 <= i < |ps| :: ps[i].key
  }

  /** `ext` maps the keys of `ps` to their values with trailing spaces gone, and holds nothing else but `before`. */
  ghost predicate Holds(ext: map<string, string>, ps: seq<Pair>, before: map<string, string>) {
    && ext.Keys == before.Keys + KeysOf(ps)
    && (forall i :: 0 <= i < |ps| ==> ps[i].key in ext && ext[ps[i].key] == TrimEnd(ps[i].value))
    && (forall k :: k in before && k in ext ==> ext[k] == before[k])
  }

  lemma {:induction false} ExpectedHolds(ps: seq<Pair>, ext: map<string, string>)
    ensures Expected(ps, ext).Some? <==> Distinct(ps) && NoneIn(ps, ext)
    ensures Expected(ps, ext).Some? ==> Holds(Expected(ps, ext).value, ps, ext)
  {
    hide TrimEnd;
    if ps == [] {
      assert KeysOf(ps) == {};
    } else {
      var rest, q := ps[1..], ps[0];
      assert ps == [q] + rest;
      if q.key !in ext {
        var more := ext[q.key := TrimEnd(q.value)];
        ExpectedHolds(rest, more);
        assert forall i :: 0 <= i < |rest| ==> rest[i] == ps[i + 1];
        TailDistinct(q, rest, ext);
        if Expected(ps, ext).Some? { OneMoreHolds(Expected(ps, ext).value, q, rest, ext); }
      }
    }
  }

  lemma TailDistinct(q: Pair, rest: seq<Pair>, ext: map<string, string>)
    requires q.key !in ext
    ensures Distinct([q] + rest) && NoneIn([q] + rest, ext) <==>
              Distinct(rest) && NoneIn(rest, ext[q.key := TrimEnd(q.value)])
  {
    hide TrimEnd;
    var ps, more := [q] + rest, ext[q.key := TrimEnd(q.value)];
    assert forall i :: 0 < i < |ps| ==> ps[i] == rest[i - 1];
    if Distinct(ps) && NoneIn(ps, ext) {
      forall i | 0 <= i < |rest| ensures rest[i].key !in more {
        assert ps[i + 1] == rest[i] && ps[0].key != ps[i + 1].key;
      }
      assert forall i :: 0 <= i < |rest| ==> rest[i] == ps[i + 1];
    }
    if Distinct(rest) && NoneIn(rest, more) {
      forall i, j | 0 <= i < j < |ps| ensures ps[i].key != ps[j].key {
        assert rest[j - 1].key !in more;
      }
    }
  }

  lemma OneMoreHolds(r: map<string, string>, q: Pair, rest: seq<Pair>, ext: map<string, string>)
    requires q.key !in ext && Holds(r, rest, ext[q.key := TrimEnd(q.value)])
    requires NoneIn(rest, ext[q.key := TrimEnd(q.value)])
    ensures Holds(r, [q] + rest, ext)
  {
    hide TrimEnd;
    var ps := [q] + rest;
    assert forall i :: 0 < i < |ps| ==> ps[i] == rest[i - 1];
    assert q.key in ext[q.key := TrimEnd(q.value)];
    assert KeysOf(ps) == {q.key} + KeysOf(rest) by {
      forall k | k in KeysOf(rest) ensures k in KeysOf(ps) {
        var i :| 0 <= i < |rest| && rest[i].key == k;
        assert ps[i + 1].key == k;
      }
      assert ps[0].key == q.key;
    }
  }

  /**
   Printed pairs are read back, values without trailing spaces, exactly when there are at most 64 of
   them and no key comes twice.
   */
  lemma PairsRead(ps: seq<Pair>)
    requires Printable(ps)
    ensures Extensions(PrintPairs(ps)).Some? <==> |ps| <= MAX_KEYS && Distinct(ps)
    ensures Extensions(PrintPairs(ps)).Some? ==> Holds(Extensions(PrintPairs(ps)).value, ps, map[])
  {
    hide FindKeys, Values, Expected, Holds, Distinct, Printable, PrintPairs, Stands, TrimEnd, Unescape;
    ExpectedHolds(ps, map[]);
    var s := PrintPairs(ps);
    if ps == [] {
      NothingPrinted();
    } else {
      assert s[0..] == s;
      PrintedStands(s, 0, ps);
      ScanFindsKeys(s, 0, ps);
      SpansFromStart(ps);
      assert Sensible(s, FindKeys(s, 0));
      ValuesRead(s, 0, ps, map[]);
    }
  }

  lemma NothingPrinted()
    ensures PrintPairs([]) == "" && Extensions("") == Expected([], map[]) == Some(map[])
  {
    assert FindKeys("", 0) == [];
    assert Values("", [], map[]) == Some(map[]);
  }

  lemma {:induction false} SpansCount(at: nat, ps: seq<Pair>)
    ensures |Spans(at, ps)| == |ps|
    decreases |ps|
  {
    if ps != [] { SpansCount(at + |PrintPair(ps[0])| + 1, ps[1..]); }
  }

  lemma SpansFromStart(ps: seq<Pair>)
    requires ps != []
    ensures |Spans(0, ps)| == |ps| && Spans(0, ps)[0].start == 0
  {
    SpansCount(0, ps);
  }

  // ---- line ends -------------------------------------------------------------------------------

  predicate Clean(s: string) {
    s == [] || !IsLineEnd(s[|s| - 1])
  }

  function TrimNul(v: string): string {
    if v != [] && v[|v| - 1] == '\0' then TrimNul(v[..|v| - 1]) else v
  }

  /** The pairs with the NULs at the very end gone. */
  function Cut(ps: seq<Pair>): seq<Pair> {
    if ps == [] then []
    else if |ps| == 1 then [Pair(ps[0].key, TrimNul(ps[0].value))]
    else [ps[0]] + Cut(ps[1..])
  }

  lemma StripsOne(s: string, c: char)
    requires IsLineEnd(c)
    ensures TrimLineEnds(s + [c]) == TrimLineEnds(s)
  {
    assert (s + [c])[..|s|] == s;
  }

  lemma {:induction false} StripsRun(s: string, ends: string)
    requires forall i :: 0 <= i < |ends| ==> IsLineEnd(ends[i])
    ensures TrimLineEnds(s + ends) == TrimLineEnds(s)
    decreases |ends|
  {
    hide TrimLineEnds;
    if ends == [] {
      assert s + ends == s;
    } else {
      var n := |ends| - 1;
      assert s + ends == (s + ends[..n]) + [ends[n]];
      StripsOne(s + ends[..n], ends[n]);
      StripsRun(s, ends[..n]);
    }
  }

  lemma {:induction false} StripsNuls(pre: string, v: string)
    ensures TrimLineEnds(pre + Escape(v)) == TrimLineEnds(pre + Escape(TrimNul(v)))
  {
    hide TrimLineEnds, Escape;
    if v != [] && v[|v| - 1] == '\0' {
      var u := v[..|v| - 1];
      assert v == u + ['\0'];
      EscapeAppends(u, '\0');
      assert pre + Escape(v) == (pre + Escape(u)) + ['\0'];
      StripsOne(pre + Escape(u), '\0');
      StripsNuls(pre, u);
    }
  }

  lemma LastOf(a: string, b: string)
    requires b != []
    ensures (a + b)[|a + b| - 1] == b[|b| - 1]
  {
  }

  lemma {:induction false} EscapedIsClean(v: string)
    requires v != [] && v[|v| - 1] != '\0'
    ensures Escape(v) != [] && Clean(Escape(v))
  {
    var head, tail := EscapeChar(v[0]), Escape(v[1..]);
    if |v| == 1 {
      assert head + tail == head;
    } else {
      EscapedIsClean(v[1..]);
      LastOf(head, tail);
    }
  }

  lemma {:induction false} TrimNulEnds(v: string)
    ensures TrimNul(v) == [] || TrimNul(v)[|TrimNul(v)| - 1] != '\0'
    ensures TrimNul(v) == v <==> v == [] || v[|v| - 1] != '\0'
    ensures TrimNul(v) != v ==> |TrimNul(v)| < |v|
  {
    if v != [] && v[|v| - 1] == '\0' { TrimNulEnds(v[..|v| - 1]); }
  }

  lemma Regroup(a: string, b: string, c: string, d: string)
    ensures a + (b + (c + d)) == (a + b + c) + d
  {
  }

  /** Stripping line ends from a text that ends in printed pairs cuts them, and leaves nothing more to strip. */
  lemma {:induction false} StripsPairs(pre: string, ps: seq<Pair>)
    requires Clean(pre)
    ensures TrimLineEnds(pre + PrintPairs(ps)) == TrimLineEnds(pre + PrintPairs(Cut(ps)))
    ensures Clean(pre + PrintPairs(Cut(ps)))
    decreases |ps|
  {
    hide TrimLineEnds, Escape, TrimNul;
    if ps == [] {
      assert pre + PrintPairs(ps) == pre;
    } else if |ps| == 1 {
      StripsPair(pre, ps[0]);
      PrintsOne(ps[0]);
      assert ps == [ps[0]];
      PrintsOne(Cut(ps)[0]);
    } else {
      var q, rest := ps[0], ps[1..];
      var further := pre + PrintPair(q) + " ";
      StripsPairs(further, rest);
      Regroup(pre, PrintPair(q), " ", PrintPairs(rest));
      Regroup(pre, PrintPair(q), " ", PrintPairs(Cut(rest)));
      assert Cut(ps)[1..] == Cut(rest);
    }
  }

  lemma PrintsOne(p: Pair)
    ensures PrintPairs([p]) == PrintPair(p)
  {
  }

  lemma StripsPair(pre: string, p: Pair)
    ensures var cut := Pair(p.key, TrimNul(p.value));
            TrimLineEnds(pre + PrintPair(p)) == TrimLineEnds(pre + PrintPair(cut)) && Clean(pre + PrintPair(cut))
  {
    hide TrimLineEnds, Escape, TrimNul;
    var head := pre + p.key + "=";
    StripsNuls(head, p.value);
    TrimNulEnds(p.value);
    if TrimNul(p.value) == [] {
      EscapeNothing();
      assert head + [] == head;
    } else {
      EscapedIsClean(TrimNul(p.value));
      LastOf(head, Escape(TrimNul(p.value)));
    }
    assert forall text: string :: pre + (p.key + "=" + text) == head + text;
  }

  // ---- events -----------------------------------------------------------------------------------

  lemma {:induction false} FieldsEndInBar(fields: seq<string>)
    requires fields != []
    ensures PrintFields(fields) != [] && PrintFields(fields)[|PrintFields(fields)| - 1] == '|'
  {
    hide EscapeField;
    if |fields| > 1 { FieldsEndInBar(fields[1..]); }
  }

  lemma {:induction false} CutKeeps(ps: seq<Pair>)
    ensures |Cut(ps)| == |ps|
    ensures forall i :: 0 <= i < |ps| - 1 ==> Cut(ps)[i] == ps[i]
    ensures ps != [] ==> var n := |ps| - 1; Cut(ps)[n] == Pair(ps[n].key, TrimNul(ps[n].value))
  {
    hide TrimNul;
    if |ps| > 1 { CutKeeps(ps[1..]); }
  }

  lemma CutStaysPrintable(ps: seq<Pair>)
    ensures Printable(Cut(ps)) <==> Printable(ps)
    ensures Distinct(Cut(ps)) <==> Distinct(ps)
  {
    hide Cut, IsKey;
    CutKeeps(ps);
    assert forall i :: 0 <= i < |ps| ==> Cut(ps)[i].key == ps[i].key;
  }

  /** An event printed with any line ends behind it. */
  function PrintEvent(fields: seq<string>, ps: seq<Pair>, ends: string): string {
    PrintFields(fields) + PrintPairs(ps) + ends
  }

  ghost predicate Ends(ends: string) {
    forall i :: 0 <= i < |ends| ==> IsLineEnd(ends[i])
  }

  lemma EventIsStripped(fields: seq<string>, ps: seq<Pair>, ends: string)
    requires |fields| == 6 && Ends(ends)
    ensures TrimLineEnds(PrintEvent(fields, ps, ends)) == PrintFields(fields) + PrintPairs(Cut(ps))
  {
    hide PrintFields, PrintPairs, Cut;
    var head := PrintFields(fields);
    FieldsEndInBar(fields);
    StripsRun(head + PrintPairs(ps), ends);
    StripsPairs(head, ps);
  }

  /** What a printed event reads as: the same six fields, and the pairs cut and trimmed. */
  lemma EventReads(fields: seq<string>, ps: seq<Pair>, ends: string)
    requires |fields| == 6 && Printable(ps) && Ends(ends)
    ensures var r := ReadEvent(TrimLineEnds(PrintEvent(fields, ps, ends)));
            && (r.Some? <==> |ps| <= MAX_KEYS && Distinct(ps))
            && (r.Some? ==> r.value.fields == fields && Holds(r.value.ext, Cut(ps), map[]))
  {
    hide ReadFields, Extensions, PrintFields, PrintPairs, Cut, Holds, Distinct, Printable, TrimLineEnds;
    EventIsStripped(fields, ps, ends);
    HeaderReads(fields, PrintPairs(Cut(ps)), []);
    assert [] + fields == fields;
    CutKeeps(ps);
    CutStaysPrintable(ps);
    PairsRead(Cut(ps));
  }

  /** `ext` maps exactly the keys of `ps` to their values. */
  ghost predicate IsMapOf(ext: map<string, string>, ps: seq<Pair>) {
    && ext.Keys == KeysOf(ps)
    && (forall i :: 0 <= i < |ps| ==> ps[i].key in ext && ext[ps[i].key] == ps[i].value)
  }

  predicate EndsIn(v: string, c: char) {
    v != [] && v[|v| - 1] == c
  }

  /** The round trip is exact if and only if no value ends in a space and the last does not end in NUL. */
  lemma RoundTrip(fields: seq<string>, ps: seq<Pair>, ends: string)
    requires |fields| == 6 && Printable(ps) && Ends(ends) && |ps| <= MAX_KEYS && Distinct(ps)
    ensures var r := ReadEvent(TrimLineEnds(PrintEvent(fields, ps, ends)));
            && r.Some? && r.value.fields == fields
            && (IsMapOf(r.value.ext, ps) <==>
                && (forall i :: 0 <= i < |ps| ==> !EndsIn(ps[i].value, ' '))
                && (ps != [] ==> !EndsIn(ps[|ps| - 1].value, '\0')))
  {
    hide ReadEvent, TrimLineEnds, PrintEvent, Distinct, Printable, Cut, Holds, IsMapOf, EndsIn;
    EventReads(fields, ps, ends);
    KeptExactly(ReadEvent(TrimLineEnds(PrintEvent(fields, ps, ends))).value.ext, ps);
  }

  /** No mark begins in what stands before it, since a mark holds its first byte only once. */
  lemma MarkIsFirst(prefix: Bytes, encoded: Bytes)
    requires forall at: nat :: !MarkAt(prefix, at)
    ensures FirstMark(prefix + MARK + encoded, 0) == |prefix|
    ensures (prefix + MARK + encoded)[|prefix| + |MARK|..] == encoded
  {
    hide FirstMark;
    var d, n := prefix + MARK + encoded, |prefix|;
    assert d[n..n + |MARK|] == MARK;
    forall i: nat | i < n ensures !MarkAt(d, i) {
      if i + |MARK| <= n {
        assert d[i..i + |MARK|] == prefix[i..i + |MARK|];
        assert !MarkAt(prefix, i);
      } else {
        assert d[n] == MARK[0];
        assert d[i..i + |MARK|][n - i] == d[n];
        assert MARK[n - i] != MARK[0];
      }
    }
    var first := FirstMark(d, 0);
    assert MarkAt(d, n);
    assert first >= n;
  }

  /**
   The round trip of a whole datagram through `Parse`: anything without a mark in front, the mark,
   and bytes that decode to the printed event.
   */
  lemma DatagramRoundTrip(prefix: Bytes, encoded: Bytes, utf8: Bytes -> Option<string>, fields: seq<string>,
                          ps: seq<Pair>, ends: string)
    requires forall at: nat :: !MarkAt(prefix, at)
    requires utf8(encoded) == Some(PrintEvent(fields, ps, ends))
    requires |fields| == 6 && Printable(ps) && Ends(ends)
    ensures var parsed := Reading(prefix + MARK + encoded, utf8);
            && (if |ps| <= MAX_KEYS && Distinct(ps) then parsed.Cef? else parsed.Unparsed?)
            && (parsed.Cef? ==>
                  && parsed.event.fields == fields
                  && (IsMapOf(parsed.event.ext, ps) <==>
                      && (forall i :: 0 <= i < |ps| ==> !EndsIn(ps[i].value, ' '))
                      && (ps != [] ==> !EndsIn(ps[|ps| - 1].value, '\0'))))
  {
    hide FirstMark, ReadEvent, TrimLineEnds, PrintEvent, Printable, Distinct, IsMapOf, EndsIn, Ends, MarkAt;
    MarkIsFirst(prefix, encoded);
    EventReads(fields, ps, ends);
    if |ps| <= MAX_KEYS && Distinct(ps) { RoundTrip(fields, ps, ends); }
  }

  lemma KeptExactly(ext: map<string, string>, ps: seq<Pair>)
    requires Holds(ext, Cut(ps), map[])
    ensures IsMapOf(ext, ps) <==>
            && (forall i :: 0 <= i < |ps| ==> !EndsIn(ps[i].value, ' '))
            && (ps != [] ==> !EndsIn(ps[|ps| - 1].value, '\0'))
  {
    hide Cut, TrimEnd, TrimNul, EndsIn, KeysOf;
    CutKeeps(ps);
    SameKeys(ps);
    forall i | 0 <= i < |ps|
      ensures ps[i].key in ext
      ensures ext[ps[i].key] == ps[i].value <==>
                !EndsIn(ps[i].value, ' ') && (i == |ps| - 1 ==> !EndsIn(ps[i].value, '\0'))
    {
      assert Cut(ps)[i].key == ps[i].key;
      ValueKept(ps[i].value, i == |ps| - 1);
    }
  }

  lemma SameKeys(ps: seq<Pair>)
    ensures KeysOf(Cut(ps)) == KeysOf(ps)
  {
    hide Cut;
    CutKeeps(ps);
    assert forall i :: 0 <= i < |ps| ==> Cut(ps)[i].key == ps[i].key;
    forall k | k in KeysOf(ps) ensures k in KeysOf(Cut(ps)) {
      var i :| 0 <= i < |ps| && ps[i].key == k;
      assert Cut(ps)[i].key == k;
    }
    forall k | k in KeysOf(Cut(ps)) ensures k in KeysOf(ps) {
      var i :| 0 <= i < |ps| && Cut(ps)[i].key == k;
      assert ps[i].key == k;
    }
  }

  lemma ValueKept(v: string, last: bool)
    ensures TrimEnd(if last then TrimNul(v) else v) == v <==> !EndsIn(v, ' ') && (last ==> !EndsIn(v, '\0'))
  {
    TrimNulEnds(v);
    TrimEndKeeps(v);
    TrimEndKeeps(TrimNul(v));
  }

  lemma {:induction false} TrimEndKeeps(v: string)
    ensures TrimEnd(v) == v <==> !EndsIn(v, ' ')
    ensures TrimEnd(v) != v ==> |TrimEnd(v)| < |v|
  {
    if EndsIn(v, ' ') { TrimEndKeeps(v[..|v| - 1]); }
  }
}
