/**
 Syslog datagrams that carry CEF (`openvibes-netlog/src/cef.rs`; the ArcSight Common Event
 Format): six header fields with `|` and `\` escaped, then `key=value` pairs with `=`, `\`
 and line ends escaped. What a producer prints by these rules is read back.
 */
module Cef {
  import opened Basics

  const MAX_KEYS: nat := 64

  datatype Pair = Pair(key: string, value: string)

  datatype Event = Event(fields: seq<string>, ext: map<string, string>)

  datatype Parsed = NotCef | Unparsed | Cef(event: Event)

  // ---- header fields ----------------------------------------------------------------------

  /** The fields up to the sixth unescaped bar, and what follows it. */
  function ReadFields(text: string, done: seq<string>, current: string): Option<(seq<string>, string)> {
    if text == [] then None
    else if text[0] == '\\' then
      if |text| == 1 then None
      else if text[1] == '|' || text[1] == '\\' then ReadFields(text[2..], done, current + [text[1]])
      else ReadFields(text[2..], done, current + ['\\', text[1]])
    else if text[0] == '|' then
      if |done| == 5 then Some((done + [current], text[1..])) else ReadFields(text[1..], done + [current], "")
    else ReadFields(text[1..], done, current + [text[0]])
  }

  /** The loop over the header's characters. */
  method SplitHeader(text: string) returns (r: Option<(seq<string>, string)>)
    ensures r == ReadFields(text, [], "")
  {
    var fields: seq<string>, current := [], "";
    var i := 0;
    while i < |text|
      invariant 0 <= i <= |text|
      invariant ReadFields(text, [], "") == ReadFields(text[i..], fields, current)
      decreases |text| - i
    {
      var c := text[i];
      i := i + 1;
      if c == '\\' {
        if i == |text| {
          return None;
        }
        var e := text[i];
        i := i + 1;
        if e == '|' || e == '\\' {
          current := current + [e];
        } else {
          current := current + ['\\', e];
        }
      } else if c == '|' {
        fields := fields + [current];
        current := "";
        if |fields| == 6 {
          return Some((fields, text[i..]));
        }
      } else {
        current := current + [c];
      }
    }
    return None;
  }

  // ---- values -----------------------------------------------------------------------------

  /** Decodes each escape once. Unknown escapes stay; a text that ends in an escape character is refused. */
  function Unescape(v: string): Option<string> {
    if v == [] then Some([])
    else if v[0] != '\\' then Prepend([v[0]], Unescape(v[1..]))
    else if |v| == 1 then None
    else Prepend(Decode(v[1]), Unescape(v[2..]))
  }

  function Decode(e: char): string {
    if e == 'n' then "\n" else if e == 'r' then "\r" else if e == '=' || e == '\\' then [e] else ['\\', e]
  }

  function Prepend(s: string, rest: Option<string>): Option<string> {
    if rest.None? then None else Some(s + rest.value)
  }

  method UnescapeValue(v: string) returns (r: Option<string>)
    ensures r == Unescape(v)
  {
    var out := "";
    var i := 0;
    PrependNothing(Unescape(v));
    while i < |v|
      invariant 0 <= i <= |v|
      invariant Unescape(v) == Prepend(out, Unescape(v[i..]))
      decreases |v| - i
    {
      ghost var rest := Unescape(v[i..]);
      ghost var before := out;
      if v[i] != '\\' {
        assert v[i..][1..] == v[i + 1..];
        out := out + [v[i]];
        i := i + 1;
      } else {
        if i + 1 == |v| {
          return None;
        }
        assert v[i..][2..] == v[i + 2..];
        out := out + Decode(v[i + 1]);
        i := i + 2;
      }
      PrependTwice(before, out[|before|..], Unescape(v[i..]));
    }
    assert out + [] == out;
    return Some(out);
  }

  lemma PrependNothing(rest: Option<string>)
    ensures Prepend("", rest) == rest
  {
    if rest.Some? { assert "" + rest.value == rest.value; }
  }

  lemma PrependTwice(a: string, b: string, rest: Option<string>)
    ensures Prepend(a, Prepend(b, rest)) == Prepend(a + b, rest)
  {
    if rest.Some? { assert a + (b + rest.value) == (a + b) + rest.value; }
  }

  function TrimEnd(s: string): string {
    if s != [] && s[|s| - 1] == ' ' then TrimEnd(s[..|s| - 1]) else s
  }

  // ---- the extension -------------------------------------------------------------------------

  predicate IsKeyChar(c: char) {
    'a' <= c <= 'z' || 'A' <= c <= 'Z' || '0' <= c <= '9' || c == '_'
  }

  /** Unicode white space, as Rust's `trim` takes it. */
  predicate IsSpace(c: char) {
    || '\t' <= c <= '\r' || c == ' ' || c == '\U{85}' || c == '\U{A0}' || c == '\U{1680}'
    || '\U{2000}' <= c <= '\U{200A}' || c == '\U{2028}' || c == '\U{2029}' || c == '\U{202F}' || c == '\U{205F}'
      || c == '\U{3000}'
  }

  datatype Span = Span(start: nat, eq: nat)

  /** Where a run of key characters starting at `i` ends. */
  function KeyEnd(s: string, i: nat): (j: nat)
    requires i <= |s|
    ensures i <= j <= |s|
    ensures forall k :: i <= k < j ==> IsKeyChar(s[k])
    ensures j < |s| ==> !IsKeyChar(s[j])
    decreases |s| - i
  {
    if i < |s| && IsKeyChar(s[i]) then KeyEnd(s, i + 1) else i
  }

  /** A key starts at `i`: at the start or after a space, and ended by an equals sign. */
  predicate KeyAt(s: string, i: nat)
    requires i < |s|
  {
    (i == 0 || s[i - 1] == ' ') && KeyEnd(s, i) > i && KeyEnd(s, i) < |s| && s[KeyEnd(s, i)] == '='
  }

  /** All keys from `i` on; after `msg` there are none. */
  function FindKeys(s: string, i: nat): (keys: seq<Span>)
    ensures forall k :: 0 <= k < |keys| ==> keys[k].start < keys[k].eq < |s|
    ensures forall k :: 0 <= k < |keys| ==> i <= keys[k].start
    ensures forall k :: 0 < k < |keys| ==> keys[k - 1].eq < keys[k].start
    decreases |s| - i
  {
    if i >= |s| then []
    else if KeyAt(s, i) then
      var j := KeyEnd(s, i);
      [Span(i, j)] + if s[i..j] == "msg" then [] else FindKeys(s, j + 1)
    else FindKeys(s, i + 1)
  }

  predicate Sensible(s: string, keys: seq<Span>) {
    && (forall k :: 0 <= k < |keys| ==> keys[k].start < keys[k].eq < |s|)
    && (forall k :: 0 < k < |keys| ==> keys[k - 1].eq < keys[k].start)
  }

  /** A value runs to the next key, or to the end. */
  function ValueEnd(s: string, keys: seq<Span>): nat
    requires keys != []
  {
    if |keys| > 1 then keys[1].start else |s|
  }

  /** The pairs of `keys` added to `ext`; a broken value or a repeated key is refused. */
  function Values(s: string, keys: seq<Span>, ext: map<string, string>): Option<map<string, string>>
    requires Sensible(s, keys)
  {
    if keys == [] then Some(ext)
    else
      var key := s[keys[0].start..keys[0].eq];
      var value := Unescape(TrimEnd(s[keys[0].eq + 1..ValueEnd(s, keys)]));
      if value.None? || key in ext then None else Values(s, keys[1..], ext[key := value.value])
  }

  function Extensions(s: string): Option<map<string, string>> {
    var keys := FindKeys(s, 0);
    var start := if keys == [] then |s| else keys[0].start;
    if |keys| > MAX_KEYS then None
    else if exists i :: 0 <= i < start && !IsSpace(s[i]) then None
    else Values(s, keys, map[])
  }

  /** The index loop that finds the keys; it gives up at the 65th. */
  method ScanKeys(s: string) returns (r: Option<seq<Span>>)
    ensures r == if |FindKeys(s, 0)| > MAX_KEYS then None else Some(FindKeys(s, 0))
  {
    hide KeyEnd, FindKeys, KeyAt;
    var keys: seq<Span> := [];
    var i := 0;
    assert FindKeys(s, 0) == [] + FindKeys(s, 0);
    while i < |s|
      invariant |keys| <= MAX_KEYS
      invariant FindKeys(s, 0) == keys + FindKeys(s, i)
      decreases |s| - i
    {
      if KeyAt(s, i) {
        var j := KeyEnd(s, i);
        FindKeysStep(s, i, keys);
        keys := keys + [Span(i, j)];
        if |keys| > MAX_KEYS {
          return None;
        }
        assert keys + [] == keys;
        if s[i..j] == "msg" {
          return Some(keys);
        }
        i := j + 1;
      } else {
        FindKeysStep(s, i, keys);
        i := i + 1;
      }
    }
    NoMoreKeys(s, i);
    assert keys + [] == keys;
    return Some(keys);
  }

  lemma FindKeysStep(s: string, i: nat, keys: seq<Span>)
    requires i < |s|
    ensures !KeyAt(s, i) ==> keys + FindKeys(s, i) == keys + FindKeys(s, i + 1)
    ensures KeyAt(s, i) ==> var j := KeyEnd(s, i); keys + FindKeys(s, i) == keys + [Span(i, j)] + (if s[i..j] == "msg"
            then [] else FindKeys(s, j + 1))
  {
    hide KeyEnd, KeyAt;
  }

  lemma NoMoreKeys(s: string, i: nat)
    requires i >= |s|
    ensures FindKeys(s, i) == []
  {
  }

  lemma ValuesStep(s: string, keys: seq<Span>, n: nat, ext: map<string, string>)
    requires n < |keys| && Sensible(s, keys)
    ensures Sensible(s, keys[n..]) && Sensible(s, keys[n + 1..])
    ensures Values(s, keys[n..], ext) ==
            var end := if n + 1 < |keys| then keys[n + 1].start else |s|;
            var key, value := s[keys[n].start..keys[n].eq], Unescape(TrimEnd(s[keys[n].eq + 1..end]));
            if value.None? || key in ext then None else Values(s, keys[n + 1..], ext[key := value.value])
  {
    hide Unescape, TrimEnd;
    assert keys[n..][1..] == keys[n + 1..];
  }

  method ReadExtensions(s: string) returns (r: Option<map<string, string>>)
    ensures r == Extensions(s)
  {
    hide FindKeys, Unescape, TrimEnd, IsSpace, Values;
    var scanned := ScanKeys(s);
    if scanned.None? {
      return None;
    }
    var keys := scanned.value;
    var start := if keys == [] then |s| else keys[0].start;
    if exists i :: 0 <= i < start && !IsSpace(s[i]) {
      return None;
    }
    var ext: map<string, string> := map[];
    assert keys[0..] == keys;
    for n := 0 to |keys|
      invariant Sensible(s, keys[n..]) && Values(s, keys, map[]) == Values(s, keys[n..], ext)
    {
      ValuesStep(s, keys, n, ext);
      var end := if n + 1 < |keys| then keys[n + 1].start else |s|;
      var key := s[keys[n].start..keys[n].eq];
      var value := UnescapeValue(TrimEnd(s[keys[n].eq + 1..end]));
      if value.None? || key in ext {
        return None;
      }
      ext := ext[key := value.value];
    }
    NoMoreValues(s, keys, ext);
    return Some(ext);
  }

  lemma NoMoreValues(s: string, keys: seq<Span>, ext: map<string, string>)
    ensures Sensible(s, keys[|keys|..]) && Values(s, keys[|keys|..], ext) == Some(ext)
  {
  }

  // ---- a datagram ------------------------------------------------------------------------------

  const MARK: Bytes := [67, 69, 70, 58, 48, 124]

  predicate MarkAt(datagram: Bytes, at: nat) {
    at + |MARK| <= |datagram| && datagram[at..at + |MARK|] == MARK
  }

  predicate IsLineEnd(c: char) {
    c == '\n' || c == '\r' || c == '\0'
  }

  function TrimLineEnds(s: string): string {
    if s != [] && IsLineEnd(s[|s| - 1]) then TrimLineEnds(s[..|s| - 1]) else s
  }

  /** The text after the mark. */
  function ReadEvent(text: string): Option<Event> {
    match ReadFields(text, [], "")
    case None => None
    case Some((fields, rest)) =>
      match Extensions(rest)
      case None => None
      case Some(ext) => Some(Event(fields, ext))
  }

  /** The first mark from `at` on, or a place too near the end for one. */
  function FirstMark(datagram: Bytes, at: nat): (mark: nat)
    ensures at <= mark && (mark + |MARK| <= |datagram| ==> MarkAt(datagram, mark))
    ensures forall i: nat :: at <= i < mark ==> !MarkAt(datagram, i)
    decreases |datagram| - at
  {
    if at + |MARK| > |datagram| || MarkAt(datagram, at) then at else FirstMark(datagram, at + 1)
  }

  function Reading(datagram: Bytes, utf8: Bytes -> Option<string>): Parsed {
    var at := FirstMark(datagram, 0);
    if at + |MARK| > |datagram| then NotCef
    else match utf8(datagram[at + |MARK|..])
      case None => Unparsed
      case Some(text) => match ReadEvent(TrimLineEnds(text)) case None => Unparsed case Some(event) => Cef(event)
  }

  /** What a datagram is; `utf8` decodes bytes as text. CEF starts at the first mark. */
  method Parse(datagram: Bytes, utf8: Bytes -> Option<string>) returns (parsed: Parsed)
    ensures parsed.NotCef? <==> forall at: nat :: !MarkAt(datagram, at)
    ensures forall at: nat :: MarkAt(datagram, at) && (forall before: nat :: before < at ==>
            !MarkAt(datagram, before)) ==>
              parsed == match utf8(datagram[at + |MARK|..])
                        case None => Unparsed
                        case Some(text) =>
                          match ReadEvent(TrimLineEnds(text))
                          case None => Unparsed
                          case Some(event) => Cef(event)
    ensures parsed == Reading(datagram, utf8)
  {
    hide ReadFields, Extensions;
    var at := 0;
    while at + |MARK| <= |datagram| && !MarkAt(datagram, at)
      invariant forall before: nat :: before < at ==> !MarkAt(datagram, before)
      invariant FirstMark(datagram, 0) == FirstMark(datagram, at)
      decreases |datagram| - at
    {
      at := at + 1;
    }
    if at + |MARK| > |datagram| {
      return NotCef;
    }
    match utf8(datagram[at + |MARK|..]) {
      case None => return Unparsed;
      case Some(raw) =>
        var text := TrimLineEnds(raw);
        var header := SplitHeader(text);
        if header.None? {
          return Unparsed;
        }
        var ext := ReadExtensions(header.value.1);
        if ext.None? {
          return Unparsed;
        }
        return Cef(Event(header.value.0, ext.value));
    }
  }
}
