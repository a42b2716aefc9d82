/**
 The licence expression of a package (`scripts/rpm-license.py`): the licences of all crates are
 joined with AND, flattened, and choices that another crate already decides are left out. What is
 printed means the same as all the inputs together.
 */
module Licence {
  import opened Basics

  // ---- tokens -------------------------------------------------------------------------------

  predicate IsParen(c: char) {
    c == '(' || c == ')'
  }

  /** White space as Python's regular expressions take it. */
  predicate IsSpace(c: char) {
    || '\t' <= c <= '\r' || '\U{1C}' <= c <= ' ' || c == '\U{85}' || c == '\U{A0}' || c == '\U{1680}'
    || '\U{2000}' <= c <= '\U{200A}' || c == '\U{2028}' || c == '\U{2029}' || c == '\U{202F}' || c == '\U{205F}'
      || c == '\U{3000}'
  }

  /** The white space of Python's regular expressions: Unicode's, and four separators of ASCII. */
  lemma SpacesAre(c: char)
    ensures IsSpace(c) <==>
            var n := c as int;
            || n in {9, 10, 11, 12, 13, 28, 29, 30, 31, 32, 133, 160, 5760, 8232, 8233, 8239, 8287, 12288}
            || 8192 <= n < 8192 + 11
  {
  }

  predicate IsBreak(c: char) {
    IsParen(c) || IsSpace(c)
  }

  function WordEnd(s: string): (k: nat)
    ensures k <= |s| && (forall i :: 0 <= i < k ==> !IsBreak(s[i])) && (k < |s| ==> IsBreak(s[k]))
  {
    if s == [] || IsBreak(s[0]) then 0 else WordEnd(s[1..]) + 1
  }

  /** Parentheses and words. */
  function Tokens(s: string): seq<string> {
    if s == [] then []
    else if IsParen(s[0]) then [[s[0]]] + Tokens(s[1..])
    else if IsSpace(s[0]) then Tokens(s[1..])
    else [s[..WordEnd(s)]] + Tokens(s[WordEnd(s)..])
  }

  lemma WordEndIs(s: string, k: nat)
    requires k <= |s| && (forall i :: 0 <= i < k ==> !IsBreak(s[i])) && (k < |s| ==> IsBreak(s[k]))
    ensures WordEnd(s) == k
  {
    hide IsBreak, WordEnd;
  }

  /** What stands left of a space or parenthesis is read apart from what stands right of it. */
  lemma {:induction false} TokensSplit(x: string, c: char, y: string)
    requires IsBreak(c)
    ensures Tokens(x + [c] + y) == Tokens(x) + (if IsParen(c) then [[c]] else []) + Tokens(y)
    decreases |x|
  {
    hide WordEnd, IsSpace;
    var s := x + [c] + y;
    if x == [] {
      assert s[0] == c && s[1..] == y;
      assert [] + Tokens(y) == Tokens(y);
    } else if IsBreak(x[0]) {
      assert s[1..] == x[1..] + [c] + y;
      TokensSplit(x[1..], c, y);
    } else {
      var k := WordEnd(x);
      FrontOf(x, c, y, k);
      WordEndIs(s, k);
      TokensSplit(x[k..], c, y);
    }
  }

  lemma FrontOf(x: string, c: char, y: string, k: nat)
    requires 0 < k <= |x|
    ensures var s := x + [c] + y; s[..k] == x[..k] && s[k..] == x[k..] + [c] + y && s[0] == x[0]
  {
  }

  // ---- trees ----------------------------------------------------------------------------------

  datatype Node = Atom(text: string) | And(items: seq<Node>) | Or(items: seq<Node>)

  type Valuation = string -> bool

  predicate Eval(n: Node, v: Valuation) {
    match n
    case Atom(text) => v(text)
    case And(items) => forall i :: 0 <= i < |items| ==> Eval(items[i], v)
    case Or(items) => exists i :: 0 <= i < |items| && Eval(items[i], v)
  }

  predicate AllTrue(ns: seq<Node>, v: Valuation) {
    forall i :: 0 <= i < |ns| ==> Eval(ns[i], v)
  }

  predicate AnyTrue(ns: seq<Node>, v: Valuation) {
    exists i :: 0 <= i < |ns| && Eval(ns[i], v)
  }

  function MakeAnd(ns: seq<Node>): Node {
    if |ns| == 1 then ns[0] else And(ns)
  }

  function MakeOr(ns: seq<Node>): Node {
    if |ns| == 1 then ns[0] else Or(ns)
  }

  /** What parsing makes: joined items are at least two. */
  predicate Shaped(n: Node) {
    n.Atom? || (|n.items| >= 2 && forall i :: 0 <= i < |n.items| ==> Shaped(n.items[i]))
  }

  predicate AllShaped(ns: seq<Node>) {
    forall i :: 0 <= i < |ns| ==> Shaped(ns[i])
  }

  // ---- parsing --------------------------------------------------------------------------------

  datatype Read<T> = Read(got: T, rest: seq<string>)

  predicate StartsWith(ts: seq<string>, t: string) {
    ts != [] && ts[0] == t
  }

  /** A licence, one with an exception, or an expression in parentheses; whatever closes it is taken. */
  function ReadAtom(ts: seq<string>): (r: Option<Read<Node>>)
    ensures r.Some? ==> |r.value.rest| < |ts| && Shaped(r.value.got)
    decreases |ts|, 0
  {
    if ts == [] then None
    else if ts[0] == "(" then
      match ReadAlts(ts[1..])
      case None => None
      case Some(Read(ns, rest)) => if rest == [] then None else Some(Read(MakeOr(ns), rest[1..]))
    else if StartsWith(ts[1..], "WITH") then
      if |ts| == 2 then None else Some(Read(Atom(ts[0] + " WITH " + ts[2]), ts[3..]))
    else Some(Read(Atom(ts[0]), ts[1..]))
  }

  /** Factors joined by AND. */
  function ReadFactors(ts: seq<string>): (r: Option<Read<seq<Node>>>)
    ensures r.Some? ==> |r.value.rest| < |ts| && r.value.got != [] && AllShaped(r.value.got)
    decreases |ts|, 1
  {
    match ReadAtom(ts)
    case None => None
    case Some(Read(n, rest)) => MoreFactors([n], rest)
  }

  /** The factors read so far, and those that follow an AND. */
  function MoreFactors(ns: seq<Node>, ts: seq<string>): (r: Option<Read<seq<Node>>>)
    ensures r.Some? ==> |r.value.rest| <= |ts| && |ns| <= |r.value.got| && (AllShaped(ns) ==> AllShaped(r.value.got))
    decreases |ts|, 2
  {
    if !StartsWith(ts, "AND") then Some(Read(ns, ts))
    else match ReadFactors(ts[1..])
      case None => None
      case Some(Read(ms, rest)) => Some(Read(ns + ms, rest))
  }

  /** Alternatives joined by OR. */
  function ReadAlts(ts: seq<string>): (r: Option<Read<seq<Node>>>)
    ensures r.Some? ==> |r.value.rest| < |ts| && r.value.got != [] && AllShaped(r.value.got)
    decreases |ts|, 3
  {
    match ReadFactors(ts)
    case None => None
    case Some(Read(ns, rest)) => MoreAlts([MakeAnd(ns)], rest)
  }

  function MoreAlts(ns: seq<Node>, ts: seq<string>): (r: Option<Read<seq<Node>>>)
    ensures r.Some? ==> |r.value.rest| <= |ts| && |ns| <= |r.value.got| && (AllShaped(ns) ==> AllShaped(r.value.got))
    decreases |ts|, 4
  {
    if !StartsWith(ts, "OR") then Some(Read(ns, ts))
    else match ReadAlts(ts[1..])
      case None => None
      case Some(Read(ms, rest)) => Some(Read(ns + ms, rest))
  }

  /** The tree of a token list; None where popping a token fails. Tokens left over are not looked at. */
  function Parse(ts: seq<string>): Option<Node> {
    match ReadAlts(ts)
    case None => None
    case Some(Read(ns, _)) => Some(MakeOr(ns))
  }

  function Behind(ns: seq<Node>, r: Option<Read<seq<Node>>>): Option<Read<seq<Node>>> {
    if r.None? then None else Some(Read(ns + r.value.got, r.value.rest))
  }

  lemma BehindTwice(a: seq<Node>, b: seq<Node>, r: Option<Read<seq<Node>>>)
    ensures Behind(a, Behind(b, r)) == Behind(a + b, r)
  {
    if r.Some? { assert a + (b + r.value.got) == a + b + r.value.got; }
  }

  lemma MoreFactorsBehind(ns: seq<Node>, ms: seq<Node>, ts: seq<string>)
    ensures MoreFactors(ns + ms, ts) == Behind(ns, MoreFactors(ms, ts))
  {
    if StartsWith(ts, "AND") { BehindTwice(ns, ms, ReadFactors(ts[1..])); }
  }

  lemma MoreAltsBehind(ns: seq<Node>, ms: seq<Node>, ts: seq<string>)
    ensures MoreAlts(ns + ms, ts) == Behind(ns, MoreAlts(ms, ts))
  {
    if StartsWith(ts, "OR") { BehindTwice(ns, ms, ReadAlts(ts[1..])); }
  }

  /** The parser: it pops tokens off its list. */
  class Parser {
    var tokens: seq<string>

    constructor (ts: seq<string>)
      ensures tokens == ts
    {
      tokens := ts;
    }

    method Alt() returns (r: Option<Node>)
      modifies this
      ensures match ReadAlts(old(tokens)) case None => r == None case Some(Read(ns, rest)) =>
                r == Some(MakeOr(ns)) && tokens == rest
      ensures r.Some? ==> |tokens| < |old(tokens)|
      decreases |tokens|, 2
    {
      hide ReadFactors, ReadAlts;
      ghost var all := tokens;
      ReadAltsIs(all);
      var first := Conj();
      if first.None? {
        return None;
      }
      var items := [first.value];
      while tokens != [] && tokens[0] == "OR"
        invariant items != [] && |tokens| < |all| && ReadAlts(all) == MoreAlts(items, tokens)
        decreases |tokens|
      {
        tokens := tokens[1..];
        ReadAltsIs(tokens);
        var next := Conj();
        if next.None? {
          return None;
        }
        MoreAltsBehind(items, [next.value], tokens);
        items := items + [next.value];
      }
      return Some(MakeOr(items));
    }

    method Conj() returns (r: Option<Node>)
      modifies this
      ensures match ReadFactors(old(tokens)) case None => r == None case Some(Read(ns, rest)) =>
                r == Some(MakeAnd(ns)) && tokens == rest
      ensures r.Some? ==> |tokens| < |old(tokens)|
      decreases |tokens|, 1
    {
      hide ReadFactors, ReadAtom;
      ghost var all := tokens;
      ReadFactorsIs(all);
      var first := AtomOrGroup();
      if first.None? {
        return None;
      }
      var items := [first.value];
      while tokens != [] && tokens[0] == "AND"
        invariant items != [] && |tokens| < |all| && ReadFactors(all) == MoreFactors(items, tokens)
        decreases |tokens|
      {
        tokens := tokens[1..];
        ReadFactorsIs(tokens);
        var next := AtomOrGroup();
        if next.None? {
          return None;
        }
        MoreFactorsBehind(items, [next.value], tokens);
        items := items + [next.value];
      }
      return Some(MakeAnd(items));
    }

    method AtomOrGroup() returns (r: Option<Node>)
      modifies this
      ensures match ReadAtom(old(tokens)) case None => r == None case Some(Read(n, rest)) =>
                r == Some(n) && tokens == rest
      ensures r.Some? ==> |tokens| < |old(tokens)|
      decreases |tokens|, 0
    {
      hide ReadAlts;
      if tokens == [] {
        return None;
      }
      var t := tokens[0];
      tokens := tokens[1..];
      if t == "(" {
        var node := Alt();
        if node.None? || tokens == [] {
          return None;
        }
        tokens := tokens[1..];
        return node;
      }
      if tokens != [] && tokens[0] == "WITH" {
        if |tokens| == 1 {
          return None;
        }
        t := t + " WITH " + tokens[1];
        tokens := tokens[2..];
      }
      return Some(Atom(t));
    }
  }

  lemma ReadAltsIs(ts: seq<string>)
    ensures ReadAlts(ts) ==
              match ReadFactors(ts) case None => None case Some(Read(ns, rest)) => MoreAlts([MakeAnd(ns)], rest)
  {
  }

  lemma ReadFactorsIs(ts: seq<string>)
    ensures ReadFactors(ts) == match ReadAtom(ts) case None => None case Some(Read(n, rest)) => MoreFactors([n], rest)
  {
  }

  // ---- reading on ---------------------------------------------------------------------------------

  lemma {:induction false} AtomReadsOn(ts: seq<string>, more: seq<string>)
    requires ReadAtom(ts).Some? && !StartsWith(more, "WITH")
    ensures var r := ReadAtom(ts).value; ReadAtom(ts + more) == Some(Read(r.got, r.rest + more))
    decreases |ts|, 0
  {
    hide ReadAlts;
    var all := ts + more;
    assert all[0] == ts[0] && all[1..] == ts[1..] + more;
    if ts[0] == "(" {
      AltsReadOn(ts[1..], more);
      var rest := ReadAlts(ts[1..]).value.rest;
      assert (rest + more)[1..] == rest[1..] + more;
    } else if StartsWith(ts[1..], "WITH") {
      assert all[1] == ts[1] && all[2] == ts[2] && all[3..] == ts[3..] + more;
    } else if |ts| == 1 {
      assert ts[1..] + more == more;
    } else {
      assert all[1] == ts[1];
    }
  }

  /** After all of `ts`, reading goes on with what follows; otherwise it stops where it did. */
  lemma {:induction false} FactorsReadOn(ts: seq<string>, more: seq<string>)
    requires ReadFactors(ts).Some? && !StartsWith(more, "WITH")
    ensures var r := ReadFactors(ts).value;
            ReadFactors(ts + more) == if r.rest == [] then MoreFactors(r.got, more)
              else Some(Read(r.got, r.rest + more))
    decreases |ts|, 1
  {
    hide ReadAtom, MoreFactors;
    var a := ReadAtom(ts).value;
    AtomReadsOn(ts, more);
    MoreFactorsReadOn([a.got], a.rest, more);
  }

  lemma {:induction false} MoreFactorsReadOn(ns: seq<Node>, ts: seq<string>, more: seq<string>)
    requires MoreFactors(ns, ts).Some? && !StartsWith(more, "WITH")
    ensures var r := MoreFactors(ns, ts).value;
            MoreFactors(ns, ts + more) == if r.rest == [] then MoreFactors(r.got, more)
              else Some(Read(r.got, r.rest + more))
    decreases |ts|, 2
  {
    hide ReadFactors;
    var all := ts + more;
    if ts == [] {
      assert all == more;
    } else {
      assert all[0] == ts[0] && all[1..] == ts[1..] + more;
      if ts[0] == "AND" {
        FactorsReadOn(ts[1..], more);
        MoreFactorsBehind(ns, ReadFactors(ts[1..]).value.got, more);
      }
    }
  }

  lemma {:induction false} AltsReadOn(ts: seq<string>, more: seq<string>)
    requires ReadAlts(ts).Some? && !StartsWith(more, "WITH") && (ReadAlts(ts).value.rest == [] ==>
             !StartsWith(more, "AND"))
    ensures var r := ReadAlts(ts).value;
            ReadAlts(ts + more) == if r.rest == [] then MoreAlts(r.got, more) else Some(Read(r.got, r.rest + more))
    decreases |ts|, 3
  {
    hide ReadFactors, MoreAlts;
    var f := ReadFactors(ts).value;
    FactorsReadOn(ts, more);
    assert f.rest == [] ==> MoreAlts([MakeAnd(f.got)], []) == Some(Read([MakeAnd(f.got)],
      [])) by { NoMoreAlts([MakeAnd(f.got)]); }
    if f.rest == [] {
      assert MoreFactors(f.got, more) == Some(Read(f.got, more));
    } else {
      MoreAltsReadOn([MakeAnd(f.got)], f.rest, more);
    }
  }

  lemma NoMoreAlts(ns: seq<Node>)
    ensures MoreAlts(ns, []) == Some(Read(ns, []))
  {
  }

  lemma {:induction false} MoreAltsReadOn(ns: seq<Node>, ts: seq<string>, more: seq<string>)
    requires MoreAlts(ns, ts).Some? && !StartsWith(more, "WITH")
             && (MoreAlts(ns, ts).value.rest == [] ==> !StartsWith(more, "AND"))
    ensures var r := MoreAlts(ns, ts).value;
            MoreAlts(ns, ts + more) == if r.rest == [] then MoreAlts(r.got, more) else Some(Read(r.got, r.rest + more))
    decreases |ts|, 4
  {
    hide ReadAlts;
    var all := ts + more;
    if ts == [] {
      assert all == more;
    } else {
      assert all[0] == ts[0] && all[1..] == ts[1..] + more;
      if ts[0] == "OR" {
        AltsReadOn(ts[1..], more);
        MoreAltsBehind(ns, ReadAlts(ts[1..]).value.got, more);
      }
    }
  }

  // ---- texts ------------------------------------------------------------------------------------

  lemma EvalMade(ns: seq<Node>, v: Valuation)
    requires ns != []
    ensures Eval(MakeAnd(ns), v) == AllTrue(ns, v)
    ensures Eval(MakeOr(ns), v) == AnyTrue(ns, v)
  {
  }

  /** The whole text is factors joined by AND. */
  predicate IsTerm(t: string) {
    ReadFactors(Tokens(t)).Some? && ReadFactors(Tokens(t)).value.rest == []
  }

  ghost function TermNodes(t: string): (ns: seq<Node>)
    requires IsTerm(t)
    ensures ns != []
  {
    ReadFactors(Tokens(t)).value.got
  }

  ghost predicate TermTrue(t: string, v: Valuation)
    requires IsTerm(t)
  {
    AllTrue(TermNodes(t), v)
  }

  /** The whole text is an expression. */
  predicate IsExpr(t: string) {
    ReadAlts(Tokens(t)).Some? && ReadAlts(Tokens(t)).value.rest == []
  }

  ghost function ExprNodes(t: string): (ns: seq<Node>)
    requires IsExpr(t)
    ensures ns != []
  {
    ReadAlts(Tokens(t)).value.got
  }

  /** What the text means: the value of its tree. */
  ghost predicate Means(t: string, v: Valuation)
    requires IsExpr(t)
  {
    Eval(Parse(Tokens(t)).value, v)
  }

  lemma MeansAny(t: string, v: Valuation)
    requires IsExpr(t)
    ensures Means(t, v) <==> AnyTrue(ExprNodes(t), v)
  {
    hide ReadAlts, Tokens;
    EvalMade(ExprNodes(t), v);
  }

  lemma TermIsExpr(t: string, v: Valuation)
    requires IsTerm(t)
    ensures IsExpr(t) && ExprNodes(t) == [MakeAnd(TermNodes(t))] && (Means(t, v) <==> TermTrue(t, v))
  {
    hide Tokens, ReadFactors, MoreAlts;
    ReadAltsIs(Tokens(t));
    NoMoreAlts([MakeAnd(TermNodes(t))]);
    EvalMade(TermNodes(t), v);
  }

  lemma OneAltIsTerm(t: string)
    requires IsExpr(t) && |ExprNodes(t)| == 1
    ensures IsTerm(t)
  {
    hide Tokens, ReadFactors;
    var f := ReadFactors(Tokens(t)).value;
    AnOrAddsAlts([MakeAnd(f.got)], f.rest);
  }

  lemma AnOrAddsAlts(ns: seq<Node>, ts: seq<string>)
    requires MoreAlts(ns, ts).Some?
    ensures StartsWith(ts, "OR") ==> |MoreAlts(ns, ts).value.got| > |ns|
    ensures !StartsWith(ts, "OR") ==> MoreAlts(ns, ts).value.rest == ts
  {
  }

  lemma WordTokens(w: string)
    requires w != [] && forall i :: 0 <= i < |w| ==> !IsBreak(w[i])
    ensures Tokens(w) == [w]
  {
    WordEndIs(w, |w|);
    assert w[..|w|] == w && w[|w|..] == [];
    assert !IsParen(w[0]) && !IsSpace(w[0]);
  }

  lemma TokensJoined(a: string, word: string, b: string)
    requires word != [] && forall i :: 0 <= i < |word| ==> !IsBreak(word[i])
    ensures Tokens(a + " " + word + " " + b) == Tokens(a) + ([word] + Tokens(b))
  {
    hide Tokens;
    assert IsBreak(' ') && !IsParen(' ');
    TokensSplit(a, ' ', word + [' '] + b);
    TokensSplit(word, ' ', b);
    WordTokens(word);
    Spaced(a, word, b);
    assert Tokens(a) + [] + ([word] + [] + Tokens(b)) == Tokens(a) + ([word] + Tokens(b));
  }

  lemma Spaced(a: string, word: string, b: string)
    ensures a + " " + word + " " + b == a + [' '] + (word + [' '] + b)
  {
  }

  function Join(parts: seq<string>, word: string): string {
    if parts == [] then "" else if |parts| == 1 then parts[0] else parts[0] + " " + word + " " + Join(parts[1..], word)
  }

  lemma AndJoins(a: string, b: string)
    requires IsTerm(a) && IsTerm(b)
    ensures IsTerm(a + " " + "AND" + " " + b) && TermNodes(a + " " + "AND" + " " + b) == TermNodes(a) + TermNodes(b)
  {
    hide Tokens, ReadFactors;
    TokensJoined(a, "AND", b);
    var more := ["AND"] + Tokens(b);
    assert more[1..] == Tokens(b);
    FactorsReadOn(Tokens(a), more);
  }

  lemma OrJoins(a: string, b: string)
    requires IsTerm(a) && IsExpr(b)
    ensures IsExpr(a + " " + "OR" + " " + b) && ExprNodes(a + " " + "OR" + " " + b) ==
              [MakeAnd(TermNodes(a))] + ExprNodes(b)
  {
    hide Tokens, ReadFactors, ReadAlts;
    TokensJoined(a, "OR", b);
    var more := ["OR"] + Tokens(b);
    assert more[1..] == Tokens(b);
    FactorsReadOn(Tokens(a), more);
    ReadAltsIs(Tokens(a) + more);
  }

  lemma {:induction false} JoinTerms(parts: seq<string>, v: Valuation)
    requires parts != [] && forall i :: 0 <= i < |parts| ==> IsTerm(parts[i])
    ensures IsTerm(Join(parts, "AND"))
    ensures TermTrue(Join(parts, "AND"), v) <==> forall i :: 0 <= i < |parts| ==> TermTrue(parts[i], v)
  {
    hide IsTerm, AllTrue;
    if |parts| > 1 {
      var rest := parts[1..];
      JoinTerms(rest, v);
      AndJoins(parts[0], Join(rest, "AND"));
      BothTrue(TermNodes(parts[0]), TermNodes(Join(rest, "AND")), v);
      assert forall i :: 0 < i < |parts| ==> parts[i] == rest[i - 1];
      assert forall i :: 0 <= i < |rest| ==> rest[i] == parts[i + 1];
    }
  }

  lemma BothTrue(a: seq<Node>, b: seq<Node>, v: Valuation)
    ensures AllTrue(a + b, v) <==> AllTrue(a, v) && AllTrue(b, v)
    ensures AnyTrue(a + b, v) <==> AnyTrue(a, v) || AnyTrue(b, v)
  {
    var ns := a + b;
    assert forall i :: 0 <= i < |a| ==> ns[i] == a[i];
    assert forall i :: 0 <= i < |b| ==> ns[|a| + i] == b[i];
  }

  lemma {:induction false} JoinAlts(parts: seq<string>, v: Valuation)
    requires parts != [] && forall i :: 0 <= i < |parts| ==> IsTerm(parts[i])
    ensures IsExpr(Join(parts, "OR"))
    ensures AnyTrue(ExprNodes(Join(parts, "OR")), v) <==> exists i :: 0 <= i < |parts| && TermTrue(parts[i], v)
  {
    hide IsTerm, IsExpr, AnyTrue, AllTrue;
    TermIsExpr(parts[0], v);
    EvalMade(TermNodes(parts[0]), v);
    OneTrue(MakeAnd(TermNodes(parts[0])), v);
    if |parts| > 1 {
      var rest := parts[1..];
      JoinAlts(rest, v);
      OrJoins(parts[0], Join(rest, "OR"));
      BothTrue([MakeAnd(TermNodes(parts[0]))], ExprNodes(Join(rest, "OR")), v);
      SomeOf(parts, rest, v);
    }
  }

  lemma OneTrue(n: Node, v: Valuation)
    ensures AnyTrue([n], v) <==> Eval(n, v)
    ensures AllTrue([n], v) <==> Eval(n, v)
  {
    assert [n][0] == n;
  }

  lemma SomeOf(parts: seq<string>, rest: seq<string>, v: Valuation)
    requires |parts| > 1 && rest == parts[1..] && forall i :: 0 <= i < |parts| ==> IsTerm(parts[i])
    ensures (exists i :: 0 <= i < |parts| && TermTrue(parts[i], v)) <==>
            TermTrue(parts[0], v) || exists i :: 0 <= i < |rest| && TermTrue(rest[i], v)
  {
    hide IsTerm, TermTrue;
    if i :| 0 <= i < |parts| && TermTrue(parts[i], v) { assert i > 0 ==> rest[i - 1] == parts[i]; }
    if i :| 0 <= i < |rest| && TermTrue(rest[i], v) { assert parts[i + 1] == rest[i]; }
  }

  function InParens(t: string): string {
    "(" + t + ")"
  }

  lemma ParensMakeTerm(t: string, v: Valuation)
    requires IsExpr(t)
    ensures IsTerm(InParens(t)) && (TermTrue(InParens(t), v) <==> Means(t, v))
  {
    hide Tokens, ReadAlts, AllTrue, AnyTrue;
    var ts := Tokens(t);
    TokensInParens(t);
    var all := ["("] + ts + [")"];
    assert all[1..] == ts + [")"];
    AltsReadOn(ts, [")"]);
    var ns := ExprNodes(t);
    assert ReadAlts(ts + [")"]) == Some(Read(ns, [")"]));
    assert ReadAtom(all) == Some(Read(MakeOr(ns), []));
    assert ReadFactors(all) == Some(Read([MakeOr(ns)], []));
    OneTrue(MakeOr(ns), v);
  }

  lemma TokensInParens(t: string)
    ensures Tokens(InParens(t)) == ["("] + Tokens(t) + [")"]
  {
    TokensSplit("", '(', t + ")");
    TokensSplit(t, ')', "");
    assert "" + ['('] + (t + ")") == InParens(t);
    assert t + [')'] + "" == t + ")";
    assert Tokens("") == [];
    assert [] + ["("] + (Tokens(t) + [")"] + []) == ["("] + Tokens(t) + [")"];
  }

  // ---- licence names -------------------------------------------------------------------------------

  /** A word that is not an operator. */
  predicate IsName(w: string) {
    w != [] && (forall i :: 0 <= i < |w| ==> !IsBreak(w[i])) && w != "AND" && w != "OR" && w != "WITH"
  }

  /** A licence, with an exception or without. */
  predicate IsLicence(t: string) {
    IsName(t) || exists k :: 0 <= k && k + 6 <= |t| && IsName(t[..k]) && t[k..k + 6] == " WITH " && IsName(t[k + 6..])
  }

  lemma LicenceIsTerm(t: string, v: Valuation)
    requires IsLicence(t)
    ensures IsTerm(t) && (TermTrue(t, v) <==> v(t))
  {
    hide Tokens, IsName, ReadAtom;
    if IsName(t) {
      NameReads(t);
    } else {
      var k :| 0 <= k && k + 6 <= |t| && IsName(t[..k]) && t[k..k + 6] == " WITH " && IsName(t[k + 6..]);
      Apart(t, k);
      ExceptionReads(t[..k], t[k + 6..]);
    }
    assert ReadFactors(Tokens(t)) == Some(Read([Atom(t)], []));
    OneTrue(Atom(t), v);
  }

  lemma Apart(t: string, k: nat)
    requires k + 6 <= |t| && t[k..k + 6] == " WITH "
    ensures t == t[..k] + " WITH " + t[k + 6..]
  {
    assert t == t[..k] + t[k..k + 6] + t[k + 6..];
  }

  lemma NameReads(w: string)
    requires IsName(w)
    ensures Tokens(w) == [w] && ReadAtom(Tokens(w)) == Some(Read(Atom(w), []))
  {
    hide Tokens, IsBreak, ReadAlts;
    WordTokens(w);
    NameIsNoParen(w);
    assert [w][1..] == [];
  }

  lemma ExceptionReads(w: string, x: string)
    requires IsName(w) && IsName(x)
    ensures ReadAtom(Tokens(w + " WITH " + x)) == Some(Read(Atom(w + " WITH " + x), []))
  {
    hide Tokens, IsBreak, ReadAlts, IsName;
    NoBreaks();
    TokensJoined(w, "WITH", x);
    NameReads(w);
    NameReads(x);
    NameIsNoParen(w);
    WithSpaces(w, x);
    var ts := [w] + (["WITH"] + [x]);
    assert ts == [w, "WITH", x] && ts[1..] == ["WITH", x] && ts[3..] == [];
  }

  lemma WithSpaces(w: string, x: string)
    ensures w + " " + "WITH" + " " + x == w + " WITH " + x
  {
    assert " " + "WITH" + " " == " WITH ";
    assert w + " " + "WITH" + " " == w + (" " + "WITH" + " ");
  }

  lemma NoBreaks()
    ensures forall i :: 0 <= i < |"WITH"| ==> !IsBreak("WITH"[i])
  {
  }

  lemma NameIsNoParen(w: string)
    requires IsName(w)
    ensures w != "("
  {
    assert !IsBreak(w[0]);
  }

  // ---- groups and rendering ---------------------------------------------------------------------------

  /** A required licence, or a choice between texts. */
  datatype Item = One(text: string) | Any(alts: seq<string>)

  /** How sets are listed: names sorted, and choices sorted by their text. */
  datatype Sorting = Sorting(names: set<string> -> seq<string>, choices: set<seq<string>> -> seq<seq<string>>)

  ghost predicate Lists(s: Sorting) {
    && (forall xs, x :: x in s.names(xs) <==> x in xs)
    && (forall os, o :: o in s.choices(os) <==> o in os)
  }

  function AsSet<T>(xs: seq<T>): set<T> {
    set x | x in xs
  }

  function ItemText(item: Item): string {
    match item
    case One(text) => text
    case Any(alts) => InParens(Join(alts, "OR"))
  }

  function ItemTexts(items: seq<Item>): set<string> {
    set item | item in items :: ItemText(item)
  }

  predicate AllAtoms(ns: seq<Node>) {
    forall i :: 0 <= i < |ns| ==> ns[i].Atom?
  }

  function AtomTexts(ns: seq<Node>): seq<string>
    requires AllAtoms(ns)
  {
    seq(|ns|, i requires 0 <= i < |ns| => ns[i].text)
  }

  /** The items of a tree that are all required; None where joining fails on an alternative that is no text. */
  function Groups(n: Node, s: Sorting): Option<seq<Item>>
    decreases n, 1, 0
  {
    match n
    case Atom(text) => Some([One(text)])
    case And(_) => GroupsFrom(n, 0, s)
    case Or(_) => match RenderFrom(n, 0, s) case None => None case Some(texts) => Some([Any(s.names(AsSet(texts)))])
  }

  function GroupsFrom(n: Node, k: nat, s: Sorting): Option<seq<Item>>
    requires n.And? && k <= |n.items|
    decreases n, 0, |n.items| - k
  {
    if k == |n.items| then Some([])
    else match Groups(n.items[k], s)
      case None => None
      case Some(first) => match GroupsFrom(n, k + 1, s) case None => None case Some(rest) => Some(first + rest)
  }

  function Render(n: Node, s: Sorting): Option<string>
    decreases n, 2, 0
  {
    match n
    case Atom(text) => Some(text)
    case And(_) => (match Groups(n, s) case None => None case Some(items) => Some(Join(s.names(ItemTexts(items)),
      "AND")))
    case Or(ns) => if AllAtoms(ns) then Some(InParens(Join(AtomTexts(ns), "OR"))) else None
  }

  function RenderFrom(n: Node, k: nat, s: Sorting): (r: Option<seq<string>>)
    requires n.Or? && k <= |n.items|
    ensures r.Some? ==> |r.value| == |n.items| - k
    decreases n, 0, |n.items| - k
  {
    if k == |n.items| then Some([])
    else match Render(n.items[k], s)
      case None => None
      case Some(first) => match RenderFrom(n, k + 1, s) case None => None case Some(rest) => Some([first] + rest)
  }

  // ---- when rendering fails -----------------------------------------------------------------------------

  /** No choice that is directly an alternative of a choice has an alternative that is not a plain licence. */
  predicate Flat(n: Node) {
    match n
    case Atom(_) => true
    case And(ns) => forall i :: 0 <= i < |ns| ==> Flat(ns[i])
    case Or(ns) => forall i :: 0 <= i < |ns| ==> Flat(ns[i]) && (ns[i].Or? ==> AllAtoms(ns[i].items))
  }

  lemma {:induction false} GroupsExactlyWhenFlat(n: Node, s: Sorting)
    ensures Groups(n, s).Some? <==> Flat(n)
    decreases n, 1, 0
  {
    match n
    case Atom(_) =>
    case And(ns) => GroupsFromWhenFlat(n, 0, s);
    case Or(ns) => RenderFromWhenFlat(n, 0, s);
  }

  lemma {:induction false} GroupsFromWhenFlat(n: Node, k: nat, s: Sorting)
    requires n.And? && k <= |n.items|
    ensures GroupsFrom(n, k, s).Some? <==> forall i :: k <= i < |n.items| ==> Flat(n.items[i])
    decreases n, 0, |n.items| - k
  {
    if k < |n.items| {
      GroupsExactlyWhenFlat(n.items[k], s);
      GroupsFromWhenFlat(n, k + 1, s);
    }
  }

  lemma {:induction false} RenderFromWhenFlat(n: Node, k: nat, s: Sorting)
    requires n.Or? && k <= |n.items|
    ensures RenderFrom(n, k, s).Some? <==> forall i ::
              k <= i < |n.items| ==> Flat(n.items[i]) && (n.items[i].Or? ==> AllAtoms(n.items[i].items))
    decreases n, 0, |n.items| - k
  {
    if k < |n.items| {
      RenderWhenFlat(n.items[k], s);
      RenderFromWhenFlat(n, k + 1, s);
    }
  }

  lemma {:induction false} RenderWhenFlat(n: Node, s: Sorting)
    ensures Render(n, s).Some? <==> Flat(n) && (n.Or? ==> AllAtoms(n.items))
    decreases n, 2, 0
  {
    if n.And? { GroupsExactlyWhenFlat(n, s); }
  }

  // ---- meaning is kept ------------------------------------------------------------------------------------

  /** Every licence in the tree has a proper name. */
  predicate Named(n: Node) {
    match n
    case Atom(text) => IsLicence(text)
    case _ => forall i :: 0 <= i < |n.items| ==> Named(n.items[i])
  }

  ghost predicate ItemOk(item: Item) {
    match item
    case One(text) => IsLicence(text)
    case Any(alts) => alts != [] && forall i :: 0 <= i < |alts| ==> IsTerm(alts[i])
  }

  ghost predicate ItemTrue(item: Item, v: Valuation)
    requires ItemOk(item)
  {
    match item
    case One(text) => v(text)
    case Any(alts) => exists i :: 0 <= i < |alts| && TermTrue(alts[i], v)
  }

  ghost predicate ItemsOk(items: seq<Item>) {
    forall i :: 0 <= i < |items| ==> ItemOk(items[i])
  }

  ghost predicate ItemsTrue(items: seq<Item>, v: Valuation)
    requires ItemsOk(items)
  {
    forall i :: 0 <= i < |items| ==> ItemTrue(items[i], v)
  }

  lemma ItemTextMeans(item: Item, v: Valuation)
    requires ItemOk(item)
    ensures IsTerm(ItemText(item)) && (TermTrue(ItemText(item), v) <==> ItemTrue(item, v))
  {
    hide IsTerm, IsExpr, IsLicence, AllTrue, AnyTrue;
    match item
    case One(text) => LicenceIsTerm(text, v);
    case Any(alts) =>
      JoinAlts(alts, v);
      MeansAny(Join(alts, "OR"), v);
      ParensMakeTerm(Join(alts, "OR"), v);
  }

  lemma TextsAreTerms(items: seq<Item>, texts: seq<string>, v: Valuation)
    requires ItemsOk(items) && items != [] && forall x :: x in texts <==> x in ItemTexts(items)
    ensures texts != [] && IsTerm(Join(texts, "AND")) && (TermTrue(Join(texts, "AND"), v) <==> ItemsTrue(items, v))
  {
    hide IsTerm, ItemOk, ItemTrue, TermTrue, ItemText;
    assert items[0] in items && ItemText(items[0]) in texts;
    forall i | 0 <= i < |texts| ensures IsTerm(texts[i]) {
      assert texts[i] in ItemTexts(items);
      var k :| 0 <= k < |items| && ItemText(items[k]) == texts[i];
      ItemTextMeans(items[k], v);
    }
    JoinTerms(texts, v);
    if ItemsTrue(items, v) {
      forall i | 0 <= i < |texts| ensures TermTrue(texts[i], v) {
        assert texts[i] in ItemTexts(items);
        var k :| 0 <= k < |items| && ItemText(items[k]) == texts[i];
        ItemTextMeans(items[k], v);
      }
    }
    if forall i :: 0 <= i < |texts| ==> TermTrue(texts[i], v) {
      forall k | 0 <= k < |items| ensures ItemTrue(items[k], v) {
        ItemTextMeans(items[k], v);
        assert items[k] in items && ItemText(items[k]) in texts;
      }
    }
  }

  /** Flattening keeps the meaning of a tree. */
  lemma {:induction false} GroupsMean(n: Node, s: Sorting, v: Valuation)
    requires Lists(s) && Shaped(n) && Named(n) && Groups(n, s).Some?
    ensures var items := Groups(n, s).value; items != [] && ItemsOk(items) && (ItemsTrue(items, v) <==> Eval(n, v))
    decreases n, 1, 0
  {
    hide IsLicence, IsTerm;
    match n
    case Atom(text) => OneItem(One(text), v);
    case And(ns) => GroupsFromMean(n, 0, s, v);
    case Or(ns) =>
      RenderFromMeans(n, 0, s, v);
      var texts := RenderFrom(n, 0, s).value;
      var alts := s.names(AsSet(texts));
      SameAlts(texts, alts, v);
      OneItem(Any(alts), v);
  }

  lemma OneItem(item: Item, v: Valuation)
    requires ItemOk(item)
    ensures ItemsOk([item]) && (ItemsTrue([item], v) <==> ItemTrue(item, v))
  {
    hide ItemOk, ItemTrue;
    assert [item][0] == item;
  }

  lemma SameAlts(texts: seq<string>, alts: seq<string>, v: Valuation)
    requires texts != [] && (forall i :: 0 <= i < |texts| ==> IsTerm(texts[i])) && forall x :: x in alts <==>
             x in AsSet(texts)
    ensures ItemOk(Any(alts)) && (ItemTrue(Any(alts), v) <==> exists i :: 0 <= i < |texts| && TermTrue(texts[i], v))
  {
    hide IsTerm, TermTrue;
    assert texts[0] in texts && texts[0] in alts;
    forall i | 0 <= i < |alts| ensures IsTerm(alts[i]) {
      assert alts[i] in AsSet(texts);
      var k :| 0 <= k < |texts| && texts[k] == alts[i];
    }
    if i :| 0 <= i < |texts| && TermTrue(texts[i], v) {
      assert texts[i] in alts;
      var k :| 0 <= k < |alts| && alts[k] == texts[i];
    }
    if i :| 0 <= i < |alts| && TermTrue(alts[i], v) {
      assert alts[i] in AsSet(texts);
      var k :| 0 <= k < |texts| && texts[k] == alts[i];
    }
  }

  lemma {:induction false} GroupsFromMean(n: Node, k: nat, s: Sorting, v: Valuation)
    requires Lists(s) && Shaped(n) && Named(n) && n.And? && k <= |n.items| && GroupsFrom(n, k, s).Some?
    ensures var items := GroupsFrom(n, k, s).value;
            && (k < |n.items| ==> items != []) && ItemsOk(items)
            && (ItemsTrue(items, v) <==> forall i :: k <= i < |n.items| ==> Eval(n.items[i], v))
    decreases n, 0, |n.items| - k
  {
    hide IsLicence, ItemOk, ItemTrue, Lists, Eval;
    if k < |n.items| {
      GroupsMean(n.items[k], s, v);
      GroupsFromMean(n, k + 1, s, v);
      BothItems(Groups(n.items[k], s).value, GroupsFrom(n, k + 1, s).value, v);
    }
  }

  lemma BothItems(a: seq<Item>, b: seq<Item>, v: Valuation)
    requires ItemsOk(a) && ItemsOk(b)
    ensures ItemsOk(a + b) && (ItemsTrue(a + b, v) <==> ItemsTrue(a, v) && ItemsTrue(b, v))
  {
    hide ItemOk, ItemTrue;
    var all := a + b;
    assert forall i :: 0 <= i < |a| ==> all[i] == a[i];
    assert forall i :: 0 <= i < |b| ==> all[|a| + i] == b[i];
  }

  lemma {:induction false} RenderFromMeans(n: Node, k: nat, s: Sorting, v: Valuation)
    requires Lists(s) && Shaped(n) && Named(n) && n.Or? && k <= |n.items| && RenderFrom(n, k, s).Some?
    ensures var texts := RenderFrom(n, k, s).value;
            && (forall i :: 0 <= i < |texts| ==> IsTerm(texts[i]))
            && ((exists i :: 0 <= i < |texts| && TermTrue(texts[i], v)) <==>
                exists i :: k <= i < |n.items| && Eval(n.items[i], v))
    decreases n, 0, |n.items| - k
  {
    hide IsLicence, IsTerm, TermTrue, Lists, Eval;
    if k < |n.items| {
      RenderMeans(n.items[k], s, v);
      RenderFromMeans(n, k + 1, s, v);
      FirstOrRest(Render(n.items[k], s).value, RenderFrom(n, k + 1, s).value, v);
    }
  }

  lemma FirstOrRest(first: string, rest: seq<string>, v: Valuation)
    requires IsTerm(first) && forall i :: 0 <= i < |rest| ==> IsTerm(rest[i])
    ensures var texts := [first] + rest;
            && (forall i :: 0 <= i < |texts| ==> IsTerm(texts[i]))
            && ((exists i :: 0 <= i < |texts| && TermTrue(texts[i], v)) <==>
                TermTrue(first, v) || exists i :: 0 <= i < |rest| && TermTrue(rest[i], v))
  {
    hide IsTerm, TermTrue;
    var texts := [first] + rest;
    assert texts[0] == first && forall i :: 0 < i < |texts| ==> texts[i] == rest[i - 1];
    if i :| 0 <= i < |rest| && TermTrue(rest[i], v) { assert texts[i + 1] == rest[i]; }
  }

  /** The text of a tree means what the tree means. */
  lemma {:induction false} RenderMeans(n: Node, s: Sorting, v: Valuation)
    requires Lists(s) && Shaped(n) && Named(n) && Render(n, s).Some?
    ensures IsTerm(Render(n, s).value) && (TermTrue(Render(n, s).value, v) <==> Eval(n, v))
    decreases n, 2, 0
  {
    hide IsTerm, IsExpr, IsLicence, AllTrue, AnyTrue;
    match n
    case Atom(text) => LicenceIsTerm(text, v);
    case And(ns) =>
      GroupsMean(n, s, v);
      var items := Groups(n, s).value;
      TextsAreTerms(items, s.names(ItemTexts(items)), v);
    case Or(ns) =>
      var texts := AtomTexts(ns);
      forall i | 0 <= i < |ns| ensures IsTerm(texts[i]) && (TermTrue(texts[i], v) <==> Eval(ns[i], v)) {
        assert Named(ns[i]);
        LicenceIsTerm(texts[i], v);
      }
      ItemTextMeans(Any(texts), v);
  }

  // ---- the whole expression ------------------------------------------------------------------------------

  /** The items of all inputs; None where reading one or flattening it fails. */
  function AllItems(inputs: seq<seq<string>>, s: Sorting): Option<seq<Item>> {
    if inputs == [] then Some([])
    else match Parse(inputs[0])
      case None => None
      case Some(n) =>
        match Groups(n, s)
        case None => None
        case Some(items) => match AllItems(inputs[1..], s) case None => None case Some(rest) => Some(items + rest)
  }

  function Names(items: seq<Item>): set<string> {
    set item | item in items && item.One? :: item.text
  }

  function Choices(items: seq<Item>): set<seq<string>> {
    set item | item in items && item.Any? :: item.alts
  }

  /** The choices that no required licence decides. */
  function OpenChoices(items: seq<Item>): set<seq<string>> {
    set o | o in Choices(items) && forall a :: a in o ==> a !in Names(items)
  }

  function ChoiceTexts(choices: seq<seq<string>>): seq<string> {
    seq(|choices|, i requires 0 <= i < |choices| => ItemText(Any(choices[i])))
  }

  function Parts(items: seq<Item>, s: Sorting): seq<string> {
    s.names(Names(items)) + ChoiceTexts(s.choices(OpenChoices(items)))
  }

  predicate Contains(t: string, sub: string) {
    exists i :: 0 <= i <= |t| && sub <= t[i..]
  }

  function ExtraText(e: string): string {
    if Contains(e, " OR ") then InParens(e) else e
  }

  /** Extras that are not already there, in parentheses if they hold an OR. */
  function ExtraParts(extras: seq<string>, parts: seq<string>): seq<string> {
    if extras == [] then []
    else (if extras[0] in parts then [] else [ExtraText(extras[0])]) + ExtraParts(extras[1..], parts)
  }

  function Combine(inputs: seq<seq<string>>, extras: seq<string>, s: Sorting): Option<string> {
    match AllItems(inputs, s)
    case None => None
    case Some(items) => Some(Join(Parts(items, s) + ExtraParts(extras, Parts(items, s)), "AND"))
  }

  ghost predicate InputOk(input: seq<string>) {
    Parse(input).Some? && Named(Parse(input).value) && Flat(Parse(input).value)
  }

  /** An expression; if its alternatives are not in parentheses, the OR between them stands between plain spaces. */
  ghost predicate ExtraOk(e: string) {
    IsExpr(e) && (|ExprNodes(e)| > 1 ==> Contains(e, " OR "))
  }

  lemma ParseIsShaped(ts: seq<string>)
    requires Parse(ts).Some?
    ensures Shaped(Parse(ts).value)
  {
    hide ReadAlts;
  }

  /** The script fails exactly when an input cannot be read, or nests a choice with a joined alternative in a choice. */
  lemma {:induction false} FailsExactlyWhen(inputs: seq<seq<string>>, extras: seq<string>, s: Sorting)
    ensures Combine(inputs, extras, s).Some? <==> forall i ::
              0 <= i < |inputs| ==> Parse(inputs[i]).Some? && Flat(Parse(inputs[i]).value)
    ensures AllItems(inputs, s).Some? <==> Combine(inputs, extras, s).Some?
    decreases |inputs|
  {
    hide Parse, Groups, Flat, Parts, ExtraParts;
    if inputs != [] {
      FailsExactlyWhen(inputs[1..], extras, s);
      if Parse(inputs[0]).Some? { GroupsExactlyWhenFlat(Parse(inputs[0]).value, s); }
      assert forall i :: 0 < i < |inputs| ==> inputs[i] == inputs[1..][i - 1];
      assert forall i :: 0 <= i < |inputs[1..]| ==> inputs[1..][i] == inputs[i + 1];
    }
  }

  ghost predicate InputsTrue(inputs: seq<seq<string>>, v: Valuation) {
    forall i :: 0 <= i < |inputs| ==> InputOk(inputs[i]) && Eval(Parse(inputs[i]).value, v)
  }

  lemma {:induction false} ItemsMean(inputs: seq<seq<string>>, s: Sorting, v: Valuation)
    requires Lists(s) && forall i :: 0 <= i < |inputs| ==> InputOk(inputs[i])
    ensures AllItems(inputs, s).Some?
    ensures var items := AllItems(inputs, s).value;
            ItemsOk(items) && (inputs != [] ==> items != []) && (ItemsTrue(items, v) <==> InputsTrue(inputs, v))
    decreases |inputs|
  {
    hide Parse, Groups, Lists, ItemOk, ItemTrue, Eval, Named, Shaped, Flat;
    if inputs != [] {
      var rest, n := inputs[1..], Parse(inputs[0]).value;
      assert InputOk(inputs[0]);
      assert forall i :: 0 <= i < |rest| ==> rest[i] == inputs[i + 1];
      assert forall i :: 0 < i < |inputs| ==> inputs[i] == rest[i - 1];
      ParseIsShaped(inputs[0]);
      GroupsExactlyWhenFlat(n, s);
      GroupsMean(n, s, v);
      ItemsMean(rest, s, v);
      BothItems(Groups(n, s).value, AllItems(rest, s).value, v);
    }
  }

  ghost predicate TermsTrue(parts: seq<string>, v: Valuation)
    requires forall i :: 0 <= i < |parts| ==> IsTerm(parts[i])
  {
    forall i :: 0 <= i < |parts| ==> TermTrue(parts[i], v)
  }

  /** A choice with an alternative that is required anyway says nothing new. */
  lemma DecidedChoice(items: seq<Item>, o: seq<string>, v: Valuation)
    requires ItemsOk(items) && o in Choices(items) && o !in OpenChoices(items)
    requires forall t :: t in Names(items) ==> v(t)
    ensures ItemOk(Any(o)) && ItemTrue(Any(o), v)
  {
    hide IsTerm, TermTrue, IsLicence;
    ChoiceOk(items, o);
    var a :| a in o && a in Names(items);
    NameOk(items, a);
    var i :| 0 <= i < |o| && o[i] == a;
    LicenceIsTerm(a, v);
  }

  lemma ChoiceOk(items: seq<Item>, o: seq<string>)
    requires ItemsOk(items) && o in Choices(items)
    ensures ItemOk(Any(o)) && Any(o) in items
  {
    hide ItemOk;
    var item :| item in items && item.Any? && item.alts == o;
    var i :| 0 <= i < |items| && items[i] == item;
  }

  lemma NameOk(items: seq<Item>, a: string)
    requires ItemsOk(items) && a in Names(items)
    ensures IsLicence(a) && One(a) in items
  {
    hide IsLicence, IsTerm;
    var item :| item in items && item.One? && item.text == a;
    var i :| 0 <= i < |items| && items[i] == item;
    assert ItemOk(items[i]);
  }

  lemma PartIsTerm(items: seq<Item>, s: Sorting, i: nat, v: Valuation)
    requires Lists(s) && ItemsOk(items) && i < |Parts(items, s)|
    ensures IsTerm(Parts(items, s)[i]) && (ItemsTrue(items, v) ==> TermTrue(Parts(items, s)[i], v))
  {
    hide IsTerm, TermTrue, IsLicence, ItemOk, ItemTrue, ItemText;
    var names, choices := s.names(Names(items)), s.choices(OpenChoices(items));
    var part := Parts(items, s)[i];
    var item := if i < |names| then One(part) else Any(choices[i - |names|]);
    if i < |names| {
      assert part == names[i] && part in names;
      NameOk(items, part);
    } else {
      var o := choices[i - |names|];
      assert part == ItemText(Any(o)) && o in choices;
      ChoiceOk(items, o);
    }
    assert item in items && part == ItemText(item) by { OneText(part); }
    var k :| 0 <= k < |items| && items[k] == item;
    ItemTextMeans(item, v);
  }

  lemma OneText(t: string)
    ensures ItemText(One(t)) == t
  {
  }

  lemma ItemFollows(items: seq<Item>, s: Sorting, k: nat, v: Valuation)
    requires Lists(s) && ItemsOk(items) && k < |items| && (forall i :: 0 <= i < |Parts(items, s)| ==>
             IsTerm(Parts(items, s)[i]))
    requires TermsTrue(Parts(items, s), v)
    ensures ItemTrue(items[k], v)
  {
    hide IsTerm, TermTrue, IsLicence, ItemOk, ItemTrue, ItemText;
    forall t | t in Names(items) ensures v(t) { NameFollows(items, s, t, v); }
    if items[k].One? {
      assert items[k].text in Names(items);
      OneTrueItem(items[k], v);
    } else {
      var o := items[k].alts;
      assert o in Choices(items);
      if o in OpenChoices(items) {
        ChoiceFollows(items, s, o, v);
      } else {
        DecidedChoice(items, o, v);
      }
    }
  }

  lemma OneTrueItem(item: Item, v: Valuation)
    requires ItemOk(item) && item.One?
    ensures ItemTrue(item, v) <==> v(item.text)
  {
  }

  lemma NameFollows(items: seq<Item>, s: Sorting, t: string, v: Valuation)
    requires Lists(s) && ItemsOk(items) && t in Names(items) && (forall i :: 0 <= i < |Parts(items, s)| ==>
             IsTerm(Parts(items, s)[i]))
    requires TermsTrue(Parts(items, s), v)
    ensures v(t)
  {
    hide IsTerm, TermTrue, IsLicence, ItemOk;
    var names := s.names(Names(items));
    assert t in names;
    var i :| 0 <= i < |names| && names[i] == t;
    assert Parts(items, s)[i] == t;
    NameOk(items, t);
    LicenceIsTerm(t, v);
  }

  lemma ChoiceFollows(items: seq<Item>, s: Sorting, o: seq<string>, v: Valuation)
    requires Lists(s) && ItemsOk(items) && o in OpenChoices(items)
             && (forall i :: 0 <= i < |Parts(items, s)| ==> IsTerm(Parts(items, s)[i]))
    requires TermsTrue(Parts(items, s), v)
    ensures ItemOk(Any(o)) && ItemTrue(Any(o), v)
  {
    hide IsTerm, TermTrue, IsLicence, ItemOk, ItemTrue, ItemText;
    var names, choices := s.names(Names(items)), s.choices(OpenChoices(items));
    assert o in choices;
    var i :| 0 <= i < |choices| && choices[i] == o;
    assert Parts(items, s)[|names| + i] == ItemText(Any(o));
    ChoiceOk(items, o);
    ItemTextMeans(Any(o), v);
  }

  /** The parts together mean what all items together mean, the choices left out included. */
  lemma PartsMean(items: seq<Item>, s: Sorting, v: Valuation)
    requires Lists(s) && ItemsOk(items)
    ensures (forall i :: 0 <= i < |Parts(items, s)| ==> IsTerm(Parts(items, s)[i]))
    ensures TermsTrue(Parts(items, s), v) <==> ItemsTrue(items, v)
  {
    hide Lists, IsTerm, TermTrue, ItemOk, ItemTrue, Parts;
    forall i | 0 <= i < |Parts(items, s)|
      ensures IsTerm(Parts(items, s)[i]) && (ItemsTrue(items, v) ==> TermTrue(Parts(items, s)[i], v))
    {
      PartIsTerm(items, s, i, v);
    }
    if TermsTrue(Parts(items, s), v) {
      forall k | 0 <= k < |items| ensures ItemTrue(items[k], v) { ItemFollows(items, s, k, v); }
    }
  }

  lemma ExtraMeans(e: string, v: Valuation)
    requires ExtraOk(e)
    ensures IsTerm(ExtraText(e)) && (TermTrue(ExtraText(e), v) <==> Means(e, v))
  {
    hide IsTerm, IsExpr, TermTrue, Means, Contains;
    if Contains(e, " OR ") {
      ParensMakeTerm(e, v);
    } else {
      OneAltIsTerm(e);
      TermIsExpr(e, v);
    }
  }

  ghost predicate ExtrasTrue(extras: seq<string>, v: Valuation) {
    forall i :: 0 <= i < |extras| ==> ExtraOk(extras[i]) && Means(extras[i], v)
  }

  lemma {:induction false} ExtrasMean(extras: seq<string>, parts: seq<string>, v: Valuation)
    requires forall i :: 0 <= i < |extras| ==> ExtraOk(extras[i])
    requires forall i :: 0 <= i < |parts| ==> IsTerm(parts[i])
    ensures forall i :: 0 <= i < |ExtraParts(extras, parts)| ==> IsTerm(ExtraParts(extras, parts)[i])
    ensures TermsTrue(parts, v) ==> (TermsTrue(ExtraParts(extras, parts), v) <==> ExtrasTrue(extras, v))
    decreases |extras|
  {
    hide IsTerm, TermTrue, ExtraOk, ExtraText, Means;
    if extras != [] {
      var e, rest := extras[0], extras[1..];
      assert forall i :: 0 <= i < |rest| ==> rest[i] == extras[i + 1];
      assert forall i :: 0 < i < |extras| ==> extras[i] == rest[i - 1];
      ExtrasMean(rest, parts, v);
      if e in parts {
        var k :| 0 <= k < |parts| && parts[k] == e;
        TermIsExpr(e, v);
        assert ExtraParts(extras, parts) == ExtraParts(rest, parts);
      } else {
        ExtraMeans(e, v);
        BothTerms([ExtraText(e)], ExtraParts(rest, parts), v);
        OneTerm(ExtraText(e), v);
      }
    }
  }

  lemma OneTerm(t: string, v: Valuation)
    requires IsTerm(t)
    ensures TermsTrue([t], v) <==> TermTrue(t, v)
  {
    hide IsTerm, TermTrue;
    assert [t][0] == t;
  }

  lemma BothTerms(a: seq<string>, b: seq<string>, v: Valuation)
    requires (forall i :: 0 <= i < |a| ==> IsTerm(a[i])) && forall i :: 0 <= i < |b| ==> IsTerm(b[i])
    ensures forall i :: 0 <= i < |a + b| ==> IsTerm((a + b)[i])
    ensures TermsTrue(a + b, v) <==> TermsTrue(a, v) && TermsTrue(b, v)
  {
    hide IsTerm, TermTrue;
    var all := a + b;
    assert forall i :: 0 <= i < |a| ==> all[i] == a[i];
    assert forall i :: 0 <= i < |b| ==> all[|a| + i] == b[i];
  }

  lemma PartsExist(items: seq<Item>, s: Sorting)
    requires Lists(s) && ItemsOk(items) && items != []
    ensures Parts(items, s) != []
  {
    hide ItemOk, ItemText;
    var item := items[0];
    assert item in items;
    if item.One? {
      assert item.text in Names(items);
      assert item.text in s.names(Names(items));
    } else {
      assert item.alts in Choices(items);
      if item.alts in OpenChoices(items) {
        assert item.alts in s.choices(OpenChoices(items));
      } else {
        var a :| a in item.alts && a in Names(items);
        assert a in s.names(Names(items));
      }
    }
  }

  /** Something is printed as soon as there is an input or an extra. */
  lemma SomePart(items: seq<Item>, extras: seq<string>, s: Sorting)
    requires Lists(s) && ItemsOk(items) && (items != [] || extras != [])
    ensures Parts(items, s) + ExtraParts(extras, Parts(items, s)) != []
  {
    hide ItemOk, Lists, Parts, ExtraText;
    if items != [] { PartsExist(items, s); }
  }

  /**
   Read again, the printed expression is true under a valuation of the licences exactly when all
   inputs and all extras are.
   */
  lemma MeaningIsKept(inputs: seq<seq<string>>, extras: seq<string>, s: Sorting, v: Valuation)
    requires Lists(s) && (forall i :: 0 <= i < |inputs| ==> InputOk(inputs[i])) && (inputs != [] || extras != [])
    requires forall i :: 0 <= i < |extras| ==> ExtraOk(extras[i])
    ensures Combine(inputs, extras, s).Some? && IsExpr(Combine(inputs, extras, s).value)
    ensures Means(Combine(inputs, extras, s).value, v) <==> InputsTrue(inputs, v) && ExtrasTrue(extras, v)
  {
    hide Lists, IsTerm, IsExpr, ItemsOk, ItemsTrue, InputOk, ExtraOk, Parts, ExtraParts, TermsTrue, InputsTrue,
      ExtrasTrue, Means, AllItems, TermTrue, Join;
    ItemsMean(inputs, s, v);
    var items := AllItems(inputs, s).value;
    SomePart(items, extras, s);
    PartsMean(items, s, v);
    var parts := Parts(items, s);
    ExtrasMean(extras, parts, v);
    var more := ExtraParts(extras, parts);
    BothTerms(parts, more, v);
    AllOfThem(parts + more, v);
    TermIsExpr(Join(parts + more, "AND"), v);
  }

  lemma AllOfThem(parts: seq<string>, v: Valuation)
    requires parts != [] && forall i :: 0 <= i < |parts| ==> IsTerm(parts[i])
    ensures IsTerm(Join(parts, "AND")) && (TermTrue(Join(parts, "AND"), v) <==> TermsTrue(parts, v))
  {
    hide IsTerm, TermTrue, Join;
    JoinTerms(parts, v);
  }

  // ---- extras of any kind ---------------------------------------------------------------------------------

  /** The alternatives of two expressions joined by AND: the last of one and the first of the other become one. */
  ghost predicate Merges(zs: seq<Node>, xs: seq<Node>, ys: seq<Node>, v: Valuation) {
    && xs != [] && ys != [] && |zs| == |xs| + |ys| - 1
    && zs[..|xs| - 1] == xs[..|xs| - 1] && zs[|xs|..] == ys[1..]
    && (Eval(zs[|xs| - 1], v) <==> Eval(xs[|xs| - 1], v) && Eval(ys[0], v))
  }

  lemma MergesHead(fs: seq<Node>, gs: seq<Node>, tail: seq<Node>, v: Valuation)
    requires fs != [] && gs != []
    ensures Merges([MakeAnd(fs + gs)] + tail, [MakeAnd(fs)], [MakeAnd(gs)] + tail, v)
  {
    hide AllTrue;
    var zs := [MakeAnd(fs + gs)] + tail;
    EvalMade(fs, v);
    EvalMade(gs, v);
    EvalMade(fs + gs, v);
    BothTrue(fs, gs, v);
    assert zs[..0] == [] && zs[1..] == tail && ([MakeAnd(gs)] + tail)[1..] == tail;
  }

  lemma MergesBehind(x: Node, zs: seq<Node>, xs: seq<Node>, ys: seq<Node>, v: Valuation)
    requires Merges(zs, xs, ys, v)
    ensures Merges([x] + zs, [x] + xs, ys, v)
  {
    var n := |xs|;
    assert ([x] + zs)[..n] == [x] + zs[..n - 1] && ([x] + xs)[..n] == [x] + xs[..n - 1];
    assert ([x] + zs)[n + 1..] == zs[n..] && ([x] + zs)[n] == zs[n - 1] && ([x] + xs)[n] == xs[n - 1];
  }

  lemma MoreAltsIs(ns: seq<Node>, ts: seq<string>)
    ensures MoreAlts(ns, ts) == if StartsWith(ts, "OR") then Behind(ns, ReadAlts(ts[1..])) else Some(Read(ns, ts))
  {
  }

  lemma {:induction false} AltsMerge(ts: seq<string>, us: seq<string>, v: Valuation)
    requires ReadAlts(ts).Some? && ReadAlts(ts).value.rest == [] && ReadAlts(us).Some? && ReadAlts(us).value.rest == []
    ensures var r := ReadAlts(ts + (["AND"] + us));
            r.Some? && r.value.rest == [] && Merges(r.value.got, ReadAlts(ts).value.got, ReadAlts(us).value.got, v)
    decreases |ts|
  {
    hide ReadFactors, ReadAlts, MoreAlts, Merges, Eval;
    var more := ["AND"] + us;
    assert more[1..] == us;
    ReadAltsIs(ts);
    ReadAltsIs(us);
    ReadAltsIs(ts + more);
    var f, g := ReadFactors(ts).value, ReadFactors(us).value;
    FactorsReadOn(ts, more);
    MoreAltsIs([MakeAnd(f.got)], f.rest);
    MoreAltsIs([MakeAnd(g.got)], g.rest);
    if f.rest == [] {
      assert ReadFactors(ts + more) == Some(Read(f.got + g.got, g.rest));
      MoreAltsIs([MakeAnd(f.got + g.got)], g.rest);
      var tail := if StartsWith(g.rest, "OR") then ReadAlts(g.rest[1..]).value.got else [];
      assert [MakeAnd(g.got)] + [] == [MakeAnd(g.got)] && [MakeAnd(f.got + g.got)] + [] == [MakeAnd(f.got + g.got)];
      MergesHead(f.got, g.got, tail, v);
    } else {
      assert StartsWith(f.rest, "OR");
      AltsMerge(f.rest[1..], us, v);
      assert (f.rest + more)[1..] == f.rest[1..] + more && (f.rest + more)[0] == f.rest[0];
      MoreAltsIs([MakeAnd(f.got)], f.rest + more);
      MergesBehind(MakeAnd(f.got), ReadAlts(f.rest[1..] + more).value.got, ReadAlts(f.rest[1..]).value.got,
        ReadAlts(us).value.got, v);
    }
  }

  /** The value of the first alternative, and whether a later one is true. */
  datatype Alternatives = Alternatives(first: bool, later: bool)

  ghost function ValuesOf(ns: seq<Node>, v: Valuation): Alternatives
    requires ns != []
  {
    Alternatives(Eval(ns[0], v), AnyTrue(ns[1..], v))
  }

  /** What texts joined by AND come to when their alternatives are not in parentheses. */
  ghost function Chain(parts: seq<string>, v: Valuation): Alternatives
    requires parts != [] && forall i :: 0 <= i < |parts| ==> IsExpr(parts[i])
  {
    var ns := ExprNodes(parts[0]);
    if |parts| == 1 then ValuesOf(ns, v)
    else ChainStep(ns, Chain(parts[1..], v), v)
  }

  ghost function ChainStep(ns: seq<Node>, next: Alternatives, v: Valuation): Alternatives
    requires ns != []
  {
    var k := |ns| - 1;
    if k == 0 then Alternatives(Eval(ns[0], v) && next.first, next.later)
    else Alternatives(Eval(ns[0], v), AnyTrue(ns[1..k], v) || (Eval(ns[k], v) && next.first) || next.later)
  }

  lemma MergedValues(zs: seq<Node>, xs: seq<Node>, ys: seq<Node>, v: Valuation)
    requires Merges(zs, xs, ys, v)
    ensures zs != [] && ValuesOf(zs, v) == ChainStep(xs, ValuesOf(ys, v), v)
  {
    hide Eval, AnyTrue;
    var k := |xs| - 1;
    if k == 0 {
      assert zs[1..] == ys[1..];
    } else {
      assert zs[0] == zs[..k][0] == xs[..k][0] == xs[0];
      assert zs[1..k] == zs[..k][1..] && xs[1..k] == xs[..k][1..];
      assert zs[1..] == zs[1..k] + ([zs[k]] + zs[k + 1..]);
      BothTrue(zs[1..k], [zs[k]] + zs[k + 1..], v);
      BothTrue([zs[k]], zs[k + 1..], v);
      OneTrue(zs[k], v);
    }
  }

  lemma ExprsJoin(a: string, b: string, v: Valuation)
    requires IsExpr(a) && IsExpr(b)
    ensures var t := a + " " + "AND" + " " + b;
            IsExpr(t) && ValuesOf(ExprNodes(t), v) == ChainStep(ExprNodes(a), ValuesOf(ExprNodes(b), v), v)
  {
    hide Tokens, ReadAlts, Merges, ValuesOf, ChainStep;
    TokensJoined(a, "AND", b);
    AltsMerge(Tokens(a), Tokens(b), v);
    MergedValues(ReadAlts(Tokens(a) + (["AND"] + Tokens(b))).value.got, ExprNodes(a), ExprNodes(b), v);
  }

  /** Exactly what any expressions joined by AND mean when read again. */
  lemma {:induction false} JoinedMeans(parts: seq<string>, v: Valuation)
    requires parts != [] && forall i :: 0 <= i < |parts| ==> IsExpr(parts[i])
    ensures IsExpr(Join(parts, "AND")) && ValuesOf(ExprNodes(Join(parts, "AND")), v) == Chain(parts, v)
    ensures Means(Join(parts, "AND"), v) <==> Chain(parts, v).first || Chain(parts, v).later
  {
    hide IsExpr, ValuesOf, ChainStep, Means;
    if |parts| > 1 {
      assert forall i :: 0 <= i < |parts[1..]| ==> parts[1..][i] == parts[i + 1];
      JoinedMeans(parts[1..], v);
      ExprsJoin(parts[0], Join(parts[1..], "AND"), v);
    }
    MeansValues(Join(parts, "AND"), v);
  }

  lemma MeansValues(t: string, v: Valuation)
    requires IsExpr(t)
    ensures Means(t, v) <==> ValuesOf(ExprNodes(t), v).first || ValuesOf(ExprNodes(t), v).later
  {
    hide IsExpr, Means, AnyTrue;
    var ns := ExprNodes(t);
    MeansAny(t, v);
    assert ns == [ns[0]] + ns[1..];
    BothTrue([ns[0]], ns[1..], v);
    OneTrue(ns[0], v);
  }

  lemma ExtraTextReads(e: string, v: Valuation)
    requires IsExpr(e)
    ensures IsExpr(ExtraText(e)) && (ExtraOk(e) ==> IsTerm(ExtraText(e))) && (!ExtraOk(e) ==> ExtraText(e) == e)
  {
    hide IsTerm, IsExpr, Contains;
    if Contains(e, " OR ") {
      ParensMakeTerm(e, v);
      TermIsExpr(ExtraText(e), v);
    } else if ExtraOk(e) {
      OneAltIsTerm(e);
    }
  }

  lemma {:induction false} ExtraPartsAreExprs(extras: seq<string>, parts: seq<string>, v: Valuation)
    requires forall i :: 0 <= i < |extras| ==> IsExpr(extras[i])
    ensures forall i :: 0 <= i < |ExtraParts(extras, parts)| ==> IsExpr(ExtraParts(extras, parts)[i])
  {
    hide IsExpr, ExtraText;
    if extras != [] {
      assert forall i :: 0 <= i < |extras[1..]| ==> extras[1..][i] == extras[i + 1];
      ExtraPartsAreExprs(extras[1..], parts, v);
      ExtraTextReads(extras[0], v);
    }
  }

  /**
   What is printed means for extras of any kind, exactly: the parts chained, with the choices left
   open joined as they stand.
   */
  lemma MeaningOfAnyExtras(inputs: seq<seq<string>>, extras: seq<string>, s: Sorting, v: Valuation)
    requires Lists(s) && (forall i :: 0 <= i < |inputs| ==> InputOk(inputs[i])) && (inputs != [] || extras != [])
    requires forall i :: 0 <= i < |extras| ==> IsExpr(extras[i])
    ensures AllItems(inputs, s).Some?
    ensures var parts := Parts(AllItems(inputs, s).value, s);
            var all := parts + ExtraParts(extras, parts);
            && all != [] && (forall i :: 0 <= i < |all| ==> IsExpr(all[i]))
            && Combine(inputs, extras, s).Some? && IsExpr(Combine(inputs, extras, s).value)
            && (Means(Combine(inputs, extras, s).value, v) <==> Chain(all, v).first || Chain(all, v).later)
  {
    hide Lists, IsTerm, IsExpr, ItemsOk, ItemsTrue, InputOk, Parts, ExtraParts, TermsTrue, InputsTrue, Means, AllItems,
      TermTrue, Join, Chain;
    ItemsMean(inputs, s, v);
    var items := AllItems(inputs, s).value;
    SomePart(items, extras, s);
    PartsMean(items, s, v);
    var parts := Parts(items, s);
    forall i | 0 <= i < |parts| ensures IsExpr(parts[i]) { TermIsExpr(parts[i], v); }
    ExtraPartsAreExprs(extras, parts, v);
    JoinedMeans(parts + ExtraParts(extras, parts), v);
  }

  /** Terms in front of one expression. */
  lemma {:induction false} TermsBeforeExpr(parts: seq<string>, e: string, v: Valuation)
    requires (forall i :: 0 <= i < |parts| ==> IsTerm(parts[i])) && IsExpr(e)
    ensures forall i :: 0 <= i < |parts + [e]| ==> IsExpr((parts + [e])[i])
    ensures Chain(parts + [e], v) ==
              Alternatives(TermsTrue(parts, v) && Eval(ExprNodes(e)[0], v), AnyTrue(ExprNodes(e)[1..], v))
  {
    hide IsTerm, IsExpr, AnyTrue, Eval, TermTrue;
    var all := parts + [e];
    forall i | 0 <= i < |all| ensures IsExpr(all[i]) {
      if i < |parts| { TermIsExpr(parts[i], v); }
    }
    if parts != [] {
      var rest := parts[1..];
      assert forall i :: 0 <= i < |rest| ==> rest[i] == parts[i + 1];
      assert forall i :: 0 < i < |parts| ==> parts[i] == rest[i - 1];
      assert all[1..] == rest + [e];
      TermsBeforeExpr(rest, e, v);
      TermIsExpr(parts[0], v);
      EvalMade(TermNodes(parts[0]), v);
      TermValue(parts[0], v);
    }
  }

  lemma TermValue(t: string, v: Valuation)
    requires IsTerm(t)
    ensures TermTrue(t, v) <==> Eval(MakeAnd(TermNodes(t)), v)
  {
    hide IsTerm;
    EvalMade(TermNodes(t), v);
  }

  function ExtraPart(e: string, parts: seq<string>): seq<string> {
    if e in parts then [] else [ExtraText(e)]
  }

  lemma ExtraPartsStep(e: string, rest: seq<string>, parts: seq<string>)
    ensures ExtraParts([e] + rest, parts) == ExtraPart(e, parts) + ExtraParts(rest, parts)
    ensures ExtraParts([], parts) == []
  {
    hide ExtraText;
    assert ([e] + rest)[1..] == rest;
  }

  lemma {:induction false} ExtraPartsAppend(extras: seq<string>, e: string, parts: seq<string>)
    ensures ExtraParts(extras + [e], parts) == ExtraParts(extras, parts) + ExtraPart(e, parts)
  {
    hide ExtraParts, ExtraPart;
    if extras == [] {
      ExtraPartsStep(e, [], parts);
      assert extras + [e] == [e] + [];
      assert [] + ExtraPart(e, parts) == ExtraPart(e, parts) + [];
    } else {
      var first, rest := extras[0], extras[1..];
      assert extras + [e] == [first] + (rest + [e]) && extras == [first] + rest;
      ExtraPartsStep(first, rest + [e], parts);
      ExtraPartsStep(first, rest, parts);
      ExtraPartsAppend(rest, e, parts);
      assert ExtraPart(first, parts) + (ExtraParts(rest, parts) + ExtraPart(e, parts)) ==
             ExtraPart(first, parts) + ExtraParts(rest, parts) + ExtraPart(e, parts);
    }
  }

  /**
   One more extra: what is printed keeps its value under a valuation if and only if the extra is
   of the kind that is put in parentheses or needs none, or all else is true, or none of its
   alternatives after the first is.
   */
  lemma KeptExactlyWhen(inputs: seq<seq<string>>, extras: seq<string>, e: string, s: Sorting, v: Valuation)
    requires Lists(s) && forall i :: 0 <= i < |inputs| ==> InputOk(inputs[i])
    requires (forall i :: 0 <= i < |extras| ==> ExtraOk(extras[i])) && IsExpr(e)
    ensures Combine(inputs, extras + [e], s).Some? && IsExpr(Combine(inputs, extras + [e], s).value)
    ensures (Means(Combine(inputs, extras + [e], s).value, v) <==>
              InputsTrue(inputs, v) && ExtrasTrue(extras, v) && Means(e, v)) <==>
            ExtraOk(e) || (InputsTrue(inputs, v) && ExtrasTrue(extras, v)) || !AnyTrue(ExprNodes(e)[1..], v)
  {
    hide Lists, IsTerm, IsExpr, ItemsOk, ItemsTrue, InputOk, Parts, ExtraParts, InputsTrue, TermsTrue, Means, AllItems,
      TermTrue, Join, ExtraText, AnyTrue;
    if ExtraOk(e) {
      var all := extras + [e];
      MeaningIsKept(inputs, all, s, v);
      LastExtra(extras, e, v);
    } else {
      ItemsMean(inputs, s, v);
      var items := AllItems(inputs, s).value;
      PartsMean(items, s, v);
      var parts := Parts(items, s);
      ExtrasMean(extras, parts, v);
      ExtraPartsAppend(extras, e, parts);
      NotAmongTerms(parts, e, v);
      ExtraTextReads(e, v);
      var front := parts + ExtraParts(extras, parts);
      BothTerms(parts, ExtraParts(extras, parts), v);
      TermsBeforeExpr(front, e, v);
      assert parts + (ExtraParts(extras, parts) + [e]) == front + [e];
      JoinedMeans(front + [e], v);
      MeansValues(e, v);
    }
  }

  lemma LastExtra(extras: seq<string>, e: string, v: Valuation)
    requires ExtraOk(e)
    ensures ExtrasTrue(extras + [e], v) <==> ExtrasTrue(extras, v) && Means(e, v)
  {
    hide ExtraOk, Means;
    var all := extras + [e];
    assert forall i :: 0 <= i < |extras| ==> all[i] == extras[i];
    assert all[|extras|] == e;
  }

  lemma NotAmongTerms(parts: seq<string>, e: string, v: Valuation)
    requires (forall i :: 0 <= i < |parts| ==> IsTerm(parts[i])) && IsExpr(e) && !ExtraOk(e)
    ensures e !in parts
  {
    hide IsTerm, Contains;
    if e in parts { TermIsExpr(e, v); }
  }

  // ---- an OR that is not seen ---------------------------------------------------------------------------

  const TABBED := "A OR\tB"

  lemma PlainName(w: string)
    requires w == "A" || w == "B" || w == "MIT" || w == "OR" || w == "AND"
    ensures Tokens(w) == [w]
  {
    WordTokens(w);
  }

  lemma TabbedTokens()
    ensures Tokens(TABBED) == ["A", "OR", "B"] && Tokens("MIT AND A OR\tB") == ["MIT", "AND", "A", "OR", "B"]
  {
    hide Tokens;
    PlainName("A");
    PlainName("B");
    PlainName("OR");
    PlainName("MIT");
    TokensSplit("OR", '\t', "B");
    TokensSplit("A", ' ', "OR\tB");
    assert "OR" + ['\t'] + "B" == "OR\tB" && "A" + [' '] + "OR\tB" == TABBED;
    TokensJoined("MIT", "AND", TABBED);
    assert "MIT" + " " + "AND" + " " + TABBED == "MIT AND A OR\tB";
  }

  lemma AtomHere(w: string, rest: seq<string>)
    requires w != "(" && !StartsWith(rest, "WITH")
    ensures ReadAtom([w] + rest) == Some(Read(Atom(w), rest))
    ensures ReadFactors([w] + rest) == MoreFactors([Atom(w)], rest)
  {
    hide ReadAlts;
    assert ([w] + rest)[1..] == rest;
  }

  lemma TabbedReads()
    ensures ReadAlts(["A", "OR", "B"]) == Some(Read([Atom("A"), Atom("B")], []))
    ensures ReadAlts(["MIT", "AND", "A", "OR", "B"]) == Some(Read([And([Atom("MIT"), Atom("A")]), Atom("B")], []))
  {
    hide ReadAtom, ReadFactors, ReadAlts;
    var b, orB := ["B"], ["OR", "B"];
    var ab, andAb := ["A", "OR", "B"], ["AND", "A", "OR", "B"];
    var all := ["MIT", "AND", "A", "OR", "B"];
    assert ["B"] + [] == b && ["A"] + orB == ab && ["MIT"] + andAb == all && orB[1..] == b && andAb[1..] == ab;
    AtomHere("B", []);
    AtomHere("A", orB);
    AtomHere("MIT", andAb);
    ReadAltsIs(b);
    ReadAltsIs(ab);
    ReadAltsIs(all);
    assert ReadAlts(b) == Some(Read([Atom("B")], []));
    assert [Atom("MIT")] + [Atom("A")] == [Atom("MIT"), Atom("A")];
    assert ReadFactors(all) == Some(Read([Atom("MIT"), Atom("A")], orB));
    var both := And([Atom("MIT"), Atom("A")]);
    assert [Atom("A")] + [Atom("B")] == [Atom("A"), Atom("B")] && [both] + [Atom("B")] == [both, Atom("B")];
    assert MoreAlts([Atom("A")], orB) == Some(Read([Atom("A"), Atom("B")], []));
    assert MoreAlts([both], orB) == Some(Read([both, Atom("B")], []));
  }

  lemma NoSpacedOr()
    ensures !Contains(TABBED, " OR ")
  {
    forall i | 0 <= i <= |TABBED| ensures !(" OR " <= TABBED[i..]) {
      var t := TABBED[i..];
      assert |t| >= 4 ==> t[0] == TABBED[i] && t[3] == TABBED[i + 3];
      assert " OR "[0] == ' ' && " OR "[3] == ' ';
    }
  }

  /** An extra whose OR stands next to a tab is taken without parentheses, and the result means something else. */
  lemma TabHidesAnOr(s: Sorting, v: Valuation)
    requires Lists(s) && s.names({"MIT"}) == ["MIT"] && !v("MIT") && v("B")
    ensures InputOk(["MIT"]) && !InputsTrue([["MIT"]], v)
    ensures IsExpr(TABBED) && !ExtraOk(TABBED)
    ensures Combine([["MIT"]], [TABBED], s) == Some("MIT AND A OR\tB") && IsExpr("MIT AND A OR\tB")
            && Means("MIT AND A OR\tB", v)
  {
    hide Tokens, ReadAlts, Contains;
    TabbedTokens();
    TabbedReads();
    NoSpacedOr();
    MitReads();
    TabCombined(s);
    var ns := [And([Atom("MIT"), Atom("A")]), Atom("B")];
    assert ns[1] == Atom("B") && Eval(ns[1], v);
    MeansAny("MIT AND A OR\tB", v);
    assert [["MIT"]][0] == ["MIT"];
  }

  lemma MitReads()
    ensures Parse(["MIT"]) == Some(Atom("MIT")) && IsLicence("MIT")
  {
    hide ReadAtom, ReadFactors;
    var ts := ["MIT"];
    assert ts == ["MIT"] + [];
    AtomHere("MIT", []);
    ReadAltsIs(ts);
    assert "MIT"[0] == 'M' && "AND"[0] == 'A';
    assert IsName("MIT");
  }

  lemma TabCombined(s: Sorting)
    requires Lists(s) && s.names({"MIT"}) == ["MIT"]
    ensures Combine([["MIT"]], [TABBED], s) == Some("MIT AND A OR\tB")
  {
    hide Parse, Contains;
    MitReads();
    NoSpacedOr();
    var inputs, items := [["MIT"]], [One("MIT")];
    assert inputs[1..] == [] && AllItems([], s) == Some([]) && items + [] == items;
    assert AllItems(inputs, s) == Some(items);
    assert items[0] in items;
    assert Names(items) == {"MIT"} && OpenChoices(items) == {};
    NothingListed(s.choices({}));
    assert Parts(items, s) == ["MIT"];
    assert [TABBED][1..] == [] && ExtraParts([TABBED], ["MIT"]) == [TABBED];
    assert ["MIT"] + [TABBED] == ["MIT", TABBED];
    JoinsTwo("MIT", TABBED);
    assert "MIT" + " " + "AND" + " " + TABBED == "MIT AND A OR\tB";
  }

  lemma NothingListed(os: seq<seq<string>>)
    requires forall o :: o !in os
    ensures os == []
  {
    FirstIsListed(os);
  }

  lemma FirstIsListed(os: seq<seq<string>>)
    ensures os == [] || os[0] in os
  {
  }

  lemma JoinsTwo(a: string, b: string)
    ensures Join([a, b], "AND") == a + " " + "AND" + " " + b
  {
    assert [a, b][1..] == [b];
  }
}
