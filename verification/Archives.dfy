/**
 Which archives a feed is taken from (`octal`, `blob_name` and `unpack_tar` of
 `openvibes-vulns/src/bundle.rs`), said of the bytes alone: what a header block must hold, how files follow
 one another, and what may come after them. The reader accepts exactly these, and takes exactly their files.
 */
module Archives {
  import opened Basics
  import opened FeedLimits
  import opened TarFormat
  import R = TarReader

  // ---- numbers in a header ------------------------------------------------------------------

  /** The field is octal digits, a plus sign before them or not, up to its end, a NUL or a space; none at all is 0. */
  ghost predicate Writes(field: Bytes, plus: bool, digits: Bytes, rest: Bytes) {
    && field == (if plus then [43] else []) + digits + rest
    && (forall c :: c in digits ==> '0' as int <= c <= '7' as int)
    && (plus ==> digits != []) && (rest == [] || rest[0] == 0 || rest[0] == 32)
    && OctalValue(digits) <= U64_MAX
  }

  lemma {:induction false} ValueIsNatural(digits: Bytes)
    requires forall i :: 0 <= i < |digits| ==> IsOctal(digits[i])
    ensures OctalValue(digits) >= 0
  {
    if digits != [] { ValueIsNatural(digits[..|digits| - 1]); }
  }

  lemma DigitsAre(digits: Bytes)
    ensures (forall c :: c in digits ==> '0' as int <= c <= '7' as int) <==>
            forall i :: 0 <= i < |digits| ==> IsOctal(digits[i])
  {
    if forall c :: c in digits ==> '0' as int <= c <= '7' as int {
      forall i | 0 <= i < |digits| ensures IsOctal(digits[i]) { assert digits[i] in digits; }
    }
  }

  lemma EndsThere(field: Bytes, text: Bytes, rest: Bytes)
    requires field == text + rest && (rest == [] || rest[0] == 0 || rest[0] == 32) && 0 !in text && 32 !in text
    ensures TextEnd(field) == |text| && field[..TextEnd(field)] == text
  {
    var n := TextEnd(field);
    assert forall i :: 0 <= i < |text| ==> field[i] == text[i] && text[i] in text;
    assert rest != [] ==> field[|text|] == rest[0];
    assert n == |text|;
  }

  lemma WrittenReads(field: Bytes, plus: bool, digits: Bytes, rest: Bytes)
    requires Writes(field, plus, digits, rest)
    ensures OctalValue(digits) >= 0 && Octal(field) == Some(OctalValue(digits))
  {
    hide OctalValue, TextEnd;
    DigitsAre(digits);
    ValueIsNatural(digits);
    var text := (if plus then [43] else []) + digits;
    assert 0 !in text && 32 !in text;
    EndsThere(field, text, rest);
    if text == [] {
      assert OctalValue(digits) == 0 by { NoDigits(); }
    } else if plus {
      assert text[1..] == digits;
    } else {
      assert text == digits && digits[0] in digits;
    }
    assert field != [] ==> field[0] < 128 by { FirstIsSmall(field, text, rest); }
  }

  lemma NoDigits()
    ensures OctalValue([]) == 0
  {
  }

  lemma FirstIsSmall(field: Bytes, text: Bytes, rest: Bytes)
    requires field == text + rest && (rest == [] || rest[0] == 0 || rest[0] == 32)
    requires forall c :: c in text ==> c < 128
    ensures field != [] ==> field[0] < 128
  {
    if text != [] { assert field[0] == text[0] && text[0] in text; }
  }

  lemma ReadsWritten(field: Bytes) returns (plus: bool, digits: Bytes, rest: Bytes)
    requires Octal(field).Some?
    ensures Writes(field, plus, digits, rest) && Octal(field) == Some(OctalValue(digits))
  {
    hide OctalValue;
    var end := TextEnd(field);
    var text := field[..end];
    rest := field[end..];
    assert field == text + rest;
    NoDigits();
    plus := text != [] && text[0] == 43 && |text| > 1;
    digits := if plus then text[1..] else text;
    assert text == (if plus then [43] else []) + digits;
    assert field == (if plus then [43] else []) + digits + rest;
    DigitsAre(digits);
    if text == [] {
      assert digits == [] && OctalValue(digits) == 0;
    } else if plus {
      assert digits == field[..TextEnd(field)][1..];
    } else {
      assert digits == field[..TextEnd(field)];
    }
  }

  /** A field reads as a number exactly when it is written that way. */
  lemma NumberExactly(field: Bytes, n: nat)
    ensures Octal(field) == Some(n) <==>
            exists plus, digits, rest :: Writes(field, plus, digits, rest) && OctalValue(digits) == n
  {
    hide Octal, Writes, OctalValue;
    if Octal(field) == Some(n) { var plus, digits, rest := ReadsWritten(field); }
    if plus, digits, rest :| Writes(field, plus, digits, rest) && OctalValue(digits) == n {
      WrittenReads(field, plus, digits, rest);
    }
  }

  // ---- header blocks ------------------------------------------------------------------------

  /** The sum of the bytes from `i` on, those of the checksum field taken as spaces. */
  function SumFrom(block: Bytes, i: nat): nat
    requires i <= |block|
    decreases |block| - i
  {
    if i == |block| then 0 else (if 148 <= i < 156 then 32 else block[i]) + SumFrom(block, i + 1)
  }

  lemma {:induction false} SumSplits(a: Bytes, b: Bytes)
    ensures Sum(a + b) == Sum(a) + Sum(b)
  {
    if b == [] {
      assert a + b == a;
    } else {
      var n := |b| - 1;
      assert (a + b)[..|a + b| - 1] == a + b[..n];
      SumSplits(a, b[..n]);
    }
  }

  lemma {:induction false} SumsAre(block: Bytes, i: nat)
    requires |block| == BLOCK && i <= BLOCK
    ensures Sum(Overlay(block, 148, Spaces(8))[i..]) == SumFrom(block, i)
    decreases BLOCK - i
  {
    hide Sum;
    var b := Overlay(block, 148, Spaces(8));
    if i == BLOCK {
      assert b[i..] == [];
      NoSum();
    } else {
      SumsAre(block, i + 1);
      assert b[i..] == [b[i]] + b[i + 1..];
      SumSplits([b[i]], b[i + 1..]);
      OneSum(b[i]);
    }
  }

  lemma NoSum()
    ensures Sum([]) == 0
  {
  }

  lemma OneSum(c: Byte)
    ensures Sum([c]) == c
  {
    assert [c][..0] == [];
  }

  /** The number a field writes. */
  ghost predicate Number(field: Bytes, n: nat) {
    exists plus, digits, rest :: Writes(field, plus, digits, rest) && OctalValue(digits) == n
  }

  /** A header block of a regular file: its checksum, kind, empty prefix, name up to a NUL, and size. */
  ghost predicate Declares(block: Bytes, name: Bytes, size: nat) {
    && |block| == 512
    && Number(block[148..156], SumFrom(block, 0))
    && (block[156] == '0' as int || block[156] == 0)
    && (forall i :: 345 <= i < 500 ==> block[i] == 0)
    && |name| <= 100 && block[..|name|] == name && 0 !in name && (|name| < 100 ==> block[|name|] == 0)
    && Number(block[124..136], size)
  }

  lemma NamesEnd(block: Bytes, name: Bytes)
    requires |block| == BLOCK
    ensures (|name| <= 100 && block[..|name|] == name && 0 !in name && (|name| < 100 ==> block[|name|] == 0)) <==>
            name == block[..NameEnd(block)]
  {
    var field := block[..100];
    if |name| <= 100 && block[..|name|] == name && 0 !in name && (|name| < 100 ==> block[|name|] == 0) {
      assert field[..|name|] == name;
      NameEnds(field, name);
    }
    assert field[..NameEnd(block)] == block[..NameEnd(block)];
  }

  /** A header block is read exactly when it declares a file, and then as that file. */
  lemma HeaderExactly(block: Bytes, name: Bytes, size: nat)
    requires |block| == BLOCK
    ensures R.ReadHeader(block) == Some(R.Head(name, size)) <==> Declares(block, name, size)
  {
    hide Octal, OctalValue, Sum, Writes;
    SumsAre(block, 0);
    assert Overlay(block, 148, Spaces(8))[0..] == Overlay(block, 148, Spaces(8));
    NumberExactly(block[148..156], SumFrom(block, 0));
    NumberExactly(block[124..136], size);
    NamesEnd(block, name);
    assert R.AllZero(block[345..500]) <==> forall i :: 345 <= i < 500 ==> block[i] == 0 by { ZeroPrefix(block); }
  }

  lemma ZeroPrefix(block: Bytes)
    requires |block| == BLOCK
    ensures R.AllZero(block[345..500]) <==> forall i :: 345 <= i < 500 ==> block[i] == 0
  {
    var part := block[345..500];
    assert forall i :: 0 <= i < 155 ==> part[i] == block[i + 345];
    if R.AllZero(part) {
      forall i | 345 <= i < 500 ensures block[i] == 0 { assert part[i - 345] == 0; }
    }
  }

  /** A block of zeros declares nothing: its checksum would have to be 256. */
  lemma ZerosDeclareNothing(block: Bytes)
    requires |block| == BLOCK && R.AllZero(block)
    ensures R.ReadHeader(block).None?
  {
    hide Sum, Octal;
    SumsAre(block, 0);
    assert Overlay(block, 148, Spaces(8))[0..] == Overlay(block, 148, Spaces(8));
    ZerosSum(block, 0);
    EmptyField(block[148..156]);
  }

  lemma EmptyField(field: Bytes)
    requires field != [] && field[0] == 0
    ensures Octal(field) == Some(0)
  {
    assert field[..0] == [];
  }

  lemma {:induction false} ZerosSum(block: Bytes, i: nat)
    requires |block| == BLOCK && R.AllZero(block) && i <= 148
    ensures SumFrom(block, i) >= 32
    decreases 148 - i
  {
    if i < 148 { ZerosSum(block, i + 1); }
  }

  // ---- files, one after the other -----------------------------------------------------------

  datatype Item = Item(block: Bytes, name: Bytes, content: Bytes, pad: Bytes)

  /** A header, the content it declares, and what fills the last block. */
  ghost predicate IsItem(it: Item) {
    Declares(it.block, it.name, |it.content|) && |it.pad| < 512 && (|it.content| + |it.pad|) % 512 == 0
  }

  function Bytesof(it: Item): Bytes {
    it.block + it.content + it.pad
  }

  function Flat(items: seq<Item>): Bytes {
    if items == [] then [] else Bytesof(items[0]) + Flat(items[1..])
  }

  /** Nothing, or zeros: whole blocks of them, of which the first 21 are looked at. */
  predicate Ends(tail: Bytes) {
    tail == [] ||
    (&& |tail| >= 512 && (|tail| % 512 == 0 || |tail| >= 21 * 512)
     && forall i :: 0 <= i < |tail| && i < 21 * 512 ==> tail[i] == 0)
  }

  predicate IsHex64(h: Bytes) {
    |h| == 64 && forall c :: c in h ==> '0' as int <= c <= '9' as int || 'a' as int <= c <= 'f' as int
  }

  /** A blob the feed names: 64 lowercase hex digits after `blobs/`, within its limit, hashing to its name. */
  ghost predicate IsBlob(it: Item, h: Bytes, allowed: R.Allowed, hash: Bytes -> Bytes) {
    it.name == Ascii("blobs/") + h && IsHex64(h) && h in allowed && |it.content| <= allowed[h] && hash(it.content) == h
  }

  lemma HashesAre(h: Bytes)
    ensures IsHex64(h) <==> R.IsHash(h)
  {
    if IsHex64(h) {
      forall i | 0 <= i < 64 ensures R.IsHexDigit(h[i]) { assert h[i] in h; }
    }
  }

  lemma BlobNamesAre(name: Bytes, h: Bytes)
    ensures R.BlobName(name) == Some(h) <==> name == Ascii("blobs/") + h && IsHex64(h)
  {
    hide R.IsHash, IsHex64, Ascii;
    var p := Ascii("blobs/");
    assert |p| == 6;
    HashesAre(h);
    if name == p + h { assert name[6..] == h; }
    if p <= name { assert name == p + name[6..]; }
  }

  lemma PadIs(size: nat, pad: nat)
    ensures pad < 512 && (size + pad) % 512 == 0 <==> pad == R.Padded(size) - size
  {
  }

  /** What stands at the front of an archive that starts with an item. */
  lemma FrontIs(it: Item, left: Bytes)
    requires IsItem(it)
    ensures var data := Bytesof(it) + left;
            && |data| >= BLOCK && data[..BLOCK] == it.block && |it.content| <= R.Padded(|it.content|)
            && |data[BLOCK..]| >= R.Padded(|it.content|)
            && data[BLOCK..][..|it.content|] == it.content && data[BLOCK..][R.Padded(|it.content|)..] == left
            && R.ReadHeader(it.block) == Some(R.Head(it.name, |it.content|)) && !R.AllZero(it.block)
  {
    hide Declares, R.ReadHeader, R.Padded;
    PadIs(|it.content|, |it.pad|);
    assert |it.block| == BLOCK by { BlockSize(it); }
    HeaderExactly(it.block, it.name, |it.content|);
    if R.AllZero(it.block) { ZerosDeclareNothing(it.block); }
    var data := Bytesof(it) + left;
    assert data == it.block + (it.content + it.pad + left);
    assert data[BLOCK..] == it.content + (it.pad + left);
    assert data[BLOCK..] == (it.content + it.pad) + left;
  }

  lemma BlockSize(it: Item)
    requires IsItem(it)
    ensures |it.block| == BLOCK
  {
  }

  /** And the other way round: where a header is read and its content is there, an item stands. */
  lemma ItemAt(data: Bytes, name: Bytes, size: nat) returns (it: Item, left: Bytes)
    requires |data| >= BLOCK && R.ReadHeader(data[..BLOCK]) == Some(R.Head(name, size))
    requires |data[BLOCK..]| >= R.Padded(size)
    ensures IsItem(it) && data == Bytesof(it) + left && left == data[BLOCK..][R.Padded(size)..]
    ensures it.name == name && |it.content| == size && it.content == data[BLOCK..][..size]
    ensures |left| < |data|
  {
    hide Declares, R.ReadHeader, R.Padded;
    HeaderExactly(data[..BLOCK], name, size);
    R.PaddedCovers(size);
    var rest := data[BLOCK..];
    it := Item(data[..BLOCK], name, rest[..size], rest[size..R.Padded(size)]);
    left := rest[R.Padded(size)..];
    PadIs(size, |it.pad|);
    assert it.content + it.pad + left == rest;
    assert data == it.block + rest;
  }

  lemma EndsAre(data: Bytes)
    requires data == [] || (|data| >= BLOCK && R.AllZero(data[..BLOCK]) && R.TrailerOk(data[BLOCK..], 20))
    ensures Ends(data)
  {
    hide R.TrailerOk;
    if data != [] {
      var rest := data[BLOCK..];
      R.TrailerExactly(rest, 20);
      assert data == data[..BLOCK] + rest;
      if |rest| >= 20 * BLOCK {
        assert forall i :: 0 <= i < 20 * BLOCK ==> rest[..20 * BLOCK][i] == rest[i];
      }
    }
  }

  lemma AreEnds(data: Bytes)
    requires Ends(data)
    ensures data == [] || (|data| >= BLOCK && R.AllZero(data[..BLOCK]) && R.TrailerOk(data[BLOCK..], 20))
  {
    if data != [] { R.TrailerExactly(data[BLOCK..], 20); }
  }

  // ---- the blobs ----------------------------------------------------------------------------

  /** `names` are the hashes of `items`, all allowed, all different and none there before. */
  ghost predicate AreBlobs(items: seq<Item>, names: seq<Bytes>, before: set<Bytes>, allowed: R.Allowed,
                           hash: Bytes -> Bytes)
  {
    && |names| == |items|
    && (forall i :: 0 <= i < |items| ==> IsItem(items[i]) && IsBlob(items[i], names[i], allowed, hash))
    && (forall i :: 0 <= i < |names| ==> names[i] !in before)
    && (forall i, j :: 0 <= i < j < |names| ==> names[i] != names[j])
  }

  /** `work` is `before` with the content of every item under its name. */
  ghost predicate Adds(before: map<Bytes, Bytes>, items: seq<Item>, names: seq<Bytes>, work: map<Bytes, Bytes>)
    requires |names| == |items|
  {
    && (forall h :: h in work <==> h in before || h in names)
    && (forall h :: h in before && h !in names ==> work[h] == before[h])
    && (forall i :: 0 <= i < |names| ==> names[i] in work && work[names[i]] == items[i].content)
  }

  ghost predicate Taken(data: Bytes, s: R.Reading, r: R.Reading, items: seq<Item>, names: seq<Bytes>, tail: Bytes,
                        hash: Bytes -> Bytes)
  {
    && data == Flat(items) + tail && Ends(tail)
    && AreBlobs(items, names, s.work.Keys, s.allowed, hash) && s.entries + |items| <= 65
    && r.entries == s.entries + |items| && r.envelope == s.envelope && r.allowed == s.allowed
    && Adds(s.work, items, names, r.work)
  }

  lemma TakesOne(it: Item, h: Bytes, left: Bytes, s: R.Reading, verify: R.Verifier, hash: Bytes -> Bytes)
    requires IsItem(it) && s.entries >= 1 && s.envelope.Some?
    ensures var next := s.(entries := s.entries + 1, work := s.work[h := it.content]);
            IsBlob(it, h, s.allowed, hash) && h !in s.work && s.entries < 65 ==>
              R.Unpack(Bytesof(it) + left, s, verify, hash) == R.Unpack(left, next, verify, hash)
  {
    hide IsItem, R.ReadHeader, R.Padded, R.AllZero, R.Unpack, Ascii, IsHex64;
    FrontIs(it, left);
    var data := Bytesof(it) + left;
    BlobNamesAre(it.name, h);
    var next := s.(entries := s.entries + 1, work := s.work[h := it.content]);
    if IsBlob(it, h, s.allowed, hash) && h !in s.work && s.entries < 65 {
      assert R.TakeEntry(s, data[..BLOCK], data[BLOCK..], verify, hash) == Ok((next, left));
      R.UnpackOne(data, s, verify, hash, next, left);
    }
  }

  lemma AtTheEnd(data: Bytes, s: R.Reading, verify: R.Verifier, hash: Bytes -> Bytes)
    requires Ends(data) && s.envelope.Some?
    ensures R.Unpack(data, s, verify, hash) == Ok(s)
  {
    hide R.TrailerOk, R.TakeEntry;
    AreEnds(data);
  }

  lemma {:induction false} TakenReads(data: Bytes, s: R.Reading, r: R.Reading, items: seq<Item>, names: seq<Bytes>,
                                      tail: Bytes, verify: R.Verifier, hash: Bytes -> Bytes)
    requires s.entries >= 1 && s.envelope.Some? && Taken(data, s, r, items, names, tail, hash)
    ensures R.Unpack(data, s, verify, hash) == Ok(r)
    decreases |items|
  {
    hide R.Unpack, IsItem, IsBlob, Ends;
    if items == [] {
      assert data == tail;
      AtTheEnd(tail, s, verify, hash);
      NothingAdded(s.work, names, r.work);
    } else {
      var it, h, left := items[0], names[0], Flat(items[1..]) + tail;
      assert data == Bytesof(it) + left;
      TakesOne(it, h, left, s, verify, hash);
      var next := s.(entries := s.entries + 1, work := s.work[h := it.content]);
      OneLess(items, names, s, r, hash);
      TakenReads(left, next, r, items[1..], names[1..], tail, verify, hash);
    }
  }

  lemma NothingAdded(before: map<Bytes, Bytes>, names: seq<Bytes>, work: map<Bytes, Bytes>)
    requires names == [] && Adds(before, [], names, work)
    ensures work == before
  {
    assert work.Keys == before.Keys;
  }

  lemma OneLess(items: seq<Item>, names: seq<Bytes>, s: R.Reading, r: R.Reading, hash: Bytes -> Bytes)
    requires items != [] && AreBlobs(items, names, s.work.Keys, s.allowed, hash) && Adds(s.work, items, names, r.work)
    ensures var work := s.work[names[0] := items[0].content];
            AreBlobs(items[1..], names[1..], work.Keys, s.allowed, hash) && Adds(work, items[1..], names[1..], r.work)
  {
    hide IsItem, IsBlob;
    var more, rest := items[1..], names[1..];
    assert forall i :: 0 <= i < |rest| ==> rest[i] == names[i + 1] && more[i] == items[i + 1];
    Tail(names);
    assert AreBlobs(more, rest, s.work[names[0] := items[0].content].Keys, s.allowed, hash);
    AddsTail(s.work, items, names, r.work);
  }

  lemma Tail(names: seq<Bytes>)
    requires names != [] && forall i, j :: 0 <= i < j < |names| ==> names[i] != names[j]
    ensures names[0] !in names[1..]
    ensures forall h :: h in names <==> h == names[0] || h in names[1..]
  {
    assert names == [names[0]] + names[1..];
  }

  lemma AddsTail(before: map<Bytes, Bytes>, items: seq<Item>, names: seq<Bytes>, work: map<Bytes, Bytes>)
    requires items != [] && |names| == |items| && forall i, j :: 0 <= i < j < |names| ==> names[i] != names[j]
    ensures Adds(before, items, names, work) <==>
            Adds(before[names[0] := items[0].content], items[1..], names[1..], work)
              && (names[0] in before ==> names[0] in work)
  {
    var more, rest := items[1..], names[1..];
    Tail(names);
    assert forall i :: 0 <= i < |rest| ==> rest[i] == names[i + 1] && more[i] == items[i + 1];
    if Adds(before[names[0] := items[0].content], more, rest, work) {
      forall i | 0 <= i < |names| ensures names[i] in work && work[names[i]] == items[i].content {
        if i > 0 { assert rest[i - 1] == names[i]; }
      }
    }
  }

  lemma OneMore(it: Item, h: Bytes, items: seq<Item>, names: seq<Bytes>, s: R.Reading, r: R.Reading,
                hash: Bytes -> Bytes)
    requires IsItem(it) && IsBlob(it, h, s.allowed, hash) && h !in s.work
    requires var work := s.work[h := it.content];
             AreBlobs(items, names, work.Keys, s.allowed, hash) && Adds(work, items, names, r.work)
    ensures AreBlobs([it] + items, [h] + names, s.work.Keys, s.allowed, hash)
    ensures Adds(s.work, [it] + items, [h] + names, r.work)
  {
    hide IsItem, IsBlob, Adds;
    var more, all := [h] + names, [it] + items;
    assert more[0] == h && all[0] == it && more[1..] == names && all[1..] == items;
    assert forall i :: 0 < i < |more| ==> more[i] == names[i - 1] && all[i] == items[i - 1];
    assert AreBlobs(all, more, s.work.Keys, s.allowed, hash);
    AddsTail(s.work, all, more, r.work);
  }

  /** The first entry of what is accepted, where it is not the end, is a blob. */
  lemma TakesBlob(data: Bytes, s: R.Reading, verify: R.Verifier, hash: Bytes -> Bytes)
    returns (it: Item, h: Bytes, left: Bytes)
    requires 1 <= s.entries <= 65 && s.envelope.Some? && R.Unpack(data, s, verify, hash).Ok?
    requires |data| >= BLOCK && !R.AllZero(data[..BLOCK])
    ensures IsItem(it) && data == Bytesof(it) + left && |left| < |data|
    ensures IsBlob(it, h, s.allowed, hash) && h !in s.work && s.entries < 65
    ensures R.Unpack(data, s, verify, hash) ==
            R.Unpack(left, s.(entries := s.entries + 1, work := s.work[h := it.content]), verify, hash)
  {
    hide R.ReadHeader, R.TrailerOk, R.Padded, R.AllZero, IsItem, IsBlob, R.BlobName;
    var head := R.ReadHeader(data[..BLOCK]).value;
    it, left := ItemAt(data, head.name, head.size);
    h := R.BlobName(head.name).value;
    IsThatBlob(it, h, s, hash);
  }

  /** Whatever is accepted after `feed.json` is a sequence of blobs and an end. */
  lemma {:induction false} ReadsTaken(data: Bytes, s: R.Reading, verify: R.Verifier, hash: Bytes -> Bytes)
    returns (items: seq<Item>, names: seq<Bytes>, tail: Bytes)
    requires 1 <= s.entries <= 65 && s.envelope.Some? && R.Unpack(data, s, verify, hash).Ok?
    ensures Taken(data, s, R.Unpack(data, s, verify, hash).value, items, names, tail, hash)
    decreases |data|
  {
    hide R.TakeEntry, R.TrailerOk, R.AllZero, IsItem, IsBlob, Ends, Adds;
    if data == [] || R.AllZero(data[..BLOCK]) {
      items, names, tail := [], [], data;
      EndsAre(data);
      assert Flat([]) + tail == data;
      NothingToAdd(s.work);
    } else {
      var it, h, left := TakesBlob(data, s, verify, hash);
      var next := s.(entries := s.entries + 1, work := s.work[h := it.content]);
      var items', names', tail' := ReadsTaken(left, next, verify, hash);
      OneMore(it, h, items', names', s, R.Unpack(left, next, verify, hash).value, hash);
      items, names, tail := [it] + items', [h] + names', tail';
      assert items[1..] == items';
      assert Bytesof(it) + (Flat(items') + tail) == (Bytesof(it) + Flat(items')) + tail;
    }
  }

  lemma NothingToAdd(work: map<Bytes, Bytes>)
    ensures Adds(work, [], [], work)
  {
  }

  lemma IsThatBlob(it: Item, h: Bytes, s: R.Reading, hash: Bytes -> Bytes)
    requires R.BlobName(it.name) == Some(h) && h in s.allowed && |it.content| <= s.allowed[h] && hash(it.content) == h
    ensures IsBlob(it, h, s.allowed, hash)
  {
    BlobNamesAre(it.name, h);
  }

  // ---- whole archives -----------------------------------------------------------------------

  /** `feed.json` is a file of at most a mebibyte; of a larger one the verifier is given a mebibyte and one space. */
  ghost predicate IsFeed(it: Item, envelope: Bytes) {
    && IsItem(it) && it.name == Ascii("feed.json")
    && envelope == if |it.content| <= 1_048_576 then it.content else Spaces(1_048_577)
  }

  /** An archive of a feed: `feed.json`, which the verifier accepts, up to 64 of the blobs it allows, and the end. */
  ghost predicate IsArchive(data: Bytes, feed: Item, items: seq<Item>, names: seq<Bytes>, tail: Bytes,
                            r: R.Reading, verify: R.Verifier, hash: Bytes -> Bytes)
  {
    && data == Bytesof(feed) + Flat(items) + tail && Ends(tail)
    && r.envelope.Some? && IsFeed(feed, r.envelope.value) && verify(r.envelope.value) == Some(r.allowed)
    && AreBlobs(items, names, {}, r.allowed, hash) && |items| <= 64
    && r.entries == 1 + |items| && Adds(map[], items, names, r.work)
  }

  lemma TakesFeed(feed: Item, envelope: Bytes, left: Bytes, allowed: R.Allowed, verify: R.Verifier,
                  hash: Bytes -> Bytes)
    requires IsFeed(feed, envelope) && verify(envelope) == Some(allowed)
    ensures R.Unpack(Bytesof(feed) + left, R.Start, verify, hash) ==
            R.Unpack(left, R.Reading(1, Some(envelope), allowed, map[]), verify, hash)
  {
    hide IsItem, R.ReadHeader, R.Padded, R.AllZero, R.Unpack, Ascii;
    FrontIs(feed, left);
    var data, next := Bytesof(feed) + left, R.Reading(1, Some(envelope), allowed, map[]);
    assert R.TakeEntry(R.Start, data[..BLOCK], data[BLOCK..], verify, hash) == Ok((next, left));
    R.UnpackOne(data, R.Start, verify, hash, next, left);
  }

  /** The reader takes every archive of a feed, with its envelope and its blobs. */
  lemma ArchiveReads(data: Bytes, feed: Item, items: seq<Item>, names: seq<Bytes>, tail: Bytes, r: R.Reading,
                     verify: R.Verifier, hash: Bytes -> Bytes)
    requires IsArchive(data, feed, items, names, tail, r, verify, hash)
    ensures R.Unpack(data, R.Start, verify, hash) == Ok(r)
  {
    hide IsFeed, Ends, AreBlobs, R.Unpack, Adds;
    var left := Flat(items) + tail;
    assert data == Bytesof(feed) + left;
    TakesFeed(feed, r.envelope.value, left, r.allowed, verify, hash);
    var s := R.Reading(1, r.envelope, r.allowed, map[]);
    assert s.work.Keys == {};
    TakenReads(left, s, r, items, names, tail, verify, hash);
  }

  /** Whatever the reader takes is such an archive. */
  lemma ReadsArchive(data: Bytes, verify: R.Verifier, hash: Bytes -> Bytes)
    returns (feed: Item, items: seq<Item>, names: seq<Bytes>, tail: Bytes)
    requires R.Unpack(data, R.Start, verify, hash).Ok?
    ensures IsArchive(data, feed, items, names, tail, R.Unpack(data, R.Start, verify, hash).value, verify, hash)
  {
    hide R.ReadHeader, R.TrailerOk, R.Padded, IsItem, Ends, AreBlobs, Adds, Ascii;
    var head := R.ReadHeader(data[..BLOCK]).value;
    R.PaddedCovers(head.size);
    var left;
    feed, left := ItemAt(data, head.name, head.size);
    var (s, rest) := R.TakeEntry(R.Start, data[..BLOCK], data[BLOCK..], verify, hash).value;
    assert rest == left && s.entries == 1 && s.work == map[];
    items, names, tail := ReadsTaken(left, s, verify, hash);
    assert s.work.Keys == {};
    assert Bytesof(feed) + (Flat(items) + tail) == Bytesof(feed) + Flat(items) + tail;
  }

  // ---- where the writer puts things ---------------------------------------------------------

  /** The fields of a written header: name, mode, owners, size, time, checksum, kind, magic and version. */
  lemma HeaderLayout(name: Bytes, size: nat)
    requires |name| <= 100 && size < Pow8(11)
    ensures var h := Header(name, size);
            && h[..|name|] == name && (forall i :: |name| <= i < 100 ==> h[i] == 0)
            && h[100..108] == Ascii("0000644") + [0] && h[108..116] == Ascii("0000000") + [0]
            && h[116..124] == Ascii("0000000") + [0] && h[124..136] == OctalText(size, 11) + [0]
            && h[136..148] == Ascii("00000000000") + [0]
            && h[148..156] == OctalText(SumFrom(h, 0), 6) + [0, 32]
            && h[156] == '0' as int && (forall i :: 157 <= i < 257 ==> h[i] == 0)
            && h[257..263] == Ascii("ustar") + [0] && h[263..265] == Ascii("00")
            && forall i :: 265 <= i < 512 ==> h[i] == 0
  {
    hide Sum, OctalText, Pow8, Unsummed, Ascii;
    var b, h := Unsummed(name, size), Header(name, size);
    ChecksumFits(b);
    BeforeTheSum(name, size);
    SumsAre(h, 0);
    assert Overlay(h, 148, Spaces(8)) == b;
    assert b[0..] == b;
    assert forall i :: 0 <= i < BLOCK && !(148 <= i < 156) ==> h[i] == b[i];
    SameParts(h, b);
  }

  lemma SameParts(h: Bytes, b: Bytes)
    requires |h| == BLOCK && |b| == BLOCK && forall i :: 0 <= i < BLOCK && !(148 <= i < 156) ==> h[i] == b[i]
    ensures h[..100] == b[..100] && h[100..108] == b[100..108] && h[108..116] == b[108..116]
    ensures h[116..124] == b[116..124] && h[124..136] == b[124..136] && h[136..148] == b[136..148]
    ensures h[257..263] == b[257..263] && h[263..265] == b[263..265]
  {
  }

  /** One byte of a header before its checksum is written. */
  function ByteAt(name: Bytes, size: nat, i: nat): int
    requires i < BLOCK && |OctalText(size, 11)| == 11
  {
    if i < |name| then name[i]
    else if 100 <= i < 107 then Ascii("0000644")[i - 100]
    else if 108 <= i < 115 || 116 <= i < 123 || 136 <= i < 147 then 48
    else if 124 <= i < 135 then OctalText(size, 11)[i - 124]
    else if 148 <= i < 156 then 32
    else if i == 156 then 48
    else if 257 <= i < 262 then Ascii("ustar")[i - 257]
    else if 263 <= i < 265 then 48
    else 0
  }

  lemma ByteIs(name: Bytes, size: nat, i: nat)
    requires |name| <= 100 && size < Pow8(11) && i < BLOCK
    ensures |OctalText(size, 11)| == 11 && Unsummed(name, size)[i] == ByteAt(name, size, i)
  {
    hide OctalText, Pow8;
    OctalFits(size, 11);
    AllNaughts();
  }

  lemma AllNaughts()
    ensures forall i :: 0 <= i < 7 ==> Ascii("0000000")[i] == 48
    ensures forall i :: 0 <= i < 11 ==> Ascii("00000000000")[i] == 48
    ensures Ascii("00")[0] == 48 && Ascii("00")[1] == 48 && Ascii("0")[0] == 48
  {
  }

  lemma BeforeTheSum(name: Bytes, size: nat)
    requires |name| <= 100 && size < Pow8(11)
    ensures var b := Unsummed(name, size);
            && b[..|name|] == name && (forall i :: |name| <= i < 100 ==> b[i] == 0)
            && b[100..108] == Ascii("0000644") + [0] && b[108..116] == Ascii("0000000") + [0]
            && b[116..124] == Ascii("0000000") + [0] && b[124..136] == OctalText(size, 11) + [0]
            && b[136..148] == Ascii("00000000000") + [0] && b[148..156] == Spaces(8)
            && b[156] == '0' as int && (forall i :: 157 <= i < 257 ==> b[i] == 0)
            && b[257..263] == Ascii("ustar") + [0] && b[263..265] == Ascii("00")
            && forall i :: 265 <= i < 512 ==> b[i] == 0
  {
    hide OctalText, Pow8, Unsummed, Ascii;
    OctalFits(size, 11);
    AllNaughts();
    var b := Unsummed(name, size);
    forall i | 0 <= i < BLOCK ensures b[i] == ByteAt(name, size, i) { ByteIs(name, size, i); }
  }
}
