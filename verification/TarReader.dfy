/**
 Taking a feed out of an archive or a directory (`openvibes-vulns/src/bundle.rs`): `feed.json`
 first, verified before any blob is written, then only blobs it names, each under the
 name its content hashes to.
 */
module TarReader {
  import opened Basics
  import opened FeedLimits
  import opened TarFormat

  datatype BundleError = Io | Format | TooLarge | Refused

  /** The blobs a verified feed names, with the most bytes each may have. */
  type Allowed = map<Bytes, nat>

  /** Checks `feed.json` and names its blobs, or refuses it. */
  type Verifier = Bytes -> Option<Allowed>

  /** How far a read is: entries seen, the envelope and what it allows, the blobs in `work`. */
  datatype Reading = Reading(entries: nat, envelope: Option<Bytes>, allowed: Allowed, work: map<Bytes, Bytes>)

  const Start := Reading(0, None, map[], map[])

  // ---- one header -------------------------------------------------------------------------

  predicate AllZero(bytes: Bytes) {
    forall i :: 0 <= i < |bytes| ==> bytes[i] == 0
  }

  predicate IsHexDigit(c: Byte) {
    48 <= c <= 57 || 97 <= c <= 102
  }

  predicate IsHash(name: Bytes) {
    |name| == 64 && forall i :: 0 <= i < 64 ==> IsHexDigit(name[i])
  }

  function BlobName(name: Bytes): Option<Bytes> {
    if Ascii("blobs/") <= name && IsHash(name[6..]) then Some(name[6..]) else None
  }

  datatype Head = Head(name: Bytes, size: nat)

  /** The checks of a header block, in the code's order. */
  function ReadHeader(block: Bytes): Option<Head>
    requires |block| == BLOCK
  {
    if Octal(block[148..156]) != Some(Checksum(block)) then None
    else if block[156] != 48 && block[156] != 0 then None
    else if !AllZero(block[345..500]) then None
    else
      match Octal(block[124..136])
      case None => None
      case Some(size) => Some(Head(block[..NameEnd(block)], size))
  }

  /** A size rounded up to whole blocks. */
  function Padded(size: nat): nat {
    (size + BLOCK - 1) / BLOCK * BLOCK
  }

  // ---- one entry ----------------------------------------------------------------------------

  /** `feed.json`: its bytes (or, when oversized, one space over the limit) go to the verifier. */
  function TakeEnvelope(s: Reading, head: Head, rest: Bytes, verify: Verifier): Result<(Reading, Bytes), BundleError> {
    if head.name != Ascii("feed.json") then Err(Format)
    else if head.size <= MAX_ENVELOPE && |rest| < head.size then Err(Io)
    else if |rest| < Padded(head.size) then Err(Format)
    else
      var envelope := if head.size > MAX_ENVELOPE then Spaces(MAX_ENVELOPE + 1) else rest[..head.size];
      match verify(envelope)
      case None => Err(Refused)
      case Some(allowed) => Ok((s.(envelope := Some(envelope), allowed := allowed), rest[Padded(head.size)..]))
  }

  /** A blob: named, within its limit, new, whole, and hashing to its name. */
  function TakeBlob(s: Reading, head: Head, rest: Bytes, hash: Bytes -> Bytes): Result<(Reading, Bytes), BundleError> {
    match BlobName(head.name)
    case None => Err(Format)
    case Some(name) =>
      if name !in s.allowed then Err(Format)
      else if head.size > s.allowed[name] then Err(TooLarge)
      else if name in s.work then Err(Format)
      else if |rest| < head.size then Err(Format)
      else if hash(rest[..head.size]) != name then Err(Format)
      else if |rest| < Padded(head.size) then Err(Format)
      else Ok((s.(work := s.work[name := rest[..head.size]]), rest[Padded(head.size)..]))
  }

  function TakeEntry(s: Reading, block: Bytes, rest: Bytes, verify: Verifier,
                     hash: Bytes -> Bytes): (r: Result<(Reading, Bytes), BundleError>)
    requires |block| == BLOCK
    ensures r.Ok? ==> |r.value.1| <= |rest|
  {
    if s.entries + 1 > MAX_FILES + 1 then Err(Format)
    else
      match ReadHeader(block)
      case None => Err(Format)
      case Some(head) =>
        var next := s.(entries := s.entries + 1);
        if next.entries == 1 then TakeEnvelope(next, head, rest, verify) else TakeBlob(next, head, rest, hash)
  }

  // ---- a whole archive -------------------------------------------------------------------------

  /** After a zero block: up to `n` more blocks, all zero. */
  predicate TrailerOk(rest: Bytes, n: nat)
    decreases n
  {
    n == 0 || rest == [] || (|rest| >= BLOCK && AllZero(rest[..BLOCK]) && TrailerOk(rest[BLOCK..], n - 1))
  }

  function Finish(s: Reading): Result<Reading, BundleError> {
    if s.envelope.None? then Err(Format) else Ok(s)
  }

  /** What reading the rest of an archive gives. */
  function Unpack(data: Bytes, s: Reading, verify: Verifier, hash: Bytes -> Bytes): Result<Reading, BundleError>
    decreases |data|
  {
    if data == [] then Finish(s)
    else if |data| < BLOCK then Err(Format)
    else
      var block, rest := data[..BLOCK], data[BLOCK..];
      if AllZero(block) then (if TrailerOk(rest, 20) then Finish(s) else Err(Format))
      else
        match TakeEntry(s, block, rest, verify, hash)
        case Err(e) => Err(e)
        case Ok((next, left)) => Unpack(left, next, verify, hash)
  }

  lemma UnpackOne(data: Bytes, s: Reading, verify: Verifier, hash: Bytes -> Bytes, next: Reading, left: Bytes)
    requires |data| >= BLOCK && !AllZero(data[..BLOCK])
    requires TakeEntry(s, data[..BLOCK], data[BLOCK..], verify, hash) == Ok((next, left))
    ensures Unpack(data, s, verify, hash) == Unpack(left, next, verify, hash)
  {
    hide TakeEntry, TrailerOk;
  }

  // ---- safety ---------------------------------------------------------------------------------

  /** Every blob in `work` is named by the manifest, within its limit and hashes to its name. */
  predicate SoundBlobs(work: map<Bytes, Bytes>, allowed: Allowed, hash: Bytes -> Bytes) {
    forall name ::
        name in work ==> name in allowed && IsHash(name) && |work[name]| <= allowed[name] && hash(work[name]) == name
  }

  /** No blob before the feed was verified, and none twice. */
  predicate Sound(s: Reading, verify: Verifier, hash: Bytes -> Bytes) {
    && (s.entries == 0 ==> s == Start)
    && (s.entries > 0 ==> s.envelope.Some? && verify(s.envelope.value) == Some(s.allowed))
    && SoundBlobs(s.work, s.allowed, hash)
    && (s.entries > 0 ==> |s.work| == s.entries - 1 <= MAX_FILES)
  }

  lemma EntryKeepsSound(s: Reading, block: Bytes, rest: Bytes, verify: Verifier, hash: Bytes -> Bytes)
    requires |block| == BLOCK && Sound(s, verify, hash)
    ensures var r := TakeEntry(s, block, rest, verify, hash); r.Ok? ==> Sound(r.value.0, verify, hash)
  {
    hide ReadHeader, Padded, IsHash, Ascii;
  }

  /**
   Whatever the archive, success means: `feed.json` was accepted by the verifier, and
   the blobs left are sound, one per further entry, at most 64.
   */
  lemma {:induction false} UnpackIsSound(data: Bytes, s: Reading, verify: Verifier, hash: Bytes -> Bytes)
    requires Sound(s, verify, hash) && Unpack(data, s, verify, hash).Ok?
    ensures var r := Unpack(data, s, verify, hash).value; Sound(r, verify, hash) && r.entries > 0
    decreases |data|
  {
    hide TakeEntry, TrailerOk;
    if |data| >= BLOCK && !AllZero(data[..BLOCK]) {
      EntryKeepsSound(s, data[..BLOCK], data[BLOCK..], verify, hash);
      var (next, left) := TakeEntry(s, data[..BLOCK], data[BLOCK..], verify, hash).value;
      UnpackIsSound(left, next, verify, hash);
    }
  }

  /** After the first zero block exactly the next 20 blocks are looked at. */
  lemma {:induction false} TrailerExactly(rest: Bytes, n: nat)
    ensures TrailerOk(rest, n) <==>
            if |rest| >= n * BLOCK then AllZero(rest[..n * BLOCK]) else AllZero(rest) && |rest| % BLOCK == 0
  {
    if n > 0 && |rest| >= BLOCK {
      var tail := rest[BLOCK..];
      TrailerExactly(tail, n - 1);
      if |rest| >= n * BLOCK {
        assert rest[..n * BLOCK] == rest[..BLOCK] + tail[..(n - 1) * BLOCK];
      } else {
        assert rest == rest[..BLOCK] + tail;
      }
    }
  }

  /** So data after 21 zero blocks is not noticed, though only zeros should follow. */
  lemma LateDataIsIgnored(s: Reading, junk: Bytes, verify: Verifier, hash: Bytes -> Bytes)
    ensures Unpack(Zeros(21 * BLOCK) + junk, s, verify, hash) == Finish(s)
  {
    var data := Zeros(21 * BLOCK) + junk;
    TrailerExactly(data[BLOCK..], 20);
  }

  // ---- the reader's own code ------------------------------------------------------------------

  /** A file being read; one read may return less than was asked for. */
  class Reader {
    const data: Bytes
    var pos: nat

    ghost predicate Valid()
      reads this
    {
      pos <= |data|
    }

    ghost function Rest(): Bytes
      reads this
      requires Valid()
    {
      data[pos..]
    }

    constructor (file: Bytes)
      ensures Valid() && Rest() == file
    {
      data, pos := file, 0;
    }

    /** Some bytes, none only at the end. */
    method Read(max: nat) returns (chunk: Bytes)
      requires Valid() && max > 0
      modifies this
      ensures Valid() && |chunk| <= max
      ensures old(Rest()) == chunk + Rest()
      ensures chunk == [] <==> old(Rest()) == []
    {
      var most := if max < |data| - pos then max else |data| - pos;
      var n :| 0 <= n <= most && (n == 0 <==> most == 0);
      chunk := data[pos..pos + n];
      pos := pos + n;
    }

    /** A whole block, nothing at a clean end, or an error inside a block. */
    method ReadBlockOrEnd() returns (r: Result<Option<Bytes>, BundleError>)
      requires Valid()
      modifies this
      ensures Valid()
      ensures old(Rest()) == [] ==> r == Ok(None)
      ensures 0 < |old(Rest())| < BLOCK ==> r == Err(Format)
      ensures |old(Rest())| >= BLOCK ==> r == Ok(Some(old(Rest())[..BLOCK])) && Rest() == old(Rest())[BLOCK..]
    {
      var block: Bytes := [];
      while |block| < BLOCK
        invariant Valid() && |block| <= BLOCK
        invariant old(Rest()) == block + Rest()
        decreases BLOCK - |block|
      {
        var chunk := Read(BLOCK - |block|);
        if chunk == [] {
          return if block == [] then Ok(None) else Err(Format);
        }
        assert old(Rest()) == (block + chunk) + Rest();
        block := block + chunk;
      }
      assert old(Rest())[..BLOCK] == block;
      return Ok(Some(block));
    }

    /** `count` bytes, a buffer at a time, or fewer at the end. */
    method Take(count: nat) returns (bytes: Bytes)
      requires Valid()
      modifies this
      ensures Valid()
      ensures var n := if count <= |old(Rest())| then count else |old(Rest())|;
              bytes == old(Rest())[..n] && Rest() == old(Rest())[n..]
    {
      bytes := [];
      while |bytes| < count
        invariant Valid() && |bytes| <= count
        invariant old(Rest()) == bytes + Rest()
        decreases count - |bytes|
      {
        var left := count - |bytes|;
        var chunk := Read(if left < BUFFER then left else BUFFER);
        if chunk == [] {
          break;
        }
        assert old(Rest()) == (bytes + chunk) + Rest();
        bytes := bytes + chunk;
      }
    }
  }

  lemma PaddedCovers(size: nat)
    ensures size <= Padded(size) < size + BLOCK
  {
  }

  /** Reads one entry's content and padding: the bytes if both are there. */
  method TakeContent(reader: Reader, size: nat) returns (content: Bytes, whole: bool)
    requires reader.Valid()
    modifies reader
    ensures reader.Valid()
    ensures whole <==> size <= |old(reader.Rest())|
    ensures whole ==> content == old(reader.Rest())[..size] && reader.Rest() == old(reader.Rest())[size..]
  {
    content := reader.Take(size);
    whole := |content| == size;
  }

  method Skip(reader: Reader, count: nat) returns (skipped: bool)
    requires reader.Valid()
    modifies reader
    ensures reader.Valid()
    ensures skipped <==> count <= |old(reader.Rest())|
    ensures skipped ==> reader.Rest() == old(reader.Rest())[count..]
  {
    var bytes := reader.Take(count);
    skipped := |bytes| == count;
  }

  method CheckTrailer(reader: Reader) returns (ok: bool)
    requires reader.Valid()
    modifies reader
    ensures reader.Valid()
    ensures ok <==> TrailerOk(old(reader.Rest()), 20)
  {
    for i := 0 to 20
      invariant reader.Valid()
      invariant TrailerOk(old(reader.Rest()), 20) <==> TrailerOk(reader.Rest(), 20 - i)
    {
      ghost var before := reader.Rest();
      var block := reader.ReadBlockOrEnd();
      if block.Err? {
        return false;
      }
      if block.value.None? {
        return true;
      }
      if !AllZero(block.value.value) {
        return false;
      }
    }
    return true;
  }

  /** The first entry: `feed.json`, handed to the verifier once it is read whole. */
  method ReadEnvelope(reader: Reader, s: Reading, head: Head, verify: Verifier)
                      returns (r: Result<Reading, BundleError>)
    requires reader.Valid()
    modifies reader
    ensures reader.Valid()
    ensures var want := TakeEnvelope(s, head, old(reader.Rest()), verify);
            if want.Ok? then r == Ok(want.value.0) && reader.Rest() == want.value.1 else r == Err(want.error)
  {
    hide Ascii;
    PaddedCovers(head.size);
    ghost var rest := reader.Rest();
    if head.name != Ascii("feed.json") {
      return Err(Format);
    }
    var envelope;
    if head.size > MAX_ENVELOPE {
      envelope := Spaces(MAX_ENVELOPE + 1);
      var skipped := Skip(reader, Padded(head.size));
      if !skipped {
        return Err(Format);
      }
    } else {
      var whole;
      envelope, whole := TakeContent(reader, head.size);
      if !whole {
        return Err(Io);
      }
      var skipped := Skip(reader, Padded(head.size) - head.size);
      if !skipped {
        return Err(Format);
      }
      assert rest[head.size..][Padded(head.size) - head.size..] == rest[Padded(head.size)..];
    }
    match verify(envelope) {
      case None => return Err(Refused);
      case Some(allowed) => return Ok(s.(envelope := Some(envelope), allowed := allowed));
    }
  }

  /** A further entry; `work` is the directory, where a blob refused late leaves its file. */
  method ReadBlob(reader: Reader, s: Reading, head: Head, hash: Bytes -> Bytes)
                  returns (r: Result<Reading, BundleError>, work: map<Bytes, Bytes>)
    requires reader.Valid()
    modifies reader
    ensures reader.Valid()
    ensures var want := TakeBlob(s, head, old(reader.Rest()), hash);
            if want.Ok? then r == Ok(want.value.0) && reader.Rest() == want.value.1 else r == Err(want.error)
    ensures r.Ok? ==> work == r.value.work
    ensures work.Keys <= s.work.Keys + s.allowed.Keys
  {
    hide BlobName;
    PaddedCovers(head.size);
    ghost var rest := reader.Rest();
    work := s.work;
    var blob := BlobName(head.name);
    if blob.None? {
      return Err(Format), work;
    }
    var name := blob.value;
    if name !in s.allowed {
      return Err(Format), work;
    }
    if head.size > s.allowed[name] {
      return Err(TooLarge), work;
    }
    if name in s.work {
      return Err(Format), work;
    }
    var content, whole := TakeContent(reader, head.size);
    work := work[name := content];
    if !whole {
      return Err(Format), work;
    }
    if hash(content) != name {
      return Err(Format), work;
    }
    var skipped := Skip(reader, Padded(head.size) - head.size);
    if !skipped {
      return Err(Format), work;
    }
    assert rest[head.size..][Padded(head.size) - head.size..] == rest[Padded(head.size)..];
    return Ok(s.(work := work)), work;
  }

  /**
   Reads a tar. It gives what `Unpack` says; and whatever happens, files appear in `work`
   only after the verifier accepted an envelope that names them.
   */
  method UnpackTar(file: Bytes, verify: Verifier, hash: Bytes -> Bytes)
    returns (r: Result<Reading, BundleError>, work: map<Bytes, Bytes>, ghost reached: Reading)
    ensures r == Unpack(file, Start, verify, hash)
    ensures r.Ok? ==> work == r.value.work && Sound(r.value, verify, hash)
    ensures work != map[] ==> reached.envelope.Some? && verify(reached.envelope.value) == Some(reached.allowed)
    ensures work.Keys <= reached.allowed.Keys
  {
    hide ReadHeader, TakeEnvelope, TakeBlob, TrailerOk;
    var reader := new Reader(file);
    var s := Start;
    work, reached := map[], Start;
    while true
      invariant reader.Valid() && fresh(reader)
      invariant Unpack(file, Start, verify, hash) == Unpack(reader.Rest(), s, verify, hash)
      invariant Sound(s, verify, hash) && work == s.work && reached == s
      decreases |reader.Rest()|
    {
      ghost var data := reader.Rest();
      var read := reader.ReadBlockOrEnd();
      if read.Err? {
        return Err(read.error), work, reached;
      }
      if read.value.None? {
        break;
      }
      var block := read.value.value;
      ghost var rest := reader.Rest();
      if AllZero(block) {
        var ok := CheckTrailer(reader);
        if !ok {
          return Err(Format), work, reached;
        }
        return Finish(s), work, reached;
      }
      EntryKeepsSound(s, block, rest, verify, hash);
      if s.entries + 1 > MAX_FILES + 1 {
        return Err(Format), work, reached;
      }
      var head := ReadHeader(block);
      if head.None? {
        return Err(Format), work, reached;
      }
      var next := s.(entries := s.entries + 1);
      var taken;
      if next.entries == 1 {
        taken := ReadEnvelope(reader, next, head.value, verify);
      } else {
        taken, work := ReadBlob(reader, next, head.value, hash);
      }
      if taken.Err? {
        return Err(taken.error), work, reached;
      }
      s := taken.value;
      work, reached := s.work, s;
    }
    return Finish(s), work, reached;
  }

  /** A blob of a tree is used when it is within its limit and hashes to its name. */
  predicate Usable(content: Bytes, limit: nat, name: Bytes, hash: Bytes -> Bytes) {
    |content| <= limit && hash(content) == name
  }

  lemma UsableIs(content: Bytes, limit: nat, name: Bytes, hash: Bytes -> Bytes)
    ensures Usable(content, limit, name, hash) <==> |content| <= limit && hash(content) == name
  {
  }

  /** Copies one blob, reading at most one byte over its limit. */
  method CopyBlob(content: Bytes, limit: nat, name: Bytes, hash: Bytes -> Bytes) returns (copy: Bytes, usable: bool)
    ensures usable <==> Usable(content, limit, name, hash)
    ensures usable ==> copy == content
  {
    var reader := new Reader(content);
    copy := reader.Take(limit + 1);
    assert |content| <= limit ==> copy == content;
    usable := |copy| <= limit && hash(copy) == name;
  }

  /**
   Reads an unpacked tree: each blob the manifest names is copied while it is hashed, and
   a copy that is too long, or whose hash is not its name, is removed again. `tree` holds the
   regular files of `blobs/`; `None` when that is not a directory.
   */
  method OpenDir(envelope: Bytes, tree: Option<map<Bytes, Bytes>>, verify: Verifier, hash: Bytes -> Bytes)
    returns (r: Result<Bytes, BundleError>, work: map<Bytes, Bytes>)
    ensures r == if verify(Kept(envelope)).Some? then Ok(Kept(envelope)) else Err(Refused)
    ensures r.Err? ==> work == map[]
    ensures r.Ok? ==>
              var allowed := verify(Kept(envelope)).value;
              && (forall name ::
                  name in work <==>
                      name in allowed && tree.Some? && name in tree.value
                      && |tree.value[name]| <= allowed[name] && hash(tree.value[name]) == name)
              && (forall name :: name in work ==> work[name] == tree.value[name])
  {
    hide Usable, Kept;
    work := map[];
    var kept := Kept(envelope);
    var verified := verify(kept);
    if verified.None? {
      return Err(Refused), work;
    }
    var allowed := verified.value;
    if tree.None? {
      return Ok(kept), work;
    }
    var files := tree.value;
    var rest := allowed.Keys;
    while rest != {}
      invariant rest <= allowed.Keys
      invariant forall name ::
                  name in work <==>
                      name in allowed && name !in rest && name in files
                      && Usable(files[name], allowed[name], name, hash)
      invariant forall name :: name in work ==> work[name] == files[name]
    {
      var name :| name in rest;
      rest := rest - {name};
      if name in files {
        var copy, usable := CopyBlob(files[name], allowed[name], name, hash);
        work := work[name := copy];
        if !usable {
          work := work - {name};
        }
      }
    }
    forall name | name in allowed && name in files
      ensures Usable(files[name], allowed[name], name, hash) <==>
              |files[name]| <= allowed[name] && hash(files[name]) == name
    {
      UsableIs(files[name], allowed[name], name, hash);
    }
    return Ok(kept), work;
  }

  /** At most one byte over the limit is read, so that the verifier refuses the rest. */
  function Kept(envelope: Bytes): Bytes {
    if |envelope| <= MAX_ENVELOPE + 1 then envelope else envelope[..MAX_ENVELOPE + 1]
  }

  /** What the verifier is given of `feed.json`: all of it, or a mebibyte and one byte. */
  lemma KeptIs(envelope: Bytes)
    ensures Kept(envelope) <= envelope
    ensures |Kept(envelope)| == if |envelope| <= 1_048_576 then |envelope| else 1_048_577
  {
  }
}
