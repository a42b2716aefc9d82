/**
 What `bundle` packs, `unpack_tar` gives back: the writer of `openvibes-feed/src/pack.rs`
 and the reader of `openvibes-vulns/src/bundle.rs` undo each other.
 */
module BundleRoundTrip {
  import opened Basics
  import opened FeedLimits
  import opened TarFormat
  import W = TarWriter
  import R = TarReader
  import FeedImport

  /** One packed file, with anything after it, as the reader sees it. */
  lemma EntryReadsBack(name: Bytes, content: Bytes, rest: Bytes)
    requires 0 < |name| <= 100 && 0 !in name && |content| < Pow8(11)
    ensures var data := W.Entry(name, content) + rest;
            && |data| >= BLOCK
            && !R.AllZero(data[..BLOCK])
            && R.ReadHeader(data[..BLOCK]) == Some(R.Head(name, |content|))
            && |data[BLOCK..]| >= R.Padded(|content|) >= |content|
            && data[BLOCK..][..|content|] == content
            && data[BLOCK..][R.Padded(|content|)..] == rest
  {
    hide Header, Octal, Pow8, Checksum;
    var h, pad := Header(name, |content|), Zeros(W.PadLength(|content|));
    var data := W.Entry(name, content) + rest;
    HeaderReadsBack(name, |content|);
    assert data == h + (content + pad + rest);
    assert data[..BLOCK] == h;
    assert data[BLOCK..] == content + pad + rest;
    PaddingAgrees(|content|);
  }

  lemma PaddingAgrees(size: nat)
    ensures R.Padded(size) == size + W.PadLength(size)
  {
  }

  /** The blobs at hand are sound for what the manifest allows. */
  ghost predicate Acceptable(names: seq<Bytes>, blobs: map<Bytes, Bytes>, allowed: R.Allowed, hash: Bytes -> Bytes) {
    && (forall i, j :: 0 <= i < j < |names| ==> names[i] != names[j])
    && (forall i :: 0 <= i < |names| ==>
          var name := names[i];
          && R.IsHash(name)
          && name in blobs && name in allowed
          && |blobs[name]| <= allowed[name] && |blobs[name]| < Pow8(11)
          && hash(blobs[name]) == name)
  }

  lemma BlobPaths(name: Bytes)
    requires R.IsHash(name)
    ensures 0 < |W.BlobPath(name)| <= 100 && 0 !in W.BlobPath(name) && R.BlobName(W.BlobPath(name)) == Some(name)
  {
    var path := W.BlobPath(name);
    assert path[6..] == name;
    forall i | 0 <= i < |path| ensures path[i] != 0 {
      if i >= 6 { assert path[i] == name[i - 6] && R.IsHexDigit(name[i - 6]); }
    }
  }

  function Restrict(blobs: map<Bytes, Bytes>, names: seq<Bytes>): map<Bytes, Bytes> {
    map name | name in blobs && name in names :: blobs[name]
  }

  lemma AcceptablePacks(names: seq<Bytes>, blobs: map<Bytes, Bytes>, allowed: R.Allowed, hash: Bytes -> Bytes)
    requires Acceptable(names, blobs, allowed, hash)
    ensures W.Packable(names, blobs)
  {
    hide Pow8, W.BlobPath;
    forall i | 0 <= i < |names| ensures |W.BlobPath(names[i])| <= BLOCK { BlobPaths(names[i]); }
  }

  lemma {:induction false} BlobsReadBack(names: seq<Bytes>, blobs: map<Bytes, Bytes>, s: R.Reading, verify: R.Verifier,
                                         hash: Bytes -> Bytes)
    requires Acceptable(names, blobs, s.allowed, hash)
    requires forall i :: 0 <= i < |names| ==> names[i] !in s.work
    requires 1 <= s.entries && s.entries + |names| <= MAX_FILES + 1 && s.envelope.Some?
    ensures W.Packable(names, blobs)
    ensures R.Unpack(W.BlobEntries(names, blobs) + Zeros(1024), s, verify, hash) ==
            Ok(s.(entries := s.entries + |names|, work := s.work + Restrict(blobs, names)))
  {
    hide R.Unpack, W.Entry, W.BlobPath, Acceptable, Pow8, W.Packable, Restrict;
    AcceptablePacks(names, blobs, s.allowed, hash);
    if names == [] {
      assert W.BlobEntries([], blobs) + Zeros(1024) == Zeros(1024);
      TrailerReads(s, verify, hash);
      NothingAdded(s.work, blobs);
    } else {
      var name, left := names[0], names[1..];
      AcceptableSplit(names, blobs, s.allowed, hash);
      var content := blobs[name];
      var next := s.(entries := s.entries + 1, work := s.work[name := content]);
      BlobsReadBack(left, blobs, next, verify, hash);
      var rest := W.BlobEntries(left, blobs) + Zeros(1024);
      OneBlob(name, content, rest, s, verify, hash);
      assert W.BlobEntries(names, blobs) + Zeros(1024) == W.Entry(W.BlobPath(name), content) + rest;
      BlobAdded(s.work, blobs, names);
    }
  }

  lemma AcceptableSplit(names: seq<Bytes>, blobs: map<Bytes, Bytes>, allowed: R.Allowed, hash: Bytes -> Bytes)
    requires names != [] && Acceptable(names, blobs, allowed, hash)
    ensures Acceptable(names[1..], blobs, allowed, hash)
    ensures var name := names[0];
            && R.IsHash(name) && name in blobs && name in allowed
            && |blobs[name]| <= allowed[name] && |blobs[name]| < Pow8(11) && hash(blobs[name]) == name
            && (forall i :: 0 <= i < |names[1..]| ==> names[1..][i] != name)
  {
    hide R.IsHash, Pow8;
  }

  lemma NothingAdded(work: map<Bytes, Bytes>, blobs: map<Bytes, Bytes>)
    ensures work + Restrict(blobs, []) == work
  {
  }

  lemma BlobAdded(work: map<Bytes, Bytes>, blobs: map<Bytes, Bytes>, names: seq<Bytes>)
    requires names != [] && names[0] in blobs && names[0] !in names[1..]
    ensures work[names[0] := blobs[names[0]]] + Restrict(blobs, names[1..]) == work + Restrict(blobs, names)
  {
    assert names == [names[0]] + names[1..];
  }

  lemma OneBlob(name: Bytes, content: Bytes, rest: Bytes, s: R.Reading, verify: R.Verifier, hash: Bytes -> Bytes)
    requires R.IsHash(name) && name in s.allowed && name !in s.work && hash(content) == name
    requires |content| <= s.allowed[name] && |content| < Pow8(11)
    requires 1 <= s.entries <= MAX_FILES
    ensures |W.BlobPath(name)| <= BLOCK
    ensures R.Unpack(W.Entry(W.BlobPath(name), content) + rest, s, verify, hash) ==
            R.Unpack(rest, s.(entries := s.entries + 1, work := s.work[name := content]), verify, hash)
  {
    hide W.Entry, W.BlobPath, R.ReadHeader, R.BlobName, R.Padded, Pow8, R.IsHash, R.Unpack, R.AllZero;
    BlobPaths(name);
    EntryReadsBack(W.BlobPath(name), content, rest);
    var data := W.Entry(W.BlobPath(name), content) + rest;
    var next := s.(entries := s.entries + 1, work := s.work[name := content]);
    assert R.TakeEntry(s, data[..BLOCK], data[BLOCK..], verify, hash) == Ok((next, rest));
    R.UnpackOne(data, s, verify, hash, next, rest);
  }

  lemma TrailerReads(s: R.Reading, verify: R.Verifier, hash: Bytes -> Bytes)
    ensures R.Unpack(Zeros(1024), s, verify, hash) == R.Finish(s)
  {
    var data := Zeros(1024);
    R.TrailerExactly(data[BLOCK..], 20);
  }

  lemma Envelope(envelope: Bytes, rest: Bytes, allowed: R.Allowed, verify: R.Verifier, hash: Bytes -> Bytes)
    requires |envelope| <= MAX_ENVELOPE && |envelope| < Pow8(11) && verify(envelope) == Some(allowed)
    ensures R.Unpack(W.Entry(Ascii("feed.json"), envelope) + rest, R.Start, verify, hash) ==
            R.Unpack(rest, R.Reading(1, Some(envelope), allowed, map[]), verify, hash)
  {
    hide W.Entry, R.ReadHeader, R.Padded, Pow8, R.Unpack, R.AllZero;
    var name := Ascii("feed.json");
    assert forall i :: 0 <= i < |name| ==> name[i] != 0;
    EntryReadsBack(name, envelope, rest);
    var data := W.Entry(name, envelope) + rest;
    var next := R.Reading(1, Some(envelope), allowed, map[]);
    assert R.TakeEntry(R.Start, data[..BLOCK], data[BLOCK..], verify, hash) == Ok((next, rest));
    R.UnpackOne(data, R.Start, verify, hash, next, rest);
  }

  /**
   For every envelope of at most 1 MiB and up to 64 distinct hash-named blobs, each within
   its limit and below 8^11 bytes, unpacking the bundle gives the same envelope and exactly
   those blobs.
   */
  lemma UnpackUndoesBundle(envelope: Bytes, names: seq<Bytes>, blobs: map<Bytes, Bytes>, allowed: R.Allowed,
                           verify: R.Verifier, hash: Bytes -> Bytes)
    requires |envelope| <= MAX_ENVELOPE && |names| <= MAX_FILES
    requires verify(envelope) == Some(allowed) && Acceptable(names, blobs, allowed, hash)
    ensures |envelope| < Pow8(11) && W.Packable(names, blobs)
    ensures R.Unpack(W.BundleBytes(envelope, names, blobs), R.Start, verify, hash) ==
            Ok(R.Reading(1 + |names|, Some(envelope), allowed, Restrict(blobs, names)))
  {
    hide W.Entry, W.BlobEntries, R.Unpack, Pow8;
    PowersOf8();
    AcceptablePacks(names, blobs, allowed, hash);
    var rest := W.BlobEntries(names, blobs) + Zeros(1024);
    assert W.BundleBytes(envelope, names, blobs) == W.Entry(Ascii("feed.json"), envelope) + rest;
    Envelope(envelope, rest, allowed, verify, hash);
    BlobsReadBack(names, blobs, R.Reading(1, Some(envelope), allowed, map[]), verify, hash);
    assert map[] + Restrict(blobs, names) == Restrict(blobs, names);
  }

  /** Packs a tree and reads it back, as carrying a feed into a closed network does. */
  method CarryAcross(envelope: Bytes, names: seq<Bytes>, blobs: map<Bytes, Bytes>, allowed: R.Allowed,
                     verify: R.Verifier, hash: Bytes -> Bytes)
    returns (work: map<Bytes, Bytes>, received: Bytes)
    requires |envelope| <= MAX_ENVELOPE && |names| <= MAX_FILES
    requires verify(envelope) == Some(allowed) && Acceptable(names, blobs, allowed, hash)
    ensures received == envelope && work == Restrict(blobs, names)
  {
    hide R.Unpack, W.BundleBytes, Pow8;
    UnpackUndoesBundle(envelope, names, blobs, allowed, verify, hash);
    assert names[..|names|] == names;
    var packed := W.Bundle(envelope, names, blobs, hash);
    var read, files, _ := R.UnpackTar(packed.value, verify, hash);
    return files, read.value.envelope.value;
  }

  /** The largest size the format allows for an OSV file does not fit a header's eleven digits. */
  lemma LargestOsvFileDoesNotFit()
    ensures FeedImport.MaxSize(FeedImport.Osv) == Pow8(11)
    ensures |OctalText(FeedImport.MaxSize(FeedImport.Osv), 11)| == 12
  {
    PowersOf8();
    OctalFits(8 * 1_073_741_824, 11);
    OctalFits(8 * 1_073_741_824, 12);
  }

  /**
   A feed with one OSV file of that size: a platform takes the file, whatever it is called and whatever
   time it has, and no envelope lets the bundle be packed.
   */
  method LargestOsvFileCannotBePacked(envelope: Bytes, name: string, fetchedAt: int, hash: Bytes -> Bytes)
    returns (blob: Bytes, packed: Result<Bytes, W.PackError>)
    ensures var size := FeedImport.MaxSize(FeedImport.Osv);
            var id := FeedImport.FileId("osv", FeedImport.Osv, name);
            var entry := FeedImport.FileEntry(id, hash(blob), size, fetchedAt);
            |blob| == size && FeedImport.CheckFile(entry, |blob|, hash(blob), None, size) == None
    ensures packed.Err?
  {
    hide Pow8;
    LargestOsvFileDoesNotFit();
    blob := Zeros(FeedImport.MaxSize(FeedImport.Osv));
    var names, blobs := [hash(blob)], map[hash(blob) := blob];
    assert names[0] in blobs && |blobs[names[0]]| == Pow8(11);
    assert !W.Packable(names, blobs);
    packed := W.Bundle(envelope, names, blobs, hash);
  }
}
