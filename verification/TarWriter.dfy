/**
 Packing a feed tree into one tar (`openvibes-feed/src/pack.rs`): the envelope as
 `feed.json`, the blobs of its manifest, and two blocks of zeros.
 */
module TarWriter {
  import opened Basics
  import opened FeedLimits
  import opened TarFormat

  /** Why a tree is not packed; `Panics` where the header cannot hold a name or a size. */
  datatype PackError = TooLarge | MissingBlob | DamagedBlob | Panics

  // ---- what is written ------------------------------------------------------------------

  function PadLength(size: nat): nat {
    if size % BLOCK == 0 then 0 else BLOCK - size % BLOCK
  }

  function Entry(name: Bytes, content: Bytes): Bytes
    requires |name| <= BLOCK && |content| < Pow8(11)
  {
    Header(name, |content|) + content + Zeros(PadLength(|content|))
  }

  function BlobPath(name: Bytes): Bytes {
    Ascii("blobs/") + name
  }

  predicate Packable(names: seq<Bytes>, blobs: map<Bytes, Bytes>) {
    forall i :: 0 <= i < |names| ==> |BlobPath(names[i])| <= BLOCK && names[i] in blobs && |blobs[names[i]]| < Pow8(11)
  }

  function BlobEntries(names: seq<Bytes>, blobs: map<Bytes, Bytes>): Bytes
    requires Packable(names, blobs)
  {
    if names == [] then [] else Entry(BlobPath(names[0]), blobs[names[0]]) + BlobEntries(names[1..], blobs)
  }

  /** The whole bundle. */
  function BundleBytes(envelope: Bytes, names: seq<Bytes>, blobs: map<Bytes, Bytes>): Bytes
    requires |envelope| < Pow8(11) && Packable(names, blobs)
  {
    Entry(Ascii("feed.json"), envelope) + BlobEntries(names, blobs) + Zeros(1024)
  }

  // ---- how it is written ------------------------------------------------------------------

  method CopyInto(block: array<Byte>, at: nat, bytes: Bytes)
    requires at + |bytes| <= block.Length
    modifies block
    ensures block[..] == Overlay(old(block[..]), at, bytes)
  {
    for i := 0 to |bytes|
      invariant forall j :: 0 <= j < block.Length ==> block[j] == if at <= j < at + i then bytes[j - at]
                else old(block[j])
    {
      block[at + i] := bytes[i];
    }
  }

  method SumOf(block: array<Byte>) returns (sum: nat)
    ensures sum == Sum(block[..])
  {
    sum := 0;
    for i := 0 to block.Length
      invariant sum == Sum(block[..i])
    {
      assert block[..i + 1][..i] == block[..i];
      sum := sum + block[i];
    }
    assert block[..block.Length] == block[..];
  }

  /** Fills one header block in place; the checksum is taken while its field holds spaces. */
  method WriteHeader(name: Bytes, size: nat) returns (block: array<Byte>)
    requires |name| <= BLOCK && size < Pow8(11)
    ensures fresh(block) && block[..] == Header(name, size)
  {
    hide OctalText, Sum, Pow8, Overlay, Ascii;
    OctalFits(size, 11);
    block := new Byte[BLOCK](_ => 0);
    assert block[..] == Zeros(BLOCK);
    CopyInto(block, 0, name);
    CopyInto(block, 100, Ascii("0000644"));
    CopyInto(block, 108, Ascii("0000000"));
    CopyInto(block, 116, Ascii("0000000"));
    CopyInto(block, 124, OctalText(size, 11));
    CopyInto(block, 136, Ascii("00000000000"));
    CopyInto(block, 156, Ascii("0"));
    CopyInto(block, 257, Ascii("ustar") + [0]);
    CopyInto(block, 263, Ascii("00"));
    CopyInto(block, 148, Spaces(8));
    var sum := SumOf(block);
    ChecksumFits(block[..]);
    CopyInto(block, 148, ChecksumText(sum));
  }

  method WritePadding(out: Bytes, size: nat) returns (padded: Bytes)
    ensures padded == out + Zeros(PadLength(size))
  {
    var rest := size % BLOCK;
    if rest > 0 {
      padded := out + Zeros(BLOCK - rest);
    } else {
      padded := out;
    }
  }

  /** Copies a file a buffer at a time. */
  method CopyFile(out: Bytes, content: Bytes) returns (written: Bytes, copied: Bytes)
    ensures written == out + content && copied == content
  {
    written, copied := out, [];
    var left := |content|;
    while left > 0
      invariant 0 <= left <= |content|
      invariant copied == content[..|content| - left] && written == out + copied
    {
      var take := if left < BUFFER then left else BUFFER;
      var chunk := content[|content| - left..|content| - left + take];
      assert copied + chunk == content[..|content| - left + take];
      assert written + chunk == out + (copied + chunk);
      written, copied := written + chunk, copied + chunk;
      left := left - take;
    }
    assert content[..|content|] == content;
  }

  /** Writes one file: header, content, padding. `copied` is what went through the hasher. */
  method WriteEntry(out: Bytes, name: Bytes, content: Bytes) returns (written: Bytes, copied: Bytes)
    requires |name| <= BLOCK && |content| < Pow8(11)
    ensures written == out + Entry(name, content) && copied == content
  {
    hide Header, Pow8;
    var block := WriteHeader(name, |content|);
    written, copied := CopyFile(out + block[..], content);
    written := WritePadding(written, |content|);
    assert written == out + (block[..] + content + Zeros(PadLength(|content|)));
  }

  /** Every name among the first `n` can be packed and is its blob's hash. */
  ghost predicate Sound(names: seq<Bytes>, n: nat, blobs: map<Bytes, Bytes>, hash: Bytes -> Bytes)
    requires n <= |names|
  {
    Packable(names[..n], blobs) && forall i :: 0 <= i < n ==> names[i] in blobs && hash(blobs[names[i]]) == names[i]
  }

  lemma SoundNext(names: seq<Bytes>, n: nat, blobs: map<Bytes, Bytes>, hash: Bytes -> Bytes)
    requires n < |names|
    ensures Sound(names, n + 1, blobs, hash) <==>
            var name := names[n];
            Sound(names, n, blobs, hash) && name in blobs && |BlobPath(name)| <= BLOCK && |blobs[name]| < Pow8(11)
              && hash(blobs[name]) == name
  {
    hide BlobPath, Pow8;
    assert names[..n + 1] == names[..n] + [names[n]];
    var now, next := names[..n], names[..n + 1];
    assert forall i :: 0 <= i < n ==> next[i] == now[i] == names[i];
    assert next[n] == names[n];
  }

  lemma {:induction false} SoundPrefix(names: seq<Bytes>, n: nat, m: nat, blobs: map<Bytes, Bytes>,
                                       hash: Bytes -> Bytes)
    requires n <= m <= |names| && Sound(names, m, blobs, hash)
    ensures Sound(names, n, blobs, hash)
  {
    hide Sound;
    if n < m {
      SoundNext(names, m - 1, blobs, hash);
      SoundPrefix(names, n, m - 1, blobs, hash);
    }
  }

  lemma EntriesNext(names: seq<Bytes>, n: nat, blobs: map<Bytes, Bytes>)
    requires n < |names| && Packable(names[..n + 1], blobs)
    ensures Packable(names[..n], blobs) && names[n] in blobs && |BlobPath(names[n])| <= BLOCK
            && |blobs[names[n]]| < Pow8(11)
    ensures BlobEntries(names[..n + 1], blobs) ==
              BlobEntries(names[..n], blobs) + Entry(BlobPath(names[n]), blobs[names[n]])
  {
    hide Entry, BlobPath, BlobEntries, Packable;
    assert names[..n + 1] == names[..n] + [names[n]];
    EntriesAppend(names[..n], names[n], blobs);
  }

  /**
   Packs a tree: succeeds exactly when the envelope is within its limit, every blob
   named is there, hashes to its name and fits a header, and then writes the bundle.
   */
  method Bundle(envelope: Bytes, names: seq<Bytes>, blobs: map<Bytes, Bytes>, hash: Bytes -> Bytes)
                returns (r: Result<Bytes, PackError>)
    ensures r.Ok? <==> |envelope| <= MAX_ENVELOPE && Sound(names, |names|, blobs, hash)
    ensures r.Ok? ==> |envelope| < Pow8(11) && Packable(names, blobs) && r.value == BundleBytes(envelope, names, blobs)
  {
    hide Entry, BlobPath, Pow8, BlobEntries;
    PowersOf8();
    if |envelope| > MAX_ENVELOPE {
      return Err(TooLarge);
    }
    var out, _ := WriteEntry([], Ascii("feed.json"), envelope);
    ghost var head := out;
    NoEntries(names, blobs);
    assert head + [] == head && [] + Entry(Ascii("feed.json"), envelope) == Entry(Ascii("feed.json"), envelope);
    for i := 0 to |names|
      invariant Sound(names, i, blobs, hash)
      invariant out == head + BlobEntries(names[..i], blobs)
    {
      var name := names[i];
      SoundNext(names, i, blobs, hash);
      if Sound(names, |names|, blobs, hash) { SoundPrefix(names, i + 1, |names|, blobs, hash); }
      if name !in blobs {
        return Err(MissingBlob);
      }
      if |blobs[name]| >= 8_589_934_592 || |BlobPath(name)| > BLOCK {
        return Err(Panics);
      }
      ghost var before := out;
      var copied;
      out, copied := WriteEntry(out, BlobPath(name), blobs[name]);
      if hash(copied) != name {
        return Err(DamagedBlob);
      }
      EntriesNext(names, i, blobs);
      assert before + Entry(BlobPath(name), blobs[name]) == head + (BlobEntries(names[..i],
        blobs) + Entry(BlobPath(name), blobs[name]));
    }
    assert names[..|names|] == names;
    return Ok(out + Zeros(1024));
  }

  lemma NoEntries(names: seq<Bytes>, blobs: map<Bytes, Bytes>)
    ensures Packable(names[..0], blobs) && BlobEntries(names[..0], blobs) == []
  {
  }

  lemma {:induction false} EntriesAppend(names: seq<Bytes>, name: Bytes, blobs: map<Bytes, Bytes>)
    requires Packable(names + [name], blobs)
    ensures Packable(names, blobs) && name in blobs && |BlobPath(name)| <= BLOCK && |blobs[name]| < Pow8(11)
    ensures BlobEntries(names + [name], blobs) == BlobEntries(names, blobs) + Entry(BlobPath(name), blobs[name])
  {
    hide Entry, BlobPath;
    var all := names + [name];
    assert all[|names|] == name && forall i :: 0 <= i < |names| ==> all[i] == names[i];
    if names == [] {
      assert all[1..] == [];
      assert BlobEntries(all, blobs) == Entry(BlobPath(name), blobs[name]) + BlobEntries([], blobs);
    } else {
      assert all[1..] == names[1..] + [name];
      EntriesAppend(names[1..], name, blobs);
    }
  }
}
