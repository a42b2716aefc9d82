/**
 Verifying a signed feed (`openvibes-vulns/src/feedfmt.rs`) and accepting it against the
 recorded state (`feedimport.rs`, and the rule of `record_accepted` in
 `platform-store/src/feeds.rs`): a feed cannot be rolled back, and a sequence number once
 accepted stands for one manifest text.
 */
module FeedVerify {
  import opened Basics
  import opened FeedLimits
  import FeedBuild

  type Text = Bytes
  type Digest = Bytes -> Bytes

  const CREATED_SKEW: int := 600
  const LATEST: int := 4_102_444_800
  const PREFIX: Text := Ascii("OPENVIBES-FEED-MANIFEST-V1") + [0]
  const I64_MAX: nat := 0x7FFF_FFFF_FFFF_FFFF

  // ---- the signed bytes -------------------------------------------------------------------

  function Pow256(n: nat): nat {
    if n == 0 then 1 else 256 * Pow256(n - 1)
  }

  /** `n` in `width` bytes, most significant first. */
  function BigEndian(n: nat, width: nat): (b: Bytes)
    ensures |b| == width
  {
    if width == 0 then [] else BigEndian(n / 256, width - 1) + [n % 256]
  }

  lemma {:induction false} BigEndianInjective(m: nat, n: nat, width: nat)
    requires m < Pow256(width) && n < Pow256(width) && BigEndian(m, width) == BigEndian(n, width)
    ensures m == n
  {
    if width > 0 {
      var a, b := BigEndian(m / 256, width - 1), BigEndian(n / 256, width - 1);
      assert (a + [m % 256])[..width - 1] == a && (b + [n % 256])[..width - 1] == b;
      assert (a + [m % 256])[width - 1] == m % 256 && (b + [n % 256])[width - 1] == n % 256;
      BigEndianInjective(m / 256, n / 256, width - 1);
    }
  }

  function Sized(text: Text, width: nat): Bytes {
    BigEndian(|text|, width) + text
  }

  /** An id with its length, which saturates at 32 bits. */
  function SizedId(text: Text): (b: Bytes)
    ensures |text| <= U32_MAX ==> b == Sized(text, 4)
  {
    BigEndian(if |text| <= U32_MAX then |text| else U32_MAX, 4) + text
  }

  /** What a signature is made over. */
  function Preimage(feedId: Text, keyId: Text, manifest: Text): Bytes {
    PREFIX + BigEndian(1, 2) + SizedId(feedId) + SizedId(keyId) + Sized(manifest, 8)
  }

  /** Built piece by piece, as the code appends to a buffer. */
  method BuildPreimage(feedId: Text, keyId: Text, manifest: Text) returns (out: Bytes)
    ensures out == Preimage(feedId, keyId, manifest)
  {
    hide Ascii, BigEndian;
    out := PREFIX;
    out := out + BigEndian(1, 2);
    ghost var head := out;
    var texts := [feedId, keyId];
    for i := 0 to 2
      invariant i == 0 ==> out == head
      invariant i == 1 ==> out == head + SizedId(feedId)
      invariant i == 2 ==> out == head + SizedId(feedId) + SizedId(keyId)
    {
      ghost var before := out;
      out := out + BigEndian(if |texts[i]| <= U32_MAX then |texts[i]| else U32_MAX, 4);
      out := out + texts[i];
      assert out == before + SizedId(texts[i]);
    }
    ghost var ids := out;
    out := out + BigEndian(|manifest|, 8);
    out := out + manifest;
    assert out == ids + Sized(manifest, 8);
  }

  /** A sized text at the front is read back, whatever follows. */
  lemma SizedSplits(a: Text, b: Text, width: nat, x: Bytes, y: Bytes)
    requires |a| < Pow256(width) && |b| < Pow256(width)
    requires Sized(a, width) + x == Sized(b, width) + y
    ensures a == b && x == y
  {
    var s, t := Sized(a, width) + x, Sized(b, width) + y;
    assert s[..width] == BigEndian(|a|, width) && t[..width] == BigEndian(|b|, width);
    BigEndianInjective(|a|, |b|, width);
    assert s[width..width + |a|] == a && t[width..width + |b|] == b;
    assert s[width + |a|..] == x && t[width + |b|..] == y;
  }

  lemma Powers()
    ensures Pow256(4) == 4_294_967_296 && Pow256(8) == 18_446_744_073_709_551_616
  {
    assert Pow256(2) == 65_536;
    assert Pow256(4) == 4_294_967_296;
    assert Pow256(6) == 281_474_976_710_656;
  }

  /** Different feeds, keys or manifests never sign the same bytes. */
  lemma PreimageIsInjective(f: Text, k: Text, m: Text, f': Text, k': Text, m': Text)
    requires |f| <= U32_MAX && |k| <= U32_MAX && |f'| <= U32_MAX && |k'| <= U32_MAX
    requires |m| < Pow256(8) && |m'| < Pow256(8)
    requires Preimage(f, k, m) == Preimage(f', k', m')
    ensures f == f' && k == k' && m == m'
  {
    hide Sized, SizedId, BigEndian, Pow256, Ascii;
    Powers();
    var head := PREFIX + BigEndian(1, 2);
    var r1, r1' := Sized(k, 4) + Sized(m, 8), Sized(k', 4) + Sized(m', 8);
    assert Preimage(f, k, m) == head + (Sized(f, 4) + r1);
    assert Preimage(f', k', m') == head + (Sized(f', 4) + r1');
    assert (head + (Sized(f, 4) + r1))[|head|..] == Sized(f, 4) + r1;
    assert (head + (Sized(f', 4) + r1'))[|head|..] == Sized(f', 4) + r1';
    SizedSplits(f, f', 4, r1, r1');
    SizedSplits(k, k', 4, Sized(m, 8), Sized(m', 8));
    assert Sized(m, 8) + [] == Sized(m', 8) + [];
    SizedSplits(m, m', 8, [], []);
  }

  // ---- verification -------------------------------------------------------------------------

  datatype Refusal =
    | BadFormat | UnknownKey | BadSignature | BadManifest
    | NotYetValid | Expired | SequenceReplay | SequenceConflict

  datatype Envelope = Envelope(format: nat, feedId: Text, keyId: Text, signature: Option<Bytes>, manifest: Text,
    manifestChars: nat)

  datatype FileEntry = FileEntry(source: Text, name: Text, fields: Text)

  datatype Manifest = Manifest(sequence: nat, createdAt: int, expiresAt: int, files: seq<FileEntry>)

  datatype TrustedKey = TrustedKey(feedId: Text, keyId: Text, publicKey: Bytes)

  datatype Applied = Applied(feedId: Text, keyId: Text, sequence: nat, digest: Bytes)

  datatype Accepted = Accepted(feedId: Text, keyId: Text, manifest: Manifest, text: Text, digest: Bytes, again: bool)

  /** The parts taken from libraries: JSON, Ed25519, SHA-256 and the checks of one file entry. */
  datatype Library = Library(
    readEnvelope: Bytes -> Option<Envelope>,
    readManifest: Text -> Option<Manifest>,
    verifies: (Bytes, Bytes, Bytes) -> bool,
    digest: Digest,
    entryOk: FileEntry -> bool)

  /** A decoded manifest text is no longer than the JSON it came from. */
  ghost predicate Decodes(lib: Library) {
    forall bytes :: lib.readEnvelope(bytes).Some? ==> |lib.readEnvelope(bytes).value.manifest| <= |bytes|
  }

  predicate IsIdByte(c: Byte) {
    IsDigit(c) || IsAlpha(c) || c == 46 || c == 95 || c == 58 || c == 45
  }

  /** What may name a feed or a key: up to 128 letters, digits and four marks. */
  predicate Identifier(text: Text) {
    1 <= |text| <= 128 && forall i :: 0 <= i < |text| ==> IsIdByte(text[i])
  }

  predicate Within(time: int) {
    1 <= time <= LATEST
  }

  predicate ManifestOk(m: Manifest, entryOk: FileEntry -> bool) {
    && m.sequence >= 1
    && Within(m.createdAt) && Within(m.expiresAt) && m.expiresAt > m.createdAt
    && 1 <= |m.files| <= MAX_FILES
    && (forall i :: 0 <= i < |m.files| ==> entryOk(m.files[i]))
    && (forall i, j ::
        0 <= i < j < |m.files| ==> m.files[i].source != m.files[j].source || m.files[i].name != m.files[j].name)
  }

  /** The rules of a manifest, with the set of names seen so far. */
  method CheckManifest(m: Manifest, entryOk: FileEntry -> bool) returns (ok: bool)
    ensures ok == ManifestOk(m, entryOk)
  {
    if !(m.sequence >= 1 && Within(m.createdAt) && Within(m.expiresAt) && m.expiresAt > m.createdAt
      && 1 <= |m.files| <= MAX_FILES) {
      return false;
    }
    var seen: set<(Text, Text)> := {};
    for i := 0 to |m.files|
      invariant seen == set j | 0 <= j < i :: (m.files[j].source, m.files[j].name)
      invariant forall j :: 0 <= j < i ==> entryOk(m.files[j])
      invariant forall j, k ::
                  0 <= j < k < i ==> m.files[j].source != m.files[k].source || m.files[j].name != m.files[k].name
    {
      var file := m.files[i];
      if !entryOk(file) || (file.source, file.name) in seen {
        return false;
      }
      seen := seen + {(file.source, file.name)};
    }
    return true;
  }

  function FindKey(trusted: seq<TrustedKey>, feedId: Text, keyId: Text): Option<TrustedKey> {
    if trusted == [] then None
    else if trusted[0].feedId == feedId && trusted[0].keyId == keyId then Some(trusted[0])
    else FindKey(trusted[1..], feedId, keyId)
  }

  function FindApplied(applied: seq<Applied>, feedId: Text, keyId: Text): Option<Applied> {
    if applied == [] then None
    else if applied[0].feedId == feedId && applied[0].keyId == keyId then Some(applied[0])
    else FindApplied(applied[1..], feedId, keyId)
  }

  /** The envelope's own shape. */
  predicate WellFormed(e: Envelope) {
    && e.signature.Some? && |e.signature.value| == 64
    && e.format == 1 && Identifier(e.feedId) && Identifier(e.keyId)
    && 2 <= e.manifestChars <= MAX_ENVELOPE
  }

  /** The sequence rule against what was accepted before. */
  function CheckSequence(sequence: nat, digest: Bytes, known: Option<Applied>): Result<bool, Refusal> {
    if known.None? then Ok(false)
    else if sequence < known.value.sequence then Err(SequenceReplay)
    else if sequence > known.value.sequence then Ok(false)
    else if digest != known.value.digest then Err(SequenceConflict)
    else Ok(true)
  }

  /** Every check of `verify`, in the order the format fixes. */
  function Verify(bytes: Bytes, trusted: seq<TrustedKey>, applied: seq<Applied>, now: int,
                  lib: Library): Result<Accepted, Refusal> {
    if |bytes| > MAX_ENVELOPE then Err(BadFormat)
    else
      match lib.readEnvelope(bytes)
      case None => Err(BadFormat)
      case Some(e) =>
        if !WellFormed(e) then Err(BadFormat)
        else
          match FindKey(trusted, e.feedId, e.keyId)
          case None => Err(UnknownKey)
          case Some(key) =>
            var pre := Preimage(e.feedId, e.keyId, e.manifest);
            if !lib.verifies(key.publicKey, pre, e.signature.value) then Err(BadSignature)
            else
              match lib.readManifest(e.manifest)
              case None => Err(BadManifest)
              case Some(m) =>
                if !ManifestOk(m, lib.entryOk) then Err(BadManifest)
                else if m.createdAt > now + CREATED_SKEW then Err(NotYetValid)
                else if now >= m.expiresAt then Err(Expired)
                else
                  match CheckSequence(m.sequence, lib.digest(pre), FindApplied(applied, e.feedId, e.keyId))
                  case Err(why) => Err(why)
                  case Ok(again) => Ok(Accepted(e.feedId, e.keyId, m, e.manifest, lib.digest(pre), again))
  }

  /** What an accepted feed guarantees: a trusted key signed exactly this manifest text, which is in force. */
  ghost predicate Genuine(a: Accepted, trusted: seq<TrustedKey>, now: int, lib: Library) {
    var pre := Preimage(a.feedId, a.keyId, a.text);
    && Identifier(a.feedId) && Identifier(a.keyId)
    && (exists key, signature ::
          key in trusted && key.feedId == a.feedId && key.keyId == a.keyId &&
          lib.verifies(key.publicKey, pre, signature))
    && lib.readManifest(a.text) == Some(a.manifest) && ManifestOk(a.manifest, lib.entryOk)
    && a.manifest.createdAt <= now + CREATED_SKEW && now < a.manifest.expiresAt
    && a.digest == lib.digest(pre)
    && (Decodes(lib) ==> |a.text| <= MAX_ENVELOPE)
  }

  lemma {:induction false} FoundKeyIsTrusted(trusted: seq<TrustedKey>, feedId: Text, keyId: Text)
    ensures var k := FindKey(trusted, feedId, keyId); k.Some? ==>
              k.value in trusted && k.value.feedId == feedId && k.value.keyId == keyId
  {
    if trusted != [] && !(trusted[0].feedId == feedId && trusted[0].keyId == keyId) {
      FoundKeyIsTrusted(trusted[1..], feedId, keyId);
    }
  }

  lemma AcceptedIsGenuine(bytes: Bytes, trusted: seq<TrustedKey>, applied: seq<Applied>, now: int, lib: Library)
    requires Verify(bytes, trusted, applied, now, lib).Ok?
    ensures Genuine(Verify(bytes, trusted, applied, now, lib).value, trusted, now, lib)
  {
    hide Preimage, ManifestOk, Identifier;
    var e := lib.readEnvelope(bytes).value;
    FoundKeyIsTrusted(trusted, e.feedId, e.keyId);
    var key := FindKey(trusted, e.feedId, e.keyId).value;
    assert lib.verifies(key.publicKey, Preimage(e.feedId, e.keyId, e.manifest), e.signature.value);
  }

  // ---- accepting, over whole runs ----------------------------------------------------------------

  datatype FeedKey = FeedKey(feedId: Text, keyId: Text)

  datatype Entry = Entry(sequence: nat, digest: Bytes)

  /** The `feed_state` table, and every acceptance recorded so far. */
  datatype World = World(table: map<FeedKey, Entry>, accepted: seq<Accepted>)

  /** `record_accepted`: a lower sequence, or an equal one with another digest, changes nothing. */
  function RecordAccepted(table: map<FeedKey, Entry>, a: Accepted): Option<map<FeedKey, Entry>> {
    var key := FeedKey(a.feedId, a.keyId);
    if a.manifest.sequence > I64_MAX then None
    else if key !in table || table[key].sequence < a.manifest.sequence
      || table[key] == Entry(a.manifest.sequence, a.digest)
    then Some(table[key := Entry(a.manifest.sequence, a.digest)])
    else None
  }

  /** One import: the feed is verified against a state read earlier, then recorded atomically. */
  datatype Import = Import(bytes: Bytes, trusted: seq<TrustedKey>, seen: seq<Applied>, now: int)

  function Step(w: World, i: Import, lib: Library): World {
    match Verify(i.bytes, i.trusted, i.seen, i.now, lib)
    case Err(_) => w
    case Ok(a) =>
      match RecordAccepted(w.table, a)
      case None => w
      case Some(table) => World(table, w.accepted + [a])
  }

  function Run(imports: seq<Import>, lib: Library): World {
    if imports == [] then World(map[], []) else Step(Run(imports[..|imports| - 1], lib), imports[|imports| - 1], lib)
  }

  predicate SameKey(a: Accepted, b: Accepted) {
    a.feedId == b.feedId && a.keyId == b.keyId
  }

  /** The table holds the last acceptance per key, which is the highest; equal sequences had equal digests. */
  ghost predicate Inv(w: World, lib: Library) {
    && (forall i :: 0 <= i < |w.accepted| ==>
          var a := w.accepted[i];
          && FeedKey(a.feedId, a.keyId) in w.table
          && a.manifest.sequence <= w.table[FeedKey(a.feedId, a.keyId)].sequence
          && (a.manifest.sequence == w.table[FeedKey(a.feedId, a.keyId)].sequence ==>
            a.digest == w.table[FeedKey(a.feedId, a.keyId)].digest)
          && a.digest == lib.digest(Preimage(a.feedId, a.keyId, a.text)) && Identifier(a.feedId) && Identifier(a.keyId)
          && lib.readManifest(a.text) == Some(a.manifest) && (Decodes(lib) ==> |a.text| <= MAX_ENVELOPE))
    && (forall i, j :: 0 <= i < j < |w.accepted| && SameKey(w.accepted[i], w.accepted[j]) ==>
          && w.accepted[i].manifest.sequence <= w.accepted[j].manifest.sequence
          && (w.accepted[i].manifest.sequence == w.accepted[j].manifest.sequence ==>
            w.accepted[i].digest == w.accepted[j].digest))
  }

  lemma StepKeepsInv(w: World, i: Import, lib: Library)
    requires Inv(w, lib)
    ensures Inv(Step(w, i, lib), lib)
  {
    hide Verify, Preimage, Identifier, ManifestOk, Decodes;
    var v := Verify(i.bytes, i.trusted, i.seen, i.now, lib);
    if v.Ok? {
      AcceptedIsGenuine(i.bytes, i.trusted, i.seen, i.now, lib);
    }
  }

  lemma {:induction false} RunKeepsInv(imports: seq<Import>, lib: Library)
    ensures Inv(Run(imports, lib), lib)
  {
    hide Inv, Step;
    if imports == [] {
      Nothing(lib);
    } else {
      RunKeepsInv(imports[..|imports| - 1], lib);
      StepKeepsInv(Run(imports[..|imports| - 1], lib), imports[|imports| - 1], lib);
    }
  }

  lemma Nothing(lib: Library)
    ensures Inv(World(map[], []), lib)
  {
  }

  ghost predicate CollisionFree(digest: Digest) {
    forall x, y :: digest(x) == digest(y) ==> x == y
  }

  /**
   Whatever is imported, in whatever order and against however old a reading of the
   state: for one feed and key the accepted sequences never fall, and a sequence accepted
   twice was the same manifest text both times.
   */
  lemma NoRollback(imports: seq<Import>, lib: Library, i: nat, j: nat)
    requires CollisionFree(lib.digest) && Decodes(lib)
    requires i < j < |Run(imports, lib).accepted|
               && SameKey(Run(imports, lib).accepted[i], Run(imports, lib).accepted[j])
    ensures var a, b := Run(imports, lib).accepted[i], Run(imports, lib).accepted[j];
            && a.manifest.sequence <= b.manifest.sequence
            && (a.manifest.sequence == b.manifest.sequence ==> a.text == b.text && a.manifest == b.manifest)
  {
    hide Run, Preimage, Pow256, Decodes;
    Powers();
    RunKeepsInv(imports, lib);
    var a, b := Run(imports, lib).accepted[i], Run(imports, lib).accepted[j];
    if a.manifest.sequence == b.manifest.sequence {
      PreimageIsInjective(a.feedId, a.keyId, a.text, b.feedId, b.keyId, b.text);
    }
  }

  /** The state a key is verified against refuses exactly what `record_accepted` would. */
  lemma VerifyAgreesWithRecord(a: Accepted, table: map<FeedKey, Entry>)
    requires a.manifest.sequence <= I64_MAX
    ensures var key := FeedKey(a.feedId, a.keyId);
            var known := if key in table then Some(Applied(a.feedId, a.keyId, table[key].sequence, table[key].digest))
              else None;
            RecordAccepted(table, a).Some? <==> CheckSequence(a.manifest.sequence, a.digest, known).Ok?
  {
  }

  // ---- a builder and a platform --------------------------------------------------------------------

  /** What an import was given of a key is what the table held of it. */
  predicate Reads(known: Option<Applied>, table: map<FeedKey, Entry>, key: FeedKey) {
    && (known.Some? <==> key in table)
    && (known.Some? ==> known.value.sequence == table[key].sequence && known.value.digest == table[key].digest)
  }

  /** An import of the builder's feed with this sequence. */
  ghost predicate IsFeed(i: Import, key: FeedKey, sequence: nat, lib: Library) {
    var e := lib.readEnvelope(i.bytes);
    e.Some? ==> FeedKey(e.value.feedId, e.value.keyId) == key &&
                (lib.readManifest(e.value.manifest).Some? ==>
                  lib.readManifest(e.value.manifest).value.sequence == sequence)
  }

  ghost predicate IsOther(i: Import, key: FeedKey, lib: Library) {
    var e := lib.readEnvelope(i.bytes);
    e.Some? ==> FeedKey(e.value.feedId, e.value.keyId) != key
  }

  /**
   Imports on a platform: feeds of one builder in the order it published them, any of them left
   out, and among them imports of other feeds or keys. `place` says which manifest an import is.
   Each is verified against the state of its key as it was at that moment or before.
   */
  ghost predicate Delivered(imports: seq<Import>, place: seq<Option<nat>>, history: seq<FeedBuild.Manifest>,
                            key: FeedKey, lib: Library) {
    && |place| == |imports|
    && (forall k :: 0 <= k < |place| ==>
          if place[k].None? then IsOther(imports[k], key, lib)
          else place[k].value < |history| && IsFeed(imports[k], key, history[place[k].value].sequence, lib))
    && (forall j, k :: 0 <= j < k < |place| && place[j].Some? && place[k].Some? ==> place[j].value < place[k].value)
    && (forall k :: 0 <= k < |place| && place[k].Some? ==> ReadBefore(imports, k, key, lib))
  }

  ghost predicate ReadBefore(imports: seq<Import>, k: nat, key: FeedKey, lib: Library)
    requires k < |imports|
  {
    exists m :: 0 <= m <= k
      && Reads(FindApplied(imports[k].seen, key.feedId, key.keyId), Run(imports[..m], lib).table, key)
  }

  lemma VerifiedIs(i: Import, lib: Library)
    ensures var r, e := Verify(i.bytes, i.trusted, i.seen, i.now, lib), lib.readEnvelope(i.bytes);
            && (r.Ok? ==> e.Some? && r.value.feedId == e.value.feedId && r.value.keyId == e.value.keyId
                          && lib.readManifest(e.value.manifest) == Some(r.value.manifest))
            && (r.Err? && (r.error.SequenceReplay? || r.error.SequenceConflict?) ==>
                  && e.Some? && lib.readManifest(e.value.manifest).Some?
                  && var m := lib.readManifest(e.value.manifest).value;
                     CheckSequence(m.sequence, lib.digest(Preimage(e.value.feedId, e.value.keyId, e.value.manifest)),
                                   FindApplied(i.seen, e.value.feedId, e.value.keyId)).Err?)
  {
    hide Preimage, ManifestOk, WellFormed, FindKey, FindApplied, CheckSequence;
  }

  /** What the table holds for the key came from one of its feeds imported so far. */
  lemma {:induction false} TableIsFromHistory(imports: seq<Import>, place: seq<Option<nat>>,
                                              history: seq<FeedBuild.Manifest>,
                                              key: FeedKey, n: nat, lib: Library)
    requires n <= |imports| && Delivered(imports, place, history, key, lib) && key in Run(imports[..n], lib).table
    ensures exists k :: 0 <= k < n && place[k].Some? &&
                        Run(imports[..n], lib).table[key].sequence == history[place[k].value].sequence
  {
    hide Verify, ReadBefore, IsOther, IsFeed;
    if n > 0 {
      assert imports[..n][..n - 1] == imports[..n - 1] && imports[..n][n - 1] == imports[n - 1];
      var w, i := Run(imports[..n - 1], lib), imports[n - 1];
      var table := Run(imports[..n], lib).table;
      if key in w.table && table[key] == w.table[key] {
        TableIsFromHistory(imports, place, history, key, n - 1, lib);
      } else {
        RecordedIsThis(w, i, place[n - 1], history, key, lib);
      }
    }
  }

  lemma RecordedIsThis(w: World, i: Import, place: Option<nat>, history: seq<FeedBuild.Manifest>, key: FeedKey,
                       lib: Library)
    requires
      if place.None? then IsOther(i, key, lib)
      else place.value < |history| && IsFeed(i, key, history[place.value].sequence, lib)
    requires key in Step(w, i, lib).table && !(key in w.table && Step(w, i, lib).table[key] == w.table[key])
    ensures place.Some? && Step(w, i, lib).table[key].sequence == history[place.value].sequence
  {
    hide Verify;
    VerifiedIs(i, lib);
  }

  /**
   A builder whose clock moves on after builds that were cut off is never refused for its
   sequence: whichever of its feeds reach the platform, in order, each passes the rule against
   any earlier reading of the state, and once verified is recorded.
   */
  lemma BuilderIsNeverRefused(events: seq<FeedBuild.Event>, hash: FeedBuild.Hash, imports: seq<Import>,
                              place: seq<Option<nat>>,
                              key: FeedKey, k: nat, lib: Library)
    requires FeedBuild.Legal(events, hash) && FeedBuild.ClockMovedThroughout(events, hash)
    requires Delivered(imports, place, FeedBuild.After(events, hash).history, key, lib) && k < |imports|
             && place[k].Some?
    ensures var r := Verify(imports[k].bytes, imports[k].trusted, imports[k].seen, imports[k].now, lib);
            && r != Err(SequenceReplay) && r != Err(SequenceConflict)
            && (r.Ok? && r.value.manifest.sequence <= I64_MAX ==>
              RecordAccepted(Run(imports[..k], lib).table, r.value).Some?)
  {
    hide FeedBuild.After, FeedBuild.Legal, FeedBuild.ClockMovedThroughout, Verify, Run, IsOther, Preimage, FindApplied;
    var history := FeedBuild.After(events, hash).history;
    FeedBuild.SequencesRiseExactly(events, hash);
    VerifiedIs(imports[k], lib);
    assert ReadBefore(imports, k, key, lib);
    var m :| 0 <= m <= k
      && Reads(FindApplied(imports[k].seen, key.feedId, key.keyId), Run(imports[..m], lib).table, key);
    EarlierIsLower(imports, place, history, key, m, k, lib);
    EarlierIsLower(imports, place, history, key, k, k, lib);
    assert IsFeed(imports[k], key, history[place[k].value].sequence, lib);
  }

  lemma EarlierIsLower(imports: seq<Import>, place: seq<Option<nat>>, history: seq<FeedBuild.Manifest>, key: FeedKey,
                       m: nat, k: nat, lib: Library)
    requires FeedBuild.Rising(history) && Delivered(imports, place, history, key, lib) && m <= k < |imports|
             && place[k].Some?
    ensures var table := Run(imports[..m], lib).table;
            key in table ==> table[key].sequence < history[place[k].value].sequence
  {
    hide Run, IsOther, IsFeed, ReadBefore;
    if key in Run(imports[..m], lib).table {
      TableIsFromHistory(imports, place, history, key, m, lib);
      var j :| 0 <= j < m && place[j].Some? && Run(imports[..m],
        lib).table[key].sequence == history[place[j].value].sequence;
      assert place[j].value < place[k].value;
    }
  }

  // ---- where everything stands in the signed bytes --------------------------------------------------

  /** Bytes read as a number, most significant first. */
  function Number(b: Bytes): nat {
    if b == [] then 0 else 256 * Number(b[..|b| - 1]) + b[|b| - 1]
  }

  lemma {:induction false} BigEndianReadsBack(n: nat, width: nat)
    requires n < Pow256(width)
    ensures Number(BigEndian(n, width)) == n
  {
    if width > 0 {
      var b := BigEndian(n / 256, width - 1);
      assert (b + [n % 256])[..width - 1] == b;
      BigEndianReadsBack(n / 256, width - 1);
    }
  }

  lemma SizedIs(text: Text, width: nat)
    requires |text| < Pow256(width)
    ensures var b := Sized(text, width);
            |b| == width + |text| && Number(b[..width]) == |text| && b[width..] == text
  {
    hide Number, Pow256, BigEndian;
    BigEndianReadsBack(|text|, width);
    assert Sized(text, width)[..width] == BigEndian(|text|, width);
  }

  /**
   The signed bytes: 26 letters of a prefix and a zero, the format as two bytes, and feed id, key id and
   manifest in this order, each after its length in four, four and eight bytes.
   */
  lemma PreimageLayout(f: Text, k: Text, m: Text)
    requires |f| <= U32_MAX && |k| <= U32_MAX && |m| < Pow256(8)
    ensures var p, a, b := Preimage(f, k, m), 33 + |f|, 37 + |f| + |k|;
            && |p| == b + 8 + |m|
            && p[..26] == Ascii("OPENVIBES-FEED-MANIFEST-V1") && p[26..29] == [0, 0, 1]
            && Number(p[29..33]) == |f| && p[33..a] == f
            && Number(p[a..a + 4]) == |k| && p[a + 4..b] == k
            && Number(p[b..b + 8]) == |m| && p[b + 8..] == m
  {
    hide Sized, Pow256, Ascii, Number, BigEndian;
    Powers();
    SizedIs(f, 4);
    SizedIs(k, 4);
    SizedIs(m, 8);
    FormatIs();
    var head, p := PREFIX + BigEndian(1, 2), Preimage(f, k, m);
    assert |Ascii("OPENVIBES-FEED-MANIFEST-V1")| == 26;
    assert |head| == 29 && head[..26] == Ascii("OPENVIBES-FEED-MANIFEST-V1") && head[26..] == [0, 0, 1];
    Pieces(head, Sized(f, 4), Sized(k, 4), Sized(m, 8), p);
    Nested(p, 29, 4, |f|);
    Nested(p, 33 + |f|, 4, |k|);
    Nested(p, 37 + |f| + |k|, 8, |m|);
    assert p[..26] == p[..29][..26] && p[26..29] == p[..29][26..];
    var b := 37 + |f| + |k|;
    assert p[b..] == p[b..b + 8 + |m|] && p[b + 8..] == p[b + 8..b + 8 + |m|];
  }

  lemma FormatIs()
    ensures BigEndian(1, 2) == [0, 1]
  {
    assert BigEndian(0, 0) == [] && BigEndian(0, 1) == [0];
  }

  lemma Pieces(head: Bytes, x: Bytes, y: Bytes, z: Bytes, p: Bytes)
    requires p == head + x + y + z
    ensures var a, b, c := |head|, |head| + |x|, |head| + |x| + |y|;
            |p| == c + |z| && p[..a] == head && p[a..b] == x && p[b..c] == y && p[c..] == z
  {
  }

  lemma Nested(p: Bytes, at: nat, width: nat, size: nat)
    requires at + width + size <= |p|
    ensures var part := p[at..at + width + size];
            p[at..at + width] == part[..width] && p[at + width..at + width + size] == part[width..]
  {
  }

  /** The length of an id that needs more than four bytes is written as the largest they hold. */
  lemma LongIdsSaturate(text: Text)
    requires |text| > U32_MAX
    ensures Number(SizedId(text)[..4]) == 4_294_967_295 && SizedId(text)[4..] == text
  {
    hide BigEndian, Number, Pow256;
    Powers();
    BigEndianReadsBack(U32_MAX, 4);
    assert SizedId(text)[..4] == BigEndian(U32_MAX, 4);
  }

  // ---- exactly when a feed is accepted --------------------------------------------------------------

  predicate IsName(text: Text) {
    1 <= |text| <= 128 && forall c :: c in text ==>
      || 'A' as int <= c <= 'Z' as int || 'a' as int <= c <= 'z' as int || '0' as int <= c <= '9' as int
      || c == '.' as int || c == '_' as int || c == ':' as int || c == '-' as int
  }

  /** The envelope is at most a mebibyte, can be read, and its own fields are right. */
  predicate Shaped(bytes: Bytes, lib: Library) {
    && |bytes| <= 1_048_576 && lib.readEnvelope(bytes).Some?
    && var e := lib.readEnvelope(bytes).value;
    && e.format == 1 && IsName(e.feedId) && IsName(e.keyId) && 2 <= e.manifestChars <= 1_048_576
    && e.signature.Some? && |e.signature.value| == 64
  }

  /** The first trusted key with the envelope's ids. */
  ghost predicate IsKey(trusted: seq<TrustedKey>, e: Envelope, i: int) {
    && 0 <= i < |trusted| && trusted[i].feedId == e.feedId && trusted[i].keyId == e.keyId
    && forall j :: 0 <= j < i ==> trusted[j].feedId != e.feedId || trusted[j].keyId != e.keyId
  }

  /** The first known acceptance with the envelope's ids. */
  ghost predicate IsKnown(applied: seq<Applied>, e: Envelope, i: int) {
    && 0 <= i < |applied| && applied[i].feedId == e.feedId && applied[i].keyId == e.keyId
    && forall j :: 0 <= j < i ==> applied[j].feedId != e.feedId || applied[j].keyId != e.keyId
  }

  /** That key's signature over exactly this feed, key and manifest text. */
  ghost predicate Signed(bytes: Bytes, trusted: seq<TrustedKey>, lib: Library) {
    && Shaped(bytes, lib)
    && var e := lib.readEnvelope(bytes).value;
    exists i :: IsKey(trusted, e, i) && lib.verifies(trusted[i].publicKey, Preimage(e.feedId, e.keyId, e.manifest),
                                                     e.signature.value)
  }

  /** The manifest can be read and keeps the rules: times in order, 1 to 64 sound files, no file twice. */
  ghost predicate Ruled(text: Text, lib: Library) {
    && lib.readManifest(text).Some?
    && var m := lib.readManifest(text).value;
    && m.sequence >= 1 && 1 <= m.createdAt < m.expiresAt <= 4_102_444_800 && 1 <= |m.files| <= 64
    && (forall f :: f in m.files ==> lib.entryOk(f))
    && (forall i, j :: 0 <= i < |m.files| && 0 <= j < |m.files| && i != j ==>
          !(m.files[i].source == m.files[j].source && m.files[i].name == m.files[j].name))
  }

  ghost predicate InForce(bytes: Bytes, trusted: seq<TrustedKey>, now: int, lib: Library) {
    && Signed(bytes, trusted, lib)
    && var text := lib.readEnvelope(bytes).value.manifest;
    Ruled(text, lib) && lib.readManifest(text).value.createdAt <= now + 600
    && now < lib.readManifest(text).value.expiresAt
  }

  lemma NamesAre(text: Text)
    ensures IsName(text) <==> Identifier(text)
  {
    if Identifier(text) {
      forall c | c in text ensures IsIdByte(c) { }
    }
    if IsName(text) {
      forall i | 0 <= i < |text| ensures IsIdByte(text[i]) { assert text[i] in text; }
    }
  }

  lemma ShapedIs(bytes: Bytes, lib: Library)
    ensures Shaped(bytes, lib) <==>
            |bytes| <= MAX_ENVELOPE && lib.readEnvelope(bytes).Some? && WellFormed(lib.readEnvelope(bytes).value)
  {
    hide IsName, Identifier;
    if lib.readEnvelope(bytes).Some? {
      NamesAre(lib.readEnvelope(bytes).value.feedId);
      NamesAre(lib.readEnvelope(bytes).value.keyId);
    }
  }

  lemma RuledIs(text: Text, lib: Library)
    ensures Ruled(text, lib) <==> lib.readManifest(text).Some? && ManifestOk(lib.readManifest(text).value, lib.entryOk)
  {
    if lib.readManifest(text).Some? {
      var m := lib.readManifest(text).value;
      forall i | 0 <= i < |m.files| ensures m.files[i] in m.files { }
    }
  }

  lemma {:induction false} KeyIsFirst(trusted: seq<TrustedKey>, e: Envelope)
    ensures var k := FindKey(trusted, e.feedId, e.keyId);
            && (k.None? <==> forall key :: key in trusted ==> key.feedId != e.feedId || key.keyId != e.keyId)
            && (forall i :: IsKey(trusted, e, i) ==> k == Some(trusted[i]))
            && (k.Some? ==> exists i :: IsKey(trusted, e, i))
  {
    if trusted == [] {
    } else if trusted[0].feedId == e.feedId && trusted[0].keyId == e.keyId {
      assert IsKey(trusted, e, 0);
    } else {
      var rest := trusted[1..];
      KeyIsFirst(rest, e);
      assert trusted == [trusted[0]] + rest;
      forall i | IsKey(trusted, e, i) ensures IsKey(rest, e, i - 1) { }
      if i :| IsKey(rest, e, i) { assert IsKey(trusted, e, i + 1); }
    }
  }

  lemma {:induction false} KnownIsFirst(applied: seq<Applied>, e: Envelope)
    ensures var k := FindApplied(applied, e.feedId, e.keyId);
            && (forall i :: IsKnown(applied, e, i) ==> k == Some(applied[i]))
            && (k.Some? <==> exists i :: IsKnown(applied, e, i))
  {
    if applied == [] {
    } else if applied[0].feedId == e.feedId && applied[0].keyId == e.keyId {
      assert IsKnown(applied, e, 0);
    } else {
      var rest := applied[1..];
      KnownIsFirst(rest, e);
      assert applied == [applied[0]] + rest;
      forall i | IsKnown(applied, e, i) ensures IsKnown(rest, e, i - 1) { }
      if i :| IsKnown(rest, e, i) { assert IsKnown(applied, e, i + 1); }
    }
  }

  lemma SignedIs(bytes: Bytes, trusted: seq<TrustedKey>, lib: Library)
    ensures Signed(bytes, trusted, lib) <==>
            && Shaped(bytes, lib)
            && var e := lib.readEnvelope(bytes).value;
               FindKey(trusted, e.feedId, e.keyId).Some?
               && lib.verifies(FindKey(trusted, e.feedId, e.keyId).value.publicKey,
                               Preimage(e.feedId, e.keyId, e.manifest), e.signature.value)
  {
    hide FindKey, Preimage, IsName;
    if Shaped(bytes, lib) {
      var e := lib.readEnvelope(bytes).value;
      KeyIsFirst(trusted, e);
      if FindKey(trusted, e.feedId, e.keyId).Some? { var i :| IsKey(trusted, e, i); }
    }
  }

  /** Every refusal up to the times holds exactly under its own condition. */
  lemma RefusedExactly(bytes: Bytes, trusted: seq<TrustedKey>, applied: seq<Applied>, now: int, lib: Library)
    ensures var v := Verify(bytes, trusted, applied, now, lib);
            && (v == Err(BadFormat) <==> !Shaped(bytes, lib))
            && (v == Err(UnknownKey) <==>
                Shaped(bytes, lib) && var e := lib.readEnvelope(bytes).value;
                forall key :: key in trusted ==> key.feedId != e.feedId || key.keyId != e.keyId)
            && (v == Err(BadSignature) <==>
                && Shaped(bytes, lib) && !Signed(bytes, trusted, lib)
                && var e := lib.readEnvelope(bytes).value;
                exists key :: key in trusted && key.feedId == e.feedId && key.keyId == e.keyId)
            && (v == Err(BadManifest) <==>
                Signed(bytes, trusted, lib) && !Ruled(lib.readEnvelope(bytes).value.manifest, lib))
            && (v == Err(NotYetValid) <==>
                Signed(bytes, trusted, lib) && var text := lib.readEnvelope(bytes).value.manifest;
                Ruled(text, lib) && lib.readManifest(text).value.createdAt > now + 600)
            && (v == Err(Expired) <==>
                Signed(bytes, trusted, lib) && var text := lib.readEnvelope(bytes).value.manifest;
                && Ruled(text, lib) && lib.readManifest(text).value.createdAt <= now + 600
                && now >= lib.readManifest(text).value.expiresAt)
  {
    hide FindKey, FindApplied, Preimage, ManifestOk, WellFormed, Shaped, Ruled, Signed;
    ShapedIs(bytes, lib);
    SignedIs(bytes, trusted, lib);
    if Shaped(bytes, lib) {
      var e := lib.readEnvelope(bytes).value;
      KeyIsFirst(trusted, e);
      RuledIs(e.manifest, lib);
    }
  }

  /** The sequence of the feed is what the first known acceptance of its ids allows. */
  ghost predicate Follows(bytes: Bytes, applied: seq<Applied>, i: int, lib: Library)
    requires lib.readEnvelope(bytes).Some? && lib.readManifest(lib.readEnvelope(bytes).value.manifest).Some?
    requires 0 <= i < |applied|
  {
    var e := lib.readEnvelope(bytes).value;
    var m := lib.readManifest(e.manifest).value;
    || m.sequence > applied[i].sequence
    || (m.sequence == applied[i].sequence && lib.digest(Preimage(e.feedId, e.keyId, e.manifest)) == applied[i].digest)
  }

  /**
   A feed in force is refused for its sequence exactly when it is below the known one, or equal with
   another digest; otherwise it is accepted with its manifest and text, as a repetition exactly when the
   sequence is the known one. Nothing else is accepted.
   */
  lemma AcceptedExactly(bytes: Bytes, trusted: seq<TrustedKey>, applied: seq<Applied>, now: int, lib: Library)
    ensures var v := Verify(bytes, trusted, applied, now, lib);
            && (v.Ok? || v == Err(SequenceReplay) || v == Err(SequenceConflict) <==> InForce(bytes, trusted, now, lib))
            && (InForce(bytes, trusted, now, lib) ==>
                  var e := lib.readEnvelope(bytes).value;
                  var m := lib.readManifest(e.manifest).value;
                  && (v == Err(SequenceReplay) <==>
                      exists i :: IsKnown(applied, e, i) && m.sequence < applied[i].sequence)
                  && (v.Ok? <==> forall i :: IsKnown(applied, e, i) ==> Follows(bytes, applied, i, lib))
                  && (v.Ok? ==>
                        && v.value.feedId == e.feedId && v.value.keyId == e.keyId
                        && v.value.manifest == m && v.value.text == e.manifest
                        && v.value.digest == lib.digest(Preimage(e.feedId, e.keyId, e.manifest))
                        && (v.value.again <==>
                            exists i :: IsKnown(applied, e, i) && m.sequence == applied[i].sequence)))
  {
    hide FindKey, FindApplied, Preimage, ManifestOk, WellFormed, Shaped, Ruled, Signed, IsKnown;
    ShapedIs(bytes, lib);
    SignedIs(bytes, trusted, lib);
    if Shaped(bytes, lib) {
      var e := lib.readEnvelope(bytes).value;
      RuledIs(e.manifest, lib);
      KnownIsFirst(applied, e);
      if i :| IsKnown(applied, e, i) { KnownIn(applied, e, i); }
    }
  }

  lemma KnownIn(applied: seq<Applied>, e: Envelope, i: int)
    requires IsKnown(applied, e, i)
    ensures forall j :: IsKnown(applied, e, j) ==> j == i
  {
  }

  /**
   A genuine feed is accepted, whichever of the trusted keys signed it: with one key and one known
   acceptance per pair of ids, whatever is within the limits, signed, by the rules, in force and above the
   known sequence, or the known feed again.
   */
  lemma GenuineIsAccepted(bytes: Bytes, trusted: seq<TrustedKey>, key: TrustedKey, applied: seq<Applied>, now: int,
                          lib: Library)
    requires Shaped(bytes, lib) && key in trusted
    requires forall i, j :: 0 <= i < j < |trusted| ==>
               trusted[i].feedId != trusted[j].feedId || trusted[i].keyId != trusted[j].keyId
    requires var e := lib.readEnvelope(bytes).value;
             && key.feedId == e.feedId && key.keyId == e.keyId
             && lib.verifies(key.publicKey, Preimage(e.feedId, e.keyId, e.manifest), e.signature.value)
             && Ruled(e.manifest, lib)
             && var m := lib.readManifest(e.manifest).value;
             && m.createdAt <= now + 600 && now < m.expiresAt
             && forall known :: known in applied && known.feedId == e.feedId && known.keyId == e.keyId ==>
                  || m.sequence > known.sequence
                  || (m.sequence == known.sequence
                      && lib.digest(Preimage(e.feedId, e.keyId, e.manifest)) == known.digest)
    ensures var v, e := Verify(bytes, trusted, applied, now, lib), lib.readEnvelope(bytes).value;
            v.Ok? && Some(v.value.manifest) == lib.readManifest(e.manifest) && v.value.text == e.manifest
  {
    hide Verify, Preimage, IsName;
    var e := lib.readEnvelope(bytes).value;
    var i :| 0 <= i < |trusted| && trusted[i] == key;
    assert IsKey(trusted, e, i);
    assert Signed(bytes, trusted, lib);
    AcceptedExactly(bytes, trusted, applied, now, lib);
    forall j | IsKnown(applied, e, j) ensures Follows(bytes, applied, j, lib) { assert applied[j] in applied; }
  }

  // ---- exactly what is recorded ---------------------------------------------------------------------

  /** What the table may hold of a feed for it to be recorded: nothing, a lower sequence, or the very feed. */
  predicate Recordable(table: map<FeedKey, Entry>, a: Accepted) {
    var key := FeedKey(a.feedId, a.keyId);
    && a.manifest.sequence < 0x8000_0000_0000_0000
    && (key in table ==>
          || table[key].sequence < a.manifest.sequence
          || (table[key].sequence == a.manifest.sequence && table[key].digest == a.digest))
  }

  /**
   One more import adds an acceptance exactly when the feed verifies and can be recorded; then the table
   holds it for its ids, and in every other case nothing changes.
   */
  lemma ImportExactly(imports: seq<Import>, i: Import, lib: Library)
    ensures var w, w' := Run(imports, lib), Run(imports + [i], lib);
            var v := Verify(i.bytes, i.trusted, i.seen, i.now, lib);
            if v.Ok? && Recordable(w.table, v.value)
            then
              && w'.accepted == w.accepted + [v.value]
              && (forall k :: k in w'.table <==> k in w.table || k == FeedKey(v.value.feedId, v.value.keyId))
              && (forall k :: k in w.table && k != FeedKey(v.value.feedId, v.value.keyId) ==> w'.table[k] == w.table[k])
              && w'.table[FeedKey(v.value.feedId, v.value.keyId)] == Entry(v.value.manifest.sequence, v.value.digest)
            else w' == w
  {
    hide Verify;
    assert (imports + [i])[..|imports|] == imports;
  }

  /** Nothing is there before the first import. */
  lemma NothingImported(lib: Library)
    ensures Run([], lib).accepted == [] && Run([], lib).table == map[]
  {
  }
}
