# Verified model of the openvibes platform's core

A Dafny model of the parts of the platform whose correctness is not visible in one function, with
proofs about all inputs, all runs or all reachable states:

- **Version orders and matching** (`Orders`, `DpkgVersion`, `RpmVersion`, `Matching`, `FastMatching`,
  `Reports`, `Cpe`): the dpkg and rpm comparison loops equal a lexicographic order of sort keys, so they are
  total preorders, and order written versions by epoch, version and revision; which host is affected by which
  advisory, in the terms of the rows; the prefilter, batches and product filter lose nothing.
- **The signer** (`Signer`): versions never repeat through failed writes, crashes, restarts and reseeds;
  the sliding rate window.
- **The signed feed** (`TarFormat`, `TarWriter`, `TarReader`, `Archives`, `BundleRoundTrip`, `FeedBuild`,
  `NvdSync`, `FeedVerify`, `FeedImport`): the tar writer and reader undo each other, exactly the archives of a
  feed are unpacked, exactly the genuine feeds are accepted, the blob tree keeps what readers need at every step, the resumable read mirrors its source, and
  sequences never roll back.
- **Network alarms** (`Cef`, `CefRoundTrip`, `Datagrams`, `Collapse`, `Scans`, `Netlog`): the event parser reads back
  what the format prints, a scan that goes on is one alarm, exactly when the bounded map and the database keep
  every alarm, and every datagram is counted once.
- **Query filter and licences** (`QueryFilter`, `Addresses`, `Licence`): a query is refused exactly for the words and
  addresses written in it; the simplified licence expression means the same as its inputs.

Loops, maps updated in place and objects of the source are methods, loops and classes here, each proved
against a specification function or predicate; the lemmas are about those. Protocols that are cut short
or interleaved are state machines (`World`, `Event`, `Step` or `After`), and the classes refine them.

SHA-256, Ed25519, JSON decoding, UTF-8 decoding, lowercasing, parsing of one IPv6 address and sorting are
function parameters. Where a theorem needs something of one of them (a collision-free digest, a sort that lists
exactly its set), it says so in its `requires`.

Places where the code does not do what it promises for every input each have a concrete counterexample
and the condition under which the promise holds:

- a publish whose time was taken before it waited for the lock can exceed the hourly limit
  (`Signer.LateTimestampsBeatTheLimit`; exactly when: `Signer.WithinExactly`; never if nothing dropped from the
  queue is within an hour of a publish: `Signer.NoHourOverTheLimit`);
- data after 21 zero blocks of a bundle is ignored, not refused (`TarReader.LateDataIsIgnored`; exactly when:
  `TarReader.TrailerExactly`);
- an OSV file of the largest allowed size is accepted and cannot be packed
  (`BundleRoundTrip.LargestOsvFileCannotBePacked`; exactly what is packed: `TarWriter.Bundle`);
- a blob of the previous manifest can be pruned when its build was not recorded (`FeedBuild.PreviousBlobIsLost`;
  exactly which: `FeedBuild.PruneTakesTheRest`);
- so can a blob `nvd-state.json` names, when the prune cannot read that file (`FeedBuild.NvdBlobIsLost`; exactly
  which: `FeedBuild.PruneTakesTheRest`; never while each prune can: `FeedBuild.ReadersFindTheirBlobs`);
- after an unrecorded build a sequence can repeat (`FeedBuild.SequenceRepeats`; exactly when:
  `FeedBuild.SequencesRiseExactly`);
- the need to read NVD again is lost by advisories in a feed without NVD files, by an advisory file that fails
  half-way, and by a stop between storing products or advisories and forgetting NVD's hashes
  (`FeedImport.NeedIsLost`; exactly when, and when it comes back: `FeedImport.ImportLeavesStale`);
- an alarm that restarts in its millisecond loses an event, and one whose day has no partition is lost
  (`Collapse.SameMillisecondLosesAnEvent`, `Collapse.SkippedAlarmIsLost`; exactly when: `Collapse.NoAlarmIsLost`);
- a counter flush that is committed and not answered is added twice (`Netlog.CountedTwice`; exactly when:
  `Netlog.CountersAddUpExactly`);
- the order of equally new rows of a group can decide whether a host is reported (`Matching.RowOrderCanDecide`;
  exactly when: `Matching.RowOrderDecidesExactly`, `Matching.ReportDependsOnRowOrderExactly`);
- an extra licence whose `OR` stands next to a tab is not put in parentheses (`Licence.TabHidesAnOr`; exactly when
  that matters: `Licence.KeptExactlyWhen`).

## Model

| member | source | states |
|---|---|---|
| Orders.FirstDifferenceDecides | crates/openvibes-vulns/src/dpkgver.rs:20-59 | the order of two zero-padded keys is the order of their first difference |
| Orders.PadCmpTransitive | crates/openvibes-vulns/src/dpkgver.rs:20-59 | comparing zero-padded keys is transitive, and equal keys stand in for each other |
| DpkgVersion.CompareStripped | crates/openvibes-vulns/src/dpkgver.rs:40-56 | the digit loop, leading zeros gone, orders both runs as numbers and leaves what follows them |
| DpkgVersion.Verrevcmp | crates/openvibes-vulns/src/dpkgver.rs:22-59 | the two-pointer loop ends and gives the lexicographic order of the parts' sort keys |
| DpkgVersion.Compare | crates/openvibes-vulns/src/dpkgver.rs:79-85 | the method decides as the order of whole versions does, which `UpstreamThenRevision`, `EpochsDecide` and `MissingParts` state on written texts |
| DpkgVersion.PartTotalPreorder | crates/openvibes-vulns/src/dpkgver.rs:22-59 | the order of parts is reflexive, antisymmetric up to equality, transitive and total |
| DpkgVersion.TotalPreorder | crates/openvibes-vulns/src/dpkgver.rs:64-85 | the order of whole versions is a total preorder on all strings |
| DpkgVersion.TildeEndLetterSymbol | crates/openvibes-vulns/src/dpkgver.rs:10-18 | after any common start: tilde before the end, the end before letters, letters before other characters |
| DpkgVersion.DigitRunsCompareAsNumbers | crates/openvibes-vulns/src/dpkgver.rs:34-56 | after any common start, digit runs compare as numbers whatever their zeros and whatever follows |
| DpkgVersion.SameKindComparesAsBytes | crates/openvibes-vulns/src/dpkgver.rs:10-18 | after any common start two letters compare as bytes, and so do two other symbols |
| DpkgVersion.UpstreamThenRevision | crates/openvibes-vulns/src/dpkgver.rs:64-85 | of two versions without epochs the texts before the last hyphens decide, and those after them only between equal ones |
| DpkgVersion.EpochsDecide | crates/openvibes-vulns/src/dpkgver.rs:64-85 | a smaller number before the first colon decides whatever follows; equal ones, and all beyond 64 bits, leave it to the rest |
| DpkgVersion.MissingParts | crates/openvibes-vulns/src/dpkgver.rs:64-77 | no epoch, or one that is no number, is epoch 0; no revision is an empty one |
| RpmVersion.SkipSeparators | crates/openvibes-vulns/src/rpmver.rs:17-22 | skips exactly the separators in front, which do not change the sort key |
| RpmVersion.CompareSegments | crates/openvibes-vulns/src/rpmver.rs:55-88 | one round on two segments decides as the sort keys do, or leaves rests whose keys decide |
| RpmVersion.Rpmvercmp | crates/openvibes-vulns/src/rpmver.rs:10-95 | the loop ends and gives the lexicographic order of the sort keys |
| RpmVersion.TotalPreorder | crates/openvibes-vulns/src/rpmver.rs:10-95 | the rpm order is a total preorder on all strings |
| RpmVersion.TildeEndCaret | crates/openvibes-vulns/src/rpmver.rs:23-51 | after any common start a tilde sorts before the end and a caret after it |
| RpmVersion.CaretLetterDigit | crates/openvibes-vulns/src/rpmver.rs:34-73 | at the start of a segment: caret before letters, letters before digits |
| RpmVersion.DigitRunsCompareAsNumbers | crates/openvibes-vulns/src/rpmver.rs:55-88 | after any common start, digit runs compare as numbers whatever their zeros and whatever follows |
| RpmVersion.LetterRunsCompareBytewise | crates/openvibes-vulns/src/rpmver.rs:55-88 | after any common start, letter runs compare bytewise, a run before its longer ones |
| RpmVersion.SeparatorsDoNotCount | crates/openvibes-vulns/src/rpmver.rs:16-22 | a separator between segments changes nothing |
| RpmVersion.CompareEvr | crates/openvibes-vulns/src/matching.rs:143-163 | the method decides as the order of whole versions does, which `VersionThenRelease`, `EpochsDecide` and `MissingParts` state on written texts |
| RpmVersion.EvrTotalPreorder | crates/openvibes-vulns/src/rpmver.rs:99-103 | the order of epoch, version and release is a total preorder |
| RpmVersion.VersionThenRelease | crates/openvibes-vulns/src/matching.rs:143-163 | of two texts without epochs those before the last hyphens decide, and those after them only between equal ones |
| RpmVersion.EpochsDecide | crates/openvibes-vulns/src/matching.rs:143-163 | a smaller number before the first colon decides whatever follows; equal ones, and all beyond 32 bits, leave it to the rest |
| RpmVersion.MissingParts | crates/openvibes-vulns/src/matching.rs:143-154 | no epoch, or one that is no number, is epoch 0; no release is an empty one |
| Matching.OrderIsTotalPreorder | crates/openvibes-vulns/src/matching.rs:157-163 | the order of either scheme is a total preorder |
| Matching.KeyOrderIsTotal | crates/openvibes-vulns/src/matching.rs:209-219 | the order of the group keys is total, so the walk over the groups has one order |
| Matching.NewestPerGroup | crates/openvibes-vulns/src/matching.rs:208-224 | one pass keeps for every group the first row that no later row is newer than |
| Matching.Evaluate | crates/openvibes-vulns/src/matching.rs:207-268 | the report describes exactly the affected groups, one entry per package name, that of the first group in key order; `Reports` says which those are |
| Matching.DescribesOnce | crates/openvibes-vulns/src/matching.rs:225-268 | only one report describes a set of affected groups |
| Matching.NewestIsNewest | crates/openvibes-vulns/src/matching.rs:211-224 | in groups compared in one scheme, the row kept for a group is at least as new as every row of it |
| Matching.SameVersionSameAnswer | crates/openvibes-vulns/src/matching.rs:168-200 | equally new versions in one uniform group are affected alike |
| Matching.ReportedExactlyWhenNewestAffected | crates/openvibes-vulns/src/matching.rs:207-268 | if equally new rows of a group are affected alike, a host and advisory are reported if and only if some group's newest version is in range or its rpm kernel runs below the fix |
| Matching.RowOrderIsIrrelevant | crates/openvibes-vulns/src/matching.rs:207-268 | if equally new rows of a group are affected and shown alike, the same rows in any order, repeated or not, give the same report and reboot flags, up to which of equal versions is printed |
| Matching.UniformIsShownAlike | crates/openvibes-vulns/src/matching.rs:168-200 | rows of a group that share scheme, range, fix and running kernel are affected and shown alike |
| Matching.RowOrderDecidesExactly | crates/openvibes-vulns/src/matching.rs:207-224 | every order of the rows gives the same affected groups if and only if equally new rows of a group are affected alike |
| Matching.ReportDependsOnRowOrderExactly | crates/openvibes-vulns/src/matching.rs:207-268 | whether a host and advisory are reported depends on the order of the rows exactly when some newest row is affected and no group has only affected newest rows |
| Matching.EqualVersionsOfDifferentRanges | crates/openvibes-vulns/src/matching.rs:220-223 | among equally new rows of a group the first one is kept, so rows that disagree about the range are decided by their order |
| Matching.RowOrderCanDecide | crates/openvibes-vulns/src/matching.rs:220-223 | two concrete rows of one group and one installed version that are reported in one order and not in the other |
| FastMatching.PerVersion | crates/openvibes-vulns/src/matching.rs:40-72 | the pairs to look at, the findings without a fix and the versions evaluated, as sets over all candidates |
| FastMatching.KeepGroups | crates/openvibes-vulns/src/matching.rs:87-112 | asking only for some whole groups leaves their affected groups and newest rows as they were |
| FastMatching.PrefilterLosesNothing | crates/openvibes-vulns/src/matching.rs:40-72 | every affected group's advisory and package is among the pairs kept |
| FastMatching.DisjointReportsAdd | crates/openvibes-vulns/src/matching.rs:87-112 | reports about different hosts add up to the report about all of them |
| FastMatching.MatchRelease | crates/openvibes-vulns/src/matching.rs:87-112 | prefilter and batches of any size find what one evaluation over all rows finds |
| Reports.SchemesDiffer | crates/openvibes-vulns/src/matching.rs:157-163 | the scheme named dpkg, and no other, is compared as Debian does |
| Reports.ReleaseReads | crates/openvibes-vulns/src/matching.rs:189-201 | the release `v-r` is read from `uname -r` with an architecture, with `+debug`, with both or with neither |
| Reports.ReadsRelease | crates/openvibes-vulns/src/matching.rs:189-201 | whatever release is read was printed that way |
| Reports.ReportMeans | crates/openvibes-vulns/src/matching.rs:168-268 | a host and advisory are reported if and only if the newest version installed in some group is at or after the first affected one and before the fix, or is an rpm kernel of which an older release runs |
| Reports.OlderThanTheFirstAffected | crates/openvibes-vulns/src/matching.rs:168-181 | a host whose newest rows are all older than the first affected version, and no kernels, is not reported |
| Reports.PackagesMean | crates/openvibes-vulns/src/matching.rs:225-268 | which packages are reported, and of which row each shows the installed version, the fix, the release that runs and whether a reboot is all that is missing |
| Reports.LookAtVersions | crates/openvibes-vulns/src/matching.rs:40-72 | the pairs worth looking up and the findings without a fix, by the bounds of each version |
| Cpe.ProductsOf | crates/openvibes-vulns/src/cpe.rs:70-93 | the products a package could be, each with its strongest tie |
| Cpe.ByProduct | crates/openvibes-vulns/src/cpe.rs:160-163 | the ranges not covered by an advisory, by product, in order |
| Cpe.EvaluateProduct | crates/openvibes-vulns/src/cpe.rs:171-221 | one product's ranges against one version keep the most certain finding per key |
| Cpe.Evaluate | crates/openvibes-vulns/src/cpe.rs:154-225 | per version, CVE and product: the first of the most certain findings of all ranges |
| Cpe.FindingsAreMostCertain | crates/openvibes-vulns/src/cpe.rs:154-225 | a finding exists if and only if a range applies and no advisory covers the CVE; its confidence is the highest that applies, one of 55, 60, 70, 75 |
| Cpe.FindingsMean | crates/openvibes-vulns/src/cpe.rs:108-225 | there is a finding if and only if a version that is no kernel is within the three bounds of a range of a product of its name, of its source's, of a base name or of an alias; it is that of the first pair of the highest of four certainties |
| Cpe.LoadsOnlyTheirs | crates/openvibes-vulns/src/cpe.rs:229-248 | exactly the ranges of the wanted products are loaded |
| Cpe.WantedProducts | crates/openvibes-vulns/src/cpe.rs:98-105 | every product an installed package that is not a kernel could be |
| Cpe.ProductFilterLosesNothing | crates/openvibes-vulns/src/cpe.rs:98-105 | evaluating only the ranges of wanted products says the same under every key |
| Cpe.Refresh | crates/openvibes-vulns/src/cpe.rs:229-248 | recomputing from the filtered ranges gives what all stored ranges would give |
| Signer.VersionsNeverRepeat | crates/openvibes-signer/src/lib.rs:110-212 | in every allowed run of publishes, failed writes, crashes, restarts and seeds the versions handed out per set strictly increase |
| Signer.UndamagedNeverRepeats | crates/openvibes-signer/src/lib.rs:110-212 | in every run with no file lost and none seeded, whatever fails or crashes, the versions handed out per set strictly increase |
| Signer.SeedMustBeAbove | crates/openvibes-signer/src/state.rs:83-108 | after a reseed the next version is new if and only if the seed is above every version handed out |
| Signer.QueueWithinLimit | crates/openvibes-signer/src/state.rs:117-126 | the publish queue never holds more than the limit, whatever the times |
| Signer.NoHourOverTheLimit | crates/openvibes-signer/src/lib.rs:176-208 | in whatever order times are taken, no hour ending anywhere holds more publishes than the limit, if at each publish nothing already dropped from the queue is within an hour of it, before or after |
| Signer.TimelyRunsSettle | crates/openvibes-signer/src/lib.rs:73-73 | times that do not go back in lock order meet that condition |
| Signer.TimesInOrderKeepTheLimit | crates/openvibes-signer/src/lib.rs:176-208 | from a new process, if no publish or status write takes a time before an earlier one, no hour holds more publishes than the limit |
| Signer.CrossedTimesSettle | crates/openvibes-signer/src/lib.rs:73-73 | so do two publishes whose times cross the lock order, which are not in order |
| Signer.StepWithinExactly | crates/openvibes-signer/src/lib.rs:176-208 | one event keeps every hour within the limit if and only if, in each hour a publish it admits counts in, the dropped publishes take no more than the room the pruned queue leaves |
| Signer.WithinExactly | crates/openvibes-signer/src/lib.rs:176-208 | over a whole run no hour is ever over the limit if and only if each admitted publish had that room |
| Signer.SettledHasRoom | crates/openvibes-signer/src/state.rs:117-126 | a publish with nothing dropped within an hour of it has that room |
| Signer.LateTimestampsBeatTheLimit | crates/openvibes-signer/src/lib.rs:73-73 | with limit 1, a status write and a publish stamped earlier give two publishes in one hour; all but the last event meet the condition, the last does not |
| Signer.State.constructor | crates/openvibes-signer/src/state.rs:61-74 | opening a disk reads its versions and starts an empty queue |
| Signer.State.PublishesThisHour | crates/openvibes-signer/src/state.rs:117-126 | drops what is an hour old from the front and counts the rest |
| Signer.State.RecordSigned | crates/openvibes-signer/src/state.rs:133-166 | the version is handed out exactly when it reached the disk; otherwise memory is as it was and the disk is what the fault left |
| Signer.State.Open | crates/openvibes-signer/src/state.rs:61-74 | a new process sees the renamed file or, after a power loss, the synced one; a restart alone makes nothing durable |
| Signer.PublishRefuses | crates/openvibes-signer/src/lib.rs:110-208 | an unknown set, a full hour, a missing or exhausted version and a refused signature each get their own answer and change nothing but the pruned queue |
| Signer.PublishLeaves | crates/openvibes-signer/src/state.rs:133-166 | with room and a next version: what is answered, what memory holds and what the visible and the durable file hold, after success and after each fault |
| Signer.RestartFinds | crates/openvibes-signer/src/state.rs:61-74 | a new process finds the visible file or, after a power loss, the synced one, and an empty queue |
| Signer.DamageStays | crates/openvibes-signer/src/state.rs:61-74 | what a damaged file leaves, no restart brings back |
| Signer.State.CheckAndSign | crates/openvibes-signer/src/lib.rs:176-208 | the locked section is the publish step of the protocol, for every fault |
| Signer.State.SeedVersions | crates/openvibes-signer/src/state.rs:83-108 | a seed is the seed step of the protocol and never replaces a readable file |
| TarFormat.OctalReadsBack | crates/openvibes-vulns/src/bundle.rs:79-92 | octal digits of a number have that number as value |
| TarFormat.FieldReadsBack | crates/openvibes-vulns/src/bundle.rs:79-92 | a number written with digits and ended by NUL or space is read back |
| TarFormat.HeaderReadsBack | crates/openvibes-feed/src/pack.rs:14-29 | name, size, checksum and type of a written header are read back, for names up to 100 bytes and sizes below 8^11 |
| TarWriter.WriteHeader | crates/openvibes-feed/src/pack.rs:14-29 | filling the block in place gives the header, checksum included |
| TarWriter.WriteEntry | crates/openvibes-feed/src/pack.rs:67-129 | one file is written as header, content and padding, and what is hashed is its content |
| TarWriter.Bundle | crates/openvibes-feed/src/pack.rs:67-129 | succeeds exactly when every blob is there, fits and hashes to its name, and then writes the whole bundle |
| TarReader.UnpackIsSound | crates/openvibes-vulns/src/bundle.rs:117-252 | on every input that is accepted the feed was verified first, and every blob is named by it, within its limit, hashes to its name and came once |
| TarReader.TrailerExactly | crates/openvibes-vulns/src/bundle.rs:132-144 | the trailer is accepted if and only if the blocks looked at are whole and zero |
| TarReader.LateDataIsIgnored | crates/openvibes-vulns/src/bundle.rs:132-144 | any data after 21 zero blocks leaves the result as it is |
| TarReader.Reader.ReadBlockOrEnd | crates/openvibes-vulns/src/bundle.rs:94-106 | short reads make up a whole block, a clean end or an error inside a block |
| TarReader.Reader.Take | crates/openvibes-vulns/src/bundle.rs:254-262 | takes the bytes asked for, a buffer at a time, or all that are left |
| TarReader.CheckTrailer | crates/openvibes-vulns/src/bundle.rs:132-144 | the block loop accepts exactly the trailers of the specification |
| TarReader.ReadEnvelope | crates/openvibes-vulns/src/bundle.rs:178-204 | the first entry is handed to the verifier whole, or with one byte over the limit |
| TarReader.ReadBlob | crates/openvibes-vulns/src/bundle.rs:205-246 | a further entry is accepted exactly when it is named, within its limit, new, whole and hashes to its name |
| TarReader.UnpackTar | crates/openvibes-vulns/src/bundle.rs:117-252 | reading in pieces gives what the specification gives, and no file is written before the feed was verified |
| TarReader.OpenDir | crates/openvibes-vulns/src/bundle.rs:274-334 | a blob is left in the work directory if and only if it is named, there, within its limit and hashes to its name |
| TarReader.KeptIs | crates/openvibes-vulns/src/bundle.rs:271-284 | the verifier is given all of `feed.json`, or a mebibyte and one byte of it |
| Archives.NumberExactly | crates/openvibes-vulns/src/bundle.rs:80-93 | a header field is a number exactly when it is octal digits, with a plus sign or not, up to a NUL, a space or its end |
| Archives.HeaderExactly | crates/openvibes-vulns/src/bundle.rs:144-177 | a header block is read exactly when its checksum, kind, prefix, name and size are right, and then as that file |
| Archives.ArchiveReads | crates/openvibes-vulns/src/bundle.rs:117-252 | every archive of a feed is unpacked: `feed.json` that the verifier accepts, up to 64 different blobs it allows, each within its limit and hashing to its name, and then nothing or zeros |
| Archives.ReadsArchive | crates/openvibes-vulns/src/bundle.rs:117-252 | whatever is unpacked is such an archive, with exactly its envelope and blobs |
| Archives.HeaderLayout | crates/openvibes-feed/src/pack.rs:13-29 | where the writer puts name, mode, owners, size, time, checksum, kind, magic and version |
| BundleRoundTrip.UnpackUndoesBundle | crates/openvibes-feed/src/pack.rs:67-129 | unpacking what was packed gives the same envelope and exactly the same blobs |
| BundleRoundTrip.CarryAcross | crates/openvibes-vulns/src/bundle.rs:117-252 | packing and unpacking through the methods themselves is the identity on sound feeds |
| BundleRoundTrip.LargestOsvFileDoesNotFit | crates/openvibes-vulns/src/feedfmt.rs:140-150 | the largest OSV size is 8^11, whose octal form has twelve digits where a header has room for eleven |
| BundleRoundTrip.LargestOsvFileCannotBePacked | crates/openvibes-feed/src/pack.rs:67-129 | a blob of the largest OSV size passes the check of its entry, and no bundle with it is packed |
| FeedBuild.ReadersFindTheirBlobs | crates/openvibes-feed/src/build.rs:318-538 | after every step of every history the blobs named by the published manifest exist with their content; so do the previous manifest's if its build was recorded, and those `nvd-state.json` names if each prune could read it |
| FeedBuild.PruneTakesTheRest | crates/openvibes-feed/src/build.rs:515-524 | a blob can be pruned exactly when neither the new manifest, the recorded build nor the NVD state, as far as it could be read, names it |
| FeedBuild.PreviousBlobIsLost | crates/openvibes-feed/src/build.rs:515-538 | a reachable history of two builds, the first cut off before `state.json`, after which a blob of the previous manifest is gone |
| FeedBuild.NvdBlobIsLost | crates/openvibes-feed/src/nvd.rs:58-63 | a reachable history whose prune cannot read `nvd-state.json` and takes a blob that file names |
| FeedBuild.SequencesRiseExactly | crates/openvibes-feed/src/build.rs:463-465 | over every history published sequences strictly rise if and only if each publish after an unrecorded build happens at a later time than that build's sequence |
| FeedBuild.SequenceRepeats | crates/openvibes-feed/src/build.rs:463-465 | a reachable history of two builds in one second, the first cut off before `state.json`, that publish the same sequence |
| FeedBuild.Tree.Store | crates/openvibes-feed/src/build.rs:118-126 | the bytes are there under their hash, and nothing else changed |
| FeedBuild.Tree.Collect | crates/openvibes-feed/src/build.rs:551-580 | a fetched file joins the manifest with its blob; a failed one is kept from the last build if its blob is still there |
| FeedBuild.Tree.CollectNvd | crates/openvibes-feed/src/build.rs:403-415 | year files join the manifest once a read was ever complete, those whose blob is there; a failed or stopped read leaves what was saved |
| FeedBuild.Tree.FlushYears | crates/openvibes-feed/src/nvd.rs:120-179 | the years of a window are stored; a year whose earlier file is gone, or a failure, leaves the years before it merged in memory; every year named has its blob or was named before |
| FeedBuild.Tree.SyncNvd | crates/openvibes-feed/src/nvd.rs:186-298 | every saved or listed year file was saved before or merged in this run, listed only once a read was complete, wherever it stops or fails |
| FeedBuild.Tree.CollectAll | crates/openvibes-feed/src/build.rs:354-441 | each source in turn; files of sources not asked for are not touched |
| FeedBuild.Tree.CollectLeftover | crates/openvibes-feed/src/build.rs:452-462 | files of sources not asked for stay as the last build had them, if their blob is there; a cut-off adds some of them |
| FeedBuild.Tree.Prune | crates/openvibes-feed/src/build.rs:589-599 | keeps everything named and, when it gets through, only that and what could not be removed; contents do not change |
| FeedBuild.Tree.PublishAndPrune | crates/openvibes-feed/src/build.rs:515-538 | feed, prune and state are written in this order, as steps of the protocol |
| FeedBuild.Tree.Run | crates/openvibes-feed/src/build.rs:318-538 | a whole build, stopped between any two writes or by a failing read or write, is a sequence of protocol steps |
| NvdSync.MergeMirrors | crates/openvibes-feed/src/nvd.rs:120-179 | merging the files of two spans mirrors the records of both |
| NvdSync.NextWindow | crates/openvibes-feed/src/nvd.rs:217-256 | a further window joins the last without a gap and within the service's limit |
| NvdSync.ResumedReadIsTheSame | crates/openvibes-feed/src/nvd.rs:186-298 | a span read in any number of runs gives the same files |
| NvdSync.Reader.ReadWindow | crates/openvibes-feed/src/nvd.rs:220-248 | the files hold exactly the records of the pages read before an empty page or the told total; all of the window if the service is honest about both |
| NvdSync.CompleteExactly | crates/openvibes-feed/src/nvd.rs:220-248 | a window of which only a front part was read is complete if and only if everything with a year behind it is in that part too |
| NvdSync.Reader.Flush | crates/openvibes-feed/src/nvd.rs:120-179 | merged year by year; a failure leaves every year either merged or as it was |
| NvdSync.Reader.Sync | crates/openvibes-feed/src/nvd.rs:186-298 | wherever a read fails, the saved files are exactly the records read, which for an honest service are all up to the cursor, and the windows tile the span |
| FeedVerify.BuildPreimage | crates/openvibes-vulns/src/feedfmt.rs:254-264 | the buffer built piece by piece is the signed preimage |
| FeedVerify.PreimageIsInjective | crates/openvibes-vulns/src/feedfmt.rs:254-264 | different feeds, keys or manifests never sign the same bytes, for ids up to 128 bytes |
| FeedVerify.PreimageLayout | crates/openvibes-vulns/src/feedfmt.rs:254-264 | prefix, format, feed id, key id and manifest stand in this order, each text after its length in four, four and eight bytes |
| FeedVerify.LongIdsSaturate | crates/openvibes-vulns/src/feedfmt.rs:258-261 | a length beyond 32 bits is written as the largest |
| FeedVerify.CheckManifest | crates/openvibes-vulns/src/feedfmt.rs:333-344 | accepts exactly the manifests with valid times, one to 64 valid files and no name twice |
| FeedVerify.AcceptedIsGenuine | crates/openvibes-vulns/src/feedfmt.rs:352-419 | an accepted feed was signed by a trusted key over exactly this text, keeps the rules and is in force |
| FeedVerify.GenuineIsAccepted | crates/openvibes-vulns/src/feedfmt.rs:352-419 | a feed that any of the trusted keys signed, by the rules, in force, and above the known sequence or equal to the known feed, is accepted with its manifest and text |
| FeedVerify.RefusedExactly | crates/openvibes-vulns/src/feedfmt.rs:352-396 | each refusal up to the times holds exactly under its own condition |
| FeedVerify.AcceptedExactly | crates/openvibes-vulns/src/feedfmt.rs:352-419 | a feed in force is refused for its sequence exactly when it is below the known one, or equal with another digest, and otherwise accepted, as a repetition exactly when equal |
| FeedVerify.NoRollback | crates/platform-store/src/feeds.rs:202-233 | over every history of imports the accepted sequences per feed and key never fall, and an equal one has the identical manifest text |
| FeedVerify.ImportExactly | crates/platform-store/src/feeds.rs:202-233 | an import adds an acceptance exactly when the feed verifies and the table holds nothing, a lower sequence or the same feed for its ids; then the table holds it, and otherwise nothing changes |
| FeedVerify.BuilderIsNeverRefused | crates/openvibes-vulns/src/feedfmt.rs:397-411 | for every build history whose clock moves on after cut-off builds: its feeds imported in order, any left out and others between them, are never refused for their sequence, and once verified are recorded |
| FeedVerify.VerifyAgreesWithRecord | crates/openvibes-vulns/src/feedimport.rs:113-130 | the check before the import refuses exactly what recording would refuse |
| FeedImport.EntryLeavesStale | crates/openvibes-vulns/src/feedimport.rs:159-172 | which NVD files are due but count as unchanged after one file, exactly, also when its importer fails with part of it stored |
| FeedImport.ImportLeavesStale | crates/openvibes-vulns/src/feedimport.rs:99-187 | the same after any import wherever it ends: after its products, after a file, within one, or between recording it and forgetting, with and without NVD files in the feed |
| FeedImport.LostNeedComesBack | crates/openvibes-vulns/src/feedimport.rs:142-172 | in an import with NVD files that ends between files, a lost need comes back if and only if a product is new, an advisory file applies or the file itself does |
| FeedImport.NeverReadAgain | crates/openvibes-vulns/src/feedimport.rs:142-172 | a file that is due is never read again, however many imports follow, as long as none forgets NVD's hashes or brings another version of it; they may store more advisories |
| FeedImport.NeedIsLost | crates/openvibes-vulns/src/feedimport.rs:142-172 | in five ways two imports from empty tables lose the need: a feed without NVD files, a stop after storing products, a stop within an advisory file, one that fails half-way, a stop before forgetting |
| FeedImport.ImportRecords | crates/openvibes-vulns/src/feedimport.rs:99-187 | no recorded file is lost or goes back; a whole import records every other file exactly if it is selected and applies; without NVD files in the feed NVD's stay as they were |
| FeedImport.Database.RecordFile | crates/platform-store/src/feeds.rs:274-307 | records a file unless a newer one is there, and then changes nothing |
| FeedImport.Database.ApplyFile | crates/openvibes-vulns/src/feedimport.rs:189-257 | a file is imported and recorded exactly when it is whole, not older, not the one applied before, and its importer is done; only the very blob the manifest describes gets that far; a failure or stop after part of it was stored leaves the need uncovered |
| FeedImport.Database.Apply | crates/openvibes-vulns/src/feedimport.rs:99-187 | from any tables, an import is a step of the protocol wherever it stops; with NVD files in the feed and a stop only between files, NVD becomes current with a new product, and stays so if no importer fails with part of a file stored |
| FeedImport.SizesAre | crates/openvibes-vulns/src/feedfmt.rs:140-150 | the largest sizes in mebibytes |
| Cef.SplitHeader | crates/openvibes-netlog/src/cef.rs:50-73 | the character loop gives the six fields up to the sixth unescaped bar and what follows |
| Cef.UnescapeValue | crates/openvibes-netlog/src/cef.rs:135-154 | the loop decodes escapes once and refuses a lone backslash at the end |
| Cef.ScanKeys | crates/openvibes-netlog/src/cef.rs:90-116 | the index loop finds all keys, none after `msg`, and gives up at the 65th |
| Cef.ReadExtensions | crates/openvibes-netlog/src/cef.rs:90-131 | the pairs of the extension, or none for leading text, a broken value or a repeated key |
| Cef.Parse | crates/openvibes-netlog/src/cef.rs:35-47 | not CEF exactly without a mark; otherwise what follows the first mark decides |
| CefRoundTrip.HeaderReads | crates/openvibes-netlog/src/cef.rs:50-73 | six escaped fields are read back, whatever follows |
| CefRoundTrip.UnescapeUndoesEscape | crates/openvibes-netlog/src/cef.rs:135-154 | decoding undoes escaping on every value |
| CefRoundTrip.ScanFindsKeys | crates/openvibes-netlog/src/cef.rs:90-116 | the keys found in printed pairs are exactly theirs: an escaped equals sign makes no key |
| CefRoundTrip.PairsRead | crates/openvibes-netlog/src/cef.rs:90-131 | printed pairs are read back if and only if there are at most 64 and no key comes twice |
| CefRoundTrip.EventReads | crates/openvibes-netlog/src/cef.rs:35-131 | what a printed event with any line ends reads as |
| CefRoundTrip.RoundTrip | crates/openvibes-netlog/src/cef.rs:35-154 | fields and pairs come back exactly if and only if no value ends in a space and the last does not end in NUL |
| CefRoundTrip.DatagramRoundTrip | crates/openvibes-netlog/src/cef.rs:35-154 | the same for a whole datagram: anything without a mark, the mark, and bytes that decode to the printed event |
| Datagrams.TokensRead | crates/openvibes-netlog/src/cef.rs:133-154 | a value of characters and escapes reads as what each means, unknown escapes as written, and a backslash left over is refused |
| Datagrams.EveryText | crates/openvibes-netlog/src/cef.rs:133-154 | every value is such a text, with a backslash left over or not |
| Datagrams.LeadingText | crates/openvibes-netlog/src/cef.rs:118-121 | anything but white space before the first key is refused |
| Datagrams.KeyCharsAre | crates/openvibes-netlog/src/cef.rs:92-96 | keys are of letters, digits and underscores |
| Datagrams.SpacesAre | crates/openvibes-netlog/src/cef.rs:118-121 | white space is Unicode's |
| Datagrams.NoEvent | crates/openvibes-netlog/src/handle.rs:46-58 | a datagram is counted as plain syslog exactly when no mark is in it, and as unparsed when what follows cannot be read |
| Datagrams.EventCounts | crates/openvibes-netlog/src/handle.rs:46-70 | an event printed by the rules is counted by what its class is, and under which name |
| Collapse.StepKeepsInv | crates/openvibes-netlog/src/collapse.rs:46-130 | every step of every interleaving keeps: size limit, exact counts, clean entries answered as they are, gone alarms answered in full |
| Collapse.NoAlarmIsLost | crates/openvibes-netlog/src/collapse.rs:46-130 | after every run the database answered for all events of alarms that left, and a row is complete exactly when its alarm's last mark was accepted; with nothing waiting, the database holds every event if and only if no alarm id was used twice and no alarm was marked stored, as it is, after being skipped |
| Collapse.OnlyStoredLeave | crates/openvibes-netlog/src/collapse.rs:46-81 | an entry with something unstored stays and only grows |
| Collapse.RestartsAreRepeats | crates/openvibes-netlog/src/collapse.rs:82-101 | an id is used twice exactly when two alarms of one key start in the same millisecond |
| Collapse.SameMillisecondLosesAnEvent | crates/openvibes-netlog/src/collapse.rs:64-101 | a run with room for one alarm and a window of a minute after which an event is missing |
| Collapse.SkippedAlarmIsLost | crates/platform-store/src/device_alarms.rs:76-80 | a run in which an alarm whose day has no partition is marked stored, leaves the map and is in no row |
| Collapse.FindOldest | crates/openvibes-netlog/src/collapse.rs:70-75 | a stored entry seen least recently, or none if all are unstored |
| Collapse.Collapser.AddEvent | crates/openvibes-netlog/src/collapse.rs:46-102 | the add step of the protocol, which `Scans` states per key; false exactly when no event was counted, and then every entry is unstored |
| Collapse.Collapser.TakeDirty | crates/openvibes-netlog/src/collapse.rs:106-112 | exactly the alarms changed since they were stored, each once |
| Collapse.Collapser.Inserted | crates/platform-store/src/device_alarms.rs:56-191 | of a batch the alarms whose first day has a partition are accepted and exactly the others skipped |
| Collapse.Collapser.MarkStored | crates/openvibes-netlog/src/collapse.rs:116-130 | exactly the entries unchanged since the batch are clean, whether they were accepted or skipped |
| Collapse.DayIs | crates/platform-store/src/device_alarms.rs:76-80 | an alarm belongs to the day its first event was in, from midnight to midnight |
| Scans.WindowLaw | crates/openvibes-netlog/src/collapse.rs:46-101 | events of one key that come within the window of one another, whatever is stored and whatever other keys do meanwhile, are one alarm: id, rule, severity, message and first time of the first, last time and network of the last, one count each |
| Scans.ScanIsOneAlarm | crates/openvibes-netlog/src/collapse.rs:46-64 | the same from any entry on |
| Scans.StartsAnew | crates/openvibes-netlog/src/collapse.rs:50-101 | an event of a key without an entry, or whose stored entry was quiet for the window, starts a new alarm, unless the map is full of waiting entries |
| Scans.GoesOn | crates/openvibes-netlog/src/collapse.rs:58-64 | an event of a key whose entry waits, or was seen within the window, goes into it |
| Scans.OthersStay | crates/openvibes-netlog/src/collapse.rs:50-81 | an event leaves the entries of other keys as they are, but for stored ones quiet for the window and the one that makes room |
| Scans.OldestMakesRoom | crates/openvibes-netlog/src/collapse.rs:65-81 | only a full map gives up an entry, and of the stored ones one seen least recently |
| Scans.StoringCleans | crates/openvibes-netlog/src/collapse.rs:116-130 | storing a batch cleans exactly the entries with a device, id and count in it, and changes no alarm |
| Netlog.BumpCounts | crates/openvibes-netlog/src/handle.rs:26-30 | one more of the key, a new one starting at one, if there is room for it among 64; the others as they were |
| Netlog.Netlog.LoadDevices | crates/openvibes-netlog/src/service.rs:77-91 | the devices are replaced if the database answers, and the accounts hold |
| Netlog.Netlog.CountIntrusion | crates/openvibes-netlog/src/handle.rs:59-68 | an intrusion event is an alarm or a drop of the full map, and its unknown risk is counted |
| Netlog.Netlog.CountOne | crates/openvibes-netlog/src/handle.rs:46-70 | exactly the counter of the datagram's kind grows |
| Netlog.Netlog.Handle | crates/openvibes-netlog/src/handle.rs:32-71 | one datagram is one entry of the history, counted for its device and kind and nowhere else |
| Netlog.Netlog.HandleKnown | crates/openvibes-netlog/src/handle.rs:46-71 | the same for a sender that is a device |
| Netlog.Netlog.StoreAlarms | crates/openvibes-netlog/src/service.rs:108-120 | after an answered batch nothing is waiting, every alarm with a partition is accepted and `unstorable` rises by the number of the others; after a failure, committed or not, every entry is as it was |
| Netlog.Netlog.FlushCounters | crates/openvibes-netlog/src/service.rs:121-129 | counters whose flush was answered are gone, the others stay; the rows grow by each flush that was committed, answered or not |
| Netlog.Netlog.FlushOne | crates/platform-store/src/devices.rs:188-230 | one flush: answered, committed without an answer, or neither |
| Netlog.CountersAddUpExactly | crates/openvibes-netlog/src/service.rs:121-129 | at every moment, the counters in memory and in a device's row add up to its history if and only if no flush of it was committed without its answer |
| Netlog.CountedTwice | crates/openvibes-netlog/src/service.rs:121-129 | a run of one datagram and two flushes, the first committed without its answer, after which the row counts two |
| Netlog.CountUnstorable | crates/platform-store/src/device_alarms.rs:76-80 | the number of alarms of a batch whose first day has no partition |
| Netlog.Netlog.Store | crates/openvibes-netlog/src/service.rs:95-139 | memory and answered flushes still add up to the history, whatever fails; what is not stored or flushed stays; the rows hold what was committed |
| Netlog.ReceivedIsCounted | crates/openvibes-netlog/src/handle.rs:46-70 | everything received from a device ended in exactly one way |
| Netlog.EveryDatagramIsCounted | crates/openvibes-netlog/src/handle.rs:32-71 | datagrams are received ones and unknown senders; received ones are alarms, plain syslog, unparsed, other, mismatched or dropped; alarms are the events of the map |
| Netlog.EveryAlarmIsStored | crates/openvibes-netlog/src/service.rs:95-120 | with nothing waiting, the database holds every event counted as an alarm if and only if no id was used twice and no alarm was marked stored, as it is, after being skipped; if `unstorable` never rose, the first decides alone |
| QueryFilter.HasWord | crates/openvibes-fetch/src/filter.rs:116-131 | true if and only if some occurrence, overlapping ones included, has no alphanumeric neighbour |
| QueryFilter.Runs | crates/openvibes-fetch/src/filter.rs:78-95 | all maximal runs, in order, and nothing else |
| QueryFilter.WindowsAreGroups | crates/openvibes-fetch/src/filter.rs:134-143 | parts in a row of a split run are exactly groups that stand in it |
| QueryFilter.RunsHaveGroups | crates/openvibes-fetch/src/filter.rs:78-95 | the maximal runs contain groups if and only if they stand somewhere with nothing of a run glued to them |
| QueryFilter.FindIpv4 | crates/openvibes-fetch/src/filter.rs:66-66 | found if and only if four octets joined by dots stand without a digit before or after |
| QueryFilter.FindMac | crates/openvibes-fetch/src/filter.rs:182-191 | found if and only if a MAC address in one of the three spellings stands apart |
| QueryFilter.FindIpv6 | crates/openvibes-fetch/src/filter.rs:150-180 | found if and only if some part of a maximal run is taken for an address |
| QueryFilter.Ipv6IsFound | crates/openvibes-fetch/src/filter.rs:150-180 | an address with no letter or digit right before it is found whatever else stands around it |
| QueryFilter.ReplaceSplits | crates/openvibes-fetch/src/filter.rs:45-48 | replacing does not reach across a character that is not in the pattern |
| QueryFilter.QuadIsFound | crates/openvibes-fetch/src/filter.rs:43-66 | a dotted quad, each dot in any spelling, is found in every text whose adjacent characters are not digits |
| QueryFilter.CheckQuery | crates/openvibes-fetch/src/filter.rs:43-75 | refuses exactly the queries with one of the nine reasons |
| QueryFilter.QuadIsRefused | crates/openvibes-fetch/src/filter.rs:43-75 | a query whose lowercase form holds such a quad is refused |
| Addresses.MacExactly | crates/openvibes-fetch/src/filter.rs:182-191 | a MAC address is found exactly where twelve hex digits stand in pairs joined by colons or hyphens, or in fours joined by dots, with nothing of the kind adjacent |
| Addresses.MacIsFound | crates/openvibes-fetch/src/filter.rs:182-191 | in any surroundings that do not continue it |
| Addresses.MacIsRefused | crates/openvibes-fetch/src/filter.rs:43-75 | a query that holds one is refused |
| Addresses.Ipv4Exactly | crates/openvibes-fetch/src/filter.rs:134-143 | a dotted quad is found exactly where four texts of up to three digits, at most 255, stand joined by dots with no digit adjacent |
| Addresses.Ipv6Exactly | crates/openvibes-fetch/src/filter.rs:150-180 | an IPv6 address is found exactly where a text parses that has two colons and a hex digit and, right after a letter or digit, a long first group or eight groups up to the end of the word |
| Addresses.RefusedExactly | crates/openvibes-fetch/src/filter.rs:43-75 | a query is refused exactly when its lowercase form is over 200 characters, holds a URL, a disguised character or a denied word, or holds one of these addresses once its dots are written out |
| Addresses.PlainStays | crates/openvibes-fetch/src/filter.rs:45-48 | a text without brackets and parentheses stays as it is |
| Licence.Parser.Alt | scripts/rpm-license.py:20-25 | the loop over OR reads the alternatives, or fails where a token is missing |
| Licence.Parser.Conj | scripts/rpm-license.py:27-32 | the loop over AND reads the factors |
| Licence.Parser.AtomOrGroup | scripts/rpm-license.py:34-43 | a licence, one with an exception, or an expression in parentheses |
| Licence.SpacesAre | scripts/rpm-license.py:66-68 | what separates tokens is the white space of Python's regular expressions |
| Licence.GroupsExactlyWhenFlat | scripts/rpm-license.py:48-63 | flattening works if and only if no choice directly inside a choice has a joined alternative |
| Licence.GroupsMean | scripts/rpm-license.py:48-55 | the items of a tree are all true exactly when the tree is, under every valuation |
| Licence.RenderMeans | scripts/rpm-license.py:58-63 | reading a rendered text again gives the value of its tree |
| Licence.DecidedChoice | scripts/rpm-license.py:86-88 | a choice that offers a required licence is true whenever the required ones are |
| Licence.PartsMean | scripts/rpm-license.py:86-89 | the printed parts mean what all items mean, the choices left out included |
| Licence.FailsExactlyWhen | scripts/rpm-license.py:82-91 | the script fails exactly on inputs that cannot be read or are nested that way |
| Licence.MeaningIsKept | scripts/rpm-license.py:82-91 | with any input or extra, and extras that need no parentheses or get them, the printed expression, read again, is true under a valuation exactly when all inputs and extras are |
| Licence.JoinedMeans | scripts/rpm-license.py:91-91 | exactly what any expressions joined by AND mean when read again: the last alternative of one and the first of the next become one |
| Licence.MeaningOfAnyExtras | scripts/rpm-license.py:82-91 | exactly what is printed means, for extras of any kind |
| Licence.KeptExactlyWhen | scripts/rpm-license.py:90-91 | one more extra keeps the value if and only if it gets or needs no parentheses, or all else is true, or none of its later alternatives is |
| Licence.TabHidesAnOr | scripts/rpm-license.py:90-90 | an extra with a tab after its OR gives an expression that is true although an input is not |

## Left out

- Libraries: SHA-256, Ed25519, JSON, UTF-8, base64, gzip, lowercase mapping, `Ipv6Addr` parsing of one candidate and Python's sort are parameters; the models start from what they return.
- SQL: the store is modelled by the contracts of `record_accepted`, `record_file`, `mark_stale`, `insert_batch` and `flush`; candidates and installed versions arrive as rows.
- Printed texts: `basis`, `lines`, `range_text`, audit lines and `status.json` are carried as opaque values or not at all.
- The classification of UniFi events (`unifi.rs`) is a function parameter of the datagram model, and the rules of one file entry of a manifest (`entry_ok`) one of the feed model.
- Network, sockets, TLS, process control, file modes, the console and the assistant are not modelled.
- Map listing order: a `BTreeMap` or `HashMap` is a `map`, and where its order decides something the model says so (key order in `Matching`, any order in `Collapse`).
- Alarm ids are triples of signature, source and millisecond; that their text form `<signature>/<source>/<millis>` is injective (digits and addresses hold no slash) is not proved.
- `spdx` in the licence script: rewriting slashes and dropping the mark for repeated crates happens before the model, which starts from token lists; extras are texts and are tokenised here.
- Bundle errors are four kinds (input/output, format, too large, refused); a name or size a header cannot hold is an error value where the code panics.
- Licence.MeaningIsKept: speaks of extras that get or need no parentheses; what any other extra prints means is `MeaningOfAnyExtras`.
