# Completeness and replay: a verified model

This project models the two audit pipelines of the repository and proves what their verdicts mean.

**Encrypted anchor stream (item 02).** A writer encrypts records, wraps each ciphertext digest and the digest of the
envelope before it into a 105-byte envelope and posts it. A subgraph indexes the posts; a raw block scan rebuilds the
same index; a checker compares what was served with what a disclosure recomputes to. The model holds the byte codec
(`ByteCodec`, `Envelope`), the recomputation (`AnchorStream`), the index as a class over its tables (`AnchorIndexes`), the
scan and the index comparison (`ChainScan`, `IndexComparison`) and all passes of the checker (`Verdicts`). The results
say when the checker passes, what it reports for each tamper and each dishonest server, that no note hides a
divergence, that index and scan agree, when the index keeps an entity for every call (`Conservation`,
`ConflictEntities`), and from which call every stored, scanned or served field comes (`Provenance`, `ScanProvenance`).

**Private-bond replay (item 01).** A contract appends note commitments to an array and records a Merkle root after every
call. A subgraph logs the calls' leaves under zero-padded ids; an auditor orders the served log, rebuilds every root,
and reconciles disclosed records against it. The model holds the call handlers and the block-walking fallback as classes
(`BondMapping`, `FallbackMapping`), the contract as `docs/private-bond-audit-replay.md` describes it (`BondContract`),
the Merkle loop (`Merkle`), the served-log validator (`ServedLog`), the field-element spellings (`FieldHex`), the
manifest check (`Records`) and the whole run (`Reconcile`). The results say what every indexed entity holds
(`BondEntities`, `FallbackEntities`), that the index mirrors the contract, that the replay rebuilds exactly the recorded
roots, what a pass of the audit means, what its report says check by check (`RunReports`), what an altered record is
reported as, and what a pass binds of the served log and what it leaves open (`AnchorTampers`, over `RecordedRoots` and
`MerkleShape`: when leaves have a recorded root, and two logs of any lengths the same one).

keccak-256, record encryption, the pairwise hash and the note hash are function parameters, so every result holds for
every choice of them. Where a result is about binding, the hypothesis is only that the values hashed in the two cases
compared do not collide, and in four results (`HashedLeafIsBound`, `FullBoundaryBindsTheLog`, `FallbackRootsAtBoundaries`,
`OversizedBatchIsCut`) also that no leaf is a node of the other tree; no result assumes a hash is injective.

Imperative code of the source is imperative here: each such method is proved against a specification function or an
independent predicate, and the theorems are lemmas about those.

## Where the code and its description differ

- `compareIndexes` is described as entity-for-entity equality (`compare.ts:339`), but it counts conflicts and malformed
  posts without looking at them and ignores duplicate counters. The model follows the code: `NoDifferences` gives the
  exact condition, `ConflictsAreOnlyCounted` two indexes over the same anchor, with different conflicts and duplicate
  counters, that compare as equal, and `AgreementIsEquality` when no difference does mean the same entities.
- "Nothing is silently dropped" (`anchor.ts:85-88`) is not so of two posts in one transaction. The malformed table is keyed
  by transaction and payload digest, the conflict table by position and transaction, so a second entity under the same key
  overwrites the first. `EveryCallIsAccountedFor` gives the exact condition, `ConflictIsOverwritten` and
  `MalformedIsOverwritten` the failing calls, and `EntitiesAgainstCounter` says how far the conflict table can fall behind
  the counter.
- "A serving layer that alters the log fails" (`onchain.rs:5-8`, `reconcile.rs:124-126`) holds where the disclosure is
  truthful, and not by the roots alone. With a complete and truthful disclosure of the contract's array no altered log
  passes, whatever calls are served with it and whatever hash and chain (`TruthfulDisclosureBindsTheLog`, an if-and-only-if
  for the whole run). With a disclosure that states the altered leaves as structural outputs, a pass binds the served leaves
  only through the roots at the boundaries replayed: `PassBindsLeaves` gives the exact condition. What it lets through, each
  with its failing runs: leaves behind the last boundary (`UnhashedLeafIsFree`; with a shortened call log `CutCallLogPasses`,
  least case `ForgedLeafPasses`), a repeated last leaf (`RepeatedLeafPasses`), and the nodes of a recorded tree served as
  leaves (`InnerNodesPass`). What it stops: `HashedLeafIsBound`. The storage check closes it (`StorageCheckBindsTheLog`), and
  so does a boundary at the served count where leaves and nodes are not mixed up and no shorter state has that height
  (`FullBoundaryBindsTheLog`).
- A run without a chain is meant to fail (`reconcile.rs:340-346`), but it only fails at a root. `NothingToConfirm` gives the
  exact condition for it to pass: the other checks do, and neither a call nor a boundary is listed, served leaves or not.
  `UnconfirmedLogPasses` passes any words of the field that way.
- Ids are described as sorting in numeric order (`mapping.ts:25-28`). They do up to 10^12 entries and not beyond:
  `PaddedOrderBound` proves both halves.
- The fallback mapping is described as leaving the log and the root replay unchanged (`mapping-fallback-a.ts:22-26`). The
  two logs agree at every block end if and only if no block adds more than 512 leaves (`AgreeExactly`). The replayed roots
  are all recorded if and only if every walked total leaves a tree the contract recorded (`FallbackRootsExactly`). A total
  some call left always does, over the cap or not (`FallbackRootsAreRecorded`, `CutAtACall`); where no leaf is a node, a
  recorded state up to mirrored leaves is needed, and where no two commitments are equal, a total some call left
  (`FallbackRootsAtBoundaries`). `OversizedBatchIsCut` is a first batch over the cap that leaves neither.
- Replay needs in-field commitments: a contract array with a word at or above the field order is legal on chain and makes
  the replay stop with an error, which is the "only if" of `ReplayRebuildsRoots`.

## Model

| member | source | states |
|---|---|---|
| VerdictTheorems.ExactVerdict | items/02-encrypted-anchoring/src/completeness-checker/compare.ts:90-337 | for every well-chained disclosure and every served index, the run passes if and only if there is no conflict, the positions are exactly 0..n-1 and the served rows are the computed rows up to order; duplicates are excluded by counting, nothing is assumed of the hash |
| Verdicts.CompareDisclosureToIndex | items/02-encrypted-anchoring/src/completeness-checker/compare.ts:90-337 | all passes together, with their maps, growing sets, de-duplication, summary and exit code, give the specified verdict, or the encoder's error on the first row it refuses; what each part of it means is `FindingsMeaning`, `FindingsInOrder`, `NotesMeaning`, `SummaryMeaning`, `ExitCodes` and `NoVerdictExactly` |
| VerdictTheorems.ExitCodes | items/02-encrypted-anchoring/src/completeness-checker/compare.ts:12-40 | for every verdict the exit code is 0 exactly without a finding, 2 exactly if some finding is ALTERED, 3 if none is and some is MISSING, then 4 GAP, 5 CHAIN-BREAK, 6 CONFLICT and 7 ENVELOPE-MISMATCH in the same way, and 8 exactly if COUNT-MISMATCH is the only code |
| VerdictNotes.NoVerdictExactly | items/02-encrypted-anchoring/src/completeness-checker/compare.ts:108-116 | there is no verdict exactly if a served row has a field of the wrong width or a position outside 64 bits, and the error is the encoder's for the first such row |
| VerdictMeaning.FindingsMeaning | items/02-encrypted-anchoring/src/completeness-checker/compare.ts:95-312 | for any disclosure, computed or not, the findings are exactly the conditions listed by `Reported`, each once; every condition is on the disclosed and served rows, none on a pass |
| VerdictMeaning.ChainedFindings | items/02-encrypted-anchoring/src/completeness-checker/compare.ts:95-312 | for a computed disclosure ENVELOPE-MISMATCH is exactly a served row that does not hash to its digest and CHAIN-BREAK exactly a served link that differs above a row that can be trusted; the other findings as before, each once |
| VerdictNotes.FindingsInOrder | items/02-encrypted-anchoring/src/completeness-checker/compare.ts:95-312 | the findings against a computed disclosure are listed pass by pass: mismatched rows, gaps, alterations, missing records, breaks, conflicts, the count; gaps, alterations and breaks by rising position |
| VerdictNotes.NotesMeaning | items/02-encrypted-anchoring/src/completeness-checker/compare.ts:126-305 | for any disclosure a note of a completed check is there exactly if: DUPLICATE, a row there counts re-submissions; UNRESOLVABLE-LINK, nothing is served below it or a disclosed anchor there does not know its link; DOWNSTREAM, its link differs above a flagged row; MALFORMED, a malformed post is served |
| VerdictNotes.MalformedNotesClose | items/02-encrypted-anchoring/src/completeness-checker/compare.ts:296-305 | the notes end with one MALFORMED for each malformed post and hold no other |
| VerdictNotes.SummaryMeaning | items/02-encrypted-anchoring/src/completeness-checker/compare.ts:321-337 | the summary counts the disclosed anchors, the served rows, conflicts and malformed posts, the served positions whose link can be checked and those whose link cannot |
| VerdictNotes.DuplicatesAdd | items/02-encrypted-anchoring/src/completeness-checker/compare.ts:319-320 | the duplicate count adds up the rows' counters, row by row |
| VerdictMeaning.NoNoteHidesADivergence | items/02-encrypted-anchoring/src/completeness-checker/compare.ts:196-283 | every DOWNSTREAM note of either chain pass has an ALTERED, GAP, CHAIN-BREAK or ENVELOPE-MISMATCH finding at its position or below |
| VerdictMeaning.DisclosurePassAddsNothing | items/02-encrypted-anchoring/src/completeness-checker/compare.ts:246-283 | against a computed disclosure the disclosure-side chain pass can be left out without changing the findings or their order, and its CHAIN-BREAK branch is never taken |
| Verdicts.CheckServedChain | items/02-encrypted-anchoring/src/completeness-checker/compare.ts:213-244 | the walk over served links marks broken exactly the rows whose link differs above a trusted row, and counts checked and unresolvable links |
| Verdicts.CheckDisclosedChain | items/02-encrypted-anchoring/src/completeness-checker/compare.ts:246-283 | the disclosure-side walk pushes a finding or a note for each row as the trust rules say |
| Verdicts.CheckGaps | items/02-encrypted-anchoring/src/completeness-checker/compare.ts:142-157 | one GAP for each position up to the high-water mark that the served side lacks and should have |
| Verdicts.CheckRows | items/02-encrypted-anchoring/src/completeness-checker/compare.ts:108-133 | the inconsistent positions are exactly those of rows whose digest is not that of the rebuilt envelope |
| Verdicts.CheckAltered | items/02-encrypted-anchoring/src/completeness-checker/compare.ts:160-173 | the altered positions are exactly those whose ciphertext digests differ |
| VerdictTheorems.AgainstHonestIndex | items/02-encrypted-anchoring/src/completeness-checker/compare.ts:90-337 | against an honest index of a whole stream, any disclosure's findings are exactly its differences from the stream, position by position, and the conflicts |
| VerdictTheorems.RestatedRecordsAreNamed | items/02-encrypted-anchoring/src/completeness-checker/compare.ts:159-173 | restating any records gives exactly one ALTERED for each changed digest, beside one CONFLICT for each position with a served conflict; exit 2 if any changed, and otherwise 6 if there is a conflict |
| VerdictTheorems.SuppressedRecordsAreNamed | items/02-encrypted-anchoring/src/completeness-checker/compare.ts:175-184 | leaving out any records gives exactly one MISSING for each and one COUNT-MISMATCH, beside the conflicts, and exit 3 |
| VerdictTheorems.DroppedRowsAreNamed | items/02-encrypted-anchoring/src/completeness-checker/compare.ts:135-157 | withholding any rows gives exactly one GAP for each and one COUNT-MISMATCH, beside the conflicts, and exit 4 |
| VerdictTheorems.RewrittenLinkIsNamed | items/02-encrypted-anchoring/src/completeness-checker/compare.ts:213-244 | rewriting one backward link with its digest gives exactly one CHAIN-BREAK there, beside the conflicts, and exit 5 |
| RowTampers.MisstatedDigestsAreNamed | items/02-encrypted-anchoring/src/completeness-checker/compare.ts:196-244 | a whole stream with other envelope digests stated at any positions gives exactly one ENVELOPE-MISMATCH at each, beside the conflicts, and no CHAIN-BREAK at the links resting on them; exit 7, or 6 with conflicts |
| DisclosureTampers.RestatedDisclosureIsNamed | items/02-encrypted-anchoring/src/anchor-core/stream.ts:31-81 | the same from the records: exactly the positions whose record re-encrypts to another digest are named ALTERED |
| DisclosureTampers.SuppressedDisclosureIsNamed | items/02-encrypted-anchoring/src/anchor-core/stream.ts:44-67 | the same from the records: exactly the left-out records are named MISSING, although every link above a hole is unresolved |
| AnchorStream.ComputeAnchors | items/02-encrypted-anchoring/src/anchor-core/stream.ts:31-81 | sorting, the duplicate check, the digest map and null propagation compute `Computed`, with the error that stops them if one does; what its anchors hold is `ComputedContents` |
| AnchorStream.ComputedContents | items/02-encrypted-anchoring/src/anchor-core/stream.ts:44-78 | a successful computation gives, in order of position, one anchor a record: its plaintext, the encryption of it and its digest, and, exactly where the link is known, an envelope that decodes to version 1, the stream, the position, the digest and the link, with the digest of that envelope |
| AnchorStream.ComputedIsWellChained | items/02-encrypted-anchoring/src/anchor-core/stream.ts:44-67 | every successful computation is strictly increasing, and a link is resolved exactly when the position below is there and resolved |
| HeadBinding.HeadBindsStream | items/02-encrypted-anchoring/src/anchor-core/stream.ts:44-67 | two whole streams with the same head digest have the same id, length and rows throughout, or two of their envelopes collide |
| HeadBinding.RowDigestBinds | items/02-encrypted-anchoring/src/anchor-core/envelope.ts:62-76 | equal row digests are a collision or come from equal stream, position, digest and link |
| Envelope.DecodeEncode | items/02-encrypted-anchoring/src/anchor-core/envelope.ts:62-96 | decoding an encoded version-1 tuple gives the tuple back |
| Envelope.EncodeDecode | items/02-encrypted-anchoring/src/anchor-core/envelope.ts:78-96 | a payload is accepted exactly at 105 bytes with first byte 1, and encoding what was decoded gives it back |
| Envelope.WriteEnvelope | items/02-encrypted-anchoring/src/anchor-core/envelope.ts:62-76 | the encoder over the shifting integer writer and the buffer copy gives the specified layout or the first error |
| Envelope.LayoutPositions | items/02-encrypted-anchoring/src/anchor-core/envelope.ts:62-76 | an accepted tuple's envelope has 105 bytes: the version, the stream id from byte 1, the big-endian position from 33, the ciphertext digest from 41 and the link from 73 |
| Envelope.EncodeErrors | items/02-encrypted-anchoring/src/anchor-core/envelope.ts:62-76 | which refusal: version, stream id, ciphertext digest, link and position are checked in that order |
| Envelope.ParseEnvelope | items/02-encrypted-anchoring/src/anchor-core/envelope.ts:78-96 | the decoder over the shift-and-or reader gives the specified fields or reason |
| Envelope.LayoutInjective | items/02-encrypted-anchoring/src/anchor-core/envelope.ts:62-76 | different encodable tuples have different envelopes |
| ByteCodec.U64be | items/02-encrypted-anchoring/src/anchor-core/bytes.ts:39-48 | masking and shifting fills the big-endian bytes, and refuses exactly what is out of range |
| ByteCodec.ReadU64be | items/02-encrypted-anchoring/src/anchor-core/bytes.ts:50-54 | shift-and-or reads the big-endian number |
| ByteCodec.Concat | items/02-encrypted-anchoring/src/anchor-core/bytes.ts:26-36 | copying at running offsets into one buffer concatenates |
| ByteCodec.EqualBytes | items/02-encrypted-anchoring/src/anchor-core/bytes.ts:56-60 | true exactly for equal sequences |
| AnchorIndexes.ReadU64BE | items/02-encrypted-anchoring/src/subgraph/src/anchor.ts:41-48 | multiply-and-add reads the same number as the writer's shift-and-or |
| AnchorIndexes.FlipLink | items/02-encrypted-anchoring/src/subgraph/src/anchor.ts:125-130 | the copied envelope differs in the complemented first byte of its link and nowhere else |
| AnchorIndexes.AnchorStore.IndexAnchorCall | items/02-encrypted-anchoring/src/subgraph/src/anchor.ts:94-183 | one call takes the store to `Apply` of what the call reads as, in honest mode and in both bad-server modes; what the entities then hold is `AnchorsWerePosted`, `ConflictsWerePosted` and `MalformedWerePosted` |
| AnchorIndexes.AnchorStore.SaveAnchor | items/02-encrypted-anchoring/src/subgraph/src/anchor.ts:134-183 | first anchor, identical re-submission or conflict, with the stream's counters, latest position and head |
| AnchorIndexes.AnchorStore.IndexAll | items/02-encrypted-anchoring/src/subgraph/src/anchor.ts:90-94 | indexing calls in block order from an empty store is `Run` |
| Provenance.AnchorsWerePosted | items/02-encrypted-anchoring/src/subgraph/src/anchor.ts:109-162 | in every reachable store, of any mode, an anchor is that of the first call indexed at its position: id, fields as its envelope decodes, digest of that envelope, the envelope as posted (or, at position 5 of the link-breaking server, with byte 73 complemented and nothing else), submitter, transaction, block and time of the call, and one duplicate for each later call with that digest |
| Provenance.ConflictsWerePosted | items/02-encrypted-anchoring/src/subgraph/src/anchor.ts:163-178 | a conflict is that of the last call of its transaction that posted another digest at a taken position: id, fields as its envelope decodes, digest, envelope, submitter, transaction and block of that call |
| Provenance.MalformedWerePosted | items/02-encrypted-anchoring/src/subgraph/src/anchor.ts:69-80 | a malformed entity is that of the last call of its id: reason by length or version, payload, length, submitter, transaction and block |
| Provenance.EveryCallLeavesItsTrace | items/02-encrypted-anchoring/src/subgraph/src/anchor.ts:94-183 | every call that does not decode has a malformed entity under its id; every call that is indexed finds an anchor at its position, with its own digest or with a conflict under its id beside it |
| Provenance.StreamBlocks | items/02-encrypted-anchoring/src/subgraph/src/anchor.ts:54-67 | a stream's first and last block are those of the first and the last call indexed in it |
| StoreInvariants.ReachableStoresAreSound | items/02-encrypted-anchoring/src/subgraph/src/anchor.ts:54-183 | in every reachable store, of any mode, a stream's count is the number of its anchors, its latest position their maximum, its head that anchor's digest and its flag set exactly when its conflict counter is positive |
| ConflictEntities.EntitiesAgainstCounter | items/02-encrypted-anchoring/src/subgraph/src/anchor.ts:164-183 | in every reachable store, of any mode, a stream has at most as many conflict entities as its counter says, some exactly if the counter is positive, and as many exactly if no two competing posts share position and transaction |
| ConflictEntities.FlaggedExactly | items/02-encrypted-anchoring/src/subgraph/src/anchor.ts:164-183 | a stream is flagged exactly if the store holds a conflict entity of it |
| StoreInvariants.StoredEnvelopesStay | items/02-encrypted-anchoring/src/subgraph/src/anchor.ts:139-162 | a stored anchor never changes afterwards but for its duplicate counter |
| Conservation.EveryCallIsAccountedFor | items/02-encrypted-anchoring/src/subgraph/src/anchor.ts:69-183 | anchors, counted repetitions, conflict entities and malformed entities are never more than the calls, and as many if and only if no two malformed posts share an id and no two competing posts share position and transaction |
| Conservation.CountersAccountForCalls | items/02-encrypted-anchoring/src/subgraph/src/anchor.ts:69-183 | with conflicts taken by the streams' counters, the sum is the calls exactly if no two malformed posts share an id |
| ConflictEntities.ConflictIsOverwritten | items/02-encrypted-anchoring/src/subgraph/src/anchor.ts:164-178 | two competing posts of one transaction at one position: the counter says two, the table holds one |
| ConflictEntities.MalformedIsOverwritten | items/02-encrypted-anchoring/src/subgraph/src/anchor.ts:69-80 | the same undecodable payload twice in one transaction leaves one entity |
| Conservation.OneCallATransaction | items/02-encrypted-anchoring/src/subgraph/src/anchor.ts:69-80 | in particular when no transaction makes two calls, every call has its entity or its counted repetition |
| StoreInvariants.AnchorIdInjective | items/02-encrypted-anchoring/src/subgraph/src/anchor.ts:136 | an anchor id determines stream and position |
| ChainScan.ScanChain | items/02-encrypted-anchoring/src/completeness-checker/sources/chain.ts:33-108 | the classification loop and the final sort give the specified index |
| ScanProvenance.ScannedAnchors | items/02-encrypted-anchoring/src/completeness-checker/sources/chain.ts:73-96 | a scan serves, by rising position, a row for each position some call of the stream posts at; it is the first such call's, field by field, with one duplicate for each later call of its digest |
| ScanProvenance.ScannedConflicts | items/02-encrypted-anchoring/src/completeness-checker/sources/chain.ts:88-92 | a conflict is listed exactly if some call posts, at its position, its digest and not the one scanned there |
| ScanProvenance.ScannedMalformed | items/02-encrypted-anchoring/src/completeness-checker/sources/chain.ts:60-71 | a malformed entry is listed exactly if some call's payload does not decode, with the reason, length, transaction and block of that call |
| IndexRefinesScan.IndexAgreesWithScan | items/02-encrypted-anchoring/src/completeness-checker/sources/chain.ts:33-108 | whatever was posted, the honest index viewed at a stream, in any listing order, has the scan's anchors and duplicate counts; it has its conflicts and malformed posts too, and the comparison of the two reports nothing, if and only if no two malformed posts share an id and no two competing posts of the stream share position and transaction |
| IndexRefinesScan.OneCallATransactionAgrees | items/02-encrypted-anchoring/src/completeness-checker/sources/chain.ts:33-108 | in particular when no transaction makes two calls |
| IndexComparison.CompareIndexes | items/02-encrypted-anchoring/src/completeness-checker/compare.ts:340-380 | the differences, in order of position, then the two counts |
| IndexComparison.NoDifferences | items/02-encrypted-anchoring/src/completeness-checker/compare.ts:340-380 | no difference if and only if the same positions carry the same three digests and the two counts agree |
| IndexComparison.DifferenceMeaning | items/02-encrypted-anchoring/src/completeness-checker/compare.ts:340-380 | each difference is listed exactly where its condition holds (one side only, each differing digest, each differing count), once, by rising position and the two counts last |
| IndexComparison.ConflictsAreOnlyCounted | items/02-encrypted-anchoring/src/completeness-checker/compare.ts:373-378 | over the same anchor at position 0 of a 32-byte stream id, different conflict digests and different duplicate counters compare as equal |
| IndexComparison.AgreementIsEquality | items/02-encrypted-anchoring/src/completeness-checker/compare.ts:339-380 | where nothing was submitted twice and one side has no conflict and no malformed post, no difference means the same anchors, field by field and up to order, and nothing beside them on the other side either |
| EndToEnd.PositionHistory | items/02-encrypted-anchoring/src/subgraph/src/anchor.ts:134-180 | after any posts, what the store holds at a position is its first post, and it has a conflict exactly if a later post there had another digest |
| EndToEnd.HonestRun | items/02-encrypted-anchoring/src/subgraph/src/anchor.ts:94-183 | records, their computed envelopes posted first by the writer at every position amid malformed posts, re-submissions, other streams and competitors, honestly indexed and checked: exactly one CONFLICT for each contested position, and exit 0 if there is none |
| EndToEnd.DroppingServerIsNamed | items/02-encrypted-anchoring/src/subgraph/src/anchor.ts:115-120 | over any such run, competitors included, the dropping mode is reported as exactly one GAP for each position congruent to 3 modulo 4, one COUNT-MISMATCH and one CONFLICT for each contested position it serves |
| EndToEnd.BreakingServerIsNamed | items/02-encrypted-anchoring/src/subgraph/src/anchor.ts:122-132 | over any such run, competitors included, the link-breaking mode is reported as exactly one CHAIN-BREAK at position 5 and one CONFLICT for each contested position |
| HonestRuns.PublishesExactly | items/02-encrypted-anchoring/src/anchor-core/stream.ts:31-81 | with a well-formed key and stream id, records publish a whole stream if and only if their positions are 0..n-1 once each |
| HonestRuns.SomeHonestRun | items/02-encrypted-anchoring/src/subgraph/src/anchor.ts:90-183 | every published stream has a run in which only its writer posts, and in any mode the store it leaves can be listed, so the end-to-end results are about runs that exist |
| Merkle.BuildMerkleRoot | items/01-private-bond-replay/src/replay/src/merkle.rs:23-48 | the loop ends, refuses exactly the empty log and returns the root by levels |
| Merkle.RootIsTree | items/01-private-bond-replay/src/replay/src/merkle.rs:30-45 | the level-by-level root is the root of the least binary tree holding the leaves, defined top down, in which a half without leaves mirrors its sibling |
| Merkle.SmallRoots | items/01-private-bond-replay/src/replay/src/merkle.rs:30-45 | the order of the hash's arguments: one leaf is its own root, two are hashed left to right, and a third is hashed with itself on the right |
| Merkle.RootHistory | items/01-private-bond-replay/src/replay/src/merkle.rs:56-70 | one root a count over that prefix, refused exactly if some count is 0 or beyond the log |
| Merkle.RootBindsLeaves | items/01-private-bond-replay/src/replay/src/merkle.rs:30-45 | equally long logs with the same root are equal, unless two of the pairs hashed for them collide |
| MerkleShape.SameRootExactly | items/01-private-bond-replay/src/replay/src/merkle.rs:30-45 | logs of any two lengths have the same root if and only if the lower tree is, position by position, the upper part of the higher one (mirrored leaves included), unless two of the pairs hashed for them collide |
| RecordedRoots.RecordedExactly | items/01-private-bond-replay/src/replay/src/onchain.rs:5-8 | the root of any leaves is one the contract recorded if and only if they are the same tree as a recorded state of its array, unless hashed pairs collide |
| Merkle.RewrittenLeafChangesRoots | items/01-private-bond-replay/src/replay/src/merkle.rs:56-70 | for logs of any two lengths that first differ at leaf k, exactly the roots of the prefixes longer than k differ, unless hashed pairs collide |
| Merkle.RepeatedLastLeaf | items/01-private-bond-replay/src/replay/src/merkle.rs:36-39 | an odd log of three or more leaves keeps its root when its last leaf is repeated, so the count is needed |
| Merkle.OneMoreLeaf | items/01-private-bond-replay/src/replay/src/merkle.rs:30-45 | exactly when one more leaf keeps the root within one tree height: the last leaves, as many as the largest power of two dividing the length, all equal the new one |
| Text.PadId | items/01-private-bond-replay/src/subgraph/src/mapping.ts:40-46 | the padding loop gives the padded decimal |
| Text.PaddedInjective | items/01-private-bond-replay/src/subgraph/src/mapping.ts:40-46 | different numbers have different ids, whatever their size |
| Text.PaddedOrderBound | items/01-private-bond-replay/src/subgraph/src/mapping.ts:25-28 | text order of the ids below a count is numeric order if and only if the count is at most 10^12 |
| BondMapping.BondIndex.HandleMint | items/01-private-bond-replay/src/subgraph/src/mapping.ts:184-189 | the store becomes `Handled` of the old one; what its entities say of the call is `BondEntities` |
| BondMapping.BondIndex.HandleMintBatch | items/01-private-bond-replay/src/subgraph/src/mapping.ts:191-201 | likewise, leaves in array order |
| BondMapping.BondIndex.HandleTransfer | items/01-private-bond-replay/src/subgraph/src/mapping.ts:203-220 | likewise, with the cited root and the nullifiers |
| BondMapping.BondIndex.HandleBurn | items/01-private-bond-replay/src/subgraph/src/mapping.ts:222-241 | likewise |
| BondMapping.BondIndex.HandleAtomicSwap | items/01-private-bond-replay/src/subgraph/src/mapping.ts:243-281 | likewise: roots and nullifiers of both legs before both commitments, short legs skipped |
| BondMapping.BondIndex.HandleAll | items/01-private-bond-replay/src/subgraph/src/mapping.ts:184-281 | a whole history of calls of all five kinds, in execution order, leaves `StoreAfter` |
| BondMapping.BondIndex.RecordCall | items/01-private-bond-replay/src/subgraph/src/mapping.ts:80-107 | files a provisional entry and takes the next sequence number |
| BondMapping.BondIndex.LoadBond | items/01-private-bond-replay/src/subgraph/src/mapping.ts:48-78 | the stored bond, or a new one with the answer of `bondId()`, zero if that reverts |
| BondLog.IndexIsLogged | items/01-private-bond-replay/src/subgraph/src/mapping.ts:80-140 | after every history the two keyed tables are exactly the leaf log and the call log in execution order, with true running totals, and the bond's totals are their lengths |
| BondLog.ClaimsAreLogged | items/01-private-bond-replay/src/subgraph/src/mapping.ts:166-182 | after every history the table of cited roots is exactly the log of citations: one entity each under its call's id and suffix, none over another |
| BondEntities.CallEntities | items/01-private-bond-replay/src/subgraph/src/mapping.ts:80-120 | after every history the entry of call k has sequence k, the entry point of the call as source, the length and hash of its proof argument (length 0 and the hash of no bytes for a mint or a batch), the leaves there were once it returned, and the call's transaction, block, time and caller |
| BondEntities.BondEntity | items/01-private-bond-replay/src/subgraph/src/mapping.ts:48-78 | the bond has the first call's address, the answer of `bondId()` or 32 zero bytes, and the true numbers of calls, leaves and nullifiers |
| BondEntities.LeafEntities | items/01-private-bond-replay/src/subgraph/src/mapping.ts:122-140 | output i of call k is the leaf behind all earlier outputs, with its value, source, call id, transaction, block, time and caller; a swap leg with fewer than four inputs has no output |
| BondEntities.LeavesAreOutputs | items/01-private-bond-replay/src/subgraph/src/mapping.ts:122-140 | every leaf entity is that of some call's output |
| BondEntities.NoteEntities | items/01-private-bond-replay/src/subgraph/src/mapping.ts:142-164 | the entity of a spent note is that of the last call that spent it, field by field |
| BondEntities.NotesWereSpent | items/01-private-bond-replay/src/subgraph/src/mapping.ts:142-164 | every nullifier entity is that of a note some call spent |
| BondEntities.RootEntities | items/01-private-bond-replay/src/subgraph/src/mapping.ts:166-182 | a cited root is filed under its call's id and root, rootA or rootB, with the call's fields |
| BondEntities.RootsWereCited | items/01-private-bond-replay/src/subgraph/src/mapping.ts:166-182 | every root entity is that of some call's citation |
| BondContract.IndexMirrorsContract | items/01-private-bond-replay/src/subgraph/src/mapping.ts:80-281 | after every history without a revert the store is the contract's state: the array position by position, the spent notes, one entry a recorded root, and exactly the roots the calls cited, in order, all of them known |
| BondContract.RootAfterCall | docs/private-bond-audit-replay.md:74-79 | the i-th recorded root is the root over the leaves logged when call i returned |
| BondContract.NullifierTotal | items/01-private-bond-replay/src/subgraph/src/mapping.ts:142-164 | the nullifier total is the table's size if and only if no value is spent twice |
| ServedLog.CheckAnchorSet | items/01-private-bond-replay/src/replay/src/anchors.rs:195-220 | accepted exactly without indexing errors and with every collection below the page limit |
| ServedLog.OrderedCommitments | items/01-private-bond-replay/src/replay/src/anchors.rs:224-246 | returns the one arrangement with leaf i at position i, and fails exactly if there is none |
| ServedLog.OrderedUnique | items/01-private-bond-replay/src/replay/src/anchors.rs:224-246 | there is at most one such arrangement |
| ServedLog.LeafCountsAfterEachCall | items/01-private-bond-replay/src/replay/src/anchors.rs:251-274 | the totals in id order, and fails exactly if one is no number or falls |
| BondReplay.ReplayRoots | items/01-private-bond-replay/src/replay/src/reconcile.rs:291-306 | ordering, parsing, choosing the call boundaries and rebuilding gives `RebuiltRoots` |
| RunReports.ReplayReads | items/01-private-bond-replay/src/replay/src/reconcile.rs:291-306 | a replay that does not stop reads each leaf's served value as a field element and rebuilds the root behind each served total, or behind each of the manifest's where no call was served |
| BondReplay.ReplayRebuildsRoots | items/01-private-bond-replay/src/replay/src/merkle.rs:56-70 | for every history without a revert, indexed and served within the page limit in any arrival order, the rebuilt roots are exactly the sequence the contract recorded, if and only if every commitment is a field element |
| BondReplay.RewrittenAnchorsChangeRoots | items/01-private-bond-replay/src/replay/src/reconcile.rs:291-306 | two served logs, each with the calls and the manifest it comes with, that first differ at leaf k: at a boundary both have, the rebuilt roots differ if and only if leaf k is under it, unless hashed pairs collide |
| ReconcileTheorems.TruthfulDisclosureBindsTheLog | items/01-private-bond-replay/src/replay/src/reconcile.rs:146-410 | with a complete and truthful disclosure of some words, a completed run passes if and only if the attestation passed, exactly those words were served, every rebuilt root is confirmed and any storage check agrees; nothing is assumed of the calls served, the hash or the chain |
| AnchorTampers.PassBindsLeaves | items/01-private-bond-replay/src/replay/src/reconcile.rs:291-391 | whatever log, calls and manifest are served, a completed run against the contract's own state passes if and only if the attestation passed, the disclosure fits what was served, the leaves at every replayed boundary are the same tree as a recorded state, and any storage check agrees; only collisions are excluded |
| AnchorTampers.HashedLeafIsBound | items/01-private-bond-replay/src/replay/src/onchain.rs:5-8 | a served leaf under a replayed boundary that is not the contract's makes that root fail, where every recorded state of that tree height reached the leaf and no leaf is a node |
| AnchorTampers.FullBoundaryBindsTheLog | items/01-private-bond-replay/src/replay/src/onchain.rs:5-8 | with a boundary at the served count, a pass means that what was served is the array so far, under the same two conditions |
| AnchorTampers.StorageCheckBindsTheLog | items/01-private-bond-replay/src/replay/src/reconcile.rs:364-389 | with the storage check a pass means that what was served is the array so far, whatever was counted |
| AnchorTampers.UnhashedLeafIsFree | items/01-private-bond-replay/src/replay/src/reconcile.rs:291-306 | a leaf no replayed boundary covers can be rewritten, together with the structural manifest entry that states it, by any word of the field and the run still passes |
| AnchorTampers.CutCallLogPasses | items/01-private-bond-replay/src/replay/src/reconcile.rs:291-306 | served leaves behind one recorded call, whatever they are, pass against the contract's own roots if only that call is served and the manifest states them as structural outputs |
| AnchorTampers.ForgedLeafPasses | items/01-private-bond-replay/src/replay/src/reconcile.rs:291-306 | the least such case: two minted notes, the second forged in what is served and in the manifest, one call served |
| AnchorTampers.RepeatedLeafPasses | items/01-private-bond-replay/src/replay/src/merkle.rs:36-39 | an odd recorded state with its last leaf served and counted once more passes, stated by the manifest as structural outputs |
| AnchorTampers.InnerNodesPass | items/01-private-bond-replay/src/replay/src/merkle.rs:30-45 | the nodes one level above a recorded state, served and counted as leaves and stated by the manifest as structural outputs, pass |
| BondReplay.PagedCallsInOrder | items/01-private-bond-replay/src/replay/src/anchors.rs:251-254 | sorting an honest page of calls by id gives execution order |
| HonestBondRuns.MintHistory | docs/private-bond-audit-replay.md:74-79 | any list of words is the array after a history without a revert |
| HonestBondRuns.SomeHonestPage | items/01-private-bond-replay/src/replay/src/anchors.rs:195-220 | every indexed store has an honest page, whatever its size |
| FieldHex.FrToBytes32 | items/01-private-bond-replay/src/replay/src/field.rs:62-73 | four little-endian limbs copied and reversed are the 32-byte big-endian number |
| CanonicalHex.SpellingsNormalise | items/01-private-bond-replay/src/replay/src/field.rs:29-94 | every spelling of a numeral (white space around it and inside the wallet's wrapper, wrappers repeated or unbalanced, any 0x and then any 0X prefixes) is accepted exactly below the field order and becomes the canonical form of its number |
| CanonicalHex.OnlySpellingsNormalise | items/01-private-bond-replay/src/replay/src/field.rs:29-94 | whatever is accepted is such a spelling of a number below the field order |
| CanonicalHex.NormalForm | items/01-private-bond-replay/src/replay/src/field.rs:79-94 | 0x and 64 lower-case digits, and normalising again changes nothing |
| CanonicalHex.SameFormSameNumber | items/01-private-bond-replay/src/replay/src/field.rs:87-94 | accepted spellings have the same form if and only if they denote the same number |
| CanonicalHex.HexReadsBack | items/01-private-bond-replay/src/replay/src/field.rs:29-81 | parsing the rendered element gives it back |
| FallbackMapping.FallbackIndex.HandleBlock | items/01-private-bond-replay/src/subgraph/src/mapping-fallback-a.ts:49-116 | one block takes the store to `Walked` of the old one |
| FallbackLog.IndexIsWalked | items/01-private-bond-replay/src/subgraph/src/mapping-fallback-a.ts:49-116 | after any blocks the tables are exactly the walked leaves and one entry a growing block |
| FallbackEntities.OneWalk | items/01-private-bond-replay/src/subgraph/src/mapping-fallback-a.ts:69-93 | one block takes the walk to the end of the array, but no further than 512 leaves |
| FallbackEntities.BondEntity | items/01-private-bond-replay/src/subgraph/src/mapping-fallback-a.ts:49-67 | the bond is the configured address with the first answer of `bondId()`, whatever later blocks answer, and counts no nullifier |
| FallbackEntities.NoBond | items/01-private-bond-replay/src/subgraph/src/mapping-fallback-a.ts:49-60 | there is no bond exactly until some block answers |
| FallbackEntities.SyntheticEntries | items/01-private-bond-replay/src/subgraph/src/mapping-fallback-a.ts:100-118 | each block in which the log grew has one entry, numbered in order, with that block's number and time and the total it reached, an unknown source and no transaction, caller or proof |
| FallbackEntities.LeafEntities | items/01-private-bond-replay/src/subgraph/src/mapping-fallback-a.ts:75-93 | each leaf indexed in a block has its index, its value there and that block's entry, number and time, an unknown source and no transaction or caller |
| FallbackTheorems.AlwaysAPrefix | items/01-private-bond-replay/src/subgraph/src/mapping-fallback-a.ts:69-93 | after every block the indexed leaves are exactly a prefix of the contract's array |
| FallbackTheorems.TotalsRise | items/01-private-bond-replay/src/subgraph/src/mapping-fallback-a.ts:95-120 | the recorded totals rise strictly and the last is the count now |
| FallbackTheorems.BacklogDrains | items/01-private-bond-replay/src/subgraph/src/mapping-fallback-a.ts:69-93 | a backlog is gone after k quiet blocks if and only if k is at least the backlog over 512, rounded up |
| FallbackTheorems.LevelAtEveryBlock | items/01-private-bond-replay/src/subgraph/src/mapping-fallback-a.ts:69-93 | level with the array at every block end if and only if no block adds more than 512 leaves |
| FallbackTheorems.AgreesWithCallHandlers | items/01-private-bond-replay/src/subgraph/src/mapping-fallback-a.ts:22-26 | within the cap the log equals the call-handler log at every block end and every total is a call boundary |
| FallbackTheorems.AgreeExactly | items/01-private-bond-replay/src/subgraph/src/mapping-fallback-a.ts:22-26 | the two logs agree at every block end if and only if no block adds more than 512 leaves |
| FallbackTheorems.SameCommitmentEntities | items/01-private-bond-replay/src/subgraph/src/mapping-fallback-a.ts:22-26 | within the cap both indexes hold the same ids with the same leaf indices and values |
| FallbackTheorems.FallbackRootsAreRecorded | items/01-private-bond-replay/src/subgraph/src/mapping-fallback-a.ts:22-26 | whatever its blocks add, replaying an honestly served fallback index rebuilds one root a growing block, recorded by the contract wherever some call left that total; within the cap every total is one |
| FallbackTheorems.FallbackReplays | items/01-private-bond-replay/src/subgraph/src/mapping-fallback-a.ts:22-26 | the replay stops only where nothing was indexed and the manifest lists a boundary, and otherwise rebuilds the root of the array's prefix at every walked total |
| FallbackTheorems.FallbackRootsExactly | items/01-private-bond-replay/src/subgraph/src/mapping-fallback-a.ts:22-26 | the rebuilt roots are all recorded if and only if at every walked total the array's prefix is the same tree as a recorded state, unless hashed pairs collide |
| FallbackTheorems.FallbackRootsAtBoundaries | items/01-private-bond-replay/src/subgraph/src/mapping-fallback-a.ts:22-26 | where moreover no leaf is a node: if and only if every prefix is a recorded state up to mirrored leaves, and without equal commitments if and only if every walked total is one some call left |
| FallbackTheorems.CutAtACall | items/01-private-bond-replay/src/subgraph/src/mapping-fallback-a.ts:36-39 | a block over the cap, a batch of 512 and one more note, is cut at a call boundary |
| FallbackTheorems.OversizedBatchIsCut | items/01-private-bond-replay/src/subgraph/src/mapping-fallback-a.ts:36-39 | a first batch over the cap, seen by the block handler, leaves the total 512, which no call left, and the root replayed there is none the contract recorded, unless pairs collide or a leaf is a node |
| Records.CheckInternalConsistency | items/01-private-bond-replay/src/replay/src/records.rs:132-159 | accepts exactly the manifests that list the leaves 0..n-1 once each and name a file exactly for disclosed entries |
| Reconcile.CheckRecords | items/01-private-bond-replay/src/replay/src/reconcile.rs:166-228 | one check and up to two failures for each named record, stopping exactly if a record is absent or does not hash; the checks are read by `OneCheckARecord` and `RecordChecksAgree` |
| Reconcile.Cover | items/01-private-bond-replay/src/replay/src/reconcile.rs:246-265 | the served leaves not accounted for, and the accounted leaves not served in ascending order |
| Reconcile.CheckRoots | items/01-private-bond-replay/src/replay/src/reconcile.rs:309-362 | one check a rebuilt root, failing without a chain |
| Reconcile.CheckStorage | items/01-private-bond-replay/src/replay/src/reconcile.rs:364-389 | one check a served leaf against storage, stopping at a leaf the contract lacks |
| Reconcile.Run | items/01-private-bond-replay/src/replay/src/reconcile.rs:146-410 | completes exactly if everything parses and resolves; then its report lists every check and failure in order, the leaves not accounted for on either side, the rebuilt roots with what the chain says of each and the storage leaves checked, and is a pass if there is no failure |
| RunReports.FailuresInOrder | items/01-private-bond-replay/src/replay/src/reconcile.rs:146-410 | the failures come stage by stage: attestation, records, accounting, roots, storage; each root and each storage leaf at most once and by rising number |
| RunReports.ServedIsNormalised | items/01-private-bond-replay/src/replay/src/reconcile.rs:150-164 | the served values compared are those served for leaf 0, 1, ..., each normalised |
| RunReports.OneCheckARecord | items/01-private-bond-replay/src/replay/src/reconcile.rs:166-228 | a completed run's report has one check for each entry that names a file, in manifest order, with the leaf, the record's recomputation and the value served there; it passes exactly if that leaf is served with the recomputed value |
| RunReports.RecordChecksAgree | items/01-private-bond-replay/src/replay/src/reconcile.rs:166-228 | a record check passes exactly if the run does not list the record of its leaf as failing |
| RunReports.RootChecksAgree | items/01-private-bond-replay/src/replay/src/reconcile.rs:309-362 | a root check passes exactly if its call is not among the failures, and says whether the chain knows the root, where there is a chain |
| RunReports.StorageChecksAgree | items/01-private-bond-replay/src/replay/src/reconcile.rs:364-389 | a storage check passes exactly if its leaf is not among the failures |
| RunReports.AccountingMeans | items/01-private-bond-replay/src/replay/src/reconcile.rs:246-265 | a leaf is reported unaccounted exactly if it is served and no entry says what is served there, and missing exactly if it is listed and not served |
| RunReports.PassingReport | items/01-private-bond-replay/src/replay/src/reconcile.rs:146-410 | a report that passes holds no check that does not, and no leaf unaccounted or missing |
| RunReports.AlteredReport | items/01-private-bond-replay/src/replay/src/reconcile.rs:166-265 | where records are altered under a passing run, exactly the altered leaves' checks fail and exactly these leaves are unaccounted for |
| RunReports.RecordHashesItsFields | items/01-private-bond-replay/src/replay/src/records.rs:44-54 | a record is recomputed to the canonical spelling of the note hash of value, salt, owner, asset id and maturity date in that order, and refused exactly if its owner is no field element |
| ReconcileTheorems.PassIsExact | items/01-private-bond-replay/src/replay/src/reconcile.rs:146-410 | over a consistent manifest a completed run passes if and only if the attestation passed, disclosure and served log cover each other, each disclosed entry states its record's commitment, the chain confirms every rebuilt root and any storage check agrees at every leaf |
| ReconcileTheorems.HonestAuditPasses | items/01-private-bond-replay/src/replay/src/reconcile.rs:146-410 | the contract's history, honestly indexed and served in any order, with a truthful disclosure, passes against the contract's own state |
| ReconcileTheorems.AlteredRecordsAreNamed | items/01-private-bond-replay/src/replay/src/reconcile.rs:166-265 | altering records under a passing run fails exactly at the altered leaves, each once as record and once as manifest mismatch, and once in the accounting, which counts them |
| ReconcileTheorems.NothingToConfirm | items/01-private-bond-replay/src/replay/src/reconcile.rs:306-391 | without a chain, a completed run over a consistent manifest passes if and only if the attestation passed, disclosure and served log cover each other, each disclosed entry states its record and neither a served call nor a manifest boundary is listed |
| AnchorTampers.UnconfirmedLogPasses | items/01-private-bond-replay/src/replay/src/reconcile.rs:340-346 | any words of the field, served without a call log and stated by the manifest, pass without a chain |

## Left out

- Network, files and rendering: the gateway, RPC calls, GraphQL queries and JSON, command-line tools, the worker, deploy
  and seed scripts, the verification page. The chain is a value holding the known roots and the array.
- keccak-256, AES-256-GCM-SIV, HKDF, Poseidon and EIP-712 recovery: function parameters, or a yes-or-no input for the
  attestation.
- ABI decoding, transaction selection and reverted calls of the block scan: the model starts from the decoded payloads of
  successful top-level calls, because an internal call is visible to the index and not to the scan.
- PrivateBond itself is not part of this repository; the contract is modelled from its description, with a successful call
  citing known roots, spending fresh nullifiers and leaving a nonempty array. Access control, proofs and maturity are not
  part of this model.
- Human-readable details, log lines and report wording: findings and failures keep their code and position.
- Served fields that no check reads (source function, transaction, block, timestamp, caller) are not in the served
  entities of the bond replay; the indexed entities have them.
- The consistency, attestation and tamper modules, the key store, the record and disclosure file formats and the fixed
  eight-leaf fixtures would add only single-branch claims.
- `subgraphs/` holds copies of the two mappings; they are modelled once.
- ByteCodec.ReadU64be: requires eight bytes at the offset, which its caller has established; reading past the end is not
  modelled.
- BondReplay.RewrittenAnchorsChangeRoots: compares the roots at one count; that a changed root is none of the recorded
  ones is `AnchorTampers.PassBindsLeaves`.
- BondContract.Readable: a swap is assumed to read the four public inputs of each leg that the mapping reads; one with a
  shorter array reverts, so a short leg is skipped by the handler (`HandleAtomicSwap`) and never part of the contract's
  history.
- Reconcile.Run: an error of the auditor's node other than a leaf the contract lacks is not modelled.
