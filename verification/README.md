# The published record, its delivery, and the algorithms beside them

A Dafny model of the parts of this repository whose correctness rests on several loops and
state machines agreeing with each other, and proofs that they do.

**The published record** (`packages/distribution`). Ticks are committed in windows: a Merkle tree
with promoted odd nodes, a root that binds the window's fields and the root before it, a signature.
`Merkle`, `Commitments` and `Chains` hold the tree, the proofs and the hash chain. `Publisher`,
`PublicationRuns`, `PublicationWriter`, `Priming` and `PrimingSeams` hold the windowing publisher,
every run a writer can make of it, what it leaves on disk, and the boot fold over a tick record.
`Rotations`, `SignedChains`, `CommitmentsFile` and `VerifierAgreement` hold key succession, the two
verifiers, and how their verdicts compare; `RotatedRuns` what they say of a file written under one
key after another. `Anchors` and `AnchorHistory` hold the anchors and what
they prove about history. `JournalFiles` and `ChainTips` read the files back. `Framing`, `Text` and
`Encodings` hold the bytes that are hashed and signed, `Readers` reads them back from the formats, and
`ByteProofs` is inclusion over those bytes.

**Delivery.** `Feeds` is the fan-out protocol as a state machine and what keeps observers in step,
`FeedDelivery` what it owes them, and `TickFeeds` the objects that run it; `TickWindows` is the
client's window, `MarketStreams` its reconnecting loop, and `ServerSentEvents` and `EventBlocks` its
parser.

**Algorithms.** `RateLimits` and `RateLimitRuns`, `Reductions`, `LiveBars`, `LiveBarRuns` and
`LiveBarJoins`, `CatalogueSamples` and `CatalogueDraws`, `CloseSelections` and `Engines`.

## How to read it

Code that works by changing things is a class or a method with the source's loops, and its
contract equates the result with a specification function; what the source promises is then proved
of that function, for all inputs or all runs, in terms that do not name it: what must happen as well
as what must not. Exceptions are `Result` or `Option` values.

Digests are free terms (`Leaf`, `Node`, `Root`, `ResumeRoot`, `Opaque`), so equality of digests is
equality of what was hashed. `Framing.DifferentTermsCollide` says what that is worth: for any hash
function at all, two different terms computed all the way down with one value hand over a collision.
A hostile path can hold bytes nobody computed, so soundness of proofs is stated over bytes too, for
any siblings: `ByteProofs`. Signatures and the canonical form of a key are predicates the verifiers
are given. Times, random streams and sinks are parameters. A link is genuine when `commit` returned
it; `verifyChain` recomputes no root, so what it proves about content is stated for genuine links,
and what it checks itself for any record.

## Where the code and its words differ

- `commitmentsFile.ts` claims for its incremental verifier the verdicts of the batch one. That holds on
  chains whose roots do not repeat; `VerdictsAgreeIff` says exactly when, and `RepeatedHeadDisagrees`
  gives a chain on which they differ. The batch verifier also refuses the unbound restarts the other
  reports.
- `proveFromPublication` does not serve every committed sequence of a record that has gone back over
  old ground. It stops at the first link that starts beyond the sequence, so a window written behind
  such a link is never reached, its journal intact (`BackwardWindowIsUnreached`); and a journal is
  named by its range alone, so a later window over the same range replaces it and the earlier
  window's proofs are refused (`ReplacedJournalIsRefused`). `ArchiveServes` says exactly when a proof
  is served, `CommittedIsProvedIff` which committed sequences that leaves out.
- The fallback of `TickWindow.resumeFrom` to what was evicted is never reached: eviction leaves the
  window full.
- `LiveBarBuilder` accepts any positive duration, and starts the bar over at every tick of a bucket
  that does not start on a whole second: `AcceptShowsAllIff` says exactly when that shows.
- `bars.ts` says a bar's range only ever widens. Live ticks keep that (`LiveRunOnlyWidens`); a seed
  from a record older than what was drawn does not: it takes the range back, and the ticks between
  are lost with the join still said to stand. `ReseedKeepsRangeIff` and `ReseedLosesTicks` say exactly
  when, `ReseedNarrows` gives the input.
- `TickFeed.publish` compares a run's first tick with nothing, and `seam` does not ask who is waiting.
  Either leaves an observer with a hole or a repeat when the first batch reaches someone who asked
  for another sequence and takes it: `EveryObserverInStep` says exactly when over a whole run,
  `FirstTickElsewhereMisleads` and `SeamWhileWaitingMisleads` give the inputs, the second with a run
  that opens where the seam said.
- An anchor can summarise a record with an unbound break, and is refused for it as soon as a genesis
  key is asked for: `UnboundBreakRefusesAKey`.
- Pruning idle buckets shows exactly when a request finds its bucket forgotten before it is full again
  (`PruningShowsIff`). That takes a request dated before one already served (`MissedGoesBack`) and a map
  that was large enough to be pruned (`SmallMapKeepsAll`); `BackwardClockShows` is such a run.
- A file written under a succession of keys is accepted link by link exactly when no rotation names a
  root that stands in the file already before the head it is named for (`RotatedFileVerifiesIff`). A
  record that goes back to its first window and commits it again has such a root:
  `ReplayedHeadIsRefused`.
- After a refused batch the open window can hold a full window or more: `OpenBelowWindowIff`, and
  `RefusedBatchOverfills` for the input.

## Model

| member | source | states |
|---|---|---|
| Prelude.CheckContiguous | packages/distribution/src/commitment.ts:253-265 | the range check passes exactly on runs whose sequences are consecutive |
| Prelude.AdjacentIsContiguous | packages/distribution/src/commitment.ts:253-265 | comparing each tick with the one before it is the same as saying where every tick of the run stands |
| Merkle.ComputeFoldLevel | packages/distribution/src/commitment.ts:216-223 | the pushing loop builds the level above, an odd last node promoted unchanged |
| Merkle.ComputeMerkleRoot | packages/distribution/src/commitment.ts:247-251 | the loop over levels ends in the root of the fold |
| Merkle.SplitUnique | packages/distribution/src/commitment.ts:216-223 | the largest power of two below n is unique: the split RFC 6962 speaks of is well defined |
| Merkle.FoldIsRfc6962 | packages/distribution/src/commitment.ts:216-251 | for every width, the iterative fold with promotion is the recursive tree of section 2.1 of RFC 6962 |
| Merkle.ComputeProvePath | packages/distribution/src/commitment.ts:324-349 | the prover's loop over cursor and width yields the siblings of the path, in lower-case hex |
| Merkle.PathIsRfc6962 | packages/distribution/src/commitment.ts:324-349 | the prover's path is the audit path of section 2.1.1 of RFC 6962, at every width and index |
| Merkle.ComputeReplay | packages/distribution/src/commitment.ts:389-441 | the verifier's loop computes the replay, and fails on a path too long, too short or not hex |
| Merkle.ReplayComplete | packages/distribution/src/commitment.ts:324-441 | the honest path replays to the root from every leaf of every width |
| Merkle.ReplaySound | packages/distribution/src/commitment.ts:389-441 | whatever replays to the root at an index starts from the leaf there, along a path that decodes to the honest one |
| Merkle.RootBindsLeaves | packages/distribution/src/commitment.ts:216-251 | two leaf rows of one length and one root are one row |
| Commitments.CommittedRun | packages/distribution/src/commitment.ts:281-321 | what a link says of its range, count and root is true of the run behind it |
| Commitments.RootBindsRecord | packages/distribution/src/commitment.ts:233-321 | one root means one value of every bound field, one resume point and one run of ticks; the predecessor up to the case of its hex |
| Commitments.ComputeProof | packages/distribution/src/commitment.ts:324-349 | the prover refuses an empty or gapped run, a sequence outside it, or values that do not fit, and otherwise returns the proof |
| Commitments.VerifyInclusion | packages/distribution/src/commitment.ts:376-441 | the verifier accepts exactly the well-formed claims whose replay, bound with the link's fields, gives the link's root |
| Commitments.InclusionComplete | packages/distribution/src/commitment.ts:324-441 | every tick of every committed run has a proof, it verifies, and it names that tick |
| Commitments.InclusionSound | packages/distribution/src/commitment.ts:376-441 | against any record carrying a genuine root: what verifies names the committed tick at its index, along siblings equal to the honest ones, and the record agrees in every bound field |
| Commitments.AcceptedTickIsUnique | packages/distribution/src/commitment.ts:376-441 | two proofs accepted at one index against one root, under any records, name one tick |
| Chains.VerifyChain | packages/distribution/src/commitment.ts:461-536 | the first link at fault is reported, and None means that no link is |
| Chains.VerifiesMeansSound | packages/distribution/src/commitment.ts:461-536 | acceptance in declarative terms, both directions: widths, assets, predecessor roots, and a resume point exactly where sequences jump |
| Chains.PrefixVerifies | packages/distribution/src/commitment.ts:461-536 | every non-empty prefix of an accepted chain is accepted |
| Chains.AppendVerifies | packages/distribution/src/commitment.ts:461-536 | one more link is accepted exactly when it has no fault against the last one |
| Chains.SequencesIncrease | packages/distribution/src/commitment.ts:461-536 | windows of an accepted chain come in strictly increasing order |
| Chains.RootDeterminesPast | packages/distribution/src/commitment.ts:281-321 | where two accepted chains of genuine links hold one root, they hold one link, one window and one past, however far back |
| Chains.GenuineRootsDistinct | packages/distribution/src/commitment.ts:233-321 | no root repeats in an accepted chain of genuine links |
| Chains.HeadDeterminesHistory | packages/distribution/src/commitment.ts:461-536 | two such chains from a genesis that end in one root are one chain over one sequence of windows |
| Framing.BigEndianBinds | packages/distribution/src/commitment.ts:184-195 | fixed-width big-endian integers are read back uniquely |
| Framing.CutFramed | packages/distribution/src/commitment.ts:139-143 | a length-framed field is read apart whatever it contains and whatever follows it |
| Framing.LeafBinds | packages/distribution/src/commitment.ts:197-199 | equal leaf preimages are of equal ticks, negative prices included |
| Framing.NodeBinds | packages/distribution/src/commitment.ts:201-203 | equal node preimages are of equal children |
| Framing.RootBinds | packages/distribution/src/commitment.ts:233-245 | equal root preimages are of equal fields, the optional resume point included |
| Framing.TagSaysKind | packages/distribution/src/commitment.ts:52-65 | the four tags keep leaf, node, root and resume preimages apart |
| Framing.DifferentTermsCollide | packages/distribution/src/commitment.ts:118-245 | for any hash function, two different digest terms, each computed all the way down, with one 32-byte value yield two different byte strings with one hash |
| Framing.CommitComputes | packages/distribution/src/commitment.ts:281-321 | every root commit returns is such a term, when the root it names is one |
| ByteProofs.ValueOfRoot | packages/distribution/src/commitment.ts:216-251 | the tree of digest terms, hashed, is the tree the level fold builds of 32-byte values |
| ByteProofs.CommittedValue | packages/distribution/src/commitment.ts:233-321 | the root a committed link stores is the hash of the bytes of its own fields, resume point and Merkle root |
| ByteProofs.ReplaySoundOrCollision | packages/distribution/src/commitment.ts:389-441 | for any hash function, any 32 bytes and any siblings, hostile ones included: what replays to the root of a row is the value standing at that index along the honest path, or a collision is at hand |
| ByteProofs.InclusionSoundOrCollision | packages/distribution/src/commitment.ts:376-441 | for any hash function: a record of any bytes and a proof of any siblings accepted against a committed link's root are that link's own record, its tick at that index and the honest siblings, or a collision is at hand |
| Readers.NumberComesBack | packages/distribution/src/commitment.ts:184-195 | big-endian means base-256 digits, the most significant first: read so, every number that fits comes back |
| Readers.LeafComesBack | packages/distribution/src/commitment.ts:197-199 | a leaf is 0x00, the sequence, the instant and the price in two's complement, eight bytes each at their offsets: read so, the tick comes back |
| Readers.RootComesBack | packages/distribution/src/commitment.ts:233-245 | a root preimage read field by field from the format, 0x02 or 0x03 with the resume point before the Merkle root, gives every field back in its place |
| Publisher.CommitmentPublisher.constructor | packages/distribution/src/publisher.ts:96-142 | a publisher starts in the state its options describe: fresh, continued, or waiting to resume; it is ready to commit exactly when a resume point it is given is a safe, non-negative sequence |
| Publisher.CommitmentPublisher.Observe | packages/distribution/src/publisher.ts:189-233 | closed windows, new state and refusal of a batch are those of the specification, the accepted prefix of a refused batch kept open |
| Publisher.CommitmentPublisher.SealChain | packages/distribution/src/publisher.ts:176-180 | what is open becomes one window, or nothing happens |
| Publisher.CommitmentPublisher.CloseFilled | packages/distribution/src/publisher.ts:224-250 | the splice loop closes every full window and no other |
| Publisher.CommitmentPublisher.Close | packages/distribution/src/publisher.ts:236-250 | one window committed, signed and chained to the one before |
| Publisher.CommitSucceeds | packages/distribution/src/publisher.ts:236-250 | commit never throws in a ready publisher, and the link names its predecessor and its resume point |
| Publisher.AcceptedWhole | packages/distribution/src/publisher.ts:189-233 | a batch is taken whole exactly when it is contiguous and starts at the expected sequence |
| Publisher.CloseFullExact | packages/distribution/src/publisher.ts:224-233 | after closing, every window is exactly full and less than a window stays open |
| Publisher.CloseFullConserves | packages/distribution/src/publisher.ts:224-233 | closing loses, repeats and reorders no tick |
| Publisher.ObservedRefusal | packages/distribution/src/publisher.ts:189-233 | a batch is refused exactly when it is not taken whole, and then closes nothing |
| Publisher.OpenBelowWindowIff | packages/distribution/src/publisher.ts:189-233 | exactly when the open window is below a full one after a batch: not always, since a refused batch leaves its accepted prefix open |
| Publisher.RefusedBatchOverfills | packages/distribution/src/publisher.ts:170-233 | the input: a new publisher given any run longer than a window and then a tick out of place refuses the batch, keeps the whole run open, and a seal commits it as one window over-long |
| Publisher.ObserveConcat | packages/distribution/src/publisher.ts:189-233 | observing a batch whole or cut anywhere in two gives the same windows and the same state |
| PublicationWriter.AssetWriter.constructor | packages/distribution/src/publicationWriter.ts:128-188 | a writer takes an asset over from the tip of its file, or afresh |
| PublicationWriter.AssetWriter.Observe | packages/distribution/src/publicationWriter.ts:283-321 | a batch is the state machine's step, and the files hold every window ever written |
| PublicationWriter.AssetWriter.SealChain | packages/distribution/src/publicationWriter.ts:258-265 | sealing writes what was open |
| PublicationWriter.AssetWriter.SeamChain | packages/distribution/src/publicationWriter.ts:213-247 | the chain is sealed, and the next publisher resumes behind the sealed head, or afresh where nothing was committed |
| PublicationRuns.EveryRunIsSound | packages/distribution/src/publicationWriter.ts:128-321 | every interleaving of batches, seals, seams and restarts keeps: each window genuine, and each link truthfully bound to the one before or an unbound restart over old ground; what was in the file stays, and every window added is signed with the writer's key |
| PublicationRuns.BeginSound | packages/distribution/src/publicationWriter.ts:128-178 | a market with no file yet starts sound |
| PublicationRuns.LinkShapes | packages/distribution/src/publisher.ts:189-255 | in every such archive a link is unbound exactly when it goes back over committed ground, names its predecessor's root otherwise, and states a resume point, the predecessor's end, exactly where sequences jump |
| PublicationRuns.FileVerifiesIff | packages/distribution/src/commitment.ts:461-536 | the whole file is one valid chain exactly when the record never went back over committed ground |
| PublicationRuns.ForwardRunsLeaveOneChain | packages/distribution/src/publicationWriter.ts:128-321 | every run whose batches start beyond what is committed leaves one valid chain |
| PublicationRuns.EveryRunConserves | packages/distribution/src/publicationWriter.ts:128-321 | windows and open ticks together are the accepted ticks, in order, less the open windows lost at restarts |
| PublicationRuns.BackwardBatchRestartsOnce | packages/distribution/src/publisher.ts:189-233 | a batch at or before the head after a seam gives exactly one unbound restart, bound links after it |
| PublicationRuns.SeamWaits | packages/distribution/src/publicationWriter.ts:213-247 | after a seam nothing is open and the publisher waits to resume after the committed head |
| Priming.PrimePage | apps/api/src/publication.service.ts:233-257 | the inner loop folds one page of the record, seaming at each jump |
| Priming.FoldPages | apps/api/src/publication.service.ts:229-258 | pages of any size fold the whole record after the tip, jump counts and restart point included |
| Priming.Prime | apps/api/src/publication.service.ts:203-272 | priming answers fresh, broken, seamed or continued, and leaves the chain, as one fold with no pages says; no page size appears in the result and no batch is refused |
| Priming.FoldCut | apps/api/src/publication.service.ts:229-258 | folding a record is folding it in any two parts |
| Priming.PrimingConserves | apps/api/src/publication.service.ts:203-272 | priming commits or leaves open exactly the record's ticks, in order |
| Priming.PrimingKeepsOneChain | apps/api/src/publication.service.ts:203-272 | a file that was one valid chain is one after priming |
| PrimingSeams.CommittedJumps | packages/distribution/src/publisher.ts:189-256 | in every file any run of a writer leaves, the links that declare a resume are exactly those whose window begins where the committed sequences jump |
| PrimingSeams.SeamsAreJumps | apps/api/src/publication.service.ts:203-272 | behind the tip, over all priming commits or leaves open, a resume is declared exactly at each jump of the record |
| PrimingSeams.RestartedAtLastJump | apps/api/src/publication.service.ts:203-272 | the verdict names the tick after the record's last jump, and none where it does not jump |
| PrimingSeams.SealedAreShortWindows | apps/api/src/publication.service.ts:203-272 | the seams close one window at each jump whose stretch is no whole number of windows, and what stays open is the last stretch's remainder |
| PrimingSeams.PrimingSays | apps/api/src/publication.service.ts:203-272 | with a seam asked for, priming commits everything and waits behind the head; without one it leaves open what does not fill a window and expects the record's next tick; and it says continued exactly when no seam was asked for and the record has no jump, else the last restart and the windows sealed short |
| Rotations.AuthorisedKeys | packages/distribution/src/rotation.ts:278-323 | the list is built exactly when every rotation is next in line, signed by the key it retires, and names a key never used before |
| Rotations.KeysDistinct | packages/distribution/src/rotation.ts:278-323 | no key is in force twice, so a key has one epoch |
| Rotations.SuccessionPrefix | packages/distribution/src/rotation.ts:278-323 | a log cut short is a succession too |
| Rotations.HeadIsFirst | packages/distribution/src/signing.ts:212-293 | the head a rotation names for an asset is the first it lists, and none where it lists none |
| SignedChains.LastPlace | packages/distribution/src/signing.ts:212-293 | the root index answers with a root's last place in the chain |
| SignedChains.RequiredFrom | packages/distribution/src/signing.ts:212-293 | each rotation's epoch is required from the link after the last place of its head, and a head that is missing is found |
| SignedChains.VerifySignedChain | packages/distribution/src/signing.ts:212-293 | None exactly for a valid chain under a valid succession, every head present, every link signed by an authorised key no older than the one before, and none below a rotation that precedes it |
| SignedChains.EpochsNeverDecrease | packages/distribution/src/signing.ts:212-293 | along an accepted chain epochs never decrease |
| SignedChains.NothingRetiredAfterHead | packages/distribution/src/signing.ts:212-293 | no link after a rotation's named head is signed below that rotation's epoch |
| CommitmentsFile.IncrementalChainVerifier.Accept | packages/distribution/src/commitmentsFile.ts:246-318 | one link is taken exactly when it is acceptable after the links taken, and a refusal changes nothing that was taken |
| CommitmentsFile.IncrementalChainVerifier.Finish | packages/distribution/src/commitmentsFile.ts:321-332 | finishing succeeds exactly when links were taken and every rotation's head was seen |
| CommitmentsFile.VerifyFile | packages/distribution/src/commitmentsFile.ts:352-398 | a verdict stated over the whole file; on a refusal too, the count is the length of the longest prefix each of whose links is acceptable in turn, and the breaks are that prefix's |
| CommitmentsFile.FileOkIsAccepted | packages/distribution/src/commitmentsFile.ts:206-333 | that verdict is exactly every link acceptable in turn and every head present |
| VerifierAgreement.VerdictsAgreeIff | packages/distribution/src/commitmentsFile.ts:206-333 | on any chain at all: accepted incrementally with no restart, exactly when accepted by the batch verifier and no rotated head's root recurs in a way that matters |
| VerifierAgreement.IncrementalIsStricter | packages/distribution/src/commitmentsFile.ts:206-333 | what the incremental verifier accepts as one chain the batch verifier accepts |
| VerifierAgreement.VerdictsAgreeOnDistinctRoots | packages/distribution/src/commitmentsFile.ts:206-333 | with pairwise distinct roots the two give one verdict on every chain that never restarts |
| VerifierAgreement.VerdictsAgreeOnGenuine | packages/distribution/src/commitmentsFile.ts:206-333 | on chains of genuine links they give one verdict, an unbound break being a refusal for the batch verifier |
| VerifierAgreement.BreaksAre | packages/distribution/src/commitmentsFile.ts:187-204 | the breaks reported are exactly the places that state one |
| VerifierAgreement.BreaksInOrder | packages/distribution/src/commitmentsFile.ts:187-204 | and they stand in file order, each once |
| VerifierAgreement.RepeatedHeadDisagrees | packages/distribution/src/commitmentsFile.ts:159-166 | the verifiers do not always agree: a concrete chain that repeats a head's root is accepted by the batch one and refused by the other |
| VerifierAgreement.EveryRunVerifies | packages/distribution/src/commitmentsFile.ts:352-398 | under one key and no rotation: every file a writer run leaves is accepted, and its unbound breaks are exactly where the record went back |
| RotatedRuns.SignedInPhase | packages/distribution/src/publicationWriter.ts:66-100 | over any succession of writers, each restarting from the tip under its own key: a window is signed with the key of the writer that wrote it, whatever comes later |
| RotatedRuns.RotatedFileVerifiesIff | packages/distribution/src/commitmentsFile.ts:246-398 | under a log that names each next key at the head committed by then: the incremental verifier accepts the file exactly when no rotation names a root that stands in the file before that head, and the batch verifier exactly when no window goes back |
| RotatedRuns.ForwardRotatedFileVerifies | packages/distribution/src/signing.ts:212-293 | when no window goes back, both verifiers accept the file under its rotation log |
| RotatedRuns.ReplayedHeadIsRefused | packages/distribution/src/commitmentsFile.ts:271-316 | the input: a tick committed, and after a seam committed again, then a rotation at that head: the incremental verifier refuses a file every window of which was signed by the key in force |
| Anchors.Summarise | packages/distribution/src/anchor.ts:120-180 | a summary is made exactly for one asset's record in order, in however many pieces, and describes it: the asset of every link, the range, the number of links, the root and the key of the last link, and one break for each link that declares one, in order, bound exactly when that link names the root before it |
| Anchors.DescribedOnce | packages/distribution/src/anchor.ts:120-180 | a chain is described by one summary only: that description determines every field |
| Anchors.SummaryCounts | packages/distribution/src/anchor.ts:120-180 | records with one summary are of one length |
| Anchors.NewestKeyIsNamed | packages/distribution/src/anchor.ts:120-180 | in a chain validly signed, no link is signed at a later epoch than the key its summary names |
| Anchors.BuildAnchor | packages/distribution/src/anchor.ts:192-209 | an anchor is built exactly when every chain is one record and no asset appears twice |
| Anchors.BreaksDiffer | packages/distribution/src/anchor.ts:307-331 | the element-wise comparison is inequality |
| Anchors.ExtendsAnchor | packages/distribution/src/anchor.ts:356-432 | None exactly when every earlier entry is still there: same start, no less of it, same breaks first, and its head in the chain given |
| Anchors.VerifyAnchor | packages/distribution/src/anchor.ts:239-298 | None exactly when entries and chains match one to one, signatures hold where asked, and the previous anchor is extended |
| Anchors.BuiltAnchorVerifiesIff | packages/distribution/src/anchor.ts:192-298 | an anchor just built is accepted against its own chains exactly when they pass what else is asked for: signatures if a key is given, the earlier anchor if one is |
| Anchors.RecordVerifiesIff | packages/distribution/src/anchor.ts:120-181 | a record that can be anchored is one chain to the structural verifier exactly when it has no unbound break |
| Anchors.UnboundBreakRefusesAKey | packages/distribution/src/anchor.ts:239-298 | an anchor over a record with an unbound break is refused as soon as a genesis key is asked for |
| AnchorHistory.AnchoredRangeTiles | packages/distribution/src/anchor.ts:120-180 | windows and recorded breaks tile the anchored range: every sequence is in exactly one of a window and a break |
| AnchorHistory.LastPieceStands | packages/distribution/src/anchor.ts:356-432 | append-only: back to its last unbound break the earlier record stands in the later one unchanged, ticks and all; with no unbound break it is a prefix of it |
| AnchorHistory.CoverageFixed | packages/distribution/src/anchor.ts:356-432 | inside the earlier range the later chain covers exactly the sequences the earlier one covered |
| AnchorHistory.VerifiedAnchorSucceeds | packages/distribution/src/anchor.ts:239-298 | when an anchor verifies against the one before it, the later one is no older, and every earlier chain has a successor with at least as many links, to which the two results above apply |
| AnchorHistory.BeforeUnboundBreakCanChange | packages/distribution/src/anchor.ts:239-432 | the bound is exact: before an unbound break a window can be restated, at any price, and an anchor of the one record verifies as an extension of any anchor of the other that is no younger |
| Text.IsWellFormed | packages/distribution/src/rotation.ts:89-101 | the index walk accepts exactly strings without half a surrogate pair |
| Text.Utf8Binds | packages/distribution/src/rotation.ts:111-118 | among well-formed strings the signed bytes identify the string |
| Text.IllFormedIsAmbiguous | packages/distribution/src/rotation.ts:103-118 | the guard is exact: every string that is not well formed signs the same bytes as a different, well-formed one |
| Encodings.EncodingBinds | packages/distribution/src/signing.ts:83-113 | two commitments encode alike exactly when every field encodes alike, the trailing resume point included; well-formed ones are then equal |
| Encodings.RotationBinds | packages/distribution/src/rotation.ts:174-196 | two rotations encode alike exactly when every field does, the head list of any length included; well-formed ones are then equal |
| Readers.CommitmentComesBack | packages/distribution/src/signing.ts:83-113 | the signed bytes of a commitment, read frame by frame, are the label and every field in its place |
| Readers.RotationComesBack | packages/distribution/src/rotation.ts:174-196 | the signed bytes of a rotation, read frame by frame, are the label, the epoch, the two keys, every head in order and the reason |
| Encodings.EncodingsDisjoint | packages/distribution/src/rotation.ts:174-196 | no bytes are both a commitment's encoding and a rotation's |
| JournalFiles.ReadJournal | packages/distribution/src/journalFile.ts:30-78 | a journal reads exactly when its header and rows are right, the rows contiguous and the count true, and then as its rows |
| JournalFiles.WrittenReads | packages/distribution/src/publicationWriter.ts:297-321 | a journal the writer wrote reads back as its window |
| JournalFiles.Serve | packages/distribution/src/journalFile.ts:136-200 | a window's journal is read, matched, hashed again and proved from; without the journal, with one that does not read, or with one that does not match, exactly that refusal |
| JournalFiles.ProveFromPublication | packages/distribution/src/journalFile.ts:118-202 | the streaming loop answers from the first link that reaches the sequence; unpublished exactly without a directory, and a bad sequence exactly for one that is unsafe or below one |
| JournalFiles.AnswersAre | packages/distribution/src/journalFile.ts:118-202 | which answer any directory gives, genuine or not: unpublished, uncommitted, the last committed sequence, the edges of a gap, or the proof or refusal of the first link that reaches the sequence |
| JournalFiles.ServedIff | packages/distribution/src/journalFile.ts:136-200 | for a genuine link, proofs of its window are served exactly while its journal holds the committed run; what is served verifies and names the committed tick |
| JournalFiles.ProofsAreHonest | packages/distribution/src/journalFile.ts:118-202 | whatever the journals hold beside genuine links, an answer that proves, proves the committed tick |
| JournalFiles.CommittedIsProved | packages/distribution/src/journalFile.ts:118-202 | on a record that only went forward, every committed tick is proved from what the writer left, and the proof verifies |
| JournalFiles.ArchiveServes | packages/distribution/src/journalFile.ts:118-202 | on any record and for any sequence: a proof is served exactly when the first link that starts beyond the sequence or ends at or beyond it spans it and the journal of that link's name still holds its window |
| JournalFiles.CommittedIsProvedIff | packages/distribution/src/journalFile.ts:118-202 | in terms of the windows alone: a sequence of a window is proved from it exactly when no window written before it starts beyond the sequence or spans it, and no later window of its name holds other ticks; each other case with its answer |
| JournalFiles.BackwardWindowIsUnreached | packages/distribution/src/journalFile.ts:138-152 | the first failure, from the empty state: two ticks the second of which goes back, in windows of one, leave an intact journal whose sequence is answered as uncommitted |
| JournalFiles.ReplacedJournalIsRefused | packages/distribution/src/journalFile.ts:153-202 | the second failure, from the empty state: two different ticks of one sequence in windows of one leave a committed window whose proof is refused |
| JournalFiles.GapIsNamed | packages/distribution/src/journalFile.ts:118-202 | a sequence between two windows is answered with exactly the two edges of its gap |
| JournalFiles.OutsideIsUncommitted | packages/distribution/src/journalFile.ts:118-202 | before the first window nothing is stated, and beyond the last the last committed sequence is |
| ChainTips.ChainTipOf | packages/distribution/src/commitmentsFile.ts:106-157 | the tail read, four times longer each turn, ends and gives the tip of the whole file |
| ChainTips.StepBack | packages/distribution/src/commitmentsFile.ts:139-150 | stepping back over blank lines of one tail answers, or finds the tail too short |
| ChainTips.TipIsLastLine | packages/distribution/src/commitmentsFile.ts:73-104 | the tip is the last line a reader of the whole file sees |
| ChainTips.AppendIsTip | packages/distribution/src/commitmentsFile.ts:86-104 | a finished append is the new tip |
| ChainTips.CutAppendIsRefused | packages/distribution/src/commitmentsFile.ts:86-133 | an append cut anywhere is refused, naming the old size as the offset to truncate to |
| ChainTips.TruncationRestores | packages/distribution/src/commitmentsFile.ts:106-133 | truncating where the refusal says gives back the file before the append |
| TickFeeds.AssetFeed.Publish | packages/distribution/src/feed.ts:258-292 | a batch is recorded and fanned out, or refused whole, exactly as the step says |
| TickFeeds.AssetFeed.TicksSince | packages/distribution/src/feed.ts:312-365 | a tail of the window, or which of the three refusals |
| TickFeeds.AssetFeed.Subscribe | packages/distribution/src/feed.ts:374-389 | a subscription with its backlog replayed, kept only while live |
| TickFeeds.AssetFeed.Cancel | packages/distribution/src/feed.ts:427-432 | one subscription ends and is detached, and no other changes |
| TickFeeds.AssetFeed.DeclareSeam | packages/distribution/src/feed.ts:235-249 | a seam is declared exactly when it describes a window |
| TickFeeds.AssetFeed.Retire | packages/distribution/src/feed.ts:302-309 | every live subscription is closed and the window dropped |
| TickFeeds.Subscription.Push | packages/distribution/src/feed.ts:415-425 | a batch is accepted whole or ends the subscription |
| Feeds.EveryObserverInStep | packages/distribution/src/feed.ts:258-433 | over every interleaving, seams declared at any time included: every subscriber was delivered a stretch of one run, without a hole, repeat or skip, from where it asked, exactly when no run's first batch was accepted by someone waiting for another sequence |
| Feeds.SilentIsSound | packages/distribution/src/feed.ts:190-205 | a feed that has published nothing starts in step |
| Feeds.StepKeepsIff | packages/distribution/src/feed.ts:258-433 | each single operation keeps that, unless it is such a first batch, and then it does not |
| Feeds.OrderlyNeverMisleads | packages/distribution/src/feed.ts:258-292 | a rule for callers that is enough: open a run at the first sequence or the declared resume point, and declare a seam before anyone waits elsewhere |
| Feeds.FirstPublishIff | packages/distribution/src/feed.ts:258-292 | the first batch of a run, which the feed does not check against a seam, keeps every observer in step exactly when nobody waiting for another sequence accepts it |
| Feeds.FirstTickElsewhereMisleads | packages/distribution/src/feed.ts:258-292 | from the silent feed: opening away from the first sequence hands the subscriber of the first sequence another one |
| Feeds.SeamWhileWaitingMisleads | packages/distribution/src/feed.ts:235-292 | from the silent feed: a seam declared while the subscriber of the first sequence waits, and a run opened exactly at its resume point, hands that subscriber another sequence than it asked for |
| Feeds.LaterPublishKeeps | packages/distribution/src/feed.ts:258-292 | after the first tick any batch keeps every observer in step: it is refused or it extends the run |
| Feeds.RefusedChangesNothing | packages/distribution/src/feed.ts:258-280 | a refused batch leaves the feed as it was |
| Feeds.SinceIff | packages/distribution/src/feed.ts:312-365 | a replay is given exactly for sequences from the oldest retained to one past the newest, or the opening sequence of an empty feed |
| Feeds.BacklogIsTail | packages/distribution/src/feed.ts:312-365 | a replay is the end of the run, from the sequence asked for up to the newest |
| FeedDelivery.RecordGrows | packages/distribution/src/feed.ts:258-309 | over every step: a batch is on the record exactly when it is gapless and joins the run, the window stays the newest of the record, a seam stands until the first tick after it, and retirement begins a new run |
| FeedDelivery.StepServes | packages/distribution/src/feed.ts:258-433 | one step, one subscription: a live one is served a batch that was taken, all of it, exactly when its sink accepts, and ends exactly at its own refusal, its own cancellation or retirement; nothing else changes it |
| FeedDelivery.LiveIff | packages/distribution/src/feed.ts:258-433 | over every run of steps: a subscription is live at the end exactly when none of them ended it, and then it was delivered everything that came onto the record, once and in order, and stands at its end; one that ended gets nothing more |
| FeedDelivery.WillingIsServed | packages/distribution/src/feed.ts:258-433 | a subscription that was admitted, whose sink takes every batch and that nobody cancels, is live until the feed is retired and holds every tick of the run from where it began |
| FeedDelivery.AdmittedHolds | packages/distribution/src/feed.ts:374-389 | a subscription is refused exactly when its backlog is, with that error, and otherwise is offered the run from the sequence asked for, once, and starts live unless it refuses that |
| FeedDelivery.ResumeAnswers | packages/distribution/src/feed.ts:312-365 | which answer a resume gets: evicted, naming the oldest that can be had, exactly below it; never published, naming the newest there is, exactly above the next sequence; the ticks in between |
| FeedDelivery.NobodyLagsBehind | packages/distribution/src/feed.ts:258-433 | over every run of a feed, misled or not: every live subscription that holds anything stands at the newest tick of the current run |
| MarketStreams.ReconnectNeverGaps | apps/web/src/lib/marketStream.ts:85-116 | over whatever the feed went through without misleading anyone: a client whose every connection resumes where its window says continues all it received, even across runs, and what came from one run is one stretch of it |
| MarketStreams.Follow | apps/web/src/lib/marketStream.ts:85-135 | the client's loop over connections cut off anywhere, one tick appended at a time: no append is refused, and the window holds the newest of all of them |
| TickWindows.TickWindow.Append | packages/chart/src/window.ts:84-104 | a batch is refused exactly when it does not continue what was received; otherwise the window holds the newest ticks up to its capacity |
| TickWindows.TickWindow.ResumeFrom | packages/chart/src/window.ts:71-75 | the sequence to resume from is the one after everything ever received |
| TickWindows.EveryBatchContinues | packages/chart/src/window.ts:84-104 | however a continuing run is cut into batches, no batch raises the contiguity error |
| ServerSentEvents.SseParser.Push | packages/client/src/sse.ts:23-37 | the scanning loop leaves the state and the events of reading the carried text and the chunk |
| ServerSentEvents.SseParser.Line | packages/client/src/sse.ts:39-58 | one line sets a field, completes an event, or is ignored |
| ServerSentEvents.ReadSplits | packages/client/src/sse.ts:23-37 | reading two texts one after the other is reading them as one |
| ServerSentEvents.ChunksDoNotMatter | packages/client/src/sse.ts:23-37 | however a stream is cut, a CRLF split across chunks included, events and state are the same |
| ServerSentEvents.EveryChunkingReadsTheFrames | apps/api/src/market.controller.ts:1318 | under every chunking the frames the venue wrote come back one event each, with their ids and data |
| ServerSentEvents.FramesComeBack | apps/api/src/market.controller.ts:1318-1343 | the parser inverts the frame writer and is clean again after it |
| ServerSentEvents.DataComesBackIff | packages/client/src/sse.ts:23-37 | the condition is exact: one line of data comes back unchanged unless it ends in a carriage return |
| EventBlocks.BlockReads | packages/client/src/sse.ts:23-58 | any block of lines, comments, unknown fields, fields without a colon or a space and either line ending included: one event with the last name, every line of data and the last id seen, or none where the block gives neither data nor a name |
| EventBlocks.ManyLinesComeBack | packages/client/src/sse.ts:23-58 | data of any number of lines, written as that many data lines, comes back whole when no line of it ends in a carriage return |
| EventBlocks.JoinsBack | packages/client/src/sse.ts:46-56 | lines joined again are the text they were cut from |
| RateLimits.RateLimitGuard.AdmitRequest | apps/api/src/rateLimit.guard.ts:92-111 | verdict and map are those of one request of the specification, pruning included |
| RateLimits.RateLimitGuard.Prune | apps/api/src/rateLimit.guard.ts:114-119 | a large map loses exactly the buckets idle for more than a minute |
| RateLimits.AdmitInRange | apps/api/src/rateLimit.guard.ts:92-111 | tokens stay between zero and the capacity, whatever the clock does |
| RateLimits.AdmittedWithin | apps/api/src/rateLimit.guard.ts:92-119 | in any stretch of W ms of any run, pruning included, a key is admitted at most the capacity and what W ms earn |
| RateLimitRuns.PassesIff | apps/api/src/rateLimit.guard.ts:92-111 | one client on any clock, out of any bucket: a request is admitted exactly when no stretch of admissions that ends with it exceeds the capacity and what the clock earns over it, nor all of them what the first bucket held and has earned |
| RateLimitRuns.NeverRefusedIff | apps/api/src/rateLimit.guard.ts:92-111 | on any clock, out of any bucket: a client is never refused exactly when every stretch of its requests keeps within that |
| RateLimitRuns.AdmittedIff | apps/api/src/rateLimit.guard.ts:92-119 | every request of every run of many clients on a clock that does not go back, pruning included: admitted exactly when its key's admissions since any of its requests, itself included, are at most the capacity and what the time between earns, and the bucket it found could pay |
| RateLimitRuns.NoneRefusedIff | apps/api/src/rateLimit.guard.ts:92-119 | a client whose first request comes with the run is never refused exactly when no stretch of its requests is more than the capacity and what the stretch earns |
| RateLimitRuns.NoLimit | apps/api/src/rateLimit.guard.ts:92-96 | a rate of nothing is no limit: every request is admitted and no bucket kept |
| RateLimits.KeysDoNotMeet | apps/api/src/rateLimit.guard.ts:92-111 | each key is served as if it were alone |
| RateLimits.RetryAfterIsExact | apps/api/src/rateLimit.guard.ts:107-110 | waiting the stated seconds is enough, and one second less is not, down to the one second it never goes below |
| RateLimits.VerdictShowsIff | apps/api/src/rateLimit.guard.ts:92-119 | one request, on any clock: pruning changes its verdict exactly when its bucket was forgotten and would not yet hold a whole token |
| RateLimits.PruningShowsIff | apps/api/src/rateLimit.guard.ts:92-119 | any run, on any clock: pruning shows in no verdict and no bucket kept, at any point, exactly when no request finds its bucket forgotten before it is full again |
| RateLimits.MissedGoesBack | apps/api/src/rateLimit.guard.ts:92-119 | a request finds such a bucket only if it is dated before one already served |
| RateLimits.SmallMapKeepsAll | apps/api/src/rateLimit.guard.ts:114-119 | below the size the map is pruned at, nothing is forgotten, on any clock |
| RateLimits.PruningNeverShows | apps/api/src/rateLimit.guard.ts:92-119 | so on a clock that does not go back, the pruned map gives every verdict an unpruned one would |
| RateLimits.BackwardClockShows | apps/api/src/rateLimit.guard.ts:92-119 | and on one that goes back it can show, at every rate: a run of the guard from the empty map whose clock goes back only at its last request, which is admitted because its bucket was pruned where an unpruned map refuses it |
| Reductions.ReduceToColumns | packages/chart/src/reduce.ts:53-117 | in any order the loop draws one column for each stretch of ticks in one column, telling its edges, its first and last price, its greatest and least, and its count; in time order that is one column per slice that holds a tick, and none for one that does not |
| Reductions.StretchesAreTheWindow | packages/chart/src/reduce.ts:80-117 | in any order the stretches hold the window's prices in that order, each once, and no two neighbours are of one column |
| Reductions.StretchesKeepColumns | packages/chart/src/reduce.ts:80-117 | and each tick stands in a stretch of its own column |
| Reductions.EdgesTile | packages/chart/src/reduce.ts:53-78 | the columns cut the window in equal parts from its start to its end |
| Reductions.ExtremesAgreeInAnyOrder | packages/chart/src/reduce.ts:53-146 | in any order extremes and counts over the columns drawn equal those of the window |
| Reductions.WindowExtremes | packages/chart/src/reduce.ts:126-146 | the direct pass gives the extremes and count of the window |
| Reductions.SliceIsHalfOpen | packages/chart/src/reduce.ts:53-117 | a column holds exactly the ticks from its own edge up to the next column's |
| Reductions.ColumnsAreSlices | packages/chart/src/reduce.ts:53-117 | each column is the open, high, low, close and count of its slice, none is empty, and they stand in strict order |
| Reductions.EveryTickHeldOnce | packages/chart/src/reduce.ts:53-117 | together the columns hold the window's prices, each once |
| Reductions.ExtremesAgree | packages/chart/src/reduce.ts:53-146 | extremes and counts over the columns equal those of the window |
| Reductions.HighLowAre | packages/chart/src/reduce.ts:126-146 | the folded high and low are the greatest and the least |
| LiveBars.LiveBarBuilder.Accept | packages/chart/src/bars.ts:265-314 | a tick is skipped, extends the bar or starts one, as the step says |
| LiveBars.LiveBarBuilder.SeedFrom | packages/chart/src/bars.ts:333-377 | a seed is refused if it moves back or leaves its bucket, and is otherwise the fold of its bars |
| LiveBars.BarsFold | packages/chart/src/bars.ts:333-377 | folding bars is folding the ticks they hold |
| LiveBars.SeededBarIsFullFold | packages/chart/src/bars.ts:265-377 | seeded, or seeded again, through one tick and fed from the next, the builder shows after every tick the open, high, low and close of every record tick in the forming bucket, under any price map that keeps order |
| LiveBars.AcceptShowsAllIff | packages/chart/src/bars.ts:265-314 | at any duration: after the record's next tick the bar is the whole of its bucket exactly when the bucket starts on a whole second or every price of it displays alike |
| LiveBarJoins.BucketHolds | packages/chart/src/bars.ts:175-178 | a bucket starts on the grid from the epoch, at or before its instants, and lasts the duration |
| LiveBarJoins.DrawsIff | packages/chart/src/bars.ts:265-314 | in any state a tick is drawn exactly when it is no replay, its bucket is after history, and the bucket began after the stream opened or the stream continues the record; a replay changes nothing |
| LiveBarJoins.SeedRefusedIff | packages/chart/src/bars.ts:333-377 | a seed is refused exactly when it would move the bar back or its bars are not of one bucket, by that name |
| LiveBarJoins.JoinedDraws | packages/chart/src/bars.ts:265-314 | a stream joined to a record anywhere and never seeded: which ticks are drawn, and that each drawing is the fold of all the stream has brought of the bucket |
| LiveBarJoins.NoFragmentIsDrawn | packages/chart/src/bars.ts:194-314 | where the stream opened after the ticks it did not bring and claims no resume, every bar drawn is the record's whole bar |
| LiveBarJoins.NoFragmentAfterHistory | packages/chart/src/bars.ts:194-314 | and so where history already shows the newest bucket of what came before the stream |
| LiveBarRuns.LiveRunOnlyWidens | packages/chart/src/bars.ts:265-314 | over any run of live ticks on a clock that does not go back, gaps and skipped ticks included: the bar never moves to an earlier bucket, and within one it keeps its open and only widens |
| LiveBarRuns.SeedNeverMovesBack | packages/chart/src/bars.ts:333-377 | no seed moves the forming bar to an earlier bucket |
| LiveBarRuns.ReseedKeepsRangeIff | packages/chart/src/bars.ts:333-377 | a new seed of the drawn bucket keeps the bar's time, open and range exactly when every drawn tick it leaves out displays inside its own range: always if it reaches the newest tick drawn |
| LiveBarRuns.ReseedLosesTicks | packages/chart/src/bars.ts:265-377 | after a seed through less than was drawn and the next live tick, the ticks between are missing, the join stands, and the bar is the record's exactly when what is missing displays inside what is left |
| LiveBarRuns.ReseedNarrows | packages/chart/src/bars.ts:265-377 | the input: seeded through tick 0, given tick 1, seeded again through tick 0 and given tick 2, nothing is refused, the high of tick 1 is taken back and tick 1 is in no bar |
| CatalogueSamples.SampleCatalogue | packages/engine/src/catalogueSample.ts:93-157 | for every stream and every catalogue: the refusals, the whole catalogue when it is small, and otherwise the catalogue cut in order by the assets that stream draws, as many as asked for or all there are, every stratum reached; where no asset stands twice, exactly the size asked for and balanced |
| CatalogueSamples.Deal | packages/engine/src/catalogueSample.ts:137-151 | the rounds end when as many assets are chosen as asked for or every entry is drawn, every stratum dealt once a round while it lasts |
| CatalogueSamples.DealtIsBalanced | packages/engine/src/catalogueSample.ts:137-151 | no stratum gets two more than another unless that one is exhausted |
| CatalogueSamples.Shuffled | packages/engine/src/catalogueSample.ts:168-175 | the in-place shuffle permutes, one draw for each place but the first |
| CatalogueSamples.FilteredPartition | packages/engine/src/catalogueSample.ts:153-156 | measured and unmeasured are the catalogue in two: every asset is in exactly one of them, and both are in catalogue order where no asset stands twice |
| CatalogueSamples.StrataAre | packages/engine/src/catalogueSample.ts:103-115 | the strata collected are distinct and exactly those of the assets |
| CatalogueSamples.StrataInOrder | packages/engine/src/catalogueSample.ts:103-115 | and they stand in the order they are first seen in |
| CatalogueDraws.AnyOrder | packages/engine/src/catalogueSample.ts:168-175 | every order of the strata is what some draws shuffle into |
| CatalogueDraws.OrderThenDeal | packages/engine/src/catalogueSample.ts:133-151 | every order of the strata, and after it every deal in that order, is what one stream draws |
| CatalogueDraws.EveryBalancedSampleIsDrawn | packages/engine/src/catalogueSample.ts:93-157 | every balanced choice of part of a catalogue without repeats is the sample some stream draws |
| Engines.MarketEngine.NextTick | packages/engine/src/engine.ts:110-183 | one call is one step of the specification, refusals included |
| Engines.ProducedTick | packages/engine/src/engine.ts:110-183 | a produced tick moves the price, by the sign drawn, within one step of the magnitude over the quantum, up exactly when the draw reaches one minus the fraction, and exactly where the quotient is whole; the instant grows by the interval that arrived and the sequence by one |
| Engines.NotProduced | packages/engine/src/engine.ts:110-183 | each refusal exactly when its own check fails, and the state it leaves |
| Engines.SignsReachOnlyThePrice | packages/engine/src/engine.ts:110-183 | over every run two engines that differ in the sign stream have equal instants, sequences, step sizes and model state |
| Engines.DisplacementIsClose | packages/engine/src/engine.ts:150-156 | the price moves by the signs drawn times the step sizes, one sign a step |
| Engines.MirroredPath | packages/engine/src/engine.ts:150-156 | complementing the signs negates every displacement and changes nothing else |
| Engines.ChosenSignsClose | packages/engine/src/closeSelection.ts:147-202 | signs chosen on one run's step sizes, replayed, end exactly delta away |
| Engines.RefusedCloseIsNeverReached | packages/engine/src/closeSelection.ts:118-136 | a close refused by range or parity is reached by no engine on those steps, whatever its signs |
| CloseSelections.CloseBounds | packages/engine/src/closeSelection.ts:107-117 | no sign vector leaves the range of the total or its parity |
| CloseSelections.TotalIsReached | packages/engine/src/closeSelection.ts:107-117 | and the total is reached, up and down: the range is no wider than it must be |
| CloseSelections.SelectClose | packages/engine/src/closeSelection.ts:147-202 | the signs of the first drawn vector that ends on the target, every earlier one missing it, with the attempt, the rate and the band of the attempt; or that none of the first maxAttempts vectors does; each refusal exactly on its own condition, and by range or parity only where no vector ends there |
| CloseSelections.SelectCloseWhere | packages/engine/src/closeSelection.ts:233-295 | the same for any condition on the close; refused as unsatisfiable exactly when the scan is empty, and then no vector satisfies |
| CloseSelections.ScanAllowsMore | packages/engine/src/closeSelection.ts:225-245 | the scan is necessary and not sufficient, by example |

## Left out

- SHA-256, Ed25519, DER and hex routines: foreign calls, stood for by terms and predicates; `publishingKeyFromSeed`, `signRotation` and environment keys with them.
- Numbers are mathematical integers, with the safe-integer, unsigned 64-bit and signed 64-bit guards written out; non-integers and NaN, which the guards refuse, are not values of the model.
- Feeds.EveryObserverInStep: a sink that calls back into the feed while it is being delivered to is not modelled.
- TickFeeds.AssetFeed.Publish: one object per asset, where the source keeps three maps by asset id that never read each other's entries; live subscriptions are a set, pushed to in any order.
- PublicationWriter.AssetWriter.constructor: one object per asset in the same way; the directory's creation is left out, and so is its publisher.json, which has to be replaced before a writer under another key or window size may continue the directory, as `RotatedRuns` lets it.
- Anchors.BuildAnchor: the sort of entries by locale is left out; entries stand in the order of the chains.
- ChainTips.ChainTipOf: a file is its characters, one byte each, as a signed commitment is; a character of several bytes cut in two is not modelled, and parsing the line found is foreign.
- JournalFiles.ReadJournal: lines are given parsed as far as they are JSON, blank lines dropped; a malformed line of the commitments stream is not modelled.
- ServerSentEvents.SseParser.Push: a subset of section 9.2 of the HTML Living Standard, as the source: no lone CR as a line end, no byte order mark, no retry field.
- Engines.MarketEngine.NextTick: magnitudes are exact reals, so rounding of the division and infinite magnitudes are not modelled; snapshot and restore are left out.
- CloseSelections.SelectClose: the low bit taken by a 32-bit operator is stated as parity, which it is for safe integers.
- RateLimits.AdmittedWithin: exact reals for the bucket; the framework around the guard and its exempt paths are left out.
- MarketStreams.Follow: notices, timers and back-off are left out, and so is starting over with an empty window after a refused resume; the sessions are those since the window was made.
- Publisher.CommitmentPublisher.Observe: a publisher constructed to resume after a negative or unsafe sequence, whose first close throws, is constructed in the model and not run further.
- Reductions.ReduceToColumns: instants are integers and column edges exact reals; the brand checks on prices are left out.
- LiveBars.SeededBarIsFullFold: durations are whole seconds, as every timeframe of the panel is; the drawn price is any order-keeping map, of which the kernel's exponential is one.
- CatalogueSamples.SampleCatalogue: the default stratum and the description line are left out; the stream is any function from positions to draws, reduced to the bound asked for.
- Texts of error messages, log lines and renumbered link positions in wrapped errors.
- `apps/api/src/venue.service.ts` and `history.service.ts`, the settlement and exposure packages, calibration, dispersion and catalogue data, and the HTTP half of the client.
- Distributions of random choices: only what can and cannot happen is stated.
