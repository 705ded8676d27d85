# Verification model of akashi

akashi keeps an audit trail of decisions made by software agents. This directory holds Dafny
models of the parts of it whose correctness is an argument and not a glance: the Merkle audit
trail, the name suggestions, the rate limiter, the conflict scan with its backfill, the claim
splitter, the search scores and the grant cache. `dafny verify dfyconfig.toml` checks all of it.

Loops and state changes of the source are methods and classes with loop invariants; each is
proved equal to a function of its inputs or of the old state, and what the source promises is
proved about that function.

## What is modelled

**Audit trail** (`ContentHash`, `LegacyHash`, `Merkle`, `MerkleBinding`, `MerkleCompletion`,
`ProofChain`, `ForgedSnapshots`, `ProofCoverage`). SHA-256 is an arbitrary function. The
length-prefixed encoding is proved to be readable again, exactly when no field overflows its
32-bit length; when the legacy encoding fixes its fields is stated exactly. Every generated
inclusion proof is accepted; every accepted proof of the right length either is for a leaf of
the batch or yields two different pairs with the same node hash, which a
function extracts from the proof. Which batches share a root is stated exactly: pairing an odd
node with itself builds the perfect tree over the batch filled up with repeated leaves, and two
batches share a root if and only if these trees agree, up to an extracted clash. The chain of
proofs over whole runs of the background builder and the audit of any window of it are proved
for an arbitrary sequence of ticks, failing database calls and changes of the decisions table.
On top of that: which forged snapshots pass the audit, and which decisions are leaves of which
proofs.

**Suggestions** (`EditDistance`, `ProjectSuggest`). The two-row table computes the least number
of single-byte edits; this number is a metric. The suggestions are the best eligible known names,
whatever sorting algorithm is used and in whatever order the names are known.

**Rate limiter** (`RateLimit`). Runs are sequences of calls and evictions under a clock that does
not run backwards. As long as evictions only hit full buckets, the limiter admits exactly what an
ideal bucket admits; when that is so is proved.

**Conflicts** (`ConflictScan`, `Backfill`, `ClaimText`, `ClaimSplit`, `Claims`, `ClaimCuts`). The
pruned scan against the full scan, and exactly which candidates it lets through; every
interleaving of backfill workers with the mutex of their shared pair cache; where each of the five
passes of the claim splitter cuts, over positions and lines of the text, what it keeps, and the
deduplication.

**Search** (`Percentiles`, `ReScore`). Breakpoints, the piecewise score with collapsed
breakpoints, and the re-scoring weights.

**Grants** (`GrantCache`, `Authz`). The TTL cache with cloning, and the filter in front of it.

`Options`, `GoStrings`, `Sorting`, `Filters` and `Cuts` hold what these share.

## What was found

- A decision is a leaf of one proof, with an accepted inclusion proof, if and only if it appeared
  before a batch reached its date (and one has since), in runs that save their snapshots and
  whatever happens to other decisions (`ProofCoverage.ProvenOnceIffTimely`). One that appears with
  a date inside a finished batch is a leaf of no proof, then or later; the date is taken before
  the commit (internal/storage/trace.go:88), so it can happen
  (`ProofCoverage.LateDecisionIsMissed`, and the run in `ProofCoverage.LateRunMisses`).
- The audit does not compare the number of leaves with the recorded count. With the recorded
  count every forged snapshot fails or exhibits a clash
  (`ForgedSnapshots.AuditDetectsForgedSnapshot`). With another count some pass: an odd snapshot
  with its last leaf inserted once more (`ForgedSnapshots.RepeatedLeafPasses`), or the first level
  of nodes if it is in order (`ForgedSnapshots.NodeLevelPasses`); exactly which is
  `ForgedSnapshots.ForgedPassesIff`.
- VerifyMerkleProof does not look at the number of steps. A node, which is no leaf, is accepted
  with a shortened proof (`Merkle.NodeAcceptedAsLeaf`); for leaves that are no nodes an
  accepted proof proves membership exactly when it has the right length (`Merkle.MembershipIff`). Content hashes are never nodes, so decisions are safe
  (`MerkleBinding.AcceptedDecisionWasCommitted`). The comment at
  internal/integrity/integrity.go:101-103 credits the 0x01 prefix; the prefix separates what is
  hashed (`ContentHash.NodesAreNotContent`), and leaves enter the tree without being hashed again.
- A batch of odd length and the same batch with its last leaf repeated have one root
  (`MerkleBinding.RepeatedTailKeepsRoot`); two batches of distinct content hashes share one
  only with a clash (`MerkleCompletion.VerifiedBatchIsUnique`).
- The legacy v1 hash fixes the fields of a decision if and only if neither its type nor its
  outcome has a pipe and no part of its reasoning between pipes, but for the last, can pass for a
  confidence (`LegacyHash.FixedIff`).
- With the evictions that the limiter makes, the admission bound holds of all runs if and only if
  burst >= 1 and 600 * rate >= burst; without evictions, if and only if burst >= 1. Eviction is
  invisible if and only if 600 * rate >= burst. The configuration check does not ask for that
  (a burst of 1000 at one request a second is admitted by the check; there eviction shows, and
  two bursts fit into less time than one takes to refill).
- Early exit loses nothing if and only if the configuration check accepts the floor: it is not
  positive, or at most the threshold.
- More citations never lower a search result if and only if its raw similarity is not negative.
- The collapsed-breakpoint branches of PercentileScore (`span == 0`) are never taken on
  breakpoints in ascending order: no value falls in a band of no width
  (`Percentiles.ScoreBands`).

## Model

| member | source | states |
|---|---|---|
| ContentHash.ReadsWhatWasWritten | internal/integrity/integrity.go:71-73 | the four-byte prefix reads back as the length modulo 2^32 |
| ContentHash.Hasher.WriteField | internal/integrity/integrity.go:70-75 | appends a field, length first |
| ContentHash.ComputeV2Hash | internal/integrity/integrity.go:68-87 | the six writes amount to the encoding of the six fields in order; absent reasoning is empty |
| ContentHash.RoundTrip | internal/integrity/integrity.go:65-87 | the reader returns the encoded fields if and only if each is shorter than 2^32 bytes |
| ContentHash.EncodeAfterDecode | internal/integrity/integrity.go:65-87 | the reader accepts encodings only, so bytes have one reading |
| ContentHash.DecodeAfterEncode | internal/integrity/integrity.go:65-87 | any number of short fields is read back from its encoding |
| ContentHash.PreimageDeterminesContent | internal/integrity/integrity.go:65-87 | two decisions are hashed from the same bytes exactly when five texts agree and the texts of the whole microseconds they fall in; nil and empty reasoning are the same |
| ContentHash.PreimageReadsBack | internal/integrity/integrity.go:68-87 | the hashed bytes read back as the six texts in this order, the time being that of `validFrom / 1000 * 1000` nanoseconds |
| ContentHash.PreimageFixesMicrosecond | internal/integrity/integrity.go:27-32 | for decisions that differ at most in time: one preimage if and only if `validFrom / 1000` agrees |
| ContentHash.ComputeContentHash | internal/integrity/integrity.go:31-33 | "v2:" and the digest at microsecond precision |
| ContentHash.VerifyContentHash | internal/integrity/integrity.go:41-48 | dispatches on the prefix to the v2 or the v1 preimage |
| ContentHash.StoredHashVerifies | internal/integrity/integrity.go:24-48 | a computed hash verifies for every decision with the same five texts in the same microsecond, empty reasoning for absent reasoning included |
| ContentHash.StoredHashBindsContent | internal/integrity/integrity.go:41-48 | a v2 hash that verifies for two decisions: same content, or their preimages collide |
| ContentHash.StoredHashBindsMicrosecond | internal/integrity/integrity.go:41-48 | a v2 hash that verifies for two decisions: the same five texts and the same microsecond, or their preimages collide |
| ContentHash.LegacyHashVerifies | internal/integrity/integrity.go:46-63 | the digest of the six texts with pipes between them verifies for its decision |
| ContentHash.LegacyHashIsAmbiguous | internal/integrity/integrity.go:50-63 | moving text across the pipe changes no v1 verification |
| LegacyHash.FixedIff | internal/integrity/integrity.go:50-63 | no decision of other content has the v1 preimage of d if and only if type and outcome of d have no pipe and no part of its reasoning but the last can pass for a confidence; ids, confidences and times have no pipe |
| LegacyHash.FixedIffPipeFree | internal/integrity/integrity.go:50-63 | if any text without a pipe can be a confidence: if and only if type, outcome and reasoning have no pipe |
| LegacyHash.PipeFreeContentIsFixed | internal/integrity/integrity.go:57-60 | two decisions without pipes before their times have one preimage exactly when they have the same content |
| LegacyHash.NumberInReasoning | internal/integrity/integrity.go:57-60 | a part of the reasoning that can pass for a confidence gives a decision of other content with the same preimage |
| LegacyHash.LegacyHashBindsContent | internal/integrity/integrity.go:41-48 | a v1 hash that verifies for a fixed decision and for another: same content, or their preimages collide |
| ContentHash.HashPair | internal/integrity/integrity.go:101-116 | mark, length of the left part, both parts |
| ContentHash.NodePreimageAmbiguity | internal/integrity/integrity.go:101-116 | exactly which pairs share a preimage, for parts of any length |
| ContentHash.NodePreimageIsInjective | internal/integrity/integrity.go:101-116 | a pair is determined by its preimage when the left parts are shorter than 2^32 bytes |
| ContentHash.NodesAreNotContent | internal/integrity/integrity.go:101-103 | no node preimage is a v2 or v1 decision preimage |
| Merkle.CheckOrder | internal/integrity/integrity.go:154-160 | the order check accepts the sorted lists and only them |
| Merkle.HashLevel | internal/integrity/integrity.go:257-268 | one level: neighbours paired, an odd last node with itself |
| Merkle.BuildMerkleRoot | internal/integrity/integrity.go:237-271 | root of the levels; empty root for no leaves, the leaf for one; the error exactly if a leaf is less than the one before it |
| Merkle.VerifyBatchProof | internal/integrity/integrity.go:93-99 | true exactly for the rebuilt root; the error is passed on |
| Merkle.VerifyMerkleProof | internal/integrity/integrity.go:218-228 | folds the steps from the leaf up and compares |
| Merkle.FindLeaf | internal/integrity/integrity.go:162-172 | the first occurrence, or a negative index when there is none |
| Merkle.HashOnePair | internal/integrity/integrity.go:186-207 | the node of a pair and the target's sibling on the right side, also for the unpaired node |
| Merkle.ClimbOneLevel | internal/integrity/integrity.go:182-210 | next level, and one more step: the target's sibling |
| Merkle.ClimbToRoot | internal/integrity/integrity.go:174-212 | all steps of the target and the root of the batch |
| Merkle.GenerateMerkleProof | internal/integrity/integrity.go:142-213 | errors by case; otherwise the full path of the first occurrence and the root BuildMerkleRoot builds |
| Merkle.PathClimbs | internal/integrity/integrity.go:174-213 | after t steps the fold is at the ancestor of the leaf on level t |
| Merkle.ProofCompleteness | internal/integrity/integrity.go:142-228 | the generated proof of every leaf of every batch is accepted, self-paired nodes included |
| Merkle.DepthIsLog | internal/integrity/integrity.go:182-210 | a proof has ceil(log2 n) steps |
| Merkle.PathShape | internal/integrity/integrity.go:186-209 | IsRight of step k is the negated binary digit k of the index |
| Merkle.Descent | internal/integrity/integrity.go:218-228 | what an accepted proof from any node shows: a clash, membership, or by its length that a leaf is a node |
| Merkle.FullLengthSoundness | internal/integrity/integrity.go:215-228 | an accepted proof of the right length with any hashes and flags: membership or an extracted clash |
| Merkle.InclusionSoundness | internal/integrity/integrity.go:215-228 | an accepted proof of any length, leaves not being nodes: membership and the right length, or a clash |
| Merkle.MembershipIff | internal/integrity/integrity.go:215-228 | over leaves that are no nodes, short of a clash, an accepted proof is of a leaf if and only if it has the right length |
| Merkle.NodeAcceptedAsLeaf | internal/integrity/integrity.go:218-228 | a first-level node passes with the proof of a leaf less its first step; it is no leaf of a batch whose leaves are no nodes |
| Merkle.PositionSoundness | internal/integrity/integrity.go:162-228 | with the flags of index idx: the leaf at idx with exactly the generated steps, or a clash |
| MerkleBinding.TreeBinding | internal/integrity/integrity.go:253-268 | equal levels t over equally long batches: equal batches, or a clash found from the top down |
| MerkleBinding.RootBinding | internal/integrity/integrity.go:89-116 | equal roots of equally long batches: equal batches or a clash |
| MerkleBinding.RepeatedTailKeepsRoot | internal/integrity/integrity.go:236-264 | why equal length is needed: repeating the last leaf of an odd batch keeps root and order |
| MerkleCompletion.BatchBinding | internal/integrity/integrity.go:89-116 | equal roots of sorted batches of any lengths with distinct leaves that are no nodes: equal batches or a clash |
| MerkleBinding.ContentHashIsNotANode | internal/integrity/integrity.go:101-116 | a "v2:" hash is no node hash when digests do not begin with "v2:" |
| MerkleBinding.ClashIsCollision | internal/integrity/integrity.go:101-116 | a clash of pairs is a collision of the digest |
| MerkleCompletion.VerifiedBatchIsUnique | internal/integrity/integrity.go:89-99 | two batches that verify against one stored root have one tree, or a clash; equal if equally long; over content hashes equal when filled up, and equal if no leaf is repeated |
| MerkleBinding.AcceptedDecisionWasCommitted | internal/integrity/integrity.go:24-48 | end to end: a shown decision with an accepted proof has the content of a decision in the batch, or a node clash or a content collision is exhibited |
| MerkleBinding.PerfectTreeIsSplitTree | internal/integrity/integrity.go:253-270 | over 2^k leaves the bottom-up root is the root of RFC 6962, section 2.1, split in the middle |
| MerkleCompletion.BatchLeadsCompleted | internal/integrity/integrity.go:253-268 | the filled-up batch begins with the batch and holds no other leaves |
| MerkleCompletion.RootOfCompleted | internal/integrity/integrity.go:253-268 | self-pairing builds the root of the perfect tree over the filled-up batch |
| MerkleCompletion.SameRootIff | internal/integrity/integrity.go:237-271 | any two batches have one root if and only if their perfect trees agree at the depth of the shallower one, up to an extracted clash |
| MerkleCompletion.SameTreeSameLength | internal/integrity/integrity.go:237-271 | for equally long batches that is equality |
| MerkleCompletion.SameTreeSameCompletion | internal/integrity/integrity.go:237-271 | for leaves that are no nodes it is equality of the filled-up batches |
| MerkleCompletion.VerifiesIff | internal/integrity/integrity.go:93-99 | which batches verify against the root of a batch: exactly the ordered ones with its tree, up to a clash |
| ProofChain.WindowMembers | internal/storage/integrity.go:156-178 | the batch holds exactly the non-empty hashes dated after its start and up to its end |
| ProofChain.WindowCounts | internal/storage/integrity.go:156-178 | each hash as often as rows have it: equal hashes are not merged |
| ProofChain.BatchIsInOrder | internal/storage/integrity.go:156-178 | and in the order BuildMerkleRoot demands |
| ProofChain.TickOrg | akashi.go:1549-1607 | one organisation's turn with any of the four calls failing |
| ProofChain.TickIs | akashi.go:1549-1601 | a failed latest, hashes or create call, or no hashes, changes nothing; otherwise one proof with these fields is added, and its snapshot unless saving it fails |
| ProofChain.Store.BuildIntegrityProofs | akashi.go:1540-1609 | a tick advances each listed organisation by its own turn and touches no other |
| ProofChain.TickAdds | akashi.go:1578-1601 | a new proof is rebuilt by its leaves, whether or not the snapshot was saved, and leaves older proofs theirs |
| ProofChain.ChainHolds | akashi.go:1547-1588 | in every run batches are contiguous from the zero time and each PreviousRoot is the preceding root |
| ProofChain.RunsStayIntact | akashi.go:1578-1601 | in every run whose writes keep unsnapshotted windows, every proof is rebuilt from its leaves |
| ProofChain.VerifyProofsForOrg | akashi.go:1001-1111 | the audit loop gives the results of every proof in order |
| ProofChain.AuditProof | akashi.go:1005-1107 | the body of the loop: the results for one proof |
| ProofChain.AuditOneIs | akashi.go:1005-1107 | case by case: a check that cannot be made is the only result, with its reason; else the Merkle check and behind it, passed or not, the link check, each naming its proof |
| ProofChain.AuditOnePasses | akashi.go:1005-1107 | one proof's results all pass exactly when it is readable, rebuilt and linked; how many there are |
| ProofChain.AuditPassesIff | akashi.go:998-1111 | the audit of any list passes if and only if all of them are; 2n - 1 results then |
| ProofChain.MerkleCheckIff | akashi.go:1005-1065 | a proof's first result is its Merkle check, and passes exactly when its leaves can be read and rebuild the root |
| ProofChain.WindowPasses | akashi.go:998-1111 | an intact chain passes on every newest-first window |
| ProofChain.AuditPassesOnRuns | akashi.go:998-1111 | so it does on every window of every run |
| ForgedSnapshots.AuditDetectsForgedSnapshot | akashi.go:1009-1065 | other leaves in place of the snapshot, whatever they are but as many as recorded, fail the Merkle check or exhibit a clash |
| ForgedSnapshots.ForgedPassesIff | akashi.go:1009-1065 | leaves of any number pass if and only if they have the tree of the true ones, up to a clash |
| ForgedSnapshots.ForgedContentPassesIff | akashi.go:1009-1065 | for content hashes: if and only if they fill up to the same batch, up to a clash |
| ForgedSnapshots.RepeatedLeafPasses | akashi.go:1035-1065 | an odd snapshot with its last leaf inserted once more passes |
| ForgedSnapshots.NodeLevelPasses | akashi.go:1035-1065 | the first level of nodes in place of the leaves passes if it is in order |
| ProofCoverage.CoveredOnce | akashi.go:1556-1561 | every moment up to the newest batch lies in exactly one batch |
| ProofCoverage.PunctualRunsProveAll | akashi.go:1590-1601 | runs in which every write only appends decisions dated after the newest batch, and snapshots may fail to be saved: each decision up to the newest batch is covered by one proof, with an accepted inclusion proof |
| ProofCoverage.LeafOfIff | akashi.go:1540-1609 | in every run, whatever happens to other decisions: a decision is a leaf of exactly the proofs whose batch holds its date and that were made after it appeared or have no snapshot |
| ProofCoverage.ProvenOnceIff | akashi.go:1540-1609 | in every run: it is a leaf of one proof only, with an accepted inclusion proof, if and only if such a proof passes its Merkle check |
| ProofCoverage.ProvenOnceIffTimely | akashi.go:1540-1609 | when snapshots are saved: if and only if it appeared before a batch reached its date and one has reached it since |
| ProofCoverage.LateDecisionIsMissed | akashi.go:1556-1601 | when snapshots are saved, a decision that appears with a date inside a finished batch is a leaf of no proof, then or later |
| ProofCoverage.LateRunMisses | akashi.go:1540-1609 | a run from empty tables with a late decision: it is missed, and the decisions before and after it are proven |
| EditDistance.Levenshtein | internal/projectsuggest/projectsuggest.go:123-154 | the row-swapping loop returns the recursive distance |
| EditDistance.FillRow | internal/projectsuggest/projectsuggest.go:138-150 | the inner loop turns row i-1 of the table into row i |
| EditDistance.TableIsDistance | internal/projectsuggest/projectsuggest.go:120-154 | each cell is the distance of two prefixes |
| EditDistance.DistanceIsLeastEdits | internal/projectsuggest/projectsuggest.go:120-154 | the distance is attained by a list of inserts, deletes and substitutions anywhere, and no list is shorter |
| EditDistance.NoShorterWay | internal/projectsuggest/projectsuggest.go:145-149 | no list of edits is shorter than the distance |
| EditDistance.BestEditsLead | internal/projectsuggest/projectsuggest.go:145-149 | the edits read off the recursion lead from a to b and are that many |
| EditDistance.DistanceIsZeroIff | internal/projectsuggest/projectsuggest.go:124-126 | zero on equal strings and only there |
| EditDistance.DistanceIsSymmetric | internal/projectsuggest/projectsuggest.go:123-154 | symmetry |
| EditDistance.TriangleInequality | internal/projectsuggest/projectsuggest.go:123-154 | the triangle inequality |
| EditDistance.DistanceBounds | internal/projectsuggest/projectsuggest.go:123-154 | between the difference of the lengths and the longer length |
| ProjectSuggest.SimilarityScore | internal/projectsuggest/projectsuggest.go:102-118 | the score from the computed distance |
| ProjectSuggest.ScoreIsSymmetric | internal/projectsuggest/projectsuggest.go:99-118 | symmetry of the score |
| ProjectSuggest.ScoreBounds | internal/projectsuggest/projectsuggest.go:99-118 | the score is at least 0 and less than 1 |
| ProjectSuggest.AdmittedIff | internal/projectsuggest/projectsuggest.go:17-20 | which pairs clear the threshold: one contains the other, or twice the distance is at most the longer length |
| ProjectSuggest.ScoreKnown | internal/projectsuggest/projectsuggest.go:36-46 | the first loop keeps the eligible names with their scores |
| ProjectSuggest.TakeTop | internal/projectsuggest/projectsuggest.go:55-63 | the first three names at most |
| ProjectSuggest.Suggest | internal/projectsuggest/projectsuggest.go:25-64 | the whole function, empty inputs included |
| ProjectSuggest.SuggestionsAreBest | internal/projectsuggest/projectsuggest.go:22-64 | eligible, ranked, never the submitted name, nothing better left out, fewer than three only if there are no more; no name repeated if none is known twice |
| ProjectSuggest.SuggestionsAreNearest | internal/projectsuggest/projectsuggest.go:22-64 | without scores: at most three known names other than the submitted one, that contain it, are contained or are within half the longer length in edits; ordered by distance over longer length with containment as one tenth, then by name; nothing nearer left out |
| ProjectSuggest.NearerComesFirst | internal/projectsuggest/projectsuggest.go:48-63 | a nearer name that can be suggested stands before every farther one that is |
| ProjectSuggest.ScoreIsCloseness | internal/projectsuggest/projectsuggest.go:102-118 | the score orders names by that quotient: d1 * n2 < d2 * n1, and containment against 10 * d > n |
| ProjectSuggest.SuggestionsAreCanonical | internal/projectsuggest/projectsuggest.go:48-53 | any sort and any order of the known names give the same answer |
| RateLimit.Bucket.Take | internal/ratelimit/memory.go:74-101 | refill, cap, refuse or take one; new level and result |
| RateLimit.MemoryLimiter.constructor | internal/ratelimit/memory.go:38-47 | no buckets at first |
| RateLimit.MemoryLimiter.Allow | internal/ratelimit/memory.go:51-102 | the call's key moves by one step, all other keys keep their level |
| RateLimit.CallIs | internal/ratelimit/memory.go:58-101 | one call in numbers: what it finds, when it is admitted, what it leaves; limit, remaining and wait of the answer |
| RateLimit.MemoryLimiter.EvictStale | internal/ratelimit/memory.go:120-147 | exactly the keys idle for more than 600 seconds go |
| RateLimit.TokensStayInRange | internal/ratelimit/memory.go:74-95 | in every run tokens stay within 0..burst |
| RateLimit.AdmissionBound | internal/ratelimit/memory.go:32-35 | in every run without evictions, or with any if 600 * rate >= burst, at most burst + rate * (t2 - t1) calls of a key are admitted from t1 to t2 |
| RateLimit.AdmissionBoundIff | internal/ratelimit/memory.go:51-147 | the bound holds of all runs, evictions at any moments included, if and only if burst >= 1 and 600 * rate >= burst |
| RateLimit.TwoBursts | internal/ratelimit/memory.go:137-147 | with 600 * rate < burst: drain, evict and drain again exceeds the bound |
| RateLimit.BoundWithoutEvictionsIff | internal/ratelimit/memory.go:58-72 | the bound holds of all runs without evictions if and only if burst >= 1 |
| RateLimit.AvailableIsCredit | internal/ratelimit/memory.go:16-20 | in every run without evictions, or with any if 600 * rate >= burst, what a key could spend is the credit of an ideal bucket that keeps no records |
| RateLimit.AdmittedIffCredit | internal/ratelimit/memory.go:49-102 | in such runs a call is admitted exactly when that credit is at least one |
| RateLimit.RemainingIsExact | internal/ratelimit/memory.go:96-101 | Remaining counts the further calls admitted at the same moment |
| RateLimit.RetryAfterIsExact | internal/ratelimit/memory.go:82-94 | an idle refused key is admitted after s whole seconds if and only if s has reached RetryAfter |
| RateLimit.ResetAtIsExact | internal/ratelimit/memory.go:104-112 | an idle key is full after s whole seconds if and only if ResetAt is reached |
| RateLimit.EvictionSimulates | internal/ratelimit/memory.go:120-147 | with 600 * rate >= burst evictions at any moments change no result of any run |
| RateLimit.EvictionShows | internal/ratelimit/memory.go:120-147 | otherwise a run that drains, evicts and calls again differs |
| RateLimit.EvictionIsInvisibleIff | internal/ratelimit/memory.go:120-147 | so evictions are invisible if and only if 600 * rate >= burst |
| ConflictScan.FPRateIsSymmetric | internal/conflicts/scorer.go:528-532 | both orders of a type pair have one rate |
| ConflictScan.FPRateCache.Lookup | internal/conflicts/scorer.go:527-544 | the lazily filled cache answers what the query would, 0 for errors and small samples |
| ConflictScan.JudgeCandidate | internal/conflicts/scorer.go:549-587 | stop, skip or keep one candidate, as the pruned scan does |
| ConflictScan.Scan | internal/conflicts/scorer.go:546-587 | the loop passes what the pruned scan passes |
| ConflictScan.ScanLetsThrough | internal/conflicts/scorer.go:546-587 | of sorted candidates under an accepted floor exactly those pass, in order, that have an active scorer and enough topic similarity, or reach the threshold, twice that if the query for their pair of types reports more than 80% on five samples or more |
| ConflictScan.HigherRatesLetFewer | internal/conflicts/scorer.go:575-587 | with a threshold that is not negative, higher rates never let more through |
| ConflictScan.PruningLosesNothing | internal/conflicts/scorer.go:557-573 | with a floor that the configuration check accepts, the pruned scan of sorted candidates is the full scan, with bypass and doubled thresholds |
| ConflictScan.PruningLosesNothingIff | internal/config/config.go:457 | for all candidates and rates if and only if the check accepts the floor, whatever the threshold |
| ConflictScan.TieOrderIsImmaterial | internal/conflicts/scorer.go:518-522 | the order of ties does not change which candidates pass |
| ConflictScan.BestClaimConflict | internal/conflicts/scorer.go:1018-1060 | no qualifying pair scores more than the result, which is empty or what the first of the best pairs scores |
| ConflictScan.BestForClaim | internal/conflicts/scorer.go:1035-1057 | the inner loop accounts for every claim of the other side, in order |
| ConflictScan.BetterOf | internal/conflicts/scorer.go:1036-1056 | one pair replaces the best only if it qualifies and scores more |
| ConflictScan.FirstBestIs | internal/conflicts/scorer.go:1039-1056 | what such a pair is: its texts, its divergence, and topic similarity times that; earlier pairs score less |
| Backfill.NormalizedIff | internal/conflicts/scorer.go:288-295 | equal keys exactly for the same two decisions in either order |
| Backfill.PairCache.CheckAndMark | internal/conflicts/scorer.go:299-308 | answers whether the pair was seen and marks it |
| Backfill.StepKeepsInv | internal/conflicts/scorer.go:299-308 | every step of any worker keeps mutual exclusion and the accounting of seen, owned and called pairs |
| Backfill.InvHolds | internal/conflicts/scorer.go:1081-1104 | so every interleaving does |
| Backfill.EvaluatedAtMostOnce | internal/conflicts/scorer.go:279-282 | no unordered pair is called twice in any interleaving |
| Backfill.EvaluatedExactlyOnce | internal/conflicts/scorer.go:700-745 | when an uncancelled run ends each candidate pair was called, once |
| Backfill.NoDeadlock | internal/conflicts/scorer.go:1084-1103 | while a worker is not done some worker can move |
| Backfill.StepUsesFuel | internal/conflicts/scorer.go:1084-1103 | every step that does something leaves fewer steps to do |
| Backfill.RunsEnd | internal/conflicts/scorer.go:1084-1103 | no run makes more effective steps than 6 for each candidate, 2 for each decision and 1, and a run that is not done can make another |
| Backfill.CanFinish | internal/conflicts/scorer.go:1100 | from any point of any run there are steps that finish all workers |
| ClaimText.JoinAfterSplit | internal/conflicts/claims.go:189 | splitting a string and joining it again gives the string |
| ClaimCuts.SplitIsSplit | internal/conflicts/claims.go:189 | and no part holds the separator |
| ClaimCuts.TrimCuts | internal/conflicts/claims.go:51 | trimming takes white space off both ends, all of it and nothing else |
| ClaimText.PiecesOfPieces | internal/conflicts/claims.go:24-46 | a pass over the parts of a pass keeps pieces in order and apart |
| ClaimSplit.SplitMarkdownLists | internal/conflicts/claims.go:188-224 | the two loops compute the parts |
| ClaimSplit.CollectItems | internal/conflicts/claims.go:202-223 | items alone, lines between them joined |
| ClaimSplit.MarkdownListsFaithful | internal/conflicts/claims.go:185-224 | parts are pieces of the text in order, white space aside |
| ClaimCuts.MarkerLengthIs | internal/conflicts/claims.go:151-183 | a list marker is "- ", "* " or digits with ". ", and there is one at most |
| ClaimCuts.MarkdownListsAreCut | internal/conflicts/claims.go:188-224 | the lines are parted before and behind every list line; a list line gives its text without the marker, the lines between one paragraph; a text without list lines stays whole |
| ClaimCuts.ParagraphOfMore | internal/conflicts/claims.go:213-218 | lines between are trimmed and joined with one blank, without empty ones in front |
| ClaimSplit.SplitColonLists | internal/conflicts/claims.go:230-255 | splits only if all parts are substantial; the first keeps the preamble |
| ClaimSplit.ColonListsFaithful | internal/conflicts/claims.go:226-255 | parts are pieces of the text in order |
| ClaimCuts.ColonListsAreCut | internal/conflicts/claims.go:230-255 | behind the first ": " the text is cut at every ", " exactly when there is one and all parts have 20 bytes; else it stays whole; the first part keeps the preamble |
| ClaimSplit.CheckSubstantial | internal/conflicts/claims.go:240-245 | every trimmed part has 20 bytes or more |
| ClaimSplit.CollectNonBlank | internal/conflicts/claims.go:348-353 | the trimmed parts that are not empty |
| ClaimSplit.SplitSentences | internal/conflicts/claims.go:64-109 | the rune loop with its look-ahead computes the sentences |
| ClaimSplit.SentencesLoseNothing | internal/conflicts/claims.go:61-109 | the sentences together are the text, white space aside |
| ClaimCuts.SentencesAreCut | internal/conflicts/claims.go:64-109 | the sentences are the stretches between boundaries, trimmed, without blank ones; a boundary is '.', '!' or '?' with blanks behind it to the end, or a blank at least and then a capital, digit, bracket or quote |
| ClaimCuts.SentenceHasNoBreak | internal/conflicts/claims.go:61-109 | no sentence holds a boundary with another sentence behind it |
| ClaimSplit.SplitNumberedItems | internal/conflicts/claims.go:113-149 | the rune loop computes the items, or the whole text |
| ClaimSplit.NumberedItemsLoseNothing | internal/conflicts/claims.go:111-149 | the items together are the text, white space aside |
| ClaimCuts.NumberedItemsAreCut | internal/conflicts/claims.go:113-149 | the text is cut before every "(N)" and nowhere else, and stays whole if no more than one stretch is not blank |
| ClaimSplit.SplitSemicolons | internal/conflicts/claims.go:332-355 | splits only if all parts are substantial |
| ClaimSplit.SemicolonsFaithful | internal/conflicts/claims.go:328-355 | parts are pieces of the text in order |
| ClaimCuts.SemicolonsAreCut | internal/conflicts/claims.go:332-355 | the text is cut at every semicolon exactly when there is one and all parts have 20 bytes |
| Claims.LowerAll | internal/conflicts/claims.go:264-273 | lower-case copies, every flag set |
| Claims.DropAgainst | internal/conflicts/claims.go:275-288 | a claim's turn clears what it makes redundant and nothing that none makes redundant |
| Claims.CollectKept | internal/conflicts/claims.go:290-296 | when all had their turn the kept flags are those of the claims no claim makes redundant |
| Claims.DeduplicateClaims | internal/conflicts/claims.go:260-297 | the flag loops keep exactly the claims that no claim of the input makes redundant |
| Claims.KeptDropper | internal/conflicts/claims.go:275-288 | a dropped claim is contained in a kept one, though its first dropper may be dropped |
| Claims.DeduplicationIsAntichainCover | internal/conflicts/claims.go:257-297 | no kept claim is a shorter piece of a kept claim; every other claim is one of a kept claim; nothing new is kept |
| Claims.DeduplicationIsIdempotent | internal/conflicts/claims.go:257-297 | a second pass changes nothing |
| Claims.DeduplicationKeepsOrder | internal/conflicts/claims.go:290-296 | a subsequence of the input |
| Claims.SplitClaims | internal/conflicts/claims.go:16-59 | the five passes, the filter and the deduplication |
| Claims.FilterClaims | internal/conflicts/claims.go:48-55 | trimmed fragments of 20 bytes or more that are not boilerplate |
| Claims.ClaimsAreFaithful | internal/conflicts/claims.go:8-59 | every claim is, white space aside, a piece of the outcome; in order, without overlap |
| Claims.ClaimsAreSubstantial | internal/conflicts/claims.go:8-59 | every claim has 20 bytes, says something, and is no shorter piece of another |
| Claims.FragmentsAreCovered | internal/conflicts/claims.go:48-58 | every fragment of the five passes that has 20 bytes and says something is a claim or a shorter piece of one |
| Claims.BoilerplateIff | internal/conflicts/claims.go:318-326 | a text says nothing exactly if, without '.', '!', '?' and blanks at its end and in lower case, it is a phrase of the list or begins with one and a blank |
| ClaimCuts.ClaimHasNoBreak | internal/conflicts/claims.go:16-59 | no claim runs over the end of a sentence into the next one |
| Percentiles.PercentileGrows | internal/search/percentiles.go:136-154 | a higher percentile of sorted values is no smaller |
| Percentiles.BreakpointsAscend | internal/search/percentiles.go:117-134 | breakpoints of any values ascend, between the least and the greatest |
| Percentiles.PercentileIs | internal/search/percentiles.go:136-154 | at a whole rank the percentile is that order statistic; between ranks it moves linearly |
| Percentiles.BreakpointsHoldRanks | internal/search/percentiles.go:117-134 | at the quarter, half, three-quarter and nine-tenth breakpoint of n values: at least floor(p * (n - 1)) + 1 values lie at or below it, and at most that many at or below any smaller number |
| Percentiles.ScoreBands | internal/search/percentiles.go:57-115 | a score tells its band and a band its score; no value falls in a band with a span of zero |
| Percentiles.ScoreIsLinear | internal/search/percentiles.go:57-115 | within each band the score moves on the line between 0, 0.25, 0.50, 0.75, 0.90 at the breakpoints and 1 at twice the last, and stays there |
| Percentiles.ScoreGrows | internal/search/percentiles.go:67-115 | a larger value never scores lower; scores stay in 0..1 |
| Percentiles.CorpusScoreGrows | internal/search/percentiles.go:67-154 | so on the breakpoints of any non-negative values |
| ReScore.WeighSignals | internal/search/search.go:103-141 | the five signals of a decision |
| ReScore.ScoreResults | internal/search/search.go:96-158 | the loop scores the results whose decision still exists, in order, rank counted from 1 |
| ReScore.ScoredMembers | internal/search/search.go:96-158 | a result is in the list exactly if its decision exists: own id, score of its decision, rank from 1 |
| ReScore.WeightInRange | internal/search/search.go:88-90 | the weight stays in 0..1 for counts that can occur together |
| ReScore.SignalsWeigh | internal/search/search.go:86-141 | what each signal weighs alone: 0.15, 0.25, 0.10, 0.10, 0.40 and half of that; a cold start has the multiplier 0.575 |
| ReScore.BestKeepsSimilarity | internal/search/search.go:89-151 | a decision at its best keeps its similarity when new and half of it after 90 days |
| ReScore.ScoreIsBelowSimilarity | internal/search/search.go:148-157 | the score stays between 0 and a similarity that is not negative |
| ReScore.MoreCitationsScoreHigher | internal/search/search.go:103-157 | more citations never lower such a result |
| ReScore.SupersededScoresLower | internal/search/search.go:116-120 | being superseded within 48 hours never raises such a score |
| ReScore.AgreedScoresHigher | internal/search/search.go:112-114 | another agreement never lowers it |
| ReScore.WonScoresHigher | internal/search/search.go:122-130 | nor another conflict won |
| ReScore.CorrectScoresHigher | internal/search/search.go:132-139 | nor another assessment that finds the decision correct |
| ReScore.DecayIs | internal/search/search.go:148-149 | the decay of an age in days is 90 / (90 + age), and 1 for a decision dated later |
| ReScore.OlderScoresLower | internal/search/search.go:148-151 | growing older never raises it |
| ReScore.CitationsHelpIff | internal/search/search.go:103-157 | for all decisions if and only if the similarity is not negative |
| ReScore.CitedIsLower | internal/search/search.go:151 | a decision that one citation pushes down when the similarity is negative |
| GrantCache.CloneGrantedSet | internal/authz/cache.go:64-73 | a fresh copy with the same entries; nil stays nil |
| GrantCache.Cache.Get | internal/authz/cache.go:42-51 | a hit exactly for an unexpired entry, handed out as a fresh copy; nothing changes |
| GrantCache.Cache.Set | internal/authz/cache.go:54-62 | the key holds the given set, copied, until ttl from now |
| GrantCache.Cache.Invalidate | internal/authz/cache.go:78-82 | the key goes, the others stay |
| GrantCache.Cache.EvictExpired | internal/authz/cache.go:106-116 | exactly the expired entries go |
| GrantCache.WritesDoNotReachTheCache | internal/authz/cache.go:42-73 | writing into a set that was given or handed out does not change the cache |
| GrantCache.GetIsLastSet | internal/authz/cache.go:42-116 | in every run a hit is the latest Set of the key, at most ttl old, not invalidated since, and such a Set is a hit |
| Authz.LoadGrantedSet | internal/authz/authz.go:101-160 | result and cache after every path, with or without a cache, errors and malformed subjects included |
| Authz.ComputeGranted | internal/authz/authz.go:126-152 | self, tag matches and grants, or the first error |
| Authz.GrantAll | internal/authz/authz.go:140-142 | adds every tag match |
| Authz.GrantEach | internal/authz/authz.go:150-152 | adds every grant |
| Authz.FilterDecisions | internal/authz/authz.go:164-180 | nothing for absent claims, all decisions for an admin, else those of allowed agents in order, or the error |
| Authz.NoClaimsOrAdmin | internal/authz/authz.go:102-107 | whatever the cache holds and the queries answer: absent claims are shown nothing and an admin everything, and the cache is left alone |
| Authz.LiveEntryAnswers | internal/authz/authz.go:109-115 | a live entry answers alone: exactly its agents are shown, whatever the queries would answer |
| Authz.ComputedAnswer | internal/authz/authz.go:117-159 | without one: a malformed subject is shown nothing; else exactly which failing reads fail the request, which agents are shown, and what the cache then holds until when |
| Authz.EntriesComeFromRequests | internal/authz/authz.go:109-157 | a cached set was computed by the rules in an earlier request and not invalidated since |
| Authz.KeyFixesCaller | internal/authz/authz.go:110 | cache keys are equal exactly for the same organisation and subject |
| Authz.FilterIsRecent | internal/authz/authz.go:86-180 | in every run the filter shows exactly what a set allows that was computed for the caller's organisation and subject, now or at most ttl ago |

## Left out

- SHA-256 and hexadecimal, UUID, float and time formatting: arbitrary functions or given texts; that digests do not begin with "v2:", and that different microseconds print differently, is assumed where it is used.
- Postgres, SQLite and Qdrant: their answers are arguments, their tables sequences and maps; that ORDER BY sorts hashes bytewise and that the newest proof is the last one created is part of the model.
- Storage of violations, logging, metrics, tickers and shutdown.
- Concurrent proof builders for one organisation.
- Floats are exact reals; rounding, the float32 result of ReScore, and overflow of int64 durations are not modelled.
- The final sort of ReScore, whose comparator with a tolerance of 1e-9 is not an order, and its truncation to the limit; the logarithmic cap is any function that grows and stays in 0..1.
- sort.Slice and sort.Float64s are one sorting function; where ties exist their order is shown not to matter or is left open. strings.Split, Index, Contains and TrimSpace are functions on text, and the inner loops of some procedures are methods of their own.
- Text that is not valid UTF-8, and the tables behind ToLower, IsSpace, IsUpper and IsDigit; that blank and line feed are white space, and brackets are no digits, is assumed where it is used.
- The filters of the conflict scorer after the threshold, the cross-encoder, the LLM calls, embeddings and similarities, severity tiers and the storing of conflicts.
- Backfill.InvHolds: workers may start in any order within the limit, a superset of the order errgroup starts them in; what the scorer answers is not modelled.
- The read-write lock of the grant cache: calls are one after another. CanAccessAgent and the other Filter functions repeat the shape of FilterDecisions.
- FormatRejectionSuffix, PercentileCache, Close methods and the background loops around the modelled functions.
- ProofChain.Store.BuildIntegrityProofs: a failure to list the organisations is a tick without organisations, and the ids of new proofs are fresh by assumption.
- ProofCoverage.PunctualRunsProveAll: is about runs without late decisions; LeafOfIff and ProvenOnceIff are about all runs.
- Authz.FilterIsRecent: the agent of the token is not part of the cache key, and two agents with one subject share an entry; that one subject has one agent is not modelled.
