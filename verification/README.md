# LRC20 node, verified in Dafny

A model of the parts of the LRC20 node and its wallet libraries in which most can
go wrong, and proofs of what they promise. `dafny verify dfyconfig.toml` checks all
of it.

**Range proofs** (`Scalars`, `Sums`, `VecOps`, `Transcripts`, `Wip*`,
`Indexed*`, `Range*`, `ProofBytes`). The Bulletproofs+ prover and verifier,
for every power-of-two size from two on. The main results: the commitment is kept
by every folding round up to the L and R points (`WipFolding.RoundKeepsCommitment`);
the verifier's index structure, which never folds a generator, refines the
prover's folding (`Indexing.RoundRefinesFolding`), with every queued term spelled
out (`WipVerifier.Verify`); the range statement is a weighted inner product
(`RangeReduction.StatementIsWip`); an honest proof is accepted for a commitment if and
only if it is the one returned with it (`RangeProofs.Generate`); and the last challenge
is drawn from every point of the proof (`RangeProofs.FinalLogBinds`). Points are
represented by their discrete logarithms to a common base, so that a multi-exponentiation is a sum of products
modulo the group order. The order is a constant left open: the proofs use only
that it exceeds one and that every challenge asked for is invertible. The hash behind the
transcript is any function of the whole log, random scalars are parameters, and
the batch verifier is the test that the queued terms add up to the identity.

**Transaction graph** (`Attach*`, `CleanupSpec`, `BuilderRuns`, `GraphBuilder`). The graph builder
that holds transfers back until their parents are known. For any order in which the
worklists are taken, a batch attaches the least set that its rule is closed under,
and every transfer ever reported had its parents found or reported before
(`GraphBuilders.GraphBuilder.AttachTxs`); cleanup removes exactly what is
reachable from the outdated transactions; and over every run of batches and clean-ups
a transfer waits as long as it may (`BuilderRuns.RunWaits`). The class serves Bitcoin and Spark
transactions (`crates/tx-attach/src/spark.rs` is the same code over Spark hashes).
Storage is a set given to each call.

**Confirmations** (`Blocks`, `Confirmations`, `ConfirmatorSpec`, `Confirmator`,
`NodeRuns`, `NodeProgress`, `NodeEvidence`, `Indexer`). The confirmator with its window of recent blocks,
the block indexer, and both together with the controller's part as a state machine whose turns
are polls, submitted transactions and clean-ups. What every run keeps, reorganisations
of reorganisations included (`NodeRuns.RunKeeps`), exactly when a run stops
(`NodeRuns.RunFails`), exactly when the node catches up (`NodeProgress.CatchesUp`), and
what every confirmation rests on (`NodeEvidence.RunExplained`);
the classes are proved to take its steps (`Indexers.Node.Run`).
The Bitcoin node is a tree of blocks; what it answers is part of each turn.

**Conservation** (`Modulo`, `Totals`, `TokenSums`, `IsolatedChecks`, `Ledger`). The isolated
checks as exact acceptance conditions, and exactly which runs of accepted
transactions conserve every token (`Ledgers.RunBackedExactly`, `Ledgers.RunsConserve`).

**Wire formats** (`Bytes`, `Codecs`, `ProofMaps`, `MapCodec`, `TxCodec`,
`ReceiptCodec`, `WireLayout`, `ProofBytes`). Encoders and decoders over a writer and a
reader, tied to functions on byte strings that are proved to undo each other, with the
exact size limits; which byte stands where is stated without them (`WireLayout`).

**Coin selection** (`CoinSelection`, `CoinSelector`). Largest-first selection is
optimal; selection for several tokens succeeds exactly when it can.

Loops of the source that do several things are split into methods of their own;
each is cited with the lines it stands for.

## Where the code and its comments disagree

The model follows the code.

- `crates/bulletproof/src/range_proof.rs:70`: the comment has the commitment as value
  times G plus blinding times H, the code at lines 17-19 has it the other way round.
- `crates/bulletproof/src/range_proof.rs:84-87`: the comments derive y and z from the point
  A and the commitment, the code from A alone.
- `crates/tx-attach/src/lib.rs:274-281` asserts in debug builds that a queued
  transaction with no dependency left is stored. It is not if it was attached earlier in
  the drain (`AttachCases.DiamondIsPassedOver`) or was not waiting in the first place, which
  a stale inverse entry brings about (`AttachCases.StaleIsPassedOver`); these are the only
  cases (`AttachMirror.PassedOver`). Release builds pass over it, which changes nothing.
- `crates/types/src/consensus.rs:45`, `crates/receipts/src/metadata.rs:27`: lengths are cast
  to 32 bits, so round trips stop at 2^32 entries or bytes (`MapCodecs.MapReadBack`,
  `ReceiptCodecs.MetadataReadBack`).
- `crates/tx-check/src/isolated_checks.rs:114-117`: the sum of an issue is not a checked
  sum. In a release build it wraps, and that is modelled: an accepted issue mints what it
  announces if and only if the true sum is below 2^128 (`IsolatedChecks.IssueMintsAnnounced`).
- `crates/tx-confirm/src/lib.rs:129-155`: with one confirmation no block is ever
  tracked and no reorganisation is noticed (`NodeProgress.OneConfirmationForks`).
- `crates/indexers/src/indexer.rs:408-410` stores a block as last indexed before the
  confirmator has seen it. A node that stops when that block diverged starts again one block
  too late (`Confirmations.RestartAfterDivergence`).
- `crates/indexers/src/indexer.rs:423-424` announces a comparison with the previous hash of
  the new block; the code compares with the hash of the new block itself.

## Model

| member | source | states |
|---|---|---|
| `VecOps.NewPower` | crates/bulletproof/src/vec_ops.rs:43-53 | every element is the power of its index; even a shorter request gives two elements |
| `VecOps.Split` | crates/bulletproof/src/vec_ops.rs:89-98 | two halves of equal length that join to the vector, the second padded when the length is odd |
| `Transcripts.SyncPoints` | crates/bulletproof/src/wip.rs:372-384 | appends exactly the first point, the second point and the question, and draws the challenge from the whole log |
| `Transcripts.SyncedBinds` | crates/bulletproof/src/wip.rs:372-384 | equal logs come from equal prefixes and equal points, both of them |
| `WipArgument.ProofIsLogged` | crates/bulletproof/src/wip.rs:317-338 | for every proof the log the last challenge is drawn from holds three entries for each pair of points of the rounds, in order, and then the pair of the last step |
| `Transcripts.LoggedBinds` | crates/bulletproof/src/wip.rs:372-384 | such a log tells every point that was sent |
| `RangeProofs.LogsOf` | crates/bulletproof/src/range_proof.rs:84-87 | y is asked for after the point A, z after A once more, in a transcript of their own label |
| `RangeProofs.FinalLogBinds` | crates/bulletproof/src/range_proof.rs:108-122 | proofs that lead to the same final log have the same A, L, R and last points, so the last challenge depends on each of them |
| `RangeStatement.CalculateAL` | crates/bulletproof/src/range_proof.rs:125-133 | element i is bit i of the value |
| `RangeStatement.BitsSumToValue` | crates/bulletproof/src/range_proof.rs:125-133 | the bits of every value below 2^n, weighted by powers of two, add up to the value |
| `RangeStatement.EverySize` | crates/bulletproof/src/constants.rs:9-9 | every power of two from two on, 128 among them, is a size the results hold for |
| `RangeStatement.CalculateAHat` | crates/bulletproof/src/range_proof.rs:154-198 | the pushed terms add up to A - z*sum(h) + <2^i*y^(n-i)+z, g> + y^(n+1)*V + the closing multiple of H, with the returned powers of y |
| `RangeForm.AHatForm` | crates/bulletproof/src/range_proof.rs:154-198 | that multiple written out: A_hat is A - z*sum(h) + <2^i*y^(n-i)+z, g> + y^(n+1)*V + ((z-z^2)*(y+..+y^n) - y^(n+1)*z*(2^n-1))*H in the group |
| `RangeReduction.BitsCommitValue` | crates/bulletproof/src/range_proof.rs:125-133 | the bits are 0 or 1 and their inner product with the powers of two is the value in the group |
| `RangeReduction.WipOfBits` | crates/bulletproof/src/range_proof.rs:76-98 | the weighted inner product of the shifted bit vectors is the value times y^(n+1) plus a public constant |
| `RangeReduction.StatementIsWip` | crates/bulletproof/src/range_proof.rs:71-98 | for every value below 2^n the point built from the commitment equals the weighted inner product commitment of the shifted witness with blinding alpha + r*y^(n+1) |
| `RangeReduction.StatementShift` | crates/bulletproof/src/range_proof.rs:108-122 | checking against another point shifts that statement by y^(n+1) times the difference of the points |
| `WipProver.NewStmt` | crates/bulletproof/src/wip.rs:119-129 | the weights are y^1 to y^n |
| `WipProver.NextGens` | crates/bulletproof/src/wip.rs:132-167 | the challenge is drawn after L and R; generator i becomes 1/p times the one of the first half plus p/y^n times the one of the second, and p times plus 1/p times for the other vector |
| `WipFolding.RoundKeepsCommitment` | crates/bulletproof/src/wip.rs:216-275 | folding invariant: the commitment of the halved vectors is the old one plus p^2*L plus p^-2*R, for all vectors, nonces and invertible challenges |
| `WipProver.RoundKeepsFolded` | crates/bulletproof/src/wip.rs:216-275 | one prover round keeps: current commitment = witness commitment + all L and R terms so far |
| `WipProver.ProveRounds` | crates/bulletproof/src/wip.rs:216-275 | after all rounds the vectors have length one and their commitment is that of the witness plus exactly the L and R terms the verifier collects |
| `WipOpening.AnswersOpen` | crates/bulletproof/src/wip.rs:277-307 | checked against any point, the answers leave e^2 times (commitment of the length-one witness - point) |
| `WipProver.Generate` | crates/bulletproof/src/wip.rs:196-308 | checked against any statement point, the proof leaves e^2 times (witness commitment - statement point) |
| `Indexing.IndexedScalars.WithCapacity` | crates/bulletproof/src/wip.rs:30-35 | starts with every scalar one and every position alone in its group |
| `Indexing.IndexedScalars.Next` | crates/bulletproof/src/wip.rs:37-43 | multiplies exactly the scalars of the positions in one group |
| `Indexing.IndexedScalars.Merge` | crates/bulletproof/src/wip.rs:45-56 | joins group i of the lower half with group i of the upper half, each position kept once |
| `Indexing.MergeKeepsBag` | crates/bulletproof/src/wip.rs:45-56 | merging loses and repeats no position, for any number of groups |
| `Indexing.PartitionDistinct` | crates/bulletproof/src/wip.rs:24-56 | positions form a partition: no position occurs twice |
| `Indexing.RoundRefinesFolding` | crates/bulletproof/src/wip.rs:37-56 | scaling the two halves and merging represents exactly the generators folded by the prover |
| `IndexedProducts.ExplicitRound` | crates/bulletproof/src/wip.rs:37-56 | after any rounds the scalar of position q is the product, over the rounds, of the first or the second factor, by the half in which q lies modulo the length of the vector |
| `Indexing.RepresentedSum` | crates/bulletproof/src/wip.rs:344-350 | the folded generators add up to the inner product of the scalars with the base generators, without any folding |
| `WipVerifier.NextPairs` | crates/bulletproof/src/wip.rs:169-193 | the index structures represent the generators folded one round further, with the two factors of the round applied; exactly p^2*L and p^-2*R join the terms |
| `WipVerifier.VerifyRounds` | crates/bulletproof/src/wip.rs:317-336 | after all rounds the scalars represent the fully folded generators and are spelled out; the terms are the statement and the L and R terms, each with the challenge of its own prefix of the log |
| `WipVerifier.Verify` | crates/bulletproof/src/wip.rs:311-358 | every queued term is spelled out, for every proof, honest or not, and together they are the combination of the folded form |
| `RangeProofs.CalculatePoint` | crates/bulletproof/src/range_proof.rs:53-64 | appends exactly the point and the question, and draws the challenge from the whole log |
| `RangeProofs.CalculateATerms` | crates/bulletproof/src/range_proof.rs:135-151 | the terms add up to <a_l, h> + <a_r, g> + alpha*G |
| `RangeProofs.HonestResidue` | crates/bulletproof/src/range_proof.rs:67-122 | an honest proof checked against any point v leaves e^2*y^(n+1)*(commitment - v) |
| `RangeProofs.ResidueVanishes` | crates/bulletproof/src/range_proof.rs:108-122 | with invertible e and y that residue is the identity exactly when v is the commitment |
| `RangeProofs.Generate` | crates/bulletproof/src/range_proof.rs:67-105 | completeness and uniqueness: for every value, blinding, nonces and invertible challenges the proof is accepted for v if and only if v is the returned commitment; its two lists have the same length, so its bytes round-trip |
| `RangeProofs.Verify` | crates/bulletproof/src/range_proof.rs:108-122 | returns true exactly when the combination queued for the proof is the identity |
| `ProofBytes.ToBytes` | crates/bulletproof/src/wip.rs:71-86 | writes a, b, r, s and delta in that order and as many pairs as the shorter list has |
| `ProofBytes.FromBytes` | crates/bulletproof/src/wip.rs:88-115 | returns the proof the data reads as, if there is one, and panics exactly when a field is cut short after good ones |
| `ProofBytes.WipRoundTrip` | crates/bulletproof/src/wip.rs:71-115 | the bytes of a proof read as that proof if and only if its lists have the same length |
| `ProofBytes.ReadsOneProof` | crates/bulletproof/src/wip.rs:88-115 | data reads as at most one proof |
| `ProofBytes.RangeFromBytes` | crates/bulletproof/src/range_proof.rs:37-42 | returns the range proof the data reads as, if there is one, with the exact condition for a panic |
| `ProofBytes.RangeRoundTrip` | crates/bulletproof/src/range_proof.rs:29-42 | the bytes of a range proof read as that proof and no other |
| `GraphBuilders.GraphBuilder.CollectAttached` | crates/tx-attach/src/lib.rs:321-352 | finds exactly the ids that are attached in this call or found in storage |
| `GraphBuilders.GraphBuilder.RemoveAttachedParents` | crates/tx-attach/src/lib.rs:321-352 | takes exactly the known parents off the dependencies and says whether none is left |
| `GraphBuilders.GraphBuilder.HandleTransfer` | crates/tx-attach/src/lib.rs:359-425 | the state after a transfer is that of the specification, whose meaning is the next row; every storage lookup that succeeded is on record |
| `AttachOutcome.TransferMeans` | crates/tx-attach/src/lib.rs:359-425 | a transfer is attached exactly when it waits for nothing from before and the input of every proof that is no empty receipt is attached or stored; otherwise it is stored with the time now and waits for exactly the others |
| `AttachOutcome.OthersMean` | crates/tx-attach/src/lib.rs:224-257 | an issue is attached and its dependents are looked at again, a Spark exit is only attached, an announcement does nothing |
| `GraphBuilders.GraphBuilder.AttachChecked` | crates/tx-attach/src/lib.rs:219-259 | the pass over the batch gives the graph, queue and attached list of the specification |
| `AttachSpec.FirstPassConsistent` | crates/tx-attach/src/lib.rs:219-259 | every batch keeps: same keys waiting and stored, no empty dependency set, every dependency in the inverse map or queued with its parent attached |
| `GraphBuilders.GraphBuilder.TakeTurn` | crates/tx-attach/src/lib.rs:265-296 | one queued transaction: pruned, attached with its dependents queued, or passed over |
| `GraphBuilders.GraphBuilder.DrainRound` | crates/tx-attach/src/lib.rs:262-299 | a round, in any order, shrinks the waiting set or leaves an empty queue |
| `AttachDrain.EndOfDrain` | crates/tx-attach/src/lib.rs:262-299 | when the queue is empty the drained set is the least set closed under touched with all dependencies known |
| `AttachDrain.LeastClosedIsUnique` | crates/tx-attach/src/lib.rs:262-299 | that set is determined by the first pass alone, so no iteration order matters |
| `AttachMirror.LeastClosedJustified` | crates/tx-attach/src/lib.rs:265-286 | nothing is drained without all its dependencies attached, drained or stored |
| `AttachMirror.PassedOver` | crates/tx-attach/src/lib.rs:265-282 | in every state of a drain a queued transaction is passed over if and only if it was drained before or was not waiting after the first pass; with the maps exact inverses at the start, if and only if it was drained before |
| `AttachCases.DiamondIsReached` | crates/tx-attach/src/lib.rs:215-303 | two transfers, one depending on the other and both on a third, as one batch leaves them from the empty graph |
| `AttachCases.DiamondIsPassedOver` | crates/tx-attach/src/lib.rs:274-281 | from there, a transaction is queued again after it was attached in the same round, so the branch the code asserts unreachable is taken |
| `AttachCases.StaleIsPassedOver` | crates/tx-attach/src/lib.rs:274-281 | a stale inverse entry takes that branch too, for a transaction that is not waiting at all |
| `GraphBuilders.GraphBuilder.AttachTxs` | crates/tx-attach/src/lib.rs:215-303 | terminates; the attached ids are those of the first pass plus the least closed set, whatever the order; the graph left is determined; keeps the map invariants and that every transfer ever reported had each parent found in storage or reported before it; what becomes of every transaction, and since when it waits, is the next row |
| `AttachOutcome.BatchOutcome` | crates/tx-attach/src/lib.rs:215-303 | every issue and exit of a batch is attached, every transfer is attached or waits; what waits came with the batch, and then since now, or waited before, since the same time; nothing else is attached and nothing that waited is forgotten |
| `AttachMirror.FirstPassKeepsMirror` | crates/tx-attach/src/lib.rs:219-259 | the pass over any batch keeps the two maps exact inverses and queues only waiting transactions |
| `AttachMirror.BatchMirrorExactly` | crates/tx-attach/src/lib.rs:215-303 | after a batch the two maps are exact inverses if and only if no attached or stored parent keeps an entry that lists a touched transaction |
| `AttachMirror.BatchKeepsMirror` | crates/tx-attach/src/lib.rs:215-303 | so they are whenever no awaited parent entered storage from outside or is a Spark exit of the batch, which a caller can check |
| `AttachMirror.CleanupKeepsMirror` | crates/tx-attach/src/lib.rs:149-197 | removal keeps the maps exact inverses |
| `AttachCases.OutsideParentBreaksMirror` | crates/tx-attach/src/lib.rs:321-352 | two batches from the empty graph after which a parent stored from outside has a stale entry |
| `AttachCases.SparkExitBreaksMirror` | crates/tx-attach/src/lib.rs:427-440 | two batches from the empty graph after which a Spark exit parent has a stale entry |
| `GraphBuilders.GraphBuilder.RemoveTxFromDeps` | crates/tx-attach/src/lib.rs:177-197 | takes the transaction out of the inverse entries of its own dependencies only, dropping entries that become empty |
| `GraphBuilders.GraphBuilder.RemoveOutdatedTx` | crates/tx-attach/src/lib.rs:149-174 | terminates on cyclic maps too and removes exactly what is reachable through the inverse map at entry |
| `GraphBuilders.GraphBuilder.CollectOutdated` | crates/tx-attach/src/lib.rs:126-138 | collects exactly the transactions that waited too long; fails exactly when one was created later than now |
| `GraphBuilders.GraphBuilder.HandleCleanup` | crates/tx-attach/src/lib.rs:125-146 | removes exactly what is reachable from the outdated transactions, or nothing when the clock went backwards; a waiting transaction goes if and only if a path leads to it from one that waited longer than the duration, and keeps its time and dependencies otherwise |
| `CleanupSpec.ReachableByPaths` | crates/tx-attach/src/lib.rs:149-177 | reachable are exactly the ids at the end of a path of recorded dependents |
| `BuilderRuns.RunWaits` | crates/tx-attach/src/lib.rs:125-303 | over every run of batches and clean-ups: a transfer that came at some time waits through every clean-up up to that time plus the duration, until it is attached or comes again, unless it falls with one that came earlier |
| `BuilderRuns.StillWaits` | crates/tx-attach/src/lib.rs:125-303 | the same for one call |
| `BuilderRuns.OutdatedFalls` | crates/tx-attach/src/lib.rs:126-146 | and it does not outlast a later clean-up |
| `CleanupSpec.SurvivorsIndependent` | crates/tx-attach/src/lib.rs:149-197 | no surviving transaction depends on a removed one and survivors keep their dependencies |
| `CleanupSpec.CleanedConsistent` | crates/tx-attach/src/lib.rs:149-197 | removal keeps the map invariants |
| `CleanupSpec.CleanedTwice` | crates/tx-attach/src/lib.rs:140-143 | removing one set after another is removing both at once |
| `CleanupSpec.ReachableTwice` | crates/tx-attach/src/lib.rs:140-143 | what one outdated transaction after another reaches is what they reach together at entry |
| `Blocks.AncestorHeight` | crates/tx-confirm/src/lib.rs:205-237 | k generations up is k heights down, and exists exactly when the height allows it |
| `Confirmations.WaitingIsExact` | crates/tx-confirm/src/lib.rs:263-270 | each waiting transaction of the block as often as it is there, nothing else |
| `Confirmations.DroppedIsExact` | crates/tx-confirm/src/lib.rs:235-241 | exactly the queued transactions of the dropped blocks |
| `Confirmations.MeetsIsAncestry` | crates/tx-confirm/src/lib.rs:211-237 | in step, the walk meets a tracked block exactly when that is an ancestor of the new block, and has counted down to its height |
| `Confirmations.ForkInStep` | crates/tx-confirm/src/lib.rs:205-251 | in step, a fork is found exactly when an ancestor of the new block is tracked, and it is the newest of them |
| `Confirmations.ForkKeepsWindow` | crates/tx-confirm/src/lib.rs:205-251 | the window a reorganisation leaves is valid again |
| `Confirmators.TxConfirmator.constructor` | crates/tx-confirm/src/lib.rs:58-78 | starts with nothing queued, tracked or sent |
| `Confirmators.TxConfirmator.FindFork` | crates/tx-confirm/src/lib.rs:205-237 | for every window and block: succeeds exactly when walk and window meet, and gives the first meeting point, the waiting transactions of the blocks above it and the height counted down to |
| `Confirmators.TxConfirmator.HandleReorg` | crates/tx-confirm/src/lib.rs:205-251 | succeeds exactly when walk and window meet; keeps the blocks up to the fork, dequeues and reports exactly the waiting transactions of the others with the height; on failure only tracked blocks are lost |
| `Confirmations.TrackKeepsWindow` | crates/tx-confirm/src/lib.rs:148-159 | every tracked block keeps: fewer than n blocks, hash-linked, and from two confirmations on the final blocks and the tracked ones are one chain |
| `Confirmations.TrackBreaksWindow` | crates/tx-confirm/src/lib.rs:129-150 | a block without a parent that joins tracked blocks always breaks the chain |
| `Confirmations.FinalIsDeep` | crates/tx-confirm/src/lib.rs:153-170 | the block that becomes final is n-1 generations above the new block with all of them tracked, and the confirmed transactions are its own |
| `Confirmators.TxConfirmator.HandleNewBlock` | crates/tx-confirm/src/lib.rs:123-173 | the whole new state for every block and every known window; from a valid one and in step, a divergence is survived exactly when an ancestor is tracked, with the window cut there and its height reported; otherwise exactly the waiting transactions of the block n-1 generations up are confirmed, and the state stays valid exactly when the block follows the window |
| `ConfirmatorSpec.BlockMeans` | crates/tx-confirm/src/lib.rs:148-170 | what waits in the block is reported as mined in block order; with the n-th block exactly what waits in the oldest one is confirmed and dequeued; all times stay |
| `ConfirmatorSpec.ForkMeans` | crates/tx-confirm/src/lib.rs:205-251 | exactly the waiting transactions of the blocks above the fork are dequeued, and reported with the height of the fork |
| `Confirmations.WaitingInOrder` | crates/tx-confirm/src/lib.rs:263-270 | block order is kept |
| `Confirmations.DroppedInOrder` | crates/tx-confirm/src/lib.rs:211-241 | dropped blocks are taken from the newest to the oldest |
| `ConfirmatorSpec.BlockState` | crates/tx-confirm/src/lib.rs:148-170 | these last facts, as a property of the state function |
| `ConfirmatorSpec.ForkState` | crates/tx-confirm/src/lib.rs:205-251 | a fork keeps the state sound, and valid |
| `Confirmators.TxConfirmator.TrackBlock` | crates/tx-confirm/src/lib.rs:148-173 | the part of it without divergence |
| `Confirmators.TxConfirmator.NewConfirmedTxs` | crates/tx-confirm/src/lib.rs:295-304 | dequeues and reports any list; the account stays balanced if and only if the transactions were queued, each listed once |
| `Confirmations.ConfirmingBalances` | crates/tx-confirm/src/lib.rs:295-304 | account: entered = confirmed + removed + still queued, so a transaction is confirmed at most once per insertion |
| `Confirmators.TxConfirmator.HandleTxToConfirm` | crates/tx-confirm/src/lib.rs:177-203 | reported as mined exactly when the node knows its confirmations, confirmed and dequeued exactly when there are at least as many as configured, queued since the time it first came otherwise; fails exactly when the node fails |
| `ConfirmatorSpec.TxMeans` | crates/tx-confirm/src/lib.rs:177-203 | the same of the state function |
| `NodeEvidence.TxsHandled` | crates/tx-confirm/src/lib.rs:113-117 | a list: each transaction is confirmed as often as it is listed if the node sees enough confirmations, and waits otherwise; what waited keeps its time |
| `ConfirmatorSpec.TxBalances` | crates/tx-confirm/src/lib.rs:177-203 | the account balances after a transaction, other entries are untouched and it waits exactly if it was not confirmed |
| `ConfirmatorSpec.TxsBalance` | crates/tx-confirm/src/lib.rs:112-116 | a list of transactions fails exactly when the node fails for one of them; otherwise none of them and none that waited is lost |
| `ConfirmatorSpec.BlockBalances` | crates/tx-confirm/src/lib.rs:148-170 | the account balances after a block |
| `ConfirmatorSpec.ForkBalances` | crates/tx-confirm/src/lib.rs:205-251 | the account balances after a reorganisation, and nothing is confirmed by it |
| `Confirmators.TxConfirmator.CleanUpWaitingTxs` | crates/tx-confirm/src/lib.rs:275-293 | an entry stays exactly when it waited no longer than the maximum, with its time; fails exactly when one of them entered later than now |
| `Indexers.Indexer.HandleNewBlocks` | crates/indexers/src/indexer.rs:429-462 | idle exactly when the count is the last indexed height or the next block is the last indexed one, failing exactly when the chain is too short, and otherwise sending the block of the current chain one height above the last indexed one |
| `Indexers.Indexer.HandleReorganization` | crates/indexers/src/indexer.rs:325-337 | goes back to the height even if no block is found there; the hash only changes if one is |
| `Indexers.Node.HandleTxs` | crates/tx-confirm/src/lib.rs:110-116 | succeeds exactly when the node fails for none of the transactions |
| `Indexers.Node.HandleReorganization` | crates/controller/src/handler.rs:665-689 | rewinds the indexer and queues the transactions again; succeeds exactly when the node fails for none of them |
| `Indexers.Node.Deliver` | crates/tx-confirm/src/lib.rs:123-173 | the indexed block takes indexer and confirmator to the state of the state machine, with its exact success; a block that does not diverge never fails |
| `NodeRuns.SentInStep` | crates/indexers/src/indexer.rs:429-462 | lock step: every block sent is one height above the newest tracked one |
| `NodeRuns.TurnKeeps` | crates/tx-confirm/src/lib.rs:80-121 | every turn keeps the window valid, the account balanced and the two in step; final blocks stay final and what waited still does, was confirmed or expired |
| `NodeRuns.TurnFails` | crates/tx-confirm/src/lib.rs:80-121 | a turn fails exactly when a diverging block has no tracked ancestor, the node fails for a transaction to be queued, or the clock went backwards |
| `NodeRuns.RunKeeps` | crates/indexers/src/indexer.rs:235-297 | over every run of polls, submissions and clean-ups, repeated reorganisations included: in step, final and tracked blocks one chain (from two confirmations on), final blocks never taken back, no transaction confirmed more often than it was inserted, and what waited still does, was confirmed or expired |
| `NodeRuns.RunFails` | crates/tx-confirm/src/lib.rs:80-121 | a run stops exactly at a turn that fails |
| `NodeEvidence.RunExplained` | crates/tx-confirm/src/lib.rs:123-203 | every run: a transaction is confirmed only by a poll whose block has the block of the transaction n-1 generations above it, or by an answer of at least n confirmations; what waits at the end waits since it was submitted or queued again, with that time |
| `NodeEvidence.TurnExplained` | crates/tx-confirm/src/lib.rs:123-203 | the same for one turn |
| `NodeProgress.CatchesUp` | crates/indexers/src/indexer.rs:429-462 | polled often enough with a chain that stays, a node that is on it or tracks a block of it ends at the tip if and only if the chain is higher than what it had indexed or it was there already |
| `NodeProgress.IdlesForever` | crates/indexers/src/indexer.rs:430-433 | a fork that is no higher than what was indexed is never noticed |
| `NodeProgress.Advances` | crates/indexers/src/indexer.rs:429-462 | on the chain every poll indexes and tracks the next block |
| `NodeProgress.Rejoins` | crates/tx-confirm/src/lib.rs:205-251 | off the chain one poll takes the node back to a block of it |
| `NodeProgress.RunKeepsFit` | crates/indexers/src/indexer.rs:325-337 | every run keeps what the progress results ask for: no block of the next height is taken for the last indexed one |
| `NodeProgress.OneConfirmationForks` | crates/tx-confirm/src/lib.rs:129-159 | with one confirmation, two polls of the node make blocks final that are no chain |
| `Indexers.Node.Step` | crates/tx-confirm/src/lib.rs:80-121 | one turn takes the node to the state of the state machine and succeeds exactly when that turn does not fail |
| `Indexers.Node.Run` | crates/indexers/src/indexer.rs:235-297 | a run of the node is a run of the state machine, succeeds exactly when no turn of it fails, and then ends with what every run keeps; every confirmation and every waiting time in it has its reason |
| `Confirmations.TrackAllIsWindow` | crates/tx-confirm/src/lib.rs:148-159 | after any blocks in a row exactly the last n-1 are tracked and all before are final |
| `Confirmations.RestartLosesNothing` | crates/indexers/src/indexer.rs:109-112 | on the chain the node indexed, from whatever height it began: starting again n-1 blocks before the first unindexed one gives the window of a node that never stopped and between them every block is final once; if fewer were indexed, it tracks and makes final that and some earlier blocks |
| `Confirmations.RestartAfterDivergence` | crates/indexers/src/indexer.rs:400-413 | a node that stopped between storing a diverging block as last indexed and handling the reorganisation never makes its oldest tracked block, which both chains share, final if its window was full, and loses nothing otherwise |
| `Indexers.Node.InitBlocksHandle` | crates/indexers/src/indexer.rs:371-397 | for any blocks and any window: accepts exactly consecutive heights and reports the first that is not; blocks that continue the window along one chain are all tracked |
| `TokenSums.SumAmountByTokenPubkey` | crates/tx-check/src/isolated_checks.rs:294-311 | fails exactly when the true sum of some token reaches 2^128; otherwise maps exactly the tokens with a positive sum to it |
| `TokenSums.SameSums` | crates/tx-check/src/isolated_checks.rs:278-292 | the two maps are equal exactly when all true sums are |
| `TokenSums.CheckConservationRules` | crates/tx-check/src/isolated_checks.rs:278-292 | accepts exactly when every token has equal input and output sums below the limit; overflow is reported exactly when a sum reaches it |
| `TokenSums.AmountLimitIs` | crates/tx-check/src/isolated_checks.rs:294-312 | the limit is 2^128, written out |
| `WireLayout.AmountsOnTheWire` | crates/receipts/src/receipt.rs:81-97 | the amounts below the limit are exactly those that a receipt can carry |
| `WireLayout.PassedOn` | crates/tx-check/src/isolated_checks.rs:278-312 | so one proof of any amount a receipt can carry may be passed on, and no other |
| `TokenSums.ProofsMean` | crates/receipts/src/proof.rs:182-192 | an empty receipt carries nothing, and only a signature proof to the key zero is burnt |
| `TokenSums.ConservedAnyOrder` | crates/tx-check/src/isolated_checks.rs:278-311 | the verdict does not depend on the order of the proofs |
| `TokenSums.EmptyDoesNotCount` | crates/tx-check/src/isolated_checks.rs:302-304 | proofs of nothing can be left out |
| `IsolatedChecks.ExtractByProofMap` | crates/tx-check/src/isolated_checks.rs:257-274 | succeeds exactly when every index exists and pairs each proof with its input or output |
| `IsolatedChecks.CheckIssueAnnouncement` | crates/tx-check/src/isolated_checks.rs:129-144 | accepts exactly when the first announcement among the outputs is the given one |
| `IsolatedChecks.CheckSameTokenPubkeyProofs` | crates/tx-check/src/isolated_checks.rs:314-340 | accepts exactly when all proofs but empty receipts carry the announced token; the error tells whether the first of them does |
| `IsolatedChecks.CheckInputProofs` | crates/tx-check/src/isolated_checks.rs:352-370 | accepts exactly unburnt proofs that match their inputs; otherwise the first that is burnt or bad is the error |
| `IsolatedChecks.CheckOutputProofs` | crates/tx-check/src/isolated_checks.rs:90-106 | accepts exactly when every proof matches its output, data outputs skipped for issues and exits; otherwise the first bad one is the error |
| `IsolatedChecks.CheckIssueIsolated` | crates/tx-check/src/isolated_checks.rs:72-127 | accepts exactly what is written out in the next row, and otherwise reports the first condition that fails, in the order of the checks |
| `IsolatedChecks.IssueConditions` | crates/tx-check/src/isolated_checks.rs:72-127 | an issue is accepted if and only if it has as many proofs as outputs without data, of the announced token and good for their outputs, the first announcement is its own and the amounts add up to it modulo 2^128 |
| `IsolatedChecks.CheckSparkExitIsolated` | crates/tx-check/src/isolated_checks.rs:156-184 | accepts exactly what is written out in the next row, and otherwise reports the first condition that fails, in the order of the checks |
| `IsolatedChecks.ExitConditions` | crates/tx-check/src/isolated_checks.rs:156-184 | an exit is accepted if and only if it has as many proofs as outputs without data, good for their outputs |
| `IsolatedChecks.CheckProofsIsolated` | crates/tx-check/src/isolated_checks.rs:342-395 | accepts exactly what is written out in the next row, and otherwise reports the first condition that fails, in the order of the checks |
| `IsolatedChecks.TransferConditions` | crates/tx-check/src/isolated_checks.rs:342-395 | a transfer is accepted if and only if it has as many output proofs as outputs without data, every proof is good and no input burnt, and every token has equal sums below 2^128 |
| `IsolatedChecks.EveryOutputProved` | crates/tx-check/src/isolated_checks.rs:186-202 | where no proof holds for a data output, an accepted transfer has a proof for every other output and no more |
| `IsolatedChecks.SpendableIsExact` | crates/tx-check/src/isolated_checks.rs:186-202 | the outputs counted are those that carry no data, each as often as it is there |
| `IsolatedChecks.CheckTransaction` | crates/tx-check/src/isolated_checks.rs:31-47 | accepts exactly the transactions whose kind's conditions hold |
| `IsolatedChecks.IssueMintsAnnounced` | crates/tx-check/src/isolated_checks.rs:114-126 | an accepted issue mints the announced amount if and only if the true sum is below 2^128, and nothing of other tokens |
| `IsolatedChecks.WrappedIssue` | crates/tx-check/src/isolated_checks.rs:114-126 | an issue of 2^128 tokens announced as zero is accepted |
| `Ledgers.CreatedHeld` | crates/tx-check/src/isolated_checks.rs:342-395 | new outputs add exactly what their proofs carry |
| `Ledgers.HeldSplit` | crates/tx-check/src/isolated_checks.rs:342-395 | what is held is what is held of any set of outputs and of the others |
| `Ledgers.SpentHeld` | crates/tx-check/src/isolated_checks.rs:342-395 | what a transfer spends is what its input proofs carry and what it spends without listing it |
| `Ledgers.StepChanges` | crates/tx-check/src/isolated_checks.rs:31-47 | every accepted transaction changes what is held of a token by what it announces, exits or claims to bring in, less what it spends |
| `Ledgers.StepBackedExactly` | crates/tx-check/src/isolated_checks.rs:31-47 | every accepted transaction keeps unspent = announced + exited if and only if it spends, token by token, exactly what it claims to bring in; for an issue that is what its true sum exceeds the announced amount by |
| `Ledgers.RunBackedExactly` | crates/tx-check/src/isolated_checks.rs:31-47 | a run of accepted transactions keeps the law throughout if and only if every one of them spends exactly what it claims to bring in |
| `Ledgers.AdmissibleSettles` | crates/tx-check/src/isolated_checks.rs:31-47 | that holds when issue sums are below 2^128 and the token outputs spent are those of a transfer's input proofs; outputs with empty receipts may be spent by any kind and need no proof |
| `Ledgers.BurntStays` | crates/tx-check/src/isolated_checks.rs:358-360 | no accepted transaction that lists the proofs of the token outputs it spends spends a burnt output |
| `Ledgers.RunsConserve` | crates/tx-check/src/isolated_checks.rs:31-47 | over every run of such transactions, change outputs with empty receipts spent at will, each token's unspent total is what was announced plus what left Spark, and burnt outputs are still there |
| `Ledgers.UnlistedInputLosesTokens` | crates/tx-check/src/isolated_checks.rs:342-395 | every accepted transfer whose input proofs are those of outputs it spends, but that leaves out one with tokens, breaks the law |
| `Ledgers.AnnouncementLosesTokens` | crates/tx-check/src/isolated_checks.rs:206-222 | so does every accepted announcement or Spark exit that spends one |
| `Ledgers.TokensAreLost` | crates/tx-check/src/isolated_checks.rs:31-47 | both occur, with a transaction whose only output is a data output |
| `Bytes.LittleEndianRoundTrip` | crates/types/src/consensus.rs:45-45 | exactly the numbers that fit come back |
| `Bytes.BigEndianRoundTrip` | crates/receipts/src/receipt.rs:81-107 | exactly the numbers that fit come back |
| `Codecs.NoAmbiguity` | crates/types/src/consensus.rs:35-256 | self-delimiting encodings followed by anything are equal only for equal values |
| `Codecs.U32Delimited` | crates/types/src/consensus.rs:45-61 | a four-byte number comes back with what follows it if and only if it fits |
| `Codecs.PairDelimited` | crates/types/src/consensus.rs:207-228 | two self-delimiting codecs one after the other are one |
| `Codecs.OptionDelimited` | crates/types/src/consensus.rs:78-111 | the option wrapper keeps a codec self-delimiting |
| `Codecs.CountedDelimited` | crates/types/src/consensus.rs:232-256 | a counted list comes back with what follows it if and only if its length fits four bytes |
| `Codecs.EncodeList` | crates/types/src/consensus.rs:233-243 | appends exactly the encoding and returns its length |
| `Codecs.DecodeList` | crates/types/src/consensus.rs:247-255 | reads what the specification reads, failing when it does |
| `ProofMaps.InsertedEntries` | crates/types/src/consensus.rs:63-70 | inserting changes the entry of its own key only |
| `ProofMaps.CollectedAscending` | crates/types/src/consensus.rs:63-70 | whatever order entries arrive in, the map is ordered with one entry per key |
| `MapCodecs.MapReadBack` | crates/types/src/consensus.rs:35-74 | a map comes back with what follows it if and only if it has fewer than 2^32 entries |
| `MapCodecs.TooManyEntries` | crates/types/src/consensus.rs:45-45 | a larger map comes back smaller |
| `MapCodecs.EncodeMap` | crates/types/src/consensus.rs:42-52 | appends exactly the encoding and returns its length |
| `MapCodecs.DecodeMap` | crates/types/src/consensus.rs:60-73 | reads what the specification reads; the result is ordered |
| `TxCodecs.TypeReadBack` | crates/types/src/consensus.rs:133-205 | every transaction type comes back with what follows it |
| `TxCodecs.TransactionsDelimited` | crates/types/src/consensus.rs:207-256 | whole transactions and lists of them come back with what follows them, given self-delimiting payloads |
| `TxCodecs.ReceiptTransactionsDelimited` | crates/types/src/consensus.rs:207-228 | the same with receipt proofs in their own format: only their contents, announcements and Bitcoin transactions are assumed self-delimiting |
| `TxCodecs.EncodeOptionMap` | crates/types/src/consensus.rs:82-96 | appends exactly the encoding and returns its length, the option byte included |
| `TxCodecs.DecodeOptionMap` | crates/types/src/consensus.rs:103-110 | any first byte but zero announces a map |
| `TxCodecs.EncodeTxType` | crates/types/src/consensus.rs:134-166 | appends exactly the encoding of every type and returns its length; its first byte is 0 for an issue, 1 for a transfer, 2 for an announcement and 4 for an exit |
| `TxCodecs.DecodeTxType` | crates/types/src/consensus.rs:170-204 | reads what the specification reads; whatever it returns is the type its first byte says, and other bytes fail |
| `WireLayout.TypeLayout` | crates/types/src/consensus.rs:134-166 | the first byte and the parts after it, in order, for each type |
| `WireLayout.TypeRead` | crates/types/src/consensus.rs:170-204 | nothing is read from any other first byte, and each type only from its own |
| `WireLayout.TransactionLayout` | crates/types/src/consensus.rs:207-216 | the Bitcoin transaction, then the type |
| `WireLayout.ListLayout` | crates/types/src/consensus.rs:232-244 | four bytes for the number of elements, the lowest first, then the elements in order |
| `WireLayout.MapLayout` | crates/types/src/consensus.rs:42-52 | the same with entries of a four-byte index, the lowest byte first, and a value |
| `WireLayout.MapRead` | crates/types/src/consensus.rs:60-72 | entries are read in whatever order they come, the last of each index counting |
| `WireLayout.OptionRead` | crates/types/src/consensus.rs:99-110 | zero is no value, any other first byte announces one |
| `WireLayout.LittleEndianAt` | crates/types/src/consensus.rs:45-45 | byte i is the number divided by 256^i, modulo 256 |
| `WireLayout.BigEndianAt` | crates/receipts/src/receipt.rs:99-107 | byte i of k is the number divided by 256^(k-1-i), modulo 256 |
| `TxCodecs.EncodeTransaction` | crates/types/src/consensus.rs:208-215 | appends exactly the encoding and returns its length |
| `TxCodecs.DecodeTransaction` | crates/types/src/consensus.rs:219-227 | reads what the specification reads |
| `TxCodecs.InventoryReadBack` | crates/types/src/consensus.rs:315-359 | every inventory comes back with what follows it |
| `TxCodecs.EncodeInventory` | crates/types/src/consensus.rs:316-339 | appends exactly the encoding and returns its length; its first byte is 0 to 3 by kind |
| `TxCodecs.DecodeInventory` | crates/types/src/consensus.rs:344-358 | reads what the specification reads; whatever it returns is the kind its first byte says, and other flags fail |
| `WireLayout.InventoryLayout` | crates/types/src/consensus.rs:316-339 | the flag of each kind and its content |
| `WireLayout.InventoryRead` | crates/types/src/consensus.rs:344-358 | each kind is read only from its own flag, and nothing from any other |
| `WireLayout.ReceiptLayout` | crates/receipts/src/receipt.rs:265-272 | 65 bytes: sixteen of amount, the highest first, sixteen of blinding and the key |
| `WireLayout.ReceiptProofLayout` | crates/receipts/src/consensus.rs:45-91 | the flag of each kind, written out, and its content |
| `WireLayout.MetadataLayout` | crates/receipts/src/metadata.rs:16-39 | four bytes of length, the highest first, and the text |
| `WireLayout.MetadataRead` | crates/receipts/src/metadata.rs:41-60 | a length of zero is no text; otherwise as much is read as the length says, or as there is |
| `ReceiptCodecs.ReceiptReadBack` | crates/receipts/src/receipt.rs:265-286 | a receipt takes 65 bytes and comes back with what follows it |
| `ReceiptCodecs.ReceiptDelimited` | crates/receipts/src/consensus.rs:28-43 | receipts are self-delimiting |
| `ReceiptCodecs.ToBytes` | crates/receipts/src/receipt.rs:265-272 | the filled buffer is amount, blinding factor and key, every byte of it |
| `ReceiptCodecs.EncodeReceipt` | crates/receipts/src/consensus.rs:28-33 | appends exactly the receipt and returns its length |
| `ReceiptCodecs.DecodeReceipt` | crates/receipts/src/consensus.rs:35-43 | reads exactly 65 bytes, failing on fewer or on a bad key |
| `ReceiptCodecs.FlagsAreKinds` | crates/receipts/src/consensus.rs:17-26 | a byte is the flag of a kind exactly when it decodes to that kind |
| `ReceiptCodecs.ProofReadBack` | crates/receipts/src/consensus.rs:45-138 | every receipt proof comes back with what follows it, given self-delimiting contents |
| `ReceiptCodecs.EncodeReceiptProof` | crates/receipts/src/consensus.rs:46-91 | appends exactly the encoding and returns its length |
| `ReceiptCodecs.DecodeReceiptProof` | crates/receipts/src/consensus.rs:94-137 | reads what the specification reads; unknown flags fail |
| `ReceiptCodecs.MetadataReadBack` | crates/receipts/src/metadata.rs:16-60 | metadata comes back with what follows it if and only if its text has fewer than 2^32 bytes |
| `ReceiptCodecs.TryWriteMetadata` | crates/receipts/src/metadata.rs:16-38 | returns the number of bytes written; they are the whole metadata exactly when the writer takes the length and the text in one call each |
| `ReceiptCodecs.TryReadMetadata` | crates/receipts/src/metadata.rs:41-60 | reads what the specification reads, taking no more than there is |
| `CoinSelection.EligibleIsExact` | crates/dev-kit/src/lrc20_coin_selection.rs:86-90 | each coin of the token that is no data output stays as often as it was there |
| `CoinSelection.LargestAreMost` | crates/dev-kit/src/lrc20_coin_selection.rs:92-102 | no selection of at most k coins is worth more than the k largest |
| `CoinSelection.SortByAmount` | crates/dev-kit/src/lrc20_coin_selection.rs:94-96 | some ascending order of the same coins; nothing else is used of the sort |
| `CoinSelection.SelectSortedUtxos` | crates/dev-kit/src/lrc20_coin_selection.rs:140-164 | takes a prefix: every required coin, and others only while the amount, which is the sum modulo 2^128, is below the target; stops only at a coin that is neither |
| `CoinSelection.NoFewerCoins` | crates/dev-kit/src/lrc20_coin_selection.rs:92-105 | no smaller choice of the coins reaches the target |
| `CoinSelection.CoinSelect` | crates/dev-kit/src/lrc20_coin_selection.rs:76-105 | all required coins are selected, then eligible ones, the largest first; amount is their sum modulo 2^128, so the sum exactly below that; the selection reaches the target whenever everything together does and with as few eligible coins as possible, if and only if no coin was added to a sum of 2^128 or more |
| `CoinSelection.StoppedThere` | crates/dev-kit/src/lrc20_coin_selection.rs:92-105 | that if-and-only-if for the k largest coins |
| `CoinSelectors.CoinSelector.SelectToken` | python-sdk/lrc20-py/lrc20/coin_select.py:43-58 | succeeds exactly when the queue holds enough of the token; the queue is looked at from its front, no further than needed; taken and skipped are the coins of the token and the others of that part, in order |
| `CoinSelectors.CoinSelector.SelectLrc20Utxos` | python-sdk/lrc20-py/lrc20/coin_select.py:21-68 | succeeds exactly when there are coins and every token's total covers its request; then no coin is used twice, selected = requested + change for each token, no selected coin is superfluous, and the queue each token finds is the rest of the one before it and then what was skipped |
| `CoinSelectors.NotYetSelected` | python-sdk/lrc20-py/lrc20/coin_select.py:43-66 | the queue still holds all there is of a token not served yet |
| `CoinSelectors.ServedNext` | python-sdk/lrc20-py/lrc20/coin_select.py:60-66 | serving a token leaves the earlier ones served |
| `CoinSelectors.CoinSelector.SelectBtcUtxos` | python-sdk/lrc20-py/lrc20/coin_select.py:70-103 | succeeds exactly when there is a coin and all together cover fee and dust; takes the fewest from the end; on failure everything stays popped |

## Left out

- Elliptic-curve, hash and transcript internals and the generator tables: an abstract group, an arbitrary challenge function and arbitrary generators.
- Soundness and zero knowledge of the range proof: only proofs of a prover that follows the source are studied, not what others could get accepted.
- `crates/bulletproof/src/lib.rs` batch verification with random weights: the model is the test of a single queued combination.
- Bulletproof-mode conservation and Schnorr signatures (`crates/tx-check/src/isolated_checks.rs:496-684`): they rest on signature libraries; the default feature set is modelled.
- Single proof checks, script parsing and announcement parsing: given as functions to the isolated checks.
- Storage, mempool and message bus effects: storage is what a call is told it holds, messages are a list; storage and node calls do not fail halfway through a handler except where a contract says so.
- Timers, cancellation and the select loops: any sequence of whole polls, submissions and clean-ups, with a reorganisation message delivered before the next block.
- The indexer's limit on restart attempts: a poll that fails leaves the node as it is, for any number of polls.
- Spark graph builder's `attached_txids` list: it repeats the attached list.
- Oldest-first coin selection: the same scan without the sort.
- Announcement, signature and Spark transaction contents on the wire: codecs given as parameters; the lists of Spark transactions and signatures have the form of the list of transactions.
- Indexers.Node.InitBlocksHandle: after a fork among loaded blocks only the heights and a sound confirmator are promised, since the indexer does not listen to it yet.
