# Aligned Layer: a verified model of its core state machines

This project models, in Dafny, the parts of Aligned Layer whose correctness spans many functions, and proves what
they promise for every input, every run and every interleaving of their steps.

**The batcher.** Users pay for proofs with a max fee; the batcher queues them, keeps a cached record per sender
(next nonce, fee limit, fee total, count), and repeatedly cuts a batch from the queue, has the payment contract
charge for it, and then settles the records or puts the batch back.

- `BatchQueue`, `FeeModel`, `BatchExtraction`, `BatchChoice`: the priority queue, the fee formulas,
  `extract_batch_directly`, and how its batch compares with every other choice.
- `PaymentService`: the contract's `createNewTask`.
- `BatcherState`: the shared state next to the contract's accounts, its invariant sender by sender, and what the
  handlers do to it.
- `SenderSteps`, `BatcherSteps`, `BatcherHazards`: what each handler does to the invariant. Some keep it always; for
  eviction, overwriting a record, removal and flush during posting, the exact condition is proved.
- `BatchRestore`, `RestoreInvariant`, `RestoreOrder`, `RestoreSafety`: putting a failed batch back into a queue that may
  have filled up: a bounded merge, what a clean outcome is, and two exact conditions on the queue, the batch and the
  limit, one for the documented nonce order and one for the invariant.
- `BatcherRuns`: a run may contain every one of these steps, evictions and restores into a full queue included; the
  invariant holds along it exactly when each step meets its condition. What follows over whole runs: nonces without
  gaps, in-flight proofs as the lower part, fees that never rise with the nonce, cached totals equal to recomputed
  ones, solvency, and every proof charged exactly once and in nonce order.
- `Scenarios`: runs from the initial state, with the shipped fee settings and small queue limits, in which comments of
  the source fail.
- `UserTotals`, `BatcherService`: the loops over the queue, and a class whose handlers are proved to take those steps.

**The aggregation mode.** `ProofsFetcher` is the resumable log scan with its block mark; `MerkleAggregation` is the
two-level aggregation under the order-insensitive pair hash; `BlobPacking` is the EIP-4844 blob layout.

**Operator and aggregator.** `VerifierBitmap` is the bitmap of disabled verifiers that the contract's owner writes and
the operator reads; `WorkerPool` is the operator's verification pool under every schedule; `TaskTables` is the
aggregator's five index maps with their garbage collector; `GasPrice` holds the two fee-bumping loops.

The invariant that everything about the batcher rests on is `BatcherState.Inv`: for every sender, the in-flight
nonces fill an interval starting at the contract's nonce, the queued ones continue it up to the cached nonce, fees
fall along each part, the cached count and sum are those of both parts together, the cached limit is the least queued
fee, and what the sender may still be charged is covered by the balance.

## What the proofs found

- The comment on the restore loop says that nonce N+1 is never queued without N. For a given queue, batch and limit
  that holds, however ties are broken, exactly when no sender has a pair of proofs, queued or in flight, of which the
  higher nonce may stay (fewer proofs than fit are popped after it) while the lower is turned away (as many proofs as
  fit pay at least as much when its turn comes) or pays less and may be evicted (`RestoreOrder.NeverSplitsExactly`).
  With room for everything there is no such pair; when nothing queued outbids the batch, such a pair has equal fees.
  It fails in a run of four steps: nonce 1 queued at the fee of nonce 0 in flight (`Scenarios.EqualFeesCanBeSplit`).
- Whether putting a batch back keeps the invariant can be told from the queue, the batch and the limit. Every restore
  does, however ties are broken and whichever proof is iterated last, exactly when for every sender one of three things
  holds: they have no proof; none of theirs may stay and not all are turned away; or none is turned away, what may stay
  is a lower part in order, no turn lets all their proofs seen so far be evicted while a later one may stay, and, with
  nothing of theirs in the batch, no proof may be evicted while two of different fees stay
  (`RestoreSafety.RestoreSafeExactly`). With room that is: nothing queued outbids the batch (`RestoreSafety.RoomIsSafe`).
- When the batch evicts its own sender's only queued proof, the record is forgotten and the restored proof is queued
  without one (`Scenarios.RecordCanBeForgotten`).
- A proof dropped during a restore is not taken off its sender's nonce: the record then expects a nonce ahead of
  the queue by exactly the number of dropped proofs (`BatchRestore.DroppedProofsLeaveNonceAhead`).
- A replacement is checked against queued proofs only. If it outbids an in-flight proof of its sender and the batch
  is put back, fees rise with the nonce (`Scenarios.ReplacementCanBreakRestore`); with room, restoring is safe exactly
  when nothing queued outbids the batch (`RestoreInvariant.RoomIsClean`).
- An eviction leaves a gap unless it takes the victim's highest nonce (`BatcherHazards.EvictKeepsInv`).
- A submission inserts a fresh record without looking again; this is harmless exactly when the sender has no proof
  and the nonce read is current (`BatcherHazards.InsertUserKeepsInv`).
- A failure to send the responses after the charge puts charged proofs back; that always breaks the invariant
  (`BatcherHazards.ChargedProofsCannotReturn`).
- "As big as possible" holds of the extracted batch while the byte limit does not bind, and can fail when it does
  (`Scenarios.SizeLimitCostsProofs`). The biggest size is the largest n for which at least n proofs pay the fee of n and
  the n smallest of them fit (`BatchChoice.BiggestExactly`); the extracted batch has that size b exactly when the b
  dearest proofs fit (`BatchChoice.LoopIsBiggestExactly`).
- The scan of batch logs stays at its mark over a run exactly when every successful round with a newer head gets more
  proofs from the mark's own block than the limit (`ProofsFetcher.MarksStayExactly`). A failed download then gets it
  past the block, without those proofs (`ProofsFetcher.FailedDownloadPasses`). Logs of the mark's block are collected
  again by later rounds (`ProofsFetcher.CollectedTwiceExactly`).
- The chunk program binds leaves, not their number: a host may pass a level of the tree for the verified commitments
  below it (`MerkleAggregation.ParentPassesForALeaf`), or nodes that hash to them; for power-of-two lists that is all it
  can do without a collision (`MerkleAggregation.AcceptedChunkMatches`).
- The garbage collector never collects task 0. After 2^32 accepted tasks the index wraps onto it, and every later
  task is refused (`TaskTables.IndexInUseExactly`, `TaskTables.FullForever`). A pass for the last of them never ends
  (`TaskTables.PassEndsExactly`).
- The bump meant to be "at least 10% higher" is rounded down; it reaches 10% exactly when the suggestion does or the
  previous price is a multiple of ten (`GasPrice.TenPercentExactly`).
- A bitmap wider than 64 bits does not, as a comment says, enable all verifiers: its low bits still count
  (`VerifierBitmap.DisabledExactly`).

## Model

| member | source | states |
|---|---|---|
| BatchQueue.Peek | crates/batcher/src/types/batch_queue.rs:101-117 | gives an entry that no other precedes: lowest fee, then highest nonce; ties between senders are left open |
| BatchExtraction.BatchSize | crates/batcher/src/types/batch_queue.rs:122-139 | the size is the overhead plus the sum of the entries' bounds, for every order of walking the queue |
| BatchExtraction.DropKeepsMaximality | crates/batcher/src/types/batch_queue.rs:155-183 | dropping the lowest entry of an unacceptable queue loses no affordable set of the current size |
| BatchExtraction.DropUnacceptable | crates/batcher/src/types/batch_queue.rs:151-183 | what is left fits the limits, every member covers the fee for exactly that size, nothing was acceptable before each drop, and without a binding byte limit no affordable set is larger |
| BatchExtraction.Drain | crates/batcher/src/types/batch_queue.rs:194-198 | popping lists every accepted entry once, in pop order |
| BatchExtraction.PushAll | crates/batcher/src/types/batch_queue.rs:200-203 | the rejected entries are all back in the queue |
| BatchChoice.SmallestIsLeast | crates/batcher/src/types/batch_queue.rs:122-139 | no n proofs take fewer bytes than the n smallest |
| BatchChoice.AchievableExactly | crates/batcher/src/lib.rs:1774-1777 | an acceptable batch of n proofs exists exactly when at least n pay the fee of n and the n smallest of them fit |
| BatchChoice.BiggestExactly | crates/batcher/src/lib.rs:1774-1777 | no acceptable batch has more than n proofs exactly when no larger size is achievable |
| BatchChoice.LoopIsBiggestExactly | crates/batcher/src/types/batch_queue.rs:155-183 | the first acceptable rest of the popped queue, or the empty one, has the biggest achievable size b exactly when the b dearest proofs fit |
| BatchChoice.Extract | crates/batcher/src/types/batch_queue.rs:144-206 | the batch is a cut of the queue in priority order whose members cover their fee, the first acceptable rest of the popped queue, and as big as possible exactly when the dearest proofs of that number fit; while the byte limit does not bind it is as large as any affordable choice and every rejected fee is below the batch's; failure changes nothing and means that no rest was acceptable |
| Scenarios.SizeLimitCostsProofs | crates/batcher/src/lib.rs:1774-1777 | with the shipped fees and a binding byte limit, a queue whose every extraction takes one proof although two small ones are acceptable |
| FeeModel.FeePerProofFalls | crates/batcher/src/types/batch_queue.rs:208-214 | the fee per proof never rises with the batch size |
| FeeModel.CollectedWithinCost | crates/batcher/src/lib.rs:2331-2335 | n fees are at most the gas cost and miss it by less than n gas-price units |
| FeeModel.CollectedExceedsAggregatorFee | crates/batcher/src/lib.rs:2331-2342 | the fees are what the contract demands exactly when the gas price is positive |
| FeeModel.ConstantGasExactly | crates/batcher/src/lib.rs:2760-2763 | bounds from both sides: the multiplier's hundredths of the aggregator's gas, rounded down, and 125000 |
| FeeModel.FeePerProofExactly | crates/batcher/src/types/batch_queue.rs:208-214 | the fee is the gas price times the whole gas units of an equal share of the constant gas and 2000 for each proof |
| FeeModel.FeeForAggregatorExactly | crates/batcher/src/lib.rs:2336-2339 | bounds from both sides: the multiplier's hundredths of the aggregator's gas cost, rounded down |
| PaymentService.CreateNewTask | contracts/src/core/BatcherPaymentService.sol:98-136 | succeeds exactly when the fees are well formed and every submitter can pay for all of their proofs; then everyone is charged for exactly their own; each revert has its exact cause, and the one for balances names the first submitter in order who cannot pay |
| BatcherSteps.SubmitKeepsInv | crates/batcher/src/lib.rs:1264-1333 | an accepted submission keeps the invariant and the order against in-flight proofs |
| BatcherSteps.ReplaceKeepsInv | crates/batcher/src/lib.rs:1540-1645 | a replacement keeps the invariant always, and the order against in-flight proofs exactly when it outbids none of them |
| BatcherSteps.ReplacementBelow | crates/batcher/src/types/batch_state.rs:42-61 | a valid replacement pays at most what every queued proof of lower nonce pays |
| BatcherState.MinBumpExactly | crates/batcher/src/lib.rs:1540-1558 | a fee is below the required bump exactly when it is below the old fee raised by the configured percentage, rounded down |
| BatcherSteps.ExtractKeepsInv | crates/batcher/src/lib.rs:1784-1868 | a cut of the queue takes the lower nonces of every sender, and nothing queued outbids what it takes |
| BatcherSteps.SenderShare | crates/batcher/src/lib.rs:2350-2351 | the submitter list holds each sender once per in-flight proof of theirs |
| BatcherSteps.ChargeKeepsInv | contracts/src/core/BatcherPaymentService.sol:124-136 | charging keeps every sender solvent and moves the contract's nonces to the queued proofs |
| BatcherSteps.SettleKeepsInv | crates/batcher/src/lib.rs:1874-1910 | recomputing one sender's record after the charge keeps the invariant, in any order of senders |
| BatcherSteps.FinishKeepsInv | crates/batcher/src/lib.rs:2281-2283 | clearing the posting flag keeps the invariant |
| BatcherSteps.FlushKeepsInv | crates/batcher/src/lib.rs:2136-2156 | flushing and giving the batch up with the queue keeps the invariant |
| BatcherSteps.DepositKeepsInv | contracts/src/core/BatcherPaymentService.sol:87-95 | a deposit keeps the invariant |
| SenderSteps.LowerPart | crates/batcher/src/types/batch_queue.rs:103-115 | a part of a gap-free lane that is closed towards lower nonces is gap free |
| SenderSteps.SubmitView | crates/batcher/src/lib.rs:1476-1482 | one sender's invariant survives a submission, with a balance read before or after a charge |
| SenderSteps.ReplaceView | crates/batcher/src/lib.rs:1634-1644 | one sender's invariant survives a replacement |
| SenderSteps.ExtractView | crates/batcher/src/types/batch_queue.rs:185-203 | one sender's invariant survives any cut, and the two parts are ordered |
| SenderSteps.RestoreView | crates/batcher/src/lib.rs:1953-1958 | one sender's invariant survives a restore exactly when no queued proof outbids an in-flight one |
| BatcherRuns.StepKeepsInv | crates/batcher/src/lib.rs:1276-1333 | every step, from inserting a record to restoring into a full queue, keeps the invariant exactly when it meets its condition |
| BatcherRuns.StepKeepsCrossOrder | crates/batcher/src/lib.rs:1610-1644 | a safe step keeps the order against in-flight proofs exactly when it is not a replacement that outbids one |
| BatcherRuns.RunKeepsInv | crates/batcher/src/lib.rs:1784-1868 | every state of a run of safe steps satisfies the invariant, evictions and full-queue restores included |
| BatcherRuns.RunKeepsInvExactly | crates/batcher/src/lib.rs:1784-1868 | the invariant holds all along a run exactly when every step of it is safe |
| BatcherRuns.RunWithRestoresKeepsInv | crates/batcher/src/lib.rs:1953-1958 | with no outbidding replacement, batches may fail and be put back whenever there is room for them, and without room when the condition on queue, batch and limit is met |
| BatcherSteps.InflightAreNextNonces | crates/batcher/src/lib.rs:1955-1958 | what the contract is about to charge a sender for are exactly its next nonces |
| BatcherRuns.StepNonce | contracts/src/core/BatcherPaymentService.sol:124-136 | only a charge moves contract nonces, each by the sender's in-flight proofs |
| BatcherRuns.ChargedExactly | contracts/src/core/BatcherPaymentService.sol:124-136 | over every run a proof is charged exactly when its nonce lies between the first and the last contract nonce |
| BatcherRuns.ChargedOnce | contracts/src/core/BatcherPaymentService.sol:124-136 | no proof is charged twice |
| BatcherRuns.NoncesNeverFall | contracts/src/core/BatcherPaymentService.sol:133-133 | contract nonces never go back along any run, safe or not |
| BatcherRuns.ChargeNeverReverts | crates/batcher/src/lib.rs:2131-2156 | in every state satisfying the invariant every sender can pay for all their in-flight proofs, and the fees are well formed exactly for a positive gas price |
| BatcherRuns.CacheEqualsRecomputed | crates/batcher/src/lib.rs:1886-1903 | with nothing in flight the record kept step by step equals the one recomputed from the queue |
| BatcherRuns.CleanupChangesNothing | crates/batcher/src/lib.rs:1915-1950 | the extra reset after a submission never changes a record |
| BatcherRuns.ExtractRestoreRoundTrip | crates/batcher/src/lib.rs:2291-2297 | extracting a batch and putting it straight back changes nothing |
| BatcherHazards.EvictionNeverUnderflows | crates/batcher/src/lib.rs:376-379 | no counter of a victim underflows |
| BatcherHazards.EvictionKeepsTally | crates/batcher/src/lib.rs:357-381 | the victim's count and fee total are right after every eviction |
| BatcherHazards.EvictKeepsInv | crates/batcher/src/lib.rs:1356-1436 | an eviction keeps the invariant exactly when it takes the victim's top nonce and the queue iterates a cheapest remaining proof last, or takes their only proof with none in flight |
| BatcherHazards.OwnProofsAreSafe | crates/batcher/src/lib.rs:1324-1333 | a submitter never has a cheaper proof of their own queued |
| BatcherHazards.SubmitEvictingKeepsInv | crates/batcher/src/lib.rs:1356-1482 | a submission after a clean eviction is an ordinary submission and keeps the invariant |
| BatcherHazards.InsertUserKeepsInv | crates/batcher/src/lib.rs:1214-1218 | the unconditional insert keeps the invariant exactly when the sender has no proof and the nonce read is current |
| BatcherHazards.RemoveUserExact | crates/batcher/src/lib.rs:677-698 | removal keeps the invariant exactly when the user has nothing in flight |
| BatcherHazards.FlushExact | crates/batcher/src/lib.rs:2203-2226 | the flush keeps the invariant exactly when no batch is in flight, with and without a non-paying user |
| BatcherHazards.QueuedProofsAreUncharged | contracts/src/core/BatcherPaymentService.sol:124-136 | no queued proof has been charged |
| BatcherHazards.ChargedProofsCannotReturn | crates/batcher/src/lib.rs:2186-2297 | putting back a proof that was charged, as after a failure to send the responses, breaks the invariant in every later state |
| Scenarios.ReplacementCanBreakRestore | crates/batcher/src/types/batch_state.rs:56-60 | a run from the start at a positive gas price after which every restore, with room, leaves fees that rise with the nonce |
| BatchRestore.RestoreMerges | crates/batcher/src/lib.rs:1969-2015 | every entry ends exactly once as kept, evicted or dropped, the queue stays bounded, and nothing discarded pays more than anything kept |
| BatchRestore.RestoreWithRoom | crates/batcher/src/lib.rs:1976-2015 | with room for the batch nothing is discarded and no record is touched |
| BatchRestore.RestoreDebits | crates/batcher/src/lib.rs:384-410 | a surviving record is debited for exactly the sender's evicted proofs |
| BatchRestore.RestoreIsBoundedMerge | crates/batcher/src/lib.rs:1969-2015 | the merge of a failed batch into the state's queue loses and duplicates nothing and respects the limit |
| BatchRestore.RestoreWithRoomIsAtomic | crates/batcher/src/lib.rs:2023-2046 | with room, loop and recomputation together are the atomic restore step |
| BatchRestore.DroppedProofsLeaveNonceAhead | crates/batcher/src/lib.rs:2004-2007 | a surviving nonce lies beyond the queued proofs by exactly the number of dropped ones |
| BatchRestore.OnlyEqualFeesAreSplit | crates/batcher/src/lib.rs:1955-1958 | with nothing outbid, a proof is kept over one of lower nonce only when both pay the same |
| RestoreInvariant.RestoreExact | crates/batcher/src/lib.rs:1959-2046 | the outcome of a restore, with room or without, satisfies the invariant exactly when it is clean for every sender |
| RestoreSafety.RestoreSafeExactly | crates/batcher/src/lib.rs:1959-2046 | every restore of the batch keeps the invariant exactly when the queue, the batch and the limit meet a condition that names no outcome |
| RestoreSafety.SafeIsClean | crates/batcher/src/lib.rs:1969-2043 | a sender who meets the condition comes out clean of every run |
| RestoreSafety.UnsafeRun | crates/batcher/src/lib.rs:1969-2043 | a sender who does not meet it comes out unclean of some run |
| RestoreSafety.RoomIsSafe | crates/batcher/src/lib.rs:1976-2015 | with room for the batch the condition is that nothing queued outbids it |
| RestoreSafety.ForgettingIsPossible | crates/batcher/src/lib.rs:384-403 | a run that forgets a record and keeps a proof of its sender has a turn by which all their proofs seen so far may be evicted, and a later one that may stay |
| RestoreSafety.ForgettingRun | crates/batcher/src/lib.rs:384-403 | such a turn gives a run that forgets the record and keeps the proof |
| RestoreSafety.PrefixRecord | crates/batcher/src/lib.rs:384-410 | along every run a record is untouched until an eviction of its sender's, and then limited by the fee of one of their queued proofs |
| RestoreInvariant.MergedSenderExact | crates/batcher/src/lib.rs:2023-2043 | the same for one sender: no record and nothing queued, or nothing dropped, a lower part kept in order, and a right limit |
| RestoreInvariant.RoomIsClean | crates/batcher/src/lib.rs:1976-2015 | with room for the batch a restore is clean exactly when nothing queued outbids it |
| Scenarios.EqualFeesCanBeSplit | crates/batcher/src/lib.rs:1955-1958 | a run from the start after which every restore drops nonce 0, keeps nonce 1 at the same fee, and breaks the invariant |
| Scenarios.RecordCanBeForgotten | crates/batcher/src/lib.rs:384-403 | a run from the start after which every restore forgets the sender's record, queues their proof without one, and breaks the invariant |
| BatchRestore.RestoreQueue | crates/batcher/src/lib.rs:1969-2015 | the loop is a run of the specified turns, for every resolution of ties |
| RestoreOrder.AdmissionExact | crates/batcher/src/lib.rs:1976-2008 | a proof is dropped on its turn exactly when as many proofs as fit, of those seen, pay at least as much |
| RestoreOrder.SplitIsPossible | crates/batcher/src/lib.rs:1969-2015 | every run that keeps a higher nonce without a lower one meets the condition on queue, batch and limit |
| RestoreOrder.SplittingRun | crates/batcher/src/lib.rs:1969-2015 | every pair that meets the condition is split by some run |
| RestoreOrder.SplitNeedsEqualFees | crates/batcher/src/lib.rs:1955-1958 | when nothing queued outbids the batch, such a pair has equal fees and its lower nonce is in flight |
| RestoreOrder.RoomNeverSplits | crates/batcher/src/lib.rs:1976-2015 | with room for everything the condition is never met |
| RestoreOrder.NeverSplitsExactly | crates/batcher/src/lib.rs:1955-1958 | in every state with the invariant, the documented promise holds of all restores of the batch exactly when no pair of one sender's proofs meets the condition |
| UserTotals.CalculateTotals | crates/batcher/src/lib.rs:412-432 | count, minimum and sum per sender are right for every iteration order, and only senders with proofs appear |
| UserTotals.RecordIsRecomputed | crates/batcher/src/lib.rs:1886-1903 | the record written from the totals is the recomputed one, the default one for senders without proofs |
| UserTotals.MinFeeInQueue | crates/batcher/src/types/batch_state.rs:29-36 | the least queued fee of the sender, or the maximum value, for every iteration order |
| BatcherService.FindVictim | crates/batcher/src/lib.rs:1362-1396 | finds a victim exactly when some cheaper proof's sender can be locked: the first cheaper proof, in iteration order, of the first such sender, never the submitter's |
| BatcherService.FirstCheaper | crates/batcher/src/lib.rs:1382-1395 | the first cheaper proof of the sender in iteration order |
| BatcherService.SubmissionGasPrice | crates/batcher/src/lib.rs:2269-2270 | the modified gas price is 110 hundredths of the quoted one, rounded down, and positive exactly when that is |
| BatcherService.TermsExactly | crates/batcher/src/lib.rs:2269-2279 | the limits a batch is chosen under are the only ones within the arithmetic bounds on price and constant gas with the configured sizes |
| BatcherHazards.EvictSubmitExact | crates/batcher/src/lib.rs:1356-1482 | a submission that evicts keeps the invariant exactly when the eviction is clean |
| BatcherService.RewriteRestored | crates/batcher/src/lib.rs:2023-2043 | exactly the senders with a restored proof get recomputed records |
| BatcherService.Batcher.constructor | crates/batcher/src/lib.rs:143-355 | the initial state satisfies the invariant |
| BatcherService.LastProof | crates/batcher/src/lib.rs:365-369 | the sender's last proof in iteration order, if there is any |
| BatcherService.Batcher.InsertUser | crates/batcher/src/lib.rs:1214-1218 | inserts a fresh record unconditionally, with the exact condition for the invariant |
| BatcherService.Batcher.CreateUser | crates/batcher/src/lib.rs:1178-1227 | check and insert without a handler in between keep the invariant |
| BatcherService.Batcher.HandleSubmitProof | crates/batcher/src/lib.rs:1250-1484 | each answer has its exact cause, in the order of the checks; an accepting answer takes exactly its step, with the victim and the last proof the iteration order determines, and every other changes nothing; the invariant survives unless an eviction was not clean |
| BatcherService.Batcher.AddToBatch | crates/batcher/src/lib.rs:1476-1482 | queue and record after an accepted submission |
| BatcherService.Batcher.Evict | crates/batcher/src/lib.rs:1356-1455 | evicts exactly when a cheaper proof's sender can be locked, the victim the search determines, and otherwise rejects without change, with the exact condition for the invariant |
| BatcherService.Batcher.UpdateEvicted | crates/batcher/src/lib.rs:357-381 | the victim's record after losing the proof, its limit the fee of the proof iterated last, or no record when none is left |
| BatcherService.Batcher.ReplaceEntry | crates/batcher/src/lib.rs:1629-1644 | queue and record after a replacement |
| BatcherService.Batcher.HandleReplacementMessage | crates/batcher/src/lib.rs:1509-1645 | each answer has its exact cause, with the bump and the comparison with lower nonces written out; a replacement takes that step and keeps the invariant, every other answer changes nothing |
| BatcherService.Batcher.ExtractBatchIfReady | crates/batcher/src/lib.rs:1784-1868 | takes the extract step after the block interval when nothing is being posted, with the batch that the loop chooses; no batch means no change, and no acceptable rest of the queue |
| BatcherService.Batcher.SettleUser | crates/batcher/src/lib.rs:1879-1903 | takes the settle step |
| BatcherService.Batcher.SettleAll | crates/batcher/src/lib.rs:1874-1910 | settles the whole batch, in any order of senders, without touching a nonce |
| BatcherService.Batcher.RestoreProofs | crates/batcher/src/lib.rs:1959-2046 | the new state is that of a restore run with recomputed records |
| BatcherService.Batcher.SubmitBatch | crates/batcher/src/lib.rs:2331-2399 | the contract call, if made, charges exactly for a positive gas price and never fails for a sender's balance |
| BatcherService.Batcher.ConfirmBatch | crates/batcher/src/lib.rs:2165-2184 | after the charge nothing is in flight, no nonce has moved, and the invariant holds |
| BatcherService.Batcher.FinalizeBatch | crates/batcher/src/lib.rs:2053-2187 | a call that is made with a positive gas price always posts and settles; otherwise the batch is put back, into a queue that may be full; the invariant holds exactly for a clean outcome, and always when the queue, the batch and the limit meet the condition; the flush for insufficient balance is unreachable |
| BatcherService.Batcher.HandleNewBlock | crates/batcher/src/lib.rs:2233-2304 | answers that nothing is ready exactly when a batch is being posted, the interval has not passed or no batch can be chosen at 110 hundredths of the quoted price; otherwise the chosen batch is posted exactly when the contract is reached and gas is not free, every sender pays the gas price for an equal share per proof, and no cached nonce moves; a failure leaves the queue, the records and the accounts as they were, but the last uploaded block moves with every attempt |
| BatcherService.Batcher.RemoveUserProofs | crates/batcher/src/lib.rs:659-703 | the queue and the records after the removal; the invariant survives exactly when the user has nothing in flight |
| BatcherService.Batcher.FlushQueue | crates/batcher/src/lib.rs:2189-2229 | the queue and the records after the flush; the invariant survives exactly when no batch is in flight |
| MerkleAggregation.ParentBinds | aggregation_mode/src/aggregators/mod.rs:206-216 | equal parents have equal children in one order or the other, or give a hash collision |
| MerkleAggregation.RootBinds | aggregation_mode/src/aggregators/mod.rs:206-216 | equal roots of equal power-of-two size mean the same leaves up to swapped children, or a collision is found |
| MerkleAggregation.InclusionPath | contracts/src/core/AlignedProofAggregationService.sol:109-118 | every leaf has a path of siblings, one per level, that climbs to the root when each pair is hashed smaller first |
| MerkleAggregation.ClimbStartsAtLeaf | contracts/src/core/AlignedProofAggregationService.sol:109-118 | a path of that length that climbs to the root starts at a leaf, or a collision is found |
| MerkleAggregation.SwapKeepsRoot | aggregation_mode/src/aggregators/mod.rs:195-216 | swapping children never changes a root |
| MerkleAggregation.SwapKeepsLeaves | aggregation_mode/src/aggregators/mod.rs:206-216 | such lists hold the same multiset of leaves |
| MerkleAggregation.RootDoesNotBindLength | aggregation_mode/src/aggregators/mod.rs:206-216 | the nodes of every level have the root of the whole tree |
| MerkleAggregation.RootBindsLevel | aggregation_mode/src/aggregators/mod.rs:206-216 | a shorter power-of-two list with the root of a taller tree is that tree's level up to swapped children, or a collision is found |
| MerkleAggregation.UserProofsAggregator | aggregation_mode/aggregation_programs/risc0/src/user_proofs_aggregator_main.rs:9-22 | commits a root exactly when every proof verifies and there is one, and then that of all commitments |
| MerkleAggregation.ChunkAggregator | aggregation_mode/aggregation_programs/risc0/src/chunk_aggregator_main.rs:15-50 | commits exactly when every chunk passes all three assertions, and then the root of all leaves in order |
| MerkleAggregation.AggregateProofs | aggregation_mode/src/aggregators/mod.rs:75-101 | for every list of verified proofs and every positive chunk size no assertion fails and the two-level root is the flat one |
| MerkleAggregation.AcceptedChunkIsVerified | aggregation_mode/aggregation_programs/risc0/src/chunk_aggregator_main.rs:27-44 | an accepted chunk of equal power-of-two size carries exactly the commitments its proof verified, or a collision is found |
| MerkleAggregation.AcceptedChunkMatches | aggregation_mode/aggregation_programs/risc0/src/chunk_aggregator_main.rs:27-44 | for any power-of-two numbers of host leaves and verified proofs, the shorter list is a level of the taller tree, or a collision is found |
| MerkleAggregation.ParentPassesForALeaf | aggregation_mode/aggregation_programs/risc0/src/chunk_aggregator_main.rs:29-44 | the parent of two verified commitments, listed alone, passes every assertion |
| MerkleAggregation.AcceptedChunksMatch | aggregation_mode/aggregation_programs/sp1/src/chunk_aggregator_main.rs:19-49 | every accepted chunk of a host's choice matches verified proofs in that way, or a collision is found |
| MerkleAggregation.AcceptedLeavesAreVerified | aggregation_mode/aggregation_programs/sp1/src/chunk_aggregator_main.rs:19-49 | when each chunk lists as many leaves as its proof verified, every leaf is the commitment of a verified proof, or a collision is found |
| ProofsFetcher.CollectedExactly | aggregation_mode/src/backend/fetcher.rs:93-180 | the collected proofs are exactly those of the scanned logs |
| ProofsFetcher.StopIsUnique | aggregation_mode/src/backend/fetcher.rs:167-177 | the stopping point is determined by the downloads and the limit |
| ProofsFetcher.Fetcher.Fetch | aggregation_mode/src/backend/fetcher.rs:56-186 | fails exactly for a head below the mark; otherwise returns whole batches in order up to the limit and moves the mark to the block of the log where it stopped, or to the head |
| ProofsFetcher.ScanCovers | aggregation_mode/src/backend/fetcher.rs:167-183 | the mark never moves back and every log below the new mark was scanned |
| ProofsFetcher.StuckExactly | aggregation_mode/src/backend/fetcher.rs:79-87 | the mark stays, short of the head, exactly when the proofs of its own block exceed the limit |
| ProofsFetcher.Start | aggregation_mode/src/backend/mod.rs:77-109 | one process run is exactly one round: whole batches up to the limit are collected; it succeeds exactly when the head is not below the mark and there is nothing to submit or the submission goes through, and only then moves the mark |
| ProofsFetcher.EveryLogIsScanned | aggregation_mode/src/backend/mod.rs:77-94 | over every run with failures, every log between the first and last mark was scanned by a round that succeeded, between its mark and its head |
| ProofsFetcher.EveryProofIsAggregated | aggregation_mode/src/backend/fetcher.rs:93-183 | that round's list holds exactly the compatible proofs of the log's download |
| ProofsFetcher.MarksStayExactly | aggregation_mode/src/backend/fetcher.rs:167-183 | the mark stays along a run exactly when every successful round with a newer head gets more proofs from the mark's block than the limit |
| ProofsFetcher.FailedDownloadPasses | aggregation_mode/src/backend/fetcher.rs:100-107 | two rounds in which a failed download moves the mark past a block that exceeds the limit |
| ProofsFetcher.CollectedTwiceExactly | aggregation_mode/src/backend/fetcher.rs:173-176 | a collected log is collected again exactly when it lies in the block of the later round's mark and that scan reaches it |
| BlobPacking.ConstructBlob | aggregation_mode/src/backend/mod.rs:241-259 | all writes stay in range exactly for at most 3968 leaves; byte p of the leaves is in word p / 31 after its zero byte, and every other byte is zero |
| BlobPacking.UnpackPacked | aggregation_mode/src/backend/mod.rs:226-240 | stripping the first byte of each word gives back the data followed by zeros |
| BlobPacking.BlobDeterminesLeaves | aggregation_mode/src/backend/mod.rs:241-259 | of two leaf lists with the same blob the shorter is a prefix of the longer, whose other leaves are zero |
| BlobPacking.ElementsAreCanonical | aggregation_mode/src/backend/mod.rs:248-259 | every word is below 2^248 and so below the field's order |
| WorkerPool.VerdictIsAcceptable | operator/pkg/utils.go:9-17 | whatever the contract's owner has called, the verdict is the verifier's answer for a known system whose last call did not disable it, and false otherwise |
| VerifierBitmap.AddBit | contracts/src/core/AlignedLayerServiceManager.sol:241-246 | adding the power of a clear bit sets that bit and no other |
| VerifierBitmap.SubtractBit | contracts/src/core/AlignedLayerServiceManager.sol:248-253 | taking away the power of a set bit clears that bit and no other |
| VerifierBitmap.BitsAreWritten | contracts/src/core/AlignedLayerServiceManager.sol:241-257 | after any calls the stored bitmap's set bits are exactly the ids written |
| VerifierBitmap.WrittenIsDisabled | contracts/src/core/AlignedLayerServiceManager.sol:241-257 | an id is written exactly when the last call that touches it disables it |
| VerifierBitmap.DisabledExactly | operator/pkg/utils.go:9-17 | after any calls the operator finds a known system disabled exactly when the last call that touches it disables it, although it reads 64 bits of the bitmap only |
| WorkerPool.StepKeepsInv | operator/pkg/operator.go:347-372 | every step of every goroutine keeps each taken job in exactly one place |
| WorkerPool.RunKeepsInv | operator/pkg/operator.go:331-375 | the invariant holds in every reachable state of every schedule |
| WorkerPool.WorkersNeverBlock | operator/pkg/operator.go:332-333 | a worker with a job can always send its result, on an open channel with room, even after the collector has returned |
| WorkerPool.AllFinished | operator/pkg/operator.go:363-366 | when the results are closed every job has exactly one result |
| WorkerPool.DecisionIsRight | operator/pkg/operator.go:368-374 | the decision is the conjunction of all verdicts |
| WorkerPool.NeverStuck | operator/pkg/operator.go:347-374 | until all workers are gone and the decision is made some step can be taken |
| WorkerPool.EveryStepCounts | operator/pkg/operator.go:347-374 | every step lowers a bound |
| WorkerPool.RunsAreBounded | operator/pkg/operator.go:347-374 | no schedule is longer than the initial bound |
| WorkerPool.BatchDecision | operator/pkg/operator.go:384-441 | for every history of owner calls and every schedule, a batch is accepted only if every proof is acceptable, rejected only if one is not, and a finished schedule has decided |
| TaskTables.MutualInverses | aggregator/pkg/aggregator.go:51-62 | hash-to-index and index-to-hash are mutual inverses, and nothing is stored from 1 to the last deleted index |
| TaskTables.IndexInUseExactly | aggregator/pkg/aggregator.go:387-393 | the branch that should not happen is taken for a new hash exactly after 2^32 accepted tasks |
| TaskTables.AddRefines | aggregator/pkg/aggregator.go:375-408 | adding appends to the ledger unless the hash is live or the indices are used up |
| TaskTables.CollectRefines | aggregator/pkg/aggregator.go:456-472 | a pass raises the ledger's floor to the collected index, or does nothing for an unknown hash |
| TaskTables.CollectExactly | aggregator/pkg/aggregator.go:456-472 | a pass to index t removes exactly the indices 1 to t and changes no other lookup |
| TaskTables.LookupFinds | aggregator/pkg/aggregator.go:239-242 | the response handler reads a live task as it was added, and zeros otherwise |
| TaskTables.RunRefines | aggregator/pkg/aggregator.go:375-472 | in every interleaving of additions and passes that end the tables represent the ledger |
| TaskTables.AcceptedTaskStays | aggregator/pkg/aggregator.go:239-242 | what was accepted as task i is what every later lookup finds until a pass reaches i |
| TaskTables.LedgerGrows | aggregator/pkg/aggregator.go:395-408 | accepted tasks are never renumbered or replaced in the ledger |
| TaskTables.FullForever | aggregator/pkg/aggregator.go:378-393 | after 2^32 accepted tasks no run of additions and passes accepts another |
| TaskTables.LoopEndsExactly | aggregator/pkg/aggregator.go:459-459 | the loop over 32-bit indices gets past its target exactly when that is not the largest index |
| TaskTables.PassEndsExactly | aggregator/pkg/aggregator.go:456-472 | a pass ends exactly when it is not for the task with the largest index, the 2^32nd accepted |
| TaskTables.Aggregator.AddNewTask | aggregator/pkg/aggregator.go:375-408 | the five maps and the counter after an addition |
| TaskTables.Aggregator.ClearTasks | aggregator/pkg/aggregator.go:456-472 | the five maps and the last deleted index after a pass |
| GasPrice.RetryRaisesPrice | core/chainio/avs_writer.go:117-142 | each price covers the node's and is at least 110 hundredths of the previous, rounded down |
| GasPrice.BumpExactly | core/utils/eth_client_utils.go:66-87 | bounds from both sides: the price raised by the base percentage and the retries' increments, or by the limit if that is smaller, rounded down |
| GasPrice.NextPriceExactly | core/chainio/avs_writer.go:126-142 | the next price is the larger of the quote so raised and the previous price raised by ten percent or the limit, within the rounding |
| GasPrice.KthRetry | core/chainio/avs_writer.go:117-142 | after k timed-out attempts at one quote the next price carries the k-th percentage |
| GasPrice.TenPercentExactly | core/chainio/avs_writer.go:126-128 | a full 10% is reached exactly when the suggestion does, or the previous price is zero or a multiple of ten with a limit of at least ten |
| GasPrice.TenPercentCanFail | core/chainio/avs_writer.go:126-128 | 15 is followed by 16 |
| GasPrice.RetriesGrowGeometrically | core/chainio/avs_writer.go:117-142 | for every sequence of quotes, k retries multiply the price by 1.1 to the k up to nine units |
| GasPrice.RetriesGrowLinearly | core/utils/eth_client_utils.go:66-87 | after k retries the price is at least the first plus k times its tenth |
| GasPrice.ResponseSender.Try | core/chainio/avs_writer.go:110-196 | the price after one attempt is within the bounds of the retry's percentage of the quote and the minimum bump of the previous price; a time-out counts the retry, and an attempt without a quote changes nothing |
| GasPrice.OverrideRaisesPrice | crates/batcher/src/eth/utils.rs:47-62 | an override is at least 120 hundredths of the previous price and of the node's |
| GasPrice.OverrideExactly | crates/batcher/src/eth/utils.rs:47-62 | bounds from both sides: 120 and five more hundredths per iteration of the larger of the two prices, rounded down |
| GasPrice.KthOverride | crates/batcher/src/lib.rs:2499-2521 | the k-th price sent carries 120 and 5 k hundredths of the larger of the price before it and its quote |
| GasPrice.OverridesGrowGeometrically | crates/batcher/src/lib.rs:2499-2521 | for every sequence of quotes, k overrides multiply the price by 1.2 to the k up to four units |
| GasPrice.EveryOverrideReplaces | crates/batcher/src/lib.rs:2499-2521 | every transaction sent overrides the one before it |
| GasPrice.CancelTask | crates/batcher/src/lib.rs:2499-2521 | the loop sends exactly the specified prices |

## Left out

- Locks: one handler between taking and releasing the user lock is one step; deadlock freedom and lock timeouts are not modelled, and a failed `try_lock` is an input. An eviction inside the restore waits for the user records while the restore holds their write guard, so what is proved of that branch is about the intended behaviour.
- BatcherService.Batcher.HandleNewBlock: extraction and finalization run without other handlers between them; interleavings with them are covered by `ExtractBatchIfReady` and `FinalizeBatch` on their own and by the runs of `BatcherRuns`. The flush after a change of the disabled verifiers is `FlushQueue`, not part of this method.
- BatcherService.Batcher.CreateUser: check and insert in one step, as the comment in the source intends; the insert by itself, with its exact condition, is `InsertUser`.
- MerkleAggregation.AcceptedChunkMatches: only power-of-two lists, since how the tree builder pads other lists is not part of this model.
- MerkleAggregation.AcceptedChunksMatch: the same.
- MerkleAggregation.AcceptedChunkIsVerified: lists of one power-of-two length; other lengths are `AcceptedChunkMatches`.
- MerkleAggregation.AcceptedLeavesAreVerified: the same; `ParentPassesForALeaf` shows why the lengths must agree.
- A failure after the charge, when inclusion responses cannot be sent, is not a step: `BatcherHazards.ChargedProofsCannotReturn` shows that it always breaks the invariant.
- Withdrawals and unlocking of balances: accounts fall only by charges; a removed user is one whose funds are unlocked.
- Checks before the user lock (signature, chain id, size, minimum max fee), non-paying address substitution, and message delivery.
- U256, u128 and usize overflow: naturals, except the maximum value used as the unlimited fee and the 32-bit task index.
- TaskTables.Aggregator.ClearTasks: requires that the pass ends, with the exact condition in `TaskTables.PassEndsExactly`, and that the last deleted index is not the largest, which holds in every run of passes that end.
- Keccak is an arbitrary function of two nodes; program ids and commitment encodings are taken to agree between host and guest; the tree builder is arbitrary except where perfect trees are named.
- OpenZeppelin's `processProofCalldata` is not part of this model's sources: `MerkleAggregation.Climb` folds a path with the ordered pair hash that aggregation_mode/src/aggregators/mod.rs:206-216 builds to agree with it.
- Zero chunk sizes: `chunks(0)` panics in the source, and `MerkleAggregation.AggregateProofs` requires a positive one.
- Proof verification, BLS, KZG, signatures: oracles.
- The operator's early return when the disabled verifiers cannot be read, which blocks for an empty batch, and logging.
- RPC, S3, websocket, CBOR, telemetry, metrics, configuration, generated bindings, the SDK, the explorer and scripts: plumbing.
