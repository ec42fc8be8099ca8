# Constantinople, verified in Dafny

A model of the parts of Constantinople whose correctness spans several functions, with proofs over all inputs, all
chains and all runs. `dafny verify dfyconfig.toml` checks the whole project.

**Ledger.** Accounts hold a balance and a sliding-window nonce: a base and a 64-bit map of later nonces already used.
`Nonces` and `ExplorerNonces` model the validator's and the explorer's copies of this machine. A nonce is *dead* when it
can no longer be used; the state is shown to be a canonical picture of its dead set, and consuming and merging are
described as operations on that set. `Ledger` runs transfers one at a time over a map whose missing accounts hold 100.
`Changesets`, `Executor` and `Execution` model what the validator really does (overlay, fast path for distinct accounts,
account loading, proposal filtering) and prove every path equal to that simple run. `Consensus` lifts this to
chains of blocks decoded from the wire.

**Codec.** `Codec` models the reader that consumes a buffer field by field, the encodings, and the lazily decoded wrapper.
`Wallet` models the explorer's own encoders and proves that the validator understands them. `Base64` models the text a
WebAuthn challenge is compared with.

**Index.** `History` and `Chain` describe accepted chains and the application's transaction log. `Rows` and `Uploads` derive
SQL rows and uploads from finalized blocks. `Publisher` holds the producer, the reservation of log ranges and the
completion of uploads. `Pipeline` is the transition system that ties them together: a producer with a durable queue and
cursor, a consumer, a publisher that connects by two separate reads and whose batches land in any order, a remote Store,
and crashes at any point. `Runs`, `TornConnection` and `AmbiguousEnqueue` hold the two kinds of run in which it goes
wrong, and `Indexer` runs the pipeline over a chain.

**Explorer.** `Pager` models paging through an account's activity, `BlockSequence` the de-duplicating block stream, and
`Explorer` pages through the rows the pipeline has put in the Store.

Reading guide: the main results are `Ledger.RunMoves`, `Execution.HonestProposalVerifies`,
`Consensus.ProposedBlockIsAccepted`, `Consensus.NoTransactionTwice`, `ExplorerNonces.MergeIsUnion`,
`Codec.DecodeIffEncoding`, `Wallet.ValidatorUnderstandsWallet`,
`Uploads.ExpandedUploadsSpellLog`, `Pipeline.AckedIsVisible`, `Pipeline.SessionRefusesIffTorn`,
`Pipeline.RecoveredCursorIsFrontier`, `Pipeline.WholeChainCanBePublished`, `AmbiguousEnqueue.EarlyAckIff`,
`Indexer.AckedRowsAreProvable`, `Pager.PagingWhileGrowing`, `Explorer.PagingShowsTransfers`, `Explorer.PagingListsAcked` and
`BlockSequence.ReturnedIsMemoryIff`.

## What stands in for code outside the model

- Hashes and curve checks are function parameters (`Env`, `Curves`): every theorem holds for all of them.
- A QMDB batch of `n` appends adds `n + 1` operations, the last a commit with the inactivity floor.
- A Store batch is atomic. A published watermark ends a contiguous prefix of uploads that are persisted or in the same
  batch, and both logs' watermarks stop at the same block. `Pipeline` states this as the guard of the landing and flush
  steps. The two watermarks move together in the Store, but a connecting publisher reads them one after the other.
- The durable queue keeps order; acknowledgements may or may not survive a crash until they are synced. In `Pipeline` an
  enqueue that reports an error has left the queue unchanged; `AmbiguousEnqueue` drops this and shows it is needed.
- The SQL service answers a query as its text says (`Pager.Answers`). `Pager.ServiceExists` shows that such services exist.
- Clocks, randomness and retries after transient errors are parameters or repeated steps.

Machine integers are unbounded here, with `u64` limits written out where the code checks them. Arithmetic that would
panic in the source is a `requires`.

## Where a plain reading fails

- The publisher can stay out of sync: a batch of a crashed process that lands between the two watermark reads of a new
  connection leaves the publisher between two boundaries (`TornConnection.TornRun`). A session comes to an entry it
  refuses exactly if the reads differ (`Pipeline.SessionRefusesIffTorn`), and can finish without a restart exactly if
  they agree (`Pipeline.SettlesWithoutRestartIffWhole`). Nothing is acknowledged early or lost either way.
- If an enqueue can report an error after appending its entry, the retry queues a second copy, which is acknowledged
  before anything is visible (`AmbiguousEnqueue.EarlyAck`). Acknowledged entries are visible in every run exactly if it
  cannot (`AmbiguousEnqueue.AcksAreVisibleIff`), and run by run exactly if no entry is read while it is reserved but above
  the published watermarks (`AmbiguousEnqueue.EarlyAckIff`).
- Batches land in any order, so a row of an older block may arrive below the cursor while an account is paged, and is then
  listed although it was not there at the start (`Pager.LateRowRun`). The listing is exactly what was there at the start
  if and only if no row arrives below a cursor in use (`Pager.PagingExactIff`).
- A call that fills gaps and fails on a fetch keeps in its memory blocks it never hands out, so a block may be handed out
  twice in a row (`BlockSequence.RejectionRepeats`). `BlockSequence.LosesNothingIff` says exactly when a call loses nothing
  and `BlockSequence.ReturnedIsMemoryIff` says it of any list of calls.
- With a bounded memory a height does repeat (`BlockSequence.ForgottenRun`); `BlockSequence.RepeatsOnceForgotten` says
  exactly when.
- The explorer and the validator agree on the account of a key exactly if its scheme byte is one of the two they know; for
  any other the explorer hashes the key and the validator names none (`Wallet.AccountKeyFromPublicKey`).
- The overflow guard of nonce compaction refuses an unused nonce on some `u64` pairs
  (`Nonces.GuardFiresOnMalformedState`). No account can reach them, and `Nonces.ConsumeExact` gives the exact condition
  for every pair.

## Model

| member | source | states |
|---|---|---|
| Nonces.ConsumeCurrentNonce | crates/primitives/src/account.rs:243-260 | the loop moves the base just past the run of used nonces behind it and shifts the map accordingly, or fails past `u64` |
| Nonces.Consume | crates/primitives/src/account.rs:144-151 | a refused nonce leaves the state alone, an accepted one replaces it by the next state |
| Nonces.ConsumeExact | crates/primitives/src/account.rs:219-260 | for every `u64` pair, exactly when a nonce is accepted and exactly which nonces are dead afterwards, in the window and on a far jump |
| Nonces.ConsumeWellFormed | crates/primitives/src/account.rs:219-260 | on reachable states only dead nonces and `u64::MAX` are refused: the compaction guard never fires |
| Nonces.GuardFiresOnMalformedState | crates/primitives/src/account.rs:253-259 | a concrete unreachable pair on which the guard refuses an unused nonce |
| Nonces.ConsumeKeepsDead | crates/primitives/src/account.rs:219-260 | compaction and far jumps forget nothing |
| Nonces.ConsumeAllExact | crates/primitives/src/account.rs:219-260 | any list of nonces that fit the window adds exactly those nonces to the dead set |
| Nonces.Canonical | crates/primitives/src/account.rs:124-131 | two states with the same dead set are equal |
| Nonces.ReachableIffWellFormed | crates/primitives/src/account.rs:133-151 | well-formed states are exactly those reachable from a new account |
| ExplorerNonces.ConsumeBaseNonce | explorer/src/nonce.ts:66-83 | agrees with the validator's compaction |
| ExplorerNonces.ConsumeNonce | explorer/src/nonce.ts:17-45 | agrees with the validator on every non-negative nonce and refuses every bigint outside `u64` |
| ExplorerNonces.ConsumedBitmapNonces | explorer/src/nonce.ts:85-97 | yields the recorded nonces at or above the given base, in order |
| ExplorerNonces.MergeNonceStates | explorer/src/nonce.ts:47-60 | computes the merge; on reachable states the result is reachable and its dead set is the union |
| ExplorerNonces.MergeIsUnion | explorer/src/nonce.ts:47-60 | a nonce is dead in the merge iff it is dead on either side |
| ExplorerNonces.MergeNeverJumps | explorer/src/nonce.ts:47-60 | no nonce offered during a merge lies beyond the window |
| ExplorerNonces.MergeCommutes | explorer/src/nonce.ts:47-60 | merge is commutative |
| ExplorerNonces.MergeAssociates | explorer/src/nonce.ts:47-60 | merge is associative |
| ExplorerNonces.MergeIdempotent | explorer/src/nonce.ts:47-60 | merging a state with itself changes nothing |
| ExplorerNonces.MergeAbsorbsOlderState | explorer/src/nonce.ts:47-60 | merging a stale snapshot into a later state changes nothing |
| Ledger.RunConserves | crates/application/src/executor.rs:235-264 | any run keeps the total over any key set containing the touched accounts |
| Ledger.RunKeepsWellFormed | crates/application/src/executor.rs:235-264 | no balance leaves `u64` and every nonce state stays reachable |
| Ledger.RunKeepsDead | crates/application/src/executor.rs:235-264 | dead nonces stay dead over whole runs, whatever is received |
| Ledger.NoReplay | crates/application/src/executor.rs:235-264 | no sender and nonce are accepted twice in a run |
| Ledger.RunFrame | crates/application/src/executor.rs:235-264 | untouched accounts keep their values |
| Ledger.StepAcceptsIff | crates/application/src/executor.rs:235-264 | a transfer is accepted iff the sender can pay, its nonce is live, below `u64::MAX` and not the last live one, and the recipient's balance does not overflow unless it is a transfer to oneself |
| Ledger.StepAcceptsIffReachable | crates/application/src/executor.rs:235-264 | in reachable databases every live nonce below `u64::MAX` is usable |
| Ledger.StepMoves | crates/application/src/executor.rs:246-263 | an accepted transfer takes exactly its value from the sender, gives exactly it to the recipient and changes no other balance |
| Ledger.StepUsesNonce | crates/application/src/executor.rs:239-249 | the sender's dead nonces grow by exactly the one used, or by all below it on a far jump, and nobody else's change |
| Ledger.RunMoves | crates/application/src/executor.rs:148-161 | every account ends at its start plus what it received minus what it sent |
| Ledger.RunFromNothing | crates/primitives/src/account.rs:188-195 | from an empty database every account has 100 to begin with |
| Ledger.RunUsesNonces | crates/application/src/executor.rs:148-161 | every account ends with the nonce state that consuming its own nonces leaves |
| Ledger.RunAcceptsIff | crates/application/src/executor.rs:148-161 | a run succeeds iff each transfer is accepted by the database the ones before it leave |
| Changesets.SortByKeyIsChangeset | crates/application/src/executor.rs:228-232 | sorting any listing of a map gives the one sorted changeset of that map |
| Changesets.ApplyChangesetIsUnion | crates/application/src/consensus/db.rs:71-85 | writing a changeset to the database overrides exactly its keys |
| Changesets.BytesLessIff | crates/application/src/executor.rs:228-232 | keys are ordered by the first byte in which they differ, prefixes first |
| Executor.Overlay.Get | crates/application/src/executor.rs:217-222 | reads see the writes first, then the base |
| Executor.Overlay.ApplyTransfer | crates/application/src/executor.rs:235-264 | a transfer adds exactly its writes or, if it fails, changes nothing |
| Executor.Overlay.IntoChangeset | crates/application/src/executor.rs:228-232 | the sorted changeset of the overlay's writes |
| Executor.TransferWritesIsStep | crates/application/src/executor.rs:235-264 | on loaded accounts the overlay's decision and writes are those of one ledger step, self-transfers included |
| Executor.OverlayIsRun | crates/application/src/executor.rs:148-161 | executing on an overlay is running on the database, and writes exactly the touched accounts |
| Executor.Execute | crates/application/src/executor.rs:148-161 | the changeset of the run's outcome, or nothing exactly when the run fails or an account is not loaded |
| Executor.AllDistinctIffCount | crates/application/src/consensus/execution.rs:273-279 | comparing the two counts decides whether all sender and recipient keys are distinct |
| Executor.ExecuteUnique | crates/application/src/executor.rs:163-192 | the loop over account pairs computes the sorted entries of the pairwise specification, and fails exactly when it does |
| Executor.UniqueIsOutcome | crates/application/src/executor.rs:163-192 | with distinct accounts the fast path fails exactly when the run fails and otherwise lists the run's outcome |
| Executor.PrepareProposal | crates/application/src/executor.rs:73-95 | every submitted transaction ends up as a prepared candidate or among the malformed, in the order submitted, none lost |
| Executor.ProposePrepared | crates/application/src/executor.rs:98-122 | returns the included and excluded transactions and the changeset of the included ones |
| Executor.ProposePartitions | crates/application/src/executor.rs:98-122 | every candidate is included or excluded, none twice |
| Executor.ProposeIsGreedy | crates/application/src/executor.rs:98-122 | the included candidates are those the ledger accepts one after the other, although more accounts were loaded |
| Executor.IncludedSnoc | crates/application/src/executor.rs:98-122 | a candidate is included iff the ledger accepts it after the candidates included before it |
| Execution.LoadState | crates/application/src/consensus/execution.rs:229-249 | loads exactly the touched accounts, absent ones at their default |
| Execution.LoadAccounts | crates/application/src/consensus/execution.rs:287-307 | one account per key, absent ones at their default |
| Execution.LoadExecutionState | crates/application/src/consensus/execution.rs:251-285 | accounts in transfer order if all keys differ, the shared map otherwise |
| Execution.ExecuteLoaded | crates/application/src/consensus/execution.rs:309-320 | the changeset of whichever path was loaded |
| Execution.VerifierIsOutcome | crates/application/src/consensus/execution.rs:251-320 | whichever path the verifier takes, its changeset is the sorted outcome of the run and it fails exactly when the run does |
| Execution.UniqueAgreesWithOverlay | crates/application/src/consensus/execution.rs:251-320 | with distinct keys both paths give equal changesets as sequences and fail on the same inputs |
| Execution.ExecuteBody | crates/application/src/consensus/execution.rs:127-196 | the database after a verified body is the run over its transfers |
| Execution.ExecuteProposal | crates/application/src/consensus/execution.rs:85-125 | the proposed body is the greedy choice, its changeset the one a verifier computes, its database the run's |
| Execution.HonestProposalVerifies | crates/application/src/consensus/execution.rs:85-171 | for every database and candidate list, the verifier's own loading and execution of the proposer's list gives the proposer's changeset |
| Execution.ChainIsRun | crates/application/src/consensus/execution.rs:127-196 | executing block after block is one run over all transfers |
| Execution.BlockBoundariesDoNotMatter | crates/application/src/consensus/execution.rs:127-196 | two blocks succeed exactly when the joined block does, with the same database |
| Execution.AnyBlockingAgrees | crates/application/src/consensus/execution.rs:127-196 | every way of cutting the same transfers into blocks ends in the same database |
| Execution.ChainNoReplay | crates/application/src/executor.rs:235-264 | no sender and nonce are accepted twice over a chain of executed blocks |
| Execution.ChainRefusesDead | crates/application/src/executor.rs:235-264 | a block offering a dead or earlier used nonce is refused |
| Execution.ChainConserves | crates/application/src/executor.rs:235-264 | totals are constant over chains |
| Execution.ChainKeepsWellFormed | crates/application/src/executor.rs:235-264 | balances stay in `u64` and nonce states reachable over chains |
| Codec.ReadPublicKey | crates/primitives/src/auth.rs:75-103 | the field-by-field reader accepts, rejects and consumes exactly what the grammar says |
| Codec.ReadTransaction | crates/primitives/src/transaction.rs:175-206 | likewise for the transaction body |
| Codec.ReadWebAuthn | crates/primitives/src/auth.rs:266-313 | likewise for a WebAuthn assertion with its size-prefixed fields |
| Codec.ReadSignature | crates/primitives/src/auth.rs:246-313 | likewise for signatures of every scheme |
| Codec.ReadSigned | crates/primitives/src/transaction.rs:92-103 | likewise for signed transactions |
| Codec.PublicKeyRoundTrip | crates/primitives/src/auth.rs:51-103 | a written key followed by anything is read back, leaving the rest |
| Codec.PublicKeyReencodes | crates/primitives/src/auth.rs:51-103 | every key that reads re-encodes to the bytes it came from |
| Codec.TransactionRoundTrip | crates/primitives/src/transaction.rs:175-206 | a written transaction followed by anything is read back, leaving the rest |
| Codec.TransactionReencodes | crates/primitives/src/transaction.rs:175-206 | every transaction that reads re-encodes to the bytes it came from |
| Codec.SignatureRoundTrip | crates/primitives/src/auth.rs:199-313 | a written signature followed by anything is read back, leaving the rest |
| Codec.SignatureReencodes | crates/primitives/src/auth.rs:199-313 | every signature that reads re-encodes to the bytes it came from |
| Codec.SignatureSize | crates/primitives/src/auth.rs:199-238 | signature sizes stay within the bounds the wrapper relies on |
| Codec.DecodeIffEncoding | crates/primitives/src/transaction.rs:73-103 | a byte string decodes to a signed transaction iff it is the encoding of that valid transaction |
| Codec.LazyReencodes | crates/primitives/src/signed.rs:256-291 | what the wrapper reads it writes back byte for byte, even when the payload does not decode |
| Codec.LazyRoundTrip | crates/primitives/src/signed.rs:256-307 | every signed transaction fits the wrapper's bounds and comes back as the same value |
| Codec.LazySignedTransaction.Get | crates/primitives/src/signed.rs:222-236 | the cached outcome is the decoding of the pending bytes, and asking does not change what the wrapper stands for |
| Codec.LazySignedTransaction.Write | crates/primitives/src/signed.rs:275-291 | pending bytes are written unchanged, values are encoded |
| Codec.ReadLazy | crates/primitives/src/signed.rs:256-273 | reads exactly the length-bounded payload without looking at it |
| Wallet.EncodeU64 | explorer/src/codec.ts:99-107 | eight bytes that read back as the number, exactly for `u64` values |
| Wallet.EncodeUsize | explorer/src/codec.ts:109-123 | the loop writes the validator's length prefix, exactly for 32-bit values |
| Wallet.EncodeTransactionBody | explorer/src/codec.ts:79-89 | the four fields at their places, exactly for keys of the right size and `u64` numbers |
| Wallet.EncodeTransactionSignature | explorer/src/wallet.ts:208-232 | the passkey signature, written in place, is the validator's encoding, exactly if its parts fit |
| Wallet.AccountKeyFromPublicKey | explorer/src/codec.ts:91-97 | the explorer's account is the validator's iff the scheme byte is one of the two |
| Wallet.EncodeSignedTransaction | explorer/src/codec.ts:39-55 | the body followed by the signature over its digest, and that digest; zero values are refused |
| Wallet.ValidatorUnderstandsWallet | crates/primitives/src/transaction.rs:92-103 | what the wallet submits decodes to the drafted transaction and asks for the drafted transfer from the user's own account |
| Base64.Base64UrlNoPad | crates/primitives/src/auth.rs:505-525 | the loop computes the chunkwise encoding |
| Base64.RoundTrip | crates/primitives/src/auth.rs:505-525 | a decoder that regroups six-bit values into bytes recovers every input |
| Base64.EncodeInjective | crates/primitives/src/auth.rs:475-481 | equal challenge texts imply equal challenges, for all lengths |
| Base64.EncodedLength | crates/primitives/src/auth.rs:505-525 | four characters for three bytes, rounded up, without padding |
| Base64.DigitIsTable | crates/primitives/src/auth.rs:506-506 | the digits are the alphabet in its order |
| Base64.GroupsAreNumber | crates/primitives/src/auth.rs:509-522 | a chunk's six-bit groups and its bytes are the same number |
| Base64.ChunkIsLookup | crates/primitives/src/auth.rs:514-521 | the text of a chunk is its groups looked up in the alphabet |
| History.LogEndsAtRange | crates/application/src/consensus/execution.rs:322-362 | a block's header range ends where the application's log ends |
| History.FloorIsParentBatch | crates/application/src/consensus/history.rs:21-38 | the floor is the first location of the parent's batch, so its subtraction never underflows |
| History.RangesAdvance | crates/application/src/consensus/execution.rs:337-362 | ranges are non-empty, floors never decrease, ends increase |
| History.ApplyRepeatsVerify | crates/application/src/consensus/lifecycle.rs:235-240 | the floor taken from an accepted header gives the batch verification computed |
| History.BatchEndsWithCommit | crates/application/src/consensus/execution.rs:322-355 | the log begins with the genesis commit and every batch ends with a commit of the parent's first location |
| Chain.ValidChainIsRanged | crates/application/src/consensus/execution.rs:198-227 | accepted chains carry derived transaction ranges and only bodies that decode |
| Chain.AccountOfKey | crates/primitives/src/account.rs:40-54 | an Ed25519 key names itself, a secp256r1 key the hash of its encoding |
| Chain.NamesAccountIff | crates/primitives/src/account.rs:40-54 | exactly the 34-byte strings with one of the two scheme bytes name an account |
| Chain.AccountsDiffer | crates/primitives/src/account.rs:40-54 | different Ed25519 keys name different accounts |
| Chain.EntryAsksFor | crates/application/src/executor.rs:133-145 | a transaction on the wire asks for exactly the transfer its author wrote, paid by the author's account |
| Consensus.WireBodyPrepares | crates/application/src/executor.rs:133-145 | decoding and preparing a broadcast body gives back the transfers it was built from |
| Consensus.ProposedBlockIsAccepted | crates/application/src/consensus/lifecycle.rs:132-202 | whatever candidates an honest proposer is offered, a verifier decodes the block it broadcasts, executes it to exactly the proposer's changeset and accepts it |
| Consensus.DatabaseAfterIsRun | crates/application/src/consensus/execution.rs:127-196 | the database after an accepted chain is one run over all decoded transfers |
| Consensus.NoTransactionTwice | crates/application/src/consensus/lifecycle.rs:132-202 | no two places of an accepted chain hold the same transaction content, under any signatures |
| Consensus.AcceptedChainConserves | crates/application/src/executor.rs:235-264 | totals are constant along accepted chains |
| Consensus.AcceptedChainKeepsWellFormed | crates/application/src/executor.rs:235-264 | balances stay in `u64` and nonce states reachable along accepted chains |
| Consensus.AcceptedChainMoves | crates/application/src/executor.rs:257-263 | along an accepted chain every account holds what it began with plus what it received minus what it sent |
| Consensus.ChainHoldsTransfer | crates/application/src/executor.rs:133-145 | every transaction of the chain is among its transfers as the one its author asked for |
| Rows.IndexAgreesWithPrepare | crates/indexer/src/publisher/block.rs:147-211 | whatever the application prepares, the indexer indexes with the same digest and fields |
| Rows.NothingSkipped | crates/indexer/src/publisher/block.rs:70-91 | no transaction of an accepted body is skipped, and the digests are the appended ones |
| Rows.EncodeIndexedBlockRowsAt | crates/indexer/src/publisher/block.rs:53-145 | the block row first, then each transaction's rows at its append location, and the digests in order |
| Rows.MetaRowsCiteAppends | crates/indexer/src/publisher/block.rs:92-145 | every `tx_meta` row cites the append of the transaction it comes from |
| Rows.AppendsHaveMetaRows | crates/indexer/src/publisher/block.rs:92-145 | every indexed transaction has its `tx_meta` row |
| Rows.IndexesIff | crates/indexer/src/publisher/block.rs:147-211 | for every byte string, what is indexed is exactly what begins with a transaction whose sender names an account, with its fields |
| Rows.ActivityIff | crates/indexer/src/publisher/block.rs:92-125 | the activity rows of an accepted block are exactly each transfer's sender row and, if the accounts differ, its receiver row |
| Rows.BlockMetaRow | crates/indexer/src/publisher/block.rs:127-140 | one `block_meta` row, the first, with the number of transactions and the location of the block's commit |
| Uploads.TransactionOpsFromDigests | crates/indexer/src/publisher/qmdb.rs:1510-1547 | genesis commit if the writer is empty, appends, commit with the floor; fails exactly when the range does not end at the header's |
| Uploads.AccountRows | crates/indexer/src/publisher/qmdb.rs:1387-1403 | one row per update, at its location |
| Uploads.ExpandQueuedUpload | crates/indexer/src/publisher/qmdb.rs:638-677 | succeeds exactly if no transaction was skipped, with exactly the block's rows and operations |
| Uploads.BuildIff | crates/indexer/src/publisher/qmdb.rs:440-475 | exactly when the producer can build a block's upload from a cursor |
| Uploads.UploadOf | crates/indexer/src/publisher/qmdb.rs:546-585 | from the previous block's frontier the upload builds and ends at the block's own frontier |
| Uploads.UploadsSpellLog | crates/indexer/src/publisher/qmdb.rs:1510-1547 | the uploads' operations, concatenated, are the application's log |
| Uploads.ExpandedUploadsSpellLog | crates/indexer/src/publisher/qmdb.rs:638-677 | the operations the indexer expands from all uploads of an accepted chain, concatenated, are the application's log |
| Uploads.NothingSkippedInChain | crates/indexer/src/publisher/block.rs:70-91 | every body of an accepted chain is indexed whole, with the digests the application appended |
| Uploads.ChainMetaRowsCiteLog | crates/indexer/src/publisher/block.rs:92-145 | every `tx_meta` row cites a location of the log holding exactly that digest, for good |
| Uploads.AccountRowsCiteLog | crates/indexer/src/publisher/qmdb.rs:1387-1403 | an `account_meta` row is emitted iff the state log holds exactly that update at its location |
| Uploads.StateUploadsSpellLog | crates/indexer/src/publisher/qmdb.rs:1432-1474 | the uploads' state operations, concatenated, are the local state log, every operation re-encoded |
| Uploads.StateUploadsReadBack | crates/indexer/src/publisher/qmdb.rs:1464-1481 | decoding them gives back the local state log itself |
| Uploads.EmptyCursorIsReported | crates/indexer/src/publisher/qmdb.rs:1370-1385 | an empty cursor past the first block is reported as an empty Store |
| Uploads.WrongCursorIsReported | crates/indexer/src/publisher/qmdb.rs:546-585 | a cursor at the wrong place is reported with that place and the end of the previous block |
| Publisher.ScanFinalizedQueueCursor | bin/validator/src/run.rs:378-396 | the end of the last readable entry |
| Publisher.FinalizedUploadProducer.constructor | bin/validator/src/run.rs:598-614 | a restarted producer holds, in memory and half by half on disk, the later of the queue's cursor and the one on disk, which counts only if both halves are there |
| Publisher.FinalizedUploadProducer.Enqueue | bin/validator/src/run.rs:278-352 | a built upload is appended and the cursor and both halves on disk move to its end; a failed build changes nothing |
| Publisher.Restarted | bin/validator/src/run.rs:598-614 | a process restarted on another's disk continues where it stood |
| Publisher.RestartedAfterEnqueue | bin/validator/src/run.rs:326-376 | a producer that enqueues and is restarted holds the end of that upload |
| Publisher.Publisher.constructor | crates/indexer/src/publisher/qmdb.rs:1549-1554 | a connected publisher stands right after the published watermarks |
| Publisher.Publisher.EnqueueQueuedFinalized | crates/indexer/src/publisher/qmdb.rs:477-519 | skips, reserves or refuses an upload, moving both locations together or not at all |
| Publisher.CompletePublishedUploads | crates/indexer/src/publisher/qmdb.rs:1190-1216 | signals the ready uploads and retains the others in order |
| Publisher.SelectExact | crates/indexer/src/publisher/qmdb.rs:1190-1216 | nothing is lost, and an upload is signalled exactly if both watermarks are at or past its last locations |
| Pipeline.AdmitByIndex | crates/indexer/src/publisher/qmdb.rs:477-519 | at a boundary, skipping, reserving and refusing are exactly: at or below the reserved block, the next block, beyond it |
| Pipeline.AdmitTorn | crates/indexer/src/publisher/qmdb.rs:477-519 | between two boundaries, skipping and refusing are exactly: at or below the state boundary, beyond it |
| Pipeline.StepKeepsInv | bin/validator/src/run.rs:278-546 | every step of producer, queue, consumer, publisher, Store and crash keeps the invariant |
| Pipeline.RunFrom | bin/validator/src/run.rs:278-546 | every state of every run satisfies the invariant |
| Pipeline.AckedIsVisible | bin/validator/src/run.rs:456-460 | in every reachable state an acknowledged entry and every upload before it are in the Store, below both published watermarks |
| Pipeline.NothingLost | bin/validator/src/run.rs:398-504 | every enqueued upload is visible or still held by an entry the reader delivers |
| Pipeline.OutOfSyncIffTorn | crates/indexer/src/publisher/qmdb.rs:477-519 | the next entry is skipped only if visible, reserved only if it starts exactly where the publisher stands, and refused exactly if the two watermark reads differ and the state read does not cover it |
| Pipeline.SessionRefusesIffTorn | crates/indexer/src/publisher/qmdb.rs:370-378 | a session with a connected publisher can come, within its bound on active entries, to a refused entry iff its two watermark reads saw different boundaries |
| Pipeline.SettlesWithoutRestartIffWhole | bin/validator/src/run.rs:506-531 | a running process can, within its bound on active entries, acknowledge everything without a restart iff its publisher is not caught between two boundaries |
| TornConnection.TornRun | crates/indexer/src/publisher/qmdb.rs:370-378 | a run, over every chain with a block, that ends with a publisher refusing the only entry |
| AmbiguousEnqueue.EarlyAck | bin/validator/src/run.rs:326-347 | a run in which an enqueue appends, reports an error and is retried, and the second copy is acknowledged with nothing in the Store |
| AmbiguousEnqueue.AcksAreVisibleIff | bin/validator/src/run.rs:326-347 | acknowledged entries are visible in every run iff an enqueue that reports an error leaves the queue as it was |
| AmbiguousEnqueue.EarlyAckIff | bin/validator/src/run.rs:326-347 | run by run, what is acknowledged or about to be is visible throughout iff no entry is read while it is reserved in the session but above the published watermarks |
| Pipeline.RecoveredCursorIsFrontier | bin/validator/src/run.rs:259-276 | after any crash the recovered cursor is one block's whole frontier, at or past both durable sources and never past the last enqueued upload |
| Pipeline.RecoversLater | bin/validator/src/run.rs:237-276 | with the halves of one frontier on disk and another in the queue a restart recovers the later; a disk with one half counts for nothing |
| Pipeline.FlushDrains | crates/indexer/src/publisher/qmdb.rs:770-784 | with nothing in flight one flush makes every persisted upload completable, as the committer asserts on shutdown |
| Pipeline.InlineCompletes | crates/indexer/src/publisher/qmdb.rs:1045-1102 | an upload whose batch carried watermarks is completable once marked, without a flush |
| Pipeline.Progress | bin/validator/src/run.rs:398-468 | while an entry is unacknowledged and the publisher is not caught between two boundaries, some step brings the pipeline closer to the end, reading only when nothing is underway and whichever batches carry watermarks |
| Pipeline.EverythingCanBePublished | bin/validator/src/run.rs:398-504 | from every reachable state and within every bound on active entries the pipeline can go on until everything enqueued is acknowledged, on disk too, and visible, with a restart only if the publisher is caught between two boundaries |
| Pipeline.WholeChainCanBePublished | bin/validator/src/run.rs:278-504 | from every reachable state the whole chain can still be enqueued, acknowledged on disk and made visible |
| Indexer.ChainHasFrontiers | crates/indexer/src/publisher/qmdb.rs:546-585 | every chain gives upload boundaries that increase in both logs |
| Indexer.ProducerBuildsNext | bin/validator/src/run.rs:278-352 | at a frontier the producer can build exactly the next block's upload, spanning the two frontiers |
| Indexer.AckedRowsAreProvable | bin/validator/src/run.rs:456-460 | every `tx_meta` row of an acknowledged block cites a location below the published watermark where the application's log holds that digest |
| Indexer.AckedAccountRowsAreProvable | bin/validator/src/run.rs:456-460 | every `account_meta` row of an acknowledged block cites a location below the published state watermark where the state log holds that update |
| Pager.WriteU64Be | explorer/src/qmdb.ts:837-843 | writes the low 64 bits of any integer, negative ones included, most significant first and nothing else |
| Pager.ReadU64Be | explorer/src/qmdb.ts:829-835 | reads eight bytes as a big-endian number |
| Pager.EncodeActivityCursor | explorer/src/qmdb.ts:749-755 | the 24 bytes of a position |
| Pager.DecodeActivityCursor | explorer/src/qmdb.ts:757-766 | the position of 24 bytes, nothing for other lengths |
| Pager.CursorRoundTrip | explorer/src/qmdb.ts:749-766 | every position of `u64` columns survives its cursor, whose three words are height, index and role |
| Pager.CursorReencodes | explorer/src/qmdb.ts:749-766 | every well-formed cursor is the encoding of one position |
| Pager.PageSplits | explorer/src/qmdb.ts:184-203 | a page is the newest part of what remained, and its cursor stands exactly before the rest |
| Pager.PageSizes | explorer/src/qmdb.ts:184-203 | a page has ten rows or all that remain, and gives a cursor iff more than ten remain |
| Pager.NewestFirst | explorer/src/qmdb.ts:643-646 | listings run from newer to older blocks, from later to earlier transactions, receiver before sender |
| Pager.PagesListEverything | explorer/src/qmdb.ts:613-650 | following the cursors terminates and lists every matching row once, newest first |
| Pager.PagingWhileGrowing | explorer/src/qmdb.ts:184-203 | with rows arriving anywhere between any pages, following the cursors ends; each page shows rows of the table of its time, the listing is in order without repeats and has every row there at the start, and no others iff none arrives below a cursor in use |
| Pager.PagingListsStart | explorer/src/qmdb.ts:734-747 | the listing of any such sequence of pages is strictly descending and contains every row there at the start |
| Pager.PagingExactIff | explorer/src/qmdb.ts:734-747 | the listing is exactly the rows there at the start iff no matching row arrives below a cursor in use |
| Pager.LateRowIsListed | crates/indexer/src/publisher/qmdb.rs:786-841 | a row that lands below all others after a full first page is listed |
| Pager.LateRowRun | crates/indexer/src/publisher/qmdb.rs:786-841 | such a run with eleven rows and a late one |
| Pager.ChainPositionsUnique | crates/indexer/src/publisher/block.rs:92-145 | no two activity rows of an accepted chain share height, index and role |
| Pager.AnswerExists | explorer/src/qmdb.ts:613-650 | every set of rows at different positions has an answer to every query |
| Pager.ServiceExists | explorer/src/qmdb.ts:613-650 | every table with different positions per account has a service that answers all queries |
| Explorer.PagingListsAcked | explorer/src/qmdb.ts:184-203 | along any run of the pipeline, paging an account ends and lists, in order and once, every transfer it sent or received in a block acknowledged when it began, and only its own transfers |
| Explorer.PagingShowsTransfers | explorer/src/qmdb.ts:613-650 | over the landed blocks of an accepted chain, mode Sent lists exactly the transfers the account sent, Received those it got from others, All both |
| Explorer.StoredShows | explorer/src/qmdb.ts:722-726 | the matching rows of the Store are exactly the account's transfers in the blocks that have landed |
| BlockSequence.BlockSequenceCursor.RememberHeight | explorer/src/blockSequence.ts:84-95 | set and list stay the heights remembered last, oldest dropped first |
| BlockSequence.BlockSequenceCursor.AddIfNew | explorer/src/blockSequence.ts:68-82 | hands a block out exactly if its height is not remembered |
| BlockSequence.BlockSequenceCursor.CollectLiveBlocks | explorer/src/blockSequence.ts:25-41 | hands out exactly the streamed blocks whose heights are not remembered, in order |
| BlockSequence.BlockSequenceCursor.CollectNewBlocks | explorer/src/blockSequence.ts:43-66 | the same, with the fetched blocks of a gap first; a rejected fetch ends the call, which then hands out nothing but keeps what it remembered |
| BlockSequence.LiveKeepsSpaced | explorer/src/blockSequence.ts:25-41 | equal heights are remembered, and so handed out, more than the memory's size apart |
| BlockSequence.LiveLatestIsHighest | explorer/src/blockSequence.ts:25-41 | after live calls the latest height is the highest one streamed |
| BlockSequence.NewKeepsSpaced | explorer/src/blockSequence.ts:43-66 | equal heights are remembered more than the memory's size apart, whatever the fetches return or reject |
| BlockSequence.LosesNothingIff | explorer/src/blockSequence.ts:43-66 | a call hands out exactly what it remembered iff no fetch it comes to is rejected or the rejected one is for its first unseen block |
| BlockSequence.ReturnedIsMemoryIff | explorer/src/blockSequence.ts:25-66 | over any list of live and gap-filling calls, what they hand out, joined, is what the memory took in iff every gap-filling call loses nothing |
| BlockSequence.ReturnedSpaced | explorer/src/blockSequence.ts:25-66 | then equal heights are handed out more than the memory's size apart, over the whole list |
| BlockSequence.RejectionRepeats | explorer/src/blockSequence.ts:43-66 | a run with a rejected fetch that hands one block out twice in a row |
| BlockSequence.ForgottenRun | explorer/src/blockSequence.ts:80-95 | a run that hands a height out again once it has left the memory |
| BlockSequence.RepeatsOnceForgotten | explorer/src/blockSequence.ts:80-95 | a height already handed out is handed out again exactly if it has left the memory |
| BlockSequence.NewFillsGaps | explorer/src/blockSequence.ts:43-66 | a rising stream with holes comes out as every height, once and in order, if the store answers every gap with its blocks |

## Left out

- Signature checks, timestamps and the simplex consensus protocol: `Chain.Accepted` covers decoding, execution and transaction ranges of a child.
- Merkle roots, block digests and the SQL columns that hold them, and the constant `view` column: they come from libraries outside the repository or carry nothing.
- The state log's own contents: only its length and the operations at given locations matter here, so that every block advances it is a premise (`Uploads.StateRanged`).
- Bootstrapping an empty cursor from the remote Store, and blocks delivered again after the cursor passed them.
- Bounds on commits in flight and on channels: the model allows any number, so its safety results cover every bound; the runs of the progress results read an entry only when nothing is underway.
- The order in which concurrent batches overwrite `account_meta`: rows are shown right for their location, not newest.
- Publisher.FinalizedUploadProducer.Enqueue: one attempt that either fails or completes, without the retry loop and the bootstrap branch; the crash between enqueueing and persisting the cursor is in `Pipeline`, where they are two steps, and the retry after an error in `AmbiguousEnqueue`.
- Chain.ValidChainIsRanged: does not speak of roots and the state range that `commitments_match` compares, because they come from the state database, which is outside the model.
- Consensus.ProposedBlockIsAccepted: does not speak of roots, signatures and timestamps, for the same reason.
- Two callers of the lazy publisher connecting at the same time: the second caller exists only in the bootstrap branch.
- Codec.LazySignedTransaction.Get: the cache is filled once; concurrent callers are not modelled.
- The varint library behind the lazy wrapper's length prefix: modelled as canonical little-endian base 128 in at most five bytes.
- The validator's encoders write to byte strings rather than to a growing buffer.
- The wallet's key compression, DER parsing and signature normalisation: curve arithmetic on bytes whose validity is a parameter here. Batches of transactions it submits are left out too.
- `header_range_to_target`, certificate upload, the relayer, the mempool, the spammer, deployment, the user interface and metrics: they would add only easy members.
