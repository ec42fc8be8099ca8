/** Finalized-block uploads: what is captured in the durable queue, and what the publisher derives from it. */
module Uploads {
  import opened Bits
  import opened Wrappers
  import opened Bytes
  import opened Nonces
  import opened Ledger
  import opened History
  import opened Chain
  import opened Rows

  /** The next state and transaction locations, captured together from one finalized block. */
  datatype Cursor = Cursor(stateNext: nat, transactionNext: nat)

  datatype PublishError =
    | StoreEmptyPastGenesis(height: nat)
    | WriterOutOfSync(writerNext: nat, blockStart: nat)
    | EmptyBatch

  datatype StateOp<V> = Update(key: AccountKey, value: V) | Delete(key: AccountKey) | CommitFloor(meta: Option<V>, floor: nat)

  function EncodeAccount(a: Account): (bytes: seq<Byte>)
    ensures |bytes| == 24
  {
    BeBytes(a.balance, 8) + BeBytes(a.nonce.base, 8) + BeBytes(a.nonce.bitmap, 8)
  }

  function EncodeAccountOperation(op: StateOp<Account>): StateOp<seq<Byte>> {
    match op
    case Update(key, account) => Update(key, EncodeAccount(account))
    case Delete(key) => Delete(key)
    case CommitFloor(None, floor) => CommitFloor(None, floor)
    case CommitFloor(Some(account), floor) => CommitFloor(Some(EncodeAccount(account)), floor)
  }

  datatype QueuedUpload = QueuedUpload(
    block: Block, finalizedTs: int, stateStart: nat, transactionStart: nat, stateDelta: seq<StateOp<seq<Byte>>>)
  {
    function StateEnd(): nat {
      block.header.stateEnd
    }
  }

  /** Operations a block contributes: its appends and commit, and the genesis commit if the writer is empty. */
  function OpCount(writerNext: nat, transactions: nat): nat {
    transactions + 1 + (if writerNext == 0 then 1 else 0)
  }

  /** The block's range has room for what it contributes; the source panics otherwise. */
  predicate HoldsBatch(writerNext: nat, block: Block) {
    (writerNext == 0 && block.header.height > 1) || block.header.transactionsEnd >= OpCount(writerNext, |block.body|)
  }

  function TransactionUploadEnd(writerNext: nat, block: Block): Result<nat, PublishError>
    requires HoldsBatch(writerNext, block)
  {
    if writerNext == 0 && block.header.height > 1 then Err(StoreEmptyPastGenesis(block.header.height))
    else
      var opCount := OpCount(writerNext, |block.body|);
      var blockStart := block.header.transactionsEnd - opCount;
      if writerNext != blockStart then Err(WriterOutOfSync(writerNext, blockStart))
      else Ok(writerNext + opCount)
  }

  function ValidateWriterRange(writerNext: nat, blockEnd: nat, height: nat): Result<(), PublishError> {
    if writerNext == 0 && height > 1 then Err(StoreEmptyPastGenesis(height))
    else if writerNext > blockEnd then Err(WriterOutOfSync(writerNext, blockEnd))
    else Ok(())
  }

  /** The operations at `start..end` of the local state log, re-encoded. */
  function LoadStateOps(stateLog: seq<StateOp<Account>>, start: nat, end: nat): Result<seq<StateOp<seq<Byte>>>, PublishError>
    requires end <= |stateLog|
  {
    if end <= start then Err(EmptyBatch)
    else Ok(seq(end - start, i requires 0 <= i < end - start => EncodeAccountOperation(stateLog[start + i])))
  }

  /** `build_queued_finalized_upload_with_context` */
  function BuildQueuedUpload(cursor: Cursor, block: Block, stateLog: seq<StateOp<Account>>, now: int): Result<QueuedUpload, PublishError>
    requires HoldsBatch(cursor.transactionNext, block) && block.header.stateEnd <= |stateLog|
  {
    var range := ValidateWriterRange(cursor.stateNext, block.header.stateEnd, block.header.height);
    if range.Err? then Err(range.error)
    else
      var end := TransactionUploadEnd(cursor.transactionNext, block);
      if end.Err? then Err(end.error)
      else
        var delta := LoadStateOps(stateLog, cursor.stateNext, block.header.stateEnd);
        if delta.Err? then Err(delta.error)
        else Ok(QueuedUpload(block, now, cursor.stateNext, cursor.transactionNext, delta.value))
  }

  /** The operations an upload appends to the remote transaction log. */
  function UploadOps(block: Block, writerNext: nat, digests: seq<seq<Byte>>): seq<TransactionOp> {
    (if writerNext == 0 then [Commit(0)] else []) + BatchOps(digests, block.header.transactionsStart)
  }

  /** `transaction_ops_from_digests`: accepted exactly when the operations end where the block's range ends. */
  method TransactionOpsFromDigests(block: Block, writerNext: nat, digests: seq<seq<Byte>>)
      returns (r: Result<seq<TransactionOp>, PublishError>)
    requires block.header.transactionsEnd >= OpCount(writerNext, |digests|)
    ensures var ops := UploadOps(block, writerNext, digests);
            var start := block.header.transactionsEnd - |ops|;
            r == if writerNext + |ops| == block.header.transactionsEnd then Ok(ops) else Err(WriterOutOfSync(writerNext, start))
  {
    var ops: seq<TransactionOp> := [];
    if writerNext == 0 {
      ops := ops + [Commit(0)];
    }
    ghost var first := ops;
    for i := 0 to |digests|
      invariant ops == first + Appends(digests[..i])
    {
      assert digests[..i + 1] == digests[..i] + [digests[i]];
      ops := ops + [Append(digests[i])];
    }
    assert digests[..|digests|] == digests;
    ops := ops + [Commit(block.header.transactionsStart)];
    assert ops == UploadOps(block, writerNext, digests);
    var blockStart := block.header.transactionsEnd - |ops|;
    if writerNext != blockStart {
      return Err(WriterOutOfSync(writerNext, blockStart));
    }
    return Ok(ops);
  }

  /** The `account_meta` row of one operation. */
  function AccountRow(op: StateOp<seq<Byte>>, location: nat): Option<SqlRow> {
    if op.Update? && |op.value| == 24
    then Some(AccountMeta(op.key, BeValue(op.value[..8]), BeValue(op.value[8..16]), BeValue(op.value[16..24]), location))
    else None
  }

  /** Rows for the updates among the first `k` operations. */
  function AccountRowsUpTo(delta: seq<StateOp<seq<Byte>>>, start: nat, k: nat): seq<SqlRow>
    requires k <= |delta|
  {
    if k == 0 then []
    else
      var row := AccountRow(delta[k - 1], start + (k - 1));
      AccountRowsUpTo(delta, start, k - 1) + (if row.None? then [] else [row.value])
  }

  predicate FixedWidth(delta: seq<StateOp<seq<Byte>>>) {
    forall op | op in delta && op.Update? :: |op.value| == 24
  }

  /** `account_rows` */
  method AccountRows(delta: seq<StateOp<seq<Byte>>>, startLocation: nat) returns (rows: seq<SqlRow>)
    requires FixedWidth(delta)
    ensures rows == AccountRowsUpTo(delta, startLocation, |delta|)
  {
    rows := [];
    for offset := 0 to |delta|
      invariant rows == AccountRowsUpTo(delta, startLocation, offset)
    {
      match delta[offset] {
        case Update(key, value) =>
          assert delta[offset] in delta;
          rows := rows + [AccountMeta(key, BeValue(value[..8]), BeValue(value[8..16]), BeValue(value[16..24]),
                                      startLocation + offset)];
        case _ =>
      }
    }
  }

  datatype ExpandedUpload = ExpandedUpload(sql: seq<SqlRow>, ops: seq<TransactionOp>, stateDelta: seq<StateOp<seq<Byte>>>)

  /** A queued upload whose transaction cursor was checked when it was built. */
  predicate Queued(u: QueuedUpload) {
    HoldsBatch(u.transactionStart, u.block) && TransactionUploadEnd(u.transactionStart, u.block).Ok?
  }

  /** `expand_queued_finalized_upload`: succeeds exactly when no transaction of the block was skipped. */
  method ExpandQueuedUpload(env: Env, u: QueuedUpload) returns (r: Result<ExpandedUpload, PublishError>)
    requires Queued(u) && FixedWidth(u.stateDelta) && |u.block.body| <= 0x1_0000_0000
    ensures r.Ok? <==> |IndexBody(env, u.block.body)| == |u.block.body|
    ensures r.Ok? ==> r.value == ExpandedUpload(
                        BlockRows(env, u.block, u.finalizedTs) + AccountRowsUpTo(u.stateDelta, u.stateStart, |u.stateDelta|),
                        UploadOps(u.block, u.transactionStart, IndexedDigests(IndexBody(env, u.block.body))),
                        u.stateDelta)
  {
    SomesBound(Entries(env, u.block.body));
    var sql, digests := EncodeIndexedBlockRowsAt(env, u.block, u.finalizedTs);
    if u.transactionStart == 0 && u.block.header.height > 1 {
      return Err(StoreEmptyPastGenesis(u.block.header.height));
    }
    var ops := TransactionOpsFromDigests(u.block, u.transactionStart, digests);
    if ops.Err? {
      return Err(ops.error);
    }
    var rows := AccountRows(u.stateDelta, u.stateStart);
    return Ok(ExpandedUpload(sql + rows, ops.value, u.stateDelta));
  }

  // ----- Uploads along a chain -----

  /** Where the writers stand after block `i` was uploaded; nothing is uploaded for genesis alone. */
  function Frontier(blocks: seq<Block>, i: nat): Cursor
    requires i < |blocks|
  {
    if i == 0 then Cursor(0, 0) else Cursor(blocks[i].header.stateEnd, blocks[i].header.transactionsEnd)
  }

  /** Every block appends to the state log. */
  predicate StateRanged(blocks: seq<Block>, stateLog: seq<StateOp<Account>>) {
    && (forall i | 0 <= i < |blocks| :: blocks[i].header.stateEnd <= |stateLog|)
    && (forall i | 1 <= i < |blocks| :: blocks[i - 1].header.stateEnd < blocks[i].header.stateEnd)
  }

  lemma {:induction false} EndsPositive(blocks: seq<Block>, digests: seq<seq<seq<Byte>>>, i: nat)
    requires Ranged(blocks, digests) && i < |blocks|
    ensures blocks[i].header.transactionsEnd >= 1
    ensures i >= 1 ==> forall next: nat :: HoldsBatch(next, blocks[i])
  {
    if i > 0 {
      assert RangeFollows(blocks[i - 1], blocks[i]);
      EndsPositive(blocks, digests, i - 1);
    }
  }

  /** The frontiers of a chain start at zero and strictly increase in both components. */
  lemma {:induction false} FrontiersIncrease(blocks: seq<Block>, digests: seq<seq<seq<Byte>>>, stateLog: seq<StateOp<Account>>, i: nat)
    requires Ranged(blocks, digests) && StateRanged(blocks, stateLog) && 1 <= i < |blocks|
    ensures Frontier(blocks, i - 1).stateNext < Frontier(blocks, i).stateNext
    ensures Frontier(blocks, i - 1).transactionNext < Frontier(blocks, i).transactionNext
  {
    RangesAdvance(blocks, digests, i);
  }

  /**
   * Exactly when the producer can build block `i`'s upload: the transaction cursor is the end of the
   * previous block (or zero, or the bare genesis commit, for block 1) and state operations remain.
   */
  lemma {:induction false} BuildIff(blocks: seq<Block>, digests: seq<seq<seq<Byte>>>, stateLog: seq<StateOp<Account>>, i: nat, c: Cursor, now: int)
    requires Ranged(blocks, digests) && StateRanged(blocks, stateLog) && 1 <= i < |blocks|
    ensures HoldsBatch(c.transactionNext, blocks[i])
    ensures BuildQueuedUpload(c, blocks[i], stateLog, now).Ok? <==>
            && c.stateNext < blocks[i].header.stateEnd
            && (c.stateNext == 0 ==> i == 1)
            && (c.transactionNext == blocks[i - 1].header.transactionsEnd || (i == 1 && c.transactionNext == 0))
  {
    EndsPositive(blocks, digests, i);
    EndsPositive(blocks, digests, i - 1);
    HeightIsIndex(blocks, digests, i);
    assert RangeFollows(blocks[i - 1], blocks[i]);
    assert IsGenesis(blocks[0]);
    assert blocks[i].header.stateEnd <= |stateLog|;
  }

  /** The upload of block `i`, built at the frontier of block `i - 1`. */
  function UploadOf(blocks: seq<Block>, digests: seq<seq<seq<Byte>>>, stateLog: seq<StateOp<Account>>, i: nat, now: int): (u: QueuedUpload)
    requires Ranged(blocks, digests) && StateRanged(blocks, stateLog) && 1 <= i < |blocks|
    ensures HoldsBatch(Frontier(blocks, i - 1).transactionNext, blocks[i]) && BuildQueuedUpload(Frontier(blocks, i - 1), blocks[i], stateLog, now) == Ok(u)
    ensures Queued(u) && TransactionUploadEnd(u.transactionStart, u.block) == Ok(Frontier(blocks, i).transactionNext)
  {
    BuildIff(blocks, digests, stateLog, i, Frontier(blocks, i - 1), now);
    assert blocks[i - 1].header.stateEnd < blocks[i].header.stateEnd;
    assert i > 1 ==> blocks[i - 2].header.stateEnd < blocks[i - 1].header.stateEnd;
    BuildQueuedUpload(Frontier(blocks, i - 1), blocks[i], stateLog, now).value
  }

  /** The operations of the uploads of blocks `1..n`, concatenated. */
  function UploadedOps(blocks: seq<Block>, digests: seq<seq<seq<Byte>>>, n: nat): seq<TransactionOp>
    requires |digests| == |blocks| && n < |blocks|
  {
    if n == 0 then []
    else UploadedOps(blocks, digests, n - 1) + UploadOps(blocks[n], Frontier(blocks, n - 1).transactionNext, digests[n])
  }

  /** The uploads spell the application's own log, operation by operation. */
  lemma {:induction false} UploadsSpellLog(blocks: seq<Block>, digests: seq<seq<seq<Byte>>>, n: nat)
    requires Ranged(blocks, digests) && 1 <= n < |blocks|
    ensures UploadedOps(blocks, digests, n) == ApplicationLog(blocks, digests, n)
  {
    ApplyRepeatsVerify(blocks, digests, n);
    var batch := BatchOps(digests[n], blocks[n].header.transactionsStart);
    if n == 1 {
      assert UploadedOps(blocks, digests, 0) == [];
      assert UploadedOps(blocks, digests, 1) == [Commit(0)] + batch;
      assert ApplicationLog(blocks, digests, 0) == [Commit(0)];
    } else {
      UploadsSpellLog(blocks, digests, n - 1);
      EndsPositive(blocks, digests, n - 1);
      assert UploadOps(blocks[n], Frontier(blocks, n - 1).transactionNext, digests[n]) == batch;
    }
  }

  /** The transaction operations `ExpandQueuedUpload` yields for blocks `1..n`, concatenated. */
  function ExpandedOps(env: Env, blocks: seq<Block>, n: nat): seq<TransactionOp>
    requires n < |blocks|
  {
    if n == 0 then []
    else
      ExpandedOps(env, blocks, n - 1)
      + UploadOps(blocks[n], Frontier(blocks, n - 1).transactionNext, IndexedDigests(IndexBody(env, blocks[n].body)))
  }

  lemma {:induction false} ExpandedOpsAreUploaded(env: Env, blocks: seq<Block>, digests: seq<seq<seq<Byte>>>, n: nat)
    requires n < |blocks| == |digests|
    requires forall i | 1 <= i <= n :: IndexedDigests(IndexBody(env, blocks[i].body)) == digests[i]
    ensures ExpandedOps(env, blocks, n) == UploadedOps(blocks, digests, n)
  {
    if n > 0 { ExpandedOpsAreUploaded(env, blocks, digests, n - 1); }
  }

  /** The indexer skips nothing of an accepted chain and extracts the digests the application appended. */
  lemma {:induction false} NothingSkippedInChain(env: Env, db: Database, blocks: seq<Block>, n: nat)
    requires ValidChain(env, db, blocks) && n < |blocks|
    ensures Ranged(blocks, ChainDigests(env, blocks))
    ensures |IndexBody(env, blocks[n].body)| == |blocks[n].body|
    ensures IndexedDigests(IndexBody(env, blocks[n].body)) == ChainDigests(env, blocks)[n]
  {
    ValidChainIsRanged(env, db, blocks);
    NothingSkipped(env, blocks[n].body);
  }

  /** What the indexer expands from the uploads of an accepted chain is the application's log, operation by operation. */
  lemma {:induction false} ExpandedUploadsSpellLog(env: Env, db: Database, blocks: seq<Block>, n: nat)
    requires ValidChain(env, db, blocks) && 1 <= n < |blocks|
    ensures Ranged(blocks, ChainDigests(env, blocks))
    ensures ExpandedOps(env, blocks, n) == ApplicationLog(blocks, ChainDigests(env, blocks), n)
  {
    ValidChainIsRanged(env, db, blocks);
    forall i | 1 <= i <= n ensures IndexedDigests(IndexBody(env, blocks[i].body)) == ChainDigests(env, blocks)[i] {
      NothingSkippedInChain(env, db, blocks, i);
    }
    ExpandedOpsAreUploaded(env, blocks, ChainDigests(env, blocks), n);
    UploadsSpellLog(blocks, ChainDigests(env, blocks), n);
  }

  lemma {:induction false} MetaRowsAreBodyRows(env: Env, block: Block, ts: int, row: SqlRow)
    requires row in BlockRows(env, block, ts) && row.TxMeta?
    ensures var ixs := IndexBody(env, block.body);
            block.header.transactionsEnd > |ixs| && row in BodyRows(block.header.height, block.header.transactionsEnd - (|ixs| + 1), ixs, |ixs|)
  {}

  /** A `tx_meta` row of block `i` cites the location that holds exactly that append, then and ever after. */
  lemma {:induction false} BodyRowsCiteLog(
      blocks: seq<Block>, digests: seq<seq<seq<Byte>>>, i: nat, n: nat, ixs: seq<IndexedTransaction>, height: nat, row: SqlRow)
    requires Ranged(blocks, digests) && 1 <= i <= n < |blocks| && IndexedDigests(ixs) == digests[i]
    requires row in BodyRows(height, blocks[i - 1].header.transactionsEnd, ixs, |ixs|) && row.TxMeta?
    ensures var log := ApplicationLog(blocks, digests, n);
            row.location < |log| && log[row.location] == Append(row.digest)
  {
    var start := blocks[i - 1].header.transactionsEnd;
    MetaRowsCiteAppends(height, start, ixs, |ixs|, row);
    LocateAppend(blocks, digests, i, n, row.location - start);
  }

  lemma {:induction false} BatchFollowsParent(blocks: seq<Block>, digests: seq<seq<seq<Byte>>>, i: nat)
    requires Ranged(blocks, digests) && 1 <= i < |blocks|
    ensures blocks[i].header.transactionsEnd - (|digests[i]| + 1) == blocks[i - 1].header.transactionsEnd
  {
    assert RangeFollows(blocks[i - 1], blocks[i]);
  }

  /** Every `tx_meta` row of a block with no skipped transaction cites a location of the log that holds exactly that append. */
  lemma {:induction false} MetaRowsCiteLog(
      env: Env, blocks: seq<Block>, digests: seq<seq<seq<Byte>>>, i: nat, n: nat, ts: int, row: SqlRow)
    requires Ranged(blocks, digests) && 1 <= i <= n < |blocks|
    requires IndexedDigests(IndexBody(env, blocks[i].body)) == digests[i]
    requires row in BlockRows(env, blocks[i], ts) && row.TxMeta?
    ensures var log := ApplicationLog(blocks, digests, n);
            row.location < |log| && log[row.location] == Append(row.digest)
  {
    MetaRowsAreBodyRows(env, blocks[i], ts, row);
    BatchFollowsParent(blocks, digests, i);
    BodyRowsCiteLog(blocks, digests, i, n, IndexBody(env, blocks[i].body), blocks[i].header.height, row);
  }

  /** Along every accepted chain, and for good: the log only grows. */
  lemma {:induction false} ChainMetaRowsCiteLog(env: Env, db: Database, blocks: seq<Block>, i: nat, n: nat, ts: int, row: SqlRow)
    requires ValidChain(env, db, blocks) && 1 <= i <= n < |blocks|
    requires row in BlockRows(env, blocks[i], ts) && row.TxMeta?
    ensures Ranged(blocks, ChainDigests(env, blocks))
    ensures var log := ApplicationLog(blocks, ChainDigests(env, blocks), n);
            row.location < |log| && log[row.location] == Append(row.digest)
  {
    NothingSkippedInChain(env, db, blocks, i);
    MetaRowsCiteLog(env, blocks, ChainDigests(env, blocks), i, n, ts, row);
  }

  /** Block `i`'s append `k` sits `k` places after the end of the previous block's range. */
  lemma {:induction false} LocateAppend(blocks: seq<Block>, digests: seq<seq<seq<Byte>>>, i: nat, n: nat, k: nat)
    requires Ranged(blocks, digests) && 1 <= i <= n < |blocks| && k < |digests[i]|
    ensures var log := ApplicationLog(blocks, digests, n);
            var at := blocks[i - 1].header.transactionsEnd + k;
            at < |log| && log[at] == Append(digests[i][k])
  {
    ApplyRepeatsVerify(blocks, digests, i);
    LogEndsAtRange(blocks, digests, i - 1);
    LogGrows(blocks, digests, i, n);
    var log := ApplicationLog(blocks, digests, i);
    var at := blocks[i - 1].header.transactionsEnd + k;
    assert log[at] == BatchOps(digests[i], blocks[i].header.transactionsStart)[k];
  }

  predicate AccountInRange(a: Account) {
    a.balance <= U64_MAX && a.nonce.InRange()
  }

  lemma {:induction false} AccountValueReadsBack(a: Account)
    requires AccountInRange(a)
    ensures var v := EncodeAccount(a);
            BeValue(v[..8]) == a.balance && BeValue(v[8..16]) == a.nonce.base && BeValue(v[16..24]) == a.nonce.bitmap
  {
    var v := EncodeAccount(a);
    WordSizes();
    BeValueOfBytes(a.balance, 8);
    BeValueOfBytes(a.nonce.base, 8);
    BeValueOfBytes(a.nonce.bitmap, 8);
    assert v[..8] == BeBytes(a.balance, 8);
    assert v[8..16] == BeBytes(a.nonce.base, 8);
    assert v[16..24] == BeBytes(a.nonce.bitmap, 8);
  }

  lemma {:induction false} AccountRowReadsBack(op: StateOp<Account>, location: nat)
    requires op.Update? ==> AccountInRange(op.value)
    ensures AccountRow(EncodeAccountOperation(op), location) ==
            if op.Update? then Some(AccountMeta(op.key, op.value.balance, op.value.nonce.base, op.value.nonce.bitmap, location))
            else None
  {
    match op {
      case Update(_, account) => AccountValueReadsBack(account);
      case Delete(_) =>
      case CommitFloor(_, _) =>
    }
  }

  /** A row is listed exactly when some update among the first `k` operations produces it. */
  lemma {:induction false} AccountRowsExact(delta: seq<StateOp<seq<Byte>>>, start: nat, k: nat, row: SqlRow)
    requires k <= |delta|
    ensures row in AccountRowsUpTo(delta, start, k) <==>
            exists j :: 0 <= j < k && AccountRow(delta[j], start + j) == Some(row)
  {
    if k > 0 {
      AccountRowsExact(delta, start, k - 1, row);
      var last := AccountRow(delta[k - 1], start + (k - 1));
      if last == Some(row) {
        assert row in [row];
      }
    }
  }

  /**
   * The `account_meta` rows of a delta captured at `start..end` are the updates of that stretch of
   * the state log: each row cites the location of an update and carries exactly that account.
   */
  lemma {:induction false} AccountRowsCiteLog(stateLog: seq<StateOp<Account>>, start: nat, end: nat, row: SqlRow)
    requires start < end <= |stateLog|
    requires forall op | op in stateLog && op.Update? :: AccountInRange(op.value)
    ensures var delta := LoadStateOps(stateLog, start, end).value;
            row in AccountRowsUpTo(delta, start, |delta|) <==>
            && row.AccountMeta? && start <= row.stateLocation < end
            && stateLog[row.stateLocation] ==
               Update(row.key, Account(row.balance, Nonce(row.nonceBase, row.nonceBitmap)))
  {
    var delta := LoadStateOps(stateLog, start, end).value;
    AccountRowsExact(delta, start, |delta|, row);
    forall j | 0 <= j < |delta|
      ensures var op := stateLog[start + j];
              AccountRow(delta[j], start + j) ==
              if op.Update? then Some(AccountMeta(op.key, op.value.balance, op.value.nonce.base, op.value.nonce.bitmap, start + j))
              else None
    {
      assert stateLog[start + j] in stateLog;
      AccountRowReadsBack(stateLog[start + j], start + j);
    }
    if row.AccountMeta? && start <= row.stateLocation < end {
      var j := row.stateLocation - start;
      assert AccountRow(delta[j], start + j) == Some(row) <==>
             stateLog[row.stateLocation] == Update(row.key, Account(row.balance, Nonce(row.nonceBase, row.nonceBitmap)));
    }
  }

  // ----- The state log -----

  /** The account an uploaded value stands for. */
  function DecodeAccount(v: seq<Byte>): Account
    requires |v| == 24
  {
    Account(BeValue(v[..8]), Nonce(BeValue(v[8..16]), BeValue(v[16..24])))
  }

  /** Every account value in the operation is 24 bytes. */
  predicate HoldsAccounts(op: StateOp<seq<Byte>>) {
    match op
    case Update(_, v) => |v| == 24
    case Delete(_) => true
    case CommitFloor(meta, _) => meta.Some? ==> |meta.value| == 24
  }

  function DecodeAccountOperation(op: StateOp<seq<Byte>>): StateOp<Account>
    requires HoldsAccounts(op)
  {
    match op
    case Update(k, v) => Update(k, DecodeAccount(v))
    case Delete(k) => Delete(k)
    case CommitFloor(meta, floor) => CommitFloor(if meta.None? then None else Some(DecodeAccount(meta.value)), floor)
  }

  predicate OperationInRange(op: StateOp<Account>) {
    match op
    case Update(_, account) => AccountInRange(account)
    case Delete(_) => true
    case CommitFloor(meta, _) => meta.Some? ==> AccountInRange(meta.value)
  }

  lemma {:induction false} OperationReadsBack(op: StateOp<Account>)
    requires OperationInRange(op)
    ensures HoldsAccounts(EncodeAccountOperation(op)) && DecodeAccountOperation(EncodeAccountOperation(op)) == op
  {
    match op {
      case Update(_, account) => AccountValueReadsBack(account);
      case Delete(_) =>
      case CommitFloor(meta, _) => if meta.Some? { AccountValueReadsBack(meta.value); }
    }
  }

  /** The state operations of the uploads of blocks `1..n`, concatenated. */
  function UploadedStateOps(
      blocks: seq<Block>, digests: seq<seq<seq<Byte>>>, stateLog: seq<StateOp<Account>>, n: nat, now: int): seq<StateOp<seq<Byte>>>
    requires Ranged(blocks, digests) && StateRanged(blocks, stateLog) && n < |blocks|
  {
    if n == 0 then []
    else UploadedStateOps(blocks, digests, stateLog, n - 1, now) + UploadOf(blocks, digests, stateLog, n, now).stateDelta
  }

  /** They are the local state log up to the block's end, every operation re-encoded and none missing. */
  lemma {:induction false} StateUploadsSpellLog(
      blocks: seq<Block>, digests: seq<seq<seq<Byte>>>, stateLog: seq<StateOp<Account>>, n: nat, now: int)
    requires Ranged(blocks, digests) && StateRanged(blocks, stateLog) && n < |blocks|
    ensures var ops := UploadedStateOps(blocks, digests, stateLog, n, now);
            && |ops| == Frontier(blocks, n).stateNext <= |stateLog|
            && forall j | 0 <= j < |ops| :: ops[j] == EncodeAccountOperation(stateLog[j])
  {
    if n > 0 {
      StateUploadsSpellLog(blocks, digests, stateLog, n - 1, now);
      FrontiersIncrease(blocks, digests, stateLog, n);
      var start, end := Frontier(blocks, n - 1).stateNext, blocks[n].header.stateEnd;
      assert UploadOf(blocks, digests, stateLog, n, now).stateDelta == LoadStateOps(stateLog, start, end).value;
    }
  }

  /** So a reader of the uploads has the local state log itself. */
  lemma {:induction false} StateUploadsReadBack(
      blocks: seq<Block>, digests: seq<seq<seq<Byte>>>, stateLog: seq<StateOp<Account>>, n: nat, now: int, j: nat)
    requires Ranged(blocks, digests) && StateRanged(blocks, stateLog) && n < |blocks| && j < Frontier(blocks, n).stateNext
    requires forall op | op in stateLog :: OperationInRange(op)
    ensures var ops := UploadedStateOps(blocks, digests, stateLog, n, now);
            && j < |ops| && j < |stateLog| && HoldsAccounts(ops[j])
            && DecodeAccountOperation(ops[j]) == stateLog[j]
  {
    StateUploadsSpellLog(blocks, digests, stateLog, n, now);
    assert stateLog[j] in stateLog;
    OperationReadsBack(stateLog[j]);
  }

  /** An empty cursor past the first block is reported as an empty Store, whichever half is empty first. */
  lemma {:induction false} EmptyCursorIsReported(block: Block, cursor: Cursor, stateLog: seq<StateOp<Account>>, now: int)
    requires HoldsBatch(cursor.transactionNext, block) && block.header.stateEnd <= |stateLog|
    requires block.header.height > 1 && (cursor.stateNext == 0 || (cursor.stateNext <= block.header.stateEnd && cursor.transactionNext == 0))
    ensures BuildQueuedUpload(cursor, block, stateLog, now) == Err(StoreEmptyPastGenesis(block.header.height))
  {
  }

  /** A cursor at the wrong place is reported with that place and the end of the previous block. */
  lemma {:induction false} WrongCursorIsReported(
      blocks: seq<Block>, digests: seq<seq<seq<Byte>>>, stateLog: seq<StateOp<Account>>, i: nat, c: Cursor, now: int)
    requires Ranged(blocks, digests) && StateRanged(blocks, stateLog) && 1 <= i < |blocks|
    requires 0 < c.stateNext <= blocks[i].header.stateEnd && c.transactionNext != 0
    requires c.transactionNext != blocks[i - 1].header.transactionsEnd
    ensures HoldsBatch(c.transactionNext, blocks[i])
    ensures BuildQueuedUpload(c, blocks[i], stateLog, now)
         == Err(WriterOutOfSync(c.transactionNext, blocks[i - 1].header.transactionsEnd))
  {
    EndsPositive(blocks, digests, i);
    assert RangeFollows(blocks[i - 1], blocks[i]);
  }
}
