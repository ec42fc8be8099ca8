/** The pipeline run over a chain: what an acknowledged upload means for a reader of the Store. */
module Indexer {
  import opened Bytes
  import opened Nonces
  import opened Ledger
  import opened History
  import opened Chain
  import opened Rows
  import opened Uploads
  import Publisher
  import Pipeline

  /** The upload boundaries of a chain. */
  function ChainFrontiers(blocks: seq<Block>): seq<Cursor> {
    seq(|blocks|, i requires 0 <= i < |blocks| => Frontier(blocks, i))
  }

  lemma {:induction false} FrontierBelow(blocks: seq<Block>, digests: seq<seq<seq<Byte>>>, stateLog: seq<StateOp<Account>>, i: nat, j: nat)
    requires Ranged(blocks, digests) && StateRanged(blocks, stateLog) && i < j < |blocks|
    ensures Frontier(blocks, i).stateNext < Frontier(blocks, j).stateNext
    ensures Frontier(blocks, i).transactionNext < Frontier(blocks, j).transactionNext
  {
    FrontiersIncrease(blocks, digests, stateLog, j);
    if i < j - 1 { FrontierBelow(blocks, digests, stateLog, i, j - 1); }
  }

  /** Every chain gives the pipeline boundaries that increase in both logs. */
  lemma {:induction false} ChainHasFrontiers(blocks: seq<Block>, digests: seq<seq<seq<Byte>>>, stateLog: seq<StateOp<Account>>)
    requires Ranged(blocks, digests) && StateRanged(blocks, stateLog)
    ensures Pipeline.Frontiers(ChainFrontiers(blocks))
  {
    forall i, j | 0 <= i < j < |blocks|
      ensures Frontier(blocks, i).stateNext < Frontier(blocks, j).stateNext
      ensures Frontier(blocks, i).transactionNext < Frontier(blocks, j).transactionNext
    {
      FrontierBelow(blocks, digests, stateLog, i, j);
    }
  }

  /**
   * The pipeline's `Enqueue` step is the producer's: standing at frontier `k` it can build the upload of block `i`
   * exactly if block `i` is the next one, and that upload spans the two frontiers.
   */
  lemma {:induction false} ProducerBuildsNext(
      blocks: seq<Block>, digests: seq<seq<seq<Byte>>>, stateLog: seq<StateOp<Account>>, k: nat, i: nat, now: int)
    requires Ranged(blocks, digests) && StateRanged(blocks, stateLog) && k < |blocks| && 1 <= i < |blocks|
    ensures HoldsBatch(Frontier(blocks, k).transactionNext, blocks[i])
    ensures var built := BuildQueuedUpload(Frontier(blocks, k), blocks[i], stateLog, now);
            && (built.Ok? <==> k == i - 1)
            && (built.Ok? ==>
                  && Queued(built.value)
                  && Publisher.UploadStart(built.value) == Frontier(blocks, i - 1)
                  && Publisher.UploadEnd(built.value) == Frontier(blocks, i))
  {
    BuildIff(blocks, digests, stateLog, i, Frontier(blocks, k), now);
    if k < i - 1 {
      FrontierBelow(blocks, digests, stateLog, k, i - 1);
    } else if k > i - 1 {
      if i < k { FrontierBelow(blocks, digests, stateLog, i, k); }
    } else {
      var u := UploadOf(blocks, digests, stateLog, i, now);
    }
  }

  /**
   * Once an entry is acknowledged, every `tx_meta` row of its block cites a location at or below the published
   * transaction watermark, and the application's log holds that very digest there.
   */
  lemma {:induction false} AckedRowsAreProvable(
      env: Env, db: Database, blocks: seq<Block>, stateLog: seq<StateOp<Account>>, s: Pipeline.State, p: nat, ts: int, row: SqlRow)
    requires ValidChain(env, db, blocks) && StateRanged(blocks, stateLog)
    requires Pipeline.Reachable(ChainFrontiers(blocks), s) && p in Pipeline.Acked(s) && p < |s.durable.queue|
    requires var i := s.durable.queue[p];
             1 <= i < |blocks| && row in BlockRows(env, blocks[i], ts) && row.TxMeta?
    ensures Ranged(blocks, ChainDigests(env, blocks))
    ensures var f, i := ChainFrontiers(blocks), s.durable.queue[p];
            && s.store.watermark < |f|
            && Pipeline.TransactionWatermark(f, s.store.watermark).Some?
            && row.location <= Pipeline.TransactionWatermark(f, s.store.watermark).value
            && var log := ApplicationLog(blocks, ChainDigests(env, blocks), i);
               row.location < |log| && log[row.location] == Append(row.digest)
  {
    var f, i := ChainFrontiers(blocks), s.durable.queue[p];
    Pipeline.AckedIsVisible(f, s, p);
    ChainMetaRowsCiteLog(env, db, blocks, i, i, ts, row);
    LogEndsAtRange(blocks, ChainDigests(env, blocks), i);
    assert f[i] == Frontier(blocks, i);
  }

  /** The same for accounts: every `account_meta` row of an acknowledged block cites a published update with its values. */
  lemma {:induction false} AckedAccountRowsAreProvable(
      blocks: seq<Block>, digests: seq<seq<seq<Byte>>>, stateLog: seq<StateOp<Account>>, s: Pipeline.State, p: nat, now: int, row: SqlRow)
    requires Ranged(blocks, digests) && StateRanged(blocks, stateLog)
    requires forall op | op in stateLog && op.Update? :: AccountInRange(op.value)
    requires Pipeline.Reachable(ChainFrontiers(blocks), s) && p in Pipeline.Acked(s) && p < |s.durable.queue|
    requires var i := s.durable.queue[p];
             && 1 <= i < |blocks|
             && var u := UploadOf(blocks, digests, stateLog, i, now);
                row in AccountRowsUpTo(u.stateDelta, u.stateStart, |u.stateDelta|)
    ensures var f := ChainFrontiers(blocks);
            && s.store.watermark < |f|
            && Pipeline.StateWatermark(f, s.store.watermark).Some?
            && row.AccountMeta? && row.stateLocation <= Pipeline.StateWatermark(f, s.store.watermark).value
            && row.stateLocation < |stateLog|
            && stateLog[row.stateLocation] == Update(row.key, Account(row.balance, Nonce(row.nonceBase, row.nonceBitmap)))
  {
    var f, i := ChainFrontiers(blocks), s.durable.queue[p];
    Pipeline.AckedIsVisible(f, s, p);
    var u := UploadOf(blocks, digests, stateLog, i, now);
    FrontierBelow(blocks, digests, stateLog, i - 1, i);
    AccountRowsCiteLog(stateLog, u.stateStart, blocks[i].header.stateEnd, row);
    assert f[i] == Frontier(blocks, i);
  }
}
