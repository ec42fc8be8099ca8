/** The SQL rows and digests derived from a finalized block. */
module Rows {
  import opened Wrappers
  import opened Bytes
  import opened Ledger
  import opened Codec
  import opened History
  import opened Chain

  datatype Role = Sender | Receiver

  datatype SqlRow =
    | BlockMeta(height: nat, txCount: nat, transactionsTip: int, finalizedTs: int)
    | TxMeta(digest: seq<Byte>, location: nat, body: seq<Byte>)
    | TxActivity(account: AccountKey, role: Role, blockHeight: nat, index: nat, txDigest: seq<Byte>,
                 counterparty: AccountKey, value: nat, nonce: nat)
    | AccountMeta(key: AccountKey, balance: nat, nonceBase: nat, nonceBitmap: nat, stateLocation: nat)

  datatype IndexedTransaction = IndexedTransaction(
    blockIndex: nat, digest: seq<Byte>, bytes: seq<Byte>, sender: AccountKey, to: AccountKey, value: nat, nonce: nat)

  /** `index_transaction`: fields are cut out of the encoded bytes; a truncated, senderless or zero-value entry is skipped. */
  function IndexTransaction(env: Env, blockIndex: nat, signed: seq<Byte>): Option<IndexedTransaction> {
    if |signed| < TRANSACTION_SIZE then None
    else
      var sender := AccountKeyFromPublicKeyBytes(env, signed[..34]);
      if sender.None? then None
      else
        var value := BeValue(signed[66..74]);
        if value == 0 then None
        else Some(IndexedTransaction(blockIndex, env.digest(signed[..82]), signed, sender.value,
                                     AccountKey(signed[34..66]), value, BeValue(signed[74..82])))
  }

  function Entries(env: Env, body: seq<seq<Byte>>): (es: seq<Option<IndexedTransaction>>)
    ensures |es| == |body| && forall i | 0 <= i < |body| :: es[i] == IndexTransaction(env, i, body[i])
  {
    seq(|body|, i requires 0 <= i < |body| => IndexTransaction(env, i, body[i]))
  }

  /** The body entries that were not skipped, in body order. */
  function IndexBody(env: Env, body: seq<seq<Byte>>): seq<IndexedTransaction> {
    Somes(Entries(env, body))
  }

  /** Whatever the application decodes and prepares, the indexer indexes, with the same digest and fields. */
  lemma {:induction false} IndexAgreesWithPrepare(env: Env, k: nat, bytes: seq<Byte>)
    requires PrepareEntry(env, bytes).Some?
    ensures var t := PrepareEntry(env, bytes).value;
            IndexTransaction(env, k, bytes) ==
            Some(IndexedTransaction(k, t.digest, bytes, t.sender, t.recipient, t.value, t.nonce))
  {
    var s := DecodeSigned(env.curves, bytes).value;
    var p := ParseTransaction(bytes).value;
    TransactionReencodes(bytes);
    TransactionRoundTrip(p.value, p.rest);
    assert bytes[..82] == p.value.Encode();
  }

  /** No transaction of an accepted body is skipped, and the digests are the ones the application appended. */
  lemma {:induction false} NothingSkipped(env: Env, body: seq<seq<Byte>>)
    requires PrepareBody(env, body).Some?
    ensures |IndexBody(env, body)| == |body|
    ensures IndexedDigests(IndexBody(env, body)) == BodyDigests(env, body)
  {
    var es := Entries(env, body);
    forall i | 0 <= i < |body|
      ensures es[i].Some? && es[i].value.digest == PrepareBody(env, body).value[i].digest
    {
      IndexAgreesWithPrepare(env, i, body[i]);
    }
    SomesBound(es);
  }

  function IndexedDigests(ixs: seq<IndexedTransaction>): (ds: seq<seq<Byte>>)
    ensures |ds| == |ixs| && forall i | 0 <= i < |ixs| :: ds[i] == ixs[i].digest
  {
    seq(|ixs|, i requires 0 <= i < |ixs| => ixs[i].digest)
  }

  /** The rows of one transaction: one `tx_meta`, one activity row per distinct account. */
  function TransactionRows(height: nat, location: nat, ix: IndexedTransaction): seq<SqlRow> {
    [TxMeta(ix.digest, location, ix.bytes),
     TxActivity(ix.sender, Sender, height, ix.blockIndex, ix.digest, ix.to, ix.value, ix.nonce)]
    + (if ix.to != ix.sender
       then [TxActivity(ix.to, Receiver, height, ix.blockIndex, ix.digest, ix.sender, ix.value, ix.nonce)]
       else [])
  }

  /** The rows of the first `k` indexed transactions; transaction `j` was appended at `start + j`. */
  function BodyRows(height: nat, start: nat, ixs: seq<IndexedTransaction>, k: nat): seq<SqlRow>
    requires k <= |ixs|
  {
    if k == 0 then [] else BodyRows(height, start, ixs, k - 1) + TransactionRows(height, start + (k - 1), ixs[k - 1])
  }

  /** All SQL rows of a block; none if its range has no room for its appends and commit, where the source panics. */
  function BlockRows(env: Env, block: Block, finalizedTs: int): seq<SqlRow> {
    var ixs := IndexBody(env, block.body);
    var end := block.header.transactionsEnd;
    if end <= |ixs| then []
    else
      [BlockMeta(block.header.height, |ixs|, end - 1, finalizedTs)]
      + BodyRows(block.header.height, end - (|ixs| + 1), ixs, |ixs|)
  }

  /** `encode_indexed_block_rows_at`; the requires are the conditions under which the source does not panic. */
  method EncodeIndexedBlockRowsAt(env: Env, block: Block, finalizedTs: int)
      returns (sql: seq<SqlRow>, digests: seq<seq<Byte>>)
    requires block.header.transactionsEnd > |IndexBody(env, block.body)|
    requires |block.body| <= 0x1_0000_0000
    ensures sql == BlockRows(env, block, finalizedTs)
    ensures digests == IndexedDigests(IndexBody(env, block.body))
  {
    var height := block.header.height;
    var indexed := IndexBody(env, block.body);
    var txCount := |indexed|;
    var appendStart := block.header.transactionsEnd - (txCount + 1);
    sql, digests := [], [];
    for i := 0 to |indexed|
      invariant sql == BodyRows(height, appendStart, indexed, i)
      invariant |digests| == i && forall j | 0 <= j < i :: digests[j] == indexed[j].digest
    {
      var tx := indexed[i];
      ghost var before := sql;
      digests := digests + [tx.digest];
      var location := appendStart + i;
      sql := sql + [TxMeta(tx.digest, location, tx.bytes)];
      sql := sql + [TxActivity(tx.sender, Sender, height, tx.blockIndex, tx.digest, tx.to, tx.value, tx.nonce)];
      if tx.to != tx.sender {
        sql := sql + [TxActivity(tx.to, Receiver, height, tx.blockIndex, tx.digest, tx.sender, tx.value, tx.nonce)];
      }
      assert sql == before + TransactionRows(height, location, tx);
    }
    sql := [BlockMeta(height, txCount, block.header.transactionsEnd - 1, finalizedTs)] + sql;
  }

  /** Every `tx_meta` row comes from one indexed transaction and cites the append of that transaction. */
  lemma {:induction false} MetaRowsCiteAppends(height: nat, start: nat, ixs: seq<IndexedTransaction>, k: nat, row: SqlRow)
    requires k <= |ixs| && row in BodyRows(height, start, ixs, k) && row.TxMeta?
    ensures start <= row.location < start + k
    ensures row.digest == ixs[row.location - start].digest && row.body == ixs[row.location - start].bytes
  {
    if row !in TransactionRows(height, start + (k - 1), ixs[k - 1]) {
      MetaRowsCiteAppends(height, start, ixs, k - 1, row);
    }
  }

  /** Every indexed transaction has its `tx_meta` row. */
  lemma {:induction false} AppendsHaveMetaRows(height: nat, start: nat, ixs: seq<IndexedTransaction>, k: nat, j: nat)
    requires j < k <= |ixs|
    ensures TxMeta(ixs[j].digest, start + j, ixs[j].bytes) in BodyRows(height, start, ixs, k)
  {
    if j < k - 1 {
      AppendsHaveMetaRows(height, start, ixs, k - 1, j);
    } else {
      assert TransactionRows(height, start + j, ixs[j])[0] in TransactionRows(height, start + j, ixs[j]);
    }
  }

  // ----- Both parties of every transfer -----

  /** How transfer `k` of the block at `height` appears to its sender. */
  function SenderRow(height: nat, k: nat, t: Transfer): SqlRow {
    TxActivity(t.sender, Sender, height, k, t.digest, t.recipient, t.value, t.nonce)
  }

  /** And to its recipient. */
  function ReceiverRow(height: nat, k: nat, t: Transfer): SqlRow {
    TxActivity(t.recipient, Receiver, height, k, t.digest, t.sender, t.value, t.nonce)
  }

  /** The row shows transfer `k` to one of its parties; a transfer to oneself is shown once, as sent. */
  predicate ShowsParty(height: nat, k: nat, t: Transfer, row: SqlRow) {
    row == SenderRow(height, k, t) || (t.sender != t.recipient && row == ReceiverRow(height, k, t))
  }

  /** The indexed transactions are the prepared transfers, at their places. */
  predicate Indexes(ixs: seq<IndexedTransaction>, ts: seq<Transfer>) {
    && |ixs| == |ts|
    && forall k | 0 <= k < |ixs| ::
         && ixs[k].blockIndex == k && ixs[k].digest == ts[k].digest && ixs[k].sender == ts[k].sender
         && ixs[k].to == ts[k].recipient && ixs[k].value == ts[k].value && ixs[k].nonce == ts[k].nonce
  }

  lemma {:induction false} BodyIsIndexed(env: Env, body: seq<seq<Byte>>)
    requires PrepareBody(env, body).Some?
    ensures Indexes(IndexBody(env, body), PrepareBody(env, body).value)
  {
    NothingSkipped(env, body);
    SomesBound(Entries(env, body));
    forall k | 0 <= k < |body| {
      IndexAgreesWithPrepare(env, k, body[k]);
    }
  }

  lemma {:induction false} PartiesInTransactionRows(height: nat, location: nat, ix: IndexedTransaction, t: Transfer, row: SqlRow)
    requires ix.digest == t.digest && ix.sender == t.sender && ix.to == t.recipient && ix.value == t.value && ix.nonce == t.nonce
    requires row.TxActivity?
    ensures row in TransactionRows(height, location, ix) <==> ShowsParty(height, ix.blockIndex, t, row)
  {
    var rows := TransactionRows(height, location, ix);
    assert rows[1] == SenderRow(height, ix.blockIndex, t);
    if t.sender != t.recipient { assert rows[2] == ReceiverRow(height, ix.blockIndex, t); }
  }

  lemma {:induction false} PartiesInBodyRows(height: nat, start: nat, ixs: seq<IndexedTransaction>, ts: seq<Transfer>, n: nat, row: SqlRow)
    requires Indexes(ixs, ts) && n <= |ixs| && row.TxActivity?
    ensures row in BodyRows(height, start, ixs, n) <==> exists k :: 0 <= k < n && ShowsParty(height, k, ts[k], row)
  {
    if n > 0 {
      PartiesInBodyRows(height, start, ixs, ts, n - 1, row);
      PartiesInTransactionRows(height, start + (n - 1), ixs[n - 1], ts[n - 1], row);
    }
  }

  lemma {:induction false} ActivityInBlock(env: Env, block: Block, ts: int, ixs: seq<IndexedTransaction>, row: SqlRow)
    requires ixs == IndexBody(env, block.body) && block.header.transactionsEnd > |ixs| && row.TxActivity?
    ensures row in BlockRows(env, block, ts) <==>
            row in BodyRows(block.header.height, block.header.transactionsEnd - (|ixs| + 1), ixs, |ixs|)
  {
  }

  /** Some transfer of the list is shown by the row to one of its parties. */
  predicate ShowsSome(height: nat, transfers: seq<Transfer>, row: SqlRow) {
    exists k :: 0 <= k < |transfers| && ShowsParty(height, k, transfers[k], row)
  }

  lemma {:induction false} ActivityOfIndexed(
      env: Env, block: Block, ts: int, ixs: seq<IndexedTransaction>, transfers: seq<Transfer>, row: SqlRow)
    requires ixs == IndexBody(env, block.body) && Indexes(ixs, transfers) && block.header.transactionsEnd > |ixs| && row.TxActivity?
    ensures row in BlockRows(env, block, ts) <==> ShowsSome(block.header.height, transfers, row)
  {
    ActivityInBlock(env, block, ts, ixs, row);
    PartiesInBodyRows(block.header.height, block.header.transactionsEnd - (|ixs| + 1), ixs, transfers, |ixs|, row);
  }

  /**
   * The activity rows of a block whose body is accepted are exactly: for each transfer, the sender's row and, if the
   * accounts differ, the recipient's.
   */
  lemma {:induction false} ActivityIff(env: Env, block: Block, ts: int, transfers: seq<Transfer>, row: SqlRow)
    requires PrepareBody(env, block.body) == Some(transfers) && block.header.transactionsEnd > |block.body| && row.TxActivity?
    ensures row in BlockRows(env, block, ts) <==> ShowsSome(block.header.height, transfers, row)
  {
    BodyIsIndexed(env, block.body);
    ActivityOfIndexed(env, block, ts, IndexBody(env, block.body), transfers, row);
  }

  lemma {:induction false} MetaOfIndexed(env: Env, block: Block, ts: int, ixs: seq<IndexedTransaction>, row: SqlRow)
    requires ixs == IndexBody(env, block.body) && block.header.transactionsEnd > |ixs| && row.BlockMeta?
    ensures row in BlockRows(env, block, ts) <==> row == BlockMeta(block.header.height, |ixs|, block.header.transactionsEnd - 1, ts)
    ensures BlockRows(env, block, ts) != [] && BlockRows(env, block, ts)[0].BlockMeta?
  {
    var start := block.header.transactionsEnd - (|ixs| + 1);
    if row in BodyRows(block.header.height, start, ixs, |ixs|) { NoMetaInBody(block.header.height, start, ixs, |ixs|, row); }
  }

  /** Every block has one `block_meta` row, its first: the number of transactions and the location of its commit. */
  lemma {:induction false} BlockMetaRow(env: Env, block: Block, ts: int, row: SqlRow)
    requires PrepareBody(env, block.body).Some? && block.header.transactionsEnd > |block.body| && row.BlockMeta?
    ensures row in BlockRows(env, block, ts) <==>
            row == BlockMeta(block.header.height, |block.body|, block.header.transactionsEnd - 1, ts)
    ensures BlockRows(env, block, ts) != [] && BlockRows(env, block, ts)[0].BlockMeta?
  {
    BodyIsIndexed(env, block.body);
    MetaOfIndexed(env, block, ts, IndexBody(env, block.body), row);
  }

  lemma {:induction false} NoMetaInBody(height: nat, start: nat, ixs: seq<IndexedTransaction>, k: nat, row: SqlRow)
    requires k <= |ixs| && row in BodyRows(height, start, ixs, k)
    ensures !row.BlockMeta?
  {
    if row !in TransactionRows(height, start + (k - 1), ixs[k - 1]) { NoMetaInBody(height, start, ixs, k - 1, row); }
  }

  /**
   * Exactly what is indexed, for every byte string: those that begin with a transaction whose sender names an account,
   * whatever follows it. The fields are the transaction's.
   */
  lemma {:induction false} IndexesIff(env: Env, k: nat, bytes: seq<Byte>)
    ensures var p := ParseTransaction(bytes);
            && (IndexTransaction(env, k, bytes).Some? <==> p.Ok? && AccountKeyFromPublicKeyBytes(env, p.value.value.sender).Some?)
            && (IndexTransaction(env, k, bytes).Some? ==>
                  var t, ix := p.value.value, IndexTransaction(env, k, bytes).value;
                  && ix.blockIndex == k && ix.bytes == bytes && ix.digest == env.digest(t.Encode())
                  && Some(ix.sender) == AccountKeyFromPublicKeyBytes(env, t.sender)
                  && ix.to == t.to && ix.value == t.value && ix.nonce == t.nonce)
  {
    if ParseTransaction(bytes).Ok? {
      var p := ParseTransaction(bytes).value;
      TransactionReencodes(bytes);
      TransactionRoundTrip(p.value, p.rest);
      assert bytes[..82] == p.value.Encode();
    }
  }
}
