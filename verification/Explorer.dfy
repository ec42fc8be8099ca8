/** Paging through the rows the pipeline has put in the Store. */
module Explorer {
  import opened Ledger
  import opened History
  import opened Chain
  import opened Rows
  import opened Uploads
  import opened Pager
  import Indexer
  import Pipeline
  import opened Wrappers

  /** The rows of block `i`. */
  ghost function RowsOf(env: Env, blocks: seq<Block>, ts: nat -> int, i: nat): set<SqlRow>
    requires i < |blocks|
  {
    set r | r in BlockRows(env, blocks[i], ts(i))
  }

  /** The SQL rows in the Store: those of every upload whose batch has landed. */
  ghost function StoredRows(env: Env, blocks: seq<Block>, ts: nat -> int, landed: set<nat>): set<SqlRow> {
    set i, r | i in landed && i < |blocks| && r in RowsOf(env, blocks, ts, i) :: r
  }

  lemma {:induction false} StoredRowsExact(env: Env, blocks: seq<Block>, ts: nat -> int, landed: set<nat>, i: nat, r: SqlRow)
    requires i in landed && i < |blocks| && r in BlockRows(env, blocks[i], ts(i))
    ensures r in StoredRows(env, blocks, ts, landed)
  {
    assert r in RowsOf(env, blocks, ts, i);
  }

  lemma {:induction false} StoredRowsGrow(env: Env, blocks: seq<Block>, ts: nat -> int, a: set<nat>, b: set<nat>)
    requires a <= b
    ensures StoredRows(env, blocks, ts, a) <= StoredRows(env, blocks, ts, b)
  {
  }

  lemma {:induction false} StepKeepsRows(f: seq<Cursor>, s: Pipeline.State, step: Pipeline.Step, s': Pipeline.State)
    requires Pipeline.Proper(f, s) && Pipeline.Do(f, s, step) == Some(s')
    ensures s.store.rows <= s'.store.rows
  {
  }

  /** Nothing that has landed leaves the Store, through crashes and restarts. */
  lemma {:induction false} RunKeepsRows(f: seq<Cursor>, s: Pipeline.State, steps: seq<Pipeline.Step>, s': Pipeline.State)
    requires Pipeline.Inv(f, s) && Pipeline.RunFrom(f, s, steps) == Some(s')
    ensures s.store.rows <= s'.store.rows
    decreases |steps|
  {
    if steps != [] {
      var next := Pipeline.Do(f, s, steps[0]).value;
      StepKeepsRows(f, s, steps[0], next);
      Pipeline.StepKeepsInv(f, s, steps[0], next);
      RunKeepsRows(f, next, steps[1..], s');
    }
  }

  // ----- The transfers behind the rows -----

  /** The account's part in a transfer, as a mode shows it: what it sent, or what it received from others. */
  predicate ShowsTo(height: nat, k: nat, t: Transfer, account: AccountKey, mode: Mode, r: SqlRow) {
    || (mode != Received && t.sender == account && r == SenderRow(height, k, t))
    || (mode != Sent && t.recipient == account && t.sender != account && r == ReceiverRow(height, k, t))
  }

  predicate ShownAmong(height: nat, transfers: seq<Transfer>, account: AccountKey, mode: Mode, r: SqlRow) {
    exists k :: 0 <= k < |transfers| && ShowsTo(height, k, transfers[k], account, mode, r)
  }

  /** The transfers a block asks for. */
  function TransfersOf(env: Env, block: Block): seq<Transfer> {
    var ts := PrepareBody(env, block.body);
    if ts.Some? then ts.value else []
  }

  /** The row shows the account a transfer of one of these blocks. */
  ghost predicate ShownIn(env: Env, blocks: seq<Block>, landed: set<nat>, account: AccountKey, mode: Mode, r: SqlRow) {
    exists i :: i in landed && 0 <= i < |blocks| && ShownAmong(i, TransfersOf(env, blocks[i]), account, mode, r)
  }

  lemma {:induction false} RoomForBody(env: Env, db: Database, blocks: seq<Block>, i: nat)
    requires ValidChain(env, db, blocks) && i < |blocks|
    ensures PrepareBody(env, blocks[i].body) == Some(TransfersOf(env, blocks[i]))
    ensures blocks[i].header.height == i && blocks[i].header.transactionsEnd > |blocks[i].body|
  {
    ValidChainIsRanged(env, db, blocks);
    HeightIsIndex(blocks, ChainDigests(env, blocks), i);
    if i > 0 { assert RangeFollows(blocks[i - 1], blocks[i]); }
  }

  /** What a mode selects among the rows of a transfer. */
  lemma {:induction false} ModeSelects(height: nat, k: nat, t: Transfer, account: AccountKey, mode: Mode, r: SqlRow)
    ensures ShowsParty(height, k, t, r) && Matches(r, account, mode) <==> ShowsTo(height, k, t, account, mode, r)
  {
  }

  lemma {:induction false} ModeSelectsSome(height: nat, transfers: seq<Transfer>, account: AccountKey, mode: Mode, r: SqlRow)
    ensures ShowsSome(height, transfers, r) && Matches(r, account, mode) <==> ShownAmong(height, transfers, account, mode, r)
  {
    forall k | 0 <= k < |transfers| {
      ModeSelects(height, k, transfers[k], account, mode, r);
    }
  }

  lemma {:induction false} BlockShowsTransfers(
      env: Env, block: Block, ts: int, transfers: seq<Transfer>, account: AccountKey, mode: Mode, r: SqlRow)
    requires PrepareBody(env, block.body) == Some(transfers) && block.header.transactionsEnd > |block.body|
    ensures r in BlockRows(env, block, ts) && Matches(r, account, mode) <==>
            ShownAmong(block.header.height, transfers, account, mode, r)
  {
    if r.TxActivity? { ActivityIff(env, block, ts, transfers, r); }
    ModeSelectsSome(block.header.height, transfers, account, mode, r);
  }

  /** The rows of one block that match are the account's transfers in it. */
  lemma {:induction false} BlockShows(
      env: Env, db: Database, blocks: seq<Block>, ts: int, i: nat, account: AccountKey, mode: Mode, r: SqlRow)
    requires ValidChain(env, db, blocks) && i < |blocks|
    ensures r in BlockRows(env, blocks[i], ts) && Matches(r, account, mode) <==>
            ShownAmong(i, TransfersOf(env, blocks[i]), account, mode, r)
  {
    RoomForBody(env, db, blocks, i);
    BlockShowsTransfers(env, blocks[i], ts, TransfersOf(env, blocks[i]), account, mode, r);
  }

  /** The matching rows of the Store are exactly the account's transfers in the blocks that have landed. */
  lemma {:induction false} StoredShows(
      env: Env, db: Database, blocks: seq<Block>, ts: nat -> int, landed: set<nat>, account: AccountKey, mode: Mode, r: SqlRow)
    requires ValidChain(env, db, blocks)
    ensures r in StoredRows(env, blocks, ts, landed) && Matches(r, account, mode) <==> ShownIn(env, blocks, landed, account, mode, r)
  {
    if r in StoredRows(env, blocks, ts, landed) && Matches(r, account, mode) {
      var i :| i in landed && i < |blocks| && r in RowsOf(env, blocks, ts, i);
      BlockShows(env, db, blocks, ts(i), i, account, mode, r);
    }
    if ShownIn(env, blocks, landed, account, mode, r) {
      var i :| i in landed && 0 <= i < |blocks| && ShownAmong(i, TransfersOf(env, blocks[i]), account, mode, r);
      BlockShows(env, db, blocks, ts(i), i, account, mode, r);
      StoredRowsExact(env, blocks, ts, landed, i, r);
    }
  }

  /**
   * Paging an account over the rows of an accepted chain lists, newest first and once each, exactly its transfers in the
   * blocks that have landed: those it sent, those it received from others, or both.
   */
  lemma {:induction false} PagingShowsTransfers(
      env: Env, db: Database, blocks: seq<Block>, ts: nat -> int, landed: set<nat>, sql: Engine, account: AccountKey, mode: Mode)
    requires ValidChain(env, db, blocks) && Serves(sql, StoredRows(env, blocks, ts, landed))
    ensures var listed := AllRows(sql, StoredRows(env, blocks, ts, landed), account, mode, None);
            Descending(listed) && forall r :: r in listed <==> ShownIn(env, blocks, landed, account, mode, r)
  {
    var table := StoredRows(env, blocks, ts, landed);
    PagesListEverything(sql, table, account, mode, None);
    forall r ensures r in AllRows(sql, table, account, mode, None) <==> ShownIn(env, blocks, landed, account, mode, r) {
      StoredShows(env, db, blocks, ts, landed, account, mode, r);
    }
  }

  // ----- Along a run -----

  /** The states in which the pages are fetched, each reached from the one before it. */
  ghost predicate Unfolds(f: seq<Cursor>, states: nat -> Pipeline.State) {
    && Pipeline.Reachable(f, states(0))
    && forall k: nat :: GoesOn(f, states, k)
  }

  ghost predicate GoesOn(f: seq<Cursor>, states: nat -> Pipeline.State, k: nat) {
    Pipeline.Inv(f, states(k)) && exists steps :: Pipeline.RunFrom(f, states(k), steps) == Some(states(k + 1))
  }

  /** The tables along a run. */
  ghost predicate TablesOf(env: Env, blocks: seq<Block>, ts: nat -> int, states: nat -> Pipeline.State, tables: nat -> set<SqlRow>) {
    forall k: nat :: tables(k) == StoredRows(env, blocks, ts, states(k).store.rows)
  }

  lemma {:induction false} StoreGrows(f: seq<Cursor>, states: nat -> Pipeline.State, k: nat)
    requires GoesOn(f, states, k)
    ensures states(k).store.rows <= states(k + 1).store.rows
  {
    var steps :| Pipeline.RunFrom(f, states(k), steps) == Some(states(k + 1));
    RunKeepsRows(f, states(k), steps, states(k + 1));
  }

  lemma {:induction false} TablesServeGrowing(
      env: Env, blocks: seq<Block>, ts: nat -> int, f: seq<Cursor>, states: nat -> Pipeline.State, tables: nat -> set<SqlRow>,
      sqls: nat -> Engine)
    requires Unfolds(f, states) && TablesOf(env, blocks, ts, states, tables) && forall k: nat :: Serves(sqls(k), tables(k))
    ensures ServesGrowing(sqls, tables)
  {
    forall k: nat ensures GrowsAt(tables, k) {
      assert GoesOn(f, states, k);
      StoreGrows(f, states, k);
      StoredRowsGrow(env, blocks, ts, states(k).store.rows, states(k + 1).store.rows);
    }
  }

  /** A block whose entry is acknowledged has its rows in the Store. */
  lemma {:induction false} AckedIsStored(
      env: Env, blocks: seq<Block>, ts: nat -> int, s: Pipeline.State, p: nat, row: SqlRow)
    requires Pipeline.Reachable(Indexer.ChainFrontiers(blocks), s) && p in Pipeline.Acked(s)
    requires p < |s.durable.queue| && s.durable.queue[p] < |blocks|
    requires row in BlockRows(env, blocks[s.durable.queue[p]], ts(s.durable.queue[p]))
    ensures row in StoredRows(env, blocks, ts, s.store.rows)
  {
    Pipeline.AckedIsVisible(Indexer.ChainFrontiers(blocks), s, p);
    StoredRowsExact(env, blocks, ts, s.store.rows, s.durable.queue[p], row);
  }

  lemma {:induction false} ListedSomewhere(shots: seq<Shot>, r: SqlRow) returns (j: nat)
    requires r in Listing(shots)
    ensures j < |shots| && r in shots[j].rows
    decreases |shots|
  {
    if r in shots[0].rows {
      j := 0;
    } else {
      j := ListedSomewhere(shots[1..], r);
      j := j + 1;
    }
  }

  /** Every row on a page shows the account one of its own transfers. */
  lemma {:induction false} OnlyOwnTransfers(
      env: Env, db: Database, blocks: seq<Block>, ts: nat -> int, states: nat -> Pipeline.State, tables: nat -> set<SqlRow>,
      account: AccountKey, mode: Mode, shots: seq<Shot>, r: SqlRow) returns (j: nat)
    requires ValidChain(env, db, blocks) && TablesOf(env, blocks, ts, states, tables)
    requires ListsReliably(account, mode, shots, tables) && r in Listing(shots)
    ensures ShownIn(env, blocks, states(j).store.rows, account, mode, r)
  {
    j := ListedSomewhere(shots, r);
    StoredShows(env, db, blocks, ts, states(j).store.rows, account, mode, r);
  }

  /** The transfers of an acknowledged block are shown to both parties. */
  lemma {:induction false} AckedIsShown(
      env: Env, db: Database, blocks: seq<Block>, ts: nat -> int, s: Pipeline.State, p: nat, account: AccountKey, mode: Mode, r: SqlRow)
    requires ValidChain(env, db, blocks) && Pipeline.Reachable(Indexer.ChainFrontiers(blocks), s) && p in Pipeline.Acked(s)
    requires p < |s.durable.queue| && s.durable.queue[p] < |blocks|
    requires ShownAmong(s.durable.queue[p], TransfersOf(env, blocks[s.durable.queue[p]]), account, mode, r)
    ensures r in StoredRows(env, blocks, ts, s.store.rows) && Matches(r, account, mode)
  {
    var i := s.durable.queue[p];
    BlockShows(env, db, blocks, ts(i), i, account, mode, r);
    AckedIsStored(env, blocks, ts, s, p, r);
  }

  /** Every transfer the account has in an acknowledged block is listed. */
  ghost predicate ListsAcked(
      env: Env, blocks: seq<Block>, s: Pipeline.State, account: AccountKey, mode: Mode, listed: seq<SqlRow>) {
    forall p, r | p in Pipeline.Acked(s) && p < |s.durable.queue| && s.durable.queue[p] < |blocks|
        && ShownAmong(s.durable.queue[p], TransfersOf(env, blocks[s.durable.queue[p]]), account, mode, r) :: r in listed
  }

  lemma {:induction false} StartListsAcked(
      env: Env, db: Database, blocks: seq<Block>, ts: nat -> int, s: Pipeline.State, account: AccountKey, mode: Mode, listed: seq<SqlRow>)
    requires ValidChain(env, db, blocks) && Pipeline.Reachable(Indexer.ChainFrontiers(blocks), s)
    requires forall r | r in StoredRows(env, blocks, ts, s.store.rows) && Matches(r, account, mode) :: r in listed
    ensures ListsAcked(env, blocks, s, account, mode, listed)
  {
    forall p, r | p in Pipeline.Acked(s) && p < |s.durable.queue| && s.durable.queue[p] < |blocks|
        && ShownAmong(s.durable.queue[p], TransfersOf(env, blocks[s.durable.queue[p]]), account, mode, r)
      ensures r in listed
    {
      AckedIsShown(env, db, blocks, ts, s, p, account, mode, r);
    }
  }

  /** Every listed row shows the account a transfer of a block that had landed by some page. */
  ghost predicate ListsOwn(
      env: Env, blocks: seq<Block>, states: nat -> Pipeline.State, account: AccountKey, mode: Mode, listed: seq<SqlRow>) {
    forall r | r in listed :: exists j: nat :: ShownIn(env, blocks, states(j).store.rows, account, mode, r)
  }

  lemma {:induction false} ReliablyOwn(
      env: Env, db: Database, blocks: seq<Block>, ts: nat -> int, states: nat -> Pipeline.State, tables: nat -> set<SqlRow>,
      account: AccountKey, mode: Mode, shots: seq<Shot>)
    requires ValidChain(env, db, blocks) && TablesOf(env, blocks, ts, states, tables)
    requires ListsReliably(account, mode, shots, tables)
    ensures ListsOwn(env, blocks, states, account, mode, Listing(shots))
  {
    forall r | r in Listing(shots) ensures exists j: nat :: ShownIn(env, blocks, states(j).store.rows, account, mode, r) {
      var j := OnlyOwnTransfers(env, db, blocks, ts, states, tables, account, mode, shots, r);
    }
  }

  lemma {:induction false} ReliablyAcked(
      env: Env, db: Database, blocks: seq<Block>, ts: nat -> int, states: nat -> Pipeline.State, tables: nat -> set<SqlRow>,
      account: AccountKey, mode: Mode, shots: seq<Shot>)
    requires ValidChain(env, db, blocks) && TablesOf(env, blocks, ts, states, tables)
    requires Pipeline.Reachable(Indexer.ChainFrontiers(blocks), states(0)) && ListsReliably(account, mode, shots, tables)
    ensures Descending(Listing(shots)) && ListsAcked(env, blocks, states(0), account, mode, Listing(shots))
  {
    assert tables(0) == StoredRows(env, blocks, ts, states(0).store.rows);
    StartListsAcked(env, db, blocks, ts, states(0), account, mode, Listing(shots));
  }

  /**
   * Along any run, with commits landing in any order between pages: paging through an account ends, lists newest first
   * without repeats, lists every transfer the account sent or received in a block acknowledged when the paging began,
   * and lists nothing but the account's own transfers.
   */
  lemma {:induction false} PagingListsAcked(
      env: Env, db: Database, blocks: seq<Block>, ts: nat -> int, states: nat -> Pipeline.State, tables: nat -> set<SqlRow>,
      sqls: nat -> Engine, account: AccountKey, mode: Mode) returns (shots: seq<Shot>)
    requires ValidChain(env, db, blocks)
    requires Unfolds(Indexer.ChainFrontiers(blocks), states) && TablesOf(env, blocks, ts, states, tables)
    requires forall k: nat :: Serves(sqls(k), tables(k))
    ensures ServesGrowing(sqls, tables) && shots == Shots(sqls, tables, account, mode, 0, None)
    ensures IsPaging(account, mode, shots) && Descending(Listing(shots))
    ensures ListsAcked(env, blocks, states(0), account, mode, Listing(shots))
    ensures ListsOwn(env, blocks, states, account, mode, Listing(shots))
  {
    TablesServeGrowing(env, blocks, ts, Indexer.ChainFrontiers(blocks), states, tables, sqls);
    PagingWhileGrowing(sqls, tables, account, mode);
    shots := Shots(sqls, tables, account, mode, 0, None);
    ReliablyAcked(env, db, blocks, ts, states, tables, account, mode, shots);
    ReliablyOwn(env, db, blocks, ts, states, tables, account, mode, shots);
  }
}
