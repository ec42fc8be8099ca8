/** Transaction-history ranges of blocks and the application's transaction log. */
module History {
  import opened Wrappers
  import opened Bytes

  datatype Header = Header(height: nat, stateEnd: nat, transactionsStart: nat, transactionsEnd: nat)

  /** A body holds the encoded signed transactions. */
  datatype Block = Block(header: Header, body: seq<seq<Byte>>)

  datatype TransactionOp = Append(digest: seq<Byte>) | Commit(floor: nat)

  /** `parent_transactions_inactivity_floor`; `None` is the panic on a range that lacks the parent's batch. */
  function ParentFloor(parent: Block): Option<nat> {
    var end, n := parent.header.transactionsEnd, |parent.body|;
    if end < n then None
    else if end - n < 1 then None
    else Some(end - n - 1)
  }

  function Appends(ds: seq<seq<Byte>>): (ops: seq<TransactionOp>)
    ensures |ops| == |ds| && forall i | 0 <= i < |ds| :: ops[i] == Append(ds[i])
  {
    seq(|ds|, i requires 0 <= i < |ds| => Append(ds[i]))
  }

  /** A keyless batch: the appends, then one commit carrying the inactivity floor. */
  function BatchOps(ds: seq<seq<Byte>>, floor: nat): seq<TransactionOp> {
    Appends(ds) + [Commit(floor)]
  }

  predicate IsGenesis(b: Block) {
    b.header.height == 0 && b.body == [] && b.header.transactionsStart == 0 && b.header.transactionsEnd == 1
  }

  /** The header range that executing a child on top of its parent derives. */
  predicate RangeFollows(parent: Block, child: Block) {
    && child.header.height == parent.header.height + 1
    && ParentFloor(parent) == Some(child.header.transactionsStart)
    && child.header.transactionsEnd == parent.header.transactionsEnd + |child.body| + 1
  }

  /** A chain of blocks whose headers carry derived ranges, with the digests each block appends. */
  predicate Ranged(blocks: seq<Block>, digests: seq<seq<seq<Byte>>>) {
    && |digests| == |blocks| >= 1
    && IsGenesis(blocks[0])
    && (forall i | 0 <= i < |blocks| :: |digests[i]| == |blocks[i].body|)
    && (forall i | 1 <= i < |blocks| :: RangeFollows(blocks[i - 1], blocks[i]))
  }

  /**
   * The application's transaction log after blocks `0..i`: the genesis commit, then one batch per
   * block with the floor that verification derives from the parent.
   */
  function ApplicationLog(blocks: seq<Block>, digests: seq<seq<seq<Byte>>>, i: nat): seq<TransactionOp>
    requires Ranged(blocks, digests) && i < |blocks|
  {
    if i == 0 then [Commit(0)]
    else
      assert RangeFollows(blocks[i - 1], blocks[i]);
      ApplicationLog(blocks, digests, i - 1) + BatchOps(digests[i], ParentFloor(blocks[i - 1]).value)
  }

  /** Header ranges measure the log: a block's range ends where the log ends. */
  lemma {:induction false} LogEndsAtRange(blocks: seq<Block>, digests: seq<seq<seq<Byte>>>, i: nat)
    requires Ranged(blocks, digests) && i < |blocks|
    ensures |ApplicationLog(blocks, digests, i)| == blocks[i].header.transactionsEnd
  {
    if i > 0 {
      assert RangeFollows(blocks[i - 1], blocks[i]);
      LogEndsAtRange(blocks, digests, i - 1);
    }
  }

  /** The first location of block `i`'s own batch in the log. */
  function BatchStart(blocks: seq<Block>, digests: seq<seq<seq<Byte>>>, i: nat): nat
    requires Ranged(blocks, digests) && i < |blocks|
  {
    if i == 0 then 0 else |ApplicationLog(blocks, digests, i - 1)|
  }

  /** The floor a child takes from its parent is the first location of the parent's batch; the subtraction never underflows. */
  lemma {:induction false} FloorIsParentBatch(blocks: seq<Block>, digests: seq<seq<seq<Byte>>>, i: nat)
    requires Ranged(blocks, digests) && i < |blocks|
    ensures ParentFloor(blocks[i]) == Some(BatchStart(blocks, digests, i))
  {
    if i > 0 {
      assert RangeFollows(blocks[i - 1], blocks[i]);
      LogEndsAtRange(blocks, digests, i - 1);
    }
  }

  lemma {:induction false} HeightIsIndex(blocks: seq<Block>, digests: seq<seq<seq<Byte>>>, i: nat)
    requires Ranged(blocks, digests) && i < |blocks|
    ensures blocks[i].header.height == i
  {
    if i > 0 {
      HeightIsIndex(blocks, digests, i - 1);
      assert RangeFollows(blocks[i - 1], blocks[i]);
    }
  }

  /** Header ranges are non-empty, and floors and ends never decrease along the chain. */
  lemma {:induction false} RangesAdvance(blocks: seq<Block>, digests: seq<seq<seq<Byte>>>, i: nat)
    requires Ranged(blocks, digests) && 1 <= i < |blocks|
    ensures var parent, child := blocks[i - 1].header, blocks[i].header;
            && parent.transactionsStart <= child.transactionsStart < parent.transactionsEnd
            && parent.transactionsEnd < child.transactionsEnd
  {
    assert RangeFollows(blocks[i - 1], blocks[i]);
    FloorIsParentBatch(blocks, digests, i - 1);
    LogEndsAtRange(blocks, digests, i - 1);
    if i > 1 {
      assert RangeFollows(blocks[i - 2], blocks[i - 1]);
      FloorIsParentBatch(blocks, digests, i - 2);
      LogEndsAtRange(blocks, digests, i - 2);
    }
  }

  /** `apply_certified` takes its floor from the header and so appends the very batch verification computed. */
  lemma {:induction false} ApplyRepeatsVerify(blocks: seq<Block>, digests: seq<seq<seq<Byte>>>, i: nat)
    requires Ranged(blocks, digests) && 1 <= i < |blocks|
    ensures ApplicationLog(blocks, digests, i) ==
            ApplicationLog(blocks, digests, i - 1) + BatchOps(digests[i], blocks[i].header.transactionsStart)
  {
    assert RangeFollows(blocks[i - 1], blocks[i]);
  }

  /** The log only grows: earlier operations keep their locations. */
  lemma {:induction false} LogGrows(blocks: seq<Block>, digests: seq<seq<seq<Byte>>>, i: nat, j: nat)
    requires Ranged(blocks, digests) && i <= j < |blocks|
    ensures ApplicationLog(blocks, digests, i) <= ApplicationLog(blocks, digests, j)
    decreases j
  {
    if i < j {
      LogGrows(blocks, digests, i, j - 1);
      ApplyRepeatsVerify(blocks, digests, j);
    }
  }

  /** The log begins with the genesis commit, and every batch ends with a commit of the floor: the parent's first location. */
  lemma {:induction false} BatchEndsWithCommit(blocks: seq<Block>, digests: seq<seq<seq<Byte>>>, i: nat)
    requires Ranged(blocks, digests) && i < |blocks|
    ensures var log := ApplicationLog(blocks, digests, i);
            && |log| == blocks[i].header.transactionsEnd && log[0] == Commit(0)
            && log[|log| - 1] == Commit(if i == 0 then 0 else BatchStart(blocks, digests, i - 1))
  {
    LogEndsAtRange(blocks, digests, i);
    if i > 0 {
      BatchEndsWithCommit(blocks, digests, i - 1);
      FloorIsParentBatch(blocks, digests, i - 1);
      LogGrows(blocks, digests, i - 1, i);
    }
  }
}
