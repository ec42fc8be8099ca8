/** Whole chains: proposals on the wire, and what holds of every chain of accepted blocks. */
module Consensus {
  import opened Wrappers
  import opened Bytes
  import opened Ledger
  import opened Changesets
  import opened Codec
  import opened Executor
  import opened Execution
  import opened History
  import opened Chain

  type Candidate = PreparedTransaction<SignedTransaction>

  /** A candidate that `prepare_proposal` can produce. */
  predicate Prepared(env: Env, c: Candidate) {
    c.transaction.Valid(env.curves) && PrepareTransfer(env, c.transaction) == Some(c.transfer)
  }

  /** The body a proposer broadcasts. */
  function WireBody(cs: seq<Candidate>): seq<seq<Byte>> {
    seq(|cs|, i requires 0 <= i < |cs| => cs[i].transaction.Encode())
  }

  /** The child a proposer builds: the included transactions under the header derived from the parent. */
  function ProposedBlock(parent: Block, included: seq<Candidate>, stateEnd: nat): Block
    requires ParentFloor(parent).Some?
  {
    Block(Header(parent.header.height + 1, stateEnd, ParentFloor(parent).value,
                 parent.header.transactionsEnd + |included| + 1), WireBody(included))
  }

  /** Decoding a broadcast body gives back the transfers it was built from. */
  lemma {:induction false} WireBodyPrepares(env: Env, cs: seq<Candidate>)
    requires forall c | c in cs :: Prepared(env, c)
    ensures PrepareBody(env, WireBody(cs)) == Some(Transfers(cs))
  {
    forall i | 0 <= i < |cs| ensures PrepareEntry(env, WireBody(cs)[i]) == Some(cs[i].transfer) {
      assert Prepared(env, cs[i]);
      DecodeIffEncoding(env.curves, cs[i].transaction.Encode(), cs[i].transaction);
    }
    assert PrepareBody(env, WireBody(cs)).value == Transfers(cs);
  }

  lemma {:induction false} IncludedAreCandidates<X>(db: Database, cs: seq<PreparedTransaction<X>>)
    ensures forall c | c in Included(db, cs) :: c in cs
    decreases |cs|
  {
    if cs != [] {
      var next := Step(db, cs[0].transfer);
      IncludedAreCandidates(if next.Some? then next.value else db, cs[1..]);
    }
  }

  /**
   * Whatever an honest proposer is offered, a verifier with the same parent decodes the block it broadcasts, executes it
   * by its own loading and path to exactly the proposer's changeset, and accepts it.
   */
  lemma {:induction false} ProposedBlockIsAccepted(env: Env, db: Database, parent: Block, cs: seq<Candidate>, stateEnd: nat)
    requires ParentFloor(parent).Some? && forall c | c in cs :: Prepared(env, c)
    ensures var p := Propose(LoadedAccounts(db, Touched(Transfers(cs))), map[], cs);
            var child := ProposedBlock(parent, p.included, stateEnd);
            && PrepareBody(env, child.body).Some?
            && VerifierChangeset(db, PrepareBody(env, child.body).value) == Some(ChangesetOf(p.writes))
            && Accepted(env, db, parent, child)
  {
    HonestProposalVerifies(db, cs);
    IncludedAreCandidates(db, cs);
    WireBodyPrepares(env, Included(db, cs));
  }

  /** The lists `1..i` joined. */
  function Joined<T>(xss: seq<seq<T>>, i: nat): seq<T>
    requires i < |xss|
  {
    if i == 0 then [] else Joined(xss, i - 1) + xss[i]
  }

  /** Element `k` of list `i` is at this place in the join. */
  lemma {:induction false} LocateJoined<T>(xss: seq<seq<T>>, i: nat, k: nat, n: nat)
    requires 1 <= i <= n < |xss| && k < |xss[i]|
    ensures var at := |Joined(xss, i - 1)| + k;
            at < |Joined(xss, i)| <= |Joined(xss, n)| && Joined(xss, n)[at] == xss[i][k]
    decreases n
  {
    if i < n { LocateJoined(xss, i, k, n - 1); }
  }

  /** The transfers of every block of a chain. */
  function ChainTransfers(env: Env, blocks: seq<Block>): (tss: seq<seq<Transfer>>)
    ensures |tss| == |blocks|
  {
    seq(|blocks|, i requires 0 <= i < |blocks| =>
      var ts := PrepareBody(env, blocks[i].body); if ts.Some? then ts.value else [])
  }

  /** Databases that follow from each other list by list follow from the first over the joined lists. */
  lemma {:induction false} RunJoined(dbs: seq<Database>, tss: seq<seq<Transfer>>, i: nat)
    requires |dbs| == |tss| && i < |tss|
    requires forall k | 1 <= k < |tss| :: Run(dbs[k - 1], tss[k]) == Some(dbs[k])
    ensures Run(dbs[0], Joined(tss, i)) == Some(dbs[i])
  {
    if i > 0 {
      RunJoined(dbs, tss, i - 1);
      RunConcat(dbs[0], Joined(tss, i - 1), tss[i]);
    }
  }

  lemma {:induction false} DatabaseAfterStep(env: Env, db: Database, blocks: seq<Block>, i: nat)
    requires 1 <= i < |blocks| && Linked(env, db, blocks, i)
    ensures var before, after := DatabaseAfter(env, db, blocks, i - 1), DatabaseAfter(env, db, blocks, i);
            before.Some? && after.Some? && after == Run(before.value, ChainTransfers(env, blocks)[i])
  {
    ExecuteBlockIsRun(DatabaseAfter(env, db, blocks, i - 1).value, PrepareBody(env, blocks[i].body).value);
  }

  /** The databases after each block of an accepted chain. */
  ghost function ChainDatabases(env: Env, db: Database, blocks: seq<Block>): (dbs: seq<Database>)
    requires ValidChain(env, db, blocks)
    ensures |dbs| == |blocks| && dbs[0] == db
    ensures forall i | 0 <= i < |blocks| :: DatabaseAfter(env, db, blocks, i) == Some(dbs[i])
  {
    assert forall i | 1 <= i < |blocks| :: DatabaseAfter(env, db, blocks, i).Some? by {
      forall i | 1 <= i < |blocks| ensures DatabaseAfter(env, db, blocks, i).Some? {
        DatabaseAfterStep(env, db, blocks, i);
      }
    }
    seq(|blocks|, i requires 0 <= i < |blocks| && DatabaseAfter(env, db, blocks, i).Some? => DatabaseAfter(env, db, blocks, i).value)
  }

  /** A chain of accepted blocks has the effect of one run over all its transfers. */
  lemma {:induction false} DatabaseAfterIsRun(env: Env, db: Database, blocks: seq<Block>, i: nat)
    requires ValidChain(env, db, blocks) && i < |blocks|
    ensures DatabaseAfter(env, db, blocks, i).Some?
    ensures DatabaseAfter(env, db, blocks, i) == Run(db, Joined(ChainTransfers(env, blocks), i))
  {
    var dbs, tss := ChainDatabases(env, db, blocks), ChainTransfers(env, blocks);
    forall k | 1 <= k < |blocks| ensures Run(dbs[k - 1], tss[k]) == Some(dbs[k]) {
      DatabaseAfterStep(env, db, blocks, k);
    }
    RunJoined(dbs, tss, i);
  }

  /** No two places of a chain's transfers hold the same sender and nonce. */
  lemma {:induction false} NoReplayInBlocks(db: Database, tss: seq<seq<Transfer>>, i: nat, k: nat, j: nat, l: nat)
    requires 1 <= i <= j < |tss| && k < |tss[i]| && l < |tss[j]| && (i < j || k < l)
    requires NoncesInRange(db) && Run(db, Joined(tss, j)).Some?
    ensures (tss[i][k].sender, tss[i][k].nonce) != (tss[j][l].sender, tss[j][l].nonce)
  {
    LocateJoined(tss, i, k, j);
    LocateJoined(tss, j, l, j);
    if i < j { LocateJoined(tss, i, k, j - 1); }
    NoReplay(db, Joined(tss, j), |Joined(tss, i - 1)| + k, |Joined(tss, j - 1)| + l);
  }

  lemma {:induction false} SameEncodingSameTransaction(a: Transaction, b: Transaction)
    requires a.Valid() && b.Valid() && a.Encode() == b.Encode()
    ensures a == b
  {
    TransactionRoundTrip(a, []);
    TransactionRoundTrip(b, []);
  }

  /** Entries with the same content under any signatures prepare to the same transfer. */
  lemma {:induction false} SameContentSameTransfer(env: Env, x: seq<Byte>, y: seq<Byte>)
    requires PrepareEntry(env, x).Some? && PrepareEntry(env, y).Some?
    ensures DecodeSigned(env.curves, x).Some? && DecodeSigned(env.curves, y).Some?
    ensures DecodeSigned(env.curves, x).value.transaction.Encode() == DecodeSigned(env.curves, y).value.transaction.Encode()
            ==> PrepareEntry(env, x) == PrepareEntry(env, y)
  {
    var a, b := DecodeSigned(env.curves, x).value, DecodeSigned(env.curves, y).value;
    DecodeIffEncoding(env.curves, x, a);
    DecodeIffEncoding(env.curves, y, b);
    if a.transaction.Encode() == b.transaction.Encode() {
      SameEncodingSameTransaction(a.transaction, b.transaction);
    }
  }

  /** No transaction is on an accepted chain twice: not the same bytes, not the same content under another signature. */
  lemma {:induction false} NoTransactionTwice(env: Env, db: Database, blocks: seq<Block>, i: nat, k: nat, j: nat, l: nat)
    requires ValidChain(env, db, blocks) && NoncesInRange(db)
    requires 1 <= i <= j < |blocks| && k < |blocks[i].body| && l < |blocks[j].body| && (i < j || k < l)
    ensures var a, b := DecodeSigned(env.curves, blocks[i].body[k]), DecodeSigned(env.curves, blocks[j].body[l]);
            a.Some? && b.Some? && a.value.transaction.Encode() != b.value.transaction.Encode()
  {
    assert Linked(env, db, blocks, i) && Linked(env, db, blocks, j);
    var tss := ChainTransfers(env, blocks);
    DatabaseAfterIsRun(env, db, blocks, j);
    NoReplayInBlocks(db, tss, i, k, j, l);
    SameContentSameTransfer(env, blocks[i].body[k], blocks[j].body[l]);
  }

  /** Accepted chains create and destroy nothing, whatever accounts a block opens. */
  lemma {:induction false} AcceptedChainConserves(env: Env, db: Database, blocks: seq<Block>, i: nat, keys: set<AccountKey>)
    requires ValidChain(env, db, blocks) && i < |blocks| && Touched(Joined(ChainTransfers(env, blocks), i)) <= keys
    ensures DatabaseAfter(env, db, blocks, i).Some?
    ensures Total(DatabaseAfter(env, db, blocks, i).value, keys) == Total(db, keys)
  {
    DatabaseAfterIsRun(env, db, blocks, i);
    RunConserves(db, Joined(ChainTransfers(env, blocks), i), keys);
  }

  /** Along an accepted chain every balance fits `u64` and every nonce state is canonical. */
  lemma {:induction false} AcceptedChainKeepsWellFormed(env: Env, db: Database, blocks: seq<Block>, i: nat)
    requires ValidChain(env, db, blocks) && i < |blocks| && WellFormedDatabase(db)
    ensures DatabaseAfter(env, db, blocks, i).Some? && WellFormedDatabase(DatabaseAfter(env, db, blocks, i).value)
  {
    DatabaseAfterIsRun(env, db, blocks, i);
    RunKeepsWellFormed(db, Joined(ChainTransfers(env, blocks), i));
  }

  /** Along an accepted chain every account holds what it began with, plus what it received, minus what it sent. */
  lemma {:induction false} AcceptedChainMoves(env: Env, db: Database, blocks: seq<Block>, i: nat, k: AccountKey)
    requires ValidChain(env, db, blocks) && i < |blocks|
    ensures DatabaseAfter(env, db, blocks, i).Some?
    ensures var ts, end := Joined(ChainTransfers(env, blocks), i), DatabaseAfter(env, db, blocks, i).value;
            Get(end, k).balance + SentBy(ts, k) == Get(db, k).balance + ReceivedBy(ts, k)
  {
    DatabaseAfterIsRun(env, db, blocks, i);
    RunMoves(db, Joined(ChainTransfers(env, blocks), i), k);
  }

  /** Transaction `k` of block `i` is among the chain's transfers as the one its author asked for. */
  lemma {:induction false} ChainHoldsTransfer(env: Env, db: Database, blocks: seq<Block>, i: nat, k: nat, n: nat)
    requires ValidChain(env, db, blocks) && 1 <= i <= n < |blocks| && k < |blocks[i].body|
    ensures PrepareEntry(env, blocks[i].body[k]).Some?
    ensures PrepareEntry(env, blocks[i].body[k]).value in Joined(ChainTransfers(env, blocks), n)
  {
    assert Linked(env, db, blocks, i);
    LocateJoined(ChainTransfers(env, blocks), i, k, n);
  }
}
