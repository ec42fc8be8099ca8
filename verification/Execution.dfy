/** State loading, block execution on both sides of consensus, and chains of executed blocks. */
module Execution {
  import opened Wrappers
  import opened Ledger
  import opened Changesets
  import opened Executor

  /** The accounts of `keys` as the database holds them. */
  function LoadedAccounts(db: Database, keys: set<AccountKey>): State {
    map k | k in keys :: Ledger.Get(db, k)
  }

  method LoadAccounts(db: Database, accountKeys: seq<AccountKey>) returns (state: State)
    ensures state == LoadedAccounts(db, set k | k in accountKeys)
  {
    state := map[];
    for i := 0 to |accountKeys|
      invariant state == LoadedAccounts(db, set k | k in accountKeys[..i])
    {
      assert accountKeys[..i + 1] == accountKeys[..i] + [accountKeys[i]];
      state := state[accountKeys[i] := Ledger.Get(db, accountKeys[i])];
    }
    assert accountKeys[..|accountKeys|] == accountKeys;
  }

  /** A set as a sequence, in any order, as a hash set's iterator yields it. */
  method Iterate(keys: set<AccountKey>) returns (ks: seq<AccountKey>)
    ensures forall k :: k in ks <==> k in keys
  {
    ks := [];
    var rest := keys;
    while rest != {}
      invariant rest <= keys
      invariant forall k :: k in ks <==> k in keys && k !in rest
      decreases rest
    {
      var k :| k in rest;
      ks := ks + [k];
      rest := rest - {k};
    }
  }

  /** `load_state`: the proposer loads the accounts of every candidate. */
  method LoadState(db: Database, transfers: seq<Transfer>) returns (state: State)
    ensures state == LoadedAccounts(db, Touched(transfers))
  {
    if transfers == [] {
      return map[];
    }
    var keys: set<AccountKey> := {};
    for i := 0 to |transfers|
      invariant keys == Touched(transfers[..i])
    {
      assert transfers[..i + 1] == transfers[..i] + [transfers[i]];
      TouchedConcat(transfers[..i], [transfers[i]]);
      keys := keys + {transfers[i].sender};
      keys := keys + {transfers[i].recipient};
    }
    assert transfers[..|transfers|] == transfers;
    var ks := Iterate(keys);
    state := LoadAccounts(db, ks);
    assert (set k | k in ks) == Touched(transfers);
  }

  datatype LoadedState = Unique(accounts: seq<Account>) | Shared(state: State)

  /** The database's accounts for the sender and recipient keys, in order. */
  function AccountsInOrder(db: Database, ts: seq<Transfer>): (accounts: seq<Account>)
    ensures LoadedInOrder(db, ts, accounts)
    decreases |ts|
  {
    if ts == [] then []
    else [Ledger.Get(db, ts[0].sender), Ledger.Get(db, ts[0].recipient)] + AccountsInOrder(db, ts[1..])
  }

  /** What the verifier loads. */
  function LoadedFor(db: Database, ts: seq<Transfer>): LoadedState {
    if |Touched(ts)| == 2 * |ts| then Unique(AccountsInOrder(db, ts))
    else Shared(LoadedAccounts(db, Touched(ts)))
  }

  lemma {:induction false} AccountAt(db: Database, ts: seq<Transfer>, i: nat)
    requires i < 2 * |ts|
    ensures |AccountsInOrder(db, ts)| == |AccountKeys(ts)| == 2 * |ts|
    ensures AccountsInOrder(db, ts)[i] == Ledger.Get(db, AccountKeys(ts)[i])
    decreases |ts|
  {
    if i >= 2 { AccountAt(db, ts[1..], i - 2); }
  }

  lemma {:induction false} KeysAreTouched(ts: seq<Transfer>)
    ensures (set k | k in AccountKeys(ts)) == Touched(ts)
    decreases |ts|
  {
    if ts != [] {
      KeysAreTouched(ts[1..]);
      TouchedHead(ts);
    }
  }

  lemma {:induction false} AccountKeysOf(db: Database, ts: seq<Transfer>)
    ensures (set k | k in AccountKeys(ts)) == Touched(ts)
    ensures AccountsInOrder(db, ts) ==
            seq(2 * |ts|, i requires 0 <= i < 2 * |ts| => Ledger.Get(db, AccountKeys(ts)[i]))
  {
    KeysAreTouched(ts);
    forall i | 0 <= i < 2 * |ts| ensures AccountsInOrder(db, ts)[i] == Ledger.Get(db, AccountKeys(ts)[i]) {
      AccountAt(db, ts, i);
    }
  }

  lemma {:induction false} KeysGrow(ts: seq<Transfer>, i: nat)
    requires i < |ts|
    ensures AccountKeys(ts[..i + 1]) == AccountKeys(ts[..i]) + [ts[i].sender] + [ts[i].recipient]
    ensures Touched(ts[..i + 1]) == Touched(ts[..i]) + {ts[i].sender} + {ts[i].recipient}
  {
    assert ts[..i + 1] == ts[..i] + [ts[i]];
    AccountKeysSnoc(ts[..i], ts[i]);
    TouchedConcat(ts[..i], [ts[i]]);
  }

  lemma {:induction false} AccountKeysSnoc(ts: seq<Transfer>, t: Transfer)
    ensures AccountKeys(ts + [t]) == AccountKeys(ts) + [t.sender, t.recipient]
    decreases |ts|
  {
    if ts == [] {
      assert ts + [t] == [t];
      assert [t][1..] == [];
    } else {
      assert (ts + [t])[1..] == ts[1..] + [t];
      AccountKeysSnoc(ts[1..], t);
    }
  }

  /** `load_execution_state` */
  method LoadExecutionState(db: Database, transfers: seq<Transfer>) returns (loaded: LoadedState)
    ensures loaded == LoadedFor(db, transfers)
  {
    if transfers == [] {
      assert Touched(transfers) == {};
      return Unique([]);
    }
    var accountKeys: seq<AccountKey>, unique: set<AccountKey> := [], {};
    for i := 0 to |transfers|
      invariant accountKeys == AccountKeys(transfers[..i])
      invariant unique == Touched(transfers[..i])
    {
      var t := transfers[i];
      KeysGrow(transfers, i);
      accountKeys := accountKeys + [t.sender] + [t.recipient];
      unique := unique + {t.sender} + {t.recipient};
    }
    assert transfers[..|transfers|] == transfers;
    AccountKeysOf(db, transfers);
    if |unique| == |accountKeys| {
      var accounts := seq(|accountKeys|, i requires 0 <= i < |accountKeys| => Ledger.Get(db, accountKeys[i]));
      return Unique(accounts);
    }
    var ks := Iterate(unique);
    assert (set k | k in ks) == Touched(transfers);
    var state := LoadAccounts(db, ks);
    return Shared(state);
  }

  /** What executing a loaded block yields, path by path. */
  ghost function LoadedChangeset(loaded: LoadedState, ts: seq<Transfer>): Option<Changeset> {
    match loaded
    case Unique(accounts) =>
      if |accounts| != 2 * |ts| then None
      else
        var es := UniqueEntries(ts, accounts);
        if es.None? then None else Some(SortByKey(es.value))
    case Shared(state) =>
      var w := OverlayWrites(state, map[], ts);
      if w.None? then None else Some(ChangesetOf(w.value))
  }

  method ExecuteLoaded(loaded: LoadedState, transfers: seq<Transfer>) returns (changeset: Option<Changeset>)
    ensures changeset == LoadedChangeset(loaded, transfers)
  {
    match loaded {
      case Unique(accounts) =>
        changeset := ExecuteUnique(transfers, accounts);
      case Shared(state) =>
        OverlayIsOutcome(state, transfers);
        RunIsOutcome(state, transfers);
        changeset := Execute(state, transfers);
    }
  }

  /** The verifier's changeset for a block: `execute_body` and `apply_prepared_body` up to the batch writes. */
  ghost function VerifierChangeset(db: Database, ts: seq<Transfer>): Option<Changeset> {
    LoadedChangeset(LoadedFor(db, ts), ts)
  }

  /** Either path yields the database's own outcome, and refuses exactly the blocks the database run refuses. */
  lemma {:induction false} VerifierIsOutcome(db: Database, ts: seq<Transfer>)
    ensures VerifierChangeset(db, ts) ==
            (var m := Outcome(db, ts); if m.None? then None else Some(ChangesetOf(m.value)))
  {
    AllDistinctIffCount(ts);
    RunIsOutcome(db, ts);
    match LoadedFor(db, ts) {
      case Unique(accounts) =>
        UniqueIsOutcome(db, ts, accounts);
        var es := UniqueEntries(ts, accounts);
        if es.Some? { SortByKeyIsChangeset(es.value, Outcome(db, ts).value); }
      case Shared(state) =>
        OverlayIsOutcome(state, ts);
        OutcomeReadsTouched(db, state, ts);
    }
  }

  /** The fast path and the overlay agree on every batch of distinct accounts, failures included, entry by entry. */
  lemma {:induction false} UniqueAgreesWithOverlay(db: Database, ts: seq<Transfer>)
    requires AllDistinct(ts)
    ensures LoadedChangeset(Unique(AccountsInOrder(db, ts)), ts) ==
            LoadedChangeset(Shared(LoadedAccounts(db, Touched(ts))), ts)
  {
    AllDistinctIffCount(ts);
    VerifierIsOutcome(db, ts);
    var state := LoadedAccounts(db, Touched(ts));
    OverlayIsOutcome(state, ts);
    OutcomeReadsTouched(db, state, ts);
  }

  /** `execute_body` on prepared transfers, writing the changeset to the state batch. */
  method ExecuteBody(db: Database, transfers: seq<Transfer>) returns (next: Option<Database>, changeset: Changeset)
    ensures next == Run(db, transfers)
    ensures next.Some? ==> VerifierChangeset(db, transfers) == Some(changeset)
  {
    VerifierIsOutcome(db, transfers);
    RunIsOutcome(db, transfers);
    var loaded := LoadExecutionState(db, transfers);
    var result := ExecuteLoaded(loaded, transfers);
    if result.None? {
      return None, [];
    }
    ApplyChangesetIsUnion(db, Outcome(db, transfers).value);
    return Some(ApplyChangeset(db, result.value)), result.value;
  }

  /** `execute_proposal`: the body it proposes passes verification with the changeset it computed. */
  method ExecuteProposal<X>(db: Database, candidates: seq<PreparedTransaction<X>>, malformed: seq<X>)
      returns (body: seq<X>, transfers: seq<Transfer>, changeset: Changeset, next: Database)
    ensures var included := Included(db, candidates);
            body == Transactions(included) && transfers == Transfers(included)
    ensures VerifierChangeset(db, transfers) == Some(changeset)
    ensures Run(db, transfers) == Some(next)
  {
    var candidateTransfers := Transfers(candidates);
    var state := LoadState(db, candidateTransfers);
    var invalid;
    body, invalid, changeset, transfers := ProposePrepared(state, candidates, malformed);
    HonestProposalVerifies(db, candidates);
    VerifierIsOutcome(db, transfers);
    RunIsOutcome(db, transfers);
    ApplyChangesetIsUnion(db, Outcome(db, transfers).value);
    next := ApplyChangeset(db, changeset);
  }

  /**
   * Honest proposals verify: replaying the included transfers through the verifier's own loading and
   * either of its paths gives the proposer's changeset, although the proposer also loaded the
   * accounts of the candidates it rejected.
   */
  lemma {:induction false} HonestProposalVerifies<X>(db: Database, cs: seq<PreparedTransaction<X>>)
    ensures var p := Propose(LoadedAccounts(db, Touched(Transfers(cs))), map[], cs);
            && p.included == Included(db, cs)
            && VerifierChangeset(db, Transfers(p.included)) == Some(ChangesetOf(p.writes))
  {
    var keys := Touched(Transfers(cs));
    var state := LoadedAccounts(db, keys);
    var p := Propose(state, map[], cs);
    var ts := Transfers(p.included);
    assert state + map[] == state && db + map[] == db;
    forall c | c in cs ensures {c.transfer.sender, c.transfer.recipient} <= keys {
      var i :| 0 <= i < |cs| && cs[i] == c;
      assert Transfers(cs)[i] in Transfers(cs);
    }
    ProposeIsGreedy(state, map[], db, cs, keys);
    ReplayIncluded(state, map[], cs);
    OverlayIsOutcome(state, ts);
    OutcomeReadsTouched(db, state, ts);
    VerifierIsOutcome(db, ts);
  }

  // ----- Chains -----

  /** Verifying a block and writing its changeset. */
  ghost function ExecuteBlock(db: Database, ts: seq<Transfer>): Option<Database> {
    var cs := VerifierChangeset(db, ts);
    if cs.None? then None else Some(ApplyChangeset(db, cs.value))
  }

  ghost function ExecuteChain(db: Database, blocks: seq<seq<Transfer>>): Option<Database>
    decreases |blocks|
  {
    if blocks == [] then Some(db)
    else
      var next := ExecuteBlock(db, blocks[0]);
      if next.None? then None else ExecuteChain(next.value, blocks[1..])
  }

  function Flatten<T>(xss: seq<seq<T>>): seq<T>
    decreases |xss|
  {
    if xss == [] then [] else xss[0] + Flatten(xss[1..])
  }

  lemma {:induction false} ExecuteBlockIsRun(db: Database, ts: seq<Transfer>)
    ensures ExecuteBlock(db, ts) == Run(db, ts)
  {
    VerifierIsOutcome(db, ts);
    RunIsOutcome(db, ts);
    var m := Outcome(db, ts);
    if m.Some? { ApplyChangesetIsUnion(db, m.value); }
  }

  /** A chain of executed blocks is its transfers applied to the database one at a time. */
  lemma {:induction false} ChainIsRun(db: Database, blocks: seq<seq<Transfer>>)
    ensures ExecuteChain(db, blocks) == Run(db, Flatten(blocks))
    decreases |blocks|
  {
    if blocks != [] {
      ExecuteBlockIsRun(db, blocks[0]);
      RunConcat(db, blocks[0], Flatten(blocks[1..]));
      var next := ExecuteBlock(db, blocks[0]);
      if next.Some? { ChainIsRun(next.value, blocks[1..]); }
    }
  }

  /** Block boundaries do not matter: two blocks succeed exactly when the joined block does, with the same database. */
  lemma {:induction false} BlockBoundariesDoNotMatter(db: Database, a: seq<Transfer>, b: seq<Transfer>)
    ensures ExecuteChain(db, [a, b]) == ExecuteBlock(db, a + b)
  {
    ChainIsRun(db, [a, b]);
    ExecuteBlockIsRun(db, a + b);
    assert Flatten([a, b]) == a + b by {
      assert [a, b][1..] == [b] && [b][1..] == [];
      assert Flatten([b]) == b;
    }
  }

  /** Any two ways of cutting the same transfers into blocks end in the same database. */
  lemma {:induction false} AnyBlockingAgrees(db: Database, xs: seq<seq<Transfer>>, ys: seq<seq<Transfer>>)
    requires Flatten(xs) == Flatten(ys)
    ensures ExecuteChain(db, xs) == ExecuteChain(db, ys)
  {
    ChainIsRun(db, xs);
    ChainIsRun(db, ys);
  }

  /** No (sender, nonce) pair is accepted twice, in one block or in different blocks. */
  lemma {:induction false} ChainNoReplay(db: Database, blocks: seq<seq<Transfer>>, i: nat, j: nat)
    requires NoncesInRange(db) && ExecuteChain(db, blocks).Some? && i < j < |Flatten(blocks)|
    ensures var ts := Flatten(blocks);
            (ts[i].sender, ts[i].nonce) != (ts[j].sender, ts[j].nonce)
  {
    ChainIsRun(db, blocks);
    NoReplay(db, Flatten(blocks), i, j);
  }

  /** Dead nonces stay dead over whole chains, and a later block offering one is refused. */
  lemma {:induction false} ChainRefusesDead(db: Database, blocks: seq<seq<Transfer>>, t: Transfer)
    requires NoncesInRange(db) && ExecuteChain(db, blocks).Some?
    requires DeadFor(db, t.sender, t.nonce) || exists u :: u in Flatten(blocks) && u.sender == t.sender && u.nonce == t.nonce
    ensures ExecuteChain(db, blocks + [[t]]).None?
  {
    var ts := Flatten(blocks);
    ChainIsRun(db, blocks);
    ChainIsRun(db, blocks + [[t]]);
    FlattenSnoc(blocks, [t]);
    RunConcat(db, ts, [t]);
    if Run(db, ts + [t]).Some? {
      if DeadFor(db, t.sender, t.nonce) {
        DeadIsRefused(db, ts + [t], |ts|);
      } else {
        var i :| 0 <= i < |ts| && ts[i].sender == t.sender && ts[i].nonce == t.nonce;
        NoReplay(db, ts + [t], i, |ts|);
      }
    }
  }

  lemma {:induction false} FlattenSnoc<T>(xss: seq<seq<T>>, xs: seq<T>)
    ensures Flatten(xss + [xs]) == Flatten(xss) + xs
    decreases |xss|
  {
    if xss == [] {
      assert xss + [xs] == [xs];
      assert [xs][1..] == [];
      assert Flatten([xs]) == xs;
    } else {
      assert (xss + [xs])[1..] == xss[1..] + [xs];
      FlattenSnoc(xss[1..], xs);
    }
  }

  /** The total over any key set containing all touched accounts is constant along a chain. */
  lemma {:induction false} ChainConserves(db: Database, blocks: seq<seq<Transfer>>, keys: set<AccountKey>)
    requires Touched(Flatten(blocks)) <= keys && ExecuteChain(db, blocks).Some?
    ensures Total(ExecuteChain(db, blocks).value, keys) == Total(db, keys)
  {
    ChainIsRun(db, blocks);
    RunConserves(db, Flatten(blocks), keys);
  }

  /** No balance leaves `u64` and every nonce stays reachable. */
  lemma {:induction false} ChainKeepsWellFormed(db: Database, blocks: seq<seq<Transfer>>)
    requires WellFormedDatabase(db) && ExecuteChain(db, blocks).Some?
    ensures WellFormedDatabase(ExecuteChain(db, blocks).value)
  {
    ChainIsRun(db, blocks);
    RunKeepsWellFormed(db, Flatten(blocks));
  }
}
