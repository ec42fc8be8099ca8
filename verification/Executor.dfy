/** Transfer execution over a copy-on-write overlay, and the fast path for distinct accounts. */
module Executor {
  import opened Bits
  import opened Wrappers
  import opened Nonces
  import opened Ledger
  import opened Changesets

  /** The loaded accounts of one execution batch; a missing account refuses the transfer. */
  type State = map<AccountKey, Account>

  /** The accounts one accepted transfer writes, read from a partial view of the database. */
  function TransferWrites(view: State, t: Transfer): Option<State> {
    if t.sender !in view then None
    else
      var sender := view[t.sender];
      var nonce := NextNonceState(sender.nonce.base, sender.nonce.bitmap, t.nonce);
      if sender.balance < t.value || nonce.None? then None
      else if t.sender == t.recipient then Some(map[t.sender := sender.(nonce := nonce.value)])
      else if t.recipient !in view then None
      else
        var recipient := view[t.recipient];
        if recipient.balance + t.value > U64_MAX then None
        else Some(map[t.sender := Account(sender.balance - t.value, nonce.value),
                      t.recipient := recipient.(balance := recipient.balance + t.value)])
  }

  /** The overlay after `ts`, starting from pending `writes`. */
  function OverlayWrites(base: State, writes: State, ts: seq<Transfer>): Option<State>
    decreases |ts|
  {
    if ts == [] then Some(writes)
    else
      var w := TransferWrites(base + writes, ts[0]);
      if w.None? then None else OverlayWrites(base, writes + w.value, ts[1..])
  }

  class Overlay {
    const base: State
    var writes: State

    constructor (base: State)
      ensures this.base == base && writes == map[]
    {
      this.base := base;
      writes := map[];
    }

    function View(): State
      reads this
    {
      base + writes
    }

    function Get(key: AccountKey): (account: Option<Account>)
      reads this
      ensures account.Some? <==> key in View()
      ensures account.Some? ==> account.value == View()[key]
    {
      if key in writes then Some(writes[key])
      else if key in base then Some(base[key])
      else None
    }

    method Set(key: AccountKey, account: Account)
      modifies this
      ensures writes == old(writes)[key := account]
    {
      writes := writes[key := account];
    }

    /** `apply_transfer`: all of the transfer's writes, or none. */
    method ApplyTransfer(t: Transfer) returns (applied: bool)
      modifies this
      ensures var w := TransferWrites(old(View()), t);
              && applied == w.Some?
              && writes == old(writes) + (if w.Some? then w.value else map[])
    {
      var found := Get(t.sender);
      if found.None? {
        return false;
      }
      var sender := found.value;
      if sender.balance < t.value {
        return false;
      }
      var nonce, accepted := Consume(sender.nonce, t.nonce);
      if !accepted {
        return false;
      }
      sender := sender.(nonce := nonce);
      if t.sender == t.recipient {
        Set(t.sender, sender);
        return true;
      }
      var other := Get(t.recipient);
      if other.None? {
        return false;
      }
      var recipient := other.value;
      if recipient.balance + t.value > U64_MAX {
        return false;
      }
      sender := sender.(balance := sender.balance - t.value);
      recipient := recipient.(balance := recipient.balance + t.value);
      Set(t.sender, sender);
      Set(t.recipient, recipient);
      return true;
    }

    /** The writes leave the hash map in any order; sorting makes the result unique. */
    method IntoChangeset() returns (cs: Changeset)
      ensures cs == ChangesetOf(writes)
    {
      var entries: Changeset := [];
      var keys := writes.Keys;
      while keys != {}
        invariant keys <= writes.Keys
        invariant DistinctKeys(entries)
        invariant forall e: Entry :: e in entries <==> e.0 in writes && e.0 !in keys && writes[e.0] == e.1
        decreases keys
      {
        var k :| k in keys;
        entries := entries + [(k, writes[k])];
        keys := keys - {k};
      }
      SortByKeyIsChangeset(entries, writes);
      cs := SortByKey(entries);
    }
  }

  // ----- The overlay refines the database -----

  /** `view` holds what the database holds for the accounts of `t`. */
  predicate Loaded(view: State, db: Database, keys: set<AccountKey>) {
    forall k | k in keys :: k in view && view[k] == Ledger.Get(db, k)
  }

  lemma {:induction false} TransferWritesIsStep(view: State, db: Database, t: Transfer)
    requires Loaded(view, db, {t.sender, t.recipient})
    ensures var w := TransferWrites(view, t);
            && (w.Some? <==> Step(db, t).Some?)
            && (w.Some? ==> w.value.Keys == {t.sender, t.recipient} && Step(db, t).value == db + w.value)
  {}

  lemma {:induction false} UnionAssociates(a: State, b: State, c: State)
    ensures a + b + c == a + (b + c)
  {}

  lemma {:induction false} LoadedAfterWrites(base: State, db: Database, writes: State, w: State, keys: set<AccountKey>)
    requires Loaded(base + writes, db + writes, keys)
    ensures Loaded(base + (writes + w), db + (writes + w), keys)
  {
    forall k | k in keys
      ensures k in base + (writes + w) && (base + (writes + w))[k] == Ledger.Get(db + (writes + w), k)
    {
      assert k in base + writes && (base + writes)[k] == Ledger.Get(db + writes, k);
    }
  }

  /** Running the overlay on loaded accounts is running the database. */
  lemma {:induction false} OverlayIsRun(base: State, writes: State, db: Database, ts: seq<Transfer>, keys: set<AccountKey>)
    requires Touched(ts) <= keys && Loaded(base + writes, db + writes, keys)
    ensures var w := OverlayWrites(base, writes, ts);
            var end := Run(db + writes, ts);
            && (w.Some? <==> end.Some?)
            && (w.Some? ==> end.value == db + w.value && w.value.Keys == writes.Keys + Touched(ts))
    decreases |ts|
  {
    if ts != [] {
      var t := ts[0];
      TouchedHead(ts);
      TransferWritesIsStep(base + writes, db + writes, t);
      var w := TransferWrites(base + writes, t);
      if w.Some? {
        UnionAssociates(db, writes, w.value);
        LoadedAfterWrites(base, db, writes, w.value, keys);
        OverlayIsRun(base, writes + w.value, db, ts[1..], keys);
        assert (writes + w.value).Keys == writes.Keys + {t.sender, t.recipient};
      }
    }
  }

  lemma {:induction false} OverlayNeedsTouched(base: State, writes: State, ts: seq<Transfer>)
    requires OverlayWrites(base, writes, ts).Some?
    ensures Touched(ts) <= base.Keys + writes.Keys
    decreases |ts|
  {
    if ts != [] {
      TouchedHead(ts);
      var w := TransferWrites(base + writes, ts[0]).value;
      OverlayNeedsTouched(base, writes + w, ts[1..]);
    }
  }

  /** The overlay's writes, for any loaded state: all touched accounts must be loaded, and then they end as the database would. */
  lemma {:induction false} OverlayIsOutcome(state: State, ts: seq<Transfer>)
    ensures OverlayWrites(state, map[], ts) == if Touched(ts) <= state.Keys then Outcome(state, ts) else None
  {
    if Touched(ts) <= state.Keys {
      assert state + map[] == state;
      OverlayIsRun(state, map[], state, ts, Touched(ts));
      var w := OverlayWrites(state, map[], ts);
      if w.Some? {
        assert w.value == Outcome(state, ts).value;
      }
    } else if OverlayWrites(state, map[], ts).Some? {
      OverlayNeedsTouched(state, map[], ts);
    }
  }

  /** `execute` */
  method Execute(state: State, transfers: seq<Transfer>) returns (changeset: Option<Changeset>)
    ensures changeset.Some? <==> Touched(transfers) <= state.Keys && Run(state, transfers).Some?
    ensures changeset.Some? ==> changeset.value == ChangesetOf(Outcome(state, transfers).value)
  {
    OverlayIsOutcome(state, transfers);
    RunIsOutcome(state, transfers);
    var overlay := new Overlay(state);
    for i := 0 to |transfers|
      invariant overlay.base == state
      invariant OverlayWrites(state, overlay.writes, transfers[i..]) == OverlayWrites(state, map[], transfers)
    {
      assert transfers[i..][1..] == transfers[i + 1..];
      var applied := overlay.ApplyTransfer(transfers[i]);
      if !applied {
        return None;
      }
    }
    var cs := overlay.IntoChangeset();
    return Some(cs);
  }

  // ----- The fast path -----

  /** Sender and recipient keys in order, two per transfer. */
  function AccountKeys(ts: seq<Transfer>): (ks: seq<AccountKey>)
    ensures |ks| == 2 * |ts|
    decreases |ts|
  {
    if ts == [] then [] else [ts[0].sender, ts[0].recipient] + AccountKeys(ts[1..])
  }

  /** No account occurs twice, whether as sender or recipient. */
  predicate AllDistinct(ts: seq<Transfer>)
    decreases |ts|
  {
    ts == [] ||
    (ts[0].sender != ts[0].recipient && {ts[0].sender, ts[0].recipient} !! Touched(ts[1..]) && AllDistinct(ts[1..]))
  }

  /** Counting distinct keys, as the loader does, decides distinctness. */
  lemma {:induction false} AllDistinctIffCount(ts: seq<Transfer>)
    ensures |Touched(ts)| <= 2 * |ts|
    ensures AllDistinct(ts) <==> |Touched(ts)| == 2 * |ts|
    decreases |ts|
  {
    if ts == [] {
      assert Touched(ts) == {};
    } else {
      TouchedHead(ts);
      AllDistinctIffCount(ts[1..]);
      var pair, rest := {ts[0].sender, ts[0].recipient}, Touched(ts[1..]);
      assert |pair + rest| == |pair| + |rest| - |pair * rest|;
      assert |pair| <= 2 && (|pair| == 2 <==> ts[0].sender != ts[0].recipient);
      assert |pair * rest| == 0 <==> pair !! rest;
    }
  }

  /** `accounts` are the database's accounts for `AccountKeys(ts)`. */
  predicate LoadedInOrder(db: Database, ts: seq<Transfer>, accounts: seq<Account>)
    decreases |ts|
  {
    |accounts| == 2 * |ts| &&
    (ts != [] ==>
       && accounts[0] == Ledger.Get(db, ts[0].sender)
       && accounts[1] == Ledger.Get(db, ts[0].recipient)
       && LoadedInOrder(db, ts[1..], accounts[2..]))
  }

  /** What the fast path makes of one transfer and its two accounts. */
  function PairEntries(t: Transfer, sender: Account, recipient: Account): Option<Changeset> {
    var nonce := NextNonceState(sender.nonce.base, sender.nonce.bitmap, t.nonce);
    if sender.balance < t.value || nonce.None? || recipient.balance + t.value > U64_MAX then None
    else Some([(t.sender, Account(sender.balance - t.value, nonce.value)),
               (t.recipient, recipient.(balance := recipient.balance + t.value))])
  }

  function UniqueEntries(ts: seq<Transfer>, accounts: seq<Account>): Option<Changeset>
    requires |accounts| == 2 * |ts|
    decreases |ts|
  {
    if ts == [] then Some([])
    else
      var head := PairEntries(ts[0], accounts[0], accounts[1]);
      if head.None? then None
      else
        var tail := UniqueEntries(ts[1..], accounts[2..]);
        if tail.None? then None else Some(head.value + tail.value)
  }

  lemma {:induction false} LoadedElsewhere(a: Database, b: Database, ts: seq<Transfer>, accounts: seq<Account>)
    requires LoadedInOrder(a, ts, accounts)
    requires forall k | k in Touched(ts) :: Ledger.Get(a, k) == Ledger.Get(b, k)
    ensures LoadedInOrder(b, ts, accounts)
    decreases |ts|
  {
    if ts != [] {
      TouchedHead(ts);
      LoadedElsewhere(a, b, ts[1..], accounts[2..]);
    }
  }

  /** The outcome of a distinct batch is the first transfer's pair beside the outcome of the rest. */
  lemma {:induction false} OutcomeHead(db: Database, ts: seq<Transfer>)
    requires ts != [] && AllDistinct(ts) && Run(db, ts).Some?
    ensures var next := Step(db, ts[0]).value;
            && Run(next, ts[1..]).Some?
            && Outcome(db, ts).value ==
               Outcome(next, ts[1..]).value[ts[0].sender := Ledger.Get(next, ts[0].sender)]
                                           [ts[0].recipient := Ledger.Get(next, ts[0].recipient)]
  {
    TouchedHead(ts);
    var t, next := ts[0], Step(db, ts[0]).value;
    RunFrame(next, ts[1..]);
    var end, rest := Run(next, ts[1..]).value, Touched(ts[1..]);
    assert t.sender !in rest && t.recipient !in rest;
    assert end[t.sender] == next[t.sender] && end[t.recipient] == next[t.recipient];
    OutcomeOfTail(end, rest, t.sender, t.recipient);
  }

  /** Listing the values of some keys, and of two more keys, extends the listing by those two. */
  lemma {:induction false} OutcomeOfTail(end: Database, rest: set<AccountKey>, a: AccountKey, b: AccountKey)
    ensures (map k | k in {a, b} + rest :: Ledger.Get(end, k))
         == (map k | k in rest :: Ledger.Get(end, k))[a := Ledger.Get(end, a)][b := Ledger.Get(end, b)]
  {
  }

  lemma {:induction false} ListsPair(head: Changeset, tail: Changeset, m: Database)
    requires |head| == 2 && head[0].0 != head[1].0
    requires DistinctKeys(tail) && Lists(tail, m)
    requires head[0].0 !in m && head[1].0 !in m
    ensures DistinctKeys(head + tail)
    ensures Lists(head + tail, m[head[0].0 := head[0].1][head[1].0 := head[1].1])
  {
    var all := head + tail;
    forall e | e in tail ensures e.0 in m {}
    forall i, j | 0 <= i < j < |all| ensures all[i].0 != all[j].0 {
      if j >= 2 { assert all[j] == tail[j - 2] && all[j] in tail; }
      if i >= 2 { assert all[i] == tail[i - 2]; }
    }
    var n := m[head[0].0 := head[0].1][head[1].0 := head[1].1];
    forall e: Entry ensures e in all <==> e.0 in n && n[e.0] == e.1 {
      assert e in all <==> e == head[0] || e == head[1] || e in tail;
    }
  }

  lemma {:induction false} PairIsStep(db: Database, t: Transfer)
    requires t.sender != t.recipient
    ensures var head := PairEntries(t, Ledger.Get(db, t.sender), Ledger.Get(db, t.recipient));
            var next := Step(db, t);
            && (head.Some? <==> next.Some?)
            && (head.Some? ==>
                  && head.value == [(t.sender, Ledger.Get(next.value, t.sender)),
                                    (t.recipient, Ledger.Get(next.value, t.recipient))]
                  && forall k | k !in {t.sender, t.recipient} :: Ledger.Get(next.value, k) == Ledger.Get(db, k))
  {}

  /** The fast path lists what the database would hold, and fails exactly when the database run fails. */
  lemma {:induction false} UniqueIsOutcome(db: Database, ts: seq<Transfer>, accounts: seq<Account>)
    requires AllDistinct(ts) && LoadedInOrder(db, ts, accounts)
    ensures var es := UniqueEntries(ts, accounts);
            && (es.Some? <==> Run(db, ts).Some?)
            && (es.Some? ==> DistinctKeys(es.value) && Lists(es.value, Outcome(db, ts).value))
    decreases |ts|
  {
    if ts != [] {
      var head := PairEntries(ts[0], accounts[0], accounts[1]);
      var next := Step(db, ts[0]);
      PairIsStep(db, ts[0]);
      if head.Some? {
        LoadedElsewhere(db, next.value, ts[1..], accounts[2..]);
        UniqueIsOutcome(next.value, ts[1..], accounts[2..]);
        var tail := UniqueEntries(ts[1..], accounts[2..]);
        if tail.Some? {
          OutcomeHead(db, ts);
          ListsPair(head.value, tail.value, Outcome(next.value, ts[1..]).value);
        }
      }
    } else {
      assert Touched(ts) == {};
    }
  }

  lemma {:induction false} UniqueEntriesStep(ts: seq<Transfer>, accounts: seq<Account>, i: nat)
    requires |accounts| == 2 * |ts| && i < |ts|
    ensures var head := PairEntries(ts[i], accounts[2 * i], accounts[2 * i + 1]);
            var tail := UniqueEntries(ts[i + 1..], accounts[2 * i + 2..]);
            UniqueEntries(ts[i..], accounts[2 * i..]) ==
            if head.None? || tail.None? then None else Some(head.value + tail.value)
  {
    assert ts[i..][1..] == ts[i + 1..];
    assert accounts[2 * i..][2..] == accounts[2 * i + 2..];
  }

  /** `execute_unique`, on every input; `UniqueIsOutcome` says what its entries mean. */
  method ExecuteUnique(transfers: seq<Transfer>, accounts: seq<Account>) returns (changeset: Option<Changeset>)
    ensures |accounts| != 2 * |transfers| ==> changeset == None
    ensures |accounts| == 2 * |transfers| ==>
              var es := UniqueEntries(transfers, accounts);
              changeset == if es.Some? then Some(SortByKey(es.value)) else None
  {
    if |accounts| != 2 * |transfers| {
      return None;
    }
    var entries: Changeset := [];
    assert transfers[0..] == transfers && accounts[2 * 0..] == accounts;
    assert forall tail: Changeset :: entries + tail == tail;
    for i := 0 to |transfers|
      invariant var rest := UniqueEntries(transfers[i..], accounts[2 * i..]);
                UniqueEntries(transfers, accounts) == if rest.None? then None else Some(entries + rest.value)
    {
      UniqueEntriesStep(transfers, accounts, i);
      var t := transfers[i];
      var sender := accounts[2 * i];
      if sender.balance < t.value {
        return None;
      }
      var nonce, accepted := Consume(sender.nonce, t.nonce);
      if !accepted {
        return None;
      }
      var recipient := accounts[2 * i + 1];
      if recipient.balance + t.value > U64_MAX {
        return None;
      }
      sender := Account(sender.balance - t.value, nonce);
      recipient := recipient.(balance := recipient.balance + t.value);
      ghost var before := entries;
      entries := entries + [(t.sender, sender)];
      entries := entries + [(t.recipient, recipient)];
      assert forall tail: Changeset ::
          before + ([(t.sender, sender), (t.recipient, recipient)] + tail) == entries + tail;
    }
    assert entries + [] == entries;
    return Some(SortByKey(entries));
  }

  // ----- Proposals -----

  /** A transaction paired with the transfer it asks for. */
  datatype PreparedTransaction<X> = PreparedTransaction(transaction: X, transfer: Transfer)

  function Transfers<X>(cs: seq<PreparedTransaction<X>>): (ts: seq<Transfer>)
    ensures |ts| == |cs| && forall i | 0 <= i < |cs| :: ts[i] == cs[i].transfer
  {
    seq(|cs|, i requires 0 <= i < |cs| => cs[i].transfer)
  }

  function Transactions<X>(cs: seq<PreparedTransaction<X>>): (xs: seq<X>)
    ensures |xs| == |cs| && forall i | 0 <= i < |cs| :: xs[i] == cs[i].transaction
  {
    seq(|cs|, i requires 0 <= i < |cs| => cs[i].transaction)
  }

  /** The overlay's decisions on a list of candidates. */
  datatype Proposal<X> =
    Proposal(included: seq<PreparedTransaction<X>>, excluded: seq<PreparedTransaction<X>>, writes: State)

  function Propose<X>(base: State, writes: State, cs: seq<PreparedTransaction<X>>): Proposal<X>
    decreases |cs|
  {
    if cs == [] then Proposal([], [], writes)
    else
      var w := TransferWrites(base + writes, cs[0].transfer);
      if w.Some? then
        var p := Propose(base, writes + w.value, cs[1..]);
        p.(included := [cs[0]] + p.included)
      else
        var p := Propose(base, writes, cs[1..]);
        p.(excluded := [cs[0]] + p.excluded)
  }

  /** The candidates the database itself would accept, taken greedily in order. */
  function Included<X>(db: Database, cs: seq<PreparedTransaction<X>>): seq<PreparedTransaction<X>>
    decreases |cs|
  {
    if cs == [] then []
    else
      var next := Step(db, cs[0].transfer);
      if next.Some? then [cs[0]] + Included(next.value, cs[1..]) else Included(db, cs[1..])
  }

  lemma {:induction false} TransfersCons<X>(c: PreparedTransaction<X>, cs: seq<PreparedTransaction<X>>)
    ensures Transfers([c] + cs) == [c.transfer] + Transfers(cs)
  {}

  /** Replaying the included transfers through a fresh overlay gives the proposer's own writes, whatever was loaded. */
  lemma {:induction false} ReplayIncluded<X>(base: State, writes: State, cs: seq<PreparedTransaction<X>>)
    ensures var p := Propose(base, writes, cs);
            OverlayWrites(base, writes, Transfers(p.included)) == Some(p.writes)
    decreases |cs|
  {
    if cs != [] {
      var w := TransferWrites(base + writes, cs[0].transfer);
      if w.Some? {
        var rest := Propose(base, writes + w.value, cs[1..]).included;
        ReplayIncluded(base, writes + w.value, cs[1..]);
        TransfersCons(cs[0], rest);
        assert ([cs[0].transfer] + Transfers(rest))[1..] == Transfers(rest);
      } else {
        ReplayIncluded(base, writes, cs[1..]);
      }
    }
  }

  /** With all candidate accounts loaded, the proposer includes exactly the greedy choice. */
  lemma {:induction false} ProposeIsGreedy<X>(
      base: State, writes: State, db: Database, cs: seq<PreparedTransaction<X>>, keys: set<AccountKey>)
    requires Loaded(base + writes, db + writes, keys)
    requires forall c | c in cs :: {c.transfer.sender, c.transfer.recipient} <= keys
    ensures Propose(base, writes, cs).included == Included(db + writes, cs)
    decreases |cs|
  {
    if cs != [] {
      var t := cs[0].transfer;
      assert cs[0] in cs;
      TransferWritesIsStep(base + writes, db + writes, t);
      var w := TransferWrites(base + writes, t);
      if w.Some? {
        UnionAssociates(db, writes, w.value);
        LoadedAfterWrites(base, db, writes, w.value, keys);
        ProposeIsGreedy(base, writes + w.value, db, cs[1..], keys);
      } else {
        ProposeIsGreedy(base, writes, db, cs[1..], keys);
      }
    }
  }

  /** Every candidate is either included or excluded, each side keeping the candidates' order. */
  lemma {:induction false} ProposePartitions<X>(base: State, writes: State, cs: seq<PreparedTransaction<X>>)
    ensures var p := Propose(base, writes, cs);
            multiset(p.included) + multiset(p.excluded) == multiset(cs)
    decreases |cs|
  {
    if cs != [] {
      assert cs == [cs[0]] + cs[1..];
      var w := TransferWrites(base + writes, cs[0].transfer);
      ProposePartitions(base, if w.Some? then writes + w.value else writes, cs[1..]);
    }
  }

  lemma {:induction false} IncludedReplays<X>(db: Database, cs: seq<PreparedTransaction<X>>)
    ensures Run(db, Transfers(Included(db, cs))).Some?
    decreases |cs|
  {
    if cs != [] {
      var next := Step(db, cs[0].transfer);
      IncludedReplays(if next.Some? then next.value else db, cs[1..]);
      if next.Some? {
        var rest := Included(next.value, cs[1..]);
        TransfersCons(cs[0], rest);
        assert ([cs[0].transfer] + Transfers(rest))[1..] == Transfers(rest);
      }
    }
  }

  /** A candidate is included exactly if the ledger accepts it after the candidates included before it. */
  lemma {:induction false} IncludedSnoc<X>(db: Database, cs: seq<PreparedTransaction<X>>, c: PreparedTransaction<X>)
    ensures var included := Included(db, cs);
            var before := Run(db, Transfers(included));
            before.Some? && Included(db, cs + [c]) == included + (if Step(before.value, c.transfer).Some? then [c] else [])
    decreases |cs|
  {
    IncludedReplays(db, cs);
    if cs == [] {
      assert cs + [c] == [c] && [c][1..] == [];
    } else {
      assert (cs + [c])[1..] == cs[1..] + [c];
      var next := Step(db, cs[0].transfer);
      IncludedSnoc(if next.Some? then next.value else db, cs[1..], c);
      if next.Some? {
        var rest := Included(next.value, cs[1..]);
        TransfersCons(cs[0], rest);
        assert ([cs[0].transfer] + Transfers(rest))[1..] == Transfers(rest);
      }
    }
  }

  /** The transactions that ask for a transfer, or those that do not, in order. */
  function Split<X>(prepare: X -> Option<Transfer>, xs: seq<X>, usable: bool): seq<X> {
    if xs == [] then []
    else
      var n := |xs| - 1;
      Split(prepare, xs[..n], usable) + (if prepare(xs[n]).Some? == usable then [xs[n]] else [])
  }

  /** Each side keeps the order of the whole, and both together are the whole. */
  lemma {:induction false} SplitConcat<X>(prepare: X -> Option<Transfer>, a: seq<X>, b: seq<X>, usable: bool)
    ensures Split(prepare, a + b, usable) == Split(prepare, a, usable) + Split(prepare, b, usable)
    decreases |b|
  {
    if b == [] {
      assert a + b == a;
    } else {
      var n := |b| - 1;
      assert (a + b)[..|a + b| - 1] == a + b[..n];
      SplitConcat(prepare, a, b[..n], usable);
    }
  }

  lemma {:induction false} SplitPartitions<X>(prepare: X -> Option<Transfer>, xs: seq<X>)
    ensures multiset(Split(prepare, xs, true)) + multiset(Split(prepare, xs, false)) == multiset(xs)
    ensures forall x | x in Split(prepare, xs, true) :: prepare(x).Some?
    ensures forall x | x in Split(prepare, xs, false) :: prepare(x).None?
  {
    if xs != [] {
      var n := |xs| - 1;
      SplitPartitions(prepare, xs[..n]);
      assert xs == xs[..n] + [xs[n]];
    }
  }

  lemma {:induction false} SplitSnoc<X>(prepare: X -> Option<Transfer>, xs: seq<X>, i: nat, usable: bool)
    requires i < |xs|
    ensures Split(prepare, xs[..i + 1], usable)
         == Split(prepare, xs[..i], usable) + (if prepare(xs[i]).Some? == usable then [xs[i]] else [])
  {
    assert xs[..i + 1][..i] == xs[..i];
  }

  /** `prepare_proposal`: transactions without a usable sender are set aside. */
  method PrepareProposal<X>(prepare: X -> Option<Transfer>, transactions: seq<X>)
      returns (candidates: seq<PreparedTransaction<X>>, invalid: seq<X>)
    ensures forall c | c in candidates :: prepare(c.transaction) == Some(c.transfer)
    ensures Transactions(candidates) == Split(prepare, transactions, true)
    ensures invalid == Split(prepare, transactions, false)
    ensures forall x | x in invalid :: prepare(x).None?
    ensures multiset(Transactions(candidates)) + multiset(invalid) == multiset(transactions)
  {
    candidates, invalid := [], [];
    for i := 0 to |transactions|
      invariant forall c | c in candidates :: prepare(c.transaction) == Some(c.transfer)
      invariant Transactions(candidates) == Split(prepare, transactions[..i], true)
      invariant invalid == Split(prepare, transactions[..i], false)
    {
      var x := transactions[i];
      SplitSnoc(prepare, transactions, i, true);
      SplitSnoc(prepare, transactions, i, false);
      var transfer := prepare(x);
      if transfer.None? {
        invalid := invalid + [x];
        continue;
      }
      SnocMaps(candidates, PreparedTransaction(x, transfer.value));
      candidates := candidates + [PreparedTransaction(x, transfer.value)];
    }
    assert transactions[..|transactions|] == transactions;
    SplitPartitions(prepare, transactions);
  }

  lemma {:induction false} ProposeSnoc<X>(base: State, writes: State, cs: seq<PreparedTransaction<X>>, c: PreparedTransaction<X>)
    ensures var p := Propose(base, writes, cs);
            var w := TransferWrites(base + p.writes, c.transfer);
            Propose(base, writes, cs + [c]) ==
            if w.Some? then Proposal(p.included + [c], p.excluded, p.writes + w.value)
            else Proposal(p.included, p.excluded + [c], p.writes)
    decreases |cs|
  {
    if cs == [] {
      assert cs + [c] == [c];
      assert [c][1..] == [];
    } else {
      assert (cs + [c])[1..] == cs[1..] + [c];
      var w := TransferWrites(base + writes, cs[0].transfer);
      var q := if w.Some? then writes + w.value else writes;
      ProposeSnoc(base, q, cs[1..], c);
      var p := Propose(base, q, cs[1..]);
      assert [cs[0]] + (p.included + [c]) == [cs[0]] + p.included + [c];
      assert [cs[0]] + (p.excluded + [c]) == [cs[0]] + p.excluded + [c];
    }
  }

  lemma {:induction false} SnocMaps<X>(cs: seq<PreparedTransaction<X>>, c: PreparedTransaction<X>)
    ensures Transfers(cs + [c]) == Transfers(cs) + [c.transfer]
    ensures Transactions(cs + [c]) == Transactions(cs) + [c.transaction]
  {}

  /** `propose_prepared` */
  method ProposePrepared<X>(state: State, candidates: seq<PreparedTransaction<X>>, malformed: seq<X>)
      returns (valid: seq<X>, invalid: seq<X>, changeset: Changeset, transfers: seq<Transfer>)
    ensures var p := Propose(state, map[], candidates);
            && valid == Transactions(p.included)
            && transfers == Transfers(p.included)
            && invalid == malformed + Transactions(p.excluded)
            && changeset == ChangesetOf(p.writes)
  {
    var overlay := new Overlay(state);
    valid, invalid, transfers := [], malformed, [];
    for i := 0 to |candidates|
      invariant overlay.base == state
      invariant var p := Propose(state, map[], candidates[..i]);
                && overlay.writes == p.writes
                && valid == Transactions(p.included) && transfers == Transfers(p.included)
                && invalid == malformed + Transactions(p.excluded)
    {
      var c := candidates[i];
      ghost var p := Propose(state, map[], candidates[..i]);
      assert candidates[..i + 1] == candidates[..i] + [c];
      ProposeSnoc(state, map[], candidates[..i], c);
      SnocMaps(p.included, c);
      SnocMaps(p.excluded, c);
      var applied := overlay.ApplyTransfer(c.transfer);
      if applied {
        transfers := transfers + [c.transfer];
        valid := valid + [c.transaction];
      } else {
        invalid := invalid + [c.transaction];
      }
    }
    assert candidates[..|candidates|] == candidates;
    changeset := overlay.IntoChangeset();
  }
}
