/** Accounts, their order, and the reference semantics of a transfer: one update of the whole database. */
module Ledger {
  import opened Bits
  import opened Wrappers
  import opened Nonces
  import opened Bytes

  datatype AccountKey = AccountKey(bytes: seq<Byte>)

  datatype Account = Account(balance: nat, nonce: Nonce) {
    ghost predicate WellFormed() {
      balance <= U64_MAX && nonce.WellFormed()
    }
  }

  const DEFAULT_ACCOUNT := Account(100, DEFAULT_NONCE)

  datatype Transfer =
    Transfer(sender: AccountKey, recipient: AccountKey, value: nat, nonce: nat, digest: seq<Byte>)

  type Database = map<AccountKey, Account>

  /** Reading an account; accounts that were never written hold the default. */
  function Get(db: Database, k: AccountKey): Account {
    if k in db then db[k] else DEFAULT_ACCOUNT
  }

  /** One transfer applied to the database itself. */
  function Step(db: Database, t: Transfer): Option<Database> {
    var sender := Get(db, t.sender);
    var nonce := NextNonceState(sender.nonce.base, sender.nonce.bitmap, t.nonce);
    if sender.balance < t.value || nonce.None? then None
    else if t.sender == t.recipient then Some(db[t.sender := sender.(nonce := nonce.value)])
    else
      var recipient := Get(db, t.recipient);
      if recipient.balance + t.value > U64_MAX then None
      else Some(db[t.sender := Account(sender.balance - t.value, nonce.value)]
                  [t.recipient := recipient.(balance := recipient.balance + t.value)])
  }

  /** Transfers applied one at a time; the first refused one stops the run. */
  function Run(db: Database, ts: seq<Transfer>): Option<Database>
    decreases |ts|
  {
    if ts == [] then Some(db)
    else
      var next := Step(db, ts[0]);
      if next.None? then None else Run(next.value, ts[1..])
  }

  function Touched(ts: seq<Transfer>): set<AccountKey> {
    (set t | t in ts :: t.sender) + (set t | t in ts :: t.recipient)
  }

  /** The final state of every touched account, or nothing if some transfer is refused. */
  function Outcome(db: Database, ts: seq<Transfer>): Option<Database> {
    var end := Run(db, ts);
    if end.None? then None else Some(map k | k in Touched(ts) :: Get(end.value, k))
  }

  lemma {:induction false} TouchedHead(ts: seq<Transfer>)
    requires ts != []
    ensures Touched(ts) == {ts[0].sender, ts[0].recipient} + Touched(ts[1..])
  {
    assert ts == [ts[0]] + ts[1..];
  }

  lemma {:induction false} TouchedConcat(a: seq<Transfer>, b: seq<Transfer>)
    ensures Touched(a + b) == Touched(a) + Touched(b)
  {}

  lemma {:induction false} RunConcat(db: Database, a: seq<Transfer>, b: seq<Transfer>)
    ensures Run(db, a + b) == (var mid := Run(db, a); if mid.None? then None else Run(mid.value, b))
    decreases |a|
  {
    if a == [] {
      assert a + b == b;
    } else {
      assert (a + b)[1..] == a[1..] + b;
      var next := Step(db, a[0]);
      if next.Some? { RunConcat(next.value, a[1..], b); }
    }
  }

  lemma {:induction false} RunFrame(db: Database, ts: seq<Transfer>)
    requires Run(db, ts).Some?
    ensures var end := Run(db, ts).value;
            && end.Keys == db.Keys + Touched(ts)
            && forall k | k in db && k !in Touched(ts) :: end[k] == db[k]
    decreases |ts|
  {
    if ts != [] {
      TouchedHead(ts);
      RunFrame(Step(db, ts[0]).value, ts[1..]);
    }
  }

  /** A run writes the touched accounts and no others. */
  lemma {:induction false} RunIsOutcome(db: Database, ts: seq<Transfer>)
    ensures Run(db, ts).Some? <==> Outcome(db, ts).Some?
    ensures Run(db, ts).Some? ==> Run(db, ts).value == db + Outcome(db, ts).value
  {
    if Run(db, ts).Some? { RunFrame(db, ts); }
  }

  /** A run reads the touched accounts and no others. */
  lemma {:induction false} OutcomeReadsTouched(a: Database, b: Database, ts: seq<Transfer>)
    requires forall k | k in Touched(ts) :: Get(a, k) == Get(b, k)
    ensures Outcome(a, ts) == Outcome(b, ts)
  {
    RunReadsTouched(a, b, ts, Touched(ts));
    if Run(a, ts).Some? {
      assert Outcome(a, ts).value == Outcome(b, ts).value;
    }
  }

  lemma {:induction false} StepReadsTouched(a: Database, b: Database, t: Transfer, keys: set<AccountKey>)
    requires {t.sender, t.recipient} <= keys
    requires forall k | k in keys :: Get(a, k) == Get(b, k)
    ensures Step(a, t).Some? <==> Step(b, t).Some?
    ensures Step(a, t).Some? ==> forall k | k in keys :: Get(Step(a, t).value, k) == Get(Step(b, t).value, k)
  {
    assert t.sender in keys && t.recipient in keys;
  }

  lemma {:induction false} RunReadsTouched(a: Database, b: Database, ts: seq<Transfer>, keys: set<AccountKey>)
    requires Touched(ts) <= keys
    requires forall k | k in keys :: Get(a, k) == Get(b, k)
    ensures Run(a, ts).Some? <==> Run(b, ts).Some?
    ensures Run(a, ts).Some? ==> forall k | k in keys :: Get(Run(a, ts).value, k) == Get(Run(b, ts).value, k)
    decreases |ts|
  {
    if ts != [] {
      TouchedHead(ts);
      var t := ts[0];
      assert t.sender in keys && t.recipient in keys;
      StepReadsTouched(a, b, t, keys);
      if Step(a, t).Some? { RunReadsTouched(Step(a, t).value, Step(b, t).value, ts[1..], keys); }
    }
  }

  // ----- Conservation -----

  /** The balances of `keys` added up; accounts that were never written count their default. */
  ghost function Total(db: Database, keys: set<AccountKey>): nat {
    if keys == {} then 0
    else
      var k :| k in keys;
      Get(db, k).balance + Total(db, keys - {k})
  }

  lemma {:induction false} TotalWithout(db: Database, keys: set<AccountKey>, k: AccountKey)
    requires k in keys
    ensures Total(db, keys) == Get(db, k).balance + Total(db, keys - {k})
    decreases keys
  {
    var p :| p in keys && Total(db, keys) == Get(db, p).balance + Total(db, keys - {p});
    if p != k {
      TotalWithout(db, keys - {p}, k);
      TotalWithout(db, keys - {k}, p);
      assert keys - {p} - {k} == keys - {k} - {p};
    }
  }

  lemma {:induction false} TotalCongruent(a: Database, b: Database, keys: set<AccountKey>)
    requires forall k | k in keys :: Get(a, k).balance == Get(b, k).balance
    ensures Total(a, keys) == Total(b, keys)
    decreases keys
  {
    if keys != {} {
      var k :| k in keys;
      TotalCongruent(a, b, keys - {k});
      TotalWithout(a, keys, k);
      TotalWithout(b, keys, k);
    }
  }

  lemma {:induction false} StepConserves(db: Database, t: Transfer, keys: set<AccountKey>)
    requires {t.sender, t.recipient} <= keys && Step(db, t).Some?
    ensures Total(Step(db, t).value, keys) == Total(db, keys)
  {
    var next := Step(db, t).value;
    TotalWithout(db, keys, t.sender);
    TotalWithout(next, keys, t.sender);
    if t.sender == t.recipient {
      TotalCongruent(db, next, keys - {t.sender});
    } else {
      TotalWithout(db, keys - {t.sender}, t.recipient);
      TotalWithout(next, keys - {t.sender}, t.recipient);
      TotalCongruent(db, next, keys - {t.sender} - {t.recipient});
    }
  }

  lemma {:induction false} RunConserves(db: Database, ts: seq<Transfer>, keys: set<AccountKey>)
    requires Touched(ts) <= keys && Run(db, ts).Some?
    ensures Total(Run(db, ts).value, keys) == Total(db, keys)
    decreases |ts|
  {
    if ts != [] {
      TouchedHead(ts);
      StepConserves(db, ts[0], keys);
      RunConserves(Step(db, ts[0]).value, ts[1..], keys);
    }
  }

  ghost predicate WellFormedDatabase(db: Database) {
    forall k | k in db :: db[k].WellFormed()
  }

  lemma {:induction false} DefaultWellFormed()
    ensures DEFAULT_ACCOUNT.WellFormed()
  {
    forall n | DEFAULT_NONCE.Dead(n) ensures n < U64_MAX {
      if n > 0 { ZeroHasNoBit(n - 1); }
    }
  }

  /** No balance leaves `u64` and no nonce leaves its reachable states. */
  lemma {:induction false} RunKeepsWellFormed(db: Database, ts: seq<Transfer>)
    requires WellFormedDatabase(db) && Run(db, ts).Some?
    ensures WellFormedDatabase(Run(db, ts).value)
    decreases |ts|
  {
    if ts != [] {
      DefaultWellFormed();
      var sender := Get(db, ts[0].sender);
      ConsumeWellFormed(sender.nonce, ts[0].nonce);
      RunKeepsWellFormed(Step(db, ts[0]).value, ts[1..]);
    }
  }

  // ----- Replay -----

  ghost predicate NoncesInRange(db: Database) {
    forall k | k in db :: db[k].nonce.InRange()
  }

  predicate DeadFor(db: Database, k: AccountKey, n: int) {
    Get(db, k).nonce.Dead(n)
  }

  /** Dead nonces stay dead, for sender, recipient and bystander alike; an accepted nonce becomes dead. */
  lemma {:induction false} StepKeepsDead(db: Database, t: Transfer, k: AccountKey, n: int)
    requires NoncesInRange(db) && Step(db, t).Some?
    ensures var next := Step(db, t).value;
            && NoncesInRange(next)
            && DeadFor(next, t.sender, t.nonce)
            && (DeadFor(db, k, n) ==> DeadFor(next, k, n))
            && (k != t.sender ==> Get(next, k).nonce == Get(db, k).nonce)
  {
    var s := Get(db, t.sender).nonce;
    ConsumeExact(s, t.nonce);
    ConsumeKeepsDead(s, t.nonce, n);
  }

  lemma {:induction false} RunKeepsDead(db: Database, ts: seq<Transfer>, k: AccountKey, n: int)
    requires NoncesInRange(db) && Run(db, ts).Some?
    ensures NoncesInRange(Run(db, ts).value)
    ensures DeadFor(db, k, n) ==> DeadFor(Run(db, ts).value, k, n)
    decreases |ts|
  {
    if ts != [] {
      StepKeepsDead(db, ts[0], k, n);
      RunKeepsDead(Step(db, ts[0]).value, ts[1..], k, n);
    }
  }

  /** A dead nonce is never accepted. */
  lemma {:induction false} DeadIsRefused(db: Database, ts: seq<Transfer>, i: nat)
    requires NoncesInRange(db) && Run(db, ts).Some? && i < |ts|
    ensures !DeadFor(db, ts[i].sender, ts[i].nonce)
    decreases |ts|
  {
    var t := ts[0];
    if i == 0 {
      ConsumeExact(Get(db, t.sender).nonce, t.nonce);
    } else {
      StepKeepsDead(db, t, ts[i].sender, ts[i].nonce);
      DeadIsRefused(Step(db, t).value, ts[1..], i - 1);
    }
  }

  /** No (sender, nonce) pair is accepted twice. */
  lemma {:induction false} NoReplay(db: Database, ts: seq<Transfer>, i: nat, j: nat)
    requires NoncesInRange(db) && Run(db, ts).Some? && i < j < |ts|
    ensures (ts[i].sender, ts[i].nonce) != (ts[j].sender, ts[j].nonce)
    decreases |ts|
  {
    var t := ts[0];
    StepKeepsDead(db, t, t.sender, t.nonce);
    var next := Step(db, t).value;
    if i == 0 {
      DeadIsRefused(next, ts[1..], j - 1);
    } else {
      NoReplay(next, ts[1..], i - 1, j - 1);
    }
  }

  // ----- What a transfer moves -----

  /** A nonce above `n` is still live. */
  ghost predicate LiveAbove(s: Nonce, n: nat) {
    exists m: int :: n < m <= U64_MAX && !s.Dead(m)
  }

  lemma {:induction false} LiveAboveBase(s: Nonce)
    requires s.InRange()
    ensures LiveAbove(s, s.base) <==> s.base + FirstClear(s.bitmap, 0) < U64_MAX
  {
    var first := s.base + FirstClear(s.bitmap, 0) + 1;
    assert !s.Dead(first) by {
      if FirstClear(s.bitmap, 0) == NONCE_BITMAP_CAPACITY { NoBitAboveWindow(s, first - s.base - 1); }
    }
    forall m: int | s.base < m < first ensures s.Dead(m) {
      assert Bit(s.bitmap, m - s.base - 1);
    }
  }

  /**
   * Exactly which transfers are accepted: the sender can pay, the nonce is live, below the last one and does not use up
   * the last live nonce, and the recipient's balance does not overflow.
   */
  lemma {:induction false} StepAcceptsIff(db: Database, t: Transfer)
    requires NoncesInRange(db)
    ensures Step(db, t).Some? <==>
            && t.value <= Get(db, t.sender).balance
            && t.nonce < U64_MAX && !DeadFor(db, t.sender, t.nonce)
            && (t.nonce == Get(db, t.sender).nonce.base ==> LiveAbove(Get(db, t.sender).nonce, t.nonce))
            && (t.sender != t.recipient ==> Get(db, t.recipient).balance + t.value <= U64_MAX)
  {
    ConsumeExact(Get(db, t.sender).nonce, t.nonce);
    LiveAboveBase(Get(db, t.sender).nonce);
  }

  /** In a database an account can reach, every live nonce below the last one is usable. */
  lemma {:induction false} StepAcceptsIffReachable(db: Database, t: Transfer)
    requires WellFormedDatabase(db)
    ensures Step(db, t).Some? <==>
            && t.value <= Get(db, t.sender).balance
            && t.nonce < U64_MAX && !DeadFor(db, t.sender, t.nonce)
            && (t.sender != t.recipient ==> Get(db, t.recipient).balance + t.value <= U64_MAX)
  {
    DefaultWellFormed();
    ConsumeWellFormed(Get(db, t.sender).nonce, t.nonce);
  }

  function Sent(t: Transfer, k: AccountKey): nat {
    if t.sender == k then t.value else 0
  }

  function Received(t: Transfer, k: AccountKey): nat {
    if t.recipient == k then t.value else 0
  }

  /** An accepted transfer takes its value from the sender and gives it to the recipient, and touches no other balance. */
  lemma {:induction false} StepMoves(db: Database, t: Transfer, k: AccountKey)
    requires Step(db, t).Some?
    ensures Get(Step(db, t).value, k).balance + Sent(t, k) == Get(db, k).balance + Received(t, k)
  {
  }

  /** Its sender's dead nonces grow by exactly the one used, or by all below it on a far jump; no other account's change. */
  lemma {:induction false} StepUsesNonce(db: Database, t: Transfer, k: AccountKey, m: int)
    requires NoncesInRange(db) && Step(db, t).Some?
    ensures DeadFor(Step(db, t).value, k, m) <==>
            || DeadFor(db, k, m)
            || (k == t.sender && m == t.nonce)
            || (k == t.sender && m < t.nonce && t.nonce > Get(db, t.sender).nonce.base + NONCE_BITMAP_CAPACITY)
  {
    ConsumeExact(Get(db, t.sender).nonce, t.nonce);
    StepKeepsDead(db, t, k, m);
  }

  /** What `k` sends over a list of transfers, added up. */
  function SentBy(ts: seq<Transfer>, k: AccountKey): nat {
    if ts == [] then 0 else Sent(ts[0], k) + SentBy(ts[1..], k)
  }

  function ReceivedBy(ts: seq<Transfer>, k: AccountKey): nat {
    if ts == [] then 0 else Received(ts[0], k) + ReceivedBy(ts[1..], k)
  }

  /** Every account ends at its start plus what it received minus what it sent. */
  lemma {:induction false} RunMoves(db: Database, ts: seq<Transfer>, k: AccountKey)
    requires Run(db, ts).Some?
    ensures Get(Run(db, ts).value, k).balance + SentBy(ts, k) == Get(db, k).balance + ReceivedBy(ts, k)
    decreases |ts|
  {
    if ts != [] {
      StepMoves(db, ts[0], k);
      RunMoves(Step(db, ts[0]).value, ts[1..], k);
    }
  }

  /** From an empty database on, every account has 100 to begin with. */
  lemma {:induction false} RunFromNothing(ts: seq<Transfer>, k: AccountKey)
    requires Run(map[], ts).Some?
    ensures Get(Run(map[], ts).value, k).balance + SentBy(ts, k) == 100 + ReceivedBy(ts, k)
  {
    RunMoves(map[], ts, k);
  }

  /** The nonces `k` uses, in order. */
  function NoncesOf(ts: seq<Transfer>, k: AccountKey): seq<nat> {
    if ts == [] then []
    else (if ts[0].sender == k then [ts[0].nonce] else []) + NoncesOf(ts[1..], k)
  }

  /** Every account ends with the nonce state that consuming its own nonces leaves. */
  lemma {:induction false} RunUsesNonces(db: Database, ts: seq<Transfer>, k: AccountKey)
    requires Run(db, ts).Some?
    ensures Get(Run(db, ts).value, k).nonce == ConsumeAll(Get(db, k).nonce, NoncesOf(ts, k))
    decreases |ts|
  {
    if ts != [] {
      RunUsesNonces(Step(db, ts[0]).value, ts[1..], k);
      ConsumeAllConcat(Get(db, k).nonce, if ts[0].sender == k then [ts[0].nonce] else [], NoncesOf(ts[1..], k));
    }
  }

  /** A run succeeds exactly if each transfer is accepted by the database the ones before it leave. */
  lemma {:induction false} RunAcceptsIff(db: Database, ts: seq<Transfer>)
    ensures Run(db, ts).Some? <==>
            forall i | 0 <= i < |ts| :: Run(db, ts[..i]).Some? && Step(Run(db, ts[..i]).value, ts[i]).Some?
  {
    forall i | 0 <= i < |ts| && Run(db, ts).Some? ensures Run(db, ts[..i]).Some? && Step(Run(db, ts[..i]).value, ts[i]).Some? {
      RunConcat(db, ts[..i], ts[i..]);
      assert ts == ts[..i] + ts[i..];
    }
    if ts != [] {
      var n := |ts| - 1;
      RunConcat(db, ts[..n], ts[n..]);
      assert ts == ts[..n] + ts[n..] && ts[n..] == [ts[n]] && [ts[n]][1..] == [];
    }
  }
}
