/** Chains of accepted blocks: decoding, preparing and executing bodies on top of the parent. */
module Chain {
  import opened Wrappers
  import opened Bytes
  import opened Ledger
  import opened Codec
  import opened History
  import Execution

  /** The hash functions and curve checks in use. */
  datatype Env = Env(curves: Curves, sha256: seq<Byte> -> seq<Byte>, digest: seq<Byte> -> seq<Byte>)

  /** `AccountKey::from_public_key_bytes`: Ed25519 keys name themselves, secp256r1 keys are hashed. */
  function AccountKeyFromPublicKeyBytes(env: Env, bytes: seq<Byte>): Option<AccountKey> {
    if |bytes| != PUBLIC_KEY_SIZE then None
    else if bytes[0] == ED25519_SCHEME then Some(AccountKey(bytes[1..33]))
    else if bytes[0] == SECP256R1_SCHEME then Some(AccountKey(env.sha256(bytes)))
    else None
  }

  function PrepareTransfer(env: Env, s: SignedTransaction): Option<Transfer> {
    var t := s.transaction;
    var sender := AccountKeyFromPublicKeyBytes(env, t.sender);
    if sender.None? then None
    else Some(Transfer(sender.value, t.to, t.value, t.nonce, env.digest(t.Encode())))
  }

  /** Decoding and preparing one body entry. */
  function PrepareEntry(env: Env, bytes: seq<Byte>): Option<Transfer> {
    var s := DecodeSigned(env.curves, bytes);
    if s.None? then None else PrepareTransfer(env, s.value)
  }

  /** The transfers of a body, or nothing if an entry is malformed. */
  function PrepareBody(env: Env, body: seq<seq<Byte>>): (ts: Option<seq<Transfer>>)
    ensures ts.Some? <==> forall i | 0 <= i < |body| :: PrepareEntry(env, body[i]).Some?
    ensures ts.Some? ==> |ts.value| == |body|
                         && forall i | 0 <= i < |body| :: ts.value[i] == PrepareEntry(env, body[i]).value
  {
    if forall i | 0 <= i < |body| :: PrepareEntry(env, body[i]).Some?
    then Some(seq(|body|, i requires 0 <= i < |body| && PrepareEntry(env, body[i]).Some? => PrepareEntry(env, body[i]).value))
    else None
  }

  /**
   * What `verify_child` checks of a child against its parent: the body decodes, the verifier's own loading and execution
   * yields a changeset, and the header carries the derived range.
   */
  ghost predicate Accepted(env: Env, db: Database, parent: Block, child: Block) {
    var ts := PrepareBody(env, child.body);
    ts.Some? && Execution.VerifierChangeset(db, ts.value).Some? && RangeFollows(parent, child)
  }

  /** The state database after blocks `0..i`, each written as the verifier's changeset. */
  ghost function DatabaseAfter(env: Env, db: Database, blocks: seq<Block>, i: nat): Option<Database>
    requires i < |blocks|
  {
    if i == 0 then Some(db)
    else
      var before := DatabaseAfter(env, db, blocks, i - 1);
      var ts := PrepareBody(env, blocks[i].body);
      if before.None? || ts.None? then None else Execution.ExecuteBlock(before.value, ts.value)
  }

  /** Block `i` was accepted on top of its predecessor. */
  ghost predicate Linked(env: Env, db: Database, blocks: seq<Block>, i: nat)
    requires 1 <= i < |blocks|
  {
    var before := DatabaseAfter(env, db, blocks, i - 1);
    before.Some? && Accepted(env, before.value, blocks[i - 1], blocks[i])
  }

  ghost predicate ValidChain(env: Env, db: Database, blocks: seq<Block>) {
    |blocks| >= 1 && IsGenesis(blocks[0]) && forall i | 1 <= i < |blocks| :: Linked(env, db, blocks, i)
  }

  /** The digests the application appends for a body it accepted. */
  function BodyDigests(env: Env, body: seq<seq<Byte>>): seq<seq<Byte>> {
    var ts := PrepareBody(env, body);
    if ts.None? then [] else seq(|ts.value|, i requires 0 <= i < |ts.value| => ts.value[i].digest)
  }

  function ChainDigests(env: Env, blocks: seq<Block>): seq<seq<seq<Byte>>> {
    seq(|blocks|, i requires 0 <= i < |blocks| => BodyDigests(env, blocks[i].body))
  }

  /** Accepted chains carry derived ranges, so everything said about ranges and the log holds of them. */
  lemma {:induction false} ValidChainIsRanged(env: Env, db: Database, blocks: seq<Block>)
    requires ValidChain(env, db, blocks)
    ensures Ranged(blocks, ChainDigests(env, blocks))
    ensures forall i | 0 <= i < |blocks| :: PrepareBody(env, blocks[i].body).Some?
  {
    forall i | 0 <= i < |blocks|
      ensures PrepareBody(env, blocks[i].body).Some?
      ensures |ChainDigests(env, blocks)[i]| == |blocks[i].body|
      ensures i > 0 ==> RangeFollows(blocks[i - 1], blocks[i])
    {
      if i > 0 { assert Linked(env, db, blocks, i); }
    }
  }

  // ----- Who a transaction debits -----

  /** An Ed25519 key names itself; a secp256r1 key names the hash of its encoding. */
  lemma {:induction false} AccountOfKey(env: Env, k: PublicKey)
    requires k.Valid(env.curves)
    ensures k.Ed25519Key? ==> AccountKeyFromPublicKeyBytes(env, k.Encode()) == Some(AccountKey(k.key))
    ensures k.Secp256r1Key? ==> AccountKeyFromPublicKeyBytes(env, k.Encode()) == Some(AccountKey(env.sha256(k.Encode())))
  {
    if k.Ed25519Key? { assert k.Encode()[1..33] == k.key; }
  }

  /** Byte strings of another length or with another scheme byte name no account. */
  lemma {:induction false} NamesAccountIff(env: Env, bytes: seq<Byte>)
    ensures AccountKeyFromPublicKeyBytes(env, bytes).Some? <==> |bytes| == 34 && (bytes[0] == 0 || bytes[0] == 1)
  {
  }

  /** Different Ed25519 keys name different accounts. */
  lemma {:induction false} AccountsDiffer(env: Env, a: PublicKey, b: PublicKey)
    requires a.Valid(env.curves) && b.Valid(env.curves) && a.Ed25519Key? && b.Ed25519Key? && a != b
    ensures AccountKeyFromPublicKeyBytes(env, a.Encode()) != AccountKeyFromPublicKeyBytes(env, b.Encode())
  {
    AccountOfKey(env, a);
    AccountOfKey(env, b);
  }

  /** The account a key holder pays from. */
  function AccountOf(env: Env, k: PublicKey): AccountKey {
    match k
    case Ed25519Key(key) => AccountKey(key)
    case Secp256r1Key(_) => AccountKey(env.sha256(k.Encode()))
  }

  /** A transaction on the wire asks for exactly the transfer its author wrote, paid by the author's account. */
  lemma {:induction false} EntryAsksFor(env: Env, k: PublicKey, to: AccountKey, value: nat, nonce: nat, signature: Signature)
    requires k.Valid(env.curves) && signature.Valid(env.curves)
    requires Transaction(k.Encode(), to, value, nonce).Valid()
    ensures var t := Transaction(k.Encode(), to, value, nonce);
            PrepareEntry(env, SignedTransaction(t, signature).Encode())
            == Some(Transfer(AccountOf(env, k), to, value, nonce, env.digest(t.Encode())))
  {
    var s := SignedTransaction(Transaction(k.Encode(), to, value, nonce), signature);
    DecodeIffEncoding(env.curves, s.Encode(), s);
    AccountOfKey(env, k);
  }
}
