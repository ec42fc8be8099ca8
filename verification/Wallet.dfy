/** The explorer's own encoders of keys, transactions and passkey signatures, against the validator's decoder. */
module Wallet {
  import opened Bits
  import opened Wrappers
  import opened Bytes
  import opened Ledger
  import opened Codec
  import opened Chain

  datatype Draft = Draft(senderPublicKey: seq<Byte>, toAccountKey: seq<Byte>, value: int, nonce: int)

  /** `encodeU64`: eight bytes, most significant first, or an error. */
  method EncodeU64(value: int) returns (r: Option<seq<Byte>>)
    ensures r.Some? <==> 0 <= value <= U64_MAX
    ensures r.Some? ==> |r.value| == 8 && BeValue(r.value) == value
  {
    if value < 0 || value > U64_MAX {
      return None;
    }
    WordSizes();
    BeValueOfBytes(value, 8);
    return Some(BeBytes(value, 8));
  }

  /** `encodeUsize`: the validator's length prefix. */
  method EncodeUsize(value: int) returns (r: Option<seq<Byte>>)
    ensures r.Some? <==> 0 <= value <= 0xffff_ffff
    ensures r.Some? ==> r.value == VarintBytes(value)
  {
    if value < 0 || value > 0xffff_ffff {
      return None;
    }
    var bytes: seq<Byte>, next := [], value;
    while next >= 0x80
      invariant next >= 0 && bytes + VarintBytes(next) == VarintBytes(value)
      decreases next
    {
      Associate(bytes, [next % 0x80 + 0x80], VarintBytes(next / 0x80));
      bytes := bytes + [next % 0x80 + 0x80];
      next := next / 0x80;
    }
    return Some(bytes + [next]);
  }

  /** `encodeTransactionBody` */
  method EncodeTransactionBody(draft: Draft) returns (r: Option<seq<Byte>>)
    ensures r.Some? <==>
            && |draft.senderPublicKey| == 34 && |draft.toAccountKey| == 32
            && 0 <= draft.value <= U64_MAX && 0 <= draft.nonce <= U64_MAX
    ensures r.Some? ==>
            && |r.value| == 82 && r.value[..34] == draft.senderPublicKey && r.value[34..66] == draft.toAccountKey
            && BeValue(r.value[66..74]) == draft.value && BeValue(r.value[74..82]) == draft.nonce
  {
    if |draft.senderPublicKey| != 34 || |draft.toAccountKey| != 32 {
      return None;
    }
    var value := EncodeU64(draft.value);
    var nonce := EncodeU64(draft.nonce);
    if value.None? || nonce.None? {
      return None;
    }
    var out := draft.senderPublicKey + draft.toAccountKey + value.value + nonce.value;
    assert out[66..74] == value.value && out[74..82] == nonce.value;
    return Some(out);
  }

  /** Two bytes, most significant first. */
  method WriteU16Be(bytes: array<Byte>, offset: nat, value: nat)
    requires offset + 2 <= bytes.Length && value < 0x1_0000
    modifies bytes
    ensures bytes[..offset + 2] == old(bytes[..offset]) + BeBytes(value, 2)
    ensures bytes[offset + 2..] == old(bytes[offset + 2..])
  {
    assert BeBytes(value, 2) == [value / 256, value % 256] by {
      assert BeBytes(value / 256, 1) == BeBytes(value / 256 / 256, 0) + [value / 256 % 256];
    }
    bytes[offset] := value / 256;
    bytes[offset + 1] := value % 256;
  }

  /** `out.set(part, offset)` */
  method SetBytes(bytes: array<Byte>, offset: nat, part: seq<Byte>)
    requires offset + |part| <= bytes.Length
    modifies bytes
    ensures bytes[..offset + |part|] == old(bytes[..offset]) + part
    ensures bytes[offset + |part|..] == old(bytes[offset + |part|..])
  {
    for i := 0 to |part|
      invariant bytes[..offset + i] == old(bytes[..offset]) + part[..i]
      invariant bytes[offset + |part|..] == old(bytes[offset + |part|..])
    {
      bytes[offset + i] := part[i];
      assert bytes[..offset + i + 1] == bytes[..offset + i] + [part[i]];
      assert part[..i + 1] == part[..i] + [part[i]];
    }
    assert part[..|part|] == part;
  }

  /** `encodeTransactionSignature`: a passkey assertion in the validator's own encoding, or an error if a part does not fit. */
  method EncodeTransactionSignature(raw: seq<Byte>, authenticatorData: seq<Byte>, clientDataJson: seq<Byte>)
      returns (r: Option<array<Byte>>)
    ensures r.Some? <==> |raw| == 64 && |authenticatorData| <= 256 && |clientDataJson| <= 512
    ensures r.Some? ==> r.value[..] == WebAuthn(raw, authenticatorData, clientDataJson).Encode()
  {
    if |raw| != 64 || |authenticatorData| > 256 || |clientDataJson| > 512 {
      return None;
    }
    var n := |authenticatorData|;
    var out := new Byte[1 + 64 + 2 + n + 2 + |clientDataJson|](_ => 0);
    out[0] := 1;
    assert out[..1] == [1];
    SetBytes(out, 1, raw);
    WriteU16Be(out, 1 + 64, n);
    SetBytes(out, 1 + 64 + 2, authenticatorData);
    WriteU16Be(out, 1 + 64 + 2 + n, |clientDataJson|);
    SetBytes(out, 1 + 64 + 2 + n + 2, clientDataJson);
    PartsAreSignature(raw, authenticatorData, clientDataJson);
    assert out[..out.Length] == out[..];
    return Some(out);
  }

  lemma {:induction false} PartsAreSignature(raw: seq<Byte>, data: seq<Byte>, json: seq<Byte>)
    ensures [1] + raw + BeBytes(|data|, 2) + data + BeBytes(|json|, 2) + json == WebAuthn(raw, data, json).Encode()
  {
    var d, j := BeBytes(|data|, 2), BeBytes(|json|, 2);
    assert [1] + raw + d + data + j + json == [1] + (raw + ((d + data) + (j + json)));
  }

  /**
   * `accountKeyFromPublicKey`: the validator's account for both schemes. For any other scheme byte the explorer hashes,
   * where the validator names no account.
   */
  method AccountKeyFromPublicKey(env: Env, publicKey: seq<Byte>) returns (r: Option<AccountKey>)
    ensures r.Some? <==> |publicKey| == 34
    ensures r == AccountKeyFromPublicKeyBytes(env, publicKey) <==> (|publicKey| == 34 ==> publicKey[0] <= 1)
  {
    if |publicKey| != 34 {
      return None;
    }
    if publicKey[0] == 0 {
      return Some(AccountKey(publicKey[1..1 + 32]));
    }
    return Some(AccountKey(env.sha256(publicKey)));
  }

  /** `encodeSignedTransaction`: the bytes and the digest shown to the user. */
  method EncodeSignedTransaction(sha256: seq<Byte> -> seq<Byte>, sign: seq<Byte> -> seq<Byte>, draft: Draft)
      returns (r: Option<(seq<Byte>, seq<Byte>)>)
    ensures r.Some? <==>
            && |draft.senderPublicKey| == 34 && |draft.toAccountKey| == 32
            && 0 < draft.value <= U64_MAX && 0 <= draft.nonce <= U64_MAX
    ensures r.Some? ==> r.value.1 == sha256(DraftBody(draft)) && r.value.0 == DraftBody(draft) + sign(r.value.1)
  {
    if draft.value == 0 {
      return None;
    }
    var body := EncodeTransactionBody(draft);
    if body.None? {
      return None;
    }
    BodyIsDraft(draft, body.value);
    var digest := sha256(body.value);
    return Some((body.value + sign(digest), digest));
  }

  /** The transaction a draft stands for. */
  function DraftTransaction(draft: Draft): Transaction
    requires draft.value >= 0 && draft.nonce >= 0
  {
    Transaction(draft.senderPublicKey, AccountKey(draft.toAccountKey), draft.value, draft.nonce)
  }

  function DraftBody(draft: Draft): seq<Byte> {
    if draft.value >= 0 && draft.nonce >= 0 then DraftTransaction(draft).Encode() else []
  }

  /** Bytes with the fields at these places are the validator's encoding of the transaction. */
  lemma {:induction false} BodyIsDraft(draft: Draft, bytes: seq<Byte>)
    requires 0 < draft.value <= U64_MAX && 0 <= draft.nonce <= U64_MAX && |draft.senderPublicKey| == 34 && |draft.toAccountKey| == 32
    requires |bytes| == 82 && bytes[..34] == draft.senderPublicKey && bytes[34..66] == draft.toAccountKey
    requires BeValue(bytes[66..74]) == draft.value && BeValue(bytes[74..82]) == draft.nonce
    ensures bytes == DraftTransaction(draft).Encode()
  {
    TransactionReencodes(bytes);
    var p := ParseTransaction(bytes).value;
    assert p.value == DraftTransaction(draft) && p.rest == [];
    assert p.value.Encode() + [] == p.value.Encode();
  }

  /**
   * What the explorer's wallet submits, the validator decodes to the very transaction the user drafted, and it asks for
   * the drafted transfer, paid by the account the explorer shows as the user's own, under the digest it shows.
   */
  lemma {:induction false} ValidatorUnderstandsWallet(env: Env, k: PublicKey, draft: Draft, signature: Signature)
    requires k.Valid(env.curves) && signature.Valid(env.curves) && draft.senderPublicKey == k.Encode()
    requires |draft.toAccountKey| == 32 && 0 < draft.value <= U64_MAX && 0 <= draft.nonce <= U64_MAX
    ensures var bytes := DraftBody(draft) + signature.Encode();
            && DecodeSigned(env.curves, bytes) == Some(SignedTransaction(DraftTransaction(draft), signature))
            && PrepareEntry(env, bytes) ==
               Some(Transfer(AccountOf(env, k), AccountKey(draft.toAccountKey), draft.value, draft.nonce, env.digest(DraftBody(draft))))
  {
    var s := SignedTransaction(DraftTransaction(draft), signature);
    DecodeIffEncoding(env.curves, s.Encode(), s);
    EntryAsksFor(env, k, AccountKey(draft.toAccountKey), draft.value, draft.nonce, signature);
  }
}
