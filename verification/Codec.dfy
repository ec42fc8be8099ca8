/** The wire format of keys, signatures, transactions and the lazily decoded signed transaction. */
module Codec {
  import opened Bits
  import opened Wrappers
  import opened Bytes
  import opened Ledger

  const ED25519_SCHEME: Byte := 0
  const SECP256R1_SCHEME: Byte := 1
  const PUBLIC_KEY_SIZE := 34
  const ACCOUNT_KEY_SIZE := 32
  const SIGNATURE_BYTES := 64
  const AUTHENTICATOR_DATA_BYTES := 256
  const CLIENT_DATA_JSON_BYTES := 512
  const TRANSACTION_SIZE := 82
  const SIGNATURE_MIN_SIZE := 65
  const SIGNATURE_MAX_SIZE := 837
  const LAZY_MAX_ENCODED_SIZE := 919

  datatype CodecError =
    EndOfBuffer | UnknownScheme | NonZeroPadding | CurveRejected | TooLarge | ZeroValue | InvalidLength | InvalidVarint

  datatype Parsed<+T> = Parsed(value: T, rest: seq<Byte>)

  type ParseResult<+T> = Result<Parsed<T>, CodecError>

  /** The curve libraries' acceptance of raw keys and signatures. */
  datatype Curves = Curves(
    ed25519Key: seq<Byte> -> bool, secp256r1Key: seq<Byte> -> bool,
    ed25519Signature: seq<Byte> -> bool, secp256r1Signature: seq<Byte> -> bool)

  // ----- Values -----

  datatype PublicKey = Ed25519Key(key: seq<Byte>) | Secp256r1Key(key: seq<Byte>) {
    predicate Valid(c: Curves) {
      match this
      case Ed25519Key(k) => |k| == 32 && c.ed25519Key(k)
      case Secp256r1Key(k) => |k| == 33 && c.secp256r1Key(k)
    }

    /** The scheme byte, the key, and one zero byte of padding for the shorter scheme. */
    function Encode(): seq<Byte> {
      match this
      case Ed25519Key(k) => [ED25519_SCHEME] + k + [0]
      case Secp256r1Key(k) => [SECP256R1_SCHEME] + k
    }
  }

  datatype Signature =
    | Ed25519Signature(signature: seq<Byte>)
    | WebAuthn(signature: seq<Byte>, authenticatorData: seq<Byte>, clientDataJson: seq<Byte>)
  {
    predicate Valid(c: Curves) {
      && |signature| == SIGNATURE_BYTES
      && match this
         case Ed25519Signature(s) => c.ed25519Signature(s)
         case WebAuthn(s, a, j) =>
           c.secp256r1Signature(s) && |a| <= AUTHENTICATOR_DATA_BYTES && |j| <= CLIENT_DATA_JSON_BYTES
    }

    function Encode(): seq<Byte> {
      match this
      case Ed25519Signature(s) => [ED25519_SCHEME] + s
      case WebAuthn(s, a, j) => [SECP256R1_SCHEME] + (s + (SizedBytes(a) + SizedBytes(j)))
    }
  }

  /** `sender` holds the public-key bytes; they are decoded on demand only. */
  datatype Transaction = Transaction(sender: seq<Byte>, to: AccountKey, value: nat, nonce: nat) {
    predicate Valid() {
      |sender| == PUBLIC_KEY_SIZE && |to.bytes| == ACCOUNT_KEY_SIZE && 0 < value <= U64_MAX && nonce <= U64_MAX
    }

    function Encode(): seq<Byte> {
      sender + to.bytes + BeBytes(value, 8) + BeBytes(nonce, 8)
    }
  }

  datatype SignedTransaction = SignedTransaction(transaction: Transaction, signature: Signature) {
    predicate Valid(c: Curves) {
      transaction.Valid() && signature.Valid(c)
    }

    function Encode(): seq<Byte> {
      transaction.Encode() + signature.Encode()
    }
  }

  // ----- What the readers accept -----

  function Take(bs: seq<Byte>, n: nat): ParseResult<seq<Byte>> {
    if |bs| < n then Err(EndOfBuffer) else Ok(Parsed(bs[..n], bs[n..]))
  }

  function ParsePublicKey(c: Curves, bs: seq<Byte>): ParseResult<PublicKey> {
    if |bs| < PUBLIC_KEY_SIZE then Err(EndOfBuffer)
    else if bs[0] == ED25519_SCHEME then
      if bs[33] != 0 then Err(NonZeroPadding)
      else if c.ed25519Key(bs[1..33]) then Ok(Parsed(Ed25519Key(bs[1..33]), bs[34..]))
      else Err(CurveRejected)
    else if bs[0] == SECP256R1_SCHEME then
      if c.secp256r1Key(bs[1..34]) then Ok(Parsed(Secp256r1Key(bs[1..34]), bs[34..])) else Err(CurveRejected)
    else Err(UnknownScheme)
  }

  function ParseTransaction(bs: seq<Byte>): ParseResult<Transaction> {
    if |bs| < 34 + 32 + 8 then Err(EndOfBuffer)
    else
      var value := BeValue(bs[66..74]);
      if value == 0 then Err(ZeroValue)
      else if |bs| < TRANSACTION_SIZE then Err(EndOfBuffer)
      else Ok(Parsed(Transaction(bs[..34], AccountKey(bs[34..66]), value, BeValue(bs[74..82])), bs[82..]))
  }

  function SizedBytes(field: seq<Byte>): seq<Byte> {
    BeBytes(|field|, 2) + field
  }

  /** A two-byte length, at most `max`, and that many bytes. */
  function ParseSized(bs: seq<Byte>, max: nat): ParseResult<seq<Byte>> {
    if |bs| < 2 then Err(EndOfBuffer)
    else
      var len := BeValue(bs[..2]);
      if len > max then Err(TooLarge) else Take(bs[2..], len)
  }

  function ParseWebAuthn(c: Curves, bs: seq<Byte>): ParseResult<Signature> {
    if |bs| < SIGNATURE_BYTES then Err(EndOfBuffer)
    else if !c.secp256r1Signature(bs[..64]) then Err(CurveRejected)
    else
      var data := ParseSized(bs[64..], AUTHENTICATOR_DATA_BYTES);
      if data.Err? then Err(data.error)
      else
        var json := ParseSized(data.value.rest, CLIENT_DATA_JSON_BYTES);
        if json.Err? then Err(json.error)
        else Ok(Parsed(WebAuthn(bs[..64], data.value.value, json.value.value), json.value.rest))
  }

  function ParseSignature(c: Curves, bs: seq<Byte>): ParseResult<Signature> {
    if |bs| < 1 + SIGNATURE_BYTES then Err(EndOfBuffer)
    else if bs[0] == ED25519_SCHEME then
      if c.ed25519Signature(bs[1..65]) then Ok(Parsed(Ed25519Signature(bs[1..65]), bs[65..])) else Err(CurveRejected)
    else if bs[0] == SECP256R1_SCHEME then ParseWebAuthn(c, bs[1..])
    else Err(UnknownScheme)
  }

  function ParseSigned(c: Curves, bs: seq<Byte>): ParseResult<SignedTransaction> {
    var t := ParseTransaction(bs);
    if t.Err? then Err(t.error)
    else
      var s := ParseSignature(c, t.value.rest);
      if s.Err? then Err(s.error) else Ok(Parsed(SignedTransaction(t.value.value, s.value.value), s.value.rest))
  }

  /** Decoding a whole byte string: trailing bytes are refused. */
  function DecodeSigned(c: Curves, bs: seq<Byte>): Option<SignedTransaction> {
    var r := ParseSigned(c, bs);
    if r.Ok? && r.value.rest == [] then Some(r.value.value) else None
  }

  // ----- Buffers -----

  /** A buffer being consumed from the front. */
  class Reader {
    var data: seq<Byte>

    constructor (data: seq<Byte>)
      ensures this.data == data
    {
      this.data := data;
    }

    method CopyToBytes(n: nat) returns (bs: seq<Byte>)
      requires n <= |data|
      modifies this
      ensures bs == old(data)[..n] && data == old(data)[n..]
    {
      bs := data[..n];
      data := data[n..];
    }

    /** A big-endian integer of `n` bytes. */
    method ReadBe(n: nat) returns (r: Result<nat, CodecError>)
      modifies this
      ensures |old(data)| < n ==> r == Err(EndOfBuffer) && data == old(data)
      ensures |old(data)| >= n ==> r == Ok(BeValue(old(data)[..n])) && data == old(data)[n..]
    {
      if |data| < n {
        return Err(EndOfBuffer);
      }
      var bs := CopyToBytes(n);
      return Ok(BeValue(bs));
    }
  }

  /** A reader method agrees with a parser: same verdict, same error, same value and the same rest. */
  ghost predicate Agrees<T>(r: Result<T, CodecError>, rest: seq<Byte>, p: ParseResult<T>) {
    if p.Ok? then r == Ok(p.value.value) && rest == p.value.rest else r == Err(p.error)
  }

  method ReadPublicKey(c: Curves, buf: Reader) returns (r: Result<PublicKey, CodecError>)
    modifies buf
    ensures Agrees(r, buf.data, ParsePublicKey(c, old(buf.data)))
  {
    if |buf.data| < PUBLIC_KEY_SIZE {
      return Err(EndOfBuffer);
    }
    var encoded := buf.CopyToBytes(PUBLIC_KEY_SIZE);
    if encoded[0] == ED25519_SCHEME {
      if encoded[33] != 0 {
        return Err(NonZeroPadding);
      }
      assert encoded[1..33] == old(buf.data)[1..33];
      if !c.ed25519Key(encoded[1..33]) {
        return Err(CurveRejected);
      }
      return Ok(Ed25519Key(encoded[1..33]));
    }
    if encoded[0] == SECP256R1_SCHEME {
      assert encoded[1..] == old(buf.data)[1..34];
      if !c.secp256r1Key(encoded[1..]) {
        return Err(CurveRejected);
      }
      return Ok(Secp256r1Key(encoded[1..]));
    }
    return Err(UnknownScheme);
  }

  method ReadTransaction(buf: Reader) returns (r: Result<Transaction, CodecError>)
    modifies buf
    ensures Agrees(r, buf.data, ParseTransaction(old(buf.data)))
  {
    ghost var all := buf.data;
    if |buf.data| < PUBLIC_KEY_SIZE {
      return Err(EndOfBuffer);
    }
    var sender := buf.CopyToBytes(PUBLIC_KEY_SIZE);
    if |buf.data| < ACCOUNT_KEY_SIZE {
      return Err(EndOfBuffer);
    }
    var to := buf.CopyToBytes(ACCOUNT_KEY_SIZE);
    assert to == all[34..66] && buf.data == all[66..];
    var value := buf.ReadBe(8);
    if value.Err? {
      return Err(value.error);
    }
    assert all[66..][..8] == all[66..74] && buf.data == all[74..];
    if value.value == 0 {
      return Err(ZeroValue);
    }
    var nonce := buf.ReadBe(8);
    if nonce.Err? {
      return Err(nonce.error);
    }
    assert all[74..][..8] == all[74..82] && buf.data == all[82..];
    return Ok(Transaction(sender, AccountKey(to), value.value, nonce.value));
  }

  method ReadWebAuthn(c: Curves, buf: Reader) returns (r: Result<Signature, CodecError>)
    modifies buf
    ensures Agrees(r, buf.data, ParseWebAuthn(c, old(buf.data)))
  {
    ghost var all := buf.data;
    if |buf.data| < SIGNATURE_BYTES {
      return Err(EndOfBuffer);
    }
    var signature := buf.CopyToBytes(SIGNATURE_BYTES);
    if !c.secp256r1Signature(signature) {
      return Err(CurveRejected);
    }
    var dataLen := buf.ReadBe(2);
    if dataLen.Err? {
      return Err(dataLen.error);
    }
    if dataLen.value > AUTHENTICATOR_DATA_BYTES {
      return Err(TooLarge);
    }
    if |buf.data| < dataLen.value + 2 {
      return Err(EndOfBuffer);
    }
    var data := buf.CopyToBytes(dataLen.value);
    assert ParseSized(all[64..], AUTHENTICATOR_DATA_BYTES) == Ok(Parsed(data, buf.data));
    var jsonLen := buf.ReadBe(2);
    if jsonLen.value > CLIENT_DATA_JSON_BYTES {
      return Err(TooLarge);
    }
    if |buf.data| < jsonLen.value {
      return Err(EndOfBuffer);
    }
    var json := buf.CopyToBytes(jsonLen.value);
    return Ok(WebAuthn(signature, data, json));
  }

  method ReadSignature(c: Curves, buf: Reader) returns (r: Result<Signature, CodecError>)
    modifies buf
    ensures Agrees(r, buf.data, ParseSignature(c, old(buf.data)))
  {
    ghost var all := buf.data;
    if |buf.data| < 1 + SIGNATURE_BYTES {
      return Err(EndOfBuffer);
    }
    var scheme := buf.CopyToBytes(1);
    if scheme[0] == ED25519_SCHEME {
      var signature := buf.CopyToBytes(SIGNATURE_BYTES);
      assert signature == all[1..65] && buf.data == all[65..];
      if !c.ed25519Signature(signature) {
        return Err(CurveRejected);
      }
      return Ok(Ed25519Signature(signature));
    }
    if scheme[0] == SECP256R1_SCHEME {
      r := ReadWebAuthn(c, buf);
      return;
    }
    return Err(UnknownScheme);
  }

  method ReadSigned(c: Curves, buf: Reader) returns (r: Result<SignedTransaction, CodecError>)
    modifies buf
    ensures Agrees(r, buf.data, ParseSigned(c, old(buf.data)))
  {
    var transaction := ReadTransaction(buf);
    if transaction.Err? {
      return Err(transaction.error);
    }
    var signature := ReadSignature(c, buf);
    if signature.Err? {
      return Err(signature.error);
    }
    return Ok(SignedTransaction(transaction.value, signature.value));
  }

  // ----- Round trips -----

  /** Reading a written key followed by anything gives the key and what followed; what was read re-encodes to itself. */
  lemma {:induction false} PublicKeyRoundTrip(c: Curves, k: PublicKey, suffix: seq<Byte>)
    requires k.Valid(c)
    ensures ParsePublicKey(c, k.Encode() + suffix) == Ok(Parsed(k, suffix))
  {
    var bs := k.Encode() + suffix;
    match k {
      case Ed25519Key(key) => assert bs[1..33] == key && bs[34..] == suffix;
      case Secp256r1Key(key) => assert bs[1..34] == key && bs[34..] == suffix;
    }
  }

  lemma {:induction false} PublicKeyReencodes(c: Curves, bs: seq<Byte>)
    requires ParsePublicKey(c, bs).Ok?
    ensures var p := ParsePublicKey(c, bs).value;
            p.value.Valid(c) && p.value.Encode() + p.rest == bs
  {
    assert bs == [bs[0]] + bs[1..33] + [bs[33]] + bs[34..];
    assert bs == [bs[0]] + bs[1..34] + bs[34..];
  }

  lemma {:induction false} TransactionRoundTrip(t: Transaction, suffix: seq<Byte>)
    requires t.Valid()
    ensures ParseTransaction(t.Encode() + suffix) == Ok(Parsed(t, suffix))
    ensures |t.Encode()| == TRANSACTION_SIZE
  {
    var bs := t.Encode() + suffix;
    WordSizes();
    BeValueOfBytes(t.value, 8);
    BeValueOfBytes(t.nonce, 8);
    assert bs[..34] == t.sender;
    assert bs[34..66] == t.to.bytes;
    assert bs[66..74] == BeBytes(t.value, 8);
    assert bs[74..82] == BeBytes(t.nonce, 8);
    assert bs[82..] == suffix;
  }

  lemma {:induction false} TransactionReencodes(bs: seq<Byte>)
    requires ParseTransaction(bs).Ok?
    ensures var p := ParseTransaction(bs).value;
            p.value.Valid() && p.value.Encode() + p.rest == bs
  {
    WordSizes();
    BeBytesOfValue(bs[66..74]);
    BeBytesOfValue(bs[74..82]);
    assert bs == bs[..34] + bs[34..66] + bs[66..74] + bs[74..82] + bs[82..];
  }

  lemma {:induction false} SizedRoundTrip(field: seq<Byte>, max: nat, suffix: seq<Byte>)
    requires |field| <= max < 0x1_0000
    ensures ParseSized(SizedBytes(field) + suffix, max) == Ok(Parsed(field, suffix))
  {
    var bs := SizedBytes(field) + suffix;
    WordSizes();
    BeValueOfBytes(|field|, 2);
    assert bs[..2] == BeBytes(|field|, 2);
    assert bs[2..] == field + suffix;
    assert (field + suffix)[..|field|] == field;
  }

  lemma {:induction false} SizedReencodes(bs: seq<Byte>, max: nat)
    requires ParseSized(bs, max).Ok?
    ensures var p := ParseSized(bs, max).value;
            |p.value| <= max && SizedBytes(p.value) + p.rest == bs
  {
    BeBytesOfValue(bs[..2]);
    var p := ParseSized(bs, max).value;
    assert bs == bs[..2] + (p.value + p.rest);
  }

  lemma {:induction false} Regroup(head: seq<Byte>, a: seq<Byte>, b: seq<Byte>, c: seq<Byte>)
    ensures head + (a + b) + c == head + (a + (b + c))
    ensures (head + (a + b) + c)[..|head|] == head
    ensures (head + (a + b) + c)[|head|..] == a + (b + c)
  {}

  lemma {:induction false} WebAuthnRoundTrip(c: Curves, sig: seq<Byte>, data: seq<Byte>, json: seq<Byte>, suffix: seq<Byte>)
    requires WebAuthn(sig, data, json).Valid(c)
    ensures ParseWebAuthn(c, sig + (SizedBytes(data) + SizedBytes(json)) + suffix)
         == Ok(Parsed(WebAuthn(sig, data, json), suffix))
  {
    Regroup(sig, SizedBytes(data), SizedBytes(json), suffix);
    SizedRoundTrip(data, AUTHENTICATOR_DATA_BYTES, SizedBytes(json) + suffix);
    SizedRoundTrip(json, CLIENT_DATA_JSON_BYTES, suffix);
  }

  lemma {:induction false} WebAuthnReencodes(c: Curves, bs: seq<Byte>)
    requires ParseWebAuthn(c, bs).Ok?
    ensures var p := ParseWebAuthn(c, bs).value;
            && p.value.WebAuthn? && p.value.Valid(c)
            && p.value.signature + (SizedBytes(p.value.authenticatorData) + SizedBytes(p.value.clientDataJson)) + p.rest == bs
  {
    SizedReencodes(bs[64..], AUTHENTICATOR_DATA_BYTES);
    var data := ParseSized(bs[64..], AUTHENTICATOR_DATA_BYTES).value;
    SizedReencodes(data.rest, CLIENT_DATA_JSON_BYTES);
    var json := ParseSized(data.rest, CLIENT_DATA_JSON_BYTES).value;
    Regroup(bs[..64], SizedBytes(data.value), SizedBytes(json.value), json.rest);
    assert bs == bs[..64] + bs[64..];
  }

  lemma {:induction false} Associate(a: seq<Byte>, b: seq<Byte>, c: seq<Byte>)
    ensures a + b + c == a + (b + c)
  {}

  lemma {:induction false} Tagged(tag: Byte, body: seq<Byte>, suffix: seq<Byte>)
    ensures ([tag] + body + suffix)[0] == tag
    ensures ([tag] + body + suffix)[1..] == body + suffix
  {}

  lemma {:induction false} SignatureSize(c: Curves, s: Signature)
    requires s.Valid(c)
    ensures SIGNATURE_MIN_SIZE <= |s.Encode()| <= SIGNATURE_MAX_SIZE
  {}

  lemma {:induction false} SignatureRoundTrip(c: Curves, s: Signature, suffix: seq<Byte>)
    requires s.Valid(c)
    ensures ParseSignature(c, s.Encode() + suffix) == Ok(Parsed(s, suffix))
  {
    var bs := s.Encode() + suffix;
    SignatureSize(c, s);
    match s {
      case Ed25519Signature(sig) =>
        assert bs[1..65] == sig && bs[65..] == suffix;
      case WebAuthn(sig, data, json) =>
        var body := sig + (SizedBytes(data) + SizedBytes(json));
        Tagged(SECP256R1_SCHEME, body, suffix);
        assert bs == [SECP256R1_SCHEME] + body + suffix;
        WebAuthnRoundTrip(c, sig, data, json, suffix);
    }
  }

  lemma {:induction false} TaggedReencodes(s: Signature, rest: seq<Byte>, bs: seq<Byte>)
    requires s.WebAuthn? && bs != [] && bs[0] == SECP256R1_SCHEME
    requires s.signature + (SizedBytes(s.authenticatorData) + SizedBytes(s.clientDataJson)) + rest == bs[1..]
    ensures s.Encode() + rest == bs
  {
    Associate([bs[0]], s.signature + (SizedBytes(s.authenticatorData) + SizedBytes(s.clientDataJson)), rest);
    assert bs == [bs[0]] + bs[1..];
  }

  lemma {:induction false} SignatureReencodes(c: Curves, bs: seq<Byte>)
    requires ParseSignature(c, bs).Ok?
    ensures var p := ParseSignature(c, bs).value;
            p.value.Valid(c) && p.value.Encode() + p.rest == bs
  {
    if bs[0] == ED25519_SCHEME {
      assert bs == [bs[0]] + bs[1..65] + bs[65..];
    } else {
      WebAuthnReencodes(c, bs[1..]);
      var p := ParseWebAuthn(c, bs[1..]).value;
      TaggedReencodes(p.value, p.rest, bs);
    }
  }

  lemma {:induction false} SignedRoundTrip(c: Curves, s: SignedTransaction, suffix: seq<Byte>)
    requires s.Valid(c)
    ensures ParseSigned(c, s.Encode() + suffix) == Ok(Parsed(s, suffix))
    ensures TRANSACTION_SIZE + SIGNATURE_MIN_SIZE <= |s.Encode()| <= LAZY_MAX_ENCODED_SIZE
  {
    Associate(s.transaction.Encode(), s.signature.Encode(), suffix);
    TransactionRoundTrip(s.transaction, s.signature.Encode() + suffix);
    SignatureRoundTrip(c, s.signature, suffix);
    SignatureSize(c, s.signature);
  }

  lemma {:induction false} SignedReencodes(c: Curves, bs: seq<Byte>)
    requires ParseSigned(c, bs).Ok?
    ensures var p := ParseSigned(c, bs).value;
            p.value.Valid(c) && p.value.Encode() + p.rest == bs
  {
    var t := ParseTransaction(bs).value;
    TransactionReencodes(bs);
    SignatureReencodes(c, t.rest);
    var s := ParseSignature(c, t.rest).value;
    Associate(t.value.Encode(), s.value.Encode(), s.rest);
  }

  /** Whole-string decoding and encoding are inverse to each other on the strings that decode. */
  lemma {:induction false} DecodeIffEncoding(c: Curves, bs: seq<Byte>, s: SignedTransaction)
    ensures DecodeSigned(c, bs) == Some(s) <==> s.Valid(c) && s.Encode() == bs
  {
    if DecodeSigned(c, bs) == Some(s) {
      SignedReencodes(c, bs);
      assert s.Encode() + [] == s.Encode();
    }
    if s.Valid(c) && s.Encode() == bs {
      SignedRoundTrip(c, s, []);
      assert s.Encode() + [] == bs;
    }
  }

  // ----- The length prefix -----

  /** The length prefix: little-endian groups of seven bits, the last one without the continuation bit. */
  function VarintBytes(n: nat): seq<Byte> {
    if n < 128 then [n] else [n % 128 + 128] + VarintBytes(n / 128)
  }

  /** Reading a prefix of at most `room` bytes; only the shortest form of a number is accepted. */
  function ParseVarint(bs: seq<Byte>, room: nat): ParseResult<nat> {
    if room == 0 then Err(InvalidVarint)
    else if bs == [] then Err(EndOfBuffer)
    else if bs[0] < 128 then Ok(Parsed(bs[0], bs[1..]))
    else
      var r := ParseVarint(bs[1..], room - 1);
      if r.Err? then r
      else if r.value.value == 0 then Err(InvalidVarint)
      else Ok(Parsed(r.value.value * 128 + (bs[0] - 128), r.value.rest))
  }

  lemma {:induction false} VarintRoundTrip(n: nat, room: nat, suffix: seq<Byte>)
    requires |VarintBytes(n)| <= room
    ensures ParseVarint(VarintBytes(n) + suffix, room) == Ok(Parsed(n, suffix))
  {
    if n >= 128 {
      assert (VarintBytes(n) + suffix)[1..] == VarintBytes(n / 128) + suffix;
      VarintRoundTrip(n / 128, room - 1, suffix);
    }
  }

  lemma {:induction false} VarintReencodes(bs: seq<Byte>, room: nat)
    requires ParseVarint(bs, room).Ok?
    ensures var p := ParseVarint(bs, room).value;
            VarintBytes(p.value) + p.rest == bs
    decreases |bs|
  {
    assert bs == [bs[0]] + bs[1..];
    if bs[0] >= 128 {
      VarintReencodes(bs[1..], room - 1);
      var q := ParseVarint(bs[1..], room - 1).value;
      var n := q.value * 128 + (bs[0] - 128);
      assert n / 128 == q.value && n % 128 == bs[0] - 128;
    }
  }

  // ----- The lazily decoded signed transaction -----

  const VARINT_ROOM := 5

  function WriteLazy(payload: seq<Byte>): seq<Byte> {
    VarintBytes(|payload|) + payload
  }

  /** Reading the wrapper checks the length and never looks at the payload. */
  function ParseLazy(bs: seq<Byte>): ParseResult<seq<Byte>> {
    var len := ParseVarint(bs, VARINT_ROOM);
    if len.Err? then Err(len.error)
    else if len.value.value > LAZY_MAX_ENCODED_SIZE then Err(InvalidLength)
    else if len.value.value < TRANSACTION_SIZE + SIGNATURE_MIN_SIZE then Err(EndOfBuffer)
    else if |len.value.rest| < len.value.value then Err(EndOfBuffer)
    else Ok(Parsed(len.value.rest[..len.value.value], len.value.rest[len.value.value..]))
  }

  /** Whatever the wrapper reads it writes back byte for byte, even when the payload does not decode. */
  lemma {:induction false} LazyReencodes(bs: seq<Byte>)
    requires ParseLazy(bs).Ok?
    ensures var p := ParseLazy(bs).value;
            WriteLazy(p.value) + p.rest == bs
  {
    VarintReencodes(bs, VARINT_ROOM);
    var len := ParseVarint(bs, VARINT_ROOM).value;
    assert len.rest == len.rest[..len.value] + len.rest[len.value..];
    var p := ParseLazy(bs).value;
    assert WriteLazy(p.value) + p.rest == VarintBytes(len.value) + (p.value + p.rest);
  }

  /** A payload within the wrapper's bounds is read back whatever it holds. */
  lemma {:induction false} LazyPayloadRoundTrip(payload: seq<Byte>, suffix: seq<Byte>)
    requires TRANSACTION_SIZE + SIGNATURE_MIN_SIZE <= |payload| <= LAZY_MAX_ENCODED_SIZE
    ensures ParseLazy(WriteLazy(payload) + suffix) == Ok(Parsed(payload, suffix))
  {
    assert |VarintBytes(|payload|)| == 2;
    assert WriteLazy(payload) + suffix == VarintBytes(|payload|) + (payload + suffix);
    VarintRoundTrip(|payload|, VARINT_ROOM, payload + suffix);
    assert (payload + suffix)[..|payload|] == payload;
    assert (payload + suffix)[|payload|..] == suffix;
  }

  /** Every signed transaction passes the wrapper's bounds, and comes back as the same value. */
  lemma {:induction false} LazyRoundTrip(c: Curves, s: SignedTransaction, suffix: seq<Byte>)
    requires s.Valid(c)
    ensures ParseLazy(WriteLazy(s.Encode()) + suffix) == Ok(Parsed(s.Encode(), suffix))
    ensures DecodeSigned(c, s.Encode()) == Some(s)
  {
    SignedRoundTrip(c, s, []);
    DecodeIffEncoding(c, s.Encode(), s);
    LazyPayloadRoundTrip(s.Encode(), suffix);
  }

  /** Bytes kept from the wire until the value is asked for, or a value with no bytes. */
  class LazySignedTransaction {
    const curves: Curves
    const pending: Option<seq<Byte>>
    /** Written at most once: the outcome of decoding. */
    var value: Option<Option<SignedTransaction>>

    ghost predicate Valid()
      reads this
    {
      match pending
      case None => value.Some? && value.value.Some? && value.value.value.Valid(curves)
      case Some(bytes) => value.Some? ==> value.value == DecodeSigned(curves, bytes)
    }

    /** The encoded signed transaction this wrapper stands for. */
    ghost function Encoded(): seq<Byte>
      requires Valid()
      reads this
    {
      match pending
      case None => value.value.value.Encode()
      case Some(bytes) => bytes
    }

    constructor FromValue(curves: Curves, s: SignedTransaction)
      requires s.Valid(curves)
      ensures Valid() && Encoded() == s.Encode() && this.curves == curves
    {
      this.curves, pending, value := curves, None, Some(Some(s));
    }

    constructor Deferred(curves: Curves, bytes: seq<Byte>)
      ensures Valid() && Encoded() == bytes && this.curves == curves
    {
      this.curves, pending, value := curves, Some(bytes), None;
    }

    /** Decoding fills the cache and changes neither what is written nor what a later call returns. */
    method Get() returns (s: Option<SignedTransaction>)
      requires Valid()
      modifies this`value
      ensures Valid() && Encoded() == old(Encoded())
      ensures s == DecodeSigned(curves, Encoded())
    {
      if pending.None? { DecodeIffEncoding(curves, Encoded(), value.value.value); }
      if value.None? {
        value := Some(DecodeSigned(curves, pending.value));
      }
      s := value.value;
    }

    method Write() returns (bytes: seq<Byte>)
      requires Valid()
      modifies this`value
      ensures Valid() && Encoded() == old(Encoded())
      ensures bytes == WriteLazy(Encoded())
    {
      if pending.Some? {
        bytes := VarintBytes(|pending.value|) + pending.value;
        return;
      }
      DecodeIffEncoding(curves, Encoded(), value.value.value);
      var s := Get();
      bytes := VarintBytes(|s.value.Encode()|) + s.value.Encode();
    }
  }

  /** `LazySignedTransaction::read_cfg` */
  method ReadLazy(c: Curves, buf: Reader) returns (r: Result<LazySignedTransaction, CodecError>)
    modifies buf
    ensures var p := ParseLazy(old(buf.data));
            && (p.Err? ==> r == Err(p.error))
            && (p.Ok? ==> r.Ok? && r.value.Valid() && r.value.Encoded() == p.value.value && buf.data == p.value.rest)
  {
    var len := ParseVarint(buf.data, VARINT_ROOM);
    if len.Err? {
      return Err(len.error);
    }
    var n := len.value.value;
    buf.data := len.value.rest;
    if n > LAZY_MAX_ENCODED_SIZE {
      return Err(InvalidLength);
    }
    if n < TRANSACTION_SIZE + SIGNATURE_MIN_SIZE {
      return Err(EndOfBuffer);
    }
    if |buf.data| < n {
      return Err(EndOfBuffer);
    }
    var bytes := buf.CopyToBytes(n);
    var lazy := new LazySignedTransaction.Deferred(c, bytes);
    return Ok(lazy);
  }
}
