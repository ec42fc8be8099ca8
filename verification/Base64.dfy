/** The unpadded base64url text a WebAuthn challenge is compared with (RFC 4648, section 5). */
module Base64 {
  import opened Wrappers
  import opened Bytes

  /** The 64-character table, by its four ranges. */
  function Digit(v: nat): char
    requires v < 64
  {
    if v < 26 then ('A' as int + v) as char
    else if v < 52 then ('a' as int + (v - 26)) as char
    else if v < 62 then ('0' as int + (v - 52)) as char
    else if v == 62 then '-'
    else '_'
  }

  /** The characters of one chunk of one to three bytes. */
  function EncodeChunk(chunk: seq<Byte>): string
    requires 1 <= |chunk| <= 3
  {
    var first := chunk[0];
    var second: Byte := if |chunk| > 1 then chunk[1] else 0;
    var third: Byte := if |chunk| > 2 then chunk[2] else 0;
    [Digit(first / 4), Digit(first % 4 * 16 + second / 16)]
    + (if |chunk| > 1 then [Digit(second % 16 * 4 + third / 64)] else [])
    + (if |chunk| > 2 then [Digit(third % 64)] else [])
  }

  function Encode(bytes: seq<Byte>): string {
    if bytes == [] then []
    else if |bytes| <= 3 then EncodeChunk(bytes)
    else EncodeChunk(bytes[..3]) + Encode(bytes[3..])
  }

  /** The loop body of `base64_url_no_pad`. */
  method PushChunk(out: string, chunk: seq<Byte>) returns (out': string)
    requires 1 <= |chunk| <= 3
    ensures out' == out + EncodeChunk(chunk)
  {
    var first := chunk[0];
    var second: Byte := if |chunk| > 1 then chunk[1] else 0;
    var third: Byte := if |chunk| > 2 then chunk[2] else 0;
    out' := out + [Digit(first / 4)];
    out' := out' + [Digit(first % 4 * 16 + second / 16)];
    if |chunk| > 1 {
      out' := out' + [Digit(second % 16 * 4 + third / 64)];
    }
    if |chunk| > 2 {
      out' := out' + [Digit(third % 64)];
    }
  }

  /** `base64_url_no_pad` */
  method Base64UrlNoPad(bytes: seq<Byte>) returns (out: string)
    ensures out == Encode(bytes)
  {
    out := [];
    var rest := bytes;
    while rest != []
      invariant Encode(bytes) == out + Encode(rest)
      decreases |rest|
    {
      var chunk := if |rest| >= 3 then rest[..3] else rest;
      EncodeUnfolds(rest, chunk);
      Associate(out, EncodeChunk(chunk), Encode(rest[|chunk|..]));
      out := PushChunk(out, chunk);
      rest := rest[|chunk|..];
    }
  }

  lemma {:induction false} Associate(a: string, b: string, c: string)
    ensures a + (b + c) == (a + b) + c
  {
  }

  lemma {:induction false} EncodeUnfolds(bytes: seq<Byte>, chunk: seq<Byte>)
    requires bytes != [] && chunk == (if |bytes| >= 3 then bytes[..3] else bytes)
    ensures Encode(bytes) == EncodeChunk(chunk) + Encode(bytes[|chunk|..])
  {
    if |bytes| <= 3 {
      assert chunk == bytes && bytes[|chunk|..] == [];
    }
  }

  // ----- Reading it back -----

  /** The value of a digit, and nothing for other characters. */
  function Value(c: char): Option<nat> {
    if 'A' <= c <= 'Z' then Some(c as int - 'A' as int)
    else if 'a' <= c <= 'z' then Some(c as int - 'a' as int + 26)
    else if '0' <= c <= '9' then Some(c as int - '0' as int + 52)
    else if c == '-' then Some(62)
    else if c == '_' then Some(63)
    else None
  }

  function Values(text: string): (vs: Option<seq<nat>>)
    ensures vs.Some? ==> |vs.value| == |text|
  {
    if text == [] then Some([])
    else
      var v, rest := Value(text[0]), Values(text[1..]);
      if v.None? || rest.None? then None else Some([v.value] + rest.value)
  }

  /** The whole bytes among six-bit groups: four groups make three bytes, three make two, two make one. */
  function Regroup(vs: seq<nat>): seq<int> {
    if |vs| < 2 then []
    else
      [(vs[0] * 4 + vs[1] / 16) % 256]
      + (if |vs| < 3 then [] else [(vs[1] % 16 * 16 + vs[2] / 4) % 256])
      + (if |vs| < 4 then [] else [(vs[2] % 4 * 64 + vs[3]) % 256] + Regroup(vs[4..]))
  }

  /** The byte string a text stands for. */
  function Decode(text: string): Option<seq<int>> {
    var vs := Values(text);
    if vs.None? then None else Some(Regroup(vs.value))
  }

  lemma {:induction false} ValuesConcat(a: string, b: string)
    requires Values(a).Some? && Values(b).Some?
    ensures Values(a + b) == Some(Values(a).value + Values(b).value)
    decreases |a|
  {
    if a == [] {
      assert a + b == b;
      assert [] + Values(b).value == Values(b).value;
    } else {
      assert (a + b)[1..] == a[1..] + b;
      ValuesConcat(a[1..], b);
      var head, tail := [Value(a[0]).value], Values(a[1..]).value;
      assert head + tail + Values(b).value == head + (tail + Values(b).value);
    }
  }

  /** The groups of one chunk. */
  function Groups(chunk: seq<Byte>): seq<nat>
    requires 1 <= |chunk| <= 3
  {
    var first := chunk[0];
    var second: Byte := if |chunk| > 1 then chunk[1] else 0;
    var third: Byte := if |chunk| > 2 then chunk[2] else 0;
    [first / 4, first % 4 * 16 + second / 16]
    + (if |chunk| > 1 then [second % 16 * 4 + third / 64] else [])
    + (if |chunk| > 2 then [third % 64] else [])
  }

  lemma {:induction false} ValueOfDigit(v: nat)
    requires v < 64
    ensures Value(Digit(v)) == Some(v)
  {
  }

  lemma {:induction false} ValuesOfChunk(chunk: seq<Byte>)
    requires 1 <= |chunk| <= 3
    ensures Values(EncodeChunk(chunk)) == Some(Groups(chunk))
  {
    var gs, text := Groups(chunk), EncodeChunk(chunk);
    forall i | 0 <= i < |gs| ensures gs[i] < 64 && text[i] == Digit(gs[i]) {
    }
    ValuesOfDigits(gs, text);
  }

  lemma {:induction false} ValuesOfDigits(vs: seq<nat>, text: string)
    requires |vs| == |text| && forall i | 0 <= i < |vs| :: vs[i] < 64 && text[i] == Digit(vs[i])
    ensures Values(text) == Some(vs)
    decreases |vs|
  {
    if vs != [] {
      ValueOfDigit(vs[0]);
      ValuesOfDigits(vs[1..], text[1..]);
      assert [vs[0]] + vs[1..] == vs;
    }
  }

  lemma {:induction false} BytesOfGroups(first: Byte, second: Byte, third: Byte, a: nat, b: nat, c: nat, d: nat)
    requires a == first / 4 && b == first % 4 * 16 + second / 16 && c == second % 16 * 4 + third / 64 && d == third % 64
    ensures (a * 4 + b / 16) % 256 == first && (b % 16 * 16 + c / 4) % 256 == second && (c % 4 * 64 + d) % 256 == third
  {
    assert b / 16 == first % 4 && b % 16 == second / 16;
    assert c / 4 == second % 16 && c % 4 == third / 64;
  }

  lemma {:induction false} RegroupFour(a: nat, b: nat, c: nat, d: nat, rest: seq<nat>)
    ensures Regroup([a, b, c, d] + rest)
         == [(a * 4 + b / 16) % 256, (b % 16 * 16 + c / 4) % 256, (c % 4 * 64 + d) % 256] + Regroup(rest)
  {
    var vs := [a, b, c, d] + rest;
    assert vs[4..] == rest;
  }

  lemma {:induction false} RegroupFull(chunk: seq<Byte>, rest: seq<nat>)
    requires |chunk| == 3
    ensures Regroup(Groups(chunk) + rest) == chunk + Regroup(rest)
  {
    var gs := Groups(chunk);
    BytesOfGroups(chunk[0], chunk[1], chunk[2], gs[0], gs[1], gs[2], gs[3]);
    RegroupFour(gs[0], gs[1], gs[2], gs[3], rest);
    assert gs == [gs[0], gs[1], gs[2], gs[3]];
    assert chunk == [chunk[0], chunk[1], chunk[2]];
  }

  lemma {:induction false} RegroupLast(chunk: seq<Byte>)
    requires 1 <= |chunk| <= 2
    ensures Regroup(Groups(chunk)) == chunk
  {
    var gs, second := Groups(chunk), if |chunk| > 1 then chunk[1] else 0;
    BytesOfGroups(chunk[0], second, 0, gs[0], gs[1], second % 16 * 4, 0);
  }

  /** Every byte string can be read back from its text. */
  lemma {:induction false} RoundTrip(bytes: seq<Byte>)
    ensures Values(Encode(bytes)).Some? && Decode(Encode(bytes)) == Some(bytes)
    ensures bytes == [] ==> Values(Encode(bytes)) == Some([])
    decreases |bytes|
  {
    if bytes != [] {
      var chunk := if |bytes| >= 3 then bytes[..3] else bytes;
      var rest := bytes[|chunk|..];
      EncodeUnfolds(bytes, chunk);
      RoundTrip(rest);
      ValuesOfChunk(chunk);
      ValuesConcat(EncodeChunk(chunk), Encode(rest));
      if |chunk| == 3 {
        RegroupFull(chunk, Values(Encode(rest)).value);
      } else {
        RegroupLast(chunk);
        assert Groups(chunk) + [] == Groups(chunk);
      }
      assert bytes == chunk + rest;
    }
  }

  /** So a client that echoes the expected text has signed over the expected challenge and no other. */
  lemma {:induction false} EncodeInjective(a: seq<Byte>, b: seq<Byte>)
    requires Encode(a) == Encode(b)
    ensures a == b
  {
    RoundTrip(a);
    RoundTrip(b);
  }

  /** Four characters for three bytes, rounded up, and no padding. */
  lemma {:induction false} EncodedLength(bytes: seq<Byte>)
    ensures |Encode(bytes)| == (4 * |bytes| + 2) / 3
    decreases |bytes|
  {
    if |bytes| > 3 { EncodedLength(bytes[3..]); }
  }

  // ----- The definition of the encoding -----

  const ALPHABET := "ABCDEFGHIJKLM" + "NOPQRSTUVWXYZ" + "abcdefghijklm" + "nopqrstuvwxyz" + "0123456789-_"

  lemma {:induction false} UpperTable(v: nat)
    requires v < 26
    ensures v < 13 ==> "ABCDEFGHIJKLM"[v] == Digit(v)
    ensures v >= 13 ==> "NOPQRSTUVWXYZ"[v - 13] == Digit(v)
  {
  }

  lemma {:induction false} LowerTable(v: nat)
    requires 26 <= v < 52
    ensures v < 39 ==> "abcdefghijklm"[v - 26] == Digit(v)
    ensures v >= 39 ==> "nopqrstuvwxyz"[v - 39] == Digit(v)
  {
  }

  lemma {:induction false} LastTable(v: nat)
    requires 52 <= v < 64
    ensures "0123456789-_"[v - 52] == Digit(v)
  {
  }

  /** The digits are the alphabet of section 5 of RFC 4648, in its order. */
  lemma {:induction false} DigitIsTable(v: nat)
    requires v < 64
    ensures |ALPHABET| == 64 && ALPHABET[v] == Digit(v)
  {
    if v < 26 {
      UpperTable(v);
    } else if v < 52 {
      LowerTable(v);
    } else {
      LastTable(v);
    }
  }

  /** The six-bit groups of a chunk, read as one number, are its bytes read as one number, zero bits added at the end. */
  lemma {:induction false} GroupsAreNumber(chunk: seq<Byte>)
    requires 1 <= |chunk| <= 3
    ensures forall i | 0 <= i < |Groups(chunk)| :: Groups(chunk)[i] < 64
    ensures var g := Groups(chunk);
            && |g| == |chunk| + 1
            && (|chunk| == 1 ==> g[0] * 64 + g[1] == BeValue(chunk) * 16)
            && (|chunk| == 2 ==> (g[0] * 64 + g[1]) * 64 + g[2] == BeValue(chunk) * 4)
            && (|chunk| == 3 ==> ((g[0] * 64 + g[1]) * 64 + g[2]) * 64 + g[3] == BeValue(chunk))
  {
    ShortValue(chunk);
  }

  lemma {:induction false} ShortValue(bs: seq<Byte>)
    requires 1 <= |bs| <= 3
    ensures |bs| == 1 ==> BeValue(bs) == bs[0]
    ensures var a: int := bs[0]; |bs| == 2 ==> BeValue(bs) == a * 256 + bs[1]
    ensures var a: int := bs[0]; |bs| == 3 ==> BeValue(bs) == (a * 256 + bs[1]) * 256 + bs[2]
    decreases |bs|
  {
    var n := |bs| - 1;
    assert BeValue(bs) == BeValue(bs[..n]) * 256 + bs[n];
    if n > 0 { ShortValue(bs[..n]); }
  }

  /** The text of a chunk is its groups, each looked up in the alphabet. */
  lemma {:induction false} ChunkIsLookup(chunk: seq<Byte>, i: nat)
    requires 1 <= |chunk| <= 3 && i < |Groups(chunk)|
    ensures |EncodeChunk(chunk)| == |Groups(chunk)| && Groups(chunk)[i] < 64 && |ALPHABET| == 64
    ensures EncodeChunk(chunk)[i] == ALPHABET[Groups(chunk)[i]]
  {
    GroupsAreNumber(chunk);
    DigitIsTable(Groups(chunk)[i]);
  }
}
