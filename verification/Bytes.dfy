/** Byte strings and big-endian integers. */
module Bytes {
  import opened Bits

  type Byte = b: int | 0 <= b < 256

  function Pow256(n: nat): (p: nat)
    ensures p > 0
  {
    if n == 0 then 1 else 256 * Pow256(n - 1)
  }

  /** The low `n` bytes of `v`, most significant first. */
  function BeBytes(v: nat, n: nat): (bs: seq<Byte>)
    ensures |bs| == n
  {
    if n == 0 then [] else BeBytes(v / 256, n - 1) + [v % 256]
  }

  function BeValue(bs: seq<Byte>): nat {
    if bs == [] then 0 else BeValue(bs[..|bs| - 1]) * 256 + bs[|bs| - 1]
  }

  lemma {:induction false} BeValueSnoc(bs: seq<Byte>, b: Byte)
    ensures BeValue(bs + [b]) == BeValue(bs) * 256 + b
  {
    assert (bs + [b])[..|bs|] == bs;
  }

  lemma {:induction false} BeValueOfBytes(v: nat, n: nat)
    requires v < Pow256(n)
    ensures BeValue(BeBytes(v, n)) == v
  {
    if n > 0 {
      var high := BeBytes(v / 256, n - 1);
      BeValueOfBytes(v / 256, n - 1);
      BeValueSnoc(high, v % 256);
    }
  }

  lemma {:induction false} BeBytesOfValue(bs: seq<Byte>)
    ensures BeValue(bs) < Pow256(|bs|)
    ensures BeBytes(BeValue(bs), |bs|) == bs
    decreases |bs|
  {
    if bs != [] {
      var n := |bs|;
      BeBytesOfValue(bs[..n - 1]);
      assert BeValue(bs) / 256 == BeValue(bs[..n - 1]) && BeValue(bs) % 256 == bs[n - 1];
      assert bs == bs[..n - 1] + [bs[n - 1]];
    }
  }

  lemma {:induction false} WordSizes()
    ensures Pow256(1) == 0x100 && Pow256(2) == 0x1_0000 && Pow256(8) == U64_MAX + 1
  {
    assert Pow256(2) == 256 * Pow256(1);
    assert Pow256(4) == 256 * (256 * Pow256(2));
    assert Pow256(6) == 256 * (256 * Pow256(4));
    assert Pow256(8) == 256 * (256 * Pow256(6));
  }

  /** Dropping the lowest byte of the low `n + 1` bytes leaves the low `n` bytes of the rest, negative numbers included. */
  lemma {:induction false} LowBytes(v: int, m: nat)
    requires m > 0
    ensures v % (256 * m) / 256 == v / 256 % m
    ensures v % (256 * m) % 256 == v % 256
  {
    var q, r := v / 256 / m, v / 256 % m;
    assert v / 256 == m * q + r;
    var low := 256 * r + v % 256;
    assert v == 256 * m * q + low by {
      assert v == 256 * (m * q + r) + v % 256;
      assert 256 * (m * q) == 256 * m * q;
    }
    assert 0 <= low < 256 * m by {
      assert r + 1 <= m;
      assert 256 * (r + 1) <= 256 * m;
    }
    Remainder(v, 256 * m, q, low);
  }

  lemma {:induction false} Remainder(v: int, d: nat, q: int, r: nat)
    requires d > 0 && v == d * q + r && r < d
    ensures v % d == r
  {
    var q', r' := v / d, v % d;
    assert v == d * q' + r';
    assert d * (q - q') == r' - r by { assert d * (q - q') == d * q - d * q'; }
    if q > q' {
      Scales(d, q - q');
    } else if q < q' {
      assert d * (q - q') == -(d * (q' - q));
      Scales(d, q' - q);
    }
  }

  lemma {:induction false} Scales(d: nat, k: int)
    requires k >= 1
    ensures d * k >= d
  {
    assert d * k == d + d * (k - 1);
    assert d * (k - 1) >= 0;
  }

  /** Only the low `n` bytes of a number are written. */
  lemma {:induction false} BeBytesLow(v: nat, n: nat)
    ensures BeBytes(v, n) == BeBytes(v % Pow256(n), n)
  {
    if n > 0 {
      LowBytes(v, Pow256(n - 1));
      BeBytesLow(v / 256, n - 1);
    }
  }

  /** The first byte is the most significant one. */
  lemma {:induction false} BeValueHead(b: Byte, bs: seq<Byte>)
    ensures BeValue([b] + bs) == b * Pow256(|bs|) + BeValue(bs)
    decreases |bs|
  {
    if bs == [] {
      assert [b] + bs == [] + [b];
      BeValueSnoc([], b);
    } else {
      var n := |bs| - 1;
      assert [b] + bs == ([b] + bs[..n]) + [bs[n]] && bs == bs[..n] + [bs[n]];
      BeValueSnoc([b] + bs[..n], bs[n]);
      BeValueSnoc(bs[..n], bs[n]);
      BeValueHead(b, bs[..n]);
      assert (b * Pow256(n)) * 256 == b * (256 * Pow256(n));
    }
  }
}
