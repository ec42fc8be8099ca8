/** Bitwise operations on unbounded naturals, as Rust's `u64` and TypeScript's `bigint` compute them. */
module Bits {

  const U64_MAX: nat := 0xFFFF_FFFF_FFFF_FFFF

  /** The value of `1 << k`. */
  function Pow2(k: nat): (p: nat)
    ensures p > 0
  {
    if k == 0 then 1 else 2 * Pow2(k - 1)
  }

  /** The value of `a & b`. */
  function And(a: nat, b: nat): nat {
    if a == 0 || b == 0 then 0
    else (if a % 2 == 1 && b % 2 == 1 then 1 else 0) + 2 * And(a / 2, b / 2)
  }

  /** The value of `a | b`. */
  function Or(a: nat, b: nat): nat {
    if a == 0 then b
    else if b == 0 then a
    else (if a % 2 == 1 || b % 2 == 1 then 1 else 0) + 2 * Or(a / 2, b / 2)
  }

  /** The value of `a >> n`. */
  function Shr(a: nat, n: nat): nat {
    if n == 0 then a else Shr(a / 2, n - 1)
  }

  predicate Bit(a: nat, k: nat) {
    if k == 0 then a % 2 == 1 else Bit(a / 2, k - 1)
  }

  lemma {:induction false} ZeroHasNoBit(k: nat)
    ensures !Bit(0, k)
  {
    if k > 0 { ZeroHasNoBit(k - 1); }
  }

  lemma {:induction false} BitOfPow2(k: nat, j: nat)
    ensures Bit(Pow2(k), j) <==> j == k
  {
    if k == 0 {
      if j > 0 { ZeroHasNoBit(j - 1); }
    } else if j > 0 {
      BitOfPow2(k - 1, j - 1);
    }
  }

  /** Testing a bitmap against `1 << k` tests its bit `k`. */
  lemma {:induction false} AndPow2(a: nat, k: nat)
    ensures And(a, Pow2(k)) != 0 <==> Bit(a, k)
  {
    if a == 0 {
      ZeroHasNoBit(k);
    } else if k > 0 {
      AndPow2(a / 2, k - 1);
    }
  }

  lemma {:induction false} BitOfOr(a: nat, b: nat, j: nat)
    ensures Bit(Or(a, b), j) <==> Bit(a, j) || Bit(b, j)
  {
    if a == 0 || b == 0 {
      ZeroHasNoBit(j);
    } else if j > 0 {
      BitOfOr(a / 2, b / 2, j - 1);
    }
  }

  lemma {:induction false} BitOfShr(a: nat, n: nat, j: nat)
    ensures Bit(Shr(a, n), j) <==> Bit(a, n + j)
  {
    if n > 0 { BitOfShr(a / 2, n - 1, j); }
  }

  lemma {:induction false} HighBitsClear(a: nat, n: nat, k: nat)
    requires a < Pow2(n) && n <= k
    ensures !Bit(a, k)
  {
    if n == 0 { ZeroHasNoBit(k); } else { HighBitsClear(a / 2, n - 1, k - 1); }
  }

  lemma {:induction false} OrBound(a: nat, b: nat, n: nat)
    requires a < Pow2(n) && b < Pow2(n)
    ensures Or(a, b) < Pow2(n)
  {
    if a != 0 && b != 0 { OrBound(a / 2, b / 2, n - 1); }
  }

  lemma {:induction false} ShrBound(a: nat, n: nat)
    ensures Shr(a, n) <= a
  {
    if n > 0 { ShrBound(a / 2, n - 1); }
  }

  lemma {:induction false} Pow2Grows(j: nat, k: nat)
    requires j < k
    ensures Pow2(j) < Pow2(k)
  {
    if j + 1 < k { Pow2Grows(j, k - 1); }
  }

  /** A bounded number is determined by its bits. */
  lemma {:induction false} SameBits(a: nat, b: nat, n: nat)
    requires a < Pow2(n) && b < Pow2(n)
    requires forall k | 0 <= k < n :: Bit(a, k) == Bit(b, k)
    ensures a == b
  {
    if n > 0 {
      assert Bit(a, 0) == Bit(b, 0);
      forall k | 0 <= k < n - 1 ensures Bit(a / 2, k) == Bit(b / 2, k) {
        assert Bit(a, k + 1) == Bit(b, k + 1);
      }
      SameBits(a / 2, b / 2, n - 1);
    }
  }

  lemma {:induction false} Pow2Byte(n: nat, p: nat)
    requires Pow2(n) == p
    ensures Pow2(n + 8) == 256 * p
  {
    assert Pow2(n + 2) == 4 * p;
    assert Pow2(n + 4) == 16 * p;
    assert Pow2(n + 6) == 64 * p;
  }

  lemma {:induction false} U64Bound()
    ensures Pow2(64) == U64_MAX + 1
  {
    var n: nat := 0;
    var p: nat := 1;
    while n < 64
      invariant n % 8 == 0 && n <= 64 && Pow2(n) == p
      invariant p == [0x1, 0x100, 0x1_0000, 0x100_0000, 0x1_0000_0000, 0x100_0000_0000,
                      0x1_0000_0000_0000, 0x100_0000_0000_0000, 0x1_0000_0000_0000_0000][n / 8]
    {
      Pow2Byte(n, p);
      n, p := n + 8, 256 * p;
    }
  }
}
