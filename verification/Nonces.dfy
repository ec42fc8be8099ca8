/** The sliding-window nonce of an account: `base` plus a 64-bit run-ahead bitmap. */
module Nonces {
  import opened Bits
  import opened Wrappers

  const NONCE_BITMAP_CAPACITY: nat := 64

  /** Bit `k` of `bitmap` records the use of nonce `base + 1 + k`. */
  datatype Nonce = Nonce(base: nat, bitmap: nat) {

    /** Both fields fit `u64`. */
    predicate InRange() {
      base <= U64_MAX && bitmap <= U64_MAX
    }

    /** Nonce `n` can never be consumed (again). */
    predicate Dead(n: int) {
      n < base || (base < n <= base + NONCE_BITMAP_CAPACITY && Bit(bitmap, n - base - 1))
    }

    /** The states an account can be in: no recorded nonce is `u64::MAX` or larger. */
    ghost predicate WellFormed() {
      InRange() && forall n | Dead(n) :: n < U64_MAX
    }
  }

  const DEFAULT_NONCE := Nonce(0, 0)

  /** The first clear bit of `bitmap` at or above `k`, or the capacity if there is none. */
  function FirstClear(bitmap: nat, k: nat): (c: nat)
    requires k <= NONCE_BITMAP_CAPACITY
    ensures k <= c <= NONCE_BITMAP_CAPACITY
    ensures c < NONCE_BITMAP_CAPACITY ==> !Bit(bitmap, c)
    ensures forall j | k <= j < c :: Bit(bitmap, j)
    decreases NONCE_BITMAP_CAPACITY - k
  {
    if k == NONCE_BITMAP_CAPACITY || !Bit(bitmap, k) then k else FirstClear(bitmap, k + 1)
  }

  /** Consuming `base` moves it past the run of recorded nonces that follows. */
  function ConsumeCurrent(base: nat, bitmap: nat): Option<Nonce> {
    var advance := FirstClear(bitmap, 0) + 1;
    if base + advance > U64_MAX then None
    else Some(Nonce(base + advance,
                    if advance >= NONCE_BITMAP_CAPACITY then 0 else Shr(bitmap, advance)))
  }

  function NextNonceState(base: nat, bitmap: nat, nonce: nat): Option<Nonce> {
    if nonce + 1 > U64_MAX then None
    else if nonce < base then None
    else
      var delta := nonce - base;
      if delta == 0 then ConsumeCurrent(base, bitmap)
      else if delta > NONCE_BITMAP_CAPACITY then Some(Nonce(nonce + 1, 0))
      else
        var bit := Pow2(delta - 1);
        if And(bitmap, bit) != 0 then None
        else Some(Nonce(base, Or(bitmap, bit)))
  }

  /** `consume_current_nonce`: the loop finds the first clear bit. */
  method ConsumeCurrentNonce(base: nat, bitmap: nat) returns (next: Option<Nonce>)
    ensures next == ConsumeCurrent(base, bitmap)
  {
    var advance := 1;
    while advance <= NONCE_BITMAP_CAPACITY
      invariant 1 <= advance <= NONCE_BITMAP_CAPACITY + 1
      invariant FirstClear(bitmap, 0) == FirstClear(bitmap, advance - 1)
    {
      var bit := Pow2(advance - 1);
      AndPow2(bitmap, advance - 1);
      if And(bitmap, bit) == 0 {
        break;
      }
      advance := advance + 1;
    }
    if base + advance > U64_MAX {
      return None;
    }
    var shifted := if advance >= NONCE_BITMAP_CAPACITY then 0 else Shr(bitmap, advance);
    return Some(Nonce(base + advance, shifted));
  }

  /** `Nonce::consume`: `Nonce` is a plain copyable value, so the updated `self` is returned. */
  method Consume(self: Nonce, nonce: nat) returns (next: Nonce, accepted: bool)
    ensures var r := NextNonceState(self.base, self.bitmap, nonce);
            accepted == r.Some? && next == (if r.Some? then r.value else self)
  {
    next, accepted := self, false;
    if nonce + 1 > U64_MAX || nonce < self.base {
      return;
    }
    var delta := nonce - self.base;
    if delta == 0 {
      var r := ConsumeCurrentNonce(self.base, self.bitmap);
      match r {
        case None =>
        case Some(n) => next, accepted := n, true;
      }
    } else if delta > NONCE_BITMAP_CAPACITY {
      next, accepted := Nonce(nonce + 1, 0), true;
    } else {
      var bit := Pow2(delta - 1);
      if And(self.bitmap, bit) == 0 {
        next, accepted := Nonce(self.base, Or(self.bitmap, bit)), true;
      }
    }
  }

  lemma {:induction false} NoBitAboveWindow(s: Nonce, k: nat)
    requires s.InRange() && NONCE_BITMAP_CAPACITY <= k
    ensures !Bit(s.bitmap, k)
  {
    U64Bound();
    HighBitsClear(s.bitmap, 64, k);
  }

  /** Compaction: exactly `base` becomes dead, and nothing recorded is forgotten. */
  lemma {:induction false} ConsumeCurrentExact(s: Nonce, m: int)
    requires s.InRange()
    requires ConsumeCurrent(s.base, s.bitmap).Some?
    ensures var t := ConsumeCurrent(s.base, s.bitmap).value;
            t.InRange() && (t.Dead(m) <==> s.Dead(m) || m == s.base)
  {
    var t := ConsumeCurrent(s.base, s.bitmap).value;
    var run := FirstClear(s.bitmap, 0);
    var advance := run + 1;
    ShrBound(s.bitmap, advance);
    if m > t.base {
      var k := m - t.base - 1;
      ZeroHasNoBit(k);
      BitOfShr(s.bitmap, advance, k);
      if k + advance >= NONCE_BITMAP_CAPACITY { NoBitAboveWindow(s, k + advance); }
    } else if m == t.base {
    } else if s.base < m {
      assert Bit(s.bitmap, m - s.base - 1);
    }
  }

  /** Recording a nonce inside the window adds exactly that nonce. */
  lemma {:induction false} RecordExact(s: Nonce, n: nat, m: int)
    requires s.InRange() && s.base < n <= s.base + NONCE_BITMAP_CAPACITY
    ensures var bit := Pow2(n - s.base - 1);
            And(s.bitmap, bit) != 0 <==> s.Dead(n)
    ensures var t := Nonce(s.base, Or(s.bitmap, Pow2(n - s.base - 1)));
            t.InRange() && (t.Dead(m) <==> s.Dead(m) || m == n)
  {
    var k := n - s.base - 1;
    AndPow2(s.bitmap, k);
    U64Bound();
    Pow2Grows(k, 64);
    OrBound(s.bitmap, Pow2(k), 64);
    if s.base < m <= s.base + NONCE_BITMAP_CAPACITY {
      BitOfOr(s.bitmap, Pow2(k), m - s.base - 1);
      BitOfPow2(k, m - s.base - 1);
    }
  }

  /** What consuming `n` does, for every `u64` pair: exactly when it is accepted, and what is dead afterwards. */
  lemma {:induction false} ConsumeExact(s: Nonce, n: nat)
    requires s.InRange()
    ensures var r := NextNonceState(s.base, s.bitmap, n);
            && (r.Some? <==> n < U64_MAX && !s.Dead(n) && (n == s.base ==> s.base + FirstClear(s.bitmap, 0) < U64_MAX))
            && (r.Some? ==> r.value.InRange() && r.value.base >= s.base)
            && (r.Some? && n <= s.base + NONCE_BITMAP_CAPACITY
                ==> forall m: int :: r.value.Dead(m) <==> s.Dead(m) || m == n)
            && (r.Some? && n > s.base + NONCE_BITMAP_CAPACITY
                ==> forall m: int :: r.value.Dead(m) <==> m <= n)
  {
    var r := NextNonceState(s.base, s.bitmap, n);
    if s.base < n <= s.base + NONCE_BITMAP_CAPACITY { RecordExact(s, n, n); }
    if r.Some? {
      forall m: int
        ensures n <= s.base + NONCE_BITMAP_CAPACITY ==> (r.value.Dead(m) <==> s.Dead(m) || m == n)
        ensures n > s.base + NONCE_BITMAP_CAPACITY ==> (r.value.Dead(m) <==> m <= n)
      {
        if n == s.base {
          ConsumeCurrentExact(s, m);
        } else if n <= s.base + NONCE_BITMAP_CAPACITY {
          RecordExact(s, n, m);
        } else if m > n + 1 {
          ZeroHasNoBit(m - n - 2);
        }
      }
      if n == s.base { ConsumeCurrentExact(s, n); }
    }
  }

  /** On well-formed states the overflow guard of compaction never fires: only dead nonces and `u64::MAX` are refused. */
  lemma {:induction false} ConsumeWellFormed(s: Nonce, n: nat)
    requires s.WellFormed()
    ensures var r := NextNonceState(s.base, s.bitmap, n);
            && (r.Some? <==> n < U64_MAX && !s.Dead(n))
            && (r.Some? ==> r.value.WellFormed())
  {
    ConsumeExact(s, n);
    var run := FirstClear(s.bitmap, 0);
    if n == s.base < U64_MAX && run > 0 {
      assert Bit(s.bitmap, run - 1);
      assert s.Dead(s.base + run);
    }
  }

  /** The guard does fire on states no account can reach, so well-formedness is needed. */
  lemma {:induction false} GuardFiresOnMalformedState()
    ensures var s := Nonce(U64_MAX - 1, 1);
            s.InRange() && !s.Dead(U64_MAX - 1) && NextNonceState(s.base, s.bitmap, U64_MAX - 1).None?
  {
    assert FirstClear(1, 0) == FirstClear(1, 1) by { assert Bit(1, 0); }
  }

  /** Every dead nonce stays dead and an accepted nonce becomes dead: nothing is forgotten by compaction or far jumps. */
  lemma {:induction false} ConsumeKeepsDead(s: Nonce, n: nat, m: int)
    requires s.InRange() && NextNonceState(s.base, s.bitmap, n).Some?
    ensures var t := NextNonceState(s.base, s.bitmap, n).value;
            t.Dead(n) && (s.Dead(m) ==> t.Dead(m))
  {
    ConsumeExact(s, n);
  }

  // ----- Reachability -----

  /** The state after offering `ns` in order; refused nonces leave the state alone. */
  function ConsumeAll(s: Nonce, ns: seq<nat>): Nonce
    decreases |ns|
  {
    if ns == [] then s
    else
      var r := NextNonceState(s.base, s.bitmap, ns[0]);
      ConsumeAll(if r.Some? then r.value else s, ns[1..])
  }

  lemma {:induction false} ConsumeAllWellFormed(s: Nonce, ns: seq<nat>)
    requires s.WellFormed()
    ensures ConsumeAll(s, ns).WellFormed()
    decreases |ns|
  {
    if ns != [] {
      ConsumeWellFormed(s, ns[0]);
      var r := NextNonceState(s.base, s.bitmap, ns[0]);
      ConsumeAllWellFormed(if r.Some? then r.value else s, ns[1..]);
    }
  }

  lemma {:induction false} ConsumeAllConcat(s: Nonce, a: seq<nat>, b: seq<nat>)
    ensures ConsumeAll(s, a + b) == ConsumeAll(ConsumeAll(s, a), b)
    decreases |a|
  {
    if a == [] {
      assert a + b == b;
    } else {
      var r := NextNonceState(s.base, s.bitmap, a[0]);
      assert (a + b)[1..] == a[1..] + b;
      ConsumeAllConcat(if r.Some? then r.value else s, a[1..], b);
    }
  }

  /** Offering nonces that fit the window adds exactly those nonces, and never jumps. */
  lemma {:induction false} ConsumeAllExact(s: Nonce, ns: seq<nat>)
    requires s.WellFormed()
    requires forall n | n in ns :: n < U64_MAX && n <= s.base + NONCE_BITMAP_CAPACITY
    ensures var t := ConsumeAll(s, ns);
            && t.WellFormed() && t.base >= s.base
            && forall m: int :: t.Dead(m) <==> s.Dead(m) || m in ns
    decreases |ns|
  {
    if ns != [] {
      var n := ns[0];
      assert n in ns;
      ConsumeWellFormed(s, n);
      ConsumeExact(s, n);
      var r := NextNonceState(s.base, s.bitmap, n);
      var t := if r.Some? then r.value else s;
      assert forall m: int :: t.Dead(m) <==> s.Dead(m) || m == n by {
        if r.None? { assert s.Dead(n); }
      }
      assert forall k | k in ns[1..] :: k in ns;
      ConsumeAllExact(t, ns[1..]);
      assert ns == [n] + ns[1..];
    }
  }

  /** A well-formed state is determined by its dead nonces. */
  lemma {:induction false} Canonical(a: Nonce, b: Nonce)
    requires a.InRange() && b.InRange()
    requires forall m: int :: a.Dead(m) <==> b.Dead(m)
    ensures a == b
  {
    assert !a.Dead(a.base) && !b.Dead(b.base);
    assert a.base == b.base;
    U64Bound();
    forall k | 0 <= k < 64 ensures Bit(a.bitmap, k) == Bit(b.bitmap, k) {
      assert a.Dead(a.base + 1 + k) <==> b.Dead(a.base + 1 + k);
    }
    SameBits(a.bitmap, b.bitmap, 64);
  }

  /** The recorded nonces of `s`, in increasing order, up to bit `k`. */
  function Recorded(s: Nonce, k: nat): (ns: seq<nat>)
    ensures forall n :: n in ns <==> s.base < n <= s.base + k && Bit(s.bitmap, n - s.base - 1)
  {
    if k == 0 then []
    else if Bit(s.bitmap, k - 1) then Recorded(s, k - 1) + [s.base + k]
    else Recorded(s, k - 1)
  }

  lemma {:induction false} CountUp(b: nat)
    requires b <= U64_MAX
    ensures ConsumeAll(DEFAULT_NONCE, seq(b, i => i)) == Nonce(b, 0)
    decreases b
  {
    if b > 0 {
      var ns := seq(b - 1, i => i);
      assert seq(b, i => i) == ns + [b - 1];
      CountUp(b - 1);
      ConsumeAllConcat(DEFAULT_NONCE, ns, [b - 1]);
      var s := Nonce(b - 1, 0);
      assert FirstClear(0, 0) == 0;
      assert ConsumeAll(s, [b - 1]) == ConsumeAll(Nonce(b, Shr(0, 1)), []);
    }
  }

  /** Well-formedness is exactly reachability from a fresh account. */
  lemma {:induction false} ReachableIffWellFormed(s: Nonce)
    ensures s.WellFormed() <==> exists ns: seq<nat> :: ConsumeAll(DEFAULT_NONCE, ns) == s
  {
    assert DEFAULT_NONCE.WellFormed() by {
      forall n | DEFAULT_NONCE.Dead(n) ensures n < U64_MAX {
        if n > 0 { ZeroHasNoBit(n - 1); }
      }
    }
    forall ns: seq<nat> ensures ConsumeAll(DEFAULT_NONCE, ns).WellFormed() {
      ConsumeAllWellFormed(DEFAULT_NONCE, ns);
    }
    if s.WellFormed() {
      var up := seq(s.base, i => i);
      var bits := Recorded(s, 64);
      var start := Nonce(s.base, 0);
      CountUp(s.base);
      ConsumeAllWellFormed(DEFAULT_NONCE, up);
      ConsumeAllConcat(DEFAULT_NONCE, up, bits);
      forall n | n in bits ensures n < U64_MAX && n <= s.base + NONCE_BITMAP_CAPACITY {
        assert s.Dead(n);
      }
      ConsumeAllExact(start, bits);
      var t := ConsumeAll(start, bits);
      forall m: int ensures t.Dead(m) <==> s.Dead(m) {
        if m > s.base { ZeroHasNoBit(m - s.base - 1); }
      }
      Canonical(t, s);
      assert ConsumeAll(DEFAULT_NONCE, up + bits) == s;
    }
  }
}
