/** The explorer's copy of the nonce machine, and the merge of two nonce states. */
module ExplorerNonces {
  import opened Bits
  import opened Wrappers
  import opened Nonces

  /** `consumeBaseNonce`: the loop finds the first clear bit. */
  method ConsumeBaseNonce(state: Nonce) returns (next: Option<Nonce>)
    ensures next == ConsumeCurrent(state.base, state.bitmap)
  {
    var advance := 1;
    while advance <= NONCE_BITMAP_CAPACITY
      invariant 1 <= advance <= NONCE_BITMAP_CAPACITY + 1
      invariant FirstClear(state.bitmap, 0) == FirstClear(state.bitmap, advance - 1)
    {
      AndPow2(state.bitmap, advance - 1);
      if And(state.bitmap, Pow2(advance - 1)) == 0 {
        break;
      }
      advance := advance + 1;
    }
    var base := state.base + advance;
    if base > U64_MAX {
      return None;
    }
    return Some(Nonce(base, if advance >= NONCE_BITMAP_CAPACITY then 0 else Shr(state.bitmap, advance)));
  }

  /**
   * `consumeNonce` on any bigint, negative or beyond `u64` included. It is the validator's machine on
   * every `u64` nonce and refuses every other bigint.
   */
  method ConsumeNonce(state: Nonce, nonce: int) returns (next: Option<Nonce>)
    ensures 0 <= nonce ==> next == NextNonceState(state.base, state.bitmap, nonce)
    ensures !(0 <= nonce <= U64_MAX) ==> next == None
  {
    if nonce < state.base || nonce > U64_MAX {
      return None;
    }
    var nextUsedNonce := nonce + 1;
    if nextUsedNonce > U64_MAX {
      return None;
    }
    var delta := nonce - state.base;
    if delta == 0 {
      next := ConsumeBaseNonce(state);
      return;
    }
    if delta > NONCE_BITMAP_CAPACITY {
      return Some(Nonce(nextUsedNonce, 0));
    }
    var bit := Pow2(delta - 1);
    if And(state.bitmap, bit) != 0 {
      return None;
    }
    return Some(Nonce(state.base, Or(state.bitmap, bit)));
  }

  /** The nonces `consumedBitmapNonces` yields: the recorded ones at or above `base`. */
  function AtOrAbove(ns: seq<nat>, base: nat): (r: seq<nat>)
    ensures forall n :: n in r <==> n in ns && n >= base
  {
    if ns == [] then []
    else
      var last := ns[|ns| - 1];
      assert ns == ns[..|ns| - 1] + [last];
      AtOrAbove(ns[..|ns| - 1], base) + (if last >= base then [last] else [])
  }

  /** The generator, as the sequence it yields; its two arguments never change while it runs. */
  method ConsumedBitmapNonces(state: Nonce, base: nat) returns (nonces: seq<nat>)
    ensures nonces == AtOrAbove(Recorded(state, NONCE_BITMAP_CAPACITY), base)
  {
    nonces := [];
    for offset := 0 to NONCE_BITMAP_CAPACITY
      invariant nonces == AtOrAbove(Recorded(state, offset), base)
    {
      var bit := Pow2(offset);
      AndPow2(state.bitmap, offset);
      if And(state.bitmap, bit) == 0 {
        continue;
      }
      var nonce := state.base + offset + 1;
      assert Recorded(state, offset + 1)[..|Recorded(state, offset)|] == Recorded(state, offset);
      if nonce >= base {
        nonces := nonces + [nonce];
      }
    }
  }

  /** The value `mergeNonceStates` computes. */
  function Merge(left: Nonce, right: Nonce): Nonce {
    var start := Nonce(if left.base > right.base then left.base else right.base, 0);
    var half := ConsumeAll(start, AtOrAbove(Recorded(left, NONCE_BITMAP_CAPACITY), start.base));
    ConsumeAll(half, AtOrAbove(Recorded(right, NONCE_BITMAP_CAPACITY), half.base))
  }

  /** The body shared by the two loops of `mergeNonceStates`. */
  method FoldNonces(state: Nonce, nonces: seq<nat>) returns (merged: Nonce)
    ensures merged == ConsumeAll(state, nonces)
  {
    merged := state;
    for i := 0 to |nonces|
      invariant ConsumeAll(merged, nonces[i..]) == ConsumeAll(state, nonces)
    {
      var r := ConsumeNonce(merged, nonces[i]);
      merged := if r.Some? then r.value else merged;
      assert nonces[i..][1..] == nonces[i + 1..];
    }
  }

  /** `mergeNonceStates`: on states an account can reach, the union of what both sides know to be used. */
  method MergeNonceStates(left: Nonce, right: Nonce) returns (merged: Nonce)
    ensures merged == Merge(left, right)
    ensures left.WellFormed() && right.WellFormed() ==>
              && merged.WellFormed()
              && forall m: int :: merged.Dead(m) <==> left.Dead(m) || right.Dead(m)
  {
    if left.WellFormed() && right.WellFormed() { MergeIsUnion(left, right); }
    merged := if left.base > right.base then Nonce(left.base, 0) else Nonce(right.base, 0);
    var fromLeft := ConsumedBitmapNonces(left, merged.base);
    merged := FoldNonces(merged, fromLeft);
    var fromRight := ConsumedBitmapNonces(right, merged.base);
    merged := FoldNonces(merged, fromRight);
  }

  lemma {:induction false} RecordedAreDead(s: Nonce)
    requires s.WellFormed()
    ensures forall n | n in Recorded(s, NONCE_BITMAP_CAPACITY) :: s.Dead(n) && n < U64_MAX
  {
    forall n | n in Recorded(s, NONCE_BITMAP_CAPACITY) ensures s.Dead(n) && n < U64_MAX {
      assert s.Dead(n);
    }
  }

  lemma {:induction false} EmptyWindow(base: nat)
    requires base <= U64_MAX
    ensures Nonce(base, 0).WellFormed()
    ensures forall m: int :: Nonce(base, 0).Dead(m) <==> m < base
  {
    var s := Nonce(base, 0);
    forall m: int ensures s.Dead(m) <==> m < base {
      if m > base { ZeroHasNoBit(m - base - 1); }
    }
  }

  /** Folding the recorded nonces of one side into a state whose base is at least that side's. */
  lemma {:induction false} AbsorbExact(s: Nonce, side: Nonce)
    requires s.WellFormed() && side.WellFormed() && side.base <= s.base
    ensures var t := ConsumeAll(s, AtOrAbove(Recorded(side, NONCE_BITMAP_CAPACITY), s.base));
            && t.WellFormed() && t.base >= s.base
            && forall m: int :: t.Dead(m) <==> s.Dead(m) || side.Dead(m)
  {
    var ns := AtOrAbove(Recorded(side, NONCE_BITMAP_CAPACITY), s.base);
    RecordedAreDead(side);
    ConsumeAllExact(s, ns);
    var t := ConsumeAll(s, ns);
    forall m: int ensures t.Dead(m) <==> s.Dead(m) || side.Dead(m) {
      if m > side.base { var k: nat := m; assert k in ns <==> k in Recorded(side, NONCE_BITMAP_CAPACITY) && k >= s.base; }
    }
  }

  /** The merge is exactly the union of the two dead sets. */
  lemma {:induction false} MergeIsUnion(left: Nonce, right: Nonce)
    requires left.WellFormed() && right.WellFormed()
    ensures var t := Merge(left, right);
            && t.WellFormed()
            && forall m: int :: t.Dead(m) <==> left.Dead(m) || right.Dead(m)
  {
    var start := Nonce(if left.base > right.base then left.base else right.base, 0);
    EmptyWindow(start.base);
    AbsorbExact(start, left);
    var half := ConsumeAll(start, AtOrAbove(Recorded(left, NONCE_BITMAP_CAPACITY), start.base));
    AbsorbExact(half, right);
  }

  /** No offered nonce ever lies beyond the window, so a merge never drops the window. */
  lemma {:induction false} MergeNeverJumps(s: Nonce, side: Nonce, i: nat)
    requires s.WellFormed() && side.WellFormed() && side.base <= s.base
    requires i < |AtOrAbove(Recorded(side, NONCE_BITMAP_CAPACITY), s.base)|
    ensures var ns := AtOrAbove(Recorded(side, NONCE_BITMAP_CAPACITY), s.base);
            ns[i] <= ConsumeAll(s, ns[..i]).base + NONCE_BITMAP_CAPACITY
  {
    var ns := AtOrAbove(Recorded(side, NONCE_BITMAP_CAPACITY), s.base);
    RecordedAreDead(side);
    assert forall n | n in ns[..i] :: n in ns;
    ConsumeAllExact(s, ns[..i]);
    assert ns[i] in ns;
  }

  lemma {:induction false} MergeCommutes(a: Nonce, b: Nonce)
    requires a.WellFormed() && b.WellFormed()
    ensures Merge(a, b) == Merge(b, a)
  {
    MergeIsUnion(a, b);
    MergeIsUnion(b, a);
    Canonical(Merge(a, b), Merge(b, a));
  }

  lemma {:induction false} MergeAssociates(a: Nonce, b: Nonce, c: Nonce)
    requires a.WellFormed() && b.WellFormed() && c.WellFormed()
    ensures Merge(Merge(a, b), c) == Merge(a, Merge(b, c))
  {
    MergeIsUnion(a, b);
    MergeIsUnion(b, c);
    MergeIsUnion(Merge(a, b), c);
    MergeIsUnion(a, Merge(b, c));
    Canonical(Merge(Merge(a, b), c), Merge(a, Merge(b, c)));
  }

  lemma {:induction false} MergeIdempotent(a: Nonce)
    requires a.WellFormed()
    ensures Merge(a, a) == a
  {
    MergeIsUnion(a, a);
    Canonical(Merge(a, a), a);
  }

  /** Merging a stale snapshot into a state that already contains it changes nothing. */
  lemma {:induction false} MergeAbsorbsOlderState(a: Nonce, ns: seq<nat>)
    requires a.WellFormed()
    ensures Merge(a, ConsumeAll(a, ns)) == ConsumeAll(a, ns)
  {
    var b := ConsumeAll(a, ns);
    ConsumeAllWellFormed(a, ns);
    ConsumeAllGrows(a, ns);
    MergeIsUnion(a, b);
    Canonical(Merge(a, b), b);
  }

  lemma {:induction false} ConsumeAllGrows(s: Nonce, ns: seq<nat>)
    requires s.WellFormed()
    ensures forall m: int :: s.Dead(m) ==> ConsumeAll(s, ns).Dead(m)
    decreases |ns|
  {
    if ns != [] {
      var r := NextNonceState(s.base, s.bitmap, ns[0]);
      ConsumeWellFormed(s, ns[0]);
      if r.Some? { ConsumeExact(s, ns[0]); }
      ConsumeAllGrows(if r.Some? then r.value else s, ns[1..]);
    }
  }
}
