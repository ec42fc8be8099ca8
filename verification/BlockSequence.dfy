/** The explorer's live block stream: duplicates are dropped through a bounded memory of heights. */
module BlockSequence {
  import opened Wrappers

  datatype Heighted<T> = Heighted(height: int, payload: T)

  // ----- What is remembered -----

  /** The highest streamed block and all blocks whose heights were put in the memory, oldest first. */
  datatype Track<T> = Track(latest: Option<int>, remembered: seq<Heighted<T>>)

  /** The height is still in the memory: it is among the last `max` put there. */
  predicate Seen<T>(remembered: seq<Heighted<T>>, max: nat, h: int) {
    exists i | 0 <= i < |remembered| :: |remembered| - i <= max && remembered[i].height == h
  }

  function Add<T>(max: nat, t: Track<T>, b: Heighted<T>): Track<T> {
    if Seen(t.remembered, max, b.height) then t else t.(remembered := t.remembered + [b])
  }

  /** The first `k` of the blocks added one by one. */
  function AddAll<T>(max: nat, t: Track<T>, bs: seq<Heighted<T>>, k: nat): Track<T>
    requires k <= |bs|
  {
    if k == 0 then t else Add(max, AddAll(max, t, bs, k - 1), bs[k - 1])
  }

  function Raised(latest: Option<int>, height: int): Option<int> {
    if latest.None? || height > latest.value then Some(height) else latest
  }

  function LiveStep<T>(max: nat, t: Track<T>, b: Heighted<T>): Track<T> {
    if Seen(t.remembered, max, b.height) then t else Add(max, t.(latest := Raised(t.latest, b.height)), b)
  }

  function Live<T>(max: nat, t: Track<T>, bs: seq<Heighted<T>>, k: nat): Track<T>
    requires k <= |bs|
  {
    if k == 0 then t else LiveStep(max, Live(max, t, bs, k - 1), bs[k - 1])
  }

  /** The blocks of a range of heights, or nothing if the request is rejected. */
  type Fetch<T> = (int, int) -> Option<seq<Heighted<T>>>

  /** What is fetched for the gap below a streamed block, if there is one. */
  function Missing<T>(t: Track<T>, b: Heighted<T>, fetchMissing: Fetch<T>): Option<seq<Heighted<T>>> {
    if t.latest.Some? && b.height > t.latest.value + 1 then fetchMissing(t.latest.value + 1, b.height - 1) else Some([])
  }

  /** The fetch for the gap below an unseen block is rejected, which ends the call. */
  predicate Rejects<T>(max: nat, t: Track<T>, b: Heighted<T>, fetchMissing: Fetch<T>) {
    !Seen(t.remembered, max, b.height) && Missing(t, b, fetchMissing).None?
  }

  function NewStep<T>(max: nat, t: Track<T>, b: Heighted<T>, missing: seq<Heighted<T>>): Track<T> {
    if Seen(t.remembered, max, b.height) then t
    else Add(max, Track(Raised(t.latest, b.height), AddAll(max, t, missing, |missing|).remembered), b)
  }

  /** The memory after some blocks of a call, and whether the call has ended with a rejection. */
  datatype Call<T> = Call(track: Track<T>, aborted: bool)

  function CallStep<T>(max: nat, c: Call<T>, b: Heighted<T>, fetchMissing: Fetch<T>): Call<T> {
    if c.aborted then c
    else if Rejects(max, c.track, b, fetchMissing) then Call(c.track, true)
    else if Seen(c.track.remembered, max, b.height) then c
    else Call(NewStep(max, c.track, b, Missing(c.track, b, fetchMissing).value), false)
  }

  function New<T>(max: nat, t: Track<T>, bs: seq<Heighted<T>>, fetchMissing: Fetch<T>, k: nat): Call<T>
    requires k <= |bs|
  {
    if k == 0 then Call(t, false) else CallStep(max, New(max, t, bs, fetchMissing, k - 1), bs[k - 1], fetchMissing)
  }

  // ----- The cursor -----

  class BlockSequenceCursor<T(==)> {
    var latestHeight: Option<int>
    var seenHeights: set<int>
    var seenHeightOrder: seq<int>
    const maxSeenHeights: nat
    /** Every block whose height was put in the memory. */
    ghost var remembered: seq<Heighted<T>>
    /** Every block returned to a caller. */
    ghost var handed: seq<Heighted<T>>

    constructor (max: int)
      ensures Valid() && fresh(this) && Memory() == Track(None, []) && handed == []
      ensures maxSeenHeights == if max > 1 then max else 1
    {
      latestHeight, seenHeights, seenHeightOrder, remembered, handed := None, {}, [], [], [];
      maxSeenHeights := if max > 1 then max else 1;
    }

    ghost function Memory(): Track<T>
      reads this
    {
      Track(latestHeight, remembered)
    }

    /** Set and list hold the same heights: the last ones remembered, in order. */
    ghost predicate Valid()
      reads this
    {
      && maxSeenHeights >= 1
      && IsWindow(remembered, maxSeenHeights, seenHeightOrder)
      && (forall h :: h in seenHeights <==> h in seenHeightOrder)
      && Spaced(remembered, maxSeenHeights)
    }

    method HasSeen(height: int) returns (seen: bool)
      requires Valid()
      ensures seen == Seen(remembered, maxSeenHeights, height)
    {
      WindowIsSeen(remembered, maxSeenHeights, seenHeightOrder, height);
      return height in seenHeights;
    }

    method RememberHeight(height: int, ghost block: Heighted<T>)
      requires Valid() && height == block.height && !Seen(remembered, maxSeenHeights, height)
      modifies `latestHeight, `seenHeights, `seenHeightOrder, `remembered
      ensures Valid() && latestHeight == old(latestHeight) && remembered == old(remembered) + [block]
    {
      ghost var before, order := remembered, seenHeightOrder + [height];
      NoRepeats(before, block, maxSeenHeights, seenHeightOrder);
      WindowSnoc(before, block, maxSeenHeights, seenHeightOrder);
      SpacedSnoc(before, block, maxSeenHeights);
      seenHeights := seenHeights + {height};
      seenHeightOrder := seenHeightOrder + [height];
      remembered := remembered + [block];
      while |seenHeightOrder| > maxSeenHeights
        invariant |order| <= maxSeenHeights + 1
        invariant seenHeightOrder == order || (|order| == maxSeenHeights + 1 && seenHeightOrder == order[1..])
        invariant forall h :: h in seenHeights <==> h in seenHeightOrder
        invariant latestHeight == old(latestHeight) && remembered == before + [block]
        decreases |seenHeightOrder|
      {
        var stale := seenHeightOrder[0];
        seenHeightOrder := seenHeightOrder[1..];
        seenHeights := seenHeights - {stale};
      }
    }

    method AddIfNew(blocks: seq<Heighted<T>>, block: Heighted<T>) returns (next: seq<Heighted<T>>, ghost added: seq<Heighted<T>>)
      requires Valid()
      modifies `latestHeight, `seenHeights, `seenHeightOrder, `remembered
      ensures Valid() && Memory() == Add(maxSeenHeights, old(Memory()), block)
      ensures remembered == old(remembered) + added && next == blocks + added
    {
      var seen := HasSeen(block.height);
      if seen {
        return blocks, [];
      }
      RememberHeight(block.height, block);
      return blocks + [block], [block];
    }

    /** Raises the highest height and hands the block out. */
    method Accept(blocks: seq<Heighted<T>>, block: Heighted<T>) returns (next: seq<Heighted<T>>, ghost added: seq<Heighted<T>>)
      requires Valid()
      modifies `latestHeight, `seenHeights, `seenHeightOrder, `remembered
      ensures Valid() && Memory() == Add(maxSeenHeights, Track(Raised(old(latestHeight), block.height), old(remembered)), block)
      ensures remembered == old(remembered) + added && next == blocks + added
    {
      if latestHeight.None? || block.height > latestHeight.value {
        latestHeight := Some(block.height);
      }
      next, added := AddIfNew(blocks, block);
    }

    method CollectLiveBlocks(blocks: seq<Heighted<T>>) returns (next: seq<Heighted<T>>)
      requires Valid()
      modifies this
      ensures Valid() && Memory() == Live(maxSeenHeights, old(Memory()), blocks, |blocks|)
      ensures remembered == old(remembered) + next && handed == old(handed) + next
    {
      next := [];
      ghost var start := Memory();
      for i := 0 to |blocks|
        invariant Valid() && Memory() == Live(maxSeenHeights, start, blocks, i)
        invariant remembered == start.remembered + next && handed == old(handed)
      {
        var block := blocks[i];
        var seen := HasSeen(block.height);
        if seen {
          continue;
        }
        ghost var added;
        next, added := Accept(next, block);
      }
      handed := handed + next;
    }

    method FillGap(blocks: seq<Heighted<T>>, missing: seq<Heighted<T>>) returns (next: seq<Heighted<T>>, ghost added: seq<Heighted<T>>)
      requires Valid()
      modifies `latestHeight, `seenHeights, `seenHeightOrder, `remembered
      ensures Valid() && Memory() == AddAll(maxSeenHeights, old(Memory()), missing, |missing|)
      ensures remembered == old(remembered) + added && next == blocks + added
    {
      next, added := blocks, [];
      ghost var start := Memory();
      for j := 0 to |missing|
        invariant Valid() && Memory() == AddAll(maxSeenHeights, start, missing, j)
        invariant remembered == start.remembered + added && next == blocks + added
      {
        ghost var one;
        next, one := AddIfNew(next, missing[j]);
        added := added + one;
      }
    }

    /** One streamed block: nothing if its height is remembered, else the gap below it first, then the block. */
    method FillAndAccept(blocks: seq<Heighted<T>>, block: Heighted<T>, fetchMissing: Fetch<T>)
        returns (next: seq<Heighted<T>>, aborted: bool, ghost added: seq<Heighted<T>>)
      requires Valid()
      modifies `latestHeight, `seenHeights, `seenHeightOrder, `remembered
      ensures Valid() && Becomes(maxSeenHeights, Call(old(Memory()), false), block, fetchMissing, Call(Memory(), aborted))
      ensures remembered == old(remembered) + added && next == blocks + added
    {
      next, aborted, added := blocks, false, [];
      var seen := HasSeen(block.height);
      if seen {
        return;
      }
      var missing := [];
      if latestHeight.Some? && block.height > latestHeight.value + 1 {
        var fetched := fetchMissing(latestHeight.value + 1, block.height - 1);
        if fetched.None? {
          aborted := true;
          return;
        }
        missing := fetched.value;
      }
      next, added := FillGap(next, missing);
      AddAllKeepsLatest(maxSeenHeights, old(Memory()), missing, |missing|);
      ghost var one;
      next, one := Accept(next, block);
      added := added + one;
    }

    /** The loop of `collectNewBlocks`; `trace` is the memory after each block it came to. */
    method StreamBlocks(blocks: seq<Heighted<T>>, fetchMissing: Fetch<T>)
        returns (next: seq<Heighted<T>>, aborted: bool, ghost trace: seq<Call<T>>)
      requires Valid()
      modifies `latestHeight, `seenHeights, `seenHeightOrder, `remembered
      ensures Valid() && remembered == old(remembered) + next
      ensures 1 <= |trace| <= |blocks| + 1 && (!aborted ==> |trace| == |blocks| + 1)
      ensures trace[0] == Call(old(Memory()), false) && trace[|trace| - 1] == Call(Memory(), aborted)
      ensures IsTrace(maxSeenHeights, blocks, fetchMissing, trace)
    {
      next, aborted, trace := [], false, [Call(Memory(), false)];
      for i := 0 to |blocks|
        invariant Valid() && |trace| == i + 1 && trace[0] == Call(old(Memory()), false) && trace[i] == Call(Memory(), false)
        invariant IsTrace(maxSeenHeights, blocks, fetchMissing, trace)
        invariant !aborted && remembered == old(remembered) + next
      {
        ghost var added;
        next, aborted, added := FillAndAccept(next, blocks[i], fetchMissing);
        trace := trace + [Call(Memory(), aborted)];
        if aborted {
          return;
        }
      }
    }

    /** `collectNewBlocks`; nothing if the call ends with a rejected fetch, whatever it has put in the memory by then. */
    method CollectNewBlocks(blocks: seq<Heighted<T>>, fetchMissing: Fetch<T>) returns (r: Option<seq<Heighted<T>>>)
      requires Valid()
      modifies this
      ensures Valid() && Call(Memory(), r.None?) == New(maxSeenHeights, old(Memory()), blocks, fetchMissing, |blocks|)
      ensures r.Some? ==> remembered == old(remembered) + r.value && handed == old(handed) + r.value
      ensures r.None? ==> old(remembered) <= remembered && handed == old(handed)
    {
      var next, aborted; ghost var trace;
      next, aborted, trace := StreamBlocks(blocks, fetchMissing);
      TraceIsNew(maxSeenHeights, blocks, fetchMissing, trace, |trace| - 1);
      if aborted {
        AbortedStays(maxSeenHeights, old(Memory()), blocks, fetchMissing, |trace| - 1, |blocks|);
        return None;
      }
      handed := handed + next;
      return Some(next);
    }
  }

  ghost predicate IsTrace<T>(max: nat, bs: seq<Heighted<T>>, fetchMissing: Fetch<T>, trace: seq<Call<T>>)
    requires |trace| <= |bs| + 1
  {
    forall i | 0 <= i < |trace| - 1 :: Becomes(max, trace[i], bs[i], fetchMissing, trace[i + 1])
  }

  ghost predicate Becomes<T>(max: nat, c: Call<T>, b: Heighted<T>, fetchMissing: Fetch<T>, d: Call<T>) {
    d == CallStep(max, c, b, fetchMissing)
  }

  lemma {:induction false} TraceIsNew<T>(max: nat, bs: seq<Heighted<T>>, fetchMissing: Fetch<T>, trace: seq<Call<T>>, k: nat)
    requires k < |trace| <= |bs| + 1 && !trace[0].aborted && IsTrace(max, bs, fetchMissing, trace)
    ensures trace[k] == New(max, trace[0].track, bs, fetchMissing, k)
  {
    if k > 0 {
      TraceIsNew(max, bs, fetchMissing, trace, k - 1);
      assert Becomes(max, trace[k - 1], bs[k - 1], fetchMissing, trace[k - 1 + 1]);
    }
  }

  /** Nothing happens after a rejection. */
  lemma {:induction false} AbortedStays<T>(max: nat, t: Track<T>, bs: seq<Heighted<T>>, fetchMissing: Fetch<T>, k: nat, n: nat)
    requires k <= n <= |bs| && New(max, t, bs, fetchMissing, k).aborted
    ensures New(max, t, bs, fetchMissing, n) == New(max, t, bs, fetchMissing, k)
    decreases n
  {
    if k < n { AbortedStays(max, t, bs, fetchMissing, k, n - 1); }
  }

  lemma {:induction false} AddAllKeepsLatest<T>(max: nat, t: Track<T>, bs: seq<Heighted<T>>, k: nat)
    requires k <= |bs|
    ensures AddAll(max, t, bs, k).latest == t.latest
  {
    if k > 0 { AddAllKeepsLatest(max, t, bs, k - 1); }
  }

  // ----- No height repeats within the memory -----

  /** Equal heights are more than `max` emissions apart. */
  predicate Spaced<T>(remembered: seq<Heighted<T>>, max: nat) {
    forall i, j | 0 <= i < j < |remembered| && j - i <= max :: remembered[i].height != remembered[j].height
  }

  /** `w` lists the heights of the last `max` emissions. */
  predicate IsWindow<T>(remembered: seq<Heighted<T>>, max: nat, w: seq<int>) {
    && |w| == (if |remembered| <= max then |remembered| else max)
    && forall i | 0 <= i < |w| :: w[i] == remembered[|remembered| - |w| + i].height
  }

  lemma {:induction false} WindowIsSeen<T>(remembered: seq<Heighted<T>>, max: nat, w: seq<int>, h: int)
    requires IsWindow(remembered, max, w)
    ensures h in w <==> Seen(remembered, max, h)
  {
    var skip := |remembered| - |w|;
    if h in w {
      var i :| 0 <= i < |w| && w[i] == h;
      assert remembered[skip + i].height == h;
    }
    if Seen(remembered, max, h) {
      var i :| 0 <= i < |remembered| && |remembered| - i <= max && remembered[i].height == h;
      assert w[i - skip] == h;
    }
  }

  lemma {:induction false} WindowSnoc<T>(remembered: seq<Heighted<T>>, b: Heighted<T>, max: nat, w: seq<int>)
    requires max >= 1 && IsWindow(remembered, max, w)
    ensures var w' := w + [b.height];
            IsWindow(remembered + [b], max, if |w'| <= max then w' else w'[1..])
  {
  }

  lemma {:induction false} SpacedSnoc<T>(remembered: seq<Heighted<T>>, b: Heighted<T>, max: nat)
    requires Spaced(remembered, max) && !Seen(remembered, max, b.height)
    ensures Spaced(remembered + [b], max)
  {
    var after := remembered + [b];
    forall i, j | 0 <= i < j < |after| && j - i <= max ensures after[i].height != after[j].height {
      if j < |remembered| { assert remembered[i].height != remembered[j].height; }
    }
  }

  /** The remembered heights and a new one are pairwise different. */
  lemma {:induction false} NoRepeats<T>(remembered: seq<Heighted<T>>, b: Heighted<T>, max: nat, w: seq<int>)
    requires Spaced(remembered, max) && IsWindow(remembered, max, w) && !Seen(remembered, max, b.height)
    ensures forall i, j | 0 <= i < j < |w + [b.height]| :: (w + [b.height])[i] != (w + [b.height])[j]
  {
    WindowIsSeen(remembered, max, w, b.height);
    var skip := |remembered| - |w|;
    forall i, j | 0 <= i < j < |w| + 1 ensures (w + [b.height])[i] != (w + [b.height])[j] {
      if j < |w| { assert remembered[skip + i].height != remembered[skip + j].height; }
    }
  }

  lemma {:induction false} AddKeepsSpaced<T>(max: nat, t: Track<T>, b: Heighted<T>)
    requires Spaced(t.remembered, max)
    ensures Spaced(Add(max, t, b).remembered, max)
  {
    if !Seen(t.remembered, max, b.height) { SpacedSnoc(t.remembered, b, max); }
  }

  lemma {:induction false} AddAllKeepsSpaced<T>(max: nat, t: Track<T>, bs: seq<Heighted<T>>, k: nat)
    requires Spaced(t.remembered, max) && k <= |bs|
    ensures Spaced(AddAll(max, t, bs, k).remembered, max)
  {
    if k > 0 {
      AddAllKeepsSpaced(max, t, bs, k - 1);
      AddKeepsSpaced(max, AddAll(max, t, bs, k - 1), bs[k - 1]);
    }
  }

  lemma {:induction false} NewStepKeepsSpaced<T>(max: nat, t: Track<T>, b: Heighted<T>, missing: seq<Heighted<T>>)
    requires Spaced(t.remembered, max)
    ensures Spaced(NewStep(max, t, b, missing).remembered, max)
  {
    AddAllKeepsSpaced(max, t, missing, |missing|);
    AddKeepsSpaced(max, Track(Raised(t.latest, b.height), AddAll(max, t, missing, |missing|).remembered), b);
  }

  /** Whatever is streamed, fetched or rejected, equal heights are put in the memory more than `max` blocks apart. */
  lemma {:induction false} NewKeepsSpaced<T>(max: nat, t: Track<T>, bs: seq<Heighted<T>>, fetchMissing: Fetch<T>, k: nat)
    requires Spaced(t.remembered, max) && k <= |bs|
    ensures Spaced(New(max, t, bs, fetchMissing, k).track.remembered, max)
  {
    if k > 0 {
      var c := New(max, t, bs, fetchMissing, k - 1);
      NewKeepsSpaced(max, t, bs, fetchMissing, k - 1);
      var missing := Missing(c.track, bs[k - 1], fetchMissing);
      if missing.Some? { NewStepKeepsSpaced(max, c.track, bs[k - 1], missing.value); }
    }
  }

  lemma {:induction false} LiveKeepsSpaced<T>(max: nat, t: Track<T>, bs: seq<Heighted<T>>, k: nat)
    requires Spaced(t.remembered, max) && k <= |bs|
    ensures Spaced(Live(max, t, bs, k).remembered, max)
  {
    if k > 0 {
      var u := Live(max, t, bs, k - 1);
      LiveKeepsSpaced(max, t, bs, k - 1);
      AddKeepsSpaced(max, u.(latest := Raised(u.latest, bs[k - 1].height)), bs[k - 1]);
    }
  }

  /**
   * Handing out each height only once is beyond a bounded memory: a streamed block is handed out exactly if its height
   * is not among the last `max` emissions, so a height does repeat once `max` others came after it.
   */
  lemma {:induction false} RepeatsOnceForgotten<T>(max: nat, t: Track<T>, b: Heighted<T>, i: nat)
    requires Spaced(t.remembered, max) && i < |t.remembered| && t.remembered[i].height == b.height
    requires forall j | i < j < |t.remembered| :: t.remembered[j].height != b.height
    ensures LiveStep(max, t, b).remembered == (if |t.remembered| - i <= max then t.remembered else t.remembered + [b])
  {
    assert |t.remembered| - i <= max ==> Seen(t.remembered, max, b.height);
    forall j | 0 <= j < |t.remembered| && |t.remembered| - j <= max && |t.remembered| - i > max
      ensures t.remembered[j].height != b.height
    {
      assert i < j;
    }
  }

  /** A run that repeats: with room for one height, the stream 1, 2, 1 comes out as it is. */
  lemma {:induction false} ForgottenRun<T>(x: T, y: T, z: T)
    ensures var bs := [Heighted(1, x), Heighted(2, y), Heighted(1, z)];
            Live(1, Track(None, []), bs, 3).remembered == bs
  {
    var bs := [Heighted(1, x), Heighted(2, y), Heighted(1, z)];
    assert Live(1, Track(None, []), bs, 1).remembered == [bs[0]];
    assert Live(1, Track(None, []), bs, 2).remembered == [bs[0], bs[1]];
  }

  // ----- Rejected fetches -----

  lemma {:induction false} AddAllGrows<T>(max: nat, t: Track<T>, bs: seq<Heighted<T>>, k: nat)
    requires k <= |bs|
    ensures t.remembered <= AddAll(max, t, bs, k).remembered
  {
    if k > 0 { AddAllGrows(max, t, bs, k - 1); }
  }

  /** An unseen block that is not rejected leaves something in the memory. */
  lemma {:induction false} NewStepGrows<T>(max: nat, t: Track<T>, b: Heighted<T>, missing: seq<Heighted<T>>)
    requires !Seen(t.remembered, max, b.height)
    ensures t.remembered <= NewStep(max, t, b, missing).remembered
    ensures |t.remembered| < |NewStep(max, t, b, missing).remembered|
  {
    AddAllGrows(max, t, missing, |missing|);
    var filled := AddAll(max, t, missing, |missing|).remembered;
    if |filled| == |t.remembered| { assert filled == t.remembered; }
  }

  /** A call only adds to the memory, and it adds something exactly if some block before its end is unseen. */
  lemma {:induction false} NewGrows<T>(max: nat, t: Track<T>, bs: seq<Heighted<T>>, fetchMissing: Fetch<T>, k: nat)
    requires k <= |bs|
    ensures var c := New(max, t, bs, fetchMissing, k);
            && t.remembered <= c.track.remembered
            && (c.track.remembered == t.remembered ==> c.track == t)
            && (c.track.remembered == t.remembered && !c.aborted ==> forall i | 0 <= i < k :: Seen(t.remembered, max, bs[i].height))
  {
    if k > 0 {
      NewGrows(max, t, bs, fetchMissing, k - 1);
      var c, b := New(max, t, bs, fetchMissing, k - 1), bs[k - 1];
      var missing := Missing(c.track, b, fetchMissing);
      if !Seen(c.track.remembered, max, b.height) && missing.Some? { NewStepGrows(max, c.track, b, missing.value); }
    }
  }

  lemma {:induction false} SeenChangesNothing<T>(max: nat, t: Track<T>, bs: seq<Heighted<T>>, fetchMissing: Fetch<T>, k: nat)
    requires k <= |bs| && forall i | 0 <= i < k :: Seen(t.remembered, max, bs[i].height)
    ensures New(max, t, bs, fetchMissing, k) == Call(t, false)
  {
    if k > 0 { SeenChangesNothing(max, t, bs, fetchMissing, k - 1); }
  }

  /** The first block of the call that is not remembered is the one whose fetch is rejected. */
  ghost predicate RejectsFirst<T>(max: nat, t: Track<T>, bs: seq<Heighted<T>>, fetchMissing: Fetch<T>) {
    exists k | 0 <= k < |bs| ::
      (forall i | 0 <= i < k :: Seen(t.remembered, max, bs[i].height)) && Rejects(max, t, bs[k], fetchMissing)
  }

  /** The place of the rejection that ended a call. */
  lemma {:induction false} AbortedAt<T>(max: nat, t: Track<T>, bs: seq<Heighted<T>>, fetchMissing: Fetch<T>, n: nat) returns (k: nat)
    requires n <= |bs| && New(max, t, bs, fetchMissing, n).aborted
    ensures k < n && !New(max, t, bs, fetchMissing, k).aborted
    ensures Rejects(max, New(max, t, bs, fetchMissing, k).track, bs[k], fetchMissing)
    ensures New(max, t, bs, fetchMissing, n).track == New(max, t, bs, fetchMissing, k).track
  {
    if New(max, t, bs, fetchMissing, n - 1).aborted {
      k := AbortedAt(max, t, bs, fetchMissing, n - 1);
    } else {
      k := n - 1;
    }
  }

  /** What a call that began with memory `t` returns to its caller. */
  function HandedOut<T>(t: Track<T>, c: Call<T>): seq<Heighted<T>> {
    if c.aborted || |c.track.remembered| < |t.remembered| then [] else c.track.remembered[|t.remembered|..]
  }

  lemma {:induction false} FirstRejectionChangesNothing<T>(max: nat, t: Track<T>, bs: seq<Heighted<T>>, fetchMissing: Fetch<T>)
    requires RejectsFirst(max, t, bs, fetchMissing)
    ensures New(max, t, bs, fetchMissing, |bs|) == Call(t, true)
  {
    var j :| 0 <= j < |bs| && (forall i | 0 <= i < j :: Seen(t.remembered, max, bs[i].height)) && Rejects(max, t, bs[j], fetchMissing);
    SeenChangesNothing(max, t, bs, fetchMissing, j);
    assert New(max, t, bs, fetchMissing, j + 1) == Call(t, true);
    AbortedStays(max, t, bs, fetchMissing, j + 1, |bs|);
  }

  lemma {:induction false} UnchangedIsFirstRejection<T>(max: nat, t: Track<T>, bs: seq<Heighted<T>>, fetchMissing: Fetch<T>)
    requires var c := New(max, t, bs, fetchMissing, |bs|); c.aborted && c.track.remembered == t.remembered
    ensures RejectsFirst(max, t, bs, fetchMissing)
  {
    var k := AbortedAt(max, t, bs, fetchMissing, |bs|);
    NewGrows(max, t, bs, fetchMissing, k);
  }

  lemma {:induction false} HandedOutIsAdded<T>(t: Track<T>, c: Call<T>)
    requires t.remembered <= c.track.remembered
    ensures t.remembered + HandedOut(t, c) == c.track.remembered <==> !c.aborted || c.track.remembered == t.remembered
  {
    assert t.remembered + [] == t.remembered;
  }

  lemma {:induction false} UnchangedIffFirstRejection<T>(max: nat, t: Track<T>, bs: seq<Heighted<T>>, fetchMissing: Fetch<T>, c: Call<T>)
    requires c == New(max, t, bs, fetchMissing, |bs|) && c.aborted
    ensures c.track.remembered == t.remembered <==> RejectsFirst(max, t, bs, fetchMissing)
  {
    if RejectsFirst(max, t, bs, fetchMissing) {
      FirstRejectionChangesNothing(max, t, bs, fetchMissing);
    } else if c.track.remembered == t.remembered {
      UnchangedIsFirstRejection(max, t, bs, fetchMissing);
    }
  }

  /** Some fetch the call comes to is rejected. */
  ghost predicate SomeFetchRejects<T>(max: nat, t: Track<T>, bs: seq<Heighted<T>>, fetchMissing: Fetch<T>) {
    exists k | 0 <= k < |bs| :: Rejects(max, New(max, t, bs, fetchMissing, k).track, bs[k], fetchMissing)
  }

  lemma {:induction false} RejectionAborts<T>(max: nat, t: Track<T>, bs: seq<Heighted<T>>, fetchMissing: Fetch<T>, k: nat)
    requires k < |bs| && Rejects(max, New(max, t, bs, fetchMissing, k).track, bs[k], fetchMissing)
    ensures New(max, t, bs, fetchMissing, |bs|).aborted
  {
    assert New(max, t, bs, fetchMissing, k + 1).aborted;
    AbortedStays(max, t, bs, fetchMissing, k + 1, |bs|);
  }

  lemma {:induction false} AbortsIff<T>(max: nat, t: Track<T>, bs: seq<Heighted<T>>, fetchMissing: Fetch<T>, c: Call<T>)
    requires c == New(max, t, bs, fetchMissing, |bs|)
    ensures c.aborted <==> SomeFetchRejects(max, t, bs, fetchMissing)
  {
    if c.aborted {
      var k := AbortedAt(max, t, bs, fetchMissing, |bs|);
    } else if SomeFetchRejects(max, t, bs, fetchMissing) {
      var k :| 0 <= k < |bs| && Rejects(max, New(max, t, bs, fetchMissing, k).track, bs[k], fetchMissing);
      RejectionAborts(max, t, bs, fetchMissing, k);
    }
  }

  /** No fetch the call comes to is rejected, or the rejected one is for the first block that is not remembered. */
  ghost predicate LosesNothing<T>(max: nat, t: Track<T>, bs: seq<Heighted<T>>, fetchMissing: Fetch<T>) {
    !SomeFetchRejects(max, t, bs, fetchMissing) || RejectsFirst(max, t, bs, fetchMissing)
  }

  /**
   * What a call hands out is what it put in the memory exactly if none of its fetches is rejected, or the rejected one
   * is for the first block that is not remembered. Otherwise blocks are remembered that no caller ever gets.
   */
  lemma {:induction false} LosesNothingIff<T>(max: nat, t: Track<T>, bs: seq<Heighted<T>>, fetchMissing: Fetch<T>, c: Call<T>)
    requires c == New(max, t, bs, fetchMissing, |bs|)
    ensures t.remembered <= c.track.remembered
    ensures t.remembered + HandedOut(t, c) == c.track.remembered <==> LosesNothing(max, t, bs, fetchMissing)
  {
    NewGrows(max, t, bs, fetchMissing, |bs|);
    HandedOutIsAdded(t, c);
    AbortsIff(max, t, bs, fetchMissing, c);
    if c.aborted { UnchangedIffFirstRejection(max, t, bs, fetchMissing, c); }
  }

  // ----- Any list of calls -----

  datatype Request<T> = LiveRequest(blocks: seq<Heighted<T>>) | NewRequest(blocks: seq<Heighted<T>>, fetchMissing: Fetch<T>)

  /** The memory after a call, and whether the call failed. */
  function Answer<T>(max: nat, t: Track<T>, r: Request<T>): Call<T> {
    match r
    case LiveRequest(bs) => Call(Live(max, t, bs, |bs|), false)
    case NewRequest(bs, fetchMissing) => New(max, t, bs, fetchMissing, |bs|)
  }

  function MemoryAfter<T>(max: nat, t: Track<T>, rs: seq<Request<T>>): Track<T>
    decreases |rs|
  {
    if rs == [] then t else MemoryAfter(max, Answer(max, t, rs[0]).track, rs[1..])
  }

  /** Everything the calls hand out, in order. */
  function Returned<T>(max: nat, t: Track<T>, rs: seq<Request<T>>): seq<Heighted<T>>
    decreases |rs|
  {
    if rs == [] then []
    else
      var c := Answer(max, t, rs[0]);
      HandedOut(t, c) + Returned(max, c.track, rs[1..])
  }

  /** Every gap-filling call of the list loses nothing. */
  ghost predicate AllLoseNothing<T>(max: nat, t: Track<T>, rs: seq<Request<T>>)
    decreases |rs|
  {
    rs != [] ==>
      && (rs[0].NewRequest? ==> LosesNothing(max, t, rs[0].blocks, rs[0].fetchMissing))
      && AllLoseNothing(max, Answer(max, t, rs[0]).track, rs[1..])
  }

  lemma {:induction false} LiveGrows<T>(max: nat, t: Track<T>, bs: seq<Heighted<T>>, k: nat)
    requires k <= |bs|
    ensures t.remembered <= Live(max, t, bs, k).remembered
  {
    if k > 0 { LiveGrows(max, t, bs, k - 1); }
  }

  lemma {:induction false} AnswerExact<T>(max: nat, t: Track<T>, r: Request<T>, c: Call<T>)
    requires c == Answer(max, t, r)
    ensures t.remembered <= c.track.remembered
    ensures t.remembered + HandedOut(t, c) == c.track.remembered <==>
            (r.NewRequest? ==> LosesNothing(max, t, r.blocks, r.fetchMissing))
  {
    match r {
      case LiveRequest(bs) => LiveGrows(max, t, bs, |bs|);
      case NewRequest(bs, fetchMissing) => LosesNothingIff(max, t, bs, fetchMissing, c);
    }
  }

  lemma {:induction false} AnswerKeepsSpaced<T>(max: nat, t: Track<T>, r: Request<T>)
    requires Spaced(t.remembered, max)
    ensures Spaced(Answer(max, t, r).track.remembered, max)
  {
    match r {
      case LiveRequest(bs) => LiveKeepsSpaced(max, t, bs, |bs|);
      case NewRequest(bs, fetchMissing) => NewKeepsSpaced(max, t, bs, fetchMissing, |bs|);
    }
  }

  /** Pieces that are each a prefix-sized part of what was added join to all of it exactly if every piece is whole. */
  lemma {:induction false} JoinedExact<T>(a: seq<T>, b: seq<T>, c: seq<T>, x: seq<T>, y: seq<T>)
    requires |a| + |x| <= |b| && |b| + |y| <= |c|
    requires |a| + |x| == |b| ==> a + x == b
    requires |b| + |y| == |c| ==> b + y == c
    ensures |a| + |x + y| <= |c|
    ensures a + (x + y) == c <==> a + x == b && b + y == c
    ensures |a| + |x + y| == |c| ==> a + (x + y) == c
  {
    assert a + (x + y) == (a + x) + y;
  }

  lemma {:induction false} HandedOutFits<T>(t: Track<T>, c: Call<T>)
    requires t.remembered <= c.track.remembered
    ensures |t.remembered| + |HandedOut(t, c)| <= |c.track.remembered|
    ensures |t.remembered| + |HandedOut(t, c)| == |c.track.remembered| ==> t.remembered + HandedOut(t, c) == c.track.remembered
  {
  }

  /**
   * Over any list of live and gap-filling calls: what they hand out, joined, is what the memory took in exactly if every
   * gap-filling call loses nothing.
   */
  lemma {:induction false} ReturnedIsMemoryIff<T>(max: nat, t: Track<T>, rs: seq<Request<T>>)
    ensures |t.remembered| + |Returned(max, t, rs)| <= |MemoryAfter(max, t, rs).remembered|
    ensures t.remembered + Returned(max, t, rs) == MemoryAfter(max, t, rs).remembered <==> AllLoseNothing(max, t, rs)
    ensures |t.remembered| + |Returned(max, t, rs)| == |MemoryAfter(max, t, rs).remembered| ==>
              t.remembered + Returned(max, t, rs) == MemoryAfter(max, t, rs).remembered
    decreases |rs|
  {
    if rs == [] {
      assert t.remembered + [] == t.remembered;
    } else {
      var c := Answer(max, t, rs[0]);
      AnswerExact(max, t, rs[0], c);
      HandedOutFits(t, c);
      ReturnedIsMemoryIff(max, c.track, rs[1..]);
      JoinedExact(t.remembered, c.track.remembered, MemoryAfter(max, c.track, rs[1..]).remembered,
                  HandedOut(t, c), Returned(max, c.track, rs[1..]));
    }
  }

  lemma {:induction false} MemoryKeepsSpaced<T>(max: nat, t: Track<T>, rs: seq<Request<T>>)
    requires Spaced(t.remembered, max)
    ensures Spaced(MemoryAfter(max, t, rs).remembered, max)
    decreases |rs|
  {
    if rs != [] {
      AnswerKeepsSpaced(max, t, rs[0]);
      MemoryKeepsSpaced(max, Answer(max, t, rs[0]).track, rs[1..]);
    }
  }

  /** So from a new cursor on, while calls lose nothing, equal heights are handed out more than `max` blocks apart. */
  lemma {:induction false} ReturnedSpaced<T>(max: nat, rs: seq<Request<T>>)
    requires AllLoseNothing(max, Track(None, []), rs)
    ensures Spaced(Returned(max, Track(None, []), rs), max)
  {
    var t: Track<T> := Track(None, []);
    ReturnedIsMemoryIff(max, t, rs);
    MemoryKeepsSpaced(max, t, rs);
    assert t.remembered + Returned(max, t, rs) == Returned(max, t, rs);
  }

  /**
   * A run with a rejection: block 1 was handed out, the call with 2, 3 and 10 fails on the gap, and block 1 has left a
   * memory of two although it alone was ever handed out. Streamed once more it is handed out again, right after itself.
   */
  lemma {:induction false} RejectionRepeats<T>(x: T)
    ensures var one, two, three, ten := Heighted(1, x), Heighted(2, x), Heighted(3, x), Heighted(10, x);
            var t := Live(2, Track(None, []), [one], 1);
            var c := New(2, t, [two, three, ten], (_, _) => None, 3);
            var u := Live(2, c.track, [one], 1);
            && t.remembered == [one]
            && t.remembered + HandedOut(t, c) + HandedOut(c.track, Call(u, false)) == [one, one]
            && !Spaced([one, one], 2)
  {
    var one, two, three, ten := Heighted(1, x), Heighted(2, x), Heighted(3, x), Heighted(10, x);
    var bs, fetchMissing: Fetch<T> := [two, three, ten], (_, _) => None;
    var t := Live(2, Track(None, []), [one], 1);
    var none: seq<Heighted<T>> := [];
    assert none + [one] == [one] && !Seen(none, 2, 1);
    assert t == LiveStep(2, Live(2, Track(None, none), [one], 0), one);
    assert t == Track(Some(1), [one]);
    assert New(2, t, bs, fetchMissing, 1) == Call(Track(Some(2), [one, two]), false);
    assert New(2, t, bs, fetchMissing, 2) == Call(Track(Some(3), [one, two, three]), false);
    assert !Seen([one, two, three], 2, 10);
    assert New(2, t, bs, fetchMissing, 3) == Call(Track(Some(3), [one, two, three]), true);
    assert !Seen([one, two, three], 2, 1);
    assert Live(2, Track(Some(3), [one, two, three]), [one], 1).remembered == [one, two, three, one];
    assert [one, one][0].height == [one, one][1].height;
  }

  // ----- Gaps are filled -----

  function Heights<T>(bs: seq<Heighted<T>>): (hs: seq<int>)
    ensures |hs| == |bs| && forall i | 0 <= i < |bs| :: hs[i] == bs[i].height
  {
    seq(|bs|, i requires 0 <= i < |bs| => bs[i].height)
  }

  function Range(from: int, to: int): (hs: seq<int>)
    requires from <= to + 1
    ensures |hs| == to + 1 - from && forall i | 0 <= i < |hs| :: hs[i] == from + i
  {
    seq(to + 1 - from, i => from + i)
  }

  /** The store answers a gap with exactly its blocks. */
  ghost predicate Honest<T(!new)>(fetchMissing: Fetch<T>) {
    forall from, to | from <= to :: fetchMissing(from, to).Some? && Heights(fetchMissing(from, to).value) == Range(from, to)
  }

  /** Nothing remembered is above the highest streamed block. */
  predicate Topped<T>(t: Track<T>) {
    t.latest.Some? && forall i | 0 <= i < |t.remembered| :: t.remembered[i].height <= t.latest.value
  }

  lemma {:induction false} AddAllAscending<T>(max: nat, t: Track<T>, bs: seq<Heighted<T>>, k: nat)
    requires Topped(t) && k <= |bs|
    requires forall i | 0 <= i < |bs| :: bs[i].height == t.latest.value + 1 + i
    ensures AddAll(max, t, bs, k) == t.(remembered := t.remembered + bs[..k])
  {
    if k > 0 {
      AddAllAscending(max, t, bs, k - 1);
      assert bs[..k] == bs[..k - 1] + [bs[k - 1]];
      assert !Seen(t.remembered + bs[..k - 1], max, bs[k - 1].height);
    }
  }

  /** Blocks that close the gap below a streamed block come out before it. */
  lemma {:induction false} NewStepFillsGap<T>(max: nat, t: Track<T>, b: Heighted<T>, missing: seq<Heighted<T>>)
    requires Topped(t) && b.height == t.latest.value + 1 + |missing|
    requires forall i | 0 <= i < |missing| :: missing[i].height == t.latest.value + 1 + i
    ensures NewStep(max, t, b, missing) == Track(Some(b.height), t.remembered + missing + [b])
  {
    AddAllAscending(max, t, missing, |missing|);
    assert missing[..|missing|] == missing;
    assert !Seen(t.remembered, max, b.height);
    assert !Seen(t.remembered + missing, max, b.height);
  }

  lemma {:induction false} HonestMissing<T(!new)>(t: Track<T>, b: Heighted<T>, fetchMissing: Fetch<T>)
    requires Honest(fetchMissing) && t.latest.Some? && b.height > t.latest.value
    ensures Missing(t, b, fetchMissing).Some?
    ensures var missing := Missing(t, b, fetchMissing).value;
            && b.height == t.latest.value + 1 + |missing|
            && forall i | 0 <= i < |missing| :: missing[i].height == t.latest.value + 1 + i
  {
    if b.height > t.latest.value + 1 {
      var missing := fetchMissing(t.latest.value + 1, b.height - 1).value;
      assert Heights(missing) == Range(t.latest.value + 1, b.height - 1);
      forall i | 0 <= i < |missing| ensures missing[i].height == t.latest.value + 1 + i {
        assert missing[i].height == Heights(missing)[i];
      }
    }
  }

  /** The memory of `t` followed by one block for every height up to `to`, in order. */
  ghost predicate Continues<T>(t: Track<T>, u: Track<T>, to: int) {
    && t.latest.Some? && t.latest.value <= to && u.latest == Some(to)
    && |u.remembered| == |t.remembered| + (to - t.latest.value)
    && (forall i | 0 <= i < |t.remembered| :: u.remembered[i] == t.remembered[i])
    && (forall i | |t.remembered| <= i < |u.remembered| :: u.remembered[i].height == t.latest.value + 1 + (i - |t.remembered|))
  }

  lemma {:induction false} ContinuesFurther<T>(t: Track<T>, u: Track<T>, b: Heighted<T>, missing: seq<Heighted<T>>)
    requires Topped(t) && u.latest.Some? && Continues(t, u, u.latest.value) && b.height == u.latest.value + 1 + |missing|
    requires forall i | 0 <= i < |missing| :: missing[i].height == u.latest.value + 1 + i
    ensures Continues(t, Track(Some(b.height), u.remembered + missing + [b]), b.height)
    ensures Topped(u)
  {
  }

  /** A rising stream with holes comes out without holes: every height from the first gap to the last block, once, in order. */
  lemma {:induction false} NewFillsGaps<T(!new)>(max: nat, t: Track<T>, bs: seq<Heighted<T>>, fetchMissing: Fetch<T>, k: nat)
    requires Honest(fetchMissing) && Topped(t) && k <= |bs|
    requires forall i | 0 <= i < |bs| :: bs[i].height > t.latest.value
    requires forall i, j | 0 <= i < j < |bs| :: bs[i].height < bs[j].height
    ensures var c := New(max, t, bs, fetchMissing, k);
            !c.aborted && Continues(t, c.track, if k == 0 then t.latest.value else bs[k - 1].height)
  {
    if k > 0 {
      var u, b := New(max, t, bs, fetchMissing, k - 1).track, bs[k - 1];
      NewFillsGaps(max, t, bs, fetchMissing, k - 1);
      assert u.latest.value < b.height;
      HonestMissing(u, b, fetchMissing);
      var missing := Missing(u, b, fetchMissing).value;
      ContinuesFurther(t, u, b, missing);
      NewStepFillsGap(max, u, b, missing);
      AboveIsUnseen(max, u, b);
    }
  }

  lemma {:induction false} AboveIsUnseen<T>(max: nat, t: Track<T>, b: Heighted<T>)
    requires Topped(t) && b.height > t.latest.value
    ensures !Seen(t.remembered, max, b.height)
  {
  }

  /** After live calls the latest height is the highest one streamed, blocks that were dropped included. */
  lemma {:induction false} LiveLatestIsHighest<T>(max: nat, t: Track<T>, bs: seq<Heighted<T>>, k: nat)
    requires k <= |bs| && (t == Track(None, []) || Topped(t))
    ensures var u := Live(max, t, bs, k);
            && (u == Track(None, []) || Topped(u))
            && (k > 0 || t.latest.Some? ==> u.latest.Some?)
            && (forall i | 0 <= i < k :: bs[i].height <= u.latest.value)
            && (t.latest.Some? ==> t.latest.value <= u.latest.value)
            && (u.latest == t.latest || exists i :: 0 <= i < k && u.latest == Some(bs[i].height))
  {
    if k > 0 {
      LiveLatestIsHighest(max, t, bs, k - 1);
      var u, b := Live(max, t, bs, k - 1), bs[k - 1];
      if Seen(u.remembered, max, b.height) {
        assert Topped(u);
      }
    }
  }
}
