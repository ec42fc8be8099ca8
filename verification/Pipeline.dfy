/** The crash-tolerant upload pipeline as a transition system: producer, durable queue, consumer, publisher and Store. */
module Pipeline {
  import opened Wrappers
  import opened Uploads
  import P = Publisher

  /**
   * The upload boundaries of a chain: upload `i` spans `f[i - 1]..f[i]`. `Uploads.FrontiersIncrease`
   * shows that every chain provides one.
   */
  predicate Frontiers(f: seq<Cursor>) {
    && |f| >= 1 && f[0] == Cursor(0, 0)
    && forall i, j | 0 <= i < j < |f| :: f[i].stateNext < f[j].stateNext && f[i].transactionNext < f[j].transactionNext
  }

  // ----- State -----

  /** Survives crashes. Position `p` of the queue holds upload `queue[p]`; `synced` positions are durably acknowledged. */
  datatype Durable = Durable(queue: seq<nat>, synced: set<nat>, metadata: Option<Cursor>)

  /** The remote Store: the uploads whose batch landed, and the boundary both published watermarks stand at. */
  datatype Store = Store(rows: set<nat>, watermark: nat)

  datatype Writers = Writers(
    next: Cursor,             // the reserved locations
    base: nat,                // the boundary of the state watermark read on connecting
    transactionBase: nat,     // the boundary of the transaction watermark, read after it
    reserved: nat,            // the last upload reserved
    inFlight: set<nat>,       // reserved uploads whose batch has not landed
    landed: set<nat>,         // landed batches not yet marked
    inline: set<nat>,         // those of them that carried watermarks
    pending: set<nat>,        // marked uploads, awaiting watermarks
    statePublished: nat,      // the boundaries the two writers know to be published
    transactionsPublished: nat)

  datatype Process = Process(
    cursor: Cursor,           // the producer's cursor
    persisting: Option<Cursor>, // enqueued, cursor not yet persisted
    recovered: set<nat>,      // positions acknowledged when the process started
    acked: set<nat>,          // positions acknowledged by now
    readPos: nat,             // the reader's position
    waiting: set<nat>,        // positions awaiting a completion signal
    done: set<nat>,           // positions completed, not yet acknowledged
    stateRead: Option<nat>,   // while connecting: the boundary of the state watermark read
    writers: Option<Writers>, // the publisher connects lazily
    maxActive: nat)           // how many entries may be waiting or completed at once

  /** `stragglers` are batches in flight at a crash, which may still reach the Store at any time. */
  datatype State = State(durable: Durable, store: Store, stragglers: set<nat>, process: Option<Process>)

  const INIT := State(Durable([], {}, None), Store({}, 0), {}, None)

  datatype Step =
    | Start(maxActive: nat)
    | Crash
    | Enqueue(upload: nat)
    | PersistCursor
    | ReadStateWatermark
    | ReadTransactionWatermark
    | ConnectFails
    | Read
    | Land(upload: nat, publish: bool)
    | Straggle(upload: nat, publish: bool)
    | Mark(upload: nat)
    | Flush(boundary: nat)
    | LateFlush(boundary: nat)
    | Complete(position: nat)
    | Ack(position: nat)
    | Sync(positions: set<nat>)

  // ----- Steps -----

  /** The published watermark for boundary `w`: the last location below it, if any. */
  function StateWatermark(f: seq<Cursor>, w: nat): Option<nat>
    requires w < |f|
  {
    if f[w].stateNext == 0 then None else Some(f[w].stateNext - 1)
  }

  function TransactionWatermark(f: seq<Cursor>, w: nat): Option<nat>
    requires w < |f|
  {
    if f[w].transactionNext == 0 then None else Some(f[w].transactionNext - 1)
  }

  /** The positions of the queue the reader still delivers. */
  function Unacked(queue: seq<nat>, acked: set<nat>): (es: seq<nat>)
    ensures forall e | e in es :: e in queue
  {
    if queue == [] then []
    else
      var n := |queue| - 1;
      Unacked(queue[..n], acked) + (if n in acked then [] else [queue[n]])
  }

  /** The cursor the startup scan finds. */
  function ScannedCursor(f: seq<Cursor>, d: Durable): Option<Cursor>
    requires forall i | i in d.queue :: i < |f|
  {
    var es := Unacked(d.queue, d.synced);
    if es == [] then None else assert es[|es| - 1] in es; Some(f[es[|es| - 1]])
  }

  /** A watermark at boundary `k` may be published only over a contiguous prefix of persisted uploads. */
  predicate Contiguous(store: Store, k: nat) {
    forall j | 1 <= j <= k :: j in store.rows
  }

  function Max(a: nat, b: nat): nat {
    if a > b then a else b
  }

  function LandInStore(store: Store, i: nat, publish: bool): Store {
    Store(store.rows + {i}, if publish then Max(store.watermark, i) else store.watermark)
  }

  /** The positions of a valid queue hold uploads of the chain. */
  predicate QueueInRange(f: seq<Cursor>, queue: seq<nat>) {
    forall i | i in queue :: 1 <= i < |f|
  }

  /** Whatever is named by index is a boundary of the chain. */
  predicate Proper(f: seq<Cursor>, s: State) {
    && Frontiers(f) && QueueInRange(f, s.durable.queue) && s.store.watermark < |f|
    && (s.process.Some? && s.process.value.writers.Some? ==> KnowsBoundaries(f, s.process.value.writers.value))
    && (s.process.Some? && s.process.value.stateRead.Some? ==> s.process.value.stateRead.value < |f|)
  }

  /** The state after a step, or nothing if the step cannot happen. */
  function Do(f: seq<Cursor>, s: State, step: Step): Option<State>
    requires Proper(f, s)
  {
    var d, store := s.durable, s.store;
    if s.process.None? then
      match step
      case Start(maxActive) =>
        if maxActive == 0 then None
        else
          var cursor := P.RecoveredCursor(d.metadata, ScannedCursor(f, d));
          Some(s.(durable := d.(metadata := Some(cursor)),
                  process := Some(Process(cursor, None, d.synced, d.synced, 0, {}, {}, None, None, maxActive))))
      case Crash => Some(s)
      case Straggle(i, publish) => DoStraggle(s, i, publish)
      case LateFlush(k) => DoLateFlush(f, s, k)
      case _ => None
    else
      var p := s.process.value;
      match step
      case Crash =>
        Some(s.(process := None, stragglers := s.stragglers + (if p.writers.Some? then p.writers.value.inFlight else {})))
      case Straggle(i, publish) => DoStraggle(s, i, publish)
      case LateFlush(k) => DoLateFlush(f, s, k)
      case Enqueue(i) =>
        if p.persisting.None? && 1 <= i < |f| && p.cursor == f[i - 1]
        then Some(s.(durable := d.(queue := d.queue + [i]), process := Some(p.(persisting := Some(f[i])))))
        else None
      case PersistCursor =>
        if p.persisting.Some?
        then Some(s.(durable := d.(metadata := p.persisting),
                     process := Some(p.(cursor := p.persisting.value, persisting := None))))
        else None
      case Sync(positions) =>
        if d.synced <= positions <= p.acked then Some(s.(durable := d.(synced := positions))) else None
      case Ack(q) =>
        if q in p.done then Some(s.(process := Some(p.(acked := p.acked + {q}, done := p.done - {q})))) else None
      case ReadStateWatermark =>
        if p.writers.Some? || p.stateRead.Some? then None
        else Some(s.(process := Some(p.(stateRead := Some(store.watermark)))))
      case ReadTransactionWatermark =>
        if p.writers.Some? || p.stateRead.None? then None
        else Some(s.(process := Some(p.(stateRead := None, writers := Some(Connected(f, p.stateRead.value, store.watermark))))))
      case ConnectFails =>
        if p.stateRead.None? then None else Some(s.(process := Some(p.(stateRead := None))))
      case Read =>
        if p.readPos >= |d.queue| then None
        else if p.readPos in p.acked then Some(s.(process := Some(p.(readPos := p.readPos + 1))))
        else if p.writers.None? || |p.waiting| + |p.done| >= p.maxActive then None
        else DoRead(f, s, p, p.writers.value)
      case Start(_) => None
      case _ =>
        if p.writers.None? then None else DoWriters(f, s, p, p.writers.value, step)
  }

  /** The publisher that connects after reading the state watermark at boundary `a` and the transaction watermark at `b`. */
  function Connected(f: seq<Cursor>, a: nat, b: nat): Writers
    requires a < |f| && b < |f|
  {
    var next := Cursor(P.NextWriterLocation(StateWatermark(f, a)), P.NextWriterLocation(TransactionWatermark(f, b)));
    Writers(next, a, b, a, {}, {}, {}, {}, a, b)
  }

  function DoStraggle(s: State, i: nat, publish: bool): Option<State> {
    if i in s.stragglers && (publish ==> i >= 1 && Contiguous(s.store, i - 1))
    then Some(s.(store := LandInStore(s.store, i, publish), stragglers := s.stragglers - {i}))
    else None
  }

  /** A watermark batch whose sender is gone. */
  function DoLateFlush(f: seq<Cursor>, s: State, k: nat): Option<State> {
    if k < |f| && Contiguous(s.store, k) then Some(s.(store := s.store.(watermark := Max(s.store.watermark, k)))) else None
  }

  /** The consumer offers the next unacknowledged entry; a publisher that is out of sync is retried without effect. */
  function DoRead(f: seq<Cursor>, s: State, p: Process, w: Writers): Option<State>
    requires QueueInRange(f, s.durable.queue) && p.readPos < |s.durable.queue|
  {
    var i := s.durable.queue[p.readPos];
    assert i in s.durable.queue;
    match P.Admit(w.next, f[i - 1], f[i])
    case Completed =>
      Some(s.(process := Some(p.(readPos := p.readPos + 1, done := p.done + {p.readPos}))))
    case Reserved =>
      var w' := w.(next := f[i], reserved := i, inFlight := w.inFlight + {i});
      Some(s.(process := Some(p.(readPos := p.readPos + 1, waiting := p.waiting + {p.readPos}, writers := Some(w')))))
    case OutOfSync(_) => None
  }

  /** Steps of the commit worker. */
  function DoWriters(f: seq<Cursor>, s: State, p: Process, w: Writers, step: Step): Option<State>
    requires QueueInRange(f, s.durable.queue) && KnowsBoundaries(f, w)
  {
    match step
    case Land(i, publish) =>
      if i in w.inFlight && (publish ==> i >= 1 && Contiguous(s.store, i - 1))
      then
        var w' := w.(inFlight := w.inFlight - {i}, landed := w.landed + {i},
                     inline := if publish then w.inline + {i} else w.inline);
        Some(s.(store := LandInStore(s.store, i, publish), process := Some(p.(writers := Some(w')))))
      else None
    case Mark(i) =>
      if i in w.landed
      then
        var w' := w.(landed := w.landed - {i}, inline := w.inline - {i}, pending := w.pending + {i},
                     statePublished := if i in w.inline then Max(w.statePublished, i) else w.statePublished,
                     transactionsPublished := if i in w.inline then Max(w.transactionsPublished, i) else w.transactionsPublished);
        Some(s.(process := Some(p.(writers := Some(w')))))
      else None
    case Flush(k) =>
      if k < |f| && Contiguous(s.store, k)
      then
        var w' := w.(statePublished := Max(w.statePublished, k), transactionsPublished := Max(w.transactionsPublished, k));
        Some(s.(store := s.store.(watermark := Max(s.store.watermark, k)), process := Some(p.(writers := Some(w')))))
      else None
    case Complete(q) =>
      if q in p.waiting && q < |s.durable.queue| && CanComplete(f, w, s.durable.queue[q])
      then
        var w' := w.(pending := w.pending - {s.durable.queue[q]});
        Some(s.(process := Some(p.(waiting := p.waiting - {q}, done := p.done + {q}, writers := Some(w')))))
      else None
    case _ => None
  }

  predicate KnowsBoundaries(f: seq<Cursor>, w: Writers) {
    w.statePublished < |f| && w.transactionsPublished < |f|
  }

  /** Upload `i` is marked and both watermarks the writers know of have reached its last locations. */
  predicate CanComplete(f: seq<Cursor>, w: Writers, i: nat)
    requires KnowsBoundaries(f, w)
  {
    && i in w.pending && 1 <= i < |f|
    && f[i].stateNext > 0 && f[i].transactionNext > 0
    && P.Published(StateWatermark(f, w.statePublished), TransactionWatermark(f, w.transactionsPublished),
                   f[i].stateNext - 1, f[i].transactionNext - 1)
  }

  // ----- Invariant -----

  /** The last upload enqueued, or zero. */
  function Last(queue: seq<nat>): nat {
    if queue == [] then 0 else queue[|queue| - 1]
  }

  /** Uploads are enqueued in order from 1; a repeated upload follows itself directly. */
  predicate QueueOrdered(f: seq<Cursor>, queue: seq<nat>) {
    && QueueInRange(f, queue)
    && (queue != [] ==> queue[0] == 1)
    && forall p | 0 <= p < |queue| - 1 :: queue[p] <= queue[p + 1] <= queue[p] + 1
  }

  /** Earlier copies of a repeated upload are all in `acked`. */
  predicate CopiesAcked(queue: seq<nat>, acked: set<nat>) {
    forall p, q | 0 <= p < q < |queue| && queue[p] == queue[q] :: p in acked
  }

  /** These positions hold uploads up to `k`. */
  predicate UpTo(queue: seq<nat>, positions: set<nat>, k: nat) {
    forall p | p in positions :: p < |queue| && queue[p] <= k
  }

  predicate DurableInv(f: seq<Cursor>, s: State) {
    var d := s.durable;
    && Frontiers(f)
    && QueueOrdered(f, d.queue)
    && UpTo(d.queue, d.synced, s.store.watermark)
    && s.store.watermark <= Last(d.queue) < |f| && Contiguous(s.store, s.store.watermark)
    && (forall i | i in s.store.rows :: 1 <= i <= Last(d.queue))
    && (forall i | i in s.stragglers :: 1 <= i <= Last(d.queue))
  }

  /** The durable cursor is the frontier of the last or the last but one upload. */
  predicate CursorAt(f: seq<Cursor>, queue: seq<nat>, c: Cursor) {
    var last := Last(queue);
    last < |f| && (c == f[last] || (last > 0 && c == f[last - 1]))
  }

  predicate DownInv(f: seq<Cursor>, s: State) {
    && s.process.None?
    && CopiesAcked(s.durable.queue, s.durable.synced)
    && (s.durable.metadata.None? ==> Last(s.durable.queue) <= 1)
    && (s.durable.metadata.Some? ==> CursorAt(f, s.durable.queue, s.durable.metadata.value))
  }

  predicate ProducerInv(f: seq<Cursor>, s: State, p: Process) {
    var queue, last := s.durable.queue, Last(s.durable.queue);
    && s.durable.metadata == Some(p.cursor)
    && CursorAt(f, queue, p.cursor)
    && CopiesAcked(queue, p.recovered)
    && p.recovered <= s.durable.synced <= p.acked
    && (p.persisting.Some? ==> last > 0 && p.persisting.value == f[last] && p.cursor == f[last - 1])
    && (p.persisting.None? && last > 0 && p.cursor == f[last - 1] ==>
          forall q | 0 <= q < |queue| && queue[q] == last :: q in p.recovered)
  }

  /** Until the publisher is connected: a boundary it is certain to recover. */
  function Floor(s: State, p: Process): nat {
    if p.stateRead.Some? then p.stateRead.value else s.store.watermark
  }

  predicate ConsumerInv(s: State, p: Process) {
    var queue, w := s.durable.queue, s.store.watermark;
    && p.readPos <= |queue| && p.maxActive >= 1
    && UpTo(queue, p.acked, w) && UpTo(queue, p.done, w)
    && (forall q | q in p.done :: q < p.readPos)
    && (forall q | q in p.waiting :: q < p.readPos)
    && (forall q | 0 <= q < p.readPos :: q in p.acked || q in p.done || q in p.waiting)
    && (p.stateRead.Some? ==> p.writers.None? && p.stateRead.value <= w)
    && (p.writers.None? ==> p.waiting == {} && p.done == {} && UpTo(queue, p.acked, Floor(s, p)))
  }

  /** An entry not acknowledged beforehand asked for upload `i` in this session. */
  predicate AskedFor(queue: seq<nat>, readPos: nat, recovered: set<nat>, i: nat) {
    exists q | 0 <= q < |queue| :: q < readPos && queue[q] == i && q !in recovered
  }

  /** The two watermark reads of a connection saw different boundaries. */
  predicate TornWriters(w: Writers) {
    w.base != w.transactionBase
  }

  predicate WritersInv(f: seq<Cursor>, s: State, p: Process, w: Writers)
    requires ConsumerInv(s, p)
  {
    var queue := s.durable.queue;
    && w.base <= w.reserved <= Last(queue) < |f|
    && w.base <= w.transactionBase <= s.store.watermark < |f|
    && w.statePublished <= s.store.watermark && w.transactionsPublished <= s.store.watermark
    && (forall q | 0 <= q < p.readPos :: queue[q] <= w.reserved)
    && (forall q | q in p.acked && q >= p.readPos :: queue[q] <= w.base)
    && (forall i | w.base < i <= w.reserved :: AskedFor(queue, p.readPos, p.recovered, i))
    && (forall i | i in w.inline :: i <= s.store.watermark)
    && (forall i | i in w.inFlight :: 1 <= i <= w.reserved)
    && (if TornWriters(w) then TornInv(f, s, p, w) else w.next == f[w.reserved] && w.statePublished == w.transactionsPublished)
  }

  /** A torn publisher reserves nothing and completes only what both reads covered. */
  predicate TornInv(f: seq<Cursor>, s: State, p: Process, w: Writers)
    requires w.reserved < |f| && w.transactionBase < |f|
  {
    && w.reserved == w.base && w.next == Cursor(f[w.base].stateNext, f[w.transactionBase].transactionNext)
    && w.inFlight == {} && w.landed == {} && w.pending == {} && p.waiting == {}
    && UpTo(s.durable.queue, p.acked, w.base) && UpTo(s.durable.queue, p.done, w.base)
  }

  /** Every reserved upload is in flight or in the Store, and every waiting entry has its upload on the way. */
  predicate DrainInv(s: State, p: Process, w: Writers)
    requires ConsumerInv(s, p)
  {
    && (forall i | 1 <= i <= w.reserved :: i in w.inFlight || i in s.store.rows)
    && (forall i | i in w.landed :: 1 <= i <= w.reserved)
    && (forall i | i in w.pending :: 1 <= i <= w.reserved)
    && (forall q | q in p.waiting :: q !in p.recovered)
    && (forall q | q in p.waiting ::
          s.durable.queue[q] in w.inFlight || s.durable.queue[q] in w.landed || s.durable.queue[q] in w.pending)
  }

  predicate UpInv(f: seq<Cursor>, s: State) {
    && s.process.Some?
    && ProducerInv(f, s, s.process.value)
    && ConsumerInv(s, s.process.value)
    && (s.process.value.writers.Some? ==>
          && WritersInv(f, s, s.process.value, s.process.value.writers.value)
          && DrainInv(s, s.process.value, s.process.value.writers.value))
  }

  predicate Inv(f: seq<Cursor>, s: State) {
    DurableInv(f, s) && if s.process.None? then DownInv(f, s) else UpInv(f, s)
  }

  // ----- Every step keeps the invariant -----

  /** Frontiers are ordered in both components, so comparing them compares their indices. */
  lemma {:induction false} FrontierOrder(f: seq<Cursor>, i: nat, j: nat)
    requires Frontiers(f) && i < |f| && j < |f|
    ensures i <= j <==> f[i].stateNext <= f[j].stateNext
    ensures i <= j <==> f[i].transactionNext <= f[j].transactionNext
    ensures f[i] == f[j] <==> i == j
  {
    assert i < j ==> f[i].stateNext < f[j].stateNext;
    assert j < i ==> f[j].stateNext < f[i].stateNext;
  }

  /** An upload that is admitted is the next one; one that is skipped lies below the reserved boundary. */
  lemma {:induction false} AdmitByIndex(f: seq<Cursor>, reserved: nat, i: nat)
    requires Frontiers(f) && reserved < |f| && 1 <= i < |f|
    ensures P.Admit(f[reserved], f[i - 1], f[i]).Completed? <==> i <= reserved
    ensures P.Admit(f[reserved], f[i - 1], f[i]).Reserved? <==> i == reserved + 1
    ensures P.Admit(f[reserved], f[i - 1], f[i]).OutOfSync? <==> i > reserved + 1
    ensures i > reserved + 1 ==>
              P.Admit(f[reserved], f[i - 1], f[i]).error == WriterOutOfSync(f[reserved].stateNext, f[i - 1].stateNext)
  {
    FrontierOrder(f, i, reserved);
    FrontierOrder(f, i - 1, reserved);
  }

  /** Entries are enqueued in order, so a later entry never holds an earlier upload. */
  lemma {:induction false} QueueSorted(f: seq<Cursor>, queue: seq<nat>, p: nat, q: nat)
    requires QueueOrdered(f, queue) && p <= q < |queue|
    ensures queue[p] <= queue[q]
    decreases q - p
  {
    if p < q { QueueSorted(f, queue, p, q - 1); }
  }

  /** Every upload up to the last one has been enqueued. */
  lemma {:induction false} QueueCovers(f: seq<Cursor>, queue: seq<nat>, i: nat) returns (p: nat)
    requires QueueOrdered(f, queue) && 1 <= i <= Last(queue)
    ensures p < |queue| && queue[p] == i
  {
    p := |queue| - 1;
    while queue[p] != i
      invariant p < |queue| && i <= queue[p]
      decreases p
    {
      assert p > 0;
      p := p - 1;
    }
  }

  /** What the startup scan sees: the last entry that is not durably acknowledged. */
  lemma {:induction false} UnackedLast(queue: seq<nat>, acked: set<nat>) returns (p: nat)
    ensures Unacked(queue, acked) == [] ==> forall q | 0 <= q < |queue| :: q in acked
    ensures Unacked(queue, acked) != [] ==>
              && p < |queue| && p !in acked && queue[p] == Last(Unacked(queue, acked))
              && forall q | p < q < |queue| :: q in acked
  {
    p := 0;
    if queue != [] {
      var n := |queue| - 1;
      if n in acked {
        p := UnackedLast(queue[..n], acked);
      } else {
        p := n;
      }
    }
  }

  /**
   * The recovered cursor is the whole frontier of the last enqueued upload or of the one before it. It falls
   * back to the latter only if the last upload is durably acknowledged in every copy.
   */
  lemma {:induction false} RecoveredAt(f: seq<Cursor>, s: State)
    requires DurableInv(f, s) && DownInv(f, s)
    ensures var c, queue := P.RecoveredCursor(s.durable.metadata, ScannedCursor(f, s.durable)), s.durable.queue;
            && CursorAt(f, queue, c)
            && (Last(queue) > 0 && c == f[Last(queue) - 1] ==>
                  forall q | 0 <= q < |queue| && queue[q] == Last(queue) :: q in s.durable.synced)
  {
    var queue, synced, last := s.durable.queue, s.durable.synced, Last(s.durable.queue);
    var p := UnackedLast(queue, synced);
    if Unacked(queue, synced) != [] {
      QueueSorted(f, queue, p, |queue| - 1);
      assert queue[p] in queue && last in queue;
      FrontierOrder(f, queue[p], last);
      if last > 0 { FrontierOrder(f, queue[p], last - 1); }
      if queue[p] < last {
        forall q | 0 <= q < |queue| && queue[q] == last ensures q in synced {
          if q <= p { QueueSorted(f, queue, q, p); }
        }
      }
    }
    if last > 0 { FrontierOrder(f, last - 1, last); FrontierOrder(f, 0, last); FrontierOrder(f, 0, last - 1); }
  }

  lemma {:induction false} StartKeeps(f: seq<Cursor>, s: State, maxActive: nat, s': State)
    requires Inv(f, s) && s.process.None? && Do(f, s, Start(maxActive)) == Some(s')
    ensures Inv(f, s')
  {
    RecoveredAt(f, s);
  }

  lemma {:induction false} CrashKeeps(f: seq<Cursor>, s: State, s': State)
    requires Inv(f, s) && Do(f, s, Crash) == Some(s')
    ensures Inv(f, s')
  {
    if s.process.Some? {
      assert CopiesAcked(s'.durable.queue, s'.durable.synced);
      assert DownInv(f, s');
      assert DurableInv(f, s');
    }
  }

  /** The producer enqueues the upload after the last one, or the last one again if every copy is acknowledged. */
  lemma {:induction false} EnqueuesNext(f: seq<Cursor>, s: State, p: Process, i: nat)
    requires Inv(f, s) && s.process == Some(p) && p.persisting.None? && 1 <= i < |f| && p.cursor == f[i - 1]
    ensures Last(s.durable.queue) <= i <= Last(s.durable.queue) + 1
    ensures forall q | 0 <= q < |s.durable.queue| && s.durable.queue[q] == i :: q in p.recovered
  {
    var queue, last := s.durable.queue, Last(s.durable.queue);
    FrontierOrder(f, i - 1, last);
    if last > 0 { FrontierOrder(f, i - 1, last - 1); }
    forall q | 0 <= q < |queue| && queue[q] == i ensures q in p.recovered {
      QueueSorted(f, queue, q, |queue| - 1);
    }
  }

  lemma {:induction false} EnqueueDurable(f: seq<Cursor>, s: State, i: nat, s': State)
    requires DurableInv(f, s) && 1 <= i < |f| && Last(s.durable.queue) <= i <= Last(s.durable.queue) + 1
    requires s'.durable == s.durable.(queue := s.durable.queue + [i]) && s'.store == s.store && s'.stragglers == s.stragglers
    ensures DurableInv(f, s') && Last(s'.durable.queue) == i
  {
  }

  lemma {:induction false} EnqueueConsumer(f: seq<Cursor>, s: State, i: nat, p: Process, p': Process)
    requires 1 <= i < |f| && Last(s.durable.queue) <= i && ConsumerInv(s, p)
    requires p.writers.Some? ==> WritersInv(f, s, p, p.writers.value) && DrainInv(s, p, p.writers.value)
    requires p' == p.(persisting := Some(f[i]))
    ensures var s' := s.(durable := s.durable.(queue := s.durable.queue + [i]), process := Some(p'));
            && ConsumerInv(s', p')
            && (p.writers.Some? ==> WritersInv(f, s', p', p.writers.value) && DrainInv(s', p', p.writers.value))
  {
    var queue := s.durable.queue;
    assert forall q | 0 <= q < |queue| :: (queue + [i])[q] == queue[q];
    if p.writers.Some? {
      var w := p.writers.value;
      forall j | w.base < j <= w.reserved ensures AskedFor(queue + [i], p.readPos, p.recovered, j) {
        assert AskedFor(queue, p.readPos, p.recovered, j);
      }
    }
  }

  lemma {:induction false} EnqueueKeeps(f: seq<Cursor>, s: State, i: nat, s': State)
    requires Inv(f, s) && s.process.Some? && Do(f, s, Enqueue(i)) == Some(s')
    ensures Inv(f, s')
  {
    EnqueuesNext(f, s, s.process.value, i);
    EnqueueDurable(f, s, i, s');
    EnqueueConsumer(f, s, i, s.process.value, s'.process.value);
  }

  lemma {:induction false} PersistKeeps(f: seq<Cursor>, s: State, s': State)
    requires Inv(f, s) && s.process.Some? && Do(f, s, PersistCursor) == Some(s')
    ensures Inv(f, s')
  {
    var last := Last(s.durable.queue);
    FrontierOrder(f, last, last - 1);
  }

  lemma {:induction false} AckedKeeps(f: seq<Cursor>, s: State, p: Process, q: nat)
    requires Inv(f, s) && s.process == Some(p) && q in p.done
    ensures Inv(f, s.(process := Some(p.(acked := p.acked + {q}, done := p.done - {q}))))
  {
    var p' := p.(acked := p.acked + {q}, done := p.done - {q});
    var s' := s.(process := Some(p'));
    assert ProducerInv(f, s', p');
    assert ConsumerInv(s', p');
    if p'.writers.Some? {
      assert WritersInv(f, s', p', p'.writers.value);
      assert DrainInv(s', p', p'.writers.value);
    }
  }

  lemma {:induction false} AckKeeps(f: seq<Cursor>, s: State, q: nat, s': State)
    requires Inv(f, s) && s.process.Some? && Do(f, s, Ack(q)) == Some(s')
    ensures Inv(f, s')
  {
    AckedKeeps(f, s, s.process.value, q);
  }

  lemma {:induction false} SyncKeeps(f: seq<Cursor>, s: State, positions: set<nat>, s': State)
    requires Inv(f, s) && s.process.Some? && Do(f, s, Sync(positions)) == Some(s')
    ensures Inv(f, s')
  {
  }

  lemma {:induction false} StateReadKeeps(f: seq<Cursor>, s: State, s': State)
    requires Inv(f, s) && s.process.Some? && Do(f, s, ReadStateWatermark) == Some(s')
    ensures Inv(f, s')
  {
  }

  lemma {:induction false} ConnectFailsKeeps(f: seq<Cursor>, s: State, s': State)
    requires Inv(f, s) && s.process.Some? && Do(f, s, ConnectFails) == Some(s')
    ensures Inv(f, s')
  {
  }

  lemma {:induction false} ConnectedKeeps(f: seq<Cursor>, s: State, p: Process, p': Process, w: Writers)
    requires Inv(f, s) && s.process == Some(p) && p.writers.None? && p.stateRead.Some?
    requires w == Connected(f, p.stateRead.value, s.store.watermark) && p' == p.(stateRead := None, writers := Some(w))
    ensures Inv(f, s.(process := Some(p')))
  {
    var s' := s.(process := Some(p'));
    assert ProducerInv(f, s', p');
    assert ConsumerInv(s', p');
    assert WritersInv(f, s', p', w);
    assert DrainInv(s', p', w);
  }

  lemma {:induction false} ConnectKeeps(f: seq<Cursor>, s: State, s': State)
    requires Inv(f, s) && s.process.Some? && Do(f, s, ReadTransactionWatermark) == Some(s')
    ensures Inv(f, s')
  {
    ConnectedKeeps(f, s, s.process.value, s'.process.value, s'.process.value.writers.value);
  }

  /** Publishing more of the Store breaks nothing. */
  lemma {:induction false} StoreGrows(f: seq<Cursor>, s: State, s': State)
    requires Inv(f, s)
    requires s'.durable == s.durable && s'.process == s.process && s'.stragglers <= s.stragglers
    requires s.store.rows <= s'.store.rows && s.store.watermark <= s'.store.watermark <= Last(s.durable.queue)
    requires forall i | i in s'.store.rows :: 1 <= i <= Last(s.durable.queue)
    requires Contiguous(s'.store, s'.store.watermark)
    ensures Inv(f, s')
  {
  }

  /** An entry the reader delivers was not asked for earlier in the session. */
  lemma {:induction false} NotAskedBefore(queue: seq<nat>, recovered: set<nat>, readPos: nat)
    requires CopiesAcked(queue, recovered) && readPos < |queue|
    ensures !AskedFor(queue, readPos, recovered, queue[readPos])
  {
  }

  /** The next entry the reader delivers is covered by both reads, is the next upload, or meets a torn publisher. */
  lemma {:induction false} NextEntry(f: seq<Cursor>, s: State)
    requires Inv(f, s) && s.process.Some? && s.process.value.writers.Some?
    requires var p := s.process.value; p.readPos < |s.durable.queue| && p.readPos !in p.acked
    ensures var p := s.process.value; var i, w := s.durable.queue[p.readPos], p.writers.value;
            && i in s.durable.queue && 1 <= i < |f|
            && (i <= w.base <= s.store.watermark || i == w.reserved + 1)
  {
    var p, queue := s.process.value, s.durable.queue;
    var i, w := queue[p.readPos], p.writers.value;
    assert i in queue;
    NotAskedBefore(queue, p.recovered, p.readPos);
    if p.readPos > 0 {
      assert queue[p.readPos - 1] <= w.reserved;
    }
  }

  /** A torn publisher skips what lies below its state read and refuses everything else. */
  lemma {:induction false} AdmitTorn(f: seq<Cursor>, a: nat, b: nat, i: nat)
    requires Frontiers(f) && a < b < |f| && 1 <= i < |f|
    ensures var r := P.Admit(Cursor(f[a].stateNext, f[b].transactionNext), f[i - 1], f[i]);
            (r.Completed? <==> i <= a) && (r.OutOfSync? <==> i > a)
  {
    FrontierOrder(f, i, a);
    FrontierOrder(f, i, b);
    FrontierOrder(f, i - 1, a);
    FrontierOrder(f, i - 1, b);
  }

  /** What the publisher answers to the next entry, by index. */
  lemma {:induction false} NextAdmission(f: seq<Cursor>, s: State)
    requires Inv(f, s) && s.process.Some? && s.process.value.writers.Some?
    requires var p := s.process.value; p.readPos < |s.durable.queue| && p.readPos !in p.acked
    ensures var p := s.process.value; var i, w := s.durable.queue[p.readPos], p.writers.value;
            && i in s.durable.queue && 1 <= i < |f| && (i <= w.base || i == w.reserved + 1)
            && var r := P.Admit(w.next, f[i - 1], f[i]);
               && (r.Completed? <==> i <= w.base)
               && (r.Reserved? <==> i > w.base && !TornWriters(w))
               && (r.OutOfSync? <==> i > w.base && TornWriters(w))
  {
    var p := s.process.value;
    var i, w := s.durable.queue[p.readPos], p.writers.value;
    NextEntry(f, s);
    if TornWriters(w) {
      AdmitTorn(f, w.base, w.transactionBase, i);
    } else {
      AdmitByIndex(f, w.reserved, i);
    }
  }

  /** What was asked for stays asked for as the reader advances. */
  lemma {:induction false} AskedForAdvances(queue: seq<nat>, p: Process, w: Writers, next: nat)
    requires p.readPos <= next
    requires forall i | w.base < i <= w.reserved :: AskedFor(queue, p.readPos, p.recovered, i)
    ensures forall i | w.base < i <= w.reserved :: AskedFor(queue, next, p.recovered, i)
  {
    forall i | w.base < i <= w.reserved ensures AskedFor(queue, next, p.recovered, i) {
      assert AskedFor(queue, p.readPos, p.recovered, i);
    }
  }

  lemma {:induction false} PassedKeeps(f: seq<Cursor>, s: State, p: Process, p': Process)
    requires Inv(f, s) && s.process == Some(p) && p.readPos in p.acked && p' == p.(readPos := p.readPos + 1)
    ensures Inv(f, s.(process := Some(p')))
  {
    var s' := s.(process := Some(p'));
    assert ConsumerInv(s', p');
    if p.writers.Some? {
      var w := p.writers.value;
      AskedForAdvances(s.durable.queue, p, w, p'.readPos);
      assert s.durable.queue[p.readPos] <= w.base;
      assert WritersInv(f, s', p', w);
      assert DrainInv(s', p', w);
    }
  }

  lemma {:induction false} ReadAckedKeeps(f: seq<Cursor>, s: State, s': State)
    requires Inv(f, s) && s.process.Some? && s.process.value.readPos in s.process.value.acked
    requires Do(f, s, Read) == Some(s')
    ensures Inv(f, s')
  {
    PassedKeeps(f, s, s.process.value, s'.process.value);
  }

  /** The reader right after an entry at or below the recovered boundary is skipped. */
  predicate Skips(f: seq<Cursor>, s: State, p: Process, w: Writers, p': Process) {
    && Inv(f, s) && s.process == Some(p) && p.writers == Some(w)
    && p.readPos < |s.durable.queue| && s.durable.queue[p.readPos] <= w.base
    && p' == p.(readPos := p.readPos + 1, done := p.done + {p.readPos})
  }

  lemma {:induction false} SkipConsumer(f: seq<Cursor>, s: State, p: Process, w: Writers, p': Process)
    requires Skips(f, s, p, w, p')
    ensures ProducerInv(f, s.(process := Some(p')), p') && ConsumerInv(s.(process := Some(p')), p')
  {
  }

  lemma {:induction false} SkipWriters(f: seq<Cursor>, s: State, p: Process, w: Writers, p': Process)
    requires Skips(f, s, p, w, p') && ConsumerInv(s.(process := Some(p')), p')
    ensures WritersInv(f, s.(process := Some(p')), p', w) && DrainInv(s.(process := Some(p')), p', w)
  {
    AskedForAdvances(s.durable.queue, p, w, p'.readPos);
  }

  lemma {:induction false} SkipKeeps(f: seq<Cursor>, s: State, p: Process, w: Writers, p': Process)
    requires Skips(f, s, p, w, p')
    ensures Inv(f, s.(process := Some(p')))
  {
    SkipConsumer(f, s, p, w, p');
    SkipWriters(f, s, p, w, p');
  }

  /** The reader and the publisher right after upload `w.reserved + 1` is reserved. */
  predicate Reserves(f: seq<Cursor>, s: State, p: Process, w: Writers, p': Process, w': Writers) {
    && Inv(f, s) && s.process == Some(p) && p.writers == Some(w) && !TornWriters(w)
    && p.readPos < |s.durable.queue| && p.readPos !in p.acked && s.durable.queue[p.readPos] == w.reserved + 1 < |f|
    && w' == w.(next := f[w.reserved + 1], reserved := w.reserved + 1, inFlight := w.inFlight + {w.reserved + 1})
    && p' == p.(readPos := p.readPos + 1, waiting := p.waiting + {p.readPos}, writers := Some(w'))
  }

  lemma {:induction false} ReserveConsumer(f: seq<Cursor>, s: State, p: Process, w: Writers, p': Process, w': Writers)
    requires Reserves(f, s, p, w, p', w')
    ensures ProducerInv(f, s.(process := Some(p')), p') && ConsumerInv(s.(process := Some(p')), p')
  {
  }

  lemma {:induction false} ReserveWriters(f: seq<Cursor>, s: State, p: Process, w: Writers, p': Process, w': Writers)
    requires Reserves(f, s, p, w, p', w') && ConsumerInv(s.(process := Some(p')), p')
    ensures WritersInv(f, s.(process := Some(p')), p', w') && DrainInv(s.(process := Some(p')), p', w')
  {
    var queue := s.durable.queue;
    AskedForAdvances(queue, p, w, p'.readPos);
    QueueSorted(f, queue, p.readPos, |queue| - 1);
    assert !TornWriters(w');
    assert AskedFor(queue, p'.readPos, p.recovered, w'.reserved);
  }

  lemma {:induction false} ReserveKeeps(f: seq<Cursor>, s: State, p: Process, w: Writers, p': Process, w': Writers)
    requires Reserves(f, s, p, w, p', w')
    ensures Inv(f, s.(process := Some(p')))
  {
    ReserveConsumer(f, s, p, w, p', w');
    ReserveWriters(f, s, p, w, p', w');
  }

  /** What reading an unacknowledged entry does, by the publisher's answer. */
  lemma {:induction false} ReadOutcome(f: seq<Cursor>, s: State, p: Process, w: Writers, i: nat, s': State)
    requires Proper(f, s) && s.process == Some(p) && p.writers == Some(w) && p.readPos !in p.acked && Do(f, s, Read) == Some(s')
    requires p.readPos < |s.durable.queue| && i == s.durable.queue[p.readPos] && 1 <= i < |f|
    ensures match P.Admit(w.next, f[i - 1], f[i])
            case Completed => s' == s.(process := Some(p.(readPos := p.readPos + 1, done := p.done + {p.readPos})))
            case Reserved =>
              var w' := w.(next := f[i], reserved := i, inFlight := w.inFlight + {i});
              s' == s.(process := Some(p.(readPos := p.readPos + 1, waiting := p.waiting + {p.readPos}, writers := Some(w'))))
            case OutOfSync(_) => false
  {
  }

  lemma {:induction false} ReadEntryKeeps(f: seq<Cursor>, s: State, s': State)
    requires Inv(f, s) && s.process.Some? && s.process.value.readPos !in s.process.value.acked
    requires Do(f, s, Read) == Some(s')
    ensures Inv(f, s')
  {
    var p := s.process.value;
    var i, w := s.durable.queue[p.readPos], p.writers.value;
    NextAdmission(f, s);
    ReadOutcome(f, s, p, w, i, s');
    if i <= w.base {
      SkipKeeps(f, s, p, w, s'.process.value);
    } else {
      ReserveKeeps(f, s, p, w, s'.process.value, s'.process.value.writers.value);
    }
  }

  lemma {:induction false} StraggleKeeps(f: seq<Cursor>, s: State, i: nat, publish: bool, s': State)
    requires Inv(f, s) && Do(f, s, Straggle(i, publish)) == Some(s')
    ensures Inv(f, s')
  {
    StoreGrows(f, s, s');
  }

  lemma {:induction false} LateFlushKeeps(f: seq<Cursor>, s: State, k: nat, s': State)
    requires Inv(f, s) && Do(f, s, LateFlush(k)) == Some(s')
    ensures Inv(f, s')
  {
    assert k >= 1 ==> k in s.store.rows;
    StoreGrows(f, s, s');
  }

  lemma {:induction false} FlushedKeeps(f: seq<Cursor>, s: State, p: Process, w: Writers, k: nat)
    requires Inv(f, s) && s.process == Some(p) && p.writers == Some(w) && k <= s.store.watermark
    ensures var w' := w.(statePublished := Max(w.statePublished, k), transactionsPublished := Max(w.transactionsPublished, k));
            Inv(f, s.(process := Some(p.(writers := Some(w')))))
  {
  }

  lemma {:induction false} FlushKeeps(f: seq<Cursor>, s: State, k: nat, s': State)
    requires Inv(f, s) && s.process.Some? && Do(f, s, Flush(k)) == Some(s')
    ensures Inv(f, s')
  {
    assert k >= 1 ==> k in s.store.rows;
    var p, stored := s.process.value, s.(store := s'.store);
    StoreGrows(f, s, stored);
    FlushedKeeps(f, stored, p, p.writers.value, k);
  }

  lemma {:induction false} LandedKeeps(f: seq<Cursor>, s: State, p: Process, w: Writers, w': Writers, i: nat)
    requires Inv(f, s) && s.process == Some(p) && p.writers == Some(w) && i in s.store.rows && i in w.inFlight
    requires w' == w.(inFlight := w.inFlight - {i}, landed := w.landed + {i}, inline := w'.inline)
    requires w'.inline == w.inline || (w'.inline == w.inline + {i} && i <= s.store.watermark)
    ensures Inv(f, s.(process := Some(p.(writers := Some(w')))))
  {
  }

  lemma {:induction false} LandKeeps(f: seq<Cursor>, s: State, i: nat, publish: bool, s': State)
    requires Inv(f, s) && s.process.Some? && Do(f, s, Land(i, publish)) == Some(s')
    ensures Inv(f, s')
  {
    var p := s.process.value;
    var stored := s.(store := s'.store);
    StoreGrows(f, s, stored);
    LandedKeeps(f, stored, p, p.writers.value, s'.process.value.writers.value, i);
  }

  lemma {:induction false} MarkedKeeps(f: seq<Cursor>, s: State, p: Process, w: Writers, w': Writers, i: nat)
    requires Inv(f, s) && s.process == Some(p) && p.writers == Some(w) && i in w.landed
    requires w' == w.(landed := w.landed - {i}, inline := w.inline - {i}, pending := w.pending + {i},
                      statePublished := w'.statePublished, transactionsPublished := w'.transactionsPublished)
    requires if i in w.inline
             then w'.statePublished == Max(w.statePublished, i) && w'.transactionsPublished == Max(w.transactionsPublished, i)
             else w'.statePublished == w.statePublished && w'.transactionsPublished == w.transactionsPublished
    ensures Inv(f, s.(process := Some(p.(writers := Some(w')))))
  {
    var p' := p.(writers := Some(w'));
    var s' := s.(process := Some(p'));
    assert ProducerInv(f, s', p') && ConsumerInv(s', p');
    assert WritersInv(f, s', p', w');
    assert DrainInv(s', p', w');
  }

  lemma {:induction false} MarkKeeps(f: seq<Cursor>, s: State, i: nat, s': State)
    requires Inv(f, s) && s.process.Some? && Do(f, s, Mark(i)) == Some(s')
    ensures Inv(f, s')
  {
    var p := s.process.value;
    MarkedKeeps(f, s, p, p.writers.value, s'.process.value.writers.value, i);
  }

  lemma {:induction false} CompletedKeeps(f: seq<Cursor>, s: State, p: Process, w: Writers, q: nat)
    requires Inv(f, s) && s.process == Some(p) && p.writers == Some(w)
    requires q in p.waiting && s.durable.queue[q] <= s.store.watermark
    ensures var w' := w.(pending := w.pending - {s.durable.queue[q]});
            Inv(f, s.(process := Some(p.(waiting := p.waiting - {q}, done := p.done + {q}, writers := Some(w')))))
  {
    forall r | r in p.waiting && r != q ensures s.durable.queue[r] != s.durable.queue[q] {
      assert CopiesAcked(s.durable.queue, p.recovered);
    }
  }

  lemma {:induction false} CompleteKeeps(f: seq<Cursor>, s: State, q: nat, s': State)
    requires Inv(f, s) && s.process.Some? && Do(f, s, Complete(q)) == Some(s')
    ensures Inv(f, s')
  {
    var p, w := s.process.value, s.process.value.writers.value;
    FrontierOrder(f, s.durable.queue[q], w.statePublished);
    CompletedKeeps(f, s, p, w, q);
  }

  lemma {:induction false} StepKeepsInv(f: seq<Cursor>, s: State, step: Step, s': State)
    requires Inv(f, s) && Do(f, s, step) == Some(s')
    ensures Inv(f, s')
  {
    match step
    case Start(maxActive) => StartKeeps(f, s, maxActive, s');
    case Crash => CrashKeeps(f, s, s');
    case Enqueue(i) => EnqueueKeeps(f, s, i, s');
    case PersistCursor => PersistKeeps(f, s, s');
    case ReadStateWatermark => StateReadKeeps(f, s, s');
    case ReadTransactionWatermark => ConnectKeeps(f, s, s');
    case ConnectFails => ConnectFailsKeeps(f, s, s');
    case Read => if s.process.value.readPos in s.process.value.acked { ReadAckedKeeps(f, s, s'); } else { ReadEntryKeeps(f, s, s'); }
    case Land(i, publish) => LandKeeps(f, s, i, publish, s');
    case Straggle(i, publish) => StraggleKeeps(f, s, i, publish, s');
    case Mark(i) => MarkKeeps(f, s, i, s');
    case Flush(k) => FlushKeeps(f, s, k, s');
    case LateFlush(k) => LateFlushKeeps(f, s, k, s');
    case Complete(q) => CompleteKeeps(f, s, q, s');
    case Ack(q) => AckKeeps(f, s, q, s');
    case Sync(positions) => SyncKeeps(f, s, positions, s');
  }

  // ----- Runs -----

  /** The state after these steps from `s`, if they can happen in this order. Every state on the way keeps the invariant. */
  function RunFrom(f: seq<Cursor>, s: State, steps: seq<Step>): (r: Option<State>)
    requires Inv(f, s)
    ensures r.Some? ==> Inv(f, r.value)
    decreases |steps|
  {
    if steps == [] then Some(s)
    else
      var next := Do(f, s, steps[0]);
      if next.None? then None
      else
        StepKeepsInv(f, s, steps[0], next.value);
        RunFrom(f, next.value, steps[1..])
  }

  /** A state some run of the pipeline ends in, whatever the crashes and the order of commits on the way. */
  ghost predicate Reachable(f: seq<Cursor>, s: State) {
    Frontiers(f) && exists steps :: RunFrom(f, INIT, steps) == Some(s)
  }

  function Acked(s: State): set<nat> {
    if s.process.Some? then s.process.value.acked else s.durable.synced
  }

  /** Upload `i` and everything before it is in the Store, and both published watermarks cover it. */
  predicate Visible(f: seq<Cursor>, store: Store, i: nat) {
    && 1 <= i < |f| && store.watermark < |f|
    && f[i].stateNext > 0 && f[i].transactionNext > 0
    && (forall j | 1 <= j <= i :: j in store.rows)
    && P.Published(StateWatermark(f, store.watermark), TransactionWatermark(f, store.watermark),
                   f[i].stateNext - 1, f[i].transactionNext - 1)
  }

  lemma {:induction false} VisibleBelowWatermark(f: seq<Cursor>, s: State, i: nat)
    requires DurableInv(f, s) && 1 <= i <= s.store.watermark
    ensures Visible(f, s.store, i)
  {
    FrontierOrder(f, i, s.store.watermark);
    FrontierOrder(f, 0, i);
  }

  /** An acknowledged entry is durably visible in the Store, and so is every upload before it. */
  lemma {:induction false} AckedIsVisible(f: seq<Cursor>, s: State, p: nat)
    requires Reachable(f, s) && p in Acked(s)
    ensures p < |s.durable.queue| && Visible(f, s.store, s.durable.queue[p])
  {
    assert s.durable.queue[p] in s.durable.queue;
    VisibleBelowWatermark(f, s, s.durable.queue[p]);
  }

  /** No enqueued upload is ever lost: it is visible, or an entry that the reader still delivers holds it. */
  lemma {:induction false} NothingLost(f: seq<Cursor>, s: State, i: nat) returns (p: nat)
    requires Reachable(f, s) && 1 <= i <= Last(s.durable.queue)
    ensures Visible(f, s.store, i) || (p < |s.durable.queue| && s.durable.queue[p] == i && p !in Acked(s))
  {
    p := QueueCovers(f, s.durable.queue, i);
    if p in Acked(s) { AckedIsVisible(f, s, p); }
  }

  /**
   * What the publisher answers to the next entry. An entry it skips is visible already; one it reserves starts exactly
   * where the publisher stands, the first of them right after the Store's watermarks. It refuses an entry exactly if
   * the two watermark reads of the connection saw different boundaries and the state read does not cover the entry.
   */
  lemma {:induction false} OutOfSyncIffTorn(f: seq<Cursor>, s: State)
    requires Reachable(f, s) && s.process.Some? && s.process.value.writers.Some?
    requires var p := s.process.value; p.readPos < |s.durable.queue| && p.readPos !in p.acked
    ensures var p := s.process.value; var i, w := s.durable.queue[p.readPos], p.writers.value;
            && 1 <= i < |f|
            && var r := P.Admit(w.next, f[i - 1], f[i]);
               && (r.Completed? <==> i <= w.base) && (r.Completed? ==> Visible(f, s.store, i))
               && (r.Reserved? <==> i > w.base && !TornWriters(w)) && (r.Reserved? ==> w.next == f[i - 1])
               && (r.OutOfSync? <==> i > w.base && TornWriters(w))
  {
    var p := s.process.value;
    var i, w := s.durable.queue[p.readPos], p.writers.value;
    NextAdmission(f, s);
    if i <= w.base { VisibleBelowWatermark(f, s, i); }
  }

  /**
   * What a restart recovers: the later of the two frontiers, whichever of disk and queue holds it. A disk with only one
   * half counts for nothing.
   */
  lemma {:induction false} RecoversLater(f: seq<Cursor>, i: nat, j: nat, half: nat)
    requires Frontiers(f) && i < |f| && j < |f|
    ensures var disk := P.CursorFromParts(Some(f[j].stateNext), Some(f[j].transactionNext));
            && P.RecoveredCursor(disk, Some(f[i])) == f[Max(i, j)]
            && P.RecoveredCursor(disk, None) == f[j]
    ensures P.RecoveredCursor(P.CursorFromParts(Some(half), None), Some(f[i])) == f[i]
    ensures P.RecoveredCursor(P.CursorFromParts(None, Some(half)), Some(f[i])) == f[i]
    ensures P.RecoveredCursor(P.CursorFromParts(None, None), Some(f[i])) == f[i]
    ensures P.RecoveredCursor(P.CursorFromParts(None, None), None) == f[0]
  {
    FrontierOrder(f, i, j);
    FrontierOrder(f, 0, i);
    FrontierOrder(f, 0, j);
  }

  /** Both components of one cursor are at least those of the other. */
  predicate CursorLeq(a: Cursor, b: Cursor) {
    a.stateNext <= b.stateNext && a.transactionNext <= b.transactionNext
  }

  /**
   * After any crash the recovered cursor is the frontier of one upload, never a mix of two. It is at or past both
   * durable sources, at or past everything still to be read, never past the last upload enqueued, and never so far
   * back that more than the last upload would be enqueued again.
   */
  lemma {:induction false} RecoveredCursorIsFrontier(f: seq<Cursor>, s: State) returns (k: nat)
    requires Reachable(f, s) && s.process.None?
    ensures var d := s.durable; var c := P.RecoveredCursor(d.metadata, ScannedCursor(f, d));
            && k < |f| && c == f[k] && Last(d.queue) - 1 <= k <= Last(d.queue)
            && (d.metadata.Some? ==> CursorLeq(d.metadata.value, c))
            && (ScannedCursor(f, d).Some? ==> CursorLeq(ScannedCursor(f, d).value, c))
            && (forall p | 0 <= p < |d.queue| && p !in d.synced :: d.queue[p] <= k)
            && (k < Last(d.queue) ==> Visible(f, s.store, Last(d.queue)))
  {
    var d := s.durable;
    var queue, last := d.queue, Last(d.queue);
    RecoveredAt(f, s);
    k := if P.RecoveredCursor(d.metadata, ScannedCursor(f, d)) == f[last] then last else last - 1;
    forall p | 0 <= p < |queue| ensures queue[p] <= last { QueueSorted(f, queue, p, |queue| - 1); }
    var p := UnackedLast(queue, d.synced);
    if Unacked(queue, d.synced) != [] { FrontierOrder(f, queue[p], k); }
    if last > 0 {
      assert queue[|queue| - 1] in queue;
      FrontierOrder(f, last - 1, last);
      if k < last {
        assert |queue| - 1 in d.synced;
        VisibleBelowWatermark(f, s, last);
      }
    }
  }

  // ----- Progress -----

  /** With nothing in flight, one watermark flush makes every persisted upload completable, as the committer's shutdown asserts. */
  lemma {:induction false} FlushDrains(f: seq<Cursor>, s: State, w: Writers, i: nat)
    requires Inv(f, s) && s.process.Some? && s.process.value.writers == Some(w)
    requires w.inFlight == {} && i in w.pending
    ensures var s' := Do(f, s, Flush(w.reserved));
            && s'.Some? && s'.value.process.Some? && s'.value.process.value.writers.Some?
            && KnowsBoundaries(f, s'.value.process.value.writers.value)
            && CanComplete(f, s'.value.process.value.writers.value, i)
  {
    FrontierOrder(f, i, Max(w.statePublished, w.reserved));
    FrontierOrder(f, i, Max(w.transactionsPublished, w.reserved));
    FrontierOrder(f, 0, i);
  }

  /** An upload whose batch carried watermarks is completable as soon as it is marked, without a flush. */
  lemma {:induction false} InlineCompletes(f: seq<Cursor>, s: State, w: Writers, i: nat)
    requires Inv(f, s) && s.process.Some? && s.process.value.writers == Some(w) && i in w.landed && i in w.inline
    ensures var s' := Do(f, s, Mark(i));
            && s'.Some? && s'.value.process.Some? && s'.value.process.value.writers.Some?
            && KnowsBoundaries(f, s'.value.process.value.writers.value)
            && CanComplete(f, s'.value.process.value.writers.value, i)
  {
    FrontierOrder(f, i, Max(w.statePublished, i));
    FrontierOrder(f, i, Max(w.transactionsPublished, i));
    FrontierOrder(f, 0, i);
  }

  /** Every entry of the queue is acknowledged. */
  predicate Settled(s: State) {
    s.process.Some? && forall q | 0 <= q < |s.durable.queue| :: q in s.process.value.acked
  }

  /** A publisher is connected whose two watermark reads saw different boundaries. */
  predicate Torn(s: State) {
    s.process.Some? && s.process.value.writers.Some? && TornWriters(s.process.value.writers.value)
  }

  /** What is left to do, most significant part first. */
  datatype Work = Work(connecting: nat, unread: nat, inFlight: nat, landed: nat, unpublished: nat, waiting: nat, unacked: nat)

  function WorkLeft(f: seq<Cursor>, s: State): Work
    requires UpInv(f, s)
  {
    var p := s.process.value;
    if p.writers.None? then
      var connecting := if p.stateRead.None? then 2 else if p.stateRead.value == s.store.watermark then 1 else 3;
      Work(connecting, |s.durable.queue| - p.readPos, 0, 0, 0, |p.waiting|, |p.done|)
    else
      var w := p.writers.value;
      Work(0, |s.durable.queue| - p.readPos, |w.inFlight|, |w.landed|,
           if w.statePublished < w.reserved then w.reserved - w.statePublished else 0, |p.waiting|, |p.done|)
  }

  /** Lexicographic order. */
  predicate Less(a: Work, b: Work) {
    a.connecting < b.connecting || (a.connecting == b.connecting &&
    (a.unread < b.unread || (a.unread == b.unread &&
    (a.inFlight < b.inFlight || (a.inFlight == b.inFlight &&
    (a.landed < b.landed || (a.landed == b.landed &&
    (a.unpublished < b.unpublished || (a.unpublished == b.unpublished &&
    (a.waiting < b.waiting || (a.waiting == b.waiting && a.unacked < b.unacked)))))))))))
  }

  /** The consumer has nothing underway. */
  predicate Drained(p: Process) {
    p.waiting == {} && p.done == {}
  }

  /**
   * The step can be taken from here, keeps the process, its queue and its reads whole, and leaves less to do. An entry is
   * read only when nothing is underway, so within any bound on active entries.
   */
  predicate Advances(f: seq<Cursor>, s: State, step: Step)
    requires Inv(f, s) && s.process.Some?
  {
    var next := Do(f, s, step);
    && next.Some? && next.value.process.Some? && next.value.durable == s.durable && step != Crash
    && (step == Read ==> Drained(s.process.value))
    && Inv(f, next.value) && !Torn(next.value) && Less(WorkLeft(f, next.value), WorkLeft(f, s))
  }

  /** A connection whose state read has been overtaken is given up and begun again. */
  lemma {:induction false} ConnectAdvances(f: seq<Cursor>, s: State) returns (step: Step)
    requires Inv(f, s) && s.process.Some? && s.process.value.writers.None?
    ensures Advances(f, s, step)
  {
    var p := s.process.value;
    if p.stateRead.None? {
      step := ReadStateWatermark;
      StateReadKeeps(f, s, Do(f, s, step).value);
    } else if p.stateRead.value == s.store.watermark {
      step := ReadTransactionWatermark;
      ConnectKeeps(f, s, Do(f, s, step).value);
    } else {
      step := ConnectFails;
      ConnectFailsKeeps(f, s, Do(f, s, step).value);
    }
  }

  lemma {:induction false} ReadAdvances(f: seq<Cursor>, s: State, p: Process)
    requires Inv(f, s) && s.process == Some(p) && p.writers.Some? && !Torn(s) && p.readPos < |s.durable.queue| && Drained(p)
    ensures Advances(f, s, Read)
  {
    if p.readPos !in p.acked { NextAdmission(f, s); }
    StepKeepsInv(f, s, Read, Do(f, s, Read).value);
  }

  lemma {:induction false} Least(xs: set<nat>) returns (x: nat)
    requires xs != {}
    ensures x in xs && forall y | y in xs :: x <= y
  {
    var one :| one in xs;
    x := one;
    var others := xs - {one};
    assert forall y | y in xs :: y == one || y in others;
    if others != {} {
      var rest := Least(others);
      if rest < one { x := rest; }
    }
  }

  /** The oldest batch in flight can land, with its watermarks or without. */
  lemma {:induction false} LandAdvances(f: seq<Cursor>, s: State, p: Process, w: Writers, i: nat, publish: bool)
    requires Inv(f, s) && s.process == Some(p) && p.writers == Some(w) && !TornWriters(w)
    requires i in w.inFlight && forall j | j in w.inFlight :: i <= j
    ensures Advances(f, s, Land(i, publish))
  {
    assert Contiguous(s.store, i - 1);
    LandKeeps(f, s, i, publish, Do(f, s, Land(i, publish)).value);
  }

  lemma {:induction false} MarkAdvances(f: seq<Cursor>, s: State, p: Process, w: Writers, i: nat)
    requires Inv(f, s) && s.process == Some(p) && p.writers == Some(w) && !TornWriters(w) && i in w.landed
    ensures Advances(f, s, Mark(i))
  {
    MarkKeeps(f, s, i, Do(f, s, Mark(i)).value);
  }

  lemma {:induction false} FlushAdvances(f: seq<Cursor>, s: State, p: Process, w: Writers)
    requires Inv(f, s) && s.process == Some(p) && p.writers == Some(w) && !TornWriters(w)
    requires w.inFlight == {} && w.statePublished < w.reserved
    ensures Advances(f, s, Flush(w.reserved))
  {
    FlushKeeps(f, s, w.reserved, Do(f, s, Flush(w.reserved)).value);
  }

  lemma {:induction false} CompleteAdvances(f: seq<Cursor>, s: State, p: Process, w: Writers, q: nat)
    requires Inv(f, s) && s.process == Some(p) && p.writers == Some(w) && !TornWriters(w) && q in p.waiting
    requires w.inFlight == {} && w.landed == {} && w.reserved <= w.statePublished
    ensures Advances(f, s, Complete(q))
  {
    var i := s.durable.queue[q];
    assert i in s.durable.queue;
    FrontierOrder(f, i, w.statePublished);
    FrontierOrder(f, 0, i);
    CompleteKeeps(f, s, q, Do(f, s, Complete(q)).value);
  }

  lemma {:induction false} AckAdvances(f: seq<Cursor>, s: State, p: Process, q: nat)
    requires Inv(f, s) && s.process == Some(p) && !Torn(s) && q in p.done
    ensures Advances(f, s, Ack(q))
  {
    AckKeeps(f, s, q, Do(f, s, Ack(q)).value);
  }

  /**
   * While an entry is unacknowledged and the reads are whole, some step of the running pipeline makes progress, whichever
   * batches carry watermarks.
   */
  lemma {:induction false} Progress(f: seq<Cursor>, s: State, inline: nat -> bool) returns (step: Step)
    requires Inv(f, s) && s.process.Some? && !Torn(s) && !Settled(s)
    ensures Advances(f, s, step) && (step.Land? ==> step.publish == inline(step.upload))
  {
    var p := s.process.value;
    if p.writers.None? {
      step := ConnectAdvances(f, s);
      return;
    }
    var w := p.writers.value;
    if w.inFlight != {} {
      var i := Least(w.inFlight);
      LandAdvances(f, s, p, w, i, inline(i));
      step := Land(i, inline(i));
    } else if i :| i in w.landed {
      MarkAdvances(f, s, p, w, i);
      step := Mark(i);
    } else if w.statePublished < w.reserved {
      FlushAdvances(f, s, p, w);
      step := Flush(w.reserved);
    } else if q :| q in p.waiting {
      CompleteAdvances(f, s, p, w, q);
      step := Complete(q);
    } else if q :| q in p.done {
      AckAdvances(f, s, p, q);
      step := Ack(q);
    } else {
      ReadAdvances(f, s, p);
      step := Read;
    }
  }

  /** Batches land with watermarks exactly as told. */
  predicate LandsAsTold(steps: seq<Step>, inline: nat -> bool) {
    forall step | step in steps && step.Land? :: step.publish == inline(step.upload)
  }

  lemma {:induction false} Prepend(f: seq<Cursor>, s: State, step: Step, next: State, rest: seq<Step>)
    requires Inv(f, s) && Do(f, s, step) == Some(next) && Inv(f, next)
    ensures RunFrom(f, s, [step] + rest) == RunFrom(f, next, rest)
  {
    assert ([step] + rest)[1..] == rest;
  }

  /** The acknowledgements are on disk. */
  predicate Durably(s: State) {
    Settled(s) && s.durable.synced == s.process.value.acked
  }

  lemma {:induction false} SyncAll(f: seq<Cursor>, s: State) returns (end: State)
    requires Inv(f, s) && Settled(s)
    ensures RunFrom(f, s, [Sync(s.process.value.acked)]) == Some(end) && Inv(f, end) && Durably(end)
    ensures end.durable.queue == s.durable.queue && end.store == s.store
  {
    var positions := s.process.value.acked;
    end := Do(f, s, Sync(positions)).value;
    SyncKeeps(f, s, positions, end);
    Prepend(f, s, Sync(positions), end, []);
    assert [Sync(positions)] + [] == [Sync(positions)];
  }

  lemma {:induction false} Settle(f: seq<Cursor>, s: State, inline: nat -> bool) returns (steps: seq<Step>, end: State)
    requires Inv(f, s) && s.process.Some? && !Torn(s)
    ensures RunFrom(f, s, steps) == Some(end) && Durably(end) && end.durable.queue == s.durable.queue
    ensures Crash !in steps && LandsAsTold(steps, inline)
    decreases WorkLeft(f, s).connecting, WorkLeft(f, s).unread, WorkLeft(f, s).inFlight, WorkLeft(f, s).landed,
              WorkLeft(f, s).unpublished, WorkLeft(f, s).waiting, WorkLeft(f, s).unacked
  {
    if Settled(s) {
      end := SyncAll(f, s);
      return [Sync(s.process.value.acked)], end;
    }
    var step := Progress(f, s, inline);
    var next := Do(f, s, step).value;
    var rest;
    rest, end := Settle(f, next, inline);
    Prepend(f, s, step, next, rest);
    steps := [step] + rest;
  }

  lemma {:induction false} StartAndSettle(f: seq<Cursor>, s: State, maxActive: nat, inline: nat -> bool)
      returns (steps: seq<Step>, end: State)
    requires Inv(f, s) && s.process.None? && maxActive >= 1
    ensures RunFrom(f, s, steps) == Some(end) && Durably(end) && end.durable.queue == s.durable.queue
    ensures Crash !in steps && LandsAsTold(steps, inline)
  {
    var up := Do(f, s, Start(maxActive)).value;
    StepKeepsInv(f, s, Start(maxActive), up);
    var rest;
    rest, end := Settle(f, up, inline);
    Prepend(f, s, Start(maxActive), up, rest);
    steps := [Start(maxActive)] + rest;
  }

  lemma {:induction false} SettledIsVisible(f: seq<Cursor>, s: State, p: nat)
    requires Inv(f, s) && Settled(s) && p < |s.durable.queue|
    ensures Visible(f, s.store, s.durable.queue[p])
  {
    assert s.durable.queue[p] in s.durable.queue;
    VisibleBelowWatermark(f, s, s.durable.queue[p]);
  }

  lemma {:induction false} RestartAndSettle(f: seq<Cursor>, s: State, maxActive: nat, inline: nat -> bool)
      returns (steps: seq<Step>, end: State)
    requires Inv(f, s) && s.process.Some? && maxActive >= 1
    ensures RunFrom(f, s, steps) == Some(end) && Durably(end) && end.durable.queue == s.durable.queue
    ensures LandsAsTold(steps, inline)
  {
    var down := Do(f, s, Crash).value;
    CrashKeeps(f, s, down);
    var rest;
    rest, end := StartAndSettle(f, down, maxActive, inline);
    Prepend(f, s, Crash, down, rest);
    steps := [Crash] + rest;
  }

  /**
   * No reachable state is a dead end: from each of them the pipeline can go on, without further enqueues, to a state in
   * which every upload enqueued so far is acknowledged, on disk too, and visible. It can do so within its own bound on active entries
   * and the one of a restarted process, whichever batches carry watermarks, and restarts only if its publisher is torn.
   */
  lemma {:induction false} EverythingCanBePublished(f: seq<Cursor>, s: State, maxActive: nat, inline: nat -> bool)
      returns (steps: seq<Step>, end: State)
    requires Reachable(f, s) && maxActive >= 1
    ensures RunFrom(f, s, steps) == Some(end) && Durably(end) && end.durable.queue == s.durable.queue
    ensures (Crash in steps ==> Torn(s)) && LandsAsTold(steps, inline)
    ensures forall p | 0 <= p < |s.durable.queue| :: Visible(f, end.store, s.durable.queue[p])
  {
    if s.process.None? {
      steps, end := StartAndSettle(f, s, maxActive, inline);
    } else if Torn(s) {
      steps, end := RestartAndSettle(f, s, maxActive, inline);
    } else {
      steps, end := Settle(f, s, inline);
    }
    forall p | 0 <= p < |s.durable.queue| ensures Visible(f, end.store, s.durable.queue[p]) {
      SettledIsVisible(f, end, p);
    }
  }

  // ----- The whole chain -----

  /** How many producer steps remain before the next upload can be enqueued. */
  function Behind(f: seq<Cursor>, s: State): nat
    requires UpInv(f, s) && Last(s.durable.queue) < |f|
  {
    var p := s.process.value;
    if p.persisting.Some? then 1 else if p.cursor == f[Last(s.durable.queue)] then 0 else 2
  }

  /** The producer takes its next step: it persists what it enqueued, or enqueues the block after its cursor. */
  lemma {:induction false} ProducerAdvances(f: seq<Cursor>, s: State) returns (step: Step, next: State)
    requires Inv(f, s) && s.process.Some? && Last(s.durable.queue) + 1 < |f|
    ensures step != Crash && !step.Land? && Do(f, s, step) == Some(next) && Inv(f, next) && next.process.Some?
    ensures Torn(next) <==> Torn(s)
    ensures Last(next.durable.queue) < |f|
    ensures Last(next.durable.queue) > Last(s.durable.queue)
         || (Last(next.durable.queue) == Last(s.durable.queue) && Behind(f, next) < Behind(f, s))
  {
    var p, last := s.process.value, Last(s.durable.queue);
    if last > 0 { FrontierOrder(f, last - 1, last); }
    step := if p.persisting.Some? then PersistCursor else if p.cursor == f[last] then Enqueue(last + 1) else Enqueue(last);
    next := Do(f, s, step).value;
    StepKeepsInv(f, s, step, next);
  }

  /** From a running process whose publisher is whole, uploads up to `n` can be enqueued and everything published. */
  lemma {:induction false} PublishUpTo(f: seq<Cursor>, s: State, n: nat, inline: nat -> bool) returns (steps: seq<Step>, end: State)
    requires Inv(f, s) && s.process.Some? && !Torn(s) && n < |f|
    ensures RunFrom(f, s, steps) == Some(end) && Durably(end) && Last(end.durable.queue) >= n
    ensures Crash !in steps && LandsAsTold(steps, inline)
    decreases n - Last(s.durable.queue), Behind(f, s)
  {
    if Last(s.durable.queue) >= n {
      steps, end := Settle(f, s, inline);
    } else {
      var step, next := ProducerAdvances(f, s);
      var rest;
      rest, end := PublishUpTo(f, next, n, inline);
      Prepend(f, s, step, next, rest);
      steps := [step] + rest;
    }
  }

  lemma {:induction false} StartAndPublish(f: seq<Cursor>, s: State, n: nat, maxActive: nat, inline: nat -> bool)
      returns (steps: seq<Step>, end: State)
    requires Inv(f, s) && s.process.None? && maxActive >= 1 && n < |f|
    ensures RunFrom(f, s, steps) == Some(end) && Durably(end) && Last(end.durable.queue) >= n
    ensures Crash !in steps && LandsAsTold(steps, inline)
  {
    var up := Do(f, s, Start(maxActive)).value;
    StepKeepsInv(f, s, Start(maxActive), up);
    var rest;
    rest, end := PublishUpTo(f, up, n, inline);
    Prepend(f, s, Start(maxActive), up, rest);
    steps := [Start(maxActive)] + rest;
  }

  /**
   * From every reachable state the whole chain can still be published: every upload enqueued, acknowledged on disk and
   * visible in the Store, with a restart only if the publisher is torn.
   */
  lemma {:induction false} WholeChainCanBePublished(f: seq<Cursor>, s: State, maxActive: nat, inline: nat -> bool)
      returns (steps: seq<Step>, end: State)
    requires Reachable(f, s) && maxActive >= 1
    ensures RunFrom(f, s, steps) == Some(end) && Durably(end) && Last(end.durable.queue) == |f| - 1
    ensures (Crash in steps ==> Torn(s)) && LandsAsTold(steps, inline)
    ensures forall i | 1 <= i < |f| :: Visible(f, end.store, i)
  {
    if s.process.None? {
      steps, end := StartAndPublish(f, s, |f| - 1, maxActive, inline);
    } else if Torn(s) {
      var down := Do(f, s, Crash).value;
      CrashKeeps(f, s, down);
      var rest;
      rest, end := StartAndPublish(f, down, |f| - 1, maxActive, inline);
      Prepend(f, s, Crash, down, rest);
      steps := [Crash] + rest;
    } else {
      steps, end := PublishUpTo(f, s, |f| - 1, inline);
    }
    forall i | 1 <= i < |f| ensures Visible(f, end.store, i) {
      var p := QueueCovers(f, end.durable.queue, i);
      SettledIsVisible(f, end, p);
    }
  }

  // ----- Torn sessions -----

  /** The publisher stays connected with the same two reads. */
  predicate SameBases(s: State, s': State) {
    && s.process.Some? && s.process.value.writers.Some? && s'.process.Some? && s'.process.value.writers.Some?
    && var w, w' := s.process.value.writers.value, s'.process.value.writers.value;
       w'.base == w.base && w'.transactionBase == w.transactionBase
  }

  lemma {:induction false} WorkerKeepsBases(f: seq<Cursor>, s: State, step: Step, s': State)
    requires Proper(f, s) && s.process.Some? && s.process.value.writers.Some? && Do(f, s, step) == Some(s')
    requires step.Land? || step.Mark? || step.Flush? || step.Complete?
    ensures SameBases(s, s')
  {
  }

  /** Without a crash, a connected publisher stays the one it is. */
  lemma {:induction false} StepKeepsBases(f: seq<Cursor>, s: State, step: Step, s': State)
    requires Proper(f, s) && s.process.Some? && s.process.value.writers.Some?
    requires step != Crash && Do(f, s, step) == Some(s')
    ensures SameBases(s, s')
  {
    if step.Land? || step.Mark? || step.Flush? || step.Complete? { WorkerKeepsBases(f, s, step, s'); }
  }

  lemma {:induction false} SessionKeepsTorn(f: seq<Cursor>, s: State, steps: seq<Step>, end: State)
    requires Inv(f, s) && s.process.Some? && s.process.value.writers.Some?
    requires Crash !in steps && RunFrom(f, s, steps) == Some(end)
    ensures end.process.Some? && end.process.value.writers.Some? && (Torn(end) <==> Torn(s))
    decreases |steps|
  {
    if steps != [] {
      assert steps[0] in steps;
      var next := Do(f, s, steps[0]).value;
      StepKeepsInv(f, s, steps[0], next);
      StepKeepsBases(f, s, steps[0], next);
      SessionKeepsTorn(f, next, steps[1..], end);
    }
  }

  /** A torn publisher has an entry ahead that it will never acknowledge: the upload after its state read. */
  lemma {:induction false} TornEntry(f: seq<Cursor>, s: State) returns (q: nat)
    requires Inv(f, s) && Torn(s)
    ensures var p := s.process.value;
            p.readPos <= q < |s.durable.queue| && s.durable.queue[q] == p.writers.value.base + 1 && q !in p.acked
  {
    q := QueueCovers(f, s.durable.queue, s.process.value.writers.value.base + 1);
  }

  /** The publisher refuses the entry the reader delivers next, and is asked again forever. */
  predicate Refuses(f: seq<Cursor>, s: State) {
    && s.process.Some? && s.process.value.writers.Some?
    && var p := s.process.value;
       && p.readPos < |s.durable.queue| && p.readPos !in p.acked && |p.waiting| + |p.done| < p.maxActive
       && var i := s.durable.queue[p.readPos];
          1 <= i < |f| && P.Admit(p.writers.value.next, f[i - 1], f[i]).OutOfSync?
  }

  /** The session is still up after the step, with the same queue and a torn publisher. */
  predicate StaysTorn(f: seq<Cursor>, s: State, step: Step, next: State) {
    step != Crash && Proper(f, s) && Do(f, s, step) == Some(next) && Inv(f, next) && Torn(next) && next.durable == s.durable
  }

  lemma {:induction false} TornAcks(f: seq<Cursor>, s: State, d: nat) returns (next: State)
    requires Inv(f, s) && Torn(s) && d in s.process.value.done
    ensures StaysTorn(f, s, Ack(d), next)
    ensures next.process.value.readPos == s.process.value.readPos && |next.process.value.done| < |s.process.value.done|
  {
    next := Do(f, s, Ack(d)).value;
    AckKeeps(f, s, d, next);
  }

  lemma {:induction false} TornReads(f: seq<Cursor>, s: State) returns (next: State)
    requires Inv(f, s) && Torn(s) && !Refuses(f, s) && s.process.value.done == {}
    ensures StaysTorn(f, s, Read, next)
    ensures s.process.value.readPos < next.process.value.readPos <= |s.durable.queue|
  {
    var q := TornEntry(f, s);
    var p := s.process.value;
    if p.readPos !in p.acked { NextAdmission(f, s); }
    next := Do(f, s, Read).value;
    StepKeepsInv(f, s, Read, next);
    StepKeepsBases(f, s, Read, next);
  }

  /** A torn session, acknowledging what is done before it reads on, comes to an entry it refuses. */
  lemma {:induction false} TornReadsToRefusal(f: seq<Cursor>, s: State) returns (steps: seq<Step>, end: State)
    requires Inv(f, s) && Torn(s)
    ensures Crash !in steps && RunFrom(f, s, steps) == Some(end) && Refuses(f, end)
    decreases |s.durable.queue| - s.process.value.readPos, |s.process.value.done|
  {
    if Refuses(f, s) {
      return [], s;
    }
    var step, next;
    if d :| d in s.process.value.done {
      step := Ack(d);
      next := TornAcks(f, s, d);
    } else {
      step := Read;
      next := TornReads(f, s);
    }
    var rest;
    rest, end := TornReadsToRefusal(f, next);
    Prepend(f, s, step, next, rest);
    steps := [step] + rest;
  }

  /** Over every reachable state with a connected publisher: its session comes to a refused entry exactly if its reads differ. */
  lemma {:induction false} SessionRefusesIffTorn(f: seq<Cursor>, s: State)
    requires Reachable(f, s) && s.process.Some? && s.process.value.writers.Some?
    ensures Torn(s) <==> exists steps, end :: Crash !in steps && RunFrom(f, s, steps) == Some(end) && Refuses(f, end)
  {
    if Torn(s) {
      var steps, end := TornReadsToRefusal(f, s);
    }
    forall steps, end | Crash !in steps && RunFrom(f, s, steps) == Some(end) && Refuses(f, end) ensures Torn(s) {
      SessionKeepsTorn(f, s, steps, end);
      NextAdmission(f, end);
    }
  }

  /** Over every reachable state of a running process: it can finish without a restart exactly if its publisher is not torn. */
  lemma {:induction false} SettlesWithoutRestartIffWhole(f: seq<Cursor>, s: State)
    requires Reachable(f, s) && s.process.Some?
    ensures !Torn(s) <==> exists steps, end :: Crash !in steps && RunFrom(f, s, steps) == Some(end) && Settled(end)
  {
    if !Torn(s) {
      var steps, end := Settle(f, s, _ => false);
    } else {
      forall steps, end | Crash !in steps && RunFrom(f, s, steps) == Some(end) ensures !Settled(end) {
        SessionKeepsTorn(f, s, steps, end);
        var q := TornEntry(f, end);
      }
    }
  }
}
