/** The publisher's reservation of log ranges, its completion signals, and the producer's cursor. */
module Publisher {
  import opened Wrappers
  import opened Ledger
  import opened History
  import opened Uploads

  // ----- The upload cursor -----

  function CursorFromParts(stateNext: Option<nat>, transactionNext: Option<nat>): Option<Cursor> {
    match (stateNext, transactionNext)
    case (Some(s), Some(t)) => Some(Cursor(s, t))
    case _ => None
  }

  /** The later frontier as a whole pair; the halves are never mixed. */
  function CursorMax(a: Cursor, b: Cursor): Cursor {
    if b.stateNext > a.stateNext || (b.stateNext == a.stateNext && b.transactionNext > a.transactionNext) then b else a
  }

  function RecoveredCursor(metadata: Option<Cursor>, queue: Option<Cursor>): Cursor {
    CursorMax(if metadata.Some? then metadata.value else Cursor(0, 0),
              if queue.Some? then queue.value else Cursor(0, 0))
  }

  /** `scan_finalized_queue_cursor`: the end of the last entry still readable. */
  method ScanFinalizedQueueCursor(entries: seq<Cursor>) returns (cursor: Option<Cursor>)
    ensures cursor == if entries == [] then None else Some(entries[|entries| - 1])
  {
    cursor := None;
    for i := 0 to |entries|
      invariant cursor == if i == 0 then None else Some(entries[i - 1])
    {
      cursor := Some(entries[i]);
    }
  }

  // ----- The producer -----

  class FinalizedUploadProducer {
    var cursor: Cursor
    /** The two halves of the cursor on disk, and the durable queue. */
    var stateKey: Option<nat>
    var transactionKey: Option<nat>
    var queue: seq<QueuedUpload>

    /** The disk holds the cursor, each half under its own key. */
    predicate Persisted()
      reads this
    {
      stateKey == Some(cursor.stateNext) && transactionKey == Some(cursor.transactionNext)
    }

    /** Starts from the two halves on disk and the queue; `unacknowledged` are the ends of the entries still readable. */
    constructor (stateNext: Option<nat>, transactionNext: Option<nat>, queue: seq<QueuedUpload>, unacknowledged: seq<Cursor>)
      ensures cursor == RecoveredCursor(CursorFromParts(stateNext, transactionNext),
                                        if unacknowledged == [] then None else Some(unacknowledged[|unacknowledged| - 1]))
      ensures Persisted() && this.queue == queue
    {
      var scanned := ScanFinalizedQueueCursor(unacknowledged);
      var recovered := RecoveredCursor(CursorFromParts(stateNext, transactionNext), scanned);
      cursor := recovered;
      stateKey := Some(recovered.stateNext);
      transactionKey := Some(recovered.transactionNext);
      this.queue := queue;
    }

    /** `enqueue`, one attempt: the entry is durable before the cursor moves, and a block that does not fit changes nothing. */
    method Enqueue(block: Block, stateLog: seq<StateOp<Account>>, now: int) returns (r: Result<nat, PublishError>)
      requires HoldsBatch(cursor.transactionNext, block) && block.header.stateEnd <= |stateLog|
      modifies this
      ensures match BuildQueuedUpload(old(cursor), block, stateLog, now)
              case Err(e) => && r == Err(e) && cursor == old(cursor) && queue == old(queue)
                             && stateKey == old(stateKey) && transactionKey == old(transactionKey)
              case Ok(u) => && Queued(u) && r == Ok(|old(queue)|) && queue == old(queue) + [u]
                            && cursor == UploadEnd(u) && Persisted()
    {
      var built := BuildQueuedUpload(cursor, block, stateLog, now);
      if built.Err? {
        return Err(built.error);
      }
      var next := UploadEnd(built.value);
      var position := |queue|;
      queue := queue + [built.value];
      stateKey := Some(next.stateNext);
      transactionKey := Some(next.transactionNext);
      cursor := next;
      return Ok(position);
    }
  }

  /** A process restarted on the disk of another continues where it stood, if no readable entry is past it. */
  method Restarted(p: FinalizedUploadProducer, unacknowledged: seq<Cursor>) returns (q: FinalizedUploadProducer)
    requires p.Persisted()
    requires forall c | c in unacknowledged :: c.stateNext < p.cursor.stateNext || c == p.cursor
    ensures q.cursor == p.cursor && q.Persisted() && q.queue == p.queue
  {
    q := new FinalizedUploadProducer(p.stateKey, p.transactionKey, p.queue, unacknowledged);
    if unacknowledged != [] { assert unacknowledged[|unacknowledged| - 1] in unacknowledged; }
  }

  /** A producer that enqueues and is restarted holds the end of that upload. */
  method RestartedAfterEnqueue(p: FinalizedUploadProducer, block: Block, stateLog: seq<StateOp<Account>>, now: int)
      returns (q: FinalizedUploadProducer)
    requires HoldsBatch(p.cursor.transactionNext, block) && block.header.stateEnd <= |stateLog|
    requires p.Persisted()
    modifies p
    ensures match BuildQueuedUpload(old(p.cursor), block, stateLog, now)
            case Err(_) => q.cursor == old(p.cursor) && q.queue == old(p.queue)
            case Ok(u) => Queued(u) && q.cursor == UploadEnd(u) && q.queue == old(p.queue) + [u]
  {
    var r := p.Enqueue(block, stateLog, now);
    q := Restarted(p, [p.cursor]);
  }

  // ----- Reservation -----

  datatype Admission = Completed | Reserved | OutOfSync(error: PublishError)

  /** What the publisher answers to an upload spanning `start..end` when it stands at `next`. */
  function Admit(next: Cursor, start: Cursor, end: Cursor): Admission {
    if next.stateNext >= end.stateNext && next.transactionNext >= end.transactionNext then Completed
    else if next.stateNext != start.stateNext then OutOfSync(WriterOutOfSync(next.stateNext, start.stateNext))
    else if next.transactionNext != start.transactionNext then
      OutOfSync(WriterOutOfSync(next.transactionNext, start.transactionNext))
    else Reserved
  }

  function UploadStart(u: QueuedUpload): Cursor {
    Cursor(u.stateStart, u.transactionStart)
  }

  function UploadEnd(u: QueuedUpload): Cursor
    requires Queued(u)
  {
    Cursor(u.StateEnd(), TransactionUploadEnd(u.transactionStart, u.block).value)
  }

  function NextWriterLocation(watermark: Option<nat>): nat {
    if watermark.Some? then watermark.value + 1 else 0
  }

  class Publisher {
    var stateNextLocation: nat
    var transactionNextLocation: nat
    /** Uploads handed to the preparer, oldest first. */
    var sent: seq<QueuedUpload>

    /** Starts right after the watermarks found in the Store. */
    constructor (stateWatermark: Option<nat>, transactionWatermark: Option<nat>)
      ensures Next() == Cursor(NextWriterLocation(stateWatermark), NextWriterLocation(transactionWatermark))
      ensures sent == []
    {
      stateNextLocation := NextWriterLocation(stateWatermark);
      transactionNextLocation := NextWriterLocation(transactionWatermark);
      sent := [];
    }

    function Next(): Cursor
      reads this
    {
      Cursor(stateNextLocation, transactionNextLocation)
    }

    /** `enqueue_queued_finalized`: `Ok(true)` is an upload completed on the spot, `Ok(false)` one that was reserved and sent. */
    method EnqueueQueuedFinalized(u: QueuedUpload) returns (r: Result<bool, PublishError>)
      requires Queued(u)
      modifies this
      ensures match Admit(old(Next()), UploadStart(u), UploadEnd(u))
              case Completed => r == Ok(true) && Next() == old(Next()) && sent == old(sent)
              case Reserved => r == Ok(false) && Next() == UploadEnd(u) && sent == old(sent) + [u]
              case OutOfSync(e) => r == Err(e) && Next() == old(Next()) && sent == old(sent)
    {
      var stateEnd := u.StateEnd();
      var transactionEnd := TransactionUploadEnd(u.transactionStart, u.block).value;
      if stateNextLocation >= stateEnd && transactionNextLocation >= transactionEnd {
        return Ok(true);
      }
      if stateNextLocation != u.stateStart {
        return Err(WriterOutOfSync(stateNextLocation, u.stateStart));
      }
      if transactionNextLocation != u.transactionStart {
        return Err(WriterOutOfSync(transactionNextLocation, u.transactionStart));
      }
      sent := sent + [u];
      stateNextLocation := stateEnd;
      transactionNextLocation := transactionEnd;
      return Ok(false);
    }
  }

  // ----- Completion -----

  /** An upload whose rows are persisted and whose completion waits for both watermarks. */
  datatype PendingCompletion = PendingCompletion(stateLatest: nat, transactionLatest: nat, upload: nat)

  /** Both watermarks have reached the upload's last locations. */
  predicate Published(state: Option<nat>, transactions: Option<nat>, stateLatest: nat, transactionLatest: nat) {
    state.Some? && state.value >= stateLatest && transactions.Some? && transactions.value >= transactionLatest
  }

  predicate Ready(state: Option<nat>, transactions: Option<nat>, c: PendingCompletion) {
    Published(state, transactions, c.stateLatest, c.transactionLatest)
  }

  /** The completions that are ready, or those that are not, in order. */
  function Select(state: Option<nat>, transactions: Option<nat>, pending: seq<PendingCompletion>, ready: bool): seq<PendingCompletion> {
    if pending == [] then []
    else
      var n := |pending| - 1;
      Select(state, transactions, pending[..n], ready)
      + (if Ready(state, transactions, pending[n]) == ready then [pending[n]] else [])
  }

  lemma {:induction false} SelectSnoc(state: Option<nat>, transactions: Option<nat>, pending: seq<PendingCompletion>,
                                      c: PendingCompletion, ready: bool)
    ensures Select(state, transactions, pending + [c], ready)
         == Select(state, transactions, pending, ready) + (if Ready(state, transactions, c) == ready then [c] else [])
  {
    assert (pending + [c])[..|pending|] == pending;
  }

  lemma {:induction false} SelectKeepsAll(state: Option<nat>, transactions: Option<nat>, pending: seq<PendingCompletion>)
    ensures multiset(Select(state, transactions, pending, true)) + multiset(Select(state, transactions, pending, false))
         == multiset(pending)
  {
    if pending != [] {
      var n := |pending| - 1;
      assert pending == pending[..n] + [pending[n]];
      SelectKeepsAll(state, transactions, pending[..n]);
    }
  }

  lemma {:induction false} SelectByReadiness(
      state: Option<nat>, transactions: Option<nat>, pending: seq<PendingCompletion>, ready: bool, c: PendingCompletion)
    requires c in Select(state, transactions, pending, ready)
    ensures Ready(state, transactions, c) == ready
  {
    var n := |pending| - 1;
    if c in Select(state, transactions, pending[..n], ready) { SelectByReadiness(state, transactions, pending[..n], ready, c); }
  }

  /** Nothing is lost or invented, and an upload is signalled exactly if both watermarks have reached it. */
  lemma {:induction false} SelectExact(state: Option<nat>, transactions: Option<nat>, pending: seq<PendingCompletion>)
    ensures multiset(Select(state, transactions, pending, true)) + multiset(Select(state, transactions, pending, false))
         == multiset(pending)
    ensures forall c | c in Select(state, transactions, pending, true) ::
              && state.Some? && c.stateLatest <= state.value
              && transactions.Some? && c.transactionLatest <= transactions.value
    ensures forall c | c in Select(state, transactions, pending, false) ::
              || state.None? || state.value < c.stateLatest
              || transactions.None? || transactions.value < c.transactionLatest
  {
    SelectKeepsAll(state, transactions, pending);
    forall c | c in Select(state, transactions, pending, true) { SelectByReadiness(state, transactions, pending, true, c); }
    forall c | c in Select(state, transactions, pending, false) { SelectByReadiness(state, transactions, pending, false, c); }
  }

  /** `complete_published_uploads`: signals every ready upload and keeps the others in order. */
  method CompletePublishedUploads(state: Option<nat>, transactions: Option<nat>, pending: seq<PendingCompletion>)
      returns (retained: seq<PendingCompletion>, signalled: seq<PendingCompletion>)
    ensures signalled == Select(state, transactions, pending, true)
    ensures retained == Select(state, transactions, pending, false)
  {
    retained, signalled := [], [];
    var queue := pending;
    ghost var popped: seq<PendingCompletion> := [];
    while queue != []
      invariant pending == popped + queue
      invariant signalled == Select(state, transactions, popped, true)
      invariant retained == Select(state, transactions, popped, false)
      decreases |queue|
    {
      var upload := queue[0];
      SelectSnoc(state, transactions, popped, upload, true);
      SelectSnoc(state, transactions, popped, upload, false);
      popped := popped + [upload];
      queue := queue[1..];
      if Ready(state, transactions, upload) {
        signalled := signalled + [upload];
      } else {
        retained := retained + [upload];
      }
    }
    assert popped == pending;
  }
}
