/** What an enqueue that reports an error although its entry was appended does to acknowledgements. */
module AmbiguousEnqueue {
  import opened Wrappers
  import opened Uploads
  import opened Pipeline
  import opened Runs
  import P = Publisher

  /** Some run ends here; failed enqueues append only if they may. */
  ghost predicate Reaches(f: seq<Cursor>, mayAppend: bool, s: State) {
    Frontiers(f) && exists es: seq<Event> :: RunEvents(f, INIT, es) == Some(s) && (mayAppend || forall e | e in es :: e.Regular?)
  }

  ghost predicate AcksAreVisible(f: seq<Cursor>, mayAppend: bool) {
    forall s, p | Reaches(f, mayAppend, s) && p in Acked(s) ::
      p < |s.durable.queue| && Visible(f, s.store, s.durable.queue[p])
  }

  /** The failed enqueue of upload 1 is retried; both copies are read, and the second is acknowledged. */
  const EVENTS := [Regular(Start(2)), AppendedWithError(1), Regular(Enqueue(1)), Regular(ReadStateWatermark),
                   Regular(ReadTransactionWatermark), Regular(Read), Regular(Read), Regular(Ack(1))]

  function States(f: seq<Cursor>): seq<State>
    requires |f| >= 2
  {
    var store := Store({}, 0);
    var idle := Process(f[0], None, {}, {}, 0, {}, {}, None, None, 2);
    var busy := idle.(persisting := Some(f[1]));
    var reserved := Some(Connected(f, 0, 0).(next := f[1], reserved := 1, inFlight := {1}));
    var d := Durable([1, 1], {}, Some(f[0]));
    [INIT,
     State(Durable([], {}, Some(f[0])), store, {}, Some(idle)),
     State(Durable([1], {}, Some(f[0])), store, {}, Some(idle)),
     State(d, store, {}, Some(busy)),
     State(d, store, {}, Some(busy.(stateRead := Some(0)))),
     State(d, store, {}, Some(busy.(writers := Some(Connected(f, 0, 0))))),
     State(d, store, {}, Some(busy.(readPos := 1, waiting := {0}, writers := reserved))),
     State(d, store, {}, Some(busy.(readPos := 2, waiting := {0}, done := {1}, writers := reserved))),
     State(d, store, {}, Some(busy.(acked := {1}, readPos := 2, waiting := {0}, writers := reserved)))]
  }

  lemma {:induction false} QueuesTwice(f: seq<Cursor>, k: nat)
    requires Frontiers(f) && |f| >= 2 && k < 5
    ensures Brings(f, States(f), EVENTS, k)
  {
    var nothing: seq<nat> := [];
    assert nothing + [1] == [1] && [1] + [1] == [1, 1];
    if k == 0 {
    } else if k == 1 {
    } else if k == 2 {
    } else if k == 3 {
    } else {
    }
  }

  lemma {:induction false} AcksSecond(f: seq<Cursor>, k: nat)
    requires Frontiers(f) && |f| >= 2 && 5 <= k < 8
    ensures Brings(f, States(f), EVENTS, k)
  {
    var none: set<nat> := {};
    assert none + {0} == {0} && none + {1} == {1} && {1} - {1} == none;
    if k == 5 {
      AdmitByIndex(f, 0, 1);
    } else if k == 6 {
      AdmitByIndex(f, 1, 1);
    } else {
    }
  }

  /** The second copy of upload 1 is skipped as reserved already, and acknowledged with nothing in the Store. */
  lemma {:induction false} EarlyAck(f: seq<Cursor>) returns (end: State)
    requires Frontiers(f) && |f| >= 2
    ensures RunEvents(f, INIT, EVENTS) == Some(end)
    ensures end.durable.queue == [1, 1] && Acked(end) == {1} && end.store == Store({}, 0)
  {
    forall k | 0 <= k < |EVENTS| ensures Brings(f, States(f), EVENTS, k) {
      if k < 5 { QueuesTwice(f, k); } else { AcksSecond(f, k); }
    }
    RunOfStates(f, States(f), EVENTS);
    end := States(f)[8];
  }

  /** Acknowledged entries are visible in every run exactly if a failed enqueue leaves the queue as it was. */
  lemma {:induction false} AcksAreVisibleIff(f: seq<Cursor>, mayAppend: bool)
    requires Frontiers(f) && |f| >= 2
    ensures AcksAreVisible(f, mayAppend) <==> !mayAppend
  {
    if mayAppend {
      var end := EarlyAck(f);
      assert Reaches(f, true, end) && 1 in Acked(end);
      assert !Visible(f, end.store, end.durable.queue[1]);
    } else {
      forall s, p | Reaches(f, false, s) && p in Acked(s)
        ensures p < |s.durable.queue| && Visible(f, s.store, s.durable.queue[p])
      {
        var es: seq<Event> :| RunEvents(f, INIT, es) == Some(s) && forall e | e in es :: e.Regular?;
        var steps := RegularRun(f, INIT, es, s);
        AckedIsVisible(f, s, p);
      }
    }
  }

  // ----- Which runs acknowledge early -----

  /** The positions acknowledged, durably or not, or completed and about to be. */
  function Handled(s: State): set<nat> {
    s.durable.synced + (if s.process.Some? then s.process.value.acked + s.process.value.done else {})
  }

  ghost predicate HandledVisible(f: seq<Cursor>, s: State) {
    forall p | p in Handled(s) :: p < |s.durable.queue| && Visible(f, s.store, s.durable.queue[p])
  }

  /** The event is the reading of an entry that is reserved in this session but not published. */
  predicate SkipsEarly(s: State, e: Event) {
    && e == Regular(Read) && s.process.Some? && s.process.value.writers.Some?
    && var p, w := s.process.value, s.process.value.writers.value;
       && p.readPos < |s.durable.queue| && p.readPos !in p.acked && |p.waiting| + |p.done| < p.maxActive
       && s.store.watermark < s.durable.queue[p.readPos] <= w.reserved
  }

  /** The writers know of nothing the Store does not hold, and stand at a boundary or between two. */
  predicate WritersLoose(f: seq<Cursor>, store: Store, w: Writers) {
    && store.watermark < |f| && w.reserved < |f|
    && w.base <= w.transactionBase <= store.watermark
    && w.statePublished <= store.watermark && w.transactionsPublished <= store.watermark
    && (forall i | i in w.inline :: i <= store.watermark)
    && (forall i | i in w.inFlight :: 1 <= i < |f|)
    && (TornWriters(w) ==> w.reserved == w.base)
    && w.next == Cursor(f[w.reserved].stateNext, f[if TornWriters(w) then w.transactionBase else w.reserved].transactionNext)
  }

  /** What every run keeps, whatever its failed enqueues append. */
  predicate Loose(f: seq<Cursor>, s: State) {
    && Proper(f, s) && Contiguous(s.store, s.store.watermark)
    && (forall i | i in s.stragglers :: 1 <= i < |f|)
    && (forall p | p in Handled(s) :: p < |s.durable.queue|)
    && (s.process.Some? ==>
          && (s.process.value.stateRead.Some? ==> s.process.value.stateRead.value <= s.store.watermark)
          && (s.process.value.writers.Some? ==> WritersLoose(f, s.store, s.process.value.writers.value)))
  }

  /** All handled entries hold uploads up to the watermark. */
  predicate HandledBelow(s: State) {
    forall p | p in Handled(s) :: p < |s.durable.queue| ==> s.durable.queue[p] <= s.store.watermark
  }

  lemma {:induction false} VisibleIff(f: seq<Cursor>, s: State, i: nat)
    requires Loose(f, s) && 1 <= i < |f|
    ensures Visible(f, s.store, i) <==> i <= s.store.watermark
  {
    FrontierOrder(f, i, s.store.watermark);
    FrontierOrder(f, 0, i);
  }

  lemma {:induction false} HandledVisibleIff(f: seq<Cursor>, s: State)
    requires Loose(f, s)
    ensures HandledVisible(f, s) <==> HandledBelow(s)
  {
    forall p | p in Handled(s) ensures Visible(f, s.store, s.durable.queue[p]) <==> s.durable.queue[p] <= s.store.watermark {
      assert s.durable.queue[p] in s.durable.queue;
      VisibleIff(f, s, s.durable.queue[p]);
    }
  }

  /** The publisher skips an entry exactly if it is at or below what it reserved. */
  lemma {:induction false} SkipsByIndex(f: seq<Cursor>, store: Store, w: Writers, i: nat)
    requires Frontiers(f) && WritersLoose(f, store, w) && 1 <= i < |f|
    ensures P.Admit(w.next, f[i - 1], f[i]).Completed? <==> i <= w.reserved
    ensures P.Admit(w.next, f[i - 1], f[i]).Reserved? ==> !TornWriters(w)
  {
    if TornWriters(w) { AdmitTorn(f, w.base, w.transactionBase, i); } else { AdmitByIndex(f, w.reserved, i); }
  }

  lemma {:induction false} ReadAckedLoose(f: seq<Cursor>, s: State, s': State)
    requires Loose(f, s) && s.process.Some? && s.process.value.readPos in s.process.value.acked && Do(f, s, Read) == Some(s')
    ensures Loose(f, s') && (HandledBelow(s) ==> HandledBelow(s'))
  {
    assert Handled(s') == Handled(s);
  }

  lemma {:induction false} ReadSkipsLoose(f: seq<Cursor>, s: State, p: Process, p': Process)
    requires Loose(f, s) && s.process == Some(p) && p.readPos < |s.durable.queue|
    requires p' == p.(readPos := p.readPos + 1, done := p.done + {p.readPos})
    ensures var s' := s.(process := Some(p'));
            Loose(f, s') && (HandledBelow(s) ==> (HandledBelow(s') <==> s.durable.queue[p.readPos] <= s.store.watermark))
  {
    var s' := s.(process := Some(p'));
    assert Handled(s') == Handled(s) + {p.readPos};
  }

  lemma {:induction false} ReadReservesLoose(f: seq<Cursor>, s: State, p: Process, w: Writers, i: nat, p': Process, w': Writers)
    requires Loose(f, s) && s.process == Some(p) && p.writers == Some(w) && 1 <= i < |f| && !TornWriters(w)
    requires w' == w.(next := f[i], reserved := i, inFlight := w.inFlight + {i})
    requires p' == p.(readPos := p.readPos + 1, waiting := p.waiting + {p.readPos}, writers := Some(w'))
    ensures var s' := s.(process := Some(p')); Loose(f, s') && (HandledBelow(s) ==> HandledBelow(s'))
  {
    var s' := s.(process := Some(p'));
    assert Handled(s') == Handled(s);
    assert WritersLoose(f, s.store, w');
  }

  lemma {:induction false} ReadLoose(f: seq<Cursor>, s: State, s': State)
    requires Loose(f, s) && s.process.Some? && Do(f, s, Read) == Some(s')
    ensures Loose(f, s') && (HandledBelow(s) ==> (HandledBelow(s') <==> !SkipsEarly(s, Regular(Read))))
  {
    var p := s.process.value;
    if p.readPos in p.acked {
      ReadAckedLoose(f, s, s');
    } else {
      var i, w := s.durable.queue[p.readPos], p.writers.value;
      assert i in s.durable.queue;
      SkipsByIndex(f, s.store, w, i);
      if i <= w.reserved {
        ReadSkipsLoose(f, s, p, s'.process.value);
      } else {
        ReadReservesLoose(f, s, p, w, i, s'.process.value, s'.process.value.writers.value);
      }
    }
  }

  lemma {:induction false} LandLoose(f: seq<Cursor>, s: State, i: nat, publish: bool, s': State)
    requires Loose(f, s) && s.process.Some? && Do(f, s, Land(i, publish)) == Some(s')
    ensures Loose(f, s') && (HandledBelow(s) ==> HandledBelow(s'))
  {
    assert Handled(s') == Handled(s);
  }

  lemma {:induction false} CompleteLoose(f: seq<Cursor>, s: State, q: nat, s': State)
    requires Loose(f, s) && s.process.Some? && Do(f, s, Complete(q)) == Some(s')
    ensures Loose(f, s') && (HandledBelow(s) ==> HandledBelow(s'))
  {
    assert Handled(s') <= Handled(s) + {q};
    FrontierOrder(f, s.durable.queue[q], s.process.value.writers.value.statePublished);
  }

  lemma {:induction false} PublishLoose(f: seq<Cursor>, s: State, step: Step, s': State)
    requires Loose(f, s) && s.process.Some? && (step.Mark? || step.Flush?) && Do(f, s, step) == Some(s')
    ensures Loose(f, s') && (HandledBelow(s) ==> HandledBelow(s'))
  {
    assert Handled(s') == Handled(s);
  }

  lemma {:induction false} LateLoose(f: seq<Cursor>, s: State, step: Step, s': State)
    requires Loose(f, s) && Do(f, s, step) == Some(s') && (step.Straggle? || step.LateFlush? || step == Crash)
    ensures Loose(f, s') && (HandledBelow(s) ==> HandledBelow(s'))
  {
    assert Handled(s') <= Handled(s);
  }

  lemma {:induction false} StepLoose(f: seq<Cursor>, s: State, step: Step, s': State)
    requires Loose(f, s) && Do(f, s, step) == Some(s') && step != Read && step != Crash
    requires !(step.Land? || step.Mark? || step.Flush? || step.Complete? || step.Straggle? || step.LateFlush?)
    ensures Loose(f, s') && (HandledBelow(s) ==> HandledBelow(s'))
  {
    assert Handled(s') <= Handled(s);
  }

  /** One event: handled entries stay visible exactly if it does not skip an entry early. */
  lemma {:induction false} EventExact(f: seq<Cursor>, s: State, e: Event, s': State)
    requires Loose(f, s) && Happen(f, s, e) == Some(s')
    ensures Loose(f, s') && (HandledBelow(s) ==> (HandledBelow(s') <==> !SkipsEarly(s, e)))
  {
    if e.Regular? {
      if e.step == Read {
        ReadLoose(f, s, s');
      } else if e.step.Land? {
        LandLoose(f, s, e.step.upload, e.step.publish, s');
      } else if e.step.Complete? {
        CompleteLoose(f, s, e.step.position, s');
      } else if e.step.Mark? || e.step.Flush? {
        PublishLoose(f, s, e.step, s');
      } else if e.step.Straggle? || e.step.LateFlush? || e.step == Crash {
        LateLoose(f, s, e.step, s');
      } else {
        StepLoose(f, s, e.step, s');
      }
    } else {
      assert Handled(s') == Handled(s);
    }
  }

  /** In every state of the run, what is acknowledged or about to be is visible. */
  ghost predicate AlwaysVisible(f: seq<Cursor>, s: State, es: seq<Event>)
    decreases |es|
  {
    && HandledVisible(f, s)
    && (es != [] && Happen(f, s, es[0]).Some? ==> AlwaysVisible(f, Happen(f, s, es[0]).value, es[1..]))
  }

  /** Some event of the run skips an entry early. */
  ghost predicate SkipsEarlySomewhere(f: seq<Cursor>, s: State, es: seq<Event>)
    decreases |es|
  {
    && es != [] && Happen(f, s, es[0]).Some?
    && (SkipsEarly(s, es[0]) || SkipsEarlySomewhere(f, Happen(f, s, es[0]).value, es[1..]))
  }

  lemma {:induction false} RunExact(f: seq<Cursor>, s: State, es: seq<Event>)
    requires Loose(f, s) && HandledBelow(s) && RunEvents(f, s, es).Some?
    ensures AlwaysVisible(f, s, es) <==> !SkipsEarlySomewhere(f, s, es)
    decreases |es|
  {
    HandledVisibleIff(f, s);
    if es != [] {
      var next := Happen(f, s, es[0]).value;
      EventExact(f, s, es[0], next);
      HandledVisibleIff(f, next);
      if HandledBelow(next) { RunExact(f, next, es[1..]); }
    }
  }

  /**
   * Run by run, whatever failed enqueues append: what is acknowledged or about to be is visible throughout exactly if no
   * entry is read while it is reserved in the session but above the published watermarks.
   */
  lemma {:induction false} EarlyAckIff(f: seq<Cursor>, es: seq<Event>)
    requires Frontiers(f) && RunEvents(f, INIT, es).Some?
    ensures AlwaysVisible(f, INIT, es) <==> !SkipsEarlySomewhere(f, INIT, es)
  {
    RunExact(f, INIT, es);
  }
}
