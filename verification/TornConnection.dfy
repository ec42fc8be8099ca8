/** A run in which a publisher connects between two boundaries. */
module TornConnection {
  import opened Wrappers
  import opened Uploads
  import opened Pipeline
  import opened Runs
  import Publisher

  /** A process that has just started, with this cursor. */
  function Started(c: Cursor): Process {
    Process(c, None, {}, {}, 0, {}, {}, None, None, 2)
  }

  /** The process of the first session once it has enqueued upload 1. */
  function Enqueued(f: seq<Cursor>): Process
    requires |f| >= 2
  {
    Started(f[0]).(persisting := Some(f[1]))
  }

  /**
   * First session: upload 1 is enqueued and reserved, and its batch is in flight at the crash. Second session: the late
   * batch lands with its watermarks between the two reads.
   */
  const TORN_EVENTS := [Regular(Start(2)), Regular(Enqueue(1)), Regular(ReadStateWatermark), Regular(ReadTransactionWatermark),
                        Regular(Read), Regular(Crash),
                        Regular(Start(2)), Regular(ReadStateWatermark), Regular(Straggle(1, true)), Regular(ReadTransactionWatermark)]

  function TornStates(f: seq<Cursor>): seq<State>
    requires |f| >= 2
  {
    var empty, landed := Store({}, 0), Store({1}, 1);
    var first, second := Durable([1], {}, Some(f[0])), Durable([1], {}, Some(f[1]));
    var reserved := Connected(f, 0, 0).(next := f[1], reserved := 1, inFlight := {1});
    [INIT,
     State(Durable([], {}, Some(f[0])), empty, {}, Some(Started(f[0]))),
     State(first, empty, {}, Some(Enqueued(f))),
     State(first, empty, {}, Some(Enqueued(f).(stateRead := Some(0)))),
     State(first, empty, {}, Some(Enqueued(f).(writers := Some(Connected(f, 0, 0))))),
     State(first, empty, {}, Some(Enqueued(f).(readPos := 1, waiting := {0}, writers := Some(reserved)))),
     State(first, empty, {1}, None),
     State(second, empty, {1}, Some(Started(f[1]))),
     State(second, empty, {1}, Some(Started(f[1]).(stateRead := Some(0)))),
     State(second, landed, {}, Some(Started(f[1]).(stateRead := Some(0)))),
     State(second, landed, {}, Some(Started(f[1]).(writers := Some(Connected(f, 0, 1)))))]
  }

  lemma {:induction false} FirstSessionConnects(f: seq<Cursor>, k: nat)
    requires Frontiers(f) && |f| >= 2 && k < 4
    ensures Brings(f, TornStates(f), TORN_EVENTS, k)
  {
    var nothing: seq<nat> := [];
    assert nothing + [1] == [1];
    if k == 0 {
    } else if k == 1 {
    } else if k == 2 {
    } else {
    }
  }

  lemma {:induction false} FirstSessionCrashes(f: seq<Cursor>, k: nat)
    requires Frontiers(f) && |f| >= 2 && 4 <= k < 6
    ensures Brings(f, TornStates(f), TORN_EVENTS, k)
  {
    var none: set<nat> := {};
    assert none + {0} == {0} && none + {1} == {1};
    if k == 4 { AdmitByIndex(f, 0, 1); }
  }

  lemma {:induction false} SecondSessionRecovers(f: seq<Cursor>)
    requires Frontiers(f) && |f| >= 2
    ensures Publisher.RecoveredCursor(Some(f[0]), ScannedCursor(f, Durable([1], {}, Some(f[0])))) == f[1]
  {
    assert [1][..0] == [] && Unacked([1][..0], {}) == [];
    assert Unacked([1], {}) == [1];
    FrontierOrder(f, 0, 1);
  }

  lemma {:induction false} SecondSessionStarts(f: seq<Cursor>)
    requires Frontiers(f) && |f| >= 2
    ensures Brings(f, TornStates(f), TORN_EVENTS, 6)
  {
    SecondSessionRecovers(f);
  }

  lemma {:induction false} SecondSessionTears(f: seq<Cursor>, k: nat)
    requires Frontiers(f) && |f| >= 2 && 7 <= k < 10
    ensures Brings(f, TornStates(f), TORN_EVENTS, k)
  {
    if k == 7 {
    } else if k == 8 {
      var none: set<nat> := {};
      assert none + {1} == {1} && {1} - {1} == none;
    } else {
    }
  }

  lemma {:induction false} EventsRun(f: seq<Cursor>)
    requires Frontiers(f) && |f| >= 2
    ensures RunEvents(f, INIT, TORN_EVENTS) == Some(TornStates(f)[10])
  {
    forall k | 0 <= k < |TORN_EVENTS| ensures Brings(f, TornStates(f), TORN_EVENTS, k) {
      if k < 4 { FirstSessionConnects(f, k); }
      else if k < 6 { FirstSessionCrashes(f, k); }
      else if k == 6 { SecondSessionStarts(f); }
      else { SecondSessionTears(f, k); }
    }
    RunOfStates(f, TornStates(f), TORN_EVENTS);
  }

  lemma {:induction false} EndRefuses(f: seq<Cursor>)
    requires Frontiers(f) && |f| >= 2
    ensures var end := TornStates(f)[10];
            end.durable.queue == [1] && Acked(end) == {} && Torn(end) && Refuses(f, end)
  {
    AdmitTorn(f, 0, 1, 1);
  }

  /** A run that ends with a publisher refusing the only entry, over every chain with a block. */
  lemma {:induction false} TornRun(f: seq<Cursor>) returns (steps: seq<Step>, end: State)
    requires Frontiers(f) && |f| >= 2
    ensures RunEvents(f, INIT, TORN_EVENTS) == Some(end)
    ensures RunFrom(f, INIT, steps) == Some(end) && Reachable(f, end)
    ensures end.durable.queue == [1] && Acked(end) == {} && Torn(end) && Refuses(f, end)
  {
    EventsRun(f);
    EndRefuses(f);
    end := TornStates(f)[10];
    steps := RegularRun(f, INIT, TORN_EVENTS, end);
  }
}
