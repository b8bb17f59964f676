/** The event queue in front of the index: pending events keyed by path, and a bounded number of workers. */
module WorkspaceIndexQueue {
  import opened Sequences
  import opened WorkspaceTree

  datatype EventKind = Change | Delete

  datatype Event = Event(path: Path, kind: EventKind)

  /** Setting a key of an insertion-ordered map: an existing key keeps its place, a new one goes last. */
  function Put(pending: seq<Event>, e: Event): (r: seq<Event>)
    ensures e in r
    ensures forall x :: x in r ==> x == e || x in pending
    ensures forall x :: x in pending && x.path != e.path ==> x in r
  {
    if pending == [] then [e]
    else if pending[0].path == e.path then [e] + pending[1..]
    else [pending[0]] + Put(pending[1..], e)
  }

  predicate IsPending(pending: seq<Event>, path: Path) {
    exists i :: 0 <= i < |pending| && pending[i].path == path
  }

  lemma PendingLater(pending: seq<Event>, path: Path)
    requires pending != [] && pending[0].path != path
    ensures IsPending(pending, path) <==> IsPending(pending[1..], path)
  {
    assert forall i :: 1 <= i < |pending| ==> pending[1..][i - 1] == pending[i];
  }

  lemma {:induction false} PutLength(pending: seq<Event>, e: Event)
    ensures |Put(pending, e)| == if IsPending(pending, e.path) then |pending| else |pending| + 1
    ensures !IsPending(pending, e.path) ==> Put(pending, e)[|pending|] == e
  {
    if pending != [] && pending[0].path != e.path {
      PutLength(pending[1..], e);
      PendingLater(pending, e.path);
      hide IsPending;
    } else if pending != [] {
      assert IsPending(pending, e.path);
    }
  }

  lemma {:induction false} PutAt(pending: seq<Event>, e: Event, i: nat)
    requires i < |pending|
    ensures i < |Put(pending, e)| && Put(pending, e)[i].path == pending[i].path
    ensures pending[i].path != e.path ==> Put(pending, e)[i] == pending[i]
  {
    if i > 0 && pending[0].path != e.path {
      PutAt(pending[1..], e, i - 1);
      assert pending[1..][i - 1] == pending[i];
    }
  }

  /**
   A key that is there keeps its place with the new event, a new key goes last, and the others stay where they are.
   */
  lemma PutKeepsPlaces(pending: seq<Event>, e: Event)
    ensures var r := Put(pending, e);
            && |r| == (if IsPending(pending, e.path) then |pending| else |pending| + 1)
            && (!IsPending(pending, e.path) ==> r[|pending|] == e)
            && (forall i :: 0 <= i < |pending| ==>
                  r[i].path == pending[i].path && (pending[i].path != e.path ==> r[i] == pending[i]))
  {
    hide Put, IsPending;
    PutLength(pending, e);
    forall i | 0 <= i < |pending|
      ensures i < |Put(pending, e)| && Put(pending, e)[i].path == pending[i].path
      ensures pending[i].path != e.path ==> Put(pending, e)[i] == pending[i]
    {
      PutAt(pending, e, i);
    }
  }

  ghost predicate OneEventPerPath(pending: seq<Event>) {
    forall i, j :: 0 <= i < j < |pending| ==> pending[i].path != pending[j].path
  }

  /** What an observer of the queue sees happen. */
  datatype Step = Enqueued(event: Event) | Started(event: Event) | Settled(ok: bool)

  datatype QueueState =
    QueueState(pending: seq<Event>, active: nat, enqueued: nat, coalesced: nat, completed: nat, failed: nat)

  const IDLE := QueueState([], 0, 0, 0, 0, 0)

  /** The step can happen in this state, with this many workers allowed. */
  predicate Enabled(q: QueueState, step: Step, concurrency: nat) {
    match step
    case Enqueued(_) => true
    case Started(e) => q.active < concurrency && q.pending != [] && q.pending[0] == e
    case Settled(_) => q.active > 0
  }

  function After(q: QueueState, step: Step, concurrency: nat): QueueState
    requires Enabled(q, step, concurrency)
  {
    match step
    case Enqueued(e) =>
      q.(enqueued := q.enqueued + 1,
         coalesced := if IsPending(q.pending, e.path) then q.coalesced + 1 else q.coalesced,
         pending := Put(q.pending, e))
    case Started(e) => q.(pending := q.pending[1..], active := q.active + 1)
    case Settled(ok) =>
      if ok then q.(active := q.active - 1, completed := q.completed + 1)
      else q.(active := q.active - 1, failed := q.failed + 1)
  }

  /** A history that can happen, from the idle queue on. */
  ghost predicate Possible(history: seq<Step>, concurrency: nat)
    decreases |history|, 0
  {
    history == [] ||
    (Possible(Earlier(history), concurrency)
      && Enabled(Replay(Earlier(history), concurrency), history[|history| - 1], concurrency))
  }

  function Earlier(history: seq<Step>): seq<Step>
    requires history != []
  {
    history[..|history| - 1]
  }

  /** The state a history leads to. */
  ghost function Replay(history: seq<Step>, concurrency: nat): QueueState
    requires Possible(history, concurrency)
    decreases |history|, 1
  {
    if history == [] then IDLE
    else After(Replay(Earlier(history), concurrency), history[|history| - 1], concurrency)
  }

  /** One more enabled step. */
  lemma OneMore(history: seq<Step>, step: Step, concurrency: nat)
    requires Possible(history, concurrency) && Enabled(Replay(history, concurrency), step, concurrency)
    ensures Possible(history + [step], concurrency)
    ensures Replay(history + [step], concurrency) == After(Replay(history, concurrency), step, concurrency)
  {
    assert Earlier(history + [step]) == history;
  }

  lemma PutSize(pending: seq<Event>, e: Event)
    requires OneEventPerPath(pending)
    ensures OneEventPerPath(Put(pending, e))
    ensures |Put(pending, e)| == if IsPending(pending, e.path) then |pending| else |pending| + 1
  {
    PutKeepsPlaces(pending, e);
    hide Put;
  }

  /** Every event is accounted for, and the workers never exceed their number. */
  lemma {:induction false} EventsAddUp(history: seq<Step>, concurrency: nat)
    requires Possible(history, concurrency)
    ensures var q := Replay(history, concurrency);
            && q.enqueued == q.coalesced + |q.pending| + q.active + q.completed + q.failed
            && q.active <= concurrency
            && OneEventPerPath(q.pending)
    decreases |history|
  {
    if history != [] {
      var before := Replay(Earlier(history), concurrency);
      EventsAddUp(Earlier(history), concurrency);
      var step := history[|history| - 1];
      if step.Enqueued? {
        PutSize(before.pending, step.event);
      }
    }
  }

  /**
   Each counter is the number of its own steps: events enqueued, workers that came back without an error, workers that
   came back with one, and as workers at work those that started and have not come back.
   */
  lemma {:induction false} CountersCount(history: seq<Step>, concurrency: nat)
    requires Possible(history, concurrency)
    ensures var q := Replay(history, concurrency);
            && q.enqueued == |set i | 0 <= i < |history| && history[i].Enqueued?|
            && q.completed == |set i | 0 <= i < |history| && history[i] == Settled(true)|
            && q.failed == |set i | 0 <= i < |history| && history[i] == Settled(false)|
            && q.active + q.completed + q.failed == |set i | 0 <= i < |history| && history[i].Started?|
  {
    hide Possible, Replay, Where;
    CountedSteps(history, concurrency);
    SameSteps(history);
  }

  function IsEnqueued(): Step -> bool {
    (s: Step) => s.Enqueued?
  }

  function IsStarted(): Step -> bool {
    (s: Step) => s.Started?
  }

  function Is(step: Step): Step -> bool {
    s => s == step
  }

  lemma SameSteps(history: seq<Step>)
    ensures Where(IsEnqueued(), history) == set i | 0 <= i < |history| && history[i].Enqueued?
    ensures Where(IsStarted(), history) == set i | 0 <= i < |history| && history[i].Started?
    ensures Where(Is(Settled(true)), history) == set i | 0 <= i < |history| && history[i] == Settled(true)
    ensures Where(Is(Settled(false)), history) == set i | 0 <= i < |history| && history[i] == Settled(false)
  {
  }

  lemma {:induction false} CountedSteps(history: seq<Step>, concurrency: nat)
    requires Possible(history, concurrency)
    ensures var q := Replay(history, concurrency);
            && q.enqueued == |Where(IsEnqueued(), history)|
            && q.completed == |Where(Is(Settled(true)), history)|
            && q.failed == |Where(Is(Settled(false)), history)|
            && q.active + q.completed + q.failed == |Where(IsStarted(), history)|
    decreases |history|
  {
    if history != [] {
      var earlier, step := Earlier(history), history[|history| - 1];
      CountedSteps(earlier, concurrency);
      assert history == earlier + [step];
      hide Where, Put, IsPending;
      WhereSnoc(IsEnqueued(), earlier, step);
      WhereSnoc(IsStarted(), earlier, step);
      WhereSnoc(Is(Settled(true)), earlier, step);
      WhereSnoc(Is(Settled(false)), earlier, step);
    }
  }

  /** The last time anything was enqueued for the event's path, it was this event, at position i. */
  ghost predicate LatestAt(history: seq<Step>, i: nat, e: Event) {
    && i < |history| && history[i] == Enqueued(e)
    && forall j :: i < j < |history| && history[j].Enqueued? ==> history[j].event.path != e.path
  }

  /** Nothing is dropped: the latest event of every path is still pending or was started after it was enqueued. */
  lemma {:induction false} LatestEventSurvives(history: seq<Step>, concurrency: nat, i: nat, e: Event)
    requires Possible(history, concurrency) && LatestAt(history, i, e)
    ensures e in Replay(history, concurrency).pending || exists j :: i < j < |history| && history[j] == Started(e)
    decreases |history|
  {
    var earlier, last := Earlier(history), history[|history| - 1];
    if i < |earlier| {
      assert LatestAt(earlier, i, e);
      LatestEventSurvives(earlier, concurrency, i, e);
      var before := Replay(earlier, concurrency);
      if e in before.pending {
        PendingStays(before, last, concurrency, e);
      }
      hide LatestAt, After, Possible;
      if j :| i < j < |earlier| && earlier[j] == Started(e) {
        assert history[j] == Started(e);
      } else if last == Started(e) {
        assert history[|history| - 1] == Started(e);
      }
    }
  }

  /** A pending event stays until it is started or a newer one of its path takes its place. */
  lemma PendingStays(q: QueueState, step: Step, concurrency: nat, e: Event)
    requires Enabled(q, step, concurrency) && e in q.pending
    requires step.Enqueued? ==> step.event.path != e.path
    ensures e in After(q, step, concurrency).pending || step == Started(e)
  {
  }

  /** Nothing is invented: every started event was enqueued before. */
  lemma {:induction false} StartedWasEnqueued(history: seq<Step>, concurrency: nat, e: Event)
    requires Possible(history, concurrency)
    ensures e in Replay(history, concurrency).pending ==> Enqueued(e) in history
    ensures Started(e) in history ==> Enqueued(e) in history
    decreases |history|
  {
    if history != [] {
      StartedWasEnqueued(Earlier(history), concurrency, e);
    }
  }

  class Queue {
    var pending: seq<Event>
    var activeWorkers: nat
    var enqueuedEvents: nat
    var coalescedEvents: nat
    var completedEvents: nat
    var failedEvents: nat
    const concurrency: nat
    ghost var history: seq<Step>

    ghost function View(): QueueState
      reads this
    {
      QueueState(pending, activeWorkers, enqueuedEvents, coalescedEvents, completedEvents, failedEvents)
    }

    ghost predicate Valid()
      reads this
    {
      concurrency >= 1 && Possible(history, concurrency) && View() == Replay(history, concurrency)
    }

    constructor (concurrency: int)
      ensures Valid() && history == [] && this.concurrency == if concurrency < 1 then 1 else concurrency
    {
      pending, history := [], [];
      activeWorkers, enqueuedEvents, coalescedEvents, completedEvents, failedEvents := 0, 0, 0, 0, 0;
      this.concurrency := if concurrency < 1 then 1 else concurrency;
    }

    method Enqueue(e: Event)
      requires Valid()
      modifies this
      ensures Valid() && history == old(history) + [Enqueued(e)]
      ensures View() == After(old(View()), Enqueued(e), concurrency)
    {
      OneMore(history, Enqueued(e), concurrency);
      hide Possible, Replay;
      enqueuedEvents := enqueuedEvents + 1;
      if IsPending(pending, e.path) {
        coalescedEvents := coalescedEvents + 1;
      }
      pending := Put(pending, e);
      history := history + [Enqueued(e)];
    }

    /** The synchronous part of a flush: starts the oldest events while a worker is free. */
    method StartWorkers() returns (started: seq<Event>)
      requires Valid()
      modifies this
      ensures Valid() && history == old(history) + StartedAll(started)
      ensures started + pending == old(pending)
      ensures View() == FlushOnce(old(View()), concurrency)
      // as many as there are free workers, or all
      ensures activeWorkers == old(activeWorkers) + |started| && activeWorkers <= concurrency
      ensures pending != [] ==> activeWorkers == concurrency
    {
      hide Possible, Replay, StartedAll;
      started := [];
      EventsAddUp(history, concurrency);
      assert history + StartedAll([]) == history by {
        StartedNone();
      }
      while activeWorkers < concurrency && |pending| > 0
        invariant Valid() && activeWorkers <= concurrency
        invariant started + pending == old(pending)
        invariant View() == old(View()).(pending := pending, active := old(activeWorkers) + |started|)
        invariant history == old(history) + StartedAll(started)
        decreases |pending|
      {
        var next := pending[0];
        OneMore(history, Started(next), concurrency);
        HeadMoves(started, pending);
        pending := pending[1..];
        activeWorkers := activeWorkers + 1;
        history := history + [Started(next)];
        StartedAllSnoc(started, next);
        started := started + [next];
      }
      DropAll(started, pending);
    }

    /** A worker came back, with or without an error. */
    method WorkerSettled(ok: bool)
      requires Valid() && activeWorkers > 0
      modifies this
      ensures Valid() && history == old(history) + [Settled(ok)]
      ensures View() == After(old(View()), Settled(ok), concurrency)
    {
      OneMore(history, Settled(ok), concurrency);
      hide Possible, Replay;
      if ok {
        completedEvents := completedEvents + 1;
      } else {
        failedEvents := failedEvents + 1;
      }
      activeWorkers := activeWorkers - 1;
      history := history + [Settled(ok)];
    }
  }

  lemma HeadMoves<T>(s: seq<T>, t: seq<T>)
    requires t != []
    ensures (s + [t[0]]) + t[1..] == s + t
  {
  }

  lemma StartedNone()
    ensures StartedAll([]) == []
  {
  }

  function Free(active: nat, concurrency: nat): nat {
    if active <= concurrency then concurrency - active else 0
  }

  function StartedAll(events: seq<Event>): (r: seq<Step>)
    ensures |r| == |events| && forall i :: 0 <= i < |events| ==> r[i] == Started(events[i])
  {
    seq(|events|, i requires 0 <= i < |events| => Started(events[i]))
  }

  lemma StartedAllSnoc(events: seq<Event>, e: Event)
    ensures StartedAll(events + [e]) == StartedAll(events) + [Started(e)]
  {
  }

  /** How many events one flush takes over, and in which state it leaves the queue. */
  function FlushOnce(q: QueueState, concurrency: nat): QueueState {
    var n := if |q.pending| <= Free(q.active, concurrency) then |q.pending| else Free(q.active, concurrency);
    q.(pending := q.pending[n..], active := q.active + n)
  }

  /** n flushes entered one inside the other, with nothing happening in between. */
  function FlushNested(q: QueueState, concurrency: nat, n: nat): QueueState
    decreases n
  {
    if n == 0 then q else FlushNested(FlushOnce(q, concurrency), concurrency, n - 1)
  }

  /**
   A flush that starts no worker calls itself again at once while events are pending. That happens
   exactly when it is entered with all workers busy, and then no number of nested flushes changes anything.
   */
  lemma FlushStallsIff(q: QueueState, concurrency: nat, n: nat)
    requires q.pending != [] && n > 0
    ensures FlushNested(q, concurrency, n) == q <==> q.active >= concurrency
  {
    hide FlushNested;
    if q.active >= concurrency {
      BusyFlushStalls(q, concurrency, n);
    } else {
      FreeFlushMoves(q, concurrency, n);
    }
  }

  lemma {:induction false} BusyFlushStalls(q: QueueState, concurrency: nat, n: nat)
    requires q.pending != [] && q.active >= concurrency
    ensures FlushNested(q, concurrency, n) == q
    decreases n
  {
    FlushOnceMoves(q, concurrency);
    hide FlushOnce;
    if n > 0 {
      BusyFlushStalls(q, concurrency, n - 1);
    }
  }

  lemma FreeFlushMoves(q: QueueState, concurrency: nat, n: nat)
    requires q.pending != [] && q.active < concurrency && n > 0
    ensures FlushNested(q, concurrency, n).active > q.active
  {
    FlushOnceMoves(q, concurrency);
    hide FlushOnce;
    FlushOnlyGrows(FlushOnce(q, concurrency), concurrency, n - 1);
  }

  lemma FlushOnceMoves(q: QueueState, concurrency: nat)
    requires q.pending != []
    ensures q.active >= concurrency ==> FlushOnce(q, concurrency) == q
    ensures q.active < concurrency ==> FlushOnce(q, concurrency).active > q.active
  {
    assert q.pending[0..] == q.pending;
  }

  lemma {:induction false} FlushOnlyGrows(q: QueueState, concurrency: nat, n: nat)
    ensures FlushNested(q, concurrency, n).active >= q.active
    decreases n
  {
    assert FlushOnce(q, concurrency).active >= q.active;
    hide FlushOnce;
    if n > 0 {
      FlushOnlyGrows(FlushOnce(q, concurrency), concurrency, n - 1);
    }
  }

  /** Such a state is reached whatever the concurrency: start one event per worker, then enqueue one more. */
  lemma {:induction false} StallIsReachable(concurrency: nat, events: seq<Event>, last: Event)
    returns (history: seq<Step>)
    requires |events| == concurrency
    ensures Possible(history, concurrency)
    ensures var q := Replay(history, concurrency); q.active == concurrency && q.pending == [last]
  {
    history := BusyHistory(concurrency, events);
    OneMore(history, Enqueued(last), concurrency);
    history := history + [Enqueued(last)];
  }

  lemma {:induction false} BusyHistory(concurrency: nat, events: seq<Event>) returns (history: seq<Step>)
    requires |events| <= concurrency
    ensures Possible(history, concurrency)
    ensures var q := Replay(history, concurrency); q.active == |events| && q.pending == []
    decreases |events|
  {
    if events == [] {
      history := [];
      assert Possible(history, concurrency);
    } else {
      history := BusyHistory(concurrency, events[1..]);
      OneMore(history, Enqueued(events[0]), concurrency);
      history := history + [Enqueued(events[0])];
      OneMore(history, Started(events[0]), concurrency);
      history := history + [Started(events[0])];
    }
  }
}
