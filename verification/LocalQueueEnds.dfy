/**
 What becomes of every local operation, from the events alone: which were accepted, how often each was worked, and
 which end it was told; and which sessions are open and paused.
 */
module LocalQueueEnds {
  import opened Wrappers
  import opened LocalOperationQueue
  import opened LocalQueueRuns

  // ---------- sessions ----------

  /** The session was opened, and not stopped since. */
  ghost predicate IsOpen(events: seq<Event>, session: SessionId) {
    exists k | 0 <= k < |events| ::
      events[k] == Open(session) && forall m | k < m < |events| :: events[m] != Stop(session)
  }

  /** The session was opened, or paused while open, and neither stopped nor unpaused since. */
  ghost predicate IsPaused(events: seq<Event>, session: SessionId) {
    exists k | 0 <= k < |events| ::
      && (if IsOpen(events[..k], session) then events[k] == Pause(session, true) else events[k] == Open(session))
      && forall m | k < m < |events| :: events[m] != Stop(session) && events[m] != Pause(session, false)
  }

  lemma OpenGoesOn(events: seq<Event>, last: Event, session: SessionId)
    ensures IsOpen(events + [last], session) <==>
            last == Open(session) || (IsOpen(events, session) && last != Stop(session))
  {
    var longer := events + [last];
    if last == Open(session) {
      assert longer[|events|] == Open(session);
    } else if IsOpen(events, session) && last != Stop(session) {
      var k :| 0 <= k < |events| && events[k] == Open(session)
               && forall m | k < m < |events| :: events[m] != Stop(session);
      assert longer[k] == Open(session);
    }
    if IsOpen(longer, session) && last != Open(session) {
      var k :| 0 <= k < |longer| && longer[k] == Open(session)
               && forall m | k < m < |longer| :: longer[m] != Stop(session);
      assert events[k] == Open(session);
      assert forall m | k < m < |events| :: events[m] == longer[m];
      assert longer[|events|] == last;
    }
  }

  lemma PausedGoesOn(events: seq<Event>, last: Event, session: SessionId)
    ensures IsPaused(events + [last], session) <==>
            || (if IsOpen(events, session) then last == Pause(session, true) else last == Open(session))
            || (IsPaused(events, session) && last != Stop(session) && last != Pause(session, false))
  {
    hide IsOpen;
    var longer := events + [last];
    assert longer[..|events|] == events && longer[|events|] == last;
    if IsPaused(events, session) && last != Stop(session) && last != Pause(session, false) {
      var k :| 0 <= k < |events|
               && (if IsOpen(events[..k], session) then events[k] == Pause(session, true)
                  else events[k] == Open(session))
               && forall m | k < m < |events| :: events[m] != Stop(session) && events[m] != Pause(session, false);
      assert longer[..k] == events[..k] && longer[k] == events[k];
    }
    if IsPaused(longer, session) {
      var k :| 0 <= k < |longer|
               && (if IsOpen(longer[..k], session) then longer[k] == Pause(session, true)
                  else longer[k] == Open(session))
               && forall m | k < m < |longer| :: longer[m] != Stop(session) && longer[m] != Pause(session, false);
      if k < |events| {
        assert longer[..k] == events[..k] && longer[k] == events[k];
        assert forall m | k < m < |events| :: events[m] == longer[m];
      }
    }
  }

  /** The sessions known are the open ones, each with whether it is paused; a session opens paused. */
  lemma {:induction false} SessionsAreKnown(events: seq<Event>, session: SessionId)
    ensures var paused := After(Initial, events).paused;
            && (session in paused <==> IsOpen(events, session))
            && (session in paused ==> (paused[session] <==> IsPaused(events, session)))
  {
    if events != [] {
      var front, last := events[..|events| - 1], events[|events| - 1];
      SessionsAreKnown(front, session);
      assert front + [last] == events;
      OpenGoesOn(front, last, session);
      PausedGoesOn(front, last, session);
      EventPauses(After(Initial, front), last, session);
      hide IsOpen, IsPaused, Next, After;
    }
  }

  lemma EventPauses(sys: System, event: Event, session: SessionId)
    ensures var before, after := sys.paused, Next(sys, event).paused;
            && (session in after <==> event == Open(session) || (session in before && event != Stop(session)))
            && (session in after ==>
                  (after[session] <==>
                     || (if session in before then event == Pause(session, true) else event == Open(session))
                     || (session in before && before[session] && event != Pause(session, false))))
  {
    hide HeldFor, ReleasedFrom, Enqueued, CanceledById, Ran;
  }

  // ---------- what becomes of an operation ----------

  /** An operation of a session is only accepted while that is open. */
  ghost predicate IsAccepted(before: seq<Event>, event: Event) {
    event.Add? && (event.owner.None? || IsOpen(before, event.owner.value))
  }

  /** The operations accepted, in the order in which they came: number n is the arrival n. */
  ghost function Accepted(events: seq<Event>): (adds: seq<Event>)
    ensures forall n | 0 <= n < |adds| :: adds[n].Add?
  {
    if events == [] then []
    else
      var front, last := events[..|events| - 1], events[|events| - 1];
      Accepted(front) + if IsAccepted(front, last) then [last] else []
  }

  /** A posted step works the first operation that is not held. */
  ghost predicate WorksOn(sys: System, event: Event, arrival: nat) {
    var operations := sys.queue.operations;
    && event.Step? && sys.queue.posted > 0
    && exists i | 0 <= i < |operations| ::
         operations[i].arrival == arrival && !operations[i].held && forall j | 0 <= j < i :: operations[j].held
  }

  ghost function TimesWorked(events: seq<Event>, arrival: nat): nat {
    if events == [] then 0
    else
      var front, last := events[..|events| - 1], events[|events| - 1];
      TimesWorked(front, arrival) + if WorksOn(After(Initial, front), last, arrival) then 1 else 0
  }

  ghost predicate WasCanceled(events: seq<Event>, arrival: nat) {
    exists j | 0 <= j < |events| :: CancelsArrival(After(Initial, events[..j]), events[j], arrival)
  }

  /** A queued operation is one that was accepted, with the work it has left, and was not canceled. */
  ghost predicate IsKnown(events: seq<Event>, queued: Queued) {
    var adds := Accepted(events);
    && queued.arrival < |adds| && !WasCanceled(events, queued.arrival)
    && var add := adds[queued.arrival];
       && queued.id == add.id && queued.priority == add.priority && queued.fails == add.fails
       && (queued.owner == add.owner || queued.owner == None)
       && queued.steps + TimesWorked(events, queued.arrival) == add.steps
  }

  /**
   The end told is that of an operation accepted: canceled exactly when a cancel took it out; otherwise after all its
   steps, failed exactly when it fails.
   */
  ghost predicate IsTrue(events: seq<Event>, end: Ended) {
    var adds := Accepted(events);
    && end.arrival < |adds| && end.id == adds[end.arrival].id
    && (end.reason == Canceled <==> WasCanceled(events, end.arrival))
    && (end.reason == Canceled ==> TimesWorked(events, end.arrival) <= adds[end.arrival].steps)
    && (end.reason != Canceled ==>
          && (end.reason == Failed <==> adds[end.arrival].fails)
          && TimesWorked(events, end.arrival) == adds[end.arrival].steps + 1)
  }

  ghost predicate AllTold(events: seq<Event>) {
    var queue := After(Initial, events).queue;
    && queue.arrivals == |Accepted(events)|
    && (forall i | 0 <= i < |queue.operations| :: IsKnown(events, queue.operations[i]))
    && (forall k | 0 <= k < |queue.ended| :: IsTrue(events, queue.ended[k]))
  }

  /** An operation after an event: one that was queued, with less work left when it was worked, or a new one. */
  ghost predicate Descends(sys: System, event: Event, after: Queued, before: Queued) {
    && after.arrival == before.arrival && after.id == before.id && after.priority == before.priority
    && after.fails == before.fails && (after.owner == before.owner || after.owner == None)
    && after.steps + (if WorksOn(sys, event, after.arrival) then 1 else 0) == before.steps
    && !CancelsArrival(sys, event, after.arrival)
  }

  ghost predicate IsNew(sys: System, event: Event, after: Queued) {
    && event.Add? && (event.owner.Some? ==> event.owner.value in sys.paused)
    && after.arrival == sys.queue.arrivals && after.id == event.id && after.priority == event.priority
    && after.fails == event.fails && after.owner == event.owner && after.steps == event.steps
  }

  lemma OperationsDescend(sys: System, event: Event, i: nat)
    requires Ordered(sys.queue) && i < |Next(sys, event).queue.operations|
    ensures var after := Next(sys, event).queue.operations[i];
            || IsNew(sys, event, after)
            || exists j | 0 <= j < |sys.queue.operations| :: Descends(sys, event, after, sys.queue.operations[j])
  {
    match event
    case Open(session) => SameDescend(sys, event, i);
    case Add(owner, priority, id, steps, fails) =>
      if owner.Some? && owner.value !in sys.paused {
        SameDescend(sys, event, i);
      } else {
        AddingDescends(sys, event, i);
      }
    case Pause(session, pause) => SameDescend(sys, event, i);
    case Stop(session) => SameDescend(sys, event, i);
    case Cancel(id) => RemainingDescend(sys, id, i);
    case Step =>
      if sys.queue.posted > 0 {
        StepDescends(sys, i);
      } else {
        SameDescend(sys, event, i);
      }
  }

  lemma SameDescend(sys: System, event: Event, i: nat)
    requires !event.Cancel? && (event.Step? ==> sys.queue.posted == 0)
    requires event.Add? ==> event.owner.Some? && event.owner.value !in sys.paused
    requires i < |Next(sys, event).queue.operations|
    ensures i < |sys.queue.operations|
    ensures Descends(sys, event, Next(sys, event).queue.operations[i], sys.queue.operations[i])
  {
  }

  lemma AddingDescends(sys: System, event: Event, i: nat)
    requires event.Add? && (event.owner.Some? ==> event.owner.value in sys.paused)
    requires i < |Next(sys, event).queue.operations|
    ensures var after := Next(sys, event).queue.operations[i];
            || IsNew(sys, event, after)
            || exists j | 0 <= j < |sys.queue.operations| :: Descends(sys, event, after, sys.queue.operations[j])
  {
    var operations, after := sys.queue.operations, Next(sys, event).queue.operations[i];
    var at := PlaceOf(operations, event.priority);
    if i != at {
      var j: nat := if i < at then i else i - 1;
      assert after == operations[j];
      assert Descends(sys, event, after, operations[j]);
    }
  }

  lemma RemainingDescend(sys: System, id: OperationId, i: nat)
    requires Ordered(sys.queue) && i < |Next(sys, Cancel(id)).queue.operations|
    ensures var after := Next(sys, Cancel(id)).queue.operations[i];
            exists j | 0 <= j < |sys.queue.operations| :: Descends(sys, Cancel(id), after, sys.queue.operations[j])
  {
    var operations, after := sys.queue.operations, Next(sys, Cancel(id)).queue.operations[i];
    var at := FirstWithId(operations, id);
    var j: nat := if i < at then i else i + 1;
    if at < |operations| {
      assert after == operations[j];
      ArrivalsDiffer(sys.queue, at, j);
      assert Descends(sys, Cancel(id), after, operations[j]);
    } else {
      assert Descends(sys, Cancel(id), after, operations[i]);
    }
  }

  /** The operation a posted step works is the first one that is not held. */
  lemma FirstRunnableIsWorked(sys: System, arrival: nat)
    ensures var operations := sys.queue.operations;
            var next := FirstRunnable(operations);
            WorksOn(sys, Step, arrival) <==>
            sys.queue.posted > 0 && next < |operations| && operations[next].arrival == arrival
  {
  }

  lemma StepDescends(sys: System, i: nat)
    requires Ordered(sys.queue) && sys.queue.posted > 0 && i < |Next(sys, Step).queue.operations|
    ensures var after := Next(sys, Step).queue.operations[i];
            exists j | 0 <= j < |sys.queue.operations| :: Descends(sys, Step, after, sys.queue.operations[j])
  {
    var operations, after := sys.queue.operations, Next(sys, Step).queue.operations[i];
    var next := FirstRunnable(operations);
    FirstRunnableIsWorked(sys, after.arrival);
    var j: nat := if next < |operations| && operations[next].steps == 0 && i >= next then i + 1 else i;
    StepMovesUp(sys, i, j);
    if next < |operations| && j != next {
      ArrivalsDiffer(sys.queue, j, next);
    }
    hide WorksOn, Ordered, FirstRunnable, Next;
    assert Descends(sys, Step, after, operations[j]);
  }

  /** Where an operation was before a step, and what the step changed of it. */
  lemma StepMovesUp(sys: System, i: nat, j: nat)
    requires sys.queue.posted > 0 && i < |Next(sys, Step).queue.operations|
    requires var next := FirstRunnable(sys.queue.operations);
             j == if next < |sys.queue.operations| && sys.queue.operations[next].steps == 0 && i >= next
                  then i + 1 else i
    ensures var operations, next := sys.queue.operations, FirstRunnable(sys.queue.operations);
            && j < |operations|
            && if j == next then
                 operations[j].steps > 0
                 && Next(sys, Step).queue.operations[i] == operations[j].(steps := operations[j].steps - 1)
               else Next(sys, Step).queue.operations[i] == operations[j]
  {
    hide FirstRunnable;
  }

  lemma ArrivalsDiffer(s: QueueState, i: nat, j: nat)
    requires Ordered(s) && i < |s.operations| && j < |s.operations| && i != j
    ensures s.operations[i].arrival != s.operations[j].arrival
  {
    assert FollowsInOrder(s.operations[if i < j then i else j], s.operations[if i < j then j else i]);
  }

  /** The end an event tells, if any, is that of an operation it took out of the queue. */
  ghost predicate Tells(sys: System, event: Event, end: Ended, queued: Queued) {
    && end.arrival == queued.arrival && end.id == queued.id
    && if CancelsArrival(sys, event, queued.arrival) then end.reason == Canceled && !WorksOn(sys, event, queued.arrival)
       else
         && WorksOn(sys, event, queued.arrival) && queued.steps == 0
         && end.reason != Canceled && (end.reason == Failed <==> queued.fails)
  }

  lemma EndsAreTold(sys: System, event: Event)
    ensures var before, after := sys.queue.ended, Next(sys, event).queue.ended;
            || after == before
            || (&& |after| == |before| + 1 && after[..|before|] == before
                && exists at | 0 <= at < |sys.queue.operations| ::
                     Tells(sys, event, after[|before|], sys.queue.operations[at]))
  {
    var operations := sys.queue.operations;
    match event
    case Open(session) =>
    case Add(owner, priority, id, steps, fails) =>
    case Pause(session, pause) =>
    case Stop(session) =>
    case Cancel(id) =>
      var at := FirstWithId(operations, id);
      if at < |operations| {
        assert Tells(sys, event, Next(sys, event).queue.ended[|sys.queue.ended|], operations[at]);
      }
    case Step =>
      if sys.queue.posted > 0 {
        var next := FirstRunnable(operations);
        if next < |operations| && operations[next].steps == 0 {
          FirstRunnableIsWorked(sys, operations[next].arrival);
          hide WorksOn;
          assert Tells(sys, event, Next(sys, event).queue.ended[|sys.queue.ended|], operations[next]);
        }
      }
  }

  // ---------- over runs ----------

  lemma OneEventMore(events: seq<Event>, last: Event, arrival: nat)
    ensures var sys := After(Initial, events);
            && After(Initial, events + [last]) == Next(sys, last)
            && TimesWorked(events + [last], arrival)
               == TimesWorked(events, arrival) + (if WorksOn(sys, last, arrival) then 1 else 0)
            && (WasCanceled(events + [last], arrival) <==>
                  WasCanceled(events, arrival) || CancelsArrival(sys, last, arrival))
  {
    hide Next, WorksOn, CancelsArrival;
    var longer := events + [last];
    assert longer[..|events|] == events && longer[|events|] == last;
    hide After;
    assert forall j | 0 <= j < |events| :: longer[..j] == events[..j] && longer[j] == events[j];
    if WasCanceled(events, arrival) {
      var j :| 0 <= j < |events| && CancelsArrival(After(Initial, events[..j]), events[j], arrival);
      assert CancelsArrival(After(Initial, longer[..j]), longer[j], arrival);
    }
    if CancelsArrival(After(Initial, events), last, arrival) {
      assert CancelsArrival(After(Initial, longer[..|events|]), longer[|events|], arrival);
    }
  }

  lemma OneAcceptedMore(events: seq<Event>, last: Event)
    ensures Accepted(events + [last]) == Accepted(events) + (if IsAccepted(events, last) then [last] else [])
  {
    assert (events + [last])[..|events|] == events;
  }

  /** Only queued operations are worked or canceled. */
  lemma OnlyQueuedAreTouched(sys: System, event: Event, arrival: nat)
    requires forall i | 0 <= i < |sys.queue.operations| :: sys.queue.operations[i].arrival != arrival
    ensures !WorksOn(sys, event, arrival) && !CancelsArrival(sys, event, arrival)
  {
  }

  lemma {:induction false} FutureIsUntouched(events: seq<Event>, arrival: nat)
    requires arrival >= After(Initial, events).queue.arrivals
    ensures TimesWorked(events, arrival) == 0 && !WasCanceled(events, arrival)
  {
    if events != [] {
      var front, last := events[..|events| - 1], events[|events| - 1];
      assert front + [last] == events;
      OneEventMore(front, last, arrival);
      var sys := After(Initial, front);
      ArrivalsOnlyGrow(sys, last);
      FutureIsUntouched(front, arrival);
      EveryRunKeepsTheInvariant(front);
      hide After, Next, WasCanceled, TimesWorked, WorksOn, CancelsArrival;
      forall i | 0 <= i < |sys.queue.operations| ensures sys.queue.operations[i].arrival != arrival {
        assert ArrivedUnheld(sys.queue.operations[i], sys.queue.arrivals);
      }
      OnlyQueuedAreTouched(sys, last, arrival);
    }
  }

  /** An operation whose end was told is not queued any more. */
  lemma EndedIsNotQueued(events: seq<Event>, k: nat, i: nat)
    requires var queue := After(Initial, events).queue; k < |queue.ended| && i < |queue.operations|
    ensures var queue := After(Initial, events).queue; queue.ended[k].arrival != queue.operations[i].arrival
  {
    EveryOperationEndsOnce(events);
    var queue := After(Initial, events).queue;
    hide After;
    var arrival := queue.ended[k].arrival;
    assert EndedArrivals(queue.ended)[k] == arrival;
    if queue.operations[i].arrival == arrival {
      assert Arrivals(queue.operations)[i] == arrival;
      assert multiset(Arrivals(queue.operations))[arrival] >= 1 && multiset(EndedArrivals(queue.ended))[arrival] >= 1;
      OnceUpTo(queue.arrivals, arrival);
      assert false;
    }
  }

  lemma {:induction false} OnceUpTo(n: nat, number: nat)
    ensures multiset(UpTo(n))[number] == if number < n then 1 else 0
  {
    if n == 0 {
      assert UpTo(0) == [];
    } else {
      OnceUpTo(n - 1, number);
      OneMore(n - 1);
    }
  }

  lemma QueuedStayKnown(events: seq<Event>, last: Event, i: nat)
    requires AllTold(events) && i < |After(Initial, events + [last]).queue.operations|
    ensures IsKnown(events + [last], After(Initial, events + [last]).queue.operations[i])
  {
    hide Next, Accepted, WorksOn, CancelsArrival, IsKnown, IsTrue, Descends, IsNew, After;
    var sys := After(Initial, events);
    EveryRunKeepsTheInvariant(events);
    OneEventMore(events, last, 0);
    var after := Next(sys, last).queue.operations[i];
    OperationsDescend(sys, last, i);
    if IsNew(sys, last, after) {
      NewIsKnown(events, last, after);
    } else {
      var j :| 0 <= j < |sys.queue.operations| && Descends(sys, last, after, sys.queue.operations[j]);
      DescendantsAreKnown(events, last, after, sys.queue.operations[j]);
    }
  }

  lemma NewIsKnown(events: seq<Event>, last: Event, after: Queued)
    requires After(Initial, events).queue.arrivals == |Accepted(events)| && IsNew(After(Initial, events), last, after)
    ensures IsKnown(events + [last], after)
  {
    hide After, Next, Accepted, TimesWorked, WasCanceled, WorksOn, CancelsArrival, IsOpen, IsPaused;
    OneEventMore(events, last, after.arrival);
    OneAcceptedMore(events, last);
    FutureIsUntouched(events, after.arrival);
    NewIsUntouched(After(Initial, events), last, after.arrival);
    if last.owner.Some? {
      SessionsAreKnown(events, last.owner.value);
    }
  }

  lemma DescendantsAreKnown(events: seq<Event>, last: Event, after: Queued, before: Queued)
    requires IsKnown(events, before) && Descends(After(Initial, events), last, after, before)
    ensures IsKnown(events + [last], after)
  {
    OneEventMore(events, last, after.arrival);
    OneAcceptedMore(events, last);
    hide After, Next, Accepted, TimesWorked, WasCanceled, WorksOn, CancelsArrival;
  }

  lemma NewIsUntouched(sys: System, event: Event, arrival: nat)
    requires event.Add?
    ensures !WorksOn(sys, event, arrival) && !CancelsArrival(sys, event, arrival)
  {
  }

  lemma EndsStayTrue(events: seq<Event>, last: Event, k: nat)
    requires AllTold(events) && k < |After(Initial, events).queue.ended|
    ensures IsTrue(events + [last], After(Initial, events).queue.ended[k])
  {
    var sys := After(Initial, events);
    var end := sys.queue.ended[k];
    OneEventMore(events, last, end.arrival);
    OneAcceptedMore(events, last);
    forall i | 0 <= i < |sys.queue.operations| ensures sys.queue.operations[i].arrival != end.arrival {
      EndedIsNotQueued(events, k, i);
    }
    OnlyQueuedAreTouched(sys, last, end.arrival);
    hide After, Next, Accepted, TimesWorked, WasCanceled, WorksOn, CancelsArrival;
    assert IsTrue(events, end);
  }

  lemma NewEndsAreTrue(events: seq<Event>, last: Event, at: nat, end: Ended)
    requires AllTold(events) && at < |After(Initial, events).queue.operations|
    requires Tells(After(Initial, events), last, end, After(Initial, events).queue.operations[at])
    ensures IsTrue(events + [last], end)
  {
    OneEventMore(events, last, end.arrival);
    OneAcceptedMore(events, last);
    hide After, Next, Accepted, TimesWorked, WasCanceled, WorksOn, CancelsArrival;
    assert IsKnown(events, After(Initial, events).queue.operations[at]);
  }

  lemma ArrivalsCountTheAccepted(events: seq<Event>, last: Event)
    requires After(Initial, events).queue.arrivals == |Accepted(events)|
    ensures After(Initial, events + [last]).queue.arrivals == |Accepted(events + [last])|
  {
    OneEventMore(events, last, 0);
    OneAcceptedMore(events, last);
    if last.Add? && last.owner.Some? {
      SessionsAreKnown(events, last.owner.value);
    }
    OnlyAddsArrive(After(Initial, events), last);
    hide After, Next, Accepted, IsOpen, IsPaused;
  }

  lemma OnlyAddsArrive(sys: System, event: Event)
    ensures Next(sys, event).queue.arrivals ==
            sys.queue.arrivals
            + if event.Add? && (event.owner.Some? ==> event.owner.value in sys.paused) then 1 else 0
  {
    hide FirstRunnable, FirstWithId, PriorityCount;
  }

  /**
   In every run, from the events alone: the operations accepted are numbered as they came; each is queued with the
   steps it has left, or its end was told with its own id. The end is Canceled exactly when a cancel took the operation
   out; otherwise it came with the last of its steps, and is Failed exactly when the operation fails.
   */
  lemma {:induction false} EveryEndIsTrue(events: seq<Event>)
    ensures AllTold(events)
  {
    hide After, Accepted, IsKnown, IsTrue, Next;
    if events == [] {
      NothingIsTold();
    } else {
      var front, last := events[..|events| - 1], events[|events| - 1];
      assert front + [last] == events;
      EveryEndIsTrue(front);
      ArrivalsCountTheAccepted(front, last);
      var sys, next := After(Initial, front), After(Initial, events);
      OneEventMore(front, last, 0);
      EndsAreTold(sys, last);
      hide Tells;
      forall i | 0 <= i < |next.queue.operations| ensures IsKnown(events, next.queue.operations[i]) {
        QueuedStayKnown(front, last, i);
      }
      forall k | 0 <= k < |next.queue.ended| ensures IsTrue(events, next.queue.ended[k]) {
        if k < |sys.queue.ended| {
          assert next.queue.ended[k] == sys.queue.ended[k];
          EndsStayTrue(front, last, k);
        } else {
          var at :| 0 <= at < |sys.queue.operations| && Tells(sys, last, next.queue.ended[k], sys.queue.operations[at]);
          NewEndsAreTrue(front, last, at, next.queue.ended[k]);
        }
      }
    }
  }

  lemma NothingIsTold()
    ensures AllTold([])
  {
  }

  // ---------- the posted step ----------

  ghost predicate SomeCanRun(queue: QueueState) {
    exists i | 0 <= i < |queue.operations| :: !queue.operations[i].held
  }

  /** An operation is accepted, or an open session is unpaused or stopped. */
  ghost predicate PostsAStep(before: seq<Event>, event: Event) {
    || IsAccepted(before, event)
    || (event.Pause? && !event.pause && IsOpen(before, event.session))
    || (event.Stop? && IsOpen(before, event.session))
  }

  /**
   In every run at most one step is posted: an operation accepted, a session unpaused or stopped posts one, a step that
   leaves something to run posts the next, and nothing else does.
   */
  lemma StepsArePosted(events: seq<Event>, last: Event)
    ensures var before, after := After(Initial, events).queue, After(Initial, events + [last]).queue;
            && before.posted <= 1
            && after.posted ==
               if last.Step? then (if before.posted == 1 && SomeCanRun(after) then 1 else 0)
               else if PostsAStep(events, last) then 1 else before.posted
  {
    var sys := After(Initial, events);
    EveryRunKeepsTheInvariant(events);
    assert (events + [last])[..|events|] == events;
    match last {
      case Add(owner, priority, id, steps, fails) => if owner.Some? { SessionsAreKnown(events, owner.value); }
      case Pause(session, pause) => SessionsAreKnown(events, session);
      case Stop(session) => SessionsAreKnown(events, session);
      case Step =>
        if sys.queue.posted > 0 {
          RunnableMeansUnheld(Ran(sys.queue).operations);
          RanPosts(sys.queue);
        }
      case _ =>
    }
    hide After, IsOpen, IsPaused, Ordered, HoldsThePaused, Ran, FirstRunnable, AnyRunnable;
  }

  lemma RanPosts(s: QueueState)
    requires s.posted == 1
    ensures Ran(s).posted == if AnyRunnable(Ran(s).operations) then 1 else 0
  {
    hide FirstRunnable;
  }
}
