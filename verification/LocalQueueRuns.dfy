/**
 Whole runs of the local operation queue: no operation is lost or ended twice, nothing overtakes an operation of
 its class that is not held, and once no more arrive the queue drains what it does not hold, in queue order.
 */
module LocalQueueRuns {
  import opened Wrappers
  import opened LocalOperationQueue

  // ---------- every operation ends once ----------

  function Arrivals(operations: seq<Queued>): seq<nat> {
    seq(|operations|, i requires 0 <= i < |operations| => operations[i].arrival)
  }

  function EndedArrivals(ended: seq<Ended>): seq<nat> {
    seq(|ended|, i requires 0 <= i < |ended| => ended[i].arrival)
  }

  function UpTo(n: nat): seq<nat> {
    seq(n, i requires 0 <= i < n => i)
  }

  /** The arrivals still queued together with those whose end was told. */
  function Accounted(s: QueueState): multiset<nat> {
    multiset(Arrivals(s.operations)) + multiset(EndedArrivals(s.ended))
  }

  lemma Inserted(numbers: seq<nat>, at: nat, number: nat)
    requires at <= |numbers|
    ensures multiset(numbers[..at] + [number] + numbers[at..]) == multiset(numbers) + multiset{number}
  {
    assert numbers == numbers[..at] + numbers[at..];
  }

  lemma Removed(numbers: seq<nat>, at: nat)
    requires at < |numbers|
    ensures multiset(numbers[..at] + numbers[at + 1..]) + multiset{numbers[at]} == multiset(numbers)
  {
    assert numbers == numbers[..at] + [numbers[at]] + numbers[at + 1..];
  }

  lemma ArrivalsOfInsertion(operations: seq<Queued>, at: nat, placed: Queued)
    requires at <= |operations|
    ensures Arrivals(operations[..at] + [placed] + operations[at..])
         == Arrivals(operations)[..at] + [placed.arrival] + Arrivals(operations)[at..]
  {
  }

  lemma EnqueueAccounts(s: QueueState, queued: Queued)
    ensures Accounted(Enqueued(s, queued)) == Accounted(s) + multiset{s.arrivals}
  {
    hide Arrivals, EndedArrivals, PriorityCount;
    var at := PlaceOf(s.operations, queued.priority);
    ArrivalsOfInsertion(s.operations, at, queued.(arrival := s.arrivals));
    assert |Arrivals(s.operations)| == |s.operations| by { SameLength(s.operations); }
    Inserted(Arrivals(s.operations), at, s.arrivals);
  }

  lemma SameLength(operations: seq<Queued>)
    ensures |Arrivals(operations)| == |operations|
  {
  }

  lemma EndAccounts(s: QueueState, at: nat, reason: Reason)
    requires at < |s.operations|
    ensures Accounted(EndedAt(s, at, reason)) == Accounted(s)
  {
    var before := Arrivals(s.operations);
    Removed(before, at);
    assert Arrivals(EndedAt(s, at, reason).operations) == before[..at] + before[at + 1..];
    assert EndedArrivals(EndedAt(s, at, reason).ended) == EndedArrivals(s.ended) + [before[at]];
  }

  lemma WorkAccounts(s: QueueState)
    ensures Accounted(Worked(s)) == Accounted(s) && Worked(s).arrivals == s.arrivals
  {
    var next := FirstRunnable(s.operations);
    if next < |s.operations| {
      if s.operations[next].steps == 0 {
        EndAccounts(s, next, EndReason(s.operations[next]));
      } else {
        assert Arrivals(Worked(s).operations) == Arrivals(s.operations);
      }
    }
  }

  lemma EventAccounts(sys: System, event: Event)
    ensures var before, after := sys.queue, Next(sys, event).queue;
            if after.arrivals == before.arrivals then Accounted(after) == Accounted(before)
            else
              after.arrivals == before.arrivals + 1
              && Accounted(after) == Accounted(before) + multiset{before.arrivals}
  {
    hide Accounted, Worked, EndedAt, PlaceOf;
    match event
    case Open(session) =>
    case Add(owner, priority, id, steps, fails) =>
      if owner.None? || owner.value in sys.paused {
        var held := owner.Some? && sys.paused[owner.value];
        EnqueueAccounts(sys.queue, Queued(id, owner, held && !priority, priority, steps, fails, 0));
      }
    case Pause(session, pause) => HoldAccounts(sys.queue, session, pause);
    case Stop(session) => HoldAccounts(sys.queue, session, false);
    case Cancel(id) =>
      var at := FirstWithId(sys.queue.operations, id);
      if at < |sys.queue.operations| {
        EndAccounts(sys.queue, at, Canceled);
        EndingAddsNothing(sys.queue, at);
      }
    case Step =>
      if sys.queue.posted > 0 {
        StepAccounts(sys.queue);
      }
  }

  lemma EndingAddsNothing(s: QueueState, at: nat)
    requires at < |s.operations|
    ensures EndedAt(s, at, Canceled).arrivals == s.arrivals
  {
  }

  lemma StepAccounts(s: QueueState)
    requires s.posted > 0
    ensures Accounted(Ran(s)) == Accounted(s) && Ran(s).arrivals == s.arrivals
  {
    hide Worked;
    WorkAccounts(s.(posted := s.posted - 1, scheduled := false));
  }

  lemma HoldAccounts(s: QueueState, owner: SessionId, held: bool)
    ensures Accounted(HeldFor(s, owner, held)) == Accounted(s)
    ensures Accounted(ReleasedFrom(s, owner)) == Accounted(s)
  {
    assert Arrivals(HeldFor(s, owner, held).operations) == Arrivals(s.operations);
    assert Arrivals(ReleasedFrom(s, owner).operations) == Arrivals(s.operations);
  }

  /** In any run every operation ever added is either still queued or was told ended, once. */
  lemma {:induction false} EveryOperationEndsOnce(events: seq<Event>)
    ensures var queue := After(Initial, events).queue; Accounted(queue) == multiset(UpTo(queue.arrivals))
  {
    hide Next, Accounted, UpTo;
    if events == [] {
      NothingIsAccounted();
    } else {
      var front := events[..|events| - 1];
      EveryOperationEndsOnce(front);
      EventAccounts(After(Initial, front), events[|events| - 1]);
      OneMore(After(Initial, front).queue.arrivals);
    }
  }

  lemma NothingIsAccounted()
    ensures Accounted(Initial.queue) == multiset(UpTo(0))
  {
    assert Arrivals([]) == [] && EndedArrivals([]) == [];
  }

  lemma OneMore(n: nat)
    ensures multiset(UpTo(n + 1)) == multiset(UpTo(n)) + multiset{n}
  {
    assert UpTo(n + 1) == UpTo(n) + [n];
  }

  // ---------- nothing is overtaken ----------

  function Find(operations: seq<Queued>, arrival: nat): (at: nat)
    ensures at <= |operations|
    ensures at < |operations| ==> operations[at].arrival == arrival
    ensures forall i | 0 <= i < at :: operations[i].arrival != arrival
  {
    if operations == [] || operations[0].arrival == arrival then 0 else 1 + Find(operations[1..], arrival)
  }

  predicate IsQueued(sys: System, arrival: nat) {
    Find(sys.queue.operations, arrival) < |sys.queue.operations|
  }

  ghost predicate IsHeld(sys: System, arrival: nat) {
    exists i | 0 <= i < |sys.queue.operations| ::
      sys.queue.operations[i].arrival == arrival && sys.queue.operations[i].held
  }

  ghost predicate CancelsArrival(sys: System, event: Event, arrival: nat) {
    && event.Cancel?
    && var at := FirstWithId(sys.queue.operations, event.id);
       at < |sys.queue.operations| && sys.queue.operations[at].arrival == arrival
  }

  /** Both are queued, in one class, and the first arrived earlier. */
  ghost predicate Waits(sys: System, early: nat, late: nat) {
    var operations := sys.queue.operations;
    && early < late && IsQueued(sys, early) && IsQueued(sys, late)
    && operations[Find(operations, early)].priority == operations[Find(operations, late)].priority
  }

  lemma QueuedIsFound(operations: seq<Queued>, i: nat)
    requires i < |operations|
    ensures Find(operations, operations[i].arrival) < |operations|
  {
  }

  lemma FoundWhereItIs(operations: seq<Queued>, arrivals: nat, i: nat)
    requires InOrder(operations, arrivals) && i < |operations|
    ensures Find(operations, operations[i].arrival) == i
  {
    QueuedIsFound(operations, i);
    var j := Find(operations, operations[i].arrival);
    assert j < i ==> FollowsInOrder(operations[j], operations[i]);
  }

  lemma EarlierIsAhead(sys: System, early: nat, late: nat)
    requires Ordered(sys.queue) && Waits(sys, early, late)
    ensures Find(sys.queue.operations, early) < Find(sys.queue.operations, late)
  {
    var operations := sys.queue.operations;
    var e, l := Find(operations, early), Find(operations, late);
    assert l < e ==> FollowsInOrder(operations[l], operations[e]);
  }

  /** Where an operation with this arrival is found, if at all, and in which class. */
  function ClassOf(operations: seq<Queued>, arrival: nat): Option<bool> {
    var at := Find(operations, arrival);
    if at < |operations| then Some(operations[at].priority) else None
  }

  lemma ClassOfMember(operations: seq<Queued>, arrivals: nat, i: nat)
    requires InOrder(operations, arrivals) && i < |operations|
    ensures ClassOf(operations, operations[i].arrival) == Some(operations[i].priority)
  {
    FoundWhereItIs(operations, arrivals, i);
  }

  /** Inserting another operation changes nothing for this one. */
  lemma InsertionKeepsClass(s: QueueState, queued: Queued, arrival: nat)
    requires Ordered(s) && Ordered(Enqueued(s, queued)) && arrival < s.arrivals
    ensures ClassOf(Enqueued(s, queued).operations, arrival) == ClassOf(s.operations, arrival)
  {
    hide InOrder;
    var at := PlaceOf(s.operations, queued.priority);
    var after := Enqueued(s, queued);
    var i := Find(s.operations, arrival);
    if i < |s.operations| {
      var j := if i < at then i else i + 1;
      assert after.operations[j] == s.operations[i];
      ClassOfMember(after.operations, after.arrivals, j);
    } else {
      forall j | 0 <= j < |after.operations| ensures after.operations[j].arrival != arrival {
        if j > at {
          assert after.operations[j] == s.operations[j - 1];
        }
      }
    }
  }

  /** Removing one operation keeps all others and loses that one. */
  lemma RemovalKeepsClass(s: QueueState, at: nat, reason: Reason, arrival: nat)
    requires Ordered(s) && at < |s.operations|
    ensures ClassOf(EndedAt(s, at, reason).operations, arrival) ==
            if arrival == s.operations[at].arrival then None else ClassOf(s.operations, arrival)
  {
    var rest := EndedAt(s, at, reason).operations;
    RemovalKeepsOrder(s.operations, s.arrivals, at);
    var i := Find(s.operations, arrival);
    FoundWhereItIs(s.operations, s.arrivals, at);
    hide InOrder;
    if i < |s.operations| && i != at {
      var j := if i < at then i else i - 1;
      assert rest[j] == s.operations[i];
      ClassOfMember(rest, s.arrivals, j);
    } else {
      forall j | 0 <= j < |rest| ensures rest[j].arrival != arrival {
        var k: nat := if j < at then j else j + 1;
        assert rest[j] == s.operations[k];
        FoundWhereItIs(s.operations, s.arrivals, k);
      }
    }
  }

  lemma {:induction false} UpdatesKeepClass(before: seq<Queued>, after: seq<Queued>, arrival: nat)
    requires |before| == |after|
    requires forall i | 0 <= i < |before| ::
               after[i].arrival == before[i].arrival && after[i].priority == before[i].priority
    ensures ClassOf(after, arrival) == ClassOf(before, arrival)
  {
    if before != [] {
      UpdatesKeepClass(before[1..], after[1..], arrival);
    }
  }

  /** The operation an event ends, if any. */
  function EndedBy(sys: System, event: Event): Option<nat> {
    match event
    case Cancel(id) =>
      var at := FirstWithId(sys.queue.operations, id);
      if at < |sys.queue.operations| then Some(sys.queue.operations[at].arrival) else None
    case Step =>
      var next := FirstRunnable(sys.queue.operations);
      if sys.queue.posted > 0 && next < |sys.queue.operations| && sys.queue.operations[next].steps == 0
      then Some(sys.queue.operations[next].arrival) else None
    case _ => None
  }

  /** No event moves an operation to the other class, and only its end takes it out of the queue. */
  lemma OnlyEndsTakeOut(sys: System, event: Event, arrival: nat)
    requires Ordered(sys.queue) && Awake(sys.queue) && arrival < sys.queue.arrivals
    ensures ClassOf(Next(sys, event).queue.operations, arrival) ==
            if EndedBy(sys, event) == Some(arrival) then None else ClassOf(sys.queue.operations, arrival)
  {
    hide InOrder, EndedAt, ClassOf, PlaceOf;
    match event
    case Open(session) =>
    case Add(owner, priority, id, steps, fails) =>
      if owner.None? || owner.value in sys.paused {
        var held := owner.Some? && sys.paused[owner.value];
        var queued := Queued(id, owner, held && !priority, priority, steps, fails, 0);
        EnqueueKeepsOrder(sys.queue, queued);
        InsertionKeepsClass(sys.queue, queued, arrival);
      }
    case Pause(session, pause) =>
      UpdatesKeepClass(sys.queue.operations, HeldFor(sys.queue, session, pause).operations, arrival);
    case Stop(session) =>
      UpdatesKeepClass(sys.queue.operations, ReleasedFrom(sys.queue, session).operations, arrival);
    case Cancel(id) =>
      var at := FirstWithId(sys.queue.operations, id);
      if at < |sys.queue.operations| {
        RemovalKeepsClass(sys.queue, at, Canceled, arrival);
      }
    case Step =>
      if sys.queue.posted > 0 {
        WorkKeepsClass(sys.queue, arrival);
      }
  }

  lemma WorkKeepsClass(s: QueueState, arrival: nat)
    requires Ordered(s) && s.posted > 0
    ensures var next := FirstRunnable(s.operations);
            ClassOf(Ran(s).operations, arrival) ==
            if next < |s.operations| && s.operations[next].steps == 0 && s.operations[next].arrival == arrival then None
            else ClassOf(s.operations, arrival)
  {
    hide InOrder, ClassOf;
    var idle := s.(posted := s.posted - 1, scheduled := false);
    var next := FirstRunnable(s.operations);
    if next < |s.operations| {
      if s.operations[next].steps == 0 {
        RemovalKeepsClass(idle, next, EndReason(s.operations[next]), arrival);
      } else {
        UpdatesKeepClass(idle.operations, Worked(idle).operations, arrival);
      }
    }
  }

  lemma NothingEndsTheLater(sys: System, event: Event, early: nat, late: nat)
    requires Ordered(sys.queue) && Waits(sys, early, late)
    requires !IsHeld(sys, early) && !CancelsArrival(sys, event, late)
    ensures EndedBy(sys, event) != Some(late)
  {
    var operations := sys.queue.operations;
    var next := FirstRunnable(operations);
    EarlierIsAhead(sys, early, late);
    assert !operations[Find(operations, early)].held;
    assert next <= Find(operations, early);
    FoundWhereItIs(operations, sys.queue.arrivals, next);
  }

  /** While the earlier one is queued and not held, no event but a cancel ends the later one. */
  lemma EventKeepsWaiting(sys: System, event: Event, early: nat, late: nat)
    requires Ordered(sys.queue) && Awake(sys.queue) && Waits(sys, early, late) && late < sys.queue.arrivals
    requires !IsHeld(sys, early) && !CancelsArrival(sys, event, late)
    ensures IsQueued(Next(sys, event), early) ==> Waits(Next(sys, event), early, late)
  {
    NothingEndsTheLater(sys, event, early, late);
    hide Next, EndedBy;
    OnlyEndsTakeOut(sys, event, early);
    OnlyEndsTakeOut(sys, event, late);
  }

  lemma ArrivalsOnlyGrow(sys: System, event: Event)
    ensures Next(sys, event).queue.arrivals >= sys.queue.arrivals
  {
  }

  /** The condition of the next theorem, at every state and event of a run. */
  ghost predicate Unhindered(sys: System, events: seq<Event>, early: nat, late: nat) {
    && (forall k | 0 <= k <= |events| :: !IsHeld(After(sys, events[..k]), early))
    && (forall k | 0 <= k < |events| :: !CancelsArrival(After(sys, events[..k]), events[k], late))
  }

  lemma UnhinderedBefore(sys: System, events: seq<Event>, early: nat, late: nat)
    requires events != [] && Unhindered(sys, events, early, late)
    ensures var front := events[..|events| - 1];
            && Unhindered(sys, front, early, late) && !IsHeld(After(sys, front), early)
            && !CancelsArrival(After(sys, front), events[|events| - 1], late)
  {
    hide IsHeld, CancelsArrival, After;
    var front := events[..|events| - 1];
    assert forall k | 0 <= k <= |front| :: front[..k] == events[..k];
  }

  /**
   From any state with two operations of one class queued: whatever arrives, pauses, stops or is canceled, the
   later one is still queued for as long as the earlier one is, if the earlier is never held and the later not
   canceled. So they end in arrival order.
   */
  lemma {:induction false} ClassesEndInArrivalOrder(sys: System, events: seq<Event>, early: nat, late: nat)
    requires Ordered(sys.queue) && Awake(sys.queue) && Waits(sys, early, late) && early < late < sys.queue.arrivals
    requires Unhindered(sys, events, early, late)
    ensures var end := After(sys, events);
            && Ordered(end.queue) && Awake(end.queue) && late < end.queue.arrivals
            && (IsQueued(end, early) ==> Waits(end, early, late))
  {
    hide Ordered, Awake, Waits, IsHeld, CancelsArrival, Next, Unhindered;
    if events != [] {
      var front, event := events[..|events| - 1], events[|events| - 1];
      UnhinderedBefore(sys, events, early, late);
      ClassesEndInArrivalOrder(sys, front, early, late);
      var before := After(sys, front);
      EveryEventKeepsQueue(before, event);
      ArrivalsOnlyGrow(before, event);
      if IsQueued(before, early) {
        EventKeepsWaiting(before, event, early, late);
      } else {
        GoneStaysGone(before, event, early);
      }
    }
  }

  lemma GoneStaysGone(sys: System, event: Event, gone: nat)
    requires Ordered(sys.queue) && Awake(sys.queue) && gone < sys.queue.arrivals && !IsQueued(sys, gone)
    ensures !IsQueued(Next(sys, event), gone)
  {
    hide Next, EndedBy;
    OnlyEndsTakeOut(sys, event, gone);
  }

  // ---------- draining ----------

  /** The work left in the operations that are not held. */
  function StepsLeft(operations: seq<Queued>): nat {
    if operations == [] then 0
    else (if operations[0].held then 0 else operations[0].steps + 1) + StepsLeft(operations[1..])
  }

  function Kept(operations: seq<Queued>): seq<Queued> {
    if operations == [] then []
    else (if operations[0].held then [operations[0]] else []) + Kept(operations[1..])
  }

  /** The ends of all operations that are not held, in queue order. */
  function Ends(operations: seq<Queued>): seq<Ended> {
    if operations == [] then []
    else (if operations[0].held then [] else [EndOf(operations[0], EndReason(operations[0]))]) + Ends(operations[1..])
  }

  /** One work step on the operations alone. */
  function WorkedOn(operations: seq<Queued>): seq<Queued> {
    Worked(QueueState(operations, false, 0, [], 0)).operations
  }

  function ToldBy(operations: seq<Queued>): seq<Ended> {
    Worked(QueueState(operations, false, 0, [], 0)).ended
  }

  lemma WorkPassesTheHeld(operations: seq<Queued>)
    requires operations != [] && operations[0].held
    ensures WorkedOn(operations) == [operations[0]] + WorkedOn(operations[1..])
    ensures ToldBy(operations) == ToldBy(operations[1..])
    ensures AnyRunnable(operations) == AnyRunnable(operations[1..])
  {
    var rest := operations[1..];
    var next := FirstRunnable(rest);
    if next < |rest| && rest[next].steps == 0 {
      assert operations[..next + 1] + operations[next + 2..] == [operations[0]] + (rest[..next] + rest[next + 1..]);
    }
  }

  lemma WorkTakesTheFirst(operations: seq<Queued>)
    requires operations != [] && !operations[0].held
    ensures AnyRunnable(operations)
    ensures operations[0].steps == 0 ==>
              && WorkedOn(operations) == operations[1..]
              && ToldBy(operations) == [EndOf(operations[0], EndReason(operations[0]))]
    ensures operations[0].steps > 0 ==>
              && WorkedOn(operations) == [operations[0].(steps := operations[0].steps - 1)] + operations[1..]
              && ToldBy(operations) == []
  {
  }

  lemma Unfold(first: Queued, rest: seq<Queued>)
    ensures StepsLeft([first] + rest) == (if first.held then 0 else first.steps + 1) + StepsLeft(rest)
    ensures Kept([first] + rest) == (if first.held then [first] else []) + Kept(rest)
    ensures Ends([first] + rest) == (if first.held then [] else [EndOf(first, EndReason(first))]) + Ends(rest)
  {
    assert ([first] + rest)[1..] == rest;
  }

  /** A work step does one unit of the work left, keeps what is held, and tells ends in queue order. */
  lemma {:induction false} WorkDoesOneStep(operations: seq<Queued>)
    ensures StepsLeft(WorkedOn(operations)) == if AnyRunnable(operations) then StepsLeft(operations) - 1 else 0
    ensures AnyRunnable(operations) <==> StepsLeft(operations) > 0
    ensures Kept(WorkedOn(operations)) == Kept(operations)
    ensures ToldBy(operations) + Ends(WorkedOn(operations)) == Ends(operations)
  {
    if operations != [] {
      var first, rest := operations[0], operations[1..];
      assert operations == [first] + rest;
      Unfold(first, rest);
      WorkDoesOneStep(rest);
      if first.held {
        WorkPassesTheHeld(operations);
        Unfold(first, WorkedOn(rest));
        StepByStep(operations, first, rest);
      } else {
        WorkTakesTheFirst(operations);
        StepTaken(operations, first, rest);
      }
    }
  }

  lemma StepByStep(operations: seq<Queued>, first: Queued, rest: seq<Queued>)
    requires first.held && Ends([first] + WorkedOn(rest)) == Ends(WorkedOn(rest)) && Ends(operations) == Ends(rest)
    requires ToldBy(rest) + Ends(WorkedOn(rest)) == Ends(rest)
    ensures ToldBy(rest) + Ends([first] + WorkedOn(rest)) == Ends(operations)
  {
  }

  lemma StepTaken(operations: seq<Queued>, first: Queued, rest: seq<Queued>)
    requires operations == [first] + rest && !first.held
    ensures StepsLeft(WorkedOn(operations)) == StepsLeft(operations) - 1
    ensures Kept(WorkedOn(operations)) == Kept(operations)
    ensures ToldBy(operations) + Ends(WorkedOn(operations)) == Ends(operations)
  {
    assert operations[1..] == rest;
    WorkTakesTheFirst(operations);
    Unfold(first, rest);
    hide WorkedOn, ToldBy;
    if first.steps > 0 {
      Unfold(first.(steps := first.steps - 1), rest);
    }
  }

  lemma WorkedIsWorkedOn(s: QueueState)
    ensures Worked(s).operations == WorkedOn(s.operations)
    ensures Worked(s).ended == s.ended + ToldBy(s.operations)
    ensures Worked(s).scheduled == s.scheduled && Worked(s).posted == s.posted
  {
    var next := FirstRunnable(s.operations);
  }

  /** The queue once every posted step has run and nothing else happens. */
  function Drained(s: QueueState): QueueState
    decreases StepsLeft(s.operations), s.posted
  {
    if s.posted == 0 then s
    else
      assert StepsLeft(Ran(s).operations) < StepsLeft(s.operations)
          || (StepsLeft(Ran(s).operations) == StepsLeft(s.operations) && Ran(s).posted < s.posted) by {
        RunningMakesProgress(s);
      }
      Drained(Ran(s))
  }

  lemma RunningMakesProgress(s: QueueState)
    requires s.posted > 0
    ensures StepsLeft(Ran(s).operations) <= StepsLeft(s.operations)
    ensures StepsLeft(Ran(s).operations) == StepsLeft(s.operations) ==> Ran(s).posted < s.posted
  {
    WorkedIsWorkedOn(s.(posted := s.posted - 1, scheduled := false));
    WorkDoesOneStep(s.operations);
    WorkDoesOneStep(WorkedOn(s.operations));
  }

  lemma RunningWorks(s: QueueState)
    requires s.posted > 0
    ensures Ran(s).operations == WorkedOn(s.operations) && Ran(s).ended == s.ended + ToldBy(s.operations)
    ensures Awake(s) ==> Awake(Ran(s))
  {
    hide Worked, WorkedOn, ToldBy, FirstRunnable;
    WorkedIsWorkedOn(s.(posted := s.posted - 1, scheduled := false));
  }

  /**
   Once nothing arrives any more the posted steps stop; then no step is posted, every operation that was not held
   has ended, in queue order, and the held ones are as they were.
   */
  lemma {:induction false} QueueDrainsWhatItDoesNotHold(s: QueueState)
    requires Awake(s)
    ensures var end := Drained(s);
            && end.posted == 0 && !end.scheduled && !AnyRunnable(end.operations)
            && end.operations == Kept(s.operations)
            && end.ended == s.ended + Ends(s.operations)
    decreases StepsLeft(s.operations), s.posted
  {
    hide WorkedOn, ToldBy, Ran, AnyRunnable, Kept, Ends, StepsLeft;
    WorkDoesOneStep(s.operations);
    if s.posted == 0 {
      NothingLeftMeansAllHeld(s.operations);
    } else {
      RunningMakesProgress(s);
      RunningWorks(s);
      QueueDrainsWhatItDoesNotHold(Ran(s));
      assert s.ended + ToldBy(s.operations) + Ends(WorkedOn(s.operations))
          == s.ended + (ToldBy(s.operations) + Ends(WorkedOn(s.operations)));
    }
  }

  lemma {:induction false} NothingLeftMeansAllHeld(operations: seq<Queued>)
    requires !AnyRunnable(operations)
    ensures Kept(operations) == operations && Ends(operations) == []
  {
    if operations != [] {
      NothingLeftMeansAllHeld(operations[1..]);
    }
  }

  // ---------- pausing and stopping ----------

  /** A step does not touch the ordinary operations of a paused session. */
  lemma PausedOperationsDoNotMove(sys: System, i: nat)
    requires Invariant(sys) && i < |sys.queue.operations| && ShouldHold(sys.queue.operations[i], sys.paused)
    ensures sys.queue.operations[i] in Next(sys, Step).queue.operations
  {
    var before := sys.queue.operations;
    assert WellHeld(before[i], sys.paused);
    if sys.queue.posted > 0 {
      var after := Ran(sys.queue).operations;
      var next := FirstRunnable(before);
      if next < |before| && before[next].steps == 0 {
        assert after[if i < next then i else i - 1] == before[i];
      } else {
        assert after[i] == before[i];
      }
    }
  }

  /** The operation of that arrival, if it is queued, belongs to no session and is not held. */
  ghost predicate RunsOnItsOwn(sys: System, arrival: nat) {
    && arrival < sys.queue.arrivals
    && forall i | 0 <= i < |sys.queue.operations| && sys.queue.operations[i].arrival == arrival ::
         sys.queue.operations[i].owner.None? && !sys.queue.operations[i].held
  }

  lemma EventsLeaveItOnItsOwn(sys: System, event: Event, arrival: nat)
    requires RunsOnItsOwn(sys, arrival)
    ensures RunsOnItsOwn(Next(sys, event), arrival)
  {
    hide FirstRunnable, PriorityCount, FirstWithId;
  }

  lemma {:induction false} RunsLeaveItOnItsOwn(sys: System, events: seq<Event>, arrival: nat)
    requires RunsOnItsOwn(sys, arrival)
    ensures RunsOnItsOwn(After(sys, events), arrival)
  {
    hide RunsOnItsOwn, Next;
    if events != [] {
      RunsLeaveItOnItsOwn(sys, events[..|events| - 1], arrival);
      EventsLeaveItOnItsOwn(After(sys, events[..|events| - 1]), events[|events| - 1], arrival);
    }
  }

  lemma StoppingFrees(sys: System, session: SessionId, i: nat)
    requires Invariant(sys) && session in sys.paused && i < |sys.queue.operations|
    requires sys.queue.operations[i].owner == Some(session)
    ensures RunsOnItsOwn(Next(sys, Stop(session)), sys.queue.operations[i].arrival)
  {
    var operations := sys.queue.operations;
    assert ArrivedUnheld(operations[i], sys.queue.arrivals);
    forall j | 0 <= j < |operations| && operations[j].arrival == operations[i].arrival ensures j == i {
      assert j < i ==> FollowsInOrder(operations[j], operations[i]);
      assert i < j ==> FollowsInOrder(operations[i], operations[j]);
    }
  }

  lemma {:induction false} RunsContinue(sys: System, first: seq<Event>, later: seq<Event>)
    ensures After(sys, first + later) == After(After(sys, first), later)
  {
    hide Next;
    if later == [] {
      assert first + later == first;
    } else {
      var front := later[..|later| - 1];
      assert (first + later)[..|first + later| - 1] == first + front;
      RunsContinue(sys, first, front);
    }
  }

  /** Of an unheld operation in the queue, the end is among those draining tells. */
  lemma {:induction false} UnheldEnd(operations: seq<Queued>, i: nat)
    requires i < |operations| && !operations[i].held
    ensures operations[i].arrival in EndedArrivals(Ends(operations))
  {
    var first := if operations[0].held then [] else [EndOf(operations[0], EndReason(operations[0]))];
    var rest := operations[1..];
    assert Ends(operations) == first + Ends(rest);
    if i > 0 {
      UnheldEnd(rest, i - 1);
      var k :| 0 <= k < |Ends(rest)| && EndedArrivals(Ends(rest))[k] == operations[i].arrival;
      assert EndedArrivals(Ends(operations))[|first| + k] == operations[i].arrival;
    } else {
      assert EndedArrivals(Ends(operations))[0] == operations[0].arrival;
    }
  }

  lemma QueuedOrEnded(s: QueueState, arrival: nat)
    requires Accounted(s) == multiset(UpTo(s.arrivals)) && arrival < s.arrivals
    ensures (exists i | 0 <= i < |s.operations| :: s.operations[i].arrival == arrival)
            || arrival in EndedArrivals(s.ended)
  {
    assert UpTo(s.arrivals)[arrival] == arrival;
    assert arrival in multiset(UpTo(s.arrivals));
    if arrival in Arrivals(s.operations) {
      var i :| 0 <= i < |s.operations| && Arrivals(s.operations)[i] == arrival;
    }
  }

  /** What runs on its own has ended once the queue has drained. */
  lemma FreedOperationsEnd(sys: System, arrival: nat)
    requires Awake(sys.queue) && RunsOnItsOwn(sys, arrival)
    requires Accounted(sys.queue) == multiset(UpTo(sys.queue.arrivals))
    ensures multiset(EndedArrivals(Drained(sys.queue).ended))[arrival] == 1
  {
    var s := sys.queue;
    QueueDrainsWhatItDoesNotHold(s);
    QueuedOrEnded(s, arrival);
    DrainingAccounts(s);
    EachArrivalOnce(s.arrivals, arrival);
    hide Drained, Ends, EndedArrivals;
    if i :| 0 <= i < |s.operations| && s.operations[i].arrival == arrival {
      UnheldEnd(s.operations, i);
    }
    EndedIn(s.ended, Ends(s.operations), arrival);
    assert arrival in multiset(EndedArrivals(Drained(s).ended));
  }

  lemma {:induction false} EachArrivalOnce(n: nat, arrival: nat)
    ensures multiset(UpTo(n))[arrival] == if arrival < n then 1 else 0
  {
    if n > 0 {
      OneMore(n - 1);
      EachArrivalOnce(n - 1, arrival);
    }
  }

  lemma {:induction false} DrainingAccounts(s: QueueState)
    ensures Accounted(Drained(s)) == Accounted(s)
    decreases StepsLeft(s.operations), s.posted
  {
    hide Accounted, Ran, StepsLeft;
    if s.posted > 0 {
      RunningMakesProgress(s);
      StepAccounts(s);
      DrainingAccounts(Ran(s));
    }
  }

  lemma EndedIn(a: seq<Ended>, b: seq<Ended>, arrival: nat)
    requires arrival in EndedArrivals(a) || arrival in EndedArrivals(b)
    ensures arrival in EndedArrivals(a + b)
  {
    assert EndedArrivals(a + b) == EndedArrivals(a) + EndedArrivals(b);
  }

  /**
   In every reachable state, once a session stops: whatever happens afterwards, also when its id is opened and paused
   again, what it owned belongs to no session and is not held for as long as it is queued, and has ended, once, when
   the queue has drained.
   */
  lemma StoppedOperationsRunAgain(before: seq<Event>, session: SessionId, i: nat, events: seq<Event>)
    requires var sys := After(Initial, before);
             session in sys.paused && i < |sys.queue.operations| && sys.queue.operations[i].owner == Some(session)
    ensures var arrival := After(Initial, before).queue.operations[i].arrival;
            var later := After(Initial, before + [Stop(session)] + events);
            && RunsOnItsOwn(later, arrival)
            && multiset(EndedArrivals(Drained(later.queue).ended))[arrival] == 1
  {
    var sys := After(Initial, before);
    var arrival := sys.queue.operations[i].arrival;
    var stopped := before + [Stop(session)];
    EveryRunKeepsTheInvariant(before);
    StoppingFrees(sys, session, i);
    assert stopped[..|before|] == before;
    RunsLeaveItOnItsOwn(After(Initial, stopped), events, arrival);
    RunsContinue(Initial, stopped, events);
    EveryRunKeepsTheInvariant(stopped + events);
    EveryOperationEndsOnce(stopped + events);
    hide After, RunsOnItsOwn, Drained, Accounted;
    FreedOperationsEnd(After(Initial, stopped + events), arrival);
  }
}
