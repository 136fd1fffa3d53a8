/**
 The queue of local deletes, copies and moves (local_operation_queue.cpp), and the sessions that pause it
 (session.cpp). Every task on the strand is one step; a posted step is counted by the executor. An operation is
 the number of work steps it needs before its last one, and whether that one fails.
 */
module LocalOperationQueue {
  import opened Wrappers

  type OperationId = int

  type SessionId = int

  /** A queued operation; arrival numbers the operations in the order they were enqueued. */
  datatype Queued = Queued(
    id: OperationId, owner: Option<SessionId>, held: bool, priority: bool, steps: nat, fails: bool, arrival: nat)

  datatype Reason = Completed | Failed | Canceled

  datatype Ended = Ended(arrival: nat, id: OperationId, reason: Reason)

  /** posted counts the executor's pending work tasks, ended the completions told, in order. */
  datatype QueueState = QueueState(
    operations: seq<Queued>, scheduled: bool, posted: nat, ended: seq<Ended>, arrivals: nat)

  // ---------- the operations on values ----------

  function Scheduled(s: QueueState): QueueState {
    if s.scheduled then s else s.(scheduled := true, posted := s.posted + 1)
  }

  function PriorityCount(operations: seq<Queued>): (n: nat)
    ensures n <= |operations|
    ensures forall i | 0 <= i < n :: operations[i].priority
    ensures n < |operations| ==> !operations[n].priority
  {
    if operations != [] && operations[0].priority then 1 + PriorityCount(operations[1..]) else 0
  }

  function PlaceOf(operations: seq<Queued>, priority: bool): (n: nat)
    ensures n <= |operations|
  {
    if priority then PriorityCount(operations) else |operations|
  }

  function Enqueued(s: QueueState, queued: Queued): QueueState {
    var at := PlaceOf(s.operations, queued.priority);
    var placed := queued.(arrival := s.arrivals);
    Scheduled(s.(
      operations := s.operations[..at] + [placed] + s.operations[at..], arrivals := s.arrivals + 1))
  }

  function HoldOne(queued: Queued, owner: SessionId, held: bool): Queued {
    if queued.owner == Some(owner) && !queued.priority then queued.(held := held) else queued
  }

  function HeldFor(s: QueueState, owner: SessionId, held: bool): QueueState {
    var changed := s.(operations :=
      seq(|s.operations|, i requires 0 <= i < |s.operations| => HoldOne(s.operations[i], owner, held)));
    if held then changed else Scheduled(changed)
  }

  function ReleaseOne(queued: Queued, owner: SessionId): Queued {
    if queued.owner == Some(owner) then queued.(owner := None, held := false) else queued
  }

  function ReleasedFrom(s: QueueState, owner: SessionId): QueueState {
    Scheduled(s.(operations :=
      seq(|s.operations|, i requires 0 <= i < |s.operations| => ReleaseOne(s.operations[i], owner))))
  }

  function EndOf(queued: Queued, reason: Reason): Ended {
    Ended(queued.arrival, queued.id, reason)
  }

  function EndedAt(s: QueueState, at: nat, reason: Reason): QueueState
    requires at < |s.operations|
  {
    s.(
      operations := s.operations[..at] + s.operations[at + 1..],
      ended := s.ended + [EndOf(s.operations[at], reason)])
  }

  function FirstWithId(operations: seq<Queued>, id: OperationId): (n: nat)
    ensures n <= |operations|
    ensures n < |operations| ==> operations[n].id == id
    ensures forall i | 0 <= i < n :: operations[i].id != id
  {
    if operations == [] || operations[0].id == id then 0 else 1 + FirstWithId(operations[1..], id)
  }

  function CanceledById(s: QueueState, id: OperationId): QueueState {
    var at := FirstWithId(s.operations, id);
    if at == |s.operations| then s else EndedAt(s, at, Canceled)
  }

  function FirstRunnable(operations: seq<Queued>): (n: nat)
    ensures n <= |operations|
    ensures n < |operations| ==> !operations[n].held
    ensures forall i | 0 <= i < n :: operations[i].held
  {
    if operations == [] || !operations[0].held then 0 else 1 + FirstRunnable(operations[1..])
  }

  predicate AnyRunnable(operations: seq<Queued>) {
    FirstRunnable(operations) < |operations|
  }

  function EndReason(queued: Queued): Reason {
    if queued.fails then Failed else Completed
  }

  function Worked(s: QueueState): QueueState {
    var next := FirstRunnable(s.operations);
    if next == |s.operations| then s
    else if s.operations[next].steps == 0 then EndedAt(s, next, EndReason(s.operations[next]))
    else s.(operations := s.operations[next := s.operations[next].(steps := s.operations[next].steps - 1)])
  }

  /** The posted task: the next one is only posted from within it. */
  function Ran(s: QueueState): QueueState
    requires s.posted > 0
  {
    var worked := Worked(s.(posted := s.posted - 1, scheduled := false));
    if AnyRunnable(worked.operations) then Scheduled(worked) else worked
  }

  // ---------- the sessions ----------

  /** The sessions that exist, each with whether its queue is paused; a session opens paused. */
  datatype System = System(queue: QueueState, paused: map<SessionId, bool>)

  datatype Event =
    | Open(session: SessionId)
    | Add(owner: Option<SessionId>, priority: bool, id: OperationId, steps: nat, fails: bool)
    | Pause(session: SessionId, pause: bool)
    | Stop(session: SessionId)
    | Cancel(id: OperationId)
    | Step

  function Next(sys: System, event: Event): System {
    match event
    case Open(session) => if session in sys.paused then sys else sys.(paused := sys.paused[session := true])
    case Add(owner, priority, id, steps, fails) =>
      if owner.Some? && owner.value !in sys.paused then sys
      else
        var held := owner.Some? && sys.paused[owner.value];
        sys.(queue := Enqueued(sys.queue, Queued(id, owner, held && !priority, priority, steps, fails, 0)))
    case Pause(session, pause) =>
      if session !in sys.paused then sys
      else System(HeldFor(sys.queue, session, pause), sys.paused[session := pause])
    case Stop(session) =>
      if session !in sys.paused then sys
      else System(ReleasedFrom(sys.queue, session), map s | s in sys.paused && s != session :: sys.paused[s])
    case Cancel(id) => sys.(queue := CanceledById(sys.queue, id))
    case Step => if sys.queue.posted == 0 then sys else sys.(queue := Ran(sys.queue))
  }

  const Initial: System := System(QueueState([], false, 0, [], 0), map[])

  function After(sys: System, events: seq<Event>): System {
    if events == [] then sys else Next(After(sys, events[..|events| - 1]), events[|events| - 1])
  }

  // ---------- what every step keeps ----------

  /** Priority operations come first and are never held; each class is in arrival order. */
  ghost predicate InOrder(operations: seq<Queued>, arrivals: nat) {
    && (forall i, j | 0 <= i < j < |operations| :: FollowsInOrder(operations[i], operations[j]))
    && (forall i | 0 <= i < |operations| :: ArrivedUnheld(operations[i], arrivals))
  }

  predicate FollowsInOrder(a: Queued, b: Queued) {
    && (b.priority ==> a.priority) && a.arrival != b.arrival
    && (a.priority == b.priority ==> a.arrival < b.arrival)
  }

  predicate ArrivedUnheld(queued: Queued, arrivals: nat) {
    queued.arrival < arrivals && (queued.priority ==> !queued.held)
  }

  ghost predicate Ordered(s: QueueState) {
    InOrder(s.operations, s.arrivals)
  }

  /** At most one step is posted, and one is while anything can run. */
  ghost predicate Awake(s: QueueState) {
    && s.posted == (if s.scheduled then 1 else 0)
    && (AnyRunnable(s.operations) ==> s.scheduled)
  }

  predicate ShouldHold(queued: Queued, paused: map<SessionId, bool>) {
    !queued.priority && queued.owner.Some? && queued.owner.value in paused && paused[queued.owner.value]
  }

  /** An operation is held exactly while its session exists and is paused, and it is no priority operation. */
  predicate WellHeld(queued: Queued, paused: map<SessionId, bool>) {
    (queued.held <==> ShouldHold(queued, paused)) && (queued.owner.Some? ==> queued.owner.value in paused)
  }

  ghost predicate HoldsThePaused(sys: System) {
    forall i | 0 <= i < |sys.queue.operations| :: WellHeld(sys.queue.operations[i], sys.paused)
  }

  ghost predicate Invariant(sys: System) {
    Ordered(sys.queue) && Awake(sys.queue) && HoldsThePaused(sys)
  }

  lemma EnqueueKeepsOrder(s: QueueState, queued: Queued)
    requires Ordered(s) && (queued.priority ==> !queued.held)
    ensures Ordered(Enqueued(s, queued))
  {
    var at := PlaceOf(s.operations, queued.priority);
    var placed := queued.(arrival := s.arrivals);
    forall i | 0 <= i < |s.operations|
      ensures if i < at then FollowsInOrder(s.operations[i], placed) else FollowsInOrder(placed, s.operations[i])
    {
      assert ArrivedUnheld(s.operations[i], s.arrivals);
      if queued.priority && at < i {
        assert FollowsInOrder(s.operations[at], s.operations[i]);
      }
    }
    InsertionKeepsOrder(s.operations, s.arrivals, at, placed);
  }

  lemma InsertionKeepsOrder(operations: seq<Queued>, arrivals: nat, at: nat, placed: Queued)
    requires InOrder(operations, arrivals) && at <= |operations|
    requires forall i | 0 <= i < |operations| ::
               if i < at then FollowsInOrder(operations[i], placed) else FollowsInOrder(placed, operations[i])
    requires ArrivedUnheld(placed, arrivals + 1)
    ensures InOrder(operations[..at] + [placed] + operations[at..], arrivals + 1)
  {
    hide FollowsInOrder;
    assert forall i | 0 <= i < |operations| :: ArrivedUnheld(operations[i], arrivals + 1);
  }

  lemma RemovalKeepsOrder(operations: seq<Queued>, arrivals: nat, at: nat)
    requires InOrder(operations, arrivals) && at < |operations|
    ensures InOrder(operations[..at] + operations[at + 1..], arrivals)
  {
    hide FollowsInOrder, ArrivedUnheld;
  }

  /** Changing holds, owners and progress changes no order. */
  lemma UpdatesKeepOrder(before: seq<Queued>, after: seq<Queued>, arrivals: nat)
    requires InOrder(before, arrivals) && |before| == |after|
    requires forall i | 0 <= i < |before| ::
               && after[i].priority == before[i].priority && after[i].arrival == before[i].arrival
               && (after[i].priority ==> !after[i].held)
    ensures InOrder(after, arrivals)
  {
    forall i, j | 0 <= i < j < |after| ensures FollowsInOrder(after[i], after[j]) {
      assert FollowsInOrder(before[i], before[j]);
    }
    forall i | 0 <= i < |after| ensures ArrivedUnheld(after[i], arrivals) {
      assert ArrivedUnheld(before[i], arrivals);
    }
  }

  lemma WorkKeepsOrder(s: QueueState)
    requires Ordered(s)
    ensures Ordered(Worked(s))
  {
    var next := FirstRunnable(s.operations);
    if next < |s.operations| {
      if s.operations[next].steps == 0 {
        RemovalKeepsOrder(s.operations, s.arrivals, next);
      } else {
        assert forall i | 0 <= i < |s.operations| :: ArrivedUnheld(s.operations[i], s.arrivals);
        UpdatesKeepOrder(s.operations, Worked(s).operations, s.arrivals);
      }
    }
  }

  lemma StepKeepsQueue(s: QueueState)
    requires Ordered(s) && Awake(s) && s.posted > 0
    ensures Ordered(Ran(s)) && Awake(Ran(s))
  {
    hide InOrder, FirstRunnable;
    WorkKeepsOrder(s.(posted := s.posted - 1, scheduled := false));
  }

  lemma RunnableMeansUnheld(operations: seq<Queued>)
    ensures AnyRunnable(operations) <==> exists i | 0 <= i < |operations| :: !operations[i].held
  {
  }

  /** Canceling one operation makes no other runnable. */
  lemma RemovalWakesNothing(s: QueueState, at: nat, reason: Reason)
    requires at < |s.operations| && AnyRunnable(EndedAt(s, at, reason).operations)
    ensures AnyRunnable(s.operations)
  {
    var rest := EndedAt(s, at, reason).operations;
    var i := FirstRunnable(rest);
    assert rest[i] == if i < at then s.operations[i] else s.operations[i + 1];
    RunnableMeansUnheld(s.operations);
  }

  lemma HoldingKeepsQueue(s: QueueState, owner: SessionId, held: bool)
    requires Ordered(s) && Awake(s)
    ensures Ordered(HeldFor(s, owner, held)) && Awake(HeldFor(s, owner, held))
  {
    var after := HeldFor(s, owner, held);
    assert forall i | 0 <= i < |s.operations| :: ArrivedUnheld(s.operations[i], s.arrivals);
    UpdatesKeepOrder(s.operations, after.operations, s.arrivals);
    hide InOrder;
    if AnyRunnable(after.operations) && held {
      var i := FirstRunnable(after.operations);
      assert !s.operations[i].held;
      RunnableMeansUnheld(s.operations);
    }
  }

  lemma ReleasingKeepsQueue(s: QueueState, owner: SessionId)
    requires Ordered(s) && Awake(s)
    ensures Ordered(ReleasedFrom(s, owner)) && Awake(ReleasedFrom(s, owner))
  {
    assert forall i | 0 <= i < |s.operations| :: ArrivedUnheld(s.operations[i], s.arrivals);
    UpdatesKeepOrder(s.operations, ReleasedFrom(s, owner).operations, s.arrivals);
  }

  lemma EveryEventKeepsQueue(sys: System, event: Event)
    requires Ordered(sys.queue) && Awake(sys.queue)
    ensures Ordered(Next(sys, event).queue) && Awake(Next(sys, event).queue)
  {
    hide Ran, HeldFor, ReleasedFrom, InOrder;
    match event
    case Open(session) =>
    case Add(owner, priority, id, steps, fails) =>
      if owner.None? || owner.value in sys.paused {
        var held := owner.Some? && sys.paused[owner.value];
        EnqueueKeepsOrder(sys.queue, Queued(id, owner, held && !priority, priority, steps, fails, 0));
      }
    case Pause(session, pause) => HoldingKeepsQueue(sys.queue, session, pause);
    case Stop(session) => ReleasingKeepsQueue(sys.queue, session);
    case Cancel(id) =>
      var at := FirstWithId(sys.queue.operations, id);
      if at < |sys.queue.operations| {
        RemovalKeepsOrder(sys.queue.operations, sys.queue.arrivals, at);
        CancelKeepsAwake(sys.queue, at);
      }
    case Step =>
      if sys.queue.posted > 0 {
        StepKeepsQueue(sys.queue);
      }
  }

  lemma CancelKeepsAwake(s: QueueState, at: nat)
    requires Awake(s) && at < |s.operations|
    ensures Awake(EndedAt(s, at, Canceled))
  {
    if AnyRunnable(EndedAt(s, at, Canceled).operations) {
      RemovalWakesNothing(s, at, Canceled);
    }
  }

  lemma EveryEventHoldsThePaused(sys: System, event: Event)
    requires HoldsThePaused(sys)
    ensures HoldsThePaused(Next(sys, event))
  {
    match event
    case Open(session) => OpeningChangesNoHold(sys, session);
    case Add(owner, priority, id, steps, fails) =>
    case Pause(session, pause) => PausingHolds(sys, session, pause);
    case Stop(session) => StoppingReleases(sys, session);
    case Cancel(id) =>
    case Step =>
      if sys.queue.posted > 0 {
        WorkChangesNoHold(sys.queue.(posted := sys.queue.posted - 1, scheduled := false), sys.paused);
      }
  }

  lemma OpeningChangesNoHold(sys: System, session: SessionId)
    requires HoldsThePaused(sys)
    ensures HoldsThePaused(Next(sys, Open(session)))
  {
    forall i | 0 <= i < |sys.queue.operations|
      ensures WellHeld(sys.queue.operations[i], Next(sys, Open(session)).paused)
    {
      assert WellHeld(sys.queue.operations[i], sys.paused);
    }
  }

  lemma PausingHolds(sys: System, session: SessionId, pause: bool)
    requires HoldsThePaused(sys)
    ensures HoldsThePaused(Next(sys, Pause(session, pause)))
  {
    forall i | 0 <= i < |sys.queue.operations|
      ensures WellHeld(Next(sys, Pause(session, pause)).queue.operations[i], Next(sys, Pause(session, pause)).paused)
    {
      assert WellHeld(sys.queue.operations[i], sys.paused);
    }
  }

  lemma StoppingReleases(sys: System, session: SessionId)
    requires HoldsThePaused(sys)
    ensures HoldsThePaused(Next(sys, Stop(session)))
  {
    forall i | 0 <= i < |sys.queue.operations|
      ensures WellHeld(Next(sys, Stop(session)).queue.operations[i], Next(sys, Stop(session)).paused)
    {
      assert WellHeld(sys.queue.operations[i], sys.paused);
    }
  }

  lemma WorkChangesNoHold(s: QueueState, paused: map<SessionId, bool>)
    requires forall i | 0 <= i < |s.operations| :: WellHeld(s.operations[i], paused)
    ensures forall i | 0 <= i < |Worked(s).operations| :: WellHeld(Worked(s).operations[i], paused)
  {
    var next := FirstRunnable(s.operations);
    if next < |s.operations| {
      assert WellHeld(s.operations[next], paused);
    }
  }

  /** In every reachable state the queue is ordered, awake, and holds exactly what paused sessions own. */
  lemma {:induction false} EveryRunKeepsTheInvariant(events: seq<Event>)
    ensures Invariant(After(Initial, events))
  {
    if events != [] {
      var front := events[..|events| - 1];
      EveryRunKeepsTheInvariant(front);
      EveryEventKeepsQueue(After(Initial, front), events[|events| - 1]);
      EveryEventHoldsThePaused(After(Initial, front), events[|events| - 1]);
    }
  }
}
