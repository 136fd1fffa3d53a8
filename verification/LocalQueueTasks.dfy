/** The tasks on the strand that change the local operation queue and its sessions in place. */
module LocalQueueTasks {
  import opened Wrappers
  import opened LocalOperationQueue

  class LocalQueue {
    var operations: seq<Queued>
    var scheduled: bool
    /** The executor's pending work tasks. */
    var posted: nat
    /** The completions told to the frontend. */
    var ended: seq<Ended>
    var arrivals: nat

    ghost function State(): QueueState
      reads this
    {
      QueueState(operations, scheduled, posted, ended, arrivals)
    }

    constructor ()
      ensures State() == Initial.queue
    {
      operations, scheduled, posted, ended, arrivals := [], false, 0, [], 0;
    }

    /** At most one step waits on the strand; this adds it. */
    method Schedule()
      modifies this
      ensures State() == Scheduled(old(State()))
    {
      if scheduled {
        return;
      }
      scheduled := true;
      posted := posted + 1;
    }

    /** Inserts a priority operation before every other one, any other at the end, and starts working. */
    method Enqueue(queued: Queued)
      modifies this
      ensures State() == Enqueued(old(State()), queued)
    {
      var position := |operations|;
      if queued.priority {
        position := 0;
        while position < |operations| && operations[position].priority
          invariant position <= |operations|
          invariant forall i | 0 <= i < position :: operations[i].priority
        {
          position := position + 1;
        }
        PriorityCountIs(operations, position);
      }
      operations := operations[..position] + [queued.(arrival := arrivals)] + operations[position..];
      arrivals := arrivals + 1;
      Schedule();
    }

    /** Holds the ordinary operations of a session, or lets them run again. */
    method Hold(owner: SessionId, held: bool)
      modifies this
      ensures State() == HeldFor(old(State()), owner, held)
    {
      for i := 0 to |operations|
        invariant |operations| == |old(operations)|
        invariant forall k | 0 <= k < |operations| ::
            operations[k] == if k < i then HoldOne(old(operations)[k], owner, held) else old(operations)[k]
        invariant scheduled == old(scheduled) && posted == old(posted) && ended == old(ended)
                  && arrivals == old(arrivals)
      {
        if operations[i].owner == Some(owner) && !operations[i].priority {
          operations := operations[i := operations[i].(held := held)];
        }
      }
      assert operations == HeldFor(old(State()), owner, held).operations;
      if !held {
        Schedule();
      }
    }

    /** The operations of a session run on their own from now on. */
    method Release(owner: SessionId)
      modifies this
      ensures State() == ReleasedFrom(old(State()), owner)
    {
      for i := 0 to |operations|
        invariant |operations| == |old(operations)|
        invariant forall k | 0 <= k < |operations| ::
            operations[k] == if k < i then ReleaseOne(old(operations)[k], owner) else old(operations)[k]
        invariant scheduled == old(scheduled) && posted == old(posted) && ended == old(ended)
                  && arrivals == old(arrivals)
      {
        if operations[i].owner != Some(owner) {
          continue;
        }
        operations := operations[i := operations[i].(owner := None, held := false)];
      }
      assert operations == ReleasedFrom(old(State()), owner).operations;
      Schedule();
    }

    method Complete(at: nat, reason: Reason)
      requires at < |operations|
      modifies this
      ensures State() == EndedAt(old(State()), at, reason)
    {
      ended := ended + [EndOf(operations[at], reason)];
      operations := operations[..at] + operations[at + 1..];
    }

    /** Ends an operation as canceled; an unknown one is ignored. */
    method Cancel(id: OperationId)
      modifies this
      ensures State() == CanceledById(old(State()), id)
    {
      var found := 0;
      while found < |operations| && operations[found].id != id
        invariant found <= |operations|
        invariant forall i | 0 <= i < found :: operations[i].id != id
      {
        found := found + 1;
      }
      if found == |operations| {
        return;
      }
      Complete(found, Canceled);
    }

    /** One step for the first runnable operation, and whether any runnable one remains. */
    method Work() returns (more: bool)
      modifies this
      ensures State() == Worked(old(State())) && more == AnyRunnable(operations)
    {
      var next := NextRunnable();
      if next == |operations| {
        return false;
      }
      if operations[next].steps == 0 {
        Complete(next, if operations[next].fails then Failed else Completed);
      } else {
        operations := operations[next := operations[next].(steps := operations[next].steps - 1)];
      }
      var left := NextRunnable();
      more := left < |operations|;
    }

    method NextRunnable() returns (next: nat)
      ensures next == FirstRunnable(operations)
    {
      next := 0;
      while next < |operations| && operations[next].held
        invariant next <= |operations|
        invariant forall i | 0 <= i < next :: operations[i].held
      {
        next := next + 1;
      }
    }

    /** The posted task. */
    method RunPosted()
      requires posted > 0
      modifies this
      ensures State() == Ran(old(State()))
    {
      posted := posted - 1;
      scheduled := false;
      var more := Work();
      if more {
        Schedule();
      }
    }
  }

  lemma PriorityCountIs(operations: seq<Queued>, n: nat)
    requires n <= |operations| && (forall i | 0 <= i < n :: operations[i].priority)
    requires n < |operations| ==> !operations[n].priority
    ensures PriorityCount(operations) == n
  {
  }

  /** The sessions on the strand that share the queue. */
  class Sessions {
    var paused: map<SessionId, bool>
    const queue: LocalQueue

    ghost function State(): System
      reads this, queue
    {
      System(queue.State(), paused)
    }

    constructor (queue: LocalQueue)
      ensures this.queue == queue && paused == map[]
    {
      this.queue, paused := queue, map[];
    }

    /** Queues a local operation for a session, held while the session is paused; refused once the session stopped. */
    method AddLocalOperation(owner: Option<SessionId>, priority: bool, id: OperationId, steps: nat, fails: bool)
      returns (added: bool)
      modifies queue
      ensures State() == Next(old(State()), Add(owner, priority, id, steps, fails))
      ensures added == (owner.None? || owner.value in paused)
    {
      if owner.Some? && owner.value !in paused {
        return false;
      }
      var held := owner.Some? && paused[owner.value];
      queue.Enqueue(Queued(id, owner, held && !priority, priority, steps, fails, 0));
      added := true;
    }

    /** Pauses or continues the queue of a session. */
    method PauseUnpause(session: SessionId, pause: bool) returns (done: bool)
      modifies this, queue
      ensures State() == Next(old(State()), Pause(session, pause)) && done == (session in old(paused))
    {
      if session !in paused {
        return false;
      }
      paused := paused[session := pause];
      queue.Hold(session, pause);
      done := true;
    }

    /** Ends a session; its operations are released before its own queue goes. */
    method StopSession(session: SessionId)
      modifies this, queue
      ensures State() == Next(old(State()), Stop(session))
    {
      if session !in paused {
        return;
      }
      queue.Release(session);
      paused := map s | s in paused && s != session :: paused[s];
    }
  }
}
