/** Which single upload to a destination may still be stopped (session_file_tracking.cpp). */
module StopIndex {
  import opened Wrappers

  type Path = string

  /** Operation ids are unique: an upload's id is how many were queued before it. */
  type OperationId = nat

  datatype Event =
    | Queue(destination: Path, accepted: bool)
    | End(id: OperationId)
    | Stop(destination: Path)

  /** The index; queued, ended and stops record what happened. */
  datatype State = Uploads(
    index: map<Path, OperationId>, queued: seq<Path>, ended: set<OperationId>, stops: seq<OperationId>)

  const Initial := Uploads(map[], [], {}, [])

  function Forgotten(index: map<Path, OperationId>, destination: Path, id: OperationId): map<Path, OperationId> {
    if destination in index && index[destination] == id then index - {destination} else index
  }

  /** Every upload the queue took ends at most once. */
  function After(state: State, event: Event): State {
    match event
    case Queue(destination, accepted) =>
      if accepted then
        state.(index := state.index[destination := |state.queued|], queued := state.queued + [destination])
      else state
    case End(id) =>
      if id < |state.queued| && id !in state.ended then
        state.(index := Forgotten(state.index, state.queued[id], id), ended := state.ended + {id})
      else state
    case Stop(destination) =>
      if destination in state.index then state.(stops := state.stops + [state.index[destination]]) else state
  }

  function Run(events: seq<Event>): State {
    if events == [] then Initial else After(Run(events[..|events| - 1]), events[|events| - 1])
  }

  /** The upload is the latest one queued to the destination and has not ended. */
  ghost predicate Stoppable(state: State, destination: Path, id: OperationId) {
    && id < |state.queued| && state.queued[id] == destination && id !in state.ended
    && forall later | id < later < |state.queued| :: state.queued[later] != destination
  }

  ghost predicate IndexIsExact(state: State) {
    && (forall destination, id: OperationId ::
          (destination in state.index && state.index[destination] == id) <==> Stoppable(state, destination, id))
    && (forall id | id in state.ended :: id < |state.queued|)
  }

  lemma QueueingKeepsTheIndex(state: State, destination: Path)
    requires IndexIsExact(state)
    ensures IndexIsExact(After(state, Queue(destination, true)))
  {
    var n := |state.queued|;
    var after := After(state, Queue(destination, true));
    assert after.queued[n] == destination;
    forall other, id: OperationId
      ensures (other in after.index && after.index[other] == id) <==> Stoppable(after, other, id)
    {
      assert (other in state.index && state.index[other] == id) <==> Stoppable(state, other, id);
      assert forall k | 0 <= k < n :: after.queued[k] == state.queued[k];
      if other != destination {
        assert Stoppable(after, other, id) <==> Stoppable(state, other, id);
      } else {
        assert id < n ==> !Stoppable(after, other, id);
        assert Stoppable(after, other, n);
      }
    }
  }

  lemma EndingKeepsTheIndex(state: State, id: OperationId)
    requires IndexIsExact(state) && id < |state.queued| && id !in state.ended
    ensures IndexIsExact(After(state, End(id)))
  {
    var after := After(state, End(id));
    forall destination, other: OperationId
      ensures (destination in after.index && after.index[destination] == other)
              <==> Stoppable(after, destination, other)
    {
      assert (destination in state.index && state.index[destination] == other)
             <==> Stoppable(state, destination, other);
      assert Stoppable(after, destination, other) <==> Stoppable(state, destination, other) && other != id;
    }
  }

  lemma StepsKeepTheIndex(state: State, event: Event)
    requires IndexIsExact(state)
    ensures IndexIsExact(After(state, event))
  {
    match event {
      case Queue(destination, accepted) =>
        if accepted {
          QueueingKeepsTheIndex(state, destination);
        }
      case End(id) =>
        if id < |state.queued| && id !in state.ended {
          EndingKeepsTheIndex(state, id);
        }
      case Stop(destination) =>
        StoppingKeepsTheIndex(state, After(state, event));
    }
  }

  lemma StoppingKeepsTheIndex(state: State, after: State)
    requires IndexIsExact(state) && after == state.(stops := after.stops)
    ensures IndexIsExact(after)
  {
    assert forall destination, id: OperationId ::
             Stoppable(after, destination, id) <==> Stoppable(state, destination, id);
  }

  /** In every run the index maps a destination to an id exactly while the latest upload queued to it has not ended. */
  lemma {:induction false} EveryRunKeepsTheIndex(events: seq<Event>)
    ensures IndexIsExact(Run(events))
  {
    if events != [] {
      EveryRunKeepsTheIndex(events[..|events| - 1]);
      StepsKeepTheIndex(Run(events[..|events| - 1]), events[|events| - 1]);
    }
  }

  /** An upload that ended, or that a later one to the same destination followed, is never stopped from then on. */
  lemma StopsHitTheLatestUpload(events: seq<Event>, destination: Path)
    ensures var before, after := Run(events), Run(events + [Stop(destination)]);
            if after.stops == before.stops then forall id :: !Stoppable(before, destination, id)
            else exists id :: after.stops == before.stops + [id] && Stoppable(before, destination, id)
  {
    EveryRunKeepsTheIndex(events);
    assert (events + [Stop(destination)])[..|events|] == events;
    var before := Run(events);
    if destination in before.index {
      assert Stoppable(before, destination, before.index[destination]);
    }
  }

  /** The index as file tracking updates it; what was queued and ended is only known to the proof. */
  class SentUploads {
    var index: map<Path, OperationId>
    ghost var queued: seq<Path>
    ghost var ended: set<OperationId>

    ghost function State(): State
      reads this
    {
      Uploads(index, queued, ended, [])
    }

    ghost predicate Valid()
      reads this
    {
      IndexIsExact(State())
    }

    constructor ()
      ensures Valid() && queued == [] && ended == {}
    {
      index, queued, ended := map[], [], {};
    }

    /** An upload to the destination was queued: it is the one that may be stopped. */
    method Queued(destination: Path, id: OperationId)
      requires Valid() && id == |queued|
      modifies this
      ensures Valid() && queued == old(queued) + [destination] && ended == old(ended)
      ensures Stoppable(State(), destination, id)
      ensures forall other, earlier: OperationId | Stoppable(old(State()), other, earlier) && other != destination ::
                Stoppable(State(), other, earlier)
    {
      QueueingKeepsTheIndex(State(), destination);
      index := index[destination := id];
      queued := queued + [destination];
    }

    /** An upload to the destination ended: it can be stopped no more, and a later one to it still can. */
    method Ended(destination: Path, id: OperationId)
      requires Valid() && id < |queued| && queued[id] == destination && id !in ended
      modifies this
      ensures Valid() && queued == old(queued) && ended == old(ended) + {id}
      ensures !Stoppable(State(), destination, id)
      ensures forall other, later: OperationId | Stoppable(old(State()), other, later) && later != id ::
                Stoppable(State(), other, later)
    {
      EndingKeepsTheIndex(State(), id);
      if destination in index && index[destination] == id {
        index := index - {destination};
      }
      ended := ended + {id};
    }

    /** The upload to the destination that may be stopped, if there is one. */
    method Find(destination: Path) returns (found: Option<OperationId>)
      requires Valid()
      ensures found.Some? ==> Stoppable(State(), destination, found.value)
      ensures found.None? ==> forall id: OperationId :: !Stoppable(State(), destination, id)
    {
      found := if destination in index then Some(index[destination]) else None;
    }
  }
}
