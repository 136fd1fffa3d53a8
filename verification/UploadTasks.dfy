/** The objects that deliver the ends of uploads and that remember which upload may still be stopped. */
module UploadTasks {
  import opened Wrappers
  import opened UploadEnds

  /** The tasks posted to the strand of the session, oldest first. */
  class SessionStrand {
    var posted: seq<Posted>

    constructor ()
      ensures posted == []
    {
      posted := [];
    }
  }

  /** What the tracker heard. */
  class Tracker {
    var heard: seq<Told>

    constructor ()
      ensures heard == []
    {
      heard := [];
    }
  }

  class DestinationStates {
    const strand: SessionStrand
    const paths: seq<Path>
    var states: States
    var delivery: Option<Delivery>

    ghost function State(): Request
      reads this
    {
      Request(paths, states, delivery)
    }

    constructor (strand: SessionStrand, paths: seq<Path>, delivery: Delivery)
      ensures this.strand == strand && State() == Request(paths, Unasked(|paths|), Some(delivery))
    {
      this.strand := strand;
      this.paths := paths;
      this.states := Unasked(|paths|);
      this.delivery := Some(delivery);
    }

    /** Posts the delivery with the states, once; asking and dropping both end here. */
    method Deliver()
      modifies this, strand
      ensures State() == Settled(old(State()))
      ensures strand.posted == old(strand.posted) + PostOf(old(State()))
    {
      if delivery.None? {
        return;
      }
      strand.posted := strand.posted + [Posted(delivery.value, states)];
      states, delivery := [], None;
    }

    /** Asks the server about one destination after the other. */
    method AskInStrand(server: Server)
      requires |states| == |paths|
      modifies this, strand
      ensures State() == Settled(AskedBy(old(State()), server))
      ensures strand.posted == old(strand.posted) + PostOf(AskedBy(old(State()), server))
    {
      for index := 0 to |paths|
        invariant |states| == |paths| && delivery == old(delivery) && strand.posted == old(strand.posted)
        invariant forall k | 0 <= k < |paths| ::
            states[k] == if k < index && server(paths[k]).Some? then server(paths[k]) else old(states)[k]
      {
        var information := server(paths[index]);
        if information.Some? {
          states := states[index := information];
        }
      }
      assert State() == AskedBy(old(State()), server);
      Deliver();
    }

    /** The last holder let go of the request. */
    method Destroy()
      modifies this, strand
      ensures State() == Settled(old(State()))
      ensures strand.posted == old(strand.posted) + PostOf(old(State()))
    {
      Deliver();
    }
  }

  /** Tells the ends of a delivery with the states of their destinations. */
  method Tell(tracker: Tracker, delivery: Delivery, states: States)
    requires |states| == |delivery.asking|
    modifies tracker
    ensures tracker.heard == old(tracker.heard) + ToldWith(delivery, states)
  {
    for position := 0 to |delivery.asking|
      invariant tracker.heard == old(tracker.heard) + ToldWith(delivery, states)[..position]
    {
      var asking := delivery.asking[position];
      var told := Told(delivery.ending, asking.index, asking.end.(destinationState := states[position]));
      tracker.heard := tracker.heard + [told];
    }
  }

  /** Asks the server about the destinations, then tells the ends; says which request the channel holds, if any. */
  method AskStatesThen(strand: SessionStrand, tracker: Tracker, way: Way, paths: seq<Path>, delivery: Delivery)
    returns (held: Option<DestinationStates>)
    requires |paths| == |delivery.asking|
    modifies strand, tracker
    ensures held.Some? <==> way.OverChannel?
    ensures held.Some? ==> fresh(held.value) && held.value.strand == strand
                           && held.value.State() == Request(paths, Unasked(|paths|), Some(delivery))
    ensures tracker.heard
            == old(tracker.heard) + if way.SessionGone? then ToldWith(delivery, Unasked(|paths|)) else []
    ensures strand.posted
            == old(strand.posted) + if way.NoChannel? then [Posted(delivery, Unasked(|paths|))] else []
  {
    if way.SessionGone? {
      Tell(tracker, delivery, Unasked(|paths|));
      return None;
    }
    var states := new DestinationStates(strand, paths, delivery);
    if way.OverChannel? {
      return Some(states);
    }
    states.Destroy();
    held := None;
  }

  /** The request an ending left behind, as its state says. */
  ghost predicate LeavesRequest(system: System, after: System, held: Option<DestinationStates>)
    reads if held.Some? then {held.value} else {}
  {
    if held.Some? then after.requests == system.requests + [held.value.State()]
    else forall k: nat | Live(after, k) :: Live(system, k) && after.requests[k] == system.requests[k]
  }

  /** Tells each upload of a bulk its end, or asks the server first. */
  method EndUploads(
    strand: SessionStrand, tracker: Tracker, ghost system: System, id: nat,
    completed: OperationEnd, requests: seq<UploadRequest>, sent: seq<SentFile>, way: Way)
    returns (held: Option<DestinationStates>)
    requires id == |system.endings| && tracker.heard == system.heard && strand.posted == system.posted
    modifies strand, tracker
    ensures var after := Ended(system, BulkEnding(completed, requests, sent), way);
            tracker.heard == after.heard && strand.posted == after.posted && LeavesRequest(system, after, held)
  {
    hide UploadEnds.EntryEndOf, UploadEnds.WithSent, UploadEnds.OwnFile, UploadEnds.SentAt;
    hide UploadEnds.AsksState, UploadEnds.TellsNow, UploadEnds.AskingOf;
    ghost var ending := BulkEnding(completed, requests, sent);
    var asking: seq<Asking> := [];
    var askedDestinations: seq<Path> := [];
    NothingYet(id, ending);
    for index := 0 to |requests|
      invariant tracker.heard == system.heard + TellsNow(id, ending, index)
      invariant asking == AskingOf(ending, index) && strand.posted == old(strand.posted)
      invariant |askedDestinations| == |asking|
      invariant forall k | 0 <= k < |asking| :: askedDestinations[k] == requests[asking[k].index].destination
    {
      var file := SentAt(sent, requests[index].source);
      var ended := WithSent(EntryEndOf(completed, index, requests[index].source), OwnFile(file));
      OneUploadMore(id, ending, index);
      if !AsksState(ended, false) {
        tracker.heard := tracker.heard + [Told(id, index, ended)];
        continue;
      }
      asking := asking + [Asking(index, ended)];
      askedDestinations := askedDestinations + [requests[index].destination];
    }
    if asking == [] {
      return None;
    }
    assert askedDestinations == PathsAsked(ending);
    held := AskStatesThen(strand, tracker, way, askedDestinations, Delivery(id, asking));
  }

  lemma NothingYet(id: nat, ending: Ending)
    ensures TellsNow(id, ending, 0) == [] && AskingOf(ending, 0) == []
  {
  }


  /** Tells a single upload its end, or asks the server first. */
  method EndUpload(
    strand: SessionStrand, tracker: Tracker, ghost system: System, id: nat,
    completed: OperationEnd, destination: Path, isDirectory: bool, sent: seq<SentFile>, way: Way)
    returns (held: Option<DestinationStates>)
    requires id == |system.endings| && tracker.heard == system.heard && strand.posted == system.posted
    modifies strand, tracker
    ensures var after := Ended(system, SingleEnding(completed, destination, isDirectory, sent), way);
            tracker.heard == after.heard && strand.posted == after.posted && LeavesRequest(system, after, held)
  {
    hide UploadEnds.UploadEndOf, UploadEnds.WithSent, UploadEnds.AsksState, UploadEnds.TellsNow, UploadEnds.AskingOf;
    ghost var ending := SingleEnding(completed, destination, isDirectory, sent);
    NothingYet(id, ending);
    OneUploadMore(id, ending, 0);
    var ended := WithSent(UploadEndOf(completed, isDirectory), sent);
    assert [] + [Told(id, 0, ended)] == [Told(id, 0, ended)] && [] + [Asking(0, ended)] == [Asking(0, ended)];
    if !AsksState(ended, isDirectory) {
      tracker.heard := tracker.heard + [Told(id, 0, ended)];
      return None;
    }
    assert [destination] == PathsAsked(ending);
    held := AskStatesThen(strand, tracker, way, [destination], Delivery(id, [Asking(0, ended)]));
  }

  /** The strand runs its oldest task. */
  method RunOldest(strand: SessionStrand, tracker: Tracker, ghost system: System)
    requires LengthsFit(system) && tracker.heard == system.heard && strand.posted == system.posted
    modifies strand, tracker
    ensures tracker.heard == After(system, RunPosted).heard && strand.posted == After(system, RunPosted).posted
  {
    if strand.posted == [] {
      return;
    }
    var post := strand.posted[0];
    strand.posted := strand.posted[1..];
    Tell(tracker, post.delivery, post.states);
  }
}
