/**
 How uploads hear their end (session_file_tracking.cpp, failure_reason.cpp): one that completed, or whose destination
 changed on the server, hears it once the server told what it has at the destination, or once nobody can be asked any
 more. Every task on the strand and on a channel is one step.
 */
module UploadEnds {
  import opened Wrappers

  type Path = string

  datatype Reason = Completed | Failed | Canceled

  datatype ErrorType = ChangedSinceCompare | FileNotFound | OtherError(what: string)

  /** An entry a bulk left out, by its index. */
  datatype IndexedFailure = IndexedFailure(index: nat, kind: ErrorType)

  /** An entry an operation left out, by its path. */
  datatype FailedEntry = FailedEntry(path: Path, kind: ErrorType)

  /** How an operation on the queue ended. */
  datatype OperationEnd = OperationEnd(
    reason: Reason, error: Option<ErrorType>, indexedFailures: seq<IndexedFailure>, failedEntries: seq<FailedEntry>)

  datatype SentFile = SentFile(path: Path, size: nat)

  datatype ServerState = ServerState(mtime: nat, size: nat)

  /** Where the reason of a failure is taken from. */
  datatype Why = OfOperation(error: Option<ErrorType>) | OfEntry(entry: FailedEntry) | OfIndex(failure: IndexedFailure)

  datatype UploadEnd = UploadEnd(
    reason: Reason, changedOnServer: bool, destinationState: Option<ServerState>, sentFiles: seq<SentFile>,
    failure: Option<Why>, failedEntries: seq<FailedEntry>)

  function PlainEnd(reason: Reason): UploadEnd {
    UploadEnd(reason, false, None, [], None, [])
  }

  // ---------- how each upload ended ----------

  /** The first failure told of an index. */
  function FailureAt(failures: seq<IndexedFailure>, index: nat): Option<IndexedFailure> {
    if failures == [] then None
    else if failures[0].index == index then Some(failures[0])
    else FailureAt(failures[1..], index)
  }

  function EntryAt(entries: seq<FailedEntry>, path: Path): Option<FailedEntry> {
    if entries == [] then None
    else if entries[0].path == path then Some(entries[0])
    else EntryAt(entries[1..], path)
  }

  function SentAt(sent: seq<SentFile>, path: Path): Option<SentFile> {
    if sent == [] then None
    else if sent[0].path == path then Some(sent[0])
    else SentAt(sent[1..], path)
  }

  function LeftOut(entries: seq<FailedEntry>): seq<FailedEntry> {
    if entries == [] then []
    else (if entries[0].kind.ChangedSinceCompare? then [] else [entries[0]]) + LeftOut(entries[1..])
  }

  /** How a single upload ended. */
  function UploadEndOf(completed: OperationEnd, isDirectory: bool): UploadEnd {
    if completed.error == Some(ChangedSinceCompare) then PlainEnd(completed.reason).(changedOnServer := true)
    else
      match completed.reason
      case Failed => PlainEnd(Failed).(failure := Some(OfOperation(completed.error)))
      case Completed =>
        PlainEnd(Completed).(failedEntries := if isDirectory then LeftOut(completed.failedEntries) else [])
      case Canceled => PlainEnd(Canceled)
  }

  /** How the upload of one source of a bulk ended. */
  function EntryEndOf(completed: OperationEnd, index: nat, source: Path): UploadEnd {
    if completed.reason != Completed then
      PlainEnd(completed.reason).(
      failure := if completed.reason == Failed then Some(OfOperation(completed.error)) else None)
    else
      match FailureAt(completed.indexedFailures, index)
      case None => PlainEnd(Completed)
      case Some(failure) =>
        if failure.kind.ChangedSinceCompare? then PlainEnd(Failed).(changedOnServer := true)
        else
          match EntryAt(completed.failedEntries, source)
          case Some(entry) => PlainEnd(Failed).(failure := Some(OfEntry(entry)))
          case None =>
            if failure.kind.FileNotFound? then PlainEnd(Canceled)
            else PlainEnd(Failed).(failure := Some(OfIndex(failure)))
  }

  /** Whether the server is asked what it has at the destination before the end is told. */
  function AsksState(end: UploadEnd, isDirectory: bool): bool {
    end.changedOnServer || (end.reason == Completed && !isDirectory)
  }

  function WithSent(end: UploadEnd, sent: seq<SentFile>): UploadEnd {
    if end.reason == Completed then end.(sentFiles := sent) else end
  }

  datatype Upload = Upload(destination: Path, end: UploadEnd)

  /** The uploads one operation did, in the order of their requests. */
  datatype Ending = Ending(uploads: seq<Upload>, isDirectory: bool)

  /** The end of a single upload, with every file it sent. */
  function SingleEnding(completed: OperationEnd, destination: Path, isDirectory: bool, sent: seq<SentFile>): Ending {
    Ending([Upload(destination, WithSent(UploadEndOf(completed, isDirectory), sent))], isDirectory)
  }

  datatype UploadRequest = UploadRequest(source: Path, destination: Path)

  function OwnFile(sent: Option<SentFile>): seq<SentFile> {
    if sent.Some? then [sent.value] else []
  }

  /** The ends of the uploads of a bulk, each with its own source when that was sent. */
  function BulkEnding(completed: OperationEnd, requests: seq<UploadRequest>, sent: seq<SentFile>): Ending {
    Ending(
      seq(|requests|, index requires 0 <= index < |requests| =>
          Upload(requests[index].destination,
                 WithSent(EntryEndOf(completed, index, requests[index].source),
                          OwnFile(SentAt(sent, requests[index].source))))),
      false)
  }

  lemma {:induction false} FirstFailureCounts(failures: seq<IndexedFailure>, index: nat)
    ensures FailureAt(failures, index).None? <==> forall k | 0 <= k < |failures| :: failures[k].index != index
    ensures forall k |
              && 0 <= k < |failures| && failures[k].index == index
              && (forall j | 0 <= j < k :: failures[j].index != index) ::
              FailureAt(failures, index) == Some(failures[k])
  {
    if failures != [] {
      FirstFailureCounts(failures[1..], index);
      forall k | 0 <= k < |failures| && failures[k].index == index
        && (forall j | 0 <= j < k :: failures[j].index != index)
        ensures FailureAt(failures, index) == Some(failures[k])
      {
        assert k > 0 ==> failures[0].index != index && failures[1..][k - 1] == failures[k];
        forall j | 0 <= j < k - 1 ensures failures[1..][j].index != index {
          assert failures[1..][j] == failures[j + 1];
        }
      }
      assert forall k | 0 < k < |failures| :: failures[k] == failures[1..][k - 1];
    }
  }

  /**
   The server is asked about an upload of a bulk exactly when the bulk completed and did not leave it out, or left it
   out because its destination had changed; only the first failure told of an index counts.
   */
  lemma BulkAsksAboutSentAndChanged(
    completed: OperationEnd, requests: seq<UploadRequest>, sent: seq<SentFile>, index: nat
  )
    requires index < |requests|
    ensures var failures := completed.indexedFailures;
            AsksState(BulkEnding(completed, requests, sent).uploads[index].end, false) <==>
            && completed.reason == Completed
            && ((forall k | 0 <= k < |failures| :: failures[k].index != index)
                || exists k | 0 <= k < |failures| :: && failures[k] == IndexedFailure(index, ChangedSinceCompare)
                                                     && forall j | 0 <= j < k :: failures[j].index != index)
  {
    var failures := completed.indexedFailures;
    FirstFailureCounts(failures, index);
    if exists k | 0 <= k < |failures| :: failures[k].index == index {
      var k := FirstWith(failures, index);
      assert FailureAt(failures, index) == Some(failures[k]);
    }
  }

  lemma {:induction false} SentAtIsOwn(sent: seq<SentFile>, path: Path)
    ensures SentAt(sent, path).None? <==> forall k | 0 <= k < |sent| :: sent[k].path != path
    ensures SentAt(sent, path).Some? ==> SentAt(sent, path).value in sent && SentAt(sent, path).value.path == path
  {
    if sent != [] {
      SentAtIsOwn(sent[1..], path);
      assert forall k | 0 < k < |sent| :: sent[k] == sent[1..][k - 1];
    }
  }

  lemma {:induction false} EntryAtMeans(entries: seq<FailedEntry>, path: Path)
    ensures EntryAt(entries, path).None? <==> forall k | 0 <= k < |entries| :: entries[k].path != path
    ensures EntryAt(entries, path).Some? ==>
              exists k | 0 <= k < |entries| :: && entries[k] == EntryAt(entries, path).value && entries[k].path == path
                                               && forall j | 0 <= j < k :: entries[j].path != path
  {
    if entries != [] {
      EntryAtMeans(entries[1..], path);
      if entries[0].path != path && EntryAt(entries[1..], path).Some? {
        var k :| 0 <= k < |entries[1..]| && entries[1..][k] == EntryAt(entries, path).value
                 && forall j | 0 <= j < k :: entries[1..][j].path != path;
        assert entries[k + 1] == entries[1..][k];
        forall j | 0 <= j < k + 1 ensures entries[j].path != path {
          assert j > 0 ==> entries[j] == entries[1..][j - 1];
        }
      }
      assert forall k | 0 < k < |entries| :: entries[k] == entries[1..][k - 1];
    }
  }

  /**
   How an upload of a bulk ended: completed when the bulk did and told no failure of its index; canceled with the bulk,
   or when its source was gone, which is a failure told of the index but not of the path; failed otherwise.
   */
  lemma BulkEndsMean(completed: OperationEnd, requests: seq<UploadRequest>, sent: seq<SentFile>, index: nat)
    requires index < |requests|
    ensures var end := BulkEnding(completed, requests, sent).uploads[index].end;
            var failures, entries := completed.indexedFailures, completed.failedEntries;
            && (end.reason == Completed <==>
                  completed.reason == Completed && forall k | 0 <= k < |failures| :: failures[k].index != index)
            && (end.reason == Canceled <==>
                  completed.reason == Canceled
                  || (&& completed.reason == Completed
                      && (exists k | 0 <= k < |failures| :: && failures[k] == IndexedFailure(index, FileNotFound)
                                                            && forall j | 0 <= j < k :: failures[j].index != index)
                      && forall k | 0 <= k < |entries| :: entries[k].path != requests[index].source))
  {
    var failures := completed.indexedFailures;
    FirstFailureCounts(failures, index);
    EntryAtMeans(completed.failedEntries, requests[index].source);
    if exists k | 0 <= k < |failures| :: failures[k].index == index {
      var k := FirstWith(failures, index);
      assert FailureAt(failures, index) == Some(failures[k]);
    }
  }

  /** A completed upload of a bulk tells of its own source, if that was sent; no other end tells of a file. */
  lemma BulkTellsOwnFiles(completed: OperationEnd, requests: seq<UploadRequest>, sent: seq<SentFile>, index: nat)
    requires index < |requests|
    ensures var end := BulkEnding(completed, requests, sent).uploads[index].end;
            var source := requests[index].source;
            && (forall file | file in end.sentFiles :: file in sent && file.path == source)
            && |end.sentFiles| <= 1
            && (end.sentFiles == [] <==>
                  end.reason != Completed || forall k | 0 <= k < |sent| :: sent[k].path != source)
  {
    SentAtIsOwn(sent, requests[index].source);
    assert EntryEndOf(completed, index, requests[index].source).sentFiles == [];
  }

  /** Why an upload of a bulk failed, and what else its end tells. */
  lemma BulkFailuresMean(completed: OperationEnd, requests: seq<UploadRequest>, sent: seq<SentFile>, index: nat)
    requires index < |requests|
    ensures var upload := BulkEnding(completed, requests, sent).uploads[index];
            var end, source := upload.end, requests[index].source;
            var failures, entries := completed.indexedFailures, completed.failedEntries;
            && upload.destination == requests[index].destination
            && end.destinationState == None && end.failedEntries == []
            && (end.changedOnServer <==>
                  completed.reason == Completed
                  && exists k | 0 <= k < |failures| :: && failures[k] == IndexedFailure(index, ChangedSinceCompare)
                                                       && forall j | 0 <= j < k :: failures[j].index != index)
            && (end.failure.Some? <==> end.reason == Failed && !end.changedOnServer)
            && (end.failure.Some? ==>
                  match end.failure.value
                  case OfOperation(error) => completed.reason == Failed && error == completed.error
                  case OfEntry(entry) =>
                    && completed.reason == Completed
                    && exists k | 0 <= k < |entries| :: && entries[k] == entry && entry.path == source
                                                        && forall j | 0 <= j < k :: entries[j].path != source
                  case OfIndex(failure) =>
                    && completed.reason == Completed && !failure.kind.FileNotFound?
                    && (forall k | 0 <= k < |entries| :: entries[k].path != source)
                    && exists k | 0 <= k < |failures| :: && failures[k] == failure && failure.index == index
                                                         && forall j | 0 <= j < k :: failures[j].index != index)
  {
    var failures := completed.indexedFailures;
    FirstFailureCounts(failures, index);
    EntryAtMeans(completed.failedEntries, requests[index].source);
    if exists k | 0 <= k < |failures| :: failures[k].index == index {
      var k := FirstWith(failures, index);
      assert FailureAt(failures, index) == Some(failures[k]);
    }
    hide FailureAt, EntryAt, SentAt;
  }

  /** The failed entries told are those that did not change since the compare, as often as they failed. */
  ghost predicate LeavesOutTheChanged(entries: seq<FailedEntry>, told: seq<FailedEntry>) {
    forall entry ::
      multiset(told)[entry] == if entry.kind == ChangedSinceCompare then 0 else multiset(entries)[entry]
  }

  lemma {:induction false} LeftOutIsTold(entries: seq<FailedEntry>)
    ensures LeavesOutTheChanged(entries, LeftOut(entries))
  {
    if entries != [] {
      LeftOutIsTold(entries[1..]);
      assert entries == [entries[0]] + entries[1..];
    }
  }

  /** They are told in their order: what the first entries tell comes first. */
  lemma {:induction false} LeftOutKeepsTheOrder(front: seq<FailedEntry>, back: seq<FailedEntry>)
    ensures LeftOut(front + back) == LeftOut(front) + LeftOut(back)
  {
    if front == [] {
      assert front + back == back;
    } else {
      assert (front + back)[1..] == front[1..] + back;
      LeftOutKeepsTheOrder(front[1..], back);
    }
  }

  /**
   How a single upload ended: as its operation did; changed on the server exactly when that was the error; with the
   operation's error when it failed otherwise; with the files sent when it completed. A completed directory tells of the
   entries that failed without having changed, and the server is asked about what changed and about completed files.
   */
  lemma SingleEndsMean(completed: OperationEnd, destination: Path, isDirectory: bool, sent: seq<SentFile>)
    ensures var ending := SingleEnding(completed, destination, isDirectory, sent);
            && |ending.uploads| == 1 && ending.uploads[0].destination == destination
            && ending.isDirectory == isDirectory
            && var end, changed := ending.uploads[0].end, completed.error == Some(ChangedSinceCompare);
               && end.reason == completed.reason && end.destinationState == None
               && (end.changedOnServer <==> changed)
               && end.failure
                  == (if completed.reason == Failed && !changed then Some(OfOperation(completed.error)) else None)
               && end.sentFiles == (if completed.reason == Completed then sent else [])
               && (if completed.reason == Completed && isDirectory && !changed
                   then LeavesOutTheChanged(completed.failedEntries, end.failedEntries)
                   else end.failedEntries == [])
               && (AsksState(end, isDirectory) <==> changed || (completed.reason == Completed && !isDirectory))
  {
    LeftOutIsTold(completed.failedEntries);
    hide LeavesOutTheChanged;
  }

  lemma {:induction false} FirstWith(failures: seq<IndexedFailure>, index: nat) returns (k: nat)
    requires exists k | 0 <= k < |failures| :: failures[k].index == index
    ensures k < |failures| && failures[k].index == index && forall j | 0 <= j < k :: failures[j].index != index
  {
    if failures[0].index == index {
      return 0;
    }
    var any :| 0 <= any < |failures| && failures[any].index == index;
    assert failures[1..][any - 1].index == index;
    k := FirstWith(failures[1..], index);
    assert forall j | 0 < j <= k + 1 :: failures[j] == failures[1..][j - 1];
    k := k + 1;
  }

  // ---------- asking the server ----------

  /** An end that waits for the server's answer, by the index of its upload. */
  datatype Asking = Asking(index: nat, end: UploadEnd)

  /** What is told once the states are known: the ends of one operation that wait for them. */
  datatype Delivery = Delivery(ending: nat, asking: seq<Asking>)

  datatype Told = Told(ending: nat, index: nat, end: UploadEnd)

  type States = seq<Option<ServerState>>

  type Server = Path -> Option<ServerState>

  /** A request to ask the server; its delivery is owed until it was posted. */
  datatype Request = Request(paths: seq<Path>, states: States, delivery: Option<Delivery>)

  datatype Posted = Posted(delivery: Delivery, states: States)

  function Unasked(n: nat): States {
    seq(n, _ => None)
  }

  /** Told at once: the ends among the first n that need no answer. */
  function TellsNow(id: nat, ending: Ending, n: nat): seq<Told>
    requires n <= |ending.uploads|
  {
    if n == 0 then []
    else
      var end := ending.uploads[n - 1].end;
      TellsNow(id, ending, n - 1) + if AsksState(end, ending.isDirectory) then [] else [Told(id, n - 1, end)]
  }

  function AskingOf(ending: Ending, n: nat): (asking: seq<Asking>)
    requires n <= |ending.uploads|
    ensures forall k | 0 <= k < |asking| ::
              asking[k].index < n && asking[k].end == ending.uploads[asking[k].index].end
              && AsksState(asking[k].end, ending.isDirectory)
  {
    if n == 0 then []
    else
      var end := ending.uploads[n - 1].end;
      AskingOf(ending, n - 1) + if AsksState(end, ending.isDirectory) then [Asking(n - 1, end)] else []
  }

  lemma OneUploadMore(id: nat, ending: Ending, n: nat)
    requires n < |ending.uploads|
    ensures var end := ending.uploads[n].end;
            if AsksState(end, ending.isDirectory) then
              && TellsNow(id, ending, n + 1) == TellsNow(id, ending, n)
              && AskingOf(ending, n + 1) == AskingOf(ending, n) + [Asking(n, end)]
            else
              && TellsNow(id, ending, n + 1) == TellsNow(id, ending, n) + [Told(id, n, end)]
              && AskingOf(ending, n + 1) == AskingOf(ending, n)
  {
  }

  function PathsAsked(ending: Ending): (paths: seq<Path>)
    ensures |paths| == |AskingOf(ending, |ending.uploads|)|
  {
    var asking := AskingOf(ending, |ending.uploads|);
    seq(|asking|, k requires 0 <= k < |asking| => ending.uploads[asking[k].index].destination)
  }

  /** The request after the channel asked the server; what it could not tell stays unknown. */
  function AskedBy(request: Request, server: Server): Request
    requires |request.states| == |request.paths|
  {
    request.(states := seq(|request.paths|, k requires 0 <= k < |request.paths| =>
      if server(request.paths[k]).Some? then server(request.paths[k]) else request.states[k]))
  }

  /** The request after its delivery was posted, if it was still owed. */
  function Settled(request: Request): Request {
    if request.delivery.None? then request else Request(request.paths, [], None)
  }

  function PostOf(request: Request): seq<Posted> {
    if request.delivery.None? then [] else [Posted(request.delivery.value, request.states)]
  }

  function ToldWith(delivery: Delivery, states: States): (told: seq<Told>)
    requires |states| == |delivery.asking|
    ensures |told| == |states|
  {
    seq(|states|, k requires 0 <= k < |states| =>
        Told(delivery.ending, delivery.asking[k].index, delivery.asking[k].end.(destinationState := states[k])))
  }

  // ---------- runs ----------

  /** What is left of the session when an operation ends. */
  datatype Way = SessionGone | NoChannel | OverChannel

  datatype Event =
    | End(ending: Ending, way: Way)
    | Ask(request: nat, server: Server)
    | Drop(request: nat)
    | RunPosted

  /** heard and answers record what happened; requests and posted are what is still on its way. */
  datatype System = System(
    endings: seq<Ending>, answers: map<nat, Server>, heard: seq<Told>, requests: seq<Request>, posted: seq<Posted>)

  const Initial := System([], map[], [], [], [])

  function Ended(system: System, ending: Ending, way: Way): System {
    var id := |system.endings|;
    var all := |ending.uploads|;
    var asking := AskingOf(ending, all);
    var told := system.(endings := system.endings + [ending], heard := system.heard + TellsNow(id, ending, all));
    var delivery := Delivery(id, asking);
    var request := Request(PathsAsked(ending), Unasked(|asking|), Some(delivery));
    if asking == [] then told
    else
      match way
      case SessionGone => told.(heard := told.heard + ToldWith(delivery, Unasked(|asking|)))
      case NoChannel =>
        told.(requests := told.requests + [Settled(request)], posted := told.posted + PostOf(request))
      case OverChannel => told.(requests := told.requests + [request])
  }

  predicate Live(system: System, k: nat) {
    k < |system.requests| && system.requests[k].delivery.Some?
  }

  function Dropped(system: System, k: nat): System
    requires Live(system, k)
  {
    system.(requests := system.requests[k := Settled(system.requests[k])],
    posted := system.posted + PostOf(system.requests[k]))
  }

  function Asked(system: System, k: nat, server: Server): System
    requires Live(system, k) && |system.requests[k].states| == |system.requests[k].paths|
  {
    var request := AskedBy(system.requests[k], server);
    system.(requests := system.requests[k := Settled(request)], posted := system.posted + PostOf(request),
    answers := system.answers[request.delivery.value.ending := server])
  }

  function After(system: System, event: Event): System
    requires LengthsFit(system)
  {
    match event
    case End(ending, way) => Ended(system, ending, way)
    case Ask(k, server) => if Live(system, k) then Asked(system, k, server) else system
    case Drop(k) => if Live(system, k) then Dropped(system, k) else system
    case RunPosted =>
      if system.posted == [] then system
      else
        system.(heard := system.heard + ToldWith(system.posted[0].delivery, system.posted[0].states),
        posted := system.posted[1..])
  }

  /** Every state list on its way has one state for each end that waits. */
  ghost predicate LengthsFit(system: System) {
    && (forall k | 0 <= k < |system.requests| :: RequestFits(system.requests[k]))
    && (forall k | 0 <= k < |system.posted| :: |system.posted[k].states| == |system.posted[k].delivery.asking|)
  }

  ghost predicate RequestFits(request: Request) {
    request.delivery.Some? ==> |request.states| == |request.paths| == |request.delivery.value.asking|
  }

  lemma StepsKeepTheLengths(system: System, event: Event)
    requires LengthsFit(system)
    ensures LengthsFit(After(system, event))
  {
    hide AskingOf, TellsNow;
  }

  ghost function Run(events: seq<Event>): (system: System)
    ensures LengthsFit(system)
  {
    if events == [] then Initial
    else
      var before := Run(events[..|events| - 1]);
      StepsKeepTheLengths(before, events[|events| - 1]);
      After(before, events[|events| - 1])
  }
}
