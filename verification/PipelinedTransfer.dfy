/**
 The pipelined transfer of one file (libssh_client.cpp): requests of one length are kept in flight and answered in the
 order they were begun. The server's behaviour is a function of the number of a request.
 */
module PipelinedTransfer {

  type Byte = bv8

  const BYTES_IN_FLIGHT := 8 * 1024 * 1024

  datatype Request = Request(offset: nat, length: nat)

  /** PoppedEmpty: the oldest request was taken from an empty queue, undefined behaviour in C++. */
  datatype Outcome = Done | BeginFailed | WaitFailed | PoppedEmpty

  function Min(a: int, b: int): int {
    if a < b then a else b
  }

  function Max(a: int, b: int): int {
    if a < b then b else a
  }

  function DepthFor(requestLength: nat): (depth: nat)
    ensures depth >= 4
  {
    Max(4, BYTES_IN_FLIGHT / Max(requestLength, 1))
  }

  /** The window holds no more than it may, and lacks less than one request of it. */
  lemma WindowFits(length: nat)
    requires length > 0
    ensures DepthFor(length) * length <= Max(4 * length, BYTES_IN_FLIGHT)
    ensures DepthFor(length) * length > BYTES_IN_FLIGHT - length
  {
    var whole := BYTES_IN_FLIGHT / length;
    assert whole * length <= BYTES_IN_FLIGHT < whole * length + length;
    if whole < 4 {
      Times(whole + 1, 4, length);
    }
  }

  lemma Times(a: nat, b: nat, c: nat)
    requires a <= b
    ensures a * c <= b * c
  {
  }

  // ---------- the requests ----------

  /** The requests that cover the bytes from one offset to the size, in order. */
  function Chunks(from: nat, size: nat, length: nat): seq<Request>
    requires length > 0
    decreases size - from
  {
    if from >= size then []
    else
      var n := Min(length, size - from);
      [Request(from, n)] + Chunks(from + n, size, length)
  }

  /** All requests of a transfer; a length of zero asks for nothing. */
  function All(size: nat, length: nat): seq<Request> {
    if length == 0 then [] else Chunks(0, size, length)
  }

  function Total(requests: seq<Request>): nat {
    if requests == [] then 0 else requests[0].length + Total(requests[1..])
  }

  /** Where the request of a number starts, the size beyond the last. */
  function Start(chunks: seq<Request>, size: nat, n: nat): nat {
    if n < |chunks| then chunks[n].offset else size
  }

  lemma FirstChunk(from: nat, size: nat, length: nat)
    requires length > 0 && from < size
    ensures var first := Min(length, size - from);
            Chunks(from, size, length) == [Request(from, first)] + Chunks(from + first, size, length)
  {
  }

  lemma NoChunks(from: nat, size: nat, length: nat)
    requires length > 0 && |Chunks(from, size, length)| > 0
    ensures from < size
  {
  }

  lemma StartsAt(from: nat, size: nat, length: nat)
    requires length > 0 && from <= size
    ensures Start(Chunks(from, size, length), size, 0) == from
  {
  }

  lemma {:induction false} ChunkAt(from: nat, size: nat, length: nat, n: nat)
    requires length > 0 && from <= size && n < |Chunks(from, size, length)|
    ensures var chunks := Chunks(from, size, length);
            && chunks[n].offset == from + n * length < size
            && 0 < chunks[n].length == Min(length, size - chunks[n].offset)
            && Start(chunks, size, n + 1) == chunks[n].offset + chunks[n].length
    decreases n
  {
    hide Chunks;
    NoChunks(from, size, length);
    FirstChunk(from, size, length);
    var first := Min(length, size - from);
    if n > 0 {
      ChunkAt(from + first, size, length, n - 1);
      NoChunks(from + first, size, length);
      assert length + (n - 1) * length == n * length;
    } else {
      StartsAt(from + first, size, length);
      assert 0 * length == 0;
    }
  }

  // ---------- what the server does ----------

  /** How many bytes the answer to a read carries, not positive for a failure. */
  function Read(source: seq<Byte>, request: Request, answer: int): (bytes: int)
    ensures bytes <= 0 || (bytes <= request.length && request.offset + bytes <= |source|)
    ensures answer > 0 && request.length > 0 && request.offset < |source| ==> bytes > 0
  {
    if answer <= 0 then answer else Min(Min(answer, request.length), Max(0, |source| - request.offset))
  }

  /** How many bytes the answer to a write tells of, not positive for a failure. */
  function Written(request: Request, answer: int): int {
    Min(answer, request.length)
  }

  /** The first n reads are answered in full. */
  ghost predicate ReadUpTo(source: seq<Byte>, all: seq<Request>, answers: nat -> int, n: nat)
    requires n <= |all|
  {
    forall k | 0 <= k < n :: Read(source, all[k], answers(k)) == all[k].length
  }

  ghost predicate WrittenUpTo(all: seq<Request>, answers: nat -> int, n: nat)
    requires n <= |all|
  {
    forall k | 0 <= k < n :: Written(all[k], answers(k)) == all[k].length
  }

  ghost predicate BegunUpTo(begins: nat -> bool, n: nat) {
    forall k | 0 <= k < n :: begins(k)
  }

  /** Every read is begun and answered in full. */
  ghost predicate ReadsServed(source: seq<Byte>, size: nat, length: nat, begins: nat -> bool, answers: nat -> int) {
    var all := All(size, length);
    length > 0 && BegunUpTo(begins, |all|) && ReadUpTo(source, all, answers, |all|)
  }

  ghost predicate WritesServed(size: nat, length: nat, begins: nat -> bool, answers: nat -> int) {
    var all := All(size, length);
    length > 0 && BegunUpTo(begins, |all|) && WrittenUpTo(all, answers, |all|)
  }

  /** Nothing fails: every request is begun and answered with something. */
  ghost predicate NothingFails(begins: nat -> bool, answers: nat -> int) {
    forall n: nat :: begins(n) && answers(n) > 0
  }

  // ---------- the window ----------

  /**
   The queue holds exactly the requests begun and not yet answered, and no more bytes were answered than asked for.
   */
  ghost predicate Accounted(
    size: nat, length: nat, requests: seq<Request>, begun: nat, waited: nat, requested: nat, received: nat)
  {
    var all := All(size, length);
    && waited <= begun <= |all| && requests == all[waited..begun] && received <= size
    && (if length == 0 then requested == received == 0
        else requested == Start(all, size, begun) && received <= Start(all, size, waited))
  }

  /** Every answer so far was full. */
  ghost predicate Exact(size: nat, length: nat, waited: nat, received: nat) {
    length > 0 && received == Start(All(size, length), size, waited)
  }

  lemma NothingBegun(size: nat, length: nat)
    ensures Accounted(size, length, [], 0, 0, 0, 0)
    ensures length > 0 ==> Exact(size, length, 0, 0)
  {
    if length > 0 {
      StartsAt(0, size, length);
    }
  }

  lemma {:induction false} TotalAtMost(requests: seq<Request>, length: nat)
    requires forall k | 0 <= k < |requests| :: requests[k].length <= length
    ensures Total(requests) <= |requests| * length
  {
    if requests != [] {
      TotalAtMost(requests[1..], length);
      assert |requests| * length == length + (|requests| - 1) * length;
    }
  }

  lemma QueuedAreShort(size: nat, length: nat, waited: nat, begun: nat)
    requires waited <= begun <= |All(size, length)|
    ensures forall k | 0 <= k < begun - waited :: All(size, length)[waited..begun][k].length <= length
  {
    hide Chunks;
    forall k | 0 <= k < begun - waited ensures All(size, length)[waited..begun][k].length <= length {
      ChunkAt(0, size, length, waited + k);
    }
  }

  lemma QueuedFit(size: nat, length: nat, depth: nat, waited: nat, begun: nat)
    requires waited <= begun <= |All(size, length)| && begun - waited <= depth
    ensures Total(All(size, length)[waited..begun]) <= depth * length
  {
    hide All, Total;
    QueuedAreShort(size, length, waited, begun);
    TotalAtMost(All(size, length)[waited..begun], length);
    Times(begun - waited, depth, length);
  }

  /** While the next request starts within the window, there is room for it. */
  lemma RoomForOneMore(size: nat, length: nat, depth: nat, waited: nat, begun: nat, received: nat)
    requires length > 0 && waited <= begun < |All(size, length)|
    requires received <= Start(All(size, length), size, waited)
    requires Start(All(size, length), size, begun) - received < depth * length
    ensures begun - waited < depth
  {
    ChunkAt(0, size, length, waited);
    ChunkAt(0, size, length, begun);
    assert (begun - waited) * length == begun * length - waited * length;
    if depth <= begun - waited {
      Times(depth, begun - waited, length);
    }
  }

  lemma NothingInNothing(depth: nat)
    ensures depth * 0 == 0
  {
  }

  lemma BeginsTheNext(
    size: nat, length: nat, depth: nat, requests: seq<Request>, begun: nat, waited: nat, requested: nat, received: nat)
    requires Accounted(size, length, requests, begun, waited, requested, received)
    requires requested < size && requested - received < depth * length
    ensures length > 0 && begun < |All(size, length)|
    ensures var next := Request(requested, Min(length, size - requested));
            && All(size, length)[begun] == next && next.length > 0 && |requests| < depth
            && Accounted(size, length, requests + [next], begun + 1, waited, requested + next.length, received)
            && Total(requests + [next]) <= depth * length
  {
    hide Chunks, Total;
    NothingInNothing(depth);
    var all := All(size, length);
    ChunkAt(0, size, length, begun);
    RoomForOneMore(size, length, depth, waited, begun, received);
    assert all[waited..begun] + [all[begun]] == all[waited..begun + 1];
    QueuedFit(size, length, depth, waited, begun + 1);
  }

  lemma AnswersTheOldest(
    size: nat, length: nat, requests: seq<Request>, begun: nat, waited: nat, requested: nat, received: nat, bytes: nat)
    requires Accounted(size, length, requests, begun, waited, requested, received)
    requires requests != [] && bytes <= requests[0].length
    ensures length > 0 && waited < begun <= |All(size, length)| && requests[0] == All(size, length)[waited]
    ensures requests[0].offset < size && requests[0].length > 0 && requests[0].offset + requests[0].length <= size
    ensures Accounted(size, length, requests[1..], begun, waited + 1, requested, received + bytes)
    ensures Exact(size, length, waited + 1, received + bytes)
            <==> Exact(size, length, waited, received) && bytes == requests[0].length
    ensures Exact(size, length, waited, received) ==> received == requests[0].offset
  {
    hide Chunks;
    ChunkAt(0, size, length, waited);
  }

  /** The queue runs empty before everything was received only after an answer that was not full. */
  lemma EmptyAfterShortAnswer(
    size: nat, length: nat, depth: nat, begun: nat, waited: nat, requested: nat, received: nat)
    requires Accounted(size, length, [], begun, waited, requested, received)
    requires depth > 0 && received < size && (requested >= size || requested - received >= depth * length)
    ensures !Exact(size, length, waited, received)
  {
    hide Chunks;
    if length > 0 {
      Positive(depth, length);
    }
    assert |All(size, length)[waited..begun]| == begun - waited;
  }

  /** Once everything was received, every request was answered in full. */
  lemma AllAnswered(
    size: nat, length: nat, requests: seq<Request>, begun: nat, waited: nat, requested: nat, received: nat)
    requires Accounted(size, length, requests, begun, waited, requested, received)
    requires received >= size > 0
    ensures Exact(size, length, waited, received) && length > 0
    ensures waited == begun == |All(size, length)| && received == size
  {
    hide Chunks;
    if length > 0 && waited < |All(size, length)| {
      ChunkAt(0, size, length, waited);
    }
  }

  lemma Positive(a: nat, b: nat)
    requires a > 0 && b > 0
    ensures a * b > 0
  {
  }

  // ---------- download ----------

  /**
   Ends well exactly when nothing was to be read or every read is served in full, and then has the bytes of the source
   in order. An answer that is not full ends, if nothing fails, with the empty queue popped.
   */
  method DownloadFile(source: seq<Byte>, size: nat, readLength: nat, begins: nat -> bool, answers: nat -> int)
    returns (outcome: Outcome, local: seq<Byte>, ghost peak: nat, ghost peakBytes: nat)
    ensures outcome.Done? <==> size == 0 || ReadsServed(source, size, readLength, begins, answers)
    ensures outcome.Done? ==> size <= |source| && local == source[..size]
    ensures NothingFails(begins, answers) && size <= |source| ==> outcome.Done? || outcome.PoppedEmpty?
    ensures readLength == 0 && size > 0 ==> outcome.PoppedEmpty?
    ensures peak <= DepthFor(readLength) && peakBytes <= DepthFor(readLength) * readLength
  {
    hide Accounted, Exact, All, DepthFor, Read, Total, Max;
    local, peak, peakBytes := [], 0, 0;
    var requests: seq<Request> := [];
    var requested: nat, received: nat := 0, 0;
    var depth := DepthFor(readLength);
    var window := depth * readLength;
    var begun, waited := 0, 0; // the numbers of the next request and of the oldest unanswered one
    ghost var all := All(size, readLength);
    NothingBegun(size, readLength);
    while received < size
      invariant waited <= begun <= |all| && BegunUpTo(begins, begun)
      invariant Accounted(size, readLength, requests, begun, waited, requested, received)
      invariant readLength > 0 ==>
                (Exact(size, readLength, waited, received) <==> ReadUpTo(source, all, answers, waited))
      invariant Exact(size, readLength, waited, received) ==> received <= |source| && local == source[..received]
      invariant size == 0 ==> received == 0 && local == []
      invariant peak <= depth && peakBytes <= window
      decreases size - received
    {
      while requested < size && requested - received < window
        invariant waited <= begun <= |all| && BegunUpTo(begins, begun)
        invariant Accounted(size, readLength, requests, begun, waited, requested, received)
        invariant peak <= depth && peakBytes <= window
        decreases size - requested
      {
        var length := Min(readLength, size - requested);
        BeginsTheNext(size, readLength, depth, requests, begun, waited, requested, received);
        if !begins(begun) {
          outcome := BeginFailed;
          return;
        }
        requests := requests + [Request(requested, length)];
        requested := requested + length;
        begun := begun + 1;
        peak := Larger(peak, |requests|);
        peakBytes := Larger(peakBytes, Total(requests));
      }
      if requests == [] {
        EmptyAfterShortAnswer(size, readLength, depth, begun, waited, requested, received);
        outcome := PoppedEmpty;
        return;
      }
      var request := requests[0];
      var bytes := Read(source, request, answers(waited));
      AnswersTheOldest(size, readLength, requests, begun, waited, requested, received, if bytes < 0 then 0 else bytes);
      requests := requests[1..];
      if bytes <= 0 {
        outcome := WaitFailed;
        return;
      }
      local := local + source[request.offset..request.offset + bytes];
      received := received + bytes;
      waited := waited + 1;
    }
    if size > 0 {
      AllAnswered(size, readLength, requests, begun, waited, requested, received);
    }
    outcome := Done;
  }

  function Larger(a: nat, b: nat): nat {
    if a < b then b else a
  }

  // ---------- upload ----------

  /** The file after some bytes were written at an offset; a hole reads as zeros. */
  function WriteAt(file: seq<Byte>, offset: nat, data: seq<Byte>): seq<Byte> {
    if offset > |file| then file + seq(offset - |file|, _ => 0) + data
    else if offset + |data| < |file| then file[..offset] + data + file[offset + |data|..]
    else file[..offset] + data
  }

  lemma Appends(file: seq<Byte>, offset: nat, length: nat)
    requires offset + length <= |file|
    ensures WriteAt(file[..offset], offset, file[offset..offset + length]) == file[..offset + length]
  {
  }

  /** Reads the next bytes of the file over the start of the buffer; what the file lacks stays as it was. */
  method FillBuffer(file: seq<Byte>, position: nat, length: nat, buffer: seq<Byte>)
    returns (filled: seq<Byte>, next: nat)
    requires position <= |file| && length <= |buffer|
    ensures |filled| == |buffer| && next == Min(position + length, |file|)
    ensures filled[..next - position] == file[position..next] && filled[next - position..] == buffer[next - position..]
  {
    next := Min(position + length, |file|);
    filled := file[position..next] + buffer[next - position..];
  }

  /** The packets on their way carry the bytes of the file their requests tell of, as far as the file has them. */
  ghost predicate Carry(file: seq<Byte>, requests: seq<Request>, packets: seq<seq<Byte>>) {
    && |packets| == |requests|
    && forall k | 0 <= k < |requests| :: CarriesOne(file, requests[k], packets[k])
  }

  ghost predicate CarriesOne(file: seq<Byte>, request: Request, packet: seq<Byte>) {
    && |packet| == request.length
    && (request.offset + request.length <= |file| ==> packet == file[request.offset..request.offset + request.length])
  }

  /**
   Ends well exactly when nothing was to be sent or every write is served in full, and then has written the bytes of
   the file in order, provided the file has as many as are sent.
   */
  method UploadFile(file: seq<Byte>, size: nat, writeLength: nat, begins: nat -> bool, answers: nat -> int)
    returns (outcome: Outcome, remote: seq<Byte>, ghost peak: nat, ghost peakBytes: nat)
    ensures outcome.Done? <==> size == 0 || WritesServed(size, writeLength, begins, answers)
    ensures outcome.Done? && size <= |file| ==> remote == file[..size]
    ensures NothingFails(begins, answers) ==> outcome.Done? || outcome.PoppedEmpty?
    ensures writeLength == 0 && size > 0 ==> outcome.PoppedEmpty?
    ensures peak <= DepthFor(writeLength) && peakBytes <= DepthFor(writeLength) * writeLength
  {
    hide Accounted, Exact, All, DepthFor, Total, WriteAt;
    remote, peak, peakBytes := [], 0, 0;
    var buffer: seq<Byte> := seq(writeLength, _ => 0);
    var position: nat := 0;
    var requests: seq<Request> := [];
    var packets: seq<seq<Byte>> := [];
    var sent: nat, acknowledged: nat := 0, 0;
    var depth := DepthFor(writeLength);
    var window := depth * writeLength;
    var begun, waited := 0, 0; // the numbers of the next request and of the oldest unanswered one
    ghost var all := All(size, writeLength);
    NothingBegun(size, writeLength);
    while acknowledged < size
      invariant waited <= begun <= |all| && BegunUpTo(begins, begun)
      invariant Accounted(size, writeLength, requests, begun, waited, sent, acknowledged)
      invariant writeLength > 0 ==>
                (Exact(size, writeLength, waited, acknowledged) <==> WrittenUpTo(all, answers, waited))
      invariant |buffer| == writeLength && position == Min(sent, |file|) && Carry(file, requests, packets)
      invariant size <= |file| && Exact(size, writeLength, waited, acknowledged) ==>
          acknowledged <= size && remote == file[..acknowledged]
      invariant size == 0 ==> acknowledged == 0 && remote == []
      invariant peak <= depth && peakBytes <= window
      decreases size - acknowledged
    {
      while sent < size && sent - acknowledged < window
        invariant waited <= begun <= |all| && BegunUpTo(begins, begun)
        invariant Accounted(size, writeLength, requests, begun, waited, sent, acknowledged)
        invariant |buffer| == writeLength && position == Min(sent, |file|) && Carry(file, requests, packets)
        invariant peak <= depth && peakBytes <= window
        decreases size - sent
      {
        var length := Min(writeLength, size - sent);
        BeginsTheNext(size, writeLength, depth, requests, begun, waited, sent, acknowledged);
        buffer, position := FillBuffer(file, position, length, buffer);
        if !begins(begun) {
          outcome := BeginFailed;
          return;
        }
        assert CarriesOne(file, Request(sent, length), buffer[..length]);
        requests := requests + [Request(sent, length)];
        packets := packets + [buffer[..length]];
        sent := sent + length;
        begun := begun + 1;
        peak := Larger(peak, |requests|);
        peakBytes := Larger(peakBytes, Total(requests));
      }
      if requests == [] {
        EmptyAfterShortAnswer(size, writeLength, depth, begun, waited, sent, acknowledged);
        outcome := PoppedEmpty;
        return;
      }
      var request, packet := requests[0], packets[0];
      assert CarriesOne(file, request, packet);
      var bytes := Written(request, answers(waited));
      AnswersTheOldest(size, writeLength, requests, begun, waited, sent, acknowledged, if bytes < 0 then 0 else bytes);
      requests, packets := requests[1..], packets[1..];
      if bytes <= 0 {
        outcome := WaitFailed;
        return;
      }
      if size <= |file| {
        Appends(file, request.offset, request.length);
      }
      assert bytes == request.length ==> packet[..bytes] == packet;
      remote := WriteAt(remote, request.offset, packet[..bytes]);
      acknowledged := acknowledged + bytes;
      waited := waited + 1;
    }
    if size > 0 {
      AllAnswered(size, writeLength, requests, begun, waited, sent, acknowledged);
    }
    outcome := Done;
  }
}
