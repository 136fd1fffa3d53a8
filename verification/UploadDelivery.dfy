/** Every upload hears its end exactly once, with what the server said of its own destination. */
module UploadDelivery {
  import opened Wrappers
  import opened UploadEnds

  // ---------- exactly once ----------

  function TimesTold(heard: seq<Told>, ending: nat, index: nat): nat {
    if heard == [] then 0
    else
      var last := heard[|heard| - 1];
      TimesTold(heard[..|heard| - 1], ending, index) + if last.ending == ending && last.index == index then 1 else 0
  }

  function TimesAsking(asking: seq<Asking>, index: nat): nat {
    if asking == [] then 0
    else TimesAsking(asking[..|asking| - 1], index) + if asking[|asking| - 1].index == index then 1 else 0
  }

  function TimesIn(delivery: Delivery, ending: nat, index: nat): nat {
    if delivery.ending == ending then TimesAsking(delivery.asking, index) else 0
  }

  function TimesPosted(posted: seq<Posted>, ending: nat, index: nat): nat {
    if posted == [] then 0
    else
      TimesPosted(posted[..|posted| - 1], ending, index) + TimesIn(posted[|posted| - 1].delivery, ending, index)
  }

  function TimesOwed(request: Request, ending: nat, index: nat): nat {
    if request.delivery.None? then 0 else TimesIn(request.delivery.value, ending, index)
  }

  function TimesRequested(requests: seq<Request>, ending: nat, index: nat): nat {
    if requests == [] then 0
    else
      TimesRequested(requests[..|requests| - 1], ending, index) + TimesOwed(requests[|requests| - 1], ending, index)
  }

  /** How often the end of an upload was told or is on its way. */
  function Times(system: System, ending: nat, index: nat): nat {
    TimesTold(system.heard, ending, index) + TimesPosted(system.posted, ending, index)
    + TimesRequested(system.requests, ending, index)
  }

  lemma {:induction false} ToldAdd(a: seq<Told>, b: seq<Told>, ending: nat, index: nat)
    ensures TimesTold(a + b, ending, index) == TimesTold(a, ending, index) + TimesTold(b, ending, index)
  {
    if b == [] {
      assert a + b == a;
    } else {
      assert (a + b)[..|a + b| - 1] == a + b[..|b| - 1];
      ToldAdd(a, b[..|b| - 1], ending, index);
    }
  }

  lemma {:induction false} PostedAdd(a: seq<Posted>, b: seq<Posted>, ending: nat, index: nat)
    ensures TimesPosted(a + b, ending, index) == TimesPosted(a, ending, index) + TimesPosted(b, ending, index)
  {
    if b == [] {
      assert a + b == a;
    } else {
      assert (a + b)[..|a + b| - 1] == a + b[..|b| - 1];
      PostedAdd(a, b[..|b| - 1], ending, index);
    }
  }

  lemma OnePosted(post: Posted, ending: nat, index: nat)
    ensures TimesPosted([post], ending, index) == TimesIn(post.delivery, ending, index)
  {
    assert [post][..0] == [];
  }

  lemma OneMoreRequest(requests: seq<Request>, request: Request, ending: nat, index: nat)
    ensures TimesRequested(requests + [request], ending, index)
            == TimesRequested(requests, ending, index) + TimesOwed(request, ending, index)
  {
    assert (requests + [request])[..|requests|] == requests;
  }

  lemma {:induction false} RequestReplaced(requests: seq<Request>, k: nat, next: Request, ending: nat, index: nat)
    requires k < |requests|
    ensures TimesRequested(requests[k := next], ending, index) + TimesOwed(requests[k], ending, index)
            == TimesRequested(requests, ending, index) + TimesOwed(next, ending, index)
  {
    var last := |requests| - 1;
    if k == last {
      assert requests[k := next][..last] == requests[..last];
    } else {
      assert requests[k := next][..last] == requests[..last][k := next];
      RequestReplaced(requests[..last], k, next, ending, index);
    }
  }

  lemma {:induction false} DeliveredOnce(delivery: Delivery, states: States, ending: nat, index: nat)
    requires |states| == |delivery.asking|
    ensures TimesTold(ToldWith(delivery, states), ending, index) == TimesIn(delivery, ending, index)
    decreases |states|
  {
    var told := ToldWith(delivery, states);
    if told != [] {
      var n := |states| - 1;
      var shorter := Delivery(delivery.ending, delivery.asking[..n]);
      DeliveredOnce(shorter, states[..n], ending, index);
      assert told[..n] == ToldWith(shorter, states[..n]);
    }
  }

  lemma OneMoreTold(told: seq<Told>, next: Told, ending: nat, index: nat)
    ensures TimesTold(told + [next], ending, index)
            == TimesTold(told, ending, index) + if next.ending == ending && next.index == index then 1 else 0
  {
    assert (told + [next])[..|told|] == told;
  }

  lemma OneMoreAsking(asking: seq<Asking>, next: Asking, index: nat)
    ensures TimesAsking(asking + [next], index) == TimesAsking(asking, index) + if next.index == index then 1 else 0
  {
    assert (asking + [next])[..|asking|] == asking;
  }

  /** Told or asking so far, an upload is told or asking once. */
  ghost predicate CountedAt(id: nat, ending: Ending, n: nat, other: nat, index: nat)
    requires n <= |ending.uploads|
  {
    TimesTold(TellsNow(id, ending, n), other, index) + TimesIn(Delivery(id, AskingOf(ending, n)), other, index)
    == if other == id && index < n then 1 else 0
  }

  lemma OneMoreIsCounted(id: nat, ending: Ending, n: nat, other: nat, index: nat)
    requires n < |ending.uploads| && CountedAt(id, ending, n, other, index)
    ensures CountedAt(id, ending, n + 1, other, index)
  {
    hide TimesTold, TimesAsking, TellsNow, AskingOf;
    OneUploadMore(id, ending, n);
    OneMoreTold(TellsNow(id, ending, n), Told(id, n, ending.uploads[n].end), other, index);
    OneMoreAsking(AskingOf(ending, n), Asking(n, ending.uploads[n].end), index);
  }

  lemma NoneIsCounted(id: nat, ending: Ending, other: nat, index: nat)
    ensures CountedAt(id, ending, 0, other, index)
  {
  }

  /** At its end every upload is either told at once or waits for an answer, never both. */
  lemma {:induction false} ToldNowOrAsking(id: nat, ending: Ending, n: nat, other: nat, index: nat)
    requires n <= |ending.uploads|
    ensures CountedAt(id, ending, n, other, index)
  {
    hide CountedAt;
    if n == 0 {
      NoneIsCounted(id, ending, other, index);
    } else {
      ToldNowOrAsking(id, ending, n - 1, other, index);
      OneMoreIsCounted(id, ending, n - 1, other, index);
    }
  }

  function Expected(system: System, ending: nat, index: nat): nat {
    if ending < |system.endings| && index < |system.endings[ending].uploads| then 1 else 0
  }

  lemma EndingsAreCounted(system: System, ending: Ending, way: Way, other: nat, index: nat)
    requires LengthsFit(system) && Times(system, other, index) == Expected(system, other, index)
    ensures var after := Ended(system, ending, way); Times(after, other, index) == Expected(after, other, index)
  {
    hide AskingOf, TellsNow, TimesTold, TimesPosted, TimesRequested, TimesIn, ToldWith;
    var id, all := |system.endings|, |ending.uploads|;
    var asking := AskingOf(ending, all);
    var delivery := Delivery(id, asking);
    var request := Request(PathsAsked(ending), Unasked(|asking|), Some(delivery));
    ToldNowOrAsking(id, ending, all, other, index);
    ToldAdd(system.heard, TellsNow(id, ending, all), other, index);
    ToldAdd(system.heard + TellsNow(id, ending, all), ToldWith(delivery, Unasked(|asking|)), other, index);
    DeliveredOnce(delivery, Unasked(|asking|), other, index);
    OneMoreRequest(system.requests, request, other, index);
    OneMoreRequest(system.requests, Settled(request), other, index);
    PostedAdd(system.posted, PostOf(request), other, index);
    OnePosted(Posted(delivery, Unasked(|asking|)), other, index);
    NothingAsking(id, other, index);
  }

  lemma NothingAsking(id: nat, ending: nat, index: nat)
    ensures TimesIn(Delivery(id, []), ending, index) == 0
  {
  }

  lemma SettlingIsCounted(system: System, k: nat, request: Request, ending: nat, index: nat)
    requires Live(system, k) && request.delivery == system.requests[k].delivery
    ensures TimesRequested(system.requests[k := Settled(request)], ending, index)
            + TimesPosted(system.posted + PostOf(request), ending, index)
            == TimesRequested(system.requests, ending, index) + TimesPosted(system.posted, ending, index)
  {
    RequestReplaced(system.requests, k, Settled(request), ending, index);
    PostedAdd(system.posted, PostOf(request), ending, index);
    OnePosted(Posted(request.delivery.value, request.states), ending, index);
  }

  lemma RunningIsCounted(system: System, ending: nat, index: nat)
    requires LengthsFit(system) && system.posted != []
    ensures Times(After(system, RunPosted), ending, index) == Times(system, ending, index)
  {
    hide TimesTold, TimesPosted, TimesIn, ToldWith;
    var first := system.posted[0];
    DeliveredOnce(first.delivery, first.states, ending, index);
    ToldAdd(system.heard, ToldWith(first.delivery, first.states), ending, index);
    PostedAdd([first], system.posted[1..], ending, index);
    OnePosted(first, ending, index);
    assert [first] + system.posted[1..] == system.posted;
  }

  lemma StepsAreCounted(system: System, event: Event, ending: nat, index: nat)
    requires LengthsFit(system) && Times(system, ending, index) == Expected(system, ending, index)
    ensures var after := After(system, event); Times(after, ending, index) == Expected(after, ending, index)
  {
    hide TimesTold, TimesPosted, TimesRequested, Ended;
    match event {
      case End(ended, way) =>
        EndingsAreCounted(system, ended, way, ending, index);
      case Ask(k, server) =>
        if Live(system, k) {
          SettlingIsCounted(system, k, AskedBy(system.requests[k], server), ending, index);
        }
      case Drop(k) =>
        if Live(system, k) {
          SettlingIsCounted(system, k, system.requests[k], ending, index);
        }
      case RunPosted =>
        if system.posted != [] {
          RunningIsCounted(system, ending, index);
        }
    }
  }

  /**
   After any run the end of every upload of every operation that ended was told once or is on its way once, and no
   other end is: whether the session was gone, it had no channel, the channel dropped the request or the server
   answered.
   */
  lemma {:induction false} EveryEndIsToldOnce(events: seq<Event>, ending: nat, index: nat)
    ensures var system := Run(events); Times(system, ending, index) == Expected(system, ending, index)
  {
    if events != [] {
      EveryEndIsToldOnce(events[..|events| - 1], ending, index);
      hide Times, Expected;
      StepsAreCounted(Run(events[..|events| - 1]), events[|events| - 1], ending, index);
    }
  }

  /** Nothing waits for a channel and no task is posted. */
  ghost predicate Quiet(system: System) {
    system.posted == [] && forall k | 0 <= k < |system.requests| :: system.requests[k].delivery.None?
  }

  lemma {:induction false} NothingRequested(requests: seq<Request>, ending: nat, index: nat)
    requires forall k | 0 <= k < |requests| :: requests[k].delivery.None?
    ensures TimesRequested(requests, ending, index) == 0
  {
    if requests != [] {
      NothingRequested(requests[..|requests| - 1], ending, index);
    }
  }

  /** Once the channels let go of their requests and the strand ran its tasks, every upload has heard its end. */
  lemma EveryUploadHeardItsEndOnce(events: seq<Event>, ending: nat, index: nat)
    requires Quiet(Run(events))
    ensures TimesTold(Run(events).heard, ending, index) == Expected(Run(events), ending, index)
  {
    EveryEndIsToldOnce(events, ending, index);
    NothingRequested(Run(events).requests, ending, index);
  }

  // ---------- the right end ----------

  /** What an upload hears: its own end, with the server's answer about its own destination if it was asked. */
  function EndOf(system: System, ending: nat, index: nat): UploadEnd
    requires ending < |system.endings| && index < |system.endings[ending].uploads|
  {
    var upload := system.endings[ending].uploads[index];
    if AsksState(upload.end, system.endings[ending].isDirectory) then
      upload.end.(
        destinationState := if ending in system.answers then system.answers[ending](upload.destination) else None)
    else upload.end
  }

  ghost predicate ToldRight(system: System, told: Told) {
    && told.ending < |system.endings| && told.index < |system.endings[told.ending].uploads|
    && told.end == EndOf(system, told.ending, told.index)
  }

  ghost predicate DeliveryRight(system: System, delivery: Delivery) {
    && delivery.ending < |system.endings|
    && var ending := system.endings[delivery.ending];
       delivery.asking == AskingOf(ending, |ending.uploads|)
  }

  ghost predicate RequestRight(system: System, request: Request) {
    request.delivery.Some? ==>
      && DeliveryRight(system, request.delivery.value)
      && request.delivery.value.ending !in system.answers
      && request.paths == PathsAsked(system.endings[request.delivery.value.ending])
      && request.states == Unasked(|request.paths|)
  }

  /** The states of the destinations of an operation, as far as the server told them. */
  function StatesOf(system: System, id: nat): States
    requires id < |system.endings|
  {
    var paths := PathsAsked(system.endings[id]);
    if id in system.answers then seq(|paths|, k requires 0 <= k < |paths| => system.answers[id](paths[k]))
    else Unasked(|paths|)
  }

  ghost predicate PostRight(system: System, post: Posted) {
    DeliveryRight(system, post.delivery) && post.states == StatesOf(system, post.delivery.ending)
  }

  ghost predicate Right(system: System) {
    && (forall k | 0 <= k < |system.heard| :: ToldRight(system, system.heard[k]))
    && (forall k | 0 <= k < |system.posted| :: PostRight(system, system.posted[k]))
    && (forall k | 0 <= k < |system.requests| :: RequestRight(system, system.requests[k]))
    && (forall id | id in system.answers :: id < |system.endings|)
  }

  ghost predicate Owes(request: Request, id: nat) {
    request.delivery.Some? && request.delivery.value.ending == id
  }

  /** The told end is one that waited for the server. */
  ghost predicate Waited(system: System, told: Told) {
    && told.ending < |system.endings| && told.index < |system.endings[told.ending].uploads|
    && AsksState(system.endings[told.ending].uploads[told.index].end, system.endings[told.ending].isDirectory)
  }

  /** The ends of a request that is still owed are nowhere else. */
  ghost predicate Apart(system: System) {
    forall j: nat | Live(system, j) ::
      var id := system.requests[j].delivery.value.ending;
      && (forall k | 0 <= k < |system.posted| :: system.posted[k].delivery.ending != id)
      && (forall k | 0 <= k < |system.heard| && system.heard[k].ending == id :: !Waited(system, system.heard[k]))
      && (forall k | 0 <= k < |system.requests| && k != j :: !Owes(system.requests[k], id))
  }

  ghost predicate ToldNowRight(system: System, id: nat, told: seq<Told>) {
    forall k | 0 <= k < |told| :: told[k].ending == id && ToldRight(system, told[k]) && !Waited(system, told[k])
  }

  lemma {:induction false} ToldAtOnceIsRight(system: System, id: nat, n: nat)
    requires id < |system.endings| && n <= |system.endings[id].uploads|
    ensures ToldNowRight(system, id, TellsNow(id, system.endings[id], n))
  {
    if n > 0 {
      ToldAtOnceIsRight(system, id, n - 1);
      hide TellsNow;
      OneUploadMore(id, system.endings[id], n - 1);
    }
  }

  lemma DeliveredIsRight(system: System, delivery: Delivery, states: States)
    requires DeliveryRight(system, delivery) && states == StatesOf(system, delivery.ending)
    ensures forall k | 0 <= k < |ToldWith(delivery, states)| ::
              ToldWith(delivery, states)[k].ending == delivery.ending
              && ToldRight(system, ToldWith(delivery, states)[k])
  {
  }

  /** What a new ending leaves: what was there, what it tells now, and at most one request. */
  lemma OldIsStillRight(system: System, after: System, ending: Ending)
    requires Right(system) && after.endings == system.endings + [ending] && after.answers == system.answers
    ensures forall k | 0 <= k < |system.heard| :: ToldRight(after, system.heard[k])
    ensures forall k | 0 <= k < |system.posted| :: PostRight(after, system.posted[k])
    ensures forall k | 0 <= k < |system.requests| :: RequestRight(after, system.requests[k])
    ensures forall id | id in after.answers :: id < |system.endings|
    ensures forall k | 0 <= k < |system.heard| :: system.heard[k].ending < |system.endings|
    ensures forall k | 0 <= k < |system.heard| && Waited(after, system.heard[k]) :: Waited(system, system.heard[k])
    ensures forall k | 0 <= k < |system.posted| :: system.posted[k].delivery.ending < |system.endings|
    ensures forall k: nat | Live(system, k) :: system.requests[k].delivery.value.ending < |system.endings|
  {
    hide AskingOf, PathsAsked;
    forall k | 0 <= k < |system.heard| ensures ToldRight(after, system.heard[k]) {
      assert ToldRight(system, system.heard[k]);
    }
    forall k | 0 <= k < |system.posted| ensures PostRight(after, system.posted[k]) {
      assert PostRight(system, system.posted[k]);
    }
    forall k | 0 <= k < |system.requests| ensures RequestRight(after, system.requests[k]) {
      assert RequestRight(system, system.requests[k]);
    }
  }

  lemma NewIsRight(system: System, id: nat)
    requires id < |system.endings| && id !in system.answers
    ensures var ending := system.endings[id];
            var asking := AskingOf(ending, |ending.uploads|);
            var delivery, states := Delivery(id, asking), Unasked(|asking|);
            && RequestRight(system, Request(PathsAsked(ending), states, Some(delivery)))
            && PostRight(system, Posted(delivery, states))
            && (forall k | 0 <= k < |ToldWith(delivery, states)| ::
                  ToldWith(delivery, states)[k].ending == id && ToldRight(system, ToldWith(delivery, states)[k]))
  {
    hide AskingOf, ToldWith;
    var asking := AskingOf(system.endings[id], |system.endings[id].uploads|);
    assert StatesOf(system, id) == Unasked(|asking|);
    DeliveredIsRight(system, Delivery(id, asking), Unasked(|asking|));
  }

  lemma EndingKeepsRight(system: System, ending: Ending, way: Way)
    requires LengthsFit(system) && Right(system) && Apart(system)
    ensures Right(Ended(system, ending, way))
  {
    hide AskingOf, TellsNow, ToldWith, PathsAsked, ToldRight, PostRight, Waited, DeliveryRight;
    var after := Ended(system, ending, way);
    OldIsStillRight(system, after, ending);
    ToldAtOnceIsRight(after, |system.endings|, |ending.uploads|);
    NewIsRight(after, |system.endings|);
  }

  lemma EndingKeepsApart(system: System, ending: Ending, way: Way)
    requires LengthsFit(system) && Right(system) && Apart(system)
    ensures Apart(Ended(system, ending, way))
  {
    hide AskingOf, TellsNow, ToldWith, PathsAsked, ToldRight, PostRight, RequestRight, Waited;
    var after := Ended(system, ending, way);
    OldIsStillRight(system, after, ending);
    ToldAtOnceIsRight(after, |system.endings|, |ending.uploads|);
    NewIsRight(after, |system.endings|);
  }

  lemma AskingKeepsRight(system: System, k: nat, server: Server)
    requires LengthsFit(system) && Right(system) && Apart(system) && Live(system, k)
    ensures Right(Asked(system, k, server)) && Apart(Asked(system, k, server))
  {
    hide AskingOf, PathsAsked;
    var after := Asked(system, k, server);
    var request := system.requests[k];
    var id := request.delivery.value.ending;
    assert AskedBy(request, server).states == StatesOf(after, id);
    forall j | 0 <= j < |after.heard| ensures ToldRight(after, after.heard[j]) {
      assert ToldRight(system, system.heard[j]);
    }
    forall j | 0 <= j < |after.posted| ensures PostRight(after, after.posted[j]) {
      assert j < |system.posted| ==> PostRight(system, system.posted[j]);
    }
  }

  lemma DroppingKeepsRight(system: System, k: nat)
    requires LengthsFit(system) && Right(system) && Apart(system) && Live(system, k)
    ensures Right(Dropped(system, k)) && Apart(Dropped(system, k))
  {
    hide AskingOf, PathsAsked;
    assert RequestRight(system, system.requests[k]);
  }

  lemma RunningKeepsRight(system: System)
    requires LengthsFit(system) && Right(system) && Apart(system) && system.posted != []
    ensures Right(After(system, RunPosted)) && Apart(After(system, RunPosted))
  {
    hide AskingOf, PathsAsked, ToldWith;
    var first := system.posted[0];
    assert PostRight(system, first);
    DeliveredIsRight(system, first.delivery, first.states);
  }

  /**
   In every run each upload hears its own end, and an end that waited for the server carries what the server said of
   that upload's destination, or nothing when nobody was asked.
   */
  lemma {:induction false} EveryUploadHearsItsOwnEnd(events: seq<Event>)
    ensures Right(Run(events)) && Apart(Run(events))
  {
    if events == [] {
      NothingIsRight();
    } else {
      var before := Run(events[..|events| - 1]);
      EveryUploadHearsItsOwnEnd(events[..|events| - 1]);
      StepsKeepRight(before, events[|events| - 1]);
    }
  }

  lemma NothingIsRight()
    ensures Right(Initial) && Apart(Initial)
  {
  }

  lemma StepsKeepRight(system: System, event: Event)
    requires LengthsFit(system) && Right(system) && Apart(system)
    ensures Right(After(system, event)) && Apart(After(system, event))
  {
    hide Right, Apart, Ended, Asked, Dropped;
    match event {
      case End(ended, way) =>
        EndingKeepsRight(system, ended, way);
        EndingKeepsApart(system, ended, way);
      case Ask(k, server) =>
        if Live(system, k) {
          AskingKeepsRight(system, k, server);
        }
      case Drop(k) =>
        if Live(system, k) {
          DroppingKeepsRight(system, k);
        }
      case RunPosted =>
        if system.posted != [] {
          RunningKeepsRight(system);
        }
    }
  }
}
