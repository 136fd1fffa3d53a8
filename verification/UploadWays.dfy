/** When the uploads of an operation hear their end, by what is left of the session, and in which order. */
module UploadWays {
  import opened Wrappers
  import opened UploadEnds
  import opened UploadDelivery

  lemma {:induction false} ToldAtOnceIffNotAsking(id: nat, ending: Ending, n: nat, index: nat)
    requires n <= |ending.uploads|
    ensures TimesTold(TellsNow(id, ending, n), id, index) ==
            if index < n && !AsksState(ending.uploads[index].end, ending.isDirectory) then 1 else 0
  {
    if n > 0 {
      hide TellsNow, TimesTold, AskingOf;
      ToldAtOnceIffNotAsking(id, ending, n - 1, index);
      OneUploadMore(id, ending, n - 1);
      OneMoreTold(TellsNow(id, ending, n - 1), Told(id, n - 1, ending.uploads[n - 1].end), id, index);
    }
  }

  lemma {:induction false} NothingAsked(id: nat, ending: Ending, n: nat)
    requires n <= |ending.uploads| && AskingOf(ending, n) == []
    ensures forall index | 0 <= index < n :: !AsksState(ending.uploads[index].end, ending.isDirectory)
  {
    if n > 0 {
      NothingAsked(id, ending, n - 1);
    }
  }

  /**
   In any run, when an operation ends: an upload the server need not be asked about hears its end at once, and with the
   session gone all of them do. Without a channel the others' ends are posted, and over a channel they wait for it.
   */
  lemma WaysOfTelling(events: seq<Event>, ending: Ending, way: Way, index: nat)
    requires index < |ending.uploads|
    ensures var id, after := |Run(events).endings|, Run(events + [End(ending, way)]);
            var asks := AsksState(ending.uploads[index].end, ending.isDirectory);
            && TimesTold(after.heard, id, index) == (if asks && way != SessionGone then 0 else 1)
            && TimesPosted(after.posted, id, index) == (if asks && way == NoChannel then 1 else 0)
            && TimesRequested(after.requests, id, index) == (if asks && way == OverChannel then 1 else 0)
  {
    var system := Run(events);
    assert (events + [End(ending, way)])[..|events|] == events;
    EveryEndIsToldOnce(events, |system.endings|, index);
    hide Run;
    WaysOfEnding(system, ending, way, index);
  }

  lemma WaysOfEnding(system: System, ending: Ending, way: Way, index: nat)
    requires LengthsFit(system) && index < |ending.uploads|
    requires Times(system, |system.endings|, index) == 0
    ensures var id, after := |system.endings|, Ended(system, ending, way);
            var asks := AsksState(ending.uploads[index].end, ending.isDirectory);
            && TimesTold(after.heard, id, index) == (if asks && way != SessionGone then 0 else 1)
            && TimesPosted(after.posted, id, index) == (if asks && way == NoChannel then 1 else 0)
            && TimesRequested(after.requests, id, index) == (if asks && way == OverChannel then 1 else 0)
  {
    hide AskingOf, TellsNow, TimesTold, TimesPosted, TimesRequested, TimesAsking, ToldWith;
    var id, all := |system.endings|, |ending.uploads|;
    var asking := AskingOf(ending, all);
    var delivery := Delivery(id, asking);
    var request := Request(PathsAsked(ending), Unasked(|asking|), Some(delivery));
    var told := TellsNow(id, ending, all);
    ToldNowOrAsking(id, ending, all, id, index);
    ToldAtOnceIffNotAsking(id, ending, all, index);
    if asking == [] {
      NothingAsked(id, ending, all);
    }
    ToldAdd(system.heard, told, id, index);
    ToldAdd(system.heard + told, ToldWith(delivery, Unasked(|asking|)), id, index);
    DeliveredOnce(delivery, Unasked(|asking|), id, index);
    OneMoreRequest(system.requests, request, id, index);
    OneMoreRequest(system.requests, Settled(request), id, index);
    PostedAdd(system.posted, PostOf(request), id, index);
    OnePosted(Posted(delivery, Unasked(|asking|)), id, index);
  }

  // ---------- order ----------

  function AllTold(posted: seq<Posted>): seq<Told>
    requires forall k | 0 <= k < |posted| :: |posted[k].states| == |posted[k].delivery.asking|
  {
    if posted == [] then []
    else AllTold(posted[..|posted| - 1]) + ToldWith(posted[|posted| - 1].delivery, posted[|posted| - 1].states)
  }

  lemma {:induction false} FirstToldFirst(posted: seq<Posted>)
    requires posted != []
    requires forall k | 0 <= k < |posted| :: |posted[k].states| == |posted[k].delivery.asking|
    ensures AllTold(posted) == ToldWith(posted[0].delivery, posted[0].states) + AllTold(posted[1..])
  {
    hide ToldWith;
    var n := |posted| - 1;
    if n == 0 {
      assert posted[..0] == [] && posted[1..] == [];
    } else {
      FirstToldFirst(posted[..n]);
      assert posted[1..][..n - 1] == posted[..n][1..] && posted[1..][n - 1] == posted[n];
    }
  }

  /** Whatever is posted in between, what is posted now is told in the order in which it was posted. */
  lemma {:induction false} PostedIsToldInOrder(events: seq<Event>, more: seq<Event>)
    requires forall k | 0 <= k < |more| :: more[k] == RunPosted
    requires |more| == |Run(events).posted|
    ensures Run(events + more).heard == Run(events).heard + AllTold(Run(events).posted)
    ensures Run(events + more).posted == []
    decreases |more|
  {
    hide ToldWith, Run, AllTold;
    if more == [] {
      assert events + more == events;
      NothingPosted(Run(events).posted);
    } else {
      var next := events + [RunPosted];
      assert next + more[1..] == events + more;
      OneTaskLess(events);
      PostedIsToldInOrder(next, more[1..]);
      FirstToldFirst(Run(events).posted);
    }
  }

  lemma NothingPosted(posted: seq<Posted>)
    requires posted == []
    ensures AllTold(posted) == []
  {
  }

  lemma OneTaskLess(events: seq<Event>)
    requires Run(events).posted != []
    ensures var before, after := Run(events), Run(events + [RunPosted]);
            && after.posted == before.posted[1..]
            && after.heard == before.heard + ToldWith(before.posted[0].delivery, before.posted[0].states)
  {
    hide ToldWith;
    assert (events + [RunPosted])[..|events|] == events;
  }

  /** What is posted comes behind all that is posted already. */
  lemma PostedComesLast(events: seq<Event>, last: Event)
    requires last != RunPosted
    ensures Run(events).posted <= Run(events + [last]).posted
    ensures last.Ask? || last.Drop? ==> Run(events + [last]).heard == Run(events).heard
  {
    hide ToldWith, AskingOf, TellsNow;
    assert (events + [last])[..|events|] == events;
  }
}
