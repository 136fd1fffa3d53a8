/**
 When attempts count 1, 2, 3, … and stay within the limit, and what breaks it: settings of a canceled cycle that are
 still on their way when the next cycle opens.
 */
module ReconnectLimits {
  import opened ReconnectCycle
  import opened ReconnectRuns

  // ---------- one state ----------

  /**
   After Reconnect and any two settings the attempts count exactly when no settings were on their way before; otherwise
   the first attempt is made twice.
   */
  lemma RequestCountsIffNothingIsPending(area: Area, tab: TabId, first: Options, second: Options)
    requires tab !in area.cycles && HasSession(area, tab)
    ensures var requested := After(area, Request(tab));
            var once := After(requested, LoadEnd(tab, Found(first)));
            var twice := After(once, LoadEnd(tab, Found(second)));
            && tab in twice.cycles
            && twice.cycles[tab].attempts == (if LoadsOf(area, tab) == 0 then [1] else [1, 1])
            && (Counted(twice.cycles[tab]) <==> LoadsOf(area, tab) == 0)
            && KeepsLimit(requested, LoadEnd(tab, Found(first)))
            && (MaxAttempts(first) == MaxAttempts(second) ==> KeepsLimit(once, LoadEnd(tab, Found(second))))
  {
    var requested := After(area, Request(tab));
    var once := After(requested, LoadEnd(tab, Found(first)));
    var twice := After(once, LoadEnd(tab, Found(second)));
    assert once.cycles[tab].attempts == [1];
    assert LoadsOf(area, tab) > 0 ==> twice.cycles[tab].attempts[1] == 1;
  }

  /**
   After Now in a cycle and any two settings that keep the limit, the attempts count exactly when no settings were on
   their way before and the attempt made was not the last one allowed.
   */
  lemma NowCountsIffNotFinal(area: Area, tab: TabId, options: Options)
    requires Sound(area) && tab in area.cycles
    requires KeepsLimit(After(area, Now(tab)), LoadEnd(tab, Found(options)))
    ensures var load := LoadEnd(tab, Found(options));
            var after := After(After(After(area, Now(tab)), load), load);
            && tab in after.cycles
            && (Counted(after.cycles[tab]) <==> LoadsOf(area, tab) == 0 && !IsFinal(area.cycles[tab]))
  {
    assert TabSound(area, tab);
    var cycle := area.cycles[tab];
    assert InPhase(area, tab, cycle);
    var load := LoadEnd(tab, Found(options));
    var now := After(area, Now(tab));
    var once := After(now, load);
    var after := After(once, load);
    assert now.cycles[tab].attempts == cycle.attempts && now.cycles[tab].attempt == cycle.attempt + 1;
    assert once.cycles[tab].attempts == cycle.attempts + [cycle.attempt + 1];
    if LoadsOf(area, tab) > 0 {
      assert after.cycles[tab].attempts[|cycle.attempts|] == |cycle.attempts| + 2;
    } else {
      assert after == once;
    }
  }

  // ---------- runs ----------

  ghost predicate AllCounted(area: Area) {
    && (forall tab | tab in area.cycles :: Counted(area.cycles[tab]))
    && (forall i | 0 <= i < |area.ended| :: Counted(area.ended[i].cycle))
  }

  predicate NoRequests(events: seq<Event>) {
    forall i | 0 <= i < |events| :: !events[i].Request?
  }

  /** The attempts count, and go on to count whatever the overlay offers but another Reconnect. */
  ghost predicate GoesOnCounting(start: Area, events: seq<Event>) {
    forall more | NoRequests(more) && OfferedRun(start, events + more) :: AllCounted(Run(start, events + more))
  }

  ghost predicate CountsThroughout(start: Area, events: seq<Event>) {
    GoesOnCounting(start, events) && (events != [] ==> CountsThroughout(start, events[..|events| - 1]))
  }

  /** A disciplined run stays one without another Reconnect. */
  lemma {:induction false} StaysDisciplined(start: Area, events: seq<Event>, more: seq<Event>)
    requires DisciplinedRun(start, events) && NoRequests(more) && OfferedRun(start, events + more)
    ensures DisciplinedRun(start, events + more)
  {
    hide Offered, KeepsLimit, Run;
    if more == [] {
      assert events + more == events;
    } else {
      var front, last := more[..|more| - 1], more[|more| - 1];
      assert (events + more)[..|events + more| - 1] == events + front;
      StaysDisciplined(start, events, front);
    }
  }

  lemma DisciplinedGoesOnCounting(start: Area, events: seq<Event>)
    requires Idle(start) && DisciplinedRun(start, events)
    ensures GoesOnCounting(start, events)
  {
    hide Idle, DisciplinedRun, OfferedRun, Run, Counted;
    forall more | NoRequests(more) && OfferedRun(start, events + more) ensures AllCounted(Run(start, events + more)) {
      StaysDisciplined(start, events, more);
      AttemptsCountWithinTheLimit(start, events + more);
    }
  }

  /** Three events more. */
  lemma ThreeMore(start: Area, events: seq<Event>, a: Event, b: Event, c: Event)
    requires var area := Run(start, events);
             && OfferedRun(start, events) && Offered(area, a) && KeepsLimit(area, a)
             && Offered(After(area, a), b) && KeepsLimit(After(area, a), b)
             && Offered(After(After(area, a), b), c) && KeepsLimit(After(After(area, a), b), c)
    ensures OfferedRun(start, events + [a] + [b] + [c])
    ensures Run(start, events + [a] + [b] + [c]) == After(After(After(Run(start, events), a), b), c)
  {
    hide After, Run, OfferedRun, Offered, KeepsLimit;
    Continues(start, events, a);
    OfferedOneMore(start, events, a);
    Continues(start, events + [a], b);
    OfferedOneMore(start, events + [a], b);
    Continues(start, events + [a] + [b], c);
    OfferedOneMore(start, events + [a] + [b], c);
  }

  /** Reconnect with settings on their way does not go on counting. */
  lemma PendingSettingsStopTheCount(start: Area, events: seq<Event>, tab: TabId)
    requires var area := Run(start, events);
             OfferedRun(start, events) && Offered(area, Request(tab)) && tab !in area.cycles && LoadsOf(area, tab) > 0
    ensures !GoesOnCounting(start, events + [Request(tab)])
  {
    var load := LoadEnd(tab, Found(OtherEngine));
    var requested := events + [Request(tab)];
    var area := Run(start, events);
    RequestCountsIffNothingIsPending(area, tab, OtherEngine, OtherEngine);
    hide After, Run, OfferedRun, Counted, MaxAttempts;
    ThreeMore(start, events, Request(tab), load, load);
    assert requested + [load] + [load] == requested + [load, load];
    assert !AllCounted(Run(start, requested + [load, load]));
  }

  /**
   Of all the runs the overlay offers, exactly in those the attempts of every cycle count 1, 2, 3, … within the limit,
   all through the run and whatever follows but another Reconnect, in which Reconnect is never pressed while the
   settings of a canceled cycle are still on their way.
   */
  lemma {:induction false} OfferedRunsCountIffDisciplined(start: Area, events: seq<Event>)
    requires Idle(start) && OfferedRun(start, events)
    ensures CountsThroughout(start, events) <==> DisciplinedRun(start, events)
  {
    hide Idle, Sound, OverlaysAreTrue, Offered, KeepsLimit, Run, GoesOnCounting;
    if DisciplinedRun(start, events) {
      DisciplinedGoesOnCounting(start, events);
    }
    if events != [] {
      var front, last := events[..|events| - 1], events[|events| - 1];
      OfferedRunsCountIffDisciplined(start, front);
      if DisciplinedRun(start, front) && !Disciplined(Run(start, front), last) {
        EveryDisciplinedRunIsSound(start, front);
        assert front + [last] == events;
        RequestsAreOfferedOutsideCycles(Run(start, front), last.tab);
        PendingSettingsStopTheCount(start, front, last.tab);
      }
    }
  }

  lemma RequestsAreOfferedOutsideCycles(area: Area, tab: TabId)
    requires OverlaysAreTrue(area) && Offered(area, Request(tab))
    ensures tab !in area.cycles
  {
    assert OverlayIsTrue(area, tab);
  }

  // ---------- every limit ----------

  /** A probe of attempt k runs, with one attempt more than that made. */
  ghost predicate OneTooMany(area: Area, tab: TabId, options: Options, k: nat) {
    && tab in area.cycles && HasSession(area, tab)
    && var cycle := area.cycles[tab];
       && cycle.attempt == k && cycle.candidate && cycle.direct.None? && cycle.options == options
       && |cycle.attempts| == k + 1
  }

  /** The probe fails, the retry fires and the settings arrive. */
  lemma AnotherRetry(area: Area, tab: TabId, options: Options, k: nat)
    requires OneTooMany(area, tab, options, k) && 1 <= k < MaxAttempts(options)
    ensures var retry, load := Fire(TimerId(area.nextTimer + 1, tab)), LoadEnd(tab, Found(options));
            var failed := After(area, Failed(tab));
            var fired := After(failed, retry);
            && KeepsLimit(fired, load) && OneTooMany(After(fired, load), tab, options, k + 1)
  {
    hide DelayAfter, Countdown;
  }

  lemma {:induction false} RetriesUpTo(start: Area, events: seq<Event>, tab: TabId, options: Options, k: nat)
    returns (more: seq<Event>)
    requires OfferedRun(start, events) && OneTooMany(Run(start, events), tab, options, k)
    requires 1 <= k <= Max(1, MaxAttempts(options))
    ensures NoRequests(more) && OfferedRun(start, events + more)
    ensures OneTooMany(Run(start, events + more), tab, options, Max(1, MaxAttempts(options)))
    decreases MaxAttempts(options) - k
  {
    hide After, Run, OfferedRun, OneTooMany;
    if k == Max(1, MaxAttempts(options)) {
      more := [];
      assert events + more == events;
    } else {
      var area := Run(start, events);
      var failed, retry, load := Failed(tab), Fire(TimerId(area.nextTimer + 1, tab)), LoadEnd(tab, Found(options));
      AnotherRetry(area, tab, options, k);
      ThreeMore(start, events, failed, retry, load);
      var rest := RetriesUpTo(start, events + [failed] + [retry] + [load], tab, options, k + 1);
      more := [failed, retry, load] + rest;
      assert events + more == events + [failed] + [retry] + [load] + rest;
    }
  }

  /** Two settings in one cycle start its first probe twice. */
  lemma FirstProbeTwice(area: Area, tab: TabId, options: Options)
    requires tab !in area.cycles && HasSession(area, tab) && area.sessions[IndexOf(area.sessions, tab)].direct.None?
    requires LoadsOf(area, tab) > 0
    ensures var load := LoadEnd(tab, Found(options));
            OneTooMany(After(After(After(area, Request(tab)), load), load), tab, options, 1)
  {
  }

  /** Nothing is under way but settings of a tab that may reconnect and is in the settings. */
  ghost predicate Pending(area: Area, tab: TabId) {
    && Offered(area, Request(tab)) && tab !in area.cycles && LoadsOf(area, tab) > 0
    && area.sessions[IndexOf(area.sessions, tab)].direct.None?
  }

  lemma OneTooManyAtOnce(start: Area, events: seq<Event>, tab: TabId, options: Options)
    requires OfferedRun(start, events) && Pending(Run(start, events), tab)
    ensures var load := LoadEnd(tab, Found(options));
            var probing := events + [Request(tab)] + [load] + [load];
            OfferedRun(start, probing) && OneTooMany(Run(start, probing), tab, options, 1)
  {
    var load := LoadEnd(tab, Found(options));
    var area := Run(start, events);
    RequestCountsIffNothingIsPending(area, tab, options, options);
    FirstProbeTwice(area, tab, options);
    hide After, Run, OfferedRun, Counted, MaxAttempts, OneTooMany;
    ThreeMore(start, events, Request(tab), load, load);
  }

  /**
   Whatever the limit: with settings on their way, Reconnect and a server that stays away lead to one attempt more than
   allowed, without anything the overlay does not offer.
   */
  lemma PendingSettingsExceedEveryLimit(start: Area, events: seq<Event>, tab: TabId, options: Options)
    returns (more: seq<Event>)
    requires OfferedRun(start, events) && Pending(Run(start, events), tab) && MaxAttempts(options) >= 0
    ensures NoRequests(more) && OfferedRun(start, events + [Request(tab)] + more)
    ensures var after := Run(start, events + [Request(tab)] + more);
            && tab in after.cycles && after.cycles[tab].options == options
            && |after.cycles[tab].attempts| == Max(1, MaxAttempts(options)) + 1
  {
    hide After, Run, OfferedRun, Pending, OneTooMany, MaxAttempts;
    var load := LoadEnd(tab, Found(options));
    OneTooManyAtOnce(start, events, tab, options);
    var probing := events + [Request(tab)] + [load] + [load];
    var rest := RetriesUpTo(start, probing, tab, options, 1);
    more := [load, load] + rest;
    assert events + [Request(tab)] + more == probing + rest;
    TooManyMeans(Run(start, events + [Request(tab)] + more), tab, options);
  }

  lemma TooManyMeans(area: Area, tab: TabId, options: Options)
    requires OneTooMany(area, tab, options, Max(1, MaxAttempts(options)))
    ensures tab in area.cycles && area.cycles[tab].options == options
    ensures |area.cycles[tab].attempts| == Max(1, MaxAttempts(options)) + 1
  {
  }
}
