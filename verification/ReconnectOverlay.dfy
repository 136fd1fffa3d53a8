/** What the lost-connection overlay tells while a tab reconnects: the attempt, and the seconds until the next one. */
module ReconnectOverlay {
  import opened Wrappers
  import opened ReconnectCycle

  /** The seconds a countdown starts with: those of the delay, at least one. */
  function SecondsOf(delay: int): int {
    if delay / 1000 < 1 then 1 else delay / 1000
  }

  /**
   The overlay tells the attempt that is made or waited for; while a retry is pending it tells the seconds its countdown
   has left, none once that is over, and none otherwise.
   */
  ghost predicate Tells(area: Area, tab: TabId) {
    var shown := OverlayOf(area, tab);
    if tab !in area.cycles then shown == HIDDEN
    else
      var cycle := area.cycles[tab];
      if cycle.retryTimer.Some? then
        && shown.attempt == cycle.attempt + 1 && cycle.tickTimer.Some?
        && (if cycle.tickTimer.value in area.armed then
              area.armed[cycle.tickTimer.value] == Tick(shown.countdown)
              && 1 <= shown.countdown <= SecondsOf(DelayAfter(cycle))
            else shown.countdown == 0)
      else shown.attempt == cycle.attempt && shown.countdown == 0
  }

  ghost predicate AllTell(area: Area) {
    forall tab :: Tells(area, tab)
  }

  /** What Tells depends on. */
  ghost predicate SameFor(area: Area, after: Area, tab: TabId) {
    && OverlayOf(after, tab) == OverlayOf(area, tab)
    && (tab in after.cycles <==> tab in area.cycles)
    && (tab in area.cycles ==>
          && after.cycles[tab] == area.cycles[tab]
          && (area.cycles[tab].tickTimer.Some? ==>
                var tick := area.cycles[tab].tickTimer.value;
                (tick in after.armed <==> tick in area.armed)
                && (tick in area.armed ==> after.armed[tick] == area.armed[tick])))
  }

  lemma SameTells(area: Area, after: Area, tab: TabId)
    requires Tells(area, tab) && SameFor(area, after, tab)
    ensures Tells(after, tab)
  {
  }

  /** The handles of a cycle are those of timers of its tab. */
  ghost predicate OwnHandles(area: Area, tab: TabId) {
    tab in area.cycles ==> HandlesAreOwn(area, tab, area.cycles[tab])
  }

  lemma SoundHandles(area: Area, tab: TabId)
    requires Sound(area)
    ensures OwnHandles(area, tab)
  {
    assert TabSound(area, tab);
  }

  /** What ends, swaps or schedules one tab touches nothing of another. */
  lemma OthersStayWhen(area: Area, changed: TabId, tab: TabId)
    requires OwnHandles(area, changed) && OwnHandles(area, tab) && changed != tab
    ensures SameFor(area, Aborted(area, changed), tab) && SameFor(area, Swapped(area, changed), tab)
    ensures SameFor(area, RetriedNow(area, changed), tab)
  {
    hide IndexOf, TimersCanceled;
    OthersStayWhenQuiet(area, changed, tab);
  }

  lemma OthersStayWhenQuiet(area: Area, changed: TabId, tab: TabId)
    requires OwnHandles(area, changed) && OwnHandles(area, tab) && changed != tab
    ensures SameFor(area, TimersCanceled(area, changed), tab)
    ensures TimersCanceled(area, changed).overlays == area.overlays
  {
  }

  lemma OthersStayWhenScheduled(area: Area, changed: TabId, tab: TabId)
    requires OwnHandles(area, changed) && OwnHandles(area, tab) && changed != tab
    ensures SameFor(area, RetryScheduled(area, changed), tab)
  {
    hide IndexOf, Countdown, DelayAfter, IsFinal, Aborted, Swapped, RetriedNow;
    OthersStayWhen(area, changed, tab);
  }

  /** An event for one tab touches nothing of another. */
  lemma OthersStay(area: Area, event: Event, tab: TabId)
    requires Sound(area) && !event.Fire? && event.tab != tab
    ensures SameFor(area, After(area, event), tab)
  {
    SoundHandles(area, tab);
    SoundHandles(area, event.tab);
    hide Sound, IndexOf, Aborted, Swapped, RetriedNow, RetryScheduled, Loaded, ProbeFailed, Replaced, SameFor;
    OthersStayWhen(area, event.tab, tab);
    match event {
      case Request(started) => OthersStayWhenRequested(area, started, tab);
      case LoadEnd(loaded, result) => OthersStayWhenLoaded(area, loaded, result, tab);
      case Ready(ready) =>
      case Failed(failed) => OthersStayWhenFailed(area, failed, tab);
      case Now(now) =>
      case Cancel(ended) =>
    }
  }

  lemma OthersStayWhenRequested(area: Area, changed: TabId, tab: TabId)
    requires changed != tab
    ensures SameFor(area, After(area, Request(changed)), tab)
  {
  }

  lemma OthersStayWhenLoaded(area: Area, changed: TabId, result: LoadResult, tab: TabId)
    requires OwnHandles(area, changed) && OwnHandles(area, tab) && changed != tab
    ensures SameFor(area, After(area, LoadEnd(changed, result)), tab)
  {
    hide IndexOf, Aborted, Swapped, RetriedNow, RetryScheduled, ProbeFailed, Replaced;
    if LoadsOf(area, changed) > 0 {
      var left := area.(loads := area.loads[changed := LoadsOf(area, changed) - 1]);
      assert OwnHandles(left, changed) && OwnHandles(left, tab);
      OthersStayWhen(left, changed, tab);
    }
  }

  lemma OthersStayWhenFailed(area: Area, changed: TabId, tab: TabId)
    requires OwnHandles(area, changed) && OwnHandles(area, tab) && changed != tab
    ensures SameFor(area, After(area, Failed(changed)), tab)
  {
    hide IndexOf, Aborted, Swapped, RetriedNow, RetryScheduled, Loaded, Replaced;
    if changed in area.cycles {
      var without := area.(cycles := area.cycles[changed := area.cycles[changed].(candidate := false)]);
      assert OwnHandles(without, changed) && OwnHandles(without, tab);
      OthersStayWhenScheduled(without, changed, tab);
    }
  }

  lemma OthersStayOnTimers(area: Area, timer: TimerId, tab: TabId)
    requires Sound(area) && timer.tab != tab
    ensures SameFor(area, After(area, Fire(timer)), tab)
  {
    hide InPhase, IndexOf, Countdown, DelayAfter, IsFinal;
    assert TabSound(area, tab) && TabSound(area, timer.tab);
  }

  lemma AttemptTells(area: Area, tab: TabId, attempt: int)
    requires HasSession(area, tab)
    requires tab in area.cycles ==> area.cycles[tab].retryTimer.None?
    ensures Tells(Replaced(area, tab, attempt), tab)
  {
  }

  lemma EndTells(area: Area, tab: TabId)
    requires HasSession(area, tab)
    ensures Tells(Aborted(area, tab), tab)
    ensures tab in area.cycles && area.cycles[tab].candidate ==> Tells(Swapped(area, tab), tab)
  {
    hide IndexOf;
  }

  /** A failed probe starts the countdown to the next attempt with the seconds of its delay, or ends the cycle. */
  lemma FailureTells(area: Area, tab: TabId)
    requires HasSession(area, tab) && tab in area.cycles
    ensures var cycle, after := area.cycles[tab], RetryScheduled(area, tab);
            && Tells(after, tab)
            && (!IsFinal(cycle) ==>
                  OverlayOf(after, tab).attempt == cycle.attempt + 1
                  && OverlayOf(after, tab).countdown == SecondsOf(DelayAfter(cycle)))
  {
    hide IndexOf, IsFinal;
    if IsFinal(area.cycles[tab]) {
      EndTells(area, tab);
    }
  }

  lemma RequestTells(area: Area, tab: TabId)
    requires Tells(area, tab) && tab !in area.cycles
    ensures Tells(Replaced(area, tab, 1), tab)
  {
    if HasSession(area, tab) {
      AttemptTells(area, tab, 1);
    }
  }

  lemma SettingsTell(area: Area, tab: TabId, result: LoadResult)
    requires TabSound(area, tab) && Tells(area, tab) && LoadsOf(area, tab) > 0
    ensures Tells(After(area, LoadEnd(tab, result)), tab)
  {
    hide IndexOf, Counted, MayGoOn;
    var left := area.(loads := area.loads[tab := LoadsOf(area, tab) - 1]);
    if tab in area.cycles {
      assert InPhase(area, tab, area.cycles[tab]);
    }
    AbortTells(left, tab);
    hide Aborted;
  }

  lemma AbortTells(area: Area, tab: TabId)
    requires tab in area.cycles ==> HasSession(area, tab)
    requires tab !in area.cycles ==> Tells(area, tab)
    ensures Tells(Aborted(area, tab), tab)
  {
    hide IndexOf;
  }

  lemma SwapTells(area: Area, tab: TabId)
    requires Tells(area, tab) && (tab in area.cycles ==> HasSession(area, tab))
    ensures Tells(Swapped(area, tab), tab)
  {
    if tab in area.cycles && area.cycles[tab].candidate {
      EndTells(area, tab);
    }
  }

  lemma NowTells(area: Area, tab: TabId)
    requires Tells(area, tab) && (tab in area.cycles ==> HasSession(area, tab))
    ensures Tells(RetriedNow(area, tab), tab)
  {
    if tab in area.cycles {
      AttemptTells(TimersCanceled(area, tab), tab, area.cycles[tab].attempt + 1);
    }
  }

  lemma OwnEventTells(area: Area, event: Event)
    requires Sound(area) && !event.Fire? && Tells(area, event.tab) && Orderly(area, event)
    ensures Tells(After(area, event), event.tab)
  {
    var tab := event.tab;
    assert TabSound(area, tab);
    hide IndexOf, Replaced, Aborted, RetryScheduled, Swapped, RetriedNow, IsFinal, Sound, Loaded, InPhase, Tells;
    match event {
      case Request(started) => RequestTells(area, tab);
      case LoadEnd(loaded, result) =>
        if LoadsOf(area, tab) > 0 {
          SettingsTell(area, tab, result);
        }
      case Ready(ready) => SwapTells(area, tab);
      case Failed(failed) =>
        if tab in area.cycles && area.cycles[tab].candidate {
          FailureTells(area.(cycles := area.cycles[tab := area.cycles[tab].(candidate := false)]), tab);
        }
      case Now(now) => NowTells(area, tab);
      case Cancel(ended) => AbortTells(area, tab);
    }
  }

  /** A tick takes a second off the countdown. */
  lemma TickTells(area: Area, timer: TimerId)
    requires Sound(area) && Tells(area, timer.tab) && timer in area.armed && area.armed[timer].Tick?
    ensures var after := After(area, Fire(timer));
            && Tells(after, timer.tab)
            && OverlayOf(after, timer.tab).countdown == OverlayOf(area, timer.tab).countdown - 1
  {
    var tab := timer.tab;
    assert TabSound(area, tab) && TimerIsKnown(area, timer);
    assert InPhase(area, tab, area.cycles[tab]);
    hide IndexOf, Counted, MayGoOn, DelayAfter, SecondsOf;
  }

  lemma RetryTells(area: Area, timer: TimerId)
    requires Sound(area) && timer in area.armed && area.armed[timer].Retry?
    ensures Tells(After(area, Fire(timer)), timer.tab)
  {
    var tab := timer.tab;
    assert TabSound(area, tab) && TimerIsKnown(area, timer);
    var fired := area.(armed := area.armed - {timer});
    var cycle := area.cycles[tab];
    AttemptTells(
      fired.(armed := fired.armed - IdsOf(cycle.tickTimer),
             cycles := fired.cycles[tab := cycle.(retryTimer := None, tickTimer := None)]), tab, cycle.attempt + 1);
    hide Sound, TabSound, Replaced, Tells, IndexOf;
  }

  lemma EventTells(area: Area, event: Event, tab: TabId)
    requires Sound(area) && AllTell(area) && Orderly(area, event)
    ensures Tells(After(area, event), tab)
  {
    assert Tells(area, tab);
    hide Sound, Tells, After, Orderly, SameFor;
    if event.Fire? {
      var timer := event.timer;
      if timer !in area.armed {
        NoTimerNothing(area, timer);
      } else if timer.tab != tab {
        OthersStayOnTimers(area, timer, tab);
        SameTells(area, After(area, event), tab);
      } else if area.armed[timer].Retry? {
        RetryTells(area, timer);
      } else {
        TickTells(area, timer);
      }
    } else if event.tab == tab {
      OwnEventTells(area, event);
    } else {
      OthersStay(area, event, tab);
      SameTells(area, After(area, event), tab);
    }
  }

  lemma NoTimerNothing(area: Area, timer: TimerId)
    requires timer !in area.armed
    ensures After(area, Fire(timer)) == area
  {
  }

  /** In every disciplined run every overlay tells its tab's attempt and countdown. */
  lemma {:induction false} OverlaysTell(start: Area, events: seq<Event>)
    requires Idle(start) && DisciplinedRun(start, events)
    ensures AllTell(Run(start, events))
  {
    hide Tells, After, Sound, OverlaysAreTrue;
    if events == [] {
      IdleTells(start);
    } else {
      var front, last := events[..|events| - 1], events[|events| - 1];
      OverlaysTell(start, front);
      EveryDisciplinedRunIsSound(start, front);
      OfferedIsOrderly(Run(start, front), last);
      forall tab ensures Tells(Run(start, events), tab) {
        EventTells(Run(start, front), last, tab);
      }
    }
  }

  lemma IdleTells(start: Area)
    requires Idle(start)
    ensures AllTell(start)
  {
  }

  /**
   In every disciplined run a failed probe that is not the last one starts the countdown: the overlay tells the next
   attempt and the seconds of the delay, at least one; and every tick takes a second off, down to none.
   */
  lemma CountdownsCount(start: Area, events: seq<Event>, tab: TabId, timer: TimerId)
    requires Idle(start) && DisciplinedRun(start, events)
    ensures var area := Run(start, events);
            && (tab in area.cycles && area.cycles[tab].candidate && !IsFinal(area.cycles[tab]) ==>
                  var shown := OverlayOf(After(area, Failed(tab)), tab);
                  shown.attempt == |area.cycles[tab].attempts| + 1
                  && shown.countdown == SecondsOf(DelayAfter(area.cycles[tab])))
            && (timer in area.armed && area.armed[timer].Tick? ==>
                  OverlayOf(area, timer.tab).countdown >= 1
                  && OverlayOf(After(area, Fire(timer)), timer.tab).countdown
                     == OverlayOf(area, timer.tab).countdown - 1)
  {
    OverlaysTell(start, events);
    EveryDisciplinedRunIsSound(start, events);
    var area := Run(start, events);
    hide Run, DisciplinedRun;
    if tab in area.cycles && area.cycles[tab].candidate {
      FailureStartsTheCountdown(area, tab);
    }
    if timer in area.armed && area.armed[timer].Tick? {
      assert Tells(area, timer.tab);
      TickTells(area, timer);
      TicksHaveSeconds(area, timer);
    }
  }

  lemma FailureStartsTheCountdown(area: Area, tab: TabId)
    requires Sound(area) && tab in area.cycles && area.cycles[tab].candidate
    ensures !IsFinal(area.cycles[tab]) ==>
              var shown := OverlayOf(After(area, Failed(tab)), tab);
              shown.attempt == |area.cycles[tab].attempts| + 1
              && shown.countdown == SecondsOf(DelayAfter(area.cycles[tab]))
  {
    assert TabSound(area, tab);
    assert InPhase(area, tab, area.cycles[tab]);
    FailureTells(area.(cycles := area.cycles[tab := area.cycles[tab].(candidate := false)]), tab);
    hide RetryScheduled, Sound, Tells;
  }

  lemma TicksHaveSeconds(area: Area, timer: TimerId)
    requires Sound(area) && Tells(area, timer.tab) && timer in area.armed && area.armed[timer].Tick?
    ensures OverlayOf(area, timer.tab).countdown >= 1
  {
    assert TabSound(area, timer.tab) && TimerIsKnown(area, timer);
    assert InPhase(area, timer.tab, area.cycles[timer.tab]);
  }
}
