/**
 The handlers of the session area, which change its cycles, timers, overlays and sessions in place. Each leaves the
 state the specification says; a caller sees that the cycles stay sound and what is left of timers and overlay.
 */
module SessionAreaTasks {
  import opened Wrappers
  import opened ReconnectCycle

  ghost predicate NoTimers(area: Area, tab: TabId) {
    forall id: TimerId | id.tab == tab :: id !in area.armed
  }

  /** One retry timer of the tab is armed, with that delay, and its cycle knows it. */
  ghost predicate OneRetry(area: Area, tab: TabId, delay: int) {
    && tab in area.cycles && area.cycles[tab].retryTimer.Some?
    && area.cycles[tab].retryTimer.value.tab == tab && area.cycles[tab].retryTimer.value in area.armed
    && forall id: TimerId | id.tab == tab && id in area.armed && area.armed[id].Retry? ::
         Some(id) == area.cycles[tab].retryTimer && area.armed[id].delay == delay
  }

  /** The timers of a tab are those its cycle knows. */
  ghost predicate KnowsTimers(area: Area, tab: TabId) {
    && (forall id: TimerId | id.tab == tab :: TimerIsKnown(area, id))
    && (tab in area.cycles ==> HandlesAreOwn(area, tab, area.cycles[tab]))
  }

  ghost predicate IsSound(area: Area) {
    Sound(area) && OverlaysAreTrue(area)
  }

  /** The settings started the probe of the attempt, or ended the cycle and left no timer. */
  ghost predicate Settled(before: Area, after: Area, tab: TabId, result: LoadResult) {
    && (tab in after.cycles ==> after.cycles[tab].candidate && after.cycles[tab].attempts != [])
    && (IsSound(before) && KeepsLimit(before, LoadEnd(tab, result)) ==>
          IsSound(after) && (tab !in after.cycles ==> NoTimers(after, tab)))
  }

  /** The probe was adopted by a new session at the end of the list, and nothing is left of the cycle. */
  ghost predicate Adopted(before: Area, after: Area, tab: TabId) {
    IsSound(before) ==>
      && IsSound(after)
      && (tab in before.cycles && before.cycles[tab].candidate ==>
            && tab !in after.cycles && NoTimers(after, tab) && !OverlayOf(after, tab).active
            && |after.sessions| == |before.sessions| > 0 && after.sessions[|after.sessions| - 1].tab == tab
            && after.sessions[|after.sessions| - 1].direct == before.cycles[tab].direct
            && after.sessions[|after.sessions| - 1].serial == before.created)
  }

  /** One retry is armed with the delay of the attempts made, or the cycle is over and no timer is left. */
  ghost predicate RetriesOrEnds(before: Area, after: Area, tab: TabId) {
    IsSound(before) && tab in before.cycles && before.cycles[tab].candidate ==>
      && IsSound(after)
      && if tab in after.cycles then OneRetry(after, tab, DelayAfter(after.cycles[tab])) else NoTimers(after, tab)
  }

  /** Of a tab without timers: one retry is armed unless the attempt was the last, which ends the cycle. */
  ghost predicate ArmsOrEnds(before: Area, after: Area, tab: TabId) {
    && (tab in after.cycles <==> tab in before.cycles && !IsFinal(before.cycles[tab]))
    && (NoTimers(before, tab) ==>
          if tab in after.cycles then OneRetry(after, tab, DelayAfter(after.cycles[tab])) else NoTimers(after, tab))
  }

  /** The next attempt waits for the settings, and no timer of the tab is left. */
  ghost predicate NextAttemptWaits(before: Area, after: Area, tab: TabId) {
    && tab in before.cycles && tab in after.cycles && NoTimers(after, tab) && LoadsOf(after, tab) == 1
    && after.cycles[tab].attempt == before.cycles[tab].attempt + 1
  }

  ghost predicate Fired(before: Area, after: Area, timer: TimerId) {
    IsSound(before) && timer in before.armed ==>
      IsSound(after) && (before.armed[timer].Retry? ==> NextAttemptWaits(before, after, timer.tab))
  }

  ghost predicate Hurried(before: Area, after: Area, tab: TabId) {
    IsSound(before) && Offered(before, Now(tab)) ==> IsSound(after) && NextAttemptWaits(before, after, tab)
  }

  class SessionArea {
    var sessions: seq<Session>
    var created: nat
    var cycles: map<TabId, Cycle>
    /** The browser's pending timers. */
    var armed: map<TimerId, Timer>
    var nextTimer: nat
    var loads: map<TabId, nat>
    /** What the overlay of the session of a tab shows. */
    var overlays: map<TabId, Overlay>
    ghost var ended: seq<EndedCycle>

    ghost function State(): Area
      reads this
    {
      Area(sessions, created, cycles, armed, nextTimer, loads, overlays, ended)
    }

    ghost predicate Valid()
      reads this
    {
      IsSound(State())
    }

    constructor (sessions: seq<Session>)
      requires OnePerTab(sessions)
      ensures Valid() && Idle(State()) && this.sessions == sessions
    {
      this.sessions, created := sessions, |sessions|;
      cycles, armed, nextTimer, loads, overlays := map[], map[], 0, map[], map[];
      ended := [];
      new;
      IdleIsSound(State());
    }

    /** The first session of a tab, the number of sessions when it has none. */
    method FindSessionIndexByTabId(tab: TabId) returns (index: nat)
      ensures index <= |sessions| && forall i | 0 <= i < index :: sessions[i].tab != tab
      ensures index < |sessions| ==> sessions[index].tab == tab
      ensures index == IndexOf(sessions, tab)
    {
      index := 0;
      while index < |sessions| && sessions[index].tab != tab
        invariant index <= |sessions| && forall i | 0 <= i < index :: sessions[i].tab != tab
      {
        index := index + 1;
      }
      IndexIs(sessions, tab, index);
    }

    /** The browser arms a timer and hands out its id. */
    method SetTimer(tab: TabId, timer: Timer) returns (id: TimerId)
      modifies `armed, `nextTimer
      ensures id == TimerId(old(nextTimer), tab) && nextTimer == old(nextTimer) + 1
      ensures armed == old(armed)[id := timer]
    {
      id := TimerId(nextTimer, tab);
      armed := armed[id := timer];
      nextTimer := nextTimer + 1;
    }

    method ClearTimer(id: Option<TimerId>)
      modifies `armed
      ensures armed == old(armed) - IdsOf(id)
    {
      if id.Some? {
        armed := armed - {id.value};
      }
    }

    /** Takes the timers of a tab out of the browser. */
    method CancelReconnectTimers(tab: TabId)
      modifies this
      ensures State() == TimersCanceled(old(State()), tab)
      ensures KnowsTimers(old(State()), tab) ==> NoTimers(State(), tab)
    {
      ghost var before := State();
      if KnowsTimers(before, tab) {
        CancelingLeavesNoTimer(before, tab);
      }
      if tab !in cycles {
        return;
      }
      var cycle := cycles[tab];
      ClearTimer(cycle.retryTimer);
      ClearTimer(cycle.tickTimer);
      cycles := cycles[tab := cycle.(retryTimer := None, tickTimer := None)];
    }

    /** The session of the tab shows its overlay so. */
    method Show(tab: TabId, overlay: Overlay)
      modifies `overlays
      ensures State() == Shown(old(State()), tab, overlay)
    {
      var at := FindSessionIndexByTabId(tab);
      if at < |sessions| {
        overlays := overlays[tab := overlay];
      }
    }

    /** Opens the cycle of a tab or goes on with it, and asks for the settings. */
    method ReplaceAtTabId(tab: TabId, attempt: int)
      modifies this
      ensures State() == Replaced(old(State()), tab, attempt)
    {
      var at := FindSessionIndexByTabId(tab);
      if at == |sessions| {
        return;
      }
      var overlay := if tab in overlays then overlays[tab] else HIDDEN;
      if tab !in cycles {
        cycles := cycles[tab := Cycle(attempt, sessions[at].direct, OtherEngine, false, None, None, [])];
        overlay := Overlay(true, 1, 0);
      } else {
        cycles := cycles[tab := cycles[tab].(attempt := attempt)];
      }
      overlays := overlays[tab := overlay.(attempt := attempt, countdown := 0)];
      loads := loads[tab := (if tab in loads then loads[tab] else 0) + 1];
    }

    /** The settings arrived: the probe starts, or the cycle is over. */
    method OnStateLoaded(tab: TabId, result: LoadResult)
      requires LoadsOf(State(), tab) > 0
      modifies this
      ensures State() == After(old(State()), LoadEnd(tab, result))
      ensures Settled(old(State()), State(), tab, result)
    {
      LoadSettles(State(), tab, result);
      hide Settled, Aborted, KnowsTimers, NoTimers, IndexOf;
      loads := loads[tab := loads[tab] - 1];
      if result.LoadFailed? {
        AbortReconnectCycle(tab);
        return;
      }
      if tab !in cycles {
        return;
      }
      var cycle := cycles[tab];
      var options;
      if cycle.direct.Some? {
        options := cycle.direct.value;
      } else {
        if result.NotInSettings? {
          AbortReconnectCycle(tab);
          return;
        }
        options := result.options;
      }
      cycles := cycles[
        tab := cycle.(options := options, candidate := true, attempts := cycle.attempts + [cycle.attempt])];
    }

    /** The probe connected: the session of the tab is swapped for one that adopts it. */
    method OnProtoReady(tab: TabId)
      modifies this
      ensures State() == Swapped(old(State()), tab)
      ensures Adopted(old(State()), State(), tab)
    {
      ghost var before := State();
      ReadyIsAdopted(before, tab);
      CancelingKeepsTheRest(before, tab);
      hide Adopted, NoTimers, TimersCanceled, IndexOf, KnowsTimers;
      if tab !in cycles || !cycles[tab].candidate {
        return;
      }
      var cycle := cycles[tab];
      CancelReconnectTimers(tab);
      var at := FindSessionIndexByTabId(tab);
      if at == |sessions| {
        cycles := cycles - {tab};
        ended := ended + [EndedCycle(tab, cycle, false)];
        return;
      }
      sessions := sessions[..at] + sessions[at + 1..];
      cycles := cycles - {tab};
      overlays := overlays - {tab};
      sessions := sessions + [Session(tab, created, cycle.direct)];
      created := created + 1;
      ended := ended + [EndedCycle(tab, cycle, true)];
    }

    /** The probe failed: one retry is armed with the delay of the attempts made, or the cycle is over. */
    method OnProtoFailed(tab: TabId)
      modifies this
      ensures State() == ProbeFailed(old(State()), tab)
      ensures RetriesOrEnds(old(State()), State(), tab)
    {
      FailureRetriesOrEnds(State(), tab);
      hide RetriesOrEnds, NoTimers, KnowsTimers, RetryScheduled, OneRetry, DelayAfter, IsFinal;
      if tab !in cycles {
        return;
      }
      cycles := cycles[tab := cycles[tab].(candidate := false)];
      ScheduleReconnectRetry(tab);
    }

    /** Ends the cycle of a tab: no state, no timer and no shown cycle is left. */
    method AbortReconnectCycle(tab: TabId)
      modifies this
      ensures State() == Aborted(old(State()), tab)
      ensures tab !in cycles
      ensures KnowsTimers(old(State()), tab) ==> NoTimers(State(), tab)
      ensures HasSession(State(), tab) ==> OverlayOf(State(), tab) == HIDDEN
    {
      if tab in cycles {
        ended := ended + [EndedCycle(tab, cycles[tab], false)];
      }
      ghost var before := State();
      assert KnowsTimers(old(State()), tab) ==> KnowsTimers(before, tab);
      hide KnowsTimers, NoTimers, IndexOf;
      CancelReconnectTimers(tab);
      if tab in cycles {
        cycles := cycles[tab := cycles[tab].(candidate := false)];
      }
      cycles := cycles - {tab};
      assert tab !in old(cycles) ==> cycles == old(cycles);
      assert tab in old(cycles) ==> cycles == TimersCanceled(old(State()), tab).cycles - {tab};
      Show(tab, HIDDEN);
      SameTimers(TimersCanceled(before, tab), State(), tab);
    }

    /** Arms the next attempt after the delay of the current one, or ends the cycle when that was the last. */
    method ScheduleReconnectRetry(tab: TabId)
      modifies this
      ensures State() == RetryScheduled(old(State()), tab)
      ensures ArmsOrEnds(old(State()), State(), tab)
    {
      SchedulingArmsOrEnds(State(), tab);
      hide ArmsOrEnds, DelayAfter, Countdown, IndexOf, KnowsTimers, NoTimers, Aborted;
      if tab !in cycles {
        return;
      }
      var cycle := cycles[tab];
      if IsFinal(cycle) {
        AbortReconnectCycle(tab);
        return;
      }
      var seconds := Countdown(cycle);
      Show(tab,
        (if tab in overlays then overlays[tab] else HIDDEN).(attempt := cycle.attempt + 1, countdown := seconds));
      var tick := SetTimer(tab, Tick(seconds));
      var retry := SetTimer(tab, Retry(DelayAfter(cycle)));
      cycles := cycles[tab := cycle.(tickTimer := Some(tick), retryTimer := Some(retry))];
    }

    /** The backoff is over: the next attempt starts. */
    method OnRetryTimer(tab: TabId)
      modifies this
      ensures State() == RetryFired(old(State()), tab)
    {
      hide Replaced;
      if tab !in cycles {
        return;
      }
      var nextAttempt := cycles[tab].attempt + 1;
      cycles := cycles[tab := cycles[tab].(retryTimer := None)];
      ClearTimer(cycles[tab].tickTimer);
      cycles := cycles[tab := cycles[tab].(tickTimer := None)];
      assert cycles == old(cycles)[tab := old(cycles)[tab].(retryTimer := None, tickTimer := None)];
      ReplaceAtTabId(tab, nextAttempt);
    }

    /** A second of the countdown passed; it is armed again while seconds remain. */
    method OnTick(tab: TabId, remaining: int)
      modifies this
      ensures State() == Ticked(old(State()), tab, remaining)
    {
      if tab !in cycles {
        return;
      }
      var at := FindSessionIndexByTabId(tab);
      if at == |sessions| {
        return;
      }
      var overlay := if tab in overlays then overlays[tab] else HIDDEN;
      if remaining - 1 <= 0 {
        overlays := overlays[tab := overlay.(countdown := 0)];
        return;
      }
      overlays := overlays[tab := overlay.(countdown := remaining - 1)];
      var id := SetTimer(tab, Tick(remaining - 1));
      cycles := cycles[tab := cycles[tab].(tickTimer := Some(id))];
    }

    /** A timer of the browser fires: once, and for the cycle that set it. */
    method OnTimer(timer: TimerId)
      requires timer in armed
      modifies this
      ensures State() == After(old(State()), Fire(timer))
      ensures Fired(old(State()), State(), timer)
    {
      TimerFires(State(), timer);
      hide Fired, RetryFired, Ticked;
      var kind := armed[timer];
      armed := armed - {timer};
      match kind {
        case Retry(delay) => OnRetryTimer(timer.tab);
        case Tick(remaining) => OnTick(timer.tab, remaining);
      }
    }

    /** The user does not wait for the backoff: its timers go, and the next attempt starts. */
    method FireReconnectRetryNow(tab: TabId)
      modifies this
      ensures State() == RetriedNow(old(State()), tab)
      ensures Hurried(old(State()), State(), tab)
    {
      NowHurries(State(), tab);
      hide Hurried, NoTimers, Replaced, KnowsTimers;
      if tab !in cycles {
        return;
      }
      CancelReconnectTimers(tab);
      ReplaceAtTabId(tab, cycles[tab].attempt + 1);
    }
  }

  lemma IndexIs(sessions: seq<Session>, tab: TabId, index: nat)
    requires index <= |sessions| && forall i | 0 <= i < index :: sessions[i].tab != tab
    requires index < |sessions| ==> sessions[index].tab == tab
    ensures IndexOf(sessions, tab) == index
  {
  }

  lemma NoTimersWithoutCycle(area: Area, tab: TabId)
    requires IsSound(area) && tab !in area.cycles
    ensures NoTimers(area, tab) && !OverlayOf(area, tab).active
  {
    assert TabSound(area, tab) && OverlayIsTrue(area, tab);
    forall id: TimerId | id.tab == tab ensures id !in area.armed {
      assert TimerIsKnown(area, id);
    }
  }

  /** Events that are no press of a button keep a sound area sound. */
  lemma EventsKeepIt(area: Area, event: Event)
    requires IsSound(area) && KeepsLimit(area, event)
             && (event.LoadEnd? || event.Ready? || event.Failed? || event.Fire?)
    ensures IsSound(After(area, event))
  {
    StepsKeepSound(area, event);
    OverlaysStayTrue(area, event);
  }

  lemma LoadSettles(area: Area, tab: TabId, result: LoadResult)
    requires LoadsOf(area, tab) > 0
    ensures Settled(area, After(area, LoadEnd(tab, result)), tab, result)
  {
    var after := After(area, LoadEnd(tab, result));
    assert tab in after.cycles ==> after.cycles[tab].candidate && after.cycles[tab].attempts != [] by {
      hide IndexOf;
    }
    hide After, NoTimers, IsSound;
    if IsSound(area) && KeepsLimit(area, LoadEnd(tab, result)) {
      EventsKeepIt(area, LoadEnd(tab, result));
      if tab !in after.cycles {
        NoTimersWithoutCycle(after, tab);
      }
    }
  }

  lemma ReadyIsAdopted(area: Area, tab: TabId)
    ensures Adopted(area, Swapped(area, tab), tab)
  {
    if IsSound(area) {
      EventsKeepIt(area, Ready(tab));
      HasItsSession(area, tab);
      SwapIsSeen(area, tab);
      hide IsSound, NoTimers, Swapped;
      if tab in area.cycles && area.cycles[tab].candidate {
        NoTimersWithoutCycle(Swapped(area, tab), tab);
      }
    }
  }

  lemma SwapIsSeen(area: Area, tab: TabId)
    requires tab in area.cycles ==> HasSession(area, tab)
    ensures var after := Swapped(area, tab);
            tab in area.cycles && area.cycles[tab].candidate ==>
              && tab !in after.cycles && |after.sessions| == |area.sessions| > 0
              && after.sessions[|after.sessions| - 1].tab == tab
  {
  }

  lemma FailureRetriesOrEnds(area: Area, tab: TabId)
    ensures RetriesOrEnds(area, ProbeFailed(area, tab), tab)
  {
    if IsSound(area) && tab in area.cycles && area.cycles[tab].candidate {
      EventsKeepIt(area, Failed(tab));
      var failed := area.(cycles := area.cycles[tab := area.cycles[tab].(candidate := false)]);
      TimersStayKnown(area, failed, tab);
      SchedulingArmsOrEnds(failed, tab);
      var after := ProbeFailed(area, tab);
      hide IsSound, NoTimers, OneRetry, RetryScheduled, DelayAfter;
      if tab !in after.cycles {
        NoTimersWithoutCycle(after, tab);
      }
    }
  }

  lemma TimerFires(area: Area, timer: TimerId)
    ensures Fired(area, After(area, Fire(timer)), timer)
  {
    if IsSound(area) && timer in area.armed {
      EventsKeepIt(area, Fire(timer));
      if area.armed[timer].Retry? {
        RetryStartsAnAttempt(area, timer);
      }
    }
  }

  lemma NowHurries(area: Area, tab: TabId)
    ensures Hurried(area, RetriedNow(area, tab), tab)
  {
    if IsSound(area) && Offered(area, Now(tab)) {
      NowStartsAnAttempt(area, tab);
    }
  }

  lemma SchedulingArmsOrEnds(area: Area, tab: TabId)
    ensures ArmsOrEnds(area, RetryScheduled(area, tab), tab)
  {
    hide Delay, Countdown, IndexOf;
  }

  lemma CancelingKeepsTheRest(area: Area, tab: TabId)
    ensures var quiet := TimersCanceled(area, tab);
            quiet == area.(armed := quiet.armed, cycles := quiet.cycles)
  {
  }

  lemma HasItsSession(area: Area, tab: TabId)
    requires Sound(area)
    ensures tab in area.cycles ==> HasSession(area, tab)
  {
    assert TabSound(area, tab);
  }

  lemma SameTimers(area: Area, after: Area, tab: TabId)
    requires after.armed == area.armed
    ensures NoTimers(area, tab) ==> NoTimers(after, tab)
  {
  }

  lemma TimersStayKnown(area: Area, failed: Area, tab: TabId)
    requires Sound(area) && tab in area.cycles && area.cycles[tab].candidate
    requires failed == area.(cycles := area.cycles[tab := area.cycles[tab].(candidate := false)])
    ensures KnowsTimers(failed, tab) && NoTimers(failed, tab)
  {
    assert TabSound(area, tab);
    NoTimersWhileProbing(area, tab);
  }

  lemma RetryStartsAnAttempt(area: Area, timer: TimerId)
    requires Sound(area) && timer in area.armed && area.armed[timer].Retry?
    ensures var after := After(area, Fire(timer));
            && timer.tab in area.cycles && timer.tab in after.cycles && NoTimers(after, timer.tab)
            && LoadsOf(after, timer.tab) == 1
            && after.cycles[timer.tab].attempt == area.cycles[timer.tab].attempt + 1
  {
    hide Counted, MayGoOn, DelayAfter, IndexOf;
    assert TabSound(area, timer.tab) && TimerIsKnown(area, timer);
    assert InPhase(area, timer.tab, area.cycles[timer.tab]);
    forall id: TimerId | id.tab == timer.tab ensures id !in After(area, Fire(timer)).armed {
      assert TimerIsKnown(area, id);
    }
  }

  lemma NowStartsAnAttempt(area: Area, tab: TabId)
    requires Sound(area) && OverlaysAreTrue(area) && Offered(area, Now(tab))
    ensures var after := RetriedNow(area, tab);
            && Sound(after) && OverlaysAreTrue(after) && tab in area.cycles && tab in after.cycles
            && NoTimers(after, tab) && LoadsOf(after, tab) == 1
            && after.cycles[tab].attempt == area.cycles[tab].attempt + 1
  {
    hide Counted, MayGoOn, DelayAfter, IndexOf;
    OfferedIsOrderly(area, Now(tab));
    StepsKeepSound(area, Now(tab));
    OverlaysStayTrue(area, Now(tab));
    assert TabSound(area, tab);
    CancelingLeavesNoTimer(area, tab);
    SameTimers(TimersCanceled(area, tab), RetriedNow(area, tab), tab);
  }
}
