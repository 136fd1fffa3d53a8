/** What the reconnect cycles keep over whole runs, and where the limit and the delay fail. */
module ReconnectRuns {
  import opened Wrappers
  import opened ReconnectCycle

  // ---------- attempts ----------

  /** Every cycle of a disciplined run counts its attempts 1, 2, 3, … up to the larger of one and the limit. */
  lemma AttemptsCountWithinTheLimit(start: Area, events: seq<Event>)
    requires Idle(start) && DisciplinedRun(start, events)
    ensures var area := Run(start, events);
            && (forall tab | tab in area.cycles :: Counted(area.cycles[tab]))
            && (forall i | 0 <= i < |area.ended| :: Counted(area.ended[i].cycle))
  {
    EveryDisciplinedRunIsSound(start, events);
    var area := Run(start, events);
    forall tab | tab in area.cycles ensures Counted(area.cycles[tab]) {
      assert TabSound(area, tab);
    }
  }

  /** No cycle is stuck: it waits for the settings, for its probe or for one retry timer that will fire. */
  lemma EveryCycleWaitsForOneThing(start: Area, events: seq<Event>, tab: TabId)
    requires Idle(start) && DisciplinedRun(start, events) && tab in Run(start, events).cycles
    ensures var area := Run(start, events);
            var cycle := area.cycles[tab];
            var loading, probing := LoadsOf(area, tab) == 1, cycle.candidate;
            var waiting := exists id: TimerId :: id.tab == tab && id in area.armed && area.armed[id].Retry?;
            && (loading || probing || waiting)
            && !(loading && probing) && !(loading && waiting) && !(probing && waiting)
  {
    EveryDisciplinedRunIsSound(start, events);
    var area := Run(start, events);
    assert TabSound(area, tab);
    var cycle := area.cycles[tab];
    assert InPhase(area, tab, cycle);
    forall id: TimerId | id.tab == tab && id in area.armed && area.armed[id].Retry?
      ensures cycle.retryTimer == Some(id)
    {
      assert TimerIsKnown(area, id);
    }
  }

  /** A tab has at most one retry timer, and none, nor a countdown, without a cycle. */
  lemma CyclesLeaveNoTimers(start: Area, events: seq<Event>, first: TimerId, second: TimerId)
    requires Idle(start) && DisciplinedRun(start, events)
    requires var area := Run(start, events); first in area.armed && second in area.armed && first.tab == second.tab
    ensures var area := Run(start, events);
            first.tab in area.cycles && (area.armed[first].Retry? && area.armed[second].Retry? ==> first == second)
  {
    EveryDisciplinedRunIsSound(start, events);
    var area := Run(start, events);
    assert TabSound(area, first.tab);
    assert TimerIsKnown(area, first) && TimerIsKnown(area, second);
  }

  /** A cycle ends by abort or success; either way nothing of its tab is left. */
  lemma EndsLeaveNothing(start: Area, events: seq<Event>, tab: TabId, last: Event)
    requires Idle(start) && DisciplinedRun(start, events)
    requires var area := Run(start, events);
             last == Cancel(tab) || (last == Ready(tab) && tab in area.cycles && area.cycles[tab].candidate)
    ensures var after := Run(start, events + [last]);
            && tab !in after.cycles && !OverlayOf(after, tab).active
            && forall id: TimerId | id.tab == tab :: id !in after.armed
  {
    EveryDisciplinedRunIsSound(start, events);
    Continues(start, events, last);
    var area := Run(start, events);
    hide Run, DisciplinedRun, Sound, OverlaysAreTrue;
    StepsKeepSound(area, last);
    OverlaysStayTrue(area, last);
    EndedIsLeft(area, last, tab);
    NoCycleNoTimer(After(area, last), tab);
  }

  lemma EndedIsLeft(area: Area, last: Event, tab: TabId)
    requires last == Cancel(tab) || (last == Ready(tab) && tab in area.cycles && area.cycles[tab].candidate)
    ensures tab !in After(area, last).cycles
  {
  }

  lemma Continues(start: Area, events: seq<Event>, last: Event)
    ensures Run(start, events + [last]) == After(Run(start, events), last)
    ensures DisciplinedRun(start, events) && Disciplined(Run(start, events), last) ==>
            DisciplinedRun(start, events + [last])
  {
    assert (events + [last])[..|events|] == events;
  }

  lemma NoCycleNoTimer(area: Area, tab: TabId)
    requires Sound(area) && OverlaysAreTrue(area) && tab !in area.cycles
    ensures !OverlayOf(area, tab).active && forall id: TimerId | id.tab == tab :: id !in area.armed
  {
    assert TabSound(area, tab) && OverlayIsTrue(area, tab);
    forall id: TimerId | id.tab == tab ensures id !in area.armed {
      assert TimerIsKnown(area, id);
    }
  }

  /** A probe that fails ends the cycle exactly when its attempts are used up; otherwise the next one is armed. */
  lemma FailureEndsTheCycleIffUsedUp(start: Area, events: seq<Event>, tab: TabId)
    requires Idle(start) && DisciplinedRun(start, events)
    requires var area := Run(start, events); tab in area.cycles && area.cycles[tab].candidate
    ensures var area := Run(start, events);
            var options, made := area.cycles[tab].options, |area.cycles[tab].attempts|;
            var limit := if options.Ssh? then options.maxAttempts else -1;
            var after := Run(start, events + [Failed(tab)]);
            && (tab !in after.cycles <==> limit >= 0 && made == Max(1, limit))
            && (tab in after.cycles ==>
                  && after.cycles[tab].retryTimer.Some? && after.cycles[tab].retryTimer.value in after.armed
                  && after.armed[after.cycles[tab].retryTimer.value].Retry?)
  {
    EveryDisciplinedRunIsSound(start, events);
    Continues(start, events, Failed(tab));
    hide Run, DisciplinedRun;
    assert TabSound(Run(start, events), tab);
  }

  // ---------- the overlay ----------

  /**
   In a disciplined run the overlay shows a cycle exactly while there is one, and offers Now only while a retry is
   pending: never while the settings are on their way or a probe runs.
   */
  lemma NowIsOfferedOnlyInABackoff(start: Area, events: seq<Event>, tab: TabId)
    requires Idle(start) && DisciplinedRun(start, events)
    ensures var area := Run(start, events);
            && (OverlayOf(area, tab).active <==> tab in area.cycles)
            && (Offered(area, Now(tab)) ==>
                  && tab in area.cycles && LoadsOf(area, tab) == 0 && !area.cycles[tab].candidate
                  && area.cycles[tab].retryTimer.Some? && area.cycles[tab].retryTimer.value in area.armed)
  {
    EveryDisciplinedRunIsSound(start, events);
    hide Run, DisciplinedRun;
    assert OverlayIsTrue(Run(start, events), tab) && TabSound(Run(start, events), tab);
  }

  /**
   Without the overlay: pressing Now while a probe runs would start one attempt more; the limit still holds exactly
   when the running attempt was not the last one allowed.
   */
  lemma NowKeepsTheLimitIffNotFinal(area: Area, tab: TabId)
    requires Sound(area) && tab in area.cycles && LoadsOf(area, tab) == 0
    ensures var cycle := area.cycles[tab];
            var after := After(After(area, Now(tab)), LoadEnd(tab, Found(cycle.options)));
            && tab in after.cycles && after.cycles[tab].attempts == cycle.attempts + [|cycle.attempts| + 1]
            && (Counted(after.cycles[tab]) <==> !IsFinal(cycle))
  {
    assert TabSound(area, tab);
    assert InPhase(area, tab, area.cycles[tab]);
  }

  const ONE_ATTEMPT := Ssh(1, DEFAULT_BACKOFF)

  lemma FirstProbe(start: Area, tab: TabId)
    requires Idle(start) && HasSession(start, tab) && start.sessions[IndexOf(start.sessions, tab)].direct.None?
    ensures var probing := After(After(start, Request(tab)), LoadEnd(tab, Found(ONE_ATTEMPT)));
            && Sound(probing) && tab in probing.cycles && LoadsOf(probing, tab) == 0
            && probing.cycles[tab].attempts == [1] && probing.cycles[tab].options == ONE_ATTEMPT
  {
    hide Sound;
    IdleIsSound(start);
    StepsKeepSound(start, Request(tab));
    StepsKeepSound(After(start, Request(tab)), LoadEnd(tab, Found(ONE_ATTEMPT)));
  }

  /** Events the overlay does not offer: with a limit of one, Now pressed while the probe runs makes two attempts. */
  lemma NowOutsideABackoffExceedsTheLimit(start: Area, tab: TabId)
    requires Idle(start) && HasSession(start, tab) && start.sessions[IndexOf(start.sessions, tab)].direct.None?
    ensures var load := LoadEnd(tab, Found(ONE_ATTEMPT));
            var area := Run(start, [Request(tab), load, Now(tab), load]);
            tab in area.cycles && area.cycles[tab].attempts == [1, 2]
  {
    var load := LoadEnd(tab, Found(ONE_ATTEMPT));
    RunOfFour(start, Request(tab), load, Now(tab), load);
    FirstProbe(start, tab);
    hide Run, After, Sound;
    NowKeepsTheLimitIffNotFinal(After(After(start, Request(tab)), load), tab);
  }

  /**
   A run with a limit of one attempt that starts two first attempts, because Reconnect is pressed while the settings of
   a canceled cycle are still on their way.
   */
  lemma StaleSettingsRepeatTheAttempt(start: Area, tab: TabId)
    requires Idle(start) && HasSession(start, tab) && start.sessions[IndexOf(start.sessions, tab)].direct.None?
    ensures var load := LoadEnd(tab, Found(ONE_ATTEMPT));
            var area := Run(start, [Request(tab), Cancel(tab), Request(tab), load] + [load]);
            tab in area.cycles && area.cycles[tab].attempts == [1, 1]
  {
    var load := LoadEnd(tab, Found(ONE_ATTEMPT));
    RunOfFour(start, Request(tab), Cancel(tab), Request(tab), load);
    Continues(start, [Request(tab), Cancel(tab), Request(tab), load], load);
    hide Run;
    var again := After(After(After(start, Request(tab)), Cancel(tab)), Request(tab));
    RequestedAgain(start, tab);
    var probing := After(again, load);
    assert LoadsOf(probing, tab) == 1 && probing.cycles[tab].attempts == [1];
  }

  lemma RequestedAgain(start: Area, tab: TabId)
    requires Idle(start) && HasSession(start, tab) && start.sessions[IndexOf(start.sessions, tab)].direct.None?
    ensures var area := After(After(After(start, Request(tab)), Cancel(tab)), Request(tab));
            && LoadsOf(area, tab) == 2 && tab in area.cycles
            && area.cycles[tab] == Cycle(1, None, OtherEngine, false, None, None, [])
  {
  }

  const TWO_ATTEMPTS := Ssh(2, DEFAULT_BACKOFF)

  /** The tab after the settings of a canceled cycle started the first probe of the next one. */
  lemma StaleProbe(start: Area, tab: TabId)
    requires Idle(start) && HasSession(start, tab) && start.sessions[IndexOf(start.sessions, tab)].direct.None?
    ensures var load := LoadEnd(tab, Found(TWO_ATTEMPTS));
            var events := [Request(tab), Cancel(tab), Request(tab), load];
            var area := Run(start, events);
            && OfferedRun(start, events) && HasSession(area, tab) && LoadsOf(area, tab) == 1 && tab in area.cycles
            && area.cycles[tab] == Cycle(1, None, TWO_ATTEMPTS, true, None, None, [1])
            && OverlayOf(area, tab) == Overlay(true, 1, 0)
  {
    var load := LoadEnd(tab, Found(TWO_ATTEMPTS));
    var requested := After(start, Request(tab));
    var canceled := After(requested, Cancel(tab));
    var again := After(canceled, Request(tab));
    RequestShows(start, tab);
    CancelShows(requested, tab);
    RequestShows(canceled, tab);
    FirstLoadShows(again, tab);
    RunOfFour(start, Request(tab), Cancel(tab), Request(tab), load);
    hide After, Run;
    OfferedFour(start, Request(tab), Cancel(tab), Request(tab), load);
  }

  lemma RequestShows(area: Area, tab: TabId)
    requires HasSession(area, tab) && area.sessions[IndexOf(area.sessions, tab)].direct.None? && tab !in area.cycles
    ensures var after := After(area, Request(tab));
            && after.sessions == area.sessions && LoadsOf(after, tab) == LoadsOf(area, tab) + 1 && tab in after.cycles
            && after.cycles[tab] == Cycle(1, None, OtherEngine, false, None, None, [])
            && OverlayOf(after, tab) == Overlay(true, 1, 0)
  {
  }

  lemma CancelShows(area: Area, tab: TabId)
    requires HasSession(area, tab) && tab in area.cycles
    ensures var after := After(area, Cancel(tab));
            && after.sessions == area.sessions && LoadsOf(after, tab) == LoadsOf(area, tab) && tab !in after.cycles
            && OverlayOf(after, tab) == HIDDEN
  {
  }

  lemma FirstLoadShows(area: Area, tab: TabId)
    requires LoadsOf(area, tab) > 0 && tab in area.cycles
    requires area.cycles[tab] == Cycle(1, None, OtherEngine, false, None, None, [])
    ensures var load := LoadEnd(tab, Found(TWO_ATTEMPTS));
            var after := After(area, load);
            && KeepsLimit(area, load) && after.sessions == area.sessions
            && LoadsOf(after, tab) == LoadsOf(area, tab) - 1
            && tab in after.cycles && after.cycles[tab] == Cycle(1, None, TWO_ATTEMPTS, true, None, None, [1])
            && OverlayOf(after, tab) == OverlayOf(area, tab)
  {
  }

  lemma OfferedFour(start: Area, a: Event, b: Event, c: Event, d: Event)
    requires var x, y, z := After(start, a), After(After(start, a), b), After(After(After(start, a), b), c);
             && Offered(start, a) && Offered(x, b) && Offered(y, c) && Offered(z, d)
             && KeepsLimit(start, a) && KeepsLimit(x, b) && KeepsLimit(y, c) && KeepsLimit(z, d)
    ensures OfferedRun(start, [a, b, c, d])
  {
    hide After, Offered, KeepsLimit;
    assert Run(start, []) == start && OfferedRun(start, []);
    assert [] + [a] == [a] && [a] + [b] == [a, b] && [a, b] + [c] == [a, b, c] && [a, b, c] + [d] == [a, b, c, d];
    OfferedOneMore(start, [], a);
    Continues(start, [], a);
    OfferedOneMore(start, [a], b);
    Continues(start, [a], b);
    OfferedOneMore(start, [a, b], c);
    Continues(start, [a, b], c);
    OfferedOneMore(start, [a, b, c], d);
  }

  /** Its failure arms the retry, and the settings of its own cycle start another probe all the same. */
  lemma ProbeBesideARetry(area: Area, tab: TabId)
    requires HasSession(area, tab) && LoadsOf(area, tab) == 1 && tab in area.cycles
    requires area.cycles[tab] == Cycle(1, None, TWO_ATTEMPTS, true, None, None, [1])
    requires OverlayOf(area, tab) == Overlay(true, 1, 0)
    ensures var load := LoadEnd(tab, Found(TWO_ATTEMPTS));
            var failed := After(area, Failed(tab));
            var after := After(failed, load);
            && KeepsLimit(failed, load) && HasSession(after, tab) && tab in after.cycles && LoadsOf(after, tab) == 0
            && after.cycles[tab].candidate && after.cycles[tab].retryTimer.Some? && after.cycles[tab].attempt == 1
            && after.cycles[tab].attempts == [1, 1] && after.cycles[tab].direct.None?
            && after.cycles[tab].options == TWO_ATTEMPTS
            && Offered(after, Now(tab))
  {
    hide DelayAfter;
  }

  lemma NowStartsAnotherAttempt(area: Area, tab: TabId)
    requires HasSession(area, tab) && tab in area.cycles && LoadsOf(area, tab) == 0
    requires area.cycles[tab].attempt == 1 && area.cycles[tab].direct.None?
    ensures var load := LoadEnd(tab, Found(TWO_ATTEMPTS));
            var after := After(After(area, Now(tab)), load);
            tab in after.cycles && after.cycles[tab].attempts == area.cycles[tab].attempts + [2]
  {
  }

  /**
   A run of events the overlay offers, with a limit of two: the settings of a canceled cycle arrive in the next one, so
   a probe runs beside a pending retry, Now is offered, and pressing it makes a third attempt.
   */
  lemma StaleSettingsExceedTheLimit(start: Area, tab: TabId)
    requires Idle(start) && HasSession(start, tab) && start.sessions[IndexOf(start.sessions, tab)].direct.None?
    ensures var load := LoadEnd(tab, Found(TWO_ATTEMPTS));
            var events := [Request(tab), Cancel(tab), Request(tab), load] + [Failed(tab)] + [load];
            var area := Run(start, events);
            && OfferedRun(start, events) && Offered(area, Now(tab))
            && tab in area.cycles && area.cycles[tab].candidate && area.cycles[tab].retryTimer.Some?
            && var after := After(After(area, Now(tab)), load);
               tab in after.cycles && after.cycles[tab].attempts == [1, 1, 2]
  {
    var load := LoadEnd(tab, Found(TWO_ATTEMPTS));
    var four := [Request(tab), Cancel(tab), Request(tab), load];
    StaleProbe(start, tab);
    Continues(start, four, Failed(tab));
    Continues(start, four + [Failed(tab)], load);
    ProbeBesideARetry(Run(start, four), tab);
    NowStartsAnotherAttempt(Run(start, four + [Failed(tab)] + [load]), tab);
    hide Run, After;
    OfferedOneMore(start, four, Failed(tab));
    OfferedOneMore(start, four + [Failed(tab)], load);
  }

  lemma OfferedOneMore(start: Area, events: seq<Event>, last: Event)
    requires OfferedRun(start, events) && Offered(Run(start, events), last) && KeepsLimit(Run(start, events), last)
    ensures OfferedRun(start, events + [last])
  {
    assert (events + [last])[..|events|] == events;
  }

  lemma RunOfFour(start: Area, a: Event, b: Event, c: Event, d: Event)
    ensures Run(start, [a, b, c, d]) == After(After(After(After(start, a), b), c), d)
  {
    hide After;
    assert [a, b, c, d][..3] == [a, b, c];
    assert [a, b, c][..2] == [a, b];
    assert [a, b][..1] == [a];
    assert [a][..0] == [];
    assert Run(start, []) == start;
    assert Run(start, [a]) == After(start, a);
    assert Run(start, [a, b]) == After(Run(start, [a]), b);
  }

  // ---------- sessions ----------

  function TabsOf(sessions: seq<Session>): seq<TabId> {
    seq(|sessions|, i requires 0 <= i < |sessions| => sessions[i].tab)
  }

  lemma SwapKeepsTheTabs(sessions: seq<Session>, at: nat, next: Session)
    requires at < |sessions| && next.tab == sessions[at].tab
    ensures multiset(TabsOf(sessions[..at] + sessions[at + 1..] + [next])) == multiset(TabsOf(sessions))
  {
    var tabs := TabsOf(sessions);
    assert TabsOf(sessions[..at] + sessions[at + 1..] + [next]) == tabs[..at] + tabs[at + 1..] + [tabs[at]];
    assert tabs == tabs[..at] + [tabs[at]] + tabs[at + 1..];
  }

  /** In any run at all every tab keeps exactly its sessions: a swap takes one out and puts one in. */
  lemma {:induction false} EveryRunKeepsTheTabs(start: Area, events: seq<Event>)
    ensures multiset(TabsOf(Run(start, events).sessions)) == multiset(TabsOf(start.sessions))
  {
    if events != [] {
      EveryRunKeepsTheTabs(start, events[..|events| - 1]);
      StepKeepsTheTabs(Run(start, events[..|events| - 1]), events[|events| - 1]);
    }
  }

  lemma StepKeepsTheTabs(area: Area, event: Event)
    ensures multiset(TabsOf(After(area, event).sessions)) == multiset(TabsOf(area.sessions))
  {
    hide TabsOf;
    if event.Ready? && event.tab in area.cycles && HasSession(area, event.tab) {
      var at := IndexOf(area.sessions, event.tab);
      SwapKeepsTheTabs(area.sessions, at, Session(event.tab, area.created, area.cycles[event.tab].direct));
    }
  }

  // ---------- the delay ----------

  /** The delay meant: one second, doubled with every attempt, up to the maximum. */
  function MeantDelay(attempt: int, maxBackoff: int): int
    requires attempt >= 1
  {
    Min(1000 * Power(attempt - 1), maxBackoff)
  }

  lemma {:induction false} PowersGrow(a: nat, b: nat)
    requires a <= b
    ensures Power(a) <= Power(b)
  {
    if a < b {
      PowersGrow(a, b - 1);
    }
  }

  lemma PowersOfTwo()
    ensures Power(21) == 0x20_0000 && Power(22) == 0x40_0000 && Power(23) == 0x80_0000 && Power(24) == 0x100_0000
    ensures Power(25) == 0x200_0000 && Power(26) == 0x400_0000 && Power(27) == 0x800_0000
    ensures Power(28) == 0x1000_0000 && Power(29) == 0x2000_0000
  {
    assert Power(5) == 32;
    assert Power(10) == 1024;
    assert Power(15) == 32768;
    assert Power(20) == 1048576;
    assert Power(25) == 33554432;
  }

  /** The 32-bit shift alone. */
  function Shifted(attempt: int): int
    requires attempt >= 1
  {
    Int32(1000 * Power(Min(attempt, 30) - 1))
  }

  lemma ShiftUpToTwentyTwo(attempt: int)
    requires 1 <= attempt <= 22
    ensures Shifted(attempt) == 1000 * Power(attempt - 1) <= 0x7D00_0000
  {
    PowersOfTwo();
    PowersGrow(attempt - 1, 21);
    hide Power;
  }

  lemma ShiftBeyond(attempt: int)
    requires 22 < attempt
    ensures Shifted(attempt) == 0x4000_0000 || Shifted(attempt) <= 0
    ensures Shifted(attempt) == 0x4000_0000 <==> attempt == 28
  {
    PowersOfTwo();
    hide Power;
  }

  /** Up to attempt 22 the shift is exact; beyond, it is positive at attempt 28 only. */
  lemma ShiftIsExactUpToTwentyTwo(attempt: int)
    requires attempt >= 1
    ensures attempt <= 22 ==> Shifted(attempt) == 1000 * Power(attempt - 1) <= 0x7D00_0000
    ensures attempt > 22 ==> 1000 * Power(attempt - 1) > 0x7FFF_FFFF
    ensures attempt > 22 ==> Shifted(attempt) == 0x4000_0000 || Shifted(attempt) <= 0
    ensures attempt > 22 ==> (Shifted(attempt) == 0x4000_0000 <==> attempt == 28)
  {
    hide Shifted;
    if attempt <= 22 {
      ShiftUpToTwentyTwo(attempt);
    } else {
      ShiftBeyond(attempt);
      PowersOfTwo();
      PowersGrow(22, attempt - 1);
      hide Power;
    }
  }

  lemma DelayUpToTwentyTwo(attempt: int, maxBackoff: int)
    requires 1 <= attempt <= 22
    ensures Delay(attempt, maxBackoff) == MeantDelay(attempt, maxBackoff)
  {
    ShiftIsExactUpToTwentyTwo(attempt);
  }

  /** The delay never shrinks up to attempt 22. */
  lemma DelayNeverShrinks(attempt: int, later: int, maxBackoff: int)
    requires 1 <= attempt <= later <= 22
    ensures Delay(attempt, maxBackoff) <= Delay(later, maxBackoff)
  {
    DelayUpToTwentyTwo(attempt, maxBackoff);
    DelayUpToTwentyTwo(later, maxBackoff);
    PowersGrow(attempt - 1, later - 1);
  }

  /**
   For every maximum an int holds, the delay is the one meant exactly up to attempt 22, or when the maximum is no more
   than the overflown shift; a positive one is only at attempt 28.
   */
  lemma DelayIsMeantIff(attempt: int, maxBackoff: int)
    requires attempt >= 1 && maxBackoff < 0x8000_0000
    ensures Delay(attempt, maxBackoff) == MeantDelay(attempt, maxBackoff)
            <==> attempt <= 22 || maxBackoff <= Shifted(attempt)
    ensures maxBackoff >= 1 ==>
              (Delay(attempt, maxBackoff) == MeantDelay(attempt, maxBackoff)
               <==> attempt <= 22 || (attempt == 28 && maxBackoff <= 0x4000_0000))
  {
    hide Power, Int32;
    ShiftIsExactUpToTwentyTwo(attempt);
    assert Delay(attempt, maxBackoff) == Min(Shifted(attempt), maxBackoff);
  }

  /** With the default maximum the delay after attempt 23 is negative, so the retry fires at once. */
  lemma DelayOverflows()
    ensures Delay(23, DEFAULT_BACKOFF) == -100_663_296 && MeantDelay(23, DEFAULT_BACKOFF) == DEFAULT_BACKOFF
  {
    PowersOfTwo();
  }

  /**
   In a disciplined run a retry timer waits the delay of the attempts made, doubling from a second up to attempt 22.
   */
  lemma RetriesWaitTheirDelay(start: Area, events: seq<Event>, timer: TimerId)
    requires Idle(start) && DisciplinedRun(start, events)
    requires timer in Run(start, events).armed && Run(start, events).armed[timer].Retry?
    ensures var area := Run(start, events);
            && timer.tab in area.cycles
            && var cycle := area.cycles[timer.tab];
               var made := |cycle.attempts|;
               var maxBackoff := if cycle.options.Ssh? then cycle.options.maxBackoff else 16000;
               && made > 0 && area.armed[timer].delay == Delay(made, maxBackoff)
               && (made <= 22 ==> area.armed[timer].delay == MeantDelay(made, maxBackoff))
  {
    EveryDisciplinedRunIsSound(start, events);
    hide Run, DisciplinedRun, Delay, MeantDelay;
    var area := Run(start, events);
    assert TabSound(area, timer.tab) && TimerIsKnown(area, timer);
    var cycle := area.cycles[timer.tab];
    assert InPhase(area, timer.tab, cycle);
    if |cycle.attempts| <= 22 {
      DelayUpToTwentyTwo(|cycle.attempts|, MaxBackoff(cycle.options));
    }
  }
}
