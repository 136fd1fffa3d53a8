/**
 Whose options a reconnect uses: a tab that was opened by a direct connect stays one, whatever is reconnected, and all
 others follow the settings.
 */
module ReconnectSessions {
  import opened Wrappers
  import opened ReconnectCycle

  /** How the session of a tab was opened: None without a session, Some(None) from the settings. */
  function OpenedBy(area: Area, tab: TabId): Option<Option<Options>> {
    if HasSession(area, tab) then Some(area.sessions[IndexOf(area.sessions, tab)].direct) else None
  }

  /** Every tab has at most one session, opened as it was at the start, and its cycle knows how. */
  ghost predicate StayAsOpened(start: Area, area: Area) {
    && OnePerTab(area.sessions)
    && (forall tab :: OpenedBy(area, tab) == OpenedBy(start, tab))
    && (forall tab | tab in area.cycles :: OpenedBy(start, tab) == Some(area.cycles[tab].direct))
  }

  /** The session of a tab is the one at any place that has the tab. */
  lemma SessionIsAt(sessions: seq<Session>, at: nat)
    requires OnePerTab(sessions) && at < |sessions|
    ensures IndexOf(sessions, sessions[at].tab) == at
  {
    var index := IndexOf(sessions, sessions[at].tab);
    assert index <= at;
    assert !(index < at);
  }

  lemma OpenedAt(area: Area, at: nat)
    requires OnePerTab(area.sessions) && at < |area.sessions|
    ensures OpenedBy(area, area.sessions[at].tab) == Some(area.sessions[at].direct)
  {
    SessionIsAt(area.sessions, at);
  }

  lemma NotOpened(area: Area, tab: TabId)
    requires forall i | 0 <= i < |area.sessions| :: area.sessions[i].tab != tab
    ensures OpenedBy(area, tab) == None
  {
  }

  /** A swap keeps every tab as it was opened. */
  lemma SwappingKeepsOpened(start: Area, area: Area, tab: TabId)
    requires StayAsOpened(start, area)
    ensures StayAsOpened(start, Swapped(area, tab))
  {
    if tab in area.cycles && area.cycles[tab].candidate {
      var at := IndexOf(area.sessions, tab);
      assert OpenedBy(area, tab) == Some(area.cycles[tab].direct);
      var after := Swapped(area, tab);
      forall other ensures OpenedBy(after, other) == OpenedBy(area, other) {
        SwapKeepsOne(area, after, at, other);
      }
    }
  }

  lemma SwapKeepsOne(area: Area, after: Area, at: nat, tab: TabId)
    requires OnePerTab(area.sessions) && at < |area.sessions|
    requires |after.sessions| == |area.sessions|
    requires forall i | 0 <= i < |area.sessions| - 1 :: after.sessions[i] == area.sessions[if i < at then i else i + 1]
    requires var last := after.sessions[|after.sessions| - 1];
             last.tab == area.sessions[at].tab && last.direct == area.sessions[at].direct
    ensures OnePerTab(after.sessions) && OpenedBy(after, tab) == OpenedBy(area, tab)
  {
    assert OnePerTab(after.sessions);
    var i := IndexOf(area.sessions, tab);
    if i < |area.sessions| {
      var j: nat := if i < at then i else if i == at then |after.sessions| - 1 else i - 1;
      assert after.sessions[j].tab == tab && after.sessions[j].direct == area.sessions[i].direct;
      OpenedAt(after, j);
      OpenedAt(area, i);
    } else {
      NotOpened(after, tab);
    }
  }

  lemma EventKeepsOpened(start: Area, area: Area, event: Event)
    requires StayAsOpened(start, area)
    ensures StayAsOpened(start, After(area, event))
  {
    if event.Ready? {
      SwappingKeepsOpened(start, area, event.tab);
    } else {
      OthersKeepSessions(area, event);
      hide After;
      var after := After(area, event);
      forall tab ensures OpenedBy(after, tab) == OpenedBy(area, tab) {
      }
    }
  }

  lemma OthersKeepSessions(area: Area, event: Event)
    requires !event.Ready?
    ensures After(area, event).sessions == area.sessions
    ensures forall tab | tab in After(area, event).cycles ::
              if tab in area.cycles then After(area, event).cycles[tab].direct == area.cycles[tab].direct
              else OpenedBy(area, tab) == Some(After(area, event).cycles[tab].direct)
  {
    hide IndexOf, Countdown, DelayAfter, IsFinal, TimersCanceled, Shown;
    match event
    case Request(tab) =>
    case LoadEnd(tab, result) => EndingKeepsSessions(area.(loads := area.loads[tab := Less(LoadsOf(area, tab))]), tab);
    case Failed(tab) =>
      if tab in area.cycles {
        EndingKeepsSessions(area.(cycles := area.cycles[tab := area.cycles[tab].(candidate := false)]), tab);
      }
    case Fire(timer) => FiringKeepsSessions(area, timer);
    case Now(tab) => CancelingKeepsSessions(area, tab);
    case Cancel(tab) => EndingKeepsSessions(area, tab);
  }

  function Less(n: nat): nat {
    if n == 0 then 0 else n - 1
  }

  lemma CancelingKeepsSessions(area: Area, tab: TabId)
    ensures var quiet := TimersCanceled(area, tab);
            && quiet.sessions == area.sessions && quiet.cycles.Keys == area.cycles.Keys
            && forall other | other in area.cycles :: quiet.cycles[other].direct == area.cycles[other].direct
    ensures forall overlay :: Shown(area, tab, overlay).sessions == area.sessions
                              && Shown(area, tab, overlay).cycles == area.cycles
  {
  }

  lemma EndingKeepsSessions(area: Area, tab: TabId)
    ensures Aborted(area, tab).sessions == RetryScheduled(area, tab).sessions == area.sessions
    ensures forall other | other in Aborted(area, tab).cycles ::
              other in area.cycles && Aborted(area, tab).cycles[other].direct == area.cycles[other].direct
    ensures forall other | other in RetryScheduled(area, tab).cycles ::
              other in area.cycles && RetryScheduled(area, tab).cycles[other].direct == area.cycles[other].direct
  {
    hide IndexOf, Countdown, DelayAfter, IsFinal;
  }

  lemma FiringKeepsSessions(area: Area, timer: TimerId)
    ensures var after := After(area, Fire(timer));
            && after.sessions == area.sessions
            && forall tab | tab in after.cycles ::
                 tab in area.cycles && after.cycles[tab].direct == area.cycles[tab].direct
  {
    hide IndexOf;
  }

  /** In any run at all every tab stays as it was opened, through every reconnect. */
  lemma {:induction false} EveryRunKeepsOpened(start: Area, events: seq<Event>)
    requires Idle(start)
    ensures StayAsOpened(start, Run(start, events))
  {
    hide StayAsOpened, After;
    if events == [] {
      IdleIsAsOpened(start);
    } else {
      EveryRunKeepsOpened(start, events[..|events| - 1]);
      EventKeepsOpened(start, Run(start, events[..|events| - 1]), events[|events| - 1]);
    }
  }

  lemma IdleIsAsOpened(start: Area)
    requires Idle(start)
    ensures StayAsOpened(start, start)
  {
  }

  /**
   Settings that arrive for a cycle, in any run: a direct connect starts its probe with its own options whatever was
   found, any other with the options found, and ends when its session is in the settings no more; both end when the
   settings cannot be loaded.
   */
  lemma SettingsStartTheProbe(start: Area, events: seq<Event>, tab: TabId, result: LoadResult)
    requires Idle(start) && tab in Run(start, events).cycles && LoadsOf(Run(start, events), tab) > 0
    ensures OpenedBy(start, tab).Some?
    ensures var before, after := Run(start, events), Run(start, events + [LoadEnd(tab, result)]);
            var direct := OpenedBy(start, tab).value;
            if result.LoadFailed? || (direct.None? && result.NotInSettings?) then tab !in after.cycles
            else
              && tab in after.cycles && after.cycles[tab].candidate
              && after.cycles[tab].options == (if direct.Some? then direct.value else result.options)
              && after.cycles[tab].attempts == before.cycles[tab].attempts + [before.cycles[tab].attempt]
  {
    EveryRunKeepsOpened(start, events);
    assert (events + [LoadEnd(tab, result)])[..|events|] == events;
    var before := Run(start, events);
    assert OpenedBy(start, tab) == Some(before.cycles[tab].direct);
    hide OpenedBy, IndexOf;
  }

  // ---------- which session ----------

  function Reconnected(ended: seq<EndedCycle>): nat {
    if ended == [] then 0
    else Reconnected(ended[..|ended| - 1]) + if ended[|ended| - 1].reconnected then 1 else 0
  }

  /** No two sessions are the same one, and there are as many new ones as cycles that reconnected. */
  ghost predicate SerialsDiffer(start: Area, area: Area) {
    && (forall i | 0 <= i < |area.sessions| :: area.sessions[i].serial < area.created)
    && (forall i, j | 0 <= i < j < |area.sessions| :: area.sessions[i].serial != area.sessions[j].serial)
    && area.created == start.created + Reconnected(area.ended)
  }

  lemma OneCycleMore(ended: seq<EndedCycle>, cycle: EndedCycle)
    ensures Reconnected(ended + [cycle]) == Reconnected(ended) + if cycle.reconnected then 1 else 0
  {
    assert (ended + [cycle])[..|ended|] == ended;
  }

  /**
   A cycle leaves its tab only into the record of ended cycles, with the attempts it made, as reconnected exactly when
   its probe was adopted; at most one does so at an event.
   */
  ghost predicate RecordsItsEnds(area: Area, event: Event, after: Area) {
    && (forall tab | tab in area.cycles && tab !in after.cycles ::
          && |after.ended| == |area.ended| + 1
          && var last := after.ended[|area.ended|];
             && last.tab == tab && last.cycle.attempts == area.cycles[tab].attempts
             && last.cycle.options == area.cycles[tab].options
             && (last.reconnected <==> event == Ready(tab) && HasSession(area, tab)))
    && (after.ended == area.ended
        || (&& |after.ended| == |area.ended| + 1 && after.ended[..|area.ended|] == area.ended
            && after.ended[|area.ended|].tab in area.cycles && after.ended[|area.ended|].tab !in after.cycles))
  }

  lemma EndsAreRecorded(area: Area, event: Event)
    ensures RecordsItsEnds(area, event, After(area, event))
  {
    hide IndexOf, Countdown, DelayAfter, IsFinal, Replaced, TimersCanceled, Shown, Ticked;
    match event
    case Request(tab) => ReplacingEndsNothing(area, tab, 1);
    case LoadEnd(tab, result) => AbortRecords(area.(loads := area.loads[tab := Less(LoadsOf(area, tab))]), tab);
    case Ready(tab) => CancelingEndsNothing(area, tab);
    case Failed(tab) =>
      if tab in area.cycles {
        var failed := area.(cycles := area.cycles[tab := area.cycles[tab].(candidate := false)]);
        AbortRecords(failed, tab);
        SchedulingEndsOnlyFinals(failed, tab);
      }
    case Fire(timer) => FiringEndsNothing(area, timer);
    case Now(tab) =>
      CancelingEndsNothing(area, tab);
      if tab in area.cycles {
        ReplacingEndsNothing(TimersCanceled(area, tab), tab, area.cycles[tab].attempt + 1);
      }
    case Cancel(tab) => AbortRecords(area, tab);
  }

  lemma CancelingEndsNothing(area: Area, tab: TabId)
    ensures var quiet := TimersCanceled(area, tab);
            quiet.cycles.Keys == area.cycles.Keys && quiet.ended == area.ended && quiet.sessions == area.sessions
  {
  }

  lemma ReplacingEndsNothing(area: Area, tab: TabId, attempt: int)
    ensures var after := Replaced(area, tab, attempt);
            area.cycles.Keys <= after.cycles.Keys && after.ended == area.ended
  {
  }

  lemma FiringEndsNothing(area: Area, timer: TimerId)
    ensures var after := After(area, Fire(timer)); area.cycles.Keys <= after.cycles.Keys && after.ended == area.ended
  {
  }

  lemma SchedulingEndsOnlyFinals(area: Area, tab: TabId)
    ensures var after := RetryScheduled(area, tab);
            tab in area.cycles && !IsFinal(area.cycles[tab]) ==>
              area.cycles.Keys == after.cycles.Keys && after.ended == area.ended
  {
    hide IsFinal;
  }

  lemma AbortRecords(area: Area, tab: TabId)
    ensures var after := Aborted(area, tab);
            && after.cycles == area.cycles - {tab}
            && after.ended == area.ended + if tab in area.cycles then [EndedCycle(tab, area.cycles[tab], false)] else []
  {
    assert tab !in area.cycles ==> area.cycles - {tab} == area.cycles;
  }

  lemma SwapKeepsSerials(area: Area, tab: TabId)
    requires forall i | 0 <= i < |area.sessions| :: area.sessions[i].serial < area.created
    requires forall i, j | 0 <= i < j < |area.sessions| :: area.sessions[i].serial != area.sessions[j].serial
    ensures var after := Swapped(area, tab);
            && (forall i | 0 <= i < |after.sessions| :: after.sessions[i].serial < after.created)
            && (forall i, j | 0 <= i < j < |after.sessions| :: after.sessions[i].serial != after.sessions[j].serial)
            && after.created == area.created + Reconnected(after.ended) - Reconnected(area.ended)
  {
    hide IndexOf;
    if tab in area.cycles && area.cycles[tab].candidate {
      OneCycleMore(area.ended, EndedCycle(tab, area.cycles[tab], HasSession(area, tab)));
      hide Reconnected;
    }
  }

  lemma OthersMakeNoSession(area: Area, event: Event)
    requires !event.Ready?
    ensures After(area, event).created == area.created && After(area, event).sessions == area.sessions
  {
    OthersKeepSessions(area, event);
    hide IndexOf, Countdown, DelayAfter, IsFinal;
  }

  lemma EventKeepsSerials(start: Area, area: Area, event: Event)
    requires SerialsDiffer(start, area)
    ensures SerialsDiffer(start, After(area, event))
  {
    if event.Ready? {
      SwapKeepsSerials(area, event.tab);
    } else {
      OthersMakeNoSession(area, event);
      OnlyReadyReconnects(area, event);
    }
    hide IndexOf;
  }

  lemma OnlyReadyReconnects(area: Area, event: Event)
    requires !event.Ready?
    ensures Reconnected(After(area, event).ended) == Reconnected(area.ended)
  {
    var after := After(area, event);
    EndsAreRecorded(area, event);
    hide After, IndexOf;
    if after.ended != area.ended {
      OneCycleMore(area.ended, after.ended[|area.ended|]);
      assert after.ended == area.ended + [after.ended[|area.ended|]];
    }
  }

  /** In any run every reconnect makes a new session, and the others stay the ones they were. */
  lemma {:induction false} EveryReconnectMakesASession(start: Area, events: seq<Event>)
    requires SerialsDiffer(start, start) && start.ended == []
    ensures SerialsDiffer(start, Run(start, events))
  {
    hide SerialsDiffer, After;
    if events != [] {
      EveryReconnectMakesASession(start, events[..|events| - 1]);
      EventKeepsSerials(start, Run(start, events[..|events| - 1]), events[|events| - 1]);
    }
  }
}
