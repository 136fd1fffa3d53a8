/**
 The reconnect cycles of the tabs (session_area.cpp): one hidden probe per attempt, a growing delay between attempts,
 and a limit. Callbacks of the settings, the probe and the timers are events; armed holds the timers the browser will
 still fire.
 */
module ReconnectCycle {
  import opened Wrappers

  type TabId = int

  /** A timer the browser set, tagged with the tab it was set for. */
  datatype TimerId = TimerId(number: nat, tab: TabId)

  const DEFAULT_BACKOFF := 16000

  datatype Options = Ssh(maxAttempts: int, maxBackoff: int) | OtherEngine

  /** direct: the options a direct connect was opened with, which is not in the settings. */
  datatype Session = Session(tab: TabId, serial: nat, direct: Option<Options>)

  datatype Timer = Retry(delay: int) | Tick(remaining: int)

  /** attempts records the attempts a probe was started for. */
  datatype Cycle = Cycle(
    attempt: int, direct: Option<Options>, options: Options, candidate: bool,
    retryTimer: Option<TimerId>, tickTimer: Option<TimerId>, attempts: seq<int>)

  datatype EndedCycle = EndedCycle(tab: TabId, cycle: Cycle, reconnected: bool)

  /** What the lost-connection overlay of a session shows. */
  datatype Overlay = Overlay(active: bool, attempt: int, countdown: int)

  const HIDDEN := Overlay(false, 1, 0)

  /** loads counts the settings asked for and not yet received for a tab; ended records the cycles that are over. */
  datatype Area = Area(
    sessions: seq<Session>, created: nat, cycles: map<TabId, Cycle>, armed: map<TimerId, Timer>, nextTimer: nat,
    loads: map<TabId, nat>, overlays: map<TabId, Overlay>, ended: seq<EndedCycle>)

  datatype LoadResult = LoadFailed | NotInSettings | Found(options: Options)

  datatype Event =
    | Request(tab: TabId)
    | LoadEnd(tab: TabId, result: LoadResult)
    | Ready(tab: TabId)
    | Failed(tab: TabId)
    | Fire(timer: TimerId)
    | Now(tab: TabId)
    | Cancel(tab: TabId)

  // ---------- the limit and the delay ----------

  /** The most attempts, negative for no limit. */
  function MaxAttempts(options: Options): int {
    if options.Ssh? then options.maxAttempts else -1
  }

  function MaxBackoff(options: Options): int {
    if options.Ssh? then options.maxBackoff else DEFAULT_BACKOFF
  }

  predicate IsFinal(cycle: Cycle) {
    MaxAttempts(cycle.options) >= 0 && cycle.attempt >= MaxAttempts(cycle.options)
  }

  function Power(n: nat): (p: nat)
    ensures p > 0
  {
    if n == 0 then 1 else 2 * Power(n - 1)
  }

  function Min(a: int, b: int): int {
    if a < b then a else b
  }

  function Max(a: int, b: int): int {
    if a < b then b else a
  }

  /** An int of 32 bits, in two's complement. */
  function Int32(x: int): int {
    (x + 0x8000_0000) % 0x1_0000_0000 - 0x8000_0000
  }

  /** The delay after an attempt, as the 32-bit shift gives it. */
  function Delay(attempt: int, maxBackoff: int): int
    requires attempt >= 1
  {
    Min(Int32(1000 * Power(Min(attempt, 30) - 1)), maxBackoff)
  }

  /** The delay after the current attempt of a cycle, which is at least the first. */
  function DelayAfter(cycle: Cycle): int {
    Delay(Max(1, cycle.attempt), MaxBackoff(cycle.options))
  }

  /** The seconds shown until the next attempt. */
  function Countdown(cycle: Cycle): int {
    Max(1, DelayAfter(cycle) / 1000)
  }

  // ---------- sessions ----------

  function IndexOf(sessions: seq<Session>, tab: TabId): (index: nat)
    ensures index <= |sessions|
    ensures index < |sessions| ==> sessions[index].tab == tab
    ensures forall i | 0 <= i < index :: sessions[i].tab != tab
  {
    if sessions == [] || sessions[0].tab == tab then 0 else 1 + IndexOf(sessions[1..], tab)
  }

  predicate HasSession(area: Area, tab: TabId) {
    IndexOf(area.sessions, tab) < |area.sessions|
  }

  function LoadsOf(area: Area, tab: TabId): nat {
    if tab in area.loads then area.loads[tab] else 0
  }

  function OverlayOf(area: Area, tab: TabId): Overlay {
    if tab in area.overlays then area.overlays[tab] else HIDDEN
  }

  // ---------- what the handlers do ----------

  /** The overlay of the session of a tab shows something else. */
  function Shown(area: Area, tab: TabId, overlay: Overlay): Area {
    if HasSession(area, tab) then area.(overlays := area.overlays[tab := overlay]) else area
  }

  /** Starts an attempt: the settings are asked for; the first one of a tab opens its cycle. */
  function Replaced(area: Area, tab: TabId, attempt: int): Area {
    var at := IndexOf(area.sessions, tab);
    if at == |area.sessions| then area
    else
      var cycle := if tab in area.cycles then area.cycles[tab].(attempt := attempt)
                   else Cycle(attempt, area.sessions[at].direct, OtherEngine, false, None, None, []);
      var overlay := if tab in area.cycles then OverlayOf(area, tab) else Overlay(true, 1, 0);
      area.(cycles := area.cycles[tab := cycle], loads := area.loads[tab := LoadsOf(area, tab) + 1],
      overlays := area.overlays[tab := overlay.(attempt := attempt, countdown := 0)])
  }

  function IdsOf(id: Option<TimerId>): set<TimerId> {
    if id.Some? then {id.value} else {}
  }

  function TimersCanceled(area: Area, tab: TabId): Area {
    if tab !in area.cycles then area
    else
      var cycle := area.cycles[tab];
      area.(armed := area.armed - IdsOf(cycle.retryTimer) - IdsOf(cycle.tickTimer),
      cycles := area.cycles[tab := cycle.(retryTimer := None, tickTimer := None)])
  }

  function Aborted(area: Area, tab: TabId): Area {
    if tab !in area.cycles then Shown(area, tab, HIDDEN)
    else
      var quiet := TimersCanceled(area, tab);
      Shown(
        quiet.(cycles := quiet.cycles - {tab}, ended := quiet.ended + [EndedCycle(tab, area.cycles[tab], false)]),
        tab, HIDDEN)
  }

  /** The settings arrived: the probe of the current attempt starts with the options as they are now. */
  function Loaded(area: Area, tab: TabId, result: LoadResult): Area {
    if result.LoadFailed? then Aborted(area, tab)
    else if tab !in area.cycles then area
    else
      var cycle := area.cycles[tab];
      if cycle.direct.None? && result.NotInSettings? then Aborted(area, tab)
      else
        var options := if cycle.direct.Some? then cycle.direct.value else result.options;
        area.(cycles := area.cycles[tab := cycle.(options := options, candidate := true,
                                                  attempts := cycle.attempts + [cycle.attempt])])
  }

  /** The session of the tab is replaced by one that adopts the probe, at the end of the list. */
  function Swapped(area: Area, tab: TabId): Area {
    if tab !in area.cycles || !area.cycles[tab].candidate then area
    else
      var cycle := area.cycles[tab];
      var quiet := TimersCanceled(area, tab);
      var at := IndexOf(area.sessions, tab);
      if at == |area.sessions| then
        quiet.(cycles := quiet.cycles - {tab}, ended := quiet.ended + [EndedCycle(tab, cycle, false)])
      else
        quiet.(sessions := area.sessions[..at] + area.sessions[at + 1..] + [Session(tab, area.created, cycle.direct)],
        created := area.created + 1, cycles := quiet.cycles - {tab}, overlays := area.overlays - {tab},
        ended := quiet.ended + [EndedCycle(tab, cycle, true)])
  }

  /** Arms the next attempt, unless the current one was the last. */
  function RetryScheduled(area: Area, tab: TabId): Area {
    if tab !in area.cycles then area
    else if IsFinal(area.cycles[tab]) then Aborted(area, tab)
    else
      var cycle := area.cycles[tab];
      var tick, retry := TimerId(area.nextTimer, tab), TimerId(area.nextTimer + 1, tab);
      var shown := Shown(area, tab, OverlayOf(area, tab).(attempt := cycle.attempt + 1, countdown := Countdown(cycle)));
      shown.(armed := area.armed[tick := Tick(Countdown(cycle))][retry := Retry(DelayAfter(cycle))],
      nextTimer := area.nextTimer + 2,
      cycles := area.cycles[tab := cycle.(tickTimer := Some(tick), retryTimer := Some(retry))])
  }

  function ProbeFailed(area: Area, tab: TabId): Area {
    if tab !in area.cycles then area
    else RetryScheduled(area.(cycles := area.cycles[tab := area.cycles[tab].(candidate := false)]), tab)
  }

  function RetryFired(area: Area, tab: TabId): Area {
    if tab !in area.cycles then area
    else
      var cycle := area.cycles[tab];
      var quiet := area.(armed := area.armed - IdsOf(cycle.tickTimer),
                         cycles := area.cycles[tab := cycle.(retryTimer := None, tickTimer := None)]);
      Replaced(quiet, tab, cycle.attempt + 1)
  }

  function Ticked(area: Area, tab: TabId, remaining: int): Area {
    if tab !in area.cycles || !HasSession(area, tab) then area
    else if remaining - 1 <= 0 then Shown(area, tab, OverlayOf(area, tab).(countdown := 0))
    else
      var id := TimerId(area.nextTimer, tab);
      Shown(area, tab, OverlayOf(area, tab).(countdown := remaining - 1)).(
      armed := area.armed[id := Tick(remaining - 1)], nextTimer := area.nextTimer + 1,
      cycles := area.cycles[tab := area.cycles[tab].(tickTimer := Some(id))])
  }

  function RetriedNow(area: Area, tab: TabId): Area {
    if tab !in area.cycles then area else Replaced(TimersCanceled(area, tab), tab, area.cycles[tab].attempt + 1)
  }

  /** A probe that is gone reports nothing, settings arrive once for each time asked, a timer fires once. */
  function After(area: Area, event: Event): Area {
    match event
    case Request(tab) => Replaced(area, tab, 1)
    case LoadEnd(tab, result) =>
      if LoadsOf(area, tab) == 0 then area
      else Loaded(area.(loads := area.loads[tab := LoadsOf(area, tab) - 1]), tab, result)
    case Ready(tab) => Swapped(area, tab)
    case Failed(tab) => if tab in area.cycles && area.cycles[tab].candidate then ProbeFailed(area, tab) else area
    case Fire(timer) =>
      if timer !in area.armed then area
      else
        var fired := area.(armed := area.armed - {timer});
        (match area.armed[timer]
         case Retry(delay) => RetryFired(fired, timer.tab)
         case Tick(remaining) => Ticked(fired, timer.tab, remaining))
    case Now(tab) => RetriedNow(area, tab)
    case Cancel(tab) => Aborted(area, tab)
  }

  /**
   What the overlay lets the user do: Reconnect while no cycle is shown, Now while it counts down, Cancel while a cycle
   is shown.
   */
  predicate Offered(area: Area, event: Event) {
    match event
    case Request(tab) => HasSession(area, tab) && !OverlayOf(area, tab).active
    case Now(tab) => OverlayOf(area, tab).active && OverlayOf(area, tab).countdown > 0
    case Cancel(tab) => OverlayOf(area, tab).active
    case _ => true
  }

  /** The limit stays the same over a cycle. */
  predicate KeepsLimit(area: Area, event: Event) {
    event.LoadEnd? && event.tab in area.cycles && event.result.Found?
    && area.cycles[event.tab].attempts != [] && area.cycles[event.tab].direct.None? ==>
      MaxAttempts(event.result.options) == MaxAttempts(area.cycles[event.tab].options)
  }

  /**
   The user does what the overlay offers, but presses Reconnect only once no settings of a canceled cycle are on their
   way any more; and the limit stays the same over a cycle.
   */
  predicate Disciplined(area: Area, event: Event) {
    && Offered(area, event) && KeepsLimit(area, event)
    && (event.Request? ==> LoadsOf(area, event.tab) == 0)
  }

  /** What the handlers need to keep the cycles sound. */
  predicate Orderly(area: Area, event: Event) {
    && KeepsLimit(area, event)
    && (event.Request? ==> event.tab !in area.cycles && LoadsOf(area, event.tab) == 0)
    && (event.Now? && event.tab in area.cycles ==> area.cycles[event.tab].retryTimer.Some?)
  }

  function Run(start: Area, events: seq<Event>): Area {
    if events == [] then start else After(Run(start, events[..|events| - 1]), events[|events| - 1])
  }

  predicate DisciplinedRun(start: Area, events: seq<Event>) {
    events == []
    || (&& DisciplinedRun(start, events[..|events| - 1])
        && Disciplined(Run(start, events[..|events| - 1]), events[|events| - 1]))
  }

  /** The user does no more than the overlay offers, and the limit stays the same over a cycle. */
  predicate OfferedRun(start: Area, events: seq<Event>) {
    events == []
    || (var before := Run(start, events[..|events| - 1]);
        var last := events[|events| - 1];
        OfferedRun(start, events[..|events| - 1]) && Offered(before, last) && KeepsLimit(before, last))
  }

  /** Tabs with one session each and nothing under way. */
  ghost predicate Idle(area: Area) {
    area.cycles == map[] && area.armed == map[] && area.loads == map[] && area.overlays == map[]
    && area.ended == [] && OnePerTab(area.sessions)
  }

  ghost predicate OnePerTab(sessions: seq<Session>) {
    forall i, j | 0 <= i < j < |sessions| :: sessions[i].tab != sessions[j].tab
  }

  // ---------- the invariant ----------

  /** The attempts are 1, 2, 3, … and, with a limit, at most the larger of one and the limit. */
  ghost predicate Counted(cycle: Cycle) {
    && (forall i | 0 <= i < |cycle.attempts| :: cycle.attempts[i] == i + 1)
    && (cycle.attempts != [] && MaxAttempts(cycle.options) >= 0 ==>
          |cycle.attempts| <= Max(1, MaxAttempts(cycle.options)))
  }

  /** One more attempt is within the limit. */
  ghost predicate MayGoOn(cycle: Cycle) {
    cycle.attempts == [] || MaxAttempts(cycle.options) < 0 || |cycle.attempts| < MaxAttempts(cycle.options)
  }

  /** Waits for the settings, for the probe or for the retry timer. */
  ghost predicate InPhase(area: Area, tab: TabId, cycle: Cycle) {
    && Counted(cycle)
    && (cycle.attempts != [] && cycle.direct.Some? ==> cycle.options == cycle.direct.value)
    && if LoadsOf(area, tab) > 0 then
         && LoadsOf(area, tab) == 1 && !cycle.candidate && cycle.retryTimer == cycle.tickTimer == None
         && cycle.attempt == |cycle.attempts| + 1 && MayGoOn(cycle)
       else
         && cycle.attempt == |cycle.attempts| > 0
         && if cycle.candidate then cycle.retryTimer == cycle.tickTimer == None
            else
              && cycle.retryTimer.Some? && cycle.retryTimer.value in area.armed
              && area.armed[cycle.retryTimer.value] == Retry(DelayAfter(cycle)) && MayGoOn(cycle)
  }

  /** A timer that may still fire is the one its cycle knows. */
  ghost predicate TimerIsKnown(area: Area, id: TimerId) {
    id in area.armed ==>
      && id.number < area.nextTimer && id.tab in area.cycles
      && match area.armed[id]
         case Retry(delay) => area.cycles[id.tab].retryTimer == Some(id)
         case Tick(remaining) => area.cycles[id.tab].tickTimer == Some(id)
  }

  ghost predicate HandlesAreOwn(area: Area, tab: TabId, cycle: Cycle) {
    && (cycle.retryTimer.Some? ==> cycle.retryTimer.value.tab == tab && cycle.retryTimer.value.number < area.nextTimer)
    && (cycle.tickTimer.Some? ==> cycle.tickTimer.value.tab == tab && cycle.tickTimer.value.number < area.nextTimer)
    && (cycle.retryTimer.Some? ==> cycle.retryTimer != cycle.tickTimer)
  }

  ghost predicate TabSound(area: Area, tab: TabId) {
    && (tab in area.cycles ==>
          && HasSession(area, tab) && InPhase(area, tab, area.cycles[tab])
          && HandlesAreOwn(area, tab, area.cycles[tab]))
    && (forall id: TimerId | id.tab == tab :: TimerIsKnown(area, id))
  }

  ghost predicate Sound(area: Area) {
    && OnePerTab(area.sessions)
    && (forall tab :: TabSound(area, tab))
    && (forall i | 0 <= i < |area.ended| :: Counted(area.ended[i].cycle))
  }

  // ---------- steps ----------

  /** Nothing of any other tab changes. */
  ghost predicate OnlyTab(area: Area, after: Area, tab: TabId) {
    && area.nextTimer <= after.nextTimer
    && (forall other | other != tab ::
          && (other in after.cycles <==> other in area.cycles)
          && (other in area.cycles ==> after.cycles[other] == area.cycles[other])
          && LoadsOf(after, other) == LoadsOf(area, other)
          && (HasSession(area, other) ==> HasSession(after, other)))
    && (forall id: TimerId | id.tab != tab ::
          && (id in after.armed <==> id in area.armed)
          && (id in area.armed ==> after.armed[id] == area.armed[id]))
  }

  lemma OtherTabsStaySound(area: Area, after: Area, tab: TabId, other: TabId)
    requires TabSound(area, other) && OnlyTab(area, after, tab) && other != tab
    ensures TabSound(after, other)
  {
    forall id: TimerId | id.tab == other ensures TimerIsKnown(after, id) {
      assert TimerIsKnown(area, id);
    }
    if other in area.cycles {
      assert InPhase(area, other, area.cycles[other]);
    }
  }

  lemma OneTabChanged(area: Area, after: Area, tab: TabId)
    requires Sound(area) && OnlyTab(area, after, tab) && TabSound(after, tab) && OnePerTab(after.sessions)
    requires forall i | 0 <= i < |after.ended| :: Counted(after.ended[i].cycle)
    ensures Sound(after)
  {
    forall other ensures TabSound(after, other) {
      if other != tab {
        OtherTabsStaySound(area, after, tab, other);
      }
    }
  }

  lemma RequestKeepsSound(area: Area, tab: TabId)
    requires Sound(area) && Orderly(area, Request(tab))
    ensures Sound(Replaced(area, tab, 1))
  {
    assert TabSound(area, tab);
    hide Counted;
    NothingCounted();
    var after := Replaced(area, tab, 1);
    assert TabSound(after, tab) by {
      assert forall id: TimerId | id.tab == tab :: TimerIsKnown(area, id);
    }
    OneTabChanged(area, after, tab);
  }

  lemma NothingCounted()
    ensures forall cycle: Cycle | cycle.attempts == [] :: Counted(cycle)
  {
  }

  lemma CancelingLeavesNoTimer(area: Area, tab: TabId)
    requires forall id: TimerId | id.tab == tab :: TimerIsKnown(area, id)
    requires tab in area.cycles ==> HandlesAreOwn(area, tab, area.cycles[tab])
    ensures OnlyTab(area, TimersCanceled(area, tab), tab)
    ensures forall id: TimerId | id.tab == tab :: id !in TimersCanceled(area, tab).armed
  {
    forall id: TimerId | id.tab == tab ensures id !in TimersCanceled(area, tab).armed {
      assert TimerIsKnown(area, id);
    }
  }

  lemma AbortKeepsSound(area: Area, tab: TabId)
    requires Sound(area)
    ensures Sound(Aborted(area, tab))
  {
    hide Counted, MayGoOn;
    assert TabSound(area, tab);
    CancelingLeavesNoTimer(area, tab);
    var after := Aborted(area, tab);
    assert tab in area.cycles ==> InPhase(area, tab, area.cycles[tab]);
    OneTabChanged(area, after, tab);
  }

  /** The attempts, and the limit they are held against. */
  lemma OneMoreAttempt(cycle: Cycle, options: Options)
    requires Counted(cycle) && MayGoOn(cycle) && cycle.attempt == |cycle.attempts| + 1
    requires cycle.attempts != [] ==> MaxAttempts(options) == MaxAttempts(cycle.options)
    ensures Counted(cycle.(options := options, candidate := true, attempts := cycle.attempts + [cycle.attempt]))
  {
  }

  lemma AbortWithoutTimers(area: Area, tab: TabId)
    requires tab in area.cycles && area.cycles[tab].retryTimer == area.cycles[tab].tickTimer == None
    ensures Aborted(area, tab)
            == Shown(
                 area.(
                   cycles := area.cycles - {tab}, ended := area.ended + [EndedCycle(tab, area.cycles[tab], false)]),
                 tab, HIDDEN)
  {
    var cycle := area.cycles[tab];
    assert area.armed - {} - {} == area.armed;
    assert area.cycles[tab := cycle.(retryTimer := None, tickTimer := None)] - {tab} == area.cycles - {tab};
  }

  lemma NothingLeftIsSound(area: Area, tab: TabId)
    requires tab !in area.cycles && forall id: TimerId | id.tab == tab :: id !in area.armed
    ensures TabSound(area, tab)
  {
  }

  predicate LoadAborts(cycle: Cycle, result: LoadResult) {
    result.LoadFailed? || (cycle.direct.None? && result.NotInSettings?)
  }

  lemma NoTimersWhileLoading(area: Area, tab: TabId)
    requires TabSound(area, tab) && LoadsOf(area, tab) > 0
    ensures forall id: TimerId | id.tab == tab :: id !in area.armed
  {
    hide Counted, MayGoOn, DelayAfter;
    forall id: TimerId | id.tab == tab ensures id !in area.armed {
      assert TimerIsKnown(area, id);
    }
  }

  lemma AbortedLoadKeepsSound(area: Area, tab: TabId, result: LoadResult)
    requires Sound(area) && LoadsOf(area, tab) > 0
    requires tab in area.cycles ==> LoadAborts(area.cycles[tab], result)
    ensures Sound(After(area, LoadEnd(tab, result)))
  {
    hide Counted, MayGoOn, DelayAfter, IndexOf;
    assert TabSound(area, tab);
    NoTimersWhileLoading(area, tab);
    var received := area.(loads := area.loads[tab := LoadsOf(area, tab) - 1]);
    if tab in area.cycles {
      AbortWithoutTimers(received, tab);
    }
    NothingLeftIsSound(After(area, LoadEnd(tab, result)), tab);
    OneTabChanged(area, After(area, LoadEnd(tab, result)), tab);
  }

  /** The settings of an attempt arrive: its probe starts. */
  lemma AttemptKeepsSound(area: Area, tab: TabId, result: LoadResult)
    requires Sound(area) && Orderly(area, LoadEnd(tab, result)) && LoadsOf(area, tab) > 0
    requires tab in area.cycles && !LoadAborts(area.cycles[tab], result)
    ensures Sound(After(area, LoadEnd(tab, result)))
  {
    hide Counted, DelayAfter, IndexOf, Aborted, TimersCanceled;
    assert TabSound(area, tab);
    NoTimersWhileLoading(area, tab);
    var cycle := area.cycles[tab];
    assert InPhase(area, tab, cycle);
    OneMoreAttempt(cycle, if cycle.direct.Some? then cycle.direct.value else result.options);
    OneTabChanged(area, After(area, LoadEnd(tab, result)), tab);
  }

  lemma LoadKeepsSound(area: Area, tab: TabId, result: LoadResult)
    requires Sound(area) && Orderly(area, LoadEnd(tab, result)) && LoadsOf(area, tab) > 0
    ensures Sound(After(area, LoadEnd(tab, result)))
  {
    hide Sound, After, Orderly;
    if tab in area.cycles && !LoadAborts(area.cycles[tab], result) {
      AttemptKeepsSound(area, tab, result);
    } else {
      AbortedLoadKeepsSound(area, tab, result);
    }
  }

  lemma ReadyKeepsSound(area: Area, tab: TabId)
    requires Sound(area)
    ensures Sound(Swapped(area, tab))
  {
    assert TabSound(area, tab);
    hide Counted, MayGoOn;
    if tab in area.cycles && area.cycles[tab].candidate {
      var after := Swapped(area, tab);
      var at := IndexOf(area.sessions, tab);
      assert InPhase(area, tab, area.cycles[tab]);
      CancelingLeavesNoTimer(area, tab);
      SwapKeepsTabs(area.sessions, at, Session(tab, area.created, area.cycles[tab].direct));
      forall other | other != tab && HasSession(area, other) ensures HasSession(after, other) {
        SwapKeepsOthers(area.sessions, at, Session(tab, area.created, area.cycles[tab].direct), other);
      }
      OneTabChanged(area, after, tab);
    }
  }

  lemma SwapKeepsTabs(sessions: seq<Session>, at: nat, next: Session)
    requires OnePerTab(sessions) && at < |sessions| && next.tab == sessions[at].tab
    ensures OnePerTab(sessions[..at] + sessions[at + 1..] + [next])
  {
    var after := sessions[..at] + sessions[at + 1..] + [next];
    forall i, j | 0 <= i < j < |after| ensures after[i].tab != after[j].tab {
      var old_i, old_j := if i < at then i else i + 1, if j < at then j else if j == |after| - 1 then at else j + 1;
      assert after[i] == sessions[old_i] && after[j].tab == sessions[old_j].tab && old_i != old_j;
    }
  }

  lemma SwapKeepsOthers(sessions: seq<Session>, at: nat, next: Session, other: TabId)
    requires at < |sessions| && next.tab == sessions[at].tab && other != next.tab
    requires IndexOf(sessions, other) < |sessions|
    ensures IndexOf(sessions[..at] + sessions[at + 1..] + [next], other) < |sessions|
  {
    var after := sessions[..at] + sessions[at + 1..] + [next];
    var i := IndexOf(sessions, other);
    assert after[if i < at then i else i - 1] == sessions[i];
  }

  lemma NoTimersWhileProbing(area: Area, tab: TabId)
    requires TabSound(area, tab) && tab in area.cycles && area.cycles[tab].candidate
    ensures forall id: TimerId | id.tab == tab :: id !in area.armed
    ensures area.cycles[tab].retryTimer == area.cycles[tab].tickTimer == None
  {
    hide Counted, MayGoOn, DelayAfter;
    forall id: TimerId | id.tab == tab ensures id !in area.armed {
      assert TimerIsKnown(area, id);
    }
  }

  lemma GivingUpKeepsSound(area: Area, tab: TabId)
    requires Sound(area) && tab in area.cycles && area.cycles[tab].candidate && IsFinal(area.cycles[tab])
    ensures Sound(ProbeFailed(area, tab))
  {
    hide Counted, MayGoOn, DelayAfter, IndexOf, TimersCanceled;
    assert TabSound(area, tab);
    NoTimersWhileProbing(area, tab);
    var cycle := area.cycles[tab].(candidate := false);
    var failed := area.(cycles := area.cycles[tab := cycle]);
    assert InPhase(area, tab, area.cycles[tab]);
    StillCounted(area.cycles[tab], cycle);
    AbortWithoutTimers(failed, tab);
    NothingLeftIsSound(ProbeFailed(area, tab), tab);
    OneTabChanged(area, ProbeFailed(area, tab), tab);
  }

  lemma RetryingKeepsSound(area: Area, tab: TabId)
    requires Sound(area) && tab in area.cycles && area.cycles[tab].candidate && !IsFinal(area.cycles[tab])
    ensures Sound(ProbeFailed(area, tab))
  {
    hide Counted, Delay, Countdown, IndexOf, Aborted;
    assert TabSound(area, tab);
    NoTimersWhileProbing(area, tab);
    var after := ProbeFailed(area, tab);
    assert InPhase(area, tab, area.cycles[tab]);
    StillCounted(area.cycles[tab], after.cycles[tab]);
    OneTabChanged(area, after, tab);
  }

  lemma FailureKeepsSound(area: Area, tab: TabId)
    requires Sound(area) && tab in area.cycles && area.cycles[tab].candidate
    ensures Sound(ProbeFailed(area, tab))
  {
    hide Sound, ProbeFailed;
    if IsFinal(area.cycles[tab]) {
      GivingUpKeepsSound(area, tab);
    } else {
      RetryingKeepsSound(area, tab);
    }
  }

  lemma StillCounted(cycle: Cycle, after: Cycle)
    requires Counted(cycle) && after.attempts == cycle.attempts && after.options == cycle.options
    ensures Counted(after)
    ensures MayGoOn(cycle) ==> MayGoOn(after)
  {
  }

  lemma RetryKeepsSound(area: Area, timer: TimerId)
    requires Sound(area) && timer in area.armed && area.armed[timer].Retry?
    ensures Sound(After(area, Fire(timer)))
  {
    var tab := timer.tab;
    assert TabSound(area, tab) && TimerIsKnown(area, timer);
    hide Counted, MayGoOn, DelayAfter, IndexOf;
    var cycle := area.cycles[tab];
    var after := After(area, Fire(timer));
    assert InPhase(area, tab, cycle);
    StillCounted(cycle, after.cycles[tab]);
    forall id: TimerId | id.tab == tab ensures id !in after.armed {
      assert TimerIsKnown(area, id);
    }
    OneTabChanged(area, after, tab);
  }

  lemma TickKeepsSound(area: Area, timer: TimerId)
    requires Sound(area) && timer in area.armed && area.armed[timer].Tick?
    ensures Sound(After(area, Fire(timer)))
  {
    var tab := timer.tab;
    assert TabSound(area, tab) && TimerIsKnown(area, timer);
    hide Counted, MayGoOn, DelayAfter, IndexOf;
    var cycle := area.cycles[tab];
    var after := After(area, Fire(timer));
    assert InPhase(area, tab, cycle);
    StillCounted(cycle, after.cycles[tab]);
    forall id: TimerId | id.tab == tab ensures TimerIsKnown(after, id) {
      assert TimerIsKnown(area, id);
    }
    OneTabChanged(area, after, tab);
  }

  lemma NowKeepsSound(area: Area, tab: TabId)
    requires Sound(area) && Orderly(area, Now(tab))
    ensures Sound(RetriedNow(area, tab))
  {
    assert TabSound(area, tab);
    hide Counted, MayGoOn;
    if tab in area.cycles {
      var cycle := area.cycles[tab];
      var after := RetriedNow(area, tab);
      assert InPhase(area, tab, cycle);
      CancelingLeavesNoTimer(area, tab);
      StillCounted(cycle, after.cycles[tab]);
      OneTabChanged(area, after, tab);
    }
  }

  lemma StepsKeepSound(area: Area, event: Event)
    requires Sound(area) && Orderly(area, event)
    ensures Sound(After(area, event))
  {
    hide Sound, Replaced, Loaded, Swapped, ProbeFailed, RetryFired, Ticked, RetriedNow, Aborted;
    match event {
      case Request(tab) => RequestKeepsSound(area, tab);
      case LoadEnd(tab, result) =>
        if LoadsOf(area, tab) > 0 {
          LoadKeepsSound(area, tab, result);
        }
      case Ready(tab) => ReadyKeepsSound(area, tab);
      case Failed(tab) =>
        if tab in area.cycles && area.cycles[tab].candidate {
          FailureKeepsSound(area, tab);
        }
      case Fire(timer) =>
        if timer in area.armed {
          if area.armed[timer].Retry? {
            RetryKeepsSound(area, timer);
          } else {
            TickKeepsSound(area, timer);
          }
        }
      case Now(tab) => NowKeepsSound(area, tab);
      case Cancel(tab) => AbortKeepsSound(area, tab);
    }
  }

  // ---------- the overlay ----------

  /** The overlay of a session shows a cycle while there is one, and counts down only while a retry is pending. */
  ghost predicate OverlayIsTrue(area: Area, tab: TabId) {
    && (OverlayOf(area, tab).active <==> tab in area.cycles)
    && (OverlayOf(area, tab).countdown > 0 ==> tab in area.cycles && area.cycles[tab].retryTimer.Some?)
  }

  ghost predicate OverlaysAreTrue(area: Area) {
    forall tab :: OverlayIsTrue(area, tab)
  }

  lemma AttemptShows(area: Area, started: TabId, attempt: int, tab: TabId)
    requires OverlayOf(area, tab).active <==> tab in area.cycles
    requires tab != started || !HasSession(area, started) ==> OverlayIsTrue(area, tab)
    ensures OverlayIsTrue(Replaced(area, started, attempt), tab)
  {
  }

  lemma EndShows(area: Area, ended: TabId, tab: TabId)
    requires OverlayIsTrue(area, tab) && (ended in area.cycles ==> HasSession(area, ended))
    ensures OverlayIsTrue(Aborted(area, ended), tab) && OverlayIsTrue(Swapped(area, ended), tab)
  {
    hide IndexOf;
  }

  lemma RetryShows(area: Area, failed: TabId, tab: TabId)
    requires OverlayIsTrue(area, tab) && (failed in area.cycles ==> HasSession(area, failed))
    ensures OverlayIsTrue(RetryScheduled(area, failed), tab)
  {
    hide IndexOf, Aborted, Countdown, DelayAfter, MaxAttempts;
    EndShows(area, failed, tab);
  }

  lemma OverlayStaysTrue(area: Area, event: Event, tab: TabId)
    requires Sound(area) && OverlaysAreTrue(area) && !event.Fire?
    ensures OverlayIsTrue(After(area, event), tab)
  {
    hide InPhase, IndexOf, RetryFired, Ticked, Replaced, Swapped, Aborted, RetryScheduled;
    assert OverlayIsTrue(area, tab) && TabSound(area, event.tab);
    match event {
      case Request(started) => AttemptShows(area, started, 1, tab);
      case LoadEnd(loaded, result) =>
        if LoadsOf(area, loaded) > 0 {
          EndShows(area.(loads := area.loads[loaded := LoadsOf(area, loaded) - 1]), loaded, tab);
        }
      case Ready(ready) => EndShows(area, ready, tab);
      case Failed(failed) =>
        if failed in area.cycles {
          RetryShows(area.(cycles := area.cycles[failed := area.cycles[failed].(candidate := false)]), failed, tab);
        }
      case Now(now) =>
        if now in area.cycles {
          AttemptShows(TimersCanceled(area, now), now, area.cycles[now].attempt + 1, tab);
        }
      case Cancel(ended) => EndShows(area, ended, tab);
    }
  }

  lemma OverlayStaysTrueOnTimers(area: Area, timer: TimerId, tab: TabId)
    requires Sound(area) && OverlaysAreTrue(area)
    ensures OverlayIsTrue(After(area, Fire(timer)), tab)
  {
    hide Counted, MayGoOn, DelayAfter, Countdown, IndexOf, Swapped, Loaded, ProbeFailed, Aborted, RetriedNow;
    assert OverlayIsTrue(area, tab);
    if timer in area.armed {
      assert TabSound(area, timer.tab) && TimerIsKnown(area, timer);
      assert InPhase(area, timer.tab, area.cycles[timer.tab]);
    }
  }

  lemma OverlaysStayTrue(area: Area, event: Event)
    requires Sound(area) && OverlaysAreTrue(area)
    ensures OverlaysAreTrue(After(area, event))
  {
    hide After, Sound, OverlayIsTrue;
    forall tab ensures OverlayIsTrue(After(area, event), tab) {
      if event.Fire? {
        OverlayStaysTrueOnTimers(area, event.timer, tab);
      } else {
        OverlayStaysTrue(area, event, tab);
      }
    }
  }

  /** Now is offered only during a pending backoff, Reconnect only outside a cycle. */
  lemma OfferedIsOrderly(area: Area, event: Event)
    requires Sound(area) && OverlaysAreTrue(area) && Disciplined(area, event)
    ensures Orderly(area, event)
    ensures event.Now? ==>
            event.tab in area.cycles && !area.cycles[event.tab].candidate && LoadsOf(area, event.tab) == 0
  {
    if event.Now? || event.Request? {
      assert OverlayIsTrue(area, event.tab) && TabSound(area, event.tab);
    }
  }

  lemma IdleIsSound(area: Area)
    requires Idle(area)
    ensures Sound(area) && OverlaysAreTrue(area)
  {
  }

  /**
   In every disciplined run each cycle, over or not, counts its attempts 1, 2, 3, … and never makes more than the
   larger of one and its limit; no two timers wait for one tab's retry, and none for a tab without a cycle.
   */
  lemma {:induction false} EveryDisciplinedRunIsSound(start: Area, events: seq<Event>)
    requires Idle(start) && DisciplinedRun(start, events)
    ensures Sound(Run(start, events)) && OverlaysAreTrue(Run(start, events))
  {
    if events == [] {
      IdleIsSound(start);
    } else {
      EveryDisciplinedRunIsSound(start, events[..|events| - 1]);
      var before := Run(start, events[..|events| - 1]);
      OfferedIsOrderly(before, events[|events| - 1]);
      StepsKeepSound(before, events[|events| - 1]);
      OverlaysStayTrue(before, events[|events| - 1]);
    }
  }
}
