/**
 The notification log and its toasts (notification_center.cpp): repeats fold into their entry, bursts toast only
 their first few, and the log keeps the most recent entries. The clock is an input that never runs backwards.
 */
module NotificationCenter {
  import opened Wrappers

  const SUPPRESSION := 8000
  const MAXIMUM_ENTRIES := 200
  const TOASTS_PER_BURST := 4
  const BURST_WINDOW := 3000
  const FOLD_WINDOW := 250

  datatype Severity = Info | Success | Warning | Error

  function Rank(severity: Severity): nat {
    match severity case Info => 0 case Success => 1 case Warning => 2 case Error => 3
  }

  /** The order of severities, one by one. */
  predicate MoreSevere(a: Severity, b: Severity) {
    match b
    case Info => a != Info
    case Success => a == Warning || a == Error
    case Warning => a == Error
    case Error => false
  }

  predicate DrawsAttention(severity: Severity) {
    severity == Warning || severity == Error
  }

  datatype Entry = Entry(id: nat, severity: Severity, message: string, firstSeen: int, lastSeen: int, occurrences: nat)

  /** A toast that was shown. */
  datatype Toast = Toast(entry: nat, severity: Severity, at: int)

  datatype Attention = Attention(unread: nat, worst: Severity)

  /** toasts, lost and sent keep the history: all toasts shown, the occurrences dropped, the notifications sent. */
  datatype Log = Log(
    entries: seq<Entry>, nextId: nat, recentToasts: seq<int>, lastSeverity: Severity,
    attention: Attention, open: bool, focused: Option<nat>,
    toasts: seq<Toast>, lost: nat, sent: nat)

  // ---------- the operations on values ----------

  predicate IsFresh(entry: Entry, severity: Severity, message: string, now: int) {
    entry.severity == severity && entry.message == message && now - entry.lastSeen < SUPPRESSION
  }

  function FirstFresh(entries: seq<Entry>, severity: Severity, message: string, now: int): (n: nat)
    ensures n <= |entries|
    ensures n < |entries| ==> IsFresh(entries[n], severity, message, now)
    ensures forall i | 0 <= i < n :: !IsFresh(entries[i], severity, message, now)
  {
    if entries == [] || IsFresh(entries[0], severity, message, now) then 0
    else 1 + FirstFresh(entries[1..], severity, message, now)
  }

  function Occurrences(entries: seq<Entry>): nat {
    if entries == [] then 0 else entries[0].occurrences + Occurrences(entries[1..])
  }

  /** The entry at n, seen once more, moved to the top. */
  function Repeated(entries: seq<Entry>, n: nat, now: int): seq<Entry>
    requires n < |entries|
  {
    [entries[n].(occurrences := entries[n].occurrences + 1, lastSeen := now)] + entries[..n] + entries[n + 1..]
  }

  function Capped(entries: seq<Entry>): seq<Entry> {
    if |entries| <= MAXIMUM_ENTRIES then entries else entries[..MAXIMUM_ENTRIES]
  }

  function Overflow(entries: seq<Entry>): seq<Entry> {
    if |entries| <= MAXIMUM_ENTRIES then [] else entries[MAXIMUM_ENTRIES..]
  }

  function Recent(toasts: seq<int>, now: int): seq<int> {
    if toasts != [] && now - toasts[0] >= BURST_WINDOW then Recent(toasts[1..], now) else toasts
  }

  predicate Folds(recent: seq<int>, last: Severity, severity: Severity, now: int) {
    recent != [] && now - recent[|recent| - 1] < FOLD_WINDOW && Rank(severity) <= Rank(last)
  }

  predicate Shows(recent: seq<int>, last: Severity, severity: Severity, now: int) {
    !Folds(recent, last, severity, now) && |recent| < TOASTS_PER_BURST
  }

  function Added(log: Log, severity: Severity, message: string, now: int): Log {
    var entries := [Entry(log.nextId, severity, message, now, now, 1)] + log.entries;
    var recent := Recent(log.recentToasts, now);
    var added := log.(
      entries := Capped(entries), nextId := log.nextId + 1, recentToasts := recent,
      lost := log.lost + Occurrences(Overflow(entries)));
    if Shows(recent, log.lastSeverity, severity, now) then
      added.(
        recentToasts := recent + [now], lastSeverity := severity,
        toasts := log.toasts + [Toast(log.nextId, severity, now)])
    else added
  }

  function Attended(log: Log, severity: Severity): Log {
    if DrawsAttention(severity) && !log.open then
      log.(attention := Attention(
        log.attention.unread + 1, if Rank(log.attention.worst) < Rank(severity) then severity else log.attention.worst))
    else log
  }

  predicate IsRepeat(log: Log, severity: Severity, message: string, now: int) {
    FirstFresh(log.entries, severity, message, now) < |log.entries|
  }

  function Notified(log: Log, severity: Severity, message: string, now: int): Log {
    var counted :=
      if IsRepeat(log, severity, message, now) then
        log.(entries := Repeated(log.entries, FirstFresh(log.entries, severity, message, now), now))
      else Added(log, severity, message, now);
    Attended(counted, severity).(sent := log.sent + 1)
  }

  function Opened(log: Log, entry: Option<nat>): Log {
    log.(focused := entry, attention := Attention(0, Info), open := true)
  }

  function Closed(log: Log): Log {
    log.(focused := None, open := false)
  }

  function Cleared(log: Log): Log {
    log.(entries := [], focused := None, lost := log.lost + Occurrences(log.entries))
  }

  datatype Event =
    | Notify(severity: Severity, message: string, now: int)
    | Open(entry: Option<nat>)
    | Close
    | Clear

  function Next(log: Log, event: Event): Log {
    match event
    case Notify(severity, message, now) => Notified(log, severity, message, now)
    case Open(entry) => Opened(log, entry)
    case Close => Closed(log)
    case Clear => Cleared(log)
  }

  const Empty: Log := Log([], 1, [], Info, Attention(0, Info), false, None, [], 0, 0)

  function After(events: seq<Event>): Log {
    if events == [] then Empty else Next(After(events[..|events| - 1]), events[|events| - 1])
  }

  /** The notifications carry times that never decrease. */
  ghost predicate Timed(events: seq<Event>) {
    forall i, j | 0 <= i < j < |events| && events[i].Notify? && events[j].Notify? :: events[i].now <= events[j].now
  }

  // ---------- the log ----------

  predicate SameMessage(a: Entry, b: Entry) {
    a.severity == b.severity && a.message == b.message
  }

  /** The entry further up is another one, was seen last later, and follows the same message at a distance. */
  predicate Succeeds(upper: Entry, lower: Entry) {
    && upper.id != lower.id && upper.lastSeen >= lower.lastSeen
    && (SameMessage(upper, lower) ==> upper.firstSeen - lower.lastSeen >= SUPPRESSION)
  }

  predicate SeenBy(entry: Entry, nextId: nat, now: int) {
    entry.id < nextId && entry.firstSeen <= entry.lastSeen <= now
  }

  /** The log is ordered by last occurrence, ids differ, and the entries of one message keep their distance. */
  ghost predicate Ordered(entries: seq<Entry>, nextId: nat, now: int) {
    && (forall i, j | 0 <= i < j < |entries| :: Succeeds(entries[i], entries[j]))
    && (forall i | 0 <= i < |entries| :: SeenBy(entries[i], nextId, now))
  }

  lemma RepeatKeepsOrder(entries: seq<Entry>, nextId: nat, before: int, severity: Severity, message: string, now: int)
    requires Ordered(entries, nextId, before) && before <= now
    requires FirstFresh(entries, severity, message, now) < |entries|
    ensures Ordered(Repeated(entries, FirstFresh(entries, severity, message, now), now), nextId, now)
  {
    var n := FirstFresh(entries, severity, message, now);
    var repeated := Repeated(entries, n, now);
    forall k | 0 <= k < |entries| && k != n ensures Succeeds(repeated[0], entries[k]) {
      assert SeenBy(entries[k], nextId, before);
      if k < n {
        assert Succeeds(entries[k], entries[n]);
      } else {
        assert Succeeds(entries[n], entries[k]);
      }
    }
    forall i | 0 <= i < |repeated| ensures SeenBy(repeated[i], nextId, now) {
      assert SeenBy(entries[if i == 0 then n else if i <= n then i - 1 else i], nextId, before);
    }
  }

  lemma AddingKeepsOrder(entries: seq<Entry>, nextId: nat, before: int, severity: Severity, message: string, now: int)
    requires Ordered(entries, nextId, before) && before <= now
    requires FirstFresh(entries, severity, message, now) == |entries|
    ensures Ordered(Capped([Entry(nextId, severity, message, now, now, 1)] + entries), nextId + 1, now)
  {
    var entry := Entry(nextId, severity, message, now, now, 1);
    var longer := [entry] + entries;
    forall k | 0 <= k < |entries| ensures Succeeds(entry, entries[k]) && SeenBy(entries[k], nextId + 1, now) {
      assert SeenBy(entries[k], nextId, before) && !IsFresh(entries[k], severity, message, now);
    }
    assert forall i, j | 0 <= i < j < |longer| :: Succeeds(longer[i], longer[j]);
  }

  lemma {:induction false} OccurrencesAddUp(front: seq<Entry>, back: seq<Entry>)
    ensures Occurrences(front + back) == Occurrences(front) + Occurrences(back)
  {
    if front == [] {
      assert front + back == back;
    } else {
      assert (front + back)[1..] == front[1..] + back;
      OccurrencesAddUp(front[1..], back);
    }
  }

  lemma OccurrencesOfOne(entry: Entry, back: seq<Entry>)
    ensures Occurrences([entry] + back) == entry.occurrences + Occurrences(back)
  {
    assert ([entry] + back)[1..] == back;
  }

  lemma RepeatCountsOne(entries: seq<Entry>, n: nat, now: int)
    requires n < |entries|
    ensures Occurrences(Repeated(entries, n, now)) == Occurrences(entries) + 1
  {
    hide Occurrences;
    var top := entries[n].(occurrences := entries[n].occurrences + 1, lastSeen := now);
    var front, back := entries[..n], entries[n + 1..];
    assert Repeated(entries, n, now) == [top] + (front + back);
    OccurrencesOfOne(top, front + back);
    OccurrencesAddUp(front, back);
    assert entries == front + ([entries[n]] + back);
    OccurrencesAddUp(front, [entries[n]] + back);
    OccurrencesOfOne(entries[n], back);
  }

  lemma AddingCountsOne(entries: seq<Entry>, entry: Entry)
    requires entry.occurrences == 1
    ensures var longer := [entry] + entries;
            Occurrences(Capped(longer)) + Occurrences(Overflow(longer)) == Occurrences(entries) + 1
  {
    var longer := [entry] + entries;
    assert longer[1..] == entries;
    assert longer == Capped(longer) + Overflow(longer);
    OccurrencesAddUp(Capped(longer), Overflow(longer));
  }

  /** What every state of the log keeps, given the latest time it knows. */
  ghost predicate LogKept(log: Log, now: int) {
    && |log.entries| <= MAXIMUM_ENTRIES
    && Ordered(log.entries, log.nextId, now)
    && Occurrences(log.entries) + log.lost == log.sent
  }

  lemma NotifyingKeepsLog(log: Log, before: int, severity: Severity, message: string, now: int)
    requires LogKept(log, before) && before <= now
    ensures LogKept(Notified(log, severity, message, now), now)
    ensures var entries := Notified(log, severity, message, now).entries;
            entries != [] && entries[0].severity == severity && entries[0].message == message
            && entries[0].lastSeen == now
  {
    hide Ordered, Occurrences;
    var n := FirstFresh(log.entries, severity, message, now);
    if n < |log.entries| {
      RepeatKeepsOrder(log.entries, log.nextId, before, severity, message, now);
      RepeatCountsOne(log.entries, n, now);
    } else {
      AddingKeepsOrder(log.entries, log.nextId, before, severity, message, now);
      AddingCountsOne(log.entries, Entry(log.nextId, severity, message, now, now, 1));
    }
  }

  lemma LaterStillOrdered(entries: seq<Entry>, nextId: nat, before: int, now: int)
    requires Ordered(entries, nextId, before) && before <= now
    ensures Ordered(entries, nextId, now)
  {
    assert forall i | 0 <= i < |entries| :: SeenBy(entries[i], nextId, before);
  }

  ghost predicate NoneAfter(events: seq<Event>, now: int) {
    forall i | 0 <= i < |events| && events[i].Notify? :: events[i].now <= now
  }

  /**
   In every run the log holds at most 200 entries with distinct ids, ordered by last occurrence; the entries of one
   message cover intervals at least 8000 ms apart; and every notification sent is counted in the log or was lost to
   the cap or a clear.
   */
  lemma {:induction false} EveryRunKeepsTheLog(events: seq<Event>, now: int)
    requires Timed(events) && NoneAfter(events, now)
    ensures LogKept(After(events), now)
  {
    if events != [] {
      var front, event := events[..|events| - 1], events[|events| - 1];
      if event.Notify? {
        EveryRunKeepsTheLog(front, event.now);
        hide Next, Ordered;
        assert After(events) == Next(After(front), event);
        NotifyingKeepsLogs(After(front), event);
        LaterStillOrdered(After(events).entries, After(events).nextId, event.now, now);
      } else {
        EveryRunKeepsTheLog(front, now);
      }
    }
  }

  lemma NotifyingKeepsLogs(log: Log, event: Event)
    requires event.Notify? && LogKept(log, event.now)
    ensures LogKept(Next(log, event), event.now)
  {
    NotifyingKeepsLog(log, event.now, event.severity, event.message, event.now);
  }

  /** The last notification of a run, as long as the log was not cleared since, is at the head. */
  lemma {:induction false} NewestIsAtTheHead(events: seq<Event>, i: nat)
    requires i < |events| && events[i].Notify?
    requires forall j | i < j < |events| :: !events[j].Notify? && !events[j].Clear?
    ensures var entries := After(events).entries;
            && entries != [] && entries[0].severity == events[i].severity && entries[0].message == events[i].message
            && entries[0].lastSeen == events[i].now
  {
    hide Notified;
    var front := events[..|events| - 1];
    if i < |front| {
      NewestIsAtTheHead(front, i);
    } else {
      NotifyingPutsOnTop(After(front), events[i]);
    }
  }

  lemma NotifyingPutsOnTop(log: Log, event: Event)
    requires event.Notify?
    ensures var entries := Next(log, event).entries;
            && entries != [] && entries[0].severity == event.severity && entries[0].message == event.message
            && entries[0].lastSeen == event.now
  {
    hide Recent, Occurrences;
  }

  // ---------- the toasts ----------

  function Times(toasts: seq<Toast>): seq<int> {
    seq(|toasts|, i requires 0 <= i < |toasts| => toasts[i].at)
  }

  /** The remembered toasts are the last ones shown; all others lie a burst window back. */
  ghost predicate Remembers(log: Log, now: int) {
    var times, kept := Times(log.toasts), |log.recentToasts|;
    && kept <= |times| && log.recentToasts == times[|times| - kept..]
    && (forall i | 0 <= i < |times| - kept :: now - times[i] >= BURST_WINDOW)
    && (forall i | 0 <= i < |times| :: times[i] <= now)
    && (forall i, j | 0 <= i < j < |times| :: times[i] <= times[j])
    && (times != [] ==> log.lastSeverity == log.toasts[|times| - 1].severity)
  }

  /** Of any five toasts, the last comes at least a burst window after the first. */
  ghost predicate RateLimited(toasts: seq<Toast>) {
    forall i, j | 0 <= i && i + TOASTS_PER_BURST <= j < |toasts| :: toasts[j].at - toasts[i].at >= BURST_WINDOW
  }

  /** Toasts close together rise in severity. */
  ghost predicate Rises(toasts: seq<Toast>) {
    forall i | 0 <= i && i + 1 < |toasts| && toasts[i + 1].at - toasts[i].at < FOLD_WINDOW ::
      MoreSevere(toasts[i + 1].severity, toasts[i].severity)
  }

  /** The toast rule, from the whole history instead of the remembered window. */
  ghost predicate MayToast(toasts: seq<Toast>, severity: Severity, now: int) {
    var n := |toasts|;
    && (n < TOASTS_PER_BURST || now - toasts[n - TOASTS_PER_BURST].at >= BURST_WINDOW)
    && (n == 0 || now - toasts[n - 1].at >= FOLD_WINDOW || MoreSevere(severity, toasts[n - 1].severity))
  }

  lemma {:induction false} RecentIsASuffix(toasts: seq<int>, now: int)
    requires forall i, j | 0 <= i < j < |toasts| :: toasts[i] <= toasts[j]
    ensures var kept := |Recent(toasts, now)|;
            && kept <= |toasts| && Recent(toasts, now) == toasts[|toasts| - kept..]
            && (forall i | 0 <= i < |toasts| - kept :: now - toasts[i] >= BURST_WINDOW)
            && (forall i | |toasts| - kept <= i < |toasts| :: now - toasts[i] < BURST_WINDOW)
  {
    if toasts != [] && now - toasts[0] >= BURST_WINDOW {
      RecentIsASuffix(toasts[1..], now);
      var kept := |Recent(toasts, now)|;
      forall i | 0 <= i < |toasts| - kept ensures now - toasts[i] >= BURST_WINDOW {
        assert i > 0 ==> toasts[i] == toasts[1..][i - 1];
      }
      forall i | |toasts| - kept <= i < |toasts| ensures now - toasts[i] < BURST_WINDOW {
        assert toasts[i] == toasts[1..][i - 1];
      }
    }
  }

  /** The kept last times are exactly those of the window. */
  ghost predicate Window(times: seq<int>, kept: nat, now: int) {
    && kept <= |times|
    && (forall i | 0 <= i < |times| - kept :: now - times[i] >= BURST_WINDOW)
    && (forall i | |times| - kept <= i < |times| :: now - times[i] < BURST_WINDOW)
  }

  lemma ForgettingNarrowsTheWindow(times: seq<int>, kept: nat, before: int, now: int)
    requires kept <= |times| && before <= now
    requires forall i, j | 0 <= i < j < |times| :: times[i] <= times[j]
    requires forall i | 0 <= i < |times| - kept :: before - times[i] >= BURST_WINDOW
    ensures var recent := Recent(times[|times| - kept..], now);
            Window(times, |recent|, now) && recent == times[|times| - |recent|..]
  {
    hide Recent;
    var offset := |times| - kept;
    var remembered := times[offset..];
    RecentIsASuffix(remembered, now);
    var narrowed := |Recent(remembered, now)|;
    forall i | offset <= i < |times| - narrowed ensures now - times[i] >= BURST_WINDOW {
      assert remembered[i - offset] == times[i];
    }
    forall i | |times| - narrowed <= i < |times| ensures now - times[i] < BURST_WINDOW {
      assert remembered[i - offset] == times[i];
    }
  }

  /** After forgetting what lies a burst window back, exactly the toasts of the window are remembered. */
  lemma ForgettingKeepsMemory(log: Log, before: int, now: int)
    requires Remembers(log, before) && before <= now
    ensures var forgot := log.(recentToasts := Recent(log.recentToasts, now));
            Remembers(forgot, now) && Window(Times(log.toasts), |forgot.recentToasts|, now)
  {
    hide Recent, Times;
    ForgettingNarrowsTheWindow(Times(log.toasts), |log.recentToasts|, before, now);
  }

  /** The remembered window decides like the whole history. */
  lemma WindowDecidesLikeHistory(log: Log, severity: Severity, now: int)
    requires Remembers(log, now) && Window(Times(log.toasts), |log.recentToasts|, now)
    ensures Shows(log.recentToasts, log.lastSeverity, severity, now) <==> MayToast(log.toasts, severity, now)
  {
    var times, n := Times(log.toasts), |log.toasts|;
    if log.recentToasts != [] {
      assert log.recentToasts[|log.recentToasts| - 1] == times[n - 1];
    } else if n > 0 {
      assert now - times[n - 1] >= BURST_WINDOW;
    }
    if n >= TOASTS_PER_BURST {
      assert times[n - TOASTS_PER_BURST] == log.toasts[n - TOASTS_PER_BURST].at;
    }
  }

  lemma ToastingKeepsRules(toasts: seq<Toast>, toast: Toast)
    requires RateLimited(toasts) && Rises(toasts) && MayToast(toasts, toast.severity, toast.at)
    requires forall i, j | 0 <= i < j < |toasts| :: toasts[i].at <= toasts[j].at
    ensures RateLimited(toasts + [toast]) && Rises(toasts + [toast])
  {
    var n := |toasts|;
    forall i | 0 <= i && i + TOASTS_PER_BURST <= n ensures toast.at - toasts[i].at >= BURST_WINDOW {
      assert i < n - TOASTS_PER_BURST ==> toasts[i].at <= toasts[n - TOASTS_PER_BURST].at;
    }
  }

  ghost predicate ToastsKept(log: Log, now: int) {
    Remembers(log, now) && RateLimited(log.toasts) && Rises(log.toasts)
  }

  /** A notification toasts exactly when it is no repeat and the whole history of toasts allows it. */
  lemma NotifyingToasts(log: Log, before: int, severity: Severity, message: string, now: int)
    requires ToastsKept(log, before) && before <= now
    ensures var after := Notified(log, severity, message, now);
            && ToastsKept(after, now)
            && after.toasts ==
               if !IsRepeat(log, severity, message, now) && MayToast(log.toasts, severity, now)
               then log.toasts + [Toast(log.nextId, severity, now)] else log.toasts
  {
    hide RateLimited, Rises, Remembers, MayToast, Added, FirstFresh, Repeated;
    var after := Notified(log, severity, message, now);
    if IsRepeat(log, severity, message, now) {
      LaterStillRemembers(log, before, now);
      OnlyToastsMatter(log, after, now);
    } else {
      AddingToasts(log, before, severity, message, now);
      OnlyToastsMatter(Added(log, severity, message, now), after, now);
    }
  }

  lemma LaterStillRemembers(log: Log, before: int, now: int)
    requires Remembers(log, before) && before <= now
    ensures Remembers(log, now)
  {
  }

  lemma AddingToasts(log: Log, before: int, severity: Severity, message: string, now: int)
    requires ToastsKept(log, before) && before <= now
    ensures var after := Added(log, severity, message, now);
            && ToastsKept(after, now)
            && after.toasts ==
               if MayToast(log.toasts, severity, now) then log.toasts + [Toast(log.nextId, severity, now)]
               else log.toasts
  {
    var recent := Recent(log.recentToasts, now);
    var forgot := log.(recentToasts := recent);
    ForgettingKeepsMemory(log, before, now);
    WindowDecidesLikeHistory(forgot, severity, now);
    var after := Added(log, severity, message, now);
    if Shows(recent, log.lastSeverity, severity, now) {
      var toast := Toast(log.nextId, severity, now);
      TimesInOrder(log, before);
      ToastingKeepsRules(log.toasts, toast);
      OneMoreToast(forgot, toast, now);
      OnlyToastsMatter(forgot.(
        recentToasts := recent + [now], lastSeverity := severity, toasts := log.toasts + [toast]), after, now);
    } else {
      OnlyToastsMatter(forgot, after, now);
    }
  }

  lemma TimesInOrder(log: Log, now: int)
    requires Remembers(log, now)
    ensures forall i, j | 0 <= i < j < |log.toasts| :: log.toasts[i].at <= log.toasts[j].at
  {
    assert forall i | 0 <= i < |log.toasts| :: Times(log.toasts)[i] == log.toasts[i].at;
  }

  lemma OneMoreToast(log: Log, toast: Toast, now: int)
    requires Remembers(log, now) && toast.at == now
    ensures Remembers(log.(
              recentToasts := log.recentToasts + [now], lastSeverity := toast.severity,
              toasts := log.toasts + [toast]), now)
  {
    assert Times(log.toasts + [toast]) == Times(log.toasts) + [now];
  }

  lemma OnlyToastsMatter(log: Log, other: Log, now: int)
    requires Remembers(log, now)
    requires log.toasts == other.toasts && log.recentToasts == other.recentToasts
             && log.lastSeverity == other.lastSeverity
    ensures Remembers(other, now)
  {
  }

  /** In every run any five toasts span a burst window, and toasts close together rise in severity. */
  lemma {:induction false} EveryRunLimitsToasts(events: seq<Event>, now: int)
    requires Timed(events) && NoneAfter(events, now)
    ensures ToastsKept(After(events), now)
  {
    hide Remembers, RateLimited, Rises, Notified, MayToast;
    if events == [] {
      NothingToasted(now);
    } else {
      var front, event := events[..|events| - 1], events[|events| - 1];
      if event.Notify? {
        EveryRunLimitsToasts(front, event.now);
        NotifyingToasts(After(front), event.now, event.severity, event.message, event.now);
        LaterStillRemembers(After(events), event.now, now);
      } else {
        EveryRunLimitsToasts(front, now);
        OnlyToastsMatter(After(front), After(events), now);
      }
    }
  }

  lemma NothingToasted(now: int)
    ensures ToastsKept(Empty, now)
  {
  }

  function FirstSince(toasts: seq<Toast>, start: int): (n: nat)
    ensures n <= |toasts| && (n < |toasts| ==> toasts[n].at >= start)
    ensures forall i | 0 <= i < n :: toasts[i].at < start
  {
    if toasts == [] || toasts[0].at >= start then 0 else 1 + FirstSince(toasts[1..], start)
  }

  /** No window of 3000 ms, wherever it starts, holds more than four toasts. */
  lemma NoWindowHoldsFive(events: seq<Event>, now: int, start: int)
    requires Timed(events) && NoneAfter(events, now)
    ensures var toasts := After(events).toasts;
            |set i | 0 <= i < |toasts| && start <= toasts[i].at < start + BURST_WINDOW| <= TOASTS_PER_BURST
  {
    EveryRunLimitsToasts(events, now);
    hide After, Remembers, RateLimited;
    WindowsHoldFour(After(events).toasts, start);
  }

  lemma WindowsHoldFour(toasts: seq<Toast>, start: int)
    requires RateLimited(toasts)
    ensures |set i | 0 <= i < |toasts| && start <= toasts[i].at < start + BURST_WINDOW| <= TOASTS_PER_BURST
  {
    var inside := set i | 0 <= i < |toasts| && start <= toasts[i].at < start + BURST_WINDOW;
    var first := FirstSince(toasts, start);
    assert inside <= FourFrom(first);
    SubsetsAreSmaller(inside, FourFrom(first));
  }

  function FourFrom(first: nat): (four: set<int>)
    ensures |four| <= TOASTS_PER_BURST
    ensures forall i :: i in four <==> first <= i < first + TOASTS_PER_BURST
  {
    {first, first + 1, first + 2, first + 3}
  }

  lemma FirstFreshIs(entries: seq<Entry>, severity: Severity, message: string, now: int, n: nat)
    requires n <= |entries| && (n < |entries| ==> IsFresh(entries[n], severity, message, now))
    requires forall i | 0 <= i < n :: !IsFresh(entries[i], severity, message, now)
    ensures FirstFresh(entries, severity, message, now) == n
  {
  }

  /** Moving the repeat to the top, which it may hold already. */
  lemma RepeatedInPlace(entries: seq<Entry>, n: nat, now: int)
    requires n < |entries|
    ensures var repeated := entries[n].(occurrences := entries[n].occurrences + 1, lastSeen := now);
            Repeated(entries, n, now)
            == if n == 0 then entries[0 := repeated] else [repeated] + (entries[..n] + entries[n + 1..])
  {
  }

  /** The log as the frontend updates it in place. */
  class Center {
    var entries: seq<Entry>
    var attention: Attention
    var focused: Option<nat>
    var open: bool
    var nextId: nat
    /** The times of the toasts that still count against the burst limit. */
    var recentToasts: seq<int>
    var lastSeverity: Severity
    var toasts: seq<Toast>
    ghost var lost: nat
    ghost var sent: nat

    ghost function State(): Log
      reads this
    {
      Log(entries, nextId, recentToasts, lastSeverity, attention, open, focused, toasts, lost, sent)
    }

    constructor ()
      ensures State() == Empty
    {
      entries, attention, focused, open, nextId := [], Attention(0, Info), None, false, 1;
      recentToasts, lastSeverity, toasts, lost, sent := [], Info, [], 0, 0;
    }

    /** A fresh entry of the same severity and message takes the notification in and becomes the first one. */
    method CountRepeat(severity: Severity, message: string, now: int) returns (counted: bool)
      modifies this`entries
      ensures counted == IsRepeat(old(State()), severity, message, now)
      ensures entries ==
              if counted then Repeated(old(entries), FirstFresh(old(entries), severity, message, now), now)
              else old(entries)
    {
      hide FirstFresh, Repeated;
      var index := 0;
      while index < |entries| && !IsFresh(entries[index], severity, message, now)
        invariant index <= |entries|
        invariant forall i | 0 <= i < index :: !IsFresh(entries[i], severity, message, now)
      {
        index := index + 1;
      }
      FirstFreshIs(entries, severity, message, now, index);
      if index == |entries| {
        return false;
      }
      RepeatedInPlace(entries, index, now);
      var repeated := entries[index].(occurrences := entries[index].occurrences + 1, lastSeen := now);
      if index == 0 {
        entries := entries[0 := repeated];
        return true;
      }
      entries := entries[..index] + entries[index + 1..];
      entries := [repeated] + entries;
      counted := true;
    }

    /** Drops the oldest entries beyond the cap. */
    method CapEntries()
      modifies this`entries, this`lost
      ensures entries == Capped(old(entries)) && lost == old(lost) + Occurrences(Overflow(old(entries)))
    {
      while |entries| > MAXIMUM_ENTRIES
        invariant |entries| <= |old(entries)| && entries == old(entries)[..|entries|] && lost == old(lost)
        invariant |entries| >= MAXIMUM_ENTRIES || entries == old(entries)
      {
        entries := entries[..|entries| - 1];
      }
      lost := lost + Occurrences(Overflow(old(entries)));
    }

    /** Forgets the toasts that lie a burst window back. */
    method ForgetOldToasts(now: int)
      modifies this`recentToasts
      ensures recentToasts == Recent(old(recentToasts), now)
    {
      while recentToasts != [] && now - recentToasts[0] >= BURST_WINDOW
        invariant Recent(recentToasts, now) == Recent(old(recentToasts), now)
        decreases |recentToasts|
      {
        recentToasts := recentToasts[1..];
      }
    }

    method Add(severity: Severity, message: string, now: int)
      modifies this
      ensures State() == Added(old(State()), severity, message, now)
    {
      hide Recent, Capped, Overflow, Occurrences;
      var id := nextId;
      nextId := nextId + 1;
      entries := [Entry(id, severity, message, now, now, 1)] + entries;
      CapEntries();
      ForgetOldToasts(now);
      if recentToasts != [] && now - recentToasts[|recentToasts| - 1] < FOLD_WINDOW
         && Rank(severity) <= Rank(lastSeverity) {
        return;
      }
      if |recentToasts| >= TOASTS_PER_BURST {
        return;
      }
      recentToasts := recentToasts + [now];
      lastSeverity := severity;
      toasts := toasts + [Toast(id, severity, now)];
    }

    method Notify(severity: Severity, message: string, now: int)
      modifies this
      ensures State() == Notified(old(State()), severity, message, now)
    {
      hide FirstFresh, Repeated, Recent, Capped, Overflow, Occurrences;
      var counted := CountRepeat(severity, message, now);
      if !counted {
        Add(severity, message, now);
      }
      if DrawsAttention(severity) && !open {
        var worst := if Rank(attention.worst) < Rank(severity) then severity else attention.worst;
        attention := Attention(attention.unread + 1, worst);
      }
      sent := sent + 1;
    }

    method OpenLog(entry: Option<nat>)
      modifies this
      ensures State() == Opened(old(State()), entry)
    {
      focused, attention, open := entry, Attention(0, Info), true;
    }

    method CloseLog()
      modifies this
      ensures State() == Closed(old(State()))
    {
      focused, open := None, false;
    }

    method ClearLog()
      modifies this
      ensures State() == Cleared(old(State()))
    {
      lost := lost + Occurrences(entries);
      entries, focused := [], None;
    }
  }
}
