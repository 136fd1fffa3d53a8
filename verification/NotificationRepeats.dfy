/**
 Which notifications are repeats: what the log holds comes from the notifications sent, one of the same severity and
 message within 8000 ms is counted into its entry, and any other gets an entry of its own.
 */
module NotificationRepeats {
  import opened Wrappers
  import opened NotificationCenter

  predicate Says(entry: Entry, severity: Severity, message: string) {
    entry.severity == severity && entry.message == message
  }

  predicate SaysAgain(event: Event, severity: Severity, message: string) {
    event.Notify? && event.severity == severity && event.message == message
  }

  // ---------- one notification ----------

  /** The notification has a new entry at the head, and at most the last of the others fell off. */
  ghost predicate HasANewEntry(log: Log, after: Log, severity: Severity, message: string, now: int) {
    var n := |log.entries|;
    && |after.entries| == (if n < 200 then n + 1 else 200)
    && after.entries[0].id == log.nextId && Says(after.entries[0], severity, message)
    && after.entries[0].firstSeen == after.entries[0].lastSeen == now && after.entries[0].occurrences == 1
    && (forall i | 0 < i < |after.entries| :: after.entries[i] == log.entries[i - 1])
    && after.nextId == log.nextId + 1
    && after.lost == log.lost + if n < 200 then 0 else log.entries[n - 1].occurrences
  }

  /** The notification was counted into the entry at n, which is at the head now, and nothing else changed. */
  ghost predicate IsCountedInto(log: Log, after: Log, n: nat, now: int) {
    && n < |log.entries| == |after.entries|
    && after.entries[0].id == log.entries[n].id && after.entries[0].firstSeen == log.entries[n].firstSeen
    && Says(after.entries[0], log.entries[n].severity, log.entries[n].message)
    && after.entries[0].lastSeen == now && after.entries[0].occurrences == log.entries[n].occurrences + 1
    && (forall i | 0 < i < |after.entries| :: after.entries[i] == log.entries[if i <= n then i - 1 else i])
    && after.nextId == log.nextId && after.toasts == log.toasts && after.lost == log.lost
  }

  lemma OneFallsOff(entries: seq<Entry>)
    requires |entries| == MAXIMUM_ENTRIES + 1
    ensures Occurrences(Overflow(entries)) == entries[MAXIMUM_ENTRIES].occurrences
  {
    assert Overflow(entries) == [entries[MAXIMUM_ENTRIES]];
    assert Overflow(entries)[1..] == [];
  }

  /** Nothing of the same severity and message was last seen within 8000 ms: a new entry, and a toast if one may. */
  lemma OtherMessagesAreAdded(log: Log, before: int, severity: Severity, message: string, now: int)
    requires |log.entries| <= 200 && ToastsKept(log, before) && before <= now
    requires forall i | 0 <= i < |log.entries| && Says(log.entries[i], severity, message) ::
               now - log.entries[i].lastSeen >= 8000
    ensures var after := Notified(log, severity, message, now);
            && HasANewEntry(log, after, severity, message, now)
            && after.toasts == log.toasts + if MayToast(log.toasts, severity, now)
                                            then [Toast(log.nextId, severity, now)] else []
  {
    hide ToastsKept, MayToast, Notified, HasANewEntry;
    assert !IsRepeat(log, severity, message, now);
    NotifyingToasts(log, before, severity, message, now);
    NewEntriesAreAdded(log, severity, message, now);
  }

  lemma NewEntriesAreAdded(log: Log, severity: Severity, message: string, now: int)
    requires |log.entries| <= 200 && !IsRepeat(log, severity, message, now)
    ensures HasANewEntry(log, Notified(log, severity, message, now), severity, message, now)
  {
    hide Recent, Shows, Occurrences, FirstFresh;
    var longer := [Entry(log.nextId, severity, message, now, now, 1)] + log.entries;
    if |log.entries| == MAXIMUM_ENTRIES {
      OneFallsOff(longer);
    } else {
      NothingFallsOff(longer);
    }
  }

  lemma NothingFallsOff(entries: seq<Entry>)
    requires |entries| <= MAXIMUM_ENTRIES
    ensures Occurrences(Overflow(entries)) == 0
  {
  }

  /** An entry of the same severity and message was last seen within 8000 ms: it alone is counted up,
    without a toast. */
  lemma RepeatsAreCounted(log: Log, before: int, severity: Severity, message: string, now: int, n: nat)
    requires LogKept(log, before) && before <= now && n < |log.entries|
    requires Says(log.entries[n], severity, message) && now - log.entries[n].lastSeen < 8000
    ensures IsCountedInto(log, Notified(log, severity, message, now), n, now)
  {
    var first := FirstFresh(log.entries, severity, message, now);
    assert IsFresh(log.entries[n], severity, message, now);
    assert SeenBy(log.entries[first], log.nextId, before);
    assert first < n ==> Succeeds(log.entries[first], log.entries[n]);
  }

  // ---------- runs ----------

  /** The notifications of that index on said the same at that time, and the log was not cleared since. */
  ghost predicate SaidAt(events: seq<Event>, severity: Severity, message: string, at: int, i: nat) {
    && i < |events| && SaysAgain(events[i], severity, message) && events[i].now == at
    && forall j | i < j < |events| :: !events[j].Clear?
  }

  /** An entry was first and last seen at notifications sent since the log was last cleared. */
  ghost predicate WasSent(events: seq<Event>, entry: Entry) {
    && (exists i: nat :: SaidAt(events, entry.severity, entry.message, entry.firstSeen, i))
    && (exists i: nat :: SaidAt(events, entry.severity, entry.message, entry.lastSeen, i))
  }

  lemma StillSaid(events: seq<Event>, last: Event, severity: Severity, message: string, at: int, i: nat)
    requires SaidAt(events, severity, message, at, i) && !last.Clear?
    ensures SaidAt(events + [last], severity, message, at, i)
  {
    var longer := events + [last];
    assert longer[i] == events[i];
    forall j | i < j < |longer| ensures !longer[j].Clear? {
      assert j < |events| ==> longer[j] == events[j];
    }
  }

  lemma StillSent(events: seq<Event>, last: Event, entry: Entry)
    requires WasSent(events, entry) && !last.Clear?
    ensures WasSent(events + [last], entry)
  {
    var i: nat :| SaidAt(events, entry.severity, entry.message, entry.firstSeen, i);
    var j: nat :| SaidAt(events, entry.severity, entry.message, entry.lastSeen, j);
    StillSaid(events, last, entry.severity, entry.message, entry.firstSeen, i);
    StillSaid(events, last, entry.severity, entry.message, entry.lastSeen, j);
  }

  /** In every run all entries come from what was sent since the log was last cleared. */
  lemma {:induction false} EntriesWereSent(events: seq<Event>, n: nat)
    requires n < |After(events).entries|
    ensures WasSent(events, After(events).entries[n])
  {
    var front, last := events[..|events| - 1], events[|events| - 1];
    assert front + [last] == events;
    var log := After(front);
    if last.Notify? {
      assert SaidAt(events, last.severity, last.message, last.now, |front|);
      var m := NotifiedEntriesCome(log, last, n);
      if m < |log.entries| {
        EntriesWereSent(front, m);
        StillSent(front, last, log.entries[m]);
      }
    } else {
      hide WasSent;
      EntriesWereSent(front, n);
      StillSent(front, last, log.entries[n]);
    }
  }

  /** Where an entry was before a notification: it is the one counted up, another one as it was, or a new one. */
  lemma NotifiedEntriesCome(log: Log, event: Event, n: nat) returns (m: nat)
    requires event.Notify? && n < |Next(log, event).entries|
    ensures var entry := Next(log, event).entries[n];
            if m < |log.entries| then
              || entry == log.entries[m]
              || (&& Says(entry, event.severity, event.message) && Says(log.entries[m], event.severity, event.message)
                  && entry.firstSeen == log.entries[m].firstSeen && entry.lastSeen == event.now)
            else Says(entry, event.severity, event.message) && entry.firstSeen == entry.lastSeen == event.now
  {
    hide Recent, Occurrences;
    var first := FirstFresh(log.entries, event.severity, event.message, event.now);
    if first < |log.entries| {
      m := if n == 0 then first else if n <= first then n - 1 else n;
    } else {
      m := if n == 0 then |log.entries| else n - 1;
    }
  }

  /** What was notified is in the log while it is not cleared and fewer than 200 events follow. */
  lemma {:induction false} RecentMessagesAreHeld(events: seq<Event>, i: nat) returns (n: nat)
    requires Timed(events) && i < |events| && events[i].Notify? && |events| - 1 - i < MAXIMUM_ENTRIES
    requires forall j | i < j < |events| :: !events[j].Clear?
    ensures n < |After(events).entries| && n <= |events| - 1 - i
    ensures Says(After(events).entries[n], events[i].severity, events[i].message)
    ensures After(events).entries[n].lastSeen >= events[i].now
  {
    var front, last := events[..|events| - 1], events[|events| - 1];
    if i == |front| {
      NewestIsAtTheHead(events, i);
      n := 0;
    } else {
      var m := RecentMessagesAreHeld(front, i);
      if last.Notify? {
        n := EntriesMoveDownByOne(After(front), last, m, events[i].now);
      } else {
        n := m;
      }
    }
  }

  lemma EntriesMoveDownByOne(log: Log, event: Event, m: nat, since: int) returns (n: nat)
    requires event.Notify? && m < |log.entries| && m + 1 < MAXIMUM_ENTRIES
    requires since <= log.entries[m].lastSeen && since <= event.now
    ensures n < |Next(log, event).entries| && n <= m + 1
    ensures Says(Next(log, event).entries[n], log.entries[m].severity, log.entries[m].message)
    ensures Next(log, event).entries[n].lastSeen >= since
  {
    hide Recent, Shows, Occurrences, FirstFresh, Repeated, Capped;
    var first := FirstFresh(log.entries, event.severity, event.message, event.now);
    n := if first == m then 0 else if first < m then m else m + 1;
    if first < |log.entries| {
      RepeatedAt(log.entries, first, event.now, m);
    } else {
      CappedAt([Entry(log.nextId, event.severity, event.message, event.now, event.now, 1)] + log.entries, m + 1);
    }
  }

  lemma RepeatedAt(entries: seq<Entry>, first: nat, now: int, m: nat)
    requires first < |entries| && m < |entries|
    ensures var repeated := Repeated(entries, first, now);
            && |repeated| == |entries|
            && if first == m then
                 Says(repeated[0], entries[m].severity, entries[m].message) && repeated[0].lastSeen == now
               else repeated[if first < m then m else m + 1] == entries[m]
  {
  }

  lemma CappedAt(entries: seq<Entry>, n: nat)
    requires n < |entries| && n < MAXIMUM_ENTRIES
    ensures n < |Capped(entries)| && Capped(entries)[n] == entries[n]
  {
  }

  /**
   In every run, from the events alone. When nothing of the same severity and message was sent within the last 8000 ms,
   a notification gets a new entry, and toasts exactly when the toasts before allow it. When it was sent within them,
   the log was not cleared since, and fewer than 200 events followed, the notification is counted into its entry and
   does not toast.
   */
  lemma NotificationsRepeatWithinTheWindow(events: seq<Event>, last: Event)
    requires last.Notify? && Timed(events + [last])
    ensures var log, after := After(events), After(events + [last]);
            var recent := set i | 0 <= i < |events| && SaysAgain(events[i], last.severity, last.message)
                                  && last.now - events[i].now < 8000;
            && (recent == {} ==>
                  && HasANewEntry(log, after, last.severity, last.message, last.now)
                  && after.toasts == log.toasts + if MayToast(log.toasts, last.severity, last.now)
                                                  then [Toast(log.nextId, last.severity, last.now)] else [])
            && ((exists i | i in recent ::
                   |events| - i <= MAXIMUM_ENTRIES && forall j | i < j < |events| :: !events[j].Clear?) ==>
                  exists n: nat :: n < |log.entries| && IsCountedInto(log, after, n, last.now)
                                   && Says(log.entries[n], last.severity, last.message))
  {
    var log, after := After(events), After(events + [last]);
    var now := last.now;
    assert (events + [last])[..|events|] == events;
    TimedBefore(events, last);
    EveryRunKeepsTheLog(events, now);
    EveryRunLimitsToasts(events, now);
    var recent := set i | 0 <= i < |events| && SaysAgain(events[i], last.severity, last.message)
                          && now - events[i].now < 8000;
    hide LogKept, ToastsKept, Notified, HasANewEntry, IsCountedInto, MayToast, WasSent;
    assert after == Notified(log, last.severity, last.message, now);
    if recent == {} {
      forall n | 0 <= n < |log.entries| && Says(log.entries[n], last.severity, last.message)
        ensures now - log.entries[n].lastSeen >= 8000
      {
        LastSeenWasSent(events, n, recent, now);
      }
      KeptIsCapped(log, now);
      OtherMessagesAreAdded(log, now, last.severity, last.message, now);
    }
    if i :| i in recent && |events| - i <= MAXIMUM_ENTRIES && forall j | i < j < |events| :: !events[j].Clear? {
      var n := RecentMessagesAreHeld(events, i);
      RepeatsAreCounted(log, now, last.severity, last.message, now, n);
    }
  }

  lemma TimedBefore(events: seq<Event>, last: Event)
    requires last.Notify? && Timed(events + [last])
    ensures Timed(events) && NoneAfter(events, last.now)
  {
    var longer := events + [last];
    assert forall i | 0 <= i < |events| :: longer[i] == events[i];
    assert longer[|events|] == last;
  }

  lemma KeptIsCapped(log: Log, now: int)
    requires LogKept(log, now)
    ensures |log.entries| <= MAXIMUM_ENTRIES
  {
  }

  lemma LastSeenWasSent(events: seq<Event>, n: nat, recent: set<int>, now: int)
    requires n < |After(events).entries|
    requires var entry := After(events).entries[n];
             forall i | 0 <= i < |events| && SaysAgain(events[i], entry.severity, entry.message)
                        && now - events[i].now < 8000 :: i in recent
    requires recent == {}
    ensures now - After(events).entries[n].lastSeen >= 8000
  {
    EntriesWereSent(events, n);
    var entry := After(events).entries[n];
    hide After;
    var i: nat :| SaidAt(events, entry.severity, entry.message, entry.lastSeen, i);
  }

  /** A log that was just cleared is empty. */
  lemma ClearedLogsAreEmpty(events: seq<Event>)
    requires events != [] && events[|events| - 1].Clear?
    ensures After(events).entries == []
  {
    if After(events).entries != [] {
      EntriesWereSent(events, 0);
      hide After;
    }
  }

  /** The log was last opened with that entry, and neither closed nor cleared since. */
  ghost predicate OpenedWith(events: seq<Event>, entry: nat) {
    exists i | 0 <= i < |events| ::
      events[i] == Open(Some(entry)) && forall j | i < j < |events| :: events[j].Notify?
  }

  lemma OpenedWithGoesOn(events: seq<Event>, last: Event, entry: nat)
    ensures OpenedWith(events + [last], entry) <==>
            last == Open(Some(entry)) || (last.Notify? && OpenedWith(events, entry))
  {
    var longer := events + [last];
    assert longer[|events|] == last;
    if last.Notify? && OpenedWith(events, entry) {
      var i :| 0 <= i < |events| && events[i] == Open(Some(entry)) && forall j | i < j < |events| :: events[j].Notify?;
      assert longer[i] == events[i];
    }
    if OpenedWith(longer, entry) && last != Open(Some(entry)) {
      var i :| 0 <= i < |longer| && longer[i] == Open(Some(entry)) && forall j | i < j < |longer| :: longer[j].Notify?;
      assert events[i] == longer[i] && forall j | i < j < |events| :: events[j] == longer[j];
    }
  }

  /** The entry in focus is the one the log was last opened with, unless it was closed or cleared since. */
  lemma {:induction false} FocusIsWhatWasOpened(events: seq<Event>, entry: nat)
    ensures After(events).focused == Some(entry) <==> OpenedWith(events, entry)
  {
    hide Notified;
    if events != [] {
      var front, last := events[..|events| - 1], events[|events| - 1];
      assert front + [last] == events;
      FocusIsWhatWasOpened(front, entry);
      OpenedWithGoesOn(front, last, entry);
      hide OpenedWith;
      if last.Notify? {
        NotifyingKeepsTheFocus(After(front), last);
      }
    }
  }

  lemma NotifyingKeepsTheFocus(log: Log, event: Event)
    requires event.Notify?
    ensures Next(log, event).focused == log.focused
  {
  }
}
