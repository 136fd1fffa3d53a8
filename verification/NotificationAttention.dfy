/** What the attention of the notification log says: the warnings and errors that were not seen yet. */
module NotificationAttention {
  import opened NotificationCenter

  /** The log was open when the event of that number came: opened, and not closed since. */
  ghost predicate OpenAt(events: seq<Event>, i: nat)
    requires i <= |events|
  {
    exists k | 0 <= k < i :: events[k].Open? && forall m | k < m < i :: !events[m].Close?
  }

  /** A warning or an error that came while the log was closed, which was not opened since. */
  ghost predicate Unseen(events: seq<Event>, i: nat) {
    && i < |events| && events[i].Notify? && (events[i].severity == Warning || events[i].severity == Error)
    && !OpenAt(events, i) && forall j | i < j < |events| :: !events[j].Open?
  }

  ghost function UnseenOf(events: seq<Event>): set<nat> {
    set i: nat | i < |events| && Unseen(events, i)
  }

  ghost predicate Bounds(events: seq<Event>, worst: Severity) {
    forall i: nat | Unseen(events, i) :: Rank(events[i].severity) <= Rank(worst)
  }

  ghost predicate Reached(events: seq<Event>, worst: Severity) {
    if UnseenOf(events) == {} then worst == Info
    else exists i: nat :: Unseen(events, i) && events[i].severity == worst
  }

  /** The attention counts what was not seen and shows the worst of it. */
  ghost predicate Attentive(events: seq<Event>, log: Log) {
    && (log.open <==> OpenAt(events, |events|))
    && log.attention.unread == |UnseenOf(events)|
    && Bounds(events, log.attention.worst) && Reached(events, log.attention.worst)
  }

  lemma OpenNext(events: seq<Event>)
    requires events != []
    ensures var front, last := events[..|events| - 1], events[|events| - 1];
            && (OpenAt(events, |events|) <==> last.Open? || (OpenAt(front, |front|) && !last.Close?))
            && (forall i: nat | i <= |front| :: OpenAt(events, i) <==> OpenAt(front, i))
  {
    var front, n := events[..|events| - 1], |events| - 1;
    forall i: nat | i <= n ensures OpenAt(events, i) <==> OpenAt(front, i) {
      assert forall k | 0 <= k < i :: events[k] == front[k];
    }
    if events[n].Open? {
      assert OpenAt(events, n + 1);
    } else if OpenAt(front, n) && !events[n].Close? {
      var k :| 0 <= k < n && front[k].Open? && forall m | k < m < n :: !front[m].Close?;
      assert events[k].Open? && forall m | k < m < n + 1 :: !events[m].Close?;
    }
    if OpenAt(events, n + 1) && !events[n].Open? {
      var k :| 0 <= k < n + 1 && events[k].Open? && forall m | k < m < n + 1 :: !events[m].Close?;
      assert front[k].Open? && forall m | k < m < n :: !front[m].Close?;
    }
  }

  lemma UnseenNext(events: seq<Event>)
    requires events != []
    ensures var front, last := events[..|events| - 1], events[|events| - 1];
            && (forall i: nat | i < |front| :: Unseen(events, i) <==> Unseen(front, i) && !last.Open?)
            && (Unseen(events, |front|) <==> last.Notify? && DrawsAttention(last.severity) && !OpenAt(front, |front|))
  {
    hide OpenAt;
    OpenNext(events);
    var front := events[..|events| - 1];
    forall i: nat | i < |front| ensures Unseen(events, i) <==> Unseen(front, i) && !events[|front|].Open? {
      assert events[i] == front[i];
      assert forall j | i < j < |front| :: events[j] == front[j];
    }
  }

  lemma UnseenSetNext(events: seq<Event>)
    requires events != []
    ensures var front, n := events[..|events| - 1], |events| - 1;
            UnseenOf(events) ==
            (if events[n].Open? then {} else UnseenOf(front)) + (if Unseen(events, n) then {n} else {})
  {
    UnseenNext(events);
    hide Unseen;
  }

  lemma AttentionOfNotify(log: Log, event: Event)
    requires event.Notify?
    ensures var after := Next(log, event);
            && after.open == log.open
            && after.attention == if DrawsAttention(event.severity) && !log.open
                                  then Attention(log.attention.unread + 1,
                                                 if Rank(log.attention.worst) < Rank(event.severity) then event.severity
                                                 else log.attention.worst)
                                  else log.attention
  {
    hide Recent, Occurrences, Repeated, FirstFresh, Capped;
  }

  /** The log was opened: nothing is unseen. */
  lemma OpeningIsSeen(events: seq<Event>)
    requires events != [] && events[|events| - 1].Open?
             && Attentive(events[..|events| - 1], After(events[..|events| - 1]))
    ensures Attentive(events, After(events))
  {
    OpenNext(events);
    UnseenNext(events);
    UnseenSetNext(events);
    hide OpenAt, Unseen;
    assert UnseenOf(events) == {};
    forall i: nat ensures !Unseen(events, i) {
      UnseenIsWithin(events, i);
    }
  }

  lemma UnseenIsWithin(events: seq<Event>, i: nat)
    ensures Unseen(events, i) <==> i in UnseenOf(events)
  {
  }

  lemma BoundsMore(events: seq<Event>, before: Severity, after: Severity)
    requires events != [] && Bounds(events[..|events| - 1], before) && Rank(before) <= Rank(after)
    requires Unseen(events, |events| - 1) ==> Rank(events[|events| - 1].severity) <= Rank(after)
    ensures Bounds(events, after)
  {
    UnseenNext(events);
    hide Unseen;
    var front := events[..|events| - 1];
    forall i: nat | Unseen(events, i) ensures Rank(events[i].severity) <= Rank(after) {
      UnseenIsWithin(events, i);
      assert i < |front| ==> Unseen(front, i) && front[i] == events[i];
    }
  }

  lemma ReachedStays(events: seq<Event>, worst: Severity)
    requires events != [] && !events[|events| - 1].Open? && Reached(events[..|events| - 1], worst)
    requires Unseen(events, |events| - 1) ==> worst != Info
    ensures Reached(events, worst)
  {
    var front, n := events[..|events| - 1], |events| - 1;
    UnseenNext(events);
    UnseenSetNext(events);
    hide Unseen;
    if UnseenOf(front) != {} {
      var i: nat :| Unseen(front, i) && front[i].severity == worst;
      UnseenIsWithin(front, i);
      assert Unseen(events, i) && events[i] == front[i];
      UnseenIsWithin(events, i);
    }
  }

  lemma ReachedAnew(events: seq<Event>)
    requires events != [] && Unseen(events, |events| - 1)
    ensures Reached(events, events[|events| - 1].severity)
  {
    UnseenIsWithin(events, |events| - 1);
  }

  lemma OneMoreIsCounted(s: set<nat>, n: nat)
    requires forall i | i in s :: i < n
    ensures |s + {n}| == |s| + 1
  {
    assert n !in s;
  }

  /** A warning or an error came while the log was closed. */
  lemma OneMoreUnseen(events: seq<Event>)
    requires events != [] && Attentive(events[..|events| - 1], After(events[..|events| - 1]))
    requires Unseen(events, |events| - 1)
    ensures Attentive(events, After(events))
  {
    var front, n := events[..|events| - 1], |events| - 1;
    var before, after := After(front).attention.worst, After(events).attention.worst;
    OpenNext(events);
    UnseenNext(events);
    UnseenSetNext(events);
    AttentionOfNotify(After(front), events[n]);
    OneMoreIsCounted(UnseenOf(front), n);
    hide OpenAt, Unseen, Next, Bounds, Reached;
    BoundsMore(events, before, after);
    if Rank(before) < Rank(events[n].severity) {
      ReachedAnew(events);
    } else {
      ReachedStays(events, before);
    }
  }

  /** Nothing was added and the log was not opened. */
  lemma NothingMoreUnseen(events: seq<Event>)
    requires events != [] && Attentive(events[..|events| - 1], After(events[..|events| - 1]))
    requires !events[|events| - 1].Open? && !Unseen(events, |events| - 1)
    ensures Attentive(events, After(events))
  {
    var front, n := events[..|events| - 1], |events| - 1;
    var before, after := After(front), After(events);
    OpenNext(events);
    UnseenNext(events);
    UnseenSetNext(events);
    if events[n].Notify? {
      AttentionOfNotify(before, events[n]);
    }
    hide OpenAt, Unseen, Notified, Bounds, Reached;
    assert after.attention == before.attention;
    assert UnseenOf(events) == UnseenOf(front);
    BoundsMore(events, before.attention.worst, after.attention.worst);
    ReachedStays(events, before.attention.worst);
  }

  /** In every run the unread count and its severity are those of the warnings and errors not seen yet. */
  lemma {:induction false} EveryRunCountsTheUnseen(events: seq<Event>)
    ensures Attentive(events, After(events))
  {
    if events == [] {
      NothingIsUnseen();
    } else {
      EveryRunCountsTheUnseen(events[..|events| - 1]);
      hide Attentive, Unseen;
      if events[|events| - 1].Open? {
        OpeningIsSeen(events);
      } else if Unseen(events, |events| - 1) {
        OneMoreUnseen(events);
      } else {
        NothingMoreUnseen(events);
      }
    }
  }

  lemma NothingIsUnseen()
    ensures Attentive([], Empty)
  {
    assert UnseenOf([]) == {};
  }

  /** In every run the severity shown is Error when an error was not seen, Warning when only warnings were not. */
  lemma WorstIsShown(events: seq<Event>)
    ensures var unseen, worst := UnseenOf(events), After(events).attention.worst;
            && After(events).attention.unread == |unseen|
            && (worst == Error <==> exists i | i in unseen :: events[i].severity == Error)
            && (worst == Warning <==> unseen != {} && forall i | i in unseen :: events[i].severity == Warning)
            && (worst == Info <==> unseen == {})
  {
    EveryRunCountsTheUnseen(events);
    hide After, OpenAt;
    var unseen := UnseenOf(events);
    if unseen != {} {
      var i: nat :| Unseen(events, i) && events[i].severity == After(events).attention.worst;
      assert i in unseen;
    }
    assert forall i | i in unseen :: Unseen(events, i);
  }
}
