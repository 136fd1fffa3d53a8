/**
 Executions in one second. Rows of one last run are trimmed in the order in which they came, so a command that is run
 again in the second of a row that came after its own stays in front of that one: the history is no longer, or will not
 stay, the most recently run commands.
 */
module CommandTies {
  import opened Wrappers
  import opened CommandHistory
  import opened CommandRecency

  /** The history holds exactly the cap most recently run commands. */
  ghost predicate Lawful(cap: nat, trace: seq<Execution>) {
    forall pair :: Has(History(cap, trace), pair) <==> IsRecent(trace, cap, pair)
  }

  /** Each of these commands is run for the first time. */
  ghost predicate OnlyNew(trace: seq<Execution>, more: seq<Execution>) {
    forall n | 0 <= n < |more| :: more[n].pair !in PairsIn(trace + more[..n])
  }

  /** The law holds, and goes on to hold while commands are run that never were before. */
  ghost predicate StaysLawful(cap: nat, trace: seq<Execution>) {
    forall more | Timed(trace + more) && OnlyNew(trace, more) :: Lawful(cap, trace + more)
  }

  ghost predicate LawfulThroughout(cap: nat, trace: seq<Execution>) {
    StaysLawful(cap, trace) && (trace != [] ==> LawfulThroughout(cap, trace[..|trace| - 1]))
  }

  lemma {:induction false} HeldWereRun(cap: nat, trace: seq<Execution>, pair: Pair)
    requires Has(History(cap, trace), pair)
    ensures pair in PairsIn(trace)
  {
    var n := |trace| - 1;
    var front, last := trace[..n], trace[n];
    assert front + [last] == trace;
    var upserted := Upserted(History(cap, front), last.pair, last.at);
    var id :| id in History(cap, trace) && PairOf(History(cap, trace)[id]) == pair;
    TrimmedRowsStay(upserted, cap, id);
    UpsertAddsOneCommand(History(cap, front), last.pair, last.at);
    OneMorePair(front, last);
    if pair != last.pair {
      HeldWereRun(cap, front, pair);
    }
  }

  /** New commands never tie. */
  lemma {:induction false} NewCommandsStayUntied(cap: nat, trace: seq<Execution>, more: seq<Execution>)
    requires Timed(trace + more) && OnlyNew(trace, more) && Untied(cap, trace)
    ensures Untied(cap, trace + more)
  {
    if more == [] {
      assert trace + more == trace;
    } else {
      var n := |more| - 1;
      var front, last := more[..n], more[n];
      assert trace + more == trace + front + [last];
      assert OnlyNew(trace, front) by {
        assert forall k | 0 <= k < n :: front[..k] == more[..k] && front[k] == more[k];
      }
      UntiedUpToTheLast(cap, trace + front, last);
      NewCommandsStayUntied(cap, trace, front);
      if Has(History(cap, trace + front), last.pair) {
        HeldWereRun(cap, trace + front, last.pair);
        assert false;
      }
    }
  }

  lemma UntiedStaysLawful(cap: nat, trace: seq<Execution>)
    requires Timed(trace) && Untied(cap, trace)
    ensures StaysLawful(cap, trace)
  {
    hide Timed, Untied, OnlyNew, IsRecent;
    forall more | Timed(trace + more) && OnlyNew(trace, more) ensures Lawful(cap, trace + more) {
      NewCommandsStayUntied(cap, trace, more);
      HistoryIsTheMostRecent(cap, trace + more);
    }
  }

  /** A text longer than every command of a trace. */
  function LongerThanAll(trace: seq<Execution>): (text: string)
    ensures forall i | 0 <= i < |trace| :: |trace[i].pair.1| < |text|
  {
    if trace == [] then "x"
    else
      var before := LongerThanAll(trace[..|trace| - 1]);
      var command := trace[|trace| - 1].pair.1;
      if |command| < |before| then before else command + "x"
  }

  /** Row a will be trimmed before row b. */
  ghost predicate GoesFirst(rows: Rows, cap: nat, now: int, a: int, b: int) {
    && |rows| <= cap && a in rows && b in rows && Older(rows[a], rows[b])
    && forall id | id in rows :: !rows[id].pinned && rows[id].lastRun <= now
  }

  ghost predicate RunsBefore(trace: seq<Execution>, early: Pair, late: Pair) {
    early in PairsIn(trace) && late in PairsIn(trace) && LastRun(trace, early) < LastRun(trace, late)
  }

  /** Row a will be trimmed before row b, whose command was last run before that of a. */
  ghost predicate OutOfOrder(cap: nat, trace: seq<Execution>, a: int, b: int) {
    var rows := History(cap, trace);
    && trace != [] && GoesFirst(rows, cap, trace[|trace| - 1].at, a, b)
    && RunsBefore(trace, PairOf(rows[b]), PairOf(rows[a]))
  }

  /** How many rows come before row a in the trim. */
  ghost function Before(rows: Rows, a: int): nat
    requires a in rows
  {
    |OlderOf(rows, rows.Keys, a)|
  }

  /** A tie leaves the command just run in front of one run before it. */
  lemma TiesLeaveDisorder(cap: nat, trace: seq<Execution>, last: Execution) returns (a: int, b: int)
    requires Mirrors(History(cap, trace), cap, trace) && Timed(trace + [last])
    requires Ties(History(cap, trace), last.pair, last.at)
    ensures OutOfOrder(cap, trace + [last], a, b)
  {
    var rows := History(cap, trace);
    a, b :| a in rows && b in rows && PairOf(rows[a]) == last.pair && a < b && rows[b].lastRun == last.at;
    HistoryGoesOn(cap, trace, last);
    RerunGoesFirst(rows, cap, trace, last, a, b);
    MirroredPairsWereRun(rows, cap, trace, b);
    RunningOneMore(trace, last, last.pair);
    RunningOneMore(trace, last, PairOf(rows[b]));
    hide LastRun, Since, PairsIn, Timed, Recorded, Mirrors, Ties, History, GoesFirst;
  }

  lemma RerunGoesFirst(rows: Rows, cap: nat, trace: seq<Execution>, last: Execution, a: int, b: int)
    requires Mirrors(rows, cap, trace) && Timed(trace + [last])
    requires a in rows && b in rows && PairOf(rows[a]) == last.pair && a < b && rows[b].lastRun == last.at
    ensures var recorded := Recorded(rows, cap, last.pair, last.at);
            && GoesFirst(recorded, cap, last.at, a, b) && |recorded| == |rows|
            && PairOf(recorded[a]) == last.pair && recorded[b] == rows[b] && PairOf(rows[b]) != last.pair
  {
    hide Timed, Recorded, Mirrors, Keyed, Has, IsRecent, LastRun, Since, PairsIn, InOrder;
    RerunIsAnUpdate(rows, cap, trace, last, a);
    forall id | id in rows ensures !rows[id].pinned && rows[id].lastRun <= last.at && rows[id].id == id {
      HeldRowsAreNoLater(rows, cap, trace, last, id);
      MirroredPairsWereRun(rows, cap, trace, id);
    }
    assert PairOf(rows[b]) != last.pair;
  }

  /** Running a command again changes its row and nothing else. */
  lemma RerunIsAnUpdate(rows: Rows, cap: nat, trace: seq<Execution>, last: Execution, own: int)
    requires Mirrors(rows, cap, trace) && own in rows && PairOf(rows[own]) == last.pair
    ensures |rows| <= cap && Keyed(rows) && (forall id | id in rows :: PairOf(rows[id]) == last.pair ==> id == own)
    ensures var recorded := Recorded(rows, cap, last.pair, last.at);
            && recorded == rows[own := rows[own].(runs := rows[own].runs + 1, lastRun := last.at)]
            && |recorded| == |rows|
  {
    hide LastRun, Since, IsRecent, InOrder;
    var upserted := Upserted(rows, last.pair, last.at);
    UpsertAddsOneCommand(rows, last.pair, last.at);
    RoomTrimsNothing(upserted, cap);
  }

  /** Of any two rows one is older; the oldest of a table that is one row too big goes. */
  lemma OneRowGoes(rows: Rows, cap: nat) returns (oldest: int)
    requires KeyedByIds(rows) && |rows| == cap + 1 && forall id | id in rows :: !rows[id].pinned
    ensures oldest in rows && Trimmed(rows, cap) == rows - {oldest}
    ensures forall id | id in rows && id != oldest :: Older(rows[oldest], rows[id])
  {
    oldest := Oldest(rows, rows.Keys);
    OneOldestIsTrimmed(rows, cap, oldest);
  }

  lemma {:induction false} Oldest(rows: Rows, among: set<int>) returns (oldest: int)
    requires KeyedByIds(rows) && among <= rows.Keys && among != {}
    ensures oldest in among && forall id | id in among && id != oldest :: Older(rows[oldest], rows[id])
  {
    oldest := AnyOf(among);
    var rest := among - {oldest};
    assert forall id | id in among :: id == oldest || id in rest;
    if rest != {} {
      var other := Oldest(rows, rest);
      if Older(rows[other], rows[oldest]) {
        oldest := other;
      }
    }
  }

  /** A new row takes the place of one that goes before a, or of a itself, or of none. */
  lemma NewRowsGoLast(rows: Rows, cap: nat, now: int, a: int, b: int, pair: Pair)
    requires Keyed(rows) && GoesFirst(rows, cap, now, a, b) && !Has(rows, pair)
    ensures var recorded := Recorded(rows, cap, pair, now);
            && b in recorded && recorded[b] == rows[b]
            && if a in recorded then
                 && recorded[a] == rows[a] && GoesFirst(recorded, cap, now, a, b) && |rows| <= |recorded|
                 && (|rows| == |recorded| ==> Before(recorded, a) < Before(rows, a))
               else !Has(recorded, PairOf(rows[a]))
  {
    var entry, upserted := Executed(rows, pair, now), Upserted(rows, pair, now);
    UpsertAddsOneCommand(rows, pair, now);
    UpsertedIsAnUpdate(rows, pair, now);
    NewRowsHaveTheGreatestIds(rows, pair, now);
    hide Executed, Upserted;
    forall id | id in rows ensures Older(rows[id], entry) {
      assert id < entry.id;
    }
    NewRowIsUnpinned(rows, pair, now);
    if |rows| < cap {
      RoomTrimsNothing(upserted, cap);
    } else {
      var oldest := OneRowGoes(upserted, cap);
      OneForOne(rows, cap, now, a, b, entry, oldest);
    }
  }

  lemma NewRowIsUnpinned(rows: Rows, pair: Pair, now: int)
    requires Keyed(rows) && !Has(rows, pair)
    ensures !Executed(rows, pair, now).pinned && PairOf(Executed(rows, pair, now)) == pair
  {
  }

  lemma OneForOne(rows: Rows, cap: nat, now: int, a: int, b: int, entry: HistoryEntry, oldest: int)
    requires Keyed(rows) && GoesFirst(rows, cap, now, a, b) && |rows| == cap && entry.id !in rows
    requires !Has(rows, PairOf(entry)) && !entry.pinned && entry.lastRun == now
    requires forall id | id in rows :: Older(rows[id], entry)
    requires var more := rows[entry.id := entry];
             oldest in more && forall id | id in more && id != oldest :: Older(more[oldest], more[id])
    ensures var left := rows[entry.id := entry] - {oldest};
            && b in left && left[b] == rows[b] && |left| == cap
            && if a in left then
                 left[a] == rows[a] && GoesFirst(left, cap, now, a, b) && Before(left, a) < Before(rows, a)
               else !Has(left, PairOf(rows[a]))
  {
    var more := rows[entry.id := entry];
    var left := more - {oldest};
    assert more[a] == rows[a] && more[b] == rows[b];
    assert oldest != entry.id && oldest != b;
    assert left.Keys == rows.Keys + {entry.id} - {oldest} && |left| == |left.Keys| && |rows| == |rows.Keys|;
    if a != oldest {
      FewerBefore(rows, left, a, oldest, entry.id);
    }
  }

  lemma FewerBefore(rows: Rows, left: Rows, a: int, gone: int, come: int)
    requires a in rows && a in left && left[a] == rows[a] && gone in rows && Older(rows[gone], rows[a])
    requires left.Keys == rows.Keys + {come} - {gone} && come in left && !Older(left[come], left[a])
    requires forall id | id in left && id != come :: id in rows && left[id] == rows[id]
    ensures Before(left, a) < Before(rows, a)
  {
    var after, before := OlderOf(left, left.Keys, a), OlderOf(rows, rows.Keys, a);
    forall id | id in after ensures id in before && id != gone {
      assert id in left && Older(left[id], left[a]);
      assert id != come;
    }
    assert gone in before;
    SubsetsAreSmaller(after + {gone}, before);
  }

  /** A new command brings no order where there was none, and the table gets fuller or fewer rows go before a. */
  lemma NewCommandsKeepDisorder(cap: nat, trace: seq<Execution>, a: int, b: int, last: Execution)
    requires OutOfOrder(cap, trace, a, b)
    requires last.pair !in PairsIn(trace) && last.at == trace[|trace| - 1].at
    ensures Lawful(cap, trace + [last]) ==>
              && OutOfOrder(cap, trace + [last], a, b)
              && |History(cap, trace)| <= |History(cap, trace + [last])| <= cap
              && (|History(cap, trace)| == |History(cap, trace + [last])| ==>
                    Before(History(cap, trace + [last]), a) < Before(History(cap, trace), a))
  {
    var rows, longer := History(cap, trace), trace + [last];
    if Has(rows, last.pair) {
      HeldWereRun(cap, trace, last.pair);
      assert false;
    }
    HistoryGoesOn(cap, trace, last);
    RunningOneMore(trace, last, PairOf(rows[a]));
    RunningOneMore(trace, last, PairOf(rows[b]));
    NewRowsGoLast(rows, cap, last.at, a, b, last.pair);
    hide LastRun, Since, PairsIn, History, Recorded, Lawful, GoesFirst;
    if a !in History(cap, longer) {
      TrimmedTooEarly(cap, longer, PairOf(rows[a]), PairOf(rows[b]));
    }
  }

  /** The law does not hold of a history with a command but without one run after it. */
  lemma TrimmedTooEarly(cap: nat, trace: seq<Execution>, late: Pair, early: Pair)
    requires late in PairsIn(trace) && early in PairsIn(trace) && LastRun(trace, early) < LastRun(trace, late)
    requires Has(History(cap, trace), early) && !Has(History(cap, trace), late)
    ensures !Lawful(cap, trace)
  {
    hide LastRun, Since, History;
    EarlierHasMoreSince(trace, early, late);
  }

  /** New commands run after a disorder break the law. */
  lemma {:induction false} DisorderBreaksTheLaw(cap: nat, trace: seq<Execution>, a: int, b: int)
    returns (more: seq<Execution>)
    requires Timed(trace) && OutOfOrder(cap, trace, a, b)
    ensures Timed(trace + more) && OnlyNew(trace, more) && !Lawful(cap, trace + more)
    decreases cap - |History(cap, trace)|, Before(History(cap, trace), a)
  {
    hide History, Lawful, OutOfOrder, Timed, OnlyNew, PairsIn, Before;
    StillGoesFirst(cap, trace, a, b);
    var last := ANewCommand(trace);
    var longer := trace + [last];
    NewCommandsKeepDisorder(cap, trace, a, b, last);
    if Lawful(cap, longer) {
      StillGoesFirst(cap, longer, a, b);
      var rest := DisorderBreaksTheLaw(cap, longer, a, b);
      more := [last] + rest;
      assert trace + more == longer + rest;
      NewBeforeNew(trace, last, rest);
    } else {
      more := [last];
      assert trace + more == longer;
      NothingIsNew(longer);
      NewBeforeNew(trace, last, []);
      assert [last] + [] == more;
    }
  }

  lemma NothingIsNew(trace: seq<Execution>)
    ensures OnlyNew(trace, [])
  {
  }

  lemma ANewCommand(trace: seq<Execution>) returns (last: Execution)
    requires trace != [] && Timed(trace)
    ensures last.pair !in PairsIn(trace) && last.at == trace[|trace| - 1].at && Timed(trace + [last])
  {
    last := Execution(("", LongerThanAll(trace)), trace[|trace| - 1].at);
  }

  lemma StillGoesFirst(cap: nat, trace: seq<Execution>, a: int, b: int)
    requires OutOfOrder(cap, trace, a, b)
    ensures trace != [] && a in History(cap, trace) && |History(cap, trace)| <= cap
  {
  }

  lemma NewBeforeNew(trace: seq<Execution>, last: Execution, rest: seq<Execution>)
    requires last.pair !in PairsIn(trace) && OnlyNew(trace + [last], rest)
    ensures OnlyNew(trace, [last] + rest)
  {
    hide PairsIn;
    var more := [last] + rest;
    forall n | 0 <= n < |more| ensures more[n].pair !in PairsIn(trace + more[..n]) {
      if n > 0 {
        assert trace + more[..n] == trace + [last] + rest[..n - 1];
      } else {
        assert trace + more[..0] == trace;
      }
    }
  }

  /**
   While times do not go back, the history is and stays exactly the cap most recently run commands, all through a trace
   and whatever new commands follow, exactly when no command is run again in the second of a row that came after its
   own.
   */
  lemma {:induction false} HistoryIsLawfulIffUntied(cap: nat, trace: seq<Execution>)
    requires Timed(trace)
    ensures LawfulThroughout(cap, trace) <==> Untied(cap, trace)
  {
    hide Timed, Untied, StaysLawful, Mirrors, OutOfOrder;
    if trace == [] {
      NothingTies(cap);
      UntiedStaysLawful(cap, trace);
    } else {
      var n := |trace| - 1;
      var front, last := trace[..n], trace[n];
      assert front + [last] == trace;
      UntiedUpToTheLast(cap, front, last);
      HistoryIsLawfulIffUntied(cap, front);
      if Untied(cap, trace) {
        UntiedStaysLawful(cap, trace);
      } else if Untied(cap, front) {
        HistoryIsTheMostRecent(cap, front);
        TiesBreakTheLaw(cap, front, last);
      }
    }
  }

  lemma NothingTies(cap: nat)
    ensures Untied(cap, [])
  {
  }

  lemma TiesBreakTheLaw(cap: nat, trace: seq<Execution>, last: Execution)
    requires Mirrors(History(cap, trace), cap, trace) && Timed(trace + [last])
    requires Ties(History(cap, trace), last.pair, last.at)
    ensures !StaysLawful(cap, trace + [last])
  {
    hide Mirrors, OutOfOrder, Ties;
    var a, b := TiesLeaveDisorder(cap, trace, last);
    var more := DisorderBreaksTheLaw(cap, trace + [last], a, b);
  }

  /** Four executions in one second and a cap of two: the command run last but one is dropped. */
  lemma TieDropsARecentCommand()
    ensures var a, b, c := ("host", "a"), ("host", "b"), ("host", "c");
            var trace := [Execution(a, 5), Execution(b, 5), Execution(a, 5), Execution(c, 5)];
            !Has(History(2, trace), a) && IsRecent(trace, 2, a)
  {
    hide History, Mirrors, Ties, LastRun, Since, IsRecent, Has, PairsIn;
    var a, b, c := ("host", "a"), ("host", "b"), ("host", "c");
    assert a.1[0] != b.1[0] && a.1[0] != c.1[0] && b.1[0] != c.1[0];
    var two, again, next := [Execution(a, 5), Execution(b, 5)], Execution(a, 5), Execution(c, 5);
    var trace := [Execution(a, 5), Execution(b, 5), Execution(a, 5), Execution(c, 5)];
    assert c !in PairsIn(two);
    assert two + [again] + [next] == trace && Timed(two + [again]);
    TwoInOneSecond(a, b, 5);
    DroppedNext(two, again, next);
  }

  lemma DroppedNext(two: seq<Execution>, again: Execution, next: Execution)
    requires var rows := History(2, two);
             Mirrors(rows, 2, two) && Timed(two + [again]) && Ties(rows, again.pair, again.at)
    requires next.at == again.at && next.pair != again.pair && next.pair !in PairsIn(two)
    ensures var trace := two + [again] + [next];
            !Has(History(2, trace), again.pair) && IsRecent(trace, 2, again.pair)
  {
    var rows := History(2, two);
    hide History, PairsIn, LastRun, Since, Timed, Mirrors, Has, Recorded, GoesFirst;
    var own, other :|
      own in rows && other in rows && PairOf(rows[own]) == again.pair && own < other && rows[other].lastRun == again.at;
    RerunGoesFirst(rows, 2, two, again, own, other);
    HistoryGoesOn(2, two, again);
    var three := two + [again];
    RunningOneMore(two, again, again.pair);
    RunningOneMore(three, next, again.pair);
    if Has(History(2, three), next.pair) {
      HeldWereRun(2, three, next.pair);
      assert false;
    }
    TheFirstGoes(History(2, three), 2, next.at, own, other, next.pair);
    HistoryGoesOn(2, three, next);
    assert |{next.pair}| == 1;
  }

  /** Two commands run in one second are in the history, so that the first one ties when it is run again. */
  lemma TwoInOneSecond(a: Pair, b: Pair, now: int)
    requires a != b
    ensures var two := [Execution(a, now), Execution(b, now)];
            Mirrors(History(2, two), 2, two) && Ties(History(2, two), a, now)
  {
    var one, last := [Execution(a, now)], Execution(b, now);
    assert PairsIn(one) == {a} by { NoPairs(); assert one == [] + one; OneMorePair([], one[0]); }
    StrictTimesAreUntied(2, one);
    assert Timed(one + [last]);
    assert one + [last] == [Execution(a, now), Execution(b, now)];
    SecondInOneSecond(one, last);
  }

  lemma SecondInOneSecond(one: seq<Execution>, last: Execution)
    requires Timed(one + [last]) && Untied(2, one) && last.pair !in PairsIn(one)
    requires |one| == 1 && one[0].at == last.at
    ensures var two := one + [last];
            Mirrors(History(2, two), 2, two) && Ties(History(2, two), one[0].pair, last.at)
  {
    var two := one + [last];
    var first := one[0].pair;
    assert one == [] + [one[0]];
    RunningNow([], one[0]);
    hide History, PairsIn, LastRun, Since, Timed, Ties, Recorded;
    if Ties(History(2, one), last.pair, last.at) {
      TiesAreHeld(History(2, one), last.pair, last.at);
      HeldWereRun(2, one, last.pair);
      assert false;
    }
    UntiedUpToTheLast(2, one, last);
    HistoryIsTheMostRecent(2, two);
    RunningOneMore(one, last, first);
    RunningOneMore(one, last, last.pair);
    assert |{last.pair}| == 1;
    TwoRowsInOrder(History(2, two), two, first, last.pair);
  }

  lemma TiesAreHeld(rows: Rows, pair: Pair, now: int)
    requires Ties(rows, pair, now)
    ensures Has(rows, pair)
  {
  }

  lemma TwoRowsInOrder(rows: Rows, trace: seq<Execution>, a: Pair, b: Pair)
    requires Mirrors(rows, 2, trace) && IsRecent(trace, 2, a) && IsRecent(trace, 2, b)
    requires LastRun(trace, a) < LastRun(trace, b) && trace[LastRun(trace, a)].at == trace[LastRun(trace, b)].at
    ensures Ties(rows, a, trace[LastRun(trace, b)].at)
  {
    hide PairsIn, LastRun, Since, IsRecent;
    var own, other := IdOf(rows, a), IdOf(rows, b);
    assert Older(rows[own], rows[other]);
  }

  /** Of a table with two rows the one that goes first makes room for a new command. */
  lemma TheFirstGoes(rows: Rows, cap: nat, now: int, a: int, b: int, pair: Pair)
    requires Keyed(rows) && GoesFirst(rows, cap, now, a, b) && !Has(rows, pair) && cap == 2
    ensures !Has(Recorded(rows, cap, pair, now), PairOf(rows[a]))
  {
    NewRowsGoLast(rows, cap, now, a, b, pair);
    assert a != b;
    SubsetsAreSmaller({a, b}, rows.Keys);
    assert |rows| == |rows.Keys|;
    SameSizeMeansSame({a, b}, rows.Keys);
    assert OlderOf(rows, rows.Keys, a) == {};
  }
}
