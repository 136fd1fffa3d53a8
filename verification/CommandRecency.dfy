/**
 What the history holds: while times do not go back and nothing is pinned, exactly the most recently run distinct
 commands, whatever was evicted and came back in between, as long as no command is run again in the second of a row
 that came after its own.
 */
module CommandRecency {
  import opened Wrappers
  import opened CommandHistory

  datatype Execution = Execution(pair: Pair, at: int)

  /** Times are whole seconds and do not go back. */
  ghost predicate Timed(trace: seq<Execution>) {
    forall i, j | 0 <= i < j < |trace| :: trace[i].at <= trace[j].at
  }

  /** The table after recording a trace into an empty history. */
  function History(cap: nat, trace: seq<Execution>): (r: Rows)
    ensures Keyed(r)
  {
    if trace == [] then map[]
    else
      var last := trace[|trace| - 1];
      Recorded(History(cap, trace[..|trace| - 1]), cap, last.pair, last.at)
  }

  // ---------- recency, from the trace alone ----------

  function PairsIn(trace: seq<Execution>): (pairs: set<Pair>)
    ensures forall pair :: pair in pairs <==> exists i | 0 <= i < |trace| :: trace[i].pair == pair
  {
    set i | 0 <= i < |trace| :: trace[i].pair
  }

  /** The index of the last execution of a command that was run. */
  function LastRun(trace: seq<Execution>, pair: Pair): (k: nat)
    requires pair in PairsIn(trace)
    ensures k < |trace| && trace[k].pair == pair
    ensures forall j | k < j < |trace| :: trace[j].pair != pair
  {
    var n := |trace| - 1;
    if trace[n].pair == pair then n
    else
      assert forall i | 0 <= i < n :: trace[..n][i] == trace[i];
      LastRun(trace[..n], pair)
  }

  /** The other commands run since the last run of a command. */
  function Since(trace: seq<Execution>, pair: Pair): (pairs: set<Pair>)
    requires pair in PairsIn(trace)
    ensures pair !in pairs && pairs <= PairsIn(trace)
  {
    PairsIn(trace[LastRun(trace, pair) + 1..])
  }

  /** The command is among the cap most recently run ones. */
  predicate IsRecent(trace: seq<Execution>, cap: nat, pair: Pair) {
    pair in PairsIn(trace) && |Since(trace, pair)| < cap
  }

  lemma LastRunIsUnique(trace: seq<Execution>, pair: Pair, k: nat)
    requires k < |trace| && trace[k].pair == pair && forall j | k < j < |trace| :: trace[j].pair != pair
    ensures pair in PairsIn(trace) && LastRun(trace, pair) == k
  {
    hide LastRun;
    assert trace[LastRun(trace, pair)].pair == pair;
  }

  /** A command was run since the last run of another exactly when its own last run is later. */
  lemma SinceMeansLater(trace: seq<Execution>, pair: Pair, other: Pair)
    requires pair in PairsIn(trace) && other in PairsIn(trace)
    ensures other in Since(trace, pair) <==> LastRun(trace, pair) < LastRun(trace, other)
  {
    hide LastRun;
    var k, l := LastRun(trace, pair), LastRun(trace, other);
    var rest := trace[k + 1..];
    if other in Since(trace, pair) {
      var i :| 0 <= i < |rest| && rest[i].pair == other;
      assert trace[k + 1 + i].pair == other;
    }
    if k < l {
      assert rest[l - k - 1] == trace[l];
    }
  }

  lemma LastRunStays(trace: seq<Execution>, last: Execution, pair: Pair)
    requires pair != last.pair && pair in PairsIn(trace)
    ensures pair in PairsIn(trace + [last]) && LastRun(trace + [last], pair) == LastRun(trace, pair)
  {
    hide LastRun;
    var longer, k := trace + [last], LastRun(trace, pair);
    forall j | k < j < |longer| ensures longer[j].pair != pair {
      assert j < |trace| ==> longer[j] == trace[j];
    }
    LastRunIsUnique(longer, pair, k);
  }

  lemma RunningNow(trace: seq<Execution>, last: Execution)
    ensures last.pair in PairsIn(trace + [last])
    ensures LastRun(trace + [last], last.pair) == |trace| && Since(trace + [last], last.pair) == {}
  {
    hide LastRun;
    LastRunIsUnique(trace + [last], last.pair, |trace|);
    assert (trace + [last])[|trace| + 1..] == [];
    NoPairs();
  }

  lemma RunningAnother(trace: seq<Execution>, last: Execution, pair: Pair)
    requires pair != last.pair && pair in PairsIn(trace)
    ensures pair in PairsIn(trace + [last])
    ensures LastRun(trace + [last], pair) == LastRun(trace, pair)
    ensures Since(trace + [last], pair) == Since(trace, pair) + {last.pair}
  {
    hide LastRun;
    LastRunStays(trace, last, pair);
    var k := LastRun(trace, pair);
    assert (trace + [last])[k + 1..] == trace[k + 1..] + [last];
    OneMorePair(trace[k + 1..], last);
  }

  lemma RunningOneMore(trace: seq<Execution>, last: Execution, pair: Pair)
    ensures PairsIn(trace + [last]) == PairsIn(trace) + {last.pair}
    ensures pair == last.pair ==> LastRun(trace + [last], pair) == |trace| && Since(trace + [last], pair) == {}
    ensures pair != last.pair && pair in PairsIn(trace) ==>
              && LastRun(trace + [last], pair) == LastRun(trace, pair)
              && Since(trace + [last], pair) == Since(trace, pair) + {last.pair}
  {
    hide LastRun, Since, PairsIn;
    OneMorePair(trace, last);
    if pair == last.pair {
      RunningNow(trace, last);
    } else if pair in PairsIn(trace) {
      RunningAnother(trace, last, pair);
    }
  }

  lemma NoPairs()
    ensures PairsIn([]) == {}
  {
  }

  lemma OneMorePair(trace: seq<Execution>, last: Execution)
    ensures PairsIn(trace + [last]) == PairsIn(trace) + {last.pair}
  {
    var longer := trace + [last];
    assert forall i | 0 <= i < |trace| :: longer[i] == trace[i];
    assert longer[|trace|] == last;
  }

  /** Of two commands, the one run earlier has the later one and all its successors since. */
  lemma EarlierHasMoreSince(trace: seq<Execution>, early: Pair, late: Pair)
    requires early in PairsIn(trace) && late in PairsIn(trace) && LastRun(trace, early) < LastRun(trace, late)
    ensures Since(trace, late) + {late} <= Since(trace, early) && |Since(trace, late)| + 1 <= |Since(trace, early)|
  {
    hide LastRun;
    SinceMeansLater(trace, early, late);
    forall other | other in Since(trace, late) ensures other in Since(trace, early) {
      SinceMeansLater(trace, late, other);
      SinceMeansLater(trace, early, other);
    }
    SubsetsAreSmaller(Since(trace, late) + {late}, Since(trace, early));
  }

  // ---------- the table holds the recent commands ----------

  function Held(rows: Rows): (pairs: set<Pair>)
    ensures forall pair :: pair in pairs <==> Has(rows, pair)
  {
    set id | id in rows :: PairOf(rows[id])
  }

  lemma {:induction false} HeldAreCounted(rows: Rows)
    requires forall a, b | a in rows && b in rows && PairOf(rows[a]) == PairOf(rows[b]) :: a == b
    ensures |Held(rows)| == |rows|
    decreases |rows|
  {
    if rows.Keys == {} {
      assert Held(rows) == {} && |rows| == |rows.Keys|;
    } else {
      var id := AnyOf(rows.Keys);
      var rest := rows - {id};
      assert rest.Keys == rows.Keys - {id} && |rest.Keys| == |rest| && |rows.Keys| == |rows|;
      HeldAreCounted(rest);
      forall pair ensures Has(rows, pair) <==> Has(rest, pair) || pair == PairOf(rows[id]) {
        assert Has(rest, pair) ==> exists other | other in rest :: PairOf(rows[other]) == pair;
        assert forall other | other in rows :: other == id || (other in rest && rest[other] == rows[other]);
      }
      assert Held(rows) == Held(rest) + {PairOf(rows[id])};
    }
  }

  /** How table and trace belong together. */
  ghost predicate Mirrors(rows: Rows, cap: nat, trace: seq<Execution>) {
    && Keyed(rows) && |rows| <= cap
    && (forall id | id in rows :: !rows[id].pinned)
    && (forall pair :: Has(rows, pair) <==> IsRecent(trace, cap, pair))
    && (forall id | id in rows ::
          && PairOf(rows[id]) in PairsIn(trace)
          && rows[id].lastRun == trace[LastRun(trace, PairOf(rows[id]))].at)
    && (|rows| < cap ==> forall pair | pair in PairsIn(trace) :: Has(rows, pair))
    && InOrder(rows, trace)
  }

  /** Rows are trimmed in the order in which their commands were last run. */
  ghost predicate InOrder(rows: Rows, trace: seq<Execution>) {
    forall a, b | a in rows && b in rows && PairOf(rows[a]) in PairsIn(trace) && PairOf(rows[b]) in PairsIn(trace)
                  && LastRun(trace, PairOf(rows[a])) < LastRun(trace, PairOf(rows[b])) ::
      Older(rows[a], rows[b])
  }

  /** Running a recent command again keeps the others as recent as they were. */
  lemma RerunKeepsOthersRecent(trace: seq<Execution>, cap: nat, last: Execution, pair: Pair)
    requires IsRecent(trace, cap, last.pair) && pair != last.pair
    ensures IsRecent(trace + [last], cap, pair) <==> IsRecent(trace, cap, pair)
  {
    hide LastRun, Since;
    RunningOneMore(trace, last, pair);
    if pair in PairsIn(trace) {
      SinceMeansLater(trace, pair, last.pair);
      if last.pair in Since(trace, pair) {
        assert Since(trace, pair) + {last.pair} == Since(trace, pair);
      } else {
        LastRunsDiffer(trace, pair, last.pair);
        EarlierHasMoreSince(trace, last.pair, pair);
      }
    }
  }

  lemma LastRunsDiffer(trace: seq<Execution>, pair: Pair, other: Pair)
    requires pair in PairsIn(trace) && other in PairsIn(trace) && pair != other
    ensures LastRun(trace, pair) != LastRun(trace, other)
  {
    hide LastRun;
    assert trace[LastRun(trace, pair)].pair == pair;
  }

  /** While all commands of a trace fit, all are recent. */
  lemma AllRecentWhileRoom(trace: seq<Execution>, cap: nat, pair: Pair)
    requires |PairsIn(trace)| <= cap && pair in PairsIn(trace)
    ensures IsRecent(trace, cap, pair)
  {
    SubsetsAreSmaller(Since(trace, pair) + {pair}, PairsIn(trace));
  }

  /** The row of the least recent command held. */
  ghost predicate IsStalest(rows: Rows, trace: seq<Execution>, id: int)
    requires forall i | i in rows :: PairOf(rows[i]) in PairsIn(trace)
  {
    && id in rows
    && forall other | other in rows && other != id ::
         LastRun(trace, PairOf(rows[id])) < LastRun(trace, PairOf(rows[other]))
  }

  /** When a full table meets a new command, exactly its stalest command stops being recent. */
  lemma NewCommandOustsTheStalest(rows: Rows, cap: nat, trace: seq<Execution>, last: Execution, id: int, pair: Pair)
    requires Mirrors(rows, cap, trace) && |rows| == cap && !Has(rows, last.pair)
    requires IsStalest(rows, trace, id)
    requires pair in PairsIn(trace) && pair != last.pair
    ensures IsRecent(trace + [last], cap, pair) <==> Has(rows, pair) && pair != PairOf(rows[id])
  {
    hide LastRun, Since;
    RunningOneMore(trace, last, pair);
    var stalest := PairOf(rows[id]);
    HeldAreCounted(rows);
    forall p | p in Held(rows) - {stalest} ensures p in Since(trace, stalest) {
      var other := IdOf(rows, p);
      EarlierHasMoreSince(trace, stalest, p);
    }
    assert Has(rows, stalest);
    SubsetsAreSmaller(Held(rows) - {stalest}, Since(trace, stalest));
    assert |Since(trace, stalest)| == cap - 1;
    SameSizeMeansSame(Held(rows) - {stalest}, Since(trace, stalest));
    if Has(rows, pair) && pair != stalest {
      EarlierHasMoreSince(trace, stalest, pair);
      assert |Since(trace, pair) + {last.pair}| <= |Since(trace, pair)| + 1;
    } else if pair == stalest {
      assert last.pair !in Since(trace, stalest);
    } else {
      SubsetsAreSmaller(Since(trace, pair), Since(trace + [last], pair));
    }
  }

  lemma SameSizeMeansSame<T>(a: set<T>, b: set<T>)
    requires a <= b && |a| == |b|
    ensures a == b
  {
    assert b == a + (b - a);
  }

  /** What an upsert does to a table, before the trim. */
  lemma UpsertAddsOneCommand(rows: Rows, pair: Pair, now: int)
    requires Keyed(rows)
    ensures var upserted := Upserted(rows, pair, now);
            && (forall p :: Has(upserted, p) <==> Has(rows, p) || p == pair)
            && |upserted| == |rows| + (if Has(rows, pair) then 0 else 1)
  {
    var upserted := Upserted(rows, pair, now);
    var entry := Executed(rows, pair, now);
    hide Executed, Upserted;
    assert upserted == rows[entry.id := entry] by { UpsertedIsAnUpdate(rows, pair, now); }
    assert upserted.Keys == rows.Keys + {entry.id};
    assert |upserted| == |upserted.Keys| && |rows| == |rows.Keys|;
    assert PairOf(upserted[entry.id]) == pair;
    forall p | p != pair ensures Has(upserted, p) <==> Has(rows, p) {
      if Has(rows, p) {
        var id := IdOf(rows, p);
        OwnIdIsTheRowOfThePair(rows, pair, now);
        assert upserted[id] == rows[id];
      }
      if Has(upserted, p) {
        var id :| id in upserted && PairOf(upserted[id]) == p;
        assert rows[id] == upserted[id];
      }
    }
  }

  lemma UpsertedIsAnUpdate(rows: Rows, pair: Pair, now: int)
    requires Keyed(rows)
    ensures var entry := Executed(rows, pair, now); Upserted(rows, pair, now) == rows[entry.id := entry]
  {
  }

  lemma OwnIdIsTheRowOfThePair(rows: Rows, pair: Pair, now: int)
    requires Keyed(rows)
    ensures var entry := Executed(rows, pair, now); entry.id in rows ==> PairOf(rows[entry.id]) == pair
  {
  }

  lemma UpsertExtendsTheMirror(rows: Rows, cap: nat, trace: seq<Execution>, last: Execution, id: int)
    requires Mirrors(rows, cap, trace) && id in Upserted(rows, last.pair, last.at)
    ensures var row := Upserted(rows, last.pair, last.at)[id];
            && !row.pinned
            && PairOf(row) in PairsIn(trace + [last])
            && row.lastRun == (trace + [last])[LastRun(trace + [last], PairOf(row))].at
  {
    var upserted := Upserted(rows, last.pair, last.at);
    var entry := Executed(rows, last.pair, last.at);
    RunningOneMore(trace, last, PairOf(upserted[id]));
    OwnIdIsTheRowOfThePair(rows, last.pair, last.at);
    UpsertedIsAnUpdate(rows, last.pair, last.at);
    hide LastRun, Since, Executed, Upserted, IsRecent;
    if id != entry.id {
      assert upserted[id] == rows[id];
      assert PairOf(rows[id]) != last.pair;
    }
  }

  lemma {:induction false} Stalest(rows: Rows, trace: seq<Execution>, among: set<int>) returns (id: int)
    requires Keyed(rows) && among <= rows.Keys && among != {}
    requires forall i | i in rows :: PairOf(rows[i]) in PairsIn(trace)
    ensures id in among
    ensures forall other | other in among && other != id ::
              LastRun(trace, PairOf(rows[id])) < LastRun(trace, PairOf(rows[other]))
  {
    hide LastRun;
    id := AnyOf(among);
    var rest := among - {id};
    assert forall other | other in among :: other == id || other in rest;
    if rest != {} {
      var other := Stalest(rows, trace, rest);
      LastRunsDiffer(trace, PairOf(rows[id]), PairOf(rows[other]));
      if LastRun(trace, PairOf(rows[other])) < LastRun(trace, PairOf(rows[id])) {
        id := other;
      }
    }
  }

  /** One row too many: the single oldest one is trimmed. */
  lemma OneOldestIsTrimmed(rows: Rows, cap: nat, id: int)
    requires |rows| == cap + 1 && id in rows && forall i | i in rows :: !rows[i].pinned
    requires forall other | other in rows && other != id :: Older(rows[id], rows[other])
    ensures Trimmed(rows, cap) == rows - {id}
  {
    var unpinned := Unpinned(rows);
    forall i | i in rows.Keys ensures i in unpinned {
      assert i in rows;
    }
    forall other | other in rows ensures IsTrimmed(rows, 1, other) <==> other == id {
      if other == id {
        forall i | i in rows ensures !Older(rows[i], rows[id]) {
          assert i != id ==> Older(rows[id], rows[i]);
        }
        assert OlderOf(rows, unpinned, id) == {};
      } else {
        SubsetsAreSmaller({id}, OlderOf(rows, unpinned, other));
      }
    }
  }

  /** A full table that gets a new command is trimmed by its stalest row. */
  lemma TrimOustsTheStalest(rows: Rows, cap: nat, trace: seq<Execution>, last: Execution, id: int)
    requires Mirrors(rows, cap, trace) && Timed(trace + [last])
    requires |rows| == cap && !Has(rows, last.pair) && IsStalest(rows, trace, id)
    ensures Recorded(rows, cap, last.pair, last.at) == Upserted(rows, last.pair, last.at) - {id}
  {
    UpsertAddsOneCommand(rows, last.pair, last.at);
    StalestIsOldest(rows, cap, trace, last, id);
    hide Upserted, Trimmed, Timed, IsStalest;
    OneOldestIsTrimmed(Upserted(rows, last.pair, last.at), cap, id);
  }

  lemma StalestIsOldest(rows: Rows, cap: nat, trace: seq<Execution>, last: Execution, id: int)
    requires Mirrors(rows, cap, trace) && Timed(trace + [last])
    requires !Has(rows, last.pair) && IsStalest(rows, trace, id)
    ensures var upserted := Upserted(rows, last.pair, last.at);
            id in upserted && (forall i | i in upserted :: !upserted[i].pinned)
            && forall other | other in upserted && other != id :: Older(upserted[id], upserted[other])
  {
    var upserted := Upserted(rows, last.pair, last.at);
    var longer := trace + [last];
    UpsertedIsAnUpdate(rows, last.pair, last.at);
    var entry := Executed(rows, last.pair, last.at);
    hide LastRun, Since, Executed, Upserted, IsRecent;
    assert entry.id !in rows;
    assert upserted[id] == rows[id] && !upserted[id].pinned;
    forall other | other in upserted && other != id
      ensures !upserted[other].pinned && Older(upserted[id], upserted[other])
    {
      UpsertExtendsTheMirror(rows, cap, trace, last, other);
      var k := LastRun(trace, PairOf(rows[id]));
      assert longer[k] == trace[k];
      if other == entry.id {
        assert longer[|trace|] == last;
      } else {
        assert upserted[other] == rows[other];
        var l := LastRun(trace, PairOf(rows[other]));
        assert longer[l] == trace[l];
      }
    }
  }

  lemma MirrorsHoldTheRecent(rows: Rows, cap: nat, trace: seq<Execution>, pair: Pair)
    requires Mirrors(rows, cap, trace)
    ensures Has(rows, pair) <==> IsRecent(trace, cap, pair)
  {
  }

  lemma RoomMeansAll(rows: Rows, cap: nat, trace: seq<Execution>)
    requires Mirrors(rows, cap, trace) && |rows| < cap
    ensures |PairsIn(trace)| == |rows| && forall pair :: pair in PairsIn(trace) <==> Has(rows, pair)
  {
    hide LastRun, Since;
    HeldAreCounted(rows);
    assert Held(rows) == PairsIn(trace);
  }

  /** While the table has room, a recording leaves every recent command in it. */
  lemma RecordingWithRoom(rows: Rows, cap: nat, trace: seq<Execution>, last: Execution, pair: Pair)
    requires Mirrors(rows, cap, trace) && |Upserted(rows, last.pair, last.at)| <= cap
    ensures Has(Upserted(rows, last.pair, last.at), pair) <==> IsRecent(trace + [last], cap, pair)
  {
    UpsertAddsOneCommand(rows, last.pair, last.at);
    RunningOneMore(trace, last, pair);
    MirrorsHoldTheRecent(rows, cap, trace, pair);
    MirrorsHoldTheRecent(rows, cap, trace, last.pair);
    hide LastRun, Since, Upserted, PairsIn, Mirrors, Has;
    if Has(rows, last.pair) {
      if pair != last.pair {
        RerunKeepsOthersRecent(trace, cap, last, pair);
      }
    } else {
      RoomMeansAll(rows, cap, trace);
      if pair in PairsIn(trace + [last]) {
        AllRecentWhileRoom(trace + [last], cap, pair);
      }
    }
  }

  lemma FullTablesHaveAStalest(rows: Rows, cap: nat, trace: seq<Execution>) returns (id: int)
    requires Mirrors(rows, cap, trace) && |rows| == cap > 0
    ensures id in rows && IsStalest(rows, trace, id) && Keyed(rows)
    ensures forall i | i in rows :: PairOf(rows[i]) in PairsIn(trace)
  {
    assert rows.Keys != {} by { assert |rows| == |rows.Keys|; }
    hide LastRun, Since, IsRecent;
    id := Stalest(rows, trace, rows.Keys);
  }

  /** Once the table is full, a recording of a new command leaves every recent command in it. */
  lemma RecordingWhenFull(rows: Rows, cap: nat, trace: seq<Execution>, last: Execution, pair: Pair)
    requires Mirrors(rows, cap, trace) && Timed(trace + [last])
    requires |rows| == cap > 0 && !Has(rows, last.pair)
    ensures Has(Recorded(rows, cap, last.pair, last.at), pair) <==> IsRecent(trace + [last], cap, pair)
  {
    hide LastRun, Since, Upserted, Recorded, Mirrors, Has, IsStalest, Timed, PairsIn, Keyed;
    var id := FullTablesHaveAStalest(rows, cap, trace);
    TrimOustsTheStalest(rows, cap, trace, last, id);
    StalestLeaves(rows, last, id, pair);
    RunningOneMore(trace, last, pair);
    MirrorsHoldTheRecent(rows, cap, trace, pair);
    if pair != last.pair && pair in PairsIn(trace) {
      NewCommandOustsTheStalest(rows, cap, trace, last, id, pair);
    }
  }

  /** Which commands a recording leaves in the table. */
  lemma RecordingKeepsTheRecent(rows: Rows, cap: nat, trace: seq<Execution>, last: Execution, pair: Pair)
    requires Mirrors(rows, cap, trace) && Timed(trace + [last])
    ensures Has(Recorded(rows, cap, last.pair, last.at), pair) <==> IsRecent(trace + [last], cap, pair)
  {
    hide LastRun, Since, Upserted, IsRecent, Timed;
    var upserted := Upserted(rows, last.pair, last.at);
    UpsertAddsOneCommand(rows, last.pair, last.at);
    if |upserted| <= cap {
      RoomTrimsNothing(upserted, cap);
      RecordingWithRoom(rows, cap, trace, last, pair);
    } else if cap == 0 {
      NoCapHoldsNothing(rows, trace, last, pair);
    } else {
      RecordingWhenFull(rows, cap, trace, last, pair);
    }
  }

  lemma RoomTrimsNothing(rows: Rows, cap: nat)
    requires |rows| <= cap
    ensures Trimmed(rows, cap) == rows
  {
  }

  lemma NoCapHoldsNothing(rows: Rows, trace: seq<Execution>, last: Execution, pair: Pair)
    requires Mirrors(rows, 0, trace)
    ensures !Has(Recorded(rows, 0, last.pair, last.at), pair) && !IsRecent(trace + [last], 0, pair)
  {
    var upserted := Upserted(rows, last.pair, last.at);
    UpsertAddsOneCommand(rows, last.pair, last.at);
    TrimmedToTheCap(upserted, 0);
    NothingIsPinned(rows, 0, trace, last);
    assert |Recorded(rows, 0, last.pair, last.at)| == 0;
  }

  lemma NothingIsPinned(rows: Rows, cap: nat, trace: seq<Execution>, last: Execution)
    requires Mirrors(rows, cap, trace)
    ensures Pinned(Upserted(rows, last.pair, last.at)) == {}
  {
    forall id | id in Upserted(rows, last.pair, last.at) ensures !Upserted(rows, last.pair, last.at)[id].pinned {
      UpsertExtendsTheMirror(rows, cap, trace, last, id);
    }
  }

  lemma StalestLeaves(rows: Rows, last: Execution, id: int, pair: Pair)
    requires Keyed(rows) && !Has(rows, last.pair) && id in rows
    ensures Has(Upserted(rows, last.pair, last.at) - {id}, pair) <==>
              pair == last.pair || (Has(rows, pair) && pair != PairOf(rows[id]))
  {
    var upserted := Upserted(rows, last.pair, last.at);
    UpsertAddsOneCommand(rows, last.pair, last.at);
    UpsertedIsAnUpdate(rows, last.pair, last.at);
    var entry := Executed(rows, last.pair, last.at);
    hide Executed, Upserted;
    assert upserted[id] == rows[id];
    if Has(upserted, pair) {
      var own := IdOf(upserted, pair);
      assert own == id || (own in upserted - {id} && (upserted - {id})[own] == upserted[own]);
    }
  }

  /** The rows a recording leaves are up to date. */
  lemma RecordedRowsAreLatest(rows: Rows, cap: nat, trace: seq<Execution>, last: Execution, id: int)
    requires Mirrors(rows, cap, trace) && id in Recorded(rows, cap, last.pair, last.at)
    ensures var row := Recorded(rows, cap, last.pair, last.at)[id];
            && !row.pinned && PairOf(row) in PairsIn(trace + [last])
            && row.lastRun == (trace + [last])[LastRun(trace + [last], PairOf(row))].at
  {
    var upserted := Upserted(rows, last.pair, last.at);
    TrimmedRowsStay(upserted, cap, id);
    UpsertExtendsTheMirror(rows, cap, trace, last, id);
    hide LastRun, Upserted, Trimmed, Mirrors;
  }

  lemma TrimmedRowsStay(rows: Rows, cap: nat, id: int)
    requires id in Trimmed(rows, cap)
    ensures id in rows && Trimmed(rows, cap)[id] == rows[id]
  {
  }

  /** After a recording the table is not above the cap, and below it holds every command there was. */
  lemma RecordedSize(rows: Rows, cap: nat, trace: seq<Execution>, last: Execution)
    requires Mirrors(rows, cap, trace)
    ensures var recorded := Recorded(rows, cap, last.pair, last.at);
            && |recorded| <= cap
            && (|recorded| < cap ==> forall pair | pair in PairsIn(trace + [last]) :: Has(recorded, pair))
  {
    var upserted := Upserted(rows, last.pair, last.at);
    UpsertAddsOneCommand(rows, last.pair, last.at);
    TrimmedToTheCap(upserted, cap);
    NothingIsPinned(rows, cap, trace, last);
    OneMorePair(trace, last);
    hide LastRun, Since, Executed, Upserted, IsRecent, Trimmed;
    if |Recorded(rows, cap, last.pair, last.at)| < cap {
      NothingTrimmedBelowTheCap(upserted, cap);
    }
  }

  lemma RecordedIsKeyed(rows: Rows, cap: nat, pair: Pair, now: int)
    requires Keyed(rows)
    ensures Keyed(Recorded(rows, cap, pair, now))
  {
  }

  /** The order of the trim stays that of the last runs unless the execution ties. */
  lemma RecordingKeepsTheOrder(rows: Rows, cap: nat, trace: seq<Execution>, last: Execution)
    requires Mirrors(rows, cap, trace) && Timed(trace + [last]) && !Ties(rows, last.pair, last.at)
    ensures InOrder(Recorded(rows, cap, last.pair, last.at), trace + [last])
  {
    var recorded := Recorded(rows, cap, last.pair, last.at);
    var longer := trace + [last];
    hide LastRun, Since, IsRecent, Recorded, Timed, Ties, Mirrors, PairsIn;
    forall a, b | a in recorded && b in recorded
                  && PairOf(recorded[a]) in PairsIn(longer) && PairOf(recorded[b]) in PairsIn(longer)
                  && LastRun(longer, PairOf(recorded[a])) < LastRun(longer, PairOf(recorded[b]))
      ensures Older(recorded[a], recorded[b])
    {
      RecordedPairsAreInOrder(rows, cap, trace, last, a, b);
    }
  }

  lemma RecordedPairsAreInOrder(rows: Rows, cap: nat, trace: seq<Execution>, last: Execution, a: int, b: int)
    requires Mirrors(rows, cap, trace) && Timed(trace + [last]) && !Ties(rows, last.pair, last.at)
    requires var recorded := Recorded(rows, cap, last.pair, last.at);
             a in recorded && b in recorded
             && PairOf(recorded[a]) in PairsIn(trace + [last]) && PairOf(recorded[b]) in PairsIn(trace + [last])
             && LastRun(trace + [last], PairOf(recorded[a])) < LastRun(trace + [last], PairOf(recorded[b]))
    ensures var recorded := Recorded(rows, cap, last.pair, last.at); Older(recorded[a], recorded[b])
  {
    hide LastRun, Since, IsRecent, Recorded, Ties, Timed, Executed, PairsIn, Mirrors;
    MirroredIsKeyed(rows, cap, trace);
    var entry, recorded := Executed(rows, last.pair, last.at), Recorded(rows, cap, last.pair, last.at);
    RecordedRowsWereHeld(rows, cap, last, a);
    RecordedRowsWereHeld(rows, cap, last, b);
    RunningOneMore(trace, last, last.pair);
    if a != entry.id {
      MirroredPairsWereRun(rows, cap, trace, a);
      RunningOneMore(trace, last, PairOf(rows[a]));
      if b == entry.id {
        ExecutionsAreNewest(rows, cap, trace, last, a);
      } else {
        MirroredPairsWereRun(rows, cap, trace, b);
        RunningOneMore(trace, last, PairOf(rows[b]));
        MirroredRowsAreInOrder(rows, cap, trace, a, b);
      }
    }
  }

  lemma MirroredIsKeyed(rows: Rows, cap: nat, trace: seq<Execution>)
    requires Mirrors(rows, cap, trace)
    ensures Keyed(rows)
  {
  }

  lemma MirroredPairsWereRun(rows: Rows, cap: nat, trace: seq<Execution>, id: int)
    requires Mirrors(rows, cap, trace) && id in rows
    ensures PairOf(rows[id]) in PairsIn(trace) && !rows[id].pinned && rows[id].id == id
  {
  }

  lemma MirroredRowsAreInOrder(rows: Rows, cap: nat, trace: seq<Execution>, a: int, b: int)
    requires Mirrors(rows, cap, trace) && a in rows && b in rows
    requires PairOf(rows[a]) in PairsIn(trace) && PairOf(rows[b]) in PairsIn(trace)
    requires LastRun(trace, PairOf(rows[a])) < LastRun(trace, PairOf(rows[b]))
    ensures Older(rows[a], rows[b])
  {
  }

  /** A row a recording leaves is the one of the execution, or held before, of another command. */
  lemma RecordedRowsWereHeld(rows: Rows, cap: nat, last: Execution, id: int)
    requires Keyed(rows) && id in Recorded(rows, cap, last.pair, last.at)
    ensures var entry, row := Executed(rows, last.pair, last.at), Recorded(rows, cap, last.pair, last.at)[id];
            if id == entry.id then row == entry else id in rows && row == rows[id] && PairOf(row) != last.pair
  {
    OwnIdIsTheRowOfThePair(rows, last.pair, last.at);
  }

  lemma ExecutionsAreNewest(rows: Rows, cap: nat, trace: seq<Execution>, last: Execution, id: int)
    requires Mirrors(rows, cap, trace) && Timed(trace + [last]) && !Ties(rows, last.pair, last.at)
    requires id in rows && id != Executed(rows, last.pair, last.at).id
    ensures Older(rows[id], Executed(rows, last.pair, last.at))
  {
    HeldRowsAreNoLater(rows, cap, trace, last, id);
    NewRowsHaveTheGreatestIds(rows, last.pair, last.at);
    OwnIdIsTheRowOfThePair(rows, last.pair, last.at);
    hide Mirrors;
  }

  lemma HeldRowsAreNoLater(rows: Rows, cap: nat, trace: seq<Execution>, last: Execution, id: int)
    requires Mirrors(rows, cap, trace) && Timed(trace + [last]) && id in rows
    ensures rows[id].lastRun <= last.at
  {
    hide LastRun, Since, IsRecent;
    var longer, k := trace + [last], LastRun(trace, PairOf(rows[id]));
    assert longer[k] == trace[k] && longer[|trace|] == last;
  }

  lemma NewRowsHaveTheGreatestIds(rows: Rows, pair: Pair, now: int)
    requires Keyed(rows)
    ensures !Has(rows, pair) ==> forall id | id in rows :: id < Executed(rows, pair, now).id
  {
  }

  lemma RecordingKeepsTheMirror(rows: Rows, cap: nat, trace: seq<Execution>, last: Execution)
    requires Mirrors(rows, cap, trace) && Timed(trace + [last]) && !Ties(rows, last.pair, last.at)
    ensures Mirrors(Recorded(rows, cap, last.pair, last.at), cap, trace + [last])
  {
    var recorded := Recorded(rows, cap, last.pair, last.at);
    RecordedIsKeyed(rows, cap, last.pair, last.at);
    RecordedSize(rows, cap, trace, last);
    RecordingKeepsTheOrder(rows, cap, trace, last);
    hide LastRun, Since, IsRecent, Recorded, Keyed, Timed, Ties, InOrder;
    forall pair ensures Has(recorded, pair) <==> IsRecent(trace + [last], cap, pair) {
      RecordingKeepsTheRecent(rows, cap, trace, last, pair);
    }
    forall id | id in recorded
      ensures !recorded[id].pinned && PairOf(recorded[id]) in PairsIn(trace + [last])
      ensures recorded[id].lastRun == (trace + [last])[LastRun(trace + [last], PairOf(recorded[id]))].at
    {
      RecordedRowsAreLatest(rows, cap, trace, last, id);
    }
  }

  lemma NothingTrimmedBelowTheCap(rows: Rows, cap: nat)
    requires KeyedByIds(rows) && |Trimmed(rows, cap)| < cap
    ensures Trimmed(rows, cap) == rows
  {
    TrimmedToTheCap(rows, cap);
  }

  /** No command was run again in the second of a row that came after its own. */
  ghost predicate Untied(cap: nat, trace: seq<Execution>) {
    forall n | 0 <= n < |trace| :: !Ties(History(cap, trace[..n]), trace[n].pair, trace[n].at)
  }

  lemma UntiedUpToTheLast(cap: nat, trace: seq<Execution>, last: Execution)
    ensures Untied(cap, trace + [last]) <==> Untied(cap, trace) && !Ties(History(cap, trace), last.pair, last.at)
    ensures Timed(trace + [last]) ==> Timed(trace)
  {
    hide Ties, History;
    var longer := trace + [last];
    assert longer[..|trace|] == trace && longer[|trace|] == last;
    assert forall n | 0 <= n < |trace| :: longer[..n] == trace[..n] && longer[n] == trace[n];
  }

  lemma HistoryGoesOn(cap: nat, trace: seq<Execution>, last: Execution)
    ensures History(cap, trace + [last]) == Recorded(History(cap, trace), cap, last.pair, last.at)
  {
    hide Recorded;
    assert (trace + [last])[..|trace|] == trace;
  }

  lemma NothingMirrorsNothing(cap: nat)
    ensures Mirrors(History(cap, []), cap, [])
  {
  }

  /**
   For every trace whose times do not go back and that has no tie the history is exactly the cap most recently run
   distinct commands, each with the time of its last run; it only stays below the cap while it holds every command there
   was.
   */
  lemma {:induction false} HistoryIsTheMostRecent(cap: nat, trace: seq<Execution>)
    requires Timed(trace) && Untied(cap, trace)
    ensures Mirrors(History(cap, trace), cap, trace)
  {
    if trace != [] {
      var n := |trace| - 1;
      assert trace[..n] + [trace[n]] == trace;
      UntiedUpToTheLast(cap, trace[..n], trace[n]);
      HistoryGoesOn(cap, trace[..n], trace[n]);
      hide Timed, Untied, Mirrors, Recorded, History, Ties;
      HistoryIsTheMostRecent(cap, trace[..n]);
      RecordingKeepsTheMirror(History(cap, trace[..n]), cap, trace[..n], trace[n]);
    } else {
      NothingMirrorsNothing(cap);
    }
  }

  /** At strictly increasing times nothing ties. */
  lemma {:induction false} StrictTimesAreUntied(cap: nat, trace: seq<Execution>)
    requires forall i, j | 0 <= i < j < |trace| :: trace[i].at < trace[j].at
    ensures Timed(trace) && Untied(cap, trace)
  {
    if trace != [] {
      var n := |trace| - 1;
      var front, last := trace[..n], trace[n];
      assert front + [last] == trace;
      StrictTimesAreUntied(cap, front);
      UntiedUpToTheLast(cap, front, last);
      HistoryIsTheMostRecent(cap, front);
      hide LastRun, Since, IsRecent;
      var rows := History(cap, front);
      forall id | id in rows ensures rows[id].lastRun < last.at {
        assert front[LastRun(front, PairOf(rows[id]))].at < last.at;
      }
    }
  }

  /** What a smaller history holds, a larger one holds too. */
  lemma SmallerHistoriesAreContained(small: nat, large: nat, trace: seq<Execution>, pair: Pair)
    requires Timed(trace) && Untied(small, trace) && Untied(large, trace)
    requires small <= large && Has(History(small, trace), pair)
    ensures Has(History(large, trace), pair)
  {
    HistoryIsTheMostRecent(small, trace);
    HistoryIsTheMostRecent(large, trace);
  }

  // ---------- runs ----------

  function Count(trace: seq<Execution>, pair: Pair): nat {
    if trace == [] then 0
    else Count(trace[..|trace| - 1], pair) + if trace[|trace| - 1].pair == pair then 1 else 0
  }

  /** The execution at e brought the command in, and it has been among the recent ones ever since. */
  ghost predicate EnteredAt(trace: seq<Execution>, cap: nat, pair: Pair, e: nat) {
    && e < |trace| && trace[e].pair == pair
    && !IsRecent(trace[..e], cap, pair)
    && forall m | e < m <= |trace| :: IsRecent(trace[..m], cap, pair)
  }

  lemma EntryStands(trace: seq<Execution>, cap: nat, last: Execution, pair: Pair, e: nat)
    requires EnteredAt(trace, cap, pair, e) && IsRecent(trace + [last], cap, pair)
    ensures EnteredAt(trace + [last], cap, pair, e)
    ensures Count((trace + [last])[e..], pair) == Count(trace[e..], pair) + if last.pair == pair then 1 else 0
  {
    hide IsRecent;
    var longer := trace + [last];
    forall m | e < m <= |longer| ensures IsRecent(longer[..m], cap, pair) {
      assert m <= |trace| ==> longer[..m] == trace[..m];
      assert m == |longer| ==> longer[..m] == longer;
    }
    assert longer[..e] == trace[..e];
    assert longer[e..][..|trace| - e] == trace[e..];
  }

  lemma EntersNow(trace: seq<Execution>, cap: nat, last: Execution)
    requires !IsRecent(trace, cap, last.pair) && IsRecent(trace + [last], cap, last.pair)
    ensures EnteredAt(trace + [last], cap, last.pair, |trace|)
    ensures Count((trace + [last])[|trace|..], last.pair) == 1
  {
    hide IsRecent;
    var longer := trace + [last];
    assert longer[..|trace|] == trace && longer[..|longer|] == longer;
    assert longer[|trace|..] == [last] && [last][..0] == [];
    assert Count([], last.pair) == 0;
  }

  /** A row counts the runs since its command last entered, and its first run is that entry. */
  lemma {:induction false} RowsCountSinceEntry(cap: nat, trace: seq<Execution>, id: int) returns (e: nat)
    requires Timed(trace) && Untied(cap, trace) && id in History(cap, trace)
    ensures var row := History(cap, trace)[id];
            && EnteredAt(trace, cap, PairOf(row), e)
            && row.runs == Count(trace[e..], PairOf(row)) && row.firstRun == trace[e].at
    decreases |trace|
  {
    hide IsRecent, Since, LastRun, Recorded, EnteredAt, Mirrors, Has, Timed, Untied;
    var n := |trace| - 1;
    var front, last := trace[..n], trace[n];
    assert front + [last] == trace;
    UntiedUpToTheLast(cap, front, last);
    HistoryGoesOn(cap, front, last);
    var before := History(cap, front);
    RowsAreTouchedAlone(before, cap, last, id);
    var row := History(cap, trace)[id];
    HeldRowsAreRecent(cap, trace, id);
    if id in before {
      e := RowsCountSinceEntry(cap, front, id);
      EntryStands(front, cap, last, PairOf(row), e);
      EntriesAreIndices(front, cap, PairOf(row), e);
    } else {
      e := n;
      HistoryIsTheMostRecent(cap, front);
      MirrorsHoldTheRecent(before, cap, front, last.pair);
      EntersNow(front, cap, last);
    }
  }

  lemma HeldRowsAreRecent(cap: nat, trace: seq<Execution>, id: int)
    requires Timed(trace) && Untied(cap, trace) && id in History(cap, trace)
    ensures IsRecent(trace, cap, PairOf(History(cap, trace)[id]))
  {
    HistoryIsTheMostRecent(cap, trace);
    MirrorsHoldTheRecent(History(cap, trace), cap, trace, PairOf(History(cap, trace)[id]));
  }

  lemma EntriesAreIndices(trace: seq<Execution>, cap: nat, pair: Pair, e: nat)
    requires EnteredAt(trace, cap, pair, e)
    ensures e < |trace|
  {
  }

  lemma RowsAreTouchedAlone(rows: Rows, cap: nat, last: Execution, id: int)
    requires Keyed(rows) && id in Recorded(rows, cap, last.pair, last.at)
    ensures var row := Recorded(rows, cap, last.pair, last.at)[id];
            if id in rows then
              && PairOf(row) == PairOf(rows[id]) && row.firstRun == rows[id].firstRun
              && row.runs == rows[id].runs + if PairOf(row) == last.pair then 1 else 0
            else PairOf(row) == last.pair && !Has(rows, last.pair) && row.runs == 1 && row.firstRun == last.at
  {
  }
}
