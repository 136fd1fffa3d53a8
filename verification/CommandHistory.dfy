/**
 The command history (command_store.cpp): executions are recorded per (host, command), and the oldest rows that
 are not pinned are trimmed beyond a cap.
 */
module CommandHistory {
  import opened Wrappers

  datatype HistoryEntry = HistoryEntry(
    id: int, host: string, command: string, firstRun: int, lastRun: int, runs: int, pinned: bool, favorite: bool)

  type Pair = (string, string)

  /** The rows by their id. */
  type Rows = map<int, HistoryEntry>

  function PairOf(entry: HistoryEntry): Pair {
    (entry.host, entry.command)
  }

  /** The table's keys: ids are the rows' own, and no two rows share host and command. */
  ghost predicate Keyed(rows: Rows) {
    && (forall id | id in rows :: rows[id].id == id)
    && (forall a, b | a in rows && b in rows && PairOf(rows[a]) == PairOf(rows[b]) :: a == b)
  }

  predicate Has(rows: Rows, pair: Pair) {
    exists id | id in rows :: PairOf(rows[id]) == pair
  }

  /** The id of the row of a pair. */
  function IdOf(rows: Rows, pair: Pair): (id: int)
    requires Keyed(rows) && Has(rows, pair)
    ensures id in rows && PairOf(rows[id]) == pair
  {
    var id :| id in rows && PairOf(rows[id]) == pair;
    id
  }

  lemma {:induction false} SomeIdIsGreatest(ids: set<int>)
    requires ids != {}
    ensures exists greatest | greatest in ids :: forall id | id in ids :: id <= greatest
  {
    var id := AnyOf(ids);
    if ids - {id} == {} {
      assert forall x | x in ids :: x == id || x in ids - {id};
    } else {
      SomeIdIsGreatest(ids - {id});
      var other :| other in ids - {id} && forall x | x in ids - {id} :: x <= other;
      var greatest := if id < other then other else id;
      assert forall x | x in ids :: x == id || x in ids - {id};
      assert greatest in ids && forall x | x in ids :: x <= greatest;
    }
  }

  /** The id SQLite gives a new row: one more than the greatest in use. */
  function NextRowId(rows: Rows): (next: int)
    ensures forall id | id in rows :: id < next
  {
    if rows.Keys == {} then 1
    else
      SomeIdIsGreatest(rows.Keys);
      var greatest :| greatest in rows.Keys && forall id | id in rows.Keys :: id <= greatest;
      greatest + 1
  }

  // ---------- recording ----------

  /** The row one execution leaves: a new one, or the old one with another run. */
  function Executed(rows: Rows, pair: Pair, now: int): (entry: HistoryEntry)
    requires Keyed(rows)
    ensures PairOf(entry) == pair && entry.lastRun == now
    ensures entry.id in rows <==> Has(rows, pair)
    ensures Has(rows, pair) ==> rows[entry.id].pinned == entry.pinned
  {
    if Has(rows, pair) then
      var known := rows[IdOf(rows, pair)];
      known.(runs := known.runs + 1, lastRun := now)
    else HistoryEntry(NextRowId(rows), pair.0, pair.1, now, now, 1, false, false)
  }

  function Upserted(rows: Rows, pair: Pair, now: int): (r: Rows)
    requires Keyed(rows)
    ensures Keyed(r)
  {
    var entry := Executed(rows, pair, now);
    rows[entry.id := entry]
  }

  /** The order rows are trimmed in. */
  predicate Older(a: HistoryEntry, b: HistoryEntry) {
    a.lastRun < b.lastRun || (a.lastRun == b.lastRun && a.id < b.id)
  }

  function OlderOf(rows: Rows, among: set<int>, id: int): (older: set<int>)
    requires id in rows && among <= rows.Keys
    ensures older <= among
  {
    set other | other in among && Older(rows[other], rows[id])
  }

  function Unpinned(rows: Rows): (ids: set<int>)
    ensures ids <= rows.Keys
  {
    set id | id in rows && !rows[id].pinned
  }

  function Pinned(rows: Rows): (ids: set<int>)
    ensures ids <= rows.Keys
  {
    set id | id in rows && rows[id].pinned
  }

  /** Whether a row is among the oldest excess unpinned ones. */
  predicate IsTrimmed(rows: Rows, excess: int, id: int)
    requires id in rows
  {
    !rows[id].pinned && |OlderOf(rows, Unpinned(rows), id)| < excess
  }

  function Trimmed(rows: Rows, cap: nat): (r: Rows)
    ensures r.Keys <= rows.Keys && forall id | id in r :: r[id] == rows[id]
  {
    map id | id in rows && !IsTrimmed(rows, |rows| - cap, id) :: rows[id]
  }

  function Recorded(rows: Rows, cap: nat, pair: Pair, now: int): (r: Rows)
    requires Keyed(rows)
    ensures Keyed(r)
  {
    Trimmed(Upserted(rows, pair, now), cap)
  }

  // ---------- what trimming keeps and drops ----------

  ghost predicate KeyedByIds(rows: Rows) {
    forall id | id in rows :: rows[id].id == id
  }

  function OldestOf(rows: Rows, among: set<int>, excess: int): (oldest: set<int>)
    requires among <= rows.Keys
    ensures oldest <= among
  {
    set id | id in among && |OlderOf(rows, among, id)| < excess
  }

  /** Of any rows, exactly as many as asked are among that many oldest. */
  lemma {:induction false} OldestAreCounted(rows: Rows, among: set<int>, excess: nat)
    requires KeyedByIds(rows) && among <= rows.Keys
    ensures |OldestOf(rows, among, excess)| == if excess < |among| then excess else |among|
  {
    if among == {} {
      assert OldestOf(rows, among, excess) == {};
    } else {
      var newest := Newest(rows, among);
      var rest := among - {newest};
      OldestAreCounted(rows, rest, excess);
      NewestGoesLast(rows, among, newest, excess);
    }
  }

  lemma NewestGoesLast(rows: Rows, among: set<int>, newest: int, excess: nat)
    requires KeyedByIds(rows) && among <= rows.Keys && newest in among
    requires forall id | id in among && id != newest :: Older(rows[id], rows[newest])
    ensures var rest := among - {newest};
            OldestOf(rows, among, excess) == OldestOf(rows, rest, excess) + if |rest| < excess then {newest} else {}
  {
    NewestIsOlderThanNone(rows, among, newest);
    hide OlderOf;
  }

  lemma NewestIsOlderThanNone(rows: Rows, among: set<int>, newest: int)
    requires KeyedByIds(rows) && among <= rows.Keys && newest in among
    requires forall id | id in among && id != newest :: Older(rows[id], rows[newest])
    ensures OlderOf(rows, among, newest) == among - {newest}
    ensures forall id | id in among - {newest} :: OlderOf(rows, among, id) == OlderOf(rows, among - {newest}, id)
  {
    forall id | id in among - {newest} ensures OlderOf(rows, among, id) == OlderOf(rows, among - {newest}, id) {
      assert !Older(rows[newest], rows[id]);
    }
  }

  lemma {:induction false} Newest(rows: Rows, among: set<int>) returns (newest: int)
    requires KeyedByIds(rows) && among <= rows.Keys && among != {}
    ensures newest in among && forall id | id in among && id != newest :: Older(rows[id], rows[newest])
  {
    newest := AnyOf(among);
    var rest := among - {newest};
    assert forall id | id in among :: id == newest || id in rest;
    if rest != {} {
      var other := Newest(rows, rest);
      if Older(rows[newest], rows[other]) {
        newest := other;
      }
    }
  }

  /** Trimming leaves exactly the cap, or all pinned rows when those are more. */
  lemma TrimmedToTheCap(rows: Rows, cap: nat)
    requires KeyedByIds(rows)
    ensures |Trimmed(rows, cap)| ==
            if |rows| <= cap then |rows| else if |Pinned(rows)| < cap then cap else |Pinned(rows)|
  {
    var kept := Trimmed(rows, cap);
    var excess := |rows| - cap;
    assert Pinned(rows) + Unpinned(rows) == rows.Keys && Pinned(rows) !! Unpinned(rows);
    if excess <= 0 {
      assert kept == rows;
    } else {
      var gone := OldestOf(rows, Unpinned(rows), excess);
      OldestAreCounted(rows, Unpinned(rows), excess);
      assert kept.Keys == rows.Keys - gone;
      assert |rows| == |rows.Keys| && |kept| == |kept.Keys|;
    }
  }

  /** Only unpinned rows go, and every one that goes is older than every unpinned one that stays. */
  lemma TrimmingDropsTheOldest(rows: Rows, cap: nat, gone: int, kept: int)
    requires KeyedByIds(rows) && gone in rows && gone !in Trimmed(rows, cap)
    requires kept in Trimmed(rows, cap) && !rows[kept].pinned
    ensures !rows[gone].pinned && Older(rows[gone], rows[kept])
  {
    var unpinned := Unpinned(rows);
    if !Older(rows[gone], rows[kept]) {
      assert OlderOf(rows, unpinned, kept) <= OlderOf(rows, unpinned, gone);
      SubsetsAreSmaller(OlderOf(rows, unpinned, kept), OlderOf(rows, unpinned, gone));
      assert false;
    }
  }

  /** The command is pinned in the table. */
  predicate HasPinned(rows: Rows, pair: Pair) {
    exists id | id in rows :: PairOf(rows[id]) == pair && rows[id].pinned
  }

  /** An upsert pins and unpins nothing. */
  lemma UpsertKeepsPins(rows: Rows, pair: Pair, now: int)
    requires Keyed(rows)
    ensures Pinned(Upserted(rows, pair, now)) == Pinned(rows)
    ensures Executed(rows, pair, now).pinned <==> HasPinned(rows, pair)
  {
    var entry := Executed(rows, pair, now);
    assert forall id | id in rows && PairOf(rows[id]) == pair :: id == entry.id;
    forall id ensures id in Pinned(Upserted(rows, pair, now)) <==> id in Pinned(rows) {
    }
  }

  /** The unpinned rows of other commands that are trimmed only after the one an execution leaves. */
  function NewerThan(rows: Rows, pair: Pair, now: int): (ids: set<int>)
    requires Keyed(rows)
    ensures ids <= rows.Keys
  {
    set id | id in rows && !rows[id].pinned && Older(Executed(rows, pair, now), rows[id])
             && id != Executed(rows, pair, now).id
  }

  lemma NewerAndOlderAreTheOthers(rows: Rows, pair: Pair, now: int)
    requires Keyed(rows) && !HasPinned(rows, pair)
    ensures var entry, upserted := Executed(rows, pair, now), Upserted(rows, pair, now);
            |OlderOf(upserted, Unpinned(upserted), entry.id)| + |NewerThan(rows, pair, now)| + 1
            == |upserted| - |Pinned(rows)|
  {
    UpsertKeepsPins(rows, pair, now);
    var entry, upserted := Executed(rows, pair, now), Upserted(rows, pair, now);
    var unpinned := Unpinned(upserted);
    var older, newer := OlderOf(upserted, unpinned, entry.id), NewerThan(rows, pair, now);
    forall id ensures id in unpinned <==> id in older || id in newer || id == entry.id {
      UnpinnedIsOlderOrNewer(rows, pair, now, id);
    }
    assert older !! newer && entry.id !in older + newer;
    hide Executed, Upserted, OlderOf, NewerThan;
    PartsAreCounted(unpinned, older, newer, entry.id);
    PartsArePinnedOrNot(upserted);
  }

  lemma UnpinnedIsOlderOrNewer(rows: Rows, pair: Pair, now: int, id: int)
    requires Keyed(rows) && !HasPinned(rows, pair)
    ensures var entry, upserted := Executed(rows, pair, now), Upserted(rows, pair, now);
            && entry.id in Unpinned(upserted)
            && (id in Unpinned(upserted) <==>
                  || id in OlderOf(upserted, Unpinned(upserted), entry.id) || id in NewerThan(rows, pair, now)
                  || id == entry.id)
  {
    UpsertKeepsPins(rows, pair, now);
  }

  lemma PartsAreCounted(whole: set<int>, older: set<int>, newer: set<int>, one: int)
    requires forall id :: id in whole <==> id in older || id in newer || id == one
    requires older !! newer && one !in older + newer
    ensures |older| + |newer| + 1 == |whole|
  {
    assert forall id :: id in whole <==> id in older + newer + {one};
    assert whole == older + newer + {one};
  }

  lemma PartsArePinnedOrNot(rows: Rows)
    ensures |Pinned(rows)| + |Unpinned(rows)| == |rows|
  {
    assert Pinned(rows) + Unpinned(rows) == rows.Keys && Pinned(rows) !! Unpinned(rows);
    assert |rows| == |rows.Keys|;
  }

  /**
   Any execution survives its own trim exactly when its command is pinned already, or the pinned rows and those trimmed
   after it leave room; all of it can be seen in the table before.
   */
  lemma ExecutionSurvivesIfRoom(rows: Rows, cap: nat, pair: Pair, now: int)
    requires Keyed(rows)
    ensures Has(Recorded(rows, cap, pair, now), pair)
            <==> HasPinned(rows, pair) || |Pinned(rows)| + |NewerThan(rows, pair, now)| < cap
  {
    var entry := Executed(rows, pair, now);
    var upserted := Upserted(rows, pair, now);
    UpsertKeepsPins(rows, pair, now);
    if !entry.pinned {
      NewerAndOlderAreTheOthers(rows, pair, now);
    }
    hide Executed, OlderOf, Unpinned, HasPinned, NewerThan;
    var recorded := Recorded(rows, cap, pair, now);
    assert Has(recorded, pair) <==> entry.id in recorded by {
      assert entry.id in recorded ==> PairOf(recorded[entry.id]) == pair;
      assert forall id | id in recorded && PairOf(recorded[id]) == pair :: id == entry.id;
    }
  }

  /** A command that is run again in the second of a row that came after its own. */
  predicate Ties(rows: Rows, pair: Pair, now: int) {
    exists own, id | own in rows && id in rows :: PairOf(rows[own]) == pair && own < id && rows[id].lastRun == now
  }

  /** An execution no older than any other and without such a tie needs room beside the pinned rows only. */
  lemma NewestSurvivesIfRoom(rows: Rows, cap: nat, pair: Pair, now: int)
    requires Keyed(rows) && (forall id | id in rows :: rows[id].lastRun <= now) && !Ties(rows, pair, now)
    ensures Has(Recorded(rows, cap, pair, now), pair) <==> HasPinned(rows, pair) || |Pinned(rows)| < cap
  {
    ExecutionSurvivesIfRoom(rows, cap, pair, now);
    var entry := Executed(rows, pair, now);
    forall id | id in rows && id != entry.id ensures !Older(entry, rows[id]) {
      assert entry.id in rows ==> PairOf(rows[entry.id]) == pair;
    }
    assert NewerThan(rows, pair, now) == {};
  }

  const PINNED_ROW := HistoryEntry(1, "host", "a", 1, 1, 1, true, false)

  /** With a cap of one and one pinned row, a command just run is not in the history. */
  lemma NewestIsDropped()
    ensures !Has(Recorded(map[1 := PINNED_ROW], 1, ("host", "b"), 2), ("host", "b"))
  {
    var rows: Rows := map[1 := PINNED_ROW];
    assert Pinned(rows) == {1};
    NewestSurvivesIfRoom(rows, 1, ("host", "b"), 2);
  }

  // ---------- any mix of operations ----------

  datatype Operation =
    | Record(pair: Pair, now: int)
    | SetFlags(id: int, newPinned: Option<bool>, newFavorite: Option<bool>)
    | Delete(ids: seq<int>)
    | Clear

  function Coalesce(flag: Option<bool>, stored: bool): bool {
    match flag case Some(value) => value case None => stored
  }

  function Flagged(rows: Rows, id: int, pinned: Option<bool>, favorite: Option<bool>): Rows {
    if id in rows then
      rows[id := rows[id].(
        pinned := Coalesce(pinned, rows[id].pinned), favorite := Coalesce(favorite, rows[id].favorite))]
    else rows
  }

  function Without(rows: Rows, ids: seq<int>): Rows {
    map id | id in rows && id !in ids :: rows[id]
  }

  function Applied(rows: Rows, cap: nat, operation: Operation): (r: Rows)
    requires Keyed(rows)
    ensures Keyed(r)
  {
    match operation
    case Record(pair, now) => Recorded(rows, cap, pair, now)
    case SetFlags(id, pinned, favorite) => Flagged(rows, id, pinned, favorite)
    case Delete(ids) => Without(rows, ids)
    case Clear => map[]
  }

  function Run(cap: nat, operations: seq<Operation>): (r: Rows)
    ensures Keyed(r)
  {
    if operations == [] then map[]
    else Applied(Run(cap, operations[..|operations| - 1]), cap, operations[|operations| - 1])
  }

  /**
   In any run of recording, flagging, deleting and clearing: after every recorded execution the table holds at
   most the cap or the pinned rows, lost no pinned row, and lost only rows older than every unpinned one it kept.
   */
  lemma EveryRecordingTrims(cap: nat, operations: seq<Operation>, pair: Pair, now: int)
    ensures var before := Run(cap, operations);
            var upserted, after := Upserted(before, pair, now), Run(cap, operations + [Record(pair, now)]);
            && Keyed(after)
            && (|after| <= cap || |after| == |Pinned(after)|)
            && Pinned(after) == Pinned(upserted)
            && (forall id | id in before && before[id].pinned :: id in after && after[id].pinned)
            && (forall gone, kept |
                  gone in upserted && gone !in after && kept in after && !after[kept].pinned ::
                    !upserted[gone].pinned && Older(upserted[gone], after[kept]))
  {
    var before := Run(cap, operations);
    assert (operations + [Record(pair, now)])[..|operations|] == operations;
    hide Run, Upserted, Executed;
    UpsertKeepsPins(before, pair, now);
    UpsertKeepsRows(before, pair, now);
    TrimKeepsPins(Upserted(before, pair, now), cap);
  }

  lemma UpsertKeepsRows(rows: Rows, pair: Pair, now: int)
    requires Keyed(rows)
    ensures forall id | id in rows ::
            id in Upserted(rows, pair, now) && Upserted(rows, pair, now)[id].pinned == rows[id].pinned
  {
  }

  lemma TrimKeepsPins(rows: Rows, cap: nat)
    requires KeyedByIds(rows)
    ensures var after := Trimmed(rows, cap);
            && (|after| <= cap || |after| == |Pinned(after)|)
            && Pinned(after) == Pinned(rows)
            && (forall id | id in rows && rows[id].pinned :: id in after && after[id].pinned)
            && (forall gone, kept | gone in rows && gone !in after && kept in after && !after[kept].pinned ::
                  !rows[gone].pinned && Older(rows[gone], after[kept]))
  {
    var after := Trimmed(rows, cap);
    TrimmedToTheCap(rows, cap);
    assert Pinned(after) == Pinned(rows);
    forall gone, kept | gone in rows && gone !in after && kept in after && !after[kept].pinned
      ensures !rows[gone].pinned && Older(rows[gone], after[kept])
    {
      TrimmingDropsTheOldest(rows, cap, gone, kept);
    }
  }

  /** The table behind the store, in the form the strand's handlers update it. */
  class HistoryTable {
    var rows: Rows
    const cap: nat

    ghost predicate Valid()
      reads this
    {
      Keyed(rows)
    }

    constructor (cap: nat)
      ensures Valid() && this.cap == cap && rows == map[]
    {
      this.cap, rows := cap, map[];
    }

    /** Deletes the oldest unpinned rows beyond the cap. */
    method TrimHistory()
      requires Valid()
      modifies this
      ensures Valid() && rows == Trimmed(old(rows), cap)
    {
      var excess := |rows| - cap;
      if excess <= 0 {
        assert Trimmed(rows, cap) == rows;
        return;
      }
      rows := map id | id in rows && !IsTrimmed(rows, excess, id) :: rows[id];
    }

    /** Records one execution; the returned entry is the row as stored before the trim. */
    method RecordExecution(host: string, command: string, now: int) returns (entry: HistoryEntry)
      requires Valid()
      modifies this
      ensures Valid() && rows == Recorded(old(rows), cap, (host, command), now)
      ensures entry == Executed(old(rows), (host, command), now)
    {
      entry := Executed(rows, (host, command), now);
      rows := rows[entry.id := entry];
      TrimHistory();
    }

    /** Sets the given flags; fails when there is no such row. */
    method SetHistoryFlags(id: int, pinned: Option<bool>, favorite: Option<bool>) returns (changed: bool)
      requires Valid()
      modifies this
      ensures Valid() && rows == Flagged(old(rows), id, pinned, favorite) && changed == (id in old(rows))
    {
      changed := id in rows;
      if changed {
        rows := rows[id := rows[id].(
          pinned := Coalesce(pinned, rows[id].pinned), favorite := Coalesce(favorite, rows[id].favorite))];
      }
    }

    /** Deletes the rows with the given ids; unknown ids are ignored. */
    method DeleteHistory(ids: seq<int>)
      requires Valid()
      modifies this
      ensures Valid() && rows == Without(old(rows), ids)
    {
      assert Without(rows, ids[..0]) == rows;
      for i := 0 to |ids|
        invariant rows == Without(old(rows), ids[..i])
      {
        assert ids[..i + 1] == ids[..i] + [ids[i]];
        rows := map id | id in rows && id != ids[i] :: rows[id];
      }
      assert ids[..|ids|] == ids;
    }

    method ClearHistory()
      modifies this
      ensures Valid() && rows == map[]
    {
      rows := map[];
    }
  }
}
