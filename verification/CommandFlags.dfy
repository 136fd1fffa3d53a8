/**
 What each operation does to the rows of the history, and that a row is pinned or a favorite exactly when it was last
 set so.
 */
module CommandFlags {
  import opened Wrappers
  import opened CommandHistory

  /** What one operation leaves of the rows, field by field. */
  lemma OperationsMean(rows: Rows, cap: nat, operation: Operation, id: int)
    requires Keyed(rows)
    ensures var after := Applied(rows, cap, operation);
            match operation
            case Record(pair, now) =>
              id in after ==>
                if id in rows then
                  && after[id].pinned == rows[id].pinned && after[id].favorite == rows[id].favorite
                  && PairOf(after[id]) == PairOf(rows[id]) && after[id].firstRun == rows[id].firstRun
                  && (if PairOf(rows[id]) == pair then after[id].runs == rows[id].runs + 1 && after[id].lastRun == now
                      else after[id].runs == rows[id].runs && after[id].lastRun == rows[id].lastRun)
                else
                  && PairOf(after[id]) == pair && !after[id].pinned && !after[id].favorite
                  && after[id].runs == 1 && after[id].firstRun == after[id].lastRun == now
            case SetFlags(changed, pinned, favorite) =>
              && (id in after <==> id in rows)
              && (id in rows ==>
                    && PairOf(after[id]) == PairOf(rows[id]) && after[id].runs == rows[id].runs
                    && after[id].firstRun == rows[id].firstRun && after[id].lastRun == rows[id].lastRun
                    && after[id].pinned == (if id == changed && pinned.Some? then pinned.value else rows[id].pinned)
                    && after[id].favorite
                       == (if id == changed && favorite.Some? then favorite.value else rows[id].favorite))
            case Delete(ids) => (id in after <==> id in rows && id !in ids) && (id in after ==> after[id] == rows[id])
            case Clear => id !in after
  {
    hide IsTrimmed;
  }

  // ---------- flags over runs ----------

  datatype Flag = Pin | Favorite

  function FlagOf(row: HistoryEntry, flag: Flag): bool {
    match flag case Pin => row.pinned case Favorite => row.favorite
  }

  /** The operation sets the flag of the row. */
  predicate Sets(operation: Operation, id: int, flag: Flag, value: bool) {
    && operation.SetFlags? && operation.id == id
    && match flag case Pin => operation.newPinned == Some(value) case Favorite => operation.newFavorite == Some(value)
  }

  /** The flag was set while the row was there, which it is since, and was not taken back. */
  ghost predicate WasSet(cap: nat, operations: seq<Operation>, id: int, flag: Flag) {
    exists k | 0 <= k < |operations| ::
      && Sets(operations[k], id, flag, true)
      && (forall m | k <= m <= |operations| :: id in Run(cap, operations[..m]))
      && (forall m | k < m < |operations| :: !Sets(operations[m], id, flag, false))
  }

  lemma OneOperationMore(cap: nat, operations: seq<Operation>, last: Operation, id: int, flag: Flag)
    requires id in Run(cap, operations + [last])
    ensures WasSet(cap, operations + [last], id, flag) <==>
            && id in Run(cap, operations)
            && (Sets(last, id, flag, true) || (WasSet(cap, operations, id, flag) && !Sets(last, id, flag, false)))
  {
    hide Sets, Run;
    var longer := operations + [last];
    assert longer[..|operations|] == operations && longer[..|longer|] == longer && longer[|operations|] == last;
    assert forall m | 0 <= m <= |operations| :: longer[..m] == operations[..m];
    if WasSet(cap, operations, id, flag) && !Sets(last, id, flag, false) {
      var k :| 0 <= k < |operations| && Sets(operations[k], id, flag, true)
               && (forall m | k <= m <= |operations| :: id in Run(cap, operations[..m]))
               && (forall m | k < m < |operations| :: !Sets(operations[m], id, flag, false));
      assert operations[..|operations|] == operations;
      StillSet(cap, operations, last, id, flag, k);
    }
    if id in Run(cap, operations) && Sets(last, id, flag, true) {
      assert Sets(longer[|operations|], id, flag, true);
    }
    if WasSet(cap, longer, id, flag) {
      var k :| 0 <= k < |longer| && Sets(longer[k], id, flag, true)
               && (forall m | k <= m <= |longer| :: id in Run(cap, longer[..m]))
               && (forall m | k < m < |longer| :: !Sets(longer[m], id, flag, false));
      assert id in Run(cap, longer[..|operations|]);
      if k < |operations| {
        WasSetBefore(cap, operations, last, id, flag, k);
      }
    }
  }

  lemma StillSet(cap: nat, operations: seq<Operation>, last: Operation, id: int, flag: Flag, k: nat)
    requires k < |operations| && Sets(operations[k], id, flag, true) && !Sets(last, id, flag, false)
    requires forall m | k <= m <= |operations| :: id in Run(cap, operations[..m])
    requires forall m | k < m < |operations| :: !Sets(operations[m], id, flag, false)
    requires id in Run(cap, operations + [last])
    ensures WasSet(cap, operations + [last], id, flag)
  {
    hide Sets, Run;
    var longer := operations + [last];
    assert Sets(longer[k], id, flag, true);
    forall m | k <= m <= |longer| ensures id in Run(cap, longer[..m]) {
      assert longer[..m] == if m <= |operations| then operations[..m] else longer;
    }
    forall m | k < m < |longer| ensures !Sets(longer[m], id, flag, false) {
      assert m < |operations| ==> longer[m] == operations[m];
    }
  }

  lemma WasSetBefore(cap: nat, operations: seq<Operation>, last: Operation, id: int, flag: Flag, k: nat)
    requires var longer := operations + [last];
             && k < |operations| && Sets(longer[k], id, flag, true)
             && (forall m | k <= m <= |longer| :: id in Run(cap, longer[..m]))
             && (forall m | k < m < |longer| :: !Sets(longer[m], id, flag, false))
    ensures WasSet(cap, operations, id, flag) && !Sets(last, id, flag, false)
  {
    hide Sets, Run;
    var longer := operations + [last];
    assert longer[|operations|] == last && longer[k] == operations[k];
    forall m | k <= m <= |operations| ensures id in Run(cap, operations[..m]) {
      assert longer[..m] == operations[..m];
    }
    forall m | k < m < |operations| ensures !Sets(operations[m], id, flag, false) {
      assert longer[m] == operations[m];
    }
  }

  /**
   In any run of recording, flagging, deleting and clearing a row is pinned, or a favorite, exactly when it was set so
   since it is there and not taken back: nothing else sets a flag, and nothing loses one.
   */
  lemma {:induction false} FlagsAreAsSet(cap: nat, operations: seq<Operation>, id: int, flag: Flag)
    requires id in Run(cap, operations)
    ensures FlagOf(Run(cap, operations)[id], flag) <==> WasSet(cap, operations, id, flag)
  {
    var front, last := operations[..|operations| - 1], operations[|operations| - 1];
    assert front + [last] == operations;
    OneOperationMore(cap, front, last, id, flag);
    OperationsMean(Run(cap, front), cap, last, id);
    hide WasSet, Applied;
    if id in Run(cap, front) {
      FlagsAreAsSet(cap, front, id, flag);
    }
  }
}
