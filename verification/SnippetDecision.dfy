/**
 What every decision of every plan keeps, whatever the user answers: where its entries come from, that no two
 of them overwrite one stored snippet, and which of them end up favorite.
 */
module SnippetDecision {
  import opened Wrappers
  import opened CommandTypes
  import opened SnippetImportPlan

  /** Stored ids are set and unique. */
  ghost predicate UniqueIds(stored: seq<Snippet>) {
    && (forall s | s in stored :: s.id != "")
    && (forall a, b | a in stored && b in stored && a.id == b.id :: a == b)
  }

  /** The entry without its favorite mark. */
  function Unmarked(entry: ImportEntry): ImportEntry {
    entry.(snippet := entry.snippet.(favorite := false))
  }

  predicate Produces(planned: PlannedSnippet, resolution: Resolution) {
    planned.status != Identical && !Skips(planned, resolution)
  }

  /** The favorite mark an entry has from its own snippet and the stored one it matches. */
  predicate OwnFavorite(planned: PlannedSnippet, resolution: Resolution) {
    planned.status == Identical || EntryFor(planned, resolution).snippet.favorite
  }

  /** The entry a planned snippet leads to, its favorite mark left open. */
  ghost predicate StemsFrom(entry: ImportEntry, planned: PlannedSnippet, resolution: Resolution) {
    && (OwnFavorite(planned, resolution) ==> entry.snippet.favorite)
    && if planned.status == Identical
       then planned.existing.Some? && !planned.existing.value.favorite && entry == FavoriteOnly(planned)
       else Produces(planned, resolution) && Unmarked(entry) == Unmarked(EntryFor(planned, resolution))
  }

  /** Entries and planned snippets that produced one correspond one to one, in document order. */
  ghost predicate Traced(plan: ImportPlan, resolutionOf: nat -> Resolution, s: Deciding, n: nat)
    requires n <= |plan.snippets|
  {
    var entries := s.decision.entries;
    && |s.entryOf| == |plan.snippets| && |s.origins| == |entries|
    && (forall a, b | 0 <= a < b < |s.origins| :: s.origins[a] < s.origins[b])
    && (forall k | 0 <= k < |s.origins| :: s.origins[k] < n && s.entryOf[s.origins[k]] == Some(k))
    && (forall i | 0 <= i < |s.entryOf| && s.entryOf[i].Some? ::
          i < n && s.entryOf[i].value < |entries| && s.origins[s.entryOf[i].value] == i)
    && (forall k | 0 <= k < |entries| :: StemsFrom(entries[k], plan.snippets[s.origins[k]], resolutionOf(s.origins[k])))
    && (forall i | 0 <= i < n && Produces(plan.snippets[i], resolutionOf(i)) :: s.entryOf[i].Some?)
  }

  lemma PushKeepsTrace(plan: ImportPlan, resolutionOf: nat -> Resolution, s: Deciding, n: nat, entry: ImportEntry)
    requires n < |plan.snippets| && Traced(plan, resolutionOf, s, n)
    requires StemsFrom(entry, plan.snippets[n], resolutionOf(n))
    ensures Traced(plan, resolutionOf, Push(s, n, entry), n + 1)
  {
  }

  lemma MarkKeepsTrace(plan: ImportPlan, resolutionOf: nat -> Resolution, s: Deciding, n: nat, k: nat)
    requires n <= |plan.snippets| && Traced(plan, resolutionOf, s, n) && k < |s.decision.entries|
    ensures Traced(plan, resolutionOf, Marked(s, k), n)
  {
  }

  lemma PassingKeepsTrace(plan: ImportPlan, resolutionOf: nat -> Resolution, s: Deciding, n: nat)
    requires n < |plan.snippets| && Traced(plan, resolutionOf, s, n)
    requires !Produces(plan.snippets[n], resolutionOf(n))
    ensures Traced(plan, resolutionOf, s, n + 1)
  {
  }

  function Counted(s: Deciding): Deciding {
    s.(decision := s.decision.(skipped := s.decision.skipped + 1))
  }

  function Marked(s: Deciding, k: nat): Deciding
    requires k < |s.decision.entries|
  {
    s.(decision := s.decision.(entries := MarkFavorite(s.decision.entries, k)))
  }

  datatype Merge = Nothing | Mark(k: nat) | Add

  /** What merging an identical pasted favorite does. */
  function MergeOf(plan: ImportPlan, s: Deciding, i: nat): (m: Merge)
    requires WellFormed(plan) && i < |plan.snippets| && InRange(plan, s.entryOf, s.decision.entries)
    ensures m.Nothing? ==> MergeStep(plan, s, i) == s
    ensures m.Mark? ==> m.k < |s.decision.entries| && MergeStep(plan, s, i) == Marked(s, m.k)
    ensures m.Add? ==> && plan.snippets[i].existing.Some? && !plan.snippets[i].existing.value.favorite
                       && plan.snippets[i].snippet.favorite
                       && FirstReplacing(s.decision.entries, plan.snippets[i].existing.value.id) == |s.decision.entries|
                       && MergeStep(plan, s, i) == Push(s, i, FavoriteOnly(plan.snippets[i]))
  {
    var planned := plan.snippets[i];
    var entries := s.decision.entries;
    if !planned.snippet.favorite then Nothing
    else if planned.earlierEntry.Some? && s.entryOf[planned.earlierEntry.value].Some? then
      Mark(s.entryOf[planned.earlierEntry.value].value)
    else if planned.existing.None? || planned.existing.value.favorite then Nothing
    else
      var written := FirstReplacing(entries, planned.existing.value.id);
      if written < |entries| then Mark(written) else Add
  }

  lemma {:induction false} EveryEntryIsTraced(plan: ImportPlan, resolutionOf: nat -> Resolution, n: nat)
    requires WellFormed(plan) && n <= |plan.snippets|
    ensures Traced(plan, resolutionOf, DecideUpTo(plan, resolutionOf, n), n)
  {
    hide DecideStep, Traced;
    if n == 0 {
      NothingIsTraced(plan, resolutionOf);
    } else {
      EveryEntryIsTraced(plan, resolutionOf, n - 1);
      StepKeepsTrace(plan, resolutionOf, DecideUpTo(plan, resolutionOf, n - 1), n - 1);
    }
  }

  lemma NothingIsTraced(plan: ImportPlan, resolutionOf: nat -> Resolution)
    requires WellFormed(plan)
    ensures Traced(plan, resolutionOf, DecideUpTo(plan, resolutionOf, 0), 0)
  {
  }

  lemma StepKeepsTrace(plan: ImportPlan, resolutionOf: nat -> Resolution, s: Deciding, n: nat)
    requires WellFormed(plan) && n < |plan.snippets| && Traced(plan, resolutionOf, s, n)
    ensures Traced(plan, resolutionOf, DecideStep(plan, resolutionOf, s, n), n + 1)
  {
    var planned := plan.snippets[n];
    if planned.status == Identical {
      CountingKeepsTrace(plan, resolutionOf, s, n);
      var counted := Counted(s);
      match MergeOf(plan, counted, n)
      case Nothing => PassingKeepsTrace(plan, resolutionOf, counted, n);
      case Mark(k) =>
        MarkKeepsTrace(plan, resolutionOf, counted, n, k);
        PassingKeepsTrace(plan, resolutionOf, Marked(counted, k), n);
      case Add => PushKeepsTrace(plan, resolutionOf, counted, n, FavoriteOnly(planned));
    } else if Skips(planned, resolutionOf(n)) {
      CountingKeepsTrace(plan, resolutionOf, s, n);
      PassingKeepsTrace(plan, resolutionOf, Counted(s), n);
    } else {
      var pushed := Push(s, n, EntryFor(planned, resolutionOf(n)));
      PushKeepsTrace(plan, resolutionOf, s, n, EntryFor(planned, resolutionOf(n)));
      OnlyEntriesMatter(plan, resolutionOf, pushed, DecideStep(plan, resolutionOf, s, n), n + 1);
    }
  }

  lemma OnlyEntriesMatter(plan: ImportPlan, resolutionOf: nat -> Resolution, s: Deciding, t: Deciding, n: nat)
    requires n <= |plan.snippets| && Traced(plan, resolutionOf, s, n)
    requires s.decision.entries == t.decision.entries && s.entryOf == t.entryOf && s.origins == t.origins
    ensures Traced(plan, resolutionOf, t, n)
  {
  }

  lemma CountingKeepsTrace(plan: ImportPlan, resolutionOf: nat -> Resolution, s: Deciding, n: nat)
    requires n <= |plan.snippets| && Traced(plan, resolutionOf, s, n)
    ensures Traced(plan, resolutionOf, Counted(s), n)
  {
    OnlyEntriesMatter(plan, resolutionOf, s, Counted(s), n);
  }

  // ---------- counting ----------

  function Adds(entries: seq<ImportEntry>): nat {
    if entries == [] then 0
    else Adds(entries[..|entries| - 1]) + if entries[|entries| - 1].replacing == "" then 1 else 0
  }

  lemma {:induction false} MarkingAddsNothing(entries: seq<ImportEntry>, k: nat)
    requires k < |entries|
    ensures Adds(MarkFavorite(entries, k)) == Adds(entries)
  {
    var last := |entries| - 1;
    var marked := MarkFavorite(entries, k);
    if k == last {
      assert marked[..last] == entries[..last];
    } else {
      assert marked[..last] == MarkFavorite(entries[..last], k);
      MarkingAddsNothing(entries[..last], k);
    }
  }

  lemma PushedAdds(entries: seq<ImportEntry>, entry: ImportEntry)
    ensures Adds(entries + [entry]) == Adds(entries) + if entry.replacing == "" then 1 else 0
  {
    assert (entries + [entry])[..|entries|] == entries;
  }

  ghost predicate ExistingIdsAreSet(plan: ImportPlan) {
    forall i | 0 <= i < |plan.snippets| && plan.snippets[i].existing.Some? :: plan.snippets[i].existing.value.id != ""
  }

  /** Every pasted snippet is counted once, and added counts exactly the entries that add a row. */
  lemma {:induction false} EverySnippetIsCounted(plan: ImportPlan, resolutionOf: nat -> Resolution, n: nat)
    requires WellFormed(plan) && n <= |plan.snippets| && ExistingIdsAreSet(plan)
    ensures var d := DecideUpTo(plan, resolutionOf, n).decision;
            d.added + d.replaced + d.skipped == n && d.added == Adds(d.entries)
  {
    if n > 0 {
      EverySnippetIsCounted(plan, resolutionOf, n - 1);
      var s := DecideUpTo(plan, resolutionOf, n - 1);
      var planned := plan.snippets[n - 1];
      if planned.status == Identical {
        var counted := Counted(s);
        match MergeOf(plan, counted, n - 1)
        case Nothing =>
        case Mark(k) => MarkingAddsNothing(counted.decision.entries, k);
        case Add => PushedAdds(counted.decision.entries, FavoriteOnly(planned));
      } else if !Skips(planned, resolutionOf(n - 1)) {
        PushedAdds(s.decision.entries, EntryFor(planned, resolutionOf(n - 1)));
      }
    }
  }

  // ---------- overwriting ----------

  /** The only key under which a stored snippet can be matched. */
  function StoredKey(stored: Snippet, folders: seq<SnippetFolder>): Key {
    ("id:" + EffectiveFolder(stored, folders), stored.name)
  }

  /** Two pasted snippets that match the same stored one have one key, so the later knows the earlier. */
  lemma MatchesShareTheKey(
    pasted: seq<TransferSnippet>, stored: seq<Snippet>, folders: seq<SnippetFolder>, target: Target, a: nat, b: nat
  )
    requires a < b < |pasted|
    requires var pa, pb := PlannedAt(pasted, stored, folders, target, a), PlannedAt(pasted, stored, folders, target, b);
             pa.existing.Some? && pa.existing == pb.existing
    ensures PlannedAt(pasted, stored, folders, target, b).earlierEntry.Some?
  {
    PlannedSnippetIsThePasted(pasted, stored, folders, target, a);
    PlannedSnippetIsThePasted(pasted, stored, folders, target, b);
    var existing := PlannedAt(pasted, stored, folders, target, a).existing.value;
    assert KeyOf(pasted[a], folders, target) == StoredKey(existing, folders) == KeyOf(pasted[b], folders, target);
  }

  lemma PlansAreWellFormed(
    pasted: seq<TransferSnippet>, stored: seq<Snippet>, folders: seq<SnippetFolder>, target: Target
  )
    requires UniqueIds(stored)
    ensures WellFormed(PlanOf(pasted, stored, folders, target))
    ensures ExistingIdsAreSet(PlanOf(pasted, stored, folders, target))
  {
    var plan := PlanOf(pasted, stored, folders, target);
    forall i | 0 <= i < |plan.snippets| && plan.snippets[i].existing.Some?
      ensures plan.snippets[i].existing.value.id != ""
    {
      PlannedSnippetIsThePasted(pasted, stored, folders, target, i);
    }
  }

  /** The stored snippet an overwriting entry overwrites is the one its pasted snippet matched. */
  lemma OverwritesItsMatch(plan: ImportPlan, resolutionOf: nat -> Resolution, s: Deciding, n: nat, k: nat)
    requires n <= |plan.snippets| && Traced(plan, resolutionOf, s, n)
    requires k < |s.decision.entries| && s.decision.entries[k].replacing != ""
    ensures var planned := plan.snippets[s.origins[k]];
            && planned.existing.Some? && planned.existing.value.id == s.decision.entries[k].replacing
            && (planned.status == Identical || Replaces(planned, resolutionOf(s.origins[k])))
  {
    var planned := plan.snippets[s.origins[k]];
    if planned.status != Identical {
      assert Unmarked(s.decision.entries[k]).replacing == EntryFor(planned, resolutionOf(s.origins[k])).replacing;
    }
  }

  ghost predicate NoCollision(entries: seq<ImportEntry>) {
    forall a, b | 0 <= a < b < |entries| && entries[a].replacing != "" :: entries[a].replacing != entries[b].replacing
  }

  /** A pasted snippet that may replace its match comes before all others that match it. */
  lemma ReplacingIsFirst(
    pasted: seq<TransferSnippet>, stored: seq<Snippet>, folders: seq<SnippetFolder>, target: Target,
    resolutionOf: nat -> Resolution, s: Deciding, n: nat
  )
    requires UniqueIds(stored) && n < |pasted| && Traced(PlanOf(pasted, stored, folders, target), resolutionOf, s, n)
    requires Replaces(PlannedAt(pasted, stored, folders, target, n), resolutionOf(n))
    ensures forall k | 0 <= k < |s.decision.entries| && s.decision.entries[k].replacing != "" ::
              s.decision.entries[k].replacing != PlannedAt(pasted, stored, folders, target, n).existing.value.id
  {
    var plan := PlanOf(pasted, stored, folders, target);
    forall k | 0 <= k < |s.decision.entries| && s.decision.entries[k].replacing != ""
      ensures s.decision.entries[k].replacing != PlannedAt(pasted, stored, folders, target, n).existing.value.id
    {
      OverwritesItsMatch(plan, resolutionOf, s, n, k);
      PlannedSnippetIsThePasted(pasted, stored, folders, target, s.origins[k]);
      PlannedSnippetIsThePasted(pasted, stored, folders, target, n);
      if s.decision.entries[k].replacing == PlannedAt(pasted, stored, folders, target, n).existing.value.id {
        MatchesShareTheKey(pasted, stored, folders, target, s.origins[k], n);
      }
    }
  }

  /** No two entries of a decision overwrite the same stored snippet, whatever the answers. */
  lemma {:induction false} OverwritesNeverCollide(
    pasted: seq<TransferSnippet>, stored: seq<Snippet>, folders: seq<SnippetFolder>, target: Target,
    resolutionOf: nat -> Resolution, n: nat
  )
    requires UniqueIds(stored) && n <= |pasted| && WellFormed(PlanOf(pasted, stored, folders, target))
    ensures NoCollision(DecideUpTo(PlanOf(pasted, stored, folders, target), resolutionOf, n).decision.entries)
  {
    hide DecideStep, PlannedAt, Traced;
    if n > 0 {
      var plan := PlanOf(pasted, stored, folders, target);
      OverwritesNeverCollide(pasted, stored, folders, target, resolutionOf, n - 1);
      EveryEntryIsTraced(plan, resolutionOf, n - 1);
      StepCollidesNever(pasted, stored, folders, target, resolutionOf, DecideUpTo(plan, resolutionOf, n - 1), n - 1);
    }
  }

  lemma StepCollidesNever(
    pasted: seq<TransferSnippet>, stored: seq<Snippet>, folders: seq<SnippetFolder>, target: Target,
    resolutionOf: nat -> Resolution, s: Deciding, n: nat
  )
    requires UniqueIds(stored) && n < |pasted| && WellFormed(PlanOf(pasted, stored, folders, target))
    requires Traced(PlanOf(pasted, stored, folders, target), resolutionOf, s, n) && NoCollision(s.decision.entries)
    requires InRange(PlanOf(pasted, stored, folders, target), s.entryOf, s.decision.entries)
    ensures NoCollision(DecideStep(PlanOf(pasted, stored, folders, target), resolutionOf, s, n).decision.entries)
  {
    hide PlannedAt, MergeStep, Traced;
    var plan := PlanOf(pasted, stored, folders, target);
    var planned := plan.snippets[n];
    if planned.status == Identical {
      match MergeOf(plan, Counted(s), n)
      case Nothing =>
      case Mark(k) =>
      case Add =>
    } else if Replaces(planned, resolutionOf(n)) {
      ReplacingIsFirst(pasted, stored, folders, target, resolutionOf, s, n);
    }
  }

  /** An entry that overwrites a stored favorite is a favorite. */
  lemma DecisionsNeverUnfavorite(
    pasted: seq<TransferSnippet>, stored: seq<Snippet>, folders: seq<SnippetFolder>, target: Target,
    resolutionOf: nat -> Resolution, k: nat, overwritten: Snippet
  )
    requires UniqueIds(stored) && WellFormed(PlanOf(pasted, stored, folders, target))
    requires k < |DecisionOf(PlanOf(pasted, stored, folders, target), resolutionOf).entries|
    requires overwritten in stored && overwritten.favorite
    requires DecisionOf(PlanOf(pasted, stored, folders, target), resolutionOf).entries[k].replacing == overwritten.id
    ensures DecisionOf(PlanOf(pasted, stored, folders, target), resolutionOf).entries[k].snippet.favorite
  {
    var plan := PlanOf(pasted, stored, folders, target);
    var n := |plan.snippets|;
    EveryEntryIsTraced(plan, resolutionOf, n);
    var s := DecideUpTo(plan, resolutionOf, n);
    OverwritesItsMatch(plan, resolutionOf, s, n, k);
    PlannedSnippetIsThePasted(pasted, stored, folders, target, s.origins[k]);
    assert plan.snippets[s.origins[k]].existing.value == overwritten;
  }

  // ---------- favorites ----------

  /** Snippet i is an identical favorite that passes its mark on to entry k. */
  ghost predicate Marks(plan: ImportPlan, s: Deciding, i: nat, k: nat)
    requires i < |plan.snippets| && |s.entryOf| == |plan.snippets| && k < |s.decision.entries| && WellFormed(plan)
  {
    var planned := plan.snippets[i];
    && planned.status == Identical && planned.snippet.favorite
    && if planned.earlierEntry.Some? && s.entryOf[planned.earlierEntry.value].Some?
       then s.entryOf[planned.earlierEntry.value] == Some(k)
       else planned.existing.Some? && !planned.existing.value.favorite
            && s.decision.entries[k].replacing == planned.existing.value.id
  }

  /** Entry k is favorite exactly when its own snippet, its stored match or an absorbed snippet is. */
  ghost predicate FavoriteExplained(plan: ImportPlan, resolutionOf: nat -> Resolution, s: Deciding, n: nat, k: nat)
    requires n <= |plan.snippets| && WellFormed(plan)
    requires |s.entryOf| == |plan.snippets| && k < |s.decision.entries| && k < |s.origins|
             && s.origins[k] < |plan.snippets|
  {
    s.decision.entries[k].snippet.favorite <==>
      OwnFavorite(plan.snippets[s.origins[k]], resolutionOf(s.origins[k]))
      || exists i: nat | i < n :: Marks(plan, s, i, k)
  }

  ghost predicate FavoritesExplained(plan: ImportPlan, resolutionOf: nat -> Resolution, s: Deciding, n: nat)
    requires n <= |plan.snippets| && WellFormed(plan) && Traced(plan, resolutionOf, s, n)
  {
    forall k | 0 <= k < |s.decision.entries| :: FavoriteExplained(plan, resolutionOf, s, n, k)
  }

  ghost predicate EarlierIsEarlier(plan: ImportPlan) {
    forall i | 0 <= i < |plan.snippets| ::
      plan.snippets[i].earlierEntry.Some? ==> plan.snippets[i].earlierEntry.value < i
  }

  lemma PushKeepsMarks(
    plan: ImportPlan, resolutionOf: nat -> Resolution, s: Deciding, n: nat, entry: ImportEntry, i: nat, k: nat
  )
    requires WellFormed(plan) && EarlierIsEarlier(plan) && n < |plan.snippets| && Traced(plan, resolutionOf, s, n)
    requires i <= n && k < |s.decision.entries|
    ensures Marks(plan, Push(s, n, entry), i, k) == Marks(plan, s, i, k)
  {
    assert s.entryOf[n].None?;
  }

  lemma MarkKeepsMarks(
    plan: ImportPlan, resolutionOf: nat -> Resolution, s: Deciding, n: nat, marked: nat, i: nat, k: nat
  )
    requires WellFormed(plan) && n <= |plan.snippets| && Traced(plan, resolutionOf, s, n)
    requires i < |plan.snippets| && k < |s.decision.entries| && marked < |s.decision.entries|
    ensures Marks(plan, Marked(s, marked), i, k) == Marks(plan, s, i, k)
  {
  }

  /** An absorbed favorite marks the entry merging it marks and no other. */
  lemma MergeMarksItsEntry(plan: ImportPlan, resolutionOf: nat -> Resolution, s: Deciding, n: nat, k: nat)
    requires WellFormed(plan) && n < |plan.snippets| && plan.snippets[n].status == Identical
    requires Traced(plan, resolutionOf, s, n) && InRange(plan, s.entryOf, s.decision.entries)
    requires NoCollision(s.decision.entries) && ExistingIdsAreSet(plan) && k < |s.decision.entries|
    ensures Marks(plan, s, n, k) <==> MergeOf(plan, s, n) == Mark(k)
  {
    hide Traced, MergeStep;
  }

  lemma StepExplainsFavorites(
    pasted: seq<TransferSnippet>, stored: seq<Snippet>, folders: seq<SnippetFolder>, target: Target,
    resolutionOf: nat -> Resolution, s: Deciding, n: nat
  )
    requires UniqueIds(stored) && n < |pasted|
    requires var plan := PlanOf(pasted, stored, folders, target);
             && WellFormed(plan) && EarlierIsEarlier(plan) && ExistingIdsAreSet(plan)
             && Traced(plan, resolutionOf, s, n) && InRange(plan, s.entryOf, s.decision.entries)
             && NoCollision(s.decision.entries) && FavoritesExplained(plan, resolutionOf, s, n)
    requires Traced(PlanOf(pasted, stored, folders, target), resolutionOf,
                    DecideStep(PlanOf(pasted, stored, folders, target), resolutionOf, s, n), n + 1)
    ensures var plan := PlanOf(pasted, stored, folders, target);
            FavoritesExplained(plan, resolutionOf, DecideStep(plan, resolutionOf, s, n), n + 1)
  {
    hide MergeStep, PlannedAt, NoCollision, StemsFrom, Marks, FavoriteExplained;
    var plan := PlanOf(pasted, stored, folders, target);
    var planned := plan.snippets[n];
    var r := DecideStep(plan, resolutionOf, s, n);
    var m := n + 1;
    forall k | 0 <= k < |r.decision.entries|
      ensures FavoriteExplained(plan, resolutionOf, r, m, k)
    {
      if planned.status == Identical {
        CountingKeepsTrace(plan, resolutionOf, s, n);
        CountingExplains(plan, resolutionOf, s, n);
        IdenticalStepExplains(plan, resolutionOf, Counted(s), n, k);
      } else if Skips(planned, resolutionOf(n)) {
        CountingExplains(plan, resolutionOf, s, n);
        CountingKeepsTrace(plan, resolutionOf, s, n);
        OnlyIdenticalSnippetsMark(plan, Counted(s), n, k);
        PassingExplains(plan, resolutionOf, Counted(s), n, k);
      } else {
        ProducingStepExplains(pasted, stored, folders, target, resolutionOf, s, n, k);
        OnlyEntriesExplain(plan, resolutionOf, Push(s, n, EntryFor(planned, resolutionOf(n))), r, m, k);
      }
    }
  }

  lemma OnlyIdenticalSnippetsMark(plan: ImportPlan, s: Deciding, i: nat, k: nat)
    requires WellFormed(plan) && i < |plan.snippets| && |s.entryOf| == |plan.snippets| && k < |s.decision.entries|
    requires plan.snippets[i].status != Identical
    ensures !Marks(plan, s, i, k)
  {
  }

  lemma OnlyEntriesExplain(plan: ImportPlan, resolutionOf: nat -> Resolution, s: Deciding, t: Deciding, n: nat, k: nat)
    requires n <= |plan.snippets| && WellFormed(plan)
    requires |s.entryOf| == |plan.snippets| && k < |s.decision.entries| && k < |s.origins|
             && s.origins[k] < |plan.snippets|
    requires FavoriteExplained(plan, resolutionOf, s, n, k)
    requires s.decision.entries == t.decision.entries && s.entryOf == t.entryOf && s.origins == t.origins
    ensures FavoriteExplained(plan, resolutionOf, t, n, k)
  {
    assert forall i: nat | i < n :: Marks(plan, t, i, k) == Marks(plan, s, i, k);
  }

  lemma CountingExplains(plan: ImportPlan, resolutionOf: nat -> Resolution, s: Deciding, n: nat)
    requires WellFormed(plan) && n <= |plan.snippets| && Traced(plan, resolutionOf, s, n)
    requires Traced(plan, resolutionOf, Counted(s), n) && FavoritesExplained(plan, resolutionOf, s, n)
    ensures FavoritesExplained(plan, resolutionOf, Counted(s), n)
  {
    hide StemsFrom;
    forall k | 0 <= k < |s.decision.entries| ensures FavoriteExplained(plan, resolutionOf, Counted(s), n, k) {
      assert FavoriteExplained(plan, resolutionOf, s, n, k);
      assert forall i: nat | i < n :: Marks(plan, Counted(s), i, k) == Marks(plan, s, i, k);
    }
  }

  /** A snippet that marks nothing changes no explanation. */
  lemma PassingExplains(plan: ImportPlan, resolutionOf: nat -> Resolution, s: Deciding, n: nat, k: nat)
    requires WellFormed(plan) && n < |plan.snippets| && Traced(plan, resolutionOf, s, n) && k < |s.decision.entries|
    requires !Marks(plan, s, n, k) && FavoriteExplained(plan, resolutionOf, s, n, k)
    ensures FavoriteExplained(plan, resolutionOf, s, n + 1, k)
  {
    hide Marks, StemsFrom;
  }

  lemma IdenticalStepExplains(plan: ImportPlan, resolutionOf: nat -> Resolution, s: Deciding, n: nat, k: nat)
    requires WellFormed(plan) && EarlierIsEarlier(plan) && ExistingIdsAreSet(plan)
    requires n < |plan.snippets| && plan.snippets[n].status == Identical
    requires Traced(plan, resolutionOf, s, n) && InRange(plan, s.entryOf, s.decision.entries)
    requires NoCollision(s.decision.entries) && FavoritesExplained(plan, resolutionOf, s, n)
    requires var r := MergeStep(plan, s, n); k < |r.decision.entries| && Traced(plan, resolutionOf, r, n + 1)
    ensures FavoriteExplained(plan, resolutionOf, MergeStep(plan, s, n), n + 1, k)
  {
    hide MergeStep, NoCollision, StemsFrom, Marks;
    var r := MergeStep(plan, s, n);
    var own := OwnFavorite(plan.snippets[r.origins[k]], resolutionOf(r.origins[k]));
    var merge := MergeOf(plan, s, n);
    if k < |s.decision.entries| {
      assert FavoriteExplained(plan, resolutionOf, s, n, k);
      MergeMarksItsEntry(plan, resolutionOf, s, n, k);
      forall i: nat | i <= n ensures Marks(plan, r, i, k) == Marks(plan, s, i, k) {
        match merge
        case Nothing =>
        case Mark(marked) => MarkKeepsMarks(plan, resolutionOf, s, n, marked, i, k);
        case Add => PushKeepsMarks(plan, resolutionOf, s, n, FavoriteOnly(plan.snippets[n]), i, k);
      }
      assert r.origins[k] == s.origins[k];
      assert r.decision.entries[k].snippet.favorite <==> s.decision.entries[k].snippet.favorite || merge == Mark(k);
      assert s.decision.entries[k].snippet.favorite <==> own || exists i: nat | i < n :: Marks(plan, r, i, k);
    } else {
      assert own && r.decision.entries[k].snippet.favorite;
    }
  }

  lemma ProducingStepExplains(
    pasted: seq<TransferSnippet>, stored: seq<Snippet>, folders: seq<SnippetFolder>, target: Target,
    resolutionOf: nat -> Resolution, s: Deciding, n: nat, k: nat
  )
    requires UniqueIds(stored) && n < |pasted|
    requires var plan := PlanOf(pasted, stored, folders, target);
             && WellFormed(plan) && EarlierIsEarlier(plan) && ExistingIdsAreSet(plan)
             && Produces(plan.snippets[n], resolutionOf(n)) && Traced(plan, resolutionOf, s, n)
             && FavoritesExplained(plan, resolutionOf, s, n)
             && k <= |s.decision.entries|
    ensures var plan := PlanOf(pasted, stored, folders, target);
            FavoriteExplained(plan, resolutionOf, Push(s, n, EntryFor(plan.snippets[n], resolutionOf(n))), n + 1, k)
  {
    hide PlannedAt, StemsFrom;
    var plan := PlanOf(pasted, stored, folders, target);
    var entry := EntryFor(plan.snippets[n], resolutionOf(n));
    var r := Push(s, n, entry);
    if k < |s.decision.entries| {
      assert FavoriteExplained(plan, resolutionOf, s, n, k);
      forall i: nat | i <= n ensures Marks(plan, r, i, k) == Marks(plan, s, i, k) {
        PushKeepsMarks(plan, resolutionOf, s, n, entry, i, k);
      }
      assert !Marks(plan, s, n, k);
    } else {
      forall i: nat | i <= n ensures !Marks(plan, r, i, k) {
        if i < n && Marks(plan, r, i, k) {
          var marking := plan.snippets[i];
          assert !(marking.earlierEntry.Some? && r.entryOf[marking.earlierEntry.value].Some?);
          PlannedSnippetIsThePasted(pasted, stored, folders, target, i);
          PlannedSnippetIsThePasted(pasted, stored, folders, target, n);
          assert marking.existing.value.id != "";
          MatchesShareTheKey(pasted, stored, folders, target, i, n);
          assert false;
        }
      }
    }
  }

  /**
   An entry ends up favorite exactly when its own snippet is one, the stored one it overwrites is one, or some identical
   favorite marks it, whether or not that one holds what the entry does.
   */
  lemma {:induction false} FavoritesAreExplained(
    pasted: seq<TransferSnippet>, stored: seq<Snippet>, folders: seq<SnippetFolder>, target: Target,
    resolutionOf: nat -> Resolution, n: nat
  )
    requires UniqueIds(stored) && n <= |pasted| && WellFormed(PlanOf(pasted, stored, folders, target))
    ensures var plan := PlanOf(pasted, stored, folders, target);
            var s := DecideUpTo(plan, resolutionOf, n);
            Traced(plan, resolutionOf, s, n) && FavoritesExplained(plan, resolutionOf, s, n)
  {
    hide DecideStep, PlannedAt, Traced;
    var plan := PlanOf(pasted, stored, folders, target);
    EveryEntryIsTraced(plan, resolutionOf, n);
    if n > 0 {
      PlansAreWellFormed(pasted, stored, folders, target);
      EarlierComesEarlier(pasted, stored, folders, target);
      FavoritesAreExplained(pasted, stored, folders, target, resolutionOf, n - 1);
      OverwritesNeverCollide(pasted, stored, folders, target, resolutionOf, n - 1);
      StepExplainsFavorites(pasted, stored, folders, target, resolutionOf, DecideUpTo(plan, resolutionOf, n - 1),
        n - 1);
    }
  }

  lemma EarlierComesEarlier(
    pasted: seq<TransferSnippet>, stored: seq<Snippet>, folders: seq<SnippetFolder>, target: Target
  )
    ensures EarlierIsEarlier(PlanOf(pasted, stored, folders, target))
  {
  }
}
