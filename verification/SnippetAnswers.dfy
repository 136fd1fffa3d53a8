/** How the answers to conflicts are carried out: which snippets are added, which overwrite, what the entries hold. */
module SnippetAnswers {
  import opened Wrappers
  import opened CommandTypes
  import opened SnippetImportPlan
  import opened SnippetDecision

  /** A snippet is added when it is new, or in conflict and both are to be kept. */
  predicate IsAdded(planned: PlannedSnippet, answer: Resolution) {
    planned.status == New || (planned.status == NameConflict && answer == KeepBoth)
  }

  /** A snippet overwrites the stored one it conflicts with, but only the first of its name and folder may. */
  predicate Overwrites(planned: PlannedSnippet, answer: Resolution) {
    planned.status == NameConflict && answer == Replace && planned.existing.Some? && planned.earlierEntry.None?
  }

  /** The entry holds the snippet, its favorite mark left open. */
  predicate Holds(entry: ImportEntry, snippet: TransferSnippet) {
    && entry.snippet.name == snippet.name && entry.snippet.command == snippet.command
    && entry.snippet.folder == snippet.folder && entry.snippet.tags == snippet.tags
    && entry.snippet.danger == snippet.danger
  }

  /** The entry carries out what was answered about the snippet that led to it. */
  ghost predicate CarriesOut(planned: PlannedSnippet, answer: Resolution, entry: ImportEntry) {
    && entry.folderId == planned.folderId
    && match planned.status
       case New => entry.replacing == "" && Holds(entry, planned.snippet)
       case NameConflict =>
         && Holds(entry, planned.snippet)
         && (if answer == KeepBoth then entry.replacing == ""
             else Overwrites(planned, answer) && entry.replacing == planned.existing.value.id)
       case Identical =>
         && planned.existing.Some? && !planned.existing.value.favorite
         && var existing := planned.existing.value;
            && entry.replacing == existing.id && entry.snippet.favorite
            && entry.snippet.name == existing.name && entry.snippet.command == existing.command
            && entry.snippet.tags == existing.tags && entry.snippet.danger == existing.danger
            && entry.snippet.folder == planned.snippet.folder
  }

  /** The snippet itself, or the stored one it overwrites, makes the entry a favorite. */
  predicate IsItselfFavorite(planned: PlannedSnippet, answer: Resolution) {
    || planned.status == Identical || planned.snippet.favorite
    || (Overwrites(planned, answer) && planned.existing.value.favorite)
  }

  lemma EntriesCarryOut(entry: ImportEntry, planned: PlannedSnippet, answer: Resolution)
    requires StemsFrom(entry, planned, answer)
    ensures CarriesOut(planned, answer, entry)
    ensures OwnFavorite(planned, answer) <==> IsItselfFavorite(planned, answer)
  {
    if planned.status != Identical {
      var own := EntryFor(planned, answer);
      assert Unmarked(entry).snippet == entry.snippet.(favorite := false);
      assert Unmarked(own).snippet == own.snippet.(favorite := false);
      assert Unmarked(entry).replacing == entry.replacing && Unmarked(own).replacing == own.replacing;
      assert Unmarked(entry).folderId == entry.folderId && Unmarked(own).folderId == own.folderId;
      SameButTheMark(entry.snippet, own.snippet);
    }
  }

  lemma SameButTheMark(a: TransferSnippet, b: TransferSnippet)
    requires a.(favorite := false) == b.(favorite := false)
    ensures a.name == b.name && a.command == b.command && a.folder == b.folder && a.tags == b.tags
            && a.danger == b.danger
  {
    var x, y := a.(favorite := false), b.(favorite := false);
    assert x.name == y.name && x.command == y.command && x.folder == y.folder;
    assert x.tags == y.tags && x.danger == y.danger;
  }

  /**
   For every document, store, target and answers: the entries come from different snippets, in their order, and each
   carries out the answer about its own; every snippet to be added or to overwrite has its entry; and an entry is a
   favorite exactly when its snippet or what that overwrites is one, or an identical favorite marks it.
   */
  lemma AnswersAreCarriedOut(
    pasted: seq<TransferSnippet>, stored: seq<Snippet>, folders: seq<SnippetFolder>, target: Target,
    resolutionOf: nat -> Resolution
  ) returns (origins: seq<nat>)
    requires UniqueIds(stored)
    ensures WellFormed(PlanOf(pasted, stored, folders, target))
    ensures var plan := PlanOf(pasted, stored, folders, target);
            var entries := DecisionOf(plan, resolutionOf).entries;
            && |origins| == |entries|
            && (forall k, l | 0 <= k < l < |origins| :: origins[k] < origins[l])
            && (forall k | 0 <= k < |entries| ::
                  && origins[k] < |pasted|
                  && CarriesOut(plan.snippets[origins[k]], resolutionOf(origins[k]), entries[k]))
            && (forall i | 0 <= i < |pasted| &&
                  (IsAdded(plan.snippets[i], resolutionOf(i)) || Overwrites(plan.snippets[i], resolutionOf(i))) ::
                  i in origins)
            && var s := DecideUpTo(plan, resolutionOf, |pasted|);
               s.decision.entries == entries && |s.entryOf| == |pasted|
               && forall k | 0 <= k < |entries| ::
                    entries[k].snippet.favorite <==>
                      || IsItselfFavorite(plan.snippets[origins[k]], resolutionOf(origins[k]))
                      || exists i: nat | i < |pasted| :: Marks(plan, s, i, k)
  {
    PlansAreWellFormed(pasted, stored, folders, target);
    var plan := PlanOf(pasted, stored, folders, target);
    var n := |pasted|;
    FavoritesAreExplained(pasted, stored, folders, target, resolutionOf, n);
    var s := DecideUpTo(plan, resolutionOf, n);
    origins := s.origins;
    hide PlannedAt, DecideUpTo, Marks, CarriesOut, IsItselfFavorite, OwnFavorite, StemsFrom;
    forall k | 0 <= k < |origins|
      ensures CarriesOut(plan.snippets[origins[k]], resolutionOf(origins[k]), s.decision.entries[k])
      ensures s.decision.entries[k].snippet.favorite <==>
                || IsItselfFavorite(plan.snippets[origins[k]], resolutionOf(origins[k]))
                || exists i: nat | i < n :: Marks(plan, s, i, k)
    {
      EntriesCarryOut(s.decision.entries[k], plan.snippets[origins[k]], resolutionOf(origins[k]));
      assert FavoriteExplained(plan, resolutionOf, s, n, k);
    }
    forall i | 0 <= i < n
      && (IsAdded(plan.snippets[i], resolutionOf(i)) || Overwrites(plan.snippets[i], resolutionOf(i)))
      ensures i in origins
    {
      ToBeCarriedOut(plan.snippets[i], resolutionOf(i));
      assert s.entryOf[i].Some? && origins[s.entryOf[i].value] == i;
    }
  }

  lemma ToBeCarriedOut(planned: PlannedSnippet, answer: Resolution)
    ensures IsAdded(planned, answer) || Overwrites(planned, answer) ==> Produces(planned, answer)
  {
  }

  // ---------- the counts ----------

  ghost function AddedOf(plan: ImportPlan, resolutionOf: nat -> Resolution, n: nat): set<nat>
    requires n <= |plan.snippets|
  {
    set i: nat | i < n && IsAdded(plan.snippets[i], resolutionOf(i))
  }

  ghost function OverwritingOf(plan: ImportPlan, resolutionOf: nat -> Resolution, n: nat): set<nat>
    requires n <= |plan.snippets|
  {
    set i: nat | i < n && Overwrites(plan.snippets[i], resolutionOf(i))
  }

  /** The counts told are those of the snippets to be added and to overwrite; all others are skipped. */
  lemma {:induction false} CountsAreOfTheAnswers(plan: ImportPlan, resolutionOf: nat -> Resolution, n: nat)
    requires WellFormed(plan) && n <= |plan.snippets| && ExistingIdsAreSet(plan)
    ensures var d := DecideUpTo(plan, resolutionOf, n).decision;
            && d.added == |AddedOf(plan, resolutionOf, n)| && d.replaced == |OverwritingOf(plan, resolutionOf, n)|
            && d.skipped == n - d.added - d.replaced
  {
    hide DecideStep, IsAdded, Overwrites;
    if n == 0 {
      assert AddedOf(plan, resolutionOf, 0) == {} && OverwritingOf(plan, resolutionOf, 0) == {};
    } else {
      CountsAreOfTheAnswers(plan, resolutionOf, n - 1);
      var planned, answer := plan.snippets[n - 1], resolutionOf(n - 1);
      StepCounts(plan, resolutionOf, DecideUpTo(plan, resolutionOf, n - 1), n - 1);
      hide DecideUpTo, WellFormed, ExistingIdsAreSet;
      OneMore(
        AddedOf(plan, resolutionOf, n - 1), AddedOf(plan, resolutionOf, n), n - 1, IsAdded(planned, answer));
      OneMore(
        OverwritingOf(plan, resolutionOf, n - 1), OverwritingOf(plan, resolutionOf, n), n - 1,
        Overwrites(planned, answer));
    }
  }

  lemma OneMore(before: set<nat>, after: set<nat>, n: nat, counts: bool)
    requires n !in before && forall i :: i in after <==> i in before || (i == n && counts)
    ensures |after| == |before| + if counts then 1 else 0
  {
    assert after == before + if counts then {n} else {};
  }

  lemma StepCounts(plan: ImportPlan, resolutionOf: nat -> Resolution, s: Deciding, i: nat)
    requires WellFormed(plan) && i < |plan.snippets| && InRange(plan, s.entryOf, s.decision.entries)
    requires ExistingIdsAreSet(plan)
    ensures var before, after := s.decision, DecideStep(plan, resolutionOf, s, i).decision;
            var planned, answer := plan.snippets[i], resolutionOf(i);
            && after.added == before.added + (if IsAdded(planned, answer) then 1 else 0)
            && after.replaced == before.replaced + (if Overwrites(planned, answer) then 1 else 0)
            && after.added + after.replaced + after.skipped == before.added + before.replaced + before.skipped + 1
  {
    hide FirstReplacing, MarkFavorite;
  }
}
