/**
 Where the favorite mark of an identical pasted snippet goes (snippet_import_plan.hpp), and when it reaches what it is
 identical to.
 */
module SnippetFavorites {
  import opened Wrappers
  import opened CommandTypes
  import opened SnippetImportPlan
  import opened SnippetDecision

  /** Two snippets hold the same command, tags and danger. */
  predicate SameEntryContent(pasted: TransferSnippet, entry: ImportEntry) {
    SamePastedContent(pasted, entry.snippet)
  }

  /**
   What the plan and the answers say before anything is decided: the first snippet of a name leads to an entry when it
   is new, kept or replacing, or when it marks a stored twin that is no favorite yet.
   */
  predicate LeadsToEntry(planned: PlannedSnippet, resolution: Resolution) {
    if planned.status == Identical then
      planned.snippet.favorite && planned.existing.Some? && !planned.existing.value.favorite
    else !Skips(planned, resolution)
  }

  /** The entries before, up to their marks, and maybe more. */
  ghost predicate Extends(before: seq<ImportEntry>, after: seq<ImportEntry>) {
    |before| <= |after| && forall k | 0 <= k < |before| :: after[k].replacing == before[k].replacing
  }

  lemma ExtendsItself(entries: seq<ImportEntry>)
    ensures Extends(entries, entries)
  {
  }

  lemma ExtendsAgain(a: seq<ImportEntry>, b: seq<ImportEntry>, c: seq<ImportEntry>)
    requires Extends(a, b) && Extends(b, c)
    ensures Extends(a, c)
  {
  }

  /** A document pasted over a store, with the answers to its conflicts. */
  datatype Paste = Paste(
    pasted: seq<TransferSnippet>, stored: seq<Snippet>, folders: seq<SnippetFolder>, target: Target,
    resolutionOf: nat -> Resolution)
  {
    function Plan(): ImportPlan {
      PlanOf(pasted, stored, folders, target)
    }

    function At(i: nat): PlannedSnippet
      requires i < |pasted|
    {
      PlannedAt(pasted, stored, folders, target, i)
    }

    ghost predicate Valid() {
      UniqueIds(stored) && WellFormed(Plan())
    }

    function UpTo(n: nat): Deciding
      requires WellFormed(Plan()) && n <= |pasted|
    {
      DecideUpTo(Plan(), resolutionOf, n)
    }

    /** A snippet has an entry of its own from its step on or never, and overwrites stay. */
    lemma {:induction false} EntriesComeAtTheirStep(f: nat, n: nat)
      requires Valid() && f < n <= |pasted|
      ensures UpTo(n).entryOf[f] == UpTo(f + 1).entryOf[f]
      ensures Extends(UpTo(f + 1).decision.entries, UpTo(n).decision.entries)
      decreases n
    {
      hide Extends, DecideUpTo, DecideStep;
      if f + 1 < n {
        EntriesComeAtTheirStep(f, n - 1);
        UpToStep(n - 1);
        StepsOnlyAdd(Plan(), resolutionOf, UpTo(n - 1), n - 1);
        ExtendsAgain(UpTo(f + 1).decision.entries, UpTo(n - 1).decision.entries, UpTo(n).decision.entries);
      } else {
        ExtendsItself(UpTo(n).decision.entries);
      }
    }

    /** The first snippet of its name that matches a stored one comes before all overwrites of it. */
    lemma NothingOverwritesYet(f: nat)
      requires Valid() && f < |pasted| && At(f).earlierEntry.None? && At(f).existing.Some?
      ensures FirstReplacing(UpTo(f).decision.entries, At(f).existing.value.id) == |UpTo(f).decision.entries|
    {
      hide PlannedAt, DecideUpTo;
      var s, id := UpTo(f), At(f).existing.value.id;
      var k := FirstReplacing(s.decision.entries, id);
      if k < |s.decision.entries| {
        EveryEntryIsTraced(Plan(), resolutionOf, f);
        PlannedSnippetIsThePasted(pasted, stored, folders, target, f);
        OverwritesItsMatch(Plan(), resolutionOf, s, f, k);
        PlannedSnippetIsThePasted(pasted, stored, folders, target, s.origins[k]);
        MatchesShareTheKey(pasted, stored, folders, target, s.origins[k], f);
      }
    }

    /** The plan and the answers alone tell whether the first snippet of a name leads to an entry. */
    lemma LeadsToEntryIff(f: nat, n: nat)
      requires Valid() && f < n <= |pasted| && At(f).earlierEntry.None?
      ensures UpTo(n).entryOf[f].Some? <==> LeadsToEntry(At(f), resolutionOf(f))
    {
      hide PlannedAt, DecideUpTo;
      EntriesComeAtTheirStep(f, n);
      EveryEntryIsTraced(Plan(), resolutionOf, f);
      if At(f).existing.Some? {
        NothingOverwritesYet(f);
      }
      StepLeads(Plan(), resolutionOf, UpTo(f), f);
      UpToStep(f);
    }

    lemma UpToStep(n: nat)
      requires Valid() && n < |pasted|
      ensures UpTo(n + 1) == DecideStep(Plan(), resolutionOf, UpTo(n), n)
    {
    }

    /** An entry has the content of the snippet that led to it. */
    lemma EntriesHaveTheirContent(n: nat, k: nat)
      requires Valid() && n <= |pasted| && k < |UpTo(n).decision.entries|
      ensures |UpTo(n).origins| == |UpTo(n).decision.entries| && UpTo(n).origins[k] < n
      ensures SameEntryContent(pasted[UpTo(n).origins[k]], UpTo(n).decision.entries[k])
    {
      hide PlannedAt, DecideUpTo;
      EveryEntryIsTraced(Plan(), resolutionOf, n);
      var s := UpTo(n);
      var entry, planned := s.decision.entries[k], At(s.origins[k]);
      assert StemsFrom(entry, planned, resolutionOf(s.origins[k]));
      PlannedSnippetIsThePasted(pasted, stored, folders, target, s.origins[k]);
      IdenticalMatchesAreTwins(s.origins[k]);
      assert planned.status != Identical ==>
          Unmarked(entry).snippet.command == Unmarked(EntryFor(planned, resolutionOf(s.origins[k]))).snippet.command
          && Unmarked(entry).snippet.tags == Unmarked(EntryFor(planned, resolutionOf(s.origins[k]))).snippet.tags
          && Unmarked(entry).snippet.danger == Unmarked(EntryFor(planned, resolutionOf(s.origins[k]))).snippet.danger;
    }

    /** The mark of snippet i goes to entry k of the decision. */
    ghost predicate GoesTo(i: nat, k: nat)
      requires Valid() && i < |pasted| && k < |UpTo(|pasted|).decision.entries|
    {
      Marks(Plan(), UpTo(|pasted|), i, k)
    }

    /**
     The mark of a favorite arrives: an entry that holds the same command, tags and danger gets it, or none does
     because the stored twin is a favorite already.
     */
    ghost predicate MarkArrives(i: nat)
      requires Valid() && i < |pasted|
    {
      var entries := UpTo(|pasted|).decision.entries;
      || (exists k: nat | k < |entries| ::
            GoesTo(i, k) && entries[k].snippet.favorite && SameEntryContent(pasted[i], entries[k]))
      || (&& (forall k: nat | k < |entries| :: !GoesTo(i, k))
          && At(i).existing.Some? && At(i).existing.value.favorite && SameContent(pasted[i], At(i).existing.value))
    }

    /** An earlier snippet of the same name and folder leads to an entry, and holds something else. */
    predicate Diverted(i: nat)
      requires i < |pasted|
    {
      var earlier := At(i).earlierEntry;
      && earlier.Some? && earlier.value < |pasted| && LeadsToEntry(At(earlier.value), resolutionOf(earlier.value))
      && !SamePastedContent(pasted[i], pasted[earlier.value])
    }

    lemma EarlierIsTheFirst(i: nat)
      requires i < |pasted| && At(i).earlierEntry.Some?
      ensures At(i).earlierEntry.value < i && At(At(i).earlierEntry.value).earlierEntry.None?
    {
      var f := At(i).earlierEntry.value;
      var j := FirstLike(pasted, folders, target, f);
      assert KeyOf(pasted[j], folders, target) == KeyOf(pasted[i], folders, target);
    }

    lemma IndicesAreEarlier(i: nat)
      requires i < |pasted|
      ensures At(i).earlierEntry.Some? ==> At(i).earlierEntry.value < |pasted|
    {
    }

    lemma MarkedEntriesAreFavorite(i: nat, k: nat)
      requires Valid() && i < |pasted| && k < |UpTo(|pasted|).decision.entries| && GoesTo(i, k)
      ensures UpTo(|pasted|).decision.entries[k].snippet.favorite
    {
      hide PlannedAt, DecideUpTo, Marks;
      FavoritesAreExplained(pasted, stored, folders, target, resolutionOf, |pasted|);
      var s := UpTo(|pasted|);
      assert FavoriteExplained(Plan(), resolutionOf, s, |pasted|, k);
    }

    lemma IdenticalMatchesAreTwins(i: nat)
      requires i < |pasted|
      ensures At(i).status == Identical && At(i).existing.Some? ==> SameContent(pasted[i], At(i).existing.value)
      ensures At(i).status == Identical && At(i).existing.None? ==> At(i).earlierEntry.Some?
      ensures At(i).status == New ==> At(i).existing.None?
    {
    }
  }

  /** The mark of a favorite goes to the entry of the earlier snippet, if that has one. */
  lemma MarkOfARepeat(paste: Paste, i: nat)
    requires paste.Valid() && i < |paste.pasted| && paste.At(i).status == Identical && paste.pasted[i].favorite
    requires paste.At(i).earlierEntry.Some?
             && LeadsToEntry(paste.At(paste.At(i).earlierEntry.value),
                paste.resolutionOf(paste.At(i).earlierEntry.value))
    ensures paste.MarkArrives(i) <==> SamePastedContent(paste.pasted[i], paste.pasted[paste.At(i).earlierEntry.value])
  {
    hide PlannedAt, DecideUpTo, LeadsToEntry;
    var f, n := paste.At(i).earlierEntry.value, |paste.pasted|;
    paste.EarlierIsTheFirst(i);
    paste.LeadsToEntryIff(f, n);
    var s := paste.UpTo(n);
    EveryEntryIsTraced(paste.Plan(), paste.resolutionOf, n);
    PlannedSnippetIsThePasted(paste.pasted, paste.stored, paste.folders, paste.target, i);
    var k := s.entryOf[f].value;
    assert paste.GoesTo(i, k);
    paste.MarkedEntriesAreFavorite(i, k);
    paste.EntriesHaveTheirContent(n, k);
  }

  /** Without an entry of an earlier namesake, an identical snippet matches a stored one. */
  lemma HasATwin(paste: Paste, i: nat)
    requires paste.Valid() && i < |paste.pasted| && paste.At(i).status == Identical
    requires paste.At(i).earlierEntry.Some? ==>
               !LeadsToEntry(paste.At(paste.At(i).earlierEntry.value),
                 paste.resolutionOf(paste.At(i).earlierEntry.value))
    ensures paste.At(i).existing.Some?
  {
    paste.IdenticalMatchesAreTwins(i);
    if paste.At(i).existing.None? {
      paste.EarlierIsTheFirst(i);
      SameKeySameMatch(paste, i, paste.At(i).earlierEntry.value);
    }
  }

  /** Of two snippets of one key both match a stored name or none does; the first is new when none does. */
  lemma SameKeySameMatch(paste: Paste, i: nat, f: nat)
    requires i < |paste.pasted| && paste.At(i).existing.None?
    requires paste.At(i).earlierEntry == Some(f) && f < i && paste.At(f).earlierEntry.None?
    ensures paste.At(f).status == New
  {
    EqualKeysNameOneTarget(paste.pasted[i], paste.pasted[f], paste.folders, paste.target);
    var ri := ResolveFolder(paste.pasted[i], paste.folders, paste.target);
    var rf := ResolveFolder(paste.pasted[f], paste.folders, paste.target);
    StatusMeaning(paste.pasted, paste.stored, paste.folders, paste.target, f);
    assert ri.createsFolder || FindNamed(paste.stored, ri, paste.folders).None?;
    assert forall s | s in paste.stored :: InTarget(s, ri, paste.folders) <==> InTarget(s, rf, paste.folders);
  }

  /** The step of a favorite twin leaves an entry that overwrites the stored one. */
  lemma StepMarksTheTwin(plan: ImportPlan, resolutionOf: nat -> Resolution, s: Deciding, i: nat)
    requires WellFormed(plan) && i < |plan.snippets| && InRange(plan, s.entryOf, s.decision.entries)
    requires var planned := plan.snippets[i];
             && planned.status == Identical && planned.snippet.favorite
             && (planned.earlierEntry.Some? ==> s.entryOf[planned.earlierEntry.value].None?)
             && planned.existing.Some? && !planned.existing.value.favorite
    ensures var entries := DecideStep(plan, resolutionOf, s, i).decision.entries;
            exists k | 0 <= k < |entries| :: entries[k].replacing == plan.snippets[i].existing.value.id
  {
    var id := plan.snippets[i].existing.value.id;
    var written := FirstReplacing(s.decision.entries, id);
    var entries := DecideStep(plan, resolutionOf, s, i).decision.entries;
    assert written < |s.decision.entries| ==> entries[written].replacing == id;
    assert written == |s.decision.entries| ==> entries[written].replacing == id;
  }

  /** What overwrites the twin of a snippet with no entry of an earlier namesake has the twin's content. */
  lemma OverwritesWithTheTwin(paste: Paste, i: nat, k: nat)
    requires paste.Valid() && i < |paste.pasted| && k < |paste.UpTo(|paste.pasted|).decision.entries|
    requires paste.At(i).status == Identical && paste.At(i).existing.Some?
    requires paste.At(i).earlierEntry.Some? ==>
               !LeadsToEntry(paste.At(paste.At(i).earlierEntry.value),
                 paste.resolutionOf(paste.At(i).earlierEntry.value))
    requires paste.UpTo(|paste.pasted|).decision.entries[k].replacing == paste.At(i).existing.value.id
    ensures SameEntryContent(paste.pasted[i], paste.UpTo(|paste.pasted|).decision.entries[k])
  {
    hide PlannedAt, DecideUpTo;
    var n := |paste.pasted|;
    var s := paste.UpTo(n);
    EveryEntryIsTraced(paste.Plan(), paste.resolutionOf, n);
    var j := s.origins[k];
    paste.EntriesHaveTheirContent(n, k);
    paste.IdenticalMatchesAreTwins(i);
    paste.IdenticalMatchesAreTwins(j);
    PlannedSnippetIsThePasted(paste.pasted, paste.stored, paste.folders, paste.target, i);
    OverwritesItsMatch(paste.Plan(), paste.resolutionOf, s, n, k);
    PlannedSnippetIsThePasted(paste.pasted, paste.stored, paste.folders, paste.target, j);
    assert paste.At(j).existing == paste.At(i).existing;
    if paste.At(j).status != Identical {
      assert Replaces(paste.At(j), paste.resolutionOf(j));
      ReplacingIsTheEarlier(paste, i, j);
    }
  }

  lemma ReplacingIsTheEarlier(paste: Paste, i: nat, j: nat)
    requires i < |paste.pasted| && j < |paste.pasted| && paste.At(i).existing.Some?
    requires paste.At(j).existing == paste.At(i).existing && paste.At(j).earlierEntry.None? && i != j
    ensures paste.At(i).earlierEntry == Some(j)
  {
    PlannedSnippetIsThePasted(paste.pasted, paste.stored, paste.folders, paste.target, i);
    PlannedSnippetIsThePasted(paste.pasted, paste.stored, paste.folders, paste.target, j);
    var existing := paste.At(i).existing.value;
    assert KeyOf(paste.pasted[i], paste.folders, paste.target) == StoredKey(existing, paste.folders);
    assert KeyOf(paste.pasted[j], paste.folders, paste.target) == StoredKey(existing, paste.folders);
  }

  lemma MarkOfATwin(paste: Paste, i: nat)
    requires paste.Valid() && i < |paste.pasted| && paste.At(i).status == Identical && paste.pasted[i].favorite
    requires paste.At(i).earlierEntry.Some? ==>
               !LeadsToEntry(paste.At(paste.At(i).earlierEntry.value),
                 paste.resolutionOf(paste.At(i).earlierEntry.value))
    ensures paste.MarkArrives(i)
  {
    hide PlannedAt, DecideUpTo, DecideStep, LeadsToEntry, Traced;
    var n := |paste.pasted|;
    HasATwin(paste, i);
    paste.IdenticalMatchesAreTwins(i);
    PlannedSnippetIsThePasted(paste.pasted, paste.stored, paste.folders, paste.target, i);
    if paste.At(i).earlierEntry.Some? {
      var f := paste.At(i).earlierEntry.value;
      paste.EarlierIsTheFirst(i);
      paste.LeadsToEntryIff(f, n);
      paste.LeadsToEntryIff(f, i);
    }
    if !paste.At(i).existing.value.favorite {
      StepMarksTheTwin(paste.Plan(), paste.resolutionOf, paste.UpTo(i), i);
      paste.UpToStep(i);
      paste.EntriesComeAtTheirStep(i, n);
      var id := paste.At(i).existing.value.id;
      var k :| 0 <= k < |paste.UpTo(i + 1).decision.entries| && paste.UpTo(i + 1).decision.entries[k].replacing == id;
      assert paste.UpTo(n).decision.entries[k].replacing == id;
      assert paste.GoesTo(i, k);
      paste.MarkedEntriesAreFavorite(i, k);
      OverwritesWithTheTwin(paste, i, k);
    }
  }

  /**
   The mark of a favorite that is identical to something arrives exactly when no earlier snippet of the same name and
   folder, with other content, leads to an entry; whether one does is known from the plan and the answers.
   */
  lemma MarkArrivesIffNotDiverted(paste: Paste, i: nat)
    requires paste.Valid() && i < |paste.pasted| && paste.At(i).status == Identical && paste.pasted[i].favorite
    ensures paste.MarkArrives(i) <==> !paste.Diverted(i)
  {
    hide PlannedAt, LeadsToEntry;
    paste.IndicesAreEarlier(i);
    var earlier := paste.At(i).earlierEntry;
    if earlier.Some? && LeadsToEntry(paste.At(earlier.value), paste.resolutionOf(earlier.value)) {
      MarkOfARepeat(paste, i);
    } else {
      MarkOfATwin(paste, i);
    }
  }

  // ---------- a mark that does not arrive ----------

  const STORED := Snippet("a", "x", "1", "", [], false, None, 0, 0)

  function Pasted(command: string, favorite: bool): TransferSnippet {
    TransferSnippet("x", command, "", [], favorite, None)
  }

  /**
   Pasting x with another command and then a favorite x like the stored one, and keeping both: the new x becomes the
   favorite, and the stored one, which the favorite is identical to, stays as it is.
   */
  lemma MarkOfAnIdenticalSnippetGoesAstray(resolutionOf: nat -> Resolution)
    requires resolutionOf(0) == KeepBoth
    ensures var paste := Paste([Pasted("2", false), Pasted("1", true)], [STORED], [], None, resolutionOf);
            && paste.Valid() && paste.At(1).existing == Some(STORED) && paste.At(1).status == Identical
            && DecisionOf(paste.Plan(), resolutionOf).entries == [ImportEntry(Pasted("2", true), "", "")]
            && !paste.MarkArrives(1)
  {
    var pasted := [Pasted("2", false), Pasted("1", true)];
    var paste := Paste(pasted, [STORED], [], None, resolutionOf);
    assert KeyOf(pasted[0], [], None) == KeyOf(pasted[1], [], None);
    assert pasted[1..] == [Pasted("1", true)];
    assert InTarget(STORED, ResolveFolder(pasted[0], [], None), []);
    assert paste.At(0) == PlannedSnippet(pasted[0], "", false, NameConflict, Some(STORED), None);
    assert paste.At(1) == PlannedSnippet(pasted[1], "", false, Identical, Some(STORED), Some(0));
    DecidedAstray(paste);
    MarkArrivesIffNotDiverted(paste, 1);
  }

  lemma DecidedAstray(paste: Paste)
    requires paste.pasted == [Pasted("2", false), Pasted("1", true)] && paste.resolutionOf(0) == KeepBoth
    requires paste.At(0) == PlannedSnippet(paste.pasted[0], "", false, NameConflict, Some(STORED), None)
    requires paste.At(1) == PlannedSnippet(paste.pasted[1], "", false, Identical, Some(STORED), Some(0))
    ensures WellFormed(paste.Plan())
    ensures DecisionOf(paste.Plan(), paste.resolutionOf).entries == [ImportEntry(Pasted("2", true), "", "")]
  {
    hide PlannedAt;
    var plan := paste.Plan();
    var first := DecideUpTo(plan, paste.resolutionOf, 1);
    assert DecideUpTo(plan, paste.resolutionOf, 0) == Deciding(Decision([], 0, 0, 0), [None, None], []);
    assert first.decision.entries == [ImportEntry(Pasted("2", false), "", "")] && first.entryOf == [Some(0), None];
  }

  /** A step adds entries and marks them, and gives no other snippet an entry. */
  lemma StepsOnlyAdd(plan: ImportPlan, resolutionOf: nat -> Resolution, s: Deciding, n: nat)
    requires WellFormed(plan) && n < |plan.snippets| && InRange(plan, s.entryOf, s.decision.entries)
    ensures var after := DecideStep(plan, resolutionOf, s, n);
            && (forall i | 0 <= i < |s.entryOf| && i != n :: after.entryOf[i] == s.entryOf[i])
            && Extends(s.decision.entries, after.decision.entries)
  {
  }

  lemma StepLeads(plan: ImportPlan, resolutionOf: nat -> Resolution, s: Deciding, f: nat)
    requires WellFormed(plan) && f < |plan.snippets| && InRange(plan, s.entryOf, s.decision.entries)
    requires Traced(plan, resolutionOf, s, f) && plan.snippets[f].earlierEntry.None?
    requires plan.snippets[f].existing.Some? ==>
               FirstReplacing(s.decision.entries, plan.snippets[f].existing.value.id) == |s.decision.entries|
    ensures DecideStep(plan, resolutionOf, s, f).entryOf[f].Some? <==> LeadsToEntry(plan.snippets[f], resolutionOf(f))
  {
    assert s.entryOf[f].None?;
  }
}
