/**
 The two promises an import makes across plan, decision and store: the plan predicts what the import does, and
 importing a document a second time adds and replaces nothing.
 */
module SnippetReimport {
  import opened Wrappers
  import opened CommandTypes
  import opened SnippetImportPlan
  import opened SnippetDecision
  import opened SnippetStore
  import opened SnippetImport

  // ---------- the folders an import creates ----------

  predicate WantsNewFolder(known: seq<SnippetFolder>, entry: ImportEntry) {
    entry.folderId == "" && entry.snippet.folder != "" && FolderNamed(known, entry.snippet.folder).None?
  }

  function CreatedNames(known: seq<SnippetFolder>, entries: seq<ImportEntry>): seq<string> {
    if entries == [] then []
    else
      var before := CreatedNames(known, entries[..|entries| - 1]);
      var entry := entries[|entries| - 1];
      if WantsNewFolder(known, entry) then AppendUnique(before, entry.snippet.folder) else before
  }

  /** after is before with folders of these names appended, in order and behind all others. */
  ghost predicate AppendsFolders(before: seq<SnippetFolder>, after: seq<SnippetFolder>, names: seq<string>) {
    && before <= after && |after| == |before| + |names|
    && forall j | 0 <= j < |names| :: IsAppended(before, after[|before| + j], names[j], j)
  }

  /** A folder of that name without an icon, as many places behind all folders as were appended before it. */
  ghost predicate IsAppended(before: seq<SnippetFolder>, folder: SnippetFolder, name: string, j: nat) {
    folder.name == name && folder.icon == "" && folder.position == NextPosition(before) + j
  }

  lemma AppendedNamesAreFound(before: seq<SnippetFolder>, after: seq<SnippetFolder>, names: seq<string>, name: string)
    requires AppendsFolders(before, after, names)
    ensures FolderNamed(after, name).None? <==> FolderNamed(before, name).None? && name !in names
  {
    hide NextPosition;
    assert forall j | 0 <= j < |before| :: before[j] == after[j];
    if name in names {
      var j :| 0 <= j < |names| && names[j] == name;
      assert after[|before| + j] in after;
    }
    if FolderNamed(before, name).Some? {
      assert FolderNamed(before, name).value in after;
    }
    if FolderNamed(after, name).Some? {
      var i :| 0 <= i < |after| && after[i] == FolderNamed(after, name).value;
      if i < |before| {
        assert before[i] in before;
      } else {
        var j := i - |before|;
        assert after[|before| + j].name == names[j];
      }
    }
  }

  lemma AppendedBeforeTheLast(before: seq<SnippetFolder>, after: seq<SnippetFolder>, names: seq<string>)
    requires names != [] && AppendsFolders(before, after, names)
    ensures AppendsFolders(before, after[..|after| - 1], names[..|names| - 1])
  {
    hide IsAppended;
    var front, last := after[..|after| - 1], |names| - 1;
    forall j | 0 <= j < last ensures IsAppended(before, front[|before| + j], names[..last][j], j) {
      assert IsAppended(before, after[|before| + j], names[j], j);
    }
  }

  lemma {:induction false} AppendingMovesThePosition(
    before: seq<SnippetFolder>, after: seq<SnippetFolder>, names: seq<string>
  )
    requires AppendsFolders(before, after, names)
    ensures NextPosition(after) == NextPosition(before) + |names|
  {
    if names == [] {
      assert after == before;
    } else {
      var last := |names| - 1;
      var front := after[..|after| - 1];
      AppendedBeforeTheLast(before, after, names);
      AppendingMovesThePosition(before, front, names[..last]);
      assert after[|before| + last].name == names[last];
    }
  }

  /** An import creates the folders its entries miss, each once, in order of first use and behind all others. */
  lemma {:induction false} ImportCreatesMissingFolders(
    before: Tables, nextId: nat, ids: nat -> string, entries: seq<ImportEntry>, n: nat
  )
    requires n <= |entries| && ImportUpTo(before, nextId, ids, entries, n).Some?
    ensures AppendsFolders(before.folders, ImportUpTo(before, nextId, ids, entries, n).value.tables.folders,
                           CreatedNames(before.folders, entries[..n]))
  {
    hide ImportStep, AppendsFolders;
    if n == 0 {
      assert entries[..0] == [];
      assert AppendsFolders(before.folders, before.folders, []) by { NoFolderIsAppended(before.folders); }
    } else {
      ImportCreatesMissingFolders(before, nextId, ids, entries, n - 1);
      assert entries[..n][..n - 1] == entries[..n - 1];
      StepCreatesMissingFolder(
        before, ids, ImportUpTo(before, nextId, ids, entries, n - 1).value, entries[n - 1],
        CreatedNames(before.folders, entries[..n - 1]));
    }
  }

  lemma NoFolderIsAppended(folders: seq<SnippetFolder>)
    ensures AppendsFolders(folders, folders, [])
  {
  }

  lemma OneMoreFolder(
    before: seq<SnippetFolder>, after: seq<SnippetFolder>, names: seq<string>, folder: SnippetFolder
  )
    requires AppendsFolders(before, after, names) && folder.position == NextPosition(after) && folder.icon == ""
    ensures AppendsFolders(before, after + [folder], names + [folder.name])
  {
    AppendingMovesThePosition(before, after, names);
    assert IsAppended(before, folder, folder.name, |names|);
    hide IsAppended;
    var longer, more := after + [folder], names + [folder.name];
    forall j | 0 <= j < |more| ensures IsAppended(before, longer[|before| + j], more[j], j) {
      if j < |names| {
        assert IsAppended(before, after[|before| + j], names[j], j);
      }
    }
  }

  lemma StepCreatesMissingFolder(
    before: Tables, ids: nat -> string, im: Importing, entry: ImportEntry, names: seq<string>
  )
    requires AppendsFolders(before.folders, im.tables.folders, names)
    requires ImportStep(before.folders, ids, im, entry).Some?
    ensures AppendsFolders(before.folders, ImportStep(before.folders, ids, im, entry).value.tables.folders,
                           if WantsNewFolder(before.folders, entry) then AppendUnique(names, entry.snippet.folder)
                             else names)
  {
    AppendedNamesAreFound(before.folders, im.tables.folders, names, entry.snippet.folder);
    OneMoreFolder(
      before.folders, im.tables.folders, names,
      SnippetFolder(ids(im.nextId), entry.snippet.folder, "", NextPosition(im.tables.folders)));
    hide NextPosition, WriteSnippet, RowOf, AppendsFolders;
  }

  lemma {:induction false} MarkingCreatesNoFolder(known: seq<SnippetFolder>, entries: seq<ImportEntry>, k: nat)
    requires k < |entries|
    ensures CreatedNames(known, MarkFavorite(entries, k)) == CreatedNames(known, entries)
  {
    var last := |entries| - 1;
    var marked := MarkFavorite(entries, k);
    if k == last {
      assert marked[..last] == entries[..last];
    } else {
      assert marked[..last] == MarkFavorite(entries[..last], k);
      MarkingCreatesNoFolder(known, entries[..last], k);
    }
  }

  lemma PushedFolder(known: seq<SnippetFolder>, entries: seq<ImportEntry>, entry: ImportEntry)
    ensures CreatedNames(known, entries + [entry]) ==
            if WantsNewFolder(known, entry) then AppendUnique(CreatedNames(known, entries), entry.snippet.folder)
            else CreatedNames(known, entries)
  {
    assert (entries + [entry])[..|entries|] == entries;
  }

  /** An entry of a planned snippet misses its folder exactly when the plan says it creates it. */
  lemma EntriesWantPlannedFolders(
    pasted: seq<TransferSnippet>, stored: seq<Snippet>, folders: seq<SnippetFolder>, target: Target, i: nat,
    entry: ImportEntry
  )
    requires i < |pasted| && forall f | f in folders :: f.id != ""
    requires var planned := PlannedAt(pasted, stored, folders, target, i);
             entry.folderId == planned.folderId && entry.snippet.folder == planned.snippet.folder
    ensures var planned := PlannedAt(pasted, stored, folders, target, i);
            && (WantsNewFolder(folders, entry) <==> planned.createsFolder)
            && (planned.createsFolder ==> planned.snippet.folder == pasted[i].folder)
  {
    hide FindIdentical, FindNamed, FirstLike;
    PlannedSnippetIsThePasted(pasted, stored, folders, target, i);
  }

  /** A snippet that leads to no entry of its own cannot be the first to use a folder to create. */
  lemma OnlyLaterUsesAreSkipped(
    pasted: seq<TransferSnippet>, stored: seq<Snippet>, folders: seq<SnippetFolder>, target: Target, i: nat
  )
    requires i < |pasted|
    requires var planned := PlannedAt(pasted, stored, folders, target, i);
             planned.createsFolder && planned.status != New
    ensures pasted[i].folder in NewFolders(pasted, folders, target, i)
  {
    var first := FirstLike(pasted, folders, target, i);
    assert first < i by { StatusMeaning(pasted, stored, folders, target, i); }
    EqualKeysNameOneTarget(pasted[first], pasted[i], folders, target);
    NewFoldersAreTheMissingOnes(pasted, folders, target, i);
    assert CreatesFolder(pasted, folders, target, first, pasted[i].folder);
  }

  /** The decided entries miss exactly the folders the plan announces, in its order. */
  lemma {:induction false} DecisionsMissThePlannedFolders(
    pasted: seq<TransferSnippet>, stored: seq<Snippet>, folders: seq<SnippetFolder>, target: Target,
    resolutionOf: nat -> Resolution, n: nat
  )
    requires n <= |pasted| && (forall f | f in folders :: f.id != "")
    requires WellFormed(PlanOf(pasted, stored, folders, target))
    ensures CreatedNames(folders, DecideUpTo(PlanOf(pasted, stored, folders, target), resolutionOf, n).decision.entries)
            == NewFolders(pasted, folders, target, n)
  {
    hide DecideStep, PlannedAt;
    if n > 0 {
      var plan := PlanOf(pasted, stored, folders, target);
      DecisionsMissThePlannedFolders(pasted, stored, folders, target, resolutionOf, n - 1);
      StepMissesThePlannedFolder(
        pasted, stored, folders, target, resolutionOf, DecideUpTo(plan, resolutionOf, n - 1), n - 1);
    }
  }

  lemma StepMissesThePlannedFolder(
    pasted: seq<TransferSnippet>, stored: seq<Snippet>, folders: seq<SnippetFolder>, target: Target,
    resolutionOf: nat -> Resolution, s: Deciding, i: nat
  )
    requires i < |pasted| && (forall f | f in folders :: f.id != "")
    requires WellFormed(PlanOf(pasted, stored, folders, target))
    requires InRange(PlanOf(pasted, stored, folders, target), s.entryOf, s.decision.entries)
    requires CreatedNames(folders, s.decision.entries) == NewFolders(pasted, folders, target, i)
    ensures CreatedNames(
              folders, DecideStep(PlanOf(pasted, stored, folders, target), resolutionOf, s, i).decision.entries)
            == NewFolders(pasted, folders, target, i + 1)
  {
    var plan := PlanOf(pasted, stored, folders, target);
    var planned := plan.snippets[i];
    var entries := s.decision.entries;
    PlannedSnippetIsThePasted(pasted, stored, folders, target, i);
    if planned.createsFolder && planned.status != New {
      OnlyLaterUsesAreSkipped(pasted, stored, folders, target, i);
    }
    hide PlannedAt, MergeStep, ResolveFolder, WantsNewFolder;
    EntriesWantPlannedFolders(pasted, stored, folders, target, i, ImportEntry(planned.snippet, planned.folderId, ""));
    if planned.status == Identical {
      match MergeOf(plan, Counted(s), i)
      case Nothing =>
      case Mark(k) => MarkingCreatesNoFolder(folders, entries, k);
      case Add =>
        EntriesWantPlannedFolders(pasted, stored, folders, target, i, FavoriteOnly(planned));
        PushedFolder(folders, entries, FavoriteOnly(planned));
    } else if !Skips(planned, resolutionOf(i)) {
      EntriesWantPlannedFolders(pasted, stored, folders, target, i, EntryFor(planned, resolutionOf(i)));
      PushedFolder(folders, entries, EntryFor(planned, resolutionOf(i)));
    }
  }

  // ---------- the plan predicts the import ----------

  lemma EntryKeepsItsTarget(entry: ImportEntry, planned: PlannedSnippet, resolution: Resolution)
    requires StemsFrom(entry, planned, resolution)
    ensures entry.folderId == planned.folderId && entry.snippet.folder == planned.snippet.folder
  {
    if planned.status != Identical {
      assert Unmarked(entry).folderId == entry.folderId && Unmarked(entry).snippet.folder == entry.snippet.folder;
    }
  }

  /** Every entry overwrites a row that is stored, and no two the same one. */
  lemma DecisionsAreOverwritable(
    tables: Tables, stored: seq<Snippet>, pasted: seq<TransferSnippet>, target: Target, resolutionOf: nat -> Resolution
  )
    requires ValidTables(tables) && Lists(stored, tables.snippets)
    ensures WellFormed(PlanOf(pasted, stored, tables.folders, target))
    ensures Overwritable(tables, DecisionOf(PlanOf(pasted, stored, tables.folders, target), resolutionOf).entries)
  {
    hide PlannedAt, DecideUpTo, Traced;
    ListingsHaveUniqueIds(stored, tables);
    PlansAreWellFormed(pasted, stored, tables.folders, target);
    var plan := PlanOf(pasted, stored, tables.folders, target);
    var n := |plan.snippets|;
    var s := DecideUpTo(plan, resolutionOf, n);
    OverwritesNeverCollide(pasted, stored, tables.folders, target, resolutionOf, n);
    EveryEntryIsTraced(plan, resolutionOf, n);
    forall k | 0 <= k < |s.decision.entries| && s.decision.entries[k].replacing != ""
      ensures s.decision.entries[k].replacing in tables.snippets
    {
      OverwritesItsMatch(plan, resolutionOf, s, n, k);
      TracesStay(plan, resolutionOf, s, n, k);
      PlannedSnippetIsThePasted(pasted, stored, tables.folders, target, s.origins[k]);
    }
  }

  lemma TracesStay(plan: ImportPlan, resolutionOf: nat -> Resolution, s: Deciding, n: nat, k: nat)
    requires n <= |plan.snippets| && Traced(plan, resolutionOf, s, n) && k < |s.decision.entries|
    ensures |s.origins| == |s.decision.entries| && |s.entryOf| == |plan.snippets|
    ensures s.origins[k] < n && s.entryOf[s.origins[k]] == Some(k)
    ensures StemsFrom(s.decision.entries[k], plan.snippets[s.origins[k]], resolutionOf(s.origins[k]))
  {
  }

  predicate Vanished(folders: seq<SnippetFolder>, target: Target) {
    target.Some? && target.value != "" && FolderWithId(folders, target.value).None?
  }

  /** Planned folder ids exist, unless the target folder itself has vanished. */
  lemma PlannedFoldersExist(
    pasted: seq<TransferSnippet>, stored: seq<Snippet>, folders: seq<SnippetFolder>, target: Target, i: nat
  )
    requires i < |pasted|
    ensures var planned := PlannedAt(pasted, stored, folders, target, i);
            planned.folderId != "" && FolderWithId(folders, planned.folderId).None? <==> Vanished(folders, target)
  {
    PlannedSnippetIsThePasted(pasted, stored, folders, target, i);
    hide PlannedAt;
    if target.None? && pasted[i].folder != "" && FolderNamed(folders, pasted[i].folder).Some? {
      assert FolderNamed(folders, pasted[i].folder).value in folders;
    }
  }

  /** Nothing stored matches in a vanished folder, so the first pasted snippet always leads to an entry. */
  lemma FirstSnippetGoesNowhere(
    pasted: seq<TransferSnippet>, stored: seq<Snippet>, folders: seq<SnippetFolder>, target: Target
  )
    requires pasted != [] && Vanished(folders, target)
    ensures PlannedAt(pasted, stored, folders, target, 0).status == New
  {
    StatusMeaning(pasted, stored, folders, target, 0);
  }

  /** The import fails exactly when it is aimed at a folder that has vanished and has anything to store. */
  lemma ImportFailsOnVanishedTargets(
    tables: Tables, nextId: nat, ids: nat -> string, stored: seq<Snippet>, pasted: seq<TransferSnippet>, target: Target,
    resolutionOf: nat -> Resolution
  )
    requires WellFormed(PlanOf(pasted, stored, tables.folders, target))
    ensures var entries := DecisionOf(PlanOf(pasted, stored, tables.folders, target), resolutionOf).entries;
            Import(tables, nextId, ids, entries).None? <==> Vanished(tables.folders, target) && pasted != []
  {
    hide PlannedAt, DecideUpTo, Traced, Vanished;
    var plan := PlanOf(pasted, stored, tables.folders, target);
    var n := |plan.snippets|;
    var s := DecideUpTo(plan, resolutionOf, n);
    var entries := s.decision.entries;
    EveryEntryIsTraced(plan, resolutionOf, n);
    forall k | 0 <= k < |entries|
      ensures (NamesUnknownFolder(tables.folders, entries[k]) <==> Vanished(tables.folders, target)) && pasted != []
    {
      TracesStay(plan, resolutionOf, s, n, k);
      EntryKeepsItsTarget(entries[k], plan.snippets[s.origins[k]], resolutionOf(s.origins[k]));
      PlannedFoldersExist(pasted, stored, tables.folders, target, s.origins[k]);
    }
    ImportFailsOnUnknownFolders(tables, nextId, ids, entries, |entries|);
    if Vanished(tables.folders, target) && pasted != [] {
      FirstSnippetGoesNowhere(pasted, stored, tables.folders, target);
      ProducersHaveEntries(plan, resolutionOf, s, n, 0);
      assert NamesUnknownFolder(tables.folders, entries[0]);
    }
  }

  lemma ProducersHaveEntries(plan: ImportPlan, resolutionOf: nat -> Resolution, s: Deciding, n: nat, i: nat)
    requires n <= |plan.snippets| && Traced(plan, resolutionOf, s, n) && i < n
    requires Produces(plan.snippets[i], resolutionOf(i))
    ensures |s.entryOf| == |plan.snippets| && s.entryOf[i].Some? && s.entryOf[i].value < |s.decision.entries|
    ensures |s.origins| == |s.decision.entries| && s.origins[s.entryOf[i].value] == i
  {
  }

  /** A stored favorite stays one, and use counts survive, in every row an import leaves. */
  ghost predicate KeepsRows(before: Tables, after: Tables) {
    forall id | id in before.snippets ::
      && id in after.snippets
      && (before.snippets[id].favorite ==> after.snippets[id].favorite)
      && after.snippets[id].uses == before.snippets[id].uses
      && after.snippets[id].lastUsed == before.snippets[id].lastUsed
  }

  /**
   For every document, store, target and answers: every snippet is counted once; a successful import grows the
   store by the added count, creates exactly the announced folders behind all others, and loses no row, favorite
   or use count.
   */
  lemma PlanPredictsImport(
    tables: Tables, nextId: nat, ids: nat -> string, stored: seq<Snippet>, pasted: seq<TransferSnippet>, target: Target,
    resolutionOf: nat -> Resolution
  )
    requires ValidTables(tables) && FreshIds(tables, nextId, ids) && Lists(stored, tables.snippets)
    ensures WellFormed(PlanOf(pasted, stored, tables.folders, target))
    ensures var plan := PlanOf(pasted, stored, tables.folders, target);
            var decision := DecisionOf(plan, resolutionOf);
            var outcome := Import(tables, nextId, ids, decision.entries);
            && decision.added + decision.replaced + decision.skipped == |pasted|
            && (outcome.Some? ==>
                && outcome.value.summary.added == decision.added
                && outcome.value.summary.added + outcome.value.summary.replaced == |decision.entries|
                && |outcome.value.tables.snippets| == |tables.snippets| + decision.added
                && outcome.value.summary.foldersCreated == |plan.newFolders|
                && AppendsFolders(tables.folders, outcome.value.tables.folders, plan.newFolders)
                && KeepsRows(tables, outcome.value.tables))
  {
    hide PlannedAt, DecideUpTo, ImportUpTo, FreshIds, LeavesRow, Traced, NoCollision;
    ListingsHaveUniqueIds(stored, tables);
    PlansAreWellFormed(pasted, stored, tables.folders, target);
    var plan := PlanOf(pasted, stored, tables.folders, target);
    var decision := DecisionOf(plan, resolutionOf);
    EverySnippetIsCounted(plan, resolutionOf, |pasted|);
    DecisionsAreOverwritable(tables, stored, pasted, target, resolutionOf);
    if Import(tables, nextId, ids, decision.entries).Some? {
      var n := |decision.entries|;
      ImportLeavesItsEntries(tables, nextId, ids, decision.entries, n);
      assert decision.entries[..n] == decision.entries;
      ImportCreatesMissingFolders(tables, nextId, ids, decision.entries, n);
      DecisionsMissThePlannedFolders(pasted, stored, tables.folders, target, resolutionOf, |pasted|);
      ImportLosesNothing(tables, nextId, ids, stored, pasted, target, resolutionOf);
    }
  }

  lemma ImportLosesNothing(
    tables: Tables, nextId: nat, ids: nat -> string, stored: seq<Snippet>, pasted: seq<TransferSnippet>, target: Target,
    resolutionOf: nat -> Resolution
  )
    requires ValidTables(tables) && FreshIds(tables, nextId, ids) && Lists(stored, tables.snippets)
    requires WellFormed(PlanOf(pasted, stored, tables.folders, target))
    requires Import(tables, nextId, ids,
                    DecisionOf(PlanOf(pasted, stored, tables.folders, target), resolutionOf).entries).Some?
    ensures KeepsRows(tables, Import(tables, nextId, ids,
                    DecisionOf(PlanOf(pasted, stored, tables.folders, target), resolutionOf).entries).value.tables)
  {
    hide PlannedAt, DecideUpTo, ImportUpTo, FreshIds, Traced, TargetId, Overwritable, PlanOf;
    ListingsHaveUniqueIds(stored, tables);
    var entries := DecisionOf(PlanOf(pasted, stored, tables.folders, target), resolutionOf).entries;
    DecisionsAreOverwritable(tables, stored, pasted, target, resolutionOf);
    ImportLeavesItsEntries(tables, nextId, ids, entries, |entries|);
    var im := Import(tables, nextId, ids, entries).value;
    forall id | id in tables.snippets && id in im.written
      ensures && id in im.tables.snippets
              && (tables.snippets[id].favorite ==> im.tables.snippets[id].favorite)
              && im.tables.snippets[id].uses == tables.snippets[id].uses
              && im.tables.snippets[id].lastUsed == tables.snippets[id].lastUsed
    {
      var k :| 0 <= k < |im.written| && im.written[k] == id;
      assert LeavesRow(tables, im.tables, entries[k], im.written[k]);
      WrittenStoredRowsAreOverwritten(tables, nextId, ids, entries, im, k);
      if tables.snippets[id].favorite {
        DecisionsNeverUnfavorite(pasted, stored, tables.folders, target, resolutionOf, k, tables.snippets[id]);
      }
    }
  }

  /** A stored row is only written by the entry that overwrites it. */
  lemma WrittenStoredRowsAreOverwritten(
    before: Tables, nextId: nat, ids: nat -> string, entries: seq<ImportEntry>, im: Importing, k: nat
  )
    requires FreshIds(before, nextId, ids) && ImportedSoFar(before, nextId, ids, entries, im)
    requires k < |im.written| && im.written[k] in before.snippets
    ensures entries[k].replacing == im.written[k]
  {
    assert entries[k].replacing == "" ==> Drawn(ids, nextId, im.nextId, im.written[k]);
  }

  // ---------- importing twice ----------

  /** Every conflict answered with keeping both snippets. */
  function KeepAll(index: nat): Resolution {
    KeepBoth
  }

  /** A folder of the listing before is the same folder in a listing that only appends. */
  lemma AppendingKeepsFolders(before: seq<SnippetFolder>, after: seq<SnippetFolder>, name: string, id: string)
    requires before <= after
    ensures FolderNamed(before, name).Some? ==> FolderNamed(after, name) == FolderNamed(before, name)
    ensures FolderWithId(before, id).Some? ==> FolderWithId(after, id) == FolderWithId(before, id)
    ensures FolderNamed(after, name).Some? ==> FolderWithId(after, FolderNamed(after, name).value.id).Some?
  {
    var back := after[|before|..];
    assert after == before + back;
    FolderNamedAppend(before, back, name);
    FolderWithIdAppend(before, back, id);
  }

  /** Where a pasted snippet goes the second time is where the first import filed its entry. */
  lemma SecondTargetIsTheFirst(
    snippet: TransferSnippet, before: seq<SnippetFolder>, after: seq<SnippetFolder>, target: Target, entry: ImportEntry
  )
    requires before <= after && (forall f | f in before :: f.id != "") && (forall f | f in after :: f.id != "")
    requires var resolved := ResolveFolder(snippet, before, target);
             entry.folderId == resolved.folderId && entry.snippet.folder == resolved.snippet.folder
    requires !NamesUnknownFolder(before, entry)
    requires entry.folderId == "" && entry.snippet.folder != "" ==> FolderNamed(after, entry.snippet.folder).Some?
    ensures var again := ResolveFolder(snippet, after, target);
            var id := TargetId(after, entry);
            !again.createsFolder && again.folderId == id && (id == "" || FolderWithId(after, id).Some?)
  {
    AppendingKeepsFolders(before, after, snippet.folder, entry.folderId);
  }

  lemma SettledTargetsStay(
    snippet: TransferSnippet, before: seq<SnippetFolder>, after: seq<SnippetFolder>, target: Target
  )
    requires before <= after && !ResolveFolder(snippet, before, target).createsFolder
    ensures var again := ResolveFolder(snippet, after, target);
            !again.createsFolder && again.folderId == ResolveFolder(snippet, before, target).folderId
  {
    AppendingKeepsFolders(before, after, snippet.folder, "");
  }

  /** Snippets that share a target the first time share it the second time. */
  lemma EqualKeysGoTogether(
    a: TransferSnippet, b: TransferSnippet, before: seq<SnippetFolder>, after: seq<SnippetFolder>, target: Target
  )
    requires before <= after && KeyOf(a, before, target) == KeyOf(b, before, target)
    ensures a.name == b.name
    ensures var ra, rb := ResolveFolder(a, after, target), ResolveFolder(b, after, target);
            ra.createsFolder == rb.createsFolder && ra.folderId == rb.folderId
  {
    EqualKeysNameOneTarget(a, b, before, target);
    if !ResolveFolder(a, before, target).createsFolder {
      SettledTargetsStay(a, before, after, target);
      SettledTargetsStay(b, before, after, target);
    }
  }

  /** A row that was not written stays in the folder it counted as being in. */
  lemma UnwrittenRowsStayInPlace(
    before: Tables, nextId: nat, ids: nat -> string, im: Importing, row: Snippet
  )
    requires FreshIds(before, nextId, ids) && FoldersSoFar(before, nextId, ids, im)
    requires row.id in before.snippets && before.snippets[row.id] == row
    ensures EffectiveFolder(row, im.tables.folders) == EffectiveFolder(row, before.folders)
  {
    AppendingKeepsFolders(before.folders, im.tables.folders, "", row.folder);
    var after := im.tables.folders;
    forall f | f in after ensures f in before.folders || f.id != row.folder {
      var j :| 0 <= j < |after| && after[j] == f;
      if j < |before.folders| {
        assert before.folders[j] == after[j];
      } else {
        assert Drawn(ids, nextId, im.nextId, after[j].id);
      }
    }
  }

  lemma CreatedFoldersHaveIds(before: Tables, nextId: nat, ids: nat -> string, im: Importing)
    requires ValidTables(before) && FreshIds(before, nextId, ids) && FoldersSoFar(before, nextId, ids, im)
    ensures forall f | f in im.tables.folders :: f.id != ""
  {
    forall f | f in im.tables.folders ensures f.id != "" {
      var j :| 0 <= j < |im.tables.folders| && im.tables.folders[j] == f;
      if j < |before.folders| {
        assert before.folders[j] == f;
      } else {
        assert Drawn(ids, nextId, im.nextId, f.id);
      }
    }
  }

  /** The first import of a document, with the answers given to its conflicts. */
  datatype FirstImport = FirstImport(
    tables: Tables, nextId: nat, ids: nat -> string, stored: seq<Snippet>, pasted: seq<TransferSnippet>, target: Target,
    answers: nat -> Resolution)
  {
    function Plan(): ImportPlan {
      PlanOf(pasted, stored, tables.folders, target)
    }

    ghost predicate Succeeds() {
      && ValidTables(tables) && FreshIds(tables, nextId, ids) && Lists(stored, tables.snippets)
      && WellFormed(Plan())
      && Import(tables, nextId, ids, DecisionOf(Plan(), answers).entries).Some?
    }

    function Decided(): Deciding
      requires WellFormed(Plan())
    {
      DecideUpTo(Plan(), answers, |pasted|)
    }

    function Outcome(): Importing
      requires WellFormed(Plan()) && Import(tables, nextId, ids, DecisionOf(Plan(), answers).entries).Some?
    {
      Import(tables, nextId, ids, DecisionOf(Plan(), answers).entries).value
    }

    /** What the lemmas above say of this import. */
    ghost predicate Understood()
      requires Succeeds()
    {
      var entries, im := Decided().decision.entries, Outcome();
      && Traced(Plan(), answers, Decided(), |pasted|)
      && |im.written| == |entries|
      && ImportedSoFar(tables, nextId, ids, entries, im)
      && (forall f | f in im.tables.folders :: f.id != "")
      && (forall k | 0 <= k < |entries| :: !NamesUnknownFolder(tables.folders, entries[k]))
    }

    lemma Understand()
      requires Succeeds()
      ensures Understood()
    {
      hide PlannedAt, DecideUpTo, ImportUpTo, Traced, FreshIds, ValidTables, Overwritable, ImportStep;
      var entries := Decided().decision.entries;
      EveryEntryIsTraced(Plan(), answers, |pasted|);
      DecisionsAreOverwritable(tables, stored, pasted, target, answers);
      ImportLeavesItsEntries(tables, nextId, ids, entries, |entries|);
      CreatedFoldersHaveIds(tables, nextId, ids, Outcome());
      ImportFailsOnUnknownFolders(tables, nextId, ids, entries, |entries|);
    }

    /** The row an entry left behind is, the second time, in the target of the snippet that led to the entry. */
    lemma RowsAreInTarget(k: nat)
      requires Succeeds() && Understood() && k < |Decided().decision.entries|
      ensures |Decided().origins| == |Decided().decision.entries| && Decided().origins[k] < |pasted|
      ensures Outcome().written[k] in Outcome().tables.snippets
      ensures var row := Outcome().tables.snippets[Outcome().written[k]];
              var entry := Decided().decision.entries[k].snippet;
              var again := ResolveFolder(pasted[Decided().origins[k]], Outcome().tables.folders, target);
              && row.name == entry.name && row.command == entry.command && row.tags == entry.tags
              && row.danger == entry.danger && row.id == Outcome().written[k]
              && !again.createsFolder && EffectiveFolder(row, Outcome().tables.folders) == again.folderId
    {
      hide PlannedAt, DecideUpTo, ImportUpTo, FreshIds, ValidTables, Overwritable, ResolveFolder, NamesUnknownFolder;
      var s, im := Decided(), Outcome();
      var entry := s.decision.entries[k];
      assert LeavesRow(tables, im.tables, entry, im.written[k]);
      TracesStay(Plan(), answers, s, |pasted|, k);
      var o := s.origins[k];
      EntryKeepsItsTarget(entry, Plan().snippets[o], answers(o));
      PlannedSnippetIsThePasted(pasted, stored, tables.folders, target, o);
      ValidFolderIds();
      SecondTargetIsTheFirst(pasted[o], tables.folders, im.tables.folders, target, entry);
    }

    lemma ValidFolderIds()
      requires Succeeds()
      ensures forall f | f in tables.folders :: f.id != ""
    {
    }

    /** A row that would make snippet i of the second plan identical. */
    ghost predicate TwinOf(i: nat, row: Snippet)
      requires Succeeds() && i < |pasted|
    {
      var again := ResolveFolder(pasted[i], Outcome().tables.folders, target);
      && row.id in Outcome().tables.snippets && Outcome().tables.snippets[row.id] == row
      && !again.createsFolder && InTarget(row, again, Outcome().tables.folders) && SameContent(pasted[i], row)
    }

    /** A snippet that was stored, because it was new or kept, finds its own row. */
    lemma StoredSnippetsFindThemselves(i: nat) returns (row: Snippet)
      requires Succeeds() && Understood() && i < |pasted| && Produces(Plan().snippets[i], answers(i))
      ensures TwinOf(i, row)
    {
      hide PlannedAt, DecideUpTo, ImportUpTo, FreshIds, ValidTables, FoldersSoFar, RowsSoFar, RestSoFar;
      var s := Decided();
      ProducersHaveEntries(Plan(), answers, s, |pasted|, i);
      var k := s.entryOf[i].value;
      RowsAreInTarget(k);
      row := Outcome().tables.snippets[Outcome().written[k]];
      TracesStay(Plan(), answers, s, |pasted|, k);
      PlannedSnippetIsThePasted(pasted, stored, tables.folders, target, i);
      assert Unmarked(s.decision.entries[k]).snippet ==
        EntryFor(Plan().snippets[i], answers(i)).snippet.(favorite := false);
    }

    lemma Prefixed()
      requires Succeeds() && Understood()
      ensures tables.folders <= Outcome().tables.folders
    {
    }

    lemma FirstOfItsKeyIsNew(i: nat)
      requires Succeeds() && i < |pasted|
      requires Plan().snippets[i].status == Identical && Plan().snippets[i].existing.None?
      ensures var first := FirstLike(pasted, tables.folders, target, i);
              && Plan().snippets[first].status == New
              && SamePastedContent(pasted[i], pasted[first])
              && KeyOf(pasted[first], tables.folders, target) == KeyOf(pasted[i], tables.folders, target)
    {
      hide FreshIds, ValidTables, DecideUpTo, ImportUpTo;
      var first := FirstLike(pasted, tables.folders, target, i);
      EqualKeysNameOneTarget(pasted[first], pasted[i], tables.folders, target);
      var a := ResolveFolder(pasted[first], tables.folders, target);
      var b := ResolveFolder(pasted[i], tables.folders, target);
      assert forall s | s in stored :: InTarget(s, a, tables.folders) == InTarget(s, b, tables.folders) by {
        hide ResolveFolder, FindNamed, FindIdentical, FirstLike;
        assert a.folderId == b.folderId;
        PlannedSnippetIsThePasted(pasted, stored, tables.folders, target, first);
        PlannedSnippetIsThePasted(pasted, stored, tables.folders, target, i);
      }
      StatusMeaning(pasted, stored, tables.folders, target, first);
      StatusMeaning(pasted, stored, tables.folders, target, i);
    }

    /** A stored snippet that would make snippet i of the first plan identical. */
    ghost predicate StoredTwinOf(i: nat, twin: Snippet)
      requires i < |pasted|
    {
      var resolved := ResolveFolder(pasted[i], tables.folders, target);
      !resolved.createsFolder && InTarget(twin, resolved, tables.folders) && SameContent(pasted[i], twin)
    }

    /** No answer replaces the stored snippet. */
    ghost predicate Stays(stored: Snippet) {
      forall k: nat | k < |pasted| && Replaces(Plan().snippets[k], answers(k)) ::
        Plan().snippets[k].existing.value.id != stored.id
    }

    /** A stored twin that no answer replaces is found again, rewritten or not. */
    lemma StayingTwinsAreFound(i: nat, twin: Snippet) returns (row: Snippet)
      requires Succeeds() && Understood() && i < |pasted| && twin in stored && StoredTwinOf(i, twin) && Stays(twin)
      ensures TwinOf(i, row)
    {
      assert twin.id in tables.snippets && tables.snippets[twin.id] == twin by {
        hide PlannedAt, DecideUpTo, ImportUpTo, FreshIds;
      }
      var k := FollowRow(twin);
      hide Understood, Succeeds, PlanOf;
      row := Outcome().tables.snippets[twin.id];
      if k.Some? {
        RewrittenTwinsAreTwins(i, twin, k.value);
      } else {
        Prefixed();
        SettledTargetsStay(pasted[i], tables.folders, Outcome().tables.folders, target);
      }
    }

    /** The entry that overwrites a stored row; None when the row stays what and where it is. */
    lemma FollowRow(existing: Snippet) returns (k: Option<nat>)
      requires Succeeds() && Understood() && existing.id in tables.snippets && tables.snippets[existing.id] == existing
      ensures existing.id in Outcome().tables.snippets
      ensures match k
              case Some(k) =>
                && k < |Decided().decision.entries| && k < |Outcome().written|
                && Decided().decision.entries[k].replacing == existing.id == Outcome().written[k]
              case None =>
                && Outcome().tables.snippets[existing.id] == existing
                && EffectiveFolder(existing, Outcome().tables.folders) == EffectiveFolder(existing, tables.folders)
    {
      hide DecideUpTo, ImportUpTo, PlannedAt, Traced;
      var im := Outcome();
      if existing.id in im.written {
        var at :| 0 <= at < |im.written| && im.written[at] == existing.id;
        WrittenStoredRowsAreOverwritten(tables, nextId, ids, Decided().decision.entries, im, at);
        k := Some(at);
      } else {
        UnwrittenRowsStayInPlace(tables, nextId, ids, im, existing);
        k := None;
      }
    }

    lemma RewrittenTwinsAreTwins(i: nat, twin: Snippet, k: nat)
      requires Succeeds() && Understood() && i < |pasted| && k < |Decided().decision.entries|
      requires twin in stored && StoredTwinOf(i, twin) && Stays(twin)
      requires Decided().decision.entries[k].replacing == twin.id == Outcome().written[k]
      ensures k < |Outcome().written| && Outcome().written[k] in Outcome().tables.snippets
      ensures TwinOf(i, Outcome().tables.snippets[Outcome().written[k]])
    {
      hide PlannedAt, DecideUpTo, ImportUpTo, FreshIds, FoldersSoFar, RowsSoFar, RestSoFar, ResolveFolder;
      var s := Decided();
      RowsAreInTarget(k);
      TracesStay(Plan(), answers, s, |pasted|, k);
      var o := s.origins[k];
      ListingsHaveUniqueIds(stored, tables);
      PlannedSnippetIsThePasted(pasted, stored, tables.folders, target, o);
      assert twin.id != "";
      OverwritesItsMatch(Plan(), answers, s, |pasted|, k);
      assert Plan().snippets[o].existing.value == twin;
      assert Plan().snippets[o].status == Identical;
      Prefixed();
      SettledTargetsStay(pasted[i], tables.folders, Outcome().tables.folders, target);
      SettledTargetsStay(pasted[o], tables.folders, Outcome().tables.folders, target);
    }

    /** Snippets of one key that hold the same. */
    ghost predicate SameAs(i: nat, k: nat)
      requires i < |pasted| && k < |pasted|
    {
      KeyOf(pasted[i], tables.folders, target) == KeyOf(pasted[k], tables.folders, target)
      && SamePastedContent(pasted[i], pasted[k])
    }

    /** What a snippet holds is stored by the answers, or is stored already and replaced by none. */
    ghost predicate IsSettled(i: nat)
      requires i < |pasted|
    {
      || (exists k: nat | k < |pasted| :: SameAs(i, k) && Produces(Plan().snippets[k], answers(k)))
      || (exists twin | twin in stored :: StoredTwinOf(i, twin) && Stays(twin))
    }

    /** A snippet that holds what a stored one of its key holds finds that one's row. */
    lemma SameSnippetsFindOneRow(i: nat, k: nat) returns (row: Snippet)
      requires Succeeds() && Understood() && i < |pasted| && k < |pasted|
      requires SameAs(i, k) && Produces(Plan().snippets[k], answers(k))
      ensures TwinOf(i, row)
    {
      row := StoredSnippetsFindThemselves(k);
      Prefixed();
      hide Understood, Succeeds, KeyOf;
      EqualKeysGoTogether(pasted[i], pasted[k], tables.folders, Outcome().tables.folders, target);
    }

    lemma SettledSnippetsFindATwin(i: nat) returns (row: Snippet)
      requires Succeeds() && i < |pasted| && IsSettled(i)
      ensures TwinOf(i, row)
    {
      Understand();
      hide Understood, Succeeds, TwinOf, SameAs, StoredTwinOf, Stays;
      if k: nat :| k < |pasted| && SameAs(i, k) && Produces(Plan().snippets[k], answers(k)) {
        row := SameSnippetsFindOneRow(i, k);
      } else {
        var twin :| twin in stored && StoredTwinOf(i, twin) && Stays(twin);
        row := StayingTwinsAreFound(i, twin);
      }
    }

    /** With every conflict kept, every snippet is settled. */
    lemma KeepingSettlesAll(i: nat)
      requires Succeeds() && i < |pasted| && answers == KeepAll
      ensures IsSettled(i)
    {
      hide FreshIds, ValidTables, DecideUpTo, ImportUpTo, ResolveFolder, KeyOf, FirstLike;
      if Plan().snippets[i].status != Identical {
        assert SameAs(i, i) && Produces(Plan().snippets[i], answers(i));
      } else if Plan().snippets[i].existing.Some? {
        var twin := Plan().snippets[i].existing.value;
        PlannedSnippetIsThePasted(pasted, stored, tables.folders, target, i);
        assert StoredTwinOf(i, twin) && Stays(twin);
      } else {
        FirstOfItsKeyIsNew(i);
        var first := FirstLike(pasted, tables.folders, target, i);
        assert SameAs(i, first) && Produces(Plan().snippets[first], answers(first));
      }
    }
  }

  /** Decisions over identical snippets only add and replace nothing, whatever the answers. */
  lemma {:induction false} IdenticalSnippetsChangeNothing(plan: ImportPlan, resolutionOf: nat -> Resolution, n: nat)
    requires WellFormed(plan) && n <= |plan.snippets|
    requires forall i | 0 <= i < n :: plan.snippets[i].status == Identical
    ensures var d := DecideUpTo(plan, resolutionOf, n).decision;
            d.added == 0 && d.replaced == 0 && d.skipped == n
    ensures forall k | 0 <= k < |DecideUpTo(plan, resolutionOf, n).decision.entries| ::
              DecideUpTo(plan, resolutionOf, n).decision.entries[k].snippet.favorite
  {
    if n > 0 {
      IdenticalSnippetsChangeNothing(plan, resolutionOf, n - 1);
    }
  }

  /**
   After importing any document into any store with every conflict kept, planning the same document against the
   store it left makes every snippet identical, so a second import adds and replaces nothing whatever the answers.
   */
  lemma ReimportAddsNothing(
    first: FirstImport, storedAfter: seq<Snippet>, resolutionOf: nat -> Resolution
  )
    requires first.Succeeds() && first.answers == KeepAll && Lists(storedAfter, first.Outcome().tables.snippets)
    ensures var again := PlanOf(first.pasted, storedAfter, first.Outcome().tables.folders, first.target);
            && (forall i | 0 <= i < |first.pasted| :: again.snippets[i].status == Identical)
            && again.newFolders == []
            && WellFormed(again)
            && var decision := DecisionOf(again, resolutionOf);
               decision.added == 0 && decision.replaced == 0 && decision.skipped == |first.pasted|
  {
    var folders := first.Outcome().tables.folders;
    var again := PlanOf(first.pasted, storedAfter, folders, first.target);
    hide FirstImport.Succeeds, FirstImport.Outcome, DecideUpTo, ImportUpTo, PlannedAt, ResolveFolder;
    forall i | 0 <= i < |first.pasted|
      ensures again.snippets[i].status == Identical
              && !ResolveFolder(first.pasted[i], folders, first.target).createsFolder
    {
      first.KeepingSettlesAll(i);
      var row := first.SettledSnippetsFindATwin(i);
      assert row in storedAfter;
      StatusMeaning(first.pasted, storedAfter, folders, first.target, i);
    }
    EarlierComesEarlier(first.pasted, storedAfter, folders, first.target);
    IdenticalSnippetsChangeNothing(again, resolutionOf, |first.pasted|);
    NewFoldersAreTheMissingOnes(first.pasted, folders, first.target, |first.pasted|);
  }
}
