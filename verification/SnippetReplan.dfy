/**
 Planning an imported document again, whatever the first import was answered: which snippets the second plan finds
 identical.
 */
module SnippetReplan {
  import opened Wrappers
  import opened CommandTypes
  import opened SnippetImportPlan
  import opened SnippetDecision
  import opened SnippetFavorites
  import opened SnippetStore
  import opened SnippetImport
  import opened SnippetReimport

  // ---------- folders ----------

  /** Folder ids are a primary key. */
  ghost predicate FolderIdsDiffer(folders: seq<SnippetFolder>) {
    forall j, l | 0 <= j < l < |folders| :: folders[j].id != folders[l].id
  }

  lemma {:induction false} ImportKeepsFolderIds(
    before: Tables, nextId: nat, ids: nat -> string, entries: seq<ImportEntry>, n: nat
  )
    requires n <= |entries| && FreshIds(before, nextId, ids) && Overwritable(before, entries)
    requires FolderIdsDiffer(before.folders) && ImportUpTo(before, nextId, ids, entries, n).Some?
    ensures FolderIdsDiffer(ImportUpTo(before, nextId, ids, entries, n).value.tables.folders)
  {
    hide Overwritable, FreshIds, RowsSoFar, RestSoFar, FoldersSoFar, FolderOf;
    if n > 0 {
      ImportKeepsFolderIds(before, nextId, ids, entries, n - 1);
      ImportLeavesItsEntries(before, nextId, ids, entries, n - 1);
      StepKeepsFolderIds(before, nextId, ids, ImportUpTo(before, nextId, ids, entries, n - 1).value, entries[n - 1]);
    }
  }

  lemma StepKeepsFolderIds(before: Tables, nextId: nat, ids: nat -> string, im: Importing, entry: ImportEntry)
    requires FreshIds(before, nextId, ids) && FoldersSoFar(before, nextId, ids, im)
             && FolderIdsDiffer(im.tables.folders)
    requires ImportStep(before.folders, ids, im, entry).Some?
    ensures FolderIdsDiffer(ImportStep(before.folders, ids, im, entry).value.tables.folders)
  {
    var folders := im.tables.folders;
    forall j | 0 <= j < |folders| ensures folders[j].id != ids(im.nextId) {
      if j < |before.folders| {
        assert before.folders[j] == folders[j];
        assert FolderWithId(before.folders, ids(im.nextId)).None?;
      } else {
        assert Drawn(ids, nextId, im.nextId, folders[j].id);
      }
    }
  }

  /** A folder found by two names is one folder. */
  lemma OneFolderOneName(folders: seq<SnippetFolder>, a: string, b: string)
    requires FolderIdsDiffer(folders) && FolderNamed(folders, a).Some? && FolderNamed(folders, b).Some?
    requires FolderNamed(folders, a).value.id == FolderNamed(folders, b).value.id
    ensures a == b
  {
    var i :| 0 <= i < |folders| && folders[i] == FolderNamed(folders, a).value;
    var j :| 0 <= j < |folders| && folders[j] == FolderNamed(folders, b).value;
    assert i == j;
  }

  // ---------- one target, twice ----------

  /** Snippets that share a target among more folders shared it among fewer. */
  lemma OneTargetOneKey(
    a: TransferSnippet, b: TransferSnippet, before: seq<SnippetFolder>, after: seq<SnippetFolder>, target: Target
  )
    requires FolderIdsDiffer(after) && (forall f | f in after :: f.id != "") && a.name == b.name
    requires var ra, rb := ResolveFolder(a, after, target), ResolveFolder(b, after, target);
             !ra.createsFolder && !rb.createsFolder && ra.folderId == rb.folderId
    ensures KeyOf(a, before, target) == KeyOf(b, before, target)
  {
    if target.None? && a.folder != b.folder && a.folder != "" && b.folder != "" {
      OneFolderOneName(after, a.folder, b.folder);
    }
  }

  /** A folder found only after the import has a drawn id. */
  lemma NewlyNamedFoldersAreDrawn(before: Tables, nextId: nat, ids: nat -> string, im: Importing, name: string)
    requires FoldersSoFar(before, nextId, ids, im)
    requires FolderNamed(before.folders, name).None? && FolderNamed(im.tables.folders, name).Some?
    ensures Drawn(ids, nextId, im.nextId, FolderNamed(im.tables.folders, name).value.id)
  {
    var after := im.tables.folders;
    var j :| 0 <= j < |after| && after[j] == FolderNamed(after, name).value;
    assert forall m | 0 <= m < |before.folders| :: after[m] == before.folders[m] && after[m] in before.folders;
  }

  /** A row of the store before is in no folder the import created. */
  lemma OldRowsAreInOldFolders(
    before: Tables, nextId: nat, ids: nat -> string, im: Importing, row: Snippet, snippet: TransferSnippet,
    target: Target
  )
    requires FreshIds(before, nextId, ids) && FoldersSoFar(before, nextId, ids, im)
    requires row.id in before.snippets && before.snippets[row.id] == row
    requires var again := ResolveFolder(snippet, im.tables.folders, target);
             !again.createsFolder && EffectiveFolder(row, im.tables.folders) == again.folderId
    ensures !ResolveFolder(snippet, before.folders, target).createsFolder
  {
    if ResolveFolder(snippet, before.folders, target).createsFolder {
      NewlyNamedFoldersAreDrawn(before, nextId, ids, im, snippet.folder);
      assert false;
    }
  }

  // ---------- what the second plan finds ----------

  /** An entry has the content of the snippet that led to it, and a row in that one's target. */
  lemma WrittenTwinsAreSettled(first: FirstImport, i: nat, row: Snippet, k: nat)
    requires first.Succeeds() && first.Understood() && FolderIdsDiffer(first.Outcome().tables.folders)
    requires i < |first.pasted| && first.TwinOf(i, row)
    requires k < |first.Decided().decision.entries| && first.Outcome().written[k] == row.id
    ensures first.IsSettled(i)
  {
    hide first.Understood, PlannedAt, DecideUpTo, ImportUpTo, KeyOf, ResolveFolder, first.StoredTwinOf, first.Stays,
         Produces;
    first.RowsAreInTarget(k);
    first.Prefixed();
    FoldersHaveIds(first);
    var o := first.Decided().origins[k];
    ListingsHaveUniqueIds(first.stored, first.tables);
    var paste := Paste(first.pasted, first.stored, first.tables.folders, first.target, first.answers);
    paste.EntriesHaveTheirContent(|first.pasted|, k);
    EntryNames(first, k);
    OneTargetOneKey(
      first.pasted[i], first.pasted[o], first.tables.folders, first.Outcome().tables.folders, first.target);
    assert first.SameAs(i, o);
    if !Produces(first.Plan().snippets[o], first.answers(o)) {
      FavoriteOnlyTwinsStay(first, o, k);
      var twin := first.Plan().snippets[o].existing.value;
      SharedTwin(first, i, o, twin);
      assert first.StoredTwinOf(i, twin) && first.Stays(twin);
    }
  }

  lemma FoldersHaveIds(first: FirstImport)
    requires first.Succeeds() && first.Understood()
    ensures forall f | f in first.Outcome().tables.folders :: f.id != ""
  {
  }

  /** An entry keeps the name of the snippet that led to it. */
  lemma EntryNames(first: FirstImport, k: nat)
    requires first.Succeeds() && first.Understood() && k < |first.Decided().decision.entries|
    ensures |first.Decided().origins| == |first.Decided().decision.entries|
            && first.Decided().origins[k] < |first.pasted|
    ensures first.Decided().decision.entries[k].snippet.name == first.pasted[first.Decided().origins[k]].name
  {
    hide PlannedAt, DecideUpTo, ImportUpTo;
    var s := first.Decided();
    TracesStay(first.Plan(), first.answers, s, |first.pasted|, k);
    var o := s.origins[k];
    var planned, entry := first.Plan().snippets[o], s.decision.entries[k];
    PlannedSnippetIsThePasted(first.pasted, first.stored, first.tables.folders, first.target, o);
    assert planned.status != Identical ==>
        Unmarked(entry).snippet.name == Unmarked(EntryFor(planned, first.answers(o))).snippet.name;
  }

  /** The stored snippet a favorite-only entry marks is a twin that no answer replaces. */
  lemma FavoriteOnlyTwinsStay(first: FirstImport, o: nat, k: nat)
    requires first.Succeeds() && first.Understood() && k < |first.Decided().decision.entries| && o < |first.pasted|
    requires |first.Decided().origins| == |first.Decided().decision.entries| && first.Decided().origins[k] == o
    requires !Produces(first.Plan().snippets[o], first.answers(o))
    ensures first.Plan().snippets[o].existing.Some?
    ensures var twin := first.Plan().snippets[o].existing.value;
            twin in first.stored && first.StoredTwinOf(o, twin) && first.Stays(twin)
  {
    hide PlannedAt, DecideUpTo, ImportUpTo, first.Understood, FreshIds;
    var s, n := first.Decided(), |first.pasted|;
    assert first.Understood();
    EveryEntryIsTraced(first.Plan(), first.answers, n);
    TracesStay(first.Plan(), first.answers, s, n, k);
    var planned := first.Plan().snippets[o];
    assert planned.status == Identical && planned.existing.Some?;
    var twin := planned.existing.value;
    PlannedSnippetIsThePasted(first.pasted, first.stored, first.tables.folders, first.target, o);
    var paste := Paste(first.pasted, first.stored, first.tables.folders, first.target, first.answers);
    paste.IdenticalMatchesAreTwins(o);
    ListingsHaveUniqueIds(first.stored, first.tables);
    OverwritesNeverCollide(first.pasted, first.stored, first.tables.folders, first.target, first.answers, n);
    forall j: nat | j < n && Replaces(first.Plan().snippets[j], first.answers(j))
      ensures first.Plan().snippets[j].existing.value.id != twin.id
    {
      ReplacersOverwrite(first, j);
      var l := s.entryOf[j].value;
      assert s.decision.entries[k].replacing == twin.id;
      assert l != k;
    }
  }

  /** A replacing answer leads to an entry that overwrites the match. */
  lemma ReplacersOverwrite(first: FirstImport, j: nat)
    requires WellFormed(first.Plan()) && Traced(first.Plan(), first.answers, first.Decided(), |first.pasted|)
    requires j < |first.pasted| && Replaces(first.Plan().snippets[j], first.answers(j))
    ensures var s := first.Decided();
            && |s.entryOf| == |first.pasted| && s.entryOf[j].Some? && s.entryOf[j].value < |s.decision.entries|
            && |s.origins| == |s.decision.entries| && s.origins[s.entryOf[j].value] == j
            && s.decision.entries[s.entryOf[j].value].replacing == first.Plan().snippets[j].existing.value.id
  {
    hide PlannedAt, DecideUpTo;
    var s := first.Decided();
    ProducersHaveEntries(first.Plan(), first.answers, s, |first.pasted|, j);
    var l := s.entryOf[j].value;
    TracesStay(first.Plan(), first.answers, s, |first.pasted|, l);
    assert Unmarked(s.decision.entries[l]).replacing == EntryFor(first.Plan().snippets[j], first.answers(j)).replacing;
  }

  lemma SharedTwin(first: FirstImport, i: nat, o: nat, twin: Snippet)
    requires i < |first.pasted| && o < |first.pasted| && first.SameAs(i, o) && first.StoredTwinOf(o, twin)
    ensures first.StoredTwinOf(i, twin)
  {
    EqualKeysNameOneTarget(first.pasted[i], first.pasted[o], first.tables.folders, first.target);
  }

  /** A row the first import did not write was a twin before, and nothing replaced it. */
  lemma UnwrittenTwinsAreSettled(first: FirstImport, i: nat, row: Snippet)
    requires first.Succeeds() && first.Understood()
    requires i < |first.pasted| && first.TwinOf(i, row) && row.id !in first.Outcome().written
    ensures first.IsSettled(i)
  {
    UnwrittenTwinsWereTwins(first, i, row);
    UnwrittenRowsStay(first, row);
    hide first.Succeeds, first.Understood, first.StoredTwinOf, first.Stays, first.TwinOf;
    assert first.StoredTwinOf(i, row) && first.Stays(row);
  }

  lemma UnwrittenTwinsWereTwins(first: FirstImport, i: nat, row: Snippet)
    requires first.Succeeds() && first.Understood()
    requires i < |first.pasted| && first.TwinOf(i, row) && row.id !in first.Outcome().written
    ensures row in first.stored && first.StoredTwinOf(i, row)
  {
    hide PlannedAt, DecideUpTo, ImportUpTo, Traced, FreshIds, FoldersSoFar, RowsSoFar, ResolveFolder, EffectiveFolder;
    var im := first.Outcome();
    UnwrittenRowsStayInPlace(first.tables, first.nextId, first.ids, im, row);
    first.Prefixed();
    OldRowsAreInOldFolders(first.tables, first.nextId, first.ids, im, row, first.pasted[i], first.target);
    SettledTargetsStay(first.pasted[i], first.tables.folders, im.tables.folders, first.target);
    assert ResolveFolder(first.pasted[i], im.tables.folders, first.target).snippet.name == first.pasted[i].name;
    assert ResolveFolder(first.pasted[i], first.tables.folders, first.target).snippet.name == first.pasted[i].name;
  }

  lemma UnwrittenRowsStay(first: FirstImport, row: Snippet)
    requires first.Succeeds() && first.Understood() && row.id !in first.Outcome().written
    ensures first.Stays(row)
  {
    forall j: nat | j < |first.pasted| && Replaces(first.Plan().snippets[j], first.answers(j))
      ensures first.Plan().snippets[j].existing.value.id != row.id
    {
      ReplacedRowsAreWritten(first, j);
    }
  }

  lemma ReplacedRowsAreWritten(first: FirstImport, j: nat)
    requires first.Succeeds() && first.Understood()
    requires j < |first.pasted| && Replaces(first.Plan().snippets[j], first.answers(j))
    ensures first.Plan().snippets[j].existing.value.id in first.Outcome().written
  {
    hide DecideUpTo, ImportUpTo, PlannedAt, Traced, FreshIds, FoldersSoFar;
    ReplacersOverwrite(first, j);
    var l := first.Decided().entryOf[j].value;
    PlannedSnippetIsThePasted(first.pasted, first.stored, first.tables.folders, first.target, j);
    assert first.Plan().snippets[j].existing.value.id != "";
    assert first.Outcome().written[l] == first.Decided().decision.entries[l].replacing;
  }

  /** A snippet has a twin in the store the import left exactly when it is settled. */
  lemma TwinsAreFoundIffSettled(first: FirstImport, i: nat)
    requires first.Succeeds() && FolderIdsDiffer(first.tables.folders) && i < |first.pasted|
    ensures (exists row :: first.TwinOf(i, row)) <==> first.IsSettled(i)
  {
    first.Understand();
    OutcomeKeepsFolderIds(first);
    hide first.Understood, first.Succeeds, first.TwinOf, first.IsSettled, first.Outcome;
    if first.IsSettled(i) {
      var row := first.SettledSnippetsFindATwin(i);
    } else if row :| first.TwinOf(i, row) {
      TwinIsSettled(first, i, row);
    }
  }

  lemma OutcomeKeepsFolderIds(first: FirstImport)
    requires first.Succeeds() && FolderIdsDiffer(first.tables.folders)
    ensures FolderIdsDiffer(first.Outcome().tables.folders)
  {
    hide PlannedAt, DecideUpTo, ImportUpTo, FreshIds, ValidTables, Overwritable;
    DecisionsAreOverwritable(first.tables, first.stored, first.pasted, first.target, first.answers);
    var entries := first.Decided().decision.entries;
    ImportKeepsFolderIds(first.tables, first.nextId, first.ids, entries, |entries|);
  }

  lemma TwinIsSettled(first: FirstImport, i: nat, row: Snippet)
    requires first.Succeeds() && first.Understood() && FolderIdsDiffer(first.Outcome().tables.folders)
    requires i < |first.pasted| && first.TwinOf(i, row)
    ensures first.IsSettled(i)
  {
    WrittenByEntries(first);
    hide first.Understood, first.Succeeds, first.TwinOf, first.IsSettled;
    if row.id in first.Outcome().written {
      var k :| 0 <= k < |first.Outcome().written| && first.Outcome().written[k] == row.id;
      WrittenTwinsAreSettled(first, i, row, k);
    } else {
      UnwrittenTwinsAreSettled(first, i, row);
    }
  }

  lemma WrittenByEntries(first: FirstImport)
    requires first.Succeeds() && first.Understood()
    ensures |first.Outcome().written| == |first.Decided().decision.entries|
  {
  }

  /**
   Whatever the first import was answered, planning the document again finds all of it identical exactly when every
   snippet was settled: stored under some equal snippet's answer, or a stored twin of its that no answer replaced.
   */
  lemma ReimportIsIdenticalIffSettled(first: FirstImport, storedAfter: seq<Snippet>)
    requires first.Succeeds() && FolderIdsDiffer(first.tables.folders)
    requires Lists(storedAfter, first.Outcome().tables.snippets)
    ensures var again := PlanOf(first.pasted, storedAfter, first.Outcome().tables.folders, first.target);
            (forall i: nat | i < |first.pasted| :: again.snippets[i].status == Identical)
            <==> (forall i: nat | i < |first.pasted| :: first.IsSettled(i))
  {
    var again := PlanOf(first.pasted, storedAfter, first.Outcome().tables.folders, first.target);
    hide first.IsSettled, first.Succeeds, first.Outcome, PlannedAt;
    if forall i: nat | i < |first.pasted| :: first.IsSettled(i) {
      SettledDocumentsAreIdentical(first, storedAfter);
    } else if forall i: nat | i < |first.pasted| :: again.snippets[i].status == Identical {
      IdenticalDocumentsAreSettled(first, storedAfter);
    }
  }

  lemma SettledDocumentsAreIdentical(first: FirstImport, storedAfter: seq<Snippet>)
    requires first.Succeeds() && Lists(storedAfter, first.Outcome().tables.snippets)
    requires forall i: nat | i < |first.pasted| :: first.IsSettled(i)
    ensures var again := PlanOf(first.pasted, storedAfter, first.Outcome().tables.folders, first.target);
            forall i: nat | i < |first.pasted| :: again.snippets[i].status == Identical
  {
    var again := PlanOf(first.pasted, storedAfter, first.Outcome().tables.folders, first.target);
    hide first.IsSettled, first.Succeeds, first.Outcome, PlannedAt;
    forall i: nat | i < |first.pasted| ensures again.snippets[i].status == Identical {
      var row := first.SettledSnippetsFindATwin(i);
      TwinsAreIdentical(first, storedAfter, i, row);
    }
  }

  lemma IdenticalDocumentsAreSettled(first: FirstImport, storedAfter: seq<Snippet>)
    requires first.Succeeds() && FolderIdsDiffer(first.tables.folders)
    requires Lists(storedAfter, first.Outcome().tables.snippets)
    requires var again := PlanOf(first.pasted, storedAfter, first.Outcome().tables.folders, first.target);
             forall i: nat | i < |first.pasted| :: again.snippets[i].status == Identical
    ensures forall i: nat | i < |first.pasted| :: first.IsSettled(i)
  {
    var folders := first.Outcome().tables.folders;
    var again := PlanOf(first.pasted, storedAfter, folders, first.target);
    assert forall k: nat | k < |first.pasted| ::
           PlannedAt(first.pasted, storedAfter, folders, first.target, k) == again.snippets[k];
    hide first.IsSettled, first.Succeeds, first.Outcome, first.TwinOf, PlannedAt;
    forall i: nat | i < |first.pasted| ensures first.IsSettled(i) {
      var row := IdenticalHasATwin(first, storedAfter, i);
      TwinsAreFoundIffSettled(first, i);
    }
  }

  lemma TwinsAreIdentical(first: FirstImport, storedAfter: seq<Snippet>, i: nat, row: Snippet)
    requires first.Succeeds() && i < |first.pasted| && first.TwinOf(i, row)
    requires Lists(storedAfter, first.Outcome().tables.snippets)
    ensures PlannedAt(first.pasted, storedAfter, first.Outcome().tables.folders, first.target, i).status == Identical
  {
    var folders := first.Outcome().tables.folders;
    hide first.Succeeds, first.Outcome, PlannedAt, ResolveFolder, EffectiveFolder;
    assert row in storedAfter;
    StatusMeaning(first.pasted, storedAfter, folders, first.target, i);
  }

  /** A snippet that is identical without a stored twin repeats one that is new. */
  lemma RepeatsRepeatANewOne(
    pasted: seq<TransferSnippet>, stored: seq<Snippet>, folders: seq<SnippetFolder>, target: Target, i: nat
  )
    requires i < |pasted| && PlannedAt(pasted, stored, folders, target, i).status == Identical
    requires !StoredTwin(pasted[i], stored, folders, target)
    ensures PlannedAt(pasted, stored, folders, target, FirstLike(pasted, folders, target, i)).status == New
  {
    hide PlannedAt, KeyOf;
    var first := FirstLike(pasted, folders, target, i);
    StatusMeaning(pasted, stored, folders, target, i);
    StatusMeaning(pasted, stored, folders, target, first);
    EqualKeysNameOneTarget(pasted[i], pasted[first], folders, target);
    assert FirstLike(pasted, folders, target, first) == first;
    hide FirstLike;
    SameTargetSameNamesakes(pasted[i], pasted[first], stored, folders, target);
  }

  lemma SameTargetSameNamesakes(
    a: TransferSnippet, b: TransferSnippet, stored: seq<Snippet>, folders: seq<SnippetFolder>, target: Target
  )
    requires KeyOf(a, folders, target) == KeyOf(b, folders, target)
    ensures StoredNamesake(a, stored, folders, target) == StoredNamesake(b, stored, folders, target)
  {
    EqualKeysNameOneTarget(a, b, folders, target);
    var ra, rb := ResolveFolder(a, folders, target), ResolveFolder(b, folders, target);
    assert ra.snippet.name == a.name && rb.snippet.name == b.name;
    hide ResolveFolder, EffectiveFolder;
    assert forall s | s in stored :: InTarget(s, ra, folders) == InTarget(s, rb, folders);
  }

  /** Where nothing is new, an identical snippet has a stored twin. */
  lemma IdenticalHasATwin(first: FirstImport, storedAfter: seq<Snippet>, i: nat) returns (row: Snippet)
    requires first.Succeeds() && i < |first.pasted| && Lists(storedAfter, first.Outcome().tables.snippets)
    requires forall k: nat | k < |first.pasted| ::
               PlannedAt(first.pasted, storedAfter, first.Outcome().tables.folders, first.target, k).status == Identical
    ensures first.TwinOf(i, row)
  {
    var folders := first.Outcome().tables.folders;
    hide first.Succeeds, first.Outcome, PlannedAt, ResolveFolder, EffectiveFolder, FirstLike;
    var resolved := ResolveFolder(first.pasted[i], folders, first.target);
    assert StoredTwin(first.pasted[i], storedAfter, folders, first.target) by {
      if !StoredTwin(first.pasted[i], storedAfter, folders, first.target) {
        RepeatsRepeatANewOne(first.pasted, storedAfter, folders, first.target, i);
        assert false;
      }
    }
    row :| row in storedAfter && InTarget(row, resolved, folders) && SameContent(first.pasted[i], row);
  }

  /**
   A stored x pasted behind another x: when the answer replaces the stored one by the other, the identical one is
   found no more.
   */
  lemma ReplacedTwinsAreNotSettled(first: FirstImport)
    requires first.tables == Tables([], map[STORED.id := STORED]) && first.stored == [STORED] && first.target == None
    requires first.pasted == [Pasted("2", false), Pasted("1", false)] && first.answers(0) == Replace
    ensures first.Plan().snippets[1].status == Identical && !first.IsSettled(1)
  {
    assert KeyOf(first.pasted[0], [], None) == KeyOf(first.pasted[1], [], None);
    assert InTarget(STORED, ResolveFolder(first.pasted[0], [], None), []);
    assert first.Plan().snippets[0] == PlannedSnippet(first.pasted[0], "", false, NameConflict, Some(STORED), None);
    assert first.Plan().snippets[1] == PlannedSnippet(first.pasted[1], "", false, Identical, Some(STORED), Some(0));
    hide PlannedAt;
    assert Replaces(first.Plan().snippets[0], first.answers(0));
    assert !first.Stays(STORED);
    assert !first.SameAs(1, 0);
  }

  /** Planning that document again finds something in it that is not identical, whichever way the rows are listed. */
  lemma ReplacedTwinsAreNotFoundAgain(first: FirstImport, storedAfter: seq<Snippet>)
    requires first.tables == Tables([], map[STORED.id := STORED]) && first.stored == [STORED] && first.target == None
    requires first.pasted == [Pasted("2", false), Pasted("1", false)] && first.answers(0) == Replace
    requires first.Succeeds() && Lists(storedAfter, first.Outcome().tables.snippets)
    ensures var again := PlanOf(first.pasted, storedAfter, first.Outcome().tables.folders, first.target);
            exists i: nat | i < 2 :: again.snippets[i].status != Identical
  {
    ReplacedTwinsAreNotSettled(first);
    ReimportIsIdenticalIffSettled(first, storedAfter);
    hide FirstImport.Succeeds, FirstImport.Outcome, FirstImport.IsSettled, PlannedAt;
  }
}
