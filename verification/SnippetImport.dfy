/**
 What an import leaves in the store: every entry its row, every missing folder once, and all else as it was.
 */
module SnippetImport {
  import opened Wrappers
  import opened CommandTypes
  import opened SnippetDecision
  import opened SnippetStore

  // ---------- the store between plan and import ----------

  /** Ids drawn from nextId on are set, differ, and are used nowhere in the tables. */
  ghost predicate FreshIds(tables: Tables, nextId: nat, ids: nat -> string) {
    && (forall m: nat :: ids(m) != "")
    && (forall a: nat, b: nat | ids(a) == ids(b) :: a == b)
    && (forall m: nat | m >= nextId :: ids(m) !in tables.snippets && FolderWithId(tables.folders, ids(m)).None?)
    && (forall m: nat, id | m >= nextId && id in tables.snippets :: tables.snippets[id].folder != ids(m))
  }

  ghost predicate ValidTables(tables: Tables) {
    && (forall f | f in tables.folders :: f.id != "")
    && (forall id | id in tables.snippets :: id != "" && tables.snippets[id].id == id)
  }

  /** stored lists the rows, in any order. */
  ghost predicate Lists(stored: seq<Snippet>, snippets: map<string, Snippet>) {
    && (forall s | s in stored :: s.id in snippets && snippets[s.id] == s)
    && (forall id | id in snippets :: snippets[id] in stored)
  }

  lemma ListingsHaveUniqueIds(stored: seq<Snippet>, tables: Tables)
    requires ValidTables(tables) && Lists(stored, tables.snippets)
    ensures UniqueIds(stored)
  {
  }

  // ---------- what an import keeps ----------

  ghost predicate Drawn(ids: nat -> string, low: nat, high: nat, id: string) {
    exists m: nat :: low <= m < high && ids(m) == id
  }

  /** The id an entry's row is filed under. */
  function TargetId(folders: seq<SnippetFolder>, entry: ImportEntry): string {
    if entry.folderId != "" then entry.folderId
    else if entry.snippet.folder == "" then ""
    else match FolderNamed(folders, entry.snippet.folder) case Some(folder) => folder.id case None => ""
  }

  /** The row an entry leaves behind: its content in its folder, the use counts of the row it overwrote. */
  ghost predicate LeavesRow(before: Tables, after: Tables, entry: ImportEntry, id: string) {
    && id in after.snippets
    && (entry.folderId == "" && entry.snippet.folder != "" ==> FolderNamed(after.folders, entry.snippet.folder).Some?)
    && var row, content := after.snippets[id], entry.snippet;
       && row.id == id && row.folder == TargetId(after.folders, entry)
       && row.name == content.name && row.command == content.command && row.tags == content.tags
       && row.favorite == content.favorite && row.danger == content.danger
       && row.uses == (if id in before.snippets then before.snippets[id].uses else 0)
       && row.lastUsed == (if id in before.snippets then before.snippets[id].lastUsed else 0)
  }

  ghost predicate Overwritable(tables: Tables, entries: seq<ImportEntry>) {
    && NoCollision(entries)
    && forall k | 0 <= k < |entries| && entries[k].replacing != "" :: entries[k].replacing in tables.snippets
  }

  /** Folders are only appended, under drawn ids. */
  ghost predicate FoldersSoFar(before: Tables, nextId: nat, ids: nat -> string, im: Importing) {
    var folders := im.tables.folders;
    && nextId <= im.nextId
    && before.folders <= folders
    && (forall j | |before.folders| <= j < |folders| :: Drawn(ids, nextId, im.nextId, folders[j].id))
    && im.summary.foldersCreated == |folders| - |before.folders|
  }

  /** Every entry has left its row, under the id it overwrites or a drawn one. */
  ghost predicate RowsSoFar(before: Tables, nextId: nat, ids: nat -> string, entries: seq<ImportEntry>, im: Importing) {
    && |im.written| <= |entries|
    && (forall k | 0 <= k < |im.written| :: LeavesRow(before, im.tables, entries[k], im.written[k]))
    && (forall k | 0 <= k < |im.written| ::
          if entries[k].replacing != "" then im.written[k] == entries[k].replacing
          else Drawn(ids, nextId, im.nextId, im.written[k]))
    && (forall k, l | 0 <= k < l < |im.written| :: im.written[k] != im.written[l])
  }

  /** No row but those written came or changed. */
  ghost predicate OnlyWritten(before: map<string, Snippet>, after: map<string, Snippet>, written: seq<string>) {
    && (forall id :: id in after <==> id in before || id in written)
    && (forall id | id in before && id !in written :: after[id] == before[id])
  }

  /** Nothing else was touched, and the rows grew by the entries that add one. */
  ghost predicate RestSoFar(before: Tables, entries: seq<ImportEntry>, im: Importing) {
    var n, after := |im.written|, im.tables.snippets;
    && n <= |entries|
    && OnlyWritten(before.snippets, after, im.written)
    && |after| == |before.snippets| + Adds(entries[..n])
    && im.summary.added == Adds(entries[..n]) && im.summary.added + im.summary.replaced == n
  }

  /** What holds after the first |written| entries. */
  ghost predicate ImportedSoFar(
    before: Tables, nextId: nat, ids: nat -> string, entries: seq<ImportEntry>, im: Importing
  ) {
    && FoldersSoFar(before, nextId, ids, im)
    && RowsSoFar(before, nextId, ids, entries, im)
    && RestSoFar(before, entries, im)
  }

  /** A freshly drawn id differs from everything stored, drawn or overwritten before. */
  lemma NextIdIsNew(
    before: Tables, nextId: nat, ids: nat -> string, entries: seq<ImportEntry>, im: Importing, drawn: nat
  )
    requires FreshIds(before, nextId, ids) && Overwritable(before, entries)
    requires ImportedSoFar(before, nextId, ids, entries, im) && im.nextId <= drawn
    ensures ids(drawn) !in im.tables.snippets && FolderWithId(im.tables.folders, ids(drawn)).None?
  {
    NextIdIsNoRow(before, nextId, ids, entries, im, drawn);
    hide RowsSoFar, Overwritable;
    forall j | 0 <= j < |im.tables.folders| ensures im.tables.folders[j].id != ids(drawn) {
      if j < |before.folders| {
        assert im.tables.folders[j] == before.folders[j];
      } else {
        var m: nat :| nextId <= m < im.nextId && ids(m) == im.tables.folders[j].id;
      }
    }
  }

  lemma NextIdIsNoRow(
    before: Tables, nextId: nat, ids: nat -> string, entries: seq<ImportEntry>, im: Importing, drawn: nat
  )
    requires FreshIds(before, nextId, ids) && Overwritable(before, entries)
    requires ImportedSoFar(before, nextId, ids, entries, im) && im.nextId <= drawn
    ensures ids(drawn) !in im.written && ids(drawn) !in before.snippets
  {
    hide LeavesRow, RestSoFar;
    forall k | 0 <= k < |im.written| ensures im.written[k] != ids(drawn) {
      if entries[k].replacing == "" {
        var m: nat :| nextId <= m < im.nextId && ids(m) == im.written[k];
      }
    }
  }

  /** A row stays where it is when a folder of a new name is appended. */
  lemma AppendedFolderKeepsRows(
    before: Tables, after: Tables, folder: SnippetFolder, entry: ImportEntry, id: string
  )
    requires LeavesRow(before, after, entry, id)
    ensures LeavesRow(before, after.(folders := after.folders + [folder]), entry, id)
  {
    FolderNamedAppend(after.folders, [folder], entry.snippet.folder);
  }

  lemma CreatingKeepsRows(
    before: Tables, nextId: nat, ids: nat -> string, entries: seq<ImportEntry>, im: Importing, name: string
  )
    requires RowsSoFar(before, nextId, ids, entries, im)
    ensures RowsSoFar(before, nextId, ids, entries, CreateFolder(ids, im, name))
  {
    hide LeavesRow;
    var im' := CreateFolder(ids, im, name);
    forall k | 0 <= k < |im.written| ensures LeavesRow(before, im'.tables, entries[k], im.written[k]) {
      var folder := SnippetFolder(ids(im.nextId), name, "", NextPosition(im.tables.folders));
      AppendedFolderKeepsRows(before, im.tables, folder, entries[k], im.written[k]);
    }
  }

  lemma CreatingKeepsImport(
    before: Tables, nextId: nat, ids: nat -> string, entries: seq<ImportEntry>, im: Importing, name: string
  )
    requires ImportedSoFar(before, nextId, ids, entries, im)
    ensures ImportedSoFar(before, nextId, ids, entries, CreateFolder(ids, im, name))
  {
    hide RowsSoFar;
    CreatingKeepsRows(before, nextId, ids, entries, im, name);
    assert ids(im.nextId) == CreateFolder(ids, im, name).tables.folders[|im.tables.folders|].id;
  }

  function NextRowId(ids: nat -> string, entries: seq<ImportEntry>, im: Importing): string
    requires |im.written| < |entries|
  {
    if entries[|im.written|].replacing == "" then ids(im.nextId) else entries[|im.written|].replacing
  }

  /** The row of the next entry is a new one, or one as it was before the import. */
  ghost predicate RowIsFree(before: Tables, ids: nat -> string, entries: seq<ImportEntry>, im: Importing) {
    && |im.written| < |entries|
    && var id := NextRowId(ids, entries, im);
       && id !in im.written
       && (entries[|im.written|].replacing == "" <==> id !in before.snippets)
       && (id in im.tables.snippets <==> id in before.snippets)
       && (id in before.snippets ==> im.tables.snippets[id] == before.snippets[id])
  }

  lemma NextRowIsFree(
    before: Tables, nextId: nat, ids: nat -> string, entries: seq<ImportEntry>, im: Importing
  )
    requires FreshIds(before, nextId, ids) && Overwritable(before, entries)
    requires ImportedSoFar(before, nextId, ids, entries, im) && |im.written| < |entries|
    ensures RowIsFree(before, ids, entries, im)
  {
    var n := |im.written|;
    var entry := entries[n];
    if entry.replacing == "" {
      NextIdIsNew(before, nextId, ids, entries, im, im.nextId);
    } else {
      forall k | 0 <= k < n ensures im.written[k] != entry.replacing {
        if entries[k].replacing == "" {
          var m: nat :| nextId <= m < im.nextId && ids(m) == im.written[k];
        }
      }
    }
  }

  /** The next entry finds its folder once it is settled. */
  ghost predicate Settled(entries: seq<ImportEntry>, im: Importing) {
    && |im.written| < |entries|
    && var entry := entries[|im.written|];
       entry.folderId == "" && entry.snippet.folder != "" ==> FolderNamed(im.tables.folders, entry.snippet.folder).Some?
  }

  function Written(ids: nat -> string, entries: seq<ImportEntry>, im: Importing): Importing
    requires |im.written| < |entries|
  {
    var entry := entries[|im.written|];
    WriteEntry(ids, im, entry, TargetId(im.tables.folders, entry))
  }

  lemma WritingKeepsImport(
    before: Tables, nextId: nat, ids: nat -> string, entries: seq<ImportEntry>, im: Importing
  )
    requires RowIsFree(before, ids, entries, im) && Settled(entries, im)
    requires ImportedSoFar(before, nextId, ids, entries, im)
    ensures ImportedSoFar(before, nextId, ids, entries, Written(ids, entries, im))
  {
    hide RowsSoFar, RestSoFar;
    WrittenRowsStay(before, nextId, ids, entries, im);
    WritingTouchesOneRow(before, ids, entries, im);
  }

  lemma WritingTouchesOneRow(before: Tables, ids: nat -> string, entries: seq<ImportEntry>, im: Importing)
    requires RowIsFree(before, ids, entries, im) && RestSoFar(before, entries, im)
    ensures RestSoFar(before, entries, Written(ids, entries, im))
  {
    var n := |im.written|;
    var id := NextRowId(ids, entries, im);
    var im' := Written(ids, entries, im);
    assert entries[..n + 1] == entries[..n] + [entries[n]];
    PushedAdds(entries[..n], entries[n]);
    hide Adds, TargetId, OnlyWritten;
    WritingIsTold(before.snippets, im.tables.snippets, im.written, id, im'.tables.snippets[id]);
  }

  lemma WritingIsTold(
    before: map<string, Snippet>, after: map<string, Snippet>, written: seq<string>, id: string, row: Snippet
  )
    requires OnlyWritten(before, after, written)
    ensures OnlyWritten(before, after[id := row], written + [id])
    ensures |after[id := row]| == |after| + if id in after then 0 else 1
  {
    assert after[id := row].Keys == after.Keys + {id};
  }

  lemma WrittenRowsStay(
    before: Tables, nextId: nat, ids: nat -> string, entries: seq<ImportEntry>, im: Importing
  )
    requires RowIsFree(before, ids, entries, im) && Settled(entries, im)
    requires nextId <= im.nextId && RowsSoFar(before, nextId, ids, entries, im)
    ensures RowsSoFar(before, nextId, ids, entries, Written(ids, entries, im))
  {
    var n := |im.written|;
    var im' := Written(ids, entries, im);
    forall k | 0 <= k <= n
      ensures LeavesRow(before, im'.tables, entries[k], im'.written[k])
      ensures if entries[k].replacing != "" then im'.written[k] == entries[k].replacing
              else Drawn(ids, nextId, im'.nextId, im'.written[k])
    {
      if k < n {
        assert LeavesRow(before, im.tables, entries[k], im.written[k]);
        assert im'.written[k] == im.written[k] != im'.written[n];
      } else {
        assert im'.written[n] == NextRowId(ids, entries, im);
      }
    }
  }

  /** Every import that succeeds leaves exactly the rows and folders of its entries behind. */
  lemma {:induction false} ImportLeavesItsEntries(
    before: Tables, nextId: nat, ids: nat -> string, entries: seq<ImportEntry>, n: nat
  )
    requires n <= |entries| && FreshIds(before, nextId, ids) && Overwritable(before, entries)
    requires ImportUpTo(before, nextId, ids, entries, n).Some?
    ensures var im := ImportUpTo(before, nextId, ids, entries, n).value;
            |im.written| == n && ImportedSoFar(before, nextId, ids, entries, im)
  {
    hide FreshIds, Overwritable, ImportedSoFar, FolderOf, ImportStep;
    if n == 0 {
      NothingIsImported(before, nextId, ids, entries);
    } else {
      ImportLeavesItsEntries(before, nextId, ids, entries, n - 1);
      StepLeavesItsEntry(before, nextId, ids, entries, ImportUpTo(before, nextId, ids, entries, n - 1).value);
    }
  }

  lemma NothingIsImported(before: Tables, nextId: nat, ids: nat -> string, entries: seq<ImportEntry>)
    ensures ImportedSoFar(before, nextId, ids, entries, Begun(before, nextId))
  {
    assert entries[..0] == [];
  }

  lemma StepLeavesItsEntry(
    before: Tables, nextId: nat, ids: nat -> string, entries: seq<ImportEntry>, im: Importing
  )
    requires FreshIds(before, nextId, ids) && Overwritable(before, entries)
    requires ImportedSoFar(before, nextId, ids, entries, im) && |im.written| < |entries|
    requires ImportStep(before.folders, ids, im, entries[|im.written|]).Some?
    ensures var next := ImportStep(before.folders, ids, im, entries[|im.written|]).value;
            |next.written| == |im.written| + 1 && ImportedSoFar(before, nextId, ids, entries, next)
  {
    hide FreshIds, Overwritable, ImportedSoFar, FolderOf, TargetId;
    var entry := entries[|im.written|];
    var settled := FolderOf(before.folders, ids, im, entry).value.0;
    SettledFolder(before.folders, ids, im, entry);
    if settled != im {
      CreatingKeepsImport(before, nextId, ids, entries, im, entry.snippet.folder);
    }
    NextRowIsFree(before, nextId, ids, entries, settled);
    WritingKeepsImport(before, nextId, ids, entries, settled);
  }

  lemma SettledFolder(known: seq<SnippetFolder>, ids: nat -> string, im: Importing, entry: ImportEntry)
    requires FolderOf(known, ids, im, entry).Some?
    ensures var (settled, folderId) := FolderOf(known, ids, im, entry).value;
            && (settled == im || settled == CreateFolder(ids, im, entry.snippet.folder))
            && folderId == TargetId(settled.tables.folders, entry)
            && (entry.folderId == "" && entry.snippet.folder != "" ==>
                FolderNamed(settled.tables.folders, entry.snippet.folder).Some?)
  {
    if entry.folderId == "" && entry.snippet.folder != ""
      && FolderNamed(im.tables.folders, entry.snippet.folder).None? {
      var folder := SnippetFolder(ids(im.nextId), entry.snippet.folder, "", NextPosition(im.tables.folders));
      FolderNamedAppend(im.tables.folders, [folder], entry.snippet.folder);
    }
  }

  predicate NamesUnknownFolder(folders: seq<SnippetFolder>, entry: ImportEntry) {
    entry.folderId != "" && FolderWithId(folders, entry.folderId).None?
  }

  /** An import fails exactly when an entry names a folder id the store did not have at the start. */
  lemma {:induction false} ImportFailsOnUnknownFolders(
    before: Tables, nextId: nat, ids: nat -> string, entries: seq<ImportEntry>, n: nat
  )
    requires n <= |entries|
    ensures ImportUpTo(before, nextId, ids, entries, n).None? <==>
            exists k | 0 <= k < n :: NamesUnknownFolder(before.folders, entries[k])
  {
    hide WriteEntry, CreateFolder, FolderOf, NamesUnknownFolder;
    if n > 0 {
      ImportFailsOnUnknownFolders(before, nextId, ids, entries, n - 1);
      if ImportUpTo(before, nextId, ids, entries, n - 1).Some? {
        StepFailsOnUnknownFolder(before.folders, ids, ImportUpTo(before, nextId, ids, entries, n - 1).value,
          entries[n - 1]);
      }
    }
  }

  lemma StepFailsOnUnknownFolder(known: seq<SnippetFolder>, ids: nat -> string, im: Importing, entry: ImportEntry)
    ensures FolderOf(known, ids, im, entry).None? <==> NamesUnknownFolder(known, entry)
  {
  }

  /** The row is filed in the folder the entry names: a known one by its id, the root, or the one of its name. */
  ghost predicate FiledBy(known: seq<SnippetFolder>, after: seq<SnippetFolder>, entry: ImportEntry, row: Snippet) {
    if entry.folderId != "" then row.folder == entry.folderId && exists f | f in known :: f.id == row.folder
    else if entry.snippet.folder == "" then row.folder == ""
    else exists f | f in after :: f.name == entry.snippet.folder && f.id == row.folder
  }

  /**
   After any import that succeeds every entry has a row of its own that holds what the entry says, field by field, in
   the folder it names; a new row was never used, an overwritten one keeps its use counts.
   */
  lemma ImportedRowsHoldTheirEntries(before: Tables, nextId: nat, ids: nat -> string, entries: seq<ImportEntry>)
    requires FreshIds(before, nextId, ids) && Overwritable(before, entries)
    requires Import(before, nextId, ids, entries).Some?
    ensures var im := Import(before, nextId, ids, entries).value;
            && |im.written| == |entries|
            && (forall k, l | 0 <= k < l < |entries| :: im.written[k] != im.written[l])
            && forall k | 0 <= k < |entries| ::
                 && im.written[k] in im.tables.snippets
                 && var row, entry := im.tables.snippets[im.written[k]], entries[k];
                    && row.id == im.written[k] && FiledBy(before.folders, im.tables.folders, entry, row)
                    && row.name == entry.snippet.name && row.command == entry.snippet.command
                    && row.tags == entry.snippet.tags && row.favorite == entry.snippet.favorite
                    && row.danger == entry.snippet.danger
                    && (if entry.replacing == "" then
                          row.id !in before.snippets && row.uses == 0 && row.lastUsed == 0
                        else
                          row.id == entry.replacing && row.id in before.snippets
                          && row.uses == before.snippets[row.id].uses
                          && row.lastUsed == before.snippets[row.id].lastUsed)
  {
    hide ImportUpTo, FreshIds, NoCollision, RestSoFar;
    var n := |entries|;
    ImportLeavesItsEntries(before, nextId, ids, entries, n);
    ImportFailsOnUnknownFolders(before, nextId, ids, entries, n);
    var im := Import(before, nextId, ids, entries).value;
    forall k | 0 <= k < n
      ensures FiledBy(before.folders, im.tables.folders, entries[k], im.tables.snippets[im.written[k]])
      ensures entries[k].replacing == "" ==> im.written[k] !in before.snippets
    {
      assert LeavesRow(before, im.tables, entries[k], im.written[k]);
      assert !NamesUnknownFolder(before.folders, entries[k]);
      if entries[k].replacing == "" {
        DrawnIsNew(before, nextId, ids, im.nextId, im.written[k]);
      }
    }
  }

  lemma DrawnIsNew(before: Tables, nextId: nat, ids: nat -> string, high: nat, id: string)
    requires FreshIds(before, nextId, ids) && Drawn(ids, nextId, high, id)
    ensures id !in before.snippets && FolderWithId(before.folders, id).None?
  {
  }
}
