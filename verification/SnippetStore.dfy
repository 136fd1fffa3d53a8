/**
 The snippet tables and the import that fills them (command_store.cpp). A transaction commits all of an import
 or restores both tables.
 */
module SnippetStore {
  import opened Wrappers
  import opened CommandTypes

  /** folders holds the rows in the order selectFolders lists them, snippets its rows by id. */
  datatype Tables = Tables(folders: seq<SnippetFolder>, snippets: map<string, Snippet>)

  datatype ImportSummary = ImportSummary(added: nat, replaced: nat, foldersCreated: nat)

  /** An import under way; written[k] is the row id of entry k and nextId counts the generated ids. */
  datatype Importing = Importing(tables: Tables, nextId: nat, written: seq<string>, summary: ImportSummary)

  function NextPosition(folders: seq<SnippetFolder>): (next: int)
    ensures next >= 0
    ensures forall f | f in folders :: f.position < next
  {
    if folders == [] then 0
    else
      var last := folders[|folders| - 1];
      var before := NextPosition(folders[..|folders| - 1]);
      assert folders == folders[..|folders| - 1] + [last];
      if before < last.position + 1 then last.position + 1 else before
  }

  /** The rows with one written; a row that was there keeps its uses and when it was last used. */
  function WriteSnippet(snippets: map<string, Snippet>, row: Snippet): map<string, Snippet> {
    if row.id in snippets then
      snippets[row.id := row.(uses := snippets[row.id].uses, lastUsed := snippets[row.id].lastUsed)]
    else snippets[row.id := row]
  }

  function RowOf(entry: ImportEntry, id: string, folderId: string): Snippet {
    var s := entry.snippet;
    Snippet(id, s.name, s.command, folderId, s.tags, s.favorite, s.danger, 0, 0)
  }

  function CreateFolder(ids: nat -> string, im: Importing, name: string): Importing {
    var folder := SnippetFolder(ids(im.nextId), name, "", NextPosition(im.tables.folders));
    im.(
      tables := im.tables.(folders := im.tables.folders + [folder]),
      nextId := im.nextId + 1,
      summary := im.summary.(foldersCreated := im.summary.foldersCreated + 1))
  }

  function WriteEntry(ids: nat -> string, im: Importing, entry: ImportEntry, folderId: string): Importing {
    var adds := entry.replacing == "";
    var id := if adds then ids(im.nextId) else entry.replacing;
    Importing(
      im.tables.(snippets := WriteSnippet(im.tables.snippets, RowOf(entry, id, folderId))),
      if adds then im.nextId + 1 else im.nextId,
      im.written + [id],
      if adds then im.summary.(added := im.summary.added + 1) else im.summary.(replaced := im.summary.replaced + 1))
  }

  /** The id of the entry's target folder, created when its name is missing; None when its id is not known. */
  function FolderOf(known: seq<SnippetFolder>, ids: nat -> string, im: Importing, entry: ImportEntry)
    : Option<(Importing, string)>
  {
    if entry.folderId != "" then
      if FolderWithId(known, entry.folderId).None? then None else Some((im, entry.folderId))
    else if entry.snippet.folder == "" then Some((im, ""))
    else match FolderNamed(im.tables.folders, entry.snippet.folder)
      case Some(folder) => Some((im, folder.id))
      case None => Some((CreateFolder(ids, im, entry.snippet.folder), ids(im.nextId)))
  }

  /** Stores one entry. */
  function ImportStep(
    known: seq<SnippetFolder>, ids: nat -> string, im: Importing, entry: ImportEntry
  ): Option<Importing> {
    match FolderOf(known, ids, im, entry)
    case None => None
    case Some((settled, folderId)) => Some(WriteEntry(ids, settled, entry, folderId))
  }

  function Begun(tables: Tables, nextId: nat): Importing {
    Importing(tables, nextId, [], ImportSummary(0, 0, 0))
  }

  /** The import of the first n entries. */
  function ImportUpTo(
    tables: Tables, nextId: nat, ids: nat -> string, entries: seq<ImportEntry>, n: nat
  ): Option<Importing>
    requires n <= |entries|
  {
    if n == 0 then Some(Begun(tables, nextId))
    else match ImportUpTo(tables, nextId, ids, entries, n - 1)
      case None => None
      case Some(im) => ImportStep(tables.folders, ids, im, entries[n - 1])
  }

  function Import(tables: Tables, nextId: nat, ids: nat -> string, entries: seq<ImportEntry>): Option<Importing> {
    ImportUpTo(tables, nextId, ids, entries, |entries|)
  }

  lemma {:induction false} FailedImportsStayFailed(
    tables: Tables, nextId: nat, ids: nat -> string, entries: seq<ImportEntry>, n: nat, m: nat
  )
    requires n <= m <= |entries| && ImportUpTo(tables, nextId, ids, entries, n).None?
    ensures ImportUpTo(tables, nextId, ids, entries, m).None?
  {
    if n < m {
      FailedImportsStayFailed(tables, nextId, ids, entries, n, m - 1);
    }
  }

  /** The map knows the first folder of every name. */
  ghost predicate KnowsFolders(folderIds: map<string, string>, folders: seq<SnippetFolder>) {
    forall name ::
      if name in folderIds then
        FolderNamed(folders, name).Some? && folderIds[name] == FolderNamed(folders, name).value.id
      else FolderNamed(folders, name).None?
  }

  lemma LearnsFolder(folderIds: map<string, string>, folders: seq<SnippetFolder>, folder: SnippetFolder)
    requires KnowsFolders(folderIds, folders)
    ensures KnowsFolders(
              if folder.name in folderIds then folderIds else folderIds[folder.name := folder.id], folders + [folder])
  {
    forall name ensures FolderNamed(folders + [folder], name) ==
        if FolderNamed(folders, name).Some? then FolderNamed(folders, name)
        else if folder.name == name then Some(folder) else None
    {
      FolderNamedAppend(folders, [folder], name);
      assert [folder][1..] == [];
    }
  }

  lemma OneFolderFurther(folderIds: map<string, string>, folders: seq<SnippetFolder>, i: nat)
    requires i < |folders| && KnowsFolders(folderIds, folders[..i])
    ensures KnowsFolders(
              if folders[i].name in folderIds then folderIds else folderIds[folders[i].name := folders[i].id],
              folders[..i + 1])
    ensures NextPosition(folders[..i + 1]) ==
            if NextPosition(folders[..i]) < folders[i].position + 1 then folders[i].position + 1
            else NextPosition(folders[..i])
  {
    hide KnowsFolders;
    assert folders[..i + 1][..i] == folders[..i] && folders[..i + 1] == folders[..i] + [folders[i]];
    LearnsFolder(folderIds, folders[..i], folders[i]);
  }

  class SnippetTables {
    var folders: seq<SnippetFolder>
    var snippets: map<string, Snippet>
    /** The generated ids in the order they are drawn, and how many are drawn. */
    const ids: nat -> string
    var nextId: nat

    ghost function State(): Tables
      reads this
    {
      Tables(folders, snippets)
    }

    constructor (folders: seq<SnippetFolder>, snippets: map<string, Snippet>, ids: nat -> string)
      ensures State() == Tables(folders, snippets) && this.ids == ids && nextId == 0
    {
      this.folders, this.snippets, this.ids, nextId := folders, snippets, ids, 0;
    }

    method UpsertRow(row: Snippet)
      modifies this`snippets
      ensures snippets == WriteSnippet(old(snippets), row)
    {
      if row.id in snippets {
        snippets := snippets[row.id := row.(uses := snippets[row.id].uses, lastUsed := snippets[row.id].lastUsed)];
      } else {
        snippets := snippets[row.id := row];
      }
    }

    /** The folders by name, the first of a name winning, and the position after all of them. */
    method IndexFolders() returns (folderIds: map<string, string>, nextPosition: int)
      ensures KnowsFolders(folderIds, folders) && nextPosition == NextPosition(folders)
    {
      folderIds, nextPosition := map[], 0;
      assert KnowsFolders(folderIds, folders[..0]) && nextPosition == NextPosition(folders[..0]);
      hide KnowsFolders, NextPosition;
      for i := 0 to |folders|
        invariant KnowsFolders(folderIds, folders[..i]) && nextPosition == NextPosition(folders[..i])
      {
        OneFolderFurther(folderIds, folders, i);
        if folders[i].name !in folderIds {
          folderIds := folderIds[folders[i].name := folders[i].id];
        }
        if nextPosition < folders[i].position + 1 {
          nextPosition := folders[i].position + 1;
        }
      }
      assert folders[..|folders|] == folders;
    }

    /** Resolves the target folder of an entry, creating one that is missing; folderIds and the position follow. */
    method TargetFolder(
      known: seq<SnippetFolder>, entry: ImportEntry, folderIds: map<string, string>, nextPosition: int,
      ghost written: seq<string>, ghost summary: ImportSummary
    ) returns (folderId: Option<string>, learned: map<string, string>, next: int, created: bool)
      requires KnowsFolders(folderIds, folders) && nextPosition == NextPosition(folders)
      modifies this`folders, this`nextId
      ensures match FolderOf(known, ids, Importing(old(State()), old(nextId), written, summary), entry)
              case None => folderId.None? && State() == old(State()) && nextId == old(nextId)
              case Some((settled, id)) =>
                && folderId == Some(id) && State() == settled.tables && nextId == settled.nextId
                && settled.summary == summary.(foldersCreated := summary.foldersCreated + if created then 1 else 0)
                && settled.written == written
      ensures KnowsFolders(learned, folders) && next == NextPosition(folders)
    {
      learned, next, created := folderIds, nextPosition, false;
      if entry.folderId != "" {
        folderId := if FolderWithId(known, entry.folderId).None? then None else Some(entry.folderId);
      } else if entry.snippet.folder == "" {
        folderId := Some("");
      } else if entry.snippet.folder in folderIds {
        folderId := Some(folderIds[entry.snippet.folder]);
      } else {
        var folder := SnippetFolder(ids(nextId), entry.snippet.folder, "", nextPosition);
        LearnsFolder(folderIds, folders, folder);
        assert (folders + [folder])[..|folders|] == folders;
        folders, nextId, next := folders + [folder], nextId + 1, nextPosition + 1;
        learned := folderIds[folder.name := folder.id];
        created, folderId := true, Some(folder.id);
      }
    }

    /** Stores decided entries, all of them or none. */
    method ImportSnippets(entries: seq<ImportEntry>) returns (r: Result<ImportSummary, string>)
      modifies this
      ensures match Import(old(State()), old(nextId), ids, entries)
              case Some(im) => r == Success(im.summary) && State() == im.tables && nextId == im.nextId
              case None => r.Failure? && State() == old(State())
    {
      hide NextPosition, KnowsFolders, FolderOf, WriteSnippet;
      var known, rows, drawn := folders, snippets, nextId;
      ghost var before := State();
      var folderIds, nextPosition := IndexFolders();
      var summary := ImportSummary(0, 0, 0);
      ghost var written: seq<string> := [];
      for n := 0 to |entries|
        invariant ImportUpTo(before, drawn, ids, entries, n) == Some(Importing(State(), nextId, written, summary))
        invariant KnowsFolders(folderIds, folders) && nextPosition == NextPosition(folders)
      {
        var entry := entries[n];
        ghost var im := Importing(State(), nextId, written, summary);
        assert ImportUpTo(before, drawn, ids, entries, n + 1) == ImportStep(known, ids, im, entry);
        var folderId, created;
        folderId, folderIds, nextPosition, created :=
          TargetFolder(known, entry, folderIds, nextPosition, written, summary);
        if folderId.None? {
          FailedImportsStayFailed(before, drawn, ids, entries, n + 1, |entries|);
          folders, snippets := known, rows;
          return Failure("import target folder does not exist");
        }
        if created {
          summary := summary.(foldersCreated := summary.foldersCreated + 1);
        }
        var id := entry.replacing;
        if entry.replacing == "" {
          id, nextId := ids(nextId), nextId + 1;
          summary := summary.(added := summary.added + 1);
        } else {
          summary := summary.(replaced := summary.replaced + 1);
        }
        UpsertRow(RowOf(entry, id, folderId.value));
        written := written + [id];
      }
      r := Success(summary);
    }
  }
}
