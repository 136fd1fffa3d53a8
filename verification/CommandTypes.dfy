/** The rows and documents of the command store (types.hpp). */
module CommandTypes {
  import opened Wrappers

  datatype DangerLevel = Safe | Caution | Danger

  datatype SnippetFolder = SnippetFolder(id: string, name: string, icon: string, position: int)

  /** A stored snippet; an empty folder is the root. */
  datatype Snippet = Snippet(
    id: string, name: string, command: string, folder: string, tags: seq<string>,
    favorite: bool, danger: Option<DangerLevel>, uses: int, lastUsed: int)

  /** A pasted snippet; its folder is a name, not an id. */
  datatype TransferSnippet = TransferSnippet(
    name: string, command: string, folder: string, tags: seq<string>,
    favorite: bool, danger: Option<DangerLevel>)

  /** One decided import; an empty replacing adds a row. */
  datatype ImportEntry = ImportEntry(snippet: TransferSnippet, folderId: string, replacing: string)

  /** The first folder of that name. */
  function FolderNamed(folders: seq<SnippetFolder>, name: string): (r: Option<SnippetFolder>)
    ensures r.Some? ==> r.value in folders && r.value.name == name
    ensures r.None? <==> forall f | f in folders :: f.name != name
  {
    if folders == [] then None
    else if folders[0].name == name then Some(folders[0])
    else FolderNamed(folders[1..], name)
  }

  /** The first folder of that id. */
  function FolderWithId(folders: seq<SnippetFolder>, id: string): (r: Option<SnippetFolder>)
    ensures r.Some? ==> r.value in folders && r.value.id == id
    ensures r.None? <==> forall f | f in folders :: f.id != id
  {
    if folders == [] then None
    else if folders[0].id == id then Some(folders[0])
    else FolderWithId(folders[1..], id)
  }

  /** Folders appended to a listing are only found when nothing before them is. */
  lemma {:induction false} FolderNamedAppend(front: seq<SnippetFolder>, back: seq<SnippetFolder>, name: string)
    ensures FolderNamed(front + back, name) ==
            if FolderNamed(front, name).Some? then FolderNamed(front, name) else FolderNamed(back, name)
  {
    if front == [] {
      assert front + back == back;
    } else {
      assert (front + back)[1..] == front[1..] + back;
      FolderNamedAppend(front[1..], back, name);
    }
  }

  lemma {:induction false} FolderWithIdAppend(front: seq<SnippetFolder>, back: seq<SnippetFolder>, id: string)
    ensures FolderWithId(front + back, id) ==
            if FolderWithId(front, id).Some? then FolderWithId(front, id) else FolderWithId(back, id)
  {
    if front == [] {
      assert front + back == back;
    } else {
      assert (front + back)[1..] == front[1..] + back;
      FolderWithIdAppend(front[1..], back, id);
    }
  }
}
