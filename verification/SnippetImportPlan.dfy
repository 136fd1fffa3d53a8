/**
 Where pasted snippets go and how they relate to the stored ones (snippet_import_plan.hpp). The loops are
 methods; each is proved equal to a specification that looks every snippet up on its own.
 */
module SnippetImportPlan {
  import opened Wrappers
  import opened CommandTypes

  datatype Status = New | Identical | NameConflict

  datatype Resolution = Skip | Replace | KeepBoth

  /** A fixed folder id, or None when the document names the folders. */
  type Target = Option<string>

  datatype PlannedSnippet = PlannedSnippet(
    snippet: TransferSnippet, folderId: string, createsFolder: bool, status: Status,
    existing: Option<Snippet>, earlierEntry: Option<nat>)
  {
    predicate CanReplace() {
      existing.Some? && earlierEntry.None?
    }
  }

  datatype ImportPlan = ImportPlan(
    snippets: seq<PlannedSnippet>, newFolders: seq<string>, ignoredFolders: seq<string>)

  // ---------- the target folder of one snippet ----------

  datatype Resolved = Resolved(snippet: TransferSnippet, folderId: string, createsFolder: bool)

  function ResolveFolder(snippet: TransferSnippet, folders: seq<SnippetFolder>, target: Target): (r: Resolved)
    ensures r.snippet.(folder := snippet.folder) == snippet
  {
    if target.Some? then
      var name := match FolderWithId(folders, target.value) case Some(folder) => folder.name case None => "";
      Resolved(snippet.(folder := name), target.value, false)
    else if snippet.folder == "" then Resolved(snippet, "", false)
    else match FolderNamed(folders, snippet.folder)
      case Some(folder) => Resolved(snippet, folder.id, false)
      case None => Resolved(snippet, "", true)
  }

  function FolderKey(resolved: Resolved): string {
    if resolved.createsFolder then "new:" + resolved.snippet.folder else "id:" + resolved.folderId
  }

  type Key = (string, string)

  function KeyOf(snippet: TransferSnippet, folders: seq<SnippetFolder>, target: Target): Key {
    (FolderKey(ResolveFolder(snippet, folders, target)), snippet.name)
  }

  /** Equal keys name the same target: the same folder to create, or the same folder id, and the same name. */
  lemma EqualKeysNameOneTarget(a: TransferSnippet, b: TransferSnippet, folders: seq<SnippetFolder>, target: Target)
    requires KeyOf(a, folders, target) == KeyOf(b, folders, target)
    ensures a.name == b.name
    ensures var ra, rb := ResolveFolder(a, folders, target), ResolveFolder(b, folders, target);
            && ra.createsFolder == rb.createsFolder && ra.folderId == rb.folderId
            && (ra.createsFolder ==> a.folder == b.folder)
  {
    var ra, rb := ResolveFolder(a, folders, target), ResolveFolder(b, folders, target);
    var ka, kb := FolderKey(ra), FolderKey(rb);
    assert ka[0] == if ra.createsFolder then 'n' else 'i';
    assert kb[0] == if rb.createsFolder then 'n' else 'i';
    if ra.createsFolder {
      assert ka[4..] == ra.snippet.folder && kb[4..] == rb.snippet.folder;
    } else {
      assert ka[3..] == ra.folderId && kb[3..] == rb.folderId;
    }
  }

  // ---------- how one snippet relates to the stored ones ----------

  predicate SameContent(pasted: TransferSnippet, stored: Snippet) {
    pasted.command == stored.command && pasted.tags == stored.tags && pasted.danger == stored.danger
  }

  predicate SamePastedContent(pasted: TransferSnippet, earlier: TransferSnippet) {
    pasted.command == earlier.command && pasted.tags == earlier.tags && pasted.danger == earlier.danger
  }

  /** The folder a stored snippet is taken to be in: the root when its own is gone. */
  function EffectiveFolder(stored: Snippet, folders: seq<SnippetFolder>): string {
    if FolderWithId(folders, stored.folder).Some? then stored.folder else ""
  }

  predicate InTarget(candidate: Snippet, resolved: Resolved, folders: seq<SnippetFolder>) {
    candidate.name == resolved.snippet.name && EffectiveFolder(candidate, folders) == resolved.folderId
  }

  function FindNamed(stored: seq<Snippet>, resolved: Resolved, folders: seq<SnippetFolder>): (r: Option<Snippet>)
    ensures r.Some? ==> r.value in stored && InTarget(r.value, resolved, folders)
    ensures r.None? <==> forall s | s in stored :: !InTarget(s, resolved, folders)
  {
    if stored == [] then None
    else if InTarget(stored[0], resolved, folders) then Some(stored[0])
    else FindNamed(stored[1..], resolved, folders)
  }

  function FindIdentical(stored: seq<Snippet>, resolved: Resolved, folders: seq<SnippetFolder>): (r: Option<Snippet>)
    ensures r.Some? ==>
            r.value in stored && InTarget(r.value, resolved, folders) && SameContent(resolved.snippet, r.value)
    ensures r.None? <==>
            forall s | s in stored :: !(InTarget(s, resolved, folders) && SameContent(resolved.snippet, s))
  {
    if stored == [] then None
    else if InTarget(stored[0], resolved, folders) && SameContent(resolved.snippet, stored[0]) then Some(stored[0])
    else FindIdentical(stored[1..], resolved, folders)
  }

  function MatchStored(resolved: Resolved, stored: seq<Snippet>, folders: seq<SnippetFolder>): PlannedSnippet {
    var planned := PlannedSnippet(resolved.snippet, resolved.folderId, resolved.createsFolder, New, None, None);
    if resolved.createsFolder then planned
    else match FindIdentical(stored, resolved, folders)
      case Some(identical) => planned.(status := Identical, existing := Some(identical))
      case None =>
        match FindNamed(stored, resolved, folders)
        case Some(conflicting) => planned.(status := NameConflict, existing := Some(conflicting))
        case None => planned
  }

  // ---------- the plan, snippet by snippet ----------

  /** The first pasted snippet with that key; the length when there is none. */
  function FirstWithKey(
    pasted: seq<TransferSnippet>, folders: seq<SnippetFolder>, target: Target, key: Key
  ): (first: nat)
    ensures first <= |pasted|
    ensures first < |pasted| ==> KeyOf(pasted[first], folders, target) == key
    ensures forall j | 0 <= j < first :: KeyOf(pasted[j], folders, target) != key
  {
    hide KeyOf;
    if pasted == [] then 0
    else if KeyOf(pasted[0], folders, target) == key then 0
    else 1 + FirstWithKey(pasted[1..], folders, target, key)
  }

  function FirstLike(pasted: seq<TransferSnippet>, folders: seq<SnippetFolder>, target: Target, i: nat): (first: nat)
    requires i < |pasted|
    ensures first <= i && KeyOf(pasted[first], folders, target) == KeyOf(pasted[i], folders, target)
    ensures forall j | 0 <= j < first :: KeyOf(pasted[j], folders, target) != KeyOf(pasted[i], folders, target)
  {
    FirstWithKey(pasted, folders, target, KeyOf(pasted[i], folders, target))
  }

  /** What the plan says of snippet i, from the document, the store and the target alone. */
  function PlannedAt(
    pasted: seq<TransferSnippet>, stored: seq<Snippet>, folders: seq<SnippetFolder>, target: Target, i: nat
  ): PlannedSnippet
    requires i < |pasted|
  {
    var planned := MatchStored(ResolveFolder(pasted[i], folders, target), stored, folders);
    var first := FirstLike(pasted, folders, target, i);
    if first == i then planned
    else
      planned.(
        earlierEntry := Some(first),
        status := if planned.status != New then planned.status
                  else if SamePastedContent(pasted[i], pasted[first]) then Identical
                  else NameConflict)
  }

  function AppendUnique(names: seq<string>, name: string): seq<string> {
    if name in names then names else names + [name]
  }

  function NewFolders(pasted: seq<TransferSnippet>, folders: seq<SnippetFolder>, target: Target, n: nat): seq<string>
    requires n <= |pasted|
  {
    if n == 0 then []
    else
      var before := NewFolders(pasted, folders, target, n - 1);
      var resolved := ResolveFolder(pasted[n - 1], folders, target);
      if resolved.createsFolder then AppendUnique(before, resolved.snippet.folder) else before
  }

  function IgnoredFolders(pasted: seq<TransferSnippet>, target: Target, n: nat): seq<string>
    requires n <= |pasted|
  {
    if n == 0 then []
    else
      var before := IgnoredFolders(pasted, target, n - 1);
      if target.Some? && pasted[n - 1].folder != "" then AppendUnique(before, pasted[n - 1].folder) else before
  }

  function PlanOf(
    pasted: seq<TransferSnippet>, stored: seq<Snippet>, folders: seq<SnippetFolder>, target: Target
  ): ImportPlan {
    ImportPlan(
      seq(|pasted|, i requires 0 <= i < |pasted| => PlannedAt(pasted, stored, folders, target, i)),
      NewFolders(pasted, folders, target, |pasted|),
      IgnoredFolders(pasted, target, |pasted|))
  }

  /** The map holds the first of the n planned snippets of every key they have. */
  ghost predicate HoldsFirsts(
    pasted: seq<TransferSnippet>, folders: seq<SnippetFolder>, target: Target, firstOfName: map<Key, nat>, n: nat
  )
    requires n <= |pasted|
  {
    && (forall i | 0 <= i < n :: KeyOf(pasted[i], folders, target) in firstOfName)
    && (forall key | key in firstOfName ::
          firstOfName[key] < n && firstOfName[key] == FirstWithKey(pasted, folders, target, key))
  }

  lemma NoFirsts(pasted: seq<TransferSnippet>, folders: seq<SnippetFolder>, target: Target)
    ensures HoldsFirsts(pasted, folders, target, map[], 0)
  {
  }

  /** The map finds the first snippet like the next one, which is itself when the map lacks its key. */
  lemma FirstsFindTheFirst(
    pasted: seq<TransferSnippet>, folders: seq<SnippetFolder>, target: Target, firstOfName: map<Key, nat>, n: nat
  )
    requires n < |pasted| && HoldsFirsts(pasted, folders, target, firstOfName, n)
    ensures var key := KeyOf(pasted[n], folders, target);
            && FirstLike(pasted, folders, target, n) == (if key in firstOfName then firstOfName[key] else n)
            && (key in firstOfName ==> firstOfName[key] < n)
            && HoldsFirsts(
                 pasted, folders, target, if key in firstOfName then firstOfName else firstOfName[key := n], n + 1)
  {
    hide KeyOf, FirstWithKey;
    var key := KeyOf(pasted[n], folders, target);
    var first := FirstWithKey(pasted, folders, target, key);
    assert first < n ==> KeyOf(pasted[first], folders, target) in firstOfName;
  }

  /** Plans the next snippet, given the first planned one like it. */
  method Classify(
    pasted: seq<TransferSnippet>, stored: seq<Snippet>, folders: seq<SnippetFolder>, target: Target,
    snippets: seq<PlannedSnippet>, earlier: Option<nat>
  ) returns (planned: PlannedSnippet)
    requires |snippets| < |pasted|
    requires earlier == (var first := FirstLike(pasted, folders, target, |snippets|);
                         if first == |snippets| then None else Some(first))
    requires earlier.Some? ==> snippets[earlier.value] == PlannedAt(pasted, stored, folders, target, earlier.value)
    ensures planned == PlannedAt(pasted, stored, folders, target, |snippets|)
  {
    planned := MatchStored(ResolveFolder(pasted[|snippets|], folders, target), stored, folders);
    if earlier.Some? {
      planned := planned.(earlierEntry := earlier);
      if planned.status == New {
        var first := earlier.value;
        assert SamePastedContent(planned.snippet, snippets[first].snippet)
            == SamePastedContent(pasted[|snippets|], pasted[first]);
        planned := planned.(status :=
          if SamePastedContent(planned.snippet, snippets[first].snippet) then Identical else NameConflict);
      }
    }
  }

  /** Plans an import in one pass, remembering the first snippet of each key in a map. */
  method Plan(
    pasted: seq<TransferSnippet>, stored: seq<Snippet>, folders: seq<SnippetFolder>, target: Target
  ) returns (result: ImportPlan)
    ensures result == PlanOf(pasted, stored, folders, target)
  {
    hide ResolveFolder, KeyOf, FirstWithKey, FirstLike, PlannedAt, AppendUnique, HoldsFirsts;
    NoFirsts(pasted, folders, target);
    var snippets: seq<PlannedSnippet>, newFolders: seq<string>, ignoredFolders: seq<string> := [], [], [];
    var firstOfName: map<Key, nat> := map[];
    for n := 0 to |pasted|
      invariant |snippets| == n
      invariant forall i | 0 <= i < n :: snippets[i] == PlannedAt(pasted, stored, folders, target, i)
      invariant newFolders == NewFolders(pasted, folders, target, n)
      invariant ignoredFolders == IgnoredFolders(pasted, target, n)
      invariant HoldsFirsts(pasted, folders, target, firstOfName, n)
    {
      FirstsFindTheFirst(pasted, folders, target, firstOfName, n);
      var resolved := ResolveFolder(pasted[n], folders, target);
      if target.Some? && pasted[n].folder != "" {
        ignoredFolders := AppendUnique(ignoredFolders, pasted[n].folder);
      }
      if resolved.createsFolder {
        newFolders := AppendUnique(newFolders, resolved.snippet.folder);
      }
      var key := KeyOf(pasted[n], folders, target);
      var earlier: Option<nat> := if key in firstOfName then Some(firstOfName[key]) else None;
      var planned := Classify(pasted, stored, folders, target, snippets, earlier);
      if key !in firstOfName {
        firstOfName := firstOfName[key := n];
      }
      snippets := snippets + [planned];
    }
    result := ImportPlan(snippets, newFolders, ignoredFolders);
    assert result.snippets == PlanOf(pasted, stored, folders, target).snippets;
  }

  /** Planning changes nothing of a pasted snippet but its folder name. */
  lemma PlannedSnippetIsThePasted(
    pasted: seq<TransferSnippet>, stored: seq<Snippet>, folders: seq<SnippetFolder>, target: Target, i: nat
  )
    requires i < |pasted|
    ensures var resolved := ResolveFolder(pasted[i], folders, target);
            var planned := PlannedAt(pasted, stored, folders, target, i);
            && planned.snippet == resolved.snippet
            && planned.snippet.(folder := pasted[i].folder) == pasted[i]
            && planned.folderId == resolved.folderId && planned.createsFolder == resolved.createsFolder
            && (planned.existing.Some? ==>
                && !resolved.createsFolder && planned.existing.value in stored
                && InTarget(planned.existing.value, resolved, folders))
            && (planned.createsFolder ==> target.None? && planned.folderId == "")
  {
  }

  // ---------- what a plan means ----------

  ghost predicate StoredTwin(
    pasted: TransferSnippet, stored: seq<Snippet>, folders: seq<SnippetFolder>, target: Target
  ) {
    var resolved := ResolveFolder(pasted, folders, target);
    && !resolved.createsFolder
    && exists s | s in stored ::
         && InTarget(s, resolved, folders)
         && s.command == pasted.command && s.tags == pasted.tags && s.danger == pasted.danger
  }

  ghost predicate StoredNamesake(
    pasted: TransferSnippet, stored: seq<Snippet>, folders: seq<SnippetFolder>, target: Target
  ) {
    var resolved := ResolveFolder(pasted, folders, target);
    !resolved.createsFolder && exists s | s in stored :: InTarget(s, resolved, folders)
  }

  /** When a pasted snippet is new, identical or in conflict. */
  lemma StatusMeaning(
    pasted: seq<TransferSnippet>, stored: seq<Snippet>, folders: seq<SnippetFolder>, target: Target, i: nat
  )
    requires i < |pasted|
    ensures var status := PlannedAt(pasted, stored, folders, target, i).status;
            var namesake := StoredNamesake(pasted[i], stored, folders, target);
            var first := FirstLike(pasted, folders, target, i);
            && (status.New? <==> !namesake && first == i)
            && (status.Identical? <==>
                || StoredTwin(pasted[i], stored, folders, target)
                || (!namesake && first < i && pasted[i].command == pasted[first].command
                    && pasted[i].tags == pasted[first].tags && pasted[i].danger == pasted[first].danger))
  {
    var resolved := ResolveFolder(pasted[i], folders, target);
    assert FindIdentical(stored, resolved, folders).Some? ==> FindNamed(stored, resolved, folders).Some?;
  }

  ghost predicate CreatesFolder(
    pasted: seq<TransferSnippet>, folders: seq<SnippetFolder>, target: Target, i: nat, name: string
  )
    requires i < |pasted|
  {
    ResolveFolder(pasted[i], folders, target).createsFolder && pasted[i].folder == name
  }

  /** The new folders are the missing folder names of the document, each once. */
  lemma {:induction false} NewFoldersAreTheMissingOnes(
    pasted: seq<TransferSnippet>, folders: seq<SnippetFolder>, target: Target, n: nat
  )
    requires n <= |pasted|
    ensures var names := NewFolders(pasted, folders, target, n);
            && (forall name ::
                  name in names <==> exists i: nat | i < n :: CreatesFolder(pasted, folders, target, i, name))
            && (forall a, b | 0 <= a < b < |names| :: names[a] != names[b])
            && (forall name | name in names :: name != "" && FolderNamed(folders, name).None?)
            && (names != [] ==> exists i: nat | i < n :: ResolveFolder(pasted[i], folders, target).createsFolder)
  {
    if n > 0 {
      NewFoldersAreTheMissingOnes(pasted, folders, target, n - 1);
      var before := NewFolders(pasted, folders, target, n - 1);
      var names := NewFolders(pasted, folders, target, n);
      forall name
        ensures name in names <==> exists i: nat | i < n :: CreatesFolder(pasted, folders, target, i, name)
      {
        assert name in names <==> name in before || CreatesFolder(pasted, folders, target, n - 1, name);
      }
    }
  }

  /** The names used, each once, in the order in which they come first. */
  ghost predicate InOrderOfFirstUse(names: seq<string>, used: seq<Option<string>>) {
    && (forall name :: name in names <==> Some(name) in used)
    && (forall a, b | 0 <= a < b < |names| ::
          names[a] != names[b]
          && exists i | 0 <= i < |used| :: used[i] == Some(names[a]) && Some(names[b]) !in used[..i])
  }

  lemma NextUse(names: seq<string>, used: seq<Option<string>>, next: Option<string>)
    requires InOrderOfFirstUse(names, used)
    ensures InOrderOfFirstUse(if next.Some? then AppendUnique(names, next.value) else names, used + [next])
  {
    var longer := if next.Some? then AppendUnique(names, next.value) else names;
    var uses := used + [next];
    forall name ensures name in longer <==> Some(name) in uses {
      assert Some(name) in uses <==> Some(name) in used || next == Some(name);
    }
    forall a, b | 0 <= a < b < |longer|
      ensures longer[a] != longer[b]
              && exists i | 0 <= i < |uses| :: uses[i] == Some(longer[a]) && Some(longer[b]) !in uses[..i]
    {
      assert longer[a] == names[a] && longer[a] in names;
      if b < |names| {
        var i :| 0 <= i < |used| && used[i] == Some(names[a]) && Some(names[b]) !in used[..i];
        assert uses[i] == used[i] && uses[..i] == used[..i];
      } else {
        var i :| 0 <= i < |used| && used[i] == Some(longer[a]);
        assert uses[i] == used[i] && uses[..i] == used[..i];
        assert Some(longer[b]) !in used;
      }
    }
  }

  /** The folder a pasted snippet names, where a fixed target ignores it. */
  function IgnoredBy(pasted: seq<TransferSnippet>, target: Target, n: nat): seq<Option<string>>
    requires n <= |pasted|
  {
    seq(n, i requires 0 <= i < n => if target.Some? && pasted[i].folder != "" then Some(pasted[i].folder) else None)
  }

  /** The ignored folders are those the document names for a fixed target, each once, in order of first use. */
  lemma {:induction false} IgnoredFoldersAreTheNamedOnes(pasted: seq<TransferSnippet>, target: Target, n: nat)
    requires n <= |pasted|
    ensures InOrderOfFirstUse(IgnoredFolders(pasted, target, n), IgnoredBy(pasted, target, n))
  {
    if n > 0 {
      IgnoredFoldersAreTheNamedOnes(pasted, target, n - 1);
      var used := IgnoredBy(pasted, target, n);
      assert used == IgnoredBy(pasted, target, n - 1) + [used[n - 1]];
      NextUse(IgnoredFolders(pasted, target, n - 1), IgnoredBy(pasted, target, n - 1), used[n - 1]);
      hide InOrderOfFirstUse;
    }
  }

  /** The folder a pasted snippet names, where no folder has that name and no target is fixed. */
  function MissedBy(pasted: seq<TransferSnippet>, folders: seq<SnippetFolder>, target: Target, n: nat)
    : seq<Option<string>>
    requires n <= |pasted|
  {
    seq(n, i requires 0 <= i < n =>
        var name := pasted[i].folder;
        if target.None? && name != "" && FolderNamed(folders, name).None? then Some(name) else None)
  }

  /** The new folders are those the document misses, each once, in order of first use. */
  lemma {:induction false} NewFoldersAreInOrder(
    pasted: seq<TransferSnippet>, folders: seq<SnippetFolder>, target: Target, n: nat
  )
    requires n <= |pasted|
    ensures InOrderOfFirstUse(NewFolders(pasted, folders, target, n), MissedBy(pasted, folders, target, n))
  {
    if n > 0 {
      NewFoldersAreInOrder(pasted, folders, target, n - 1);
      var used := MissedBy(pasted, folders, target, n);
      assert used == MissedBy(pasted, folders, target, n - 1) + [used[n - 1]];
      NextUse(NewFolders(pasted, folders, target, n - 1), MissedBy(pasted, folders, target, n - 1), used[n - 1]);
      hide InOrderOfFirstUse;
    }
  }

  // ---------- the decision ----------

  datatype Decision = Decision(entries: seq<ImportEntry>, added: nat, replaced: nat, skipped: nat)

  /** A decision under way; origins[k] is the planned snippet that produced entry k. */
  datatype Deciding = Deciding(decision: Decision, entryOf: seq<Option<nat>>, origins: seq<nat>)

  predicate WellFormed(plan: ImportPlan) {
    forall i | 0 <= i < |plan.snippets| ::
      plan.snippets[i].earlierEntry.Some? ==> plan.snippets[i].earlierEntry.value < |plan.snippets|
  }

  predicate InRange(plan: ImportPlan, entryOf: seq<Option<nat>>, entries: seq<ImportEntry>) {
    && |entryOf| == |plan.snippets|
    && forall i | 0 <= i < |entryOf| :: entryOf[i].Some? ==> entryOf[i].value < |entries|
  }

  function FirstReplacing(entries: seq<ImportEntry>, id: string): (first: nat)
    ensures first <= |entries|
    ensures first < |entries| ==> entries[first].replacing == id
    ensures forall k | 0 <= k < first :: entries[k].replacing != id
  {
    if entries == [] then 0
    else if entries[0].replacing == id then 0
    else 1 + FirstReplacing(entries[1..], id)
  }

  function MarkFavorite(entries: seq<ImportEntry>, k: nat): seq<ImportEntry>
    requires k < |entries|
  {
    entries[k := entries[k].(snippet := entries[k].snippet.(favorite := true))]
  }

  /** The entry that only marks the stored snippet as favorite. */
  function FavoriteOnly(planned: PlannedSnippet): ImportEntry
    requires planned.existing.Some?
  {
    var existing := planned.existing.value;
    ImportEntry(
      TransferSnippet(existing.name, existing.command, planned.snippet.folder, existing.tags, true, existing.danger),
      planned.folderId, existing.id)
  }

  predicate Replaces(planned: PlannedSnippet, resolution: Resolution) {
    planned.status == NameConflict && resolution == Replace && planned.CanReplace()
  }

  predicate Skips(planned: PlannedSnippet, resolution: Resolution) {
    planned.status == NameConflict && (resolution == Skip || (resolution == Replace && !planned.CanReplace()))
  }

  /** The entry a planned snippet that is not skipped produces. */
  function EntryFor(planned: PlannedSnippet, resolution: Resolution): ImportEntry {
    if Replaces(planned, resolution) then
      var existing := planned.existing.value;
      ImportEntry(
        planned.snippet.(favorite := planned.snippet.favorite || existing.favorite), planned.folderId, existing.id)
    else ImportEntry(planned.snippet, planned.folderId, "")
  }

  function Push(s: Deciding, i: nat, entry: ImportEntry): Deciding
    requires i < |s.entryOf|
  {
    Deciding(
      s.decision.(entries := s.decision.entries + [entry]),
      s.entryOf[i := Some(|s.decision.entries|)], s.origins + [i])
  }

  function MergeStep(plan: ImportPlan, s: Deciding, i: nat): (r: Deciding)
    requires WellFormed(plan) && i < |plan.snippets| && InRange(plan, s.entryOf, s.decision.entries)
    ensures InRange(plan, r.entryOf, r.decision.entries)
  {
    var planned := plan.snippets[i];
    var entries := s.decision.entries;
    if !planned.snippet.favorite then s
    else if planned.earlierEntry.Some? && s.entryOf[planned.earlierEntry.value].Some? then
      s.(decision := s.decision.(entries := MarkFavorite(entries, s.entryOf[planned.earlierEntry.value].value)))
    else if planned.existing.None? || planned.existing.value.favorite then s
    else
      var written := FirstReplacing(entries, planned.existing.value.id);
      if written < |entries| then s.(decision := s.decision.(entries := MarkFavorite(entries, written)))
      else Push(s, i, FavoriteOnly(planned))
  }

  function DecideStep(plan: ImportPlan, resolutionOf: nat -> Resolution, s: Deciding, i: nat): (r: Deciding)
    requires WellFormed(plan) && i < |plan.snippets| && InRange(plan, s.entryOf, s.decision.entries)
    ensures InRange(plan, r.entryOf, r.decision.entries)
  {
    var planned := plan.snippets[i];
    if planned.status == Identical then
      MergeStep(plan, s.(decision := s.decision.(skipped := s.decision.skipped + 1)), i)
    else if Skips(planned, resolutionOf(i)) then s.(decision := s.decision.(skipped := s.decision.skipped + 1))
    else
      var entry := EntryFor(planned, resolutionOf(i));
      var pushed := Push(s, i, entry);
      if entry.replacing == "" then pushed.(decision := pushed.decision.(added := s.decision.added + 1))
      else pushed.(decision := pushed.decision.(replaced := s.decision.replaced + 1))
  }

  function DecideUpTo(plan: ImportPlan, resolutionOf: nat -> Resolution, n: nat): (s: Deciding)
    requires WellFormed(plan) && n <= |plan.snippets|
    ensures InRange(plan, s.entryOf, s.decision.entries)
  {
    if n == 0 then Deciding(Decision([], 0, 0, 0), seq(|plan.snippets|, _ => None), [])
    else DecideStep(plan, resolutionOf, DecideUpTo(plan, resolutionOf, n - 1), n - 1)
  }

  function DecisionOf(plan: ImportPlan, resolutionOf: nat -> Resolution): Decision
    requires WellFormed(plan)
  {
    DecideUpTo(plan, resolutionOf, |plan.snippets|).decision
  }

  /** Marks the earlier pasted entry or the stored snippet an identical pasted favorite matches. */
  method MergeIdenticalFavorite(
    plan: ImportPlan, index: nat, entries: seq<ImportEntry>, entryOf: seq<Option<nat>>
  ) returns (merged: seq<ImportEntry>, mergedOf: seq<Option<nat>>)
    requires WellFormed(plan) && index < |plan.snippets| && InRange(plan, entryOf, entries)
    ensures forall s: Deciding | s.decision.entries == entries && s.entryOf == entryOf ::
        MergeStep(plan, s, index).decision == s.decision.(entries := merged)
        && MergeStep(plan, s, index).entryOf == mergedOf
  {
    merged, mergedOf := entries, entryOf;
    var planned := plan.snippets[index];
    if !planned.snippet.favorite {
      return;
    }
    if planned.earlierEntry.Some? && entryOf[planned.earlierEntry.value].Some? {
      merged := MarkFavorite(entries, entryOf[planned.earlierEntry.value].value);
      return;
    }
    if planned.existing.None? || planned.existing.value.favorite {
      return;
    }
    var existing := planned.existing.value;
    var written := 0;
    while written < |entries| && entries[written].replacing != existing.id
      invariant written <= |entries|
      invariant forall k | 0 <= k < written :: entries[k].replacing != existing.id
    {
      written := written + 1;
    }
    if written != |entries| {
      merged := MarkFavorite(entries, written);
      return;
    }
    mergedOf := entryOf[index := Some(|entries|)];
    merged := entries + [FavoriteOnly(planned)];
  }

  /** Collects the entries of the planned snippets, patching earlier ones in place. */
  method Decide(plan: ImportPlan, resolutionOf: nat -> Resolution) returns (decision: Decision)
    requires WellFormed(plan)
    ensures decision == DecisionOf(plan, resolutionOf)
  {
    decision := Decision([], 0, 0, 0);
    var entryOf: seq<Option<nat>> := seq(|plan.snippets|, _ => None);
    for index := 0 to |plan.snippets|
      invariant decision == DecideUpTo(plan, resolutionOf, index).decision
      invariant entryOf == DecideUpTo(plan, resolutionOf, index).entryOf
    {
      ghost var before := DecideUpTo(plan, resolutionOf, index);
      assert DecideUpTo(plan, resolutionOf, index + 1) == DecideStep(plan, resolutionOf, before, index);
      var planned := plan.snippets[index];
      var entry := ImportEntry(planned.snippet, planned.folderId, "");
      if planned.status == Identical {
        decision := decision.(skipped := decision.skipped + 1);
        ghost var counted := before.(decision := decision);
        var entries;
        entries, entryOf := MergeIdenticalFavorite(plan, index, decision.entries, entryOf);
        assert MergeStep(plan, counted, index).entryOf == entryOf;
        decision := decision.(entries := entries);
        continue;
      }
      if planned.status == NameConflict {
        var resolution := resolutionOf(index);
        if resolution == Skip || (resolution == Replace && !planned.CanReplace()) {
          decision := decision.(skipped := decision.skipped + 1);
          continue;
        }
        if resolution == Replace {
          var existing := planned.existing.value;
          entry := entry.(
            replacing := existing.id,
            snippet := entry.snippet.(favorite := entry.snippet.favorite || existing.favorite));
        }
      }
      if entry.replacing == "" {
        decision := decision.(added := decision.added + 1);
      } else {
        decision := decision.(replaced := decision.replaced + 1);
      }
      entryOf := entryOf[index := Some(|decision.entries|)];
      decision := decision.(entries := decision.entries + [entry]);
    }
  }
}
