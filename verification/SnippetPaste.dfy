/** A pasted document all the way to the import call: what is decided about it arrives at the store as decided. */
module SnippetPaste {
  import opened Wrappers
  import opened CommandTypes
  import opened SnippetTransfer
  import opened SnippetImportPlan
  import opened SnippetDecision

  /** The name the folder of a fixed target has; empty for the root and for an unknown folder. */
  function TargetName(folders: seq<SnippetFolder>, target: Target): string {
    if target.None? then ""
    else match FolderWithId(folders, target.value) case Some(folder) => folder.name case None => ""
  }

  lemma PlannedIsPrintable(
    pasted: seq<TransferSnippet>, stored: seq<Snippet>, folders: seq<SnippetFolder>, target: Target, i: nat
  )
    requires i < |pasted| && Printable(pasted[i])
    ensures Printable(PlannedAt(pasted, stored, folders, target, i).snippet) <==> IsTrimmed(TargetName(folders, target))
    ensures var planned := PlannedAt(pasted, stored, folders, target, i);
            planned.status == Identical && planned.existing.Some? ==>
              (Printable(FavoriteOnly(planned).snippet) <==> Printable(planned.snippet))
  {
    PlannedSnippetIsThePasted(pasted, stored, folders, target, i);
  }

  lemma EntryIsPrintable(entry: ImportEntry, planned: PlannedSnippet, resolution: Resolution)
    requires StemsFrom(entry, planned, resolution)
    requires planned.status == Identical && planned.existing.Some? ==>
               (Printable(FavoriteOnly(planned).snippet) <==> Printable(planned.snippet))
    ensures Printable(entry.snippet) <==> Printable(planned.snippet)
  {
    assert Unmarked(entry).snippet.name == entry.snippet.name
           && Unmarked(entry).snippet.command == entry.snippet.command
        && Unmarked(entry).snippet.folder == entry.snippet.folder;
  }

  /**
   The entries decided about an accepted document, with any answers, are read by the import call exactly as they were
   decided unless there are some for a fixed target folder whose name is not trimmed: the call trims it.
   */
  lemma DecisionsReachTheStore(
    document: Json, stored: seq<Snippet>, folders: seq<SnippetFolder>, target: Target, resolutionOf: nat -> Resolution
  )
    requires FromJson(document).Success? && UniqueIds(stored)
    ensures var plan := PlanOf(FromJson(document).value, stored, folders, target);
            && WellFormed(plan)
            && var entries := DecisionOf(plan, resolutionOf).entries;
               ImportFromJson(ImportDocumentOf(entries)) == Success(entries)
               <==> entries == [] || IsTrimmed(TargetName(folders, target))
  {
    var pasted := FromJson(document).value;
    var plan := PlanOf(pasted, stored, folders, target);
    PlansAreWellFormed(pasted, stored, folders, target);
    EveryEntryIsTraced(plan, resolutionOf, |plan.snippets|);
    AcceptedSnippetsArePrintable(document);
    var s := DecideUpTo(plan, resolutionOf, |plan.snippets|);
    var entries := s.decision.entries;
    hide DecideUpTo, FromJson, Printable, StemsFrom, PlannedAt, ImportFromJson, ImportDocumentOf;
    forall k | 0 <= k < |entries| ensures Printable(entries[k].snippet) <==> IsTrimmed(TargetName(folders, target)) {
      var i := s.origins[k];
      PlannedIsPrintable(pasted, stored, folders, target, i);
      EntryIsPrintable(entries[k], plan.snippets[i], resolutionOf(i));
    }
    ImportReadsBackIffPrintable(entries);
  }
}
