# Verified model of nui-sftp

A Dafny model of the state machines and planners of nui-sftp, an SSH and SFTP workbench, with proofs of what they keep
over whole runs. `dafny verify dfyconfig.toml` checks everything.

Each part of the program has a specification on values: what one call or one event does to a state, and what a run of
events leads to. The lemmas are about these. Where the program updates something in place or loops, a class or a method
does the same steps and is proved equal to the specification, so what the lemmas say holds of it.

| modules | part of the program |
|---|---|
| `CommandHistory`, `CommandRecency`, `CommandTies`, `CommandFlags` | the command history: an upsert, a trim to a cap, pins, executions in one second |
| `SnippetImportPlan`, `SnippetDecision`, `SnippetAnswers`, `SnippetFavorites` | planning a paste of snippets, turning the answers into entries, and where favorite marks go |
| `SnippetStore`, `SnippetImport`, `SnippetReimport`, `SnippetReplan` | storing the entries, all three stages together, and planning again |
| `SnippetTransfer`, `SnippetReading`, `SnippetPaste` | the JSON documents snippets travel in, and a paste up to the store |
| `LocalOperationQueue`, `LocalQueueRuns`, `LocalQueueEnds`, `LocalQueueTasks` | the queue of local operations and the sessions that pause it |
| `NotificationCenter`, `NotificationRepeats`, `NotificationAttention` | the notification log, its toasts and what was not seen yet |
| `ExistenceCheck` | whether remote paths exist, by listings and by single questions |
| `UploadEnds`, `UploadDelivery`, `UploadWays`, `UploadTasks`, `StopIndex` | how uploads hear their end, and which may be stopped |
| `RandomAccessMap` | a deque with an index of pointers |
| `PipelinedTransfer` | a file transfer with a window of requests |
| `ReconnectCycle`, `ReconnectRuns`, `ReconnectLimits`, `ReconnectSessions`, `ReconnectOverlay`, `SessionAreaTasks`, `TabTitles` | the reconnect cycles and tab titles of the session area |
| `CommandTypes`, `Wrappers` | shared types |

Assumptions. Stored ids are unique and not empty and generated ids are new; nothing changes the store between planning
and importing; clocks do not go back. A task on a strand or a callback in the frontend is one step. A probe that was
dropped reports nothing any more, although the reply to its connect is not guarded against that
(`frontend/source/frontend/terminal/ssh_engine.cpp:64-76`). An operation of the local queue is the number of steps it
needs and whether the last one fails. Fields named as records of the past (`arrival`, `ended`, `toasts`, `lost`,
`heard`, `attempts`, …) only keep what happened, so that statements over runs can speak of it: no branch of the program
depends on them, they only number what arrives and rule out events that cannot come, such as a second end of one upload.

Where the code does not keep what one would expect of it, the model follows the code and a lemma says exactly when it
does:

- A command that was just run is not in the history when as many rows as the cap or more are pinned
  (`CommandHistory.NewestSurvivesIfRoom`, `CommandHistory.NewestIsDropped`).
- Times are whole seconds, and rows of one second are trimmed in the order in which they came. A command that is run
  again in the second of a row that came after its own may be dropped before that one, although it was run later
  (`CommandTies.HistoryIsLawfulIffUntied`, `CommandTies.TieDropsARecentCommand`).
- An import into a folder that vanished fails, unless the document is empty (`SnippetReimport.ImportFailsOnVanishedTargets`).
- The comment on the decision promises that the mark of an identical pasted favorite goes to what it is identical to. It
  goes to the earlier pasted snippet of its name and folder when that one leads to an entry, even if the contents differ
  (`SnippetFavorites.MarkArrivesIffNotDiverted`, with a store and a document in
  `SnippetFavorites.MarkOfAnIdenticalSnippetGoesAstray`).
- Importing a document again finds all of it identical exactly when every snippet was stored, equals one that was, or has
  a stored twin that no answer replaced (`SnippetReplan.ReimportIsIdenticalIffSettled`); keeping every conflict is enough
  (`SnippetReimport.ReimportAddsNothing`), replacing is not (`SnippetReplan.ReplacedTwinsAreNotFoundAgain`).
- Folder names of a fixed target are trimmed on their way to the store (`SnippetPaste.DecisionsReachTheStore`).
- A version from 2^63 on is accepted, and any version at all in a document without snippets
  (`SnippetTransfer.VersionIsAcceptedIff`).
- The listing of a directory may contradict an lstat when the server takes two names for the same whose folds differ
  (`ExistenceCheck.FastPathIsRightIffFoldsCover`).
- A pipelined transfer pops an empty queue after an answer that is not full, and at once when the request length is zero
  (`PipelinedTransfer.DownloadFile`, `PipelinedTransfer.UploadFile`).
- Inserting a value under another key than its own breaks the map
  (`RandomAccessMap.EveryRunAgreesIffKeysMatch`).
- The overlay offers Reconnect while the settings of a canceled cycle are still on their way. They then start the first
  probe of the next cycle once more, so that attempts no longer count up and every limit can be exceeded. In the runs the
  overlay offers this happens exactly then (`ReconnectLimits.OfferedRunsCountIffDisciplined`,
  `ReconnectLimits.RequestCountsIffNothingIsPending`, `ReconnectLimits.PendingSettingsExceedEveryLimit`). A probe can then
  also run beside a pending retry, where Now is offered (`ReconnectRuns.StaleSettingsExceedTheLimit`); without such
  settings Now is only offered during a backoff (`ReconnectRuns.NowIsOfferedOnlyInABackoff`).
- The delay between attempts overflows from attempt 23 on (`ReconnectRuns.DelayIsMeantIff`,
  `ReconnectRuns.DelayOverflows`).

## Model

| member | source | states |
|---|---|---|
| CommandHistory.TrimmedToTheCap | command-store/source/command-store/command_store.cpp:335-370 | after a trim the table has at most the cap, or only pinned rows |
| CommandHistory.TrimmingDropsTheOldest | command-store/source/command-store/command_store.cpp:357-358 | a row trimmed away is unpinned and older in (last run, id) than every unpinned row kept |
| CommandHistory.ExecutionSurvivesIfRoom | command-store/source/command-store/command_store.cpp:524-560 | any execution is still stored after its own trim if and only if its command is pinned already, or the pinned rows and the unpinned ones trimmed after it are fewer than the cap, all of it in the table before |
| CommandHistory.NewestSurvivesIfRoom | command-store/source/command-store/command_store.cpp:524-560 | for an execution no older than any other that does not tie with a row that came after its own, that is: pinned already, or fewer rows than the cap are pinned |
| CommandHistory.NewestIsDropped | command-store/source/command-store/command_store.cpp:524-560 | a table with one pinned row and a cap of one, in which a command just run is not stored |
| CommandHistory.EveryRecordingTrims | command-store/source/command-store/command_store.cpp:503-570 | over any mix of recording, pinning, unpinning and deleting: after a recording (host, command) is unique, the size is at most the larger of the cap and the pinned rows, no pinned row is lost, and what is lost is older than every unpinned row kept |
| CommandFlags.OperationsMean | command-store/source/command-store/command_store.cpp:503-706 | what recording, flagging, deleting and clearing leave of every row, field by field |
| CommandFlags.FlagsAreAsSet | command-store/source/command-store/command_store.cpp:503-706 | in any run a row is pinned, or a favorite, if and only if it was set so since it is there and not taken back: recording and trimming set and lose no flag |
| CommandHistory.HistoryTable.TrimHistory | command-store/source/command-store/command_store.cpp:335-370 | deletes exactly the oldest unpinned rows beyond the cap |
| CommandHistory.HistoryTable.RecordExecution | command-store/source/command-store/command_store.cpp:503-570 | upserts on (host, command), returns the row as stored before the trim, then trims |
| CommandHistory.HistoryTable.SetHistoryFlags | command-store/source/command-store/command_store.cpp:617-653 | sets only the flags given; fails exactly when the id is unknown |
| CommandHistory.HistoryTable.DeleteHistory | command-store/source/command-store/command_store.cpp:655-695 | deletes exactly the rows with the given ids |
| CommandHistory.HistoryTable.ClearHistory | command-store/source/command-store/command_store.cpp:697-706 | leaves no row |
| CommandRecency.HistoryIsTheMostRecent | command-store/source/command-store/command_store.cpp:503-570 | for every trace without pins whose times do not go back, and in which no command is run again in the second of a row that came after its own, the table holds exactly the cap most recently run distinct commands, each with its last run, and trims them in that order: the least-recently-used law |
| CommandRecency.StrictTimesAreUntied | command-store/source/command-store/command_store.cpp:354-361 | strictly increasing times have no such tie |
| CommandTies.HistoryIsLawfulIffUntied | command-store/source/command-store/command_store.cpp:354-361 | for every trace whose times do not go back: the table is and stays exactly the most recently run commands, all through the trace and whatever new commands follow, if and only if no command was run again in the second of a row that came after its own |
| CommandTies.TieDropsARecentCommand | command-store/source/command-store/command_store.cpp:354-361 | four executions in one second with a cap of two, of which the command run last but one is dropped |
| CommandRecency.SmallerHistoriesAreContained | command-store/source/command-store/command_store.cpp:335-370 | what the history of a smaller cap holds after a trace without such ties, that of a larger cap holds too |
| CommandRecency.RowsCountSinceEntry | command-store/source/command-store/command_store.cpp:524-531 | after a trace without such ties, runs and first run of a row count from the last time its command entered the table |
| SnippetImportPlan.EqualKeysNameOneTarget | command-store/include/command-store/snippet_import_plan.hpp:178-181 | equal folder keys and names mean the same folder, existing or still to create |
| SnippetImportPlan.Plan | command-store/include/command-store/snippet_import_plan.hpp:191-260 | the one-pass plan with its map of first names equals the plan that looks every snippet up on its own |
| SnippetImportPlan.Classify | command-store/include/command-store/snippet_import_plan.hpp:204-252 | one snippet of that pass |
| SnippetImportPlan.PlannedSnippetIsThePasted | command-store/include/command-store/snippet_import_plan.hpp:125-173 | planning changes nothing of a pasted snippet but its folder name, and an existing match is stored in the target folder |
| SnippetImportPlan.StatusMeaning | command-store/include/command-store/snippet_import_plan.hpp:207-252 | when a snippet is Identical, in conflict or new, by what is stored and what was pasted before it |
| SnippetImportPlan.NewFoldersAreTheMissingOnes | command-store/include/command-store/snippet_import_plan.hpp:164-172 | the announced folders are exactly the missing folder names of the document, each once |
| SnippetImportPlan.NewFoldersAreInOrder | command-store/include/command-store/snippet_import_plan.hpp:164-172 | the announced folders come in the order in which the document first uses them |
| SnippetImportPlan.IgnoredFoldersAreTheNamedOnes | command-store/include/command-store/snippet_import_plan.hpp:191-260 | the ignored folders are those the document names for a fixed target, each once, in order of first use |
| SnippetImportPlan.MergeIdenticalFavorite | command-store/include/command-store/snippet_import_plan.hpp:292-334 | an absorbed favorite marks the earlier entry, the entry already written, or adds a favorite-only entry |
| SnippetImportPlan.Decide | command-store/include/command-store/snippet_import_plan.hpp:285-366 | the loop that patches earlier entries in place equals the decision as a fold |
| SnippetDecision.EveryEntryIsTraced | command-store/include/command-store/snippet_import_plan.hpp:336-364 | entries and the snippets that produced them correspond one to one, in document order, and every new, kept or replacing snippet has one |
| SnippetDecision.EverySnippetIsCounted | command-store/include/command-store/snippet_import_plan.hpp:341-361 | added, replaced and skipped sum to the snippets, and added counts exactly the entries that add a row |
| SnippetAnswers.AnswersAreCarriedOut | command-store/include/command-store/snippet_import_plan.hpp:336-364 | for every document, store, target and answers: each entry holds its snippet field by field and adds it when it is new or both are kept, overwrites the match when that is replaced, or only marks it; every snippet to be added or to overwrite has its entry; and when exactly an entry is a favorite |
| SnippetAnswers.CountsAreOfTheAnswers | command-store/include/command-store/snippet_import_plan.hpp:341-361 | added counts exactly the new snippets and the conflicts kept, replaced exactly the conflicts replaced that may be, skipped all others |
| SnippetDecision.OverwritesNeverCollide | command-store/include/command-store/snippet_import_plan.hpp:76-79 | for every document, store, target and answers no two entries overwrite the same stored snippet |
| SnippetDecision.DecisionsNeverUnfavorite | command-store/include/command-store/snippet_import_plan.hpp:355-359 | an entry that overwrites a stored favorite is a favorite |
| SnippetDecision.FavoritesAreExplained | command-store/include/command-store/snippet_import_plan.hpp:291-334 | an entry is a favorite if and only if its own pasted snippet is one, the stored one it matches is one, or a pasted snippet marks it by the rule of the code |
| SnippetFavorites.Paste.LeadsToEntryIff | command-store/include/command-store/snippet_import_plan.hpp:292-359 | whether the first snippet of a name and folder leads to an entry, told before deciding by its status, its match and its answer (if and only if) |
| SnippetFavorites.MarkArrivesIffNotDiverted | command-store/include/command-store/snippet_import_plan.hpp:291-334 | the favorite mark of an identical pasted snippet reaches what it is identical to if and only if no earlier snippet of the same name and folder, with other content, leads to an entry; for every document, store, target and answers |
| SnippetFavorites.MarkOfARepeat | command-store/include/command-store/snippet_import_plan.hpp:300-310 | when an earlier snippet of the name and folder leads to an entry, the mark arrives if and only if the two hold the same |
| SnippetFavorites.MarkOfAnIdenticalSnippetGoesAstray | command-store/include/command-store/snippet_import_plan.hpp:291-334 | a store and a document whose favorite, identical to a stored snippet, makes another snippet a favorite and leaves the stored one as it is |
| SnippetStore.SnippetTables.UpsertRow | command-store/source/command-store/command_store.cpp:139-172 | inserts a row or overwrites it by id, keeping uses and last used |
| SnippetStore.SnippetTables.IndexFolders | command-store/source/command-store/command_store.cpp:377-387 | the first folder of a name wins, and the next position is behind all |
| SnippetStore.SnippetTables.TargetFolder | command-store/source/command-store/command_store.cpp:390-412 | a known id, the root, a known name, or a folder created behind all others; fails on an unknown id |
| SnippetStore.SnippetTables.ImportSnippets | command-store/source/command-store/command_store.cpp:375-435 | stores all entries, or none and leaves the tables as they were |
| SnippetImport.ImportLeavesItsEntries | command-store/source/command-store/command_store.cpp:414-434 | after an import every entry has its row with its content in its folder, fresh ids collide with nothing, and every other row and folder is as before |
| SnippetImport.ImportedRowsHoldTheirEntries | command-store/source/command-store/command_store.cpp:414-434 | after an import every entry has a row of its own with its name, command, tags, danger and favorite mark, in the folder it names; a new row was never used, an overwritten one keeps its use counts |
| SnippetImport.ImportFailsOnUnknownFolders | command-store/source/command-store/command_store.cpp:391-397 | an import fails if and only if an entry names a folder id the store did not have at the start |
| SnippetReimport.ImportCreatesMissingFolders | command-store/source/command-store/command_store.cpp:399-411 | an import creates the missing folder names of its entries, each once, in order of first use, behind all others |
| SnippetReimport.DecisionsMissThePlannedFolders | command-store/include/command-store/snippet_import_plan.hpp:336-364 | the entries of any decision miss exactly the folders the plan announced, in its order |
| SnippetReimport.ImportFailsOnVanishedTargets | command-store/include/command-store/snippet_import_plan.hpp:153-162 | a planned import fails if and only if its fixed target folder has vanished and the document is not empty |
| SnippetReimport.PlanPredictsImport | command-store/include/command-store/snippet_import_plan.hpp:268-366 | for every document, store, target and answers: each snippet is counted once, the store grows by the added count, exactly the announced folders are created behind all others, and no row, favorite or use count is lost |
| SnippetReimport.ReimportAddsNothing | command-store/include/command-store/snippet_import_plan.hpp:191-260 | after an import with every conflict kept, planning the document again over the resulting store finds every snippet Identical, creates no folder, and decides to add and replace nothing whatever the answers |
| SnippetReimport.IdenticalSnippetsChangeNothing | command-store/include/command-store/snippet_import_plan.hpp:341-346 | a decision over identical snippets adds and replaces nothing |
| SnippetReplan.TwinsAreFoundIffSettled | command-store/include/command-store/snippet_import_plan.hpp:207-252 | whatever an import was answered, a snippet has a stored twin in the resulting store if and only if an equal one of its target was stored, or a stored twin of its was replaced by no answer |
| SnippetReplan.ReimportIsIdenticalIffSettled | command-store/include/command-store/snippet_import_plan.hpp:191-260 | whatever an import was answered, planning the document again finds every snippet Identical if and only if every snippet is settled in that way |
| SnippetReplan.ReplacedTwinsAreNotSettled | command-store/include/command-store/snippet_import_plan.hpp:336-364 | a store and a document whose answer replaces the stored twin of another snippet of the document, which is not settled |
| SnippetReplan.ReplacedTwinsAreNotFoundAgain | command-store/include/command-store/snippet_import_plan.hpp:191-260 | after that import, planning the document again finds a snippet that is not Identical |
| SnippetTransfer.TrimmingTrims | command-store/include/command-store/snippet_transfer.hpp:52-60 | a trimmed text has no whitespace at its ends, and exactly those texts are left alone |
| SnippetTransfer.TrimmingTakesSpace | command-store/include/command-store/snippet_transfer.hpp:52-60 | trimming takes only whitespace off both ends |
| SnippetTransfer.EntryFromJson | command-store/include/command-store/snippet_transfer.hpp:70-98 | reads one entry, the tags one by one |
| SnippetTransfer.EntriesFromJson | command-store/include/command-store/snippet_transfer.hpp:100-112 | reads all entries or fails at the first unreadable one |
| SnippetTransfer.EntriesMean | command-store/include/command-store/snippet_transfer.hpp:100-112 | success means every entry was read in its place; failure is that of the first unreadable entry |
| SnippetReading.EntriesAreReadFromTheirFields | command-store/include/command-store/snippet_transfer.hpp:70-98 | an object is read if and only if it has a name that is not blank and a command that is not empty; what every field of the snippet holds, and which failure is told with which place |
| SnippetReading.NothingElseIsRead | command-store/include/command-store/snippet_transfer.hpp:70-75 | an element that is no object is rejected with its place |
| SnippetReading.TagsAreTheTexts | command-store/include/command-store/snippet_transfer.hpp:80-90 | the tags are the texts of the list, in order, without what is no text |
| SnippetReading.RejectionsMean | command-store/include/command-store/snippet_transfer.hpp:118-149 | why a document without a readable list is rejected, with the version told when that is the reason |
| SnippetReading.TrimIsUnique | command-store/include/command-store/snippet_transfer.hpp:52-60 | only one text is another one without the whitespace at its ends |
| SnippetReading.ImportEntriesAreRead | command-store/include/command-store/snippet_transfer.hpp:211-232 | import calls are read like pasted lists, each entry with the folder and the row its element names |
| SnippetTransfer.ToJson | command-store/include/command-store/snippet_transfer.hpp:165-184 | prints the versioned document |
| SnippetTransfer.DocumentReadsBackIffPrintable | command-store/include/command-store/snippet_transfer.hpp:118-184 | printed snippets read back as they were if and only if all names and folders are trimmed and no name or command is empty |
| SnippetTransfer.AcceptedDocumentsReadBack | command-store/include/command-store/snippet_transfer.hpp:118-184 | for any accepted document, printing what was read and reading it again changes nothing |
| SnippetTransfer.AcceptedSnippetsArePrintable | command-store/include/command-store/snippet_transfer.hpp:70-149 | everything an accepted document yields has a name, a command, and a trimmed name and folder |
| SnippetTransfer.FormsAgree | command-store/include/command-store/snippet_transfer.hpp:118-137 | a bare array and a single entry are read like the document of the same entries |
| SnippetTransfer.VersionIsAcceptedIff | command-store/include/command-store/snippet_transfer.hpp:118-149 | a document with a version and snippets is read if and only if the version is an integer of at most 1, or an unsigned one from 2^63 on, which wraps around, and the snippets are an array of readable entries; without snippets the version does not count, and the document is read as one entry |
| SnippetTransfer.ImportEntriesToJson | command-store/include/command-store/snippet_transfer.hpp:189-206 | prints import entries |
| SnippetTransfer.ImportEntriesFromJson | command-store/include/command-store/snippet_transfer.hpp:211-232 | reads import entries, all or nothing |
| SnippetTransfer.ImportReadsBackIffPrintable | command-store/include/command-store/snippet_transfer.hpp:189-232 | import entries come through unchanged if and only if their snippets are printable |
| SnippetTransfer.AcceptedImportsReadBack | command-store/include/command-store/snippet_transfer.hpp:189-232 | for any accepted import call, sending what was read again changes nothing |
| SnippetPaste.DecisionsReachTheStore | command-store/include/command-store/snippet_import_plan.hpp:285-366 | whatever is decided about an accepted document reaches the store exactly as decided, unless there are entries for a fixed folder whose name is not trimmed (if and only if) |
| LocalOperationQueue.EveryRunKeepsTheInvariant | backend/source/backend/local_operation_queue.cpp:324-458 | in every reachable state priority operations are a prefix and never held, each class is in arrival order, at most one step is posted, one is posted whenever an operation is not held, and an operation is held exactly when it is ordinary and its session exists and is paused |
| LocalQueueRuns.EveryOperationEndsOnce | backend/source/backend/local_operation_queue.cpp:404-478 | in any run every operation added is still queued once or was told ended once, never both |
| LocalQueueEnds.EveryEndIsTrue | backend/source/backend/local_operation_queue.cpp:324-478 | in every run, from the events alone: operations are numbered as accepted; each is queued with the steps it has left, or was told an end with its own id, Canceled if and only if a cancel took it out, otherwise with the last of its steps, and Failed if and only if it fails |
| LocalQueueEnds.SessionsAreKnown | backend/source/backend/session.cpp:1288-1296 | in every run, from the events alone: which sessions are open, and that a session is paused if and only if it opened, or was paused while open, and was not unpaused since |
| LocalQueueEnds.StepsArePosted | backend/source/backend/local_operation_queue.cpp:441-458 | in every run at most one step is posted; exactly an operation accepted, a session unpaused or stopped, and a step that leaves something to run post one |
| LocalQueueRuns.ClassesEndInArrivalOrder | backend/source/backend/local_operation_queue.cpp:324-336 | of two operations of one class that are never held or canceled, the earlier one ends first, whatever arrives, pauses or stops |
| LocalQueueRuns.QueueDrainsWhatItDoesNotHold | backend/source/backend/local_operation_queue.cpp:417-458 | when nothing more arrives the posted steps stop, and by then exactly the operations not held have ended, in queue order |
| LocalQueueRuns.PausedOperationsDoNotMove | backend/source/backend/local_operation_queue.cpp:381-390 | a step leaves the ordinary operations of a paused session untouched |
| LocalQueueRuns.StoppedOperationsRunAgain | backend/source/backend/local_operation_queue.cpp:392-402 | in every reachable state, once a session stops and whatever happens afterwards: what it owned belongs to no session and is not held while it is queued, also when the id is opened and paused again, and has ended exactly once when the queue has drained |
| LocalQueueTasks.LocalQueue.Enqueue | backend/source/backend/local_operation_queue.cpp:324-336 | a priority operation goes before all ordinary ones and behind the other priority ones, an ordinary one to the end |
| LocalQueueTasks.LocalQueue.Hold | backend/source/backend/local_operation_queue.cpp:381-390 | changes the hold of exactly the session's ordinary operations |
| LocalQueueTasks.LocalQueue.Release | backend/source/backend/local_operation_queue.cpp:392-402 | frees exactly the session's operations |
| LocalQueueTasks.LocalQueue.Cancel | backend/source/backend/local_operation_queue.cpp:404-415 | ends the first operation of the id as canceled, nothing for an unknown id |
| LocalQueueTasks.LocalQueue.Work | backend/source/backend/local_operation_queue.cpp:417-439 | works the first operation that is not held, and tells whether one is left |
| LocalQueueTasks.LocalQueue.Schedule | backend/source/backend/local_operation_queue.cpp:441-458 | posts a step unless one is posted |
| LocalQueueTasks.LocalQueue.RunPosted | backend/source/backend/local_operation_queue.cpp:448-456 | the posted step |
| LocalQueueTasks.LocalQueue.Complete | backend/source/backend/local_operation_queue.cpp:460-478 | tells the end of an operation that leaves the queue |
| LocalQueueTasks.Sessions.AddLocalOperation | backend/source/backend/session.cpp:1816-1859 | an operation of a paused session arrives held, one of a stopped session is refused |
| LocalQueueTasks.Sessions.PauseUnpause | backend/source/backend/session.cpp:1288-1296 | pauses a session and holds what it owns |
| LocalQueueTasks.Sessions.StopSession | backend/source/backend/session.cpp:208-214 | releases what a session owns before the session goes |
| NotificationCenter.EveryRunKeepsTheLog | frontend/source/frontend/notification_center.cpp:100-141 | in every run the log has at most 200 entries with distinct ids, ordered by last occurrence; entries of one severity and message lie at least 8000 ms apart; occurrences and those lost by the cap or by clearing add up to the notifications sent |
| NotificationCenter.NewestIsAtTheHead | frontend/source/frontend/notification_center.cpp:100-141 | in every run the last notification is at the head of the log, unless the log was cleared since |
| NotificationRepeats.NotificationsRepeatWithinTheWindow | frontend/source/frontend/notification_center.cpp:100-163 | in every run, from the events alone: a notification of a severity and message that was not sent within the last 8000 ms gets a new entry, and toasts if and only if the toasts before allow it; one that was, with the log not cleared and fewer than 200 events since, is counted into its entry and does not toast |
| NotificationRepeats.OtherMessagesAreAdded | frontend/source/frontend/notification_center.cpp:126-163 | in any log: with no entry of the severity and message seen within 8000 ms, a new entry with the next id comes to the head, the others move down by one, and at most the last falls off |
| NotificationRepeats.RepeatsAreCounted | frontend/source/frontend/notification_center.cpp:100-124 | in any log: an entry of the severity and message seen within 8000 ms, and no other, is counted up and moved to the head, keeping its id and first time, without a toast |
| NotificationRepeats.EntriesWereSent | frontend/source/frontend/notification_center.cpp:100-141 | in every run every entry was first and last seen at notifications sent since the log was last cleared |
| NotificationRepeats.ClearedLogsAreEmpty | frontend/source/frontend/notification_center.cpp:220-224 | a log just cleared holds nothing |
| NotificationRepeats.FocusIsWhatWasOpened | frontend/source/frontend/notification_center.cpp:88-93 | in every run the entry in focus is the one the log was last opened with, unless it was closed or cleared since |
| NotificationAttention.EveryRunCountsTheUnseen | frontend/source/frontend/notification_center.cpp:88-92 | in every run the attention counts exactly the warnings and errors that came while the log was closed and were not followed by an opening, and shows the worst of them |
| NotificationAttention.WorstIsShown | frontend/source/frontend/notification_center.cpp:182-188 | the severity shown is Error if and only if an error was not seen, Warning if and only if only warnings were not, and Info if and only if nothing is unseen |
| NotificationCenter.NotifyingToasts | frontend/source/frontend/notification_center.cpp:143-163 | a notification toasts if and only if it is no repeat and the whole history of toasts allows it, although only the current window is remembered |
| NotificationCenter.EveryRunLimitsToasts | frontend/source/frontend/notification_center.cpp:143-151 | in every run any five toasts span at least 3000 ms, and of two consecutive toasts less than 250 ms apart the second is more severe |
| NotificationCenter.NoWindowHoldsFive | frontend/source/frontend/notification_center.cpp:143-151 | no interval of 3000 ms, wherever it starts, holds more than four toasts |
| NotificationCenter.Center.CountRepeat | frontend/source/frontend/notification_center.cpp:100-124 | counts a repeat into its fresh entry and moves that to the top |
| NotificationCenter.Center.Add | frontend/source/frontend/notification_center.cpp:126-163 | adds an entry, drops the oldest beyond the cap, and shows a toast if allowed |
| NotificationCenter.Center.CapEntries | frontend/source/frontend/notification_center.cpp:140-141 | drops exactly the entries beyond the cap |
| NotificationCenter.Center.ForgetOldToasts | frontend/source/frontend/notification_center.cpp:143-144 | forgets exactly the toasts a burst window back |
| NotificationCenter.Center.Notify | frontend/source/frontend/notification_center.cpp:176-192 | counts or adds, and draws attention while the log is closed |
| ExistenceCheck.GroupByParent | backend/source/backend/existence_check.cpp:151-162 | the grouping through an index map equals the grouping by directory in order of first appearance; fails if and only if a path has no parent |
| ExistenceCheck.GroupsPartitionTheIndices | backend/source/backend/existence_check.cpp:151-162 | every directory has one group, with exactly its indices in ascending order |
| ExistenceCheck.EveryIndexIsInOneGroup | backend/source/backend/existence_check.cpp:164-181 | every index is answered by exactly one group |
| ExistenceCheck.CheckByListing | backend/source/backend/existence_check.cpp:89-139 | answers every index of its group from one listing and writes no other result |
| ExistenceCheck.CheckOneByOne | backend/source/backend/existence_check.cpp:174-180 | answers every index of its group with an lstat and writes no other result |
| ExistenceCheck.RemotePathsExist | backend/source/backend/existence_check.cpp:141-183 | succeeds if and only if every path has a parent and every answer needed succeeds, and then answers every path in its place |
| ExistenceCheck.AnswersMean | backend/source/backend/existence_check.cpp:46-139 | what is answered about a path by the answers of the server: by its lstat while fewer than ten paths are asked for in its directory, when that may not be listed, or when a name listed only folds to the same; otherwise by the listing |
| ExistenceCheck.ListingAgreesWithLstat | backend/source/backend/existence_check.cpp:112-137 | for a server that takes names for the same only when their folds are equal, grouped check and lstat agree whenever both answer |
| ExistenceCheck.VectorsAgree | backend/source/backend/existence_check.cpp:141-183 | the same for whole result vectors, duplicates and mixed parents included |
| ExistenceCheck.FastPathIsRightIffFoldsCover | backend/source/backend/existence_check.cpp:112-137 | the fast path is right for every consistent server and every list of paths if and only if the folds cover what the server takes for the same |
| UploadEnds.BulkAsksAboutSentAndChanged | backend/source/backend/file_tracking/failure_reason.cpp:211-258 | the server is asked about an upload of a bulk if and only if the bulk completed and did not leave it out, or left it out because its destination had changed |
| UploadEnds.BulkEndsMean | backend/source/backend/file_tracking/failure_reason.cpp:211-251 | when an upload of a bulk ends completed, when canceled, and so when failed |
| UploadEnds.BulkTellsOwnFiles | backend/source/backend/session_file_tracking.cpp:581-595 | a completed upload of a bulk tells of its own source if that was sent; no other end tells of a file |
| UploadEnds.BulkFailuresMean | backend/source/backend/file_tracking/failure_reason.cpp:211-251 | why an upload of a bulk failed: by the error of the operation, of its path or of its index, and when it changed on the server |
| UploadEnds.SingleEndsMean | backend/source/backend/file_tracking/failure_reason.cpp:186-206 | how a single upload ends: the reason of the operation; changed on the server if and only if that was the error; its error when it failed otherwise; the files sent when it completed; the failed entries that did not change for a completed directory; and when the server is asked |
| UploadEnds.LeftOutKeepsTheOrder | backend/source/backend/file_tracking/failure_reason.cpp:173-187 | the failed entries of a directory are told in their order |
| UploadEnds.FirstFailureCounts | backend/source/backend/file_tracking/failure_reason.cpp:221-226 | of several failures told of one index the first counts |
| UploadDelivery.ToldNowOrAsking | backend/source/backend/session_file_tracking.cpp:588-602 | at the end of an operation every upload is told at once or waits for an answer, never both |
| UploadDelivery.EveryEndIsToldOnce | backend/source/backend/session_file_tracking.cpp:65-119 | in any run the end of every upload was told once or is on its way once, whether the session was gone, had no channel, the channel dropped the request, or the server answered |
| UploadDelivery.EveryUploadHeardItsEndOnce | backend/source/backend/session_file_tracking.cpp:572-646 | once the channels let go of their requests and the strand ran its tasks, every upload has heard its end exactly once |
| UploadDelivery.EveryUploadHearsItsOwnEnd | backend/source/backend/session_file_tracking.cpp:572-646 | in any run each end told is that of its own upload, with what the server said of its own destination if it was asked |
| UploadWays.WaysOfTelling | backend/source/backend/session_file_tracking.cpp:588-646 | when an operation ends, an upload the server need not be asked about hears it at once, and all do with the session gone; without a channel the others are posted, over a channel they wait for it |
| UploadWays.PostedIsToldInOrder | backend/source/backend/session_file_tracking.cpp:105-111 | what is posted is told in the order in which it was posted |
| UploadWays.PostedComesLast | backend/source/backend/session_file_tracking.cpp:101-112 | what is posted comes behind all that is posted already, and asking or dropping tells nothing at once |
| UploadTasks.DestinationStates.constructor | backend/source/backend/session_file_tracking.cpp:71-80 | a request owes its delivery and knows no state yet |
| UploadTasks.DestinationStates.Deliver | backend/source/backend/session_file_tracking.cpp:101-112 | posts the delivery with the states, once |
| UploadTasks.DestinationStates.AskInStrand | backend/source/backend/session_file_tracking.cpp:90-98 | asks about one destination after the other, then delivers |
| UploadTasks.DestinationStates.Destroy | backend/source/backend/session_file_tracking.cpp:81-84 | delivers what was never asked |
| UploadTasks.Tell | backend/source/backend/session_file_tracking.cpp:608-616 | tells each waiting end with the state at its position |
| UploadTasks.AskStatesThen | backend/source/backend/session_file_tracking.cpp:623-646 | delivers at once without a session, posts unasked states without a channel, and otherwise leaves the request to the channel |
| UploadTasks.EndUploads | backend/source/backend/session_file_tracking.cpp:572-618 | tells the ends of a bulk, or asks first, as the specification of the runs says |
| UploadTasks.EndUpload | backend/source/backend/session_file_tracking.cpp:533-565 | the same for a single upload |
| UploadTasks.RunOldest | backend/source/backend/session_file_tracking.cpp:105-111 | the strand runs its oldest task |
| StopIndex.EveryRunKeepsTheIndex | backend/source/backend/session_file_tracking.cpp:295-336 | in every run the index maps a destination to an id if and only if that is the latest upload queued to it and it has not ended |
| StopIndex.StopsHitTheLatestUpload | backend/source/backend/session_file_tracking.cpp:338-360 | stopping a destination hits exactly its latest upload while that has not ended, and nothing otherwise |
| StopIndex.SentUploads.Queued | backend/source/backend/session_file_tracking.cpp:333-334 | keeps the index exact; the upload queued may be stopped, and so may those to other destinations as before |
| StopIndex.SentUploads.Ended | backend/source/backend/session_file_tracking.cpp:727-730 | keeps the index exact; the upload that ended may not be stopped any more, and every other one as before, a later one to its destination included |
| StopIndex.SentUploads.Find | backend/source/backend/session_file_tracking.cpp:340-343 | finds an upload only if it is the latest to the destination and has not ended, and none only if there is no such upload |
| RandomAccessMap.EveryRunAgreesIffKeysMatch | frontend/include/frontend/observed_random_access_map.hpp:16-224 | deque and index hold the same elements, each once and by its own key, all through any sequence of operations if and only if every accepted insert is by the key its element carries |
| RandomAccessMap.OperationsMean | frontend/include/frontend/observed_random_access_map.hpp:16-224 | what every operation does to the order of the elements: inserting appends, popping and extracting take from the ends and leave the rest, erasing takes the element of the key, moving puts it where it was to go |
| RandomAccessMap.PoppingUndoesInserting | frontend/include/frontend/observed_random_access_map.hpp:16-33 | popping the back after an insert leaves deque and index as they were |
| RandomAccessMap.InsertKeepsAgreementIffKeysMatch | frontend/include/frontend/observed_random_access_map.hpp:16-24 | inserting a new key keeps deque and index in agreement if and only if the value carries that key itself |
| RandomAccessMap.EraseKeepsAgreement | frontend/include/frontend/observed_random_access_map.hpp:75-97 | erasing an element keeps deque and index one to one |
| RandomAccessMap.FrontKeepsAgreement | frontend/include/frontend/observed_random_access_map.hpp:49-66 | extracting the first elements keeps deque and index one to one |
| RandomAccessMap.MoveKeepsAgreement | frontend/include/frontend/observed_random_access_map.hpp:111-149 | moving keeps deque and index one to one |
| RandomAccessMap.MoveMeans | frontend/include/frontend/observed_random_access_map.hpp:144-148 | a move puts the element at its place and leaves all others in their order, and no other sequence does |
| RandomAccessMap.MovesUndo | frontend/include/frontend/observed_random_access_map.hpp:144-148 | moving back undoes a move |
| RandomAccessMap.ObservedRandomAccessMap.Insert | frontend/include/frontend/observed_random_access_map.hpp:16-24 | appends a new element under a new key, refuses a known key; when they agreed, deque and index agree after it if and only if it was refused or the keys match |
| RandomAccessMap.ObservedRandomAccessMap.PopBack | frontend/include/frontend/observed_random_access_map.hpp:26-33 | takes the last element out of deque and index |
| RandomAccessMap.ObservedRandomAccessMap.PopFront | frontend/include/frontend/observed_random_access_map.hpp:35-42 | takes the first element out of deque and index |
| RandomAccessMap.ObservedRandomAccessMap.ExtractFrontN | frontend/include/frontend/observed_random_access_map.hpp:49-66 | hands out the first elements in order, all when there are fewer |
| RandomAccessMap.ObservedRandomAccessMap.Erase | frontend/include/frontend/observed_random_access_map.hpp:75-97 | fails for an unknown key, and for an element the deque does not hold; when they agreed, exactly what carries the key is gone and nothing else |
| RandomAccessMap.ObservedRandomAccessMap.Move | frontend/include/frontend/observed_random_access_map.hpp:111-149 | moves the same object to the clamped place, nothing for an unknown key |
| RandomAccessMap.ObservedRandomAccessMap.Front | frontend/include/frontend/observed_random_access_map.hpp:68-73 | nothing if and only if no key is known, otherwise the first element, which its own key finds as well |
| RandomAccessMap.ObservedRandomAccessMap.At | frontend/include/frontend/observed_random_access_map.hpp:156-162 | an element of the deque that carries the key, nothing only if none does |
| RandomAccessMap.ObservedRandomAccessMap.Shared | frontend/include/frontend/observed_random_access_map.hpp:168-181 | the element of a key as the deque holds it: the same object, found for every known key when they agree |
| RandomAccessMap.ObservedRandomAccessMap.Find | frontend/include/frontend/observed_random_access_map.hpp:183-198 | the place of the element of a key |
| RandomAccessMap.ObservedRandomAccessMap.Modify | frontend/include/frontend/observed_random_access_map.hpp:205-213 | changes the value in place and nothing else |
| RandomAccessMap.ObservedRandomAccessMap.Clear | frontend/include/frontend/observed_random_access_map.hpp:220-224 | leaves no element |
| PipelinedTransfer.WindowFits | backend/benchmark/backend/libssh_client.cpp:71-74 | the window is at most 8 MiB or four requests, and lacks less than one request of 8 MiB |
| PipelinedTransfer.ChunkAt | backend/benchmark/backend/libssh_client.cpp:181-189 | the requests are contiguous, positive and no longer than the request length |
| PipelinedTransfer.DownloadFile | backend/benchmark/backend/libssh_client.cpp:164-198 | ends well if and only if nothing was to be read or every read is served in full, and then has exactly the source bytes in order; terminates always; at most the window is in flight; if nothing fails, an answer that is not full ends with the empty queue popped |
| PipelinedTransfer.FillBuffer | backend/benchmark/backend/libssh_client.cpp:219-220 | the buffer holds the next bytes of the local file |
| PipelinedTransfer.UploadFile | backend/benchmark/backend/libssh_client.cpp:200-234 | the same for writes: the remote file has exactly the local bytes in order |
| ReconnectCycle.EveryDisciplinedRunIsSound | frontend/source/frontend/session_area.cpp:553-886 | the invariant of all runs in which the user presses what the overlay offers, but Reconnect only once no settings of a canceled cycle are on their way, and the limit stays the same over a cycle; the overlay shows what the cycle is in |
| ReconnectRuns.NowIsOfferedOnlyInABackoff | frontend/source/frontend/session_components/connection_loss_overlay.cpp:110-126 | in those runs the overlay shows a cycle if and only if there is one, and offers Now only while a retry is pending, never while the settings are on their way or a probe runs |
| ReconnectOverlay.OverlaysTell | frontend/source/frontend/session_components/connection_loss_overlay.cpp:191-217 | in those runs the overlay tells the attempt made or waited for, and while a retry is pending the seconds its countdown has left, none once that is over |
| ReconnectOverlay.CountdownsCount | frontend/source/frontend/session_area.cpp:791-834 | in those runs a failed probe that is not the last starts the countdown with the seconds of its delay, at least one, and every tick takes one off |
| ReconnectLimits.OfferedRunsCountIffDisciplined | frontend/source/frontend/session_area.cpp:553-886 | of all the runs the overlay offers, exactly in those the attempts of every cycle count 1, 2, 3, … within the limit, all through the run and whatever follows but another Reconnect, in which Reconnect is never pressed while settings of a canceled cycle are on their way |
| ReconnectLimits.PendingSettingsExceedEveryLimit | frontend/source/frontend/session_area.cpp:596-654 | in any run the overlay offers, for a session of the settings, with settings on their way and for every limit: Reconnect and a server that stays away lead to one attempt more than allowed, by nothing the overlay does not offer |
| ReconnectRuns.StaleSettingsExceedTheLimit | frontend/source/frontend/session_area.cpp:596-654 | a run the overlay offers, with a limit of two, that makes three attempts: stale settings start a probe beside a pending retry, so Now is offered while a probe runs |
| ReconnectRuns.AttemptsCountWithinTheLimit | frontend/source/frontend/session_area.cpp:553-657 | in those runs the attempts of every cycle count 1, 2, 3, … and, with a limit, never exceed the larger of one and the limit |
| ReconnectRuns.EveryCycleWaitsForOneThing | frontend/source/frontend/session_area.cpp:553-869 | in those runs a cycle waits for exactly one of the settings, its probe and one armed retry timer, so none is stuck |
| ReconnectRuns.CyclesLeaveNoTimers | frontend/source/frontend/session_area.cpp:751-767 | in those runs a tab has at most one retry timer, and no timer at all without a cycle |
| ReconnectRuns.EndsLeaveNothing | frontend/source/frontend/session_area.cpp:659-767 | a cycle that ends by cancel or success in those runs leaves no state, no timer of its tab and no cycle in the overlay |
| ReconnectRuns.FailureEndsTheCycleIffUsedUp | frontend/source/frontend/session_area.cpp:741-788 | a failed probe ends the cycle if and only if its attempts are used up; otherwise the next retry is armed |
| ReconnectRuns.NowKeepsTheLimitIffNotFinal | frontend/source/frontend/session_area.cpp:855-869 | handling Now starts one attempt more; the limit still holds if and only if the running attempt was not the last one allowed |
| ReconnectRuns.NowOutsideABackoffExceedsTheLimit | frontend/source/frontend/session_area.cpp:855-869 | what the handlers rely on the overlay for: events it does not offer, with Now during a probe, make two attempts with a limit of one |
| ReconnectLimits.NowCountsIffNotFinal | frontend/source/frontend/session_area.cpp:855-869 | in a cycle, for all options that keep the limit: after Now and two settings the attempts count within the limit if and only if no settings were on their way before and the attempt made was not the last one allowed |
| ReconnectRuns.StaleSettingsRepeatTheAttempt | frontend/source/frontend/session_area.cpp:596-609 | a run with a limit of one that starts two first attempts, because Reconnect is pressed while the settings of a canceled cycle are still on their way |
| ReconnectLimits.RequestCountsIffNothingIsPending | frontend/source/frontend/session_area.cpp:596-654 | outside a cycle, in any state and for all options: after Reconnect and two settings the attempts are 1 and count if and only if no settings were on their way before; otherwise they are 1, 1 |
| ReconnectRuns.EveryRunKeepsTheTabs | frontend/source/frontend/session_area.cpp:698-728 | in any run at all every tab keeps as many sessions as it had: the swap takes one out and puts one in |
| ReconnectSessions.EveryRunKeepsOpened | frontend/source/frontend/session_area.cpp:698-728 | in any run at all the session of every tab stays opened as it was, by a direct connect with its options or from the settings, through every reconnect |
| ReconnectSessions.SettingsStartTheProbe | frontend/source/frontend/session_area.cpp:599-652 | in any run settings that arrive start the probe of a direct connect with its own options whatever was found, any other with those found, and end a cycle exactly when they cannot be loaded or a session of the settings is in them no more |
| ReconnectSessions.EveryReconnectMakesASession | frontend/source/frontend/session_area.cpp:698-728 | in any run no two sessions are the same one, and there are as many new ones as cycles that reconnected |
| ReconnectSessions.EndsAreRecorded | frontend/source/frontend/session_area.cpp:659-767 | a cycle that leaves its tab is recorded with the attempts it made, as reconnected if and only if its probe was adopted; so the laws of ended cycles are about all of them |
| ReconnectRuns.DelayUpToTwentyTwo | frontend/source/frontend/session_area.cpp:795-797 | up to attempt 22 the 32-bit shift gives one second doubled with every attempt, up to the maximum |
| ReconnectRuns.RetriesWaitTheirDelay | frontend/source/frontend/session_area.cpp:791-852 | in the disciplined runs an armed retry waits the delay of the attempts made |
| ReconnectRuns.DelayNeverShrinks | frontend/source/frontend/session_area.cpp:795-797 | up to attempt 22 the delay never shrinks |
| ReconnectRuns.ShiftIsExactUpToTwentyTwo | frontend/source/frontend/session_area.cpp:795-796 | the 32-bit shift is exact up to attempt 22; beyond, it is 2^30 at attempt 28 and zero or negative at every other, while the delay meant does not fit an int |
| ReconnectRuns.DelayIsMeantIff | frontend/source/frontend/session_area.cpp:795-797 | for every attempt and every maximum an int holds, the delay is the one meant if and only if the attempt is at most 22 or the maximum does not exceed the overflown shift; for a positive maximum only attempt 28 is left, up to 2^30 |
| ReconnectRuns.DelayOverflows | frontend/source/frontend/session_area.cpp:795-797 | at attempt 23 with the default maximum the delay is -100663296 instead of 16000 |
| SessionAreaTasks.SessionArea.FindSessionIndexByTabId | frontend/source/frontend/session_area.cpp:338-346 | the first session of a tab |
| SessionAreaTasks.SessionArea.OnStateLoaded | frontend/source/frontend/session_area.cpp:599-654 | the settings start the probe of the attempt, or no cycle and no timer of the tab is left; sound cycles stay sound |
| SessionAreaTasks.SessionArea.OnProtoReady | frontend/source/frontend/session_area.cpp:659-739 | the probe becomes the tab's session, at the end of the list, and no cycle, no timer and no cycle in the overlay is left |
| SessionAreaTasks.SessionArea.OnProtoFailed | frontend/source/frontend/session_area.cpp:741-749 | one retry is armed with the delay of the attempts made, or the cycle is gone with all timers of the tab |
| SessionAreaTasks.SessionArea.AbortReconnectCycle | frontend/source/frontend/session_area.cpp:751-767 | no cycle and no timer of the tab is left, and its overlay shows no cycle |
| SessionAreaTasks.SessionArea.ScheduleReconnectRetry | frontend/source/frontend/session_area.cpp:769-853 | unless the attempt was the last, exactly one retry of the tab is armed, with the delay of its attempts; otherwise the cycle is gone and no timer left |
| SessionAreaTasks.SessionArea.OnTimer | frontend/source/frontend/session_area.cpp:811-850 | a retry that fires leaves no timer of the tab and the next attempt waiting for its settings; sound cycles stay sound |
| SessionAreaTasks.SessionArea.FireReconnectRetryNow | frontend/source/frontend/session_area.cpp:855-869 | when the overlay offers it: no timer of the tab is left and the next attempt waits for its settings |
| SessionAreaTasks.SessionArea.CancelReconnectTimers | frontend/source/frontend/session_area.cpp:871-886 | no timer of the tab is left armed, and everything else is as before |
| TabTitles.DisambiguateTitle | frontend/source/frontend/session_area.cpp:381-400 | ends, after at most as many tries as there are tabs, with the first free title of the desired one, (1), (2), … |
| TabTitles.CandidatesDiffer | frontend/source/frontend/session_area.cpp:395-395 | no two tries give the same title |
| TabTitles.TheTitleIsUnique | frontend/source/frontend/session_area.cpp:386-400 | the title chosen is determined by the titles there are |

## Left out

- SQLite: statements, migrations and the read-only check; tables are maps, a folder listing is a sequence in its order, a transaction stores all or nothing, and a commit does not fail.
- Listing, editing and deleting single snippets and folders, and listing the history: single statements.
- Folders of equal position: the listing orders them by name and id; an import creates none, so the order within the listing is taken as given.
- JSON as text, invalid UTF-8, duplicate keys and the order of keys: a document is a tree, an object a map.
- Remote procedure calls, logging, localized messages, rendering, docking, themes and the text of failure reasons.
- SSH and SFTP themselves: a server is a set of answers, a failed or late answer one that carries nothing.
- The checks of local deletes and moves, and what the local operations do to the disk.
- The transfer queue of a session (`backend/source/backend/sftp/operation_queue.cpp`) and `Session::doOperationQueueWork`, which only drives it.
- Completion observers that change the local queue while it reports an end.
- The look of notifications; a clock that goes back.
- The paths library: a remote path is the root or a parent and a name, an unparsable path does not occur.
- Uploads nobody waits for, progress of uploads, discarding partial files, and the batches of deletes: no state of their own or the same shape as the uploads.
- Downloads and renames of file tracking: they only pass a reason on.
- Closing a tab during a cycle: the session is removed by an index after an asynchronous shutdown.
- What the overlay looks like: of its state the cycle, the attempt and the countdown are modelled. The snapshot handed to a new session and the login user of a reconnect.
- EveryDisciplinedRunIsSound: holds for runs in which Reconnect is pressed with no settings of a canceled cycle on their way, because the others break it, as OfferedRunsCountIffDisciplined and PendingSettingsExceedEveryLimit show; and for a limit that does not change within a cycle.
- Transfers of a request length so large that the window overflows 64 bits.
- Opening and closing the files of a transfer, and directories of a benchmark workload.
