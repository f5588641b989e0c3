# Verified model of the chat backend's stored state

A Dafny model of the parts of the backend that keep state: the chat store and its concurrent
writers, the folder tree, usage totals, organization membership, layered settings, invitations,
the model catalog, and the merging of retrieval results. Run `dafny verify dfyconfig.toml` here.

| module | what it is |
|---|---|
| `Basics`, `Forest` | ids, absent values, and tables of parent links: climbing, cycles, relinking |
| `Messages`, `HistoryEdits`, `MessageForest`, `MessageEffects` | the message tree: what each edit yields, the edits step by step, what they keep, and what they do to every key |
| `ChatWrites`, `ChatProtocol`, `ChatRuns` | one locked write; threads, locks and interleavings; results over whole runs |
| `Folders`, `FolderRuns`, `FolderTables` | the folder table and its search; folders and filed chats over whole runs; the tables step by step |
| `Usage` | the event log and the two levels of monthly totals |
| `Retrieval`, `Queries`, `TwoLevels` | keep the best score, sort, cut to k; which rankings are asked; when doing so over lists already cut to k loses nothing |
| `Organizations` | membership and ownership |
| `Settings`, `Invitations`, `Catalog` | layered settings, invitation tokens, the model list of one organization |

Code that changes things step by step is a class or a loop here, proved equal to a function;
the properties are proved about the functions and lifted to runs. A lemma whose name ends in
`Exactly` says what an operation does in terms of the rows before and after alone.

## Main results

- **Concurrency.** `RunsAreAtomic`: threads wait, time out, acquire a shared lock stripe, read,
  run their closure on a copy, commit and release in any order, while rows are inserted and
  deleted without any lock. The rows always equal the sequential application of the stored writes
  in commit order, every call is told the outcome the write would have had alone at its place in
  that order, or of an error, and the order respects real time (`RealTimeOrder`). Which errors
  leave no trace is `ErrorLeavesNoTraceExactly`; whoever holds a lock can finish
  (`HolderCanFinish`). From it follow `RunsConflictExactly`, `RunsSavedText`,
  `RunsStoreOncePerRevision`, `RunsKeepTrees`, `RunsKeepTreesClientsSaw` (turns and patches
  checked against the tree of the revision they expect), `RunsAppendContent`, `RunsStreamReply`
  and `RunsReplayTurn`.
- **Message trees.** `TurnKeepsForest`, `DeleteKeepsForest` and `PatchKeepsForest` give the exact
  conditions under which the tree edits keep a forest; the climb of `currentId` ends on any links.
- **Folders.** The search has no visited set: `DescendantFolders` and `SearchNeverEnds` show that
  it ends exactly when the folder is not below itself, and `ScopedSearchSuffices` that the handlers
  which rely on it keep that true. `ChangesStayTidyExactly` says over whole runs, deleted
  organizations and users included, just when no folder loses its parent and no chat is misfiled.
- **Ranking.** `MergeAndSort` fixes the merge to the last tie (`MergeIsDetermined`);
  `TwoLevelTopK` and `SafeInEveryCompany` say exactly which rankings may be cut first.
- **Conservation, ownership, settings, invitations.** `ReachableRows` and `TotalIsSumOfUsers`; and
  equivalences over every run: `RunKeepsOwners`, `RunAgrees`, `RunStartsExactly`,
  `RunKeepsOneExactly`.

## Where the code does less than one might expect

- A turn whose reply is already stored elsewhere, or that lists children of its own, breaks the
  tree (`TurnKeepsForest`; `StoredReplyBreaksForest`).
- A replayed turn that carries files is stored again and moves the revision (`ReplayedTurn`;
  `FilesAreStoredAgain`).
- The move handler compares no organization for private folders, nor does the filing handler for
  private chats, so deleting an organization can leave a folder without its parent and a chat in a
  missing folder (`DroppedOrganizationCanOrphan`). An imported chat names any folder. The filing
  handler waits between its check and its write, so the check may no longer hold
  (`ChangesStayTidyExactly` has the exact conditions).
- An organization emptied by deleting its last member can be given a plain user and no owner
  (`EmptiedWorkspaceLosesOwner`). The platform, ensured without an owner before it has members,
  gets admins and no owner (`PlatformWithoutOwner`; `BootKeepsSoundExactly`).
- A ranking that spends its first k places on repeats while other documents wait below costs those
  their place, and the two levels then differ (`RepeatCostsAPlace`; `SafeInEveryCompany`). Repeats
  below the first k cost nothing (`RepeatBelowCostsNothing`).
- A write can be stored and its caller told that it failed, when the row is deleted or cannot be
  read back after the commit (`StoredWriteToldLost`).
- Merging with k = 0 raises when anything was found (`MergeAndSort`).
- An import that leaves out a path changes the stored document but not the value in memory; a
  restart then falls back to the default (`RestartKeepsValue`; `ImportThenRestartLosesValue`). An
  import with a number, a boolean or null where a setting expects a level stops updating the later
  settings, and so does a text or a list there that contains the key (`ImportAgreesExactly`;
  `UnreadableImportDisagrees`). The import is stored all the same, and since every setting, pinned
  ones included, reads the document when it is constructed, the next process does not start
  (`RunStartsExactly`; `AcceptedImportStopsStart`).
- `issue` looks up an empty organization id as null and stores it as given, so a second invitation
  would not find the first (`EmptyOrganizationDuplicates`). Neither caller in
  `backend/open_webui/routers/invitations.py` (lines 244 and 275) passes an empty id.

## Assumptions

- Ids minted by the server are fresh, tokens are fresh, and the digests of tokens do not collide.
  The digest of documents is assumed collision-free only in `MergedDocuments`.
- Where a query uses `.first()` without an order, the choice is an arbitrary function, a new one for
  each operation of a run.
- No setting's path leads through the path of another.
- Database constraints on primary keys hold.

## Model

| member | source | states |
|---|---|---|
| `ChatProtocol.RunsAreAtomic` | backend/open_webui/models/chats.py:187-256 | Refinement over every interleaving of any number of threads on any chats sharing lock stripes: rows equal the one-at-a-time application of the logged writes in commit order, each with the outcome it would have alone; each returned call has a log entry of its own, made since the call started, and was told its outcome, or of an error |
| `ChatProtocol.MutualExclusion` | backend/open_webui/models/chats.py:99-106 | Two threads past the lock on chats of one stripe are the same thread, in every reachable state |
| `ChatProtocol.StepKeepsInv` | backend/open_webui/models/chats.py:206-247 | Every step of the protocol keeps the invariant: a loaded row is still the stored row, a prepared row is still what the stored row decides, a decided outcome is the logged one |
| `ChatProtocol.StepKeepsOtherPhase` | backend/open_webui/models/chats.py:196-204 | A step of one thread, an insert or a delete never invalidates what another thread has read |
| `ChatProtocol.StepKeepsTable` | backend/open_webui/models/chats.py:219-241 | Each step keeps the table equal to the replay of the log, including commits of rows deleted meanwhile |
| `ChatProtocol.StepKeepsReturns` | backend/open_webui/models/chats.py:220-256 | No log entry is handed to two calls, and what a call is told is its entry's outcome or an error |
| `ChatProtocol.StepKeepsInTime` | backend/open_webui/models/chats.py:206-247 | Every entry a call answers for was made since that call started |
| `ChatProtocol.RealTimeOrder` | backend/open_webui/models/chats.py:187-256 | When one call has returned before the thread of another starts it, their log entries stand in that order |
| `ChatProtocol.HolderCanFinish` | backend/open_webui/models/chats.py:187-256 | From any point past the lock a thread can finish by itself, and the lock is free then |
| `ChatProtocol.CallAlone` | backend/open_webui/models/chats.py:206-249 | Left alone, a call whose lock is free returns, and stores, what the write decides on the stored row |
| `ChatProtocol.RunKeepsInv` | backend/open_webui/models/chats.py:187-256 | The invariant holds over whole runs |
| `ChatRuns.UnstoredWriteLeavesNoTrace` | backend/open_webui/models/chats.py:222-256 | Striking a timeout, conflict, refusal or failed commit from a run leaves a legal run with the same rows |
| `ChatRuns.ErrorLeavesNoTraceExactly` | backend/open_webui/models/chats.py:243-256 | A call told of an error left the rows as they were exactly when its entry is not a stored write, for every writer that moves the revision; striking such an entry changes nothing |
| `ChatRuns.StoredWriteToldLost` | backend/open_webui/models/chats.py:243-256 | A concrete run whose write is stored and whose caller is told that it failed |
| `ChatRuns.StoreMovesRevision` | backend/open_webui/utils/chat_realtime.py:71-87 | A stored write moves the revision by one when it bumps, and not at all otherwise, tag and title writers included |
| `ChatRuns.RevisionsNeverDecrease` | backend/open_webui/models/chats.py:224-247 | The revision of an existing chat never decreases over a run of locked writers |
| `ChatRuns.OneStorePerRevision` | backend/open_webui/models/chats.py:225-230 | Of the writes to one chat that expect one revision, at most one changes the row |
| `ChatRuns.RunsStoreOncePerRevision` | backend/open_webui/models/chats.py:695-702 | The same for the calls of any concurrent run: two that both stored expected different revisions |
| `ChatWrites.ConflictExactly` | backend/open_webui/models/chats.py:224-230 | A write conflicts exactly when it is a turn or a patch, its caller expects a revision, and that is not the stored one |
| `ChatRuns.RunsConflictExactly` | backend/open_webui/models/chats.py:224-230 | The same for every entry of every interleaving that saw its row |
| `ChatWrites.RevisionCounts` | backend/open_webui/utils/chat_realtime.py:71-78 | A revision that is no number counts as 0 |
| `ChatWrites.WhoMovesRevision` | backend/open_webui/models/chats.py:239-240 | Turns, patches, final saves and column writes move the revision, upserts and overwrites when asked to, pieces, parts and tags never |
| `ChatWrites.RefusedExactly` | backend/open_webui/models/chats.py:231-256 | A write is refused exactly for a missing parent, or when it has something to store and the revision cannot be counted on |
| `ChatWrites.KeptExactly` | backend/open_webui/models/chats.py:231-235 | Otherwise it keeps the row exactly when its closure reports no change |
| `ChatWrites.StoredRow` | backend/open_webui/models/chats.py:236-242 | What is stored: the edited document, its title in the title column, the tags, and the next revision |
| `ChatWrites.EditedDocument` | backend/open_webui/models/chats.py:440-467 | Writers of messages leave title and other fields alone; the writer of fields sets those it names and keeps the rest |
| `ChatWrites.AfterExactly` | backend/open_webui/models/chats.py:219-242 | Each event leaves its own chat inserted, gone or rewritten as decided, and every other row as it was |
| `ChatRuns.RowPresentBefore` | backend/open_webui/models/chats.py:1521-1529 | Ids are never reused, so a chat present at two moments was present in between |
| `ChatRuns.EditKeepsTree` | backend/open_webui/models/chats.py:634-693 | Every history writer that suits the tree it meets keeps it a forest with currentId stored |
| `ChatRuns.LogKeepsTrees` | backend/open_webui/models/chats.py:512-752 | Over any run of fitting writers all trees stay forests with currentId null or stored |
| `ChatRuns.RunsKeepTrees` | backend/open_webui/models/chats.py:187-256 | The same for any interleaving of threads |
| `ChatRuns.SameRevisionSameTree` | backend/open_webui/models/chats.py:224-230 | A chat with one revision at two moments has the same messages and links at both, when the writes between that move no revision leave ids and links alone |
| `ChatRuns.QuietEdit` | backend/open_webui/models/chats.py:541-561 | A write that moves no revision, pieces and streamed parts included, leaves ids and links alone under that condition |
| `ChatRuns.SeenWriteStillFits` | backend/open_webui/models/chats.py:224-230 | A turn or a history patch its client checked against the tree of revision r still fits when it is stored expecting r |
| `ChatRuns.RunsKeepTreesClientsSaw` | backend/open_webui/models/chats.py:187-256 | So turns and patches need only fit the tree their client saw: every tree stays a forest in any interleaving |
| `ChatRuns.EditKeepsCurrent` | backend/open_webui/models/chats.py:530-534 | No history writer leaves currentId on a missing message |
| `ChatRuns.LogKeepsCurrent` | backend/open_webui/models/chats.py:577-581 | Over all history writers, fitting or not, currentId stays null or stored |
| `ChatRuns.EditKeepsContent` | backend/open_webui/models/chats.py:546-558 | A writer that leaves a message's content alone keeps it, and an append extends it at the end |
| `ChatRuns.EventAppendsContent` | backend/open_webui/models/chats.py:541-561 | One event that does not rewrite a message adds its piece at the end of the text |
| `ChatRuns.LogAppendsContent` | backend/open_webui/models/chats.py:541-561 | From any moment at which a message is stored, its text at the end is the text then followed by the pieces appended since, in commit order |
| `ChatRuns.RunsAppendContent` | backend/open_webui/models/chats.py:541-561 | The same in any interleaving, from any moment of the run, threads in flight or not, whatever titles, tags, turns or patches of other messages come between |
| `ChatRuns.RunsStreamReply` | backend/open_webui/models/chats.py:676-687 | A reply created by a turn in the middle of a run reads as it was sent, followed by the pieces appended since, in commit order |
| `ChatRuns.RunsSavedText` | backend/open_webui/models/chats.py:563-584 | A final save, upsert or patch stored with a text, in any interleaving: the message reads that text followed by the pieces appended since |
| `ChatRuns.EditLeavesTurn` | backend/open_webui/models/chats.py:660-693 | A write that displaces neither message of a turn leaves the turn in place |
| `ChatRuns.RunsReplayTurn` | backend/open_webui/models/chats.py:660-693 | A turn sent again without files, in any interleaving, with any writes between that leave it in place, is unchanged or stale, or the database failed |
| `ChatWrites.ChatTable.WriteLockedChat` | backend/open_webui/models/chats.py:220-256 | The step-by-step write has the effect of the atomic write of its entry; it conflicts exactly over another expected revision, touches no other row, stores nothing when the commit fails, and tells an error over an entry that stands when the read-back fails |
| `ChatWrites.ChatTable.RunApply` | backend/open_webui/models/chats.py:231-241 | Running the closure on the private copy yields what the edit functions say |
| `ChatWrites.RowsAreUsed` | backend/open_webui/models/chats.py:302-317 | Every stored row has an id that was inserted once |
| `MessageForest.TurnKeepsForest` | backend/open_webui/models/chats.py:634-693 | append_turn turns a forest into a forest exactly when the turn fits: a condition on ids and child lists the caller can check |
| `MessageForest.UnfittingTurn` | backend/open_webui/models/chats.py:645-681 | Each way a turn may fail to fit breaks the links between parents and children |
| `MessageForest.ClientTurnFits` | e2e/chats.ts:174-190 | The turn the client sends always fits |
| `MessageForest.TurnTouchesOnly` | backend/open_webui/models/chats.py:645-681 | A turn changes no message but its own user message, and one child entry of the parent; a stored reply is never touched |
| `MessageForest.TurnStoresBoth` | backend/open_webui/models/chats.py:645-687 | New messages are stored as sent, roles defaulted, the reply under the user message; a stored user message takes text and files when given and gains the reply; a stored reply keeps all but its children; the reply is current |
| `MessageForest.TurnStoresUser` | backend/open_webui/models/chats.py:645-674 | The user message of a turn, with or without a reply: stored as sent, or given the incoming text, files and reply |
| `MessageForest.TurnStoresReply` | backend/open_webui/models/chats.py:676-688 | The reply of a turn, with or without a user message, stored as sent under it; which messages there are, and which is current |
| `MessageForest.TurnReportsExactly` | backend/open_webui/models/chats.py:640-693 | No change is reported exactly when storing the turn changes nothing and it brings no files; it raises exactly for a missing parent |
| `MessageForest.StoredReplyBreaksForest` | backend/open_webui/models/chats.py:657-681 | A concrete accepted turn that breaks the tree |
| `MessageForest.TurnKeepsCurrent` | backend/open_webui/models/chats.py:686-688 | After a turn currentId is stored and no message was lost |
| `MessageForest.EveryMessageHasRoot` | backend/open_webui/models/chats.py:717-752 | In a forest the chain of parents of every message ends within the number of messages |
| `MessageForest.DeleteKeepsForest` | backend/open_webui/models/chats.py:722-732 | Deleting a set of messages leaves a forest exactly when the set takes every descendant along |
| `MessageForest.PatchKeepsForest` | backend/open_webui/models/chats.py:717-752 | With upserts that leave links alone, a history patch leaves a forest exactly when it deletes whole subtrees |
| `MessageForest.DeleteMovesCurrentToSurvivor` | backend/open_webui/models/chats.py:733-742 | On a forest currentId lands on the nearest surviving ancestor of the deleted current message, or null |
| `MessageForest.PatchKeepsCurrent` | backend/open_webui/models/chats.py:733-742 | On any links, cyclic ones included, a patch leaves currentId null or stored |
| `MessageForest.SameLinksKeepForest` | backend/open_webui/models/chats.py:743-749 | Writes that leave links alone keep the forest |
| `MessageForest.SaveIsMergeThenUpsert` | backend/open_webui/models/chats.py:563-608 | The final save of a reply, stored or not, equals merging its pending parts and then upserting its patch |
| `MessageEffects.UpsertStores` | backend/open_webui/models/chats.py:521-534 | Every key the patch names has its value, every other key the previous one; no other message changes; the message is current |
| `MessageEffects.SaveStores` | backend/open_webui/models/chats.py:570-581 | The same for a final save, over the message with its pending parts in |
| `MessageEffects.PartsAreStored` | backend/open_webui/models/chats.py:598-608 | Streamed parts: files merged, other keys as the parts leave them, nothing else touched, and nothing without the message |
| `MessageEffects.TextIsAppended` | backend/open_webui/models/chats.py:546-558 | A piece goes to the end of a stored message and changes nothing else; no message or no text is no change |
| `MessageEffects.PatchStores` | backend/open_webui/models/chats.py:721-752 | A history patch, message by message and key by key: deleted, patched, patched after deletion, or left but for deleted children |
| `MessageForest.ReplayedTurn` | backend/open_webui/models/chats.py:660-693 | Sending a turn again after any writes to its reply never changes the reply, and reports no change exactly when the turn carries no files |
| `MessageForest.FilesAreStoredAgain` | backend/open_webui/models/chats.py:666-668 | A concrete turn with files that is stored twice |
| `MessageForest.RepliesStayInPlace` | backend/open_webui/models/chats.py:541-612 | Appends, merges and final saves of a reply leave its turn in place |
| `HistoryEdits.HistoryCopy.constructor` | backend/open_webui/models/chats.py:231 | The closure works on a private copy equal to the stored history |
| `HistoryEdits.HistoryCopy.AppendTurn` | backend/open_webui/models/chats.py:634-693 | The in-place edits of a turn give the specified history; a raised or unchanged turn leaves the copy as it was |
| `HistoryEdits.HistoryCopy.StoreNewUser` | backend/open_webui/models/chats.py:645-659 | A new user message gains its reply as a child and is listed by its parent |
| `HistoryEdits.HistoryCopy.EditStoredUser` | backend/open_webui/models/chats.py:660-675 | A stored user message takes text, files and reply, and reports whether anything changed |
| `HistoryEdits.HistoryCopy.ApplyHistoryPatch` | backend/open_webui/models/chats.py:717-752 | Delete, mend child lists, climb, merge upserts: equal to the specified patch |
| `HistoryEdits.HistoryCopy.ClimbPastDeleted` | backend/open_webui/models/chats.py:733-742 | The climb ends on any links and equals its specification |
| `HistoryEdits.HistoryCopy.FilterChildren` | backend/open_webui/models/chats.py:726-732 | Exactly the deleted ids leave the child lists, order kept |
| `HistoryEdits.HistoryCopy.MergeUpserts` | backend/open_webui/models/chats.py:743-749 | Every upsert is merged once, over the stored message or as a new one |
| `HistoryEdits.HistoryCopy.Upsert` | backend/open_webui/models/chats.py:521-534 | Upsert of one message makes it current |
| `HistoryEdits.HistoryCopy.AppendText` | backend/open_webui/models/chats.py:546-558 | Text goes to the end of a stored message, or nothing changes |
| `HistoryEdits.HistoryCopy.SaveFinal` | backend/open_webui/models/chats.py:570-581 | Pending parts first, then the patch |
| `HistoryEdits.HistoryCopy.MergeParts` | backend/open_webui/models/chats.py:598-607 | Streamed parts go to a stored message only |
| `Messages.MergeFilesAppends` | backend/open_webui/utils/message_updates.py:65-73 | Merging files only appends, lists all of both, and repeats none |
| `Messages.MergeFilesTwice` | backend/open_webui/utils/message_updates.py:65-73 | Merging the same batch again adds nothing |
| `MessageEffects.MergeFilesInOrder` | backend/open_webui/utils/message_updates.py:63-73 | Files are merged one after the other, in order |
| `Messages.Without` | backend/open_webui/models/chats.py:726-732 | Filtering a child list removes exactly the deleted ids |
| `Messages.WithoutInOrder` | backend/open_webui/models/chats.py:726-732 | Filtering goes piece by piece, so order and multiplicity of the kept ids stay |
| `Forest.RelinkAcyclic` | backend/open_webui/routers/folders.py:256-262 | Giving a node a new parent keeps the links free of cycles exactly when the parent is neither the node nor below it |
| `Forest.AddLeafAcyclic` | backend/open_webui/models/chats.py:645-681 | A new childless node closes no cycle |
| `Forest.ClimbEnds` | backend/open_webui/models/chats.py:733-742 | In a closed acyclic table no climb takes more steps than there are entries |
| `FolderTables.FolderTable.DescendantFolders` | backend/open_webui/models/folders.py:150-172 | The worklist with no visited set ends and finds exactly the folders strictly below in scope, each once; it needs only that the folder is not below itself |
| `Folders.SearchNeverEnds` | backend/open_webui/models/folders.py:154-171 | On a folder below itself the stack never empties, so that need is exact |
| `FolderTables.FolderTable.QueryChildren` | backend/open_webui/models/folders.py:157-167 | The scoped query returns each child in scope once |
| `Folders.ChildrenAreNew` | backend/open_webui/models/folders.py:154-171 | No child of a popped folder was met before |
| `Folders.DescendantsAreScoped` | backend/open_webui/models/folders.py:150-172 | In a sound table the scoped search misses no descendant |
| `FolderTables.FolderTable.MoveFolder` | backend/open_webui/routers/folders.py:239-285 | A move is accepted exactly under readability, same section, not into itself, free name; it changes one parent link, nothing else, and keeps the table sound |
| `Folders.MoveKeepsSoundExactly` | backend/open_webui/routers/folders.py:242-262 | Within a section the containment test refuses just the moves that close a cycle |
| `Folders.ScopeCheckIsSameScope` | backend/open_webui/routers/folders.py:45-52 | For readable folders the section comparison of the handler decides the scope |
| `FolderTables.FolderTable.CreateFolder` | backend/open_webui/models/folders.py:67-96 | A new folder is a root, shared exactly when asked for in an organization not the own one, and keeps the table sound |
| `Folders.NewFolderSection` | backend/open_webui/models/folders.py:75-77 | Owner, name, organization and section of a new folder |
| `FolderTables.FolderTable.CanReadExactly` | backend/open_webui/routers/folders.py:45-52 | One reads one's own folders, and of other people's just the shared ones of one's organizations |
| `FolderTables.FolderTable.DeleteFolder` | backend/open_webui/models/folders.py:328-353 | Exactly the folder and what lies below it goes; chats elsewhere are left alone; chats in it go when they are the caller's and chats are removed, and otherwise stay, unfiled when chats are not removed; a tidy desk stays tidy when the caller owns the folder or it is shared |
| `Folders.ChatsAfterDeleteExactly` | backend/open_webui/models/folders.py:341-346 | The same of the specified result, chat by chat |
| `FolderTables.FolderTable.SubtreeIds` | backend/open_webui/models/folders.py:338-340 | The collected ids are exactly the folder and everything below it |
| `FolderTables.FolderTable.DeleteChatsIn` | backend/open_webui/models/chats.py:1554-1564 | Exactly the caller's chats in these folders go, and no chat changes |
| `FolderTables.FolderTable.UnfileChatsIn` | backend/open_webui/models/chats.py:1365-1372 | Exactly the chats in these folders lose their folder, and nothing else changes |
| `FolderTables.FolderTable.FileChat` | backend/open_webui/routers/chats.py:965-997 | A chat its user may write is filed exactly in a readable folder that takes it, or unfiled, and a tidy desk stays tidy |
| `FolderRuns.FolderChatError` | backend/open_webui/utils/organizations.py:126-146 | No error exactly for a private folder and its owner's private chat, or a shared folder and a shared chat of its organization |
| `Folders.DeleteKeepsSound` | backend/open_webui/models/folders.py:347-353 | No surviving folder has a deleted parent |
| `Folders.DeleteLeavesChatsFiled` | backend/open_webui/models/folders.py:340-346 | No surviving chat stays filed under a deleted folder, for a private one exactly when all chats there are the caller's; a shared one deletes no chat |
| `FolderTables.FolderTable.DeleteOrganization` | backend/open_webui/models/organizations.py:549-602 | Exactly the folders and chats of the organization go; the table stays a forest, and a tidy desk stays tidy exactly when no folder and no chat of another organization sits in one of its folders |
| `FolderRuns.DeleteOrganizationAnchored` | backend/open_webui/models/organizations.py:597 | Missing parents are left exactly when a folder of another organization sits under one of its own |
| `FolderRuns.DeleteOrganizationPlaced` | backend/open_webui/models/organizations.py:591-597 | Misfiled chats are left exactly when a chat of another organization is filed in one of its folders |
| `FolderRuns.DroppedOrganizationCanOrphan` | backend/open_webui/routers/folders.py:242-255 | A concrete run that ends with a folder under a missing parent and a chat in a missing folder |
| `FolderRuns.DeleteUserAnchored` | backend/open_webui/models/users.py:295-305 | Deleting a user, the personal organization and then the private folders, leaves missing parents exactly when somebody else's folder of another organization sits under one of the personal organization |
| `FolderRuns.DeleteUserPlaced` | backend/open_webui/models/organizations.py:613-656 | The same for filed chats |
| `FolderRuns.DeletePrivatePlaced` | backend/open_webui/models/organizations.py:645-655 | Deleting a user's private folders and chats leaves no chat misfiled |
| `FolderRuns.DeletedUserLosesExactly` | backend/open_webui/models/organizations.py:604-656 | Exactly the folders and chats of the personal organization and the user's private ones go |
| `FolderRuns.ChatChangeTouchesOnly` | backend/open_webui/models/chats.py:1076-1093 | A change to one chat touches no folder and no other chat; sharing a chat unfiles it |
| `FolderRuns.ChangesKeepSound` | backend/open_webui/routers/folders.py:239-285 | Every run of accepted changes keeps the table a forest inside each scope |
| `FolderRuns.DeleteTreeStaysTidy` | backend/open_webui/models/folders.py:328-353 | Deleting a folder one owns, or a shared one, leaves no folder without its parent and no chat misfiled |
| `FolderRuns.ChangeStaysTidyExactly` | backend/open_webui/routers/chats.py:965-997 | Of the accepted changes exactly the clear ones keep every parent stored and every chat in no folder or in one that takes it |
| `FolderRuns.ChangesStayTidyExactly` | backend/open_webui/routers/folders.py:239-345 | The same over every run of folder and chat handlers, deleted organizations and deleted users included |
| `FolderRuns.ScopedSearchSuffices` | backend/open_webui/routers/folders.py:256-262 | In every reachable table the search ends and sees every descendant |
| `Usage.ParsedCounts` | backend/open_webui/models/usage.py:121-141 | Which reported number becomes which count: the first key present of each group decides, null and non-numbers give the default, negatives 0; total defaults to the sum, cached comes from the details |
| `Usage.UsualReport` | backend/open_webui/models/usage.py:121-141 | A report with prompt and completion numbers parses to just those |
| `Usage.DetailsExactly` | backend/open_webui/models/usage.py:133-137 | Which object the details are read from |
| `Usage.RecordRaises` | backend/open_webui/models/usage.py:259-294 | Recording raises the user's month and the organization's total by the event's counts, field by field, and no other row |
| `Usage.ParseIsConsistent` | backend/open_webui/models/usage.py:121-158 | Parsing any report gives uncached <= prompt <= cached + uncached |
| `Usage.RecordKeepsBalance` | backend/open_webui/models/usage.py:259-294 | Recording keeps each row the sum of its events |
| `Usage.DropKeepsBalance` | backend/open_webui/models/usage.py:329-333 | Deleting an organization keeps the books balanced |
| `Usage.TotalIsSumOfUsers` | backend/open_webui/models/usage.py:280-292 | The organization total is the sum of its users' rows |
| `Usage.RunKeepsBalance` | backend/open_webui/models/usage.py:230-333 | Both hold over every run |
| `Usage.ReachableRows` | backend/open_webui/models/usage.py:297-327 | In every reachable state each row equals the sum of its events and is consistent |
| `Usage.GuardIsNeeded` | backend/open_webui/models/usage.py:241-244 | The total stays right exactly when the event has a real user |
| `Usage.UsageTable.RecordEvent` | backend/open_webui/models/usage.py:230-295 | A report with an organization and a user is logged and raises both rows by the parsed counts, field by field; anything else changes nothing; the books stay balanced and the user's month is returned |
| `Usage.UsageTable.BumpMonth` | backend/open_webui/models/usage.py:297-327 | One row is made or increased in every field |
| `Usage.UsageTable.DeleteForOrganization` | backend/open_webui/models/usage.py:329-333 | Exactly the events and rows of the organization go |
| `Retrieval.MergeAndSort` | backend/open_webui/retrieval/utils.py:199-236 | The merge yields the top k of the best score per digest, each entry the first hit with that score, equal scores in first-come order; it raises exactly when k is 0 and something was found |
| `Retrieval.MergeIsDetermined` | backend/open_webui/retrieval/utils.py:203-231 | That contract leaves no choice: two answers meeting it are equal |
| `Retrieval.Combine` | backend/open_webui/retrieval/utils.py:203-222 | Over any list the dictionary keeps its keys in first-come order and for each the first hit with its best score |
| `Retrieval.Note` | backend/open_webui/retrieval/utils.py:208-222 | One more hit keeps that: order by first occurrence, and a strictly better score needed to replace an entry |
| `Retrieval.ZipExactly` | backend/open_webui/retrieval/utils.py:207 | The three lists are read place by place, as far as the shortest goes |
| `Retrieval.EntriesAreHits` | backend/open_webui/retrieval/utils.py:214-222 | Every entry repeats a hit, document, score and metadata, under the digest of its document |
| `Retrieval.First` | backend/open_webui/retrieval/utils.py:213-218 | The first occurrence of a digest: it is there, and nowhere before |
| `Queries.QueryCollection` | backend/open_webui/retrieval/utils.py:250-281 | Every entry of the answer is one of the first k hits that a named collection gave to a query, and every such hit is shown, or k entries are and none scores below it; the answer is the merge of those hits and never raises |
| `Queries.AnswersExactly` | backend/open_webui/retrieval/utils.py:264-279 | The rankings asked for are exactly those some query gets from some named collection |
| `Queries.AnswersInOrder` | backend/open_webui/retrieval/utils.py:257-264 | Asking splits over queries, and over names likewise, so the rankings stand in loop order, each once |
| `Queries.OneAnswer` | backend/open_webui/retrieval/utils.py:264-275 | One name and one query: the ranking, if the name is not empty and the collection answers |
| `Queries.AskCollections` | backend/open_webui/retrieval/utils.py:266-279 | One query over the names gathers those rankings, each cut to k; unnamed and failing collections are skipped |
| `Retrieval.BestOfIsBest` | backend/open_webui/retrieval/utils.py:214-222 | Each digest carries its greatest score |
| `Retrieval.SortStable` | backend/open_webui/retrieval/utils.py:226 | Sorting puts better scores first and keeps the order of equal ones |
| `Retrieval.SortRearranges` | backend/open_webui/retrieval/utils.py:226 | Sorting is a rearrangement |
| `Retrieval.CutIsMerge` | backend/open_webui/retrieval/utils.py:224-231 | Sorting and cutting the dictionary gives that answer |
| `TwoLevels.TwoLevelTopK` | backend/open_webui/retrieval/utils.py:256-281 | Merging rankings that were each cut to their own k gives the scores of the global top k, when each is safe: its first k places show as many documents as a top k can |
| `TwoLevels.QueryIsGlobalTopK` | backend/open_webui/retrieval/utils.py:250-281 | What the query over all collections answers has the scores of the global top k, when every ranking it asks for is safe |
| `TwoLevels.AloneExactly` | backend/open_webui/retrieval/utils.py:256-281 | A ranking on its own gives equally many documents at both levels exactly when it is safe |
| `TwoLevels.SafeInEveryCompany` | backend/open_webui/retrieval/utils.py:256-281 | A ranking is safe exactly when the two levels agree in every company of safe rankings |
| `TwoLevels.DistinctTopIsSafe` | backend/open_webui/retrieval/utils.py:256-281 | Distinct documents in the first k places suffice, whatever repeats below |
| `TwoLevels.CutLosesNothingAbove` | backend/open_webui/retrieval/utils.py:269-273 | The cut of safe rankings hides a document above a score only where k others reach it |
| `Retrieval.MergedDocuments` | backend/open_webui/retrieval/utils.py:207-231 | With a collision-free hash no document repeats, each has its best score, and none left out beats one kept |
| `TwoLevels.RepeatCostsAPlace` | backend/open_webui/retrieval/utils.py:256-281 | A concrete ranking whose repeat in the first k places costs a document its place: one document shown where the top two has two |
| `TwoLevels.RepeatBelowCostsNothing` | backend/open_webui/retrieval/utils.py:256-281 | A concrete ranking whose repeat below them costs nothing |
| `Organizations.AddKeepsOwnedExactly` | backend/open_webui/models/organizations.py:453-484 | Adding a member keeps an organization owned exactly when the newcomer is an owner or somebody is there |
| `Organizations.AddRefusedExactly` | backend/open_webui/models/organizations.py:453-470 | An addition is refused exactly when it would break the rules on who holds which role where |
| `Organizations.RoleRefusedExactly` | backend/open_webui/models/organizations.py:486-513 | Outside personal organizations a role change is refused exactly when it would break a rule or leave members without an owner |
| `Organizations.RemoveRefusedExactly` | backend/open_webui/models/organizations.py:515-532 | A removal is refused exactly in a personal organization or for the only owner |
| `Organizations.SetRoleKeepsSound` | backend/open_webui/models/organizations.py:486-513 | Role changes keep an owner |
| `Organizations.RemoveKeepsSound` | backend/open_webui/models/organizations.py:515-532 | Removals keep an owner |
| `Organizations.RemoveEverywhereKeepsSound` | backend/open_webui/models/organizations.py:658-704 | Removing a user everywhere promotes successors, so every organization has an owner or is empty |
| `Organizations.RemoveEverywhereExactly` | backend/open_webui/models/organizations.py:658-704 | Exactly the user's rows go; the one chosen is promoted where the only owner goes and others are left, and no other role changes |
| `Organizations.DeleteUserExactly` | backend/open_webui/models/users.py:295-305 | The own organization goes with all members, and no row of the user is left |
| `Organizations.InsertKeepsSound` | backend/open_webui/models/organizations.py:235-262 | New organizations start owned or empty |
| `Organizations.DropKeepsSound` | backend/open_webui/models/organizations.py:534-547 | Deleting an organization keeps the others as they were |
| `Organizations.BootKeepsSoundExactly` | backend/open_webui/models/organizations.py:199-233 | ensure_platform keeps owners exactly when an owner is given, no admin is to be adopted, or the platform has members |
| `Organizations.EnsurePlatformExactly` | backend/open_webui/models/organizations.py:199-233 | The platform is there, a given owner and every admin belong to it, and no other row changes |
| `Organizations.EnsurePersonalExactly` | backend/open_webui/models/organizations.py:169-197 | The organization is there with its user, as owner when new, and nothing else changes |
| `Organizations.PlatformWithoutOwner` | backend/open_webui/utils/organizations.py:74-78 | A concrete call without an owner that leaves the platform an admin and no owner |
| `Organizations.CommandKeepsSoundExactly` | backend/open_webui/models/organizations.py:453-704 | Of all operations exactly the welcome ones keep every organization owned or empty |
| `Organizations.RunKeepsOwners` | backend/open_webui/models/organizations.py:453-704 | Over every run, each organization has an owner or no members at every moment exactly when each operation is welcome: nobody but an owner joins an organization without members |
| `Organizations.RunKeepsRoles` | backend/open_webui/models/organizations.py:235-704 | Over every run personal organizations hold only their user as owner and the platform no plain user |
| `Organizations.EmptiedWorkspaceLosesOwner` | backend/open_webui/models/organizations.py:453-532 | A concrete run that leaves members without an owner |
| `Organizations.OrganizationTable.AddMember` | backend/open_webui/models/organizations.py:453-484 | The checks in order, then one row added or none |
| `Organizations.OrganizationTable.UpdateMemberRole` | backend/open_webui/models/organizations.py:486-513 | The checks in order, then one role changed or none |
| `Organizations.OrganizationTable.RemoveMember` | backend/open_webui/models/organizations.py:515-532 | The checks in order, then one row removed or none |
| `Organizations.OrganizationTable.VisitMembership` | backend/open_webui/models/organizations.py:663-694 | One membership: promote somebody if the last owner goes |
| `Organizations.OrganizationTable.RemoveUserFromAll` | backend/open_webui/models/organizations.py:658-704 | The loop over memberships equals promoting every needed successor at once |
| `Organizations.OrganizationTable.DeleteUserById` | backend/open_webui/models/users.py:295-305 | The personal organization goes first, then every other membership |
| `Organizations.OrganizationTable.InsertNewOrganization` | backend/open_webui/models/organizations.py:235-262 | The new workspace has its creator as sole member and owner, no other organization changes, and owners and roles stay sound |
| `Organizations.OrganizationTable.EnsureOwnOrganization` | backend/open_webui/models/organizations.py:169-197 | The personal organization exists and holds its user |
| `Organizations.OrganizationTable.EnsurePlatformOrganization` | backend/open_webui/models/organizations.py:199-233 | The platform exists, with its owner if one is given |
| `Organizations.OrganizationTable.AdoptLegacyAdmins` | backend/open_webui/models/organizations.py:729-744 | Each global admin joins the platform |
| `Organizations.OrganizationTable.DeleteOrganizationById` | backend/open_webui/models/organizations.py:534-547 | Only workspaces are deleted |
| `Settings.GetAfterPut` | backend/open_webui/config.py:239-249 | A saved value is read back at its path |
| `Settings.GetBelow` | backend/open_webui/config.py:146-154 | Reading goes key by key, so a longer path is read below the value a shorter one finds |
| `Settings.GetOneKey` | backend/open_webui/config.py:149-153 | One key in a dictionary, a text, a list, or anything else: found, absent or raising |
| `Settings.PutRefusedExactly` | backend/open_webui/config.py:239-249 | A save is refused exactly when some level on the way holds a value that is no dictionary |
| `Settings.PutLeavesOthers` | backend/open_webui/config.py:239-249 | A save never disturbs a path apart from its own |
| `Settings.RunValue` | backend/open_webui/config.py:228-281 | After any run each setting holds the later of its last write and the last import that gave it a value; a pinned one never changes |
| `Settings.ImportAgreesExactly` | backend/open_webui/config.py:160-173 | Whatever was there before, an import brings memory and database together exactly when each setting it does not reach finds no value in it or its own |
| `Settings.WriteAgreesAt` | backend/open_webui/config.py:239-249 | A write brings its own setting into agreement and changes nothing for the others |
| `Settings.RunAgrees` | backend/open_webui/config.py:160-173 | Over any run memory and database agree at every moment exactly when no import leaves a setting behind |
| `Settings.EndAgreesExactly` | backend/open_webui/config.py:160-173 | At the end of any run each setting agrees exactly when the last import reached it, or found nothing else for it, or it was written since |
| `Settings.RunStartsExactly` | backend/open_webui/config.py:193-212 | After any run a new process starts exactly when every setting, pinned or not, can read the last import, or the first document when there was none |
| `Settings.RestartKeepsValue` | backend/open_webui/config.py:193-212 | After any run a restart brings a value back exactly when a new process starts and the document holds a value at its path or the value is the default |
| `Settings.FirstValueExactly` | backend/open_webui/config.py:196-208 | The environment wins, then a stored non-null value under persistence, then the default |
| `Settings.RestartWithoutStore` | backend/open_webui/config.py:193-212 | After any run a pinned setting, and without persistence every setting, restarts with its environment value or default |
| `Settings.AcceptedImportStopsStart` | backend/open_webui/routers/configs.py:25-28 | A concrete import that updates every setting it should, and after which no new process starts |
| `Settings.ImportThenRestartLosesValue` | backend/open_webui/config.py:227-237 | A concrete written value that an import and a restart lose |
| `Settings.WrittenValueSurvives` | backend/open_webui/config.py:239-249 | A value written into a document every setting can read survives a restart whatever else was written since |
| `Settings.UpdateAllAt` | backend/open_webui/config.py:168-170 | An import updates the settings before the first unreadable one and no other |
| `Settings.UnreadableImportDisagrees` | backend/open_webui/config.py:160-173 | A concrete import that leaves memory and database in disagreement |
| `Settings.ConfigModule.Register` | backend/open_webui/config.py:193-210 | Environment first, then the stored value, then the default |
| `Settings.ConfigModule.Restart` | backend/open_webui/config.py:193-212 | A new process raises exactly when some setting cannot read the document, and otherwise holds the specified settings |
| `Settings.ConfigModule.Read` | backend/open_webui/config.py:146-154 | The walk down the document finds, misses or raises as specified |
| `Settings.ConfigModule.SetAttribute` | backend/open_webui/config.py:266-277 | A pinned setting ignores the write; an unpinned one is set, and read back at its path unless the path is blocked; paths apart keep their values |
| `Settings.ConfigModule.Save` | backend/open_webui/config.py:239-249 | The walk down the levels, making missing ones, stores the value at its path, or stops at a value without keys and changes nothing |
| `Settings.ConfigModule.SaveConfig` | backend/open_webui/config.py:160-173 | The document is replaced, settings updated in order, false exactly when one is unreadable |
| `Invitations.IssueKeepsOneExactly` | backend/open_webui/models/invitations.py:86-120 | Issuing keeps one outstanding invitation per purpose exactly unless an empty organization id was invited before |
| `Invitations.EmptyOrganizationDuplicates` | backend/open_webui/models/invitations.py:92-115 | Two invitations under an empty organization id are both outstanding |
| `Invitations.IssueKeepsTokens` | backend/open_webui/models/invitations.py:81-120 | Every row stores the hash of the last token handed out for it |
| `Invitations.OnlyLastTokenOpens` | backend/open_webui/models/invitations.py:142-148 | A token opens an invitation exactly when it is its last and the invitation exists |
| `Invitations.UnknownTokenOpensNothing` | backend/open_webui/models/invitations.py:142-148 | A token never handed out opens nothing |
| `Invitations.ResendKeepsId` | backend/open_webui/models/invitations.py:150-163 | Resending keeps the id exactly when the organization id is not empty |
| `Invitations.CommandKeepsOneExactly` | backend/open_webui/models/invitations.py:69-183 | A command keeps one outstanding invitation per purpose exactly when it finds what it issues |
| `Invitations.RunKeepsOneExactly` | backend/open_webui/models/invitations.py:69-183 | Over any run there is one at most, at every moment, exactly when each command finds what it issues |
| `Invitations.NonEmptyIdsAreFound` | backend/open_webui/models/invitations.py:86-97 | Without empty organization ids every command does |
| `Invitations.RunTokens` | backend/open_webui/models/invitations.py:69-183 | After any run a token opens an invitation exactly when it is the last handed out for it and the invitation exists, with the uniqueness results |
| `Invitations.IssueExactly` | backend/open_webui/models/invitations.py:81-120 | One row is written with the given role, limit, sender and token: one found standing for the purpose, which keeps the rest, or a new one |
| `Invitations.ResendExactly` | backend/open_webui/models/invitations.py:150-163 | There is something to resend exactly when the invitation is outstanding; it is issued again with the row's own terms |
| `Invitations.InvitationTable.IssueInvitation` | backend/open_webui/models/invitations.py:70-120 | The row handed out stands outstanding with the given terms, and no other row changes |
| `Invitations.InvitationTable.ResendInvitation` | backend/open_webui/models/invitations.py:150-163 | Refused unless outstanding, otherwise issued again with the same terms |
| `Invitations.InvitationTable.CancelInvitation` | backend/open_webui/models/invitations.py:165-172 | Exactly an outstanding invitation goes, and no other row changes |
| `Invitations.InvitationTable.MarkAccepted` | backend/open_webui/models/invitations.py:174-183 | A stored invitation is accepted and no longer outstanding, the same in every other respect, and no other row changes |
| `Catalog.ListedExactly` | backend/open_webui/models/models.py:220-256 | A row is listed exactly when its model has a base and is the organization's own, or public and active, or public and asked for by the platform |
| `Catalog.UsableExactly` | backend/open_webui/models/models.py:226-262 | It is usable exactly when also active, and a public one switched on by override or by default |
| `Catalog.FlagExactly` | backend/open_webui/models/models.py:264-273 | The flag of a public model is its override, or its default without one; others are on |
| `Catalog.CatalogExactly` | backend/open_webui/models/models.py:207-287 | Over keyed tables, which models the full list holds, each with its stored owner and the flag of its override |
| `Catalog.SelectedIsUsable` | backend/open_webui/models/models.py:220-262 | Under three-valued logic the extra filters keep just the active rows whose flag is true |
| `Catalog.EnabledListIsFilteredList` | backend/open_webui/models/models.py:260-287 | The enabled list is the full list cut down to usable rows |
| `Catalog.JoinKeepsEachOnce` | backend/open_webui/models/models.py:246-256 | Through both outer joins every model comes out once, in order, with its owner and override exactly when they are stored |
| `Catalog.CatalogAgrees` | backend/open_webui/models/models.py:207-287 | For all keyed tables both hold, and neither list names a model twice |
| `Catalog.ListForOrganization` | backend/open_webui/models/models.py:243-287 | The annotated list equals its specification |

## Left out

- ChatProtocol.RunsAreAtomic: covers the columns `chat`, `title` and `meta`; `pinned`, `archived`, `folder_id` and `visibility` appear only as writes that bump the revision, and the unlocked update of a shared snapshot row is not modelled.
- ChatRuns.RunsKeepTrees: asks that each stored write suits the tree it meets, or, in `RunsKeepTreesClientsSaw`, the tree its client saw; upserts and final saves that change links are admitted only when they repeat the stored links, and whole-document overwrites when they bring a sound tree.
- FolderTables.FolderTable.FileChat: check and write are one step here; the wait between them in the handler is covered by `FolderRuns.ChangesStayTidyExactly`, where filing is accepted whatever was checked. The answer of `require_chat_write` is given.
- FolderTables.FolderTable.MoveFolder: the sibling-name query is a given answer, because it matches names by SQL pattern.
- Settings.ConfigModule.Save: nested dictionaries are values, so the levels are put back from below, and a setting's value and the stored document do not share an object; a failing database write is not modelled.
- Usage.UsageTable.RecordEvent: transactions are serialized, because `_bump_month` takes no lock; the cost is a real number given with the report, so rounding and the fallback cost keys are not captured.
- Queries.QueryCollection: the vector database is a function from query and collection to a complete ranking, of which it returns the first k.
- Message dictionaries: a stored message that is not a dictionary, and a history stored as null, are not modelled; an empty message id reads as no id; files stand for their merge keys.
- Waiting: lock timeouts are possible at any moment of a wait, with no clock; timestamps and expiry of invitations are not modelled.
- Readers, sockets, HTTP handlers, forms, logging and migrations: no state of their own.
- Redis in the settings, and the file-based import at start-up: foreign calls.
- `merge_get_results`, embedding batches and the reranking filter: concatenation and filtering only.
- `tasks.py`: two dictionaries of running tasks; it would only add easy members.
- Organization resources other than folders, chats and members: deleted row by row.
