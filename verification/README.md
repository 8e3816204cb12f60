# Agent edits under review, and the protocols around them

When an agent edits files in the editor, its edits stay under review until the user keeps or rejects them. Meanwhile the
user goes on editing, hunks are committed, and buffers are created and deleted. The action log keeps three things for each
buffer: a base text (what has been accepted), the last snapshot it has processed, and a patch of rows that takes the one to
the other. This project models that engine, and proves that every step and every run keeps the three consistent, that user
edits are carried back into the base as they should be, and that keeping, rejecting and undoing do what they say. It then
does the same for six protocols and transformations around it: the batches in which an edit agent applies a streamed diff,
the permission requests and the gradually revealed text of an agent's thread, the sessions of the native agent, the store of
agent connections, the ranges a pending diff shows, and the URLs of mentions.

How the model reads the code:

* A text is a sequence of characters, cut into rows that carry their newline; the last row has none. `RowStart` past the last
  row is the end of the text, which is what clamping to the last point of a rope amounts to.
* A patch is a list of edits, each with a range before and after. `Takes(p, a, b)` is an inductive definition of "the patch
  takes `a` to `b`"; `Apply` replaces all ranges at once. Code that replaces ranges one by one, in place, with running
  deltas, is a method with loops over a `Rope`, and is proved equal to `Apply`.
* The character edits between two snapshots, the hunks of a diff, the committed hunks and the operations of a streaming diff
  come from libraries. They are parameters with the contract that they are in order, apart, and take the one text to the
  other, and that the diff of equal texts is empty. Nothing else is taken for granted: that the rebased patch exists is proved.
* A buffer keeps deleted characters. `Documents` models that: a document is a sequence of cells, each with the version that
  inserted it and the one that deleted it, and every version shows the cells alive in it. Anchors are attached to characters,
  deleted ones included, and so are gaps between cells. New text goes behind the deleted characters at its place; at the
  second and later edits of a transaction the buffer may put it in front of them, which depends on how it has stored them, so
  any choice (`front`) is allowed. Where the characters an anchor belongs to are shown, anchors move as positions do
  (`Anchors.AnchorsFollowPositions`, `Anchors.AnchorsStay`).
* An asynchronous function is cut at its awaits; each part is one step, and any other steps may come between.
* What an object does is written twice: as functions on values, about which properties are proved for all inputs and all
  runs, and as a class whose methods change their fields in place and are proved to do what the functions say.

What the proofs found:

* `diff_snapshots` relies on unchanged text between character edits. The text buffer always leaves some, since it joins
  changes that touch (`crates/text/src/text.rs`); where edits touch, the merged row edits can be ones that take the old rows
  nowhere (`RowEdits.TouchingEditsMergeBadly`).
* A row edit can take a row of which nothing changes. If the newline between two rows is replaced by a newline, a row and
  another newline, the row behind is taken, too (`RowEdits.UntouchedRowTaken`). `RowEdits.TakenRowsAreTouched` says exactly for
  which edits and which row that happens.
* Undoing a reject need not restore the text. If the user has deleted the text behind a hunk since the snapshot, the hunk's
  rows come back behind the deleted characters that the end of the hunk is attached to, and undoing leaves them there
  (`ActionLogCases.UndoDoesNotRestore`, a run). Undo restores the text exactly if every text that the reject puts in goes
  between the anchors of a hunk it reverts (`ActionLogRuns.UndoRestores`), as it does where the characters around the hunks
  are still shown (`ActionLogRuns.RestoresWhereShown`).
* Keeping hunks while an update of the same buffer is being processed has no effect on what the update installs: the base it
  computed before (`ActionLogRuns.KeepIsLostInFlight`). A run in which everything is kept, and under review again after the
  last update, is `ActionLogCases.KeepLost`. With no update in flight, what is kept lasts through the next one
  (`ActionLogRuns.KeepLasts`); with one that leaves the base alone, it lasts exactly if folding the kept hunks in leaves the
  rows of the base as they are (`ActionLogRuns.KeepLastsExactly`, `ActionLogRuns.KeepAllLastsExactly`). That each kept hunk
  puts in the rows it takes out is sufficient, but hunks that change the number of rows can also make up for each other
  (`ActionLogCases.HunksMakeUp`).
* Authorizing a tool call that waits for nothing still overwrites its status, in builds without debug assertions
  (`Permissions.AuthorizeOverwrites`).
* The end of an older turn never stops a newer one, but it can cancel the newer turn's permission requests: all of them if the
  older turn was cancelled, and those from the last user message on if the agent refused it and no tool call behind that
  message has completed, since the entries are then removed, whichever turn they belong to. `Permissions.StaleEnd` says
  exactly which requests end; `Permissions.StaleEndCancels` is a run for either case.
* A session whose replay fails stays loaded although no client has it (`Sessions.OnlyFailedReplaysLeak`).
* The guard of the connection callbacks lets an attempt pass whose entry is gone altogether, since both sides of the
  comparison are then empty; it is shown that this changes nothing (`Connections.StaleAttemptsChangeNothing`). An entry that
  is taken out of the map while connecting stays connecting for good (`Connections.RemovedForGood`).
* A deletion of nothing in a streamed diff would make its anchors cross, once text has been inserted before it
  (`EditAgents.EmptyDeletionsSwap`); the buffer swaps crossed ends, and so would delete that text.

## Model

| member | source | states |
|---|---|---|
| LineText.RowsFlat | crates/action_log/src/action_log.rs:1187-1204 | Joining rows of which only the last lacks a newline and cutting the text into rows again gives the rows back. |
| LineText.FlatRows | crates/action_log/src/action_log.rs:1187-1204 | Joining the rows of a text gives the text, so a patch of rows says all about it. |
| LineText.ReplaceIsSplice | crates/action_log/src/action_log.rs:1187-1204 | Replacing the characters between two row points, the second one clamped to the end of the text, replaces exactly those rows. |
| LineText.Rope.ReplaceRows | crates/action_log/src/action_log.rs:1187-1204 | One replacement in a rope splices the rows of the source in, also at the last row, if what results is line text. |
| Patches.TakesApplies | crates/action_log/src/action_log.rs:2517-2540 | A patch that takes one text to another fits the first, and applying it gives the second. |
| Patches.InvertTakes | crates/action_log/src/action_log.rs:815-883 | A patch turned round takes the second text back to the first. |
| Patches.Accept | crates/action_log/src/action_log.rs:657-693 | Folding any selection of hunks into the base leaves hunks that take the new base to the same text, shifted by what was folded in before them. |
| Patches.RejectFrom | crates/action_log/src/action_log.rs:814-875 | Reverting any selection of hunks in the text gives the base with exactly the other hunks applied. |
| RowEdits.RowEditTakes | crates/action_log/src/action_log.rs:1235-1258 | In all three branches the row edit of a character edit takes the old rows to the new rows. |
| RowEdits.RowEditNotEmpty | crates/action_log/src/action_log.rs:1235-1258 | A character edit that changes something never becomes an empty row edit. |
| RowEdits.RowEditRows | crates/action_log/src/action_log.rs:1236-1258 | Which rows a character edit takes, told by the two texts: if it starts before a newline in both, those after the row of its start; if it starts and ends at row starts on both sides, the rows between; else every row from its start to its end. |
| RowEdits.TakenRowsAreTouched | crates/action_log/src/action_log.rs:1235-1258 | Of the rows an edit takes, it takes out a character of each, newlines included, or adds one to it, except exactly for the row it ends before if it overreaches: if it takes out and puts in text up to row starts, but does not itself start at one, or starts at the newline of an empty row that stays. |
| RowEdits.UntouchedRowTaken | crates/action_log/src/action_log.rs:1244-1258 | The input: replacing the newline between two rows by a newline, a row and a newline takes the second row, although nothing of it changes. |
| RowEdits.RowPatchTakes | crates/action_log/src/action_log.rs:1211-1258 | Widening and merging any list of character edits that do not touch gives row edits that are strictly separated on both sides, start inside the new text, and take the old rows to the new ones. |
| RowEdits.TouchingEditsMergeBadly | crates/action_log/src/action_log.rs:1211-1233 | Two touching character edits take a text to another, but merge into a row edit that ends before it starts. |
| RowEdits.RowsTaken | crates/action_log/src/action_log.rs:1211-1258 | Merging takes no further row: the merged row edits take exactly the rows that the single ones take. |
| RowEdits.OnlyTouchedRowsAreTaken | crates/action_log/src/action_log.rs:1211-1258 | Merging included, a row is only taken if some edit takes out a character of it or adds one to it, or overreaches and ends before it. |
| RowEdits.DiffSnapshots | crates/action_log/src/action_log.rs:1211-1233 | The merging loop computes those row edits, so it takes the old rows to the new ones, and takes exactly the old rows that one of the character edits takes. |
| RowEdits.MergeTouching | crates/action_log/src/action_log.rs:1219-1232 | The nested loops merge every run of edits that touch on the old side. |
| RowEdits.PushCoalesces | crates/action_log/src/action_log.rs:486-515 | Pushing an edit onto a patch is the same merge, one edit at a time. |
| RowEdits.UnreviewedEdits | crates/action_log/src/action_log.rs:486-515 | The hunks of a diff become a separated row patch from the new base to the new snapshot, which takes exactly the rows that one of them takes. |
| RowPatches.TakesEndsAlike | crates/action_log/src/action_log.rs:1187-1198 | Since only the last row lacks a newline, every hunk reaches the end of both texts or of neither. |
| RowPatches.ReplaceEdit | crates/action_log/src/action_log.rs:1187-1204 | Replacing a hunk's rows where they lie after the replacements before it keeps the text line text and moves the hunk from what is to be done to what is done. |
| Rebase.TransportFits | crates/action_log/src/action_log.rs:1185-1199 | The edits that conflict with no hunk, moved to the coordinates of the base, are in order and inside it. |
| Rebase.ConflictRule | crates/action_log/src/action_log.rs:1162-1170 | A user edit conflicts with a hunk that has rows exactly if it starts before the hunk ends and ends behind its start, and with one that has none exactly if it touches the place of the hunk. |
| Rebase.MeetingIsSharing | crates/action_log/src/action_log.rs:1162-1170 | In other words, an edit conflicts with a hunk that has rows exactly if it takes one of those rows or puts rows in between two of them. |
| Rebase.TransportedInRows | crates/action_log/src/action_log.rs:1161-1199 | The edits applied to the base are exactly those that conflict with no hunk by that rule, each moved by the growth of the hunks that end at its start or before. |
| Rebase.PushOldEdits | crates/action_log/src/action_log.rs:1161-1183 | The inner loop ends, reports a conflict exactly if the edit it stops at shares rows with some hunk or touches one without rows, passes over such edits only, and has the growth of exactly the hunks before that edit in its running delta. |
| Rebase.MergeOne | crates/action_log/src/action_log.rs:1185-1206 | Applying one free edit at the position shifted by both deltas keeps the loop's relation between base, edits done and edits to do. |
| Rebase.ApplyNonConflictingEdits | crates/action_log/src/action_log.rs:1145-1209 | The two-pointer merge with its running deltas applies to the base, in place, exactly the edits that by the conflict rule in rows meet no hunk, as if all at once, and reports whether there were any. |
| Transport.TransportTheorem | crates/action_log/src/action_log.rs:331-348 | If hunks take base to snapshot and edits take snapshot to text, then a patch takes the base that the merge leaves to the text; its hunks come from all the old hunks and exactly the conflicting edits, each being an old hunk with its rows, or hunks and edits linked by conflicts and widened no further. |
| Transport.NoConflictsKeepHunks | crates/action_log/src/action_log.rs:331-348 | If nothing conflicts, every hunk keeps exactly its old rows and its new rows. |
| Transport.NothingUnderReview | crates/action_log/src/action_log.rs:331-348 | With no hunks under review the base becomes the user's text. |
| Review.AcceptRows | crates/action_log/src/action_log.rs:657-693 | Accepting any hunks leaves a separated patch from the new base to the same snapshot; the base grows by the growth of the hunks accepted. |
| Review.KeepInRange | crates/action_log/src/action_log.rs:657-693 | Accepting a row range in place folds in exactly the hunks it touches, the rest still takes the new base to the snapshot, and the base grows by the lines reported as added less those reported as removed. |
| Review.FoldHunk | crates/action_log/src/action_log.rs:667-691 | Folding in one hunk where its rows lie by now keeps the relation between the base, the hunks done and the hunks to do. |
| Review.KeepCommitted | crates/action_log/src/action_log.rs:389-440 | The merge with the committed edits folds a hunk into the base exactly if some committed edit has the same base rows and the same new rows, and the rest still takes the new base to the snapshot. |
| Buffers.CoalescedInOrder | crates/language/src/buffer.rs:2676-2709 | Merging touching buffer edits leaves edits that are apart and make the same text. |
| Documents.RewrittenText | crates/text/src/text.rs:890-1045 | Wherever the buffer puts new text among deleted characters, the new version of the document shows what the edits make of the old text. |
| Documents.OlderVersionsStay | crates/text/src/text.rs:890-1045 | A transaction changes what no older version shows, so a snapshot goes on being that of its version. |
| Documents.AnchorsAscend | crates/action_log/src/action_log.rs:815-832 | Anchors of positions in order are in order, and between different positions strictly so, whatever their sides. |
| Anchors.CarryKeepsApart | crates/action_log/src/action_log.rs:974-1003 | The anchors that a reject remembers stay apart and in order, whatever is edited meanwhile. |
| Anchors.AnchorsFollowPositions | crates/text/src/text.rs:2452-2486 | The anchor before or after the character at a position resolves, after any edits, to where those edits carry the position. |
| Anchors.AnchorsStay | crates/text/src/text.rs:2564-2607 | An anchor whose character the edits do not replace is, after them, again the anchor made at the position it resolves to. |
| Anchors.PuttingBackExact | crates/action_log/src/action_log.rs:866-883 | For any transaction that deletes only between the anchors of remembered texts: putting those texts back at the anchors, wherever they are by then, restores the text exactly if every text the transaction put in went between the anchors of one of them. |
| Rejection.SelectionExact | crates/action_log/src/action_log.rs:834-846 | With ranges sorted by their start, the single pass over them finds a hunk exactly if some range touches it. |
| Rejection.RevertsInOrder | crates/action_log/src/action_log.rs:815-875 | Whatever has been edited since the snapshot, the reverting edits are in order in the buffer. |
| Rejection.RevertHunks | crates/action_log/src/action_log.rs:804-875 | The loop over hunks and ranges computes the edits that put back the base rows of exactly the hunks found, and remembers for each what is between its anchors now. |
| Rejection.RevertsGoInside | crates/action_log/src/action_log.rs:866-875 | Whatever has been edited since the snapshot, and however reverts that touch are merged, reverting deletes only between the anchors of the hunks reverted. |
| Rejection.RejectExact | crates/action_log/src/action_log.rs:804-883 | Where the buffer shows the characters of the snapshot and the ranges are sorted, rejecting turns it into the base with exactly the hunks applied that no range touches. |
| Rejection.RejectAllRestoresBase | crates/action_log/src/action_log.rs:923-961 | Reverting every hunk gives back the base text. |
| ActionLogRuns.StepKeepsInv | crates/action_log/src/action_log.rs:205-529 | Every step keeps the patch taking base to snapshot, each snapshot the text of its version, the last version to be processed the one the buffer is at, and the anchors remembered for undo apart and inside the document. |
| ActionLogRuns.RunKeepsInv | crates/action_log/src/action_log.rs:2451-2513 | Every run does. |
| ActionLogRuns.Reconstruction | crates/action_log/src/action_log.rs:2515-2541 | Over every run from an untracked buffer the unreviewed edits applied to the base give the snapshot, and once all updates have been processed the snapshot is the buffer. |
| ActionLogRuns.Quiesce | crates/action_log/src/action_log.rs:2517-2540 | The loop of the repository's randomised test, which replaces hunk by hunk at the row where it starts in the buffer, ends with the buffer's text in every drained state. |
| ActionLogRuns.AcceptKeepsReviewed | crates/action_log/src/action_log.rs:639-704 | Accepting any selection of hunks leaves a patch that takes the new base to the snapshot. |
| ActionLogRuns.UndoRestores | crates/action_log/src/action_log.rs:710-1018 | After rejecting and any steps that do not edit the buffer, undoing restores the text of a created buffer that had content, and that of a modified buffer exactly if what the reject put in went between the anchors of hunks it reverted. |
| ActionLogRuns.UndoRestoresAll | crates/action_log/src/action_log.rs:923-1018 | The same for rejecting everything. |
| ActionLogRuns.RejectThenUndo | crates/action_log/src/action_log.rs:728-893 | The same for a single state, with both kinds of remembered texts. |
| ActionLogRuns.RestoresWhereShown | crates/action_log/src/action_log.rs:815-883 | What a reject puts in goes between the anchors of hunks it reverts, and so undo restores the text, if the characters around those hunks are still shown. |
| ActionLogRuns.RestoresUnlessDeleted | crates/action_log/src/action_log.rs:815-883 | In particular if nothing of the snapshot has been deleted since. |
| ActionLogCases.UndoDoesNotRestore | crates/action_log/src/action_log.rs:820-825 | A run from an untracked buffer: the agent deletes a row, the user the text behind it, and after rejecting the deletion and undoing that the row is still there. |
| ActionLogRuns.RejectAllGivesBase | crates/action_log/src/action_log.rs:923-961 | Where the buffer shows the characters of the snapshot, rejecting everything gives the base. |
| ActionLogRuns.RejectingUndoesTheAgent | crates/action_log/src/action_log.rs:582-605 | Nothing the agent does is accepted by itself: after any number of agent edits, processed in any interleaving, rejecting all gives back the text the buffer was first read with. |
| ActionLogRuns.RejectRestoresContent | crates/action_log/src/action_log.rs:724-806 | Rejecting a created buffer restores its former content, rejecting a deleted one its base text, with nothing left under review. |
| ActionLogRuns.RejectingUndoesCreation | crates/action_log/src/action_log.rs:114-203 | A file the agent overwrites, tracked before or not, has the text accepted so far back when that is rejected, whatever the agent and the user did after creating it. |
| ActionLogRuns.RejectingUndoesDeletion | crates/action_log/src/action_log.rs:607-637 | Deleting empties a buffer, and rejecting that gives back the text accepted so far. |
| ActionLogRuns.KeptHunksAreNotRejected | crates/action_log/src/action_log.rs:639-704 | After keeping some rows, rejecting everything leaves the base with exactly the kept hunks applied. |
| ActionLogRuns.NothingToRejectAfterKeepingAll | crates/action_log/src/action_log.rs:895-921 | After keeping everything rejecting changes nothing, whatever has been edited since the snapshot, in created buffers either. |
| ActionLogRuns.UserUpdateCarriesHunks | crates/action_log/src/action_log.rs:318-364 | The base that a user update installs is the one of the transport theorem for the hunks under review. |
| ActionLogRuns.EditsBesideHunksAreAccepted | crates/action_log/src/action_log.rs:318-364 | A user update that takes out no row of a hunk, puts none in between its rows, and touches no hunk without rows, is applied to the base whole, moved by the growth of the hunks before each edit, and every hunk keeps its old rows and its new rows. |
| ActionLogRuns.UserEditsAreAccepted | crates/action_log/src/action_log.rs:318-364 | With nothing under review, user edits are accepted as they are. |
| ActionLogRuns.UnchangedTextKeepsBase | crates/action_log/src/action_log.rs:607-627 | The second update of a deletion, which counts as the user's, leaves the base alone. |
| ActionLogRuns.KeepLasts | crates/action_log/src/action_log.rs:639-704 | With no update in flight, what is kept is still the base after the next update, if that is the agent's or the one that keeping schedules. |
| ActionLogRuns.KeepIsLostInFlight | crates/action_log/src/action_log.rs:455-529 | However much is kept and edited, over any run of such steps, while an update is in flight: finishing it gives the base, snapshot and hunks that finishing it at once would have given. |
| ActionLogRuns.KeepLastsExactly | crates/action_log/src/action_log.rs:639-704 | If the update in flight leaves the base alone, keeping lasts exactly if folding in the hunks touched gives the rows of the base; it does if each puts in the rows it takes out, and only then if all of them but the last keep the number of rows. |
| ActionLogRuns.KeepAllLastsExactly | crates/action_log/src/action_log.rs:895-921 | ... and keeping everything lasts exactly if the snapshot does not differ from the base. |
| ActionLogCases.HunksMakeUp | crates/action_log/src/action_log.rs:639-704 | Two hunks of a patch, neither of which puts in the rows it takes out, leave the base as it is when both are folded in. |
| ActionLogCases.KeepLost | crates/action_log/src/action_log.rs:895-921 | A run from an untracked buffer: two agent edits, everything kept while the update for the second is in flight, and once all updates have been processed the base is the text there was before both. |
| ActionLogStatus.StatusDiagram | crates/action_log/src/action_log.rs:114-1018 | Where every step leads from each of the states untracked, created, modified and deleted: when tracking starts and stops, and which content a created buffer is remembered to have had. |
| ActionLogStatus.KeepingAllHunksIsFinal | crates/action_log/src/action_log.rs:657-702 | If the rows kept touch every hunk, the buffer is a modified one afterwards, also if the agent created it, and rejecting any ranges then changes nothing and remembers nothing. |
| ActionLogStatus.KeepingSomeHunksIsNot | crates/action_log/src/action_log.rs:657-797 | If some hunk is left, a created buffer stays one: rejecting gives back its former content and stops tracking it, or, if there was no file, only stops tracking it. |
| ActionLogStatus.DeletionIsReviewed | crates/action_log/src/action_log.rs:651-813 | Keeping in a deleted buffer stops tracking it; rejecting gives the base text back, tracked as if just read. |
| ActionLogStatus.UndoTracks | crates/action_log/src/action_log.rs:974-1018 | After undoing the buffer is tracked. If it was not before, base and snapshot are the text put back, nothing is under review, and one update of the agent's is queued; if it was, base, snapshot and hunks stay, and only text put back is queued, as the user's. |
| ActionLogStatus.TrackingStarts | crates/action_log/src/action_log.rs:114-269 | Reading an untracked buffer, and restoring a deleted file, make the text the base with nothing under review; creating a buffer puts all of its text under review against an empty base; and nothing else of the buffer changes. |
| ActionLogStatus.EditsAreAttributed | crates/action_log/src/action_log.rs:205-637 | User edits, agent edits and deletions of a tracked buffer queue exactly the updates their author accounts for, and change nothing else that is tracked but the status and the version. |
| ActionLogStatus.ReviewsAreQueued | crates/action_log/src/action_log.rs:639-921 | Keeping queues one update of the user's and leaves the buffer; rejecting in a modified buffer queues one if it edits the buffer, and leaves base and hunks until it is processed. |
| ActionLogStatus.RejectingElsewhereChangesNothing | crates/action_log/src/action_log.rs:834-893 | Rejecting ranges that touch the rows of no hunk changes nothing, whatever has been edited since the snapshot, and keeps what undoes the reject before. |
| ActionLogStatus.CommittedHunksAreAccepted | crates/action_log/src/action_log.rs:389-440 | A commit accepts exactly the hunks for which it has an edit of the same base rows that puts in the same text. |
| ActionLogStatus.CommittingEverythingAcceptsIt | crates/action_log/src/action_log.rs:389-440 | A commit of the whole snapshot accepts everything. |
| ActionLogStatus.UserEditsAreNeverUnderReview | crates/action_log/src/action_log.rs:205-529 | Over every run in which the agent neither edits nor creates nor deletes the buffer, whatever is typed, kept, rejected, committed and processed, nothing comes under review, the base is the buffer once all updates are processed, and rejecting changes nothing. |
| ActionLogObject.TrackedBuffer.KeepEditsInRange | crates/action_log/src/action_log.rs:657-693 | The fields of a tracked buffer change as accepting the touched hunks says. |
| ActionLogObject.TrackedBuffer.StartUpdate | crates/action_log/src/action_log.rs:325-352 | Taking an update off the queue computes the rebased base, for a user update, or leaves it, for an agent update. |
| ActionLogObject.TrackedBuffer.StartCommitted | crates/action_log/src/action_log.rs:366-440 | A change of the committed text computes the base with exactly the committed hunks folded in. |
| ActionLogObject.TrackedBuffer.FinishUpdate | crates/action_log/src/action_log.rs:486-529 | Finishing installs base, snapshot and the row patch of their diff together. |
| ActionLogObject.ActionLog.TrackBuffer | crates/action_log/src/action_log.rs:114-203 | Tracking starts, restarts or goes on as the state before says, with the content there was kept for created buffers. |
| ActionLogObject.ActionLog.BufferRead | crates/action_log/src/action_log.rs:532-553 | Reading a buffer is a step of the run and keeps the invariant. |
| ActionLogObject.ActionLog.BufferCreated | crates/action_log/src/action_log.rs:555-576 | Creating one is a step of the run. |
| ActionLogObject.ActionLog.UserEdits | crates/action_log/src/action_log.rs:205-234 | A user edit queues an update of the user's exactly if the buffer has changed since the tracked version. |
| ActionLogObject.ActionLog.AgentEdits | crates/action_log/src/action_log.rs:578-605 | An agent edit queues an update of the agent's, and its event none of the user's. |
| ActionLogObject.ActionLog.WillDeleteBuffer | crates/action_log/src/action_log.rs:607-637 | Deletion empties a modified buffer and forgets a created one. |
| ActionLogObject.ActionLog.FileChange | crates/action_log/src/action_log.rs:236-269 | A file deleted or restored from outside stops or restarts tracking. |
| ActionLogObject.ActionLog.KeepEditsInRange | crates/action_log/src/action_log.rs:639-708 | Keeping a range is a step of the run; a created buffer with nothing left under review becomes a modified one. |
| ActionLogObject.ActionLog.KeepAllEdits | crates/action_log/src/action_log.rs:895-921 | Keeping everything is a step of the run. |
| ActionLogObject.ActionLog.RejectEditsInRanges | crates/action_log/src/action_log.rs:710-893 | Rejecting ranges is a step of the run, and what undoes it is remembered if there is anything. |
| ActionLogObject.ActionLog.RejectAllEdits | crates/action_log/src/action_log.rs:923-961 | Rejecting everything is a step of the run and forgets an earlier undo. |
| ActionLogObject.ActionLog.UndoLastReject | crates/action_log/src/action_log.rs:974-1018 | Undoing makes the remembered edits, and tracks a buffer that is no longer tracked as edited by the agent. |
| ActionLogObject.ActionLog.StartTracking | crates/action_log/src/action_log.rs:318-352 | The first half of processing an update is a step of the run. |
| ActionLogObject.ActionLog.StartCommitted | crates/action_log/src/action_log.rs:366-440 | So is that of processing a commit. |
| ActionLogObject.ActionLog.FinishUpdate | crates/action_log/src/action_log.rs:455-529 | The second half is a step of the run. |
| EditAgents.ComputeEdits | crates/agent/src/edit_agent.rs:550-608 | The loops over the chunks and operations of the streamed diff emit the edits of all operations together, in order. |
| EditAgents.EditsReplaceRange | crates/agent/src/edit_agent.rs:569-601 | If the operations are a diff of a range and a new text, their edits turn the snapshot into what is before the range, the new text, and what is after it. |
| EditAgents.BatchStep | crates/agent/src/edit_agent.rs:361-372 | After the first of the edits have been made as one batch, making the others at their anchors gives what making all at once would. |
| EditAgents.PendingAnchorsStay | crates/agent/src/edit_agent.rs:584-598 | The characters that the anchors of later edits belong to are not replaced by a batch before them, so their carried positions are those of their anchors. |
| EditAgents.ApplyInBatches | crates/agent/src/edit_agent.rs:361-408 | Batches of any sizes leave the same buffer as all edits at once, and the action log consistent after each. |
| EditAgents.ApplyEditChunks | crates/agent/src/edit_agent.rs:357-408 | Streaming a diff into a buffer under the action log replaces exactly the range by the new text, however the edits are batched. |
| EditAgents.EmptyDeletionsSwap | crates/agent/src/edit_agent.rs:584-598 | After text was inserted at its start, the anchors of a deletion are in order exactly if it deletes something. |
| Permissions.RunKeepsInv | crates/acp_thread/src/acp_thread.rs:1890-2134 | In every reachable state tool-call ids are unique, and a request is unresolved exactly if one entry, and no other, waits for it. |
| Permissions.StepKeepsInv | crates/acp_thread/src/acp_thread.rs:1808-2134 | Upserting, updating, requesting, authorizing, cancelling, ending a turn and rewinding each keep that. |
| Permissions.StepEnds | crates/acp_thread/src/acp_thread.rs:2073-2134 | A step leaves requests that have ended alone, and ends one as selected only by authorizing the call that waits for it, else as cancelled. |
| Permissions.EndsOnce | crates/acp_thread/src/acp_thread.rs:2073-2134 | Over every run a request that has ended keeps its outcome. |
| Permissions.AuthorizeSelects | crates/acp_thread/src/acp_thread.rs:2105-2134 | Authorizing sends the choice to the request its call waits for and to no other, and rejects or runs the call as chosen. |
| Permissions.SurvivesUpdates | crates/acp_thread/src/acp_thread.rs:344-346 | A request survives an update of its own call exactly if that sets no status, and an upsert or a new request for it exactly if that fails before setting one. |
| Permissions.CancelEndsAll | crates/acp_thread/src/acp_thread.rs:2407-2435 | Cancelling a running turn ends every request, cancels every call that has not come to an end, and leaves the others alone. |
| Permissions.TurnsAreNew | crates/acp_thread/src/acp_thread.rs:2261-2305 | A turn that is started is a new one, and the end of no earlier turn stops it. |
| Permissions.DropAllCancels | crates/acp_thread/src/acp_thread.rs:2370-2370 | Removing entries cancels exactly the requests they hold. |
| Permissions.StaleEnd | crates/acp_thread/src/acp_thread.rs:2286-2402 | The end of an older turn leaves the newer one running. It cancels exactly the requests held by the entries that its response marks or removes, and leaves all requests alone exactly if none of those waits. |
| Permissions.StaleEndCancels | crates/acp_thread/src/acp_thread.rs:2326-2370 | A run in which the end of the first turn, as cancelled or as refused, cancels the request of the second. |
| Permissions.AuthorizeOverwrites | crates/acp_thread/src/acp_thread.rs:2115-2131 | Authorizing a call that waits for nothing ends no request but overwrites the status. |
| Permissions.KnownCallsChange | crates/acp_thread/src/acp_thread.rs:1808-1948 | An update or upsert of a call changes that call alone, to the status the agent reported, and never takes its output away. |
| Permissions.UnknownCallsAreAdded | crates/acp_thread/src/acp_thread.rs:1808-1948 | For a call it does not know, an update adds a failed one and an upsert one as reported, or nothing if its content is not valid. |
| Permissions.RewindCuts | crates/acp_thread/src/acp_thread.rs:2473-2511 | Rewinding keeps exactly the entries before the first user message with the id, or all if there is none. |
| Permissions.RefusalCuts | crates/acp_thread/src/acp_thread.rs:2346-2372 | After a refusal exactly the entries before the last user message are left, unless a completed call with output follows that. |
| Permissions.EndOfTurnKeepsEntries | crates/acp_thread/src/acp_thread.rs:2286-2402 | The end of a turn for any other reason removes nothing, stops the turn if it is the running one, and cancels exactly the calls that have not come to an end, if the turn was cancelled. |
| Permissions.AcpThread.FindToolCall | crates/acp_thread/src/acp_thread.rs:1950-1962 | The search from the end finds the call with the id. |
| Permissions.AcpThread.UpsertCall | crates/acp_thread/src/acp_thread.rs:1879-1948 | Upserting is a step of the run, also where it fails half way. |
| Permissions.AcpThread.RequestToolCallAuthorization | crates/acp_thread/src/acp_thread.rs:2073-2103 | A request that is made is new and unresolved, one that could not be made is cancelled at once. |
| Permissions.AcpThread.UpdateTool | crates/acp_thread/src/acp_thread.rs:1808-1877 | Updating a call, or adding a failed one for an unknown id, is a step of the run. |
| Permissions.AcpThread.Authorize | crates/acp_thread/src/acp_thread.rs:2105-2134 | Authorizing is a step of the run. |
| Permissions.AcpThread.MarkPendingToolsAsCanceled | crates/acp_thread/src/acp_thread.rs:2420-2435 | The loop cancels every pending, waiting or running call and drops every sender. |
| Permissions.AcpThread.CancelRunning | crates/acp_thread/src/acp_thread.rs:2407-2418 | Cancelling is a step of the run. |
| Permissions.AcpThread.Run | crates/acp_thread/src/acp_thread.rs:2261-2284 | A new turn cancels the old one and gets the next id. |
| Permissions.AcpThread.HandleEndOfTurn | crates/acp_thread/src/acp_thread.rs:2286-2402 | The end of a turn is a step of the run, refusals with their truncation included. |
| Permissions.AcpThread.RewindToMessage | crates/acp_thread/src/acp_thread.rs:2473-2511 | Rewinding removes the entries from the first message with the id on. |
| StreamingText.StreamingRefines | crates/acp_thread/src/acp_thread.rs:1566-1629 | Each step of the streaming form, flushed, shows what the form without a buffer shows. |
| StreamingText.TextIsConserved | crates/acp_thread/src/acp_thread.rs:1666-1756 | Over every run of chunks, ticks, changes of the target and flushes, what is shown of each block is a beginning of the text sent to it, in order, and after a flush all of it. |
| StreamingKinds.TextIsShownAsSent | crates/acp_thread/src/acp_thread.rs:1566-1629 | Over every run without removed entries the thread, flushed, shows letter by letter and in order the text that was sent, thoughts in thoughts and messages in messages, indented as sent, with a new line after a link or picture that text of its kind follows. What was sent is told by the steps alone. |
| StreamingKinds.EachKindIsConserved | crates/acp_thread/src/acp_thread.rs:1599-1629 | In a new thread that gets no links or pictures, the sources of the message chunks, joined, are the texts sent as messages, those of the thought chunks the texts sent as thoughts, and so for every choice of kind and indentation. |
| StreamingKinds.ChunksAndMessagesAlternate | crates/acp_thread/src/acp_thread.rs:1587-1629 | Over every run, removed entries included, consecutive chunks of one message differ in kind and consecutive messages of the assistant in indentation, and none is empty. |
| StreamingText.CutsBetweenChars | crates/acp_thread/src/acp_thread.rs:1737-1745 | A cut at the next character boundary leaves whole UTF-8 characters on both sides. |
| StreamingText.RunWholeChars | crates/acp_thread/src/acp_thread.rs:1737-1745 | If the agent sends whole characters, no run ever shows part of one. |
| StreamingText.ThirteenTicksShowAll | crates/acp_thread/src/acp_thread.rs:1083-1089 | Thirteen ticks after the last text for a block, whatever comes between, all of it is shown. |
| StreamingText.TwelveTicksMayNot | crates/acp_thread/src/acp_thread.rs:1083-1089 | Twelve ticks do not suffice for 200 bytes. |
| StreamingText.AcpThread.FlushStreamingText | crates/acp_thread/src/acp_thread.rs:1702-1713 | Flushing shows all that is pending and drops the buffer. |
| StreamingText.AcpThread.BufferStreamingText | crates/acp_thread/src/acp_thread.rs:1666-1699 | Text for the same block is added to what is pending and sets the rate anew; for another block the old one is flushed first. |
| StreamingText.AcpThread.RevealTick | crates/acp_thread/src/acp_thread.rs:1715-1756 | A tick moves the next whole characters from what is pending to the block. |
| StreamingText.AcpThread.PushAssistantContentBlock | crates/acp_thread/src/acp_thread.rs:1566-1629 | Content goes to the last chunk if that is of its kind and indentation, or to a new one, with the flush in the code's order; `StreamingKinds` says what the thread then shows of it. |
| Sessions.StepKeepsInv | crates/agent/src/agent.rs:938-1062 | Opening, loading, failing, replaying, closing and creating keep every session's count equal to its clients, the project state of every loaded session there, and no project state that neither a session nor a load that has been read uses. |
| Sessions.ReachableStates | crates/agent/src/agent.rs:300-328 | In every reachable state no id is both pending and loaded, a loaded session counts at least one client and has its project state, and what a client has got is loaded. |
| Sessions.CountIsOpensLessCloses | crates/agent/src/agent.rs:938-1062 | Whatever the interleaving, as long as loading does not fail, the count is the number of opens less that of closes, and the session is there exactly if that is positive. |
| Sessions.OnlyFailedReplaysLeak | crates/agent/src/agent.rs:980-996 | A session no client has and none waits for is loaded exactly if some step of the run was a failed replay of it. |
| Sessions.NothingLeft | crates/agent/src/agent.rs:1035-1062 | When everything has been closed and nothing failed, no session, load or project state is left. |
| Sessions.ProjectsAreKept | crates/agent/src/agent.rs:300-328 | Every session keeps the project it was opened or made with, and a subagent's is that of its parent. |
| Sessions.NativeAgent.OpenThread | crates/agent/src/agent.rs:938-1006 | Opening counts a client of a loaded or pending session, or starts a load. |
| Sessions.NativeAgent.LoadThread | crates/agent/src/agent.rs:897-936 | Reading the thread makes the project state. |
| Sessions.NativeAgent.LoadFailed | crates/agent/src/agent.rs:960-968 | A failed load is no longer pending. |
| Sessions.NativeAgent.LoadCompleted | crates/agent/src/agent.rs:970-979 | A completed load becomes a session with the clients that waited, and a project state even if that was removed meanwhile. |
| Sessions.NativeAgent.ReplayEnded | crates/agent/src/agent.rs:980-996 | The end of a replay gives the session to the clients that waited for it, or to none. |
| Sessions.NativeAgent.CloseSession | crates/agent/src/agent.rs:1035-1062 | The last close removes the session, and the project state exactly if no other session uses it; closing a session that is not loaded does nothing. |
| Sessions.NativeAgent.NewSession | crates/agent/src/agent.rs:300-328 | A new session counts one client and has its project state. |
| Sessions.NativeAgent.CreateSubagentThread | crates/agent/src/agent.rs:1900-1909 | A subagent's session belongs to the project of its parent, and fails without the parent. |
| Connections.StepKeepsInv | crates/agent_ui/src/agent_connection_store.rs:93-220 | Every step keeps the entry of each key the one of the last attempt for that key, without error, connecting exactly as long as its attempt has not ended. |
| Connections.ReachableEntries | crates/agent_ui/src/agent_connection_store.rs:93-204 | In every reachable state the map holds no error, a connecting entry's own attempt has yet to end, and a connected entry holds what its own attempt got. |
| Connections.StaleAttemptsChangeNothing | crates/agent_ui/src/agent_connection_store.rs:129-201 | An attempt whose entry was removed or replaced, or is gone, changes neither the map nor any entry. |
| Connections.CurrentAttemptsSetTheirEntry | crates/agent_ui/src/agent_connection_store.rs:129-201 | The attempt whose entry is in the map sets it or takes it out, and changes no other. |
| Connections.RemovedForGood | crates/agent_ui/src/agent_connection_store.rs:129-201 | Over every run an entry that has left the map never comes back and never changes again. |
| Connections.RestartReplaces | crates/agent_ui/src/agent_connection_store.rs:93-107 | Restarting leaves an attempt that is still connecting alone and replaces anything else by a new one. |
| Connections.ConfiguredAgentsStay | crates/agent_ui/src/agent_connection_store.rs:206-220 | A new list of servers removes exactly the custom agents it does not name; a later request finds every other entry as it was, and makes a new attempt for those. |
| Connections.AgentConnectionStore.RequestConnection | crates/agent_ui/src/agent_connection_store.rs:109-127 | A request returns the entry of the key, a new one only if there was none. |
| Connections.AgentConnectionStore.RestartConnection | crates/agent_ui/src/agent_connection_store.rs:93-107 | Restarting is a step of the run and returns the entry in the map. |
| Connections.AgentConnectionStore.HandleCompletion | crates/agent_ui/src/agent_connection_store.rs:129-171 | The end of an attempt is a step of the run. |
| Connections.AgentConnectionStore.HandleVersion | crates/agent_ui/src/agent_connection_store.rs:173-201 | So is the notice of a new version. |
| Connections.AgentConnectionStore.HandleAgentServersUpdated | crates/agent_ui/src/agent_connection_store.rs:206-220 | And so is a new list of servers. |
| Mentions.LineRangesParse | crates/acp_thread/src/mention.rs:68-93 | All ways of writing a line range are read alike, and exactly as long as no line number wraps around. |
| Mentions.ParsesDecimal | crates/acp_thread/src/mention.rs:82-91 | Every 32-bit number is read back from its decimal digits. |
| Mentions.BranchesAreExclusive | crates/acp_thread/src/mention.rs:131-219 | No path of a zed URL is of two kinds, so the order of the prefix tests does not matter. |
| Mentions.FlagsRoundTrip | crates/acp_thread/src/mention.rs:145-158 | All four combinations of the diagnostics flags are read back from the query printed for them. |
| Mentions.FlagsAreLastValues | crates/acp_thread/src/mention.rs:145-158 | The flags are read exactly if the query names nothing else, and each is what its last value says, or its default. |
| Mentions.ReadDiagnosticsFlags | crates/acp_thread/src/mention.rs:145-158 | The loop over the query gives each flag its last value, and fails on any other name. |
| Mentions.FileRoundTrip | crates/acp_thread/src/mention.rs:98-130 | Files, symbols and selections round-trip exactly if their path survives being stored, a file without a slash at its end, and their lines do not wrap around. |
| Mentions.DirectoriesSettle | crates/acp_thread/src/mention.rs:334-342 | The first trip gives a directory the path that is read from what is stored with its slash, or makes it a file if storing loses the slash; where the path with its slash is stored as it is, it is kept on every other trip. |
| Mentions.IdRoundTrip | crates/acp_thread/src/mention.rs:131-144 | Threads round-trip exactly if their id is stored as it is, rules exactly if they are the user's. |
| Mentions.PageRoundTrip | crates/acp_thread/src/mention.rs:159-219 | Pasted images, untitled selections, terminal selections, branch diffs and merge conflicts round-trip, selections as long as their lines do not wrap around. |
| Mentions.PathPagesParse | crates/acp_thread/src/mention.rs:174-204 | The pages for files, directories, symbols and selections, which are never printed, are read exactly if the query is one path, and the lines, where they are asked for, do not wrap around. |
| Mentions.DefaultsAreRead | crates/acp_thread/src/mention.rs:131-219 | What each page gives whose parameter is left out. |
| Mentions.UnreadableLines | crates/acp_thread/src/mention.rs:98-130 | A file whose fragment is no line range is read with the second line, and with any other parameter than a symbol not at all. |
| Mentions.RoundTrip | crates/acp_thread/src/mention.rs:322-423 | Printing a mention and parsing it gives it back exactly if it is canonical. |
| Mentions.BuildUri | crates/acp_thread/src/mention.rs:322-423 | The URL built part by part is the one the round trips are about. |
| ExcerptRanges.ExcerptRanges | crates/acp_thread/src/diff.rs:351-387 | The ranges shown are sorted with every end before the next start, and cover exactly the points, and the steps between points, that the hunks and revealed ranges cover. |
| ExcerptRanges.CanonicalCover | crates/acp_thread/src/diff.rs:369-386 | Such ranges are determined by what they cover, so they depend neither on the order nor on the kind of the ranges given. |
| ExcerptRanges.MergeWithCanonical | crates/acp_thread/src/diff.rs:371-385 | Merging needs ranges sorted by their start only. |

## Left out

- Scheduling: entities, contexts, events and tasks of the UI framework; each closure run on an entity is one step. The event
  of an edit is handled in the step of the edit.
- The text buffer, rope, buffer diff, line diff, streaming diff and URL libraries: their results are parameters with
  contracts, or stock sequences. Edits from other replicas, and undo in the buffer itself, are not part of this model.
- The action log of several buffers, and logs linked to a parent's: a log of one buffer is modelled, the others being
  independent of it but for one list of what a reject remembers.
- Saving buffers, deleting files, language servers, file read times, telemetry events and notifications.
- Overflow of row numbers and deltas beyond 32 bits: rows are unbounded, and every conversion to an unsigned row is of a
  number that is proved not to be negative, by the ranges lying inside the text.
- Rejecting a created file without prior content: the file may be deleted; the log forgets the buffer in any case.
- Rebase.ApplyNonConflictingEdits: requires row edits that are strictly separated, which `RowEdits.RowPatchTakes` gives.
- Review.KeepCommitted: the line diff of base and committed text is assumed to be separated, and need not take the one to
  the other.
- ActionLogRuns.UndoRestores: says nothing about undoing after the buffer was edited again, which the code calls best effort.
- Documents.RewrittenText: how the buffer splits text into fragments is not modelled, so `front` is free but for the first
  edit of a transaction. Text is a sequence of characters, where the code counts bytes of whole characters.
- ActionLogRuns.RejectAllGivesBase: needs the characters of the snapshot, not only its text: text deleted and typed again
  lies outside the anchors of its hunk.
- Permissions: labels, content, locations and raw input of tool calls, plans, checkpoints and terminals; only whether the
  conversion of an update succeeds, and whether it has output. Dropping the task that waits for an outcome is not modelled.
- StreamingText.ThirteenTicksShowAll: the rate is the exact quotient rounded up, where the code computes it in 32-bit floats.
- StreamingText: the text of user messages; links and images that become Markdown are included.
- Sessions: prompts, models, saving, and the contents of threads; ids of new sessions are fresh, and clients close only what
  they got.
- Connections.AgentConnectionStore.HandleVersion: the event that announces the version.
- Mentions.RoundTrip: how the URL library encodes paths and pairs of a query is a parameter; the round trips hold exactly
  for what it keeps. A line number that wraps around would panic in builds with overflow checks.
- ExcerptRanges.ExcerptRanges: the library's sort is an insertion sort on values; points are offsets.
- Names, icons and tooltips of mentions, and reading of legacy threads.
