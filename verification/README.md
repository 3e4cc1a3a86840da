# The layered branch store, modelled and proved

This project models the branch store: a base directory tree under a forest of branches,
each with a delta tree, a set of tombstones, a list of hidden paths, first-touch records
and a way of inheriting from its parent (live, or from a tree frozen at creation).

A tree is a finite map from component paths to directories, files with their bytes and
symlinks; a tree on disk is closed under taking the parent directory. What a branch shows
is a tree as well: its deltas over whatever it inherits and neither deletes nor hides.
Two views count as equal when they have the same reachable files and symlinks, those
under directories all the way up: a commit does not carry empty directories, and a lookup
still answers below a path that a branch has turned into a file.

| file | content |
|---|---|
| `FileTree`, `MergeView`, `Disk`, `Sums` | trees, reachable files, the specification of a merge, file-system calls, sums over maps |
| `Layers`, `Store`, `Snapshots` | one branch, the forest and its views, lookup, listing, frozen trees |
| `Edits`, `EditLaws`, `EditRuns`, `EditInvariants`, `OpenLaws`, `CopyUp`, `WriteBytes`, `Rename`, `BranchRuns` | write, open, delete, rmdir, revert and rename: what they do to a branch, when they succeed, what they mean for the view, which bytes are read back, what every run keeps |
| `Staging`, `Publish`, `Rollback`, `RollbackInputs`, `Merger`, `FailedMerges`, `MergeOrders` | the staged merge: side files, publishing, rolling back, the object that does it, what is left when it fails, and in which orders it goes through |
| `TextMerge` | the three-way merge of lines |
| `Commit`, `CommitRun`, `CommitContent`, `CommitSteps` | commits into a parent or the base tree, and the content they publish |
| `Chain`, `ChainRun`, `Siblings` | whole chains of commits, and commits of siblings in turn |
| `Runs`, `RunLaws`, `TouchRuns` | all calls on the store as steps of runs: forest, isolation, quota; what a branch goes on inheriting, freezing, aborting, when the parent has changed, first-touch records |
| `PathText`, `TombLog`, `BranchRecords` | paths as text, the tombstone and touch logs, migration, and the object that keeps them |
| `Quota`, `Manager` | the quota and the branch manager as objects |
| `Examples` | inputs on which a promise does not hold, and a chain that can be committed |

The value-level functions say what a call does to a branch or a tree. The classes
(`Merger.StagedMerge`, `BranchRecords.Branch`, `Quota.StorageQuota`,
`Manager.BranchManager`) do it step by step with their own loops, and each method's
contract equates the new state with such a function of the old one; the laws of these
functions are therefore laws of the methods.

Where the code does not keep a promise for all inputs, the theorem states the exact
condition under which it does (these are the statements with "exactly when"), and a lemma
in `Examples`, or the one named here, has an input on the other side. These are:

- publishing a merge fails when an entry set aside lies strictly below a published file, and
  then the comment's promise (`src/branch.rs:269-271`) that a failed merge cannot partially
  change its destination fails as well: the copies stay in place;
- the deletions of a commit are a hash set without order, and its order decides whether such a
  merge fails when the entry lies in another deleted directory as well;
- a failed commit changes its destination without moving the epoch that keeps cached content
  valid (`RunLaws.SameEpochSameViews` excludes it);
- a dropped merge renames back in the order of setting aside, so nested deletions lose files,
  and a copy staged below a deletion keeps it from coming back;
- the line merge runs out of its slice when the session inserts where the current edit starts
  (`TextMerge.TieExample`);
- a nested commit drops the file-less directories and hide rules of the child, so the parent
  may go on showing files that the child did not;
- a base commit keeps main's own tombstones, which then hide committed files;
- a delete, rmdir, revert or nested commit that empties a delta directory over an inherited
  file makes that file appear;
- the first write to, or opening of, a deleted file starts from the deleted content, and
  opening a deleted directory, as mkdir does, brings back the files in it; so does a write
  there that fails for the quota;
- moving a directory can put files under tombstones of the destination;
- a rewrite of the tombstone snapshot that stops before the log is removed replays the old log;
- a legacy tombstone that ends in a carriage return changes when it is migrated;
- a hide rule is matched against a trimmed path, so a name that ends in white space is
  matched under another name (`PathText.SpaceAtEndIsHidden`).

## Model

| member | source | states |
|---|---|---|
| Commit.NestedCommitPreservesView | src/branch.rs:2366-2418 | after a nested commit the parent shows exactly the child's files, exactly when no file-less directory and no hide rule of the child kept a file of the parent from showing, and the merge empties no directory of the parent that stood over an inherited file; for any mix of deltas, tombstones and hide rules on both sides |
| Commit.BaseCommitPreservesView | src/branch.rs:2314-2344 | after a commit into the base tree main shows exactly the child's files, exactly when main's tombstones and deltas leave the committed files alone and no file-less directory or hide rule of the child kept a file from showing |
| Layers.ShrinkKeepsFilesIff | src/branch.rs:1896-1920 | pruning empty delta directories changes no visible file exactly when none of them stood over an inherited file |
| Chain.NestedStepReady | src/branch.rs:2366-2418 | a nested commit of the last branch keeps the premises under which the rest of the chain can be committed |
| Chain.NestedStepKeepsApart | src/branch.rs:2366-2418 | it also keeps every tombstone of the chain clear of the delta files above it, so that no later merge fails |
| Chain.ChainCommitPreservesView | src/branch.rs:2176-2418 | committing any chain of nested branches deepest first leaves main showing the deepest branch's original files |
| ChainRun.CommitsUpPreserveView | src/branch.rs:2176-2418 | the same for successive commits of the store, by induction on the depth of the branch, next to any other branches |
| CommitRun.NestedCommitShowsChild | src/branch.rs:2366-2418 | in the store the parent's new view has the files that the child's view had, with the published content, under the same exact condition; for a Lazy child, and for a Snapshot child frozen of the parent's present view |
| CommitRun.BaseCommitShowsChild | src/branch.rs:2314-2344 | main's view over the new base tree against the child's view in the old store, in the same way |
| CommitRun.CommitSourcesOk | src/branch.rs:2202-2312 | every delta file is published once, as a file; unchanged when the parent has not changed |
| CommitRun.CommitKeepsForest | src/branch.rs:2335-2344 | removing the committed leaf leaves every other branch connected to main |
| CommitRun.ViewIsChainView | src/branch.rs:1623-1648 | along Lazy links lookup shows the view of the chain of layers, whatever other branches there are |
| Publish.MergeMeetsSpec | src/branch.rs:298-351 | deletions in any order and nesting, then copies none below another: staging and the publish renames succeed when no kept file is in the way; for the given order discarding succeeds exactly when no recorded deletion lies below a copy; the tree is then the destination less the deleted subtrees, overlaid with the copies, without side files |
| MergeOrders.AlwaysGoesThroughIff | src/branch.rs:2314-2327 | a merge goes through in every order of the set of deletions exactly when no kept file is in the way of a copy and no existing deletion lies below one |
| MergeOrders.SometimesGoesThroughIff | src/branch.rs:2314-2327 | and in some order exactly when that holds of the outermost deletions: between the two the order of the hash set decides |
| Staging.DeletesStaged | src/branch.rs:298-309 | after any list of deletions a user sees the tree less those subtrees, whatever their order |
| Staging.CopiesStaged | src/branch.rs:314-337 | staging copies succeeds exactly when no kept file is above one, and until publishing every file keeps its old content |
| Publish.DiscardSucceedsIff | src/branch.rs:345-348 | removing what was set aside meets no error exactly when nothing was set aside below a published file |
| Staging.SidesMeet | src/branch.rs:373-377 | side files of different kinds or different paths never collide, one is never inside another |
| Rollback.RollbackRestoresFilesIff | src/branch.rs:353-368 | dropping a merge after any prefix of its staging, a failing copy included, returns every file to its place exactly when each moved entry that held one has no moved entry above it and no copy in its place; nested entries included |
| RollbackInputs.EveryOrderRestoresIff | src/branch.rs:263-284 | the same told by the inputs: the files come back in every order of the deletions exactly when nothing that holds a file has a deletion or a cleared directory above it or a copy in its place |
| FailedMerges.BrokenStagingRestoresIff | src/branch.rs:263-284 | a merge that fails while it is staged gives every file back, whatever the order and wherever a copy breaks off, exactly when its inputs are safe: whatever is set aside and holds a file has nothing set aside above it and no copy below it |
| FailedMerges.FailedPublishLeaves | src/branch.rs:341-368 | path by path what a failed publish leaves: the finished merge, except at the entries that the rollback still renames back, which are named exactly; beside that only trash |
| FailedMerges.PublishFailedKeepsCopies | src/branch.rs:269-271 | so a failed publish is no rollback: every copy whose path was not deleted is in place, and some former directory with a deletion in it is now a file |
| Rollback.RollbackRestoresAll | src/branch.rs:353-368 | when every moved entry can come back the whole tree is as before, and only directories above copies and one broken side file are new |
| Rollback.RestoreAllRestores | src/branch.rs:363-366 | renaming back in order, errors ignored, restores exactly the entries whose rename would succeed alone |
| Merger.StagedMerge.StageDelete | src/branch.rs:298-309 | the object's state after the call is the specified one; the rename aside cannot fail |
| Merger.StagedMerge.StageCopy | src/branch.rs:314-337 | succeeds exactly when no fault occurs and parents and side file can be made; after a fault the object is in the broken-off state |
| Merger.StagedMerge.Commit | src/branch.rs:341-351 | succeeds exactly when all renames and removals do; otherwise the rollback runs on what the first failing step left, which `FailedMerges.FailedPublishLeaves` describes |
| Merger.StagedMerge.Drop | src/branch.rs:353-368 | the destination is the rolled-back one, errors ignored |
| TextMerge.ConcatSplit | src/branch.rs:554-558 | splitting into lines and joining is the identity |
| TextMerge.SplitIsUnique | src/branch.rs:554-558 | and the only way to read a text as lines that each end with a line feed, but perhaps the last |
| TextMerge.ChangedRange | src/branch.rs:560-577 | the two loops compute the specified block edit |
| TextMerge.ChangedEditRebuilds | src/branch.rs:560-577 | the block edit turns the base into the changed file |
| TextMerge.ChangedEditIsSmallest | src/branch.rs:560-577 | no other common prefix and suffix keeps more lines in front, replaces fewer lines or inserts fewer |
| TextMerge.MergePanicsIff | src/branch.rs:600-612 | the slice is out of range exactly on a tie |
| TextMerge.MergeIsSquare | src/branch.rs:600-618 | the result is the session's edit applied to the current file at its shifted place, and the current edit applied to the session |
| TextMerge.MergeIsSymmetricIff | src/branch.rs:600-618 | swapping current and session gives the same outcome exactly when the edits start on different lines, or both replace lines, or both insert at one line and their insertions commute |
| TextMerge.ThreeWayIsGeneral | src/branch.rs:583-588 | for two different texts the early returns give what the line merge gives |
| TextMerge.ThreeWayKeepsBothEdits | src/branch.rs:579-621 | of any three texts: an edit made alike on both sides is in the merged text once; of two different edits it has both, it is the current lines under the session's edit and the session's lines under the current edit, the later one moved by what the earlier one added |
| TextMerge.ThreeWayOfOneEdit | src/branch.rs:579-588 | merging a text with itself gives it, whatever the base; a side that is the base gives the other |
| TextMerge.ThreeWayEndsIff | src/branch.rs:579-621 | whole texts merge exactly when their edits are the same, or lie one at or before the other and do not tie; they fail exactly when two different edits tie |
| TextMerge.TryThreeWayTextMerge | src/branch.rs:579-621 | the method computes that merge |
| Store.ResolveIsView | src/branch.rs:1566-1648 | the mutual recursion of lookup ends for every live branch, never misses a parent and finds what the reference view has |
| Store.ListingAgreesWithLookup | src/branch.rs:1549-1621 | at every depth and in both modes a name is listed exactly when the child resolves |
| Store.ViewPrefixClosed | src/branch.rs:1623-1648 | what exists in a view has its ancestors in the view |
| Store.CollectReaddirEntries | src/fs_helpers.rs:120-175 | after the dots the children of the directory in ascending order, without repeats, each as directory, file or symlink, which is what it resolves to: looking them up again drops none |
| Store.AscendingIsUnique | src/fs_helpers.rs:137-138 | there is one such order, so paged listings agree |
| Store.ViewDependsOnFootprint | src/branch.rs:1566-1593 | a view depends on nothing but the layers reached by Lazy links and, through main, the base tree |
| Snapshots.SnapshotRefinesLazy | src/branch.rs:1339-1377 | a Snapshot and a Lazy branch created alike reach the same paths with equal entries |
| Snapshots.FrozenShowsSame | src/branch.rs:1566-1593 | and as long as no delta directory stands over an inherited file they still do, for any deltas and tombstones |
| Snapshots.SnapshotVisibleDir | src/branch.rs:1663-1699 | the recursive walk ends and copies exactly the reachable entries below the directory, in whatever order names come |
| Snapshots.SnapshotVisibleTree | src/branch.rs:1650-1661 | the frozen tree is the reachable part of the source's view |
| Runs.NextKeepsForest | src/branch.rs:1349-1375 | every call, failing or not, keeps each branch connected to main by parent links |
| Runs.RunKeepsForest | src/branch.rs:1349-1375 | so in every state of a run, by induction from the first, each branch is connected to main |
| Runs.ReachableLookupsSucceed | src/branch.rs:1623-1648 | in every state of a run every lookup in every live branch succeeds |
| Runs.RunIsolated | src/branch.rs:1566-1593 | over any run of creating, editing, renaming, freezing, committing and aborting, a branch shows the same as long as no call modifies it or a layer it reaches by Lazy links |
| Runs.CreatedShowsParent | src/branch.rs:1339-1377 | a new branch of either mode reaches what its parent reaches outside the hidden paths |
| RunLaws.RunKeepsStoreOk | src/branch.rs:1339-2484 | every state of a run, after failed commits too, is a forest of well-formed delta trees over a well-formed base tree |
| RunLaws.CreatedFootprint | src/branch.rs:1566-1593 | a new branch is writable and depends on itself, and by a Lazy link on everything its parent depends on, by a Snapshot on nothing more |
| RunLaws.CreatedInherits | src/branch.rs:1566-1593 | after any run that leaves the new branch alone, a Lazy one shows exactly what its parent shows by then outside the hidden paths, a Snapshot one reaches what the parent reached when it was created |
| RunLaws.ParentChangedIff | src/branch.rs:2195-2200 | in any run in which a branch lives, its commit finds the parent changed exactly when a commit of a sibling has gone through since it was created |
| RunLaws.FrozenStays | src/branch.rs:2062-2073 | from freezing a branch until it is thawed, removed or merged into, no call changes it, and no edit or rename in it changes anything |
| RunLaws.ThawUndoesFreeze | src/branch.rs:2077-2088 | thawing gives back the branch that was frozen |
| RunLaws.AbortRemovesOnlyTheLeaf | src/branch.rs:2443-2484 | an aborted leaf cannot be looked up any more, every other branch shows what it showed |
| RunLaws.OnlyEditsCount | src/branch.rs:64-83 | no call but edits and renames changes the byte count |
| RunLaws.EpochMovesIff | src/branch.rs:1376 | the epoch moves, by one, exactly by creating, freezing, thawing, reverting and commits that go through |
| RunLaws.SameEpochSameViews | src/branch.rs:2349 | while it stands still, no call but an edit, a rename or a failed commit has changed what any branch shows |
| Runs.RunConservesTotal | src/branch.rs:64-83 | over any run of edits of any branches the byte count moves with the summed size of all deltas, and stays within the quota |
| EditRuns.RunConservesQuota | src/branch.rs:1786-1893 | the same for one branch |
| EditRuns.RevertUndoesRun | src/branch.rs:2010-2043 | after any run of edits at and below an untouched path, revert restores delta files, tombstones and touch records, and the view below the path |
| EditLaws.DeleteIsExact | src/branch.rs:1922-1957 | in a writable branch it succeeds, leaves a tombstone exactly where something is inherited, the subtree is unresolvable and no other file changes, exactly when the delete does not empty an untouched delta directory that stood over an inherited file, told by the branch before the call |
| OpenLaws.RmdirEnds | src/branch.rs:1959-2008 | rmdir succeeds exactly in a writable branch at a shown directory with nothing shown below it, and reports which of these is missing; a failed one changes nothing |
| OpenLaws.RmdirKeepsFilesIff | src/branch.rs:1959-2008 | a successful rmdir removes the directory and no file, under the same condition on the branch before the call |
| OpenLaws.OpenEnds | src/branch.rs:1769-1807 | under visible directories opening for write fails exactly for a frozen branch or a copy that does not fit the quota, and then shows what it showed; the copy counts with its length |
| OpenLaws.OpenKeepsFilesIff | src/branch.rs:1769-1807 | opening a file, a directory or a missing path for write shows the same files exactly when it brings back neither a deleted inherited file at the path nor inherited files below a deleted directory |
| EditLaws.RevertIsExact | src/branch.rs:2010-2043 | revert in a writable branch succeeds, shows at and below the path what the branch inherits there and changes no file elsewhere, exactly when it does not empty an untouched delta directory that stood over an inherited file |
| EditLaws.WriteShows | src/branch.rs:1809-1894 | a write puts the overwritten content at the path, gap filled with zeros, and changes no other file, whether the path was a delta, inherited, deleted or missing |
| EditLaws.WriteIsExactIff | src/branch.rs:1809-1894 | the files become the old visible files with the visible content overlaid at the offset, exactly when the path was not a deleted inherited file or nothing of that file shows through |
| EditLaws.WriteMatchesViewIff | src/branch.rs:1834-1866 | the content at the path follows the view under the same condition, whatever stands above the path |
| WriteBytes.OverwriteIff | src/branch.rs:245-253 | a write leaves the data at the offset, the old bytes around it and zeros in a gap, and nothing else is such a content |
| WriteBytes.WriteReadsBack | src/branch.rs:1809-1894 | after a successful write a reader of the branch finds the data at the offset, around it the bytes the write started from, which unless the path was deleted are those the reader found before |
| WriteBytes.StreamReadsBack | src/branch.rs:1809-1894 | chunks written one behind the other to a file that held nothing read back as the chunks in that order, however the data was cut |
| CopyUp.WriteEnds | src/branch.rs:1809-1894 | a write to a writable path fails exactly for an offset out of range, a frozen branch or the quota, reports which, and counts what the file has grown |
| CopyUp.FailedWriteKeepsFilesIff | src/branch.rs:1868-1893 | a write that does not fit the quota changes no file exactly when dropping the tombstone of a deleted directory at the path does not show files below it |
| CopyUp.FirstWriteIsAtomicIff | src/branch.rs:1834-1893 | at every step of a first write, to a deleted path too, all other files are as before and the path has its whole old or its whole new content, exactly when dropping the tombstone does not show files of a deleted directory before the file takes its place |
| CopyUp.WriteStepsEnd | src/branch.rs:1834-1893 | the last of these steps is the result of the write |
| CopyUp.DisjointWritesCommute | src/branch.rs:1274-1280 | two writes to disjoint ranges, in either order under the path lock, show the same files, deleted paths included, and if both succeed in one order they do in the other too |
| Rename.RenameIsExact | src/fs.rs:1607-1684 | renaming a file puts the source's entry at the destination, removes the source and changes no other file, whichever side was delta, inherited or deleted |
| Rename.FileRenameEnds | src/fs.rs:1607-1684 | renaming a shown file succeeds exactly when the branch is not frozen, the destination may be replaced and the copies of the two sides fit the quota one after the other, told by the state before the call; each failure is reported as such |
| Rename.FailedFileRenameKeepsFiles | src/fs.rs:1607-1684 | one that fails changes no file of the view |
| Rename.MovedDeltaShows | src/fs.rs:1607-1684 | renaming a delta, a directory too, path by path: the deltas below the source move, inherited entries do not move with them, at the destination its own inherited entries show between them, elsewhere nothing changes |
| Rename.DirMovesIff | src/fs.rs:1607-1684 | renaming a directory succeeds exactly when it is a delta directory and the destination can be opened; one that is only inherited cannot be renamed |
| Rename.RenameKeepsTombsMinimalIff | src/fs.rs:1673-1684 | after any rename each tombstone names something inherited and no delta file, exactly when the rename does not move a delta directory with a file that lands on a tombstone; success is told by the state before the call |
| BranchRuns.MixedRunKeepsTombsMinimalIff | src/branch.rs:1936-1956 | along every run of writes, opens, deletes, rmdirs, reverts, renames and nested commits each tombstone names something inherited and no delta file in all states, exactly when no rename on the way is of that kind |
| EditInvariants.NestedCommitKeepsTombsMinimal | src/branch.rs:2377-2410 | a nested commit keeps that for the parent |
| EditInvariants.NestedCommitTombsAt | src/branch.rs:2377-2410 | after a nested commit a committed path has no tombstone in the parent, a path that the child deletes has one exactly where the parent inherits something, any other exactly if it had one |
| EditInvariants.RunKeepsKindStable | src/branch.rs:1769-2043 | runs of edits under visible directories keep the commit theorems' premise that no delta directory stands over an inherited file |
| Edits.PrunedShrinks | src/branch.rs:1896-1920 | pruning removes only directories and leaves a tree |
| Edits.PrunedIff | src/branch.rs:1896-1920 | exactly the untouched directories are pruned that lie on the way to the start with nothing else below them |
| Edits.PrunedCompletely | src/branch.rs:1896-1920 | pruning stops only where nothing is left to prune, and makes nothing prunable elsewhere |
| PathText.DescendantIsPrefix | src/branch.rs:239-243 | the string test on paths is the prefix test on components, except that only the root is in the root |
| PathText.DeletedIsCovered | src/branch.rs:1060-1081 | the scan over growing prefixes finds exactly the paths with a tombstone at or above them |
| PathText.HiddenIsTidiedCovered | src/branch.rs:415-421 | the hide test says whether the path without the white space at the end of its last name, or its parent when nothing is left of that name, lies at or below a hidden path |
| PathText.HiddenIsCoveredIff | src/branch.rs:780-790 | so it agrees with the prefix test, in which the view laws are told, exactly when the path is the root, an ancestor is hidden, or the path and the tidied path are on the list alike |
| PathText.SpaceAtEndIsHidden | src/branch.rs:780-790 | paths with white space at the end of a name on which it does not |
| PathText.RenderInjective | src/branch.rs:2486-2510 | different component paths have different texts |
| TombLog.LoadedIff | src/branch.rs:880-911 | the files hold a path exactly when some line of the log adds it, after a plus sign or bare, and none behind it removes it, or a line of the snapshot names it and the log never removes it; lines of white space say nothing |
| TombLog.ReplayedIn | src/branch.rs:880-911 | a replayed log decides each path by its last line about it |
| TombLog.AppendedLoads | src/branch.rs:913-921 | an appended line adds or removes exactly its path at the next load |
| TombLog.RewrittenLoads | src/branch.rs:1122-1133 | a rewritten snapshot loads as the new set |
| TombLog.RewriteCrashSafeIff | src/branch.rs:1122-1133 | stopping a rewrite anywhere before the log is removed, in the middle of a line too, loads the new set exactly when the log's last words, or else the part that is written, agree with it |
| TombLog.MigrationKeepsTombsIff | src/branch.rs:816-847 | migration and a crash inside it load the same set exactly when no undecided path changes by losing a carriage return |
| TombLog.MigrationKeepsTombs | src/branch.rs:816-847 | without such paths the set is the same before, at the crash point, after, and after migrating again |
| BranchRecords.LastTouchDecides | src/branch.rs:923-952 | a replayed touch log decides each path by its last line about it, a record of it or the removal of a path it lies in |
| BranchRecords.SnapshotDecides | src/branch.rs:923-952 | and what no line is about by the snapshot |
| BranchRecords.TouchMigrationKeeps | src/branch.rs:849-878 | the same for touch records |
| BranchRecords.TombRunKeepsPaths | src/branch.rs:1083-1145 | after any run of adding, removing, removing below and replacing tombstones, in whatever order lines are written, the files load as the lines of the set of paths |
| BranchRecords.Branch.constructor | src/branch.rs:705-755 | loading, with migration first, has in memory what the files load as from then on, and what they said before exactly when no tombstone changes by losing a carriage return |
| BranchRecords.Branch.AddTombstone | src/branch.rs:1083-1089 | the set gains the path, and loading the files gives the set |
| BranchRecords.Branch.RemoveTombstone | src/branch.rs:1091-1097 | the set loses the path, and loading gives the set |
| BranchRecords.Branch.RemoveTombstonesUnder | src/branch.rs:1099-1117 | the set loses the lines at and below the path by the string test, and loading gives the set |
| BranchRecords.TextsUnderPath | src/branch.rs:1099-1117 | on lines of paths these are the lines of the paths at and below it |
| BranchRecords.Branch.SetTombstones | src/branch.rs:1140-1145 | the set is replaced, and loading gives it |
| BranchRecords.Branch.RecordFirstTouch | src/branch.rs:1014-1046 | the first record of a path stays, and loading gives the records |
| BranchRecords.Branch.RemoveTouchRecordsUnder | src/branch.rs:975-1004 | records at and below the path go, at the root only the root's own, and loading gives the rest |
| Quota.DirSize | src/branch.rs:49-62 | the recursive walk adds up the bytes of all files and links below a directory |
| CommitContent.PublishedContent | src/branch.rs:2247-2310 | what a commit publishes at a delta file: the merge of the text first seen, the inherited and the branch's own exactly where the parent has changed, the inherited entry has moved since the first touch and three bounded texts merge; everywhere else the branch's own file |
| CommitContent.CommitPanicsIff | src/branch.rs:2247-2310 | the commit runs into the slice out of range exactly at such a file whose edits tie |
| TouchRuns.RecordIs | src/branch.rs:1014-1046 | which call records what: the first write, open, delete or rmdir of a path the entry inherited there, with its text if it is to be changed; a revert over it forgets it, no other call changes it |
| TouchRuns.FirstTouchStays | src/branch.rs:1014-1046 | over any run of the store without such a revert the first record stays |
| TouchRuns.EditedTextIsMerged | src/branch.rs:2247-2310 | a text first touched by a write and changed by commits into the parent meanwhile is published as the merge of the text first seen, the text inherited by then and the branch's own |
| Siblings.SiblingCommitsStay | src/branch.rs:2176-2418 | any number of siblings with files apart, committed in turn: the parent shows every file that any of them published; under main, if no tombstone, hide rule or file of main is in the way |
| Siblings.SiblingFilesStay | src/branch.rs:2176-2418 | and if each edited over what the parent showed, its own content: a commit that finds the parent changed loses none of its edits and none of the earlier ones |
| CommitSteps.MergeInto | src/branch.rs:2314-2327 | success leaves exactly the specified tree; a failure is a broken staging, rolled back, or a failed publish, with every copy whose path was not deleted in place; without a fault it ends as some order of the deletions and copies decides |
| CommitSteps.ChooseSource | src/branch.rs:2247-2310 | the method chooses the content that `CommitContent.PublishedContent` describes |
| CommitSteps.FoldTombs | src/branch.rs:2377-2410 | the loops keep a child's tombstone exactly where the parent inherits the path, and none at a committed file |
| CommitSteps.ReadyPairCanMerge | src/branch.rs:2373-2401 | along a ready chain no merge into a parent can fail |
| CommitSteps.ReadyBaseCanMerge | src/branch.rs:2314-2327 | and neither can the last one, into the base tree |
| CommitSteps.ReadyChainCommits | src/branch.rs:2176-2418 | so by induction a ready chain whose tombstones lie apart from its files is committed to the end, no merge failing in any order, and main then shows what the deepest branch showed |
| Manager.BranchManager.constructor | src/branch.rs:1217-1268 | a store has the branches found on disk and main; main shows the base tree if it was not among them |
| Manager.FreshStoreOk | src/branch.rs:1217-1268 | a store directory without branches can be opened |
| Manager.BranchManager.ResolvePath | src/branch.rs:1710-1713 | finds what the view has, or that the branch is not there |
| Manager.BranchManager.CollectNames | src/branch.rs:1705-1708 | lists the children of the directory in the view |
| Manager.BranchManager.CreateBranch | src/branch.rs:1339-1377 | refines the creation step, with its two errors |
| Manager.BranchManager.WriteDataToBranch | src/branch.rs:1809-1894 | refines the write step, result and errors included |
| Manager.BranchManager.FirstWrite | src/branch.rs:1834-1893 | goes through exactly the steps of the atomicity theorem |
| Manager.BranchManager.EnsureDeltaPathForWrite | src/branch.rs:1769-1807 | refines the open-for-write step |
| Manager.BranchManager.DeletePathInBranch | src/branch.rs:1922-1957 | refines the delete step |
| Manager.BranchManager.RmdirPathInBranch | src/branch.rs:1959-2008 | refines the rmdir step |
| Manager.BranchManager.RevertPathInBranch | src/branch.rs:2010-2043 | refines the revert step |
| Manager.BranchManager.RenamePath | src/fs.rs:1607-1684 | refines the rename step |
| Manager.BranchManager.SetFrozen | src/branch.rs:2061-2089 | main cannot be frozen or thawed, any other live branch can |
| Manager.BranchManager.AbortBranch | src/branch.rs:2443-2465 | only a leaf other than main goes, and nothing else changes |
| Manager.BranchManager.CommitBranch | src/branch.rs:2176-2418 | success is a done commit of the chosen content; a refusal changes nothing; a failed merge touches only its destination; without a fault it ends as some order of its deletions and copies decides |
| Manager.CommitEndsIff | src/branch.rs:2314-2327 | a commit can fail exactly when a kept file is in the way of a committed one or an existing deletion lies below one, and can succeed exactly when neither is true of the outermost deletions |
| Manager.FailedCommitLeaves | src/branch.rs:2176-2418 | what a failed commit leaves at its destination: every file after a broken staging of safe inputs, all committed files after a failed publish, and always the latter when no copy fails and no kept file is in the way |
| CommitSteps.PrunedAllIsHollow | src/branch.rs:2402-2404 | pruning above the recorded deletions takes away exactly the directories in which only untouched directories above deleted entries are left, whatever the order of the deletions |
| CommitSteps.PruneAbove | src/branch.rs:2402-2404 | the loop over the recorded deletions prunes above each of them |
| CommitSteps.PruneEmptyDeltaParents | src/branch.rs:1896-1920 | the loop removes the empty untouched directories upwards from its start |
| Examples.ReadyChain | src/branch.rs:2176-2418 | a chain with deltas and deletions at every level that meets the premises of the chain theorem and of its merges |
| Examples.DeletedBelowNewFile | src/branch.rs:341-351 | an input on which publishing fails after its renames |
| Examples.FailedPublishReplaces | src/branch.rs:341-368 | on that input the failed commit leaves the new file in place and the old one gone |
| Examples.OrderDecides | src/branch.rs:2317-2327 | two nested deletions and a copy between them: the merge goes through in one order and fails in the other |
| Examples.InnerFirstIsLost | src/branch.rs:363-366 | two nested deletions in the order in which dropping the merge loses the inner file |
| Examples.OuterFirstComesBack | src/branch.rs:363-366 | and in the order in which it does not |
| Examples.CopyBlocksReturn | src/branch.rs:353-368 | a copy staged below a deleted file keeps the file from coming back |
| Examples.SiblingsKeepBothEdits | src/branch.rs:2195-2265 | two siblings committed in turn: the second finds main changed, and main has the edits of both |
| Examples.FilelessDirMasks | src/branch.rs:2366-2418 | a file-less directory of the child over a file of the parent, which shows after the commit |
| Examples.HiddenStaysInParent | src/branch.rs:2366-2418 | a file that the child hides and the parent shows after the commit |
| Examples.EmptyDirUncovers | src/branch.rs:1896-1920 | an empty delta directory whose removal shows an inherited file |
| Examples.DeleteUncovers | src/branch.rs:1922-1957 | a delete that makes an inherited file appear at the parent directory |
| Examples.RevertUncovers | src/branch.rs:2010-2043 | and a revert that does |
| Examples.DeletedInMain | src/branch.rs:2329-2334 | an input on which a base commit does not show a committed file |
| Examples.WriteOverDeleted | src/branch.rs:1834-1866 | an input on which a write brings deleted bytes back |
| Examples.OpenBringsBack | src/branch.rs:1769-1807 | an input on which opening brings a deleted file back |
| Examples.OpenBringsDirBack | src/branch.rs:1787-1805 | and one on which opening a deleted directory brings its files back |
| Examples.MoveOntoTombstone | src/fs.rs:1673-1684 | a directory move that leaves a moved file under a tombstone |
| Examples.CrashReplaysLog | src/branch.rs:1122-1133 | a crash inside the tombstone rewrite that brings a tombstone back |
| Examples.CarriageReturnLost | src/branch.rs:816-847 | an input on which the migration changes a path |
| TextMerge.TieExample | src/branch.rs:600-612 | an input on which the line merge fails |

## Left out

- FUSE callbacks other than rename, reply objects, inodes, passthrough, the control file, file-descriptor caches, notifiers, cache invalidation, the daemon, the command line and the Python package: wrappers around the manager.
- Branch name and size parsing: branch names are taken as valid; a call with an invalid name changes nothing.
- Permissions, owners and non-UTF-8 names: paths are sequences of components and the guards that make unreadable directories readable are not modelled.
- Modification times: a parameter of the commit says for which paths they differ from the recorded ones, and every statement holds for each value of it.
- Symlinked directories and writes through symlinks: a symlink is a leaf. The path locks are taken as one per path, so calls on a path come one after the other.
- Hash keys of kept base contents: the content is part of the touch record, the separate content files are not modelled. The UTF-8 check on texts is left out, the size bound and the NUL check are kept.
- The JSON text of touch records and branch metadata, and errors of the operating system outside the staging of copies.
- Quota across commit, abort and rename: the code does not count these bytes, so nothing is claimed. The sum in the quota check is taken as unbounded, after a negative count has been read as an unsigned number.
- The lists of automatic merges and conflicts that a commit reports: what is published is modelled, the report is not.
- User files named like the side files of a merge: `Manager.BranchManager.CommitBranch` and the merge theorems require that there are none.
- Aliasing between a running merge and the manager's trees: the merge object holds its destination tree as a field and the manager takes the tree over when the merge ends. In the same way the manager holds branches as values, and the files behind a branch's tombstones and touch records are in `BranchRecords.Branch`.
- Chain.ChainCommitPreservesView: is about chains without hide rules; one commit of a branch with hide rules is in `Commit.NestedCommitPreservesView`.
- ChainRun.CommitsUpPreserveView: asks that the branch and all above it but main inherit live; a Snapshot branch elsewhere does not matter.
- EditRuns.RevertUndoesRun: delta files are compared, not empty delta directories, which the prune may remove above the path.
- BranchRuns.MixedRunKeepsTombsMinimalIff: a nested commit is a step when it goes through; what a failed one leaves is in `FailedMerges`.
- Rename.RenameIsExact: is about files and symlinks; directories are in `Rename.MovedDeltaShows`, path by path.
- Runs.RunIsolated: a commit that fails counts as modifying its destination.
- BranchRecords.Branch.constructor: asks that the touch snapshot files each record under its own path. The calls that append to the log ask that it ends with its last newline, which loading keeps.
- Store.ViewPrefixClosed: like all view laws it is told with the prefix test on hidden paths; for a path ending in white space the code's test differs as `PathText.HiddenIsCoveredIff` says.
- Manager.BranchManager.WriteDataToBranch: asks that no symlink is inherited at a path without a delta; the code would copy the link up and write through it.
- Manager.BranchManager.constructor: asks that the branches on disk have their parents there; branch directories that cannot be loaded are left out of the branches found.
- BranchRecords.Branch.RemoveTombstonesUnder: asks that the removed lines can be written in a line, as those of the store's own paths can.
