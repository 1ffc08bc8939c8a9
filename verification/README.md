# chainbase: undo sessions, proved

chainbase keeps typed tables in a memory-mapped file and lets a program open nested undo sessions over
them. This project models that machinery in Dafny and proves what it promises, for all inputs and all runs.
Where the code keeps less than it promises, the exact condition is proved. Every operation keeps the
whole invariant of a table but, after a reverted `modify`, the uniqueness of keys; undo then goes back to the
saved table but for objects that it loses because their keys are taken, which are named exactly; and over every
run of the code, each object follows the stack of its snapshots but for the steps that disturb or lose it.

## What is modelled

* **The table with undo sessions** (`include/chainbase/undo_index.hpp`). `UndoIndex.Table` is the class in
  its own form: a memory of nodes by address, a memory of backups, one ordered index per key, the two delta
  lists, the stack of marks, and the counters. Every operation works in place, with the loops of the source.
  Each method is proved to do what a function of `UndoModel` says, and those functions are proved to refine a
  stack of full snapshots (`UndoRefinement`): start pushes a copy, undo drops the last snapshot, squash drops
  the last but one, commit drops the oldest ones.
  * `UndoInvariant` holds the invariant. Everything it says about a session below the top is said about the
    table that undo would give, so one clause about the top session covers all levels.
  * `UndoLeaks` takes the invariant apart: what every operation keeps, and the uniqueness of keys in saved
    tables, which holds exactly as long as no value leaks into one that it does not fit.
  * `UndoLosses` says which objects undo loses, and when the table can go on without them.
  * `UndoLayout`, `UndoMemory`, `SquashMemory` and `CommitMemory` relate memory, lists and marks to the
    sessions, phase by phase.
  * `UndoExactness` says exactly when the refinement holds, and what a session gives its user.
    `UndoRuns` says it of all runs of the code, whatever is reverted or lost in them, object by object.
  * `UndoStamps` says what time stamps and ids tell over all sessions at once, `UndoConflicts` how a `modify` that
    meets a conflict ends, `UndoBackups` where the node of a backup is.
  * `OrderedIndex` is one index as the sequence of its nodes' addresses.
* **The database** (`chainbase.hpp`, `chainbase.cpp`). `Database` has the classes with their loops;
  `DatabaseModel` proves that the tables stay in lockstep and that the database as a whole is one stack of
  snapshots, to which a table added late belongs as if it had been there, empty, from the start.
  `DatabaseRuns` has the runs in which modifies are reverted and objects lost.
* **Shared vectors and strings** (`shared_cow_vector.hpp`, `shared_cow_string.hpp`). `CowVector.Store` is the
  memory that the handles live in; raw and constructed places are told apart, so that constructing or
  destroying twice cannot verify. `CowString` has what strings do otherwise, and their order.
* **The free list** (`chainbase_node_allocator.hpp`): `NodeAllocator`.
* **Write-back** (`pagemap_accessor.hpp`, `pinnable_mapped_file.cpp`): `PageWriteback` has the loops over
  arrays of bytes, `InstanceTracker` the rule by which several copy-on-write instances share the soft-dirty
  bits of one process.
* **Packed links** (`undo_index.hpp`): `PackedLinks` has the 42-bit relative links of the index nodes.

An index is a sequence of nodes, sorted and complete; it is strictly sorted exactly when the keys are unique. A
node that undo has lost stays in memory although nothing leads to it; it moves from `nodes` to `leaked`.

A singly linked list is a sequence whose last element is the head of the list, so that pushing and popping
leave the positions of the others alone. Where the allocator would put a new node, backup or block is a
parameter of the method, required only not to be in use. The value that a user's function leaves in an object
is a parameter too.

## Where the code says less than its documentation

* A `modify` that fails and is reverted pops its backup but keeps the raised time stamp. A later `modify` of
  the same object in the same session then leaves no backup, and undo does not bring the old value back
  (`UndoExactness.RevertedThenModifiedIsLost`). `ModifyExact`, `SquashExact` and `SquashFastExact` give the exact
  conditions; `UnrevertedRunsRefine` and, for the database, `DbUnrevertedRunsRefine` show that runs without
  reverted modifies need no condition at all.
* The comment in undo that uniqueness is guaranteed to be fixed (`undo_index.hpp:596`) is too strong. The value
  that stays may have the key of an object that undo puts back. If that one was changed, two objects keep one
  key in a unique index (`UndoExactness.RevertedThenModifiedDuplicates`); if it was removed, `insert_impl` fails,
  its result is ignored, and the object is in no index any more (`UndoMemory.RevertedThenModifiedLoses`), although
  no step has disturbed it (`UndoRuns.UndisturbedIsLost`). Only objects that share a key in the saved table can be
  lost, and they are lost if the other one was not removed (`UndoLosses.LostShare`); between two removed objects
  the order of their removal decides (`UndoMemory.BackInOrder`). A table stays free of saved tables with duplicates
  exactly as `UndoLeaks.ModifyWfExact` and `SquashWfExact` say.
* The assertion in `modify` that a revert succeeds (`undo_index.hpp:389`) fails for an object that shares a key with
  another, as two objects may after such an undo; it holds exactly otherwise (`UndoIndex.Table.Revert`).
* The comment that every key in `old_values` is in the table or in `removed_values` (`undo_index.hpp:318`) is
  too strong for two reasons. After `squash_fast` a session may hold a backup of an object that is new to it, and
  removing the object frees its node (`UndoBackups.SquashFastOrphans`); and an undo may lose an object of which
  a session below has a backup (`UndoOrphans`). `StepNodes` says for every operation exactly when it breaks what
  the comment says, and `RunNodes` that it holds over every run without `squash_fast` and such an undo. As long
  as no such undo has happened, only backups of new objects can lack their node (`OnlyNewMayLack`), and every
  backup that undo would use has one (`SturdyReached`, and `UndoLayout.Live` in memory). Apart from that, a partial
  commit keeps one entry that no session owns in each list; at most one lies below all marks (`UndoLayout.Cuts`).
* `squash` with one session on the stack discards all history and lowers the revision, and restores nothing.
  The specification `UndoRefinement.SpecSquash` says so.
* A chunk that has become all zeros is not written when saving by chunks, and the file keeps its old
  content (`PageWriteback.ZeroedChunkIsNotSaved`); `SavedByChunks` and `InstanceTracker.ClosingUntracked` give the
  exact condition.
* `check_pagemap_support_and_clear_refs` says that it clears the soft-dirty bits, but only its first call in a
  process does, if clearing works (`pagemap_accessor.hpp:36-53`, `InstanceTracker.OnlyFirstOpenClears`). Instances
  opened later keep the bits that their mapping gave them, and write-back is right all the same (`StepOk`,
  `ClosingSaves`).
* The README of the repository shows `ordered_non_unique`; the code accepts unique indices only, and so does
  the model.

## Model

| member | source | states |
|---|---|---|
| UndoRefinement.StepRefines | include/chainbase/undo_index.hpp:354-676 | every operation keeps the invariant and does to the current and all saved tables exactly what the stack of full snapshots does |
| UndoRefinement.RunRefines | include/chainbase/undo_index.hpp:298-335 | the same over every run: each state of the run is well-formed and each step is a step of the snapshot stack |
| UndoRefinement.EmplaceRefines | include/chainbase/undo_index.hpp:354-372 | a new object gets the next id in the current snapshot only if its keys are free; a conflict changes no snapshot |
| UndoRefinement.RemoveRefines | include/chainbase/undo_index.hpp:408-414 | remove takes the object out of the current snapshot and leaves the saved ones |
| UndoRefinement.ModifyRefines | include/chainbase/undo_index.hpp:378-406 | modify changes the current snapshot only; a conflict removes the object if no session is open, or if it differs from the last saved table or is not in it, and otherwise may also leave everything as it was |
| UndoRefinement.StartRefines | include/chainbase/undo_index.hpp:681-688 | starting a session saves a copy of the current snapshot without copying anything |
| UndoRefinement.UndoRefines | include/chainbase/undo_index.hpp:575-617 | undo makes the last saved snapshot the current one |
| UndoRefinement.SquashFastRefines | include/chainbase/undo_index.hpp:624-632 | squash_fast drops the last saved snapshot and no other |
| UndoRefinement.SquashRefines | include/chainbase/undo_index.hpp:634-639 | squash with compression has the same effect on all snapshots |
| UndoRefinement.CompressRefines | include/chainbase/undo_index.hpp:641-643 | compressing the last session changes no snapshot |
| UndoRefinement.CommitRefines | include/chainbase/undo_index.hpp:505-515 | commit drops the oldest snapshots and keeps the current and the later ones |
| UndoExactness.ModifyExact | include/chainbase/undo_index.hpp:385-391 | modify keeps every saved snapshot if and only if it does not give a new value to an object whose earlier modify in the session was reverted |
| UndoExactness.SquashExact | include/chainbase/undo_index.hpp:634-677 | squash keeps the remaining snapshots if and only if each object so poisoned in the session below still has the value that session knows |
| UndoExactness.SquashFastExact | include/chainbase/undo_index.hpp:624-632 | the same condition for squash_fast, which saves the same tables as squash |
| UndoExactness.RevertedThenModifiedIsLost | include/chainbase/undo_index.hpp:385-391 | a concrete run in which a reverted modify followed by another one makes undo restore the wrong value |
| UndoExactness.RevertedThenModifiedDuplicates | include/chainbase/undo_index.hpp:586-600 | a concrete run of a reverted modify, a modify of another object and a second modify of the first, after which undo leaves two objects with one key in a unique index |
| UndoExactness.StepNoPoison | include/chainbase/undo_index.hpp:378-406 | only a reverted modify can poison an object; every other operation keeps all sessions free of poison |
| UndoExactness.UnrevertedRunIsSafe | include/chainbase/undo_index.hpp:298-335 | a run in which no modify is reverted meets the conditions of every step |
| UndoExactness.UnrevertedRunsRefine | include/chainbase/undo_index.hpp:298-335 | from an empty table every run without reverted modifies is a run of the snapshot stack |
| UndoExactness.SessionUndone | include/chainbase/undo_index.hpp:446-480 | start a session, do anything inside it, undo it: current table, next id and all older snapshots are as before |
| UndoExactness.SessionSquashed | include/chainbase/undo_index.hpp:446-480 | start a session, do anything inside it, squash it: only the current table has changed |
| UndoRuns.WfDoes | include/chainbase/undo_index.hpp:354-676 | under the whole invariant the assertion in modify holds, nothing is lost, and every operation does exactly the step of the model |
| UndoRuns.SafeRunIs | include/chainbase/undo_index.hpp:298-335 | so the safe runs of the model are exactly the runs of the code |
| UndoRuns.StepSturdy | include/chainbase/undo_index.hpp:354-676 | every operation of the code keeps the invariant but for keys, whatever was reverted or lost before, if and only if it is not an undo that loses an object of which a remaining session has a backup |
| UndoRuns.RunSturdy | include/chainbase/undo_index.hpp:298-335 | so does every run of the code, up to such an undo |
| UndoRuns.SafeIs | include/chainbase/undo_index.hpp:385-391 | an operation is unsafe if and only if it disturbs some object: it gives a poisoned object a new value, or squashes one in |
| UndoRuns.OverlaidLevels | include/chainbase/undo_index.hpp:586-605 | rows written over a table leave all snapshots of an object as they were if and only if its row has the value it had |
| UndoRuns.StepObject | include/chainbase/undo_index.hpp:354-676 | for each object, a step of the code is a step of the stack of snapshots of that object if and only if it does not disturb it, and is not an undo that loses it |
| UndoRuns.UndoneObject | include/chainbase/undo_index.hpp:575-617 | undo gives back the snapshots of an object, in the current and in every older table, if and only if it does not lose it |
| UndoRuns.RunObject | include/chainbase/undo_index.hpp:298-335 | the same at every step of every run of the code |
| UndoRuns.SessionObjectUndone | include/chainbase/undo_index.hpp:446-480 | start a session, do anything inside it, undo it: every object that no step disturbed and no undo lost, the closing one included, is what it was, in the current and in every older table |
| UndoRuns.UndisturbedIsLost | include/chainbase/undo_index.hpp:606-613 | a concrete run of the code in which no step disturbs an object, and the closing undo loses it whatever its result |
| UndoExactness.DeltaIsExact | include/chainbase/undo_index.hpp:552-563 | after compression, new, removed and old values are exactly the difference between the table and its snapshot, each id once |
| UndoInvariant.EmplaceWf | include/chainbase/undo_index.hpp:354-372 | emplace keeps the invariant at every level |
| UndoInvariant.RemoveWf | include/chainbase/undo_index.hpp:408-414 | remove keeps the invariant at every level |
| UndoInvariant.ModifyWf | include/chainbase/undo_index.hpp:378-406 | a modify that gives no new value to a poisoned object keeps the invariant at every level, whichever way it ends |
| UndoInvariant.StartWf | include/chainbase/undo_index.hpp:681-688 | starting a session keeps the invariant |
| UndoInvariant.SquashFastWf | include/chainbase/undo_index.hpp:624-632 | merging two sessions that may both back up one key keeps the invariant |
| UndoInvariant.MergeBefore | include/chainbase/undo_index.hpp:587-594 | in two merged sessions the stamp test picks, for every id, the row that undoing the two one after the other gives, except for poisoned ids |
| UndoInvariant.CompressedWf | include/chainbase/undo_index.hpp:657-677 | compression keeps the invariant and the table that undo gives |
| UndoInvariant.SquashWf | include/chainbase/undo_index.hpp:634-639 | squash keeps the invariant and gives what squash_fast gives under undo |
| UndoInvariant.KeptOldest | include/chainbase/undo_index.hpp:660-671 | the backups that compression keeps include the one that undo would use, for every id that is not gone |
| UndoInvariant.CommitWf | include/chainbase/undo_index.hpp:505-515 | commit keeps the invariant |
| UndoInvariant.KeepUndo | include/chainbase/undo_index.hpp:505-515 | dropping the oldest sessions commutes with undo |
| UndoInvariant.CommitKeeps | include/chainbase/undo_index.hpp:505-515 | the branches of commit keep exactly the sessions that started at the revision or later |
| UndoInvariant.RaisedWf | include/chainbase/undo_index.hpp:681-688 | raising stamps and the clock, as a reverted modify does, harms no level |
| UndoLeaks.WfIs | include/chainbase/undo_index.hpp:298-335 | the invariant is what every operation keeps, and unique keys in every table that undo can reach |
| UndoLeaks.ModifySturdy | include/chainbase/undo_index.hpp:378-406 | any modify, poisoned or not and whichever way it ends, keeps the invariant but for keys |
| UndoLeaks.ModifyWfExact | include/chainbase/undo_index.hpp:378-406 | modify keeps every saved table unique if and only if the new value fits each saved table that it leaks into for want of a backup |
| UndoLeaks.OverlayUndo | include/chainbase/undo_index.hpp:586-605 | what is written over a table without backups leaks into the saved one at exactly the old objects that the session has no usable backup of |
| UndoLeaks.SquashFastSturdy | include/chainbase/undo_index.hpp:624-632 | squash_fast keeps the invariant but for keys, also with poisoned objects |
| UndoLeaks.SquashSturdy | include/chainbase/undo_index.hpp:634-639 | squash keeps the invariant but for keys, and undoes to what squash_fast undoes to |
| UndoLeaks.SquashFastWfExact | include/chainbase/undo_index.hpp:624-632 | squash_fast keeps every saved table unique if and only if the rows of poisoned objects fit each saved table that they leak into |
| UndoLeaks.SquashWfExact | include/chainbase/undo_index.hpp:634-639 | the same for squash |
| UndoLosses.LostShare | include/chainbase/undo_index.hpp:606-613 | undo can lose only objects that it puts back and that share a key in the saved table, and loses those whose key belongs to an object that was not removed |
| UndoLosses.NothingIsLost | include/chainbase/undo_index.hpp:606-613 | undo loses nothing if and only if no object that it puts back shares a key |
| UndoLosses.AllUniqueLosesNone | include/chainbase/undo_index.hpp:606-613 | where all saved tables are unique, no undo loses an object |
| UndoLosses.UndoEnds | include/chainbase/undo_index.hpp:606-613 | in every state there are objects that undo may lose, and so a result |
| UndoLosses.WfUndoes | include/chainbase/undo_index.hpp:575-617 | under the whole invariant what undo does is what the model says |
| UndoLosses.LessSturdy | include/chainbase/undo_index.hpp:586-605 | without some objects the invariant but for keys goes on if and only if no session has a backup of them that is not new to it |
| UndoLosses.AllUndoneIs | include/chainbase/undo_index.hpp:568-572 | undo_all does what the model says where no undo on the way loses an object |
| UndoStamps.StampsTell | include/chainbase/undo_index.hpp:587-594 | for an object older than a session and not poisoned in any, whatever has happened to others, the stamp of its node is at least the start of the session if and only if the sessions from it on hold a backup saved before that start; then exactly one, which is the oldest of the object there; and undoing these sessions gives the row of that backup, or without one the row of the node |
| UndoConflicts.ConflictEnds | include/chainbase/undo_index.hpp:378-406 | start a session, do anything in it, then let a modify in it meet a conflict: the object can only be removed if it is new to the session or modify was called on it there before, even in vain; if nothing was undone in the session, it then is; otherwise the table stays as it was |
| UndoConflicts.OnlyTouched | include/chainbase/undo_index.hpp:748-774 | at every state of such a run, whatever is undone, squashed or lost in it, only objects that are new to the session, or on which modify was called in it, have a stamp from the session, in the table, the removed nodes or the backups |
| UndoConflicts.TouchedIsStamped | include/chainbase/undo_index.hpp:755-774 | if nothing is undone in the session, all of these in the table have one |
| UndoConflicts.OpenKeeps | include/chainbase/undo_index.hpp:624-632 | a session keeps its start time and first id through every operation, also when others are squashed into it or committed below it |
| UndoStamps.NewIsStamped | include/chainbase/undo_index.hpp:748-753 | an object that is new to any session on the stack is stamped at or after its start |
| UndoStamps.CountSingle | include/chainbase/undo_index.hpp:587-594 | in one session at most one backup of an id was saved before any earlier time, and it is the oldest |
| UndoStamps.IdNotReused | include/chainbase/undo_index.hpp:303-306 | over every run of the code, whatever is reverted or lost in it, an id that was given out is not given out again before an undo that takes its insertion back |
| UndoStamps.CommitBottom | include/chainbase/undo_index.hpp:505-515 | the bottom revision after commit is the larger of the old bottom and the smaller of the argument and the revision |
| UndoLayout.SturdySane | include/chainbase/undo_index.hpp:681-688 | up the stack start times strictly increase and next ids never decrease; usable backups are of ids not new to their session |
| UndoBackups.SturdyReached | include/chainbase/undo_index.hpp:798-804 | the node of a backup that is usable, or of an object not new to the session of the backup, is in the table or was removed in the same or a later session, so a commit never frees it |
| UndoBackups.OnlyNewMayLack | include/chainbase/undo_index.hpp:318-318 | as long as no lost object has a backup, every backup has its node in the table or among the removed ones if and only if those of objects new to the session of the backup have |
| UndoBackups.StepNodes | include/chainbase/undo_index.hpp:354-676 | an operation of the code keeps this if and only if it does not free or lose the node of a backup: remove, or modify erasing, of an object that is new to the top session and backed up in it; squash, where the session below holds a backup of an object new to it that the top session has removed; undo, where it loses an object of which a remaining session has a backup |
| UndoBackups.SquashFastOrphans | include/chainbase/undo_index.hpp:624-632 | a concrete run with squash_fast after which a backup belongs to no node |
| UndoBackups.UndoOrphans | include/chainbase/undo_index.hpp:606-613 | a concrete run of the code without squash_fast, after which a backup is of an object that undo has lost |
| UndoBackups.RunNodes | include/chainbase/undo_index.hpp:318-318 | over every run of the code without squash_fast every backup has its node, up to an undo that loses an object of which a remaining session has a backup |
| CommitMemory.CommitDone | include/chainbase/undo_index.hpp:505-515 | freeing what lies behind the marks, and one entry less, leaves a layout of the kept sessions |
| SquashMemory.CompressDone | include/chainbase/undo_index.hpp:657-677 | the two filtered lists, the folded nodes and the unchanged indices are a layout of the compressed sessions |
| SquashMemory.MergedStored | include/chainbase/undo_index.hpp:624-632 | forgetting a mark is all that squash_fast has to do |
| SquashMemory.FilterStep | include/chainbase/undo_index.hpp:661-671 | one step of the first filter drops, folds or keeps a backup, and its node is there whenever it is looked at |
| UndoMemory.UndoDone | include/chainbase/undo_index.hpp:575-617 | the memory after the three phases, with the cut lists and all removed nodes put back, is a layout of the saved table |
| UndoMemory.RestoreDone | include/chainbase/undo_index.hpp:586-605 | after the second phase the names and the removed nodes are in order, and if all of them went back, two nodes would share a key if and only if the saved table is not unique |
| UndoMemory.RestoredStrict | include/chainbase/undo_index.hpp:596-605 | if the final memory has no two nodes with one key, the duplicates are gone as soon as all backups are written back |
| UndoMemory.UndoneTwins | include/chainbase/undo_index.hpp:575-617 | with all removed nodes put back, two nodes share a key if and only if the keys of the saved table are not unique |
| UndoMemory.ReviveReady | include/chainbase/undo_index.hpp:606-613 | one step of putting nodes back: the node goes into the indices if and only if its id is not new and its keys are free among the nodes that are in them |
| UndoMemory.BackExact | include/chainbase/undo_index.hpp:606-613 | of the nodes that undo tries to put back, exactly those are in the indices in the end whose keys no other node there has |
| UndoMemory.BackInOrder | include/chainbase/undo_index.hpp:606-613 | whether a removed node goes back depends on the nodes that were never removed and on those removed after it that went back, and on no other: it does if and only if it shares no key with them |
| UndoMemory.StrandedLoses | include/chainbase/undo_index.hpp:606-613 | the objects whose nodes stay out are those that undo may lose |
| UndoMemory.UndoFinish | include/chainbase/undo_index.hpp:575-617 | without the lost nodes the memory is a layout of the saved table without the lost objects, unless a session has a backup of one of them |
| UndoMemory.RevertedThenModifiedLoses | include/chainbase/undo_index.hpp:606-613 | a concrete table, however it lies in memory, on which the insert_impl of undo returns false, so that the object put back is in no index; undo of it may lose nothing but this object |
| UndoMemory.OthersUntouched | include/chainbase/undo_index.hpp:586-605 | removed nodes of other sessions are not written to by undo |
| UndoMemory.AtMark | include/chainbase/undo_index.hpp:819-842 | popping a list stops exactly at the mark of the session |
| OrderedIndex.FixUniqueCorrect | include/chainbase/undo_index.hpp:706-737 | one level of post_modify<true> succeeds if and only if no other node has the key; it sorts the index either way, strictly if the other nodes were and it succeeds, and moves no other node; after a failure the node stands directly before the one that has its key |
| OrderedIndex.PlaceUnique | include/chainbase/undo_index.hpp:706-737 | there is only one place for a node whose key is free, so that a revert gives back the index as it was |
| OrderedIndex.InPlaceExact | include/chainbase/undo_index.hpp:709-719 | comparing with the two neighbours detects exactly a node that is out of place or shares its key, also where other keys are duplicated |
| OrderedIndex.FixEqualCorrect | include/chainbase/undo_index.hpp:706-737 | one level of post_modify that tolerates duplicates keeps the nodes and sorts them, puts the node behind those with its key, and moves no other |
| OrderedIndex.InsertUniqueCorrect | include/chainbase/undo_index.hpp:690-703 | insert_unique inserts if and only if the key is free, and keeps the index sorted, strictly if it was, which is in ascending order of the ids or of the keys themselves |
| OrderedIndex.SortedAscending | include/chainbase/undo_index.hpp:173-173 | for nodes that have the key, an index is sorted if and only if their ids, or the keys in their values, ascend |
| Tables.KeysTell | include/chainbase/undo_index.hpp:690-703 | a value fits a table, and a table is unique, if and only if the keys in the values themselves differ |
| OrderedIndex.SortedUniqueStrict | include/chainbase/undo_index.hpp:597-600 | a sorted index without twins is strictly sorted |
| UndoIndex.Table.constructor | include/chainbase/undo_index.hpp:256-257 | a new table is valid and empty |
| UndoIndex.Table.InsertImpl | include/chainbase/undo_index.hpp:690-703 | inserts into all indices from n on, or into none of them after unwinding: it succeeds if and only if insert_unique does in each, whatever state the indices are in |
| UndoMemory.InsertedAll | include/chainbase/undo_index.hpp:690-703 | with the indices sorted and complete, duplicates of other keys or not, it succeeds if and only if every key is free, and keeps them so |
| UndoIndex.Table.EraseImpl | include/chainbase/undo_index.hpp:739-746 | takes the node out of every index and leaves the rest sorted, and strictly sorted where it was, even if the node is misplaced |
| UndoIndex.Table.PostModifyUnique | include/chainbase/undo_index.hpp:706-737 | succeeds if and only if the new keys are free, and then all indices are sorted; on a failure at any index the other nodes stay where they were |
| UndoIndex.Table.PostModifyEqual | include/chainbase/undo_index.hpp:706-737 | moves the node to its place in every index where duplicates may exist for a while |
| UndoIndex.Table.Emplace | include/chainbase/undo_index.hpp:354-372 | does the step of the model and keeps the table valid; the node gets the next id, and the clock as its stamp if a session is open; after a conflict all fields are as before the call |
| UndoIndex.Table.OnModify | include/chainbase/undo_index.hpp:755-774 | makes a backup exactly when the node was last stamped before the top session |
| UndoIndex.Table.TryChange | include/chainbase/undo_index.hpp:378-384 | the backup if one is needed, the change and the search for a place in each index; it succeeds if and only if the new keys are free |
| UndoIndex.Table.Revert | include/chainbase/undo_index.hpp:385-391 | the second post_modify, and so the assertion, succeeds if and only if no other object has a key of the old value; then indices, lists and values are the original ones |
| UndoIndex.Table.Modify | include/chainbase/undo_index.hpp:378-406 | does the step of the model in all three outcomes, also on tables with duplicates, and keeps the table valid unless the assertion in the revert fails. It succeeds if and only if no other object has a key of the new value; after a conflict the object is gone if no session is open or its stamp is not older than the session, and otherwise has its old value; no other object changes. All saved tables stay unique if and only if the change leaks into none that it does not fit; a revert restores every field but the stamp |
| UndoIndex.Table.Remove | include/chainbase/undo_index.hpp:408-414 | does the step of the model and keeps the table valid; the node waits in the list of removed ones if its id is older than the session, and is freed otherwise, or without a session |
| UndoIndex.Table.Unlink | include/chainbase/undo_index.hpp:844-856 | removes also an object that a failed modify left out of place |
| UndoIndex.Table.StartSession | include/chainbase/undo_index.hpp:681-688 | does the step of the model and keeps the table valid |
| UndoIndex.Table.EraseNew | include/chainbase/undo_index.hpp:579-584 | first phase of undo: exactly the nodes with new ids leave all indices and are freed |
| UndoIndex.Table.RestoreOld | include/chainbase/undo_index.hpp:586-605 | second phase: the nodes are those with the oldest usable backup of each id written back, and the list ends at the mark |
| UndoIndex.Table.Reinsert | include/chainbase/undo_index.hpp:606-613 | last phase of undo: exactly the nodes whose keys are free when their turn comes go back; all indices are sorted and hold exactly the nodes of the table |
| UndoIndex.Table.Undo | include/chainbase/undo_index.hpp:575-617 | from indices that may hold duplicates: the table is the saved one but for the lost objects, every index is sorted and holds exactly its objects, and everything is in order again if and only if no remaining session has a backup of a lost object |
| UndoIndex.ShownIndices | include/chainbase/undo_index.hpp:597-600 | every index holds exactly the objects of the table, and is strictly sorted if and only if their keys are unique |
| UndoIndex.ShownOrder | include/chainbase/undo_index.hpp:173-173 | in every table, index 0 is in strictly ascending order of the ids and index k in ascending order of the keys in the values, strictly if the keys are unique; every node in an index has the value of its object |
| UndoIndex.UndoneIndices | include/chainbase/undo_index.hpp:606-613 | after undo, whatever else is lost, an object of the saved table that was not removed or shares no key is in every index, and one put back whose key belongs to an object that was not removed is in none |
| UndoIndex.Table.UndoAll | include/chainbase/undo_index.hpp:568-572 | undoes until no session is left, losing what each undo loses, and the table is in order in the end |
| UndoIndex.Table.DisposeUndo | include/chainbase/undo_index.hpp:805-808 | frees every backup and every removed node and nothing else |
| UndoIndex.Table.SquashFast | include/chainbase/undo_index.hpp:624-632 | does the step of the model in memory, lists and indices; with `UndoLeaks.SquashFastSturdy` and `SquashFastWfExact` that says when the invariant is kept |
| UndoIndex.Table.FilterOld | include/chainbase/undo_index.hpp:660-671 | the loop leaves the kept backups in order and folds the others of removed nodes into them |
| UndoIndex.Table.FilterRemoved | include/chainbase/undo_index.hpp:672-676 | the loop frees exactly the removed nodes with new ids |
| UndoIndex.Table.CompressImpl | include/chainbase/undo_index.hpp:657-677 | does the step of the model |
| UndoIndex.Table.CompressLast | include/chainbase/undo_index.hpp:641-643 | does the step of the model and keeps the table valid |
| UndoIndex.Table.Squash | include/chainbase/undo_index.hpp:634-639 | does the step of the model and keeps the table valid; all saved tables stay unique if and only if what leaks into them fits |
| UndoIndex.Table.LastSession | include/chainbase/undo_index.hpp:552-563 | the three ranges it returns are exactly the difference between the table and its snapshot |
| UndoIndex.Table.Dispose | include/chainbase/undo_index.hpp:798-804 | frees what lies behind the marks of a session; the marks themselves stay |
| UndoIndex.Table.Commit | include/chainbase/undo_index.hpp:505-515 | does the step of the model and keeps the table valid |
| UndoIndex.Table.SetRevision | include/chainbase/undo_index.hpp:488-496 | succeeds if and only if there is no session and the revision is not above the new one, which the table then has; otherwise nothing changes |
| UndoIndex.Table.RevisionRange | include/chainbase/undo_index.hpp:498-500 | gives the revisions that undo can reach, none of them negative |
| DatabaseModel.DbStepRefines | src/chainbase.cpp:26-80 | every database operation keeps the tables in lockstep and does what one stack of snapshots of all tables does |
| DatabaseModel.DbRunRefines | src/chainbase.cpp:26-80 | the same over every run, with tables added on the way |
| DatabaseModel.DbUnrevertedRunIsSafe | src/chainbase.cpp:26-80 | a database run in which no modify is reverted meets the conditions of every step |
| DatabaseModel.DbUnrevertedRunsRefine | src/chainbase.cpp:26-80 | from the empty database every run without reverted modifies is a run of one stack of snapshots of all tables |
| DatabaseModel.DbSquashExact | src/chainbase.cpp:36-44 | squashing all tables keeps every saved table unique if and only if it does so for each of them |
| DatabaseModel.DbWfUndoes | src/chainbase.cpp:26-34 | under the whole invariant undo of all tables does exactly what the model says, and loses nothing |
| DatabaseRuns.DbStepSturdy | src/chainbase.cpp:26-80 | every database operation that may go on keeps the tables in lockstep and the invariant but for keys of each, whatever is reverted or lost |
| DatabaseRuns.DbStepObject | src/chainbase.cpp:26-80 | for each object of each table, a database operation is a step of the stack of its snapshots if and only if it does not disturb or lose it, or does not touch its table |
| DatabaseRuns.DbSessionObjectUndone | include/chainbase/chainbase.hpp:269-306 | start a session over the database, do anything inside it, with reverted modifies, nested sessions, squashes, undos and new tables, and undo it: every object that was there, and that no step disturbed or lost, has its current and all older snapshots back |
| DatabaseModel.DbSessionUndone | include/chainbase/chainbase.hpp:269-306 | start a session over the database, do anything inside it, nested sessions, squashes, undos and new tables included, and undo it: every table that was there has its current and all older snapshots back |
| DatabaseModel.AllRefines | src/chainbase.cpp:26-67 | an operation on all tables is one step of the common snapshot stack |
| DatabaseModel.EverythingRefines | src/chainbase.cpp:56-64 | undo_all brings back the oldest snapshot of all tables |
| DatabaseModel.TableRefines | include/chainbase/chainbase.hpp:269-324 | a change of one table changes its current snapshot only, and keeps lockstep |
| DatabaseModel.AddRefines | include/chainbase/chainbase.hpp:355-392 | a table added late keeps lockstep and is empty in every older snapshot |
| DatabaseModel.CaughtUpIs | include/chainbase/chainbase.hpp:380-383 | catching up reaches exactly the range of the others, and undo finds the table empty at every level |
| DatabaseModel.AllOrNone | include/chainbase/chainbase.hpp:318-324 | set_revision is refused by all tables or by none |
| DatabaseModel.RangeStep | src/chainbase.cpp:26-52 | what an operation does to a table's revision range depends on the range alone |
| Database.IndexSession.Undo | include/chainbase/undo_index.hpp:473-476 | undoes the index once, and nothing after push, squash or undo; the index is in order if and only if no remaining session has a backup of an object that was lost |
| Database.IndexSession.Squash | include/chainbase/undo_index.hpp:469-472 | squashes the index once, and nothing after push, squash or undo |
| Database.Session.Push | include/chainbase/chainbase.hpp:280-284 | gives up every sub-session and touches no table; no sub-session will undo when it is destroyed |
| Database.Session.Squash | include/chainbase/chainbase.hpp:286-290 | squashes every table and keeps them sound; no sub-session will undo when it is destroyed |
| Database.Session.Undo | include/chainbase/chainbase.hpp:292-296 | undoes every table, each but for the objects that it loses, in lockstep; all are in order if and only if in none a remaining session has a backup of a lost object; no sub-session will undo again when it is destroyed |
| Database.Database.Revision | include/chainbase/chainbase.hpp:307-310 | -1 without tables, otherwise the revision of every table |
| Database.Database.Undo | src/chainbase.cpp:26-34 | undoes every table, each but for the objects that it loses, in lockstep; all are in order if and only if in none a remaining session has a backup of a lost object |
| Database.Database.Squash | src/chainbase.cpp:36-44 | squashes every table and keeps them sound |
| Database.Database.Commit | src/chainbase.cpp:46-54 | commits every table to the revision, if that is not negative, and keeps them sound; with a negative argument, which counts as unsigned, no session stays in any table that has a revision below 2^63 |
| Database.Database.UndoAll | src/chainbase.cpp:56-64 | undoes every session of every table, each undo but for what it loses |
| Database.Database.StartSession | src/chainbase.cpp:66-80 | the session covers every table, or none if it is not enabled |
| Database.Database.SetRevision | include/chainbase/chainbase.hpp:318-324 | succeeds if and only if no table has a session or a revision above the new one, which all then have; otherwise none changes |
| Database.Database.CatchUp | include/chainbase/chainbase.hpp:380-383 | the loop terminates with the range of the others |
| Database.Database.Align | include/chainbase/chainbase.hpp:355-385 | accepts a table if and only if its revision and its number of sessions are, or for a new one become, those of the others |
| Database.Database.AddIndex | include/chainbase/chainbase.hpp:328-393 | says when the type is in use, or the undo stack inconsistent, that is when revision or number of sessions differ from those of the others; otherwise appends a table that keeps the database sound |
| CowModel.ReleasedOwned | include/chainbase/shared_cow_vector.hpp:223-230 | a handle that lets go leaves counts exact and every other value as it was |
| CowModel.AcquiredOwned | include/chainbase/shared_cow_vector.hpp:44-48 | sharing a block leaves counts exact and gives the same value |
| CowModel.RewrittenOwned | include/chainbase/shared_cow_vector.hpp:211-217 | writing in place at count 1 changes the value of one handle only |
| CowModel.ReplacedOwned | include/chainbase/shared_cow_vector.hpp:240-260 | moving a handle to a new block changes its value only |
| CowModel.NothingLeft | include/chainbase/shared_cow_vector.hpp:86-89 | when the last handle is gone every block has been freed |
| CowVector.Store.CopyConstruct | include/chainbase/shared_cow_vector.hpp:44-53 | the new handle has the value of the other; all others keep theirs; within a region the block is shared and no element is constructed |
| CowVector.Store.MoveConstruct | include/chainbase/shared_cow_vector.hpp:55-63 | within a region the handle takes over the block and the source becomes empty; across regions the source keeps its value |
| CowVector.Store.ConstructRange | include/chainbase/shared_cow_vector.hpp:33-42 | the new handle has the values of the range |
| CowVector.Store.Destruct | include/chainbase/shared_cow_vector.hpp:86-89 | only this handle goes |
| CowVector.Store.Assign | include/chainbase/shared_cow_vector.hpp:91-103 | the handle gets the value of the other, also when they share a block or are the same; within a region it shares the block, and no element is constructed |
| CowVector.Store.MoveAssign | include/chainbase/shared_cow_vector.hpp:105-118 | as the move constructor, with the old value released |
| CowVector.Store.Clear | include/chainbase/shared_cow_vector.hpp:144-147 | only this handle becomes empty |
| CowVector.Store.ClearAndConstruct | include/chainbase/shared_cow_vector.hpp:149-161 | the value becomes the kept elements and the new ones, in place exactly at count 1 and right size, with constructed minus destroyed elements equal to the sizes of all blocks |
| CowVector.Store.MakeRoom | include/chainbase/shared_cow_vector.hpp:154-158 | the block is reused exactly at count 1 and right size; the places behind the kept elements are raw |
| CowVector.Store.EmplaceBack | include/chainbase/shared_cow_vector.hpp:163-168 | appends one element to this handle's value only, in a new block |
| CowVector.Store.AssignRange | include/chainbase/shared_cow_vector.hpp:211-217 | the value becomes that of the range, in place exactly at count 1 and right size, otherwise in a new block |
| CowVector.Store.Alloc | include/chainbase/shared_cow_vector.hpp:240-260 | copies before it releases, so that it may copy from the block it releases |
| CowVector.Store.DecRefcount | include/chainbase/shared_cow_vector.hpp:223-238 | the last user destroys every element and frees the block in its own region |
| CowVector.Store.Equal | include/chainbase/shared_cow_vector.hpp:195-198 | true if and only if the values are equal |
| CowString.ResizeAndFill | include/chainbase/shared_cow_string.hpp:119-125 | the value becomes what the caller writes, in place exactly at count 1 and right size, and no other handle changes |
| CowString.MoveAssign | include/chainbase/shared_cow_string.hpp:99-110 | as for vectors, with assign across regions |
| CowString.OrderEqual | include/chainbase/shared_cow_string.hpp:155-183 | the order agrees with equality |
| CowString.OrderReversed | include/chainbase/shared_cow_string.hpp:169-174 | exchanging the operands reverses the order |
| CowString.OrderTransitive | include/chainbase/shared_cow_string.hpp:169-174 | the order is transitive |
| CowString.OrderLexicographic | include/chainbase/shared_cow_string.hpp:155-166 | a string comes first if and only if it is a proper prefix or has the smaller byte at the first difference |
| CowString.ComparePart | include/chainbase/shared_cow_string.hpp:155-166 | comparing a part is the order of that part; out of range exactly when the start lies beyond the end |
| NodeAllocator.Allocator.GetSome | include/chainbase/chainbase_node_allocator.hpp:50-63 | the loop threads a free list of 64 adjacent blocks through the chunk, in order |
| NodeAllocator.Allocator.Allocate | include/chainbase/chainbase_node_allocator.hpp:21-34 | the block overlaps none in use; blocks in use and free ones are 64 times the batches; a batch is carved only when none is free, its first block is handed out, and the 63 others are free, in order |
| NodeAllocator.Allocator.Deallocate | include/chainbase/chainbase_node_allocator.hpp:35-42 | the block becomes the head of the free list, and the accounts stay right |
| NodeAllocator.Allocator.MemoryUsage | include/chainbase/chainbase_node_allocator.hpp:46-46 | the bytes of the free list; with those in use they are all that was carved |
| NodeAllocator.ChainEnds | include/chainbase/chainbase_node_allocator.hpp:64-67 | the free list is acyclic: following it reaches the end after as many steps as its size |
| NodeAllocator.LaidMore | include/chainbase/chainbase_node_allocator.hpp:50-63 | a batch from a new chunk overlaps no earlier block |
| PageWriteback.UpdateFile | include/chainbase/pagemap_accessor.hpp:92-121 | copies exactly the dirty pages and adds to the count how many pages of the range are dirty |
| PageWriteback.CountRun | include/chainbase/pagemap_accessor.hpp:107-113 | a run of dirty pages counts its length |
| PageWriteback.CountIs | include/chainbase/pagemap_accessor.hpp:105-115 | the count is the number of pages in the range that are dirty |
| PageWriteback.AllZeros | src/pinnable_mapped_file.cpp:382-390 | true if and only if all whole words are zero |
| PageWriteback.SaveChunk | src/pinnable_mapped_file.cpp:407-425 | writes exactly the bytes that its dirty pages, or its not being all zeros, call for, and counts its dirty pages |
| PageWriteback.SaveDatabaseFile | src/pinnable_mapped_file.cpp:398-434 | the loop ends at exactly the size of the region, and every byte of the file is the one SavedBytes names |
| PageWriteback.SavedExact | src/pinnable_mapped_file.cpp:398-434 | the saved file is the memory if and only if every byte not written was right before |
| PageWriteback.SavedByte | src/pinnable_mapped_file.cpp:407-425 | a byte of the saved file is that of the memory if its page is dirty, or where the page map is not used if some byte of its chunk is not zero, and otherwise that of the file before |
| PageWriteback.SavedByPages | src/pinnable_mapped_file.cpp:407-413 | so it is whenever the clean pages agreed with the file, and the file is zero under the all-zero chunks whose page map cannot be read |
| PageWriteback.SavedByChunks | src/pinnable_mapped_file.cpp:414-424 | saving by chunks is right if and only if the file is zero wherever a whole chunk is |
| PageWriteback.ZeroedChunkIsNotSaved | src/pinnable_mapped_file.cpp:414-424 | a concrete memory of two chunks, the first with a header and the second zeroed, for which saving by chunks leaves the file as it was |
| PageWriteback.LoadDatabaseFile | src/pinnable_mapped_file.cpp:361-380 | the memory becomes the file, chunk by chunk |
| InstanceTracker.StepOk | src/pinnable_mapped_file.cpp:257-278 | opening, writing and closing keep the clean pages of every tracked instance equal to its file, both for the first open of a process, which clears all bits, and for later ones, which clear none |
| InstanceTracker.ClosingSaves | src/pinnable_mapped_file.cpp:458-482 | after any run, closing a tracked instance leaves its memory in its file |
| InstanceTracker.ClosingUntracked | src/pinnable_mapped_file.cpp:458-482 | after any run, closing an instance that is not tracked leaves in its file every byte of a chunk that is not all zeros and changes no other; the file is the memory if and only if it was zero under the all-zero chunks |
| InstanceTracker.InstanceSaved | src/pinnable_mapped_file.cpp:256-278 | open an instance, do anything to it and others, close it: the file is then what was opened with all writes made to the instance, in their order; if the bits do not work, it is so except under chunks that are all zeros, where it is what was opened |
| InstanceTracker.StepTells | src/pinnable_mapped_file.cpp:256-278 | opening maps the file into the new memory, leaves all other memories, and saves exactly the tracked instances; a write changes one byte of one memory and marks its page; closing leaves all other instances alone |
| InstanceTracker.OnlyFirstOpenClears | include/chainbase/pagemap_accessor.hpp:36-53 | opening an instance clears the bits, its own and the others', if and only if it is the first check of the process and clearing works; otherwise all keep theirs; it is tracked if the bits work |
| InstanceTracker.LaterOpensKeepBits | include/chainbase/pagemap_accessor.hpp:36-53 | once the check has been made, opening an instance changes no bit of another and leaves the new ones as mapped |
| PackedLinks.RoundTrip | include/chainbase/undo_index.hpp:66-77 | a link comes back as set if and only if it is aligned, within 8 TB, and not 4 bytes ahead; null comes back as null |
| PackedLinks.Injective | include/chainbase/undo_index.hpp:66-101 | no two links, null included, have the same field |
| PackedLinks.SegmentRoundTrip | include/chainbase/undo_index.hpp:51-59 | all links between nodes of one segment come back as set |
| PackedLinks.RemappedLinks | include/chainbase/undo_index.hpp:66-101 | every link follows the segment when it is mapped elsewhere |
| PackedLinks.RemappedSegment | include/chainbase/undo_index.hpp:51-59 | what makes the links of a segment packable holds wherever the segment is mapped |
| PackedLinks.NodeMemory.SetParent | include/chainbase/undo_index.hpp:66-77 | sets this link of this node and nothing else |
| PackedLinks.NodeMemory.SetLeft | include/chainbase/undo_index.hpp:78-89 | sets this link of this node and nothing else |
| PackedLinks.NodeMemory.SetRight | include/chainbase/undo_index.hpp:90-101 | sets this link of this node and nothing else |
| PackedLinks.NodeMemory.SetColor | include/chainbase/undo_index.hpp:103-109 | holds the balances and the removal flag, and exactly those |

## Left out

* Balanced trees, singly linked lists and the deque come from Boost and are sequences here; keys are integers.
* Objects are read and written whole: a user's function that throws, calls back into the database or changes
  an id is not modelled, nor is an `emplace_back` argument that lies in the vector itself.
* The destructor of `undo_index`, which frees everything, and `validate`.
* Exceptions are results (`None`, `false`, an error case). Read-only mode and allocation failure are not modelled.
* Revisions, ids and reference counts are unbounded; only the conversion in `database::commit` is explicit.
* Tags, `project`, `find`, `get`, row counts, name lookup in the segment and the conversion from `multi_index`.
* Moves of session objects and of mapped files; adding a table while a database session is open and not pushed.
* Mapping, locking, flushing, huge pages, signals, headers and file growth; whether the page map can be read is
  a parameter, and so are the soft-dirty bits that the kernel keeps.
* `check_memory_and_flush_if_needed`, whose body is compiled out.
* The zero byte behind a string; copies, assignments and destruction of strings, which run the same code on
  blocks of bytes as those of vectors.
* Allocations of several nodes at once, which go straight to the segment.
* What a table does after an undo that loses an object of which a session still has a backup. If that backup is
  usable, undo of that session moves a node that is in no tree, which has no defined result.
* UndoIndex.Table.Undo: requires that no such undo has happened, and promises of one only what table and indices are.
* UndoIndex.Table.UndoAll: requires that no undo but the last loses an object of which a session still has a backup.
* UndoIndex.Table.Modify: where the assertion in the revert fails, it says that values and lists are those of the
  model and that no index lacks a node, but not in which order the later indices are left.
* Database.IndexSession.Undo: requires that no such undo has happened, as above.
* Database.Session.Undo: requires that no such undo has happened, as above.
* Database.Database.Undo: requires that no such undo has happened, as above.
* Database.Database.UndoAll: requires that no undo but the last of a table loses such an object, as above.
* UndoConflicts.ConflictEnds: after an undo inside the session it says which objects can be removed, but not which are;
  the stamp of the node decides, as `UndoIndex.Table.Modify` says.
* InstanceTracker.ClosingSaves: assumes that the page map of a tracked instance can be read; `SavedByPages` covers the fallback.
* CowVector.Store.ClearAndConstruct: takes the values that the caller's function constructs as a sequence, so it does not say in which order they are computed.
