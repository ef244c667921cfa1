# Verified model of GoRepoMofo's core algorithms

A Dafny 4.11 model of the algorithms at the heart of GoRepoMofo, a Git implementation in Go, with proofs of what
they promise. `dafny verify dfyconfig.toml` checks everything.

## What is modelled

**Text diff** (`EditGraph`, `Frontier`, `Cuts`, `MiddleSnake`, `Ranges`, `MyersDiff`). `EditGraph` defines edit scripts
and their least cost without any algorithm. `Frontier` and `Cuts` treat the linear-space variant of Myers' algorithm
on unbounded arrays; `MiddleSnake` shows that the two ring buffers of `diff.go` agree with these arrays on every slot
that is read, and returns the same cut. `Ranges` turns cuts into the edit script and proves it shortest. The class
`MyersDiffIterator` is the resumable iterator: explicit stack, one shared buffer, each range held back until the next
one is known not to touch it.

**Three-way merge of lines** (`Diff3`, `ChunkCut`, `LineMerge`, `SeparateChanges`, `LineText`, `Diff3Iterator`,
`MergeText`, `BlobMerge`). Chunks of two aligned diffs, what each resolves to, the laws of the merged file, and the
classes `Diff3Iterator` and `Diff3Stream`. `ChunkCut` says where chunks begin and end without the iterator, and
`SeparateChanges` proves what a merge is for: changes of the two sides at different places are both kept.
The stream copies the merged lines into buffers of any sizes, byte by byte as in the source; `LineText` says which text
they stand for and when a reader gets it whole. `BlobMerge` ties the merge of three blobs to the merge of their lines.

**Merge base** (`CommitGraph`, `MergeBase`, `CommonAncestor`). `getDescendent` and `commonAncestor` over any finite
acyclic commit graph with any time stamps. A pop takes a node with the greatest stamp; which of several is left open.

**Trees** (`Paths`, `Trees`, `TreeDiff`, `TreeMerge`, `MergeTrees`). A path is its list of names; `Paths` shows that the
string operations of the source do the same on joined strings. The object store is a complete map, and a ranking
says that no tree contains itself.

**Object walk** (`ObjectWalk`, `WalkHistory`). The breadth-first iterator with exclusion, commit mode and depth limit,
and what its walks and its exclusions mean in terms of commits, their ancestors and their trees.

**Packs** (`Bytes`, `DeltaFormat`, `DeltaReader`, `PackFormat`, `PackWriter`, `PackIterator`, `PackIndex`,
`PackIndexLayout`). Delta chains with kept copies and early release, the four-mode writer, the iterator, and the lookup
in a version 2 index. Inflating and deflating are an abstract self-delimiting codec whose output may depend on how the
input was cut into writes, and which may give its output in pieces of any size.

**Index and tree objects** (`Sorting`, `Index`, `IndexFile`, `TreeFormat`, `TreeBuilder`). Slots and derived directory
maps, the index file down to its bytes, and building tree objects from the index.

Objects that the source updates in place are classes; each method is tied to a function of the state before it, and
the properties are proved about these functions. Rankings, as ghost arguments, say that commits, trees and delta
chains are not circular.

## What the proofs found

- For two identical files the diff iterator yields no edits, not even equal ones (`Ranges.IdenticalListsYieldNothing`).
  The merge laws hold all the same, because the whole file becomes one chunk.
- A clash of modes is not reported when the contents clash as well and merge cleanly: `BlobMerging.ModeClashLost` is an
  instance, `TreeMerge.ModeClashReported` the exact condition.
- A delta that refers by oid to a base which is itself a packed delta of more than 50 million bytes cannot be read: the
  base is parsed once when the store opens it and again by the chain loop, and by then its stream, not being in memory,
  is at its end. `DeltaReader.HugeOidBaseCannotBeRead` has instances of all sizes,
  `DeltaReader.PackObjectReader.InitDeltaAndCache` the exact condition.
- `commonAncestor` does not drop stale meeting points before it folds them with `getDescendent`. When time stamps fall
  from child to parent this does no harm: a commit is returned if and only if one is best. When the stamp of a commit
  is too early, two unrelated ancestors of it can be recorded and folded before it, and the search fails with
  errDescendentNotFound although it is best: `CommonAncestor.SkewedStampsHideBest` is an instance,
  `CommonAncestor.CommonAncestor` states both.
- The stream that delivers a merged file loses its place when a buffer is full just at the end of a line that a newline
  follows: the line is over, but stays in the line buffer, so that the next read goes on with the next chunk, repeating
  the line, or ends. The content is right exactly if this never happens (`Diff3Iteration.Diff3Stream.TwoPasses`); for
  every buffer size there are files for which it does (`MergeTexts.SomeMergeIsCut`). The first pass counts with a
  buffer of 4096 bytes, so the size in the header is affected too.
- When the last chunk of a merge has no lines, the merged file ends with a newline that its lines do not have
  (`MergeTexts.NewlineTooMany`; `MergeTexts.MergedTextIsJoin` is the exact condition).
- Branches that are never taken: an overlap without matches at step 0 (`Cuts.FirstOverlapHasMatches`), a loop over h
  that ends without a cut or with `n == m` (`Cuts.CutFromIsGood`, `Cuts.TheCutIsGood`), a match at the right end after
  the binary search (`PackIndex.RightIsOther`), a name that is missing from the index
  (`TreeBuilding.TreeBuilder.AddIndexEntries`).

## Model

| member | source | states |
|---|---|---|
| Frontier.FloorDivRoundsDown | diff.go:343-349 | floorDiv rounds down for every dividend of either sign and a positive divisor, so that a diagonal's slot is never negative |
| Frontier.SlotsDistinct | diff.go:382-383 | two diagonals less than a ring apart never share a slot of the ring buffer |
| Frontier.SlotsOfOtherParity | diff.go:382-404 | diagonals of different parity never share a slot, however far apart they are |
| Frontier.FrontierIsFurthest | diff.go:381-404 | the unbounded frontier array holds, for each step and diagonal, exactly the furthest point that so many edits reach |
| Frontier.NoMeetRaisesDistance | diff.go:405-420 | when no diagonal of a step overlaps, the two lists are further apart than the two budgets together |
| Frontier.OppositeInWindow | diff.go:406-407 | what the overlap test asks of the opposite frontier is always in that frontier's current window |
| Cuts.ForwardCut | diff.go:406-413 | a forward overlap splits the box into two smaller boxes with only equal lines between them, and their distances add up |
| Cuts.ReverseCut | diff.go:451-458 | the same for an overlap found by the reverse frontier, mirrored |
| Cuts.SingleEditAtEnd | diff.go:414-417 | an overlap at the first step without matches means that one side is a prefix of the other, which justifies trimming |
| Cuts.FirstOverlapHasMatches | diff.go:459-462 | at step 0 a reverse overlap always has matches: the branch for the contrary is dead |
| Cuts.CutFromIsGood | diff.go:376-469 | from every step the search ends with a good cut before it passes hmax |
| Cuts.TheCutIsGood | diff.go:362-487 | every box with lines on both sides is cut into two strictly smaller boxes inside it with only equal lines between them, or is a proper prefix case |
| MiddleSnake.FrontierStep | diff.go:404-404 | storing a diagonal disturbs neither what the step before has stored nor what this step has stored so far |
| MiddleSnake.NeighboursStored | diff.go:382-389 | both slots that a step reads hold what the unbounded arrays hold, or do not matter |
| MiddleSnake.OppositeStored | diff.go:407-407 | the slot read by the overlap test holds what the opposite unbounded array holds |
| MiddleSnake.Extend | diff.go:390-403 | walks exactly over the matches of the diagonal |
| MiddleSnake.Pass | diff.go:381-420 | one inner loop stores the frontier of its step and stops at the first diagonal that overlaps |
| MiddleSnake.FindCut | diff.go:362-485 | with any buffer contents to start from, the ring-buffer search returns exactly the cut that the unbounded arrays determine |
| Ranges.LeavesSpan | diff.go:362-487 | the leaves of the box recursion lie in order across the box with only equal lines between them, and cost exactly the distance |
| Ranges.CoalesceChain | diff.go:489-517 | joining touching ranges keeps the chain and the cost |
| Ranges.MyersScriptIsShortest | diff.go:351-589 | for two different line lists the edits name every old and new line once in order, pair only equal lines, replay to the new text, and no script has fewer deletions and insertions |
| Ranges.IdenticalListsYieldNothing | diff.go:550-557 | the iterator yields nothing at all exactly when the two lists are identical |
| Ranges.CoalesceApart | diff.go:489-517 | after joining, equal lines stand between any two ranges |
| Ranges.ScriptDeletesFirst | diff.go:489-589 | in the script of any two lists no insertion stands directly before a deletion: touching ranges are joined, and each range deletes before it inserts |
| Ranges.SwapScript | diff.go:376-469 | of the shortest scripts for two lines that change places, the one that deletes the first line and inserts it again is found, because the lowest diagonal is looked at first |
| EditGraph.ScriptReplaysToNew | diff.go:261-277 | replaying any complete edit script gives exactly the new lines |
| EditGraph.ScriptCostsAtLeastDistance | diff.go:261-277 | no complete script costs less than the distance, which is defined without the algorithm |
| MyersDiff.MyersDiffIterator.constructor | diff.go:310-329 | the buffer is large enough for every box there will be; all edits are still to come |
| MyersDiff.MyersDiffIterator.Descend | diff.go:362-487 | the push loop keeps the ranges still to come, ends with an empty side, and terminates |
| MyersDiff.MyersDiffIterator.Hold | diff.go:489-517 | a range is held back, joined to the previous one if they touch, and otherwise releases it |
| MyersDiff.MyersDiffIterator.Diff | diff.go:351-537 | one resumption hands over exactly the next joined range, or ends with the stack empty |
| MyersDiff.MyersDiffIterator.Next | diff.go:539-589 | call number k yields edit number k of the script, and none after the last; `Ranges.MyersScriptIsShortest`, `Ranges.ScriptDeletesFirst` and `Ranges.SwapScript` say which script that is |
| MyersDiff.MyersDiffIterator.Get | diff.go:591-615 | the new line that the script pairs with an old line, if any, from any state of the iterator |
| MyersDiff.MyersDiffIterator.Contains | diff.go:617-623 | whether the script pairs an old line |
| MyersDiff.MyersDiffIterator.Reset | diff.go:625-629 | the same edits come again |
| Diff3.LookupFindsPair | diff.go:591-615 | looking up an old line finds exactly the equal edit that names it |
| Diff3.NextPieceSound | diff.go:678-767 | every call makes progress, a clean chunk has the same lines in all three files, and the last chunk reaches the end of all; where chunks end is said by `ChunkCuts.ChunksAreTheCut` |
| Diff3.ChunksCutAllFiles | diff.go:678-767 | the chunks cut base, target and source into consecutive ranges that cover each file fully |
| Diff3.MyersTrioAligned | diff.go:666-676 | two Myers scripts from the base are an alignment, also when one is empty because its files are identical |
| ChunkCuts.PiecesAreCut | diff.go:678-767 | the chunks alternate between runs of base lines whose partners run along in both other files, and conflicts without any base line that both other files share |
| ChunkCuts.OnlyOneCut | diff.go:678-767 | three aligned files can be cut like this in one way only |
| ChunkCuts.ChunksAreTheCut | diff.go:678-767 | the chunks are that one cut |
| ChunkCuts.SharedLinesAreClean | diff.go:701-742 | every base line with partners in both other files lies in a clean chunk and in no conflict |
| Diff3Iteration.Diff3Iterator.MatchingRun | diff.go:684-698 | how many lines match from the current place in all three files |
| Diff3Iteration.Diff3Iterator.FindShared | diff.go:702-717 | the next base line that both other files share |
| Diff3Iteration.Diff3Iterator.InBounds | diff.go:778-782 | whether some file still has a line |
| Diff3Iteration.Diff3Iterator.IsMatch | diff.go:784-793 | whether the diff pairs a base line with a given line |
| Diff3Iteration.Diff3Iterator.Next | diff.go:678-767 | the iterator hands out, one by one, the chunks that `ChunkCuts.ChunksAreTheCut` determines |
| Diff3Iteration.Diff3Iterator.Reset | diff.go:769-776 | the same chunks come again |
| LineMerge.MergeTakesSource | merge.go:450-498 | merge(O, O, B) is B without conflict, for all files |
| LineMerge.MergeTakesTarget | merge.go:450-498 | merge(O, A, O) is A without conflict, for all files |
| LineMerge.MergeTakesCommonChange | merge.go:450-498 | merge(O, A, A) is A without conflict, for all files |
| LineMerge.MergeIsSymmetric | merge.go:450-498 | exchanging the sides keeps the conflicts, and the lines of a merge without conflict |
| SeparateChanges.BlockPairs | diff.go:351-615 | when a block of a file of distinct lines is replaced by new lines, the diff pairs every line outside the block with itself and none inside |
| SeparateChanges.SeparateChangesMerge | merge.go:450-498 | when the sides replace two blocks of a file of distinct lines by new lines, the merge has both changes without conflict if at least one line stands between the blocks; if none does, it is their common file, or one conflict of exactly the two blocks between markers, with the base's lines |
| Diff3Iteration.Diff3Stream.Fill | merge.go:441-498 | one chunk is resolved into the line buffer, its first line becomes the current one, and a real conflict is remembered |
| Diff3Iteration.Diff3Stream.CopyLine | merge.go:404-439 | copies from the current line, with its newline if there is room and another line may follow; when the line just fills the buffer, what is left to read afterwards is not the rest of the text |
| Diff3Iteration.Diff3Stream.ReadStep | merge.go:403-501 | one step from any state: the next bytes of the text, or none at its end, through chunks without lines |
| Diff3Iteration.Diff3Stream.Read | merge.go:385-401 | fills the buffer unless the text ends; the rest stays to be read, except when the buffer is full just at the end of a line that a newline follows |
| Diff3Iteration.Diff3Stream.SeekTo | merge.go:503-511 | back to the start: the whole text of the merge is left to read, and no conflict has been met |
| Diff3Iteration.Diff3Stream.Drain | merge.go:364-367 | reading to the end with buffers of any sizes gives the text that was left if and only if no buffer ends just at the end of a line that a newline follows; every conflict is met in any case |
| Diff3Iteration.Diff3Stream.Count | merge.go:513-531 | counts the bytes of the merge if no multiple of 4096 is just at the end of a line |
| Diff3Iteration.Diff3Stream.TwoPasses | merge.go:354-367 | the first pass finds the conflicts and the size; the second delivers the text of the merge exactly if no buffer of its reader ends just at the end of a line |
| LineText.ReadWhole | merge.go:385-440 | what has been read to the end, buffer by buffer, is the whole text if and only if no boundary between buffers is at the end of a line |
| LineText.TextIsJoin | merge.go:425-436 | the text of the chunks is that of a file with their lines, and one newline more exactly if the last chunk has no lines |
| MergeTexts.MergedTextIsJoin | merge.go:425-498 | the same for the merge of any three files |
| MergeTexts.NoBaseConflicts | merge.go:450-498 | two different files without a base are one conflict between markers |
| MergeTexts.SomeMergeIsCut | merge.go:403-440 | for every size of a first buffer there are two files whose merge its reader does not get whole |
| MergeTexts.NewlineTooMany | merge.go:433-436 | a merge without conflict whose text has one newline more than its lines |
| BlobMerging.WriteBlobWithDiff3 | merge.go:289-368 | binary files give the source's with a conflict; otherwise what is written is the text of the three-way merge of the lines, exactly if no buffer ends at the end of a line, and the conflict is that of the lines |
| Diff3Iteration.Diff3Stream.LinesOfChunk | merge.go:451-495 | what a chunk resolves to: base lines, one side, or both sides with markers |
| MergeBase.Pop | merge.go:43-53 | takes a node than which none is later; of several with the same stamp it may be any |
| MergeBase.GetDescendent | merge.go:59-124 | returns the commit that descends from the other exactly when one does, and fails exactly when they are unrelated, for all time stamps; it terminates without a visited set |
| MergeBase.QueueWalksPop | merge.go:98-121 | the measure for that: parent walks left from the queue |
| CommonAncestor.VisitNode | merge.go:163-195 | when popping a commit answers at once, when it is skipped, and what is recorded otherwise |
| CommonAncestor.EnteredSound | merge.go:163-195 | recording a popped commit keeps everything recorded true: colours are ancestries, meeting points are common ancestors, stale commits lie beneath meeting points |
| CommonAncestor.EnteredComplete | merge.go:163-195 | it also keeps everything covered that the walks need, but for the parents of the commit itself |
| CommonAncestor.ExpandNode | merge.go:197-239 | queueing the parents and marking queued nodes stale keeps both, and leaves fewer walks to do |
| CommonAncestor.MetByNow | merge.go:162-252 | a commit to which both walks lead over commits that no longer wait in the queue is recorded, or lies beneath a recorded one |
| CommonAncestor.TopRecorded | merge.go:241-252 | when only stale nodes are queued, every common ancestor that lies below no other has been recorded |
| CommonAncestor.StaysInTime | merge.go:162-195 | because a pop takes the latest commit, whatever is reached over commits no earlier than t is recorded before anything earlier |
| CommonAncestor.FindMeetingPoints | merge.go:135-252 | both walks together end with everything needed recorded in that order, or with an input that is an ancestor of the other |
| CommonAncestor.FoldDescendents | merge.go:254-266 | folding the meeting points with getDescendent succeeds if and only if every beginning of the list has a commit that descends from the rest of it |
| CommonAncestor.FallingMeetsFirst | merge.go:44-44 | if time stamps fall from child to parent, the best common ancestor is met before any other |
| CommonAncestor.CommonAncestor | merge.go:130-267 | a returned commit is the best common ancestor; errNoCommonAncestor is returned exactly when there is none; if time stamps fall from child to parent, a commit is returned if and only if one is best; with any stamps, a best one that is met first is returned, and errDescendentNotFound is returned whenever two unrelated common ancestors are met before all that descend from both |
| CommonAncestor.SkewedStampsHideBest | merge.go:254-266 | five commits with a best common ancestor, one of them stamped too early, for which errDescendentNotFound is returned |
| Paths.LastSlashCutsParent | merge.go:694-700 | cutting a path string at its last slash gives the parent's path string, and there is no slash exactly in a single name |
| Paths.JoinInjective | tree.go:218-224 | different lists of names have different path strings |
| Trees.TreePathsPrefixFree | tree.go:208-236 | a tree never holds a file at a directory of another file |
| Trees.ApplyDiffGivesNew | tree.go:26-102 | applying a diff to the old files gives the new files |
| TreeDiffs.CompareEntry | tree.go:42-98 | comparing two entries of one name, file or directory on either side, records the changes at and below it |
| TreeDiffs.TreeCompare | tree.go:26-102 | the changes recorded below a prefix are exactly the paths whose entries differ, with both entries |
| TreeDiffs.TreeDiff | tree.go:21-102 | the diff of two trees mentions exactly the differing paths, including file-to-directory and back |
| TreeDiffs.TreeDiffIsDiff | tree.go:21-102 | applying the tree diff to the flattened old tree gives the flattened new tree |
| TreeDiffs.Flatten | tree.go:208-236 | adds entry after entry for any store; if names are distinct and no directory is a commit, the result is exactly the files of the tree, and their paths are prefix-free |
| TreeDiffs.PutTreeHolds | tree.go:208-236 | what adding the entries one by one amounts to at every path below the prefix |
| TreeMerge.Merger.SamePaths | merge.go:986-1004 | every path the source changed is decided by samePathConflict, in any order; what that decides is said by `TreeMerge.CleanPathContent`, `TreeMerge.ConflictPathContent` and `TreeMerge.ConflictReported` |
| TreeMerge.Merger.FileDirConflict | merge.go:686-736 | a file that the diff puts at a directory on the way to a path gives way, and nothing else changes |
| TreeMerge.Merger.Run | merge.go:986-1016 | what the clean diff and the conflicts hold for each path in the end, for every order of the paths |
| TreeMerge.CleanPathContent | merge.go:558-673 | a path without conflict holds the target's entry, the source's, their common one, or both combined with id and mode merged separately |
| TreeMerge.ConflictPathContent | merge.go:558-736 | at a path in conflict the merged files hold the target's entry if the source has none, the source's if the target has none, both combined if neither lacks it, and nothing where a file gives way to a directory |
| TreeMerge.CombinedTakesChanges | merge.go:578-627 | which id and which mode a combined entry has: what only one side changed, what both agree on, the merged blob when the ids clash, the target's mode when the modes clash |
| TreeMerge.MergedIsPrefixFree | merge.go:686-736 | if base, target and source are prefix-free then so is the merged file map |
| TreeMerge.UnchangedSource | merge.go:558-673 | if the source changed nothing, the merge is the target without conflict |
| TreeMerge.UnchangedTarget | merge.go:558-673 | if the target changed nothing, the merge is the source without conflict |
| TreeMerge.SameChanges | merge.go:574-576 | if both made the same changes, the merge has them without conflict |
| TreeMerge.ConflictReported | merge.go:558-736 | exactly when a conflict is reported for a path |
| TreeMerge.CleanDiffFitsTarget | merge.go:625-736 | every clean change starts from the entry the target has, so that it can be carried out on the target |
| TreeMerge.ConflictRecordsVersions | merge.go:631-736 | a conflict records the base's, the target's and the source's entry of its path, and a copy of a file that gives way to a directory |
| TreeMerge.ModeClashReported | merge.go:590-638 | a clash of modes is reported if and only if the ids do not clash, or the blob merge conflicts too |
| BlobMerging.CleanlyCombined | merge.go:590-627 | a path without conflict at which the ids of all three versions differ holds the blob of their merged lines, and these have no conflict |
| BlobMerging.NoBaseIsReported | merge.go:590-627 | without a base, files of different contents are always in conflict, so a clash of modes is not lost there |
| BlobMerging.ModeClashLost | merge.go:605-614 | a concrete clash of modes that is lost because the lines merge cleanly and the blob merge overwrites hasConflict |
| MergeTrees.ResolveCommit | tree.go:122-126 | a commit stands for the entries of its tree |
| MergeTrees.MergeFiles | merge.go:974-1016 | from three trees or commits: the merged files are prefix-free, a conflict is reported exactly where the three trees call for one, with their three entries, and what the merged files hold at each path, with or without conflict, is what the three trees determine |
| ObjectWalk.NearerIsVisited | object.go:825-862 | everything within fewer steps than the queue's next depth has been visited |
| ObjectWalk.StepKeepsValid | object.go:825-862 | every step keeps the queue sorted over two depths, sound, and complete |
| ObjectWalk.VisitedAtEnd | object.go:825-862 | at the end exactly the objects within the depth limit have been visited, each at its distance |
| ObjectWalk.MarksStepwise | object.go:787-822 | what excluding an object marks, in terms of what excluding its contents marks |
| ObjectWalk.ObjectIterator.IncludeAtDepth | object.go:777-785 | an object is queued unless it is too deep or excluded |
| ObjectWalk.ObjectIterator.Include | object.go:773-775 | queues the object unless it is excluded or has been visited; before the walk starts that makes it a root |
| ObjectWalk.ObjectIterator.Exclude | object.go:787-822 | at any time, excludes exactly what is reached downward from the object, and the parents of commits reached so |
| ObjectWalk.ObjectIterator.IncludeRefs | object.go:864-890 | queues the references that are not excluded, in order |
| ObjectWalk.ObjectIterator.Next | object.go:825-862 | returns an object not returned before with its depth, never a smaller depth, and nothing only when the queue is empty |
| ObjectWalk.ObjectIterator.Collect | object.go:825-862 | all calls together give each object within reach and within the depth limit once, commits only in commit mode, at its shortest distance, nearest first |
| WalkHistory.CommitWalks | object.go:864-890 | a walk in commit mode is a walk over the parents of commits that meets nothing excluded |
| WalkHistory.WalkIsHistoryThenTree | object.go:864-890 | a walk over all objects from a commit goes over parents for some commits and then down into the tree of the last of them, and every such way is a walk |
| WalkHistory.ExcludeMarks | object.go:787-822 | excluding a commit marks it, its parents and what is in its tree; a tree, what is in it; a blob or a tag, itself alone; in commit mode nothing inside trees |
| WalkHistory.NothingMissing | object.go:787-890 | excluding what somebody has leaves out nothing that is missing there: any other object is within reach at the same distance as without exclusion |
| DeltaFormat.DeltaRoundTrip | pack.go:542-679 | reading a written delta, with any two sizes, applies exactly the instructions that were written: insertions, copies with any offset and size, copies of 65536 bytes written without a size, and reserved bytes, which do nothing |
| DeltaFormat.OperandsRoundTrip | pack.go:643-659 | the bits of a copy instruction say which of its seven operand bytes are there |
| DeltaFormat.CopyBytes | pack.go:643-655 | the byte of a copy instruction, bit by bit, and the operands that follow it, one by one |
| DeltaFormat.CopyNumbers | pack.go:643-661 | the first four operands are the offset and the last three the size, each with its lowest byte first; a size of 0 stands for 65536 |
| DeltaFormat.ChunkInOutput | pack.go:852-922 | where each chunk's bytes are in the reconstructed object |
| DeltaReader.PackObjectReader.ReadStream | pack.go:237-247 | the inflated stream gives at least one byte while there are any, how many is left open |
| DeltaReader.PackObjectReader.ReadIntoMemoryMaybe | pack.go:293-324 | a stream of a file that is small enough is kept in memory and is back at its start; any other is left where it is |
| DeltaReader.PackObjectReader.ReadInstructions | pack.go:607-664 | parses exactly the chunks of the delta; in a stream the added bytes are kept |
| DeltaReader.PackObjectReader.InitDelta | pack.go:542-682 | succeeds exactly when nothing has been read, the base opens and the delta parses; nothing copied is kept yet |
| DeltaReader.PackObjectReader.InitChain | pack.go:686-703 | initialises the whole chain in a loop, each reader being the base of the one before |
| DeltaReader.CacheChain | pack.go:705-711 | filling in from the innermost delta outward succeeds exactly when every copy is within its base |
| DeltaReader.PackObjectReader.FillCopies | pack.go:739-774 | each copied chunk is kept with its bytes, by reading or as part of the previous one that starts at the same offset |
| DeltaReader.PackObjectReader.InitCache | pack.go:715-783 | afterwards the object can be read from its own reader alone, and the base has let go of what it kept |
| DeltaReader.PackObjectReader.InitDeltaAndCache | pack.go:686-712 | succeeds exactly when every delta of the chain is well formed, its base is in reach, and no base referred to by oid is a delta too large for memory |
| DeltaReader.PackObjectReader.ReadAdded | pack.go:879-897 | added bytes are read from the right place of the stream, wherever the stream is |
| DeltaReader.PackObjectReader.ReadDelta | pack.go:852-922 | gives exactly the next bytes of the object and fills the buffer as long as there are more; a chunk that is not kept is never asked of the base |
| DeltaReader.PackObjectReader.ReadBasic | pack.go:839-850 | gives the next bytes of a plain object |
| DeltaReader.PackObjectReader.SkipBytes | pack.go:924-939 | skips n bytes, or fails at the end |
| DeltaReader.PackObjectReader.Reset | pack.go:806-820 | the whole chain is back at its start and nothing that is kept changes; it fails exactly in a stream |
| DeltaReader.OpensStepwise | pack.go:686-712 | when a delta can be read, in terms of its base |
| DeltaReader.HugeOidBaseCannotBeRead | pack.go:293-299 | an object whose base, referred to by oid, is a delta of n bytes of data: it can be read if and only if n is at most 50,000,000, for all n from 2 on, though it is always well formed; beyond that the stream of the base is at its end when it is parsed again |
| DeltaReader.ContentOfInstructions | pack.go:542-783 | an object written as instructions is what they make of its base, down the whole chain |
| DeltaReader.ReadToEnd | pack.go:832-922 | reading until the end of file gives all that was left of the object, plain or delta |
| DeltaReader.ReadTwice | pack.go:806-922 | reading in pieces of any sizes and then to the end, going back, and reading so again in other pieces gives the object both times; a delta gives as many bytes as asked for, a plain object at least one |
| PackFormat.HeaderRoundTrip | pack.go:1190-1213 | the kind and the size of an object header are read back, for sizes of any length |
| PackFormat.HeaderBits | pack.go:1190-1213 | the bits of an object header: three bits of kind, as git numbers kinds, above the low four bits of the size, then seven bits a byte, the top bit telling whether another byte follows |
| PackFormat.FileHeaderFields | pack.go:1055-1093 | a pack starts with the letters PACK, version 2 and the number of objects, highest byte first |
| PackFormat.PackHoldsObjects | pack.go:1055-1213 | a pack of some objects holds them one after the other behind its header, whatever writes compressed them |
| PackWriting.PackWriter.constructor | pack.go:1055-1093 | the header and the first object header are pending |
| PackWriting.PackWriter.WriteObjectHeader | pack.go:1190-1213 | appends exactly the header of the current object |
| PackWriting.PackWriter.ReadStep | pack.go:1113-1188 | every step of the four modes keeps the output and what is pending a beginning of the pack, and leaves less to do |
| PackWriting.PackWriter.Read | pack.go:1101-1111 | fills any buffer, except at the end of the pack |
| PackWriting.WritePack | pack.go:1101-1188 | buffers of any sizes give the header, each object's header and compressed content, and the hash of all that, and it ends |
| PackReading.PackIterator.Open | pack.go:953-978 | anything without the signature or of another version is refused |
| PackReading.PackIterator.ReadObjectHeader | pack.go:447-466 | reads the kind and the size |
| PackReading.PackIterator.Close | pack.go:222-235 | where the object ends is known afterwards, unless its compressed data is broken |
| PackReading.PackIterator.Next | pack.go:987-1026 | gives what is at the position after the previous object, the end after the last, and a failure if it is not known where the previous one ends; an object of a file of at most 50 million bytes is read at once and need not be closed, any other must be |
| PackReading.RoundTrip | pack.go:953-1213 | the iterator reads from the writer's output the same kinds and contents in the same order, closing them or, for small objects of a file, not |
| PackIndex.FanoutSplits | pack.go:1343-1349 | the fanout table splits the sorted oids by their first byte |
| PackIndex.Bisect | pack.go:1351-1370 | on a sorted table the binary search finds an oid exactly when it is there, leaving at the first entry included |
| PackIndex.RightIsOther | pack.go:1372-1383 | the last comparison at the right end cannot succeed |
| PackIndex.ReadOffset | pack.go:1389-1421 | the 31-bit offset, or the 64-bit one it points to |
| PackIndex.SearchPackIndex | pack.go:1302-1422 | on an index the answer is the offset of the oid exactly when the oid is in the table; a file without the header is refused |
| PackIndexLayout.WrittenIsIndex | pack.go:1302-1421 | a file in git's layout (header, 256 counts, sorted oids, checksums, offsets of 31 bits or places among those of 64 bits, and these) is an index in the sense of the lookup |
| Bytes.CompareLexicographic | pack.go:1356-1366 | the byte order: one string comes before another exactly if it has the smaller byte at the first difference, or ends there |
| Indexes.MapsAgreeOnce | index.go:336-367 | directory maps that agree with the entries are unique, so that keeping them equals rebuilding them |
| Indexes.Index.Record | index.go:263-282 | entering a path in the maps of all its directories and in the root keeps them in agreement |
| Indexes.Index.AddEntry | index.go:243-283 | the entry is in its slot, a merged entry drops the conflict and the other way round, and the maps agree |
| Indexes.Index.AddConflictEntries | index.go:287-302 | adds the sides that exist, and the maps agree |
| Indexes.ConflictSlots | index.go:287-302 | afterwards slot 0 is empty if any side was added, the slots of these sides hold them, and no other slot or path changes |
| Indexes.StageBits | index.go:243-244 | the stage of an entry is in the two bits above the twelve lowest |
| Indexes.Index.RemovePath | index.go:305-329 | removes exactly the path and what is below it, records exactly what was removed, and the maps agree |
| Indexes.Index.RebuildDirMaps | index.go:336-367 | in whatever order the paths are taken, the maps agree |
| Indexes.Index.StageFile | index.go:143-207 | the removal steps before a file is staged keep a prefix-free index prefix-free and remove only what is in the way |
| IndexFile.EntryRoundTrip | index.go:80-123 | what is written for an entry is read back, with a normal mode, up to the end of the padding to eight bytes |
| IndexFile.EntryLayout | index.go:448-470 | where everything is in the bytes of an entry: ten numbers of four bytes, highest byte first, the oid, two bytes of flags, the path, and one to eight zeros up to a multiple of eight |
| IndexFile.NormalModes | index.go:115-118 | only the permissions of regular files change, to 755 or 644 |
| IndexFile.FileHolds | index.go:440-474 | a file starts with the letters DIRC, version 2 and the number of entries, and the entries follow |
| IndexFile.AddedAll | index.go:125-125 | adding all entries of an index to an empty one gives the index, in whatever order |
| IndexFile.WriteEntry | index.go:448-470 | writes the fields, the path and the padding |
| IndexFile.Write | index.go:417-476 | writes every entry once, in the byte order of the paths and for one path by stage, between the header and the checksum |
| IndexFile.ReadIndex | index.go:41-130 | adds all entries of a file written for them, and refuses a file that is too short or of another kind |
| IndexFile.RoundTrip | index.go:41-485 | an index that has been written and read has the same entries in the same slots and the same directory maps |
| TreeFormat.ModeRoundTrip | fs.go:35-50 | the text of a mode is read back as the mode it stands for |
| TreeFormat.WrittenModes | fs.go:35-50 | the written mode is one of git's five, keeps the type of trees, symbolic links and gitlinks, and is that of a regular file otherwise, executable exactly with permissions 755 |
| TreeFormat.EntryStarts | object.go:136-158 | the bytes of an entry: the mode in octal digits, a space, the name, a NUL, the oid |
| TreeFormat.TreeRoundTrip | object.go:599-641 | entries written as a tree object are read back in order |
| TreeFormat.HashTellsTreesApart | object.go:199-213 | a hash that tells byte strings apart tells apart all trees whose entries fit the format |
| TreeFormat.ParseTree | object.go:599-641 | the parsing loop reads exactly these entries, or fails |
| TreeBuilding.KeysDiffer | object.go:136-158 | entries of different names have different sort keys, directories counting as if they ended in a slash |
| TreeBuilding.OneTree | object.go:199-203 | there is one sorted tree object for a set of entries |
| TreeBuilding.OrderedByPath | object.go:136-203 | the files of a sorted tree come in the byte order of their paths, whatever follows the names of directories |
| TreeBuilding.ObjectStore.WriteTree | object.go:199-213 | stores the entries, sorted so that files come in the byte order of their paths, under their hash and keeps all other trees |
| TreeBuilding.TreeBuilder.AddIndexEntries | object.go:160-197 | taking the names in any order, adds what the index has directly below a directory; no name is missing |
| TreeBuilding.WriteIndexTree | object.go:296-305 | the tree written for an index has, at every level, what the index has |
| TreeBuilding.OidIsDetermined | object.go:160-213 | the index alone determines the oid of its tree, not the order in which names were visited nor what else is stored |
| TreeBuilding.TreeFlattensToIndex | object.go:160-213 | every path of the written tree holds exactly the merged entry the index has there |
| TreeBuilding.BuildAndFlatten | object.go:160-213 | building a tree from a prefix-free index and flattening it gives exactly the merged entries; with the modes they have, if these are among the four of files |

## Left out

- Diff3Iteration.Diff3Stream.Count: says nothing of the number when a multiple of 4096 is at the end of a line, because repeated and missing bytes can make up for each other.
- CommonAncestor.CommonAncestor: the graph is a finite map of parents, and missing objects are not modelled; when stamps neither fall nor let two unrelated common ancestors be met too soon, which of a best common ancestor and errDescendentNotFound is returned depends on how the heap orders equal stamps and on the way the walks take.
- MyersDiff.MyersDiffIterator.Diff: the stack holds boxes instead of four numbers a box, and the two mirrored inner loops are one method with a direction.
- MergeBase.GetDescendent: the graph is a finite map of parents; missing objects are not modelled.
- TreeMerge.Merger.Run: autoResolved and the paths of renamed files are kept only as far as the conflicts need them.
- ObjectWalk.ObjectIterator.Include: distances are proved for walks whose roots are added before they start, as all callers do; raw and parsed objects are not told apart.
- DeltaReader.PackObjectReader.InitDelta: every base exists; the two declared sizes are skipped, as the source uses only the second one, for a header; sizes are unbounded numbers.
- PackReading.PackIterator.Next: a delta is recognised but not resolved here (`DeltaReader` does that), so that the iterator stays at it, and turning an offset into an oid by the caller's map is not modelled.
- PackWriting.PackWriter.Read: object readers do not fail; counts beyond 32 bits wrap as in the source and are excluded only from the round trip.
- IndexFile.RoundTrip: oids and paths become bytes by given functions that can be undone for the entries of the index.
- Indexes.Index.StageFile: the work directory, the blob that is written and the mode on Windows are not modelled; paths are lists of names, so that absolute paths do not occur.
- TreeBuilding.WriteIndexTree: the hash is an injective function of a tree's entries rather than of its bytes, because no injective hash of all byte strings has values of one length; `TreeFormat.HashTellsTreesApart` says what the one has to do with the other.
- Line sources: a file is a fixed list of lines without newlines, or binary; the limits on line sizes and counts that make it binary are left out.
- Work directory (`workdir.go`), configuration, references, branches, tags, networking, command line, locking and signing are left out.
- Zlib and the hash functions are abstract.
