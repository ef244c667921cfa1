/** Merging two trees with a common base (the tree level of Merge in merge.go), from tree objects to merged files. */
module MergeTrees {
  import opened Common
  import opened Paths
  import opened Trees
  import opened TreeDiffs
  import opened TreeMerge

  /** The tree of a commit; anything else stands for itself. */
  method ResolveCommit(store: Store, oid: Oid, ghost rank: Oid -> nat) returns (t: Oid)
    requires Ranked(store, rank)
    ensures !store(t).CommitObj? && Entries(store, Some(t), rank) == Entries(store, Some(oid), rank)
  {
    t := oid;
    while store(t).CommitObj?
      invariant Entries(store, Some(t), rank) == Entries(store, Some(oid), rank)
      decreases rank(t)
    {
      t := store(t).tree;
    }
  }

  lemma SameEntriesSameFiles(store: Store, t: Oid, oid: Oid, rank: Oid -> nat)
    requires Ranked(store, rank) && Entries(store, Some(t), rank) == Entries(store, Some(oid), rank)
    ensures forall p :: At(store, Some(t), p, rank) == At(store, Some(oid), p, rank)
  {
  }

  /** A file that mine has put at p meets what other has put below p. */
  ghost predicate MeetsDirectory(store: Store, base: Option<Oid>, mine: Option<Oid>, other: Option<Oid>, p: Path,
      rank: Oid -> nat)
    requires Ranked(store, rank)
  {
    && At(store, mine, p, rank).Some? && At(store, mine, p, rank) != At(store, base, p, rank)
    && exists q :: ProperPrefix(p, q) && At(store, other, q, rank).Some?
                   && At(store, other, q, rank) != At(store, base, q, rank)
  }

  lemma MeetsByDiffs(store: Store, base: Option<Oid>, mine: Option<Oid>, other: Option<Oid>, p: Path, rank: Oid -> nat,
      baseFiles: FileMap, mineFiles: FileMap, otherFiles: FileMap, md: Diff, od: Diff)
    requires Ranked(store, rank) && IsFlat(store, base, baseFiles, rank)
    requires IsFlat(store, mine, mineFiles, rank) && IsFlat(store, other, otherFiles, rank)
    requires IsDiff(md, baseFiles, mineFiles) && IsDiff(od, baseFiles, otherFiles)
    ensures MeetsDirectory(store, base, mine, other, p, rank) <==> Puts(md, p) && AddsBelow(od, p)
  {
    hide At;
    if q :| ProperPrefix(p, q) && At(store, other, q, rank).Some?
            && At(store, other, q, rank) != At(store, base, q, rank) {
      assert Get(od, q).Some? && q in od && od[q].now.Some?;
    }
    if AddsBelow(od, p) {
      var q :| q in od && ProperPrefix(p, q) && od[q].now.Some?;
      assert Get(od, q) == Some(TreeChange(Get(baseFiles, q), Get(otherFiles, q)));
      assert At(store, other, q, rank).Some?;
    }
    assert Get(md, p) == if Get(baseFiles, p) == Get(mineFiles, p) then None
                         else Some(TreeChange(Get(baseFiles, p), Get(mineFiles, p)));
  }

  /** The root is no file, and so never in conflict. */
  lemma NoConflictAtRoot(store: Store, base: Option<Oid>, target: Oid, source: Option<Oid>, merge: BlobMerge,
      rank: Oid -> nat, baseFiles: FileMap, targetFiles: FileMap, sourceFiles: FileMap, td: Diff, sd: Diff, clean: Diff,
      conflicts: map<Path, MergeConflict>)
    requires Ranked(store, rank) && IsFlat(store, base, baseFiles, rank)
    requires IsFlat(store, Some(target), targetFiles, rank) && IsFlat(store, source, sourceFiles, rank)
    requires IsMerge(merge, baseFiles, targetFiles, sourceFiles, td, sd, clean, conflicts)
    ensures [] !in conflicts
  {
    AtPath(merge, baseFiles, targetFiles, sourceFiles, td, sd, clean, conflicts, []);
  }

  /** When a path is in conflict. */
  ghost predicate InConflict(store: Store, base: Option<Oid>, target: Option<Oid>, source: Option<Oid>,
      merge: BlobMerge, p: Path, rank: Oid -> nat)
    requires Ranked(store, rank)
  {
    var (b, t, s) := (At(store, base, p, rank), At(store, target, p, rank), At(store, source, p, rank));
    || MeetsDirectory(store, base, source, target, p, rank) || MeetsDirectory(store, base, target, source, p, rank)
    || (&& s != b && t != b && s != t
        && match (t, s)
           case (Some(x), Some(y)) => if Clash(OidOf(b), x.oid, y.oid) then merge(OidOf(b), x.oid, y.oid).1
                                      else Clash(ModeOf(b), x.mode, y.mode)
           case _ => true)
  }

  /** What the merge holds at a path in conflict. */
  ghost predicate ConflictHolds(store: Store, base: Option<Oid>, target: Option<Oid>, source: Option<Oid>,
      merge: BlobMerge, p: Path, now: Option<TreeEntry>, rank: Oid -> nat)
    requires Ranked(store, rank)
  {
    if MeetsDirectory(store, base, source, target, p, rank) || MeetsDirectory(store, base, target, source, p, rank) then
      now == None
    else match (At(store, target, p, rank), At(store, source, p, rank))
      case (Some(t), None) => now == Some(t)
      case (None, Some(s)) => now == Some(s)
      case (Some(t), Some(s)) => now == Some(Combined(merge, At(store, base, p, rank), t, s))
      case (None, None) => false
  }

  /** The files of the target after the clean changes, and the conflicts. The merged files make a valid tree, and each
      one without a conflict is what the three trees determine. Commits stand for their trees. */
  method MergeFiles(store: Store, base: Option<Oid>, target: Oid, source: Option<Oid>, merge: BlobMerge,
                    ghost rank: Oid -> nat, ghost baseFiles: FileMap, ghost sourceFiles: FileMap)
    returns (files: FileMap, conflicts: map<Path, MergeConflict>)
    requires Ranked(store, rank) && WellFormed(store)
    requires IsFlat(store, base, baseFiles, rank) && IsFlat(store, source, sourceFiles, rank)
    ensures PrefixFree(files.Keys)
    ensures forall p :: p !in conflicts ==>
              Get(files, p) == MergedEntry(merge, At(store, base, p, rank), At(store, Some(target), p, rank),
                                           At(store, source, p, rank))
    ensures forall p :: p in conflicts ==>
              ConflictHolds(store, base, Some(target), source, merge, p, Get(files, p), rank)
    ensures forall p :: p in conflicts <==> InConflict(store, base, Some(target), source, merge, p, rank)
    ensures forall p :: p in conflicts ==>
              && conflicts[p].base == At(store, base, p, rank)
              && conflicts[p].target == At(store, Some(target), p, rank)
              && conflicts[p].source == At(store, source, p, rank)
  {
    hide At, CleanChange, PathConflict, Apply, PrefixFree, WellFormed, MergedEntry, Entries, MeetsDirectory, AddsBelow;
    var targetDiff := TreeDiff(store, base, Some(target), rank);
    var sourceDiff := TreeDiff(store, base, source, rank);
    var merger := new Merger(merge, targetDiff, sourceDiff);
    merger.Run();
    var targetTree := ResolveCommit(store, target, rank);
    var targetFiles := Flatten(store, targetTree, rank);
    files, conflicts := Apply(merger.cleanDiff, targetFiles), merger.conflicts;

    SameEntriesSameFiles(store, targetTree, target, rank);
    TreeDiffIsDiff(store, base, Some(target), baseFiles, targetFiles, targetDiff, rank);
    TreeDiffIsDiff(store, base, source, baseFiles, sourceFiles, sourceDiff, rank);
    FlatIsPrefixFree(store, base, baseFiles, rank);
    FlatIsPrefixFree(store, source, sourceFiles, rank);
    MergedIsPrefixFree(merge, baseFiles, targetFiles, sourceFiles, targetDiff, sourceDiff, merger.cleanDiff, conflicts);
    forall p | p !in conflicts
      ensures Get(files, p) == MergedEntry(merge, At(store, base, p, rank), At(store, Some(target), p, rank),
                                           At(store, source, p, rank))
    {
      CleanPathContent(merge, baseFiles, targetFiles, sourceFiles, targetDiff, sourceDiff, merger.cleanDiff, conflicts,
          p);
    }
    forall p
      ensures p in conflicts <==> InConflict(store, base, Some(target), source, merge, p, rank)
    {
      ConflictReported(merge, baseFiles, targetFiles, sourceFiles, targetDiff, sourceDiff, merger.cleanDiff, conflicts,
          p);
      MeetsByDiffs(store, base, source, Some(target), p, rank, baseFiles, sourceFiles, targetFiles, sourceDiff,
          targetDiff);
      MeetsByDiffs(store, base, Some(target), source, p, rank, baseFiles, targetFiles, sourceFiles, targetDiff,
          sourceDiff);
    }
    forall p | p in conflicts
      ensures ConflictHolds(store, base, Some(target), source, merge, p, Get(files, p), rank)
      ensures && conflicts[p].base == At(store, base, p, rank)
              && conflicts[p].target == At(store, Some(target), p, rank)
              && conflicts[p].source == At(store, source, p, rank)
    {
      NoConflictAtRoot(store, base, target, source, merge, rank, baseFiles, targetFiles, sourceFiles, targetDiff,
          sourceDiff, merger.cleanDiff, conflicts);
      ConflictRecordsVersions(merge, baseFiles, targetFiles, sourceFiles, targetDiff, sourceDiff, merger.cleanDiff,
          conflicts, p);
      ConflictPathContent(merge, baseFiles, targetFiles, sourceFiles, targetDiff, sourceDiff, merger.cleanDiff,
          conflicts, p);
      MeetsByDiffs(store, base, source, Some(target), p, rank, baseFiles, sourceFiles, targetFiles, sourceDiff,
          targetDiff);
      MeetsByDiffs(store, base, Some(target), source, p, rank, baseFiles, targetFiles, sourceFiles, targetDiff,
          sourceDiff);
    }
  }
}
