/** The file-level merge of merge.go: decide each path both sides may have touched, then give way where
    a file of one side meets a directory of the other. */
module TreeMerge {
  import opened Common
  import opened Paths
  import opened Trees

  datatype MergeConflict = MergeConflict(base: Option<TreeEntry>, target: Option<TreeEntry>, source: Option<TreeEntry>,
      renamed: Option<TreeEntry>)

  /** The blob that merges three versions of a file, and whether it holds conflicts (writeBlobWithDiff3). */
  type BlobMerge = (Option<Oid>, Oid, Oid) -> (Oid, bool)

  datatype PathResult = PathResult(change: Option<TreeChange>, conflict: Option<MergeConflict>)

  /** Three-way choice of one attribute: what only one side changed, or what both agree on. */
  function Choose<T(==)>(base: Option<T>, target: T, source: T): Option<T>
  {
    if target == source then Some(target)
    else match base
      case Some(b) => if b == target then Some(source) else if b == source then Some(target) else None
      case None => None
  }

  /** samePathConflict: what becomes of a path the source changed. */
  function SamePath(merge: BlobMerge, targetChange: Option<TreeChange>, sourceChange: TreeChange): PathResult
  {
    match targetChange
    case None => PathResult(Some(sourceChange), None)
    case Some(tc) =>
      var base := sourceChange.was;
      match (tc.now, sourceChange.now)
      case (Some(target), Some(source)) =>
        if target == source then PathResult(None, None) else
        var oidMaybe := Choose(if base.Some? then Some(base.value.oid) else None, target.oid, source.oid);
        var modeMaybe := Choose(if base.Some? then Some(base.value.mode) else None, target.mode, source.mode);
        var blob := merge(if base.Some? then Some(base.value.oid) else None, target.oid, source.oid);
        // merging the blobs overwrites what was known about the modes
        var hasConflict := if oidMaybe.None? then blob.1 else modeMaybe.None?;
        var oid := if oidMaybe.None? then blob.0 else oidMaybe.value;
        var mode := if modeMaybe.None? then target.mode else modeMaybe.value;
        PathResult(Some(TreeChange(tc.now, Some(TreeEntry(oid, mode)))),
                   if hasConflict then Some(MergeConflict(base, Some(target), Some(source), None)) else None)
      case (Some(target), None) =>
        PathResult(Some(TreeChange(tc.now, Some(target))), Some(MergeConflict(base, Some(target), None, None)))
      case (None, Some(source)) =>
        PathResult(Some(TreeChange(tc.now, Some(source))), Some(MergeConflict(base, None, Some(source), None)))
      case (None, None) => PathResult(None, None)
  }

  // ---------------------------------------------------------------------------
  // the merge, path by path
  // ---------------------------------------------------------------------------

  /** The diff puts a file somewhere below directory d. */
  ghost predicate AddsBelow(diff: Diff, d: Path)
  {
    exists p :: p in diff && ProperPrefix(d, p) && diff[p].now.Some?
  }

  /** The diff puts a file at d. */
  predicate Puts(diff: Diff, d: Path)
  {
    d in diff && diff[d].now.Some?
  }

  /** What the clean diff holds for a path in the end. */
  ghost function CleanChange(merge: BlobMerge, targetDiff: Diff, sourceDiff: Diff, p: Path): Option<TreeChange>
  {
    if Puts(sourceDiff, p) && AddsBelow(targetDiff, p) then None
    else if Puts(targetDiff, p) && AddsBelow(sourceDiff, p) then Some(TreeChange(targetDiff[p].now, None))
    else if p in sourceDiff then SamePath(merge, Get(targetDiff, p), sourceDiff[p]).change
    else None
  }

  /** The conflict reported for a path in the end. */
  ghost function PathConflict(merge: BlobMerge, targetDiff: Diff, sourceDiff: Diff, p: Path): Option<MergeConflict>
  {
    if Puts(sourceDiff, p) && AddsBelow(targetDiff, p) then
      Some(MergeConflict(sourceDiff[p].was, None, sourceDiff[p].now, sourceDiff[p].now))
    else if Puts(targetDiff, p) && AddsBelow(sourceDiff, p) then
      Some(MergeConflict(targetDiff[p].was, targetDiff[p].now, None, targetDiff[p].now))
    else if p in sourceDiff then SamePath(merge, Get(targetDiff, p), sourceDiff[p]).conflict
    else None
  }

  datatype Side = Target | Source

  class Merger {
    const merge: BlobMerge
    const targetDiff: Diff
    const sourceDiff: Diff
    var cleanDiff: Diff
    var conflicts: map<Path, MergeConflict>
    var autoResolved: set<Path>

    constructor (merge: BlobMerge, targetDiff: Diff, sourceDiff: Diff)
      ensures this.merge == merge && this.targetDiff == targetDiff && this.sourceDiff == sourceDiff
      ensures cleanDiff == map[] && conflicts == map[] && autoResolved == {}
    {
      this.merge, this.targetDiff, this.sourceDiff := merge, targetDiff, sourceDiff;
      cleanDiff, conflicts, autoResolved := map[], map[], {};
    }

    /** The first loop: every path the source changed, in any order. */
    method SamePaths()
      requires cleanDiff == map[] && conflicts == map[] && autoResolved == {}
      modifies this
      ensures forall p ::
                Get(cleanDiff, p) ==
                if p in sourceDiff then SamePath(merge, Get(targetDiff, p), sourceDiff[p]).change else None
      ensures forall p ::
                Get(conflicts, p) ==
                if p in sourceDiff then SamePath(merge, Get(targetDiff, p), sourceDiff[p]).conflict else None
      ensures autoResolved == set p | p in sourceDiff && p !in conflicts
    {
      var todo := sourceDiff.Keys;
      while todo != {}
        invariant todo <= sourceDiff.Keys
        invariant forall p ::
                    Get(cleanDiff, p) ==
                    if p in sourceDiff && p !in todo then SamePath(merge, Get(targetDiff, p), sourceDiff[p]).change
                    else None
        invariant forall p ::
                    Get(conflicts, p) ==
                    if p in sourceDiff && p !in todo then SamePath(merge, Get(targetDiff, p), sourceDiff[p]).conflict
                    else None
        invariant autoResolved == set p | p in sourceDiff && p !in todo && p !in conflicts
        decreases todo
      {
        var path :| path in todo;
        assert Get(cleanDiff, path) == None && Get(conflicts, path) == None;
        var result := SamePath(merge, Get(targetDiff, path), sourceDiff[path]);
        if result.change.Some? {
          cleanDiff := cleanDiff[path := result.change.value];
        }
        if result.conflict.Some? {
          conflicts := conflicts[path := result.conflict.value];
        } else {
          autoResolved := autoResolved + {path};
        }
        todo := todo - {path};
      }
    }

    /** fileDirConflict: for each directory on the way to path, from the deepest up, the file that the diff
        puts in its place gives way. */
    method FileDirConflict(path: Path, diff: Diff, kind: Side)
      modifies this`cleanDiff, this`conflicts
      ensures forall p :: Get(conflicts, p) == if ProperPrefix(p, path) && Puts(diff, p)
                                               then Some(Yielded(diff[p], kind)) else Get(old(conflicts), p)
      ensures forall p :: Get(cleanDiff, p) == if ProperPrefix(p, path) && Puts(diff, p)
                                               then YieldedChange(diff[p], kind) else Get(old(cleanDiff), p)
    {
      hide ProperPrefix, Yielded, YieldedFrom, DroppedFrom;
      var parentPath := path;
      NoneYielded(diff, path, kind, conflicts, cleanDiff);
      while |parentPath| > 1
        invariant parentPath <= path
        invariant YieldedFrom(diff, path, |parentPath|, kind, old(conflicts), conflicts)
        invariant DroppedFrom(diff, path, |parentPath|, kind, old(cleanDiff), cleanDiff)
        decreases |parentPath|
      {
        ghost var c, d := conflicts, cleanDiff;
        ghost var current := parentPath;
        parentPath := parentPath[..|parentPath| - 1];
        if Puts(diff, parentPath) {
          var change := diff[parentPath];
          conflicts := conflicts[parentPath := Yielded(change, kind)];
          if kind == Target {
            cleanDiff := cleanDiff[parentPath := TreeChange(change.now, None)];
          } else {
            cleanDiff := cleanDiff - {parentPath};
          }
        }
        YieldsNext(diff, path, current, kind, old(conflicts), c, conflicts);
        DropsNext(diff, path, current, kind, old(cleanDiff), d, cleanDiff);
      }
      AllYielded(diff, path, |parentPath|, kind, old(conflicts), conflicts, old(cleanDiff), cleanDiff);
    }

    /** One of the two loops over the files that one side puts somewhere, in any order. */
    method FileDirConflicts(movers: Diff, diff: Diff, kind: Side)
      modifies this`cleanDiff, this`conflicts
      ensures forall p ::
                Get(conflicts, p) ==
                if AddsBelow(movers, p) && Puts(diff, p) then Some(Yielded(diff[p], kind)) else Get(old(conflicts), p)
      ensures forall p ::
                Get(cleanDiff, p) ==
                if AddsBelow(movers, p) && Puts(diff, p) then YieldedChange(diff[p], kind) else Get(old(cleanDiff), p)
    {
      var todo := movers.Keys;
      ghost var done: set<Path> := {};
      while todo != {}
        invariant todo + done == movers.Keys && todo !! done
        invariant forall p ::
                    Get(conflicts, p) ==
                    if AddsBelowAmong(movers, done, p) && Puts(diff, p) then Some(Yielded(diff[p], kind))
                    else Get(old(conflicts), p)
        invariant forall p ::
                    Get(cleanDiff, p) ==
                    if AddsBelowAmong(movers, done, p) && Puts(diff, p) then YieldedChange(diff[p], kind)
                    else Get(old(cleanDiff), p)
        decreases todo
      {
        var path :| path in todo;
        if movers[path].now.Some? {
          FileDirConflict(path, diff, kind);
        }
        AddsBelowNext(movers, done, path);
        todo := todo - {path};
        done := done + {path};
      }
      AddsBelowAll(movers);
      assert done == movers.Keys;
    }

    /** Compute the clean diff and the conflicts. */
    method Run()
      requires cleanDiff == map[] && conflicts == map[] && autoResolved == {}
      modifies this
      ensures forall p :: Get(cleanDiff, p) == CleanChange(merge, targetDiff, sourceDiff, p)
      ensures forall p :: Get(conflicts, p) == PathConflict(merge, targetDiff, sourceDiff, p)
    {
      SamePaths();
      FileDirConflicts(sourceDiff, targetDiff, Target);
      FileDirConflicts(targetDiff, sourceDiff, Source);
    }
  }

  /** Of the directories on the way to path, those of at least this depth have given way. */
  ghost predicate YieldedFrom(diff: Diff, path: Path, depth: nat, kind: Side, was: map<Path, MergeConflict>,
                              now: map<Path, MergeConflict>)
  {
    forall p :: Get(now, p) == if |p| >= depth && ProperPrefix(p, path) && Puts(diff, p)
                               then Some(Yielded(diff[p], kind)) else Get(was, p)
  }

  ghost predicate DroppedFrom(diff: Diff, path: Path, depth: nat, kind: Side, was: Diff, now: Diff)
  {
    forall p :: Get(now, p) == if |p| >= depth && ProperPrefix(p, path) && Puts(diff, p)
                               then YieldedChange(diff[p], kind) else Get(was, p)
  }

  lemma NoneYielded(diff: Diff, path: Path, kind: Side, conflicts: map<Path, MergeConflict>, clean: Diff)
    ensures YieldedFrom(diff, path, |path|, kind, conflicts, conflicts)
    ensures DroppedFrom(diff, path, |path|, kind, clean, clean)
  {
  }

  lemma AllYielded(diff: Diff, path: Path, depth: nat, kind: Side, c: map<Path, MergeConflict>,
                   conflicts: map<Path, MergeConflict>, d: Diff, clean: Diff)
    requires depth <= 1 && YieldedFrom(diff, path, depth, kind, c, conflicts)
    requires DroppedFrom(diff, path, depth, kind, d, clean)
    ensures forall p :: Get(conflicts, p) == if ProperPrefix(p, path) && Puts(diff, p)
                                             then Some(Yielded(diff[p], kind)) else Get(c, p)
    ensures forall p :: Get(clean, p) == if ProperPrefix(p, path) && Puts(diff, p)
                                         then YieldedChange(diff[p], kind) else Get(d, p)
  {
    assert forall p :: ProperPrefix(p, path) ==> |p| >= depth;
  }

  lemma YieldsNext(diff: Diff, path: Path, current: Path, kind: Side, was: map<Path, MergeConflict>,
                   c: map<Path, MergeConflict>, now: map<Path, MergeConflict>)
    requires current <= path && |current| > 1 && YieldedFrom(diff, path, |current|, kind, was, c)
    requires var parent := current[..|current| - 1];
             now == if Puts(diff, parent) then c[parent := Yielded(diff[parent], kind)] else c
    ensures YieldedFrom(diff, path, |current| - 1, kind, was, now)
  {
    hide ProperPrefix, Yielded;
    OneParent(path, current);
  }

  lemma DropsNext(diff: Diff, path: Path, current: Path, kind: Side, was: Diff, c: Diff, now: Diff)
    requires current <= path && |current| > 1 && DroppedFrom(diff, path, |current|, kind, was, c)
    requires var parent := current[..|current| - 1];
             now == if !Puts(diff, parent) then c
                    else if kind == Target then c[parent := TreeChange(diff[parent].now, None)]
                    else c - {parent}
    ensures DroppedFrom(diff, path, |current| - 1, kind, was, now)
  {
    hide ProperPrefix;
    OneParent(path, current);
  }

  /** Among the directories of a path, the parent of the current one is the only one of its length. */
  lemma OneParent(path: Path, current: Path)
    requires current <= path && |current| > 1
    ensures var parent := current[..|current| - 1];
            && parent <= path && ProperPrefix(parent, path)
            && forall p :: ProperPrefix(p, path) && |p| >= |parent| ==> p == parent || |p| >= |current|
  {
  }

  /** The conflict recorded for a file that gives way to a directory of the other side. */
  function Yielded(change: TreeChange, kind: Side): MergeConflict
  {
    if kind == Target then MergeConflict(change.was, change.now, None, change.now)
    else MergeConflict(change.was, None, change.now, change.now)
  }

  /** What the clean diff does with it: take the target's file away, or do not bring in the source's. */
  function YieldedChange(change: TreeChange, kind: Side): Option<TreeChange>
  {
    if kind == Target then Some(TreeChange(change.now, None)) else None
  }

  ghost predicate AddsBelowAmong(diff: Diff, ps: set<Path>, d: Path)
  {
    exists p :: p in ps && p in diff && ProperPrefix(d, p) && diff[p].now.Some?
  }

  lemma AddsBelowNext(diff: Diff, done: set<Path>, path: Path)
    requires path in diff
    ensures forall d ::
              AddsBelowAmong(diff, done + {path}, d)
              <==> AddsBelowAmong(diff, done, d) || (ProperPrefix(d, path) && diff[path].now.Some?)
  {
    forall d
      ensures AddsBelowAmong(diff, done + {path}, d)
              <==> AddsBelowAmong(diff, done, d) || (ProperPrefix(d, path) && diff[path].now.Some?)
    {
      if AddsBelowAmong(diff, done, d) {
        var p :| p in done && p in diff && ProperPrefix(d, p) && diff[p].now.Some?;
        assert p in done + {path};
      }
      if ProperPrefix(d, path) && diff[path].now.Some? {
        assert path in done + {path};
      }
    }
  }

  lemma AddsBelowAll(diff: Diff)
    ensures forall d :: AddsBelowAmong(diff, diff.Keys, d) <==> AddsBelow(diff, d)
  {
    forall d
      ensures AddsBelowAmong(diff, diff.Keys, d) <==> AddsBelow(diff, d)
    {
      if AddsBelow(diff, d) {
        var p :| p in diff && ProperPrefix(d, p) && diff[p].now.Some?;
        assert p in diff.Keys;
      }
    }
  }

  // ---------------------------------------------------------------------------
  // what the merge means
  // ---------------------------------------------------------------------------

  /** td and sd are the diffs from base to target and to source, and clean and conflicts are what Run makes of them. */
  ghost predicate IsMerge(merge: BlobMerge, base: FileMap, target: FileMap, source: FileMap, td: Diff, sd: Diff,
                          clean: Diff, conflicts: map<Path, MergeConflict>)
  {
    && IsDiff(td, base, target) && IsDiff(sd, base, source)
    && (forall p :: Get(clean, p) == CleanChange(merge, td, sd, p))
    && (forall p :: Get(conflicts, p) == PathConflict(merge, td, sd, p))
  }

  /** The merged entry of a file that both sides changed differently: id and mode are merged separately. */
  function Combined(merge: BlobMerge, base: Option<TreeEntry>, target: TreeEntry, source: TreeEntry): TreeEntry
  {
    var baseOid := if base.Some? then Some(base.value.oid) else None;
    var baseMode := if base.Some? then Some(base.value.mode) else None;
    var oid := Choose(baseOid, target.oid, source.oid);
    var mode := Choose(baseMode, target.mode, source.mode);
    TreeEntry(if oid.Some? then oid.value else merge(baseOid, target.oid, source.oid).0,
              if mode.Some? then mode.value else target.mode)
  }

  /** The entry of a path in the merge, when no conflict is reported for it. */
  function MergedEntry(merge: BlobMerge, base: Option<TreeEntry>, target: Option<TreeEntry>,
      source: Option<TreeEntry>): Option<TreeEntry>
  {
    if source == base then target
    else if target == base then source
    else if target == source then target
    else match (target, source)
      case (Some(t), Some(s)) => Some(Combined(merge, base, t, s))
      case _ => None
  }

  /** The facts about one path. */
  lemma AtPath(merge: BlobMerge, base: FileMap, target: FileMap, source: FileMap, td: Diff, sd: Diff,
               clean: Diff, conflicts: map<Path, MergeConflict>, p: Path)
    requires IsMerge(merge, base, target, source, td, sd, clean, conflicts)
    ensures Get(td, p) == if Get(base, p) == Get(target, p) then None
            else Some(TreeChange(Get(base, p), Get(target, p)))
    ensures Get(sd, p) == if Get(base, p) == Get(source, p) then None
            else Some(TreeChange(Get(base, p), Get(source, p)))
    ensures Get(clean, p) == CleanChange(merge, td, sd, p)
    ensures Get(conflicts, p) == PathConflict(merge, td, sd, p)
    ensures Get(Apply(clean, target), p) == if p in clean then clean[p].now else Get(target, p)
  {
    ApplyGet(clean, target, p);
  }

  /** A path without conflict holds what the three versions determine. */
  lemma CleanPathContent(merge: BlobMerge, base: FileMap, target: FileMap, source: FileMap, td: Diff, sd: Diff,
                         clean: Diff, conflicts: map<Path, MergeConflict>, p: Path)
    requires IsMerge(merge, base, target, source, td, sd, clean, conflicts) && p !in conflicts
    ensures Get(Apply(clean, target), p) == MergedEntry(merge, Get(base, p), Get(target, p), Get(source, p))
  {
    hide IsMerge, AddsBelow, Apply;
    AtPath(merge, base, target, source, td, sd, clean, conflicts, p);
  }

  /** Two files of one side are never one below the other; neither are two files of the merge. */
  lemma MergedIsPrefixFree(merge: BlobMerge, base: FileMap, target: FileMap, source: FileMap, td: Diff, sd: Diff,
                           clean: Diff, conflicts: map<Path, MergeConflict>)
    requires IsMerge(merge, base, target, source, td, sd, clean, conflicts)
    requires PrefixFree(base.Keys) && PrefixFree(target.Keys) && PrefixFree(source.Keys)
    ensures PrefixFree(Apply(clean, target).Keys)
  {
    forall d, p | d in Apply(clean, target) && p in Apply(clean, target)
      ensures !ProperPrefix(d, p)
    {
      if ProperPrefix(d, p) {
        NotBoth(merge, base, target, source, td, sd, clean, conflicts, d, p);
      }
    }
  }

  /** Every file of the merge is a file of the target, or one the source put there. */
  lemma MergedComesFrom(merge: BlobMerge, base: FileMap, target: FileMap, source: FileMap, td: Diff, sd: Diff,
                        clean: Diff, conflicts: map<Path, MergeConflict>, p: Path)
    requires IsMerge(merge, base, target, source, td, sd, clean, conflicts)
    ensures p in Apply(clean, target) ==> p in target || Puts(sd, p)
    ensures Puts(sd, p) ==> p in source
    ensures p in target && !Puts(td, p) ==> p in base
    ensures p in base && p !in source && !Puts(td, p) ==> p !in Apply(clean, target)
  {
    hide IsMerge, AddsBelow, Apply;
    AtPath(merge, base, target, source, td, sd, clean, conflicts, p);
  }

  lemma NotBoth(merge: BlobMerge, base: FileMap, target: FileMap, source: FileMap, td: Diff, sd: Diff,
                clean: Diff, conflicts: map<Path, MergeConflict>, d: Path, p: Path)
    requires IsMerge(merge, base, target, source, td, sd, clean, conflicts)
    requires PrefixFree(base.Keys) && PrefixFree(target.Keys) && PrefixFree(source.Keys)
    requires ProperPrefix(d, p)
    ensures d !in Apply(clean, target) || p !in Apply(clean, target)
  {
    hide IsMerge, Apply;
    MergedComesFrom(merge, base, target, source, td, sd, clean, conflicts, d);
    MergedComesFrom(merge, base, target, source, td, sd, clean, conflicts, p);
    AtPath(merge, base, target, source, td, sd, clean, conflicts, d);
    if Puts(sd, p) {
      assert AddsBelow(sd, d);
    }
    if Puts(td, p) {
      assert AddsBelow(td, d);
    }
  }

  // laws

  /** The source brought nothing: the merge is the target. */
  lemma UnchangedSource(merge: BlobMerge, base: FileMap, target: FileMap, source: FileMap, td: Diff, sd: Diff,
                        clean: Diff, conflicts: map<Path, MergeConflict>)
    requires IsMerge(merge, base, target, source, td, sd, clean, conflicts) && source == base
    ensures Apply(clean, target) == target && conflicts == map[]
  {
    forall p
      ensures p !in sd
    {
      AtPath(merge, base, target, source, td, sd, clean, conflicts, p);
    }
    forall p
      ensures p !in conflicts && Get(Apply(clean, target), p) == Get(target, p)
    {
      AtPath(merge, base, target, source, td, sd, clean, conflicts, p);
    }
    SameGetSameMap(Apply(clean, target), target);
  }

  /** The target changed nothing: the merge is the source. */
  lemma UnchangedTarget(merge: BlobMerge, base: FileMap, target: FileMap, source: FileMap, td: Diff, sd: Diff,
                        clean: Diff, conflicts: map<Path, MergeConflict>)
    requires IsMerge(merge, base, target, source, td, sd, clean, conflicts) && target == base
    ensures Apply(clean, target) == source && conflicts == map[]
  {
    forall p
      ensures p !in td
    {
      AtPath(merge, base, target, source, td, sd, clean, conflicts, p);
    }
    forall p
      ensures p !in conflicts && Get(Apply(clean, target), p) == Get(source, p)
    {
      AtPath(merge, base, target, source, td, sd, clean, conflicts, p);
    }
    SameGetSameMap(Apply(clean, target), source);
  }

  /** Both sides made the same changes: the merge is their common result. */
  lemma SameChanges(merge: BlobMerge, base: FileMap, target: FileMap, source: FileMap, td: Diff, sd: Diff,
                    clean: Diff, conflicts: map<Path, MergeConflict>)
    requires IsMerge(merge, base, target, source, td, sd, clean, conflicts) && target == source
    requires PrefixFree(target.Keys)
    ensures Apply(clean, target) == target && conflicts == map[]
  {
    hide IsMerge, Apply;
    forall p
      ensures p in td ==> td[p].now == Get(target, p)
      ensures p in sd ==> sd[p].now == Get(target, p)
    {
      AtPath(merge, base, target, source, td, sd, clean, conflicts, p);
    }
    forall p
      ensures p !in conflicts && Get(Apply(clean, target), p) == Get(target, p)
    {
      AtPath(merge, base, target, source, td, sd, clean, conflicts, p);
    }
    SameGetSameMap(Apply(clean, target), target);
  }

  // ---------------------------------------------------------------------------
  // when a conflict is reported
  // ---------------------------------------------------------------------------

  /** Neither side left the attribute as it was, and they disagree. */
  predicate Clash<T(==)>(base: Option<T>, target: T, source: T)
  {
    target != source && base != Some(target) && base != Some(source)
  }

  function OidOf(e: Option<TreeEntry>): Option<Oid> { if e.Some? then Some(e.value.oid) else None }
  function ModeOf(e: Option<TreeEntry>): Option<Mode> { if e.Some? then Some(e.value.mode) else None }

  /** The clean diff starts from what the target has, so that it can be carried out on the target. */
  lemma CleanDiffFitsTarget(merge: BlobMerge, base: FileMap, target: FileMap, source: FileMap, td: Diff, sd: Diff,
                            clean: Diff, conflicts: map<Path, MergeConflict>, p: Path)
    requires IsMerge(merge, base, target, source, td, sd, clean, conflicts) && p in clean
    ensures clean[p].was == Get(target, p)
  {
    hide IsMerge, AddsBelow, Apply;
    AtPath(merge, base, target, source, td, sd, clean, conflicts, p);
  }

  /** A side that puts a file below p has no file at p. */
  lemma NoFileAbove(side: FileMap, base: FileMap, diff: Diff, p: Path)
    requires PrefixFree(side.Keys) && IsDiff(diff, base, side) && p != []
    ensures AddsBelow(diff, p) ==> Get(side, p) == None
  {
    if AddsBelow(diff, p) {
      var q :| q in diff && ProperPrefix(p, q) && diff[q].now.Some?;
      assert Get(diff, q) == Some(TreeChange(Get(base, q), Get(side, q)));
      assert q in side;
    }
  }

  /** A conflict records the three versions of its path, and keeps a copy of a file that gives way. */
  lemma ConflictRecordsVersions(merge: BlobMerge, base: FileMap, target: FileMap, source: FileMap, td: Diff, sd: Diff,
                                clean: Diff, conflicts: map<Path, MergeConflict>, p: Path)
    requires IsMerge(merge, base, target, source, td, sd, clean, conflicts) && p in conflicts && p != []
    requires PrefixFree(target.Keys) && PrefixFree(source.Keys)
    ensures var c := conflicts[p];
            && c.base == Get(base, p) && c.target == Get(target, p) && c.source == Get(source, p)
            && c.renamed == if Puts(sd, p) && AddsBelow(td, p) then Get(source, p)
                            else if Puts(td, p) && AddsBelow(sd, p) then Get(target, p) else None
  {
    hide AddsBelow, Apply, PrefixFree;
    NoFileAbove(target, base, td, p);
    NoFileAbove(source, base, sd, p);
    AtPath(merge, base, target, source, td, sd, clean, conflicts, p);
  }

  /** What the merge holds at a path in conflict: nothing where a file gives way to a directory, the changed file where
      the other side deleted it, and otherwise both files combined. */
  lemma ConflictPathContent(merge: BlobMerge, base: FileMap, target: FileMap, source: FileMap, td: Diff, sd: Diff,
                            clean: Diff, conflicts: map<Path, MergeConflict>, p: Path)
    requires IsMerge(merge, base, target, source, td, sd, clean, conflicts) && p in conflicts && p != []
    requires PrefixFree(target.Keys)
    ensures var now := Get(Apply(clean, target), p);
            if (Puts(sd, p) && AddsBelow(td, p)) || (Puts(td, p) && AddsBelow(sd, p)) then now == None
            else match (Get(target, p), Get(source, p))
                 case (Some(t), None) => now == Some(t)
                 case (None, Some(s)) => now == Some(s)
                 case (Some(t), Some(s)) => now == Some(Combined(merge, Get(base, p), t, s))
                 case (None, None) => false
  {
    hide AddsBelow, Apply, PrefixFree;
    NoFileAbove(target, base, td, p);
    AtPath(merge, base, target, source, td, sd, clean, conflicts, p);
  }

  /** Combining takes of id and mode what only one side has changed, and what both have in common; where both have
      changed it, the merged blob, and the target's mode. */
  lemma CombinedTakesChanges(merge: BlobMerge, base: Option<TreeEntry>, target: TreeEntry, source: TreeEntry)
    ensures var e := Combined(merge, base, target, source);
            && (OidOf(base) == Some(target.oid) ==> e.oid == source.oid)
            && (OidOf(base) == Some(source.oid) ==> e.oid == target.oid)
            && (target.oid == source.oid ==> e.oid == target.oid)
            && (Clash(OidOf(base), target.oid, source.oid) ==>
                  e.oid == merge(OidOf(base), target.oid, source.oid).0)
            && (ModeOf(base) == Some(target.mode) ==> e.mode == source.mode)
            && (ModeOf(base) == Some(source.mode) || target.mode == source.mode ==> e.mode == target.mode)
            && (Clash(ModeOf(base), target.mode, source.mode) ==> e.mode == target.mode)
  {
  }

  /** A conflict is reported for a path exactly when a file meets a directory, when one side deleted what the other
      changed, or when both put different files there and the blob merge conflicts; if the ids do not clash,
      when the modes do. */
  lemma ConflictReported(merge: BlobMerge, base: FileMap, target: FileMap, source: FileMap, td: Diff, sd: Diff,
                         clean: Diff, conflicts: map<Path, MergeConflict>, p: Path)
    requires IsMerge(merge, base, target, source, td, sd, clean, conflicts)
    ensures p in conflicts <==>
            || (Puts(sd, p) && AddsBelow(td, p))
            || (Puts(td, p) && AddsBelow(sd, p))
            || (&& Get(source, p) != Get(base, p) && Get(target, p) != Get(base, p) && Get(source, p) != Get(target, p)
                && match (Get(target, p), Get(source, p))
                   case (Some(t), Some(s)) =>
                     if Clash(OidOf(Get(base, p)), t.oid, s.oid) then merge(OidOf(Get(base, p)), t.oid, s.oid).1
                     else Clash(ModeOf(Get(base, p)), t.mode, s.mode)
                   case _ => true)
  {
    hide IsMerge, AddsBelow, Apply;
    AtPath(merge, base, target, source, td, sd, clean, conflicts, p);
  }

  /** One would expect a clash of modes to be reported. It is, unless the ids clash too and the blobs merge cleanly:
      exactly then the target's mode wins silently. */
  lemma ModeClashReported(merge: BlobMerge, base: Option<TreeEntry>, target: TreeEntry, source: TreeEntry)
    requires Clash(ModeOf(base), target.mode, source.mode)
    ensures var r := SamePath(merge, Some(TreeChange(base, Some(target))), TreeChange(base, Some(source)));
            && r.change.Some?
            && (r.conflict.Some? <==>
                !(Clash(OidOf(base), target.oid, source.oid) && !merge(OidOf(base), target.oid, source.oid).1))
            && r.change.value.now == Some(Combined(merge, base, target, source))
            && r.change.value.now.value.mode == target.mode
  {
  }
}
