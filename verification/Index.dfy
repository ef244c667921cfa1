/** The index (index.go): entries in four slots a path, and the directory maps that are derived from them. */
module Indexes {
  import opened Common
  import opened Paths
  import opened Trees

  datatype Stat = Stat(ctimeSecs: nat, ctimeNsecs: nat, mtimeSecs: nat, mtimeNsecs: nat, dev: nat, ino: nat, uid: nat,
      gid: nat, fileSize: nat)

  datatype IndexEntry = IndexEntry(stat: Stat, mode: Mode, oid: Oid, flags: nat, path: Path)

  /** Slot 0 is for merged entries, slots 1 to 3 for the sides of a conflict. */
  type Slots = seq<Option<IndexEntry>>

  const NO_ENTRIES: Slots := [None, None, None, None]
  const NO_STAT := Stat(0, 0, 0, 0, 0, 0, 0, 0, 0)

  function Stage(flags: nat): (s: nat)
    ensures s < 4
  {
    (flags / 4096) % 4
  }

  /** The stage is in the two bits above the twelve that hold the length of the path. */
  lemma StageBits(top: nat, stage: nat, length: nat)
    requires stage < 4 && length < 4096
    ensures Stage(top * 0x4000 + stage * 0x1000 + length) == stage
  {
    var flags := top * 0x4000 + stage * 0x1000 + length;
    assert flags == 4096 * (4 * top + stage) + length;
  }

  /** The slots of a path after an entry has been added. */
  function Staged(slots: Slots, e: IndexEntry): (r: Slots)
    requires |slots| == 4
    ensures |r| == 4
  {
    var kept := if Stage(e.flags) == 0 then NO_ENTRIES else slots[0 := None];
    kept[Stage(e.flags) := Some(e)]
  }

  /** A merged entry and entries of a conflict are never there together; every entry is in its slot. */
  ghost predicate GoodSlots(p: Path, slots: Slots)
  {
    && |slots| == 4 && p != []
    && (exists s :: 0 <= s < 4 && slots[s].Some?)
    && (slots[0].Some? ==> slots[1].None? && slots[2].None? && slots[3].None?)
    && forall s :: 0 <= s < 4 && slots[s].Some? ==> slots[s].value.path == p && Stage(slots[s].value.flags) == s
  }

  lemma StagedIsGood(p: Path, slots: Slots, e: IndexEntry)
    requires |slots| == 4 && e.path == p && p != []
    requires slots == NO_ENTRIES || GoodSlots(p, slots)
    ensures GoodSlots(p, Staged(slots, e))
  {
    assert Staged(slots, e)[Stage(e.flags)].Some?;
  }

  // --------------------------------------------------------------------------
  // Directory maps
  // --------------------------------------------------------------------------

  type PathsOfDirs = map<Path, set<Path>>
  type NamesOfDirs = map<Path, set<Name>>

  /** The paths below a directory; p counts for directories of at least k names. */
  function Below(ps: set<Path>, p: Path, k: nat, d: Path): set<Path>
  {
    (set q | q in ps && d < q) + if d < p && |d| >= k then {p} else {}
  }

  function NamesAt(ps: set<Path>, i: nat): set<Name>
  {
    set q | q in ps && i < |q| :: q[i]
  }

  /** The maps are about the directories of the paths, p counting as in Below. */
  ghost predicate DirsAre(ps: set<Path>, p: Path, k: nat, toPaths: PathsOfDirs, toChildren: NamesOfDirs)
  {
    forall d: Path :: DirIs(ps, p, k, toPaths, toChildren, d)
  }

  ghost predicate DirIs(ps: set<Path>, p: Path, k: nat, toPaths: PathsOfDirs, toChildren: NamesOfDirs, d: Path)
  {
    var below := Below(ps, p, k, d);
    && (d in toPaths <==> d != [] && below != {})
    && (d in toChildren <==> d in toPaths)
    && (d in toPaths ==> d in toChildren && toPaths[d] == below && toChildren[d] == NamesAt(below, |d|))
  }

  /** The maps are what the paths say: each directory has the paths below it, and the next names of these paths. */
  ghost predicate MapsAgree(ps: set<Path>, toPaths: PathsOfDirs, toChildren: NamesOfDirs, root: set<Name>)
  {
    DirsAre(ps, [], 0, toPaths, toChildren) && root == NamesAt(ps, 0)
  }

  /** There is only one way to agree with the paths. */
  lemma MapsAgreeOnce(ps: set<Path>, toPaths: PathsOfDirs, toChildren: NamesOfDirs, root: set<Name>,
                      toPaths': PathsOfDirs, toChildren': NamesOfDirs, root': set<Name>)
    requires MapsAgree(ps, toPaths, toChildren, root) && MapsAgree(ps, toPaths', toChildren', root')
    ensures toPaths == toPaths' && toChildren == toChildren' && root == root'
  {
    hide Below, NamesAt;
    forall d: Path
      ensures d in toPaths <==> d in toPaths'
      ensures d in toChildren <==> d in toChildren'
      ensures d in toPaths ==> toPaths[d] == toPaths'[d]
      ensures d in toChildren ==> toChildren[d] == toChildren'[d]
    {
      assert DirIs(ps, [], 0, toPaths, toChildren, d) && DirIs(ps, [], 0, toPaths', toChildren', d);
    }
    assert toPaths.Keys == toPaths'.Keys && toChildren.Keys == toChildren'.Keys;
  }

  function SetAt<T>(m: map<Path, set<T>>, d: Path): set<T> { if d in m then m[d] else {} }

  lemma DirAdded(ps: set<Path>, p: Path, k: nat, toPaths: PathsOfDirs, toChildren: NamesOfDirs)
    requires 0 < k < |p| && DirsAre(ps, p, k + 1, toPaths, toChildren)
    ensures var d := p[..k];
            DirsAre(ps, p, k, toPaths[d := SetAt(toPaths, d) + {p}], toChildren[d := SetAt(toChildren, d) + {p[k]}])
  {
    var d := p[..k];
    var toPaths', toChildren' := toPaths[d := SetAt(toPaths, d) + {p}], toChildren[d := SetAt(toChildren, d) + {p[k]}];
    forall e: Path
      ensures DirIs(ps, p, k, toPaths', toChildren', e)
    {
      assert DirIs(ps, p, k + 1, toPaths, toChildren, e);
      if e == d {
        assert Below(ps, p, k, d) == Below(ps, p, k + 1, d) + {p};
        NameAdded(Below(ps, p, k + 1, d), k, p);
        assert Below(ps, p, k + 1, d) == {} ==>
                 SetAt(toPaths, d) == {}
                 && SetAt(toChildren, d) == {} == NamesAt(Below(ps, p, k + 1, d), k);
      } else {
        assert |e| == k ==> !(e < p);
        assert Below(ps, p, k, e) == Below(ps, p, k + 1, e);
      }
    }
  }

  lemma NameAdded(ps: set<Path>, i: nat, p: Path)
    requires i < |p|
    ensures NamesAt(ps + {p}, i) == NamesAt(ps, i) + {p[i]}
  {
  }

  lemma NothingAdded(ps: set<Path>, p: Path, toPaths: PathsOfDirs, toChildren: NamesOfDirs)
    requires DirsAre(ps, [], 0, toPaths, toChildren)
    ensures DirsAre(ps, p, |p|, toPaths, toChildren)
  {
    forall d: Path
      ensures DirIs(ps, p, |p|, toPaths, toChildren, d)
    {
      assert DirIs(ps, [], 0, toPaths, toChildren, d);
      assert Below(ps, p, |p|, d) == Below(ps, [], 0, d);
    }
  }

  lemma AllAdded(ps: set<Path>, p: Path, toPaths: PathsOfDirs, toChildren: NamesOfDirs)
    requires DirsAre(ps, p, 1, toPaths, toChildren)
    ensures DirsAre(ps + {p}, [], 0, toPaths, toChildren)
  {
    forall d: Path
      ensures DirIs(ps + {p}, [], 0, toPaths, toChildren, d)
    {
      assert DirIs(ps, p, 1, toPaths, toChildren, d);
      if d != [] {
        assert Below(ps + {p}, [], 0, d) == Below(ps, p, 1, d);
      }
    }
  }

  lemma RootAdded(ps: set<Path>, p: Path)
    requires p != []
    ensures NamesAt(ps + {p}, 0) == NamesAt(ps, 0) + {p[0]}
  {
  }

  // --------------------------------------------------------------------------
  // The index
  // --------------------------------------------------------------------------

  type Entries = map<Path, Slots>

  function SlotsOf(entries: Entries, p: Path): Slots { if p in entries then entries[p] else NO_ENTRIES }

  function WithEntry(entries: Entries, e: IndexEntry): Entries
    requires forall p :: p in entries ==> |entries[p]| == 4
  {
    entries[e.path := Staged(SlotsOf(entries, e.path), e)]
  }

  function Without(entries: Entries, p: Path): Entries
  {
    map q | q in entries && !(p <= q) :: entries[q]
  }

  ghost predicate GoodEntries(entries: Entries)
  {
    forall p :: p in entries ==> GoodSlots(p, entries[p])
  }

  class Index {
    var entries: Entries
    var dirToPaths: PathsOfDirs
    var dirToChildren: NamesOfDirs
    var rootChildren: set<Name>

    ghost predicate Valid()
      reads this
    {
      GoodEntries(entries) && MapsAgree(entries.Keys, dirToPaths, dirToChildren, rootChildren)
    }

    constructor ()
      ensures Valid() && entries == map[]
    {
      entries, dirToPaths, dirToChildren, rootChildren := map[], map[], map[], {};
    }

    /** Enter a path in the maps: in those of all its directories, from the innermost outward, and in the root. */
    method Record(ghost ps: set<Path>, p: Path)
      requires p != [] && MapsAgree(ps, dirToPaths, dirToChildren, rootChildren)
      modifies this`dirToPaths, this`dirToChildren, this`rootChildren
      ensures MapsAgree(ps + {p}, dirToPaths, dirToChildren, rootChildren)
    {
      hide DirsAre, NamesAt, Below;
      var child, parent := p[|p| - 1], p[..|p| - 1];
      NothingAdded(ps, p, dirToPaths, dirToChildren);
      while parent != []
        invariant |parent| < |p| && parent == p[..|parent|] && child == p[|parent|]
        invariant DirsAre(ps, p, |parent| + 1, dirToPaths, dirToChildren) && rootChildren == old(rootChildren)
        decreases |parent|
      {
        DirAdded(ps, p, |parent|, dirToPaths, dirToChildren);
        dirToChildren := dirToChildren[parent := SetAt(dirToChildren, parent) + {child}];
        dirToPaths := dirToPaths[parent := SetAt(dirToPaths, parent) + {p}];
        child, parent := parent[|parent| - 1], parent[..|parent| - 1];
      }
      AllAdded(ps, p, dirToPaths, dirToChildren);
      RootAdded(ps, p);
      rootChildren := rootChildren + {child};
    }

    /** Add an entry: a merged one takes the place of a conflict, and one of a conflict that of a merged one. */
    method AddEntry(e: IndexEntry)
      requires Valid() && e.path != []
      modifies this
      ensures Valid() && entries == WithEntry(old(entries), e)
    {
      hide MapsAgree, GoodSlots;
      ghost var ps := entries.Keys;
      SlotsAreFour(entries);
      StagedAdded(entries, e);
      var stage := Stage(e.flags);
      var slots := NO_ENTRIES;
      if e.path in entries {
        slots := entries[e.path];
        if stage == 0 {
          slots := slots[1 := None][2 := None][3 := None];
        } else {
          slots := slots[0 := None];
        }
      }
      slots := slots[stage := Some(e)];
      assert slots == Staged(SlotsOf(entries, e.path), e);
      entries := entries[e.path := slots];
      Record(ps, e.path);
      assert entries.Keys == ps + {e.path};
    }

    /** Add the entries of a conflict: those of the base, the target and the source, in slots 1 to 3. */
    method AddConflictEntries(p: Path, treeEntries: seq<Option<TreeEntry>>)
      requires Valid() && p != [] && |treeEntries| == 3
      modifies this
      ensures Valid() && entries == WithConflict(old(entries), p, treeEntries, 3)
    {
      hide MapsAgree, GoodEntries, WithEntry;
      SlotsAreFour(entries);
      for i := 0 to 3
        invariant Valid() && entries == WithConflict(old(entries), p, treeEntries, i)
      {
        if treeEntries[i].Some? {
          AddEntry(ConflictEntry(p, treeEntries[i].value, i));
        }
      }
    }

    /** Remove a path, or all paths below a directory, and say which. */
    method RemovePath(p: Path, removedPaths: set<Path>) returns (removed: set<Path>)
      requires Valid()
      modifies this
      ensures Valid() && entries == if p == [] then old(entries) else Without(old(entries), p)
      ensures removed == removedPaths + (old(entries).Keys - entries.Keys)
    {
      hide GoodEntries, MapsAgree;
      RemovedBelow(entries, p, dirToPaths, dirToChildren, rootChildren);
      removed := removedPaths;
      ghost var before := entries;
      if p in entries {
        entries := entries - {p};
        removed := removed + {p};
      }
      assert entries == before - {p};
      assert entries == before - {p} - {};
      if p in dirToPaths {
        removed := RemoveAll(dirToPaths[p], removed);
      }
      RebuildDirMaps();
    }

    method RemoveAll(ps: set<Path>, removedPaths: set<Path>) returns (removed: set<Path>)
      modifies this`entries
      ensures entries == old(entries) - ps && removed == removedPaths + (old(entries).Keys * ps)
    {
      NothingGone(entries, removedPaths);
      removed := removedPaths;
      var left := ps;
      ghost var gone: set<Path> := {};
      while left != {}
        invariant gone + left == ps && Gone(old(entries), gone, entries, removedPaths, removed)
        decreases |left|
      {
        var q :| q in left;
        GoneNext(old(entries), gone, entries, removedPaths, removed, q);
        left, gone := left - {q}, gone + {q};
        if q in entries {
          entries := entries - {q};
          removed := removed + {q};
        }
      }
      assert gone == ps;
    }

    /** Make the maps anew, taking the paths in any order. */
    method RebuildDirMaps()
      requires GoodEntries(entries)
      modifies this`dirToPaths, this`dirToChildren, this`rootChildren
      ensures Valid()
    {
      hide MapsAgree;
      dirToPaths, dirToChildren, rootChildren := map[], map[], {};
      NothingAgrees();
      var left := entries.Keys;
      assert left - left == {};
      while left != {}
        invariant left <= entries.Keys && MapsAgree(entries.Keys - left, dirToPaths, dirToChildren, rootChildren)
        decreases |left|
      {
        var p :| p in left;
        var slots := entries[p];
        var s := 0;
        while s < 4 && slots[s].None?
          invariant 0 <= s <= 4 && forall j :: 0 <= j < s ==> slots[j].None?
        {
          s := s + 1;
        }
        if s < 4 {
          Record(entries.Keys - left, p);
        }
        assert entries.Keys - (left - {p}) == (entries.Keys - left) + {p};
        left := left - {p};
      }
      assert entries.Keys - {} == entries.Keys;
    }

    /** Put a file of the work directory in place: remove files that are directories of its path, remove the path and
        what is below it, and add the entry. */
    method StageFile(e: IndexEntry)
      requires Valid() && e.path != [] && Stage(e.flags) == 0
      modifies this
      ensures Valid() && e.path in entries && entries[e.path] == [Some(e), None, None, None]
      ensures PrefixFree(old(entries).Keys)
              ==> entries == WithoutRelated(old(entries), e.path)[e.path := [Some(e), None, None, None]]
      ensures PrefixFree(old(entries).Keys) ==> PrefixFree(entries.Keys)
    {
      hide MapsAgree, GoodEntries, PrefixFree;
      ghost var before := entries;
      NoDirsRemoved(before, e.path);
      PathsNotEmpty(before);
      for i := 1 to |e.path|
        invariant Valid() && (PrefixFree(before.Keys) ==> entries == WithoutDirs(before, e.path, i))
      {
        DirRemoved(before, e.path, i);
        if e.path[..i] in entries {
          var _ := RemovePath(e.path[..i], {});
        }
      }
      var _ := RemovePath(e.path, {});
      RelatedRemoved(before, e.path);
      AddEntry(e);
      assert PrefixFree(before.Keys) ==> entries.Keys == WithoutRelated(before, e.path).Keys + {e.path};
    }
  }

  /** Without the directories of p that have fewer than n names. */
  function WithoutDirs(entries: Entries, p: Path, n: nat): Entries
  {
    map q | q in entries && !(ProperPrefix(q, p) && |q| < n) :: entries[q]
  }

  /** Without p, its directories, and what is below p. */
  function WithoutRelated(entries: Entries, p: Path): Entries
  {
    map q | q in entries && !(q <= p || p <= q) :: entries[q]
  }

  lemma NoDirsRemoved(entries: Entries, p: Path)
    ensures WithoutDirs(entries, p, 1) == entries
  {
    assert forall q :: ProperPrefix(q, p) ==> |q| >= 1;
  }

  lemma DirRemoved(entries: Entries, p: Path, i: nat)
    requires 0 < i < |p|
    ensures var left := WithoutDirs(entries, p, i);
            PrefixFree(entries.Keys) ==>
              WithoutDirs(entries, p, i + 1) ==
              if p[..i] in left then Without(left, p[..i]) else left
  {
    if PrefixFree(entries.Keys) {
      var d, left := p[..i], WithoutDirs(entries, p, i);
      assert d != [] && d < p;
      forall q | q in entries
        ensures ProperPrefix(q, p) && |q| < i + 1 <==> (ProperPrefix(q, p) && |q| < i) || q == d
        ensures d in left && q in left && d <= q ==> q == d
      {
        assert d <= q && q != d ==> ProperPrefix(d, q);
      }
    }
  }

  lemma RelatedRemoved(entries: Entries, p: Path)
    requires p != [] && [] !in entries
    ensures Without(WithoutDirs(entries, p, |p|), p) == WithoutRelated(entries, p)
    ensures PrefixFree(entries.Keys) ==> PrefixFree(WithoutRelated(entries, p).Keys + {p})
    ensures p !in WithoutRelated(entries, p)
  {
  }

  lemma NothingAgrees()
    ensures MapsAgree({}, map[], map[], {})
  {
  }

  /** Some paths have gone from the entries, and been added to those that were removed. */
  ghost predicate Gone(before: Entries, gone: set<Path>, entries: Entries, removedPaths: set<Path>, removed: set<Path>)
  {
    entries == before - gone && removed == removedPaths + (before.Keys * gone)
  }

  lemma NothingGone(entries: Entries, removedPaths: set<Path>)
    ensures Gone(entries, {}, entries, removedPaths, removedPaths)
  {
    assert entries - {} == entries;
  }

  lemma GoneNext(before: Entries, gone: set<Path>, entries: Entries, removedPaths: set<Path>, removed: set<Path>,
      q: Path)
    requires Gone(before, gone, entries, removedPaths, removed)
    ensures if q in entries then Gone(before, gone + {q}, entries - {q}, removedPaths, removed + {q})
            else Gone(before, gone + {q}, entries, removedPaths, removed)
  {
  }

  /** The maps tell what is below a path. */
  lemma RemovedBelow(entries: Entries, p: Path, toPaths: PathsOfDirs, toChildren: NamesOfDirs, root: set<Name>)
    requires MapsAgree(entries.Keys, toPaths, toChildren, root) && GoodEntries(entries)
    ensures var rest := if p == [] then entries else Without(entries, p);
            && rest == entries - {p} - (if p in toPaths then toPaths[p] else {}) && GoodEntries(rest)
            && entries.Keys - rest.Keys
               == (entries.Keys * {p}) + ((entries - {p}).Keys * (if p in toPaths then toPaths[p] else {}))
  {
    hide GoodSlots;
    assert DirIs(entries.Keys, [], 0, toPaths, toChildren, p);
    var below := if p in toPaths then toPaths[p] else {};
    forall q | q in entries
      ensures q == p || q in below <==> p != [] && p <= q
    {
      assert q != [] by { assert GoodSlots(q, entries[q]); PathNotEmpty(q, entries[q]); }
      assert p != [] ==> (q in below <==> p < q);
    }
  }

  lemma PathNotEmpty(p: Path, slots: Slots)
    requires GoodSlots(p, slots)
    ensures p != []
  {
  }

  function ConflictEntry(p: Path, te: TreeEntry, i: nat): IndexEntry
  {
    IndexEntry(NO_STAT, te.mode, te.oid, (i + 1) * 4096 + |Join(p)| % 4096, p)
  }

  /** The entries after the first n sides of a conflict have been added. */
  function WithConflict(entries: Entries, p: Path, treeEntries: seq<Option<TreeEntry>>, n: nat): (r: Entries)
    requires n <= |treeEntries| && forall q :: q in entries ==> |entries[q]| == 4
    ensures forall q :: q in r ==> |r[q]| == 4
  {
    if n == 0 then entries
    else
      var r := WithConflict(entries, p, treeEntries, n - 1);
      if treeEntries[n - 1].None? then r else WithEntry(r, ConflictEntry(p, treeEntries[n - 1].value, n - 1))
  }

  lemma ConflictStage(p: Path, te: TreeEntry, i: nat)
    requires i < 3
    ensures Stage(ConflictEntry(p, te, i).flags) == i + 1 && ConflictEntry(p, te, i).path == p
  {
    var n := |Join(p)| % 4096;
    assert ((i + 1) * 4096 + n) / 4096 == i + 1;
  }

  /** Slot i + 1 after the first n sides have been added to some slots. */
  predicate SideIs(slots: Slots, before: Slots, p: Path, treeEntries: seq<Option<TreeEntry>>, n: nat, i: nat)
    requires |slots| == 4 && |before| == 4 && |treeEntries| == 3 && i < 3
  {
    slots[i + 1] == if i < n && treeEntries[i].Some? then Some(ConflictEntry(p, treeEntries[i].value, i))
        else before[i + 1]
  }

  /** Conflict entries fill the slots of the sides that exist, leave the slots of the others, and clear slot 0. */
  lemma {:induction false} ConflictSlots(entries: Entries, p: Path, treeEntries: seq<Option<TreeEntry>>, n: nat)
    requires p != [] && n <= |treeEntries| == 3
    requires forall q :: q in entries ==> |entries[q]| == 4
    ensures var r := WithConflict(entries, p, treeEntries, n);
            && (forall q :: q != p ==> SlotsOf(r, q) == SlotsOf(entries, q))
            && |SlotsOf(r, p)| == 4
            && (SlotsOf(r, p)[0] == if exists i :: 0 <= i < n && treeEntries[i].Some? then None
                else SlotsOf(entries, p)[0])
            && forall i :: 0 <= i < 3 ==> SideIs(SlotsOf(r, p), SlotsOf(entries, p), p, treeEntries, n, i)
  {
    hide Stage, Staged, ConflictEntry;
    if n > 0 {
      ConflictSlots(entries, p, treeEntries, n - 1);
      var before, now := SlotsOf(WithConflict(entries, p, treeEntries, n - 1), p),
          SlotsOf(WithConflict(entries, p, treeEntries, n), p);
      if treeEntries[n - 1].Some? {
        var e := ConflictEntry(p, treeEntries[n - 1].value, n - 1);
        ConflictStage(p, treeEntries[n - 1].value, n - 1);
        StagedSlots(before, e, n);
      }
      forall i | 0 <= i < 3
        ensures SideIs(now, SlotsOf(entries, p), p, treeEntries, n, i)
      {
        assert SideIs(before, SlotsOf(entries, p), p, treeEntries, n - 1, i);
      }
    }
  }

  lemma StagedSlots(slots: Slots, e: IndexEntry, n: nat)
    requires |slots| == 4 && Stage(e.flags) == n && n > 0
    ensures Staged(slots, e) == slots[0 := None][n := Some(e)]
  {
  }

  lemma PathsNotEmpty(entries: Entries)
    requires GoodEntries(entries)
    ensures [] !in entries
  {
  }

  lemma SlotsAreFour(entries: Entries)
    requires GoodEntries(entries)
    ensures forall p :: p in entries ==> |entries[p]| == 4
  {
  }

  lemma StagedAdded(entries: Entries, e: IndexEntry)
    requires GoodEntries(entries) && e.path != []
    ensures (forall p :: p in entries ==> |entries[p]| == 4) && GoodEntries(WithEntry(entries, e))
  {
    SlotsAreFour(entries);
    StagedIsGood(e.path, SlotsOf(entries, e.path), e);
  }
}
