/** Building tree objects from the index (addIndexEntries and writeTree of object.go), and what they flatten to. */
module TreeBuilding {
  import opened Common
  import opened Bytes
  import opened Paths
  import opened Trees
  import opened Indexes
  import opened Sorting
  import TreeDiffs
  import TreeFormat

  /** How names are written as bytes, and the hash of a tree object. */
  datatype Naming = Naming(nameBytes: Name -> seq<Byte>, hash: seq<ContentEntry> -> Oid)

  const SLASH: Byte := 47

  ghost predicate GoodNaming(naming: Naming)
  {
    && (forall m, n :: naming.nameBytes(m) == naming.nameBytes(n) ==> m == n)
    && (forall n :: '/' !in n ==> SLASH !in naming.nameBytes(n))
    && forall s, t :: naming.hash(s) == naming.hash(t) ==> s == t
  }

  // --------------------------------------------------------------------------
  // The order of entries in a tree object
  // --------------------------------------------------------------------------

  /** Directories sort as if their names ended in a slash. */
  function SortKey(naming: Naming, e: ContentEntry): seq<Byte>
  {
    naming.nameBytes(e.name) + if IsTreeMode(e.entry.mode) then [SLASH] else []
  }

  function ByKey(naming: Naming): (ContentEntry, ContentEntry) -> bool
  {
    (a, b) => Compare(SortKey(naming, a), SortKey(naming, b)) < 0
  }

  lemma ByKeyIsOrder(naming: Naming)
    ensures IsOrder(ByKey(naming))
  {
    hide SortKey;
    forall a, b
      ensures ByKey(naming)(a, b) ==> !ByKey(naming)(b, a)
    {
      CompareFlipped(SortKey(naming, a), SortKey(naming, b));
    }
    forall a, b, c
      ensures !ByKey(naming)(a, b) && !ByKey(naming)(b, c) ==> !ByKey(naming)(a, c)
    {
      var x, y, z := SortKey(naming, a), SortKey(naming, b), SortKey(naming, c);
      CompareFlipped(x, y);
      CompareFlipped(y, z);
      CompareFlipped(x, z);
      CompareEqual(x, y);
      CompareEqual(y, z);
      if Compare(z, y) < 0 && Compare(y, x) < 0 {
        CompareTransitive(z, y, x);
      }
    }
  }

  predicate GoodNames(es: seq<ContentEntry>)
  {
    && (forall i, j :: 0 <= i < j < |es| ==> es[i].name != es[j].name)
    && forall e :: e in es ==> '/' !in e.name
  }

  /** Entries of different names have different keys, so that their order is determined. */
  lemma KeysDiffer(naming: Naming, a: ContentEntry, b: ContentEntry)
    requires GoodNaming(naming) && a.name != b.name && '/' !in a.name && '/' !in b.name
    ensures ByKey(naming)(a, b) || ByKey(naming)(b, a)
  {
    var x, y := naming.nameBytes(a.name), naming.nameBytes(b.name);
    var k, l := SortKey(naming, a), SortKey(naming, b);
    CompareFlipped(k, l);
    CompareEqual(k, l);
    assert SLASH !in x && SLASH !in y && x != y;
    assert k != l by {
      assert k[..|x|] == x && l[..|y|] == y;
      assert IsTreeMode(a.entry.mode) ==> k[|k| - 1] == SLASH;
      assert IsTreeMode(b.entry.mode) ==> l[|l| - 1] == SLASH;
      assert |x| > 0 ==> x[|x| - 1] in x;
      assert |y| > 0 ==> y[|y| - 1] in y;
    }
  }

  /** There is one tree object for a set of entries. */
  lemma OneTree(naming: Naming, s: seq<ContentEntry>, t: seq<ContentEntry>)
    requires GoodNaming(naming) && GoodNames(s) && GoodNames(t)
    requires Ordered(ByKey(naming), s) && Ordered(ByKey(naming), t) && forall e :: e in s <==> e in t
    ensures s == t
  {
    hide GoodNaming;
    ByKeyIsOrder(naming);
    forall a, b | a in s && b in s && a != b
      ensures ByKey(naming)(a, b) || ByKey(naming)(b, a)
    {
      KeysDiffer(naming, a, b);
    }
    OrderedOnce(ByKey(naming), s, t);
  }

  /** What follows the name in the path of a file at or below an entry: nothing for a file, a slash and more for a
      directory. */
  predicate RestOfPath(e: ContentEntry, rest: seq<Byte>)
  {
    if IsTreeMode(e.entry.mode) then rest != [] && rest[0] == 47 else rest == []
  }

  /** All files at and below the entries come in the byte order of their path strings. */
  ghost predicate InPathOrder(naming: Naming, es: seq<ContentEntry>)
  {
    forall i, j, u, v :: 0 <= i < j < |es| && RestOfPath(es[i], u) && RestOfPath(es[j], v) ==>
      Compare(naming.nameBytes(es[i].name) + u, naming.nameBytes(es[j].name) + v) < 0
  }

  lemma {:induction false} PathsLikeKeys(x: seq<Byte>, y: seq<Byte>, k: seq<Byte>, l: seq<Byte>, u: seq<Byte>,
      v: seq<Byte>)
    requires SLASH !in x && SLASH !in y && x != y
    requires (k == [] && u == []) || (k == [SLASH] && u != [] && u[0] == SLASH)
    requires (l == [] && v == []) || (l == [SLASH] && v != [] && v[0] == SLASH)
    ensures Compare(x + k, y + l) < 0 <==> Compare(x + u, y + v) < 0
    decreases |x|
  {
    if x != [] && y != [] {
      if x[0] == y[0] {
        assert x == [x[0]] + x[1..] && y == [y[0]] + y[1..];
        PathsLikeKeys(x[1..], y[1..], k, l, u, v);
        assert (x + k)[1..] == x[1..] + k && (y + l)[1..] == y[1..] + l;
        assert (x + u)[1..] == x[1..] + u && (y + v)[1..] == y[1..] + v;
      }
    } else if x != [] {
      assert y + l == l && y + v == v && x[0] in x;
    } else {
      assert x + k == k && x + u == u && y[0] in y;
    }
  }

  /** The order of the keys is the order of the paths. */
  lemma OrderedByPath(naming: Naming, es: seq<ContentEntry>)
    requires GoodNaming(naming) && GoodNames(es) && Ordered(ByKey(naming), es)
    ensures InPathOrder(naming, es)
  {
    forall i, j, u, v | 0 <= i < j < |es| && RestOfPath(es[i], u) && RestOfPath(es[j], v)
      ensures Compare(naming.nameBytes(es[i].name) + u, naming.nameBytes(es[j].name) + v) < 0
    {
      var a, b := es[i], es[j];
      assert a in es && b in es;
      KeysDiffer(naming, a, b);
      assert !ByKey(naming)(b, a);
      NamesDiffer(naming, a.name, b.name);
      PathsLikeKeys(naming.nameBytes(a.name), naming.nameBytes(b.name),
          if IsTreeMode(a.entry.mode) then [SLASH] else [], if IsTreeMode(b.entry.mode) then [SLASH] else [], u, v);
    }
  }

  lemma NamesDiffer(naming: Naming, m: Name, n: Name)
    requires GoodNaming(naming) && m != n && '/' !in m && '/' !in n
    ensures naming.nameBytes(m) != naming.nameBytes(n)
    ensures SLASH !in naming.nameBytes(m) && SLASH !in naming.nameBytes(n)
  {
  }

  // --------------------------------------------------------------------------
  // Tree objects that say what the index says
  // --------------------------------------------------------------------------

  type TreeObjects = map<Oid, seq<ContentEntry>>

  /** Names directly below a directory. */
  function NamesBelow(entries: Entries, prefix: Path): set<Name>
  {
    set q | q in entries && prefix < q :: q[|prefix|]
  }

  /** The merged entry of a path, as a tree object has it. */
  function Merged(entries: Entries, p: Path): Option<TreeEntry>
  {
    if p in entries && |entries[p]| == 4 && entries[p][0].Some? then
      Some(TreeEntry(entries[p][0].value.oid, TreeFormat.Written(entries[p][0].value.mode)))
    else None
  }

  /** The object of this oid has, below prefix, what the index has; conflicts are left out. */
  ghost predicate IsTreeOf(entries: Entries, prefix: Path, oid: Oid, trees: TreeObjects, naming: Naming, bound: nat)
    decreases bound - |prefix|
  {
    && |prefix| < bound
    && oid in trees && naming.hash(trees[oid]) == oid
    && GoodNames(trees[oid]) && Ordered(ByKey(naming), trees[oid])
    && forall n :: NameIsRight(entries, prefix, n, Get(EntryMap(trees[oid]), n), trees, naming, bound)
  }

  ghost predicate NameIsRight(entries: Entries, prefix: Path, n: Name, e: Option<TreeEntry>, trees: TreeObjects,
      naming: Naming, bound: nat)
    requires |prefix| < bound
    decreases bound - |prefix|, 0
  {
    if n !in NamesBelow(entries, prefix) then e == None
    else if prefix + [n] in entries then e == Merged(entries, prefix + [n])
    else
      && e.Some? && e.value.mode == TreeFormat.DIRECTORY
      && IsTreeOf(entries, prefix + [n], e.value.oid, trees, naming, bound)
  }

  ghost predicate Extends(trees: TreeObjects, more: TreeObjects)
  {
    forall o :: o in trees ==> o in more && more[o] == trees[o]
  }

  lemma {:induction false} StillTreeOf(entries: Entries, prefix: Path, oid: Oid, trees: TreeObjects, more: TreeObjects,
      naming: Naming, bound: nat)
    requires IsTreeOf(entries, prefix, oid, trees, naming, bound) && Extends(trees, more)
    ensures IsTreeOf(entries, prefix, oid, more, naming, bound)
    decreases bound - |prefix|
  {
    hide Ordered, GoodNames;
    var names := EntryMap(trees[oid]);
    forall n
      ensures NameIsRight(entries, prefix, n, Get(names, n), more, naming, bound)
    {
      assert NameIsRight(entries, prefix, n, Get(names, n), trees, naming, bound);
      NameStillRight(entries, prefix, n, Get(names, n), trees, more, naming, bound);
    }
  }

  lemma {:induction false} NameStillRight(entries: Entries, prefix: Path, n: Name, e: Option<TreeEntry>,
      trees: TreeObjects, more: TreeObjects, naming: Naming, bound: nat)
    requires |prefix| < bound && NameIsRight(entries, prefix, n, e, trees, naming, bound) && Extends(trees, more)
    ensures NameIsRight(entries, prefix, n, e, more, naming, bound)
    decreases bound - |prefix|, 0
  {
    if n in NamesBelow(entries, prefix) && prefix + [n] !in entries {
      StillTreeOf(entries, prefix + [n], e.value.oid, trees, more, naming, bound);
    }
  }

  /** The members of a tree object, by name. */
  lemma {:induction false} MemberByName(es: seq<ContentEntry>, e: ContentEntry)
    requires GoodNames(es)
    ensures e in es <==> Get(EntryMap(es), e.name) == Some(e.entry)
    decreases |es|
  {
    if es != [] {
      var init, last := es[..|es| - 1], es[|es| - 1];
      assert es == init + [last];
      assert forall x :: x in init ==> x in es;
      MemberByName(init, e);
      EarlierNameDiffers(es, e);
    }
  }

  lemma EarlierNameDiffers(es: seq<ContentEntry>, e: ContentEntry)
    requires GoodNames(es) && es != []
    ensures e in es[..|es| - 1] ==> e.name != es[|es| - 1].name
  {
    if e in es[..|es| - 1] {
      var i :| 0 <= i < |es| - 1 && es[..|es| - 1][i] == e;
      assert es[i] == e;
    }
  }

  /** The index determines the oid: in whatever order entries were added, and whatever else has been written. */
  lemma {:induction false} OidIsDetermined(entries: Entries, prefix: Path, a: Oid, b: Oid, trees: TreeObjects,
      others: TreeObjects, naming: Naming, bound: nat)
    requires GoodNaming(naming)
    requires IsTreeOf(entries, prefix, a, trees, naming, bound) && IsTreeOf(entries, prefix, b, others, naming, bound)
    ensures a == b
    decreases bound - |prefix|
  {
    hide Ordered, GoodNames, GoodNaming;
    var s, t := trees[a], others[b];
    forall n
      ensures Get(EntryMap(s), n) == Get(EntryMap(t), n)
    {
      assert NameIsRight(entries, prefix, n, Get(EntryMap(s), n), trees, naming, bound);
      assert NameIsRight(entries, prefix, n, Get(EntryMap(t), n), others, naming, bound);
      if n in NamesBelow(entries, prefix) && prefix + [n] !in entries {
        OidIsDetermined(entries, prefix + [n], EntryMap(s)[n].oid, EntryMap(t)[n].oid, trees, others, naming, bound);
      }
    }
    forall e
      ensures e in s <==> e in t
    {
      MemberByName(s, e);
      MemberByName(t, e);
    }
    OneTree(naming, s, t);
  }

  // --------------------------------------------------------------------------
  // Flattening
  // --------------------------------------------------------------------------

  function View(trees: TreeObjects): Store
  {
    (o: Oid) => if o in trees then TreeObj(trees[o]) else BlobObj
  }

  /** The merged entries of an index with modes that trees can have. */
  ghost predicate FileModes(entries: Entries)
  {
    forall p :: Merged(entries, p).Some? ==> !IsTreeMode(Merged(entries, p).value.mode)
  }

  lemma NothingBelow(entries: Entries, prefix: Path, p: Path)
    requires p != [] && p[0] !in NamesBelow(entries, prefix)
    ensures Merged(entries, prefix + p) == None
  {
    assert prefix < prefix + p && (prefix + p)[|prefix|] == p[0];
  }

  lemma LookUp(trees: TreeObjects, oid: Oid, p: Path, rank: Oid -> nat)
    requires Ranked(View(trees), rank) && oid in trees && p != []
    ensures At(View(trees), Some(oid), p, rank) == EntryAt(View(trees), Get(EntryMap(trees[oid]), p[0]), p[1..], rank)
  {
  }

  lemma LookUpEntry(trees: TreeObjects, e: Option<TreeEntry>, r: Path, rank: Oid -> nat)
    requires Ranked(View(trees), rank)
    ensures EntryAt(View(trees), e, r, rank) ==
            if e == None then None
            else if IsTreeMode(e.value.mode) then if r == [] then None else At(View(trees), Some(e.value.oid), r, rank)
            else if r == [] then e else None
  {
  }

  /** A tree for the index has exactly the merged entries of the index, at the same paths. */
  lemma {:induction false} TreeFlattensToIndex(entries: Entries, prefix: Path, oid: Oid, trees: TreeObjects,
      naming: Naming, bound: nat, p: Path, rank: Oid -> nat)
    requires IsTreeOf(entries, prefix, oid, trees, naming, bound) && Ranked(View(trees), rank)
    requires PrefixFree(entries.Keys) && FileModes(entries) && p != []
    ensures At(View(trees), Some(oid), p, rank) == Merged(entries, prefix + p)
    decreases |p|
  {
    hide Ordered, GoodNames, PrefixFree, FileModes, Merged, At, EntryAt, EntryMap, Ranked, NamesBelow;
    var n, path, rest := p[0], prefix + [p[0]], p[1..];
    var e := Get(EntryMap(trees[oid]), n);
    LookUp(trees, oid, p, rank);
    LookUpEntry(trees, e, rest, rank);
    assert NameIsRight(entries, prefix, n, e, trees, naming, bound);
    assert prefix + p == path + rest;
    if n !in NamesBelow(entries, prefix) {
      NothingBelow(entries, prefix, p);
    } else if path in entries {
      NothingBesideFile(entries, path, rest);
    } else if rest == [] {
      assert path + rest == path;
      NotMerged(entries, path);
    } else {
      TreeFlattensToIndex(entries, path, e.value.oid, trees, naming, bound, rest, rank);
    }
  }

  lemma NotMerged(entries: Entries, p: Path)
    requires p !in entries
    ensures Merged(entries, p) == None
  {
  }

  lemma NothingBesideFile(entries: Entries, path: Path, rest: Path)
    requires path in entries && path != [] && PrefixFree(entries.Keys) && FileModes(entries)
    ensures Merged(entries, path + rest) == if rest == [] then Merged(entries, path) else None
    ensures Merged(entries, path).Some? ==> !IsTreeMode(Merged(entries, path).value.mode)
  {
    if rest == [] {
      assert path + rest == path;
    } else {
      assert ProperPrefix(path, path + rest);
    }
  }

  // --------------------------------------------------------------------------
  // Writing trees
  // --------------------------------------------------------------------------

  function RankOf(rank: map<Oid, nat>): Oid -> nat { (o: Oid) => if o in rank then rank[o] else 0 }

  /** Stored trees are named by their hash, and contain only trees that have been stored before them. */
  ghost predicate GoodTrees(naming: Naming, trees: TreeObjects, rank: map<Oid, nat>)
  {
    && GoodNaming(naming) && rank.Keys == trees.Keys
    && forall o :: o in trees ==>
         naming.hash(trees[o]) == o && GoodNames(trees[o])
         && SubtreesBelow(trees[o], rank, rank[o])
  }

  ghost predicate SubtreesBelow(es: seq<ContentEntry>, rank: map<Oid, nat>, r: nat)
  {
    forall e :: e in es && IsTreeMode(e.entry.mode) ==> e.entry.oid in rank && rank[e.entry.oid] < r
  }

  ghost function Above(es: seq<ContentEntry>, rank: map<Oid, nat>): (r: nat)
    requires forall e :: e in es && IsTreeMode(e.entry.mode) ==> e.entry.oid in rank
    ensures SubtreesBelow(es, rank, r)
  {
    if es == [] then 0
    else
      var init, last := es[..|es| - 1], es[|es| - 1];
      assert es == init + [last];
      var r := Above(init, rank);
      if IsTreeMode(last.entry.mode) && rank[last.entry.oid] >= r then rank[last.entry.oid] + 1 else r
  }

  lemma TreesAreRanked(naming: Naming, trees: TreeObjects, rank: map<Oid, nat>)
    requires GoodTrees(naming, trees, rank)
    ensures Ranked(View(trees), RankOf(rank)) && TreeDiffs.WellFormed(View(trees))
  {
    hide GoodNaming, SubtreesBelow, GoodNames;
    forall o | o in trees
      ensures forall e ::
                e in trees[o] && IsTreeMode(e.entry.mode)
                ==> e.entry.oid in trees && RankOf(rank)(e.entry.oid) < RankOf(rank)(o)
      ensures TreeDiffs.DistinctNames(trees[o])
    {
      Subtrees(trees[o], rank, rank[o]);
      NamesDistinct(trees[o]);
    }
    ViewRanked(trees, rank);
    ViewWellFormed(trees);
  }

  lemma Subtrees(es: seq<ContentEntry>, rank: map<Oid, nat>, r: nat)
    requires SubtreesBelow(es, rank, r)
    ensures forall e :: e in es && IsTreeMode(e.entry.mode) ==> e.entry.oid in rank && RankOf(rank)(e.entry.oid) < r
  {
  }

  lemma NamesDistinct(es: seq<ContentEntry>)
    requires GoodNames(es)
    ensures TreeDiffs.DistinctNames(es)
  {
  }

  lemma ViewRanked(trees: TreeObjects, rank: map<Oid, nat>)
    requires forall o :: o in trees ==>
               forall e :: e in trees[o] && IsTreeMode(e.entry.mode) ==> RankOf(rank)(e.entry.oid) < RankOf(rank)(o)
    ensures Ranked(View(trees), RankOf(rank))
  {
    hide RankOf;
    forall o
      ensures match View(trees)(o)
              case TreeObj(es) =>
                forall e :: e in es && IsTreeMode(e.entry.mode) ==> RankOf(rank)(e.entry.oid) < RankOf(rank)(o)
              case CommitObj(t) => RankOf(rank)(t) < RankOf(rank)(o)
              case _ => true
    {
    }
  }

  lemma ViewWellFormed(trees: TreeObjects)
    requires forall o :: o in trees ==>
               && TreeDiffs.DistinctNames(trees[o])
               && forall e :: e in trees[o] && IsTreeMode(e.entry.mode) ==> e.entry.oid in trees
    ensures TreeDiffs.WellFormed(View(trees))
  {
    hide TreeDiffs.DistinctNames;
  }

  lemma TreeStored(naming: Naming, trees: TreeObjects, rank: map<Oid, nat>, es: seq<ContentEntry>, r: nat)
    requires GoodTrees(naming, trees, rank) && GoodNames(es) && SubtreesBelow(es, rank, r)
    ensures var oid := naming.hash(es);
            if oid in trees then trees[oid] == es else GoodTrees(naming, trees[oid := es], rank[oid := r])
  {
  }

  class ObjectStore {
    const naming: Naming
    var trees: TreeObjects
    ghost var rank: map<Oid, nat>

    ghost predicate Valid()
      reads this
    {
      GoodTrees(naming, trees, rank)
    }

    constructor (naming: Naming)
      requires GoodNaming(naming)
      ensures Valid() && trees == map[] && this.naming == naming
    {
      this.naming, trees, rank := naming, map[], map[];
    }

    /** Sort the entries and store them as a tree object. */
    method WriteTree(entries: seq<ContentEntry>) returns (oid: Oid)
      requires Valid() && GoodNames(entries)
      requires forall e :: e in entries && IsTreeMode(e.entry.mode) ==> e.entry.oid in trees
      modifies this
      ensures Valid() && Extends(old(trees), trees)
      ensures oid in trees && naming.hash(trees[oid]) == oid
      ensures GoodNames(trees[oid]) && Ordered(ByKey(naming), trees[oid])
      ensures forall e :: e in trees[oid] <==> e in entries
      ensures InPathOrder(naming, trees[oid])
    {
      hide Ordered, GoodNaming, IsOrder, ByKey, InPathOrder;
      ByKeyIsOrder(naming);
      var sorted := Sort(ByKey(naming), entries);
      SortedNames(entries, sorted);
      ghost var r := Above(sorted, rank);
      TreeStored(naming, trees, rank, sorted, r);
      OrderedByPath(naming, sorted);
      oid := naming.hash(sorted);
      if oid !in trees {
        trees, rank := trees[oid := sorted], rank[oid := r];
      }
    }
  }

  lemma SortedNames(es: seq<ContentEntry>, sorted: seq<ContentEntry>)
    requires GoodNames(es) && Distinct(sorted) && forall e :: e in sorted <==> e in es
    ensures GoodNames(sorted)
  {
    forall i, j | 0 <= i < j < |sorted|
      ensures sorted[i].name != sorted[j].name
    {
      assert sorted[i] in es && sorted[j] in es;
    }
  }

  class TreeBuilder {
    var entries: seq<ContentEntry>

    constructor ()
      ensures entries == []
    {
      entries := [];
    }

    method AddBlobEntry(mode: Mode, name: Name, oid: Oid)
      modifies this
      ensures entries == old(entries) + [ContentEntry(name, TreeEntry(oid, TreeFormat.Written(mode)))]
    {
      entries := entries + [ContentEntry(name, TreeEntry(oid, TreeFormat.Written(mode)))];
    }

    method AddTreeEntry(name: Name, oid: Oid)
      modifies this
      ensures entries == old(entries) + [ContentEntry(name, TreeEntry(oid, TreeFormat.DIRECTORY))]
    {
      entries := entries + [ContentEntry(name, TreeEntry(oid, TreeFormat.DIRECTORY))];
    }

    /** Add entries for everything directly below a directory, taking the names in any order and building the trees of
        its directories on the way. No name is missing from the index. */
    method AddIndexEntries(idx: Index, prefix: Path, childNames: set<Name>, store: ObjectStore, bound: nat)
      returns (ok: bool)
      requires idx.Valid() && store.Valid() && Buildable(idx.entries, bound) && |prefix| < bound
      requires childNames == NamesBelow(idx.entries, prefix) && entries == []
      modifies this, store
      ensures store.Valid() && Extends(old(store.trees), store.trees) && ok
      ensures Covers(entries, idx.entries, prefix, childNames, store.trees, store.naming, bound)
      decreases bound - |prefix|, 1
    {
      hide Index.Valid, ObjectStore.Valid, Buildable, Covers, NamesBelow;
      var left := childNames;
      NothingCovered(idx.entries, prefix, store.trees, store.naming, bound);
      assert childNames - left == {};
      while left != {}
        invariant left <= childNames && store.Valid() && Extends(old(store.trees), store.trees)
        invariant Covers(entries, idx.entries, prefix, childNames - left, store.trees, store.naming, bound)
        decreases |left|
      {
        var name :| name in left;
        ghost var done := childNames - left;
        left := left - {name};
        assert childNames - left == done + {name};
        ok := AddName(idx, prefix, name, done, store, bound);
      }
      assert childNames - {} == childNames;
      ok := true;
    }

    method AddName(idx: Index, prefix: Path, name: Name, ghost done: set<Name>, store: ObjectStore, bound: nat)
      returns (ok: bool)
      requires idx.Valid() && store.Valid() && Buildable(idx.entries, bound) && |prefix| < bound
      requires name in NamesBelow(idx.entries, prefix) && name !in done
      requires Covers(entries, idx.entries, prefix, done, store.trees, store.naming, bound)
      modifies this, store
      ensures store.Valid() && Extends(old(store.trees), store.trees) && ok
      ensures Covers(entries, idx.entries, prefix, done + {name}, store.trees, store.naming, bound)
      decreases bound - |prefix|, 0
    {
      hide Index.Valid, ObjectStore.Valid, Buildable, Covers, NamesBelow, NameIsRight, GoodNames, IsTreeOf;
      var path := prefix + [name];
      NameBelow(idx, prefix, name, bound);
      if path in idx.entries {
        var entry := idx.entries[path][0];
        if entry.Some? {
          CoversFile(entries, idx.entries, prefix, done, name, store.trees, store.naming, bound);
          AddBlobEntry(entry.value.mode, name, entry.value.oid);
        } else {
          CoversConflict(entries, idx.entries, prefix, done, name, store.trees, store.naming, bound);
        }
      } else if path in idx.dirToChildren {
        var subtree := new TreeBuilder();
        var built := subtree.AddIndexEntries(idx, path, idx.dirToChildren[path], store, bound);
        SubtreesStored(subtree.entries, idx.entries, path, NamesBelow(idx.entries, path), store.trees, store.naming,
            bound);
        ghost var before := store.trees;
        var oid := store.WriteTree(subtree.entries);
        TreeOfCovered(subtree.entries, idx.entries, path, oid, before, store.trees, store.naming, bound);
        CoversTree(entries, idx.entries, prefix, done, name, oid, old(store.trees), store.trees, store.naming, bound);
        AddTreeEntry(name, oid);
      } else {
        return false;
      }
      ok := true;
    }
  }

  /** An index that can be built from: paths are shorter than the bound, names have no slashes, files have modes of
      files. */
  ghost predicate Buildable(entries: Entries, bound: nat)
  {
    && FileModes(entries)
    && forall p :: p in entries ==> |p| < bound && forall n :: n in p ==> '/' !in n
  }

  /** es is right for the names in done, and for nothing else. */
  ghost predicate Covers(es: seq<ContentEntry>, entries: Entries, prefix: Path, done: set<Name>, trees: TreeObjects,
      naming: Naming, bound: nat)
    requires |prefix| < bound
  {
    && GoodNames(es)
    && (forall e :: e in es ==> e.name in done && (IsTreeMode(e.entry.mode) ==> e.entry.oid in trees))
    && forall n :: n in done ==> NameIsRight(entries, prefix, n, Get(EntryMap(es), n), trees, naming, bound)
  }

  lemma NothingCovered(entries: Entries, prefix: Path, trees: TreeObjects, naming: Naming, bound: nat)
    requires |prefix| < bound
    ensures Covers([], entries, prefix, {}, trees, naming, bound)
  {
  }

  /** What the maps of the index say about a name below a directory. */
  lemma NameBelow(idx: Index, prefix: Path, name: Name, bound: nat)
    requires idx.Valid() && Buildable(idx.entries, bound) && name in NamesBelow(idx.entries, prefix)
    ensures var path := prefix + [name];
            && |path| < bound && '/' !in name
            && (path in idx.entries ==> |idx.entries[path]| == 4)
            && (path in idx.entries || path in idx.dirToChildren)
            && (path in idx.dirToChildren ==> idx.dirToChildren[path] == NamesBelow(idx.entries, path))
  {
    var path := prefix + [name];
    var q :| q in idx.entries && prefix < q && q[|prefix|] == name;
    assert path <= q && name in q;
    var below := Below(idx.entries.Keys, [], 0, path);
    assert DirIs(idx.entries.Keys, [], 0, idx.dirToPaths, idx.dirToChildren, path);
    assert path != q ==> path < q && q in below;
    ChildrenAreNames(idx.entries, path);
  }

  lemma ChildrenAreNames(entries: Entries, path: Path)
    ensures NamesAt(Below(entries.Keys, [], 0, path), |path|) == NamesBelow(entries, path)
  {
  }

  lemma {:induction false} CoversMore(es: seq<ContentEntry>, entries: Entries, prefix: Path, done: set<Name>,
      x: ContentEntry,
                   trees: TreeObjects, more: TreeObjects, naming: Naming, bound: nat)
    requires |prefix| < bound && Covers(es, entries, prefix, done, trees, naming, bound) && Extends(trees, more)
    requires x.name !in done && '/' !in x.name && (IsTreeMode(x.entry.mode) ==> x.entry.oid in more)
    requires NameIsRight(entries, prefix, x.name, Some(x.entry), more, naming, bound)
    ensures Covers(es + [x], entries, prefix, done + {x.name}, more, naming, bound)
  {
    hide NameIsRight, EntryMap, GoodNames;
    var t := es + [x];
    NamesAppend(es, x);
    forall n | n in done + {x.name}
      ensures NameIsRight(entries, prefix, n, Get(EntryMap(t), n), more, naming, bound)
    {
      MapAppend(es, x, n);
      if n != x.name {
        NameStillRight(entries, prefix, n, Get(EntryMap(es), n), trees, more, naming, bound);
      }
    }
  }

  lemma NamesAppend(es: seq<ContentEntry>, x: ContentEntry)
    requires GoodNames(es) && '/' !in x.name && forall e :: e in es ==> e.name != x.name
    ensures GoodNames(es + [x])
  {
  }

  lemma MapAppend(es: seq<ContentEntry>, x: ContentEntry, n: Name)
    ensures Get(EntryMap(es + [x]), n) == if n == x.name then Some(x.entry) else Get(EntryMap(es), n)
  {
    assert (es + [x])[..|es|] == es;
  }

  lemma {:induction false} CoversFile(es: seq<ContentEntry>, entries: Entries, prefix: Path, done: set<Name>,
      name: Name, trees: TreeObjects, naming: Naming, bound: nat)
    requires |prefix| < bound && Covers(es, entries, prefix, done, trees, naming, bound)
    requires Buildable(entries, bound) && name in NamesBelow(entries, prefix) && name !in done && '/' !in name
    requires prefix + [name] in entries && |entries[prefix + [name]]| == 4 && entries[prefix + [name]][0].Some?
    ensures var e := entries[prefix + [name]][0].value;
            Covers(es + [ContentEntry(name, TreeEntry(e.oid, TreeFormat.Written(e.mode)))], entries, prefix,
                done + {name}, trees, naming, bound)
  {
    hide Covers, NamesBelow, TreeFormat.Written;
    var e := entries[prefix + [name]][0].value;
    var x := ContentEntry(name, TreeEntry(e.oid, TreeFormat.Written(e.mode)));
    assert Merged(entries, prefix + [name]) == Some(x.entry);
    CoversMore(es, entries, prefix, done, x, trees, trees, naming, bound);
  }

  lemma CoversConflict(es: seq<ContentEntry>, entries: Entries, prefix: Path, done: set<Name>, name: Name,
      trees: TreeObjects, naming: Naming, bound: nat)
    requires |prefix| < bound && Covers(es, entries, prefix, done, trees, naming, bound)
    requires name in NamesBelow(entries, prefix) && name !in done
    requires prefix + [name] in entries && |entries[prefix + [name]]| == 4 && entries[prefix + [name]][0].None?
    ensures Covers(es, entries, prefix, done + {name}, trees, naming, bound)
  {
    hide NamesBelow;
    NotAMember(es, name, done);
  }

  lemma NotAMember(es: seq<ContentEntry>, name: Name, done: set<Name>)
    requires name !in done && forall e :: e in es ==> e.name in done
    ensures Get(EntryMap(es), name) == None
  {
    NameOfMember(es, name);
  }

  lemma NameOfMember(es: seq<ContentEntry>, name: Name)
    ensures name in EntryMap(es) ==> exists e :: e in es && e.name == name
  {
    if name in EntryMap(es) {
      assert ContentEntry(name, EntryMap(es)[name]) in es;
    }
  }

  lemma {:induction false} CoversTree(es: seq<ContentEntry>, entries: Entries, prefix: Path, done: set<Name>,
      name: Name, oid: Oid,
                   trees: TreeObjects, more: TreeObjects, naming: Naming, bound: nat)
    requires |prefix| < bound && Covers(es, entries, prefix, done, trees, naming, bound) && Extends(trees, more)
    requires name in NamesBelow(entries, prefix) && name !in done && '/' !in name && prefix + [name] !in entries
    requires IsTreeOf(entries, prefix + [name], oid, more, naming, bound)
    ensures Covers(es + [ContentEntry(name, TreeEntry(oid, TreeFormat.DIRECTORY))], entries, prefix, done + {name},
            more, naming, bound)
  {
    hide Covers, NamesBelow;
    CoversMore(es, entries, prefix, done, ContentEntry(name, TreeEntry(oid, TreeFormat.DIRECTORY)), trees, more, naming,
        bound);
  }

  lemma SubtreesStored(es: seq<ContentEntry>, entries: Entries, prefix: Path, done: set<Name>, trees: TreeObjects,
      naming: Naming, bound: nat)
    requires |prefix| < bound && Covers(es, entries, prefix, done, trees, naming, bound)
    ensures GoodNames(es) && forall e :: e in es && IsTreeMode(e.entry.mode) ==> e.entry.oid in trees
  {
  }

  /** Entries that are right for all names make a tree that is right, once they have been sorted and stored. */
  lemma {:induction false} TreeOfCovered(es: seq<ContentEntry>, entries: Entries, prefix: Path, oid: Oid,
      trees: TreeObjects, more: TreeObjects, naming: Naming, bound: nat)
    requires |prefix| < bound && Covers(es, entries, prefix, NamesBelow(entries, prefix), trees, naming, bound)
             && Extends(trees, more)
    requires oid in more && naming.hash(more[oid]) == oid && GoodNames(more[oid]) && Ordered(ByKey(naming), more[oid])
    requires forall e :: e in more[oid] <==> e in es
    ensures IsTreeOf(entries, prefix, oid, more, naming, bound)
  {
    hide NameIsRight, NamesBelow, Ordered;
    var sorted := more[oid];
    forall n
      ensures NameIsRight(entries, prefix, n, Get(EntryMap(sorted), n), more, naming, bound)
    {
      SameMap(es, sorted, n);
      if n in NamesBelow(entries, prefix) {
        NameStillRight(entries, prefix, n, Get(EntryMap(es), n), trees, more, naming, bound);
      } else {
        NotAMember(es, n, NamesBelow(entries, prefix));
        NoName(entries, prefix, n, more, naming, bound);
      }
    }
  }

  lemma NoName(entries: Entries, prefix: Path, n: Name, trees: TreeObjects, naming: Naming, bound: nat)
    requires |prefix| < bound && n !in NamesBelow(entries, prefix)
    ensures NameIsRight(entries, prefix, n, None, trees, naming, bound)
  {
  }

  lemma SameMap(s: seq<ContentEntry>, t: seq<ContentEntry>, n: Name)
    requires GoodNames(s) && GoodNames(t) && forall e :: e in s <==> e in t
    ensures Get(EntryMap(s), n) == Get(EntryMap(t), n)
  {
    hide GoodNames;
    if n in EntryMap(s) {
      MemberByName(s, ContentEntry(n, EntryMap(s)[n]));
      MemberByName(t, ContentEntry(n, EntryMap(s)[n]));
    }
    if n in EntryMap(t) {
      MemberByName(s, ContentEntry(n, EntryMap(t)[n]));
      MemberByName(t, ContentEntry(n, EntryMap(t)[n]));
    }
  }

  /** What is staged has one of the four modes of a file, and is written with the mode it has. */
  ghost predicate CanonicalModes(entries: Entries)
  {
    forall p :: p in entries && |entries[p]| == 4 && entries[p][0].Some? ==>
      entries[p][0].value.mode in {TreeFormat.PLAIN, TreeFormat.EXECUTABLE, TreeFormat.SYMLINK, TreeFormat.GITLINK}
  }

  lemma MergedWithItsMode(entries: Entries, p: Path)
    requires CanonicalModes(entries)
    ensures Merged(entries, p) == if p in entries && |entries[p]| == 4 && entries[p][0].Some?
                                  then Some(TreeEntry(entries[p][0].value.oid, entries[p][0].value.mode))
                                  else None
  {
  }

  // --------------------------------------------------------------------------
  // Main results
  // --------------------------------------------------------------------------

  /** Write the tree of an index. */
  method WriteIndexTree(idx: Index, store: ObjectStore, bound: nat) returns (oid: Oid)
    requires idx.Valid() && store.Valid() && Buildable(idx.entries, bound) && bound > 0
    modifies store
    ensures store.Valid() && Extends(old(store.trees), store.trees)
            && IsTreeOf(idx.entries, [], oid, store.trees, store.naming, bound)
  {
    hide ObjectStore.Valid, Buildable, Covers, IsTreeOf;
    RootNames(idx);
    var builder := new TreeBuilder();
    var _ := builder.AddIndexEntries(idx, [], idx.rootChildren, store, bound);
    ghost var before := store.trees;
    SubtreesStored(builder.entries, idx.entries, [], idx.rootChildren, before, store.naming, bound);
    oid := store.WriteTree(builder.entries);
    TreeOfCovered(builder.entries, idx.entries, [], oid, before, store.trees, store.naming, bound);
  }

  lemma RootNames(idx: Index)
    requires idx.Valid()
    ensures idx.rootChildren == NamesBelow(idx.entries, [])
  {
    PathsNotEmpty(idx.entries);
    assert forall q :: q in idx.entries ==> ([] < q <==> 0 < |q|);
  }

  /** Building a tree from an index and flattening it gives the merged entries of the index. */
  method BuildAndFlatten(idx: Index, store: ObjectStore, bound: nat) returns (m: FileMap)
    requires idx.Valid() && store.Valid() && Buildable(idx.entries, bound) && bound > 0 && PrefixFree(idx.entries.Keys)
    modifies store
    ensures forall p :: Get(m, p) == Merged(idx.entries, p)
    ensures CanonicalModes(idx.entries) ==>
              forall p :: Get(m, p) == if p in idx.entries && |idx.entries[p]| == 4 && idx.entries[p][0].Some?
                                       then Some(TreeEntry(idx.entries[p][0].value.oid, idx.entries[p][0].value.mode))
                                       else None
  {
    hide Buildable, IsTreeOf, Ranked, TreeDiffs.WellFormed, At, Merged, CanonicalModes;
    var oid := WriteIndexTree(idx, store, bound);
    TreesAreRanked(store.naming, store.trees, store.rank);
    ModesOfFiles(idx.entries, bound);
    RootStored(idx.entries, oid, store.trees, store.naming, bound);
    m := TreeDiffs.Flatten(View(store.trees), oid, RankOf(store.rank));
    forall p
      ensures Get(m, p) == Merged(idx.entries, p)
    {
      if p == [] {
        RootIsNoFile(idx.entries, View(store.trees), oid, RankOf(store.rank));
      } else {
        TreeFlattensToIndex(idx.entries, [], oid, store.trees, store.naming, bound, p, RankOf(store.rank));
        assert [] + p == p;
      }
    }
    if CanonicalModes(idx.entries) {
      forall p
        ensures Get(m, p) == if p in idx.entries && |idx.entries[p]| == 4 && idx.entries[p][0].Some?
                             then Some(TreeEntry(idx.entries[p][0].value.oid, idx.entries[p][0].value.mode))
                             else None
      {
        MergedWithItsMode(idx.entries, p);
      }
    }
  }

  lemma ModesOfFiles(entries: Entries, bound: nat)
    requires Buildable(entries, bound)
    ensures FileModes(entries)
  {
  }

  lemma RootStored(entries: Entries, oid: Oid, trees: TreeObjects, naming: Naming, bound: nat)
    requires IsTreeOf(entries, [], oid, trees, naming, bound)
    ensures View(trees)(oid).TreeObj?
  {
  }

  lemma RootIsNoFile(entries: Entries, store: Store, oid: Oid, rank: Oid -> nat)
    requires GoodEntries(entries) && Ranked(store, rank)
    ensures At(store, Some(oid), [], rank) == None && Merged(entries, []) == None
  {
    PathsNotEmpty(entries);
  }
}
