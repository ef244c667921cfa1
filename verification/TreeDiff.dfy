/** treeCompare and flattenTree of tree.go: both fill a shared map while they recurse, visiting names
    in any order. */
module TreeDiffs {
  import opened Common
  import opened Paths
  import opened Trees

  class Changes {
    var m: Diff
    constructor ()
      ensures m == map[]
    {
      m := map[];
    }
  }

  ghost function RankOf(t: Option<Oid>, rank: Oid -> nat): nat { if t.None? then 0 else rank(t.value) + 1 }

  ghost function EntryRank(e: Option<TreeEntry>, rank: Oid -> nat): nat
  {
    if e.Some? && IsTreeMode(e.value.mode) then rank(e.value.oid) + 1 else 0
  }

  function SubTree(e: Option<TreeEntry>): Option<Oid>
  {
    if e.Some? && IsTreeMode(e.value.mode) then Some(e.value.oid) else None
  }

  /** What a diff says about one path. */
  function ChangeBetween(x: Option<TreeEntry>, y: Option<TreeEntry>): Option<TreeChange>
  {
    if x == y then None else Some(TreeChange(x, y))
  }

  /** Below path (strictly), the map m says exactly how the two trees differ. */
  ghost predicate SaysBelow(store: Store, x: Option<Oid>, y: Option<Oid>, path: Path, m: Diff, rank: Oid -> nat)
    requires Ranked(store, rank)
  {
    forall p :: path < p ==>
      Get(m, p) == ChangeBetween(At(store, x, p[|path|..], rank), At(store, y, p[|path|..], rank))
  }

  /** At and below path, the map m says exactly how the two entries differ. */
  ghost predicate SaysFrom(store: Store, x: Option<TreeEntry>, y: Option<TreeEntry>, path: Path, m: Diff,
      rank: Oid -> nat)
    requires Ranked(store, rank)
  {
    forall p :: path <= p ==>
      Get(m, p) == ChangeBetween(EntryAt(store, x, p[|path|..], rank), EntryAt(store, y, p[|path|..], rank))
  }

  /** Compare what a name stands for in the old and in the new tree. */
  method CompareEntry(store: Store, oe: Option<TreeEntry>, ne: Option<TreeEntry>, path: Path, changes: Changes,
      ghost rank: Oid -> nat)
    requires Ranked(store, rank)
    requires forall p :: path <= p ==> p !in changes.m
    modifies changes
    ensures SaysFrom(store, oe, ne, path, changes.m, rank)
    ensures forall p :: !(path <= p) ==> Get(changes.m, p) == Get(old(changes.m), p)
    decreases EntryRank(oe, rank) + EntryRank(ne, rank), 2, 0
  {
    if oe.Some? && ne.Some? {
      if oe.value.oid != ne.value.oid || oe.value.mode != ne.value.mode {
        var oldIsTree, newIsTree := IsTreeMode(oe.value.mode), IsTreeMode(ne.value.mode);
        var oldSub := if oldIsTree then Some(oe.value.oid) else None;
        var newSub := if newIsTree then Some(ne.value.oid) else None;
        if oldIsTree || newIsTree {
          TreeCompare(store, oldSub, newSub, path, changes, rank);
        }
        if !oldIsTree || !newIsTree {
          var oldP := if oldIsTree then None else oe;
          var newP := if newIsTree then None else ne;
          changes.m := changes.m[path := TreeChange(oldP, newP)];
        }
      }
    } else if oe.Some? {
      if IsTreeMode(oe.value.mode) {
        TreeCompare(store, Some(oe.value.oid), None, path, changes, rank);
      } else {
        changes.m := changes.m[path := TreeChange(oe, None)];
      }
    } else if ne.Some? {
      if IsTreeMode(ne.value.mode) {
        TreeCompare(store, None, Some(ne.value.oid), path, changes, rank);
      } else {
        changes.m := changes.m[path := TreeChange(None, ne)];
      }
    }
    EntryChanges(store, oe, ne, path, changes.m, rank);
  }

  lemma EntryChanges(store: Store, oe: Option<TreeEntry>, ne: Option<TreeEntry>, path: Path, m: Diff, rank: Oid -> nat)
    requires Ranked(store, rank)
    requires if oe == ne then forall p :: path <= p ==> p !in m
             else SaysBelow(store, SubTree(oe), SubTree(ne), path, m, rank)
                  && Get(m, path) == ChangeBetween(EntryAt(store, oe, [], rank), EntryAt(store, ne, [], rank))
    ensures SaysFrom(store, oe, ne, path, m, rank)
  {
    forall p | path <= p
      ensures Get(m, p) == ChangeBetween(EntryAt(store, oe, p[|path|..], rank), EntryAt(store, ne, p[|path|..], rank))
    {
      if p == path {
        assert p[|path|..] == [];
      } else {
        assert path < p && p[|path|..] != [];
        EntryAtBelow(store, oe, p[|path|..], rank);
        EntryAtBelow(store, ne, p[|path|..], rank);
      }
    }
  }

  lemma {:induction false} EmptyTree(store: Store, p: Path, rank: Oid -> nat)
    requires Ranked(store, rank)
    ensures At(store, None, p, rank) == None
  {
  }

  lemma EntryAtBelow(store: Store, e: Option<TreeEntry>, r: Path, rank: Oid -> nat)
    requires Ranked(store, rank) && r != []
    ensures EntryAt(store, e, r, rank) == At(store, SubTree(e), r, rank)
  {
    EmptyTree(store, r, rank);
  }

  /** Record every difference between two trees below prefix. */
  method TreeCompare(store: Store, x: Option<Oid>, y: Option<Oid>, prefix: Path, changes: Changes,
      ghost rank: Oid -> nat)
    requires Ranked(store, rank)
    requires forall p :: prefix < p ==> p !in changes.m
    modifies changes
    ensures SaysBelow(store, x, y, prefix, changes.m, rank)
    ensures forall p :: !(prefix < p) ==> Get(changes.m, p) == Get(old(changes.m), p)
    decreases RankOf(x, rank) + RankOf(y, rank), 1, 0
  {
    var oldEntries := Entries(store, x, rank);
    var newEntries := Entries(store, y, rank);
    // deletions and edits
    CompareNames(store, x, y, oldEntries, newEntries, oldEntries.Keys, {}, prefix, changes, rank);
    // additions
    CompareNames(store, x, y, oldEntries, newEntries, newEntries.Keys - oldEntries.Keys, oldEntries.Keys, prefix,
        changes, rank);
    AllNamesSay(store, x, y, prefix, changes.m, rank);
  }

  /** Below prefix, m is right about the names in done and empty elsewhere. */
  ghost predicate SaysNames(store: Store, x: Option<Oid>, y: Option<Oid>, done: set<Name>, prefix: Path, m: Diff,
      rank: Oid -> nat)
    requires Ranked(store, rank)
  {
    forall p :: prefix < p ==>
      Get(m, p) == if p[|prefix|] in done
                   then ChangeBetween(At(store, x, p[|prefix|..], rank), At(store, y, p[|prefix|..], rank)) else None
  }

  lemma AllNamesSay(store: Store, x: Option<Oid>, y: Option<Oid>, prefix: Path, m: Diff, rank: Oid -> nat)
    requires Ranked(store, rank)
    requires SaysNames(store, x, y, Entries(store, x, rank).Keys + Entries(store, y, rank).Keys, prefix, m, rank)
    ensures SaysBelow(store, x, y, prefix, m, rank)
  {
  }

  lemma NameSays(store: Store, x: Option<Oid>, y: Option<Oid>, done: set<Name>, name: Name, prefix: Path, m: Diff,
      m': Diff, rank: Oid -> nat)
    requires Ranked(store, rank)
    requires SaysNames(store, x, y, done, prefix, m, rank)
    requires SaysFrom(store, Get(Entries(store, x, rank), name), Get(Entries(store, y, rank), name), prefix + [name],
             m', rank)
    requires forall p :: !(prefix + [name] <= p) ==> Get(m', p) == Get(m, p)
    ensures SaysNames(store, x, y, done + {name}, prefix, m', rank)
  {
    forall p | prefix < p
      ensures Get(m', p) == if p[|prefix|] in done + {name}
                            then ChangeBetween(At(store, x, p[|prefix|..], rank), At(store, y, p[|prefix|..], rank))
                            else None
    {
      var path := prefix + [name];
      if p[|prefix|] == name {
        assert path <= p;
        assert p[|path|..] == p[|prefix|..][1..];
      } else {
        assert !(path <= p);
      }
    }
  }

  /** The loop over a set of names, in any order. */
  method CompareNames(store: Store, x: Option<Oid>, y: Option<Oid>,
                      oldEntries: map<Name, TreeEntry>, newEntries: map<Name, TreeEntry>,
                      names: set<Name>, ghost done0: set<Name>, prefix: Path, changes: Changes, ghost rank: Oid -> nat)
    requires Ranked(store, rank) && names !! done0
    requires oldEntries == Entries(store, x, rank) && newEntries == Entries(store, y, rank)
    requires names <= oldEntries.Keys + newEntries.Keys
    requires SaysNames(store, x, y, done0, prefix, changes.m, rank)
    modifies changes
    ensures SaysNames(store, x, y, done0 + names, prefix, changes.m, rank)
    ensures forall p :: !(prefix < p) ==> Get(changes.m, p) == Get(old(changes.m), p)
    decreases RankOf(x, rank) + RankOf(y, rank), 0, 0
  {
    var todo := names;
    ghost var done := done0;
    while todo != {}
      invariant todo <= names && done + todo == done0 + names && todo !! done
      invariant SaysNames(store, x, y, done, prefix, changes.m, rank)
      invariant forall p :: !(prefix < p) ==> Get(changes.m, p) == Get(old(changes.m), p)
      decreases todo
    {
      var name :| name in todo;
      ghost var before := changes.m;
      NoKeysYet(store, x, y, done, name, prefix, before, rank);
      EntryRankDrops(store, x, y, name, rank);
      CompareEntry(store, Get(oldEntries, name), Get(newEntries, name), prefix + [name], changes, rank);
      NameSays(store, x, y, done, name, prefix, before, changes.m, rank);
      todo := todo - {name};
      done := done + {name};
    }
    assert done == done0 + names;
  }

  lemma NoKeysYet(store: Store, x: Option<Oid>, y: Option<Oid>, done: set<Name>, name: Name, prefix: Path, m: Diff,
      rank: Oid -> nat)
    requires Ranked(store, rank) && name !in done && SaysNames(store, x, y, done, prefix, m, rank)
    ensures forall p :: prefix + [name] <= p ==> p !in m
  {
    forall p | prefix + [name] <= p
      ensures p !in m
    {
      assert prefix < p && p[|prefix|] == name;
      assert Get(m, p) == None;
    }
  }

  lemma EntryRankDrops(store: Store, x: Option<Oid>, y: Option<Oid>, name: Name, rank: Oid -> nat)
    requires Ranked(store, rank) && name in Entries(store, x, rank).Keys + Entries(store, y, rank).Keys
    ensures EntryRank(Get(Entries(store, x, rank), name), rank) + EntryRank(Get(Entries(store, y, rank), name), rank)
            < RankOf(x, rank) + RankOf(y, rank)
  {
  }

  /** The changes between two commits or trees, either of which may be absent. */
  method TreeDiff(store: Store, x: Option<Oid>, y: Option<Oid>, ghost rank: Oid -> nat) returns (d: Diff)
    requires Ranked(store, rank)
    ensures forall p :: Get(d, p) == ChangeBetween(At(store, x, p, rank), At(store, y, p, rank))
  {
    var changes := new Changes();
    TreeCompare(store, x, y, [], changes, rank);
    d := changes.m;
    forall p
      ensures Get(d, p) == ChangeBetween(At(store, x, p, rank), At(store, y, p, rank))
    {
      if p != [] {
        var root: Path := [];
        assert root < p && p[|root|..] == p;
      }
    }
  }

  /** Whatever has been computed as the diff of two trees turns the files of the one into the files of the other. */
  lemma TreeDiffIsDiff(store: Store, x: Option<Oid>, y: Option<Oid>, mx: FileMap, my: FileMap, d: Diff,
      rank: Oid -> nat)
    requires Ranked(store, rank) && IsFlat(store, x, mx, rank) && IsFlat(store, y, my, rank)
    requires forall p :: Get(d, p) == ChangeBetween(At(store, x, p, rank), At(store, y, p, rank))
    ensures IsDiff(d, mx, my) && Apply(d, mx) == my
  {
    ApplyDiffGivesNew(d, mx, my);
  }

  // ---------------------------------------------------------------------------
  // flattenTree
  // ---------------------------------------------------------------------------

  class Files {
    var m: FileMap
    constructor ()
      ensures m == map[]
    {
      m := map[];
    }
  }

  predicate DistinctNames(es: seq<ContentEntry>)
  {
    forall i, j :: 0 <= i < j < |es| ==> es[i].name != es[j].name
  }

  /** Trees have distinct names, and no entry with a tree's mode is a commit. */
  ghost predicate WellFormed(store: Store)
  {
    forall o :: store(o).TreeObj? ==>
      && DistinctNames(store(o).entries)
      && forall e :: e in store(o).entries && IsTreeMode(e.entry.mode) ==> !store(e.entry.oid).CommitObj?
  }

  /** The map with the files of a tree added, one entry after the other. What is no tree has no files. */
  ghost function PutTree(store: Store, t: Oid, prefix: Path, m: FileMap, rank: Oid -> nat): FileMap
    requires Ranked(store, rank)
    decreases rank(t), 1, 0
  {
    if store(t).TreeObj? then PutFirst(store, t, |store(t).entries|, prefix, m, rank) else m
  }

  ghost function PutFirst(store: Store, t: Oid, i: nat, prefix: Path, m: FileMap, rank: Oid -> nat): FileMap
    requires Ranked(store, rank) && store(t).TreeObj? && i <= |store(t).entries|
    decreases rank(t), 0, i
  {
    if i == 0 then m
    else
      var e := store(t).entries[i - 1];
      assert e in store(t).entries;
      var before := PutFirst(store, t, i - 1, prefix, m, rank);
      if IsTreeMode(e.entry.mode) then PutTree(store, e.entry.oid, prefix + [e.name], before, rank)
      else before[prefix + [e.name] := e.entry]
  }

  lemma {:induction false} EntryMapDistinct(es: seq<ContentEntry>, i: nat)
    requires DistinctNames(es) && i < |es|
    ensures es[i].name in EntryMap(es) && EntryMap(es)[es[i].name] == es[i].entry
    decreases |es|
  {
    if i < |es| - 1 {
      EntryMapDistinct(es[..|es| - 1], i);
      assert es[..|es| - 1][i] == es[i];
    }
  }

  lemma {:induction false} EntryMapNames(es: seq<ContentEntry>, n: Name)
    requires n in EntryMap(es)
    ensures exists i :: 0 <= i < |es| && es[i].name == n
  {
    assert ContentEntry(n, EntryMap(es)[n]) in es;
  }

  ghost predicate HoldsNames(store: Store, t: Oid, done: set<Name>, prefix: Path, m: FileMap, rank: Oid -> nat)
    requires Ranked(store, rank)
  {
    forall p :: prefix < p ==>
      Get(m, p) == if p[|prefix|] in done then At(store, Some(t), p[|prefix|..], rank) else None
  }

  ghost predicate HoldsFrom(store: Store, e: TreeEntry, path: Path, m: FileMap, rank: Oid -> nat)
    requires Ranked(store, rank)
  {
    forall p :: path <= p ==> Get(m, p) == EntryAt(store, Some(e), p[|path|..], rank)
  }

  lemma NameHolds(store: Store, t: Oid, done: set<Name>, name: Name, e: TreeEntry, prefix: Path, m: FileMap,
      m': FileMap, rank: Oid -> nat)
    requires Ranked(store, rank) && Get(Entries(store, Some(t), rank), name) == Some(e)
    requires HoldsNames(store, t, done, prefix, m, rank)
    requires HoldsFrom(store, e, prefix + [name], m', rank)
    requires forall p :: !(prefix + [name] <= p) ==> Get(m', p) == Get(m, p)
    ensures HoldsNames(store, t, done + {name}, prefix, m', rank)
  {
    forall p | prefix < p
      ensures Get(m', p) == if p[|prefix|] in done + {name} then At(store, Some(t), p[|prefix|..], rank) else None
    {
      var path := prefix + [name];
      if p[|prefix|] == name {
        assert path <= p;
        assert p[|path|..] == p[|prefix|..][1..];
      } else {
        assert !(path <= p);
      }
    }
  }

  /** List every file of a tree below prefix. */
  method FlattenTree(store: Store, t: Oid, prefix: Path, result: Files, ghost rank: Oid -> nat)
    requires Ranked(store, rank)
    modifies result
    ensures result.m == PutTree(store, t, prefix, old(result.m), rank)
    decreases rank(t)
  {
    if !store(t).TreeObj? {
      return;
    }
    var es := store(t).entries;
    for i := 0 to |es|
      invariant result.m == PutFirst(store, t, i, prefix, old(result.m), rank)
    {
      var e := es[i];
      var path := prefix + [e.name];
      if IsTreeMode(e.entry.mode) {
        assert e in es;
        FlattenTree(store, e.entry.oid, path, result, rank);
      } else {
        result.m := result.m[path := e.entry];
      }
    }
  }

  /** Only paths below prefix are added. */
  lemma {:induction false} PutBelow(store: Store, t: Oid, prefix: Path, m: FileMap, rank: Oid -> nat)
    requires Ranked(store, rank)
    ensures forall p :: !(prefix < p) ==> Get(PutTree(store, t, prefix, m, rank), p) == Get(m, p)
    decreases rank(t), 1, 0
  {
    if store(t).TreeObj? {
      PutFirstBelow(store, t, |store(t).entries|, prefix, m, rank);
    }
  }

  lemma {:induction false} PutFirstBelow(store: Store, t: Oid, i: nat, prefix: Path, m: FileMap, rank: Oid -> nat)
    requires Ranked(store, rank) && store(t).TreeObj? && i <= |store(t).entries|
    ensures forall p :: !(prefix < p) ==> Get(PutFirst(store, t, i, prefix, m, rank), p) == Get(m, p)
    decreases rank(t), 0, i
  {
    if i > 0 {
      var e := store(t).entries[i - 1];
      assert e in store(t).entries;
      PutFirstBelow(store, t, i - 1, prefix, m, rank);
      if IsTreeMode(e.entry.mode) {
        PutBelow(store, e.entry.oid, prefix + [e.name], PutFirst(store, t, i - 1, prefix, m, rank), rank);
      }
    }
  }

  /** The files that are added are those of the tree. */
  lemma {:induction false} PutTreeHolds(store: Store, t: Oid, prefix: Path, m: FileMap, rank: Oid -> nat)
    requires Ranked(store, rank) && WellFormed(store) && !store(t).CommitObj?
    requires forall p :: prefix < p ==> p !in m
    ensures forall p ::
              prefix < p
              ==> Get(PutTree(store, t, prefix, m, rank), p) == At(store, Some(t), p[|prefix|..], rank)
    decreases rank(t), 1, 0
  {
    hide WellFormed;
    if store(t).TreeObj? {
      PutFirstHolds(store, t, |store(t).entries|, prefix, m, rank);
      AllNamesHold(store, t, prefix, PutTree(store, t, prefix, m, rank), rank);
    }
  }

  lemma {:induction false} PutFirstHolds(store: Store, t: Oid, i: nat, prefix: Path, m: FileMap, rank: Oid -> nat)
    requires Ranked(store, rank) && WellFormed(store) && store(t).TreeObj? && i <= |store(t).entries|
    requires forall p :: prefix < p ==> p !in m
    ensures HoldsNames(store, t, NamesBefore(store(t).entries, i), prefix, PutFirst(store, t, i, prefix, m, rank), rank)
    decreases rank(t), 0, i
  {
    hide HoldsNames, HoldsFrom, At, EntryMap, NamesBefore, Entries, WellFormed;
    var es := store(t).entries;
    if i == 0 {
      NoNamesYet(store, t, es, prefix, m, rank);
    } else {
      var e := es[i - 1];
      var before, after := PutFirst(store, t, i - 1, prefix, m, rank), PutFirst(store, t, i, prefix, m, rank);
      PutFirstHolds(store, t, i - 1, prefix, m, rank);
      EntryOfTree(store, t, i - 1, rank);
      NothingYet(store, t, NamesBefore(es, i - 1), e.name, prefix, before, rank);
      var path := prefix + [e.name];
      if IsTreeMode(e.entry.mode) {
        PutBelow(store, e.entry.oid, path, before, rank);
        PutTreeHolds(store, e.entry.oid, path, before, rank);
        assert Get(after, path) == Get(before, path);
      }
      EntryHolds(store, e.entry, path, after, rank);
      NameHolds(store, t, NamesBefore(es, i - 1), e.name, e.entry, prefix, before, after, rank);
      NextName(es, i - 1);
    }
  }

  ghost function NamesBefore(es: seq<ContentEntry>, i: nat): set<Name>
    requires i <= |es|
  {
    set j | 0 <= j < i :: es[j].name
  }

  lemma NextName(es: seq<ContentEntry>, i: nat)
    requires i < |es|
    ensures NamesBefore(es, i + 1) == NamesBefore(es, i) + {es[i].name}
  {
  }

  lemma NoNamesYet(store: Store, t: Oid, es: seq<ContentEntry>, prefix: Path, m: FileMap, rank: Oid -> nat)
    requires Ranked(store, rank) && forall p :: prefix < p ==> p !in m
    ensures HoldsNames(store, t, NamesBefore(es, 0), prefix, m, rank)
  {
  }

  lemma EntryOfTree(store: Store, t: Oid, i: nat, rank: Oid -> nat)
    requires Ranked(store, rank) && WellFormed(store) && store(t).TreeObj? && i < |store(t).entries|
    ensures var e := store(t).entries[i];
            && Get(Entries(store, Some(t), rank), e.name) == Some(e.entry)
            && (IsTreeMode(e.entry.mode) ==> !store(e.entry.oid).CommitObj? && rank(e.entry.oid) < rank(t))
            && e.name !in NamesBefore(store(t).entries, i)
  {
    var e := store(t).entries[i];
    assert e in store(t).entries;
    EntryMapDistinct(store(t).entries, i);
  }

  lemma AllNamesHold(store: Store, t: Oid, prefix: Path, m: FileMap, rank: Oid -> nat)
    requires Ranked(store, rank) && WellFormed(store) && store(t).TreeObj?
    requires HoldsNames(store, t, NamesBefore(store(t).entries, |store(t).entries|), prefix, m, rank)
    ensures forall p :: prefix < p ==> Get(m, p) == At(store, Some(t), p[|prefix|..], rank)
  {
    var es := store(t).entries;
    forall p | prefix < p
      ensures Get(m, p) == At(store, Some(t), p[|prefix|..], rank)
    {
      var n := p[|prefix|];
      if n in EntryMap(es) {
        EntryMapNames(es, n);
      }
      assert p[|prefix|..][0] == n;
    }
  }

  lemma NothingYet(store: Store, t: Oid, done: set<Name>, name: Name, prefix: Path, m: FileMap, rank: Oid -> nat)
    requires Ranked(store, rank) && name !in done && HoldsNames(store, t, done, prefix, m, rank)
    ensures forall p :: prefix + [name] <= p ==> p !in m
  {
    forall p | prefix + [name] <= p
      ensures p !in m
    {
      assert prefix < p && p[|prefix|] == name;
      assert Get(m, p) == None;
    }
  }

  lemma EntryHolds(store: Store, e: TreeEntry, path: Path, m: FileMap, rank: Oid -> nat)
    requires Ranked(store, rank)
    requires if IsTreeMode(e.mode)
             then path !in m && forall p :: path < p ==> Get(m, p) == At(store, Some(e.oid), p[|path|..], rank)
             else Get(m, path) == Some(e) && forall p :: path < p ==> p !in m
    ensures HoldsFrom(store, e, path, m, rank)
  {
    forall p | path <= p
      ensures Get(m, p) == EntryAt(store, Some(e), p[|path|..], rank)
    {
      if p == path {
        assert p[|path|..] == [];
      } else {
        assert path < p && p[|path|..] != [];
      }
    }
  }

  /** The files of a tree: for any store what adding entry after entry gives; for a store in which names are
      distinct and no directory is a commit, the file at each path. */
  method Flatten(store: Store, t: Oid, ghost rank: Oid -> nat) returns (m: FileMap)
    requires Ranked(store, rank)
    ensures m == PutTree(store, t, [], map[], rank)
    ensures WellFormed(store) && !store(t).CommitObj? ==> IsFlat(store, Some(t), m, rank) && PrefixFree(m.Keys)
  {
    hide WellFormed, PrefixFree;
    var result := new Files();
    FlattenTree(store, t, [], result, rank);
    m := result.m;
    if WellFormed(store) && !store(t).CommitObj? {
      PutTreeHolds(store, t, [], map[], rank);
      PutBelow(store, t, [], map[], rank);
      forall p
        ensures Get(m, p) == At(store, Some(t), p, rank)
      {
        var root: Path := [];
        if p != [] {
          assert root < p && p[|root|..] == p;
        }
      }
      FlatIsPrefixFree(store, Some(t), m, rank);
    }
  }
}
