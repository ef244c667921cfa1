/** Tree objects and the paths they hold. */
module Trees {
  import opened Common
  import opened Paths

  type Mode = nat

  /** The object type bits of a mode: (m >> 12) & 0xF. */
  function ObjType(m: Mode): nat { (m / 4096) % 16 }

  const TREE_TYPE: nat := 4

  predicate IsTreeMode(m: Mode) { ObjType(m) == TREE_TYPE }

  datatype TreeEntry = TreeEntry(oid: Oid, mode: Mode)

  datatype TreeChange = TreeChange(was: Option<TreeEntry>, now: Option<TreeEntry>)

  datatype ContentEntry = ContentEntry(name: Name, entry: TreeEntry)

  datatype Object = TreeObj(entries: seq<ContentEntry>) | CommitObj(tree: Oid) | BlobObj | TagObj

  /** A complete object store. */
  type Store = Oid -> Object

  /** The ranking shows that no tree contains itself. */
  ghost predicate Ranked(store: Store, rank: Oid -> nat)
  {
    forall o :: match store(o)
                case TreeObj(es) => forall e :: e in es && IsTreeMode(e.entry.mode) ==> rank(e.entry.oid) < rank(o)
                case CommitObj(t) => rank(t) < rank(o)
                case _ => true
  }

  /** The names of a tree; of two entries with one name the later counts. */
  function EntryMap(es: seq<ContentEntry>): (m: map<Name, TreeEntry>)
    ensures forall n :: n in m ==> ContentEntry(n, m[n]) in es
  {
    if es == [] then map[] else
    var last := es[|es| - 1];
    EntryMap(es[..|es| - 1])[last.name := last.entry]
  }

  /** What loadTree gives: the entries of a tree, or of a commit's tree; nothing for anything else. */
  function Entries(store: Store, t: Option<Oid>, ghost rank: Oid -> nat): (m: map<Name, TreeEntry>)
    requires Ranked(store, rank)
    ensures forall n :: n in m && IsTreeMode(m[n].mode) ==> t.Some? && rank(m[n].oid) < rank(t.value)
    decreases if t.None? then 0 else rank(t.value)
  {
    match t
    case None => map[]
    case Some(o) =>
      match store(o)
      case TreeObj(es) => EntryMap(es)
      case CommitObj(tree) => Entries(store, Some(tree), rank)
      case _ => map[]
  }

  function Get<K, V>(m: map<K, V>, k: K): Option<V> { if k in m then Some(m[k]) else None }

  /** The file at a path below a tree. */
  function At(store: Store, t: Option<Oid>, p: Path, ghost rank: Oid -> nat): Option<TreeEntry>
    requires Ranked(store, rank)
    decreases |p|, 1
  {
    if p == [] then None else EntryAt(store, Get(Entries(store, t, rank), p[0]), p[1..], rank)
  }

  /** The file at a path below an entry; the entry itself has the empty path. */
  function EntryAt(store: Store, e: Option<TreeEntry>, r: Path, ghost rank: Oid -> nat): Option<TreeEntry>
    requires Ranked(store, rank)
    decreases |r|, 2
  {
    match e
    case None => None
    case Some(x) =>
      if IsTreeMode(x.mode) then At(store, Some(x.oid), r, rank)
      else if r == [] then Some(x)
      else None
  }

  /** A file is never also a directory: the paths of a tree are prefix-free. */
  lemma {:induction false} TreePathsPrefixFree(store: Store, t: Option<Oid>, d: Path, p: Path, rank: Oid -> nat)
    requires Ranked(store, rank) && d < p
    requires At(store, t, d, rank).Some?
    ensures At(store, t, p, rank).None?
    decreases |d|
  {
    var e := Get(Entries(store, t, rank), d[0]);
    assert p[0] == d[0] && d[1..] < p[1..];
    if IsTreeMode(e.value.mode) {
      TreePathsPrefixFree(store, Some(e.value.oid), d[1..], p[1..], rank);
    }
  }

  // ---------------------------------------------------------------------------
  // file maps
  // ---------------------------------------------------------------------------

  type FileMap = map<Path, TreeEntry>

  type Diff = map<Path, TreeChange>

  /** m lists exactly the files of the tree. */
  ghost predicate IsFlat(store: Store, t: Option<Oid>, m: FileMap, rank: Oid -> nat)
    requires Ranked(store, rank)
  {
    forall p :: Get(m, p) == At(store, t, p, rank)
  }

  /** d mentions exactly the paths whose entries differ, with both entries. */
  ghost predicate IsDiff(d: Diff, was: FileMap, now: FileMap)
  {
    forall p :: Get(d, p) == if Get(was, p) == Get(now, p) then None else Some(TreeChange(Get(was, p), Get(now, p)))
  }

  /** Carry out the changes. */
  function Apply(d: Diff, m: FileMap): FileMap
  {
    map p | p in m.Keys + d.Keys && (if p in d then d[p].now.Some? else true) :: if p in d then d[p].now.value else m[p]
  }

  lemma ApplyGet(d: Diff, m: FileMap, p: Path)
    ensures Get(Apply(d, m), p) == if p in d then d[p].now else Get(m, p)
  {
  }

  /** Applying a diff to the old files gives the new files. */
  lemma ApplyDiffGivesNew(d: Diff, was: FileMap, now: FileMap)
    requires IsDiff(d, was, now)
    ensures Apply(d, was) == now
  {
    forall p
      ensures Get(Apply(d, was), p) == Get(now, p)
    {
      ApplyGet(d, was, p);
      assert Get(d, p) == if Get(was, p) == Get(now, p) then None else Some(TreeChange(Get(was, p), Get(now, p)));
    }
    SameGetSameMap(Apply(d, was), now);
  }

  lemma SameGetSameMap(m: FileMap, n: FileMap)
    requires forall p :: Get(m, p) == Get(n, p)
    ensures m == n
  {
    forall p
      ensures p in m <==> p in n
      ensures p in m && p in n ==> m[p] == n[p]
    {
      assert Get(m, p) == Get(n, p);
    }
  }

  lemma FlatIsPrefixFree(store: Store, t: Option<Oid>, m: FileMap, rank: Oid -> nat)
    requires Ranked(store, rank) && IsFlat(store, t, m, rank)
    ensures PrefixFree(m.Keys)
  {
    forall d, p | d in m && p in m
      ensures !ProperPrefix(d, p)
    {
      assert Get(m, d) == At(store, t, d, rank) && Get(m, p) == At(store, t, p, rank);
      if ProperPrefix(d, p) {
        TreePathsPrefixFree(store, t, d, p, rank);
      }
    }
  }
}
