/** What a walk over objects means in terms of history: which walks there are, what Exclude marks, and that excluding
    what somebody has leaves out nothing that is missing there. */
module WalkHistory {
  import opened Common
  import CommitGraph
  import opened ObjectWalk

  /** Commits have commits as parents and a tree; trees hold trees and blobs. */
  ghost predicate Typed(objects: Objects)
  {
    forall o :: match objects(o)
                case Commit(parents, tree) => (forall p :: p in parents ==> objects(p).Commit?) && objects(tree).Tree?
                case Tree(entries) => forall e :: e in entries ==> objects(e).Tree? || objects(e).Blob?
                case _ => true
  }

  /** g holds the parents of all commits. */
  ghost predicate Shows(g: CommitGraph.Graph, objects: Objects)
  {
    forall o :: CommitGraph.Parents(g, o) == if objects(o).Commit? then objects(o).parents else []
  }

  /** A way down from a tree to a tree or blob in it. */
  ghost predicate TreeWalk(objects: Objects, v: seq<Oid>)
  {
    |v| > 0 && forall i :: 0 <= i < |v| - 1 ==> objects(v[i]).Tree? && v[i + 1] in objects(v[i]).entries
  }

  ghost predicate InTree(objects: Objects, tree: Oid, x: Oid)
  {
    exists v :: TreeWalk(objects, v) && v[0] == tree && v[|v| - 1] == x
  }

  /** w goes to ancestors for k commits, and from there on down the tree of the last of them. */
  ghost predicate HistoryThenTree(objects: Objects, g: CommitGraph.Graph, w: seq<Oid>, k: nat)
  {
    && 0 < k <= |w| && CommitGraph.Walk(g, w[..k])
    && (k < |w| ==> objects(w[k - 1]).Commit? && w[k] == objects(w[k - 1]).tree && TreeWalk(objects, w[k..]))
  }

  lemma {:induction false} AncestorsAreCommits(objects: Objects, g: CommitGraph.Graph, w: seq<Oid>, i: nat)
    requires Typed(objects) && Shows(g, objects) && CommitGraph.Walk(g, w) && objects(w[0]).Commit? && i < |w|
    ensures objects(w[i]).Commit?
    decreases i
  {
    if i > 0 {
      AncestorsAreCommits(objects, g, w, i - 1);
      assert w[i - 1 + 1] in CommitGraph.Parents(g, w[i - 1]);
    }
  }

  /** A walk that looks for commits goes from commits to their parents. */
  lemma CommitWalks(objects: Objects, g: CommitGraph.Graph, roots: set<Oid>, excluded: set<Oid>, w: seq<Oid>)
    requires Typed(objects) && Shows(g, objects) && |w| > 0 && objects(w[0]).Commit?
    ensures Walk(objects, CommitsOnly, roots, excluded, w)
            <==> w[0] in roots && (forall i :: 0 <= i < |w| ==> w[i] !in excluded) && CommitGraph.Walk(g, w)
  {
    if Walk(objects, CommitsOnly, roots, excluded, w) {
      CommitsOnTheWay(objects, CommitsOnly, roots, excluded, g, w);
    }
    if CommitGraph.Walk(g, w) {
      forall i | 0 <= i < |w| - 1
        ensures w[i + 1] in Refs(CommitsOnly, objects(w[i]))
      {
        AncestorsAreCommits(objects, g, w, i);
      }
    }
  }

  /** What a reference can be. */
  lemma Reference(objects: Objects, g: CommitGraph.Graph, kind: IterKind, x: Oid, y: Oid)
    requires Typed(objects) && Shows(g, objects) && !objects(x).Tag? && y in Refs(kind, objects(x))
    ensures !objects(y).Tag? && !objects(x).Blob?
    ensures objects(y).Commit? ==> objects(x).Commit? && y in CommitGraph.Parents(g, x)
    ensures objects(x).Commit? && !objects(y).Commit? ==> kind == All && y == objects(x).tree
    ensures objects(x).Tree? ==> kind == All && y in objects(x).entries
  {
  }

  lemma {:induction false} NoTag(objects: Objects, kind: IterKind, roots: set<Oid>, excluded: set<Oid>,
      g: CommitGraph.Graph, w: seq<Oid>)
    requires Typed(objects) && Shows(g, objects) && Walk(objects, kind, roots, excluded, w) && objects(w[0]).Commit?
    ensures !objects(w[|w| - 1]).Tag? && (kind == CommitsOnly ==> objects(w[|w| - 1]).Commit?)
    decreases |w|
  {
    hide Refs, Typed, Shows;
    if |w| > 1 {
      assert Walk(objects, kind, roots, excluded, w[..|w| - 1]);
      NoTag(objects, kind, roots, excluded, g, w[..|w| - 1]);
      Reference(objects, g, kind, w[|w| - 2], w[|w| - 2 + 1]);
    }
  }

  /** As long as a walk meets commits only, it goes to ancestors. */
  lemma {:induction false} CommitsOnTheWay(objects: Objects, kind: IterKind, roots: set<Oid>, excluded: set<Oid>,
      g: CommitGraph.Graph, w: seq<Oid>)
    requires Typed(objects) && Shows(g, objects) && Walk(objects, kind, roots, excluded, w) && objects(w[0]).Commit?
    requires kind == CommitsOnly || objects(w[|w| - 1]).Commit?
    ensures CommitGraph.Walk(g, w) && objects(w[|w| - 1]).Commit?
    decreases |w|
  {
    hide Refs, Typed, Shows, CommitGraph.Parents;
    if |w| > 1 {
      var v := w[..|w| - 1];
      assert Walk(objects, kind, roots, excluded, v);
      NoTag(objects, kind, roots, excluded, g, v);
      NoTag(objects, kind, roots, excluded, g, w);
      Reference(objects, g, kind, w[|w| - 2], w[|w| - 2 + 1]);
      CommitsOnTheWay(objects, kind, roots, excluded, g, v);
    }
  }

  /** A walk over all objects goes from commits to their parents, and then down into the tree of a commit. */
  lemma {:induction false} WalkIsHistoryThenTree(objects: Objects, g: CommitGraph.Graph, roots: set<Oid>,
      excluded: set<Oid>, w: seq<Oid>)
    requires Typed(objects) && Shows(g, objects) && |w| > 0 && objects(w[0]).Commit?
    ensures Walk(objects, All, roots, excluded, w)
            <==> w[0] in roots && (forall i :: 0 <= i < |w| ==> w[i] !in excluded)
                 && exists k: nat :: HistoryThenTree(objects, g, w, k)
  {
    if Walk(objects, All, roots, excluded, w) {
      var k := SplitWalk(objects, g, roots, excluded, w);
    }
    if k: nat :| HistoryThenTree(objects, g, w, k) {
      forall i | 0 <= i < |w| - 1
        ensures w[i + 1] in Refs(All, objects(w[i]))
      {
        if i < k {
          AncestorsAreCommits(objects, g, w[..k], i);
          assert i + 1 < k ==> w[..k][i + 1] in CommitGraph.Parents(g, w[..k][i]);
        } else {
          assert w[k..][i - k + 1] in objects(w[k..][i - k]).entries;
        }
      }
    }
  }

  /** Where a walk over all objects leaves the history. */
  lemma {:induction false} SplitWalk(objects: Objects, g: CommitGraph.Graph, roots: set<Oid>, excluded: set<Oid>,
      w: seq<Oid>) returns (k: nat)
    requires Typed(objects) && Shows(g, objects) && Walk(objects, All, roots, excluded, w) && objects(w[0]).Commit?
    ensures HistoryThenTree(objects, g, w, k)
    decreases |w|
  {
    hide Refs, Typed, Shows, CommitGraph.Parents, CommitGraph.Walk;
    var last := |w| - 1;
    if objects(w[last]).Commit? {
      CommitsOnTheWay(objects, All, roots, excluded, g, w);
      assert w[..|w|] == w;
      return |w|;
    }
    var v := w[..last];
    assert Walk(objects, All, roots, excluded, v);
    NoTag(objects, All, roots, excluded, g, v);
    Reference(objects, g, All, w[last - 1], w[last - 1 + 1]);
    if objects(w[last - 1]).Commit? {
      CommitsOnTheWay(objects, All, roots, excluded, g, v);
      assert w[last..] == [w[last]];
      return last;
    }
    k := SplitWalk(objects, g, roots, excluded, v);
    assert v[..k] == w[..k];
    if k == last {
      AncestorsAreCommits(objects, g, v[..k], k - 1);
    }
    TreeWalkGrows(objects, v[k..], w[last]);
    assert w[k..] == v[k..] + [w[last]];
    assert w[..k] == v[..k];
  }

  lemma TreeWalkGrows(objects: Objects, v: seq<Oid>, x: Oid)
    requires TreeWalk(objects, v) && objects(v[|v| - 1]).Tree? && x in objects(v[|v| - 1]).entries
    ensures TreeWalk(objects, v + [x])
  {
  }

  /** Excluding a commit marks it, its parents and what is in its tree; excluding a tree what is in it; anything else
      itself alone. A walk for commits only does not go into trees. */
  lemma ExcludeMarks(objects: Objects, kind: IterKind, o: Oid, x: Oid)
    requires Typed(objects)
    ensures Marks(objects, kind, o, x) <==>
            match objects(o)
            case Commit(parents, tree) => x == o || x in parents || (kind == All && InTree(objects, tree, x))
            case Tree(_) => if kind == All then InTree(objects, o, x) else x == o
            case _ => x == o
  {
    hide Marks, InTree;
    MarksStepwise(objects, kind, o, x);
    match objects(o)
    case Commit(_, tree) =>
      if kind == All {
        TreeMarks(objects, tree, x);
      }
    case Tree(_) =>
      if kind == All {
        TreeMarks(objects, o, x);
      } else {
        NothingInside(objects, kind, o, x);
      }
    case _ =>
      NothingInside(objects, kind, o, x);
  }

  lemma NothingInside(objects: Objects, kind: IterKind, o: Oid, x: Oid)
    requires Inside(kind, objects(o)) == [] && Beside(objects(o)) == []
    ensures Marks(objects, kind, o, x) <==> x == o
  {
    MarksStepwise(objects, kind, o, x);
  }

  lemma TreeMarks(objects: Objects, tree: Oid, x: Oid)
    requires Typed(objects) && objects(tree).Tree?
    ensures Marks(objects, All, tree, x) <==> InTree(objects, tree, x)
  {
    if Marks(objects, All, tree, x) {
      var w :| Descent(objects, All, w) && w[0] == tree && (x == w[|w| - 1] || x in Beside(objects(w[|w| - 1])));
      DescentInTree(objects, w);
    }
    if InTree(objects, tree, x) {
      var v :| TreeWalk(objects, v) && v[0] == tree && v[|v| - 1] == x;
      assert Descent(objects, All, v);
    }
  }

  lemma {:induction false} DescentInTree(objects: Objects, w: seq<Oid>)
    requires Typed(objects) && Descent(objects, All, w) && objects(w[0]).Tree?
    ensures TreeWalk(objects, w) && (objects(w[|w| - 1]).Tree? || objects(w[|w| - 1]).Blob?)
    decreases |w|
  {
    if |w| > 1 {
      var v := w[..|w| - 1];
      assert Descent(objects, All, v);
      DescentInTree(objects, v);
      assert w[|w| - 2 + 1] in Inside(All, objects(w[|w| - 2]));
    }
  }

  /** What is excluded belongs to what somebody has. */
  ghost predicate MarkedBy(objects: Objects, kind: IterKind, haves: set<Oid>, excluded: set<Oid>)
  {
    forall e :: e in excluded ==> exists h :: h in haves && Marks(objects, kind, h, e)
  }

  ghost predicate Has(objects: Objects, kind: IterKind, haves: set<Oid>, x: Oid)
  {
    exists d: nat :: Reached(objects, kind, haves, {}, x, d)
  }

  lemma WalksJoin(objects: Objects, kind: IterKind, haves: set<Oid>, v: seq<Oid>, w: seq<Oid>)
    requires Walk(objects, kind, haves, {}, v) && |w| > 0 && Walk(objects, kind, {w[0]}, {}, w)
    requires w[0] in Refs(kind, objects(v[|v| - 1]))
    ensures Walk(objects, kind, haves, {}, v + w)
  {
    hide Refs;
    var u := v + w;
    forall i | 0 <= i < |u| - 1
      ensures u[i + 1] in Refs(kind, objects(u[i]))
    {
      if i >= |v| {
        assert w[i - |v| + 1] in Refs(kind, objects(w[i - |v|]));
      } else if i < |v| - 1 {
        assert v[i + 1] in Refs(kind, objects(v[i]));
      }
    }
  }

  lemma InsideIsReference(objects: Objects, kind: IterKind, v: seq<Oid>, e: Oid)
    requires Descent(objects, kind, v)
    ensures Walk(objects, kind, {v[0]}, {}, v)
    ensures e in Beside(objects(v[|v| - 1])) ==> e in Refs(kind, objects(v[|v| - 1]))
  {
    forall i | 0 <= i < |v| - 1
      ensures v[i + 1] in Refs(kind, objects(v[i]))
    {
      assert v[i + 1] in Inside(kind, objects(v[i]));
    }
  }

  /** Whoever has an object has what is marked when it is excluded, and what can be reached from there. */
  lemma MarkedIsHad(objects: Objects, kind: IterKind, haves: set<Oid>, h: Oid, e: Oid, w: seq<Oid>)
    requires h in haves && Marks(objects, kind, h, e) && |w| > 0 && w[0] == e && Walk(objects, kind, {e}, {}, w)
    ensures Has(objects, kind, haves, w[|w| - 1])
  {
    hide Refs, Inside, Beside, Descent;
    var v := MarkedBelow(objects, kind, h, e);
    InsideIsReference(objects, kind, v, e);
    assert Walk(objects, kind, haves, {}, v);
    var u := v + w;
    if e == v[|v| - 1] {
      u := v + w[1..];
      if |w| > 1 {
        assert w[0 + 1] in Refs(kind, objects(w[0]));
        assert Walk(objects, kind, {w[1]}, {}, w[1..]);
        WalksJoin(objects, kind, haves, v, w[1..]);
      } else {
        assert u == v;
      }
    } else {
      WalksJoin(objects, kind, haves, v, w);
    }
    assert Reached(objects, kind, haves, {}, w[|w| - 1], |u| - 1);
  }

  lemma MarkedBelow(objects: Objects, kind: IterKind, h: Oid, e: Oid) returns (v: seq<Oid>)
    requires Marks(objects, kind, h, e)
    ensures |v| > 0 && Descent(objects, kind, v) && v[0] == h && (e == v[|v| - 1] || e in Beside(objects(v[|v| - 1])))
  {
    v :| Descent(objects, kind, v) && v[0] == h && (e == v[|v| - 1] || e in Beside(objects(v[|v| - 1])));
  }

  /** A walk to something that is not there already meets nothing that is excluded. */
  lemma WalkAvoidsExcluded(objects: Objects, kind: IterKind, roots: set<Oid>, haves: set<Oid>, excluded: set<Oid>,
      w: seq<Oid>)
    requires MarkedBy(objects, kind, haves, excluded) && Walk(objects, kind, roots, {}, w)
    requires !Has(objects, kind, haves, w[|w| - 1])
    ensures Walk(objects, kind, roots, excluded, w)
  {
    hide Refs, Marks, Has;
    forall i | 0 <= i < |w|
      ensures w[i] !in excluded
    {
      if w[i] in excluded {
        var h :| h in haves && Marks(objects, kind, h, w[i]);
        assert w[i..][0] == w[i] && Walk(objects, kind, {w[i]}, {}, w[i..]);
        MarkedIsHad(objects, kind, haves, h, w[i], w[i..]);
      }
    }
  }

  /** Excluding what somebody has leaves out nothing that is missing there: every other object within reach is still
      visited, and at the same distance. */
  lemma NothingMissing(objects: Objects, kind: IterKind, roots: set<Oid>, haves: set<Oid>, excluded: set<Oid>, x: Oid,
      d: nat)
    requires MarkedBy(objects, kind, haves, excluded) && !Has(objects, kind, haves, x)
    ensures Distance(objects, kind, roots, excluded, x, d) <==> Distance(objects, kind, roots, {}, x, d)
  {
    hide MarkedBy, Has;
    forall e: nat
      ensures Reached(objects, kind, roots, excluded, x, e) <==> Reached(objects, kind, roots, {}, x, e)
    {
      if w :| Walk(objects, kind, roots, {}, w) && w[|w| - 1] == x && |w| == e + 1 {
        WalkAvoidsExcluded(objects, kind, roots, haves, excluded, w);
      }
      if w :| Walk(objects, kind, roots, excluded, w) && w[|w| - 1] == x && |w| == e + 1 {
        assert Walk(objects, kind, roots, {}, w);
      }
    }
  }
}
