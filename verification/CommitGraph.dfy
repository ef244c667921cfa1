/** The commit graph of a repository: ancestry along parent links. */
module CommitGraph {
  import opened Common

  /** The parents of each commit. An object that is no commit has no entry, and no parents. */
  type Graph = map<Oid, seq<Oid>>

  function Parents(g: Graph, c: Oid): seq<Oid>
  {
    if c in g then g[c] else []
  }

  /** w leads from a commit to one of its ancestors, one parent link at a time. */
  ghost predicate Walk(g: Graph, w: seq<Oid>)
  {
    |w| > 0 && forall i :: 0 <= i < |w| - 1 ==> w[i + 1] in Parents(g, w[i])
  }

  /** x is y, or an ancestor of y. */
  ghost predicate Anc(g: Graph, x: Oid, y: Oid)
  {
    exists w :: Walk(g, w) && w[0] == y && w[|w| - 1] == x
  }

  /** The ranking shows that the graph has no cycle. */
  ghost predicate Ranks(g: Graph, rank: Oid -> nat)
  {
    forall c, p :: p in Parents(g, c) ==> rank(p) < rank(c)
  }

  lemma AncSelf(g: Graph, x: Oid)
    ensures Anc(g, x, x)
  {
    assert Walk(g, [x]) && [x][0] == x;
  }

  lemma AncParent(g: Graph, x: Oid, p: Oid, y: Oid)
    requires p in Parents(g, y) && Anc(g, x, p)
    ensures Anc(g, x, y)
  {
    var w :| Walk(g, w) && w[0] == p && w[|w| - 1] == x;
    var v := [y] + w;
    assert Walk(g, v) && v[0] == y && v[|v| - 1] == x;
  }

  /** A proper ancestor is an ancestor of a parent. */
  lemma AncViaParent(g: Graph, x: Oid, y: Oid) returns (p: Oid)
    requires Anc(g, x, y) && x != y
    ensures p in Parents(g, y) && Anc(g, x, p)
  {
    var w :| Walk(g, w) && w[0] == y && w[|w| - 1] == x;
    p := w[1];
    var v := w[1..];
    assert Walk(g, v) && v[0] == p && v[|v| - 1] == x;
  }

  lemma AncThen(g: Graph, x: Oid, y: Oid, z: Oid)
    requires Anc(g, x, y) && Anc(g, y, z)
    ensures Anc(g, x, z)
  {
    var v :| Walk(g, v) && v[0] == y && v[|v| - 1] == x;
    var w :| Walk(g, w) && w[0] == z && w[|w| - 1] == y;
    var u := w + v[1..];
    assert Walk(g, u) && u[0] == z && u[|u| - 1] == x;
  }

  lemma {:induction false} WalkRank(g: Graph, rank: Oid -> nat, w: seq<Oid>)
    requires Ranks(g, rank) && Walk(g, w)
    ensures rank(w[|w| - 1]) + |w| - 1 <= rank(w[0])
    decreases |w|
  {
    if |w| > 1 {
      WalkRank(g, rank, w[1..]);
    }
  }

  /** Ancestry without cycles is antisymmetric. */
  lemma AncRank(g: Graph, rank: Oid -> nat, x: Oid, y: Oid)
    requires Ranks(g, rank) && Anc(g, x, y)
    ensures rank(x) <= rank(y) && (x != y ==> rank(x) < rank(y))
  {
    var w :| Walk(g, w) && w[0] == y && w[|w| - 1] == x;
    WalkRank(g, rank, w);
  }

  // ---------------------------------------------------------------------------
  // the number of walks
  // ---------------------------------------------------------------------------

  /** How many walks start at c: what is left to do for a queued commit when nothing remembers visits. */
  ghost function Walks(g: Graph, rank: Oid -> nat, c: Oid): nat
    requires Ranks(g, rank)
    decreases rank(c), 1, 0
  {
    1 + WalksAll(g, rank, c, Parents(g, c))
  }

  ghost function WalksAll(g: Graph, rank: Oid -> nat, c: Oid, ps: seq<Oid>): nat
    requires Ranks(g, rank) && forall p :: p in ps ==> p in Parents(g, c)
    decreases rank(c), 0, |ps|
  {
    if ps == [] then 0 else
    assert ps[0] in Parents(g, c);
    Walks(g, rank, ps[0]) + WalksAll(g, rank, c, ps[1..])
  }

  // ---------------------------------------------------------------------------
  // common ancestors
  // ---------------------------------------------------------------------------

  ghost predicate CommonAnc(g: Graph, x: Oid, a: Oid, b: Oid)
  {
    Anc(g, x, a) && Anc(g, x, b)
  }

  /** x is a proper ancestor of a common ancestor. */
  ghost predicate Below(g: Graph, x: Oid, a: Oid, b: Oid)
  {
    exists c, p :: CommonAnc(g, c, a, b) && p in Parents(g, c) && Anc(g, x, p)
  }

  /** x is the best common ancestor: every other one is its ancestor. */
  ghost predicate Best(g: Graph, x: Oid, a: Oid, b: Oid)
  {
    CommonAnc(g, x, a, b) && forall c :: CommonAnc(g, c, a, b) ==> Anc(g, c, x)
  }

  /** Above every common ancestor there is one that lies below no other. */
  lemma {:induction false} TopCommon(g: Graph, rank: Oid -> nat, c: Oid, a: Oid, b: Oid) returns (x: Oid)
    requires Ranks(g, rank) && CommonAnc(g, c, a, b)
    ensures CommonAnc(g, x, a, b) && !Below(g, x, a, b) && Anc(g, c, x)
    decreases rank(a) - rank(c)
  {
    AncRank(g, rank, c, a);
    if Below(g, c, a, b) {
      var d, p :| CommonAnc(g, d, a, b) && p in Parents(g, d) && Anc(g, c, p);
      AncRank(g, rank, c, p);
      AncRank(g, rank, d, a);
      AncParent(g, c, p, d);
      x := TopCommon(g, rank, d, a, b);
      AncThen(g, c, d, x);
    } else {
      AncSelf(g, c);
      x := c;
    }
  }
}
