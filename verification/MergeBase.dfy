/** The queue of the two walks over the commit graph in merge.go, and the first walk, getDescendent. A pop
    takes a node with the greatest time stamp, any of them when there are several. */
module MergeBase {
  import opened Common
  import opened CommitGraph

  datatype Kind = One | Two | Stale

  datatype Node = Node(oid: Oid, kind: Kind)

  function Without(q: seq<Node>, i: nat): (r: seq<Node>)
    requires i < |q|
    ensures forall n :: n in q <==> n == q[i] || n in r
  {
    assert forall n :: n in q <==> n == q[i] || n in q[..i] + q[i + 1..] by {
      assert q == q[..i] + [q[i]] + q[i + 1..];
    }
    q[..i] + q[i + 1..]
  }

  /** The time stamp of each commit; of an object that is no commit, zero. */
  type Stamps = Oid -> nat

  /** No queued commit is later than the one at position k. */
  predicate Latest(q: seq<Node>, ts: Stamps, k: nat)
    requires k < |q|
  {
    forall i :: 0 <= i < |q| ==> ts(q[i].oid) <= ts(q[k].oid)
  }

  lemma {:induction false} SomeLatest(q: seq<Node>, ts: Stamps)
    requires q != []
    ensures exists k: nat :: k < |q| && Latest(q, ts, k)
  {
    if |q| == 1 {
      assert Latest(q, ts, 0);
    } else {
      var last := |q| - 1;
      SomeLatest(q[..last], ts);
      var k: nat :| k < last && Latest(q[..last], ts, k);
      assert forall i :: 0 <= i < last ==> q[..last][i] == q[i];
      assert Latest(q, ts, if ts(q[k].oid) <= ts(q[last].oid) then last else k);
    }
  }

  /** heap.Pop. Among nodes with the same stamp the heap may give any; with equal stamps, any at all. */
  method Pop(q: seq<Node>, ts: Stamps) returns (node: Node, rest: seq<Node>, ghost i: nat)
    requires q != []
    ensures i < |q| && node == q[i] && rest == Without(q, i) && Latest(q, ts, i)
    ensures node in q && forall n :: n in q ==> n == node || n in rest
    ensures forall n :: n in q ==> ts(n.oid) <= ts(node.oid)
  {
    SomeLatest(q, ts);
    var k: nat :| k < |q| && Latest(q, ts, k);
    i := k;
    node, rest := q[k], q[..k] + q[k + 1..];
  }

  // ---------------------------------------------------------------------------
  // termination: the walks left from the queue
  // ---------------------------------------------------------------------------

  ghost function QueueWalks(g: Graph, rank: Oid -> nat, q: seq<Node>): nat
    requires Ranks(g, rank)
  {
    if q == [] then 0 else Walks(g, rank, q[0].oid) + QueueWalks(g, rank, q[1..])
  }

  lemma {:induction false} QueueWalksConcat(g: Graph, rank: Oid -> nat, q: seq<Node>, r: seq<Node>)
    requires Ranks(g, rank)
    ensures QueueWalks(g, rank, q + r) == QueueWalks(g, rank, q) + QueueWalks(g, rank, r)
    decreases |q|
  {
    if q == [] {
      assert q + r == r;
    } else {
      assert (q + r)[1..] == q[1..] + r;
      QueueWalksConcat(g, rank, q[1..], r);
    }
  }

  lemma {:induction false} QueueWalksPop(g: Graph, rank: Oid -> nat, q: seq<Node>, i: nat)
    requires Ranks(g, rank) && i < |q|
    ensures QueueWalks(g, rank, q) == Walks(g, rank, q[i].oid) + QueueWalks(g, rank, Without(q, i))
  {
    assert q == q[..i] + ([q[i]] + q[i + 1..]);
    QueueWalksConcat(g, rank, q[..i], [q[i]] + q[i + 1..]);
    QueueWalksConcat(g, rank, [q[i]], q[i + 1..]);
    QueueWalksConcat(g, rank, q[..i], q[i + 1..]);
    assert QueueWalks(g, rank, [q[i]]) == Walks(g, rank, q[i].oid) by { assert [q[i]][1..] == []; }
  }

  lemma QueueWalksPush(g: Graph, rank: Oid -> nat, q: seq<Node>, n: Node)
    requires Ranks(g, rank)
    ensures QueueWalks(g, rank, q + [n]) == QueueWalks(g, rank, q) + Walks(g, rank, n.oid)
  {
    QueueWalksConcat(g, rank, q, [n]);
    assert [n][1..] == [];
  }

  lemma {:induction false} QueueWalksByOid(g: Graph, rank: Oid -> nat, q: seq<Node>, r: seq<Node>)
    requires Ranks(g, rank) && |q| == |r| && forall i :: 0 <= i < |q| ==> q[i].oid == r[i].oid
    ensures QueueWalks(g, rank, q) == QueueWalks(g, rank, r)
    decreases |q|
  {
    if q != [] {
      QueueWalksByOid(g, rank, q[1..], r[1..]);
    }
  }

  // ---------------------------------------------------------------------------
  // getDescendent
  // ---------------------------------------------------------------------------

  method PushParents(g: Graph, q: seq<Node>, oid: Oid, kind: Kind, ghost rank: Oid -> nat) returns (r: seq<Node>)
    requires Ranks(g, rank)
    ensures forall n :: n in r <==> n in q || (n.kind == kind && n.oid in Parents(g, oid))
    ensures QueueWalks(g, rank, r) == QueueWalks(g, rank, q) + Walks(g, rank, oid) - 1
  {
    r := q;
    var parents := if oid in g then g[oid] else [];
    for i := 0 to |parents|
      invariant forall n :: n in r <==> n in q || (n.kind == kind && n.oid in parents[..i])
      invariant QueueWalks(g, rank, r) + WalksAll(g, rank, oid, parents[i..])
                == QueueWalks(g, rank, q) + WalksAll(g, rank, oid, parents)
    {
      QueueWalksPush(g, rank, r, Node(parents[i], kind));
      assert parents[i..][1..] == parents[i + 1..];
      assert parents[..i + 1] == parents[..i] + [parents[i]];
      r := r + [Node(parents[i], kind)];
    }
    assert parents[..|parents|] == parents;
  }

  /** Some queued commit of this kind has x among its ancestors, itself included. */
  ghost predicate Awaits(g: Graph, q: seq<Node>, kind: Kind, x: Oid)
  {
    exists n :: n in q && n.kind == kind && Anc(g, x, n.oid)
  }

  /** Every queued commit is a proper ancestor of the commit its kind stands for. */
  ghost predicate QueueSound(g: Graph, rank: Oid -> nat, q: seq<Node>, oid1: Oid, oid2: Oid)
  {
    forall n :: n in q ==> if n.kind == One then Anc(g, n.oid, oid1) && rank(n.oid) < rank(oid1)
                           else n.kind == Two && Anc(g, n.oid, oid2) && rank(n.oid) < rank(oid2)
  }

  /** After replacing a queued commit by its parents, its other ancestors are still awaited. */
  lemma StillAwaits(g: Graph, q: seq<Node>, i: nat, r: seq<Node>, kind: Kind, x: Oid)
    requires i < |q| && (q[i].kind == kind ==> q[i].oid != x)
    requires forall n :: n in r <==> n in Without(q, i) || (n.kind == q[i].kind && n.oid in Parents(g, q[i].oid))
    requires Awaits(g, q, kind, x)
    ensures Awaits(g, r, kind, x)
  {
    var n :| n in q && n.kind == kind && Anc(g, x, n.oid);
    if n == q[i] {
      var p := AncViaParent(g, x, n.oid);
      assert Node(p, kind) in r;
    } else {
      assert n in r;
    }
  }

  lemma ParentsSound(g: Graph, rank: Oid -> nat, q: seq<Node>, node: Node, r: seq<Node>, oid1: Oid, oid2: Oid)
    requires Ranks(g, rank) && QueueSound(g, rank, q, oid1, oid2)
    requires if node.kind == One then Anc(g, node.oid, oid1) else node.kind == Two && Anc(g, node.oid, oid2)
    requires forall n :: n in r ==> n in q || (n.kind == node.kind && n.oid in Parents(g, node.oid))
    ensures QueueSound(g, rank, r, oid1, oid2)
  {
    forall n | n in r && n !in q
      ensures if n.kind == One then Anc(g, n.oid, oid1) && rank(n.oid) < rank(oid1)
              else n.kind == Two && Anc(g, n.oid, oid2) && rank(n.oid) < rank(oid2)
    {
      var top := if node.kind == One then oid1 else oid2;
      AncSelf(g, n.oid);
      AncParent(g, n.oid, n.oid, node.oid);
      AncThen(g, n.oid, node.oid, top);
      AncRank(g, rank, node.oid, top);
    }
  }

  /** The one of the two commits that descends from the other; None stands for errDescendentNotFound. */
  method GetDescendent(g: Graph, ts: Stamps, oid1: Oid, oid2: Oid, ghost rank: Oid -> nat) returns (r: Option<Oid>)
    requires Ranks(g, rank)
    ensures r == Some(oid1) <==> Anc(g, oid2, oid1)
    ensures r == Some(oid2) <==> Anc(g, oid1, oid2)
    ensures r == None <==> !Anc(g, oid1, oid2) && !Anc(g, oid2, oid1)
    ensures r.Some? ==> r.value == oid1 || r.value == oid2
  {
    if oid1 == oid2 {
      AncSelf(g, oid1);
      return Some(oid1);
    }
    OnlyOneDescends(g, rank, oid1, oid2);
    var q := PushParents(g, [], oid1, One, rank);
    ParentsSound(g, rank, [], Node(oid1, One), q, oid1, oid2) by { AncSelf(g, oid1); }
    AwaitsParents(g, q, One, oid1, oid2);
    ghost var q1 := q;
    q := PushParents(g, q, oid2, Two, rank);
    ParentsSound(g, rank, q1, Node(oid2, Two), q, oid1, oid2) by { AncSelf(g, oid2); }
    AwaitsParents(g, q, Two, oid2, oid1);
    while |q| > 0
      invariant QueueSound(g, rank, q, oid1, oid2)
      invariant Anc(g, oid2, oid1) ==> Awaits(g, q, One, oid2)
      invariant Anc(g, oid1, oid2) ==> Awaits(g, q, Two, oid1)
      decreases QueueWalks(g, rank, q)
    {
      ghost var before := q;
      var node, rest, i := Pop(q, ts);
      QueueWalksPop(g, rank, q, i);
      if node.kind == One && node.oid == oid2 {
        return Some(oid1);
      } else if node.kind == Two && node.oid == oid1 {
        return Some(oid2);
      }
      // the guard against walking in circles never skips a commit of an acyclic graph
      var again := (node.kind == One && node.oid == oid1) || (node.kind == Two && node.oid == oid2);
      if again {
        q := rest;
      } else {
        q := PushParents(g, rest, node.oid, node.kind, rank);
        ParentsSound(g, rank, rest, node, q, oid1, oid2);
        if Anc(g, oid2, oid1) {
          StillAwaits(g, before, i, q, One, oid2);
        }
        if Anc(g, oid1, oid2) {
          StillAwaits(g, before, i, q, Two, oid1);
        }
      }
    }
    return None;
  }

  lemma OnlyOneDescends(g: Graph, rank: Oid -> nat, x: Oid, y: Oid)
    requires Ranks(g, rank) && x != y
    ensures !(Anc(g, x, y) && Anc(g, y, x))
  {
    if Anc(g, x, y) {
      AncRank(g, rank, x, y);
    }
    if Anc(g, y, x) {
      AncRank(g, rank, y, x);
    }
  }

  lemma AwaitsParents(g: Graph, q: seq<Node>, kind: Kind, c: Oid, x: Oid)
    requires c != x && forall p :: p in Parents(g, c) ==> Node(p, kind) in q
    ensures Anc(g, x, c) ==> Awaits(g, q, kind, x)
  {
    if Anc(g, x, c) {
      var p := AncViaParent(g, x, c);
      assert Node(p, kind) in q;
    }
  }
}
