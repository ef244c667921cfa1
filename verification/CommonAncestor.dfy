/** commonAncestor of merge.go: two coloured walks that meet, with everything below a recorded meeting point
    marked stale, and a fold over the meeting points. What it returns is the best common ancestor. Whether it
    returns one at all depends on the time stamps, which order the queue. */
module CommonAncestor {
  import opened Common
  import opened CommitGraph
  import opened MergeBase

  datatype Answer =
    | Found(oid: Oid)
    | NoCommonAncestor        // errNoCommonAncestor
    | DescendentNotFound      // errDescendentNotFound

  /** The bookkeeping of the walk. */
  datatype State = State(q: seq<Node>, p1: set<Oid>, p2: set<Oid>, both: seq<Oid>, stale: set<Oid>)

  /** x is a proper ancestor of a recorded meeting point. */
  ghost predicate Beneath(g: Graph, both: seq<Oid>, x: Oid)
  {
    exists c, p :: c in both && p in Parents(g, c) && Anc(g, x, p)
  }

  /** What the colour of a visited or queued commit says about it. */
  ghost predicate Coloured(g: Graph, both: seq<Oid>, n: Node, oid1: Oid, oid2: Oid)
  {
    match n.kind
    case One => Anc(g, n.oid, oid1)
    case Two => Anc(g, n.oid, oid2)
    case Stale => Beneath(g, both, n.oid)
  }

  /** Everything recorded is true of the graph. */
  ghost predicate Sound(g: Graph, s: State, oid1: Oid, oid2: Oid)
  {
    && (forall n :: n in s.q ==> Coloured(g, s.both, n, oid1, oid2))
    && (forall x :: x in s.p1 ==> Anc(g, x, oid1))
    && (forall x :: x in s.p2 ==> Anc(g, x, oid2))
    && (forall x :: x in s.both ==> CommonAnc(g, x, oid1, oid2))
    && (forall x :: x in s.stale ==> Beneath(g, s.both, x))
    && s.p1 !! s.p2
    && oid1 !in s.p2 && oid2 !in s.p1 && oid1 !in s.both && oid2 !in s.both
  }

  /** The walk of this kind has visited x, will visit it, or need not. */
  ghost predicate Covered(g: Graph, s: State, kind: Kind, x: Oid)
  {
    || x in (if kind == One then s.p1 else s.p2)
    || x in s.both
    || Beneath(g, s.both, x)
    || Node(x, kind) in s.q
  }

  ghost predicate ParentsCovered(g: Graph, s: State, kind: Kind, c: Oid)
  {
    forall p :: p in Parents(g, c) ==> Covered(g, s, kind, p)
  }

  /** Both walks have covered their start and the parents of every visited commit but c. */
  ghost predicate Complete(g: Graph, s: State, oid1: Oid, oid2: Oid, c: Option<Node>)
  {
    && (oid1 in g ==> Covered(g, s, One, oid1))
    && (oid2 in g ==> Covered(g, s, Two, oid2))
    && (forall x :: x in s.p1 && c != Some(Node(x, One)) ==> ParentsCovered(g, s, One, x))
    && (forall x :: x in s.p2 && c != Some(Node(x, Two)) ==> ParentsCovered(g, s, Two, x))
  }

  lemma BeneathParent(g: Graph, both: seq<Oid>, c: Oid, p: Oid)
    requires p in Parents(g, c) && (c in both || Beneath(g, both, c))
    ensures Beneath(g, both, p)
  {
    AncSelf(g, p);
    AncParent(g, p, p, c);
    BeneathDown(g, both, p, c);
  }

  /** Ancestors of what is recorded, or lies beneath it, lie beneath it too, or are recorded themselves. */
  lemma BeneathDown(g: Graph, both: seq<Oid>, x: Oid, y: Oid)
    requires Anc(g, x, y)
    ensures Beneath(g, both, y) ==> Beneath(g, both, x)
    ensures y in both && x != y ==> Beneath(g, both, x)
  {
    if Beneath(g, both, y) {
      var c, p :| c in both && p in Parents(g, c) && Anc(g, y, p);
      AncThen(g, x, y, p);
    }
    if y in both && x != y {
      var p := AncViaParent(g, x, y);
    }
  }

  /** s has at least the coverage that t has. */
  ghost predicate Keeps(g: Graph, t: State, s: State)
  {
    && (forall x :: Covered(g, t, One, x) ==> Covered(g, s, One, x))
    && (forall x :: Covered(g, t, Two, x) ==> Covered(g, s, Two, x))
  }

  lemma CompleteKept(g: Graph, t: State, s: State, oid1: Oid, oid2: Oid, c: Option<Node>)
    requires Complete(g, t, oid1, oid2, c) && Keeps(g, t, s)
    requires s.p1 == t.p1 && s.p2 == t.p2
    ensures Complete(g, s, oid1, oid2, c)
  {
    hide Covered;
    forall x | x in s.p1 && c != Some(Node(x, One))
      ensures ParentsCovered(g, s, One, x)
    {
      assert ParentsCovered(g, t, One, x);
    }
    forall x | x in s.p2 && c != Some(Node(x, Two))
      ensures ParentsCovered(g, s, Two, x)
    {
      assert ParentsCovered(g, t, Two, x);
    }
  }

  // ---------------------------------------------------------------------------
  // visiting one commit
  // ---------------------------------------------------------------------------

  datatype Visit = Return(oid: Oid) | Skip | Expand

  /** A popped commit enters the set of its colour; met by the other walk, it is recorded once. */
  function Entered(s: State, node: Node, rest: seq<Node>): State
  {
    var x := node.oid;
    var r := s.(q := rest);
    var met := if x in s.both then r else r.(both := s.both + [x]);
    match node.kind
    case One => if x in s.p2 then met else r.(p1 := s.p1 + {x})
    case Two => if x in s.p1 then met else r.(p2 := s.p2 + {x})
    case Stale => r.(stale := s.stale + {x})
  }

  /** What popping a commit does: an early answer, nothing more, or its parents come next. */
  method VisitNode(s: State, node: Node, rest: seq<Node>, oid1: Oid, oid2: Oid) returns (v: Visit, r: State)
    ensures v.Return? <==> node == Node(oid2, One) || node == Node(oid1, Two)
    ensures v.Return? ==> v.oid == node.oid
    ensures !v.Return? ==> r == Entered(s, node, rest)
    ensures !v.Return? ==> (v == Skip <==> if node.kind == One then node.oid in s.p1 && node.oid !in s.p2
                                           else node.kind == Two && node.oid in s.p2 && node.oid !in s.p1)
  {
    var x := node.oid;
    v, r := Expand, s.(q := rest);
    match node.kind
    case One =>
      if x == oid2 {
        return Return(oid2), r;
      } else if x in s.p2 {
        if x !in s.both {
          r := r.(both := s.both + [x]);
        }
      } else if x in s.p1 {
        assert s.p1 + {x} == s.p1;
        return Skip, r;
      } else {
        r := r.(p1 := s.p1 + {x});
      }
    case Two =>
      if x == oid1 {
        return Return(oid1), r;
      } else if x in s.p1 {
        if x !in s.both {
          r := r.(both := s.both + [x]);
        }
      } else if x in s.p2 {
        assert s.p2 + {x} == s.p2;
        return Skip, r;
      } else {
        r := r.(p2 := s.p2 + {x});
      }
    case Stale =>
      r := r.(stale := s.stale + {x});
  }

  /** If one of the two commits is an ancestor of the other, it is the best common ancestor. */
  lemma AncestorIsBest(g: Graph, x: Oid, oid1: Oid, oid2: Oid)
    requires x == oid1 || x == oid2
    requires Anc(g, x, oid1) || x == oid1
    requires Anc(g, x, oid2) || x == oid2
    ensures Best(g, x, oid1, oid2)
  {
    AncSelf(g, x);
  }

  /** A walk that arrives at the other commit has found the best common ancestor. */
  lemma MeetsStart(g: Graph, s: State, node: Node, oid1: Oid, oid2: Oid)
    requires Sound(g, s, oid1, oid2) && node in s.q && (node == Node(oid2, One) || node == Node(oid1, Two))
    ensures Best(g, node.oid, oid1, oid2)
  {
    assert Coloured(g, s.both, node, oid1, oid2);
    AncestorIsBest(g, node.oid, oid1, oid2);
  }

  lemma EnteredSound(g: Graph, s: State, i: nat, oid1: Oid, oid2: Oid)
    requires i < |s.q| && s.q[i] != Node(oid2, One) && s.q[i] != Node(oid1, Two)
    requires oid1 != oid2 && Sound(g, s, oid1, oid2)
    ensures Sound(g, Entered(s, s.q[i], Without(s.q, i)), oid1, oid2)
    ensures Coloured(g, Entered(s, s.q[i], Without(s.q, i)).both, s.q[i], oid1, oid2)
  {
    hide Anc;
    var r := Entered(s, s.q[i], Without(s.q, i));
    BeneathMore(g, s.both, r.both);
    assert Coloured(g, s.both, s.q[i], oid1, oid2);
    forall n | n in s.q
      ensures Coloured(g, r.both, n, oid1, oid2)
    {
      assert Coloured(g, s.both, n, oid1, oid2);
    }
  }

  lemma BeneathMore(g: Graph, both: seq<Oid>, more: seq<Oid>)
    requires forall x :: x in both ==> x in more
    ensures forall x :: Beneath(g, both, x) ==> Beneath(g, more, x)
  {
  }

  /** Recording a visit keeps the coverage; only the parents of the commit itself are still open. */
  lemma EnteredComplete(g: Graph, s: State, i: nat, oid1: Oid, oid2: Oid)
    requires i < |s.q| && Sound(g, s, oid1, oid2) && Complete(g, s, oid1, oid2, None)
    ensures Complete(g, Entered(s, s.q[i], Without(s.q, i)), oid1, oid2, Some(s.q[i]))
  {
    var r := Entered(s, s.q[i], Without(s.q, i));
    EnteredKeeps(g, s, i);
    hide Covered;
    forall x | x in r.p1 && s.q[i] != Node(x, One)
      ensures ParentsCovered(g, r, One, x)
    {
      assert ParentsCovered(g, s, One, x);
    }
    forall x | x in r.p2 && s.q[i] != Node(x, Two)
      ensures ParentsCovered(g, r, Two, x)
    {
      assert ParentsCovered(g, s, Two, x);
    }
  }

  lemma EnteredKeeps(g: Graph, s: State, i: nat)
    requires i < |s.q|
    ensures Keeps(g, s, Entered(s, s.q[i], Without(s.q, i)))
  {
    hide Beneath;
    BeneathMore(g, s.both, Entered(s, s.q[i], Without(s.q, i)).both);
  }

  /** A commit visited again leaves nothing open. */
  lemma SkippedComplete(g: Graph, s: State, i: nat, oid1: Oid, oid2: Oid)
    requires i < |s.q| && Sound(g, s, oid1, oid2) && Complete(g, s, oid1, oid2, None)
    requires if s.q[i].kind == One then s.q[i].oid in s.p1 else s.q[i].kind == Two && s.q[i].oid in s.p2
    ensures Complete(g, Entered(s, s.q[i], Without(s.q, i)), oid1, oid2, None)
  {
    var r := Entered(s, s.q[i], Without(s.q, i));
    assert r.p1 == s.p1 && r.p2 == s.p2;
    EnteredKeeps(g, s, i);
    CompleteKept(g, s, r, oid1, oid2, None);
  }

  // ---------------------------------------------------------------------------
  // queueing the parents
  // ---------------------------------------------------------------------------

  /** A queued node with this oid, if any. The source takes the first in the list of the heap, whose order
      is left open here. */
  method FindQueued(q: seq<Node>, oid: Oid) returns (r: Option<nat>)
    ensures r.Some? ==> r.value < |q| && q[r.value].oid == oid
    ensures r.None? ==> forall n :: n in q ==> n.oid != oid
  {
    for i := 0 to |q|
      invariant forall n :: n in q[..i] ==> n.oid != oid
    {
      if q[i].oid == oid {
        return Some(i);
      }
    }
    return None;
  }

  /** Queue the parents of the popped commit. A parent below a meeting point is queued as stale, or marks
      a node that already waits for it. */
  method ExpandNode(g: Graph, s: State, node: Node, oid1: Oid, oid2: Oid, ghost rank: Oid -> nat)
    returns (r: State)
    requires Ranks(g, rank)
    requires Sound(g, s, oid1, oid2) && Complete(g, s, oid1, oid2, Some(node)) && Coloured(g, s.both, node, oid1, oid2)
    ensures r == s.(q := r.q) && Sound(g, r, oid1, oid2) && Complete(g, r, oid1, oid2, None)
    ensures QueueWalks(g, rank, r.q) < QueueWalks(g, rank, s.q) + Walks(g, rank, node.oid)
  {
    hide Anc, Beneath, Covered, Sound, Complete, Coloured, Keeps;
    var isBaseAncestor := node.oid in s.both;
    var parents := if node.oid in g then g[node.oid] else [];
    r := s;
    for i := 0 to |parents|
      invariant r == s.(q := r.q) && Sound(g, r, oid1, oid2) && Complete(g, r, oid1, oid2, Some(node))
      invariant node.kind != Stale ==> forall p :: p in parents[..i] ==> Covered(g, r, node.kind, p)
      invariant QueueWalks(g, rank, r.q) + WalksAll(g, rank, node.oid, parents[i..])
                <= QueueWalks(g, rank, s.q) + WalksAll(g, rank, node.oid, parents)
    {
      ghost var t := r;
      var p := parents[i];
      assert parents[i..][1..] == parents[i + 1..] && parents[..i + 1] == parents[..i] + [p];
      var isStale := isBaseAncestor || p in r.stale;
      StaleIsBeneath(g, s, node, p, oid1, oid2);
      var found := None;
      if isStale {
        found := FindQueued(r.q, p);
      }
      if found.Some? {
        r := r.(q := r.q[found.value := Node(p, Stale)]);
        QueueWalksByOid(g, rank, t.q, r.q);
        Marked(g, t, r, found.value, oid1, oid2);
      } else {
        var kind := if isStale then Stale else node.kind;
        QueueWalksPush(g, rank, r.q, Node(p, kind));
        r := r.(q := r.q + [Node(p, kind)]);
        Pushed(g, t, r, node, Node(p, kind), oid1, oid2);
      }
      if node.kind != Stale {
        NowCovered(g, t, r, node.kind, parents[..i], p);
      }
      CompleteKept(g, t, r, oid1, oid2, Some(node));
    }
    assert parents[..|parents|] == parents;
    Closed(g, r, node, oid1, oid2);
  }

  /** What the source marks stale, or queues as stale, lies beneath a meeting point. */
  lemma StaleIsBeneath(g: Graph, s: State, node: Node, p: Oid, oid1: Oid, oid2: Oid)
    requires Sound(g, s, oid1, oid2) && Coloured(g, s.both, node, oid1, oid2) && p in Parents(g, node.oid)
    ensures node.oid in s.both || p in s.stale || node.kind == Stale ==> Beneath(g, s.both, p)
  {
    if node.oid in s.both || node.kind == Stale {
      BeneathParent(g, s.both, node.oid, p);
    }
  }

  lemma Marked(g: Graph, t: State, r: State, i: nat, oid1: Oid, oid2: Oid)
    requires i < |t.q| && r == t.(q := t.q[i := Node(t.q[i].oid, Stale)])
    requires Sound(g, t, oid1, oid2) && Beneath(g, t.both, t.q[i].oid)
    ensures Sound(g, r, oid1, oid2) && Keeps(g, t, r)
  {
    hide Anc, Beneath;
    forall n | n in r.q
      ensures n in t.q || n == r.q[i]
    {
    }
    forall n | n in t.q
      ensures n in r.q || n == t.q[i]
    {
      var j :| 0 <= j < |t.q| && t.q[j] == n;
      assert j != i ==> r.q[j] == n;
    }
  }

  lemma Pushed(g: Graph, t: State, r: State, node: Node, n: Node, oid1: Oid, oid2: Oid)
    requires Sound(g, t, oid1, oid2) && Coloured(g, t.both, node, oid1, oid2)
    requires r == t.(q := t.q + [n]) && n.oid in Parents(g, node.oid)
    requires if n.kind == Stale then Beneath(g, t.both, n.oid) else n.kind == node.kind
    ensures Sound(g, r, oid1, oid2) && Keeps(g, t, r)
  {
    hide Anc, Beneath;
    AncSelf(g, n.oid);
    AncParent(g, n.oid, n.oid, node.oid);
    if n.kind != Stale {
      AncThen(g, n.oid, node.oid, if n.kind == One then oid1 else oid2);
    }
  }

  /** A parent that is queued with the colour of its child, or lies beneath a meeting point, is covered. */
  lemma NowCovered(g: Graph, t: State, r: State, kind: Kind, done: seq<Oid>, p: Oid)
    requires kind != Stale && Keeps(g, t, r) && forall x :: x in done ==> Covered(g, t, kind, x)
    requires Node(p, kind) in r.q || Beneath(g, r.both, p)
    ensures forall x :: x in done + [p] ==> Covered(g, r, kind, x)
  {
  }

  lemma Closed(g: Graph, r: State, node: Node, oid1: Oid, oid2: Oid)
    requires Complete(g, r, oid1, oid2, Some(node))
    requires node.kind != Stale ==> ParentsCovered(g, r, node.kind, node.oid)
    ensures Complete(g, r, oid1, oid2, None)
  {
    hide Covered;
  }

  // ---------------------------------------------------------------------------
  // what has been recorded so far
  // ---------------------------------------------------------------------------

  /** No commit of the walk waits in the queue with a colour. */
  ghost predicate NoneWaits(q: seq<Node>, w: seq<Oid>)
  {
    forall n :: n in q && n.oid in w ==> n.kind == Stale
  }

  /** Following a walk no commit of which waits: its end is visited, recorded, or beneath what is recorded. */
  lemma {:induction false} Followed(g: Graph, s: State, kind: Kind, oid1: Oid, oid2: Oid, w: seq<Oid>)
    requires kind != Stale && Complete(g, s, oid1, oid2, None)
    requires Walk(g, w) && NoneWaits(s.q, w) && Covered(g, s, kind, w[0])
    ensures Covered(g, s, kind, w[|w| - 1])
    decreases |w|
  {
    if |w| > 1 {
      var p, v := w[1], w[1..];
      assert p in Parents(g, w[0]) && Walk(g, v) && v[|v| - 1] == w[|w| - 1];
      AncSelf(g, p);
      AncParent(g, p, p, w[0]);
      if w[0] in s.both || Beneath(g, s.both, w[0]) {
        BeneathParent(g, s.both, w[0], p);
      } else {
        assert w[0] in (if kind == One then s.p1 else s.p2);
        assert ParentsCovered(g, s, kind, w[0]);
      }
      Followed(g, s, kind, oid1, oid2, v);
    }
  }

  /** An object that is no commit has no parents to walk to. */
  lemma StaysIfNoCommit(g: Graph, w: seq<Oid>)
    requires Walk(g, w)
    ensures w[0] !in g ==> |w| == 1
  {
    assert |w| > 1 ==> w[1] in Parents(g, w[0]);
  }

  /** A commit that both walks have had the time to reach is recorded, or beneath what is recorded. */
  lemma MetByNow(g: Graph, s: State, oid1: Oid, oid2: Oid, w1: seq<Oid>, w2: seq<Oid>)
    requires oid1 != oid2 && Sound(g, s, oid1, oid2) && Complete(g, s, oid1, oid2, None)
    requires Walk(g, w1) && w1[0] == oid1 && NoneWaits(s.q, w1)
    requires Walk(g, w2) && w2[0] == oid2 && NoneWaits(s.q, w2)
    requires w1[|w1| - 1] == w2[|w2| - 1]
    ensures var x := w1[|w1| - 1]; x in s.both || Beneath(g, s.both, x)
  {
    StaysIfNoCommit(g, w1);
    StaysIfNoCommit(g, w2);
    hide Anc, Beneath;
    if oid1 in g {
      Followed(g, s, One, oid1, oid2, w1);
    }
    if oid2 in g {
      Followed(g, s, Two, oid1, oid2, w2);
    }
  }

  ghost predicate AllStale(q: seq<Node>)
  {
    forall n :: n in q ==> n.kind == Stale
  }

  /** When only stale nodes are queued, every common ancestor below no other has been recorded. */
  lemma TopRecorded(g: Graph, s: State, oid1: Oid, oid2: Oid, x: Oid)
    requires oid1 != oid2 && Sound(g, s, oid1, oid2) && Complete(g, s, oid1, oid2, None) && AllStale(s.q)
    requires CommonAnc(g, x, oid1, oid2) && !Below(g, x, oid1, oid2)
    ensures x in s.both
  {
    var w1 :| Walk(g, w1) && w1[0] == oid1 && w1[|w1| - 1] == x;
    var w2 :| Walk(g, w2) && w2[0] == oid2 && w2[|w2| - 1] == x;
    MetByNow(g, s, oid1, oid2, w1, w2);
  }

  // ---------------------------------------------------------------------------
  // the time stamps
  // ---------------------------------------------------------------------------

  /** x is a common ancestor that both walks reach over commits no earlier than t. */
  ghost predicate ReachedBy(g: Graph, ts: Stamps, t: nat, x: Oid, oid1: Oid, oid2: Oid)
  {
    HighWalk(g, ts, t, oid1, x) && HighWalk(g, ts, t, oid2, x)
  }

  ghost predicate HighWalk(g: Graph, ts: Stamps, t: nat, y: Oid, x: Oid)
  {
    exists w :: Walk(g, w) && w[0] == y && w[|w| - 1] == x && forall c :: c in w ==> t <= ts(c)
  }

  /** At some time t everything reached by t had been recorded, or lay beneath what was, and nothing
      earlier than t had been recorded yet: the first k meeting points. */
  ghost predicate RecordedBy(g: Graph, ts: Stamps, t: nat, both: seq<Oid>, k: nat, oid1: Oid, oid2: Oid)
  {
    && k <= |both| && (forall x :: x in both[..k] ==> t <= ts(x))
    && forall x :: ReachedBy(g, ts, t, x, oid1, oid2) ==> x in both[..k] || Beneath(g, both[..k], x)
  }

  /** Either nothing earlier than t has been recorded yet, or that time is over. */
  ghost predicate InTime(g: Graph, ts: Stamps, t: nat, both: seq<Oid>, oid1: Oid, oid2: Oid)
  {
    (forall x :: x in both ==> t <= ts(x)) || exists k: nat :: RecordedBy(g, ts, t, both, k, oid1, oid2)
  }

  /** Once all coloured nodes in the queue are earlier than t, the time is over. */
  lemma TimeOver(g: Graph, ts: Stamps, t: nat, s: State, oid1: Oid, oid2: Oid)
    requires oid1 != oid2 && Sound(g, s, oid1, oid2) && Complete(g, s, oid1, oid2, None)
    requires forall n :: n in s.q && n.kind != Stale ==> ts(n.oid) < t
    requires InTime(g, ts, t, s.both, oid1, oid2)
    ensures exists k: nat :: RecordedBy(g, ts, t, s.both, k, oid1, oid2)
  {
    if forall x :: x in s.both ==> t <= ts(x) {
      var k := |s.both|;
      assert s.both[..k] == s.both;
      forall x | ReachedBy(g, ts, t, x, oid1, oid2)
        ensures x in s.both || Beneath(g, s.both, x)
      {
        var w1 :| Walk(g, w1) && w1[0] == oid1 && w1[|w1| - 1] == x && forall c :: c in w1 ==> t <= ts(c);
        var w2 :| Walk(g, w2) && w2[0] == oid2 && w2[|w2| - 1] == x && forall c :: c in w2 ==> t <= ts(c);
        MetByNow(g, s, oid1, oid2, w1, w2);
      }
      assert RecordedBy(g, ts, t, s.both, k, oid1, oid2);
    }
  }

  /** A pop takes the latest commit, so nothing is recorded out of time. */
  lemma StaysInTime(g: Graph, ts: Stamps, t: nat, s: State, i: nat, r: State, oid1: Oid, oid2: Oid)
    requires oid1 != oid2 && Sound(g, s, oid1, oid2) && Complete(g, s, oid1, oid2, None)
    requires i < |s.q| && Latest(s.q, ts, i)
    requires r.both == s.both || r.both == s.both + [s.q[i].oid]
    requires InTime(g, ts, t, s.both, oid1, oid2)
    ensures InTime(g, ts, t, r.both, oid1, oid2)
  {
    if ts(s.q[i].oid) < t {
      TimeOver(g, ts, t, s, oid1, oid2);
    }
    if k: nat :| RecordedBy(g, ts, t, s.both, k, oid1, oid2) {
      assert r.both[..k] == s.both[..k];
      assert RecordedBy(g, ts, t, r.both, k, oid1, oid2);
    }
  }

  /** The best common ancestor is reached before any other one is looked at. */
  ghost predicate MetFirst(g: Graph, ts: Stamps, t: nat, b: Oid, oid1: Oid, oid2: Oid)
  {
    && Best(g, b, oid1, oid2) && ReachedBy(g, ts, t, b, oid1, oid2)
    && forall x :: CommonAnc(g, x, oid1, oid2) && x != b ==> ts(x) < t
  }

  /** Two unrelated common ancestors are reached before any common descendant of theirs is looked at. */
  ghost predicate MetTooSoon(g: Graph, ts: Stamps, t: nat, c: Oid, d: Oid, oid1: Oid, oid2: Oid)
  {
    && ReachedBy(g, ts, t, c, oid1, oid2) && ReachedBy(g, ts, t, d, oid1, oid2)
    && !Anc(g, c, d) && !Anc(g, d, c)
    && forall x :: CommonAnc(g, x, oid1, oid2) && Anc(g, c, x) && Anc(g, d, x) ==> ts(x) < t
  }

  /** Time stamps fall along every parent link below the two commits. */
  ghost predicate StampsFall(g: Graph, ts: Stamps, oid1: Oid, oid2: Oid)
  {
    forall c, p :: (Anc(g, c, oid1) || Anc(g, c, oid2)) && p in Parents(g, c) ==> ts(p) < ts(c)
  }

  lemma {:induction false} FallingWalk(g: Graph, ts: Stamps, w: seq<Oid>, oid1: Oid, oid2: Oid)
    requires StampsFall(g, ts, oid1, oid2) && Walk(g, w) && (Anc(g, w[0], oid1) || Anc(g, w[0], oid2))
    ensures forall c :: c in w ==> ts(w[|w| - 1]) <= ts(c)
    ensures |w| > 1 ==> ts(w[|w| - 1]) < ts(w[0])
    decreases |w|
  {
    if |w| > 1 {
      var p, v := w[1], w[1..];
      assert p in Parents(g, w[0]) && Walk(g, v);
      AncSelf(g, p);
      AncParent(g, p, p, w[0]);
      AncThen(g, p, w[0], if Anc(g, w[0], oid1) then oid1 else oid2);
      FallingWalk(g, ts, v, oid1, oid2);
      assert w == [w[0]] + v;
    }
  }

  lemma FallsHigh(g: Graph, ts: Stamps, x: Oid, y: Oid, oid1: Oid, oid2: Oid)
    requires StampsFall(g, ts, oid1, oid2) && Anc(g, x, y) && (Anc(g, y, oid1) || Anc(g, y, oid2))
    ensures HighWalk(g, ts, ts(x), y, x) && (x != y ==> ts(x) < ts(y))
  {
    var w :| Walk(g, w) && w[0] == y && w[|w| - 1] == x;
    FallingWalk(g, ts, w, oid1, oid2);
  }

  /** With falling stamps the best common ancestor is met first. */
  lemma FallingMeetsFirst(g: Graph, ts: Stamps, b: Oid, oid1: Oid, oid2: Oid)
    requires StampsFall(g, ts, oid1, oid2) && Best(g, b, oid1, oid2)
    ensures MetFirst(g, ts, ts(b), b, oid1, oid2)
  {
    AncSelf(g, oid1);
    AncSelf(g, oid2);
    FallsHigh(g, ts, b, oid1, oid1, oid2);
    FallsHigh(g, ts, b, oid2, oid1, oid2);
    forall x | CommonAnc(g, x, oid1, oid2) && x != b
      ensures ts(x) < ts(b)
    {
      FallsHigh(g, ts, x, b, oid1, oid2);
    }
  }

  /** A best common ancestor that is met first is the first one recorded. */
  lemma FirstRecorded(g: Graph, ts: Stamps, t: nat, b: Oid, s: State, oid1: Oid, oid2: Oid, rank: Oid -> nat)
    requires Ranks(g, rank) && Sound(g, s, oid1, oid2) && MetFirst(g, ts, t, b, oid1, oid2)
    requires exists k: nat :: RecordedBy(g, ts, t, s.both, k, oid1, oid2)
    ensures s.both != [] && s.both[0] == b
  {
    var k: nat :| RecordedBy(g, ts, t, s.both, k, oid1, oid2);
    var first := s.both[..k];
    if Beneath(g, first, b) {
      var c, p :| c in first && p in Parents(g, c) && Anc(g, b, p);
      AncThen(g, c, b, p);
      AncRank(g, rank, c, p);
    } else {
      assert first[0] in s.both;
    }
  }

  // ---------------------------------------------------------------------------
  // the fold over the meeting points
  // ---------------------------------------------------------------------------

  /** m has all of them among its ancestors, and is one of them. */
  ghost predicate Tops(g: Graph, xs: seq<Oid>, m: Oid)
  {
    m in xs && forall x :: x in xs ==> Anc(g, x, m)
  }

  ghost predicate Topped(g: Graph, xs: seq<Oid>)
  {
    exists m :: Tops(g, xs, m)
  }

  /** The recorded meeting points are folded with getDescendent. That succeeds exactly when every beginning
      of the list already has a commit that descends from the rest of it. */
  method FoldDescendents(g: Graph, ts: Stamps, both: seq<Oid>, ghost rank: Oid -> nat) returns (r: Answer)
    requires Ranks(g, rank) && |both| > 0
    ensures r != NoCommonAncestor
    ensures r.Found? <==> forall k :: 0 < k <= |both| ==> Topped(g, both[..k])
    ensures r.Found? ==> Tops(g, both, r.oid)
  {
    hide Anc;
    var result := both[0];
    AncSelf(g, result);
    assert both[..1] == [result];
    for i := 1 to |both|
      invariant Tops(g, both[..i], result)
      invariant forall k :: 0 < k <= i ==> Topped(g, both[..k])
    {
      var next := both[i];
      assert both[..i + 1] == both[..i] + [next];
      var d := GetDescendent(g, ts, result, next, rank);
      TopOfMore(g, both[..i], result, next);
      if d == None {
        return DescendentNotFound;
      }
      result := d.value;
    }
    assert both[..|both|] == both;
    return Found(result);
  }

  /** The next meeting point keeps a top only when it is related to the top so far. */
  lemma TopOfMore(g: Graph, xs: seq<Oid>, m: Oid, next: Oid)
    requires Tops(g, xs, m)
    ensures Anc(g, next, m) ==> Tops(g, xs + [next], m)
    ensures Anc(g, m, next) ==> Tops(g, xs + [next], next)
    ensures Topped(g, xs + [next]) <==> Anc(g, next, m) || Anc(g, m, next)
  {
    hide Anc;
    AncSelf(g, next);
    if Anc(g, m, next) {
      forall x | x in xs
        ensures Anc(g, x, next)
      {
        AncThen(g, x, m, next);
      }
    }
    if n :| Tops(g, xs + [next], n) {
      assert next in xs + [next] && m in xs + [next];
      if n != next {
        AncThen(g, next, n, m);
      }
    }
  }

  /** Two unrelated commits that are met too soon have no common descendant in the list in time. */
  lemma TooSoonIsNotTopped(g: Graph, ts: Stamps, t: nat, c: Oid, d: Oid, s: State, oid1: Oid, oid2: Oid)
    requires Sound(g, s, oid1, oid2) && MetTooSoon(g, ts, t, c, d, oid1, oid2)
    requires exists k: nat :: RecordedBy(g, ts, t, s.both, k, oid1, oid2)
    ensures s.both != [] && exists k :: 0 < k <= |s.both| && !Topped(g, s.both[..k])
  {
    hide ReachedBy;
    var k: nat :| RecordedBy(g, ts, t, s.both, k, oid1, oid2);
    var first := s.both[..k];
    forall m | Tops(g, first, m)
      ensures false
    {
      UnderTop(g, first, m, c);
      UnderTop(g, first, m, d);
    }
    assert !Topped(g, first) && k > 0;
  }

  lemma UnderTop(g: Graph, xs: seq<Oid>, m: Oid, c: Oid)
    requires Tops(g, xs, m) && (c in xs || Beneath(g, xs, c))
    ensures Anc(g, c, m)
  {
    hide Anc;
    if c !in xs {
      var y, p :| y in xs && p in Parents(g, y) && Anc(g, c, p);
      AncParent(g, c, p, y);
      AncThen(g, c, y, m);
    }
  }

  lemma ReachedFromStarts(g: Graph, ts: Stamps, t: nat, x: Oid, oid1: Oid, oid2: Oid)
    requires ReachedBy(g, ts, t, x, oid1, oid2)
    ensures CommonAnc(g, x, oid1, oid2) && t <= ts(oid1) && t <= ts(oid2)
  {
  }

  /** If one of the two commits is the best common ancestor, nothing is met too soon. */
  lemma NeverTooSoon(g: Graph, ts: Stamps, x: Oid, oid1: Oid, oid2: Oid)
    requires Best(g, x, oid1, oid2) && (x == oid1 || x == oid2)
    ensures !exists t, c, d :: MetTooSoon(g, ts, t, c, d, oid1, oid2)
  {
    forall t, c, d | MetTooSoon(g, ts, t, c, d, oid1, oid2)
      ensures false
    {
      ReachedFromStarts(g, ts, t, c, oid1, oid2);
      ReachedFromStarts(g, ts, t, d, oid1, oid2);
    }
  }

  // ---------------------------------------------------------------------------
  // the whole walk
  // ---------------------------------------------------------------------------

  lemma StartSound(g: Graph, ts: Stamps, s: State, oid1: Oid, oid2: Oid)
    requires s.p1 == {} && s.p2 == {} && s.both == [] && s.stale == {}
    requires forall n :: n in s.q <==> (oid1 in g && n == Node(oid1, One)) || (oid2 in g && n == Node(oid2, Two))
    ensures Sound(g, s, oid1, oid2) && Complete(g, s, oid1, oid2, None)
    ensures forall t: nat :: InTime(g, ts, t, s.both, oid1, oid2)
  {
    AncSelf(g, oid1);
    AncSelf(g, oid2);
  }

  lemma EnteredInTime(g: Graph, ts: Stamps, s: State, i: nat, oid1: Oid, oid2: Oid)
    requires oid1 != oid2 && Sound(g, s, oid1, oid2) && Complete(g, s, oid1, oid2, None)
    requires i < |s.q| && Latest(s.q, ts, i)
    requires forall t: nat :: InTime(g, ts, t, s.both, oid1, oid2)
    ensures forall t: nat :: InTime(g, ts, t, Entered(s, s.q[i], Without(s.q, i)).both, oid1, oid2)
  {
    hide InTime, Sound, Complete;
    var r := Entered(s, s.q[i], Without(s.q, i));
    forall t: nat
      ensures InTime(g, ts, t, r.both, oid1, oid2)
    {
      StaysInTime(g, ts, t, s, i, r, oid1, oid2);
    }
  }

  lemma NothingRecorded(g: Graph, s: State, oid1: Oid, oid2: Oid, rank: Oid -> nat)
    requires Ranks(g, rank) && oid1 != oid2 && s.both == [] && AllStale(s.q)
    requires Sound(g, s, oid1, oid2) && Complete(g, s, oid1, oid2, None)
    ensures !exists c :: CommonAnc(g, c, oid1, oid2)
  {
    if c :| CommonAnc(g, c, oid1, oid2) {
      var x := TopCommon(g, rank, c, oid1, oid2);
      TopRecorded(g, s, oid1, oid2, x);
    }
  }

  /** What has all the meeting points among its ancestors has all common ancestors. */
  lemma TopIsBest(g: Graph, s: State, x: Oid, oid1: Oid, oid2: Oid, rank: Oid -> nat)
    requires Ranks(g, rank) && oid1 != oid2 && AllStale(s.q)
    requires Sound(g, s, oid1, oid2) && Complete(g, s, oid1, oid2, None)
    requires Tops(g, s.both, x)
    ensures Best(g, x, oid1, oid2)
  {
    forall c | CommonAnc(g, c, oid1, oid2)
      ensures Anc(g, c, x)
    {
      var y := TopCommon(g, rank, c, oid1, oid2);
      TopRecorded(g, s, oid1, oid2, y);
      AncThen(g, c, y, x);
    }
  }

  /** The best common ancestor at the head of the list tops every beginning of it. */
  lemma BestFirstTops(g: Graph, s: State, oid1: Oid, oid2: Oid)
    requires Sound(g, s, oid1, oid2) && s.both != [] && Best(g, s.both[0], oid1, oid2)
    ensures forall k :: 0 < k <= |s.both| ==> Topped(g, s.both[..k])
  {
    forall k | 0 < k <= |s.both|
      ensures Topped(g, s.both[..k])
    {
      assert s.both[..k][0] == s.both[0];
      assert Tops(g, s.both[..k], s.both[0]);
    }
  }

  lemma OneIsTop(g: Graph, x: Oid)
    ensures Tops(g, [x], x) && Topped(g, [x])
  {
    AncSelf(g, x);
    assert Tops(g, [x], x);
  }

  /** A list without a top holds two unrelated commits. */
  lemma {:induction false} NoTopUnrelated(g: Graph, xs: seq<Oid>)
    requires xs != [] && !Topped(g, xs)
    ensures exists c, d :: c in xs && d in xs && !Anc(g, c, d) && !Anc(g, d, c)
    decreases |xs|
  {
    hide Anc;
    var ys, next := xs[..|xs| - 1], xs[|xs| - 1];
    assert xs == ys + [next];
    if ys == [] {
      OneIsTop(g, next);
    } else if Topped(g, ys) {
      var m :| Tops(g, ys, m);
      TopOfMore(g, ys, m, next);
    } else {
      NoTopUnrelated(g, ys);
    }
  }

  /** What the list of meeting points says once the walk is over. */
  lemma WalkOver(g: Graph, ts: Stamps, s: State, oid1: Oid, oid2: Oid, rank: Oid -> nat)
    requires Ranks(g, rank) && oid1 != oid2 && AllStale(s.q)
    requires Sound(g, s, oid1, oid2) && Complete(g, s, oid1, oid2, None)
    requires forall t: nat :: InTime(g, ts, t, s.both, oid1, oid2)
    ensures (exists t, b :: MetFirst(g, ts, t, b, oid1, oid2))
            ==> s.both != [] && forall k :: 0 < k <= |s.both| ==> Topped(g, s.both[..k])
    ensures (exists t, c, d :: MetTooSoon(g, ts, t, c, d, oid1, oid2))
            ==> s.both != [] && exists k :: 0 < k <= |s.both| && !Topped(g, s.both[..k])
  {
    hide InTime, Sound, Complete, RecordedBy, Topped;
    if t, b :| MetFirst(g, ts, t, b, oid1, oid2) {
      TimeOver(g, ts, t, s, oid1, oid2);
      FirstRecorded(g, ts, t, b, s, oid1, oid2, rank);
      BestFirstTops(g, s, oid1, oid2);
    }
    if t, c, d :| MetTooSoon(g, ts, t, c, d, oid1, oid2) {
      TimeOver(g, ts, t, s, oid1, oid2);
      TooSoonIsNotTopped(g, ts, t, c, d, s, oid1, oid2);
    }
  }

  lemma FoldIsRight(g: Graph, s: State, oid1: Oid, oid2: Oid, rank: Oid -> nat, r: Answer)
    requires Ranks(g, rank) && oid1 != oid2 && AllStale(s.q) && s.both != []
    requires Sound(g, s, oid1, oid2) && Complete(g, s, oid1, oid2, None)
    requires r.Found? ==> Tops(g, s.both, r.oid)
    requires r == DescendentNotFound ==> exists k :: 0 < k <= |s.both| && !Topped(g, s.both[..k])
    ensures r.Found? ==> Best(g, r.oid, oid1, oid2)
    ensures exists c :: CommonAnc(g, c, oid1, oid2)
    ensures r == DescendentNotFound ==> exists c, d :: CommonAnc(g, c, oid1, oid2) && CommonAnc(g, d, oid1, oid2)
                                                       && !Anc(g, c, d) && !Anc(g, d, c)
  {
    hide Anc, Beneath, Complete, Topped;
    assert s.both[0] in s.both;
    assert CommonAnc(g, s.both[0], oid1, oid2);
    if r.Found? {
      TopIsBest(g, s, r.oid, oid1, oid2, rank);
    }
    if r == DescendentNotFound {
      var k :| 0 < k <= |s.both| && !Topped(g, s.both[..k]);
      NoTopUnrelated(g, s.both[..k]);
    }
  }

  lemma FallingFinds(g: Graph, ts: Stamps, oid1: Oid, oid2: Oid)
    requires StampsFall(g, ts, oid1, oid2)
    ensures (exists x :: Best(g, x, oid1, oid2)) ==> exists t, b :: MetFirst(g, ts, t, b, oid1, oid2)
  {
    if x :| Best(g, x, oid1, oid2) {
      FallingMeetsFirst(g, ts, x, oid1, oid2);
    }
  }

  /** The first part: both walks, until one arrives at the other commit, or only stale nodes are queued. */
  method FindMeetingPoints(g: Graph, ts: Stamps, oid1: Oid, oid2: Oid, ghost rank: Oid -> nat)
    returns (early: Option<Oid>, s: State)
    requires Ranks(g, rank) && oid1 != oid2
    ensures early.Some? ==> Best(g, early.value, oid1, oid2) && (early.value == oid1 || early.value == oid2)
    ensures early.None? ==> Sound(g, s, oid1, oid2) && Complete(g, s, oid1, oid2, None) && AllStale(s.q)
    ensures early.None? ==> forall t: nat :: InTime(g, ts, t, s.both, oid1, oid2)
  {
    hide Anc, Beneath, Sound, Complete, Coloured, InTime, Best, Latest, Walk, Without, Entered;
    var q := [];
    if oid1 in g {
      q := q + [Node(oid1, One)];
    }
    if oid2 in g {
      q := q + [Node(oid2, Two)];
    }
    s := State(q, {}, {}, [], {});
    StartSound(g, ts, s, oid1, oid2);
    var done := false;
    while |s.q| > 0 && !done
      invariant Sound(g, s, oid1, oid2) && Complete(g, s, oid1, oid2, None)
      invariant forall t: nat :: InTime(g, ts, t, s.both, oid1, oid2)
      invariant done ==> AllStale(s.q)
      decreases QueueWalks(g, rank, s.q), !done
    {
      var node, rest, i := Pop(s.q, ts);
      QueueWalksPop(g, rank, s.q, i);
      var v, e := VisitNode(s, node, rest, oid1, oid2);
      if v.Return? {
        MeetsStart(g, s, node, oid1, oid2);
        return Some(v.oid), s;
      }
      EnteredSound(g, s, i, oid1, oid2);
      EnteredInTime(g, ts, s, i, oid1, oid2);
      EnteredQueue(s, node, rest);
      if v == Skip {
        SkippedComplete(g, s, i, oid1, oid2);
        s := e;
      } else {
        EnteredComplete(g, s, i, oid1, oid2);
        s := ExpandNode(g, e, node, oid1, oid2, rank);
        done := forall n :: n in s.q ==> n.kind == Stale;
      }
    }
    early := None;
  }

  lemma EnteredQueue(s: State, node: Node, rest: seq<Node>)
    ensures Entered(s, node, rest).q == rest
  {
  }

  /** The best common ancestor, or an error. A best one that is met first is always found, so with falling
      time stamps the search fails only when there is none; two unrelated ones that are met too soon make it
      fail although there may be a best one. */
  method CommonAncestor(g: Graph, ts: Stamps, oid1: Oid, oid2: Oid, ghost rank: Oid -> nat) returns (r: Answer)
    requires Ranks(g, rank)
    ensures r.Found? ==> Best(g, r.oid, oid1, oid2)
    ensures r == NoCommonAncestor <==> !exists c :: CommonAnc(g, c, oid1, oid2)
    ensures r == DescendentNotFound ==> exists c, d :: CommonAnc(g, c, oid1, oid2) && CommonAnc(g, d, oid1, oid2)
                                                       && !Anc(g, c, d) && !Anc(g, d, c)
    ensures StampsFall(g, ts, oid1, oid2) ==> (r.Found? <==> exists x :: Best(g, x, oid1, oid2))
    ensures (exists t, b :: MetFirst(g, ts, t, b, oid1, oid2)) ==> r.Found?
    ensures (exists t, c, d :: MetTooSoon(g, ts, t, c, d, oid1, oid2)) ==> r == DescendentNotFound
  {
    hide Anc, Beneath, Sound, Complete, InTime, Topped, Tops, Below, MetFirst, MetTooSoon, StampsFall, Walk;
    if oid1 == oid2 {
      AncestorIsBest(g, oid1, oid1, oid2);
      NeverTooSoon(g, ts, oid1, oid1, oid2);
      return Found(oid1);
    }
    var early, s := FindMeetingPoints(g, ts, oid1, oid2, rank);
    if early.Some? {
      NeverTooSoon(g, ts, early.value, oid1, oid2);
      return Found(early.value);
    }
    WalkOver(g, ts, s, oid1, oid2, rank);
    if StampsFall(g, ts, oid1, oid2) {
      FallingFinds(g, ts, oid1, oid2);
    }
    if |s.both| > 0 {
      r := FoldDescendents(g, ts, s.both, rank);
      FoldIsRight(g, s, oid1, oid2, rank, r);
    } else {
      r := NoCommonAncestor;
      NothingRecorded(g, s, oid1, oid2, rank);
    }
  }

  // ---------------------------------------------------------------------------
  // a best common ancestor that is not found
  // ---------------------------------------------------------------------------

  /** Two commits, merged from 3, 4 and 5, where 3 is itself a merge of 4 and 5. */
  const SKEWED: Graph := map[1 := [3, 4, 5], 2 := [3, 4, 5], 3 := [4, 5], 4 := [], 5 := []]

  /** Commit 3 was stamped by a clock that was behind those of its parents. */
  function SkewedStamp(c: Oid): nat
  {
    if c <= 2 then 10 else if c == 3 then 1 else 5
  }

  lemma SkewedAncestors(x: Oid, y: Oid)
    requires Anc(SKEWED, x, y) && 1 <= y <= 5
    ensures x == y || (y <= 2 && x in [3, 4, 5]) || (y == 3 && x in [4, 5])
    decreases y <= 2, y == 3
  {
    if x != y {
      var p := AncViaParent(SKEWED, x, y);
      SkewedAncestors(x, p);
    }
  }

  lemma OneStep(g: Graph, ts: Stamps, t: nat, p: Oid, c: Oid)
    requires p in Parents(g, c) && t <= ts(p) && t <= ts(c)
    ensures HighWalk(g, ts, t, c, p) && Anc(g, p, c)
  {
    var w := [c, p];
    assert Walk(g, w) && w[0] == c && w[|w| - 1] == p && forall x :: x in w ==> t <= ts(x);
  }

  /** With these stamps the search fails, whatever it does with equal ones, although 3 is best: 4 and 5 are
      recorded before 3 is looked at, and one of them is folded with the other. */
  lemma SkewedStampsHideBest()
    ensures Best(SKEWED, 3, 1, 2) && MetTooSoon(SKEWED, SkewedStamp, 5, 4, 5, 1, 2)
    ensures Ranks(SKEWED, (c: Oid) => if c <= 2 then 2 else if c == 3 then 1 else 0)
  {
    hide Anc, HighWalk;
    OneStep(SKEWED, c => 0, 0, 3, 1);
    OneStep(SKEWED, c => 0, 0, 3, 2);
    forall p, c | p in [4, 5] && c in [1, 2, 3]
      ensures Anc(SKEWED, p, c) && (c != 3 ==> HighWalk(SKEWED, SkewedStamp, 5, c, p))
    {
      OneStep(SKEWED, if c == 3 then _ => 5 else SkewedStamp, 5, p, c);
    }
    AncSelf(SKEWED, 3);
    forall x, y | Anc(SKEWED, x, y) && 1 <= y <= 5
      ensures x == y || (y <= 2 && x in [3, 4, 5]) || (y == 3 && x in [4, 5])
    {
      SkewedAncestors(x, y);
    }
    assert 4 in [4, 5] && 5 in [4, 5] && 1 in [1, 2, 3] && 2 in [1, 2, 3] && 3 in [1, 2, 3];
  }
}
