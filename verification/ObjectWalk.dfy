/** ObjectIterator of object.go: a breadth-first walk over the objects reachable from some roots,
    with excluded objects and an optional depth limit. */
module ObjectWalk {
  import opened Common

  datatype IterKind = All | CommitsOnly

  datatype WalkObject =
    | Blob
    | Tree(entries: seq<Oid>)                    // the entries that are no gitlinks
    | Commit(parents: seq<Oid>, tree: Oid)
    | Tag(target: Oid)

  /** A complete object store. */
  type Objects = Oid -> WalkObject

  /** What includeContentRefs includes for an object, in its order. */
  function Refs(kind: IterKind, obj: WalkObject): seq<Oid>
  {
    match obj
    case Blob => []
    case Tree(entries) => if kind == All then entries else []
    case Commit(parents, tree) => if kind == All then parents + [tree] else parents
    case Tag(target) => [target]
  }

  /** What Exclude goes down into. */
  function Inside(kind: IterKind, obj: WalkObject): seq<Oid>
  {
    match obj
    case Tree(entries) => if kind == All then entries else []
    case Commit(_, tree) => if kind == All then [tree] else []
    case _ => []
  }

  /** What Exclude marks beside an object without going there. */
  function Beside(obj: WalkObject): seq<Oid>
  {
    match obj
    case Commit(parents, _) => parents
    case _ => []
  }

  /** A way down from an object. */
  ghost predicate Descent(objects: Objects, kind: IterKind, w: seq<Oid>)
  {
    |w| > 0 && forall i :: 0 <= i < |w| - 1 ==> w[i + 1] in Inside(kind, objects(w[i]))
  }

  /** Excluding o marks x: x is on a way down from o, or a parent of something on such a way. */
  ghost predicate Marks(objects: Objects, kind: IterKind, o: Oid, x: Oid)
  {
    exists w :: Descent(objects, kind, w) && w[0] == o && (x == w[|w| - 1] || x in Beside(objects(w[|w| - 1])))
  }

  ghost predicate MarksAmong(objects: Objects, kind: IterKind, os: seq<Oid>, x: Oid)
  {
    exists o :: o in os && Marks(objects, kind, o, x)
  }

  lemma MarksDown(objects: Objects, kind: IterKind, o: Oid, x: Oid)
    requires Marks(objects, kind, o, x)
    ensures x == o || x in Beside(objects(o)) || MarksAmong(objects, kind, Inside(kind, objects(o)), x)
  {
    hide Inside, Beside;
    var w :| Descent(objects, kind, w) && w[0] == o && (x == w[|w| - 1] || x in Beside(objects(w[|w| - 1])));
    if |w| > 1 {
      var v := w[1..];
      assert Descent(objects, kind, v) && v[|v| - 1] == w[|w| - 1];
      assert Marks(objects, kind, w[1], x);
      assert w[0 + 1] in Inside(kind, objects(w[0]));
    }
  }

  lemma {:induction false} MarksUp(objects: Objects, kind: IterKind, o: Oid, p: Oid, x: Oid)
    requires p in Inside(kind, objects(o)) && Marks(objects, kind, p, x)
    ensures Marks(objects, kind, o, x)
  {
    hide Inside, Beside;
    var v :| Descent(objects, kind, v) && v[0] == p && (x == v[|v| - 1] || x in Beside(objects(v[|v| - 1])));
    var w := [o] + v;
    assert Descent(objects, kind, w) && w[|w| - 1] == v[|v| - 1] && w[0] == o;
  }

  lemma MarksStepwise(objects: Objects, kind: IterKind, o: Oid, x: Oid)
    ensures Marks(objects, kind, o, x) <==>
            x == o || x in Beside(objects(o)) || MarksAmong(objects, kind, Inside(kind, objects(o)), x)
  {
    hide Inside, Beside;
    if Marks(objects, kind, o, x) {
      MarksDown(objects, kind, o, x);
    }
    if x == o || x in Beside(objects(o)) {
      assert Descent(objects, kind, [o]) && [o][0] == o;
    }
    if MarksAmong(objects, kind, Inside(kind, objects(o)), x) {
      var p :| p in Inside(kind, objects(o)) && Marks(objects, kind, p, x);
      MarksUp(objects, kind, o, p, x);
    }
  }

  /** A walk that starts at a root and never touches an excluded object. */
  ghost predicate Walk(objects: Objects, kind: IterKind, roots: set<Oid>, excluded: set<Oid>, w: seq<Oid>)
  {
    && |w| > 0 && w[0] in roots
    && (forall i :: 0 <= i < |w| ==> w[i] !in excluded)
    && (forall i :: 0 <= i < |w| - 1 ==> w[i + 1] in Refs(kind, objects(w[i])))
  }

  /** x is reached in d steps. */
  ghost predicate Reached(objects: Objects, kind: IterKind, roots: set<Oid>, excluded: set<Oid>, x: Oid, d: nat)
  {
    exists w :: Walk(objects, kind, roots, excluded, w) && w[|w| - 1] == x && |w| == d + 1
  }

  /** d is the least number of steps in which x is reached. */
  ghost predicate Distance(objects: Objects, kind: IterKind, roots: set<Oid>, excluded: set<Oid>, x: Oid, d: nat)
  {
    && Reached(objects, kind, roots, excluded, x, d)
    && forall e: nat :: Reached(objects, kind, roots, excluded, x, e) ==> d <= e
  }

  lemma ReachedRoot(objects: Objects, kind: IterKind, roots: set<Oid>, excluded: set<Oid>, x: Oid)
    requires x in roots && x !in excluded
    ensures Reached(objects, kind, roots, excluded, x, 0)
  {
    assert Walk(objects, kind, roots, excluded, [x]) && [x][0] == x;
  }

  lemma ReachedNext(objects: Objects, kind: IterKind, roots: set<Oid>, excluded: set<Oid>, x: Oid, d: nat, y: Oid)
    requires Reached(objects, kind, roots, excluded, x, d)
    requires y in Refs(kind, objects(x)) && y !in excluded
    ensures Reached(objects, kind, roots, excluded, y, d + 1)
  {
    hide Refs;
    var w :| Walk(objects, kind, roots, excluded, w) && w[|w| - 1] == x && |w| == d + 1;
    var v := w + [y];
    assert forall i :: 0 <= i < |w| ==> v[i] == w[i];
    assert Walk(objects, kind, roots, excluded, v) && v[|v| - 1] == y;
  }

  datatype QueueEntry = QueueEntry(oid: Oid, depth: nat)

  /** The walk at one moment: what it is about, what it has done, what it will do. */
  datatype Snapshot = Snapshot(objects: Objects, kind: IterKind, maxDepth: int, universe: set<Oid>, roots: set<Oid>,
      excluded: set<Oid>,
                               queue: seq<QueueEntry>, depth: nat, visited: map<Oid, nat>)
  {
    /** A depth the iterator still includes. */
    predicate Within(d: int) { maxDepth <= 0 || d <= maxDepth }

    ghost predicate Reaches(x: Oid, d: nat) { Reached(objects, kind, roots, excluded, x, d) }

    ghost predicate At(x: Oid, d: nat) { Distance(objects, kind, roots, excluded, x, d) }

    /** x has been visited, or waits in the queue, at depth d at most. */
    ghost predicate Pending(x: Oid, d: nat)
    {
      (x in visited && visited[x] <= d) || exists e :: e in queue && e.oid == x && e.depth <= d
    }

    /** The queue is sorted and spans two depths at most. */
    ghost predicate Sorted()
    {
      && (forall i, j :: 0 <= i < j < |queue| ==> queue[i].depth <= queue[j].depth)
      && (forall e :: e in queue ==> depth <= e.depth <= depth + 1)
    }

    ghost predicate QueueSound()
    {
      forall e :: e in queue ==>
        e.oid in universe && Within(e.depth)
        && (e.oid !in excluded ==> Reaches(e.oid, e.depth))
    }

    ghost predicate VisitedSound()
    {
      && visited.Keys !! excluded
      && forall o :: o in visited ==> o in universe && Within(visited[o]) && visited[o] <= depth && At(o, visited[o])
    }

    /** Roots and references of visited objects are pending, unless excluded or too deep. */
    ghost predicate Complete()
    {
      && (forall o :: o in roots && o !in excluded ==> Pending(o, 0))
      && (forall o, r ::
            o in visited && r in Refs(kind, objects(o)) && r !in excluded && Within(visited[o] + 1)
            ==> Pending(r, visited[o] + 1))
    }

    ghost predicate Closed()
    {
      roots <= universe && forall o, r :: o in universe && r in Refs(kind, objects(o)) ==> r in universe
    }

    ghost predicate Valid() { Closed() && Sorted() && QueueSound() && VisitedSound() && Complete() }

    /** Objects that are returned; the others are only walked through. */
    predicate Emits(o: Oid) { kind == All || objects(o).Commit? }

    /** How many objects are still to be visited at most. */
    ghost function Left(): nat { |universe - visited.Keys| }

    /** Before the first object has been returned. */
    ghost predicate Unstarted()
    {
      visited == map[] && depth == 0 && forall e :: e in queue ==> e.depth == 0 && e.oid in roots
    }
  }

  /** With the next depth in the queue at least d, everything within fewer steps has been visited. */
  lemma {:induction false} NearerIsVisited(s: Snapshot, w: seq<Oid>, d: nat)
    requires s.Complete() && Walk(s.objects, s.kind, s.roots, s.excluded, w) && |w| <= d && s.Within(|w| - 1)
    requires forall e :: e in s.queue ==> e.depth >= d
    ensures w[|w| - 1] in s.visited && s.visited[w[|w| - 1]] <= |w| - 1
    decreases |w|
  {
    var x := w[|w| - 1];
    if |w| == 1 {
      assert s.Pending(x, 0);
    } else {
      var v := w[..|w| - 1];
      assert Walk(s.objects, s.kind, s.roots, s.excluded, v);
      NearerIsVisited(s, v, d);
      var o := v[|v| - 1];
      assert x in Refs(s.kind, s.objects(o));
      assert s.Pending(x, s.visited[o] + 1);
    }
  }

  /** The first object in the queue is queued at its distance. */
  lemma FirstHasDistance(s: Snapshot)
    requires s.Valid() && s.queue != [] && s.queue[0].oid !in s.excluded && s.queue[0].oid !in s.visited
    ensures s.At(s.queue[0].oid, s.queue[0].depth)
  {
    var x, d := s.queue[0].oid, s.queue[0].depth;
    assert s.queue[0] in s.queue;
    forall e: nat | Reached(s.objects, s.kind, s.roots, s.excluded, x, e)
      ensures d <= e
    {
      if e < d {
        var w :| Walk(s.objects, s.kind, s.roots, s.excluded, w) && w[|w| - 1] == x && |w| == e + 1;
        NearerIsVisited(s, w, d);
      }
    }
  }

  /** t is s after its first queue entry has been dealt with: skipped, or visited and its references queued. */
  ghost predicate Steps(s: Snapshot, t: Snapshot)
  {
    && s.queue != []
    && t == s.(queue := t.queue, depth := t.depth, visited := t.visited)
    && s.queue[1..] <= t.queue
    && if s.queue[0].oid in s.excluded || s.queue[0].oid in s.visited then t == s.(queue := s.queue[1..])
        else Visits(s, t, s.queue[0])
  }

  ghost predicate Visits(s: Snapshot, t: Snapshot, e: QueueEntry)
    requires s.queue != []
  {
    && e.oid !in s.excluded && e.oid !in s.visited
    && t.depth == e.depth && t.visited == s.visited[e.oid := e.depth]
    && (forall i :: |s.queue| - 1 <= i < |t.queue| ==> Follows(s, e, t.queue[i]))
    && (forall r ::
          Follows(s, e, QueueEntry(r, e.depth + 1)) && r !in s.excluded && r !in t.visited
          ==> QueueEntry(r, e.depth + 1) in t.queue)
  }

  /** n stands for something e refers to, one level deeper. */
  predicate Follows(s: Snapshot, e: QueueEntry, n: QueueEntry)
  {
    n.depth == e.depth + 1 && s.Within(n.depth) && n.oid in Refs(s.kind, s.objects(e.oid))
  }

  /** Queue entries for the references that are not excluded. */
  function Entries(refs: seq<Oid>, excludes: set<Oid>, d: nat): seq<QueueEntry>
  {
    if refs == [] then []
    else Entries(refs[..|refs| - 1], excludes, d) + if refs[|refs| - 1] in excludes then []
        else [QueueEntry(refs[|refs| - 1], d)]
  }

  lemma {:induction false} EntriesOfReferences(refs: seq<Oid>, excludes: set<Oid>, d: nat)
    ensures forall e :: e in Entries(refs, excludes, d) <==> e.depth == d && e.oid in refs && e.oid !in excludes
  {
    if refs != [] {
      EntriesOfReferences(refs[..|refs| - 1], excludes, d);
      assert refs == refs[..|refs| - 1] + [refs[|refs| - 1]];
    }
  }

  lemma StepKeepsPending(s: Snapshot, t: Snapshot, x: Oid, d: nat)
    requires s.Sorted() && s.VisitedSound() && Steps(s, t) && s.Pending(x, d) && x !in s.excluded
    ensures t.Pending(x, d)
  {
    hide Distance, Reached, Refs;
    var first := s.queue[0];
    assert first in s.queue;
    if !(x in s.visited && s.visited[x] <= d) {
      var e :| e in s.queue && e.oid == x && e.depth <= d;
      if e != first {
        assert e in s.queue[1..] && e in t.queue;
      }
    }
  }

  /** Where a queue entry after the step comes from. */
  lemma EntryAfterStep(s: Snapshot, t: Snapshot, i: nat)
    requires Steps(s, t) && i < |t.queue|
    ensures if i < |s.queue| - 1 then t.queue[i] == s.queue[i + 1] && t.queue[i] in s.queue
            else Visits(s, t, s.queue[0]) && Follows(s, s.queue[0], t.queue[i])
  {
    if i < |s.queue| - 1 {
      assert t.queue[i] == s.queue[1..][i] == s.queue[i + 1];
    }
  }

  lemma StepKeepsQueue(s: Snapshot, t: Snapshot)
    requires s.queue != [] && s.Valid() && Steps(s, t)
    ensures t.Sorted() && t.QueueSound() && t.depth >= s.depth
  {
    hide Distance, Reached, Refs, Steps, Snapshot.VisitedSound, Snapshot.Complete;
    var first := s.queue[0];
    assert first in s.queue;
    StepFacts(s, t);
    forall i | 0 <= i < |t.queue|
      ensures t.queue[i].oid in t.universe && t.Within(t.queue[i].depth)
      ensures t.queue[i].oid !in t.excluded ==> t.Reaches(t.queue[i].oid, t.queue[i].depth)
      ensures t.depth <= t.queue[i].depth <= t.depth + 1
    {
      EntryAfterStep(s, t, i);
      if i >= |s.queue| - 1 && t.queue[i].oid !in s.excluded {
        ReachedNext(s.objects, s.kind, s.roots, s.excluded, first.oid, first.depth, t.queue[i].oid);
      }
    }
    forall i, j | 0 <= i < j < |t.queue|
      ensures t.queue[i].depth <= t.queue[j].depth
    {
      EntryAfterStep(s, t, i);
      EntryAfterStep(s, t, j);
    }
  }

  lemma StepFacts(s: Snapshot, t: Snapshot)
    requires s.queue != [] && s.Sorted() && Steps(s, t)
    ensures s.depth <= t.depth && t.depth <= s.queue[0].depth
            && (Visits(s, t, s.queue[0]) ==> t.depth == s.queue[0].depth)
    ensures t == s.(queue := t.queue, depth := t.depth, visited := t.visited)
    ensures t.visited == s.visited || Visits(s, t, s.queue[0])
  {
    assert s.queue[0] in s.queue;
  }

  lemma {:induction false} StepKeepsVisited(s: Snapshot, t: Snapshot)
    requires s.queue != [] && s.Valid() && Steps(s, t)
    ensures t.VisitedSound()
  {
    hide Distance, Reached, Refs, Steps, Snapshot.Complete;
    StepFacts(s, t);
    var first := s.queue[0];
    assert first in s.queue;
    if first.oid !in s.excluded && first.oid !in s.visited {
      FirstHasDistance(s);
    }
  }

  lemma {:induction false} StepKeepsComplete(s: Snapshot, t: Snapshot)
    requires s.queue != [] && s.Valid() && Steps(s, t)
    ensures t.Complete()
  {
    hide Distance, Reached, Refs, Steps, Snapshot.Pending, Snapshot.QueueSound;
    StepFacts(s, t);
    forall o | o in t.roots && o !in t.excluded
      ensures t.Pending(o, 0)
    {
      StepKeepsPending(s, t, o, 0);
    }
    forall o, r | o in t.visited && r in Refs(t.kind, t.objects(o)) && r !in t.excluded && t.Within(t.visited[o] + 1)
      ensures t.Pending(r, t.visited[o] + 1)
    {
      if o in s.visited {
        StepKeepsPending(s, t, r, s.visited[o] + 1);
      } else {
        NewReference(s, t, r);
      }
    }
  }

  lemma NewReference(s: Snapshot, t: Snapshot, r: Oid)
    requires s.queue != [] && s.Valid() && Steps(s, t) && Visits(s, t, s.queue[0])
    requires r in Refs(s.kind, s.objects(s.queue[0].oid)) && r !in s.excluded && s.Within(t.depth + 1)
    ensures t.Pending(r, t.depth + 1)
  {
    hide Distance, Reached, Refs;
    var e := s.queue[0];
    assert e in s.queue;
    if r !in t.visited {
      assert QueueEntry(r, e.depth + 1) in t.queue;
    }
  }

  /** Every step of the walk keeps all of this. */
  lemma StepKeepsValid(s: Snapshot, t: Snapshot)
    requires s.Valid() && Steps(s, t)
    ensures t.Valid() && t.depth >= s.depth
  {
    StepKeepsQueue(s, t);
    StepKeepsVisited(s, t);
    StepKeepsComplete(s, t);
  }

  /** At the end, exactly the objects within reach have been visited, each at its distance. */
  lemma VisitedAtEnd(s: Snapshot, o: Oid, d: nat)
    requires s.Valid() && s.queue == []
    ensures o in s.visited && s.visited[o] == d <==> s.Within(d) && s.At(o, d)
  {
    if s.Within(d) && s.At(o, d) {
      var w :| Walk(s.objects, s.kind, s.roots, s.excluded, w) && w[|w| - 1] == o && |w| == d + 1;
      NearerIsVisited(s, w, d + 1);
      assert s.At(o, s.visited[o]);
    }
  }

  class ObjectIterator {
    const objects: Objects
    const kind: IterKind
    const maxDepth: int
    var queue: seq<QueueEntry>
    var excludes: set<Oid>
    var depth: nat

    // what the walk is about, and what it has done
    ghost const universe: set<Oid>
    ghost var roots: set<Oid>
    ghost var excluded: set<Oid>
    ghost var visited: map<Oid, nat>

    ghost function Now(): Snapshot
      reads this
    {
      Snapshot(objects, kind, maxDepth, universe, roots, excluded, queue, depth, visited)
    }

    ghost predicate Valid()
      reads this
    {
      Now().Valid() && excludes == excluded + visited.Keys
    }

    /** A walk over a finite universe of objects. */
    constructor (objects: Objects, kind: IterKind, maxDepth: int, ghost universe: set<Oid>)
      requires forall o, r :: o in universe && r in Refs(kind, objects(o)) ==> r in universe
      ensures Valid() && Now().Unstarted() && roots == {} && excluded == {}
      ensures this.objects == objects && this.kind == kind && this.maxDepth == maxDepth && this.universe == universe
    {
      this.objects, this.kind, this.maxDepth := objects, kind, maxDepth;
      this.universe, roots, excluded, visited := universe, {}, {}, map[];
      queue, excludes, depth := [], {}, 0;
    }

    method IncludeAtDepth(oid: Oid, d: nat)
      modifies this`queue
      ensures queue == if (maxDepth <= 0 || d <= maxDepth) && oid !in excludes then old(queue) + [QueueEntry(oid, d)]
              else old(queue)
    {
      if maxDepth > 0 && d > maxDepth {
        return;
      }
      if oid !in excludes {
        queue := queue + [QueueEntry(oid, d)];
      }
    }

    /** Add a root: queued unless it is excluded, or has been visited. Before the walk starts, it is one of those
        from which distances count. */
    method Include(oid: Oid)
      modifies this`queue, this`roots
      ensures queue == if oid !in excludes then old(queue) + [QueueEntry(oid, 0)] else old(queue)
      ensures roots == old(roots) + {oid}
      ensures old(Valid() && Now().Unstarted()) && oid in universe ==> Valid() && Now().Unstarted()
    {
      hide Snapshot.Valid, Snapshot.Unstarted;
      IncludeAtDepth(oid, 0);
      roots := roots + {oid};
      if old(Valid() && Now().Unstarted()) && oid in universe {
        NothingVisited(old(Now()));
        RootIncluded(old(Now()), Now(), oid);
      }
    }

    /** Exclude an object, whether or not it has been included: exactly what is reached downward from it, and the
        parents of commits reached so, are excluded. Hashes cannot be circular, so the objects have ranks. */
    method Exclude(oid: Oid, ghost rank: Oid -> nat)
      requires forall o, p :: p in Inside(kind, objects(o)) ==> rank(p) < rank(o)
      modifies this`excludes, this`excluded
      ensures forall x :: x in excludes <==> x in old(excludes) || Marks(objects, kind, oid, x)
      ensures forall x :: x in excluded <==> x in old(excluded) || Marks(objects, kind, oid, x)
      ensures old(Valid() && Now().Unstarted()) ==> Valid() && Now().Unstarted()
    {
      hide Marks, Distance, Reached, Snapshot.Valid;
      ghost var before := Now();
      Mark(oid, rank);
      excluded := excluded + set x | x in excludes && Marks(objects, kind, oid, x);
      if old(Valid() && Now().Unstarted()) {
        RootsStillIncluded(before, Now());
      }
    }

    method Mark(oid: Oid, ghost rank: Oid -> nat)
      requires forall o, p :: p in Inside(kind, objects(o)) ==> rank(p) < rank(o)
      modifies this`excludes
      ensures forall x :: x in excludes <==> x in old(excludes) || Marks(objects, kind, oid, x)
      decreases rank(oid)
    {
      hide Marks;
      excludes := excludes + {oid};
      var beside, inside := Beside(objects(oid)), Inside(kind, objects(oid));
      excludes := excludes + set p | p in beside;
      for i := 0 to |inside|
        invariant forall x :: x in excludes <==>
                              x in old(excludes) || x == oid || x in beside || MarksAmong(objects, kind, inside[..i], x)
      {
        Mark(inside[i], rank);
        assert inside[..i + 1] == inside[..i] + [inside[i]];
      }
      assert inside[..|inside|] == inside;
      forall x
        ensures x in excludes <==> x in old(excludes) || Marks(objects, kind, oid, x)
      {
        MarksStepwise(objects, kind, oid, x);
      }
    }

    /** Take the first queue entry: drop it if it is excluded or visited, otherwise remember it and include
        what it refers to. */
    method Visit() returns (visit: Option<Oid>)
      requires Valid() && queue != []
      modifies this`queue, this`excludes, this`depth, this`visited
      ensures Valid() && Visited(old(Now()), Now(), visit)
              && visit == (if old(queue[0].oid) in old(excludes) then None else Some(old(queue[0].oid)))
      ensures if visit.None? then Now().Left() == old(Now().Left()) && |queue| < |old(queue)|
              else visited[visit.value] == depth && Now().Left() < old(Now().Left())
    {
      hide Distance, Reached, Snapshot.Valid, Visited, Snapshot.Left, Refs, Entries;
      ghost var before := Now();
      var entry := queue[0];
      queue := queue[1..];
      if entry.oid in excludes {
        EntryDropped(before, Now());
        return None;
      }
      excludes := excludes + {entry.oid};
      IncludeRefs(entry.oid, entry.depth + 1);
      depth := entry.depth;
      visited := visited[entry.oid := entry.depth];
      assert excludes == excluded + visited.Keys;
      EntryVisited(before, Now());
      return Some(entry.oid);
    }

    /** Include everything an object refers to, at the given depth. */
    method IncludeRefs(oid: Oid, d: nat)
      modifies this`queue
      ensures queue == if maxDepth <= 0 || d <= maxDepth
              then old(queue) + Entries(Refs(kind, objects(oid)), excludes, d) else old(queue)
    {
      var refs := Refs(kind, objects(oid));
      for i := 0 to |refs|
        invariant queue == if maxDepth <= 0 || d <= maxDepth then old(queue) + Entries(refs[..i], excludes, d)
                  else old(queue)
      {
        assert refs[..i + 1][..i] == refs[..i];
        IncludeAtDepth(refs[i], d);
      }
      assert refs[..|refs|] == refs;
    }

    /** The next object, or none when the walk is over. */
    method Next() returns (r: Option<Oid>)
      requires Valid()
      modifies this`queue, this`excludes, this`depth, this`visited
      ensures Valid() && Advances(old(Now()), Now(), r)
      ensures r.None? ==> queue == []
      ensures r.Some? ==> visited[r.value] == depth && Now().Emits(r.value) && Now().Left() < old(Now().Left())
    {
      hide Snapshot.Valid, Advances, Snapshot.Left;
      ghost var start := Now();
      AdvancesByNothing(start);
      while |queue| > 0
        invariant Valid() && Advances(start, Now(), None) && Now().Left() <= start.Left()
        decreases Now().Left(), |queue|
      {
        ghost var before := Now();
        var o := Visit();
        AdvancesFurther(start, before, Now(), o);
        if o.Some? {
          if kind == CommitsOnly && !objects(o.value).Commit? {
            continue;
          }
          return o;
        }
      }
      return None;
    }

    /** All objects of the walk with their depths: each object within reach once, at its distance, nearest first. */
    method Collect() returns (out: seq<QueueEntry>)
      requires Valid() && Now().Unstarted()
      modifies this`queue, this`excludes, this`depth, this`visited
      ensures forall o, d: nat ::
                QueueEntry(o, d) in out <==>
                (kind == All || objects(o).Commit?) && (maxDepth <= 0 || d <= maxDepth)
                && Distance(objects, kind, roots, excluded, o, d)
      ensures forall i, j :: 0 <= i < j < |out| ==> out[i].oid != out[j].oid && out[i].depth <= out[j].depth
    {
      hide Snapshot.Valid, Distance, Advances, Snapshot.Left;
      out := [];
      ListsNothing(Now());
      while true
        invariant Valid() && Lists(Now(), out)
        decreases Now().Left()
      {
        ghost var before := Now();
        var r := Next();
        ListsFurther(before, Now(), r, out);
        if r == None {
          break;
        }
        out := out + [QueueEntry(r.value, depth)];
      }
      forall o, d: nat
        ensures QueueEntry(o, d) in out <==>
                (kind == All || objects(o).Commit?) && (maxDepth <= 0 || d <= maxDepth)
                && Distance(objects, kind, roots, excluded, o, d)
      {
        VisitedAtEnd(Now(), o, d);
      }
    }
  }

  /** t is a later moment of the walk s is in; of what was visited in between only r, if anything, is to be returned. */
  ghost predicate Advances(s: Snapshot, t: Snapshot, r: Option<Oid>)
  {
    && t == s.(queue := t.queue, depth := t.depth, visited := t.visited)
    && s.depth <= t.depth
    && (forall o :: o in s.visited ==> o in t.visited && t.visited[o] == s.visited[o])
    && (forall o :: o in t.visited && o !in s.visited ==> r == Some(o) || !t.Emits(o))
    && (r.Some? ==> r.value in t.visited && r.value !in s.visited)
  }

  /** One visit: of o, or of nothing. */
  ghost predicate Visited(s: Snapshot, t: Snapshot, o: Option<Oid>)
  {
    && t == s.(queue := t.queue, depth := t.depth, visited := t.visited)
    && s.depth <= t.depth
    && match o
       case None => t.visited == s.visited
       case Some(x) => x !in s.visited && t.visited == s.visited[x := t.depth]
  }

  lemma AdvancesByNothing(s: Snapshot)
    ensures Advances(s, s, None)
  {
  }

  lemma AdvancesFurther(s: Snapshot, t: Snapshot, u: Snapshot, o: Option<Oid>)
    requires Advances(s, t, None) && Visited(t, u, o)
    ensures Advances(s, u, o) && (o.Some? && !u.Emits(o.value) ==> Advances(s, u, None))
  {
  }

  /** out lists what has been visited and is to be returned, once each and nearest first. */
  ghost predicate Lists(s: Snapshot, out: seq<QueueEntry>)
  {
    && (forall o, d: nat :: QueueEntry(o, d) in out <==> s.Emits(o) && o in s.visited && s.visited[o] == d)
    && (forall i, j :: 0 <= i < j < |out| ==> out[i].oid != out[j].oid && out[i].depth <= out[j].depth)
    && (forall e :: e in out ==> e.depth <= s.depth)
  }

  lemma ListsNothing(s: Snapshot)
    requires s.visited == map[]
    ensures Lists(s, [])
  {
  }

  lemma ListsFurther(s: Snapshot, t: Snapshot, r: Option<Oid>, out: seq<QueueEntry>)
    requires Lists(s, out) && Advances(s, t, r) && (r.Some? ==> t.Emits(r.value) && t.visited[r.value] == t.depth)
    ensures Lists(t, match r case None => out case Some(x) => out + [QueueEntry(x, t.depth)])
  {
    forall i | 0 <= i < |out|
      ensures out[i].depth <= t.depth && Some(out[i].oid) != r
    {
      assert QueueEntry(out[i].oid, out[i].depth) in out;
    }
    if r.Some? {
      var e := QueueEntry(r.value, t.depth);
      forall o, d: nat
        ensures QueueEntry(o, d) in out + [e] <==> t.Emits(o) && o in t.visited && t.visited[o] == d
      {
        assert QueueEntry(o, d) in out + [e] <==> QueueEntry(o, d) in out || QueueEntry(o, d) == e;
      }
    }
  }

  lemma EntryDropped(s: Snapshot, t: Snapshot)
    requires s.Valid() && s.queue != [] && (s.queue[0].oid in s.excluded || s.queue[0].oid in s.visited)
    requires t == s.(queue := s.queue[1..])
    ensures t.Valid() && Visited(s, t, None) && t.Left() == s.Left()
  {
    hide Distance, Reached, Snapshot.Valid;
    StepKeepsValid(s, t);
  }

  /** t is s after its first entry, which is neither excluded nor visited, has been visited. */
  ghost predicate AfterVisit(s: Snapshot, t: Snapshot)
    requires s.queue != []
  {
    var e := s.queue[0];
    && e.oid !in s.excluded && e.oid !in s.visited
    && t == s.(queue := t.queue, depth := e.depth, visited := s.visited[e.oid := e.depth])
    && t.queue == s.queue[1..] + if s.Within(e.depth + 1)
        then Entries(Refs(s.kind, s.objects(e.oid)), s.excluded + t.visited.Keys, e.depth + 1) else []
  }

  lemma AfterVisitVisits(s: Snapshot, t: Snapshot)
    requires s.queue != [] && AfterVisit(s, t)
    ensures Steps(s, t)
  {
    hide Refs, Entries;
    var e := s.queue[0];
    var refs := Refs(s.kind, s.objects(e.oid));
    var added := Entries(refs, s.excluded + t.visited.Keys, e.depth + 1);
    EntriesOfReferences(refs, s.excluded + t.visited.Keys, e.depth + 1);
    forall i | |s.queue| - 1 <= i < |t.queue|
      ensures Follows(s, e, t.queue[i])
    {
      assert t.queue[i] in added;
    }
    forall r | Follows(s, e, QueueEntry(r, e.depth + 1)) && r !in s.excluded && r !in t.visited
      ensures QueueEntry(r, e.depth + 1) in t.queue
    {
      assert QueueEntry(r, e.depth + 1) in added;
    }
  }

  lemma EntryVisited(s: Snapshot, t: Snapshot)
    requires s.Valid() && s.queue != [] && AfterVisit(s, t)
    ensures t.Valid() && Visited(s, t, Some(s.queue[0].oid)) && t.Left() < s.Left()
  {
    hide Distance, Reached, Snapshot.Valid, Steps;
    FirstInUniverse(s);
    AfterVisitVisits(s, t);
    StepKeepsValid(s, t);
    CountDrops(t.universe - t.visited.Keys, s.universe - s.visited.Keys, s.queue[0].oid);
  }

  lemma FirstInUniverse(s: Snapshot)
    requires s.Valid() && s.queue != []
    ensures s.queue[0].oid in s.universe && s.queue[0].depth >= s.depth
  {
    assert s.queue[0] in s.queue;
  }

  lemma NothingVisited(s: Snapshot)
    requires s.Unstarted()
    ensures s.visited == map[]
  {
  }

  lemma RootIncluded(s: Snapshot, t: Snapshot, oid: Oid)
    requires s.Valid() && s.Unstarted() && oid in s.universe
    requires t == s.(roots := s.roots + {oid}, queue := t.queue)
    requires t.queue == if s.Within(0) && oid !in s.excluded then s.queue + [QueueEntry(oid, 0)] else s.queue
    ensures t.Valid() && t.Unstarted()
  {
    forall e | e in t.queue && e.oid !in t.excluded
      ensures t.Reaches(e.oid, e.depth)
    {
      ReachedRoot(t.objects, t.kind, t.roots, t.excluded, e.oid);
    }
    forall o | o in t.roots && o !in t.excluded
      ensures t.Pending(o, 0)
    {
      if o == oid {
        assert QueueEntry(oid, 0) in t.queue;
      } else {
        assert s.Pending(o, 0);
        assert forall e :: e in s.queue ==> e in t.queue;
      }
    }
  }

  lemma RootsStillIncluded(s: Snapshot, t: Snapshot)
    requires s.Valid() && s.Unstarted() && t == s.(excluded := t.excluded) && s.excluded <= t.excluded
    ensures t.Valid() && t.Unstarted()
  {
    forall e | e in t.queue && e.oid !in t.excluded
      ensures t.Reaches(e.oid, e.depth)
    {
      ReachedRoot(t.objects, t.kind, t.roots, t.excluded, e.oid);
    }
    forall o | o in t.roots && o !in t.excluded
      ensures t.Pending(o, 0)
    {
      assert s.Pending(o, 0);
    }
  }

  lemma CountDrops(s: set<Oid>, t: set<Oid>, x: Oid)
    requires x in t && s <= t - {x}
    ensures |s| < |t|
  {
    SubsetCount(s, t - {x});
  }

  lemma {:induction false} SubsetCount(s: set<Oid>, t: set<Oid>)
    requires s <= t
    ensures |s| <= |t|
    decreases |s|
  {
    if s != {} {
      var x :| x in s;
      SubsetCount(s - {x}, t - {x});
    }
  }
}
