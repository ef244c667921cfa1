/** The three-way merge of merge.go at the level of lines: what each chunk resolves to, and the laws
    the merged file obeys. */
module LineMerge {
  import opened EditGraph
  import opened Ranges
  import opened Diff3

  /** The lines that fence off the parts of a conflict. */
  datatype Markers = Markers(target: Line, base: Line, separate: Line, source: Line)

  function BaseLines(t: Trio, c: Piece): seq<Line>
    requires SameLines(t, c)
  {
    t.o[c.from.o..c.to.o]
  }

  function TargetLines(t: Trio, c: Piece): seq<Line>
    requires SameLines(t, c)
  {
    t.a[c.from.a..c.to.a]
  }

  function SourceLines(t: Trio, c: Piece): seq<Line>
    requires SameLines(t, c)
  {
    t.b[c.from.b..c.to.b]
  }

  /** Both sides changed the base lines, and differently. */
  predicate Conflicts(t: Trio, c: Piece)
    requires SameLines(t, c)
  {
    && !c.clean
    && BaseLines(t, c) != TargetLines(t, c)
    && TargetLines(t, c) != SourceLines(t, c)
    && BaseLines(t, c) != SourceLines(t, c)
  }

  /** What a chunk contributes to the merged file. */
  function Resolve(t: Trio, c: Piece, k: Markers): seq<Line>
    requires SameLines(t, c)
  {
    var base, target, source := BaseLines(t, c), TargetLines(t, c), SourceLines(t, c);
    if c.clean then base
    else if base == target || target == source then source
    else if base == source then target
    else [k.target] + target + [k.base] + base + [k.separate] + source + [k.source]
  }

  function ResolveAll(t: Trio, cs: seq<Piece>, k: Markers): seq<Line>
    requires forall c :: c in cs ==> SameLines(t, c)
  {
    if cs == [] then [] else
    assert cs[0] in cs;
    Resolve(t, cs[0], k) + ResolveAll(t, cs[1..], k)
  }

  predicate AnyConflict(t: Trio, cs: seq<Piece>)
    requires forall c :: c in cs ==> SameLines(t, c)
  {
    exists c :: c in cs && Conflicts(t, c)
  }

  function MergedOf(t: Trio, k: Markers): seq<Line>
    requires Aligned(t)
  {
    ChunksCutAllFiles(t);
    ResolveAll(t, AllPieces(t), k)
  }

  predicate ConflictOf(t: Trio)
    requires Aligned(t)
  {
    ChunksCutAllFiles(t);
    AnyConflict(t, AllPieces(t))
  }

  /** The merge of target a and source b over base o. */
  function Merged(o: seq<Line>, a: seq<Line>, b: seq<Line>, k: Markers): seq<Line>
  {
    MyersTrioAligned(o, a, b);
    MergedOf(MyersTrio(o, a, b), k)
  }

  predicate Conflict(o: seq<Line>, a: seq<Line>, b: seq<Line>)
  {
    MyersTrioAligned(o, a, b);
    ConflictOf(MyersTrio(o, a, b))
  }

  // ---------------------------------------------------------------------------
  // laws
  // ---------------------------------------------------------------------------

  /** An empty diff leaves the whole file as one chunk. */
  lemma EmptyDiffOnePiece(t: Trio)
    requires Aligned(t) && (t.toA == [] || t.toB == [])
    ensures AllPieces(t) == [Piece(false, ORIGIN, End(t))]
  {
    assert !AllMatch(t, ORIGIN, 0);
    assert !Shared(t, NextShared(t, 0));
  }

  lemma OnePieceMerge(t: Trio, k: Markers)
    requires Aligned(t) && (t.toA == [] || t.toB == [])
    ensures t.o == t.a ==> MergedOf(t, k) == t.b && !ConflictOf(t)
    ensures t.o == t.b ==> MergedOf(t, k) == t.a && !ConflictOf(t)
  {
    EmptyDiffOnePiece(t);
    ChunksCutAllFiles(t);
    var c := Piece(false, ORIGIN, End(t));
    assert SameLines(t, c) && BaseLines(t, c) == t.o && TargetLines(t, c) == t.a && SourceLines(t, c) == t.b;
    assert [c][1..] == [] && ResolveAll(t, [c], k) == Resolve(t, c, k);
  }

  /** Only the source changed: the merge is the source. */
  lemma {:induction false} MergeTakesSource(o: seq<Line>, b: seq<Line>, k: Markers)
    ensures Merged(o, o, b, k) == b && !Conflict(o, o, b)
  {
    hide MyersScript, MergedOf, ConflictOf;
    MyersTrioAligned(o, o, b);
    IdenticalListsYieldNothing(o, o);
    OnePieceMerge(MyersTrio(o, o, b), k);
  }

  /** Only the target changed: the merge is the target. */
  lemma {:induction false} MergeTakesTarget(o: seq<Line>, a: seq<Line>, k: Markers)
    ensures Merged(o, a, o, k) == a && !Conflict(o, a, o)
  {
    hide MyersScript, MergedOf, ConflictOf;
    MyersTrioAligned(o, a, o);
    IdenticalListsYieldNothing(o, o);
    OnePieceMerge(MyersTrio(o, a, o), k);
  }

  /** Chunks that all resolve to their source lines make up the source file. */
  lemma {:induction false} AllSource(t: Trio, cs: seq<Piece>, p: Place, q: Place, k: Markers)
    requires forall c :: c in cs ==> SameLines(t, c) && Resolve(t, c, k) == SourceLines(t, c)
    requires Consecutive(cs, p, q) && q.b <= |t.b|
    ensures p.b <= q.b && ResolveAll(t, cs, k) == t.b[p.b..q.b]
    decreases |cs|
  {
    if cs != [] {
      assert cs[0] in cs;
      AllSource(t, cs[1..], cs[0].to, q, k);
      assert t.b[p.b..q.b] == t.b[p.b..cs[0].to.b] + t.b[cs[0].to.b..q.b];
    }
  }

  /** When both sides are the same file with the same diff, they advance together. */
  lemma {:induction false} SameSidesTogether(t: Trio, p: Place)
    requires Settled(t, p) && t.a == t.b && t.toA == t.toB && p.a == p.b
    ensures forall c :: c in Pieces(t, p) ==> c.from.a == c.from.b && c.to.a == c.to.b
    decreases LinesAfter(t, p)
  {
    NextPieceSound(t, p);
    var (c, last) := NextPiece(t, p);
    if !last {
      SameSidesTogether(t, c.to);
    }
  }

  /** Both sides made the same change: the merge is that change. */
  lemma {:induction false} MergeTakesCommonChange(o: seq<Line>, a: seq<Line>, k: Markers)
    ensures Merged(o, a, a, k) == a && !Conflict(o, a, a)
  {
    hide MyersScript;
    var t := MyersTrio(o, a, a);
    MyersTrioAligned(o, a, a);
    ChunksCutAllFiles(t);
    SameSidesTogether(t, ORIGIN);
    AllSource(t, AllPieces(t), ORIGIN, End(t), k);
  }

  // symmetry

  function SwapTrio(t: Trio): Trio { Trio(t.o, t.b, t.a, t.toB, t.toA) }
  function SwapPlace(p: Place): Place { Place(p.o, p.b, p.a) }
  function SwapPiece(c: Piece): Piece { Piece(c.clean, SwapPlace(c.from), SwapPlace(c.to)) }

  function SwapPieces(cs: seq<Piece>): seq<Piece>
  {
    if cs == [] then [] else [SwapPiece(cs[0])] + SwapPieces(cs[1..])
  }

  lemma {:induction false} RunLengthSwaps(t: Trio, p: Place, i: nat)
    requires Aligned(t)
    ensures RunLength(SwapTrio(t), SwapPlace(p), i) == RunLength(t, p, i)
    decreases |t.o| - p.o - i
  {
    if LinesLeft(t, p, i) && AllMatch(t, p, i) {
      MatchInside(t, p, i);
      RunLengthSwaps(t, p, i + 1);
    }
  }

  lemma {:induction false} NextSharedSwaps(t: Trio, x: nat)
    requires x <= |t.o|
    ensures NextShared(SwapTrio(t), x) == NextShared(t, x)
    decreases |t.o| - x
  {
    if x < |t.o| && !Shared(t, x) {
      NextSharedSwaps(t, x + 1);
    }
  }

  lemma {:induction false} PiecesSwap(t: Trio, p: Place)
    requires Settled(t, p)
    ensures Pieces(SwapTrio(t), SwapPlace(p)) == SwapPieces(Pieces(t, p))
    decreases LinesAfter(t, p)
  {
    NextPieceSound(t, p);
    RunLengthSwaps(t, p, 0);
    NextSharedSwaps(t, p.o);
    var (c, last) := NextPiece(t, p);
    assert NextPiece(SwapTrio(t), SwapPlace(p)) == (SwapPiece(c), last);
    if last {
      assert Pieces(t, p)[1..] == [];
    } else {
      PiecesSwap(t, c.to);
      assert Pieces(t, p)[1..] == Pieces(t, c.to);
    }
  }

  lemma {:induction false} ResolveSwaps(t: Trio, cs: seq<Piece>, k: Markers)
    requires forall c :: c in cs ==> SameLines(t, c)
    ensures forall c :: c in SwapPieces(cs) ==> SameLines(SwapTrio(t), c)
    ensures AnyConflict(SwapTrio(t), SwapPieces(cs)) == AnyConflict(t, cs)
    ensures !AnyConflict(t, cs) ==> ResolveAll(SwapTrio(t), SwapPieces(cs), k) == ResolveAll(t, cs, k)
    decreases |cs|
  {
    if cs != [] {
      var c, d, rest := cs[0], SwapPiece(cs[0]), cs[1..];
      assert c in cs && forall e :: e in cs <==> e == c || e in rest;
      ResolveSwaps(t, rest, k);
      assert SameLines(SwapTrio(t), d);
      assert SwapPieces(cs)[0] == d && SwapPieces(cs)[1..] == SwapPieces(rest);
      assert forall e :: e in SwapPieces(cs) <==> e == d || e in SwapPieces(rest);
      assert Conflicts(SwapTrio(t), d) == Conflicts(t, c);
    }
  }

  /** Exchanging target and source neither creates nor removes conflicts, and a merge without conflict
      does not depend on which side is which. */
  lemma {:induction false} MergeIsSymmetric(o: seq<Line>, a: seq<Line>, b: seq<Line>, k: Markers)
    ensures Conflict(o, b, a) == Conflict(o, a, b)
    ensures !Conflict(o, a, b) ==> Merged(o, b, a, k) == Merged(o, a, b, k)
  {
    hide MyersScript;
    var t := MyersTrio(o, a, b);
    MyersTrioAligned(o, a, b);
    MyersTrioAligned(o, b, a);
    ChunksCutAllFiles(t);
    PiecesSwap(t, ORIGIN);
    ResolveSwaps(t, AllPieces(t), k);
  }
}
