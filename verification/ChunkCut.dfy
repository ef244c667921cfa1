/** Where chunks begin and end, said without the iterator: they alternate, a clean chunk is a run of base lines whose
    partners run along in both other files, and a conflict holds no base line that both other files share. There is
    only one way to cut three files like this, and the chunks are that cut. */
module ChunkCuts {
  import opened EditGraph
  import opened MyersDiff
  import opened Diff3

  /** From c.from to c.to every base line is paired with the line as far along in both other files. */
  ghost predicate Stable(t: Trio, c: Piece)
  {
    var n := c.to.o - c.from.o;
    && c.clean && n > 0 && c.to.a - c.from.a == n && c.to.b - c.from.b == n
    && forall i :: 0 <= i < n ==> AllMatch(t, c.from, i)
  }

  /** No base line from c.from to c.to has partners in both other files. */
  ghost predicate Unstable(t: Trio, c: Piece)
  {
    && !c.clean && c.from.o <= c.to.o && c.from.a <= c.to.a && c.from.b <= c.to.b
    && forall x: nat :: c.from.o <= x < c.to.o ==> !Shared(t, x)
  }

  /** From p to the end, stable and unstable pieces take turns. Only empty files have an empty piece. */
  ghost predicate IsCut(t: Trio, cs: seq<Piece>, p: Place)
  {
    && cs != [] && cs[0].from == p && (Stable(t, cs[0]) || Unstable(t, cs[0]))
    && (cs[0].from == cs[0].to ==> |cs| == 1 && p == ORIGIN)
    && if |cs| == 1 then cs[0].to == End(t)
       else cs[0].clean != cs[1].clean && IsCut(t, cs[1..], cs[0].to)
  }

  lemma NoPartnerAtEnd(t: Trio)
    requires Aligned(t)
    ensures !Shared(t, |t.o|)
  {
    PartnerSound(t.o, t.a, t.toA, |t.o|);
  }

  /** The next piece is stable or unstable, and the one after it is of the other kind. */
  lemma NextPieceKind(t: Trio, p: Place)
    requires Settled(t, p) && (p == ORIGIN || LinesLeft(t, p, 0))
    ensures var (c, last) := NextPiece(t, p);
            && (Stable(t, c) || Unstable(t, c)) && (c.from == c.to ==> last && p == ORIGIN)
            && (!last ==> LinesLeft(t, c.to, 0) && AllMatch(t, c.to, 0) == !c.clean)
  {
    hide Lookup, Aligned, From;
    var i := RunLength(t, p, 0);
    NoPartnerAtEnd(t);
    NextPieceSound(t, p);
    if i > 0 {
      MatchInside(t, p, i - 1);
    }
  }

  lemma PieceKindHere(t: Trio, p: Place)
    requires Settled(t, p) && LinesLeft(t, p, 0)
    ensures NextPiece(t, p).0.clean == AllMatch(t, p, 0)
  {
    hide Lookup, Aligned, From;
    var i := RunLength(t, p, 0);
  }

  lemma {:induction false} PiecesAreCut(t: Trio, p: Place)
    requires Settled(t, p) && (p == ORIGIN || LinesLeft(t, p, 0))
    ensures IsCut(t, Pieces(t, p), p)
    decreases LinesAfter(t, p)
  {
    hide Stable, Unstable, NextPiece, AllMatch, LinesLeft, Lookup, Aligned, From;
    NextPieceSound(t, p);
    NextPieceKind(t, p);
    var (c, last) := NextPiece(t, p);
    if last {
      assert Pieces(t, p) == [c];
    } else {
      var rest := Pieces(t, c.to);
      assert Pieces(t, p) == [c] + rest && ([c] + rest)[1..] == rest;
      PieceKindHere(t, c.to);
      PiecesAreCut(t, c.to);
    }
  }

  /** A piece is stable exactly if the three files match where it begins. */
  lemma KindByMatch(t: Trio, cs: seq<Piece>, p: Place)
    requires Aligned(t) && IsCut(t, cs, p)
    ensures cs[0].clean == AllMatch(t, p, 0)
  {
    hide Lookup, Aligned;
    var c := cs[0];
    if !c.clean && AllMatch(t, p, 0) {
      MatchInside(t, p, 0);
      assert Shared(t, p.o);
      if |cs| > 1 {
        NextIsStable(t, cs, p);
      }
    }
  }

  lemma NextIsStable(t: Trio, cs: seq<Piece>, p: Place)
    requires IsCut(t, cs, p) && |cs| > 1 && !cs[0].clean
    ensures AllMatch(t, cs[0].to, 0) && Shared(t, cs[0].to.o)
  {
    hide Lookup;
    assert cs[1..][0] == cs[1] && Stable(t, cs[1]);
  }

  lemma {:induction false} CutInside(t: Trio, cs: seq<Piece>, p: Place)
    requires IsCut(t, cs, p)
    ensures InRange(t, p) && InRange(t, cs[0].to)
    decreases |cs|
  {
    hide AllMatch, Shared;
    if |cs| > 1 {
      CutInside(t, cs[1..], cs[0].to);
    }
  }

  /** Nothing is cut behind the end. */
  lemma CutAtEnd(t: Trio, cs: seq<Piece>)
    requires IsCut(t, cs, End(t))
    ensures |cs| == 1 && End(t) == ORIGIN && cs[0] == Piece(false, End(t), End(t))
  {
    hide AllMatch, Shared;
    CutInside(t, cs, End(t));
  }

  lemma CutEndsOnce(t: Trio, cs: seq<Piece>, ds: seq<Piece>, p: Place)
    requires IsCut(t, cs, p) && IsCut(t, ds, p) && cs[0].to == ds[0].to && |cs| == 1
    ensures |ds| == 1
  {
    hide AllMatch, Shared;
    if |ds| > 1 {
      CutAtEnd(t, ds[1..]);
      CutInside(t, ds, p);
    }
  }

  /** There is only one cut. */
  lemma {:induction false} OnlyOneCut(t: Trio, cs: seq<Piece>, ds: seq<Piece>, p: Place)
    requires Aligned(t) && IsCut(t, cs, p) && IsCut(t, ds, p)
    ensures cs == ds
    decreases |cs|
  {
    hide Aligned, Lookup;
    SameFirst(t, cs, ds, p);
    if |cs| > 1 && |ds| > 1 {
      OnlyOneCut(t, cs[1..], ds[1..], cs[0].to);
      assert cs == [cs[0]] + cs[1..] && ds == [ds[0]] + ds[1..];
    }
  }

  lemma SameFirst(t: Trio, cs: seq<Piece>, ds: seq<Piece>, p: Place)
    requires Aligned(t) && IsCut(t, cs, p) && IsCut(t, ds, p)
    ensures cs[0] == ds[0] && (|cs| == 1 <==> |ds| == 1)
  {
    hide Lookup, Aligned, AllMatch, Shared, Stable, Unstable;
    KindByMatch(t, cs, p);
    KindByMatch(t, ds, p);
    if cs[0].clean {
      StableNoLonger(t, cs, ds, p);
      StableNoLonger(t, ds, cs, p);
      SameRun(t, cs[0], ds[0]);
    } else {
      UnstableNoLonger(t, cs, ds, p);
      UnstableNoLonger(t, ds, cs, p);
    }
    if |cs| == 1 {
      CutEndsOnce(t, cs, ds, p);
    } else if |ds| == 1 {
      CutEndsOnce(t, ds, cs, p);
    }
  }

  lemma SameRun(t: Trio, c: Piece, d: Piece)
    requires c.clean && d.clean && (Stable(t, c) || Unstable(t, c)) && (Stable(t, d) || Unstable(t, d))
    requires c.from == d.from && c.to.o == d.to.o
    ensures c == d
  {
    hide AllMatch;
  }

  /** A run goes on as long as the files match. */
  lemma StableNoLonger(t: Trio, cs: seq<Piece>, ds: seq<Piece>, p: Place)
    requires Aligned(t) && IsCut(t, cs, p) && IsCut(t, ds, p) && cs[0].clean && ds[0].clean
    ensures cs[0].to.o >= ds[0].to.o
  {
    hide Lookup, Aligned;
    var c, d := cs[0], ds[0];
    var n := c.to.o - p.o;
    if n < d.to.o - p.o {
      assert AllMatch(t, p, n);
      MatchInside(t, p, n);
      assert AllMatch(t, c.to, 0);
      KindByMatch(t, cs[1..], c.to);
    }
  }

  /** A conflict ends at the first line that all three share, or at the end. */
  lemma UnstableNoLonger(t: Trio, cs: seq<Piece>, ds: seq<Piece>, p: Place)
    requires Aligned(t) && IsCut(t, cs, p) && IsCut(t, ds, p) && !cs[0].clean && !ds[0].clean
    ensures cs[0].to.o <= ds[0].to.o && (cs[0].to.o == ds[0].to.o ==> cs[0].to == ds[0].to)
  {
    hide Lookup, Aligned, Shared;
    CutInside(t, cs, p);
    CutInside(t, ds, p);
    if |ds| > 1 {
      NextIsStable(t, ds, p);
      MatchInside(t, ds[0].to, 0);
    }
    if |cs| > 1 {
      NextIsStable(t, cs, p);
      MatchInside(t, cs[0].to, 0);
    }
  }

  /** The chunks are the one cut of the three files. */
  lemma ChunksAreTheCut(t: Trio, cs: seq<Piece>)
    requires Aligned(t)
    ensures IsCut(t, AllPieces(t), ORIGIN)
    ensures IsCut(t, cs, ORIGIN) ==> cs == AllPieces(t)
  {
    PiecesAreCut(t, ORIGIN);
    if IsCut(t, cs, ORIGIN) {
      OnlyOneCut(t, cs, AllPieces(t), ORIGIN);
    }
  }

  /** Every base line with partners in both other files lies in a clean chunk, and no such line in a conflict. */
  lemma SharedLinesAreClean(t: Trio, x: nat)
    requires Aligned(t) && Shared(t, x)
    ensures forall c :: c in AllPieces(t) && c.from.o <= x < c.to.o ==> c.clean
    ensures exists c :: c in AllPieces(t) && c.from.o <= x < c.to.o
  {
    hide Lookup, IsScript;
    PartnerSound(t.o, t.a, t.toA, x);
    PiecesAreCut(t, ORIGIN);
    CutKinds(t, AllPieces(t), ORIGIN);
    CutCovers(t, AllPieces(t), ORIGIN, x);
  }

  lemma {:induction false} CutKinds(t: Trio, cs: seq<Piece>, p: Place)
    requires IsCut(t, cs, p)
    ensures forall c :: c in cs ==> Stable(t, c) || Unstable(t, c)
    decreases |cs|
  {
    hide Stable, Unstable;
    if |cs| > 1 {
      CutKinds(t, cs[1..], cs[0].to);
    }
    assert forall c :: c in cs ==> c == cs[0] || c in cs[1..];
  }

  lemma {:induction false} CutCovers(t: Trio, cs: seq<Piece>, p: Place, x: nat)
    requires IsCut(t, cs, p) && p.o <= x < |t.o|
    ensures exists c :: c in cs && c.from.o <= x < c.to.o
    decreases |cs|
  {
    hide Stable, Unstable;
    if x < cs[0].to.o {
      assert cs[0] in cs;
    } else {
      CutCovers(t, cs[1..], cs[0].to, x);
    }
  }
}
