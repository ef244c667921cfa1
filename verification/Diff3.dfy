/** Three-way alignment of diff.go as a function of the three line lists: where the chunks lie,
    that they cut all three files completely, and what clean chunks contain. */
module Diff3 {
  import opened Common
  import opened EditGraph
  import opened Ranges
  import opened MyersDiff

  // ---------------------------------------------------------------------------
  // alignments
  // ---------------------------------------------------------------------------

  /** Three versions of a file, with the edits from the base to each of the other two. */
  datatype Trio = Trio(o: seq<Line>, a: seq<Line>, b: seq<Line>, toA: seq<Edit>, toB: seq<Edit>)

  /** s is a complete script from o to a, or holds no edits at all. */
  ghost predicate Aligns(o: seq<Line>, a: seq<Line>, s: seq<Edit>)
  {
    s == [] || IsScript(o, a, s)
  }

  ghost predicate Aligned(t: Trio)
  {
    Aligns(t.o, t.a, t.toA) && Aligns(t.o, t.b, t.toB)
  }

  /** The trio that diff.go works on. */
  function MyersTrio(o: seq<Line>, a: seq<Line>, b: seq<Line>): Trio
  {
    Trio(o, a, b, MyersScript(o, a), MyersScript(o, b))
  }

  lemma {:induction false} MyersTrioAligned(o: seq<Line>, a: seq<Line>, b: seq<Line>)
    ensures Aligned(MyersTrio(o, a, b))
  {
    hide MyersScript;
    IdenticalListsYieldNothing(o, a);
    IdenticalListsYieldNothing(o, b);
    if o != a {
      MyersScriptIsShortest(o, a);
    }
    if o != b {
      MyersScriptIsShortest(o, b);
    }
  }

  /** In a script, looking up an old line finds the one edit that pairs it, if there is one. */
  lemma {:induction false} LookupFindsPair(a: seq<Line>, b: seq<Line>, s: seq<Edit>, x: nat, y: nat, x': nat, y': nat,
      o: nat, n: nat)
    requires Leads(a, b, s, x, y, x', y')
    ensures Lookup(s, o) == Some(n) <==> EditEql(o, n) in s
    ensures EditEql(o, n) in s ==> x <= o && y <= n && Match(a, b, o, n)
    decreases |s|
  {
    if s != [] {
      var x1 := if s[0].EditIns? then x else x + 1;
      var y1 := if s[0].EditDel? then y else y + 1;
      LookupFindsPair(a, b, s[1..], x1, y1, x', y', o, n);
      assert EditEql(o, n) in s <==> s[0] == EditEql(o, n) || EditEql(o, n) in s[1..];
    }
  }

  lemma {:induction false} LookupMonotone(a: seq<Line>, b: seq<Line>, s: seq<Edit>, x: nat, y: nat, x': nat, y': nat,
      o: nat, p: nat)
    requires Leads(a, b, s, x, y, x', y') && o < p
    requires Lookup(s, o).Some? && Lookup(s, p).Some?
    ensures Lookup(s, o).value < Lookup(s, p).value
    decreases |s|
  {
    var x1 := if s[0].EditIns? then x else x + 1;
    var y1 := if s[0].EditDel? then y else y + 1;
    if s[0].EditEql? && s[0].oldLine >= o {
      LookupFindsPair(a, b, s[1..], x1, y1, x', y', p, Lookup(s, p).value);
    } else {
      LookupMonotone(a, b, s[1..], x1, y1, x', y', o, p);
    }
  }

  /** Partners are equal lines, and looking up finds exactly the equal edits. */
  lemma PartnerSound(o: seq<Line>, a: seq<Line>, s: seq<Edit>, x: nat)
    requires Aligns(o, a, s)
    ensures Lookup(s, x).Some? ==> Match(o, a, x, Lookup(s, x).value)
    ensures forall n: nat :: Lookup(s, x) == Some(n) <==> EditEql(x, n) in s
  {
    if s != [] {
      forall n: nat
        ensures Lookup(s, x) == Some(n) <==> EditEql(x, n) in s
      {
        LookupFindsPair(o, a, s, 0, 0, |o|, |a|, x, n);
      }
      if Lookup(s, x).Some? {
        LookupFindsPair(o, a, s, 0, 0, |o|, |a|, x, Lookup(s, x).value);
      }
    }
  }

  lemma PartnerMonotone(o: seq<Line>, a: seq<Line>, s: seq<Edit>, x: nat, y: nat)
    requires Aligns(o, a, s)
    requires x < y && Lookup(s, x).Some? && Lookup(s, y).Some?
    ensures Lookup(s, x).value < Lookup(s, y).value
  {
    LookupMonotone(o, a, s, 0, 0, |o|, |a|, x, y);
  }

  // ---------------------------------------------------------------------------
  // pieces
  // ---------------------------------------------------------------------------

  /** A position in the base, target and source files. */
  datatype Place = Place(o: nat, a: nat, b: nat)

  datatype Piece = Piece(clean: bool, from: Place, to: Place)

  function End(t: Trio): Place { Place(|t.o|, |t.a|, |t.b|) }

  predicate InRange(t: Trio, p: Place)
  {
    p.o <= |t.o| && p.a <= |t.a| && p.b <= |t.b|
  }

  /** Some file still has a line i lines after p. */
  predicate LinesLeft(t: Trio, p: Place, i: nat)
  {
    p.o + i < |t.o| || p.a + i < |t.a| || p.b + i < |t.b|
  }

  /** Line i after p is paired with line i after p in both other files. */
  predicate AllMatch(t: Trio, p: Place, i: nat)
  {
    Lookup(t.toA, p.o + i) == Some(p.a + i) && Lookup(t.toB, p.o + i) == Some(p.b + i)
  }

  lemma MatchInside(t: Trio, p: Place, i: nat)
    requires Aligned(t) && AllMatch(t, p, i)
    ensures p.o + i < |t.o| && p.a + i < |t.a| && p.b + i < |t.b|
    ensures t.o[p.o + i] == t.a[p.a + i] == t.b[p.b + i]
  {
    PartnerSound(t.o, t.a, t.toA, p.o + i);
    PartnerSound(t.o, t.b, t.toB, p.o + i);
  }

  /** How far all three files match from p on, given that they match up to i. */
  function RunLength(t: Trio, p: Place, i: nat): (r: nat)
    requires Aligned(t)
    ensures i <= r && (forall k :: i <= k < r ==> AllMatch(t, p, k))
    ensures LinesLeft(t, p, r) ==> !AllMatch(t, p, r)
    decreases |t.o| - p.o - i
  {
    if LinesLeft(t, p, i) && AllMatch(t, p, i) then
      MatchInside(t, p, i);
      RunLength(t, p, i + 1)
    else i
  }

  predicate Shared(t: Trio, x: nat)
  {
    Lookup(t.toA, x).Some? && Lookup(t.toB, x).Some?
  }

  /** The first base line from x on that has a partner in both other files. */
  function NextShared(t: Trio, x: nat): (r: nat)
    requires x <= |t.o|
    ensures x <= r <= |t.o|
    ensures r < |t.o| ==> Shared(t, r)
    ensures forall k :: x <= k < r ==> !Shared(t, k)
    decreases |t.o| - x
  {
    if x < |t.o| && !Shared(t, x) then NextShared(t, x + 1) else x
  }

  function Advance(p: Place, i: nat): Place { Place(p.o + i, p.a + i, p.b + i) }

  /** The next piece from p on, and whether it is the last one. */
  function NextPiece(t: Trio, p: Place): (r: (Piece, bool))
    requires Aligned(t) && InRange(t, p)
  {
    var i := RunLength(t, p, 0);
    if LinesLeft(t, p, i) && i == 0 then
      var x := NextShared(t, p.o);
      match (Lookup(t.toA, x), Lookup(t.toB, x))
      case (Some(y), Some(z)) => (Piece(false, p, Place(x, y, z)), false)
      case _ => (Piece(false, p, End(t)), true)
    else if LinesLeft(t, p, i) then
      (Piece(true, p, Advance(p, i)), false)
    else
      (Piece(i > 0, p, End(t)), true)
  }

  /** From old line x on, partners are at y or later. */
  ghost predicate From(s: seq<Edit>, x: nat, y: nat)
  {
    forall x': nat :: x' >= x && Lookup(s, x').Some? ==> Lookup(s, x').value >= y
  }

  /** Every later base line has its partners, if any, at or after p. */
  ghost predicate Settled(t: Trio, p: Place)
  {
    Aligned(t) && InRange(t, p) && From(t.toA, p.o, p.a) && From(t.toB, p.o, p.b)
  }

  function LinesAfter(t: Trio, p: Place): int
  {
    |t.o| - p.o + |t.a| - p.a + |t.b| - p.b
  }

  /** What a clean piece contains: the same lines in all three files. */
  ghost predicate SameLines(t: Trio, c: Piece)
  {
    && InRange(t, c.from) && InRange(t, c.to)
    && c.from.o <= c.to.o && c.from.a <= c.to.a && c.from.b <= c.to.b
    && (c.clean ==> t.o[c.from.o..c.to.o] == t.a[c.from.a..c.to.a] == t.b[c.from.b..c.to.b] && c.from.o < c.to.o)
  }

  lemma RunIsSame(t: Trio, p: Place, i: nat)
    requires Aligned(t) && InRange(t, p) && forall k :: 0 <= k < i ==> AllMatch(t, p, k)
    ensures InRange(t, Advance(p, i))
    ensures t.o[p.o..p.o + i] == t.a[p.a..p.a + i] == t.b[p.b..p.b + i]
  {
    hide AllMatch, Aligned;
    if i > 0 {
      MatchInside(t, p, i - 1);
    }
    var x, y, z := t.o[p.o..p.o + i], t.a[p.a..p.a + i], t.b[p.b..p.b + i];
    forall k | 0 <= k < i
      ensures x[k] == y[k] == z[k]
    {
      MatchInside(t, p, k);
    }
    assert x == y == z;
  }

  lemma PartnerAfter(o: seq<Line>, a: seq<Line>, s: seq<Edit>, x: nat, y: nat)
    requires Aligns(o, a, s) && Lookup(s, x) == Some(y)
    ensures From(s, x, y) && From(s, x + 1, y + 1)
  {
    forall x': nat | x' > x && Lookup(s, x').Some?
      ensures Lookup(s, x').value > y
    {
      PartnerMonotone(o, a, s, x, x');
    }
  }

  /** Each piece starts at p, is sound, makes progress, and keeps the position settled; the last one ends at the end. */
  lemma NextPieceSound(t: Trio, p: Place)
    requires Settled(t, p)
    ensures var (c, last) := NextPiece(t, p);
            && c.from == p && SameLines(t, c)
            && (if last then c.to == End(t) else Settled(t, c.to) && LinesAfter(t, c.to) < LinesAfter(t, p))
  {
    hide Lookup, Aligns, From, AllMatch;
    var i := RunLength(t, p, 0);
    RunIsSame(t, p, i);
    if LinesLeft(t, p, i) && i == 0 {
      SkipSound(t, p);
    } else if i > 0 {
      RunSettled(t, p, i);
    }
  }

  /** After a run the position is settled again. */
  lemma RunSettled(t: Trio, p: Place, i: nat)
    requires Settled(t, p) && i > 0 && AllMatch(t, p, i - 1)
    ensures Settled(t, Advance(p, i)) && LinesAfter(t, Advance(p, i)) < LinesAfter(t, p)
  {
    hide Lookup;
    MatchInside(t, p, i - 1);
    PartnerAfter(t.o, t.a, t.toA, p.o + i - 1, p.a + i - 1);
    PartnerAfter(t.o, t.b, t.toB, p.o + i - 1, p.b + i - 1);
  }

  lemma SkipSound(t: Trio, p: Place)
    requires Settled(t, p) && LinesLeft(t, p, 0) && !AllMatch(t, p, 0)
    ensures var x := NextShared(t, p.o);
            Shared(t, x) ==>
              var q := Place(x, Lookup(t.toA, x).value, Lookup(t.toB, x).value);
              Settled(t, q) && q.o >= p.o && q.a >= p.a && q.b >= p.b && LinesAfter(t, q) < LinesAfter(t, p)
  {
    var x := NextShared(t, p.o);
    if Shared(t, x) {
      PartnerSound(t.o, t.a, t.toA, x);
      PartnerSound(t.o, t.b, t.toB, x);
      PartnerAfter(t.o, t.a, t.toA, x, Lookup(t.toA, x).value);
      PartnerAfter(t.o, t.b, t.toB, x, Lookup(t.toB, x).value);
    }
  }

  /** All pieces from p on. */
  function Pieces(t: Trio, p: Place): seq<Piece>
    requires Settled(t, p)
    decreases LinesAfter(t, p)
  {
    NextPieceSound(t, p);
    var (c, last) := NextPiece(t, p);
    if last then [c] else [c] + Pieces(t, c.to)
  }

  const ORIGIN := Place(0, 0, 0)

  function AllPieces(t: Trio): seq<Piece>
    requires Aligned(t)
  {
    Pieces(t, ORIGIN)
  }

  /** The pieces follow each other without gap or overlap from p to q. */
  ghost predicate Consecutive(cs: seq<Piece>, p: Place, q: Place)
  {
    if cs == [] then p == q else cs[0].from == p && Consecutive(cs[1..], cs[0].to, q)
  }

  lemma {:induction false} PiecesCut(t: Trio, p: Place)
    requires Settled(t, p)
    ensures Consecutive(Pieces(t, p), p, End(t))
    ensures forall c :: c in Pieces(t, p) ==> SameLines(t, c)
    ensures |Pieces(t, p)| <= LinesAfter(t, p) + 1
    decreases LinesAfter(t, p)
  {
    NextPieceSound(t, p);
    var (c, last) := NextPiece(t, p);
    if !last {
      PiecesCut(t, c.to);
      assert Pieces(t, p)[1..] == Pieces(t, c.to);
    } else {
      assert Pieces(t, p)[1..] == [];
    }
  }

  /** The chunks cut base, target and source into consecutive ranges that cover each file fully,
      and every clean chunk has the same lines in all three. */
  lemma ChunksCutAllFiles(t: Trio)
    requires Aligned(t)
    ensures Consecutive(AllPieces(t), ORIGIN, End(t))
    ensures forall c :: c in AllPieces(t) ==> SameLines(t, c)
  {
    PiecesCut(t, ORIGIN);
  }
}
