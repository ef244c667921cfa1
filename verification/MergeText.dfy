/** The text of a three-way merge: how it relates to the merged lines, and two ways in which what is written is not
    what the lines say. */
module MergeTexts {
  import opened Common
  import opened EditGraph
  import opened Ranges
  import opened MyersDiff
  import opened Diff3
  import opened LineMerge
  import opened LineText
  import opened Diff3Iteration

  /** The last chunk of the merge has no lines, though others do. */
  predicate LastChunkEmpty(o: seq<Line>, a: seq<Line>, b: seq<Line>, k: Markers)
  {
    MyersTrioAligned(o, a, b);
    var t := MyersTrio(o, a, b);
    ChunksCutAllFiles(t);
    EndsEmpty(Merged(o, a, b, k), ResolvedEach(t, AllPieces(t), k))
  }

  lemma {:induction false} FlatIsAll(t: Trio, cs: seq<Piece>, k: Markers)
    requires forall c :: c in cs ==> SameLines(t, c)
    ensures Flat(ResolvedEach(t, cs, k)) == ResolveAll(t, cs, k)
    decreases |cs|
  {
    hide SameLines, Resolve;
    if cs != [] {
      assert forall c :: c in cs[1..] ==> c in cs;
      FlatIsAll(t, cs[1..], k);
      assert ResolvedEach(t, cs, k)[1..] == ResolvedEach(t, cs[1..], k);
    }
  }

  /** The text of the merge is that of a file with the merged lines, exactly if its last chunk has lines; otherwise
      there is one newline too many. */
  lemma MergedTextIsJoin(o: seq<Line>, a: seq<Line>, b: seq<Line>, k: Markers)
    ensures MergedText(o, a, b, k) == Join(Merged(o, a, b, k)) + if LastChunkEmpty(o, a, b, k) then "\n" else ""
  {
    hide MyersScript, Pieces, ResolvedEach, ResolveAll, SameLines, Text, Join;
    var t := MyersTrio(o, a, b);
    MyersTrioAligned(o, a, b);
    ChunksCutAllFiles(t);
    FlatIsAll(t, AllPieces(t), k);
    TextIsJoin([], ResolvedEach(t, AllPieces(t), k));
    assert [] + Flat(ResolvedEach(t, AllPieces(t), k)) == Merged(o, a, b, k);
  }

  // ---------------------------------------------------------------------------
  // files without a base
  // ---------------------------------------------------------------------------

  /** Two different files without a common base are one conflict. */
  lemma NoBaseConflicts(a: seq<Line>, b: seq<Line>, k: Markers)
    requires a != [] && b != [] && a != b
    ensures Merged([], a, b, k) == [k.target] + a + [k.base, k.separate] + b + [k.source]
    ensures Conflict([], a, b) && !LastChunkEmpty([], a, b, k)
  {
    hide MyersScript;
    var t := MyersTrio([], a, b);
    MyersTrioAligned([], a, b);
    ChunksCutAllFiles(t);
    PartnerSound([], a, t.toA, 0);
    assert !AllMatch(t, ORIGIN, 0) && !Shared(t, 0);
    var c := Piece(false, ORIGIN, End(t));
    assert AllPieces(t) == [c];
    assert SameLines(t, c) && BaseLines(t, c) == [] && TargetLines(t, c) == a && SourceLines(t, c) == b;
    assert [c][1..] == [] && ResolveAll(t, [c], k) == Resolve(t, c, k);
    assert c in AllPieces(t);
  }

  function Repeat(c: char, n: nat): string
  {
    seq(n, _ => c)
  }

  /** The start of the text when a file of one line meets an empty one. */
  lemma NoBaseText(line: Line, m: Markers) returns (rest: string)
    requires line != ""
    ensures MergedText([], [line], [""], m) == m.target + "\n" + line + "\n" + rest
  {
    hide Merged, MergedText, Conflict, Join, LastChunkEmpty;
    var a, b := [line], [""];
    assert a[0] != b[0];
    NoBaseConflicts(a, b, m);
    MergedTextIsJoin([], a, b, m);
    var lines := Merged([], a, b, m);
    assert lines[0] == m.target && lines[1] == line;
    JoinTwo(lines);
    rest := Join(lines[2..]);
    assert Join(lines) + "" == Join(lines);
  }

  /** A text that no reader gets whole whose first buffer has this size. */
  ghost predicate CutAt(o: seq<Line>, a: seq<Line>, b: seq<Line>, m: Markers, k: nat)
  {
    AtLineEnd(MergedText(o, a, b, m), k)
  }

  lemma CutForReader(text: string, size: nat -> nat)
    requires AtLineEnd(text, size(0))
    ensures !NoBufferEndsLine(text, size)
  {
    assert Offset(size, 1) == size(0) by { assert Offset(size, 0) == 0; }
  }

  /** For every size of a first buffer there are two files whose merge is not delivered as it should be: the first
      line of the target ends just where the buffer does. */
  lemma SomeMergeIsCut(k: nat, m: Markers)
    requires MarkersInLine(m) && k > |m.target| + 1
    ensures exists a, b :: OneLineEach(a) && OneLineEach(b) && CutAt([], a, b, m, k)
    ensures forall a, b, size: nat -> nat :: CutAt([], a, b, m, k) && size(0) == k
                                             ==> !NoBufferEndsLine(MergedText([], a, b, m), size)
  {
    hide MergedText, NoBufferEndsLine, AtLineEnd, OneLine, Offset;
    var line := Repeat('x', k - |m.target| - 1);
    OneLines(line);
    var rest := NoBaseText(line, m);
    CutAfter(m.target + [NEWLINE], line, rest);
    assert CutAt([], [line], [""], m, k);
    forall a, b, size: nat -> nat | CutAt([], a, b, m, k) && size(0) == k
      ensures !NoBufferEndsLine(MergedText([], a, b, m), size)
    {
      CutForReader(MergedText([], a, b, m), size);
    }
  }

  lemma OneLines(line: string)
    requires forall i :: 0 <= i < |line| ==> line[i] == 'x'
    ensures OneLine(line) && OneLine("")
  {
  }

  lemma JoinTwo(lines: seq<Line>)
    requires |lines| > 2
    ensures Join(lines) == lines[0] + [NEWLINE] + lines[1] + [NEWLINE] + Join(lines[2..])
  {
    assert lines[1..][0] == lines[1] && lines[1..][1..] == lines[2..];
    assert Join(lines) == lines[0] + [NEWLINE] + (lines[1] + [NEWLINE] + Join(lines[2..]));
  }

  lemma CutAfter(before: string, line: string, after: string)
    requires line != "" && OneLine(line)
    ensures AtLineEnd(before + line + [NEWLINE] + after, |before + line|)
  {
    var text := before + line + [NEWLINE] + after;
    var o := |before + line|;
    assert text[o] == NEWLINE && text[o - 1] == line[|line| - 1];
  }

  // ---------------------------------------------------------------------------
  // a last chunk without lines
  // ---------------------------------------------------------------------------

  /** A script that costs nothing pairs line by line. */
  lemma {:induction false} FreeScript(a: seq<Line>, b: seq<Line>, s: seq<Edit>, x: nat, y: nat, x': nat, y': nat)
    requires Leads(a, b, s, x, y, x', y') && Cost(s) == 0
    ensures x' == x + |s| && y' == y + |s|
    ensures forall i :: 0 <= i < |s| ==> s[i] == EditEql(x + i, y + i) && Match(a, b, x + i, y + i)
    decreases |s|
  {
    if s != [] {
      FreeScript(a, b, s[1..], x + 1, y + 1, x', y');
      forall i | 0 <= i < |s|
        ensures s[i] == EditEql(x + i, y + i) && Match(a, b, x + i, y + i)
      {
        if i > 0 {
          assert s[i] == s[1..][i - 1] == EditEql(x + 1 + (i - 1), y + 1 + (i - 1));
        }
      }
    }
  }

  lemma {:induction false} GapCosts(a: seq<Line>, b: seq<Line>, s: seq<Edit>, x: nat, y: nat, x': nat, y': nat)
    requires Leads(a, b, s, x, y, x', y')
    ensures x <= x' && y <= y' && Cost(s) >= Abs((x' - x) - (y' - y))
    decreases |s|
  {
    if s != [] {
      GapCosts(a, b, s[1..], if s[0].EditIns? then x else x + 1, if s[0].EditDel? then y else y + 1, x', y');
    }
  }

  /** One line more in front. */
  lemma PrependScript(x: Line, y: Line, u: Line, s: seq<Edit>)
    requires u != x && IsScript([x, y], [u, x, y], s) && Cost(s) <= 1
    ensures s == [EditIns(0), EditEql(0, 1), EditEql(1, 2)]
  {
    var o, a := [x, y], [u, x, y];
    assert s != [];
    if s[0].EditDel? {
      GapCosts(o, a, s[1..], 1, 0, 2, 3);
      assert false;
    } else {
      assert s[0] == EditIns(0);
      FreeScript(o, a, s[1..], 0, 1, 2, 3);
      assert s == [s[0]] + s[1..];
    }
  }

  /** The last line less. */
  lemma DropLastScript(x: Line, y: Line, s: seq<Edit>)
    requires x != y && IsScript([x, y], [x], s) && Cost(s) <= 1
    ensures s == [EditEql(0, 0), EditDel(1)]
  {
    var o, b := [x, y], [x];
    assert s != [];
    match s[0] {
      case EditIns(_) =>
        GapCosts(o, b, s[1..], 0, 1, 2, 1);
        assert false;
      case EditDel(_) =>
        FreeScript(o, b, s[1..], 1, 0, 2, 1);
        assert false;
      case EditEql(_, _) =>
        var rest := s[1..];
        assert Leads(o, b, rest, 1, 1, 2, 1) && Cost(rest) <= 1;
        assert rest != [] && rest[0] == EditDel(1);
        FreeScript(o, b, rest[1..], 2, 1, 2, 1);
        assert s == [s[0], s[1]] + s[2..];
    }
  }

  /** The target has a line more in front, the source the last line less. */
  lemma ScriptsOfExample(x: Line, y: Line, u: Line)
    requires x != y && u != x
    ensures MyersScript([x, y], [u, x, y]) == [EditIns(0), EditEql(0, 1), EditEql(1, 2)]
    ensures MyersScript([x, y], [x]) == [EditEql(0, 0), EditDel(1)]
  {
    hide MyersScript;
    var o, a, b := [x, y], [u, x, y], [x];
    assert o != a && o != b by { assert |o| != |a| && |o| != |b|; }
    MyersScriptIsShortest(o, a);
    MyersScriptIsShortest(o, b);
    ScriptsLead(x, y, u);
    PrependScript(x, y, u, MyersScript(o, a));
    DropLastScript(x, y, MyersScript(o, b));
  }

  lemma ScriptsLead(x: Line, y: Line, u: Line)
    ensures var p := [EditIns(0), EditEql(0, 1), EditEql(1, 2)];
            IsScript([x, y], [u, x, y], p) && Cost(p) == 1
    ensures var d := [EditEql(0, 0), EditDel(1)];
            IsScript([x, y], [x], d) && Cost(d) == 1
  {
    var p, d := [EditIns(0), EditEql(0, 1), EditEql(1, 2)], [EditEql(0, 0), EditDel(1)];
    assert p[1..] == [EditEql(0, 1), EditEql(1, 2)] && p[1..][1..] == [EditEql(1, 2)] && p[1..][1..][1..] == [];
    assert d[1..] == [EditDel(1)] && d[1..][1..] == [];
    assert Cost(p[1..]) == 0 by { assert Cost(p[1..][1..]) == 0; }
    assert Leads([x, y], [u, x, y], p[1..][1..], 1, 2, 2, 3);
    assert Leads([x, y], [u, x, y], p[1..], 0, 1, 2, 3);
  }

  /** A merge whose last chunk has no lines: the source dropped the last line of its file, which ended without a
      newline, and the target changed something else. The merged file ends with a newline. */
  lemma NewlineTooMany(x: Line, y: Line, u: Line, k: Markers)
    requires x != y && u != x
    ensures Merged([x, y], [u, x, y], [x], k) == [u, x] && !Conflict([x, y], [u, x, y], [x])
    ensures MergedText([x, y], [u, x, y], [x], k) == Join([u, x]) + "\n"
  {
    hide MyersScript;
    var o, a, b := [x, y], [u, x, y], [x];
    ScriptsOfExample(x, y, u);
    MergedTextIsJoin(o, a, b, k);
    var t := MyersTrio(o, a, b);
    MyersTrioAligned(o, a, b);
    ChunksCutAllFiles(t);
    ExamplePieces(t, x, y, u);
    ExampleResolved(t, x, y, u, k);
  }

  lemma ExampleResolved(t: Trio, x: Line, y: Line, u: Line, k: Markers)
    requires t.o == [x, y] && t.a == [u, x, y] && t.b == [x] && x != y && u != x
    requires forall c :: c in ExampleCut(t) ==> SameLines(t, c)
    ensures ResolveAll(t, ExampleCut(t), k) == [u, x] && !AnyConflict(t, ExampleCut(t))
    ensures ResolvedEach(t, ExampleCut(t), k) == [[u], [x], []]
  {
    var cs := ExampleCut(t);
    assert cs[0] in cs && cs[1] in cs && cs[2] in cs;
    assert Resolve(t, cs[0], k) == [u] && Resolve(t, cs[1], k) == [x] && Resolve(t, cs[2], k) == [];
    var r := ResolvedEach(t, cs, k);
    assert r == [[u], [x], []];
    FlatIsAll(t, cs, k);
    FlatOfThree([u], [x], []);
  }

  lemma FlatOfThree(p: seq<Line>, q: seq<Line>, r: seq<Line>)
    ensures Flat([p, q, r]) == p + q + r
  {
    assert [p, q, r][1..] == [q, r] && [q, r][1..] == [r] && [r][1..] == [];
    assert Flat([r]) == r;
    assert Flat([q, r]) == q + r;
  }

  function ExampleCut(t: Trio): seq<Piece>
  {
    var p, q := Place(0, 1, 0), Place(1, 2, 1);
    [Piece(false, ORIGIN, p), Piece(true, p, q), Piece(false, q, End(t))]
  }

  lemma ExampleLookups(toA: seq<Edit>, toB: seq<Edit>)
    requires toA == [EditIns(0), EditEql(0, 1), EditEql(1, 2)] && toB == [EditEql(0, 0), EditDel(1)]
    ensures Lookup(toA, 0) == Some(1) && Lookup(toA, 1) == Some(2) && Lookup(toA, 2) == None
    ensures Lookup(toB, 0) == Some(0) && Lookup(toB, 1) == None && Lookup(toB, 2) == None
  {
    assert toA[1..] == [EditEql(0, 1), EditEql(1, 2)] && toA[1..][1..] == [EditEql(1, 2)] && toA[1..][1..][1..] == [];
    assert toB[1..] == [EditDel(1)] && toB[1..][1..] == [];
    assert Lookup(toB[1..], 1) == None && Lookup(toB[1..], 2) == None;
    assert Lookup(toA[1..], 1) == Lookup(toA[1..][1..], 1) == Some(2);
    assert Lookup(toA[1..], 2) == Lookup(toA[1..][1..], 2) == None;
  }

  /** The lengths and the partners of the example. */
  ghost predicate IsExample(t: Trio)
  {
    && Aligned(t) && |t.o| == 2 && |t.a| == 3 && |t.b| == 1
    && Lookup(t.toA, 0) == Some(1) && Lookup(t.toA, 1) == Some(2) && Lookup(t.toA, 2) == None
    && Lookup(t.toB, 0) == Some(0) && Lookup(t.toB, 1) == None && Lookup(t.toB, 2) == None
  }

  lemma ExampleFirst(t: Trio)
    requires IsExample(t)
    ensures NextPiece(t, ORIGIN) == (Piece(false, ORIGIN, Place(0, 1, 0)), false)
  {
    hide Lookup, Aligned;
    assert !AllMatch(t, ORIGIN, 0) && Shared(t, 0);
  }

  lemma ExampleSecond(t: Trio)
    requires IsExample(t)
    ensures NextPiece(t, Place(0, 1, 0)) == (Piece(true, Place(0, 1, 0), Place(1, 2, 1)), false)
  {
    hide Lookup, Aligned;
    var p := Place(0, 1, 0);
    assert AllMatch(t, p, 0) && !AllMatch(t, p, 1);
    assert RunLength(t, p, 1) == 1;
  }

  lemma ExampleLast(t: Trio)
    requires IsExample(t)
    ensures NextPiece(t, Place(1, 2, 1)) == (Piece(false, Place(1, 2, 1), End(t)), true)
  {
    hide Lookup, Aligned;
    assert !AllMatch(t, Place(1, 2, 1), 0) && !Shared(t, 1);
    assert NextShared(t, 2) == 2;
  }

  lemma ExamplePieces(t: Trio, x: Line, y: Line, u: Line)
    requires t == Trio([x, y], [u, x, y], [x], [EditIns(0), EditEql(0, 1), EditEql(1, 2)], [EditEql(0, 0), EditDel(1)])
    requires Aligned(t)
    ensures AllPieces(t) == ExampleCut(t)
  {
    hide Lookup, Aligned, SameLines, From, NextPiece;
    ExampleLookups(t.toA, t.toB);
    OriginSettled(t);
    ExampleFirst(t);
    NextPieceSound(t, ORIGIN);
    ExampleSecond(t);
    NextPieceSound(t, Place(0, 1, 0));
    ExampleLast(t);
    var last := Pieces(t, Place(1, 2, 1));
    assert Pieces(t, Place(0, 1, 0)) == [Piece(true, Place(0, 1, 0), Place(1, 2, 1))] + last;
  }

  lemma OriginSettled(t: Trio)
    requires Aligned(t)
    ensures Settled(t, ORIGIN)
  {
  }
}
