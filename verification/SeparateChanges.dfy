/** What a three-way merge is for: changes of the two sides at different places of a file are both kept. For files whose
    lines can be told apart, this says when they are, and what the merge holds otherwise. */
module SeparateChanges {
  import opened Common
  import opened EditGraph
  import opened Ranges
  import opened Sorting
  import opened MyersDiff
  import opened Diff3
  import opened ChunkCuts
  import opened LineMerge

  predicate Disjoint(s: seq<Line>, t: seq<Line>)
  {
    forall l :: l in s ==> l !in t
  }

  // ---------------------------------------------------------------------------
  // the shortest script for one changed block
  // ---------------------------------------------------------------------------

  /** The old lines that a script pairs. */
  function Paired(s: seq<Edit>): set<nat>
  {
    set e | e in s && e.EditEql? :: e.oldLine
  }

  /** Each line that is not paired costs one edit. */
  lemma {:induction false} PairedCount(a: seq<Line>, b: seq<Line>, s: seq<Edit>, x: nat, y: nat, x': nat, y': nat)
    requires Leads(a, b, s, x, y, x', y')
    ensures x <= x' && y <= y' && 2 * |Paired(s)| + Cost(s) == (x' - x) + (y' - y)
    ensures forall i :: i in Paired(s) ==> x <= i < x'
    decreases |s|
  {
    if s != [] {
      var rest := s[1..];
      PairedCount(a, b, rest, if s[0].EditIns? then x else x + 1, if s[0].EditDel? then y else y + 1, x', y');
      if s[0].EditEql? {
        assert Paired(s) == {x} + Paired(rest) && x !in Paired(rest);
      } else {
        assert Paired(s) == Paired(rest);
      }
    }
  }

  lemma ScriptPairs(a: seq<Line>, b: seq<Line>, s: seq<Edit>)
    requires IsScript(a, b, s)
    ensures 2 * |Paired(s)| + Cost(s) == |a| + |b| && forall i :: i in Paired(s) ==> i < |a|
  {
    PairedCount(a, b, s, 0, 0, |a|, |b|);
  }

  /** The numbers below n outside a block. */
  function Outside(n: nat, i: nat, j: nat): set<nat>
  {
    if n == 0 then {} else Outside(n - 1, i, j) + if i <= n - 1 < j then {} else {n - 1}
  }

  lemma {:induction false} OutsideIs(n: nat, i: nat, j: nat)
    ensures forall k: nat :: k in Outside(n, i, j) <==> k < n && !(i <= k < j)
    decreases n
  {
    if n > 0 {
      OutsideIs(n - 1, i, j);
    }
  }

  lemma {:induction false} OutsideCount(n: nat, i: nat, j: nat)
    requires i <= j
    ensures |Outside(n, i, j)| == if n <= i then n else if n <= j then i else n - (j - i)
    decreases n
  {
    if n > 0 {
      OutsideIs(n - 1, i, j);
      OutsideCount(n - 1, i, j);
    }
  }

  lemma SameSize<T>(s: set<T>, t: set<T>)
    requires s <= t && |s| >= |t|
    ensures s == t
  {
    if s != t {
      var x :| x in t && x !in s;
      SubsetSize(s, t - {x});
    }
  }

  lemma {:induction false} SubsetSize<T>(s: set<T>, t: set<T>)
    requires s <= t
    ensures |s| <= |t|
    decreases s
  {
    if x :| x in s {
      SubsetSize(s - {x}, t - {x});
    }
  }

  /** A file in which the block old stands between two others, which may be empty. */
  function Around(pre: seq<Line>, block: seq<Line>, post: seq<Line>): seq<Line>
  {
    pre + block + post
  }

  /** Keeping both ends costs no more than the two blocks. */
  lemma BlockDistance(pre: seq<Line>, x: seq<Line>, u: seq<Line>, post: seq<Line>)
    requires x != [] || u != []
    ensures Distance(Around(pre, x, post), Around(pre, u, post)) <= |x| + |u|
  {
    var a, b := Around(pre, x, post), Around(pre, u, post);
    var r := Range(|pre|, |pre| + |x|, |pre|, |pre| + |u|);
    assert a[0..|pre|] == pre == b[0..|pre|];
    assert a[r.delEnd..|a|] == post == b[r.insEnd..|b|];
    assert [r][1..] == [];
    assert Chain(a, b, 0, 0, [r], |a|, |b|);
    EditsLead(a, b, 0, 0, [r]);
    assert RangesCost([r]) == |x| + |u|;
    ScriptCostsAtLeastDistance(a, b, EditsOf(a, b, 0, 0, [r]));
  }

  /** Where a line of the old file is in the new one, when a block is replaced. */
  function NewPlace(pre: nat, x: nat, u: nat, i: nat): Option<nat>
  {
    if i < pre then Some(i) else if i < pre + x then None else Some(i - x + u)
  }

  lemma NewInBlock(pre: seq<Line>, u: seq<Line>, post: seq<Line>, j: nat)
    requires |pre| <= j < |pre| + |u|
    ensures Around(pre, u, post)[j] in u
  {
    assert Around(pre, u, post)[j] == u[j - |pre|];
  }

  /** Equal lines are at corresponding places. */
  lemma EqualIsSame(pre: seq<Line>, x: seq<Line>, u: seq<Line>, post: seq<Line>, i: nat, j: nat)
    requires Distinct(Around(pre, x, post)) && Disjoint(u, Around(pre, x, post))
    requires Match(Around(pre, x, post), Around(pre, u, post), i, j)
    ensures NewPlace(|pre|, |x|, |u|, i) == Some(j)
  {
    var a, b := Around(pre, x, post), Around(pre, u, post);
    assert a[i] in a;
    if |pre| <= j < |pre| + |u| {
      NewInBlock(pre, u, post, j);
    } else {
      var k := if j < |pre| then j else j - |u| + |x|;
      assert b[j] == a[k];
    }
  }

  lemma BlockDiffers(pre: seq<Line>, x: seq<Line>, u: seq<Line>, post: seq<Line>)
    requires (x != [] || u != []) && Disjoint(u, Around(pre, x, post))
    ensures Around(pre, x, post) != Around(pre, u, post)
  {
    var a, b := Around(pre, x, post), Around(pre, u, post);
    if |x| == |u| {
      assert a[|pre|] == x[0] && b[|pre|] == u[0];
      assert x[0] in a && u[0] in u;
    }
  }

  /** The shortest script pairs every line outside the block with itself, and none inside. */
  lemma BlockPairs(pre: seq<Line>, x: seq<Line>, u: seq<Line>, post: seq<Line>)
    requires Distinct(Around(pre, x, post)) && Disjoint(u, Around(pre, x, post)) && (x != [] || u != [])
    ensures var a, b := Around(pre, x, post), Around(pre, u, post);
            forall i: nat :: i < |a| ==> Lookup(MyersScript(a, b), i) == NewPlace(|pre|, |x|, |u|, i)
  {
    hide MyersScript, Lookup, Around, Distinct, Disjoint, Paired, IsScript;
    var a, b := Around(pre, x, post), Around(pre, u, post);
    var s := MyersScript(a, b);
    AroundLength(pre, x, post);
    AroundLength(pre, u, post);
    BlockDiffers(pre, x, u, post);
    MyersScriptIsShortest(a, b);
    BlockDistance(pre, x, u, post);
    ScriptPairs(a, b, s);
    forall i: nat | i < |a|
      ensures (i in Paired(s) <==> Lookup(s, i).Some?)
      ensures Lookup(s, i).Some? ==> Lookup(s, i) == NewPlace(|pre|, |x|, |u|, i)
    {
      PairedOrNot(pre, x, u, post, s, i);
    }
    AllOutsidePaired(s, |a|, |pre|, |pre| + |x|);
  }

  /** When as many lines are paired as there are outside the block, and none inside, then all outside are. */
  lemma AllOutsidePaired(s: seq<Edit>, n: nat, i: nat, j: nat)
    requires i <= j <= n && |Paired(s)| >= n - (j - i)
    requires forall k: nat :: k in Paired(s) ==> k < n && !(i <= k < j)
    ensures forall k: nat :: k < n && !(i <= k < j) ==> k in Paired(s)
  {
    hide Paired, Outside;
    OutsideIs(n, i, j);
    OutsideCount(n, i, j);
    SameSize(Paired(s), Outside(n, i, j));
  }

  lemma AroundLength(pre: seq<Line>, x: seq<Line>, post: seq<Line>)
    ensures |Around(pre, x, post)| == |pre| + |x| + |post|
  {
  }

  lemma PairedOrNot(pre: seq<Line>, x: seq<Line>, u: seq<Line>, post: seq<Line>, s: seq<Edit>, i: nat)
    requires Distinct(Around(pre, x, post)) && Disjoint(u, Around(pre, x, post))
    requires IsScript(Around(pre, x, post), Around(pre, u, post), s)
    ensures i in Paired(s) <==> Lookup(s, i).Some?
    ensures Lookup(s, i).Some? ==> Lookup(s, i) == NewPlace(|pre|, |x|, |u|, i)
  {
    hide Lookup, Around, Distinct, Disjoint, IsScript;
    var a, b := Around(pre, x, post), Around(pre, u, post);
    PartnerSound(a, b, s, i);
    if i in Paired(s) {
      var e :| e in s && e.EditEql? && e.oldLine == i;
      assert e == EditEql(i, e.newLine);
    }
    if Lookup(s, i).Some? {
      var j := Lookup(s, i).value;
      assert EditEql(i, j) in s;
      EqualIsSame(pre, x, u, post, i, j);
    }
  }

  // ---------------------------------------------------------------------------
  // two changed blocks
  // ---------------------------------------------------------------------------

  /** Two blocks with lines before, between and after them. */
  function File(p: seq<Line>, x: seq<Line>, m: seq<Line>, y: seq<Line>, s: seq<Line>): seq<Line>
  {
    p + x + m + y + s
  }

  /** The target replaces block x, the source block y, both by lines that the base does not have. */
  ghost predicate TwoChanges(p: seq<Line>, x: seq<Line>, u: seq<Line>, m: seq<Line>, y: seq<Line>, v: seq<Line>,
      s: seq<Line>)
  {
    var o := File(p, x, m, y, s);
    Distinct(o) && Disjoint(u, o) && Disjoint(v, o) && (x != [] || u != []) && (y != [] || v != [])
  }

  function TrioOf(p: seq<Line>, x: seq<Line>, u: seq<Line>, m: seq<Line>, y: seq<Line>, v: seq<Line>,
      s: seq<Line>): Trio
  {
    MyersTrio(File(p, x, m, y, s), File(p, u, m, y, s), File(p, x, m, v, s))
  }

  /** Which base lines have partners, and where. */
  lemma TwoChangesPair(p: seq<Line>, x: seq<Line>, u: seq<Line>, m: seq<Line>, y: seq<Line>, v: seq<Line>, s: seq<Line>)
    requires TwoChanges(p, x, u, m, y, v, s)
    ensures var t := TrioOf(p, x, u, m, y, v, s);
            && (forall i: nat :: i < |t.o| ==> Lookup(t.toA, i) == NewPlace(|p|, |x|, |u|, i))
            && (forall i: nat :: i < |t.o| ==> Lookup(t.toB, i) == NewPlace(|p| + |x| + |m|, |y|, |v|, i))
  {
    hide MyersScript, Distinct, Disjoint, Lookup;
    assert File(p, x, m, y, s) == Around(p, x, m + y + s) == Around(p + x + m, y, s);
    assert File(p, u, m, y, s) == Around(p, u, m + y + s);
    assert File(p, x, m, v, s) == Around(p + x + m, v, s);
    BlockPairs(p, x, u, m + y + s);
    BlockPairs(p + x + m, y, v, s);
  }

  /** The partners of the base lines, for blocks of these lengths. */
  ghost predicate PairsOf(t: Trio, p: nat, x: nat, u: nat, m: nat, y: nat, v: nat, s: nat)
  {
    && |t.o| == p + x + m + y + s && |t.a| == p + u + m + y + s && |t.b| == p + x + m + v + s
    && (forall i: nat :: i < |t.o| ==> Lookup(t.toA, i) == NewPlace(p, x, u, i))
    && (forall i: nat :: i < |t.o| ==> Lookup(t.toB, i) == NewPlace(p + x + m, y, v, i))
  }

  function Between(clean: bool, from: Place, to: Place): seq<Piece>
  {
    if from == to then [] else [Piece(clean, from, to)]
  }

  /** The pieces when lines stand between the blocks, and when none do. */
  function SeparateCut(p: nat, x: nat, u: nat, m: nat, y: nat, v: nat, s: nat): seq<Piece>
  {
    var p1, p2, p3 := Place(p, p, p), Place(p + x, p + u, p + x), Place(p + x + m, p + u + m, p + x + m);
    var p4, p5 := Place(p3.o + y, p3.a + y, p3.b + v), Place(p3.o + y + s, p3.a + y + s, p3.b + v + s);
    Between(true, ORIGIN, p1) + ([Piece(false, p1, p2)] + ([Piece(true, p2, p3)] + ([Piece(false, p3, p4)]
                                                                                    + Between(true, p4, p5))))
  }

  function AdjacentCut(p: nat, x: nat, u: nat, y: nat, v: nat, s: nat): seq<Piece>
  {
    var p1, p2 := Place(p, p, p), Place(p + x + y, p + u + y, p + x + v);
    var p3 := Place(p2.o + s, p2.a + s, p2.b + s);
    Between(true, ORIGIN, p1) + ([Piece(false, p1, p2)] + Between(true, p2, p3))
  }

  lemma CutFromPiece(t: Trio, c: Piece, cs: seq<Piece>)
    requires (Stable(t, c) || Unstable(t, c)) && c.from != c.to
    requires if cs == [] then c.to == End(t) else IsCut(t, cs, c.to) && c.clean != cs[0].clean
    ensures IsCut(t, [c] + cs, c.from)
  {
    hide Stable, Unstable;
    assert ([c] + cs)[1..] == cs;
  }

  lemma SeparateIsCut(t: Trio, p: nat, x: nat, u: nat, m: nat, y: nat, v: nat, s: nat)
    requires PairsOf(t, p, x, u, m, y, v, s) && x + u > 0 && y + v > 0 && m > 0
    ensures IsCut(t, SeparateCut(p, x, u, m, y, v, s), ORIGIN)
  {
    hide Lookup, IsCut;
    var p1, p2, p3 := Place(p, p, p), Place(p + x, p + u, p + x), Place(p + x + m, p + u + m, p + x + m);
    var p4, p5 := Place(p3.o + y, p3.a + y, p3.b + v), End(t);
    var last := Between(true, p4, p5);
    if s > 0 {
      CutFromPiece(t, Piece(true, p4, p5), []);
      assert [Piece(true, p4, p5)] + [] == last;
    }
    CutFromPiece(t, Piece(false, p3, p4), last);
    var c3 := [Piece(false, p3, p4)] + last;
    CutFromPiece(t, Piece(true, p2, p3), c3);
    var c2 := [Piece(true, p2, p3)] + c3;
    CutFromPiece(t, Piece(false, p1, p2), c2);
    var c1 := [Piece(false, p1, p2)] + c2;
    if p > 0 {
      CutFromPiece(t, Piece(true, ORIGIN, p1), c1);
    } else {
      assert [] + c1 == c1;
    }
  }

  lemma AdjacentIsCut(t: Trio, p: nat, x: nat, u: nat, y: nat, v: nat, s: nat)
    requires PairsOf(t, p, x, u, 0, y, v, s) && x + u > 0 && y + v > 0
    ensures IsCut(t, AdjacentCut(p, x, u, y, v, s), ORIGIN)
  {
    hide Lookup, IsCut;
    var p1, p2, p3 := Place(p, p, p), Place(p + x + y, p + u + y, p + x + v), End(t);
    var last := Between(true, p2, p3);
    if s > 0 {
      CutFromPiece(t, Piece(true, p2, p3), []);
      assert [Piece(true, p2, p3)] + [] == last;
    }
    CutFromPiece(t, Piece(false, p1, p2), last);
    var c1 := [Piece(false, p1, p2)] + last;
    if p > 0 {
      CutFromPiece(t, Piece(true, ORIGIN, p1), c1);
    } else {
      assert [] + c1 == c1;
    }
  }

  // ---------------------------------------------------------------------------
  // what the merge holds
  // ---------------------------------------------------------------------------

  lemma FileSlices(p: seq<Line>, x: seq<Line>, m: seq<Line>, y: seq<Line>, s: seq<Line>)
    ensures var f := File(p, x, m, y, s);
            var i, j, k, l := |p|, |p| + |x|, |p| + |x| + |m|, |p| + |x| + |m| + |y|;
            && |f| == l + |s| && f[0..i] == p && f[i..j] == x && f[j..k] == m && f[k..l] == y && f[l..l + |s|] == s
            && f[i..l] == x + m + y
  {
  }

  lemma FileFromEnd(p: seq<Line>, x: seq<Line>, m: seq<Line>, y: seq<Line>, s: seq<Line>)
    ensures File(p, x, m, y, s) == p + (x + (m + (y + (s + []))))
  {
  }

  /** The pieces resolve to these lines, and hold a conflict or none. */
  ghost predicate Gives(t: Trio, cs: seq<Piece>, k: Markers, lines: seq<Line>, conflict: bool)
  {
    && (forall c :: c in cs ==> SameLines(t, c))
    && ResolveAll(t, cs, k) == lines && AnyConflict(t, cs) == conflict
  }

  lemma GivesNothing(t: Trio, k: Markers)
    ensures Gives(t, [], k, [], false)
  {
  }

  lemma GivesMore(t: Trio, c: Piece, cs: seq<Piece>, k: Markers, lines: seq<Line>, conflict: bool)
    requires Gives(t, cs, k, lines, conflict) && SameLines(t, c)
    ensures Gives(t, [c] + cs, k, Resolve(t, c, k) + lines, Conflicts(t, c) || conflict)
  {
    hide SameLines, Resolve, Conflicts;
    var all := [c] + cs;
    assert all[0] == c && all[1..] == cs;
    assert forall d :: d in all <==> d == c || d in cs;
  }

  /** A clean piece, if any, gives the lines of the base. */
  lemma GivesClean(t: Trio, from: Place, to: Place, cs: seq<Piece>, k: Markers, lines: seq<Line>, conflict: bool)
    requires Gives(t, cs, k, lines, conflict) && from.o <= to.o <= |t.o| && (from.o == to.o ==> from == to)
    requires from != to ==> SameLines(t, Piece(true, from, to))
    ensures Gives(t, Between(true, from, to) + cs, k, t.o[from.o..to.o] + lines, conflict)
  {
    hide Gives, SameLines;
    if from == to {
      assert Between(true, from, to) + cs == cs && t.o[from.o..to.o] + lines == lines;
    } else {
      GivesMore(t, Piece(true, from, to), cs, k, lines, conflict);
    }
  }

  /** What only the target changed gives its lines, what only the source changed those of the source. */
  lemma GivesOneSide(t: Trio, c: Piece, cs: seq<Piece>, k: Markers, lines: seq<Line>, conflict: bool)
    requires Gives(t, cs, k, lines, conflict) && SameLines(t, c) && !c.clean
    ensures BaseLines(t, c) == SourceLines(t, c) ==> Gives(t, [c] + cs, k, TargetLines(t, c) + lines, conflict)
    ensures BaseLines(t, c) == TargetLines(t, c) ==> Gives(t, [c] + cs, k, SourceLines(t, c) + lines, conflict)
  {
    hide Gives, SameLines;
    GivesMore(t, c, cs, k, lines, conflict);
  }

  /** What both sides changed differently gives everything between markers. */
  lemma GivesMarkings(t: Trio, c: Piece, cs: seq<Piece>, k: Markers, lines: seq<Line>, conflict: bool)
    requires Gives(t, cs, k, lines, conflict) && SameLines(t, c) && !c.clean
    requires BaseLines(t, c) != SourceLines(t, c) && BaseLines(t, c) != TargetLines(t, c)
    requires TargetLines(t, c) != SourceLines(t, c)
    ensures Gives(t, [c] + cs, k, Markings(k, TargetLines(t, c), BaseLines(t, c), SourceLines(t, c)) + lines, true)
  {
    hide Gives, SameLines;
    GivesMore(t, c, cs, k, lines, conflict);
  }

  /** The one conflict that both changes share when nothing stands between them. */
  function Markings(k: Markers, target: seq<Line>, base: seq<Line>, source: seq<Line>): seq<Line>
  {
    [k.target] + target + [k.base] + base + [k.separate] + source + [k.source]
  }

  lemma SeparateGives(p: seq<Line>, x: seq<Line>, u: seq<Line>, m: seq<Line>, y: seq<Line>, v: seq<Line>,
      s: seq<Line>, k: Markers)
    requires var cs := SeparateCut(|p|, |x|, |u|, |m|, |y|, |v|, |s|);
             forall c :: c in cs ==> SameLines(TrioOf(p, x, u, m, y, v, s), c)
    requires m != []
    ensures var t, cs := TrioOf(p, x, u, m, y, v, s), SeparateCut(|p|, |x|, |u|, |m|, |y|, |v|, |s|);
            Gives(t, cs, k, File(p, u, m, v, s), false)
  {
    hide MyersScript, SameLines, File, Gives, Resolve, Conflicts;
    var t := TrioOf(p, x, u, m, y, v, s);
    FileSlices(p, x, m, y, s);
    FileSlices(p, u, m, y, s);
    FileSlices(p, x, m, v, s);
    var p1, p2 := Place(|p|, |p|, |p|), Place(|p| + |x|, |p| + |u|, |p| + |x|);
    var p3 := Place(p2.o + |m|, p2.a + |m|, p2.b + |m|);
    var p4 := Place(p3.o + |y|, p3.a + |y|, p3.b + |v|);
    var p5 := Place(p4.o + |s|, p4.a + |s|, p4.b + |s|);
    var c4 := Between(true, p4, p5);
    var c3 := [Piece(false, p3, p4)] + c4;
    var c2 := [Piece(true, p2, p3)] + c3;
    var c1 := [Piece(false, p1, p2)] + c2;
    GivesNothing(t, k);
    GivesClean(t, p4, p5, [], k, [], false);
    assert c4 + [] == c4;
    GivesOneSide(t, Piece(false, p3, p4), c4, k, s + [], false);
    GivesClean(t, p2, p3, c3, k, v + (s + []), false);
    GivesOneSide(t, Piece(false, p1, p2), c2, k, m + (v + (s + [])), false);
    GivesClean(t, ORIGIN, p1, c1, k, u + (m + (v + (s + []))), false);
    FileFromEnd(p, u, m, v, s);
  }

  lemma AdjacentGives(p: seq<Line>, x: seq<Line>, u: seq<Line>, y: seq<Line>, v: seq<Line>, s: seq<Line>, k: Markers)
    requires var cs := AdjacentCut(|p|, |x|, |u|, |y|, |v|, |s|);
             forall c :: c in cs ==> SameLines(TrioOf(p, x, u, [], y, v, s), c)
    requires x + y != u + y && x + y != x + v && u + y != x + v
    ensures var t, cs := TrioOf(p, x, u, [], y, v, s), AdjacentCut(|p|, |x|, |u|, |y|, |v|, |s|);
            Gives(t, cs, k, p + (Markings(k, u + y, x + y, x + v) + s), true)
  {
    hide MyersScript, SameLines, File, Gives, Resolve, Conflicts, Markings, ResolveAll, AnyConflict;
    var t := TrioOf(p, x, u, [], y, v, s);
    AdjacentSlices(p, x, y, s);
    AdjacentSlices(p, u, y, s);
    AdjacentSlices(p, x, v, s);
    var p1 := Place(|p|, |p|, |p|);
    var p2 := Place(|p| + |x| + |y|, |p| + |u| + |y|, |p| + |x| + |v|);
    var p3 := Place(p2.o + |s|, p2.a + |s|, p2.b + |s|);
    var c2 := Between(true, p2, p3);
    var c1 := [Piece(false, p1, p2)] + c2;
    GivesNothing(t, k);
    GivesClean(t, p2, p3, [], k, [], false);
    assert c2 + [] == c2 && s + [] == s;
    GivesMarkings(t, Piece(false, p1, p2), c2, k, s, false);
    GivesClean(t, ORIGIN, p1, c1, k, Markings(k, u + y, x + y, x + v) + s, true);
  }

  lemma AdjacentSlices(p: seq<Line>, x: seq<Line>, y: seq<Line>, s: seq<Line>)
    ensures var f, i, l := File(p, x, [], y, s), |p|, |p| + |x| + |y|;
            |f| == l + |s| && f[0..i] == p && f[i..l] == x + y && f[l..l + |s|] == s
  {
  }

  /** Three files are alike when the blocks are, and only then. */
  lemma FilesDiffer(p: seq<Line>, x: seq<Line>, u: seq<Line>, y: seq<Line>, v: seq<Line>, s: seq<Line>)
    requires TwoChanges(p, x, u, [], y, v, s) && File(p, u, [], y, s) != File(p, x, [], v, s)
    ensures x + y != u + y && x + y != x + v && u + y != x + v
  {
    hide Distinct, Disjoint;
    assert File(p, x, [], y, s) == p + (x + y) + s == Around(p, x, y + s) == Around(p + x, y, s);
    assert File(p, u, [], y, s) == p + (u + y) + s == Around(p, u, y + s);
    assert File(p, x, [], v, s) == p + (x + v) + s == Around(p + x, v, s);
    BlockDiffers(p, x, u, y + s);
    BlockDiffers(p + x, y, v, s);
  }

  /** Both changes are kept when at least one line stands between them. When none does, they are one conflict, unless
      both sides have become the same file. */
  lemma SeparateChangesMerge(p: seq<Line>, x: seq<Line>, u: seq<Line>, m: seq<Line>, y: seq<Line>, v: seq<Line>,
      s: seq<Line>, k: Markers)
    requires TwoChanges(p, x, u, m, y, v, s)
    ensures var o, a, b := File(p, x, m, y, s), File(p, u, m, y, s), File(p, x, m, v, s);
            && (Conflict(o, a, b) <==> m == [] && a != b)
            && Merged(o, a, b, k) == if m != [] then File(p, u, m, v, s)
                                     else if a == b then a
                                     else p + (Markings(k, u + y, x + y, x + v) + s)
  {
    hide MyersScript, TwoChanges, File, Gives, SeparateCut, AdjacentCut, Aligned, IsCut, SameLines, Markings, Lookup;
    var o, a, b := File(p, x, m, y, s), File(p, u, m, y, s), File(p, x, m, v, s);
    var t := TrioOf(p, x, u, m, y, v, s);
    MyersTrioAligned(o, a, b);
    ChunksCutAllFiles(t);
    BlocksPair(p, x, u, m, y, v, s);
    if m != [] {
      var cs := SeparateCut(|p|, |x|, |u|, |m|, |y|, |v|, |s|);
      SeparateIsCut(t, |p|, |x|, |u|, |m|, |y|, |v|, |s|);
      ChunksAreTheCut(t, cs);
      SeparateGives(p, x, u, m, y, v, s, k);
      GivesMerge(t, cs, k, File(p, u, m, v, s), false);
    } else if a == b {
      MergeTakesCommonChange(o, a, k);
    } else {
      FilesDiffer(p, x, u, y, v, s);
      var cs := AdjacentCut(|p|, |x|, |u|, |y|, |v|, |s|);
      AdjacentIsCut(t, |p|, |x|, |u|, |y|, |v|, |s|);
      ChunksAreTheCut(t, cs);
      AdjacentGives(p, x, u, y, v, s, k);
      GivesMerge(t, cs, k, p + (Markings(k, u + y, x + y, x + v) + s), true);
    }
  }

  lemma BlocksPair(p: seq<Line>, x: seq<Line>, u: seq<Line>, m: seq<Line>, y: seq<Line>, v: seq<Line>, s: seq<Line>)
    requires TwoChanges(p, x, u, m, y, v, s)
    ensures PairsOf(TrioOf(p, x, u, m, y, v, s), |p|, |x|, |u|, |m|, |y|, |v|, |s|)
    ensures |x| + |u| > 0 && |y| + |v| > 0
  {
    hide MyersScript, Lookup, Distinct, Disjoint;
    TwoChangesPair(p, x, u, m, y, v, s);
  }

  lemma GivesMerge(t: Trio, cs: seq<Piece>, k: Markers, lines: seq<Line>, conflict: bool)
    requires Aligned(t) && cs == AllPieces(t) && Gives(t, cs, k, lines, conflict)
    ensures MergedOf(t, k) == lines && ConflictOf(t) == conflict
  {
    hide Aligned;
  }
}
