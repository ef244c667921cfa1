/** The edit script that diff.go produces, as a function of the two line lists: cut boxes recursively,
    join neighbouring ranges, spell out the edits. It is a complete script of least cost. */
module Ranges {
  import opened Common
  import opened EditGraph
  import opened Cuts
  import opened Frontier

  datatype Range = Range(delStart: int, delEnd: int, insStart: int, insEnd: int)
  datatype Box = Box(i: int, n: int, j: int, m: int)

  predicate InBounds(a: seq<Line>, b: seq<Line>, x: Box)
  {
    0 <= x.i && 0 <= x.n && x.i + x.n <= |a| && 0 <= x.j && 0 <= x.m && x.j + x.m <= |b|
  }

  function OldLines(a: seq<Line>, b: seq<Line>, x: Box): (r: seq<Line>)
    requires InBounds(a, b, x)
    ensures |r| == x.n
  {
    a[x.i..x.i + x.n]
  }

  function NewLines(a: seq<Line>, b: seq<Line>, x: Box): (r: seq<Line>)
    requires InBounds(a, b, x)
    ensures |r| == x.m
  {
    b[x.j..x.j + x.m]
  }

  function Whole(a: seq<Line>, b: seq<Line>): Box { Box(0, |a|, 0, |b|) }

  /** The box before the cut, and the box after it. */
  function Left(x: Box, c: Cut): Box
    requires c.Split?
  {
    Box(x.i, c.lx, x.j, c.ly)
  }

  function Right(x: Box, c: Cut): Box
    requires c.Split?
  {
    Box(x.i + c.rx, x.n - c.rx, x.j + c.ry, x.m - c.ry)
  }

  /** What is left of a box when one side is a prefix of the other. */
  function Trim(x: Box): Box
  {
    var s := Min(x.n, x.m);
    Box(x.i + s, x.n - s, x.j + s, x.m - s)
  }

  function RangeOf(x: Box): Range { Range(x.i, x.i + x.n, x.j, x.j + x.m) }

  lemma CutBoxes(a: seq<Line>, b: seq<Line>, x: Box)
    requires InBounds(a, b, x) && x.n > 0 && x.m > 0
    ensures var c := TheCut(OldLines(a, b, x), NewLines(a, b, x));
            match c
            case Split(_, _, _, _) =>
              && InBounds(a, b, Left(x, c)) && InBounds(a, b, Right(x, c))
              && Left(x, c).n + Left(x, c).m < x.n + x.m && Right(x, c).n + Right(x, c).m < x.n + x.m
              && Left(x, c).n + Left(x, c).m + Right(x, c).n + Right(x, c).m <= x.n + x.m
            case Tail => x.n != x.m
  {
    TheCutIsGood(OldLines(a, b, x), NewLines(a, b, x));
  }

  /** The differing ranges of a box, in order. */
  function Leaves(a: seq<Line>, b: seq<Line>, x: Box): seq<Range>
    requires InBounds(a, b, x)
    decreases x.n + x.m
  {
    if x.n > 0 && x.m > 0 then
      CutBoxes(a, b, x);
      var c := TheCut(OldLines(a, b, x), NewLines(a, b, x));
      if c.Split? then Leaves(a, b, Left(x, c)) + Leaves(a, b, Right(x, c)) else [RangeOf(Trim(x))]
    else if x.n + x.m != 0 then [RangeOf(x)]
    else []
  }

  /** Join each range with the next one when they touch. */
  function Coalesce(pending: Option<Range>, rs: seq<Range>): seq<Range>
    decreases |rs|
  {
    match pending
    case None => if rs == [] then [] else Coalesce(Some(rs[0]), rs[1..])
    case Some(p) =>
      if rs == [] then [p]
      else if p.delEnd == rs[0].delStart || p.insEnd == rs[0].insStart then
        Coalesce(Some(Range(p.delStart, rs[0].delEnd, p.insStart, rs[0].insEnd)), rs[1..])
      else [p] + Coalesce(Some(rs[0]), rs[1..])
  }

  function MyersRanges(a: seq<Line>, b: seq<Line>): seq<Range>
  {
    Coalesce(None, Leaves(a, b, Whole(a, b)))
  }

  function Eqls(x: nat, y: nat, x': int, y': int): seq<Edit>
    decreases x' - x
  {
    if x < x' && y < y' then [EditEql(x, y)] + Eqls(x + 1, y + 1, x', y') else []
  }

  function Dels(x: nat, x': int): seq<Edit>
    decreases x' - x
  {
    if x < x' then [EditDel(x)] + Dels(x + 1, x') else []
  }

  function Inss(y: nat, y': int): seq<Edit>
    decreases y' - y
  {
    if y < y' then [EditIns(y)] + Inss(y + 1, y') else []
  }

  predicate Sound(a: seq<Line>, b: seq<Line>, r: Range)
  {
    && 0 <= r.delStart <= r.delEnd <= |a| && 0 <= r.insStart <= r.insEnd <= |b|
    && r.delStart + r.insStart < r.delEnd + r.insEnd
  }

  /** The equal lines from (x, y) up to the range, its deletions, its insertions. */
  function RangeEdits(x: nat, y: nat, r: Range): seq<Edit>
    requires r.delStart >= 0 && r.insStart >= 0
  {
    Eqls(x, y, r.delStart, r.insStart) + Dels(r.delStart, r.delEnd) + Inss(r.insStart, r.insEnd)
  }

  /** All edits from (x, y) to the end of both lists. */
  function EditsOf(a: seq<Line>, b: seq<Line>, x: nat, y: nat, rs: seq<Range>): seq<Edit>
    requires forall r :: r in rs ==> Sound(a, b, r)
    decreases |rs|
  {
    if rs == [] then Eqls(x, y, |a|, |b|) else
    assert rs[0] in rs;
    assert Sound(a, b, rs[0]);
    RangeEdits(x, y, rs[0]) + EditsOf(a, b, rs[0].delEnd, rs[0].insEnd, rs[1..])
  }

  // ---------------------------------------------------------------------------
  // chains of ranges
  // ---------------------------------------------------------------------------

  /** Equally many equal lines lead from (x, y) to (x', y'). */
  ghost predicate Gap(a: seq<Line>, b: seq<Line>, x: int, y: int, x': int, y': int)
  {
    0 <= x <= x' <= |a| && 0 <= y <= y' <= |b| && x' - x == y' - y && a[x..x'] == b[y..y']
  }

  /** The ranges lie between (x, y) and (x', y') in order, with only equal lines between them. */
  ghost predicate Chain(a: seq<Line>, b: seq<Line>, x: int, y: int, rs: seq<Range>, x': int, y': int)
    decreases |rs|
  {
    if rs == [] then Gap(a, b, x, y, x', y') else
    && Gap(a, b, x, y, rs[0].delStart, rs[0].insStart) && Sound(a, b, rs[0])
    && Chain(a, b, rs[0].delEnd, rs[0].insEnd, rs[1..], x', y')
  }

  function RangesCost(rs: seq<Range>): int
  {
    if rs == [] then 0 else rs[0].delEnd - rs[0].delStart + rs[0].insEnd - rs[0].insStart + RangesCost(rs[1..])
  }

  lemma GapThen(a: seq<Line>, b: seq<Line>, x: int, y: int, x': int, y': int, x'': int, y'': int)
    requires Gap(a, b, x, y, x', y') && Gap(a, b, x', y', x'', y'')
    ensures Gap(a, b, x, y, x'', y'')
  {
    assert a[x..x''] == a[x..x'] + a[x'..x''];
    assert b[y..y''] == b[y..y'] + b[y'..y''];
  }

  lemma GapThenChain(a: seq<Line>, b: seq<Line>, x: int, y: int, x': int, y': int, rs: seq<Range>, x'': int, y'': int)
    requires Gap(a, b, x, y, x', y') && Chain(a, b, x', y', rs, x'', y'')
    ensures Chain(a, b, x, y, rs, x'', y'')
  {
    if rs == [] {
      GapThen(a, b, x, y, x', y', x'', y'');
    } else {
      GapThen(a, b, x, y, x', y', rs[0].delStart, rs[0].insStart);
    }
  }

  lemma {:induction false} ChainThen(a: seq<Line>, b: seq<Line>, x: int, y: int, rs: seq<Range>, x': int, y': int,
                                     ss: seq<Range>, x'': int, y'': int)
    requires Chain(a, b, x, y, rs, x', y') && Chain(a, b, x', y', ss, x'', y'')
    ensures Chain(a, b, x, y, rs + ss, x'', y'')
    ensures RangesCost(rs + ss) == RangesCost(rs) + RangesCost(ss)
    decreases |rs|
  {
    if rs == [] {
      assert rs + ss == ss;
      GapThenChain(a, b, x, y, x', y', ss, x'', y'');
    } else {
      assert (rs + ss)[1..] == rs[1..] + ss;
      ChainThen(a, b, rs[0].delEnd, rs[0].insEnd, rs[1..], x', y', ss, x'', y'');
    }
  }

  lemma SliceOfSlice(s: seq<Line>, i: int, n: int, p: int, q: int)
    requires 0 <= i && 0 <= p <= q <= n && i + n <= |s|
    ensures s[i..i + n][p..q] == s[i + p..i + q]
  {
    var t, u := s[i..i + n][p..q], s[i + p..i + q];
    assert |t| == |u| && forall k :: 0 <= k < |t| ==> t[k] == u[k];
  }

  /** The ranges lie in a chain across the box, and cost exactly its distance. */
  ghost predicate Spans(a: seq<Line>, b: seq<Line>, x: Box, rs: seq<Range>)
    requires InBounds(a, b, x)
  {
    && Chain(a, b, x.i, x.j, rs, x.i + x.n, x.j + x.m)
    && RangesCost(rs) == Distance(OldLines(a, b, x), NewLines(a, b, x))
  }

  lemma {:induction false} LeavesSpan(a: seq<Line>, b: seq<Line>, x: Box)
    requires InBounds(a, b, x)
    ensures Spans(a, b, x, Leaves(a, b, x))
    decreases x.n + x.m
  {
    hide TheCut;
    var p, q := OldLines(a, b, x), NewLines(a, b, x);
    if x.n > 0 && x.m > 0 {
      TheCutIsGood(p, q);
      CutBoxes(a, b, x);
      var c := TheCut(p, q);
      match c
      case Split(lx, ly, rx, ry) =>
        LeavesSpan(a, b, Left(x, c));
        LeavesSpan(a, b, Right(x, c));
        LeavesOfSplit(a, b, x, c);
        PartsSpan(a, b, x, c, Leaves(a, b, Left(x, c)), Leaves(a, b, Right(x, c)));
      case Tail => TailSpans(a, b, x);
    } else {
      DistanceOneSided(p, q);
      if x.n + x.m != 0 {
        OneRangeSpans(a, b, x, x);
      }
    }
  }

  lemma OneRangeSpans(a: seq<Line>, b: seq<Line>, x: Box, t: Box)
    requires InBounds(a, b, x) && InBounds(a, b, t) && t.n + t.m > 0
    requires Gap(a, b, x.i, x.j, t.i, t.j) && t.i + t.n == x.i + x.n && t.j + t.m == x.j + x.m
    requires Distance(OldLines(a, b, x), NewLines(a, b, x)) == t.n + t.m
    ensures Spans(a, b, x, [RangeOf(t)])
  {
    assert [RangeOf(t)][1..] == [];
  }

  lemma PartsSpan(a: seq<Line>, b: seq<Line>, x: Box, c: Cut, rs: seq<Range>, ss: seq<Range>)
    requires InBounds(a, b, x) && c.Split? && GoodCut(OldLines(a, b, x), NewLines(a, b, x), c)
    requires InBounds(a, b, Left(x, c)) && InBounds(a, b, Right(x, c))
    requires Spans(a, b, Left(x, c), rs) && Spans(a, b, Right(x, c), ss)
    ensures Spans(a, b, x, rs + ss)
  {
    hide GoodCut, Chain, RangesCost, Gap, Distance;
    var l, r := Left(x, c), Right(x, c);
    SplitLines(a, b, x, c);
    GapThenChain(a, b, l.i + l.n, l.j + l.m, r.i, r.j, ss, x.i + x.n, x.j + x.m);
    ChainThen(a, b, x.i, x.j, rs, l.i + l.n, l.j + l.m, ss, x.i + x.n, x.j + x.m);
  }

  lemma LeavesOfSplit(a: seq<Line>, b: seq<Line>, x: Box, c: Cut)
    requires InBounds(a, b, x) && x.n > 0 && x.m > 0
    requires c == TheCut(OldLines(a, b, x), NewLines(a, b, x)) && c.Split?
    ensures InBounds(a, b, Left(x, c)) && InBounds(a, b, Right(x, c))
    ensures Leaves(a, b, x) == Leaves(a, b, Left(x, c)) + Leaves(a, b, Right(x, c))
  {
    hide TheCut;
    CutBoxes(a, b, x);
  }

  lemma SplitLines(a: seq<Line>, b: seq<Line>, x: Box, c: Cut)
    requires InBounds(a, b, x) && c.Split?
    requires GoodCut(OldLines(a, b, x), NewLines(a, b, x), c)
    ensures InBounds(a, b, Left(x, c)) && InBounds(a, b, Right(x, c))
    ensures var l, r := Left(x, c), Right(x, c);
            && Gap(a, b, l.i + l.n, l.j + l.m, r.i, r.j)
            && Distance(OldLines(a, b, x), NewLines(a, b, x))
               == Distance(OldLines(a, b, l), NewLines(a, b, l)) + Distance(OldLines(a, b, r), NewLines(a, b, r))
  {
    hide Distance, OldLines, NewLines;
    SubBox(a, b, x, 0, c.lx, 0, c.ly);
    SubBox(a, b, x, c.lx, c.rx, c.ly, c.ry);
    SubBox(a, b, x, c.rx, x.n, c.ry, x.m);
    var s, t := OldLines(a, b, x), NewLines(a, b, x);
    assert s[0..c.lx] == s[..c.lx] && t[0..c.ly] == t[..c.ly];
    assert s[c.rx..x.n] == s[c.rx..] && t[c.ry..x.m] == t[c.ry..];
  }

  /** The lines of a box within a box. */
  lemma SubBox(a: seq<Line>, b: seq<Line>, x: Box, p: int, q: int, u: int, v: int)
    requires InBounds(a, b, x) && 0 <= p <= q <= x.n && 0 <= u <= v <= x.m
    ensures var y := Box(x.i + p, q - p, x.j + u, v - u);
            && InBounds(a, b, y) && OldLines(a, b, y) == OldLines(a, b, x)[p..q]
            && NewLines(a, b, y) == NewLines(a, b, x)[u..v]
            && OldLines(a, b, y) == a[x.i + p..x.i + q] && NewLines(a, b, y) == b[x.j + u..x.j + v]
  {
    SliceOfSlice(a, x.i, x.n, p, q);
    SliceOfSlice(b, x.j, x.m, u, v);
  }

  lemma TailSpans(a: seq<Line>, b: seq<Line>, x: Box)
    requires InBounds(a, b, x) && x.n > 0 && x.m > 0
    requires TheCut(OldLines(a, b, x), NewLines(a, b, x)) == Tail && GoodCut(OldLines(a, b, x), NewLines(a, b, x), Tail)
    ensures Spans(a, b, x, Leaves(a, b, x))
  {
    hide TheCut;
    var s := Min(x.n, x.m);
    SliceOfSlice(a, x.i, x.n, 0, s);
    SliceOfSlice(b, x.j, x.m, 0, s);
    var t := Trim(x);
    OneRangeSpans(a, b, x, t);
  }

  function AsSeq(p: Option<Range>): seq<Range> { if p.None? then [] else [p.value] }

  /** Joining keeps the chain and its cost: touching ranges touch on both sides. */
  lemma {:induction false} CoalesceChain(a: seq<Line>, b: seq<Line>, x: int, y: int, pending: Option<Range>,
      rs: seq<Range>, x': int, y': int)
    requires Chain(a, b, x, y, AsSeq(pending) + rs, x', y')
    ensures Chain(a, b, x, y, Coalesce(pending, rs), x', y')
    ensures RangesCost(Coalesce(pending, rs)) == RangesCost(AsSeq(pending) + rs)
    decreases |rs|
  {
    var all := AsSeq(pending) + rs;
    match pending {
      case None =>
        assert all == rs;
        if rs != [] {
          assert AsSeq(Some(rs[0])) + rs[1..] == rs;
          CoalesceChain(a, b, x, y, Some(rs[0]), rs[1..], x', y');
        }
      case Some(p) =>
        assert all[1..] == rs;
        if rs == [] {
          assert Coalesce(pending, rs) == all;
        } else {
          var r, rest := rs[0], rs[1..];
          if p.delEnd == r.delStart || p.insEnd == r.insStart {
            var joined := Range(p.delStart, r.delEnd, p.insStart, r.insEnd);
            assert (AsSeq(Some(joined)) + rest)[1..] == rest;
            CoalesceChain(a, b, x, y, Some(joined), rest, x', y');
          } else {
            assert AsSeq(Some(r)) + rest == rs;
            CoalesceChain(a, b, p.delEnd, p.insEnd, Some(r), rest, x', y');
            assert Coalesce(pending, rs)[1..] == Coalesce(Some(r), rest);
          }
        }
    }
  }

  lemma {:induction false} ChainSound(a: seq<Line>, b: seq<Line>, x: int, y: int, rs: seq<Range>, x': int, y': int)
    requires Chain(a, b, x, y, rs, x', y')
    ensures forall r :: r in rs ==> Sound(a, b, r)
    decreases |rs|
  {
    if rs != [] {
      ChainSound(a, b, rs[0].delEnd, rs[0].insEnd, rs[1..], x', y');
      assert forall r :: r in rs ==> r == rs[0] || r in rs[1..];
    }
  }

  // ---------------------------------------------------------------------------
  // the script
  // ---------------------------------------------------------------------------

  lemma {:induction false} EqlsLead(a: seq<Line>, b: seq<Line>, x: nat, y: nat, x': int, y': int)
    requires Gap(a, b, x, y, x', y')
    ensures Leads(a, b, Eqls(x, y, x', y'), x, y, x', y') && Cost(Eqls(x, y, x', y')) == 0
    decreases x' - x
  {
    if x < x' {
      assert a[x..x'][0] == b[y..y'][0];
      assert a[x + 1..x'] == a[x..x'][1..] && b[y + 1..y'] == b[y..y'][1..];
      EqlsLead(a, b, x + 1, y + 1, x', y');
    }
  }

  lemma {:induction false} DelsLead(a: seq<Line>, b: seq<Line>, x: nat, x': nat, y: nat)
    requires x <= x' <= |a|
    ensures Leads(a, b, Dels(x, x'), x, y, x', y) && Cost(Dels(x, x')) == x' - x
    decreases x' - x
  {
    if x < x' {
      DelsLead(a, b, x + 1, x', y);
    }
  }

  lemma {:induction false} InssLead(a: seq<Line>, b: seq<Line>, x: nat, y: nat, y': nat)
    requires y <= y' <= |b|
    ensures Leads(a, b, Inss(y, y'), x, y, x, y') && Cost(Inss(y, y')) == y' - y
    decreases y' - y
  {
    if y < y' {
      InssLead(a, b, x, y + 1, y');
    }
  }

  lemma RangeEditsLead(a: seq<Line>, b: seq<Line>, x: nat, y: nat, r: Range)
    requires Gap(a, b, x, y, r.delStart, r.insStart) && Sound(a, b, r)
    ensures Leads(a, b, RangeEdits(x, y, r), x, y, r.delEnd, r.insEnd)
    ensures Cost(RangeEdits(x, y, r)) == RangesCost([r])
  {
    EqlsLead(a, b, x, y, r.delStart, r.insStart);
    DelsLead(a, b, r.delStart, r.delEnd, r.insStart);
    InssLead(a, b, r.delEnd, r.insStart, r.insEnd);
    var e, d, i := Eqls(x, y, r.delStart, r.insStart), Dels(r.delStart, r.delEnd), Inss(r.insStart, r.insEnd);
    LeadsConcat(a, b, e, d, x, y, r.delStart, r.insStart, r.delEnd, r.insStart);
    LeadsConcat(a, b, e + d, i, x, y, r.delEnd, r.insStart, r.delEnd, r.insEnd);
  }

  lemma {:induction false} EditsLead(a: seq<Line>, b: seq<Line>, x: nat, y: nat, rs: seq<Range>)
    requires Chain(a, b, x, y, rs, |a|, |b|)
    ensures forall r :: r in rs ==> Sound(a, b, r)
    ensures Leads(a, b, EditsOf(a, b, x, y, rs), x, y, |a|, |b|)
    ensures Cost(EditsOf(a, b, x, y, rs)) == RangesCost(rs)
    decreases |rs|
  {
    ChainSound(a, b, x, y, rs, |a|, |b|);
    if rs == [] {
      EqlsLead(a, b, x, y, |a|, |b|);
    } else {
      var r := rs[0];
      RangeEditsLead(a, b, x, y, r);
      EditsLead(a, b, r.delEnd, r.insEnd, rs[1..]);
      LeadsConcat(a, b, RangeEdits(x, y, r), EditsOf(a, b, r.delEnd, r.insEnd, rs[1..]), x, y, r.delEnd, r.insEnd, |a|,
          |b|);
    }
  }

  lemma {:induction false} MyersRangesChain(a: seq<Line>, b: seq<Line>)
    ensures Chain(a, b, 0, 0, MyersRanges(a, b), |a|, |b|)
    ensures RangesCost(MyersRanges(a, b)) == Distance(a, b)
    ensures forall r :: r in MyersRanges(a, b) ==> Sound(a, b, r)
  {
    hide Leaves, Chain, Gap;
    var x := Whole(a, b);
    assert OldLines(a, b, x) == a && NewLines(a, b, x) == b;
    LeavesSpan(a, b, x);
    assert AsSeq(None) + Leaves(a, b, x) == Leaves(a, b, x);
    CoalesceChain(a, b, 0, 0, None, Leaves(a, b, x), |a|, |b|);
    ChainSound(a, b, 0, 0, MyersRanges(a, b), |a|, |b|);
  }

  /** The edits of all ranges, with every equal line. */
  function AllEdits(a: seq<Line>, b: seq<Line>): seq<Edit>
  {
    MyersRangesChain(a, b);
    EditsOf(a, b, 0, 0, MyersRanges(a, b))
  }

  /** What the iterator yields in all: nothing when there is no differing range. */
  function MyersScript(a: seq<Line>, b: seq<Line>): seq<Edit>
  {
    if MyersRanges(a, b) == [] then [] else AllEdits(a, b)
  }

  lemma NoRangesIffEqual(a: seq<Line>, b: seq<Line>)
    ensures MyersRanges(a, b) == [] <==> a == b
  {
    MyersRangesChain(a, b);
    DistanceZero(a, b);
    var rs := MyersRanges(a, b);
    if rs != [] {
      ChainCostPositive(a, b, 0, 0, rs, |a|, |b|);
    }
  }

  lemma {:induction false} ChainCostPositive(a: seq<Line>, b: seq<Line>, x: int, y: int, rs: seq<Range>, x': int,
      y': int)
    requires Chain(a, b, x, y, rs, x', y')
    ensures RangesCost(rs) >= |rs|
    decreases |rs|
  {
    if rs != [] {
      ChainCostPositive(a, b, rs[0].delEnd, rs[0].insEnd, rs[1..], x', y');
    }
  }

  /** For two different line lists the edits form a complete script, and no complete script is cheaper. */
  lemma {:induction false} MyersScriptIsShortest(a: seq<Line>, b: seq<Line>)
    requires a != b
    ensures IsScript(a, b, MyersScript(a, b))
    ensures Cost(MyersScript(a, b)) == Distance(a, b)
    ensures forall s :: IsScript(a, b, s) ==> Cost(MyersScript(a, b)) <= Cost(s)
    ensures Readable(a, b, MyersScript(a, b)) && Replay(a, b, MyersScript(a, b)) == b
  {
    NoRangesIffEqual(a, b);
    MyersRangesChain(a, b);
    EditsLead(a, b, 0, 0, MyersRanges(a, b));
    ScriptReplaysToNew(a, b, MyersScript(a, b));
    forall s | IsScript(a, b, s)
      ensures Cost(MyersScript(a, b)) <= Cost(s)
    {
      ScriptCostsAtLeastDistance(a, b, s);
    }
  }

  /** For two identical line lists there are no edits at all, not even equal ones. */
  lemma IdenticalListsYieldNothing(a: seq<Line>, b: seq<Line>)
    ensures MyersScript(a, b) == [] <==> a == b
  {
    NoRangesIffEqual(a, b);
    if a != b {
      MyersScriptIsShortest(a, b);
      DistanceZero(a, b);
    }
  }

  // ---------------------------------------------------------------------------
  // the order of the edits
  // ---------------------------------------------------------------------------

  /** Between two ranges there are equal lines. */
  ghost predicate Apart(rs: seq<Range>)
  {
    forall i :: 0 <= i < |rs| - 1 ==> rs[i].delEnd < rs[i + 1].delStart && rs[i].insEnd < rs[i + 1].insStart
  }

  /** Joining leaves no two ranges that touch. */
  lemma {:induction false} CoalesceApart(a: seq<Line>, b: seq<Line>, x: int, y: int, pending: Option<Range>,
      rs: seq<Range>, x': int, y': int)
    requires Chain(a, b, x, y, AsSeq(pending) + rs, x', y')
    ensures Apart(Coalesce(pending, rs))
    ensures pending.Some? ==> Coalesce(pending, rs) != [] && Coalesce(pending, rs)[0].delStart == pending.value.delStart
                              && Coalesce(pending, rs)[0].insStart == pending.value.insStart
    decreases |rs|
  {
    var all := AsSeq(pending) + rs;
    match pending {
      case None =>
        if rs != [] {
          assert AsSeq(Some(rs[0])) + rs[1..] == rs == all;
          CoalesceApart(a, b, x, y, Some(rs[0]), rs[1..], x', y');
        }
      case Some(p) =>
        assert all[1..] == rs;
        if rs != [] {
          var r, rest := rs[0], rs[1..];
          if p.delEnd == r.delStart || p.insEnd == r.insStart {
            var joined := Range(p.delStart, r.delEnd, p.insStart, r.insEnd);
            assert (AsSeq(Some(joined)) + rest)[1..] == rest;
            CoalesceApart(a, b, x, y, Some(joined), rest, x', y');
          } else {
            assert AsSeq(Some(r)) + rest == rs;
            CoalesceApart(a, b, p.delEnd, p.insEnd, Some(r), rest, x', y');
            ApartBefore(p, Coalesce(Some(r), rest));
          }
        }
    }
  }

  lemma ApartBefore(p: Range, rs: seq<Range>)
    requires Apart(rs) && rs != [] && p.delEnd < rs[0].delStart && p.insEnd < rs[0].insStart
    ensures Apart([p] + rs)
  {
    var all := [p] + rs;
    forall i | 0 <= i < |all| - 1
      ensures all[i].delEnd < all[i + 1].delStart && all[i].insEnd < all[i + 1].insStart
    {
      assert all[i + 1] == rs[i] && (i > 0 ==> all[i] == rs[i - 1]);
    }
  }

  /** Deletions come before the insertions that replace them. */
  ghost predicate DeletionsFirst(s: seq<Edit>)
  {
    forall i :: 0 <= i < |s| - 1 ==> !(s[i].EditIns? && s[i + 1].EditDel?)
  }

  lemma DeletionsFirstThen(s: seq<Edit>, t: seq<Edit>)
    requires DeletionsFirst(s) && DeletionsFirst(t)
    requires s != [] && t != [] ==> !s[|s| - 1].EditIns? || !t[0].EditDel?
    ensures DeletionsFirst(s + t)
  {
    var u := s + t;
    forall i | 0 <= i < |u| - 1
      ensures !(u[i].EditIns? && u[i + 1].EditDel?)
    {
      assert i >= |s| ==> u[i] == t[i - |s|];
      assert i + 1 >= |s| ==> u[i + 1] == t[i + 1 - |s|];
    }
  }

  ghost predicate AllEql(s: seq<Edit>) { forall e :: e in s ==> e.EditEql? }
  ghost predicate AllDel(s: seq<Edit>) { forall e :: e in s ==> e.EditDel? }
  ghost predicate AllIns(s: seq<Edit>) { forall e :: e in s ==> e.EditIns? }

  lemma {:induction false} EqlsOnly(x: nat, y: nat, x': int, y': int)
    ensures AllEql(Eqls(x, y, x', y')) && (x < x' && y < y' ==> Eqls(x, y, x', y') != [])
    decreases x' - x
  {
    if x < x' && y < y' {
      EqlsOnly(x + 1, y + 1, x', y');
    }
  }

  lemma {:induction false} DelsOnly(x: nat, x': int)
    ensures AllDel(Dels(x, x'))
    decreases x' - x
  {
    if x < x' {
      DelsOnly(x + 1, x');
    }
  }

  lemma {:induction false} InssOnly(y: nat, y': int)
    ensures AllIns(Inss(y, y'))
    decreases y' - y
  {
    if y < y' {
      InssOnly(y + 1, y');
    }
  }

  lemma OneKindInOrder(s: seq<Edit>)
    requires AllEql(s) || AllDel(s) || AllIns(s)
    ensures DeletionsFirst(s)
  {
    forall i | 0 <= i < |s| - 1
      ensures !(s[i].EditIns? && s[i + 1].EditDel?)
    {
      assert s[i] in s && s[i + 1] in s;
    }
  }

  lemma LastOf(s: seq<Edit>, t: seq<Edit>)
    requires AllEql(s) && AllDel(t)
    ensures s != [] ==> s[|s| - 1].EditEql? && s[0].EditEql?
    ensures s + t != [] ==> !(s + t)[|s + t| - 1].EditIns?
  {
    if s != [] {
      assert s[0] in s && s[|s| - 1] in s;
    }
    if t != [] {
      assert (s + t)[|s + t| - 1] == t[|t| - 1] && t[|t| - 1] in t;
    }
  }

  lemma RangeEditsOrder(x: nat, y: nat, r: Range)
    requires r.delStart >= 0 && r.insStart >= 0
    ensures DeletionsFirst(RangeEdits(x, y, r))
    ensures x < r.delStart && y < r.insStart ==> RangeEdits(x, y, r) != [] && RangeEdits(x, y, r)[0].EditEql?
  {
    var e, d, i := Eqls(x, y, r.delStart, r.insStart), Dels(r.delStart, r.delEnd), Inss(r.insStart, r.insEnd);
    EqlsOnly(x, y, r.delStart, r.insStart);
    OnlyEqualInOrder(x, y, r.delStart, r.insStart);
    DelsOnly(r.delStart, r.delEnd);
    InssOnly(r.insStart, r.insEnd);
    OneKindInOrder(d);
    OneKindInOrder(i);
    LastOf(e, d);
    DeletionsFirstThen(e, d);
    DeletionsFirstThen(e + d, i);
  }

  /** What starts with an equal line can follow anything. */
  ghost predicate StartsEqual(s: seq<Edit>)
  {
    s != [] ==> s[0].EditEql?
  }

  lemma {:induction false} EditsOrder(a: seq<Line>, b: seq<Line>, x: nat, y: nat, rs: seq<Range>)
    requires Apart(rs) && forall r :: r in rs ==> Sound(a, b, r)
    ensures DeletionsFirst(EditsOf(a, b, x, y, rs))
    ensures rs == [] || (x < rs[0].delStart && y < rs[0].insStart) ==> StartsEqual(EditsOf(a, b, x, y, rs))
    decreases |rs|
  {
    hide DeletionsFirst, RangeEdits;
    if rs == [] {
      OnlyEqualInOrder(x, y, |a|, |b|);
    } else {
      var r, rest := rs[0], rs[1..];
      assert r in rs && Sound(a, b, r) && forall q :: q in rest ==> q in rs;
      var s, t := RangeEdits(x, y, r), EditsOf(a, b, r.delEnd, r.insEnd, rest);
      ApartAfter(rs);
      RangeEditsOrder(x, y, r);
      EditsOrder(a, b, r.delEnd, r.insEnd, rest);
      DeletionsFirstThen(s, t);
    }
  }

  lemma ApartAfter(rs: seq<Range>)
    requires Apart(rs) && rs != []
    ensures Apart(rs[1..])
    ensures rs[1..] != [] ==> rs[0].delEnd < rs[1..][0].delStart && rs[0].insEnd < rs[1..][0].insStart
  {
    var rest := rs[1..];
    assert forall i :: 0 <= i < |rest| ==> rest[i] == rs[i + 1];
  }

  lemma OnlyEqualInOrder(x: nat, y: nat, x': int, y': int)
    ensures DeletionsFirst(Eqls(x, y, x', y')) && StartsEqual(Eqls(x, y, x', y'))
  {
    EqlsOnly(x, y, x', y');
    OneKindInOrder(Eqls(x, y, x', y'));
    LastOf(Eqls(x, y, x', y'), []);
  }

  /** No insertion stands directly before a deletion: touching ranges are joined, and each range deletes first. */
  lemma ScriptDeletesFirst(a: seq<Line>, b: seq<Line>)
    ensures DeletionsFirst(MyersScript(a, b))
  {
    hide Leaves, Coalesce, EditsOf;
    var x := Whole(a, b);
    assert OldLines(a, b, x) == a && NewLines(a, b, x) == b;
    LeavesSpan(a, b, x);
    assert AsSeq(None) + Leaves(a, b, x) == Leaves(a, b, x);
    CoalesceApart(a, b, 0, 0, None, Leaves(a, b, x), |a|, |b|);
    MyersRangesChain(a, b);
    EditsOrder(a, b, 0, 0, MyersRanges(a, b));
  }

  // ---------------------------------------------------------------------------
  // between scripts of the same cost
  // ---------------------------------------------------------------------------

  lemma SwapFrontier(x: Line, y: Line)
    requires x != y
    ensures F([x, y], [y, x], 0, 0) == 0 && F([x, y], [y, x], 1, 1) == 2 && F([x, y], [y, x], 1, -1) == 1
    ensures U([x, y], [y, x], 1, -1) == 0
  {
    var a, b := [x, y], [y, x];
    assert Slide(a, b, 0, 0) == 0;
    assert U(a, b, 1, 1) == 1 && Slide(a, b, 1, 1) == Slide(a, b, 2, 1) == 2;
    assert Slide(a, b, 0, -1) == Slide(a, b, 1, -1) == 1;
  }

  lemma SwapMeets(x: Line, y: Line)
    requires x != y
    ensures !Meets([y, x], [x, y], 0, 0, 0) && Meets([y, x], [x, y], 1, 1, -1)
    ensures U([y, x], [x, y], 1, -1) == 0 && F([y, x], [x, y], 1, -1) == 1
  {
    hide F, U, Rev;
    RevOfTwo(x, y);
    RevOfTwo(y, x);
    SwapFrontier(x, y);
    SwapFrontier(y, x);
  }

  lemma RevOfTwo(x: Line, y: Line)
    ensures Rev([x, y]) == [y, x]
  {
  }

  lemma FirstMeetSteps(a: seq<Line>, b: seq<Line>, h: nat, e: nat, k: int)
    requires KMin(h, |b|) <= k && Even(h + k) && Even(|a| + |b| + h + e)
    ensures k > KMax(h, |a|) ==> FirstMeet(a, b, h, e, k) == None
    ensures k <= KMax(h, |a|) ==>
              FirstMeet(a, b, h, e, k) == if Meets(a, b, h, e, k) then Some(k) else FirstMeet(a, b, h, e, k + 2)
  {
    hide Meets;
  }

  lemma NoMeetAtOnce(a: seq<Line>, b: seq<Line>)
    requires |a| == 2 && |b| == 2 && !Meets(a, b, 0, 0, 0)
    ensures FirstMeetAt(a, b, 0, 0) == None
  {
    hide Meets, FirstMeet;
    FirstMeetSteps(a, b, 0, 0, 0);
    FirstMeetSteps(a, b, 0, 0, 2);
  }

  lemma MeetAtLowest(a: seq<Line>, b: seq<Line>)
    requires |a| == 2 && |b| == 2 && Meets(a, b, 1, 1, -1)
    ensures FirstMeetAt(a, b, 1, 1) == Some(-1)
  {
    hide Meets, FirstMeet;
    FirstMeetSteps(a, b, 1, 1, -1);
  }

  /** The search looks at the lowest diagonal first: of two scripts for two lines that change places, the one that
      deletes the first line, keeps the second and inserts the first again is found. */
  lemma SwapCut(x: Line, y: Line)
    requires x != y
    ensures TheCut([x, y], [y, x]) == Split(1, 0, 2, 1)
  {
    hide F, U, FirstMeetAt, Meets, CutFrom, Rev;
    var a, b := [x, y], [y, x];
    RevOfTwo(x, y);
    RevOfTwo(y, x);
    SwapMeets(x, y);
    NoMeetAtOnce(b, a);
    MeetAtLowest(b, a);
    assert StepCut(a, b, 0) == None;
    assert StepCut(a, b, 1) == Some(Split(1, 0, 2, 1));
    CutSteps(a, b, 0);
    CutSteps(a, b, 1);
  }

  lemma CutSteps(a: seq<Line>, b: seq<Line>, h: nat)
    requires h <= HMax(|a|, |b|)
    ensures CutFrom(a, b, h) == match StepCut(a, b, h) case Some(c) => c case None => CutFrom(a, b, h + 1)
  {
  }

  lemma SwapScript(x: Line, y: Line)
    requires x != y
    ensures MyersScript([x, y], [y, x]) == [EditDel(0), EditEql(1, 0), EditIns(1)]
  {
    hide TheCut;
    var a, b := [x, y], [y, x];
    SwapCut(x, y);
    assert OldLines(a, b, Whole(a, b)) == a && NewLines(a, b, Whole(a, b)) == b;
    assert Leaves(a, b, Box(0, 1, 0, 0)) == [Range(0, 1, 0, 0)];
    assert Leaves(a, b, Box(2, 0, 1, 1)) == [Range(2, 2, 1, 2)];
    var rs := [Range(0, 1, 0, 0), Range(2, 2, 1, 2)];
    assert Leaves(a, b, Whole(a, b)) == rs;
    assert Coalesce(None, rs) == rs by {
      assert rs[1..][0] == rs[1] && rs[1..][1..] == [];
      assert Coalesce(Some(rs[1]), []) == [rs[1]];
    }
    MyersRangesChain(a, b);
    assert EditsOf(a, b, 0, 0, rs) == [EditDel(0), EditEql(1, 0), EditIns(1)];
  }
}
