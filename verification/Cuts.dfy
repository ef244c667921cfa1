/** Where diff.go cuts a box of the edit graph in two, as a function of the box's lines,
    and why that cut is a good one. */
module Cuts {
  import opened Common
  import opened EditGraph
  import opened Frontier

  // ---------------------------------------------------------------------------
  // what a cut is
  // ---------------------------------------------------------------------------

  datatype Cut =
    | Split(lx: int, ly: int, rx: int, ry: int)  // the boxes before (lx, ly) and after (rx, ry)
    | Tail                                       // one side is a prefix of the other

  /** The cut keeps only equal lines between its two boxes, both boxes are smaller
      than the whole, and their distances add up to that of the whole. */
  ghost predicate GoodCut(a: seq<Line>, b: seq<Line>, c: Cut)
  {
    match c
    case Split(lx, ly, rx, ry) =>
      && 0 <= lx <= rx <= |a| && 0 <= ly <= ry <= |b| && rx - lx == ry - ly
      && a[lx..rx] == b[ly..ry]
      && lx + ly < |a| + |b| && rx + ry > 0
      && Distance(a, b) == Distance(a[..lx], b[..ly]) + Distance(a[rx..], b[ry..])
    case Tail =>
      var s := Min(|a|, |b|);
      |a| != |b| && a[..s] == b[..s] && Distance(a, b) == Abs(|a| - |b|)
  }

  lemma DistanceOfParts(a: seq<Line>, b: seq<Line>, lx: nat, ly: nat, rx: nat, ry: nat)
    requires lx <= rx <= |a| && ly <= ry <= |b| && rx - lx == ry - ly
    requires a[lx..rx] == b[ly..ry]
    ensures Distance(a, b) <= Distance(a[..lx], b[..ly]) + Distance(a[rx..], b[ry..])
  {
    var d, e := Distance(a[..lx], b[..ly]), Distance(a[rx..], b[ry..]);
    ReachPrefix(a, b, lx, ly, d, lx, ly);
    ReachAlongEqual(a, b, d, lx, ly, rx - lx);
    ReachThen(a, b, d, rx, ry, e, |a| - rx, |b| - ry);
  }

  lemma DistanceParity(a: seq<Line>, b: seq<Line>)
    ensures Even(Distance(a, b) + |a| + |b|)
  {
    if !Even(Distance(a, b) + |a| + |b|) {
      ReachParity(a, b, Distance(a, b), |a|, |b|);
    }
  }

  lemma RevRev(a: seq<Line>)
    ensures Rev(Rev(a)) == a
  {
  }

  lemma DistanceReversed(a: seq<Line>, b: seq<Line>)
    ensures Distance(Rev(a), Rev(b)) == Distance(a, b)
  {
    RevRev(a);
    RevRev(b);
    ReachReversed(a, b, Distance(Rev(a), Rev(b)));
    ReachReversed(Rev(a), Rev(b), Distance(a, b));
  }

  lemma RevParts(a: seq<Line>, x: nat)
    requires x <= |a|
    ensures Rev(a)[..x] == Rev(a[|a| - x..])
    ensures Rev(a)[x..] == Rev(a[..|a| - x])
  {
  }

  lemma {:induction false} ReachZero(a: seq<Line>, b: seq<Line>, t: nat)
    requires t <= |a| && t <= |b| && Reach(a, b, 0, t, t)
    ensures a[..t] == b[..t]
    decreases t
  {
    if t > 0 {
      ReachZero(a, b, t - 1);
      assert a[..t] == a[..t - 1] + [a[t - 1]] && b[..t] == b[..t - 1] + [b[t - 1]];
    }
  }

  lemma {:induction false} ReachZeroFromStart(a: seq<Line>, b: seq<Line>, t: nat)
    requires |a| > 0 && |b| > 0 && t <= |a| && t <= |b| && Reach(a, b, 0, t, t)
    ensures t > 0 ==> Match(a, b, 0, 0)
  {
    if t > 0 {
      ReachZero(a, b, t);
      assert a[..t][0] == b[..t][0];
    }
  }

  // ---------------------------------------------------------------------------
  // an overlap is a cut
  // ---------------------------------------------------------------------------

  /** What a meeting of the frontiers on diagonal k amounts to: the last run of matches
      leads from u to x, and the opposite frontier reaches back over x. */
  ghost predicate Overlap(a: seq<Line>, b: seq<Line>, h: nat, e: nat, k: int, u: int, x: int)
  {
    && OnDiagonal(a, b, h, k, u) && IsRun(a, b, k, u, x)
    && Abs(|a| - |b| - k) <= e
    && Covers(Rev(a), Rev(b), e, |a| - |b| - k, |a| - x)
  }

  /** A run of matches on diagonal k from u up to x that goes no further. */
  ghost predicate IsRun(a: seq<Line>, b: seq<Line>, k: int, u: int, x: int)
  {
    u <= x && (forall p, q :: p - q == k && u <= p < x ==> Match(a, b, p, q)) && !Match(a, b, x, x - k)
  }

  /** With e edits, diagonal k is reached at coordinate least or beyond. */
  ghost predicate Covers(a: seq<Line>, b: seq<Line>, e: nat, k: int, least: int)
  {
    exists o :: OnDiagonal(a, b, e, k, o) && o >= least
  }

  lemma OverlapCuts(a: seq<Line>, b: seq<Line>, h: nat, e: nat, k: int, u: int, x: int)
    requires Overlap(a, b, h, e, k, u, x)
    requires e == h || e + 1 == h
    requires Distance(a, b) >= h + e
    ensures 0 <= u <= x <= |a| && 0 <= u - k <= x - k <= |b|
    ensures a[u..x] == b[u - k..x - k]
    ensures Distance(a, b) == h + e == Distance(a[..u], b[..u - k]) + Distance(a[x..], b[x - k..])
    ensures Distance(a[..u], b[..u - k]) <= h && Distance(a[x..], b[x - k..]) <= e
  {
    var v, y := u - k, x - k;
    OverlapInBox(a, b, h, e, u, v);
    if x > u {
      assert Match(a, b, x - 1, y - 1);
    }
    forall t | 0 <= t < x - u
      ensures a[u..x][t] == b[v..y][t]
    {
      assert Match(a, b, u + t, v + t);
    }
    assert a[u..x] == b[v..y];
    ReachPrefix(a, b, u, v, h, u, v);
    RightCost(a, b, e, k, x);
    DistanceOfParts(a, b, u, v, x, y);
  }

  lemma RightCost(a: seq<Line>, b: seq<Line>, e: nat, k: int, x: int)
    requires 0 <= x <= |a| && 0 <= x - k <= |b|
    requires Covers(Rev(a), Rev(b), e, |a| - |b| - k, |a| - x)
    ensures Distance(a[x..], b[x - k..]) <= e
  {
    hide Rev;
    var y := x - k;
    var p, q := |a| - x, |b| - y;
    var o :| OnDiagonal(Rev(a), Rev(b), e, |a| - |b| - k, o) && o >= p;
    ReachBack(Rev(a), Rev(b), e, p, q, o - p);
    ReachPrefix(Rev(a), Rev(b), p, q, e, p, q);
    RevParts(a, p);
    RevParts(b, q);
    ReachReversed(a[x..], b[y..], e);
  }

  /** A forward overlap after more than one step, or with a run of matches, is a good cut. */
  lemma ForwardCut(a: seq<Line>, b: seq<Line>, h: nat, e: nat, k: int, u: int, x: int)
    requires Overlap(a, b, h, e, k, u, x)
    requires e == h || e + 1 == h
    requires Distance(a, b) >= h + e
    requires h + e > 1 || x != u
    ensures GoodCut(a, b, Split(u, u - k, x, x - k))
  {
    hide Overlap, Distance;
    OverlapCuts(a, b, h, e, k, u, x);
    WholePrefix(a, u);
    WholePrefix(b, u - k);
    WholeSuffix(a, x);
    WholeSuffix(b, x - k);
  }

  lemma WholePrefix(a: seq<Line>, x: nat)
    requires x <= |a|
    ensures x == |a| ==> a[..x] == a
  {
  }

  lemma WholeSuffix(a: seq<Line>, x: nat)
    requires x <= |a|
    ensures x == 0 ==> a[x..] == a
  {
  }

  lemma RevSlice(a: seq<Line>, x: nat, y: nat)
    requires x <= y <= |a|
    ensures Rev(Rev(a)[x..y]) == a[|a| - y..|a| - x]
  {
  }

  /** A good cut of the reversed lists is a good cut of the lists, read backwards. */
  lemma MirrorCut(a: seq<Line>, b: seq<Line>, lx: int, ly: int, rx: int, ry: int)
    requires GoodCut(Rev(a), Rev(b), Split(lx, ly, rx, ry))
    ensures GoodCut(a, b, Split(|a| - rx, |b| - ry, |a| - lx, |b| - ly))
  {
    var p, q, r, t := |a| - rx, |b| - ry, |a| - lx, |b| - ly;
    MirrorEqual(a, b, lx, ly, rx, ry);
    MirrorDistances(a, b, lx, ly, rx, ry);
    assert Distance(a, b) == Distance(a[..p], b[..q]) + Distance(a[r..], b[t..]);
  }

  lemma MirrorEqual(a: seq<Line>, b: seq<Line>, lx: nat, ly: nat, rx: nat, ry: nat)
    requires lx <= rx <= |a| && ly <= ry <= |b| && Rev(a)[lx..rx] == Rev(b)[ly..ry]
    ensures a[|a| - rx..|a| - lx] == b[|b| - ry..|b| - ly]
  {
    RevSlice(a, lx, rx);
    RevSlice(b, ly, ry);
  }

  lemma MirrorDistances(a: seq<Line>, b: seq<Line>, lx: nat, ly: nat, rx: nat, ry: nat)
    requires lx <= rx <= |a| && ly <= ry <= |b|
    ensures Distance(Rev(a), Rev(b)) == Distance(a, b)
    ensures Distance(Rev(a)[..lx], Rev(b)[..ly]) == Distance(a[|a| - lx..], b[|b| - ly..])
    ensures Distance(Rev(a)[rx..], Rev(b)[ry..]) == Distance(a[..|a| - rx], b[..|b| - ry])
  {
    DistanceReversed(a, b);
    RevParts(a, lx); RevParts(a, rx); RevParts(b, ly); RevParts(b, ry);
    DistanceReversed(a[|a| - lx..], b[|b| - ly..]);
    DistanceReversed(a[..|a| - rx], b[..|b| - ry]);
  }

  /** The mirror image, found by the reverse frontier. */
  lemma ReverseCut(a: seq<Line>, b: seq<Line>, h: nat, k: int, u: int, x: int)
    requires Overlap(Rev(a), Rev(b), h, h, k, u, x)
    requires Distance(a, b) >= 2 * h
    requires h > 0 || x != u
    ensures GoodCut(a, b, Split(|a| - x, |b| - (x - k), |a| - u, |b| - (u - k)))
  {
    hide Rev, Overlap;
    DistanceReversed(a, b);
    ForwardCut(Rev(a), Rev(b), h, h, k, u, x);
    MirrorCut(a, b, u, u - k, x, x - k);
  }

  lemma SuffixStart(a: seq<Line>, b: seq<Line>, u: nat, v: nat)
    requires u <= |a| && v <= |b| && a[u..] == b[v..]
    ensures u == |a| || Match(a, b, u, v)
  {
    if u < |a| {
      assert a[u..][0] == b[v..][0];
    }
  }

  /** A first step that overlaps at once, with no run of matches after it, means a single edit at the very end. */
  lemma SingleEditAtEnd(a: seq<Line>, b: seq<Line>, k: int, u: int)
    requires Overlap(a, b, 1, 0, k, u, u)
    requires k == 1 ==> OnDiagonal(a, b, 0, 0, u - 1)
    requires k == -1 ==> OnDiagonal(a, b, 0, 0, u)
    requires !Even(|a| + |b|)
    ensures GoodCut(a, b, Tail)
  {
    ReachGap(a, b, Distance(a, b), |a|, |b|);
    OverlapCuts(a, b, 1, 0, k, u, u);
    DistanceZero(a[u..], b[u - k..]);
    SuffixStart(a, b, u, u - k);
    ReachZero(a, b, Min(|a|, |b|));
  }

  /** Only equal lists are at distance zero. */
  lemma DistanceZero(a: seq<Line>, b: seq<Line>)
    ensures Distance(a, b) == 0 <==> a == b
  {
    if Distance(a, b) == 0 {
      ReachGap(a, b, 0, |a|, |b|);
      ReachZero(a, b, |a|);
      assert a == a[..|a|] && b == b[..|b|];
    }
    if a == b {
      ReachAlongEqual(a, b, 0, 0, 0, |a|);
    }
  }

  /** When the very first reverse step overlaps, it did so by walking over matches:
      the branch of the source for an overlap without matches at h = 0 is never taken. */
  lemma FirstOverlapHasMatches(a: seq<Line>, b: seq<Line>, k: int, x: int)
    requires |a| > 0 && |b| > 0
    requires Overlap(a, b, 0, 0, k, 0, x)
    ensures x != 0
  {
    OverlapCuts(a, b, 0, 0, k, 0, x);
    ReachGap(a, b, 0, 0, -k);
    ReachGap(a, b, 0, |a|, |b|);
    ReachZeroFromStart(a, b, |a|);
  }

  lemma {:induction false} MeetsMeans(a: seq<Line>, b: seq<Line>, h: nat, e: nat, k: int)
    requires OnStep(h, k) && Even(|a| + |b| + h + e) && Meets(a, b, h, e, k)
    ensures Abs(|a| - |b| - k) <= e && Covers(Rev(a), Rev(b), e, |a| - |b| - k, |a| - F(a, b, h, k))
  {
    hide U, F, Rev, OnDiagonal, Covers, Even;
    OppositeOnStep(|a|, |b|, h, e, k);
    FrontierCovers(Rev(a), Rev(b), e, |a| - |b| - k, |a| - F(a, b, h, k));
  }

  lemma FrontierCovers(a: seq<Line>, b: seq<Line>, e: nat, k: int, least: int)
    requires OnStep(e, k) && F(a, b, e, k) >= least
    ensures Covers(a, b, e, k, least)
  {
    hide U, F, OnDiagonal, Even;
    FrontierReached(a, b, e, k);
  }

  lemma {:induction false} MeetsOverlaps(a: seq<Line>, b: seq<Line>, h: nat, e: nat, k: int)
    requires OnStep(h, k) && Even(|a| + |b| + h + e) && Meets(a, b, h, e, k)
    ensures Overlap(a, b, h, e, k, U(a, b, h, k), F(a, b, h, k))
  {
    hide U, F, Rev, OnDiagonal, IsRun, Slide, Covers, Meets, Even;
    LastRun(a, b, h, k);
    FrontierReached(a, b, h, k);
    MeetsMeans(a, b, h, e, k);
  }

  lemma LastRun(a: seq<Line>, b: seq<Line>, h: nat, k: int)
    requires OnStep(h, k)
    ensures var u, x := U(a, b, h, k), F(a, b, h, k);
            IsRun(a, b, k, u, x)
  {
  }

  // ---------------------------------------------------------------------------
  // the cut
  // ---------------------------------------------------------------------------

  /** The cut found at step h, if any: forward against reverse when the total length is odd,
      reverse against forward when it is even. */
  function StepCut(a: seq<Line>, b: seq<Line>, h: nat): Option<Cut>
  {
    var n, m := |a|, |b|;
    if !Even(n + m) then
      if h == 0 then None else
      match FirstMeetAt(a, b, h, h - 1)
      case None => None
      case Some(k) =>
        var u, x := U(a, b, h, k), F(a, b, h, k);
        Some(if h > 1 || x != u then Split(u, u - k, x, x - k) else Tail)
    else
      match FirstMeetAt(Rev(a), Rev(b), h, h)
      case None => None
      case Some(k) =>
        var u, x := U(Rev(a), Rev(b), h, k), F(Rev(a), Rev(b), h, k);
        Some(if h > 0 || x != u then Split(n - x, m - (x - k), n - u, m - (u - k)) else Tail)
  }

  /** The first cut found from step h on. */
  function CutFrom(a: seq<Line>, b: seq<Line>, h: nat): Cut
    decreases HMax(|a|, |b|) + 1 - h
  {
    if h > HMax(|a|, |b|) then Tail else
    match StepCut(a, b, h)
    case Some(c) => c
    case None => CutFrom(a, b, h + 1)
  }

  function TheCut(a: seq<Line>, b: seq<Line>): Cut
  {
    CutFrom(a, b, 0)
  }

  lemma MissRaisesDistance(a: seq<Line>, b: seq<Line>, h: nat, e: nat)
    requires Even(|a| + |b| + h + e) && Distance(a, b) >= h + e
    requires FirstMeetAt(a, b, h, e) == None
    ensures Distance(a, b) >= h + e + 2
  {
    hide Meets, NoMeet, F, U;
    DistanceParity(a, b);
    KMinParity(h, |b|);
    NoFirstMeet(a, b, h, e, KMin(h, |b|));
    NoMeetRaisesDistance(a, b, h, e);
  }

  lemma OddStep(a: seq<Line>, b: seq<Line>, h: nat)
    requires |a| > 0 && |b| > 0 && !Even(|a| + |b|) && h > 0
    requires Distance(a, b) >= 2 * h - 1
    ensures match StepCut(a, b, h)
            case Some(c) => GoodCut(a, b, c)
            case None => Distance(a, b) >= 2 * h + 1
  {
    hide U, F, GoodCut, Overlap, OnDiagonal, Meets, FirstMeetAt, Even;
    Budgets(|a|, |b|, h);
    match FirstMeetAt(a, b, h, h - 1)
    case None =>
      MissRaisesDistance(a, b, h, h - 1);
    case Some(k) =>
      var u, x := U(a, b, h, k), F(a, b, h, k);
      MeetsOverlaps(a, b, h, h - 1, k);
      if h > 1 || x != u {
        ForwardCut(a, b, h, h - 1, k, u, x);
      } else {
        FirstStep(a, b, k);
        SingleEditAtEnd(a, b, k, u);
      }
  }

  lemma FirstStep(a: seq<Line>, b: seq<Line>, k: int)
    requires OnStep(1, k)
    ensures k == 1 ==> OnDiagonal(a, b, 0, 0, U(a, b, 1, k) - 1)
    ensures k == -1 ==> OnDiagonal(a, b, 0, 0, U(a, b, 1, k))
  {
    FrontierReached(a, b, 0, 0);
  }

  lemma EvenStep(a: seq<Line>, b: seq<Line>, h: nat)
    requires |a| > 0 && |b| > 0 && Even(|a| + |b|)
    requires Distance(a, b) >= 2 * h
    ensures match StepCut(a, b, h)
            case Some(c) => GoodCut(a, b, c)
            case None => Distance(a, b) >= 2 * h + 2
  {
    hide U, F, GoodCut, Overlap, OnDiagonal, Rev, Meets, FirstMeetAt, Even;
    Budgets(|a|, |b|, h);
    var ra, rb := Rev(a), Rev(b);
    DistanceReversed(a, b);
    match FirstMeetAt(ra, rb, h, h)
    case None =>
      MissRaisesDistance(ra, rb, h, h);
    case Some(k) =>
      var u, x := U(ra, rb, h, k), F(ra, rb, h, k);
      MeetsOverlaps(ra, rb, h, h, k);
      if h == 0 {
        FirstStart(ra, rb, k);
        FirstOverlapHasMatches(ra, rb, k, x);
      }
      ReverseCut(a, b, h, k, u, x);
  }

  lemma FirstStart(a: seq<Line>, b: seq<Line>, k: int)
    requires OnStep(0, k)
    ensures U(a, b, 0, k) == 0
  {
  }

  /** The search always ends with a good cut, before it passes HMax. */
  lemma {:induction false} CutFromIsGood(a: seq<Line>, b: seq<Line>, h: nat)
    requires |a| > 0 && |b| > 0
    requires Distance(a, b) >= 2 * h - (|a| + |b|) % 2
    ensures h <= HMax(|a|, |b|) && GoodCut(a, b, CutFrom(a, b, h))
    decreases HMax(|a|, |b|) + 1 - h
  {
    hide GoodCut, StepCut;
    ReachByWalls(a, b, |a|, |b|);
    if Even(|a| + |b|) {
      EvenStep(a, b, h);
    } else if h > 0 {
      OddStep(a, b, h);
    } else {
      NoOddCutAtZero(a, b);
      DistanceParity(a, b);
    }
    if StepCut(a, b, h).None? {
      CutFromIsGood(a, b, h + 1);
    }
  }

  lemma NoOddCutAtZero(a: seq<Line>, b: seq<Line>)
    requires !Even(|a| + |b|)
    ensures StepCut(a, b, 0) == None
  {
  }

  /** Every box with lines on both sides is cut well. */
  lemma TheCutIsGood(a: seq<Line>, b: seq<Line>)
    requires |a| > 0 && |b| > 0
    ensures GoodCut(a, b, TheCut(a, b))
  {
    CutFromIsGood(a, b, 0);
  }
}
