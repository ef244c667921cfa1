/** The furthest-reaching frontiers of Myers' algorithm ("An O(ND) Difference Algorithm and Its
    Variations", section 4b), the window of diagonals that diff.go explores at each step, and
    the ring buffer slots it keeps them in. */
module Frontier {
  import opened Common
  import opened EditGraph

  // ---------------------------------------------------------------------------
  // ring buffer slots
  // ---------------------------------------------------------------------------

  /** Go's integer division truncates toward zero. */
  function TruncDiv(a: int, b: int): int
    requires b != 0
  {
    if a >= 0 then (if b > 0 then a / b else -(a / -b))
    else (if b > 0 then -(-a / b) else -a / -b)
  }

  /** floorDiv: the sign bit of a^b is set when exactly one of the two is negative. */
  function FloorDiv(a: int, b: int): (q: int)
    requires b != 0
  {
    var q := TruncDiv(a, b);
    if (a < 0) != (b < 0) && q * b != a then q - 1 else q
  }

  /** A nonzero multiple of b is at least b away from zero. */
  lemma MultipleIsFar(b: int, t: int)
    requires b > 0
    ensures t >= 1 ==> b * t >= b
    ensures t <= -1 ==> b * t <= -b
  {
  }

  lemma {:induction false} DivUnique(a: int, b: int, q: int, r: int)
    requires b > 0 && a == b * q + r && 0 <= r < b
    ensures a / b == q && a % b == r
  {
    MultipleIsFar(b, q - a / b);
    assert b * (q - a / b) == b * q - b * (a / b);
  }

  /** Dividing the opposite of a: the quotient is the opposite, less one if there is a remainder. */
  lemma OppositeDividend(a: int, b: int, q: int, r: int)
    requires b > 0 && -a == b * q + r && 0 <= r < b
    ensures a / b == if r == 0 then -q else -q - 1
    ensures q * b == -a <==> r == 0
  {
    if r == 0 {
      assert b * -q == -(b * q);
      DivUnique(a, b, -q, 0);
    } else {
      assert b * (-q - 1) == -(b * q) - b;
      DivUnique(a, b, -q - 1, b - r);
    }
  }

  /** For a positive divisor, floorDiv rounds down, whatever the sign of the dividend. */
  lemma {:induction false} FloorDivRoundsDown(a: int, b: int)
    requires b > 0
    ensures FloorDiv(a, b) == a / b
    ensures b * FloorDiv(a, b) <= a < b * FloorDiv(a, b) + b
  {
    if a < 0 {
      var q, r := -a / b, -a % b;
      OppositeDividend(a, b, q, r);
      assert -q * b == -(q * b);
    }
  }

  /** Where the ring buffer keeps diagonal k. */
  function Slot(k: int, z: int): (r: int)
    requires z > 0
    ensures 0 <= r < z
  {
    FloorDivRoundsDown(k, z);
    k - z * FloorDiv(k, z)
  }

  lemma {:induction false} WindingsDiffer(k: int, l: int, z: int, p: int, q: int)
    requires z > 0 && k != l && -z < k - l < z
    ensures k - z * p != l - z * q
  {
    MultipleIsFar(z, p - q);
    assert z * (p - q) == z * p - z * q;
  }

  /** Two diagonals less than a whole ring apart never share a slot. */
  lemma {:induction false} SlotsDistinct(k: int, l: int, z: int)
    requires z > 0 && k != l && -z < k - l < z
    ensures Slot(k, z) != Slot(l, z)
  {
    WindingsDiffer(k, l, z, FloorDiv(k, z), FloorDiv(l, z));
  }

  /** In a ring of even size, diagonals of different parity never share a slot. */
  lemma {:induction false} SlotsOfOtherParity(k: int, l: int, z: int)
    requires z > 0 && Even(z) && !Even(k + l)
    ensures Slot(k, z) != Slot(l, z)
  {
    if Slot(k, z) == Slot(l, z) {
      WindingParity(k, l, z / 2, FloorDiv(k, z), FloorDiv(l, z));
    }
  }

  lemma {:induction false} WindingParity(k: int, l: int, c: int, p: int, q: int)
    requires k - 2 * c * p == l - 2 * c * q
    ensures Even(k + l)
  {
    var t := c * p - c * q;
    assert k + l == 2 * (l + t);
  }

  lemma SlotOfOne(z: int)
    requires z > 1
    ensures Slot(1, z) == 1
  {
    DivUnique(1, z, 0, 1);
    FloorDivRoundsDown(1, z);
  }

  // ---------------------------------------------------------------------------
  // the window of diagonals
  // ---------------------------------------------------------------------------

  function KMin(h: nat, m: nat): int { 2 * Max(0, h - m) - h }
  function KMax(h: nat, n: nat): int { h - 2 * Max(0, h - n) }

  predicate InWindow(n: nat, m: nat, h: nat, k: int)
  {
    KMin(h, m) <= k <= KMax(h, n) && Even(h + k)
  }

  /** The number of steps after which the search gives up: half the total length, rounded up. */
  function HMax(n: nat, m: nat): nat { (n + m + (n + m) % 2) / 2 }

  /** What the opposite frontier is asked for is always inside its window. */
  lemma OppositeInWindow(n: nat, m: nat, h: nat, e: nat, k: int)
    requires n > 0 && m > 0 && h <= HMax(n, m) && InWindow(n, m, h, k)
    requires e == (if !Even(n + m) then h - 1 else h)
    requires Abs(n - m - k) <= e
    ensures InWindow(n, m, e, n - m - k)
  {
    HalfTotal(n, m, h, e);
    OppositeParity(n, m, h, k);
    OppositeBounds(n, m, h, e, k, (h + k) / 2, (e + n - m - k) / 2);
  }

  lemma HalfTotal(n: nat, m: nat, h: nat, e: nat)
    requires h <= HMax(n, m) && e == (if !Even(n + m) then h - 1 else h)
    ensures 2 * e <= n + m
  {
  }

  lemma OppositeBounds(n: nat, m: nat, h: nat, e: nat, k: int, s: int, t: int)
    requires n > 0 && m > 0 && 2 * e <= n + m && KMin(h, m) <= k <= KMax(h, n) && (e == h || e + 1 == h)
    requires Abs(n - m - k) <= e && h + k == 2 * s && e + n - m - k == 2 * t
    ensures KMin(e, m) <= n - m - k <= KMax(e, n)
  {
  }

  lemma OppositeParity(n: nat, m: nat, h: nat, k: int)
    requires Even(h + k)
    ensures Even((if !Even(n + m) then h - 1 else h) + (n - m - k))
  {
    assert (n - m - k) + h == (n + m) + (h + k) - 2 * (m + k);
  }

  // ---------------------------------------------------------------------------
  // the frontiers, as unbounded arrays
  // ---------------------------------------------------------------------------

  /** The diagonals that step h can be on. */
  predicate OnStep(h: nat, k: int) { Abs(k) <= h && Even(h + k) }

  /** Follow matches along diagonal k. */
  function Slide(a: seq<Line>, b: seq<Line>, x: int, k: int): (r: int)
    ensures r >= x && !Match(a, b, r, r - k)
    ensures forall p, q :: p - q == k && x <= p < r ==> Match(a, b, p, q)
    decreases |a| - x
  {
    if Match(a, b, x, x - k) then Slide(a, b, x + 1, k) else x
  }

  /** Where a step starts on diagonal k, given the two neighbours of the step before. */
  function Start(h: nat, k: int, below: int, above: int): int
  {
    if k + h == 0 || (k != h && below < above) then above else below + 1
  }

  /** Start of step h on diagonal k: one edit after the better neighbour of step h - 1. */
  function U(a: seq<Line>, b: seq<Line>, h: nat, k: int): int
    requires OnStep(h, k)
    decreases h, 0
  {
    if h == 0 then 0 else
    Start(h, k, if k + h > 0 then F(a, b, h - 1, k - 1) else 0, if k < h then F(a, b, h - 1, k + 1) else 0)
  }

  /** End of step h on diagonal k, after every match. */
  function F(a: seq<Line>, b: seq<Line>, h: nat, k: int): int
    requires OnStep(h, k)
    decreases h, 1
  {
    Slide(a, b, U(a, b, h, k), k)
  }

  /** The point of diagonal k with coordinate x is reached with h edits. */
  ghost predicate OnDiagonal(a: seq<Line>, b: seq<Line>, h: nat, k: int, x: int)
  {
    x >= 0 && x >= k && Reach(a, b, h, x, x - k)
  }

  /** x is the largest coordinate on diagonal k reached with h edits. */
  ghost predicate Furthest(a: seq<Line>, b: seq<Line>, h: nat, k: int, x: int)
  {
    && OnDiagonal(a, b, h, k, x)
    && forall p: nat, q: nat :: p - q == k && Reach(a, b, h, p, q) ==> p <= x
  }

  lemma AtOrigin(a: seq<Line>, b: seq<Line>)
    ensures OnDiagonal(a, b, 0, 0, 0)
  {
  }

  lemma OneEditReaches(a: seq<Line>, b: seq<Line>, h: nat, k: int, x: int)
    ensures OnDiagonal(a, b, h, k + 1, x) ==> OnDiagonal(a, b, h + 1, k, x)
    ensures OnDiagonal(a, b, h, k - 1, x) ==> OnDiagonal(a, b, h + 1, k, x + 1)
  {
  }

  lemma SlideReaches(a: seq<Line>, b: seq<Line>, h: nat, k: int, u: int)
    requires OnDiagonal(a, b, h, k, u)
    ensures OnDiagonal(a, b, h, k, Slide(a, b, u, k))
  {
    MatchesReach(a, b, h, u, u - k, Slide(a, b, u, k) - u);
  }

  /** A step on diagonal k comes from the diagonal above or from the one below. */
  lemma StepComesFrom(a: seq<Line>, b: seq<Line>, h: nat, k: int)
    requires OnStep(h, k) && h > 0
    ensures || (OnStep(h - 1, k + 1) && U(a, b, h, k) == F(a, b, h - 1, k + 1))
            || (OnStep(h - 1, k - 1) && U(a, b, h, k) == F(a, b, h - 1, k - 1) + 1)
  {
    hide F;
  }

  /** The frontier array holds reachable points. */
  lemma {:induction false} FrontierReached(a: seq<Line>, b: seq<Line>, h: nat, k: int)
    requires OnStep(h, k)
    ensures OnDiagonal(a, b, h, k, U(a, b, h, k)) && OnDiagonal(a, b, h, k, F(a, b, h, k))
    decreases h
  {
    if h == 0 {
      AtOrigin(a, b);
    } else {
      StartReached(a, b, h, k);
    }
    SlideReaches(a, b, h, k, U(a, b, h, k));
  }

  lemma {:induction false} StartReached(a: seq<Line>, b: seq<Line>, h: nat, k: int)
    requires OnStep(h, k) && h > 0
    ensures OnDiagonal(a, b, h, k, U(a, b, h, k))
    decreases h, -1
  {
    hide U, F, OnDiagonal;
    StepComesFrom(a, b, h, k);
    if OnStep(h - 1, k + 1) && U(a, b, h, k) == F(a, b, h - 1, k + 1) {
      FrontierReached(a, b, h - 1, k + 1);
      OneEditReaches(a, b, h - 1, k, F(a, b, h - 1, k + 1));
    } else {
      FrontierReached(a, b, h - 1, k - 1);
      OneEditReaches(a, b, h - 1, k, F(a, b, h - 1, k - 1));
    }
  }

  /** The frontier array holds exactly the furthest-reaching points. */
  lemma {:induction false} FrontierIsFurthest(a: seq<Line>, b: seq<Line>, h: nat, k: int)
    requires OnStep(h, k)
    ensures Furthest(a, b, h, k, F(a, b, h, k))
    decreases h
  {
    FrontierReached(a, b, h, k);
    if h > 0 && k + h > 0 {
      FrontierIsFurthest(a, b, h - 1, k - 1);
    }
    if h > 0 && k < h {
      FrontierIsFurthest(a, b, h - 1, k + 1);
    }
    forall p: nat, q: nat | p - q == k && Reach(a, b, h, p, q)
      ensures p <= F(a, b, h, k)
    {
      NoFurther(a, b, h, k, p, q);
    }
  }

  lemma {:induction false} MatchesReach(a: seq<Line>, b: seq<Line>, h: nat, u: nat, v: nat, s: nat)
    requires Reach(a, b, h, u, v)
    requires forall p, q :: p - q == u - v && u <= p < u + s ==> Match(a, b, p, q)
    ensures Reach(a, b, h, u + s, v + s)
    decreases s
  {
    if s > 0 {
      MatchesReach(a, b, h, u, v, s - 1);
      assert Match(a, b, u + s - 1, v + s - 1);
    }
  }

  lemma {:induction false} NoFurther(a: seq<Line>, b: seq<Line>, h: nat, k: int, p: nat, q: nat)
    requires OnStep(h, k)
    requires h > 0 && k + h > 0 ==> Furthest(a, b, h - 1, k - 1, F(a, b, h - 1, k - 1))
    requires h > 0 && k < h ==> Furthest(a, b, h - 1, k + 1, F(a, b, h - 1, k + 1))
    requires p - q == k && Reach(a, b, h, p, q)
    requires U(a, b, h, k) >= 0
    ensures p <= F(a, b, h, k)
    decreases p
  {
    if p > 0 && q > 0 && Match(a, b, p - 1, q - 1) && Reach(a, b, h, p - 1, q - 1) {
      NoFurther(a, b, h, k, p - 1, q - 1);
    } else if h > 0 && p > 0 && Reach(a, b, h - 1, p - 1, q) {
      ReachGap(a, b, h - 1, p - 1, q);
      assert p <= U(a, b, h, k);
    } else if h > 0 && q > 0 && Reach(a, b, h - 1, p, q - 1) {
      ReachGap(a, b, h - 1, p, q - 1);
      assert p <= U(a, b, h, k);
    }
  }

  // ---------------------------------------------------------------------------
  // the first meeting of the two frontiers
  // ---------------------------------------------------------------------------

  lemma Budgets(n: nat, m: nat, h: nat)
    ensures if Even(n + m) then Even(n + m + h + h) else Even(n + m + h + (h - 1))
  {
  }

  lemma OppositeOnStep(n: nat, m: nat, h: nat, e: nat, k: int)
    requires OnStep(h, k) && Even(n + m + h + e) && Abs(n - m - k) <= e
    ensures OnStep(e, n - m - k)
  {
    assert e + (n - m - k) == (n + m + h + e) - (h + k) - 2 * m;
  }

  /** The forward frontier after h steps overlaps the reverse one after e steps on diagonal k. */
  predicate Meets(a: seq<Line>, b: seq<Line>, h: nat, e: nat, k: int)
    requires OnStep(h, k) && Even(|a| + |b| + h + e)
  {
    Abs(|a| - |b| - k) <= e && F(a, b, h, k) + F(Rev(a), Rev(b), e, |a| - |b| - k) >= |a|
  }

  /** The first diagonal of the window, from k upwards, on which the frontiers overlap. */
  function FirstMeet(a: seq<Line>, b: seq<Line>, h: nat, e: nat, k: int): (r: Option<int>)
    requires KMin(h, |b|) <= k && Even(h + k) && Even(|a| + |b| + h + e)
    ensures r.Some? ==> InWindow(|a|, |b|, h, r.value) && Meets(a, b, h, e, r.value)
    decreases KMax(h, |a|) - k
  {
    if k > KMax(h, |a|) then None
    else if Meets(a, b, h, e, k) then Some(k)
    else FirstMeet(a, b, h, e, k + 2)
  }

  /** The first diagonal of the whole window of step h on which the frontiers overlap. */
  function FirstMeetAt(a: seq<Line>, b: seq<Line>, h: nat, e: nat): (r: Option<int>)
    requires Even(|a| + |b| + h + e)
    ensures r.Some? ==> InWindow(|a|, |b|, h, r.value) && Meets(a, b, h, e, r.value)
  {
    KMinParity(h, |b|);
    FirstMeet(a, b, h, e, KMin(h, |b|))
  }

  lemma KMinParity(h: nat, m: nat)
    ensures Even(h + KMin(h, m))
  {
  }

  /** No point on diagonals lo or above in the window is both h edits from the start and e edits from the end. */
  ghost predicate NoMeet(a: seq<Line>, b: seq<Line>, h: nat, e: nat, lo: int)
  {
    forall x: nat, y: nat ::
      x <= |a| && y <= |b| && lo <= x - y <= KMax(h, |a|) && Even(h + x - y) && Reach(a, b, h, x, y)
      ==> !Reach(Rev(a), Rev(b), e, |a| - x, |b| - y)
  }

  lemma NoMeetHere(a: seq<Line>, b: seq<Line>, h: nat, e: nat, k: int, p: nat, q: nat)
    requires OnStep(h, k) && Even(|a| + |b| + h + e) && !Meets(a, b, h, e, k)
    requires p <= |a| && q <= |b| && p - q == k && Reach(a, b, h, p, q)
    ensures !Reach(Rev(a), Rev(b), e, |a| - p, |b| - q)
  {
    FrontierIsFurthest(a, b, h, k);
    var zz := |a| - |b| - k;
    if Abs(zz) <= e {
      FrontierIsFurthest(Rev(a), Rev(b), e, zz);
    }
    GapIfReached(Rev(a), Rev(b), e, |a| - p, |b| - q);
  }

  lemma NotMetAt(a: seq<Line>, b: seq<Line>, h: nat, e: nat, lo: int, x: nat, y: nat)
    requires NoMeet(a, b, h, e, lo) && x <= |a| && y <= |b|
    requires lo <= x - y <= KMax(h, |a|) && Even(h + x - y) && Reach(a, b, h, x, y)
    ensures !Reach(Rev(a), Rev(b), e, |a| - x, |b| - y)
  {
    hide Reach, Even;
  }

  /** A window without overlaps has no meeting point. */
  lemma {:induction false} NoFirstMeet(a: seq<Line>, b: seq<Line>, h: nat, e: nat, k: int)
    requires KMin(h, |b|) <= k && Even(h + k) && Even(|a| + |b| + h + e)
    requires FirstMeet(a, b, h, e, k) == None
    ensures NoMeet(a, b, h, e, k)
    decreases KMax(h, |a|) - k
  {
    hide Reach, Meets;
    if k <= KMax(h, |a|) {
      NoFirstMeet(a, b, h, e, k + 2);
      forall p: nat, q: nat |
        p <= |a| && q <= |b| && k <= p - q <= KMax(h, |a|) && Even(h + p - q) && Reach(a, b, h, p, q)
        ensures !Reach(Rev(a), Rev(b), e, |a| - p, |b| - q)
      {
        if p - q == k {
          NoMeetHere(a, b, h, e, k, p, q);
        } else {
          assert p - q != k + 1;
          NotMetAt(a, b, h, e, k + 2, p, q);
        }
      }
    }
  }

  /** If no diagonal of the window has a meeting point, the distance exceeds h + e. */
  lemma NoMeetRaisesDistance(a: seq<Line>, b: seq<Line>, h: nat, e: nat)
    requires Even(|a| + |b| + h + e)
    requires NoMeet(a, b, h, e, KMin(h, |b|))
    requires Distance(a, b) > h + e - 2
    ensures Distance(a, b) > h + e
  {
    hide Reach, NoMeet, Even, KMin, Distance;
    if Distance(a, b) <= h + e {
      EndNotReached(a, b, h, e);
      ReachMonotone(a, b, Distance(a, b), h + e, |a|, |b|);
    }
  }

  /** A path of cost h + e would split at a point that is met, or be cheaper than the distance allows. */
  lemma EndNotReached(a: seq<Line>, b: seq<Line>, h: nat, e: nat)
    requires Even(|a| + |b| + h + e)
    requires NoMeet(a, b, h, e, KMin(h, |b|))
    requires Distance(a, b) > h + e - 2
    ensures !Reach(a, b, h + e, |a|, |b|)
  {
    hide Reach, Even, NoMeet, Distance, Rev, KMin, KMax;
    if Reach(a, b, h + e, |a|, |b|) {
      var p, q := ReachSplit(a, b, h, e, 0, 0);
      var x, y := |a| - p, |b| - q;
      NoMeetingPoint(a, b, h, e, x, y);
      if KMin(h, |b|) <= x - y <= KMax(h, |a|) && Even(h + x - y) {
        NotMetAt(a, b, h, e, KMin(h, |b|), x, y);
      }
    }
  }

  lemma GapIfReached(a: seq<Line>, b: seq<Line>, d: nat, x: nat, y: nat)
    ensures Reach(a, b, d, x, y) ==> Abs(x - y) <= d
  {
    if Reach(a, b, d, x, y) {
      ReachGap(a, b, d, x, y);
    }
  }

  /** A point that splits a path of cost h + e lies on a searched diagonal, unless a cheaper path exists. */
  lemma NoMeetingPoint(a: seq<Line>, b: seq<Line>, h: nat, e: nat, x: nat, y: nat)
    requires x <= |a| && y <= |b| && Even(|a| + |b| + h + e)
    requires Reach(a, b, h, x, y) && Reach(Rev(a), Rev(b), e, |a| - x, |b| - y)
    ensures || (h + e >= 2 && Reach(a, b, h + e - 2, |a|, |b|))
            || (KMin(h, |b|) <= x - y <= KMax(h, |a|) && Even(h + x - y))
  {
    var p, q := |a| - x, |b| - y;
    ReachGap(a, b, h, x, y);
    if !Even(h + x - y) {
      ReachParity(a, b, h, x, y);
      ReachParity(Rev(a), Rev(b), e, p, q);
      ReachMeet(a, b, h - 1, e - 1, p, q);
    } else if h > x + y {
      ReachCap(a, b, h - 2, x, y);
      ReachMeet(a, b, h - 2, e, p, q);
    }
  }

  /** Where the frontiers first overlap, the point lies in the box: it was not reached by walking past an edge. */
  lemma OverlapInBox(a: seq<Line>, b: seq<Line>, h: nat, e: nat, u: nat, v: nat)
    requires Reach(a, b, h, u, v)
    requires e == h || e + 1 == h
    requires Abs(|a| - |b| - (u - v)) <= e
    requires Distance(a, b) >= h + e
    ensures u <= |a| && v <= |b|
  {
    if u > |a| || v > |b| {
      var d := OvershootCost(a, b, h, u, v);
    }
  }

  /** A path that overshoots the box by some lines wastes each of them. */
  lemma OvershootCost(a: seq<Line>, b: seq<Line>, h: nat, u: nat, v: nat) returns (d: nat)
    requires Reach(a, b, h, u, v)
    requires u > |a| || v > |b|
    ensures d == h - (if u > |a| then u - |a| else v - |b|) + (if u > |a| then Abs(|b| - v) else |a| - u)
             - (if u > |a| && v > |b| then 2 * (v - |b|) else 0)
    ensures Reach(a, b, d, |a|, |b|)
  {
    var n, m := |a|, |b|;
    if u > n {
      ReachBeyondOld(a, b, h, u, v);
      d := h - (u - n);
      if v > m {
        ReachBeyondNew(a, b, d, n, v);
        d := d - (v - m);
      } else {
        ReachDownWall(a, b, d, n, v, m - v);
        d := d + (m - v);
      }
    } else {
      ReachBeyondNew(a, b, h, u, v);
      d := h - (v - m);
      ReachAcrossWall(a, b, d, u, m, n - u);
      d := d + (n - u);
    }
  }

  lemma {:induction false} ReachDownWall(a: seq<Line>, b: seq<Line>, d: nat, x: nat, y: nat, s: nat)
    requires Reach(a, b, d, x, y)
    ensures Reach(a, b, d + s, x, y + s)
    decreases s
  {
    if s > 0 {
      ReachDownWall(a, b, d, x, y, s - 1);
    }
  }

  lemma {:induction false} ReachAcrossWall(a: seq<Line>, b: seq<Line>, d: nat, x: nat, y: nat, s: nat)
    requires Reach(a, b, d, x, y)
    ensures Reach(a, b, d + s, x + s, y)
    decreases s
  {
    if s > 0 {
      ReachAcrossWall(a, b, d, x, y, s - 1);
    }
  }
}
