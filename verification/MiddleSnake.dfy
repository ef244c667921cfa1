/** One round of the linear-space search in diff.go: two ring buffers stand in for the unbounded
    frontier arrays, and the search returns exactly the cut that those arrays determine. */
module MiddleSnake {
  import opened Common
  import opened EditGraph
  import opened Frontier
  import opened Cuts

  /** The diagonals lo..hi of the parity of h are stored in the ring that starts at base. */
  ghost predicate FrontierIn(s: seq<int>, base: int, z: int, a: seq<Line>, b: seq<Line>, h: nat, lo: int, hi: int)
    requires z > 0 && 0 <= base && base + z <= |s|
  {
    forall k :: lo <= k <= hi && OnStep(h, k) ==> s[base + Slot(k, z)] == F(a, b, h, k)
  }

  ghost predicate WholeFrontierIn(s: seq<int>, base: int, z: int, a: seq<Line>, b: seq<Line>, h: int)
    requires z > 1 && 0 <= base && base + z <= |s|
  {
    if h < 0 then s[base + 1] == 0 else FrontierIn(s, base, z, a, b, h, KMin(h, |b|), KMax(h, |a|))
  }

  /** Storing the next diagonal of step h disturbs neither step h - 1 nor what step h has stored already. */
  lemma {:induction false} FrontierStep(s: seq<int>, base: int, z: int, a: seq<Line>, b: seq<Line>, h: nat, k: int)
    requires |a| > 0 && |b| > 0 && z == 2 * (Min(|a|, |b|) + 1) && 0 <= base && base + z <= |s|
    requires InWindow(|a|, |b|, h, k)
    requires WholeFrontierIn(s, base, z, a, b, h - 1)
    requires FrontierIn(s, base, z, a, b, h, KMin(h, |b|), k - 1)
    ensures WholeFrontierIn(s[base + Slot(k, z) := F(a, b, h, k)], base, z, a, b, h - 1)
    ensures FrontierIn(s[base + Slot(k, z) := F(a, b, h, k)], base, z, a, b, h, KMin(h, |b|), k + 1)
  {
    hide Slot, F, U, Even;
    TwiceIsEven(Min(|a|, |b|) + 1);
    OddNeighbour(h, k);
    SlotsOfPreviousStep(h, k, z);
    SlotsOfSameStep(KMin(h, |b|), k, z);
    if h == 0 {
      SlotOfOne(z);
      SlotsDistinct(1, k, z);
    }
  }

  lemma TwiceIsEven(t: int)
    ensures Even(2 * t)
  {
  }

  lemma OddNeighbour(h: int, k: int)
    ensures Even(h + k) ==> !Even(h + (k + 1))
  {
  }

  lemma {:induction false} SlotsOfPreviousStep(h: nat, k: int, z: int)
    requires z > 0 && Even(z) && Even(h + k)
    ensures forall l :: Even(h - 1 + l) ==> Slot(l, z) != Slot(k, z)
  {
    hide Slot;
    forall l | Even(h - 1 + l)
      ensures Slot(l, z) != Slot(k, z)
    {
      SlotsOfOtherParity(l, k, z);
    }
  }

  lemma {:induction false} SlotsOfSameStep(lo: int, k: int, z: int)
    requires z > 0 && k - lo < z
    ensures forall l :: lo <= l < k ==> Slot(l, z) != Slot(k, z)
  {
    hide Slot;
    forall l | lo <= l < k
      ensures Slot(l, z) != Slot(k, z)
    {
      SlotsDistinct(l, k, z);
    }
  }

  /** Stores into one ring leave the frontier in the other one alone. */
  lemma RingKept(s: seq<int>, t: seq<int>, base: int, z: int, a: seq<Line>, b: seq<Line>, h: int)
    requires z > 1 && 0 <= base && base + z <= |s| == |t|
    requires forall i :: base <= i < base + z ==> t[i] == s[i]
    requires WholeFrontierIn(s, base, z, a, b, h)
    ensures WholeFrontierIn(t, base, z, a, b, h)
  {
    hide F, U;
    forall k
      ensures t[base + Slot(k, z)] == s[base + Slot(k, z)]
    {
    }
  }

  /** Both slots the step reads are the ones the unbounded arrays would give. */
  lemma NeighboursStored(s: seq<int>, base: int, z: int, a: seq<Line>, b: seq<Line>, h: nat, k: int)
    requires |a| > 0 && |b| > 0 && z > 1 && 0 <= base && base + z <= |s|
    requires InWindow(|a|, |b|, h, k) && WholeFrontierIn(s, base, z, a, b, h - 1)
    ensures OnStep(h, k)
    ensures U(a, b, h, k) == Start(h, k, s[base + Slot(k - 1, z)], s[base + Slot(k + 1, z)])
  {
    hide Slot, F, Even;
    SlotOfOne(z);
    NeighboursInWindow(|a|, |b|, h, k);
    if h == 0 {
      assert k == 0;
    }
  }

  /** The neighbours a step looks at were in the window of the step before. */
  lemma NeighboursInWindow(n: nat, m: nat, h: nat, k: int)
    requires InWindow(n, m, h, k)
    ensures OnStep(h, k)
    ensures h > 0 && k + h > 0 ==> OnStep(h - 1, k - 1) && InWindow(n, m, h - 1, k - 1)
    ensures h > 0 && k < h ==> OnStep(h - 1, k + 1) && InWindow(n, m, h - 1, k + 1)
  {
  }

  lemma OppositeStored(s: seq<int>, base: int, z: int, a: seq<Line>, b: seq<Line>, h: nat, e: nat, k: int)
    requires |a| > 0 && |b| > 0 && z > 1 && 0 <= base && base + z <= |s|
    requires h <= HMax(|a|, |b|) && InWindow(|a|, |b|, h, k)
    requires e == (if !Even(|a| + |b|) then h - 1 else h)
    requires WholeFrontierIn(s, base, z, a, b, e)
    requires Abs(|a| - |b| - k) <= e
    ensures OnStep(e, |a| - |b| - k)
    ensures s[base + Slot(|a| - |b| - k, z)] == F(a, b, e, |a| - |b| - k)
  {
    hide Slot, F, U;
    OppositeInWindow(|a|, |b|, h, e, k);
  }

  // ---------------------------------------------------------------------------
  // the search
  // ---------------------------------------------------------------------------

  /** The box's lines in the direction of a pass. */
  function Directed(reverse: bool, a: seq<Line>): (r: seq<Line>)
    ensures |r| == |a|
  {
    if reverse then Rev(a) else a
  }

  /** Both rings during a pass at step h that has stored every diagonal before k. */
  ghost predicate DuringPass(s: seq<int>, own: int, other: int, z: int, fa: seq<Line>, fb: seq<Line>,
                             h: nat, e: nat, test: bool, k: int)
  {
    && |fa| > 0 && |fb| > 0 && z == 2 * (Min(|fa|, |fb|) + 1) && 2 * z <= |s|
    && ((own == 0 && other == z) || (own == z && other == 0))
    && h <= HMax(|fa|, |fb|)
    && WholeFrontierIn(s, own, z, fa, fb, h - 1)
    && FrontierIn(s, own, z, fa, fb, h, KMin(h, |fb|), k - 1)
    && (test ==> && e == (if !Even(|fa| + |fb|) then h - 1 else h)
                 && WholeFrontierIn(s, other, z, Rev(fa), Rev(fb), e))
  }

  lemma StartOfPass(s: seq<int>, own: int, other: int, z: int, fa: seq<Line>, fb: seq<Line>, h: nat, e: nat, test: bool)
    requires |fa| > 0 && |fb| > 0 && z == 2 * (Min(|fa|, |fb|) + 1) && 2 * z <= |s|
    requires (own == 0 && other == z) || (own == z && other == 0)
    requires h <= HMax(|fa|, |fb|)
    requires WholeFrontierIn(s, own, z, fa, fb, h - 1)
    requires test ==> && e == (if !Even(|fa| + |fb|) then h - 1 else h)
                      && WholeFrontierIn(s, other, z, Rev(fa), Rev(fb), e)
    ensures DuringPass(s, own, other, z, fa, fb, h, e, test, KMin(h, |fb|))
  {
  }

  lemma EndOfPass(s: seq<int>, own: int, other: int, z: int, fa: seq<Line>, fb: seq<Line>, h: nat, e: nat, test: bool,
      k: int)
    requires DuringPass(s, own, other, z, fa, fb, h, e, test, k) && k > KMax(h, |fa|)
    ensures WholeFrontierIn(s, own, z, fa, fb, h)
  {
    hide F, U, Slot;
  }

  lemma {:induction false} PassStored(s: seq<int>, own: int, other: int, z: int, fa: seq<Line>, fb: seq<Line>,
                   h: nat, e: nat, test: bool, k: int)
    requires DuringPass(s, own, other, z, fa, fb, h, e, test, k)
    requires InWindow(|fa|, |fb|, h, k)
    ensures DuringPass(s[own + Slot(k, z) := F(fa, fb, h, k)], own, other, z, fa, fb, h, e, test, k + 2)
  {
    hide Slot, Rev, WholeFrontierIn, FrontierIn, F, U;
    FrontierStep(s, own, z, fa, fb, h, k);
    if test {
      RingKept(s, s[own + Slot(k, z) := F(fa, fb, h, k)], other, z, Rev(fa), Rev(fb), e);
    }
  }

  /** One edit from the better neighbour, then every match: step h on diagonal k. */
  method Advance(a: seq<Line>, b: seq<Line>, buf: array<int>, base: int, z: int, h: nat, k: int, reverse: bool)
    returns (u: int, x: int)
    requires |a| > 0 && |b| > 0 && InWindow(|a|, |b|, h, k)
    requires z == 2 * (Min(|a|, |b|) + 1) && 0 <= base && base + z <= buf.Length
    requires WholeFrontierIn(buf[..], base, z, Directed(reverse, a), Directed(reverse, b), h - 1)
    ensures OnStep(h, k)
    ensures u == U(Directed(reverse, a), Directed(reverse, b), h, k)
    ensures x == F(Directed(reverse, a), Directed(reverse, b), h, k)
  {
    hide Slot, WholeFrontierIn, F, U, Even;
    ghost var fa, fb := Directed(reverse, a), Directed(reverse, b);
    NeighboursStored(buf[..], base, z, fa, fb, h, k);
    var below, above := buf[base + Slot(k - 1, z)], buf[base + Slot(k + 1, z)];
    if k + h == 0 || (k != h && below < above) {
      u := above;
    } else {
      u := below + 1;
    }
    StartNonnegative(fa, fb, h, k);
    x := Extend(a, b, u, k, reverse);
    EndOfRun(fa, fb, h, k);
  }

  /** Walk along the diagonal while the lines match. */
  method Extend(a: seq<Line>, b: seq<Line>, u: int, k: int, reverse: bool) returns (x: int)
    requires 0 <= u && k <= u
    ensures x == Slide(Directed(reverse, a), Directed(reverse, b), u, k)
  {
    ghost var fa, fb := Directed(reverse, a), Directed(reverse, b);
    x := u;
    var y := u - k;
    while x < |a| && y < |b| && (if reverse then a[|a| - 1 - x] == b[|b| - 1 - y] else a[x] == b[y])
      invariant 0 <= u <= x && 0 <= y == x - k
      invariant Slide(fa, fb, u, k) == Slide(fa, fb, x, k)
    {
      assert Match(fa, fb, x, y);
      x, y := x + 1, y + 1;
    }
    assert !Match(fa, fb, x, y);
  }

  lemma EndOfRun(a: seq<Line>, b: seq<Line>, h: nat, k: int)
    requires OnStep(h, k)
    ensures F(a, b, h, k) == Slide(a, b, U(a, b, h, k), k)
  {
  }

  lemma StartNonnegative(a: seq<Line>, b: seq<Line>, h: nat, k: int)
    requires OnStep(h, k)
    ensures U(a, b, h, k) >= 0 && U(a, b, h, k) >= k
  {
    FrontierReached(a, b, h, k);
  }

  /** The body of the loop over the diagonals: extend the frontier, then compare it with the opposite one. */
  method Diagonal(a: seq<Line>, b: seq<Line>, buf: array<int>, own: int, other: int, z: int,
                  h: nat, e: nat, k: int, reverse: bool, test: bool, ghost fa: seq<Line>, ghost fb: seq<Line>)
    returns (hit: bool, u: int, x: int)
    requires fa == Directed(reverse, a) && fb == Directed(reverse, b)
    requires DuringPass(buf[..], own, other, z, fa, fb, h, e, test, k)
    requires InWindow(|fa|, |fb|, h, k)
    modifies buf
    ensures forall t :: other <= t < other + z ==> buf[t] == old(buf[t])
    ensures DuringPass(buf[..], own, other, z, fa, fb, h, e, test, k + 2)
    ensures OnStep(h, k) && u == U(fa, fb, h, k) && x == F(fa, fb, h, k)
    ensures hit == (test && Even(|fa| + |fb| + h + e) && Meets(fa, fb, h, e, k))
  {
    hide Slot, Rev, FrontierIn, WholeFrontierIn, F, U;
    u, x := Advance(a, b, buf, own, z, h, k, reverse);
    PassStored(buf[..], own, other, z, fa, fb, h, e, test, k);
    ghost var before := buf[..];
    buf[own + Slot(k, z)] := x;
    assert buf[..] == before[own + Slot(k, z) := x];
    hit := false;
    if test {
      var zz := |a| - |b| - k;
      if Abs(zz) <= e {
        OppositeStored(buf[..], other, z, Rev(fa), Rev(fb), h, e, k);
        var opposite := buf[other + Slot(zz, z)];
        if x + opposite >= |a| {
          hit := true;
        }
      }
    }
  }

  /** One of the two inner loops over the diagonals: the forward one, or its mirror image. It stops at the first
      meeting of the frontiers, which are compared only when test holds; the opposite frontier is e steps deep. */
  method Pass(a: seq<Line>, b: seq<Line>, buf: array<int>, own: int, other: int, z: int,
              h: nat, e: nat, reverse: bool, test: bool, ghost fa: seq<Line>, ghost fb: seq<Line>)
    returns (hit: bool, k: int, u: int, x: int)
    requires fa == Directed(reverse, a) && fb == Directed(reverse, b)
    requires DuringPass(buf[..], own, other, z, fa, fb, h, e, test, KMin(h, |fb|))
    requires test ==> Even(|fa| + |fb| + h + e)
    modifies buf
    ensures forall t :: other <= t < other + z ==> buf[t] == old(buf[t])
    ensures !hit ==> WholeFrontierIn(buf[..], own, z, fa, fb, h)
    ensures hit ==> OnStep(h, k) && u == U(fa, fb, h, k) && x == F(fa, fb, h, k)
    ensures !test ==> !hit
    ensures test ==> FirstMeetAt(fa, fb, h, e) == if hit then Some(k) else None
  {
    hide Slot, Rev, FrontierIn, WholeFrontierIn, F, U, Meets;
    hit, k, u, x := false, KMin(h, |b|), 0, 0;
    while k <= KMax(h, |a|)
      invariant KMin(h, |b|) <= k <= KMax(h, |a|) + 2 && Even(h + k)
      invariant forall t :: other <= t < other + z ==> buf[t] == old(buf[t])
      invariant DuringPass(buf[..], own, other, z, fa, fb, h, e, test, k)
      invariant test ==> FirstMeetAt(fa, fb, h, e) == FirstMeet(fa, fb, h, e, k)
      invariant !hit
      decreases KMax(h, |a|) - k
    {
      hit, u, x := Diagonal(a, b, buf, own, other, z, h, e, k, reverse, test, fa, fb);
      if hit {
        return;
      }
      k := k + 2;
    }
    EndOfPass(buf[..], own, other, z, fa, fb, h, e, test, k);
  }

  /** The forward half of step h: the frontiers are compared when the total length is odd. */
  method ForwardStep(a: seq<Line>, b: seq<Line>, buf: array<int>, z: int, h: nat, parity: int, ghost ra: seq<Line>,
      ghost rb: seq<Line>)
    returns (r: Option<Cut>)
    requires |a| > 0 && |b| > 0 && z == 2 * (Min(|a|, |b|) + 1) && 2 * z <= buf.Length
    requires ra == Rev(a) && rb == Rev(b)
    requires parity == (|a| + |b|) % 2 && h <= HMax(|a|, |b|)
    requires WholeFrontierIn(buf[..], 0, z, a, b, h - 1) && WholeFrontierIn(buf[..], z, z, ra, rb, h - 1)
    modifies buf
    ensures r == if parity == 1 then StepCut(a, b, h) else None
    ensures r.None? ==> WholeFrontierIn(buf[..], 0, z, a, b, h) && WholeFrontierIn(buf[..], z, z, ra, rb, h - 1)
  {
    hide Slot, Rev, FrontierIn, WholeFrontierIn, F, U, Meets, FirstMeet, FirstMeetAt, Slide;
    Budgets(|a|, |b|, h);
    var test := parity == 1 && h > 0;
    var e := if test then h - 1 else h;
    StartOfPass(buf[..], 0, z, z, a, b, h, e, test);
    var hit, k, u, x := Pass(a, b, buf, 0, z, z, h, e, false, test, a, b);
    if hit {
      if h > 1 || x != u {
        return Some(Split(u, u - k, x, x - k));
      } else {
        return Some(Tail);
      }
    }
    RingKept(old(buf[..]), buf[..], z, z, ra, rb, h - 1);
    return None;
  }

  /** The reverse half of step h: the frontiers are compared when the total length is even. */
  method ReverseStep(a: seq<Line>, b: seq<Line>, buf: array<int>, z: int, h: nat, parity: int, ghost ra: seq<Line>,
      ghost rb: seq<Line>)
    returns (r: Option<Cut>)
    requires |a| > 0 && |b| > 0 && z == 2 * (Min(|a|, |b|) + 1) && 2 * z <= buf.Length
    requires ra == Rev(a) && rb == Rev(b) && a == Rev(ra) && b == Rev(rb)
    requires parity == (|a| + |b|) % 2 && h <= HMax(|a|, |b|)
    requires WholeFrontierIn(buf[..], 0, z, a, b, h) && WholeFrontierIn(buf[..], z, z, ra, rb, h - 1)
    modifies buf
    ensures r == if parity == 0 then StepCut(a, b, h) else None
    ensures r.None? ==> WholeFrontierIn(buf[..], 0, z, a, b, h) && WholeFrontierIn(buf[..], z, z, ra, rb, h)
  {
    hide Slot, Rev, FrontierIn, WholeFrontierIn, F, U, Meets;
    Budgets(|a|, |b|, h);
    StartOfPass(buf[..], z, 0, z, ra, rb, h, h, parity == 0);
    var hit, k, u, x := Pass(a, b, buf, z, 0, z, h, h, true, parity == 0, ra, rb);
    if hit {
      if h > 0 || x != u {
        return Some(Split(|a| - x, |b| - (x - k), |a| - u, |b| - (u - k)));
      } else {
        return Some(Tail);
      }
    }
    RingKept(old(buf[..]), buf[..], 0, z, a, b, h);
    return None;
  }

  lemma ClearedFrontiers(s: seq<int>, z: int, a: seq<Line>, b: seq<Line>)
    requires z > 1 && 2 * z <= |s| && forall t :: 0 <= t < 2 * z ==> s[t] == 0
    ensures WholeFrontierIn(s, 0, z, a, b, -1) && WholeFrontierIn(s, z, z, Rev(a), Rev(b), -1)
  {
  }

  /** The search for a cut: the forward and the reverse frontier grow in turn until they meet.
      The buffer may hold anything; it is cleared first. */
  method FindCut(a: seq<Line>, b: seq<Line>, buf: array<int>, z: int) returns (r: Cut)
    requires |a| > 0 && |b| > 0 && z == 2 * (Min(|a|, |b|) + 1) && 2 * z <= buf.Length
    modifies buf
    ensures r == TheCut(a, b)
  {
    hide Slot, WholeFrontierIn, Rev, StepCut;
    for t := 0 to buf.Length
      invariant forall i :: 0 <= i < t ==> buf[i] == 0
    {
      buf[t] := 0;
    }
    ClearedFrontiers(buf[..], z, a, b);
    ghost var ra, rb := Rev(a), Rev(b);
    RevRev(a);
    RevRev(b);
    var n, m := |a|, |b|;
    var parity := (n + m) % 2;
    var hmax := (n + m + parity) / 2;
    var h := 0;
    while h <= hmax
      invariant 0 <= h <= hmax + 1
      invariant WholeFrontierIn(buf[..], 0, z, a, b, h - 1) && WholeFrontierIn(buf[..], z, z, ra, rb, h - 1)
      invariant TheCut(a, b) == CutFrom(a, b, h)
    {
      var c := ForwardStep(a, b, buf, z, h, parity, ra, rb);
      if c.Some? {
        return c.value;
      }
      c := ReverseStep(a, b, buf, z, h, parity, ra, rb);
      if c.Some? {
        return c.value;
      }
      h := h + 1;
    }
    return Tail;
  }
}
