/** The edit graph of two line lists: what an edit script is, which points of the
    graph a script of given cost reaches, and the cost of the cheapest script.
    Everything here is independent of the algorithm in diff.go. */
module EditGraph {

  type Line = string

  function Rev(a: seq<Line>): (r: seq<Line>)
    ensures |r| == |a|
    ensures forall i :: 0 <= i < |a| ==> r[i] == a[|a| - 1 - i]
  {
    seq(|a|, i requires 0 <= i < |a| => a[|a| - 1 - i])
  }

  /** Line x of a and line y of b exist and are equal. */
  predicate Match(a: seq<Line>, b: seq<Line>, x: int, y: int)
  {
    0 <= x < |a| && 0 <= y < |b| && a[x] == b[y]
  }

  /** (x, y) is reached from (0, 0) with at most d deletions and insertions.
      Points beyond the two lists are reachable too, only never by a match. */
  ghost predicate Reach(a: seq<Line>, b: seq<Line>, d: nat, x: nat, y: nat)
    decreases x + y
  {
    || (x == 0 && y == 0)
    || (x > 0 && y > 0 && Match(a, b, x - 1, y - 1) && Reach(a, b, d, x - 1, y - 1))
    || (d > 0 && x > 0 && Reach(a, b, d - 1, x - 1, y))
    || (d > 0 && y > 0 && Reach(a, b, d - 1, x, y - 1))
  }

  lemma {:induction false} ReachMonotone(a: seq<Line>, b: seq<Line>, d: nat, e: nat, x: nat, y: nat)
    requires d <= e && Reach(a, b, d, x, y)
    ensures Reach(a, b, e, x, y)
    decreases x + y
  {
    if x == 0 && y == 0 {
    } else if x > 0 && y > 0 && Match(a, b, x - 1, y - 1) && Reach(a, b, d, x - 1, y - 1) {
      ReachMonotone(a, b, d, e, x - 1, y - 1);
    } else if d > 0 && x > 0 && Reach(a, b, d - 1, x - 1, y) {
      ReachMonotone(a, b, d - 1, e - 1, x - 1, y);
    } else {
      ReachMonotone(a, b, d - 1, e - 1, x, y - 1);
    }
  }

  /** Along the walls: x deletions and y insertions reach (x, y). */
  lemma {:induction false} ReachByWalls(a: seq<Line>, b: seq<Line>, x: nat, y: nat)
    ensures Reach(a, b, x + y, x, y)
    decreases x + y
  {
    if x > 0 {
      ReachByWalls(a, b, x - 1, y);
    } else if y > 0 {
      ReachByWalls(a, b, x, y - 1);
    }
  }

  /** d edits stay within d diagonals of the main one. */
  lemma {:induction false} ReachGap(a: seq<Line>, b: seq<Line>, d: nat, x: nat, y: nat)
    requires Reach(a, b, d, x, y)
    ensures x <= y + d && y <= x + d
    decreases x + y
  {
    if x == 0 && y == 0 {
    } else if x > 0 && y > 0 && Match(a, b, x - 1, y - 1) && Reach(a, b, d, x - 1, y - 1) {
      ReachGap(a, b, d, x - 1, y - 1);
    } else if d > 0 && x > 0 && Reach(a, b, d - 1, x - 1, y) {
      ReachGap(a, b, d - 1, x - 1, y);
    } else {
      ReachGap(a, b, d - 1, x, y - 1);
    }
  }

  /** Each edit flips the parity of x + y, so a budget of the wrong parity has one edit to spare. */
  lemma {:induction false} ReachParity(a: seq<Line>, b: seq<Line>, d: nat, x: nat, y: nat)
    requires Reach(a, b, d, x, y) && (d + x + y) % 2 == 1
    ensures d > 0 && Reach(a, b, d - 1, x, y)
    decreases x + y
  {
    if x == 0 && y == 0 {
    } else if x > 0 && y > 0 && Match(a, b, x - 1, y - 1) && Reach(a, b, d, x - 1, y - 1) {
      ReachParity(a, b, d, x - 1, y - 1);
    } else if d > 0 && x > 0 && Reach(a, b, d - 1, x - 1, y) {
      ReachParity(a, b, d - 1, x - 1, y);
    } else {
      ReachParity(a, b, d - 1, x, y - 1);
    }
  }

  /** More edits than x + y are never needed. */
  lemma ReachCap(a: seq<Line>, b: seq<Line>, d: nat, x: nat, y: nat)
    requires d >= x + y
    ensures Reach(a, b, d, x, y)
  {
    ReachByWalls(a, b, x, y);
    ReachMonotone(a, b, x + y, d, x, y);
  }

  /** Giving back one inserted line costs at most one edit. */
  lemma {:induction false} ReachUp(a: seq<Line>, b: seq<Line>, d: nat, x: nat, y: nat)
    requires Reach(a, b, d, x, y + 1)
    ensures Reach(a, b, d + 1, x, y)
    decreases x + y
  {
    if x > 0 && Match(a, b, x - 1, y) && Reach(a, b, d, x - 1, y) {
    } else if d > 0 && x > 0 && Reach(a, b, d - 1, x - 1, y + 1) {
      ReachUp(a, b, d - 1, x - 1, y);
    } else {
      ReachMonotone(a, b, d - 1, d + 1, x, y);
    }
  }

  /** Giving back one deleted line costs at most one edit. */
  lemma {:induction false} ReachLeft(a: seq<Line>, b: seq<Line>, d: nat, x: nat, y: nat)
    requires Reach(a, b, d, x + 1, y)
    ensures Reach(a, b, d + 1, x, y)
    decreases x + y
  {
    if y > 0 && Match(a, b, x, y - 1) && Reach(a, b, d, x, y - 1) {
    } else if d > 0 && Reach(a, b, d - 1, x, y) {
      ReachMonotone(a, b, d - 1, d + 1, x, y);
    } else {
      ReachLeft(a, b, d - 1, x, y - 1);
    }
  }

  /** Costs never fall along a diagonal. */
  lemma ReachBack(a: seq<Line>, b: seq<Line>, d: nat, x: nat, y: nat, s: nat)
    requires Reach(a, b, d, x + s, y + s)
    ensures Reach(a, b, d, x, y)
    decreases s
  {
    if s > 0 {
      var x', y' := x + s - 1, y + s - 1;
      if Match(a, b, x', y') && Reach(a, b, d, x', y') {
      } else if d > 0 && Reach(a, b, d - 1, x', y' + 1) {
        ReachUp(a, b, d - 1, x', y');
      } else {
        ReachLeft(a, b, d - 1, x', y');
      }
      ReachBack(a, b, d, x, y, s - 1);
    }
  }

  /** Right of the last old line every step is a deletion. */
  lemma {:induction false} ReachBeyondOld(a: seq<Line>, b: seq<Line>, d: nat, x: nat, y: nat)
    requires Reach(a, b, d, x, y) && x > |a|
    ensures d >= x - |a| && Reach(a, b, d - (x - |a|), |a|, y)
    decreases x + y
  {
    if d > 0 && Reach(a, b, d - 1, x - 1, y) {
      if x - 1 > |a| {
        ReachBeyondOld(a, b, d - 1, x - 1, y);
      }
    } else {
      ReachBeyondOld(a, b, d - 1, x, y - 1);
      assert d > x - |a|;
    }
  }

  /** Below the last new line every step is an insertion. */
  lemma {:induction false} ReachBeyondNew(a: seq<Line>, b: seq<Line>, d: nat, x: nat, y: nat)
    requires Reach(a, b, d, x, y) && y > |b|
    ensures d >= y - |b| && Reach(a, b, d - (y - |b|), x, |b|)
    decreases x + y
  {
    if d > 0 && x > 0 && Reach(a, b, d - 1, x - 1, y) {
      ReachBeyondNew(a, b, d - 1, x - 1, y);
      assert d > y - |b|;
    } else {
      if y - 1 > |b| {
        ReachBeyondNew(a, b, d - 1, x, y - 1);
      }
    }
  }

  /** Two consecutive stretches add up. */
  lemma {:induction false} ReachThen(a: seq<Line>, b: seq<Line>, d: nat, x: nat, y: nat, e: nat, p: nat, q: nat)
    requires x <= |a| && y <= |b|
    requires Reach(a, b, d, x, y) && Reach(a[x..], b[y..], e, p, q)
    ensures Reach(a, b, d + e, x + p, y + q)
    decreases p + q
  {
    if p == 0 && q == 0 {
      ReachMonotone(a, b, d, d + e, x, y);
    } else if p > 0 && q > 0 && Match(a[x..], b[y..], p - 1, q - 1) && Reach(a[x..], b[y..], e, p - 1, q - 1) {
      ReachThen(a, b, d, x, y, e, p - 1, q - 1);
    } else if e > 0 && p > 0 && Reach(a[x..], b[y..], e - 1, p - 1, q) {
      ReachThen(a, b, d, x, y, e - 1, p - 1, q);
    } else {
      ReachThen(a, b, d, x, y, e - 1, p, q - 1);
    }
  }

  /** A forward and a reverse stretch meeting at (x, y) make a full one. */
  lemma {:induction false} ReachMeet(a: seq<Line>, b: seq<Line>, d: nat, e: nat, p: nat, q: nat)
    requires p <= |a| && q <= |b|
    requires Reach(a, b, d, |a| - p, |b| - q) && Reach(Rev(a), Rev(b), e, p, q)
    ensures Reach(a, b, d + e, |a|, |b|)
    decreases p + q
  {
    var x, y := |a| - p, |b| - q;
    if p == 0 && q == 0 {
      ReachMonotone(a, b, d, d + e, x, y);
    } else if p > 0 && q > 0 && Match(Rev(a), Rev(b), p - 1, q - 1) && Reach(Rev(a), Rev(b), e, p - 1, q - 1) {
      assert Match(a, b, x, y);
      assert Reach(a, b, d, x + 1, y + 1);
      ReachMeet(a, b, d, e, p - 1, q - 1);
    } else if e > 0 && p > 0 && Reach(Rev(a), Rev(b), e - 1, p - 1, q) {
      assert Reach(a, b, d + 1, x + 1, y);
      ReachMeet(a, b, d + 1, e - 1, p - 1, q);
    } else {
      assert Reach(a, b, d + 1, x, y + 1);
      ReachMeet(a, b, d + 1, e - 1, p, q - 1);
    }
  }

  /** Any path of cost d + e has a point that splits it into cost d and cost e. */
  lemma {:induction false} ReachSplit(a: seq<Line>, b: seq<Line>, d: nat, e: nat, p: nat, q: nat)
    returns (p': nat, q': nat)
    requires p <= |a| && q <= |b|
    requires Reach(a, b, d + e, |a| - p, |b| - q) && Reach(Rev(a), Rev(b), 0, p, q)
    ensures p' <= |a| && q' <= |b|
    ensures Reach(a, b, d, |a| - p', |b| - q') && Reach(Rev(a), Rev(b), e, p', q')
  {
    p', q' := ReachSplitFrom(a, b, d, e, 0, p, q);
  }

  lemma {:induction false} ReachSplitFrom(a: seq<Line>, b: seq<Line>, d: nat, e: nat, f: nat, p: nat, q: nat)
    returns (p': nat, q': nat)
    requires p <= |a| && q <= |b|
    requires Reach(a, b, d + e, |a| - p, |b| - q) && Reach(Rev(a), Rev(b), f, p, q)
    ensures p' <= |a| && q' <= |b|
    ensures Reach(a, b, d, |a| - p', |b| - q') && Reach(Rev(a), Rev(b), e + f, p', q')
    decreases |a| + |b| - p - q
  {
    var x, y := |a| - p, |b| - q;
    if x == 0 && y == 0 {
      p', q' := p, q;
      ReachMonotone(Rev(a), Rev(b), f, e + f, p, q);
    } else if x > 0 && y > 0 && Match(a, b, x - 1, y - 1) && Reach(a, b, d + e, x - 1, y - 1) {
      assert Match(Rev(a), Rev(b), p, q);
      assert Reach(Rev(a), Rev(b), f, p + 1, q + 1);
      p', q' := ReachSplitFrom(a, b, d, e, f, p + 1, q + 1);
    } else if e == 0 {
      p', q' := p, q;
    } else if x > 0 && Reach(a, b, d + e - 1, x - 1, y) {
      assert Reach(Rev(a), Rev(b), f + 1, p + 1, q);
      p', q' := ReachSplitFrom(a, b, d, e - 1, f + 1, p + 1, q);
    } else {
      assert Reach(Rev(a), Rev(b), f + 1, p, q + 1);
      p', q' := ReachSplitFrom(a, b, d, e - 1, f + 1, p, q + 1);
    }
  }

  /** Only the lines before (x, y) matter for reaching it. */
  lemma {:induction false} ReachPrefix(a: seq<Line>, b: seq<Line>, u: nat, v: nat, d: nat, x: nat, y: nat)
    requires x <= u <= |a| && y <= v <= |b|
    ensures Reach(a, b, d, x, y) == Reach(a[..u], b[..v], d, x, y)
    decreases x + y
  {
    if x > 0 && y > 0 {
      ReachPrefix(a, b, u, v, d, x - 1, y - 1);
    }
    if d > 0 && x > 0 {
      ReachPrefix(a, b, u, v, d - 1, x - 1, y);
    }
    if d > 0 && y > 0 {
      ReachPrefix(a, b, u, v, d - 1, x, y - 1);
    }
  }

  /** Reversing both lists keeps the cost of the whole. */
  lemma ReachReversed(a: seq<Line>, b: seq<Line>, d: nat)
    requires Reach(Rev(a), Rev(b), d, |a|, |b|)
    ensures Reach(a, b, d, |a|, |b|)
  {
    ReachMeet(a, b, 0, d, |a|, |b|);
  }

  // ---------------------------------------------------------------------------
  // the least cost
  // ---------------------------------------------------------------------------

  /** The least number of deletions and insertions that turn a into b. */
  ghost function Distance(a: seq<Line>, b: seq<Line>): (d: nat)
    ensures Reach(a, b, d, |a|, |b|)
    ensures forall e: nat :: Reach(a, b, e, |a|, |b|) ==> d <= e
  {
    DistanceFrom(a, b, 0)
  }

  ghost function DistanceFrom(a: seq<Line>, b: seq<Line>, low: nat): (d: nat)
    requires low <= |a| + |b|
    requires forall e: nat :: Reach(a, b, e, |a|, |b|) ==> low <= e
    ensures Reach(a, b, d, |a|, |b|)
    ensures forall e: nat :: Reach(a, b, e, |a|, |b|) ==> d <= e
    decreases |a| + |b| - low
  {
    ReachByWalls(a, b, |a|, |b|);
    if Reach(a, b, low, |a|, |b|) then low else DistanceFrom(a, b, low + 1)
  }

  lemma DistanceOneSided(a: seq<Line>, b: seq<Line>)
    requires a == [] || b == []
    ensures Distance(a, b) == |a| + |b|
  {
    ReachGap(a, b, Distance(a, b), |a|, |b|);
    ReachByWalls(a, b, |a|, |b|);
  }

  lemma {:induction false} ReachAlongEqual(a: seq<Line>, b: seq<Line>, d: nat, x: nat, y: nat, s: nat)
    requires Reach(a, b, d, x, y)
    requires x + s <= |a| && y + s <= |b| && a[x..x + s] == b[y..y + s]
    ensures Reach(a, b, d, x + s, y + s)
    decreases s
  {
    if s > 0 {
      EqualButLast(a, b, x, y, s);
      ReachAlongEqual(a, b, d, x, y, s - 1);
    }
  }

  lemma EqualButLast(a: seq<Line>, b: seq<Line>, x: nat, y: nat, s: nat)
    requires s > 0 && x + s <= |a| && y + s <= |b| && a[x..x + s] == b[y..y + s]
    ensures a[x..x + s - 1] == b[y..y + s - 1] && a[x + s - 1] == b[y + s - 1]
  {
    var u, v := a[x..x + s], b[y..y + s];
    assert u[..s - 1] == a[x..x + s - 1];
    assert v[..s - 1] == b[y..y + s - 1];
    assert u[s - 1] == a[x + s - 1] && v[s - 1] == b[y + s - 1];
  }

  // ---------------------------------------------------------------------------
  // edit scripts
  // ---------------------------------------------------------------------------

  datatype Edit = EditEql(oldLine: nat, newLine: nat) | EditIns(newLine: nat) | EditDel(oldLine: nat)

  /** The script s leads from (x, y) to (x', y'): it names every old line from x to x' and every
      new line from y to y' once, in order, and pairs only equal lines. */
  ghost predicate Leads(a: seq<Line>, b: seq<Line>, s: seq<Edit>, x: nat, y: nat, x': nat, y': nat)
  {
    if s == [] then x == x' && y == y' else
    match s[0]
    case EditEql(o, n) => o == x && n == y && Match(a, b, x, y) && Leads(a, b, s[1..], x + 1, y + 1, x', y')
    case EditDel(o) => o == x && x < |a| && Leads(a, b, s[1..], x + 1, y, x', y')
    case EditIns(n) => n == y && y < |b| && Leads(a, b, s[1..], x, y + 1, x', y')
  }

  /** s is a complete edit script from a to b. */
  ghost predicate IsScript(a: seq<Line>, b: seq<Line>, s: seq<Edit>)
  {
    Leads(a, b, s, 0, 0, |a|, |b|)
  }

  function Cost(s: seq<Edit>): nat
  {
    if s == [] then 0 else (if s[0].EditEql? then 0 else 1) + Cost(s[1..])
  }

  lemma {:induction false} LeadsConcat(a: seq<Line>, b: seq<Line>, s: seq<Edit>, t: seq<Edit>,
                                       x: nat, y: nat, x': nat, y': nat, x'': nat, y'': nat)
    requires Leads(a, b, s, x, y, x', y') && Leads(a, b, t, x', y', x'', y'')
    ensures Leads(a, b, s + t, x, y, x'', y'')
    ensures Cost(s + t) == Cost(s) + Cost(t)
    decreases |s|
  {
    if s == [] {
      assert s + t == t;
    } else {
      assert (s + t)[1..] == s[1..] + t;
      match s[0]
      case EditEql(_, _) => LeadsConcat(a, b, s[1..], t, x + 1, y + 1, x', y', x'', y'');
      case EditDel(_) => LeadsConcat(a, b, s[1..], t, x + 1, y, x', y', x'', y'');
      case EditIns(_) => LeadsConcat(a, b, s[1..], t, x, y + 1, x', y', x'', y'');
    }
  }

  /** Every line number in the script names a line. */
  ghost predicate Readable(a: seq<Line>, b: seq<Line>, s: seq<Edit>)
  {
    forall e :: e in s ==> match e
                           case EditEql(o, _) => o < |a|
                           case EditIns(n) => n < |b|
                           case EditDel(o) => o < |a|
  }

  /** The new text a reader of the script writes down: old lines for equal edits, new lines for insertions. */
  ghost function Replay(a: seq<Line>, b: seq<Line>, s: seq<Edit>): seq<Line>
    requires Readable(a, b, s)
  {
    if s == [] then [] else
    assert s[0] in s && forall e :: e in s[1..] ==> e in s;
    (match s[0]
     case EditEql(o, _) => [a[o]]
     case EditIns(n) => [b[n]]
     case EditDel(_) => []) + Replay(a, b, s[1..])
  }

  lemma {:induction false} LeadsReplays(a: seq<Line>, b: seq<Line>, s: seq<Edit>, x: nat, y: nat, x': nat, y': nat)
    requires Leads(a, b, s, x, y, x', y') && x <= |a| && y <= |b|
    ensures x <= x' <= |a| && y <= y' <= |b|
    ensures Readable(a, b, s)
    ensures Replay(a, b, s) == b[y..y']
    decreases |s|
  {
    if s != [] {
      var x1 := if s[0].EditIns? then x else x + 1;
      var y1 := if s[0].EditDel? then y else y + 1;
      LeadsReplays(a, b, s[1..], x1, y1, x', y');
      assert forall e :: e in s ==> e == s[0] || e in s[1..];
      assert y1 > y ==> b[y..y'] == [b[y]] + b[y1..y'];
    }
  }

  /** Replaying a complete script yields exactly the new lines. */
  lemma ScriptReplaysToNew(a: seq<Line>, b: seq<Line>, s: seq<Edit>)
    requires IsScript(a, b, s)
    ensures Readable(a, b, s)
    ensures Replay(a, b, s) == b
  {
    LeadsReplays(a, b, s, 0, 0, |a|, |b|);
  }

  lemma {:induction false} LeadsCost(a: seq<Line>, b: seq<Line>, s: seq<Edit>, x: nat, y: nat, x': nat, y': nat, d: nat)
    requires Leads(a, b, s, x, y, x', y') && Reach(a, b, d, x, y)
    ensures Reach(a, b, d + Cost(s), x', y')
    decreases |s|
  {
    if s != [] {
      match s[0]
      case EditEql(_, _) => LeadsCost(a, b, s[1..], x + 1, y + 1, x', y', d);
      case EditDel(_) => LeadsCost(a, b, s[1..], x + 1, y, x', y', d + 1);
      case EditIns(_) => LeadsCost(a, b, s[1..], x, y + 1, x', y', d + 1);
    }
  }

  /** No complete script is cheaper than Distance. */
  lemma ScriptCostsAtLeastDistance(a: seq<Line>, b: seq<Line>, s: seq<Edit>)
    requires IsScript(a, b, s)
    ensures Cost(s) >= Distance(a, b)
  {
    LeadsCost(a, b, s, 0, 0, |a|, |b|, 0);
  }
}
