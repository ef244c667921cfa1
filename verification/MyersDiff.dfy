/** The resumable iterator of diff.go: an explicit stack of boxes, one shared buffer, and each range
    held back until the next one is known not to touch it. Whatever the number of calls, it yields
    the edits of MyersScript one by one. */
module MyersDiff {
  import opened Common
  import opened EditGraph
  import opened Cuts
  import opened Ranges
  import opened MiddleSnake

  datatype Action = Push | Pop

  /** The leaves of the boxes on the stack, the top of the stack first. */
  function StackLeaves(a: seq<Line>, b: seq<Line>, stack: seq<Box>): seq<Range>
    requires AllInBounds(a, b, stack)
  {
    if stack == [] then [] else
    Leaves(a, b, stack[|stack| - 1]) + StackLeaves(a, b, stack[..|stack| - 1])
  }

  lemma StackLeavesPush(a: seq<Line>, b: seq<Line>, stack: seq<Box>, x: Box)
    requires InBounds(a, b, x) && AllInBounds(a, b, stack)
    ensures AllInBounds(a, b, stack + [x])
    ensures StackLeaves(a, b, stack + [x]) == Leaves(a, b, x) + StackLeaves(a, b, stack)
  {
    assert (stack + [x])[..|stack|] == stack;
  }

  /** The ranges still to come, of the current box and of the stack. */
  function Todo(a: seq<Line>, b: seq<Line>, x: Box, stack: seq<Box>): seq<Range>
    requires InBounds(a, b, x) && AllInBounds(a, b, stack)
  {
    Leaves(a, b, x) + StackLeaves(a, b, stack)
  }

  predicate AllInBounds(a: seq<Line>, b: seq<Line>, stack: seq<Box>)
  {
    forall x :: x in stack ==> InBounds(a, b, x)
  }

  /** How much work a box can still cause. */
  function Weight(x: Box): nat
  {
    if x.n + x.m <= 0 then 0 else 2 * (x.n + x.m) - 1
  }

  function StackWeight(stack: seq<Box>): nat
  {
    if stack == [] then 0 else Weight(stack[|stack| - 1]) + StackWeight(stack[..|stack| - 1])
  }

  function Work(x: Box, stack: seq<Box>): nat { Weight(x) + StackWeight(stack) }

  lemma StackWeightPush(stack: seq<Box>, x: Box)
    ensures StackWeight(stack + [x]) == Weight(x) + StackWeight(stack)
  {
    assert (stack + [x])[..|stack|] == stack;
  }

  lemma CoalesceNonempty(p: Range, rs: seq<Range>)
    ensures Coalesce(Some(p), rs) != []
    decreases |rs|
  {
  }

  class MyersDiffIterator {
    const linesA: seq<Line>
    const linesB: seq<Line>
    var cache: seq<Edit>
    var stack: seq<Box>
    var action: Option<Action>
    const b: array<int>
    var i: int
    var j: int
    var n: int
    var m: int
    var z: int
    var rangeMaybe: Option<Range>
    var deferredRange: Range
    var nextIndex: nat
    var xIndex: nat
    var yIndex: nat

    /** The boxes are in bounds and the buffer is large enough for every one of them. */
    ghost predicate BoxesValid()
      reads this
    {
      && b.Length == 4 * (Min(|linesA|, |linesB|) + 1)
      && AllInBounds(linesA, linesB, stack)
      && (action == Some(Push) ==> InBounds(linesA, linesB, Box(i, n, j, m)) && z == 2 * (Min(n, m) + 1))
    }

    /** The ranges still to be handed over, the one held back included. */
    ghost function Remaining(): seq<Range>
      requires BoxesValid()
      reads this
    {
      match action
      case None => []
      case Some(Push) => Coalesce(rangeMaybe, Todo(linesA, linesB, Box(i, n, j, m), stack))
      case Some(Pop) => Coalesce(rangeMaybe, StackLeaves(linesA, linesB, stack))
    }

    /** The complete script of the two line lists. */
    ghost function Script(): seq<Edit>
      reads this
    {
      MyersScript(linesA, linesB)
    }

    ghost predicate Valid()
      reads this
    {
      && BoxesValid()
      && nextIndex <= |cache|
      && (action == None ==> cache == Script())
      && (action == Some(Push) ==> cache == [] && xIndex == yIndex == 0 && Remaining() == MyersRanges(linesA, linesB))
      && (action == Some(Pop) ==> rangeMaybe.Some? && MyersRanges(linesA, linesB) != [])
      && (action.Some? ==>
            && (forall r :: r in Remaining() ==> Sound(linesA, linesB, r))
            && AllEdits(linesA, linesB) == cache + EditsOf(linesA, linesB, xIndex, yIndex, Remaining()))
    }

    constructor (linesA: seq<Line>, linesB: seq<Line>)
      ensures Valid() && fresh(b)
      ensures this.linesA == linesA && this.linesB == linesB
      ensures nextIndex == 0
    {
      this.linesA, this.linesB := linesA, linesB;
      var n, m := |linesA|, |linesB|;
      var z := (Min(n, m) + 1) * 2;
      b := new int[2 * z];
      action := Some(Push);
      i, j, this.n, this.m, this.z := 0, 0, n, m, z;
      cache, stack, rangeMaybe := [], [], None;
      deferredRange := Range(0, 0, 0, 0);
      nextIndex, xIndex, yIndex := 0, 0, 0;
      new;
      assert Leaves(linesA, linesB, Whole(linesA, linesB)) + [] == Leaves(linesA, linesB, Whole(linesA, linesB));
      MyersRangesChain(linesA, linesB);
    }

    /** The inner loop of a push: cut the box, keep its right part for later, go on with its left part,
        until one side is empty. */
    method Descend(i0: int, n0: int, j0: int, m0: int, z0: int) returns (i: int, n: int, j: int, m: int, z: int)
      requires b.Length == 4 * (Min(|linesA|, |linesB|) + 1)
      requires AllInBounds(linesA, linesB, stack)
      requires InBounds(linesA, linesB, Box(i0, n0, j0, m0)) && z0 == 2 * (Min(n0, m0) + 1)
      modifies this`stack, b
      ensures AllInBounds(linesA, linesB, stack)
      ensures InBounds(linesA, linesB, Box(i, n, j, m)) && (n == 0 || m == 0)
      ensures Todo(linesA, linesB, Box(i, n, j, m), stack)
              == Todo(linesA, linesB, Box(i0, n0, j0, m0), old(stack))
      ensures stack == old(stack) || Work(Box(i, n, j, m), stack) < Work(Box(i0, n0, j0, m0), old(stack))
      ensures Work(Box(i, n, j, m), stack) <= Work(Box(i0, n0, j0, m0), old(stack))
    {
      hide Todo, Work, TheCut, AllInBounds;
      i, n, j, m, z := i0, n0, j0, m0, z0;
      ghost var all := Todo(linesA, linesB, Box(i, n, j, m), stack);
      while n > 0 && m > 0
        invariant AllInBounds(linesA, linesB, stack)
        invariant InBounds(linesA, linesB, Box(i, n, j, m))
        invariant n > 0 && m > 0 ==> z == 2 * (Min(n, m) + 1)
        invariant Todo(linesA, linesB, Box(i, n, j, m), stack) == all
        invariant stack == old(stack) || Work(Box(i, n, j, m), stack) < Work(Box(i0, n0, j0, m0), old(stack))
        invariant Work(Box(i, n, j, m), stack) <= Work(Box(i0, n0, j0, m0), old(stack))
        decreases Work(Box(i, n, j, m), stack)
      {
        ghost var x := Box(i, n, j, m);
        var c := FindCut(linesA[i..i + n], linesB[j..j + m], b, z);
        match c
        case Split(lx, ly, rx, ry) =>
          SplitLeaves(linesA, linesB, x, c, stack);
          stack := stack + [Box(i + rx, n - rx, j + ry, m - ry)];
          n, m := lx, ly;
          z := 2 * (Min(n, m) + 1);
        case Tail =>
          TailLeaves(linesA, linesB, x, stack);
          assert n != m;
          if m > n {
            i, j, m, n := i + n, j + n, m - n, 0;
          } else {
            i, j, n, m := i + m, j + m, n - m, 0;
          }
      }
    }

    /** Hold a range back, joined to the one held before if they touch; otherwise that one is complete. */
    method Hold(r: Range, ghost rest: seq<Range>) returns (full: bool)
      modifies this`rangeMaybe, this`deferredRange
      ensures rangeMaybe.Some?
      ensures Coalesce(old(rangeMaybe), [r] + rest)
              == (if full then [deferredRange] else []) + Coalesce(rangeMaybe, rest)
      ensures !full ==> Coalesce(old(rangeMaybe), [r] + rest) == Coalesce(rangeMaybe, rest)
    {
      hide Coalesce;
      CoalesceNext(rangeMaybe, r, rest);
      if rangeMaybe.Some? {
        var held := rangeMaybe.value;
        if held.delEnd == r.delStart || held.insEnd == r.insStart {
          rangeMaybe := Some(Range(held.delStart, r.delEnd, held.insStart, r.insEnd));
          return false;
        }
      }
      var savedRange := rangeMaybe;
      rangeMaybe := Some(r);
      if savedRange.Some? {
        deferredRange := savedRange.value;
        return true;
      }
      return false;
    }

    /** Run until a range is complete, or until no box is left. */
    method Diff(act: Action) returns (r: Option<Action>)
      requires BoxesValid() && action == Some(act)
      requires act == Pop ==> rangeMaybe.Some?
      modifies this`stack, this`rangeMaybe, this`deferredRange, this`i, this`j, this`n, this`m, this`z, b
      ensures AllInBounds(linesA, linesB, stack)
      ensures r != Some(Push)
      ensures r == None ==> stack == [] && old(Remaining()) == AsSeq(rangeMaybe)
      ensures r == Some(Pop) ==>
                rangeMaybe.Some?
                && old(Remaining()) == [deferredRange] + Coalesce(rangeMaybe, StackLeaves(linesA, linesB, stack))
    {
      hide Todo, Work, Coalesce, AllInBounds, Leaves, StackLeaves, StackWeight, TheCut, Weight;
      ghost var remaining := Remaining();
      var i, j, n, m, z := this.i, this.j, this.n, this.m, this.z;
      var cur := act;
      while true
        invariant AllInBounds(linesA, linesB, stack)
        invariant cur == Push ==> InBounds(linesA, linesB, Box(i, n, j, m)) && z == 2 * (Min(n, m) + 1)
        invariant cur == Push ==> remaining == Coalesce(rangeMaybe, Todo(linesA, linesB, Box(i, n, j, m), stack))
        invariant cur == Pop ==> remaining == Coalesce(rangeMaybe, StackLeaves(linesA, linesB, stack))
        decreases if cur == Push then Work(Box(i, n, j, m), stack) else StackWeight(stack), |stack|, cur == Push
      {
        match cur
        case Push =>
          i, n, j, m, z := Descend(i, n, j, m, z);
          LeafTodo(linesA, linesB, Box(i, n, j, m), stack);
          LeafWork(Box(i, n, j, m), stack);
          if n + m != 0 {
            var full := Hold(Range(i, i + n, j, j + m), StackLeaves(linesA, linesB, stack));
            if full {
              this.i, this.n, this.j, this.m, this.z := i, n, j, m, z;
              return Some(Pop);
            }
          }
          cur := Pop;
        case Pop =>
          if |stack| == 0 {
            CoalesceEnd(linesA, linesB, rangeMaybe);
            return None;
          }
          PopTodo(linesA, linesB, stack);
          var top := stack[|stack| - 1];
          i, n, j, m := top.i, top.n, top.j, top.m;
          stack := stack[..|stack| - 1];
          z := 2 * (Min(n, m) + 1);
          cur := Push;
      }
    }

    /** What has been produced so far is the beginning of the script. */
    lemma CachePrefix()
      requires Valid()
      ensures cache <= Script()
    {
      hide Coalesce, Leaves, StackLeaves, Sound, AllEdits, EditsOf, MyersRanges;
      if action == Some(Push) {
        assert cache == [];
      }
    }

    /** Append the equal lines before a range, its deletions and its insertions. */
    method AppendRange(r: Range)
      requires Sound(linesA, linesB, r)
      modifies this`cache
      ensures cache == old(cache) + RangeEdits(xIndex, yIndex, r)
    {
      AppendEqual(xIndex, yIndex, r.delStart, r.insStart);
      ghost var s := cache;
      var oi: nat := r.delStart;
      while oi < r.delEnd
        invariant oi <= r.delEnd
        invariant cache + Dels(oi, r.delEnd) == s + Dels(r.delStart, r.delEnd)
      {
        cache := cache + [EditDel(oi)];
        oi := oi + 1;
      }
      assert cache == cache + Dels(oi, r.delEnd);
      ghost var t := cache;
      var ni: nat := r.insStart;
      while ni < r.insEnd
        invariant ni <= r.insEnd
        invariant cache + Inss(ni, r.insEnd) == t + Inss(r.insStart, r.insEnd)
      {
        cache := cache + [EditIns(ni)];
        ni := ni + 1;
      }
      assert cache == cache + Inss(ni, r.insEnd);
      assert cache == old(cache) + (Eqls(xIndex, yIndex, r.delStart, r.insStart) + Dels(r.delStart, r.delEnd)
                                    + Inss(r.insStart, r.insEnd));
    }

    method AppendEqual(x: nat, y: nat, x': int, y': int)
      modifies this`cache
      ensures cache == old(cache) + Eqls(x, y, x', y')
    {
      var oi: nat, ni: nat := x, y;
      while oi < x' && ni < y'
        invariant cache + Eqls(oi, ni, x', y') == old(cache) + Eqls(x, y, x', y')
        decreases x' - oi
      {
        cache := cache + [EditEql(oi, ni)];
        oi, ni := oi + 1, ni + 1;
      }
    }

    /** The next edit of the script, or none after the last one. */
    method Next() returns (e: Option<Edit>)
      requires Valid()
      modifies this, b
      ensures Valid()
      ensures e == if old(nextIndex) < |Script()| then Some(Script()[old(nextIndex)]) else None
      ensures nextIndex == old(nextIndex) + if e.Some? then 1 else 0
    {
      if nextIndex >= |cache| {
        if action == None {
          return None;
        }
        var more := Produce();
        if !more {
          return None;
        }
      }
      CachePrefix();
      e := Some(cache[nextIndex]);
      nextIndex := nextIndex + 1;
    }

    /** Extend the cache by the edits of one more range. */
    method Produce() returns (more: bool)
      requires Valid() && action.Some?
      modifies this, b
      ensures Valid() && nextIndex == old(nextIndex)
      ensures if more then |cache| > |old(cache)| else cache == Script() == old(cache)
    {
      hide Coalesce, Leaves, StackLeaves, Sound, AllEdits, EditsOf, RangeEdits, MyersRanges, Eqls, InBounds;
      ghost var before := Remaining();
      if action == Some(Pop) {
        CoalesceNonempty(rangeMaybe.value, StackLeaves(linesA, linesB, stack));
      }
      var result := Diff(action.value);
      action := result;
      var r: Range;
      if result == Some(Pop) {
        r := deferredRange;
      } else if rangeMaybe.Some? {
        r := rangeMaybe.value;
      } else {
        return false;
      }
      assert before == [r] + Remaining();
      EditsOfNext(linesA, linesB, xIndex, yIndex, r, before);
      AppendRange(r);
      RangeEditsNonempty(xIndex, yIndex, r);
      if result == None {
        EditsOfNone(linesA, linesB, r.delEnd, r.insEnd);
        AppendEqual(r.delEnd, r.insEnd, |linesA|, |linesB|);
      }
      xIndex, yIndex := r.delEnd, r.insEnd;
      return true;
    }

    /** The new line paired with an old line, if any: run to the end, then look through the edits. */
    method Get(oldLine: nat) returns (r: Option<nat>)
      requires Valid()
      modifies this, b
      ensures Valid() && nextIndex >= |Script()|
      ensures r == Lookup(Script(), oldLine)
    {
      while true
        invariant Valid()
        decreases |Script()| - nextIndex
      {
        var e := Next();
        if e == None {
          break;
        }
      }
      CachePrefix();
      assert cache == Script();
      r := Scan(cache, oldLine);
    }

    static method Scan(edits: seq<Edit>, oldLine: nat) returns (r: Option<nat>)
      ensures r == Lookup(edits, oldLine)
    {
      for t := 0 to |edits|
        invariant Lookup(edits, oldLine) == Lookup(edits[t..], oldLine)
      {
        match edits[t] {
          case EditEql(x, y) =>
            if x == oldLine {
              return Some(y);
            } else if x > oldLine {
              return None;
            }
          case _ =>
        }
      }
      return None;
    }

    method Contains(oldLine: nat) returns (r: bool)
      requires Valid()
      modifies this, b
      ensures Valid()
      ensures r == Lookup(Script(), oldLine).Some?
    {
      var o := Get(oldLine);
      return o.Some?;
    }

    /** Start over: the same edits come again, from the cache. */
    method Reset()
      requires Valid()
      modifies this`nextIndex
      ensures Valid() && nextIndex == 0
    {
      nextIndex := 0;
    }
  }

  lemma LeafWork(x: Box, stack: seq<Box>)
    ensures StackWeight(stack) <= Work(x, stack)
  {
  }

  lemma CoalesceEnd(a: seq<Line>, b: seq<Line>, pending: Option<Range>)
    ensures Coalesce(pending, StackLeaves(a, b, [])) == AsSeq(pending)
  {
  }

  /** Cutting a box replaces its leaves by those of its two parts, and leaves less work. */
  lemma SplitLeaves(a: seq<Line>, b: seq<Line>, x: Box, c: Cut, stack: seq<Box>)
    requires InBounds(a, b, x) && x.n > 0 && x.m > 0 && AllInBounds(a, b, stack)
    requires c == TheCut(OldLines(a, b, x), NewLines(a, b, x)) && c.Split?
    ensures InBounds(a, b, Left(x, c)) && InBounds(a, b, Right(x, c))
    ensures AllInBounds(a, b, stack + [Right(x, c)])
    ensures Todo(a, b, Left(x, c), stack + [Right(x, c)]) == Todo(a, b, x, stack)
    ensures Work(Left(x, c), stack + [Right(x, c)]) < Work(x, stack)
  {
    hide TheCut;
    CutBoxes(a, b, x);
    LeavesOfSplit(a, b, x, c);
    StackLeavesPush(a, b, stack, Right(x, c));
    StackWeightPush(stack, Right(x, c));
  }

  /** Trimming the common prefix of a box leaves its one range. */
  lemma TailLeaves(a: seq<Line>, b: seq<Line>, x: Box, stack: seq<Box>)
    requires InBounds(a, b, x) && x.n > 0 && x.m > 0 && AllInBounds(a, b, stack)
    requires TheCut(OldLines(a, b, x), NewLines(a, b, x)) == Tail
    ensures x.n != x.m && InBounds(a, b, Trim(x))
    ensures Todo(a, b, Trim(x), stack) == Todo(a, b, x, stack)
    ensures Work(Trim(x), stack) < Work(x, stack)
  {
    hide TheCut;
    CutBoxes(a, b, x);
  }

  /** Popping a box makes it the current one. */
  lemma PopTodo(a: seq<Line>, b: seq<Line>, stack: seq<Box>)
    requires AllInBounds(a, b, stack) && stack != []
    ensures var top, rest := stack[|stack| - 1], stack[..|stack| - 1];
            && InBounds(a, b, top) && AllInBounds(a, b, rest)
            && StackLeaves(a, b, stack) == Todo(a, b, top, rest)
            && StackWeight(stack) == Work(top, rest)
  {
  }

  /** A box with an empty side is one range, or none. */
  lemma LeafTodo(a: seq<Line>, b: seq<Line>, x: Box, stack: seq<Box>)
    requires InBounds(a, b, x) && AllInBounds(a, b, stack) && (x.n == 0 || x.m == 0)
    ensures Todo(a, b, x, stack) == (if x.n + x.m != 0 then [RangeOf(x)] else []) + StackLeaves(a, b, stack)
    ensures x.n + x.m == 0 ==> Todo(a, b, x, stack) == StackLeaves(a, b, stack)
  {
  }

  lemma CoalesceNext(pending: Option<Range>, r: Range, rest: seq<Range>)
    ensures Coalesce(pending, [r] + rest) ==
            match pending
            case None => Coalesce(Some(r), rest)
            case Some(p) =>
              if p.delEnd == r.delStart || p.insEnd == r.insStart
              then Coalesce(Some(Range(p.delStart, r.delEnd, p.insStart, r.insEnd)), rest)
              else [p] + Coalesce(Some(r), rest)
  {
    assert ([r] + rest)[1..] == rest;
  }

  /** The first equal edit with this old line, in a list of edits with ascending old lines. */
  function Lookup(s: seq<Edit>, o: nat): Option<nat>
  {
    if s == [] then None else
    match s[0]
    case EditEql(x, y) => if x < o then Lookup(s[1..], o) else if x == o then Some(y) else None
    case _ => Lookup(s[1..], o)
  }

  lemma EditsOfNext(a: seq<Line>, b: seq<Line>, x: nat, y: nat, r: Range, rs: seq<Range>)
    requires rs != [] && rs[0] == r && forall q :: q in rs ==> Sound(a, b, q)
    ensures Sound(a, b, r) && forall q :: q in rs[1..] ==> Sound(a, b, q)
    ensures 0 <= r.delStart <= r.delEnd && 0 <= r.insStart <= r.insEnd
            && (r.delStart < r.delEnd || r.insStart < r.insEnd)
    ensures EditsOf(a, b, x, y, rs) == RangeEdits(x, y, r) + EditsOf(a, b, r.delEnd, r.insEnd, rs[1..])
  {
    assert rs[0] in rs;
  }

  lemma EditsOfNone(a: seq<Line>, b: seq<Line>, x: nat, y: nat)
    ensures EditsOf(a, b, x, y, []) == Eqls(x, y, |a|, |b|)
  {
  }

  lemma RangeEditsNonempty(x: nat, y: nat, r: Range)
    requires 0 <= r.delStart && 0 <= r.insStart && (r.delStart < r.delEnd || r.insStart < r.insEnd)
    ensures |RangeEdits(x, y, r)| > 0
  {
  }
}
