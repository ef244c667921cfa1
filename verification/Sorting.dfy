/** sort.Slice, which sorts by any order. */
module Sorting {
  /** No two things come before each other, and what does not come before something does not come before
      anything later. */
  ghost predicate IsOrder<T(!new)>(less: (T, T) -> bool)
  {
    && (forall a, b :: less(a, b) ==> !less(b, a))
    && forall a, b, c :: !less(a, b) && !less(b, c) ==> !less(a, c)
  }

  ghost predicate Ordered<T(!new)>(less: (T, T) -> bool, s: seq<T>)
  {
    forall i, j :: 0 <= i < j < |s| ==> !less(s[j], s[i])
  }

  predicate Distinct<T(==)>(s: seq<T>)
  {
    forall i, j :: 0 <= i < j < |s| ==> s[i] != s[j]
  }

  lemma InsertedOrdered<T(!new)>(less: (T, T) -> bool, s: seq<T>, x: T, p: nat)
    requires IsOrder(less) && Ordered(less, s) && p <= |s| && (p > 0 ==> !less(x, s[p - 1]))
    requires forall k :: p <= k < |s| ==> less(x, s[k])
    ensures Ordered(less, s[..p] + [x] + s[p..])
  {
    var t := s[..p] + [x] + s[p..];
    forall i, j | 0 <= i < j < |t|
      ensures !less(t[j], t[i])
    {
      assert i != p ==> t[i] == s[if i < p then i else i - 1];
      assert j != p ==> t[j] == s[if j < p then j else j - 1];
      if j == p {
        assert i < p - 1 ==> !less(s[p - 1], s[i]);
      }
    }
  }

  lemma InsertedMembers<T>(s: seq<T>, x: T, p: nat)
    requires p <= |s|
    ensures forall y :: y in s[..p] + [x] + s[p..] <==> y in s || y == x
  {
    assert s == s[..p] + s[p..];
  }

  lemma InsertedDistinct<T>(s: seq<T>, x: T, p: nat)
    requires Distinct(s) && p <= |s| && x !in s
    ensures Distinct(s[..p] + [x] + s[p..])
  {
    var t := s[..p] + [x] + s[p..];
    forall i, j | 0 <= i < j < |t|
      ensures t[i] != t[j]
    {
      var a, b := if i < p then i else i - 1, if j < p then j else j - 1;
      assert i != p ==> t[i] == s[a];
      assert j != p ==> t[j] == s[b];
    }
  }

  /** Sort distinct things. */
  method Sort<T(==, !new)>(less: (T, T) -> bool, s: seq<T>) returns (r: seq<T>)
    requires IsOrder(less) && Distinct(s)
    ensures Ordered(less, r) && Distinct(r) && |r| == |s| && forall x :: x in r <==> x in s
  {
    r := [];
    for i := 0 to |s|
      invariant Ordered(less, r) && Distinct(r) && |r| == i && forall x :: x in r <==> x in s[..i]
    {
      var p := |r|;
      while p > 0 && less(s[i], r[p - 1])
        invariant 0 <= p <= |r| && forall k :: p <= k < |r| ==> less(s[i], r[k])
      {
        p := p - 1;
      }
      assert s[i] !in s[..i] && s[..i + 1] == s[..i] + [s[i]];
      InsertedOrdered(less, r, s[i], p);
      InsertedMembers(r, s[i], p);
      InsertedDistinct(r, s[i], p);
      r := r[..p] + [s[i]] + r[p..];
    }
    assert s[..|s|] == s;
  }

  /** Of things no two of which are alike to the order, there is only one ordered list. */
  lemma {:induction false} OrderedOnce<T(!new)>(less: (T, T) -> bool, s: seq<T>, t: seq<T>)
    requires IsOrder(less) && Ordered(less, s) && Ordered(less, t) && Distinct(s) && Distinct(t)
    requires forall x :: x in s <==> x in t
    requires forall x, y :: x in s && y in s && x != y ==> less(x, y) || less(y, x)
    ensures s == t
    decreases |s|
  {
    if s == [] {
      HasMember(t);
    } else {
      assert s[0] in s && t != [];
      assert t[0] in t;
      FirstIsLeast(less, s, t[0]);
      FirstIsLeast(less, t, s[0]);
      forall x
        ensures x in s[1..] <==> x in t[1..]
      {
        TailMember(s, x);
        TailMember(t, x);
      }
      OrderedOnce(less, s[1..], t[1..]);
      assert s == [s[0]] + s[1..] && t == [t[0]] + t[1..];
    }
  }

  lemma FirstIsLeast<T(!new)>(less: (T, T) -> bool, s: seq<T>, x: T)
    requires Ordered(less, s) && x in s
    ensures x == s[0] || !less(x, s[0])
  {
    var i :| 0 <= i < |s| && s[i] == x;
  }

  lemma HasMember<T(!new)>(s: seq<T>)
    ensures s != [] ==> exists x :: x in s
  {
    if s != [] {
      assert s[0] in s;
    }
  }

  lemma TailMember<T>(s: seq<T>, x: T)
    requires s != [] && Distinct(s)
    ensures x in s[1..] <==> x in s && x != s[0]
  {
    assert s == [s[0]] + s[1..];
    if x in s[1..] {
      var i :| 0 <= i < |s[1..]| && s[1..][i] == x;
      assert s[i + 1] == x;
    }
  }
}
