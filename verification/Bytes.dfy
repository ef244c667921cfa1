/** Bytes, and the numbers a run of bytes stands for. */
module Bytes {
  import opened Common

  type Byte = b: int | 0 <= b < 256

  function Zeros(n: nat): seq<Byte> { seq(n, _ => 0) }

  /** The number that bytes stand for, the most significant first. */
  function BigEndian(s: seq<Byte>): (n: nat)
  {
    if s == [] then 0 else BigEndian(s[..|s| - 1]) * 256 + s[|s| - 1]
  }

  /** The number that bytes stand for, the least significant first. */
  function LittleEndian(s: seq<Byte>): (n: nat)
  {
    if s == [] then 0 else s[0] + LittleEndian(s[1..]) * 256
  }

  /** The order of bytes.Compare: by the first byte that differs, and a proper prefix first. */
  function Compare(a: seq<Byte>, b: seq<Byte>): int
  {
    if a == [] && b == [] then 0
    else if a == [] then -1
    else if b == [] then 1
    else if a[0] < b[0] then -1
    else if a[0] > b[0] then 1
    else Compare(a[1..], b[1..])
  }

  lemma {:induction false} CompareEqual(a: seq<Byte>, b: seq<Byte>)
    ensures Compare(a, b) == 0 <==> a == b
    decreases |a|
  {
    if a != [] && b != [] {
      assert a == [a[0]] + a[1..] && b == [b[0]] + b[1..];
      CompareEqual(a[1..], b[1..]);
    }
  }

  lemma {:induction false} CompareTransitive(a: seq<Byte>, b: seq<Byte>, c: seq<Byte>)
    requires Compare(a, b) < 0 && Compare(b, c) < 0
    ensures Compare(a, c) < 0
    decreases |a|
  {
    if a != [] && b != [] && c != [] && a[0] == b[0] == c[0] {
      CompareTransitive(a[1..], b[1..], c[1..]);
    }
  }

  lemma {:induction false} CompareFlipped(a: seq<Byte>, b: seq<Byte>)
    ensures Compare(a, b) == -Compare(b, a)
    decreases |a|
  {
    if a != [] && b != [] {
      CompareFlipped(a[1..], b[1..]);
    }
  }

  /** Compare is the lexicographic order: a comes first when it has the smaller byte at the first difference, or ends
      where b goes on. */
  lemma {:induction false} CompareLexicographic(a: seq<Byte>, b: seq<Byte>)
    ensures Compare(a, b) < 0 <==>
              exists k: nat :: k <= |a| && k < |b| && a[..k] == b[..k] && (k == |a| || a[k] < b[k])
    decreases |a|
  {
    if a != [] && b != [] && a[0] == b[0] {
      CompareLexicographic(a[1..], b[1..]);
      if k: nat :| k <= |a| && k < |b| && a[..k] == b[..k] && (k == |a| || a[k] < b[k]) {
        if k > 0 {
          assert a[1..][..k - 1] == a[..k][1..] == b[..k][1..] == b[1..][..k - 1];
        }
      }
      var s, t := a[1..], b[1..];
      if j: nat :| j <= |s| && j < |t| && s[..j] == t[..j] && (j == |s| || s[j] < t[j]) {
        assert a[..j + 1] == [a[0]] + a[1..][..j];
        assert b[..j + 1] == [b[0]] + b[1..][..j];
      }
    } else if b != [] {
      assert a[..0] == b[..0];
    }
  }

  function Power(base: nat, k: nat): (p: nat)
  {
    if k == 0 then 1 else base * Power(base, k - 1)
  }

  /** The lowest k base-256 digits of a number, the least significant first. */
  function LittleEndianBytes(n: nat, k: nat): (s: seq<Byte>)
    ensures |s| == k
  {
    if k == 0 then [] else [n % 256] + LittleEndianBytes(n / 256, k - 1)
  }

  /** Later bytes count for more. */
  lemma {:induction false} LittleEndianThen(s: seq<Byte>, t: seq<Byte>)
    ensures LittleEndian(s + t) == LittleEndian(s) + Power(256, |s|) * LittleEndian(t)
    decreases |s|
  {
    if s == [] {
      assert s + t == t;
    } else {
      assert (s + t)[1..] == s[1..] + t;
      LittleEndianThen(s[1..], t);
      Spread(256, Power(256, |s| - 1), LittleEndian(t));
    }
  }

  lemma Spread(x: nat, y: nat, z: nat)
    ensures x * y * z == x * (y * z)
  {
  }

  /** Earlier bytes count for more. */
  lemma {:induction false} BigEndianThen(s: seq<Byte>, t: seq<Byte>)
    ensures BigEndian(s + t) == BigEndian(s) * Power(256, |t|) + BigEndian(t)
    decreases |t|
  {
    if t == [] {
      assert s + t == s;
    } else {
      var init := t[..|t| - 1];
      assert (s + t)[..|s + t| - 1] == s + init && (s + t)[|s + t| - 1] == t[|t| - 1];
      BigEndianThen(s, init);
      assert BigEndian(s + t) == BigEndian(s + init) * 256 + t[|t| - 1];
      Spread(BigEndian(s), Power(256, |init|), 256);
    }
  }

  lemma {:induction false} LittleEndianRoundTrip(n: nat, k: nat)
    requires n < Power(256, k)
    ensures LittleEndian(LittleEndianBytes(n, k)) == n
    decreases k
  {
    if k > 0 {
      LittleEndianRoundTrip(n / 256, k - 1);
      assert LittleEndianBytes(n, k)[1..] == LittleEndianBytes(n / 256, k - 1);
    }
  }

  /** The lowest k base-256 digits of a number, the most significant first. */
  function BigEndianBytes(n: nat, k: nat): (s: seq<Byte>)
    ensures |s| == k
  {
    if k == 0 then [] else BigEndianBytes(n / 256, k - 1) + [n % 256]
  }

  lemma {:induction false} BigEndianRoundTrip(n: nat, k: nat)
    requires n < Power(256, k)
    ensures BigEndian(BigEndianBytes(n, k)) == n
    decreases k
  {
    if k > 0 {
      BigEndianRoundTrip(n / 256, k - 1);
      assert BigEndianBytes(n, k)[..k - 1] == BigEndianBytes(n / 256, k - 1);
    }
  }

  // --------------------------------------------------------------------------
  // Bytes at a position
  // --------------------------------------------------------------------------

  predicate Holds(data: seq<Byte>, pos: nat, code: seq<Byte>)
  {
    pos + |code| <= |data| && data[pos..pos + |code|] == code
  }

  lemma HoldsParts(data: seq<Byte>, pos: nat, a: seq<Byte>, b: seq<Byte>)
    requires Holds(data, pos, a + b)
    ensures Holds(data, pos, a) && Holds(data, pos + |a|, b)
  {
    assert data[pos..pos + |a|] == (a + b)[..|a|];
    assert data[pos + |a|..pos + |a| + |b|] == (a + b)[|a|..];
  }

  lemma HoldsFirst(data: seq<Byte>, pos: nat, code: seq<Byte>)
    requires Holds(data, pos, code) && code != []
    ensures pos < |data| && data[pos] == code[0] && Holds(data, pos + 1, code[1..])
  {
    assert data[pos..pos + |code|][0] == data[pos];
    assert data[pos + 1..pos + |code|] == data[pos..pos + |code|][1..];
  }

  lemma HoldsBound(data: seq<Byte>, pos: nat, code: seq<Byte>)
    requires Holds(data, pos, code)
    ensures pos + |code| <= |data|
  {
  }

  /** bytes.IndexByte(data[pos:], b), as a position. */
  function Find(data: seq<Byte>, pos: nat, b: Byte): (r: Option<nat>)
    requires pos <= |data|
    ensures r.Some? ==> pos <= r.value < |data| && data[r.value] == b && b !in data[pos..r.value]
    decreases |data| - pos
  {
    if pos == |data| then None
    else if data[pos] == b then Some(pos)
    else
      var r := Find(data, pos + 1, b);
      assert r.Some? ==> data[pos..r.value] == [data[pos]] + data[pos + 1..r.value];
      r
  }

  lemma {:induction false} FindAfter(data: seq<Byte>, pos: nat, before: seq<Byte>, b: Byte)
    requires Holds(data, pos, before + [b]) && b !in before
    ensures pos <= |data| && Find(data, pos, b) == Some(pos + |before|)
    decreases |before|
  {
    HoldsFirst(data, pos, before + [b]);
    if before != [] {
      assert before[0] in before && (before + [b])[1..] == before[1..] + [b];
      assert forall c :: c in before[1..] ==> c in before;
      FindAfter(data, pos + 1, before[1..], b);
    }
  }
}
