/** The layout of a version 2 pack index, as git writes it, and that it is what the lookup relies on. */
module PackIndexLayout {
  import opened Common
  import opened Bytes
  import opened PackIndex

  function Joined(parts: seq<seq<Byte>>): seq<Byte>
  {
    if parts == [] then [] else Joined(parts[..|parts| - 1]) + parts[|parts| - 1]
  }

  function BigEndians(ns: seq<nat>, k: nat): (r: seq<seq<Byte>>)
    ensures |r| == |ns| && forall i :: 0 <= i < |r| ==> r[i] == BigEndianBytes(ns[i], k)
  {
    seq(|ns|, i requires 0 <= i < |ns| => BigEndianBytes(ns[i], k))
  }

  /** For each byte, how many oids start with it or a smaller one. */
  function Fanout(table: seq<seq<Byte>>): (r: seq<nat>)
    ensures |r| == 256 && forall b: Byte :: r[b] == CountUpTo(table, b)
  {
    seq(256, b requires 0 <= b < 256 => CountUpTo(table, b))
  }

  /** The offsets that need more than 31 bits. */
  function LargeOnes(offsets: seq<nat>): seq<nat>
  {
    if offsets == [] then []
    else
      LargeOnes(offsets[..|offsets| - 1])
      + if offsets[|offsets| - 1] < 0x8000_0000 then [] else [offsets[|offsets| - 1]]
  }

  /** An offset of 31 bits stands for itself; for any other, the top bit is set above its place among the large ones. */
  function Short(offsets: seq<nat>, i: nat): nat
    requires i < |offsets|
  {
    if offsets[i] < 0x8000_0000 then offsets[i] else 0x8000_0000 + |LargeOnes(offsets[..i])|
  }

  function Shorts(offsets: seq<nat>): (r: seq<nat>)
    ensures |r| == |offsets| && forall i :: 0 <= i < |r| ==> r[i] == Short(offsets, i)
  {
    seq(|offsets|, i requires 0 <= i < |offsets| => Short(offsets, i))
  }

  function HeaderBytes(): (r: seq<Byte>)
    ensures |r| == 8
  {
    [255, 116, 79, 99] + BigEndianBytes(2, 4)
  }

  /** The file: header, fanout table, oids, checksums of the packed data, offsets, large offsets, and what follows. */
  function IndexBytes(table: seq<seq<Byte>>, checksums: seq<seq<Byte>>, offsets: seq<nat>, rest: seq<Byte>): seq<Byte>
  {
    HeaderBytes() + Joined(BigEndians(Fanout(table), 4)) + Joined(table) + Joined(checksums)
    + Joined(BigEndians(Shorts(offsets), 4)) + Joined(BigEndians(LargeOnes(offsets), 8)) + rest
  }

  /** What an index can be written for: sorted oids of one length, checksums of four bytes, offsets of 64 bits. */
  ghost predicate Writable(byteLen: nat, table: seq<seq<Byte>>, checksums: seq<seq<Byte>>, offsets: seq<nat>)
  {
    && Sorted(table) && |table| == |checksums| == |offsets| < 0x8000_0000
    && (forall o :: o in table ==> |o| == byteLen) && (forall c :: c in checksums ==> |c| == 4)
    && forall n :: n in offsets ==> n < 0x1_0000_0000_0000_0000
  }

  lemma {:induction false} JoinedLength(parts: seq<seq<Byte>>, w: nat)
    requires forall p :: p in parts ==> |p| == w
    ensures |Joined(parts)| == |parts| * w
    decreases |parts|
  {
    if parts != [] {
      var init := parts[..|parts| - 1];
      assert parts[|parts| - 1] in parts && forall p :: p in init ==> p in parts;
      JoinedLength(init, w);
      OneMore(|init|, w);
    }
  }

  lemma OneMore(n: nat, w: nat)
    ensures (n + 1) * w == n * w + w
  {
  }

  /** Of parts of one width, part i is i widths in. */
  lemma {:induction false} PartAt(parts: seq<seq<Byte>>, w: nat, file: seq<Byte>, pos: nat, i: nat)
    requires (forall p :: p in parts ==> |p| == w) && Holds(file, pos, Joined(parts)) && i < |parts|
    ensures Holds(file, pos + i * w, parts[i])
    decreases |parts|
  {
    hide Holds;
    var init := parts[..|parts| - 1];
    assert forall p :: p in init ==> p in parts;
    JoinedLength(init, w);
    HoldsParts(file, pos, Joined(init), parts[|parts| - 1]);
    if i < |init| {
      PartAt(init, w, file, pos, i);
    }
  }

  lemma ReadHeld(file: seq<Byte>, pos: nat, code: seq<Byte>)
    requires Holds(file, pos, code)
    ensures ReadAt(file, pos, |code|) == Some(code)
  {
  }

  lemma NumberHeld(ns: seq<nat>, k: nat, file: seq<Byte>, pos: nat, i: nat)
    requires Holds(file, pos, Joined(BigEndians(ns, k))) && i < |ns| && ns[i] < Power(256, k)
    ensures NumberAt(file, pos + i * k, k) == Some(ns[i])
  {
    hide Holds, Joined, ReadAt, BigEndian, BigEndianBytes, Power;
    PartAt(BigEndians(ns, k), k, file, pos, i);
    ReadHeld(file, pos + i * k, BigEndianBytes(ns[i], k));
    BigEndianRoundTrip(ns[i], k);
  }

  lemma {:induction false} LargeOneAt(offsets: seq<nat>, i: nat)
    requires i < |offsets| && offsets[i] >= 0x8000_0000
    ensures |LargeOnes(offsets[..i])| < |LargeOnes(offsets)| <= |offsets|
    ensures LargeOnes(offsets)[|LargeOnes(offsets[..i])|] == offsets[i]
    decreases |offsets|
  {
    var init := offsets[..|offsets| - 1];
    LargeOnesFew(init);
    if i < |init| {
      assert init[..i] == offsets[..i];
      LargeOneAt(init, i);
    }
  }

  lemma {:induction false} LargeOnesFew(offsets: seq<nat>)
    ensures |LargeOnes(offsets)| <= |offsets|
    ensures forall n :: n in LargeOnes(offsets) ==> n in offsets
    decreases |offsets|
  {
    if offsets != [] {
      LargeOnesFew(offsets[..|offsets| - 1]);
    }
  }

  lemma Places(n: nat, byteLen: nat, i: nat)
    ensures OidPos(i, byteLen) == 1032 + i * byteLen
    ensures OffsetPos(i, n, byteLen) == OffsetPos(0, n, byteLen) + i * 4
    ensures LargePos(i, n, byteLen) == LargePos(0, n, byteLen) + i * 8
    ensures OffsetPos(0, n, byteLen) == 1032 + n * byteLen + n * 4
    ensures LargePos(0, n, byteLen) == OffsetPos(0, n, byteLen) + n * 4
  {
  }

  /** Where the parts of the file are. */
  lemma PartsHeld(byteLen: nat, table: seq<seq<Byte>>, checksums: seq<seq<Byte>>, offsets: seq<nat>, rest: seq<Byte>)
    requires Writable(byteLen, table, checksums, offsets)
    ensures var file, n := IndexBytes(table, checksums, offsets, rest), |table|;
            && Holds(file, 0, HeaderBytes()) && Holds(file, 8, Joined(BigEndians(Fanout(table), 4)))
            && Holds(file, 1032, Joined(table))
            && Holds(file, OffsetPos(0, n, byteLen), Joined(BigEndians(Shorts(offsets), 4)))
            && Holds(file, LargePos(0, n, byteLen), Joined(BigEndians(LargeOnes(offsets), 8)))
  {
    hide Holds, Joined, Fanout, Shorts, LargeOnes, HeaderBytes, Sorted, OffsetPos, LargePos, BigEndians, BigEndianBytes;
    Places(|table|, byteLen, 0);
    var a, b, c := HeaderBytes(), Joined(BigEndians(Fanout(table), 4)), Joined(table);
    var d, e, f := Joined(checksums), Joined(BigEndians(Shorts(offsets), 4)), Joined(BigEndians(LargeOnes(offsets), 8));
    JoinedLength(BigEndians(Fanout(table), 4), 4);
    JoinedLength(table, byteLen);
    JoinedLength(checksums, 4);
    JoinedLength(BigEndians(Shorts(offsets), 4), 4);
    SixHeld(a, b, c, d, e, f, rest);
  }

  lemma SixHeld(a: seq<Byte>, b: seq<Byte>, c: seq<Byte>, d: seq<Byte>, e: seq<Byte>, f: seq<Byte>, g: seq<Byte>)
    ensures var file := a + b + c + d + e + f + g;
            && Holds(file, 0, a) && Holds(file, |a|, b) && Holds(file, |a| + |b|, c)
            && Holds(file, |a| + |b| + |c| + |d|, e) && Holds(file, |a| + |b| + |c| + |d| + |e|, f)
  {
    var file := a + b + c + d + e + f + g;
    assert Holds(file, 0, file);
    hide Holds;
    HoldsParts(file, 0, a + b + c + d + e + f, g);
    HoldsParts(file, 0, a + b + c + d + e, f);
    HoldsParts(file, 0, a + b + c + d, e);
    HoldsParts(file, 0, a + b + c, d);
    HoldsParts(file, 0, a + b, c);
    HoldsParts(file, 0, a, b);
  }

  /** A file in this layout is an index of the objects, so a lookup in it gives their offsets. */
  lemma WrittenIsIndex(byteLen: nat, table: seq<seq<Byte>>, checksums: seq<seq<Byte>>, offsets: seq<nat>,
      rest: seq<Byte>)
    requires Writable(byteLen, table, checksums, offsets)
    ensures IsIndex(IndexBytes(table, checksums, offsets, rest), byteLen, table, offsets)
  {
    hide Holds, Joined, Sorted, CountUpTo, NumberAt, ReadAt, IndexBytes, HoldsOffset, OidPos, OffsetPos, LargePos,
        Shorts, LargeOnes, HasHeader, HeaderBytes;
    var file := IndexBytes(table, checksums, offsets, rest);
    PartsHeld(byteLen, table, checksums, offsets, rest);
    HeaderHeld(file);
    Widths();
    forall b: Byte
      ensures NumberAt(file, 8 + 4 * b, 4) == Some(CountUpTo(table, b))
    {
      NumberHeld(Fanout(table), 4, file, 8, b);
    }
    forall i | 0 <= i < |table|
      ensures ReadAt(file, OidPos(i, byteLen), byteLen) == Some(table[i])
    {
      Places(|table|, byteLen, i);
      PartAt(table, byteLen, file, 1032, i);
      ReadHeld(file, 1032 + i * byteLen, table[i]);
    }
    forall i | 0 <= i < |table|
      ensures HoldsOffset(file, byteLen, |table|, i, offsets[i])
    {
      OffsetHeld(byteLen, table, checksums, offsets, file, i);
    }
  }

  lemma HeaderHeld(file: seq<Byte>)
    requires Holds(file, 0, HeaderBytes())
    ensures HasHeader(file)
  {
    hide BigEndian, BigEndianBytes;
    HoldsParts(file, 0, [255, 116, 79, 99], BigEndianBytes(2, 4));
    assert Power(256, 4) == 0x1_0000_0000;
    BigEndianRoundTrip(2, 4);
  }

  lemma ShortHeld(n: nat, byteLen: nat, offsets: seq<nat>, file: seq<Byte>, i: nat)
    requires i < |offsets| && Short(offsets, i) < 0x1_0000_0000
    requires Holds(file, OffsetPos(0, n, byteLen), Joined(BigEndians(Shorts(offsets), 4)))
    ensures NumberAt(file, OffsetPos(i, n, byteLen), 4) == Some(Short(offsets, i))
  {
    hide Holds, Joined, NumberAt, Short, OffsetPos, LargePos, Power, BigEndians;
    Widths();
    Places(n, byteLen, i);
    NumberHeld(Shorts(offsets), 4, file, OffsetPos(0, n, byteLen), i);
  }

  lemma LargeHeld(n: nat, byteLen: nat, offsets: seq<nat>, file: seq<Byte>, i: nat)
    requires i < |offsets| && 0x8000_0000 <= offsets[i] < 0x1_0000_0000_0000_0000
    requires Holds(file, LargePos(0, n, byteLen), Joined(BigEndians(LargeOnes(offsets), 8)))
    ensures |LargeOnes(offsets[..i])| < |offsets|
    ensures NumberAt(file, LargePos(|LargeOnes(offsets[..i])|, n, byteLen), 8) == Some(offsets[i])
  {
    hide Holds, Joined, NumberAt, LargeOnes, OffsetPos, LargePos, Power, BigEndians;
    var rank := |LargeOnes(offsets[..i])|;
    Widths();
    Places(n, byteLen, rank);
    LargeOneAt(offsets, i);
    NumberHeld(LargeOnes(offsets), 8, file, LargePos(0, n, byteLen), rank);
  }

  lemma OffsetHeld(byteLen: nat, table: seq<seq<Byte>>, checksums: seq<seq<Byte>>, offsets: seq<nat>, file: seq<Byte>,
      i: nat)
    requires Writable(byteLen, table, checksums, offsets) && i < |table|
    requires Holds(file, OffsetPos(0, |table|, byteLen), Joined(BigEndians(Shorts(offsets), 4)))
    requires Holds(file, LargePos(0, |table|, byteLen), Joined(BigEndians(LargeOnes(offsets), 8)))
    ensures HoldsOffset(file, byteLen, |table|, i, offsets[i])
  {
    hide Holds, Joined, Sorted, NumberAt, LargeOnes, OffsetPos, LargePos, Power, BigEndians, Shorts;
    assert offsets[i] in offsets;
    if offsets[i] >= 0x8000_0000 {
      LargeHeld(|table|, byteLen, offsets, file, i);
    }
    ShortHeld(|table|, byteLen, offsets, file, i);
  }

  lemma Widths()
    ensures Power(256, 4) == 0x1_0000_0000 && Power(256, 8) == 0x1_0000_0000_0000_0000
  {
    assert Power(256, 4) == 0x1_0000_0000;
    assert Power(256, 6) == 256 * 256 * Power(256, 4);
  }
}
