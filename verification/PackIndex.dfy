/** Looking an object up in a version 2 pack index (searchPackIndex of pack.go). */
module PackIndex {
  import opened Common
  import opened Bytes

  datatype Search = Fault | Absent | Found(offset: nat)

  /** The bytes at a position of the file, unless it is too short. */
  function ReadAt(file: seq<Byte>, pos: nat, n: nat): Option<seq<Byte>>
  {
    if pos + n <= |file| then Some(file[pos..pos + n]) else None
  }

  function NumberAt(file: seq<Byte>, pos: nat, n: nat): Option<nat>
  {
    match ReadAt(file, pos, n)
    case None => None
    case Some(bytes) => Some(BigEndian(bytes))
  }

  const HEADER: seq<Byte> := [255, 116, 79, 99]
  const OIDS: nat := 8 + 256 * 4
  const LARGE: nat := 0x8000_0000

  predicate HasHeader(file: seq<Byte>)
  {
    ReadAt(file, 0, 4) == Some(HEADER) && NumberAt(file, 4, 4) == Some(2)
  }

  function FirstByte(oid: seq<Byte>): Byte
  {
    if oid == [] then 0 else oid[0]
  }

  /** How many oids start with b or a smaller byte. */
  function CountUpTo(table: seq<seq<Byte>>, b: Byte): (n: nat)
    ensures n <= |table|
  {
    if table == [] then 0
    else CountUpTo(table[..|table| - 1], b) + if FirstByte(table[|table| - 1]) <= b then 1 else 0
  }

  ghost predicate Sorted(table: seq<seq<Byte>>)
  {
    forall i, j :: 0 <= i < j < |table| ==> Compare(table[i], table[j]) < 0
  }

  function OidPos(index: nat, byteLen: nat): nat { OIDS + index * byteLen }

  function OffsetPos(index: nat, count: nat, byteLen: nat): nat { OIDS + count * byteLen + count * 4 + index * 4 }

  function LargePos(index: nat, count: nat, byteLen: nat): nat
  {
    OIDS + count * byteLen + count * 4 + count * 4 + index * 8
  }

  ghost predicate HoldsFanout(file: seq<Byte>, table: seq<seq<Byte>>)
  {
    forall b: Byte :: NumberAt(file, 8 + 4 * b, 4) == Some(CountUpTo(table, b))
  }

  ghost predicate HoldsOids(file: seq<Byte>, byteLen: nat, table: seq<seq<Byte>>)
  {
    forall i :: 0 <= i < |table| ==> ReadAt(file, OidPos(i, byteLen), byteLen) == Some(table[i])
  }

  /** The offset of entry i is in 31 bits, or in 64 bits in a second list which the 31 bits point into. */
  ghost predicate HoldsOffset(file: seq<Byte>, byteLen: nat, count: nat, i: nat, offset: nat)
  {
    match NumberAt(file, OffsetPos(i, count, byteLen), 4)
    case None => false
    case Some(raw) => if raw < LARGE then offset == raw
        else NumberAt(file, LargePos(raw - LARGE, count, byteLen), 8) == Some(offset)
  }

  /** The file is the index of these objects at these offsets in a pack. */
  ghost predicate IsIndex(file: seq<Byte>, byteLen: nat, table: seq<seq<Byte>>, offsets: seq<nat>)
  {
    && HasHeader(file)
    && |offsets| == |table| && Sorted(table)
    && HoldsFanout(file, table)
    && HoldsOids(file, byteLen, table)
    && forall i :: 0 <= i < |table| ==> HoldsOffset(file, byteLen, |table|, i, offsets[i])
  }

  ghost predicate IsAnswer(oid: seq<Byte>, table: seq<seq<Byte>>, offsets: seq<nat>, r: Search)
    requires |offsets| == |table|
  {
    match r
    case Fault => false
    case Absent => oid !in table
    case Found(offset) => exists i :: 0 <= i < |table| && table[i] == oid && offsets[i] == offset
  }

  /** The fanout table says where the oids with a given first byte are. */
  lemma {:induction false} FanoutSplits(table: seq<seq<Byte>>, b: Byte, i: nat)
    requires Sorted(table) && i < |table|
    ensures i < CountUpTo(table, b) <==> FirstByte(table[i]) <= b
    decreases |table|
  {
    var init, last := table[..|table| - 1], table[|table| - 1];
    if i < |init| {
      FanoutSplits(init, b, i);
      assert Compare(table[i], last) < 0;
      if FirstByte(last) <= b {
        FanoutSplits(init, b, |init| - 1);
        assert Compare(init[|init| - 1], last) < 0;
      }
    } else if |init| > 0 {
      FanoutSplits(init, b, |init| - 1);
      assert Compare(init[|init| - 1], last) < 0;
    }
  }

  lemma {:induction false} CountAll(table: seq<seq<Byte>>)
    ensures CountUpTo(table, 255) == |table|
    decreases |table|
  {
    if table != [] {
      CountAll(table[..|table| - 1]);
    }
  }

  /** The part of the table in which an oid can be, going by its first byte. */
  lemma {:induction false} RangeOfFirstByte(table: seq<seq<Byte>>, oid: seq<Byte>, i: nat)
    requires Sorted(table) && i < |table| && table[i] == oid
    ensures i < CountUpTo(table, FirstByte(oid))
    ensures FirstByte(oid) > 0 ==> CountUpTo(table, FirstByte(oid) - 1) <= i
  {
    FanoutSplits(table, FirstByte(oid), i);
    if FirstByte(oid) > 0 {
      FanoutSplits(table, FirstByte(oid) - 1, i);
    }
  }

  lemma NotFromMid(table: seq<seq<Byte>>, oid: seq<Byte>, mid: nat, i: nat)
    requires Sorted(table) && mid < |table| && i < |table| && table[i] == oid
    ensures Compare(oid, table[mid]) == 0 ==> i == mid
    ensures Compare(oid, table[mid]) < 0 ==> i < mid
    ensures Compare(oid, table[mid]) > 0 ==> i > mid
  {
    CompareFlipped(oid, table[mid]);
    CompareEqual(oid, table[mid]);
    if i < mid {
      assert Compare(table[i], table[mid]) < 0;
    } else if mid < i {
      assert Compare(table[mid], table[i]) < 0;
    }
  }

  datatype Bisection = Broken | Hit(index: nat) | Missed(right: nat)

  ghost predicate OnlyBetween(table: seq<seq<Byte>>, oid: seq<Byte>, left: nat, right: nat)
  {
    right <= |table| && forall i :: 0 <= i < |table| && table[i] == oid ==> left <= i < right
  }

  lemma Narrowed(table: seq<seq<Byte>>, oid: seq<Byte>, left: nat, right: nat, mid: nat)
    requires Sorted(table) && OnlyBetween(table, oid, left, right) && left <= mid < right
    ensures Compare(oid, table[mid]) < 0 ==> OnlyBetween(table, oid, left, mid)
    ensures Compare(oid, table[mid]) > 0 ==> OnlyBetween(table, oid, mid + 1, right)
    ensures Compare(oid, table[mid]) == 0 <==> table[mid] == oid
  {
    CompareEqual(oid, table[mid]);
    forall i | 0 <= i < |table| && table[i] == oid
      ensures Compare(oid, table[mid]) < 0 ==> i < mid
      ensures Compare(oid, table[mid]) > 0 ==> i > mid
    {
      NotFromMid(table, oid, mid, i);
    }
  }

  /** The binary search. It works on any file; on the oids of a sorted table it finds the oid exactly when it is there,
      so that leaving early at the first entry costs nothing. */
  method Bisect(file: seq<Byte>, oid: seq<Byte>, first: nat, end: nat, ghost table: seq<seq<Byte>>)
    returns (b: Bisection)
    ensures HoldsOids(file, |oid|, table) && Sorted(table) && OnlyBetween(table, oid, first, end) ==>
            match b
            case Broken => false
            case Hit(i) => i < |table| && table[i] == oid
            case Missed(right) => oid !in table
  {
    hide Sorted, OnlyBetween, Compare, OidPos, ReadAt;
    var left, right := first, end;
    ghost var sound := HoldsOids(file, |oid|, table) && Sorted(table) && OnlyBetween(table, oid, first, end);
    while left < right
      invariant sound ==> OnlyBetween(table, oid, left, right)
      decreases if left < right then right - left else 0
    {
      var mid := left + (right - left) / 2;
      if sound {
        BetweenIsInside(table, oid, left, right);
        Narrowed(table, oid, left, right, mid);
      }
      var read := ReadAt(file, OidPos(mid, |oid|), |oid|);
      if read.None? {
        return Broken;
      }
      var cmp := Compare(oid, read.value);
      if cmp == 0 {
        return Hit(mid);
      } else if cmp < 0 {
        if mid == 0 {
          if sound {
            NowhereBetween(table, oid, left, 0);
          }
          return Missed(right);
        }
        right := mid;
      } else {
        left := mid + 1;
      }
    }
    if sound {
      NowhereBetween(table, oid, left, right);
    }
    return Missed(right);
  }

  lemma BetweenIsInside(table: seq<seq<Byte>>, oid: seq<Byte>, left: nat, right: nat)
    requires OnlyBetween(table, oid, left, right)
    ensures right <= |table|
  {
  }

  lemma NowhereBetween(table: seq<seq<Byte>>, oid: seq<Byte>, left: nat, right: nat)
    requires OnlyBetween(table, oid, left, right) && left >= right
    ensures oid !in table
  {
  }

  /** Look an object up. On an index, the answer is the offset of the object exactly when it has one; a file without
      the header is refused. */
  method SearchPackIndex(file: seq<Byte>, oid: seq<Byte>, ghost table: seq<seq<Byte>>, ghost offsets: seq<nat>)
    returns (r: Search)
    requires |oid| > 0
    ensures IsIndex(file, |oid|, table, offsets) ==> IsAnswer(oid, table, offsets, r)
    ensures !HasHeader(file) ==> r == Fault
  {
    hide IsIndex, IsAnswer, HasHeader, HoldsOids, HoldsFanout, Sorted, OnlyBetween, OidPos, ReadAt, NumberAt, BigEndian,
        CountUpTo, HoldsOffset;
    IndexParts(file, |oid|, table, offsets);
    if !HasHeader(file) {
      return Fault;
    }
    var fanout := ReadFanout(file, table);
    if fanout == None {
      return Fault;
    }
    var left := if oid[0] > 0 then fanout.value[oid[0] - 1] else 0;
    var entryCount := fanout.value[255];
    FanoutLeads(table, oid, fanout.value);
    var b := Bisect(file, oid, left, fanout.value[oid[0]], table);
    if b == Broken {
      return Fault;
    }
    var index := if b.Hit? then Some(b.index) else None;
    if index == None && b.right < entryCount {
      RightIsOther(file, oid, table, b.right);
      var read := ReadAt(file, OidPos(b.right, |oid|), |oid|);
      if read == None {
        return Fault;
      }
      if oid == read.value {
        index := Some(b.right);
      }
    }
    AnswerIs(file, oid, table, offsets, index);
    if index == None {
      return Absent;
    }
    r := ReadOffset(file, |oid|, entryCount, index.value);
  }

  lemma IndexParts(file: seq<Byte>, byteLen: nat, table: seq<seq<Byte>>, offsets: seq<nat>)
    ensures IsIndex(file, byteLen, table, offsets) ==>
            && HasHeader(file) && |offsets| == |table| && Sorted(table) && HoldsFanout(file, table)
                && HoldsOids(file, byteLen, table)
  {
  }

  lemma FanoutLeads(table: seq<seq<Byte>>, oid: seq<Byte>, fanout: seq<nat>)
    requires |fanout| == 256 && oid != []
    ensures Sorted(table) && (forall b: Byte :: fanout[b] == CountUpTo(table, b)) ==>
            && fanout[255] == |table|
            && OnlyBetween(table, oid, if oid[0] > 0 then fanout[oid[0] - 1] else 0, fanout[oid[0]])
  {
    hide CountUpTo;
    CountAll(table);
    if Sorted(table) && (forall b: Byte :: fanout[b] == CountUpTo(table, b)) {
      var b: Byte := 255;
      assert fanout[b] == |table|;
      forall i | 0 <= i < |table| && table[i] == oid
        ensures (if oid[0] > 0 then fanout[oid[0] - 1] else 0) <= i < fanout[oid[0]]
      {
        RangeOfFirstByte(table, oid, i);
      }
    }
  }

  /** The last comparison, at the right end of the searched part, cannot succeed. */
  lemma RightIsOther(file: seq<Byte>, oid: seq<Byte>, table: seq<seq<Byte>>, right: nat)
    ensures HoldsOids(file, |oid|, table) && right < |table| && oid !in table ==>
            var read := ReadAt(file, OidPos(right, |oid|), |oid|); read.Some? && read.value != oid
  {
    hide ReadAt, OidPos;
  }

  lemma AnswerIs(file: seq<Byte>, oid: seq<Byte>, table: seq<seq<Byte>>, offsets: seq<nat>, index: Option<nat>)
    ensures IsIndex(file, |oid|, table, offsets) ==>
            match index
            case None => oid !in table ==> IsAnswer(oid, table, offsets, Absent)
            case Some(i) =>
              i < |table| && table[i] == oid ==>
                HoldsOffset(file, |oid|, |table|, i, offsets[i]) && IsAnswer(oid, table, offsets, Found(offsets[i]))
  {
    hide HoldsOffset;
  }

  method ReadFanout(file: seq<Byte>, ghost table: seq<seq<Byte>>) returns (r: Option<seq<nat>>)
    ensures r.Some? ==> |r.value| == 256
    ensures HoldsFanout(file, table) ==> r.Some? && forall b: Byte :: r.value[b] == CountUpTo(table, b)
  {
    hide NumberAt, CountUpTo;
    var fanout := [];
    for i := 0 to 256
      invariant |fanout| == i
      invariant HoldsFanout(file, table) ==> forall b: Byte :: b < i ==> fanout[b] == CountUpTo(table, b)
    {
      var b: Byte := i;
      var n := NumberAt(file, 8 + 4 * b, 4);
      assert HoldsFanout(file, table) ==> n == Some(CountUpTo(table, b));
      if n == None {
        return None;
      }
      fanout := fanout + [n.value];
    }
    return Some(fanout);
  }

  method ReadOffset(file: seq<Byte>, byteLen: nat, count: nat, i: nat) returns (r: Search)
    ensures forall offset :: HoldsOffset(file, byteLen, count, i, offset) ==> r == Found(offset)
    ensures r.Found? ==> HoldsOffset(file, byteLen, count, i, r.offset)
    ensures !r.Absent?
  {
    var raw := NumberAt(file, OffsetPos(i, count, byteLen), 4);
    if raw == None {
      return Fault;
    }
    if raw.value < LARGE {
      return Found(raw.value);
    }
    var large := NumberAt(file, LargePos(raw.value - LARGE, count, byteLen), 8);
    return if large == None then Fault else Found(large.value);
  }
}
