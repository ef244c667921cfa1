/** The layout of a pack: a header, objects each with a header of its own, and a hash over all of that. */
module PackFormat {
  import opened Common
  import opened Bytes

  datatype ObjectKind = Blob | Tree | Commit | Tag

  datatype PackObject = PackObject(kind: ObjectKind, content: seq<Byte>)

  function KindNumber(k: ObjectKind): Byte
  {
    match k
    case Commit => 1
    case Tree => 2
    case Blob => 3
    case Tag => 4
  }

  /** The kind with a number; numbers of deltas, and others, are no kind. */
  function KindOf(n: nat): (r: Option<ObjectKind>)
    ensures r.Some? ==> KindNumber(r.value) == n
    ensures forall k :: KindNumber(k) == n ==> r == Some(k)
  {
    if n == 1 then Some(Commit) else if n == 2 then Some(Tree) else if n == 3 then Some(Blob)
        else if n == 4 then Some(Tag) else None
  }

  // --------------------------------------------------------------------------
  // Compression
  // --------------------------------------------------------------------------

  datatype Inflated = Inflated(content: seq<Byte>, used: nat)

  /** A compressor and its inverse. What the compressor has put out depends on the writes made to it so far; closing
      it puts out the rest. Decompression can be opened on any data that starts like compressed data. */
  datatype Codec = Codec(emitted: seq<seq<Byte>> -> seq<Byte>, closed: seq<seq<Byte>> -> seq<Byte>,
                         opens: seq<Byte> -> bool, inflate: seq<Byte> -> Option<Inflated>)

  function Flatten(writes: seq<seq<Byte>>): seq<Byte>
  {
    if writes == [] then [] else Flatten(writes[..|writes| - 1]) + writes[|writes| - 1]
  }

  /** Output is only ever added to, and compressed data is recognised and restored whatever follows it. */
  ghost predicate Works(codec: Codec)
  {
    && codec.emitted([]) == []
    && (forall ws, w :: codec.emitted(ws) <= codec.emitted(ws + [w]))
    && (forall ws :: codec.emitted(ws) <= codec.closed(ws))
    && forall ws, rest :: codec.inflate(codec.closed(ws) + rest) == Some(Inflated(Flatten(ws), |codec.closed(ws)|))
  }

  // --------------------------------------------------------------------------
  // Headers
  // --------------------------------------------------------------------------

  const SIGNATURE: seq<Byte> := [80, 65, 67, 75]
  const VERSION: nat := 2

  function FileHeader(count: nat): (r: seq<Byte>)
    ensures |r| == 12
  {
    SIGNATURE + BigEndianBytes(VERSION, 4) + BigEndianBytes(count, 4)
  }

  /** Seven bits a byte, the lowest first, the top bit set on all bytes but the last; nothing at all for zero. */
  function SizeTail(rem: nat): seq<Byte>
  {
    if rem == 0 then [] else [rem % 128 + if rem / 128 > 0 then 128 else 0] + SizeTail(rem / 128)
  }

  /** The kind, the four lowest bits of the size, and the rest of the size. */
  function ObjectHeader(kind: ObjectKind, size: nat): (r: seq<Byte>)
    ensures r != []
  {
    [(if size / 16 > 0 then 128 else 0) + KindNumber(kind) * 16 + size % 16] + SizeTail(size / 16)
  }

  datatype Size = Size(value: nat, next: nat)

  function ReadTail(file: seq<Byte>, pos: nat): (r: Option<Size>)
    requires pos <= |file|
    ensures r.Some? ==> r.value.next <= |file|
    decreases |file| - pos
  {
    if pos == |file| then None
    else if file[pos] < 128 then Some(Size(file[pos], pos + 1))
    else match ReadTail(file, pos + 1)
         case None => None
         case Some(s) => Some(Size(file[pos] - 128 + 128 * s.value, s.next))
  }

  datatype Header = Header(kind: nat, size: nat, next: nat)

  function ReadHeader(file: seq<Byte>, pos: nat): (r: Option<Header>)
    ensures r.Some? ==> r.value.next <= |file|
  {
    if pos >= |file| then None
    else
      var b := file[pos];
      if b < 128 then Some(Header(b / 16, b % 16, pos + 1))
      else match ReadTail(file, pos + 1)
           case None => None
           case Some(s) => Some(Header(b / 16 - 8, b % 16 + 16 * s.value, s.next))
  }

  lemma {:induction false} TailRoundTrip(rem: nat, file: seq<Byte>, pos: nat)
    requires rem > 0 && Holds(file, pos, SizeTail(rem))
    ensures ReadTail(file, pos) == Some(Size(rem, pos + |SizeTail(rem)|))
    decreases rem
  {
    HoldsFirst(file, pos, SizeTail(rem));
    if rem >= 128 {
      assert SizeTail(rem)[1..] == SizeTail(rem / 128);
      TailRoundTrip(rem / 128, file, pos + 1);
    }
  }

  lemma HeaderRoundTrip(kind: ObjectKind, size: nat, file: seq<Byte>, pos: nat)
    requires Holds(file, pos, ObjectHeader(kind, size))
    ensures ReadHeader(file, pos) == Some(Header(KindNumber(kind), size, pos + |ObjectHeader(kind, size)|))
  {
    HoldsFirst(file, pos, ObjectHeader(kind, size));
    assert ObjectHeader(kind, size)[1..] == SizeTail(size / 16);
    if size / 16 > 0 {
      TailRoundTrip(size / 16, file, pos + 1);
    }
  }

  /** The number that groups of seven bits stand for, the lowest first. */
  function Sevens(s: seq<Byte>): nat
  {
    if s == [] then 0 else s[0] % 128 + 128 * Sevens(s[1..])
  }

  lemma {:induction false} TailIsSevens(rem: nat)
    ensures Sevens(SizeTail(rem)) == rem && (SizeTail(rem) == [] <==> rem == 0)
    ensures forall i :: 0 <= i < |SizeTail(rem)| ==> (SizeTail(rem)[i] >= 128 <==> i < |SizeTail(rem)| - 1)
    decreases rem
  {
    if rem > 0 {
      TailIsSevens(rem / 128);
      assert SizeTail(rem)[1..] == SizeTail(rem / 128);
    }
  }

  /** What the bits of an object header are: the kind as git numbers it above four bits of the size, then the rest of
      the size in groups of seven bits; the top bit of a byte says that another one follows. */
  lemma HeaderBits(kind: ObjectKind, size: nat)
    ensures var h := ObjectHeader(kind, size);
            && h[0] as int / 16 % 8 == (match kind case Commit => 1 case Tree => 2 case Blob => 3 case Tag => 4)
            && size == h[0] % 16 + 16 * Sevens(h[1..])
            && forall i :: 0 <= i < |h| ==> (h[i] >= 128 <==> i < |h| - 1)
  {
    var h := ObjectHeader(kind, size);
    assert h[1..] == SizeTail(size / 16);
    TailIsSevens(size / 16);
    forall i | 1 <= i < |h|
      ensures h[i] >= 128 <==> i < |h| - 1
    {
      assert h[i] == SizeTail(size / 16)[i - 1];
    }
  }

  /** A pack starts with the letters PACK, version 2 and the number of objects. */
  lemma FileHeaderFields(count: nat)
    requires count < 0x1_0000_0000
    ensures var h := FileHeader(count);
            h[..4] == [80, 65, 67, 75] && BigEndian(h[4..8]) == 2 && BigEndian(h[8..12]) == count
  {
    hide BigEndian, BigEndianBytes;
    var h := FileHeader(count);
    assert h[4..8] == BigEndianBytes(VERSION, 4) && h[8..12] == BigEndianBytes(count, 4);
    assert Power(256, 4) == 0x1_0000_0000;
    BigEndianRoundTrip(VERSION, 4);
    BigEndianRoundTrip(count, 4);
  }

  // --------------------------------------------------------------------------
  // Packs
  // --------------------------------------------------------------------------

  function Packed(codec: Codec, o: PackObject, writes: seq<seq<Byte>>): seq<Byte>
  {
    ObjectHeader(o.kind, |o.content|) + codec.closed(writes)
  }

  /** The objects one after the other, each compressed by some writes. */
  function Body(codec: Codec, objects: seq<PackObject>, writes: seq<seq<seq<Byte>>>): seq<Byte>
    requires |writes| <= |objects|
  {
    if writes == [] then []
    else
      var last := |writes| - 1;
      Body(codec, objects, writes[..last]) + Packed(codec, objects[last], writes[last])
  }

  /** The writes for each object make up its content. */
  ghost predicate Covers(objects: seq<PackObject>, writes: seq<seq<seq<Byte>>>)
  {
    |writes| <= |objects| && forall i :: 0 <= i < |writes| ==> Flatten(writes[i]) == objects[i].content
  }

  /** A pack of the objects. */
  ghost predicate IsPack(codec: Codec, hash: seq<Byte> -> seq<Byte>, objects: seq<PackObject>,
      writes: seq<seq<seq<Byte>>>, file: seq<Byte>)
  {
    && Covers(objects, writes) && |writes| == |objects|
    && var bytes := FileHeader(|objects|) + Body(codec, objects, writes);
       file == bytes + hash(bytes)
  }

  /** From a position on, the file holds these objects. */
  ghost predicate HoldsObjects(codec: Codec, file: seq<Byte>, pos: nat, objects: seq<PackObject>)
    decreases |objects|
  {
    objects != [] ==>
      var header := ObjectHeader(objects[0].kind, |objects[0].content|);
      && Holds(file, pos, header)
      && match codec.inflate(file[pos + |header|..])
         case None => false
         case Some(i) =>
           i.content == objects[0].content && HoldsObjects(codec, file, pos + |header| + i.used, objects[1..])
  }

  lemma HoldsOne(codec: Codec, o: PackObject, writes: seq<seq<Byte>>, before: seq<Byte>, after: seq<Byte>)
    requires Works(codec) && Flatten(writes) == o.content
    ensures var header, file := ObjectHeader(o.kind, |o.content|), before + Packed(codec, o, writes) + after;
            && Holds(file, |before|, header)
            && codec.inflate(file[|before| + |header|..]) == Some(Inflated(o.content, |codec.closed(writes)|))
  {
    var header := ObjectHeader(o.kind, |o.content|);
    var file := before + Packed(codec, o, writes) + after;
    assert file == before + header + (codec.closed(writes) + after);
    assert file[|before|..|before| + |header|] == header;
    assert file[|before| + |header|..] == codec.closed(writes) + after;
  }

  lemma BodyStep(codec: Codec, objects: seq<PackObject>, writes: seq<seq<seq<Byte>>>, i: nat)
    requires i < |writes| <= |objects|
    ensures Body(codec, objects, writes[..i + 1])
            == Body(codec, objects, writes[..i]) + Packed(codec, objects[i], writes[i])
  {
    assert writes[..i + 1][..i] == writes[..i];
  }

  /** What follows the first i objects in the body. */
  function AfterBody(codec: Codec, objects: seq<PackObject>, writes: seq<seq<seq<Byte>>>, i: nat): seq<Byte>
    requires i <= |writes| <= |objects|
    decreases |writes| - i
  {
    if i == |writes| then [] else Packed(codec, objects[i], writes[i]) + AfterBody(codec, objects, writes, i + 1)
  }

  lemma {:induction false} BodySplits(codec: Codec, objects: seq<PackObject>, writes: seq<seq<seq<Byte>>>, i: nat)
    requires i <= |writes| <= |objects|
    ensures Body(codec, objects, writes) == Body(codec, objects, writes[..i]) + AfterBody(codec, objects, writes, i)
    decreases |writes| - i
  {
    hide Packed;
    if i == |writes| {
      assert writes[..i] == writes;
    } else {
      BodySplits(codec, objects, writes, i + 1);
      BodyStep(codec, objects, writes, i);
    }
  }

  lemma Regroup(before: seq<Byte>, start: seq<Byte>, code: seq<Byte>, rest: seq<Byte>, after: seq<Byte>)
    ensures before + start + code + (rest + after) == before + (start + (code + rest)) + after
  {
  }

  /** The body of a pack holds its objects from object i on, wherever object i starts. */
  lemma {:induction false} BodyHolds(codec: Codec, objects: seq<PackObject>, writes: seq<seq<seq<Byte>>>, i: nat,
      before: seq<Byte>, after: seq<Byte>)
    requires Works(codec) && Covers(objects, writes) && |writes| == |objects| && i <= |objects|
    ensures HoldsObjects(codec, before + Body(codec, objects, writes) + after,
            |before| + |Body(codec, objects, writes[..i])|, objects[i..])
    decreases |objects| - i
  {
    hide ObjectHeader, Holds, HoldsObjects, Works, Body;
    var start := Body(codec, objects, writes[..i]);
    var file := before + Body(codec, objects, writes) + after;
    if i == |objects| {
      NoObjects(codec, file, |before| + |start|, objects[i..]);
    } else {
      var o, w, rest := objects[i], writes[i], AfterBody(codec, objects, writes, i + 1);
      BodySplits(codec, objects, writes, i);
      BodyStep(codec, objects, writes, i);
      Regroup(before, start, Packed(codec, o, w), rest, after);
      HoldsOne(codec, o, w, before + start, rest + after);
      BodyHolds(codec, objects, writes, i + 1, before, after);
      FirstObject(codec, file, |before + start|, objects[i..], Inflated(o.content, |codec.closed(w)|));
    }
  }

  lemma NoObjects(codec: Codec, file: seq<Byte>, pos: nat, objects: seq<PackObject>)
    requires objects == []
    ensures HoldsObjects(codec, file, pos, objects)
  {
  }

  lemma FirstObject(codec: Codec, file: seq<Byte>, pos: nat, objects: seq<PackObject>, i: Inflated)
    requires objects != []
    requires var header := ObjectHeader(objects[0].kind, |objects[0].content|);
             && Holds(file, pos, header) && codec.inflate(file[pos + |header|..]) == Some(i)
             && i.content == objects[0].content
             && HoldsObjects(codec, file, pos + |header| + i.used, objects[1..])
    ensures HoldsObjects(codec, file, pos, objects)
  {
  }

  /** A pack holds its objects after its header. */
  lemma PackHoldsObjects(codec: Codec, hash: seq<Byte> -> seq<Byte>, objects: seq<PackObject>,
      writes: seq<seq<seq<Byte>>>, file: seq<Byte>)
    requires Works(codec) && IsPack(codec, hash, objects, writes, file)
    ensures Holds(file, 0, FileHeader(|objects|)) && HoldsObjects(codec, file, 12, objects)
  {
    hide HoldsObjects, FileHeader, Works;
    var header, body := FileHeader(|objects|), Body(codec, objects, writes);
    assert file == header + body + hash(header + body);
    assert file[0..12] == header;
    BodyHolds(codec, objects, writes, 0, header, hash(header + body));
    assert objects[0..] == objects && writes[..0] == [];
  }
}
