/** PackIterator of pack.go: the objects of a pack, one after the other. */
module PackReading {
  import opened Common
  import opened Bytes
  import opened PackFormat
  import opened PackWriting

  /** What the iterator gives: an object, a delta (which is not resolved here), the end, or a failure. The content
      is what reading the object gives; None if reading fails or falls short of the size. */
  datatype Item = Object(kind: ObjectKind, size: nat, content: Option<seq<Byte>>) | Deltified | End | Failed

  const LIMIT: nat := 0x1_0000_0000
  const IN_MEMORY: nat := 50_000_000

  /** The content of an object of this size, as far as the data that starts here inflates to it. */
  function ContentOf(i: Option<Inflated>, size: nat): Option<seq<Byte>>
  {
    if i == None || |i.value.content| < size then None else Some(i.value.content[..size])
  }

  /** Decompression starts: on data that starts right, and so on all data that can be decompressed. */
  predicate Opens(codec: Codec, data: seq<Byte>)
  {
    codec.opens(data) || codec.inflate(data).Some?
  }

  /** What there is at a position. Only an object that is read into memory at once fails for its content. */
  function ItemAt(codec: Codec, file: seq<Byte>, fromFile: bool, pos: nat): Item
  {
    match ReadHeader(file, pos)
    case None => Failed
    case Some(h) =>
      match KindOf(h.kind)
      case None => if h.kind == 6 || h.kind == 7 then Deltified else Failed
      case Some(kind) =>
        var content := ContentOf(codec.inflate(file[h.next..]), h.size);
        if !Opens(codec, file[h.next..]) || (fromFile && h.size <= IN_MEMORY && content == None) then Failed
        else Object(kind, h.size, content)
  }

  class PackIterator {
    const codec: Codec
    const file: seq<Byte>
    const fromFile: bool              // the pack is a file, not a stream
    const count: nat
    var startPos: nat
    var index: nat
    var current: bool                 // an object has been given out
    var end: Option<nat>              // where it ends, once that is known
    var closing: Option<nat>          // where closing it finds that it ends

    constructor (codec: Codec, file: seq<Byte>, fromFile: bool, count: nat)
      ensures this.codec == codec && this.file == file && this.fromFile == fromFile && this.count == count
      ensures startPos == 12 && index == 0 && !current
    {
      this.codec, this.file, this.fromFile, this.count := codec, file, fromFile, count;
      startPos, index, current, end, closing := 12, 0, false, None, None;
    }

    /** Start on a pack; anything without a signature, or of another version, is refused. */
    static method Open(codec: Codec, file: seq<Byte>, fromFile: bool) returns (it: PackIterator?)
      ensures it != null ==> fresh(it) && it.codec == codec && it.file == file && it.fromFile == fromFile
      ensures it != null ==> it.startPos == 12 && it.index == 0 && !it.current
      ensures it != null <==> |file| >= 12 && file[..4] == [80, 65, 67, 75] && BigEndian(file[4..8]) == 2
      ensures it != null ==> it.count == BigEndian(file[8..12])
    {
      if |file| < 12 || file[..4] != SIGNATURE || BigEndian(file[4..8]) != VERSION {
        return null;
      }
      it := new PackIterator(codec, file, fromFile, BigEndian(file[8..12]));
    }

    /** The end of the current object is known. */
    predicate Ready()
      reads this
    {
      current ==> end.Some?
    }

    /** Where the next object starts, once the current one has been closed. */
    function Position(): nat
      reads this
    {
      if !current then startPos else if end.Some? then end.value else if closing.Some? then closing.value else startPos
    }

    /** Once the current object has been closed, the pack holds these objects and no others. */
    ghost predicate Coming(rest: seq<PackObject>)
      reads this
    {
      (Ready() || closing.Some?) && count == index + |rest| && HoldsObjects(codec, file, Position(), rest)
    }

    /** Read the kind and the size of an object. */
    method ReadObjectHeader(pos: nat) returns (h: Option<Header>)
      ensures h == ReadHeader(file, pos)
    {
      if pos >= |file| {
        return None;
      }
      var first := file[pos];
      var p: nat, size: nat, scale: nat := pos + 1, first % 16, 16;
      var extra := first >= 128;
      while extra
        invariant pos < p <= |file| && scale > 0
        invariant ReadHeader(file, pos) == Scaled((first / 16) % 8, size, scale, extra, file, p)
        decreases |file| - p, extra
      {
        if p == |file| {
          return None;
        }
        var b := file[p];
        ScaleUp((first / 16) % 8, size, scale, file, p);
        size, scale, p, extra := size + (b % 128) * scale, scale * 128, p + 1, b >= 128;
      }
      return Some(Header((first / 16) % 8, size, p));
    }

    /** Close the current object. What is left of it is drained, which tells where it ends, unless it is broken. */
    method Close()
      modifies this`end
      ensures end == if old(end.Some?) then old(end) else closing
    {
      if end == None {
        end := closing;
      }
    }

    /** The next object. On a pack it is the next object that was put there. An object that is not in memory must be
        closed before the next one. */
    method Next(ghost rest: seq<PackObject>) returns (n: Item)
      modifies this
      ensures n == if old(index >= count) then End
                   else if old(!Ready()) then Failed
                   else ItemAt(codec, file, fromFile, old(Position()))
      ensures index == old(index) + (if n.Object? then 1 else 0)
      ensures n.Object? ==> (Ready() <==> fromFile && n.size <= 50_000_000)
      ensures old(Ready() && Coming(rest)) ==>
              if rest == [] then n == End
              else Coming(rest[1..]) && n == Object(rest[0].kind, |rest[0].content|, Some(rest[0].content))
    {
      hide HoldsObjects, ReadHeader, KindOf;
      if index >= count {
        return End;
      }
      if current {
        if end == None {
          return Failed;
        }
        startPos := end.value;
      }
      var h := ReadObjectHeader(startPos);
      if old(Ready() && Coming(rest)) {
        ObjectAhead(codec, file, startPos, rest);
      }
      if h == None {
        return Failed;
      }
      var kind := KindOf(h.value.kind);
      if kind == None {
        return if h.value.kind == 6 || h.value.kind == 7 then Deltified else Failed;
      }
      if !Opens(codec, file[h.value.next..]) {
        return Failed;
      }
      var inflated := codec.inflate(file[h.value.next..]);
      var content := ContentOf(inflated, h.value.size);
      var ends := if inflated == None then None else Some(h.value.next + inflated.value.used);
      var inMemory := fromFile && h.value.size <= IN_MEMORY;
      if inMemory && content == None {
        return Failed;
      }
      index, current, closing := index + 1, true, ends;
      end := if inMemory then ends else None;
      return Object(kind.value, h.value.size, content);
    }
  }

  /** The header, when size has been read so far, and what follows counts scale times. */
  function Scaled(kind: nat, size: nat, scale: nat, extra: bool, file: seq<Byte>, p: nat): Option<Header>
    requires p <= |file|
  {
    if !extra then Some(Header(kind, size, p))
    else match ReadTail(file, p)
         case None => None
         case Some(s) => Some(Header(kind, size + scale * s.value, s.next))
  }

  lemma {:induction false} ScaleUp(kind: nat, size: nat, scale: nat, file: seq<Byte>, p: nat)
    requires p < |file|
    ensures Scaled(kind, size, scale, true, file, p) ==
            Scaled(kind, size + (file[p] % 128) * scale, scale * 128, file[p] >= 128, file, p + 1)
  {
    var b, low := file[p], file[p] % 128;
    assert low == if b < 128 then b else b - 128;
    if b >= 128 {
      var tail := ReadTail(file, p + 1);
      if tail.Some? {
        Distribute(scale, low, tail.value.value);
      }
    }
  }

  lemma Distribute(scale: nat, b: nat, v: nat)
    ensures scale * (b + 128 * v) == b * scale + scale * 128 * v
  {
  }

  lemma ObjectAhead(codec: Codec, file: seq<Byte>, pos: nat, rest: seq<PackObject>)
    requires rest != [] && HoldsObjects(codec, file, pos, rest)
    ensures var h := ReadHeader(file, pos);
            && h.Some? && KindOf(h.value.kind) == Some(rest[0].kind) && h.value.size == |rest[0].content|
            && match codec.inflate(file[h.value.next..])
               case None => false
               case Some(i) => && ContentOf(Some(i), h.value.size) == Some(rest[0].content)
                               && HoldsObjects(codec, file, h.value.next + i.used, rest[1..])
  {
    hide ReadHeader, ObjectHeader;
    HeaderRoundTrip(rest[0].kind, |rest[0].content|, file, pos);
    assert rest[0].content[..|rest[0].content|] == rest[0].content;
  }

  lemma HeaderOpens(count: nat, file: seq<Byte>)
    requires count < LIMIT && Holds(file, 0, FileHeader(count))
    ensures |file| >= 12 && file[..4] == [80, 65, 67, 75] && BigEndian(file[4..8]) == 2
            && BigEndian(file[8..12]) == count
  {
    var header := FileHeader(count);
    assert file[0..12] == header;
    assert file[..4] == header[..4] && file[4..8] == header[4..8] && file[8..12] == header[8..12];
    FileHeaderFields(count);
  }

  /** What the iterator reads from what the writer has put out are the objects, whatever the buffer sizes. Objects
      need not be closed when the pack is a file and all of them fit into memory. */
  method RoundTrip(codec: Codec, hash: seq<Byte> -> seq<Byte>, objects: seq<PackObject>, bufferSize: nat,
                   size: nat -> nat, fromFile: bool, close: bool)
    returns (read: seq<PackObject>)
    requires Works(codec) && bufferSize > 0 && (forall i :: size(i) > 0)
    requires 0 < |objects| < LIMIT
    requires close || (fromFile && forall o :: o in objects ==> |o.content| <= 50_000_000)
    ensures read == objects
  {
    hide Works, IsPack, FileHeader, HoldsObjects, Holds;
    var file := WritePack(codec, hash, objects, bufferSize, size);
    ghost var writes :| IsPack(codec, hash, objects, writes, file);
    PackHoldsObjects(codec, hash, objects, writes, file);
    HeaderOpens(|objects|, file);
    var it := PackIterator.Open(codec, file, fromFile);
    read := [];
    assert objects[0..] == objects;
    while true
      invariant |read| <= |objects| && read == objects[..|read|] && it.Ready() && it.Coming(objects[|read|..])
      invariant it.codec == codec && it.file == file
      decreases |objects| - |read|
    {
      ghost var rest := objects[|read|..];
      var n := it.Next(rest);
      if n.End? {
        assert rest == [];
        break;
      }
      assert rest[0] in objects;
      if close {
        it.Close();
      }
      assert rest[1..] == objects[|read| + 1..];
      read := read + [PackObject(n.kind, n.content.value)];
    }
  }
}
