/** Git's delta format: what the bytes of a delta make of a base object. */
module DeltaFormat {
  import opened Common
  import opened Bytes

  /** A stretch of the new object: literal bytes of the delta, or bytes of the base. */
  datatype Chunk = AddNew(offset: nat, size: nat) | CopyFromBase(offset: nat, size: nat)

  /** Operand bytes read, and the position after them. */
  datatype Operands = Operands(values: seq<Byte>, next: nat)

  /** The position after a size of variable length. */
  function AfterSize(data: seq<Byte>, pos: nat): (r: Option<nat>)
    requires pos <= |data|
    ensures r.Some? ==> pos < r.value <= |data|
    decreases |data| - pos
  {
    if pos == |data| then None
    else if data[pos] < 128 then Some(pos + 1)
    else AfterSize(data, pos + 1)
  }

  /** The instructions start after two sizes. */
  function Start(data: seq<Byte>): (r: Option<nat>)
    ensures r.Some? ==> r.value <= |data|
  {
    match AfterSize(data, 0)
    case None => None
    case Some(pos) => AfterSize(data, pos)
  }

  /** Operand bytes are present where flags has a bit, the lowest first; the others are zero. */
  function ReadOperands(flags: nat, n: nat, data: seq<Byte>, pos: nat): (r: Option<Operands>)
    requires pos <= |data|
    ensures r.Some? ==> |r.value.values| == n && pos <= r.value.next <= |data|
    decreases n
  {
    if n == 0 then Some(Operands([], pos))
    else if flags % 2 == 0 then PrependValue(0, ReadOperands(flags / 2, n - 1, data, pos))
    else if pos == |data| then None
    else PrependValue(data[pos], ReadOperands(flags / 2, n - 1, data, pos + 1))
  }

  function PrependValue(b: Byte, r: Option<Operands>): Option<Operands>
  {
    match r
    case None => None
    case Some(o) => Some(Operands([b] + o.values, o.next))
  }

  const DEFAULT_COPY_SIZE := 0x10000

  /** Four operand bytes are an offset, three a size; size zero means another size. */
  function CopyChunk(values: seq<Byte>): (c: Chunk)
    requires |values| == 7
    ensures c.CopyFromBase? && c.size > 0
  {
    var size := LittleEndian(values[4..]);
    CopyFromBase(LittleEndian(values[..4]), if size == 0 then DEFAULT_COPY_SIZE else size)
  }

  function PrependChunk(c: Chunk, r: Option<seq<Chunk>>): Option<seq<Chunk>>
  {
    match r
    case None => None
    case Some(cs) => Some([c] + cs)
  }

  /** The chunks that the instructions from a position on describe. */
  function Chunks(data: seq<Byte>, pos: nat): (r: Option<seq<Chunk>>)
    requires pos <= |data|
    decreases |data| - pos
  {
    if pos == |data| then Some([])
    else
      var b := data[pos];
      if b == 0 then Chunks(data, pos + 1)
      else if b < 128 then
        if pos + 1 + b > |data| then None else PrependChunk(AddNew(pos + 1, b), Chunks(data, pos + 1 + b))
      else
        match ReadOperands(b, 7, data, pos + 1)
        case None => None
        case Some(o) => PrependChunk(CopyChunk(o.values), Chunks(data, o.next))
  }

  predicate Fits(c: Chunk, data: seq<Byte>, base: seq<Byte>)
  {
    c.size > 0 && c.offset + c.size <= if c.AddNew? then |data| else |base|
  }

  function ChunkBytes(c: Chunk, data: seq<Byte>, base: seq<Byte>): (r: seq<Byte>)
    requires Fits(c, data, base)
    ensures |r| == c.size
  {
    (if c.AddNew? then data else base)[c.offset..c.offset + c.size]
  }

  ghost predicate AllFit(chunks: seq<Chunk>, data: seq<Byte>, base: seq<Byte>)
  {
    forall i :: 0 <= i < |chunks| ==> Fits(chunks[i], data, base)
  }

  ghost function Output(chunks: seq<Chunk>, data: seq<Byte>, base: seq<Byte>): seq<Byte>
    requires AllFit(chunks, data, base)
  {
    if chunks == [] then [] else ChunkBytes(chunks[0], data, base) + Output(chunks[1..], data, base)
  }

  /** What a delta makes of a base, unless it is malformed or copies from beyond the end of the base. */
  ghost function Patch(data: seq<Byte>, base: seq<Byte>): Option<seq<Byte>>
  {
    match Start(data)
    case None => None
    case Some(start) =>
      match Chunks(data, start)
      case None => None
      case Some(chunks) => if AllFit(chunks, data, base) then Some(Output(chunks, data, base)) else None
  }

  /** Chunks are not empty, and added chunks lie within the delta. */
  ghost predicate Sane(chunks: seq<Chunk>, data: seq<Byte>)
  {
    forall i :: 0 <= i < |chunks| ==>
      chunks[i].size > 0 && (chunks[i].AddNew? ==> chunks[i].offset + chunks[i].size <= |data|)
  }

  lemma {:induction false} ChunksAreSane(data: seq<Byte>, pos: nat)
    requires pos <= |data|
    ensures match Chunks(data, pos) case None => true case Some(chunks) => Sane(chunks, data)
    decreases |data| - pos
  {
    if pos < |data| {
      var b := data[pos];
      if b == 0 {
        ChunksAreSane(data, pos + 1);
      } else if b < 128 {
        if pos + 1 + b <= |data| {
          ChunksAreSane(data, pos + 1 + b);
        }
      } else {
        var o := ReadOperands(b, 7, data, pos + 1);
        if o.Some? {
          ChunksAreSane(data, o.value.next);
          assert CopyChunk(o.value.values).size > 0;
          assert !CopyChunk(o.value.values).AddNew?;
        }
      }
    }
  }

  // --------------------------------------------------------------------------
  // Where a chunk is in the output
  // --------------------------------------------------------------------------

  function Before(chunks: seq<Chunk>, i: nat): nat
    requires i <= |chunks|
  {
    if i == 0 then 0 else Before(chunks, i - 1) + chunks[i - 1].size
  }

  lemma {:induction false} BeforeShifts(chunks: seq<Chunk>, i: nat)
    requires i < |chunks|
    ensures Before(chunks, i + 1) == chunks[0].size + Before(chunks[1..], i)
    decreases i
  {
    if i > 0 {
      BeforeShifts(chunks, i - 1);
    }
  }

  lemma SliceOfTail(first: seq<Byte>, tail: seq<Byte>, from: nat, size: nat)
    requires from + size <= |tail|
    ensures (first + tail)[|first| + from..|first| + from + size] == tail[from..from + size]
  {
  }

  lemma {:induction false} ChunkInOutput(chunks: seq<Chunk>, data: seq<Byte>, base: seq<Byte>, i: nat)
    requires AllFit(chunks, data, base) && i < |chunks|
    ensures var out := Output(chunks, data, base);
            && Before(chunks, i) + chunks[i].size <= |out|
            && out[Before(chunks, i)..Before(chunks, i) + chunks[i].size] == ChunkBytes(chunks[i], data, base)
    decreases |chunks|
  {
    hide ChunkBytes;
    var first, tail := ChunkBytes(chunks[0], data, base), Output(chunks[1..], data, base);
    assert Output(chunks, data, base) == first + tail;
    if i == 0 {
      assert (first + tail)[0..chunks[0].size] == first;
    } else {
      ChunkInOutput(chunks[1..], data, base, i - 1);
      BeforeShifts(chunks, i - 1);
      SliceOfTail(first, tail, Before(chunks[1..], i - 1), chunks[i].size);
    }
  }

  lemma {:induction false} OutputLength(chunks: seq<Chunk>, data: seq<Byte>, base: seq<Byte>)
    requires AllFit(chunks, data, base)
    ensures |Output(chunks, data, base)| == Before(chunks, |chunks|)
    decreases |chunks|
  {
    hide ChunkBytes, Fits;
    if chunks != [] {
      assert Output(chunks, data, base) == ChunkBytes(chunks[0], data, base) + Output(chunks[1..], data, base);
      OutputLength(chunks[1..], data, base);
      BeforeShifts(chunks, |chunks| - 1);
    }
  }

  // --------------------------------------------------------------------------
  // The format as a writer sees it
  // --------------------------------------------------------------------------

  /** A copy of 64 KiB has a short form without a size; the byte zero is reserved and does nothing. */
  datatype Instruction = Insert(bytes: seq<Byte>) | Copy(offset: nat, size: nat) | ShortCopy(offset: nat) | Reserved

  predicate Encodable(i: Instruction)
  {
    match i
    case Insert(bytes) => 0 < |bytes| < 128
    case Copy(offset, size) => offset < Power(256, 4) && 0 < size < Power(256, 3)
    case ShortCopy(offset) => offset < Power(256, 4)
    case Reserved => true
  }

  /** What instructions make of a base. */
  function Apply(instructions: seq<Instruction>, base: seq<Byte>): Option<seq<Byte>>
  {
    if instructions == [] then Some([])
    else
      match (ApplyOne(instructions[0], base), Apply(instructions[1..], base))
      case (Some(a), Some(b)) => Some(a + b)
      case _ => None
  }

  function ApplyOne(i: Instruction, base: seq<Byte>): Option<seq<Byte>>
  {
    match i
    case Insert(bytes) => Some(bytes)
    case Copy(offset, size) => Slice(base, offset, size)
    case ShortCopy(offset) => Slice(base, offset, 65536)
    case Reserved => Some([])
  }

  function Slice(base: seq<Byte>, offset: nat, size: nat): Option<seq<Byte>>
  {
    if offset + size <= |base| then Some(base[offset..offset + size]) else None
  }

  /** A bit for each value that is not zero, the first value lowest, and top above them. */
  function Flags(values: seq<Byte>, top: nat): nat
  {
    if values == [] then top else (if values[0] == 0 then 0 else 1) + 2 * Flags(values[1..], top)
  }

  function NonZero(values: seq<Byte>): seq<Byte>
  {
    if values == [] then [] else (if values[0] == 0 then [] else [values[0]]) + NonZero(values[1..])
  }

  lemma {:induction false} FlagsBounds(values: seq<Byte>)
    ensures Power(2, |values|) <= Flags(values, 1) < 2 * Power(2, |values|)
    decreases |values|
  {
    if values != [] {
      FlagsBounds(values[1..]);
    }
  }

  function Encode(i: Instruction): (r: seq<Byte>)
    requires Encodable(i)
    ensures |r| > 0
  {
    match i
    case Insert(bytes) => [|bytes|] + bytes
    case Copy(offset, size) => EncodeCopy(LittleEndianBytes(offset, 4) + LittleEndianBytes(size, 3))
    case ShortCopy(offset) => EncodeCopy(LittleEndianBytes(offset, 4) + [0, 0, 0])
    case Reserved => [0]
  }

  /** The byte that says which operands are there, and these. */
  function EncodeCopy(values: seq<Byte>): (r: seq<Byte>)
    requires |values| == 7
    ensures |r| > 0
  {
    FlagsBounds(values);
    assert Power(2, 7) == 128;
    [Flags(values, 1)] + NonZero(values)
  }

  function EncodeAll(instructions: seq<Instruction>): seq<Byte>
    requires forall i :: i in instructions ==> Encodable(i)
  {
    if instructions == [] then [] else Encode(instructions[0]) + EncodeAll(instructions[1..])
  }

  /** A size: seven bits a byte, the lowest first, the top bit set on all bytes but the last. */
  function EncodeSize(n: nat): seq<Byte>
  {
    if n < 128 then [n] else [128 + n % 128] + EncodeSize(n / 128)
  }

  lemma {:induction false} OperandsRoundTrip(values: seq<Byte>, top: nat, data: seq<Byte>, pos: nat)
    requires Holds(data, pos, NonZero(values))
    ensures pos <= |data|
    ensures ReadOperands(Flags(values, top), |values|, data, pos) == Some(Operands(values, pos + |NonZero(values)|))
    decreases |values|
  {
    hide Holds, Flags, ReadOperands, NonZero;
    HoldsBound(data, pos, NonZero(values));
    FlagsStep(values, top);
    if values == [] {
      NoOperands(Flags(values, top), data, pos);
    } else {
      var rest := values[1..];
      assert [values[0]] + rest == values;
      OperandsStep(Flags(values, top), |values|, data, pos);
      if values[0] == 0 {
        assert NonZero(values) == NonZero(rest);
        OperandsRoundTrip(rest, top, data, pos);
      } else {
        HoldsFirst(data, pos, NonZero(values));
        assert NonZero(values)[1..] == NonZero(rest);
        OperandsRoundTrip(rest, top, data, pos + 1);
      }
    }
  }

  lemma NoOperands(flags: nat, data: seq<Byte>, pos: nat)
    requires pos <= |data|
    ensures ReadOperands(flags, 0, data, pos) == Some(Operands([], pos))
  {
  }

  lemma OperandsStep(flags: nat, n: nat, data: seq<Byte>, pos: nat)
    requires n > 0 && pos <= |data|
    ensures ReadOperands(flags, n, data, pos) ==
            if flags % 2 == 0 then PrependValue(0, ReadOperands(flags / 2, n - 1, data, pos))
            else if pos == |data| then None
            else PrependValue(data[pos], ReadOperands(flags / 2, n - 1, data, pos + 1))
  {
  }

  lemma FlagsStep(values: seq<Byte>, top: nat)
    ensures values == [] ==> NonZero(values) == []
    ensures values != [] ==>
            && Flags(values, top) / 2 == Flags(values[1..], top) && (Flags(values, top) % 2 == 0 <==> values[0] == 0)
            && NonZero(values) == (if values[0] == 0 then [] else [values[0]]) + NonZero(values[1..])
  {
  }

  lemma {:induction false} SizeRoundTrip(n: nat, data: seq<Byte>, pos: nat)
    requires Holds(data, pos, EncodeSize(n))
    ensures AfterSize(data, pos) == Some(pos + |EncodeSize(n)|)
    decreases n
  {
    HoldsFirst(data, pos, EncodeSize(n));
    if n >= 128 {
      assert EncodeSize(n / 128) == EncodeSize(n)[1..];
      SizeRoundTrip(n / 128, data, pos + 1);
    }
  }

  /** The chunk an instruction is read back as. */
  function ChunkAt(i: Instruction, pos: nat): Chunk
    requires !i.Reserved?
  {
    match i
    case Insert(bytes) => AddNew(pos + 1, |bytes|)
    case Copy(offset, size) => CopyFromBase(offset, size)
    case ShortCopy(offset) => CopyFromBase(offset, 65536)
  }

  lemma InsertRoundTrip(i: Instruction, data: seq<Byte>, pos: nat)
    requires Encodable(i) && i.Insert? && Holds(data, pos, Encode(i))
    ensures Chunks(data, pos) == PrependChunk(ChunkAt(i, pos), Chunks(data, pos + |Encode(i)|))
    ensures Holds(data, pos + 1, i.bytes)
  {
    HoldsFirst(data, pos, Encode(i));
    assert Encode(i)[1..] == i.bytes;
  }

  lemma CopyOperands(offset: nat, size: nat)
    requires Encodable(Copy(offset, size))
    ensures CopyChunk(LittleEndianBytes(offset, 4) + LittleEndianBytes(size, 3)) == CopyFromBase(offset, size)
  {
    var values := LittleEndianBytes(offset, 4) + LittleEndianBytes(size, 3);
    assert values[..4] == LittleEndianBytes(offset, 4) && values[4..] == LittleEndianBytes(size, 3);
    LittleEndianRoundTrip(offset, 4);
    LittleEndianRoundTrip(size, 3);
  }

  /** Without a size, 65536 bytes are copied. */
  lemma ShortCopyOperands(offset: nat)
    requires Encodable(ShortCopy(offset))
    ensures CopyChunk(LittleEndianBytes(offset, 4) + [0, 0, 0]) == CopyFromBase(offset, 65536)
  {
    var values := LittleEndianBytes(offset, 4) + [0, 0, 0];
    assert values[..4] == LittleEndianBytes(offset, 4) && values[4..] == [0, 0, 0];
    LittleEndianRoundTrip(offset, 4);
    assert [0, 0, 0][1..] == [0, 0] && [0, 0][1..] == [0] && [0][1..] == [];
    assert LittleEndian([0]) == 0 && LittleEndian([0, 0]) == 0;
  }

  lemma CopyRoundTrip(values: seq<Byte>, data: seq<Byte>, pos: nat)
    requires |values| == 7 && Holds(data, pos, EncodeCopy(values))
    ensures pos + |EncodeCopy(values)| <= |data|
    ensures Chunks(data, pos) == PrependChunk(CopyChunk(values), Chunks(data, pos + |EncodeCopy(values)|))
  {
    hide CopyChunk, Holds, ReadOperands, Flags, NonZero;
    FlagsBounds(values);
    assert Power(2, 7) == 128;
    assert EncodeCopy(values) == [Flags(values, 1)] + NonZero(values);
    HoldsBound(data, pos, EncodeCopy(values));
    HoldsFirst(data, pos, EncodeCopy(values));
    assert EncodeCopy(values)[1..] == NonZero(values);
    OperandsRoundTrip(values, 1, data, pos + 1);
  }

  lemma InstructionRoundTrip(i: Instruction, data: seq<Byte>, pos: nat)
    requires Encodable(i) && !i.Reserved? && Holds(data, pos, Encode(i))
    ensures Chunks(data, pos) == PrependChunk(ChunkAt(i, pos), Chunks(data, pos + |Encode(i)|))
    ensures i.Insert? ==> Holds(data, pos + 1, i.bytes)
  {
    hide Chunks, Holds, EncodeCopy, CopyChunk, LittleEndianBytes;
    match i
    case Insert(_) => InsertRoundTrip(i, data, pos);
    case Copy(offset, size) =>
      CopyOperands(offset, size);
      CopyRoundTrip(LittleEndianBytes(offset, 4) + LittleEndianBytes(size, 3), data, pos);
    case ShortCopy(offset) =>
      ShortCopyOperands(offset);
      CopyRoundTrip(LittleEndianBytes(offset, 4) + [0, 0, 0], data, pos);
  }

  lemma ReservedRoundTrip(data: seq<Byte>, pos: nat)
    requires Holds(data, pos, [0])
    ensures Chunks(data, pos) == Chunks(data, pos + 1)
  {
    HoldsFirst(data, pos, [0]);
  }

  lemma FitsWhenApplied(i: Instruction, data: seq<Byte>, pos: nat, base: seq<Byte>)
    requires Encodable(i) && !i.Reserved? && (i.Insert? ==> Holds(data, pos + 1, i.bytes))
    ensures Fits(ChunkAt(i, pos), data, base) <==> ApplyOne(i, base).Some?
    ensures Fits(ChunkAt(i, pos), data, base) ==> ApplyOne(i, base) == Some(ChunkBytes(ChunkAt(i, pos), data, base))
  {
  }

  lemma {:induction false} InstructionsRoundTrip(instructions: seq<Instruction>, data: seq<Byte>, pos: nat,
      base: seq<Byte>)
    requires forall i :: i in instructions ==> Encodable(i)
    requires Holds(data, pos, EncodeAll(instructions)) && pos + |EncodeAll(instructions)| == |data|
    ensures Chunks(data, pos).Some?
    ensures var chunks := Chunks(data, pos).value;
            Apply(instructions, base) == if AllFit(chunks, data, base) then Some(Output(chunks, data, base)) else None
    decreases |instructions|
  {
    hide Holds, Encode, Chunks, ApplyOne, ChunkBytes, Fits, ChunkAt;
    if instructions == [] {
      NoChunks(data);
    } else {
      var i, rest := instructions[0], instructions[1..];
      HoldsParts(data, pos, Encode(i), EncodeAll(rest));
      var next := pos + |Encode(i)|;
      InstructionsRoundTrip(rest, data, next, base);
      if i.Reserved? {
        EncodeReserved(base);
        ReservedRoundTrip(data, pos);
        assert Apply(rest, base).Some? ==> [] + Apply(rest, base).value == Apply(rest, base).value;
      } else {
        InstructionRoundTrip(i, data, pos);
        FitsWhenApplied(i, data, pos, base);
        FirstChunk(ChunkAt(i, pos), Chunks(data, next).value, data, base);
      }
    }
  }

  lemma EncodeReserved(base: seq<Byte>)
    ensures Encode(Reserved) == [0] && ApplyOne(Reserved, base) == Some([])
  {
  }

  lemma NoChunks(data: seq<Byte>)
    ensures Chunks(data, |data|) == Some([])
  {
  }

  lemma FirstChunk(c: Chunk, rest: seq<Chunk>, data: seq<Byte>, base: seq<Byte>)
    ensures AllFit([c] + rest, data, base) <==> Fits(c, data, base) && AllFit(rest, data, base)
    ensures AllFit([c] + rest, data, base)
            ==> Output([c] + rest, data, base) == ChunkBytes(c, data, base) + Output(rest, data, base)
  {
    hide Fits, ChunkBytes;
    var chunks := [c] + rest;
    assert chunks[0] == c && chunks[1..] == rest;
    assert forall i :: 0 <= i < |rest| ==> chunks[i + 1] == rest[i];
  }

  /** Reading a written delta applies the instructions that were written. */
  lemma {:induction false} DeltaRoundTrip(oldSize: nat, newSize: nat, instructions: seq<Instruction>, base: seq<Byte>)
    requires forall i :: i in instructions ==> Encodable(i)
    ensures Patch(EncodeSize(oldSize) + EncodeSize(newSize) + EncodeAll(instructions), base)
            == Apply(instructions, base)
  {
    hide Chunks, EncodeAll, EncodeSize, Apply, AfterSize, AllFit, Output, Holds, Encodable;
    var a, b, c := EncodeSize(oldSize), EncodeSize(newSize), EncodeAll(instructions);
    var data := a + b + c;
    HoldsAll(data);
    HoldsParts(data, 0, a + b, c);
    HoldsParts(data, 0, a, b);
    SizeRoundTrip(oldSize, data, 0);
    SizeRoundTrip(newSize, data, |a|);
    InstructionsRoundTrip(instructions, data, |a| + |b|, base);
  }

  lemma HoldsAll(data: seq<Byte>)
    ensures Holds(data, 0, data)
  {
  }

  function BitIf(b: Byte, weight: nat): nat { if b == 0 then 0 else weight }

  function ByteIf(b: Byte): seq<Byte> { if b == 0 then [] else [b] }

  /** The first byte of a copy says which operands follow: from its lowest bit up the four bytes of the offset, then the
      three of the size. */
  lemma CopyBytes(v: seq<Byte>)
    requires |v| == 7
    ensures EncodeCopy(v) == [128 + BitIf(v[0], 1) + BitIf(v[1], 2) + BitIf(v[2], 4) + BitIf(v[3], 8)
                                  + BitIf(v[4], 16) + BitIf(v[5], 32) + BitIf(v[6], 64)]
                             + (ByteIf(v[0]) + (ByteIf(v[1]) + (ByteIf(v[2]) + (ByteIf(v[3]) + (ByteIf(v[4])
                                + (ByteIf(v[5]) + (ByteIf(v[6]) + [])))))))
  {
    hide Flags, NonZero, BitIf, ByteIf;
    FlagBits(v);
    OperandBytes(v);
  }

  lemma FlagBits(v: seq<Byte>)
    requires |v| == 7
    ensures Flags(v, 1) == 128 + BitIf(v[0], 1) + BitIf(v[1], 2) + BitIf(v[2], 4) + BitIf(v[3], 8)
                           + BitIf(v[4], 16) + BitIf(v[5], 32) + BitIf(v[6], 64)
  {
    hide Flags, NonZero, ByteIf;
    FlagsOfThree(v, 0);
    FlagsOfThree(v, 3);
    FlagsFrom(v, 6);
    NoFlags();
    assert v[0..] == v && v[7..] == [];
  }

  lemma FlagsOfThree(v: seq<Byte>, i: nat)
    requires i + 3 <= |v|
    ensures Flags(v[i..], 1)
            == BitIf(v[i], 1) + BitIf(v[i + 1], 2) + BitIf(v[i + 2], 4) + 8 * Flags(v[i + 3..], 1)
  {
    hide Flags, NonZero, ByteIf;
    FlagsFrom(v, i);
    FlagsFrom(v, i + 1);
    FlagsFrom(v, i + 2);
  }

  lemma OperandBytes(v: seq<Byte>)
    requires |v| == 7
    ensures NonZero(v) == ByteIf(v[0]) + (ByteIf(v[1]) + (ByteIf(v[2]) + (ByteIf(v[3]) + (ByteIf(v[4])
                          + (ByteIf(v[5]) + (ByteIf(v[6]) + []))))))
  {
    hide Flags, NonZero, BitIf, ByteIf;
    forall i | 0 <= i < 7
      ensures NonZero(v[i..]) == ByteIf(v[i]) + NonZero(v[i + 1..])
    {
      FlagsFrom(v, i);
    }
    NoFlags();
    assert v[0..] == v && v[7..] == [];
  }

  lemma FlagsFrom(v: seq<Byte>, i: nat)
    requires i < |v|
    ensures Flags(v[i..], 1) == BitIf(v[i], 1) + 2 * Flags(v[i + 1..], 1)
    ensures NonZero(v[i..]) == ByteIf(v[i]) + NonZero(v[i + 1..])
  {
    assert v[i..][1..] == v[i + 1..];
  }

  lemma NoFlags()
    ensures Flags([], 1) == 1 && NonZero([]) == []
  {
  }

  /** Offset and size have their least significant byte first; no size is 65536. */
  lemma CopyNumbers(v: seq<Byte>)
    requires |v| == 7
    ensures var size := LittleEndian(v[4..]);
            CopyChunk(v) == CopyFromBase(LittleEndian(v[..4]), if size == 0 then 65536 else size)
    ensures LittleEndian(v[..4]) == v[0] as int + 256 * (v[1] as int) + 65536 * (v[2] as int) + 16777216 * (v[3] as int)
    ensures LittleEndian(v[4..]) == v[4] as int + 256 * (v[5] as int) + 65536 * (v[6] as int)
  {
    assert v[..4] == [v[0], v[1], v[2], v[3]] && v[4..] == [v[4], v[5], v[6]];
    FourBytes(v[0], v[1], v[2], v[3]);
    ThreeBytes(v[4], v[5], v[6]);
  }

  lemma ThreeBytes(a: Byte, b: Byte, c: Byte)
    ensures LittleEndian([a, b, c]) == a + 256 * b + 65536 * c
  {
    assert [a, b, c][1..] == [b, c] && [b, c][1..] == [c] && [c][1..] == [];
    assert LittleEndian([c]) == c && LittleEndian([b, c]) == b + 256 * c;
  }

  lemma FourBytes(a: Byte, b: Byte, c: Byte, d: Byte)
    ensures LittleEndian([a, b, c, d]) == a + 256 * b + 65536 * c + 16777216 * d
  {
    assert [a, b, c, d][1..] == [b, c, d];
    ThreeBytes(b, c, d);
  }
}
