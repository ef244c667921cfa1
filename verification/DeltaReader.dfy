/** PackObjectReader of pack.go: reading an object that is stored as a chain of deltas, in pieces of any size. */
module DeltaReader {
  import opened Common
  import opened Bytes
  import opened DeltaFormat
  import opened Sorting

  /** Where an object is stored: in a pack, or in the object store. */
  type Place = nat

  /** An object as it is stored. A delta refers to its base by the base's position in the same pack, or by its oid. */
  datatype Entry = Plain(content: seq<Byte>) | Delta(base: Place, byOid: bool, data: seq<Byte>)

  /** A complete store. */
  type Objects = Place -> Entry

  /** Delta chains end: bases come before their deltas. */
  ghost predicate Ranked(objects: Objects, rank: Place -> nat)
  {
    forall p :: objects(p).Delta? ==> rank(objects(p).base) < rank(p)
  }

  /** The object at a place: all deltas applied to the innermost base, unless one of them is malformed. */
  ghost function Content(objects: Objects, p: Place, rank: Place -> nat): Option<seq<Byte>>
    requires Ranked(objects, rank)
    decreases rank(p)
  {
    match objects(p)
    case Plain(content) => Some(content)
    case Delta(base, _, data) =>
      match Content(objects, base, rank)
      case None => None
      case Some(b) => Patch(data, b)
  }

  /** Deltas are kept in memory up to this size. */
  const MAX_BUFFERED := 50_000_000

  /** The base, referred to by oid, is itself a delta and too large to be kept in memory. */
  predicate HugeOidBase(objects: Objects, p: Place)
  {
    objects(p).Delta? && objects(p).byOid && objects(objects(p).base).Delta?
        && |objects(objects(p).base).data| > MAX_BUFFERED
  }

  /** No place down the chain has such a base. */
  ghost predicate NoHugeOidBase(objects: Objects, p: Place, rank: Place -> nat)
    requires Ranked(objects, rank)
    decreases rank(p)
  {
    objects(p).Delta? ==> !HugeOidBase(objects, p) && NoHugeOidBase(objects, objects(p).base, rank)
  }

  /** When an object can be read at all. */
  ghost predicate Opens(objects: Objects, p: Place, rank: Place -> nat)
    requires Ranked(objects, rank)
  {
    Content(objects, p, rank).Some? && NoHugeOidBase(objects, p, rank)
  }

  lemma OpensStepwise(objects: Objects, p: Place, rank: Place -> nat)
    requires Ranked(objects, rank) && objects(p).Delta?
    ensures Opens(objects, p, rank) <==>
            && Opens(objects, objects(p).base, rank) && !HugeOidBase(objects, p)
            && Patch(objects(p).data, Content(objects, objects(p).base, rank).value).Some?
  {
    hide Patch;
  }

  ghost predicate IsParse(data: seq<Byte>, chunks: seq<Chunk>)
  {
    Start(data).Some? && Chunks(data, Start(data).value) == Some(chunks)
  }

  /** What is kept for a chunk: its bytes, or nothing if a file can give them again. */
  ghost predicate Kept(c: Chunk, kept: Option<seq<Byte>>, data: seq<Byte>, base: seq<Byte>, file: bool)
    requires Fits(c, data, base)
  {
    match kept
    case Some(bytes) => bytes == ChunkBytes(c, data, base)
    case None => c.AddNew? && file
  }

  /** Everything that is needed from the base is kept. */
  ghost predicate AllKept(chunks: seq<Chunk>, kept: seq<Option<seq<Byte>>>, data: seq<Byte>, base: seq<Byte>,
      file: bool)
  {
    && AllFit(chunks, data, base) && |kept| == |chunks|
    && forall i :: 0 <= i < |chunks| ==> Kept(chunks[i], kept[i], data, base, file)
  }

  // --------------------------------------------------------------------------
  // Filling in copied chunks
  // --------------------------------------------------------------------------

  /** The order in which copies are filled in: by offset, and the longest first. */
  predicate Precedes(a: Chunk, b: Chunk)
  {
    a.offset < b.offset || (a.offset == b.offset && a.size > b.size)
  }

  function ByOffset(chunks: seq<Chunk>): (nat, nat) -> bool
  {
    (i: nat, j: nat) => Precedes(ChunkOf(chunks, i), ChunkOf(chunks, j))
  }

  function ChunkOf(chunks: seq<Chunk>, i: nat): Chunk { if i < |chunks| then chunks[i] else AddNew(0, 0) }

  /** The chunks that are copied from the base, in order. */
  method CopyRefs(chunks: seq<Chunk>) returns (refs: seq<nat>)
    ensures InRange(refs, |chunks|)
    ensures forall i: nat :: i in refs <==> i < |chunks| && chunks[i].CopyFromBase?
  {
    refs := [];
    for i := 0 to |chunks|
      invariant InRange(refs, i) && Distinct(refs)
      invariant forall j: nat :: j in refs <==> j < i && chunks[j].CopyFromBase?
    {
      if chunks[i].CopyFromBase? {
        refs := refs + [i];
      }
    }
    refs := Sort(ByOffset(chunks), refs);
    assert forall k :: 0 <= k < |refs| ==> refs[k] in refs;
  }

  function Copied(c: Chunk, base: seq<Byte>): Option<seq<Byte>>
  {
    if c.offset + c.size <= |base| then Some(base[c.offset..c.offset + c.size]) else None
  }

  /** What is kept for a chunk after parsing: added bytes, when there is no file to read them from again. */
  predicate IsUnfilled(c: Chunk, kept: Option<seq<Byte>>, data: seq<Byte>, file: bool)
  {
    if c.CopyFromBase? || file then kept == None
    else c.offset + c.size <= |data| && kept == Some(data[c.offset..c.offset + c.size])
  }

  ghost predicate Unfilled(chunks: seq<Chunk>, kept: seq<Option<seq<Byte>>>, data: seq<Byte>, file: bool)
  {
    |kept| == |chunks| && forall i :: 0 <= i < |chunks| ==> IsUnfilled(chunks[i], kept[i], data, file)
  }

  /** Copies have been filled in correctly, those in done at least. */
  ghost predicate Filled(chunks: seq<Chunk>, kept: seq<Option<seq<Byte>>>, data: seq<Byte>, file: bool, base: seq<Byte>,
      done: seq<nat>)
  {
    && |kept| == |chunks|
    && (forall i :: 0 <= i < |chunks| && chunks[i].AddNew? ==> IsUnfilled(chunks[i], kept[i], data, file))
    && (forall i ::
          0 <= i < |chunks| && chunks[i].CopyFromBase? && kept[i].Some?
          ==> kept[i] == Copied(chunks[i], base))
    && (forall i: nat :: i in done ==> i < |chunks| && kept[i].Some?)
  }

  lemma StartFilling(chunks: seq<Chunk>, kept: seq<Option<seq<Byte>>>, data: seq<Byte>, file: bool, base: seq<Byte>)
    requires Unfilled(chunks, kept, data, file)
    ensures Filled(chunks, kept, data, file, base, [])
  {
  }

  predicate InRange(refs: seq<nat>, n: nat)
  {
    forall k :: 0 <= k < |refs| ==> refs[k] < n
  }

  /** The bytes of a copied chunk, if it is there already, or starts like the previous one and is shorter. */
  function Available(chunks: seq<Chunk>, kept: seq<Option<seq<Byte>>>, refs: seq<nat>, ci: nat): Option<seq<Byte>>
    requires InRange(refs, |chunks|) && |kept| == |chunks| && ci < |refs|
  {
    var idx := refs[ci];
    if kept[idx].Some? && kept[idx].value != [] then kept[idx]
    else if ci > 0 && chunks[idx].offset == chunks[refs[ci - 1]].offset
        && chunks[idx].size < chunks[refs[ci - 1]].size then
      match kept[refs[ci - 1]]
      case Some(b) => if chunks[idx].size <= |b| then Some(b[..chunks[idx].size]) else None
      case None => None
    else None
  }

  lemma FilledSoFar(chunks: seq<Chunk>, kept: seq<Option<seq<Byte>>>, data: seq<Byte>, file: bool, base: seq<Byte>,
      refs: seq<nat>, ci: nat)
    requires InRange(refs, |chunks|) && ci < |refs| && Filled(chunks, kept, data, file, base, refs[..ci])
    requires forall k :: 0 <= k < |refs| ==> chunks[refs[k]].CopyFromBase?
    ensures |kept| == |chunks|
    ensures var a := Available(chunks, kept, refs, ci); a == None || a == Copied(chunks[refs[ci]], base)
  {
    if ci > 0 {
      var c, prev := chunks[refs[ci]], chunks[refs[ci - 1]];
      assert refs[..ci][ci - 1] == refs[ci - 1];
      if prev.offset == c.offset && c.size < prev.size && prev.offset + prev.size <= |base| {
        PartOfPart(base, prev.offset, prev.size, 0, c.size);
      }
    }
  }

  lemma FillOne(chunks: seq<Chunk>, kept: seq<Option<seq<Byte>>>, data: seq<Byte>, file: bool, base: seq<Byte>,
      refs: seq<nat>, ci: nat, b: seq<Byte>)
    requires ci < |refs| && Filled(chunks, kept, data, file, base, refs[..ci])
    requires refs[ci] < |chunks| && chunks[refs[ci]].CopyFromBase? && Copied(chunks[refs[ci]], base) == Some(b)
    ensures refs[ci] < |kept| && Filled(chunks, kept[refs[ci] := Some(b)], data, file, base, refs[..ci + 1])
  {
    assert refs[..ci + 1] == refs[..ci] + [refs[ci]];
  }

  lemma AllFilled(chunks: seq<Chunk>, kept: seq<Option<seq<Byte>>>, data: seq<Byte>, file: bool, base: seq<Byte>,
      refs: seq<nat>)
    requires Filled(chunks, kept, data, file, base, refs[..|refs|]) && Sane(chunks, data)
    requires forall i: nat :: i in refs <==> i < |chunks| && chunks[i].CopyFromBase?
    ensures AllFit(chunks, data, base) && AllKept(chunks, kept, data, base, file)
  {
    assert refs[..|refs|] == refs;
    forall i | 0 <= i < |chunks|
      ensures Fits(chunks[i], data, base) && Kept(chunks[i], kept[i], data, base, file)
    {
      assert chunks[i].CopyFromBase? ==> i in refs;
    }
  }

  lemma NotAllFit(chunks: seq<Chunk>, data: seq<Byte>, base: seq<Byte>, i: nat)
    requires i < |chunks| && chunks[i].CopyFromBase? && Copied(chunks[i], base) == None
    ensures !AllFit(chunks, data, base)
  {
    assert !Fits(chunks[i], data, base);
  }

  function WithValues(values: seq<Byte>, r: Option<Operands>): Option<Operands>
  {
    match r
    case None => None
    case Some(o) => Some(Operands(values + o.values, o.next))
  }

  lemma AddValue(values: seq<Byte>, flags: nat, n: nat, data: seq<Byte>, pos: nat)
    requires n > 0 && pos <= |data|
    ensures WithValues(values, ReadOperands(flags, n, data, pos)) ==
            if flags % 2 == 0 then WithValues(values + [0], ReadOperands(flags / 2, n - 1, data, pos))
            else if pos == |data| then None
            else WithValues(values + [data[pos]], ReadOperands(flags / 2, n - 1, data, pos + 1))
  {
    var next := if flags % 2 == 0 then ReadOperands(flags / 2, n - 1, data, pos)
                else if pos == |data| then None else ReadOperands(flags / 2, n - 1, data, pos + 1);
    if next.Some? {
      var b := if flags % 2 == 0 then 0 else data[pos];
      assert values + ([b] + next.value.values) == values + [b] + next.value.values;
    }
  }

  function WithChunks(chunks: seq<Chunk>, r: Option<seq<Chunk>>): Option<seq<Chunk>>
  {
    match r
    case None => None
    case Some(cs) => Some(chunks + cs)
  }

  lemma AddChunk(chunks: seq<Chunk>, c: Chunk, r: Option<seq<Chunk>>)
    ensures WithChunks(chunks, PrependChunk(c, r)) == WithChunks(chunks + [c], r)
  {
    if r.Some? {
      assert chunks + ([c] + r.value) == chunks + [c] + r.value;
    }
  }

  lemma NothingUnfilled(data: seq<Byte>, file: bool)
    ensures Unfilled([], [], data, file)
  {
  }

  lemma NoChunksBefore(r: Option<seq<Chunk>>)
    ensures WithChunks([], r) == r
  {
    if r.Some? {
      assert [] + r.value == r.value;
    }
  }

  lemma NoValues(r: Option<Operands>)
    ensures WithValues([], r) == r
  {
    if r.Some? {
      assert [] + r.value.values == r.value.values;
    }
  }

  lemma LastValue(values: seq<Byte>, flags: nat, data: seq<Byte>, pos: nat)
    requires pos <= |data|
    ensures WithValues(values, ReadOperands(flags, 0, data, pos)) == Some(Operands(values, pos))
  {
    assert values + [] == values;
  }

  lemma AddUnfilled(chunks: seq<Chunk>, kept: seq<Option<seq<Byte>>>, data: seq<Byte>, file: bool, c: Chunk,
      bytes: Option<seq<Byte>>)
    requires Unfilled(chunks, kept, data, file) && IsUnfilled(c, bytes, data, file)
    ensures Unfilled(chunks + [c], kept + [bytes], data, file)
  {
  }

  /** The readers of a delta and of its bases, all of which are read from files. */
  ghost predicate Chain(s: seq<PackObjectReader>)
    reads s
    decreases |s|
  {
    && s != [] && s[0].Streaming()
    && if |s| == 1 then s[0].base == null
       else s[0].base == s[1] && s[1].IsBaseOf(s[0]) && s[0] !in s[1..] && Chain(s[1..])
  }

  /** Reader i is initialised, and has the next one as its base. */
  ghost predicate Link(s: seq<PackObjectReader>, i: nat)
    requires i + 1 < |s|
    reads s[i]
  {
    && s[i].Initialised() && s[i].base == s[i + 1] && s[i + 1].IsBaseOf(s[i])
    && s[i].objects == s[0].objects && s[i + 1].objects == s[0].objects
  }

  ghost predicate LinkedUpTo(s: seq<PackObjectReader>, n: int)
    requires n < |s|
    reads s
  {
    forall i: nat :: i < n ==> Link(s, i)
  }

  lemma LinkAdded(s: seq<PackObjectReader>, r: PackObjectReader)
    requires s != [] && LinkedUpTo(s, |s| - 1)
    requires var last := s[|s| - 1];
             last.Initialised() && last.base == r && r.IsBaseOf(last) && last.objects == s[0].objects
    ensures LinkedUpTo(s + [r], |s|)
  {
    hide PackObjectReader.Initialised;
    var t := s + [r];
    forall i: nat | i < |s|
      ensures Link(t, i)
    {
      if i < |s| - 1 {
        assert Link(s, i);
      }
    }
  }

  /** Every delta down the chain can be parsed and its base opened. */
  ghost predicate Inits(objects: Objects, p: Place, rank: Place -> nat)
    requires Ranked(objects, rank)
    decreases rank(p)
  {
    objects(p).Delta? ==>
      && (exists cs :: IsParse(objects(p).data, cs))
      && (objects(p).byOid ==> Opens(objects, objects(p).base, rank))
      && !HugeOidBase(objects, p)
      && Inits(objects, objects(p).base, rank)
  }

  lemma InitsPlain(objects: Objects, p: Place, rank: Place -> nat)
    requires Ranked(objects, rank) && objects(p).Plain?
    ensures Inits(objects, p, rank)
  {
  }

  lemma {:induction false} OpensWhen(objects: Objects, p: Place, rank: Place -> nat)
    requires Ranked(objects, rank)
    ensures Opens(objects, p, rank) <==> Inits(objects, p, rank) && Content(objects, p, rank).Some?
    decreases rank(p)
  {
    if objects(p).Delta? {
      OpensWhen(objects, objects(p).base, rank);
      OpensStepwise(objects, p, rank);
      var data := objects(p).data;
      if Opens(objects, p, rank) {
        assert IsParse(data, Chunks(data, Start(data).value).value);
      }
    }
  }

  class PackObjectReader {
    const objects: Objects
    const place: Place
    const file: bool                        // reading from a file, not from a stream

    // the inflated stream: how far it has been read, and whether it is kept in memory
    var pos: nat
    var mem: bool
    var relPos: nat

    // the state of a delta, when base is not null
    var base: PackObjectReader?
    var chunks: seq<Chunk>
    var chunkData: seq<Option<seq<Byte>>>
    var chunkIndex: nat
    var chunkPosition: nat
    var realPosition: nat

    function Entry(): Entry { objects(place) }

    function Data(): seq<Byte> { if Entry().Plain? then Entry().content else Entry().data }

    predicate Streaming()
      reads this
    {
      pos <= |Data()| && (mem ==> file) && (Entry().Plain? ==> base == null)
    }

    /** Open an object; of a plain object, everything is read into memory if it is small enough. */
    constructor (objects: Objects, place: Place, file: bool)
      ensures this.objects == objects && this.place == place && this.file == file
      ensures Streaming() && pos == 0 && relPos == 0 && base == null && realPosition == 0
              && (objects(place).Delta? ==> !mem)
    {
      this.objects, this.place, this.file := objects, place, file;
      pos, mem, relPos, base := 0, false, 0, null;
      chunks, chunkData, chunkIndex, chunkPosition, realPosition := [], [], 0, 0, 0;
      new;
      if objects(place).Plain? {
        ReadIntoMemoryMaybe();
      }
    }

    ghost predicate IsBaseOf(r: PackObjectReader)
    {
      file && objects == r.objects && r.Entry().Delta? && place == r.Entry().base
    }

    // ------------------------------------------------------------------------
    // The stream
    // ------------------------------------------------------------------------

    /** Read up to k bytes; how many is up to the inflater, but at least one if there are any. */
    method ReadStream(k: nat) returns (b: seq<Byte>)
      requires Streaming()
      modifies this`pos
      ensures Streaming() && pos == old(pos) + |b| && b == Data()[old(pos)..pos]
      ensures |b| <= k && (k > 0 && old(pos) < |Data()| ==> |b| > 0)
    {
      var most := Min(k, |Data()| - pos);
      var n :| 0 <= n <= most && (most > 0 ==> n > 0) && (mem ==> n == most);
      b := Data()[pos..pos + n];
      pos := pos + n;
    }

    method ReadByte() returns (b: Option<Byte>)
      requires Streaming()
      modifies this`pos
      ensures Streaming()
      ensures if old(pos) < |Data()| then b == Some(Data()[old(pos)]) && pos == old(pos) + 1
              else b == None && pos == old(pos)
    {
      var bytes := ReadStream(1);
      b := if |bytes| > 0 then Some(bytes[0]) else None;
    }

    /** Read n bytes in full, or fail at the end of the stream. */
    method ReadFull(n: nat) returns (b: Option<seq<Byte>>)
      requires Streaming()
      modifies this`pos
      ensures Streaming() && old(pos) <= pos && (b.Some? <==> old(pos) + n <= |Data()|)
      ensures b.Some? ==> pos == old(pos) + n && b.value == Data()[old(pos)..pos]
    {
      var bytes := [];
      while |bytes| < n
        invariant Streaming() && pos == old(pos) + |bytes| && |bytes| <= n && bytes == Data()[old(pos)..pos]
        decreases n - |bytes|
      {
        ghost var before := pos;
        var more := ReadStream(n - |bytes|);
        if |more| == 0 {
          return None;
        }
        JoinSlices(Data(), old(pos), before, pos);
        bytes := bytes + more;
      }
      return Some(bytes);
    }

    method SkipStream(n: nat) returns (ok: bool)
      requires Streaming()
      modifies this`pos
      ensures Streaming() && old(pos) <= pos && (ok <==> old(pos) + n <= |Data()|) && (ok ==> pos == old(pos) + n)
    {
      var rem := n;
      while rem > 0
        invariant Streaming() && pos == old(pos) + n - rem && 0 <= rem <= n
        decreases rem
      {
        var b := ReadStream(Min(rem, 512));
        if |b| == 0 {
          return false;
        }
        rem := rem - |b|;
      }
      return true;
    }

    /** Go back to the start, which a stream that is not in a file cannot. */
    method ResetStream() returns (ok: bool)
      requires Streaming()
      modifies this`pos
      ensures Streaming() && ok == file && (if ok then pos == 0 else pos == old(pos))
    {
      if mem {
        pos := 0;
        return true;
      }
      if file {
        pos := 0;
      }
      return file;
    }

    method ReadIntoMemoryMaybe()
      requires Streaming()
      modifies this`pos, this`mem
      ensures Streaming()
      ensures if !old(mem) && file && |Data()| <= 50_000_000 then pos == 0 && mem
              else pos == old(pos) && mem == old(mem)
    {
      if mem || !file || |Data()| > MAX_BUFFERED {
        return;
      }
      var _ := ResetStream();
      var _ := ReadFull(|Data()|);
      pos, mem := 0, true;
    }

    // ------------------------------------------------------------------------
    // The delta
    // ------------------------------------------------------------------------

    ghost function BaseContent(rank: Place -> nat): seq<Byte>
      requires Ranked(objects, rank) && Entry().Delta?
    {
      match Content(objects, Entry().base, rank) case None => [] case Some(b) => b
    }

    /** The delta has been parsed; what a file cannot give again is kept. */
    ghost predicate Parsed()
      reads this
    {
      && Entry().Delta? && Streaming() && base != null
      && IsParse(Data(), chunks)
      && (file ==> relPos == pos || relPos == |Data()|)
    }

    ghost predicate Cursor()
      reads this
    {
      && chunkIndex <= |chunks|
      && if chunkIndex < |chunks| then chunkPosition < chunks[chunkIndex].size else chunkPosition == 0
    }

    /** The object can be read, from this reader alone. */
    ghost predicate Readable(rank: Place -> nat)
      requires Ranked(objects, rank)
      reads this
    {
      Streaming() && Content(objects, place, rank).Some? &&
      match Entry()
      case Plain(_) => relPos == pos
      case Delta(_, _, _) =>
        && Parsed() && Cursor() && Content(objects, Entry().base, rank).Some?
        && AllKept(chunks, chunkData, Data(), BaseContent(rank), file)
    }

    ghost function Whole(rank: Place -> nat): seq<Byte>
      requires Ranked(objects, rank)
    {
      match Content(objects, place, rank) case None => [] case Some(c) => c
    }

    /** How much of the object has been read. */
    ghost function Delivered(): nat
      reads this
    {
      if Entry().Plain? then relPos
      else (if chunkIndex <= |chunks| then Before(chunks, chunkIndex) else 0) + chunkPosition
    }

    function Position(): nat
      reads this
    {
      if Entry().Plain? then relPos else if base != null then realPosition else 0
    }

    // ------------------------------------------------------------------------
    // Reading
    // ------------------------------------------------------------------------

    /** Read up to k bytes. A delta fills what it is given as long as there is more; a plain object gives at least
        one byte. */
    method Read(k: nat, ghost rank: Place -> nat) returns (b: seq<Byte>, eof: bool)
      requires Ranked(objects, rank) && Readable(rank)
      modifies this`pos, this`relPos, this`chunkIndex, this`chunkPosition, this`realPosition
      ensures Streaming() && Readable(rank) && Delivered() == old(Delivered()) + |b| <= |Whole(rank)|
      ensures b == Whole(rank)[old(Delivered())..Delivered()] && |b| <= k
      ensures old(Delivered()) < |Whole(rank)| && k > 0 ==> |b| > 0
      ensures Entry().Delta? ==> |b| == Min(k, |Whole(rank)| - old(Delivered()))
      ensures |b| == 0 && k > 0 ==> eof
      ensures eof ==> Delivered() == |Whole(rank)|
      ensures base != null || Entry().Plain? ==> Position() == old(Position()) + |b|
    {
      if Entry().Plain? {
        b, eof := ReadBasic(k);
      } else {
        b, eof := ReadDelta(k, rank);
      }
    }

    method ReadBasic(k: nat) returns (b: seq<Byte>, eof: bool)
      requires Entry().Plain? && Streaming() && relPos == pos
      modifies this`pos, this`relPos
      ensures Streaming() && relPos == pos == old(pos) + |b| && b == Data()[old(pos)..pos] && |b| <= k
      ensures old(pos) < |Data()| && k > 0 ==> |b| > 0
      ensures |b| == 0 && k > 0 ==> eof
      ensures eof ==> pos == |Data()|
    {
      if relPos >= |Data()| {
        return [], true;
      }
      b := ReadStream(Min(k, |Data()| - relPos));
      relPos := relPos + |b|;
      eof := false;
    }

    method ReadDelta(k: nat, ghost rank: Place -> nat) returns (b: seq<Byte>, eof: bool)
      requires Ranked(objects, rank) && Entry().Delta? && Readable(rank)
      modifies this`pos, this`relPos, this`chunkIndex, this`chunkPosition, this`realPosition
      ensures Readable(rank) && Delivered() == old(Delivered()) + |b| <= |Whole(rank)|
      ensures b == Whole(rank)[old(Delivered())..Delivered()] && |b| == Min(k, |Whole(rank)| - old(Delivered()))
      ensures eof <==> |b| == 0 && Delivered() == |Whole(rank)|
      ensures realPosition == old(realPosition) + |b|
    {
      hide Content, Patch, ChunkBytes, Output, Fits, Before, Chunks, Start, AllKept, IsParse, PackObjectReader.Whole;
      b := [];
      CursorInContent(rank);
      while |b| < k
        invariant |b| <= k && Readable(rank) && Delivered() == old(Delivered()) + |b| <= |Whole(rank)|
        invariant b == Whole(rank)[old(Delivered())..Delivered()]
        invariant realPosition == old(realPosition) + |b|
        decreases k - |b|
      {
        if chunkIndex >= |chunks| {
          break;
        }
        ghost var from := Delivered();
        var piece := ReadChunk(Min(chunks[chunkIndex].size - chunkPosition, k - |b|), rank);
        JoinSlices(Whole(rank), old(Delivered()), from, from + |piece|);
        b := b + piece;
      }
      CursorInContent(rank);
      eof := |b| == 0 && chunkIndex >= |chunks|;
    }

    static lemma JoinSlices(s: seq<Byte>, i: nat, j: nat, k: nat)
      requires i <= j <= k <= |s|
      ensures s[i..j] + s[j..k] == s[i..k]
    {
    }

    /** Read up to n bytes of the current chunk, and move on. */
    method ReadChunk(n: nat, ghost rank: Place -> nat) returns (b: seq<Byte>)
      requires Ranked(objects, rank) && Entry().Delta? && Readable(rank) && chunkIndex < |chunks|
      requires 0 < n <= chunks[chunkIndex].size - chunkPosition
      modifies this`pos, this`relPos, this`chunkIndex, this`chunkPosition, this`realPosition
      ensures Readable(rank) && Delivered() == old(Delivered()) + |b| <= |Whole(rank)|
      ensures b == Whole(rank)[old(Delivered())..Delivered()] && 0 < |b| <= n
      ensures realPosition == old(realPosition) + |b|
    {
      hide PackObjectReader.Readable, Before, Content, ChunkBytes, Patch;
      b := TakeBytes(n, rank);
      PartOfContent(rank, |b|);
      Advance(|b|, rank);
    }

    /** Up to n bytes of the current chunk: from what is kept of it, or from the stream. */
    method TakeBytes(n: nat, ghost rank: Place -> nat) returns (b: seq<Byte>)
      requires Ranked(objects, rank) && Entry().Delta? && Readable(rank) && chunkIndex < |chunks|
      requires 0 < n <= chunks[chunkIndex].size - chunkPosition
      modifies this`pos, this`relPos
      ensures Readable(rank) && 0 < |b| <= n && Delivered() == old(Delivered())
      ensures Fits(chunks[chunkIndex], Data(), BaseContent(rank))
      ensures b == ChunkBytes(chunks[chunkIndex], Data(), BaseContent(rank))[chunkPosition..chunkPosition + |b|]
    {
      hide Content, Patch, ChunkBytes, Output, Before, IsParse, AllKept, Fits;
      var c := chunks[chunkIndex];
      KeptHere(chunks, chunkData, Data(), BaseContent(rank), file, chunkIndex);
      match chunkData[chunkIndex] {
        case Some(cached) =>
          b := cached[chunkPosition..chunkPosition + n];
        case None =>
          b := ReadAdded(c.offset + chunkPosition, n);
          AddedBytes(c, Data(), BaseContent(rank), chunkPosition, |b|);
      }
    }

    method Advance(n: nat, ghost rank: Place -> nat)
      requires Ranked(objects, rank) && Entry().Delta? && Readable(rank) && chunkIndex < |chunks|
      requires chunkPosition + n <= chunks[chunkIndex].size
      modifies this`chunkIndex, this`chunkPosition, this`realPosition
      ensures Readable(rank) && Delivered() == old(Delivered()) + n && realPosition == old(realPosition) + n
    {
      hide Content, Before, IsParse, AllKept, Patch;
      KeptHere(chunks, chunkData, Data(), BaseContent(rank), file, chunkIndex);
      BeforeNext(chunks, chunkIndex);
      chunkPosition, realPosition := chunkPosition + n, realPosition + n;
      if chunkPosition >= chunks[chunkIndex].size {
        chunkIndex, chunkPosition := chunkIndex + 1, 0;
      }
    }

    /** Read from an offset of the inflated stream: forward if that is ahead, from the start otherwise. */
    method ReadAdded(offset: nat, n: nat) returns (b: seq<Byte>)
      requires Streaming() && file && (relPos == pos || relPos == |Data()|)
      requires 0 < n && offset + n <= |Data()|
      modifies this`pos, this`relPos
      ensures Streaming() && relPos == pos
      ensures 0 < |b| <= n && b == Data()[offset..offset + |b|]
    {
      if relPos > offset {
        var _ := ResetStream();
        relPos := 0;
      }
      if relPos < offset {
        var _ := SkipStream(offset - relPos);
        relPos := offset;
      }
      b := ReadStream(n);
      relPos := relPos + |b|;
    }

    lemma CursorInContent(rank: Place -> nat)
      requires Ranked(objects, rank) && Entry().Delta? && Readable(rank)
      ensures Delivered() <= |Whole(rank)| && (chunkIndex == |chunks| <==> Delivered() == |Whole(rank)|)
    {
      OutputLength(chunks, Data(), BaseContent(rank));
      if chunkIndex < |chunks| {
        ChunkInOutput(chunks, Data(), BaseContent(rank), chunkIndex);
      }
    }

    /** Skip n bytes. */
    method SkipBytes(n: nat, ghost rank: Place -> nat) returns (ok: bool)
      requires Ranked(objects, rank) && Readable(rank)
      modifies this`pos, this`relPos, this`chunkIndex, this`chunkPosition, this`realPosition
      ensures Streaming() && Readable(rank) && (ok <==> old(Delivered()) + n <= |Whole(rank)|)
      ensures ok ==> Delivered() == old(Delivered()) + n
    {
      hide IsParse, Content, AllKept, Patch, Before;
      DeliveredInContent(rank);
      var rem := n;
      while rem > 0
        invariant Streaming() && Readable(rank) && 0 <= rem <= n
                  && Delivered() == old(Delivered()) + n - rem <= |Whole(rank)|
        decreases rem
      {
        var b, eof := Read(Min(rem, 512), rank);
        if |b| == 0 && eof {
          return false;
        }
        rem := rem - |b|;
      }
      return true;
    }

    /** Go back to the start; so do the readers of all bases. */
    method Reset(ghost s: seq<PackObjectReader>, ghost rank: Place -> nat) returns (ok: bool)
      requires Ranked(objects, rank) && Chain(s) && s[0] == this
      modifies s
      ensures Chain(s) && SameData(s) && ok == file
      ensures ok ==> Position() == 0 && (old(Readable(rank)) ==> Readable(rank) && Delivered() == 0)
      decreases |s|
    {
      hide PackObjectReader.Readable;
      ok := ResetSelf(rank);
      if ok && base != null {
        assert Chain(s[1..]);
        ok := base.Reset(s[1..], rank);
      }
    }

    method ResetSelf(ghost rank: Place -> nat) returns (ok: bool)
      requires Ranked(objects, rank) && Streaming()
      modifies this`pos, this`relPos, this`chunkIndex, this`chunkPosition, this`realPosition
      ensures Streaming() && ok == file
      ensures ok ==> Position() == 0 && (old(Readable(rank)) ==> Readable(rank) && Delivered() == 0)
    {
      hide IsParse, Content, AllKept;
      ok := ResetStream();
      if !ok {
        return;
      }
      relPos := 0;
      if base != null {
        chunkIndex, chunkPosition, realPosition := 0, 0, 0;
        SizesPositive(rank);
      }
    }

    lemma SizesPositive(rank: Place -> nat)
      requires Ranked(objects, rank) && Entry().Delta?
      ensures AllKept(chunks, chunkData, Data(), BaseContent(rank), file)
              ==> forall j :: 0 <= j < |chunks| ==> chunks[j].size > 0
    {
    }

    lemma {:induction false} DeliveredInContent(rank: Place -> nat)
      requires Ranked(objects, rank) && Readable(rank)
      ensures Streaming() && Delivered() <= |Whole(rank)|
    {
      if Entry().Delta? {
        CursorInContent(rank);
      }
    }

    // ------------------------------------------------------------------------
    // Keeping what is needed from the base
    // ------------------------------------------------------------------------

    /** The next n bytes, in reads of up to 2048 bytes. */
    method ReadFully(n: nat, ghost rank: Place -> nat) returns (b: Option<seq<Byte>>)
      requires Ranked(objects, rank) && Readable(rank)
      modifies this`pos, this`relPos, this`chunkIndex, this`chunkPosition, this`realPosition
      ensures Streaming() && Readable(rank)
      ensures b == if old(Delivered()) + n <= |Whole(rank)|
              then Some(Whole(rank)[old(Delivered())..old(Delivered()) + n]) else None
    {
      hide Content, Before, PackObjectReader.Readable, PackObjectReader.Whole;
      DeliveredInContent(rank);
      ghost var from := Delivered();
      var bytes := [];
      while |bytes| < n
        invariant Streaming() && Readable(rank) && |bytes| <= n
        invariant Delivered() == from + |bytes| <= |Whole(rank)| && bytes == Whole(rank)[from..from + |bytes|]
        decreases n - |bytes|
      {
        var more, eof := Read(Min(n - |bytes|, 2048), rank);
        if |more| == 0 && eof {
          return None;
        }
        JoinSlices(Whole(rank), from, from + |bytes|, from + |bytes| + |more|);
        bytes := bytes + more;
      }
      return Some(bytes);
    }

    /** The bytes a chunk copies from this object. */
    method ReadRange(c: Chunk, ghost s: seq<PackObjectReader>, ghost rank: Place -> nat) returns (b: Option<seq<Byte>>)
      requires Ranked(objects, rank) && Chain(s) && s[0] == this && file && Readable(rank) && c.size > 0
      modifies s
      ensures Chain(s) && SameData(s) && Readable(rank) && b == Copied(c, Whole(rank))
    {
      hide Content, Before, PackObjectReader.Readable, PackObjectReader.Whole;
      var _ := Reset(s, rank);
      var p := Position();
      if c.offset > p {
        var ok := SkipBytes(c.offset - p, rank);
        if !ok {
          return None;
        }
      }
      b := ReadFully(c.size, rank);
    }

    /** Fill in what the delta copies from its base, and let go of what the base keeps for its own chunks. */
    method InitCache(ghost s: seq<PackObjectReader>, ghost rank: Place -> nat) returns (ok: bool)
      requires Ranked(objects, rank) && Chain(s) && |s| > 1 && s[0] == this && s[1].IsBaseOf(this)
               && s[1].Readable(rank)
      requires Parsed() && Unfilled(chunks, chunkData, Data(), file) && chunkIndex == 0 && chunkPosition == 0
      modifies this`chunkData, s[1..]
      ensures Chain(s) && IsParse(Data(), chunks)
      ensures ok <==> AllFit(chunks, Data(), s[1].Whole(rank))
      ensures ok ==> Readable(rank) && Delivered() == 0 && (s[1].Entry().Delta? ==> s[1].chunkData == [])
    {
      hide PackObjectReader.Readable, PackObjectReader.Whole, Filled, Unfilled, AllFit, AllKept, IsParse, Available,
          Copied;
      var refs := CopyRefs(chunks);
      ParsedIsSane();
      ok := FillCopies(refs, s, rank);
      if !ok {
        return;
      }
      AllFilled(chunks, chunkData, Data(), file, s[1].Whole(rank), refs);
      HasContent(s[1], rank);
      if base.Entry().Delta? {
        base.chunkData := [];
      }
      NowReadable(s, rank);
    }

    method FillCopies(refs: seq<nat>, ghost s: seq<PackObjectReader>, ghost rank: Place -> nat) returns (ok: bool)
      requires Ranked(objects, rank) && Chain(s) && |s| > 1 && s[0] == this && s[1].IsBaseOf(this)
               && s[1].Readable(rank)
      requires Unfilled(chunks, chunkData, Data(), file) && Sane(chunks, Data()) && InRange(refs, |chunks|)
      requires forall k :: 0 <= k < |refs| ==> chunks[refs[k]].CopyFromBase?
      modifies this`chunkData, s[1..]
      ensures Chain(s) && s[1].Readable(rank)
      ensures if ok then Filled(chunks, chunkData, Data(), file, s[1].Whole(rank), refs[..|refs|])
              else !AllFit(chunks, Data(), s[1].Whole(rank))
    {
      hide PackObjectReader.Readable, PackObjectReader.Whole, Filled, Unfilled, AllFit, IsParse, Available, Copied;
      ghost var whole := s[1].Whole(rank);
      StartFilling(chunks, chunkData, Data(), file, whole);
      for ci := 0 to |refs|
        invariant Chain(s) && s[1].Readable(rank)
        invariant Filled(chunks, chunkData, Data(), file, whole, refs[..ci])
      {
        var idx := refs[ci];
        FilledSoFar(chunks, chunkData, Data(), file, whole, refs, ci);
        var b := Available(chunks, chunkData, refs, ci);
        if b == None {
          b := base.ReadRange(chunks[idx], s[1..], rank);
        }
        if b == None {
          NotAllFit(chunks, Data(), whole, idx);
          return false;
        }
        FillOne(chunks, chunkData, Data(), file, whole, refs, ci, b.value);
        chunkData := chunkData[idx := b];
      }
      return true;
    }

    lemma ParsedIsSane()
      requires Parsed()
      ensures Sane(chunks, Data())
    {
      ChunksAreSane(Data(), Start(Data()).value);
    }

    lemma NowReadable(s: seq<PackObjectReader>, rank: Place -> nat)
      requires Ranked(objects, rank) && |s| > 1 && s[1].IsBaseOf(this) && Content(objects, s[1].place, rank).Some?
      requires Parsed() && chunkIndex == 0 && chunkPosition == 0
               && AllKept(chunks, chunkData, Data(), s[1].Whole(rank), file)
      ensures Readable(rank) && Delivered() == 0
    {
      hide Chunks, Start;
      SizesPositive(rank);
    }

    // ------------------------------------------------------------------------
    // Parsing
    // ------------------------------------------------------------------------

    method SkipSize() returns (ok: bool)
      requires Streaming()
      modifies this`pos
      ensures Streaming() && (ok <==> AfterSize(Data(), old(pos)).Some?)
              && (ok ==> pos == AfterSize(Data(), old(pos)).value)
    {
      while true
        invariant Streaming() && AfterSize(Data(), pos) == AfterSize(Data(), old(pos))
        decreases |Data()| - pos
      {
        var b := ReadByte();
        if b == None {
          return false;
        }
        if b.value < 128 {
          return true;
        }
      }
    }

    /** The operands of a copy instruction. */
    method ReadCopy(flags: Byte) returns (c: Option<Chunk>)
      requires Streaming()
      modifies this`pos
      ensures Streaming() && old(pos) <= pos
      ensures match ReadOperands(flags, 7, Data(), old(pos))
              case None => c == None
              case Some(o) => c == Some(CopyChunk(o.values)) && pos == o.next
    {
      hide CopyChunk, ReadOperands, WithValues;
      var values, rest: nat := [], flags;
      NoValues(ReadOperands(flags, 7, Data(), pos));
      for i := 0 to 7
        invariant Streaming() && old(pos) <= pos && |values| == i
        invariant ReadOperands(flags, 7, Data(), old(pos)) == WithValues(values, ReadOperands(rest, 7 - i, Data(), pos))
      {
        AddValue(values, rest, 7 - i, Data(), pos);
        var value: Byte := 0;
        if rest % 2 == 1 {
          var b := ReadByte();
          if b == None {
            return None;
          }
          value := b.value;
        }
        values, rest := values + [value], rest / 2;
      }
      LastValue(values, rest, Data(), pos);
      return Some(CopyChunk(values));
    }

    /** All instructions of the delta. In a stream, the bytes they add are kept, since they cannot be read again. */
    method ReadInstructions() returns (r: Option<seq<Chunk>>, kept: seq<Option<seq<Byte>>>)
      requires Streaming()
      modifies this`pos
      ensures Streaming() && r == Chunks(Data(), old(pos))
      ensures r.Some? ==> pos == |Data()| && Unfilled(r.value, kept, Data(), file)
    {
      hide Unfilled, ReadOperands, CopyChunk;
      var cs := [];
      kept := [];
      NothingUnfilled(Data(), file);
      NoChunksBefore(Chunks(Data(), pos));
      while pos < |Data()|
        invariant Streaming() && old(pos) <= pos && Unfilled(cs, kept, Data(), file)
        invariant Chunks(Data(), old(pos)) == WithChunks(cs, Chunks(Data(), pos))
        decreases |Data()| - pos
      {
        ghost var at := pos;
        var instruction := ReadByte();
        var b := instruction.value;
        if b == 0 {
          continue;
        }
        var c, bytes := AddNew(pos, b), None;
        if b < 128 {
          if file {
            var ok := SkipStream(b);
            if !ok {
              return None, [];
            }
          } else {
            bytes := ReadFull(b);
            if bytes == None {
              return None, [];
            }
          }
        } else {
          var copy := ReadCopy(b);
          if copy == None {
            return None, [];
          }
          c := copy.value;
        }
        assert Chunks(Data(), at) == PrependChunk(c, Chunks(Data(), pos));
        AddChunk(cs, c, Chunks(Data(), pos));
        AddUnfilled(cs, kept, Data(), file, c, bytes);
        cs, kept := cs + [c], kept + [bytes];
      }
      assert cs + [] == cs;
      return Some(cs), kept;
    }

    // ------------------------------------------------------------------------
    // Opening a chain
    // ------------------------------------------------------------------------

    /** As opened: nothing has been read, or the stream has been read to its end. */
    ghost predicate Unread()
      reads this
    {
      Streaming() && if Entry().Plain? then pos == 0 && relPos == 0 else pos == 0 || pos == |Data()|
    }

    /** Parsed, with nothing copied from the base so far. */
    ghost predicate Initialised()
      reads this
    {
      Parsed() && Unfilled(chunks, chunkData, Data(), file) && chunkIndex == 0 && chunkPosition == 0
    }

    /** The base can be opened: through the store, or, unless this is a stream, in the same pack. */
    ghost predicate BaseOpens(rank: Place -> nat)
      requires Ranked(objects, rank) && Entry().Delta?
    {
      if Entry().byOid then Opens(objects, Entry().base, rank) else file
    }

    /** Where a delta is in its stream after it has been parsed. */
    function Rest(): nat { if file && |Data()| <= MAX_BUFFERED then 0 else |Data()| }

    /** An object of the store. A packed delta is made ready to be read. */
    static method ReadObject(objects: Objects, p: Place, ghost rank: Place -> nat) returns (r: PackObjectReader?)
      requires Ranked(objects, rank)
      ensures r != null <==> Opens(objects, p, rank)
      ensures r != null ==> fresh(r) && r.objects == objects && r.place == p && r.file && r.Unread()
      ensures r != null && r.Entry().Delta? ==> r.pos == r.Rest()
      decreases rank(p), 2
    {
      hide Content, NoHugeOidBase, PackObjectReader.Readable, Chain;
      r := new PackObjectReader(objects, p, true);
      var ok, s := r.InitDeltaAndCache(rank);
      if !ok {
        return null;
      }
    }

    /** Open the base of a delta. */
    method OpenBase(ghost rank: Place -> nat) returns (r: PackObjectReader?)
      requires Ranked(objects, rank) && Entry().Delta?
      ensures r != null <==> BaseOpens(rank)
      ensures r != null ==> fresh(r) && r.IsBaseOf(this) && r.Unread()
      ensures r != null && r.Entry().Delta? ==> (r.pos == 0 <==> !HugeOidBase(objects, place))
      decreases rank(place), 0, 0
    {
      hide Opens;
      if Entry().byOid {
        r := ReadObject(objects, Entry().base, rank);
      } else if file {
        r := new PackObjectReader(objects, Entry().base, true);
      } else {
        r := null;
      }
    }

    /** Open the base and parse the delta. A delta that has been read to its end already cannot be parsed again. */
    method InitDelta(ghost rank: Place -> nat) returns (ok: bool)
      requires Ranked(objects, rank) && Entry().Delta? && Unread()
      modifies this
      ensures Streaming()
      ensures ok <==> old(pos) == 0 && BaseOpens(rank) && exists cs :: IsParse(Data(), cs)
      ensures ok ==> Initialised() && fresh(base) && base.IsBaseOf(this) && base.Unread()
      ensures ok && base.Entry().Delta? ==> (base.pos == 0 <==> !HugeOidBase(objects, place))
      ensures ok ==> Unread() && (!old(mem) ==> pos == Rest()) && relPos == |Data()| && realPosition == |Data()|
      decreases rank(place), 0, 1
    {
      hide Unfilled, AfterSize, Chunks, PackObjectReader.BaseOpens;
      var r := OpenBase(rank);
      if r == null {
        return false;
      }
      ok := SkipSize();
      if ok {
        ok := SkipSize();
      }
      if !ok {
        return;
      }
      var cs, kept := ReadInstructions();
      if cs == None {
        return false;
      }
      assert IsParse(Data(), cs.value);
      ReadIntoMemoryMaybe();
      base, chunks, chunkData := r, cs.value, kept;
      chunkIndex, chunkPosition, realPosition, relPos := 0, 0, |Data()|, |Data()|;
    }

    /** A delta can be parsed from where its stream is, unless its base would have to be sought in a stream. */
    ghost predicate CanStart()
      reads this
    {
      Entry().Delta? ==> pos == 0 && (file || Entry().byOid)
    }

    /** Initialise a delta and all its bases without recursion, then fill in copies from the innermost delta outward.
        This fails exactly when a delta is malformed, a base is out of reach, or a base that is referred to by oid is
        itself a delta too large to be kept in memory. */
    method InitDeltaAndCache(ghost rank: Place -> nat) returns (ok: bool, ghost s: seq<PackObjectReader>)
      requires Ranked(objects, rank) && Unread()
      modifies this
      ensures Streaming()
      ensures ok <==> old(CanStart()) && Opens(objects, place, rank)
      ensures ok ==> Unread() && Readable(rank) && Delivered() == 0 && Chain(s) && s[0] == this
      ensures ok ==> forall r :: r in s ==> r == this || fresh(r)
      ensures ok && Entry().Delta? && !old(mem) ==> pos == Rest()
      decreases rank(place), 1
    {
      hide Content, NoHugeOidBase, PackObjectReader.Readable, Chain, Inits, LinkedUpTo;
      OpensWhen(objects, place, rank);
      var readers;
      ok, readers := InitChain(rank);
      if ok {
        assert this == readers[0] && this in readers;
        assert forall i :: 0 <= i < |readers| ==> readers[i] in readers;
        ok := CacheChain(readers, rank);
      }
      s := readers;
    }

    method InitChain(ghost rank: Place -> nat) returns (ok: bool, readers: seq<PackObjectReader>)
      requires Ranked(objects, rank) && Unread()
      modifies this
      ensures Streaming()
      ensures ok <==> old(CanStart()) && Inits(objects, place, rank)
      ensures ok ==> readers != [] && readers[0] == this && Distinct(readers) && LinkedUpTo(readers, |readers| - 1)
      ensures ok ==> readers[|readers| - 1].Entry().Plain? && readers[|readers| - 1].Unread()
      ensures ok ==> forall r :: r in readers ==> r == this || fresh(r)
      ensures ok ==> Unread() && (Entry().Delta? && !old(mem) ==> pos == Rest())
      decreases rank(place), 0, 2
    {
      hide Unfilled, IsParse, Inits, Content, PackObjectReader.Initialised, PackObjectReader.BaseOpens, Link;
      readers := [this];
      var last := this;
      while last.Entry().Delta?
        invariant readers != [] && readers[0] == this && readers[|readers| - 1] == last && last.objects == objects
        invariant Distinct(readers) && (forall r :: r in readers ==> r == this || fresh(r))
                  && (last == this || fresh(last))
        invariant LinkedUpTo(readers, |readers| - 1) && last.Unread() && Streaming() && Unread()
        invariant rank(last.place) <= rank(place)
        invariant if |readers| == 1 then pos == old(pos) && mem == old(mem)
                  else last.file && last != this && (!old(mem) ==> pos == Rest())
        invariant old(CanStart()) && Inits(objects, place, rank)
                  <==> last.CanStart() && Inits(objects, last.place, rank)
        decreases rank(last.place)
      {
        InitsStepwise(last, rank);
        ok := last.InitDelta(rank);
        if !ok {
          return;
        }
        LinkAdded(readers, last.base);
        last := last.base;
        readers := readers + [last];
      }
      InitsPlain(objects, last.place, rank);
      ok := true;
    }

    lemma InitsStepwise(r: PackObjectReader, rank: Place -> nat)
      requires Ranked(r.objects, rank) && r.Entry().Delta?
      ensures r.CanStart() && Inits(r.objects, r.place, rank) <==>
              && r.pos == 0 && r.BaseOpens(rank) && (exists cs :: IsParse(r.Data(), cs))
              && !HugeOidBase(r.objects, r.place) && Inits(r.objects, r.Entry().base, rank)
    {
      hide IsParse, Opens;
      assert r.Data() == r.objects(r.place).data;
      assert Inits(r.objects, r.place, rank) <==>
             && (exists cs :: IsParse(r.Data(), cs)) && (r.Entry().byOid ==> Opens(r.objects, r.Entry().base, rank))
             && !HugeOidBase(r.objects, r.place) && Inits(r.objects, r.Entry().base, rank);
    }

    lemma {:induction false} PartOfContent(rank: Place -> nat, n: nat)
      requires Ranked(objects, rank) && Entry().Delta? && Readable(rank) && chunkIndex < |chunks|
      requires chunkPosition + n <= chunks[chunkIndex].size
      ensures Delivered() + n <= |Whole(rank)|
      ensures ChunkBytes(chunks[chunkIndex], Data(),
              BaseContent(rank))[chunkPosition..chunkPosition + n] == Whole(rank)[Delivered()..Delivered() + n]
    {
      hide ChunkBytes, Fits, Before, Chunks, Start;
      ChunkInOutput(chunks, Data(), BaseContent(rank), chunkIndex);
      PartOfPart(Whole(rank), Before(chunks, chunkIndex), chunks[chunkIndex].size, chunkPosition, n);
    }
  }

  /** Fill in copies from the innermost delta outward. */
  method CacheChain(s: seq<PackObjectReader>, ghost rank: Place -> nat) returns (ok: bool)
    requires s != [] && Ranked(s[0].objects, rank) && Distinct(s) && LinkedUpTo(s, |s| - 1)
    requires s[|s| - 1].Entry().Plain? && s[|s| - 1].Unread()
    modifies s
    ensures s[0].pos == old(s[0].pos) && s[0].mem == old(s[0].mem) && s[0].Streaming()
    ensures ok <==> Content(s[0].objects, s[0].place, rank).Some?
    ensures ok ==> Chain(s) && s[0].Readable(rank) && s[0].Delivered() == 0
  {
    hide PackObjectReader.Readable, Content, LinkedUpTo, Chain, Distinct, PackObjectReader.Delivered;
    var i := |s| - 1;
    PlainChain(s, rank);
    assert s[0..] == s;
    while i > 0
      invariant 0 <= i < |s| && Cached(s, i, rank) && LinkedUpTo(s, i)
      invariant s[0].pos == old(s[0].pos) && s[0].mem == old(s[0].mem) && s[0].Streaming()
      decreases i
    {
      ok := CacheOne(s, i, rank);
      if !ok {
        return;
      }
      i := i - 1;
    }
    HasContent(s[0], rank);
    ok := true;
  }

  /** The readers from i on are a chain, the first of which can be read. */
  ghost predicate Cached(s: seq<PackObjectReader>, i: nat, rank: Place -> nat)
    requires i < |s|
    reads s
  {
    && s[i].objects == s[0].objects && Ranked(s[i].objects, rank)
    && Chain(s[i..]) && s[i].Readable(rank) && s[i].Delivered() == 0
  }

  method CacheOne(s: seq<PackObjectReader>, i: nat, ghost rank: Place -> nat) returns (ok: bool)
    requires 0 < i < |s| && Distinct(s) && LinkedUpTo(s, i) && Cached(s, i, rank)
    modifies s
    ensures s[0].pos == old(s[0].pos) && s[0].mem == old(s[0].mem) && s[0].Streaming()
    ensures if ok then Cached(s, i - 1, rank) && LinkedUpTo(s, i - 1)
            else Ranked(s[0].objects, rank) && Content(s[0].objects, s[0].place, rank).None?
  {
    hide PackObjectReader.Readable, Content, PackObjectReader.Delivered, Chain, AllFit, PackObjectReader.Parsed,
        Unfilled;
    ghost var t := s[i - 1..];
    ChainGrows(s, i, rank);
    FirstStreaming(s, i);
    ok := s[i - 1].InitCache(t, rank);
    if !ok {
      NoFitNoContent(s[i - 1], s[i], rank);
      NoContentUp(s, i - 1, rank);
    }
  }

  lemma FirstStreaming(s: seq<PackObjectReader>, i: nat)
    requires 0 < i < |s| && LinkedUpTo(s, i)
    ensures s[0].Streaming()
  {
    assert Link(s, 0);
  }

  lemma PlainChain(s: seq<PackObjectReader>, rank: Place -> nat)
    requires s != [] && Ranked(s[0].objects, rank) && LinkedUpTo(s, |s| - 1)
    requires s[|s| - 1].Entry().Plain? && s[|s| - 1].Unread()
    ensures Cached(s, |s| - 1, rank) && s[0].Streaming()
  {
    var last := |s| - 1;
    if last > 0 {
      assert Link(s, last - 1) && Link(s, 0);
    }
  }

  /** The reader before a chain can be put in front of it. */
  lemma ChainGrows(s: seq<PackObjectReader>, i: nat, rank: Place -> nat)
    requires 0 < i < |s| && Distinct(s) && LinkedUpTo(s, i) && Cached(s, i, rank)
    ensures var t := s[i - 1..];
            t[0] == s[i - 1] && t[1] == s[i] && t[1..] == s[i..] && Chain(t) && s[i].IsBaseOf(s[i - 1])
    ensures s[i - 1].objects == s[0].objects && s[i - 1].Initialised()
  {
    assert Link(s, i - 1) && s[i - 1..][1..] == s[i..];
  }

  lemma HasContent(r: PackObjectReader, rank: Place -> nat)
    requires Ranked(r.objects, rank) && r.Readable(rank)
    ensures Content(r.objects, r.place, rank).Some?
  {
  }

  /** A delta that does not fit its base has no content. */
  lemma NoFitNoContent(r: PackObjectReader, b: PackObjectReader, rank: Place -> nat)
    requires Ranked(r.objects, rank) && IsParse(r.Data(), r.chunks) && b.IsBaseOf(r)
             && !AllFit(r.chunks, r.Data(), b.Whole(rank))
    ensures Content(r.objects, r.place, rank).None?
  {
    hide AllFit, Chunks, Start;
  }

  /** Nothing that is built on an object without content has content. */
  lemma {:induction false} NoContentUp(s: seq<PackObjectReader>, i: nat, rank: Place -> nat)
    requires i < |s| && LinkedUpTo(s, i) && Ranked(s[0].objects, rank)
    requires s[i].objects == s[0].objects && Content(s[0].objects, s[i].place, rank).None?
    ensures Content(s[0].objects, s[0].place, rank).None?
  {
    hide Patch;
    if i > 0 {
      assert Link(s, i - 1);
      NoContentUp(s, i - 1, rank);
    }
  }

  /** What has been parsed and kept is as before. */
  twostate predicate SameData(s: seq<PackObjectReader>)
    reads s
  {
    forall r :: r in s ==>
      r.chunks == old(r.chunks) && r.chunkData == old(r.chunkData) && r.base == old(r.base)
      && r.mem == old(r.mem)
  }

  // --------------------------------------------------------------------------
  // Main results
  // --------------------------------------------------------------------------

  function Sum(sizes: seq<nat>): nat
  {
    if sizes == [] then 0 else Sum(sizes[..|sizes| - 1]) + sizes[|sizes| - 1]
  }

  /** What has been read of an object: in pieces, and then to the end. */
  datatype Reading = Reading(pieces: seq<Byte>, rest: seq<Byte>)

  /** Read an object in pieces of the given sizes and then to the end, go back to the start, and read it again in
      other pieces. Both times it is the whole object that has been read. */
  method ReadTwice(objects: Objects, p: Place, file: bool, sizes: seq<nat>, again: seq<nat>, bufferSize: nat,
                   ghost rank: Place -> nat)
    returns (a: Option<Reading>, b: Option<Reading>)
    requires Ranked(objects, rank) && bufferSize > 0
    ensures a.Some? <==> Opens(objects, p, rank) && (objects(p).Delta? ==> file || objects(p).byOid)
    ensures b.Some? <==> a.Some? && file
    ensures a.Some? ==> StartsWith(objects, p, rank, a.value.pieces, Sum(sizes))
    ensures a.Some? ==> Content(objects, p, rank) == Some(a.value.pieces + a.value.rest)
    ensures b.Some? ==> StartsWith(objects, p, rank, b.value.pieces, Sum(again))
    ensures b.Some? ==> Content(objects, p, rank) == Some(b.value.pieces + b.value.rest)
  {
    hide Content, PackObjectReader.Readable, PackObjectReader.Delivered, Opens, StartsWith;
    var r := new PackObjectReader(objects, p, file);
    a, b := None, None;
    var ok, s := r.InitDeltaAndCache(rank);
    if !ok {
      return;
    }
    assert |s| > 1 ==> Chain(s[1..]);
    var pieces := ReadPieces(r, sizes, rank);
    var rest := ReadToEnd(r, bufferSize, pieces, rank);
    a := Some(Reading(pieces, rest));
    assert Chain(s) && forall i :: 0 <= i < |s| ==> s[i] in s;
    ok := r.Reset(s, rank);
    if ok {
      pieces := ReadPieces(r, again, rank);
      rest := ReadToEnd(r, bufferSize, pieces, rank);
      b := Some(Reading(pieces, rest));
    }
  }

  /** Read until the end of file. */
  method ReadToEnd(r: PackObjectReader, bufferSize: nat, ghost before: seq<Byte>, ghost rank: Place -> nat)
    returns (bytes: seq<Byte>)
    requires Ranked(r.objects, rank) && r.Readable(rank) && bufferSize > 0
    requires r.Delivered() == |before| && before <= r.Whole(rank)
    modifies r`pos, r`relPos, r`chunkIndex, r`chunkPosition, r`realPosition
    ensures r.Readable(rank) && r.Streaming() && Content(r.objects, r.place, rank) == Some(before + bytes)
  {
    hide Content, PackObjectReader.Readable, PackObjectReader.Delivered;
    HasContent(r, rank);
    r.DeliveredInContent(rank);
    ghost var whole := r.Whole(rank);
    bytes := [];
    var eof := false;
    while !eof
      invariant r.Readable(rank) && r.Streaming() && r.Delivered() == |before + bytes| <= |whole|
      invariant before + bytes == whole[..|before + bytes|]
      invariant eof ==> |before + bytes| == |whole|
      decreases |whole| - |bytes|, !eof
    {
      var piece;
      piece, eof := r.Read(bufferSize, rank);
      assert before + (bytes + piece) == before + bytes + piece;
      LongerPrefix(whole, |before + bytes|, |before + bytes| + |piece|);
      bytes := bytes + piece;
    }
    assert whole[..|whole|] == whole;
  }

  /** The bytes are the first ones of the object; of a delta, as many as asked for. Of a plain object, decompression
      may give fewer at a time. */
  ghost predicate StartsWith(objects: Objects, p: Place, rank: Place -> nat, bytes: seq<Byte>, asked: nat)
    requires Ranked(objects, rank)
  {
    match Content(objects, p, rank)
    case None => false
    case Some(content) => bytes <= content && (objects(p).Delta? ==> |bytes| == Min(asked, |content|))
  }

  lemma LongerPrefix(s: seq<Byte>, n: nat, m: nat)
    requires n <= m <= |s|
    ensures s[..n] + s[n..m] == s[..m]
  {
  }

  method ReadPieces(r: PackObjectReader, sizes: seq<nat>, ghost rank: Place -> nat) returns (bytes: seq<Byte>)
    requires Ranked(r.objects, rank) && r.Readable(rank) && r.Delivered() == 0
    modifies r`pos, r`relPos, r`chunkIndex, r`chunkPosition, r`realPosition
    ensures r.Readable(rank) && r.Streaming() && StartsWith(r.objects, r.place, rank, bytes, Sum(sizes))
    ensures r.Delivered() == |bytes| && bytes <= r.Whole(rank)
  {
    hide Content, PackObjectReader.Readable, PackObjectReader.Delivered;
    HasContent(r, rank);
    r.DeliveredInContent(rank);
    ghost var whole := r.Whole(rank);
    bytes := [];
    for i := 0 to |sizes|
      invariant r.Readable(rank) && r.Streaming() && r.Delivered() == |bytes| <= |whole| && bytes == whole[..|bytes|]
      invariant r.Entry().Delta? ==> |bytes| == Min(Sum(sizes[..i]), |whole|)
    {
      assert sizes[..i + 1][..i] == sizes[..i];
      var piece, _ := r.Read(sizes[i], rank);
      LongerPrefix(whole, |bytes|, |bytes| + |piece|);
      bytes := bytes + piece;
    }
    assert sizes[..|sizes|] == sizes;
  }

  /** An object that is written as instructions for a base is what the instructions make of the base. */
  lemma ContentOfInstructions(objects: Objects, p: Place, rank: Place -> nat, oldSize: nat, newSize: nat,
      instructions: seq<Instruction>)
    requires Ranked(objects, rank) && forall i :: i in instructions ==> Encodable(i)
    requires objects(p).Delta? && objects(p).data == EncodeSize(oldSize) + EncodeSize(newSize) + EncodeAll(instructions)
    ensures Content(objects, p, rank) ==
            match Content(objects, objects(p).base, rank)
            case None => None
            case Some(base) => Apply(instructions, base)
  {
    hide Patch;
    var base := Content(objects, objects(p).base, rank);
    if base.Some? {
      DeltaRoundTrip(oldSize, newSize, instructions, base.value);
    }
  }

  lemma {:induction false} NoInstructions(n: nat, pos: nat)
    requires pos <= n
    ensures Chunks(Zeros(n), pos) == Some([])
    decreases n - pos
  {
    if pos < n {
      NoInstructions(n, pos + 1);
    }
  }

  /** An empty object, a delta of n bytes that makes it of itself, and a delta that refers to that one by oid. */
  function OidBaseOf(n: nat): Objects
  {
    (p: Place) => if p == 2 then Delta(1, true, Zeros(2)) else if p == 1 then Delta(0, false, Zeros(n)) else Plain([])
  }

  /** A stored object that cannot be read: its base, referred to by oid, is a delta of more than 50 million bytes.
      A byte less, and it can. */
  lemma HugeOidBaseCannotBeRead(n: nat)
    requires n >= 2
    ensures var objects, rank := OidBaseOf(n), (p: Place) => p;
            && Ranked(objects, rank) && Content(objects, 2, rank) == Some([])
            && (Opens(objects, 2, rank) <==> n <= 50_000_000)
  {
    var objects, rank := OidBaseOf(n), (p: Place) => p;
    assert Ranked(objects, rank);
    ZerosPatch(n);
    ZerosPatch(2);
    assert Content(objects, 0, rank) == Some([]);
    assert Content(objects, 1, rank) == Patch(Zeros(n), []);
    assert Content(objects, 2, rank) == Patch(Zeros(2), []);
    assert NoHugeOidBase(objects, 0, rank);
    assert NoHugeOidBase(objects, 1, rank);
    assert HugeOidBase(objects, 2) <==> n > MAX_BUFFERED;
  }

  lemma ZerosPatch(n: nat)
    requires n >= 2
    ensures Patch(Zeros(n), []) == Some([])
  {
    NoInstructions(n, 2);
  }

  lemma KeptHere(chunks: seq<Chunk>, kept: seq<Option<seq<Byte>>>, data: seq<Byte>, base: seq<Byte>, file: bool, i: nat)
    requires AllKept(chunks, kept, data, base, file) && i < |chunks|
    ensures |kept| == |chunks| && Fits(chunks[i], data, base) && Kept(chunks[i], kept[i], data, base, file)
    ensures chunks[i].AddNew? ==> chunks[i].offset + chunks[i].size <= |data|
    ensures forall j :: 0 <= j < |chunks| ==> chunks[j].size > 0
  {
  }

  lemma PartOfPart(s: seq<Byte>, from: nat, size: nat, p: nat, n: nat)
    requires from + size <= |s| && p + n <= size
    ensures s[from..from + size][p..p + n] == s[from + p..from + p + n]
  {
    var a, part := s[from..from + size], s[from + p..from + p + n];
    var partOfA := a[p..p + n];
    forall i | 0 <= i < n
      ensures partOfA[i] == part[i]
    {
      assert partOfA[i] == a[p + i] == s[from + p + i];
    }
  }

  lemma AddedBytes(c: Chunk, data: seq<Byte>, base: seq<Byte>, p: nat, n: nat)
    requires c.AddNew? && Fits(c, data, base) && p + n <= c.size
    ensures ChunkBytes(c, data, base)[p..p + n] == data[c.offset + p..c.offset + p + n]
  {
  }

  lemma BeforeNext(chunks: seq<Chunk>, i: nat)
    requires i < |chunks|
    ensures Before(chunks, i + 1) == Before(chunks, i) + chunks[i].size
  {
  }
}
