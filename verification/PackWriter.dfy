/** PackWriter of pack.go: a pack put out in pieces of any size. */
module PackWriting {
  import opened Common
  import opened Bytes
  import opened PackFormat

  datatype Mode = HeaderMode | ObjectMode | FooterMode | DoneMode

  /** How much is left to do, compared from left to right. */
  datatype Work = Work(objects: nat, mode: nat, content: nat, open: nat, pending: nat)

  predicate Less(a: Work, b: Work)
  {
    || a.objects < b.objects
    || (a.objects == b.objects && (a.mode < b.mode
    || (a.mode == b.mode && (a.content < b.content
    || (a.content == b.content && (a.open < b.open || (a.open == b.open && a.pending < b.pending)))))))
  }

  /** The state of a writer. */
  datatype State = State(codec: Codec, hash: seq<Byte> -> seq<Byte>, objects: seq<PackObject>,
                         mode: Mode, objIndex: nat, pending: seq<Byte>, hashed: seq<Byte>,
                         readerDone: bool, readPos: nat, writes: seq<seq<Byte>>,
                         finished: seq<seq<seq<Byte>>>, out: seq<Byte>)
  {
    /** Everything that comes before the current object. */
    function Before(): seq<Byte>
      requires |finished| <= |objects|
    {
      FileHeader(|objects|) + Body(codec, objects, finished)
    }

    function Header(): seq<Byte>
      requires objIndex < |objects|
    {
      ObjectHeader(objects[objIndex].kind, |objects[objIndex].content|)
    }

    /** What has been put out, together with what is pending, is what the state says. */
    ghost predicate Valid()
    {
      && Works(codec) && Covers(objects, finished) && |finished| == objIndex
      && match mode
         case HeaderMode =>
           objIndex < |objects| && out + pending == Before() + Header() && hashed == out && pending != []
               && readPos == 0
         case ObjectMode =>
           && objIndex < |objects| && hashed == out
           && readPos <= |objects[objIndex].content| && Flatten(writes) == objects[objIndex].content[..readPos]
           && (readerDone ==> readPos == |objects[objIndex].content|)
           && out + pending == Before() + Header()
                               + (if readerDone then codec.closed(writes) else codec.emitted(writes))
         case FooterMode => objIndex == |objects| && out + pending == Before() + hash(Before())
         case DoneMode => objIndex == |objects| && pending == [] && out == Before() + hash(Before())
    }

    function Left(): Work
    {
      Work(if objIndex <= |objects| then |objects| - objIndex else 0,
           match mode case HeaderMode => 3 case ObjectMode => 2 case FooterMode => 1 case DoneMode => 0,
           if objIndex < |objects| && readPos <= |objects[objIndex].content| then |objects[objIndex].content| - readPos
               else 0,
           if readerDone then 0 else 1,
           |pending|)
    }
  }

  /** Bytes move from the pending ones to the output. */
  lemma OutputMoves(out: seq<Byte>, pending: seq<Byte>, n: nat)
    requires n <= |pending|
    ensures out + pending[..n] + pending[n..] == out + pending
  {
    assert pending[..n] + pending[n..] == pending;
  }

  lemma CompressorGrows(s: State)
    requires s.Valid() && s.mode == ObjectMode
    ensures s.objIndex < |s.objects| && |s.finished| == s.objIndex && s.readPos <= |s.objects[s.objIndex].content|
    ensures |s.codec.emitted(s.writes)| <= |s.codec.closed(s.writes)|
    ensures forall w :: |s.codec.emitted(s.writes)| <= |s.codec.emitted(s.writes + [w])|
  {
    forall w
      ensures s.codec.emitted(s.writes) <= s.codec.emitted(s.writes + [w])
    {
    }
  }

  lemma Compressed(s: State, t: State, w: seq<Byte>)
    requires s.Valid() && s.mode == ObjectMode && s.pending == [] && !s.readerDone
    requires s.objIndex < |s.objects| && w != [] && s.readPos + |w| <= |s.objects[s.objIndex].content|
    requires w == s.objects[s.objIndex].content[s.readPos..s.readPos + |w|]
    requires |s.codec.emitted(s.writes)| <= |s.codec.emitted(s.writes + [w])|
    requires t == s.(pending := s.codec.emitted(s.writes + [w])[|s.codec.emitted(s.writes)|..],
             writes := s.writes + [w], readPos := s.readPos + |w|)
    ensures t.Valid() && Less(t.Left(), s.Left())
  {
    hide Covers, Body, ObjectHeader, FileHeader;
    var content, before := s.objects[s.objIndex].content, s.Before() + s.Header();
    var earlier, later := s.codec.emitted(s.writes), s.codec.emitted(s.writes + [w]);
    assert content[..t.readPos] == content[..s.readPos] + w;
    assert t.writes[..|t.writes| - 1] == s.writes;
    assert earlier <= later && earlier + later[|earlier|..] == later;
    assert s.out == before + earlier by { assert s.out + [] == s.out; }
    assert before + earlier + later[|earlier|..] == before + later;
  }

  lemma Closed(s: State, t: State)
    requires s.Valid() && s.mode == ObjectMode && s.pending == [] && !s.readerDone
    requires s.objIndex < |s.objects| && s.readPos == |s.objects[s.objIndex].content|
    requires |s.codec.emitted(s.writes)| <= |s.codec.closed(s.writes)|
    requires t == s.(pending := s.codec.closed(s.writes)[|s.codec.emitted(s.writes)|..], readerDone := true)
    ensures t.Valid() && Less(t.Left(), s.Left())
  {
    hide Covers, Body, ObjectHeader, FileHeader;
    var before := s.Before() + s.Header();
    var earlier, later := s.codec.emitted(s.writes), s.codec.closed(s.writes);
    assert earlier <= later && earlier + later[|earlier|..] == later;
    assert s.out == before + earlier by { assert s.out + [] == s.out; }
    assert before + earlier + later[|earlier|..] == before + later;
  }

  lemma Finished(s: State, t: State)
    requires s.Valid() && s.mode == ObjectMode && s.pending == [] && s.readerDone && s.objIndex < |s.objects|
    requires t == s.(pending := t.pending, objIndex := s.objIndex + 1, mode := t.mode, readPos := t.readPos,
             finished := s.finished + [s.writes])
    requires if t.objIndex < |s.objects|
             then t.mode == HeaderMode && t.readPos == 0
                 && t.pending == ObjectHeader(s.objects[t.objIndex].kind, |s.objects[t.objIndex].content|)
             else t.mode == FooterMode && t.pending == s.hash(s.hashed)
    ensures t.Valid() && Less(t.Left(), s.Left())
  {
    hide ObjectHeader, FileHeader;
    var content := s.objects[s.objIndex].content;
    assert content[..s.readPos] == content;
    assert t.finished[..|s.finished|] == s.finished;
    assert s.out + [] == s.out;
    assert t.Before() == s.Before() + Packed(s.codec, s.objects[s.objIndex], s.writes);
    assert s.Before() + Packed(s.codec, s.objects[s.objIndex], s.writes)
           == s.Before() + s.Header() + s.codec.closed(s.writes);
  }

  class PackWriter {
    const codec: Codec
    const hash: seq<Byte> -> seq<Byte>
    const objects: seq<PackObject>
    const bufferSize: nat
    var mode: Mode
    var objIndex: nat
    var buf: seq<Byte>
    var bufIdx: nat
    var hashed: seq<Byte>
    var readerDone: bool
    var readPos: nat                  // of the reader of the current object
    var writes: seq<seq<Byte>>        // to the compressor of the current object
    ghost var finished: seq<seq<seq<Byte>>>
    ghost var out: seq<Byte>

    ghost function Now(): State
      requires bufIdx <= |buf|
      reads this
    {
      State(codec, hash, objects, mode, objIndex, buf[bufIdx..], hashed, readerDone, readPos, writes, finished, out)
    }

    ghost predicate Valid()
      reads this
    {
      bufIdx <= |buf| && bufferSize > 0 && Now().Valid()
    }

    /** A pack of no objects is not written. */
    constructor (codec: Codec, hash: seq<Byte> -> seq<Byte>, objects: seq<PackObject>, bufferSize: nat)
      requires Works(codec) && objects != [] && bufferSize > 0
      ensures Valid() && out == [] && this.codec == codec && this.hash == hash && this.objects == objects
    {
      this.codec, this.hash, this.objects, this.bufferSize := codec, hash, objects, bufferSize;
      mode, objIndex, bufIdx, hashed := HeaderMode, 0, 0, [];
      readerDone, readPos, writes, finished, out := false, 0, [], [], [];
      buf := FileHeader(|objects|);
      new;
      WriteObjectHeader();
      assert buf[0..] == buf;
    }

    method WriteObjectHeader()
      requires objIndex < |objects|
      modifies this`buf
      ensures buf == old(buf) + ObjectHeader(objects[objIndex].kind, |objects[objIndex].content|)
    {
      var o := objects[objIndex];
      var rem := |o.content| / 16;
      var first: Byte := (if rem > 0 then 128 else 0) + KindNumber(o.kind) * 16 + |o.content| % 16;
      buf := buf + [first];
      while rem > 0
        invariant rem >= 0 && buf + SizeTail(rem) == old(buf) + ObjectHeader(o.kind, |o.content|)
        decreases rem
      {
        var value: Byte := rem % 128;
        rem := rem / 128;
        if rem > 0 {
          value := value + 128;
        }
        buf := buf + [value];
      }
    }

    /** Put out pending bytes. */
    method CopyPending(k: nat) returns (b: seq<Byte>)
      requires bufIdx <= |buf|
      modifies this`bufIdx, this`out
      ensures bufIdx == old(bufIdx) + |b| <= |buf| && |b| == Min(k, |buf| - old(bufIdx))
      ensures out == old(out) + b && out + buf[bufIdx..] == old(out + buf[bufIdx..])
    {
      var n := Min(k, |buf| - bufIdx);
      b := buf[bufIdx..bufIdx + n];
      OutputMoves(out, buf[bufIdx..], n);
      assert buf[bufIdx..][..n] == b && buf[bufIdx..][n..] == buf[bufIdx + n..];
      bufIdx, out := bufIdx + n, out + b;
    }

    /** The next bytes of the object being written: at least one, unless all have been read. */
    method ReadContent() returns (b: seq<Byte>)
      requires objIndex < |objects| && readPos <= |objects[objIndex].content| && bufferSize > 0
      modifies this`readPos
      ensures readPos == old(readPos) + |b| <= |objects[objIndex].content|
              && b == objects[objIndex].content[old(readPos)..readPos]
      ensures |b| == 0 ==> readPos == |objects[objIndex].content|
    {
      var most := Min(bufferSize, |objects[objIndex].content| - readPos);
      var n :| 0 <= n <= most && (most > 0 ==> n > 0);
      b := objects[objIndex].content[readPos..readPos + n];
      readPos := readPos + n;
    }

    /** Up to k bytes, or a change of state that puts out nothing. */
    method ReadStep(k: nat) returns (b: seq<Byte>)
      requires Valid() && k > 0 && mode != DoneMode
      modifies this
      ensures Valid() && |b| <= k && out == old(out) + b && Less(Now().Left(), old(Now().Left()))
    {
      match mode {
        case HeaderMode => b := StepHeader(k);
        case ObjectMode => b := StepObject(k);
        case FooterMode => b := StepFooter(k);
      }
    }

    method StepHeader(k: nat) returns (b: seq<Byte>)
      requires Valid() && k > 0 && mode == HeaderMode
      modifies this
      ensures Valid() && |b| <= k && out == old(out) + b && Less(Now().Left(), old(Now().Left()))
    {
      hide Covers, Body, ObjectHeader, FileHeader;
      b := CopyPending(k);
      hashed := hashed + b;
      if bufIdx >= |buf| {
        buf, bufIdx := [], 0;
        writes, readerDone, readPos := [], false, 0;
        mode := ObjectMode;
        assert out + [] == out;
        assert Now().Before() + Now().Header() + [] == Now().Before() + Now().Header();
      }
    }

    method StepObject(k: nat) returns (b: seq<Byte>)
      requires Valid() && k > 0 && mode == ObjectMode
      modifies this
      ensures Valid() && |b| <= k && out == old(out) + b && Less(Now().Left(), old(Now().Left()))
    {
      hide Covers, Body, ObjectHeader, FileHeader, Works;
      if bufIdx < |buf| {
        b := CopyPending(k);
        hashed := hashed + b;
        return;
      }
      b := [];
      if !readerDone {
        var some := Compress();
        if some {
          return;
        }
      }
      FinishObject();
      assert out + [] == out;
    }

    /** Compress more of the object, or close the compressor; say whether there is something to put out, or there may
        be more to compress. */
    method Compress() returns (some: bool)
      requires Valid() && mode == ObjectMode && bufIdx == |buf| && !readerDone
      modifies this`buf, this`bufIdx, this`readPos, this`writes, this`readerDone
      ensures Valid() && Less(Now().Left(), old(Now().Left()))
      ensures !some ==> readerDone && bufIdx == |buf|
    {
      hide State.Valid;
      ghost var before := Now();
      CompressorGrows(before);
      var read := ReadContent();
      if |read| > 0 {
        buf, bufIdx := codec.emitted(writes + [read])[|codec.emitted(writes)|..], 0;
        writes := writes + [read];
        Compressed(before, Now(), read);
        return true;
      }
      readerDone := true;
      buf, bufIdx := codec.closed(writes)[|codec.emitted(writes)|..], 0;
      Closed(before, Now());
      return |buf| > 0;
    }

    /** Go on to the next object, or to the hash after the last one. */
    method FinishObject()
      requires Valid() && mode == ObjectMode && bufIdx == |buf| && readerDone
      modifies this`buf, this`bufIdx, this`objIndex, this`mode, this`readPos, this`finished
      ensures Valid() && Less(Now().Left(), old(Now().Left()))
    {
      hide State.Valid, ObjectHeader, FileHeader, Body;
      ghost var before := Now();
      CompressorGrows(before);
      buf, bufIdx := [], 0;
      finished := finished + [writes];
      objIndex := objIndex + 1;
      if objIndex < |objects| {
        mode, readPos := HeaderMode, 0;
        WriteObjectHeader();
      } else {
        mode := FooterMode;
        buf := buf + hash(hashed);
      }
      Finished(before, Now());
    }

    method StepFooter(k: nat) returns (b: seq<Byte>)
      requires Valid() && k > 0 && mode == FooterMode
      modifies this
      ensures Valid() && |b| <= k && out == old(out) + b && Less(Now().Left(), old(Now().Left()))
    {
      hide Covers, Body, ObjectHeader, FileHeader;
      b := CopyPending(k);
      if bufIdx >= |buf| {
        buf, bufIdx := [], 0;
        mode := DoneMode;
        assert out + [] == out;
      }
    }

    /** Up to k bytes; fewer than k only at the end of the pack. */
    method Read(k: nat) returns (b: seq<Byte>)
      requires Valid()
      modifies this
      ensures Valid() && |b| <= k && out == old(out) + b
      ensures |b| < k ==> mode == DoneMode
      ensures k > 0 && old(mode) != DoneMode ==> Less(Now().Left(), old(Now().Left()))
    {
      hide State.Valid, State.Left, Less;
      b := [];
      ghost var start := Now().Left();
      while |b| < k && mode != DoneMode
        invariant Valid() && |b| <= k && out == old(out) + b
        invariant Less(Now().Left(), start) || (b == [] && Now().Left() == start && mode == old(mode))
        decreases Now().Left().objects, Now().Left().mode, Now().Left().content, Now().Left().open, Now().Left().pending
      {
        ghost var before := Now().Left();
        var more := ReadStep(k - |b|);
        LessTransitive(Now().Left(), before, start);
        b := b + more;
      }
    }

    lemma PackIsWritten()
      requires Valid() && mode == DoneMode
      ensures IsPack(codec, hash, objects, finished, out)
    {
    }
  }

  lemma LessTransitive(a: Work, b: Work, c: Work)
    requires Less(a, b)
    ensures a.objects < b.objects || (a.objects == b.objects && a.mode < b.mode)
            || (a.objects == b.objects && a.mode == b.mode && a.content <= b.content)
    ensures a.objects == b.objects && a.mode == b.mode && a.content == b.content
            ==> a.open < b.open || (a.open == b.open && a.pending < b.pending)
    ensures Less(b, c) || b == c ==> Less(a, c)
  {
  }

  /** Buffers of any sizes give a pack of the objects. */
  method WritePack(codec: Codec, hash: seq<Byte> -> seq<Byte>, objects: seq<PackObject>, bufferSize: nat,
      size: nat -> nat)
      returns (file: seq<Byte>)
    requires Works(codec) && objects != [] && bufferSize > 0 && forall i :: size(i) > 0
    ensures exists writes :: IsPack(codec, hash, objects, writes, file)
  {
    hide State.Valid, State.Left, Less, Works, IsPack;
    var writer := new PackWriter(codec, hash, objects, bufferSize);
    file := [];
    var i := 0;
    while writer.mode != DoneMode
      invariant writer.Valid() && writer.out == file && i >= 0
      invariant writer.codec == codec && writer.hash == hash && writer.objects == objects
      decreases writer.Now().Left().objects, writer.Now().Left().mode, writer.Now().Left().content,
                writer.Now().Left().open, writer.Now().Left().pending
    {
      ghost var before := writer.Now().Left();
      var b := writer.Read(size(i));
      LessTransitive(writer.Now().Left(), before, before);
      file := file + b;
      i := i + 1;
    }
    writer.PackIsWritten();
  }
}
