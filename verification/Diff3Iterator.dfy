/** The chunk iterator of diff.go and the stream of merge.go that resolves its chunks into text. The iterator hands
    out exactly the pieces of Diff3, also after a reset; when the stream delivers the text of LineMerge is stated. */
module Diff3Iteration {
  import opened Common
  import opened EditGraph
  import opened Ranges
  import opened MyersDiff
  import opened Diff3
  import opened LineMerge
  import opened LineText

  datatype LineRange = LineRange(begin: nat, end: nat)

  datatype Chunk =
    | CleanChunk(oRange: LineRange)
    | ConflictChunk(o: Option<LineRange>, a: Option<LineRange>, b: Option<LineRange>)

  function NewRange(begin: nat, end: nat): Option<LineRange>
  {
    if end > begin then Some(LineRange(begin, end)) else None
  }

  /** No chunk at all for a match without base lines. */
  function NewChunk(o: Option<LineRange>, a: Option<LineRange>, b: Option<LineRange>, clean: bool): Option<Chunk>
  {
    if clean then (match o case None => None case Some(r) => Some(CleanChunk(r)))
    else Some(ConflictChunk(o, a, b))
  }

  function ChunkOf(c: Piece): Option<Chunk>
  {
    NewChunk(NewRange(c.from.o, c.to.o), NewRange(c.from.a, c.to.a), NewRange(c.from.b, c.to.b), c.clean)
  }

  class Diff3Iterator {
    const lineCountO: nat
    const lineCountA: nat
    const lineCountB: nat
    var lineO: nat
    var lineA: nat
    var lineB: nat
    const iterA: MyersDiffIterator
    const iterB: MyersDiffIterator
    var finished: bool

    ghost function Files(): Trio
      reads this
    {
      MyersTrio(iterA.linesA, iterA.linesB, iterB.linesB)
    }

    ghost function Here(): Place
      reads this
    {
      Place(lineO, lineA, lineB)
    }

    ghost predicate Valid()
      reads this, iterA, iterB
    {
      && iterA != iterB && iterA.b != iterB.b
      && iterA.Valid() && iterB.Valid() && iterA.linesA == iterB.linesA
      && lineCountO == |iterA.linesA| && lineCountA == |iterA.linesB| && lineCountB == |iterB.linesB|
      && Aligned(Files())
      && (!finished ==> Settled(Files(), Here()))
    }

    /** The pieces still to come. */
    ghost function Rest(): seq<Piece>
      requires Valid()
      reads this, iterA, iterB
    {
      if finished then [] else Pieces(Files(), Here())
    }

    constructor (o: seq<Line>, a: seq<Line>, b: seq<Line>)
      ensures Valid() && fresh(iterA) && fresh(iterB) && fresh(iterA.b) && fresh(iterB.b)
      ensures Files() == MyersTrio(o, a, b)
      ensures Rest() == AllPieces(Files())
    {
      hide MyersScript, Pieces;
      var ia := new MyersDiffIterator(o, a);
      var ib := new MyersDiffIterator(o, b);
      iterA, iterB := ia, ib;
      lineCountO, lineCountA, lineCountB := |o|, |a|, |b|;
      lineO, lineA, lineB, finished := 0, 0, 0, false;
      new;
      MyersTrioAligned(o, a, b);
    }

    method InBounds(i: nat) returns (r: bool)
      requires Valid()
      ensures r == LinesLeft(Files(), Here(), i)
    {
      return lineO + i < lineCountO || lineA + i < lineCountA || lineB + i < lineCountB;
    }

    method IsMatch(iter: MyersDiffIterator, offset: nat, i: nat) returns (r: bool)
      requires iter.Valid()
      modifies iter, iter.b
      ensures iter.Valid()
      ensures r == (Lookup(iter.Script(), lineO + i) == Some(offset + i))
    {
      hide MyersScript, MyersDiffIterator.Valid, Lookup;
      var result := iter.Get(lineO + i);
      return result == Some(offset + i);
    }

    /** How many lines match from here in all three files. */
    method MatchingRun() returns (i: nat)
      requires Valid() && !finished
      modifies iterA, iterA.b, iterB, iterB.b
      ensures Valid() && i == RunLength(Files(), Here(), 0)
    {
      hide MyersScript, Aligned, Settled, MyersDiffIterator.Valid, Lookup;
      i := 0;
      while true
        invariant Valid()
        invariant RunLength(Files(), Here(), 0) == RunLength(Files(), Here(), i)
        decreases lineCountO - lineO - i
      {
        var more := InBounds(i);
        if !more {
          break;
        }
        var matchA := IsMatch(iterA, lineA, i);
        var matchB := IsMatch(iterB, lineB, i);
        if !matchA || !matchB {
          break;
        }
        MatchInside(Files(), Here(), i);
        i := i + 1;
      }
    }

    /** The next base line that both other files share. */
    method FindShared() returns (o: nat)
      requires Valid() && !finished
      modifies iterA, iterA.b, iterB, iterB.b
      ensures Valid() && lineO <= o <= lineCountO && o == NextShared(Files(), lineO)
    {
      hide MyersScript, Aligned, MyersDiffIterator.Valid, Lookup;
      o := lineO;
      while o < lineCountO
        invariant Valid() && lineO <= o <= lineCountO
        invariant NextShared(Files(), lineO) == NextShared(Files(), o)
      {
        var containsA := iterA.Contains(o);
        var containsB := iterB.Contains(o);
        if containsA && containsB {
          break;
        }
        o := o + 1;
      }
    }

    /** The next chunk, or none once the last one has been handed out. */
    method Next() returns (r: Option<Chunk>)
      requires Valid()
      modifies this, iterA, iterA.b, iterB, iterB.b
      ensures Valid()
      ensures old(Rest()) == [] ==> r == None && Rest() == []
      ensures old(Rest()) != [] ==> r == ChunkOf(old(Rest())[0]) && r.Some? && Rest() == old(Rest())[1..]
    {
      hide MyersScript, Aligned, Settled, MyersDiffIterator.Valid, Lookup, RunLength, NextShared, SameLines, LinesAfter;
      if finished {
        return None;
      }
      NextPieceSound(Files(), Here());
      var i := MatchingRun();
      if i > 0 {
        assert AllMatch(Files(), Here(), 0);
        MatchInside(Files(), Here(), 0);
      }
      var more := InBounds(i);
      if more {
        if i == 0 {
          var o := FindShared();
          var a := iterA.Get(o);
          if a.Some? {
            var b := iterB.Get(o);
            if b.Some? {
              var oldO, oldA, oldB := lineO, lineA, lineB;
              lineO, lineA, lineB := o, a.value, b.value;
              return NewChunk(NewRange(oldO, lineO), NewRange(oldA, lineA), NewRange(oldB, lineB), false);
            }
          }
        } else {
          var oldO, oldA, oldB := lineO, lineA, lineB;
          lineO, lineA, lineB := lineO + i, lineA + i, lineB + i;
          return NewChunk(NewRange(oldO, lineO), NewRange(oldA, lineA), NewRange(oldB, lineB), true);
        }
      }
      finished := true;
      return NewChunk(NewRange(lineO, lineCountO), NewRange(lineA, lineCountA), NewRange(lineB, lineCountB), i > 0);
    }

    /** Start over: the same chunks come again. */
    method Reset()
      requires Valid()
      modifies this, iterA, iterB
      ensures Valid() && Rest() == AllPieces(Files())
    {
      hide MyersScript, MyersDiffIterator.Valid;
      lineO, lineA, lineB := 0, 0, 0;
      iterA.Reset();
      iterB.Reset();
      finished := false;
    }
  }

  function InsideRange(lines: seq<Line>, r: Option<LineRange>): seq<Line>
    requires r.Some? ==> r.value.begin <= r.value.end <= |lines|
  {
    if r.None? then [] else lines[r.value.begin..r.value.end]
  }

  method LinesFromRange(lines: seq<Line>, r: Option<LineRange>) returns (result: seq<Line>)
    requires r.Some? ==> r.value.begin <= r.value.end <= |lines|
    ensures result == InsideRange(lines, r)
  {
    result := [];
    if r.Some? {
      for lineNum := r.value.begin to r.value.end
        invariant result == lines[r.value.begin..lineNum]
      {
        result := result + [lines[lineNum]];
      }
    }
  }

  /** The chunk of a piece has the piece's lines. */
  lemma ChunkLines(t: Trio, c: Piece)
    requires SameLines(t, c)
    ensures InsideRange(t.o, NewRange(c.from.o, c.to.o)) == BaseLines(t, c)
    ensures InsideRange(t.a, NewRange(c.from.a, c.to.a)) == TargetLines(t, c)
    ensures InsideRange(t.b, NewRange(c.from.b, c.to.b)) == SourceLines(t, c)
    ensures c.clean ==> NewRange(c.from.o, c.to.o).Some?
  {
  }

  /** One thing after another gets smaller: the chunks to come, whether there is a current line, and what is left. */
  predicate Shrinks(coming: seq<seq<Line>>, line: Option<string>, left: string,
                    coming': seq<seq<Line>>, line': Option<string>, left': string)
  {
    || |coming'| < |coming|
    || (&& |coming'| == |coming|
        && ((line.Some? && line'.None?) || (line.Some? == line'.Some? && |left'| < |left|)))
  }

  /** What each piece contributes. */
  function ResolvedEach(t: Trio, cs: seq<Piece>, k: Markers): (r: seq<seq<Line>>)
    requires forall c :: c in cs ==> SameLines(t, c)
    ensures |r| == |cs| && forall i :: 0 <= i < |cs| ==> r[i] == (assert cs[i] in cs; Resolve(t, cs[i], k))
  {
    seq(|cs|, i requires 0 <= i < |cs| => assert cs[i] in cs; Resolve(t, cs[i], k))
  }

  /** The text of the merge: its lines, with newlines between them. */
  function MergedText(o: seq<Line>, a: seq<Line>, b: seq<Line>, k: Markers): string
  {
    MyersTrioAligned(o, a, b);
    var t := MyersTrio(o, a, b);
    ChunksCutAllFiles(t);
    Text([], ResolvedEach(t, AllPieces(t), k))
  }

  predicate MarkersInLine(k: Markers)
  {
    OneLine(k.target) && OneLine(k.base) && OneLine(k.separate) && OneLine(k.source)
  }

  lemma ResolvedInLines(t: Trio, cs: seq<Piece>, k: Markers)
    requires forall c :: c in cs ==> SameLines(t, c)
    requires OneLineEach(t.o) && OneLineEach(t.a) && OneLineEach(t.b) && MarkersInLine(k)
    ensures ChunksOfLines(ResolvedEach(t, cs, k))
  {
    hide SameLines, Resolve, OneLineEach;
    var r := ResolvedEach(t, cs, k);
    forall i | 0 <= i < |r|
      ensures OneLineEach(r[i])
    {
      assert cs[i] in cs;
      ResolvedInLine(t, cs[i], k);
    }
  }

  lemma ResolvedInLine(t: Trio, c: Piece, k: Markers)
    requires SameLines(t, c)
    requires OneLineEach(t.o) && OneLineEach(t.a) && OneLineEach(t.b) && MarkersInLine(k)
    ensures OneLineEach(Resolve(t, c, k))
  {
    hide OneLine;
  }

  class Diff3Stream {
    const diff3: Diff3Iterator
    const base: seq<Line>
    const target: seq<Line>
    const source: seq<Line>
    const markers: Markers
    var lineBuffer: seq<Line>
    var currentLine: Option<string>       // what is left of the first line in the buffer
    var hasConflict: bool

    ghost predicate Valid()
      reads this, diff3, diff3.iterA, diff3.iterB
    {
      && diff3.Valid() && diff3.Files() == MyersTrio(base, target, source)
      && OneLineEach(base) && OneLineEach(target) && OneLineEach(source) && MarkersInLine(markers)
      && OneLineEach(lineBuffer)
      && (currentLine.Some? ==> lineBuffer != [] && OneLine(currentLine.value)
                                && (lineBuffer[0] == "" ==> currentLine.value == ""))
    }

    /** The lines of the chunks to come. */
    ghost function Coming(): seq<seq<Line>>
      requires Valid()
      reads this, diff3, diff3.iterA, diff3.iterB
    {
      RestSound();
      ResolvedEach(diff3.Files(), diff3.Rest(), markers)
    }

    /** What reading on would give, as long as no buffer ends just at the end of a line. */
    ghost function Unread(): string
      requires Valid()
      reads this, diff3, diff3.iterA, diff3.iterB
    {
      ToRead(currentLine, lineBuffer, Coming())
    }

    /** Whether a conflict has been met, or will be. */
    ghost predicate ConflictInAll()
      requires Valid()
      reads this, diff3, diff3.iterA, diff3.iterB
    {
      RestSound();
      hasConflict || AnyConflict(diff3.Files(), diff3.Rest())
    }

    /** The lines that readLine gives hold no newlines, nor do the markers. */
    constructor (base: seq<Line>, target: seq<Line>, source: seq<Line>, markers: Markers)
      requires OneLineEach(base) && OneLineEach(target) && OneLineEach(source) && MarkersInLine(markers)
      ensures Valid() && fresh(diff3)
      ensures fresh(diff3.iterA) && fresh(diff3.iterA.b) && fresh(diff3.iterB) && fresh(diff3.iterB.b)
      ensures this.base == base && this.target == target && this.source == source && this.markers == markers
    {
      var d := new Diff3Iterator(base, target, source);
      diff3 := d;
      this.base, this.target, this.source, this.markers := base, target, source, markers;
      lineBuffer, currentLine, hasConflict := [], None, false;
    }

    /** Resolve the next chunk into the line buffer, and go to the first line in it. */
    method Fill() returns (more: bool)
      requires Valid() && currentLine == None
      modifies this, diff3, diff3.iterA, diff3.iterA.b, diff3.iterB, diff3.iterB.b
      ensures Valid() && more == (old(Coming()) != [])
      ensures ConflictInAll() == old(ConflictInAll())
      ensures if more then && Coming() == old(Coming())[1..] && lineBuffer == old(lineBuffer) + old(Coming())[0]
                           && currentLine == FirstLine(lineBuffer)
              else Coming() == [] && lineBuffer == old(lineBuffer) && currentLine == None
    {
      hide MyersScript, Diff3Iterator.Valid, SameLines, Resolve, Conflicts, Pieces, ChunkOf;
      ghost var t := diff3.Files();
      ghost var rest := diff3.Rest();
      RestSound();
      ResolvedInLines(t, rest, markers);
      var chunk := diff3.Next();
      if chunk == None {
        return false;
      }
      ConflictNext(t, rest);
      assert ResolvedEach(t, rest, markers)[0] in ResolvedEach(t, rest, markers);
      var lines, conflict := LinesOfChunk(chunk.value, t, rest[0]);
      lineBuffer := lineBuffer + lines;
      currentLine := FirstLine(lineBuffer);
      if conflict {
        hasConflict := true;
      }
      return true;
    }

    /** The lines of a chunk, and whether it is a conflict. */
    method LinesOfChunk(chunk: Chunk, ghost t: Trio, ghost c: Piece) returns (lines: seq<Line>, conflict: bool)
      requires t.o == base && t.a == target && t.b == source && SameLines(t, c) && ChunkOf(c) == Some(chunk)
      ensures lines == Resolve(t, c, markers) && conflict == Conflicts(t, c)
    {
      ChunkLines(t, c);
      conflict := false;
      match chunk {
        case CleanChunk(r) =>
          lines := LinesFromRange(base, Some(r));
        case ConflictChunk(o, a, b) =>
          var baseLines := LinesFromRange(base, o);
          var targetLines := LinesFromRange(target, a);
          var sourceLines := LinesFromRange(source, b);
          if baseLines == targetLines || targetLines == sourceLines {
            lines := sourceLines;
          } else if baseLines == sourceLines {
            lines := targetLines;
          } else {
            lines := [markers.target] + targetLines + [markers.base] + baseLines
                     + [markers.separate] + sourceLines + [markers.source];
            conflict := true;
          }
      }
    }

    lemma RestSound()
      requires Valid()
      ensures forall c :: c in diff3.Rest() ==> SameLines(diff3.Files(), c)
    {
      hide MyersScript, MyersDiffIterator.Valid;
      if !diff3.finished {
        PiecesCut(diff3.Files(), diff3.Here());
      }
    }

    /** Copy from the current line into a buffer of size k, with its newline if there is room for it. */
    method CopyLine(k: nat) returns (b: string)
      requires Valid() && k > 0 && currentLine.Some?
      modifies this`lineBuffer, this`currentLine
      ensures Valid() && Coming() == old(Coming())
      ensures Advances(old(Unread()), k, b, Unread()) && (b == "" ==> Coming() == [] && Unread() == "")
      ensures b != "" ==> Shrinks(old(Coming()), old(currentLine), old(Unread()), Coming(), currentLine, Unread())
    {
      hide MyersScript, Diff3Iterator.Valid, Diff3Iterator.Rest, Advances, ResolvedEach, Text, ToRead;
      var line, buffer := currentLine.value, lineBuffer;
      ghost var coming := Coming();
      FinishedOrComing();
      var size := Min(|line|, k);
      b := line[..size];
      if size < |line| {
        currentLine := Some(line[size..]);
        InLine(line, buffer, coming, k);
      } else {
        assert b == line;
        if size > 0 {
          currentLine := None;
        }
        if size < k {
          lineBuffer := lineBuffer[1..];
          currentLine := FirstLine(lineBuffer);
          if currentLine.Some? || !diff3.finished {
            b := b + [NEWLINE];
          }
          WithRoom(line, buffer, coming, k);
          assert b == line + Ending(buffer[1..], coming);
        } else {
          NoRoom(line, buffer, coming);
        }
      }
    }

    lemma FinishedOrComing()
      requires Valid()
      ensures diff3.finished <==> Coming() == []
    {
      RestSound();
    }

    /** One step: from the current line, or from the first line of the next chunk that has lines. */
    method ReadStep(k: nat) returns (b: string)
      requires Valid() && k > 0
      modifies this, diff3, diff3.iterA, diff3.iterA.b, diff3.iterB, diff3.iterB.b
      ensures Valid() && ConflictInAll() == old(ConflictInAll())
      ensures Advances(old(Unread()), k, b, Unread()) && (b == "" ==> Coming() == [] && Unread() == "")
      ensures b != "" ==> Shrinks(old(Coming()), old(currentLine), old(Unread()), Coming(), currentLine, Unread())
      decreases |Coming()|
    {
      hide MyersScript, Diff3Iterator.Valid, Diff3Iterator.Rest, Advances, AnyConflict, ResolvedEach, Text, OneLine;
      if currentLine.Some? {
        b := CopyLine(k);
      } else {
        var more := Fill();
        if !more {
          NothingToRead(lineBuffer, k);
          b := "";
        } else {
          LeftIsText(lineBuffer, Coming());
          b := ReadStep(k);
        }
      }
    }

    /** Read until the buffer is full or there is nothing more. */
    method Read(k: nat) returns (b: string)
      requires Valid() && k > 0
      modifies this, diff3, diff3.iterA, diff3.iterA.b, diff3.iterB, diff3.iterB.b
      ensures Valid() && ConflictInAll() == old(ConflictInAll())
      ensures Advances(old(Unread()), k, b, Unread())
      ensures |b| < k ==> Unread() == "" && Coming() == []
      ensures b != "" ==> Shrinks(old(Coming()), old(currentLine), old(Unread()), Coming(), currentLine, Unread())
    {
      hide MyersScript, Diff3Iterator.Valid, Diff3Iterator.Rest, Advances, ConflictInAll, ResolvedEach, Text, OneLine;
      ghost var left := Unread();
      b := "";
      var more := true;
      while |b| < k && more
        invariant Valid() && ConflictInAll() == old(ConflictInAll())
        invariant if b == "" && more then Unread() == left && Coming() == old(Coming())
                  && currentLine == old(currentLine)
                  else Advances(left, k, b, Unread())
        invariant !more ==> Unread() == "" && Coming() == []
        invariant b != "" ==> Shrinks(old(Coming()), old(currentLine), left, Coming(), currentLine, Unread())
        decreases k - |b|, more
      {
        ghost var before := Unread();
        var c := ReadStep(k - |b|);
        if b != "" {
          AdvancesTwice(left, k, b, before, c, Unread());
        }
        more := c != "";
        assert "" + c == c;
        b := b + c;
      }
    }

    /** Go back to the start. */
    method SeekTo()
      requires Valid()
      modifies this, diff3, diff3.iterA, diff3.iterB
      ensures Valid() && currentLine == None
      ensures Unread() == MergedText(base, target, source, markers)
      ensures ConflictInAll() == Conflict(base, target, source)
    {
      hide MyersScript, Diff3Iterator.Valid, Pieces, ResolvedEach, AnyConflict;
      diff3.Reset();
      lineBuffer, currentLine, hasConflict := [], None, false;
      LeftIsText([], Coming());
    }

    /** Read everything that is left, into one buffer after another. */
    method Drain(size: nat -> nat) returns (text: string)
      requires Valid() && forall i :: size(i) > 0
      modifies this, diff3, diff3.iterA, diff3.iterA.b, diff3.iterB, diff3.iterB.b
      ensures Valid() && hasConflict == old(ConflictInAll())
      ensures text == old(Unread()) <==> NoBufferEndsLine(old(Unread()), size)
    {
      hide Valid, Coming, Unread, ConflictInAll, Advances, SoFar, NoBufferEndsLine, MyersScript, Aligned;
      ghost var whole := Unread();
      text := "";
      var i := 0;
      NothingRead(whole, size);
      var more := true;
      while more
        invariant Valid() && ConflictInAll() == old(ConflictInAll())
        invariant SoFar(whole, size, i, text, Unread())
        invariant !more ==> Unread() == "" && Coming() == []
        decreases more, |Coming()|, currentLine.Some?, |Unread()|
      {
        ghost var before := Unread();
        var b := Read(size(i));
        if b == "" {
          NothingGiven(before, size(i), Unread());
          more := false;
        } else {
          ReadNext(whole, size, i, text, before, b, Unread());
          text, i := text + b, i + 1;
        }
      }
      ReadWhole(whole, size, i, text);
      NoConflictComing();
    }

    lemma NoConflictComing()
      requires Valid() && Coming() == []
      ensures ConflictInAll() == hasConflict
    {
    }

    /** The first pass finds the size, reading into a buffer of 4096 bytes, and the conflicts. */
    method Count() returns (n: nat)
      requires Valid()
      modifies this, diff3, diff3.iterA, diff3.iterA.b, diff3.iterB, diff3.iterB.b
      ensures Valid() && hasConflict == Conflict(base, target, source)
      ensures var text := MergedText(base, target, source, markers);
              (forall i: nat :: !AtLineEnd(text, 4096 * i)) ==> n == |text|
    {
      hide Valid, Conflict, MergedText, Unread, ConflictInAll, Advances, AtLineEnd, Offset;
      SeekTo();
      var size: nat -> nat := _ => 4096;
      var text := Drain(size);
      n := |text|;
      forall i: nat
        ensures Offset(size, i) == 4096 * i
      {
        OffsetOfEqual(size, 4096, i);
      }
    }

    /** A first pass finds the size and the conflicts, a second one delivers the content, into the buffers of the one
        who reads it. The content is that of the merge exactly if none of these buffers ends just at the end of a
        line that others follow. */
    method TwoPasses(size: nat -> nat) returns (conflict: bool, counted: nat, content: string)
      requires Valid() && forall i :: size(i) > 0
      modifies this, diff3, diff3.iterA, diff3.iterA.b, diff3.iterB, diff3.iterB.b
      ensures Valid()
      ensures conflict == Conflict(base, target, source)
      ensures var text := MergedText(base, target, source, markers);
              && ((forall i: nat :: !AtLineEnd(text, 4096 * i)) ==> counted == |text|)
              && (content == text <==> NoBufferEndsLine(text, size))
    {
      hide *;
      counted := Count();
      conflict := hasConflict;
      SeekTo();
      content := Drain(size);
    }
  }

  lemma ConflictNext(t: Trio, rest: seq<Piece>)
    requires rest != [] && forall c :: c in rest ==> SameLines(t, c)
    ensures forall c :: c in rest[1..] ==> SameLines(t, c)
    ensures AnyConflict(t, rest) == (Conflicts(t, rest[0]) || AnyConflict(t, rest[1..]))
  {
    assert forall c :: c in rest <==> c == rest[0] || c in rest[1..];
  }
}
