/** The text that a stream of lines stands for, and where a reader must not stop in it. */
module LineText {
  import opened Common
  import opened EditGraph

  const NEWLINE: char := '\n'

  predicate OneLine(l: Line)
  {
    NEWLINE !in l
  }

  predicate OneLineEach(lines: seq<Line>)
  {
    forall l :: l in lines ==> OneLine(l)
  }

  predicate ChunksOfLines(coming: seq<seq<Line>>)
  {
    forall c :: c in coming ==> OneLineEach(c)
  }

  /** What follows a line: a newline, unless nothing is to come. */
  function Ending(buffer: seq<Line>, coming: seq<seq<Line>>): string
  {
    if buffer == [] && coming == [] then "" else [NEWLINE]
  }

  /** The lines in the buffer and those of the coming chunks, a newline after each but the last of the last chunk. */
  function Text(buffer: seq<Line>, coming: seq<seq<Line>>): string
    decreases |coming|, |buffer|
  {
    if buffer != [] then buffer[0] + Ending(buffer[1..], coming) + Text(buffer[1..], coming)
    else if coming != [] then Text(coming[0], coming[1..])
    else ""
  }

  /** What is left to read, line being left of the first line in the buffer. Without a line, the next chunk is
      added to what is still in the buffer. */
  function ToRead(line: Option<string>, buffer: seq<Line>, coming: seq<seq<Line>>): string
    requires line.Some? ==> buffer != []
  {
    match line
    case Some(l) => l + Ending(buffer[1..], coming) + Text(buffer[1..], coming)
    case None => if coming == [] then "" else Text(buffer + coming[0], coming[1..])
  }

  // ---------------------------------------------------------------------------
  // reading piece by piece
  // ---------------------------------------------------------------------------

  /** Just after a line that is not empty, and just before the newline that follows it. */
  predicate AtLineEnd(text: string, o: nat)
  {
    0 < o < |text| && text[o] == NEWLINE && text[o - 1] != NEWLINE
  }

  predicate StartsWithNewline(text: string)
  {
    text != "" && text[0] == NEWLINE
  }

  /** Of the text that is left, b has been read into a buffer of size k. If the buffer is full just at the end of a
      line, what is left afterwards is something else; otherwise it is the rest. */
  predicate Advances(left: string, k: nat, b: string, after: string)
  {
    && b <= left && |b| <= k && (b == "" <==> left == "")
    && if |b| == k && AtLineEnd(left, k) then !StartsWithNewline(after) else after == left[|b|..]
  }

  lemma AdvancesTwice(left: string, k: nat, b: string, after: string, c: string, last: string)
    requires |b| < k && Advances(left, k, b, after) && Advances(after, k - |b|, c, last)
    ensures Advances(left, k, b + c, last)
  {
    if |b + c| <= |left| {
      assert left[|b|..][..|c|] == c;
      assert left[|b|..][|c|..] == left[|b + c|..];
    }
  }

  lemma NothingGiven(left: string, k: nat, after: string)
    requires Advances(left, k, "", after) && k > 0
    ensures left == ""
  {
  }

  lemma NothingToRead(buffer: seq<Line>, k: nat)
    ensures ToRead(None, buffer, []) == "" && Advances("", k, "", "")
  {
  }

  /** Part of a line, the buffer being full. */
  lemma InLine(line: string, buffer: seq<Line>, coming: seq<seq<Line>>, k: nat)
    requires OneLine(line) && buffer != [] && 0 < k < |line|
    ensures Advances(ToRead(Some(line), buffer, coming), k, line[..k], ToRead(Some(line[k..]), buffer, coming))
    ensures |ToRead(Some(line[k..]), buffer, coming)| < |ToRead(Some(line), buffer, coming)|
  {
    var left := ToRead(Some(line), buffer, coming);
    var rest := Ending(buffer[1..], coming) + Text(buffer[1..], coming);
    assert left == line + rest;
    assert left[k] == line[k] && left[k..] == line[k..] + rest;
  }

  /** A line that just fits the buffer: there is no room for its newline, and it stays in the line buffer. */
  lemma NoRoom(line: string, buffer: seq<Line>, coming: seq<seq<Line>>)
    requires OneLine(line) && line != "" && buffer != [] && buffer[0] != "" && OneLine(buffer[0])
    ensures Advances(ToRead(Some(line), buffer, coming), |line|, line, ToRead(None, buffer, coming))
  {
    var left := ToRead(Some(line), buffer, coming);
    assert left[..|line|] == line;
    if coming != [] {
      assert (buffer + coming[0])[0] == buffer[0];
    }
    if buffer[1..] == [] && coming == [] {
      assert Text(buffer[1..], coming) == "";
      assert left == line;
    }
  }

  /** The first line of the buffer, or none if it is empty. */
  function FirstLine(buffer: seq<Line>): Option<Line>
  {
    if buffer == [] then None else Some(buffer[0])
  }

  lemma LeftIsText(buffer: seq<Line>, coming: seq<seq<Line>>)
    ensures ToRead(FirstLine(buffer), buffer, coming) == Text(buffer, coming)
  {
    if buffer == [] && coming != [] {
      assert buffer + coming[0] == coming[0];
    }
  }

  /** The rest of a line and its newline, if it has one. */
  lemma WithRoom(line: string, buffer: seq<Line>, coming: seq<seq<Line>>, k: nat)
    requires OneLine(line) && buffer != [] && |line| < k
    ensures Advances(ToRead(Some(line), buffer, coming), k, line + Ending(buffer[1..], coming),
                     ToRead(FirstLine(buffer[1..]), buffer[1..], coming))
    ensures buffer[1..] != [] ==>
              |ToRead(FirstLine(buffer[1..]), buffer[1..], coming)| < |ToRead(Some(line), buffer, coming)|
  {
    LeftIsText(buffer[1..], coming);
    var left := ToRead(Some(line), buffer, coming);
    var b, rest := line + Ending(buffer[1..], coming), Text(buffer[1..], coming);
    assert left == b + rest;
    if |b| == k {
      assert left[k - 1] == NEWLINE;
    }
  }

  // ---------------------------------------------------------------------------
  // the boundaries of buffers
  // ---------------------------------------------------------------------------

  /** Where the i-th buffer starts. */
  function Offset(size: nat -> nat, i: nat): nat
  {
    if i == 0 then 0 else Offset(size, i - 1) + size(i - 1)
  }

  lemma {:induction false} OffsetGrows(size: nat -> nat, i: nat, j: nat)
    requires i <= j
    ensures Offset(size, i) <= Offset(size, j)
    decreases j - i
  {
    if i < j {
      OffsetGrows(size, i, j - 1);
    }
  }

  lemma {:induction false} OffsetOfEqual(size: nat -> nat, k: nat, i: nat)
    requires forall j :: size(j) == k
    ensures Offset(size, i) == k * i
  {
    if i > 0 {
      OffsetOfEqual(size, k, i - 1);
      assert k * i == k * (i - 1) + k;
    }
  }

  /** No buffer ends just at the end of a line. */
  ghost predicate NoBufferEndsLine(text: string, size: nat -> nat)
  {
    forall i: nat :: !AtLineEnd(text, Offset(size, i))
  }

  /** Nothing has gone wrong in the first i buffers: what has been read and what is left make up the whole. */
  ghost predicate Intact(whole: string, size: nat -> nat, i: nat, text: string, left: string)
  {
    && whole == text + left && |text| <= Offset(size, i) && (left != "" ==> |text| == Offset(size, i))
    && forall j: nat :: j <= i ==> !AtLineEnd(whole, Offset(size, j))
  }

  /** The j-th buffer started just at the end of a line, and what follows there is not the newline. */
  predicate Broken(whole: string, size: nat -> nat, j: nat, text: string, left: string)
  {
    var o := Offset(size, j);
    && AtLineEnd(whole, o)
    && if |text| <= o then |text| == o && !StartsWithNewline(left) else text[o] != NEWLINE
  }

  ghost predicate SoFar(whole: string, size: nat -> nat, i: nat, text: string, left: string)
  {
    Intact(whole, size, i, text, left) || exists j: nat :: Broken(whole, size, j, text, left)
  }

  lemma NothingRead(whole: string, size: nat -> nat)
    ensures SoFar(whole, size, 0, "", whole)
  {
    assert whole == "" + whole;
    assert Intact(whole, size, 0, "", whole);
  }

  lemma StaysIntact(whole: string, size: nat -> nat, i: nat, text: string, left: string, b: string, after: string)
    requires Intact(whole, size, i, text, left) && size(i) > 0 && b != ""
    requires Advances(left, size(i), b, after) && (|b| < size(i) ==> after == "")
    ensures SoFar(whole, size, i + 1, text + b, after)
  {
    var o := Offset(size, i + 1);
    assert AtLineEnd(left, size(i)) <==> AtLineEnd(whole, o);
    if AtLineEnd(left, size(i)) && |b| == size(i) {
      assert Broken(whole, size, i + 1, text + b, after);
    } else {
      assert left == b + left[|b|..];
      assert whole == text + b + after;
      assert Intact(whole, size, i + 1, text + b, after);
    }
  }

  lemma ReadNext(whole: string, size: nat -> nat, i: nat, text: string, left: string, b: string, after: string)
    requires SoFar(whole, size, i, text, left) && size(i) > 0 && b != ""
    requires Advances(left, size(i), b, after) && (|b| < size(i) ==> after == "")
    ensures SoFar(whole, size, i + 1, text + b, after)
  {
    if Intact(whole, size, i, text, left) {
      StaysIntact(whole, size, i, text, left, b, after);
    } else {
      var j: nat :| Broken(whole, size, j, text, left);
      assert b[0] == left[0];
      assert Broken(whole, size, j, text + b, after);
    }
  }

  /** In the end, the whole has been read exactly if no buffer ended just at the end of a line. */
  lemma ReadWhole(whole: string, size: nat -> nat, i: nat, text: string)
    requires SoFar(whole, size, i, text, "")
    ensures text == whole <==> NoBufferEndsLine(whole, size)
  {
    if Intact(whole, size, i, text, "") {
      assert text + "" == text;
      forall j: nat
        ensures !AtLineEnd(whole, Offset(size, j))
      {
        if j > i {
          OffsetGrows(size, i, j);
        }
      }
    } else {
      var j: nat :| Broken(whole, size, j, text, "");
    }
  }

  // ---------------------------------------------------------------------------
  // the text of the lines
  // ---------------------------------------------------------------------------

  /** The lines of a file, as they are split at its newlines. */
  function Join(lines: seq<Line>): string
  {
    if lines == [] then "" else if |lines| == 1 then lines[0] else lines[0] + [NEWLINE] + Join(lines[1..])
  }

  function Flat(chunks: seq<seq<Line>>): seq<Line>
  {
    if chunks == [] then [] else chunks[0] + Flat(chunks[1..])
  }

  /** The last chunk has no lines, though there are lines before it. */
  predicate EndsEmpty(lines: seq<Line>, chunks: seq<seq<Line>>)
  {
    lines != [] && chunks != [] && chunks[|chunks| - 1] == []
  }

  /** The text is that of the file with these lines, with one newline too many if the last chunk has no lines. */
  lemma {:induction false} TextIsJoin(buffer: seq<Line>, coming: seq<seq<Line>>)
    ensures Text(buffer, coming) == Join(buffer + Flat(coming))
                                    + if EndsEmpty(buffer + Flat(coming), coming) then [NEWLINE] else ""
    decreases |coming|, |buffer|
  {
    var lines := buffer + Flat(coming);
    if buffer != [] {
      TextIsJoin(buffer[1..], coming);
      assert lines[1..] == buffer[1..] + Flat(coming);
      if lines[1..] == [] {
        FlatEmpty(coming);
      }
    } else if coming != [] {
      TextIsJoin(coming[0], coming[1..]);
      assert lines == coming[0] + Flat(coming[1..]);
    }
  }

  lemma {:induction false} FlatEmpty(chunks: seq<seq<Line>>)
    requires Flat(chunks) == []
    ensures chunks != [] ==> chunks[|chunks| - 1] == []
    decreases |chunks|
  {
    if |chunks| > 1 {
      FlatEmpty(chunks[1..]);
    }
  }
}
