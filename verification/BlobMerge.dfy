/** writeBlobWithDiff3 of merge.go: three versions of a file are merged line by line, and what that means for the
    merge of whole trees. */
module BlobMerging {
  import opened Common
  import opened EditGraph
  import opened LineMerge
  import opened LineText
  import opened Diff3Iteration
  import opened Trees
  import opened TreeMerge
  import opened Paths
  import MergeTexts

  /** A blob, as the line iterator sees it. Every file that is not binary has at least one line. */
  datatype Contents = Binary | Lines(lines: seq<Line>)

  type View = Oid -> Contents

  ghost predicate GoodView(view: View)
  {
    forall o :: view(o).Lines? ==> OneLineEach(view(o).lines) && view(o).lines != []
  }

  /** The versions of a file: a file without a base is merged over no lines at all. */
  function BaseOf(view: View, base: Option<Oid>): Contents
  {
    if base == None then Lines([]) else view(base.value)
  }

  predicate AnyBinary(view: View, base: Option<Oid>, target: Oid, source: Oid)
  {
    BaseOf(view, base).Binary? || view(target).Binary? || view(source).Binary?
  }

  function TextOf(view: View, base: Option<Oid>, target: Oid, source: Oid, m: Markers): string
    requires !AnyBinary(view, base, target, source)
  {
    MergedText(BaseOf(view, base).lines, view(target).lines, view(source).lines, m)
  }

  predicate LinesConflict(view: View, base: Option<Oid>, target: Oid, source: Oid)
    requires !AnyBinary(view, base, target, source)
  {
    Conflict(BaseOf(view, base).lines, view(target).lines, view(source).lines)
  }

  /** The blob that is written for three versions of a file, and whether it holds conflicts. Of binary files, the
      source's is taken, with a conflict. */
  method WriteBlobWithDiff3(view: View, hash: string -> Oid, base: Option<Oid>, target: Oid, source: Oid, m: Markers,
                            size: nat -> nat)
    returns (oid: Oid, hasConflict: bool, ghost content: string)
    requires GoodView(view) && MarkersInLine(m) && forall i :: size(i) > 0
    ensures AnyBinary(view, base, target, source) ==> oid == source && hasConflict
    ensures !AnyBinary(view, base, target, source) ==>
              && hasConflict == LinesConflict(view, base, target, source) && oid == hash(content)
              && (content == TextOf(view, base, target, source, m)
                  <==> NoBufferEndsLine(TextOf(view, base, target, source, m), size))
  {
    hide Conflict, MergedText, NoBufferEndsLine, Diff3Stream.Valid;
    var o, a, b := BaseOf(view, base), view(target), view(source);
    content := "";
    if o.Binary? || a.Binary? || b.Binary? {
      return source, true, content;
    }
    var stream := new Diff3Stream(o.lines, a.lines, b.lines, m);
    var conflict, counted, written := stream.TwoPasses(size);
    return hash(written), conflict, written;
  }

  /** The same as a function, for a reader whose buffers never end just at the end of a line. */
  function LineBlobMerge(view: View, hash: string -> Oid, m: Markers): BlobMerge
  {
    (base, target, source) =>
      if AnyBinary(view, base, target, source) then (source, true)
      else (hash(TextOf(view, base, target, source, m)), LinesConflict(view, base, target, source))
  }

  /** A path that both sides put a different file at, neither of them that of the base, and that has no conflict, holds
      the merged lines of the three files. */
  lemma CleanlyCombined(view: View, hash: string -> Oid, m: Markers, base: FileMap, target: FileMap, source: FileMap,
                        td: Diff, sd: Diff, clean: Diff, conflicts: map<Path, MergeConflict>, p: Path)
    requires IsMerge(LineBlobMerge(view, hash, m), base, target, source, td, sd, clean, conflicts)
    requires p !in conflicts && p in target && p in source
    requires Clash(OidOf(Get(base, p)), target[p].oid, source[p].oid)
    ensures var b, t, s := OidOf(Get(base, p)), target[p].oid, source[p].oid;
            && !AnyBinary(view, b, t, s) && !LinesConflict(view, b, t, s)
            && p in Apply(clean, target) && Apply(clean, target)[p].oid == hash(TextOf(view, b, t, s, m))
  {
    hide IsMerge, Apply, AnyBinary, LinesConflict, TextOf, AddsBelow;
    var merge := LineBlobMerge(view, hash, m);
    CleanPathContent(merge, base, target, source, td, sd, clean, conflicts, p);
    ConflictReported(merge, base, target, source, td, sd, clean, conflicts, p);
  }

  /** Without a base, different files always conflict, so a clash of modes is never lost there. */
  lemma NoBaseIsReported(view: View, hash: string -> Oid, m: Markers, target: TreeEntry, source: TreeEntry)
    requires GoodView(view) && view(target.oid) != view(source.oid)
    ensures SamePath(LineBlobMerge(view, hash, m), Some(TreeChange(None, Some(target))),
                     TreeChange(None, Some(source))).conflict.Some?
  {
    hide Conflict, MergedText, Merged, LineText.Join, OneLineEach;
    if !AnyBinary(view, None, target.oid, source.oid) {
      MergeTexts.NoBaseConflicts(view(target.oid).lines, view(source.oid).lines, m);
      assert LinesConflict(view, None, target.oid, source.oid);
    }
    assert target.oid != source.oid;
    assert LineBlobMerge(view, hash, m)(None, target.oid, source.oid).1;
  }

  function ExampleView(o: Oid): Contents
  {
    if o == 1 then Lines(["x", "y"]) else if o == 2 then Lines(["u", "x", "y"]) else Lines(["x"])
  }

  /** A file whose lines merge cleanly while both sides changed its mode: the target made it executable, the source a
      symbolic link. No conflict is reported, and the target's mode wins. */
  lemma ModeClashLost(hash: string -> Oid, m: Markers)
    ensures GoodView(ExampleView)
    ensures var base, target, source := TreeEntry(1, 33188), TreeEntry(2, 33261), TreeEntry(3, 40960);
            var r := SamePath(LineBlobMerge(ExampleView, hash, m), Some(TreeChange(Some(base), Some(target))),
                              TreeChange(Some(base), Some(source)));
            && Clash(Some(base.mode), target.mode, source.mode)
            && r.conflict == None && r.change.Some?
            && r.change.value.now.Some? && r.change.value.now.value.mode == 33261
  {
    hide Conflict, MergedText, Merged, LineText.Join;
    assert "x"[0] != "y"[0] && "u"[0] != "x"[0];
    MergeTexts.NewlineTooMany("x", "y", "u", m);
    assert !AnyBinary(ExampleView, Some(1), 2, 3) && !LinesConflict(ExampleView, Some(1), 2, 3);
    assert !LineBlobMerge(ExampleView, hash, m)(Some(1), 2, 3).1;
  }
}
