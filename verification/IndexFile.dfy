/** The index file: what Write and readIndex of index.go agree on. */
module IndexFile {
  import opened Common
  import opened Bytes
  import opened Paths
  import opened Trees
  import opened Indexes
  import opened Sorting

  /** How oids and paths are written as bytes. */
  datatype Encoding = Encoding(byteLen: nat, oidBytes: Oid -> seq<Byte>, oidOf: seq<Byte> -> Oid,
                               pathBytes: Path -> seq<Byte>, pathOf: seq<Byte> -> Path,
                                   checksum: seq<Byte> -> seq<Byte>)

  const WIDE := 0x1_0000_0000

  /** An entry that fits: numbers of the widths of the format, an oid of the length of the repository, a path without
      NUL. */
  ghost predicate Fits(enc: Encoding, e: IndexEntry)
  {
    && (forall n :: n in Fields(e) ==> n < WIDE) && e.flags < 0x1_0000
    && |enc.oidBytes(e.oid)| == enc.byteLen && enc.oidOf(enc.oidBytes(e.oid)) == e.oid
    && 0 !in enc.pathBytes(e.path) && enc.pathOf(enc.pathBytes(e.path)) == e.path
  }

  const REGULAR_TYPE: nat := 8
  const EXECUTABLE: nat := 0x1ED
  const READABLE: nat := 0x1A4

  /** Regular files are executable for all or not at all. */
  function Normal(m: Mode): Mode
  {
    if ObjType(m) == REGULAR_TYPE && m % 512 != EXECUTABLE then m - m % 512 + READABLE else m
  }

  /** Only the permissions of regular files change, to 755 if they were that and to 644 otherwise. */
  lemma NormalModes(m: Mode)
    ensures ObjType(m) != 8 ==> Normal(m) == m
    ensures ObjType(m) == 8 ==>
              Normal(m) / 512 == m / 512 && Normal(m) % 512 == if m % 512 == 0x1ED then 0x1ED else 0x1A4
  {
    assert m == 512 * (m / 512) + m % 512;
  }

  // --------------------------------------------------------------------------
  // Writing
  // --------------------------------------------------------------------------

  function Fields(e: IndexEntry): (r: seq<nat>)
    ensures |r| == 10
  {
    var s := e.stat;
    [s.ctimeSecs, s.ctimeNsecs, s.mtimeSecs, s.mtimeNsecs, s.dev, s.ino, e.mode, s.uid, s.gid, s.fileSize]
  }

  function Numbers(ns: seq<nat>): (r: seq<Byte>)
    ensures |r| == 4 * |ns|
  {
    if ns == [] then [] else Numbers(ns[..|ns| - 1]) + BigEndianBytes(ns[|ns| - 1], 4)
  }

  function Padding(size: nat): nat { (8 - size % 8) % 8 }

  function Unpadded(enc: Encoding, e: IndexEntry): seq<Byte>
  {
    Numbers(Fields(e)) + enc.oidBytes(e.oid) + BigEndianBytes(e.flags, 2) + enc.pathBytes(e.path) + [0]
  }

  function EntryBytes(enc: Encoding, e: IndexEntry): seq<Byte>
  {
    Unpadded(enc, e) + Zeros(Padding(|Unpadded(enc, e)|))
  }

  function AllBytes(enc: Encoding, es: seq<IndexEntry>): seq<Byte>
  {
    if es == [] then [] else AllBytes(enc, es[..|es| - 1]) + EntryBytes(enc, es[|es| - 1])
  }

  const SIGNATURE: seq<Byte> := [68, 73, 82, 67]
  const VERSION: nat := 2

  function FileBytes(enc: Encoding, es: seq<IndexEntry>): seq<Byte>
  {
    var bytes := SIGNATURE + BigEndianBytes(VERSION, 4) + BigEndianBytes(|es|, 4) + AllBytes(enc, es);
    bytes + enc.checksum(bytes)
  }

  /** Every entry of the index once, and nothing else. */
  ghost predicate Lists(es: seq<IndexEntry>, entries: Entries)
  {
    Distinct(es) && forall e :: e in es <==> IsEntry(entries, e)
  }

  predicate IsEntry(entries: Entries, e: IndexEntry)
  {
    e.path in entries && |entries[e.path]| == 4 && entries[e.path][Stage(e.flags)] == Some(e)
  }

  predicate Precedes(enc: Encoding, a: IndexEntry, b: IndexEntry)
  {
    var c := Compare(enc.pathBytes(a.path), enc.pathBytes(b.path));
    c < 0 || (c == 0 && Stage(a.flags) < Stage(b.flags))
  }

  /** The entries are in the byte order of their paths, and those of one path by stage. */
  ghost predicate ByPathAndStage(enc: Encoding, es: seq<IndexEntry>)
  {
    forall i, j :: 0 <= i < j < |es| ==>
      var c := Compare(enc.pathBytes(es[i].path), enc.pathBytes(es[j].path));
      c < 0 || (c == 0 && Stage(es[i].flags) <= Stage(es[j].flags))
  }

  lemma OrderedByPath(enc: Encoding, es: seq<IndexEntry>)
    requires Ordered(Order(enc), es)
    ensures ByPathAndStage(enc, es)
  {
    hide Compare, Stage;
    forall i, j | 0 <= i < j < |es|
      ensures !Precedes(enc, es[j], es[i])
    {
      assert !Order(enc)(es[j], es[i]);
    }
    forall i, j | 0 <= i < j < |es|
      ensures Compare(enc.pathBytes(es[i].path), enc.pathBytes(es[j].path))
              == -Compare(enc.pathBytes(es[j].path), enc.pathBytes(es[i].path))
    {
      CompareFlipped(enc.pathBytes(es[i].path), enc.pathBytes(es[j].path));
    }
  }

  /** The order of the file: by path, and of one path by stage. */
  function Order(enc: Encoding): (IndexEntry, IndexEntry) -> bool { (a, b) => Precedes(enc, a, b) }

  // --------------------------------------------------------------------------
  // Reading
  // --------------------------------------------------------------------------

  datatype Parsed = Parsed(entry: IndexEntry, next: nat)

  function Field(data: seq<Byte>, pos: nat, i: nat): nat
    requires pos + 4 * i + 4 <= |data|
  {
    BigEndian(data[pos + 4 * i..pos + 4 * i + 4])
  }

  function ParseEntry(enc: Encoding, data: seq<Byte>, start: nat): Option<Parsed>
  {
    if start + 40 + enc.byteLen + 2 > |data| then None
    else
      var stat := Stat(Field(data, start, 0), Field(data, start, 1), Field(data, start, 2), Field(data, start, 3),
          Field(data, start, 4),
                       Field(data, start, 5), Field(data, start, 7), Field(data, start, 8), Field(data, start, 9));
      var atFlags := start + 40 + enc.byteLen;
      match Find(data, atFlags + 2, 0)
      case None => None
      case Some(nul) =>
        var size := nul + 1 - start;
        Some(Parsed(IndexEntry(stat, Normal(Field(data, start, 6)), enc.oidOf(data[start + 40..atFlags]),
                               BigEndian(data[atFlags..atFlags + 2]), enc.pathOf(data[atFlags + 2..nul])),
                    nul + 1 + Padding(size)))
  }

  lemma {:induction false} FieldRoundTrip(ns: seq<nat>, i: nat, data: seq<Byte>, pos: nat)
    requires i < |ns| && (forall n :: n in ns ==> n < WIDE) && Holds(data, pos, Numbers(ns))
    ensures pos + 4 * i + 4 <= |data| && Field(data, pos, i) == ns[i]
    decreases |ns|
  {
    var init, last := ns[..|ns| - 1], ns[|ns| - 1];
    HoldsParts(data, pos, Numbers(init), BigEndianBytes(last, 4));
    if i == |ns| - 1 {
      assert last in ns && Power(256, 4) == WIDE;
      BigEndianRoundTrip(last, 4);
    } else {
      assert forall n :: n in init ==> n in ns;
      FieldRoundTrip(init, i, data, pos);
    }
  }

  /** What has been written for an entry is read back, with a normal mode, up to the end of the padding. */
  lemma {:induction false} EntryRoundTrip(enc: Encoding, e: IndexEntry, data: seq<Byte>, start: nat)
    requires Fits(enc, e) && Holds(data, start, EntryBytes(enc, e))
    ensures ParseEntry(enc, data, start) == Some(Parsed(e.(mode := Normal(e.mode)), start + |EntryBytes(enc, e)|))
  {
    hide Numbers, Field, Find, BigEndianBytes, BigEndian, Normal, EntryBytes, Unpadded;
    var oid, path := enc.oidBytes(e.oid), enc.pathBytes(e.path);
    var atFlags := start + 40 + enc.byteLen;
    PartsHeld(enc, e, data, start);
    FindAfter(data, atFlags + 2, path, 0);
    FieldsHeld(e, data, start, enc);
    FlagsHeld(e.flags, data, atFlags);
    HoldsParts(data, atFlags + 2, path, [0]);
    assert data[start + 40..atFlags] == oid && data[atFlags + 2..atFlags + 2 + |path|] == path;
    EntrySize(enc, e);
    StatHeld(e, data, start);
  }

  lemma StatHeld(e: IndexEntry, data: seq<Byte>, start: nat)
    requires start + 40 <= |data| && forall i :: 0 <= i < 10 ==> Field(data, start, i) == Fields(e)[i]
    ensures e.stat == Stat(Field(data, start, 0), Field(data, start, 1), Field(data, start, 2), Field(data, start, 3),
            Field(data, start, 4),
                           Field(data, start, 5), Field(data, start, 7), Field(data, start, 8), Field(data, start, 9))
    ensures Field(data, start, 6) == e.mode
  {
    hide Field;
  }

  lemma EntrySize(enc: Encoding, e: IndexEntry)
    requires |enc.oidBytes(e.oid)| == enc.byteLen
    ensures var size := 40 + enc.byteLen + 2 + |enc.pathBytes(e.path)| + 1; |EntryBytes(enc, e)| == size + Padding(size)
  {
  }

  lemma PartsHeld(enc: Encoding, e: IndexEntry, data: seq<Byte>, start: nat)
    requires Fits(enc, e) && Holds(data, start, EntryBytes(enc, e))
    ensures start + |EntryBytes(enc, e)| <= |data| && start + 40 + enc.byteLen + 2 <= |data|
    ensures Holds(data, start, Numbers(Fields(e))) && Holds(data, start + 40, enc.oidBytes(e.oid))
    ensures Holds(data, start + 40 + enc.byteLen, BigEndianBytes(e.flags, 2))
    ensures Holds(data, start + 40 + enc.byteLen + 2, enc.pathBytes(e.path) + [0])
  {
    hide Numbers, Fields, BigEndianBytes, Holds;
    var fields, oid, flags, path := Numbers(Fields(e)), enc.oidBytes(e.oid), BigEndianBytes(e.flags, 2),
        enc.pathBytes(e.path);
    HoldsBound(data, start, EntryBytes(enc, e));
    HoldsParts(data, start, Unpadded(enc, e), Zeros(Padding(|Unpadded(enc, e)|)));
    assert Unpadded(enc, e) == fields + oid + flags + (path + [0]);
    HoldsParts(data, start, fields + oid + flags, path + [0]);
    HoldsParts(data, start, fields + oid, flags);
    HoldsParts(data, start, fields, oid);
    HoldsBound(data, start + 40 + enc.byteLen, flags);
  }

  lemma FieldsHeld(e: IndexEntry, data: seq<Byte>, start: nat, enc: Encoding)
    requires Fits(enc, e) && Holds(data, start, Numbers(Fields(e))) && start + 40 <= |data|
    ensures forall i :: 0 <= i < 10 ==> Field(data, start, i) == Fields(e)[i]
  {
    forall i | 0 <= i < 10
      ensures Field(data, start, i) == Fields(e)[i]
    {
      FieldRoundTrip(Fields(e), i, data, start);
    }
  }

  lemma FlagsHeld(flags: nat, data: seq<Byte>, pos: nat)
    requires flags < 0x1_0000 && Holds(data, pos, BigEndianBytes(flags, 2))
    ensures pos + 2 <= |data| && BigEndian(data[pos..pos + 2]) == flags
  {
    assert Power(256, 2) == 0x1_0000;
    BigEndianRoundTrip(flags, 2);
  }

  /** Where everything is in an entry: ten numbers of four bytes, the oid at byte 40, two bytes of flags, the path, and
      then zeros, one at least, up to a multiple of eight bytes. */
  lemma EntryLayout(enc: Encoding, e: IndexEntry)
    requires Fits(enc, e)
    ensures |EntryBytes(enc, e)| >= 43 + enc.byteLen + |enc.pathBytes(e.path)|
    ensures |EntryBytes(enc, e)| % 8 == 0 && |EntryBytes(enc, e)| <= 50 + enc.byteLen + |enc.pathBytes(e.path)|
    ensures var b := EntryBytes(enc, e);
            && [BigEndian(b[0..4]), BigEndian(b[4..8]), BigEndian(b[8..12]), BigEndian(b[12..16])]
               == [e.stat.ctimeSecs, e.stat.ctimeNsecs, e.stat.mtimeSecs, e.stat.mtimeNsecs]
            && [BigEndian(b[16..20]), BigEndian(b[20..24]), BigEndian(b[24..28]), BigEndian(b[28..32]),
                BigEndian(b[32..36]), BigEndian(b[36..40])]
               == [e.stat.dev, e.stat.ino, e.mode, e.stat.uid, e.stat.gid, e.stat.fileSize]
    ensures var b, oidEnd := EntryBytes(enc, e), 40 + enc.byteLen;
            var pathEnd := oidEnd + 2 + |enc.pathBytes(e.path)|;
            && b[40..oidEnd] == enc.oidBytes(e.oid) && BigEndian(b[oidEnd..oidEnd + 2]) == e.flags
            && b[oidEnd + 2..pathEnd] == enc.pathBytes(e.path) && forall k :: pathEnd <= k < |b| ==> b[k] == 0
  {
    hide EntryBytes, Unpadded, Numbers, BigEndian, BigEndianBytes;
    var b, path := EntryBytes(enc, e), enc.pathBytes(e.path);
    EntrySize(enc, e);
    EntryEnd(enc, e);
    assert Holds(b, 0, b);
    PartsHeld(enc, e, b, 0);
    FieldsHeld(e, b, 0, enc);
    FlagsHeld(e.flags, b, 40 + enc.byteLen);
    HoldsParts(b, 42 + enc.byteLen, path, [0]);
    StatHeld(e, b, 0);
  }

  lemma EntryEnd(enc: Encoding, e: IndexEntry)
    requires |enc.oidBytes(e.oid)| == enc.byteLen
    ensures var b := EntryBytes(enc, e);
            forall k :: 42 + enc.byteLen + |enc.pathBytes(e.path)| <= k < |b| ==> b[k] == 0
  {
    hide Numbers, BigEndianBytes;
  }

  // --------------------------------------------------------------------------
  // Whole files
  // --------------------------------------------------------------------------

  /** The entries of an index after these have been added to an empty one. */
  function Added(es: seq<IndexEntry>): (r: Entries)
    ensures forall p :: p in r ==> |r[p]| == 4
  {
    if es == [] then map[] else WithEntry(Added(es[..|es| - 1]), es[|es| - 1])
  }

  /** r has only slots of entries, and those of es at least. */
  ghost predicate Partial(es: seq<IndexEntry>, entries: Entries, r: Entries)
  {
    && (forall p :: p in r ==> p in entries && |r[p]| == 4 && |entries[p]| == 4)
    && (forall p, s :: p in r && 0 <= s < 4 && r[p][s].Some? ==> r[p][s] == entries[p][s])
    && (forall e :: e in es ==> IsEntry(r, e))
  }

  lemma PartialGrows(es: seq<IndexEntry>, entries: Entries, r: Entries, e: IndexEntry)
    requires GoodEntries(entries) && Partial(es, entries, r) && IsEntry(entries, e)
    requires forall e' :: e' in es ==> IsEntry(entries, e')
    requires forall p :: p in r ==> |r[p]| == 4
    ensures Partial(es + [e], entries, WithEntry(r, e))
  {
    var t := WithEntry(r, e);
    assert GoodSlots(e.path, entries[e.path]);
    forall e' | e' in es + [e]
      ensures IsEntry(t, e')
    {
      if e' != e {
        assert IsEntry(r, e') && IsEntry(entries, e');
        assert e'.path == e.path ==> Stage(e'.flags) != Stage(e.flags);
      }
    }
  }

  lemma {:induction false} AddedIsPartial(es: seq<IndexEntry>, entries: Entries)
    requires GoodEntries(entries) && forall e :: e in es ==> IsEntry(entries, e)
    ensures Partial(es, entries, Added(es))
    decreases |es|
  {
    hide IsEntry, GoodEntries, WithEntry;
    if es != [] {
      var init, last := es[..|es| - 1], es[|es| - 1];
      assert es == init + [last];
      assert forall e :: e in init ==> e in es;
      AddedIsPartial(init, entries);
      PartialGrows(init, entries, Added(init), last);
    }
  }

  /** Adding all entries of an index, in any order, gives the index again. */
  lemma AddedAll(es: seq<IndexEntry>, entries: Entries)
    requires GoodEntries(entries) && Lists(es, entries)
    ensures Added(es) == entries
  {
    AddedIsPartial(es, entries);
    var r := Added(es);
    forall p | p in entries
      ensures p in r && r[p] == entries[p]
    {
      assert GoodSlots(p, entries[p]);
      forall s | 0 <= s < 4 && entries[p][s].Some?
        ensures p in r && r[p][s] == entries[p][s]
      {
        var e := entries[p][s].value;
        assert IsEntry(entries, e) && e in es;
        assert IsEntry(r, e);
      }
      assert forall s :: 0 <= s < 4 ==> r[p][s] == entries[p][s];
    }
  }

  function Normalised(es: seq<IndexEntry>): (r: seq<IndexEntry>)
    ensures |r| == |es|
  {
    seq(|es|, i requires 0 <= i < |es| => es[i].(mode := Normal(es[i].mode)))
  }

  /** Where an entry is in the bytes of all. */
  lemma {:induction false} EntryInAll(enc: Encoding, es: seq<IndexEntry>, i: nat, data: seq<Byte>, pos: nat)
    requires i < |es| && Holds(data, pos, AllBytes(enc, es))
    ensures Holds(data, pos + |AllBytes(enc, es[..i])|, EntryBytes(enc, es[i]))
    ensures |AllBytes(enc, es[..i + 1])| == |AllBytes(enc, es[..i])| + |EntryBytes(enc, es[i])|
    decreases |es|
  {
    hide EntryBytes;
    var init, last := es[..|es| - 1], es[|es| - 1];
    HoldsParts(data, pos, AllBytes(enc, init), EntryBytes(enc, last));
    assert es[..i + 1][..i] == es[..i];
    if i < |es| - 1 {
      assert init[..i] == es[..i];
      EntryInAll(enc, init, i, data, pos);
    }
  }

  /** The letters DIRC, version 2 and the number of entries, and then the entries. */
  lemma FileHolds(enc: Encoding, es: seq<IndexEntry>)
    ensures var data := FileBytes(enc, es);
            && |data| >= 12 && data[..4] == [68, 73, 82, 67] && BigEndian(data[4..8]) == 2
            && (|es| < WIDE ==> BigEndian(data[8..12]) == |es|) && Holds(data, 12, AllBytes(enc, es))
  {
    hide AllBytes;
    var data, all := FileBytes(enc, es), AllBytes(enc, es);
    var bytes := SIGNATURE + BigEndianBytes(VERSION, 4) + BigEndianBytes(|es|, 4) + all;
    assert Holds(data, 0, bytes);
    HoldsParts(data, 0, SIGNATURE + BigEndianBytes(VERSION, 4) + BigEndianBytes(|es|, 4), all);
    HoldsParts(data, 0, SIGNATURE + BigEndianBytes(VERSION, 4), BigEndianBytes(|es|, 4));
    HoldsParts(data, 0, SIGNATURE, BigEndianBytes(VERSION, 4));
    assert Power(256, 4) == WIDE;
    BigEndianRoundTrip(VERSION, 4);
    if |es| < WIDE {
      BigEndianRoundTrip(|es|, 4);
    }
  }

  /** The file has been written for these entries, which fit. */
  ghost predicate WrittenFor(enc: Encoding, es: seq<IndexEntry>, data: seq<Byte>)
  {
    data == FileBytes(enc, es) && |es| < WIDE && forall e :: e in es ==> Fits(enc, e)
  }

  /** What is read, and how far, when i entries have been read. */
  lemma {:induction false} NextRead(enc: Encoding, es: seq<IndexEntry>, data: seq<Byte>, i: nat)
    requires WrittenFor(enc, es, data) && i < |es|
    ensures ParseEntry(enc, data, 12 + |AllBytes(enc, es[..i])|) == Some(Parsed(Normalised(es)[i],
            12 + |AllBytes(enc, es[..i + 1])|))
    ensures Added(Normalised(es)[..i + 1]) == WithEntry(Added(Normalised(es)[..i]), Normalised(es)[i])
  {
    hide FileBytes, ParseEntry, Fits, BigEndian, EntryBytes;
    FileHolds(enc, es);
    EntryInAll(enc, es, i, data, 12);
    EntryRoundTrip(enc, es[i], data, 12 + |AllBytes(enc, es[..i])|);
    assert Normalised(es)[..i + 1][..i] == Normalised(es)[..i];
  }

  lemma NothingRead(enc: Encoding, es: seq<IndexEntry>)
    ensures |AllBytes(enc, es[..0])| == 0 && Added(Normalised(es)[..0]) == map[]
    ensures Added(Normalised(es)[..|es|]) == Added(Normalised(es))
  {
    assert Normalised(es)[..|es|] == Normalised(es);
  }

  /** Read an index; a file that is cut short or of another kind is refused. Of a file that has been written for some
      entries, all are added, with normal modes. */
  method ReadIndex(enc: Encoding, data: seq<Byte>, ghost es: seq<IndexEntry>) returns (idx: Index?)
    requires forall bytes :: enc.pathOf(bytes) != []
    ensures idx != null ==> fresh(idx) && idx.Valid()
    ensures WrittenFor(enc, es, data) ==> idx != null && idx.entries == Added(Normalised(es))
    ensures |data| < 12 || data[..4] != SIGNATURE || BigEndian(data[4..8]) != VERSION ==> idx == null
  {
    hide FileBytes, Index.Valid, ParseEntry, Fits, BigEndian, WithEntry, AllBytes, Added, Normalised;
    FileHolds(enc, es);
    if |data| < 12 || data[..4] != SIGNATURE || BigEndian(data[4..8]) != VERSION {
      return null;
    }
    var count, offset := BigEndian(data[8..12]), 12;
    var r := new Index();
    NothingRead(enc, es);
    for i := 0 to count
      invariant r.Valid() && fresh(r)
      invariant WrittenFor(enc, es, data) ==>
                  offset == 12 + |AllBytes(enc, es[..i])|
                  && r.entries == Added(Normalised(es)[..i])
    {
      if WrittenFor(enc, es, data) {
        NextRead(enc, es, data, i);
      }
      var parsed := ParseEntry(enc, data, offset);
      if parsed == None {
        return null;
      }
      ParsedPath(enc, data, offset);
      r.AddEntry(parsed.value.entry);
      offset := parsed.value.next;
    }
    return r;
  }

  lemma ParsedPath(enc: Encoding, data: seq<Byte>, start: nat)
    requires forall bytes :: enc.pathOf(bytes) != []
    ensures var p := ParseEntry(enc, data, start); p.Some? ==> p.value.entry.path != []
  {
  }

  // --------------------------------------------------------------------------
  // Writing
  // --------------------------------------------------------------------------

  /** Collect all entries, path by path in any order, and stage by stage. */
  method Collect(entries: Entries) returns (es: seq<IndexEntry>)
    requires GoodEntries(entries)
    ensures Lists(es, entries)
  {
    es := [];
    var left := entries.Keys;
    while left != {}
      invariant left <= entries.Keys && Distinct(es) && forall e :: e in es <==> IsEntry(entries, e) && e.path !in left
      decreases |left|
    {
      var p :| p in left;
      left := left - {p};
      assert GoodSlots(p, entries[p]);
      for s := 0 to 4
        invariant Distinct(es)
        invariant forall e :: e in es <==>
                              IsEntry(entries, e) && e.path !in left && (e.path == p ==> Stage(e.flags) < s)
      {
        if entries[p][s].Some? {
          es := es + [entries[p][s].value];
        }
      }
    }
  }

  lemma PrecedesIsOrder(enc: Encoding, a: IndexEntry, b: IndexEntry, c: IndexEntry)
    ensures Precedes(enc, a, b) ==> !Precedes(enc, b, a)
    ensures !Precedes(enc, a, b) && !Precedes(enc, b, c) ==> !Precedes(enc, a, c)
  {
    var x, y, z := enc.pathBytes(a.path), enc.pathBytes(b.path), enc.pathBytes(c.path);
    CompareFlipped(x, y);
    CompareFlipped(y, z);
    CompareFlipped(x, z);
    CompareEqual(x, y);
    CompareEqual(y, z);
    CompareEqual(x, z);
    if Compare(z, y) < 0 && Compare(y, x) < 0 {
      CompareTransitive(z, y, x);
    }
  }

  lemma OrderIsOrder(enc: Encoding)
    ensures IsOrder(Order(enc))
  {
    hide Precedes;
    forall a, b
      ensures Order(enc)(a, b) ==> !Order(enc)(b, a)
    {
      PrecedesIsOrder(enc, a, b, a);
    }
    forall a, b, c
      ensures !Order(enc)(a, b) && !Order(enc)(b, c) ==> !Order(enc)(a, c)
    {
      PrecedesIsOrder(enc, a, b, c);
    }
  }

  /** Write one entry: ten numbers, the oid, the flags, the path with its NUL, and zeros up to a multiple of eight. */
  method WriteEntry(enc: Encoding, e: IndexEntry, buf: seq<Byte>) returns (r: seq<Byte>)
    ensures r == buf + EntryBytes(enc, e)
  {
    r := buf;
    var fields := Fields(e);
    for i := 0 to |fields|
      invariant r == buf + Numbers(fields[..i])
    {
      assert fields[..i + 1][..i] == fields[..i];
      r := r + BigEndianBytes(fields[i], 4);
    }
    assert fields[..|fields|] == fields;
    r := r + enc.oidBytes(e.oid);
    r := r + BigEndianBytes(e.flags, 2);
    r := r + enc.pathBytes(e.path);
    r := r + [0];
    assert r == buf + Unpadded(enc, e);
    var size := |r| - |buf|;
    var padding := (8 - size % 8) % 8;
    for i := 0 to padding
      invariant r == buf + Unpadded(enc, e) + Zeros(i)
    {
      r := r + [0];
    }
  }

  /** Write all entries of an index. */
  method Write(enc: Encoding, entries: Entries) returns (file: seq<Byte>)
    requires GoodEntries(entries)
    ensures exists es :: Lists(es, entries) && ByPathAndStage(enc, es) && file == FileBytes(enc, es)
  {
    hide ByPathAndStage, EntryBytes, Precedes, Order, Ordered, IsOrder, GoodEntries, IsEntry, BigEndianBytes;
    var collected := Collect(entries);
    OrderIsOrder(enc);
    var sorted := Sort(Order(enc), collected);
    OrderedByPath(enc, sorted);
    var header := SIGNATURE + BigEndianBytes(VERSION, 4) + BigEndianBytes(|sorted|, 4);
    var buf := header;
    for i := 0 to |sorted|
      invariant buf == header + AllBytes(enc, sorted[..i])
    {
      assert sorted[..i + 1][..i] == sorted[..i];
      buf := WriteEntry(enc, sorted[i], buf);
    }
    assert sorted[..|sorted|] == sorted;
    assert Lists(sorted, entries);
    return buf + enc.checksum(buf);
  }

  /** What has been written is read back: every entry in its slot, and the same directory maps. */
  method RoundTrip(enc: Encoding, idx: Index) returns (read: Index?)
    requires idx.Valid() && forall bytes :: enc.pathOf(bytes) != []
    requires forall e :: IsEntry(idx.entries, e) ==> Fits(enc, e) && Normal(e.mode) == e.mode
    requires forall es :: Lists(es, idx.entries) ==> |es| < WIDE
    ensures read != null && read.Valid() && read.entries == idx.entries
    ensures read.dirToPaths == idx.dirToPaths && read.dirToChildren == idx.dirToChildren
            && read.rootChildren == idx.rootChildren
  {
    hide FileBytes, Fits, Normal, IsEntry, ByPathAndStage;
    var file := Write(enc, idx.entries);
    ghost var es :| Lists(es, idx.entries) && ByPathAndStage(enc, es) && file == FileBytes(enc, es);
    forall i | 0 <= i < |es|
      ensures Normalised(es)[i] == es[i]
    {
      assert es[i] in es && IsEntry(idx.entries, es[i]);
    }
    assert Normalised(es) == es;
    AddedAll(es, idx.entries);
    read := ReadIndex(enc, file, es);
    MapsAgreeOnce(idx.entries.Keys, read.dirToPaths, read.dirToChildren, read.rootChildren, idx.dirToPaths,
        idx.dirToChildren, idx.rootChildren);
  }
}
