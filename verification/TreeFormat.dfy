/** Tree objects as bytes: what treeBuilder writes and parseTree reads (object.go). */
module TreeFormat {
  import opened Common
  import opened Bytes
  import opened Paths
  import opened Trees

  /** How names and oids are written as bytes. */
  datatype TreeCodec = TreeCodec(byteLen: nat, oidBytes: Oid -> seq<Byte>, oidOf: seq<Byte> -> Oid,
                                 nameBytes: Name -> seq<Byte>, nameOf: seq<Byte> -> Name)

  const SPACE: Byte := 32
  const DIRECTORY: Mode := 0x4000
  const PLAIN: Mode := 0x81A4
  const EXECUTABLE: Mode := 0x81ED
  const SYMLINK: Mode := 0xA000
  const GITLINK: Mode := 0xE000

  /** The mode that is written for a mode. */
  function Written(m: Mode): Mode
  {
    if ObjType(m) == 4 then DIRECTORY
    else if ObjType(m) == 8 && m % 512 == 0x1ED then EXECUTABLE
    else if ObjType(m) == 10 then SYMLINK
    else if ObjType(m) == 14 then GITLINK
    else PLAIN
  }

  /** A mode as text: 40000, 100755, 120000, 160000 or 100644. */
  function ModeText(m: Mode): seq<Byte>
  {
    if ObjType(m) == 4 then [52, 48, 48, 48, 48]
    else if ObjType(m) == 8 && m % 512 == 0x1ED then [49, 48, 48, 55, 53, 53]
    else if ObjType(m) == 10 then [49, 50, 48, 48, 48, 48]
    else if ObjType(m) == 14 then [49, 54, 48, 48, 48, 48]
    else [49, 48, 48, 54, 52, 52]
  }

  /** Trees, symbolic links and gitlinks keep their type; everything else becomes a regular file, executable when it is
      one that everybody may execute. What is written is one of git's five modes, and writing it again keeps it. */
  lemma WrittenModes(m: Mode)
    ensures Written(m) in {0x4000, 0x81A4, 0x81ED, 0xA000, 0xE000} && Written(Written(m)) == Written(m)
    ensures ObjType(Written(m)) == if ObjType(m) in {4, 10, 14} then ObjType(m) else 8
    ensures Written(m) == 0x81ED <==> ObjType(m) == 8 && m % 512 == 0x1ED
  {
  }

  /** The digits from i on, after n. */
  function Octal(s: seq<Byte>, i: nat, n: nat): Option<nat>
    requires i <= |s|
    decreases |s| - i
  {
    if i == |s| then Some(n)
    else if 48 <= s[i] < 56 then Octal(s, i + 1, n * 8 + s[i] - 48)
    else None
  }

  /** An octal number of at most 32 bits. */
  function ParseOctal(s: seq<Byte>): Option<nat>
  {
    if s == [] then None
    else match Octal(s, 0, 0)
         case None => None
         case Some(n) => if n < 0x1_0000_0000 then Some(n) else None
  }

  lemma OctalOfFour(s: seq<Byte>, i: nat, n: nat)
    requires i + 4 == |s| && forall k :: i <= k < |s| ==> 48 <= s[k] < 56
    ensures Octal(s, i, n) == Some((((n * 8 + s[i] - 48) * 8 + s[i + 1] - 48) * 8 + s[i + 2] - 48) * 8 + s[i + 3] - 48)
  {
    var a := n * 8 + s[i] - 48;
    var b := a * 8 + s[i + 1] - 48;
    var c := b * 8 + s[i + 2] - 48;
    assert Octal(s, i + 3, c) == Octal(s, i + 4, c * 8 + s[i + 3] - 48);
    assert Octal(s, i + 2, b) == Octal(s, i + 3, c);
    assert Octal(s, i + 1, a) == Octal(s, i + 2, b);
  }

  lemma ModeRoundTrip(m: Mode)
    ensures ParseOctal(ModeText(m)) == Some(Written(m)) && SPACE !in ModeText(m)
  {
    var s := ModeText(m);
    if |s| == 5 {
      OctalOfFour(s, 1, 4);
    } else {
      OctalOfFour(s, 2, 8 + s[1] - 48);
      assert Octal(s, 1, 1) == Octal(s, 2, 8 + s[1] - 48);
    }
  }

  function EntryBytes(codec: TreeCodec, e: ContentEntry): seq<Byte>
  {
    ModeText(e.entry.mode) + [SPACE] + codec.nameBytes(e.name) + [0] + codec.oidBytes(e.entry.oid)
  }

  /** The bytes of the entry of a file and of a directory: "100644 name" or "40000 name", a NUL and the oid. */
  lemma EntryStarts(codec: TreeCodec, e: ContentEntry)
    ensures var rest := codec.nameBytes(e.name) + [0] + codec.oidBytes(e.entry.oid);
            && (e.entry.mode == 0x81A4 ==> EntryBytes(codec, e) == [49, 48, 48, 54, 52, 52, 32] + rest)
            && (e.entry.mode == 0x81ED ==> EntryBytes(codec, e) == [49, 48, 48, 55, 53, 53, 32] + rest)
            && (e.entry.mode == 0x4000 ==> EntryBytes(codec, e) == [52, 48, 48, 48, 48, 32] + rest)
  {
    var rest := codec.nameBytes(e.name) + [0] + codec.oidBytes(e.entry.oid);
    assert EntryBytes(codec, e) == ModeText(e.entry.mode) + [SPACE] + rest;
  }

  function TreeBytes(codec: TreeCodec, es: seq<ContentEntry>): seq<Byte>
  {
    if es == [] then [] else EntryBytes(codec, es[0]) + TreeBytes(codec, es[1..])
  }

  /** An entry that fits: an oid of the length of the repository, a name without NUL. */
  ghost predicate Fits(codec: TreeCodec, e: ContentEntry)
  {
    && |codec.oidBytes(e.entry.oid)| == codec.byteLen && codec.oidOf(codec.oidBytes(e.entry.oid)) == e.entry.oid
    && 0 !in codec.nameBytes(e.name) && codec.nameOf(codec.nameBytes(e.name)) == e.name
  }

  datatype Parsed = Parsed(entry: ContentEntry, next: nat)

  function ParseEntry(codec: TreeCodec, data: seq<Byte>, pos: nat): (r: Option<Parsed>)
    requires pos <= |data|
    ensures r.Some? ==> pos < r.value.next <= |data|
  {
    match Find(data, pos, SPACE)
    case None => None
    case Some(space) =>
      match Find(data, space + 1, 0)
      case None => None
      case Some(nul) =>
        var end := nul + 1 + codec.byteLen;
        if end > |data| then None
        else
          match ParseOctal(data[pos..space])
          case None => None
          case Some(mode) =>
            Some(Parsed(ContentEntry(codec.nameOf(data[space + 1..nul]),
                TreeEntry(codec.oidOf(data[nul + 1..end]), mode)), end))
  }

  /** All entries from a position on. */
  function Entries(codec: TreeCodec, data: seq<Byte>, pos: nat): Option<seq<ContentEntry>>
    requires pos <= |data|
    decreases |data| - pos
  {
    if pos == |data| then Some([])
    else
      match ParseEntry(codec, data, pos)
      case None => None
      case Some(p) =>
        match Entries(codec, data, p.next)
        case None => None
        case Some(es) => Some([p.entry] + es)
  }

  function AsWritten(e: ContentEntry): ContentEntry
  {
    ContentEntry(e.name, TreeEntry(e.entry.oid, Written(e.entry.mode)))
  }

  /** Where the parts of an entry are found. */
  lemma PartsFound(data: seq<Byte>, pos: nat, mode: seq<Byte>, name: seq<Byte>, oid: seq<Byte>)
    requires SPACE !in mode && 0 !in name && Holds(data, pos, (mode + [SPACE]) + (name + [0]) + oid)
    ensures var space, nul, end := pos + |mode|, pos + |mode| + 1 + |name|, pos + |mode| + |name| + 2 + |oid|;
            && end <= |data| && Find(data, pos, SPACE) == Some(space) && Find(data, space + 1, 0) == Some(nul)
            && data[pos..space] == mode && data[space + 1..nul] == name && data[nul + 1..end] == oid
  {
    hide Find;
    var space := pos + |mode|;
    HoldsParts(data, pos, mode + [SPACE] + (name + [0]), oid);
    HoldsParts(data, pos, mode + [SPACE], name + [0]);
    FindAfter(data, pos, mode, SPACE);
    FindAfter(data, space + 1, name, 0);
    HoldsParts(data, pos, mode, [SPACE]);
    HoldsParts(data, space + 1, name, [0]);
  }

  lemma EntryRoundTrip(codec: TreeCodec, e: ContentEntry, data: seq<Byte>, pos: nat)
    requires Fits(codec, e) && Holds(data, pos, EntryBytes(codec, e))
    ensures pos + |EntryBytes(codec, e)| <= |data|
    ensures ParseEntry(codec, data, pos) == Some(Parsed(AsWritten(e), pos + |EntryBytes(codec, e)|))
  {
    hide ModeText, Find, ParseOctal, Written, Holds;
    var mode, name, oid := ModeText(e.entry.mode), codec.nameBytes(e.name), codec.oidBytes(e.entry.oid);
    assert EntryBytes(codec, e) == (mode + [SPACE]) + (name + [0]) + oid;
    ModeRoundTrip(e.entry.mode);
    PartsFound(data, pos, mode, name, oid);
  }

  /** What has been written for entries is read back, with the modes that are written. */
  lemma {:induction false} TreeRoundTrip(codec: TreeCodec, es: seq<ContentEntry>, data: seq<Byte>, pos: nat)
    requires (forall e :: e in es ==> Fits(codec, e)) && Holds(data, pos, TreeBytes(codec, es))
             && pos + |TreeBytes(codec, es)| == |data|
    ensures match Entries(codec, data, pos)
            case None => false
            case Some(read) => |read| == |es| && forall i :: 0 <= i < |es| ==> read[i] == AsWritten(es[i])
    decreases |es|
  {
    hide EntryBytes, ParseEntry, Fits, AsWritten;
    if es != [] {
      HoldsParts(data, pos, EntryBytes(codec, es[0]), TreeBytes(codec, es[1..]));
      EntryRoundTrip(codec, es[0], data, pos);
      assert forall e :: e in es[1..] ==> e in es;
      TreeRoundTrip(codec, es[1..], data, pos + |EntryBytes(codec, es[0])|);
    }
  }

  /** The bytes of a tree object determine its entries, so a hash that tells byte strings apart tells apart
      all trees with entries that fit. */
  lemma HashTellsTreesApart(codec: TreeCodec, hash: seq<Byte> -> Oid, s: seq<ContentEntry>, t: seq<ContentEntry>)
    requires forall e :: e in s + t ==> Fits(codec, e) && Written(e.entry.mode) == e.entry.mode
    requires forall x, y :: hash(x) == hash(y) ==> x == y
    requires hash(TreeBytes(codec, s)) == hash(TreeBytes(codec, t))
    ensures s == t
  {
    hide Fits, TreeBytes, Entries, Written;
    var data := TreeBytes(codec, s);
    assert data == TreeBytes(codec, t);
    assert forall e :: e in s || e in t ==> e in s + t;
    TreeRoundTrip(codec, s, data, 0);
    TreeRoundTrip(codec, t, data, 0);
    forall i | 0 <= i < |s|
      ensures s[i] == t[i]
    {
      assert s[i] in s && t[i] in t;
    }
  }

  /** Read a tree object. */
  method ParseTree(codec: TreeCodec, data: seq<Byte>) returns (r: Option<seq<ContentEntry>>)
    ensures r == Entries(codec, data, 0)
  {
    hide ParseEntry;
    var es, pos := [], 0;
    assert Entries(codec, data, 0).Some? ==> [] + Entries(codec, data, 0).value == Entries(codec, data, 0).value;
    while pos < |data|
      invariant pos <= |data|
      invariant match Entries(codec, data, pos)
                case None => Entries(codec, data, 0) == None
                case Some(rest) => Entries(codec, data, 0) == Some(es + rest)
      decreases |data| - pos
    {
      var p := ParseEntry(codec, data, pos);
      if p == None {
        return None;
      }
      ghost var rest := Entries(codec, data, p.value.next);
      assert rest.Some? ==> es + ([p.value.entry] + rest.value) == es + [p.value.entry] + rest.value;
      es, pos := es + [p.value.entry], p.value.next;
    }
    assert es + [] == es;
    return Some(es);
  }
}
