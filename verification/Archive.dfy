/** The CIC1 archive: four magic bytes, a big-endian length, a JSON header, then the bodies of
    the files in header order, compressed as one blob (archive.rs). */
module Archive {
  import opened Prelude
  import opened Paths
  import opened FileTree
  import opened Compression

  datatype ArchiveEntry = ArchiveEntry(path: string, size: nat, mode: Option<nat>)

  datatype ArchiveHeader = ArchiveHeader(entries: seq<ArchiveEntry>, totalSize: nat)

  /** Every number fits the field it is stored in. */
  ghost predicate Fits(h: ArchiveHeader) {
    h.totalSize < U64 && forall i :: 0 <= i < |h.entries| ==> h.entries[i].size < U64
  }

  /** serde_json on headers, and the compression libraries. */
  datatype Library = Library(
    toJson: ArchiveHeader -> Bytes,
    fromJson: Bytes -> Option<ArchiveHeader>,
    codec: Codec)

  /** Hypotheses on the libraries: what they write they read back, and numbers read fit. */
  ghost predicate Faithful(lib: Library) {
    && (forall h :: Fits(h) ==> lib.fromJson(lib.toJson(h)) == Some(h))
    && (forall b :: lib.fromJson(b).Some? ==> Fits(lib.fromJson(b).value))
    && Lossless(lib.codec)
  }

  datatype ArchiveError = TooShort | BadMagic | TruncatedHeader | BadJson | TooLarge(limit: nat)

  // ---- Header bytes ----

  const MAGIC: Bytes := [0x43, 0x49, 0x43, 0x31]

  function ToBigEndian(n: nat): (b: Bytes)
    requires n < U32
    ensures |b| == 4
  {
    var q1 := n / 0x100;
    var q2 := q1 / 0x100;
    [(q2 / 0x100) as byte, (q2 % 0x100) as byte, (q1 % 0x100) as byte, (n % 0x100) as byte]
  }

  function FromBigEndian(b: Bytes): (n: nat)
    requires |b| == 4
    ensures n < U32
  {
    b[0] as nat * 0x100_0000 + b[1] as nat * 0x1_0000 + b[2] as nat * 0x100 + b[3] as nat
  }

  lemma BigEndianRoundTrip(n: nat)
    requires n < U32
    ensures FromBigEndian(ToBigEndian(n)) == n
  {}

  /** `json.len() as u32` keeps the low 32 bits. */
  function Framed(json: Bytes): Bytes {
    MAGIC + ToBigEndian(|json| % U32) + json
  }

  function ToBytes(lib: Library, h: ArchiveHeader): Bytes {
    Framed(lib.toJson(h))
  }

  /** The header and the offset of the first body. */
  function FromBytes(lib: Library, data: Bytes): Result<(ArchiveHeader, nat), ArchiveError> {
    if |data| < 8 then Err(TooShort)
    else if data[..4] != MAGIC then Err(BadMagic)
    else
      var len := FromBigEndian(data[4..8]);
      if |data| < 8 + len then Err(TruncatedHeader)
      else match lib.fromJson(data[8..8 + len])
        case None => Err(BadJson)
        case Some(h) => Ok((h, 8 + len))
  }

  lemma FramedLayout(json: Bytes, bodies: Bytes)
    ensures var raw := Framed(json) + bodies;
            && |raw| == 8 + |json| + |bodies|
            && raw[..4] == MAGIC
            && raw[4..8] == ToBigEndian(|json| % U32)
            && raw[8..] == json + bodies
  {}

  /** A prefix of an archive parses exactly as far as it contains the header. */
  lemma PrefixParses(lib: Library, h: ArchiveHeader, bodies: Bytes, cut: nat)
    requires |lib.toJson(h)| < U32 && cut <= 8 + |lib.toJson(h)| + |bodies|
    ensures var json := lib.toJson(h);
            var raw := ToBytes(lib, h) + bodies;
            && |raw| == 8 + |json| + |bodies|
            && if cut < 8 then FromBytes(lib, raw[..cut]) == Err(TooShort)
               else if cut < 8 + |json| then FromBytes(lib, raw[..cut]) == Err(TruncatedHeader)
               else FromBytes(lib, raw[..cut])
                    == match lib.fromJson(json)
                       case None => Err(BadJson)
                       case Some(back) => Ok((back, 8 + |json|))
  {
    hide Framed, ToBigEndian, FromBigEndian;
    var json := lib.toJson(h);
    FramedLayout(json, bodies);
    BigEndianRoundTrip(|json|);
    CutLayout(Framed(json) + bodies, json, bodies, cut);
  }

  lemma CutLayout(raw: Bytes, json: Bytes, bodies: Bytes, cut: nat)
    requires |raw| >= 8 && raw[8..] == json + bodies && cut <= |raw|
    ensures cut >= 8 ==> raw[..cut][..4] == raw[..4] && raw[..cut][4..8] == raw[4..8]
    ensures cut >= 8 + |json| ==> raw[..cut][8..8 + |json|] == json
  {
    if cut >= 8 + |json| {
      assert raw[..cut][8..8 + |json|] == raw[8..][..|json|];
    }
  }

  /** The format, byte by byte, for every input: "CIC1", the length of the JSON in four bytes, the
      most significant first, the JSON, then the rest. What is too short or starts otherwise is
      refused, in this order. */
  lemma FormatExactly(lib: Library, data: Bytes)
    ensures var r := FromBytes(lib, data);
            if |data| < 8 then r == Err(TooShort)
            else if data[0] != 67 || data[1] != 73 || data[2] != 67 || data[3] != 49 then r == Err(BadMagic)
            else
              var n := ((data[4] as nat * 256 + data[5] as nat) * 256 + data[6] as nat) * 256 + data[7] as nat;
              if |data| < 8 + n then r == Err(TruncatedHeader)
              else if lib.fromJson(data[8..8 + n]).None? then r == Err(BadJson)
              else r == Ok((lib.fromJson(data[8..8 + n]).value, 8 + n))
  {
    if |data| >= 8 {
      assert data[..4] == [data[0], data[1], data[2], data[3]];
    }
  }

  /** And what is written starts so. */
  lemma WrittenExactly(lib: Library, h: ArchiveHeader)
    ensures var json, bytes := lib.toJson(h), ToBytes(lib, h);
            && |bytes| == 8 + |json| && bytes[8..] == json
            && bytes[0] == 67 && bytes[1] == 73 && bytes[2] == 67 && bytes[3] == 49
            && ((bytes[4] as nat * 256 + bytes[5] as nat) * 256 + bytes[6] as nat) * 256 + bytes[7] as nat
               == |json| % 0x1_0000_0000
  {
    var json, bytes := lib.toJson(h), ToBytes(lib, h);
    FramedLayout(json, []);
    assert Framed(json) + [] == bytes;
    BigEndianRoundTrip(|json| % U32);
    assert forall i :: 0 <= i < 4 ==> bytes[..4][i] == bytes[i];
    assert forall i :: 0 <= i < 4 ==> bytes[4..8][i] == bytes[4 + i];
    hide Framed, ToBigEndian;
  }

  /** Reading back what was written gives the header and the offset of the bodies exactly when
      the JSON is shorter than 2^32 bytes; the length field cannot say more. */
  lemma HeaderRoundTrip(lib: Library, h: ArchiveHeader, bodies: Bytes)
    requires Faithful(lib) && Fits(h)
    ensures FromBytes(lib, ToBytes(lib, h) + bodies) == Ok((h, |ToBytes(lib, h)|)) <==> |lib.toJson(h)| < U32
  {
    var json := lib.toJson(h);
    var raw := ToBytes(lib, h) + bodies;
    FramedLayout(json, bodies);
    FramedLayout(json, []);
    assert ToBytes(lib, h) + [] == ToBytes(lib, h);
    if |json| < U32 {
      PrefixParses(lib, h, bodies, |raw|);
      assert raw[..|raw|] == raw;
    } else {
      BigEndianRoundTrip(|json| % U32);
    }
  }

  // ---- Building an archive ----

  function ForwardSlashes(s: string): string {
    if s == "" then "" else [if s[0] == '\\' then '/' else s[0]] + ForwardSlashes(s[1..])
  }

  /** The path text of an entry: names joined by slashes, then backslashes turned into slashes. */
  function EntryText(p: Path): string {
    ForwardSlashes(JoinNames(p))
  }

  /** The modes the files have; permissions are not followed further. */
  type Modes = Path -> Option<nat>

  function Body(l: Listing, p: Path): Bytes {
    match FileAt(l, p)
    case None => []
    case Some(data) => data
  }

  function EntryOf(l: Listing, modes: Modes, p: Path): ArchiveEntry {
    ArchiveEntry(EntryText(p), |Body(l, p)|, modes(p))
  }

  function EntriesOf(l: Listing, modes: Modes, files: seq<Path>): (es: seq<ArchiveEntry>)
    ensures |es| == |files|
    ensures forall i :: 0 <= i < |files| ==> es[i] == EntryOf(l, modes, files[i])
  {
    seq(|files|, i requires 0 <= i < |files| => EntryOf(l, modes, files[i]))
  }

  function Bodies(l: Listing, files: seq<Path>): Bytes {
    if files == [] then [] else Body(l, files[0]) + Bodies(l, files[1..])
  }

  function Total(l: Listing, files: seq<Path>): nat {
    if files == [] then 0 else |Body(l, files[0])| + Total(l, files[1..])
  }

  function HeaderOf(l: Listing, modes: Modes, files: seq<Path>): ArchiveHeader {
    ArchiveHeader(EntriesOf(l, modes, files), Total(l, files))
  }

  /** What `create_archive_from_dir` compresses when it walks `files` in this order. */
  function RawArchive(lib: Library, l: Listing, modes: Modes, files: seq<Path>): Bytes {
    ToBytes(lib, HeaderOf(l, modes, files)) + Bodies(l, files)
  }

  function Created(lib: Library, l: Listing, modes: Modes, files: seq<Path>, a: Algorithm, max: nat)
    : Result<(Bytes, ArchiveHeader), ArchiveError>
  {
    if Total(l, files) > max then Err(TooLarge(max))
    else Ok((Compress(lib.codec, a, RawArchive(lib, l, modes, files)), HeaderOf(l, modes, files)))
  }

  lemma {:induction false} BodiesSnoc(l: Listing, files: seq<Path>, p: Path)
    ensures Bodies(l, files + [p]) == Bodies(l, files) + Body(l, p)
    ensures Total(l, files + [p]) == Total(l, files) + |Body(l, p)|
  {
    hide Body;
    if files == [] {
      assert [] + [p] == [p] && [p][1..] == [];
    } else {
      var all := files + [p];
      assert all[0] == files[0] && all[1..] == files[1..] + [p];
      BodiesSnoc(l, files[1..], p);
      assert Body(l, files[0]) + (Bodies(l, files[1..]) + Body(l, p)) == Bodies(l, files) + Body(l, p);
    }
  }

  lemma {:induction false} TotalSplit(l: Listing, files: seq<Path>, i: nat)
    requires i <= |files|
    ensures Total(l, files) == Total(l, files[..i]) + Total(l, files[i..])
  {
    if i == 0 {
      assert files[0..] == files;
    } else {
      assert files[..i][1..] == files[1..][..i - 1];
      assert files[i..] == files[1..][i - 1..];
      TotalSplit(l, files[1..], i - 1);
    }
  }

  lemma {:induction false} BodiesLength(l: Listing, files: seq<Path>)
    ensures |Bodies(l, files)| == Total(l, files)
  {
    if files != [] {
      BodiesLength(l, files[1..]);
    }
  }

  /** What the header of an archive lists: each file walked, with its names joined by slashes, its
      length and its mode, and the bytes of them all; and when there is none. */
  lemma ListedExactly(lib: Library, l: Listing, modes: Modes, files: seq<Path>, a: Algorithm, max: nat, i: nat)
    requires i < |files| && FileAt(l, files[i]).Some?
    ensures var r := Created(lib, l, modes, files, a, max);
            && (r.Err? <==> Total(l, files) > max) && (r.Err? ==> r.error == TooLarge(max))
            && (r.Ok? ==>
                  var (blob, h) := r.value;
                  && blob == Compress(lib.codec, a, ToBytes(lib, h) + Bodies(l, files))
                  && |h.entries| == |files| && h.totalSize == |Bodies(l, files)|
                  && h.entries[i].size == |FileAt(l, files[i]).value| && h.entries[i].mode == modes(files[i])
                  && |h.entries[i].path| == |JoinNames(files[i])|
                  && forall k :: 0 <= k < |h.entries[i].path| ==>
                       h.entries[i].path[k] == if JoinNames(files[i])[k] == '\\' then '/' else JoinNames(files[i])[k])
  {
    hide Total, Bodies, ToBytes, Compress, FileAt, JoinNames;
    BodiesLength(l, files);
    ForwardSlashesExactly(JoinNames(files[i]));
  }

  lemma {:induction false} ForwardSlashesExactly(s: string)
    ensures |ForwardSlashes(s)| == |s|
    ensures forall k :: 0 <= k < |s| ==> ForwardSlashes(s)[k] == if s[k] == '\\' then '/' else s[k]
  {
    if s != "" {
      ForwardSlashesExactly(s[1..]);
      assert forall k :: 1 <= k < |s| ==> s[k] == s[1..][k - 1];
    }
  }

  /** `create_archive_from_dir`. `files` is the order in which the walk found the files. */
  method CreateArchive(lib: Library, root: Option<Listing>, modes: Modes, a: Algorithm, max: nat)
    returns (r: Result<(Bytes, ArchiveHeader), ArchiveError>, ghost files: seq<Path>)
    requires WellNamed(Contents(root)) && max < U64
    ensures multiset(files) == multiset(FilesIn(Contents(root), []))
    ensures r == Created(lib, Contents(root), modes, files, a, max)
  {
    hide Created, ToBytes, Total, Bodies, FilesIn, Contents, FileAt, WellNamed;
    var l := Contents(root);
    var walked := WalkFiles(root);
    files := walked;
    var entries: seq<ArchiveEntry> := [];
    var total: nat := 0;
    EmptyTotal(l);
    for i := 0 to |walked|
      invariant entries == EntriesOf(l, modes, walked[..i])
      invariant total == Total(l, walked[..i]) <= max
    {
      assert walked[..i + 1] == walked[..i] + [walked[i]];
      BodiesSnoc(l, walked[..i], walked[i]);
      TotalSplit(l, walked, i + 1);
      var size := |Body(l, walked[i])|;
      // checked_add, then the limit: either refusal reports the limit
      if total + size >= U64 || total + size > max {
        TooLargeAlready(lib, l, modes, walked, a, max);
        return Err(TooLarge(max)), files;
      }
      total := total + size;
      entries := entries + [EntryOf(l, modes, walked[i])];
    }
    assert walked[..|walked|] == walked;
    var header := ArchiveHeader(entries, total);
    var raw := ToBytes(lib, header);
    for i := 0 to |walked|
      invariant raw == ToBytes(lib, header) + Bodies(l, walked[..i])
    {
      assert walked[..i + 1] == walked[..i] + [walked[i]];
      BodiesSnoc(l, walked[..i], walked[i]);
      raw := raw + Body(l, walked[i]);
    }
    CreatedOk(lib, l, modes, walked, a, max);
    return Ok((Compress(lib.codec, a, raw), header)), files;
  }

  lemma EmptyTotal(l: Listing)
    ensures Total(l, []) == 0 && Bodies(l, []) == []
  {}

  lemma TooLargeAlready(lib: Library, l: Listing, modes: Modes, files: seq<Path>, a: Algorithm, max: nat)
    requires Total(l, files) > max
    ensures Created(lib, l, modes, files, a, max) == Err(TooLarge(max))
  {}

  lemma CreatedOk(lib: Library, l: Listing, modes: Modes, files: seq<Path>, a: Algorithm, max: nat)
    requires Total(l, files) <= max
    ensures Created(lib, l, modes, files, a, max)
            == Ok((Compress(lib.codec, a, RawArchive(lib, l, modes, files)), HeaderOf(l, modes, files)))
  {}

  // ---- The size limit depends on the tree alone ----

  lemma PermutationTail(a: seq<Path>, b: seq<Path>, i: nat)
    requires a != [] && i < |b| && b[i] == a[0] && multiset(a) == multiset(b)
    ensures multiset(a[1..]) == multiset(b[..i] + b[i + 1..])
  {
    WithoutOne(b, i);
    WithoutFirst(a);
  }

  lemma WithoutFirst(a: seq<Path>)
    requires a != []
    ensures multiset(a[1..]) == multiset(a) - multiset{a[0]}
  {
    assert a == [a[0]] + a[1..];
  }

  lemma WithoutOne(a: seq<Path>, i: nat)
    requires i < |a|
    ensures multiset(a[..i] + a[i + 1..]) == multiset(a) - multiset{a[i]}
  {
    assert a == a[..i] + ([a[i]] + a[i + 1..]);
    assert multiset(a[..i] + a[i + 1..]) == multiset(a[..i]) + multiset(a[i + 1..]);
  }

  lemma {:induction false} TotalOfPermutation(l: Listing, a: seq<Path>, b: seq<Path>)
    requires multiset(a) == multiset(b)
    ensures Total(l, a) == Total(l, b)
  {
    if a == [] {
      assert |multiset(b)| == 0;
    } else {
      assert a[0] in multiset(b);
      var i :| 0 <= i < |b| && b[i] == a[0];
      var b' := b[..i] + b[i + 1..];
      PermutationTail(a, b, i);
      TotalOfPermutation(l, a[1..], b');
      TotalSplit(l, b, i);
      assert b[i..][0] == b[i] && b[i..][1..] == b[i + 1..];
      TotalSplit(l, b', i);
      assert b'[..i] == b[..i] && b'[i..] == b[i + 1..];
    }
  }

  /** `l` is found at `at` inside `root`, as far as files go. */
  ghost predicate Seen(root: Listing, l: Listing, at: Path) {
    forall p :: FileBelow(l, at, p) ==> FileAt(root, p) == FileAt(l, p[|at|..])
  }

  lemma {:induction false} TotalOfTree(root: Listing, l: Listing, at: Path)
    requires WellNamed(l) && Seen(root, l, at)
    ensures Total(root, FilesIn(l, at)) == TreeBytes(l)
  {
    match l {
      case End =>
      case Entry(name, node, next) =>
        SeenParts(root, l, at);
        TotalOfTree(root, next, at);
        var here := match node
                    case File(_) => [at + [name]]
                    case Symlink => []
                    case Dir(sub) => FilesIn(sub, at + [name]);
        match node {
          case File(data) =>
            OnlyFile(l, at);
            assert Total(root, [at + [name]]) == |data| by {
              assert [at + [name]][1..] == [];
            }
          case Symlink =>
          case Dir(sub) => TotalOfTree(root, sub, at + [name]);
        }
        TotalSplit(root, here + FilesIn(next, at), |here|);
        assert (here + FilesIn(next, at))[..|here|] == here;
        assert (here + FilesIn(next, at))[|here|..] == FilesIn(next, at);
    }
  }

  lemma OnlyFile(l: Listing, at: Path)
    requires l.Entry? && l.node.File?
    ensures FileBelow(l, at, at + [l.name]) && FileAt(l, (at + [l.name])[|at|..]) == Some(l.node.data)
  {
    assert (at + [l.name])[|at|..] == [l.name];
  }

  lemma SeenParts(root: Listing, l: Listing, at: Path)
    requires l.Entry? && WellNamed(l) && Seen(root, l, at)
    ensures Seen(root, l.next, at)
    ensures l.node.Dir? ==> Seen(root, l.node.listing, at + [l.name])
  {
    forall p | FileBelow(l.next, at, p)
      ensures FileAt(root, p) == FileAt(l.next, p[|at|..])
    {
      FileBelowEntry(l.name, l.node, l.next, at, p);
      assert FileBelow(l, at, p);
      assert p[|at|..][0] != l.name;
    }
    if l.node.Dir? {
      forall p | FileBelow(l.node.listing, at + [l.name], p)
        ensures FileAt(root, p) == FileAt(l.node.listing, p[|at + [l.name]|..])
      {
        FileBelowEntry(l.name, l.node, l.next, at, p);
        assert FileBelow(l, at, p);
        assert p[|at|..][0] == p[|at|] == (at + [l.name])[|at|];
        assert p[|at|..][1..] == p[|at + [l.name]|..];
      }
    }
  }

  /** Archiving fails exactly when the files below the directory, counted recursively and without
      following symlinks, hold more bytes than the limit. */
  lemma TooLargeExactly(lib: Library, l: Listing, modes: Modes, files: seq<Path>, a: Algorithm, max: nat)
    requires WellNamed(l) && multiset(files) == multiset(FilesIn(l, []))
    ensures Created(lib, l, modes, files, a, max).Err? <==> TreeBytes(l) > max
    ensures Total(l, files) == TreeBytes(l)
  {
    TotalOfPermutation(l, files, FilesIn(l, []));
    forall p | FileBelow(l, [], p)
      ensures FileAt(l, p) == FileAt(l, p[0..])
    {
      assert p[0..] == p;
    }
    TotalOfTree(l, l, []);
  }
}
