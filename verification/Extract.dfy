/** Extraction of an archive into a local directory (archive_ops.rs, extract_archive):
    a functional form of the loop, and the loop itself over a filesystem. The destination holds
    no symlinks; file modes are not modelled. */
module Extract {
  import opened Prelude
  import opened Paths
  import opened FileTree
  import opened Compression
  import opened Archive

  // ---- The local filesystem ----

  datatype Node = Folder | Stored(data: Bytes)

  /** Absolute paths, as the names from the root; the root itself is always a folder. */
  type Fs = map<Path, Node>

  /** Everything present lies in a folder. */
  ghost predicate WellFormed(fs: Fs) {
    && [] in fs && fs[[]] == Folder
    && forall p, k :: p in fs && 0 <= k < |p| ==> p[..k] in fs && fs[p[..k]] == Folder
  }

  /** `create_dir_all(p)` finds no file on the way. */
  predicate CanMakeDirs(fs: Fs, p: Path) {
    forall k :: 0 <= k <= |p| && p[..k] in fs ==> fs[p[..k]] == Folder
  }

  function MakeDirs(fs: Fs, p: Path): Fs {
    fs + map k | 0 <= k <= |p| :: p[..k] := Folder
  }

  predicate CanWriteFile(fs: Fs, p: Path) {
    p != [] && !(p in fs && fs[p] == Folder)
  }

  class LocalFs {
    var nodes: Fs

    /** `create_dir_all`: all missing folders, or none and an error. */
    method CreateDirAll(p: Path) returns (ok: bool)
      modifies this
      ensures ok == CanMakeDirs(old(nodes), p)
      ensures nodes == if ok then MakeDirs(old(nodes), p) else old(nodes)
    {
      ok := CanMakeDirs(nodes, p);
      if ok {
        nodes := MakeDirs(nodes, p);
      }
    }

    /** `fs::write` into an existing folder. */
    method Write(p: Path, data: Bytes) returns (ok: bool)
      modifies this
      ensures ok == CanWriteFile(old(nodes), p)
      ensures nodes == if ok then old(nodes)[p := Stored(data)] else old(nodes)
    {
      ok := CanWriteFile(nodes, p);
      if ok {
        nodes := nodes[p := Stored(data)];
      }
    }
  }

  // ---- The extraction loop ----

  /** `Panic`: the end of the slice wraps around, which aborts in every build profile. */
  datatype ExtractError =
    | Inflating(inflate: DecompressError)
    | Header(parse: ArchiveError)
    | TooBig(size: nat, limit: nat)
    | CutShort(path: string)
    | Escapes(how: PathError)
    | Disk
    | Panic

  function Parent(p: Path): Path {
    if p == [] then [] else p[..|p| - 1]
  }

  /** Where an accepted entry goes. */
  function TargetOf(n: Path, e: ArchiveEntry): Path {
    LandingNames(n, CandidateWalk(e.path))
  }

  /** Writing one file and the folders it needs. */
  function Place(fs: Fs, p: Path, data: Bytes): Fs {
    MakeDirs(fs, Parent(p))[p := Stored(data)]
  }

  predicate CanPlace(fs: Fs, p: Path) {
    CanMakeDirs(fs, Parent(p)) && CanWriteFile(fs, p)
  }

  /** Why the loop stops at entry `e`, if it does. */
  function Fault(fs: Fs, n: Path, raw: Bytes, e: ArchiveEntry, cursor: nat): Option<ExtractError> {
    if cursor + e.size >= U64 then Some(Panic)
    else if cursor + e.size > |raw| then Some(CutShort(e.path))
    else match SafeTarget(Absolute(n), e.path, true)
      case Err(x) => Some(Escapes(x))
      case Ok(_) => if CanPlace(fs, TargetOf(n, e)) then None else Some(Disk)
  }

  /** The loop over the entries: final files, and the error that stopped it. */
  function Unpack(fs: Fs, n: Path, raw: Bytes, es: seq<ArchiveEntry>, cursor: nat): (Fs, Option<ExtractError>)
    decreases |es|
  {
    if es == [] then (fs, None)
    else
      var fault := Fault(fs, n, raw, es[0], cursor);
      if fault.Some? then (fs, fault)
      else
        var data := raw[cursor..cursor + es[0].size];
        Unpack(Place(fs, TargetOf(n, es[0]), data), n, raw, es[1..], cursor + es[0].size)
  }

  function Extracted(lib: Library, fs: Fs, n: Path, raw: Bytes, max: nat): (Fs, Result<ArchiveHeader, ExtractError>) {
    match FromBytes(lib, raw)
    case Err(e) => (fs, Err(Header(e)))
    case Ok((header, offset)) =>
      if header.totalSize > max then (fs, Err(TooBig(header.totalSize, max)))
      else if !CanMakeDirs(fs, n) then (fs, Err(Disk))
      else
        var (fs', fault) := Unpack(MakeDirs(fs, n), n, raw, header.entries, offset);
        (fs', match fault case None => Ok(header) case Some(e) => Err(e))
  }

  /** `extract_archive` as a function of the blob, the limit and the files present. */
  function ExtractSpec(lib: Library, fs: Fs, n: Path, blob: Bytes, a: Algorithm, max: nat)
    : (Fs, Result<ArchiveHeader, ExtractError>)
  {
    match Decompressed(a, Inflate(lib.codec, a, blob), max)
    case Err(e) => (fs, Err(Inflating(e)))
    case Ok(raw) => Extracted(lib, fs, n, raw, max)
  }

  /** The file names of an absolute path. */
  function NamesOf(cs: seq<Component>): Path {
    if cs == [] then []
    else (if cs[0].Normal? then [cs[0].name] else []) + NamesOf(cs[1..])
  }

  lemma {:induction false} NamesOfNormals(names: Path)
    ensures NamesOf(Normals(names)) == names
  {
    if names != [] {
      assert Normals(names)[1..] == Normals(names[1..]);
      NamesOfNormals(names[1..]);
    }
  }

  lemma SafeTargetNames(n: Path, e: ArchiveEntry)
    requires AllPlain(n) && SafeTarget(Absolute(n), e.path, true).Ok?
    ensures NamesOf(SafeTarget(Absolute(n), e.path, true).value) == TargetOf(n, e)
  {
    SafeTargetExact(n, e.path, true);
    var cs := SafeTarget(Absolute(n), e.path, true).value;
    hide SafeTarget, CandidateWalk;
    assert cs[1..] == Normals(TargetOf(n, e));
    NamesOfNormals(TargetOf(n, e));
  }

  lemma MakeDirsWellFormed(fs: Fs, p: Path)
    requires WellFormed(fs) && CanMakeDirs(fs, p)
    ensures WellFormed(MakeDirs(fs, p))
  {
    forall q, k | q in MakeDirs(fs, p) && 0 <= k < |q|
      ensures q[..k] in MakeDirs(fs, p) && MakeDirs(fs, p)[q[..k]] == Folder
    {
      if exists j :: 0 <= j <= |p| && q == p[..j] {
        var j :| 0 <= j <= |p| && q == p[..j];
        assert q[..k] == p[..k];
      }
    }
  }

  /** Making the parents of something present changes nothing. */
  lemma MakeDirsPresent(fs: Fs, p: Path)
    requires WellFormed(fs) && (p in fs || p == [])
    ensures MakeDirs(fs, Parent(p)) == fs
  {
    forall k | 0 <= k <= |Parent(p)|
      ensures Parent(p)[..k] in fs && fs[Parent(p)[..k]] == Folder
    {
      assert Parent(p)[..k] == p[..k];
    }
  }

  lemma ParentDirsKeep(fs: Fs, p: Path)
    requires p != []
    ensures p in MakeDirs(fs, Parent(p)) <==> p in fs
    ensures p in fs ==> MakeDirs(fs, Parent(p))[p] == fs[p]
  {
    forall k | 0 <= k <= |Parent(p)|
      ensures Parent(p)[..k] != p
    {
      assert |Parent(p)[..k]| < |p|;
    }
  }

  lemma PlaceWellFormed(fs: Fs, p: Path, data: Bytes)
    requires WellFormed(fs) && CanPlace(fs, p)
    ensures WellFormed(Place(fs, p, data))
  {
    var parent, fs1, fs2 := Parent(p), MakeDirs(fs, Parent(p)), Place(fs, p, data);
    MakeDirsWellFormed(fs, parent);
    ParentDirsKeep(fs, p);
    forall q, k | q in fs2 && 0 <= k < |q|
      ensures q[..k] in fs2 && fs2[q[..k]] == Folder
    {
      if q == p {
        assert p[..k] == parent[..k];
      } else {
        assert q in fs1;
        assert q[..k] in fs1 && fs1[q[..k]] == Folder;
      }
    }
  }

  /** The two filesystem calls of the loop body, taken together. */
  lemma DirsThenWrite(fs: Fs, p: Path)
    requires WellFormed(fs) && CanMakeDirs(fs, Parent(p))
    ensures var fs1 := MakeDirs(fs, Parent(p));
            && (CanWriteFile(fs1, p) <==> CanPlace(fs, p))
            && (!CanPlace(fs, p) ==> fs1 == fs)
  {
    if p == [] || p in fs {
      MakeDirsPresent(fs, p);
    }
    if p != [] {
      ParentDirsKeep(fs, p);
    }
  }

  lemma UnpackStops(fs: Fs, n: Path, raw: Bytes, es: seq<ArchiveEntry>, cursor: nat)
    requires es != []
    ensures var fault := Fault(fs, n, raw, es[0], cursor);
            fault.Some? ==> Unpack(fs, n, raw, es, cursor) == (fs, fault)
  {}

  lemma UnpackGoesOn(fs: Fs, n: Path, raw: Bytes, es: seq<ArchiveEntry>, cursor: nat)
    requires es != [] && Fault(fs, n, raw, es[0], cursor).None?
    ensures cursor + es[0].size <= |raw|
    ensures Unpack(fs, n, raw, es, cursor)
            == Unpack(Place(fs, TargetOf(n, es[0]), raw[cursor..cursor + es[0].size]), n, raw, es[1..],
                      cursor + es[0].size)
  {}

  /** One turn of the loop: writes the entry, or leaves everything as it is and says why. */
  method ExtractEntry(raw: Bytes, e: ArchiveEntry, cursor: nat, disk: LocalFs, n: Path)
    returns (fault: Option<ExtractError>)
    requires AllPlain(n) && WellFormed(disk.nodes)
    modifies disk
    ensures fault == Fault(old(disk.nodes), n, raw, e, cursor)
    ensures fault.None? ==> cursor + e.size <= |raw|
                            && disk.nodes == Place(old(disk.nodes), TargetOf(n, e), raw[cursor..cursor + e.size])
    ensures fault.Some? ==> disk.nodes == old(disk.nodes)
    ensures WellFormed(disk.nodes)
  {
    hide SafeTarget, CandidateWalk, LandingNames, CanMakeDirs, MakeDirs, CanWriteFile, WellFormed;
    ghost var before := disk.nodes;
    if cursor + e.size >= U64 {
      return Some(Panic);
    }
    if cursor + e.size > |raw| {
      return Some(CutShort(e.path));
    }
    var safe := SafeTarget(Absolute(n), e.path, true);
    if safe.Err? {
      return Some(Escapes(safe.error));
    }
    SafeTargetNames(n, e);
    var target := NamesOf(safe.value);
    var dirs := disk.CreateDirAll(Parent(target));
    if !dirs {
      return Some(Disk);
    }
    DirsThenWrite(before, target);
    var written := disk.Write(target, raw[cursor..cursor + e.size]);
    if !written {
      return Some(Disk);
    }
    PlaceWellFormed(before, target, raw[cursor..cursor + e.size]);
    return None;
  }

  /** `extract_archive` into the canonical destination `n`. */
  method ExtractArchive(lib: Library, blob: Bytes, a: Algorithm, disk: LocalFs, n: Path, max: nat)
    returns (r: Result<ArchiveHeader, ExtractError>)
    requires AllPlain(n) && WellFormed(disk.nodes)
    modifies disk
    ensures (disk.nodes, r) == ExtractSpec(lib, old(disk.nodes), n, blob, a, max)
    ensures WellFormed(disk.nodes)
  {
    hide Fault, Place, TargetOf, CanMakeDirs, MakeDirs, FromBytes, Decompressed, Unpack, WellFormed;
    var inflated := Decompress(lib.codec, a, blob, max);
    if inflated.Err? {
      return Err(Inflating(inflated.error));
    }
    var raw := inflated.value;
    var parsed := FromBytes(lib, raw);
    if parsed.Err? {
      return Err(Header(parsed.error));
    }
    var (header, offset) := parsed.value;
    if header.totalSize > max {
      return Err(TooBig(header.totalSize, max));
    }
    var made := disk.CreateDirAll(n);
    if !made {
      return Err(Disk);
    }
    MakeDirsWellFormed(old(disk.nodes), n);
    ghost var start := disk.nodes;
    var es := header.entries;
    var cursor: nat := offset;
    assert es[0..] == es;
    for i := 0 to |es|
      invariant WellFormed(disk.nodes)
      invariant Unpack(start, n, raw, es, offset) == Unpack(disk.nodes, n, raw, es[i..], cursor)
    {
      ghost var before := disk.nodes;
      assert es[i..][0] == es[i] && es[i..][1..] == es[i + 1..];
      UnpackStops(before, n, raw, es[i..], cursor);
      var fault := ExtractEntry(raw, es[i], cursor, disk, n);
      if fault.Some? {
        return Err(fault.value);
      }
      UnpackGoesOn(before, n, raw, es[i..], cursor);
      cursor := cursor + es[i].size;
    }
    assert es[|es|..] == [];
    UnpackNothing(disk.nodes, n, raw, cursor);
    return Ok(header);
  }

  lemma UnpackNothing(fs: Fs, n: Path, raw: Bytes, cursor: nat)
    ensures Unpack(fs, n, raw, [], cursor) == (fs, None)
  {}
}
