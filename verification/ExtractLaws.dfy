/** What extraction does on arbitrary input: which writes happen, how much is written, and what
    it leaves alone. */
module ExtractLaws {
  import opened Prelude
  import opened Paths
  import opened FileTree
  import opened Compression
  import opened Archive
  import opened Extract

  function SizeSum(es: seq<ArchiveEntry>): nat {
    if es == [] then 0 else es[0].size + SizeSum(es[1..])
  }

  datatype FileWrite = FileWrite(path: Path, data: Bytes)

  /** One write per entry, the data being consecutive slices of `raw` from `cursor` on. */
  function Planned(n: Path, raw: Bytes, es: seq<ArchiveEntry>, cursor: nat): seq<FileWrite>
    requires cursor + SizeSum(es) <= |raw|
    decreases |es|
  {
    if es == [] then []
    else
      [FileWrite(TargetOf(n, es[0]), raw[cursor..cursor + es[0].size])]
      + Planned(n, raw, es[1..], cursor + es[0].size)
  }

  /** Performs the writes in order; a later write to the same path wins. */
  function Replay(fs: Fs, ws: seq<FileWrite>): Fs
    decreases |ws|
  {
    if ws == [] then fs else Replay(Place(fs, ws[0].path, ws[0].data), ws[1..])
  }

  function WrittenBytes(ws: seq<FileWrite>): Bytes {
    if ws == [] then [] else ws[0].data + WrittenBytes(ws[1..])
  }

  /** The number of entries written. */
  function Accepted(fs: Fs, n: Path, raw: Bytes, es: seq<ArchiveEntry>, cursor: nat): (k: nat)
    ensures k <= |es|
    decreases |es|
  {
    if es == [] || Fault(fs, n, raw, es[0], cursor).Some? then 0
    else 1 + Accepted(Place(fs, TargetOf(n, es[0]), raw[cursor..cursor + es[0].size]), n, raw, es[1..],
                      cursor + es[0].size)
  }

  lemma FaultlessEntry(fs: Fs, n: Path, raw: Bytes, e: ArchiveEntry, cursor: nat)
    requires AllPlain(n) && Fault(fs, n, raw, e, cursor).None?
    ensures cursor + e.size <= |raw| && TargetAccepted(n, e.path) && CanPlace(fs, TargetOf(n, e))
  {
    SafeTargetExact(n, e.path, true);
  }

  /** Why an entry stops the loop, in this order: its end does not fit 64 bits, or lies behind the
      data; its path is refused; the filesystem refuses. */
  lemma FaultExactly(fs: Fs, n: Path, raw: Bytes, e: ArchiveEntry, cursor: nat)
    requires AllPlain(n)
    ensures var fault := Fault(fs, n, raw, e, cursor);
            if cursor + e.size >= 0x1_0000_0000_0000_0000 then fault == Some(Panic)
            else if cursor + e.size > |raw| then fault == Some(CutShort(e.path))
            else if !TargetAccepted(n, e.path) then fault.Some? && fault.value.Escapes?
            else fault == if CanPlace(fs, TargetOf(n, e)) then None else Some(Disk)
  {
    hide SafeTarget, TargetAccepted, CanPlace, TargetOf;
    SafeTargetExact(n, e.path, true);
  }

  lemma TakeCons(es: seq<ArchiveEntry>, k: nat)
    requires 0 < k <= |es|
    ensures es[..k][0] == es[0] && es[..k][1..] == es[1..][..k - 1]
    ensures SizeSum(es[..k]) == es[0].size + SizeSum(es[1..][..k - 1])
  {}

  /** The outcome of the loop in terms of the number `k` of entries written. */
  ghost predicate WritesFirst(fs: Fs, n: Path, raw: Bytes, es: seq<ArchiveEntry>, cursor: nat, k: nat) {
    var (fs', fault) := Unpack(fs, n, raw, es, cursor);
    && k <= |es|
    && cursor + SizeSum(es[..k]) <= |raw|
    && fs' == Replay(fs, Planned(n, raw, es[..k], cursor))
    && (forall i :: 0 <= i < k ==> TargetAccepted(n, es[i].path))
    && fault == (if k == |es| then None else Fault(fs', n, raw, es[k], cursor + SizeSum(es[..k])))
    && (fault.None? <==> k == |es|)
  }

  lemma WritesNone(fs: Fs, n: Path, raw: Bytes, es: seq<ArchiveEntry>, cursor: nat)
    requires cursor <= |raw| && (es == [] || Fault(fs, n, raw, es[0], cursor).Some?)
    ensures WritesFirst(fs, n, raw, es, cursor, 0)
  {
    hide Fault;
    if es != [] {
      UnpackStops(fs, n, raw, es, cursor);
    }
    assert es[..0] == [];
  }

  lemma WritesOneMore(fs: Fs, n: Path, raw: Bytes, es: seq<ArchiveEntry>, cursor: nat, k: nat)
    requires es != [] && cursor + es[0].size <= |raw| && TargetAccepted(n, es[0].path)
    requires var placed := Place(fs, TargetOf(n, es[0]), raw[cursor..cursor + es[0].size]);
             && WritesFirst(placed, n, raw, es[1..], cursor + es[0].size, k)
             && Unpack(fs, n, raw, es, cursor) == Unpack(placed, n, raw, es[1..], cursor + es[0].size)
    ensures WritesFirst(fs, n, raw, es, cursor, k + 1)
  {
    hide Fault, Unpack, Place, TargetOf, TargetAccepted;
    TakeCons(es, k + 1);
    var next := cursor + es[0].size;
    var first := FileWrite(TargetOf(n, es[0]), raw[cursor..next]);
    var rest := Planned(n, raw, es[1..][..k], next);
    assert Planned(n, raw, es[..k + 1], cursor) == [first] + rest;
    assert ([first] + rest)[1..] == rest;
    forall i | 0 <= i < k + 1
      ensures TargetAccepted(n, es[i].path)
    {
      assert i > 0 ==> es[i] == es[1..][i - 1];
    }
  }

  /** Extraction writes exactly the entries before the first one that is refused, in order, and
      reports why that one was; it succeeds exactly when it refuses none. */
  lemma {:induction false} UnpackWritesPrefix(fs: Fs, n: Path, raw: Bytes, es: seq<ArchiveEntry>, cursor: nat)
    requires AllPlain(n) && cursor <= |raw|
    ensures WritesFirst(fs, n, raw, es, cursor, Accepted(fs, n, raw, es, cursor))
    decreases |es|
  {
    hide Fault, Unpack, Place, TargetOf, TargetAccepted, WritesFirst;
    if es == [] || Fault(fs, n, raw, es[0], cursor).Some? {
      WritesNone(fs, n, raw, es, cursor);
    } else {
      FaultlessEntry(fs, n, raw, es[0], cursor);
      UnpackGoesOn(fs, n, raw, es, cursor);
      var placed := Place(fs, TargetOf(n, es[0]), raw[cursor..cursor + es[0].size]);
      UnpackWritesPrefix(placed, n, raw, es[1..], cursor + es[0].size);
      WritesOneMore(fs, n, raw, es, cursor, Accepted(placed, n, raw, es[1..], cursor + es[0].size));
    }
  }

  /** The bytes written are one stretch of the decompressed data, starting at the first body. */
  lemma {:induction false} PlannedIsOneStretch(n: Path, raw: Bytes, es: seq<ArchiveEntry>, cursor: nat)
    requires cursor + SizeSum(es) <= |raw|
    ensures WrittenBytes(Planned(n, raw, es, cursor)) == raw[cursor..cursor + SizeSum(es)]
    decreases |es|
  {
    hide TargetOf;
    if es != [] {
      var mid := cursor + es[0].size;
      PlannedIsOneStretch(n, raw, es[1..], mid);
      WrittenFirst(FileWrite(TargetOf(n, es[0]), raw[cursor..mid]), Planned(n, raw, es[1..], mid));
      Adjoining(raw, cursor, mid, cursor + SizeSum(es));
    }
  }

  lemma WrittenFirst(w: FileWrite, ws: seq<FileWrite>)
    ensures WrittenBytes([w] + ws) == w.data + WrittenBytes(ws)
  {}

  lemma Adjoining(raw: Bytes, i: nat, j: nat, k: nat)
    requires i <= j <= k <= |raw|
    ensures raw[i..j] + raw[j..k] == raw[i..k]
  {}

  /** Whatever the blob `raw` was inflated from and whatever total its header claims: either
      nothing changes, or some number `k` of entries is written, as one stretch of at most limit
      minus header length bytes, and the rest is not. */
  lemma AnyBlobBounded(lib: Library, fs: Fs, n: Path, blob: Bytes, a: Algorithm, max: nat,
                       raw: Bytes, h: ArchiveHeader, offset: nat)
    returns (k: nat)
    requires AllPlain(n)
    requires Decompressed(a, Inflate(lib.codec, a, blob), max) == Ok(raw)
    requires FromBytes(lib, raw) == Ok((h, offset))
    ensures k <= |h.entries|
    ensures offset + SizeSum(h.entries[..k]) <= |raw| <= max
    ensures WrittenBytes(Planned(n, raw, h.entries[..k], offset)) == raw[offset..offset + SizeSum(h.entries[..k])]
    ensures var (fs', r) := ExtractSpec(lib, fs, n, blob, a, max);
            if h.totalSize > max || !CanMakeDirs(fs, n) then fs' == fs && r.Err?
            else
              && fs' == Replay(MakeDirs(fs, n), Planned(n, raw, h.entries[..k], offset))
              && (r.Ok? <==> k == |h.entries|)
  {
    hide Decompressed, Inflate, FromBytes, Unpack, MakeDirs, Replay, CanMakeDirs, Planned, WrittenBytes,
      ExtractSpec, Fault, TargetAccepted;
    DecompressedIsPrefix(a, Inflate(lib.codec, a, blob), max);
    OffsetInside(lib, raw);
    SpecOfParsed(lib, fs, n, blob, a, max, raw, h, offset);
    k := Accepted(MakeDirs(fs, n), n, raw, h.entries, offset);
    UnpackWritesPrefix(MakeDirs(fs, n), n, raw, h.entries, offset);
    PlannedIsOneStretch(n, raw, h.entries[..k], offset);
  }

  lemma SpecOfParsed(lib: Library, fs: Fs, n: Path, blob: Bytes, a: Algorithm, max: nat,
                     raw: Bytes, h: ArchiveHeader, offset: nat)
    requires Decompressed(a, Inflate(lib.codec, a, blob), max) == Ok(raw)
    requires FromBytes(lib, raw) == Ok((h, offset))
    ensures var (fs', r) := ExtractSpec(lib, fs, n, blob, a, max);
            if h.totalSize > max || !CanMakeDirs(fs, n) then fs' == fs && r.Err?
            else
              var (unpacked, fault) := Unpack(MakeDirs(fs, n), n, raw, h.entries, offset);
              fs' == unpacked && (r.Ok? <==> fault.None?) && (r.Ok? ==> r.value == h)
  {}

  lemma OffsetInside(lib: Library, raw: Bytes)
    requires FromBytes(lib, raw).Ok?
    ensures FromBytes(lib, raw).value.1 <= |raw|
  {}

  /** When the end of a slice wraps around, it lies before its start: the slice is a panic in
      release builds just as the addition is one in debug builds. */
  lemma WrappedSliceEndsBeforeStart(cursor: nat, size: nat, length: nat)
    requires cursor <= length < U64 && size < U64 && cursor + size >= U64
    ensures (cursor + size) % U64 < cursor && (cursor + size) % U64 <= length
  {
    assert (cursor + size) % U64 == cursor + size - U64;
  }

  // ---- Containment ----

  /** `fs` and `fs'` agree on everything that is not under `n`. */
  ghost predicate SameOutside(fs: Fs, fs': Fs, n: Path) {
    forall q: Path :: !(n <= q) ==> (q in fs <==> q in fs') && (q in fs ==> fs[q] == fs'[q])
  }

  lemma PrefixStays(n: Path, p: Path, k: nat)
    requires n <= p && k <= |p|
    ensures k >= |n| ==> n <= p[..k]
    ensures k < |n| ==> p[..k] == n[..k]
  {}

  lemma PlaceInside(fs: Fs, n: Path, p: Path, data: Bytes)
    requires WellFormed(fs) && n in fs && fs[n] == Folder && n <= p && CanPlace(fs, p)
    ensures SameOutside(fs, Place(fs, p, data), n)
    ensures n in Place(fs, p, data) && Place(fs, p, data)[n] == Folder
  {
    var fs' := Place(fs, p, data);
    forall q: Path | !(n <= q)
      ensures (q in fs <==> q in fs') && (q in fs ==> fs[q] == fs'[q])
    {
      if exists k :: 0 <= k <= |Parent(p)| && q == Parent(p)[..k] {
        var k :| 0 <= k <= |Parent(p)| && q == Parent(p)[..k];
        assert q == p[..k];
        PrefixStays(n, p, k);
      }
    }
    if n != p {
      ParentDirsHold(fs, n);
      assert n[..|n|] == n;
    }
  }

  lemma ParentDirsHold(fs: Fs, n: Path)
    requires WellFormed(fs) && n in fs
    ensures forall k :: 0 <= k < |n| ==> n[..k] in fs && fs[n[..k]] == Folder
  {}

  lemma AcceptedUnder(n: Path, e: ArchiveEntry)
    requires TargetAccepted(n, e.path)
    ensures n <= TargetOf(n, e)
  {}

  /** Nothing outside the destination changes, whatever the archive contains. */
  lemma {:induction false} UnpackStaysInside(fs: Fs, n: Path, raw: Bytes, es: seq<ArchiveEntry>, cursor: nat)
    requires AllPlain(n) && WellFormed(fs) && n in fs && fs[n] == Folder
    ensures var fs' := Unpack(fs, n, raw, es, cursor).0;
            SameOutside(fs, fs', n) && WellFormed(fs') && n in fs' && fs'[n] == Folder
    decreases |es|
  {
    hide Unpack, Fault, CanPlace, Place, WellFormed, TargetOf;
    if es == [] {
      UnpackNothing(fs, n, raw, cursor);
    } else {
      if Fault(fs, n, raw, es[0], cursor).Some? {
        UnpackStops(fs, n, raw, es, cursor);
      } else {
        var p := TargetOf(n, es[0]);
        FaultlessEntry(fs, n, raw, es[0], cursor);
        AcceptedUnder(n, es[0]);
        UnpackGoesOn(fs, n, raw, es, cursor);
        var data := raw[cursor..cursor + es[0].size];
        PlaceInside(fs, n, p, data);
        PlaceWellFormed(fs, p, data);
        UnpackStaysInside(Place(fs, p, data), n, raw, es[1..], cursor + es[0].size);
      }
    }
  }

  /** Extraction of any blob changes nothing outside the destination but the folders above it. */
  lemma ExtractionContained(lib: Library, fs: Fs, n: Path, blob: Bytes, a: Algorithm, max: nat, q: Path)
    requires AllPlain(n) && WellFormed(fs) && !(n <= q)
    ensures var fs' := ExtractSpec(lib, fs, n, blob, a, max).0;
            if q in fs then q in fs' && fs'[q] == fs[q]
            else q in fs' ==> q <= n && fs'[q] == Folder
  {
    var raw := Decompressed(a, Inflate(lib.codec, a, blob), max);
    if raw.Ok? && FromBytes(lib, raw.value).Ok? && CanMakeDirs(fs, n) {
      var (header, offset) := FromBytes(lib, raw.value).value;
      MakeDirsWellFormed(fs, n);
      assert n[..|n|] == n;
      UnpackStaysInside(MakeDirs(fs, n), n, raw.value, header.entries, offset);
      MakeDirsElsewhere(fs, n, q);
      hide Decompressed, FromBytes, Unpack, MakeDirs, WellFormed, CanMakeDirs;
    }
  }

  lemma MakeDirsElsewhere(fs: Fs, n: Path, q: Path)
    requires CanMakeDirs(fs, n)
    ensures q in fs ==> q in MakeDirs(fs, n) && MakeDirs(fs, n)[q] == fs[q]
    ensures q !in fs && q in MakeDirs(fs, n) ==> q <= n && MakeDirs(fs, n)[q] == Folder
  {}
}
