/** Archiving a directory and extracting it again (archive.rs, archive_ops.rs): what arrives,
    exactly when it arrives, and the exact size limit. */
module RoundTrip {
  import opened Prelude
  import opened Paths
  import opened FileTree
  import opened Compression
  import opened Archive
  import opened Extract
  import opened ExtractLaws

  // ---- Entry texts that survive the path checks ----

  /** No backslash, which archiving turns into a slash, and no colon as second byte, which
      extraction takes for a drive letter. */
  predicate Portable(p: Path) {
    var text := JoinNames(p);
    '\\' !in text && !(|text| >= 2 && text[1] == ':')
  }

  ghost predicate PortableTree(l: Listing) {
    forall p :: FileAt(l, p).Some? ==> Portable(p)
  }

  lemma {:induction false} NoBackslashKept(s: string)
    requires '\\' !in s
    ensures ForwardSlashes(s) == s
  {
    if s != "" {
      assert s[0] in s && forall c :: c in s[1..] ==> c in s;
      NoBackslashKept(s[1..]);
      assert [s[0]] + s[1..] == s;
    }
  }

  lemma {:induction false} ForwardSlashesChars(s: string)
    ensures |ForwardSlashes(s)| == |s| && '\\' !in ForwardSlashes(s)
    ensures forall i :: 0 <= i < |s| && s[i] != '\\' ==> ForwardSlashes(s)[i] == s[i]
  {
    if s != "" {
      ForwardSlashesChars(s[1..]);
    }
  }

  lemma {:induction false} FilePathPlain(l: Listing, p: Path)
    requires WellNamed(l) && FileAt(l, p).Some?
    ensures p != [] && AllPlain(p)
    decreases |p|
  {
    FindPlain(l, p[0]);
    if |p| > 1 {
      FilePathPlain(Find(l, p[0]).value.listing, p[1..]);
      assert forall i :: 1 <= i < |p| ==> p[i] == p[1..][i - 1];
    }
  }

  lemma FirstCharacter(p: Path)
    requires p != [] && AllPlain(p)
    ensures JoinNames(p) != "" && JoinNames(p)[0] == p[0][0] && p[0][0] in p[0] && p[0][0] != '/'
  {}

  lemma LandingBelow(n: Path, p: Path)
    ensures LandingNames(n, Walk(0, p)) == n + p && !LandingUp(n, Walk(0, p)) && n <= n + p
  {
    assert n[..|n|] == n;
  }

  /** A portable file's entry is accepted and goes to its own path under the destination. */
  lemma PortableEntry(n: Path, p: Path)
    requires AllPlain(p) && p != [] && Portable(p)
    ensures TargetAccepted(n, EntryText(p))
    ensures LandingNames(n, CandidateWalk(EntryText(p))) == n + p
  {
    hide WalkOf, Interior, JoinNames, ForwardSlashes;
    NoBackslashKept(JoinNames(p));
    FirstCharacter(p);
    InteriorOfNames(p);
    WalkOfNormals(false, p);
    assert [] + Normals(p) == Normals(p);
    LandingBelow(n, p);
  }

  // ---- The destination after extraction ----

  /** `q` is on the way to, or is, the copy of a listed file. */
  ghost predicate NeededBy(n: Path, ps: seq<Path>, q: Path) {
    exists i :: 0 <= i < |ps| && q <= n + ps[i]
  }

  predicate IsCopy(n: Path, ps: seq<Path>, q: Path) {
    n <= q && q[|n|..] in ps
  }

  /** `after` is `before` overridden by exactly the files `ps` of `l`, below `n`. */
  ghost predicate Overlaid(before: Fs, after: Fs, n: Path, l: Listing, ps: seq<Path>) {
    forall q: Path ::
      && (q in after <==> q in before || q <= n || NeededBy(n, ps, q))
      && (q in after ==>
            after[q] == if IsCopy(n, ps, q) then Stored(Body(l, q[|n|..]))
                        else if q <= n || NeededBy(n, ps, q) then Folder
                        else before[q])
  }

  /** Every file of the tree could be put below `n`: no file where a folder is needed, and no
      folder where a file goes. */
  ghost predicate Compatible(before: Fs, n: Path, l: Listing) {
    CanMakeDirs(before, n) && forall p :: FileAt(l, p).Some? ==> CanPlace(before, n + p)
  }

  lemma {:induction false} FilesPrefixFree(l: Listing, p: Path, q: Path)
    requires FileAt(l, p).Some? && FileAt(l, q).Some? && p <= q
    ensures p == q
    decreases |p|
  {
    assert p[0] == q[0];
    if Find(l, p[0]).value.Dir? {
      assert p[1..] <= q[1..];
      FilesPrefixFree(Find(l, p[0]).value.listing, p[1..], q[1..]);
      assert p == [p[0]] + p[1..] && q == [q[0]] + q[1..];
    }
  }

  lemma OverlaidStart(before: Fs, n: Path, l: Listing)
    requires CanMakeDirs(before, n)
    ensures Overlaid(before, MakeDirs(before, n), n, l, [])
  {
    forall q: Path
      ensures q in MakeDirs(before, n) <==> q in before || q <= n
      ensures q <= n ==> MakeDirs(before, n)[q] == Folder
    {
      if q <= n {
        assert q == n[..|q|];
      }
    }
  }

  lemma NeededSnoc(n: Path, ps: seq<Path>, p: Path, q: Path)
    ensures NeededBy(n, ps + [p], q) <==> NeededBy(n, ps, q) || q <= n + p
  {
    if NeededBy(n, ps, q) {
      var i :| 0 <= i < |ps| && q <= n + ps[i];
      assert (ps + [p])[i] == ps[i];
    }
    if q <= n + p {
      assert (ps + [p])[|ps|] == p;
    }
  }

  /** A proper ancestor of a file's copy is not itself a copy. */
  lemma AncestorNoCopy(n: Path, l: Listing, ps: seq<Path>, p: Path, q: Path)
    requires FileAt(l, p).Some? && (forall i :: 0 <= i < |ps| ==> FileAt(l, ps[i]).Some?)
    requires q <= n + p && q != n + p
    ensures !IsCopy(n, ps, q)
  {
    if IsCopy(n, ps, q) {
      var r := q[|n|..];
      assert q == n + r && r <= p by {
        assert (n + p)[..|q|] == q;
      }
      FilesPrefixFree(l, r, p);
    }
  }

  lemma NeededFileIsCopy(n: Path, l: Listing, ps: seq<Path>, p: Path)
    requires FileAt(l, p).Some? && (forall i :: 0 <= i < |ps| ==> FileAt(l, ps[i]).Some?)
    ensures NeededBy(n, ps, n + p) ==> IsCopy(n, ps, n + p)
  {
    if NeededBy(n, ps, n + p) {
      var i :| 0 <= i < |ps| && n + p <= n + ps[i];
      assert p == (n + p)[|n|..] && ps[i] == (n + ps[i])[|n|..];
      assert (n + ps[i])[..|n + p|] == n + p;
      assert ps[i][..|p|] == (n + ps[i])[..|n + p|][|n|..] == p;
      FilesPrefixFree(l, p, ps[i]);
    }
  }

  lemma OverlaidPlaceable(before: Fs, fs: Fs, n: Path, l: Listing, ps: seq<Path>, p: Path)
    requires Compatible(before, n, l) && Overlaid(before, fs, n, l, ps)
    requires FileAt(l, p).Some? && p != [] && (forall i :: 0 <= i < |ps| ==> FileAt(l, ps[i]).Some?)
    ensures CanPlace(fs, n + p)
  {
    var t := n + p;
    forall k | 0 <= k <= |Parent(t)| && Parent(t)[..k] in fs
      ensures fs[Parent(t)[..k]] == Folder
    {
      var q := Parent(t)[..k];
      assert q == t[..k];
      AncestorNoCopy(n, l, ps, p, q);
      assert CanPlace(before, t);
    }
    if t in fs && fs[t] == Folder {
      assert CanPlace(before, t);
      NeededFileIsCopy(n, l, ps, p);
    }
  }

  lemma PlacePointwise(fs: Fs, t: Path, data: Bytes, q: Path)
    requires t != []
    ensures q in Place(fs, t, data) <==> q in fs || q <= t
    ensures q in Place(fs, t, data) ==>
              Place(fs, t, data)[q] == if q == t then Stored(data) else if q <= t then Folder else fs[q]
  {
    if q <= t && q != t {
      assert q == Parent(t)[..|q|];
    }
    if exists k :: 0 <= k <= |Parent(t)| && q == Parent(t)[..k] {
      var k :| 0 <= k <= |Parent(t)| && q == Parent(t)[..k];
      assert q == t[..k];
    }
  }

  lemma OverlaidPlaced(before: Fs, fs: Fs, n: Path, l: Listing, ps: seq<Path>, p: Path)
    requires Overlaid(before, fs, n, l, ps)
    requires FileAt(l, p).Some? && p != [] && (forall i :: 0 <= i < |ps| ==> FileAt(l, ps[i]).Some?)
    ensures Overlaid(before, Place(fs, n + p, Body(l, p)), n, l, ps + [p])
  {
    hide FileAt, Place, Body, NeededBy;
    var t := n + p;
    forall q: Path
      ensures var after := Place(fs, t, Body(l, p));
              && (q in after <==> q in before || q <= n || NeededBy(n, ps + [p], q))
              && (q in after ==>
                    after[q] == if IsCopy(n, ps + [p], q) then Stored(Body(l, q[|n|..]))
                                else if q <= n || NeededBy(n, ps + [p], q) then Folder
                                else before[q])
    {
      PlacePointwise(fs, t, Body(l, p), q);
      NeededSnoc(n, ps, p, q);
      CopySnoc(n, ps, p, q);
      if q <= t && q != t {
        AncestorNoCopy(n, l, ps, p, q);
      }
      assert t[|n|..] == p;
    }
  }

  lemma CopySnoc(n: Path, ps: seq<Path>, p: Path, q: Path)
    ensures IsCopy(n, ps + [p], q) <==> IsCopy(n, ps, q) || q == n + p
  {
    if n <= q && q[|n|..] == p {
      assert q == n + q[|n|..];
    }
    if q == n + p {
      assert q[|n|..] == p;
    }
  }

  // ---- Extraction of a created archive ----

  /** Everything the round trip assumes of the order in which the files were found. */
  ghost predicate Walked(l: Listing, files: seq<Path>) {
    WellNamed(l) && multiset(files) == multiset(FilesIn(l, []))
  }

  lemma WalkedFiles(l: Listing, files: seq<Path>, p: Path)
    requires Walked(l, files)
    ensures p in files <==> FileAt(l, p).Some?
    ensures FileAt(l, p).Some? ==> p != [] && AllPlain(p)
  {
    FilesInExact(l, p);
    assert p in files <==> p in multiset(files);
    assert p in FilesIn(l, []) <==> p in multiset(FilesIn(l, []));
    if FileAt(l, p).Some? {
      FilePathPlain(l, p);
    }
  }

  lemma BodySlice(l: Listing, files: seq<Path>, front: Bytes, i: nat)
    requires i < |files|
    ensures var raw := front + Bodies(l, files);
            var cursor := |front| + Total(l, files[..i]);
            && cursor + |Body(l, files[i])| == |front| + Total(l, files[..i + 1]) <= |raw|
            && raw[cursor..cursor + |Body(l, files[i])|] == Body(l, files[i])
  {
    hide Body, Bodies, Total;
    var before, b, rest := files[..i], Body(l, files[i]), files[i + 1..];
    assert files[..i + 1] == before + [files[i]];
    BodiesSnoc(l, before, files[i]);
    assert files[..i + 1] + rest == files;
    BodiesSplit(l, files[..i + 1], rest);
    var raw := front + (Bodies(l, before) + b + Bodies(l, rest));
    assert front + Bodies(l, files) == raw;
    BodiesLength(l, before);
    Middle(front, Bodies(l, before), b, Bodies(l, rest));
  }

  lemma Middle(a: Bytes, b: Bytes, c: Bytes, d: Bytes)
    ensures var whole := a + (b + c + d);
            |a| + |b| + |c| <= |whole| && whole[|a| + |b|..|a| + |b| + |c|] == c
  {
    var x := a + b;
    assert a + (b + c + d) == x + (c + d);
    assert (x + (c + d))[|x|..] == c + d;
  }

  lemma {:induction false} BodiesSplit(l: Listing, a: seq<Path>, b: seq<Path>)
    ensures Bodies(l, a + b) == Bodies(l, a) + Bodies(l, b)
  {
    if a == [] {
      assert a + b == b;
    } else {
      assert (a + b)[1..] == a[1..] + b;
      BodiesSplit(l, a[1..], b);
    }
  }

  /** The loop, from entry `i` on, places every remaining file. */
  lemma {:induction false} UnpackPlacesAll(before: Fs, fs: Fs, n: Path, l: Listing, modes: Modes,
                                           files: seq<Path>, front: Bytes, i: nat)
    requires AllPlain(n) && Walked(l, files) && PortableTree(l) && Compatible(before, n, l)
    requires i <= |files| && Overlaid(before, fs, n, l, files[..i])
    requires |front| + Total(l, files) < U64
    ensures var raw := front + Bodies(l, files);
            var es := EntriesOf(l, modes, files);
            var r := Unpack(fs, n, raw, es[i..], |front| + Total(l, files[..i]));
            r.1.None? && Overlaid(before, r.0, n, l, files)
    decreases |files| - i
  {
    hide Overlaid, Compatible, Walked, PortableTree, Bodies, Total, Place, CanPlace, FileAt, Body, Fault,
      Unpack, EntryText, CandidateWalk, LandingNames, TargetAccepted, EntriesOf;
    var raw := front + Bodies(l, files);
    var es := EntriesOf(l, modes, files);
    var cursor := |front| + Total(l, files[..i]);
    if i == |files| {
      assert files[..i] == files && es[i..] == [];
      UnpackNothing(fs, n, raw, cursor);
    } else {
      var p := files[i];
      var data := Body(l, p);
      assert es[i..][0] == es[i] && es[i..][1..] == es[i + 1..];
      assert files[..i + 1] == files[..i] + [p];
      BodySlice(l, files, front, i);
      TotalSplit(l, files, i + 1);
      NextFile(before, fs, n, l, modes, files, raw, i, cursor);
      OverlaidPlaced(before, fs, n, l, files[..i], p);
      UnpackGoesOn(fs, n, raw, es[i..], cursor);
      UnpackPlacesAll(before, Place(fs, n + p, data), n, l, modes, files, front, i + 1);
    }
  }

  /** No check stops the loop at the `i`th file. */
  lemma NextFile(before: Fs, fs: Fs, n: Path, l: Listing, modes: Modes, files: seq<Path>,
                 raw: Bytes, i: nat, cursor: nat)
    requires AllPlain(n) && Walked(l, files) && PortableTree(l) && Compatible(before, n, l)
    requires i < |files| && Overlaid(before, fs, n, l, files[..i])
    requires cursor + |Body(l, files[i])| <= |raw| && cursor + |Body(l, files[i])| < U64
    ensures files[i] != [] && FileAt(l, files[i]).Some?
    ensures forall j :: 0 <= j < i ==> FileAt(l, files[..i][j]).Some?
    ensures var e := EntriesOf(l, modes, files)[i];
            e.size == |Body(l, files[i])| && TargetOf(n, e) == n + files[i]
            && Fault(fs, n, raw, e, cursor).None?
  {
    hide Overlaid, Compatible, Walked, Place, CanPlace, FileAt, Body, CandidateWalk, EntryText,
      LandingNames, TargetAccepted, SafeTarget;
    forall j | 0 <= j <= i
      ensures FileAt(l, files[j]).Some?
    {
      assert files[j] in files;
      WalkedFiles(l, files, files[j]);
    }
    var p := files[i];
    WalkedFiles(l, files, p);
    assert Portable(p);
    PortableEntry(n, p);
    SafeTargetExact(n, EntryText(p), true);
    OverlaidPlaceable(before, fs, n, l, files[..i], p);
  }

  // ---- The laws ----

  /** `q` is on the way to, or is, the copy of a regular file of the tree. */
  ghost predicate LeadsToFile(n: Path, l: Listing, q: Path) {
    exists p: Path :: FileAt(l, p).Some? && q <= n + p
  }

  /** `after` is `before` overridden by exactly the regular files of the tree, below `n`, with
      their bytes and the folders they need: symlinks and empty directories leave no trace. */
  ghost predicate OverriddenBy(before: Fs, after: Fs, n: Path, l: Listing) {
    forall q: Path ::
      && (q in after <==> q in before || q <= n || LeadsToFile(n, l, q))
      && (q in after ==>
            after[q] == if n <= q && FileAt(l, q[|n|..]).Some? then Stored(FileAt(l, q[|n|..]).value)
                        else if q <= n || LeadsToFile(n, l, q) then Folder
                        else before[q])
  }

  lemma OverlaidIsOverridden(before: Fs, after: Fs, n: Path, l: Listing, files: seq<Path>)
    requires Walked(l, files)
    ensures Overlaid(before, after, n, l, files) <==> OverriddenBy(before, after, n, l)
  {
    forall q: Path
      ensures NeededBy(n, files, q) <==> LeadsToFile(n, l, q)
      ensures IsCopy(n, files, q) <==> n <= q && FileAt(l, q[|n|..]).Some?
    {
      if n <= q {
        WalkedFiles(l, files, q[|n|..]);
      }
      if NeededBy(n, files, q) {
        var i :| 0 <= i < |files| && q <= n + files[i];
        assert files[i] in files;
        WalkedFiles(l, files, files[i]);
      }
      if LeadsToFile(n, l, q) {
        var p :| FileAt(l, p).Some? && q <= n + p;
        WalkedFiles(l, files, p);
      }
    }
  }

  /** Header length plus the bytes of the tree. */
  function ArchiveSize(lib: Library, l: Listing, modes: Modes, files: seq<Path>): nat {
    8 + |lib.toJson(HeaderOf(l, modes, files))| + Total(l, files)
  }

  /** The archive can be written down: its header length fits 32 bits, and it fits in memory. */
  ghost predicate Writable(lib: Library, l: Listing, modes: Modes, files: seq<Path>) {
    && |lib.toJson(HeaderOf(l, modes, files))| < U32
    && ArchiveSize(lib, l, modes, files) < U64
  }

  /** What extraction makes of an archive of `files`. */
  function Restored(lib: Library, before: Fs, n: Path, l: Listing, modes: Modes, files: seq<Path>,
                    a: Algorithm, limit: nat): (Fs, Result<ArchiveHeader, ExtractError>)
  {
    ExtractSpec(lib, before, n, Compress(lib.codec, a, RawArchive(lib, l, modes, files)), a, limit)
  }

  lemma InflateCompress(lib: Library, a: Algorithm, data: Bytes)
    requires Faithful(lib)
    ensures Inflate(lib.codec, a, Compress(lib.codec, a, data)) == Inflated(data, true)
  {}

  lemma RawArchiveSize(lib: Library, l: Listing, modes: Modes, files: seq<Path>)
    ensures |RawArchive(lib, l, modes, files)| == ArchiveSize(lib, l, modes, files)
    ensures |ToBytes(lib, HeaderOf(l, modes, files))| == 8 + |lib.toJson(HeaderOf(l, modes, files))|
  {
    FramedLayout(lib.toJson(HeaderOf(l, modes, files)), Bodies(l, files));
    FramedLayout(lib.toJson(HeaderOf(l, modes, files)), []);
    assert ToBytes(lib, HeaderOf(l, modes, files)) + [] == ToBytes(lib, HeaderOf(l, modes, files));
    BodiesLength(l, files);
  }

  lemma {:induction false} EntrySizes(l: Listing, modes: Modes, files: seq<Path>)
    ensures SizeSum(EntriesOf(l, modes, files)) == Total(l, files)
    ensures forall i :: 0 <= i < |files| ==> |Body(l, files[i])| <= Total(l, files)
  {
    if files != [] {
      EntrySizes(l, modes, files[1..]);
      assert EntriesOf(l, modes, files)[1..] == EntriesOf(l, modes, files[1..]);
      assert forall i :: 1 <= i < |files| ==> files[i] == files[1..][i - 1];
    }
  }

  lemma HeaderFits(l: Listing, modes: Modes, files: seq<Path>)
    requires Total(l, files) < U64
    ensures Fits(HeaderOf(l, modes, files))
  {
    EntrySizes(l, modes, files);
  }

  /** Entries that claim more bytes than there are cannot all be written. */
  lemma ShortDataFaults(fs: Fs, n: Path, raw: Bytes, es: seq<ArchiveEntry>, cursor: nat)
    requires AllPlain(n) && cursor <= |raw| < cursor + SizeSum(es)
    ensures Unpack(fs, n, raw, es, cursor).1.Some?
  {
    hide Unpack, Fault, Replay, Planned, TargetAccepted;
    UnpackWritesPrefix(fs, n, raw, es, cursor);
    assert es[..|es|] == es;
  }

  /** The first `limit` bytes of an archive, if that is not all, never extract. */
  lemma CutArchiveFails(lib: Library, before: Fs, n: Path, l: Listing, modes: Modes, files: seq<Path>, limit: nat)
    requires Faithful(lib) && AllPlain(n) && Writable(lib, l, modes, files)
    requires limit < ArchiveSize(lib, l, modes, files)
    ensures |RawArchive(lib, l, modes, files)| == ArchiveSize(lib, l, modes, files)
    ensures Extracted(lib, before, n, RawArchive(lib, l, modes, files)[..limit], limit).1.Err?
  {
    hide Framed, Unpack, MakeDirs, CanMakeDirs, SizeSum, Total, Bodies, EntriesOf, Lossless;
    RawArchiveSize(lib, l, modes, files);
    HeaderFits(l, modes, files);
    EntrySizes(l, modes, files);
    BodiesLength(l, files);
    var h := HeaderOf(l, modes, files);
    var raw := RawArchive(lib, l, modes, files)[..limit];
    var offset := 8 + |lib.toJson(h)|;
    PrefixParses(lib, h, Bodies(l, files), limit);
    if limit >= offset && CanMakeDirs(before, n) {
      ShortDataFaults(MakeDirs(before, n), n, raw, h.entries, offset);
    }
  }

  /** A limit below header length plus tree bytes makes extraction fail, for all three
      algorithms: two refuse to inflate; gzip inflates a truncated prefix, which the header or
      the bounds of some entry then reject. */
  lemma LowLimitFails(lib: Library, before: Fs, n: Path, l: Listing, modes: Modes, files: seq<Path>,
                      a: Algorithm, limit: nat)
    requires Faithful(lib) && AllPlain(n) && Writable(lib, l, modes, files)
    requires limit < ArchiveSize(lib, l, modes, files)
    ensures Restored(lib, before, n, l, modes, files, a, limit).1.Err?
  {
    hide Extracted, RawArchive, ArchiveSize, Compress, Inflate, Faithful, Writable;
    var raw := RawArchive(lib, l, modes, files);
    CutArchiveFails(lib, before, n, l, modes, files, limit);
    InflateCompress(lib, a, raw);
    DecompressedExactly(a, Inflated(raw, true), limit);
  }

  /** With room enough, every file arrives. */
  lemma EnoughRoomRestores(lib: Library, before: Fs, n: Path, l: Listing, modes: Modes, files: seq<Path>,
                           a: Algorithm, limit: nat)
    requires Faithful(lib) && AllPlain(n) && Writable(lib, l, modes, files)
    requires Walked(l, files) && PortableTree(l) && Compatible(before, n, l)
    requires limit >= ArchiveSize(lib, l, modes, files)
    ensures var (after, r) := Restored(lib, before, n, l, modes, files, a, limit);
            r == Ok(HeaderOf(l, modes, files)) && OverriddenBy(before, after, n, l)
  {
    hide Framed, Unpack, MakeDirs, CanMakeDirs, Overlaid, Walked, PortableTree, Total, Bodies, EntriesOf,
      Compress, Inflate, OverriddenBy;
    var h, raw := HeaderOf(l, modes, files), RawArchive(lib, l, modes, files);
    var front := ToBytes(lib, h);
    RawArchiveSize(lib, l, modes, files);
    HeaderFits(l, modes, files);
    InflateCompress(lib, a, raw);
    DecompressedExactly(a, Inflated(raw, true), limit);
    PrefixParses(lib, h, Bodies(l, files), |raw|);
    assert raw[..|raw|] == raw;
    assert FromBytes(lib, raw) == Ok((h, |front|));
    OverlaidStart(before, n, l);
    EmptyTotal(l);
    assert files[..0] == [] && h.entries[0..] == h.entries;
    UnpackPlacesAll(before, MakeDirs(before, n), n, l, modes, files, front, 0);
    OverlaidIsOverridden(before, Unpack(MakeDirs(before, n), n, raw, h.entries, |front|).0, n, l, files);
  }

  // ---- Success needs a compatible destination ----

  /** What was there before is still there: folders are folders, and files are files. */
  ghost predicate KindsKept(before: Fs, fs: Fs) {
    forall q :: q in before ==> q in fs && (before[q] == Folder <==> fs[q] == Folder)
  }

  lemma MakeDirsKeepsKinds(before: Fs, fs: Fs, p: Path)
    requires KindsKept(before, fs) && CanMakeDirs(fs, p)
    ensures KindsKept(before, MakeDirs(fs, p))
  {}

  lemma PlaceKeepsKinds(before: Fs, fs: Fs, p: Path, data: Bytes)
    requires KindsKept(before, fs) && CanPlace(fs, p)
    ensures CanPlace(before, p) && KindsKept(before, Place(fs, p, data))
  {
    MakeDirsKeepsKinds(before, fs, Parent(p));
  }

  /** An extraction without a fault could have placed each file from the start. */
  lemma {:induction false} FaultlessFits(before: Fs, fs: Fs, n: Path, raw: Bytes, es: seq<ArchiveEntry>, cursor: nat)
    requires KindsKept(before, fs) && Unpack(fs, n, raw, es, cursor).1.None?
    ensures forall i :: 0 <= i < |es| ==> CanPlace(before, TargetOf(n, es[i]))
    decreases |es|
  {
    hide CanPlace, Place, TargetOf, SafeTarget;
    if es != [] {
      UnpackGoesOn(fs, n, raw, es, cursor);
      var t, data := TargetOf(n, es[0]), raw[cursor..cursor + es[0].size];
      PlaceKeepsKinds(before, fs, t, data);
      FaultlessFits(before, Place(fs, t, data), n, raw, es[1..], cursor + es[0].size);
      assert forall i :: 1 <= i < |es| ==> es[i] == es[1..][i - 1];
    }
  }

  lemma SuccessNeedsCompatible(lib: Library, before: Fs, n: Path, l: Listing, modes: Modes, files: seq<Path>,
                               a: Algorithm, limit: nat)
    requires Faithful(lib) && AllPlain(n) && Writable(lib, l, modes, files) && WellNamed(l)
    requires Walked(l, files) && PortableTree(l) && limit >= ArchiveSize(lib, l, modes, files)
    requires Restored(lib, before, n, l, modes, files, a, limit).1.Ok?
    ensures Compatible(before, n, l)
  {
    hide Framed, Unpack, MakeDirs, CanMakeDirs, Total, Bodies, Compress, Inflate, EntryText, CandidateWalk, Fault,
      LandingNames, SizeSum, CanPlace, Walked, Portable, TargetAccepted, KindsKept;
    var h, raw := HeaderOf(l, modes, files), RawArchive(lib, l, modes, files);
    var offset := |ToBytes(lib, h)|;
    RawArchiveSize(lib, l, modes, files);
    HeaderFits(l, modes, files);
    InflateCompress(lib, a, raw);
    DecompressedExactly(a, Inflated(raw, true), limit);
    PrefixParses(lib, h, Bodies(l, files), |raw|);
    assert raw[..|raw|] == raw;
    StartKeepsKinds(before, n);
    FaultlessFits(before, MakeDirs(before, n), n, raw, h.entries, offset);
    forall p | FileAt(l, p).Some?
      ensures CanPlace(before, n + p)
    {
      WalkedFiles(l, files, p);
      var i :| 0 <= i < |files| && files[i] == p;
      FilePathPlain(l, p);
      PortableEntry(n, p);
      assert h.entries[i].path == EntryText(p);
      assert CanPlace(before, TargetOf(n, h.entries[i]));
    }
  }

  lemma StartKeepsKinds(before: Fs, n: Path)
    requires CanMakeDirs(before, n)
    ensures KindsKept(before, MakeDirs(before, n))
  {
    assert KindsKept(before, before);
    MakeDirsKeepsKinds(before, before, n);
  }

  /** The round trip and its exact limit: extraction of what was archived succeeds if and only if
      the destination is compatible and the limit covers header and bodies, and then leaves the
      destination overridden by exactly the files of the tree. */
  lemma ExtractCreatedExactly(lib: Library, before: Fs, n: Path, l: Listing, modes: Modes, files: seq<Path>,
                              a: Algorithm, limit: nat)
    requires Faithful(lib) && AllPlain(n) && Writable(lib, l, modes, files) && WellNamed(l)
    requires Walked(l, files) && PortableTree(l)
    ensures var (after, r) := Restored(lib, before, n, l, modes, files, a, limit);
            && (r.Ok? <==> Compatible(before, n, l)
                           && limit >= 8 + |lib.toJson(HeaderOf(l, modes, files))| + TreeBytes(l))
            && (r.Ok? ==> r.value == HeaderOf(l, modes, files) && OverriddenBy(before, after, n, l))
  {
    hide Restored, PortableTree, Compatible, OverriddenBy, Faithful, HeaderOf;
    TooLargeExactly(lib, l, modes, files, a, limit);
    if limit < ArchiveSize(lib, l, modes, files) {
      LowLimitFails(lib, before, n, l, modes, files, a, limit);
    } else if Compatible(before, n, l) {
      EnoughRoomRestores(lib, before, n, l, modes, files, a, limit);
    } else if Restored(lib, before, n, l, modes, files, a, limit).1.Ok? {
      SuccessNeedsCompatible(lib, before, n, l, modes, files, a, limit);
    }
  }

  // ---- Portability is needed: into a fresh destination the round trip works exactly for portable trees ----

  /** The destination is absent or empty, and can be made. */
  ghost predicate Fresh(before: Fs, n: Path) {
    CanMakeDirs(before, n) && forall q :: q in before && n <= q ==> q == n
  }

  lemma FreshCompatible(before: Fs, n: Path, l: Listing)
    requires WellNamed(l) && Fresh(before, n)
    ensures Compatible(before, n, l)
  {
    forall p | FileAt(l, p).Some?
      ensures CanPlace(before, n + p)
    {
      FilePathPlain(l, p);
      var t := n + p;
      forall k | 0 <= k <= |Parent(t)| && Parent(t)[..k] in before
        ensures before[Parent(t)[..k]] == Folder
      {
        var q := Parent(t)[..k];
        assert q == t[..k];
        PrefixStays(n, t, k);
        if n <= q {
          assert q == n == n[..|n|];
        } else {
          assert q == n[..k];
        }
      }
      assert n <= t && t != n;
    }
  }

  lemma {:induction false} SplitWithout(s: string, c: char)
    requires c !in s
    ensures forall i :: 0 <= i < |Split(s)| ==> c !in Split(s)[i]
  {
    if s != "" {
      assert s[0] in s && forall x :: x in s[1..] ==> x in s;
      SplitWithout(s[1..], c);
    }
  }

  ghost predicate NamesWithout(cs: seq<Component>, c: char) {
    forall i :: 0 <= i < |cs| && cs[i].Normal? ==> c !in cs[i].name
  }

  lemma {:induction false} PiecesWithout(pieces: seq<string>, c: char)
    requires forall i :: 0 <= i < |pieces| ==> c !in pieces[i]
    ensures NamesWithout(PiecesComponents(pieces), c)
  {
    if pieces != [] {
      PiecesWithout(pieces[1..], c);
    }
  }

  lemma {:induction false} WalkWithout(cs: seq<Component>, c: char)
    requires NamesWithout(cs, c)
    ensures forall i :: 0 <= i < |WalkOf(cs).names| ==> c !in WalkOf(cs).names[i]
    decreases |cs|
  {
    if cs != [] {
      WalkWithout(cs[..|cs| - 1], c);
    }
  }

  /** No name that an accepted entry adds below the destination contains a backslash. */
  lemma TargetWithoutBackslash(n: Path, p: Path, j: nat)
    requires var target := LandingNames(n, CandidateWalk(EntryText(p)));
             n <= target && |n| <= j < |target|
    ensures '\\' !in LandingNames(n, CandidateWalk(EntryText(p)))[j]
  {
    var text := EntryText(p);
    ForwardSlashesChars(JoinNames(p));
    SplitWithout(text, '\\');
    PiecesWithout(Split(text), '\\');
    WalkWithout(Interior(text), '\\');
  }

  /** Everything the loop adds is on the way to some entry's target. */
  lemma {:induction false} UnpackAdds(fs: Fs, n: Path, raw: Bytes, es: seq<ArchiveEntry>, cursor: nat, q: Path)
    requires AllPlain(n) && q !in fs && q in Unpack(fs, n, raw, es, cursor).0
    ensures exists i :: 0 <= i < |es| && TargetAccepted(n, es[i].path) && q <= TargetOf(n, es[i])
    decreases |es|
  {
    hide TargetAccepted, TargetOf, Fault, Place, CanPlace;
    assert es != [];
    if Fault(fs, n, raw, es[0], cursor).None? {
      FaultlessEntry(fs, n, raw, es[0], cursor);
      UnpackGoesOn(fs, n, raw, es, cursor);
      var t, data := TargetOf(n, es[0]), raw[cursor..cursor + es[0].size];
      if q in Place(fs, t, data) {
        PlaceAdds(fs, t, data, q);
      } else {
        UnpackAdds(Place(fs, t, data), n, raw, es[1..], cursor + es[0].size, q);
        var i :| 0 <= i < |es[1..]| && TargetAccepted(n, es[1..][i].path) && q <= TargetOf(n, es[1..][i]);
        assert es[i + 1] == es[1..][i];
      }
    }
  }

  lemma PlaceAdds(fs: Fs, t: Path, data: Bytes, q: Path)
    requires q !in fs && q in Place(fs, t, data)
    ensures q <= t
  {
    if q != t {
      var k :| 0 <= k <= |Parent(t)| && q == Parent(t)[..k];
      assert q == t[..k];
    }
  }

  lemma {:induction false} BackslashInName(p: Path) returns (j: nat)
    requires '\\' in JoinNames(p)
    ensures j < |p| && '\\' in p[j]
  {
    if '\\' in p[0] {
      j := 0;
    } else {
      assert |p| > 1;
      j := BackslashInName(p[1..]);
      j := j + 1;
    }
  }

  /** A successful extraction accepted every entry. */
  lemma SuccessAcceptsAll(lib: Library, before: Fs, n: Path, l: Listing, modes: Modes, files: seq<Path>,
                          a: Algorithm, limit: nat)
    requires Faithful(lib) && AllPlain(n) && Writable(lib, l, modes, files)
    requires Restored(lib, before, n, l, modes, files, a, limit).1.Ok?
    ensures forall i :: 0 <= i < |files| ==> TargetAccepted(n, EntryText(files[i]))
    ensures CanMakeDirs(before, n)
    ensures forall q :: q !in before && !(q <= n) && q in Restored(lib, before, n, l, modes, files, a, limit).0 ==>
              exists i :: 0 <= i < |files| && q <= LandingNames(n, CandidateWalk(EntryText(files[i])))
                          && TargetAccepted(n, EntryText(files[i]))
  {
    hide Framed, Unpack, MakeDirs, CanMakeDirs, Total, Bodies, Compress, Inflate, TargetAccepted, EntryText,
      CandidateWalk, Replay, Planned, Fault, LandingNames, SizeSum;
    if limit < ArchiveSize(lib, l, modes, files) {
      LowLimitFails(lib, before, n, l, modes, files, a, limit);
    }
    var h, raw := HeaderOf(l, modes, files), RawArchive(lib, l, modes, files);
    var offset := |ToBytes(lib, h)|;
    RawArchiveSize(lib, l, modes, files);
    HeaderFits(l, modes, files);
    InflateCompress(lib, a, raw);
    DecompressedExactly(a, Inflated(raw, true), limit);
    PrefixParses(lib, h, Bodies(l, files), |raw|);
    assert raw[..|raw|] == raw;
    var start := MakeDirs(before, n);
    UnpackWritesPrefix(start, n, raw, h.entries, offset);
    forall q | q !in before && !(q <= n) && q in Restored(lib, before, n, l, modes, files, a, limit).0
      ensures exists i :: 0 <= i < |files| && q <= LandingNames(n, CandidateWalk(EntryText(files[i])))
                          && TargetAccepted(n, EntryText(files[i]))
    {
      MakeDirsAddsAncestors(before, n, q);
      UnpackAdds(start, n, raw, h.entries, offset, q);
      var i :| 0 <= i < |h.entries| && TargetAccepted(n, h.entries[i].path) && q <= TargetOf(n, h.entries[i]);
      assert h.entries[i].path == EntryText(files[i]);
    }
    forall i | 0 <= i < |files|
      ensures TargetAccepted(n, EntryText(files[i]))
    {
      assert h.entries[i].path == EntryText(files[i]);
    }
  }

  lemma MakeDirsAddsAncestors(before: Fs, n: Path, q: Path)
    requires q !in before && !(q <= n)
    ensures q !in MakeDirs(before, n)
  {}

  /** What a successful, complete round trip says about one file. */
  lemma ArrivedIsPortable(lib: Library, before: Fs, n: Path, l: Listing, modes: Modes, files: seq<Path>,
                          a: Algorithm, limit: nat, p: Path)
    requires Faithful(lib) && AllPlain(n) && Writable(lib, l, modes, files)
    requires Walked(l, files) && Fresh(before, n) && FileAt(l, p).Some?
    requires var (after, r) := Restored(lib, before, n, l, modes, files, a, limit);
             r.Ok? && n + p in after
    ensures Portable(p)
  {
    hide Restored, Writable, Faithful, Walked, FileAt, LandingNames, CandidateWalk, ForwardSlashes;
    SuccessAcceptsAll(lib, before, n, l, modes, files, a, limit);
    WalkedFiles(l, files, p);
    var text := JoinNames(p);
    ForwardSlashesChars(text);
    var i :| 0 <= i < |files| && files[i] == p;
    assert TargetAccepted(n, EntryText(files[i]));
    if '\\' in text {
      var j := BackslashInName(p);
      assert n <= n + p && n + p != n;
      assert !(n + p <= n);
      var k :| 0 <= k < |files| && n + p <= LandingNames(n, CandidateWalk(EntryText(files[k])))
               && TargetAccepted(n, EntryText(files[k]));
      var target := LandingNames(n, CandidateWalk(EntryText(files[k])));
      assert target[|n| + j] == (n + p)[|n| + j] == p[j];
      TargetWithoutBackslash(n, files[k], |n| + j);
    }
  }

  /** Into a fresh destination the round trip delivers exactly the tree if and only if no entry
      text has a backslash or a colon as second byte, and the limit covers header and bodies. */
  lemma RoundTripExactly(lib: Library, before: Fs, n: Path, l: Listing, modes: Modes, files: seq<Path>,
                         a: Algorithm, limit: nat)
    requires Faithful(lib) && AllPlain(n) && Writable(lib, l, modes, files)
    requires Walked(l, files) && Fresh(before, n)
    ensures var (after, r) := Restored(lib, before, n, l, modes, files, a, limit);
            r.Ok? && OverriddenBy(before, after, n, l)
            <==> PortableTree(l) && limit >= 8 + |lib.toJson(HeaderOf(l, modes, files))| + TreeBytes(l)
  {
    hide Restored, Writable, Faithful, Fresh, HeaderOf;
    var (after, r) := Restored(lib, before, n, l, modes, files, a, limit);
    TooLargeExactly(lib, l, modes, files, a, limit);
    FreshCompatible(before, n, l);
    if PortableTree(l) {
      ExtractCreatedExactly(lib, before, n, l, modes, files, a, limit);
    } else if r.Ok? && OverriddenBy(before, after, n, l) {
      var p :| FileAt(l, p).Some? && !Portable(p);
      assert LeadsToFile(n, l, n + p);
      ArrivedIsPortable(lib, before, n, l, modes, files, a, limit, p);
    }
  }
}
