/** One whole save, never a mix: what the command-line client sends at the end of a save, what a
    visible manifest therefore is, and what restoring it does to local files (ops.rs). */
module Saves {
  import opened Prelude
  import opened Paths
  import opened FileTree
  import opened Compression
  import opened Archive
  import opened Extract
  import opened RoundTrip
  import opened Naming
  import opened Manifests
  import opened Protocol
  import opened Safety
  import opened Publications

  /** One path of a save: the directory as it was, the order in which its files were found, and
      the blob uploaded for it. */
  datatype Archived = Archived(spec: string, tree: Listing, modes: Modes, mode: Option<nat>, files: seq<Path>,
                               body: Bytes)

  ghost predicate IsArchive(lib: Library, a: Algorithm, x: Archived) {
    Walked(x.tree, x.files) && x.body == Compress(lib.codec, a, RawArchive(lib, x.tree, x.modes, x.files))
  }

  /** The finish request of a save of `saved`. */
  ghost predicate FromSave(c: Config, lib: Library, req: FinishRequest, saved: seq<Archived>, a: Algorithm) {
    && |req.paths| == |req.blobs| == |saved|
    && forall i :: 0 <= i < |saved| ==> PathFromSave(c, lib, req.paths[i], req.blobs[i], saved[i], a)
  }

  ghost predicate PathFromSave(c: Config, lib: Library, path: CachedPath, blob: BlobRef, x: Archived, a: Algorithm) {
    && IsArchive(lib, a, x)
    && path.originalPath == x.spec && path.mode == x.mode
    && path.archiveDigest == blob.digest == DigestOf(c, x.body)
    && blob.compression == AlgorithmName(a)
    && blob.size == |x.body|
    && blob.uncompressed == Total(x.tree, x.files)
    && blob.backend == "server" && blob.location == "blobs/" + DigestHex(blob.digest)
  }

  /** What one run of the client archived, and how. */
  datatype Save = Save(parts: seq<Archived>, a: Algorithm)

  /** Which save each finish request is the end of. */
  type Saves = map<FinishRequest, Save>

  ghost predicate FromClient(c: Config, lib: Library, req: FinishRequest, saves: Saves) {
    req in saves && FromSave(c, lib, req, saves[req].parts, saves[req].a)
  }

  /** All finish requests come from the client's save loop, in these saves; all else is arbitrary. */
  ghost predicate ClientRun(c: Config, lib: Library, run: Run, saves: Saves) {
    forall i :: 0 <= i < |run| && run[i].action.BeginFinish? ==> FromClient(c, lib, run[i].action.req, saves)
  }

  /** Whatever savers interleave under one name: the manifest visible there is, paths and blobs,
      that of one client's save whose publication took effect, for the namespace, key and type
      that were validated when that save's session started. */
  lemma VisibleIsOneSave(c: Config, lib: Library, run: Run, i: nat, name: ManifestName, saves: Saves)
      returns (req: FinishRequest)
    requires IsRun(c, run) && ClientRun(c, lib, run, saves) && i <= |run| && name in At(run, i).manifests
    ensures var m := At(run, i).manifests[name];
            && NameFor(m) == name && ValidName(m.namespace, m.key)
            && req in At(run, i).history.published
            && MadeIn(c, At(run, i).history, req, m)
            && FromClient(c, lib, req, saves)
  {
    hide IsRun, Made, FromClient, ValidName, NameOf;
    AlwaysSafe(c, run, i);
    PublishedWasSent(c, run, i);
    var s := At(run, i);
    req :| req in s.history.published && MadeIn(c, s.history, req, s.manifests[name]);
    assert Sent(run, i, req);
  }

  // ---- Restoring ----

  /** One extraction of a restore: the path as requested, the bytes fetched, how they are packed. */
  datatype Item = Item(spec: string, body: Bytes, a: Algorithm)

  /** What the loop of `restore` leaves when every extraction succeeds. */
  function Unpacked(lib: Library, resolve: string -> Option<Path>, fs: Fs, items: seq<Item>, max: nat): Option<Fs>
    decreases |items|
  {
    if items == [] then Some(fs)
    else match resolve(items[0].spec)
      case None => None
      case Some(n) =>
        var (fs', r) := ExtractSpec(lib, fs, n, items[0].body, items[0].a, max);
        if r.Err? then None else Unpacked(lib, resolve, fs', items[1..], max)
  }

  lemma {:induction false} UnpackedSnoc(lib: Library, resolve: string -> Option<Path>, fs: Fs, items: seq<Item>,
                                        x: Item, max: nat)
    ensures Unpacked(lib, resolve, fs, items + [x], max)
            == match Unpacked(lib, resolve, fs, items, max)
               case None => None
               case Some(fs') => Unpacked(lib, resolve, fs', [x], max)
    decreases |items|
  {
    hide ExtractSpec;
    if items == [] {
      assert [] + [x] == [x];
    } else if resolve(items[0].spec).Some? {
      assert (items + [x])[0] == items[0] && (items + [x])[1..] == items[1..] + [x];
      var (fs', r) := ExtractSpec(lib, fs, resolve(items[0].spec).value, items[0].body, items[0].a, max);
      UnpackedSnoc(lib, resolve, fs', items[1..], x, max);
    }
  }

  /** The entries of the archives unpacked, as `restore` counts them. */
  function EntryCount(lib: Library, resolve: string -> Option<Path>, fs: Fs, items: seq<Item>, max: nat): nat
    decreases |items|
  {
    if items == [] then 0
    else match resolve(items[0].spec)
      case None => 0
      case Some(n) =>
        var (fs', r) := ExtractSpec(lib, fs, n, items[0].body, items[0].a, max);
        match r
        case Err(_) => 0
        case Ok(header) => |header.entries| + EntryCount(lib, resolve, fs', items[1..], max)
  }

  lemma {:induction false} EntryCountSnoc(lib: Library, resolve: string -> Option<Path>, fs: Fs, items: seq<Item>,
                                          x: Item, max: nat)
    requires Unpacked(lib, resolve, fs, items, max).Some?
    ensures EntryCount(lib, resolve, fs, items + [x], max)
            == EntryCount(lib, resolve, fs, items, max)
               + EntryCount(lib, resolve, Unpacked(lib, resolve, fs, items, max).value, [x], max)
    decreases |items|
  {
    hide ExtractSpec;
    if items == [] {
      assert [] + [x] == [x];
    } else {
      assert (items + [x])[0] == items[0] && (items + [x])[1..] == items[1..] + [x];
      var fs' := ExtractSpec(lib, fs, resolve(items[0].spec).value, items[0].body, items[0].a, max).0;
      EntryCountSnoc(lib, resolve, fs', items[1..], x, max);
    }
  }

  /** What a restore that fails leaves: the files after the extractions of `items`, and perhaps
      those of one more that failed on the way. */
  ghost predicate LeftBehind(lib: Library, resolve: string -> Option<Path>, before: Fs, items: seq<Item>, max: nat,
                             after: Fs)
  {
    Unpacked(lib, resolve, before, items, max).Some?
    && var fs := Unpacked(lib, resolve, before, items, max).value;
       after == fs || exists x: Item :: FailedItem(lib, resolve, fs, x, max, after)
  }

  ghost predicate FailedItem(lib: Library, resolve: string -> Option<Path>, fs: Fs, x: Item, max: nat, after: Fs) {
    resolve(x.spec).Some?
    && ExtractSpec(lib, fs, resolve(x.spec).value, x.body, x.a, max).1.Err?
    && after == ExtractSpec(lib, fs, resolve(x.spec).value, x.body, x.a, max).0
  }

  /** The fetched bytes passed the digest check and are unpacked as the manifest says. */
  ghost predicate ItemFits(c: Config, m: Manifest, k: nat, item: Item)
    requires k < |m.paths|
  {
    var digest := m.paths[k].archiveDigest;
    && item.spec == m.paths[k].originalPath
    && DigestOf(c, item.body) == digest
    && FindBlob(m.blobs, digest).Some?
    && ParseAlgorithm(FindBlob(m.blobs, digest).value.compression) == Some(item.a)
  }

  ghost predicate ItemsFit(c: Config, m: Manifest, items: seq<Item>) {
    |items| <= |m.paths| && forall k :: 0 <= k < |items| ==> ItemFits(c, m, k, items[k])
  }

  function ItemOf(x: Archived, a: Algorithm): Item {
    Item(x.spec, x.body, a)
  }

  function ItemsOf(saved: seq<Archived>, a: Algorithm): seq<Item> {
    seq(|saved|, k requires 0 <= k < |saved| => ItemOf(saved[k], a))
  }

  /** The bodies that a save archived. */
  function SavedBodies(saved: seq<Archived>): set<Bytes> {
    set k | 0 <= k < |saved| :: saved[k].body
  }

  /** The bodies that all saves archived. */
  function ArchivedBodies(saves: Saves): set<Bytes> {
    set req, body | req in saves && body in SavedBodies(saves[req].parts) :: body
  }

  /** The bodies that a restore fetched. */
  function ItemBodies(items: seq<Item>): set<Bytes> {
    set k | 0 <= k < |items| :: items[k].body
  }

  /** Without collisions among the two, what a restore unpacks is exactly what that one save
      archived. */
  lemma ItemsAreSaved(c: Config, lib: Library, m: Manifest, req: FinishRequest, saved: seq<Archived>, a: Algorithm,
                      items: seq<Item>)
    requires CollisionFree(c, SavedBodies(saved) + ItemBodies(items)) && FromSave(c, lib, req, saved, a)
    requires m.paths == req.paths && (req.blobs != [] ==> m.blobs == req.blobs)
    requires ItemsFit(c, m, items) && |items| == |m.paths|
    ensures items == ItemsOf(saved, a)
  {
    hide IsArchive, FindBlob, ParseAlgorithm, AlgorithmName, CollisionFree;
    forall k | 0 <= k < |saved|
      ensures items[k] == ItemOf(saved[k], a)
    {
      assert ItemFits(c, m, k, items[k]) && PathFromSave(c, lib, req.paths[k], req.blobs[k], saved[k], a);
      SameBody(c, SavedBodies(saved) + ItemBodies(items), items[k].body, saved[k].body);
      FoundIsFromSave(c, lib, req, saved, a, m.paths[k].archiveDigest);
      ParsesOwnName(a);
    }
  }

  lemma SameBody(c: Config, bodies: set<Bytes>, x: Bytes, y: Bytes)
    requires CollisionFree(c, bodies) && x in bodies && y in bodies && DigestOf(c, x) == DigestOf(c, y)
    ensures x == y
  {
    DigestHexOf(c, x);
    DigestHexOf(c, y);
  }

  lemma FoundIsFromSave(c: Config, lib: Library, req: FinishRequest, saved: seq<Archived>, a: Algorithm, digest: string)
    requires FromSave(c, lib, req, saved, a) && FindBlob(req.blobs, digest).Some?
    ensures FindBlob(req.blobs, digest).value.compression == AlgorithmName(a)
  {
    hide IsArchive, FindBlob, AlgorithmName;
    var i :| 0 <= i < |req.blobs| && req.blobs[i] == FindBlob(req.blobs, digest).value;
    assert PathFromSave(c, lib, req.paths[i], req.blobs[i], saved[i], a);
  }

  /** The archive of `x` can be written down and its file names survive the path checks. */
  ghost predicate Sound(lib: Library, x: Archived) {
    Writable(lib, x.tree, x.modes, x.files) && PortableTree(x.tree)
  }

  /** `after` is `before` overridden by the trees of `saved`, one after the other, each below the
      directory its path resolves to. */
  ghost predicate Landed(resolve: string -> Option<Path>, before: Fs, after: Fs, saved: seq<Archived>)
    decreases |saved|
  {
    if saved == [] then after == before
    else
      && resolve(saved[0].spec).Some?
      && exists mid ::
           && OverriddenBy(before, mid, resolve(saved[0].spec).value, saved[0].tree)
           && Landed(resolve, mid, after, saved[1..])
  }

  ghost predicate AllSound(lib: Library, a: Algorithm, saved: seq<Archived>) {
    forall k :: 0 <= k < |saved| ==> IsArchive(lib, a, saved[k]) && Sound(lib, saved[k])
  }

  lemma {:induction false} UnpackedLands(lib: Library, resolve: string -> Option<Path>, before: Fs,
                                         saved: seq<Archived>, a: Algorithm, max: nat)
    requires Faithful(lib) && AllSound(lib, a, saved)
    requires forall spec :: resolve(spec).Some? ==> AllPlain(resolve(spec).value)
    requires Unpacked(lib, resolve, before, ItemsOf(saved, a), max).Some?
    ensures Landed(resolve, before, Unpacked(lib, resolve, before, ItemsOf(saved, a), max).value, saved)
    decreases |saved|
  {
    hide Faithful, ExtractSpec, OverriddenBy, Walked, RawArchive, Compress, Writable, PortableTree, Compatible;
    if saved != [] {
      var x := saved[0];
      var n := resolve(x.spec).value;
      assert ItemsOf(saved, a)[0] == ItemOf(x, a);
      assert ItemsOf(saved, a)[1..] == ItemsOf(saved[1..], a);
      var (mid, r) := ExtractSpec(lib, before, n, x.body, a, max);
      assert IsArchive(lib, a, x) && Sound(lib, x);
      OneTreeLands(lib, before, n, x, a, max);
      UnpackedLands(lib, resolve, mid, saved[1..], a, max);
    }
  }

  lemma OneTreeLands(lib: Library, before: Fs, n: Path, x: Archived, a: Algorithm, max: nat)
    requires Faithful(lib) && IsArchive(lib, a, x) && Sound(lib, x) && AllPlain(n)
    requires ExtractSpec(lib, before, n, x.body, a, max).1.Ok?
    ensures OverriddenBy(before, ExtractSpec(lib, before, n, x.body, a, max).0, n, x.tree)
  {
    hide Faithful, ExtractSpec, OverriddenBy, RawArchive, Compress, Writable, PortableTree, Compatible;
    ExtractCreatedExactly(lib, before, n, x.tree, x.modes, x.files, a, max);
  }

  /** Files that belong to no path of the save are left alone. */
  lemma {:induction false} LandedElsewhere(resolve: string -> Option<Path>, before: Fs, after: Fs,
                                           saved: seq<Archived>, q: Path)
    requires Landed(resolve, before, after, saved)
    requires forall k :: 0 <= k < |saved| && resolve(saved[k].spec).Some? ==>
               var n := resolve(saved[k].spec).value; !(q <= n) && !LeadsToFile(n, saved[k].tree, q)
    ensures q in after <==> q in before
    ensures q in before ==> after[q] == before[q]
    decreases |saved|
  {
    hide FileAt, LeadsToFile;
    if saved != [] {
      var n, tree := resolve(saved[0].spec).value, saved[0].tree;
      var mid :| OverriddenBy(before, mid, n, tree) && Landed(resolve, mid, after, saved[1..]);
      LandedElsewhere(resolve, mid, after, saved[1..], q);
      if n <= q && FileAt(tree, q[|n|..]).Some? {
        FileLeads(n, tree, q);
      }
    }
  }

  lemma FileLeads(n: Path, tree: Listing, q: Path)
    requires n <= q && FileAt(tree, q[|n|..]).Some?
    ensures LeadsToFile(n, tree, q)
  {
    assert n + q[|n|..] == q;
  }

  /** Below `n` and at `q`: what a tree put there makes of what was there. */
  ghost predicate OverriddenAt(before: Fs, after: Fs, n: Path, l: Listing, q: Path) {
    && (q in after <==> q in before || q == n || LeadsToFile(n, l, q))
    && (q in after ==>
          after[q] == if n <= q && FileAt(l, q[|n|..]).Some? then Extract.Stored(FileAt(l, q[|n|..]).value)
                      else if q == n || LeadsToFile(n, l, q) then Folder
                      else before[q])
  }

  lemma OutOfTheWay(n: Path, n': Path, l: Listing, q: Path)
    requires !(n <= n') && !(n' <= n) && n <= q
    ensures !(q <= n') && !LeadsToFile(n', l, q) && !(n' <= q)
  {
    hide FileAt;
    Unrelated(n, n', q);
    forall p: Path
      ensures !(q <= n' + p)
    {
      Unrelated(n, n', n' + p);
    }
  }

  lemma Unrelated(n: Path, n': Path, x: Path)
    requires !(n <= n') && !(n' <= n)
    ensures !(n <= x && n' <= x)
  {
    if n <= x && n' <= x {
      Comparable(n, n', x);
    }
  }

  lemma Comparable(a: Path, b: Path, q: Path)
    requires a <= q && b <= q
    ensures a <= b || b <= a
  {
    assert a == q[..|a|] && b == q[..|b|];
    if |a| <= |b| {
      assert q[..|b|][..|a|] == q[..|a|];
    } else {
      assert q[..|a|][..|b|] == q[..|b|];
    }
  }

  lemma TreeAt(before: Fs, after: Fs, n: Path, l: Listing, q: Path)
    requires OverriddenBy(before, after, n, l)
    ensures n <= q ==> OverriddenAt(before, after, n, l, q)
    ensures !(q <= n) && !LeadsToFile(n, l, q) && !(n <= q) ==>
              (q in after <==> q in before) && (q in before ==> after[q] == before[q])
  {
    hide FileAt, LeadsToFile;
  }

  /** When the directories of a save do not contain each other, each ends up with exactly the
      regular files archived for it, on top of what it held. */
  lemma {:induction false} LandedEach(resolve: string -> Option<Path>, before: Fs, after: Fs,
                                      saved: seq<Archived>, k: nat, q: Path)
    requires Landed(resolve, before, after, saved) && k < |saved|
    requires resolve(saved[k].spec).Some? && resolve(saved[k].spec).value <= q
    requires forall j :: 0 <= j < |saved| && j != k && resolve(saved[j].spec).Some? ==>
               var n, n' := resolve(saved[k].spec).value, resolve(saved[j].spec).value;
               !(n <= n') && !(n' <= n)
    ensures OverriddenAt(before, after, resolve(saved[k].spec).value, saved[k].tree, q)
    decreases |saved|
  {
    hide FileAt, LeadsToFile, OverriddenBy;
    var n0, tree0 := resolve(saved[0].spec).value, saved[0].tree;
    var mid :| OverriddenBy(before, mid, n0, tree0) && Landed(resolve, mid, after, saved[1..]);
    var n := resolve(saved[k].spec).value;
    TreeAt(before, mid, n0, tree0, q);
    if k == 0 {
      forall j | 0 <= j < |saved[1..]| && resolve(saved[1..][j].spec).Some?
        ensures var n' := resolve(saved[1..][j].spec).value; !(q <= n') && !LeadsToFile(n', saved[1..][j].tree, q)
      {
        OutOfTheWay(n, resolve(saved[1..][j].spec).value, saved[1..][j].tree, q);
      }
      LandedElsewhere(resolve, mid, after, saved[1..], q);
    } else {
      OutOfTheWay(n, n0, tree0, q);
      assert saved[1..][k - 1] == saved[k];
      LandedEach(resolve, mid, after, saved[1..], k - 1, q);
    }
  }

  // ---- No mixing ----

  /** `after` is `before` with one published save restored into it. */
  ghost predicate OneSaveRestored(c: Config, lib: Library, h: History, saves: Saves, resolve: string -> Option<Path>,
                                  ask: RestoreRequest, before: Fs, after: Fs, max: nat) {
    exists req ::
      && req in h.published && FromClient(c, lib, req, saves)
      && req.sid in h.issued && StartsFor(h.issued[req.sid], ask)
      && (OwnName(ask.namespace, ask.key) ==> Asked(h.issued[req.sid], ask))
      && Unpacked(lib, resolve, before, ItemsOf(saves[req].parts, saves[req].a), max) == Some(after)
      && (AllSound(lib, saves[req].a, saves[req].parts) ==> Landed(resolve, before, after, saves[req].parts))
  }

  /** An accepted session of the type asked for, whose manifest has the object asked for. */
  predicate StartsFor(start: StartRequest, ask: RestoreRequest) {
    && ValidName(start.namespace, start.key)
    && start.cacheType == ask.cacheType
    && NameOf(start.namespace, start.key) == NameOf(ask.namespace, ask.key)
  }

  /** The very namespace, type and key asked for. */
  predicate Asked(start: StartRequest, ask: RestoreRequest) {
    ask == RestoreRequest(start.namespace, start.cacheType, start.key)
  }

  /** Only sessions for the very names asked for can answer a restore if and only if those names
      pass `OwnName`, which the one who asks can check. */
  lemma StartsForExactly(ask: RestoreRequest)
    requires ValidName(ask.namespace, ask.key)
    ensures (forall start :: StartsFor(start, ask) ==> Asked(start, ask)) <==> OwnName(ask.namespace, ask.key)
  {
    hide ValidName, NameOf, OwnName;
    OwnNameExactly(ask.namespace, ask.key);
    if !OwnName(ask.namespace, ask.key) {
      var ns, key :| ValidName(ns, key) && NameOf(ns, key) == NameOf(ask.namespace, ask.key)
                     && !(ns == ask.namespace && key == ask.key);
      var start := StartRequest(ns, ask.cacheType, key, None, map[]);
      assert StartsFor(start, ask) && !Asked(start, ask);
    }
  }

  lemma FewerBodies(c: Config, saves: Saves, req: FinishRequest, items: seq<Item>)
    requires req in saves && CollisionFree(c, ArchivedBodies(saves) + ItemBodies(items))
    ensures CollisionFree(c, SavedBodies(saves[req].parts) + ItemBodies(items))
  {
    hide SavedBodies, ItemBodies;
  }

  /** Any number of clients saving under one name, anything else going on: a restore that is given
      a manifest visible at some moment and finishes has written one whole save. */
  lemma NoMixing(c: Config, lib: Library, run: Run, i: nat, saves: Saves, resolve: string -> Option<Path>,
                 ask: RestoreRequest, items: seq<Item>, before: Fs, after: Fs, max: nat)
    requires IsRun(c, run) && ClientRun(c, lib, run, saves) && i <= |run|
    requires CollisionFree(c, ArchivedBodies(saves) + ItemBodies(items)) && Faithful(lib)
    requires ValidName(ask.namespace, ask.key)
    requires forall spec :: resolve(spec).Some? ==> AllPlain(resolve(spec).value)
    requires var name := NameOf(ask.namespace, ask.key);
             && name in At(run, i).manifests
             && At(run, i).manifests[name].cacheType == ask.cacheType
             && |items| == |At(run, i).manifests[name].paths|
             && ItemsFit(c, At(run, i).manifests[name], items)
    requires Unpacked(lib, resolve, before, items, max) == Some(after)
    ensures OneSaveRestored(c, lib, Last(run).history, saves, resolve, ask, before, after, max)
  {
    hide IsRun, ClientRun, CollisionFree, ArchivedBodies, ItemBodies, SavedBodies, Faithful, ItemsFit, Unpacked,
      Landed, AllSound, FromSave, NameOf, ValidName, OwnName, StartsFor, Asked;
    var name := NameOf(ask.namespace, ask.key);
    var m := At(run, i).manifests[name];
    var req := VisibleIsOneSave(c, lib, run, i, name, saves);
    var saved, a := saves[req].parts, saves[req].a;
    FewerBodies(c, saves, req, items);
    ItemsAreSaved(c, lib, m, req, saved, a, items);
    if AllSound(lib, a, saved) {
      UnpackedLands(lib, resolve, before, saved, a, max);
    }
    RunGrows(c, run, i, |run|);
    StartsForAsked(m, ask, Last(run).history.issued[req.sid]);
  }

  lemma StartsForAsked(m: Manifest, ask: RestoreRequest, start: StartRequest)
    requires m.namespace == start.namespace && m.key == start.key && m.cacheType == start.cacheType
    requires ValidName(m.namespace, m.key) && ValidName(ask.namespace, ask.key)
    requires NameFor(m) == NameOf(ask.namespace, ask.key) && m.cacheType == ask.cacheType
    ensures StartsFor(start, ask)
    ensures OwnName(ask.namespace, ask.key) ==> Asked(start, ask)
  {
    hide ValidName, NameOf, OwnName;
    StartsForExactly(ask);
  }
}
