/** The command-line client's `save` and `restore` loops against the server (ops.rs). Between two
    requests of a client the server may take any steps for others. What a path in a request stands
    for on the local machine is a parameter; the directories saved do not change meanwhile. */
module Client {
  import opened Prelude
  import opened Paths
  import opened FileTree
  import opened Compression
  import opened Archive
  import opened Extract
  import opened RoundTrip
  import opened Naming
  import opened Manifests
  import opened Protocol
  import opened Safety
  import opened Integrity
  import opened Server
  import opened Saves

  /** What `resolve_path` and the checks after it find for a path to be saved. */
  datatype Source = Unresolvable | Absent | NotADirectory | Directory(tree: Listing, modes: Modes, mode: Option<nat>)

  datatype SaveResult = SaveFailed | Saved(key: string, uploaded: nat, deduped: nat, count: nat)

  datatype RestoreResult = RestoreFailed | NoHit | Restored(bytes: nat, files: nat)

  /** The paths among `specs` that are directories, as they were found. */
  ghost function Directories(look: string -> Source, specs: seq<string>): seq<(string, Source)> {
    if specs == [] then []
    else
      var last := specs[|specs| - 1];
      Directories(look, specs[..|specs| - 1]) + (if look(last).Directory? then [(last, look(last))] else [])
  }

  ghost function Trees(saved: seq<Archived>): seq<(string, Source)> {
    seq(|saved|, i requires 0 <= i < |saved| => SourceOf(saved[i]))
  }

  ghost function SourceOf(x: Archived): (string, Source) {
    (x.spec, Directory(x.tree, x.modes, x.mode))
  }

  function BodyBytes(items: seq<Item>): nat {
    if items == [] then 0 else |items[|items| - 1].body| + BodyBytes(items[..|items| - 1])
  }

  lemma {:induction false} Unused(used: set<Rid>) returns (rid: Rid)
    ensures forall r :: r in used ==> r < rid
    decreases |used|
  {
    if used == {} {
      rid := 0;
    } else {
      var r :| r in used;
      var above := Unused(used - {r});
      rid := if r < above then above else r + 1;
      assert forall x :: x in used ==> x == r || x in used - {r};
    }
  }

  // ---- save ----

  /** What the save loop has gathered for `saved`. */
  ghost predicate Gathered(c: Config, lib: Library, h: History, req: FinishRequest, saved: seq<Archived>,
                           a: Algorithm)
  {
    FromSave(c, lib, req, saved, a) && Acknowledged(h, req)
  }

  lemma StillGathered(c: Config, lib: Library, h: History, h': History, req: FinishRequest, saved: seq<Archived>,
                      a: Algorithm)
    requires Gathered(c, lib, h, req, saved, a) && Grows(h, h')
    ensures Gathered(c, lib, h', req, saved, a)
  {
    hide FromSave;
  }

  lemma GatherOne(c: Config, lib: Library, h: History, req: FinishRequest, saved: seq<Archived>, a: Algorithm,
                  path: CachedPath, blob: BlobRef, x: Archived)
    requires Gathered(c, lib, h, req, saved, a) && PathFromSave(c, lib, path, blob, x, a)
    requires (req.sid, blob.digest, blob.size) in h.acked
    ensures Gathered(c, lib, h, req.(paths := req.paths + [path], blobs := req.blobs + [blob]), saved + [x], a)
  {
    hide PathFromSave;
  }

  lemma TreesSnoc(saved: seq<Archived>, x: Archived)
    ensures Trees(saved + [x]) == Trees(saved) + [SourceOf(x)]
  {}

  lemma CreatedIsArchive(lib: Library, tree: Listing, modes: Modes, mode: Option<nat>, files: seq<Path>, a: Algorithm,
                         max: nat, spec: string)
    requires Walked(tree, files) && Created(lib, tree, modes, files, a, max).Ok?
    ensures IsArchive(lib, a,
                      Archived(spec, tree, modes, mode, files, Created(lib, tree, modes, files, a, max).value.0))
    ensures Created(lib, tree, modes, files, a, max).value.1.totalSize == Total(tree, files)
  {
    hide Walked, RawArchive, Compress, Total;
  }

  // ---- Why a save fails ----

  ghost predicate SessionGoneDuring(run: Run, i: nat, sid: Sid) {
    exists j :: i <= j <= |run| && sid !in At(run, j).sessions
  }

  /** An upload of this session, from event `i` on, has met a failing store. */
  ghost predicate UploadMetFailure(run: Run, i: nat, sid: Sid) {
    exists rid, up: Upload :: up.sid == sid && Happened(run, i, BeginBlob(rid, up)) && StoreFailure(run, i, rid)
  }

  ghost predicate ArchiveTooLarge(c: Config, lib: Library, dir: Source, a: Algorithm)
    requires dir.Directory?
  {
    exists x: Archived :: IsArchive(lib, a, x) && x.tree == dir.tree && x.modes == dir.modes && |x.body| > c.maxBlob
  }

  /** The directory holds more than an archive may, its archive is more than the server takes, the
      session is gone, or the store fails. */
  ghost predicate UploadFails(c: Config, lib: Library, run: Run, i: nat, sid: Sid, dir: Source, a: Algorithm, max: nat)
    requires dir.Directory?
  {
    || TreeBytes(dir.tree) > max
    || ArchiveTooLarge(c, lib, dir, a)
    || SessionGoneDuring(run, i, sid)
    || UploadMetFailure(run, i, sid)
  }

  ghost predicate PublishMetFailure(run: Run, i: nat, req: FinishRequest) {
    exists rid, now ::
      && Happened(run, i, BeginFinish(rid, req, now))
      && (Happened(run, i, PublishManifest(rid, Refused)) || Happened(run, i, PublishManifest(rid, Lost)))
  }

  lemma CreatedTooLarge(lib: Library, tree: Listing, modes: Modes, files: seq<Path>, a: Algorithm, max: nat)
    requires WellNamed(tree) && multiset(files) == multiset(FilesIn(tree, []))
    requires Created(lib, tree, modes, files, a, max).Err?
    ensures TreeBytes(tree) > max
  {
    hide Created, WellNamed, FilesIn;
    TooLargeExactly(lib, tree, modes, files, a, max);
  }

  /** What the reply of the server to an upload says, when it is no success. */
  lemma UploadFailed(c: Config, lib: Library, run: Run, i: nat, i': nat, rid: Rid, up: Upload, dir: Source,
                     a: Algorithm, max: nat, x: Archived, reply: BlobReply)
    requires i <= i' <= |run| && dir.Directory? && !reply.Uploaded? && up.digest == DigestOf(c, up.body)
    requires IsArchive(lib, a, x) && x.tree == dir.tree && x.modes == dir.modes && x.body == up.body
    requires reply.SessionGone? ==> up.sid !in At(run, i').sessions
    requires reply.BodyTooLarge? ==> |up.body| > c.maxBlob
    requires reply.DigestMismatch? ==> up.digest != DigestOf(c, up.body)
    requires reply.StoreFailed? ==> i' < |run| && run[i'].action == BeginBlob(rid, up) && StoreFailure(run, i', rid)
    ensures UploadFails(c, lib, run, i, up.sid, dir, a, max)
  {
    hide IsArchive, DigestOf;
    match reply {
      case StoreFailed =>
        FailureSince(run, i, i', rid);
        assert Happened(run, i, BeginBlob(rid, up));
      case _ =>
    }
  }

  /** Archives one directory and uploads it; the acknowledged path and blob reference. */
  method UploadDirectory(server: CacheServer, lib: Library, spec: string, dir: Source, sid: Sid, a: Algorithm, max: nat)
    returns (r: Option<(CachedPath, BlobRef)>, ghost x: Archived)
    requires server.Valid() && dir.Directory? && WellNamed(dir.tree) && max < U64
    modifies server
    ensures server.Valid() && old(server.run) <= server.run
    ensures Grows(old(server.history), server.history)
    ensures r.Some? ==> SourceOf(x) == (spec, dir)
    ensures r.Some? ==> PathFromSave(server.config, lib, r.value.0, r.value.1, x, a)
    ensures r.Some? ==> (sid, r.value.1.digest, r.value.1.size) in server.history.acked
    ensures r.None? ==> UploadFails(server.config, lib, server.run, |old(server.run)|, sid, dir, a, max)
  {
    hide IsRun, DigestOf, RawArchive, Compress, WellNamed, FilesIn, Total, AlgorithmName, Grows, DigestHex;
    ghost var start := server.run;
    var created, files := CreateArchive(lib, Some(dir.tree), dir.modes, a, max);
    if created.Err? {
      HistoryGrows(server.config, start, server.run);
      CreatedTooLarge(lib, dir.tree, dir.modes, files, a, max);
      return None, Archived(spec, End, dir.modes, dir.mode, [], []);
    }
    var (body, header) := created.value;
    x := Archived(spec, dir.tree, dir.modes, dir.mode, files, body);
    assert Contents(Some(dir.tree)) == dir.tree;
    CreatedIsArchive(lib, dir.tree, dir.modes, dir.mode, files, a, max, spec);
    var digest := DigestOf(server.config, body);
    var name := AlgorithmName(a);
    server.Elapse();
    ghost var me := Unused(server.calls.Keys);
    ghost var mid := server.run;
    var up := Upload(sid, digest, name, body);
    var reply := server.SaveBlob(up, me);
    HistoryGrows(server.config, start, server.run);
    if !reply.Uploaded? {
      assert At(server.run, |mid|) == Last(mid);
      UploadFailed(server.config, lib, server.run, |start|, |mid|, me, up, dir, a, max, x, reply);
      return None, x;
    }
    var blob := BlobRef(digest, reply.size, header.totalSize, name, "server", "blobs/" + DigestHex(digest));
    return Some((CachedPath(spec, digest, dir.mode), blob)), x;
  }

  /** A path that ends a save: it does not resolve, or the directory there cannot be uploaded. */
  ghost predicate SpecFails(c: Config, lib: Library, run: Run, i: nat, sid: Sid, found: Source, a: Algorithm,
                            max: nat)
  {
    found.Unresolvable? || (found.Directory? && UploadFails(c, lib, run, i, sid, found, a, max))
  }

  lemma FailsSince(c: Config, lib: Library, run: Run, i: nat, i': nat, sid: Sid, dir: Source, a: Algorithm, max: nat)
    requires i <= i' && dir.Directory? && UploadFails(c, lib, run, i', sid, dir, a, max)
    ensures UploadFails(c, lib, run, i, sid, dir, a, max)
  {
    hide ArchiveTooLarge;
    if UploadMetFailure(run, i', sid) {
      var rid, up: Upload :|
        up.sid == sid && Happened(run, i', BeginBlob(rid, up)) && StoreFailure(run, i', rid);
      FailureSince(run, i, i', rid);
      assert Happened(run, i, BeginBlob(rid, up));
    }
  }

  lemma FinishFailsSince(run: Run, i: nat, i': nat, sid: Sid, req: FinishRequest)
    requires i <= i'
    ensures SessionGoneDuring(run, i', sid) ==> SessionGoneDuring(run, i, sid)
    ensures PublishMetFailure(run, i', req) ==> PublishMetFailure(run, i, req)
  {
    hide Happened;
    HappenedSince(run, i, i');
    if PublishMetFailure(run, i', req) {
      var rid, now :|
        && Happened(run, i', BeginFinish(rid, req, now))
        && (Happened(run, i', PublishManifest(rid, Refused)) || Happened(run, i', PublishManifest(rid, Lost)));
      assert Happened(run, i, BeginFinish(rid, req, now));
    }
  }

  /** `save`. Its one finish request, whatever comes of it, is that of a whole save and names only
      blobs acknowledged in its own session. It fails for a reason: a name that is refused, a path
      that does not resolve or cannot be uploaded, after `at` paths that could, a session that is
      gone, or a failing store. */
  method Save(server: CacheServer, lib: Library, look: string -> Source, specs: seq<string>, start: StartRequest,
              uuid: Sid, a: Algorithm, max: nat, now: int)
    returns (r: SaveResult, ghost req: FinishRequest, ghost saved: seq<Archived>, ghost sent: Option<nat>,
             ghost at: nat)
    requires server.Valid() && uuid !in server.history.issued && max < U64
    requires forall spec :: look(spec).Directory? ==> WellNamed(look(spec).tree)
    modifies server
    ensures server.Valid() && old(server.run) <= server.run
    ensures sent.Some? ==> SentTamely(server.run, |old(server.run)|, sent.value, req)
    ensures sent.Some? ==> FromSave(server.config, lib, req, saved, a)
    ensures sent.Some? ==> req.sid == uuid && Trees(saved) == Directories(look, specs)
    ensures r.Saved? ==> sent.Some? && req in server.history.published && Started(server.history, uuid, start)
                         && ReportAt(server.run, sent.value, req, r)
    ensures r.SaveFailed? && sent.Some? ==> PublishMetFailure(server.run, |old(server.run)|, req)
    ensures r.SaveFailed? && sent.None? ==> at <= |specs| && Trees(saved) == Directories(look, specs[..at])
    ensures r.SaveFailed? && sent.None? ==>
              || !ValidName(start.namespace, start.key)
              || (at == |specs| && SessionGoneDuring(server.run, |old(server.run)|, uuid))
              || (at < |specs| && SpecFails(server.config, lib, server.run, |old(server.run)|, uuid, look(specs[at]), a,
                                            max))
  {
    hide IsRun, WellNamed, ValidName, Grows, FromSave, DigestOf, Acknowledged, PathFromSave, SentTamely, ReportAt,
      UploadFails, SessionGoneDuring, PublishMetFailure;
    ghost var before := server.run;
    req, saved, sent, at := FinishRequest(uuid, [], []), [], None, 0;
    var started := server.SaveStart(start, uuid);
    if !started {
      assert specs[..0] == [];
      return SaveFailed, req, saved, sent, at;
    }
    ghost var issued := server.run;
    var paths: seq<CachedPath>, blobs: seq<BlobRef> := [], [];
    NothingGathered(server.config, lib, server.history, uuid, a);
    for i := 0 to |specs|
      invariant server.Valid() && issued <= server.run
      invariant req == FinishRequest(uuid, paths, blobs)
      invariant Gathered(server.config, lib, server.history, req, saved, a)
      invariant Trees(saved) == Directories(look, specs[..i])
    {
      assert specs[..i + 1][..i] == specs[..i] && specs[..i + 1][i] == specs[i];
      var dir := look(specs[i]);
      at := i;
      if dir.Unresolvable? {
        return SaveFailed, req, saved, sent, at;
      }
      if dir.Absent? || dir.NotADirectory? {
        continue;
      }
      ghost var h := server.history;
      ghost var reached := server.run;
      var up, x := UploadDirectory(server, lib, specs[i], dir, uuid, a, max);
      if up.None? {
        FailsSince(server.config, lib, server.run, |before|, |reached|, uuid, dir, a, max);
        return SaveFailed, req, saved, sent, at;
      }
      StillGathered(server.config, lib, h, server.history, req, saved, a);
      GatherOne(server.config, lib, server.history, req, saved, a, up.value.0, up.value.1, x);
      TreesSnoc(saved, x);
      paths, blobs := paths + [up.value.0], blobs + [up.value.1];
      req, saved := FinishRequest(uuid, paths, blobs), saved + [x];
    }
    assert specs[..|specs|] == specs;
    ghost var gathered := server.run;
    r, sent := Finish(server, lib, paths, blobs, uuid, now, saved, a);
    at := |specs|;
    FinishFailsSince(server.run, |before|, |gathered|, uuid, req);
    if sent.Some? {
      SentLater(server.run, |before|, |gathered|, sent.value, req);
    }
    HistoryGrows(server.config, issued, server.run);
    StillIssued(Last(issued).history, server.history, uuid);
  }

  lemma StillIssued(h: History, h': History, sid: Sid)
    requires sid in h.issued && Grows(h, h')
    ensures sid in h'.issued && h'.issued[sid] == h.issued[sid]
  {}

  /** Event `at`, one from `i` on, is this finish request, and it respects what `Tame` asks. */
  ghost predicate SentTamely(run: Run, i: nat, at: nat, req: FinishRequest) {
    && i <= at < |run|
    && run[at].action.BeginFinish? && run[at].action.req == req
    && Tame(At(run, at), run[at].action)
  }

  /** What the client reports is what its session held, and its manifest listed, at event `at`. */
  ghost predicate ReportAt(run: Run, at: nat, req: FinishRequest, r: SaveResult) {
    && r.Saved? && at <= |run| && req.sid in At(run, at).sessions
    && var session := At(run, at).sessions[req.sid];
       r == Saved(session.start.key, session.uploaded, session.deduped,
                  if req.blobs == [] then |session.blobs| else |req.blobs|)
  }

  ghost predicate Started(h: History, sid: Sid, start: StartRequest) {
    sid in h.issued && h.issued[sid] == start
  }

  lemma SentLater(run: Run, i: nat, i': nat, at: nat, req: FinishRequest)
    requires i <= i' && SentTamely(run, i', at, req)
    ensures SentTamely(run, i, at, req)
  {}

  lemma NothingGathered(c: Config, lib: Library, h: History, sid: Sid, a: Algorithm)
    ensures Gathered(c, lib, h, FinishRequest(sid, [], []), [], a)
  {}

  /** The end of `save`. */
  method Finish(server: CacheServer, lib: Library, paths: seq<CachedPath>, blobs: seq<BlobRef>, sid: Sid, now: int,
                ghost saved: seq<Archived>, ghost a: Algorithm)
    returns (r: SaveResult, ghost sent: Option<nat>)
    requires server.Valid()
    requires Gathered(server.config, lib, server.history, FinishRequest(sid, paths, blobs), saved, a)
    modifies server
    ensures server.Valid() && old(server.run) <= server.run
    ensures sent.Some? ==> SentTamely(server.run, |old(server.run)|, sent.value, FinishRequest(sid, paths, blobs))
    ensures r.Saved? ==> sent.Some? && FinishRequest(sid, paths, blobs) in server.history.published
                         && ReportAt(server.run, sent.value, FinishRequest(sid, paths, blobs), r)
    ensures r.SaveFailed? && sent.None? ==> SessionGoneDuring(server.run, |old(server.run)|, sid)
    ensures r.SaveFailed? && sent.Some? ==>
              PublishMetFailure(server.run, |old(server.run)|, FinishRequest(sid, paths, blobs))
  {
    hide IsRun, Grows, FromSave, Acknowledged, ManifestDuring, MadeFrom, Happened;
    ghost var start := server.run;
    var req := FinishRequest(sid, paths, blobs);
    server.Elapse();
    HistoryGrows(server.config, start, server.run);
    StillGathered(server.config, lib, Last(start).history, server.history, req, saved, a);
    ghost var me := Unused(server.calls.Keys);
    ghost var mid := server.run;
    var reply, m := server.SaveFinish(req, now, me);
    assert At(server.run, |mid|) == Last(mid);
    if reply.NoSession? {
      return SaveFailed, None;
    }
    sent := Some(|mid|);
    PublishFailed(server.run, |start|, |mid|, req, me, now);
    match reply {
      case Finished(key, uploaded, deduped, count) => r := Saved(key, uploaded, deduped, count);
      case _ => r := SaveFailed;
    }
  }

  lemma PublishFailed(run: Run, i: nat, i': nat, req: FinishRequest, rid: Rid, now: int)
    requires i <= i' < |run| && run[i'].action == BeginFinish(rid, req, now)
    ensures Happened(run, i', PublishManifest(rid, Refused)) || Happened(run, i', PublishManifest(rid, Lost)) ==>
              PublishMetFailure(run, i, req)
  {
    HappenedSince(run, i, i');
    assert Happened(run, i, BeginFinish(rid, req, now));
  }

  // ---- restore ----

  /** Why nothing is there to extract: the text is no digest, the blob was not there, its bytes do
      not hash to the digest, or the store failed. */
  ghost predicate FetchFails(c: Config, run: Run, i: nat, digest: string) {
    || !IsDigest(digest)
    || PresenceDuring(run, i, DigestHex(digest), false)
    || (exists data :: BlobDuring(run, i, DigestHex(digest), data) && DigestOf(c, data) != digest)
    || (exists rid :: Happened(run, i, BeginFetch(rid, digest)) && Happened(run, i, AnswerFetch(rid, true)))
  }

  lemma FetchFailsSince(c: Config, run: Run, i: nat, i': nat, digest: string)
    requires i <= i' && FetchFails(c, run, i', digest)
    ensures FetchFails(c, run, i, digest)
  {
    hide DigestOf, DigestHex, IsDigest, Happened, BlobDuring, PresenceDuring;
    PresenceSeen(run, run, i, i', DigestHex(digest));
    HeldSince(run, i, i', DigestHex(digest));
    HappenedSince(run, i, i');
    if rid :| Happened(run, i', BeginFetch(rid, digest)) && Happened(run, i', AnswerFetch(rid, true)) {
      assert Happened(run, i, BeginFetch(rid, digest));
    }
    if data :| BlobDuring(run, i', DigestHex(digest), data) && DigestOf(c, data) != digest {
      assert BlobDuring(run, i, DigestHex(digest), data);
    }
  }

  /** What the reply of the server to a fetch says, when there is nothing to extract. */
  lemma FetchFailed(c: Config, run: Run, i: nat, i': nat, rid: Rid, digest: string, reply: FetchReply)
    requires i <= i' < |run| && run[i'].action == BeginFetch(rid, digest)
    requires reply.FetchFailed? ==> Happened(run, i', AnswerFetch(rid, true))
    requires IsDigest(digest) && reply.NotFound? ==> PresenceDuring(run, i', DigestHex(digest), false)
    requires IsDigest(digest) && reply.Fetched? ==> BlobDuring(run, i', DigestHex(digest), reply.data)
    requires reply.Fetched? ==> DigestOf(c, reply.data) != digest
    ensures FetchFails(c, run, i, digest)
  {
    hide DigestOf, DigestHex, IsDigest, BlobDuring, PresenceDuring;
    assert Happened(run, i', BeginFetch(rid, digest));
    FetchFailsSince(c, run, i, i', digest);
  }

  /** Fetches one blob, checks its digest and extracts it. */
  method RestorePath(server: CacheServer, lib: Library, disk: LocalFs, n: Path, digest: string, a: Algorithm, max: nat)
    returns (r: Option<(Bytes, nat)>, ghost failed: Option<Bytes>)
    requires server.Valid() && AllPlain(n) && WellFormed(disk.nodes)
    modifies server, disk
    ensures server.Valid() && old(server.run) <= server.run && WellFormed(disk.nodes)
    ensures r.Some? ==> DigestOf(server.config, r.value.0) == digest
    ensures r.Some? ==> var (after, header) := ExtractSpec(lib, old(disk.nodes), n, r.value.0, a, max);
                        header.Ok? && disk.nodes == after && r.value.1 == |header.value.entries|
    ensures r.None? && failed.None? ==> disk.nodes == old(disk.nodes)
    ensures r.None? && failed.None? ==> FetchFails(server.config, server.run, |old(server.run)|, digest)
    ensures r.None? && failed.Some? ==> DigestOf(server.config, failed.value) == digest
    ensures r.None? && failed.Some? ==>
              var (after, header) := ExtractSpec(lib, old(disk.nodes), n, failed.value, a, max);
              header.Err? && disk.nodes == after
  {
    hide IsRun, WellFormed, DigestOf, ExtractSpec, DigestHex, BlobDuring, PresenceDuring, IsDigest, FetchFails,
      Happened;
    ghost var start := server.run;
    server.Elapse();
    ghost var me := Unused(server.calls.Keys);
    ghost var mid := server.run;
    var reply := server.GetBlob(digest, me);
    if !reply.Fetched? {
      FetchFailed(server.config, server.run, |start|, |mid|, me, digest, reply);
      return None, None;
    }
    if DigestOf(server.config, reply.data) != digest {
      FetchFailed(server.config, server.run, |start|, |mid|, me, digest, reply);
      return None, None;
    }
    var header := ExtractArchive(lib, reply.data, a, disk, n, max);
    if header.Err? {
      return None, Some(reply.data);
    }
    return Some((reply.data, |header.value.entries|)), None;
  }

  /** Why path `k` of a manifest cannot be restored, with the files then as they are: it does not
      resolve, the manifest does not list its blob or knows no such compression, the blob cannot be
      fetched, or its bytes, which hash to the digest, do not extract. */
  ghost predicate PathFails(c: Config, lib: Library, run: Run, i: nat, resolve: string -> Option<Path>, m: Manifest,
                            k: nat, fs: Fs, max: nat, after: Fs)
    requires k < |m.paths|
  {
    var n, digest := resolve(m.paths[k].originalPath), m.paths[k].archiveDigest;
    || (after == fs && n.None?)
    || (after == fs && forall j :: 0 <= j < |m.blobs| ==> m.blobs[j].digest != digest)
    || (after == fs && FindBlob(m.blobs, digest).Some?
        && ParseAlgorithm(FindBlob(m.blobs, digest).value.compression).None?)
    || (after == fs && FetchFails(c, run, i, digest))
    || (n.Some? && FindBlob(m.blobs, digest).Some?
        && ParseAlgorithm(FindBlob(m.blobs, digest).value.compression).Some?
        && ExtractFails(c, lib, n.value, digest, ParseAlgorithm(FindBlob(m.blobs, digest).value.compression).value, fs,
                        max, after))
  }

  ghost predicate ExtractFails(c: Config, lib: Library, n: Path, digest: string, a: Algorithm, fs: Fs, max: nat,
                               after: Fs)
  {
    exists data ::
      && DigestOf(c, data) == digest
      && ExtractSpec(lib, fs, n, data, a, max).1.Err? && after == ExtractSpec(lib, fs, n, data, a, max).0
  }

  lemma PathFailsSince(c: Config, lib: Library, run: Run, i: nat, i': nat, resolve: string -> Option<Path>, m: Manifest,
                       k: nat, fs: Fs, max: nat, after: Fs)
    requires i <= i' && k < |m.paths| && PathFails(c, lib, run, i', resolve, m, k, fs, max, after)
    ensures PathFails(c, lib, run, i, resolve, m, k, fs, max, after)
  {
    hide ExtractFails, FetchFails, ParseAlgorithm, FindBlob;
    if FetchFails(c, run, i', m.paths[k].archiveDigest) {
      FetchFailsSince(c, run, i, i', m.paths[k].archiveDigest);
    }
  }

  /** The attempt to restore path `k` has ended with `failed`, the bytes that did not extract, or
      before there were any. */
  lemma PathFailed(c: Config, lib: Library, run: Run, i: nat, i': nat, resolve: string -> Option<Path>, m: Manifest,
                   k: nat, a: Algorithm, fs: Fs, failed: Option<Bytes>, max: nat, after: Fs)
    requires i <= i' && k < |m.paths| && resolve(m.paths[k].originalPath).Some?
    requires FindBlob(m.blobs, m.paths[k].archiveDigest).Some?
    requires ParseAlgorithm(FindBlob(m.blobs, m.paths[k].archiveDigest).value.compression) == Some(a)
    requires failed.None? ==> after == fs && FetchFails(c, run, i', m.paths[k].archiveDigest)
    requires failed.Some? ==>
               var n := resolve(m.paths[k].originalPath).value;
               && DigestOf(c, failed.value) == m.paths[k].archiveDigest
               && ExtractSpec(lib, fs, n, failed.value, a, max).1.Err?
               && after == ExtractSpec(lib, fs, n, failed.value, a, max).0
    ensures PathFails(c, lib, run, i, resolve, m, k, fs, max, after)
  {
    hide ExtractSpec, DigestOf, FetchFails, ParseAlgorithm, FindBlob;
    if failed.None? {
      FetchFailsSince(c, run, i, i', m.paths[k].archiveDigest);
    }
  }

  /** The loop of `restore` over the paths of a manifest. It ends after the first path that fails. */
  method RestorePaths(server: CacheServer, lib: Library, disk: LocalFs, resolve: string -> Option<Path>, m: Manifest,
                      max: nat)
    returns (r: Option<(nat, nat)>, ghost items: seq<Item>)
    requires server.Valid() && WellFormed(disk.nodes)
    requires forall spec :: resolve(spec).Some? ==> AllPlain(resolve(spec).value)
    modifies server, disk
    ensures server.Valid() && old(server.run) <= server.run && WellFormed(disk.nodes)
    ensures ItemsFit(server.config, m, items)
    ensures r.Some? ==> |items| == |m.paths| && r.value.0 == BodyBytes(items)
                        && r.value.1 == EntryCount(lib, resolve, old(disk.nodes), items, max)
                        && Unpacked(lib, resolve, old(disk.nodes), items, max) == Some(disk.nodes)
    ensures r.None? ==>
              && |items| < |m.paths| && Unpacked(lib, resolve, old(disk.nodes), items, max).Some?
              && PathFails(server.config, lib, server.run, |old(server.run)|, resolve, m, |items|,
                           Unpacked(lib, resolve, old(disk.nodes), items, max).value, max, disk.nodes)
    ensures r.None? ==> LeftBehind(lib, resolve, old(disk.nodes), items, max, disk.nodes)
  {
    hide IsRun, WellFormed, ExtractSpec, Unpacked, ItemsFit, EntryCount, LeftBehind, BodyBytes, FindBlob, DigestOf,
      FetchFails, PathFails, ParseAlgorithm;
    ghost var start, before := server.run, disk.nodes;
    items := [];
    NoItems(server.config, lib, resolve, before, max);
    var total: nat, files: nat := 0, 0;
    for i := 0 to |m.paths|
      invariant server.Valid() && WellFormed(disk.nodes) && start <= server.run
      invariant |items| == i && ItemsFit(server.config, m, items) && total == BodyBytes(items)
      invariant files == EntryCount(lib, resolve, before, items, max)
      invariant Unpacked(lib, resolve, before, items, max) == Some(disk.nodes)
    {
      SoFar(lib, resolve, before, items, max, disk.nodes);
      var path := m.paths[i];
      var n := resolve(path.originalPath);
      var blob := FindBlob(m.blobs, path.archiveDigest);
      var a := if blob.Some? then ParseAlgorithm(blob.value.compression) else None;
      if n.None? || blob.None? || a.None? {
        NoWay(server.config, lib, server.run, |start|, resolve, m, i, disk.nodes, max);
        return None, items;
      }
      ghost var fs, reached := disk.nodes, server.run;
      var done, failed := RestorePath(server, lib, disk, n.value, path.archiveDigest, a.value, max);
      if done.None? {
        StoppedAt(lib, resolve, before, fs, items, path.originalPath, n.value, failed, a.value, max, disk.nodes);
        PathFailed(server.config, lib, server.run, |start|, |reached|, resolve, m, i, a.value, fs, failed, max,
                   disk.nodes);
        return None, items;
      }
      var (body, entries) := done.value;
      ghost var item := Item(path.originalPath, body, a.value);
      OneMoreItem(server.config, lib, resolve, before, fs, m, items, item, max);
      items := items + [item];
      total := total + |body|;
      files := files + entries;
    }
    return Some((total, files)), items;
  }

  lemma NoWay(c: Config, lib: Library, run: Run, i: nat, resolve: string -> Option<Path>, m: Manifest, k: nat, fs: Fs,
              max: nat)
    requires k < |m.paths|
    requires var blob := FindBlob(m.blobs, m.paths[k].archiveDigest);
             resolve(m.paths[k].originalPath).None? || blob.None? || ParseAlgorithm(blob.value.compression).None?
    ensures PathFails(c, lib, run, i, resolve, m, k, fs, max, fs)
  {
    hide ExtractFails, FetchFails, ParseAlgorithm;
  }

  /** Why a restore fails: a name that is refused, a read of the manifest that failed, or the next
      path of a manifest of that type that was stored under the name and had not expired. */
  ghost predicate RestoreFails(c: Config, lib: Library, run: Run, i: nat, resolve: string -> Option<Path>,
                               ask: RestoreRequest, now: int, before: Fs, items: seq<Item>, max: nat, after: Fs)
  {
    || (!ValidName(ask.namespace, ask.key) && after == before)
    || (LookUpMetFailure(run, i, ask, now) && after == before)
    || (Unpacked(lib, resolve, before, items, max).Some?
        && exists m ::
             && ManifestDuring(run, i, NameOf(ask.namespace, ask.key), m)
             && m.cacheType == ask.cacheType && !IsExpired(m, now)
             && ItemsFit(c, m, items) && |items| < |m.paths|
             && PathFails(c, lib, run, i, resolve, m, |items|, Unpacked(lib, resolve, before, items, max).value, max,
                          after))
  }

  ghost predicate LookUpMetFailure(run: Run, i: nat, ask: RestoreRequest, now: int) {
    exists rid :: Happened(run, i, BeginRestore(rid, ask)) && Happened(run, i, LookUp(rid, true, now))
  }

  lemma LookUpFailedFor(run: Run, i: nat, rid: Rid, ask: RestoreRequest, now: int)
    requires i < |run| && run[i].action == BeginRestore(rid, ask) && Happened(run, i, LookUp(rid, true, now))
    ensures LookUpMetFailure(run, i, ask, now)
  {
    assert Happened(run, i, BeginRestore(rid, ask));
  }

  /** `restore`. A miss has no usable manifest at some moment. When it hits and finishes, and all
      savers are clients, the local files are those before with one published save of that name and
      type restored into them. It fails for a reason, and after a hit not before the path that
      gives it. */
  method Restore(server: CacheServer, lib: Library, disk: LocalFs, resolve: string -> Option<Path>,
                 ask: RestoreRequest, max: nat, now: int)
    returns (r: RestoreResult, ghost items: seq<Item>)
    requires server.Valid() && WellFormed(disk.nodes)
    requires forall spec :: resolve(spec).Some? ==> AllPlain(resolve(spec).value)
    modifies server, disk
    ensures server.Valid() && old(server.run) <= server.run && WellFormed(disk.nodes)
    ensures r.NoHit? ==> disk.nodes == old(disk.nodes) && NoHitDuring(server.run, |old(server.run)|, ask, now)
    ensures r.Restored? ==> r.bytes == BodyBytes(items)
                            && r.files == EntryCount(lib, resolve, old(disk.nodes), items, max)
    ensures r.RestoreFailed? ==> LeftBehind(lib, resolve, old(disk.nodes), items, max, disk.nodes)
    ensures r.RestoreFailed? ==>
              RestoreFails(server.config, lib, server.run, |old(server.run)|, resolve, ask, now, old(disk.nodes), items,
                           max, disk.nodes)
    ensures r.Restored? ==> Unpacked(lib, resolve, old(disk.nodes), items, max) == Some(disk.nodes)
    ensures r.Restored? && Faithful(lib) ==>
              forall saves ::
                ClientRun(server.config, lib, server.run, saves)
                && CollisionFree(server.config, ArchivedBodies(saves) + ItemBodies(items)) ==>
                  OneSaveRestored(server.config, lib, server.history, saves, resolve, ask, old(disk.nodes), disk.nodes,
                                  max)
  {
    hide IsRun, WellFormed, ExtractSpec, CollisionFree, ArchivedBodies, ItemBodies, Faithful, ClientRun,
      OneSaveRestored, Unpacked, ItemsFit, EntryCount, LeftBehind, BodyBytes, ManifestDuring, NoHitDuring, IsExpired,
      ValidName, NameOf, PathFails, Happened, NoneUsable, LookUpMetFailure;
    ghost var start, before := server.run, disk.nodes;
    items := [];
    ghost var me := Unused(server.calls.Keys);
    var reply := server.Restore(ask, now, me);
    if reply.Miss? {
      return NoHit, items;
    }
    NoItems(server.config, lib, resolve, before, max);
    if !reply.Found? {
      if reply.LookUpFailed? {
        LookUpFailedFor(server.run, |start|, me, ask, now);
      }
      return RestoreFailed, items;
    }
    ghost var seen := server.run;
    var done, got := RestorePaths(server, lib, disk, resolve, reply.manifest, max);
    items := got;
    SeenStays(seen, server.run, |start|, NameOf(ask.namespace, ask.key), reply.manifest);
    if done.None? {
      PathFailsSince(server.config, lib, server.run, |start|, |seen|, resolve, reply.manifest, |items|,
                     Unpacked(lib, resolve, before, items, max).value, max, disk.nodes);
      return RestoreFailed, items;
    }
    r := Restored(done.value.0, done.value.1);
    if Faithful(lib) {
      forall saves |
        ClientRun(server.config, lib, server.run, saves)
        && CollisionFree(server.config, ArchivedBodies(saves) + ItemBodies(items))
        ensures OneSaveRestored(server.config, lib, server.history, saves, resolve, ask, before, disk.nodes, max)
      {
        RestoredOneSave(server, lib, seen, |start|, saves, resolve, ask, reply.manifest, items, before, disk.nodes,
                        max);
      }
    }
  }

  lemma NoItems(c: Config, lib: Library, resolve: string -> Option<Path>, fs: Fs, max: nat)
    ensures forall m :: ItemsFit(c, m, [])
    ensures Unpacked(lib, resolve, fs, [], max) == Some(fs) && EntryCount(lib, resolve, fs, [], max) == 0
    ensures LeftBehind(lib, resolve, fs, [], max, fs) && BodyBytes([]) == 0
  {}

  lemma SoFar(lib: Library, resolve: string -> Option<Path>, before: Fs, items: seq<Item>, max: nat, fs: Fs)
    requires Unpacked(lib, resolve, before, items, max) == Some(fs)
    ensures LeftBehind(lib, resolve, before, items, max, fs)
  {}

  lemma StoppedAt(lib: Library, resolve: string -> Option<Path>, before: Fs, fs: Fs, items: seq<Item>, spec: string,
                  n: Path, failed: Option<Bytes>, a: Algorithm, max: nat, after: Fs)
    requires Unpacked(lib, resolve, before, items, max) == Some(fs) && resolve(spec) == Some(n)
    requires failed.None? ==> after == fs
    requires failed.Some? ==> var (fs', header) := ExtractSpec(lib, fs, n, failed.value, a, max);
                              header.Err? && after == fs'
    ensures LeftBehind(lib, resolve, before, items, max, after)
  {
    hide ExtractSpec, Unpacked;
    if failed.Some? {
      assert FailedItem(lib, resolve, fs, Item(spec, failed.value, a), max, after);
    }
  }

  lemma OneMoreItem(c: Config, lib: Library, resolve: string -> Option<Path>, before: Fs, fs: Fs, m: Manifest,
                    items: seq<Item>, item: Item, max: nat)
    requires ItemsFit(c, m, items) && |items| < |m.paths| && ItemFits(c, m, |items|, item)
    requires Unpacked(lib, resolve, before, items, max) == Some(fs)
    requires resolve(item.spec).Some?
    requires ExtractSpec(lib, fs, resolve(item.spec).value, item.body, item.a, max).1.Ok?
    ensures ItemsFit(c, m, items + [item])
    ensures Unpacked(lib, resolve, before, items + [item], max)
            == Some(ExtractSpec(lib, fs, resolve(item.spec).value, item.body, item.a, max).0)
    ensures BodyBytes(items + [item]) == BodyBytes(items) + |item.body|
    ensures EntryCount(lib, resolve, before, items + [item], max)
            == EntryCount(lib, resolve, before, items, max)
               + |ExtractSpec(lib, fs, resolve(item.spec).value, item.body, item.a, max).1.value.entries|
  {
    hide ExtractSpec, ItemFits;
    UnpackedSnoc(lib, resolve, before, items, item, max);
    EntryCountSnoc(lib, resolve, before, items, item, max);
    assert (items + [item])[..|items|] == items;
    assert [item][1..] == [];
  }

  lemma RestoredOneSave(server: CacheServer, lib: Library, seen: Run, i: nat, saves: Saves,
                        resolve: string -> Option<Path>, ask: RestoreRequest, m: Manifest, items: seq<Item>,
                        before: Fs, after: Fs, max: nat)
    requires server.Valid() && seen <= server.run
    requires ManifestDuring(seen, i, NameOf(ask.namespace, ask.key), m) && m.cacheType == ask.cacheType
    requires ClientRun(server.config, lib, server.run, saves) && Faithful(lib)
    requires CollisionFree(server.config, ArchivedBodies(saves) + ItemBodies(items))
    requires forall spec :: resolve(spec).Some? ==> AllPlain(resolve(spec).value)
    requires |items| == |m.paths| && ItemsFit(server.config, m, items) && ValidName(ask.namespace, ask.key)
    requires Unpacked(lib, resolve, before, items, max) == Some(after)
    ensures OneSaveRestored(server.config, lib, server.history, saves, resolve, ask, before, after, max)
  {
    hide IsRun, CollisionFree, ArchivedBodies, ItemBodies, Faithful, ClientRun, ItemsFit, Unpacked, OneSaveRestored;
    SeenStays(seen, server.run, i, NameOf(ask.namespace, ask.key), m);
    var j :| i <= j <= |server.run| && NameOf(ask.namespace, ask.key) in At(server.run, j).manifests
             && At(server.run, j).manifests[NameOf(ask.namespace, ask.key)] == m;
    NoMixing(server.config, lib, server.run, j, saves, resolve, ask, items, before, after, max);
  }
}
