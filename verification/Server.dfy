/** The handlers of the server as code over shared state. Each atomic section is one step of the
    protocol machine, other requests step in between (`Await`), and what a handler promises its
    client is stated about the run it took part in (api_save.rs, api_rest.rs, api.rs). */
module Server {
  import opened Prelude
  import opened Naming
  import opened Manifests
  import opened Protocol
  import opened Safety

  datatype BlobReply = SessionGone | BodyTooLarge | DigestMismatch | StoreFailed
                     | Uploaded(size: nat, already: bool)

  datatype FinishReply = NoSession | PublishFailed | Finished(key: string, uploaded: nat, deduped: nat, count: nat)

  datatype RestoreReply = BadRequest | LookUpFailed | Miss | Found(manifest: Manifest)

  datatype FetchReply = NotFound | FetchFailed | Fetched(data: Bytes)

  function CallIn(s: State, rid: Rid): Option<Call> {
    if rid in s.calls then Some(s.calls[rid]) else None
  }

  // ---- What was true at some moment from event `i` on ----

  ghost predicate ManifestDuring(run: Run, i: nat, name: ManifestName, m: Manifest) {
    exists j :: i <= j <= |run| && name in At(run, j).manifests && At(run, j).manifests[name] == m
  }

  /** No manifest has the name asked for, or the one that has is of another type or has expired. */
  predicate NoneUsable(manifests: map<ManifestName, Manifest>, ask: RestoreRequest, now: int) {
    var name := NameOf(ask.namespace, ask.key);
    name !in manifests || manifests[name].cacheType != ask.cacheType || IsExpired(manifests[name], now)
  }

  ghost predicate NoHitDuring(run: Run, i: nat, ask: RestoreRequest, now: int) {
    exists j :: i <= j <= |run| && NoneUsable(At(run, j).manifests, ask, now)
  }

  /** One of the events from `i` on is action `a`. */
  ghost predicate Happened(run: Run, i: nat, a: Action) {
    exists j :: i <= j < |run| && run[j].action == a
  }

  ghost predicate BlobDuring(run: Run, i: nat, hex: string, data: Bytes) {
    exists j :: i <= j <= |run| && hex in At(run, j).blobs && At(run, j).blobs[hex] == data
  }

  ghost predicate PresenceDuring(run: Run, i: nat, hex: string, present: bool) {
    exists j :: i <= j <= |run| && (hex in At(run, j).blobs) == present
  }

  class CacheServer {
    const config: Config
    var sessions: map<Sid, Session>
    var blobs: map<string, Bytes>
    var manifests: map<ManifestName, Manifest>
    var counters: Counters
    ghost var calls: map<Rid, Call>
    ghost var history: History
    ghost var run: Run

    ghost function View(): State
      reads this
    {
      State(sessions, blobs, manifests, counters, calls, history)
    }

    /** The state is where some run of the protocol has led. */
    ghost predicate Valid()
      reads this
    {
      IsRun(config, run) && Last(run) == View()
    }

    constructor (config: Config)
      ensures Valid() && this.config == config && run == []
    {
      this.config := config;
      sessions, blobs, manifests, counters := map[], map[], map[], ZERO;
      calls, history, run := map[], History(map[], {}, {}, 0, 0, 0, 0), [];
    }

    /** The fields have just been changed by action `a`. */
    ghost method Took(a: Action)
      requires IsRun(config, run) && Next(config, Last(run), a) == Some(View())
      modifies this`run
      ensures Valid() && run == old(run) + [Event(a, View())]
    {
      hide Next;
      var was := run;
      run := run + [Event(a, View())];
      forall i | 0 <= i < |run|
        ensures Next(config, At(run, i), run[i].action) == Some(run[i].state)
      {
        assert At(run, i) == At(was, i);
      }
    }

    /** Any number of steps of other requests. */
    method Await(ghost me: Rid)
      requires Valid()
      modifies this
      ensures Valid() && old(run) <= run && CallIn(View(), me) == old(CallIn(View(), me))
    {}

    /** Any number of steps of the server while a client is busy. */
    method Elapse()
      requires Valid()
      modifies this
      ensures Valid() && old(run) <= run
    {}

    // ---- save_start ----

    /** `uuid` is the session identifier drawn, which is new. */
    method SaveStart(start: StartRequest, uuid: Sid) returns (ok: bool)
      requires Valid() && uuid !in history.issued
      modifies this
      ensures Valid() && old(run) < run
      ensures ok <==> && 1 <= |start.namespace| <= 253
                      && (forall i :: 0 <= i < |start.namespace| ==>
                            var c := start.namespace[i];
                            || 'a' <= c <= 'z' || 'A' <= c <= 'Z' || '0' <= c <= '9'
                            || c in {'-', '_', '.', '/'})
                      && 1 <= |start.key| <= 1024
                      && (forall i :: 0 <= i < |start.key| - 1 ==> start.key[i] != '.' || start.key[i + 1] != '.')
      ensures ok <==> ValidName(start.namespace, start.key)
      ensures ok ==> uuid in history.issued && history.issued[uuid] == start
      ensures run == old(run) + [Event(if ok then CreateSession(uuid, start) else RefuseStart(start), View())]
    {
      hide IsRun, ValidNamespace, ValidKey;
      ValidNameExactly(start.namespace, start.key);
      counters := counters.(saves := counters.saves + 1);
      ok := ValidName(start.namespace, start.key);
      if ok {
        sessions := sessions[uuid := Session(start, [], 0, 0)];
        history := history.(issued := history.issued[uuid := start]);
        Took(CreateSession(uuid, start));
      } else {
        Took(RefuseStart(start));
      }
    }

    // ---- save_blob, section by section ----

    ghost method Begin(up: Upload, me: Rid)
      requires Valid() && me !in calls && Acceptable(config, View(), up)
      modifies this`calls, this`run
      ensures Valid() && CallIn(View(), me) == Some(Checking(up))
      ensures run == old(run) + [Event(BeginBlob(me, up), View())]
    {
      hide IsRun, DigestOf;
      calls := calls[me := Checking(up)];
      Took(BeginBlob(me, up));
    }

    /** `has_blob`; `None` on a failing store. */
    method Check(up: Upload, ghost me: Rid) returns (present: Option<bool>)
      requires Valid() && CallIn(View(), me) == Some(Checking(up))
      modifies this
      ensures Valid() && run == old(run) + [Event(CheckBlob(me, present.None?), View())]
      ensures CallIn(View(), me) == Some(match present
                                         case None => Over
                                         case Some(p) => if p then Recording(up, true) else Storing(up))
      ensures present.Some? ==> PresenceDuring(run, |old(run)|, DigestHex(up.digest), present.value)
    {
      hide IsRun, DigestHex;
      var fails: bool := *;
      if fails {
        counters := counters.(backendErrors := counters.backendErrors + 1);
        calls := calls[me := Over];
        present := None;
      } else if DigestHex(up.digest) in blobs {
        counters := counters.(dedupHits := counters.dedupHits + 1);
        calls := calls[me := Recording(up, true)];
        present := Some(true);
      } else {
        calls := calls[me := Storing(up)];
        present := Some(false);
      }
      Took(CheckBlob(me, fails));
      assert At(run, |run|) == View();
    }

    /** `put_blob` of either back end: it may keep what is there or write, and a failure may come
        before or after the effect. */
    method Put(up: Upload, ghost me: Rid) returns (ok: bool, ghost how: How)
      requires Valid() && CallIn(View(), me) == Some(Storing(up))
      modifies this
      ensures Valid() && run == old(run) + [Event(PutBlob(me, how), View())]
      ensures ok <==> how.Kept? || how.Written?
      ensures CallIn(View(), me) == Some(if ok then Counting(up) else Over)
    {
      hide IsRun, DigestHex;
      var hex := DigestHex(up.digest);
      var writes: bool := *;
      writes := writes || hex !in blobs;
      ok := *;
      how := if ok then (if writes then Written else Kept) else if writes then Lost else Refused;
      history := history.(again := if how.Refused? then history.again else history.again + SizeAt(blobs, hex),
                          lost := if how.Lost? then history.lost + |up.body| else history.lost);
      if writes {
        blobs := blobs[hex := up.body];
      }
      if ok {
        calls := calls[me := Counting(up)];
      } else {
        counters := counters.(backendErrors := counters.backendErrors + 1);
        calls := calls[me := Over];
      }
      Took(PutBlob(me, how));
    }

    method Count(up: Upload, ghost me: Rid)
      requires Valid() && CallIn(View(), me) == Some(Counting(up))
      modifies this
      ensures Valid() && CallIn(View(), me) == Some(Recording(up, false))
      ensures run == old(run) + [Event(CountBlob(me), View())]
    {
      hide IsRun;
      counters := counters.(bytesUploaded := counters.bytesUploaded + |up.body|);
      calls := calls[me := Recording(up, false)];
      Took(CountBlob(me));
    }

    /** `put_blob` and, if it succeeds, the upload counter. */
    method Store(up: Upload, ghost me: Rid) returns (ok: bool)
      requires Valid() && CallIn(View(), me) == Some(Storing(up))
      modifies this
      ensures Valid() && old(run) < run
      ensures CallIn(View(), me) == Some(if ok then Recording(up, false) else Over)
      ensures !ok ==> Happened(run, |old(run)|, PutBlob(me, Refused)) || Happened(run, |old(run)|, PutBlob(me, Lost))
    {
      hide IsRun;
      ghost var how;
      ok, how := Put(up, me);
      if ok {
        Await(me);
        Count(up, me);
        Await(me);
      }
    }

    /** `record_blob`: no effect if the session is gone. */
    method Record(up: Upload, deduped: bool, ghost me: Rid)
      requires Valid() && CallIn(View(), me) == Some(Recording(up, deduped))
      modifies this
      ensures Valid() && CallIn(View(), me) == Some(Over)
      ensures run == old(run) + [Event(RecordBlob(me), View())]
      ensures (up.sid, up.digest, |up.body|) in history.acked
    {
      hide IsRun, DigestHex;
      if up.sid in sessions {
        var session := sessions[up.sid];
        session := session.(blobs := session.blobs + [RefOf(config, up)]);
        if deduped {
          session := session.(deduped := session.deduped + |up.body|);
        } else {
          session := session.(uploaded := session.uploaded + |up.body|);
        }
        sessions := sessions[up.sid := session];
      }
      history := history.(acked := history.acked + {(up.sid, up.digest, |up.body|)});
      calls := calls[me := Over];
      Took(RecordBlob(me));
    }

    /** What follows on the checks: the deduplication check, the put where it is needed, and the note
        in the session. */
    method Keep(up: Upload, ghost me: Rid) returns (r: BlobReply)
      requires Valid() && CallIn(View(), me) == Some(Checking(up))
      modifies this
      ensures Valid() && old(run) < run && CallIn(View(), me) == Some(Over)
      ensures r.StoreFailed? || r.Uploaded?
      ensures r.Uploaded? ==> r.size == |up.body| && (up.sid, up.digest, r.size) in history.acked
      ensures r.Uploaded? ==> PresenceDuring(run, |old(run)|, DigestHex(up.digest), r.already)
      ensures r.StoreFailed? ==> StoreFailure(run, |old(run)|, me)
    {
      hide IsRun, DigestOf, DigestHex, PresenceDuring, Happened;
      ghost var start := run;
      var present := Check(up, me);
      ghost var mid := run;
      if present.None? {
        HappenedNow(run, |start|, CheckBlob(me, true));
        return StoreFailed;
      }
      Await(me);
      if !present.value {
        ghost var before := |run|;
        var ok := Store(up, me);
        if !ok {
          HappenedSince(run, |start|, before);
          return StoreFailed;
        }
      }
      Record(up, present.value, me);
      PresenceSeen(mid, run, |start|, |start|, DigestHex(up.digest));
      return Uploaded(|up.body|, present.value);
    }

    /** A refused upload changes nothing; an acknowledged one is in the history as such; any other
        has met a failing store. */
    method SaveBlob(up: Upload, ghost me: Rid) returns (r: BlobReply)
      requires Valid() && me !in calls
      modifies this
      ensures Valid() && old(run) <= run
      ensures r.SessionGone? <==> up.sid !in old(sessions)
      ensures r.BodyTooLarge? <==> up.sid in old(sessions) && |up.body| > config.maxBlob
      ensures r.DigestMismatch? <==> up.sid in old(sessions) && |up.body| <= config.maxBlob
                                     && up.digest != DigestOf(config, up.body)
      ensures r.SessionGone? || r.BodyTooLarge? || r.DigestMismatch? ==> View() == old(View())
      ensures r.Uploaded? ==> r.size == |up.body| && (up.sid, up.digest, r.size) in history.acked
      ensures r.Uploaded? ==> PresenceDuring(run, |old(run)|, DigestHex(up.digest), r.already)
      ensures r.Uploaded? || r.StoreFailed? ==>
                |old(run)| < |run| && run[|old(run)|].action == BeginBlob(me, up) && CallIn(View(), me) == Some(Over)
      ensures r.StoreFailed? ==> StoreFailure(run, |old(run)|, me)
    {
      hide IsRun, DigestOf, DigestHex, PresenceDuring, StoreFailure;
      ghost var start := run;
      if up.sid !in sessions {
        return SessionGone;
      }
      if |up.body| > config.maxBlob {
        return BodyTooLarge;
      }
      if DigestOf(config, up.body) != up.digest {
        return DigestMismatch;
      }
      Begin(up, me);
      Await(me);
      ghost var before := |run|;
      r := Keep(up, me);
      PresenceSeen(run, run, |start|, before, DigestHex(up.digest));
      FailureSince(run, |start|, before, me);
    }

    // ---- save_finish ----

    method Snapshot(req: FinishRequest, now: int, ghost me: Rid) returns (session: Session, manifest: Manifest)
      requires Valid() && me !in calls && req.sid in sessions
      modifies this`calls, this`run
      ensures Valid() && session == sessions[req.sid] && manifest == ManifestFor(config, session, req, now)
      ensures run == old(run) + [Event(BeginFinish(me, req, now), View())]
      ensures CallIn(View(), me) == Some(Publishing(req, manifest))
    {
      hide IsRun, ManifestFor;
      session := sessions[req.sid];
      manifest := ManifestFor(config, session, req, now);
      calls := calls[me := Publishing(req, manifest)];
      Took(BeginFinish(me, req, now));
    }

    /** `put_manifest` of either back end. */
    method Publish(req: FinishRequest, manifest: Manifest, ghost me: Rid) returns (ok: bool, ghost how: How)
      requires Valid() && CallIn(View(), me) == Some(Publishing(req, manifest))
      modifies this
      ensures Valid() && run == old(run) + [Event(PublishManifest(me, how), View())]
      ensures !how.Kept? && (ok <==> how.Written?)
      ensures CallIn(View(), me) == Some(if ok then Removing(req) else Over)
      ensures ok ==> req in history.published && NameFor(manifest) in manifests
                     && manifests[NameFor(manifest)] == manifest
    {
      hide IsRun, NameOf;
      var writes: bool := *;
      ok := *;
      how := if ok then Written else if writes then Lost else Refused;
      if ok || writes {
        manifests := manifests[NameFor(manifest) := manifest];
        history := history.(published := history.published + {req});
      }
      if ok {
        calls := calls[me := Removing(req)];
      } else {
        counters := counters.(backendErrors := counters.backendErrors + 1);
        calls := calls[me := Over];
      }
      Took(PublishManifest(me, how));
    }

    method Remove(req: FinishRequest, ghost me: Rid)
      requires Valid() && CallIn(View(), me) == Some(Removing(req))
      modifies this
      ensures Valid() && CallIn(View(), me) == Some(Over)
      ensures run == old(run) + [Event(RemoveSession(me), View())]
      ensures history == old(history) && req.sid !in sessions
    {
      hide IsRun;
      sessions := sessions - {req.sid};
      calls := calls[me := Over];
      Took(RemoveSession(me));
    }

    /** `put_manifest`, and if it succeeds the end of the session. */
    method PublishAndRemove(req: FinishRequest, manifest: Manifest, ghost me: Rid) returns (ok: bool)
      requires Valid() && CallIn(View(), me) == Some(Publishing(req, manifest))
      modifies this
      ensures Valid() && old(run) < run && CallIn(View(), me) == Some(Over)
      ensures ok ==> ManifestDuring(run, |old(run)|, NameFor(manifest), manifest)
                     && req in history.published && req.sid !in sessions
      ensures !ok ==> Happened(run, |old(run)|, PublishManifest(me, Refused))
                      || Happened(run, |old(run)|, PublishManifest(me, Lost))
    {
      hide IsRun, NameOf, Happened;
      ghost var start := run;
      ghost var how;
      ok, how := Publish(req, manifest, me);
      if !ok {
        HappenedNow(run, |start|, PublishManifest(me, how));
        return;
      }
      ghost var mid := run;
      SeenNow(run, |start|, NameFor(manifest), manifest);
      Await(me);
      HistoryGrows(config, mid, run);
      Remove(req, me);
      SeenStays(mid, run, |start|, NameFor(manifest), manifest);
    }

    /** On success the manifest that the request made of the session was visible under the session's
        name at some moment, and the session is gone; otherwise the store failed. */
    method SaveFinish(req: FinishRequest, now: int, ghost me: Rid) returns (r: FinishReply, ghost m: Manifest)
      requires Valid() && me !in calls
      modifies this
      ensures Valid() && old(run) <= run
      ensures r.NoSession? <==> req.sid !in old(sessions)
      ensures r.NoSession? ==> View() == old(View())
      ensures req.sid in old(sessions) ==>
                |old(run)| < |run| && run[|old(run)|].action == BeginFinish(me, req, now)
      ensures r.Finished? ==>
                var session := old(sessions)[req.sid];
                && MadeFrom(config, session, req, now, m)
                && ManifestDuring(run, |old(run)|, NameOf(session.start.namespace, session.start.key), m)
                && req in history.published && req.sid !in sessions
                && r == Finished(session.start.key, session.uploaded, session.deduped,
                                 if |req.blobs| == 0 then |session.blobs| else |req.blobs|)
      ensures r.PublishFailed? ==> Happened(run, |old(run)|, PublishManifest(me, Refused))
                                   || Happened(run, |old(run)|, PublishManifest(me, Lost))
      ensures !r.NoSession? ==> CallIn(View(), me) == Some(Over)
    {
      hide IsRun, ManifestFor, NameOf, Happened, ManifestDuring;
      ghost var start := run;
      m := Manifest("", Generic, "", 0, 0, None, [], [], map[]);
      if req.sid !in sessions {
        return NoSession, m;
      }
      var session, manifest := Snapshot(req, now, me);
      m := manifest;
      ManifestForExactly(config, session, req, now, m);
      Await(me);
      ghost var before := |run|;
      var ok := PublishAndRemove(req, manifest, me);
      SeenSince(run, |start|, before, NameFor(m), m);
      HappenedSince(run, |start|, before);
      if !ok {
        return PublishFailed, m;
      }
      return Finished(manifest.key, session.uploaded, session.deduped, |manifest.blobs|), m;
    }

    // ---- restore ----

    method Ask(ask: RestoreRequest, ghost me: Rid) returns (ok: bool)
      requires Valid() && me !in calls
      modifies this
      ensures Valid() && run == old(run) + [Event(BeginRestore(me, ask), View())]
      ensures ok == ValidName(ask.namespace, ask.key)
      ensures CallIn(View(), me) == Some(if ok then Looking(ask) else Over)
    {
      hide IsRun, ValidName;
      counters := counters.(restores := counters.restores + 1);
      ok := ValidName(ask.namespace, ask.key);
      if ok {
        calls := calls[me := Looking(ask)];
      } else {
        calls := calls[me := Over];
        history := history.(refusedRestores := history.refusedRestores + 1);
      }
      Took(BeginRestore(me, ask));
    }

    /** `get_manifest`: what is stored under the name, or a failure. */
    method FindManifest(ask: RestoreRequest, ghost me: Rid) returns (seen: Option<Manifest>, ok: bool)
      requires Valid() && CallIn(View(), me) == Some(Looking(ask))
      modifies this
      ensures Valid() && manifests == old(manifests)
      ensures ok ==> seen == ManifestIn(View(), ask) && CallIn(View(), me) == Some(Seen(ask, seen))
      ensures ok ==> run == old(run) + [Event(ReadManifest(me), View())]
      ensures !ok ==> run == old(run) && CallIn(View(), me) == Some(Looking(ask))
    {
      hide IsRun, NameOf;
      ok := *;
      if ok {
        var name := NameOf(ask.namespace, ask.key);
        seen := if name in manifests then Some(manifests[name]) else None;
        calls := calls[me := Seen(ask, seen)];
        Took(ReadManifest(me));
      } else {
        seen := None;
      }
    }

    /** The decision on what was found, and its counters. */
    method Decide(ask: RestoreRequest, seen: Option<Manifest>, ok: bool, now: int, ghost me: Rid)
      returns (r: RestoreReply)
      requires Valid()
      requires CallIn(View(), me) == Some(Seen(ask, seen)) || (!ok && CallIn(View(), me) == Some(Looking(ask)))
      modifies this
      ensures Valid() && run == old(run) + [Event(LookUp(me, !ok, now), View())]
      ensures r.LookUpFailed? <==> !ok
      ensures r.Found? <==> ok && seen.Some? && seen.value.cacheType == ask.cacheType && !IsExpired(seen.value, now)
      ensures r.Found? ==> r.manifest == seen.value
      ensures !r.BadRequest? && CallIn(View(), me) == Some(Over)
    {
      hide IsRun, NameOf, IsExpired, TotalSize;
      calls := calls[me := Over];
      if !ok {
        counters := counters.(backendErrors := counters.backendErrors + 1);
        history := history.(failedRestores := history.failedRestores + 1);
        r := LookUpFailed;
      } else if seen.None? {
        counters := counters.(misses := counters.misses + 1);
        r := Miss;
      } else if seen.value.cacheType != ask.cacheType {
        counters := counters.(misses := counters.misses + 1);
        r := Miss;
      } else if IsExpired(seen.value, now) {
        counters := counters.(misses := counters.misses + 1);
        r := Miss;
      } else {
        counters := counters.(hits := counters.hits + 1,
                              bytesDownloaded := counters.bytesDownloaded + TotalSize(seen.value.blobs));
        r := Found(seen.value);
      }
      Took(LookUp(me, !ok, now));
    }

    /** A hit returns a manifest that was stored under that name while the request was served, of
        the type asked for and not expired; a miss means that at some moment there was none; a
        failure, that a read has failed. So one that is there all the time is found. */
    method Restore(ask: RestoreRequest, now: int, ghost me: Rid) returns (r: RestoreReply)
      requires Valid() && me !in calls
      modifies this
      ensures Valid() && old(run) < run
      ensures r.BadRequest? <==> !ValidName(ask.namespace, ask.key)
      ensures r.Found? ==> ManifestDuring(run, |old(run)|, NameOf(ask.namespace, ask.key), r.manifest)
      ensures r.Found? ==> r.manifest.cacheType == ask.cacheType && !IsExpired(r.manifest, now)
      ensures r.Miss? ==> NoHitDuring(run, |old(run)|, ask, now)
      ensures r.LookUpFailed? ==> Happened(run, |old(run)|, LookUp(me, true, now))
      ensures run[|old(run)|].action == BeginRestore(me, ask) && CallIn(View(), me) == Some(Over)
      ensures ValidName(ask.namespace, ask.key) && !Happened(run, |old(run)|, LookUp(me, true, now))
              && (forall j :: |old(run)| <= j <= |run| ==> !NoneUsable(At(run, j).manifests, ask, now))
              ==> r.Found?
    {
      hide IsRun, NameOf, ValidName, IsExpired, ManifestIn, ManifestDuring, NoneUsable, NoHitDuring,
        Happened;
      ghost var start := run;
      var valid := Ask(ask, me);
      if !valid {
        return BadRequest;
      }
      Await(me);
      var seen, ok := FindManifest(ask, me);
      ghost var mid := run;
      if ok {
        SeenThere(run, |start|, ask, now);
        Await(me);
        ok := *;        // the read may still fail
      }
      r := Decide(ask, seen, ok, now, me);
      SeenStill(mid, run, |start|, NameOf(ask.namespace, ask.key), seen);
      MissStill(mid, run, |start|, ask, now);
      HappenedNow(run, |start|, LookUp(me, !ok, now));
      UsableThroughout(run, |start|, ask, now);
    }

    // ---- get_blob and the deletions ----

    ghost method BeginToFetch(digest: string, me: Rid)
      requires Valid() && me !in calls
      modifies this`calls, this`run
      ensures Valid() && run == old(run) + [Event(BeginFetch(me, digest), View())]
      ensures CallIn(View(), me) == Some(Fetching(digest))
    {
      hide IsRun;
      calls := calls[me := Fetching(digest)];
      Took(BeginFetch(me, digest));
    }

    /** `get_blob_bytes`, as far as what it finds. */
    method FindBlob(digest: string, ghost me: Rid) returns (held: Option<Bytes>)
      requires Valid() && CallIn(View(), me) == Some(Fetching(digest))
      modifies this
      ensures Valid() && run == old(run) + [Event(ReadBlob(me), View())]
      ensures held == BlobIn(View(), digest) && CallIn(View(), me) == Some(Holding(digest, held))
    {
      hide IsRun, DigestHex;
      held := if DigestHex(digest) in blobs then Some(blobs[DigestHex(digest)]) else None;
      calls := calls[me := Holding(digest, held)];
      Took(ReadBlob(me));
    }

    /** The answer and its counters. */
    method Answer(digest: string, held: Option<Bytes>, ghost me: Rid) returns (r: FetchReply)
      requires Valid() && CallIn(View(), me) == Some(Holding(digest, held))
      modifies this
      ensures Valid() && run == old(run) + [Event(AnswerFetch(me, r.FetchFailed?), View())]
      ensures r.FetchFailed? || r == match held case None => NotFound case Some(data) => Fetched(data)
      ensures CallIn(View(), me) == Some(Over)
    {
      hide IsRun, DigestHex;
      calls := calls[me := Over];
      var fails: bool := *;
      if fails {
        counters := counters.(backendErrors := counters.backendErrors + 1);
        r := FetchFailed;
      } else if held.None? {
        r := NotFound;
      } else {
        counters := counters.(bytesDownloaded := counters.bytesDownloaded + |held.value|);
        r := Fetched(held.value);
      }
      Took(AnswerFetch(me, fails));
    }

    /** A text that is no digest may reach some other file, or none, or fail. */
    method AnswerOther(digest: string, ghost me: Rid) returns (r: FetchReply)
      requires Valid() && !IsDigest(digest) && CallIn(View(), me) == Some(Fetching(digest))
      modifies this
      ensures Valid() && CallIn(View(), me) == Some(Over)
      ensures run == old(run) + [Event(match r
                                       case FetchFailed => AnswerFetch(me, true)
                                       case NotFound => FetchOther(me, 0)
                                       case Fetched(data) => FetchOther(me, |data|), View())]
    {
      hide IsRun, IsDigest;
      calls := calls[me := Over];
      var fails: bool, there: bool, data: Bytes := *, *, *;
      if fails {
        counters := counters.(backendErrors := counters.backendErrors + 1);
        Took(AnswerFetch(me, true));
        return FetchFailed;
      }
      if !there {
        Took(FetchOther(me, 0));
        return NotFound;
      }
      counters := counters.(bytesDownloaded := counters.bytesDownloaded + |data|);
      Took(FetchOther(me, |data|));
      return Fetched(data);
    }

    /** What follows where the text is a digest. */
    method Fetch(digest: string, ghost me: Rid) returns (r: FetchReply)
      requires Valid() && CallIn(View(), me) == Some(Fetching(digest))
      modifies this
      ensures Valid() && old(run) < run && CallIn(View(), me) == Some(Over)
      ensures r.NotFound? ==> PresenceDuring(run, |old(run)|, DigestHex(digest), false)
      ensures r.Fetched? ==> BlobDuring(run, |old(run)|, DigestHex(digest), r.data)
      ensures r.FetchFailed? ==> Happened(run, |old(run)|, AnswerFetch(me, true))
    {
      hide IsRun, DigestHex, IsDigestHex, Happened, BlobDuring, PresenceDuring;
      ghost var start := run;
      var held := FindBlob(digest, me);
      ghost var mid := run;
      HeldThere(run, |start|, digest);
      Await(me);
      r := Answer(digest, held, me);
      HeldStill(mid, run, |start|, DigestHex(digest), held);
      HappenedNow(run, |start|, AnswerFetch(me, r.FetchFailed?));
    }

    /** What is fetched under a digest was in the store under it while the request was served, and
        what is not found was not. Any other text may reach some other file, or none. */
    method GetBlob(digest: string, ghost me: Rid) returns (r: FetchReply)
      requires Valid() && me !in calls
      modifies this
      ensures Valid() && old(run) < run
      ensures IsDigest(digest) && r.NotFound? ==> PresenceDuring(run, |old(run)|, DigestHex(digest), false)
      ensures IsDigest(digest) && r.Fetched? ==> BlobDuring(run, |old(run)|, DigestHex(digest), r.data)
      ensures r.FetchFailed? ==> Happened(run, |old(run)|, AnswerFetch(me, true))
      ensures run[|old(run)|].action == BeginFetch(me, digest) && CallIn(View(), me) == Some(Over)
    {
      hide IsRun, DigestHex, IsDigestHex, Happened, BlobDuring, PresenceDuring;
      ghost var start := run;
      BeginToFetch(digest, me);
      Await(me);
      ghost var before := |run|;
      if !IsDigest(digest) {
        r := AnswerOther(digest, me);
        HappenedNow(run, |start|, run[|run| - 1].action);
        return r;
      }
      r := Fetch(digest, me);
      PresenceSeen(run, run, |start|, before, DigestHex(digest));
      HeldSince(run, |start|, before, DigestHex(digest));
      HappenedSince(run, |start|, before);
    }

    /** `fails` is what the back end answers. After success the object is absent; a failure may come
        before or after the effect. A text that is no digest may remove some other blob or a
        manifest, or nothing that is modelled. */
    method DeleteBlob(digest: string, fails: bool) returns (ok: bool, ghost effect: Option<Action>)
      requires Valid()
      modifies this
      ensures Valid() && ok == !fails
      ensures run == match effect case None => old(run) case Some(a) => old(run) + [Event(a, View())]
      ensures effect.Some? ==> effect.value.DeleteBlob? || effect.value.DeleteManifest?
      ensures IsDigest(digest) && effect.Some? ==> effect == Some(Action.DeleteBlob(digest))
      ensures IsDigest(digest) && ok ==> effect.Some? && DigestHex(digest) !in blobs
    {
      hide IsRun, DigestHex, IsDigestHex;
      var done: bool, manifest: bool, name: ManifestName, other: string := *, *, *, *;
      ok := !fails;
      if IsDigest(digest) {
        if !ok && !done {
          return ok, None;
        }
        other := digest;
        manifest := false;
      } else if !done {
        return ok, None;
      }
      if manifest {
        manifests := manifests - {name};
        effect := Some(Action.DeleteManifest(name));
      } else {
        blobs := blobs - {DigestHex(other)};
        effect := Some(Action.DeleteBlob(other));
      }
      Took(effect.value);
    }

    /** Invalid names are refused where the back end checks them; otherwise `fails` is what it
        answers. After success the manifest is absent; a failure may come before or after the
        effect. */
    method DeleteManifest(namespace: string, key: string, fails: bool) returns (ok: bool, ghost done: bool)
      requires Valid()
      modifies this
      ensures Valid()
      ensures config.checksNames && !ValidName(namespace, key) ==> !ok && !done
      ensures !config.checksNames || ValidName(namespace, key) ==> ok == !fails
      ensures run == if done then old(run) + [Event(Action.DeleteManifest(NameOf(namespace, key)), View())]
                     else old(run)
      ensures ok ==> done && NameOf(namespace, key) !in manifests
    {
      hide IsRun, NameOf, ValidName;
      if config.checksNames && !ValidName(namespace, key) {
        return false, false;
      }
      var happens: bool := *;
      ok := !fails;
      if !ok && !happens {
        return false, false;
      }
      manifests := manifests - {NameOf(namespace, key)};
      Took(Action.DeleteManifest(NameOf(namespace, key)));
      return ok, true;
    }

    /** The server stops, at any moment, and starts again on the same store. */
    method Restart()
      requires Valid()
      modifies this
      ensures Valid() && run == old(run) + [Event(Action.Restart, View())]
      ensures blobs == old(blobs) && manifests == old(manifests) && sessions == map[] && counters == ZERO
    {
      hide IsRun;
      sessions, counters, calls := map[], ZERO, map[];
      history := history.(lost := 0, again := 0, failedRestores := 0, refusedRestores := 0);
      Took(Action.Restart);
    }
  }

  // ---- Lemmas on runs ----

  /** From event `i` on, a step of request `rid` has met a failing store. */
  ghost predicate StoreFailure(run: Run, i: nat, rid: Rid) {
    || Happened(run, i, CheckBlob(rid, true))
    || Happened(run, i, PutBlob(rid, Refused)) || Happened(run, i, PutBlob(rid, Lost))
  }

  lemma HappenedNow(run: Run, i: nat, a: Action)
    requires i < |run| && run[|run| - 1].action == a
    ensures Happened(run, i, a)
  {}

  lemma FailureSince(run: Run, i: nat, i': nat, rid: Rid)
    requires i <= i'
    ensures StoreFailure(run, i', rid) ==> StoreFailure(run, i, rid)
  {}

  lemma HappenedSince(run: Run, i: nat, i': nat)
    requires i <= i'
    ensures forall a :: Happened(run, i', a) ==> Happened(run, i, a)
  {}

  lemma SeenNow(run: Run, i: nat, name: ManifestName, m: Manifest)
    requires i <= |run| && name in Last(run).manifests && Last(run).manifests[name] == m
    ensures ManifestDuring(run, i, name, m)
  {
    assert At(run, |run|) == Last(run);
  }

  lemma SeenSince(run: Run, i: nat, i': nat, name: ManifestName, m: Manifest)
    requires i <= i'
    ensures ManifestDuring(run, i', name, m) ==> ManifestDuring(run, i, name, m)
  {}

  lemma SeenStays(run: Run, run': Run, i: nat, name: ManifestName, m: Manifest)
    requires run <= run' && ManifestDuring(run, i, name, m)
    ensures ManifestDuring(run', i, name, m)
  {
    var j :| i <= j <= |run| && name in At(run, j).manifests && At(run, j).manifests[name] == m;
    assert At(run', j) == At(run, j);
  }

  /** What was found last was there, and if it was no hit there was none. */
  lemma SeenThere(run: Run, i: nat, ask: RestoreRequest, now: int)
    requires i <= |run|
    ensures var seen := ManifestIn(Last(run), ask);
            && (seen.Some? ==> ManifestDuring(run, i, NameOf(ask.namespace, ask.key), seen.value))
            && ((seen.Some? && seen.value.cacheType == ask.cacheType && !IsExpired(seen.value, now))
                || NoHitDuring(run, i, ask, now))
  {
    assert At(run, |run|) == Last(run);
  }

  lemma SeenStill(run: Run, run': Run, i: nat, name: ManifestName, seen: Option<Manifest>)
    requires run <= run'
    ensures seen.Some? && ManifestDuring(run, i, name, seen.value) ==> ManifestDuring(run', i, name, seen.value)
  {
    if seen.Some? && ManifestDuring(run, i, name, seen.value) {
      SeenStays(run, run', i, name, seen.value);
    }
  }

  lemma MissStill(run: Run, run': Run, i: nat, ask: RestoreRequest, now: int)
    requires run <= run'
    ensures NoHitDuring(run, i, ask, now) ==> NoHitDuring(run', i, ask, now)
  {
    assert forall j :: 0 <= j <= |run| ==> At(run', j) == At(run, j);
  }

  lemma UsableThroughout(run: Run, i: nat, ask: RestoreRequest, now: int)
    ensures (forall j :: i <= j <= |run| ==> !NoneUsable(At(run, j).manifests, ask, now))
            ==> !NoHitDuring(run, i, ask, now)
  {}

  lemma HeldThere(run: Run, i: nat, digest: string)
    requires i <= |run|
    ensures match BlobIn(Last(run), digest)
            case None => PresenceDuring(run, i, DigestHex(digest), false)
            case Some(data) => BlobDuring(run, i, DigestHex(digest), data)
  {
    assert At(run, |run|) == Last(run);
  }

  lemma HeldSince(run: Run, i: nat, i': nat, hex: string)
    requires i <= i'
    ensures forall data :: BlobDuring(run, i', hex, data) ==> BlobDuring(run, i, hex, data)
  {}

  lemma HeldStill(run: Run, run': Run, i: nat, hex: string, held: Option<Bytes>)
    requires run <= run' && i <= |run|
    requires match held
             case None => PresenceDuring(run, i, hex, false)
             case Some(data) => BlobDuring(run, i, hex, data)
    ensures match held
            case None => PresenceDuring(run', i, hex, false)
            case Some(data) => BlobDuring(run', i, hex, data)
  {
    assert forall j :: 0 <= j <= |run| ==> At(run', j) == At(run, j);
  }

  lemma PresenceSeen(run: Run, run': Run, i: nat, i': nat, hex: string)
    requires run <= run' && i <= i'
    ensures forall present :: PresenceDuring(run, i', hex, present) ==> PresenceDuring(run', i, hex, present)
  {
    assert forall j :: 0 <= j <= |run| ==> At(run', j) == At(run, j);
  }

  lemma HistoryGrows(c: Config, run: Run, run': Run)
    requires IsRun(c, run') && run <= run'
    ensures Grows(Last(run).history, Last(run').history)
  {
    hide IsRun, Grows;
    RunGrows(c, run', |run|, |run'|);
    assert At(run', |run|) == Last(run);
  }
}
