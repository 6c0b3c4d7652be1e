/** What holds in every reachable state of the server, whatever clients do: stored bytes hash to
    their names, published manifests belong to the session that made them, session totals agree
    with the blobs recorded. */
module Safety {
  import opened Prelude
  import opened Naming
  import opened Manifests
  import opened Protocol

  /** Every object in the store hashes to its name. */
  ghost predicate ContentAddressed(c: Config, blobs: map<string, Bytes>) {
    forall hex :: hex in blobs ==> c.hash(blobs[hex]) == hex
  }

  /** `m` is what finishing `req` on a session started by `start` publishes, up to its times and to
      the blobs of a request that names none. */
  ghost predicate Made(c: Config, start: StartRequest, req: FinishRequest, m: Manifest) {
    && m.namespace == start.namespace && m.key == start.key && m.cacheType == start.cacheType
    && m.ttl == Some(match start.ttl case None => c.defaultTtl case Some(ttl) => ttl)
    && m.metadata == start.metadata
    && m.paths == req.paths
    && (req.blobs != [] ==> m.blobs == req.blobs)
  }

  /** `m` is what finishing `req` at time `now` makes of a session, in every field. */
  ghost predicate MadeFrom(c: Config, session: Session, req: FinishRequest, now: int, m: Manifest) {
    && m.namespace == session.start.namespace && m.key == session.start.key
    && m.cacheType == session.start.cacheType && m.metadata == session.start.metadata
    && m.createdAt == now && m.updatedAt == now
    && m.ttl.Some? && (session.start.ttl.Some? ==> m.ttl == session.start.ttl)
    && (session.start.ttl.None? ==> m.ttl.value == c.defaultTtl)
    && m.paths == req.paths
    && (|req.blobs| > 0 ==> m.blobs == req.blobs) && (|req.blobs| == 0 ==> m.blobs == session.blobs)
  }

  lemma ManifestForExactly(c: Config, session: Session, req: FinishRequest, now: int, m: Manifest)
    ensures MadeFrom(c, session, req, now, m) <==> m == ManifestFor(c, session, req, now)
  {}

  ghost predicate MadeIn(c: Config, h: History, req: FinishRequest, m: Manifest) {
    req.sid in h.issued && Made(c, h.issued[req.sid], req, m)
  }

  /** Some finished publication of one request made this manifest, under a name validated when its
      session started. */
  ghost predicate Published(c: Config, h: History, name: ManifestName, m: Manifest) {
    && name == NameFor(m)
    && ValidName(m.namespace, m.key)
    && exists req :: req in h.published && MadeIn(c, h, req, m)
  }

  ghost predicate ManifestsOk(c: Config, h: History, manifests: map<ManifestName, Manifest>) {
    forall name :: name in manifests ==> Published(c, h, name, manifests[name])
  }

  ghost predicate SessionOk(h: History, sid: Sid, session: Session) {
    && sid in h.issued && session.start == h.issued[sid]
    && session.uploaded + session.deduped == TotalSize(session.blobs)
  }

  ghost predicate SessionsOk(h: History, sessions: map<Sid, Session>) {
    forall sid :: sid in sessions ==> SessionOk(h, sid, sessions[sid])
  }

  predicate IsUpload(call: Call) {
    call.Checking? || call.Storing? || call.Counting? || call.Recording?
  }

  ghost predicate CallOk(c: Config, h: History, call: Call) {
    && (IsUpload(call) ==> call.up.digest == DigestOf(c, call.up.body))
    && (call.Publishing? ==> MadeIn(c, h, call.req, call.manifest))
    && (call.Removing? ==> call.req in h.published)
    && (Undecided(call) ==> ValidName(call.ask.namespace, call.ask.key))
  }

  ghost predicate CallsOk(c: Config, h: History, calls: map<Rid, Call>) {
    forall rid :: rid in calls ==> CallOk(c, h, calls[rid])
  }

  ghost predicate IssuedOk(h: History) {
    forall sid :: sid in h.issued ==> ValidName(h.issued[sid].namespace, h.issued[sid].key)
  }

  ghost predicate Inv(c: Config, s: State) {
    && ContentAddressed(c, s.blobs)
    && ManifestsOk(c, s.history, s.manifests)
    && SessionsOk(s.history, s.sessions)
    && CallsOk(c, s.history, s.calls)
    && IssuedOk(s.history)
  }

  // ---- History only grows ----

  ghost predicate Grows(h: History, h': History) {
    && (forall sid :: sid in h.issued ==> sid in h'.issued && h'.issued[sid] == h.issued[sid])
    && h.acked <= h'.acked
    && h.published <= h'.published
  }

  lemma GrowsTransitive(h0: History, h1: History, h2: History)
    requires Grows(h0, h1) && Grows(h1, h2)
    ensures Grows(h0, h2)
  {}

  lemma UploadStepGrows(c: Config, s: State, a: Action, call: Call)
    requires BlobStep(c, s, a, call).Some?
    ensures Grows(s.history, BlobStep(c, s, a, call).value.history)
  {
    hide BlobStep;
    UploadStepEffect(c, s, a, call);
  }

  lemma OtherStepGrows(s: State, a: Action, call: Call)
    requires OtherStep(s, a, call).Some?
    ensures Grows(s.history, OtherStep(s, a, call).value.history)
  {
    hide Hit, NameOf, TotalSize, ManifestIn, BlobIn, DigestHex, IsDigest;
  }

  lemma FirstStepGrows(c: Config, s: State, a: Action)
    requires FirstStep(c, s, a).Some?
    ensures Grows(s.history, FirstStep(c, s, a).value.history)
  {
    hide ValidName, ManifestFor, DigestHex, Acceptable;
  }

  lemma NextGrows(c: Config, s: State, a: Action)
    requires Next(c, s, a).Some?
    ensures Grows(s.history, Next(c, s, a).value.history)
  {
    hide Grows, BlobStep, OtherStep, FirstStep;
    if LaterUpload(a) {
      UploadStepGrows(c, s, a, s.calls[a.rid]);
    } else if LaterOther(a) {
      OtherStepGrows(s, a, s.calls[a.rid]);
    } else {
      FirstStepGrows(c, s, a);
    }
  }

  /** Along a run the history only grows. */
  lemma {:induction false} RunGrows(c: Config, run: Run, i: nat, j: nat)
    requires IsRun(c, run) && i <= j <= |run|
    ensures Grows(At(run, i).history, At(run, j).history)
    decreases j
  {
    hide Next;
    if i < j {
      RunGrows(c, run, i, j - 1);
      assert Next(c, At(run, j - 1), run[j - 1].action) == Some(run[j - 1].state);
      NextGrows(c, At(run, j - 1), run[j - 1].action);
      hide Grows;
      GrowsTransitive(At(run, i).history, At(run, j - 1).history, At(run, j).history);
    }
  }

  lemma MadeGrows(c: Config, h: History, h': History, req: FinishRequest, m: Manifest)
    requires Grows(h, h') && MadeIn(c, h, req, m)
    ensures MadeIn(c, h', req, m)
  {}

  lemma PublishedGrows(c: Config, h: History, h': History, name: ManifestName, m: Manifest)
    requires Grows(h, h') && Published(c, h, name, m)
    ensures Published(c, h', name, m)
  {
    hide ValidName, MadeIn;
    var req :| req in h.published && MadeIn(c, h, req, m);
    MadeGrows(c, h, h', req, m);
    assert req in h'.published;
  }

  lemma CallGrows(c: Config, h: History, h': History, call: Call)
    requires Grows(h, h') && CallOk(c, h, call)
    ensures CallOk(c, h', call)
  {
    hide ValidName;
    if call.Publishing? {
      MadeGrows(c, h, h', call.req, call.manifest);
    }
  }

  lemma HistoryKeeps(c: Config, s: State, h': History)
    requires Inv(c, s) && Grows(s.history, h') && IssuedOk(h')
    ensures Inv(c, s.(history := h'))
  {
    hide Published, CallOk, Made, ValidName, TotalSize, ContentAddressed, IssuedOk;
    forall name | name in s.manifests
      ensures Published(c, h', name, s.manifests[name])
    {
      PublishedGrows(c, s.history, h', name, s.manifests[name]);
    }
    forall rid | rid in s.calls
      ensures CallOk(c, h', s.calls[rid])
    {
      CallGrows(c, s.history, h', s.calls[rid]);
    }
  }

  // ---- Each kind of change ----

  lemma CountersKeep(c: Config, s: State, k: Counters)
    requires Inv(c, s)
    ensures Inv(c, s.(counters := k))
  {}

  lemma RetaskKeeps(c: Config, s: State, rid: Rid, call: Call)
    requires Inv(c, s) && CallOk(c, s.history, call)
    ensures Inv(c, Retasked(s, rid, call))
  {
    hide ContentAddressed, ManifestsOk, SessionsOk, IssuedOk, CallOk;
  }

  lemma FailingKeeps(c: Config, s: State, rid: Rid)
    requires Inv(c, s)
    ensures Inv(c, Failing(s, rid))
  {
    hide Inv;
    RetaskKeeps(c, s, rid, Over);
    CountersKeep(c, Retasked(s, rid, Over), s.counters.(backendErrors := s.counters.backendErrors + 1));
  }

  lemma WithBlobKeeps(c: Config, s: State, up: Upload)
    requires Inv(c, s) && up.digest == DigestOf(c, up.body)
    ensures Inv(c, WithBlob(s, up))
  {
    hide ManifestsOk, SessionsOk, IssuedOk, CallsOk;
    DigestHexOf(c, up.body);
  }

  lemma TalliesKeep(c: Config, s: State, up: Upload)
    requires Inv(c, s)
    ensures Inv(c, WithAgain(s, up)) && Inv(c, WithLost(s, up))
    ensures Inv(c, WithAgain(WithLost(s, up), up))
  {
    hide Inv;
    var lost := WithLost(s, up);
    assert IssuedOk(s.history) by { Parts(c, s); }
    HistoryKeeps(c, s, WithAgain(s, up).history);
    HistoryKeeps(c, s, lost.history);
    HistoryKeeps(c, lost, WithAgain(lost, up).history);
  }

  lemma Parts(c: Config, s: State)
    requires Inv(c, s)
    ensures IssuedOk(s.history)
    ensures forall rid :: rid in s.calls ==> CallOk(c, s.history, s.calls[rid])
    ensures forall sid :: sid in s.sessions ==> SessionOk(s.history, sid, s.sessions[sid])
  {
    hide ManifestsOk, IssuedOk, ContentAddressed, SessionOk, CallOk;
  }

  lemma PutKeeps(c: Config, s: State, rid: Rid, up: Upload, how: How)
    requires Inv(c, s) && up.digest == DigestOf(c, up.body)
    ensures Inv(c, DoPut(s, rid, up, how))
  {
    hide Inv, WithAgain, WithLost, WithBlob, Failing, Retasked;
    TalliesKeep(c, s, up);
    match how {
      case Kept => RetaskKeeps(c, WithAgain(s, up), rid, Counting(up));
      case Written =>
        WithBlobKeeps(c, WithAgain(s, up), up);
        RetaskKeeps(c, WithBlob(WithAgain(s, up), up), rid, Counting(up));
      case Refused => FailingKeeps(c, s, rid);
      case Lost =>
        WithBlobKeeps(c, WithAgain(WithLost(s, up), up), up);
        FailingKeeps(c, WithBlob(WithAgain(WithLost(s, up), up), up), rid);
    }
  }

  lemma SetSessionKeeps(c: Config, s: State, sid: Sid, session: Session)
    requires Inv(c, s) && SessionOk(s.history, sid, session)
    ensures Inv(c, s.(sessions := s.sessions[sid := session]))
  {
    hide ManifestsOk, CallsOk, IssuedOk, ContentAddressed, SessionOk;
  }

  lemma RemoveSessionKeeps(c: Config, s: State, sid: Sid)
    requires Inv(c, s)
    ensures Inv(c, s.(sessions := s.sessions - {sid}))
  {
    hide ManifestsOk, CallsOk, IssuedOk, ContentAddressed, SessionOk;
  }

  lemma RecordedOk(c: Config, h: History, sid: Sid, session: Session, up: Upload, deduped: bool)
    requires SessionOk(h, sid, session)
    ensures SessionOk(h, sid, Recorded(c, session, up, deduped))
  {
    TotalSizeSnoc(session.blobs, RefOf(c, up));
  }

  lemma CreateKeeps(c: Config, s: State, sid: Sid, start: StartRequest)
    requires Inv(c, s) && ValidName(start.namespace, start.key) && sid !in s.history.issued
    ensures Inv(c, DoCreateSession(s, sid, start))
  {
    hide ValidName, ManifestsOk, CallsOk, ContentAddressed;
    var s1 := s.(history := DoCreateSession(s, sid, start).history);
    HistoryKeeps(c, s, s1.history);
    var s2 := s1.(sessions := s1.sessions[sid := Session(start, [], 0, 0)]);
    hide Inv;
    SetSessionKeeps(c, s1, sid, Session(start, [], 0, 0));
    CountersKeep(c, s2, DoCreateSession(s, sid, start).counters);
  }

  lemma CheckKeeps(c: Config, s: State, rid: Rid, up: Upload, fails: bool)
    requires Inv(c, s) && up.digest == DigestOf(c, up.body)
    ensures Inv(c, DoCheck(s, rid, up, fails))
  {
    hide Inv, Failing;
    var s' := DoCheck(s, rid, up, fails);
    FailingKeeps(c, s, rid);
    if !fails {
      RetaskKeeps(c, s, rid, Recording(up, true));
      CountersKeep(c, Retasked(s, rid, Recording(up, true)), s'.counters);
      RetaskKeeps(c, s, rid, Storing(up));
    }
  }

  lemma CountKeeps(c: Config, s: State, rid: Rid, up: Upload)
    requires Inv(c, s) && up.digest == DigestOf(c, up.body)
    ensures Inv(c, DoCount(s, rid, up))
  {
    hide Inv;
    RetaskKeeps(c, s, rid, Recording(up, false));
    CountersKeep(c, Retasked(s, rid, Recording(up, false)), DoCount(s, rid, up).counters);
  }

  lemma RecordKeeps(c: Config, s: State, rid: Rid, up: Upload, deduped: bool)
    requires Inv(c, s)
    ensures Inv(c, DoRecord(c, s, rid, up, deduped))
  {
    hide Inv, Recorded, SessionOk;
    Parts(c, s);
    var s1 := if up.sid in s.sessions
              then s.(sessions := s.sessions[up.sid := Recorded(c, s.sessions[up.sid], up, deduped)]) else s;
    if up.sid in s.sessions {
      RecordedOk(c, s.history, up.sid, s.sessions[up.sid], up, deduped);
      SetSessionKeeps(c, s, up.sid, Recorded(c, s.sessions[up.sid], up, deduped));
    }
    RetaskKeeps(c, s1, rid, Over);
    HistoryKeeps(c, Retasked(s1, rid, Over), DoRecord(c, s, rid, up, deduped).history);
  }

  lemma PublishedNow(c: Config, h: History, req: FinishRequest, m: Manifest)
    requires IssuedOk(h) && req in h.published && MadeIn(c, h, req, m)
    ensures Published(c, h, NameFor(m), m)
  {
    hide ValidName, NameOf;
  }

  lemma WithManifestKeeps(c: Config, s: State, req: FinishRequest, m: Manifest)
    requires Inv(c, s) && MadeIn(c, s.history, req, m)
    ensures Inv(c, WithManifest(s, req, m)) && req in WithManifest(s, req, m).history.published
  {
    hide ContentAddressed, SessionsOk, CallsOk, ValidName, Made, NameOf, Published;
    var s1 := s.(history := WithManifest(s, req, m).history);
    HistoryKeeps(c, s, s1.history);
    PublishedNow(c, s1.history, req, m);
    assert ManifestsOk(c, s1.history, WithManifest(s, req, m).manifests);
  }

  lemma PublishKeeps(c: Config, s: State, rid: Rid, req: FinishRequest, m: Manifest, how: How)
    requires Inv(c, s) && MadeIn(c, s.history, req, m)
    ensures Inv(c, DoPublish(s, rid, req, m, how))
  {
    hide Inv, Failing, Retasked, WithManifest, MadeIn;
    WithManifestKeeps(c, s, req, m);
    FailingKeeps(c, s, rid);
    FailingKeeps(c, WithManifest(s, req, m), rid);
    RetaskKeeps(c, WithManifest(s, req, m), rid, Removing(req));
  }

  lemma LookUpKeeps(c: Config, s: State, rid: Rid, ask: RestoreRequest, seen: Option<Manifest>, fails: bool, now: int)
    requires Inv(c, s)
    ensures Inv(c, DoLookUp(s, rid, ask, seen, fails, now))
  {
    hide Inv, Hit, NameOf, TotalSize;
    Parts(c, s);
    var s' := DoLookUp(s, rid, ask, seen, fails, now);
    FailingKeeps(c, s, rid);
    if fails {
      HistoryKeeps(c, Failing(s, rid), s'.history);
    } else {
      RetaskKeeps(c, s, rid, Over);
      CountersKeep(c, Retasked(s, rid, Over), s'.counters);
    }
  }

  lemma BeginFinishKeeps(c: Config, s: State, rid: Rid, req: FinishRequest, now: int)
    requires Inv(c, s) && req.sid in s.sessions
    ensures Inv(c, Retasked(s, rid, Publishing(req, ManifestFor(c, s.sessions[req.sid], req, now))))
  {
    hide Inv;
    Parts(c, s);
    RetaskKeeps(c, s, rid, Publishing(req, ManifestFor(c, s.sessions[req.sid], req, now)));
  }

  lemma DeletesKeep(c: Config, s: State, hex: string, name: ManifestName)
    requires Inv(c, s)
    ensures Inv(c, s.(blobs := s.blobs - {hex})) && Inv(c, s.(manifests := s.manifests - {name}))
  {
    hide CallsOk, SessionsOk, IssuedOk, Published;
  }

  lemma RestartKeeps(c: Config, s: State)
    requires Inv(c, s)
    ensures Inv(c, DoRestart(s))
  {
    var h' := DoRestart(s).history;
    HistoryKeeps(c, s, h');
    hide ManifestsOk, ContentAddressed, IssuedOk;
  }

  // ---- All steps ----

  lemma UploadStepKeeps(c: Config, s: State, a: Action, call: Call)
    requires Inv(c, s) && CallOk(c, s.history, call) && BlobStep(c, s, a, call).Some?
    ensures Inv(c, BlobStep(c, s, a, call).value)
  {
    hide Inv, DoCheck, DoPut, DoCount, DoRecord, MadeIn, ValidName, DigestOf, DigestHex;
    match a {
      case CheckBlob(rid, fails) => CheckKeeps(c, s, rid, call.up, fails);
      case PutBlob(rid, how) => PutKeeps(c, s, rid, call.up, how);
      case CountBlob(rid) => CountKeeps(c, s, rid, call.up);
      case RecordBlob(rid) => RecordKeeps(c, s, rid, call.up, call.deduped);
      case _ =>
    }
  }

  lemma FetchedKeeps(c: Config, s: State, rid: Rid, size: nat)
    requires Inv(c, s)
    ensures Inv(c, DoFetched(s, rid, size))
  {
    hide Inv;
    RetaskKeeps(c, s, rid, Over);
    CountersKeep(c, Retasked(s, rid, Over), DoFetched(s, rid, size).counters);
  }

  lemma OtherStepKeeps(c: Config, s: State, a: Action, call: Call)
    requires Inv(c, s) && CallOk(c, s.history, call) && OtherStep(s, a, call).Some?
    ensures Inv(c, OtherStep(s, a, call).value)
  {
    hide Inv, DoPublish, DoLookUp, DoFetched, MadeIn, ValidName, DigestOf, ManifestIn, BlobIn, IsDigest;
    match a {
      case PublishManifest(rid, how) => PublishKeeps(c, s, rid, call.req, call.manifest, how);
      case RemoveSession(rid) =>
        RetaskKeeps(c, s, rid, Over);
        RemoveSessionKeeps(c, Retasked(s, rid, Over), call.req.sid);
      case ReadManifest(rid) => RetaskKeeps(c, s, rid, Seen(call.ask, ManifestIn(s, call.ask)));
      case LookUp(rid, fails, now) =>
        LookUpKeeps(c, s, rid, call.ask, if call.Seen? then call.seen else None, fails, now);
      case ReadBlob(rid) => RetaskKeeps(c, s, rid, Holding(call.digest, BlobIn(s, call.digest)));
      case AnswerFetch(rid, fails) =>
        FailingKeeps(c, s, rid);
        FetchedKeeps(c, s, rid, if call.Holding? && call.held.Some? then |call.held.value| else 0);
      case FetchOther(rid, size) => FetchedKeeps(c, s, rid, size);
      case _ =>
    }
  }

  lemma FirstStepKeeps(c: Config, s: State, a: Action)
    requires Inv(c, s) && FirstStep(c, s, a).Some?
    ensures Inv(c, FirstStep(c, s, a).value)
  {
    hide Inv, DoCreateSession, ManifestFor, DigestHex, NameOf, ValidName, Retasked, DoBeginRestore, DoRestart,
      Acceptable;
    match a {
      case RefuseStart(start) => CountersKeep(c, s, FirstStep(c, s, a).value.counters);
      case CreateSession(sid, start) => CreateKeeps(c, s, sid, start);
      case BeginBlob(rid, up) => BeginBlobKeeps(c, s, rid, up);
      case BeginFinish(rid, req, now) => BeginFinishKeeps(c, s, rid, req, now);
      case BeginRestore(rid, ask) => BeginRestoreKeeps(c, s, rid, ask);
      case BeginFetch(rid, digest) => BeginFetchKeeps(c, s, rid, digest);
      case DeleteBlob(digest) => DeletesKeep(c, s, DigestHex(digest), ManifestName("", ""));
      case DeleteManifest(name) => DeletesKeep(c, s, "", name);
      case Restart => RestartKeeps(c, s);
      case _ =>
    }
  }

  lemma BeginFetchKeeps(c: Config, s: State, rid: Rid, digest: string)
    requires Inv(c, s)
    ensures Inv(c, Retasked(s, rid, Fetching(digest)))
  {
    hide Inv;
    RetaskKeeps(c, s, rid, Fetching(digest));
  }

  lemma NextKeeps(c: Config, s: State, a: Action)
    requires Inv(c, s) && Next(c, s, a).Some?
    ensures Inv(c, Next(c, s, a).value)
  {
    hide Inv, BlobStep, OtherStep, FirstStep, CallOk;
    Parts(c, s);
    if LaterUpload(a) {
      UploadStepKeeps(c, s, a, s.calls[a.rid]);
    } else if LaterOther(a) {
      OtherStepKeeps(c, s, a, s.calls[a.rid]);
    } else {
      FirstStepKeeps(c, s, a);
    }
  }

  lemma BeginBlobKeeps(c: Config, s: State, rid: Rid, up: Upload)
    requires Inv(c, s) && Acceptable(c, s, up)
    ensures Inv(c, Retasked(s, rid, Checking(up)))
  {
    hide Inv;
    RetaskKeeps(c, s, rid, Checking(up));
  }

  lemma BeginRestoreKeeps(c: Config, s: State, rid: Rid, ask: RestoreRequest)
    requires Inv(c, s)
    ensures Inv(c, DoBeginRestore(s, rid, ask))
  {
    hide Inv, ValidName;
    Parts(c, s);
    var s' := s.(counters := s.counters.(restores := s.counters.restores + 1));
    CountersKeep(c, s, s'.counters);
    if ValidName(ask.namespace, ask.key) {
      RetaskKeeps(c, s', rid, Looking(ask));
    } else {
      RetaskKeeps(c, s', rid, Over);
      HistoryKeeps(c, Retasked(s', rid, Over), DoBeginRestore(s, rid, ask).history);
    }
  }

  lemma InitSafe(c: Config)
    ensures Inv(c, INIT)
  {}

  lemma {:induction false} RunKeeps(c: Config, run: Run, i: nat)
    requires IsRun(c, run) && i <= |run|
    ensures Inv(c, At(run, i))
  {
    hide Inv, Next;
    if i == 0 {
      InitSafe(c);
    } else {
      RunKeeps(c, run, i - 1);
      assert Next(c, At(run, i - 1), run[i - 1].action) == Some(run[i - 1].state);
      NextKeeps(c, At(run, i - 1), run[i - 1].action);
    }
  }

  /** In every run and at every moment: what a blob request finds hashes to the name it was asked
      under, each visible manifest was made by one finish request for the namespace, key and type
      validated when its session started, and a session's byte totals add up. */
  lemma AlwaysSafe(c: Config, run: Run, i: nat)
    requires IsRun(c, run) && i <= |run|
    ensures forall hex :: hex in At(run, i).blobs ==> c.hash(At(run, i).blobs[hex]) == hex
    ensures forall name :: name in At(run, i).manifests ==>
              Published(c, At(run, i).history, name, At(run, i).manifests[name])
    ensures forall sid :: sid in At(run, i).sessions ==>
              var session := At(run, i).sessions[sid];
              session.uploaded + session.deduped == TotalSize(session.blobs)
  {
    RunKeeps(c, run, i);
    hide Published, TotalSize;
    forall sid | sid in At(run, i).sessions
      ensures var session := At(run, i).sessions[sid];
              session.uploaded + session.deduped == TotalSize(session.blobs)
    {
      assert SessionOk(At(run, i).history, sid, At(run, i).sessions[sid]);
    }
  }

  // ---- Where bodies come from ----

  /** What is stored, or on its way to be, is among `bodies`. */
  ghost predicate Known(bodies: set<Bytes>, s: State) {
    && (forall hex :: hex in s.blobs ==> s.blobs[hex] in bodies)
    && (forall rid :: rid in s.calls ==> CallKnown(bodies, s.calls[rid]))
  }

  predicate CallKnown(bodies: set<Bytes>, call: Call) {
    IsUpload(call) ==> call.up.body in bodies
  }

  lemma RetaskKnown(bodies: set<Bytes>, s: State, s': State, rid: Rid)
    requires Known(bodies, s) && rid in s'.calls && s'.calls == s.calls[rid := s'.calls[rid]]
    requires CallKnown(bodies, s'.calls[rid]) && s'.blobs == s.blobs
    ensures Known(bodies, s')
  {
    hide CallKnown;
  }

  lemma CallIsKnown(bodies: set<Bytes>, s: State, rid: Rid)
    requires Known(bodies, s) && rid in s.calls
    ensures CallKnown(bodies, s.calls[rid])
  {}

  lemma PutKnown(bodies: set<Bytes>, s: State, rid: Rid, up: Upload, how: How)
    requires Known(bodies, s) && up.body in bodies
    ensures Known(bodies, DoPut(s, rid, up, how))
  {
    hide DigestHex, SizeAt;
  }

  lemma UploadStepKnown(c: Config, bodies: set<Bytes>, s: State, a: Action, rid: Rid)
    requires Known(bodies, s) && rid in s.calls && BlobStep(c, s, a, s.calls[rid]).Some? && a.rid == rid
    ensures Known(bodies, BlobStep(c, s, a, s.calls[rid]).value)
  {
    hide DigestHex, Recorded, Known, DoPut;
    var call, s' := s.calls[rid], BlobStep(c, s, a, s.calls[rid]).value;
    CallIsKnown(bodies, s, rid);
    if a.PutBlob? {
      PutKnown(bodies, s, rid, call.up, a.how);
    } else {
      RetaskKnown(bodies, s, s', rid);
    }
  }

  lemma OtherStepKnown(bodies: set<Bytes>, s: State, a: Action, rid: Rid)
    requires Known(bodies, s) && rid in s.calls && OtherStep(s, a, s.calls[rid]).Some? && a.rid == rid
    ensures Known(bodies, OtherStep(s, a, s.calls[rid]).value)
  {
    hide Hit, NameOf, TotalSize, ManifestIn, BlobIn, IsDigest, Known;
    RetaskKnown(bodies, s, OtherStep(s, a, s.calls[rid]).value, rid);
  }

  lemma FirstStepKnown(c: Config, bodies: set<Bytes>, s: State, a: Action)
    requires Known(bodies, s) && FirstStep(c, s, a).Some? && (a.BeginBlob? ==> a.up.body in bodies)
    ensures Known(bodies, FirstStep(c, s, a).value)
  {
    hide ManifestFor, DigestHex, ValidName, Acceptable;
  }

  lemma NextKnown(c: Config, bodies: set<Bytes>, s: State, a: Action)
    requires Known(bodies, s) && Next(c, s, a).Some? && (a.BeginBlob? ==> a.up.body in bodies)
    ensures Known(bodies, Next(c, s, a).value)
  {
    hide Known, BlobStep, OtherStep, FirstStep;
    if LaterUpload(a) {
      UploadStepKnown(c, bodies, s, a, a.rid);
    } else if LaterOther(a) {
      OtherStepKnown(bodies, s, a, a.rid);
    } else {
      FirstStepKnown(c, bodies, s, a);
    }
  }

  /** Nothing is stored that was not uploaded. */
  lemma {:induction false} RunKnown(c: Config, run: Run, i: nat)
    requires IsRun(c, run) && i <= |run|
    ensures Known(Uploaded(run), At(run, i))
  {
    hide Next;
    if i > 0 {
      RunKnown(c, run, i - 1);
      assert Next(c, At(run, i - 1), run[i - 1].action) == Some(run[i - 1].state);
      hide Known;
      NextKnown(c, Uploaded(run), At(run, i - 1), run[i - 1].action);
    }
  }
}
