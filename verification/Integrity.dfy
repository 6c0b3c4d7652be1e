/** Referential integrity over whole runs: as long as no blob is deleted, every blob that a visible
    manifest refers to is stored if and only if each publication names only blobs stored then. The
    server leaves that to its clients; those that name only blobs acknowledged in their session,
    as the command-line client does, keep it. */
module Integrity {
  import opened Prelude
  import opened Naming
  import opened Manifests
  import opened Protocol
  import opened Safety
  import opened Publications

  /** The store holds the bytes that `digest` stands for, and they are `size` long. */
  ghost predicate Backed(c: Config, blobs: map<string, Bytes>, digest: string, size: nat) {
    var hex := DigestHex(digest);
    hex in blobs && DigestOf(c, blobs[hex]) == digest && |blobs[hex]| == size
  }

  ghost predicate RefsBacked(c: Config, blobs: map<string, Bytes>, refs: seq<BlobRef>) {
    forall b :: b in refs ==> Backed(c, blobs, b.digest, b.size)
  }

  ghost predicate CallBacked(c: Config, blobs: map<string, Bytes>, call: Call) {
    && (call.Counting? || call.Recording? ==> Backed(c, blobs, call.up.digest, |call.up.body|))
    && (call.Publishing? && call.req.blobs == [] ==> RefsBacked(c, blobs, call.manifest.blobs))
  }

  ghost predicate SessionsBacked(c: Config, blobs: map<string, Bytes>, sessions: map<Sid, Session>) {
    forall sid :: sid in sessions ==> RefsBacked(c, blobs, sessions[sid].blobs)
  }

  ghost predicate ManifestsBacked(c: Config, blobs: map<string, Bytes>, manifests: map<ManifestName, Manifest>) {
    forall name :: name in manifests ==> RefsBacked(c, blobs, manifests[name].blobs)
  }

  ghost predicate CallsBacked(c: Config, blobs: map<string, Bytes>, calls: map<Rid, Call>) {
    forall rid :: rid in calls ==> CallBacked(c, blobs, calls[rid])
  }

  ghost predicate AckedBacked(c: Config, blobs: map<string, Bytes>, acked: set<(Sid, string, nat)>) {
    forall t :: t in acked ==> Backed(c, blobs, t.1, t.2)
  }

  ghost predicate AllBacked(c: Config, s: State) {
    && SessionsBacked(c, s.blobs, s.sessions)
    && ManifestsBacked(c, s.blobs, s.manifests)
    && CallsBacked(c, s.blobs, s.calls)
    && AckedBacked(c, s.blobs, s.history.acked)
  }

  /** If the step publishes a request that lists blobs, they are all stored. */
  ghost predicate PublishesStored(c: Config, s: State, a: Action) {
    a.PublishManifest? && !a.how.Refused? && a.rid in s.calls && s.calls[a.rid].Publishing?
    && s.calls[a.rid].req.blobs != []
    ==> RefsBacked(c, s.blobs, s.calls[a.rid].req.blobs)
  }

  /** A finish request naming only blobs acknowledged in its own session. */
  predicate Acknowledged(h: History, req: FinishRequest) {
    forall b :: b in req.blobs ==> (req.sid, b.digest, b.size) in h.acked
  }

  predicate Tame(s: State, a: Action) {
    !a.DeleteBlob? && (a.BeginFinish? ==> Acknowledged(s.history, a.req))
  }

  predicate TameRun(run: Run) {
    forall i :: 0 <= i < |run| ==> Tame(At(run, i), run[i].action)
  }

  // ---- A store that only grows ----

  ghost predicate Includes(blobs': map<string, Bytes>, blobs: map<string, Bytes>) {
    forall hex :: hex in blobs ==> hex in blobs' && blobs'[hex] == blobs[hex]
  }

  lemma StoreGrows(c: Config, s: State, blobs': map<string, Bytes>)
    requires AllBacked(c, s) && Includes(blobs', s.blobs)
    ensures AllBacked(c, s.(blobs := blobs'))
  {
    hide DigestOf, DigestHex;
    assert forall digest, size :: Backed(c, s.blobs, digest, size) ==> Backed(c, blobs', digest, size);
    hide Backed, Includes;
    assert forall refs :: RefsBacked(c, s.blobs, refs) ==> RefsBacked(c, blobs', refs);
  }

  /** Putting a body under its own digest changes no other object, and not this one either. */
  lemma PutIncludes(c: Config, bodies: set<Bytes>, s: State, up: Upload)
    requires CollisionFree(c, bodies) && Known(bodies, s) && up.body in bodies
    requires ContentAddressed(c, s.blobs) && up.digest == DigestOf(c, up.body)
    ensures Includes(WithBlob(s, up).blobs, s.blobs)
    ensures Backed(c, WithBlob(s, up).blobs, up.digest, |up.body|)
    ensures DigestHex(up.digest) in s.blobs ==> Backed(c, s.blobs, up.digest, |up.body|)
  {
    DigestHexOf(c, up.body);
  }

  // ---- Each kind of change ----

  lemma RetaskBacked(c: Config, s: State, rid: Rid, call: Call)
    requires AllBacked(c, s) && CallBacked(c, s.blobs, call)
    ensures AllBacked(c, Retasked(s, rid, call))
  {
    hide SessionsBacked, ManifestsBacked, AckedBacked, CallBacked;
  }

  lemma PutBacked(c: Config, bodies: set<Bytes>, s: State, rid: Rid, up: Upload, how: How)
    requires CollisionFree(c, bodies) && Known(bodies, s) && up.body in bodies
    requires ContentAddressed(c, s.blobs) && up.digest == DigestOf(c, up.body)
    requires AllBacked(c, s) && (how.Kept? ==> DigestHex(up.digest) in s.blobs)
    ensures AllBacked(c, DoPut(s, rid, up, how))
  {
    hide CollisionFree, Known, ContentAddressed, DigestOf, DigestHex, SizeAt, Backed, Includes;
    PutIncludes(c, bodies, s, up);
    var after := WithBlob(s, up);
    StoreGrows(c, s, after.blobs);
    var s' := DoPut(s, rid, up, how);
    if how.Kept? || how.Refused? {
      RetaskBacked(c, s, rid, s'.calls[rid]);
    } else {
      RetaskBacked(c, after, rid, s'.calls[rid]);
    }
    hide SessionsBacked, ManifestsBacked, AckedBacked, CallsBacked;
  }

  lemma RecordBacked(c: Config, s: State, rid: Rid, up: Upload, deduped: bool)
    requires AllBacked(c, s) && Backed(c, s.blobs, up.digest, |up.body|)
    ensures AllBacked(c, DoRecord(c, s, rid, up, deduped))
  {
    hide Backed, DigestOf, DigestHex;
    RetaskBacked(c, s, rid, Over);
    var s' := DoRecord(c, s, rid, up, deduped);
    assert SessionsBacked(c, s.blobs, s'.sessions);
    hide RefsBacked, CallsBacked, ManifestsBacked, Recorded;
    assert AckedBacked(c, s.blobs, s'.history.acked);
  }

  lemma PublishBacked(c: Config, s: State, rid: Rid, req: FinishRequest, m: Manifest, how: How)
    requires AllBacked(c, s) && RefsBacked(c, s.blobs, m.blobs)
    ensures AllBacked(c, DoPublish(s, rid, req, m, how))
  {
    hide RefsBacked, SessionsBacked, AckedBacked, NameOf;
    var s' := DoPublish(s, rid, req, m, how);
    RetaskBacked(c, s, rid, s'.calls[rid]);
    assert ManifestsBacked(c, s.blobs, s'.manifests);
    hide CallsBacked;
  }

  lemma ReadingBacked(c: Config, s: State, rid: Rid, call: Call)
    requires AllBacked(c, s) && (call.Seen? || call.Fetching? || call.Holding?)
    ensures AllBacked(c, Retasked(s, rid, call))
  {
    hide Backed, RefsBacked;
    RetaskBacked(c, s, rid, call);
  }

  lemma AnswerBacked(c: Config, s: State, rid: Rid, size: nat)
    requires AllBacked(c, s)
    ensures AllBacked(c, Failing(s, rid)) && AllBacked(c, DoFetched(s, rid, size))
  {
    hide Backed, RefsBacked;
    RetaskBacked(c, s, rid, Over);
    hide SessionsBacked, ManifestsBacked, CallsBacked, AckedBacked;
  }

  lemma RefusalBacked(c: Config, s: State, rid: Rid, req: FinishRequest, m: Manifest)
    requires AllBacked(c, s)
    ensures AllBacked(c, DoPublish(s, rid, req, m, Refused))
  {
    RetaskBacked(c, s, rid, Over);
    hide SessionsBacked, ManifestsBacked, CallsBacked, AckedBacked;
  }

  lemma RestartBacked(c: Config, s: State)
    requires AllBacked(c, s)
    ensures AllBacked(c, DoRestart(s))
  {
    hide Backed, RefsBacked;
  }

  lemma BeginFinishBacked(c: Config, s: State, rid: Rid, req: FinishRequest, now: int)
    requires AllBacked(c, s) && req.sid in s.sessions
    ensures AllBacked(c, Retasked(s, rid, Publishing(req, ManifestFor(c, s.sessions[req.sid], req, now))))
  {
    hide Backed, CallsBacked, ManifestsBacked;
    var m := ManifestFor(c, s.sessions[req.sid], req, now);
    assert req.blobs == [] ==> RefsBacked(c, s.blobs, m.blobs);
    hide SessionsBacked, AckedBacked, RefsBacked, AllBacked, ManifestFor;
    RetaskBacked(c, s, rid, Publishing(req, m));
  }

  lemma CreateBacked(c: Config, s: State, sid: Sid, start: StartRequest)
    requires AllBacked(c, s)
    ensures AllBacked(c, DoCreateSession(s, sid, start))
  {
    hide Backed, CallsBacked, ManifestsBacked, AckedBacked;
  }

  lemma LookUpBacked(c: Config, s: State, rid: Rid, ask: RestoreRequest, seen: Option<Manifest>, fails: bool, now: int)
    requires AllBacked(c, s)
    ensures AllBacked(c, DoLookUp(s, rid, ask, seen, fails, now))
  {
    hide Hit, NameOf, TotalSize, SessionsBacked, ManifestsBacked, AckedBacked;
    RetaskBacked(c, s, rid, Over);
    hide CallsBacked;
  }

  lemma CheckBacked(c: Config, s: State, rid: Rid, up: Upload, fails: bool)
    requires AllBacked(c, s) && (DigestHex(up.digest) in s.blobs ==> Backed(c, s.blobs, up.digest, |up.body|))
    ensures AllBacked(c, DoCheck(s, rid, up, fails))
  {
    hide SessionsBacked, ManifestsBacked, AckedBacked, Backed, DigestHex;
    RetaskBacked(c, s, rid, DoCheck(s, rid, up, fails).calls[rid]);
    hide CallsBacked;
  }

  lemma RemovalsBacked(c: Config, s: State, rid: Rid, sid: Sid, name: ManifestName)
    requires AllBacked(c, s)
    ensures AllBacked(c, Retasked(s, rid, Over).(sessions := s.sessions - {sid}))
    ensures AllBacked(c, s.(manifests := s.manifests - {name}))
  {
    RetaskBacked(c, s, rid, Over);
    hide CallsBacked, AckedBacked, RefsBacked;
  }

  lemma CountBacked(c: Config, s: State, rid: Rid, up: Upload)
    requires AllBacked(c, s) && Backed(c, s.blobs, up.digest, |up.body|)
    ensures AllBacked(c, DoCount(s, rid, up))
  {
    hide SessionsBacked, ManifestsBacked, AckedBacked, Backed;
    RetaskBacked(c, s, rid, Recording(up, false));
    hide CallsBacked;
  }

  // ---- All steps ----

  lemma UploadStepBacked(c: Config, bodies: set<Bytes>, s: State, a: Action, call: Call)
    requires CollisionFree(c, bodies) && Known(bodies, s) && CallKnown(bodies, call) && Inv(c, s) && AllBacked(c, s)
    requires CallOk(c, s.history, call) && CallBacked(c, s.blobs, call) && BlobStep(c, s, a, call).Some?
    ensures AllBacked(c, BlobStep(c, s, a, call).value)
  {
    assert ContentAddressed(c, s.blobs);
    if IsUpload(call) {
      PutIncludes(c, bodies, s, call.up);
    }
    hide AllBacked, Inv, DoCheck, DoPut, DoCount, DoRecord, MadeIn, ValidName, DigestOf, DigestHex, CollisionFree,
      Known, ContentAddressed, Includes, WithBlob, Backed, RefsBacked;
    match a {
      case CheckBlob(rid, fails) => CheckBacked(c, s, rid, call.up, fails);
      case PutBlob(rid, how) => PutBacked(c, bodies, s, rid, call.up, how);
      case CountBlob(rid) => CountBacked(c, s, rid, call.up);
      case RecordBlob(rid) => RecordBacked(c, s, rid, call.up, call.deduped);
      case _ =>
    }
  }

  lemma OtherStepBacked(c: Config, s: State, a: Action, call: Call)
    requires AllBacked(c, s) && CallBacked(c, s.blobs, call) && OtherStep(s, a, call).Some?
    requires LaterOther(a) && a.rid in s.calls && s.calls[a.rid] == call
    requires CallOk(c, s.history, call) && PublishesStored(c, s, a)
    ensures AllBacked(c, OtherStep(s, a, call).value)
  {
    hide AllBacked, DoPublish, DoLookUp, DoFetched, Backed, RefsBacked, ValidName, ManifestIn, BlobIn, IsDigest;
    match a {
      case PublishManifest(rid, how) =>
        if how.Refused? {
          RefusalBacked(c, s, rid, call.req, call.manifest);
        } else {
          PublishBacked(c, s, rid, call.req, call.manifest, how);
        }
      case RemoveSession(rid) => RemovalsBacked(c, s, rid, call.req.sid, ManifestName("", ""));
      case ReadManifest(rid) => ReadingBacked(c, s, rid, Seen(call.ask, ManifestIn(s, call.ask)));
      case LookUp(rid, fails, now) =>
        LookUpBacked(c, s, rid, call.ask, if call.Seen? then call.seen else None, fails, now);
      case ReadBlob(rid) => ReadingBacked(c, s, rid, Holding(call.digest, BlobIn(s, call.digest)));
      case AnswerFetch(rid, fails) =>
        AnswerBacked(c, s, rid, if call.Holding? && call.held.Some? then |call.held.value| else 0);
      case FetchOther(rid, size) => AnswerBacked(c, s, rid, size);
      case _ =>
    }
  }

  lemma CallIsBacked(c: Config, s: State, rid: Rid)
    requires AllBacked(c, s) && rid in s.calls
    ensures CallBacked(c, s.blobs, s.calls[rid])
  {
    hide CallBacked;
  }

  lemma BeginsBacked(c: Config, s: State, rid: Rid, up: Upload, ask: RestoreRequest)
    requires AllBacked(c, s)
    ensures AllBacked(c, Retasked(s, rid, Checking(up)))
    ensures AllBacked(c, DoBeginRestore(s, rid, ask))
  {
    hide ValidName, Backed, RefsBacked;
    RetaskBacked(c, s, rid, Checking(up));
    RetaskBacked(c, s, rid, DoBeginRestore(s, rid, ask).calls[rid]);
    hide SessionsBacked, CallsBacked, ManifestsBacked, AckedBacked;
  }

  lemma FirstStepBacked(c: Config, s: State, a: Action)
    requires AllBacked(c, s) && FirstStep(c, s, a).Some? && !a.DeleteBlob?
    ensures AllBacked(c, FirstStep(c, s, a).value)
  {
    hide AllBacked, DoCreateSession, ManifestFor, NameOf, ValidName, Retasked, DoBeginRestore, Acceptable, DoRestart,
      DigestHex;
    match a {
      case RefuseStart(start) => CountersBacked(c, s, FirstStep(c, s, a).value.counters);
      case CreateSession(sid, start) => CreateBacked(c, s, sid, start);
      case BeginBlob(rid, up) => BeginsBacked(c, s, rid, up, RestoreRequest("", Cargo, ""));
      case BeginFinish(rid, req, now) => BeginFinishBacked(c, s, rid, req, now);
      case BeginRestore(rid, ask) => BeginsBacked(c, s, rid, Upload("", "", "", []), ask);
      case BeginFetch(rid, digest) => ReadingBacked(c, s, rid, Fetching(digest));
      case DeleteManifest(name) => RemovalsBacked(c, s, 0, "", name);
      case Restart => RestartBacked(c, s);
      case _ =>
    }
  }

  lemma NextBacked(c: Config, bodies: set<Bytes>, s: State, a: Action)
    requires CollisionFree(c, bodies) && Known(bodies, s) && Inv(c, s) && AllBacked(c, s) && Next(c, s, a).Some?
    requires !a.DeleteBlob? && PublishesStored(c, s, a)
    ensures AllBacked(c, Next(c, s, a).value)
  {
    hide CollisionFree, Known, CallKnown, Inv, AllBacked, BlobStep, OtherStep, FirstStep, CallOk, CallBacked,
      RefsBacked, PublishesStored;
    Parts(c, s);
    if LaterUpload(a) {
      CallIsBacked(c, s, a.rid);
      CallIsKnown(bodies, s, a.rid);
      UploadStepBacked(c, bodies, s, a, s.calls[a.rid]);
    } else if LaterOther(a) {
      CallIsBacked(c, s, a.rid);
      OtherStepBacked(c, s, a, s.calls[a.rid]);
    } else {
      FirstStepBacked(c, s, a);
    }
  }

  lemma CountersBacked(c: Config, s: State, k: Counters)
    requires AllBacked(c, s)
    ensures AllBacked(c, s.(counters := k))
  {}

  lemma InitBacked(c: Config)
    ensures AllBacked(c, INIT)
  {}

  ghost predicate PublishesStoredUpTo(c: Config, run: Run, i: nat)
    requires i <= |run|
  {
    forall j :: 0 <= j < i ==> PublishesStored(c, At(run, j), run[j].action)
  }

  lemma {:induction false} RunBacked(c: Config, run: Run, i: nat)
    requires CollisionFree(c, Uploaded(run)) && IsRun(c, run) && NoDeletes(run) && i <= |run|
    requires PublishesStoredUpTo(c, run, i)
    ensures AllBacked(c, At(run, i))
  {
    hide Inv, Next, AllBacked, PublishesStored, CollisionFree, Known, Uploaded;
    if i == 0 {
      InitBacked(c);
    } else {
      RunBacked(c, run, i - 1);
      RunKeeps(c, run, i - 1);
      RunKnown(c, run, i - 1);
      assert Next(c, At(run, i - 1), run[i - 1].action) == Some(run[i - 1].state);
      NextBacked(c, Uploaded(run), At(run, i - 1), run[i - 1].action);
    }
  }

  // ---- The exact law ----

  ghost predicate AlwaysBacked(c: Config, run: Run) {
    forall i :: 0 <= i <= |run| ==> ManifestsBacked(c, At(run, i).blobs, At(run, i).manifests)
  }

  /** A publication that lists a blob not stored makes its own manifest dangle. */
  lemma PublishNeedsStored(c: Config, s: State, a: Action)
    requires Inv(c, s) && Next(c, s, a).Some? && !PublishesStored(c, s, a)
    ensures var s' := Next(c, s, a).value; !ManifestsBacked(c, s'.blobs, s'.manifests)
  {
    hide RefsBacked, NameOf, ValidName, Inv;
    Parts(c, s);
    var call, s' := s.calls[a.rid], Next(c, s, a).value;
    assert OtherStep(s, a, call) == Some(s');
    assert s'.blobs == s.blobs && NameFor(call.manifest) in s'.manifests;
    assert s'.manifests[NameFor(call.manifest)].blobs == call.req.blobs;
  }

  /** Without deletions, every reference of every visible manifest is backed at every moment if and
      only if each publication that takes effect for a request listing blobs lists only blobs then
      stored under that digest with that size. */
  lemma ReferentialIntegrityExactly(c: Config, run: Run)
    requires CollisionFree(c, Uploaded(run)) && IsRun(c, run) && NoDeletes(run)
    ensures AlwaysBacked(c, run) <==> PublishesStoredUpTo(c, run, |run|)
  {
    hide PublishesStored, Next, CollisionFree, Uploaded, ManifestsBacked, SessionsBacked, CallsBacked, AckedBacked;
    if PublishesStoredUpTo(c, run, |run|) {
      forall i | 0 <= i <= |run|
        ensures ManifestsBacked(c, At(run, i).blobs, At(run, i).manifests)
      {
        RunBacked(c, run, i);
      }
    } else {
      var j :| 0 <= j < |run| && !PublishesStored(c, At(run, j), run[j].action);
      assert Next(c, At(run, j), run[j].action) == Some(run[j].state);
      RunKeeps(c, run, j);
      hide Inv;
      PublishNeedsStored(c, At(run, j), run[j].action);
      assert At(run, j + 1) == run[j].state;
    }
  }

  // ---- The client's discipline ----

  /** Requests being published list only acknowledged blobs. */
  ghost predicate PublishingAcknowledged(s: State) {
    forall req :: IsPublishing(s, req) ==> Acknowledged(s.history, req)
  }

  lemma NextAcknowledged(c: Config, s: State, a: Action)
    requires PublishingAcknowledged(s) && Tame(s, a) && Next(c, s, a).Some?
    ensures PublishingAcknowledged(Next(c, s, a).value)
  {
    hide Next, IsPublishing;
    NextPublishes(c, s, a);
    NextGrows(c, s, a);
  }

  lemma {:induction false} RunAcknowledged(c: Config, run: Run, i: nat)
    requires IsRun(c, run) && TameRun(run) && i <= |run|
    ensures PublishingAcknowledged(At(run, i))
  {
    hide Next, Tame;
    if i == 0 {
      NothingPublishing(INIT);
    } else {
      RunAcknowledged(c, run, i - 1);
      assert Next(c, At(run, i - 1), run[i - 1].action) == Some(run[i - 1].state);
      assert Tame(At(run, i - 1), run[i - 1].action);
      hide PublishingAcknowledged;
      NextAcknowledged(c, At(run, i - 1), run[i - 1].action);
    }
  }

  lemma AcknowledgedIsStored(c: Config, s: State, a: Action)
    requires PublishingAcknowledged(s) && AllBacked(c, s)
    ensures PublishesStored(c, s, a)
  {
    hide Backed, SessionsBacked, ManifestsBacked, CallsBacked, IsPublishing;
    if a.PublishManifest? && a.rid in s.calls && s.calls[a.rid].Publishing? {
      PublishingNow(s, a.rid);
    }
  }

  lemma TameDeletesNothing(run: Run)
    requires TameRun(run)
    ensures NoDeletes(run)
  {
    forall i | 0 <= i < |run|
      ensures !run[i].action.DeleteBlob?
    {
      assert Tame(At(run, i), run[i].action);
    }
  }

  lemma {:induction false} TamePublishesStored(c: Config, run: Run, i: nat)
    requires CollisionFree(c, Uploaded(run)) && IsRun(c, run) && TameRun(run) && i <= |run|
    ensures NoDeletes(run) && PublishesStoredUpTo(c, run, i)
  {
    hide Next, AllBacked, PublishesStored, PublishingAcknowledged, CollisionFree, Uploaded, Acknowledged;
    TameDeletesNothing(run);
    if i > 0 {
      TamePublishesStored(c, run, i - 1);
      RunBacked(c, run, i - 1);
      RunAcknowledged(c, run, i - 1);
      AcknowledgedIsStored(c, At(run, i - 1), run[i - 1].action);
    }
  }

  /** When clients name only what was acknowledged in their session, every blob reference of every
      visible manifest names a stored object that hashes to the digest and has the stated size; so
      does every acknowledged upload. */
  lemma ReferentialIntegrity(c: Config, run: Run, i: nat)
    requires CollisionFree(c, Uploaded(run)) && IsRun(c, run) && TameRun(run) && i <= |run|
    ensures forall name, b :: name in At(run, i).manifests && b in At(run, i).manifests[name].blobs ==>
              Backed(c, At(run, i).blobs, b.digest, b.size)
    ensures forall t :: t in At(run, i).history.acked ==> Backed(c, At(run, i).blobs, t.1, t.2)
  {
    TamePublishesStored(c, run, i);
    RunBacked(c, run, i);
    hide Backed, IsRun, TameRun;
    forall name, b | name in At(run, i).manifests && b in At(run, i).manifests[name].blobs
      ensures Backed(c, At(run, i).blobs, b.digest, b.size)
    {
      assert RefsBacked(c, At(run, i).blobs, At(run, i).manifests[name].blobs);
    }
  }

  // ---- The server does not see to it ----

  const STRAY: BlobRef := BlobRef(SHA256, 0, 0, "none", "server", "blobs/")

  const STRAY_START: StartRequest := StartRequest("a", Generic, "b", None, map[])

  const STRAY_FINISH: FinishRequest := FinishRequest("s", [], [STRAY])

  /** A session, and a finish request naming a blob that was never uploaded. */
  function StrayRun(c: Config): Run {
    var s1 := DoCreateSession(INIT, "s", STRAY_START);
    var m := ManifestFor(c, s1.sessions["s"], STRAY_FINISH, 0);
    var s2 := Retasked(s1, 0, Publishing(STRAY_FINISH, m));
    [Event(CreateSession("s", STRAY_START), s1), Event(BeginFinish(0, STRAY_FINISH, 0), s2),
     Event(PublishManifest(0, Written), DoPublish(s2, 0, STRAY_FINISH, m, Written))]
  }

  /** The server does not check the list a finish request brings: one that names a blob never
      acknowledged makes a manifest visible whose reference is not backed, with nothing deleted. */
  lemma UnacknowledgedDangles(c: Config)
    ensures IsRun(c, StrayRun(c)) && !TameRun(StrayRun(c))
    ensures forall e :: e in StrayRun(c) ==> !e.action.DeleteBlob?
    ensures var s := Last(StrayRun(c)); var name := NameOf("a", "b");
            name in s.manifests && STRAY in s.manifests[name].blobs && !Backed(c, s.blobs, STRAY.digest, STRAY.size)
  {
    var run := StrayRun(c);
    assert ValidName("a", "b");
    forall i | 0 <= i < |run|
      ensures Next(c, At(run, i), run[i].action) == Some(run[i].state)
    {
      hide NameOf, ValidName;
      assert i == 0 || i == 1 || i == 2;
    }
    assert (STRAY_FINISH.sid, STRAY.digest, STRAY.size) !in At(run, 1).history.acked;
    assert STRAY in STRAY_FINISH.blobs;
    assert !Tame(At(run, 1), run[1].action);
  }
}
