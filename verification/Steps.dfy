/** The protocol machine read action by action: when each is possible, and what it does to the store,
    to the request it belongs to, and to the sessions. */
module Steps {
  import opened Prelude
  import opened Naming
  import opened Manifests
  import opened Protocol

  /** Where request `rid` stands, `Over` for one that has never come. */
  function Stand(s: State, rid: Rid): Call {
    if rid in s.calls then s.calls[rid] else Over
  }

  /** When an action is possible. A store may always fail; it keeps what it has only where it has it. */
  predicate Possible(c: Config, s: State, a: Action) {
    match a
    case RefuseStart(start) => !ValidName(start.namespace, start.key)
    case CreateSession(sid, start) => ValidName(start.namespace, start.key) && sid !in s.history.issued
    case BeginBlob(rid, up) =>
      rid !in s.calls && up.sid in s.sessions && |up.body| <= c.maxBlob && up.digest == "sha256:" + c.hash(up.body)
    case CheckBlob(rid, _) => Stand(s, rid).Checking?
    case PutBlob(rid, how) =>
      Stand(s, rid).Storing? && (how == Kept ==> DigestHex(s.calls[rid].up.digest) in s.blobs)
    case CountBlob(rid) => Stand(s, rid).Counting?
    case RecordBlob(rid) => Stand(s, rid).Recording?
    case BeginFinish(rid, req, _) => rid !in s.calls && req.sid in s.sessions
    case PublishManifest(rid, how) => Stand(s, rid).Publishing? && how != Kept
    case RemoveSession(rid) => Stand(s, rid).Removing?
    case BeginRestore(rid, _) => rid !in s.calls
    case ReadManifest(rid) => Stand(s, rid).Looking?
    case LookUp(rid, fails, _) => Stand(s, rid).Seen? || (fails && Stand(s, rid).Looking?)
    case BeginFetch(rid, _) => rid !in s.calls
    case ReadBlob(rid) => Stand(s, rid).Fetching?
    case AnswerFetch(rid, fails) => Stand(s, rid).Holding? || (fails && Stand(s, rid).Fetching?)
    case FetchOther(rid, _) => Stand(s, rid).Fetching? && !IsDigest(s.calls[rid].digest)
    case DeleteBlob(_) => true
    case DeleteManifest(_) => true
    case Restart => true
  }

  lemma PossibleExactly(c: Config, s: State, a: Action)
    ensures Next(c, s, a).Some? <==> Possible(c, s, a)
  {
    hide ValidName, DigestHex, IsDigest, DoCreateSession, DoCheck, DoPut, DoCount, DoRecord, DoPublish, DoLookUp,
      DoFetched, Failing, DoBeginRestore, DoRestart, Retasked, ManifestFor, ManifestIn, BlobIn;
  }

  /** What an action leaves stored. */
  predicate StoredAfter(s: State, a: Action, s': State) {
    && (match a
        case PutBlob(rid, how) =>
          rid in s.calls && s.calls[rid].Storing?
          && s'.blobs == if how == Written || how == Lost then
                           s.blobs[DigestHex(s.calls[rid].up.digest) := s.calls[rid].up.body]
                         else s.blobs
        case DeleteBlob(digest) => s'.blobs == s.blobs - {DigestHex(digest)}
        case _ => s'.blobs == s.blobs)
    && (match a
        case PublishManifest(rid, how) =>
          rid in s.calls && s.calls[rid].Publishing?
          && var m := s.calls[rid].manifest;
             s'.manifests == if how == Refused then s.manifests else s.manifests[NameOf(m.namespace, m.key) := m]
        case DeleteManifest(name) => s'.manifests == s.manifests - {name}
        case _ => s'.manifests == s.manifests)
  }

  /** Only puts that take effect and deletions change the store, and so. */
  lemma StoreExactly(c: Config, s: State, a: Action)
    requires Next(c, s, a).Some?
    ensures StoredAfter(s, a, Next(c, s, a).value)
  {
    hide StoredAfter, BlobStep, OtherStep, FirstStep;
    if LaterUpload(a) {
      UploadStore(c, s, a);
    } else if LaterOther(a) {
      OtherStore(c, s, a);
    } else {
      FirstStore(c, s, a);
    }
  }

  lemma UploadStore(c: Config, s: State, a: Action)
    requires LaterUpload(a) && a.rid in s.calls && BlobStep(c, s, a, s.calls[a.rid]).Some?
    ensures StoredAfter(s, a, BlobStep(c, s, a, s.calls[a.rid]).value)
  {
    hide DigestHex, SizeAt, Recorded, NameOf;
  }

  lemma OtherStore(c: Config, s: State, a: Action)
    requires LaterOther(a) && a.rid in s.calls && OtherStep(s, a, s.calls[a.rid]).Some?
    ensures StoredAfter(s, a, OtherStep(s, a, s.calls[a.rid]).value)
  {
    hide DigestHex, NameOf, Hit, TotalSize, ManifestIn, BlobIn, IsDigest;
  }

  lemma FirstStore(c: Config, s: State, a: Action)
    requires !LaterUpload(a) && !LaterOther(a) && FirstStep(c, s, a).Some?
    ensures StoredAfter(s, a, FirstStep(c, s, a).value)
  {
    hide DigestHex, NameOf, ValidName, ManifestFor, Acceptable;
  }

  /** Where an action leaves the request it belongs to. */
  function StandAfter(c: Config, s: State, a: Action): Option<(Rid, Call)> {
    match a
    case BeginBlob(rid, up) => Some((rid, Checking(up)))
    case CheckBlob(rid, fails) =>
      if !Stand(s, rid).Checking? then None
      else
        var up := s.calls[rid].up;
        Some((rid, if fails then Over
                   else if DigestHex(up.digest) in s.blobs then Recording(up, true)
                   else Storing(up)))
    case PutBlob(rid, how) =>
      if !Stand(s, rid).Storing? then None
      else Some((rid, if how == Kept || how == Written then Counting(s.calls[rid].up) else Over))
    case CountBlob(rid) => if Stand(s, rid).Counting? then Some((rid, Recording(s.calls[rid].up, false))) else None
    case RecordBlob(rid) => Some((rid, Over))
    case BeginFinish(rid, req, now) =>
      if req.sid !in s.sessions then None
      else Some((rid, Publishing(req, ManifestFor(c, s.sessions[req.sid], req, now))))
    case PublishManifest(rid, how) =>
      if !Stand(s, rid).Publishing? then None
      else Some((rid, if how == Written then Removing(s.calls[rid].req) else Over))
    case RemoveSession(rid) => Some((rid, Over))
    case BeginRestore(rid, ask) => Some((rid, if ValidName(ask.namespace, ask.key) then Looking(ask) else Over))
    case ReadManifest(rid) =>
      if !Stand(s, rid).Looking? then None
      else
        var ask := s.calls[rid].ask;
        var name := NameOf(ask.namespace, ask.key);
        Some((rid, Seen(ask, if name in s.manifests then Some(s.manifests[name]) else None)))
    case LookUp(rid, _, _) => Some((rid, Over))
    case BeginFetch(rid, digest) => Some((rid, Fetching(digest)))
    case ReadBlob(rid) =>
      if !Stand(s, rid).Fetching? then None
      else
        var hex := DigestHex(s.calls[rid].digest);
        Some((rid, Holding(s.calls[rid].digest, if hex in s.blobs then Some(s.blobs[hex]) else None)))
    case AnswerFetch(rid, _) => Some((rid, Over))
    case FetchOther(rid, _) => Some((rid, Over))
    case _ => None
  }

  /** An action moves its own request and no other; a restart ends them all. */
  lemma CallsExactly(c: Config, s: State, a: Action)
    requires Next(c, s, a).Some?
    ensures Next(c, s, a).value.calls
            == if a == Restart then map[]
               else match StandAfter(c, s, a)
                    case None => s.calls
                    case Some((rid, call)) => s.calls[rid := call]
  {
    hide StandAfter, BlobStep, OtherStep, FirstStep;
    if LaterUpload(a) {
      UploadCalls(c, s, a);
    } else if LaterOther(a) {
      OtherCalls(c, s, a);
    } else {
      FirstCalls(c, s, a);
    }
  }

  lemma UploadCalls(c: Config, s: State, a: Action)
    requires LaterUpload(a) && a.rid in s.calls && BlobStep(c, s, a, s.calls[a.rid]).Some?
    ensures StandAfter(c, s, a).Some? && StandAfter(c, s, a).value.0 == a.rid
    ensures BlobStep(c, s, a, s.calls[a.rid]).value.calls == s.calls[a.rid := StandAfter(c, s, a).value.1]
  {
    hide DigestHex, SizeAt, Recorded, NameOf, ManifestFor;
  }

  lemma OtherCalls(c: Config, s: State, a: Action)
    requires LaterOther(a) && a.rid in s.calls && OtherStep(s, a, s.calls[a.rid]).Some?
    ensures StandAfter(c, s, a).Some? && StandAfter(c, s, a).value.0 == a.rid
    ensures OtherStep(s, a, s.calls[a.rid]).value.calls == s.calls[a.rid := StandAfter(c, s, a).value.1]
  {
    hide DigestHex, NameOf, Hit, TotalSize, IsDigest, ManifestFor;
  }

  lemma FirstCalls(c: Config, s: State, a: Action)
    requires !LaterUpload(a) && !LaterOther(a) && FirstStep(c, s, a).Some?
    ensures FirstStep(c, s, a).value.calls
            == if a == Restart then map[]
               else match StandAfter(c, s, a)
                    case None => s.calls
                    case Some((rid, call)) => s.calls[rid := call]
  {
    hide DigestHex, NameOf, ValidName, ManifestFor, Acceptable;
  }

  /** Sessions come by being created and go by being removed or with a restart. */
  lemma SessionsExactly(c: Config, s: State, a: Action)
    requires Next(c, s, a).Some?
    ensures Next(c, s, a).value.sessions.Keys
            == match a
               case CreateSession(sid, _) => s.sessions.Keys + {sid}
               case RemoveSession(rid) =>
                 if Stand(s, rid).Removing? then s.sessions.Keys - {s.calls[rid].req.sid} else s.sessions.Keys
               case Restart => {}
               case _ => s.sessions.Keys
  {
    hide BlobStep, OtherStep, FirstStep;
    if LaterUpload(a) {
      UploadSessions(c, s, a);
    } else if LaterOther(a) {
      OtherSessions(s, a);
    } else {
      FirstSessions(c, s, a);
    }
  }

  lemma UploadSessions(c: Config, s: State, a: Action)
    requires LaterUpload(a) && a.rid in s.calls && BlobStep(c, s, a, s.calls[a.rid]).Some?
    ensures BlobStep(c, s, a, s.calls[a.rid]).value.sessions.Keys == s.sessions.Keys
  {
    hide DigestHex, SizeAt, Recorded;
  }

  lemma OtherSessions(s: State, a: Action)
    requires LaterOther(a) && a.rid in s.calls && OtherStep(s, a, s.calls[a.rid]).Some?
    ensures OtherStep(s, a, s.calls[a.rid]).value.sessions.Keys
            == if a.RemoveSession? then s.sessions.Keys - {s.calls[a.rid].req.sid} else s.sessions.Keys
    ensures a.RemoveSession? ==> s.calls[a.rid].Removing?
  {
    hide NameOf, Hit, TotalSize, IsDigest, ManifestIn, BlobIn;
  }

  lemma FirstSessions(c: Config, s: State, a: Action)
    requires !LaterUpload(a) && !LaterOther(a) && FirstStep(c, s, a).Some?
    ensures FirstStep(c, s, a).value.sessions.Keys
            == match a
               case CreateSession(sid, _) => s.sessions.Keys + {sid}
               case Restart => {}
               case _ => s.sessions.Keys
  {
    hide NameOf, ValidName, ManifestFor, Acceptable, DigestHex;
  }

  /** A request that is not over can always go on, whether the store fails or not. */
  lemma NeverStuck(c: Config, s: State, rid: Rid, now: int)
    requires rid in s.calls && !s.calls[rid].Over?
    ensures var can := (a: Action) => Next(c, s, a).Some?;
            match s.calls[rid]
            case Checking(_) => can(CheckBlob(rid, true)) && can(CheckBlob(rid, false))
            case Storing(_) => can(PutBlob(rid, Written)) && can(PutBlob(rid, Refused)) && can(PutBlob(rid, Lost))
            case Counting(_) => can(CountBlob(rid))
            case Recording(_, _) => can(RecordBlob(rid))
            case Publishing(_, _) =>
              && can(PublishManifest(rid, Written))
              && can(PublishManifest(rid, Refused)) && can(PublishManifest(rid, Lost))
            case Removing(_) => can(RemoveSession(rid))
            case Looking(_) => can(ReadManifest(rid)) && can(LookUp(rid, true, now))
            case Seen(_, _) => can(LookUp(rid, false, now)) && can(LookUp(rid, true, now))
            case Fetching(_) => can(ReadBlob(rid)) && can(AnswerFetch(rid, true))
            case Holding(_, _) => can(AnswerFetch(rid, false)) && can(AnswerFetch(rid, true))
  {
    hide Next;
    forall a
      ensures Next(c, s, a).Some? <==> Possible(c, s, a)
    {
      PossibleExactly(c, s, a);
    }
  }
}
