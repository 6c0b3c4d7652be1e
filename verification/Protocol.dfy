/** The cache server as a state machine over the atomic sections of its handlers: what a handler
    does between two `await`s is one action (api_save.rs, api_rest.rs, api.rs, session.rs).
    Requests of any number of clients interleave freely. A put that fails may have been refused
    by the store or may have taken effect with its answer lost. The server may stop and start
    again at any moment: sessions, requests and counters go, the store stays. Cancelled requests
    are not modelled, and counters do not overflow. */
module Protocol {
  import opened Prelude
  import opened Naming
  import opened Manifests

  type Sid = string
  type Rid = nat

  /** `hash` is the hex text of SHA-256; `checksNames` says whether the back end itself refuses
      invalid names, as the filesystem one does and the object store does not. */
  datatype Config = Config(hash: Bytes -> string, backend: string, checksNames: bool, maxBlob: nat,
                           defaultTtl: u64)

  /** No two of these bodies have the same hash. */
  ghost predicate CollisionFree(c: Config, bodies: set<Bytes>) {
    forall a, b :: a in bodies && b in bodies && c.hash(a) == c.hash(b) ==> a == b
  }

  const SHA256: string := "sha256:"

  /** `compute_digest` */
  function DigestOf(c: Config, body: Bytes): string {
    SHA256 + c.hash(body)
  }

  /** `digest_hex`: the prefix is dropped where there is one. */
  function DigestHex(digest: string): string {
    if SHA256 <= digest then digest[|SHA256|..] else digest
  }

  /** What a client sends as a digest. Any other text is put into a path or key as it stands. */
  predicate IsDigest(text: string) {
    IsDigestHex(DigestHex(text))
  }

  lemma DigestsSpelled(c: Config, body: Bytes, text: string)
    ensures DigestOf(c, body) == "sha256:" + c.hash(body)
    ensures DigestHex("sha256:" + text) == text
    ensures !("sha256:" <= text) ==> DigestHex(text) == text
  {}

  lemma DigestHexOf(c: Config, body: Bytes)
    ensures DigestHex(DigestOf(c, body)) == c.hash(body)
  {}

  datatype StartRequest = StartRequest(namespace: string, cacheType: CacheType, key: string,
                                       ttl: Option<u64>, metadata: map<string, string>)

  datatype Upload = Upload(sid: Sid, digest: string, compression: string, body: Bytes)

  datatype FinishRequest = FinishRequest(sid: Sid, paths: seq<CachedPath>, blobs: seq<BlobRef>)

  datatype RestoreRequest = RestoreRequest(namespace: string, cacheType: CacheType, key: string)

  datatype Session = Session(start: StartRequest, blobs: seq<BlobRef>, uploaded: nat, deduped: nat)

  datatype Counters = Counters(saves: nat, restores: nat, hits: nat, misses: nat, dedupHits: nat,
                               bytesUploaded: nat, bytesDownloaded: nat, backendErrors: nat)

  /** Where a request stands at an `await`. */
  datatype Call =
    | Checking(up: Upload)                             // save_blob: session, size and digest passed
    | Storing(up: Upload)                              // has_blob said no
    | Counting(up: Upload)                             // put_blob returned
    | Recording(up: Upload, deduped: bool)
    | Publishing(req: FinishRequest, manifest: Manifest)
    | Removing(req: FinishRequest)                     // put_manifest returned
    | Looking(ask: RestoreRequest)
    | Seen(ask: RestoreRequest, seen: Option<Manifest>)       // what get_manifest has found
    | Fetching(digest: string)
    | Holding(digest: string, held: Option<Bytes>)            // what get_blob_bytes has found
    | Over

  /** What has happened, for stating properties only: sessions ever created, uploads answered with
      success, and finish requests whose manifest took effect; then, since the last start, bytes
      stored by puts whose answer was lost, bytes put although already there, and restores that
      met a failing store or had an invalid name. */
  datatype History = History(issued: map<Sid, StartRequest>, acked: set<(Sid, string, nat)>,
                             published: set<FinishRequest>, lost: nat, again: nat,
                             failedRestores: nat, refusedRestores: nat)

  datatype State = State(sessions: map<Sid, Session>, blobs: map<string, Bytes>,
                         manifests: map<ManifestName, Manifest>, counters: Counters,
                         calls: map<Rid, Call>, history: History)

  const ZERO: Counters := Counters(0, 0, 0, 0, 0, 0, 0, 0)

  const INIT: State := State(map[], map[], map[], ZERO, map[], History(map[], {}, {}, 0, 0, 0, 0))

  /** How a put ends: it finds the object there and keeps it, writes it, is refused, or writes it
      and fails all the same. */
  datatype How = Kept | Written | Refused | Lost

  datatype Action =
    | RefuseStart(start: StartRequest)
    | CreateSession(sid: Sid, start: StartRequest)
    | BeginBlob(rid: Rid, up: Upload)
    | CheckBlob(rid: Rid, fails: bool)
    | PutBlob(rid: Rid, how: How)
    | CountBlob(rid: Rid)
    | RecordBlob(rid: Rid)
    | BeginFinish(rid: Rid, req: FinishRequest, now: int)
    | PublishManifest(rid: Rid, how: How)
    | RemoveSession(rid: Rid)
    | BeginRestore(rid: Rid, ask: RestoreRequest)
    | ReadManifest(rid: Rid)
    | LookUp(rid: Rid, fails: bool, now: int)
    | BeginFetch(rid: Rid, digest: string)
    | ReadBlob(rid: Rid)
    | AnswerFetch(rid: Rid, fails: bool)
    | FetchOther(rid: Rid, size: nat)    // get_blob with a text that is no digest
    | DeleteBlob(digest: string)
    | DeleteManifest(name: ManifestName)
    | Restart

  // ---- save_start ----

  function DoCreateSession(s: State, sid: Sid, start: StartRequest): State {
    s.(sessions := s.sessions[sid := Session(start, [], 0, 0)],
       counters := s.counters.(saves := s.counters.saves + 1),
       history := s.history.(issued := s.history.issued[sid := start]))
  }

  // ---- save_blob ----

  /** The checks before the first access to the store. */
  predicate Acceptable(c: Config, s: State, up: Upload) {
    up.sid in s.sessions && |up.body| <= c.maxBlob && DigestOf(c, up.body) == up.digest
  }

  function Retasked(s: State, rid: Rid, call: Call): State {
    s.(calls := s.calls[rid := call])
  }

  function Failing(s: State, rid: Rid): State {
    Retasked(s, rid, Over).(counters := s.counters.(backendErrors := s.counters.backendErrors + 1))
  }

  function DoCheck(s: State, rid: Rid, up: Upload, fails: bool): State {
    if fails then Failing(s, rid) else DoChecked(s, rid, up, DigestHex(up.digest) in s.blobs)
  }

  /** What follows on the answer of `has_blob`. */
  function DoChecked(s: State, rid: Rid, up: Upload, present: bool): State {
    if present then
      Retasked(s, rid, Recording(up, true)).(counters := s.counters.(dedupHits := s.counters.dedupHits + 1))
    else Retasked(s, rid, Storing(up))
  }

  function SizeAt(blobs: map<string, Bytes>, hex: string): nat {
    if hex in blobs then |blobs[hex]| else 0
  }

  /** The store with `body` put under its digest. */
  function WithBlob(s: State, up: Upload): State {
    s.(blobs := s.blobs[DigestHex(up.digest) := up.body])
  }

  function WithAgain(s: State, up: Upload): State {
    s.(history := s.history.(again := s.history.again + SizeAt(s.blobs, DigestHex(up.digest))))
  }

  function WithLost(s: State, up: Upload): State {
    s.(history := s.history.(lost := s.history.lost + |up.body|))
  }

  function DoPut(s: State, rid: Rid, up: Upload, how: How): State {
    match how
    case Kept => Retasked(WithAgain(s, up), rid, Counting(up))
    case Written => Retasked(WithBlob(WithAgain(s, up), up), rid, Counting(up))
    case Refused => Failing(s, rid)
    case Lost => Failing(WithBlob(WithAgain(WithLost(s, up), up), up), rid)
  }

  function DoCount(s: State, rid: Rid, up: Upload): State {
    Retasked(s, rid, Recording(up, false))
    .(counters := s.counters.(bytesUploaded := s.counters.bytesUploaded + |up.body|))
  }

  function RefOf(c: Config, up: Upload): BlobRef {
    BlobRef(up.digest, |up.body|, |up.body|, up.compression, c.backend, "blobs/" + DigestHex(up.digest))
  }

  /** `record_blob` on one session. */
  function Recorded(c: Config, session: Session, up: Upload, deduped: bool): Session {
    var grown := session.(blobs := session.blobs + [RefOf(c, up)]);
    if deduped then grown.(deduped := session.deduped + |up.body|)
    else grown.(uploaded := session.uploaded + |up.body|)
  }

  /** Recording into a session that is gone has no effect. */
  function DoRecord(c: Config, s: State, rid: Rid, up: Upload, deduped: bool): State {
    Retasked(s, rid, Over)
    .(sessions := if up.sid in s.sessions
                  then s.sessions[up.sid := Recorded(c, s.sessions[up.sid], up, deduped)] else s.sessions,
      history := s.history.(acked := s.history.acked + {(up.sid, up.digest, |up.body|)}))
  }

  // ---- save_finish ----

  /** The manifest built from a snapshot of the session and the request. */
  function ManifestFor(c: Config, session: Session, req: FinishRequest, now: int): Manifest {
    var start := session.start;
    Manifest(start.namespace, start.cacheType, start.key, now, now,
             Some(match start.ttl case None => c.defaultTtl case Some(ttl) => ttl),
             req.paths, if req.blobs == [] then session.blobs else req.blobs, start.metadata)
  }

  /** The object name of a manifest in either back end; in the object store, for names whose keys
      reach the objects they spell. */
  function NameFor(m: Manifest): ManifestName {
    NameOf(m.namespace, m.key)
  }

  function WithManifest(s: State, req: FinishRequest, m: Manifest): State {
    s.(manifests := s.manifests[NameFor(m) := m],
       history := s.history.(published := s.history.published + {req}))
  }

  function DoPublish(s: State, rid: Rid, req: FinishRequest, m: Manifest, how: How): State {
    match how
    case Refused => Failing(s, rid)
    case Lost => Failing(WithManifest(s, req, m), rid)
    case _ => Retasked(WithManifest(s, req, m), rid, Removing(req))
  }

  // ---- restore ----

  /** What `get_manifest` finds at this moment. */
  function ManifestIn(s: State, ask: RestoreRequest): Option<Manifest> {
    var name := NameOf(ask.namespace, ask.key);
    if name in s.manifests then Some(s.manifests[name]) else None
  }

  /** A manifest found is a hit if it has the type asked for and has not expired. */
  predicate Hit(seen: Option<Manifest>, ask: RestoreRequest, now: int) {
    seen.Some? && seen.value.cacheType == ask.cacheType && !IsExpired(seen.value, now)
  }

  function DoBeginRestore(s: State, rid: Rid, ask: RestoreRequest): State {
    var s' := s.(counters := s.counters.(restores := s.counters.restores + 1));
    if ValidName(ask.namespace, ask.key) then Retasked(s', rid, Looking(ask))
    else Retasked(s', rid, Over).(history := s.history.(refusedRestores := s.history.refusedRestores + 1))
  }

  function DoLookUp(s: State, rid: Rid, ask: RestoreRequest, seen: Option<Manifest>, fails: bool, now: int): State {
    var k := s.counters;
    if fails then
      Failing(s, rid).(history := s.history.(failedRestores := s.history.failedRestores + 1))
    else if Hit(seen, ask, now) then
      Retasked(s, rid, Over).(counters := k.(hits := k.hits + 1,
                                             bytesDownloaded := k.bytesDownloaded + TotalSize(seen.value.blobs)))
    else
      Retasked(s, rid, Over).(counters := k.(misses := k.misses + 1))
  }

  // ---- get_blob ----

  /** What `get_blob_bytes` finds at this moment. */
  function BlobIn(s: State, digest: string): Option<Bytes> {
    if DigestHex(digest) in s.blobs then Some(s.blobs[DigestHex(digest)]) else None
  }

  function DoFetched(s: State, rid: Rid, size: nat): State {
    var k := s.counters;
    Retasked(s, rid, Over).(counters := k.(bytesDownloaded := k.bytesDownloaded + size))
  }

  // ---- Stop and start ----

  function DoRestart(s: State): State {
    s.(sessions := map[], calls := map[], counters := ZERO,
       history := s.history.(lost := 0, again := 0, failedRestores := 0, refusedRestores := 0))
  }

  // ---- The machine ----

  /** Steps of `save_blob` after its first section. */
  function BlobStep(c: Config, s: State, a: Action, call: Call): Option<State> {
    match a
    case CheckBlob(rid, fails) => if call.Checking? then Some(DoCheck(s, rid, call.up, fails)) else None
    case PutBlob(rid, how) =>
      if call.Storing? && (how.Kept? ==> DigestHex(call.up.digest) in s.blobs) then
        Some(DoPut(s, rid, call.up, how))
      else None
    case CountBlob(rid) => if call.Counting? then Some(DoCount(s, rid, call.up)) else None
    case RecordBlob(rid) => if call.Recording? then Some(DoRecord(c, s, rid, call.up, call.deduped)) else None
    case _ => None
  }

  /** Steps of `save_finish` and `restore` after their first sections. */
  function OtherStep(s: State, a: Action, call: Call): Option<State> {
    match a
    case PublishManifest(rid, how) =>
      if call.Publishing? && !how.Kept? then Some(DoPublish(s, rid, call.req, call.manifest, how)) else None
    case RemoveSession(rid) =>
      if call.Removing? then Some(Retasked(s, rid, Over).(sessions := s.sessions - {call.req.sid})) else None
    case ReadManifest(rid) =>
      if call.Looking? then Some(Retasked(s, rid, Seen(call.ask, ManifestIn(s, call.ask)))) else None
    case LookUp(rid, fails, now) =>
      if call.Seen? then Some(DoLookUp(s, rid, call.ask, call.seen, fails, now))
      else if call.Looking? && fails then Some(DoLookUp(s, rid, call.ask, None, true, now))
      else None
    case ReadBlob(rid) =>
      if call.Fetching? then Some(Retasked(s, rid, Holding(call.digest, BlobIn(s, call.digest)))) else None
    case AnswerFetch(rid, fails) =>
      if (call.Fetching? || call.Holding?) && fails then Some(Failing(s, rid))
      else if call.Holding? then Some(DoFetched(s, rid, if call.held.Some? then |call.held.value| else 0))
      else None
    case FetchOther(rid, size) =>
      if call.Fetching? && !IsDigest(call.digest) then Some(DoFetched(s, rid, size)) else None
    case _ => None
  }

  /** First sections of requests, requests of a single section, and restarts. */
  function FirstStep(c: Config, s: State, a: Action): Option<State> {
    match a
    case RefuseStart(start) =>
      if ValidName(start.namespace, start.key) then None
      else Some(s.(counters := s.counters.(saves := s.counters.saves + 1)))
    case CreateSession(sid, start) =>
      if ValidName(start.namespace, start.key) && sid !in s.history.issued then Some(DoCreateSession(s, sid, start))
      else None
    case BeginBlob(rid, up) =>
      if rid !in s.calls && Acceptable(c, s, up) then Some(Retasked(s, rid, Checking(up))) else None
    case BeginFinish(rid, req, now) =>
      if rid !in s.calls && req.sid in s.sessions then
        Some(Retasked(s, rid, Publishing(req, ManifestFor(c, s.sessions[req.sid], req, now))))
      else None
    case BeginRestore(rid, ask) =>
      if rid in s.calls then None else Some(DoBeginRestore(s, rid, ask))
    case BeginFetch(rid, digest) =>
      if rid in s.calls then None else Some(Retasked(s, rid, Fetching(digest)))
    case DeleteBlob(digest) => Some(s.(blobs := s.blobs - {DigestHex(digest)}))
    case DeleteManifest(name) => Some(s.(manifests := s.manifests - {name}))
    case Restart => Some(DoRestart(s))
    case _ => None
  }

  /** A later section of `save_blob`. */
  predicate LaterUpload(a: Action) {
    a.CheckBlob? || a.PutBlob? || a.CountBlob? || a.RecordBlob?
  }

  /** A later section of another handler. */
  predicate LaterOther(a: Action) {
    || a.PublishManifest? || a.RemoveSession? || a.ReadManifest? || a.LookUp?
    || a.ReadBlob? || a.AnswerFetch? || a.FetchOther?
  }

  function Next(c: Config, s: State, a: Action): Option<State> {
    if LaterUpload(a) then
      if a.rid in s.calls then BlobStep(c, s, a, s.calls[a.rid]) else None
    else if LaterOther(a) then
      if a.rid in s.calls then OtherStep(s, a, s.calls[a.rid]) else None
    else FirstStep(c, s, a)
  }

  /** A restore still to be answered. */
  predicate Undecided(call: Call) {
    call.Looking? || call.Seen?
  }

  /** What no step of `save_blob` touches. */
  predicate UploadEffect(s: State, s': State, rid: Rid) {
    var h, h', k, k' := s.history, s'.history, s.counters, s'.counters;
    && s'.manifests == s.manifests
    && h'.issued == h.issued && h'.published == h.published && h.acked <= h'.acked
    && h'.failedRestores == h.failedRestores && h'.refusedRestores == h.refusedRestores
    && k'.restores == k.restores && k'.hits == k.hits && k'.misses == k.misses
    && rid in s'.calls && s'.calls == s.calls[rid := s'.calls[rid]]
    && !s'.calls[rid].Publishing? && !Undecided(s'.calls[rid])
  }

  lemma PutEffect(s: State, rid: Rid, up: Upload, how: How)
    ensures UploadEffect(s, DoPut(s, rid, up, how), rid)
  {
    hide DigestHex, SizeAt;
  }

  lemma UploadStepEffect(c: Config, s: State, a: Action, call: Call)
    requires BlobStep(c, s, a, call).Some?
    ensures UploadEffect(s, BlobStep(c, s, a, call).value, a.rid) && !call.Publishing? && !Undecided(call)
  {
    hide DigestHex, Recorded, DoPut;
    if a.PutBlob? {
      PutEffect(s, a.rid, call.up, a.how);
    }
  }

  // ---- Runs ----

  datatype Event = Event(action: Action, state: State)

  type Run = seq<Event>

  /** The state after the first `i` events. */
  function At(run: Run, i: nat): State
    requires i <= |run|
  {
    if i == 0 then INIT else run[i - 1].state
  }

  /** The bodies of the uploads that the server accepted. */
  function Uploaded(run: Run): set<Bytes> {
    set i | 0 <= i < |run| && run[i].action.BeginBlob? :: run[i].action.up.body
  }

  predicate NoDeletes(run: Run) {
    forall i :: 0 <= i < |run| ==> !run[i].action.DeleteBlob?
  }

  function Last(run: Run): State {
    At(run, |run|)
  }

  ghost predicate IsRun(c: Config, run: Run) {
    forall i :: 0 <= i < |run| ==> Next(c, At(run, i), run[i].action) == Some(run[i].state)
  }
}
