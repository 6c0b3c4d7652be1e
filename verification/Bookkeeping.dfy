/** What the server keeps books of: each counter is the number of the events it counts, or the sum
    of their sizes, since the server started; a session holds what was recorded into it, in order. */
module Bookkeeping {
  import opened Prelude
  import opened Naming
  import opened Manifests
  import opened Protocol
  import opened Accounting

  // ---- Counters ----

  const FAILED: Counters := ZERO.(backendErrors := 1)

  /** A manifest of the type asked for that has not expired. */
  predicate Usable(seen: Option<Manifest>, ask: RestoreRequest, now: int) {
    match seen
    case None => false
    case Some(m) => m.cacheType == ask.cacheType && !IsExpired(m, now)
  }

  /** What one event adds. */
  function Counted(s: State, a: Action): Counters {
    match a
    case RefuseStart(_) => ZERO.(saves := 1)
    case CreateSession(_, _) => ZERO.(saves := 1)
    case CheckBlob(rid, fails) =>
      if fails then FAILED
      else if rid in s.calls && s.calls[rid].Checking? && DigestHex(s.calls[rid].up.digest) in s.blobs then
        ZERO.(dedupHits := 1)
      else ZERO
    case PutBlob(_, how) => if how == Refused || how == Lost then FAILED else ZERO
    case CountBlob(rid) =>
      if rid in s.calls && s.calls[rid].Counting? then ZERO.(bytesUploaded := |s.calls[rid].up.body|) else ZERO
    case PublishManifest(_, how) => if how == Refused || how == Lost then FAILED else ZERO
    case BeginRestore(_, _) => ZERO.(restores := 1)
    case LookUp(rid, fails, now) =>
      if fails then FAILED
      else if rid in s.calls && s.calls[rid].Seen? && Usable(s.calls[rid].seen, s.calls[rid].ask, now) then
        ZERO.(hits := 1, bytesDownloaded := TotalSize(s.calls[rid].seen.value.blobs))
      else ZERO.(misses := 1)
    case AnswerFetch(rid, fails) =>
      if fails then FAILED
      else if rid in s.calls && s.calls[rid].Holding? && s.calls[rid].held.Some? then
        ZERO.(bytesDownloaded := |s.calls[rid].held.value|)
      else ZERO
    case FetchOther(_, size) => ZERO.(bytesDownloaded := size)
    case _ => ZERO
  }

  function Plus(k: Counters, d: Counters): Counters {
    Counters(k.saves + d.saves, k.restores + d.restores, k.hits + d.hits, k.misses + d.misses,
             k.dedupHits + d.dedupHits, k.bytesUploaded + d.bytesUploaded,
             k.bytesDownloaded + d.bytesDownloaded, k.backendErrors + d.backendErrors)
  }

  lemma UploadStepCounted(c: Config, s: State, a: Action)
    requires LaterUpload(a) && Next(c, s, a).Some?
    ensures Next(c, s, a).value.counters == Plus(s.counters, Counted(s, a))
  {
    hide DigestHex, SizeAt, Recorded, FirstStep, OtherStep;
  }

  lemma OtherStepCounted(c: Config, s: State, a: Action)
    requires LaterOther(a) && Next(c, s, a).Some?
    ensures Next(c, s, a).value.counters == Plus(s.counters, Counted(s, a))
  {
    hide NameOf, TotalSize, ManifestIn, BlobIn, IsDigest, IsExpired, FirstStep, BlobStep;
  }

  lemma FirstStepCounted(c: Config, s: State, a: Action)
    requires !LaterUpload(a) && !LaterOther(a) && !a.Restart? && Next(c, s, a).Some?
    ensures Next(c, s, a).value.counters == Plus(s.counters, Counted(s, a))
  {
    hide ValidName, ManifestFor, DigestHex, Acceptable, BlobStep, OtherStep;
  }

  /** Every event adds to the counters what it counts for. */
  lemma NextCounted(c: Config, s: State, a: Action)
    requires !a.Restart? && Next(c, s, a).Some?
    ensures Next(c, s, a).value.counters == Plus(s.counters, Counted(s, a))
  {
    hide Next, Plus, Counted;
    if LaterUpload(a) {
      UploadStepCounted(c, s, a);
    } else if LaterOther(a) {
      OtherStepCounted(c, s, a);
    } else {
      FirstStepCounted(c, s, a);
    }
  }

  /** What the events from `from` to `i` add up to. */
  function CountedFrom(run: Run, from: nat, i: nat): Counters
    requires from <= i <= |run|
    decreases i
  {
    if i == from then ZERO else Plus(CountedFrom(run, from, i - 1), Counted(At(run, i - 1), run[i - 1].action))
  }

  /** In every run and at every moment, the counters are what the events since the server started
      have added up to. */
  lemma {:induction false} CountersExactly(c: Config, run: Run, from: nat, i: nat)
    requires IsRun(c, run) && Lifetime(run, from, i)
    ensures At(run, i).counters == CountedFrom(run, from, i)
    decreases i
  {
    hide Next, Counted, Plus;
    if i == from {
      StartsEmpty(c, run, from);
    } else {
      CountersExactly(c, run, from, i - 1);
      assert Next(c, At(run, i - 1), run[i - 1].action) == Some(run[i - 1].state);
      NextCounted(c, At(run, i - 1), run[i - 1].action);
    }
  }

  // ---- Sessions ----

  /** One upload recorded into a session: whether its blob was there already. */
  datatype Entry = Entry(up: Upload, deduped: bool)

  /** What event `a` records into session `sid`. */
  function NotedBy(s: State, a: Action, sid: Sid): seq<Entry> {
    if a.RecordBlob? && a.rid in s.calls && s.calls[a.rid].Recording? && s.calls[a.rid].up.sid == sid then
      [Entry(s.calls[a.rid].up, s.calls[a.rid].deduped)]
    else []
  }

  /** The uploads recorded into session `sid` since it was created, up to event `i`. */
  function Entries(run: Run, i: nat, sid: Sid): seq<Entry>
    requires i <= |run|
  {
    if i == 0 then []
    else
      var a := run[i - 1].action;
      if a.CreateSession? && a.sid == sid then []
      else Entries(run, i - 1, sid) + NotedBy(At(run, i - 1), a, sid)
  }

  function NotedBytes(entries: seq<Entry>, deduped: bool): nat {
    if entries == [] then 0
    else
      var last := entries[|entries| - 1];
      NotedBytes(entries[..|entries| - 1], deduped) + (if last.deduped == deduped then |last.up.body| else 0)
  }

  /** What the server notes of an upload: it knows the packed size only, and gives it twice. */
  predicate Notes(c: Config, ref: BlobRef, up: Upload) {
    && ref.digest == up.digest && ref.compression == up.compression
    && ref.size == |up.body| && ref.uncompressed == |up.body|
    && ref.backend == c.backend && ref.location == "blobs/" + DigestHex(up.digest)
  }

  /** A session holds a note of each upload, in order, and the bytes new and those found there. */
  ghost predicate Holds(c: Config, session: Session, entries: seq<Entry>) {
    && |session.blobs| == |entries|
    && (forall k :: 0 <= k < |entries| ==> Notes(c, session.blobs[k], entries[k].up))
    && session.uploaded == NotedBytes(entries, false) && session.deduped == NotedBytes(entries, true)
  }

  lemma HoldsOneMore(c: Config, session: Session, entries: seq<Entry>, up: Upload, deduped: bool)
    requires Holds(c, session, entries)
    ensures Holds(c, Recorded(c, session, up, deduped), entries + [Entry(up, deduped)])
  {
    hide DigestHex;
    assert (entries + [Entry(up, deduped)])[..|entries|] == entries;
  }

  /** Sessions change by being created, recorded into, and removed. */
  predicate SessionStep(c: Config, s: State, a: Action, s': State, sid: Sid) {
    sid in s'.sessions ==>
      if a.CreateSession? && a.sid == sid then s'.sessions[sid] == Session(a.start, [], 0, 0)
      else
        && sid in s.sessions
        && s'.sessions[sid] == if NotedBy(s, a, sid) == [] then s.sessions[sid]
                               else Recorded(c, s.sessions[sid], s.calls[a.rid].up, s.calls[a.rid].deduped)
  }

  lemma UploadStepNotes(c: Config, s: State, a: Action, sid: Sid)
    requires LaterUpload(a) && Next(c, s, a).Some?
    ensures SessionStep(c, s, a, Next(c, s, a).value, sid)
  {
    hide DigestHex, SizeAt, Recorded, FirstStep, OtherStep;
  }

  lemma OtherStepNotes(c: Config, s: State, a: Action, sid: Sid)
    requires LaterOther(a) && Next(c, s, a).Some?
    ensures SessionStep(c, s, a, Next(c, s, a).value, sid)
  {
    hide NameOf, TotalSize, ManifestIn, BlobIn, IsDigest, Hit, FirstStep, BlobStep, Recorded;
  }

  lemma FirstStepNotes(c: Config, s: State, a: Action, sid: Sid)
    requires !LaterUpload(a) && !LaterOther(a) && Next(c, s, a).Some?
    ensures SessionStep(c, s, a, Next(c, s, a).value, sid)
  {
    hide ValidName, ManifestFor, DigestHex, Acceptable, BlobStep, OtherStep, Recorded;
  }

  lemma NextNotes(c: Config, s: State, a: Action, sid: Sid)
    requires Next(c, s, a).Some?
    ensures SessionStep(c, s, a, Next(c, s, a).value, sid)
  {
    hide Next, SessionStep;
    if LaterUpload(a) {
      UploadStepNotes(c, s, a, sid);
    } else if LaterOther(a) {
      OtherStepNotes(c, s, a, sid);
    } else {
      FirstStepNotes(c, s, a, sid);
    }
  }

  /** In every run and at every moment, a session holds exactly what was recorded into it since it
      was created. */
  lemma {:induction false} SessionsHoldEntries(c: Config, run: Run, i: nat, sid: Sid)
    requires IsRun(c, run) && i <= |run| && sid in At(run, i).sessions
    ensures Holds(c, At(run, i).sessions[sid], Entries(run, i, sid))
  {
    hide Next, Holds, Recorded, NotedBy;
    assert Next(c, At(run, i - 1), run[i - 1].action) == Some(run[i - 1].state);
    var s, a := At(run, i - 1), run[i - 1].action;
    NextNotes(c, s, a, sid);
    if a.CreateSession? && a.sid == sid {
      NothingNoted(c, a.start);
    } else {
      SessionsHoldEntries(c, run, i - 1, sid);
      NotedOnce(s, a, sid);
      assert Entries(run, i - 1, sid) + [] == Entries(run, i - 1, sid);
      if NotedBy(s, a, sid) != [] {
        HoldsOneMore(c, s.sessions[sid], Entries(run, i - 1, sid), s.calls[a.rid].up, s.calls[a.rid].deduped);
      }
    }
  }

  lemma NotedOnce(s: State, a: Action, sid: Sid)
    ensures NotedBy(s, a, sid) == []
            || (a.RecordBlob? && a.rid in s.calls && s.calls[a.rid].Recording?
                && NotedBy(s, a, sid) == [Entry(s.calls[a.rid].up, s.calls[a.rid].deduped)])
  {}

  lemma NothingNoted(c: Config, start: StartRequest)
    ensures Holds(c, Session(start, [], 0, 0), [])
  {}
}
