/** The server on the filesystem back end, section by section and file step by file step: handlers
    run up to an `await`, file operations proceed on their own, a handler goes on when its operation
    is over, and a crash ends everything in memory at any moment. Every run of this system is, event
    by event, a run of the protocol machine with the same sessions, counters and answers, whose
    blobs and manifests are what the files mean. */
module FileServer {
  import opened Prelude
  import opened Naming
  import opened Manifests
  import opened Streams
  import opened Protocol
  import opened Safety
  import opened Layers

  type Tid = FileStore.Tid

  /** serde_json on manifests. */
  datatype Format = Format(json: Manifest -> Bytes, parse: Bytes -> Option<Manifest>)

  ghost predicate ReadsBack(x: Format) {
    forall m :: x.parse(x.json(m)) == Some(m)
  }

  /** `front` is what the server has in memory, its store left empty; `waits` says which file
      operation a request waits for. */
  datatype System = System(front: State, files: FileStore.State, waits: map<Rid, Tid>)

  const START: System := System(INIT, FileStore.INIT, map[])

  datatype Event =
    | Section(a: Action)                       // a section that touches no file of the store
    | Look(rid: Rid)                           // has_blob, which does not wait; hashes are hex digits
    | Submit(rid: Rid, t: Tid)                 // up to the await on a file operation
    | SubmitDelete(t: Tid, path: FilePath)
    | File(step: FileStore.Action)
    | Resume(rid: Rid, now: int)
    | Stop                                     // a crash, and a new start

  predicate InMemory(a: Action) {
    || a.RefuseStart? || a.CreateSession? || a.BeginBlob? || a.RecordBlob? || a.BeginFinish? || a.RemoveSession?
    || a.BeginRestore? || a.BeginFetch? || a.FetchOther?
  }

  /** The file operation that a request at this point asks for. */
  function OpFor(x: Format, call: Call): Option<FileStore.Op> {
    match call
    case Storing(up) => Some(FileStore.Put(BlobPath(DigestHex(up.digest)), BodyStream(up), true))
    case Publishing(_, m) => Some(FileStore.Put(ManifestFile(NameFor(m)), [Chunk(x.json(m))], false))
    case Looking(ask) => Some(FileStore.Get(ManifestFile(NameOf(ask.namespace, ask.key))))
    case Fetching(digest) => if IsDigest(digest) then Some(FileStore.Get(BlobPath(DigestHex(digest)))) else None
    case _ => None
  }

  ghost predicate Deletable(path: FilePath) {
    || (exists digest :: IsDigest(digest) && path == BlobPath(DigestHex(digest)))
    || (exists ns, key :: ValidName(ns, key) && path == ManifestFile(NameOf(ns, key)))
  }

  /** The handler is told, also when its rename has failed and the removal has been left to others. */
  predicate Told(task: FileStore.Task) {
    task.Over? || task.Cleaning?
  }

  predicate Done(task: FileStore.Task) {
    task.Over? && task.outcome.Stored?
  }

  /** Whether the handler of a restore was told a failure, and otherwise what it was told. */
  function LookFails(x: Format, task: FileStore.Task): bool {
    !(task.Over? && (task.outcome.NotFound? || (task.outcome.Found? && x.parse(task.outcome.data).Some?)))
  }

  function LookSees(x: Format, task: FileStore.Task): Option<Manifest> {
    if !LookFails(x, task) && task.outcome.Found? then x.parse(task.outcome.data) else None
  }

  function FetchFails(task: FileStore.Task): bool {
    !(task.Over? && (task.outcome.NotFound? || task.outcome.Found?))
  }

  function FetchHolds(task: FileStore.Task): Option<Bytes> {
    if task.Over? && task.outcome.Found? then Some(task.outcome.data) else None
  }

  function AfterFetching(f: State, rid: Rid, task: FileStore.Task): State {
    if FetchFails(task) then Protocol.Failing(f, rid)
    else DoFetched(f, rid, if FetchHolds(task).Some? then |FetchHolds(task).value| else 0)
  }

  /** The section that follows on a file operation. */
  function Resumed(x: Format, f: State, rid: Rid, call: Call, task: FileStore.Task, now: int): Option<State> {
    match call
    case Storing(up) => Some(if Done(task) then DoCount(f, rid, up) else Protocol.Failing(f, rid))
    case Publishing(req, _) => Some(if Done(task) then Retasked(f, rid, Removing(req)) else Protocol.Failing(f, rid))
    case Looking(ask) => Some(DoLookUp(f, rid, ask, LookSees(x, task), LookFails(x, task), now))
    case Fetching(digest) => Some(AfterFetching(f, rid, task))
    case _ => None
  }

  function Stopped(sys: System): System {
    System(DoRestart(sys.front), sys.files.(tasks := map[]), map[])
  }

  ghost function Step(c: Config, x: Format, sys: System, e: Event): Option<System> {
    var f := sys.front;
    match e
    case Section(a) =>
      if InMemory(a) && ((LaterUpload(a) || LaterOther(a)) ==> a.rid !in sys.waits) && Next(c, f, a).Some? then
        Some(sys.(front := Next(c, f, a).value))
      else None
    case Look(rid) =>
      if rid in f.calls && rid !in sys.waits && f.calls[rid].Checking? && IsDigest(f.calls[rid].up.digest) then
        var up := f.calls[rid].up;
        Some(sys.(front := DoChecked(f, rid, up, BlobPath(DigestHex(up.digest)) in sys.files.names)))
      else None
    case Submit(rid, t) =>
      if rid in f.calls && rid !in sys.waits && OpFor(x, f.calls[rid]).Some? then
        var files := FileStore.Next(sys.files, FileStore.Invoke(t, OpFor(x, f.calls[rid]).value));
        if files.Some? then Some(sys.(files := files.value, waits := sys.waits[rid := t])) else None
      else None
    case SubmitDelete(t, path) =>
      if Deletable(path) then
        var files := FileStore.Next(sys.files, FileStore.Invoke(t, FileStore.Delete(path)));
        if files.Some? then Some(sys.(files := files.value)) else None
      else None
    case File(a) =>
      if a.Invoke? || a.Crash? then None
      else
        var files := FileStore.Next(sys.files, a);
        if files.Some? then Some(sys.(files := files.value)) else None
    case Resume(rid, now) =>
      if rid in f.calls && rid in sys.waits && sys.waits[rid] in sys.files.tasks
         && Told(sys.files.tasks[sys.waits[rid]]) then
        var f' := Resumed(x, f, rid, f.calls[rid], sys.files.tasks[sys.waits[rid]], now);
        if f'.Some? then Some(sys.(front := f'.value, waits := sys.waits - {rid})) else None
      else None
    case Stop => Some(Stopped(sys))
  }

  // ---- How a state of the system stands for one of the machine ----

  /** Memory agrees, the store and what only the machine records apart. */
  predicate Agree(f: State, s: State) {
    && s.sessions == f.sessions && s.counters == f.counters
    && s.history.issued == f.history.issued && s.history.acked == f.history.acked
  }

  /** The machine's request when the handler stands at `cc` and its file operation at `fc`: it is
      ahead of the handler once the operation has taken effect. */
  predicate Matches(x: Format, cc: Call, fc: FileStore.Call, sc: Call) {
    && OpFor(x, cc) == Some(fc.op)
    && match cc
       case Storing(up) => sc == if fc.Decided? && fc.outcome.Stored? then Counting(up) else Storing(up)
       case Publishing(req, m) => sc == if fc.Decided? && fc.outcome.Stored? then Removing(req) else cc
       case Looking(ask) =>
         if fc.Pending? then sc == cc
         else (match fc.outcome
               case Found(data) => x.parse(data).Some? && sc == Seen(ask, x.parse(data))
               case NotFound => sc == Seen(ask, None)
               case _ => sc == cc || (sc.Seen? && sc.ask == ask))
       case Fetching(digest) =>
         if fc.Pending? then sc == cc
         else (match fc.outcome
               case Found(data) => sc == Holding(digest, Some(data))
               case NotFound => sc == Holding(digest, None)
               case _ => sc == cc || (sc.Holding? && sc.digest == digest))
       case _ => false
  }

  predicate MatchesAt(x: Format, f: State, waits: map<Rid, Tid>, calls: map<Tid, FileStore.Call>, s: State, rid: Rid)
    requires rid in f.calls && rid in s.calls
  {
    if rid in waits then
      waits[rid] in calls && Matches(x, f.calls[rid], calls[waits[rid]], s.calls[rid])
    else s.calls[rid] == f.calls[rid]
  }

  ghost predicate Tracked(x: Format, f: State, waits: map<Rid, Tid>, calls: map<Tid, FileStore.Call>, s: State) {
    && s.calls.Keys == f.calls.Keys && waits.Keys <= f.calls.Keys
    && (forall rid :: rid in f.calls ==> MatchesAt(x, f, waits, calls, s, rid))
    && (forall r, q :: r in waits && q in waits && waits[r] == waits[q] ==> r == q)
  }

  /** An operation that no request waits for: a deletion, or one whose handler has been told. */
  ghost predicate Loose(task: FileStore.Task) {
    Told(task) || (task.op.Delete? && Deletable(task.op.path))
  }

  ghost predicate RestLoose(files: FileStore.State, waits: map<Rid, Tid>) {
    forall t :: t in files.tasks && t !in waits.Values ==> Loose(files.tasks[t])
  }

  ghost predicate StandsFor(x: Format, sys: System, s: State) {
    && FileStore.Inv(sys.files)
    && Agree(sys.front, s)
    && Backs(FileStore.Meaning(sys.files).store, FILES, x.json, s)
    && Tracked(x, sys.front, sys.waits, FileStore.Meaning(sys.files).calls, s)
    && RestLoose(sys.files, sys.waits)
  }

  // ---- Small facts ----

  lemma CallAt(files: FileStore.State, t: Tid)
    ensures t in FileStore.Meaning(files).calls <==> t in files.tasks
    ensures t in files.tasks ==> FileStore.Meaning(files).calls[t] == FileStore.CallOf(files, files.tasks[t])
  {}

  lemma ToldCall(files: FileStore.State, task: FileStore.Task)
    requires Told(task)
    ensures FileStore.CallOf(files, task)
            == if task.Over? then FileStore.Decided(task.op, task.outcome) else FileStore.Pending(task.op)
  {}

  /** A request that waits for nothing moves in memory and in the machine alike. */
  lemma TrackedSame(x: Format, f: State, waits: map<Rid, Tid>, calls: map<Tid, FileStore.Call>, s: State,
                    f': State, s': State, rid: Rid, call: Call)
    requires Tracked(x, f, waits, calls, s) && rid !in waits
    requires f'.calls == f.calls[rid := call] && s'.calls == s.calls[rid := call]
    ensures Tracked(x, f', waits, calls, s')
  {
    hide Matches;
    forall r | r in f'.calls
      ensures MatchesAt(x, f', waits, calls, s', r)
    {
      if r != rid {
        assert MatchesAt(x, f, waits, calls, s, r);
      }
    }
  }

  /** A request waits for an operation no more. */
  lemma TrackedResumed(x: Format, f: State, waits: map<Rid, Tid>, calls: map<Tid, FileStore.Call>, s: State,
                       f': State, s': State, rid: Rid, call: Call)
    requires Tracked(x, f, waits, calls, s)
    requires f'.calls == f.calls[rid := call] && s'.calls == s.calls[rid := call]
    ensures Tracked(x, f', waits - {rid}, calls, s')
  {
    hide Matches;
    forall r | r in f'.calls
      ensures MatchesAt(x, f', waits - {rid}, calls, s', r)
    {
      if r != rid {
        assert MatchesAt(x, f, waits, calls, s, r);
      }
    }
  }

  /** A request begins to wait for a new operation. */
  lemma TrackedSubmitted(x: Format, f: State, waits: map<Rid, Tid>, calls: map<Tid, FileStore.Call>, s: State,
                         rid: Rid, t: Tid, op: FileStore.Op)
    requires Tracked(x, f, waits, calls, s) && rid in f.calls && rid !in waits && t !in calls
    requires OpFor(x, f.calls[rid]) == Some(op)
    ensures Tracked(x, f, waits[rid := t], calls[t := FileStore.Pending(op)], s)
  {
    var calls' := calls[t := FileStore.Pending(op)];
    forall r | r in f.calls
      ensures MatchesAt(x, f, waits[rid := t], calls', s, r)
    {
      assert MatchesAt(x, f, waits, calls, s, r);
    }
    forall r | r in waits
      ensures waits[r] != t
    {
      assert MatchesAt(x, f, waits, calls, s, r);
    }
  }

  /** A call that nobody waits for changes, appears or stays. */
  lemma TrackedElsewhere(x: Format, f: State, waits: map<Rid, Tid>, calls: map<Tid, FileStore.Call>, s: State,
                         s': State, t: Tid, call: FileStore.Call)
    requires Tracked(x, f, waits, calls, s) && t !in waits.Values && s'.calls == s.calls
    ensures Tracked(x, f, waits, calls[t := call], s')
  {
    hide Matches;
    forall r | r in f.calls
      ensures MatchesAt(x, f, waits, calls[t := call], s', r)
    {
      assert MatchesAt(x, f, waits, calls, s, r);
    }
  }

  /** The operation a request waits for moves on, and the machine's request with it. */
  lemma TrackedMoved(x: Format, f: State, waits: map<Rid, Tid>, calls: map<Tid, FileStore.Call>, s: State, s': State,
                     rid: Rid, call: FileStore.Call, sc: Call)
    requires Tracked(x, f, waits, calls, s) && rid in waits && rid in f.calls
    requires s'.calls == s.calls[rid := sc] && Matches(x, f.calls[rid], call, sc)
    ensures Tracked(x, f, waits, calls[waits[rid] := call], s')
  {
    hide Matches;
    forall r | r in f.calls
      ensures MatchesAt(x, f, waits, calls[waits[rid] := call], s', r)
    {
      assert MatchesAt(x, f, waits, calls, s, r);
      if r != rid && r in waits {
        assert waits[r] != waits[rid];
      }
    }
  }

  // ---- Each event ----

  /** The event removes the file of a blob. */
  predicate UnlinksBlob(sys: System, e: Event) {
    && e.File? && e.step.Unlink? && e.step.t in sys.files.tasks
    && sys.files.tasks[e.step.t].op.path.dir == BlobPath("").dir
  }

  /** What an event can be in the machine: a section is that action; any other event is no section,
      and deletes a blob only if it removes a blob's file. */
  predicate Accounts(sys: System, e: Event, a: Action) {
    && (InMemory(a) <==> e.Section?) && (e.Section? ==> a == e.a)
    && (a.DeleteBlob? ==> UnlinksBlob(sys, e))
  }

  ghost predicate Follows(c: Config, x: Format, sys: System, s: State, done: Option<Action>) {
    match done
    case None => StandsFor(x, sys, s)
    case Some(a) => Next(c, s, a).Some? && StandsFor(x, sys, Next(c, s, a).value)
  }

  /** Memory, machine and requests after a step that leaves the store alone: no request moves, or
      `rid` does, in both alike. */
  predicate SameMove(f: State, f': State, s: State, s': State, waits: map<Rid, Tid>, rid: Rid) {
    && Agree(f', s') && s'.blobs == s.blobs && s'.manifests == s.manifests
    && ((f'.calls == f.calls && s'.calls == s.calls)
        || (rid !in waits && rid in f'.calls
            && f'.calls == f.calls[rid := f'.calls[rid]] && s'.calls == s.calls[rid := f'.calls[rid]]))
  }

  predicate Begins(a: Action) {
    a.BeginBlob? || a.BeginFinish? || a.BeginRestore? || a.BeginFetch?
  }

  lemma StartAgrees(c: Config, f: State, s: State, a: Action, waits: map<Rid, Tid>)
    requires Agree(f, s) && (a.RefuseStart? || a.CreateSession?) && FirstStep(c, f, a).Some?
    ensures FirstStep(c, s, a).Some?
    ensures SameMove(f, FirstStep(c, f, a).value, s, FirstStep(c, s, a).value, waits, 0)
  {
    hide ValidName;
  }

  lemma RetaskMoves(f: State, s: State, f': State, s': State, waits: map<Rid, Tid>, rid: Rid, call: Call)
    requires Agree(f', s') && s'.blobs == s.blobs && s'.manifests == s.manifests && rid !in waits
    requires f'.calls == f.calls && s'.calls == s.calls
    ensures SameMove(f, Retasked(f', rid, call), s, Retasked(s', rid, call), waits, rid)
  {}

  lemma RestoreMoves(f: State, s: State, waits: map<Rid, Tid>, rid: Rid, ask: RestoreRequest)
    requires Agree(f, s) && rid !in waits
    ensures SameMove(f, DoBeginRestore(f, rid, ask), s, DoBeginRestore(s, rid, ask), waits, rid)
  {
    hide ValidName, SameMove;
    var ok := ValidName(ask.namespace, ask.key);
    var f', s' := DoBeginRestore(f, rid, ask).(calls := f.calls), DoBeginRestore(s, rid, ask).(calls := s.calls);
    RetaskMoves(f, s, f', s', waits, rid, if ok then Looking(ask) else Over);
    assert DoBeginRestore(f, rid, ask) == Retasked(f', rid, if ok then Looking(ask) else Over);
    assert DoBeginRestore(s, rid, ask) == Retasked(s', rid, if ok then Looking(ask) else Over);
  }

  lemma BeginAgrees(c: Config, f: State, s: State, a: Action, waits: map<Rid, Tid>)
    requires Agree(f, s) && s.calls.Keys == f.calls.Keys && waits.Keys <= f.calls.Keys
    requires Begins(a) && FirstStep(c, f, a).Some?
    ensures FirstStep(c, s, a).Some?
    ensures SameMove(f, FirstStep(c, f, a).value, s, FirstStep(c, s, a).value, waits, a.rid)
  {
    hide ValidName, DigestOf, ManifestFor, SameMove, Retasked, DoBeginRestore;
    assert a.rid !in f.calls && a.rid !in s.calls;
    assert a.rid !in waits.Keys;
    match a {
      case BeginBlob(rid, up) => RetaskMoves(f, s, f, s, waits, rid, Checking(up));
      case BeginFinish(rid, req, now) =>
        RetaskMoves(f, s, f, s, waits, rid, Publishing(req, ManifestFor(c, f.sessions[req.sid], req, now)));
      case BeginRestore(rid, ask) => RestoreMoves(f, s, waits, rid, ask);
      case BeginFetch(rid, digest) => RetaskMoves(f, s, f, s, waits, rid, Fetching(digest));
    }
  }

  lemma LaterSectionAgrees(c: Config, f: State, s: State, a: Action, waits: map<Rid, Tid>)
    requires Agree(f, s) && InMemory(a) && (LaterUpload(a) || LaterOther(a)) && a.rid !in waits
    requires a.rid in f.calls && a.rid in s.calls && s.calls[a.rid] == f.calls[a.rid]
    requires Next(c, f, a).Some?
    ensures Next(c, s, a).Some?
    ensures SameMove(f, Next(c, f, a).value, s, Next(c, s, a).value, waits, a.rid)
  {
    hide Recorded, IsDigest, DigestHex;
  }

  lemma TrackedIdle(x: Format, f: State, waits: map<Rid, Tid>, calls: map<Tid, FileStore.Call>, s: State,
                    f': State, s': State)
    requires Tracked(x, f, waits, calls, s) && f'.calls == f.calls && s'.calls == s.calls
    ensures Tracked(x, f', waits, calls, s')
  {
    hide Matches;
    forall r | r in f'.calls
      ensures MatchesAt(x, f', waits, calls, s', r)
    {
      assert MatchesAt(x, f, waits, calls, s, r);
    }
  }

  lemma Moved(x: Format, sys: System, s: State, f': State, s': State, rid: Rid)
    requires StandsFor(x, sys, s) && SameMove(sys.front, f', s, s', sys.waits, rid)
    ensures StandsFor(x, sys.(front := f'), s')
  {
    hide FileStore.Inv, FileStore.Meaning, RestLoose, Tracked, Backs;
    BacksSame(FileStore.Meaning(sys.files).store, FILES, x.json, s, s');
    var calls := FileStore.Meaning(sys.files).calls;
    if f'.calls == sys.front.calls && s'.calls == s.calls {
      TrackedIdle(x, sys.front, sys.waits, calls, s, f', s');
    } else {
      TrackedSame(x, sys.front, sys.waits, calls, s, f', s', rid, f'.calls[rid]);
    }
  }

  lemma Idle(x: Format, sys: System, s: State, rid: Rid)
    requires StandsFor(x, sys, s) && rid in sys.front.calls && rid !in sys.waits
    ensures rid in s.calls && s.calls[rid] == sys.front.calls[rid]
  {
    hide FileStore.Inv, FileStore.Meaning, RestLoose, Backs, Matches;
    assert MatchesAt(x, sys.front, sys.waits, FileStore.Meaning(sys.files).calls, s, rid);
  }

  lemma KeysAgree(x: Format, sys: System, s: State)
    requires StandsFor(x, sys, s)
    ensures s.calls.Keys == sys.front.calls.Keys && sys.waits.Keys <= sys.front.calls.Keys && Agree(sys.front, s)
  {}

  /** A section that touches no file is the machine's step. */
  lemma SectionFollows(c: Config, x: Format, sys: System, s: State, a: Action)
    requires StandsFor(x, sys, s) && Step(c, x, sys, Section(a)).Some?
    ensures Follows(c, x, Step(c, x, sys, Section(a)).value, s, Some(a))
  {
    hide StandsFor, SameMove, Agree, BlobStep, OtherStep, FirstStep;
    KeysAgree(x, sys, s);
    var f := sys.front;
    if LaterUpload(a) || LaterOther(a) {
      Idle(x, sys, s, a.rid);
      LaterSectionAgrees(c, f, s, a, sys.waits);
      Moved(x, sys, s, Next(c, f, a).value, Next(c, s, a).value, a.rid);
    } else {
      var rid := if Begins(a) then a.rid else 0;
      if Begins(a) {
        BeginAgrees(c, f, s, a, sys.waits);
      } else {
        StartAgrees(c, f, s, a, sys.waits);
      }
      Moved(x, sys, s, Next(c, f, a).value, Next(c, s, a).value, rid);
    }
  }

  /** Looking for a blob's file is the machine's check. */
  lemma LookFollows(c: Config, x: Format, sys: System, s: State, rid: Rid)
    requires StandsFor(x, sys, s) && Step(c, x, sys, Look(rid)).Some?
    ensures Follows(c, x, Step(c, x, sys, Look(rid)).value, s, Some(CheckBlob(rid, false)))
  {
    var f := sys.front;
    var up := f.calls[rid].up;
    Idle(x, sys, s, rid);
    FileCheckIsStep(c, s, rid, up, x.json, sys.files);
    LookAgrees(c, x, sys, s, rid, up);
    hide StandsFor, SameMove, Next, DoChecked, DigestHex;
    Moved(x, sys, s, DoChecked(f, rid, up, BlobPath(DigestHex(up.digest)) in sys.files.names),
          Next(c, s, CheckBlob(rid, false)).value, rid);
  }

  lemma LookAgrees(c: Config, x: Format, sys: System, s: State, rid: Rid, up: Upload)
    requires StandsFor(x, sys, s) && rid in sys.front.calls && rid !in sys.waits && rid in s.calls
    requires s.calls[rid] == Checking(up) && Next(c, s, CheckBlob(rid, false)).Some?
    requires Next(c, s, CheckBlob(rid, false)).value.calls[rid]
             == if BlobPath(DigestHex(up.digest)) in sys.files.names then Recording(up, true) else Storing(up)
    ensures SameMove(sys.front, DoChecked(sys.front, rid, up, BlobPath(DigestHex(up.digest)) in sys.files.names), s,
                     Next(c, s, CheckBlob(rid, false)).value, sys.waits, rid)
  {
    hide FileStore.Inv, FileStore.Meaning, RestLoose, Backs, Tracked, DigestHex;
  }

  // ---- Submitting ----

  lemma WaitsExist(x: Format, sys: System, s: State)
    requires StandsFor(x, sys, s)
    ensures forall rid :: rid in sys.waits ==> rid in sys.front.calls && sys.waits[rid] in sys.files.tasks
  {
    hide FileStore.Inv, Backs, Matches, RestLoose;
    forall rid | rid in sys.waits
      ensures rid in sys.front.calls && sys.waits[rid] in sys.files.tasks
    {
      assert MatchesAt(x, sys.front, sys.waits, FileStore.Meaning(sys.files).calls, s, rid);
      CallAt(sys.files, sys.waits[rid]);
    }
  }

  /** A file operation just asked for is pending and has no effect. */
  lemma Invoked(files: FileStore.State, t: Tid, op: FileStore.Op)
    requires FileStore.Inv(files) && FileStore.Next(files, FileStore.Invoke(t, op)).Some?
    ensures t !in files.tasks
    ensures var files' := FileStore.Next(files, FileStore.Invoke(t, op)).value;
            && FileStore.Inv(files') && files'.tasks == files.tasks[t := FileStore.Begun(op)]
            && FileStore.Meaning(files')
               == FileStore.Meaning(files).(calls := FileStore.Meaning(files).calls[t := FileStore.Pending(op)])
  {
    FileStore.NextInv(files, FileStore.Invoke(t, op));
    hide FileStore.Inv, FileStore.Meaning, IsFinal;
    FileStore.RetaskMeaning(files, t, FileStore.Begun(op));
  }

  lemma SubmitFollows(c: Config, x: Format, sys: System, s: State, rid: Rid, t: Tid)
    requires StandsFor(x, sys, s) && Step(c, x, sys, Submit(rid, t)).Some?
    ensures Follows(c, x, Step(c, x, sys, Submit(rid, t)).value, s, None)
  {
    var op := OpFor(x, sys.front.calls[rid]).value;
    Invoked(sys.files, t, op);
    CallAt(sys.files, t);
    hide FileStore.Inv, FileStore.Meaning, FileStore.Next, Backs, Tracked, OpFor, Loose;
    TrackedSubmitted(x, sys.front, sys.waits, FileStore.Meaning(sys.files).calls, s, rid, t, op);
    NewWait(sys.waits, rid, t);
  }

  lemma NewWait(waits: map<Rid, Tid>, rid: Rid, t: Tid)
    requires rid !in waits
    ensures waits[rid := t].Values == waits.Values + {t}
  {
    assert forall r :: r in waits ==> waits[rid := t][r] == waits[r];
    assert waits[rid := t][rid] == t;
  }

  lemma SubmitDeleteFollows(c: Config, x: Format, sys: System, s: State, t: Tid, path: FilePath)
    requires StandsFor(x, sys, s) && Step(c, x, sys, SubmitDelete(t, path)).Some?
    ensures Follows(c, x, Step(c, x, sys, SubmitDelete(t, path)).value, s, None)
  {
    hide FileStore.Inv, FileStore.Meaning, FileStore.Next, Backs, Tracked, Deletable;
    var op := FileStore.Delete(path);
    WaitsExist(x, sys, s);
    Invoked(sys.files, t, op);
    assert Loose(FileStore.Begun(op));
    hide Loose;
    TrackedElsewhere(x, sys.front, sys.waits, FileStore.Meaning(sys.files).calls, s, s, t, FileStore.Pending(op));
  }

  // ---- File steps ----

  /** A step of one operation leaves the others alone; one whose handler has been told can only
      remove its temporary file. */
  lemma TaskEvolves(files: FileStore.State, a: FileStore.Action)
    requires FileStore.Next(files, a).Some? && !a.Invoke? && !a.Crash?
    ensures var files' := FileStore.Next(files, a).value;
            && a.t in files.tasks && a.t in files'.tasks && files'.tasks == files.tasks[a.t := files'.tasks[a.t]]
            && files'.tasks[a.t].op == files.tasks[a.t].op
            && (Told(files.tasks[a.t]) ==>
                  files'.tasks[a.t] == FileStore.Over(files.tasks[a.t].op, FileStore.Failed))
  {
    hide IsFinal, IsUuid;
  }

  lemma StillLoose(sys: System, files: FileStore.State, t: Tid)
    requires RestLoose(sys.files, sys.waits) && t in sys.files.tasks && t in files.tasks
    requires files.tasks == sys.files.tasks[t := files.tasks[t]] && files.tasks[t].op == sys.files.tasks[t].op
    requires Told(sys.files.tasks[t]) ==> Told(files.tasks[t])
    ensures RestLoose(files, sys.waits)
  {
    hide Deletable, Told;
  }

  /** The parts of `StandsFor` after a file step. */
  lemma FilesMoved(x: Format, sys: System, files: FileStore.State, s': State, a: FileStore.Action)
    requires FileStore.Inv(sys.files) && RestLoose(sys.files, sys.waits)
    requires FileStore.Next(sys.files, a) == Some(files) && !a.Invoke? && !a.Crash?
    requires Agree(sys.front, s') && Backs(FileStore.Meaning(files).store, FILES, x.json, s')
    requires Tracked(x, sys.front, sys.waits, FileStore.Meaning(files).calls, s')
    ensures StandsFor(x, sys.(files := files), s')
  {
    TaskEvolves(sys.files, a);
    FileStore.NextInv(sys.files, a);
    hide FileStore.Inv, FileStore.Meaning, FileStore.Next, Backs, Tracked;
    StillLoose(sys, files, a.t);
  }

  /** What the file store's refinement says of a step, on the calls. */
  lemma Refined(files: FileStore.State, a: FileStore.Action)
    requires FileStore.Inv(files) && FileStore.Next(files, a).Some? && !a.Invoke? && !a.Crash?
    ensures var m, m' := FileStore.Meaning(files), FileStore.Meaning(FileStore.Next(files, a).value);
            && a.t in m.calls && a.t in m'.calls
            && (m' == m || (FileStore.AtomicStep(m, a.t, m') && m'.calls == m.calls[a.t := m'.calls[a.t]]
                            && m'.calls[a.t].Decided? && m'.calls[a.t].op == m.calls[a.t].op))
  {
    TaskEvolves(files, a);
    CallAt(files, a.t);
    CallAt(FileStore.Next(files, a).value, a.t);
    FileStore.NextRefines(files, a);
    hide FileStore.Inv, FileStore.Meaning, FileStore.Next;
  }

  /** The operation of a waiting request, if it stays, keeps the machine's request. */
  lemma KeptMatch(x: Format, cc: Call, fc: FileStore.Call, sc: Call)
    requires Matches(x, cc, fc, sc) && (fc.Pending? || fc.outcome.Found?)
    ensures Matches(x, cc, FileStore.Decided(fc.op, FileStore.Failed), sc)
  {}

  /** A step that fails, or any step of an operation nobody waits for that leaves the store alone. */
  lemma FailureFollows(x: Format, sys: System, s: State, a: FileStore.Action, files: FileStore.State)
    requires StandsFor(x, sys, s) && FileStore.Next(sys.files, a) == Some(files) && !a.Invoke? && !a.Crash?
    requires var m, m' := FileStore.Meaning(sys.files), FileStore.Meaning(files);
             && m'.store == m.store && a.t in m.calls
             && m'.calls == m.calls[a.t := FileStore.Decided(m.calls[a.t].op, FileStore.Failed)]
             && (m.calls[a.t].Pending? || m.calls[a.t].outcome.Found?)
    ensures StandsFor(x, sys.(files := files), s)
  {
    var m, m' := FileStore.Meaning(sys.files), FileStore.Meaning(files);
    hide FileStore.Inv, FileStore.Meaning, FileStore.Next, Backs, RestLoose, Matches;
    if a.t in sys.waits.Values {
      var rid :| rid in sys.waits && sys.waits[rid] == a.t;
      assert MatchesAt(x, sys.front, sys.waits, m.calls, s, rid);
      KeptMatch(x, sys.front.calls[rid], m.calls[a.t], s.calls[rid]);
      assert s.calls == s.calls[rid := s.calls[rid]];
      TrackedMoved(x, sys.front, sys.waits, m.calls, s, s, rid, m'.calls[a.t], s.calls[rid]);
    } else {
      TrackedElsewhere(x, sys.front, sys.waits, m.calls, s, s, a.t, m'.calls[a.t]);
    }
    FilesMoved(x, sys, files, s, a);
  }

  /** A file step that makes an operation take effect, or find what it reads. */
  ghost predicate Decides(sys: System, a: FileStore.Action, files: FileStore.State) {
    var m, m' := FileStore.Meaning(sys.files), FileStore.Meaning(files);
    && FileStore.Next(sys.files, a) == Some(files) && !a.Invoke? && !a.Crash?
    && FileStore.AtomicStep(m, a.t, m') && a.t in m.calls && a.t in m'.calls
    && m'.calls == m.calls[a.t := m'.calls[a.t]] && m'.calls[a.t].Decided?
    && m'.calls[a.t].op == m.calls[a.t].op && !m'.calls[a.t].outcome.Failed?
  }

  /** Request `rid` waits for the operation that steps. */
  predicate WaitsFor(sys: System, rid: Rid, t: Tid) {
    rid in sys.waits && sys.waits[rid] == t && rid in sys.front.calls
  }

  /** The machine is in step again once its request has moved as the operation has. */
  lemma TakesEffect(x: Format, sys: System, s: State, s': State, a: FileStore.Action, files: FileStore.State,
                    rid: Rid, sc: Call)
    requires StandsFor(x, sys, s) && Decides(sys, a, files) && WaitsFor(sys, rid, a.t)
    requires s'.calls == s.calls[rid := sc] && Agree(s, s')
    requires Matches(x, sys.front.calls[rid], FileStore.Meaning(files).calls[a.t], sc)
    requires Backs(FileStore.Meaning(files).store, FILES, x.json, s')
    ensures StandsFor(x, sys.(files := files), s')
  {
    var m, m' := FileStore.Meaning(sys.files), FileStore.Meaning(files);
    hide FileStore.Inv, FileStore.Meaning, FileStore.Next, Backs, RestLoose, FileStore.AtomicStep, Tracked, Matches;
    TrackedMoved(x, sys.front, sys.waits, m.calls, s, s', rid, m'.calls[a.t], sc);
    FilesMoved(x, sys, files, s', a);
  }

  /** While its operation is pending, the machine's request is where the handler stands. */
  lemma PendingMatch(x: Format, sys: System, s: State, rid: Rid, t: Tid)
    requires StandsFor(x, sys, s) && WaitsFor(sys, rid, t) && t in FileStore.Meaning(sys.files).calls
    ensures OpFor(x, sys.front.calls[rid]) == Some(FileStore.Meaning(sys.files).calls[t].op)
    ensures rid in s.calls
    ensures FileStore.Meaning(sys.files).calls[t].Pending? ==> s.calls[rid] == sys.front.calls[rid]
    ensures Backs(FileStore.Meaning(sys.files).store, FILES, x.json, s)
  {
    hide FileStore.Inv, FileStore.Meaning, Backs, RestLoose, OpFor;
    assert MatchesAt(x, sys.front, sys.waits, FileStore.Meaning(sys.files).calls, s, rid);
  }

  /** A put of an upload takes effect. */
  lemma StoredFollows(c: Config, x: Format, sys: System, s: State, a: FileStore.Action, files: FileStore.State,
                      rid: Rid) returns (done: Action)
    requires StandsFor(x, sys, s) && Decides(sys, a, files) && WaitsFor(sys, rid, a.t)
    requires sys.front.calls[rid].Storing?
    ensures done.PutBlob? && Follows(c, x, sys.(files := files), s, Some(done))
  {
    hide StandsFor, FileStore.Meaning, FileStore.Next, Backs, FileStore.AtomicStep, Next, DigestHex;
    var m, m' := FileStore.Meaning(sys.files), FileStore.Meaning(files);
    var up := sys.front.calls[rid].up;
    PendingMatch(x, sys, s, rid, a.t);
    Decisions(m, a.t, m');
    var how := FilePutIsStep(c, s, rid, up, x.json, m, a.t, m');
    PutMoves(c, s, rid, up, how);
    TakesEffect(x, sys, s, Next(c, s, PutBlob(rid, how)).value, a, files, rid, Counting(up));
    done := PutBlob(rid, how);
  }

  lemma PutMoves(c: Config, s: State, rid: Rid, up: Upload, how: How)
    requires rid in s.calls && s.calls[rid] == Storing(up) && Next(c, s, PutBlob(rid, how)).Some?
    requires how.Kept? || how.Written?
    ensures var s' := Next(c, s, PutBlob(rid, how)).value;
            s'.calls == s.calls[rid := Counting(up)] && Agree(s, s')
  {
    hide DigestHex, SizeAt;
  }

  /** A put of a manifest takes effect. */
  lemma PublishedFollows(c: Config, x: Format, sys: System, s: State, a: FileStore.Action, files: FileStore.State,
                         rid: Rid) returns (done: Action)
    requires StandsFor(x, sys, s) && Decides(sys, a, files) && WaitsFor(sys, rid, a.t)
    requires sys.front.calls[rid].Publishing?
    ensures done.PublishManifest? && Follows(c, x, sys.(files := files), s, Some(done))
  {
    hide StandsFor, FileStore.Meaning, FileStore.Next, Backs, FileStore.AtomicStep, Next, NameOf;
    var m, m' := FileStore.Meaning(sys.files), FileStore.Meaning(files);
    var call := sys.front.calls[rid];
    PendingMatch(x, sys, s, rid, a.t);
    Decisions(m, a.t, m');
    var how := FilePublishIsStep(c, s, rid, call.req, call.manifest, x.json, m, a.t, m');
    PublishMoves(c, s, rid, call.req, call.manifest);
    TakesEffect(x, sys, s, Next(c, s, PublishManifest(rid, how)).value, a, files, rid, Removing(call.req));
    done := PublishManifest(rid, how);
  }

  lemma PublishMoves(c: Config, s: State, rid: Rid, req: FinishRequest, m: Manifest)
    requires rid in s.calls && s.calls[rid] == Publishing(req, m)
    ensures Next(c, s, PublishManifest(rid, Written)).Some?
    ensures var s' := Next(c, s, PublishManifest(rid, Written)).value;
            s'.calls == s.calls[rid := Removing(req)] && Agree(s, s')
  {
    hide NameOf;
  }

  lemma SeenMatches(x: Format, ask: RestoreRequest, call: FileStore.Call)
    requires call.Decided? && OpFor(x, Looking(ask)) == Some(call.op)
    requires call.outcome.NotFound? || (call.outcome.Found? && x.parse(call.outcome.data).Some?)
    ensures Matches(x, Looking(ask), call, Seen(ask, ManifestRead(x.parse, FileStore.AnswerOf(call.outcome))))
  {
    hide OpFor;
  }

  lemma RetaskAgrees(s: State, rid: Rid, call: Call)
    ensures Agree(s, Retasked(s, rid, call)) && Retasked(s, rid, call).calls == s.calls[rid := call]
  {}

  lemma SeenStep(c: Config, x: Format, sys: System, s: State, a: FileStore.Action, files: FileStore.State, rid: Rid)
      returns (seen: Option<Manifest>)
    requires ReadsBack(x) && StandsFor(x, sys, s) && Decides(sys, a, files) && WaitsFor(sys, rid, a.t)
    requires sys.front.calls[rid].Looking?
    ensures var call := Seen(sys.front.calls[rid].ask, seen);
            && Next(c, s, ReadManifest(rid)) == Some(Retasked(s, rid, call))
            && Backs(FileStore.Meaning(files).store, FILES, x.json, Retasked(s, rid, call))
            && Matches(x, sys.front.calls[rid], FileStore.Meaning(files).calls[a.t], call)
  {
    hide StandsFor, FileStore.Meaning, FileStore.Next, Backs, FileStore.AtomicStep, Next, NameOf, Matches, Retasked,
      FileStore.AnswerOf, ManifestRead;
    var m, m' := FileStore.Meaning(sys.files), FileStore.Meaning(files);
    var ask := sys.front.calls[rid].ask;
    PendingMatch(x, sys, s, rid, a.t);
    ReadOutcomes(m, a.t, m');
    FileReadManifestIsStep(c, s, rid, ask, x.json, x.parse, m, a.t, m');
    SeenMatches(x, ask, m'.calls[a.t]);
    seen := ManifestRead(x.parse, FileStore.AnswerOf(m'.calls[a.t].outcome));
  }

  /** A read finds a manifest, or none. */
  lemma SeenFollows(c: Config, x: Format, sys: System, s: State, a: FileStore.Action, files: FileStore.State, rid: Rid)
    requires ReadsBack(x) && StandsFor(x, sys, s) && Decides(sys, a, files) && WaitsFor(sys, rid, a.t)
    requires sys.front.calls[rid].Looking?
    ensures Follows(c, x, sys.(files := files), s, Some(ReadManifest(rid)))
  {
    hide StandsFor, FileStore.Meaning, Decides, Backs, Next, Matches, Retasked, Agree;
    var seen := SeenStep(c, x, sys, s, a, files, rid);
    var call := Seen(sys.front.calls[rid].ask, seen);
    RetaskAgrees(s, rid, call);
    TakesEffect(x, sys, s, Retasked(s, rid, call), a, files, rid, call);
  }

  lemma HeldMatches(x: Format, digest: string, call: FileStore.Call)
    requires call.Decided? && OpFor(x, Fetching(digest)) == Some(call.op)
    requires call.outcome.NotFound? || call.outcome.Found?
    ensures Matches(x, Fetching(digest), call, Holding(digest, BytesRead(FileStore.AnswerOf(call.outcome))))
  {
    hide OpFor;
  }

  lemma HeldStep(c: Config, x: Format, sys: System, s: State, a: FileStore.Action, files: FileStore.State, rid: Rid)
      returns (held: Option<Bytes>)
    requires StandsFor(x, sys, s) && Decides(sys, a, files) && WaitsFor(sys, rid, a.t)
    requires sys.front.calls[rid].Fetching?
    ensures var call := Holding(sys.front.calls[rid].digest, held);
            && Next(c, s, ReadBlob(rid)) == Some(Retasked(s, rid, call))
            && Backs(FileStore.Meaning(files).store, FILES, x.json, Retasked(s, rid, call))
            && Matches(x, sys.front.calls[rid], FileStore.Meaning(files).calls[a.t], call)
  {
    hide StandsFor, FileStore.Meaning, FileStore.Next, Backs, FileStore.AtomicStep, Next, DigestHex, IsDigestHex,
      Matches, Retasked, FileStore.AnswerOf, BytesRead;
    var m, m' := FileStore.Meaning(sys.files), FileStore.Meaning(files);
    var digest := sys.front.calls[rid].digest;
    PendingMatch(x, sys, s, rid, a.t);
    ReadOutcomes(m, a.t, m');
    FileReadBlobIsStep(c, s, rid, digest, x.json, m, a.t, m');
    HeldMatches(x, digest, m'.calls[a.t]);
    held := BytesRead(FileStore.AnswerOf(m'.calls[a.t].outcome));
  }

  /** A read finds a blob, or none. */
  lemma HeldFollows(c: Config, x: Format, sys: System, s: State, a: FileStore.Action, files: FileStore.State, rid: Rid)
    requires StandsFor(x, sys, s) && Decides(sys, a, files) && WaitsFor(sys, rid, a.t)
    requires sys.front.calls[rid].Fetching?
    ensures Follows(c, x, sys.(files := files), s, Some(ReadBlob(rid)))
  {
    hide StandsFor, FileStore.Meaning, Decides, Backs, Next, Matches, Retasked, Agree;
    var held := HeldStep(c, x, sys, s, a, files, rid);
    var call := Holding(sys.front.calls[rid].digest, held);
    RetaskAgrees(s, rid, call);
    TakesEffect(x, sys, s, Retasked(s, rid, call), a, files, rid, call);
  }

  lemma OnlyUnlinkRemoves(files: FileStore.State, a: FileStore.Action)
    requires FileStore.Next(files, a).Some? && !a.Invoke? && a.t in files.tasks && !files.tasks[a.t].Over?
    requires var files' := FileStore.Next(files, a).value;
             a.t in files'.tasks && files'.tasks[a.t].Over? && files'.tasks[a.t].outcome.Removed?
    ensures a.Unlink?
  {
    hide IsFinal, IsUuid, FileStore.CanCreate, FileStore.CanRename;
  }

  /** What is deleted is deleted by unlinking it. */
  lemma RemovedByUnlink(sys: System, a: FileStore.Action, files: FileStore.State)
    requires Decides(sys, a, files) && FileStore.Meaning(sys.files).calls[a.t].op.Delete?
    ensures a.Unlink? && a.t in sys.files.tasks
    ensures sys.files.tasks[a.t].op == FileStore.Meaning(sys.files).calls[a.t].op
  {
    TaskEvolves(sys.files, a);
    CallAt(sys.files, a.t);
    CallAt(files, a.t);
    CallOp(sys.files, sys.files.tasks[a.t]);
    Decisions(FileStore.Meaning(sys.files), a.t, FileStore.Meaning(files));
    hide FileStore.Meaning, FileStore.AtomicStep, FileStore.Next;
    OnlyUnlinkRemoves(sys.files, a);
  }

  /** A deletion takes effect. */
  lemma RemovedFollows(c: Config, x: Format, sys: System, s: State, a: FileStore.Action, files: FileStore.State)
      returns (done: Action)
    requires StandsFor(x, sys, s) && Decides(sys, a, files) && a.t !in sys.waits.Values
    requires FileStore.Meaning(sys.files).calls[a.t].op.Delete?
    requires Deletable(FileStore.Meaning(sys.files).calls[a.t].op.path)
    ensures (done.DeleteBlob? || done.DeleteManifest?) && Follows(c, x, sys.(files := files), s, Some(done))
    ensures done.DeleteBlob? ==> FileStore.Meaning(sys.files).calls[a.t].op.path.dir == BlobPath("").dir
  {
    var m, m' := FileStore.Meaning(sys.files), FileStore.Meaning(files);
    var path := m.calls[a.t].op.path;
    assert Backs(m.store, FILES, x.json, s);
    Decisions(m, a.t, m');
    hide StandsFor, FileStore.Meaning, FileStore.Next, Backs, FileStore.AtomicStep, DigestHex, IsDigestHex, NameOf,
      ValidName, Escaped, Next;
    if digest :| IsDigest(digest) && path == BlobPath(DigestHex(digest)) {
      NamesAreEscaped("", "");
      FileDeleteIsStep(c, s, x.json, m, a.t, m', digest, NameOf("", ""));
      done := DeleteBlob(digest);
    } else {
      var ns, key :| ValidName(ns, key) && path == ManifestFile(NameOf(ns, key));
      NamesAreEscaped(ns, key);
      FileDeleteIsStep(c, s, x.json, m, a.t, m', "", NameOf(ns, key));
      done := DeleteManifest(NameOf(ns, key));
    }
    DeleteMoves(c, s, done);
    RemovedStands(x, sys, s, Next(c, s, done).value, a, files);
  }

  lemma DeleteMoves(c: Config, s: State, done: Action)
    requires done.DeleteBlob? || done.DeleteManifest?
    ensures Next(c, s, done).Some?
    ensures Next(c, s, done).value.calls == s.calls && Agree(s, Next(c, s, done).value)
  {
    hide DigestHex;
  }

  lemma RemovedStands(x: Format, sys: System, s: State, s': State, a: FileStore.Action, files: FileStore.State)
    requires StandsFor(x, sys, s) && Decides(sys, a, files) && a.t !in sys.waits.Values
    requires s'.calls == s.calls && Agree(s, s') && Backs(FileStore.Meaning(files).store, FILES, x.json, s')
    ensures StandsFor(x, sys.(files := files), s')
  {
    var m, m' := FileStore.Meaning(sys.files), FileStore.Meaning(files);
    hide FileStore.Inv, FileStore.Meaning, FileStore.Next, Backs, RestLoose, FileStore.AtomicStep, Tracked;
    TrackedElsewhere(x, sys.front, sys.waits, m.calls, s, s', a.t, m'.calls[a.t]);
    FilesMoved(x, sys, files, s', a);
  }

  /** What a decided step can have decided, by the kind of the operation. */
  lemma Decisions(m: FileStore.Atomic, t: Tid, m': FileStore.Atomic)
    requires FileStore.AtomicStep(m, t, m') && t in m.calls && t in m'.calls
    ensures m'.calls[t].Decided?
    ensures m'.calls[t].outcome.Failed? ==>
              m'.store == m.store && (m.calls[t].Pending? || m.calls[t].outcome.Found?)
    ensures !m'.calls[t].outcome.Failed? ==>
              match m.calls[t].op
              case Put(_, _, _) => m'.calls[t].outcome.Stored? && m.calls[t].Pending?
              case Get(_) => true
              case Delete(_) => m'.calls[t].outcome.Removed?
  {}

  /** Every file step is the machine's step for the request that waits, or nothing to it. */
  lemma FileFollows(c: Config, x: Format, sys: System, s: State, a: FileStore.Action) returns (done: Option<Action>)
    requires ReadsBack(x) && StandsFor(x, sys, s) && Step(c, x, sys, File(a)).Some?
    ensures Follows(c, x, Step(c, x, sys, File(a)).value, s, done)
    ensures done.Some? ==> Accounts(sys, File(a), done.value)
  {
    hide StandsFor, FileStore.Inv, FileStore.Meaning, FileStore.Next, FileStore.AtomicStep, Backs, Tracked, RestLoose,
      ReadsBack, Follows, Step;
    FileStepIs(c, x, sys, a);
    var files := FileStore.Next(sys.files, a).value;
    var m, m' := FileStore.Meaning(sys.files), FileStore.Meaning(files);
    StandsParts(x, sys, s);
    Refined(sys.files, a);
    if m' == m {
      FilesMoved(x, sys, files, s, a);
      NothingFollows(c, x, sys.(files := files), s);
      done := None;
    } else if m'.calls[a.t].outcome.Failed? {
      Decisions(m, a.t, m');
      FailureFollows(x, sys, s, a, files);
      NothingFollows(c, x, sys.(files := files), s);
      done := None;
    } else {
      assert Decides(sys, a, files);
      done := DecisionFollows(c, x, sys, s, a, files);
    }
  }

  lemma FileStepIs(c: Config, x: Format, sys: System, a: FileStore.Action)
    requires Step(c, x, sys, File(a)).Some?
    ensures !a.Invoke? && !a.Crash? && FileStore.Next(sys.files, a).Some?
    ensures Step(c, x, sys, File(a)).value == sys.(files := FileStore.Next(sys.files, a).value)
  {
    hide FileStore.Next;
  }

  lemma StandsParts(x: Format, sys: System, s: State)
    requires StandsFor(x, sys, s)
    ensures FileStore.Inv(sys.files) && Agree(sys.front, s) && RestLoose(sys.files, sys.waits)
    ensures Backs(FileStore.Meaning(sys.files).store, FILES, x.json, s)
    ensures Tracked(x, sys.front, sys.waits, FileStore.Meaning(sys.files).calls, s)
  {}

  lemma NothingFollows(c: Config, x: Format, sys: System, s: State)
    requires StandsFor(x, sys, s)
    ensures Follows(c, x, sys, s, None)
  {}

  /** An operation takes effect or finds what it reads. */
  lemma DecisionFollows(c: Config, x: Format, sys: System, s: State, a: FileStore.Action, files: FileStore.State)
      returns (done: Option<Action>)
    requires ReadsBack(x) && StandsFor(x, sys, s) && Decides(sys, a, files)
    ensures Follows(c, x, sys.(files := files), s, done)
    ensures done.Some? && Accounts(sys, File(a), done.value)
  {
    hide StandsFor, Decides, Follows, ReadsBack, Deletable, FileStore.Meaning;
    if a.t in sys.waits.Values {
      var rid :| rid in sys.waits && sys.waits[rid] == a.t;
      MatchOf(x, sys, s, rid);
      match sys.front.calls[rid] {
        case Storing(_) =>
          var step := StoredFollows(c, x, sys, s, a, files, rid);
          done := Some(step);
        case Publishing(_, _) =>
          var step := PublishedFollows(c, x, sys, s, a, files, rid);
          done := Some(step);
        case Looking(_) =>
          SeenFollows(c, x, sys, s, a, files, rid);
          done := Some(ReadManifest(rid));
        case Fetching(_) =>
          HeldFollows(c, x, sys, s, a, files, rid);
          done := Some(ReadBlob(rid));
      }
    } else {
      LooseDeletes(x, sys, s, a, files);
      RemovedByUnlink(sys, a, files);
      var step := RemovedFollows(c, x, sys, s, a, files);
      done := Some(step);
    }
  }

  lemma MatchOf(x: Format, sys: System, s: State, rid: Rid)
    requires StandsFor(x, sys, s) && rid in sys.waits
    ensures rid in sys.front.calls
    ensures var cc := sys.front.calls[rid]; cc.Storing? || cc.Publishing? || cc.Looking? || cc.Fetching?
  {
    hide FileStore.Inv, FileStore.Meaning, Backs, RestLoose;
    assert rid in sys.waits.Keys;
    assert MatchesAt(x, sys.front, sys.waits, FileStore.Meaning(sys.files).calls, s, rid);
  }

  lemma LooseDeletes(x: Format, sys: System, s: State, a: FileStore.Action, files: FileStore.State)
    requires StandsFor(x, sys, s) && Decides(sys, a, files) && a.t !in sys.waits.Values
    ensures a.t in FileStore.Meaning(sys.files).calls
    ensures var op := FileStore.Meaning(sys.files).calls[a.t].op; op.Delete? && Deletable(op.path)
  {
    TaskEvolves(sys.files, a);
    CallAt(sys.files, a.t);
    CallAt(files, a.t);
    CallOp(sys.files, sys.files.tasks[a.t]);
    hide FileStore.Inv, FileStore.Meaning, FileStore.Next, FileStore.AtomicStep, Backs, Tracked, Deletable;
    assert Loose(sys.files.tasks[a.t]);
  }

  lemma CallOp(files: FileStore.State, task: FileStore.Task)
    ensures FileStore.CallOf(files, task).op == task.op
  {}

  // ---- Going on after a file operation ----

  lemma StillLooseAfter(sys: System, rid: Rid)
    requires RestLoose(sys.files, sys.waits) && rid in sys.waits && sys.waits[rid] in sys.files.tasks
    requires Told(sys.files.tasks[sys.waits[rid]])
    ensures RestLoose(sys.files, sys.waits - {rid})
  {
    hide Deletable, Told;
    WithoutOne(sys.waits, rid);
  }

  lemma WithoutOne(waits: map<Rid, Tid>, rid: Rid)
    requires rid in waits
    ensures forall t :: t in waits.Values && t != waits[rid] ==> t in (waits - {rid}).Values
  {
    forall t | t in waits.Values && t != waits[rid]
      ensures t in (waits - {rid}).Values
    {
      var r :| r in waits && waits[r] == t;
      assert (waits - {rid})[r] == t;
    }
  }

  /** The parts of `StandsFor` after a handler has gone on. */
  lemma ResumedStands(x: Format, sys: System, s: State, f': State, s': State, rid: Rid, call: Call)
    requires StandsFor(x, sys, s) && rid in sys.waits && sys.waits[rid] in sys.files.tasks
    requires Told(sys.files.tasks[sys.waits[rid]])
    requires Agree(f', s') && s'.blobs == s.blobs && s'.manifests == s.manifests
    requires f'.calls == sys.front.calls[rid := call] && s'.calls == s.calls[rid := call]
    ensures StandsFor(x, sys.(front := f', waits := sys.waits - {rid}), s')
  {
    hide FileStore.Inv, FileStore.Meaning, Backs, Tracked, Told;
    BacksSame(FileStore.Meaning(sys.files).store, FILES, x.json, s, s');
    TrackedResumed(x, sys.front, sys.waits, FileStore.Meaning(sys.files).calls, s, f', s', rid, call);
    StillLooseAfter(sys, rid);
  }

  /** What the machine's request is when the handler is told. */
  lemma ToldMatch(x: Format, sys: System, s: State, rid: Rid)
    requires StandsFor(x, sys, s) && rid in sys.waits && rid in sys.front.calls && sys.waits[rid] in sys.files.tasks
    requires Told(sys.files.tasks[sys.waits[rid]])
    ensures rid in s.calls && Agree(sys.front, s)
    ensures var task := sys.files.tasks[sys.waits[rid]];
            Matches(x, sys.front.calls[rid],
                    if task.Over? then FileStore.Decided(task.op, task.outcome) else FileStore.Pending(task.op),
                    s.calls[rid])
  {
    hide FileStore.Inv, FileStore.Meaning, Backs, RestLoose, Matches;
    assert MatchesAt(x, sys.front, sys.waits, FileStore.Meaning(sys.files).calls, s, rid);
    CallAt(sys.files, sys.waits[rid]);
    ToldCall(sys.files, sys.files.tasks[sys.waits[rid]]);
  }

  predicate SameAfter(f: State, f': State, s: State, s': State, rid: Rid) {
    && Agree(f', s') && s'.blobs == s.blobs && s'.manifests == s.manifests
    && rid in f'.calls && f'.calls == f.calls[rid := f'.calls[rid]] && s'.calls == s.calls[rid := f'.calls[rid]]
  }

  lemma ResumePut(c: Config, x: Format, f: State, s: State, rid: Rid, up: Upload, task: FileStore.Task)
      returns (done: Action)
    requires Agree(f, s) && rid in f.calls && rid in s.calls && Told(task)
    requires s.calls[rid] == if Done(task) then Counting(up) else Storing(up)
    ensures Next(c, s, done).Some? && !InMemory(done) && !done.DeleteBlob?
    ensures done == if Done(task) then CountBlob(rid) else PutBlob(rid, Refused)
    ensures SameAfter(f, if Done(task) then DoCount(f, rid, up) else Protocol.Failing(f, rid), s,
                      Next(c, s, done).value, rid)
  {
    hide DigestHex, SizeAt;
    done := if Done(task) then CountBlob(rid) else PutBlob(rid, Refused);
  }

  lemma ResumeFailedPublish(c: Config, f: State, s: State, rid: Rid, req: FinishRequest, m: Manifest)
    requires Agree(f, s) && rid in f.calls && rid in s.calls && s.calls[rid] == Publishing(req, m)
    ensures Next(c, s, PublishManifest(rid, Refused)).Some?
    ensures SameAfter(f, Protocol.Failing(f, rid), s, Next(c, s, PublishManifest(rid, Refused)).value, rid)
  {}

  lemma LookFailsAlike(c: Config, f: State, s: State, rid: Rid, ask: RestoreRequest, seen: Option<Manifest>, now: int)
    requires Agree(f, s) && rid in f.calls && rid in s.calls
    requires s.calls[rid] == Looking(ask) || (s.calls[rid].Seen? && s.calls[rid].ask == ask)
    ensures Next(c, s, LookUp(rid, true, now)).Some?
    ensures SameAfter(f, DoLookUp(f, rid, ask, seen, true, now), s, Next(c, s, LookUp(rid, true, now)).value, rid)
  {
    hide Hit, TotalSize;
  }

  lemma LookUpIs(c: Config, s: State, rid: Rid, ask: RestoreRequest, seen: Option<Manifest>, now: int)
    requires rid in s.calls && s.calls[rid] == Seen(ask, seen)
    ensures Next(c, s, LookUp(rid, false, now)) == Some(DoLookUp(s, rid, ask, seen, false, now))
  {
    hide DoLookUp;
  }

  lemma SameLookUp(f: State, s: State, rid: Rid, ask: RestoreRequest, seen: Option<Manifest>, now: int)
    requires Agree(f, s) && rid in f.calls && rid in s.calls
    ensures SameAfter(f, DoLookUp(f, rid, ask, seen, false, now), s, DoLookUp(s, rid, ask, seen, false, now), rid)
  {
    hide Hit, TotalSize, Protocol.Failing;
  }

  lemma LookDecidesAlike(c: Config, f: State, s: State, rid: Rid, ask: RestoreRequest, seen: Option<Manifest>, now: int)
    requires Agree(f, s) && rid in f.calls && rid in s.calls && s.calls[rid] == Seen(ask, seen)
    ensures Next(c, s, LookUp(rid, false, now)).Some?
    ensures SameAfter(f, DoLookUp(f, rid, ask, seen, false, now), s, Next(c, s, LookUp(rid, false, now)).value, rid)
  {
    hide DoLookUp, SameAfter, Next, Agree;
    LookUpIs(c, s, rid, ask, seen, now);
    SameLookUp(f, s, rid, ask, seen, now);
  }

  lemma ResumeLooking(c: Config, f: State, s: State, rid: Rid, ask: RestoreRequest, seen: Option<Manifest>,
                      fails: bool, now: int)
    requires Agree(f, s) && rid in f.calls && rid in s.calls
    requires if fails then s.calls[rid] == Looking(ask) || (s.calls[rid].Seen? && s.calls[rid].ask == ask)
             else s.calls[rid] == Seen(ask, seen)
    ensures Next(c, s, LookUp(rid, fails, now)).Some?
    ensures SameAfter(f, DoLookUp(f, rid, ask, seen, fails, now), s, Next(c, s, LookUp(rid, fails, now)).value, rid)
  {
    hide Next, DoLookUp, SameAfter, Agree;
    if fails {
      LookFailsAlike(c, f, s, rid, ask, seen, now);
    } else {
      LookDecidesAlike(c, f, s, rid, ask, seen, now);
    }
  }

  lemma ResumeFetching(c: Config, f: State, s: State, rid: Rid, digest: string, held: Option<Bytes>, fails: bool)
    requires Agree(f, s) && rid in f.calls && rid in s.calls
    requires if fails then s.calls[rid] == Fetching(digest) || s.calls[rid].Holding?
             else s.calls[rid] == Holding(digest, held)
    ensures Next(c, s, AnswerFetch(rid, fails)).Some?
    ensures SameAfter(f, if fails then Protocol.Failing(f, rid)
                         else DoFetched(f, rid, if held.Some? then |held.value| else 0), s,
                      Next(c, s, AnswerFetch(rid, fails)).value, rid)
  {}

  /** A handler that waits and has been told, at this point of its request. */
  predicate CanResume(sys: System, rid: Rid) {
    && rid in sys.front.calls && rid in sys.waits && sys.waits[rid] in sys.files.tasks
    && Told(sys.files.tasks[sys.waits[rid]])
  }

  function TaskOf(sys: System, rid: Rid): FileStore.Task
    requires CanResume(sys, rid)
  {
    sys.files.tasks[sys.waits[rid]]
  }

  lemma ResumedMove(c: Config, x: Format, sys: System, s: State, f': State, rid: Rid, done: Action)
    requires StandsFor(x, sys, s) && CanResume(sys, rid) && Next(c, s, done).Some?
    requires SameAfter(sys.front, f', s, Next(c, s, done).value, rid)
    ensures Follows(c, x, sys.(front := f', waits := sys.waits - {rid}), s, Some(done))
  {
    hide StandsFor, Next, Told;
    ResumedStands(x, sys, s, f', Next(c, s, done).value, rid, f'.calls[rid]);
  }

  lemma AfterPut(c: Config, x: Format, sys: System, s: State, rid: Rid, up: Upload) returns (done: Action)
    requires StandsFor(x, sys, s) && CanResume(sys, rid) && sys.front.calls[rid] == Storing(up)
    ensures !InMemory(done) && !done.DeleteBlob?
    ensures done == if Done(TaskOf(sys, rid)) then CountBlob(rid) else PutBlob(rid, Refused)
    ensures Follows(c, x, sys.(front := if Done(TaskOf(sys, rid)) then DoCount(sys.front, rid, up)
                                        else Protocol.Failing(sys.front, rid),
                               waits := sys.waits - {rid}), s, Some(done))
  {
    hide StandsFor, Next, SameAfter, DoCount, Protocol.Failing, OpFor, Follows, Agree;
    ToldMatch(x, sys, s, rid);
    done := ResumePut(c, x, sys.front, s, rid, up, TaskOf(sys, rid));
    ResumedMove(c, x, sys, s, if Done(TaskOf(sys, rid)) then DoCount(sys.front, rid, up)
                              else Protocol.Failing(sys.front, rid), rid, done);
  }

  lemma AfterPublish(c: Config, x: Format, sys: System, s: State, rid: Rid, req: FinishRequest, m: Manifest)
      returns (done: Option<Action>)
    requires StandsFor(x, sys, s) && CanResume(sys, rid) && sys.front.calls[rid] == Publishing(req, m)
    ensures done.Some? ==> !InMemory(done.value) && !done.value.DeleteBlob?
    ensures done == if Done(TaskOf(sys, rid)) then None else Some(PublishManifest(rid, Refused))
    ensures Follows(c, x, sys.(front := if Done(TaskOf(sys, rid)) then Retasked(sys.front, rid, Removing(req))
                                        else Protocol.Failing(sys.front, rid), waits := sys.waits - {rid}), s, done)
  {
    hide StandsFor, Next, SameAfter, Retasked, Protocol.Failing, OpFor, Follows, Agree;
    ToldMatch(x, sys, s, rid);
    if Done(TaskOf(sys, rid)) {
      done := None;
      PublishedStands(x, sys, s, rid, req);
      NothingFollows(c, x, sys.(front := Retasked(sys.front, rid, Removing(req)), waits := sys.waits - {rid}), s);
    } else {
      done := Some(PublishManifest(rid, Refused));
      ResumeFailedPublish(c, sys.front, s, rid, req, m);
      ResumedMove(c, x, sys, s, Protocol.Failing(sys.front, rid), rid, done.value);
    }
  }

  lemma PublishedStands(x: Format, sys: System, s: State, rid: Rid, req: FinishRequest)
    requires StandsFor(x, sys, s) && CanResume(sys, rid) && rid in s.calls && s.calls[rid] == Removing(req)
    ensures StandsFor(x, sys.(front := Retasked(sys.front, rid, Removing(req)), waits := sys.waits - {rid}), s)
  {
    hide StandsFor, Told, Retasked;
    KeysAgree(x, sys, s);
    var f' := Retasked(sys.front, rid, Removing(req));
    RetaskAgrees(sys.front, rid, Removing(req));
    assert s.calls == s.calls[rid := Removing(req)];
    ResumedStands(x, sys, s, f', s, rid, Removing(req));
  }

  lemma AfterLook(c: Config, x: Format, sys: System, s: State, rid: Rid, ask: RestoreRequest, now: int)
    requires StandsFor(x, sys, s) && CanResume(sys, rid) && sys.front.calls[rid] == Looking(ask)
    ensures var task := TaskOf(sys, rid);
            Follows(c, x, sys.(front := DoLookUp(sys.front, rid, ask, LookSees(x, task), LookFails(x, task), now),
                               waits := sys.waits - {rid}), s, Some(LookUp(rid, LookFails(x, task), now)))
  {
    hide StandsFor, Next, SameAfter, DoLookUp, OpFor, Follows, Agree;
    ToldMatch(x, sys, s, rid);
    var task := TaskOf(sys, rid);
    ResumeLooking(c, sys.front, s, rid, ask, LookSees(x, task), LookFails(x, task), now);
    ResumedMove(c, x, sys, s, DoLookUp(sys.front, rid, ask, LookSees(x, task), LookFails(x, task), now), rid,
                LookUp(rid, LookFails(x, task), now));
  }

  lemma AfterFetch(c: Config, x: Format, sys: System, s: State, rid: Rid, digest: string)
    requires StandsFor(x, sys, s) && CanResume(sys, rid) && sys.front.calls[rid] == Fetching(digest)
    ensures var task := TaskOf(sys, rid);
            Follows(c, x, sys.(front := AfterFetching(sys.front, rid, task), waits := sys.waits - {rid}), s,
                    Some(AnswerFetch(rid, FetchFails(task))))
  {
    hide StandsFor, Next, SameAfter, DoFetched, Protocol.Failing, OpFor, Follows, Agree;
    ToldMatch(x, sys, s, rid);
    var task := TaskOf(sys, rid);
    ResumeFetching(c, sys.front, s, rid, digest, FetchHolds(task), FetchFails(task));
    ResumedMove(c, x, sys, s, AfterFetching(sys.front, rid, task), rid, AnswerFetch(rid, FetchFails(task)));
  }

  /** What the handler makes of what it is told: `None` for a success that the machine has behind it. */
  function AnswerTo(x: Format, call: Call, task: FileStore.Task, rid: Rid, now: int): Option<Action> {
    var outcome := if task.Over? then task.outcome else FileStore.Failed;
    match call
    case Storing(_) => Some(if outcome.Stored? then CountBlob(rid) else PutBlob(rid, Refused))
    case Publishing(_, _) => if outcome.Stored? then None else Some(PublishManifest(rid, Refused))
    case Looking(_) =>
      Some(LookUp(rid, match outcome
                       case NotFound => false
                       case Found(data) => x.parse(data).None?
                       case _ => true, now))
    case Fetching(_) =>
      Some(AnswerFetch(rid, match outcome
                            case NotFound => false
                            case Found(_) => false
                            case _ => true))
    case _ => None
  }

  /** A handler that goes on takes the machine's step for the answer it got, or has it behind it. */
  lemma ResumeFollows(c: Config, x: Format, sys: System, s: State, rid: Rid, now: int) returns (done: Option<Action>)
    requires StandsFor(x, sys, s) && Step(c, x, sys, Resume(rid, now)).Some?
    ensures Follows(c, x, Step(c, x, sys, Resume(rid, now)).value, s, done)
    ensures done.Some? ==> !InMemory(done.value) && !done.value.DeleteBlob?
    ensures done == AnswerTo(x, sys.front.calls[rid], sys.files.tasks[sys.waits[rid]], rid, now)
  {
    hide StandsFor, DoLookUp, DoFetched, DoCount, Protocol.Failing, Retasked, Follows;
    match sys.front.calls[rid] {
      case Storing(up) =>
        var step := AfterPut(c, x, sys, s, rid, up);
        done := Some(step);
      case Publishing(req, m) => done := AfterPublish(c, x, sys, s, rid, req, m);
      case Looking(ask) =>
        AfterLook(c, x, sys, s, rid, ask, now);
        done := Some(LookUp(rid, LookFails(x, TaskOf(sys, rid)), now));
      case Fetching(digest) =>
        AfterFetch(c, x, sys, s, rid, digest);
        done := Some(AnswerFetch(rid, FetchFails(TaskOf(sys, rid))));
    }
  }

  // ---- A crash ----

  lemma StopFollows(c: Config, x: Format, sys: System, s: State)
    requires StandsFor(x, sys, s)
    ensures Follows(c, x, Stopped(sys), s, Some(Restart))
  {
    var files := Stopped(sys).files;
    NoTasksLeft(sys.files);
    var s' := DoRestart(s);
    assert Next(c, s, Restart) == Some(s');
    hide FileStore.Inv, FileStore.Meaning, Matches;
    BacksSame(FileStore.Meaning(sys.files).store, FILES, x.json, s, s');
    assert Tracked(x, DoRestart(sys.front), map[], FileStore.Meaning(files).calls, s');
  }

  lemma NoTasksLeft(files: FileStore.State)
    requires FileStore.Inv(files)
    ensures FileStore.Inv(files.(tasks := map[]))
    ensures FileStore.Meaning(files.(tasks := map[])).store == FileStore.Meaning(files).store
  {
    hide FileStore.TaskOk, FileStore.Apart;
  }

  // ---- Nothing is stuck ----

  /** Whoever the machine would let begin may begin here; whatever can be deleted may be; and the
      server may stop. */
  lemma AnyoneMayBegin(c: Config, x: Format, sys: System, a: Action, t: Tid, digest: string, ns: string, key: string)
    requires t !in sys.files.tasks
    ensures Next(c, sys.front, a).Some? && (a.RefuseStart? || a.CreateSession?) ==> Step(c, x, sys, Section(a)).Some?
    ensures Next(c, sys.front, a).Some? && (a.BeginBlob? || a.BeginFinish? || a.BeginRestore? || a.BeginFetch?) ==>
              Step(c, x, sys, Section(a)).Some?
    ensures IsDigest(digest) ==> Step(c, x, sys, SubmitDelete(t, BlobPath(DigestHex(digest)))).Some?
    ensures ValidName(ns, key) ==> Step(c, x, sys, SubmitDelete(t, ManifestFile(NameOf(ns, key)))).Some?
    ensures Step(c, x, sys, Stop).Some?
  {
    hide Next, DigestHex, IsDigestHex, ValidName, NameOf, ManifestFile, IsFinal;
    if IsDigest(digest) {
      FinalPaths(DigestHex(digest), ManifestName("", ""));
    }
    ManifestIsFinal(NameOf(ns, key));
  }

  /** What a request that waits for no file can do next. */
  lemma RequestGoesOn(c: Config, x: Format, sys: System, rid: Rid, t: Tid)
    requires rid in sys.front.calls && rid !in sys.waits && t !in sys.files.tasks
    ensures var can := (e: Event) => Step(c, x, sys, e).Some?;
            match sys.front.calls[rid]
            case Checking(up) => IsDigest(up.digest) ==> can(Look(rid))
            case Storing(up) => IsDigest(up.digest) ==> can(Submit(rid, t))
            case Recording(_, _) => can(Section(RecordBlob(rid)))
            case Publishing(_, _) => can(Submit(rid, t))
            case Removing(_) => can(Section(RemoveSession(rid)))
            case Looking(_) => can(Submit(rid, t))
            case Fetching(digest) => if IsDigest(digest) then can(Submit(rid, t)) else can(Section(FetchOther(rid, 0)))
            case _ => true
  {
    hide DigestHex, IsDigestHex, FileStore.Inv;
    var call := sys.front.calls[rid];
    match call {
      case Storing(up) => if IsDigest(up.digest) { FinalPaths(DigestHex(up.digest), ManifestName("", "")); }
      case Publishing(_, m) => ManifestIsFinal(NameFor(m));
      case Looking(ask) => ManifestIsFinal(NameOf(ask.namespace, ask.key));
      case Fetching(digest) => if IsDigest(digest) { FinalPaths(DigestHex(digest), ManifestName("", "")); }
      case _ =>
    }
  }

  /** A request that waits goes on once its operation is over; until then the operation can go on, as
      far as `FileStore.NeverStuck` says, and can fail. */
  lemma WaitingGoesOn(c: Config, x: Format, sys: System, s: State, rid: Rid, now: int)
    requires StandsFor(x, sys, s) && rid in sys.waits
    ensures rid in sys.front.calls && sys.waits[rid] in sys.files.tasks
    ensures var task := sys.files.tasks[sys.waits[rid]];
            task.Over? || task.Cleaning? ==> Step(c, x, sys, Resume(rid, now)).Some?
    ensures forall a: FileStore.Action ::
              !a.Invoke? && !a.Crash? && FileStore.Next(sys.files, a).Some? ==> Step(c, x, sys, File(a)).Some?
    ensures !Told(sys.files.tasks[sys.waits[rid]]) ==> Step(c, x, sys, File(FileStore.Fail(sys.waits[rid]))).Some?
  {
    hide StandsFor, FileStore.Inv, DoLookUp, LookSees, LookFails, AfterFetching, DoCount, Retasked, Protocol.Failing;
    WaitsExist(x, sys, s);
    MatchOf(x, sys, s, rid);
  }

  // ---- Whole histories ----

  datatype Moment = Moment(event: Event, system: System)

  /** The system after the first `i` events. */
  function SystemAt(past: seq<Moment>, i: nat): System
    requires i <= |past|
  {
    if i == 0 then START else past[i - 1].system
  }

  ghost predicate IsHistory(c: Config, x: Format, past: seq<Moment>) {
    forall i :: 0 <= i < |past| ==> Step(c, x, SystemAt(past, i), past[i].event) == Some(past[i].system)
  }

  /** From event `j` to event `k` of the run: a section is one action of the machine, any other event
      at most one. */
  predicate MovesOn(sys: System, e: Event, run: Run, j: nat, k: nat) {
    && j <= k <= j + 1 && k <= |run|
    && (e.Section? ==> k == j + 1)
    && (k == j + 1 ==> Accounts(sys, e, run[j].action))
  }

  /** `run` goes along with the history: after `i` events it has taken `at[i]` actions, and the
      system stands for the state it has reached. */
  ghost predicate Mirrors(c: Config, x: Format, past: seq<Moment>, run: Run, at: seq<nat>) {
    && IsRun(c, run)
    && |at| == |past| + 1 && at[0] == 0 && at[|past|] == |run|
    && (forall i :: 0 <= i <= |past| ==> at[i] <= |run| && StandsFor(x, SystemAt(past, i), At(run, at[i])))
    && (forall i :: 0 <= i < |past| ==> MovesOn(SystemAt(past, i), past[i].event, run, at[i], at[i + 1]))
  }

  lemma StartMirrors(c: Config, x: Format)
    ensures Mirrors(c, x, [], [], [0])
  {
    hide StandsFor;
    StartStands(x);
  }

  lemma MirrorNow(c: Config, x: Format, past: seq<Moment>, run: Run, at: seq<nat>)
    requires Mirrors(c, x, past, run, at)
    ensures StandsFor(x, SystemAt(past, |past|), Last(run))
  {
    hide StandsFor, IsRun;
  }

  lemma HistoryBefore(c: Config, x: Format, past: seq<Moment>)
    requires past != [] && IsHistory(c, x, past)
    ensures var n, front := |past| - 1, past[..|past| - 1];
            && IsHistory(c, x, front) && SystemAt(front, n) == SystemAt(past, n)
            && Step(c, x, SystemAt(past, n), past[n].event) == Some(past[n].system)
  {
    hide Step;
    var n, front := |past| - 1, past[..|past| - 1];
    assert forall i :: 0 <= i <= n ==> SystemAt(past, i) == SystemAt(front, i);
    assert forall i :: 0 <= i < n ==> front[i] == past[i];
    forall i | 0 <= i < n
      ensures Step(c, x, SystemAt(front, i), front[i].event) == Some(front[i].system)
    {
      assert Step(c, x, SystemAt(past, i), past[i].event) == Some(past[i].system);
    }
  }

  lemma StartStands(x: Format)
    ensures StandsFor(x, START, INIT)
  {
    EmptyBacks(FILES, x.json);
    var m := FileStore.Meaning(FileStore.INIT);
    assert m.store == map[] && m.calls == map[];
  }

  lemma EventFollows(c: Config, x: Format, sys: System, s: State, e: Event) returns (done: Option<Action>)
    requires ReadsBack(x) && StandsFor(x, sys, s) && Step(c, x, sys, e).Some?
    ensures Follows(c, x, Step(c, x, sys, e).value, s, done)
    ensures e.Section? ==> done.Some?
    ensures done.Some? ==> Accounts(sys, e, done.value)
  {
    hide StandsFor, Follows, ReadsBack;
    match e {
      case Section(a) =>
        SectionFollows(c, x, sys, s, a);
        done := Some(a);
      case Look(rid) =>
        LookFollows(c, x, sys, s, rid);
        done := Some(CheckBlob(rid, false));
      case Submit(rid, t) =>
        SubmitFollows(c, x, sys, s, rid, t);
        done := None;
      case SubmitDelete(t, path) =>
        SubmitDeleteFollows(c, x, sys, s, t, path);
        done := None;
      case File(a) => done := FileFollows(c, x, sys, s, a);
      case Resume(rid, now) => done := ResumeFollows(c, x, sys, s, rid, now);
      case Stop =>
        StopFollows(c, x, sys, s);
        done := Some(Restart);
    }
  }

  lemma ExtendRun(c: Config, run: Run, a: Action)
    requires IsRun(c, run) && Next(c, Last(run), a).Some?
    ensures IsRun(c, run + [Protocol.Event(a, Next(c, Last(run), a).value)])
  {
    hide Next;
    var longer := run + [Protocol.Event(a, Next(c, Last(run), a).value)];
    forall i | 0 <= i < |longer|
      ensures Next(c, At(longer, i), longer[i].action) == Some(longer[i].state)
    {
      assert At(longer, i) == At(run, i);
    }
  }

  /** One more event: the run stays or takes one more action. */
  lemma ExtendMirror(c: Config, x: Format, past: seq<Moment>, run: Run, at: seq<nat>, done: Option<Action>)
      returns (run': Run, at': seq<nat>)
    requires past != [] && Mirrors(c, x, past[..|past| - 1], run, at)
    requires Follows(c, x, past[|past| - 1].system, Last(run), done)
    requires past[|past| - 1].event.Section? ==> done.Some?
    requires done.Some? ==> Accounts(SystemAt(past, |past| - 1), past[|past| - 1].event, done.value)
    ensures Mirrors(c, x, past, run', at')
  {
    hide StandsFor, Next, IsRun;
    var n := |past| - 1;
    var front, e := past[..n], past[n].event;
    match done {
      case None => run' := run;
      case Some(a) =>
        ExtendRun(c, run, a);
        run' := run + [Protocol.Event(a, Next(c, Last(run), a).value)];
    }
    at' := at + [|run'|];
    forall i | 0 <= i <= |past|
      ensures at'[i] <= |run'| && StandsFor(x, SystemAt(past, i), At(run', at'[i]))
    {
      if i <= n {
        assert SystemAt(past, i) == SystemAt(front, i) && at'[i] == at[i];
        assert At(run', at[i]) == At(run, at[i]);
      }
    }
    forall i | 0 <= i < |past|
      ensures MovesOn(SystemAt(past, i), past[i].event, run', at'[i], at'[i + 1])
    {
      if i < n {
        assert past[i] == front[i] && SystemAt(past, i) == SystemAt(front, i);
        assert MovesOn(SystemAt(front, i), front[i].event, run, at[i], at[i + 1]);
      } else {
        assert at'[i] == |run| && at'[i + 1] == |run'|;
      }
    }
  }

  /** Every history of the server on files, with any number of requests and crashes, is a run of the
      protocol machine: after each event memory, counters and requests are those of the machine, and
      the machine's blobs and manifests are what the files under final names mean. */
  lemma {:induction false} EveryHistoryIsARun(c: Config, x: Format, past: seq<Moment>) returns (run: Run, at: seq<nat>)
    requires ReadsBack(x) && IsHistory(c, x, past)
    ensures Mirrors(c, x, past, run, at)
    decreases |past|
  {
    hide StandsFor, Step, ReadsBack, IsHistory, Follows, Mirrors, Accounts;
    if past == [] {
      run, at := [], [0];
      StartMirrors(c, x);
    } else {
      var n := |past| - 1;
      var front := past[..n];
      HistoryBefore(c, x, past);
      run, at := EveryHistoryIsARun(c, x, front);
      MirrorNow(c, x, front, run, at);
      var done := EventFollows(c, x, SystemAt(front, n), Last(run), past[n].event);
      run, at := ExtendMirror(c, x, past, run, at, done);
    }
  }

  /** The event at which the run takes its action `k`. */
  lemma {:induction false} TakenAt(past: seq<Moment>, run: Run, at: seq<nat>, k: nat, n: nat) returns (i: nat)
    requires |at| == |past| + 1 && at[0] == 0 && n <= |past| && k < at[n] <= |run|
    requires forall i :: 0 <= i <= |past| ==> at[i] <= |run|
    requires forall i :: 0 <= i < |past| ==> MovesOn(SystemAt(past, i), past[i].event, run, at[i], at[i + 1])
    ensures i < |past| && at[i] == k && at[i + 1] == k + 1
    decreases n
  {
    assert MovesOn(SystemAt(past, n - 1), past[n - 1].event, run, at[n - 1], at[n - 1 + 1]);
    if at[n - 1] <= k {
      i := n - 1;
    } else {
      i := TakenAt(past, run, at, k, n - 1);
    }
  }

  // ---- What that says of the files ----

  /** The text in the file of a manifest, if it exists and parses. */
  ghost function ManifestAt(x: Format, sys: System, n: ManifestName): Option<Manifest> {
    var store := FileStore.Meaning(sys.files).store;
    if ManifestFile(n) in store then x.parse(store[ManifestFile(n)]) else None
  }

  /** What a manifest's file holds is what the machine has under that name. */
  lemma ManifestAtIs(x: Format, sys: System, s: State, n: ManifestName)
    requires ReadsBack(x) && StandsFor(x, sys, s) && Escaped(n)
    ensures ManifestAt(x, sys, n) == if n in s.manifests then Some(s.manifests[n]) else None
    ensures n in s.manifests <==> ManifestFile(n) in FileStore.Meaning(sys.files).store
  {
    hide FileStore.Inv, FileStore.Meaning, Tracked, RestLoose, Escaped;
    assert n in s.manifests <==> FILES.manifest(n) in FileStore.Meaning(sys.files).store;
  }

  /** Whatever requests, file steps and crashes there were: a blob file hashes to its name, and a
      manifest file holds the text of a manifest of that name, accepted when its session started. */
  lemma FilesAreSafe(c: Config, x: Format, past: seq<Moment>, i: nat)
    requires ReadsBack(x) && IsHistory(c, x, past) && i <= |past|
    ensures var store := FileStore.Meaning(SystemAt(past, i).files).store;
            && (forall hex :: BlobPath(hex) in store ==> c.hash(store[BlobPath(hex)]) == hex)
            && (forall n :: Escaped(n) && ManifestFile(n) in store ==>
                  var m := x.parse(store[ManifestFile(n)]);
                  m.Some? && NameFor(m.value) == n && ValidName(m.value.namespace, m.value.key))
  {
    var run, at := EveryHistoryIsARun(c, x, past);
    var s := At(run, at[i]);
    assert StandsFor(x, SystemAt(past, i), s);
    hide IsRun, FileStore.Inv, FileStore.Meaning, Tracked, RestLoose, ValidName, NameOf;
    AlwaysSafe(c, run, at[i]);
    var store := FileStore.Meaning(SystemAt(past, i).files).store;
    forall hex | BlobPath(hex) in store
      ensures c.hash(store[BlobPath(hex)]) == hex
    {
      assert FILES.blob(hex) in store;
    }
    forall n | Escaped(n) && ManifestFile(n) in store
      ensures var m := x.parse(store[ManifestFile(n)]);
              m.Some? && NameFor(m.value) == n && ValidName(m.value.namespace, m.value.key)
    {
      assert FILES.manifest(n) in store;
      assert Published(c, s.history, n, s.manifests[n]);
      assert x.parse(x.json(s.manifests[n])) == Some(s.manifests[n]);
    }
  }
}
