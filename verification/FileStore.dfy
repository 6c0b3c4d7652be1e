/** The filesystem back end at the granularity of single file operations (ci-cache-backend-fs).
    Names point to inodes and inodes hold bytes, so a reader keeps the file it opened whatever
    happens to the name. Any number of operations interleave; each may fail or be cut off by a
    crash between any two of its steps. The store of final names is proved to refine an atomic
    map from path to bytes. Directory creation and disk-full conditions appear only as errors. */
module FileStore {
  import opened Prelude
  import opened Naming
  import opened Streams
  import opened AbstractStore

  type Tid = nat

  /** `keep`: an existing file is left alone, as `put_blob` does and `put_manifest` does not. */
  datatype Op =
    | Put(path: FilePath, stream: seq<Item>, keep: bool)
    | Get(path: FilePath)
    | Delete(path: FilePath)

  datatype Outcome = Stored(size: nat) | Found(data: Bytes) | NotFound | Removed | Failed

  datatype Task =
    | Invoked(op: Op)
    | Sizing(op: Op)                                            // the final file exists
    | Creating(op: Op)                                          // it does not, or is replaced
    | Filling(op: Op, uuid: string, ino: nat, rest: seq<Item>)  // temporary file open
    | Cleaning(op: Op, uuid: string)                            // rename failed
    | Reading(op: Op, ino: nat, got: nat)
    | Over(op: Op, outcome: Outcome)

  /** `uuids` are those drawn so far; `published` records every rename ever made (history only). */
  datatype State = State(
    names: map<FilePath, nat>,
    inodes: map<nat, Bytes>,
    tasks: map<Tid, Task>,
    uuids: set<string>,
    published: set<(FilePath, Bytes)>)

  const INIT: State := State(map[], map[], map[], {}, {})

  datatype Action =
    | Invoke(t: Tid, op: Op)
    | Look(t: Tid)                               // exists()
    | Measure(t: Tid)                            // metadata()
    | Create(t: Tid, uuid: string, ino: nat)     // File::create on the temporary name
    | Write(t: Tid, n: nat)                      // some bytes of the current chunk
    | NextChunk(t: Tid)
    | Rename(t: Tid)
    | RenameFails(t: Tid)
    | Clean(t: Tid)                              // the spawned remove_file
    | Open(t: Tid)
    | Read(t: Tid, n: nat)
    | ReadEnd(t: Tid)
    | Unlink(t: Tid)
    | Fail(t: Tid)                               // an I/O error, or a broken stream
    | Crash(t: Tid)

  function Temp(task: Task): FilePath
    requires task.Filling? || task.Cleaning?
  {
    TempFile(task.op.path, task.uuid)
  }

  /** Only a put that may keep what is there begins by looking. */
  function Begun(op: Op): Task {
    if op.Put? && !op.keep then Creating(op) else Invoked(op)
  }

  /** Steps that read files but change only their own task. */
  function Retasked(s: State, a: Action): Option<Task> {
    if a.Invoke? then
      if a.t !in s.tasks && IsFinal(a.op.path) then Some(Begun(a.op)) else None
    else if a.t !in s.tasks then None
    else
      var task, op := s.tasks[a.t], s.tasks[a.t].op;
      match a
      case Look(_) =>
        if !(task.Invoked? && op.Put?) then None
        else if op.path in s.names then Some(Sizing(op))
        else Some(Creating(op))
      case Measure(_) =>
        if !task.Sizing? then None
        else if op.path in s.names && s.names[op.path] in s.inodes then
          Some(Over(op, Stored(|s.inodes[s.names[op.path]]|)))
        else Some(Over(op, Failed))
      case NextChunk(_) =>
        if task.Filling? && task.rest != [] && task.rest[0] == Chunk([]) then
          Some(task.(rest := task.rest[1..]))
        else None
      case RenameFails(_) =>
        if task.Filling? && task.rest == [] then Some(Cleaning(op, task.uuid)) else None
      case Open(_) =>
        if !(task.Invoked? && op.Get?) then None
        else if op.path in s.names then Some(Reading(op, s.names[op.path], 0))
        else Some(Over(op, NotFound))
      case Read(_, n) =>
        if task.Reading? && task.ino in s.inodes && 0 < n <= |s.inodes[task.ino]| - task.got then
          Some(task.(got := task.got + n))
        else None
      case ReadEnd(_) =>
        if task.Reading? && task.ino in s.inodes && task.got == |s.inodes[task.ino]| then
          Some(Over(op, Found(s.inodes[task.ino][..task.got])))
        else None
      case Fail(_) =>
        if task.Over? || task.Cleaning? then None else Some(Over(op, Failed))
      case _ => None
  }

  predicate CanCreate(s: State, t: Tid, uuid: string, ino: nat) {
    t in s.tasks && s.tasks[t].Creating? && s.tasks[t].op.Put?
    && IsUuid(uuid) && uuid !in s.uuids && ino !in s.inodes
  }

  function DoCreate(s: State, t: Tid, uuid: string, ino: nat): State
    requires CanCreate(s, t, uuid, ino)
  {
    var op := s.tasks[t].op;
    s.(names := s.names[TempFile(op.path, uuid) := ino],
       inodes := s.inodes[ino := []],
       uuids := s.uuids + {uuid},
       tasks := s.tasks[t := Filling(op, uuid, ino, op.stream)])
  }

  predicate CanWrite(s: State, t: Tid, n: nat) {
    t in s.tasks && s.tasks[t].Filling? && s.tasks[t].ino in s.inodes
    && s.tasks[t].rest != [] && s.tasks[t].rest[0].Chunk? && 0 < n <= |s.tasks[t].rest[0].data|
  }

  /** A writer once `n` bytes of its current chunk are out. */
  function Advanced(task: Task, n: nat): Task
    requires task.Filling? && task.rest != [] && task.rest[0].Chunk? && n <= |task.rest[0].data|
  {
    task.(rest := [Chunk(task.rest[0].data[n..])] + task.rest[1..])
  }

  function DoWrite(s: State, t: Tid, n: nat): State
    requires CanWrite(s, t, n)
  {
    var task := s.tasks[t];
    s.(inodes := s.inodes[task.ino := s.inodes[task.ino] + task.rest[0].data[..n]],
       tasks := s.tasks[t := Advanced(task, n)])
  }

  predicate CanRename(s: State, t: Tid) {
    t in s.tasks && s.tasks[t].Filling? && s.tasks[t].rest == [] && s.tasks[t].ino in s.inodes
  }

  function DoRename(s: State, t: Tid): State
    requires CanRename(s, t)
  {
    var task := s.tasks[t];
    var bytes := s.inodes[task.ino];
    s.(names := (s.names - {Temp(task)})[task.op.path := task.ino],
       published := s.published + {(task.op.path, bytes)},
       tasks := s.tasks[t := Over(task.op, Stored(|bytes|))])
  }

  function DoRemove(s: State, t: Tid, path: FilePath, outcome: Outcome): State
    requires t in s.tasks
  {
    s.(names := s.names - {path}, tasks := s.tasks[t := Over(s.tasks[t].op, outcome)])
  }

  /** One step; `None` where the action is not possible. */
  function Next(s: State, a: Action): Option<State> {
    match a
    case Create(t, uuid, ino) => if CanCreate(s, t, uuid, ino) then Some(DoCreate(s, t, uuid, ino)) else None
    case Write(t, n) => if CanWrite(s, t, n) then Some(DoWrite(s, t, n)) else None
    case Rename(t) => if CanRename(s, t) then Some(DoRename(s, t)) else None
    case Clean(t) =>
      if t in s.tasks && s.tasks[t].Cleaning? then Some(DoRemove(s, t, Temp(s.tasks[t]), Failed)) else None
    case Unlink(t) =>
      if t in s.tasks && s.tasks[t].Invoked? && s.tasks[t].op.Delete? then
        Some(DoRemove(s, t, s.tasks[t].op.path, Removed))
      else None
    case Crash(t) => if t in s.tasks then Some(s.(tasks := s.tasks - {t})) else None
    case _ =>
      match Retasked(s, a)
      case None => None
      case Some(task) => Some(s.(tasks := s.tasks[a.t := task]))
  }

  // ---- What every step keeps ----

  ghost predicate DrawnTemp(p: FilePath, uuids: set<string>) {
    exists q: FilePath, u: string :: u in uuids && IsUuid(u) && p == TempFile(q, u)
  }

  predicate Tempful(task: Task) {
    task.Filling? || task.Cleaning?
  }

  ghost predicate NamesOk(s: State) {
    forall p :: p in s.names ==>
      && s.names[p] in s.inodes
      && (IsFinal(p) ==> (p, s.inodes[s.names[p]]) in s.published)
      && (!IsFinal(p) ==> DrawnTemp(p, s.uuids))
  }

  /** A temporary file belongs to one writer and holds what that writer has written so far. */
  ghost predicate FillingOk(s: State, task: Task)
    requires task.Filling?
  {
    && task.op.Put?
    && task.ino in s.inodes
    && Temp(task) in s.names && s.names[Temp(task)] == task.ino
    && (forall p :: p in s.names && p != Temp(task) ==> s.names[p] != task.ino)
    && s.inodes[task.ino] + Payload(task.rest) == Payload(task.op.stream)
    && (Whole(task.rest) ==> Whole(task.op.stream))
  }

  ghost predicate TaskOk(s: State, task: Task) {
    && IsFinal(task.op.path)
    && (Tempful(task) ==> IsUuid(task.uuid) && task.uuid in s.uuids)
    && (task.Filling? ==> FillingOk(s, task))
    && (task.Creating? || task.Sizing? ==> task.op.Put?)
    && ((task.Invoked? && task.op.Put?) || task.Sizing? ==> task.op.keep)
    && (task.Reading? ==>
          && task.op.Get? && task.ino in s.inodes && task.got <= |s.inodes[task.ino]|
          && (task.op.path, s.inodes[task.ino]) in s.published)
    && (task.Over? && task.outcome.Found? ==> (task.op.path, task.outcome.data) in s.published)
  }

  ghost predicate Apart(a: Task, b: Task) {
    && (Tempful(a) && Tempful(b) ==> a.uuid != b.uuid)
    && (a.Filling? && (b.Filling? || b.Reading?) ==> a.ino != b.ino)
  }

  ghost predicate Inv(s: State) {
    && NamesOk(s)
    && (forall t :: t in s.tasks ==> TaskOk(s, s.tasks[t]))
    && (forall t, u :: t in s.tasks && u in s.tasks && t != u ==> Apart(s.tasks[t], s.tasks[u]))
  }

  /** The task `t`, `Over` where there is none. */
  function Stand(s: State, t: Tid): Task {
    if t in s.tasks then s.tasks[t] else Over(Get(FilePath("", "")), Failed)
  }

  /** When an action is possible, written out. */
  predicate Possible(s: State, a: Action) {
    var task := Stand(s, a.t);
    match a
    case Invoke(t, op) => t !in s.tasks && IsFinal(op.path)
    case Look(_) => task.Invoked? && task.op.Put?
    case Measure(_) => task.Sizing?
    case Create(_, uuid, ino) => task.Creating? && IsUuid(uuid) && uuid !in s.uuids && ino !in s.inodes
    case Write(_, n) => task.Filling? && task.rest != [] && task.rest[0].Chunk? && 1 <= n <= |task.rest[0].data|
    case NextChunk(_) => task.Filling? && task.rest != [] && task.rest[0] == Chunk([])
    case Rename(_) => task.Filling? && task.rest == []
    case RenameFails(_) => task.Filling? && task.rest == []
    case Clean(_) => task.Cleaning?
    case Open(_) => task.Invoked? && task.op.Get?
    case Read(_, n) => task.Reading? && task.ino in s.inodes && 1 <= n <= |s.inodes[task.ino]| - task.got
    case ReadEnd(_) => task.Reading? && task.ino in s.inodes && task.got == |s.inodes[task.ino]|
    case Unlink(_) => task.Invoked? && task.op.Delete?
    case Fail(_) => !task.Over? && !task.Cleaning?
    case Crash(t) => t in s.tasks
  }

  lemma PossibleExactly(s: State, a: Action)
    requires Inv(s)
    ensures Next(s, a).Some? <==> Possible(s, a)
  {
    hide Inv, IsUuid, IsFinal, DoCreate, DoWrite, DoRename, DoRemove;
    if a.t in s.tasks {
      TaskKnown(s, a.t);
    }
  }

  /** An operation under way can always go on, unless its stream has broken, and can always fail. */
  lemma NeverStuck(s: State, t: Tid, uuid: string, ino: nat)
    requires Inv(s) && t in s.tasks && !s.tasks[t].Over? && IsUuid(uuid) && uuid !in s.uuids && ino !in s.inodes
    ensures var can := (a: Action) => Next(s, a).Some?;
            match s.tasks[t]
            case Invoked(op) => can(if op.Put? then Look(t) else if op.Get? then Open(t) else Unlink(t)) && can(Fail(t))
            case Sizing(_) => can(Measure(t)) && can(Fail(t))
            case Creating(_) => can(Create(t, uuid, ino)) && can(Fail(t))
            case Filling(_, _, _, rest) =>
              && can(Fail(t))
              && if rest == [] then can(Rename(t)) && can(RenameFails(t))
                 else if rest[0] == Chunk([]) then can(NextChunk(t))
                 else forall n :: rest[0].Chunk? && 1 <= n <= |rest[0].data| ==> can(Write(t, n))
            case Cleaning(_, _) => can(Clean(t))
            case Reading(_, file, got) =>
              && can(Fail(t)) && file in s.inodes && got <= |s.inodes[file]|
              && if got == |s.inodes[file]| then can(ReadEnd(t))
                 else forall n :: 1 <= n <= |s.inodes[file]| - got ==> can(Read(t, n))
  {
    hide Inv, IsUuid, DoCreate, DoWrite, DoRename, DoRemove;
    TaskKnown(s, t);
  }

  lemma TaskKnown(s: State, t: Tid)
    requires Inv(s) && t in s.tasks
    ensures var task := s.tasks[t];
            && (task.Sizing? || task.Creating? || task.Filling? ==> task.op.Put?)
            && (task.Filling? || task.Reading? ==> task.ino in s.inodes)
            && (task.Reading? ==> task.got <= |s.inodes[task.ino]|)
  {
    assert TaskOk(s, s.tasks[t]);
  }

  // ---- The atomic store that this one refines ----

  datatype Call = Pending(op: Op) | Decided(op: Op, outcome: Outcome)

  datatype Atomic = Atomic(store: map<FilePath, Bytes>, calls: map<Tid, Call>)

  /** Each call takes effect in one step: a put replaces the whole object or, where it keeps,
      finds one there; a get finds the object of that instant. A call may fail or vanish, and a
      get may still fail after it has found its object, while it reads. */
  ghost predicate AtomicStep(a: Atomic, t: Tid, b: Atomic) {
    if t !in a.calls then
      exists op :: b == a.(calls := a.calls[t := Pending(op)])
    else if t !in b.calls then
      b == a.(calls := a.calls - {t})
    else
      var op := a.calls[t].op;
      && b.calls == a.calls[t := b.calls[t]]
      && b.calls[t].Decided? && b.calls[t].op == op
      && match b.calls[t].outcome
         case Failed =>
           b.store == a.store && (a.calls[t].Pending? || (op.Get? && a.calls[t].outcome.Found?))
         case Stored(size) =>
           && a.calls[t].Pending? && op.Put?
           && (|| (op.keep && op.path in a.store && size == |a.store[op.path]| && b.store == a.store)
               || (Whole(op.stream) && size == |Payload(op.stream)|
                   && b.store == a.store[op.path := Payload(op.stream)]))
         case Found(data) =>
           a.calls[t].Pending? && op.Get? && op.path in a.store && data == a.store[op.path] && b.store == a.store
         case NotFound =>
           a.calls[t].Pending? && op.Get? && op.path !in a.store && b.store == a.store
         case Removed =>
           a.calls[t].Pending? && op.Delete? && b.store == a.store - {op.path}
  }

  function CallOf(s: State, task: Task): Call {
    match task
    case Over(op, outcome) => Decided(op, outcome)
    case Reading(op, ino, got) => if ino in s.inodes then Decided(op, Found(s.inodes[ino])) else Pending(op)
    case _ => Pending(task.op)
  }

  /** What the files mean: final names only; a read is decided when its file is open. */
  ghost function Meaning(s: State): Atomic {
    Atomic(map p | p in s.names && IsFinal(p) && s.names[p] in s.inodes :: s.inodes[s.names[p]],
           map t | t in s.tasks :: CallOf(s, s.tasks[t]))
  }

  // ---- Invariance ----

  lemma {:induction false} WholePayloadAppend(data: Bytes, n: nat, tail: seq<Item>)
    requires n <= |data|
    ensures data[..n] + Payload([Chunk(data[n..])] + tail) == Payload([Chunk(data)] + tail)
  {
    assert ([Chunk(data[n..])] + tail)[1..] == tail == ([Chunk(data)] + tail)[1..];
    assert data[..n] + data[n..] == data;
  }

  /** Steps that change one task and no file. */
  lemma RetaskInv(s: State, t: Tid, task: Task)
    requires Inv(s) && TaskOk(s, task)
    requires forall u :: u in s.tasks && u != t ==> Apart(task, s.tasks[u]) && Apart(s.tasks[u], task)
    ensures Inv(s.(tasks := s.tasks[t := task]))
  {}

  lemma FreshTemp(s: State, path: FilePath, uuid: string)
    requires Inv(s) && IsUuid(uuid) && uuid !in s.uuids
    ensures TempFile(path, uuid) !in s.names && !IsFinal(TempFile(path, uuid))
  {
    var temp := TempFile(path, uuid);
    TempNeverFinal(path, uuid);
    if temp in s.names {
      var q, u :| u in s.uuids && IsUuid(u) && temp == TempFile(q, u);
      TempNamesDistinct(path, uuid, q, u);
    }
  }

  lemma DrawnTempMonotone(p: FilePath, uuids: set<string>, uuid: string)
    requires DrawnTemp(p, uuids)
    ensures DrawnTemp(p, uuids + {uuid})
  {
    var q, u :| u in uuids && IsUuid(u) && p == TempFile(q, u);
    assert u in uuids + {uuid};
  }

  lemma CreateNames(s: State, t: Tid, uuid: string, ino: nat)
    requires Inv(s) && CanCreate(s, t, uuid, ino)
    ensures NamesOk(DoCreate(s, t, uuid, ino))
  {
    var s' := DoCreate(s, t, uuid, ino);
    var temp := TempFile(s.tasks[t].op.path, uuid);
    FreshTemp(s, s.tasks[t].op.path, uuid);
    assert DrawnTemp(temp, s'.uuids);
    forall p | p in s.names && !IsFinal(p)
      ensures DrawnTemp(p, s'.uuids)
    {
      DrawnTempMonotone(p, s.uuids, uuid);
    }
  }

  lemma CreateKeepsTask(s: State, t: Tid, uuid: string, ino: nat, u: Tid)
    requires Inv(s) && CanCreate(s, t, uuid, ino) && u in s.tasks
    ensures TaskOk(DoCreate(s, t, uuid, ino), DoCreate(s, t, uuid, ino).tasks[u])
    ensures u != t ==> Apart(DoCreate(s, t, uuid, ino).tasks[t], s.tasks[u])
    ensures u != t ==> Apart(s.tasks[u], DoCreate(s, t, uuid, ino).tasks[t])
  {
    FreshTemp(s, s.tasks[t].op.path, uuid);
    NamesUnshared(s, ino);
    assert TaskOk(s, s.tasks[u]);
  }

  lemma CreateInv(s: State, t: Tid, uuid: string, ino: nat)
    requires Inv(s) && CanCreate(s, t, uuid, ino)
    ensures Inv(DoCreate(s, t, uuid, ino))
  {
    CreateNames(s, t, uuid, ino);
    forall u | u in s.tasks
      ensures TaskOk(DoCreate(s, t, uuid, ino), DoCreate(s, t, uuid, ino).tasks[u])
      ensures u != t ==> Apart(DoCreate(s, t, uuid, ino).tasks[t], s.tasks[u])
      ensures u != t ==> Apart(s.tasks[u], DoCreate(s, t, uuid, ino).tasks[t])
    {
      CreateKeepsTask(s, t, uuid, ino, u);
    }
    hide TaskOk, Apart, NamesOk;
  }

  lemma WrittenPayload(before: Bytes, rest: seq<Item>, n: nat)
    requires rest != [] && rest[0].Chunk? && n <= |rest[0].data|
    ensures var rest' := [Chunk(rest[0].data[n..])] + rest[1..];
            && before + rest[0].data[..n] + Payload(rest') == before + Payload(rest)
            && (Whole(rest') ==> Whole(rest))
  {
    var data, tail := rest[0].data, rest[1..];
    var rest' := [Chunk(data[n..])] + tail;
    assert rest == [Chunk(data)] + tail;
    WholePayloadAppend(data, n, tail);
    assert before + data[..n] + Payload(rest') == before + (data[..n] + Payload(rest'));
    assert Whole(rest') ==> Whole(rest) by {
      assert forall i :: 1 <= i < |rest| ==> rest'[i] == rest[i];
    }
  }

  lemma AdvancedOk(s: State, t: Tid, n: nat)
    requires Inv(s) && CanWrite(s, t, n)
    ensures FillingOk(DoWrite(s, t, n), Advanced(s.tasks[t], n))
  {
    var task := s.tasks[t];
    assert TaskOk(s, task) && FillingOk(s, task);
    hide Payload, Whole, TaskOk, NamesOk, Apart, Inv;
    WrittenPayload(s.inodes[task.ino], task.rest, n);
  }

  lemma WriteKeepsTask(s: State, t: Tid, n: nat, u: Tid)
    requires Inv(s) && CanWrite(s, t, n) && u in s.tasks
    ensures TaskOk(DoWrite(s, t, n), DoWrite(s, t, n).tasks[u])
    ensures u != t ==> Apart(Advanced(s.tasks[t], n), s.tasks[u]) && Apart(s.tasks[u], Advanced(s.tasks[t], n))
  {
    assert TaskOk(s, s.tasks[u]);
    if u == t {
      AdvancedOk(s, t, n);
    } else {
      assert Apart(s.tasks[t], s.tasks[u]) && Apart(s.tasks[u], s.tasks[t]);
    }
  }

  lemma WriteNames(s: State, t: Tid, n: nat)
    requires Inv(s) && CanWrite(s, t, n)
    ensures NamesOk(DoWrite(s, t, n))
  {
    assert TaskOk(s, s.tasks[t]);
    TempNeverFinal(s.tasks[t].op.path, s.tasks[t].uuid);
  }

  lemma WriteInv(s: State, t: Tid, n: nat)
    requires Inv(s) && CanWrite(s, t, n)
    ensures Inv(DoWrite(s, t, n))
  {
    WriteNames(s, t, n);
    forall u | u in s.tasks
      ensures TaskOk(DoWrite(s, t, n), DoWrite(s, t, n).tasks[u])
      ensures u != t ==> Apart(Advanced(s.tasks[t], n), s.tasks[u]) && Apart(s.tasks[u], Advanced(s.tasks[t], n))
    {
      WriteKeepsTask(s, t, n, u);
    }
    hide TaskOk, Apart, NamesOk;
  }

  lemma RenameKeepsFilling(s: State, t: Tid, u: Tid)
    requires Inv(s) && CanRename(s, t) && u in s.tasks && u != t && s.tasks[u].Filling?
    ensures FillingOk(DoRename(s, t), s.tasks[u])
  {
    hide Inv, TaskOk, Payload, Whole, IsFinal, TempFile;
    TwoWriters(s, t, u);
  }

  lemma TwoWriters(s: State, t: Tid, u: Tid)
    requires Inv(s) && t in s.tasks && u in s.tasks && u != t && s.tasks[t].Filling? && s.tasks[u].Filling?
    ensures FillingOk(s, s.tasks[u]) && s.tasks[t].ino != s.tasks[u].ino
    ensures Temp(s.tasks[t]) != Temp(s.tasks[u]) && s.tasks[t].op.path != Temp(s.tasks[u])
  {
    hide FillingOk, IsFinal, TempFile;
    var a, b := s.tasks[t], s.tasks[u];
    assert TaskOk(s, a) && TaskOk(s, b) && Apart(a, b);
    OthersTempSurvives(s, t, u);
  }

  lemma RenameKeepsOther(s: State, t: Tid, u: Tid)
    requires Inv(s) && CanRename(s, t) && u in s.tasks && u != t
    ensures TaskOk(DoRename(s, t), s.tasks[u])
  {
    hide FillingOk, IsFinal, NamesOk;
    assert TaskOk(s, s.tasks[u]);
    if s.tasks[u].Filling? {
      RenameKeepsFilling(s, t, u);
    }
  }

  lemma RenameNames(s: State, t: Tid)
    requires Inv(s) && CanRename(s, t)
    ensures NamesOk(DoRename(s, t))
  {
    assert TaskOk(s, s.tasks[t]);
  }

  lemma RenameInv(s: State, t: Tid)
    requires Inv(s) && CanRename(s, t)
    ensures Inv(DoRename(s, t))
  {
    var s' := DoRename(s, t);
    RenameNames(s, t);
    assert TaskOk(s, s.tasks[t]);
    forall u | u in s'.tasks
      ensures TaskOk(s', s'.tasks[u])
    {
      if u != t {
        RenameKeepsOther(s, t, u);
      }
    }
  }

  lemma OthersTempSurvives(s: State, t: Tid, u: Tid)
    requires Inv(s) && t in s.tasks && u in s.tasks && t != u
    requires Tempful(s.tasks[t]) && Tempful(s.tasks[u])
    ensures Temp(s.tasks[t]) != Temp(s.tasks[u]) && !IsFinal(Temp(s.tasks[u]))
  {
    var a, b := s.tasks[t], s.tasks[u];
    assert Apart(a, b);
    TempNeverFinal(b.op.path, b.uuid);
    if Temp(a) == Temp(b) {
      TempNamesDistinct(a.op.path, a.uuid, b.op.path, b.uuid);
    }
  }

  /** Removing a final name, or a temporary name whose writer has stopped. */
  lemma RemoveInv(s: State, p: FilePath)
    requires Inv(s)
    requires forall u :: u in s.tasks && s.tasks[u].Filling? ==> Temp(s.tasks[u]) != p
    ensures Inv(s.(names := s.names - {p}))
  {
    var s' := s.(names := s.names - {p});
    forall u | u in s.tasks
      ensures TaskOk(s', s.tasks[u])
    {
      if s.tasks[u].Filling? {
        assert FillingOk(s, s.tasks[u]);
      }
    }
  }

  lemma CleanInv(s: State, t: Tid)
    requires Inv(s) && t in s.tasks && s.tasks[t].Cleaning?
    ensures Inv(DoRemove(s, t, Temp(s.tasks[t]), Failed))
  {
    forall u | u in s.tasks && s.tasks[u].Filling?
      ensures Temp(s.tasks[u]) != Temp(s.tasks[t])
    {
      OthersTempSurvives(s, t, u);
    }
    RemoveInv(s, Temp(s.tasks[t]));
    RetaskInv(s.(names := s.names - {Temp(s.tasks[t])}), t, Over(s.tasks[t].op, Failed));
  }

  lemma UnlinkInv(s: State, t: Tid)
    requires Inv(s) && t in s.tasks && s.tasks[t].Invoked? && s.tasks[t].op.Delete?
    ensures Inv(DoRemove(s, t, s.tasks[t].op.path, Removed))
  {
    var p := s.tasks[t].op.path;
    forall u | u in s.tasks && s.tasks[u].Filling?
      ensures Temp(s.tasks[u]) != p
    {
      TempNeverFinal(s.tasks[u].op.path, s.tasks[u].uuid);
    }
    RemoveInv(s, p);
    RetaskInv(s.(names := s.names - {p}), t, Over(s.tasks[t].op, Removed));
  }

  lemma NextChunkOk(s: State, task: Task)
    requires TaskOk(s, task) && task.Filling? && task.rest != [] && task.rest[0] == Chunk([])
    ensures TaskOk(s, task.(rest := task.rest[1..]))
  {
    var rest := task.rest[1..];
    assert Payload(task.rest) == [] + Payload(rest) == Payload(rest);
    assert Whole(rest) ==> Whole(task.rest) by {
      assert forall i :: 1 <= i < |task.rest| ==> task.rest[i] == rest[i - 1];
    }
    assert FillingOk(s, task.(rest := rest));
  }

  lemma RetaskedOk(s: State, a: Action)
    requires Inv(s) && Retasked(s, a).Some?
    ensures TaskOk(s, Retasked(s, a).value)
    ensures forall u :: u in s.tasks && u != a.t ==>
              Apart(Retasked(s, a).value, s.tasks[u]) && Apart(s.tasks[u], Retasked(s, a).value)
  {
    if a.t in s.tasks {
      assert TaskOk(s, s.tasks[a.t]);
      if a.NextChunk? {
        NextChunkOk(s, s.tasks[a.t]);
      } else if a.ReadEnd? {
        var c := s.inodes[s.tasks[a.t].ino];
        assert c[..|c|] == c;
      }
      forall u | u in s.tasks && u != a.t
        ensures Apart(Retasked(s, a).value, s.tasks[u]) && Apart(s.tasks[u], Retasked(s, a).value)
      {
        assert Apart(s.tasks[a.t], s.tasks[u]) && Apart(s.tasks[u], s.tasks[a.t]);
        if a.Open? && s.tasks[u].Filling? {
          TempNeverFinal(s.tasks[u].op.path, s.tasks[u].uuid);
          assert FillingOk(s, s.tasks[u]);
        }
      }
    }
  }

  lemma NextInv(s: State, a: Action)
    requires Inv(s) && Next(s, a).Some?
    ensures Inv(Next(s, a).value)
  {
    hide Inv, TaskOk, IsFinal, CanCreate, CanWrite, CanRename, DoCreate, DoWrite, DoRename, DoRemove, Retasked;
    match a {
      case Create(t, uuid, ino) => CreateInv(s, t, uuid, ino);
      case Write(t, n) => WriteInv(s, t, n);
      case Rename(t) => RenameInv(s, t);
      case Clean(t) => CleanInv(s, t);
      case Unlink(t) => UnlinkInv(s, t);
      case Crash(t) => CrashInv(s, t);
      case _ =>
        RetaskedOk(s, a);
        RetaskInv(s, a.t, Retasked(s, a).value);
    }
  }

  lemma CrashInv(s: State, t: Tid)
    requires Inv(s)
    ensures Inv(s.(tasks := s.tasks - {t}))
  {}

  // ---- Frozen files ----

  /** An inode that a published name points to, or that a reader has open. */
  ghost predicate Settled(s: State, ino: nat) {
    || (exists p :: p in s.names && IsFinal(p) && s.names[p] == ino)
    || (exists t :: t in s.tasks && s.tasks[t].Reading? && s.tasks[t].ino == ino)
  }

  /** No step changes a published file or one that is being read. */
  lemma SettledFrozen(s: State, a: Action, ino: nat)
    requires Inv(s) && Next(s, a).Some? && ino in s.inodes && Settled(s, ino)
    ensures ino in Next(s, a).value.inodes && Next(s, a).value.inodes[ino] == s.inodes[ino]
  {
    hide Inv, TaskOk, Settled;
    if a.Write? && CanWrite(s, a.t, a.n) {
      WriterUnsettled(s, a.t);
    }
  }

  lemma WriterUnsettled(s: State, t: Tid)
    requires Inv(s) && t in s.tasks && s.tasks[t].Filling?
    ensures !Settled(s, s.tasks[t].ino)
  {
    var task := s.tasks[t];
    assert TaskOk(s, task) && FillingOk(s, task);
    TempNeverFinal(task.op.path, task.uuid);
    forall u | u in s.tasks && s.tasks[u].Reading?
      ensures s.tasks[u].ino != task.ino
    {
      assert Apart(task, s.tasks[u]);
    }
  }

  // ---- Refinement ----

  lemma CallsRetask(s: State, s': State, t: Tid, task: Task)
    requires s'.inodes == s.inodes && s'.tasks == s.tasks[t := task]
    ensures Meaning(s').calls == Meaning(s).calls[t := CallOf(s, task)]
  {
    hide CallOf;
    SameFilesSameCalls(s, s');
  }

  lemma SameFilesSameCalls(s: State, s': State)
    requires s'.inodes == s.inodes
    ensures forall task :: CallOf(s', task) == CallOf(s, task)
  {}

  lemma RetaskMeaning(s: State, t: Tid, task: Task)
    ensures Meaning(s.(tasks := s.tasks[t := task]))
            == Meaning(s).(calls := Meaning(s).calls[t := CallOf(s, task)])
  {}

  lemma InvokeRefines(m: Atomic, t: Tid, op: Op)
    requires t !in m.calls
    ensures AtomicStep(m, t, m.(calls := m.calls[t := Pending(op)]))
  {}

  /** A call decided from the store as it stands, which stays as it is. */
  predicate DecidedBy(store: map<FilePath, Bytes>, was: Call, now: Call) {
    var op := was.op;
    || (now == Decided(op, Failed) && (was == Pending(op) || (op.Get? && was.outcome.Found?)))
    || (was == Pending(op) && op.Put? && op.keep && op.path in store
        && now == Decided(op, Stored(|store[op.path]|)))
    || (was == Pending(op) && op.Get? && op.path in store && now == Decided(op, Found(store[op.path])))
    || (was == Pending(op) && op.Get? && op.path !in store && now == Decided(op, NotFound))
  }

  lemma DecidingRefines(m: Atomic, t: Tid, now: Call)
    requires t in m.calls && DecidedBy(m.store, m.calls[t], now)
    ensures AtomicStep(m, t, m.(calls := m.calls[t := now]))
  {}

  /** A step of one task keeps its call, or decides it from the store as it stands. */
  lemma RetaskedDecides(s: State, a: Action)
    requires Inv(s) && Retasked(s, a).Some? && a.t in s.tasks
    ensures var was, now := CallOf(s, s.tasks[a.t]), CallOf(s, Retasked(s, a).value);
            now == was || DecidedBy(Meaning(s).store, was, now)
  {
    assert TaskOk(s, s.tasks[a.t]);
    if a.ReadEnd? {
      var c := s.inodes[s.tasks[a.t].ino];
      assert c[..|c|] == c;
    }
  }

  lemma RetaskedRefines(s: State, a: Action)
    requires Inv(s) && Retasked(s, a).Some?
    ensures var s' := s.(tasks := s.tasks[a.t := Retasked(s, a).value]);
            Meaning(s') == Meaning(s) || AtomicStep(Meaning(s), a.t, Meaning(s'))
  {
    var task', m := Retasked(s, a).value, Meaning(s);
    RetaskMeaning(s, a.t, task');
    if a.t !in s.tasks {
      InvokeRefines(m, a.t, a.op);
    } else {
      RetaskedDecides(s, a);
      hide Inv, Retasked, CallOf, DecidedBy, AtomicStep;
      if CallOf(s, task') == m.calls[a.t] {
        assert m.calls[a.t := m.calls[a.t]] == m.calls;
      } else {
        DecidingRefines(m, a.t, CallOf(s, task'));
      }
    }
  }

  lemma CreateKeepsStore(s: State, t: Tid, uuid: string, ino: nat)
    requires Inv(s) && CanCreate(s, t, uuid, ino)
    ensures Meaning(DoCreate(s, t, uuid, ino)).store == Meaning(s).store
  {
    TempNeverFinal(s.tasks[t].op.path, uuid);
    NamesUnshared(s, ino);
  }

  lemma CreateKeepsCall(s: State, t: Tid, uuid: string, ino: nat, u: Tid)
    requires Inv(s) && CanCreate(s, t, uuid, ino) && u in s.tasks
    ensures CallOf(DoCreate(s, t, uuid, ino), DoCreate(s, t, uuid, ino).tasks[u]) == CallOf(s, s.tasks[u])
  {
    NamesUnshared(s, ino);
    hide Inv, IsFinal, TempFile, IsUuid;
  }

  lemma CreateKeepsCalls(s: State, t: Tid, uuid: string, ino: nat)
    requires Inv(s) && CanCreate(s, t, uuid, ino)
    ensures Meaning(DoCreate(s, t, uuid, ino)).calls == Meaning(s).calls
  {
    forall u | u in s.tasks
      ensures CallOf(DoCreate(s, t, uuid, ino), DoCreate(s, t, uuid, ino).tasks[u]) == CallOf(s, s.tasks[u])
    {
      CreateKeepsCall(s, t, uuid, ino, u);
    }
    hide Inv, CallOf;
  }

  lemma CreateMeansNothing(s: State, t: Tid, uuid: string, ino: nat)
    requires Inv(s) && CanCreate(s, t, uuid, ino)
    ensures Meaning(DoCreate(s, t, uuid, ino)) == Meaning(s)
  {
    CreateKeepsStore(s, t, uuid, ino);
    CreateKeepsCalls(s, t, uuid, ino);
    hide Inv, Meaning, CanCreate, DoCreate;
  }

  lemma RemoveMeaning(s: State, t: Tid, path: FilePath, outcome: Outcome)
    requires t in s.tasks
    ensures var m := Meaning(s);
            Meaning(DoRemove(s, t, path, outcome))
            == Atomic(m.store - {path}, m.calls[t := Decided(s.tasks[t].op, outcome)])
  {
    assert Meaning(DoRemove(s, t, path, outcome)).store == Meaning(s).store - {path};
    hide Meaning;
    CallsRetask(s, DoRemove(s, t, path, outcome), t, Over(s.tasks[t].op, outcome));
  }

  lemma CleanedName(s: State, t: Tid)
    requires Inv(s) && t in s.tasks && s.tasks[t].Cleaning?
    ensures Meaning(s).store - {Temp(s.tasks[t])} == Meaning(s).store
  {
    hide IsFinal;
    assert TaskOk(s, s.tasks[t]);
    TempNeverFinal(s.tasks[t].op.path, s.tasks[t].uuid);
  }

  lemma CleanRefines(s: State, t: Tid)
    requires Inv(s) && t in s.tasks && s.tasks[t].Cleaning?
    ensures AtomicStep(Meaning(s), t, Meaning(DoRemove(s, t, Temp(s.tasks[t]), Failed)))
  {
    CleanedName(s, t);
    RemoveMeaning(s, t, Temp(s.tasks[t]), Failed);
    CallPresent(s, t);
    hide Meaning, Inv, DoRemove, Temp;
  }

  lemma CallPresent(s: State, t: Tid)
    requires t in s.tasks
    ensures t in Meaning(s).calls && Meaning(s).calls[t].op == s.tasks[t].op
  {}

  lemma UnlinkRefines(s: State, t: Tid)
    requires Inv(s) && t in s.tasks && s.tasks[t].Invoked? && s.tasks[t].op.Delete?
    ensures AtomicStep(Meaning(s), t, Meaning(DoRemove(s, t, s.tasks[t].op.path, Removed)))
  {
    RemoveMeaning(s, t, s.tasks[t].op.path, Removed);
  }

  lemma CrashRefines(s: State, t: Tid)
    requires t in s.tasks
    ensures AtomicStep(Meaning(s), t, Meaning(s.(tasks := s.tasks - {t})))
  {
    var m, m' := Meaning(s), Meaning(s.(tasks := s.tasks - {t}));
    assert m' == m.(calls := m.calls - {t});
  }

  /** Every file step either means nothing or is one atomic step of the same call. */
  lemma NextRefines(s: State, a: Action)
    requires Inv(s) && Next(s, a).Some?
    ensures var s' := Next(s, a).value;
            Meaning(s') == Meaning(s) || AtomicStep(Meaning(s), a.t, Meaning(s'))
  {
    match a {
      case Create(t, uuid, ino) => CreateMeansNothing(s, t, uuid, ino);
      case Write(t, n) => WriteMeansNothing(s, t, n);
      case Rename(t) => RenameIsPut(s, t);
      case Clean(t) => CleanRefines(s, t);
      case Unlink(t) => UnlinkRefines(s, t);
      case Crash(t) => CrashRefines(s, t);
      case _ => RetaskedRefines(s, a);
    }
  }

  lemma NamesUnshared(s: State, ino: nat)
    requires Inv(s) && ino !in s.inodes
    ensures forall p :: p in s.names ==> s.names[p] != ino
    ensures forall t :: t in s.tasks && s.tasks[t].Reading? ==> s.tasks[t].ino != ino
  {
    forall t | t in s.tasks && s.tasks[t].Reading?
      ensures s.tasks[t].ino != ino
    {
      assert TaskOk(s, s.tasks[t]);
    }
  }

  lemma WriteKeepsStore(s: State, t: Tid, n: nat)
    requires Inv(s) && CanWrite(s, t, n)
    ensures Meaning(DoWrite(s, t, n)).store == Meaning(s).store
  {
    hide Payload, Whole, DrawnTemp, Apart, IsUuid;
    var task := s.tasks[t];
    assert TaskOk(s, task) && FillingOk(s, task);
    TempNeverFinal(task.op.path, task.uuid);
  }

  lemma WriteKeepsTasks(s: State, t: Tid, n: nat)
    requires CanWrite(s, t, n)
    ensures DoWrite(s, t, n).tasks.Keys == s.tasks.Keys
  {}

  lemma WriteKeepsCall(s: State, t: Tid, n: nat, u: Tid)
    requires Inv(s) && CanWrite(s, t, n) && u in s.tasks
    ensures CallOf(DoWrite(s, t, n), DoWrite(s, t, n).tasks[u]) == CallOf(s, s.tasks[u])
  {
    if u != t {
      assert Apart(s.tasks[t], s.tasks[u]) && TaskOk(s, s.tasks[u]);
    }
    hide Inv, TaskOk, Payload, Whole;
  }

  lemma WriteKeepsCalls(s: State, t: Tid, n: nat)
    requires Inv(s) && CanWrite(s, t, n)
    ensures Meaning(DoWrite(s, t, n)).calls == Meaning(s).calls
  {
    var s' := DoWrite(s, t, n);
    forall u | u in s.tasks
      ensures CallOf(s', s'.tasks[u]) == CallOf(s, s.tasks[u])
    {
      WriteKeepsCall(s, t, n, u);
    }
    hide Inv, DoWrite, CanWrite, CallOf;
    WriteKeepsTasks(s, t, n);
  }

  lemma WriteMeansNothing(s: State, t: Tid, n: nat)
    requires Inv(s) && CanWrite(s, t, n)
    ensures Meaning(DoWrite(s, t, n)) == Meaning(s)
  {
    WriteKeepsStore(s, t, n);
    WriteKeepsCalls(s, t, n);
  }

  lemma RenameBytes(s: State, t: Tid)
    requires Inv(s) && CanRename(s, t)
    ensures var task := s.tasks[t];
            task.op.Put? && Whole(task.op.stream) && s.inodes[task.ino] == Payload(task.op.stream)
  {
    var task := s.tasks[t];
    assert TaskOk(s, task) && FillingOk(s, task);
    assert s.inodes[task.ino] + [] == s.inodes[task.ino];
  }

  lemma RenamedNames(s: State, t: Tid)
    requires Inv(s) && CanRename(s, t)
    ensures IsFinal(s.tasks[t].op.path) && !IsFinal(Temp(s.tasks[t]))
  {
    hide IsFinal, Payload, Whole;
    assert TaskOk(s, s.tasks[t]);
    TempNeverFinal(s.tasks[t].op.path, s.tasks[t].uuid);
  }

  lemma RenameStore(s: State, t: Tid)
    requires Inv(s) && CanRename(s, t)
    ensures Meaning(DoRename(s, t)).store
            == Meaning(s).store[s.tasks[t].op.path := s.inodes[s.tasks[t].ino]]
  {
    hide Inv, IsFinal, Temp;
    RenamedNames(s, t);
  }

  lemma RenameMeaning(s: State, t: Tid)
    requires Inv(s) && CanRename(s, t)
    ensures var task := s.tasks[t];
            var bytes := s.inodes[task.ino];
            && bytes == Payload(task.op.stream) && task.op.Put? && Whole(task.op.stream)
            && Meaning(DoRename(s, t)).store == Meaning(s).store[task.op.path := bytes]
            && Meaning(DoRename(s, t)).calls == Meaning(s).calls[t := Decided(task.op, Stored(|bytes|))]
  {
    RenameBytes(s, t);
    RenameStore(s, t);
    hide Inv, TaskOk, Payload, Whole, Meaning;
    CallsRetask(s, DoRename(s, t), t, DoRename(s, t).tasks[t]);
  }

  lemma RenameIsPut(s: State, t: Tid)
    requires Inv(s) && CanRename(s, t)
    ensures AtomicStep(Meaning(s), t, Meaning(DoRename(s, t)))
  {
    hide DoRename, Payload, Inv, TaskOk;
    RenameMeaning(s, t);
  }

  // ---- Runs ----

  ghost predicate Steps(s: State, s': State) {
    exists a: Action :: Next(s, a) == Some(s')
  }

  ghost predicate IsRun(run: seq<State>) {
    && run != [] && run[0] == INIT
    && forall i :: 0 <= i < |run| - 1 ==> Steps(run[i], run[i + 1])
  }

  lemma {:induction false} RunInv(run: seq<State>, i: nat)
    requires IsRun(run) && i < |run|
    ensures Inv(run[i])
  {
    if i > 0 {
      RunInv(run, i - 1);
      assert Steps(run[i - 1], run[i - 1 + 1]);
      var a :| Next(run[i - 1], a) == Some(run[i]);
      NextInv(run[i - 1], a);
    }
  }

  ghost predicate AtomicStepOrNone(a: Atomic, b: Atomic) {
    a == b || exists t :: AtomicStep(a, t, b)
  }

  /** Every run of file steps is, step by step, a run of the atomic store from the empty one. */
  lemma RunRefines(run: seq<State>)
    requires IsRun(run)
    ensures Meaning(run[0]) == Atomic(map[], map[])
    ensures forall i :: 0 <= i < |run| - 1 ==> AtomicStepOrNone(Meaning(run[i]), Meaning(run[i + 1]))
  {
    forall i | 0 <= i < |run| - 1
      ensures AtomicStepOrNone(Meaning(run[i]), Meaning(run[i + 1]))
    {
      RunInv(run, i);
      assert Steps(run[i], run[i + 1]);
      var a :| Next(run[i], a) == Some(run[i + 1]);
      NextRefines(run[i], a);
    }
  }

  /** Somewhere in the run a put of exactly `data` to `path` was written in full and renamed. */
  ghost predicate PutIn(run: seq<State>, path: FilePath, data: Bytes) {
    exists i, t :: RenamedAt(run, i, t, path, data)
  }

  /** The step after state `i` is that rename, by task `t`. */
  ghost predicate RenamedAt(run: seq<State>, i: int, t: Tid, path: FilePath, data: Bytes) {
    && 0 <= i < |run| - 1
    && CanRename(run[i], t) && run[i + 1] == DoRename(run[i], t)
    && PutsWhole(run[i].tasks[t].op, path, data)
  }

  ghost predicate PutsWhole(op: Op, path: FilePath, data: Bytes) {
    op.Put? && op.path == path && Whole(op.stream) && Payload(op.stream) == data
  }

  lemma {:induction false} PublishedWasPut(run: seq<State>, i: nat, path: FilePath, data: Bytes)
    requires IsRun(run) && i < |run| && (path, data) in run[i].published
    ensures PutIn(run, path, data)
  {
    hide Inv, PutsWhole, DoRename, CanRename, Next, RenamedAt;
    if i > 0 {
      var s := run[i - 1];
      if (path, data) in s.published {
        PublishedWasPut(run, i - 1, path, data);
      } else {
        RunInv(run, i - 1);
        assert Steps(run[i - 1], run[i - 1 + 1]);
        var a :| Next(s, a) == Some(run[i]);
        OnlyRenamePublishes(s, a, path, data);
        RenamedHere(run, i, a, path, data);
      }
    }
  }

  lemma RenamedHere(run: seq<State>, i: nat, a: Action, path: FilePath, data: Bytes)
    requires 0 < i < |run| && Next(run[i - 1], a) == Some(run[i]) && CanRename(run[i - 1], a.t)
    requires run[i] == DoRename(run[i - 1], a.t) && PutsWhole(run[i - 1].tasks[a.t].op, path, data)
    ensures RenamedAt(run, i - 1, a.t, path, data)
  {
    hide PutsWhole, Next, DoRename;
  }

  lemma OnlyRenamePublishes(s: State, a: Action, path: FilePath, data: Bytes)
    requires Inv(s) && Next(s, a).Some? && (path, data) !in s.published
    requires (path, data) in Next(s, a).value.published
    ensures a.Rename? && CanRename(s, a.t) && PutsWhole(s.tasks[a.t].op, path, data)
    ensures Next(s, a).value == DoRename(s, a.t)
  {
    hide Inv, TaskOk, Payload, Whole;
    RenameBytes(s, a.t);
  }

  /** A read that completes returns the whole payload of one put to the same path, whatever
      other writers, deleters and crashes did while it was reading. */
  lemma ReadsOneWholePut(run: seq<State>, i: nat, t: Tid)
    requires IsRun(run) && i < |run| && t in run[i].tasks
    requires run[i].tasks[t].Over? && run[i].tasks[t].outcome.Found?
    ensures PutIn(run, run[i].tasks[t].op.path, run[i].tasks[t].outcome.data)
  {
    RunInv(run, i);
    assert TaskOk(run[i], run[i].tasks[t]);
    PublishedWasPut(run, i, run[i].tasks[t].op.path, run[i].tasks[t].outcome.data);
  }

  /** A file under a final name is complete: the whole payload of one put to that name. */
  lemma FinalFilesComplete(run: seq<State>, i: nat, path: FilePath)
    requires IsRun(run) && i < |run| && IsFinal(path) && path in run[i].names
    ensures run[i].names[path] in run[i].inodes
    ensures PutIn(run, path, run[i].inodes[run[i].names[path]])
  {
    RunInv(run, i);
    PublishedWasPut(run, i, path, run[i].inodes[run[i].names[path]]);
  }

  // ---- Content addressing ----

  /** Callers put nothing under a digest but bytes that hash to it, as `save_blob` makes sure. */
  ghost predicate Verified(hash: Bytes -> string, run: seq<State>) {
    forall i, t, hex, data ::
      0 <= i < |run| && t in run[i].tasks && PutsWhole(run[i].tasks[t].op, BlobPath(hex), data) ==> hash(data) == hex
  }

  predicate HasRead(task: Task, path: FilePath) {
    task.Over? && task.outcome.Found? && task.op.path == path
  }

  /** However writers, chunks, broken streams and crashes interleave: a blob file is complete and
      hashes to its name, and so does whatever a reader of it returns. */
  lemma BlobFilesHashToName(hash: Bytes -> string, run: seq<State>, i: nat, hex: string)
    requires IsRun(run) && Verified(hash, run) && i < |run| && IsDigestHex(hex)
    ensures BlobPath(hex) in run[i].names ==>
              run[i].names[BlobPath(hex)] in run[i].inodes && hash(run[i].inodes[run[i].names[BlobPath(hex)]]) == hex
    ensures forall t :: t in run[i].tasks && HasRead(run[i].tasks[t], BlobPath(hex)) ==>
              hash(run[i].tasks[t].outcome.data) == hex
  {
    hide IsRun, PutsWhole;
    if BlobPath(hex) in run[i].names {
      FinalFilesComplete(run, i, BlobPath(hex));
    }
    forall t | t in run[i].tasks && HasRead(run[i].tasks[t], BlobPath(hex))
      ensures hash(run[i].tasks[t].outcome.data) == hex
    {
      ReadsOneWholePut(run, i, t);
    }
  }

  // ---- Independence of names ----

  lemma OthersUntouched(a: Atomic, t: Tid, b: Atomic, q: FilePath)
    requires AtomicStep(a, t, b) && (t in b.calls ==> b.calls[t].op.path != q)
    ensures q in a.store <==> q in b.store
    ensures q in a.store ==> b.store[q] == a.store[q]
  {}

  predicate SameObject(a: Atomic, b: Atomic, q: FilePath) {
    (q in a.store <==> q in b.store) && (q in a.store ==> b.store[q] == a.store[q])
  }

  /** The call that steps, if it stays, is for the manifest of `ns` and `key`. */
  predicate StepFor(b: Atomic, t: Tid, ns: string, key: string) {
    ManifestPath(ns, key).Some? && (t in b.calls ==> b.calls[t].op.path == ManifestPath(ns, key).value)
  }

  /** No step of a request for any other accepted name changes what this manifest's file holds. */
  ghost predicate LeftAlone(ns: string, key: string)
    requires ManifestPath(ns, key).Some?
  {
    forall a, t, b, ns', key' ::
      StepFor(b, t, ns', key') && (ns', key') != (ns, key) && AtomicStep(a, t, b) ==>
        SameObject(a, b, ManifestPath(ns, key).value)
  }

  /** The exact condition, which a caller can check of its own names: requests for other names
      leave a manifest alone if and only if its namespace and key pass `OwnName`. */
  lemma ManifestsIndependent(ns: string, key: string)
    requires ManifestPath(ns, key).Some?
    ensures LeftAlone(ns, key) <==> OwnName(ns, key)
  {
    hide AtomicStep, ManifestPath, OwnName;
    ManifestPathsDistinct(ns, key);
    var q := ManifestPath(ns, key).value;
    if OwnName(ns, key) {
      forall a, t, b, ns', key'
        | StepFor(b, t, ns', key') && (ns', key') != (ns, key) && AtomicStep(a, t, b)
        ensures SameObject(a, b, q)
      {
        assert ManifestPath(ns', key') != ManifestPath(ns, key);
        OthersUntouched(a, t, b, q);
      }
    } else {
      var ns', key' :| ManifestPath(ns', key') == ManifestPath(ns, key) && !(ns' == ns && key' == key);
      var a, b := OnePut(q);
      assert StepFor(b, 0, ns', key') && (ns', key') != (ns, key) && !SameObject(a, b, q);
    }
  }

  /** One put into the empty store. */
  lemma OnePut(q: FilePath) returns (a: Atomic, b: Atomic)
    ensures AtomicStep(a, 0, b) && !SameObject(a, b, q) && 0 in b.calls && b.calls[0].op.path == q
  {
    var op := Put(q, [], false);
    a := Atomic(map[], map[0 := Pending(op)]);
    b := Atomic(map[q := []], map[0 := Decided(op, Stored(0))]);
    assert b.calls == a.calls[0 := b.calls[0]];
    assert b.store == a.store[q := Payload([])];
  }

  /** Two unambiguous names leave each other's files alone. */
  lemma UnambiguousIndependent(a: Atomic, t: Tid, b: Atomic, ns: string, key: string, ns': string, key': string)
    requires Unambiguous(ns) && Unambiguous(key) && Unambiguous(ns') && Unambiguous(key')
    requires ManifestPath(ns', key').Some? && (ns, key) != (ns', key')
    requires AtomicStep(a, t, b) && StepFor(b, t, ns, key)
    ensures SameObject(a, b, ManifestPath(ns', key').value)
  {
    hide AtomicStep, Unambiguous, ManifestPath;
    if ManifestPath(ns, key) == ManifestPath(ns', key') {
      UnambiguousPathsDistinct(ns, key, ns', key');
    }
    OthersUntouched(a, t, b, ManifestPath(ns', key').value);
  }

  // ---- The operations that any back end offers ----

  function AnswerOf(outcome: Outcome): Answer {
    match outcome
    case Found(data) => Present(data)
    case NotFound => Absent
    case _ => Failing
  }

  /** Every decided call of the file store is the abstract operation of its kind: blobs are kept,
      manifests replaced. */
  lemma FileOperations(a: Atomic, t: Tid, b: Atomic)
    requires AtomicStep(a, t, b) && t in a.calls && t in b.calls
    ensures b.calls[t].Decided?
    ensures var op, outcome := b.calls[t].op, b.calls[t].outcome;
            match op
            case Put(path, stream, keep) =>
              if keep then AbstractPut(a.store, path, stream, outcome.Stored?, b.store)
              else ReplacingPut(a.store, path, stream, outcome.Stored?, b.store)
            case Get(path) => b.store == a.store && AbstractGet(a.store, path, AnswerOf(outcome))
            case Delete(path) => AbstractDelete(a.store, path, outcome.Removed?, b.store)
  {}

  /** What is under a final name is what the store holds there, so looking is reading the store. */
  lemma PresentMeans(s: State, path: FilePath)
    requires Inv(s) && IsFinal(path)
    ensures path in s.names <==> path in Meaning(s).store
  {
    hide TaskOk, IsFinal;
  }
}
