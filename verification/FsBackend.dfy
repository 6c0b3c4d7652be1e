/** The filesystem back end as code over shared files (ci-cache-backend-fs, backend.rs). Between
    two file operations of a method the other operations may take any steps (`Await`); each method
    is proved to take only steps of the file-store machine, so all its theorems apply. */
module FsBackend {
  import opened Prelude
  import opened Naming
  import opened Streams
  import opened AbstractStore
  import opened FileStore

  datatype IoResult<T> = Done(value: T) | Failure

  function TaskIn(s: State, t: Tid): Option<Task> {
    if t in s.tasks then Some(s.tasks[t]) else None
  }

  /** From position `i` on, nobody else touches what `t` does. */
  ghost predicate Undisturbed(run: seq<State>, i: nat, t: Tid) {
    forall j :: i <= j < |run| ==> TaskIn(run[j], t) == TaskIn(run[i], t)
  }

  /** At some point from `i` on, `path` held a whole object of `size` bytes. */
  ghost predicate HeldDuring(run: seq<State>, i: nat, path: FilePath, size: nat) {
    exists j :: i <= j < |run| && Holds(Meaning(run[j]).store, path, size)
  }

  /** At some point from `i` on, `path` held nothing. */
  ghost predicate AbsentDuring(run: seq<State>, i: nat, path: FilePath) {
    exists j :: i <= j < |run| && path !in Meaning(run[j]).store
  }

  predicate Holds(store: map<FilePath, Bytes>, path: FilePath, size: nat) {
    path in store && |store[path]| == size
  }

  /** The put is over with this result, except that a failed rename of a kept put leaves its
      temporary file to be removed by a spawned cleaner. */
  predicate PutEnded(task: Option<Task>, op: Op, r: IoResult<nat>) {
    && task.Some? && task.value.op == op
    && match r
       case Done(size) => task.value == Over(op, FileStore.Stored(size))
       case Failure => task.value == Over(op, Failed) || (op.Put? && op.keep && task.value.Cleaning?)
  }

  class Backend {
    var names: map<FilePath, nat>
    var inodes: map<nat, Bytes>
    var nextInode: nat
    var uuids: set<string>
    ghost var tasks: map<Tid, Task>
    ghost var published: set<(FilePath, Bytes)>
    ghost var run: seq<State>
    ghost var failed: set<Tid>              // operations that the system has given an error

    ghost function View(): State
      reads this
    {
      State(names, inodes, tasks, uuids, published)
    }

    /** The files are where some run of the file-store machine has led. */
    ghost predicate Valid()
      reads this
    {
      && run != []
      && IsRun(run)
      && run[|run| - 1] == View()
      && forall i :: i in inodes ==> i < nextInode
    }

    constructor ()
      ensures Valid() && run == [INIT]
    {
      names, inodes, nextInode, uuids := map[], map[], 0, {};
      tasks, published, failed := map[], {}, {};
      run := [INIT];
    }

    /** The fields have just been changed by action `a`. */
    ghost method Took(a: Action)
      requires IsRun(run) && Next(run[|run| - 1], a) == Some(View())
      requires forall i :: i in inodes ==> i < nextInode
      modifies this`run
      ensures Valid() && run == old(run) + [View()]
    {
      var last := run[|run| - 1];
      assert Steps(last, View());
      run := run + [View()];
    }

    /** Any number of steps of other operations. */
    method Await(ghost me: Tid)
      requires Valid()
      modifies this
      ensures Valid() && old(run) <= run
      ensures TaskIn(View(), me) == old(TaskIn(View(), me)) && (me in failed <==> me in old(failed))
      ensures Undisturbed(run, |old(run)| - 1, me)
    {}

    /** What has no file now has no object. */
    ghost method NoFileNoObject(path: FilePath)
      ensures path !in names ==> path !in Meaning(View()).store
    {}

    // ---- One file operation each: one step of the machine ----

    ghost method Start(op: Op, me: Tid)
      requires Valid() && me !in tasks && IsFinal(op.path)
      modifies this`tasks, this`run
      ensures Valid() && run == old(run) + [View()]
      ensures TaskIn(View(), me) == Some(Begun(op))
    {
      tasks := tasks[me := Begun(op)];
      Took(Invoke(me, op));
    }

    /** An I/O error. */
    ghost method Break(me: Tid)
      requires Valid() && me in tasks && !tasks[me].Over? && !tasks[me].Cleaning?
      modifies this`tasks, this`run, this`failed
      ensures Valid() && run == old(run) + [View()] && me in failed
      ensures TaskIn(View(), me) == Some(Over(old(tasks)[me].op, Failed))
    {
      failed := failed + {me};
      GiveUp(me);
    }

    /** The operation ends without success. */
    ghost method GiveUp(me: Tid)
      requires Valid() && me in tasks && !tasks[me].Over? && !tasks[me].Cleaning?
      modifies this`tasks, this`run
      ensures Valid() && run == old(run) + [View()]
      ensures TaskIn(View(), me) == Some(Over(old(tasks)[me].op, Failed))
    {
      tasks := tasks[me := Over(tasks[me].op, Failed)];
      Took(Fail(me));
    }

    method Exists(path: FilePath, ghost me: Tid) returns (present: bool)
      requires Valid() && me in tasks && tasks[me].Invoked?
      requires tasks[me].op.Put? && tasks[me].op.path == path
      modifies this`tasks, this`run
      ensures Valid() && run == old(run) + [View()]
      ensures var op := old(tasks)[me].op;
              TaskIn(View(), me) == Some(if present then Sizing(op) else Creating(op))
    {
      present := path in names;
      ghost var op := tasks[me].op;
      tasks := tasks[me := if present then Sizing(op) else Creating(op)];
      Took(Look(me));
    }

    method FileLength(path: FilePath, ghost me: Tid) returns (size: Option<nat>)
      requires Valid() && me in tasks && tasks[me].Sizing? && tasks[me].op.path == path
      modifies this`tasks, this`run, this`failed
      ensures Valid() && run == old(run) + [View()]
      ensures TaskIn(View(), me)
              == Some(Over(old(tasks)[me].op, if size.Some? then FileStore.Stored(size.value) else Failed))
      ensures size.Some? ==> Holds(Meaning(View()).store, path, size.value)
      ensures size.None? ==> me in failed || path !in Meaning(View()).store
    {
      hide IsRun, Meaning, IsFinal;
      var fails: bool := *;
      if fails {
        Break(me);
        return None;
      }
      Lengths(run, |run| - 1, me);
      size := if path in names && names[path] in inodes then Some(|inodes[names[path]]|) else None;
      tasks := tasks[me := Over(tasks[me].op, if size.Some? then FileStore.Stored(size.value) else Failed)];
      Took(Measure(me));
      NoFileNoObject(path);
    }

    /** `File::create` under a new temporary name. A UUID that clashes with an earlier one, which
        does not happen, counts as an error here. */
    method CreateTemp(path: FilePath, ghost me: Tid) returns (uuid: string, file: nat, ok: bool)
      requires Valid() && me in tasks && tasks[me].Creating? && tasks[me].op.Put? && tasks[me].op.path == path
      modifies this
      ensures Valid() && run == old(run) + [View()]
      ensures var op := old(tasks)[me].op;
              TaskIn(View(), me) == Some(if ok then Filling(op, uuid, file, op.stream) else Over(op, Failed))
      ensures !ok ==> me in failed
    {
      uuid, ok := *, *;
      file := nextInode;
      ok := ok && IsUuid(uuid) && uuid !in uuids;
      if ok {
        names, inodes, nextInode := names[TempFile(path, uuid) := file], inodes[file := []], nextInode + 1;
        uuids := uuids + {uuid};
        tasks := tasks[me := Filling(tasks[me].op, uuid, file, tasks[me].op.stream)];
        Took(Create(me, uuid, file));
      } else {
        Break(me);
      }
    }

    /** One `write`: the kernel takes some bytes of the chunk, or fails. */
    method WriteSome(file: nat, rest: ByteStream, ghost me: Tid) returns (n: nat)
      requires Valid() && me in tasks && tasks[me].Filling? && tasks[me].ino == file && tasks[me].rest == rest
      requires rest != [] && rest[0].Chunk? && rest[0].data != []
      modifies this
      ensures Valid() && run == old(run) + [View()] && n <= |rest[0].data|
      ensures TaskIn(View(), me)
              == Some(if n > 0 then Advanced(old(tasks)[me], n) else Over(old(tasks)[me].op, Failed))
      ensures n == 0 ==> me in failed
    {
      hide IsRun, Payload;
      FileOpen(run, |run| - 1, me);
      n :| 0 <= n <= |rest[0].data|;
      if n > 0 {
        inodes := inodes[file := inodes[file] + rest[0].data[..n]];
        tasks := tasks[me := Advanced(tasks[me], n)];
        Took(FileStore.Write(me, n));
      } else {
        Break(me);
      }
    }

    ghost method ChunkDone(me: Tid)
      requires Valid() && me in tasks && tasks[me].Filling? && tasks[me].rest != [] && tasks[me].rest[0] == Chunk([])
      modifies this`tasks, this`run
      ensures Valid() && run == old(run) + [View()]
      ensures TaskIn(View(), me) == Some(old(tasks)[me].(rest := old(tasks)[me].rest[1..]))
    {
      tasks := tasks[me := tasks[me].(rest := tasks[me].rest[1..])];
      Took(NextChunk(me));
    }

    /** If it fails, a put that keeps leaves the removal of its file to be done; another just ends. */
    method RenameFile(uuid: string, path: FilePath, file: nat, ghost me: Tid) returns (ok: bool)
      requires Valid() && me in tasks && tasks[me].Filling? && tasks[me].rest == []
      requires tasks[me].uuid == uuid && tasks[me].ino == file && tasks[me].op.path == path
      modifies this
      ensures Valid() && run == old(run) + [View()]
      ensures var op := old(tasks)[me].op;
              && op.Put? && Whole(op.stream)
              && TaskIn(View(), me)
                 == Some(if ok then Over(op, FileStore.Stored(|Payload(op.stream)|))
                         else if op.keep then Cleaning(op, uuid) else Over(op, Failed))
              && (ok ==> Holds(Meaning(View()).store, path, |Payload(op.stream)|))
      ensures !ok ==> me in failed
    {
      hide IsRun, Meaning, Payload, Whole, Holds, IsFinal, Inv, IsUuid, DoCreate, DoWrite, CanCreate, CanWrite;
      FileOpen(run, |run| - 1, me);
      RenameHolds(run, |run| - 1, me);
      ghost var op := tasks[me].op;
      ok := *;
      if ok {
        names := (names - {TempFile(path, uuid)})[path := file];
        published := published + {(path, inodes[file])};
        tasks := tasks[me := Over(op, FileStore.Stored(|inodes[file]|))];
        Took(Rename(me));
      } else if op.keep {
        failed := failed + {me};
        tasks := tasks[me := Cleaning(op, uuid)];
        Took(RenameFails(me));
      } else {
        Break(me);
      }
    }

    /** What `put_blob` spawns when its rename has failed. */
    method RemoveTemp(uuid: string, path: FilePath, ghost me: Tid)
      requires Valid() && me in tasks && tasks[me].Cleaning? && tasks[me].uuid == uuid && tasks[me].op.path == path
      modifies this
      ensures Valid() && run == old(run) + [View()]
      ensures TaskIn(View(), me) == Some(Over(old(tasks)[me].op, Failed))
    {
      names := names - {TempFile(path, uuid)};
      tasks := tasks[me := Over(tasks[me].op, Failed)];
      Took(Clean(me));
    }

    /** `File::open`: a file, none there, or an error. */
    method OpenFile(path: FilePath, ghost me: Tid) returns (file: IoResult<Option<nat>>)
      requires Valid() && me in tasks && tasks[me] == Invoked(Get(path))
      modifies this`tasks, this`run, this`failed
      ensures Valid() && run == old(run) + [View()]
      ensures TaskIn(View(), me)
              == Some(match file
                      case Failure => Over(Get(path), Failed)
                      case Done(None) => Over(Get(path), NotFound)
                      case Done(Some(ino)) => Reading(Get(path), ino, 0))
      ensures file.Done? ==> (file.value.Some? <==> path in names)
      ensures file.Failure? ==> me in failed
    {
      var fails: bool := *;
      if fails {
        Break(me);
        return Failure;
      }
      if path !in names {
        tasks := tasks[me := Over(Get(path), NotFound)];
        Took(Open(me));
        return Done(None);
      }
      tasks := tasks[me := Reading(Get(path), names[path], 0)];
      Took(Open(me));
      return Done(Some(names[path]));
    }

    /** One `read`: some more bytes, none at the end, or an error. */
    method ReadSome(path: FilePath, file: nat, at: nat, ghost me: Tid) returns (r: IoResult<Bytes>)
      requires Valid() && me in tasks && tasks[me] == Reading(Get(path), file, at)
      modifies this`tasks, this`run, this`failed
      ensures Valid() && run == old(run) + [View()] && file in inodes && at <= |inodes[file]|
      ensures TaskIn(View(), me)
              == Some(match r
                      case Failure => Over(Get(path), Failed)
                      case Done(data) => if data == [] then Over(Get(path), Found(inodes[file]))
                                         else Reading(Get(path), file, at + |data|))
      ensures r.Done? ==> r.value <= inodes[file][at..] && (r.value == [] ==> at == |inodes[file]|)
      ensures r.Failure? ==> me in failed
    {
      hide IsRun;
      FileOpen(run, |run| - 1, me);
      var fails: bool := *;
      if fails {
        Break(me);
        return Failure;
      }
      if at == |inodes[file]| {
        assert inodes[file][..at] == inodes[file];
        tasks := tasks[me := Over(Get(path), Found(inodes[file]))];
        Took(ReadEnd(me));
        return Done([]);
      }
      var most := |inodes[file]| - at;
      var n :| 0 < n <= most;
      r := Done(inodes[file][at..at + n]);
      tasks := tasks[me := Reading(Get(path), file, at + n)];
      Took(Read(me, n));
    }

    method RemoveFile(path: FilePath, ghost me: Tid) returns (ok: bool)
      requires Valid() && me in tasks && tasks[me] == Invoked(Delete(path))
      modifies this
      ensures Valid() && run == old(run) + [View()]
      ensures TaskIn(View(), me) == Some(Over(Delete(path), if ok then Removed else Failed))
      ensures if ok then path !in Meaning(View()).store else me in failed
    {
      ok := *;
      if ok {
        names := names - {path};
        tasks := tasks[me := Over(Delete(path), Removed)];
        Took(Unlink(me));
      } else {
        Break(me);
      }
    }

    // ---- The operations of the back end ----

    /** Writes the stream chunk by chunk; a failed write or a broken stream ends the put. */
    method WriteAll(stream: ByteStream, file: nat, ghost op: Op, ghost uuid: string, ghost me: Tid)
      returns (total: nat, ok: bool)
      requires Valid() && TaskIn(View(), me) == Some(Filling(op, uuid, file, stream))
      modifies this
      ensures Valid() && old(run) <= run
      ensures TaskIn(View(), me) == Some(if ok then Filling(op, uuid, file, []) else Over(op, Failed))
      ensures ok ==> total == |Payload(stream)|
      ensures !ok ==> me in failed || !Whole(stream)
    {
      hide IsRun, Meaning, Undisturbed, IsUuid, Inv;
      ghost var start := run;
      total := 0;
      var rest := stream;
      while rest != []
        invariant Valid() && start <= run
        invariant TaskIn(View(), me) == Some(Filling(op, uuid, file, rest))
        invariant total + |Payload(rest)| == |Payload(stream)|
        invariant Whole(stream) ==> Whole(rest)
        decreases |Payload(rest)|, |rest|
      {
        Await(me);
        if rest[0].Broken? {
          GiveUp(me);
          return 0, false;
        }
        if rest[0].data == [] {
          ChunkDone(me);
          rest := rest[1..];
        } else {
          var n := WriteSome(file, rest, me);
          if n == 0 {
            return 0, false;
          }
          WrittenPayload([], rest, n);
          total := total + n;
          rest := [Chunk(rest[0].data[n..])] + rest[1..];
        }
      }
      return total, true;
    }

    /** Creates a temporary file, writes the stream to it and renames it. */
    method WriteAndRename(path: FilePath, stream: ByteStream, ghost keep: bool, ghost me: Tid)
      returns (r: IoResult<nat>)
      requires Valid() && TaskIn(View(), me) == Some(Creating(Put(path, stream, keep)))
      modifies this
      ensures Valid() && old(run) < run
      ensures PutEnded(TaskIn(View(), me), Put(path, stream, keep), r)
      ensures r.Done? ==> Whole(stream) && r.value == |Payload(stream)|
      ensures r.Done? ==> HeldDuring(run, |old(run)|, path, r.value)
      ensures r.Failure? ==> me in failed || !Whole(stream)
    {
      hide IsRun, Meaning, Whole, Undisturbed, Holds, Payload;
      ghost var start := run;
      var uuid, file, created := CreateTemp(path, me);
      if !created {
        return Failure;
      }
      var total, written := WriteAll(stream, file, Put(path, stream, keep), uuid, me);
      if !written {
        return Failure;
      }
      Await(me);
      var renamed := RenameFile(uuid, path, file, me);
      if !renamed {
        return Failure;
      }
      HeldAtEnd(run, |start|, path, total);
      return Done(total);
    }

    /** `put_blob`: an existing file is left alone. */
    method PutBlob(hex: string, stream: ByteStream, ghost me: Tid) returns (r: IoResult<nat>)
      requires Valid() && IsDigestHex(hex) && me !in tasks
      modifies this
      ensures Valid() && old(run) < run
      ensures PutEnded(TaskIn(View(), me), Put(BlobPath(hex), stream, true), r)
      ensures r.Done? ==> HeldDuring(run, |old(run)|, BlobPath(hex), r.value)
      ensures r.Failure? ==> me in failed || !Whole(stream) || AbsentDuring(run, |old(run)|, BlobPath(hex))
    {
      hide IsRun, Meaning, Undisturbed, Holds, IsDigestHex, IsFinal, Whole;
      ghost var start := run;
      var path := BlobPath(hex);
      FinalPaths(hex, ManifestName("", ""));
      Start(Put(path, stream, true), me);
      Await(me);
      var present := Exists(path, me);
      Await(me);
      if present {
        var size := FileLength(path, me);
        if size.None? {
          AbsentNow(run, |start|, path);
          return Failure;
        }
        HeldAtEnd(run, |start|, path, size.value);
        return Done(size.value);
      }
      ghost var mid := run;
      r := WriteAndRename(path, stream, true, me);
      HeldEarlier(run, |start|, |mid|, path);
    }

    /** `put_manifest`: the JSON is one chunk and an existing file is replaced. */
    method PutManifest(ns: string, key: string, json: Bytes, ghost me: Tid) returns (r: IoResult<nat>)
      requires Valid() && me !in tasks
      modifies this
      ensures Valid() && old(run) <= run
      ensures ManifestPath(ns, key).None? ==> r == Failure && run == old(run)
      ensures ManifestPath(ns, key).Some? ==>
                PutEnded(TaskIn(View(), me), Put(ManifestFile(NameOf(ns, key)), [Chunk(json)], false), r)
      ensures r.Done? ==> r.value == |json|
      ensures r.Done? ==> HeldDuring(run, |old(run)|, ManifestFile(NameOf(ns, key)), |json|)
      ensures r.Failure? ==> !ValidName(ns, key) || me in failed
    {
      hide IsRun, Meaning, Undisturbed, Holds, ManifestFile, ValidNamespace, ValidKey, IsFinal;
      ghost var start := run;
      var found := ManifestPath(ns, key);
      if found.None? {
        return Failure;
      }
      var path := found.value;
      var stream := [Chunk(json)];
      ManifestIsFinal(NameOf(ns, key));
      Start(Put(path, stream, false), me);
      Await(me);
      OneChunk(json);
      ghost var mid := run;
      r := WriteAndRename(path, stream, false, me);
      HeldEarlier(run, |start|, |mid|, path);
    }

    /** `read_to_end`: nothing read so far can change while the file is open. */
    method ReadToEnd(path: FilePath, file: nat, ghost me: Tid) returns (r: IoResult<Bytes>)
      requires Valid() && TaskIn(View(), me) == Some(Reading(Get(path), file, 0))
      modifies this
      ensures Valid() && old(run) <= run
      ensures TaskIn(View(), me) == Some(Over(Get(path), if r.Done? then Found(r.value) else Failed))
      ensures r.Failure? ==> me in failed
    {
      hide IsRun, Undisturbed;
      ghost var start := run;
      var buf: Bytes := [];
      ghost var whole := OpenContents(run, |run| - 1, me);
      while true
        invariant Valid() && start <= run
        invariant TaskIn(View(), me) == Some(Reading(Get(path), file, |buf|))
        invariant file in inodes && inodes[file] == whole && buf <= whole
        decreases |whole| - |buf|
      {
        ghost var before := |run| - 1;
        Await(me);
        OpenFileFrozen(run, before, |run| - 1, me);
        var data := ReadSome(path, file, |buf|, me);
        if data.Failure? {
          return Failure;
        }
        if data.value == [] {
          assert buf == whole;
          return Done(buf);
        }
        assert whole[..|buf|] + data.value <= whole;
        buf := buf + data.value;
      }
    }

    /** Opens a file and reads it to its end; `None` if there is no file. */
    method ReadFile(path: FilePath, ghost me: Tid) returns (r: IoResult<Option<Bytes>>)
      requires Valid() && IsFinal(path) && me !in tasks
      modifies this
      ensures Valid() && old(run) <= run
      ensures r.Done? && r.value.Some? ==> PutIn(run, path, r.value.value)
      ensures TaskIn(View(), me)
              == Some(Over(Get(path), match r
                                      case Failure => Failed
                                      case Done(None) => NotFound
                                      case Done(Some(data)) => Found(data)))
      ensures r.Failure? ==> me in failed
      ensures r == Done(None) ==> AbsentDuring(run, |old(run)|, path)
    {
      hide IsRun, Meaning, IsFinal, PutIn, Undisturbed;
      ghost var start := run;
      Start(Get(path), me);
      Await(me);
      var handle := OpenFile(path, me);
      if handle.Failure? {
        return Failure;
      }
      if handle.value.None? {
        NoFileNoObject(path);
        AbsentNow(run, |start|, path);
        return Done(None);
      }
      var data := ReadToEnd(path, handle.value.value, me);
      if data.Failure? {
        return Failure;
      }
      ReadsOneWholePut(run, |run| - 1, me);
      return Done(Some(data.value));
    }

    /** `get_manifest` before parsing: absent, or the whole text of one put. */
    method GetManifest(ns: string, key: string, ghost me: Tid) returns (r: IoResult<Option<Bytes>>)
      requires Valid() && me !in tasks
      modifies this
      ensures Valid() && old(run) <= run
      ensures r.Done? ==> ManifestPath(ns, key).Some?
      ensures r.Done? && r.value.Some? ==> PutIn(run, ManifestFile(NameOf(ns, key)), r.value.value)
      ensures r == Done(None) ==> AbsentDuring(run, |old(run)|, ManifestFile(NameOf(ns, key)))
      ensures r.Failure? ==> !ValidName(ns, key) || me in failed
    {
      var path := ManifestPath(ns, key);
      if path.None? {
        return Failure;
      }
      ManifestIsFinal(NameOf(ns, key));
      r := ReadFile(path.value, me);
    }

    /** `get_blob_bytes`: the whole payload of one put under that digest; `None` if there is no file. */
    method GetBlobBytes(hex: string, ghost me: Tid) returns (r: IoResult<Option<Bytes>>)
      requires Valid() && IsDigestHex(hex) && me !in tasks
      modifies this
      ensures Valid() && old(run) <= run
      ensures r.Done? && r.value.Some? ==> PutIn(run, BlobPath(hex), r.value.value)
      ensures r == Done(None) ==> AbsentDuring(run, |old(run)|, BlobPath(hex))
      ensures r.Failure? ==> me in failed
    {
      hide IsRun, IsDigestHex, PutIn;
      FinalPaths(hex, ManifestName("", ""));
      r := ReadFile(BlobPath(hex), me);
    }

    /** `has_blob`: whether the store holds the digest at this moment. */
    method HasBlob(hex: string) returns (present: bool)
      requires Valid() && IsDigestHex(hex)
      ensures present <==> BlobPath(hex) in Meaning(View()).store
    {
      hide IsRun, Meaning, IsFinal, IsDigestHex, Inv;
      FinalPaths(hex, ManifestName("", ""));
      RunInv(run, |run| - 1);
      PresentMeans(View(), BlobPath(hex));
      present := BlobPath(hex) in names;
    }

    /** `delete_blob` and `delete_manifest` on a final name: removing what is absent succeeds. */
    method DeleteFile(path: FilePath, ghost me: Tid) returns (ok: bool)
      requires Valid() && IsFinal(path) && me !in tasks
      modifies this
      ensures Valid() && old(run) <= run
      ensures TaskIn(View(), me) == Some(Over(Delete(path), if ok then Removed else Failed))
      ensures if ok then path !in Meaning(View()).store else me in failed
    {
      hide IsRun, Meaning, IsFinal;
      Start(Delete(path), me);
      Await(me);
      ok := RemoveFile(path, me);
    }
  }

  lemma HeldAtEnd(run: seq<State>, i: nat, path: FilePath, size: nat)
    requires i < |run| && Holds(Meaning(run[|run| - 1]).store, path, size)
    ensures HeldDuring(run, i, path, size)
  {}

  lemma AbsentNow(run: seq<State>, i: nat, path: FilePath)
    requires i < |run|
    ensures path !in Meaning(run[|run| - 1]).store ==> AbsentDuring(run, i, path)
  {}

  lemma HeldEarlier(run: seq<State>, i: nat, j: nat, path: FilePath)
    requires i <= j
    ensures forall size :: HeldDuring(run, j, path, size) ==> HeldDuring(run, i, path, size)
  {}

  /** The file a task has open exists, and a reader is not past its end. */
  lemma FileOpen(run: seq<State>, i: nat, t: Tid)
    requires IsRun(run) && i < |run| && t in run[i].tasks
    requires run[i].tasks[t].Filling? || run[i].tasks[t].Reading?
    ensures run[i].tasks[t].ino in run[i].inodes
    ensures run[i].tasks[t].Reading? ==> run[i].tasks[t].got <= |run[i].inodes[run[i].tasks[t].ino]|
  {
    RunInv(run, i);
    assert TaskOk(run[i], run[i].tasks[t]);
  }

  /** The length of a file under a final name is that of the object it means; steps that change
      only the operation leave it so. */
  lemma Lengths(run: seq<State>, i: nat, t: Tid)
    requires IsRun(run) && i < |run| && t in run[i].tasks
    ensures var s, path := run[i], run[i].tasks[t].op.path;
            path in s.names ==>
              s.names[path] in s.inodes
              && forall s': State :: s'.names == s.names && s'.inodes == s.inodes
                   ==> Holds(Meaning(s').store, path, |s.inodes[s.names[path]]|)
  {
    RunInv(run, i);
    assert TaskOk(run[i], run[i].tasks[t]);
  }

  /** A rename publishes the whole payload. */
  lemma RenameHolds(run: seq<State>, i: nat, t: Tid)
    requires IsRun(run) && i < |run| && CanRename(run[i], t)
    ensures var s, task := run[i], run[i].tasks[t];
            && task.op.Put? && Whole(task.op.stream) && s.inodes[task.ino] == Payload(task.op.stream)
            && Holds(Meaning(DoRename(s, t)).store, task.op.path, |s.inodes[task.ino]|)
  {
    RunInv(run, i);
    RenameBytes(run[i], t);
    RenameStore(run[i], t);
    hide Meaning, Payload, Whole, Inv, IsRun;
  }

  lemma OpenContents(run: seq<State>, i: nat, t: Tid) returns (whole: Bytes)
    requires IsRun(run) && i < |run| && t in run[i].tasks && run[i].tasks[t].Reading?
    ensures run[i].tasks[t].ino in run[i].inodes && whole == run[i].inodes[run[i].tasks[t].ino]
  {
    FileOpen(run, i, t);
    whole := run[i].inodes[run[i].tasks[t].ino];
  }

  lemma FrozenStep(s: State, s': State, t: Tid)
    requires Inv(s) && Steps(s, s') && t in s.tasks && s.tasks[t].Reading? && s.tasks[t].ino in s.inodes
    ensures s.tasks[t].ino in s'.inodes && s'.inodes[s.tasks[t].ino] == s.inodes[s.tasks[t].ino]
  {
    hide Inv;
    var a :| Next(s, a) == Some(s');
    SettledFrozen(s, a, s.tasks[t].ino);
  }

  /** While a reader waits, the file it holds open stays as it is. */
  lemma {:induction false} OpenFileFrozen(run: seq<State>, i: nat, j: nat, t: Tid)
    requires IsRun(run) && i <= j < |run| && Undisturbed(run, i, t)
    requires t in run[i].tasks && run[i].tasks[t].Reading?
    ensures run[i].tasks[t].ino in run[i].inodes && run[i].tasks[t].ino in run[j].inodes
    ensures run[j].inodes[run[i].tasks[t].ino] == run[i].inodes[run[i].tasks[t].ino]
    decreases j
  {
    hide Inv;
    FileOpen(run, i, t);
    if i < j {
      OpenFileFrozen(run, i, j - 1, t);
      RunInv(run, j - 1);
      assert Steps(run[j - 1], run[j - 1 + 1]);
      assert TaskIn(run[j - 1], t) == TaskIn(run[i], t);
      FrozenStep(run[j - 1], run[j], t);
    }
  }
}
