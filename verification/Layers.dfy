/** The two back ends under the protocol, operation by operation. A store backs a state of the
    protocol machine when it holds its blobs and manifests under names that keep them apart; then
    what a back end does to its store for a request, or finds there, is a step of the machine for
    that request, and the store after it backs the state after it. On files this holds for all
    accepted names; in a bucket for those whose keys reach the objects they spell (`HarmlessName`),
    and digests. `FileServer` puts the operations on files together to whole histories. */
module Layers {
  import opened Prelude
  import opened Naming
  import opened Streams
  import opened AbstractStore
  import opened Manifests
  import opened Protocol
  import FileStore
  import opened ObjectUrl
  import ObjectSharing

  /** How a back end names objects. */
  datatype Names<!K> = Names(blob: string -> K, manifest: ManifestName -> K)

  predicate Escaped(n: ManifestName) {
    '/' !in n.ns && '/' !in n.key
  }

  lemma NamesAreEscaped(ns: string, key: string)
    ensures Escaped(NameOf(ns, key))
  {
    EscapeHasNoSlash(ns);
    EscapeHasNoSlash(key);
  }

  ghost predicate Apart<K(!new)>(names: Names<K>) {
    && (forall h, h' :: names.blob(h) == names.blob(h') ==> h == h')
    && (forall n, n' :: Escaped(n) && Escaped(n') && names.manifest(n) == names.manifest(n') ==> n == n')
    && (forall h, n :: Escaped(n) ==> names.blob(h) != names.manifest(n))
  }

  /** `json` is the text a manifest is stored as. */
  ghost predicate Backs<K(!new)>(store: map<K, Bytes>, names: Names<K>, json: Manifest -> Bytes, s: State) {
    && (forall h :: (h in s.blobs <==> names.blob(h) in store)
                    && (h in s.blobs ==> s.blobs[h] == store[names.blob(h)]))
    && (forall n :: Escaped(n) ==> (n in s.manifests <==> names.manifest(n) in store)
                                   && (n in s.manifests ==> json(s.manifests[n]) == store[names.manifest(n)]))
  }

  /** The stream `save_blob` hands to the back end: the body in one chunk. */
  function BodyStream(up: Upload): ByteStream {
    [Chunk(up.body)]
  }

  // ---- One operation against one step, for any naming ----

  lemma {:induction false} BacksBlob<K(!new)>(store: map<K, Bytes>, names: Names<K>, json: Manifest -> Bytes, s: State,
                                              s': State, hex: string, data: Bytes)
    requires Apart(names) && Backs(store, names, json, s)
    requires s'.blobs == s.blobs[hex := data] && s'.manifests == s.manifests
    ensures Backs(store[names.blob(hex) := data], names, json, s')
  {
    hide Escaped;
  }

  lemma BacksSame<K(!new)>(store: map<K, Bytes>, names: Names<K>, json: Manifest -> Bytes, s: State, s': State)
    requires Backs(store, names, json, s) && s'.blobs == s.blobs && s'.manifests == s.manifests
    ensures Backs(store, names, json, s')
  {}

  /** What one `PutBlob` step does to the blobs, and when it is possible. */
  lemma PutEffectOnBlobs(c: Config, s: State, rid: Rid, up: Upload, how: How)
    requires rid in s.calls && s.calls[rid] == Storing(up)
    ensures Next(c, s, PutBlob(rid, how)).Some? <==> (how.Kept? ==> DigestHex(up.digest) in s.blobs)
    ensures Next(c, s, PutBlob(rid, how)).Some? ==>
              var s' := Next(c, s, PutBlob(rid, how)).value;
              && s'.manifests == s.manifests
              && s'.blobs == if how.Written? || how.Lost? then s.blobs[DigestHex(up.digest) := up.body] else s.blobs
  {
    hide DigestHex;
  }

  /** `put_blob`. */
  lemma PutBlobStep<K(!new)>(c: Config, s: State, rid: Rid, up: Upload, names: Names<K>, json: Manifest -> Bytes,
                             store: map<K, Bytes>, ok: bool, store': map<K, Bytes>) returns (how: How)
    requires Apart(names) && Backs(store, names, json, s) && rid in s.calls && s.calls[rid] == Storing(up)
    requires AbstractPut(store, names.blob(DigestHex(up.digest)), BodyStream(up), ok, store')
    ensures Next(c, s, PutBlob(rid, how)).Some? && (ok <==> how.Kept? || how.Written?)
    ensures Backs(store', names, json, Next(c, s, PutBlob(rid, how)).value)
  {
    hide DigestHex, Next, Apart, Escaped;
    OneChunk(up.body);
    var hex := DigestHex(up.digest);
    var written := store' == store[names.blob(hex) := up.body];
    how := if written then (if ok then Written else Lost) else if ok then Kept else Refused;
    PutEffectOnBlobs(c, s, rid, up, how);
    var s' := Next(c, s, PutBlob(rid, how)).value;
    if written {
      BacksBlob(store, names, json, s, s', hex, up.body);
    } else {
      BacksSame(store, names, json, s, s');
    }
  }

  /** On the digests themselves: the protocol allows exactly what a back end could do. */
  lemma PutIsProtocolStep(c: Config, s: State, rid: Rid, up: Upload, ok: bool, after: map<string, Bytes>)
    requires rid in s.calls && s.calls[rid] == Storing(up)
    ensures AbstractPut(s.blobs, DigestHex(up.digest), BodyStream(up), ok, after)
            <==> exists how ::
                   && Next(c, s, PutBlob(rid, how)).Some?
                   && Next(c, s, PutBlob(rid, how)).value.blobs == after
                   && (how.Kept? || how.Written? <==> ok)
  {
    hide DigestHex, Next;
    var hex := DigestHex(up.digest);
    OneChunk(up.body);
    forall how
      ensures Next(c, s, PutBlob(rid, how)).Some? <==> (how.Kept? ==> hex in s.blobs)
      ensures Next(c, s, PutBlob(rid, how)).Some? ==>
                Next(c, s, PutBlob(rid, how)).value.blobs
                == if how.Written? || how.Lost? then s.blobs[hex := up.body] else s.blobs
    {
      PutEffectOnBlobs(c, s, rid, up, how);
    }
    if AbstractPut(s.blobs, hex, BodyStream(up), ok, after) {
      var how := if after == s.blobs[hex := up.body] then (if ok then Written else Lost)
                 else if ok then Kept else Refused;
      assert Next(c, s, PutBlob(rid, how)).Some? && Next(c, s, PutBlob(rid, how)).value.blobs == after;
    }
  }

  lemma PublishEffect(c: Config, s: State, rid: Rid, req: FinishRequest, m: Manifest, how: How)
    requires rid in s.calls && s.calls[rid] == Publishing(req, m) && !how.Kept?
    ensures Next(c, s, PublishManifest(rid, how)).Some?
    ensures var s' := Next(c, s, PublishManifest(rid, how)).value;
            && s'.blobs == s.blobs
            && s'.manifests == if how.Refused? then s.manifests else s.manifests[NameFor(m) := m]
  {
    hide NameOf;
  }

  lemma BacksManifest<K(!new)>(store: map<K, Bytes>, names: Names<K>, json: Manifest -> Bytes, s: State, s': State,
                               n: ManifestName, m: Manifest)
    requires Apart(names) && Backs(store, names, json, s) && Escaped(n)
    requires s'.manifests == s.manifests[n := m] && s'.blobs == s.blobs
    ensures Backs(store[names.manifest(n) := json(m)], names, json, s')
  {
    hide Escaped;
  }

  /** `put_manifest`. */
  lemma PublishStep<K(!new)>(c: Config, s: State, rid: Rid, req: FinishRequest, m: Manifest, names: Names<K>,
                             json: Manifest -> Bytes, store: map<K, Bytes>, ok: bool, store': map<K, Bytes>)
    returns (how: How)
    requires Apart(names) && Backs(store, names, json, s) && rid in s.calls && s.calls[rid] == Publishing(req, m)
    requires ReplacingPut(store, names.manifest(NameFor(m)), [Chunk(json(m))], ok, store')
    ensures Next(c, s, PublishManifest(rid, how)).Some? && (ok <==> how.Written?)
    ensures Backs(store', names, json, Next(c, s, PublishManifest(rid, how)).value)
  {
    hide Next, NameOf, Apart, Escaped;
    OneChunk(json(m));
    NamesAreEscaped(m.namespace, m.key);
    var written := store' == store[names.manifest(NameFor(m)) := json(m)];
    how := if ok then Written else if written then Lost else Refused;
    PublishEffect(c, s, rid, req, m, how);
    var s' := Next(c, s, PublishManifest(rid, how)).value;
    if written {
      BacksManifest(store, names, json, s, s', NameFor(m), m);
    } else {
      BacksSame(store, names, json, s, s');
    }
  }

  /** `has_blob`: what is found decides as the machine does. */
  lemma CheckStep<K(!new)>(c: Config, s: State, rid: Rid, up: Upload, names: Names<K>, json: Manifest -> Bytes,
                           store: map<K, Bytes>, present: bool)
    requires Backs(store, names, json, s) && rid in s.calls && s.calls[rid] == Checking(up)
    requires present <==> names.blob(DigestHex(up.digest)) in store
    ensures Next(c, s, CheckBlob(rid, false)).Some?
    ensures var s' := Next(c, s, CheckBlob(rid, false)).value;
            && s'.calls[rid] == (if present then Recording(up, true) else Storing(up))
            && Backs(store, names, json, s')
  {
    hide DigestHex, Escaped;
  }

  /** The manifest that a text read from the store stands for. */
  function ManifestRead(parse: Bytes -> Option<Manifest>, answer: Answer): Option<Manifest> {
    if answer.Present? then parse(answer.data) else None
  }

  /** `get_manifest`: the text read parses, and to what the machine finds. */
  lemma ReadManifestStep<K(!new)>(c: Config, s: State, rid: Rid, ask: RestoreRequest, names: Names<K>,
                                  json: Manifest -> Bytes, parse: Bytes -> Option<Manifest>, store: map<K, Bytes>,
                                  answer: Answer)
    requires Backs(store, names, json, s) && rid in s.calls && s.calls[rid] == Looking(ask)
    requires forall m :: parse(json(m)) == Some(m)
    requires AbstractGet(store, names.manifest(NameOf(ask.namespace, ask.key)), answer) && !answer.Failing?
    ensures answer.Present? ==> parse(answer.data).Some?
    ensures Next(c, s, ReadManifest(rid))
            == Some(Retasked(s, rid, Seen(ask, ManifestRead(parse, answer))))
    ensures Backs(store, names, json, Retasked(s, rid, Seen(ask, ManifestRead(parse, answer))))
  {
    hide NameOf, Escaped;
    NamesAreEscaped(ask.namespace, ask.key);
  }

  /** The bytes that an answer holds. */
  function BytesRead(answer: Answer): Option<Bytes> {
    if answer.Present? then Some(answer.data) else None
  }

  /** `get_blob_bytes`. */
  lemma ReadBlobStep<K(!new)>(c: Config, s: State, rid: Rid, digest: string, names: Names<K>, json: Manifest -> Bytes,
                              store: map<K, Bytes>, answer: Answer)
    requires Backs(store, names, json, s) && rid in s.calls && s.calls[rid] == Fetching(digest)
    requires AbstractGet(store, names.blob(DigestHex(digest)), answer) && !answer.Failing?
    ensures Next(c, s, ReadBlob(rid)) == Some(Retasked(s, rid, Holding(digest, BytesRead(answer))))
    ensures Backs(store, names, json, Retasked(s, rid, Holding(digest, BytesRead(answer))))
  {
    hide DigestHex, Escaped;
  }

  lemma BacksWithoutBlob<K(!new)>(store: map<K, Bytes>, names: Names<K>, json: Manifest -> Bytes, s: State, s': State,
                                  hex: string)
    requires Apart(names) && Backs(store, names, json, s)
    requires s'.blobs == s.blobs - {hex} && s'.manifests == s.manifests
    ensures Backs(store - {names.blob(hex)}, names, json, s')
  {
    hide Escaped;
  }

  lemma BacksWithoutManifest<K(!new)>(store: map<K, Bytes>, names: Names<K>, json: Manifest -> Bytes, s: State,
                                      s': State, n: ManifestName)
    requires Apart(names) && Backs(store, names, json, s) && Escaped(n)
    requires s'.manifests == s.manifests - {n} && s'.blobs == s.blobs
    ensures Backs(store - {names.manifest(n)}, names, json, s')
  {
    hide Escaped;
  }

  /** `delete_blob`: the step, or nothing where it failed. */
  lemma DeleteBlobStep<K(!new)>(c: Config, s: State, digest: string, names: Names<K>, json: Manifest -> Bytes,
                                store: map<K, Bytes>, ok: bool, store': map<K, Bytes>)
    requires Apart(names) && Backs(store, names, json, s)
    requires AbstractDelete(store, names.blob(DigestHex(digest)), ok, store')
    ensures Next(c, s, DeleteBlob(digest)).Some?
    ensures Backs(store', names, json, Next(c, s, DeleteBlob(digest)).value)
            || (!ok && Backs(store', names, json, s))
  {
    hide DigestHex, Escaped, Backs, Apart;
    BacksWithoutBlob(store, names, json, s, Next(c, s, DeleteBlob(digest)).value, DigestHex(digest));
  }

  /** `delete_manifest`. */
  lemma DeleteManifestStep<K(!new)>(c: Config, s: State, n: ManifestName, names: Names<K>, json: Manifest -> Bytes,
                                    store: map<K, Bytes>, ok: bool, store': map<K, Bytes>)
    requires Apart(names) && Backs(store, names, json, s) && Escaped(n)
    requires AbstractDelete(store, names.manifest(n), ok, store')
    ensures Next(c, s, DeleteManifest(n)).Some?
    ensures Backs(store', names, json, Next(c, s, DeleteManifest(n)).value)
            || (!ok && Backs(store', names, json, s))
  {
    hide Escaped, Backs, Apart;
    BacksWithoutManifest(store, names, json, s, Next(c, s, DeleteManifest(n)).value, n);
  }

  /** An empty store backs a server that has just been set up. */
  lemma EmptyBacks<K(!new)>(names: Names<K>, json: Manifest -> Bytes)
    ensures Backs(map[], names, json, INIT)
  {}

  // ---- Files ----

  const FILES: Names<FilePath> := Names(BlobPath, ManifestFile)

  lemma FilesApart()
    ensures Apart(FILES)
  {
    forall n, n' | ManifestFile(n) == ManifestFile(n')
      ensures n == n'
    {
      ManifestFileInjective(n, n');
    }
    forall h, n
      ensures BlobPath(h) != ManifestFile(n)
    {
      assert ManifestFile(n).dir[0] == 'm' && BlobPath(h).dir[0] == 'b';
    }
  }

  /** A file-store step that decides the put of an upload is a `PutBlob` step. */
  lemma FilePutIsStep(c: Config, s: State, rid: Rid, up: Upload, json: Manifest -> Bytes, a: FileStore.Atomic,
                      t: FileStore.Tid, b: FileStore.Atomic) returns (how: How)
    requires Backs(a.store, FILES, json, s) && rid in s.calls && s.calls[rid] == Storing(up)
    requires FileStore.AtomicStep(a, t, b) && t in a.calls && t in b.calls
    requires b.calls[t].op == FileStore.Put(BlobPath(DigestHex(up.digest)), BodyStream(up), true)
    ensures Next(c, s, PutBlob(rid, how)).Some?
    ensures b.calls[t].Decided? && (b.calls[t].outcome.Stored? <==> how.Kept? || how.Written?)
    ensures Backs(b.store, FILES, json, Next(c, s, PutBlob(rid, how)).value)
  {
    hide FileStore.AtomicStep, Next, DigestHex, Backs, AbstractPut, Apart;
    FilesApart();
    FileStore.FileOperations(a, t, b);
    how := PutBlobStep(c, s, rid, up, FILES, json, a.store, b.calls[t].outcome.Stored?, b.store);
  }

  /** One that decides the put of a manifest is a `PublishManifest` step. */
  lemma FilePublishIsStep(c: Config, s: State, rid: Rid, req: FinishRequest, m: Manifest, json: Manifest -> Bytes,
                          a: FileStore.Atomic, t: FileStore.Tid, b: FileStore.Atomic) returns (how: How)
    requires Backs(a.store, FILES, json, s) && rid in s.calls && s.calls[rid] == Publishing(req, m)
    requires FileStore.AtomicStep(a, t, b) && t in a.calls && t in b.calls
    requires b.calls[t].op == FileStore.Put(ManifestFile(NameFor(m)), [Chunk(json(m))], false)
    ensures Next(c, s, PublishManifest(rid, how)).Some?
    ensures b.calls[t].Decided? && (b.calls[t].outcome.Stored? <==> how.Written?)
    ensures Backs(b.store, FILES, json, Next(c, s, PublishManifest(rid, how)).value)
  {
    hide FileStore.AtomicStep, Next, NameOf, Backs, ReplacingPut, Apart;
    FilesApart();
    FileStore.FileOperations(a, t, b);
    how := PublishStep(c, s, rid, req, m, FILES, json, a.store, b.calls[t].outcome.Stored?, b.store);
  }

  /** Looking for a blob's file is the `CheckBlob` step. */
  lemma FileCheckIsStep(c: Config, s: State, rid: Rid, up: Upload, json: Manifest -> Bytes, files: FileStore.State)
    requires FileStore.Inv(files) && IsDigest(up.digest) && Backs(FileStore.Meaning(files).store, FILES, json, s)
    requires rid in s.calls && s.calls[rid] == Checking(up)
    ensures Next(c, s, CheckBlob(rid, false)).Some?
    ensures Next(c, s, CheckBlob(rid, false)).value.calls[rid]
            == if BlobPath(DigestHex(up.digest)) in files.names then Recording(up, true) else Storing(up)
  {
    hide FileStore.Inv, FileStore.Meaning, Backs, DigestHex, IsDigestHex, IsFinal, Next;
    FinalPaths(DigestHex(up.digest), ManifestName("", ""));
    var present := BlobPath(DigestHex(up.digest)) in files.names;
    FileStore.PresentMeans(files, BlobPath(DigestHex(up.digest)));
    CheckStep(c, s, rid, up, FILES, json, FileStore.Meaning(files).store, present);
  }

  /** One that finds a manifest, or none, is a `ReadManifest` step: it happens when the file is
      opened. A read that fails, before or after that, leaves the store alone. */
  lemma FileReadManifestIsStep(c: Config, s: State, rid: Rid, ask: RestoreRequest, json: Manifest -> Bytes,
                               parse: Bytes -> Option<Manifest>, a: FileStore.Atomic, t: FileStore.Tid,
                               b: FileStore.Atomic)
    requires Backs(a.store, FILES, json, s) && forall m :: parse(json(m)) == Some(m)
    requires FileStore.AtomicStep(a, t, b) && t in a.calls && t in b.calls
    requires b.calls[t].op == FileStore.Get(ManifestFile(NameOf(ask.namespace, ask.key)))
    ensures b.calls[t].Decided? && b.store == a.store
    ensures FileStore.AnswerOf(b.calls[t].outcome).Failing? <==> b.calls[t].outcome.Failed?
    ensures !b.calls[t].outcome.Failed? ==> a.calls[t].Pending?
    ensures !b.calls[t].outcome.Failed? && rid in s.calls && s.calls[rid] == Looking(ask) ==>
              var s' := Retasked(s, rid, Seen(ask, ManifestRead(parse, FileStore.AnswerOf(b.calls[t].outcome))));
              Next(c, s, ReadManifest(rid)) == Some(s') && Backs(b.store, FILES, json, s')
    ensures b.calls[t].outcome.Found? && rid in s.calls && s.calls[rid] == Looking(ask) ==>
              parse(b.calls[t].outcome.data).Some?
  {
    FileStore.FileOperations(a, t, b);
    ReadOutcomes(a, t, b);
    hide FileStore.AtomicStep, Next, NameOf, Backs, Retasked;
    if !b.calls[t].outcome.Failed? && rid in s.calls && s.calls[rid] == Looking(ask) {
      ReadManifestStep(c, s, rid, ask, FILES, json, parse, a.store, FileStore.AnswerOf(b.calls[t].outcome));
    }
  }

  lemma ReadOutcomes(a: FileStore.Atomic, t: FileStore.Tid, b: FileStore.Atomic)
    requires FileStore.AtomicStep(a, t, b) && t in a.calls && t in b.calls && b.calls[t].op.Get?
    ensures b.calls[t].Decided?
    ensures var outcome := b.calls[t].outcome; outcome.Found? || outcome.NotFound? || outcome.Failed?
    ensures !b.calls[t].outcome.Failed? ==> a.calls[t].Pending?
  {}

  /** The same for a blob and `ReadBlob`. */
  lemma FileReadBlobIsStep(c: Config, s: State, rid: Rid, digest: string, json: Manifest -> Bytes, a: FileStore.Atomic,
                           t: FileStore.Tid, b: FileStore.Atomic)
    requires Backs(a.store, FILES, json, s)
    requires FileStore.AtomicStep(a, t, b) && t in a.calls && t in b.calls
    requires b.calls[t].op == FileStore.Get(BlobPath(DigestHex(digest)))
    ensures b.calls[t].Decided? && b.store == a.store
    ensures FileStore.AnswerOf(b.calls[t].outcome).Failing? <==> b.calls[t].outcome.Failed?
    ensures !b.calls[t].outcome.Failed? ==> a.calls[t].Pending?
    ensures !b.calls[t].outcome.Failed? && rid in s.calls && s.calls[rid] == Fetching(digest) ==>
              var s' := Retasked(s, rid, Holding(digest, BytesRead(FileStore.AnswerOf(b.calls[t].outcome))));
              Next(c, s, ReadBlob(rid)) == Some(s') && Backs(b.store, FILES, json, s')
  {
    FileStore.FileOperations(a, t, b);
    ReadOutcomes(a, t, b);
    hide FileStore.AtomicStep, Next, DigestHex, Backs, Retasked;
    if !b.calls[t].outcome.Failed? && rid in s.calls && s.calls[rid] == Fetching(digest) {
      ReadBlobStep(c, s, rid, digest, FILES, json, a.store, FileStore.AnswerOf(b.calls[t].outcome));
    }
  }

  /** One that decides a deletion is the step of that deletion, or nothing where it failed. */
  lemma FileDeleteIsStep(c: Config, s: State, json: Manifest -> Bytes, a: FileStore.Atomic, t: FileStore.Tid,
                         b: FileStore.Atomic, digest: string, n: ManifestName)
    requires Backs(a.store, FILES, json, s) && Escaped(n)
    requires FileStore.AtomicStep(a, t, b) && t in a.calls && t in b.calls
    ensures b.calls[t].op == FileStore.Delete(BlobPath(DigestHex(digest))) ==>
              b.calls[t].Decided? && Next(c, s, DeleteBlob(digest)).Some?
              && (Backs(b.store, FILES, json, Next(c, s, DeleteBlob(digest)).value)
                  || (!b.calls[t].outcome.Removed? && Backs(b.store, FILES, json, s)))
    ensures b.calls[t].op == FileStore.Delete(ManifestFile(n)) ==>
              b.calls[t].Decided? && Next(c, s, DeleteManifest(n)).Some?
              && (Backs(b.store, FILES, json, Next(c, s, DeleteManifest(n)).value)
                  || (!b.calls[t].outcome.Removed? && Backs(b.store, FILES, json, s)))
  {
    hide FileStore.AtomicStep, Next, DigestHex, Backs, Apart, AbstractDelete, Escaped;
    FilesApart();
    FileStore.FileOperations(a, t, b);
    if b.calls[t].op == FileStore.Delete(BlobPath(DigestHex(digest))) {
      DeleteBlobStep(c, s, digest, FILES, json, a.store, b.calls[t].outcome.Removed?, b.store);
    }
    if b.calls[t].op == FileStore.Delete(ManifestFile(n)) {
      DeleteManifestStep(c, s, n, FILES, json, a.store, b.calls[t].outcome.Removed?, b.store);
    }
  }

  // ---- A bucket ----

  function ManifestObject(root: seq<string>, n: ManifestName): string {
    Under(root, "manifests/" + n.ns + "/" + (n.key + JSON))
  }

  /** The objects that keys spell, below the endpoint and the bucket. */
  function Objects(root: seq<string>): Names<string> {
    Names(hex => Under(root, BlobKey(hex)), n => ManifestObject(root, n))
  }

  lemma BlobObjectsApart(root: seq<string>, h: string, h': string)
    requires Under(root, BlobKey(h)) == Under(root, BlobKey(h'))
    ensures h == h'
  {
    hide Under;
    ObjectSharing.UnderInjective(root, BlobKey(h), BlobKey(h'));
    assert BlobKey(h)[6..] == h && BlobKey(h')[6..] == h';
  }

  lemma ManifestObjectsApart(root: seq<string>, n: ManifestName, n': ManifestName)
    requires Escaped(n) && Escaped(n') && ManifestObject(root, n) == ManifestObject(root, n')
    ensures n == n'
  {
    hide Under;
    ObjectSharing.UnderInjective(root, "manifests/" + n.ns + "/" + (n.key + JSON),
                                 "manifests/" + n'.ns + "/" + (n'.key + JSON));
    ObjectSharing.KeyTextInjective(n.ns, n.key, n'.ns, n'.key);
  }

  lemma KindsApart(root: seq<string>, h: string, n: ManifestName)
    ensures Under(root, BlobKey(h)) != ManifestObject(root, n)
  {
    hide Under;
    var k := "manifests/" + n.ns + "/" + (n.key + JSON);
    ObjectSharing.UnderInjective(root, BlobKey(h), k);
    assert k[0] == 'm' && BlobKey(h)[0] == 'b';
  }

  lemma ObjectsApart(root: seq<string>)
    ensures Apart(Objects(root))
  {
    hide Under, BlobKey, ManifestObject, Escaped;
    forall h, h' | Objects(root).blob(h) == Objects(root).blob(h')
      ensures h == h'
    {
      BlobObjectsApart(root, h, h');
    }
    forall n, n' | Escaped(n) && Escaped(n') && Objects(root).manifest(n) == Objects(root).manifest(n')
      ensures n == n'
    {
      ManifestObjectsApart(root, n, n');
    }
    forall h, n
      ensures Objects(root).blob(h) != Objects(root).manifest(n)
    {
      KindsApart(root, h, n);
    }
  }

  /** Requests for digests and harmless names go to those objects. */
  lemma Addresses(root: seq<string>, hex: string, ns: string, key: string)
    requires PlainRoot(root)
    ensures IsDigestHex(hex) ==> ObjectAt(root, BlobKey(hex)) == Objects(root).blob(hex)
    ensures ValidName(ns, key) && HarmlessName(ns, key) ==>
              ObjectAt(root, ManifestKey(ns, key)) == Objects(root).manifest(NameOf(ns, key))
  {
    hide ObjectAt, Under, IsDigestHex, HarmlessName, ValidName;
    if IsDigestHex(hex) {
      BlobObject(root, hex);
    }
    if ValidName(ns, key) {
      ManifestObjectExactly(root, ns, key);
    }
  }

  // ---- What other accepted names do there ----

  /** After a put of a manifest for `a#1`, a read for `a#2` finds it. */
  lemma CrossedKeys(root: seq<string>, json: Bytes, objects: map<string, Bytes>, objects': map<string, Bytes>,
                    answer: Answer)
    requires ReplacingPut(objects, ObjectAt(root, ManifestKey("ns", "a#1")), [Chunk(json)], true, objects')
    requires AbstractGet(objects', ObjectAt(root, ManifestKey("ns", "a#2")), answer)
    ensures ValidName("ns", "a#2") && OwnName("ns", "a#2") && (answer.Failing? || answer == Present(json))
  {
    hide ObjectAt, ManifestKey, ValidName, OwnName;
    OneChunk(json);
    ObjectSharing.HashKeysShare(root);
  }

  /** A put of a manifest under a climbing key leaves its text in place of the blob. */
  lemma OverwrittenBlob(root: seq<string>, hex: string, json: Bytes, objects: map<string, Bytes>,
                        objects': map<string, Bytes>)
    requires PlainRoot(root) && IsDigestHex(hex)
    requires ReplacingPut(objects, ObjectAt(root, ManifestKey("ns", ObjectSharing.ClimbingKey(hex))), [Chunk(json)],
                          true, objects')
    ensures ValidName("ns", ObjectSharing.ClimbingKey(hex))
    ensures Objects(root).blob(hex) in objects' && objects'[Objects(root).blob(hex)] == json
  {
    hide ObjectAt, ManifestKey, ValidName, IsDigestHex, PlainRoot, Under, ObjectSharing.ClimbingKey;
    OneChunk(json);
    ObjectSharing.KeyReachesBlob(root, hex);
    Addresses(root, hex, "", "");
  }

  // ---- The operations of the bucket ----

  /** What `Bucket.PutBlob` promises is a `PutBlob` step. */
  lemma BucketPutIsStep(c: Config, s: State, rid: Rid, up: Upload, json: Manifest -> Bytes, root: seq<string>,
                        objects: map<string, Bytes>, ok: bool, objects': map<string, Bytes>) returns (how: How)
    requires PlainRoot(root) && Backs(objects, Objects(root), json, s)
    requires rid in s.calls && s.calls[rid] == Storing(up) && IsDigest(up.digest)
    requires AbstractPut(objects, ObjectAt(root, BlobKey(DigestHex(up.digest))), BodyStream(up), ok, objects')
    ensures Next(c, s, PutBlob(rid, how)).Some? && (ok <==> how.Kept? || how.Written?)
    ensures Backs(objects', Objects(root), json, Next(c, s, PutBlob(rid, how)).value)
  {
    hide Next, DigestHex, Backs, AbstractPut, Apart, ObjectAt, Objects, PlainRoot, IsDigestHex;
    ObjectsApart(root);
    Addresses(root, DigestHex(up.digest), "", "");
    how := PutBlobStep(c, s, rid, up, Objects(root), json, objects, ok, objects');
  }

  /** What `Bucket.PutManifest` promises, for a harmless name, is a `PublishManifest` step. */
  lemma BucketPublishIsStep(c: Config, s: State, rid: Rid, req: FinishRequest, m: Manifest, json: Manifest -> Bytes,
                            root: seq<string>, objects: map<string, Bytes>, ok: bool, objects': map<string, Bytes>)
    returns (how: How)
    requires PlainRoot(root) && Backs(objects, Objects(root), json, s)
    requires rid in s.calls && s.calls[rid] == Publishing(req, m)
    requires ValidName(m.namespace, m.key) && HarmlessName(m.namespace, m.key)
    requires ReplacingPut(objects, ObjectAt(root, ManifestKey(m.namespace, m.key)), [Chunk(json(m))], ok, objects')
    ensures Next(c, s, PublishManifest(rid, how)).Some? && (ok <==> how.Written?)
    ensures Backs(objects', Objects(root), json, Next(c, s, PublishManifest(rid, how)).value)
  {
    hide Next, NameOf, Backs, ReplacingPut, Apart, ObjectAt, Objects, PlainRoot, HarmlessName, ValidName, ManifestKey;
    ObjectsApart(root);
    Addresses(root, "", m.namespace, m.key);
    how := PublishStep(c, s, rid, req, m, Objects(root), json, objects, ok, objects');
  }

  /** What `Bucket.GetObject` promises, for a harmless name, is a `ReadManifest` step, or a failure
      that the machine allows. */
  lemma BucketReadManifestIsStep(c: Config, s: State, rid: Rid, ask: RestoreRequest, now: int, json: Manifest -> Bytes,
                                 parse: Bytes -> Option<Manifest>, root: seq<string>, objects: map<string, Bytes>,
                                 answer: Answer)
    requires PlainRoot(root) && Backs(objects, Objects(root), json, s)
    requires rid in s.calls && s.calls[rid] == Looking(ask) && forall m :: parse(json(m)) == Some(m)
    requires ValidName(ask.namespace, ask.key) && HarmlessName(ask.namespace, ask.key)
    requires AbstractGet(objects, ObjectAt(root, ManifestKey(ask.namespace, ask.key)), answer)
    ensures answer.Failing? ==> Next(c, s, LookUp(rid, true, now)).Some?
    ensures !answer.Failing? ==>
              var s' := Retasked(s, rid, Seen(ask, ManifestRead(parse, answer)));
              Next(c, s, ReadManifest(rid)) == Some(s') && Backs(objects, Objects(root), json, s')
    ensures answer.Present? ==> parse(answer.data).Some?
  {
    hide NameOf, Backs, ObjectAt, Objects, PlainRoot, HarmlessName, ValidName, ManifestKey, Hit, ManifestIn;
    Addresses(root, "", ask.namespace, ask.key);
    if !answer.Failing? {
      ReadManifestStep(c, s, rid, ask, Objects(root), json, parse, objects, answer);
    }
  }

  /** What `Bucket.GetObject` promises, for a digest, is a `ReadBlob` step, or such a failure. */
  lemma BucketReadBlobIsStep(c: Config, s: State, rid: Rid, digest: string, json: Manifest -> Bytes, root: seq<string>,
                             objects: map<string, Bytes>, answer: Answer)
    requires PlainRoot(root) && Backs(objects, Objects(root), json, s)
    requires rid in s.calls && s.calls[rid] == Fetching(digest) && IsDigest(digest)
    requires AbstractGet(objects, ObjectAt(root, BlobKey(DigestHex(digest))), answer)
    ensures answer.Failing? ==> Next(c, s, AnswerFetch(rid, true)).Some?
    ensures !answer.Failing? ==>
              var s' := Retasked(s, rid, Holding(digest, BytesRead(answer)));
              Next(c, s, ReadBlob(rid)) == Some(s') && Backs(objects, Objects(root), json, s')
  {
    hide DigestHex, Backs, ObjectAt, Objects, PlainRoot, IsDigestHex, BlobIn;
    Addresses(root, DigestHex(digest), "", "");
    if !answer.Failing? {
      ReadBlobStep(c, s, rid, digest, Objects(root), json, objects, answer);
    }
  }

  /** What `Bucket.HasBlob` promises, for a digest, is the `CheckBlob` step. */
  lemma BucketCheckIsStep(c: Config, s: State, rid: Rid, up: Upload, json: Manifest -> Bytes, root: seq<string>,
                          objects: map<string, Bytes>, present: bool)
    requires PlainRoot(root) && Backs(objects, Objects(root), json, s)
    requires rid in s.calls && s.calls[rid] == Checking(up) && IsDigest(up.digest)
    requires present <==> ObjectAt(root, BlobKey(DigestHex(up.digest))) in objects
    ensures Next(c, s, CheckBlob(rid, false)).Some?
    ensures Next(c, s, CheckBlob(rid, false)).value.calls[rid]
            == (if present then Recording(up, true) else Storing(up))
  {
    hide Next, DigestHex, Backs, ObjectAt, Objects, PlainRoot, IsDigestHex;
    Addresses(root, DigestHex(up.digest), "", "");
    CheckStep(c, s, rid, up, Objects(root), json, objects, present);
  }

  /** What `Bucket.DeleteObject` promises, for digests and harmless names. */
  lemma BucketDeleteIsStep(c: Config, s: State, digest: string, ns: string, key: string, json: Manifest -> Bytes,
                           root: seq<string>, objects: map<string, Bytes>, ok: bool, objects': map<string, Bytes>)
    requires PlainRoot(root) && Backs(objects, Objects(root), json, s)
    ensures IsDigest(digest) && AbstractDelete(objects, ObjectAt(root, BlobKey(DigestHex(digest))), ok, objects') ==>
              && Next(c, s, DeleteBlob(digest)).Some?
              && (Backs(objects', Objects(root), json, Next(c, s, DeleteBlob(digest)).value)
                  || (!ok && Backs(objects', Objects(root), json, s)))
    ensures ValidName(ns, key) && HarmlessName(ns, key)
            && AbstractDelete(objects, ObjectAt(root, ManifestKey(ns, key)), ok, objects') ==>
              && Next(c, s, DeleteManifest(NameOf(ns, key))).Some?
              && (Backs(objects', Objects(root), json, Next(c, s, DeleteManifest(NameOf(ns, key))).value)
                  || (!ok && Backs(objects', Objects(root), json, s)))
  {
    hide Next, DigestHex, Backs, ObjectAt, Objects, PlainRoot, IsDigestHex, AbstractDelete, HarmlessName, ValidName,
      ManifestKey, NameOf, Apart, Escaped;
    ObjectsApart(root);
    if IsDigest(digest) && AbstractDelete(objects, ObjectAt(root, BlobKey(DigestHex(digest))), ok, objects') {
      Addresses(root, DigestHex(digest), "", "");
      DeleteBlobStep(c, s, digest, Objects(root), json, objects, ok, objects');
    }
    if ValidName(ns, key) && HarmlessName(ns, key)
       && AbstractDelete(objects, ObjectAt(root, ManifestKey(ns, key)), ok, objects') {
      Addresses(root, "", ns, key);
      NamesAreEscaped(ns, key);
      DeleteManifestStep(c, s, NameOf(ns, key), Objects(root), json, objects, ok, objects');
    }
  }
}
