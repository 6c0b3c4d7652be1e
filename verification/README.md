# A verified model of the save and restore pipeline of Cluster CI Cache

The project models how a directory travels through the cache, and proves what arrives.

- **The protocol** (`Protocol`, `Steps`, `Safety`, `Publications`, `Integrity`, `Accounting`,
  `Bookkeeping`). The server is a state machine whose steps are the sections of its handlers between
  two `await`s. Any number of requests interleave; a put may fail before or after its effect; a blob
  may be recorded after its session is gone; the server may restart at any moment. What each step
  does is written out, and invariants are proved for every run of any length.
- **Handlers and clients as code** (`Server`, `Client`). A class with the server's shared state whose
  methods are the handlers, and the client's `save` and `restore` loops. Each atomic section is
  proved to be one step of the machine, `Await` stands for any steps of others, and a ghost run
  records everything, so theorems about runs apply to what the methods return.
- **One whole save** (`Saves`). What is visible under a name is one client's save, and a restore
  that finishes has written that save and nothing else.
- **Stores** (`AbstractStore`, `FileStore`, `FsBackend`, `S3Backend`, `Streams`, `Naming`). The
  filesystem back end at the granularity of create, write, rename, open, read, unlink and crash,
  over names, inodes and bytes, refines an atomic map; the object store offers the same abstract
  operations.
- **Which object a name reaches** (`Naming`, `ObjectUrl`, `ObjectSharing`, `ObjectAlone`, `BlobText`,
  `Percent`):
  escaped names, what the URL parser makes of a key, and exactly when names are kept apart.
- **Stores under the protocol** (`Layers`, `FileServer`, `FileSaves`, `FileIntegrity`): each single operation of
  either back end against the step of the machine for that request; and, for files, whole
  histories: handler sections, file steps and crashes, in any order, are a run of the machine.
- **Archives** (`FileTree`, `Archive`, `Compression`, `Extract`, `ExtractLaws`, `RoundTrip`). Walk,
  header, capped decompression and the extraction loop over a local filesystem; the round trip
  with its exact conditions, and bounds for arbitrary input.
- **Paths and text** (`Paths`, `Manifests`, `ShellQuote`, `CanonicalQuery`, `FilterTree`).

## Assumptions

All are parameters or explicit hypotheses; no lemma rests on an unproved declaration.

- SHA-256 is a function `hash`. No theorem asks it to be free of collisions: where it matters, as in
  deduplication and in a restore, the bodies that occur (those uploaded in the run, or those that
  the saves archived and the restore fetched) are asked to have different hashes
  (`Protocol.CollisionFree`). In the server on files a hash is 64 hexadecimal digits; the step
  that looks for a blob's file asks for it (`FileServer.Step`).
- Where saves are taken to come from the command-line client (`Saves.ClientRun`), the map `saves`
  says which save each finish request ends.
- serde_json on headers and the compressors are functions; `Faithful` says that they read back what
  they write. Stored manifests are values: their JSON is taken to read
  back, on files by the hypothesis `FileServer.ReadsBack`.
- Session identifiers are new when drawn. A clash of temporary names counts as a failed put.
- The directories being saved do not change meanwhile. Local destinations hold no symlinks, every
  local file has one name (no second hard link), and a write of a local file succeeds in full or
  changes nothing. The resolution of a path of a request to a directory is a function.
- Text is a sequence of UTF-8 code units, so that lengths and positions are those of the code.
- The object store takes the path of a request, percent-decoded, for the object, and a query does
  not choose another one. Addressing is path-style: without it the URL has no scheme and every
  request fails.

## What holds for which names

The protocol keys manifests by their escaped names and keeps them apart from blobs. The filesystem
back end does so for all accepted names. By `FileServer.EveryHistoryIsARun` a history of the server
on files is a run of the protocol, and three results are stated for histories and files themselves:
`FileServer.FilesAreSafe` for `Safety.AlwaysSafe`, `FileSaves.NoMixingOnFiles` for `Saves.NoMixing`
and `FileIntegrity.ReferentialIntegrityOnFiles` for `Integrity.ReferentialIntegrity`. The object
store does so for exactly the names whose keys reach the objects they spell (`HarmlessName`,
`ObjectUrl.ManifestObjectExactly`); there `Layers` shows for single operations, on such names and on
digests, that they are steps of the machine. With other accepted keys the results fail there: `a#1`
and `a#2` are one object, and some keys reach blobs. Even a harmless name shares its object with
names that are not, unless its key is full (`ObjectAlone.SharedExactly`). That two names with
different escaped forms are kept apart does not yet say that different names are: a namespace and
key are alone with their escaped form exactly under `OwnName`.

## Where code and documentation differ

The code is followed. Namespaces are not isolated as `docs/security.md:57-62` says: `a/b` and `a__b`
share a directory, and in the object store keys can leave it. The gzip arm probes a reader that is
already exhausted, so it never reports overflow (`docs/security.md:48` says it does); the limit law
holds all the same. Manifest temporary files are `{key}.tmp.{uuid}`, not `{key}.json.tmp.{uuid}` as the comment at
`crates/ci-cache-backend-fs/src/backend.rs:8` says. A time to live of 2^63 seconds or more makes a
manifest expire at once. `save_finish` trusts the list of blobs it is sent.

## Model

| member | source | states |
|---|---|---|
| Saves.NoMixing | crates/ci-cache-cli/src/ops.rs:52-93 | with any number of clients saving under one name and anything else interleaved (deletions and restarts included), a restore that was given a manifest visible at some moment and finished has written exactly one published save: its trees, in order, for an accepted session of that type and object name, and for the very namespace and key asked for where these pass `OwnName`; no collision is excluded but among the bodies archived and fetched |
| Saves.VisibleIsOneSave | crates/ci-cache-server/src/api_rest.rs:28-52 | the manifest visible under a name at any moment is, paths and blobs, one client's finish request that took effect, with the namespace, key and type validated when its session started |
| Publications.PublishedWasSent | crates/ci-cache-server/src/api_rest.rs:50-52 | at every moment, each request whose manifest took effect, and each one being published, was sent before |
| Publications.ManifestsAreMade | crates/ci-cache-server/src/api_rest.rs:28-52 | at every moment, each visible manifest, and each being published, is in every field, its times included, what one earlier finish request made of its session as it then was |
| Publications.SavedLasts | crates/ci-cache-core/src/manifest.rs:112-157 | so a visible manifest lasts exactly for the time to live of its session, or the one configured, and one more second, from its finish request on |
| Saves.ItemsAreSaved | crates/ci-cache-cli/src/ops.rs:54-82 | unless a body fetched and one archived by the save have the same hash, bytes that pass the digest check and the compression found through `find_blob` are those of the save, path by path |
| Saves.UnpackedLands | crates/ci-cache-cli/src/ops.rs:84-86 | extracting the archives of a save one after the other overrides the local files by the saved trees, one after the other |
| Saves.LandedEach | crates/ci-cache-cli/src/ops.rs:52-93 | if the directories of the save do not contain each other, each ends with exactly the regular files archived for it on top of what it held |
| Saves.LandedElsewhere | crates/ci-cache-cli/src/ops.rs:52-93 | every local file that belongs to no path of the save is unchanged |
| Saves.StartsForExactly | crates/ci-cache-backend-fs/src/backend.rs:49-52 | only sessions for the very namespace and key asked for can answer a restore if and only if these pass `OwnName`: a condition on the names asked for alone |
| Client.Save | crates/ci-cache-cli/src/ops.rs:113-200 | its finish request is that of a whole save of the directories among the paths, names only blobs acknowledged in its own session, and on success has been published for the start request, and what it reports is what its session held; it fails only for a reason, stated after the paths handled before: a refused name, an unresolvable path, a directory too large to archive or upload, a session that is gone, or an event in which the store failed its own request |
| Client.UploadDirectory | crates/ci-cache-cli/src/ops.rs:148-187 | on success the path and blob reference are, in every field, those of an archive of the directory, and its upload was acknowledged; otherwise the tree or its archive is too large, the session is gone, or the store has failed this upload |
| Client.Finish | crates/ci-cache-cli/src/ops.rs:190-192 | the one finish event has these paths and blobs and keeps the discipline that referential integrity asks for; success means published, failure a session that is gone or a publication that failed |
| Client.Restore | crates/ci-cache-cli/src/ops.rs:20-102 | a miss changes no file and means that at some moment no manifest of that type, not expired, was stored under the name; on success the counts of bytes and files and the files themselves are those of the extractions done in order, and under client savers and sound libraries they are one published save restored; a failure has a cause, in the lookup or in the first path of the manifest found that was not restored, and leaves the files of the extractions before it |
| Client.RestorePaths | crates/ci-cache-cli/src/ops.rs:52-93 | the loop restores every path of the manifest in order, or stops at the first one that does not resolve, whose blob is not listed, has an unknown compression, cannot be fetched or does not hash to its digest, or whose bytes do not extract |
| Client.RestorePath | crates/ci-cache-cli/src/ops.rs:72-86 | on success the bytes hash to the digest and files and entry count are those of extracting them; it fails only if the blob was absent, did not hash to the digest or was failed by the store, and then changes nothing, or if extracting bytes of that digest failed |
| Server.CacheServer.SaveStart | crates/ci-cache-server/src/api_save.rs:19-37 | a session is created, as one step of the machine, if and only if the namespace has 1 to 253 characters, each a letter, a digit or one of `-_./`, and the key 1 to 1024 and no two dots in a row; all other pairs are refused |
| Server.CacheServer.SaveBlob | crates/ci-cache-server/src/api_save.rs:46-139 | each refusal exactly under its condition and without effect; success is acknowledged with the size of the body, and the deduplication answer was true of the store at some moment; anything else has met a failing store in this request |
| Server.CacheServer.Keep | crates/ci-cache-server/src/api_save.rs:85-139 | what follows on the checks ends acknowledged or with an event in which the store failed |
| Server.CacheServer.Begin | crates/ci-cache-server/src/api_save.rs:51-82 | an acceptable upload enters as one step |
| Server.CacheServer.Store | crates/ci-cache-server/src/api_save.rs:97-112 | put and counter, in that order, or a failed put |
| Server.CacheServer.Count | crates/ci-cache-server/src/api_save.rs:105-107 | the upload counter as one step |
| Server.CacheServer.Snapshot | crates/ci-cache-server/src/api_rest.rs:19-48 | the manifest from a copy of the session and the request, as one step |
| Server.CacheServer.Ask | crates/ci-cache-server/src/api.rs:38-46 | the request counter and the validation as one step |
| Server.CacheServer.FindManifest | crates/ci-cache-server/src/api.rs:48 | what is stored under the name at that moment, as one step, or a failure |
| Server.CacheServer.Check | crates/ci-cache-server/src/api_save.rs:85-96 | the deduplication check as one step, with its counters |
| Server.CacheServer.Put | crates/ci-cache-server/src/api_save.rs:104-111 | a put kept, written, refused, or written with its answer lost, as one step of the machine |
| Server.CacheServer.Record | crates/ci-cache-server/src/session.rs:66-80 | recording as one step; no effect on a session that is gone |
| Server.CacheServer.SaveFinish | crates/ci-cache-server/src/api_rest.rs:15-70 | unknown sessions change nothing; on success the manifest visible under the session's name at some moment is in every field what the request makes of the session, both its times that of the request, the session is gone, and the totals reported are the session's; otherwise the publication failed |
| Server.CacheServer.Publish | crates/ci-cache-server/src/api_rest.rs:50-68 | publication as one step; success means the manifest is stored under its name |
| Server.CacheServer.Remove | crates/ci-cache-server/src/api_rest.rs:52 | the session is gone, as one step |
| Server.CacheServer.Restore | crates/ci-cache-server/src/api.rs:34-94 | a hit is a manifest stored under that name while the request was served, of that type and not expired; a miss means that at some moment none was stored there, or one of another type or expired; a failure, that a read failed; so a usable one stored all the while, with no failing read, is found |
| Server.CacheServer.Decide | crates/ci-cache-server/src/api.rs:48-92 | found if and only if something was, of the type asked for and not expired; a failure exactly where the read failed; with its counters, as one step of the machine |
| Server.CacheServer.GetBlob | crates/ci-cache-server/src/api_rest.rs:72-92 | what is fetched under a digest was stored under it while the request was served, what is not found was not, and a failure is one of the store in this request; any other text may fetch some other file |
| Server.CacheServer.FindBlob | crates/ci-cache-server/src/api_rest.rs:76 | what is stored under the digest at that moment, as one step |
| Server.CacheServer.Answer | crates/ci-cache-server/src/api_rest.rs:77-91 | the answer to what was found, or a failure, with its counters, as one step |
| Server.CacheServer.AnswerOther | crates/ci-cache-server/src/api_rest.rs:72-92 | for a text that is no digest, some data, none or a failure, as one step |
| Server.CacheServer.DeleteBlob | crates/ci-cache-server/src/api_rest.rs:94-102 | succeeds exactly where the back end does; then, on a digest, the blob is absent; failure may come before or after the effect; any other text removes at most one blob or manifest |
| Server.CacheServer.DeleteManifest | crates/ci-cache-server/src/api_rest.rs:154-162 | invalid names are refused without effect where the back end checks them, and otherwise it succeeds exactly where the back end does; success means the manifest is absent; failure may come before or after the effect |
| Server.CacheServer.Restart | crates/ci-cache-server/src/session.rs:50-55 | a restart loses sessions, requests and counters and keeps the store, as one step |
| Safety.NextKeeps | crates/ci-cache-server/src/api_save.rs:46-139 | every step of every handler keeps: content addressing, manifests made by one published request for a validated name, session totals, and what requests in flight know |
| Safety.AlwaysSafe | crates/ci-cache-server/src/session.rs:66-80 | in every reachable state, with deletions, racing requests and restarts: stored bytes hash to their names, every manifest is of its own session's validated start request, and uploaded plus deduplicated bytes equal the recorded sizes |
| Safety.RunGrows | crates/ci-cache-server/src/api_save.rs:124-127 | sessions issued, uploads acknowledged and requests published are never forgotten along a run |
| Safety.RunKnown | crates/ci-cache-server/src/api_save.rs:72-112 | every stored body, and every body on its way to the store, was brought by an accepted upload of the run |
| Integrity.ReferentialIntegrity | crates/ci-cache-server/src/api_rest.rs:28-52 | the corollary for clients that name only blobs acknowledged in their own session, or none: every reference of every visible manifest is backed by stored bytes of that digest and size, at every moment of every run without deletions |
| Integrity.ReferentialIntegrityExactly | crates/ci-cache-server/src/api_rest.rs:28-52 | the exact law: without deletions, all visible manifests are backed at every moment if and only if each publication that takes effect for a request listing blobs lists only blobs then stored under that digest with that size |
| Integrity.NextBacked | crates/ci-cache-server/src/api_save.rs:85-127 | every step that deletes no blob and publishes no unstored one keeps all references backed: manifests, sessions, publications in flight and acknowledged uploads |
| Integrity.PublishNeedsStored | crates/ci-cache-server/src/api_rest.rs:50-52 | a publication that lists a blob not stored leaves a visible manifest that is not backed |
| Integrity.PutIncludes | crates/ci-cache-server/src/api_save.rs:72-104 | a body put under its verified digest changes no stored object, in the gap between check and write too, where no two bodies uploaded have one hash |
| Integrity.UnacknowledgedDangles | crates/ci-cache-server/src/api_rest.rs:29-33 | the server does not check the list: a run in which a request naming a blob never uploaded makes a dangling manifest visible |
| Accounting.StoredBytes | crates/ci-cache-server/src/api_save.rs:85-113 | over one server lifetime without deletions, from whatever it finds stored: stored bytes plus bytes put twice equal bytes found, counted, pending and lost, over all interleavings; so stored bytes are bounded, with equality when requests run one at a time |
| Accounting.NextBalanced | crates/ci-cache-server/src/api_save.rs:104-113 | every step keeps that balance |
| Accounting.RunNothingAgain | crates/ci-cache-server/src/api_save.rs:85-98 | when requests run one at a time nothing is put twice |
| Accounting.RestoresCounted | crates/ci-cache-server/src/api.rs:38-92 | restore requests since the last start equal hits, misses, failures, refusals and those under way, at every moment of every run |
| Bookkeeping.CountersExactly | crates/ci-cache-server/src/api.rs:38-92 | at every moment of every run each of the eight counters is the number of the events since the server started that it counts, or the sum of their sizes |
| Bookkeeping.SessionsHoldEntries | crates/ci-cache-server/src/session.rs:66-80 | at every moment a session holds one note of each upload recorded into it since it was created, in order, with digest, compression, sizes, back end and location, and as its totals the bytes of those that were new and of those that were there |
| Steps.PossibleExactly | crates/ci-cache-server/src/api_save.rs:46-139 | when each action of the machine is possible, written out: no request is refused but for the reasons the handlers give |
| Steps.StoreExactly | crates/ci-cache-server/src/api_save.rs:98-113 | only puts that take effect and deletions change the store: exactly their own object, to exactly that body or manifest |
| Steps.CallsExactly | crates/ci-cache-server/src/api_rest.rs:15-92 | where each action leaves its own request, and that it moves no other |
| Steps.NeverStuck | crates/ci-cache-server/src/api.rs:34-94 | a request that is not over can always go on, whether the store then fails or not |
| Layers.PutIsProtocolStep | crates/ci-cache-server/src/api_save.rs:104-111 | the outcomes of an abstract put on the digest map are exactly those the protocol machine allows, with the same answer |
| FileServer.EveryHistoryIsARun | crates/ci-cache-server/src/api_save.rs:46-139 | every history of handler sections, file steps and crashes is, event by event, a run of the protocol machine: after each event memory, counters and requests agree, blobs and manifests are what the files mean, and each section is that action of the machine |
| FileServer.EventFollows | crates/ci-cache-server/src/api_rest.rs:15-92 | each event of the server on files is one action of the machine, or none |
| FileServer.FileFollows | crates/ci-cache-backend-fs/src/backend.rs:70-185 | a file step is the step of the machine for the request that waits for it, when the operation takes effect or finds what it reads, and otherwise nothing to it |
| FileServer.ResumeFollows | crates/ci-cache-server/src/api.rs:48-92 | a handler that goes on when told takes exactly the step of the machine for the answer it got, also for a read that failed after it had found its file |
| FileServer.LookFollows | crates/ci-cache-server/src/api_save.rs:85-96 | the look for a blob's file, and the section after it, are the check of the machine |
| FileServer.StopFollows | crates/ci-cache-server/src/session.rs:50-55 | a crash at any moment, with file operations in any state, is a restart of the machine |
| FileServer.AnyoneMayBegin | crates/ci-cache-server/src/api_save.rs:19-84 | in the server on files, whoever the machine would let begin may begin, every blob and every manifest of a valid name may be deleted, and the server may stop |
| FileServer.RequestGoesOn | crates/ci-cache-server/src/api_save.rs:85-139 | no handler is stuck in the server on files: whatever it has to do next, it can |
| FileServer.WaitingGoesOn | crates/ci-cache-backend-fs/src/backend.rs:70-185 | a handler that waits goes on once its file operation is over, and until then every step of that operation is possible |
| FileServer.FilesAreSafe | crates/ci-cache-backend-fs/src/backend.rs:41-185 | so in every such history a blob file hashes to its name, and a manifest file holds the text of a manifest of that name, accepted when its session started |
| FileSaves.FileHoldsOneSave | crates/ci-cache-cli/src/ops.rs:133-192 | and when all saves come from clients, the file of a manifest holds the text of one client's whole save for its own session |
| FileSaves.NoMixingOnFiles | crates/ci-cache-cli/src/ops.rs:52-93 | no mixing for histories on files: a restore that was given what a manifest's file held at some moment, between any file steps and crashes, and finished has written exactly one save published in the run that mirrors the history |
| FileIntegrity.ReferentialIntegrityOnFiles | crates/ci-cache-server/src/api_rest.rs:28-52 | referential integrity for histories on files: while no blob's file is unlinked and finish requests list only what their session had acknowledged, each blob that the text in a manifest's file refers to, and each upload acknowledged, has its file with the bytes of that digest and size |
| Layers.FilePutIsStep | crates/ci-cache-backend-fs/src/backend.rs:70-114 | a step of the file store that decides the put of an upload, on files that back the state of the machine, is a `PutBlob` step with the same answer, and the files after it back the state after it |
| Layers.FilePublishIsStep | crates/ci-cache-backend-fs/src/backend.rs:148-159 | one that decides the put of a manifest is a `PublishManifest` step |
| Layers.FileCheckIsStep | crates/ci-cache-backend-fs/src/backend.rs:135-137 | looking for a blob's file decides as the `CheckBlob` step |
| Layers.FileReadManifestIsStep | crates/ci-cache-backend-fs/src/backend.rs:161-176 | the step of a read that finds a manifest, or none, is a `ReadManifest` step, when the file is opened; a read that fails, before or after that, leaves the store alone |
| Layers.FileReadBlobIsStep | crates/ci-cache-backend-fs/src/backend.rs:127-133 | the same for a blob and `ReadBlob` |
| Layers.FileDeleteIsStep | crates/ci-cache-backend-fs/src/backend.rs:139-185 | one that decides a deletion is that deletion, or nothing where it failed |
| Layers.EmptyBacks | crates/ci-cache-backend-fs/src/backend.rs:32-39 | an empty store backs a server just set up |
| Layers.BucketPutIsStep | crates/ci-cache-backend-s3/src/impl_cache.rs:20-39 | what the bucket makes of the put of a digest is a `PutBlob` step |
| Layers.BucketPublishIsStep | crates/ci-cache-backend-s3/src/impl_cache.rs:85-99 | what it makes of the put of a manifest with a harmless name is a `PublishManifest` step |
| Layers.BucketReadManifestIsStep | crates/ci-cache-backend-s3/src/impl_cache.rs:101-117 | what it answers for a harmless name is a `ReadManifest` step, or a failure the machine allows |
| Layers.BucketReadBlobIsStep | crates/ci-cache-backend-s3/src/impl_cache.rs:41-57 | what it answers for a digest is a `ReadBlob` step, or such a failure |
| Layers.BucketCheckIsStep | crates/ci-cache-backend-s3/src/impl_cache.rs:59-71 | its HEAD answer for a digest is the `CheckBlob` step |
| Layers.BucketDeleteIsStep | crates/ci-cache-backend-s3/src/impl_cache.rs:73-83 | a deletion of a digest or a harmless name is that deletion, or nothing where it failed |
| Layers.FilesApart | crates/ci-cache-backend-fs/src/backend.rs:41-53 | file names keep blobs and manifests apart, whatever the names |
| Layers.ObjectsApart | crates/ci-cache-backend-s3/src/backend.rs:55-63 | so do the objects that keys spell |
| Layers.CrossedKeys | crates/ci-cache-backend-s3/src/backend.rs:43-72 | after a put for `a#1`, a read for `a#2` finds it |
| Layers.OverwrittenBlob | crates/ci-cache-backend-s3/src/backend.rs:43-72 | a successful put of a manifest with a climbing key leaves its text as the blob, whatever was there |
| Layers.Addresses | crates/ci-cache-backend-s3/src/backend.rs:43-72 | requests for digests and harmless names go to the objects their keys spell |
| FileStore.NextInv | crates/ci-cache-backend-fs/src/backend.rs:70-114 | every file step keeps: final names hold published bytes, a temporary file belongs to one writer and holds what it has written, readers hold published bytes |
| FileStore.NeverStuck | crates/ci-cache-backend-fs/src/backend.rs:70-185 | a file operation under way can always take its next step, unless its stream has broken, and can always fail |
| FileStore.PossibleExactly | crates/ci-cache-backend-fs/src/backend.rs:70-185 | when each file step is possible, written out |
| FileStore.NextRefines | crates/ci-cache-backend-fs/src/backend.rs:70-185 | every file step is invisible or is one atomic step of its operation on the map of final names; a read that has found its file may still fail |
| FileStore.RunRefines | crates/ci-cache-backend-fs/src/backend.rs:70-185 | every run of file steps, crashes included, is a run of the atomic store |
| FileStore.SettledFrozen | crates/ci-cache-backend-fs/src/backend.rs:100-106 | no step changes a file that a final name points to or that a reader has open |
| FileStore.ReadsOneWholePut | crates/ci-cache-backend-fs/src/backend.rs:161-176 | a completed read returns the whole payload of one put to that path that was renamed into place, whatever happened meanwhile |
| FileStore.FinalFilesComplete | crates/ci-cache-backend-fs/src/backend.rs:87-106 | a file under a final name is the whole payload of one put to that name that was renamed into place |
| FileStore.BlobFilesHashToName | crates/ci-cache-backend-fs/src/backend.rs:70-133 | when callers verify digests, every blob file and everything read from one hashes to its name |
| FileStore.ManifestsIndependent | crates/ci-cache-backend-fs/src/backend.rs:148-185 | requests for other accepted names leave a manifest's file alone if and only if its own namespace and key pass `OwnName` |
| FileStore.UnambiguousIndependent | crates/ci-cache-backend-fs/src/backend.rs:148-185 | two names that can be read back from their escaped forms leave each other's files alone |
| FileStore.FileOperations | crates/ci-cache-backend-fs/src/backend.rs:77-185 | every decided call is the abstract operation of its kind: blobs kept, manifests replaced, reads of the object of that moment, deletions |
| AbstractStore.SuccessfulPut | crates/ci-cache-core/src/backend.rs:48-55 | where bytes hash to the name, and what is there is not another body of the same hash, keeping and overwriting leave the same store, still content addressed |
| FsBackend.Backend.PutBlob | crates/ci-cache-backend-fs/src/backend.rs:70-114 | success: the path held a whole object of the size reported at some moment; failure: the stream was broken, the system gave this operation an error, or the file found had gone |
| FsBackend.Backend.WriteAll | crates/ci-cache-backend-fs/src/backend.rs:90-96 | all chunks go to the temporary file, in whatever pieces the kernel takes, and the total is the payload length; a broken stream ends the put |
| FsBackend.Backend.WriteAndRename | crates/ci-cache-backend-fs/src/backend.rs:88-113 | on success the stream was whole, the size is its payload's, and the object stood under its name |
| FsBackend.Backend.Exists | crates/ci-cache-backend-fs/src/backend.rs:78 | one step; a blob already there is measured, not written |
| FsBackend.Backend.FileLength | crates/ci-cache-backend-fs/src/backend.rs:79-84 | the length reported is that of the object then stored under the name |
| FsBackend.Backend.CreateTemp | crates/ci-cache-backend-fs/src/backend.rs:88-89 | a new temporary file, or a failed put, as one step |
| FsBackend.Backend.WriteSome | crates/ci-cache-backend-fs/src/backend.rs:94 | some bytes of the chunk, or a failed put, as one step |
| FsBackend.Backend.RemoveTemp | crates/ci-cache-backend-fs/src/backend.rs:102-105 | the cleaner spawned after a failed rename removes the temporary file |
| FsBackend.Backend.OpenFile | crates/ci-cache-backend-fs/src/backend.rs:129 | one step: a file, none, or an error; from here on the answer of the read is fixed |
| FsBackend.Backend.ReadSome | crates/ci-cache-backend-fs/src/backend.rs:131 | the next bytes of the open file, its end exactly at its length, or an error |
| FsBackend.Backend.ReadFile | crates/ci-cache-backend-fs/src/backend.rs:127-133 | absent, or the whole payload of one put to that path |
| FsBackend.Backend.RemoveFile | crates/ci-cache-backend-fs/src/backend.rs:141-145 | one step; after success the name means nothing |
| FsBackend.Backend.RenameFile | crates/ci-cache-backend-fs/src/backend.rs:100-106 | a rename publishes exactly the payload; a failed one leaves the temporary file to a cleaner for blobs only |
| FsBackend.Backend.PutManifest | crates/ci-cache-backend-fs/src/backend.rs:148-159 | invalid names touch nothing; success: the text was in place, whole, at some moment; failure: an invalid name or an error of the system |
| FsBackend.Backend.ReadToEnd | crates/ci-cache-backend-fs/src/backend.rs:127-133 | the pieces read while others replace or remove the name add up to the file as it was when opened |
| FsBackend.Backend.GetManifest | crates/ci-cache-backend-fs/src/backend.rs:161-176 | success yields the whole text of one put, or none, and then there was no file at some moment; failure: an invalid name or an error of the system |
| FsBackend.Backend.GetBlobBytes | crates/ci-cache-backend-fs/src/backend.rs:127-133 | the whole payload of one put under that digest, or none, and then there was no file at some moment; failure is an error of the system |
| FsBackend.Backend.HasBlob | crates/ci-cache-backend-fs/src/backend.rs:135-137 | whether the store holds the digest at that moment |
| FsBackend.Backend.DeleteFile | crates/ci-cache-backend-fs/src/backend.rs:139-146 | after success the name was absent; removing what is absent succeeds |
| FsBackend.OpenFileFrozen | crates/ci-cache-backend-fs/src/backend.rs:127-133 | a file held open is the same after any steps of others |
| S3Backend.Bucket.PutBlob | crates/ci-cache-backend-s3/src/impl_cache.rs:20-39 | a broken stream is never sent and changes nothing, a whole one is sent in one request, and the put succeeds exactly if that does; a failure may follow the effect |
| S3Backend.Bucket.PutManifest | crates/ci-cache-backend-s3/src/impl_cache.rs:85-99 | a replacing put at the object the key reaches, for any names |
| S3Backend.Bucket.GetObject | crates/ci-cache-backend-s3/src/impl_cache.rs:41-57 | the object the key reaches, its absence, or a failure |
| S3Backend.Bucket.DeleteObject | crates/ci-cache-backend-s3/src/impl_cache.rs:73-83 | success means the object the key reaches is absent; failure may come before or after the effect |
| S3Backend.SameNames | crates/ci-cache-backend-s3/src/backend.rs:55-63 | both back ends spell the names of blobs and manifests alike |
| ObjectUrl.ObjectIsKeyExactly | crates/ci-cache-backend-s3/src/backend.rs:43-72 | a request reaches the object its key spells if and only if the key has no tab, line end, hash, question mark or backslash, no percent sign before two digits and no dot segment |
| ObjectUrl.ManifestObjectExactly | crates/ci-cache-backend-s3/src/backend.rs:59-72 | for accepted names: if and only if the namespace is not `.` or `..` and the key has none of those characters and triples (`HarmlessName`) |
| ObjectUrl.BlobObject | crates/ci-cache-backend-s3/src/backend.rs:55-57 | always so for digests |
| ObjectSharing.HarmlessNamesApart | crates/ci-cache-backend-s3/src/backend.rs:43-72 | harmless names share an object if and only if their escaped names agree, and never a blob's |
| ObjectSharing.ManifestKeysDistinct | crates/ci-cache-backend-s3/src/backend.rs:55-63 | two manifests have one key exactly when their escaped names agree, and none has a blob's |
| ObjectSharing.HashKeysShare | crates/ci-cache-backend-s3/src/backend.rs:43-72 | the accepted keys `a#1` and `a#2`, with different escaped names that no other accepted name has, share one object |
| ObjectAlone.SharedExactly | crates/ci-cache-backend-s3/src/backend.rs:43-72 | the exact law, for accepted names without backslash and encoded byte outside the namespaces `.` and `..`: another accepted one, of different escaped name, has the same object if and only if the key has a tab, line end, hash or question mark, or is shorter than the limit when its pairs of underscores are written as slashes |
| ObjectAlone.RoomIsShared | crates/ci-cache-backend-s3/src/backend.rs:43-72 | and for every accepted name: a key that is shorter than the limit in this sense is never alone |
| ObjectAlone.FullIsAlone | crates/ci-cache-backend-s3/src/backend.rs:43-72 | a harmless name with a full key has its object to itself among all accepted names, harmless or not |
| ObjectAlone.LastSegment | crates/ci-cache-backend-s3/src/backend.rs:55-72 | the last segment that a manifest key is addressed to is its file name, or in its shortest form shorter, whatever is dropped, cut, resolved or decoded |
| ObjectSharing.KeyReachesBlob | crates/ci-cache-backend-s3/src/backend.rs:43-72 | for every digest there is an accepted key whose manifest is addressed to that blob |
| ObjectSharing.NoMarkNoBlob | crates/ci-cache-backend-s3/src/backend.rs:43-72 | a key without hash and question mark never reaches a blob |
| Percent.DecodeEncoded | crates/ci-cache-backend-s3/src/backend.rs:71-72 | decoding what the URL parser encoded gives the decoding of the key itself |
| ObjectUrl.DotPieceExactly | crates/ci-cache-backend-s3/src/backend.rs:43-72 | which segments of a key the URL parser takes for a directory, with dots encoded or not |
| BlobText.BlobTextExactly | crates/ci-cache-backend-fs/src/backend.rs:41-43 | on files, a text leads to the file of that name in the directory of blobs if and only if it is a plain name: not empty, without slash, and neither `.` nor `..` |
| BlobText.BlobTextStaysExactly | crates/ci-cache-backend-fs/src/backend.rs:41-43 | a text leads in or under the directory of blobs if and only if it names again every directory that it leaves: those it climbs out of, or all if it is absolute or climbs to the root |
| BlobText.AbsoluteTextReaches | crates/ci-cache-backend-fs/src/backend.rs:41-43 | an absolute text replaces the directory: each file of the machine is reached by one |
| BlobText.DigestStays | crates/ci-cache-backend-fs/src/backend.rs:41-43 | in particular a digest leads to its own file below the directory of blobs |
| BlobText.OtherTextLeaves | crates/ci-cache-backend-fs/src/backend.rs:41-53 | for every name there is a relative text that leads to whatever its manifest path names, and outside the namespaces `.` and `..` that is the file of the name |
| Naming.EscapeInvertible | crates/ci-cache-backend-fs/src/backend.rs:49-51 | the escaped form can be read back if and only if no underscore is followed by an underscore or a slash |
| Naming.AmbiguousNamesCollide | crates/ci-cache-backend-fs/src/backend.rs:49-51 | every other name shares its escaped form with a different one, and an accepted name with a different accepted one |
| Naming.ManifestPathsDistinct | crates/ci-cache-backend-fs/src/backend.rs:45-53 | an accepted namespace and key have their manifest file to themselves among all names if and only if they pass `OwnName` |
| Naming.OwnNameExactly | crates/ci-cache-backend-fs/src/backend.rs:45-53 | no other accepted pair has the same escaped names if and only if neither part has a double underscore, nor a slash unless it is of the greatest length accepted and has no underscore next to one |
| Naming.ValidNameExactly | crates/ci-cache-core/src/paths.rs:77-107 | exactly which namespaces and keys are accepted, in literals |
| Naming.AloneExactly | crates/ci-cache-backend-fs/src/backend.rs:49-51 | among all texts: if and only if the name has neither a slash nor a double underscore |
| Naming.SlashAndUnderscores | crates/ci-cache-backend-fs/src/backend.rs:45-53 | for example `a/b` and `a__b`, both accepted, with one file for every key |
| Naming.UnambiguousPathsDistinct | crates/ci-cache-backend-fs/src/backend.rs:45-53 | two different names that can be read back have different files |
| Naming.TempNeverFinal | crates/ci-cache-backend-fs/src/backend.rs:88 | a temporary name is never a final name |
| Naming.TempNamesDistinct | crates/ci-cache-backend-fs/src/backend.rs:88 | temporary names of different identifiers differ, whatever they stand for |
| Naming.ManifestTempName | crates/ci-cache-backend-fs/src/backend.rs:155 | the temporary name replaces the extension (the layout comment at lines 7-8 says it is appended) |
| Naming.FilesSpelled | crates/ci-cache-backend-fs/src/backend.rs:41-53 | the paths of blobs and manifests below the root, and the temporary name of a blob, in literals |
| Naming.StemExactly | crates/ci-cache-backend-fs/src/backend.rs:88 | `with_extension` replaces what follows the last dot, unless there is none or it comes first |
| RoundTrip.ExtractCreatedExactly | crates/ci-cache-core/src/archive_ops.rs:12-64 | archiving a portable tree and extracting it succeeds if and only if the destination is compatible and the limit is at least header length plus tree bytes, for all three compressions, and then the destination is overridden by exactly the regular files of the tree |
| RoundTrip.RoundTripExactly | crates/ci-cache-core/src/paths.rs:55-65 | into a fresh destination it delivers the tree if and only if no entry has a backslash or a colon as second byte and the limit suffices |
| RoundTrip.LowLimitFails | crates/ci-cache-core/src/compression.rs:74-95 | below that limit extraction fails, gzip included, whose truncated output the header or the bounds reject |
| RoundTrip.SuccessNeedsCompatible | crates/ci-cache-core/src/archive_ops.rs:48-51 | success shows that no file stood where a folder was needed nor a folder where a file went |
| ExtractLaws.UnpackWritesPrefix | crates/ci-cache-core/src/archive_ops.rs:33-61 | the loop writes exactly the entries before the first one it refuses, in order, later duplicates winning, and reports why it refused that one |
| ExtractLaws.FaultExactly | crates/ci-cache-core/src/archive_ops.rs:33-51 | exactly when an entry stops the loop, and which error comes first |
| ExtractLaws.PlannedIsOneStretch | crates/ci-cache-core/src/archive_ops.rs:33-43 | the contents written are one consecutive stretch of the decompressed data |
| ExtractLaws.AnyBlobBounded | crates/ci-cache-core/src/archive_ops.rs:18-61 | for every input: at most limit minus header length bytes are written whatever total the header claims, and success means every entry was written |
| ExtractLaws.ExtractionContained | crates/ci-cache-core/src/archive_ops.rs:45-51 | for every input nothing outside the destination changes, but for folders made on the way to it |
| ExtractLaws.WrappedSliceEndsBeforeStart | crates/ci-cache-core/src/archive_ops.rs:35-42 | where the sum wraps around, the slice would end before it starts, so the panic of the model is that of the code in any build |
| Extract.ExtractEntry | crates/ci-cache-core/src/archive_ops.rs:35-51 | one turn of the loop writes the entry with the folders it needs, or changes nothing and gives the first reason that applies |
| Extract.ExtractArchive | crates/ci-cache-core/src/archive_ops.rs:12-64 | leaves the files and the outcome that the functional form says, for every blob and limit, and a well-formed tree |
| Archive.CreateArchive | crates/ci-cache-core/src/archive.rs:56-88 | the archive of the files walked, each once, or the size error |
| Archive.TooLargeExactly | crates/ci-cache-core/src/archive.rs:59-70 | it is too large exactly when the bytes of the tree, counted recursively, exceed the limit, in whatever order they are met |
| Archive.ListedExactly | crates/ci-cache-core/src/archive.rs:56-88 | the header lists each file walked with its path, length and mode, and the total; the bodies follow it |
| Archive.HeaderRoundTrip | crates/ci-cache-core/src/archive.rs:28-53 | the header reads back with its length, whatever follows it, if and only if its JSON is shorter than 2^32 bytes |
| Archive.FormatExactly | crates/ci-cache-core/src/archive.rs:38-53 | for every input: it is read exactly if it starts with "CIC1", has the length it announces, most significant byte first, and JSON that parses; otherwise which error, in which order |
| Archive.WrittenExactly | crates/ci-cache-core/src/archive.rs:28-36 | what is written starts with those bytes and that length, modulo 2^32, followed by the JSON |
| Archive.PrefixParses | crates/ci-cache-core/src/archive.rs:38-53 | how any prefix of an archive parses |
| FileTree.WalkFiles | crates/ci-cache-core/src/archive_ops.rs:90-114 | the walk with its explicit stack ends and finds the files of the recursive definition, each as often |
| FileTree.FilesInExact | crates/ci-cache-core/src/archive_ops.rs:103-110 | that definition lists each regular file reachable without a symlink exactly once and nothing else |
| Compression.Decompress | crates/ci-cache-core/src/compression.rs:48-97 | refines the functional form, however decoders cut up their output |
| Compression.DecompressedExactly | crates/ci-cache-core/src/compression.rs:48-97 | for every decoder output and limit: the whole output, the error with its sizes, or for gzip the first bytes up to the limit; also where the decoder ends in an error |
| Compression.DecompressedIsPrefix | crates/ci-cache-core/src/compression.rs:48-97 | success yields a prefix of the true output within the limit |
| Compression.GzipNeverReportsBomb | crates/ci-cache-core/src/compression.rs:87-93 | the probe for overflow never finds any (docs/security.md:48 promises detection) |
| Compression.CapacityLimit.Write | crates/ci-cache-core/src/compression.rs:119-131 | takes all or nothing and never holds more than the limit |
| Compression.ParsesOwnName | crates/ci-cache-core/src/compression.rs:17-32 | the name written into a manifest reads back |
| Compression.ParseExactly | crates/ci-cache-core/src/compression.rs:17-32 | which texts name which compression, in any mix of cases, and that no other is accepted |
| Streams.CollectStreamCapped | crates/ci-cache-core/src/backend.rs:91-106 | refines the functional form |
| Streams.CollectedExactly | crates/ci-cache-core/src/backend.rs:91-106 | the concatenation if and only if the stream is whole and fits, for every chunking; the errors exactly otherwise |
| Streams.DefaultGetBlobBytesAgrees | crates/ci-cache-core/src/backend.rs:62-65 | the default agrees with the override exactly up to 2 GiB |
| Paths.NormalizePath | crates/ci-cache-core/src/paths.rs:38-52 | the push and pop loop computes the functional form, as components and as text |
| Paths.NormalizeClosedForm | crates/ci-cache-core/src/paths.rs:38-52 | the root is kept, one `..` exactly when an odd number of climbs cancels nothing, and the surviving names |
| Paths.NormalizeReachesNormalForm | crates/ci-cache-core/src/paths.rs:38-52 | every result is optional root, at most one `..`, plain names |
| Paths.NormalizeIdempotent | crates/ci-cache-core/src/paths.rs:38-52 | normalizing again changes nothing |
| Paths.NormalizeJoin | crates/ci-cache-core/src/paths.rs:38-52 | normalizing a prefix first changes nothing |
| Paths.NormalizeTextJoin | crates/ci-cache-core/src/paths.rs:38-52 | on path text: normalize(p joined q) = normalize(normalize(p) joined q) for every relative q, the empty normalized p included |
| Paths.NormalizeTextIdempotent | crates/ci-cache-core/src/paths.rs:38-52 | on path text, normalizing again changes nothing |
| Paths.NormalizeTextReadsBack | crates/ci-cache-core/src/paths.rs:38-52 | the text of a result reads back as its components |
| Paths.EnsureWithinExact | crates/ci-cache-core/src/paths.rs:55-74 | exactly which candidates are accepted, and the result |
| Paths.EnsureWithinContains | crates/ci-cache-core/src/paths.rs:55-74 | an accepted candidate is the base followed by plain names |
| Paths.NeverClimbingAccepted | crates/ci-cache-core/src/paths.rs:55-74 | every candidate that passes the guards and never climbs above the base is accepted and cleaned |
| Paths.ClimbingBackAccepted | crates/ci-cache-core/src/paths.rs:55-74 | what counts is where a candidate lands: climbing out and back in by name is accepted |
| Paths.SafeTargetExact | crates/ci-cache-core/src/archive_ops.rs:66-87 | the second check refuses in addition exactly what lands on a proper base itself, whether or not the parent exists |
| Manifests.FindBlob | crates/ci-cache-core/src/manifest.rs:133-135 | the first reference with the digest, none exactly when there is none |
| Manifests.TotalSizeSplits | crates/ci-cache-core/src/manifest.rs:137-140 | the compressed sizes are summed, each once |
| Manifests.ExpiredExactly | crates/ci-cache-core/src/manifest.rs:149-157 | expiry exactly when the time to live and one more second are over; a time to live of 2^63 seconds or more counts as negative |
| Manifests.ExpiryIsFinal | crates/ci-cache-core/src/manifest.rs:149-157 | expired stays expired |
| ShellQuote.QuotedReadsBack | crates/ci-cache-cli/src/main.rs:571-573 | for every value and following text, the shell reads exactly the value, is then outside quotes and goes on with the text |
| ShellQuote.QuotedIsOneWord | crates/ci-cache-cli/src/main.rs:571-573 | before a separator or the end it is one whole word |
| ShellQuote.QuotedInjective | crates/ci-cache-cli/src/main.rs:571-573 | different values are quoted differently |
| ShellQuote.QuotedIsWritten | crates/ci-cache-cli/src/main.rs:571-573 | between single quotes, each quote inside as four characters, all else as it is |
| CanonicalQuery.SameStringExactly | crates/ci-cache-backend-s3/src/signing.rs:23-41 | two lists of pairs have the same string if and only if they are permutations of each other |
| CanonicalQuery.ReadsBackSorted | crates/ci-cache-backend-s3/src/signing.rs:23-41 | splitting and percent-decoding returns the sorted pairs |
| CanonicalQuery.SortedUnique | crates/ci-cache-backend-s3/src/signing.rs:30 | there is only one sorted arrangement |
| CanonicalQuery.QueryAscends | crates/ci-cache-backend-s3/src/signing.rs:23-41 | the pairs of the string stand in ascending order of their bytes, by key and then by value |
| CanonicalQuery.EncodeExactly | crates/ci-cache-backend-s3/src/signing.rs:33-37 | byte by byte: letters and digits as they are, any other byte as a percent sign and two upper-case hexadecimal digits |
| CanonicalQuery.QueryIsWritten | crates/ci-cache-backend-s3/src/signing.rs:31-40 | how a pair is written and how pairs are joined, the smaller one first |
| Percent.DecodeEncode | crates/ci-cache-backend-s3/src/signing.rs:34-38 | percent-decoding undoes an encoding that leaves no percent sign |
| FilterTree.SameTextExactly | crates/ci-cache-cli/src/keygen.rs:175-189 | equal output if and only if equal retained lines |
| FilterTree.FilterExactly | crates/ci-cache-cli/src/keygen.rs:175-194 | for every text the output is exactly those of its lines, in order and as often as they occur, that have no tab or whose path behind the first tab equals no exact exclude, starts with no prefix exclude, and is not below `api/` with the ending `.md`, `.test.ts` or `.spec.ts` |
| FilterTree.LinesExactly | crates/ci-cache-cli/src/keygen.rs:176 | what the lines of a text are: it is cut at line feeds, one carriage return before each left out, and a last line without one is kept as it is |
| FilterTree.IdempotentExactly | crates/ci-cache-cli/src/keygen.rs:175-189 | filtering is idempotent on a text if and only if none of its retained lines ends in a carriage return |
| FilterTree.FilterTwice | crates/ci-cache-cli/src/keygen.rs:175-189 | filtering by two sets of excludes in turn is filtering by their union if and only if the second keeps the same of the retained lines with and without final carriage returns; so whenever none ends in one |
| FilterTree.FilterTwiceFails | crates/ci-cache-cli/src/keygen.rs:175-189 | a text on which the two differ |
| FilterTree.WithoutCr | crates/ci-cache-cli/src/keygen.rs:175-189 | text without carriage returns meets the condition of both laws |
| FilterTree.LinesOfUnlines | crates/ci-cache-cli/src/keygen.rs:176-188 | splitting joined lines gives them back, each without a final carriage return |

## Left out

- ObjectAlone.SharedExactly: is about names without backslash and encoded byte, outside the namespaces `.` and `..`; any other accepted name shares its object where its key has room, by `ObjectAlone.RoomIsShared`; where it has none, such names are not decided.
- ObjectSharing.NoMarkNoBlob: gives only when no blob is reached; for keys with a hash or question mark the object itself, `ObjectUrl.ObjectAt`, has to be computed to tell, and some reach none.
- Server.CacheServer.GetBlob: for a text that is no digest, does not say which file is fetched.
- Server.CacheServer.DeleteBlob: for a text that is no digest, does not say what is removed, only that it is at most one blob or manifest.
- Layers.BucketPublishIsStep: is about harmless names, outside of which it fails.
- Layers.BucketReadManifestIsStep: is about harmless names, outside of which it fails.
- Server.CacheServer.DeleteManifest: is about the object named, which in the object store a name that is not harmless does not reach.
- FileServer.EveryHistoryIsARun: is about the filesystem back end and takes a request with a text that is no digest to leave the files alone. In the code such a text may name any file (`BlobText` says which): with `<hex>.tmp.<uuid>`, `delete_blob` removes the temporary file of a running put and `get_blob` reads it half written, and with a path it removes or reads a manifest.
- Whole histories over the object store; single operations are in `Layers`.
- Server.CacheServer.SaveStart: takes the identifier drawn as a parameter.
- FileStore.BlobFilesHashToName: final blob names are 64 hexadecimal digits; file steps of requests with another text are not part of the machine.
- The schema version of a manifest, a constant.
- Overflow of counters and of sums of sizes beyond 64 bits, other than in the extraction loop and the archive total.
- A lost put takes effect no later than the failure is reported or the server stops; in the object store one in flight may take effect later.
- The streaming `get_blob` of the back ends; the server uses the form that collects the bytes.
- Cancelled requests, HTTP, routing, authentication, request size limits and logging.
- On disk, namespaces `.` and `..` are taken for directories of their own; their files are apart from all others, but may meet a directory of the same name.
- File modes, symlinks already present at a destination, names that are not UTF-8, Windows prefixes.
- Durability after loss of power: the code does not sync; crashes between steps are modelled.
- `get_manifest`, `blob_exists` and `has_blobs` of the server, which only read.
- The signature itself, HMAC and the other helpers of request signing.
- Key generation around the line filter, configuration, subprocess helpers, the agent and the charts.
