/** Referential integrity on files: what the manifest files of a server refer to, when no blob's file
    is removed and finish requests list only blobs acknowledged in their own session. */
module FileIntegrity {
  import opened Prelude
  import opened Naming
  import opened Protocol
  import opened Integrity
  import opened Layers
  import opened FileServer

  /** The bodies of the uploads that the server accepted. */
  function Received(past: seq<Moment>): set<Bytes> {
    set i | 0 <= i < |past| && past[i].event.Section? && past[i].event.a.BeginBlob? :: past[i].event.a.up.body
  }

  predicate TameEvent(sys: System, e: FileServer.Event) {
    && (e.Section? && e.a.BeginFinish? ==> Acknowledged(sys.front.history, e.a.req))
    && !UnlinksBlob(sys, e)
  }

  predicate TameHistory(past: seq<Moment>) {
    forall i :: 0 <= i < |past| ==> TameEvent(SystemAt(past, i), past[i].event)
  }

  /** What the run uploads was received. */
  lemma RunReceives(c: Config, x: Format, past: seq<Moment>, run: Run, at: seq<nat>)
    requires Mirrors(c, x, past, run, at)
    ensures Uploaded(run) <= Received(past)
  {
    hide IsRun, StandsFor;
    forall k | 0 <= k < |run| && run[k].action.BeginBlob?
      ensures run[k].action.up.body in Received(past)
    {
      var i := TakenAt(past, run, at, k, |past|);
      assert MovesOn(SystemAt(past, i), past[i].event, run, at[i], at[i + 1]);
      assert past[i].event.Section? && past[i].event.a == run[k].action;
    }
  }

  lemma ActionIsTame(x: Format, sys: System, s: State, e: FileServer.Event, a: Action)
    requires StandsFor(x, sys, s) && TameEvent(sys, e) && Accounts(sys, e, a)
    ensures Tame(s, a)
  {
    hide StandsFor, UnlinksBlob, Acknowledged;
    SameAcknowledged(x, sys, s);
  }

  /** A tame history is a tame run. */
  lemma RunIsTame(c: Config, x: Format, past: seq<Moment>, run: Run, at: seq<nat>)
    requires Mirrors(c, x, past, run, at) && TameHistory(past)
    ensures TameRun(run)
  {
    hide IsRun, StandsFor, TameEvent, Accounts, Tame;
    forall k | 0 <= k < |run|
      ensures Tame(At(run, k), run[k].action)
    {
      var i := TakenAt(past, run, at, k, |past|);
      assert MovesOn(SystemAt(past, i), past[i].event, run, at[i], at[i + 1]);
      assert TameEvent(SystemAt(past, i), past[i].event);
      ActionIsTame(x, SystemAt(past, i), At(run, k), past[i].event, run[k].action);
    }
  }

  lemma SameAcknowledged(x: Format, sys: System, s: State)
    requires StandsFor(x, sys, s)
    ensures s.history.acked == sys.front.history.acked
    ensures forall req :: Acknowledged(sys.front.history, req) <==> Acknowledged(s.history, req)
  {
    hide FileStore.Inv, FileStore.Meaning, Backs, Tracked, RestLoose;
  }

  /** The file of the blob exists, hashes to the digest, and has this size. */
  ghost predicate FileBacked(c: Config, store: map<FilePath, Bytes>, digest: string, size: nat) {
    var path := BlobPath(DigestHex(digest));
    path in store && DigestOf(c, store[path]) == digest && |store[path]| == size
  }

  lemma BackedByFile(c: Config, x: Format, sys: System, s: State, digest: string, size: nat)
    requires StandsFor(x, sys, s) && Backed(c, s.blobs, digest, size)
    ensures FileBacked(c, FileStore.Meaning(sys.files).store, digest, size)
  {
    hide FileStore.Inv, FileStore.Meaning, Tracked, RestLoose, DigestHex, DigestOf, Escaped;
    assert FILES.blob(DigestHex(digest)) in FileStore.Meaning(sys.files).store;
  }

  /** Whatever requests, file steps and crashes there were: at every moment, each blob that the text
      in a manifest's file refers to, and each upload acknowledged, has its file, with the bytes of
      that digest and of that size. */
  lemma ReferentialIntegrityOnFiles(c: Config, x: Format, past: seq<Moment>, i: nat)
    requires ReadsBack(x) && IsHistory(c, x, past) && TameHistory(past) && CollisionFree(c, Received(past))
    requires i <= |past|
    ensures var sys := SystemAt(past, i);
            && (forall n, b :: Escaped(n) && ManifestAt(x, sys, n).Some? && b in ManifestAt(x, sys, n).value.blobs ==>
                  FileBacked(c, FileStore.Meaning(sys.files).store, b.digest, b.size))
            && (forall t :: t in sys.front.history.acked ==>
                  FileBacked(c, FileStore.Meaning(sys.files).store, t.1, t.2))
  {
    hide IsHistory, IsRun, StandsFor, TameHistory, TameRun, ManifestAt, Escaped, Backed, FileBacked, FileStore.Meaning,
      Uploaded, Received, ReadsBack;
    var run, at := EveryHistoryIsARun(c, x, past);
    RunReceives(c, x, past, run, at);
    RunIsTame(c, x, past, run, at);
    var sys, s := SystemAt(past, i), At(run, at[i]);
    assert StandsFor(x, sys, s);
    ReferentialIntegrity(c, run, at[i]);
    SameAcknowledged(x, sys, s);
    forall n, b | Escaped(n) && ManifestAt(x, sys, n).Some? && b in ManifestAt(x, sys, n).value.blobs
      ensures FileBacked(c, FileStore.Meaning(sys.files).store, b.digest, b.size)
    {
      ManifestAtIs(x, sys, s, n);
      BackedByFile(c, x, sys, s, b.digest, b.size);
    }
    forall t | t in sys.front.history.acked
      ensures FileBacked(c, FileStore.Meaning(sys.files).store, t.1, t.2)
    {
      BackedByFile(c, x, sys, s, t.1, t.2);
    }
  }
}
