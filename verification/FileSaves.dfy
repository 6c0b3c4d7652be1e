/** One whole save on files: what the manifest files of a server hold, when all saves come from the
    command-line client. */
module FileSaves {
  import opened Prelude
  import opened Paths
  import opened FileTree
  import opened Extract
  import opened Naming
  import opened Manifests
  import opened Archive
  import opened Protocol
  import opened Safety
  import opened Layers
  import opened Saves
  import opened FileServer

  /** All finish requests come from the client's save loop, in these saves; all else is arbitrary. */
  ghost predicate ClientHistory(c: Config, lib: Library, past: seq<Moment>, saves: Saves) {
    forall i :: 0 <= i < |past| && past[i].event.Section? && past[i].event.a.BeginFinish? ==>
      FromClient(c, lib, past[i].event.a.req, saves)
  }

  lemma RunFromClients(c: Config, lib: Library, x: Format, past: seq<Moment>, run: Run, at: seq<nat>, saves: Saves)
    requires ClientHistory(c, lib, past, saves) && Mirrors(c, x, past, run, at)
    ensures ClientRun(c, lib, run, saves)
  {
    hide IsRun, StandsFor, FromClient;
    forall k | 0 <= k < |run| && run[k].action.BeginFinish?
      ensures FromClient(c, lib, run[k].action.req, saves)
    {
      var i := TakenAt(past, run, at, k, |past|);
      assert MovesOn(SystemAt(past, i), past[i].event, run, at[i], at[i + 1]);
      assert past[i].event.Section? && past[i].event.a == run[k].action;
    }
  }

  /** Whatever savers interleave, whatever file steps and crashes: the file of a manifest holds the
      text of one client's whole save, for the namespace, key and type of its session. */
  lemma FileHoldsOneSave(c: Config, lib: Library, x: Format, past: seq<Moment>, i: nat, n: ManifestName, saves: Saves)
      returns (m: Manifest, req: FinishRequest, h: History)
    requires ReadsBack(x) && IsHistory(c, x, past) && ClientHistory(c, lib, past, saves) && i <= |past|
    requires Escaped(n) && ManifestFile(n) in FileStore.Meaning(SystemAt(past, i).files).store
    ensures ManifestAt(x, SystemAt(past, i), n) == Some(m)
    ensures NameFor(m) == n && ValidName(m.namespace, m.key)
    ensures h.issued == SystemAt(past, i).front.history.issued && MadeIn(c, h, req, m)
    ensures FromClient(c, lib, req, saves)
  {
    hide IsHistory, ReadsBack, FromClient, IsRun, Made, ValidName, NameOf, ClientHistory, ClientRun;
    var run, at := EveryHistoryIsARun(c, x, past);
    RunFromClients(c, lib, x, past, run, at, saves);
    var s := At(run, at[i]);
    assert StandsFor(x, SystemAt(past, i), s);
    ManifestAtIs(x, SystemAt(past, i), s, n);
    hide FileStore.Inv, FileStore.Meaning, Tracked, RestLoose, Backs, ManifestAt;
    m, h := s.manifests[n], s.history;
    req := VisibleIsOneSave(c, lib, run, at[i], n, saves);
  }

  /** No mixing on files: a restore that is given what the file of a manifest held at some moment of
      a history and finishes has written one whole save, published in the run that mirrors the
      history. */
  lemma NoMixingOnFiles(c: Config, lib: Library, x: Format, past: seq<Moment>, i: nat, saves: Saves,
                        resolve: string -> Option<Path>, ask: RestoreRequest, items: seq<Item>, before: Fs, after: Fs,
                        max: nat) returns (run: Run, at: seq<nat>)
    requires ReadsBack(x) && IsHistory(c, x, past) && ClientHistory(c, lib, past, saves) && i <= |past|
    requires CollisionFree(c, ArchivedBodies(saves) + ItemBodies(items)) && Faithful(lib)
    requires ValidName(ask.namespace, ask.key)
    requires forall spec :: resolve(spec).Some? ==> AllPlain(resolve(spec).value)
    requires var m := ManifestAt(x, SystemAt(past, i), NameOf(ask.namespace, ask.key));
             && m.Some? && m.value.cacheType == ask.cacheType
             && |items| == |m.value.paths| && ItemsFit(c, m.value, items)
    requires Unpacked(lib, resolve, before, items, max) == Some(after)
    ensures Mirrors(c, x, past, run, at)
    ensures OneSaveRestored(c, lib, Last(run).history, saves, resolve, ask, before, after, max)
  {
    hide IsHistory, ReadsBack, IsRun, ValidName, NameOf, ClientHistory, ClientRun, CollisionFree, ArchivedBodies,
      ItemBodies, Faithful, ItemsFit, Unpacked, OneSaveRestored, ManifestAt, StandsFor, Escaped;
    run, at := EveryHistoryIsARun(c, x, past);
    RunFromClients(c, lib, x, past, run, at, saves);
    NamesAreEscaped(ask.namespace, ask.key);
    assert StandsFor(x, SystemAt(past, i), At(run, at[i]));
    ManifestAtIs(x, SystemAt(past, i), At(run, at[i]), NameOf(ask.namespace, ask.key));
    NoMixing(c, lib, run, at[i], saves, resolve, ask, items, before, after, max);
  }
}
