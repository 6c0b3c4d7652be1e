/** From a finish request to its publication: whatever takes effect, or is about to, was sent. */
module Publications {
  import opened Prelude
  import opened Naming
  import opened Manifests
  import opened Protocol
  import opened Safety

  ghost predicate Sent(run: Run, i: nat, req: FinishRequest) {
    exists j :: 0 <= j < i <= |run| && run[j].action.BeginFinish? && run[j].action.req == req
  }

  ghost predicate AllSent(run: Run, i: nat)
    requires i <= |run|
  {
    && (forall req :: req in At(run, i).history.published ==> Sent(run, i, req))
    && (forall rid :: rid in At(run, i).calls && At(run, i).calls[rid].Publishing? ==>
          Sent(run, i, At(run, i).calls[rid].req))
  }

  predicate IsPublishing(s: State, req: FinishRequest) {
    exists rid :: rid in s.calls && s.calls[rid].Publishing? && s.calls[rid].req == req
  }

  /** A step publishes only what is being published, and a request starts to be only when sent. */
  ghost predicate PublishesSent(s: State, a: Action, s': State) {
    && (forall req :: req in s'.history.published ==> req in s.history.published || IsPublishing(s, req))
    && (forall req :: IsPublishing(s', req) ==> IsPublishing(s, req) || (a.BeginFinish? && a.req == req))
  }

  lemma RetaskPublishing(s: State, s': State, rid: Rid, call: Call)
    requires s'.calls == s.calls[rid := call]
    ensures forall req :: IsPublishing(s', req) ==>
              IsPublishing(s, req) || (call.Publishing? && call.req == req)
  {
    forall req | IsPublishing(s', req)
      ensures IsPublishing(s, req) || (call.Publishing? && call.req == req)
    {
      var r :| r in s'.calls && s'.calls[r].Publishing? && s'.calls[r].req == req;
      assert r == rid || r in s.calls;
    }
  }

  lemma UploadStepPublishes(c: Config, s: State, a: Action, rid: Rid)
    requires LaterUpload(a) && rid in s.calls && BlobStep(c, s, a, s.calls[rid]).Some? && a.rid == rid
    ensures PublishesSent(s, a, BlobStep(c, s, a, s.calls[rid]).value)
  {
    hide BlobStep, IsPublishing;
    UploadStepEffect(c, s, a, s.calls[rid]);
    var s' := BlobStep(c, s, a, s.calls[rid]).value;
    RetaskPublishing(s, s', rid, s'.calls[rid]);
  }

  lemma OtherStepPublishes(s: State, a: Action, rid: Rid)
    requires LaterOther(a) && rid in s.calls && OtherStep(s, a, s.calls[rid]).Some? && a.rid == rid
    ensures PublishesSent(s, a, OtherStep(s, a, s.calls[rid]).value)
  {
    hide Hit, NameOf, TotalSize, IsPublishing, ManifestIn, BlobIn, IsDigest;
    var s' := OtherStep(s, a, s.calls[rid]).value;
    RetaskPublishing(s, s', rid, s'.calls[rid]);
    var call := s.calls[rid];
    if call.Publishing? {
      PublishingNow(s, rid);
    }
  }

  lemma PublishingNow(s: State, rid: Rid)
    requires rid in s.calls && s.calls[rid].Publishing?
    ensures IsPublishing(s, s.calls[rid].req)
  {}

  lemma FirstStepPublishes(c: Config, s: State, a: Action)
    requires FirstStep(c, s, a).Some?
    ensures PublishesSent(s, a, FirstStep(c, s, a).value)
  {
    hide ManifestFor, DigestHex, ValidName, Acceptable, IsPublishing;
    var s' := FirstStep(c, s, a).value;
    if a.Restart? {
      NothingPublishing(s');
    } else if a.BeginBlob? || a.BeginFinish? || a.BeginRestore? || a.BeginFetch? {
      RetaskPublishing(s, s', a.rid, s'.calls[a.rid]);
    } else {
      SamePublishing(s, s');
    }
  }

  lemma NothingPublishing(s: State)
    requires s.calls == map[]
    ensures forall req :: !IsPublishing(s, req)
  {}

  lemma SamePublishing(s: State, s': State)
    requires s'.calls == s.calls
    ensures forall req :: IsPublishing(s', req) ==> IsPublishing(s, req)
  {}

  lemma NextPublishes(c: Config, s: State, a: Action)
    requires Next(c, s, a).Some?
    ensures PublishesSent(s, a, Next(c, s, a).value)
  {
    hide BlobStep, OtherStep, FirstStep, PublishesSent;
    if LaterUpload(a) {
      UploadStepPublishes(c, s, a, a.rid);
    } else if LaterOther(a) {
      OtherStepPublishes(s, a, a.rid);
    } else {
      FirstStepPublishes(c, s, a);
    }
  }

  lemma SentStays(run: Run, i: nat)
    requires i < |run| && AllSent(run, i) && PublishesSent(At(run, i), run[i].action, run[i].state)
    ensures AllSent(run, i + 1)
  {
    hide IsPublishing;
    var s, s' := At(run, i), At(run, i + 1);
    forall req | IsPublishing(s, req)
      ensures Sent(run, i, req)
    {
      PublishingWho(s, req);
    }
    assert forall req :: Sent(run, i, req) ==> Sent(run, i + 1, req);
    forall rid | rid in s'.calls && s'.calls[rid].Publishing?
      ensures Sent(run, i + 1, s'.calls[rid].req)
    {
      PublishingNow(s', rid);
    }
  }

  lemma PublishingWho(s: State, req: FinishRequest)
    requires IsPublishing(s, req)
    ensures exists rid :: rid in s.calls && s.calls[rid].Publishing? && s.calls[rid].req == req
  {}

  lemma {:induction false} PublishedWasSent(c: Config, run: Run, i: nat)
    requires IsRun(c, run) && i <= |run|
    ensures AllSent(run, i)
  {
    hide Next;
    if i > 0 {
      PublishedWasSent(c, run, i - 1);
      assert Next(c, At(run, i - 1), run[i - 1].action) == Some(run[i - 1].state);
      NextPublishes(c, At(run, i - 1), run[i - 1].action);
      hide PublishesSent, AllSent;
      SentStays(run, i - 1);
    }
  }

  // ---- What is published ----

  ghost predicate Drafted(s: State, m: Manifest) {
    exists rid :: rid in s.calls && s.calls[rid].Publishing? && s.calls[rid].manifest == m
  }

  /** A step makes visible only what is being published, and that is made when it is sent. */
  ghost predicate PublishesDrafts(c: Config, s: State, a: Action, s': State) {
    && (forall name :: name in s'.manifests ==>
          (name in s.manifests && s'.manifests[name] == s.manifests[name]) || Drafted(s, s'.manifests[name]))
    && (forall m :: Drafted(s', m) ==>
          Drafted(s, m)
          || (a.BeginFinish? && a.req.sid in s.sessions && MadeFrom(c, s.sessions[a.req.sid], a.req, a.now, m)))
  }

  lemma RetaskDrafts(s: State, s': State, rid: Rid, call: Call)
    requires s'.calls == s.calls[rid := call]
    ensures forall m :: Drafted(s', m) ==> Drafted(s, m) || (call.Publishing? && call.manifest == m)
  {
    forall m | Drafted(s', m)
      ensures Drafted(s, m) || (call.Publishing? && call.manifest == m)
    {
      var r :| r in s'.calls && s'.calls[r].Publishing? && s'.calls[r].manifest == m;
      assert r == rid || r in s.calls;
    }
  }

  lemma UploadStepDrafts(c: Config, s: State, a: Action, rid: Rid)
    requires LaterUpload(a) && rid in s.calls && BlobStep(c, s, a, s.calls[rid]).Some? && a.rid == rid
    ensures PublishesDrafts(c, s, a, BlobStep(c, s, a, s.calls[rid]).value)
  {
    hide BlobStep, Drafted, MadeFrom;
    UploadStepEffect(c, s, a, s.calls[rid]);
    var s' := BlobStep(c, s, a, s.calls[rid]).value;
    RetaskDrafts(s, s', rid, s'.calls[rid]);
  }

  lemma OtherStepDrafts(c: Config, s: State, a: Action, rid: Rid)
    requires LaterOther(a) && rid in s.calls && OtherStep(s, a, s.calls[rid]).Some? && a.rid == rid
    ensures PublishesDrafts(c, s, a, OtherStep(s, a, s.calls[rid]).value)
  {
    hide Hit, NameOf, TotalSize, Drafted, ManifestIn, BlobIn, IsDigest, MadeFrom;
    var s' := OtherStep(s, a, s.calls[rid]).value;
    RetaskDrafts(s, s', rid, s'.calls[rid]);
    if s.calls[rid].Publishing? {
      DraftedNow(s, rid);
    }
  }

  lemma DraftedNow(s: State, rid: Rid)
    requires rid in s.calls && s.calls[rid].Publishing?
    ensures Drafted(s, s.calls[rid].manifest)
  {}

  lemma FirstStepDrafts(c: Config, s: State, a: Action)
    requires FirstStep(c, s, a).Some?
    ensures PublishesDrafts(c, s, a, FirstStep(c, s, a).value)
  {
    hide ManifestFor, DigestHex, ValidName, Acceptable, Drafted, MadeFrom;
    var s' := FirstStep(c, s, a).value;
    if a.Restart? {
      NothingDrafted(s');
    } else if a.BeginBlob? || a.BeginFinish? || a.BeginRestore? || a.BeginFetch? {
      RetaskDrafts(s, s', a.rid, s'.calls[a.rid]);
      if a.BeginFinish? {
        ManifestForExactly(c, s.sessions[a.req.sid], a.req, a.now, s'.calls[a.rid].manifest);
      }
    } else {
      SameDrafts(s, s');
    }
  }

  lemma NothingDrafted(s: State)
    requires s.calls == map[]
    ensures forall m :: !Drafted(s, m)
  {}

  lemma SameDrafts(s: State, s': State)
    requires s'.calls == s.calls
    ensures forall m :: Drafted(s', m) ==> Drafted(s, m)
  {}

  lemma NextDrafts(c: Config, s: State, a: Action)
    requires Next(c, s, a).Some?
    ensures PublishesDrafts(c, s, a, Next(c, s, a).value)
  {
    hide BlobStep, OtherStep, FirstStep, PublishesDrafts;
    if LaterUpload(a) {
      UploadStepDrafts(c, s, a, a.rid);
    } else if LaterOther(a) {
      OtherStepDrafts(c, s, a, a.rid);
    } else {
      FirstStepDrafts(c, s, a);
    }
  }

  /** A finish request before event `i` made `m`, of its session as it then was, at that time. */
  ghost predicate MadeBefore(c: Config, run: Run, i: nat, m: Manifest) {
    exists j :: 0 <= j < i <= |run| && MadeAt(c, run, j, m)
  }

  ghost predicate MadeAt(c: Config, run: Run, j: nat, m: Manifest)
    requires j < |run|
  {
    var a := run[j].action;
    a.BeginFinish? && a.req.sid in At(run, j).sessions
    && MadeFrom(c, At(run, j).sessions[a.req.sid], a.req, a.now, m)
  }

  ghost predicate AllMade(c: Config, run: Run, i: nat)
    requires i <= |run|
  {
    && (forall name :: name in At(run, i).manifests ==> MadeBefore(c, run, i, At(run, i).manifests[name]))
    && (forall m :: Drafted(At(run, i), m) ==> MadeBefore(c, run, i, m))
  }

  lemma MadeStays(c: Config, run: Run, i: nat)
    requires i < |run| && AllMade(c, run, i) && PublishesDrafts(c, At(run, i), run[i].action, run[i].state)
    ensures AllMade(c, run, i + 1)
  {
    hide Drafted, MadeFrom;
    assert forall m :: MadeBefore(c, run, i, m) ==> MadeBefore(c, run, i + 1, m);
    assert At(run, i + 1) == run[i].state;
    forall m | Drafted(run[i].state, m)
      ensures MadeBefore(c, run, i + 1, m)
    {
      if !Drafted(At(run, i), m) {
        assert MadeAt(c, run, i, m);
      }
    }
  }

  /** At every moment, each visible manifest, and each being published, is in every field what one
      finish request made of its session, and bears the time of that request. */
  lemma {:induction false} ManifestsAreMade(c: Config, run: Run, i: nat)
    requires IsRun(c, run) && i <= |run|
    ensures AllMade(c, run, i)
  {
    hide Next, MadeBefore;
    if i == 0 {
      NothingDrafted(INIT);
    } else {
      ManifestsAreMade(c, run, i - 1);
      assert Next(c, At(run, i - 1), run[i - 1].action) == Some(run[i - 1].state);
      NextDrafts(c, At(run, i - 1), run[i - 1].action);
      hide PublishesDrafts, AllMade;
      MadeStays(c, run, i - 1);
    }
  }

  /** So a visible manifest lasts for the time to live that its session asked for, or else the one
      configured, and one more second, from the finish request on: not less, and not more. */
  lemma SavedLasts(c: Config, run: Run, i: nat, name: ManifestName, t: int) returns (j: nat)
    requires IsRun(c, run) && i <= |run| && name in At(run, i).manifests
    ensures j < i && MadeAt(c, run, j, At(run, i).manifests[name])
    ensures var start := At(run, j).sessions[run[j].action.req.sid].start;
            var ttl := if start.ttl.Some? then start.ttl.value else c.defaultTtl;
            ttl < 0x8000_0000_0000_0000 ==>
              (IsExpired(At(run, i).manifests[name], t) <==> t - run[j].action.now >= (ttl + 1) * 1_000_000_000)
  {
    hide IsRun, IsExpired;
    ManifestsAreMade(c, run, i);
    var m := At(run, i).manifests[name];
    assert MadeBefore(c, run, i, m);
    j :| 0 <= j < i <= |run| && MadeAt(c, run, j, m);
    ExpiredExactly(m, t);
  }
}
