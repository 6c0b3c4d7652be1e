/** Counters against what is stored, over all interleavings of requests. */
module Accounting {
  import opened Prelude
  import opened Naming
  import opened Manifests
  import opened Protocol
  import opened Safety

  /** The sum of `w` over the values of a map. */
  ghost function Tally<K(!new), V(!new)>(m: map<K, V>, w: V -> nat): nat
    decreases |m|
  {
    if m == map[] then 0
    else
      var k :| k in m;
      w(m[k]) + Tally(m - {k}, w)
  }

  /** Any key can be counted first. */
  lemma {:induction false} TallyWithout<K(!new), V(!new)>(m: map<K, V>, w: V -> nat, k: K)
    requires k in m
    ensures Tally(m, w) == w(m[k]) + Tally(m - {k}, w)
    decreases |m|
  {
    var first :| first in m && Tally(m, w) == w(m[first]) + Tally(m - {first}, w);
    if first != k {
      TallyWithout(m - {first}, w, k);
      TallyWithout(m - {k}, w, first);
      assert m - {first} - {k} == m - {k} - {first};
    }
  }

  lemma TallyUpdate<K(!new), V(!new)>(m: map<K, V>, w: V -> nat, k: K, v: V)
    ensures Tally(m[k := v], w) == w(v) + Tally(m - {k}, w)
    ensures Tally(m, w) == (if k in m then w(m[k]) else 0) + Tally(m - {k}, w)
  {
    TallyWithout(m[k := v], w, k);
    assert m[k := v] - {k} == m - {k};
    if k in m {
      TallyWithout(m, w, k);
    } else {
      assert m - {k} == m;
    }
  }

  /** All bytes in the store. */
  ghost function Stored(s: State): nat {
    Tally(s.blobs, (b: Bytes) => |b|)
  }

  function Uncounted(call: Call): nat {
    if call.Counting? then |call.up.body| else 0
  }

  /** The bytes of puts that have returned but are not yet counted. */
  ghost function Pending(s: State): nat {
    Tally(s.calls, Uncounted)
  }

  /** Bytes counted, still to be counted, or lost with the answer, against bytes stored once or
      put again. */
  ghost predicate Balanced(s: State, base: nat) {
    base + s.counters.bytesUploaded + Pending(s) + s.history.lost == Stored(s) + s.history.again
  }

  // ---- How each change moves the two sides ----

  lemma RetaskPending(s: State, rid: Rid, call: Call)
    requires rid in s.calls
    ensures Pending(Retasked(s, rid, call)) + Uncounted(s.calls[rid]) == Pending(s) + Uncounted(call)
  {
    TallyUpdate(s.calls, Uncounted, rid, call);
  }

  lemma PutStores(s: State, up: Upload)
    ensures Stored(WithBlob(s, up)) + SizeAt(s.blobs, DigestHex(up.digest)) == Stored(s) + |up.body|
  {
    TallyUpdate(s.blobs, (b: Bytes) => |b|, DigestHex(up.digest), up.body);
  }

  lemma PutBalanced(c: Config, bodies: set<Bytes>, s: State, rid: Rid, up: Upload, how: How, base: nat)
    requires CollisionFree(c, bodies) && Known(bodies, s) && up.body in bodies
    requires ContentAddressed(c, s.blobs) && up.digest == DigestOf(c, up.body)
    requires Balanced(s, base) && rid in s.calls && s.calls[rid] == Storing(up)
    requires how.Kept? ==> DigestHex(up.digest) in s.blobs
    ensures Balanced(DoPut(s, rid, up, how), base)
  {
    var hex := DigestHex(up.digest);
    DigestHexOf(c, up.body);
    PutStores(s, up);
    RetaskPending(s, rid, Counting(up));
    RetaskPending(s, rid, Over);
    if hex in s.blobs {
      assert s.blobs[hex] == up.body;
    }
    hide Tally, DigestHex, DigestOf, CollisionFree, Known, ContentAddressed;
    var s' := DoPut(s, rid, up, how);
    assert Pending(s') == Pending(Retasked(s, rid, s'.calls[rid]));
    assert how.Kept? || how.Refused? ==> Stored(s') == Stored(s);
    assert how.Written? || how.Lost? ==> Stored(s') == Stored(WithBlob(s, up));
  }

  lemma CountBalanced(s: State, rid: Rid, up: Upload, base: nat)
    requires Balanced(s, base) && rid in s.calls && s.calls[rid] == Counting(up)
    ensures Balanced(DoCount(s, rid, up), base)
  {
    RetaskPending(s, rid, Recording(up, false));
    var s' := DoCount(s, rid, up);
    assert s'.calls == Retasked(s, rid, Recording(up, false)).calls;
  }

  /** Steps that touch neither the store nor the two tallies. */
  predicate Neutral(s: State, s': State) {
    && s'.blobs == s.blobs
    && s'.counters.bytesUploaded == s.counters.bytesUploaded
    && s'.history.lost == s.history.lost && s'.history.again == s.history.again
  }

  lemma NeutralBalanced(s: State, s': State, rid: Rid, call: Call, base: nat)
    requires Balanced(s, base) && Neutral(s, s') && s'.calls == s.calls[rid := call]
    requires Uncounted(call) == 0 && (rid in s.calls ==> Uncounted(s.calls[rid]) == 0)
    ensures Balanced(s', base)
  {
    TallyUpdate(s.calls, Uncounted, rid, call);
  }

  lemma UploadStepBalanced(c: Config, bodies: set<Bytes>, s: State, a: Action, rid: Rid, base: nat)
    requires CollisionFree(c, bodies) && Known(bodies, s) && ContentAddressed(c, s.blobs)
    requires LaterUpload(a) && Balanced(s, base)
    requires rid in s.calls && CallOk(c, s.history, s.calls[rid])
    requires BlobStep(c, s, a, s.calls[rid]).Some? && a.rid == rid
    ensures Balanced(BlobStep(c, s, a, s.calls[rid]).value, base)
  {
    hide CollisionFree, Known, ContentAddressed, Balanced, MadeIn, ValidName, Recorded, DigestOf, DigestHex;
    var call := s.calls[rid];
    CallIsKnown(bodies, s, rid);
    match a {
      case CheckBlob(rid, fails) =>
        var s' := DoCheck(s, rid, call.up, fails);
        NeutralBalanced(s, s', rid, s'.calls[rid], base);
      case PutBlob(rid, how) => PutBalanced(c, bodies, s, rid, call.up, how, base);
      case CountBlob(rid) => CountBalanced(s, rid, call.up, base);
      case RecordBlob(rid) => NeutralBalanced(s, DoRecord(c, s, rid, call.up, call.deduped), rid, Over, base);
      case _ =>
    }
  }

  lemma OtherStepBalanced(s: State, a: Action, rid: Rid, base: nat)
    requires LaterOther(a) && Balanced(s, base) && rid in s.calls && OtherStep(s, a, s.calls[rid]).Some? && a.rid == rid
    ensures Balanced(OtherStep(s, a, s.calls[rid]).value, base)
  {
    hide Balanced, Hit, NameOf, TotalSize, ManifestIn, BlobIn, IsDigest;
    var s' := OtherStep(s, a, s.calls[rid]).value;
    NeutralBalanced(s, s', rid, s'.calls[rid], base);
  }

  lemma SameBalanced(s: State, s': State, base: nat)
    requires Balanced(s, base) && Neutral(s, s') && s'.calls == s.calls
    ensures Balanced(s', base)
  {}

  /** The first section of each request, and requests of a single section. */
  lemma FirstStepBalanced(c: Config, s: State, a: Action, base: nat)
    requires Balanced(s, base) && !a.DeleteBlob? && !a.Restart? && FirstStep(c, s, a).Some?
    ensures Balanced(FirstStep(c, s, a).value, base)
  {
    hide Balanced, ManifestFor, DigestHex, ValidName, Acceptable;
    var s' := FirstStep(c, s, a).value;
    if a.BeginBlob? || a.BeginFinish? || a.BeginRestore? || a.BeginFetch? {
      NeutralBalanced(s, s', a.rid, s'.calls[a.rid], base);
    } else {
      SameBalanced(s, s', base);
    }
  }

  lemma NextBalanced(c: Config, bodies: set<Bytes>, s: State, a: Action, base: nat)
    requires CollisionFree(c, bodies) && Known(bodies, s) && Inv(c, s) && Balanced(s, base)
    requires !a.DeleteBlob? && !a.Restart? && Next(c, s, a).Some?
    ensures Balanced(Next(c, s, a).value, base)
  {
    assert ContentAddressed(c, s.blobs);
    Parts(c, s);
    hide CollisionFree, Known, Inv, ContentAddressed, Balanced, BlobStep, OtherStep, FirstStep, CallOk;
    if LaterUpload(a) {
      UploadStepBalanced(c, bodies, s, a, a.rid, base);
    } else if LaterOther(a) {
      OtherStepBalanced(s, a, a.rid, base);
    } else {
      FirstStepBalanced(c, s, a, base);
    }
  }

  /** A server started with event `from`, or with the run, and has not stopped before event `i`. */
  ghost predicate Lifetime(run: Run, from: nat, i: nat) {
    && from <= i <= |run|
    && (from == 0 || run[from - 1].action.Restart?)
    && forall j :: from <= j < i ==> !run[j].action.Restart?
  }

  /** What a server knows when it starts. */
  predicate JustStarted(s: State) {
    s.counters == ZERO && s.calls == map[] && s.history.lost == 0 && s.history.again == 0
  }

  lemma StartsEmpty(c: Config, run: Run, from: nat)
    requires IsRun(c, run) && Lifetime(run, from, from)
    ensures JustStarted(At(run, from))
  {
    if from > 0 {
      assert Next(c, At(run, from - 1), run[from - 1].action) == Some(run[from - 1].state);
    }
  }

  lemma StartBalanced(s: State)
    requires JustStarted(s)
    ensures Balanced(s, Stored(s))
  {}

  lemma {:induction false} RunBalanced(c: Config, run: Run, from: nat, i: nat)
    requires CollisionFree(c, Uploaded(run)) && IsRun(c, run) && NoDeletes(run) && Lifetime(run, from, i)
    ensures Balanced(At(run, i), Stored(At(run, from)))
    decreases i
  {
    hide Inv, Next, CollisionFree, Known, Uploaded, Stored, JustStarted;
    if i == from {
      StartsEmpty(c, run, from);
      StartBalanced(At(run, from));
    } else {
      RunBalanced(c, run, from, i - 1);
      RunKeeps(c, run, i - 1);
      RunKnown(c, run, i - 1);
      assert Next(c, At(run, i - 1), run[i - 1].action) == Some(run[i - 1].state);
      hide Balanced;
      NextBalanced(c, Uploaded(run), At(run, i - 1), run[i - 1].action, Stored(At(run, from)));
    }
  }

  // ---- Restores ----

  function UndecidedCount(call: Call): nat {
    if Undecided(call) then 1 else 0
  }

  /** Every restore request is a hit, a miss, failed, refused, or still under way. */
  ghost predicate RestoresAddUp(s: State) {
    s.counters.restores
    == s.counters.hits + s.counters.misses + s.history.failedRestores + s.history.refusedRestores
       + Tally(s.calls, UndecidedCount)
  }

  predicate SameRestores(s: State, s': State) {
    && s'.counters.restores == s.counters.restores && s'.counters.hits == s.counters.hits
    && s'.counters.misses == s.counters.misses
    && s'.history.failedRestores == s.history.failedRestores
    && s'.history.refusedRestores == s.history.refusedRestores
  }

  lemma UnrelatedAddsUp(s: State, s': State, rid: Rid, call: Call)
    requires RestoresAddUp(s) && SameRestores(s, s') && s'.calls == s.calls[rid := call]
    requires rid in s.calls ==> (Undecided(call) <==> Undecided(s.calls[rid]))
    requires rid !in s.calls ==> !Undecided(call)
    ensures RestoresAddUp(s')
  {
    TallyUpdate(s.calls, UndecidedCount, rid, call);
  }

  lemma BeginAddsUp(s: State, rid: Rid, ask: RestoreRequest)
    requires RestoresAddUp(s) && rid !in s.calls
    ensures RestoresAddUp(DoBeginRestore(s, rid, ask))
  {
    hide ValidName;
    TallyUpdate(s.calls, UndecidedCount, rid, DoBeginRestore(s, rid, ask).calls[rid]);
  }

  lemma LookUpAddsUp(s: State, rid: Rid, ask: RestoreRequest, seen: Option<Manifest>, fails: bool, now: int)
    requires RestoresAddUp(s) && rid in s.calls && Undecided(s.calls[rid])
    ensures RestoresAddUp(DoLookUp(s, rid, ask, seen, fails, now))
  {
    hide Hit, NameOf, TotalSize;
    TallyUpdate(s.calls, UndecidedCount, rid, Over);
  }

  lemma UploadStepAddsUp(c: Config, s: State, a: Action, rid: Rid)
    requires LaterUpload(a) && RestoresAddUp(s) && rid in s.calls && a.rid == rid
    requires BlobStep(c, s, a, s.calls[rid]).Some?
    ensures RestoresAddUp(BlobStep(c, s, a, s.calls[rid]).value)
  {
    hide RestoresAddUp, BlobStep;
    UploadStepEffect(c, s, a, s.calls[rid]);
    var s' := BlobStep(c, s, a, s.calls[rid]).value;
    UnrelatedAddsUp(s, s', rid, s'.calls[rid]);
  }

  lemma OtherStepAddsUp(s: State, a: Action, rid: Rid)
    requires LaterOther(a) && RestoresAddUp(s) && rid in s.calls && OtherStep(s, a, s.calls[rid]).Some? && a.rid == rid
    ensures RestoresAddUp(OtherStep(s, a, s.calls[rid]).value)
  {
    hide RestoresAddUp, DoLookUp, NameOf, ManifestIn, BlobIn, IsDigest;
    if a.LookUp? {
      var call := s.calls[rid];
      LookUpAddsUp(s, rid, call.ask, if call.Seen? then call.seen else None, a.fails, a.now);
    } else {
      var s' := OtherStep(s, a, s.calls[rid]).value;
      UnrelatedAddsUp(s, s', rid, s'.calls[rid]);
    }
  }

  lemma SameCallsAddUp(s: State, s': State)
    requires RestoresAddUp(s) && SameRestores(s, s') && s'.calls == s.calls
    ensures RestoresAddUp(s')
  {}

  lemma RestartAddsUp(s: State)
    ensures RestoresAddUp(DoRestart(s))
  {}

  lemma FirstStepAddsUp(c: Config, s: State, a: Action)
    requires RestoresAddUp(s) && FirstStep(c, s, a).Some?
    ensures RestoresAddUp(FirstStep(c, s, a).value)
  {
    hide RestoresAddUp, ManifestFor, DigestHex, ValidName, Acceptable, DoBeginRestore, DoRestart;
    var s' := FirstStep(c, s, a).value;
    if a.Restart? {
      RestartAddsUp(s);
    } else if a.BeginRestore? {
      BeginAddsUp(s, a.rid, a.ask);
    } else if a.BeginBlob? || a.BeginFinish? || a.BeginFetch? {
      UnrelatedAddsUp(s, s', a.rid, s'.calls[a.rid]);
    } else {
      SameCallsAddUp(s, s');
    }
  }

  lemma NextAddsUp(c: Config, s: State, a: Action)
    requires RestoresAddUp(s) && Next(c, s, a).Some?
    ensures RestoresAddUp(Next(c, s, a).value)
  {
    hide RestoresAddUp, BlobStep, OtherStep, FirstStep;
    if LaterUpload(a) {
      UploadStepAddsUp(c, s, a, a.rid);
    } else if LaterOther(a) {
      OtherStepAddsUp(s, a, a.rid);
    } else {
      FirstStepAddsUp(c, s, a);
    }
  }

  /** At every moment of every run, restore requests are accounted for. */
  lemma {:induction false} RestoresCounted(c: Config, run: Run, i: nat)
    requires IsRun(c, run) && i <= |run|
    ensures RestoresAddUp(At(run, i))
  {
    hide Next;
    if i > 0 {
      RestoresCounted(c, run, i - 1);
      assert Next(c, At(run, i - 1), run[i - 1].action) == Some(run[i - 1].state);
      hide RestoresAddUp;
      NextAddsUp(c, At(run, i - 1), run[i - 1].action);
    }
  }

  // ---- Requests one at a time ----

  /** At most one request is being served. */
  predicate OneAtATime(s: State) {
    forall r, q :: r in s.calls && q in s.calls && r != q ==> s.calls[r].Over? || s.calls[q].Over?
  }

  /** Nothing was put twice, and what is about to be put is not there. */
  predicate NothingAgain(s: State) {
    && s.history.again == 0
    && forall rid :: rid in s.calls && s.calls[rid].Storing? ==> DigestHex(s.calls[rid].up.digest) !in s.blobs
  }

  lemma PutNothingAgain(s: State, rid: Rid, up: Upload, how: How)
    requires OneAtATime(s) && NothingAgain(s) && rid in s.calls && s.calls[rid] == Storing(up)
    requires how.Kept? ==> DigestHex(up.digest) in s.blobs
    ensures NothingAgain(DoPut(s, rid, up, how))
  {
    hide DigestHex;
    assert forall q :: q in s.calls && q != rid ==> s.calls[q].Over?;
  }

  lemma UploadStepNothingAgain(c: Config, s: State, a: Action, rid: Rid)
    requires LaterUpload(a) && OneAtATime(s) && NothingAgain(s)
    requires rid in s.calls && BlobStep(c, s, a, s.calls[rid]).Some? && a.rid == rid
    ensures NothingAgain(BlobStep(c, s, a, s.calls[rid]).value)
  {
    hide DigestHex, OneAtATime, Recorded;
    if a.PutBlob? {
      hide NothingAgain, DoPut;
      PutNothingAgain(s, rid, s.calls[rid].up, a.how);
    }
  }

  lemma OtherStepNothingAgain(s: State, a: Action, rid: Rid)
    requires LaterOther(a) && NothingAgain(s) && rid in s.calls && OtherStep(s, a, s.calls[rid]).Some? && a.rid == rid
    ensures NothingAgain(OtherStep(s, a, s.calls[rid]).value)
  {
    hide DigestHex, Hit, NameOf, TotalSize, ManifestIn, BlobIn, IsDigest;
  }

  lemma FirstStepNothingAgain(c: Config, s: State, a: Action)
    requires NothingAgain(s) && FirstStep(c, s, a).Some?
    ensures NothingAgain(FirstStep(c, s, a).value)
  {
    hide DigestHex, ManifestFor, ValidName, Acceptable;
  }

  lemma NextNothingAgain(c: Config, s: State, a: Action)
    requires OneAtATime(s) && NothingAgain(s) && Next(c, s, a).Some?
    ensures NothingAgain(Next(c, s, a).value)
  {
    hide OneAtATime, NothingAgain, BlobStep, OtherStep, FirstStep;
    if LaterUpload(a) {
      UploadStepNothingAgain(c, s, a, a.rid);
    } else if LaterOther(a) {
      OtherStepNothingAgain(s, a, a.rid);
    } else {
      FirstStepNothingAgain(c, s, a);
    }
  }

  lemma {:induction false} RunNothingAgain(c: Config, run: Run, from: nat, i: nat)
    requires IsRun(c, run) && Lifetime(run, from, i) && forall j :: from <= j < i ==> OneAtATime(At(run, j))
    ensures NothingAgain(At(run, i))
    decreases i
  {
    hide Next, OneAtATime;
    if i == from {
      StartsEmpty(c, run, from);
    } else {
      RunNothingAgain(c, run, from, i - 1);
      assert Next(c, At(run, i - 1), run[i - 1].action) == Some(run[i - 1].state);
      hide NothingAgain;
      NextNothingAgain(c, At(run, i - 1), run[i - 1].action);
    }
  }

  lemma EmptyAtFirst()
    ensures Stored(INIT) == 0
  {}

  /** Over one lifetime of a server, from whatever it finds stored and without deletions: the bytes
      stored are never more than those found, those counted as uploaded, and those of puts not yet
      counted or whose answer was lost; the difference is exactly what racing uploads put more
      than once, so when requests run one at a time there is none. */
  lemma StoredBytes(c: Config, run: Run, from: nat, i: nat)
    requires CollisionFree(c, Uploaded(run)) && IsRun(c, run) && NoDeletes(run) && Lifetime(run, from, i)
    ensures var s, found := At(run, i), Stored(At(run, from));
            && Stored(s) + s.history.again == found + s.counters.bytesUploaded + Pending(s) + s.history.lost
            && Stored(s) <= found + s.counters.bytesUploaded + Pending(s) + s.history.lost
            && ((forall j :: from <= j < i ==> OneAtATime(At(run, j))) ==>
                  Stored(s) == found + s.counters.bytesUploaded + Pending(s) + s.history.lost)
            && (from == 0 ==> found == 0)
  {
    EmptyAtFirst();
    hide IsRun, OneAtATime, Stored, Pending, CollisionFree, Uploaded;
    RunBalanced(c, run, from, i);
    if forall j :: from <= j < i ==> OneAtATime(At(run, j)) {
      RunNothingAgain(c, run, from, i);
    }
  }
}
