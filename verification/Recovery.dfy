/** What a cut run and a completed run of the closure's steps mean for the store, and how they compose. */
module Recovery {
  import opened Text
  import opened Packages
  import opened Lockfiles
  import opened Store
  import opened Closure

  /** The materialized file already matches the digest of f. */
  predicate OnDisk(d: Digests, files: Files, e: Entry, f: FileEntry) {
    ValidName(e.name) && ValidTreePath(f.path) && (e.name, f.path) in files
    && Verifies(d, e, f, files[(e.name, f.path)])
  }

  /** Every body was verified against a recorded file of its path. */
  ghost predicate BodiesVerify(d: Digests, e: Entry, bodies: map<string, Bytes>) {
    forall p | p in bodies :: exists f :: f in e.TreeFiles() && f.path == p && Verifies(d, e, f, bodies[p])
  }

  lemma BodyAdded(d: Digests, e: Entry, bodies: map<string, Bytes>, f: FileEntry, body: Bytes)
    requires BodiesVerify(d, e, bodies) && f in e.TreeFiles() && Verifies(d, e, f, body)
    ensures BodiesVerify(d, e, bodies[f.path := body])
  {
    var next := bodies[f.path := body];
    forall p | p in next ensures exists g :: g in e.TreeFiles() && g.path == p && Verifies(d, e, g, next[p]) {
      if p != f.path {
        assert p in bodies;
      }
    }
  }

  /** Every file has a body or is already on disk. */
  ghost predicate Covered(d: Digests, files: Files, e: Entry, fs: seq<FileEntry>, bodies: map<string, Bytes>) {
    forall f | f in fs && f.path !in bodies :: OnDisk(d, files, e, f)
  }

  /** Every body was verified, and every file without a body is already on disk. */
  ghost predicate Fetched(d: Digests, files: Files, pl: Plan) {
    && BodiesVerify(d, pl.entry, pl.bodies)
    && Covered(d, files, pl.entry, pl.entry.TreeFiles(), pl.bodies)
  }

  ghost predicate AllFetched(d: Digests, files: Files, plans: seq<Plan>) {
    forall i | 0 <= i < |plans| :: Fetched(d, files, plans[i])
  }

  ghost predicate AllCoherent(closure: seq<Entry>) {
    forall i | 0 <= i < |closure| :: Coherent(closure[i])
  }

  ghost predicate Installed(d: Digests, files: Files, e: Entry) {
    forall f | f in e.TreeFiles() :: OnDisk(d, files, e, f)
  }

  /** v is a content that verifies for a file the closure records at id. */
  ghost predicate IsRecordedContent(d: Digests, closure: seq<Entry>, id: FileId, v: Option<Bytes>) {
    var e := Get(closure, id.0);
    v.Some? && e.Some? && exists f :: f in e.value.TreeFiles() && f.path == id.1 && Verifies(d, e.value, f, v.value)
  }

  /** A run towards the closure that did not finish: the saved lock is the old one, no foreign file changed, a departed
      file is there as before or gone, and a recorded file is as before or holds content that verifies. Write residue
      does not count as content. */
  ghost predicate Progress(d: Digests, closure: seq<Entry>, w: World, w': World) {
    w'.lock == w.lock && forall id: FileId | !IsWriteResidue(id.1) :: ProgressAt(d, closure, w, w', id)
  }

  ghost predicate ProgressAt(d: Digests, closure: seq<Entry>, w: World, w': World, id: FileId) {
    var was, now := Lookup(w.files, id), Lookup(w'.files, id);
    || now == was
    || match RegionOf(w.lock, closure, id)
       case Foreign => false
       case Departed => now == None
       case Recorded => IsRecordedContent(d, closure, id, now)
  }

  /** A finished run: every recorded file verifies, every departed file is gone, no foreign file changed. */
  ghost predicate Synced(d: Digests, closure: seq<Entry>, w: World, w': World) {
    && (forall i | 0 <= i < |closure| :: Installed(d, w'.files, closure[i]))
    && forall id: FileId | !IsWriteResidue(id.1) :: SyncedAt(closure, w, w', id)
  }

  ghost predicate SyncedAt(closure: seq<Entry>, w: World, w': World, id: FileId) {
    match RegionOf(w.lock, closure, id)
    case Foreign => Lookup(w'.files, id) == Lookup(w.files, id)
    case Departed => Lookup(w'.files, id) == None
    case Recorded => true
  }

  lemma CutKeepsLock(w: World, plans: seq<Plan>, performed: seq<Step>)
    requires performed <= Steps(w.lock, plans, false)
    ensures Run(w, performed).lock == w.lock
  {
    StepsSaveNoLock(w.lock, plans);
    assert forall s | s in performed :: s in Steps(w.lock, plans, false);
    LockKept(w, performed);
  }

  /** The lock is the last step: what is cut before the end is a part of the steps without it. */
  lemma UnsavedPrefix(lock: seq<Entry>, plans: seq<Plan>, done: seq<Step>)
    requires done < Steps(lock, plans, true)
    ensures done <= Steps(lock, plans, false)
  {
    var all := Steps(lock, plans, true);
    assert Steps(lock, plans, false) == all[..|all| - 1];
  }

  /** Running every step but the last is a cut as well. */
  lemma UnsavedIsCut(w: World, plans: seq<Plan>)
    ensures CutAt(w, Steps(w.lock, plans, true), Steps(w.lock, plans, false), Run(w, Steps(w.lock, plans, false)))
  {
    var all := Steps(w.lock, plans, true);
    assert Steps(w.lock, plans, false) == all[..|all| - 1];
  }

  lemma CutOfUnsaved(w: World, plans: seq<Plan>, done: seq<Step>, w': World)
    requires CutAt(w, Steps(w.lock, plans, false), done, w')
    ensures CutAt(w, Steps(w.lock, plans, true), done, w')
  {
    var all := Steps(w.lock, plans, true);
    assert Steps(w.lock, plans, false) == all[..|all| - 1];
  }

  /** A cut run leaves at a place what was there, or the target of that place. */
  lemma CutLookup(w: World, plans: seq<Plan>, done: seq<Step>, w': World, id: FileId)
    requires DistinctPlans(plans) && CutAt(w, Steps(w.lock, plans, true), done, w') && !IsWriteResidue(id.1)
    ensures Lookup(w'.files, id) == Lookup(w.files, id)
            || Target(w.lock, plans, id) == Some(Lookup(w'.files, id))
  {
    var steps, t := Steps(w.lock, plans, true), Target(w.lock, plans, id);
    StepsMeetTargets(w.lock, plans, true, id);
    SettledRun(w, done, id, if t.Some? then t.value else None);
    var next := steps[|done|];
    assert next in steps;
    if Lookup(w'.files, id) != Lookup(Run(w, done).files, id) {
      assert next.DropPackage? && Touches(next, id);
    }
  }

  ghost predicate AllBodiesVerify(d: Digests, plans: seq<Plan>) {
    forall i | 0 <= i < |plans| :: BodiesVerify(d, plans[i].entry, plans[i].bodies)
  }

  /** Any cut of the steps is progress, whatever the step it stopped in left behind. */
  lemma CutIsProgress(d: Digests, w: World, plans: seq<Plan>, done: seq<Step>, w': World)
    requires DistinctPlans(plans) && AllBodiesVerify(d, plans)
    requires CutAt(w, Steps(w.lock, plans, true), done, w')
    ensures Progress(d, Entries(plans), w, w')
  {
    UnsavedPrefix(w.lock, plans, done);
    CutKeepsLock(w, plans, done);
    forall id: FileId | !IsWriteResidue(id.1) ensures ProgressAt(d, Entries(plans), w, w', id) {
      CutLookup(w, plans, done, w', id);
      if Lookup(w'.files, id) != Lookup(w.files, id) && RegionOf(w.lock, Entries(plans), id) == Recorded {
        var i := Find(Entries(plans), id.0);
        assert BodiesVerify(d, plans[i].entry, plans[i].bodies);
        assert Get(Entries(plans), id.0) == Some(plans[i].entry);
      }
    }
  }

  lemma {:induction false} ClosureSavesNoLock(lock: seq<Entry>, plans: seq<Plan>)
    ensures forall s | s in ClosureSteps(lock, plans) :: !s.SaveLock?
  {
    if plans != [] {
      var init, pl := plans[..|plans| - 1], plans[|plans| - 1];
      ClosureSavesNoLock(lock, init);
      PruneMembers(pl.entry.name, RecordedFiles(Get(LockAfter(lock, init), pl.entry.name)), pl.entry.Paths());
      WriteMembers(pl.entry.name, pl.entry.TreeFiles(), pl.bodies);
    }
  }

  lemma StepsSaveNoLock(lock: seq<Entry>, plans: seq<Plan>)
    ensures forall s | s in Steps(lock, plans, false) :: !s.SaveLock?
  {
    SweepMembers(lock, Names(Entries(plans)));
    ClosureSavesNoLock(Swept(lock, Names(Entries(plans))), plans);
  }

  /** After all steps a place holds its target, or what it held before. */
  lemma AfterAllSteps(w: World, plans: seq<Plan>, writeLock: bool, id: FileId)
    requires DistinctPlans(plans)
    ensures Lookup(Run(w, Steps(w.lock, plans, writeLock)).files, id) ==
            var t := Target(w.lock, plans, id); if t.Some? then t.value else Lookup(w.files, id)
  {
    var t := Target(w.lock, plans, id);
    StepsMeetTargets(w.lock, plans, writeLock, id);
    SettledRun(w, Steps(w.lock, plans, writeLock), id, if t.Some? then t.value else None);
    if t.Some? {
      TargetsAreMet(w.lock, plans, writeLock, id);
    }
  }

  lemma RecordedIsOnDisk(d: Digests, w: World, plans: seq<Plan>, writeLock: bool, i: nat, f: FileEntry)
    requires DistinctPlans(plans) && i < |plans| && f in plans[i].entry.TreeFiles()
    requires Coherent(plans[i].entry) && Fetched(d, w.files, plans[i])
    requires forall s | s in Steps(w.lock, plans, writeLock) :: Addressable(s)
    ensures OnDisk(d, Run(w, Steps(w.lock, plans, writeLock)).files, plans[i].entry, f)
  {
    var es := Entries(plans);
    var id := (es[i].name, f.path);
    FindUnique(es, i);
    assert Find(es, es[i].name) == i;
    assert RegionOf(w.lock, es, id) == Recorded;
    AfterAllSteps(w, plans, writeLock, id);
    if f.path in plans[i].bodies {
      StepsMeetTargets(w.lock, plans, writeLock, id);
      TargetsAreMet(w.lock, plans, writeLock, id);
    }
  }

  /** All steps over verified plans finish the closure. */
  lemma CompleteIsSynced(d: Digests, w: World, plans: seq<Plan>, writeLock: bool)
    requires DistinctPlans(plans) && AllCoherent(Entries(plans)) && AllFetched(d, w.files, plans)
    requires forall s | s in Steps(w.lock, plans, writeLock) :: Addressable(s)
    ensures Synced(d, Entries(plans), w, Run(w, Steps(w.lock, plans, writeLock)))
  {
    var es := Entries(plans);
    var w' := Run(w, Steps(w.lock, plans, writeLock));
    forall i | 0 <= i < |es| ensures Installed(d, w'.files, es[i]) {
      forall f | f in es[i].TreeFiles() ensures OnDisk(d, w'.files, es[i], f) {
        assert Coherent(es[i]) && Fetched(d, w.files, plans[i]);
        RecordedIsOnDisk(d, w, plans, writeLock, i, f);
      }
    }
    forall id: FileId | !IsWriteResidue(id.1) ensures SyncedAt(es, w, w', id) {
      AfterAllSteps(w, plans, writeLock, id);
    }
  }

  /** The saved lock after a complete run is the closure, whatever the lock was. */
  lemma CompleteSavesClosure(w: World, plans: seq<Plan>)
    requires DistinctPlans(plans) && DistinctNames(w.lock)
    ensures Run(w, Steps(w.lock, plans, true)).lock == Saved(Entries(plans))
  {
    var steps := Steps(w.lock, plans, true);
    assert steps[|steps| - 1] == SaveLock(Saved(FinalLock(w.lock, plans)));
    FinalLockIsClosure(w.lock, plans);
  }

  lemma ProgressComposes(d: Digests, closure: seq<Entry>, a: World, b: World, c: World)
    requires Progress(d, closure, a, b) && Progress(d, closure, b, c)
    ensures Progress(d, closure, a, c)
  {
    forall id: FileId | !IsWriteResidue(id.1) ensures ProgressAt(d, closure, a, c, id) {
      assert ProgressAt(d, closure, a, b, id) && ProgressAt(d, closure, b, c, id);
    }
  }

  lemma ProgressThenSynced(d: Digests, closure: seq<Entry>, a: World, b: World, c: World)
    requires Progress(d, closure, a, b) && Synced(d, closure, b, c)
    ensures Synced(d, closure, a, c)
  {
    forall id: FileId | !IsWriteResidue(id.1) ensures SyncedAt(closure, a, c, id) {
      assert ProgressAt(d, closure, a, b, id) && SyncedAt(closure, b, c, id);
    }
  }

  /** Any number of interrupted attempts is progress, and one more that completes ends like an uninterrupted run from
      the start: judged against the first world, not against the last one. */
  lemma {:induction false} InterruptedSyncRecovers(d: Digests, closure: seq<Entry>, ws: seq<World>)
    requires |ws| >= 2 && ProgressAll(d, closure, ws[..|ws| - 1])
    requires Synced(d, closure, ws[|ws| - 2], ws[|ws| - 1])
    ensures Progress(d, closure, ws[0], ws[|ws| - 2])
    ensures Synced(d, closure, ws[0], ws[|ws| - 1])
  {
    AttemptsAreProgress(d, closure, ws[..|ws| - 1]);
    ProgressThenSynced(d, closure, ws[0], ws[|ws| - 2], ws[|ws| - 1]);
  }

  /** Each world is progress from the one before it. */
  ghost predicate ProgressAll(d: Digests, closure: seq<Entry>, ws: seq<World>) {
    forall i | 0 < i < |ws| :: Progress(d, closure, ws[i - 1], ws[i])
  }

  lemma {:induction false} AttemptsAreProgress(d: Digests, closure: seq<Entry>, ws: seq<World>)
    requires ws != [] && ProgressAll(d, closure, ws)
    ensures Progress(d, closure, ws[0], ws[|ws| - 1])
  {
    var n := |ws| - 1;
    if n > 0 {
      assert Progress(d, closure, ws[n - 1], ws[n]);
      AttemptsAreProgress(d, closure, ws[..n]);
      ProgressComposes(d, closure, ws[0], ws[n - 1], ws[n]);
    }
  }

  /** Two finished runs from one start hold the same files, whatever happened on the way; recorded files may differ in
      bytes that have the same digest. */
  lemma RecoveredMatchesUninterrupted(d: Digests, closure: seq<Entry>, w: World, a: World, b: World, id: FileId)
    requires Synced(d, closure, w, a) && Synced(d, closure, w, b) && !IsWriteResidue(id.1)
    ensures id in a.files <==> id in b.files
    ensures RegionOf(w.lock, closure, id) != Recorded ==> Lookup(a.files, id) == Lookup(b.files, id)
    ensures RegionOf(w.lock, closure, id) == Recorded ==>
              id in a.files && forall f | f in Get(closure, id.0).value.TreeFiles() && f.path == id.1 ::
                var e := Get(closure, id.0).value;
                DigestOf(d, e.format, f.kind, a.files[id]) == DigestOf(d, e.format, f.kind, b.files[id]) ==
                    Some(f.digest)
  {
    if RegionOf(w.lock, closure, id) == Recorded {
      var i := Find(closure, id.0);
      var e := closure[i];
      assert Installed(d, a.files, e) && Installed(d, b.files, e);
      forall f | f in e.TreeFiles() && f.path == id.1 ensures OnDisk(d, a.files, e, f) && OnDisk(d, b.files, e, f) {
      }
    } else {
      assert SyncedAt(closure, w, a, id) && SyncedAt(closure, w, b, id);
    }
  }
}
