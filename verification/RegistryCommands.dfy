/** The sync behind add and update, and install: fetch everything first, then materialize. */
module RegistryCommands {
  import opened Text
  import opened Sequences
  import opened Packages
  import opened Lockfiles
  import opened Store
  import opened Closure
  import opened Recovery
  import opened RegistrySync
  import opened Materialize
  import opened LockDrift
  import Sorting

  // -------------------------------------------------------------------- sync

  /** The plans of a closure, or None when one package cannot be fetched. */
  function PlansOf(rules: Rules, s: Server, files: Files, rs: seq<Resolved>): Option<seq<Plan>> {
    AllOf(PlanList(rules, s, files, rs))
  }

  function PlanList(rules: Rules, s: Server, files: Files, rs: seq<Resolved>): (r: seq<Option<Plan>>)
    ensures |r| == |rs| && forall i | 0 <= i < |r| :: r[i] == PlanOf(rules, s, files, rs[i])
  {
    seq(|rs|, i requires 0 <= i < |rs| => PlanOf(rules, s, files, rs[i]))
  }

  /** A failure anywhere in the closure changes nothing: fetching has no effects. */
  method FetchClosure(disk: Disk, rules: Rules, s: Server, rs: seq<Resolved>) returns (res: Option<seq<Plan>>)
    ensures res == PlansOf(rules, s, disk.files, rs)
  {
    ghost var list := PlanList(rules, s, disk.files, rs);
    var plans: seq<Plan> := [];
    AllOfNothing(list);
    for i := 0 to |rs|
      invariant AllOf(list[..i]) == Some(plans)
    {
      var pl := FetchPackage(disk, rules, s, rs[i]);
      if pl.None? {
        NotAllOf(list, i);
        return None;
      }
      AllOfNext(list, i, plans);
      plans := plans + [pl.value];
    }
    res := Some(plans);
  }

  /** A closure can be fetched exactly if each of its packages can. */
  lemma PlansWhen(rules: Rules, s: Server, files: Files, rs: seq<Resolved>)
    ensures PlansOf(rules, s, files, rs).Some? <==> forall i | 0 <= i < |rs| :: CanFetch(rules, s, files, rs[i])
    ensures PlansOf(rules, s, files, rs).Some? ==> ArePlans(rules, s, files, rs, PlansOf(rules, s, files, rs).value)
  {
    forall i | 0 <= i < |rs| ensures PlanList(rules, s, files, rs)[i].Some? <==> CanFetch(rules, s, files, rs[i]) {
      PlanWhen(rules, s, files, rs[i]);
    }
  }

  predicate ArePlans(rules: Rules, s: Server, files: Files, rs: seq<Resolved>, plans: seq<Plan>) {
    |plans| == |rs| && forall i | 0 <= i < |rs| :: PlanOf(rules, s, files, rs[i]) == Some(plans[i])
  }

  lemma PlansAreFetched(rules: Rules, s: Server, files: Files, rs: seq<Resolved>)
    requires PlansOf(rules, s, files, rs).Some?
    ensures var plans := PlansOf(rules, s, files, rs).value;
            && Entries(plans) == ClosureOf(rules, s, rs)
            && AllFetched(rules.digests, files, plans) && AllBodiesVerify(rules.digests, plans)
  {
    PlansWhen(rules, s, files, rs);
    var plans := PlansOf(rules, s, files, rs).value;
    forall i | 0 <= i < |rs|
      ensures plans[i].entry == EntryOf(rules, s, rs[i]) && Fetched(rules.digests, files, plans[i])
    {
      PlanWhen(rules, s, files, rs[i]);
    }
  }

  /** A sync completes exactly if the closure can be fetched, and the store takes every step that follows from it. */
  predicate SyncCompletes(rules: Rules, s: Server, rs: seq<Resolved>, w: World, budget: nat) {
    var plans := PlansOf(rules, s, w.files, rs);
    plans.Some? && Completes(Steps(w.lock, plans.value, true), budget)
  }

  /** What a sync saves says of each package what the registry resolved. */
  lemma SavedClosureRecords(rules: Rules, s: Server, files: Files, rs: seq<Resolved>)
    requires DistinctNames(ClosureOf(rules, s, rs)) && PlansOf(rules, s, files, rs).Some?
    ensures LockRecords(rules, s, rs, Saved(ClosureOf(rules, s, rs)))
  {
    var closure := ClosureOf(rules, s, rs);
    PlansWhen(rules, s, files, rs);
    SavedIsDistinct(closure);
    SavedNamesResolved(rules, s, rs);
    forall r | r in rs
      ensures Get(Saved(closure), r.name).Some? && Records(rules, s, r, Get(Saved(closure), r.name).value)
    {
      var i :| 0 <= i < |rs| && rs[i] == r;
      assert closure[i].name == r.name;
      FindUnique(closure, i);
      SavedGet(closure, r.name);
      SavedEntryRecords(rules, s, files, r);
    }
  }

  lemma SavedNamesResolved(rules: Rules, s: Server, rs: seq<Resolved>)
    ensures forall e | e in Saved(ClosureOf(rules, s, rs)) :: exists r :: r in rs && r.name == e.name
  {
    var closure := ClosureOf(rules, s, rs);
    SavedElements(closure);
    forall e | e in Saved(closure) ensures exists r :: r in rs && r.name == e.name {
      assert e.name in Names(Saved(closure));
      NameIsResolved(rules, s, rs, e.name);
    }
  }

  lemma NameIsResolved(rules: Rules, s: Server, rs: seq<Resolved>, name: string)
    requires name in Names(ClosureOf(rules, s, rs))
    ensures exists r :: r in rs && r.name == name
  {
    var closure := ClosureOf(rules, s, rs);
    var i :| 0 <= i < |closure| && closure[i].name == name;
    assert rs[i] in rs;
  }

  /** When the resolved closure answers the declarations, the lock that a sync saves has no drift. */
  lemma SyncedLockHasNoDrift(isPin: string -> bool, deps: map<string, string>, rules: Rules, s: Server,
                             rs: seq<Resolved>, lock: seq<Entry>)
    requires LockRecords(rules, s, rs, lock)
    requires forall r | r in rs :: r.direct <==> r.name in deps
    requires forall n | n in deps :: exists r :: r in rs && r.name == n
    requires forall r | r in rs && r.direct ::
               var ref := if deps[r.name] == "" then "latest" else deps[r.name];
               if isPin(ref) then r.version == ref else r.tag == ref
    ensures DriftFree(isPin, deps, lock)
  {
    forall n | n in deps ensures Honoured(isPin, deps, lock, n) {
      var r :| r in rs && r.name == n;
      assert Records(rules, s, r, Get(lock, r.name).value);
    }
    DirectIsDeclared(deps, rules, s, rs, lock);
  }

  lemma DirectIsDeclared(deps: map<string, string>, rules: Rules, s: Server, rs: seq<Resolved>, lock: seq<Entry>)
    requires LockRecords(rules, s, rs, lock) && forall r | r in rs :: r.direct <==> r.name in deps
    ensures DirectNames(lock) <= deps.Keys && forall e | e in lock :: e.format != NoFormat
  {
    LockedIsResolved(rules, s, rs, lock);
    forall e | e in lock ensures e.format != NoFormat && (e.direct ==> e.name in deps) {
      var r :| r in rs && Records(rules, s, r, e);
    }
  }

  /** Each entry of such a lock belongs to a package of the closure. */
  lemma LockedIsResolved(rules: Rules, s: Server, rs: seq<Resolved>, lock: seq<Entry>)
    requires LockRecords(rules, s, rs, lock)
    ensures forall e | e in lock :: exists r :: r in rs && Records(rules, s, r, e)
  {
    forall e | e in lock ensures exists r :: r in rs && Records(rules, s, r, e) {
      var r :| r in rs && r.name == e.name;
      var i :| 0 <= i < |lock| && lock[i] == e;
      FindUnique(lock, i);
      assert Records(rules, s, r, Get(lock, r.name).value);
    }
  }

  /** Whatever interrupts it, a sync leaves progress towards the closure; a failed fetch leaves everything as it was.
      When it succeeds the store and the saved lock are the closure. */
  method Sync(disk: Disk, rules: Rules, s: Server, rs: seq<Resolved>) returns (ok: bool)
    requires DistinctNames(ClosureOf(rules, s, rs))
    modifies disk
    ensures ok <==> SyncCompletes(rules, s, rs, old(disk.Snapshot()), old(disk.effects))
    ensures PlansOf(rules, s, old(disk.files), rs).None? ==> disk.Snapshot() == old(disk.Snapshot())
    ensures !ok ==> Progress(rules.digests, ClosureOf(rules, s, rs), old(disk.Snapshot()), disk.Snapshot())
    ensures ok && AllCoherent(ClosureOf(rules, s, rs)) ==>
              Synced(rules.digests, ClosureOf(rules, s, rs), old(disk.Snapshot()), disk.Snapshot())
    ensures ok && DistinctNames(old(disk.lock)) ==> disk.lock == Saved(ClosureOf(rules, s, rs))
    ensures ok && DistinctNames(old(disk.lock)) ==> LockRecords(rules, s, rs, disk.lock)
  {
    ghost var w, budget := disk.Snapshot(), disk.effects;
    var plans := FetchClosure(disk, rules, s, rs);
    if plans.None? { return false; }
    PlansAreFetched(rules, s, disk.files, rs);
    ghost var done;
    ok, done := Materialize.Materialize(disk, plans.value, true);
    PerformedWhen(w, budget, Steps(w.lock, plans.value, true), done, ok, disk.Snapshot(), disk.effects);
    if ok {
      if AllCoherent(Entries(plans.value)) {
        CompleteIsSynced(rules.digests, w, plans.value, true);
      }
      if DistinctNames(w.lock) {
        CompleteSavesClosure(w, plans.value);
        SavedClosureRecords(rules, s, w.files, rs);
      }
    } else {
      CutIsProgress(rules.digests, w, plans.value, done, disk.Snapshot());
    }
  }

  // ---------------------------------------------------------------- recovery

  /** What verified for an entry before an interrupted run verifies after it. */
  lemma StaysOnDisk(d: Digests, closure: seq<Entry>, w: World, w': World, e: Entry, f: FileEntry)
    requires Progress(d, closure, w, w') && Get(closure, e.name) == Some(Fetchable(e)) && Coherent(Fetchable(e))
    requires f in e.TreeFiles() && OnDisk(d, w.files, e, f)
    ensures OnDisk(d, w'.files, e, f)
  {
    var id := (e.name, f.path);
    SameFiles(e);
    ValidPathIsNoResidue(f.path);
    assert RegionOf(w.lock, closure, id) == Recorded;
    assert ProgressAt(d, closure, w, w', id);
    assert Lookup(w.files, id) == Some(w.files[id]);
  }

  /** A run after an interrupted one can fetch what the first could, and has no more to download. */
  lemma FetchStaysPossible(rules: Rules, s: Server, closure: seq<Entry>, w: World, w': World, r: Resolved)
    requires var e := EntryOf(rules, s, r);
             Progress(rules.digests, closure, w, w') && Get(closure, e.name) == Some(e) && Coherent(e)
    requires CanFetch(rules, s, w.files, r)
    ensures CanFetch(rules, s, w'.files, r)
    ensures forall p :: Downloads(rules, s, w'.files, r, p) ==> Downloads(rules, s, w.files, r, p)
  {
    var d, e := rules.digests, EntryOf(rules, s, r);
    assert Fetchable(e) == e;
    forall f | f in e.TreeFiles() && OnDisk(d, w.files, e, f) ensures OnDisk(d, w'.files, e, f) {
      StaysOnDisk(d, closure, w, w', e, f);
    }
    if r.Format() == DocumentFormat {
      DocumentFiles(rules, s, r);
    }
  }

  /** Writing fewer bodies takes no more steps, and none of another kind. */
  lemma {:induction false} FewerWrites(name: string, fs: seq<FileEntry>, a: map<string, Bytes>, b: map<string, Bytes>)
    requires b.Keys <= a.Keys
    ensures |WriteSteps(name, fs, b)| <= |WriteSteps(name, fs, a)|
    ensures (forall s | s in WriteSteps(name, fs, a) :: Addressable(s)) ==>
              forall s | s in WriteSteps(name, fs, b) :: Addressable(s)
  {
    if fs != [] {
      var init, f := fs[..|fs| - 1], fs[|fs| - 1];
      FewerWrites(name, init, a, b);
      if f.path in a {
        assert WriteSteps(name, fs, a) == WriteSteps(name, init, a) + [WriteFile(name, f.path, a[f.path])];
        assert WriteFile(name, f.path, a[f.path]) in WriteSteps(name, fs, a);
      }
    }
  }

  /** b is a with perhaps fewer bodies. */
  ghost predicate FewerBodies(a: seq<Plan>, b: seq<Plan>) {
    && |b| == |a|
    && forall i | 0 <= i < |a| :: b[i].entry == a[i].entry && b[i].bodies.Keys <= a[i].bodies.Keys
  }

  lemma {:induction false} FewerClosureSteps(lock: seq<Entry>, a: seq<Plan>, b: seq<Plan>)
    requires FewerBodies(a, b)
    ensures LockAfter(lock, b) == LockAfter(lock, a)
    ensures |ClosureSteps(lock, b)| <= |ClosureSteps(lock, a)|
    ensures (forall s | s in ClosureSteps(lock, a) :: Addressable(s)) ==>
              forall s | s in ClosureSteps(lock, b) :: Addressable(s)
  {
    if a != [] {
      var n := |a| - 1;
      FewerClosureSteps(lock, a[..n], b[..n]);
      var e := a[n].entry;
      FewerWrites(e.name, e.TreeFiles(), a[n].bodies, b[n].bodies);
    }
  }

  lemma FewerSteps(lock: seq<Entry>, a: seq<Plan>, b: seq<Plan>, budget: nat)
    requires FewerBodies(a, b) && Completes(Steps(lock, a, true), budget)
    ensures Completes(Steps(lock, b, true), budget)
  {
    assert Entries(a) == Entries(b);
    var keep := Names(Entries(a));
    FewerClosureSteps(Swept(lock, keep), a, b);
  }

  /** The registry gives the same answers: whoever could have finished from the start can finish from wherever an
      interrupted attempt got to. */
  lemma SyncStaysPossible(rules: Rules, s: Server, rs: seq<Resolved>, w: World, w': World, budget: nat)
    requires DistinctNames(ClosureOf(rules, s, rs)) && AllCoherent(ClosureOf(rules, s, rs))
    requires Progress(rules.digests, ClosureOf(rules, s, rs), w, w') && SyncCompletes(rules, s, rs, w, budget)
    ensures SyncCompletes(rules, s, rs, w', budget)
  {
    var closure := ClosureOf(rules, s, rs);
    PlansWhen(rules, s, w.files, rs);
    PlansWhen(rules, s, w'.files, rs);
    forall i | 0 <= i < |rs|
      ensures CanFetch(rules, s, w'.files, rs[i])
      ensures forall p :: Downloads(rules, s, w'.files, rs[i], p) ==> Downloads(rules, s, w.files, rs[i], p)
    {
      FindUnique(closure, i);
      assert Coherent(closure[i]) && closure[i].name == rs[i].name;
      FetchStaysPossible(rules, s, closure, w, w', rs[i]);
    }
    var a, b := PlansOf(rules, s, w.files, rs).value, PlansOf(rules, s, w'.files, rs).value;
    forall i | 0 <= i < |rs| ensures b[i].entry == a[i].entry && b[i].bodies.Keys <= a[i].bodies.Keys {
      PlanWhen(rules, s, w.files, rs[i]);
      PlanWhen(rules, s, w'.files, rs[i]);
    }
    FewerSteps(w.lock, a, b, budget);
  }

  /** One more attempt, judged against the world before the first. */
  method SyncAgain(disk: Disk, rules: Rules, s: Server, rs: seq<Resolved>, budget: nat, ghost w: World)
    returns (ok: bool)
    requires DistinctNames(ClosureOf(rules, s, rs)) && AllCoherent(ClosureOf(rules, s, rs))
    requires Progress(rules.digests, ClosureOf(rules, s, rs), w, disk.Snapshot())
    modifies disk
    ensures ok ==> Synced(rules.digests, ClosureOf(rules, s, rs), w, disk.Snapshot())
    ensures ok && DistinctNames(w.lock) ==> disk.lock == Saved(ClosureOf(rules, s, rs))
    ensures ok && DistinctNames(w.lock) ==> LockRecords(rules, s, rs, disk.lock)
    ensures !ok ==> Progress(rules.digests, ClosureOf(rules, s, rs), w, disk.Snapshot())
    ensures SyncCompletes(rules, s, rs, w, budget) ==> ok
  {
    ghost var now := disk.Snapshot();
    disk.Restart(budget);
    ok := Sync(disk, rules, s, rs);
    if SyncCompletes(rules, s, rs, w, budget) {
      SyncStaysPossible(rules, s, rs, w, now, budget);
    }
    if ok {
      ProgressThenSynced(rules.digests, ClosureOf(rules, s, rs), w, now, disk.Snapshot());
    } else {
      ProgressComposes(rules.digests, ClosureOf(rules, s, rs), w, now, disk.Snapshot());
    }
  }

  /** None of these budgets is enough for an uninterrupted run. */
  ghost predicate NoneCompletes(rules: Rules, s: Server, rs: seq<Resolved>, w: World, budgets: seq<nat>) {
    forall n | n in budgets :: !SyncCompletes(rules, s, rs, w, n)
  }

  lemma NorTheNext(rules: Rules, s: Server, rs: seq<Resolved>, w: World, budgets: seq<nat>, n: nat)
    requires NoneCompletes(rules, s, rs, w, budgets) && !SyncCompletes(rules, s, rs, w, n)
    ensures NoneCompletes(rules, s, rs, w, budgets + [n])
  {
  }

  /** The sync, run again after each interruption: every attempt gets its own number of effects. It ends as an
      uninterrupted run would have, as soon as one attempt gets as many as an uninterrupted run needs. */
  method SyncUntilDone(disk: Disk, rules: Rules, s: Server, rs: seq<Resolved>, budgets: seq<nat>) returns (ok: bool)
    requires DistinctNames(ClosureOf(rules, s, rs)) && AllCoherent(ClosureOf(rules, s, rs))
    modifies disk
    ensures ok ==> Synced(rules.digests, ClosureOf(rules, s, rs), old(disk.Snapshot()), disk.Snapshot())
    ensures ok && DistinctNames(old(disk.lock)) ==> disk.lock == Saved(ClosureOf(rules, s, rs))
    ensures ok && DistinctNames(old(disk.lock)) ==> LockRecords(rules, s, rs, disk.lock)
    ensures !ok ==> Progress(rules.digests, ClosureOf(rules, s, rs), old(disk.Snapshot()), disk.Snapshot())
    ensures !ok ==> NoneCompletes(rules, s, rs, old(disk.Snapshot()), budgets)
  {
    ghost var w, closure := disk.Snapshot(), ClosureOf(rules, s, rs);
    ok := false;
    for i := 0 to |budgets|
      invariant Progress(rules.digests, closure, w, disk.Snapshot())
      invariant NoneCompletes(rules, s, rs, w, budgets[..i])
    {
      ok := SyncAgain(disk, rules, s, rs, budgets[i], w);
      if ok { return; }
      TakeNext(budgets, i);
      NorTheNext(rules, s, rs, w, budgets[..i], budgets[i]);
    }
    assert budgets[..|budgets|] == budgets;
  }

  // ----------------------------------------------------------------- install

  datatype InstallResult = NothingToInstall | NoPackages | OutOfDate(drift: Drift) | FetchFailed | Interrupted
    | Installed

  function FetchableAll(es: seq<Entry>): (r: seq<Entry>)
    ensures |r| == |es|
    ensures forall i | 0 <= i < |r| :: r[i] == Fetchable(es[i])
  {
    seq(|es|, i requires 0 <= i < |es| => Fetchable(es[i]))
  }

  function FetchablePlans(plans: seq<Plan>): (r: seq<Plan>)
    ensures |r| == |plans|
    ensures forall i | 0 <= i < |r| :: r[i] == Plan(Fetchable(plans[i].entry), plans[i].bodies)
  {
    seq(|plans|, i requires 0 <= i < |plans| => Plan(Fetchable(plans[i].entry), plans[i].bodies))
  }

  /** The steps do not depend on the format that only fetching corrects. */
  lemma {:induction false} SameClosureSteps(lock: seq<Entry>, plans: seq<Plan>)
    requires DistinctPlans(plans) && DistinctPlans(FetchablePlans(plans))
    ensures ClosureSteps(lock, plans) == ClosureSteps(lock, FetchablePlans(plans))
  {
    if plans != [] {
      var n := |plans| - 1;
      LastPlan(lock, plans);
      LastPlan(lock, FetchablePlans(plans));
      assert FetchablePlans(plans)[..n] == FetchablePlans(plans[..n]);
      SameClosureSteps(lock, plans[..n]);
      SamePackageSteps(Get(lock, plans[n].entry.name), plans[n]);
    }
  }

  /** The format an entry is fetched as changes neither its files nor its steps. */
  lemma SamePackageSteps(prev: Option<Entry>, pl: Plan)
    ensures PackageSteps(prev, Plan(Fetchable(pl.entry), pl.bodies)) == PackageSteps(prev, pl)
  {
    SameFiles(pl.entry);
  }

  lemma SameFiles(e: Entry)
    ensures Fetchable(e).TreeFiles() == e.TreeFiles() && Fetchable(e).Paths() == e.Paths()
            && Fetchable(e).name == e.name
  {
    assert Fetchable(e).TreeFiles() == e.TreeFiles();
  }

  lemma SameSteps(lock: seq<Entry>, plans: seq<Plan>)
    requires DistinctPlans(plans)
    ensures DistinctPlans(FetchablePlans(plans))
    ensures Entries(FetchablePlans(plans)) == FetchableAll(Entries(plans))
    ensures Steps(lock, plans, false) == Steps(lock, FetchablePlans(plans), false)
  {
    var es, fs := Entries(plans), Entries(FetchablePlans(plans));
    assert fs == FetchableAll(es);
    assert Names(fs) == Names(es) by {
      assert forall i | 0 <= i < |es| :: fs[i].name == es[i].name && es[i] in es && fs[i] in fs;
    }
    SameClosureSteps(Swept(lock, Names(es)), plans);
  }

  function LockedPlans(s: Server, d: Digests, files: Files, es: seq<Entry>): Option<seq<Plan>> {
    AllOf(LockedPlanList(s, d, files, es))
  }

  function LockedPlanList(s: Server, d: Digests, files: Files, es: seq<Entry>): (r: seq<Option<Plan>>)
    ensures |r| == |es| && forall i | 0 <= i < |r| :: r[i] == LockedPlan(s, d, files, es[i])
  {
    seq(|es|, i requires 0 <= i < |es| => LockedPlan(s, d, files, es[i]))
  }

  method FetchLocked(disk: Disk, d: Digests, s: Server, es: seq<Entry>) returns (res: Option<seq<Plan>>)
    ensures res == LockedPlans(s, d, disk.files, es)
  {
    ghost var list := LockedPlanList(s, d, disk.files, es);
    var plans: seq<Plan> := [];
    AllOfNothing(list);
    for i := 0 to |es|
      invariant AllOf(list[..i]) == Some(plans)
    {
      var pl := FetchFiles(disk, d, s, es[i]);
      if pl.None? {
        NotAllOf(list, i);
        return None;
      }
      AllOfNext(list, i, plans);
      plans := plans + [pl.value];
    }
    res := Some(plans);
  }

  /** Locked packages can be fetched exactly if every recorded file can be had. */
  lemma LockedPlansWhen(s: Server, d: Digests, files: Files, es: seq<Entry>)
    ensures LockedPlans(s, d, files, es).Some? <==>
              forall i | 0 <= i < |es| :: forall f | f in es[i].TreeFiles() :: Obtainable(s, d, files, es[i], f)
    ensures LockedPlans(s, d, files, es).Some? ==> AreLockedPlans(s, d, files, es, LockedPlans(s, d, files, es).value)
  {
    forall i | 0 <= i < |es|
      ensures LockedPlanList(s, d, files, es)[i].Some? <==>
              forall f | f in es[i].TreeFiles() :: Obtainable(s, d, files, es[i], f)
    {
      LockedPlanWhen(s, d, files, es[i]);
    }
  }

  predicate AreLockedPlans(s: Server, d: Digests, files: Files, es: seq<Entry>, plans: seq<Plan>) {
    |plans| == |es| && forall i | 0 <= i < |es| :: LockedPlan(s, d, files, es[i]) == Some(plans[i])
  }

  lemma LockedAreFetched(s: Server, d: Digests, files: Files, es: seq<Entry>)
    requires LockedPlans(s, d, files, es).Some?
    ensures var plans := LockedPlans(s, d, files, es).value;
            && Entries(plans) == es && AllFetched(d, files, FetchablePlans(plans))
            && AllBodiesVerify(d, FetchablePlans(plans))
  {
    LockedPlansWhen(s, d, files, es);
    var plans := LockedPlans(s, d, files, es).value;
    forall i | 0 <= i < |es|
      ensures plans[i].entry == es[i] && Fetched(d, files, Plan(Fetchable(plans[i].entry), plans[i].bodies))
    {
      LockedPlanWhen(s, d, files, es[i]);
    }
  }

  /** Install gets past its checks. */
  ghost predicate Installable(isPin: string -> bool, deps: map<string, string>, lock: seq<Entry>) {
    lock != [] && DriftFree(isPin, deps, lock)
  }

  function SortedEntries(lock: seq<Entry>): seq<Entry> {
    Sorting.SortBy(NameKey, lock)
  }

  /** Install never rewrites the lock, changes nothing that the lock does not record, and leaves a recorded file as it
      was or verified; when it finishes every locked file verifies under the format it is fetched as. It fails exactly
      for a drifted lock, a file that can be had neither on disk nor by download, or a step the store refuses. */
  method Install(disk: Disk, isPin: string -> bool, deps: map<string, string>, d: Digests, s: Server)
    returns (res: InstallResult)
    modifies disk
    ensures disk.lock == old(disk.lock)
    ensures res.NothingToInstall? || res.NoPackages? || res.OutOfDate? || res.FetchFailed? ==>
              disk.Snapshot() == old(disk.Snapshot())
    ensures res.NothingToInstall? <==> disk.lock == [] && deps == map[]
    ensures res.NoPackages? <==> disk.lock == [] && deps != map[]
    ensures res.OutOfDate? <==> disk.lock != [] && !DriftFree(isPin, deps, disk.lock)
    ensures res.OutOfDate? ==> Justified(isPin, deps, disk.lock, res.drift)
    ensures var plans := LockedPlans(s, d, old(disk.files), SortedEntries(disk.lock));
            && (res.FetchFailed? <==> Installable(isPin, deps, disk.lock) && plans.None?)
            && (res.Installed? <==> Installable(isPin, deps, disk.lock) && plans.Some?
                                    && Completes(Steps(disk.lock, plans.value, false), old(disk.effects)))
    ensures DistinctNames(disk.lock) ==> OnlyRecordedChanges(disk.lock, old(disk.files), disk.files)
    ensures DistinctNames(disk.lock) ==>
              Progress(d, FetchableAll(SortedEntries(disk.lock)), old(disk.Snapshot()), disk.Snapshot())
    ensures res.Installed? && DistinctNames(disk.lock) && AllCoherent(disk.lock) ==>
              forall e | e in disk.lock :: Recovery.Installed(d, disk.files, Fetchable(e))
  {
    var lock := disk.lock;
    ghost var w, budget := disk.Snapshot(), disk.effects;
    var entries := SortedEntries(lock);
    SortedLock(lock);
    NoChange(d, lock, entries, w);
    if lock == [] {
      return if deps.Keys == {} then NothingToInstall else NoPackages;
    }
    var drift := CheckLockDrift(isPin, deps, lock);
    if drift.Some? { return OutOfDate(drift.value); }
    var plans := FetchLocked(disk, d, s, entries);
    if plans.None? { return FetchFailed; }
    LockedAreFetched(s, d, disk.files, entries);
    ghost var done;
    var ok;
    ok, done := Materialize.Materialize(disk, plans.value, false);
    PerformedWhen(w, budget, Steps(lock, plans.value, false), done, ok, disk.Snapshot(), disk.effects);
    CutKeepsLock(w, plans.value, done);
    if DistinctNames(lock) {
      InstallIsProgress(d, lock, plans.value, w, budget, done, ok, disk.Snapshot(), disk.effects);
    }
    res := if ok then Installed else Interrupted;
  }

  lemma NoChange(d: Digests, lock: seq<Entry>, entries: seq<Entry>, w: World)
    ensures OnlyRecordedChanges(lock, w.files, w.files) && Progress(d, FetchableAll(entries), w, w)
  {
    assert forall id: FileId :: ProgressAt(d, FetchableAll(entries), w, w, id);
  }

  /** What performing the steps of an install means, to the end or not. */
  lemma InstallIsProgress(d: Digests, lock: seq<Entry>, plans: seq<Plan>, w: World, budget: nat, done: seq<Step>,
                          ok: bool, w': World, effects: nat)
    requires w.lock == lock && DistinctNames(lock) && Entries(plans) == SortedEntries(lock)
    requires AllFetched(d, w.files, FetchablePlans(plans)) && AllBodiesVerify(d, FetchablePlans(plans))
    requires Performed(w, budget, Steps(lock, plans, false), done, ok, w', effects)
    ensures OnlyRecordedChanges(lock, w.files, w'.files)
    ensures Progress(d, FetchableAll(SortedEntries(lock)), w, w')
    ensures ok && AllCoherent(lock) ==> forall e | e in lock :: Recovery.Installed(d, w'.files, Fetchable(e))
  {
    var entries, fetched := SortedEntries(lock), FetchablePlans(plans);
    SortedLock(lock);
    SameSteps(lock, plans);
    if ok {
      UnsavedIsCut(w, fetched);
    } else {
      CutOfUnsaved(w, fetched, done, w');
    }
    CutIsProgress(d, w, fetched, done, w');
    ProgressOnItself(d, lock, entries, w, w');
    if ok && AllCoherent(lock) {
      CoherentAsFetched(lock, entries);
      CompleteIsSynced(d, w, fetched, false);
      SyncedOnItself(d, lock, entries, w, w');
    }
  }

  /** Files the lock does not record are as before, write residue aside. */
  ghost predicate OnlyRecordedChanges(lock: seq<Entry>, before: Files, after: Files) {
    forall id: FileId | !IsWriteResidue(id.1) && !(exists e :: e in lock && e.name == id.0 && id.1 in e.Paths()) ::
      Lookup(after, id) == Lookup(before, id)
  }

  lemma SortedLock(lock: seq<Entry>)
    ensures forall e :: e in SortedEntries(lock) <==> e in lock
    ensures DistinctNames(lock) ==> DistinctNames(SortedEntries(lock))
  {
    Sorting.SortByCorrect(NameKey, lock);
    if DistinctNames(lock) {
      Sorting.DistinctKeysOfPermutation(NameKey, lock, Sorting.SortBy(NameKey, lock));
    }
  }

  lemma CoherentAsFetched(lock: seq<Entry>, entries: seq<Entry>)
    requires AllCoherent(lock) && forall e | e in entries :: e in lock
    ensures AllCoherent(FetchableAll(entries))
  {
    forall i | 0 <= i < |entries| ensures Coherent(Fetchable(entries[i])) {
      assert entries[i] in entries;
      assert Coherent(entries[i]);
      assert Fetchable(entries[i]).TreeFiles() == entries[i].TreeFiles();
    }
  }

  /** Moving a lock to itself has no departed files. */
  lemma RegionOnItself(lock: seq<Entry>, entries: seq<Entry>, id: FileId)
    requires DistinctNames(lock) && DistinctNames(entries) && forall e :: e in entries <==> e in lock
    ensures RegionOf(lock, FetchableAll(entries), id) ==
            if exists e :: e in lock && e.name == id.0 && id.1 in e.Paths() then Recorded else Foreign
  {
    var closure := FetchableAll(entries);
    var i := Find(closure, id.0);
    if i < |entries| {
      FoundOnItself(lock, entries, id.0);
      SameFiles(entries[i]);
    } else {
      forall e | e in lock ensures e.name != id.0 {
        var j :| 0 <= j < |entries| && entries[j] == e;
        assert closure[j].name == e.name;
      }
    }
  }

  /** A name found in the closure is found in the lock, with the entry it was made from. */
  lemma FoundOnItself(lock: seq<Entry>, entries: seq<Entry>, name: string)
    requires DistinctNames(lock) && forall e :: e in entries <==> e in lock
    requires Find(FetchableAll(entries), name) < |entries|
    ensures var e := entries[Find(FetchableAll(entries), name)];
            Get(lock, name) == Some(e) && e in lock && forall x | x in lock && x.name == name :: x == e
  {
    var i := Find(FetchableAll(entries), name);
    var e := entries[i];
    assert FetchableAll(entries)[i].name == e.name;
    assert e in entries;
    var k :| 0 <= k < |lock| && lock[k] == e;
    FindUnique(lock, k);
    forall x | x in lock && x.name == name ensures x == e {
      var j :| 0 <= j < |lock| && lock[j] == x;
      FindUnique(lock, j);
    }
  }

  lemma ProgressOnItself(d: Digests, lock: seq<Entry>, entries: seq<Entry>, w: World, w': World)
    requires DistinctNames(lock) && DistinctNames(entries) && forall e :: e in entries <==> e in lock
    requires w.lock == lock && Progress(d, FetchableAll(entries), w, w')
    ensures OnlyRecordedChanges(lock, w.files, w'.files)
  {
    forall id: FileId | !IsWriteResidue(id.1) && !(exists e :: e in lock && e.name == id.0 && id.1 in e.Paths())
      ensures Lookup(w'.files, id) == Lookup(w.files, id)
    {
      RegionOnItself(lock, entries, id);
      assert ProgressAt(d, FetchableAll(entries), w, w', id);
    }
  }

  lemma SyncedOnItself(d: Digests, lock: seq<Entry>, entries: seq<Entry>, w: World, w': World)
    requires forall e :: e in entries <==> e in lock
    requires Synced(d, FetchableAll(entries), w, w')
    ensures forall e | e in lock :: Recovery.Installed(d, w'.files, Fetchable(e))
  {
    forall e | e in lock ensures Recovery.Installed(d, w'.files, Fetchable(e)) {
      var i :| 0 <= i < |entries| && entries[i] == e;
      assert FetchableAll(entries)[i] == Fetchable(e);
    }
  }
}
