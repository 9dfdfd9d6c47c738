/** What a removal means: exactness of the sweep, a truthful report, and no new drift. */
module RemoveLaws {
  import opened Text
  import opened Packages
  import opened Lockfiles
  import opened Store
  import opened Closure
  import opened LockDrift
  import opened Manifests
  import opened RegistryRemove

  lemma DemotedNames(ps: seq<Entry>, names: seq<string>)
    ensures Names(DemoteAll(ps, names)) == Names(ps)
  {
    DemoteAllAt(ps, names);
    var q := DemoteAll(ps, names);
    forall n ensures n in Names(q) <==> n in Names(ps) {
      DemoteAllFind(ps, names, n);
      assert n in Names(q) <==> Find(q, n) < |q|;
      assert n in Names(ps) <==> Find(ps, n) < |ps|;
    }
  }

  /** The sweep keeps exactly the locked packages that the remaining declarations reach, and the store keeps exactly
      the files of packages that were not swept. */
  lemma SweepIsExact(w: World, deps: map<string, string>, removed: seq<string>, keep: set<string>,
                     changes: seq<Change>, w': World)
    requires RemovedFrom(w, deps, removed, keep, changes, w')
    ensures forall n :: n in Names(w'.lock) <==>
              n in Names(w.lock) && ReachableFrom(w.lock, deps.Keys - Set(removed), n)
    ensures forall id: FileId :: Lookup(w'.files, id) ==
              if id.0 in Names(w.lock) && !ReachableFrom(w.lock, deps.Keys - Set(removed), id.0) then None
              else Lookup(w.files, id)
  {
    SavedElements(DemoteAll(Swept(w.lock, keep), removed));
    DemotedNames(Swept(w.lock, keep), removed);
    SweptMembers(w.lock, keep);
    forall id: FileId ensures Lookup(w'.files, id) ==
              if id.0 in Names(w.lock) && !ReachableFrom(w.lock, deps.Keys - Set(removed), id.0) then None
              else Lookup(w.files, id)
    {
      SweepMembers(w.lock, keep);
      SettledRun(w, SweepSteps(w.lock, keep), id, None);
      if id.0 in Names(w.lock) && id.0 !in keep {
        assert DropPackage(id.0) in SweepSteps(w.lock, keep) && Touches(DropPackage(id.0), id);
      }
    }
  }

  /** No kept package loses a dependency that was locked. */
  lemma NoDanglingDependency(w: World, deps: map<string, string>, removed: seq<string>, keep: set<string>,
                             changes: seq<Change>, w': World, name: string, dep: string)
    requires RemovedFrom(w, deps, removed, keep, changes, w')
    requires name in Names(w'.lock) && dep in Edges(w.lock, name) && dep in Names(w.lock)
    ensures dep in Names(w'.lock)
  {
    SweepIsExact(w, deps, removed, keep, changes, w');
    assert name in keep && dep in keep;
  }

  // ---------------------------------------------------------------- report

  ghost predicate ReportsOnce(changes: seq<Change>) {
    forall i, j | 0 <= i < j < |changes| :: changes[i].name != changes[j].name
  }

  ghost predicate SweptOnce(lock: seq<Entry>, keep: set<string>) {
    forall i, j | 0 <= i < j < |lock| && lock[i].name !in keep :: lock[i].name != lock[j].name
  }

  /** No package that stays locked is named by two arguments. */
  ghost predicate SurvivorsNamedOnce(ps: seq<Entry>, removed: seq<string>) {
    forall i, j | 0 <= i < j < |removed| && removed[i] in Names(ps) :: removed[i] != removed[j]
  }

  predicate Reported(changes: seq<Change>, name: string) {
    exists c | c in changes :: c.name == name
  }

  lemma {:induction false} SweptNames(lock: seq<Entry>, keep: set<string>, n: string)
    ensures Reported(SweptChanges(lock, keep), n) <==> n in Names(lock) && n !in keep
  {
    if lock != [] {
      var init, e := lock[..|lock| - 1], lock[|lock| - 1];
      SweptNames(init, keep, n);
      assert lock == init + [e];
      assert SweptChange(e).name == e.name;
      assert SweptChanges(init, keep) + [] == SweptChanges(init, keep);
    }
  }

  lemma {:induction false} SweptReport(lock: seq<Entry>, keep: set<string>)
    ensures ReportsOnce(SweptChanges(lock, keep)) <==> SweptOnce(lock, keep)
  {
    if lock != [] {
      var init, e := lock[..|lock| - 1], lock[|lock| - 1];
      SweptReport(init, keep);
      SweptNames(init, keep, e.name);
      SweptOnceExtended(init, e, keep);
      assert lock == init + [e];
      if e.name in keep {
        assert SweptChanges(lock, keep) == SweptChanges(init, keep);
      } else {
        ExtendReport(SweptChanges(init, keep), SweptChange(e));
      }
    }
  }

  lemma SweptOnceExtended(init: seq<Entry>, e: Entry, keep: set<string>)
    ensures SweptOnce(init + [e], keep) <==> SweptOnce(init, keep) && (e.name in keep || e.name !in Names(init))
  {
    var lock := init + [e];
    if SweptOnce(lock, keep) {
      forall i, j | 0 <= i < j < |init| && init[i].name !in keep ensures init[i].name != init[j].name {
        assert lock[i] == init[i] && lock[j] == init[j];
      }
      forall i | 0 <= i < |init| && e.name !in keep ensures init[i].name != e.name {
        assert lock[i] == init[i] && lock[|init|] == e;
      }
    }
  }

  lemma ExtendReport(a: seq<Change>, c: Change)
    ensures ReportsOnce(a + [c]) <==> ReportsOnce(a) && !Reported(a, c.name)
  {
    var b := a + [c];
    if ReportsOnce(b) {
      forall x | x in a ensures x.name != c.name {
        var i :| 0 <= i < |a| && a[i] == x;
        assert b[i].name != b[|a|].name;
      }
      forall i, j | 0 <= i < j < |a| ensures a[i].name != a[j].name {
        assert b[i].name != b[j].name;
      }
    }
  }

  lemma {:induction false} DemotedReport(ps: seq<Entry>, removed: seq<string>)
    ensures ReportsOnce(DemotedChanges(ps, removed)) <==> SurvivorsNamedOnce(ps, removed)
    ensures forall n :: Reported(DemotedChanges(ps, removed), n) <==> n in removed && n in Names(ps)
  {
    if removed != [] {
      var init, n := removed[..|removed| - 1], removed[|removed| - 1];
      DemotedReport(ps, init);
      assert removed == init + [n];
      var a, b := DemotedChanges(ps, init), DemotedChanges(ps, removed);
      var e := Get(ps, n);
      if e.None? {
        assert b == a;
        assert SurvivorsNamedOnce(ps, removed) <==> SurvivorsNamedOnce(ps, init);
      } else {
        var c := Change(n, e.value.version, e.value.version, e.value.tag, false);
        assert b == a + [c];
        ExtendReport(a, c);
        assert SurvivorsNamedOnce(ps, removed) <==> SurvivorsNamedOnce(ps, init) && n !in init;
      }
    }
  }

  lemma JoinReports(a: seq<Change>, b: seq<Change>)
    requires forall x, y | x in a && y in b :: x.name != y.name
    ensures ReportsOnce(a + b) <==> ReportsOnce(a) && ReportsOnce(b)
  {
    var s := a + b;
    assert a == s[..|a|] && b == s[|a|..];
    assert forall i | 0 <= i < |b| :: s[|a| + i] == b[i];
    if ReportsOnce(s) {
      forall i, j | 0 <= i < j < |b| ensures b[i].name != b[j].name {
        assert s[|a| + i].name != s[|a| + j].name;
      }
    }
    if ReportsOnce(a) && ReportsOnce(b) {
      forall i, j | 0 <= i < j < |s| ensures s[i].name != s[j].name {
        if i < |a| <= j {
          assert s[i] in a && s[j] in b;
        }
      }
    }
  }

  /** A locked package that the declarations left over still reach. */
  ghost predicate Survives(lock: seq<Entry>, roots: set<string>, name: string) {
    name in Names(lock) && ReachableFrom(lock, roots, name)
  }

  /** Each swept or demoted package is reported, and exactly once if and only if no argument that names a package still
      reached from what stays declared is repeated. */
  lemma ReportedOnceIff(w: World, deps: map<string, string>, removed: seq<string>, keep: set<string>,
                        changes: seq<Change>, w': World)
    requires RemovedFrom(w, deps, removed, keep, changes, w') && DistinctNames(w.lock)
    ensures ReportsOnce(changes) <==>
            forall i, j | 0 <= i < j < |removed| && Survives(w.lock, deps.Keys - Set(removed), removed[i]) ::
              removed[i] != removed[j]
    ensures forall n :: Reported(changes, n) <==>
              n in Names(w.lock) && (!Survives(w.lock, deps.Keys - Set(removed), n) || n in removed)
  {
    var kept := Swept(w.lock, keep);
    SweptMembers(w.lock, keep);
    assert forall n :: n in Names(kept) <==> Survives(w.lock, deps.Keys - Set(removed), n);
    ReportsApart(w.lock, removed, keep);
    SweptReport(w.lock, keep);
    DemotedReport(kept, removed);
    JoinReports(SweptChanges(w.lock, keep), DemotedChanges(kept, removed));
    forall n ensures Reported(changes, n) <==> n in Names(w.lock) && (n !in Names(kept) || n in removed) {
      ReportedWhen(w.lock, removed, keep, n);
    }
  }

  ghost predicate ReportsSwept(e: Entry, c: Change) {
    c == Change(name := e.name, before := e.version, after := "", tag := e.tag, direct := e.direct)
  }

  ghost predicate ReportsDemoted(e: Entry, c: Change) {
    c == Change(name := e.name, before := e.version, after := e.version, tag := e.tag, direct := false)
  }

  lemma {:induction false} SweptContents(lock: seq<Entry>, keep: set<string>, c: Change)
    ensures c in SweptChanges(lock, keep) <==> exists e :: e in lock && e.name !in keep && ReportsSwept(e, c)
  {
    if lock != [] {
      var init, last := lock[..|lock| - 1], lock[|lock| - 1];
      SweptContents(init, keep, c);
      assert lock == init + [last];
      assert forall e :: e in lock <==> e in init || e == last;
    }
  }

  lemma {:induction false} DemotedContents(ps: seq<Entry>, names: seq<string>, c: Change)
    ensures c in DemotedChanges(ps, names) <==>
              c.name in names && Get(ps, c.name).Some? && ReportsDemoted(Get(ps, c.name).value, c)
  {
    if names != [] {
      var init, last := names[..|names| - 1], names[|names| - 1];
      DemotedContents(ps, init, c);
      assert names == init + [last];
    }
  }

  /** The report is what happened: each swept package with its version, tag and flag and no version afterwards, each
      removed one that survives with its version before and after and no flag, and nothing else. */
  lemma ReportIsExact(w: World, deps: map<string, string>, removed: seq<string>, keep: set<string>,
                      changes: seq<Change>, w': World, c: Change)
    requires RemovedFrom(w, deps, removed, keep, changes, w') && DistinctNames(w.lock)
    ensures c in changes <==>
              exists e :: e in w.lock
                && if Survives(w.lock, deps.Keys - Set(removed), e.name) then e.name in removed && ReportsDemoted(e, c)
                   else ReportsSwept(e, c)
  {
    var roots, kept := deps.Keys - Set(removed), Swept(w.lock, keep);
    SweptContents(w.lock, keep, c);
    DemotedContents(kept, removed, c);
    GetSwept(w.lock, keep, c.name);
    forall e | e in w.lock
      ensures Get(w.lock, e.name) == Some(e) && (Survives(w.lock, roots, e.name) <==> e.name in keep)
    {
      var i :| 0 <= i < |w.lock| && w.lock[i] == e;
      FindUnique(w.lock, i);
    }
    assert c in changes <==> c in SweptChanges(w.lock, keep) || c in DemotedChanges(kept, removed);
    if c in DemotedChanges(kept, removed) {
      var e := Get(w.lock, c.name).value;
      assert e in w.lock;
    }
  }

  /** "b" depends on nothing, "a" on "b", and both are declared: removing "b" twice reports it twice. */
  lemma RepeatedSurvivorIsReportedTwice(a: Entry, b: Entry, w: World, deps: map<string, string>, keep: set<string>,
                                        changes: seq<Change>, w': World)
    requires a.name != b.name && b.name in a.dependencies && w.lock == [a, b]
    requires deps.Keys == {a.name, b.name}
    requires RemovedFrom(w, deps, [b.name, b.name], keep, changes, w')
    ensures !ReportsOnce(changes)
  {
    var removed := [b.name, b.name];
    assert removed[0] == removed[1] == b.name && a.name !in Set(removed);
    DependencySurvives(a, b, w.lock, deps.Keys - Set(removed));
    TwoAreDistinct(a, b);
    ReportedOnceIff(w, deps, removed, keep, changes, w');
  }

  lemma TwoAreDistinct(a: Entry, b: Entry)
    requires a.name != b.name
    ensures DistinctNames([a, b])
  {
  }

  lemma DependencySurvives(a: Entry, b: Entry, lock: seq<Entry>, roots: set<string>)
    requires lock == [a, b] && b.name in a.dependencies && a.name in roots
    ensures Survives(lock, roots, b.name)
  {
    assert Get(lock, a.name) == Some(a) by { assert lock[0] == a; }
    ReachesItself(lock, b.name);
    ReachesThrough(lock, a.name, b.name, b.name);
    assert lock[1] == b && b in lock;
  }

  lemma ReportedWhen(lock: seq<Entry>, removed: seq<string>, keep: set<string>, n: string)
    ensures Reported(SweptChanges(lock, keep) + DemotedChanges(Swept(lock, keep), removed), n) <==>
              n in Names(lock) && (n !in Names(Swept(lock, keep)) || n in removed)
  {
    var kept := Swept(lock, keep);
    var a, b := SweptChanges(lock, keep), DemotedChanges(kept, removed);
    SweptNames(lock, keep, n);
    DemotedReport(kept, removed);
    SweptMembers(lock, keep);
    assert Reported(a + b, n) <==> Reported(a, n) || Reported(b, n);
  }

  lemma ReportsApart(lock: seq<Entry>, removed: seq<string>, keep: set<string>)
    ensures forall x, y | x in SweptChanges(lock, keep) && y in DemotedChanges(Swept(lock, keep), removed) ::
              x.name != y.name
  {
    var kept := Swept(lock, keep);
    DemotedReport(kept, removed);
    SweptMembers(lock, keep);
    forall x, y | x in SweptChanges(lock, keep) && y in DemotedChanges(kept, removed) ensures x.name != y.name {
      SweptNames(lock, keep, x.name);
      assert Reported(SweptChanges(lock, keep), x.name) && Reported(DemotedChanges(kept, removed), y.name);
    }
  }

  // ----------------------------------------------------------------- drift

  /** A later entry of the same name that is direct: demotion does not reach it. */
  ghost predicate LaterDirect(ps: seq<Entry>, name: string) {
    exists i :: Find(ps, name) < i < |ps| && ps[i].name == name && ps[i].direct
  }

  lemma DirectAt(ps: seq<Entry>, name: string)
    ensures name in DirectNames(ps) <==> exists i :: 0 <= i < |ps| && ps[i].name == name && ps[i].direct
  {
    if i :| 0 <= i < |ps| && ps[i].name == name && ps[i].direct {
      assert ps[i] in ps;
    }
  }

  lemma DemotedDirect(ps: seq<Entry>, removed: seq<string>, name: string)
    ensures name in DirectNames(DemoteAll(ps, removed)) <==>
            if name in removed then LaterDirect(ps, name) else name in DirectNames(ps)
  {
    var q := DemoteAll(ps, removed);
    DemoteAllAt(ps, removed);
    DirectAt(q, name);
    DirectAt(ps, name);
    var at := Find(ps, name);
    assert forall i | 0 <= i < |ps| && ps[i].name == name :: at <= i;
    assert forall i | 0 <= i < |ps| && ps[i].name == name ::
        q[i].name == name && q[i].direct == (ps[i].direct && !(name in removed && i == at));
  }

  /** A removal takes a drift-free project to a drift-free one exactly when the lock holds no second direct entry of
      a removed name that stays; a lock with distinct names never does. */
  lemma RemoveKeepsDriftFree(isPin: string -> bool, lock: seq<Entry>, deps: map<string, string>,
                             removed: seq<string>, keep: set<string>)
    requires DriftFree(isPin, deps, lock) && deps.Keys - Set(removed) <= keep
    ensures DriftFree(isPin, deps - Set(removed), DemoteAll(Swept(lock, keep), removed)) <==>
            forall n | n in removed :: !LaterDirect(Swept(lock, keep), n)
    ensures DistinctNames(lock) ==> DriftFree(isPin, deps - Set(removed), DemoteAll(Swept(lock, keep), removed))
  {
    var kept := Swept(lock, keep);
    var deps', after := deps - Set(removed), DemoteAll(kept, removed);
    SweptMembers(lock, keep);
    DemoteAllAt(kept, removed);
    forall e | e in after ensures e.format != NoFormat {
      var i :| 0 <= i < |after| && after[i] == e;
      assert kept[i] in kept;
    }
    forall n | n in deps' ensures Honoured(isPin, deps', after, n) {
      StaysHonoured(isPin, lock, deps, removed, keep, n);
    }
    forall n ensures n in DirectNames(after) && n !in deps' <==> n in removed && LaterDirect(kept, n) {
      UndeclaredDirect(lock, deps, removed, keep, n);
    }
  }

  lemma StaysHonoured(isPin: string -> bool, lock: seq<Entry>, deps: map<string, string>, removed: seq<string>,
                      keep: set<string>, n: string)
    requires n in deps && n !in removed && n in keep && Honoured(isPin, deps, lock, n)
    ensures Honoured(isPin, deps - Set(removed), DemoteAll(Swept(lock, keep), removed), n)
  {
    GetSwept(lock, keep, n);
    DemoteAllAt(Swept(lock, keep), removed);
    DemoteAllFind(Swept(lock, keep), removed, n);
  }

  /** The direct entries that no declaration asks for any more. */
  lemma UndeclaredDirect(lock: seq<Entry>, deps: map<string, string>, removed: seq<string>, keep: set<string>,
                         n: string)
    requires DirectNames(lock) <= deps.Keys
    ensures n in DirectNames(DemoteAll(Swept(lock, keep), removed)) && n !in deps - Set(removed) <==>
            n in removed && LaterDirect(Swept(lock, keep), n)
  {
    var kept := Swept(lock, keep);
    SweptMembers(lock, keep);
    DemotedDirect(kept, removed, n);
    if n in DirectNames(kept) {
      var e :| e in kept && e.direct && e.name == n;
      assert e in lock;
      assert n in DirectNames(lock);
    }
  }

  /** Saving keeps a distinct-name lock drift-free. */
  lemma SavedStaysDriftFree(isPin: string -> bool, deps: map<string, string>, ps: seq<Entry>)
    requires DistinctNames(ps) && DriftFree(isPin, deps, ps)
    ensures DriftFree(isPin, deps, Saved(ps))
  {
    SavedElements(ps);
    var s := Saved(ps);
    forall n | n in deps ensures Honoured(isPin, deps, s, n) {
      assert Honoured(isPin, deps, ps, n);
      SavedGet(ps, n);
    }
    forall n | n in DirectNames(s) ensures n in deps {
      var x :| x in s && x.direct && x.name == n;
      var e :| e in ps && x == Normalize(e);
      assert n in DirectNames(ps);
    }
  }

  lemma DemotedStaysDistinct(ps: seq<Entry>, removed: seq<string>)
    requires DistinctNames(ps)
    ensures DistinctNames(DemoteAll(ps, removed))
  {
    DemoteAllAt(ps, removed);
    assert forall i | 0 <= i < |ps| :: DemoteAll(ps, removed)[i].name == ps[i].name;
  }

  lemma DemotedIsNotDirect(ps: seq<Entry>, removed: seq<string>, name: string)
    requires name in removed
    ensures Get(DemoteAll(ps, removed), name).Some? ==> !Get(DemoteAll(ps, removed), name).value.direct
  {
    DemoteAllAt(ps, removed);
    DemoteAllFind(ps, removed, name);
  }

  /** A declaration that still stands once the lock is saved is drift, whatever was there before: no direct entry
      answers it. */
  lemma StandingDeclarationDrifts(isPin: string -> bool, w: World, removed: seq<string>, keep: set<string>, w': World,
                                  deps': map<string, string>, name: string)
    requires LockRemoved(w, removed, keep, w') && DistinctNames(w.lock)
    requires name in removed && name in deps'
    ensures !DriftFree(isPin, deps', w'.lock)
  {
    var kept := Swept(w.lock, keep);
    SweptMembers(w.lock, keep);
    DemotedStaysDistinct(kept, removed);
    DemotedIsNotDirect(kept, removed, name);
    SavedElements(DemoteAll(kept, removed));
    if Get(DemoteAll(kept, removed), name).Some? {
      SavedGet(DemoteAll(kept, removed), name);
    }
    assert !Honoured(isPin, deps', w'.lock, name);
  }

  /** With the removed declarations gone, and only these, a drift-free project with a lock of distinct names is
      drift-free on disk. */
  lemma WithoutRemovedNoDrift(isPin: string -> bool, w: World, deps: map<string, string>, removed: seq<string>,
                              keep: set<string>, w': World)
    requires IsKeepSet(w.lock, deps.Keys - Set(removed), keep) && LockRemoved(w, removed, keep, w')
    requires DistinctNames(w.lock) && DriftFree(isPin, deps, w.lock)
    ensures DriftFree(isPin, deps - Set(removed), w'.lock)
  {
    RemoveKeepsDriftFree(isPin, w.lock, deps, removed, keep);
    SweptMembers(w.lock, keep);
    DemotedStaysDistinct(Swept(w.lock, keep), removed);
    SavedStaysDriftFree(isPin, deps - Set(removed), DemoteAll(Swept(w.lock, keep), removed));
  }

  /** These names are declared, and each with a reference that its locked entry follows. */
  ghost predicate AsksFor(isPin: string -> bool, lock: seq<Entry>, names: set<string>, deps: map<string, string>) {
    && deps.Keys == names
    && forall n | n in deps :: Get(lock, n).Some? && Follows(isPin, deps[n], Get(lock, n).value)
  }

  /** Whatever bino.toml declares after a removal that saved the lock: a project that was drift-free is so if and only
      if the removed declarations are gone, no other is, and each of those still asks for what is locked. */
  lemma DriftAfterRemoval(isPin: string -> bool, w: World, deps: map<string, string>, removed: seq<string>,
                          keep: set<string>, w': World, deps': map<string, string>)
    requires IsKeepSet(w.lock, deps.Keys - Set(removed), keep) && LockRemoved(w, removed, keep, w')
    requires DistinctNames(w.lock) && DriftFree(isPin, deps, w.lock)
    ensures DriftFree(isPin, deps', w'.lock) <==> AsksFor(isPin, w.lock, deps.Keys - Set(removed), deps')
  {
    assert (deps - Set(removed)).Keys == deps.Keys - Set(removed);
    WithoutRemovedNoDrift(isPin, w, deps, removed, keep, w');
    AllAnswered(isPin, w, deps, removed, keep, w');
    DriftFreeIff(isPin, w.lock, w'.lock, deps - Set(removed), deps');
  }

  /** A direct entry of both locks, alike in what a reference can ask for. */
  ghost predicate Answered(isPin: string -> bool, before: seq<Entry>, after: seq<Entry>, n: string) {
    var e, e' := Get(before, n), Get(after, n);
    && e.Some? && e'.Some? && e'.value.direct
    && forall ref :: Follows(isPin, ref, e'.value) <==> Follows(isPin, ref, e.value)
  }

  lemma AllAnswered(isPin: string -> bool, w: World, deps: map<string, string>, removed: seq<string>,
                    keep: set<string>, w': World)
    requires LockRemoved(w, removed, keep, w') && DistinctNames(w.lock) && deps.Keys - Set(removed) <= keep
    requires DriftFree(isPin, deps, w.lock) && DriftFree(isPin, deps - Set(removed), w'.lock)
    ensures forall n | n in deps - Set(removed) :: Answered(isPin, w.lock, w'.lock, n)
  {
    forall n | n in deps - Set(removed) ensures Answered(isPin, w.lock, w'.lock, n) {
      KeptIsAnswered(isPin, w, deps, removed, keep, w', n);
    }
  }

  lemma KeptIsAnswered(isPin: string -> bool, w: World, deps: map<string, string>, removed: seq<string>,
                       keep: set<string>, w': World, n: string)
    requires LockRemoved(w, removed, keep, w') && DistinctNames(w.lock) && n in keep
    requires DriftFree(isPin, deps, w.lock) && DriftFree(isPin, deps - Set(removed), w'.lock)
            && n in deps.Keys - Set(removed)
    ensures Answered(isPin, w.lock, w'.lock, n)
  {
    assert Honoured(isPin, deps, w.lock, n) && Honoured(isPin, deps - Set(removed), w'.lock, n);
    EntryStays(w, removed, keep, w', n);
    AnsweredIf(isPin, w.lock, w'.lock, n);
  }

  lemma AnsweredIf(isPin: string -> bool, before: seq<Entry>, after: seq<Entry>, n: string)
    requires Get(before, n).Some? && Get(after, n).Some? && Get(after, n).value.direct
    requires Get(after, n).value.version == Get(before, n).value.version
            && Get(after, n).value.tag == Get(before, n).value.tag
    ensures Answered(isPin, before, after, n)
  {
  }

  lemma DriftFreeIff(isPin: string -> bool, before: seq<Entry>, after: seq<Entry>, rest: map<string, string>,
                     deps': map<string, string>)
    requires DriftFree(isPin, rest, after) && forall n | n in rest :: Answered(isPin, before, after, n)
    ensures DriftFree(isPin, deps', after) <==> AsksFor(isPin, before, rest.Keys, deps')
  {
    SameNames(isPin, after, rest);
    if DriftFree(isPin, deps', after) {
      SameNames(isPin, after, deps');
    }
    if deps'.Keys == rest.Keys {
      forall n | n in deps'
        ensures Get(before, n).Some?
        ensures Honoured(isPin, deps', after, n) <==> Follows(isPin, deps'[n], Get(before, n).value)
      {
        assert Answered(isPin, before, after, n);
      }
    }
  }

  /** Without drift the declared names are those of the direct entries. */
  lemma SameNames(isPin: string -> bool, lock: seq<Entry>, deps: map<string, string>)
    requires DriftFree(isPin, deps, lock)
    ensures deps.Keys == DirectNames(lock)
  {
    forall n | n in deps ensures n in DirectNames(lock) {
      DirectIsListed(isPin, deps, lock, n);
    }
  }

  lemma DirectIsListed(isPin: string -> bool, deps: map<string, string>, lock: seq<Entry>, n: string)
    requires n in deps && DriftFree(isPin, deps, lock)
    ensures n in DirectNames(lock)
  {
    assert Honoured(isPin, deps, lock, n);
    assert Get(lock, n).value in lock;
  }

  /** A kept entry keeps its version and tag. */
  lemma EntryStays(w: World, removed: seq<string>, keep: set<string>, w': World, n: string)
    requires LockRemoved(w, removed, keep, w') && DistinctNames(w.lock) && n in keep && Get(w.lock, n).Some?
    ensures Get(w'.lock, n).Some?
    ensures Get(w'.lock, n).value.version == Get(w.lock, n).value.version
            && Get(w'.lock, n).value.tag == Get(w.lock, n).value.tag
  {
    var kept := Swept(w.lock, keep);
    GetSwept(w.lock, keep, n);
    DemoteAllAt(kept, removed);
    DemoteAllFind(kept, removed, n);
    SweptMembers(w.lock, keep);
    DemotedStaysDistinct(kept, removed);
    SavedGet(DemoteAll(kept, removed), n);
  }

  /** After a removal, with line-by-line declarations: a drift-free project with a lock of distinct names is drift-free
      again if and only if the editor finds every removed name. */
  lemma RemovedProjectHasNoDrift(isPin: string -> bool, w: World, toml: Toml, text: string, removed: seq<string>,
                                 keep: set<string>, changes: seq<Change>, w': World)
    requires toml(text).Some? && RemovedFrom(w, toml(text).value, removed, keep, changes, w')
    requires DistinctNames(w.lock) && DriftFree(isPin, toml(text).value, w.lock)
    requires LineByLine(toml, text, removed) && forall n | n in removed :: Quotable(n) && n in toml(text).value
    ensures toml(TextAfter(text, removed)).Some?
    ensures DriftFree(isPin, toml(TextAfter(text, removed)).value, w'.lock) <==>
            forall n | n in removed :: Finds(text, n)
  {
    var deps := toml(text).value;
    DeclaredAfter(toml, text, removed);
    if n :| n in removed && !Finds(text, n) {
      StandingDeclarationDrifts(isPin, w, removed, keep, w', deps - FoundAmong(text, removed), n);
    } else {
      AllFound(text, removed);
      WithoutRemovedNoDrift(isPin, w, deps, removed, keep, w');
    }
  }

  lemma AllFound(text: string, names: seq<string>)
    requires forall n | n in names :: Finds(text, n)
    ensures FoundAmong(text, names) == Set(names)
  {
  }

  /** A file of single lines, as the editor itself writes it, always keeps the promise. */
  lemma PlainProjectHasNoDrift(isPin: string -> bool, w: World, value: string -> Option<string>, text: string,
                               removed: seq<string>, keep: set<string>, changes: seq<Change>, w': World)
    requires PlainToml(value)(text).Some? && RemovedFrom(w, PlainToml(value)(text).value, removed, keep, changes, w')
    requires DistinctNames(w.lock) && DriftFree(isPin, PlainToml(value)(text).value, w.lock)
    requires forall n | n in removed :: Quotable(n) && n in PlainToml(value)(text).value
    ensures PlainToml(value)(TextAfter(text, removed)) == Some(PlainToml(value)(text).value - Set(removed))
    ensures DriftFree(isPin, PlainToml(value)(text).value - Set(removed), w'.lock)
  {
    PlainIsLineByLine(value, text, removed);
    DeclaredAfter(PlainToml(value), text, removed);
    AllFound(text, removed);
    WithoutRemovedNoDrift(isPin, w, PlainToml(value)(text).value, removed, keep, w');
  }

  /** Declarations that the editor finds none of: it writes nothing, reports no failure, and leaves drift. */
  lemma NothingFoundDrifts(isPin: string -> bool, w: World, toml: Toml, text: string, removed: seq<string>,
                           keep: set<string>, changes: seq<Change>, w': World, budget: nat)
    requires toml(text).Some? && RemovedFrom(w, toml(text).value, removed, keep, changes, w') && DistinctNames(w.lock)
    requires removed != [] && forall n | n in removed :: !Finds(text, n) && n in toml(text).value
    ensures LockCompletes(w.lock, keep, budget) ==> RemoveCompletes(w.lock, toml, text, removed, keep, budget)
    ensures TextAfter(text, removed) == text && !DriftFree(isPin, toml(text).value, w'.lock)
  {
    NothingFoundStays(toml, text, removed);
    StandingDeclarationDrifts(isPin, w, removed, keep, w', toml(text).value, removed[0]);
  }

  lemma {:induction false} NothingFoundStays(toml: Toml, text: string, names: seq<string>)
    requires forall n | n in names :: !Finds(text, n)
    ensures TextAfter(text, names) == text && Writes(text, names) == 0 && AllAccepted(toml, text, names)
  {
    if names != [] {
      var init, n := names[..|names| - 1], names[|names| - 1];
      NothingFoundStays(toml, text, init);
      EditChangesIff(text, n);
    }
  }

  /** Such a declaration stands in an inline table, and in a table whose lines end in carriage returns. */
  lemma InlineAndCarriageReturnDrift(isPin: string -> bool, w: World, toml: Toml, text: string, name: string,
                                     keep: set<string>, changes: seq<Change>, w': World)
    requires (text == INLINE || text == WITH_RETURNS) && name == "@a/x" && toml(text) == Some(map[name := "1.0.0"])
    requires RemovedFrom(w, toml(text).value, [name], keep, changes, w') && DistinctNames(w.lock)
    ensures TextAfter(text, [name]) == text && !DriftFree(isPin, toml(text).value, w'.lock)
  {
    NotFoundIn(text, name);
    OneNotFoundDrifts(isPin, w, toml, text, name, keep, changes, w');
  }

  lemma OneNotFoundDrifts(isPin: string -> bool, w: World, toml: Toml, text: string, name: string,
                          keep: set<string>, changes: seq<Change>, w': World)
    requires !Finds(text, name) && toml(text).Some? && name in toml(text).value
    requires RemovedFrom(w, toml(text).value, [name], keep, changes, w') && DistinctNames(w.lock)
    ensures TextAfter(text, [name]) == text && !DriftFree(isPin, toml(text).value, w'.lock)
  {
    NothingFoundDrifts(isPin, w, toml, text, [name], keep, changes, w', 0);
  }

  lemma NotFoundIn(text: string, name: string)
    requires text == INLINE || text == WITH_RETURNS
    ensures !Finds(text, name)
  {
    InlineTableNotFound(name);
    CarriageReturnNotFound(name);
  }

  /** With line-by-line declarations, a removal that fails once the lock is saved leaves drift whatever was there
      before. */
  lemma FailureAfterSavingLeavesDrift(isPin: string -> bool, w: World, toml: Toml, text: string, removed: seq<string>,
                                      keep: set<string>, budget: nat, w': World, text': string)
    requires toml(text).Some? && RemovedInPart(w, toml, text, removed, keep, budget, w', text') && DistinctNames(w.lock)
    requires LockCompletes(w.lock, keep, budget) && LineByLine(toml, text, removed)
    ensures toml(text').Some? && !DriftFree(isPin, toml(text').value, w'.lock)
  {
    var left := budget - |SweepSteps(w.lock, keep)| - 1;
    var k :| 0 <= k < |removed| && FailsAt(toml, text, removed, left, k) && text' == TextAfter(text, removed[..k]);
    FailedStillDeclares(toml, text, removed, left, k, text');
    StandingDeclarationDrifts(isPin, w, removed, keep, w', toml(text').value, removed[k]);
  }

  lemma FailedStillDeclares(toml: Toml, text: string, removed: seq<string>, budget: nat, k: nat, text': string)
    requires LineByLine(toml, text, removed) && k < |removed| && FailsAt(toml, text, removed, budget, k)
    requires text' == TextAfter(text, removed[..k])
    ensures toml(text').Some? && removed[k] in toml(text').value
  {
    assert LineDeclares(toml, text', removed[k]);
  }

  /** One that fails before the lock is saved leaves a project drift-free exactly when it was. */
  lemma FailureBeforeSavingKeepsLock(isPin: string -> bool, w: World, toml: Toml, text: string, removed: seq<string>,
                                     keep: set<string>, budget: nat, w': World, text': string)
    requires toml(text).Some? && RemovedInPart(w, toml, text, removed, keep, budget, w', text')
    requires !LockCompletes(w.lock, keep, budget)
    ensures text' == text
    ensures DriftFree(isPin, toml(text').value, w'.lock) <==> DriftFree(isPin, toml(text).value, w.lock)
  {
  }

  /** Arguments that pass the check are the names of declarations, and can stand between quotes. */
  lemma RemovableNames(isPin: string -> bool, deps: map<string, string>, args: seq<string>)
    requires forall arg | arg in args :: Removable(isPin, deps, arg)
    ensures forall i | 0 <= i < |args| :: ParseSpec(isPin, args[i]).Some?
    ensures SpecNames(isPin, args) == args && forall n | n in args :: Quotable(n) && n in deps
  {
    AcceptedNames(isPin, deps, args);
    forall n | n in args ensures Quotable(n) && n in deps {
      RemovableExactly(isPin, deps, n);
      ValidNameIsQuotable(n);
    }
  }

  lemma ValidNameIsQuotable(name: string)
    requires ValidName(name)
    ensures Quotable(name)
  {
    var (scope, base) := ParseName(name).value;
    ParsedExactly(name, scope, base);
    ParsedExactly(name, base, base);
  }
}
