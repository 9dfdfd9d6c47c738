/** The effects that bring the store and bino.lock to a resolved closure, in order, and what every cut of them keeps. */
module Closure {
  import opened Text
  import opened Packages
  import opened Lockfiles
  import opened Store
  import Sorting

  /** One package's verified contents. A recorded file that is absent from bodies is already on disk. */
  datatype Plan = Plan(entry: Entry, bodies: map<string, Bytes>)

  function Entries(plans: seq<Plan>): (es: seq<Entry>)
    ensures |es| == |plans|
    ensures forall i | 0 <= i < |es| :: es[i] == plans[i].entry
  {
    seq(|plans|, i requires 0 <= i < |plans| => plans[i].entry)
  }

  // ------------------------------------------------------------ the steps

  function SweepSteps(lock: seq<Entry>, keep: set<string>): seq<Step> {
    if lock == [] then []
    else
      var e := lock[|lock| - 1];
      SweepSteps(lock[..|lock| - 1], keep) + if e.name in keep then [] else [DropPackage(e.name)]
  }

  function PruneSteps(name: string, prev: seq<FileEntry>, keep: set<string>): seq<Step> {
    if prev == [] then []
    else
      var f := prev[|prev| - 1];
      PruneSteps(name, prev[..|prev| - 1], keep) + if f.path in keep then [] else [DropFile(name, f.path)]
  }

  function WriteSteps(name: string, files: seq<FileEntry>, bodies: map<string, Bytes>): seq<Step> {
    if files == [] then []
    else
      var f := files[|files| - 1];
      WriteSteps(name, files[..|files| - 1], bodies)
      + if f.path in bodies then [WriteFile(name, f.path, bodies[f.path])] else []
  }

  function RecordedFiles(prev: Option<Entry>): seq<FileEntry> {
    if prev.Some? then prev.value.TreeFiles() else []
  }

  function PackageSteps(prev: Option<Entry>, pl: Plan): seq<Step> {
    PruneSteps(pl.entry.name, RecordedFiles(prev), pl.entry.Paths())
    + WriteSteps(pl.entry.name, pl.entry.TreeFiles(), pl.bodies)
  }

  function LockAfter(lock: seq<Entry>, plans: seq<Plan>): seq<Entry> {
    if plans == [] then lock
    else Upserted(LockAfter(lock, plans[..|plans| - 1]), plans[|plans| - 1].entry)
  }

  function ClosureSteps(lock: seq<Entry>, plans: seq<Plan>): seq<Step> {
    if plans == [] then []
    else
      var init, pl := plans[..|plans| - 1], plans[|plans| - 1];
      ClosureSteps(lock, init) + PackageSteps(Get(LockAfter(lock, init), pl.entry.name), pl)
  }

  function Swept(lock: seq<Entry>, keep: set<string>): seq<Entry> {
    if lock == [] then []
    else
      var e := lock[|lock| - 1];
      Swept(lock[..|lock| - 1], keep) + if e.name in keep then [e] else []
  }

  function FinalLock(lock: seq<Entry>, plans: seq<Plan>): seq<Entry> {
    LockAfter(Swept(lock, Names(Entries(plans))), plans)
  }

  /** Every effect of materialize, in order: sweep, then prune and write package by package, then the lock. */
  function Steps(lock: seq<Entry>, plans: seq<Plan>, writeLock: bool): seq<Step> {
    var keep := Names(Entries(plans));
    SweepSteps(lock, keep) + ClosureSteps(Swept(lock, keep), plans)
    + if writeLock then [SaveLock(Saved(FinalLock(lock, plans)))] else []
  }

  // ------------------------------------------------------- lookups in locks

  lemma FindUnique(ps: seq<Entry>, i: nat)
    requires DistinctNames(ps) && i < |ps|
    ensures Get(ps, ps[i].name) == Some(ps[i])
  {
  }

  lemma FindExtended(ps: seq<Entry>, e: Entry, name: string)
    ensures Find(ps + [e], name) ==
            if name in Names(ps) then Find(ps, name) else if e.name == name then |ps| else |ps| + 1
  {
    var i, j := Find(ps + [e], name), Find(ps, name);
    if j < |ps| {
      assert (ps + [e])[j] == ps[j];
      assert ps[j] in ps;
    } else {
      assert name !in Names(ps);
    }
    assert (ps + [e])[|ps|] == e;
  }

  lemma GetUpserted(ps: seq<Entry>, e: Entry, name: string)
    ensures Get(Upserted(ps, e), name) == if name == e.name then Some(e) else Get(ps, name)
  {
    var i := Find(ps, e.name);
    if i < |ps| {
      var q := ps[i := e];
      var a, b := Find(q, name), Find(ps, name);
      assert forall j | 0 <= j < |ps| :: q[j].name == ps[j].name;
      assert a == b by {
        assert a < |ps| ==> ps[a].name == name;
        assert b < |ps| ==> q[b].name == name;
      }
    } else {
      assert e.name !in Names(ps);
      FindExtended(ps, e, name);
    }
  }

  lemma {:induction false} SweptMembers(lock: seq<Entry>, keep: set<string>)
    ensures forall e :: e in Swept(lock, keep) <==> e in lock && e.name in keep
    ensures Names(Swept(lock, keep)) == Names(lock) * keep
    ensures DistinctNames(lock) ==> DistinctNames(Swept(lock, keep))
  {
    if lock != [] {
      SweptMembers(lock[..|lock| - 1], keep);
      assert lock == lock[..|lock| - 1] + [lock[|lock| - 1]];
    }
  }

  lemma GetExtended(ps: seq<Entry>, e: Entry, name: string)
    ensures Get(ps + [e], name) ==
            if Get(ps, name).Some? then Get(ps, name) else if e.name == name then Some(e) else None
  {
    FindExtended(ps, e, name);
  }

  lemma {:induction false} GetSwept(lock: seq<Entry>, keep: set<string>, name: string)
    ensures Get(Swept(lock, keep), name) == if name in keep then Get(lock, name) else None
  {
    if lock != [] {
      var init, e := lock[..|lock| - 1], lock[|lock| - 1];
      GetSwept(init, keep, name);
      assert lock == init + [e];
      GetExtended(init, e, name);
      GetExtended(Swept(init, keep), e, name);
      assert Swept(init, keep) + [] == Swept(init, keep);
    }
  }

  ghost predicate DistinctPlans(plans: seq<Plan>) {
    DistinctNames(Entries(plans))
  }

  lemma {:induction false} GetLockAfter(lock: seq<Entry>, plans: seq<Plan>, name: string)
    requires DistinctPlans(plans)
    ensures Get(LockAfter(lock, plans), name) ==
            if name in Names(Entries(plans)) then Get(Entries(plans), name) else Get(lock, name)
  {
    if plans != [] {
      var n := |plans| - 1;
      var init, pl := plans[..n], plans[n];
      assert Entries(plans) == Entries(init) + [pl.entry];
      DistinctPrefix(plans, n);
      GetLockAfter(lock, init, name);
      GetUpserted(LockAfter(lock, init), pl.entry, name);
      FindExtended(Entries(init), pl.entry, name);
      assert Entries(plans)[n] == pl.entry;
      assert pl.entry.name !in Names(Entries(init));
    }
  }

  lemma {:induction false} LockAfterDistinct(lock: seq<Entry>, plans: seq<Plan>)
    requires DistinctNames(lock)
    ensures DistinctNames(LockAfter(lock, plans))
  {
    if plans != [] {
      LockAfterDistinct(lock, plans[..|plans| - 1]);
    }
  }

  /** With distinct names the lock that is saved is the closure, whatever was locked before. */
  lemma FinalLockIsClosure(lock: seq<Entry>, plans: seq<Plan>)
    requires DistinctNames(lock) && DistinctPlans(plans)
    ensures Saved(FinalLock(lock, plans)) == Saved(Entries(plans))
    ensures DistinctNames(FinalLock(lock, plans))
  {
    var es, final := Entries(plans), FinalLock(lock, plans);
    var keep := Names(es);
    SweptMembers(lock, keep);
    LockAfterDistinct(Swept(lock, keep), plans);
    forall e ensures e in final <==> e in es {
      GetSwept(lock, keep, e.name);
      GetLockAfter(Swept(lock, keep), plans, e.name);
      if e in final {
        var i :| 0 <= i < |final| && final[i] == e;
        FindUnique(final, i);
      }
      if e in es {
        var i :| 0 <= i < |es| && es[i] == e;
        FindUnique(es, i);
      }
    }
    SavedIgnoresOrder(final, es);
  }

  // --------------------------------------------------- what the steps touch

  lemma {:induction false} SweepMembers(lock: seq<Entry>, keep: set<string>)
    ensures forall s :: s in SweepSteps(lock, keep) <==>
            s.DropPackage? && s.name in Names(lock) && s.name !in keep
  {
    if lock != [] {
      SweepMembers(lock[..|lock| - 1], keep);
      assert lock == lock[..|lock| - 1] + [lock[|lock| - 1]];
    }
  }

  lemma {:induction false} PruneMembers(name: string, prev: seq<FileEntry>, keep: set<string>)
    ensures forall s :: s in PruneSteps(name, prev, keep) <==>
            s.DropFile? && s.name == name && s.path !in keep && exists f :: f in prev && f.path == s.path
  {
    if prev != [] {
      PruneMembers(name, prev[..|prev| - 1], keep);
      assert prev == prev[..|prev| - 1] + [prev[|prev| - 1]];
    }
  }

  lemma {:induction false} WriteMembers(name: string, files: seq<FileEntry>, bodies: map<string, Bytes>)
    ensures forall s :: s in WriteSteps(name, files, bodies) <==>
            s.WriteFile? && s.name == name && s.path in bodies && s.body == bodies[s.path]
            && exists f :: f in files && f.path == s.path
  {
    if files != [] {
      WriteMembers(name, files[..|files| - 1], bodies);
      assert files == files[..|files| - 1] + [files[|files| - 1]];
    }
  }

  lemma LastPlan(lock: seq<Entry>, plans: seq<Plan>)
    requires DistinctPlans(plans) && plans != []
    ensures DistinctPlans(plans[..|plans| - 1])
    ensures ClosureSteps(lock, plans) == ClosureSteps(lock, plans[..|plans| - 1])
              + PackageSteps(Get(lock, plans[|plans| - 1].entry.name), plans[|plans| - 1])
  {
    var n := |plans| - 1;
    var init, pl := plans[..n], plans[n];
    assert Entries(plans) == Entries(init) + [pl.entry];
    assert forall i | 0 <= i < n :: Entries(init)[i] == Entries(plans)[i];
    GetLockAfter(lock, init, pl.entry.name);
    assert pl.entry.name !in Names(Entries(init));
  }

  /** A step of the closure belongs to one of its packages. */
  lemma {:induction false} StepOfPlan(lock: seq<Entry>, plans: seq<Plan>, s: Step) returns (i: nat)
    requires DistinctPlans(plans) && s in ClosureSteps(lock, plans)
    ensures i < |plans| && s in PackageSteps(Get(lock, plans[i].entry.name), plans[i])
  {
    var n := |plans| - 1;
    LastPlan(lock, plans);
    if s in ClosureSteps(lock, plans[..n]) {
      i := StepOfPlan(lock, plans[..n], s);
    } else {
      i := n;
    }
  }

  lemma PlanStep(lock: seq<Entry>, plans: seq<Plan>, i: nat, s: Step)
    requires DistinctPlans(plans) && i < |plans|
    requires s in PackageSteps(Get(lock, plans[i].entry.name), plans[i])
    ensures s in ClosureSteps(lock, plans)
  {
    DistinctPrefix(plans, i + 1);
    EarlierSteps(lock, plans[..i + 1], s);
    StepsOfPrefix(lock, plans, i + 1, s);
  }

  lemma DistinctPrefix(plans: seq<Plan>, n: nat)
    requires DistinctPlans(plans) && n <= |plans|
    ensures DistinctPlans(plans[..n])
  {
    assert forall i | 0 <= i < n :: Entries(plans[..n])[i] == Entries(plans)[i];
  }

  lemma {:induction false} StepsOfPrefix(lock: seq<Entry>, plans: seq<Plan>, n: nat, s: Step)
    requires n <= |plans| && s in ClosureSteps(lock, plans[..n])
    ensures s in ClosureSteps(lock, plans)
  {
    if n == |plans| {
      assert plans[..n] == plans;
    } else {
      assert plans[..|plans| - 1][..n] == plans[..n];
      StepsOfPrefix(lock, plans[..|plans| - 1], n, s);
    }
  }

  /** The steps of the last plan, and of those before it. */
  lemma EarlierSteps(lock: seq<Entry>, plans: seq<Plan>, s: Step)
    requires DistinctPlans(plans) && plans != []
    ensures DistinctPlans(plans[..|plans| - 1])
    ensures s in ClosureSteps(lock, plans) <==>
              (s in ClosureSteps(lock, plans[..|plans| - 1])
               || s in PackageSteps(Get(lock, plans[|plans| - 1].entry.name), plans[|plans| - 1]))
  {
    LastPlan(lock, plans);
  }

  /** Where a place stands when the lock moves from `lock` to a closure. */
  datatype Region = Recorded | Departed | Foreign

  function RegionOf(lock: seq<Entry>, closure: seq<Entry>, id: FileId): Region {
    var next, prev := Get(closure, id.0), Get(lock, id.0);
    if next.None? then if prev.Some? then Departed else Foreign
    else if id.1 in next.value.Paths() then Recorded
    else if prev.Some? && id.1 in prev.value.Paths() then Departed
    else Foreign
  }

  /** What the steps leave at a place, if they touch it. */
  function Target(lock: seq<Entry>, plans: seq<Plan>, id: FileId): Option<Option<Bytes>> {
    match RegionOf(lock, Entries(plans), id)
    case Departed => Some(None)
    case Foreign => None
    case Recorded =>
      var i := Find(Entries(plans), id.0);
      if id.1 in plans[i].bodies then Some(Some(plans[i].bodies[id.1])) else None
  }

  /** The steps agree on every place they touch. */
  lemma StepsMeetTargets(lock: seq<Entry>, plans: seq<Plan>, writeLock: bool, id: FileId)
    requires DistinctPlans(plans)
    ensures forall s | s in Steps(lock, plans, writeLock) && Touches(s, id) ::
              Target(lock, plans, id) == Some(Leaves(s))
  {
    var keep := Names(Entries(plans));
    forall s | s in Steps(lock, plans, writeLock) && Touches(s, id)
      ensures Target(lock, plans, id) == Some(Leaves(s))
    {
      SweepMembers(lock, keep);
      if s !in SweepSteps(lock, keep) {
        assert s in ClosureSteps(Swept(lock, keep), plans);
        var i := StepOfPlan(Swept(lock, keep), plans, s);
        PackageMember(lock, plans, i, s, id);
      }
    }
  }

  /** Every place with a target is touched. */
  lemma TargetsAreMet(lock: seq<Entry>, plans: seq<Plan>, writeLock: bool, id: FileId)
    requires DistinctPlans(plans)
    requires Target(lock, plans, id).Some?
    ensures exists s :: s in Steps(lock, plans, writeLock) && Touches(s, id)
  {
    var keep := Names(Entries(plans));
    var s := DropPackage(id.0);
    if id.0 !in keep {
      SweepMembers(lock, keep);
      assert s in SweepSteps(lock, keep);
    } else {
      var i := Find(Entries(plans), id.0);
      GetSwept(lock, keep, id.0);
      var pl, prev := plans[i], Get(Swept(lock, keep), id.0);
      PruneMembers(id.0, RecordedFiles(prev), pl.entry.Paths());
      WriteMembers(id.0, pl.entry.TreeFiles(), pl.bodies);
      s := if id.1 in pl.entry.Paths() then WriteFile(id.0, id.1, pl.bodies[id.1]) else DropFile(id.0, id.1);
      assert s in PackageSteps(prev, pl);
      PlanStep(Swept(lock, keep), plans, i, s);
      assert s in ClosureSteps(Swept(lock, keep), plans);
    }
    assert s in Steps(lock, plans, writeLock) && Touches(s, id);
  }

  lemma PackageMember(lock: seq<Entry>, plans: seq<Plan>, i: nat, s: Step, id: FileId)
    requires DistinctPlans(plans) && i < |plans| && Touches(s, id)
    requires s in PackageSteps(Get(Swept(lock, Names(Entries(plans))), plans[i].entry.name), plans[i])
    ensures Target(lock, plans, id) == Some(Leaves(s))
  {
    var es := Entries(plans);
    var pl, keep := plans[i], Names(es);
    var prev := Get(Swept(lock, keep), pl.entry.name);
    PruneMembers(pl.entry.name, RecordedFiles(prev), pl.entry.Paths());
    WriteMembers(pl.entry.name, pl.entry.TreeFiles(), pl.bodies);
    assert es[i] in es;
    GetSwept(lock, keep, pl.entry.name);
    FindUnique(es, i);
    assert Find(es, pl.entry.name) == i;
  }

  lemma SavedIsDistinct(ps: seq<Entry>)
    requires DistinctNames(ps)
    ensures |Saved(ps)| == |ps| && DistinctNames(Saved(ps))
  {
    Sorting.SortByCorrect(NameKey, NormalizeAll(ps));
    Sorting.DistinctKeysOfPermutation(NameKey, NormalizeAll(ps), Saved(ps));
  }

  /** The saved entry of a name is the one the lock had, normalized. */
  lemma SavedGet(ps: seq<Entry>, n: string)
    requires DistinctNames(ps) && Get(ps, n).Some?
    ensures Get(Saved(ps), n) == Some(Normalize(Get(ps, n).value))
  {
    SavedElements(ps);
    var g := Get(Saved(ps), n);
    assert n in Names(Saved(ps));
    var e :| e in ps && g.value == Normalize(e);
    var i :| 0 <= i < |ps| && ps[i] == e;
    FindUnique(ps, i);
  }
}
