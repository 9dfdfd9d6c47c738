/** materialize: its effects are a prefix of Closure.Steps, and all of them when it succeeds. */
module Materialize {
  import opened Text
  import opened Sequences
  import opened Packages
  import opened Lockfiles
  import opened Store
  import opened Closure

  /** The effects so far are a prefix of the steps; on success they are all of them, and a failure has a reason. */
  ghost predicate Performed(w: World, budget: nat, steps: seq<Step>, done: seq<Step>, ok: bool, w': World,
                            effects: nat) {
    && done <= steps && budget == effects + |done|
    && (ok <==> done == steps)
    && (forall s | s in done :: Addressable(s))
    && (ok ==> w' == Run(w, done))
    && (!ok ==> CutAt(w, steps, done, w') && (effects == 0 || !Addressable(steps[|done|])))
  }

  /** Whether a run of the steps ends without a failure is known before it starts. */
  predicate Completes(steps: seq<Step>, budget: nat) {
    |steps| <= budget && forall s | s in steps :: Addressable(s)
  }

  lemma PerformedWhen(w: World, budget: nat, steps: seq<Step>, done: seq<Step>, ok: bool, w': World, effects: nat)
    requires Performed(w, budget, steps, done, ok, w', effects)
    ensures ok <==> Completes(steps, budget)
  {
    if !ok && effects > 0 {
      assert steps[|done|] in steps;
    }
  }

  lemma RunConcat(w: World, a: seq<Step>, b: seq<Step>)
    ensures Run(w, a + b) == Run(Run(w, a), b)
  {
    if b == [] {
      assert a + b == a;
    } else {
      var n := |b| - 1;
      assert (a + b)[..|a + b| - 1] == a + b[..n];
      RunConcat(w, a, b[..n]);
    }
  }

  /** Running a to its end and then a part of b is running a part of a + b. */
  lemma PerformedAfter(w: World, budget: nat, a: seq<Step>, w1: World, b: seq<Step>, done: seq<Step>, ok: bool,
                       w2: World, effects: nat)
    requires |a| <= budget && w1 == Run(w, a) && (forall s | s in a :: Addressable(s))
    requires Performed(w1, budget - |a|, b, done, ok, w2, effects)
    ensures Performed(w, budget, a + b, a + done, ok, w2, effects)
  {
    RunConcat(w, a, done);
    assert a + done <= a + b;
    if !ok {
      assert (a + b)[|a + done|] == b[|done|];
    }
  }

  lemma FailedBefore(w: World, budget: nat, a: seq<Step>, done: seq<Step>, w2: World, effects: nat, rest: seq<Step>)
    requires Performed(w, budget, a, done, false, w2, effects)
    ensures Performed(w, budget, a + rest, done, false, w2, effects)
  {
    assert done <= a + rest;
    assert (a + rest)[|done|] == a[|done|];
  }

  /** The run so far: exactly these steps, none refused. */
  ghost predicate Reached(w: World, done: seq<Step>, w': World) {
    w' == Run(w, done) && forall s | s in done :: Addressable(s)
  }

  lemma StepTaken(w: World, done: seq<Step>, w1: World, s: Step)
    requires Reached(w, done, w1) && Addressable(s)
    ensures Reached(w, done + [s], Apply(w1, s))
  {
    assert (done + [s])[..|done|] == done;
  }

  lemma StepFailed(w: World, budget: nat, steps: seq<Step>, done: seq<Step>, w1: World, s: Step, w2: World,
                   effects: nat)
    requires Reached(w, done, w1) && done + [s] <= steps && budget == effects + |done|
    requires w2.lock == w1.lock && Partial(s, w1.files, w2.files)
    requires effects == 0 || !Addressable(s)
    ensures Performed(w, budget, steps, done, false, w2, effects)
  {
    assert steps[|done|] == s;
    assert done <= steps;
  }

  // ------------------------------------------------------- prefixes of steps

  lemma {:induction false} PrunePrefix(name: string, fs: seq<FileEntry>, keep: set<string>, i: nat)
    requires i <= |fs|
    ensures PruneSteps(name, fs[..i], keep) <= PruneSteps(name, fs, keep)
  {
    if i < |fs| {
      PrunePrefix(name, fs[..|fs| - 1], keep, i);
      assert fs[..|fs| - 1][..i] == fs[..i];
    } else {
      assert fs[..i] == fs;
    }
  }

  lemma {:induction false} WritePrefix(name: string, fs: seq<FileEntry>, bodies: map<string, Bytes>, i: nat)
    requires i <= |fs|
    ensures WriteSteps(name, fs[..i], bodies) <= WriteSteps(name, fs, bodies)
  {
    if i < |fs| {
      WritePrefix(name, fs[..|fs| - 1], bodies, i);
      assert fs[..|fs| - 1][..i] == fs[..i];
    } else {
      assert fs[..i] == fs;
    }
  }

  lemma {:induction false} SweepPrefix(lock: seq<Entry>, keep: set<string>, i: nat)
    requires i <= |lock|
    ensures SweepSteps(lock[..i], keep) <= SweepSteps(lock, keep)
  {
    if i < |lock| {
      SweepPrefix(lock[..|lock| - 1], keep, i);
      assert lock[..|lock| - 1][..i] == lock[..i];
    } else {
      assert lock[..i] == lock;
    }
  }

  lemma PruneNext(name: string, fs: seq<FileEntry>, keep: set<string>, i: nat)
    requires i < |fs|
    ensures PruneSteps(name, fs[..i + 1], keep) ==
            PruneSteps(name, fs[..i], keep) + if fs[i].path in keep then [] else [DropFile(name, fs[i].path)]
    ensures PruneSteps(name, fs[..i + 1], keep) <= PruneSteps(name, fs, keep)
  {
    assert fs[..i + 1][..i] == fs[..i];
    PrunePrefix(name, fs, keep, i + 1);
  }

  lemma WriteNext(name: string, fs: seq<FileEntry>, bodies: map<string, Bytes>, i: nat)
    requires i < |fs|
    ensures WriteSteps(name, fs[..i + 1], bodies) ==
            WriteSteps(name, fs[..i], bodies)
            + if fs[i].path in bodies then [WriteFile(name, fs[i].path, bodies[fs[i].path])] else []
    ensures WriteSteps(name, fs[..i + 1], bodies) <= WriteSteps(name, fs, bodies)
  {
    assert fs[..i + 1][..i] == fs[..i];
    WritePrefix(name, fs, bodies, i + 1);
  }

  /** One turn of the sweep: the step it takes, and what removing the entry leaves of the lock. */
  lemma SweepNext(lock: seq<Entry>, keep: set<string>, i: nat)
    requires i < |lock|
    ensures SweepSteps(lock[..i + 1], keep) ==
            SweepSteps(lock[..i], keep) + if lock[i].name in keep then [] else [DropPackage(lock[i].name)]
    ensures SweepSteps(lock[..i + 1], keep) <= SweepSteps(lock, keep)
    ensures Swept(lock[..i + 1], keep) + lock[i + 1..] ==
            if lock[i].name in keep then Swept(lock[..i], keep) + lock[i..]
            else Without(Swept(lock[..i], keep) + lock[i..], lock[i].name)
  {
    TakeNext(lock, i);
    SweepPrefix(lock, keep, i + 1);
    assert SweepSteps(lock[..i], keep) + [] == SweepSteps(lock[..i], keep);
    SweptNext(lock, keep, i);
  }

  lemma SweptNext(lock: seq<Entry>, keep: set<string>, i: nat)
    requires i < |lock|
    ensures Swept(lock[..i + 1], keep) + lock[i + 1..] ==
            if lock[i].name in keep then Swept(lock[..i], keep) + lock[i..]
            else Without(Swept(lock[..i], keep) + lock[i..], lock[i].name)
  {
    TakeNext(lock, i);
    assert lock[i..] == [lock[i]] + lock[i + 1..];
    if lock[i].name !in keep {
      SweptMembers(lock[..i], keep);
      FirstOfRest(Swept(lock[..i], keep), lock[i..], lock[i].name);
      assert Swept(lock[..i], keep) + [] == Swept(lock[..i], keep);
    }
  }

  lemma {:induction false} ClosurePrefix(lock: seq<Entry>, plans: seq<Plan>, i: nat)
    requires i <= |plans|
    ensures ClosureSteps(lock, plans[..i]) <= ClosureSteps(lock, plans)
  {
    if i < |plans| {
      ClosurePrefix(lock, plans[..|plans| - 1], i);
      assert plans[..|plans| - 1][..i] == plans[..i];
    } else {
      assert plans[..i] == plans;
    }
  }

  // ----------------------------------------------------------------- methods

  /** Driven by what the previous lock recorded, never by a directory listing. */
  method PruneDepartedFiles(disk: Disk, prev: Option<Entry>, next: Entry) returns (ok: bool, ghost done: seq<Step>)
    modifies disk
    ensures Performed(old(disk.Snapshot()), old(disk.effects),
                      PruneSteps(next.name, RecordedFiles(prev), next.Paths()), done, ok, disk.Snapshot(), disk.effects)
  {
    var keep := next.Paths();
    var fs := RecordedFiles(prev);
    ok, done := PruneFiles(disk, next.name, fs, keep);
  }

  method PruneFiles(disk: Disk, name: string, fs: seq<FileEntry>, keep: set<string>)
    returns (ok: bool, ghost done: seq<Step>)
    modifies disk
    ensures Performed(old(disk.Snapshot()), old(disk.effects), PruneSteps(name, fs, keep),
                      done, ok, disk.Snapshot(), disk.effects)
  {
    ghost var w, budget := disk.Snapshot(), disk.effects;
    done := [];
    for i := 0 to |fs|
      invariant done == PruneSteps(name, fs[..i], keep)
      invariant Reached(w, done, disk.Snapshot()) && budget == disk.effects + |done|
    {
      PruneNext(name, fs, keep, i);
      if fs[i].path !in keep {
        ghost var w1, s := disk.Snapshot(), DropFile(name, fs[i].path);
        ok := disk.RemoveTreeFile(name, fs[i].path);
        if !ok {
          StepFailed(w, budget, PruneSteps(name, fs, keep), done, w1, s, disk.Snapshot(), disk.effects);
          return;
        }
        StepTaken(w, done, w1, s);
        done := done + [s];
      }
    }
    assert fs[..|fs|] == fs;
    ok := true;
  }

  /** Writes the bodies of the plan; a file without a body is already on disk. */
  method WriteBodies(disk: Disk, name: string, fs: seq<FileEntry>, bodies: map<string, Bytes>)
    returns (ok: bool, ghost done: seq<Step>)
    modifies disk
    ensures Performed(old(disk.Snapshot()), old(disk.effects), WriteSteps(name, fs, bodies),
                      done, ok, disk.Snapshot(), disk.effects)
  {
    ghost var w, budget := disk.Snapshot(), disk.effects;
    done := [];
    for i := 0 to |fs|
      invariant done == WriteSteps(name, fs[..i], bodies)
      invariant Reached(w, done, disk.Snapshot()) && budget == disk.effects + |done|
    {
      WriteNext(name, fs, bodies, i);
      if fs[i].path in bodies {
        ghost var w1, s := disk.Snapshot(), WriteFile(name, fs[i].path, bodies[fs[i].path]);
        ok := disk.WriteTreeFile(name, fs[i].path, bodies[fs[i].path]);
        if !ok {
          StepFailed(w, budget, WriteSteps(name, fs, bodies), done, w1, s, disk.Snapshot(), disk.effects);
          return;
        }
        StepTaken(w, done, w1, s);
        done := done + [s];
      }
    }
    assert fs[..|fs|] == fs;
    ok := true;
  }

  method MaterializePackage(disk: Disk, prev: Option<Entry>, pl: Plan) returns (ok: bool, ghost done: seq<Step>)
    modifies disk
    ensures Performed(old(disk.Snapshot()), old(disk.effects), PackageSteps(prev, pl),
                      done, ok, disk.Snapshot(), disk.effects)
  {
    ghost var w, budget := disk.Snapshot(), disk.effects;
    ghost var prune := PruneSteps(pl.entry.name, RecordedFiles(prev), pl.entry.Paths());
    ghost var write := WriteSteps(pl.entry.name, pl.entry.TreeFiles(), pl.bodies);
    ok, done := PruneDepartedFiles(disk, prev, pl.entry);
    if !ok {
      FailedBefore(w, budget, prune, done, disk.Snapshot(), disk.effects, write);
      return;
    }
    ghost var w1 := disk.Snapshot();
    ok, done := WriteBodies(disk, pl.entry.name, pl.entry.TreeFiles(), pl.bodies);
    PerformedAfter(w, budget, prune, w1, write, done, ok, disk.Snapshot(), disk.effects);
    done := prune + done;
  }

  /** The first i packages are swept: from the disk, and from the lock in memory. */
  ghost predicate SweptTo(w: World, entries: seq<Entry>, keep: set<string>, i: nat, done: seq<Step>, now: World,
                          packages: seq<Entry>)
    requires i <= |entries|
  {
    && done == SweepSteps(entries[..i], keep) && Reached(w, done, now)
    && packages == Swept(entries[..i], keep) + entries[i..]
  }

  lemma NothingSwept(w: World, entries: seq<Entry>, keep: set<string>)
    ensures SweptTo(w, entries, keep, 0, [], w, entries)
  {
    assert Swept(entries[..0], keep) + entries[0..] == entries;
  }

  lemma AllSwept(w: World, entries: seq<Entry>, keep: set<string>, done: seq<Step>, now: World, packages: seq<Entry>)
    requires SweptTo(w, entries, keep, |entries|, done, now, packages)
    ensures done == SweepSteps(entries, keep) && Reached(w, done, now) && packages == Swept(entries, keep)
  {
    assert entries[..|entries|] == entries;
  }

  lemma SweptKept(w: World, entries: seq<Entry>, keep: set<string>, i: nat, done: seq<Step>, now: World,
                  packages: seq<Entry>)
    requires i < |entries| && SweptTo(w, entries, keep, i, done, now, packages) && entries[i].name in keep
    ensures SweptTo(w, entries, keep, i + 1, done, now, packages)
  {
    SweepNext(entries, keep, i);
    assert done + [] == done;
  }

  lemma SweptDropped(w: World, entries: seq<Entry>, keep: set<string>, i: nat, done: seq<Step>, now: World,
                     packages: seq<Entry>)
    requires i < |entries| && SweptTo(w, entries, keep, i, done, now, packages)
    requires entries[i].name !in keep && Addressable(DropPackage(entries[i].name))
    ensures var s := DropPackage(entries[i].name);
            && done + [s] <= SweepSteps(entries, keep)
            && SweptTo(w, entries, keep, i + 1, done + [s], Apply(now, s), Without(packages, entries[i].name))
  {
    SweepNext(entries, keep, i);
    StepTaken(w, done, now, DropPackage(entries[i].name));
  }

  lemma SweepFailed(w: World, entries: seq<Entry>, keep: set<string>, i: nat, done: seq<Step>, now: World,
                    packages: seq<Entry>, w2: World, budget: nat, effects: nat)
    requires i < |entries| && SweptTo(w, entries, keep, i, done, now, packages) && entries[i].name !in keep
    requires w2.lock == now.lock && Partial(DropPackage(entries[i].name), now.files, w2.files)
            && budget == effects + |done|
    requires (effects == 0 || !Addressable(DropPackage(entries[i].name)))
    ensures Performed(w, budget, SweepSteps(entries, keep), done, false, w2, effects)
  {
    SweepNext(entries, keep, i);
    StepFailed(w, budget, SweepSteps(entries, keep), done, now, DropPackage(entries[i].name), w2, effects);
  }

  /** Removes every locked package the closure does not have, from the store and from the lock. */
  method Sweep(disk: Disk, lock: Lockfile, keep: set<string>) returns (ok: bool, ghost done: seq<Step>)
    modifies disk, lock
    ensures Performed(old(disk.Snapshot()), old(disk.effects), SweepSteps(old(lock.packages), keep),
                      done, ok, disk.Snapshot(), disk.effects)
    ensures ok ==> lock.packages == Swept(old(lock.packages), keep)
  {
    var entries := lock.packages;
    ghost var w, budget := disk.Snapshot(), disk.effects;
    done := [];
    NothingSwept(w, entries, keep);
    for i := 0 to |entries|
      invariant SweptTo(w, entries, keep, i, done, disk.Snapshot(), lock.packages) && budget == disk.effects + |done|
    {
      ghost var now, s := disk.Snapshot(), DropPackage(entries[i].name);
      if entries[i].name !in keep {
        ok := disk.RemovePackage(entries[i].name);
        if !ok {
          SweepFailed(w, entries, keep, i, done, now, lock.packages, disk.Snapshot(), budget, disk.effects);
          return;
        }
        SweptDropped(w, entries, keep, i, done, now, lock.packages);
        done := done + [s];
        var _ := lock.Remove(entries[i].name);
      } else {
        SweptKept(w, entries, keep, i, done, now, lock.packages);
      }
    }
    AllSwept(w, entries, keep, done, disk.Snapshot(), lock.packages);
    ok := true;
  }

  /** Removing a name that no earlier entry has removes the entry at hand. */
  lemma {:induction false} FirstOfRest(a: seq<Entry>, b: seq<Entry>, name: string)
    requires b != [] && b[0].name == name
    requires forall e | e in a :: e.name != name
    ensures Without(a + b, name) == a + b[1..]
  {
    var i := Find(a + b, name);
    assert (a + b)[|a|].name == name;
    assert forall j | 0 <= j < |a| :: (a + b)[j] == a[j] && a[j] in a;
    assert i == |a|;
    assert (a + b)[..i] == a && (a + b)[i + 1..] == b[1..];
  }

  lemma ClosureAppend(lock: seq<Entry>, plans: seq<Plan>, pl: Plan)
    ensures ClosureSteps(lock, plans + [pl]) ==
            ClosureSteps(lock, plans) + PackageSteps(Get(LockAfter(lock, plans), pl.entry.name), pl)
    ensures LockAfter(lock, plans + [pl]) == Upserted(LockAfter(lock, plans), pl.entry)
  {
    InitOfAppended(plans, pl);
  }

  lemma ClosureNext(lock: seq<Entry>, plans: seq<Plan>, i: nat) returns (rest: seq<Step>)
    requires i < |plans|
    ensures var prev := Get(LockAfter(lock, plans[..i]), plans[i].entry.name);
            ClosureSteps(lock, plans[..i + 1]) == ClosureSteps(lock, plans[..i]) + PackageSteps(prev, plans[i])
            && ClosureSteps(lock, plans) == ClosureSteps(lock, plans[..i]) + PackageSteps(prev, plans[i]) + rest
    ensures LockAfter(lock, plans[..i + 1]) == Upserted(LockAfter(lock, plans[..i]), plans[i].entry)
  {
    TakeNext(plans, i);
    ClosureAppend(lock, plans[..i], plans[i]);
    ClosurePrefix(lock, plans, i + 1);
    rest := ClosureSteps(lock, plans)[|ClosureSteps(lock, plans[..i + 1])|..];
  }

  /** Package by package: prune, write, then record the new entry. */
  method WriteClosure(disk: Disk, lock: Lockfile, plans: seq<Plan>) returns (ok: bool, ghost done: seq<Step>)
    modifies disk, lock
    ensures Performed(old(disk.Snapshot()), old(disk.effects), ClosureSteps(old(lock.packages), plans),
                      done, ok, disk.Snapshot(), disk.effects)
    ensures ok ==> lock.packages == LockAfter(old(lock.packages), plans)
  {
    ghost var w, budget, l := disk.Snapshot(), disk.effects, lock.packages;
    done := [];
    for i := 0 to |plans|
      invariant done == ClosureSteps(l, plans[..i])
      invariant Reached(w, done, disk.Snapshot()) && budget == disk.effects + |done|
      invariant lock.packages == LockAfter(l, plans[..i])
    {
      ghost var rest := ClosureNext(l, plans, i);
      ghost var w1, before := disk.Snapshot(), done;
      ghost var steps := PackageSteps(Get(lock.packages, plans[i].entry.name), plans[i]);
      ok, done := MaterializePackage(disk, Get(lock.packages, plans[i].entry.name), plans[i]);
      PerformedAfter(w, budget, before, w1, steps, done, ok, disk.Snapshot(), disk.effects);
      done := before + done;
      if !ok {
        FailedBefore(w, budget, before + steps, done, disk.Snapshot(), disk.effects, rest);
        return;
      }
      lock.Upsert(plans[i].entry);
    }
    assert plans[..|plans|] == plans;
    ok := true;
  }

  /** Writes a verified closure: sweep departed packages, prune and write each package, and save the lock last. */
  method Materialize(disk: Disk, plans: seq<Plan>, writeLock: bool) returns (ok: bool, ghost done: seq<Step>)
    modifies disk
    ensures Performed(old(disk.Snapshot()), old(disk.effects), Steps(old(disk.lock), plans, writeLock),
                      done, ok, disk.Snapshot(), disk.effects)
  {
    var lock := new Lockfile(disk.lock);
    var inPlan := Names(Entries(plans));
    ghost var w, budget := disk.Snapshot(), disk.effects;
    ghost var sweep, write := SweepSteps(disk.lock, inPlan), ClosureSteps(Swept(disk.lock, inPlan), plans);
    ghost var save := if writeLock then [SaveLock(Saved(FinalLock(disk.lock, plans)))] else [];
    ok, done := Sweep(disk, lock, inPlan);
    if !ok {
      FailedBefore(w, budget, sweep, done, disk.Snapshot(), disk.effects, write);
      FailedBefore(w, budget, sweep + write, done, disk.Snapshot(), disk.effects, save);
      return;
    }
    ghost var w1 := disk.Snapshot();
    ok, done := WriteClosure(disk, lock, plans);
    PerformedAfter(w, budget, sweep, w1, write, done, ok, disk.Snapshot(), disk.effects);
    done := sweep + done;
    if !ok {
      FailedBefore(w, budget, sweep + write, done, disk.Snapshot(), disk.effects, save);
      return;
    }
    if !writeLock {
      assert sweep + write + save == sweep + write;
      return;
    }
    ghost var w2 := disk.Snapshot();
    ok := disk.SaveLockfile(lock.packages);
    if ok {
      StepTaken(w, done, w2, save[0]);
      done := done + save;
    } else {
      StepFailed(w, budget, sweep + write + save, done, w2, save[0], disk.Snapshot(), disk.effects);
    }
  }
}
