/** Which runs the store accepts: the entries of the old lock and of the closure alone decide it. */
module Addresses {
  import opened Text
  import opened Sequences
  import opened Packages
  import opened Lockfiles
  import opened Store
  import opened Closure
  import opened Materialize
  import opened RegistrySync
  import opened RegistryCommands

  /** The store has a place for every file of the entry. */
  predicate HasPlace(e: Entry) {
    ValidName(e.name) && PlacedFiles(e.TreeFiles())
  }

  predicate PlacedFiles(fs: seq<FileEntry>) {
    forall f | f in fs :: ValidTreePath(f.path)
  }

  predicate HavePlaces(es: seq<Entry>) {
    forall e | e in es :: HasPlace(e)
  }

  predicate AllAddressable(steps: seq<Step>) {
    forall s | s in steps :: Addressable(s)
  }

  lemma {:induction false} PruneIsAddressable(name: string, prev: seq<FileEntry>, keep: set<string>)
    requires ValidName(name) && PlacedFiles(prev)
    ensures AllAddressable(PruneSteps(name, prev, keep))
  {
    if prev != [] {
      PruneIsAddressable(name, prev[..|prev| - 1], keep);
    }
  }

  lemma {:induction false} WritesAreAddressable(name: string, fs: seq<FileEntry>, bodies: map<string, Bytes>)
    requires ValidName(name) && PlacedFiles(fs)
    ensures AllAddressable(WriteSteps(name, fs, bodies))
  {
    if fs != [] {
      WritesAreAddressable(name, fs[..|fs| - 1], bodies);
    }
  }

  lemma {:induction false} SweepIsAddressable(lock: seq<Entry>, keep: set<string>)
    requires HavePlaces(lock)
    ensures AllAddressable(SweepSteps(lock, keep))
  {
    if lock != [] {
      SweepIsAddressable(lock[..|lock| - 1], keep);
      assert HasPlace(lock[|lock| - 1]);
    }
  }

  lemma UpsertedHavePlaces(ps: seq<Entry>, e: Entry)
    requires HavePlaces(ps) && HasPlace(e)
    ensures HavePlaces(Upserted(ps, e))
  {
    forall x | x in Upserted(ps, e) ensures HasPlace(x) {
      assert x == e || x in ps;
    }
  }

  lemma {:induction false} ClosureIsAddressable(lock: seq<Entry>, plans: seq<Plan>)
    requires HavePlaces(lock) && HavePlaces(Entries(plans))
    ensures AllAddressable(ClosureSteps(lock, plans)) && HavePlaces(LockAfter(lock, plans))
  {
    if plans != [] {
      var n := |plans| - 1;
      assert Entries(plans[..n]) == Entries(plans)[..n];
      ClosureIsAddressable(lock, plans[..n]);
      var e := plans[n].entry;
      assert Entries(plans)[n] == e && HasPlace(e);
      var prev := Get(LockAfter(lock, plans[..n]), e.name);
      PruneIsAddressable(e.name, RecordedFiles(prev), e.Paths());
      WritesAreAddressable(e.name, e.TreeFiles(), plans[n].bodies);
      UpsertedHavePlaces(LockAfter(lock, plans[..n]), e);
    }
  }

  /** Entries with valid names and paths make every step of a run one that the store accepts. */
  lemma StepsAreAddressable(lock: seq<Entry>, plans: seq<Plan>, writeLock: bool)
    requires HavePlaces(lock) && HavePlaces(Entries(plans))
    ensures AllAddressable(Steps(lock, plans, writeLock))
  {
    var keep := Names(Entries(plans));
    SweepIsAddressable(lock, keep);
    SweptMembers(lock, keep);
    ClosureIsAddressable(Swept(lock, keep), plans);
  }

  /** A sync over entries that the store has a place for ends if and only if the registry can supply what is not on disk
      and the run is not cut before its last step. */
  lemma SyncCompletesWhen(rules: Rules, s: Server, rs: seq<Resolved>, w: World, budget: nat)
    requires HavePlaces(w.lock) && HavePlaces(ClosureOf(rules, s, rs))
    ensures var plans := PlansOf(rules, s, w.files, rs);
            && (plans.Some? <==> forall i | 0 <= i < |rs| :: CanFetch(rules, s, w.files, rs[i]))
            && (SyncCompletes(rules, s, rs, w, budget) <==> plans.Some? && |Steps(w.lock, plans.value, true)| <= budget)
  {
    PlansWhen(rules, s, w.files, rs);
    if PlansOf(rules, s, w.files, rs).Some? {
      StepsAreAddressable(w.lock, PlansOf(rules, s, w.files, rs).value, true);
    }
  }
}
