/** verifyPackage: one locked package judged against the store. */
module StoreVerify {
  import opened Text
  import opened Packages
  import opened Lockfiles
  import opened Store
  import opened Closure
  import opened Recovery

  datatype Status = Ok | InvalidLock | InvalidName | Missing | Modified | Extra

  /** The package directory holds a file that the entry does not record and that is no write residue. */
  ghost predicate HasExtra(files: Files, e: Entry) {
    exists p :: (e.name, p) in files && p !in e.Paths() && !IsWriteResidue(p)
  }

  /** What is wrong with one recorded file, if anything. */
  function Problem(d: Digests, files: Files, e: Entry, f: FileEntry): Option<Status> {
    if !ValidName(e.name) || !ValidTreePath(f.path) then Some(InvalidName)
    else if (e.name, f.path) !in files then Some(Missing)
    else if !Verifies(d, e, f, files[(e.name, f.path)]) then Some(Modified)
    else None
  }

  /** The first recorded file that does not verify, in the order of the list, and why: its name or path is none the
      store has a place for, nothing is there, or what is there has another digest. */
  ghost predicate FirstProblem(d: Digests, files: Files, e: Entry, i: int, s: Status) {
    var fs := e.TreeFiles();
    && 0 <= i < |fs| && (forall j | 0 <= j < i :: OnDisk(d, files, e, fs[j]))
    && var placed, id := ValidName(e.name) && ValidTreePath(fs[i].path), (e.name, fs[i].path);
       || (s == InvalidName && !placed)
       || (s == Missing && placed && id !in files)
       || (s == Modified && placed && id in files
           && DigestOf(d, e.format, fs[i].kind, files[id]) != Some(fs[i].digest))
  }

  method CheckRecorded(d: Digests, files: Files, e: Entry) returns (problem: Option<Status>)
    ensures problem.None? <==> Installed(d, files, e)
    ensures problem.Some? ==> exists i :: FirstProblem(d, files, e, i, problem.value)
  {
    var fs := e.TreeFiles();
    for i := 0 to |fs|
      invariant forall j | 0 <= j < i :: OnDisk(d, files, e, fs[j])
    {
      problem := Problem(d, files, e, fs[i]);
      if problem.Some? {
        assert FirstProblem(d, files, e, i, problem.value);
        assert !OnDisk(d, files, e, fs[i]);
        return;
      }
    }
    problem := None;
  }

  method CheckExtra(files: Files, e: Entry) returns (extra: bool)
    ensures extra <==> HasExtra(files, e)
    ensures extra <==> exists p :: (e.name, p) in files && p !in e.Paths()
                         && !("." <= Base(p) && Contains(Base(p), ".tmp-"))
  {
    var known := e.Paths();
    var onDisk := set id | id in files && id.0 == e.name :: id.1;
    while onDisk != {}
      invariant forall p | p in onDisk :: (e.name, p) in files
      invariant forall p | (e.name, p) in files && p !in onDisk :: p in known || IsWriteResidue(p)
    {
      var p :| p in onDisk;
      if p !in known && !IsWriteResidue(p) { return true; }
      onDisk := onDisk - {p};
    }
    extra := false;
  }

  /** s is what the command reports for the package. */
  ghost predicate IsVerdict(d: Digests, files: Files, e: Entry, s: Status) {
    && (s == InvalidLock <==> e.TreeFiles() == [])
    && (s in {InvalidName, Missing, Modified} ==> exists i :: FirstProblem(d, files, e, i, s))
    && (s == Extra <==> e.TreeFiles() != [] && Installed(d, files, e) && HasExtra(files, e))
    && (s == Ok <==> e.TreeFiles() != [] && Installed(d, files, e) && !HasExtra(files, e))
  }

  method VerifyPackage(d: Digests, files: Files, e: Entry) returns (s: Status)
    ensures IsVerdict(d, files, e, s)
  {
    if e.TreeFiles() == [] { return InvalidLock; }
    var problem := CheckRecorded(d, files, e);
    if problem.Some? { return problem.value; }
    var extra := CheckExtra(files, e);
    s := if extra then Extra else Ok;
  }

  // ------------------------------------------------- after a sync or install

  /** Before the run the package directory already held a file that neither the old lock nor the closure records. */
  ghost predicate HadForeign(w: World, closure: seq<Entry>, name: string) {
    exists p :: IsForeign(w, closure, name, p)
  }

  ghost predicate IsForeign(w: World, closure: seq<Entry>, name: string, p: string) {
    (name, p) in w.files && !IsWriteResidue(p) && RegionOf(w.lock, closure, (name, p)) == Foreign
  }

  /** After a finished run the only findings a package of the closure can have are an entry without files, and a file
      that was there before the first attempt and that neither lock records. */
  lemma SyncedPackageVerifies(d: Digests, closure: seq<Entry>, w: World, w': World, i: nat, s: Status)
    requires Synced(d, closure, w, w') && DistinctNames(closure) && i < |closure|
    requires IsVerdict(d, w'.files, Normalize(closure[i]), s)
    ensures Installed(d, w'.files, Normalize(closure[i]))
    ensures s == if closure[i].TreeFiles() == [] then InvalidLock
                 else if HadForeign(w, closure, closure[i].name) then Extra
                 else Ok
  {
    SyncedInstalls(d, closure, w, w', i);
    SyncedExtra(d, closure, w, w', i);
    NormalizeKeepsFiles(closure[i]);
  }

  lemma SyncedInstalls(d: Digests, closure: seq<Entry>, w: World, w': World, i: nat)
    requires Synced(d, closure, w, w') && i < |closure|
    ensures Installed(d, w'.files, Normalize(closure[i]))
  {
    var e := closure[i];
    NormalizeKeepsFiles(e);
    forall f | f in Normalize(e).TreeFiles() ensures OnDisk(d, w'.files, Normalize(e), f) {
      assert OnDisk(d, w'.files, e, f);
    }
  }

  lemma SyncedExtra(d: Digests, closure: seq<Entry>, w: World, w': World, i: nat)
    requires Synced(d, closure, w, w') && DistinctNames(closure) && i < |closure|
    ensures HasExtra(w'.files, Normalize(closure[i])) <==> HadForeign(w, closure, closure[i].name)
  {
    var e := closure[i];
    NormalizeKeepsFiles(e);
    FindUnique(closure, i);
    forall p ensures (e.name, p) in w'.files && p !in e.Paths() && !IsWriteResidue(p) <==>
        IsForeign(w, closure, e.name, p) {
      var id := (e.name, p);
      if !IsWriteResidue(p) {
        assert SyncedAt(closure, w, w', id);
        assert id in w'.files <==> Lookup(w'.files, id).Some?;
        assert id in w.files <==> Lookup(w.files, id).Some?;
      }
    }
    if HadForeign(w, closure, e.name) {
      var p :| IsForeign(w, closure, e.name, p);
    }
  }

  // ------------------------------------- attempts at different closures

  /** The steps of an attempt that was cut leave a file at this place. */
  ghost predicate LeftBy(w: World, done: seq<Step>, id: FileId) {
    (exists s :: s in done && s.WriteFile? && Touches(s, id))
    || (id in w.files && !exists s :: s in done && Touches(s, id))
  }

  /** A removal of its package, begun and not finished, took the file. */
  ghost predicate LostIn(steps: seq<Step>, done: seq<Step>, left: World, id: FileId)
    requires |done| < |steps|
  {
    steps[|done|].DropPackage? && Touches(steps[|done|], id) && id !in left.files
  }

  /** A sync to one closure was cut, between two steps or inside one; another one completes. A package of the second
      then has an extra file exactly if the cut attempt wrote one outside the paths of the second closure and of the
      old lock, or there was one at first that the attempt did not remove. */
  lemma OtherAttemptLeavesFiles(d: Digests, plans: seq<Plan>, done: seq<Step>, closure: seq<Entry>, w: World,
                                left: World, w': World, i: nat)
    requires DistinctPlans(plans) && CutAt(w, Steps(w.lock, plans, true), done, left)
    requires Synced(d, closure, left, w') && DistinctNames(closure) && i < |closure|
    ensures HasExtra(w'.files, Normalize(closure[i])) <==>
            exists p :: !IsWriteResidue(p) && LeftBy(w, done, (closure[i].name, p))
                        && !LostIn(Steps(w.lock, plans, true), done, left, (closure[i].name, p))
                        && RegionOf(w.lock, closure, (closure[i].name, p)) == Foreign
  {
    var name, steps := closure[i].name, Steps(w.lock, plans, true);
    SyncedExtra(d, closure, left, w', i);
    UnsavedPrefix(w.lock, plans, done);
    CutKeepsLock(w, plans, done);
    forall p | !IsWriteResidue(p)
      ensures (name, p) in left.files <==> LeftBy(w, done, (name, p)) && !LostIn(steps, done, left, (name, p))
    {
      LeftByCut(w, plans, done, (name, p));
      LeftInside(w, steps, done, left, (name, p));
    }
    if p :| !IsWriteResidue(p) && LeftBy(w, done, (name, p)) && !LostIn(steps, done, left, (name, p))
            && RegionOf(w.lock, closure, (name, p)) == Foreign {
      assert IsForeign(left, closure, name, p);
    }
    if HadForeign(left, closure, name) {
      var p :| IsForeign(left, closure, name, p);
      assert LeftBy(w, done, (name, p)) && !LostIn(steps, done, left, (name, p));
    }
  }

  /** The step that was cut can have taken files of a package it removes, and can have added only residue. */
  lemma LeftInside(w: World, steps: seq<Step>, done: seq<Step>, left: World, id: FileId)
    requires CutAt(w, steps, done, left) && !IsWriteResidue(id.1)
    ensures id in left.files <==> id in Run(w, done).files && !LostIn(steps, done, left, id)
  {
  }

  lemma LeftByCut(w: World, plans: seq<Plan>, done: seq<Step>, id: FileId)
    requires DistinctPlans(plans) && done <= Steps(w.lock, plans, false)
    ensures id in Run(w, done).files <==> LeftBy(w, done, id)
  {
    var t := Target(w.lock, plans, id);
    StepsMeetTargets(w.lock, plans, false, id);
    assert forall s | s in done :: s in Steps(w.lock, plans, false);
    SettledRun(w, done, id, if t.Some? then t.value else None);
    assert id in Run(w, done).files <==> Lookup(Run(w, done).files, id).Some?;
    if s :| s in done && Touches(s, id) {
      assert t == Some(Leaves(s));
    }
  }

  const SAMPLE := "@s/p"

  function OneFile(path: string, digest: string): Entry {
    Entry(SAMPLE, "1", "", "", TreeFormat, "", true, [], [FileEntry(path, DocumentFile, digest)], [])
  }

  lemma SampleNameIsValid()
    ensures ValidName(SAMPLE)
  {
    var rest := SAMPLE[1..];
    assert rest[0] == 's' && rest[1] == '/' && rest[2] == 'p' && |rest| == 3;
    var i := IndexOf(rest, '/');
    assert i == 1;
    assert rest[..1] == "s" && rest[2..] == "p";
  }

  lemma SamplePathIsValid(path: string)
    requires path == "a.yml" || path == "b.yml"
    ensures ValidTreePath(path)
  {
    assert |path| == 5 && path[1] == '.' && path[2] == 'y' && path[3] == 'm' && path[4] == 'l';
    assert forall i | 0 <= i < |path| :: path[i] != '/';
    assert IndexOf(path, '/') == |path| && path[..|path|] == path;
    forall i: nat | i <= |path| ensures !MatchAt(path, i, "..") {
      if i + 2 <= |path| {
        assert path[i..i + 2][0] == path[i] && path[i..i + 2][1] == path[i + 1];
      }
    }
  }

  /** The steps of a sync from an empty lock to a package of one file. */
  lemma OneFileSteps(path: string, digest: string, body: Bytes)
    ensures var pl := Plan(OneFile(path, digest), map[path := body]);
            && Steps([], [pl], false) == [WriteFile(SAMPLE, path, body)]
            && Steps([], [pl], true)[..1] == [WriteFile(SAMPLE, path, body)] && |Steps([], [pl], true)| == 2
            && Steps([], [pl], true)[1].SaveLock?
  {
    var pl := Plan(OneFile(path, digest), map[path := body]);
    assert [pl][..0] == [];
    var f := FileEntry(path, DocumentFile, digest);
    assert [f][..0] == [];
    assert WriteSteps(SAMPLE, [f], pl.bodies) == [] + [WriteFile(SAMPLE, path, body)];
    assert PackageSteps(None, pl) == [WriteFile(SAMPLE, path, body)];
    assert ClosureSteps([], [pl]) == [] + PackageSteps(None, pl);
    assert Steps([], [pl], false) == [] + [WriteFile(SAMPLE, path, body)] + [];
  }

  lemma OneFileIsFetched(d: Digests, path: string, digest: string, body: Bytes, files: Files)
    requires d.tree(body) == Some(digest)
    ensures Fetched(d, files, Plan(OneFile(path, digest), map[path := body])) && Coherent(OneFile(path, digest))
  {
    var f, e := FileEntry(path, DocumentFile, digest), OneFile(path, digest);
    assert e.TreeFiles() == [f] && f in e.TreeFiles() && Verifies(d, e, f, body);
  }

  /** A sync from an empty lock to such a package completes. */
  lemma OneFileSyncs(d: Digests, path: string, digest: string, body: Bytes, w: World)
    requires ValidName(SAMPLE) && ValidTreePath(path) && d.tree(body) == Some(digest) && w.lock == []
    ensures var pl := Plan(OneFile(path, digest), map[path := body]);
            Fetched(d, w.files, pl) && Synced(d, [pl.entry], w, Run(w, Steps([], [pl], true)))
  {
    var pl := Plan(OneFile(path, digest), map[path := body]);
    var steps := Steps([], [pl], true);
    OneFileIsFetched(d, path, digest, body, w.files);
    OneFileSteps(path, digest, body);
    assert steps == steps[..1] + [steps[1]];
    assert Entries([pl]) == [pl.entry];
    CompleteIsSynced(d, w, [pl], true);
  }

  /** Such a file does come about: nothing is locked, an attempt at a package with the file "a.yml" is cut after writing
      it, and a sync to a version with the file "b.yml" completes. */
  lemma LeftoverIsExtra(d: Digests, a: Bytes, b: Bytes, digestA: string, digestB: string)
    requires d.tree(a) == Some(digestA) && d.tree(b) == Some(digestB)
    ensures var pl1 := Plan(OneFile("a.yml", digestA), map["a.yml" := a]);
            var pl2 := Plan(OneFile("b.yml", digestB), map["b.yml" := b]);
            var w := World(map[], []);
            var w1 := Run(w, Steps([], [pl1], false));
            var w2 := Run(w1, Steps([], [pl2], true));
            Fetched(d, w.files, pl1) && Fetched(d, w1.files, pl2) && Synced(d, [pl2.entry], w1, w2)
            && IsVerdict(d, w2.files, Normalize(pl2.entry), Extra)
  {
    var pl1 := Plan(OneFile("a.yml", digestA), map["a.yml" := a]);
    var pl2 := Plan(OneFile("b.yml", digestB), map["b.yml" := b]);
    var w := World(map[], []);
    var done := Steps([], [pl1], false);
    var w1 := Run(w, done);
    var w2 := Run(w1, Steps([], [pl2], true));
    SampleNameIsValid();
    SamplePathIsValid("a.yml");
    SamplePathIsValid("b.yml");
    OneFileIsFetched(d, "a.yml", digestA, a, w.files);
    OneFileSteps("a.yml", digestA, a);
    UnsavedIsCut(w, [pl1]);
    CutKeepsLock(w, [pl1], done);
    OneFileSyncs(d, "b.yml", digestB, b, w1);
    SyncedInstalls(d, [pl2.entry], w1, w2, 0);
    OtherAttemptLeavesFiles(d, [pl1], done, [pl2.entry], w, w1, w2, 0);
    ValidPathIsNoResidue("a.yml");
    LeftoverIsForeign(digestB, done, a);
    NormalizeKeepsFiles(pl2.entry);
  }

  lemma LeftoverIsForeign(digest: string, done: seq<Step>, a: Bytes)
    requires done == [WriteFile(SAMPLE, "a.yml", a)]
    ensures RegionOf([], [OneFile("b.yml", digest)], (SAMPLE, "a.yml")) == Foreign
    ensures LeftBy(World(map[], []), done, (SAMPLE, "a.yml"))
  {
    assert done[0].WriteFile? && Touches(done[0], (SAMPLE, "a.yml"));
    assert OneFile("b.yml", digest).Paths() == {"b.yml"};
    assert "a.yml"[0] != "b.yml"[0];
  }

  /** Two entries of one path and kind with different digests: no store content verifies, before or after any run. */
  lemma ClashNeverVerifies(d: Digests, files: Files, e: Entry, f: FileEntry, g: FileEntry)
    requires f in e.TreeFiles() && g in e.TreeFiles()
    requires f.path == g.path && f.kind == g.kind && f.digest != g.digest
    ensures !Installed(d, files, e)
  {
    assert !OnDisk(d, files, e, f) || !OnDisk(d, files, e, g);
  }

  /** install downloads under the route's format; it leaves a verified package exactly when the lock names a known
      format or the package has no document. */
  lemma InstalledAsRecorded(d: Digests, files: Files, e: Entry)
    requires Installed(d, files, Fetchable(e))
    ensures Installed(d, files, e) <==> e.format in {TreeFormat, DocumentFormat} || e.path == ""
  {
    if e.format == TreeFormat || e.format == DocumentFormat {
      assert Fetchable(e) == e;
    } else if e.path == "" {
      ResourcesInAnyFormat(d, files, e);
    } else {
      var f := FileEntry(Base(e.path), DocumentFile, e.digest);
      assert e.TreeFiles()[0] == f;
      assert !OnDisk(d, files, e, f);
    }
  }

  lemma ResourcesInAnyFormat(d: Digests, files: Files, e: Entry)
    requires e.format != TreeFormat && e.path == "" && Installed(d, files, Fetchable(e))
    ensures Installed(d, files, e)
  {
    assert e.TreeFiles() == e.ResourceFiles() == Fetchable(e).TreeFiles();
    forall f | f in e.TreeFiles() ensures OnDisk(d, files, e, f) {
      assert OnDisk(d, files, Fetchable(e), f);
    }
  }
}
