/** The package store and bino.lock on disk, changed by one atomic effect at a time. */
module Store {
  import opened Text
  import opened Sequences
  import opened Packages
  import opened Lockfiles

  /** A package name and a path inside the package directory; see Packages.StoreFileInjective. */
  type FileId = (string, string)

  type Files = map<FileId, Bytes>

  datatype World = World(files: Files, lock: seq<Entry>)

  datatype Step =
    | DropPackage(name: string)
    | DropFile(name: string, path: string)
    | WriteFile(name: string, path: string, body: Bytes)
    | SaveLock(lock: seq<Entry>)

  function Lookup(files: Files, id: FileId): Option<Bytes> {
    if id in files then Some(files[id]) else None
  }

  function Apply(w: World, s: Step): World {
    match s
    case DropPackage(name) => w.(files := map id | id in w.files && id.0 != name :: w.files[id])
    case DropFile(name, path) => w.(files := w.files - {(name, path)})
    case WriteFile(name, path, body) => w.(files := w.files[(name, path) := body])
    case SaveLock(lock) => w.(lock := lock)
  }

  function Run(w: World, steps: seq<Step>): World {
    if steps == [] then w else Apply(Run(w, steps[..|steps| - 1]), steps[|steps| - 1])
  }

  /** The store refuses names and paths outside its grammar before it touches anything. */
  predicate Addressable(s: Step) {
    match s
    case DropPackage(name) => ValidName(name)
    case DropFile(name, path) => ValidName(name) && ValidTreePath(path)
    case WriteFile(name, path, _) => ValidName(name) && ValidTreePath(path)
    case SaveLock(_) => true
  }

  /** A leftover of an interrupted atomic write, by its name. */
  predicate IsWriteResidue(path: string) {
    var base := Base(path);
    "." <= base && Contains(base, ".tmp-")
  }

  /** In any directory, the residue of a write is a file whose name begins with "." and holds ".tmp-". */
  lemma ResidueIsTemporary(dir: string, file: string)
    requires file != "" && '/' !in file
    ensures IsWriteResidue(dir + "/" + file) <==> file[0] == '.' && Contains(file, ".tmp-")
    ensures IsWriteResidue(file) <==> file[0] == '.' && Contains(file, ".tmp-")
  {
    BaseOfJoined(dir, file);
    BaseOfFile(file);
  }

  /** b holds the files of a, unchanged, and perhaps new write residue. */
  ghost predicate OnlyResidueAdded(a: Files, b: Files) {
    && a.Keys <= b.Keys
    && (forall id | id in a :: b[id] == a[id])
    && (forall id | id in b :: id in a || IsWriteResidue(id.1))
  }

  /** What a step that fails or is cut can leave: a package removed in part, or the temporary file of a write. */
  ghost predicate Partial(s: Step, a: Files, b: Files) {
    match s
    case DropPackage(name) =>
      b.Keys <= a.Keys && forall id | id in a :: if id in b then b[id] == a[id] else id.0 == name
    case WriteFile(_, _, _) => OnlyResidueAdded(a, b)
    case _ => b == a
  }

  /** The run performed these steps, and stopped in the next one. */
  ghost predicate CutAt(w: World, steps: seq<Step>, done: seq<Step>, w': World) {
    && done < steps && w'.lock == Run(w, done).lock && Partial(steps[|done|], Run(w, done).files, w'.files)
  }

  /** The name os.CreateTemp gives the temporary file of an atomic write. */
  function TempName(path: string, suffix: string): string {
    var base := AfterLast(path, '/');
    path[..|path| - |base|] + "." + base + ".tmp-" + suffix
  }

  lemma TempIsResidue(path: string, suffix: string)
    requires '/' !in suffix && suffix != ""
    ensures IsWriteResidue(TempName(path, suffix))
  {
    var base := AfterLast(path, '/');
    var dir := path[..|path| - |base|];
    var file := "." + base + ".tmp-" + suffix;
    assert MatchAt(file, 1 + |base|, ".tmp-");
    assert TempName(path, suffix) == dir + file;
    DirEndsInSlash(path);
    BaseIn(dir, file);
  }

  lemma BaseIn(dir: string, file: string)
    requires file != "" && '/' !in file && (dir == "" || dir[|dir| - 1] == '/')
    ensures Base(dir + file) == file
  {
    if dir == "" {
      assert dir + file == file;
      NoSlashBase(file);
    } else {
      assert dir == dir[..|dir| - 1] + "/";
      BaseOfJoined(dir[..|dir| - 1], file);
    }
  }

  lemma DirEndsInSlash(path: string)
    ensures var n := |path| - |AfterLast(path, '/')|; 0 <= n <= |path| && (n == 0 || path[n - 1] == '/')
  {
    if path != [] && path[|path| - 1] != '/' {
      DirEndsInSlash(path[..|path| - 1]);
    }
  }

  lemma NoSlashBase(file: string)
    requires file != "" && '/' !in file
    ensures Base(file) == file
  {
    AfterLastWhole(file);
  }

  lemma AfterLastWhole(s: string)
    requires '/' !in s
    ensures AfterLast(s, '/') == s
  {
    if s != [] {
      AfterLastWhole(s[..|s| - 1]);
      InitAndLast(s);
    }
  }

  /** A path of the store's grammar is never taken for a leftover. */
  lemma ValidPathIsNoResidue(p: string)
    requires ValidTreePath(p)
    ensures !IsWriteResidue(p)
  {
    var i := IndexOf(p, '/');
    assert forall c | SegmentHead(c) || c == '.' || c == '_' || c == '-' :: c != '/';
    if i == |p| {
      assert p[..i] == p;
      NoSlashBase(p);
    } else {
      assert p == p[..i] + "/" + p[i + 1..];
      BaseOfJoined(p[..i], p[i + 1..]);
    }
  }

  /** The disk. `effects` says how many more effects succeed before a failure or a kill: every run can be cut at
      every point. */
  class Disk {
    var files: Files
    var lock: seq<Entry>
    var effects: nat

    constructor (w: World, effects: nat)
      ensures Snapshot() == w && this.effects == effects
    {
      files := w.files;
      lock := w.lock;
      this.effects := effects;
    }

    function Snapshot(): World
      reads this
    {
      World(files, lock)
    }

    /** The next attempt: how many effects it gets is not known to it. */
    method Restart(budget: nat)
      modifies this`effects
      ensures effects == budget
    {
      effects := budget;
    }

    /** An effect on another file of the project. */
    method Effect() returns (ok: bool)
      modifies this`effects
      ensures ok <==> old(effects) > 0
      ensures effects == if ok then old(effects) - 1 else old(effects)
    {
      ok := effects > 0;
      if ok { effects := effects - 1; }
    }

    /** The directory is emptied file by file: when that stops half way, some files of the package are left. */
    method RemovePackage(name: string) returns (ok: bool)
      modifies this
      ensures ok <==> old(effects) > 0 && ValidName(name)
      ensures effects == if ok then old(effects) - 1 else old(effects)
      ensures ok ==> Snapshot() == Apply(old(Snapshot()), DropPackage(name))
      ensures !ok ==> Partial(DropPackage(name), old(files), files) && lock == old(lock)
    {
      ok := effects > 0 && ValidName(name);
      if ok {
        effects := effects - 1;
        files := map id | id in files && id.0 != name :: files[id];
      } else if ValidName(name) {
        var removed: set<string> := *;
        files := map id | id in files && !(id.0 == name && id.1 in removed) :: files[id];
      }
    }

    method RemoveTreeFile(name: string, path: string) returns (ok: bool)
      modifies this
      ensures ok <==> old(effects) > 0 && ValidName(name) && ValidTreePath(path)
      ensures effects == if ok then old(effects) - 1 else old(effects)
      ensures Snapshot() == if ok then Apply(old(Snapshot()), DropFile(name, path)) else old(Snapshot())
    {
      ok := effects > 0 && ValidName(name) && ValidTreePath(path);
      if ok {
        effects := effects - 1;
        files := files - {(name, path)};
      }
    }

    /** An interrupted write never shows a partial file; it can leave its temporary file behind. */
    method WriteTreeFile(name: string, path: string, body: Bytes) returns (ok: bool)
      modifies this
      ensures ok <==> old(effects) > 0 && ValidName(name) && ValidTreePath(path)
      ensures effects == if ok then old(effects) - 1 else old(effects)
      ensures ok ==> Snapshot() == Apply(old(Snapshot()), WriteFile(name, path, body))
      ensures !ok ==> Partial(WriteFile(name, path, body), old(files), files) && lock == old(lock)
    {
      ok := effects > 0 && ValidName(name) && ValidTreePath(path);
      if ok {
        effects := effects - 1;
        files := files[(name, path) := body];
      } else if ValidName(name) && ValidTreePath(path) {
        var suffix: string := *;
        var partial: Bytes := *;
        var id := (name, TempName(path, suffix));
        if suffix != "" && '/' !in suffix && id !in files {
          TempIsResidue(path, suffix);
          files := files[id := partial];
        }
      }
    }

    method SaveLockfile(packages: seq<Entry>) returns (ok: bool)
      modifies this
      ensures ok <==> old(effects) > 0
      ensures effects == if ok then old(effects) - 1 else old(effects)
      ensures Snapshot() == if ok then Apply(old(Snapshot()), SaveLock(Saved(packages))) else old(Snapshot())
    {
      ok := effects > 0;
      if ok {
        effects := effects - 1;
        lock := Saved(packages);
      }
    }
  }

  // ------------------------------------------------------------ step algebra

  predicate Touches(s: Step, id: FileId) {
    match s
    case DropPackage(name) => id.0 == name
    case DropFile(name, path) => id == (name, path)
    case WriteFile(name, path, _) => id == (name, path)
    case SaveLock(_) => false
  }

  /** What a step leaves at a place it touches. */
  function Leaves(s: Step): Option<Bytes> {
    if s.WriteFile? then Some(s.body) else None
  }

  /** All steps that touch id leave v there. */
  ghost predicate Settled(steps: seq<Step>, id: FileId, v: Option<Bytes>) {
    forall s | s in steps && Touches(s, id) :: Leaves(s) == v
  }

  /** When the steps agree about a place, it holds the old or the agreed content at every moment, and the agreed
      content once a step touched it. */
  lemma {:induction false} SettledRun(w: World, steps: seq<Step>, id: FileId, v: Option<Bytes>)
    requires Settled(steps, id, v)
    ensures Lookup(Run(w, steps).files, id) ==
            if exists s :: s in steps && Touches(s, id) then v else Lookup(w.files, id)
  {
    if steps != [] {
      var init, last := steps[..|steps| - 1], steps[|steps| - 1];
      assert steps == init + [last];
      SettledRun(w, init, id, v);
      if Touches(last, id) {
        assert last in steps;
      } else {
        assert (exists s :: s in init && Touches(s, id)) <==> (exists s :: s in steps && Touches(s, id));
      }
    }
  }

  lemma {:induction false} LockKept(w: World, steps: seq<Step>)
    requires forall s | s in steps :: !s.SaveLock?
    ensures Run(w, steps).lock == w.lock
  {
    if steps != [] {
      LockKept(w, steps[..|steps| - 1]);
    }
  }
}
