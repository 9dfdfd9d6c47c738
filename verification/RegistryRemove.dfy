/** registryRemove: mark what the remaining declarations reach, sweep the rest, demote what survives. */
module RegistryRemove {
  import opened Text
  import opened Sequences
  import opened Packages
  import opened Lockfiles
  import opened Store
  import opened Closure
  import opened Materialize
  import opened LockDrift
  import opened Manifests

  // ----------------------------------------------------------- reachability

  /** The locked dependency edges of name; a name that is not locked has none. */
  function Edges(lock: seq<Entry>, name: string): seq<string> {
    var e := Get(lock, name);
    if e.Some? then e.value.dependencies else []
  }

  ghost predicate IsPath(lock: seq<Entry>, p: seq<string>) {
    p != [] && forall i | 0 <= i < |p| - 1 :: p[i + 1] in Edges(lock, p[i])
  }

  ghost predicate PathFrom(lock: seq<Entry>, a: string, p: seq<string>, b: string) {
    IsPath(lock, p) && p[0] == a && p[|p| - 1] == b
  }

  ghost predicate Reaches(lock: seq<Entry>, a: string, b: string) {
    exists p :: PathFrom(lock, a, p, b)
  }

  ghost predicate ReachableFrom(lock: seq<Entry>, roots: set<string>, name: string) {
    exists a :: a in roots && Reaches(lock, a, name)
  }

  /** Everything the set's members depend on is in the set. */
  ghost predicate Closed(lock: seq<Entry>, s: set<string>) {
    forall a, b | a in s && b in Edges(lock, a) :: b in s
  }

  lemma ReachesItself(lock: seq<Entry>, a: string)
    ensures Reaches(lock, a, a)
  {
    assert PathFrom(lock, a, [a], a);
  }

  lemma ReachesThrough(lock: seq<Entry>, a: string, b: string, c: string)
    requires b in Edges(lock, a) && Reaches(lock, b, c)
    ensures Reaches(lock, a, c)
  {
    var p :| PathFrom(lock, b, p, c);
    assert PathFrom(lock, a, [a] + p, c);
  }

  lemma {:induction false} ClosedContainsPath(lock: seq<Entry>, s: set<string>, p: seq<string>)
    requires Closed(lock, s) && IsPath(lock, p) && p[0] in s
    ensures p[|p| - 1] in s
  {
    if |p| > 1 {
      assert p[1] in Edges(lock, p[0]);
      assert IsPath(lock, p[1..]);
      ClosedContainsPath(lock, s, p[1..]);
    }
  }

  // ------------------------------------------------------------------ mark

  class Marker {
    var reachable: set<string>

    constructor ()
      ensures reachable == {}
    {
      reachable := {};
    }

    /** Depth-first over edges that may form cycles. The universe bounds the recursion: each call that goes on has
        marked a new name of it. */
    method Mark(lock: seq<Entry>, name: string, ghost universe: set<string>)
      requires name in universe && forall a, b | a in universe && b in Edges(lock, a) :: b in universe
      modifies this
      decreases universe - reachable
      ensures old(reachable) + {name} <= reachable
      ensures reachable <= old(reachable) + universe
      ensures forall a, b | a in reachable && a !in old(reachable) && b in Edges(lock, a) :: b in reachable
      ensures forall a | a in reachable && a !in old(reachable) :: Reaches(lock, name, a)
    {
      if name in reachable { return; }
      reachable := reachable + {name};
      ReachesItself(lock, name);
      var deps := Edges(lock, name);
      for i := 0 to |deps|
        invariant old(reachable) + {name} <= reachable <= old(reachable) + universe
        invariant forall j | 0 <= j < i :: deps[j] in reachable
        invariant forall a, b | a in reachable && a !in old(reachable) && a != name && b in Edges(lock, a) ::
                    b in reachable
        invariant forall a | a in reachable && a !in old(reachable) :: Reaches(lock, name, a)
      {
        ghost var before := reachable;
        Mark(lock, deps[i], universe);
        forall a | a in reachable && a !in before ensures Reaches(lock, name, a) {
          ReachesThrough(lock, name, deps[i], a);
        }
      }
    }
  }

  ghost function Universe(lock: seq<Entry>, roots: set<string>): set<string> {
    roots + (set e, d | e in lock && d in e.dependencies :: d)
  }

  /** The marked names are exactly the names reachable from the roots, cycles or not. */
  method MarkAll(lock: seq<Entry>, roots: set<string>) returns (reachable: set<string>)
    ensures forall n :: n in reachable <==> ReachableFrom(lock, roots, n)
    ensures roots <= reachable && Closed(lock, reachable)
  {
    var m := new Marker();
    var todo := roots;
    ghost var u := Universe(lock, roots);
    while todo != {}
      invariant todo <= roots && roots - todo <= m.reachable
      invariant Closed(lock, m.reachable)
      invariant forall a | a in m.reachable :: ReachableFrom(lock, roots, a)
    {
      var name :| name in todo;
      m.Mark(lock, name, u);
      todo := todo - {name};
    }
    reachable := m.reachable;
    forall n | ReachableFrom(lock, roots, n) ensures n in reachable {
      var a :| a in roots && Reaches(lock, a, n);
      var p :| PathFrom(lock, a, p, n);
      ClosedContainsPath(lock, reachable, p);
    }
  }

  // ----------------------------------------------------------------- sweep

  datatype Change = Change(name: string, before: string, after: string, tag: string, direct: bool)

  function SweptChange(e: Entry): Change {
    Change(e.name, e.version, "", e.tag, e.direct)
  }

  function SweptChanges(lock: seq<Entry>, keep: set<string>): seq<Change> {
    if lock == [] then []
    else
      var e := lock[|lock| - 1];
      SweptChanges(lock[..|lock| - 1], keep) + if e.name in keep then [] else [SweptChange(e)]
  }

  lemma ChangesNext(lock: seq<Entry>, keep: set<string>, i: nat)
    requires i < |lock|
    ensures SweptChanges(lock[..i + 1], keep) ==
            SweptChanges(lock[..i], keep) + if lock[i].name in keep then [] else [SweptChange(lock[i])]
  {
    assert lock[..i + 1][..i] == lock[..i];
  }

  method SweepUnreachable(disk: Disk, lock: Lockfile, keep: set<string>)
    returns (ok: bool, changes: seq<Change>, ghost done: seq<Step>)
    modifies disk, lock
    ensures Performed(old(disk.Snapshot()), old(disk.effects), SweepSteps(old(lock.packages), keep),
                      done, ok, disk.Snapshot(), disk.effects)
    ensures ok ==> lock.packages == Swept(old(lock.packages), keep) && changes == SweptChanges(old(lock.packages), keep)
  {
    var entries := lock.packages;
    ghost var w, budget := disk.Snapshot(), disk.effects;
    changes := [];
    done := [];
    NothingSwept(w, entries, keep);
    for i := 0 to |entries|
      invariant SweptTo(w, entries, keep, i, done, disk.Snapshot(), lock.packages) && budget == disk.effects + |done|
      invariant changes == SweptChanges(entries[..i], keep)
    {
      ChangesNext(entries, keep, i);
      ghost var now := disk.Snapshot();
      if entries[i].name in keep {
        SweptKept(w, entries, keep, i, done, now, lock.packages);
      } else {
        ok := disk.RemovePackage(entries[i].name);
        if !ok {
          SweepFailed(w, entries, keep, i, done, now, lock.packages, disk.Snapshot(), budget, disk.effects);
          return;
        }
        SweptDropped(w, entries, keep, i, done, now, lock.packages);
        done := done + [DropPackage(entries[i].name)];
        var _ := lock.Remove(entries[i].name);
        changes := changes + [SweptChange(entries[i])];
      }
    }
    AllSwept(w, entries, keep, done, disk.Snapshot(), lock.packages);
    assert entries[..|entries|] == entries;
    ok := true;
  }

  // ---------------------------------------------------------------- demote

  function DemoteAll(ps: seq<Entry>, names: seq<string>): seq<Entry> {
    if names == [] then ps else Demoted(DemoteAll(ps, names[..|names| - 1]), names[|names| - 1])
  }

  function DemotedChanges(ps: seq<Entry>, names: seq<string>): seq<Change> {
    if names == [] then []
    else
      var n := names[|names| - 1];
      var e := Get(ps, n);
      DemotedChanges(ps, names[..|names| - 1])
      + if e.Some? then [Change(n, e.value.version, e.value.version, e.value.tag, false)] else []
  }

  /** Demoting clears the flag of the first entry of each name and nothing else. */
  lemma {:induction false} DemoteAllAt(ps: seq<Entry>, names: seq<string>)
    ensures |DemoteAll(ps, names)| == |ps|
    ensures forall i | 0 <= i < |ps| :: DemoteAll(ps, names)[i] ==
              if ps[i].name in names && Find(ps, ps[i].name) == i then ps[i].(direct := false) else ps[i]
  {
    if names == [] {
    } else {
      var init, last := names[..|names| - 1], names[|names| - 1];
      DemoteAllAt(ps, init);
      assert names == init + [last];
      var a, b := DemoteAll(ps, init), DemoteAll(ps, names);
      assert forall i | 0 <= i < |ps| :: a[i].name == ps[i].name;
      SameNamesSameFind(a, ps, last);
    }
  }

  lemma DemoteAllFind(ps: seq<Entry>, names: seq<string>, n: string)
    ensures Find(DemoteAll(ps, names), n) == Find(ps, n)
  {
    DemoteAllAt(ps, names);
    SameNamesSameFind(DemoteAll(ps, names), ps, n);
  }

  lemma SameNamesSameFind(a: seq<Entry>, b: seq<Entry>, n: string)
    requires |a| == |b| && forall i | 0 <= i < |a| :: a[i].name == b[i].name
    ensures Find(a, n) == Find(b, n)
  {
    var i, j := Find(a, n), Find(b, n);
    assert i < |a| ==> b[i].name == n;
    assert j < |b| ==> a[j].name == n;
  }

  method DemoteSurvivors(lock: Lockfile, names: seq<string>) returns (changes: seq<Change>)
    modifies lock
    ensures lock.packages == DemoteAll(old(lock.packages), names)
    ensures changes == DemotedChanges(old(lock.packages), names)
  {
    ghost var ps := lock.packages;
    changes := [];
    for i := 0 to |names|
      invariant lock.packages == DemoteAll(ps, names[..i])
      invariant changes == DemotedChanges(ps, names[..i])
    {
      assert names[..i + 1][..i] == names[..i];
      DemoteAllAt(ps, names[..i]);
      DemoteAllFind(ps, names[..i], names[i]);
      var e := Get(lock.packages, names[i]);
      if e.Some? {
        lock.ClearDirect(names[i]);
        changes := changes + [Change(names[i], e.value.version, e.value.version, e.value.tag, false)];
      }
    }
    assert names[..|names|] == names;
  }

  // ------------------------------------------------------------ the command

  /** "@scope/base[@ref]" as (name, ref). */
  function ParseSpec(isPin: string -> bool, s: string): Option<(string, string)> {
    var i := if |s| > 1 && s[0] == '@' then IndexOf(s[1..], '@') else |s|;
    var split := |s| > 1 && s[0] == '@' && i < |s| - 1;
    var name := if split then s[..i + 1] else s;
    var ref := if split then s[i + 2..] else "";
    if split && ref == "" then None
    else if !ValidName(name) then None
    else if ref != "" && !isPin(ref) && !IsToken(ref) then None
    else Some((name, ref))
  }

  /** An argument names a declared package without a version. */
  predicate Removable(isPin: string -> bool, deps: map<string, string>, arg: string) {
    var spec := ParseSpec(isPin, arg);
    spec.Some? && spec.value.1 == "" && spec.value.0 in deps
  }

  function SpecNames(isPin: string -> bool, args: seq<string>): (r: seq<string>)
    requires forall i | 0 <= i < |args| :: ParseSpec(isPin, args[i]).Some?
    ensures |r| == |args|
    ensures forall i | 0 <= i < |r| :: r[i] == ParseSpec(isPin, args[i]).value.0
  {
    seq(|args|, i requires 0 <= i < |args| => ParseSpec(isPin, args[i]).value.0)
  }

  /** A spec is a valid name, or a valid name, "@" and a version or tag; and it is read in one way. */
  lemma ParsedSpecExactly(isPin: string -> bool, s: string, name: string, ref: string)
    ensures ParseSpec(isPin, s) == Some((name, ref)) <==>
              ValidName(name) && if ref == "" then s == name else s == name + "@" + ref && (isPin(ref) || IsToken(ref))
  {
    if ValidName(name) {
      OneAt(name);
      if s == name + "@" + ref {
        assert s[1..] == name[1..] + "@" + ref;
        AtEnds(name[1..], ref);
        assert s[..|name|] == name && s[|name| + 1..] == ref;
      }
    }
    if ParseSpec(isPin, s) == Some((name, ref)) && ref != "" {
      assert s == s[..|name|] + [s[|name|]] + s[|name| + 1..];
    }
  }

  /** A valid name begins with "@" and has no other. */
  lemma OneAt(name: string)
    requires ValidName(name)
    ensures |name| > 1 && name[0] == '@' && '@' !in name[1..] && IndexOf(name[1..], '@') == |name| - 1
  {
    var (scope, base) := ParseName(name).value;
    ParsedExactly(name, scope, base);
    ParsedExactly(name, base, base);
    assert name[1..] == scope + "/" + base;
  }

  lemma AtEnds(rest: string, ref: string)
    requires '@' !in rest
    ensures IndexOf(rest + "@" + ref, '@') == |rest|
  {
    var s := rest + "@" + ref;
    assert forall j | 0 <= j < |rest| :: s[j] == rest[j];
    assert s[|rest|] == '@';
  }

  /** So an argument is accepted exactly if it is the valid name of a declared package, and is that name. */
  lemma RemovableExactly(isPin: string -> bool, deps: map<string, string>, arg: string)
    ensures Removable(isPin, deps, arg) <==> arg in deps && ValidName(arg)
    ensures Removable(isPin, deps, arg) ==> ParseSpec(isPin, arg) == Some((arg, ""))
  {
    ParsedSpecExactly(isPin, arg, arg, "");
    if Removable(isPin, deps, arg) {
      ParsedSpecExactly(isPin, arg, ParseSpec(isPin, arg).value.0, "");
    }
  }

  lemma AcceptedNames(isPin: string -> bool, deps: map<string, string>, args: seq<string>)
    requires forall i | 0 <= i < |args| :: Removable(isPin, deps, args[i])
    ensures forall i | 0 <= i < |args| :: ParseSpec(isPin, args[i]).Some?
    ensures SpecNames(isPin, args) == args
  {
    forall i | 0 <= i < |args| ensures ParseSpec(isPin, args[i]) == Some((args[i], "")) {
      RemovableExactly(isPin, deps, args[i]);
    }
  }

  /** bino.toml: its text, and what a TOML parser reads in it. */
  class Config {
    const toml: Toml
    var text: string

    ghost predicate Valid()
      reads this
    {
      toml(text).Some?
    }

    constructor (toml: Toml, text: string)
      requires toml(text).Some?
      ensures this.toml == toml && this.text == text && Valid()
    {
      this.toml, this.text := toml, text;
    }

    function Dependencies(): map<string, string>
      reads this
      requires Valid()
    {
      toml(text).value
    }

    /** Rewrites the file without the line of the name. A text without such a line is left as it is, and that is no
        failure even if it declares the name. */
    method RemoveDependency(disk: Disk, name: string) returns (ok: bool)
      requires Valid()
      modifies this`text, disk`effects
      ensures Valid()
      ensures ok <==> !Finds(old(text), name) || (Accepts(toml, old(text), name) && old(disk.effects) > 0)
      ensures text == if ok then WithoutKey(old(text), name) else old(text)
      ensures disk.effects == if ok && Finds(old(text), name) then old(disk.effects) - 1 else old(disk.effects)
    {
      EditChangesIff(text, name);
      var next := WithoutKey(text, name);
      if next == text { return true; }
      var parsed := toml(next);
      if parsed.None? || name in parsed.value { return false; }
      ok := disk.Effect();
      if ok { text := next; }
    }
  }

  datatype RemoveResult = Removed(changes: seq<Change>) | Rejected(arg: string) | Failed

  /** keep is what the remaining declarations reach over the recorded edges. */
  ghost predicate IsKeepSet(lock: seq<Entry>, roots: set<string>, keep: set<string>) {
    && (forall n :: n in keep <==> ReachableFrom(lock, roots, n))
    && roots <= keep && Closed(lock, keep)
  }

  /** The lock and the store after the lock is saved. */
  ghost predicate LockRemoved(w: World, removed: seq<string>, keep: set<string>, w': World) {
    && w'.lock == Saved(DemoteAll(Swept(w.lock, keep), removed))
    && w'.files == Run(w, SweepSteps(w.lock, keep)).files
  }

  /** The lock, the report and the store after a removal. */
  ghost predicate RemovedFrom(w: World, deps: map<string, string>, removed: seq<string>, keep: set<string>,
                              changes: seq<Change>, w': World) {
    && IsKeepSet(w.lock, deps.Keys - Set(removed), keep)
    && LockRemoved(w, removed, keep, w')
    && changes == SweptChanges(w.lock, keep) + DemotedChanges(Swept(w.lock, keep), removed)
  }

  /** The sweep and the lock have effects enough, and the store takes the names that are swept. */
  predicate LockCompletes(lock: seq<Entry>, keep: set<string>, budget: nat) {
    Completes(SweepSteps(lock, keep), budget) && |SweepSteps(lock, keep)| < budget
  }

  /** Every edit is accepted, and the effects cover the writes. */
  predicate DropsAll(toml: Toml, text: string, removed: seq<string>, budget: nat) {
    Writes(text, removed) <= budget && AllAccepted(toml, text, removed)
  }

  /** Whether a removal ends without a failure is known before it starts. */
  predicate RemoveCompletes(lock: seq<Entry>, toml: Toml, text: string, removed: seq<string>, keep: set<string>,
                            budget: nat) {
    LockCompletes(lock, keep, budget) && DropsAll(toml, text, removed, budget - |SweepSteps(lock, keep)| - 1)
  }

  /** What a removal that fails leaves. Before the lock is saved, lock and bino.toml are as they were and only files of
      packages to sweep are gone. After it, the lines of bino.toml go one by one. */
  ghost predicate RemovedInPart(w: World, toml: Toml, text: string, removed: seq<string>, keep: set<string>,
                                budget: nat, w': World, text': string)
    requires toml(text).Some?
  {
    && IsKeepSet(w.lock, toml(text).value.Keys - Set(removed), keep)
    && if !LockCompletes(w.lock, keep, budget)
       then w'.lock == w.lock && text' == text && SweptInPart(w, keep, w')
       else
         && LockRemoved(w, removed, keep, w')
         && DroppedInPart(toml, text, removed, budget - |SweepSteps(w.lock, keep)| - 1, text')
  }

  ghost predicate SweptInPart(w: World, keep: set<string>, w': World) {
    forall id: FileId :: Lookup(w'.files, id) == Lookup(w.files, id)
                         || (Lookup(w'.files, id) == None && id.0 in Names(w.lock) && id.0 !in keep)
  }

  /** The edit at k finds its line, and is not accepted or has no effect left. */
  predicate FailsAt(toml: Toml, text: string, removed: seq<string>, budget: nat, k: nat)
    requires k < |removed|
  {
    var now := TextAfter(text, removed[..k]);
    Finds(now, removed[k]) && (Writes(text, removed[..k]) == budget || !Accepts(toml, now, removed[k]))
  }

  /** The edits before the first one that fails are done. */
  ghost predicate DroppedInPart(toml: Toml, text: string, removed: seq<string>, budget: nat, text': string) {
    exists k | 0 <= k < |removed| :: FailsAt(toml, text, removed, budget, k) && text' == TextAfter(text, removed[..k])
  }

  function Set(names: seq<string>): set<string> {
    set n | n in names
  }

  /** All arguments are checked before anything changes. */
  method CheckArgs(isPin: string -> bool, deps: map<string, string>, args: seq<string>) returns (bad: Option<string>)
    ensures bad.None? <==> forall arg | arg in args :: arg in deps && ValidName(arg)
    ensures bad.Some? ==> bad.value in args && !(bad.value in deps && ValidName(bad.value))
  {
    for i := 0 to |args|
      invariant forall j | 0 <= j < i :: args[j] in deps && ValidName(args[j])
    {
      RemovableExactly(isPin, deps, args[i]);
      if !Removable(isPin, deps, args[i]) { return Some(args[i]); }
    }
    bad := None;
  }

  method DropDeclarations(disk: Disk, cfg: Config, names: seq<string>) returns (ok: bool)
    requires cfg.Valid()
    modifies cfg`text, disk`effects
    ensures cfg.Valid()
    ensures ok <==> DropsAll(cfg.toml, old(cfg.text), names, old(disk.effects))
    ensures ok ==> cfg.text == TextAfter(old(cfg.text), names)
    ensures !ok ==> DroppedInPart(cfg.toml, old(cfg.text), names, old(disk.effects), cfg.text)
  {
    ghost var text, budget := cfg.text, disk.effects;
    for i := 0 to |names|
      invariant cfg.Valid() && cfg.text == TextAfter(text, names[..i])
      invariant budget == disk.effects + Writes(text, names[..i])
      invariant AllAccepted(cfg.toml, text, names[..i])
    {
      NextEdit(cfg.toml, text, names, i);
      ok := cfg.RemoveDependency(disk, names[i]);
      if !ok {
        assert FailsAt(cfg.toml, text, names, budget, i);
        return;
      }
    }
    assert names[..|names|] == names;
    ok := true;
  }

  method Remove(disk: Disk, cfg: Config, isPin: string -> bool, args: seq<string>)
    returns (res: RemoveResult, ghost removed: seq<string>, ghost keep: set<string>)
    requires cfg.Valid()
    modifies disk, cfg`text
    ensures cfg.Valid()
    ensures res.Rejected? <==> exists arg :: arg in args && !(arg in old(cfg.Dependencies()) && ValidName(arg))
    ensures res.Rejected? ==> res.arg in args && !(res.arg in old(cfg.Dependencies()) && ValidName(res.arg))
    ensures res.Rejected? ==> disk.Snapshot() == old(disk.Snapshot()) && cfg.text == old(cfg.text)
    ensures !res.Rejected? ==> removed == args
    ensures !res.Rejected? ==>
              (res.Removed? <==>
               RemoveCompletes(old(disk.lock), cfg.toml, old(cfg.text), removed, keep, old(disk.effects)))
    ensures res.Removed? ==> RemovedFrom(old(disk.Snapshot()), old(cfg.Dependencies()), removed, keep, res.changes,
                                         disk.Snapshot())
    ensures res.Removed? ==> cfg.text == TextAfter(old(cfg.text), removed)
    ensures res.Failed? ==> RemovedInPart(old(disk.Snapshot()), cfg.toml, old(cfg.text), removed, keep,
                                          old(disk.effects), disk.Snapshot(), cfg.text)
  {
    removed, keep := [], {};
    var deps := cfg.Dependencies();
    var bad := CheckArgs(isPin, deps, args);
    if bad.Some? { return Rejected(bad.value), [], {}; }
    forall i | 0 <= i < |args| ensures Removable(isPin, deps, args[i]) {
      RemovableExactly(isPin, deps, args[i]);
    }
    AcceptedNames(isPin, deps, args);
    var names := SpecNames(isPin, args);
    removed := names;
    var ok, changes;
    ok, changes, keep := RemoveNames(disk, cfg, names);
    res := if ok then Removed(changes) else Failed;
  }

  method RemoveNames(disk: Disk, cfg: Config, names: seq<string>)
    returns (ok: bool, changes: seq<Change>, ghost keep: set<string>)
    requires cfg.Valid()
    modifies disk, cfg`text
    ensures cfg.Valid()
    ensures ok <==> RemoveCompletes(old(disk.lock), cfg.toml, old(cfg.text), names, keep, old(disk.effects))
    ensures ok ==> RemovedFrom(old(disk.Snapshot()), old(cfg.Dependencies()), names, keep, changes, disk.Snapshot())
    ensures ok ==> cfg.text == TextAfter(old(cfg.text), names)
    ensures !ok ==> RemovedInPart(old(disk.Snapshot()), cfg.toml, old(cfg.text), names, keep, old(disk.effects),
                                  disk.Snapshot(), cfg.text)
  {
    var reachable := MarkAll(disk.lock, cfg.Dependencies().Keys - Set(names));
    keep := reachable;
    ok, changes := RemoveFromLock(disk, names, reachable);
    if !ok { return; }
    ok := DropDeclarations(disk, cfg, names);
  }

  /** Sweep, demote, and save the lock. */
  method RemoveFromLock(disk: Disk, names: seq<string>, keep: set<string>) returns (ok: bool, changes: seq<Change>)
    modifies disk
    ensures ok <==> LockCompletes(old(disk.lock), keep, old(disk.effects))
    ensures ok ==> LockRemoved(old(disk.Snapshot()), names, keep, disk.Snapshot())
    ensures ok ==> changes == SweptChanges(old(disk.lock), keep) + DemotedChanges(Swept(old(disk.lock), keep), names)
    ensures ok ==> old(disk.effects) == disk.effects + |SweepSteps(old(disk.lock), keep)| + 1
    ensures !ok ==> disk.lock == old(disk.lock) && SweptInPart(old(disk.Snapshot()), keep, disk.Snapshot())
  {
    ghost var w, budget := disk.Snapshot(), disk.effects;
    var lock := new Lockfile(disk.lock);
    ghost var done;
    ok, changes, done := SweepUnreachable(disk, lock, keep);
    PerformedWhen(w, budget, SweepSteps(w.lock, keep), done, ok, disk.Snapshot(), disk.effects);
    SweepLeaves(w, budget, keep, done, ok, disk.Snapshot(), disk.effects);
    if !ok { return; }
    var demoted := DemoteSurvivors(lock, names);
    changes := changes + demoted;
    ok := disk.SaveLockfile(lock.packages);
  }

  /** A sweep touches files of swept packages only, and not the lock. */
  lemma SweepLeaves(w: World, budget: nat, keep: set<string>, done: seq<Step>, ok: bool, w': World, effects: nat)
    requires Performed(w, budget, SweepSteps(w.lock, keep), done, ok, w', effects)
    ensures w'.lock == w.lock && SweptInPart(w, keep, w')
  {
    var steps := SweepSteps(w.lock, keep);
    SweepMembers(w.lock, keep);
    assert forall s | s in done :: s in steps;
    LockKept(w, done);
    forall id: FileId
      ensures Lookup(w'.files, id) == Lookup(w.files, id)
              || (Lookup(w'.files, id) == None && id.0 in Names(w.lock) && id.0 !in keep)
    {
      SettledRun(w, done, id, None);
      if !ok {
        assert steps[|done|] in steps;
      }
    }
  }
}
