/** bino.lock in memory: a list of entries looked up by name, and the order it is saved in. */
module Lockfiles {
  import opened Text
  import opened Packages
  import Sorting

  /** The index of the first entry for name, or the length. */
  function Find(ps: seq<Entry>, name: string): (i: nat)
    ensures i <= |ps| && (i < |ps| ==> ps[i].name == name)
    ensures forall j | 0 <= j < i :: ps[j].name != name
  {
    if ps == [] || ps[0].name == name then 0 else 1 + Find(ps[1..], name)
  }

  function Get(ps: seq<Entry>, name: string): (r: Option<Entry>)
    ensures r.Some? <==> name in Names(ps)
    ensures r.Some? ==> r.value in ps && r.value.name == name
  {
    var i := Find(ps, name);
    if i < |ps| then Some(ps[i]) else None
  }

  function Upserted(ps: seq<Entry>, e: Entry): seq<Entry> {
    var i := Find(ps, e.name);
    if i < |ps| then ps[i := e] else ps + [e]
  }

  function Without(ps: seq<Entry>, name: string): seq<Entry> {
    var i := Find(ps, name);
    if i < |ps| then ps[..i] + ps[i + 1..] else ps
  }

  function Names(ps: seq<Entry>): set<string> {
    set e | e in ps :: e.name
  }

  ghost predicate DistinctNames(ps: seq<Entry>) {
    forall i, j | 0 <= i < j < |ps| :: ps[i].name != ps[j].name
  }

  class Lockfile {
    var packages: seq<Entry>

    constructor (ps: seq<Entry>)
      ensures packages == ps
    {
      packages := ps;
    }

    method Upsert(e: Entry)
      modifies this
      ensures packages == Upserted(old(packages), e)
      ensures DistinctNames(old(packages)) ==> DistinctNames(packages)
    {
      var i := Find(packages, e.name);
      if i < |packages| {
        packages := packages[i := e];
      } else {
        packages := packages + [e];
      }
    }

    method Remove(name: string) returns (existed: bool)
      modifies this
      ensures packages == Without(old(packages), name)
      ensures existed <==> name in Names(old(packages))
      ensures DistinctNames(old(packages)) ==> DistinctNames(packages)
    {
      var i := Find(packages, name);
      existed := i < |packages|;
      if existed {
        packages := packages[..i] + packages[i + 1..];
      }
    }

    /** The write through the pointer Get returns: the first entry for name stops being direct. */
    method ClearDirect(name: string)
      modifies this
      ensures packages == Demoted(old(packages), name)
    {
      var i := Find(packages, name);
      if i < |packages| {
        packages := packages[i := packages[i].(direct := false)];
      }
    }
  }

  function Demoted(ps: seq<Entry>, name: string): seq<Entry> {
    var i := Find(ps, name);
    if i < |ps| then ps[i := ps[i].(direct := false)] else ps
  }

  // ---------------------------------------------------------------- saving

  function NameKey(e: Entry): string { e.name }

  function PathKey(f: FileEntry): string { f.path }

  function ResourceKey(r: ResourceEntry): string { r.name }

  function TextKey(s: string): string { s }

  /** An entry with its lists in the order SaveLockfile writes them. */
  function Normalize(e: Entry): Entry {
    e.(dependencies := Sorting.SortBy(TextKey, e.dependencies),
       files := Sorting.SortBy(PathKey, e.files),
       resources := Sorting.SortBy(ResourceKey, e.resources))
  }

  function NormalizeAll(ps: seq<Entry>): (r: seq<Entry>)
    ensures |r| == |ps|
    ensures forall i | 0 <= i < |r| :: r[i] == Normalize(ps[i])
  {
    seq(|ps|, i requires 0 <= i < |ps| => Normalize(ps[i]))
  }

  /** What SaveLockfile writes. */
  function Saved(ps: seq<Entry>): seq<Entry> {
    Sorting.SortBy(NameKey, NormalizeAll(ps))
  }

  /** Saving reorders an entry's file list and changes nothing else about it. */
  lemma NormalizeKeepsFiles(e: Entry)
    ensures forall f :: f in Normalize(e).TreeFiles() <==> f in e.TreeFiles()
    ensures Normalize(e).Paths() == e.Paths()
    ensures Normalize(e).TreeFiles() == [] <==> e.TreeFiles() == []
  {
    Sorting.SortByCorrect(PathKey, e.files);
    Sorting.SortByCorrect(ResourceKey, e.resources);
    var n := Normalize(e);
    n.ResourceFilesMembers();
    e.ResourceFilesMembers();
    assert |n.TreeFiles()| == |e.TreeFiles()|;
  }

  lemma NormalizeAllElements(ps: seq<Entry>)
    ensures forall x :: x in NormalizeAll(ps) <==> exists e :: e in ps && x == Normalize(e)
    ensures Names(NormalizeAll(ps)) == Names(ps)
  {
    forall x ensures x in NormalizeAll(ps) <==> exists e :: e in ps && x == Normalize(e) {
      if e :| e in ps && x == Normalize(e) {
        var i :| 0 <= i < |ps| && ps[i] == e;
        assert NormalizeAll(ps)[i] == x;
      }
      if x in NormalizeAll(ps) {
        var i :| 0 <= i < |ps| && NormalizeAll(ps)[i] == x;
        assert ps[i] in ps && x == Normalize(ps[i]);
      }
    }
    forall n ensures n in Names(NormalizeAll(ps)) <==> n in Names(ps) {
      if n in Names(ps) {
        var e :| e in ps && e.name == n;
        assert Normalize(e) in NormalizeAll(ps) && Normalize(e).name == n;
      }
    }
  }

  /** The saved lock holds exactly the given entries, normalized. */
  lemma SavedElements(ps: seq<Entry>)
    ensures forall x :: x in Saved(ps) <==> exists e :: e in ps && x == Normalize(e)
    ensures Names(Saved(ps)) == Names(ps)
  {
    NormalizeAllElements(ps);
    Sorting.SortByCorrect(NameKey, NormalizeAll(ps));
  }

  /** The order in which entries entered the lock does not show in the saved file. */
  lemma SavedIgnoresOrder(a: seq<Entry>, b: seq<Entry>)
    requires DistinctNames(a) && DistinctNames(b)
    requires forall e :: e in a <==> e in b
    ensures Saved(a) == Saved(b)
  {
    NormalizeAllElements(a);
    NormalizeAllElements(b);
    forall ps | ps == a || ps == b
      ensures Sorting.SortedBy(NameKey, Saved(ps)) && Sorting.DistinctKeys(NameKey, Saved(ps))
      ensures forall x :: x in Saved(ps) <==> x in NormalizeAll(ps)
    {
      Sorting.SortByCorrect(NameKey, NormalizeAll(ps));
      Sorting.DistinctKeysOfPermutation(NameKey, NormalizeAll(ps), Saved(ps));
    }
    Sorting.SortedIsUnique(NameKey, Saved(a), Saved(b));
  }
}
