/** The serve render cache: a map into a recency list, least recently used entry evicted first. */
module RenderCache {
  import opened Text
  import opened Sequences

  const MAX_ENTRIES: nat := 100

  /** A dataset or datasource body that a page fetches by kind, name and hash. */
  datatype Emitted = Emitted(kind: string, name: string, hash: string, body: string)

  datatype Page = Page(frame: string, context: string, emitted: seq<Emitted>)

  // --------------------------------------------------- the recency list as a value

  /** Keys with their pages, least recently used first. */
  type Recency = seq<(string, Page)>

  function Find(c: Recency, key: string): (i: nat)
    ensures i <= |c| && (i < |c| ==> c[i].0 == key)
    ensures forall j | 0 <= j < i :: c[j].0 != key
  {
    if c == [] || c[0].0 == key then 0 else 1 + Find(c[1..], key)
  }

  function Hit(c: Recency, key: string): Option<Page> {
    var i := Find(c, key);
    if i < |c| then Some(c[i].1) else None
  }

  function DropAt(c: Recency, i: nat): Recency
    requires i < |c|
  {
    c[..i] + c[i + 1..]
  }

  function AfterGet(c: Recency, key: string): Recency {
    var i := Find(c, key);
    if i < |c| then DropAt(c, i) + [c[i]] else c
  }

  function Trim(c: Recency): Recency {
    if |c| > MAX_ENTRIES then c[|c| - MAX_ENTRIES..] else c
  }

  function AfterSet(c: Recency, key: string, page: Page): Recency {
    var i := Find(c, key);
    if i < |c| then DropAt(c, i) + [(key, page)] else Trim(c + [(key, page)])
  }

  lemma FoundAt(c: Recency, i: nat)
    requires DistinctKeys(c) && i < |c|
    ensures Find(c, c[i].0) == i
  {
  }

  ghost predicate DistinctKeys(c: Recency) {
    forall i, j | 0 <= i < j < |c| :: c[i].0 != c[j].0
  }

  /** page emits this payload with this body; the first one of that identity counts. */
  predicate Emits(page: Page, kind: string, name: string, hash: string, body: string) {
    exists i | 0 <= i < |page.emitted| ::
      page.emitted[i] == Emitted(kind, name, hash, body)
      && forall j | 0 <= j < i ::
           !(page.emitted[j].kind == kind && page.emitted[j].name == name && page.emitted[j].hash == hash)
  }

  ghost predicate EmitsSome(page: Page, kind: string, name: string, hash: string) {
    exists e :: e in page.emitted && e.kind == kind && e.name == name && e.hash == hash
  }

  // ------------------------------------------------------------------ the class

  class Item {
    const key: string
    var entry: Page

    constructor (key: string, entry: Page)
      ensures this.key == key && this.entry == entry
    {
      this.key := key;
      this.entry := entry;
    }
  }

  /** Map and list agree one to one. Keys never change, so this reads no heap. */
  ghost predicate Linked(cache: map<string, Item>, lru: seq<Item>) {
    && (forall i | 0 <= i < |lru| :: lru[i].key in cache && cache[lru[i].key] == lru[i])
    && (forall k | k in cache :: HasKey(lru, k))
    && (forall i, j | 0 <= i < j < |lru| :: lru[i].key != lru[j].key)
  }

  ghost predicate HasKey(lru: seq<Item>, k: string) {
    exists i | 0 <= i < |lru| :: lru[i].key == k
  }

  ghost function ToBack(lru: seq<Item>, i: nat): seq<Item>
    requires i < |lru|
  {
    lru[..i] + lru[i + 1..] + [lru[i]]
  }

  ghost function ContentsOf(lru: seq<Item>): (c: Recency)
    reads lru
    ensures |c| == |lru|
    ensures forall i | 0 <= i < |c| :: c[i] == (lru[i].key, lru[i].entry)
  {
    seq(|lru|, i requires 0 <= i < |lru| reads lru => (lru[i].key, lru[i].entry))
  }

  lemma MovedContents(lru: seq<Item>, i: nat)
    requires i < |lru|
    ensures ContentsOf(ToBack(lru, i)) == DropAt(ContentsOf(lru), i) + [ContentsOf(lru)[i]]
  {
  }

  lemma ToBackAt(lru: seq<Item>, i: nat)
    requires i < |lru|
    ensures |ToBack(lru, i)| == |lru|
    ensures forall j | 0 <= j < |lru| ::
              ToBack(lru, i)[j] == if j < i then lru[j] else if j < |lru| - 1 then lru[j + 1] else lru[i]
  {
  }

  lemma MovedStaysLinked(cache: map<string, Item>, lru: seq<Item>, i: nat)
    requires Linked(cache, lru) && i < |lru|
    ensures Linked(cache, ToBack(lru, i))
  {
    MovedStaysDistinct(lru, i);
    assert forall j | 0 <= j < |lru| :: ToBack(lru, i)[j] in lru;
    forall k | k in cache ensures HasKey(ToBack(lru, i), k) {
      assert HasKey(lru, k);
      StaysResident(lru, i, k);
    }
  }

  lemma MovedStaysDistinct(lru: seq<Item>, i: nat)
    requires i < |lru| && forall j, k | 0 <= j < k < |lru| :: lru[j].key != lru[k].key
    ensures forall j, k | 0 <= j < k < |lru| :: ToBack(lru, i)[j].key != ToBack(lru, i)[k].key
  {
    ToBackAt(lru, i);
  }

  lemma StaysResident(lru: seq<Item>, i: nat, k: string)
    requires i < |lru| && HasKey(lru, k)
    ensures HasKey(ToBack(lru, i), k)
  {
    ToBackAt(lru, i);
    var j :| 0 <= j < |lru| && lru[j].key == k;
    var at := if j < i then j else if j == i then |lru| - 1 else j - 1;
    assert ToBack(lru, i)[at] == lru[j];
  }

  lemma AddedStaysLinked(cache: map<string, Item>, lru: seq<Item>, item: Item)
    requires Linked(cache, lru) && item.key !in cache
    ensures Linked(cache[item.key := item], lru + [item])
  {
    forall k | k in cache[item.key := item] ensures HasKey(lru + [item], k) {
      if k == item.key {
        assert (lru + [item])[|lru|].key == k;
      } else {
        assert HasKey(lru, k);
        var j :| 0 <= j < |lru| && lru[j].key == k;
        assert (lru + [item])[j].key == k;
      }
    }
  }

  lemma EvictedStaysLinked(cache: map<string, Item>, lru: seq<Item>)
    requires Linked(cache, lru) && lru != []
    ensures Linked(cache - {lru[0].key}, lru[1..])
  {
    forall k | k in cache - {lru[0].key} ensures HasKey(lru[1..], k) {
      assert HasKey(lru, k);
      var j :| 0 <= j < |lru| && lru[j].key == k;
      assert lru[1..][j - 1].key == k;
    }
  }

  lemma ResidentIffMapped(cache: map<string, Item>, lru: seq<Item>, key: string)
    requires Linked(cache, lru)
    ensures key in cache <==> HasKey(lru, key)
    ensures key in cache ==> cache[key] in lru && cache[key].key == key
  {
    if key in cache {
      var i :| 0 <= i < |lru| && lru[i].key == key;
    }
  }

  class Cache {
    var cache: map<string, Item>
    var lru: seq<Item>
    ghost var Repr: set<object>

    ghost predicate Valid()
      reads this, Repr
      ensures Valid() ==> this in Repr
    {
      && this in Repr
      && (forall item | item in lru :: item in Repr)
      && Linked(cache, lru)
      && |lru| <= MAX_ENTRIES
    }

    ghost function Contents(): (c: Recency)
      reads this, lru
    {
      ContentsOf(lru)
    }

    constructor ()
      ensures Valid() && fresh(Repr) && Contents() == []
    {
      cache := map[];
      lru := [];
      Repr := {this};
    }

    /** A hit becomes the most recently used entry; a miss changes nothing. */
    method Get(key: string) returns (r: Option<Page>)
      requires Valid()
      modifies Repr
      ensures Valid() && fresh(Repr - old(Repr))
      ensures r == Hit(old(Contents()), key)
      ensures Contents() == AfterGet(old(Contents()), key)
    {
      ResidentIffMapped(cache, lru, key);
      ghost var c := Contents();
      if key !in cache {
        assert forall i | 0 <= i < |lru| :: c[i].0 == lru[i].key;
        return None;
      }
      var elem := cache[key];
      r := Some(elem.entry);
      ghost var at := MoveToBack(elem);
    }

    method MoveToBack(elem: Item) returns (ghost at: nat)
      requires Valid() && elem in lru
      modifies this`lru
      ensures Valid() && at < |old(lru)| && lru == ToBack(old(lru), at) && old(lru)[at] == elem
      ensures Find(old(Contents()), elem.key) == at
      ensures Contents() == AfterGet(old(Contents()), elem.key)
    {
      ghost var c := Contents();
      var i :| 0 <= i < |lru| && lru[i] == elem;
      at := i;
      FoundAt(c, i);
      MoveIndex(i);
    }

    method MoveIndex(i: nat)
      requires Valid() && i < |lru|
      modifies this`lru
      ensures Valid() && lru == ToBack(old(lru), i)
      ensures Contents() == DropAt(old(Contents()), i) + [old(Contents())[i]]
    {
      MovedStaysLinked(cache, lru, i);
      MovedContents(lru, i);
      lru := lru[..i] + lru[i + 1..] + [lru[i]];
    }

    /** Replaces the page of a resident key, or adds the key and evicts from the front. */
    method Set(key: string, entry: Page)
      requires Valid()
      modifies Repr
      ensures Valid() && fresh(Repr - old(Repr))
      ensures Contents() == AfterSet(old(Contents()), key, entry)
    {
      ResidentIffMapped(cache, lru, key);
      if key in cache {
        Replace(cache[key], entry);
      } else {
        Add(key, entry);
      }
    }

    method Replace(elem: Item, entry: Page)
      requires Valid() && elem in lru
      modifies Repr
      ensures Valid() && Repr == old(Repr)
      ensures Contents() == AfterSet(old(Contents()), elem.key, entry)
    {
      ghost var c := Contents();
      ghost var i := MoveToBack(elem);
      InitOfAppended(DropAt(c, i), c[i]);
      ReplaceLast(elem, entry);
    }

    method ReplaceLast(elem: Item, entry: Page)
      requires Valid() && lru != [] && lru[|lru| - 1] == elem
      modifies elem`entry
      ensures Valid()
      ensures Contents() == old(Contents())[..|lru| - 1] + [(elem.key, entry)]
    {
      ghost var c, n := Contents(), |lru| - 1;
      elem.entry := entry;
      assert forall j | 0 <= j < n :: lru[j].key != lru[n].key;
      assert forall j | 0 <= j < n :: Contents()[j] == c[j];
    }

    method Add(key: string, entry: Page)
      requires Valid() && !HasKey(lru, key)
      modifies this
      ensures Valid() && fresh(Repr - old(Repr)) && old(Repr) <= Repr
      ensures Contents() == AfterSet(old(Contents()), key, entry)
    {
      assert Find(Contents(), key) == |Contents()| by {
        assert forall i | 0 <= i < |lru| :: Contents()[i].0 == lru[i].key;
      }
      Append(key, entry);
      EvictOverflow();
    }

    method Append(key: string, entry: Page)
      requires Valid() && !HasKey(lru, key)
      modifies this
      ensures this in Repr && (forall item | item in lru :: item in Repr) && Linked(cache, lru)
              && |lru| <= MAX_ENTRIES + 1
      ensures fresh(Repr - old(Repr)) && old(Repr) <= Repr
      ensures Contents() == old(Contents()) + [(key, entry)]
    {
      ResidentIffMapped(cache, lru, key);
      var item := new Item(key, entry);
      AddedStaysLinked(cache, lru, item);
      cache := cache[key := item];
      lru := lru + [item];
      Repr := Repr + {item};
    }

    method EvictOverflow()
      requires Linked(cache, lru) && |lru| <= MAX_ENTRIES + 1
      modifies this`cache, this`lru
      ensures Linked(cache, lru) && |lru| <= MAX_ENTRIES
      ensures lru == if |old(lru)| > MAX_ENTRIES then old(lru)[1..] else old(lru)
      ensures Contents() == Trim(old(Contents()))
    {
      ghost var c := Contents();
      while |lru| > MAX_ENTRIES
        invariant Linked(cache, lru)
        invariant lru == old(lru) || (|old(lru)| > MAX_ENTRIES && lru == old(lru)[1..])
      {
        EvictedStaysLinked(cache, lru);
        var oldest := lru[0];
        cache := cache - {oldest.key};
        lru := lru[1..];
      }
      assert Contents() == Trim(c);
    }

    /** Answers from the newest resident page that emitted the payload. */
    method Data(kind: string, name: string, hash: string) returns (r: Option<string>)
      requires Valid()
      ensures r.None? <==> forall i | 0 <= i < |Contents()| :: !EmitsSome(Contents()[i].1, kind, name, hash)
      ensures r.Some? ==> exists i | 0 <= i < |Contents()| ::
                Emitted(kind, name, hash, r.value) in Contents()[i].1.emitted
      ensures r.None? ==> forall i, body | 0 <= i < |Contents()| ::
                            Emitted(kind, name, hash, body) !in Contents()[i].1.emitted
      ensures r.Some? ==> exists i | 0 <= i < |Contents()| ::
                Emits(Contents()[i].1, kind, name, hash, r.value)
                && forall j | i < j < |Contents()| :: !EmitsSome(Contents()[j].1, kind, name, hash)
    {
      var n: int := |lru|;
      while n > 0
        invariant 0 <= n <= |Contents()| == |lru|
        invariant forall j | n <= j < |Contents()| :: !EmitsSome(Contents()[j].1, kind, name, hash)
      {
        n := n - 1;
        r := FirstEmitted(lru[n].entry, kind, name, hash);
        if r.Some? {
          assert Contents()[n].1 == lru[n].entry;
          return;
        }
      }
      r := None;
    }
  }

  method FirstEmitted(page: Page, kind: string, name: string, hash: string) returns (r: Option<string>)
    ensures r.None? <==> !EmitsSome(page, kind, name, hash)
    ensures r.Some? ==> Emits(page, kind, name, hash, r.value)
  {
    for i := 0 to |page.emitted|
      invariant forall j | 0 <= j < i ::
        !(page.emitted[j].kind == kind && page.emitted[j].name == name && page.emitted[j].hash == hash)
    {
      var e := page.emitted[i];
      if e.kind == kind && e.name == name && e.hash == hash {
        assert page.emitted[i] == Emitted(kind, name, hash, e.body);
        return Some(e.body);
      }
    }
    r := None;
  }
}
