/** The recency list over whole runs: the last 100 distinct keys in use order, each with its last page. */
module LruLaws {
  import opened Text
  import opened Sequences
  import opened RenderCache

  datatype Op = GetOp(key: string) | SetOp(key: string, page: Page) | DataOp(kind: string, name: string, hash: string)

  function Step(c: Recency, op: Op): Recency {
    match op
    case GetOp(key) => AfterGet(c, key)
    case SetOp(key, page) => AfterSet(c, key, page)
    case DataOp(_, _, _) => c
  }

  function Run(ops: seq<Op>): Recency {
    if ops == [] then [] else Step(Run(ops[..|ops| - 1]), ops[|ops| - 1])
  }

  /** The keys a run used, in order: every Set, and every Get that hit. */
  function Uses(ops: seq<Op>): seq<string> {
    if ops == [] then []
    else
      var init, op := ops[..|ops| - 1], ops[|ops| - 1];
      match op
      case GetOp(key) => Uses(init) + if Hit(Run(init), key).Some? then [key] else []
      case SetOp(key, _) => Uses(init) + [key]
      case DataOp(_, _, _) => Uses(init)
  }

  /** s without the first k. */
  function Without<K(==)>(s: seq<K>, k: K): (r: seq<K>)
    ensures |r| <= |s| <= |r| + 1
  {
    if s == [] then [] else if s[0] == k then s[1..] else [s[0]] + Without(s[1..], k)
  }

  /** The distinct keys of a history, least recently used first. */
  function ByLastUse(h: seq<string>): seq<string> {
    if h == [] then [] else Without(ByLastUse(h[..|h| - 1]), h[|h| - 1]) + [h[|h| - 1]]
  }

  function Last<K(==)>(s: seq<K>, n: nat): seq<K> {
    if |s| > n then s[|s| - n..] else s
  }

  function Keys(c: Recency): (ks: seq<string>)
    ensures |ks| == |c|
    ensures forall i | 0 <= i < |c| :: ks[i] == c[i].0
  {
    seq(|c|, i requires 0 <= i < |c| => c[i].0)
  }

  // ----------------------------------------------- what ByLastUse means

  /** The position of the last use of k, or -1. */
  function LastUse<K(==)>(h: seq<K>, k: K): (i: int)
    ensures -1 <= i < |h| && (i >= 0 ==> h[i] == k)
    ensures forall j | i < j < |h| :: h[j] != k
  {
    if h == [] then -1 else if h[|h| - 1] == k then |h| - 1 else LastUse(h[..|h| - 1], k)
  }

  lemma DistinctFront<K>(x: K, s: seq<K>)
    requires Distinct(s) && x !in s
    ensures Distinct([x] + s)
  {
    assert forall i | 0 <= i < |s| :: s[i] in s;
  }

  lemma {:induction false} WithoutElements<K>(s: seq<K>, k: K)
    requires Distinct(s)
    ensures forall x :: x in Without(s, k) <==> x in s && x != k
    ensures Distinct(Without(s, k))
  {
    if s != [] {
      assert s == [s[0]] + s[1..];
      assert s[0] !in s[1..];
      WithoutElements(s[1..], k);
      if s[0] != k { DistinctFront(s[0], Without(s[1..], k)); }
    }
  }

  /** The keys stand in the order of their last use in h. */
  ghost predicate OrderedBy<K>(s: seq<K>, h: seq<K>) {
    forall i, j | 0 <= i < j < |s| :: LastUse(h, s[i]) < LastUse(h, s[j])
  }

  ghost predicate Increasing<K(!new)>(s: seq<K>, rank: K -> int) {
    forall i, j | 0 <= i < j < |s| :: rank(s[i]) < rank(s[j])
  }

  lemma {:induction false} WithoutIncreasing<K(!new)>(s: seq<K>, rank: K -> int, k: K)
    requires Distinct(s) && Increasing(s, rank)
    ensures Increasing(Without(s, k), rank)
  {
    if s != [] && s[0] != k {
      WithoutIncreasing(s[1..], rank, k);
      WithoutElements(s[1..], k);
      var w := Without(s[1..], k);
      forall i | 0 <= i < |w| ensures rank(s[0]) < rank(w[i]) {
        assert w[i] in s[1..];
        var j :| 0 < j < |s| && s[j] == w[i];
      }
    }
  }

  lemma WithoutOrdered<K(!new)>(s: seq<K>, h: seq<K>, k: K)
    requires Distinct(s) && OrderedBy(s, h)
    ensures OrderedBy(Without(s, k), h)
  {
    var rank := (x: K) => LastUse(h, x);
    assert Increasing(s, rank);
    WithoutIncreasing(s, rank, k);
    var w := Without(s, k);
    forall i, j | 0 <= i < j < |w| ensures LastUse(h, w[i]) < LastUse(h, w[j]) {
      assert rank(w[i]) < rank(w[j]);
    }
  }

  lemma UsedAgain<K(!new)>(s: seq<K>, h: seq<K>, k: K)
    requires Distinct(s) && OrderedBy(s, h)
    ensures OrderedBy(Without(s, k) + [k], h + [k])
  {
    WithoutElements(s, k);
    WithoutOrdered(s, h, k);
    UsedLast(Without(s, k), h, k);
  }

  lemma UsedLast<K>(w: seq<K>, h: seq<K>, k: K)
    requires k !in w && OrderedBy(w, h)
    ensures OrderedBy(w + [k], h + [k])
  {
    assert (h + [k])[..|h|] == h;
    assert forall i | 0 <= i < |w| :: w[i] in w && LastUse(h + [k], w[i]) == LastUse(h, w[i]);
  }

  /** ByLastUse lists exactly the used keys, once each, in the order of their last use. */
  lemma {:induction false} ByLastUseIsOrder(h: seq<string>)
    ensures forall k :: k in ByLastUse(h) <==> k in h
    ensures Distinct(ByLastUse(h)) && OrderedBy(ByLastUse(h), h)
  {
    if h != [] {
      var init, last := h[..|h| - 1], h[|h| - 1];
      ByLastUseIsOrder(init);
      assert h == init + [last];
      UsedAgain(ByLastUse(init), init, last);
      WithoutElements(ByLastUse(init), last);
    }
  }

  // ------------------------------------------------------- residency

  /** Moving a key to the back of the whole order and cutting is cutting, moving and cutting again. */
  lemma {:induction false} LastOfMoved<K>(r: seq<K>, k: K, n: nat)
    requires Distinct(r) && n > 0
    ensures Last(Without(r, k) + [k], n) == Last(Without(Last(r, n), k) + [k], n)
  {
    if |r| > n {
      LastOfTail(r, n);
      if r[0] == k {
        WithoutAbsent(Last(r, n), k);
        LastIsLast(r[1..], [k], n);
      } else {
        LastOfMoved(r[1..], k, n);
        LastOfTail([r[0]] + Without(r[1..], k) + [k], n);
        assert ([r[0]] + Without(r[1..], k) + [k])[1..] == Without(r[1..], k) + [k];
      }
    }
  }

  lemma LastOfTail<K>(s: seq<K>, n: nat)
    requires |s| > n
    ensures Last(s, n) == Last(s[1..], n)
  {
  }

  lemma LastIsLast<K>(a: seq<K>, b: seq<K>, n: nat)
    ensures Last(a + b, n) == Last(Last(a, n) + b, n)
  {
  }

  lemma {:induction false} WithoutAbsent<K>(s: seq<K>, k: K)
    requires k !in s
    ensures Without(s, k) == s
  {
    if s != [] {
      WithoutAbsent(s[1..], k);
    }
  }

  lemma {:induction false} KeysWithout(c: Recency, key: string)
    ensures Find(c, key) < |c| ==> Keys(DropAt(c, Find(c, key))) == Without(Keys(c), key)
    ensures Find(c, key) == |c| ==> Keys(c) == Without(Keys(c), key)
  {
    if c != [] {
      KeysOfTail(c);
      if c[0].0 != key {
        KeysWithout(c[1..], key);
        if Find(c[1..], key) < |c| - 1 {
          KeysOfDrop(c, Find(c[1..], key));
        }
      }
    }
  }

  lemma KeysOfTail(c: Recency)
    requires c != []
    ensures Keys(c)[0] == c[0].0 && Keys(c)[1..] == Keys(c[1..])
  {
  }

  lemma KeysOfDrop(c: Recency, i: nat)
    requires i + 1 < |c|
    ensures Keys(DropAt(c, i + 1)) == [c[0].0] + Keys(DropAt(c[1..], i))
  {
    assert DropAt(c, i + 1) == [c[0]] + DropAt(c[1..], i);
  }

  lemma UseMovesKey(c: Recency, key: string, page: Page)
    requires |c| <= MAX_ENTRIES
    ensures Keys(AfterSet(c, key, page)) == Last(Without(Keys(c), key) + [key], MAX_ENTRIES)
    ensures Hit(c, key).Some? ==> Keys(AfterGet(c, key)) == Last(Without(Keys(c), key) + [key], MAX_ENTRIES)
  {
    KeysWithout(c, key);
    var i := Find(c, key);
    if i < |c| {
      KeysAppended(DropAt(c, i), (key, page));
      KeysAppended(DropAt(c, i), c[i]);
    } else {
      KeysAppended(c, (key, page));
      KeysTrimmed(c + [(key, page)]);
    }
  }

  lemma KeysAppended(c: Recency, e: (string, Page))
    ensures Keys(c + [e]) == Keys(c) + [e.0]
  {
  }

  lemma KeysTrimmed(c: Recency)
    ensures Keys(Trim(c)) == Last(Keys(c), MAX_ENTRIES)
  {
  }

  lemma LastIsDistinct<K>(s: seq<K>, n: nat)
    requires Distinct(s)
    ensures Distinct(Last(s, n)) && |Last(s, n)| <= n
  {
  }

  /** After any run the resident keys are the last 100 distinct keys in use order. */
  lemma {:induction false} ResidentKeys(ops: seq<Op>)
    ensures Keys(Run(ops)) == Last(ByLastUse(Uses(ops)), 100)
    ensures Distinct(Keys(Run(ops))) && |Run(ops)| <= 100
  {
    if ops != [] {
      var init, op := ops[..|ops| - 1], ops[|ops| - 1];
      ResidentKeys(init);
      var c := Run(init);
      if op.SetOp? || (op.GetOp? && Hit(c, op.key).Some?) {
        var r := ByLastUse(Uses(init));
        ByLastUseIsOrder(Uses(init));
        UseMovesKey(c, op.key, if op.SetOp? then op.page else Page("", "", []));
        LastOfMoved(r, op.key, MAX_ENTRIES);
        assert (Uses(init) + [op.key])[..|Uses(init)|] == Uses(init);
      } else {
        assert Uses(ops) == Uses(init);
      }
    }
    ByLastUseIsOrder(Uses(ops));
    LastIsDistinct(ByLastUse(Uses(ops)), MAX_ENTRIES);
  }

  // ---------------------------------------------------------- contents

  /** The page of the last Set of a key. */
  function LastPage(ops: seq<Op>, key: string): Option<Page> {
    if ops == [] then None
    else
      var op := ops[|ops| - 1];
      if op.SetOp? && op.key == key then Some(op.page) else LastPage(ops[..|ops| - 1], key)
  }

  /** Every resident page is the last one set for its key: eviction and moves never mix pages up. */
  lemma {:induction false} ResidentPages(ops: seq<Op>)
    ensures forall i | 0 <= i < |Run(ops)| :: LastPage(ops, Run(ops)[i].0) == Some(Run(ops)[i].1)
  {
    if ops != [] {
      var init, op := ops[..|ops| - 1], ops[|ops| - 1];
      ResidentPages(init);
      ResidentKeys(init);
      var c, t := Run(init), Run(ops);
      forall i | 0 <= i < |t| ensures LastPage(ops, t[i].0) == Some(t[i].1) {
        if op.SetOp? && t[i] != (op.key, op.page) {
          AfterSetElement(c, op.key, op.page, i);
        } else if op.GetOp? {
          assert t[i] in c;
        }
      }
    }
  }

  lemma AfterSetElement(c: Recency, key: string, page: Page, i: nat)
    requires Distinct(Keys(c)) && i < |AfterSet(c, key, page)| && AfterSet(c, key, page)[i] != (key, page)
    ensures AfterSet(c, key, page)[i] in c && AfterSet(c, key, page)[i].0 != key
  {
    var k, t := Find(c, key), AfterSet(c, key, page);
    assert forall j | 0 <= j < |c| && j != k :: Keys(c)[j] != key;
    if k < |c| {
      assert t[i] == if i < k then c[i] else c[i + 1];
    } else {
      var all := c + [(key, page)];
      assert t[i] == all[i + |all| - |t|];
    }
  }

  ghost predicate EmitsBody(page: Page, kind: string, name: string, hash: string) {
    exists body :: Emitted(kind, name, hash, body) in page.emitted
  }

  lemma EmitsIff(page: Page, kind: string, name: string, hash: string)
    ensures EmitsSome(page, kind, name, hash) <==> EmitsBody(page, kind, name, hash)
  {
    if e :| e in page.emitted && e.kind == kind && e.name == name && e.hash == hash {
      assert e == Emitted(kind, name, hash, e.body);
    }
  }

  /** A data request is answered after a run exactly when a page that is still resident emitted the payload. */
  lemma DataServedWhileResident(ops: seq<Op>, kind: string, name: string, hash: string)
    ensures (exists i | 0 <= i < |Run(ops)| :: EmitsSome(Run(ops)[i].1, kind, name, hash)) <==>
            exists key :: key in Last(ByLastUse(Uses(ops)), 100) && LastPage(ops, key).Some?
                          && EmitsBody(LastPage(ops, key).value, kind, name, hash)
  {
    ResidentKeys(ops);
    ResidentPages(ops);
    var c := Run(ops);
    forall page: Page ensures EmitsSome(page, kind, name, hash) <==> EmitsBody(page, kind, name, hash) {
      EmitsIff(page, kind, name, hash);
    }
    if i :| 0 <= i < |c| && EmitsSome(c[i].1, kind, name, hash) {
      assert Keys(c)[i] in Keys(c);
    }
    if key :| key in Keys(c) && LastPage(ops, key).Some? && EmitsBody(LastPage(ops, key).value, kind, name, hash) {
      var i :| 0 <= i < |c| && Keys(c)[i] == key;
      assert EmitsSome(c[i].1, kind, name, hash);
    }
  }

  // ------------------------------------------------------ on the cache itself

  /** The pages are served from the cache object as the specification says, over every run. */
  method RunCache(ops: seq<Op>) returns (cache: Cache, answers: seq<Option<Page>>)
    ensures fresh(cache) && cache.Valid() && cache.Contents() == Run(ops)
    ensures |answers| == |ops| && Answered(ops, answers)
  {
    cache := new Cache();
    answers := [];
    for n := 0 to |ops|
      invariant fresh(cache) && cache.Valid() && fresh(cache.Repr) && cache.Contents() == Run(ops[..n])
      invariant |answers| == n && Answered(ops, answers)
    {
      RunNext(ops, n);
      var answer := TakeOp(cache, ops[n]);
      OneMoreAnswered(ops, answers, answer);
      answers := answers + [answer];
    }
    assert ops[..|ops|] == ops;
  }

  /** Each Get so far was answered from the contents at its time. */
  ghost predicate Answered(ops: seq<Op>, answers: seq<Option<Page>>)
    requires |answers| <= |ops|
  {
    forall i | 0 <= i < |answers| && ops[i].GetOp? :: answers[i] == Hit(Run(ops[..i]), ops[i].key)
  }

  lemma OneMoreAnswered(ops: seq<Op>, answers: seq<Option<Page>>, answer: Option<Page>)
    requires |answers| < |ops| && Answered(ops, answers)
    requires ops[|answers|].GetOp? ==> answer == Hit(Run(ops[..|answers|]), ops[|answers|].key)
    ensures Answered(ops, answers + [answer])
  {
  }

  lemma RunNext(ops: seq<Op>, n: nat)
    requires n < |ops|
    ensures Run(ops[..n + 1]) == Step(Run(ops[..n]), ops[n])
  {
    TakeNext(ops, n);
  }

  method TakeOp(cache: Cache, op: Op) returns (answer: Option<Page>)
    requires cache.Valid()
    modifies cache.Repr
    ensures cache.Valid() && fresh(cache.Repr - old(cache.Repr))
    ensures cache.Contents() == Step(old(cache.Contents()), op)
    ensures op.GetOp? ==> answer == Hit(old(cache.Contents()), op.key)
  {
    answer := None;
    match op {
      case GetOp(key) => answer := cache.Get(key);
      case SetOp(key, page) => cache.Set(key, page);
      case DataOp(kind, name, hash) => var _ := cache.Data(kind, name, hash);
    }
  }
}
