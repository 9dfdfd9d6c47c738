/** The canonical keys of the render cache. */
module CacheKeys {
  import opened Text
  import opened QueryEscape
  import opened Splitting
  import opened Sequences
  import Sorting

  type Params = map<string, ByteString>

  /** An entry of a route's layoutPages. */
  datatype PageRef = PageRef(page: string, params: map<string, string>)

  function Self(s: string): string { s }

  // ------------------------------------------------------- sorted key lists

  ghost predicate InOrder(ks: seq<string>, keys: set<string>) {
    Sorting.SortedBy(Self, ks) && Sorting.DistinctKeys(Self, ks) && forall k :: k in ks <==> k in keys
  }

  lemma OrderExists(keys: set<string>)
    ensures exists ks :: InOrder(ks, keys)
  {
    var listed: seq<string> := [];
    var todo := keys;
    while todo != {}
      invariant todo <= keys && Sorting.DistinctKeys(Self, listed)
      invariant forall k :: k in listed <==> k in keys && k !in todo
    {
      var k :| k in todo;
      todo := todo - {k};
      listed := listed + [k];
    }
    SortedList(listed, keys);
    assert InOrder(Sorting.SortBy(Self, listed), keys);
  }

  lemma SortedList(listed: seq<string>, keys: set<string>)
    requires Sorting.DistinctKeys(Self, listed) && forall k :: k in listed <==> k in keys
    ensures InOrder(Sorting.SortBy(Self, listed), keys)
  {
    Sorting.SortByCorrect(Self, listed);
    Sorting.DistinctKeysOfPermutation(Self, listed, Sorting.SortBy(Self, listed));
  }

  /** The keys of a parameter set in their one order. */
  ghost function Ordered(keys: set<string>): (ks: seq<string>)
    ensures InOrder(ks, keys)
  {
    OrderExists(keys);
    var ks :| InOrder(ks, keys);
    ks
  }

  lemma OrderedIsUnique(ks: seq<string>, keys: set<string>)
    requires InOrder(ks, keys)
    ensures ks == Ordered(keys)
  {
    Sorting.SortedIsUnique(Self, ks, Ordered(keys));
  }

  // ---------------------------------------------------------------- the keys

  function Pair(k: string, v: ByteString): string {
    "?" + Field(k, v)
  }

  function Pairs(ks: seq<string>, m: Params): string
    requires forall k | k in ks :: k in m
  {
    if ks == [] then "" else Pair(ks[0], m[ks[0]]) + Pairs(ks[1..], m)
  }

  function Joined(ks: seq<string>, m: Params): string
    requires forall k | k in ks :: k in m
  {
    if ks == [] then ""
    else ks[0] + "=" + Escape(m[ks[0]]) + if |ks| == 1 then "" else "&" + Joined(ks[1..], m)
  }

  ghost function ArtefactKey(name: string, m: Params): string {
    name + Pairs(Ordered(m.Keys), m)
  }

  const PAGES_TAG := " layoutPages:"

  ghost function LayoutKey(path: string, pages: string, m: Params): string {
    path + PAGES_TAG + pages + if m == map[] then "" else "?" + Joined(Ordered(m.Keys), m)
  }

  function Parts(ks: seq<string>, m: map<string, string>): seq<string>
    requires forall k | k in ks :: k in m
  {
    if ks == [] then [] else [ks[0] + "=" + m[ks[0]]] + Parts(ks[1..], m)
  }

  /** One layoutPages entry with its params, the params in text order. */
  ghost function RefKey(ref: PageRef): string {
    ref.page + if ref.params == map[] then ""
               else "#" + Join(Sorting.SortBy(Self, Parts(Ordered(ref.params.Keys), ref.params)), ",")
  }

  ghost function RefKeys(refs: seq<PageRef>): (r: seq<string>)
    ensures |r| == |refs| && forall i | 0 <= i < |r| :: r[i] == RefKey(refs[i])
  {
    seq(|refs|, i requires 0 <= i < |refs| => RefKey(refs[i]))
  }

  ghost function PagesText(refs: seq<PageRef>): string {
    Join(Sorting.SortBy(Self, RefKeys(refs)), ";")
  }

  // --------------------------------------------------------- building them

  /** Go visits a map in any order; sorting the keys makes the key a function of the set. */
  method SortedKeys<V>(m: map<string, V>) returns (ks: seq<string>)
    ensures ks == Ordered(m.Keys)
  {
    var todo := m.Keys;
    var listed: seq<string> := [];
    while todo != {}
      invariant todo <= m.Keys && Sorting.DistinctKeys(Self, listed)
      invariant forall k :: k in listed <==> k in m.Keys && k !in todo
    {
      var k :| k in todo;
      todo := todo - {k};
      listed := listed + [k];
    }
    SortedList(listed, m.Keys);
    ks := Sorting.SortBy(Self, listed);
    OrderedIsUnique(ks, m.Keys);
  }

  method BuildCacheKey(name: string, m: Params) returns (key: string)
    ensures key == ArtefactKey(name, m)
  {
    var ks := SortedKeys(m);
    key := name;
    for i := 0 to |ks|
      invariant key + Pairs(ks[i..], m) == ArtefactKey(name, m)
    {
      assert ks[i..][1..] == ks[i + 1..];
      Regroup(key, Pair(ks[i], m[ks[i]]), Pairs(ks[i + 1..], m));
      key := key + Pair(ks[i], m[ks[i]]);
    }
  }

  method BuildLayoutPagesCacheKey(path: string, refs: seq<PageRef>, m: Params) returns (key: string)
    ensures key == LayoutKey(path, PagesText(refs), m)
  {
    var pageKeys: seq<string> := [];
    for i := 0 to |refs|
      invariant pageKeys == RefKeys(refs[..i])
    {
      var pageKey := BuildRefKey(refs[i]);
      pageKeys := pageKeys + [pageKey];
      NextRefKey(refs, i);
    }
    assert refs[..|refs|] == refs;
    key := path + " " + "layoutPages:" + Join(Sorting.SortBy(Self, pageKeys), ";");
    assert path + " " + "layoutPages:" == path + PAGES_TAG;
    if m.Keys == {} { return; }
    var ks := SortedKeys(m);
    key := key + "?" + Joined(ks, m);
  }

  lemma NextRefKey(refs: seq<PageRef>, i: nat)
    requires i < |refs|
    ensures RefKeys(refs[..i + 1]) == RefKeys(refs[..i]) + [RefKey(refs[i])]
  {
    TakeNext(refs, i);
  }

  method BuildRefKey(ref: PageRef) returns (key: string)
    ensures key == RefKey(ref)
  {
    key := ref.page;
    if ref.params.Keys == {} { return; }
    var parts := ListedParts(ref.params);
    key := key + "#" + Join(Sorting.SortBy(Self, parts), ",");
  }

  /** The texts of all params, in the order the map is visited. */
  method ListedParts(m: map<string, string>) returns (parts: seq<string>)
    ensures Sorting.SortBy(Self, parts) == Sorting.SortBy(Self, Parts(Ordered(m.Keys), m))
  {
    var todo := m.Keys;
    parts := [];
    ghost var listed: seq<string> := [];
    while todo != {}
      invariant todo <= m.Keys && Sorting.DistinctKeys(Self, listed)
      invariant forall k :: k in listed <==> k in m.Keys && k !in todo
      invariant parts == Parts(listed, m)
    {
      var k :| k in todo;
      PartsConcat(listed, [k], m);
      todo := todo - {k};
      parts := parts + [k + "=" + m[k]];
      listed := listed + [k];
    }
    SameParts(listed, Ordered(m.Keys), m);
    SortedTextsUnique(parts, Parts(Ordered(m.Keys), m));
  }

  lemma {:induction false} PartsConcat(a: seq<string>, b: seq<string>, m: map<string, string>)
    requires forall k | k in a + b :: k in m
    ensures (forall k | k in a :: k in m) && (forall k | k in b :: k in m)
    ensures Parts(a + b, m) == Parts(a, m) + Parts(b, m)
  {
    assert forall k | k in a :: k in a + b;
    assert forall k | k in b :: k in a + b;
    if a == [] {
      assert a + b == b;
    } else {
      assert (a + b)[1..] == a[1..] + b;
      PartsConcat(a[1..], b, m);
    }
  }

  lemma {:induction false} SameParts(a: seq<string>, b: seq<string>, m: map<string, string>)
    requires Sorting.DistinctKeys(Self, a) && Sorting.DistinctKeys(Self, b)
    requires (forall k :: k in a <==> k in b) && (forall k | k in a :: k in m)
    ensures multiset(Parts(a, m)) == multiset(Parts(b, m))
  {
    if b != [] {
      assert b[0] in a;
    }
    if a != [] {
      var x := a[0];
      assert x in b;
      var j :| 0 <= j < |b| && b[j] == x;
      var rest := b[..j] + b[j + 1..];
      PullOut(b, j, m);
      SameElements(a, b, j);
      SameParts(a[1..], rest, m);
      assert Parts(a, m) == [x + "=" + m[x]] + Parts(a[1..], m);
    }
  }

  lemma PullOut(b: seq<string>, j: nat, m: map<string, string>)
    requires j < |b| && forall k | k in b :: k in m
    ensures forall k | k in b[..j] + b[j + 1..] :: k in m
    ensures multiset(Parts(b, m)) == multiset(Parts(b[..j] + b[j + 1..], m)) + multiset{b[j] + "=" + m[b[j]]}
  {
    var l, r := b[..j], b[j + 1..];
    assert b == l + ([b[j]] + r);
    PartsConcat(l, [b[j]] + r, m);
    PartsConcat([b[j]], r, m);
    assert forall k | k in l + r :: k in b;
    PartsConcat(l, r, m);
  }

  lemma SameElements(a: seq<string>, b: seq<string>, j: nat)
    requires Sorting.DistinctKeys(Self, a) && Sorting.DistinctKeys(Self, b)
    requires a != [] && j < |b| && b[j] == a[0] && forall k :: k in a <==> k in b
    ensures Sorting.DistinctKeys(Self, a[1..]) && Sorting.DistinctKeys(Self, b[..j] + b[j + 1..])
    ensures forall k :: k in a[1..] <==> k in b[..j] + b[j + 1..]
  {
    var l, r := b[..j], b[j + 1..];
    assert b == l + [b[j]] + r && a == [a[0]] + a[1..];
    assert forall k :: k in l + r <==> k in b && k != a[0];
    assert forall k :: k in a[1..] <==> k in a && k != a[0];
  }

  /** Sorting texts forgets the order they came in, duplicates included. */
  lemma SortedTextsUnique(a: seq<string>, b: seq<string>)
    requires multiset(a) == multiset(b)
    ensures Sorting.SortBy(Self, a) == Sorting.SortBy(Self, b)
  {
    Sorting.SortByCorrect(Self, a);
    Sorting.SortByCorrect(Self, b);
    SortedTextsEqual(Sorting.SortBy(Self, a), Sorting.SortBy(Self, b));
  }

  lemma {:induction false} SortedTextsEqual(a: seq<string>, b: seq<string>)
    requires Sorting.SortedBy(Self, a) && Sorting.SortedBy(Self, b) && multiset(a) == multiset(b)
    ensures a == b
  {
    assert |multiset(a)| == |multiset(b)|;
    if a != [] {
      FirstTextsEqual(a, b);
      assert a == [a[0]] + a[1..] && b == [b[0]] + b[1..];
      assert multiset(a[1..]) == multiset(a) - multiset{a[0]};
      assert multiset(b[1..]) == multiset(b) - multiset{b[0]};
      SortedTextsEqual(a[1..], b[1..]);
    }
  }

  lemma FirstTextsEqual(a: seq<string>, b: seq<string>)
    requires Sorting.SortedBy(Self, a) && Sorting.SortedBy(Self, b) && multiset(a) == multiset(b) && a != [] && b != []
    ensures a[0] == b[0]
  {
    assert b[0] in multiset(a) && a[0] in multiset(b);
    var i :| 0 <= i < |a| && a[i] == b[0];
    var j :| 0 <= j < |b| && b[j] == a[0];
    Sorting.StrLeTotal(a[0], a[0]);
    Sorting.StrLeTotal(b[0], b[0]);
    assert Sorting.StrLe(Self(a[0]), Self(a[i])) && Sorting.StrLe(Self(b[0]), Self(b[j]));
    Sorting.StrLeAntisymmetric(a[0], b[0]);
  }

  // ------------------------------------------------------------ injectivity

  ghost predicate StartsWith(s: string, c: char) {
    s == "" || s[0] == c
  }

  /** A text without c, followed by nothing or by c, is told apart from what follows. */
  lemma SplitAt(a: string, x: string, b: string, y: string, c: char)
    requires c !in a && c !in b && StartsWith(x, c) && StartsWith(y, c)
    requires a + x == b + y
    ensures a == b && x == y
  {
    var s, t := a + x, b + y;
    assert |a| < |s| ==> s[|a|] == c;
    assert |b| < |t| ==> t[|b|] == c;
    assert forall i | 0 <= i < |a| :: s[i] == a[i] && a[i] in a;
    assert forall i | 0 <= i < |b| :: t[i] == b[i] && b[i] in b;
    assert |a| == |b|;
    assert s[..|a|] == a && t[..|b|] == b && s[|a|..] == x && t[|b|..] == y;
  }

  /** Parameter names that cannot imitate the separators of the key. */
  ghost predicate PlainNames(m: Params) {
    forall k | k in m :: PlainName(k)
  }

  predicate PlainName(k: string) {
    '?' !in k && '=' !in k && '&' !in k
  }

  function Field(k: string, v: ByteString): string {
    k + "=" + Escape(v)
  }

  lemma FieldSplit(k: string, e: string, x: string, l: string, f: string, y: string, c: char)
    requires '=' !in k && '=' !in l && c !in e && c !in f && StartsWith(x, c) && StartsWith(y, c)
    requires k + "=" + e + x == l + "=" + f + y
    ensures k == l && e == f && x == y
  {
    assert k + "=" + e + x == k + "=" + (e + x) && l + "=" + f + y == l + "=" + (f + y);
    NameThenValue(k, e + x, l, f + y);
    SplitAt(e, x, f, y, c);
  }

  /** One name=value field is told apart from what follows it. */
  lemma FieldInjective(k: string, v: ByteString, x: string, l: string, w: ByteString, y: string, c: char)
    requires PlainName(k) && PlainName(l) && (c == '?' || c == '&') && StartsWith(x, c) && StartsWith(y, c)
    requires Field(k, v) + x == Field(l, w) + y
    ensures k == l && v == w && x == y
  {
    EscapedHoldsNo(v, c);
    EscapedHoldsNo(w, c);
    FieldSplit(k, Escape(v), x, l, Escape(w), y, c);
    Injective(v, w);
  }

  lemma EscapedHoldsNo(v: ByteString, c: char)
    requires c == '?' || c == '&'
    ensures c !in Escape(v)
  {
    EscapedAlphabet(v);
  }

  lemma NameThenValue(k: string, x: string, l: string, y: string)
    requires '=' !in k && '=' !in l
    requires k + "=" + x == l + "=" + y
    ensures k == l && x == y
  {
    assert k + "=" + x == k + ("=" + x) && l + "=" + y == l + ("=" + y);
    SplitAt(k, "=" + x, l, "=" + y, '=');
    assert ("=" + x)[1..] == x && ("=" + y)[1..] == y;
  }

  lemma ConsEqual(ks: seq<string>, ls: seq<string>)
    requires ks != [] && ls != [] && ks[0] == ls[0] && ks[1..] == ls[1..]
    ensures ks == ls
  {
    assert ks == [ks[0]] + ks[1..] && ls == [ls[0]] + ls[1..];
  }

  lemma AfterMark(field: string, x: string)
    ensures ("?" + field + x)[1..] == field + x
  {
  }

  lemma {:induction false} PairsInjective(ks: seq<string>, m: Params, ls: seq<string>, n: Params)
    requires (forall k | k in ks :: k in m) && (forall k | k in ls :: k in n) && PlainNames(m) && PlainNames(n)
    requires Pairs(ks, m) == Pairs(ls, n)
    ensures ks == ls && forall k | k in ks :: m[k] == n[k]
  {
    if ks != [] && ls != [] {
      var x, y := Pairs(ks[1..], m), Pairs(ls[1..], n);
      AfterMark(Field(ks[0], m[ks[0]]), x);
      AfterMark(Field(ls[0], n[ls[0]]), y);
      FieldInjective(ks[0], m[ks[0]], x, ls[0], n[ls[0]], y, '?');
      PairsInjective(ks[1..], m, ls[1..], n);
      ConsEqual(ks, ls);
    }
  }

  function Rest(ks: seq<string>, m: Params): string
    requires ks != [] && forall k | k in ks :: k in m
  {
    if |ks| == 1 then "" else "&" + Joined(ks[1..], m)
  }

  lemma {:induction false} JoinedInjective(ks: seq<string>, m: Params, ls: seq<string>, n: Params)
    requires (forall k | k in ks :: k in m) && (forall k | k in ls :: k in n) && PlainNames(m) && PlainNames(n)
    requires Joined(ks, m) == Joined(ls, n)
    ensures ks == ls && forall k | k in ks :: m[k] == n[k]
  {
    if ks != [] && ls != [] {
      var x, y := Rest(ks, m), Rest(ls, n);
      assert Joined(ks, m) == Field(ks[0], m[ks[0]]) + x && Joined(ls, n) == Field(ls[0], n[ls[0]]) + y;
      FieldInjective(ks[0], m[ks[0]], x, ls[0], n[ls[0]], y, '&');
      if |ks| > 1 {
        assert x[1..] == Joined(ks[1..], m) && y[1..] == Joined(ls[1..], n);
        JoinedInjective(ks[1..], m, ls[1..], n);
      } else {
        assert |ls| == 1;
        assert ks[1..] == ls[1..] == [];
      }
      ConsEqual(ks, ls);
    }
  }

  lemma SameOrderSameMap(m: Params, n: Params)
    requires Ordered(m.Keys) == Ordered(n.Keys)
    requires forall k | k in Ordered(m.Keys) :: k in m && k in n && m[k] == n[k]
    ensures m == n
  {
    forall k ensures k in m.Keys <==> k in n.Keys {
      assert k in Ordered(m.Keys) <==> k in m.Keys;
      assert k in Ordered(n.Keys) <==> k in n.Keys;
    }
  }

  /** Equal artefact keys come from the same artefact and the same parameters. */
  lemma ArtefactKeyInjective(a: string, m: Params, b: string, n: Params)
    requires '?' !in a && '?' !in b && PlainNames(m) && PlainNames(n)
    requires ArtefactKey(a, m) == ArtefactKey(b, n)
    ensures a == b && m == n
  {
    SplitAt(a, Pairs(Ordered(m.Keys), m), b, Pairs(Ordered(n.Keys), n), '?');
    PairsInjective(Ordered(m.Keys), m, Ordered(n.Keys), n);
    SameOrderSameMap(m, n);
  }

  /** The tag starts with the only space it holds, so it first occurs right after a path that does not contain it. */
  lemma PathBeforeTag(a: string, x: string, b: string, y: string)
    requires !Contains(a, PAGES_TAG) && !Contains(b, PAGES_TAG)
    requires a + PAGES_TAG + x == b + PAGES_TAG + y
    ensures a == b && x == y
  {
    var s := a + PAGES_TAG + x;
    var t := b + PAGES_TAG + y;
    var l := |PAGES_TAG|;
    assert s[|a|..|a| + l] == PAGES_TAG && t[|b|..|b| + l] == PAGES_TAG;
    if |a| < |b| {
      EarlierTagIsInside(a, x, b, y);
    }
    if |b| < |a| {
      EarlierTagIsInside(b, y, a, x);
    }
    assert s[..|a|] == a && t[..|b|] == b && s[|a| + l..] == x && t[|b| + l..] == y;
  }

  lemma EarlierTagIsInside(a: string, x: string, b: string, y: string)
    requires a + PAGES_TAG + x == b + PAGES_TAG + y && |a| < |b|
    ensures Contains(b, PAGES_TAG)
  {
    var s, t, l := a + PAGES_TAG + x, b + PAGES_TAG + y, |PAGES_TAG|;
    assert forall d | 0 <= d < l :: s[|a| + d] == PAGES_TAG[d];
    assert forall d | 1 <= d < l :: PAGES_TAG[d] != ' ';
    assert t[|b|] == PAGES_TAG[0] == ' ';
    assert s[|a| + (|b| - |a|)] == ' ';
    assert |a| + l <= |b|;
    assert b[|a|..|a| + l] == t[|a|..|a| + l] == s[|a|..|a| + l] == PAGES_TAG;
    assert MatchAt(b, |a|, PAGES_TAG);
  }

  /** Equal layout keys come from the same route and the same parameters. The page list is part of the route: routes
      are a table, so one path has one list. */
  lemma LayoutKeyInjective(a: string, p: string, m: Params, b: string, q: string, n: Params)
    requires !Contains(a, PAGES_TAG) && !Contains(b, PAGES_TAG) && PlainNames(m) && PlainNames(n)
    requires a == b ==> p == q
    requires LayoutKey(a, p, m) == LayoutKey(b, q, n)
    ensures a == b && m == n
  {
    var u := if m == map[] then "" else "?" + Joined(Ordered(m.Keys), m);
    var v := if n == map[] then "" else "?" + Joined(Ordered(n.Keys), n);
    Regroup(a + PAGES_TAG, p, u);
    Regroup(b + PAGES_TAG, q, v);
    PathBeforeTag(a, p + u, b, q + v);
    assert (p + u)[|p|..] == u && (q + v)[|p|..] == v;
    if m != map[] {
      ParamsInjective(m, n);
    }
  }

  lemma ParamsInjective(m: Params, n: Params)
    requires m != map[] && n != map[] && PlainNames(m) && PlainNames(n)
    requires "?" + Joined(Ordered(m.Keys), m) == "?" + Joined(Ordered(n.Keys), n)
    ensures m == n
  {
    var u, v := "?" + Joined(Ordered(m.Keys), m), "?" + Joined(Ordered(n.Keys), n);
    assert u[1..] == Joined(Ordered(m.Keys), m) && v[1..] == Joined(Ordered(n.Keys), n);
    JoinedInjective(Ordered(m.Keys), m, Ordered(n.Keys), n);
    SameOrderSameMap(m, n);
  }

  /** An artefact name does not start with "/" and a route path does, so the two kinds of keys never meet. */
  lemma KindsApart(name: string, m: Params, path: string, p: string, n: Params)
    requires (name == "" || name[0] != '/') && path != "" && path[0] == '/'
    ensures ArtefactKey(name, m) != LayoutKey(path, p, n)
  {
    assert LayoutKey(path, p, n)[0] == '/';
    if name == "" && Ordered(m.Keys) != [] {
      assert ArtefactKey(name, m)[0] == '?';
    }
  }

  // Two equal keys over paths of different lengths place the tag twice, so the longer path holds the earlier one.
  lemma SharedKeyHasTag(a: string, p: string, m: Params, path: string, q: string, n: Params)
    requires |a| < |path| && LayoutKey(a, p, m) == LayoutKey(path, q, n)
    ensures Contains(path, PAGES_TAG)
  {
    var u := if m == map[] then "" else "?" + Joined(Ordered(m.Keys), m);
    var v := if n == map[] then "" else "?" + Joined(Ordered(n.Keys), n);
    Regroup(a + PAGES_TAG, p, u);
    Regroup(path + PAGES_TAG, q, v);
    EarlierTagIsInside(a, p + u, path, q + v);
  }

  /** A tag inside a path reads as well as the tag behind a shorter path. */
  lemma TagMovesOver(a: string, c: string, q: string, n: Params)
    ensures LayoutKey(a + PAGES_TAG + c, q, n) == LayoutKey(a, c + PAGES_TAG + q, n)
  {
    assert a + PAGES_TAG + c + PAGES_TAG + q == a + PAGES_TAG + (c + PAGES_TAG + q);
  }

  /** Which paths can share a key with a shorter path: exactly those that contain the tag. */
  lemma SharesWithShorterIff(path: string)
    ensures (exists a, p, m, q, n :: |a| < |path| && LayoutKey(a, p, m) == LayoutKey(path, q, n))
            <==> Contains(path, PAGES_TAG)
  {
    if a, p, m, q, n :| |a| < |path| && LayoutKey(a, p, m) == LayoutKey(path, q, n) {
      SharedKeyHasTag(a, p, m, path, q, n);
    }
    if Contains(path, PAGES_TAG) {
      var i :| 0 <= i <= |path| && MatchAt(path, i, PAGES_TAG);
      var a, c := path[..i], path[i + |PAGES_TAG|..];
      assert path == a + PAGES_TAG + c;
      TagMovesOver(a, c, "", map[]);
      assert |a| < |path| && LayoutKey(a, c + PAGES_TAG + "", map[]) == LayoutKey(path, "", map[]);
    }
  }

  /** The text of a single entry with a single param. */
  lemma OneParamText(page: string, x: string, v: string)
    ensures PagesText([PageRef(page, map[x := v])]) == page + "#" + x + "=" + v
  {
    var ref := PageRef(page, map[x := v]);
    assert Sorting.SortBy(Self, [x]) == [x] && [x][1..] == [];
    SortedList([x], {x});
    OrderedIsUnique([x], {x});
    assert ref.params.Keys == {x};
    assert Parts([x], ref.params) == [x + "=" + v];
    OneText(x + "=" + v);
    assert RefKey(ref) == page + ("#" + (x + "=" + v));
    assert RefKeys([ref]) == [RefKey(ref)];
    OneText(RefKey(ref));
  }

  lemma OneText(t: string)
    ensures Sorting.SortBy(Self, [t]) == [t] && Join([t], ",") == t && Join([t], ";") == t
  {
    assert [t][1..] == [];
  }

  lemma NoParamText(page: string)
    ensures PagesText([PageRef(page, map[])]) == page
  {
    var ref := PageRef(page, map[]);
    assert RefKey(ref) == page + "" == page;
    assert RefKeys([ref]) == [page];
    OneText(page);
  }

  /** With entry params this does come about: a route with page p and a param value that holds the tag and a page name
      shares its key with a longer route that lists the page q. */
  lemma TaggedPathCollides(m: Params)
    ensures LayoutKey("/a", PagesText([PageRef("p", map["x" := "1 layoutPages:q"])]), m)
         == LayoutKey("/a layoutPages:p#x=1", PagesText([PageRef("q", map[])]), m)
  {
    OneParamText("p", "x", "1 layoutPages:q");
    NoParamText("q");
    assert "p" + "#" + "x" + "=" + "1 layoutPages:q" == "p#x=1" + PAGES_TAG + "q";
    assert "/a layoutPages:p#x=1" == "/a" + PAGES_TAG + "p#x=1";
    TagMovesOver("/a", "p#x=1", "q", m);
  }
}
