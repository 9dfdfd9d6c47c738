/** Byte-wise string order and sorting by a string key, as Go's sort package does it. */
module Sorting {

  predicate StrLe(a: string, b: string) {
    if a == [] then true
    else if b == [] then false
    else a[0] < b[0] || (a[0] == b[0] && StrLe(a[1..], b[1..]))
  }

  lemma StrLeTotal(a: string, b: string)
    ensures StrLe(a, b) || StrLe(b, a)
  {
  }

  lemma {:induction false} StrLeAntisymmetric(a: string, b: string)
    requires StrLe(a, b) && StrLe(b, a)
    ensures a == b
  {
    if a != [] && b != [] {
      StrLeAntisymmetric(a[1..], b[1..]);
      assert a == [a[0]] + a[1..] && b == [b[0]] + b[1..];
    }
  }

  lemma {:induction false} StrLeTransitive(a: string, b: string, c: string)
    requires StrLe(a, b) && StrLe(b, c)
    ensures StrLe(a, c)
  {
    if a != [] && a[0] == b[0] && b[0] == c[0] {
      StrLeTransitive(a[1..], b[1..], c[1..]);
    }
  }

  ghost predicate SortedBy<T(!new)>(key: T -> string, s: seq<T>) {
    forall i, j | 0 <= i < j < |s| :: StrLe(key(s[i]), key(s[j]))
  }

  function InsertBy<T>(key: T -> string, x: T, s: seq<T>): seq<T> {
    if s == [] || StrLe(key(x), key(s[0])) then [x] + s
    else [s[0]] + InsertBy(key, x, s[1..])
  }

  /** s in the order of its keys. */
  function SortBy<T>(key: T -> string, s: seq<T>): seq<T> {
    if s == [] then [] else InsertBy(key, s[0], SortBy(key, s[1..]))
  }

  lemma {:induction false} InsertByKeeps<T(!new)>(key: T -> string, x: T, s: seq<T>)
    ensures multiset(InsertBy(key, x, s)) == multiset(s) + multiset{x}
  {
    if s == [] || StrLe(key(x), key(s[0])) {
    } else {
      InsertByKeeps(key, x, s[1..]);
      assert s == [s[0]] + s[1..];
    }
  }

  lemma {:induction false} InsertBySorts<T(!new)>(key: T -> string, x: T, s: seq<T>)
    requires SortedBy(key, s)
    ensures SortedBy(key, InsertBy(key, x, s))
  {
    var r := InsertBy(key, x, s);
    if s == [] {
    } else if StrLe(key(x), key(s[0])) {
      forall j | 0 < j < |r| ensures StrLe(key(r[0]), key(r[j])) {
        StrLeTotal(key(s[0]), key(s[0]));
        StrLeTransitive(key(x), key(s[0]), key(s[j - 1]));
      }
    } else {
      InsertBySorts(key, x, s[1..]);
      InsertByKeeps(key, x, s[1..]);
      StrLeTotal(key(x), key(s[0]));
      forall j | 0 < j < |r| ensures StrLe(key(r[0]), key(r[j])) {
        assert r[j] == r[1..][j - 1];
        assert r[j] in multiset(InsertBy(key, x, s[1..]));
        assert r[j] in s[1..] || r[j] == x;
      }
    }
  }

  lemma {:induction false} SortByKeeps<T(!new)>(key: T -> string, s: seq<T>)
    ensures multiset(SortBy(key, s)) == multiset(s)
  {
    if s != [] {
      SortByKeeps(key, s[1..]);
      InsertByKeeps(key, s[0], SortBy(key, s[1..]));
      assert s == [s[0]] + s[1..];
    }
  }

  lemma {:induction false} SortBySorts<T(!new)>(key: T -> string, s: seq<T>)
    ensures SortedBy(key, SortBy(key, s))
  {
    if s != [] {
      SortBySorts(key, s[1..]);
      InsertBySorts(key, s[0], SortBy(key, s[1..]));
    }
  }

  /** Sorting returns the same elements in key order. */
  lemma SortByCorrect<T(!new)>(key: T -> string, s: seq<T>)
    ensures multiset(SortBy(key, s)) == multiset(s)
    ensures SortedBy(key, SortBy(key, s))
    ensures |SortBy(key, s)| == |s|
    ensures forall x :: x in SortBy(key, s) <==> x in s
  {
    SortByKeeps(key, s);
    SortBySorts(key, s);
    SameElements(SortBy(key, s), s);
  }

  lemma SameElements<T(!new)>(a: seq<T>, b: seq<T>)
    requires multiset(a) == multiset(b)
    ensures |a| == |b| && forall x :: x in a <==> x in b
  {
    assert |multiset(a)| == |multiset(b)|;
    forall x ensures x in a <==> x in b {
      assert x in a <==> x in multiset(a);
    }
  }

  ghost predicate DistinctKeys<T(!new)>(key: T -> string, s: seq<T>) {
    forall i, j | 0 <= i < j < |s| :: key(s[i]) != key(s[j])
  }

  /** A key-sorted sequence with distinct keys is determined by its set of elements. */
  lemma {:induction false} SortedIsUnique<T(!new)>(key: T -> string, a: seq<T>, b: seq<T>)
    requires SortedBy(key, a) && SortedBy(key, b)
    requires DistinctKeys(key, a) && DistinctKeys(key, b)
    requires forall x :: x in a <==> x in b
    ensures a == b
  {
    if a == [] {
      assert forall i | 0 <= i < |b| :: b[i] in a;
    } else {
      assert a[0] in b;
      assert b[0] in a;
      var i :| 0 <= i < |a| && a[i] == b[0];
      var j :| 0 <= j < |b| && b[j] == a[0];
      StrLeTotal(key(a[0]), key(a[0]));
      assert StrLe(key(a[0]), key(a[i])) && StrLe(key(b[0]), key(b[j]));
      StrLeAntisymmetric(key(a[0]), key(b[0]));
      assert i == 0;
      assert a == [a[0]] + a[1..] && b == [b[0]] + b[1..];
      forall x ensures x in a[1..] <==> x in b[1..] {
        assert x in a[1..] <==> x in a && x != a[0];
        assert x in b[1..] <==> x in b && x != b[0];
      }
      SortedIsUnique(key, a[1..], b[1..]);
    }
  }

  lemma {:induction false} DistinctKeysOfPermutation<T(!new)>(key: T -> string, a: seq<T>, b: seq<T>)
    requires DistinctKeys(key, a) && multiset(a) == multiset(b)
    ensures DistinctKeys(key, b)
  {
    forall i, j | 0 <= i < j < |b| ensures key(b[i]) != key(b[j]) {
      assert b[i] in multiset(a) && b[j] in multiset(a);
      if b[i] == b[j] {
        assert b == b[..i] + [b[i]] + b[i + 1..j] + [b[j]] + b[j + 1..];
        assert multiset(a)[b[i]] >= 2;
        OccursOnce(key, a, b[i]);
      }
    }
  }

  lemma {:induction false} OccursOnce<T(!new)>(key: T -> string, a: seq<T>, x: T)
    requires DistinctKeys(key, a)
    ensures multiset(a)[x] <= 1
  {
    if a != [] {
      assert a == [a[0]] + a[1..];
      OccursOnce(key, a[1..], x);
      if x == a[0] {
        assert x !in a[1..];
      }
    }
  }
}
