/** Cutting text at a separator, and putting the parts together again. */
module Splitting {
  /** strings.Split for a separator of one character. */
  function Split(s: string, c: char): (r: seq<string>)
    ensures r != [] && forall i | 0 <= i < |r| :: c !in r[i]
  {
    if s == "" then [""]
    else if s[0] == c then [""] + Split(s[1..], c)
    else
      var r := Split(s[1..], c);
      [[s[0]] + r[0]] + r[1..]
  }

  /** strings.Join. */
  function Join(parts: seq<string>, sep: string): string {
    if parts == [] then "" else if |parts| == 1 then parts[0] else parts[0] + sep + Join(parts[1..], sep)
  }

  lemma {:induction false} SplitOfJoined(c: char, a: string, b: string)
    ensures Split(a + [c] + b, c) == Split(a, c) + Split(b, c)
  {
    var s := a + [c] + b;
    if a == "" {
      assert s[1..] == b;
    } else {
      assert s[1..] == a[1..] + [c] + b;
      SplitOfJoined(c, a[1..], b);
    }
  }

  lemma {:induction false} SplitWhole(c: char, s: string)
    requires c !in s
    ensures Split(s, c) == [s]
  {
    if s != "" {
      SplitWhole(c, s[1..]);
      assert [s[0]] + s[1..] == s;
    }
  }

  /** A string is cut at its first separator in one way. */
  lemma {:induction false} FirstCut(c: char, x: string, y: string, s: string, t: string)
    requires c !in x && c !in y && x + [c] + s <= y + [c] + t
    ensures x == y && s <= t
  {
    var a, b := x + [c] + s, y + [c] + t;
    assert a[0] == b[0];
    assert x != "" ==> a[0] == x[0] && a[0] in x;
    assert y != "" ==> b[0] == y[0] && b[0] in y;
    assert a[1..] == b[1..][..|a| - 1];
    if x != "" && y != "" {
      assert a[1..] == x[1..] + [c] + s && b[1..] == y[1..] + [c] + t;
      FirstCut(c, x[1..], y[1..], s, t);
      assert x == [x[0]] + x[1..] && y == [y[0]] + y[1..];
    } else {
      assert a[1..] == s && b[1..] == t;
    }
  }

  predicate Free(c: char, parts: seq<string>) {
    forall i | 0 <= i < |parts| :: c !in parts[i]
  }

  lemma JoinHasCut(c: char, parts: seq<string>)
    ensures |parts| > 1 ==> c in Join(parts, [c])
  {
    if |parts| > 1 {
      assert Join(parts, [c])[|parts[0]|] == c;
    }
  }

  lemma CutInside(c: char, a: string, s: string)
    ensures a + [c] <= s ==> c in s
  {
    if a + [c] <= s {
      assert s[|a|] == (a + [c])[|a|];
    }
  }

  lemma {:induction false} JoinIsInjective(c: char, a: seq<string>, b: seq<string>)
    requires Free(c, a) && Free(c, b) && a != [] && b != [] && Join(a, [c]) == Join(b, [c])
    ensures a == b
  {
    if |a| > 1 && |b| > 1 {
      FirstCut(c, a[0], b[0], Join(a[1..], [c]), Join(b[1..], [c]));
      assert |Join(a, [c])| == |a[0]| + 1 + |Join(a[1..], [c])| && |Join(b, [c])| == |b[0]| + 1 + |Join(b[1..], [c])|;
      JoinIsInjective(c, a[1..], b[1..]);
    } else {
      JoinHasCut(c, a);
      JoinHasCut(c, b);
    }
  }

  /** Joined parts and a separator begin another joined text exactly if they begin its parts. */
  lemma {:induction false} PrefixByParts(c: char, a: seq<string>, b: seq<string>)
    requires Free(c, a) && Free(c, b) && a != [] && b != []
    ensures Join(a, [c]) + [c] <= Join(b, [c]) <==> a < b
  {
    if |b| == 1 {
      CutInside(c, Join(a, [c]), Join(b, [c]));
    } else if |a| == 1 {
      if Join(a, [c]) + [c] <= Join(b, [c]) {
        FirstCut(c, a[0], b[0], "", Join(b[1..], [c]));
      }
      if a < b {
        assert a[0] == b[0];
      }
    } else {
      PrefixByParts(c, a[1..], b[1..]);
      assert Join(a, [c]) + [c] == a[0] + [c] + (Join(a[1..], [c]) + [c]);
      if Join(a, [c]) + [c] <= Join(b, [c]) {
        FirstCut(c, a[0], b[0], Join(a[1..], [c]) + [c], Join(b[1..], [c]));
        assert a == [a[0]] + a[1..] && b == [b[0]] + b[1..];
      }
      if a < b {
        assert a[0] == b[0] && a[1..] < b[1..];
        assert Join(b, [c]) == (b[0] + [c]) + Join(b[1..], [c]);
      }
    }
  }
}
