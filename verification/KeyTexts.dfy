/** How cache keys are written: the separators, and the order of what they separate. */
module KeyTexts {
  import opened Text
  import opened Splitting
  import opened QueryEscape
  import opened CacheKeys
  import Sorting

  /** k comes before l in a key. */
  predicate Precedes(k: string, l: string) {
    k != l && Sorting.StrLe(k, l)
  }

  lemma TwoInOrder(k: string, l: string)
    requires Precedes(k, l)
    ensures Ordered({k, l}) == [k, l]
  {
    OrderedIsUnique([k, l], {k, l});
  }

  lemma TwoSorted(k: string, l: string)
    requires Sorting.StrLe(k, l)
    ensures Sorting.SortBy(Self, [k, l]) == [k, l] == Sorting.SortBy(Self, [l, k])
  {
    OneText(k);
    OneText(l);
    assert [k, l][1..] == [l] && [l, k][1..] == [k] && [k][1..] == [];
    assert Sorting.SortBy(Self, [k, l]) == Sorting.InsertBy(Self, k, [l]);
    assert Sorting.SortBy(Self, [l, k]) == Sorting.InsertBy(Self, l, [k]);
    if Sorting.StrLe(l, k) {
      Sorting.StrLeAntisymmetric(k, l);
    }
  }

  /** Each request param of an artefact comes behind a "?". */
  lemma ArtefactKeyText(name: string, k: string, v: ByteString, l: string, w: ByteString)
    requires Precedes(k, l)
    ensures ArtefactKey(name, map[]) == name
    ensures ArtefactKey(name, map[k := v, l := w]) == name + "?" + k + "=" + Escape(v) + "?" + l + "=" + Escape(w)
  {
    var m: Params := map[k := v, l := w];
    assert m.Keys == {k, l};
    TwoInOrder(k, l);
    TwoPairs(k, l, m);
    var none: Params := map[];
    assert none.Keys == {};
    OrderedIsUnique([], {});
    assert name + "?" + k + "=" + Escape(v) + "?" + l + "=" + Escape(w) == name + (Pair(k, v) + Pair(l, w));
  }

  lemma TwoPairs(k: string, l: string, m: Params)
    requires k in m && l in m
    ensures Pairs([k, l], m) == Pair(k, m[k]) + Pair(l, m[l])
  {
    assert [k, l][1..] == [l] && [l][1..] == [];
    assert Pairs([l], m) == Pair(l, m[l]) + "";
  }

  /** Those of a layout come behind one "?", with "&" between them. */
  lemma LayoutKeyText(path: string, pages: string, k: string, v: ByteString, l: string, w: ByteString)
    requires Precedes(k, l)
    ensures LayoutKey(path, pages, map[]) == path + " layoutPages:" + pages
    ensures LayoutKey(path, pages, map[k := v, l := w]) ==
            path + " layoutPages:" + pages + "?" + (k + "=" + Escape(v) + "&" + (l + "=" + Escape(w)))
  {
    var m: Params := map[k := v, l := w];
    assert m.Keys == {k, l};
    TwoInOrder(k, l);
    assert [k, l][1..] == [l];
    assert Joined([l], m) == l + "=" + Escape(w);
  }

  /** The params of an entry come behind a "#", with "," between them, and the entries with ";", each in text order. */
  lemma PagesTextOfTwo(page: string, k: string, v: string, l: string, w: string, other: string)
    requires Precedes(k, l) && Sorting.StrLe(k + "=" + v, l + "=" + w)
    requires Sorting.StrLe(page + "#" + (k + "=" + v + "," + (l + "=" + w)), other)
    ensures PagesText([PageRef(other, map[]), PageRef(page, map[k := v, l := w])]) ==
            page + "#" + (k + "=" + v + "," + (l + "=" + w)) + ";" + other
  {
    var ref, plain := PageRef(page, map[k := v, l := w]), PageRef(other, map[]);
    TwoParams(page, k, v, l, w);
    assert RefKey(plain) == other + "" == other;
    TwoSorted(RefKey(ref), other);
    assert RefKeys([plain, ref]) == [other, RefKey(ref)];
    TwoJoined(RefKey(ref), other, ";");
  }

  lemma TwoParams(page: string, k: string, v: string, l: string, w: string)
    requires Precedes(k, l) && Sorting.StrLe(k + "=" + v, l + "=" + w)
    ensures RefKey(PageRef(page, map[k := v, l := w])) == page + "#" + (k + "=" + v + "," + (l + "=" + w))
  {
    var ref := PageRef(page, map[k := v, l := w]);
    assert ref.params.Keys == {k, l};
    TwoInOrder(k, l);
    assert [k, l][1..] == [l] && [l][1..] == [];
    assert Parts([l], ref.params) == [l + "=" + w];
    assert Parts([k, l], ref.params) == [k + "=" + v, l + "=" + w];
    TwoSorted(k + "=" + v, l + "=" + w);
    TwoJoined(k + "=" + v, l + "=" + w, ",");
  }

  lemma TwoJoined(a: string, b: string, sep: string)
    ensures Join([a, b], sep) == a + sep + b
  {
    assert [a, b][1..] == [b];
  }

  /** A name of letters, digits and "_" imitates no separator of a key. */
  lemma IdentifierIsPlain(k: string)
    requires forall c | c in k :: 'A' <= c <= 'Z' || 'a' <= c <= 'z' || '0' <= c <= '9' || c == '_'
    ensures PlainName(k)
  {
  }

  /** A value of letters, digits, "-", "_", "." and "~" stands for itself, and a space is a "+". */
  lemma {:induction false} PlainValueStays(v: ByteString)
    requires forall c | c in v :: 'A' <= c <= 'Z' || 'a' <= c <= 'z' || '0' <= c <= '9' || c in "-_.~"
    ensures Escape(v) == v && Escape(" ") == "+"
  {
    assert " "[1..] == "";
    if v != "" {
      PlainValueStays(v[1..]);
      assert v[0] in v && Unreserved(v[0]);
      assert Escape(v) == [v[0]] + v[1..];
    }
  }

  /** Any other byte is "%" and two upper-case hexadecimal digits. */
  lemma OtherByteIsPercent(c: char)
    requires c as int < 256 && c != ' ' && c !in "-_.~"
    requires !('A' <= c <= 'Z') && !('a' <= c <= 'z') && !('0' <= c <= '9')
    ensures Escape([c]) == "%" + [Digits()[c as int / 16], Digits()[c as int % 16]]
  {
    assert [c][1..] == "" && !Unreserved(c);
    DigitIsListed(c as int / 16);
    DigitIsListed(c as int % 16);
  }

  function Digits(): (s: string)
    ensures |s| == 16
  {
    "0123456789ABCDEF"
  }

  lemma DigitIsListed(n: nat)
    requires n < 16
    ensures HexDigit(n) == Digits()[n]
  {
  }
}
