/** String operations of Go's strings and path packages that several modules use. */
module Text {

  datatype Option<+T> = None | Some(value: T)

  /** All values, or None when one is missing. */
  function AllOf<T>(xs: seq<Option<T>>): Option<seq<T>> {
    if forall i | 0 <= i < |xs| :: xs[i].Some? then Some(seq(|xs|, i requires 0 <= i < |xs| => xs[i].value)) else None
  }

  lemma NotAllOf<T>(xs: seq<Option<T>>, i: nat)
    requires i < |xs| && xs[i].None?
    ensures AllOf(xs).None?
  {
  }

  lemma AllOfNothing<T>(xs: seq<Option<T>>)
    ensures AllOf(xs[..0]) == Some([]) && xs[..|xs|] == xs
  {
    assert AllOf(xs[..0]).value == [];
  }

  lemma AllOfNext<T>(xs: seq<Option<T>>, i: nat, vs: seq<T>)
    requires i < |xs| && xs[i].Some? && AllOf(xs[..i]) == Some(vs)
    ensures AllOf(xs[..i + 1]) == Some(vs + [xs[i].value])
  {
    assert AllOf(xs[..i + 1]).value == vs + [xs[i].value];
  }

  /** sub occurs in s at offset i. */
  predicate MatchAt(s: string, i: nat, sub: string) {
    i + |sub| <= |s| && s[i..i + |sub|] == sub
  }

  predicate Contains(s: string, sub: string) {
    exists i | 0 <= i <= |s| :: MatchAt(s, i, sub)
  }

  /** The position of the first c in s, or the length of s. */
  function IndexOf(s: string, c: char): (i: nat)
    ensures i <= |s| && (i < |s| ==> s[i] == c) && forall j | 0 <= j < i :: s[j] != c
  {
    if s == "" || s[0] == c then 0 else 1 + IndexOf(s[1..], c)
  }

  /** The part of s after its last c, or s itself. */
  function AfterLast(s: string, c: char): (r: string)
    ensures c !in r && |r| <= |s|
  {
    if s == [] then s
    else if s[|s| - 1] == c then []
    else AfterLast(s[..|s| - 1], c) + [s[|s| - 1]]
  }

  /** s without its trailing characters equal to c. */
  function TrimRight(s: string, c: char): (r: string)
    ensures r <= s && (r == [] || r[|r| - 1] != c)
    ensures forall i | |r| <= i < |s| :: s[i] == c
  {
    if s == [] || s[|s| - 1] != c then s else TrimRight(s[..|s| - 1], c)
  }

  /** path.Base of Go for slash paths. */
  function Base(p: string): string {
    if p == "" then "."
    else
      var t := TrimRight(p, '/');
      if t == "" then "/" else AfterLast(t, '/')
  }

  lemma AfterLastOf(dir: string, c: char, file: string)
    requires c !in file
    ensures AfterLast(dir + [c] + file, c) == file
  {
    var s := dir + [c] + file;
    if file == [] {
      assert s[|s| - 1] == c;
    } else {
      assert s[|s| - 1] == file[|file| - 1];
      assert s[..|s| - 1] == dir + [c] + file[..|file| - 1];
      AfterLastOf(dir, c, file[..|file| - 1]);
    }
  }

  /** A file name appended to a directory is the base of the joined path. */
  lemma BaseOfJoined(dir: string, file: string)
    requires file != [] && '/' !in file
    ensures Base(dir + "/" + file) == file
  {
    var s := dir + "/" + file;
    assert s[|s| - 1] == file[|file| - 1];
    AfterLastOf(dir, '/', file);
  }

  lemma BaseOfFile(file: string)
    requires file != "" && '/' !in file
    ensures Base(file) == file
  {
    NothingToCut(file, '/');
  }

  lemma {:induction false} NothingToCut(s: string, c: char)
    requires c !in s
    ensures AfterLast(s, c) == s
  {
    if s != [] {
      NothingToCut(s[..|s| - 1], c);
      assert s == s[..|s| - 1] + [s[|s| - 1]];
    }
  }

  // -------------------------------------------------------------- white space

  /** unicode.IsSpace. */
  predicate IsSpace(c: char) {
    || c == ' ' || '\t' <= c <= '\r'
    || c == '\U{85}' || c == '\U{A0}' || c == '\U{1680}' || '\U{2000}' <= c <= '\U{200A}'
    || c == '\U{2028}' || c == '\U{2029}' || c == '\U{202F}' || c == '\U{205F}' || c == '\U{3000}'
  }

  predicate Blank(s: string) {
    forall i | 0 <= i < |s| :: IsSpace(s[i])
  }

  /** strings.TrimSpace. */
  function TrimSpace(s: string): (r: string)
    ensures r == "" <==> Blank(s)
    ensures r != "" ==> !IsSpace(r[0]) && !IsSpace(r[|r| - 1])
    ensures s != "" && !IsSpace(s[0]) && !IsSpace(s[|s| - 1]) ==> r == s
    decreases |s|
  {
    if s == "" then ""
    else if IsSpace(s[0]) then TrimSpace(s[1..])
    else if IsSpace(s[|s| - 1]) then TrimSpace(s[..|s| - 1])
    else s
  }

  lemma {:induction false} TrimSpaceKeeps(s: string, c: char)
    ensures c in TrimSpace(s) ==> c in s
    ensures c in s && !IsSpace(c) ==> c in TrimSpace(s)
    decreases |s|
  {
    if s == "" {
    } else if IsSpace(s[0]) {
      assert s == [s[0]] + s[1..];
      TrimSpaceKeeps(s[1..], c);
    } else if IsSpace(s[|s| - 1]) {
      assert s == s[..|s| - 1] + [s[|s| - 1]];
      TrimSpaceKeeps(s[..|s| - 1], c);
    }
  }
}
