/** Clean paths, and the guard that keeps the entries of an archive inside the destination. */
module ArchivePaths {
  import opened Text
  import opened Splitting

  /** A cleaned path: rooted or not, and its parts. */
  datatype Path = Path(rooted: bool, parts: seq<string>)

  // --------------------------------------------------------- cleaning paths

  /** One part of a path is followed: empty parts and dots stay, two dots go up as far as that is possible. */
  function Follow(at: Path, part: string): Path {
    var n := |at.parts|;
    if part == "" || part == "." then at
    else if part == ".." then
      if n > 0 && at.parts[n - 1] != ".." then at.(parts := at.parts[..n - 1])
      else if at.rooted then at
      else at.(parts := at.parts + [".."])
    else at.(parts := at.parts + [part])
  }

  function FollowAll(at: Path, parts: seq<string>): Path
    decreases |parts|
  {
    if parts == [] then at else FollowAll(Follow(at, parts[0]), parts[1..])
  }

  /** filepath.Clean, as the parts of its result. */
  function Clean(s: string): Path {
    FollowAll(Path(s != "" && s[0] == '/', []), Split(s, '/'))
  }

  function Shown(p: Path): string {
    if p.rooted then "/" + Join(p.parts, "/") else if p.parts == [] then "." else Join(p.parts, "/")
  }

  /** filepath.Join of two elements that are not both empty: an empty one is left out. */
  function JoinPaths(dest: string, name: string): Path {
    if dest == "" then Clean(name) else if name == "" then Clean(dest) else Clean(dest + "/" + name)
  }

  function Parent(p: Path): Path {
    if p.parts == [] then p else p.(parts := p.parts[..|p.parts| - 1])
  }

  predicate Plain(part: string) {
    part != "" && part != "." && part != ".." && '/' !in part
  }

  /** The parts of a cleaned path: some leading ".." when it is not rooted, then plain parts. */
  predicate Canonical(p: Path) {
    && (forall i | 0 <= i < |p.parts| :: Plain(p.parts[i]) || (p.parts[i] == ".." && !p.rooted))
    && (forall i | 0 < i < |p.parts| :: p.parts[i] == ".." ==> p.parts[i - 1] == "..")
  }

  lemma {:induction false} FollowAllIsCanonical(at: Path, parts: seq<string>)
    requires Canonical(at) && forall i | 0 <= i < |parts| :: '/' !in parts[i]
    ensures Canonical(FollowAll(at, parts)) && FollowAll(at, parts).rooted == at.rooted
    decreases |parts|
  {
    if parts != [] {
      FollowAllIsCanonical(Follow(at, parts[0]), parts[1..]);
    }
  }

  lemma CleanIsCanonical(s: string)
    ensures Canonical(Clean(s)) && Clean(s).rooted == (s != "" && s[0] == '/')
  {
    FollowAllIsCanonical(Path(s != "" && s[0] == '/', []), Split(s, '/'));
  }

  lemma {:induction false} FollowAllOfTwo(at: Path, a: seq<string>, b: seq<string>)
    ensures FollowAll(at, a + b) == FollowAll(FollowAll(at, a), b)
    decreases |a|
  {
    if a == [] {
      assert a + b == b;
    } else {
      assert (a + b)[1..] == a[1..] + b;
      FollowAllOfTwo(Follow(at, a[0]), a[1..], b);
    }
  }

  /** The joined path is reached by following the name from the cleaned destination. */
  lemma JoinFollowsName(dest: string, name: string)
    requires dest != ""
    ensures JoinPaths(dest, name) == FollowAll(Clean(dest), Split(name, '/'))
  {
    if name != "" {
      SplitOfJoined('/', dest, name);
      FollowAllOfTwo(Path(dest[0] == '/', []), Split(dest, '/'), Split(name, '/'));
    }
  }

  // --------------------------------------------------------------- the guard

  /** The text of filepath.Join: nothing joined is the empty text, not ".". */
  function JoinText(dest: string, name: string): string {
    if dest == "" && name == "" then "" else Shown(JoinPaths(dest, name))
  }

  /** sanitizeArchivePath. */
  function Sanitize(dest: string, name: string): Option<Path> {
    var target := JoinText(dest, name);
    var clean := Shown(Clean(dest));
    if !(clean <= target) then None
    else if target != clean && !(clean + "/" <= target) then None
    else Some(JoinPaths(dest, name))
  }

  /** The parts of p go on from the parts of the destination. A destination without parts, "/" or ".", has only
      itself. */
  predicate Extends(d: Path, p: Path) {
    p == d || (d.parts != [] && p.rooted == d.rooted && d.parts < p.parts)
  }

  lemma JoinStart(parts: seq<string>)
    requires parts != [] && forall i | 0 <= i < |parts| :: parts[i] != ""
    ensures parts[0] <= Join(parts, "/") && Join(parts, "/") != ""
    ensures |parts| > 1 ==> |Join(parts, "/")| > |parts[0]| && Join(parts, "/")[|parts[0]|] == '/'
  {
  }

  lemma ShownIsInjective(p: Path, q: Path)
    requires Canonical(p) && Canonical(q) && Shown(p) == Shown(q)
    ensures p == q
  {
    CanonicalShown(p);
    CanonicalShown(q);
    if p.parts != [] && q.parts != [] {
      if p.rooted {
        assert Shown(p)[1..] == Join(p.parts, "/") && Shown(q)[1..] == Join(q.parts, "/");
      }
      JoinIsInjective('/', p.parts, q.parts);
    }
  }

  lemma CanonicalShown(p: Path)
    requires Canonical(p)
    ensures Shown(p) != "" && (Shown(p)[0] == '/' <==> p.rooted)
    ensures p.rooted ==> (Shown(p) == "/" <==> p.parts == []) && !("//" <= Shown(p))
    ensures !p.rooted ==> (Shown(p) == "." <==> p.parts == []) && !("./" <= Shown(p))
  {
    if p.parts != [] {
      JoinStart(p.parts);
      assert Join(p.parts, "/")[0] == p.parts[0][0];
      if !p.rooted && "./" <= Shown(p) {
        DotStart(p.parts);
      }
      if p.rooted { assert Shown(p)[1] == p.parts[0][0]; }
    }
  }

  /** The text of parts that begins with a dot and a slash begins with the part ".". */
  lemma DotStart(parts: seq<string>)
    requires Free('/', parts) && parts != [] && parts[0] != "" && "./" <= Join(parts, "/")
    ensures parts[0] == "."
  {
    CutInside('/', ".", parts[0]);
    if |parts| > 1 {
      FirstCut('/', ".", parts[0], "", Join(parts[1..], "/"));
    }
  }

  lemma SameStart(a: string, s: string)
    requires a != ""
    ensures a <= s ==> s != "" && s[0] == a[0]
  {
  }

  /** The two tests on strings accept a target exactly if its parts extend those of the destination, and something was
      joined. */
  lemma SanitizeIsExact(dest: string, name: string)
    ensures Sanitize(dest, name) == if (dest != "" || name != "") && Extends(Clean(dest), JoinPaths(dest, name))
                                    then Some(JoinPaths(dest, name)) else None
  {
    CleanEmpty();
    var d, t := Clean(dest), JoinPaths(dest, name);
    CleanIsCanonical(dest);
    CleanIsCanonical(name);
    CleanIsCanonical(dest + "/" + name);
    ExtendsByText(d, t);
  }

  lemma ExtendsByText(d: Path, t: Path)
    requires Canonical(d) && Canonical(t)
    ensures Extends(d, t) <==> Shown(d) == Shown(t) || Shown(d) + "/" <= Shown(t)
    ensures Extends(d, t) ==> Shown(d) <= Shown(t)
  {
    CanonicalShown(d);
    CanonicalShown(t);
    if Shown(d) == Shown(t) { ShownIsInjective(d, t); }
    if d.parts == [] {
      assert Shown(d) + "/" == if d.rooted then "//" else "./";
      SameStart(Shown(d) + "/", Shown(t));
    } else if t.parts != [] && d.rooted == t.rooted {
      PrefixByParts('/', d.parts, t.parts);
      if d.rooted {
        assert Shown(d) + "/" == "/" + (Join(d.parts, "/") + "/");
        UnderRoot(Join(d.parts, "/") + "/", Join(t.parts, "/"));
      }
    } else {
      SameStart(Shown(d) + "/", Shown(t));
    }
  }

  lemma UnderRoot(a: string, b: string)
    ensures "/" + a <= "/" + b <==> a <= b
  {
    assert ("/" + a)[1..] == a && ("/" + b)[1..] == b;
    if "/" + a <= "/" + b {
      assert forall i | 0 <= i < |a| :: a[i] == ("/" + a)[i + 1] && b[i] == ("/" + b)[i + 1];
    }
  }

  // ------------------------------------------------------------ containment

  /** p is d, or lies below it: it goes on with plain parts only. */
  predicate Inside(d: Path, p: Path) {
    && p.rooted == d.rooted && d.parts <= p.parts
    && forall i | |d.parts| <= i < |p.parts| :: Plain(p.parts[i])
  }

  predicate EndsAbove(d: Path) {
    d.parts != [] && d.parts[|d.parts| - 1] == ".."
  }

  /** Every accepted entry stays inside the destination exactly if that does not end in "..": an absolute one never
      does. */
  lemma GuardContains(dest: string)
    ensures (forall name :: Sanitize(dest, name).Some? ==> Inside(Clean(dest), Sanitize(dest, name).value))
            <==> !EndsAbove(Clean(dest))
    ensures Clean(dest).rooted ==> !EndsAbove(Clean(dest))
  {
    var d := Clean(dest);
    CleanIsCanonical(dest);
    forall name | Sanitize(dest, name).Some? && !EndsAbove(d) ensures Inside(d, Sanitize(dest, name).value) {
      AcceptedInside(dest, name);
    }
    if EndsAbove(d) {
      var name := "../x";
      SplitOfJoined('/', "..", "x");
      SplitWhole('/', "..");
      SplitWhole('/', "x");
      assert name == ".." + "/" + "x";
      assert Split(name, '/') == ["..", "x"];
      JoinFollowsName(dest, name);
      var up := Follow(d, "..");
      assert FollowAll(up, ["x"]) == Follow(up, "x");
      assert JoinPaths(dest, name) == Path(d.rooted, d.parts + ["..", "x"]);
      SanitizeIsExact(dest, name);
      assert Sanitize(dest, name).value.parts[|d.parts|] == "..";
    }
  }

  lemma CleanEmpty()
    ensures Clean("") == Path(false, [])
  {
    assert FollowAll(Path(false, []), [""]) == FollowAll(Path(false, []), [""][1..]);
  }

  lemma AcceptedInside(dest: string, name: string)
    requires Sanitize(dest, name).Some? && !EndsAbove(Clean(dest))
    ensures Inside(Clean(dest), Sanitize(dest, name).value)
  {
    var d, t := Clean(dest), JoinPaths(dest, name);
    SanitizeIsExact(dest, name);
    CleanIsCanonical(name);
    CleanIsCanonical(dest);
    CleanIsCanonical(dest + "/" + name);
    if d != t { NoStepUp(t, |d.parts|); }
  }

  /** After a part that is not "..", a cleaned path has plain parts only. */
  lemma {:induction false} NoStepUp(p: Path, n: nat)
    requires Canonical(p) && 0 < n <= |p.parts| && p.parts[n - 1] != ".."
    ensures forall i | n <= i < |p.parts| :: Plain(p.parts[i])
    decreases |p.parts| - n
  {
    if n < |p.parts| {
      assert Plain(p.parts[n]);
      NoStepUp(p, n + 1);
    }
  }

  lemma {:induction false} FollowPlain(at: Path, parts: seq<string>)
    requires forall i | 0 <= i < |parts| :: Plain(parts[i])
    ensures FollowAll(at, parts) == at.(parts := at.parts + parts)
    decreases |parts|
  {
    if parts == [] {
      assert at.parts + parts == at.parts;
    } else {
      FollowPlain(Follow(at, parts[0]), parts[1..]);
      assert at.parts + [parts[0]] + parts[1..] == at.parts + parts;
    }
  }

  /** A name of plain parts is accepted below every destination but "/" and ".", and names those parts there. */
  lemma PlainNamesAccepted(dest: string, name: string)
    requires Clean(dest).parts != [] && forall i | 0 <= i < |Split(name, '/')| :: Plain(Split(name, '/')[i])
    ensures Sanitize(dest, name) == Some(Path(Clean(dest).rooted, Clean(dest).parts + Split(name, '/')))
  {
    CleanEmpty();
    JoinFollowsName(dest, name);
    FollowPlain(Clean(dest), Split(name, '/'));
    SanitizeIsExact(dest, name);
  }
}
