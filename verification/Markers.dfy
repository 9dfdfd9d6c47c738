/** Query param references of layoutPages entries, carried through the YAML load as markers and restored after it. */
module Markers {
  import opened Text
  import opened Sequences
  import opened EnvExpand
  import opened CacheKeys

  const STEM := "bino-query-param."

  function Marker(name: string): string {
    STEM + name + "."
  }

  function Reference(name: string): string {
    "${" + name + "}"
  }

  /** The first name whose marker starts s, in argument order. */
  function FirstAt(s: string, names: seq<string>): (i: nat)
    ensures i <= |names| && (i < |names| ==> MatchAt(s, 0, Marker(names[i])))
    ensures forall j | 0 <= j < i :: !MatchAt(s, 0, Marker(names[j]))
  {
    if names == [] || MatchAt(s, 0, Marker(names[0])) then 0 else 1 + FirstAt(s, names[1..])
  }

  /** strings.NewReplacer over all markers: left to right, without overlap. */
  function Restore(s: string, names: seq<string>): string {
    if s == "" then ""
    else
      var i := FirstAt(s, names);
      if i < |names| then Reference(names[i]) + Restore(s[|Marker(names[i])|..], names)
      else [s[0]] + Restore(s[1..], names)
  }

  /** Text with query param references in it. */
  datatype Template = End(text: string) | Cons(text: string, name: string, rest: Template)
  {
    function Marked(): string {
      match this
      case End(text) => text
      case Cons(text, name, rest) => text + (Marker(name) + rest.Marked())
    }

    function Written(): string {
      match this
      case End(text) => text
      case Cons(text, name, rest) => text + (Reference(name) + rest.Written())
    }

    /** The references are query params, and no text between them contains the stem of the markers. */
    ghost predicate Plain(names: seq<string>) {
      !Contains(text, STEM) && (Cons? ==> name in names && rest.Plain(names))
    }
  }

  /** Names are identifiers, so they hold no "." and no marker starts like another. */
  ghost predicate Names(names: seq<string>) {
    forall n | n in names :: IsName(n)
  }

  lemma NoDotInName(n: string)
    requires IsName(n)
    ensures '.' !in n
  {
  }

  lemma MarkersPrefixFree(m: string, n: string, x: string)
    requires IsName(m) && IsName(n) && MatchAt(Marker(n) + x, 0, Marker(m))
    ensures m == n
  {
    var s := Marker(n) + x;
    assert s[|STEM|..] == n + ("." + x);
    assert Marker(m)[|STEM|..] == m + ".";
    var y := s[|Marker(m)|..];
    assert s == Marker(m) + y;
    assert s[|STEM|..] == m + ("." + y);
    NoDotInName(m);
    NoDotInName(n);
    SplitAt(n, "." + x, m, "." + y, '.');
  }

  /** A marker is restored whole. */
  lemma RestoreMarker(n: string, x: string, names: seq<string>)
    requires Names(names) && n in names
    ensures Restore(Marker(n) + x, names) == Reference(n) + Restore(x, names)
  {
    var s := Marker(n) + x;
    var k :| 0 <= k < |names| && names[k] == n;
    assert MatchAt(s, 0, Marker(names[k]));
    var i := FirstAt(s, names);
    assert names[i] in names;
    MarkersPrefixFree(names[i], n, x);
    assert s[|Marker(n)|..] == x;
  }

  /** The stem does not overlap itself: its first character occurs in it only once. So it cannot begin inside a text and
      end in the marker behind, and a marker that starts there lies in the text with its whole stem. */
  lemma StemLiesInside(text: string, x: string, name: string)
    requires text != "" && (x == "" || MatchAt(x, 0, STEM)) && MatchAt(text + x, 0, Marker(name))
    ensures Contains(text, STEM)
  {
    var s := text + x;
    assert s[..|STEM|] == Marker(name)[..|STEM|] == STEM;
    assert forall d | 1 <= d < |STEM| :: STEM[d] != 'b';
    assert forall d | 0 <= d < |STEM| :: s[d] == s[..|STEM|][d];
    assert x != "" ==> s[|text|] == x[..|STEM|][0] == 'b';
    assert |STEM| <= |text|;
    assert text[..|STEM|] == s[..|STEM|];
    assert MatchAt(text, 0, STEM);
  }

  lemma {:induction false} RestoreText(text: string, x: string, names: seq<string>)
    requires !Contains(text, STEM) && (x == "" || MatchAt(x, 0, STEM))
    ensures Restore(text + x, names) == text + Restore(x, names)
  {
    if text == "" {
      assert text + x == x;
    } else {
      var s := text + x;
      var i := FirstAt(s, names);
      if i < |names| {
        StemLiesInside(text, x, names[i]);
      }
      assert s[1..] == text[1..] + x;
      if Contains(text[1..], STEM) {
        ContainedEarlier(text, STEM);
      }
      RestoreText(text[1..], x, names);
      Regroup([text[0]], text[1..], Restore(x, names));
      assert text == [text[0]] + text[1..];
    }
  }

  /** Replacing references by markers and running the replacer gives the references back. */
  lemma {:induction false} MarkerRoundTrip(t: Template, names: seq<string>)
    requires Names(names) && t.Plain(names)
    ensures Restore(t.Marked(), names) == t.Written()
  {
    match t
    case End(text) =>
      RestoreText(text, "", names);
      assert text + "" == text;
    case Cons(text, name, rest) =>
      MarkerRoundTrip(rest, names);
      RestoreMarker(name, rest.Marked(), names);
      assert MatchAt(Marker(name) + rest.Marked(), 0, STEM);
      RestoreText(text, Marker(name) + rest.Marked(), names);
  }

  // ------------------------------------------------------ through the loader

  /** The second load sees a marker for every query param and the environment for the rest. */
  function LoadLookup(names: seq<string>, env: Lookup): Lookup {
    (name: string) => if name in names then Some(Marker(name)) else env(name)
  }

  function Prepend(text: string, t: Template): Template {
    match t
    case End(u) => End(text + u)
    case Cons(u, name, rest) => Cons(text + u, name, rest)
  }

  /** The template a text stands for: its query references, and everything else as the load resolves it. */
  function TemplateOf(ts: seq<Token>, names: seq<string>, env: Lookup): Template {
    if ts == [] then End("")
    else
      var rest := TemplateOf(ts[1..], names, env);
      if ts[0].Ref? && ts[0].name in names then Cons("", ts[0].name, rest) else Prepend(Value(ts[0], env), rest)
  }

  lemma {:induction false} LoadMarks(ts: seq<Token>, names: seq<string>, env: Lookup)
    ensures Subst(ts, LoadLookup(names, env)) == TemplateOf(ts, names, env).Marked()
  {
    if ts != [] {
      LoadMarks(ts[1..], names, env);
      var v, rest := Value(ts[0], LoadLookup(names, env)), TemplateOf(ts[1..], names, env);
      if ts[0].Ref? && ts[0].name in names {
        Unprefixed(v + rest.Marked());
      } else {
        assert v == Value(ts[0], env);
        PrependMarks(v, rest);
      }
    }
  }

  lemma Unprefixed(s: string)
    ensures "" + s == s
  {
  }

  lemma PrependMarks(text: string, t: Template)
    ensures Prepend(text, t).Marked() == text + t.Marked()
  {
  }

  lemma NoNulNoPlaceholder(s: string)
    requires '\0' !in s
    ensures !Contains(s, PLACEHOLDER)
  {
    if Contains(s, PLACEHOLDER) {
      ContainedChars(s, PLACEHOLDER, PLACEHOLDER[0]);
    }
  }

  lemma {:induction false} MarkedNulFree(t: Template, names: seq<string>)
    requires Names(names) && t.Plain(names) && '\0' !in t.Written()
    ensures '\0' !in t.Marked()
  {
    if t.Cons? {
      assert forall c | c in t.rest.Written() :: c in t.Written();
      assert forall c | c in t.text :: c in t.Written();
      MarkedNulFree(t.rest, names);
      assert IsName(t.name);
      assert '\0' !in STEM;
    }
  }

  /** Loading with markers and restoring gives the text back with its query references, other references resolved. */
  lemma LoadThenRestore(s: string, names: seq<string>, env: Lookup)
    requires Names(names) && !Contains(s, ESCAPE)
    requires TemplateOf(Lex(s), names, env).Plain(names) && '\0' !in TemplateOf(Lex(s), names, env).Written()
    ensures Restore(ExpandVars(s, LoadLookup(names, env)).0, names) == TemplateOf(Lex(s), names, env).Written()
  {
    var t := TemplateOf(Lex(s), names, env);
    ReplaceNothing(s, ESCAPE, PLACEHOLDER);
    LoadMarks(Lex(s), names, env);
    MarkedNulFree(t, names);
    NoNulNoPlaceholder(t.Marked());
    ReplaceNothing(t.Marked(), PLACEHOLDER, OPEN);
    MarkerRoundTrip(t, names);
  }

  // ------------------------------------------------- when the text is the same

  function ShowAll(ts: seq<Token>): string {
    if ts == [] then "" else Show(ts[0]) + ShowAll(ts[1..])
  }

  lemma {:induction false} LexShows(s: string)
    ensures ShowAll(Lex(s)) == s
  {
    if s != "" {
      var t := LexHead(s);
      LexShows(s[|Show(t)|..]);
    }
  }

  /** A text begins with its first token. */
  lemma LexHead(s: string) returns (t: Token)
    requires s != ""
    ensures Show(t) != "" && Show(t) <= s && s == Show(t) + s[|Show(t)|..]
    ensures Lex(s) != [] && Lex(s)[0] == t && Lex(s)[1..] == Lex(s[|Show(t)|..])
  {
    var r := RefAt(s);
    t := if r.Some? then r.value else Lit(s[0]);
    PrefixAndRest(Show(t), s);
    HeadAndTail(t, Lex(s[|Show(t)|..]));
  }

  ghost predicate AllQueryRefs(ts: seq<Token>, names: seq<string>) {
    forall t | t in ts && t.Ref? :: t.name in names
  }

  ghost predicate NoDefaults(ts: seq<Token>) {
    forall t | t in ts && t.Ref? :: t.def.None?
  }

  /** What one token becomes. */
  function Kept(t: Token): string {
    if t.Ref? then Reference(t.name) else [t.c]
  }

  lemma WrittenStep(ts: seq<Token>, names: seq<string>, env: Lookup)
    requires ts != [] && AllQueryRefs(ts, names)
    ensures AllQueryRefs(ts[1..], names)
    ensures TemplateOf(ts, names, env).Written() == Kept(ts[0]) + TemplateOf(ts[1..], names, env).Written()
  {
    assert ts[0] in ts && forall t | t in ts[1..] :: t in ts;
    var rest := TemplateOf(ts[1..], names, env);
    if ts[0].Ref? {
      assert "" + (Reference(ts[0].name) + rest.Written()) == Reference(ts[0].name) + rest.Written();
    } else {
      assert Prepend([ts[0].c], rest).Written() == [ts[0].c] + rest.Written();
    }
  }

  lemma {:induction false} WrittenDropsDefaults(ts: seq<Token>, names: seq<string>, env: Lookup)
    requires AllQueryRefs(ts, names)
    ensures |TemplateOf(ts, names, env).Written()| <= |ShowAll(ts)|
    ensures NoDefaults(ts) ==> TemplateOf(ts, names, env).Written() == ShowAll(ts)
    ensures !NoDefaults(ts) ==> |TemplateOf(ts, names, env).Written()| < |ShowAll(ts)|
  {
    if ts != [] {
      WrittenStep(ts, names, env);
      WrittenDropsDefaults(ts[1..], names, env);
      assert ts == [ts[0]] + ts[1..];
      assert NoDefaults(ts) <==> NoDefaults([ts[0]]) && NoDefaults(ts[1..]);
      assert NoDefaults([ts[0]]) <==> (ts[0].Ref? ==> ts[0].def.None?) by { assert [ts[0]][0] in [ts[0]]; }
    }
  }

  /** Of a text whose references are all query params, exactly the inline defaults are lost: the text comes back
      unchanged if and only if no reference has one. */
  lemma RestoredExactlyWithoutDefaults(s: string, names: seq<string>, env: Lookup)
    requires AllQueryRefs(Lex(s), names)
    ensures TemplateOf(Lex(s), names, env).Written() == s <==> NoDefaults(Lex(s))
  {
    LexShows(s);
    WrittenDropsDefaults(Lex(s), names, env);
  }

  // ------------------------------------------------------------- escapes

  lemma {:induction false} NoDollarNoRef(s: string)
    requires '$' !in s
    ensures forall t | t in Lex(s) :: t.Lit?
  {
    if s != "" {
      assert RefAt(s).None? by {
        assert s[0] != '$';
        assert !MatchAt(s, 0, OPEN);
      }
      NoDollarNoRef(s[1..]);
    }
  }

  lemma ReplaceHead(from: string, to: string, rest: string)
    requires from != ""
    ensures ReplaceAll(from + rest, from, to) == to + ReplaceAll(rest, from, to)
  {
    assert MatchAt(from + rest, 0, from);
    assert (from + rest)[|from|..] == rest;
  }

  lemma EscapedTailExpands(tail: string, lookup: Lookup)
    requires '\\' !in tail && '$' !in tail && '\0' !in tail
    ensures ExpandVars(ESCAPE + tail, lookup).0 == OPEN + tail
  {
    if Contains(tail, ESCAPE) {
      ContainedChars(tail, ESCAPE, '\\');
    }
    ReplaceHead(ESCAPE, PLACEHOLDER, tail);
    ReplaceNothing(tail, ESCAPE, PLACEHOLDER);
    assert '$' !in PLACEHOLDER + tail by {
      assert forall i | 0 <= i < |PLACEHOLDER| :: PLACEHOLDER[i] != '$';
    }
    NoDollarNoRef(PLACEHOLDER + tail);
    LiteralsStay(PLACEHOLDER + tail, lookup);
    ReplaceHead(PLACEHOLDER, OPEN, tail);
    NoNulNoPlaceholder(tail);
    ReplaceNothing(tail, PLACEHOLDER, OPEN);
  }

  lemma RestoreKeepsReference(n: string, names: seq<string>)
    requires IsName(n)
    ensures Restore(Reference(n), names) == Reference(n)
  {
    if Contains(Reference(n), STEM) {
      ContainedChars(Reference(n), STEM, '.');
    }
    RestoreText(Reference(n), "", names);
    assert Reference(n) + "" == Reference(n);
  }

  /** An escape does not survive: an escaped query reference comes back as a plain reference, which a request fills. */
  lemma EscapedReferenceRevives(n: string, names: seq<string>, env: Lookup)
    requires IsName(n)
    ensures ExpandVars("\\" + Reference(n), LoadLookup(names, env)).0 == Reference(n)
    ensures Restore(Reference(n), names) == Reference(n)
  {
    var tail := n + "}";
    assert forall c | c in tail :: NameChar(c) || c == '}';
    EscapedTailExpands(tail, LoadLookup(names, env));
    assert "\\" + Reference(n) == ESCAPE + tail;
    assert Reference(n) == OPEN + tail;
    RestoreKeepsReference(n, names);
  }

  // --------------------------------------- the whole way, escapes included

  lemma MatchStart(s: string, sub: string)
    requires s != "" && sub != "" && s[0] != sub[0]
    ensures !MatchAt(s, 0, sub)
  {
    if |sub| <= |s| {
      assert s[0..0 + |sub|][0] == s[0];
    }
  }

  /** A prefix without the first character of the replacement is a prefix of the text. */
  lemma {:induction false} ReplacePrefix(x: string, from: string, to: string, p: string)
    requires from != "" && to != "" && to[0] !in p && p <= ReplaceAll(x, from, to)
    ensures p <= x
  {
    if p != "" {
      assert p[0] == ReplaceAll(x, from, to)[0];
      assert x != "" && !MatchAt(x, 0, from);
      assert p[1..] <= ReplaceAll(x[1..], from, to);
      ReplacePrefix(x[1..], from, to, p[1..]);
    }
  }

  /** Text without the first character of from is left alone. */
  lemma {:induction false} ReplaceSkips(a: string, x: string, from: string, to: string)
    requires from != "" && from[0] !in a
    ensures ReplaceAll(a + x, from, to) == a + ReplaceAll(x, from, to)
  {
    if a == "" {
      assert a + x == x;
    } else {
      assert (a + x)[0] == a[0] && (a + x)[1..] == a[1..] + x;
      ReplaceSkips(a[1..], x, from, to);
    }
  }

  /** s is a, which the escaping turned into p, and b; p ends outside the placeholder. */
  lemma {:induction false} EscapedSplit(s: string, p: string) returns (a: string, b: string)
    requires p != "" && p[|p| - 1] !in PLACEHOLDER && p <= Escaped(s)
    ensures s == a + b && Escaped(a) == p && Escaped(s) == p + Escaped(b)
  {
    if MatchAt(s, 0, ESCAPE) {
      EscapeAtHead(s);
      ReachesPast(p, PLACEHOLDER, Escaped(s[3..]));
      var p' := p[|PLACEHOLDER|..];
      var a', b' := EscapedSplit(s[3..], p');
      a, b := ESCAPE + a', b';
      ReplaceHead(ESCAPE, PLACEHOLDER, a');
      assert p == PLACEHOLDER + p';
      Regroup(ESCAPE, a', b');
      Regroup(PLACEHOLDER, p', Escaped(b));
    } else {
      assert p[0] == s[0] && p == [p[0]] + p[1..];
      if |p| == 1 {
        a, b := [s[0]], s[1..];
        EscapedChar(s[0], "", b);
        assert [s[0]] + "" == [s[0]] && Escaped("") == "";
      } else {
        var a', b' := EscapedSplit(s[1..], p[1..]);
        a, b := [s[0]] + a', b';
        Regroup([s[0]], a', b');
        EscapedChar(s[0], a', b');
        Regroup([s[0]], p[1..], Escaped(b));
      }
      assert s == [s[0]] + s[1..];
    }
  }

  /** A character that does not start an escape is copied, whatever part of the text is looked at. */
  lemma EscapedChar(c: char, a: string, b: string)
    requires !MatchAt([c] + (a + b), 0, ESCAPE)
    ensures Escaped([c] + a) == [c] + Escaped(a)
  {
    var s := [c] + (a + b);
    assert [c] + a == s[..1 + |a|];
    PrefixMatches(s, 1 + |a|, ESCAPE);
    assert ([c] + a)[1..] == a;
  }

  lemma EscapeAtHead(s: string)
    requires MatchAt(s, 0, ESCAPE)
    ensures |ESCAPE| == 3 && s == ESCAPE + s[3..] && Escaped(s) == PLACEHOLDER + Escaped(s[3..])
  {
  }

  lemma PrefixMatches(s: string, n: nat, sub: string)
    requires n <= |s|
    ensures MatchAt(s[..n], 0, sub) ==> MatchAt(s, 0, sub)
  {
    if MatchAt(s[..n], 0, sub) {
      assert s[..n][..|sub|] == s[..|sub|];
    }
  }

  /** A prefix of a + b that ends in no character of a goes past a. */
  lemma ReachesPast(p: string, a: string, b: string)
    requires p != "" && p[|p| - 1] !in a && p <= a + b
    ensures |p| > |a| && p[..|a|] == a && p[|a|..] <= b && p[|a|..] != "" && p[|a|..][|p| - |a| - 1] == p[|p| - 1]
  {
    assert p[|p| - 1] == (a + b)[|p| - 1];
    assert forall i | 0 <= i < |a| :: (a + b)[i] in a;
    assert p == (a + b)[..|p|];
    assert p[|a|..] == b[..|p| - |a|];
  }

  ghost predicate FreeOf(s: string) {
    '\0' !in s && !Contains(s, STEM)
  }

  /** What loading makes of s: sections of text in which the escapes are resolved, and the query references. */
  ghost predicate IsLoaded(s: string, names: seq<string>, env: Lookup, t: Template) {
    && t.Marked() == ReplaceAll(Subst(Lex(Escaped(s)), LoadLookup(names, env)), PLACEHOLDER, OPEN)
    && t.Plain(names) && t.text <= ReplaceAll(s, ESCAPE, OPEN)
    && (if Contains(s, ESCAPE) || !NoDefaults(Lex(Escaped(s))) then |t.Written()| < |s| else t.Written() == s)
  }

  lemma FreeTail(s: string, n: nat)
    requires FreeOf(s) && n <= |s|
    ensures FreeOf(s[n..])
  {
    if Contains(s[n..], STEM) {
      var i :| 0 <= i <= |s[n..]| && MatchAt(s[n..], i, STEM);
      assert s[n..][i..i + |STEM|] == s[n + i..n + i + |STEM|];
      assert MatchAt(s, n + i, STEM);
    }
  }

  lemma {:induction false} LoadedTemplate(s: string, names: seq<string>, env: Lookup) returns (t: Template)
    requires FreeOf(s) && Names(names) && AllQueryRefs(Lex(Escaped(s)), names)
    ensures IsLoaded(s, names, env, t)
  {
    var u := Escaped(s);
    if s == "" {
      t := End("");
      assert t.Marked() == "" && !Contains("", STEM) && !Contains("", ESCAPE);
    } else if MatchAt(s, 0, ESCAPE) {
      EscapeAtHead(s);
      FreeTail(s, 3);
      LexPlaceholder(Escaped(s[3..]));
      QueryRefsAfter(Lits(PLACEHOLDER), Lex(Escaped(s[3..])), names);
      var rest := LoadedTemplate(s[3..], names, env);
      t := LoadedEscape(s, names, env, rest);
    } else if RefAt(u).Some? {
      var r := RefAt(u).value;
      assert Lex(u) == [r] + Lex(u[|Show(r)|..]);
      QueryRefsAfter([r], Lex(u[|Show(r)|..]), names);
      assert r in Lex(u);
      assert Show(r)[|Show(r)| - 1] == '}' && '}' !in PLACEHOLDER;
      var a, b := EscapedSplit(s, Show(r));
      assert b == s[|a|..] && u[|Show(r)|..] == Escaped(b);
      FreeTail(s, |a|);
      var rest := LoadedTemplate(b, names, env);
      t := LoadedReference(a, b, r, names, env, rest);
    } else {
      FreeTail(s, 1);
      assert u == [s[0]] + Escaped(s[1..]);
      assert Lex(u) == [Lit(s[0])] + Lex(u[1..]);
      QueryRefsAfter([Lit(s[0])], Lex(Escaped(s[1..])), names);
      var rest := LoadedTemplate(s[1..], names, env);
      t := LoadedChar(s, names, env, rest);
    }
  }

  function Lits(s: string): (r: seq<Token>)
    ensures |r| == |s| && forall i | 0 <= i < |r| :: r[i] == Lit(s[i])
  {
    seq(|s|, i requires 0 <= i < |s| => Lit(s[i]))
  }

  lemma {:induction false} LexLits(a: string, x: string)
    requires '$' !in a
    ensures Lex(a + x) == Lits(a) + Lex(x)
  {
    if a == "" {
      assert a + x == x;
    } else {
      var s := a + x;
      assert s[0] == a[0] && s[1..] == a[1..] + x;
      LexOne(s);
      LexLits(a[1..], x);
      Regroup([Lit(a[0])], Lits(a[1..]), Lex(x));
      assert Lits(a) == [Lit(a[0])] + Lits(a[1..]);
    }
  }

  lemma LexOne(s: string)
    requires s != "" && s[0] != '$'
    ensures Lex(s) == [Lit(s[0])] + Lex(s[1..])
  {
    MatchStart(s, OPEN);
  }

  lemma LexPlaceholder(x: string)
    ensures Lex(PLACEHOLDER + x) == Lits(PLACEHOLDER) + Lex(x)
  {
    assert forall i | 0 <= i < |PLACEHOLDER| :: PLACEHOLDER[i] != '$';
    LexLits(PLACEHOLDER, x);
  }

  lemma QueryRefsAfter(a: seq<Token>, b: seq<Token>, names: seq<string>)
    requires AllQueryRefs(a + b, names)
    ensures AllQueryRefs(b, names)
  {
    assert forall t | t in b :: t in a + b;
  }

  lemma {:induction false} SubstConcat(a: seq<Token>, b: seq<Token>, lookup: Lookup)
    ensures Subst(a + b, lookup) == Subst(a, lookup) + Subst(b, lookup)
  {
    if a == [] {
      assert a + b == b;
    } else {
      assert (a + b)[1..] == a[1..] + b;
      SubstConcat(a[1..], b, lookup);
    }
  }

  lemma {:induction false} SubstLits(s: string, lookup: Lookup)
    ensures Subst(Lits(s), lookup) == s
  {
    if s != "" {
      assert Lits(s)[1..] == Lits(s[1..]);
      SubstLits(s[1..], lookup);
      assert s == [s[0]] + s[1..];
    }
  }

  /** An escape becomes "${", which is one character shorter. */
  lemma LoadedEscape(s: string, names: seq<string>, env: Lookup, rest: Template) returns (t: Template)
    requires MatchAt(s, 0, ESCAPE) && IsLoaded(s[3..], names, env, rest)
    ensures IsLoaded(s, names, env, t)
  {
    EscapeAtHead(s);
    t := Prepend(OPEN, rest);
    var x, lookup := Subst(Lex(Escaped(s[3..])), LoadLookup(names, env)), LoadLookup(names, env);
    LexPlaceholder(Escaped(s[3..]));
    SubstConcat(Lits(PLACEHOLDER), Lex(Escaped(s[3..])), lookup);
    SubstLits(PLACEHOLDER, lookup);
    ReplaceHead(PLACEHOLDER, OPEN, x);
    PrependMarks(OPEN, rest);
    PrependWrites(OPEN, rest);
    ReplaceHead(ESCAPE, OPEN, s[3..]);
    OpenedHasNoStem(rest.text);
    assert Contains(s, ESCAPE);
    assert OPEN + rest.text <= OPEN + ReplaceAll(s[3..], ESCAPE, OPEN);
  }

  lemma PrependWrites(text: string, t: Template)
    ensures Prepend(text, t).Written() == text + t.Written()
  {
  }

  lemma OpenedHasNoStem(text: string)
    requires !Contains(text, STEM)
    ensures !Contains(OPEN + text, STEM)
  {
    HeadHasNoStem('{', text);
    HeadHasNoStem('$', "{" + text);
    assert OPEN + text == ['$'] + ("{" + text);
  }

  lemma HeadHasNoStem(c: char, text: string)
    requires c != STEM[0] && !Contains(text, STEM)
    ensures !Contains([c] + text, STEM)
  {
    MatchStart([c] + text, STEM);
    assert ([c] + text)[1..] == text;
    if Contains([c] + text, STEM) { ContainedLater([c] + text, STEM); }
  }

  /** A character that starts neither an escape nor a reference stays. */
  lemma LoadedChar(s: string, names: seq<string>, env: Lookup, rest: Template) returns (t: Template)
    requires FreeOf(s) && s != "" && !MatchAt(s, 0, ESCAPE) && RefAt(Escaped(s)).None?
            && IsLoaded(s[1..], names, env, rest)
    ensures IsLoaded(s, names, env, t)
  {
    var c, lookup := [s[0]], LoadLookup(names, env);
    t := Prepend(c, rest);
    assert Escaped(s) == c + Escaped(s[1..]);
    assert Lex(Escaped(s)) == [Lit(s[0])] + Lex(Escaped(s[1..]));
    ReplaceSkips(c, Subst(Lex(Escaped(s[1..])), lookup), PLACEHOLDER, OPEN);
    PrependMarks(c, rest);
    PrependWrites(c, rest);
    assert c + rest.text <= ReplaceAll(s, ESCAPE, OPEN);
    CharHasNoStem(s, rest.text);
    EscapeAfterHead(s);
    assert NoDefaults(Lex(Escaped(s))) <==> NoDefaults(Lex(Escaped(s[1..])));
    assert s == c + s[1..];
  }

  lemma EscapeAfterHead(s: string)
    requires s != "" && !MatchAt(s, 0, ESCAPE)
    ensures Contains(s, ESCAPE) <==> Contains(s[1..], ESCAPE)
  {
    if Contains(s, ESCAPE) { ContainedLater(s, ESCAPE); }
    if Contains(s[1..], ESCAPE) { ContainedEarlier(s, ESCAPE); }
  }

  lemma CharHasNoStem(s: string, text: string)
    requires s != "" && !Contains(s, STEM) && !Contains(text, STEM) && [s[0]] + text <= ReplaceAll(s, ESCAPE, OPEN)
    ensures !Contains([s[0]] + text, STEM)
  {
    var x := [s[0]] + text;
    if Contains(x, STEM) {
      assert x[1..] == text;
      if MatchAt(x, 0, STEM) {
        assert STEM <= ReplaceAll(s, ESCAPE, OPEN);
        ReplacePrefix(s, ESCAPE, OPEN, STEM);
        assert MatchAt(s, 0, STEM);
      } else {
        ContainedLater(x, STEM);
      }
    }
  }

  /** A query reference comes back without its default. */
  lemma LoadedReference(a: string, b: string, r: Token, names: seq<string>, env: Lookup, rest: Template)
    returns (t: Template)
    requires '\0' !in a && Names(names) && r.Ref? && r.name in names
    requires Escaped(a) == Show(r) && Lex(Escaped(a + b)) == [r] + Lex(Escaped(b)) && IsLoaded(b, names, env, rest)
    ensures IsLoaded(a + b, names, env, t)
  {
    t := Cons("", r.name, rest);
    MarkedReference(a + b, r, Lex(Escaped(b)), names, env, rest);
    Unprefixed(Reference(r.name) + rest.Written());
    assert !Contains("", STEM);
    assert r.name in names ==> IsName(r.name);
    ReferenceShrinks(a, b, r, Lex(Escaped(b)), rest.Written());
  }

  /** How a reference and what follows it compare in length with what comes back. */
  lemma ReferenceShrinks(a: string, b: string, r: Token, ts: seq<Token>, back: string)
    requires '\0' !in a && r.Ref? && IsName(r.name) && Escaped(a) == Show(r)
    requires if Contains(b, ESCAPE) || !NoDefaults(ts) then |back| < |b| else back == b
    ensures if Contains(a + b, ESCAPE) || !NoDefaults([r] + ts) then |Reference(r.name) + back| < |a + b|
            else Reference(r.name) + back == a + b
  {
    ReferenceLength(a, r);
    DefaultsAfter(r, ts);
    if r.def.None? {
      EscapeBehind(a, b);
    }
  }

  lemma MarkedReference(s: string, r: Token, ts: seq<Token>, names: seq<string>, env: Lookup, rest: Template)
    requires Names(names) && r.Ref? && r.name in names && Lex(Escaped(s)) == [r] + ts
    requires rest.Marked() == ReplaceAll(Subst(ts, LoadLookup(names, env)), PLACEHOLDER, OPEN)
    ensures Cons("", r.name, rest).Marked() ==
            ReplaceAll(Subst(Lex(Escaped(s)), LoadLookup(names, env)), PLACEHOLDER, OPEN)
  {
    var lookup := LoadLookup(names, env);
    assert Subst([r] + ts, lookup) == Marker(r.name) + Subst(ts, lookup);
    MarkerHasNoNul(r.name);
    ReplaceSkips(Marker(r.name), Subst(ts, lookup), PLACEHOLDER, OPEN);
    Unprefixed(Marker(r.name) + rest.Marked());
  }

  lemma DefaultsAfter(r: Token, ts: seq<Token>)
    requires r.Ref?
    ensures NoDefaults([r] + ts) <==> r.def.None? && NoDefaults(ts)
  {
    assert ([r] + ts)[0] == r && forall t :: t in [r] + ts <==> t == r || t in ts;
  }

  lemma MarkerHasNoNul(name: string)
    requires IsName(name)
    ensures '\0' !in Marker(name)
  {
    assert '\0' !in STEM;
  }

  /** The text of a reference is longer than the bare reference exactly if it has a default. */
  lemma ReferenceLength(a: string, r: Token)
    requires '\0' !in a && r.Ref? && IsName(r.name) && Escaped(a) == Show(r)
    ensures if r.def.None? then a == Reference(r.name) else |a| > |Reference(r.name)|
  {
    assert PLACEHOLDER[0] == '\0';
    var head := "${" + r.name;
    assert '\0' !in head by { assert forall c | c in head :: c == '$' || c == '{' || NameChar(c); }
    if r.def.None? {
      assert Show(r) == head + "}";
      ReplacePrefix(a, ESCAPE, PLACEHOLDER, head + "}");
      EscapingLengthens(a);
    } else {
      assert Show(r) == head + ":" + (r.def.value + "}");
      ReplacePrefix(a, ESCAPE, PLACEHOLDER, head + ":");
      assert a == head + ":" || |a| > |head + ":"|;
      assert forall c | c in head + ":" :: c == '$' || c == '{' || c == ':' || NameChar(c);
      NothingToEscape(head + ":");
    }
  }

  lemma {:induction false} EscapingLengthens(a: string)
    ensures |Escaped(a)| >= |a|
  {
    if a != "" {
      EscapingLengthens(if MatchAt(a, 0, ESCAPE) then a[3..] else a[1..]);
    }
  }

  lemma NothingToEscape(a: string)
    requires '\\' !in a
    ensures Escaped(a) == a
  {
    ReplaceSkips(a, "", ESCAPE, PLACEHOLDER);
    assert a + "" == a;
  }

  lemma EscapeBehind(a: string, b: string)
    requires exists n :: IsName(n) && a == Reference(n)
    ensures Contains(a + b, ESCAPE) <==> Contains(b, ESCAPE)
  {
    var n :| IsName(n) && a == Reference(n);
    assert forall i | 0 <= i < |a| :: a[i] == '$' || a[i] == '{' || a[i] == '}' || NameChar(a[i]);
    NotWithin(a, b);
  }

  lemma {:induction false} NotWithin(a: string, b: string)
    requires forall i | 0 <= i < |a| :: a[i] != '\\'
    ensures Contains(a + b, ESCAPE) <==> Contains(b, ESCAPE)
  {
    if a == "" {
      assert a + b == b;
    } else {
      assert (a + b)[1..] == a[1..] + b && (a + b)[0] == a[0];
      MatchStart(a + b, ESCAPE);
      NotWithin(a[1..], b);
      EscapeAfterHead(a + b);
    }
  }

  /** A text whose references are all query params, loaded with markers and restored, comes back as it was if and only
      if it has no escape and no inline default. */
  lemma ComesBackExactlyIf(s: string, names: seq<string>, env: Lookup)
    requires '\0' !in s && !Contains(s, STEM) && Names(names) && AllQueryRefs(Lex(Escaped(s)), names)
    ensures Restore(ExpandVars(s, LoadLookup(names, env)).0, names) == s <==> !Contains(s, ESCAPE) && NoDefaults(Lex(s))
  {
    var t := LoadedTemplate(s, names, env);
    MarkerRoundTrip(t, names);
    if !Contains(s, ESCAPE) {
      ReplaceNothing(s, ESCAPE, PLACEHOLDER);
    }
  }
}
