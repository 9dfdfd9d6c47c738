/** What expansion does to a text, piece by piece, and so what a request puts in the place of a reference. */
module ExpandLaws {
  import opened Text
  import opened Sequences
  import opened EnvExpand
  import opened Markers
  import opened CacheKeys
  import opened EntryParams

  /** A reference as one can be written: a name, and perhaps a default that does not close it. */
  predicate IsReference(r: Token) {
    r.Ref? && IsName(r.name) && (r.def.Some? ==> '}' !in r.def.value)
  }

  /** Names are what shells allow: letters, digits and "_", without a digit in front. */
  lemma NameExactly(name: string)
    ensures IsName(name) <==>
            && name != "" && !('0' <= name[0] <= '9')
            && forall c | c in name :: 'A' <= c <= 'Z' || 'a' <= c <= 'z' || '0' <= c <= '9' || c == '_'
  {
    if name != "" {
      assert name[0] in name;
    }
  }

  /** The longest run of name characters is the name. */
  lemma {:induction false} RunIsName(name: string, x: string)
    requires (forall c | c in name :: NameChar(c)) && x != "" && !NameChar(x[0])
    ensures NameRun(name + x) == |name|
  {
    if name == "" {
      assert name + x == x;
    } else {
      assert (name + x)[1..] == name[1..] + x;
      RunIsName(name[1..], x);
    }
  }

  lemma DefaultEnds(d: string, x: string)
    requires '}' !in d
    ensures IndexOf(d + "}" + x, '}') == |d|
  {
    var s := d + "}" + x;
    assert s[|d|] == '}' && forall j | 0 <= j < |d| :: s[j] == d[j];
  }

  lemma BareEnds(name: string, x: string)
    ensures RefEnd(name, "}" + x) == Some(Ref(name, None))
  {
  }

  lemma DefaultEndsIt(name: string, d: string, x: string)
    requires '}' !in d
    ensures RefEnd(name, ":" + (d + "}" + x)) == Some(Ref(name, Some(d)))
  {
    var rest := d + "}" + x;
    DefaultEnds(d, x);
    assert (":" + rest)[1..] == rest && rest[..|d|] == d;
  }

  lemma ShownInParts(name: string, d: string, x: string)
    ensures Show(Ref(name, Some(d))) + x == "${" + name + (":" + (d + "}" + x))
  {
    var head := "${" + name;
    assert Show(Ref(name, Some(d))) == head + ":" + d + "}";
    assert head + ":" + d + "}" + x == head + (":" + (d + "}" + x));
  }

  /** A reference that is written is one that is read, whatever follows it. */
  lemma ShownIsRead(r: Token, x: string)
    requires IsReference(r)
    ensures RefAt(Show(r) + x) == Some(r) && Lex(Show(r) + x) == [r] + Lex(x)
  {
    var s := Show(r) + x;
    if r.def.None? {
      assert s == "${" + r.name + ("}" + x);
      BareEnds(r.name, x);
      ShownName(r.name, "}" + x, s);
    } else {
      ShownInParts(r.name, r.def.value, x);
      DefaultEndsIt(r.name, r.def.value, x);
      ShownName(r.name, ":" + (r.def.value + "}" + x), s);
    }
    BehindReference(r, x, s);
  }

  lemma BehindReference(r: Token, x: string, s: string)
    requires s == Show(r) + x && s != "" && RefAt(s) == Some(r)
    ensures Lex(s) == [r] + Lex(x)
  {
    assert s[|Show(r)|..] == x;
  }

  lemma ShownName(name: string, after: string, s: string)
    requires IsName(name) && after != "" && !NameChar(after[0]) && s == "${" + name + after
    ensures RefAt(s) == RefEnd(name, after)
  {
    assert s[2..] == name + after;
    RunIsName(name, after);
    assert s[2..][..|name|] == name && s[2..][|name|..] == after;
  }

  /** Which names are missing, when tokens come in front. */
  lemma MissingBehind(a: seq<Token>, b: seq<Token>, lookup: Lookup, n: string)
    ensures n in Missing(a + b, lookup) <==> LacksName(a, lookup, n) || n in Missing(b, lookup)
  {
    MissingExactly(a + b, lookup);
    MissingExactly(b, lookup);
    assert forall t :: t in a + b <==> t in a || t in b;
  }

  /** Text without "\", "$" and NUL is left alone, whatever follows it. */
  lemma PlainTextStays(a: string, s: string, lookup: Lookup)
    requires '\\' !in a && '$' !in a && '\0' !in a
    ensures ExpandVars(a + s, lookup).0 == a + ExpandVars(s, lookup).0
    ensures forall n :: n in ExpandVars(a + s, lookup).1 <==> n in ExpandVars(s, lookup).1
  {
    ReplaceSkips(a, s, ESCAPE, PLACEHOLDER);
    LexLits(a, Escaped(s));
    SubstConcat(Lits(a), Lex(Escaped(s)), lookup);
    SubstLits(a, lookup);
    ReplaceSkips(a, Subst(Lex(Escaped(s)), lookup), PLACEHOLDER, OPEN);
    forall n ensures n in ExpandVars(a + s, lookup).1 <==> n in ExpandVars(s, lookup).1 {
      MissingBehind(Lits(a), Lex(Escaped(s)), lookup, n);
    }
  }

  /** A reference gives way to its value, or without one to its default, or to nothing; it is missing without both. */
  lemma ReferenceGivesWay(r: Token, s: string, lookup: Lookup, v: string)
    requires IsReference(r) && (r.def.Some? ==> '\\' !in r.def.value)
    requires v == match (lookup(r.name), r.def) { case (Some(x), _) => x case (None, Some(d)) => d case _ => "" }
    requires '\0' !in v
    ensures ExpandVars(Show(r) + s, lookup).0 == v + ExpandVars(s, lookup).0
    ensures forall n :: n in ExpandVars(Show(r) + s, lookup).1 <==>
              n in ExpandVars(s, lookup).1 || (n == r.name && lookup(n).None? && r.def.None?)
  {
    ShowHasNoBackslash(r);
    ReplaceSkips(Show(r), s, ESCAPE, PLACEHOLDER);
    var ts := Lex(Escaped(s));
    ShownIsRead(r, Escaped(s));
    assert Subst([r] + ts, lookup) == v + Subst(ts, lookup);
    ReplaceSkips(v, Subst(ts, lookup), PLACEHOLDER, OPEN);
    forall n ensures n in ExpandVars(Show(r) + s, lookup).1 <==>
        n in ExpandVars(s, lookup).1 || (n == r.name && lookup(n).None? && r.def.None?)
    {
      MissingBehind([r], ts, lookup, n);
    }
  }

  lemma ShowHasNoBackslash(r: Token)
    requires IsReference(r) && (r.def.Some? ==> '\\' !in r.def.value)
    ensures '\\' !in Show(r)
  {
    assert forall c | c in r.name :: NameChar(c);
    assert '\\' !in "${" + r.name;
  }

  /** An escape gives way to "${", and nothing behind it is read as a reference with it. */
  lemma EscapeGivesWay(s: string, lookup: Lookup)
    ensures ExpandVars("\\${" + s, lookup).0 == "${" + ExpandVars(s, lookup).0
    ensures forall n :: n in ExpandVars("\\${" + s, lookup).1 <==> n in ExpandVars(s, lookup).1
  {
    var ts := Lex(Escaped(s));
    ReplaceHead(ESCAPE, PLACEHOLDER, s);
    LexPlaceholder(Escaped(s));
    SubstConcat(Lits(PLACEHOLDER), ts, lookup);
    SubstLits(PLACEHOLDER, lookup);
    ReplaceHead(PLACEHOLDER, OPEN, Subst(ts, lookup));
    forall n ensures n in ExpandVars("\\${" + s, lookup).1 <==> n in ExpandVars(s, lookup).1 {
      MissingBehind(Lits(PLACEHOLDER), ts, lookup, n);
    }
  }

  /** With this the three laws determine the expansion of every text of such pieces. */
  lemma NothingExpands(lookup: Lookup)
    ensures ExpandVars("", lookup) == ("", [])
  {
  }

  // --------------------------------------------- one reference as a template

  /** A value the page selector leaves alone. */
  ghost predicate Usable(v: Option<string>) {
    v.Some? && Inert(v.value)
  }

  lemma OneReference(n: string, lookup: Lookup, v: string)
    requires IsName(n) && v == (if lookup(n).Some? then lookup(n).value else "") && !Contains(v, PLACEHOLDER)
    ensures ExpandVars("${" + n + "}", lookup).0 == v
    ensures ExpandVars("${" + n + "}", lookup).1 == [] <==> lookup(n).Some?
    ensures FindsAny(Lex(Escaped("${" + n + "}")), lookup) <==> lookup(n).Some?
  {
    var r := Ref(n, None);
    var t := "${" + n + "}";
    ShowHasNoBackslash(r);
    assert t == Show(r) && t == Show(r) + "";
    ReplaceSkips(t, "", ESCAPE, PLACEHOLDER);
    assert t + "" == t;
    ShownIsRead(r, "");
    assert Lex(t) == [r];
    assert Subst([r], lookup) == v + "" == v;
    ReplaceNothing(v, PLACEHOLDER, OPEN);
    NothingMissing([r], lookup);
  }

  /** A template that is one reference: its value if the page selector leaves that alone, and else the startup value if
      there is one that it leaves alone. Without templates an empty value does not count. */
  lemma OneReferenceResolves(n: string, startup: Option<string>, noTemplates: bool, lookup: Lookup)
    requires IsName(n) && (lookup(n).Some? ==> !Contains(lookup(n).value, PLACEHOLDER))
    ensures Resolve("${" + n + "}", startup, noTemplates, lookup) ==
              if Usable(lookup(n)) then (if noTemplates && lookup(n).value == "" then None else lookup(n))
              else if Usable(startup) && startup.value != "" then startup
              else None
  {
    OneReference(n, lookup, if lookup(n).Some? then lookup(n).value else "");
    ProbeDecides(if lookup(n).Some? then lookup(n).value else "");
    ProbeDecides(if startup.Some? then startup.value else "");
    NoPlaceholderInNothing();
  }

  lemma NoPlaceholderInNothing()
    ensures !Contains("", PLACEHOLDER) && PLACEHOLDER != ""
  {
  }

  /** The param is the startup value, if there is one that is not empty and that the page selector leaves alone; and
      otherwise there is no param. */
  ghost predicate FallsBack(key: string, startup: PageRef, r: PageRef) {
    if key in startup.params && startup.params[key] != "" && Inert(startup.params[key])
    then key in r.params && r.params[key] == startup.params[key]
    else key !in r.params
  }

  /** The param is the value, if the page selector leaves it alone; an empty one counts only with templates. */
  ghost predicate TakesValue(key: string, v: string, startup: PageRef, noTemplates: bool, r: PageRef) {
    && (Inert(v) && (v != "" || !noTemplates) ==> key in r.params && r.params[key] == v)
    && (Inert(v) && v == "" && noTemplates ==> key !in r.params)
    && (!Inert(v) && !Contains(v, PLACEHOLDER) ==> FallsBack(key, startup, r))
  }

  /** What a request puts in the place of one reference: its own value first, then that of the environment, and then the
      startup value. */
  ghost predicate Fills(key: string, n: string, startup: PageRef, queryParams: map<string, string>, env: Lookup,
                        noTemplates: bool, r: PageRef) {
    && (n in queryParams ==> TakesValue(key, queryParams[n], startup, noTemplates, r))
    && (n !in queryParams && env(n).Some? ==> TakesValue(key, env(n).value, startup, noTemplates, r))
    && (n !in queryParams && env(n).None? ==> FallsBack(key, startup, r))
  }

  lemma EntryFills(page: PageRef, template: PageRef, noTemplates: bool, queryParams: map<string, string>, env: Lookup,
                   r: PageRef, key: string, n: string)
    requires EntryResolved(page, template, noTemplates, Chain(queryParams, env), r)
    requires IsName(n) && key in template.params && template.params[key] == "${" + n + "}"
    ensures Fills(key, n, page, queryParams, env, noTemplates, r)
  {
    var lookup := Chain(queryParams, env);
    var v := lookup(n);
    if v.Some? && Contains(v.value, PLACEHOLDER) {
      assert !Inert(v.value);
    } else {
      OneReferenceResolves(n, Startup(page, key), noTemplates, lookup);
    }
  }
}
