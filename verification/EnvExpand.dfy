/** ExpandVars: ${VAR} and ${VAR:default} references, with \${ as the escape of "${". */
module EnvExpand {
  import opened Text

  type Lookup = string -> Option<string>

  const ESCAPE := "\\${"
  const OPEN := "${"
  const PLACEHOLDER := "\0BINO_ESC_DOLLAR_BRACE\0"

  function NoLookup(name: string): Option<string> { None }

  // ------------------------------------------------------------ replacing

  /** strings.ReplaceAll: leftmost occurrences that do not overlap. */
  function ReplaceAll(s: string, from: string, to: string): string
    requires from != ""
  {
    if s == "" then ""
    else if MatchAt(s, 0, from) then to + ReplaceAll(s[|from|..], from, to)
    else [s[0]] + ReplaceAll(s[1..], from, to)
  }

  function Count(c: char, s: string): nat {
    if s == "" then 0 else (if s[0] == c then 1 else 0) + Count(c, s[1..])
  }

  lemma {:induction false} CountConcat(c: char, a: string, b: string)
    ensures Count(c, a + b) == Count(c, a) + Count(c, b)
  {
    if a == "" {
      assert a + b == b;
    } else {
      assert (a + b)[1..] == a[1..] + b;
      CountConcat(c, a[1..], b);
    }
  }

  /** A replacement that never adds c keeps or lowers its count; when it removes c, an equal count means that there was
      nothing to replace. */
  lemma {:induction false} ReplaceCounts(c: char, s: string, from: string, to: string)
    requires from != "" && Count(c, to) <= Count(c, from)
    ensures Count(c, ReplaceAll(s, from, to)) <= Count(c, s)
    ensures Count(c, to) < Count(c, from) && Count(c, ReplaceAll(s, from, to)) == Count(c, s) ==> !Contains(s, from)
  {
    if s == "" {
    } else if MatchAt(s, 0, from) {
      ReplaceCounts(c, s[|from|..], from, to);
      CountConcat(c, to, ReplaceAll(s[|from|..], from, to));
      assert s == from + s[|from|..];
      CountConcat(c, from, s[|from|..]);
    } else {
      ReplaceCounts(c, s[1..], from, to);
      if Contains(s, from) {
        ContainedLater(s, from);
      }
    }
  }

  lemma ContainedLater(s: string, sub: string)
    requires s != "" && Contains(s, sub) && !MatchAt(s, 0, sub)
    ensures Contains(s[1..], sub)
  {
    var i :| 0 <= i <= |s| && MatchAt(s, i, sub);
    assert s[1..][i - 1..i - 1 + |sub|] == s[i..i + |sub|];
    assert MatchAt(s[1..], i - 1, sub);
  }

  lemma ContainedEarlier(s: string, sub: string)
    requires s != "" && Contains(s[1..], sub)
    ensures Contains(s, sub)
  {
    var i :| 0 <= i <= |s[1..]| && MatchAt(s[1..], i, sub);
    assert s[i + 1..i + 1 + |sub|] == s[1..][i..i + |sub|];
    assert MatchAt(s, i + 1, sub);
  }

  /** A text that contains sub contains its characters. */
  lemma ContainedChars(s: string, sub: string, c: char)
    requires Contains(s, sub) && c in sub
    ensures c in s
  {
    var i :| 0 <= i <= |s| && MatchAt(s, i, sub);
    var k :| 0 <= k < |sub| && sub[k] == c;
    assert s[i..i + |sub|][k] == s[i + k];
  }

  lemma {:induction false} ReplaceNothing(s: string, from: string, to: string)
    requires from != "" && !Contains(s, from)
    ensures ReplaceAll(s, from, to) == s
  {
    if s != "" {
      assert !MatchAt(s, 0, from);
      if Contains(s[1..], from) {
        ContainedEarlier(s, from);
      }
      ReplaceNothing(s[1..], from, to);
    }
  }

  // ------------------------------------------------------------ references

  predicate NameHead(c: char) {
    'A' <= c <= 'Z' || 'a' <= c <= 'z' || c == '_'
  }

  predicate NameChar(c: char) {
    NameHead(c) || '0' <= c <= '9'
  }

  predicate IsName(s: string) {
    s != "" && NameHead(s[0]) && forall c | c in s :: NameChar(c)
  }

  /** The length of the longest run of name characters at the start. */
  function NameRun(s: string): (n: nat)
    ensures n <= |s| && (forall i | 0 <= i < n :: NameChar(s[i])) && (n < |s| ==> !NameChar(s[n]))
  {
    if s == "" || !NameChar(s[0]) then 0 else 1 + NameRun(s[1..])
  }

  datatype Token = Lit(c: char) | Ref(name: string, def: Option<string>)

  function Show(t: Token): string {
    match t
    case Lit(c) => [c]
    case Ref(name, None) => "${" + name + "}"
    case Ref(name, Some(d)) => "${" + name + ":" + d + "}"
  }

  /** The reference that starts s, if one does: a name, then "}" or ":" and everything up to the next "}". */
  function RefAt(s: string): (t: Option<Token>)
    ensures t.Some? ==> t.value.Ref? && IsName(t.value.name) && Show(t.value) <= s
    ensures t.Some? && t.value.def.Some? ==> '}' !in t.value.def.value
  {
    if !MatchAt(s, 0, OPEN) then None
    else
      var n := NameRun(s[2..]);
      var name := s[2..][..n];
      assert s == "${" + name + s[2..][n..];
      if IsName(name) then RefEnd(name, s[2..][n..]) else None
  }

  /** What ends a reference to name. */
  function RefEnd(name: string, s: string): (t: Option<Token>)
    ensures t.Some? ==> t.value.Ref? && t.value.name == name && Show(t.value) <= "${" + name + s
    ensures t.Some? && t.value.def.Some? ==> '}' !in t.value.def.value
  {
    if s == "" then None
    else if s[0] == '}' then
      assert "${" + name + s == "${" + name + "}" + s[1..];
      Some(Ref(name, None))
    else if s[0] == ':' then
      var k := IndexOf(s[1..], '}');
      if k == |s| - 1 then None
      else
        var d := s[1..][..k];
        assert s == ":" + d + "}" + s[1..][k + 1..];
        assert "${" + name + s == "${" + name + ":" + d + "}" + s[1..][k + 1..];
        Some(Ref(name, Some(d)))
    else None
  }

  /** The regular expression's leftmost matches, and the characters between them. */
  function Lex(s: string): seq<Token> {
    if s == "" then []
    else
      var r := RefAt(s);
      if r.Some? then [r.value] + Lex(s[|Show(r.value)|..]) else [Lit(s[0])] + Lex(s[1..])
  }

  function Value(t: Token, lookup: Lookup): string {
    match t
    case Lit(c) => [c]
    case Ref(name, def) =>
      match lookup(name)
      case Some(v) => v
      case None => if def.Some? then def.value else ""
  }

  function Subst(ts: seq<Token>, lookup: Lookup): string {
    if ts == [] then "" else Value(ts[0], lookup) + Subst(ts[1..], lookup)
  }

  /** Names without a value and without a default, each once. */
  function Missing(ts: seq<Token>, lookup: Lookup): seq<string> {
    if ts == [] then []
    else
      var init, t := ts[..|ts| - 1], ts[|ts| - 1];
      var m := Missing(init, lookup);
      if t.Ref? && lookup(t.name).None? && t.def.None? && t.name !in m then m + [t.name] else m
  }

  function Escaped(s: string): string {
    ReplaceAll(s, ESCAPE, PLACEHOLDER)
  }

  function ExpandVars(s: string, lookup: Lookup): (string, seq<string>) {
    var ts := Lex(Escaped(s));
    (ReplaceAll(Subst(ts, lookup), PLACEHOLDER, OPEN), Missing(ts, lookup))
  }

  predicate ExpandsToItself(s: string) {
    ExpandVars(s, NoLookup).0 == s
  }

  // ------------------------------------------------------------ inert text

  /** No reference, no escape and no placeholder. */
  ghost predicate Inert(s: string) {
    !Contains(s, ESCAPE) && !Contains(s, PLACEHOLDER) && forall t | t in Lex(s) :: t.Lit?
  }

  lemma {:induction false} LiteralsStay(s: string, lookup: Lookup)
    requires forall t | t in Lex(s) :: t.Lit?
    ensures Subst(Lex(s), lookup) == s
  {
    if s != "" {
      assert Lex(s)[0] in Lex(s);
      assert Lex(s)[1..] == Lex(s[1..]);
      assert forall t | t in Lex(s[1..]) :: t in Lex(s);
      LiteralsStay(s[1..], lookup);
    }
  }

  /** A reference without a value and without a default. */
  predicate Lacks(t: Token, lookup: Lookup) {
    t.Ref? && lookup(t.name).None? && t.def.None?
  }

  predicate LacksName(ts: seq<Token>, lookup: Lookup, name: string) {
    exists t | t in ts :: Lacks(t, lookup) && t.name == name
  }

  /** The missing names are exactly those of references without a value and without a default, each once. */
  lemma {:induction false} MissingExactly(ts: seq<Token>, lookup: Lookup)
    ensures forall n :: n in Missing(ts, lookup) <==> LacksName(ts, lookup, n)
    ensures forall i, j | 0 <= i < j < |Missing(ts, lookup)| :: Missing(ts, lookup)[i] != Missing(ts, lookup)[j]
  {
    if ts != [] {
      var init, last := ts[..|ts| - 1], ts[|ts| - 1];
      MissingExactly(init, lookup);
      assert ts == init + [last];
      assert forall n :: LacksName(ts, lookup, n) <==>
             LacksName(init, lookup, n) || (Lacks(last, lookup) && last.name == n);
    }
  }

  /** No variable is reported missing exactly when every reference has a value or a default. */
  lemma NothingMissing(ts: seq<Token>, lookup: Lookup)
    ensures Missing(ts, lookup) == [] <==> forall t | t in ts :: !Lacks(t, lookup)
  {
    MissingExactly(ts, lookup);
    if Missing(ts, lookup) != [] {
      assert Missing(ts, lookup)[0] in Missing(ts, lookup);
    } else {
      forall t | t in ts ensures !Lacks(t, lookup) {
        assert t.Ref? ==> t.name !in Missing(ts, lookup);
      }
    }
  }

  lemma InertExpandsToItself(s: string, lookup: Lookup)
    requires Inert(s)
    ensures ExpandVars(s, lookup) == (s, [])
  {
    ReplaceNothing(s, ESCAPE, PLACEHOLDER);
    LiteralsStay(s, lookup);
    NothingMissing(Lex(s), lookup);
    ReplaceNothing(s, PLACEHOLDER, OPEN);
  }

  lemma {:induction false} CountAbsent(c: char, s: string)
    requires c !in s
    ensures Count(c, s) == 0
  {
    if s != "" {
      CountAbsent(c, s[1..]);
    }
  }

  /** Without values a reference gives way to its default or to nothing: it adds no character and drops its "}". */
  lemma RefShrinks(c: char, t: Token)
    requires t.Ref? && IsName(t.name) && (t.def.Some? ==> '}' !in t.def.value)
    ensures Count(c, Value(t, NoLookup)) <= Count(c, Show(t))
    ensures Count('}', Value(t, NoLookup)) < Count('}', Show(t))
  {
    var v := Value(t, NoLookup);
    var head := if t.def.Some? then "${" + t.name + ":" else "${" + t.name;
    assert Show(t) == head + v + "}";
    CountConcat(c, head + v, "}");
    CountConcat(c, head, v);
    CountConcat('}', head + v, "}");
    CountConcat('}', head, v);
    assert Count('}', "}") == 1;
  }

  lemma {:induction false} SubstCounts(c: char, s: string)
    ensures Count(c, Subst(Lex(s), NoLookup)) <= Count(c, s)
    ensures Count('}', Subst(Lex(s), NoLookup)) == Count('}', s) ==> forall t | t in Lex(s) :: t.Lit?
    ensures Count('}', Subst(Lex(s), NoLookup)) <= Count('}', s)
  {
    if s != "" {
      var r := RefAt(s);
      var t := if r.Some? then r.value else Lit(s[0]);
      var shown, rest := Show(t), s[|Show(t)|..];
      assert s == shown + rest && Lex(s) == [t] + Lex(rest) && Lex(s)[1..] == Lex(rest);
      SubstCounts(c, rest);
      CountConcat(c, shown, rest);
      CountConcat('}', shown, rest);
      CountConcat(c, Value(t, NoLookup), Subst(Lex(rest), NoLookup));
      CountConcat('}', Value(t, NoLookup), Subst(Lex(rest), NoLookup));
      if t.Ref? {
        RefShrinks(c, t);
      }
    }
  }

  /** One probe without any variable decides for every environment: text that the probe leaves alone is left alone by
      every expansion, and no other text is. */
  lemma ProbeDecides(s: string)
    ensures ExpandsToItself(s) <==> Inert(s)
    ensures ExpandsToItself(s) <==> forall lookup: Lookup :: ExpandVars(s, lookup) == (s, [])
  {
    if Inert(s) {
      forall lookup: Lookup ensures ExpandVars(s, lookup) == (s, []) {
        InertExpandsToItself(s, lookup);
      }
    }
    if ExpandsToItself(s) {
      FixedIsInert(s);
    }
    assert ExpandsToItself(s) <== ExpandVars(s, NoLookup) == (s, []);
  }

  lemma EscapeCounts()
    ensures Count('\\', ESCAPE) == 1 && Count('}', ESCAPE) == 0
  {
    CountAbsent('}', ESCAPE);
    assert ESCAPE == "\\" + OPEN;
    CountConcat('\\', "\\", OPEN);
    CountAbsent('\\', OPEN);
    assert Count('\\', "\\") == 1;
  }

  lemma PlaceholderCounts(p: string)
    requires p == PLACEHOLDER
    ensures Count('\\', p) == 0 && Count('}', p) == 0 && Count('\0', p) >= 1
  {
    assert |p| == 23;
    assert forall i | 0 <= i < 23 :: p[i] != '\\' && p[i] != '}';
    CountAbsent('\\', p);
    CountAbsent('}', p);
    CountAtHead('\0', p);
  }

  lemma CountAtHead(c: char, s: string)
    requires s != "" && s[0] == c
    ensures Count(c, s) >= 1
  {
  }

  lemma OpenCounts()
    ensures Count('\\', OPEN) == 0 && Count('}', OPEN) == 0 && Count('\0', OPEN) == 0
  {
    CountAbsent('\\', OPEN);
    CountAbsent('}', OPEN);
    CountAbsent('\0', OPEN);
  }

  lemma FixedHasNoEscape(s: string)
    requires ExpandsToItself(s)
    ensures !Contains(s, ESCAPE)
  {
    EscapeCounts();
    PlaceholderCounts(PLACEHOLDER);
    OpenCounts();
    var t := Escaped(s);
    ReplaceCounts('\\', s, ESCAPE, PLACEHOLDER);
    SubstCounts('\\', t);
    ReplaceCounts('\\', Subst(Lex(t), NoLookup), PLACEHOLDER, OPEN);
  }

  lemma FixedHasNoReference(s: string)
    requires ExpandsToItself(s)
    ensures !Contains(s, ESCAPE) && Escaped(s) == s && forall t | t in Lex(s) :: t.Lit?
  {
    FixedHasNoEscape(s);
    ReplaceNothing(s, ESCAPE, PLACEHOLDER);
    NoReference(s);
  }

  /** Without an escape, a reference would shorten the text. */
  lemma NoReference(s: string)
    requires ReplaceAll(Subst(Lex(s), NoLookup), PLACEHOLDER, OPEN) == s
    ensures forall t | t in Lex(s) :: t.Lit?
  {
    PlaceholderCounts(PLACEHOLDER);
    OpenCounts();
    KeepsBraces(s, PLACEHOLDER, OPEN);
  }

  lemma KeepsBraces(s: string, from: string, to: string)
    requires from != "" && Count('}', to) <= Count('}', from) && ReplaceAll(Subst(Lex(s), NoLookup), from, to) == s
    ensures forall t | t in Lex(s) :: t.Lit?
  {
    SubstCounts('}', s);
    ReplaceCounts('}', Subst(Lex(s), NoLookup), from, to);
  }

  lemma FixedIsInert(s: string)
    requires ExpandsToItself(s)
    ensures Inert(s)
  {
    PlaceholderCounts(PLACEHOLDER);
    OpenCounts();
    FixedHasNoReference(s);
    LiteralsStay(s, NoLookup);
    ReplaceCounts('\0', s, PLACEHOLDER, OPEN);
  }
}
