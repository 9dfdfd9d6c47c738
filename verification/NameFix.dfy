/** Manifest names: the validator, and the fix it suggests. */
module NameFix {
  import opened Text

  predicate Letter(c: char) {
    'a' <= c <= 'z'
  }

  predicate Alphanumeric(c: char) {
    Letter(c) || '0' <= c <= '9'
  }

  /** unicode.ToLower, of which only this is used: the characters of a name are lower case already. */
  type Lowering = f: char -> char | forall c | Alphanumeric(c) || c == '_' :: f(c) == c
    witness (c: char) => c

  /** nameRegex. */
  predicate Matches(s: string) {
    && 0 < |s| <= 64 && Letter(s[0])
    && forall i | 0 <= i < |s| :: Alphanumeric(s[i]) || s[i] == '_'
  }

  /** The length of s in UTF-8. */
  function Bytes(s: string): nat {
    if s == "" then 0
    else
      var first := if s[0] < '\U{80}' then 1 else if s[0] < '\U{800}' then 2 else if s[0] < '\U{10000}' then 3 else 4;
      first + Bytes(s[1..])
  }

  // --------------------------------------------------------------- the fix

  predicate Separator(c: char) {
    c == '-' || c == ' ' || c == '.'
  }

  function Lowered(lower: Lowering, s: string): (r: string)
    ensures |r| == |s| && forall i | 0 <= i < |s| :: r[i] == if Separator(lower(s[i])) then '_' else lower(s[i])
  {
    if s == "" then "" else [if Separator(lower(s[0])) then '_' else lower(s[0])] + Lowered(lower, s[1..])
  }

  /** Letters, digits and single underscores between them. */
  function Squeezed(s: string): string {
    if s == "" then ""
    else
      var b, c := Squeezed(s[..|s| - 1]), s[|s| - 1];
      if Alphanumeric(c) || (c == '_' && b != "" && b[|b| - 1] != '_') then b + [c] else b
  }

  method Squeeze(s: string) returns (b: string)
    ensures b == Squeezed(s)
  {
    b := "";
    var lastUnderscore := false;
    for n := 0 to |s|
      invariant b == Squeezed(s[..n])
      invariant lastUnderscore <==> b != "" && b[|b| - 1] == '_'
    {
      assert s[..n + 1][..n] == s[..n];
      if Alphanumeric(s[n]) {
        b := b + [s[n]];
        lastUnderscore := false;
      } else if s[n] == '_' {
        if |b| > 0 && !lastUnderscore {
          b := b + "_";
          lastUnderscore := true;
        }
      }
    }
    assert s[..|s|] == s;
  }

  function TrimLeft(s: string, c: char): string {
    if s == "" || s[0] != c then s else TrimLeft(s[1..], c)
  }

  /** The name before it is cut to length: it begins with a letter. */
  function Started(s: string): string {
    if s == "" || !Letter(s[0]) then "ds_" + s else s
  }

  function Cut(s: string): string {
    if |s| > 64 then TrimRight(s[..64], '_') else s
  }

  function Trimmed(lower: Lowering, name: string): string {
    TrimLeft(TrimRight(Squeezed(Lowered(lower, TrimSpace(name))), '_'), '_')
  }

  function Suggestion(lower: Lowering, name: string): string {
    if name == "" then ""
    else
      var result := Cut(Started(Trimmed(lower, name)));
      if Matches(result) then result else ""
  }

  method SuggestNameFix(lower: Lowering, name: string) returns (fix: string)
    ensures fix == Suggestion(lower, name)
  {
    if name == "" { return ""; }
    var b := Squeeze(Lowered(lower, TrimSpace(name)));
    var result := TrimLeft(TrimRight(b, '_'), '_');
    if result == "" || !Letter(result[0]) {
      result := "ds_" + result;
    }
    if |result| > 64 {
      result := TrimRight(result[..64], '_');
    }
    if Matches(result) { return result; }
    return "";
  }

  // --------------------------------------------------------- the validator

  const RESERVED := "_inline_"

  datatype Verdict = Accepted | Required | TooLong | Reserved | Invalid(suggestion: Option<string>)

  method ValidateName(lower: Lowering, name: string) returns (v: Verdict)
    ensures v == VerdictOf(lower, name)
  {
    if name == "" { return Required; }
    if Bytes(name) > 64 { return TooLong; }
    if RESERVED <= name { return Reserved; }
    if !Matches(name) {
      var suggestion := SuggestNameFix(lower, name);
      return Invalid(if suggestion != "" && suggestion != name then Some(suggestion) else None);
    }
    return Accepted;
  }

  function VerdictOf(lower: Lowering, name: string): Verdict {
    if name == "" then Required
    else if Bytes(name) > 64 then TooLong
    else if RESERVED <= name then Reserved
    else if Matches(name) then Accepted
    else
      var s := Suggestion(lower, name);
      Invalid(if s != "" && s != name then Some(s) else None)
  }

  // ------------------------------------------------------------- properties

  /** A name is accepted exactly if it has the form of one: the length and the reserved prefix exclude nothing more. */
  lemma AcceptedExactly(lower: Lowering, name: string)
    ensures VerdictOf(lower, name) == Accepted <==> Matches(name)
    ensures VerdictOf(lower, name) == Accepted <==>
              && 1 <= |name| <= 64 && 'a' <= name[0] <= 'z'
              && forall c | c in name :: 'a' <= c <= 'z' || '0' <= c <= '9' || c == '_'
  {
    assert forall i | 0 <= i < |name| :: name[i] in name;
    if Matches(name) {
      MatchBytes(name);
      assert RESERVED[0] == '_';
    }
  }

  predicate NoDoubled(s: string) {
    forall i | 0 < i < |s| :: s[i] == '_' ==> s[i - 1] != '_'
  }

  /** What the builder holds. */
  predicate Squeezing(s: string) {
    && (forall i | 0 <= i < |s| :: Alphanumeric(s[i]) || s[i] == '_')
    && NoDoubled(s) && (s != "" ==> s[0] != '_')
  }

  lemma {:induction false} SqueezedShape(s: string)
    ensures Squeezing(Squeezed(s))
  {
    if s != "" {
      SqueezedShape(s[..|s| - 1]);
    }
  }

  lemma TrimLeftNothing(s: string)
    requires s == "" || s[0] != '_'
    ensures TrimLeft(s, '_') == s
  {
  }

  /** The trimmed name: squeezed, with a letter or digit at both ends. */
  lemma TrimmedShape(lower: Lowering, name: string)
    ensures var t := Trimmed(lower, name);
            Squeezing(t) && (t != "" ==> t[|t| - 1] != '_')
                && t == TrimRight(Squeezed(Lowered(lower, TrimSpace(name))), '_')
  {
    var b := Squeezed(Lowered(lower, TrimSpace(name)));
    SqueezedShape(Lowered(lower, TrimSpace(name)));
    var t := TrimRight(b, '_');
    assert forall i | 0 <= i < |t| :: t[i] == b[i];
    TrimLeftNothing(t);
  }

  lemma StartedShape(t: string)
    requires Squeezing(t) && (t != "" ==> t[|t| - 1] != '_')
    ensures Squeezing(Started(t)) && Letter(Started(t)[0])
    ensures Started(t)[|Started(t)| - 1] == '_' <==> t == ""
  {
  }

  lemma CutShape(s: string)
    requires Squeezing(s) && s != "" && Letter(s[0])
    ensures Matches(Cut(s)) && NoDoubled(Cut(s)) && Cut(s) <= s
    ensures |s| > 64 ==> |Cut(s)| >= 63 && Cut(s)[|Cut(s)| - 1] != '_'
  {
    if |s| > 64 {
      var t := TrimRight(s[..64], '_');
      assert s[63] == '_' ==> s[62] != '_';
      assert |t| >= 63;
      assert forall i | 0 <= i < |t| :: t[i] == s[i];
    }
  }

  lemma {:induction false} MatchBytes(s: string)
    requires forall i | 0 <= i < |s| :: Alphanumeric(s[i]) || s[i] == '_'
    ensures Bytes(s) == |s|
  {
    if s != "" {
      MatchBytes(s[1..]);
    }
  }

  /** Name fixing is total: any text is given a name that the validator accepts, without a doubled underscore, and
      without one at the end unless nothing of the text was left. */
  lemma FixIsAccepted(lower: Lowering, name: string)
    requires name != ""
    ensures VerdictOf(lower, Suggestion(lower, name)) == Accepted
    ensures var fix := Suggestion(lower, name);
            fix != "" && NoDoubled(fix) && (fix[|fix| - 1] == '_' ==> fix == "ds_")
  {
    var t := Trimmed(lower, name);
    TrimmedShape(lower, name);
    StartedShape(t);
    CutShape(Started(t));
    MatchBytes(Cut(Started(t)));
    assert RESERVED[0] == '_';
  }

  predicate IsWord(s: string) {
    s != "" && forall c | c in s :: 'a' <= c <= 'z' || '0' <= c <= '9'
  }

  lemma {:induction false} WordStays(s: string, word: string)
    requires forall c | c in word :: Alphanumeric(c)
    ensures Squeezed(s + word) == Squeezed(s) + word
  {
    if word == "" {
      assert s + word == s;
    } else {
      var init, last := word[..|word| - 1], word[|word| - 1];
      WordStays(s, init);
      assert last in word && forall c | c in init :: c in word;
      assert (s + word)[..|s + word| - 1] == s + init;
    }
  }

  /** "-", a space, "." and "_" between two words give one underscore. */
  lemma SeparatorBetweenWords(lower: Lowering, a: string, c: char, b: string)
    requires IsWord(a) && IsWord(b) && 'a' <= a[0] <= 'z' && |a| + 1 + |b| <= 64 && lower(c) in "- ._"
    ensures Suggestion(lower, a + [c] + b) == a + "_" + b
  {
    LoweredOne(lower, c);
    BetweenWords(lower, a, c, b, '_');
    SqueezedBetween(a, '_', b, "_");
    StaysAsIs(lower, a + [c] + b, a, "_", b);
  }

  /** What is neither one of these nor a letter nor a digit gives nothing. */
  lemma NothingBetweenWords(lower: Lowering, a: string, c: char, b: string)
    requires IsWord(a) && IsWord(b) && 'a' <= a[0] <= 'z' && |a| + |b| <= 64
    requires lower(c) !in "- ._" && !('a' <= lower(c) <= 'z') && !('0' <= lower(c) <= '9')
    ensures Suggestion(lower, a + [c] + b) == a + b
  {
    LoweredOne(lower, c);
    Dropped(lower, a, c, b, lower(c), "");
  }

  lemma Dropped(lower: Lowering, a: string, c: char, b: string, x: char, none: string)
    requires IsWord(a) && IsWord(b) && 'a' <= a[0] <= 'z' && |a| + |b| <= 64
    requires !Alphanumeric(x) && x != '_' && [x] == Lowered(lower, [c]) && none == ""
    ensures Suggestion(lower, a + [c] + b) == a + b
  {
    BetweenWords(lower, a, c, b, x);
    SqueezedBetween(a, x, b, none);
    assert a + none == a;
    StaysAsIs(lower, a + [c] + b, a, none, b);
  }

  lemma BetweenWords(lower: Lowering, a: string, c: char, b: string, x: char)
    requires IsWord(a) && IsWord(b) && [x] == Lowered(lower, [c])
    ensures TrimSpace(a + [c] + b) == a + [c] + b && Lowered(lower, a + [c] + b) == a + [x] + b
  {
    WordEnds(a, [c], b);
    LoweredWord(lower, a);
    LoweredWord(lower, b);
    LoweredJoined(lower, a, [c]);
    LoweredJoined(lower, a + [c], b);
  }

  lemma LoweredOne(lower: Lowering, c: char)
    ensures Lowered(lower, [c]) == [if lower(c) in "- ._" then '_' else lower(c)]
  {
    assert [c][1..] == "";
  }

  lemma {:induction false} LoweredJoined(lower: Lowering, a: string, b: string)
    ensures Lowered(lower, a + b) == Lowered(lower, a) + Lowered(lower, b)
  {
    if a == "" {
      assert a + b == b;
    } else {
      assert (a + b)[1..] == a[1..] + b;
      LoweredJoined(lower, a[1..], b);
    }
  }

  lemma {:induction false} LoweredWord(lower: Lowering, a: string)
    requires forall c | c in a :: Alphanumeric(c)
    ensures Lowered(lower, a) == a
  {
    if a != "" {
      LoweredWord(lower, a[1..]);
      assert a[0] in a && a == [a[0]] + a[1..];
    }
  }

  lemma WordEnds(a: string, mid: string, b: string)
    requires IsWord(a) && IsWord(b)
    ensures var s := a + mid + b;
            && s != "" && s[0] == a[0]
            && Alphanumeric(s[0]) && Alphanumeric(s[|s| - 1]) && !IsSpace(s[0]) && !IsSpace(s[|s| - 1])
  {
    var s := a + mid + b;
    assert s[0] == a[0] && a[0] in a && s[|s| - 1] == b[|b| - 1] && b[|b| - 1] in b;
  }

  lemma SqueezedBetween(a: string, x: char, b: string, mid: string)
    requires IsWord(a) && IsWord(b) && !Alphanumeric(x) && mid == if x == '_' then "_" else ""
    ensures Squeezed(a + [x] + b) == a + mid + b
  {
    WordStays("", a);
    assert "" + a == a && a[|a| - 1] in a;
    assert (a + [x])[..|a|] == a;
    WordStays(a + [x], b);
    assert a + "" == a;
  }

  /** What is squeezed to two words within the length is left at that. */
  lemma StaysAsIs(lower: Lowering, name: string, a: string, mid: string, b: string)
    requires IsWord(a) && IsWord(b) && 'a' <= a[0] <= 'z' && |a + mid + b| <= 64 && (mid == "" || mid == "_")
    requires name != "" && Squeezed(Lowered(lower, TrimSpace(name))) == a + mid + b
    ensures Suggestion(lower, name) == a + mid + b
  {
    var t := a + mid + b;
    WordEnds(a, mid, b);
    TrimLeftNothing(t);
    assert Trimmed(lower, name) == t;
    WordsMatch(a, mid, b);
  }

  lemma WordsMatch(a: string, mid: string, b: string)
    requires IsWord(a) && IsWord(b) && 'a' <= a[0] <= 'z' && |a + mid + b| <= 64 && (mid == "" || mid == "_")
    ensures Matches(a + mid + b)
  {
    var t := a + mid + b;
    forall i | 0 <= i < |t| ensures Alphanumeric(t[i]) || t[i] == '_' {
      assert t[i] in a || t[i] in mid || t[i] in b;
    }
  }

  /** An invalid name is always answered with a suggestion. */
  lemma InvalidSuggests(lower: Lowering, name: string)
    requires VerdictOf(lower, name).Invalid?
    ensures VerdictOf(lower, name) == Invalid(Some(Suggestion(lower, name)))
  {
    FixIsAccepted(lower, name);
  }

  lemma {:induction false} SqueezedKeeps(s: string)
    requires Squeezing(s)
    ensures Squeezed(s) == s
  {
    if s != "" {
      var init := s[..|s| - 1];
      assert NoDoubled(init);
      SqueezedKeeps(init);
      assert init + [s[|s| - 1]] == s;
    }
  }

  lemma LoweredKeeps(lower: Lowering, s: string)
    requires forall i | 0 <= i < |s| :: Alphanumeric(s[i]) || s[i] == '_'
    ensures Lowered(lower, s) == s
  {
    assert forall i | 0 <= i < |s| :: Lowered(lower, s)[i] == s[i];
  }

  /** The names left as they are: those the pattern matches, without a doubled underscore or one at the end. */
  lemma FixedExactly(lower: Lowering, name: string)
    requires name != ""
    ensures Suggestion(lower, name) == name <==> Matches(name) && NoDoubled(name) && name[|name| - 1] != '_'
  {
    FixIsAccepted(lower, name);
    if Matches(name) && NoDoubled(name) {
      SqueezesToItself(lower, name);
      if name[|name| - 1] != '_' {
        StaysFixed(lower, name);
      } else {
        EndsElsewhere(lower, name);
      }
    }
  }

  lemma SqueezesToItself(lower: Lowering, name: string)
    requires Matches(name) && NoDoubled(name)
    ensures TrimSpace(name) == name && Lowered(lower, name) == name && Squeezed(name) == name
  {
    LoweredKeeps(lower, name);
    SqueezedKeeps(name);
    NothingToTrim(name);
  }

  lemma NothingToTrim(name: string)
    requires Matches(name)
    ensures TrimSpace(name) == name
  {
    var last := name[|name| - 1];
    assert Alphanumeric(last) || last == '_';
  }

  lemma StaysFixed(lower: Lowering, name: string)
    requires Matches(name) && NoDoubled(name) && name[|name| - 1] != '_'
    ensures Suggestion(lower, name) == name
  {
    SqueezesToItself(lower, name);
    TrimLeftNothing(name);
    assert Trimmed(lower, name) == name;
  }

  /** A name that ends in an underscore is changed. */
  lemma EndsElsewhere(lower: Lowering, name: string)
    requires Matches(name) && name[|name| - 1] == '_' && Lowered(lower, name) == name && Squeezed(name) == name
    requires TrimSpace(name) == name
    ensures Suggestion(lower, name) != name
  {
    var t := TrimRight(name, '_');
    TrimmedShape(lower, name);
    assert |t| < |name|;
    assert t != "" && t[0] == name[0];
    assert Started(t) == t;
  }

  /** A second fix changes nothing, unless the first left no more than its own prefix. */
  lemma FixedAgain(lower: Lowering, name: string)
    requires name != ""
    ensures var fix := Suggestion(lower, name);
            Suggestion(lower, fix) == fix <==> fix != "ds_"
  {
    FixIsAccepted(lower, name);
    FixedExactly(lower, Suggestion(lower, name));
  }

  function Kept(s: string): string {
    if s == "" then "" else Kept(s[..|s| - 1]) + if Alphanumeric(s[|s| - 1]) then [s[|s| - 1]] else ""
  }

  lemma {:induction false} SqueezedKept(s: string)
    ensures Kept(Squeezed(s)) == Kept(s)
  {
    if s != "" {
      SqueezedKept(s[..|s| - 1]);
    }
  }

  lemma {:induction false} TrimRightKept(s: string)
    ensures Kept(TrimRight(s, '_')) == Kept(s)
  {
    if s != "" && s[|s| - 1] == '_' {
      TrimRightKept(s[..|s| - 1]);
    }
  }

  lemma {:induction false} KeptConcat(a: string, b: string)
    ensures Kept(a + b) == Kept(a) + Kept(b)
  {
    if b == "" {
      assert a + b == a;
    } else {
      assert (a + b)[..|a + b| - 1] == a + b[..|b| - 1];
      KeptConcat(a, b[..|b| - 1]);
    }
  }

  lemma KeptDs()
    ensures Kept("ds_") == "ds"
  {
    assert "ds_"[..2] == "ds" && "ds"[..1] == "d" && "d"[..0] == "";
    assert Kept("d") == "d";
    assert Kept("ds") == "ds";
  }

  /** No letter or digit is lost, invented or moved: the fix holds those of the lowered text, after "ds" where it does
      not begin with a letter, and drops some only at the end of a name that is cut to length. */
  lemma FixKeepsText(lower: Lowering, name: string)
    requires name != ""
    ensures var fix, t := Suggestion(lower, name), Kept(Lowered(lower, TrimSpace(name)));
            var all := (if t == "" || !Letter(t[0]) then "ds" else "") + t;
            Kept(fix) <= all && (|fix| < 63 ==> Kept(fix) == all)
  {
    var t := Trimmed(lower, name);
    TrimmedShape(lower, name);
    TrimmedKept(lower, name);
    StartedKept(t);
    StartedShape(t);
    CutShape(Started(t));
    CutKept(Started(t));
  }

  lemma TrimmedKept(lower: Lowering, name: string)
    ensures Kept(Trimmed(lower, name)) == Kept(Lowered(lower, TrimSpace(name)))
  {
    var s := Lowered(lower, TrimSpace(name));
    TrimmedShape(lower, name);
    SqueezedKept(s);
    TrimRightKept(Squeezed(s));
  }

  lemma CutKept(s: string)
    requires Squeezing(s) && s != "" && Letter(s[0])
    ensures Kept(Cut(s)) <= Kept(s) && (|Cut(s)| < 63 ==> Kept(Cut(s)) == Kept(s))
  {
    CutShape(s);
    var rest := s[|Cut(s)|..];
    assert s == Cut(s) + rest;
    KeptConcat(Cut(s), rest);
  }

  lemma StartedKept(t: string)
    requires Squeezing(t)
    ensures Kept(Started(t)) == (if Kept(t) == "" || !Letter(Kept(t)[0]) then "ds" else "") + Kept(t)
  {
    KeptDs();
    KeptConcat("ds_", t);
    if t != "" {
      assert t == [t[0]] + t[1..];
      KeptConcat([t[0]], t[1..]);
      assert [t[0]][..0] == "";
      assert Kept([t[0]]) == [t[0]];
    }
  }
}
