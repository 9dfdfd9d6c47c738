/** The editor of bino.toml: which lines it finds, what it takes out, and what the text then declares. */
module Manifests {
  import opened Text
  import opened Sequences

  /** The dependencies a text declares; None if it does not parse. */
  type Toml = string -> Option<map<string, string>>

  // ------------------------------------------------------------- the patterns

  /** The multi-line patterns of the editor. Each matches whole lines. */
  datatype Pattern = DependenciesHeader | TableHeader | KeyLine(name: string)

  function SkipBlanks(s: string): string {
    if s != "" && (s[0] == ' ' || s[0] == '\t') then SkipBlanks(s[1..]) else s
  }

  const HEADER := "[dependencies]"

  predicate EndsOrComments(s: string) {
    s == "" || s[0] == '#'
  }

  /** The key between two quotes, and an equals sign. */
  predicate Assigns(quote: char, name: string, s: string) {
    var key := [quote] + name + [quote];
    key <= s && var t := SkipBlanks(s[|key|..]); t != "" && t[0] == '='
  }

  predicate Matches(p: Pattern, line: string) {
    var s := SkipBlanks(line);
    match p
    case DependenciesHeader => HEADER <= s && EndsOrComments(SkipBlanks(s[|HEADER|..]))
    case TableHeader => s != "" && s[0] == '['
    case KeyLine(name) => Assigns('"', name, s) || Assigns('\'', name, s)
  }

  /** A text cut at a line. */
  datatype Cut = Cut(before: string, line: string, after: string)

  /** regexp.FindStringIndex for such a pattern: the text is cut at the first line that matches. */
  function FindLine(p: Pattern, s: string): Option<Cut> {
    var e := IndexOf(s, '\n');
    if Matches(p, s[..e]) then Some(Cut("", s[..e], s[e..]))
    else if e == |s| then None
    else
      match FindLine(p, s[e + 1..])
      case None => None
      case Some(c) => Some(Cut(s[..e] + "\n" + c.before, c.line, c.after))
  }

  // --------------------------------------------------------------- the editor

  function Newline(s: string): string {
    if s != "" && s[0] == '\n' then "\n" else ""
  }

  function SkipNewline(s: string): string {
    if s != "" && s[0] == '\n' then s[1..] else s
  }

  /** What follows a header line: the body of its table, to the next header or the end, and the rest. */
  function TableExtent(s: string): (string, string) {
    match FindLine(TableHeader, s)
    case None => (s, "")
    case Some(c) => (c.before, c.line + c.after)
  }

  /** The text without the line of the key, or the same text when there is no such line. */
  function WithoutKey(s: string, name: string): string {
    match FindLine(DependenciesHeader, s)
    case None => s
    case Some(h) =>
      match FindKey(SkipNewline(h.after), name)
      case None => s
      case Some(k) => h.before + h.line + Newline(h.after) + (k.before + SkipNewline(k.after))
  }

  /** The line of the key in the table that s begins with. */
  function FindKey(s: string, name: string): Option<Cut> {
    var (body, rest) := TableExtent(s);
    match FindLine(KeyLine(name), body)
    case None => None
    case Some(k) => Some(Cut(k.before, k.line, k.after + rest))
  }

  // ----------------------------------------------------------- line by line

  function Lines(text: string): (r: seq<string>)
    ensures r != []
  {
    var e := IndexOf(text, '\n');
    if e == |text| then [text] else [text[..e]] + Lines(text[e + 1..])
  }

  /** Where the first line ends. */
  lemma FirstLineEnds(s: string, e: nat)
    requires e < |s| && s[e] == '\n' && '\n' !in s[..e]
    ensures IndexOf(s, '\n') == e && Lines(s) == [s[..e]] + Lines(s[e + 1..])
  {
    assert forall j | 0 <= j < e :: s[j] == s[..e][j];
  }

  lemma {:induction false} LinesOfJoined(a: string, b: string)
    ensures Lines(a + "\n" + b) == Lines(a) + Lines(b)
  {
    var s, e := a + "\n" + b, IndexOf(a, '\n');
    assert s[..e] == a[..e];
    FirstLineEnds(s, e);
    if e < |a| {
      assert s[e + 1..] == a[e + 1..] + "\n" + b;
      LinesOfJoined(a[e + 1..], b);
      Regroup([a[..e]], Lines(a[e + 1..]), Lines(b));
    } else {
      assert s[e + 1..] == b && a[..e] == a;
    }
  }

  datatype Place = Above | Inside | Below

  /** Where the line after this one stands, seen from the dependencies table. */
  function Next(at: Place, line: string): Place {
    match at
    case Above => if Matches(DependenciesHeader, line) then Inside else Above
    case Inside => if Matches(TableHeader, line) then Below else Inside
    case Below => Below
  }

  /** The line the editor takes for the declaration of name: the first of its table that assigns the quoted key. */
  function KeyAt(lines: seq<string>, at: Place, name: string): (r: Option<nat>)
    ensures r.Some? ==> r.value < |lines| && Matches(KeyLine(name), lines[r.value])
  {
    if lines == [] then None
    else if at == Inside && Matches(KeyLine(name), lines[0]) then Some(0)
    else Plus(1, KeyAt(lines[1..], Next(at, lines[0]), name))
  }

  function Plus(n: nat, r: Option<nat>): Option<nat> {
    if r.None? then None else Some(n + r.value)
  }

  predicate Finds(text: string, name: string) {
    KeyAt(Lines(text), Above, name).Some?
  }

  /** A line and its newline go; the newline before the last line stays. */
  function TakenOut(lines: seq<string>, k: nat): seq<string>
    requires k < |lines|
  {
    lines[..k] + if k + 1 < |lines| then lines[k + 1..] else [""]
  }

  predicate NoneMatch(p: Pattern, lines: seq<string>) {
    forall i | 0 <= i < |lines| :: !Matches(p, lines[i])
  }

  lemma OneLine(s: string)
    requires '\n' !in s
    ensures Lines(s) == [s]
  {
  }

  lemma NoneMatchInFront(p: Pattern, line: string, lines: seq<string>)
    ensures NoneMatch(p, [line] + lines) <==> !Matches(p, line) && NoneMatch(p, lines)
  {
    assert ([line] + lines)[0] == line;
    assert forall i | 0 <= i < |lines| :: ([line] + lines)[i + 1] == lines[i];
  }

  lemma NotInside(lines: seq<string>, name: string)
    ensures KeyAt(lines, Below, name) == None
  {
  }

  lemma {:induction false} KeyBelowPlain(pre: seq<string>, rest: seq<string>, name: string)
    requires NoneMatch(DependenciesHeader, pre)
    ensures KeyAt(pre + rest, Above, name) == Plus(|pre|, KeyAt(rest, Above, name))
  {
    if pre == [] {
      assert pre + rest == rest;
    } else {
      assert (pre + rest)[0] == pre[0] && (pre + rest)[1..] == pre[1..] + rest;
      KeyBelowPlain(pre[1..], rest, name);
    }
  }

  lemma {:induction false} KeyBelowOthers(pre: seq<string>, rest: seq<string>, name: string)
    requires NoneMatch(TableHeader, pre) && NoneMatch(KeyLine(name), pre)
    ensures KeyAt(pre + rest, Inside, name) == Plus(|pre|, KeyAt(rest, Inside, name))
  {
    if pre == [] {
      assert pre + rest == rest;
    } else {
      assert (pre + rest)[0] == pre[0] && (pre + rest)[1..] == pre[1..] + rest;
      KeyBelowOthers(pre[1..], rest, name);
    }
  }

  lemma KeyIsNoHeader(name: string, line: string)
    requires Matches(KeyLine(name), line)
    ensures !Matches(TableHeader, line) && !Matches(DependenciesHeader, line) && line != ""
  {
    var s := SkipBlanks(line);
    assert ([('"')] + name + ['"'])[0] == '"' && (['\''] + name + ['\''])[0] == '\'';
    assert HEADER[0] == '[';
  }

  lemma BelowTheBody(below: seq<string>, name: string)
    requires below == [] || Matches(TableHeader, below[0])
    ensures KeyAt(below, Inside, name) == None
  {
    if below != [] {
      if Matches(KeyLine(name), below[0]) { KeyIsNoHeader(name, below[0]); }
      NotInside(below[1..], name);
    }
  }

  lemma FirstKey(above: seq<string>, key: string, under: seq<string>, name: string)
    requires NoneMatch(TableHeader, above) && NoneMatch(KeyLine(name), above) && Matches(KeyLine(name), key)
    ensures KeyAt(above + ([key] + under), Inside, name) == Some(|above|)
  {
    KeyBelowOthers(above, [key] + under, name);
  }

  lemma NoneMatchInPart(p: Pattern, a: seq<string>, b: seq<string>)
    requires NoneMatch(p, a + b)
    ensures NoneMatch(p, a)
  {
    assert forall i | 0 <= i < |a| :: (a + b)[i] == a[i];
  }

  lemma KeyInFirst(header: string, post: seq<string>, name: string)
    requires Matches(DependenciesHeader, header)
    ensures KeyAt([header] + post, Above, name) == Plus(1, KeyAt(post, Inside, name))
  {
    HeadAndTail(header, post);
  }

  lemma SameInit<T>(a: seq<T>, b: seq<T>, x: T)
    requires a + [x] == b + [x]
    ensures a == b
  {
    assert (a + [x])[..|a|] == a && (b + [x])[..|b|] == b;
  }

  // --------------------------------------------- the editor, line by line

  predicate EndsLine(s: string) {
    s == "" || s[|s| - 1] == '\n'
  }

  predicate StartsLine(s: string) {
    s == "" || s[0] == '\n'
  }

  /** The cut is at a line of s, the first that matches. */
  ghost predicate FirstMatch(p: Pattern, s: string, before: string, line: string, after: string) {
    && s == before + line + after && '\n' !in line && EndsLine(before) && StartsLine(after)
    && Matches(p, line) && NoneMatch(p, Lines(before))
  }

  lemma OneNoMatch(p: Pattern, s: string)
    requires '\n' !in s && !Matches(p, s)
    ensures NoneMatch(p, Lines(s))
  {
    OneLine(s);
  }

  lemma {:induction false} NotFoundIs(p: Pattern, s: string)
    requires FindLine(p, s).None?
    ensures NoneMatch(p, Lines(s))
  {
    var e := IndexOf(s, '\n');
    var first := s[..e];
    if e == |s| {
      assert first == s;
      OneNoMatch(p, s);
    } else {
      var rest := s[e + 1..];
      NotFoundIs(p, rest);
      CutAtNewline(s, e);
      LinesOneMore(p, first, rest, s);
    }
  }

  lemma {:induction false} FoundIs(p: Pattern, s: string, before: string, line: string, after: string)
    requires FindLine(p, s) == Some(Cut(before, line, after))
    ensures FirstMatch(p, s, before, line, after)
  {
    var e := IndexOf(s, '\n');
    var first := s[..e];
    if Matches(p, first) {
      FoundFirst(p, s, first, s[e..]);
    } else {
      var rest := s[e + 1..];
      var c := FindLine(p, rest).value;
      FoundIs(p, rest, c.before, c.line, c.after);
      CutAtNewline(s, e);
      FoundNext(p, first, rest, c.before, line, after, s, before);
    }
  }

  lemma CutAtNewline(s: string, e: nat)
    requires e < |s| && s[e] == '\n'
    ensures s == s[..e] + "\n" + s[e + 1..]
  {
  }

  lemma FoundFirst(p: Pattern, s: string, first: string, after: string)
    requires s == first + after && '\n' !in first && StartsLine(after) && Matches(p, first)
    ensures FirstMatch(p, s, "", first, after)
  {
    OneLine("");
    assert "" + first + after == first + after;
  }

  lemma FoundNext(p: Pattern, first: string, rest: string, init: string, line: string, after: string, s: string,
                  before: string)
    requires '\n' !in first && !Matches(p, first) && FirstMatch(p, rest, init, line, after)
    requires s == first + "\n" + rest && before == first + "\n" + init
    ensures FirstMatch(p, s, before, line, after)
  {
    Pieces(first, init, line, after);
    LinesOneMore(p, first, init, before);
  }

  lemma Pieces(first: string, init: string, line: string, after: string)
    requires EndsLine(init)
    ensures first + "\n" + (init + line + after) == first + "\n" + init + line + after
    ensures EndsLine(first + "\n" + init)
  {
  }

  lemma LinesOneMore(p: Pattern, first: string, init: string, before: string)
    requires '\n' !in first && !Matches(p, first) && NoneMatch(p, Lines(init)) && before == first + "\n" + init
    ensures NoneMatch(p, Lines(before))
  {
    OneLine(first);
    LinesOfJoined(first, init);
    NoneMatchInFront(p, first, Lines(init));
  }

  /** The lines above a cut, whatever follows. */
  lemma LinesAbove(before: string) returns (pre: seq<string>)
    requires EndsLine(before)
    ensures Lines(before) == pre + [""] && forall q :: Lines(before + q) == pre + Lines(q)
  {
    OneLine("");
    if before == "" {
      pre := [];
      forall q ensures Lines(before + q) == pre + Lines(q) {
        assert before + q == q && pre + Lines(q) == Lines(q);
      }
    } else {
      var head := before[..|before| - 1];
      pre := Lines(head);
      assert before == head + "\n" + "";
      LinesOfJoined(head, "");
      forall q ensures Lines(before + q) == pre + Lines(q) {
        assert before + q == head + "\n" + q;
        LinesOfJoined(head, q);
      }
    }
  }

  /** The lines below a cut. */
  function LinesBelow(after: string): seq<string> {
    if after == "" then [] else Lines(after[1..])
  }

  lemma LineAndBelow(line: string, after: string)
    requires '\n' !in line && StartsLine(after)
    ensures Lines(line + after) == [line] + LinesBelow(after)
    ensures Lines(SkipNewline(after)) == if after == "" then [""] else LinesBelow(after)
  {
    OneLine(line);
    OneLine("");
    if after == "" {
      assert line + after == line && [line] + [] == [line];
    } else {
      assert line + after == line + "\n" + after[1..];
      LinesOfJoined(line, after[1..]);
    }
  }

  /** body is the text of a table, and rest what comes below. */
  ghost predicate IsExtent(s: string, body: string, rest: string) {
    && s == body + rest && NoneMatch(TableHeader, Lines(body))
    && (rest != "" ==> EndsLine(body) && Matches(TableHeader, Lines(rest)[0]))
  }

  lemma ExtentIs(s: string, body: string, rest: string)
    requires TableExtent(s) == (body, rest)
    ensures IsExtent(s, body, rest)
  {
    var c := FindLine(TableHeader, s);
    if c.None? {
      NotFoundIs(TableHeader, s);
      assert s == s + "";
    } else {
      FoundIs(TableHeader, s, c.value.before, c.value.line, c.value.after);
      LineAndBelow(c.value.line, c.value.after);
      Regroup(c.value.before, c.value.line, c.value.after);
    }
  }

  lemma NoKeyInBody(s: string, body: string, rest: string, name: string)
    requires IsExtent(s, body, rest) && NoneMatch(KeyLine(name), Lines(body))
    ensures KeyAt(Lines(s), Inside, name) == None
  {
    if rest == "" {
      assert body + "" == body;
      assert Lines(body) + [] == Lines(body);
      KeyBelowOthers(Lines(body), [], name);
    } else {
      var above := LinesAbove(body);
      NoneMatchInPart(TableHeader, above, [""]);
      NoneMatchInPart(KeyLine(name), above, [""]);
      KeyBelowOthers(above, Lines(rest), name);
      BelowTheBody(Lines(rest), name);
    }
  }

  /** The line of the key ends before the next table begins. */
  lemma KeyEndsInBody(body: string, rest: string, before: string, key: string, after: string, name: string)
    requires FirstMatch(KeyLine(name), body, before, key, after) && (rest != "" ==> EndsLine(body))
    ensures StartsLine(after + rest)
  {
    KeyIsNoHeader(name, key);
    assert key[|key| - 1] in key && (before + key)[|before + key| - 1] == key[|key| - 1];
    assert before + key + "" == before + key;
  }

  /** The lines of a text cut at a line. */
  lemma LinesOfCut(before: string, line: string, after: string) returns (above: seq<string>)
    requires EndsLine(before) && '\n' !in line && StartsLine(after)
    ensures Lines(before) == above + [""] && Lines(before + (line + after)) == above + ([line] + LinesBelow(after))
    ensures Lines(before + SkipNewline(after)) == above + if after == "" then [""] else LinesBelow(after)
  {
    above := LinesAbove(before);
    LineAndBelow(line, after);
  }

  /** No table begins above the key. */
  lemma AboveInBody(p: Pattern, body: string, before: string, line: string, after: string, above: seq<string>)
    requires body == before + line + after && EndsLine(before) && Lines(before) == above + [""]
            && NoneMatch(p, Lines(body))
    ensures NoneMatch(p, above)
  {
    var pre := LinesAbove(before);
    SameInit(pre, above, "");
    Regroup(before, line, after);
    NoneMatchInPart(p, above, Lines(line + after));
  }

  lemma KeyInBody(s: string, body: string, rest: string, before: string, key: string, after: string, name: string,
                  below: string) returns (above: seq<string>)
    requires IsExtent(s, body, rest) && FirstMatch(KeyLine(name), body, before, key, after) && below == after + rest
    ensures Lines(s) == above + ([key] + LinesBelow(below)) && KeyAt(Lines(s), Inside, name) == Some(|above|)
    ensures Lines(before + SkipNewline(below)) == above + if below == "" then [""] else LinesBelow(below)
  {
    KeyEndsInBody(body, rest, before, key, after, name);
    above := LinesOfCut(before, key, below);
    InBody(before, key, after, rest);
    AboveInBody(TableHeader, body, before, key, after, above);
    NoneMatchInPart(KeyLine(name), above, [""]);
    FirstKey(above, key, LinesBelow(below), name);
  }

  lemma InBody(before: string, key: string, after: string, rest: string)
    ensures before + key + after + rest == before + (key + (after + rest))
  {
  }

  lemma FindKeyNone(s: string, name: string)
    requires FindKey(s, name).None?
    ensures KeyAt(Lines(s), Inside, name) == None
  {
    var (body, rest) := TableExtent(s);
    ExtentIs(s, body, rest);
    NotFoundIs(KeyLine(name), body);
    NoKeyInBody(s, body, rest, name);
  }

  lemma FindKeySome(s: string, name: string, k: Cut, q: string) returns (above: seq<string>, rest: seq<string>)
    requires FindKey(s, name) == Some(k) && q == k.before + SkipNewline(k.after)
    ensures Lines(s) == above + ([k.line] + LinesBelow(k.after)) && KeyAt(Lines(s), Inside, name) == Some(|above|)
    ensures Lines(q) == above + rest && rest == if LinesBelow(k.after) == [] then [""] else LinesBelow(k.after)
  {
    var (body, rest') := TableExtent(s);
    ExtentIs(s, body, rest');
    var c := FindLine(KeyLine(name), body).value;
    FoundIs(KeyLine(name), body, c.before, c.line, c.after);
    above := KeyInBody(s, body, rest', c.before, c.line, c.after, name, k.after);
    rest := if k.after == "" then [""] else LinesBelow(k.after);
  }

  /** The lines of a text with a header. */
  lemma LinesOfHeader(s: string, before: string, line: string, after: string, name: string) returns (above: seq<string>)
    requires FirstMatch(DependenciesHeader, s, before, line, after)
    ensures Lines(before) == above + [""] && Lines(s) == above + [line] + LinesBelow(after)
    ensures KeyAt(Lines(s), Above, name) == Plus(|above| + 1, KeyAt(LinesBelow(after), Inside, name))
  {
    above := LinesOfCut(before, line, after);
    Regroup(before, line, after);
    Regroup(above, [line], LinesBelow(after));
    NoneMatchInPart(DependenciesHeader, above, [""]);
    KeyBelowHeader(above, line, LinesBelow(after), name);
  }

  lemma KeyBelowHeader(above: seq<string>, line: string, below: seq<string>, name: string)
    requires NoneMatch(DependenciesHeader, above) && Matches(DependenciesHeader, line)
    ensures KeyAt(above + ([line] + below), Above, name) == Plus(|above| + 1, KeyAt(below, Inside, name))
  {
    KeyBelowPlain(above, [line] + below, name);
    KeyInFirst(line, below, name);
    PlusPlus(|above|, KeyAt(below, Inside, name));
  }

  lemma PlusPlus(n: nat, r: Option<nat>)
    ensures Plus(n, Plus(1, r)) == Plus(n + 1, r)
  {
  }

  /** The lines of any text below the same header. */
  lemma BelowSameHeader(before: string, line: string, q: string, next: string, above: seq<string>)
    requires EndsLine(before) && '\n' !in line && Lines(before) == above + [""] && next == before + line + "\n" + q
    ensures Lines(next) == above + [line] + Lines(q)
  {
    var pre := LinesAbove(before);
    SameInit(pre, above, "");
    Regroup(before, line, "\n");
    Regroup(before, line + "\n", q);
    OneLine(line);
    LinesOfJoined(line, q);
    Regroup(above, [line], Lines(q));
  }

  /** Line k of s is taken out, or nothing. */
  ghost predicate Edits(s: string, next: string, k: Option<nat>) {
    if k.None? then next == s else k.value < |Lines(s)| && Lines(next) == TakenOut(Lines(s), k.value)
  }

  lemma TakesOut(above: seq<string>, line: string, below: seq<string>)
    ensures TakenOut(above + ([line] + below), |above|) == above + if below == [] then [""] else below
  {
    var lines := above + ([line] + below);
    assert lines[..|above|] == above && lines[|above| + 1..] == below;
  }

  /** The editor changes nothing when its table has no line for the key, and otherwise takes out the first such line:
      every other line, each comment and all spacing included, stays as it is. */
  lemma EditIsOneLine(s: string, name: string)
    ensures Edits(s, WithoutKey(s, name), KeyAt(Lines(s), Above, name))
  {
    var h := FindLine(DependenciesHeader, s);
    if h.None? {
      NotFoundIs(DependenciesHeader, s);
      KeyBelowPlain(Lines(s), [], name);
      assert Lines(s) + [] == Lines(s);
    } else {
      var before, line, after := h.value.before, h.value.line, h.value.after;
      FoundIs(DependenciesHeader, s, before, line, after);
      EditBelowHeader(s, name, before, line, after);
    }
  }

  lemma EditBelowHeader(s: string, name: string, before: string, line: string, after: string)
    requires FindLine(DependenciesHeader, s) == Some(Cut(before, line, after))
    requires FirstMatch(DependenciesHeader, s, before, line, after)
    ensures Edits(s, WithoutKey(s, name), KeyAt(Lines(s), Above, name))
  {
    var above := LinesOfHeader(s, before, line, after, name);
    var at, q, within, key, below, rest := EditIs(s, name, before, line, after);
    EditFound(s, WithoutKey(s, name), before, line, LinesBelow(after), above, q, within, key, below, rest, at,
              KeyAt(Lines(s), Above, name));
  }

  lemma EditFound(s: string, next: string, before: string, line: string, table: seq<string>, above: seq<string>,
                  q: string, within: seq<string>, key: string, below: seq<string>, rest: seq<string>,
                  at: Option<nat>, k: Option<nat>)
    requires EndsLine(before) && '\n' !in line && Lines(before) == above + [""] && Lines(s) == above + [line] + table
    requires at.None? ==> next == s
    requires at.Some? ==> at.value == |within| && next == before + line + "\n" + q
    requires at.Some? ==> table == within + ([key] + below) && Lines(q) == within + rest
    requires rest == (if below == [] then [""] else below) && k == Plus(|above| + 1, at)
    ensures Edits(s, next, k)
  {
    if at.Some? {
      BelowSameHeader(before, line, q, next, above);
      TableEdited(Lines(s), Lines(next), above + [line], table, Lines(q), within, key, below, rest, k.value);
    }
  }

  lemma TableEdited(lines: seq<string>, next: seq<string>, above: seq<string>, table: seq<string>, edited: seq<string>,
                    within: seq<string>, key: string, below: seq<string>, rest: seq<string>, n: nat)
    requires lines == above + table && next == above + edited && table == within + ([key] + below)
            && edited == within + rest
    requires rest == (if below == [] then [""] else below) && n == |above| + |within|
    ensures n < |lines| && next == TakenOut(lines, n)
  {
    OneLess(lines, next, above, within, key, below, rest);
  }

  /** The edit, and the lines of the table before and after it. */
  lemma EditIs(s: string, name: string, before: string, line: string, after: string)
    returns (at: Option<nat>, q: string, within: seq<string>, key: string, below: seq<string>, rest: seq<string>)
    requires FindLine(DependenciesHeader, s) == Some(Cut(before, line, after)) && StartsLine(after)
    ensures at == KeyAt(LinesBelow(after), Inside, name)
    ensures at.None? ==> WithoutKey(s, name) == s
    ensures at.Some? ==> at.value == |within| && WithoutKey(s, name) == before + line + "\n" + q
    ensures at.Some? ==> LinesBelow(after) == within + ([key] + below) && Lines(q) == within + rest
    ensures rest == if below == [] then [""] else below
  {
    var table := SkipNewline(after);
    at, q, within, key, below, rest := KeyAt(LinesBelow(after), Inside, name), "", [], "", [], [""];
    if after == "" {
      NoKeyInEmpty(name);
      return;
    }
    var k := FindKey(table, name);
    if k.None? {
      FindKeyNone(table, name);
    } else {
      q := k.value.before + SkipNewline(k.value.after);
      within, rest := FindKeySome(table, name, k.value, q);
      key, below := k.value.line, LinesBelow(k.value.after);
    }
  }

  lemma NoKeyInEmpty(name: string)
    ensures FindKey("", name) == None
  {
    assert ""[..0] == "";
    assert FindLine(TableHeader, "") == None && FindLine(KeyLine(name), "") == None;
  }

  lemma OneLess(lines: seq<string>, next: seq<string>, above: seq<string>, within: seq<string>, key: string,
                below: seq<string>, rest: seq<string>)
    requires lines == above + (within + ([key] + below)) && next == above + (within + rest)
    requires rest == if below == [] then [""] else below
    ensures |above| + |within| < |lines| && next == TakenOut(lines, |above| + |within|)
  {
    Regroup(above, within, [key] + below);
    Regroup(above, within, rest);
    TakesOut(above + within, key, below);
  }

  /** So it leaves the text as it is exactly when it finds no line. */
  lemma EditChangesIff(s: string, name: string)
    ensures WithoutKey(s, name) == s <==> !Finds(s, name)
  {
    EditIsOneLine(s, name);
    var k := KeyAt(Lines(s), Above, name);
    if k.Some? {
      KeyIsNoHeader(name, Lines(s)[k.value]);
      TakenOutDiffers(Lines(s), k.value);
    }
  }

  lemma TakenOutDiffers(lines: seq<string>, k: nat)
    requires k < |lines| && lines[k] != ""
    ensures TakenOut(lines, k) != lines
  {
    if k + 1 == |lines| {
      assert TakenOut(lines, k)[k] == "";
    } else {
      assert |TakenOut(lines, k)| == |lines| - 1;
    }
  }

  // -------------------------------------------------------------- other keys

  /** A name that may stand between either kind of quotes. */
  predicate Quotable(name: string) {
    '"' !in name && '\'' !in name
  }

  /** The quoted key a line assigns. */
  function Key(line: string): Option<string> {
    var s := SkipBlanks(line);
    if s == "" || (s[0] != '"' && s[0] != '\'') then None
    else
      var i := IndexOf(s[1..], s[0]);
      if i == |s| - 1 then None
      else
        var t := SkipBlanks(s[i + 2..]);
        if t != "" && t[0] == '=' then Some(s[1..][..i]) else None
  }

  lemma KeyIs(line: string, name: string)
    requires Quotable(name)
    ensures Matches(KeyLine(name), line) <==> Key(line) == Some(name)
  {
    var s := SkipBlanks(line);
    if s != "" {
      KeyBetween('"', s, name);
      KeyBetween('\'', s, name);
    }
  }

  /** A name without quotes stands between the first two. */
  lemma KeyBetween(quote: char, s: string, name: string)
    requires s != "" && quote !in name
    ensures [quote] + name + [quote] <= s <==>
            s[0] == quote && IndexOf(s[1..], quote) < |s| - 1 && s[1..][..IndexOf(s[1..], quote)] == name
  {
    var i := IndexOf(s[1..], quote);
    var key := [quote] + name + [quote];
    if key <= s {
      assert key[0] == quote && key[|name| + 1] == quote;
      assert s[1..][..|name|] == key[1..][..|name|] == name;
      assert s[1..][|name|] == quote;
      assert forall j | 0 <= j < |name| :: s[1..][j] == name[j];
      assert i == |name|;
    }
    if s[0] == quote && i < |s| - 1 && s[1..][..i] == name {
      assert s[..i + 2] == [quote] + s[1..][..i] + [quote];
    }
  }

  lemma OneKey(line: string, a: string, b: string)
    requires Quotable(a) && Quotable(b) && Matches(KeyLine(a), line) && Matches(KeyLine(b), line)
    ensures a == b
  {
    KeyIs(line, a);
    KeyIs(line, b);
  }

  /** Taking out the line of one key leaves the others where they are, and makes none appear. */
  lemma {:induction false} OtherKeysStay(lines: seq<string>, at: Place, name: string, k: nat, other: string)
    requires Quotable(name) && Quotable(other) && KeyAt(lines, at, name) == Some(k)
    ensures KeyAt(TakenOut(lines, k), at, other).Some? ==> KeyAt(lines, at, other).Some?
    ensures other != name && KeyAt(lines, at, other).Some? ==> KeyAt(TakenOut(lines, k), at, other).Some?
  {
    if k == 0 {
      FirstKeyTaken(lines, name, other);
    } else {
      var line, rest := lines[0], lines[1..];
      OtherKeysStay(rest, Next(at, line), name, k - 1, other);
      SplitFirst(lines);
      TakenOutBelow(line, rest, k - 1);
      KeyOfFirst(line, TakenOut(rest, k - 1), at, other);
      KeyOfFirst(line, rest, at, other);
    }
  }

  lemma SplitFirst<T>(s: seq<T>)
    requires s != []
    ensures s == [s[0]] + s[1..]
  {
  }

  lemma FirstKeyTaken(lines: seq<string>, name: string, other: string)
    requires Quotable(name) && Quotable(other) && lines != [] && Matches(KeyLine(name), lines[0])
    ensures KeyAt(TakenOut(lines, 0), Inside, other).Some? ==> KeyAt(lines, Inside, other).Some?
    ensures other != name && KeyAt(lines, Inside, other).Some? ==> KeyAt(TakenOut(lines, 0), Inside, other).Some?
  {
    if Matches(KeyLine(other), lines[0]) { OneKey(lines[0], name, other); }
    KeyIsNoHeader(name, lines[0]);
    assert TakenOut(lines, 0) == if lines[1..] == [] then [""] else lines[1..];
  }

  lemma KeyOfFirst(line: string, rest: seq<string>, at: Place, name: string)
    ensures KeyAt([line] + rest, at, name) ==
            if at == Inside && Matches(KeyLine(name), line) then Some(0) else Plus(1, KeyAt(rest, Next(at, line), name))
  {
    HeadAndTail(line, rest);
  }

  lemma TakenOutBelow(line: string, rest: seq<string>, k: nat)
    requires k < |rest|
    ensures TakenOut([line] + rest, k + 1) == [line] + TakenOut(rest, k)
  {
    var lines := [line] + rest;
    assert lines[..k + 1] == [line] + rest[..k] && lines[k + 2..] == rest[k + 1..];
  }

  // ------------------------------------------------- texts of single lines

  predicate Skipped(line: string) {
    EndsOrComments(SkipBlanks(line))
  }

  /** What the lines of a text declare in which each line of the dependencies table is blank, a comment, or one
      declaration with a quoted key, as the editor writes them. A key or a table that comes twice is an error. */
  function Declared(value: string -> Option<string>, lines: seq<string>, at: Place): Option<map<string, string>> {
    if lines == [] then Some(map[])
    else WithLine(value, lines[0], at, Declared(value, lines[1..], Next(at, lines[0])))
  }

  function WithLine(value: string -> Option<string>, line: string, at: Place, below: Option<map<string, string>>)
    : Option<map<string, string>>
  {
    if at == Inside && !Matches(TableHeader, line) && !Skipped(line) then
      match (Key(line), value(line), below)
      case (Some(key), Some(v), Some(deps)) => if key in deps then None else Some(deps[key := v])
      case _ => None
    else if at != Above && Matches(DependenciesHeader, line) then None
    else below
  }

  function PlainToml(value: string -> Option<string>): Toml {
    (text: string) => Declared(value, Lines(text), Above)
  }

  /** In such a text every declaration is one the editor finds, and it finds no other. */
  lemma {:induction false} FoundIffDeclared(value: string -> Option<string>, lines: seq<string>, at: Place,
                                            name: string)
    requires Quotable(name) && Declared(value, lines, at).Some?
    ensures name in Declared(value, lines, at).value <==> KeyAt(lines, at, name).Some?
  {
    if lines != [] {
      FoundIffDeclared(value, lines[1..], Next(at, lines[0]), name);
      KeyIs(lines[0], name);
      if Matches(KeyLine(name), lines[0]) {
        KeyIsNoHeader(name, lines[0]);
        KeyIsNotSkipped(lines[0], name);
      }
    }
  }

  lemma KeyIsNotSkipped(line: string, name: string)
    requires Quotable(name) && Matches(KeyLine(name), line)
    ensures !Skipped(line)
  {
    KeyIs(line, name);
  }

  /** A line of another key does not mind a declaration less below it. */
  lemma WithLineWithout(value: string -> Option<string>, line: string, at: Place, below: Option<map<string, string>>,
                        name: string)
    requires Quotable(name) && !(at == Inside && Matches(KeyLine(name), line)) && WithLine(value, line, at, below).Some?
    ensures below.Some?
    ensures WithLine(value, line, at, Some(below.value - {name})) ==
            Some(WithLine(value, line, at, below).value - {name})
  {
    KeyIs(line, name);
    if at == Inside && !Matches(TableHeader, line) && !Skipped(line) {
      var deps, key, v := below.value, Key(line).value, value(line).value;
      assert deps[key := v] - {name} == (deps - {name})[key := v];
    }
  }

  lemma WithLineOf(value: string -> Option<string>, line: string, below: Option<map<string, string>>, name: string)
    requires Quotable(name) && Matches(KeyLine(name), line) && WithLine(value, line, Inside, below).Some?
    ensures below.Some? && name !in below.value && WithLine(value, line, Inside, below).value - {name} == below.value
  {
    KeyIs(line, name);
    KeyIsNoHeader(name, line);
    KeyIsNotSkipped(line, name);
  }

  /** Taking out its line takes out the declaration and nothing else. */
  lemma {:induction false} LineIsDeclaration(value: string -> Option<string>, lines: seq<string>, at: Place,
                                             name: string, k: nat)
    requires Quotable(name) && KeyAt(lines, at, name) == Some(k) && Declared(value, lines, at).Some?
    ensures Declared(value, TakenOut(lines, k), at) == Some(Declared(value, lines, at).value - {name})
  {
    var line, rest := lines[0], lines[1..];
    var below := Declared(value, rest, Next(at, line));
    if k == 0 {
      WithLineOf(value, line, below, name);
      KeyIsNoHeader(name, line);
      assert TakenOut(lines, 0) == if rest == [] then [""] else rest;
      NothingDeclared(value, at);
    } else {
      WithLineWithout(value, line, at, below, name);
      LineIsDeclaration(value, rest, Next(at, line), name, k - 1);
      assert lines == [line] + rest;
      TakenOutBelow(line, rest, k - 1);
      HeadAndTail(line, TakenOut(rest, k - 1));
    }
  }

  lemma NothingDeclared(value: string -> Option<string>, at: Place)
    ensures Declared(value, [""], at) == Some(map[])
  {
    assert [""][1..] == [];
  }

  // ------------------------------------------------------------ all removals

  function TextAfter(text: string, names: seq<string>): string {
    if names == [] then text else WithoutKey(TextAfter(text, names[..|names| - 1]), names[|names| - 1])
  }

  /** How often the file is written on the way: only when a line is found. */
  function Writes(text: string, names: seq<string>): nat {
    if names == [] then 0
    else
      var init, n := names[..|names| - 1], names[|names| - 1];
      Writes(text, init) + if Finds(TextAfter(text, init), n) then 1 else 0
  }

  /** The edited text parses and no longer declares the name. */
  predicate Accepts(toml: Toml, text: string, name: string) {
    Finds(text, name) ==> toml(WithoutKey(text, name)).Some? && name !in toml(WithoutKey(text, name)).value
  }

  /** Each edit on the way is accepted. */
  predicate AllAccepted(toml: Toml, text: string, names: seq<string>) {
    names != [] ==>
      var init, n := names[..|names| - 1], names[|names| - 1];
      AllAccepted(toml, text, init) && Accepts(toml, TextAfter(text, init), n)
  }

  /** One edit more. */
  lemma NextEdit(toml: Toml, text: string, names: seq<string>, i: nat)
    requires i < |names|
    ensures TextAfter(text, names[..i + 1]) == WithoutKey(TextAfter(text, names[..i]), names[i])
    ensures Writes(text, names[..i + 1]) ==
            Writes(text, names[..i]) + if Finds(TextAfter(text, names[..i]), names[i]) then 1 else 0
    ensures AllAccepted(toml, text, names[..i + 1]) <==>
            AllAccepted(toml, text, names[..i]) && Accepts(toml, TextAfter(text, names[..i]), names[i])
    ensures Writes(text, names[..i + 1]) <= Writes(text, names)
    ensures AllAccepted(toml, text, names) ==> AllAccepted(toml, text, names[..i + 1])
  {
    TakeNext(names, i);
    OneEditMore(toml, text, names[..i], names[i]);
    EditsSoFar(toml, text, names, i + 1);
  }

  lemma OneEditMore(toml: Toml, text: string, init: seq<string>, n: string)
    ensures TextAfter(text, init + [n]) == WithoutKey(TextAfter(text, init), n)
    ensures Writes(text, init + [n]) == Writes(text, init) + if Finds(TextAfter(text, init), n) then 1 else 0
    ensures AllAccepted(toml, text, init + [n]) <==>
            AllAccepted(toml, text, init) && Accepts(toml, TextAfter(text, init), n)
  {
    InitOfAppended(init, n);
  }

  lemma {:induction false} EditsSoFar(toml: Toml, text: string, names: seq<string>, i: nat)
    requires i <= |names|
    ensures Writes(text, names[..i]) <= Writes(text, names)
    ensures AllAccepted(toml, text, names) ==> AllAccepted(toml, text, names[..i])
  {
    if i < |names| {
      var init := names[..|names| - 1];
      EditsSoFar(toml, text, init, i);
      assert init[..i] == names[..i];
    } else {
      assert names[..i] == names;
    }
  }

  /** In this text the line of the name is its declaration, and only that. */
  predicate LineDeclares(toml: Toml, text: string, name: string) {
    toml(text).Some?
    && (Finds(text, name) ==>
          name in toml(text).value && toml(WithoutKey(text, name)) == Some(toml(text).value - {name}))
  }

  /** Each removal meets such a text. */
  ghost predicate LineByLine(toml: Toml, text: string, names: seq<string>) {
    forall i | 0 <= i < |names| :: LineDeclares(toml, TextAfter(text, names[..i]), names[i])
  }

  function FoundAmong(text: string, names: seq<string>): set<string> {
    set n | n in names && Finds(text, n)
  }

  lemma OtherKeysFound(text: string, name: string, other: string)
    requires Quotable(name) && Quotable(other)
    ensures Finds(WithoutKey(text, name), other) ==> Finds(text, other)
    ensures other != name && Finds(text, other) ==> Finds(WithoutKey(text, name), other)
  {
    EditIsOneLine(text, name);
    var k := KeyAt(Lines(text), Above, name);
    if k.Some? {
      OtherKeysStay(Lines(text), Above, name, k.value, other);
    }
  }

  /** What later edits find. */
  lemma {:induction false} FoundAfter(text: string, names: seq<string>, other: string)
    requires Quotable(other) && forall n | n in names :: Quotable(n)
    ensures Finds(TextAfter(text, names), other) ==> Finds(text, other)
    ensures other !in names && Finds(text, other) ==> Finds(TextAfter(text, names), other)
  {
    if names != [] {
      var init, n := names[..|names| - 1], names[|names| - 1];
      FoundAfter(text, init, other);
      OtherKeysFound(TextAfter(text, init), n, other);
    }
  }

  lemma LineByLineInit(toml: Toml, text: string, init: seq<string>, n: string)
    requires LineByLine(toml, text, init + [n])
    ensures LineByLine(toml, text, init) && LineDeclares(toml, TextAfter(text, init), n)
  {
    var names := init + [n];
    assert names[..|init|] == init && names[|init|] == n;
    assert forall i | 0 <= i < |init| :: names[..i] == init[..i] && names[i] == init[i];
  }

  /** Exactly the names that the editor finds in the first text are gone, at one write each. */
  lemma {:induction false} DeclaredAfter(toml: Toml, text: string, names: seq<string>)
    requires LineByLine(toml, text, names) && toml(text).Some? && forall n | n in names :: Quotable(n)
    ensures toml(TextAfter(text, names)) == Some(toml(text).value - FoundAmong(text, names))
    ensures Writes(text, names) == |FoundAmong(text, names)|
  {
    if names == [] {
      assert FoundAmong(text, names) == {} && toml(text).value - {} == toml(text).value;
    } else {
      var init, n := names[..|names| - 1], names[|names| - 1];
      InitAndLast(names);
      LineByLineInit(toml, text, init, n);
      DeclaredAfter(toml, text, init);
      DeclaredNext(toml, toml(text).value, TextAfter(text, init), n, FoundAmong(text, init));
      FoundAlready(text, init, n);
    }
  }

  /** What one more removal adds to the names that are gone. */
  lemma FoundAlready(text: string, init: seq<string>, n: string)
    requires Quotable(n) && forall m | m in init :: Quotable(m)
    requires Finds(TextAfter(text, init), n) ==> n !in FoundAmong(text, init)
    ensures FoundAmong(text, init + [n]) == FoundAmong(text, init) + if Finds(TextAfter(text, init), n) then {n} else {}
  {
    FoundAfter(text, init, n);
    FoundOneMore(text, init, n);
  }

  lemma FoundOneMore(text: string, init: seq<string>, n: string)
    ensures FoundAmong(text, init + [n]) == FoundAmong(text, init) + if Finds(text, n) then {n} else {}
    ensures n in FoundAmong(text, init) <==> n in init && Finds(text, n)
  {
  }

  /** One more removal, when some names are gone already. */
  lemma DeclaredNext(toml: Toml, deps: map<string, string>, text: string, n: string, gone: set<string>)
    requires LineDeclares(toml, text, n) && toml(text) == Some(deps - gone)
    ensures Finds(text, n) ==> n !in gone
    ensures toml(WithoutKey(text, n)) == Some(deps - (gone + if Finds(text, n) then {n} else {}))
    ensures |gone + if Finds(text, n) then {n} else {}| == |gone| + if Finds(text, n) then 1 else 0
  {
    EditChangesIff(text, n);
    if Finds(text, n) {
      assert deps - gone - {n} == deps - (gone + {n});
    } else {
      assert gone + {} == gone;
    }
  }

  lemma PlainLineDeclares(value: string -> Option<string>, text: string, name: string)
    requires PlainToml(value)(text).Some? && Quotable(name)
    ensures LineDeclares(PlainToml(value), text, name) && PlainToml(value)(WithoutKey(text, name)).Some?
  {
    EditIsOneLine(text, name);
    FoundIffDeclared(value, Lines(text), Above, name);
    var k := KeyAt(Lines(text), Above, name);
    if k.Some? {
      LineIsDeclaration(value, Lines(text), Above, name, k.value);
    }
  }

  lemma {:induction false} PlainAfter(value: string -> Option<string>, text: string, names: seq<string>)
    requires PlainToml(value)(text).Some? && forall n | n in names :: Quotable(n)
    ensures PlainToml(value)(TextAfter(text, names)).Some?
  {
    if names != [] {
      PlainAfter(value, text, names[..|names| - 1]);
      PlainLineDeclares(value, TextAfter(text, names[..|names| - 1]), names[|names| - 1]);
    }
  }

  /** In a text of single lines every removal does, and every declaration is found. */
  lemma PlainIsLineByLine(value: string -> Option<string>, text: string, names: seq<string>)
    requires PlainToml(value)(text).Some? && forall n | n in names :: Quotable(n)
    ensures LineByLine(PlainToml(value), text, names)
    ensures forall n | n in PlainToml(value)(text).value && Quotable(n) :: Finds(text, n)
  {
    forall i | 0 <= i < |names| ensures LineDeclares(PlainToml(value), TextAfter(text, names[..i]), names[i]) {
      PlainAfter(value, text, names[..i]);
      PlainLineDeclares(value, TextAfter(text, names[..i]), names[i]);
    }
    forall n | n in PlainToml(value)(text).value && Quotable(n) ensures Finds(text, n) {
      FoundIffDeclared(value, Lines(text), Above, n);
    }
  }

  // ------------------------------------------------ declarations not found

  lemma {:induction false} NoHeaderNoKey(text: string, name: string)
    requires NoneMatch(DependenciesHeader, Lines(text))
    ensures !Finds(text, name)
  {
    KeyBelowPlain(Lines(text), [], name);
    assert Lines(text) + [] == Lines(text);
  }

  lemma {:induction false} SkipBlanksKeeps(s: string)
    ensures |SkipBlanks(s)| <= |s| && SkipBlanks(s) == s[|s| - |SkipBlanks(s)|..]
  {
    if s != "" && (s[0] == ' ' || s[0] == '\t') {
      SkipBlanksKeeps(s[1..]);
    }
  }

  lemma {:induction false} LinesHold(text: string, c: char)
    requires c !in text
    ensures forall i | 0 <= i < |Lines(text)| :: c !in Lines(text)[i]
  {
    var e := IndexOf(text, '\n');
    if e < |text| {
      LinesHold(text[e + 1..], c);
    }
  }

  /** A text without a table finds nothing: an inline table, or dotted keys. */
  lemma WithoutTableNothingFound(text: string, name: string)
    requires '[' !in text
    ensures !Finds(text, name)
  {
    LinesHold(text, '[');
    forall i | 0 <= i < |Lines(text)| ensures !Matches(DependenciesHeader, Lines(text)[i]) {
      SkipBlanksKeeps(Lines(text)[i]);
      assert HEADER[0] == '[';
    }
    NoHeaderNoKey(text, name);
  }

  lemma {:induction false} SkipBlanksOf(s: string, c: char)
    requires c != ' ' && c != '\t'
    ensures SkipBlanks(s + [c]) == SkipBlanks(s) + [c]
            && (forall d | d != ' ' && d != '\t' :: d in s <==> d in SkipBlanks(s))
  {
    if s != "" && (s[0] == ' ' || s[0] == '\t') {
      SkipBlanksOf(s[1..], c);
      assert (s + [c])[1..] == s[1..] + [c];
      assert s == [s[0]] + s[1..];
    }
  }

  /** With a carriage return at its end, a header line is one if and only if a comment follows the header. */
  lemma CarriageReturnHides(line: string)
    ensures Matches(DependenciesHeader, line + "\r") <==> Matches(DependenciesHeader, line) && '#' in line
  {
    var s := SkipBlanks(line);
    SkipBlanksOf(line, '\r');
    assert HEADER[|HEADER| - 1] == ']';
    assert HEADER <= s + "\r" ==> (s + "\r")[|HEADER| - 1] == ']';
    assert HEADER <= s + "\r" <==> HEADER <= s;
    if HEADER <= s {
      var t := s[|HEADER|..];
      assert s == HEADER + t && (s + "\r")[|HEADER|..] == t + "\r";
      SkipBlanksOf(t, '\r');
      assert '#' !in HEADER;
      assert '#' in line <==> '#' in SkipBlanks(t);
    }
  }

  /** So a text with carriage returns and without comments finds nothing. */
  lemma CarriageReturnsNothingFound(text: string, name: string)
    requires '#' !in text
    requires forall i | 0 <= i < |Lines(text)| :: Lines(text)[i] == "" || Lines(text)[i][|Lines(text)[i]| - 1] == '\r'
    ensures !Finds(text, name)
  {
    LinesHold(text, '#');
    forall i | 0 <= i < |Lines(text)| ensures !Matches(DependenciesHeader, Lines(text)[i]) {
      var line := Lines(text)[i];
      if line != "" {
        var front := line[..|line| - 1];
        assert line == front + "\r";
        CarriageReturnHides(front);
      }
    }
    NoHeaderNoKey(text, name);
  }

  lemma TwoCarriageReturns(a: string, b: string, name: string)
    requires '\n' !in a && '\n' !in b && '#' !in a && '#' !in b
    ensures !Finds(a + "\r" + "\n" + (b + "\r" + "\n" + ""), name)
  {
    var header, key := a + "\r", b + "\r";
    var text := header + "\n" + (key + "\n" + "");
    OneLine(header);
    OneLine(key);
    OneLine("");
    LinesOfJoined(key, "");
    LinesOfJoined(header, key + "\n" + "");
    assert Lines(text) == [header] + ([key] + [""]);
    CarriageReturnsNothingFound(text, name);
  }

  /** The table of one declaration, as an editor that ends lines with both characters writes it. */
  const WITH_RETURNS := "[dependencies]" + "\r" + "\n" + ("\"@a/x\" = \"1.0.0\"" + "\r" + "\n" + "")

  lemma CarriageReturnNotFound(name: string)
    ensures !Finds(WITH_RETURNS, name)
  {
    var header, key := "[dependencies]", "\"@a/x\" = \"1.0.0\"";
    assert '\n' !in header && '#' !in header;
    assert '\n' !in key && '#' !in key;
    TwoCarriageReturns(header, key, name);
  }

  const REPORT := "report-id = \"r1\"\n"

  const TABLE := "dependencies = { \"@a/x\" = \"1.0.0\" }\n"

  /** The same declaration in an inline table. */
  const INLINE := REPORT + TABLE

  lemma InlineTableNotFound(name: string)
    ensures !Finds(INLINE, name)
  {
    NoBracketInReport();
    NoBracketInTable();
    WithoutTableNothingFound(INLINE, name);
  }

  lemma NoBracketInReport()
    ensures '[' !in REPORT
  {
  }

  lemma NoBracketInTable()
    ensures '[' !in TABLE
  {
  }
}
